/** Reading unsigned numbers from text, with and without comments in it. */
module NumberReader {

  type Byte = b: int | 0 <= b < 256

  const Newline: Byte := 10
  const Sharp: Byte := 35
  const Zero: Byte := 48

  /** isspace: blank, tab, line feed, vertical tab, form feed, carriage return. */
  predicate IsSpace(c: Byte) {
    c == 32 || 9 <= c <= 13
  }

  predicate IsDigit(c: Byte) {
    Zero <= c <= Zero + 9
  }

  lemma Characters(c: Byte)
    ensures IsSpace(c) <==> c == 9 || c == 10 || c == 11 || c == 12 || c == 13 || c == 32
    ensures IsDigit(c) <==> c == 48 || c == 49 || c == 50 || c == 51 || c == 52 || c == 53 || c == 54 || c == 55 || c == 56 || c == 57
  {
  }

  /** aktive_uint arithmetic. */
  function Accumulate(v: nat, c: Byte): nat
    requires IsDigit(c)
  {
    (10 * v + (c - Zero)) % 0x1_0000_0000
  }

  /** States of the automaton. */
  datatype Mode = Leader | Digits | Trails

  /** Whether a number was read, which, and where reading stopped. */
  datatype Reading = Reading(ok: bool, v: nat, pos: nat)

  // - - -- --- ----- -------- Plain text

  /** aktive_get_uint_str, from some state of its automaton. */
  function Scan(s: seq<Byte>, pos: nat, mode: Mode, v: nat): Reading
    decreases |s| - pos
  {
    if pos >= |s| then Reading(mode != Leader, v, pos)
    else if IsSpace(s[pos]) then Scan(s, pos + 1, if mode == Leader then Leader else Trails, v)
    else if mode == Trails then Reading(true, v, pos)
    else if !IsDigit(s[pos]) then Reading(false, v, pos + 1)
    else Scan(s, pos + 1, Digits, Accumulate(v, s[pos]))
  }

  /** aktive_get_uint_str. */
  method GetUintStr(s: seq<Byte>, start: nat) returns (ok: bool, v: nat, pos: nat)
    ensures Reading(ok, v, pos) == Scan(s, start, Leader, 0)
  {
    v, pos := 0, start;
    var mode := Leader;
    while true
      invariant Scan(s, pos, mode, v) == Scan(s, start, Leader, 0)
      decreases |s| - pos
    {
      if pos >= |s| { return mode != Leader, v, pos; }
      var c := s[pos];
      pos := pos + 1;
      if mode == Trails {
        if !IsSpace(c) { return true, v, pos - 1; }
      } else if IsSpace(c) {
        if mode == Digits { mode := Trails; }
      } else {
        mode := Digits;
        if !IsDigit(c) { return false, v, pos; }
        v := Accumulate(v, c);
      }
    }
  }

  ghost predicate AllSpace(s: seq<Byte>, lo: nat, hi: nat)
    requires hi <= |s|
  {
    forall k :: lo <= k < hi ==> IsSpace(s[k])
  }

  ghost predicate AllDigits(s: seq<Byte>, lo: nat, hi: nat)
    requires hi <= |s|
  {
    forall k :: lo <= k < hi ==> IsDigit(s[k])
  }

  /** The number written at lo..hi. */
  ghost function Decimal(s: seq<Byte>, lo: nat, hi: nat): nat
    requires hi <= |s| && AllDigits(s, lo, hi)
    decreases hi
  {
    if lo >= hi then 0 else 10 * Decimal(s, lo, hi - 1) + (s[hi-1] - Zero)
  }

  /** White space, at least one digit, and white space up to the next other character;
      no other character touches the digits. */
  ghost predicate Number(s: seq<Byte>, start: nat, i: nat, j: nat, pos: nat) {
    && start <= i < j <= pos <= |s|
    && AllSpace(s, start, i) && AllDigits(s, i, j) && AllSpace(s, j, pos)
    && (j == |s| || IsSpace(s[j])) && (pos == |s| || !IsSpace(s[pos]))
  }

  lemma {:induction false} TrailsScan(s: seq<Byte>, pos: nat, v: nat)
    requires pos <= |s|
    ensures var r := Scan(s, pos, Trails, v);
            && r.ok && r.v == v && pos <= r.pos <= |s| && AllSpace(s, pos, r.pos) && (r.pos == |s| || !IsSpace(s[r.pos]))
    decreases |s| - pos
  {
    if pos < |s| && IsSpace(s[pos]) { TrailsScan(s, pos + 1, v); }
  }

  /** The digits end where something else comes, and that had better be white space. */
  lemma {:induction false} DigitsScan(s: seq<Byte>, i: nat, pos: nat, v: nat) returns (j: nat)
    requires i < pos <= |s| && AllDigits(s, i, pos) && v == Decimal(s, i, pos) % 0x1_0000_0000
    ensures pos <= j <= |s| && AllDigits(s, i, j) && (j < |s| ==> !IsDigit(s[j]))
    ensures var r := Scan(s, pos, Digits, v);
            && (r.ok <==> j == |s| || IsSpace(s[j]))
            && (r.ok ==> r.v == Decimal(s, i, j) % 0x1_0000_0000 && Number(s, i, i, j, r.pos))
    decreases |s| - pos
  {
    j := pos;
    if pos < |s| {
      if IsDigit(s[pos]) {
        ModAccumulate(Decimal(s, i, pos), s[pos]);
        j := DigitsScan(s, i, pos + 1, Accumulate(v, s[pos]));
      } else if IsSpace(s[pos]) {
        TrailsScan(s, pos + 1, v);
      }
    }
  }

  lemma ModAccumulate(d: nat, c: Byte)
    requires IsDigit(c)
    ensures Accumulate(d % 0x1_0000_0000, c) == (10 * d + (c - Zero)) % 0x1_0000_0000
  {
    var q, m := d / 0x1_0000_0000, d % 0x1_0000_0000;
    var r := (10 * m + (c - Zero)) % 0x1_0000_0000;
    var p := (10 * m + (c - Zero)) / 0x1_0000_0000;
    ModOf(10 * d + (c - Zero), 10 * q + p, r);
  }

  lemma ModOf(a: int, q: int, r: int)
    requires a == q * 0x1_0000_0000 + r && 0 <= r < 0x1_0000_0000
    ensures a % 0x1_0000_0000 == r
  {
  }

  lemma {:induction false} LeaderScan(s: seq<Byte>, pos: nat) returns (i: nat)
    requires pos <= |s|
    ensures pos <= i <= |s| && AllSpace(s, pos, i) && (i < |s| ==> !IsSpace(s[i]))
    ensures Scan(s, pos, Leader, 0) == Scan(s, i, Leader, 0)
    decreases |s| - pos
  {
    i := pos;
    if pos < |s| && IsSpace(s[pos]) { i := LeaderScan(s, pos + 1); }
  }

  /** What aktive_get_uint_str accepts: exactly the texts that begin with a number,
      and it returns the number, modulo 2^32, and stops at the next character that is
      not white space. */
  lemma ScanAccepts(s: seq<Byte>, start: nat, i: nat, j: nat, pos: nat)
    requires start <= |s| && Number(s, start, i, j, pos)
    ensures Scan(s, start, Leader, 0) == Reading(true, Decimal(s, i, j) % 0x1_0000_0000, pos)
  {
    var i' := LeaderScan(s, start);
    assert !IsSpace(s[i]) && i' == i;
    var j' := DigitsScan(s, i, i + 1, Accumulate(0, s[i]));
    assert j' == j;
  }

  lemma ScanReads(s: seq<Byte>, start: nat) returns (i: nat, j: nat)
    requires start <= |s| && Scan(s, start, Leader, 0).ok
    ensures Number(s, start, i, j, Scan(s, start, Leader, 0).pos)
    ensures Scan(s, start, Leader, 0).v == Decimal(s, i, j) % 0x1_0000_0000
  {
    i := LeaderScan(s, start);
    j := DigitsScan(s, i, i + 1, Accumulate(0, s[i]));
  }

  /** The text 7, carriage return, line feed, 5: the number is 7, and reading goes on at 5. */
  lemma LineEndSkipped(s: seq<Byte>)
    requires s == [55, 13, 10, 53]
    ensures Scan(s, 0, Leader, 0) == Reading(true, 7, 3)
  {
    assert Scan(s, 3, Trails, 7) == Reading(true, 7, 3);
    assert Scan(s, 1, Digits, 7) == Scan(s, 2, Trails, 7) == Scan(s, 3, Trails, 7);
  }

  // - - -- --- ----- -------- Text with comments

  /** aktive_get_uint_strcom, from some state of its automaton. */
  function ScanCom(s: seq<Byte>, pos: nat, mode: Mode, v: nat, skip: bool): Reading
    decreases |s| - pos
  {
    if pos >= |s| then Reading(mode != Leader, v, pos)
    else if skip then ScanCom(s, pos + 1, mode, v, s[pos] != Newline)
    else if s[pos] == Sharp then ScanCom(s, pos + 1, mode, v, true)
    else if IsSpace(s[pos]) then ScanCom(s, pos + 1, if mode == Leader then Leader else Trails, v, false)
    else if mode == Trails then Reading(true, v, pos)
    else if !IsDigit(s[pos]) then Reading(false, v, pos + 1)
    else ScanCom(s, pos + 1, Digits, Accumulate(v, s[pos]), false)
  }

  /** aktive_get_uint_strcom. */
  method GetUintStrcom(s: seq<Byte>, start: nat) returns (ok: bool, v: nat, pos: nat)
    ensures Reading(ok, v, pos) == ScanCom(s, start, Leader, 0, false)
  {
    v, pos := 0, start;
    var mode, skip := Leader, false;
    while true
      invariant ScanCom(s, pos, mode, v, skip) == ScanCom(s, start, Leader, 0, false)
      decreases |s| - pos
    {
      if pos >= |s| { return mode != Leader, v, pos; }
      var c := s[pos];
      pos := pos + 1;
      if skip {
        if c == Newline { skip := false; }
      } else if c == Sharp {
        skip := true;
      } else if mode == Trails {
        if !IsSpace(c) { return true, v, pos - 1; }
      } else if IsSpace(c) {
        if mode == Digits { mode := Trails; }
      } else {
        mode := Digits;
        if !IsDigit(c) { return false, v, pos; }
        v := Accumulate(v, c);
      }
    }
  }

  /** The text from `pos` on without its comments, each from a sharp up to and with
      the end of the line. */
  function Erased(s: seq<Byte>, pos: nat, skip: bool): seq<Byte>
    decreases |s| - pos
  {
    if pos >= |s| then []
    else if skip then Erased(s, pos + 1, s[pos] != Newline)
    else if s[pos] == Sharp then Erased(s, pos + 1, true)
    else [s[pos]] + Erased(s, pos + 1, false)
  }

  function Later(r: Reading): Reading {
    r.(pos := r.pos + 1)
  }

  lemma {:induction false} ScanLater(c: Byte, s: seq<Byte>, pos: nat, mode: Mode, v: nat)
    ensures Scan([c] + s, pos + 1, mode, v) == Later(Scan(s, pos, mode, v))
    decreases |s| - pos
  {
    if pos < |s| {
      assert ([c] + s)[pos + 1] == s[pos];
      if IsSpace(s[pos]) {
        ScanLater(c, s, pos + 1, if mode == Leader then Leader else Trails, v);
      } else if mode != Trails && IsDigit(s[pos]) {
        ScanLater(c, s, pos + 1, Digits, Accumulate(v, s[pos]));
      }
    }
  }

  /** Reading from `s` came out as reading from the text `rest` without comments did. */
  ghost predicate Agree(s: seq<Byte>, rest: seq<Byte>, a: Reading, b: Reading) {
    && a.ok == b.ok
    && (a.ok ==> a.v == b.v && b.pos <= |rest| && Erased(s, a.pos, false) == rest[b.pos..])
  }

  lemma AgreeLater(s: seq<Byte>, c: Byte, rest: seq<Byte>, a: Reading, b: Reading)
    requires Agree(s, rest, a, b)
    ensures Agree(s, [c] + rest, a, Later(b))
  {
  }

  /** Comments make no difference, wherever they are, even inside a number: the same
      number is read as from the text without them, and what is left after it is the
      same text without comments, too. */
  lemma {:induction false} CommentsErased(s: seq<Byte>, pos: nat, mode: Mode, v: nat, skip: bool)
    ensures Agree(s, Erased(s, pos, skip), ScanCom(s, pos, mode, v, skip), Scan(Erased(s, pos, skip), 0, mode, v))
    decreases |s| - pos, 1
  {
    if pos < |s| {
      if skip {
        CommentsErased(s, pos + 1, mode, v, s[pos] != Newline);
      } else if s[pos] == Sharp {
        CommentsErased(s, pos + 1, mode, v, true);
      } else if IsSpace(s[pos]) {
        CommentsErasedNext(s, pos, if mode == Leader then Leader else Trails, v);
      } else if mode != Trails && IsDigit(s[pos]) {
        CommentsErasedNext(s, pos, Digits, Accumulate(v, s[pos]));
      }
    }
  }

  lemma {:induction false} CommentsErasedNext(s: seq<Byte>, pos: nat, mode: Mode, v: nat)
    requires pos < |s|
    ensures var rest := Erased(s, pos + 1, false);
            Agree(s, [s[pos]] + rest, ScanCom(s, pos + 1, mode, v, false), Scan([s[pos]] + rest, 1, mode, v))
    decreases |s| - pos, 0
  {
    var rest := Erased(s, pos + 1, false);
    CommentsErased(s, pos + 1, mode, v, false);
    ScanLater(s[pos], rest, 0, mode, v);
    AgreeLater(s, s[pos], rest, ScanCom(s, pos + 1, mode, v, false), Scan(rest, 0, mode, v));
  }

  /** A comment inside a number: 1, a comment up to the end of the line, 2. */
  lemma CommentInNumber(s: seq<Byte>)
    requires s == [49, 35, 120, 10, 50]
    ensures ScanCom(s, 0, Leader, 0, false) == Reading(true, 12, 5) && Erased(s, 0, false) == [49, 50]
  {
    assert ScanCom(s, 5, Digits, 12, false) == Reading(true, 12, 5);
    assert ScanCom(s, 3, Digits, 1, true) == ScanCom(s, 4, Digits, 1, false);
    assert ScanCom(s, 1, Digits, 1, false) == ScanCom(s, 2, Digits, 1, true);
    assert Erased(s, 5, false) == [] && Erased(s, 4, false) == [50] + Erased(s, 5, false);
    assert Erased(s, 2, true) == Erased(s, 3, true) == Erased(s, 4, false);
    assert Erased(s, 0, false) == [49] + Erased(s, 1, false);
  }

  /** Text without a sharp reads as without comments. */
  lemma {:induction false} NoComments(s: seq<Byte>, pos: nat, mode: Mode, v: nat)
    requires forall k :: pos <= k < |s| ==> s[k] != Sharp
    ensures ScanCom(s, pos, mode, v, false) == Scan(s, pos, mode, v)
    decreases |s| - pos
  {
    if pos < |s| {
      if IsSpace(s[pos]) {
        NoComments(s, pos + 1, if mode == Leader then Leader else Trails, v);
      } else if mode != Trails && IsDigit(s[pos]) {
        NoComments(s, pos + 1, Digits, Accumulate(v, s[pos]));
      }
    }
  }

  // - - -- --- ----- -------- Text in front of binary data

  /** aktive_get_uint_strsharp, from some state of its automaton. */
  function ScanSharp(s: seq<Byte>, pos: nat, mode: Mode, v: nat): Reading
    decreases |s| - pos
  {
    if pos >= |s| then Reading(mode != Leader, v, pos)
    else if IsSpace(s[pos]) then if mode == Leader then ScanSharp(s, pos + 1, Leader, v) else Reading(true, v, pos + 1)
    else if !IsDigit(s[pos]) then Reading(false, v, pos + 1)
    else ScanSharp(s, pos + 1, Digits, Accumulate(v, s[pos]))
  }

  /** aktive_get_uint_strsharp. */
  method GetUintStrsharp(s: seq<Byte>, start: nat) returns (ok: bool, v: nat, pos: nat)
    ensures Reading(ok, v, pos) == ScanSharp(s, start, Leader, 0)
  {
    v, pos := 0, start;
    var mode := Leader;
    while true
      invariant mode != Trails && ScanSharp(s, pos, mode, v) == ScanSharp(s, start, Leader, 0)
      decreases |s| - pos
    {
      if pos >= |s| { return mode != Leader, v, pos; }
      var c := s[pos];
      pos := pos + 1;
      if IsSpace(c) {
        if mode == Digits { return true, v, pos; }
      } else {
        mode := Digits;
        if !IsDigit(c) { return false, v, pos; }
        v := Accumulate(v, c);
      }
    }
  }

  /** It accepts the same texts, and reads the same numbers, but takes only one
      character of white space after them: binary data may look like more of it. */
  lemma {:induction false} SharpStops(s: seq<Byte>, i: nat, pos: nat, v: nat, j: nat)
    requires i < pos <= j <= |s| && AllDigits(s, pos, j) && (j < |s| ==> !IsDigit(s[j]))
    ensures ScanSharp(s, pos, Digits, v).ok == Scan(s, pos, Digits, v).ok
    ensures ScanSharp(s, pos, Digits, v).v == Scan(s, pos, Digits, v).v
    ensures ScanSharp(s, pos, Digits, v).ok ==> ScanSharp(s, pos, Digits, v).pos == if j == |s| then j else j + 1
    decreases j - pos
  {
    if pos < j {
      SharpStops(s, i, pos + 1, Accumulate(v, s[pos]), j);
    } else if j < |s| && IsSpace(s[j]) {
      TrailsScan(s, j + 1, v);
    }
  }

  lemma SharpReads(s: seq<Byte>, start: nat, i: nat, j: nat, pos: nat)
    requires start <= |s| && Number(s, start, i, j, pos)
    ensures ScanSharp(s, start, Leader, 0) == Reading(true, Decimal(s, i, j) % 0x1_0000_0000, if j == |s| then j else j + 1)
  {
    ScanAccepts(s, start, i, j, pos);
    LeaderSkips(s, start, i);
    SharpStops(s, i, i + 1, Accumulate(0, s[i]), j);
  }

  lemma {:induction false} LeaderSkips(s: seq<Byte>, start: nat, i: nat)
    requires start <= i <= |s| && AllSpace(s, start, i)
    ensures ScanSharp(s, start, Leader, 0) == ScanSharp(s, i, Leader, 0)
    ensures Scan(s, start, Leader, 0) == Scan(s, i, Leader, 0)
    decreases i - start
  {
    if start < i { LeaderSkips(s, start + 1, i); }
  }
}
