/** The text variants of Netpbm: what is written reads back. */
module NetpbmText {
  import opened NumberReader
  import opened Totals

  // - - -- --- ----- -------- Writing

  const Blank: Byte := 32
  const U32 := 0x1_0000_0000
  const MaxCol := 70

  function Printed(v: nat): seq<Byte> {
    if v < 10 then [Zero + v] else Printed(v / 10) + [Zero + v % 10]
  }

  /** Where the line stands after a value of n characters, and what ends the value. */
  function NextCol(col: nat, n: nat): nat {
    if col + n >= MaxCol then 0 else col + n + 1
  }

  function Term(col: nat, n: nat): Byte {
    if col + n >= MaxCol then Newline else Blank
  }

  /** The text of the values from column `col` on. */
  function Text(values: seq<nat>, col: nat): seq<Byte> {
    if values == [] then []
    else
      var n := |Printed(values[0])|;
      Printed(values[0]) + [Term(col, n)] + Text(values[1..], NextCol(col, n))
  }

  function Header(variant: Byte, width: nat, height: nat, maxval: nat): seq<Byte> {
    [80, variant, Blank] + Field(width) + Field(height) + Field(maxval)
  }

  function Field(v: nat): seq<Byte> {
    Printed(v) + [Blank]
  }

  /** aktive_netpbm_control: the sink's state. */
  class Sink {
    var output: seq<Byte>
    var col: nat
    var written: nat

    constructor ()
      ensures output == [] && col == 0 && written == 0
    {
      output, col, written := [], 0, 0;
    }

    /** netpbm_header: whatever values follow, the header at the front of the file
        reads back, and the column is where the values start. */
    method WriteHeader(variant: Byte, width: nat, height: nat, maxval: nat)
      modifies this
      ensures output == old(output) + Header(variant, width, height, maxval)
      ensures col == |output| - |old(output)| && written == 0
      ensures old(output) == [] && (variant == 50 || variant == 51) && width < U32 && height < U32 && maxval < U32 ==>
                forall rest :: Plain(rest) ==>
                  HeaderOf(output + rest) ==
                  Accepted(Info(width, height, maxval, if variant == 50 then 1 else 3, false, maxval > 255, col))
    {
      var buf := [80, variant, Blank];
      var fields, k := [width, height, maxval], 0;
      while k < 3
        invariant 0 <= k <= 3
        invariant buf == [80, variant, Blank] + (if k > 0 then Field(width) else []) + (if k > 1 then Field(height) else [])
                         + (if k > 2 then Field(maxval) else [])
      {
        buf := buf + Printed(fields[k]) + [Blank];
        k := k + 1;
      }
      output, col, written := output + buf, |buf|, 0;
      ghost var head := Header(variant, width, height, maxval);
      assert buf == head && (old(output) == [] ==> output == head);
      if (variant == 50 || variant == 51) && width < U32 && height < U32 && maxval < U32 {
        forall rest | Plain(rest)
          ensures HeaderOf(head + rest) ==
                  Accepted(Info(width, height, maxval, if variant == 50 then 1 else 3, false, maxval > 255, |head|))
        {
          HeaderReads(variant, width, height, maxval, rest, head + rest);
        }
      }
    }

    /** netpbm_text and netpbm_etext, on values already quantized. */
    method WriteValues(values: seq<nat>)
      modifies this
      ensures output == old(output) + Text(values, old(col)) && written == old(written) + |values|
      ensures col == ColAfter(values, old(col))
    {
      var j := 0;
      while j < |values|
        invariant 0 <= j <= |values| && written == old(written) + j
        invariant output + Text(values[j..], col) == old(output) + Text(values, old(col))
        invariant ColAfter(values[j..], col) == ColAfter(values, old(col))
      {
        var digits := Printed(values[j]);
        output := output + digits;
        ghost var was := col;
        col := col + |digits|;
        var term := Blank;
        if col >= MaxCol { col, term := 0, Newline; } else { col := col + 1; }
        output := output + [term];
        written := written + 1;
        assert values[j..][1..] == values[j + 1..];
        Regroup(output[..|output| - |digits| - 1], digits, term, Text(values[j + 1..], col));
        j := j + 1;
      }
    }
  }

  function ColAfter(values: seq<nat>, col: nat): nat {
    if values == [] then col else ColAfter(values[1..], NextCol(col, |Printed(values[0])|))
  }

  lemma Regroup(a: seq<Byte>, b: seq<Byte>, c: Byte, d: seq<Byte>)
    ensures a + (b + [c] + d) == a + b + [c] + d
  {
  }

  /** Writing row after row writes the text of all the values. */
  lemma {:induction false} TextConcat(a: seq<nat>, b: seq<nat>, col: nat)
    ensures Text(a + b, col) == Text(a, col) + Text(b, ColAfter(a, col))
  {
    if a == [] {
      assert a + b == b;
    } else {
      var n := |Printed(a[0])|;
      TextConcat(a[1..], b, NextCol(col, n));
      assert (a + b)[1..] == a[1..] + b && (a + b)[0] == a[0];
    }
  }

  // - - -- --- ----- -------- Lines

  /** How long the last line of the text is, when its first line starts in column `col`. */
  function LastLine(t: seq<Byte>, col: nat): nat {
    if t == [] then col
    else if t[|t|-1] == 10 then 0
    else LastLine(t[..|t|-1], col) + 1
  }

  lemma {:induction false} LastLineDigits(t: seq<Byte>, d: seq<Byte>, col: nat)
    requires forall k :: 0 <= k < |d| ==> IsDigit(d[k])
    ensures LastLine(t + d, col) == LastLine(t, col) + |d|
  {
    if d == [] {
      assert t + d == t;
    } else {
      assert (t + d)[..|t + d| - 1] == t + d[..|d|-1] && (t + d)[|t + d| - 1] == d[|d|-1];
      LastLineDigits(t, d[..|d|-1], col);
    }
  }

  /** The column is the length of the last line. */
  lemma {:induction false} ColumnIsLine(values: seq<nat>, col: nat)
    ensures ColAfter(values, col) == LastLine(Text(values, col), col)
    decreases |values|
  {
    if values != [] {
      var front, v := values[..|values|-1], values[|values|-1];
      assert values == front + [v];
      ColumnIsLine(front, col);
      LineStep(front, v, col);
    }
  }

  /** What a value adds to the text: its digits, and a newline if with them the line has
      70 characters or more, a blank otherwise. */
  lemma LineStep(front: seq<nat>, v: nat, col: nat)
    requires ColAfter(front, col) == LastLine(Text(front, col), col)
    ensures var line := LastLine(Text(front, col), col) + |Printed(v)|;
            && Text(front + [v], col) == Text(front, col) + Printed(v) + [if line >= 70 then 10 else 32]
            && ColAfter(front + [v], col) == LastLine(Text(front + [v], col), col)
  {
    var before, d, at := Text(front, col), Printed(v), ColAfter(front, col);
    TextConcat(front, [v], col);
    ColAfterConcat(front, v, col);
    OneValue(v, at);
    PrintedDigits(v);
    LastLineDigits(before, d, col);
    var end := Term(at, |d|);
    var all := before + d + [end];
    assert Text(front + [v], col) == before + (d + [end]) == all;
    assert all[..|all|-1] == before + d && all[|all|-1] == end;
  }

  lemma OneValue(v: nat, col: nat)
    ensures Text([v], col) == Printed(v) + [Term(col, |Printed(v)|)]
  {
    assert [v][1..] == [] && Text([v][1..], NextCol(col, |Printed(v)|)) == [];
  }

  lemma {:induction false} ColAfterConcat(a: seq<nat>, v: nat, col: nat)
    ensures ColAfter(a + [v], col) == NextCol(ColAfter(a, col), |Printed(v)|)
  {
    if a == [] {
      assert a + [v] == [v] && [v][1..] == [];
    } else {
      ColAfterConcat(a[1..], v, NextCol(col, |Printed(a[0])|));
      assert (a + [v])[1..] == a[1..] + [v];
    }
  }

  /** In the text written, value by value: a newline ends exactly those values with which
      the line reaches 70 characters. */
  lemma LinesBroken(values: seq<nat>, k: nat, col: nat)
    requires k < |values|
    ensures var before := Text(values[..k], col);
            Text(values[..k + 1], col) ==
            before + Printed(values[k]) + [if LastLine(before, col) + |Printed(values[k])| >= 70 then 10 else 32]
  {
    assert values[..k + 1] == values[..k] + [values[k]];
    ColumnIsLine(values[..k], col);
    LineStep(values[..k], values[k], col);
  }

  // - - -- --- ----- -------- What a printed number reads as

  lemma {:induction false} PrintedDigits(v: nat)
    ensures Printed(v) != [] && forall k :: 0 <= k < |Printed(v)| ==> IsDigit(Printed(v)[k])
  {
    if v >= 10 { PrintedDigits(v / 10); }
  }

  lemma {:induction false} PrintedValue(v: nat, s: seq<Byte>, lo: nat)
    requires lo + |Printed(v)| <= |s| && s[lo..lo + |Printed(v)|] == Printed(v)
    ensures AllDigits(s, lo, lo + |Printed(v)|) && Decimal(s, lo, lo + |Printed(v)|) == v
  {
    PrintedDigits(v);
    var hi := lo + |Printed(v)|;
    forall k | lo <= k < hi ensures IsDigit(s[k]) { assert s[k] == s[lo..hi][k - lo]; }
    if v >= 10 {
      assert s[lo..hi - 1] == Printed(v / 10) by { assert s[lo..hi][..hi - 1 - lo] == s[lo..hi - 1]; }
      PrintedValue(v / 10, s, lo);
      assert s[hi - 1] == s[lo..hi][hi - 1 - lo];
    } else {
      assert s[lo] == s[lo..hi][0];
      assert Decimal(s, lo, lo) == 0;
    }
  }

  /** A printed number, one white space, and no more of it: that is what is read, and
      reading stops right behind it. */
  lemma PrintedReads(s: seq<Byte>, pos: nat, v: nat)
    requires v < 0x1_0000_0000 && pos + |Printed(v)| < |s| && s[pos..pos + |Printed(v)|] == Printed(v)
    requires IsSpace(s[pos + |Printed(v)|])
    requires pos + |Printed(v)| + 1 < |s| ==> !IsSpace(s[pos + |Printed(v)| + 1])
    ensures Scan(s, pos, Leader, 0) == Reading(true, v, pos + |Printed(v)| + 1)
  {
    PrintedDigits(v);
    PrintedValue(v, s, pos);
    ScanAccepts(s, pos, pos, pos + |Printed(v)|, pos + |Printed(v)| + 1);
  }

  // - - -- --- ----- -------- Reading

  datatype Info = Info(width: nat, height: nat, maxval: nat, depth: nat, binary: bool, extended: bool, base: nat)

  /** The variants P2, P3, P5 and P6. */
  predicate ValidCode(code: int) {
    code == 2 || code == 3 || code == 5 || code == 6
  }

  /** What the header reader makes of its input. Code 7 passes the range check, but is
      beyond the end of the tables: nothing is known of what happens then. */
  datatype Outcome = Accepted(info: Info) | Rejected | Undefined

  /** aktive_netpbm_header_get as a function. */
  function HeaderOf(s: seq<Byte>): Outcome {
    if |s| < 2 || s[0] != 80 then Rejected
    else if s[1] - Zero == 7 then Undefined
    else if !ValidCode(s[1] - Zero) then Rejected
    else
      var code := s[1] - Zero;
      var binary := code >= 5;
      var w := ScanCom(s, 2, Leader, 0, false);
      var h := ScanCom(s, w.pos, Leader, 0, false);
      var m := if binary then ScanSharp(s, h.pos, Leader, 0) else Scan(s, h.pos, Leader, 0);
      if !w.ok || !h.ok || !m.ok then Rejected
      else Accepted(Info(w.v, h.v, m.v, if code == 2 || code == 5 then 1 else 3, binary, m.v > 255, m.pos))
  }

  /** aktive_netpbm_header_get. */
  method GetHeader(s: seq<Byte>) returns (outcome: Outcome)
    ensures outcome == HeaderOf(s)
  {
    if |s| < 1 || s[0] != 80 { return Rejected; }
    if |s| < 2 { return Rejected; }
    var code := s[1] - Zero;
    if code == 7 { return Undefined; }
    if !ValidCode(code) { return Rejected; }
    var ok, width, height, maxval, pos;
    ok, width, pos := GetUintStrcom(s, 2);
    if !ok { return Rejected; }
    ok, height, pos := GetUintStrcom(s, pos);
    if !ok { return Rejected; }
    if code >= 5 {
      ok, maxval, pos := GetUintStrsharp(s, pos);
    } else {
      ok, maxval, pos := GetUintStr(s, pos);
    }
    if !ok { return Rejected; }
    return Accepted(Info(width, height, maxval, if code == 2 || code == 5 then 1 else 3, code >= 5, maxval > 255, pos));
  }

  /** A row of `count` scaled values, or as many as there are, and where it ends. */
  function RowFrom(s: seq<Byte>, pos: nat, count: nat, scale: nat -> real): (seq<real>, nat)
    decreases count
  {
    if count == 0 then ([], pos)
    else
      var r := ScanCom(s, pos, Leader, 0, false);
      if !r.ok then ([], r.pos)
      else
        var rest := RowFrom(s, r.pos, count - 1, scale);
        ([scale(r.v)] + rest.0, rest.1)
  }

  /** rowfiller_get. */
  method FillRow(s: seq<Byte>, start: nat, count: nat, scale: nat -> real) returns (v: seq<real>, pos: nat)
    ensures (v, pos) == RowFrom(s, start, count, scale)
  {
    v, pos := [], start;
    var k := 0;
    while k < count
      invariant 0 <= k <= count
      invariant v + RowFrom(s, pos, count - k, scale).0 == RowFrom(s, start, count, scale).0
      invariant RowFrom(s, pos, count - k, scale).1 == RowFrom(s, start, count, scale).1
    {
      var ok, value, next := GetUintStrcom(s, pos);
      RowStep(s, pos, count - k, scale);
      pos := next;
      if !ok {
        assert v + [] == v;
        return;
      }
      AssocOne(v, scale(value), RowFrom(s, pos, count - k - 1, scale).0);
      v := v + [scale(value)];
      k := k + 1;
    }
    assert v + [] == v;
  }

  lemma AssocOne<T>(a: seq<T>, x: T, b: seq<T>)
    ensures a + ([x] + b) == a + [x] + b
  {
  }

  lemma RowStep(s: seq<Byte>, pos: nat, count: nat, scale: nat -> real)
    requires count > 0
    ensures var r := ScanCom(s, pos, Leader, 0, false);
            if r.ok then
              && RowFrom(s, pos, count, scale).0 == [scale(r.v)] + RowFrom(s, r.pos, count - 1, scale).0
              && RowFrom(s, pos, count, scale).1 == RowFrom(s, r.pos, count - 1, scale).1
            else RowFrom(s, pos, count, scale) == ([], r.pos)
  {
  }

  // - - -- --- ----- -------- What was written reads back

  lemma {:induction false} TextPlain(values: seq<nat>, col: nat)
    ensures forall k :: 0 <= k < |Text(values, col)| ==> IsDigit(Text(values, col)[k]) || IsSpace(Text(values, col)[k])
    ensures values != [] ==> Text(values, col) != [] && IsDigit(Text(values, col)[0])
  {
    if values != [] {
      PrintedDigits(values[0]);
      TextPlain(values[1..], NextCol(col, |Printed(values[0])|));
    }
  }

  function Scaled(values: seq<nat>, scale: nat -> real): (r: seq<real>)
    ensures |r| == |values| && forall k :: 0 <= k < |values| ==> r[k] == scale(values[k])
  {
    seq(|values|, k requires 0 <= k < |values| => scale(values[k]))
  }

  lemma ScaledStep(values: seq<nat>, count: nat, scale: nat -> real)
    requires 0 < count <= |values|
    ensures Scaled(values[..count], scale) == [scale(values[0])] + Scaled(values[1..][..count - 1], scale)
    ensures values[1..][count - 1..] == values[count..]
  {
    assert values[..count] == [values[0]] + values[1..][..count - 1];
  }

  ghost predicate Storable(values: seq<nat>) {
    forall k :: 0 <= k < |values| ==> values[k] < 0x1_0000_0000
  }

  /** The first value of a text reads back, and leaves the text of the others. */
  lemma TextReadsOne(s: seq<Byte>, pos: nat, values: seq<nat>, col: nat)
    requires pos <= |s| && s[pos..] == Text(values, col) && values != [] && Storable(values)
    ensures var n := |Printed(values[0])|;
            && ScanCom(s, pos, Leader, 0, false) == Reading(true, values[0], pos + n + 1)
            && pos + n + 1 <= |s| && s[pos + n + 1..] == Text(values[1..], NextCol(col, n))
  {
    var d := Printed(values[0]);
    var n := |d|;
    var rest := Text(values[1..], NextCol(col, n));
    assert s[pos..] == d + [Term(col, n)] + rest;
    TextPlain(values, col);
    TextPlain(values[1..], NextCol(col, n));
    SlicesOf(s, pos, d, Term(col, n), rest);
    forall k | pos <= k < |s| ensures s[k] != Sharp { assert s[k] == s[pos..][k - pos]; }
    NoComments(s, pos, Leader, 0);
    PrintedReads(s, pos, values[0]);
  }

  lemma SlicesOf(s: seq<Byte>, pos: nat, d: seq<Byte>, t: Byte, rest: seq<Byte>)
    requires pos <= |s| && s[pos..] == d + [t] + rest
    ensures |s| == pos + |d| + 1 + |rest|
    ensures s[pos..pos + |d|] == d && s[pos + |d|] == t && s[pos + |d| + 1..] == rest
    ensures rest != [] ==> s[pos + |d| + 1] == rest[0]
  {
    assert s[pos..][..|d|] == d && s[pos..][|d|] == t && s[pos..][|d| + 1..] == rest;
  }

  /** Reading `count` values from `pos` on gives these, scaled, and leaves the text of
      the others behind. */
  ghost predicate ReadsAs(s: seq<Byte>, pos: nat, values: seq<nat>, count: nat, scale: nat -> real, next: nat, later: nat) {
    && count <= |values| && RowFrom(s, pos, count, scale) == (Scaled(values[..count], scale), next)
    && next <= |s| && s[next..] == Text(values[count..], later)
  }

  lemma ReadsStep(s: seq<Byte>, pos: nat, values: seq<nat>, count: nat, scale: nat -> real, at: nat, next: nat, later: nat)
    requires 0 < count <= |values| && ScanCom(s, pos, Leader, 0, false) == Reading(true, values[0], at)
    requires ReadsAs(s, at, values[1..], count - 1, scale, next, later)
    ensures ReadsAs(s, pos, values, count, scale, next, later)
  {
    RowStep(s, pos, count, scale);
    ScaledStep(values, count, scale);
  }

  /** Any number of values at the front of a text read back, scaled, and leave the
      text of the others: so row after row does, however the lines were broken. */
  lemma {:induction false} TextReads(s: seq<Byte>, pos: nat, values: seq<nat>, col: nat, count: nat, scale: nat -> real) returns (next: nat, later: nat)
    requires pos <= |s| && s[pos..] == Text(values, col) && count <= |values| && Storable(values)
    ensures ReadsAs(s, pos, values, count, scale, next, later)
    decreases count
  {
    next, later := pos, col;
    if count == 0 {
      assert values[count..] == values;
    } else {
      var n := |Printed(values[0])|;
      TextReadsOne(s, pos, values, col);
      next, later := TextReads(s, pos + n + 1, values[1..], NextCol(col, n), count - 1, scale);
      ReadsStep(s, pos, values, count, scale, pos + n + 1, next, later);
    }
  }

  /** Text of which a number can be the part before. */
  ghost predicate Plain(s: seq<Byte>) {
    && (forall k :: 0 <= k < |s| ==> IsDigit(s[k]) || IsSpace(s[k]))
    && (s != [] ==> IsDigit(s[0]))
  }

  lemma PlainPart(v: nat, rest: seq<Byte>)
    requires Plain(rest)
    ensures Plain(Field(v) + rest)
  {
    PrintedDigits(v);
  }

  /** The header reads back, and is followed by the values. */
  lemma HeaderReads(variant: Byte, width: nat, height: nat, maxval: nat, rest: seq<Byte>, s: seq<Byte>)
    requires variant == 50 || variant == 51
    requires width < 0x1_0000_0000 && height < 0x1_0000_0000 && maxval < 0x1_0000_0000
    requires s == Header(variant, width, height, maxval) + rest && Plain(rest)
    ensures HeaderOf(s) == Accepted(Info(width, height, maxval, if variant == 50 then 1 else 3, false, maxval > 255,
                                         |Header(variant, width, height, maxval)|))
    ensures s[|Header(variant, width, height, maxval)|..] == rest
  {
    var s2 := Field(maxval) + rest;
    var s1 := Field(height) + s2;
    Assoc([80, variant, Blank], Field(width), Field(height), Field(maxval), rest);
    HeaderFront(variant, Field(width) + s1, s);
    PlainPart(maxval, rest);
    PlainPart(height, s2);
    FieldPart(s, 3, width, s1);
    var p1 := 3 + |Field(width)|;
    var p2 := p1 + |Field(height)|;
    LaterFields(s, p1, height, maxval, rest, s1, s2);
    HeaderParts(s, variant, Reading(true, width, p1), Reading(true, height, p2), Reading(true, maxval, p2 + |Field(maxval)|));
  }

  /** The numbers behind the first, with what follows each. */
  lemma LaterFields(s: seq<Byte>, pos: nat, height: nat, maxval: nat, rest: seq<Byte>, s1: seq<Byte>, s2: seq<Byte>)
    requires height < U32 && maxval < U32 && Plain(rest) && Plain(s2) && pos <= |s|
    requires s2 == Field(maxval) + rest && s1 == Field(height) + s2 && s[pos..] == s1
    ensures var p2 := pos + |Field(height)|; var p3 := p2 + |Field(maxval)|;
            && ScanCom(s, pos, Leader, 0, false) == Reading(true, height, p2)
            && Scan(s, p2, Leader, 0) == Reading(true, maxval, p3)
            && p3 <= |s| && s[p3..] == rest
  {
    FieldPart(s, pos, height, s2);
    FieldPart(s, pos + |Field(height)|, maxval, rest);
  }

  lemma FieldPart(s: seq<Byte>, pos: nat, v: nat, rest: seq<Byte>)
    requires pos <= |s| && v < U32 && Plain(rest) && s[pos..] == Field(v) + rest
    ensures var next := pos + |Field(v)|;
            && Scan(s, pos, Leader, 0) == Reading(true, v, next) && ScanCom(s, pos, Leader, 0, false) == Reading(true, v, next)
            && next <= |s| && s[next..] == rest
  {
    var d := Printed(v);
    PrintedDigits(v);
    SlicesOf(s, pos, d, Blank, rest);
    PrintedReads(s, pos, v);
    FieldPlain(s, pos, v, rest);
    NoComments(s, pos, Leader, 0);
  }

  lemma FieldPlain(s: seq<Byte>, pos: nat, v: nat, rest: seq<Byte>)
    requires pos <= |s| && Plain(rest) && s[pos..] == Field(v) + rest
    ensures forall k :: pos <= k < |s| ==> s[k] != Sharp
  {
    PrintedDigits(v);
    forall k | pos <= k < |s| ensures s[k] != Sharp { assert s[k] == s[pos..][k - pos]; }
  }

  /** The blank before the first number is skipped. */
  lemma HeaderParts(s: seq<Byte>, variant: Byte, w: Reading, h: Reading, m: Reading)
    requires |s| >= 3 && s[0] == 80 && s[1] == variant && (variant == 50 || variant == 51) && s[2] == Blank
    requires w.ok && h.ok && m.ok
    requires ScanCom(s, 3, Leader, 0, false) == w && ScanCom(s, w.pos, Leader, 0, false) == h && Scan(s, h.pos, Leader, 0) == m
    ensures HeaderOf(s) == Accepted(Info(w.v, h.v, m.v, if variant == 50 then 1 else 3, false, m.v > 255, m.pos))
  {
    assert ScanCom(s, 2, Leader, 0, false) == w;
  }

  lemma HeaderFront(variant: Byte, tail: seq<Byte>, s: seq<Byte>)
    requires s == [80, variant, Blank] + tail
    ensures |s| >= 3 && s[0] == 80 && s[1] == variant && s[2] == Blank && s[3..] == tail
  {
  }

  lemma Assoc<T>(a: seq<T>, b: seq<T>, c: seq<T>, d: seq<T>, e: seq<T>)
    ensures a + b + c + d + e == a + (b + (c + (d + e)))
  {
  }
}
