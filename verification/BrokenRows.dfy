/** Rows of a Netpbm text that do not parse: when a row is read in full, and where the
    row after one that is not starts. */
module BrokenRows {
  import opened NumberReader
  import opened NetpbmText
  import opened NetpbmRows
  import opened VectorCache

  // - - -- --- ----- -------- Numbers at the front of a text

  /** The text, without comments, begins with n numbers. */
  ghost predicate Begins(t: seq<Byte>, n: nat)
    decreases n
  {
    n == 0 || exists i: nat, j: nat, next: nat :: Number(t, 0, i, j, next) && Begins(t[next..], n - 1)
  }

  /** There it does, and this is left of it behind them. */
  ghost predicate Leaves(t: seq<Byte>, n: nat, left: seq<Byte>)
    decreases n
  {
    if n == 0 then left == t
    else exists i: nat, j: nat, next: nat :: Number(t, 0, i, j, next) && Leaves(t[next..], n - 1, left)
  }

  /** The number that is read first is the one the text begins with. */
  lemma FirstNumber(s: seq<Byte>, pos: nat, n: nat)
    requires n > 0
    ensures var t, r := Erased(s, pos, false), ScanCom(s, pos, Leader, 0, false);
            && (!r.ok ==> !Begins(t, n))
            && (r.ok ==> (Begins(t, n) <==> Begins(Erased(s, r.pos, false), n - 1)))
            && (r.ok ==> forall left :: Leaves(Erased(s, r.pos, false), n - 1, left) ==> Leaves(t, n, left))
  {
    var t, r := Erased(s, pos, false), ScanCom(s, pos, Leader, 0, false);
    var b := Scan(t, 0, Leader, 0);
    CommentsErased(s, pos, Leader, 0, false);
    if r.ok {
      var i, j := ScanReads(t, 0);
      assert Number(t, 0, i, j, b.pos) && Erased(s, r.pos, false) == t[b.pos..];
    }
    if Begins(t, n) {
      var i: nat, j: nat, next: nat :| Number(t, 0, i, j, next) && Begins(t[next..], n - 1);
      ScanAccepts(t, 0, i, j, next);
    }
  }

  /** A row is read in full if and only if the text from its start on, without the
      comments, begins with as many numbers. */
  lemma {:induction false} RowFull(s: seq<Byte>, pos: nat, count: nat, scale: nat -> real)
    ensures |RowFrom(s, pos, count, scale).0| <= count
    ensures |RowFrom(s, pos, count, scale).0| == count <==> Begins(Erased(s, pos, false), count)
    decreases count
  {
    if count > 0 {
      FirstNumber(s, pos, count);
      RowFull(s, ScanCom(s, pos, Leader, 0, false).pos, count - 1, scale);
    }
  }

  // - - -- --- ----- -------- Where reading fails

  /** White space and perhaps digits, then the end or something else. */
  ghost predicate Breaks(t: seq<Byte>, i: nat, k: nat) {
    && i <= k <= |t| && AllSpace(t, 0, i) && AllDigits(t, i, k)
    && (if k == |t| then i == k else !IsSpace(t[k]) && !IsDigit(t[k]))
  }

  /** Reading stopped at the end of the text, or one past what is no digit. */
  ghost predicate StopsAt(s: seq<Byte>, t: seq<Byte>, k: nat, pos: nat)
    requires k <= |t|
  {
    if k == |t| then pos == |s|
    else 0 < pos <= |s| && s[pos - 1] == t[k] && Erased(s, pos, false) == t[k + 1..]
  }

  /** The same while skipping white space (i is not fixed yet) or taking digits. */
  lemma {:induction false} FailsFrom(s: seq<Byte>, pos: nat, mode: Mode, v: nat, skip: bool) returns (i: nat, k: nat)
    requires pos <= |s| && !ScanCom(s, pos, mode, v, skip).ok
    ensures var t := Erased(s, pos, skip);
            && i <= k <= |t| && AllSpace(t, 0, i) && AllDigits(t, i, k) && (mode == Digits ==> i == 0)
            && (if k == |t| then mode == Leader && i == k else !IsSpace(t[k]) && !IsDigit(t[k]))
            && StopsAt(s, t, k, ScanCom(s, pos, mode, v, skip).pos)
    decreases |s| - pos
  {
    if pos == |s| {
      i, k := 0, 0;
    } else if skip {
      i, k := FailsFrom(s, pos + 1, mode, v, s[pos] != Newline);
    } else if s[pos] == Sharp {
      i, k := FailsFrom(s, pos + 1, mode, v, true);
    } else if IsSpace(s[pos]) {
      if mode != Leader { NeverFails(s, pos + 1, v, false); }
      i, k := FailsFrom(s, pos + 1, Leader, v, false);
      i, k := i + 1, k + 1;
    } else if IsDigit(s[pos]) {
      i, k := FailsFrom(s, pos + 1, Digits, Accumulate(v, s[pos]), false);
      k := k + 1;
    } else {
      i, k := 0, 0;
    }
  }

  lemma {:induction false} NeverFails(s: seq<Byte>, pos: nat, v: nat, skip: bool)
    ensures ScanCom(s, pos, Trails, v, skip).ok
    decreases |s| - pos
  {
    if pos < |s| {
      if skip {
        NeverFails(s, pos + 1, v, s[pos] != Newline);
      } else if s[pos] == Sharp {
        NeverFails(s, pos + 1, v, true);
      } else if IsSpace(s[pos]) {
        NeverFails(s, pos + 1, v, false);
      }
    }
  }

  /** Where the row after one cut short starts: at the end of the text, if nothing but
      white space is left behind the numbers that were read; otherwise one past the
      first character in the place of a number that is no digit. */
  lemma {:induction false} RowCutShort(s: seq<Byte>, pos: nat, count: nat, scale: nat -> real) returns (left: seq<Byte>, i: nat, k: nat)
    requires pos <= |s| && |RowFrom(s, pos, count, scale).0| < count
    ensures Leaves(Erased(s, pos, false), |RowFrom(s, pos, count, scale).0|, left)
    ensures Breaks(left, i, k) && StopsAt(s, left, k, RowFrom(s, pos, count, scale).1)
    decreases count
  {
    var r := ScanCom(s, pos, Leader, 0, false);
    if r.ok {
      ScanWithin(s, pos, Leader, 0, false);
      left, i, k := RowCutShort(s, r.pos, count - 1, scale);
      FirstNumber(s, pos, |RowFrom(s, pos, count, scale).0|);
    } else {
      left := Erased(s, pos, false);
      i, k := FailsFrom(s, pos, Leader, 0, false);
    }
  }

  lemma {:induction false} ScanWithin(s: seq<Byte>, pos: nat, mode: Mode, v: nat, skip: bool)
    requires pos <= |s|
    ensures ScanCom(s, pos, mode, v, skip).pos <= |s|
    decreases |s| - pos
  {
    if pos < |s| {
      if skip {
        ScanWithin(s, pos + 1, mode, v, s[pos] != Newline);
      } else if s[pos] == Sharp {
        ScanWithin(s, pos + 1, mode, v, true);
      } else if IsSpace(s[pos]) {
        ScanWithin(s, pos + 1, if mode == Leader then Leader else Trails, v, false);
      } else if mode != Trails && IsDigit(s[pos]) {
        ScanWithin(s, pos + 1, Digits, Accumulate(v, s[pos]), false);
      }
    }
  }

  // - - -- --- ----- -------- The rows below

  /** Once a row has come to the end of the text all rows below are empty. */
  lemma {:induction false} NothingBelow(s: seq<Byte>, start: nat, n: nat, scale: nat -> real, y: nat, d: nat)
    requires n > 0 && StartOf(Filler(s, n, scale), start, y) == |s|
    ensures StartOf(Filler(s, n, scale), start, y + d) == |s| && RowOf(Filler(s, n, scale), start, y + d) == []
  {
    if d > 0 { NothingBelow(s, start, n, scale, y, d - 1); }
    assert ScanCom(s, |s|, Leader, 0, false) == Reading(false, 0, |s|);
  }

  /** The row below one cut short is itself read in full if and only if, behind the
      character where reading broke off, there are enough numbers again. */
  lemma RowBelow(s: seq<Byte>, start: nat, n: nat, scale: nat -> real, y: nat) returns (left: seq<Byte>, i: nat, k: nat)
    requires StartOf(Filler(s, n, scale), start, y) <= |s| && |RowOf(Filler(s, n, scale), start, y)| < n
    ensures Leaves(Erased(s, StartOf(Filler(s, n, scale), start, y), false), |RowOf(Filler(s, n, scale), start, y)|, left)
    ensures Breaks(left, i, k)
    ensures |RowOf(Filler(s, n, scale), start, y + 1)| == n <==> k < |left| && Begins(left[k + 1..], n)
  {
    var at := StartOf(Filler(s, n, scale), start, y);
    left, i, k := RowCutShort(s, at, n, scale);
    RowFull(s, RowFrom(s, at, n, scale).1, n, scale);
    if k == |left| { NothingBelow(s, start, n, scale, y + 1, 0); }
  }

  /** A text of which the first row is cut short and the rows below are not: the x is
      passed over. */
  lemma BadByteSkipped(s: seq<Byte>, scale: nat -> real)
    requires s == [120, 32, 53, 32, 55, 32]
    ensures RowOf(Filler(s, 1, scale), 0, 0) == []
    ensures RowOf(Filler(s, 1, scale), 0, 1) == [scale(5)]
    ensures RowOf(Filler(s, 1, scale), 0, 2) == [scale(7)]
  {
    var fill := Filler(s, 1, scale);
    assert ScanCom(s, 0, Leader, 0, false) == Reading(false, 0, 1);
    assert StartOf(fill, 0, 1) == 1;
    assert ScanCom(s, 3, Digits, 5, false) == ScanCom(s, 4, Trails, 5, false) == Reading(true, 5, 4);
    assert ScanCom(s, 1, Leader, 0, false) == ScanCom(s, 2, Leader, 0, false) == ScanCom(s, 3, Digits, 5, false);
    assert RowFrom(s, 4, 0, scale) == ([], 4) && RowFrom(s, 1, 1, scale).0 == [scale(5)];
    assert StartOf(fill, 0, 2) == 4;
    assert ScanCom(s, 5, Digits, 7, false) == ScanCom(s, 6, Trails, 7, false) == Reading(true, 7, 6);
    assert ScanCom(s, 4, Leader, 0, false) == ScanCom(s, 5, Digits, 7, false);
    assert RowFrom(s, 6, 0, scale) == ([], 6) && RowFrom(s, 4, 1, scale).0 == [scale(7)];
  }
}
