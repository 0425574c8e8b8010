/** Maximal horizontal runs of foreground pixels, the ranges of cc_scan. */
module Runs {
  import opened Images

  /** A run of pixels xmin..xmax (inclusive) of row y. */
  datatype Run = Run(y: nat, xmin: nat, xmax: nat)

  predicate Covers(r: Run, p: Pixel) {
    p.y == r.y && r.xmin <= p.x <= r.xmax
  }

  /** Last index of the run of foreground pixels starting at `i`. */
  function RunEnd(row: seq<real>, i: nat): (e: nat)
    requires i < |row| && row[i] > 0.0
    ensures i <= e < |row|
    ensures forall k :: i <= k <= e ==> row[k] > 0.0
    ensures e + 1 < |row| ==> !(row[e+1] > 0.0)
    decreases |row| - i
  {
    if i + 1 < |row| && row[i+1] > 0.0 then RunEnd(row, i + 1) else i
  }

  /** The runs of row `y` starting at index `i` or later, left to right. */
  function RunsFrom(y: nat, row: seq<real>, i: nat): seq<Run>
    decreases |row| - i
  {
    if i >= |row| then []
    else if row[i] > 0.0 then
      var e := RunEnd(row, i);
      [Run(y, i, e)] + RunsFrom(y, row, e + 1)
    else RunsFrom(y, row, i + 1)
  }

  function RowRuns(y: nat, row: seq<real>): seq<Run> {
    RunsFrom(y, row, 0)
  }

  /** In row `y`, left to right, and with at least one background pixel between
      neighbours: the gap the 8-neighbour sweep relies on. */
  ghost predicate Spaced(y: nat, runs: seq<Run>) {
    && (forall k :: 0 <= k < |runs| ==> runs[k].y == y && runs[k].xmin <= runs[k].xmax)
    && (forall j, k :: 0 <= j < k < |runs| ==> runs[j].xmax + 1 < runs[k].xmin)
  }

  ghost predicate CoversColumn(runs: seq<Run>, x: nat) {
    exists k :: 0 <= k < |runs| && runs[k].xmin <= x <= runs[k].xmax
  }

  /** The runs cover exactly the foreground pixels of the row from `i` on. */
  ghost predicate Exact(row: seq<real>, i: nat, runs: seq<Run>) {
    && (forall k :: 0 <= k < |runs| ==> i <= runs[k].xmin && runs[k].xmax < |row|)
    && (forall x :: i <= x < |row| ==> (row[x] > 0.0 <==> CoversColumn(runs, x)))
  }

  /** The first run ends before the next background pixel, the rest is exact
      from there on. */
  ghost predicate Splits(y: nat, row: seq<real>, i: nat, r: Run, rest: seq<Run>) {
    && r.y == y && i <= r.xmin <= r.xmax < |row|
    && (forall x :: i <= x < r.xmin ==> !(row[x] > 0.0))
    && (forall x :: r.xmin <= x <= r.xmax ==> row[x] > 0.0)
    && (r.xmax + 1 < |row| ==> !(row[r.xmax + 1] > 0.0))
    && Spaced(y, rest) && Exact(row, r.xmax + 1, rest)
  }

  lemma ConsExact(y: nat, row: seq<real>, i: nat, r: Run, rest: seq<Run>)
    requires Splits(y, row, i, r, rest)
    ensures Spaced(y, [r] + rest) && Exact(row, i, [r] + rest)
  {
    var all := [r] + rest;
    forall k | 0 <= k < |rest| ensures r.xmax + 1 < rest[k].xmin {
      assert CoversColumn(rest, rest[k].xmin);
    }
    forall x | i <= x < |row| ensures row[x] > 0.0 <==> CoversColumn(all, x) {
      if r.xmin <= x <= r.xmax {
        assert all[0].xmin <= x <= all[0].xmax;
      } else if x > r.xmax {
        if CoversColumn(rest, x) {
          var k :| 0 <= k < |rest| && rest[k].xmin <= x <= rest[k].xmax;
          assert all[k+1] == rest[k];
        }
      }
    }
  }

  lemma SkipExact(row: seq<real>, i: nat, runs: seq<Run>)
    requires i < |row| && !(row[i] > 0.0) && Exact(row, i + 1, runs)
    ensures Exact(row, i, runs)
  {
    assert !CoversColumn(runs, i);
  }

  lemma UnconsExact(y: nat, row: seq<real>, i: nat, runs: seq<Run>)
    requires Spaced(y, runs) && Exact(row, i, runs) && runs != []
    ensures Splits(y, row, i, runs[0], runs[1..])
  {
    var r, rest := runs[0], runs[1..];
    forall x | i <= x < |row| && x <= r.xmax + 1
      ensures row[x] > 0.0 <==> r.xmin <= x <= r.xmax
    {
      assert CoversColumn(runs, x) <==> r.xmin <= x <= r.xmax by {
        if r.xmin <= x <= r.xmax { assert runs[0].xmin <= x <= runs[0].xmax; }
      }
    }
    forall x | r.xmax + 1 <= x < |row| ensures row[x] > 0.0 <==> CoversColumn(rest, x) {
      if CoversColumn(runs, x) {
        var k :| 0 <= k < |runs| && runs[k].xmin <= x <= runs[k].xmax;
        assert runs[k] == rest[k-1];
      }
      if CoversColumn(rest, x) {
        var k :| 0 <= k < |rest| && rest[k].xmin <= x <= rest[k].xmax;
        assert rest[k] == runs[k+1];
      }
    }
  }

  lemma {:induction false} RunsFromExact(y: nat, row: seq<real>, i: nat)
    ensures Spaced(y, RunsFrom(y, row, i)) && Exact(row, i, RunsFrom(y, row, i))
    decreases |row| - i
  {
    if i >= |row| {
    } else if row[i] > 0.0 {
      var e := RunEnd(row, i);
      var rest := RunsFrom(y, row, e + 1);
      RunsFromExact(y, row, e + 1);
      ConsExact(y, row, i, Run(y, i, e), rest);
      assert RunsFrom(y, row, i) == [Run(y, i, e)] + rest;
    } else {
      RunsFromExact(y, row, i + 1);
      SkipExact(row, i, RunsFrom(y, row, i + 1));
      assert RunsFrom(y, row, i) == RunsFrom(y, row, i + 1);
    }
  }

  /** Two run lists that are spaced and exact for the same row are the same:
      the runs are the maximal ones, and there is no choice left in them. */
  lemma {:induction false} ExactUnique(y: nat, row: seq<real>, i: nat, a: seq<Run>, b: seq<Run>)
    requires Spaced(y, a) && Exact(row, i, a) && Spaced(y, b) && Exact(row, i, b)
    ensures a == b
    decreases |a|
  {
    if a == [] || b == [] {
      if a != [] { assert CoversColumn(a, a[0].xmin); }
      if b != [] { assert CoversColumn(b, b[0].xmin); }
    } else {
      UnconsExact(y, row, i, a);
      UnconsExact(y, row, i, b);
      assert a[0] == b[0] by { FirstRunUnique(y, row, i, a[0], a[1..], b[0], b[1..]); }
      ExactUnique(y, row, a[0].xmax + 1, a[1..], b[1..]);
      assert a == [a[0]] + a[1..] && b == [b[0]] + b[1..];
    }
  }

  lemma FirstRunUnique(y: nat, row: seq<real>, i: nat, r: Run, rs: seq<Run>, t: Run, ts: seq<Run>)
    requires Splits(y, row, i, r, rs) && Splits(y, row, i, t, ts)
    ensures r == t
  {
    assert row[r.xmin] > 0.0 && row[t.xmin] > 0.0;
  }

  /** Two runs of vertically adjacent rows touch: cc_neighbour_4 and cc_neighbour_8. */
  predicate Linked(eight: bool, a: Run, b: Run) {
    if eight then !(a.xmax + 1 < b.xmin) && !(a.xmin > b.xmax + 1)
    else !(a.xmax < b.xmin) && !(a.xmin > b.xmax)
  }

  /** The touch test is exact: it holds just when some pixel of one run is
      adjacent to some pixel of the other. */
  lemma LinkedMeansTouching(eight: bool, a: Run, b: Run)
    requires a.y + 1 == b.y && a.xmin <= a.xmax && b.xmin <= b.xmax
    ensures Linked(eight, a, b) <==>
            exists p, q :: Covers(a, p) && Covers(b, q) && Adjacent(eight, p, q)
  {
    if Linked(eight, a, b) {
      var px := if b.xmin <= a.xmin then a.xmin else if b.xmin <= a.xmax then b.xmin else a.xmax;
      var qx := if px < b.xmin then b.xmin else if px > b.xmax then b.xmax else px;
      var p, q := Pixel(px, a.y), Pixel(qx, b.y);
      assert Covers(a, p) && Covers(b, q) && Adjacent(eight, p, q);
    }
  }

  /** All pixels of a foreground run are connected. */
  lemma {:induction false} RunConnected(w: Window, r: Run, x1: nat, x2: nat)
    requires r.xmin <= x1 <= x2 <= r.xmax
    requires forall x :: r.xmin <= x <= r.xmax ==> Inside(w, Pixel(x, r.y))
    ensures Connected(w, Pixel(x1, r.y), Pixel(x2, r.y))
    decreases x2 - x1
  {
    if x1 == x2 {
      ConnectedSelf(w, Pixel(x1, r.y));
    } else {
      RunConnected(w, r, x1, x2 - 1);
      ConnectedStep(w, Pixel(x2 - 1, r.y), Pixel(x2, r.y));
      ConnectedTransitive(w, Pixel(x1, r.y), Pixel(x2 - 1, r.y), Pixel(x2, r.y));
    }
  }
}
