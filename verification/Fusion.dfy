/** The two building blocks of the component search are correct: scanning one
    row, and fusing two vertically adjacent correct blocks. */
module Fusion {
  import opened Images
  import opened Runs
  import opened Components
  import opened Connectivity

  // - - -- --- ----- -------- Completeness: connected means one component

  /** Runs holding adjacent pixels are in the same component. */
  ghost predicate LocallySame(w: Window, all: seq<Component>) {
    forall p, q, r, s :: IsRun(w, r) && IsRun(w, s) && Covers(r, p) && Covers(s, q) && Adjacent(w.eight, p, q) ==>
      Same(all, r, s)
  }

  /** Ownership cannot change along a path. */
  lemma {:induction false} PathSame(w: Window, all: seq<Component>, path: seq<Pixel>, r: Run, s: Run)
    requires LocallySame(w, all) && IsPath(w, path)
    requires IsRun(w, r) && IsRun(w, s) && Covers(r, path[0]) && Covers(s, path[|path|-1])
    ensures Same(all, r, s)
    decreases |path|
  {
    if |path| == 1 {
      RunCoveringUnique(w, path[0], r, s);
    } else {
      var t := RunCovering(w, path[|path|-2]);
      PathSame(w, all, path[..|path|-1], r, t);
      assert Adjacent(w.eight, path[|path|-2], path[|path|-1]);
    }
  }

  lemma ConnectedSame(w: Window, all: seq<Component>, r: Run, s: Run)
    requires LocallySame(w, all) && IsRun(w, r) && IsRun(w, s) && RunsConnected(w, r, s)
    ensures Same(all, r, s)
  {
    RunInside(w, r);
    RunInside(w, s);
    var path :| PathFromTo(w, path, Pixel(r.xmin, r.y), Pixel(s.xmin, s.y));
    PathSame(w, all, path, r, s);
  }

  // - - -- --- ----- -------- Component lists stay clean

  lemma JoinClean(all: seq<Component>, r: Run, s: Run)
    requires Disjoint(all) && Clean(all)
    ensures Clean(Join(all, r, s))
  {
    var a, b := OwnerOf(all, r), OwnerOf(all, s);
    if a != b && a < |all| && b < |all| {
      JoinContents(all, r, s, a, b);
      var next := Join(all, r, s);
      forall i | 0 <= i < |next| ensures next[i].parts != [] && Distinct(next[i].parts) {
        var k := if i < b then i else i + 1;
        assert Moved(a, b, k) == i;
        if k == a { ConcatDistinct(all, a, b); }
      }
    }
  }

  lemma ConcatDistinct(all: seq<Component>, a: nat, b: nat)
    requires Disjoint(all) && Clean(all) && a < |all| && b < |all| && a != b
    ensures Distinct(all[a].parts + all[b].parts)
  {
    var p, q := all[a].parts, all[b].parts;
    forall i, j | 0 <= i < j < |p + q| ensures (p + q)[i] != (p + q)[j] {
      if i < |p| && j >= |p| {
        assert p[i] in all[a].parts && q[j - |p|] in all[b].parts;
      }
    }
  }

  lemma SweepClean(eight: bool, y: nat, ar: seq<Run>, br: seq<Run>, all: seq<Component>)
    requires Sweepable(y, ar, br, all) && Clean(all)
    ensures Clean(Sweep(eight, ar, br, 0, 0, all))
  {
    var keep := (i: nat, j: nat, x: seq<Component>) => Sweepable(y, ar, br, x) && Clean(x);
    forall i: nat, j: nat, x | i < |ar| && j < |br| && keep(i, j, x)
      ensures Sweepable(y, ar, br, SweepStep(eight, ar[i], br[j], x)) && Clean(SweepStep(eight, ar[i], br[j], x))
    {
      StepSweepable(eight, y, ar, br, i, j, x);
      JoinClean(x, ar[i], br[j]);
    }
    var m, n := SweepWalk(eight, ar, br, 0, 0, all, keep);
  }

  // - - -- --- ----- -------- Two blocks put one above the other

  ghost predicate Stacked(img: Image, eight: bool, a: Block, b: Block) {
    Correct(img, eight, a) && Correct(img, eight, b) && a.ymax + 1 == b.ymin
  }

  function StackWindow(img: Image, eight: bool, a: Block, b: Block): Window {
    Window(img, eight, a.ymin, b.ymax)
  }

  lemma {:induction false} ConcatOwner(x: seq<Component>, y: seq<Component>, r: Run)
    ensures OwnerOf(x + y, r) == if Owned(x, r) then OwnerOf(x, r) else |x| + OwnerOf(y, r)
  {
    if x == [] {
      assert x + y == y;
    } else {
      ConcatOwner(x[1..], y, r);
      assert (x + y)[1..] == x[1..] + y;
    }
  }

  lemma HasRunIsRun(img: Image, eight: bool, b: Block, r: Run)
    requires Shape(img, b)
    ensures HasRun(b, r) <==> IsRun(WindowOf(img, eight, b), r)
  {
  }

  lemma StackPartition(img: Image, eight: bool, a: Block, b: Block)
    requires Stacked(img, eight, a, b)
    ensures Disjoint(a.ccs + b.ccs) && Clean(a.ccs + b.ccs)
    ensures forall r :: Owned(a.ccs + b.ccs, r) <==> HasRun(a, r) || HasRun(b, r)
  {
    forall r ensures Owned(a.ccs + b.ccs, r) <==> HasRun(a, r) || HasRun(b, r) {
      ConcatOwner(a.ccs, b.ccs, r);
    }
    StackDisjoint(img, eight, a, b);
  }

  lemma StackDisjoint(img: Image, eight: bool, a: Block, b: Block)
    requires Stacked(img, eight, a, b)
    ensures Disjoint(a.ccs + b.ccs)
  {
    var all, n := a.ccs + b.ccs, |a.ccs|;
    forall i, j, r | 0 <= i < |all| && 0 <= j < |all| && r in all[i].parts && r in all[j].parts
      ensures i == j
    {
      OwnedPart(a.ccs, b.ccs, i, r);
      OwnedPart(a.ccs, b.ccs, j, r);
      assert !(HasRun(a, r) && HasRun(b, r));
    }
  }

  lemma OwnedPart(x: seq<Component>, y: seq<Component>, i: nat, r: Run)
    requires i < |x + y| && r in (x + y)[i].parts
    requires Disjoint(x) && Disjoint(y)
    ensures i < |x| ==> Owned(x, r) && OwnerOf(x, r) == i
    ensures i >= |x| ==> Owned(y, r) && OwnerOf(y, r) == i - |x|
  {
    if i < |x| {
      OwnerUnique(x, r, i);
    } else {
      OwnerUnique(y, r, i - |x|);
    }
  }

  lemma StackSame(img: Image, eight: bool, a: Block, b: Block, p: Run, q: Run)
    requires Stacked(img, eight, a, b)
    ensures HasRun(a, p) && HasRun(a, q) ==> (Same(a.ccs + b.ccs, p, q) <==> Same(a.ccs, p, q))
    ensures HasRun(b, p) && HasRun(b, q) ==> (Same(a.ccs + b.ccs, p, q) <==> Same(b.ccs, p, q))
    ensures HasRun(a, p) && HasRun(b, q) ==> !Same(a.ccs + b.ccs, p, q) && !Same(a.ccs + b.ccs, q, p)
  {
    ConcatOwner(a.ccs, b.ccs, p);
    ConcatOwner(a.ccs, b.ccs, q);
    assert !(HasRun(a, p) && HasRun(b, p)) && !(HasRun(a, q) && HasRun(b, q));
    assert Owned(a.ccs, p) <==> HasRun(a, p);
    assert Owned(a.ccs, q) <==> HasRun(a, q);
  }

  lemma StackConnected(img: Image, eight: bool, a: Block, b: Block)
    requires Stacked(img, eight, a, b)
    ensures AllConnected(StackWindow(img, eight, a, b), a.ccs + b.ccs)
  {
    var w := StackWindow(img, eight, a, b);
    StackPartition(img, eight, a, b);
    forall p, q | Owned(a.ccs + b.ccs, p) && Same(a.ccs + b.ccs, p, q) ensures RunsConnected(w, p, q) {
      assert Owned(a.ccs + b.ccs, q);
      StackSame(img, eight, a, b, p, q);
      StackSame(img, eight, a, b, q, p);
      if HasRun(a, p) {
        ConnectedWiden(WindowOf(img, eight, a), w, Pixel(p.xmin, p.y), Pixel(q.xmin, q.y));
      } else {
        ConnectedWiden(WindowOf(img, eight, b), w, Pixel(p.xmin, p.y), Pixel(q.xmin, q.y));
      }
    }
  }

  function LowerRow(a: Block): seq<Run>
    requires a.rows != []
  {
    a.rows[|a.rows|-1]
  }

  lemma StackRows(img: Image, eight: bool, a: Block, b: Block)
    requires Stacked(img, eight, a, b)
    ensures Spaced(a.ymax, LowerRow(a)) && Spaced(b.ymin, b.rows[0])
    ensures AllRuns(StackWindow(img, eight, a, b), LowerRow(a))
    ensures AllRuns(StackWindow(img, eight, a, b), b.rows[0])
  {
    RunsFromExact(a.ymax, img[a.ymax], 0);
    RunsFromExact(b.ymin, img[b.ymin], 0);
  }

  lemma StackSweepable(img: Image, eight: bool, a: Block, b: Block)
    requires Stacked(img, eight, a, b)
    ensures Sweepable(a.ymax, LowerRow(a), b.rows[0], a.ccs + b.ccs)
  {
    StackPartition(img, eight, a, b);
    StackRows(img, eight, a, b);
    var ar, br := LowerRow(a), b.rows[0];
    forall k | 0 <= k < |ar| ensures Owned(a.ccs + b.ccs, ar[k]) { assert HasRun(a, ar[k]); }
    forall k | 0 <= k < |br| ensures Owned(a.ccs + b.ccs, br[k]) { assert HasRun(b, br[k]); }
  }

  lemma FuseKeepsSame(img: Image, eight: bool, a: Block, b: Block, r: Run, s: Run)
    requires Stacked(img, eight, a, b)
    requires HasRun(a, r) || HasRun(b, r)
    requires Same(a.ccs + b.ccs, r, s)
    ensures Same(Fuse(eight, a, b).ccs, r, s)
  {
    StackSweepable(img, eight, a, b);
    StackPartition(img, eight, a, b);
    SweepCoarsens(eight, a.ymax, LowerRow(a), b.rows[0], a.ccs + b.ccs);
  }

  lemma FuseJoinsLinked(img: Image, eight: bool, a: Block, b: Block, r: Run, s: Run)
    requires Stacked(img, eight, a, b)
    requires r in LowerRow(a) && s in b.rows[0] && Linked(eight, r, s)
    ensures Same(Fuse(eight, a, b).ccs, r, s)
  {
    StackSweepable(img, eight, a, b);
    SweepLinks(eight, a.ymax, LowerRow(a), b.rows[0], a.ccs + b.ccs);
    var m :| 0 <= m < |LowerRow(a)| && LowerRow(a)[m] == r;
    var n :| 0 <= n < |b.rows[0]| && b.rows[0][n] == s;
  }

  /** Two adjacent pixels in the stack: their runs end up together, whether both
      lie in the same block or one on each side of the seam. */
  lemma FuseTouch(img: Image, eight: bool, a: Block, b: Block, p: Pixel, q: Pixel, r: Run, s: Run)
    requires Stacked(img, eight, a, b) && p.y <= q.y
    requires IsRun(StackWindow(img, eight, a, b), r) && IsRun(StackWindow(img, eight, a, b), s)
    requires Covers(r, p) && Covers(s, q) && Adjacent(eight, p, q)
    ensures Same(Fuse(eight, a, b).ccs, r, s)
  {
    if q.y <= a.ymax {
      TouchConnects(WindowOf(img, eight, a), p, q, r, s);
      StackSame(img, eight, a, b, r, s);
      FuseKeepsSame(img, eight, a, b, r, s);
    } else if p.y > a.ymax {
      TouchConnects(WindowOf(img, eight, b), p, q, r, s);
      StackSame(img, eight, a, b, r, s);
      FuseKeepsSame(img, eight, a, b, r, s);
    } else {
      SeamLinked(StackWindow(img, eight, a, b), p, q, r, s);
      FuseJoinsLinked(img, eight, a, b, r, s);
    }
  }

  lemma SeamLinked(w: Window, p: Pixel, q: Pixel, r: Run, s: Run)
    requires IsRun(w, r) && IsRun(w, s) && Covers(r, p) && Covers(s, q) && Adjacent(w.eight, p, q) && p.y < q.y
    ensures r.y + 1 == s.y && Linked(w.eight, r, s)
  {
    RunInside(w, r);
    RunInside(w, s);
    LinkedMeansTouching(w.eight, r, s);
  }

  lemma FuseLocallySame(img: Image, eight: bool, a: Block, b: Block)
    requires Stacked(img, eight, a, b)
    ensures LocallySame(StackWindow(img, eight, a, b), Fuse(eight, a, b).ccs)
  {
    var w := StackWindow(img, eight, a, b);
    forall p, q, r, s | IsRun(w, r) && IsRun(w, s) && Covers(r, p) && Covers(s, q) && Adjacent(eight, p, q)
      ensures Same(Fuse(eight, a, b).ccs, r, s)
    {
      if p.y <= q.y {
        FuseTouch(img, eight, a, b, p, q, r, s);
      } else {
        FuseTouch(img, eight, a, b, q, p, s, r);
      }
    }
  }

  lemma FuseShape(img: Image, eight: bool, a: Block, b: Block)
    requires Stacked(img, eight, a, b)
    ensures Shape(img, Fuse(eight, a, b))
    ensures forall r :: HasRun(Fuse(eight, a, b), r) <==> HasRun(a, r) || HasRun(b, r)
  {
    FuseRows(img, eight, a, b);
    forall r ensures HasRun(Fuse(eight, a, b), r) <==> HasRun(a, r) || HasRun(b, r) {
      FuseHasRun(img, eight, a, b, r);
    }
  }

  lemma FuseRows(img: Image, eight: bool, a: Block, b: Block)
    requires Stacked(img, eight, a, b)
    ensures Shape(img, Fuse(eight, a, b))
  {
    var c := Fuse(eight, a, b);
    forall k | 0 <= k < |c.rows| ensures c.rows[k] == RowRuns(c.ymin + k, img[c.ymin + k]) {
      if k >= |a.rows| { assert c.rows[k] == b.rows[k - |a.rows|]; }
    }
  }

  lemma FuseHasRun(img: Image, eight: bool, a: Block, b: Block, r: Run)
    requires Stacked(img, eight, a, b)
    ensures HasRun(Fuse(eight, a, b), r) <==> HasRun(a, r) || HasRun(b, r)
  {
    FuseRows(img, eight, a, b);
    HasRunIsRun(img, eight, a, r);
    HasRunIsRun(img, eight, b, r);
    HasRunIsRun(img, eight, Fuse(eight, a, b), r);
  }

  lemma FusePartition(img: Image, eight: bool, a: Block, b: Block)
    requires Stacked(img, eight, a, b)
    ensures Partition(Fuse(eight, a, b))
  {
    StackPartition(img, eight, a, b);
    StackSweepable(img, eight, a, b);
    FuseShape(img, eight, a, b);
    SweepCoarsens(eight, a.ymax, LowerRow(a), b.rows[0], a.ccs + b.ccs);
    SweepClean(eight, a.ymax, LowerRow(a), b.rows[0], a.ccs + b.ccs);
  }

  /** Fusing two vertically adjacent correct blocks gives the correct block of all
      their rows: nothing is joined that no path joins, nothing a path joins is
      left apart. */
  lemma FuseCorrect(img: Image, eight: bool, a: Block, b: Block)
    requires Stacked(img, eight, a, b)
    ensures Correct(img, eight, Fuse(eight, a, b))
  {
    var w, c := StackWindow(img, eight, a, b), Fuse(eight, a, b);
    FuseShape(img, eight, a, b);
    FusePartition(img, eight, a, b);
    FuseLocallySame(img, eight, a, b);
    FuseConnected(img, eight, a, b);
    forall p, q | HasRun(c, p) && HasRun(c, q) ensures Same(c.ccs, p, q) <==> RunsConnected(w, p, q) {
      HasRunIsRun(img, eight, c, p);
      HasRunIsRun(img, eight, c, q);
      if RunsConnected(w, p, q) { ConnectedSame(w, c.ccs, p, q); }
    }
  }

  lemma FuseConnected(img: Image, eight: bool, a: Block, b: Block)
    requires Stacked(img, eight, a, b)
    ensures AllConnected(StackWindow(img, eight, a, b), Fuse(eight, a, b).ccs)
  {
    StackSweepable(img, eight, a, b);
    StackRows(img, eight, a, b);
    StackConnected(img, eight, a, b);
    SweepConnected(StackWindow(img, eight, a, b), a.ymax, LowerRow(a), b.rows[0], a.ccs + b.ccs);
  }

  // - - -- --- ----- -------- A single row

  lemma {:induction false} NewComponentsOwner(runs: seq<Run>, k: nat)
    requires k < |runs| && Distinct(runs)
    ensures OwnerOf(NewComponents(runs), runs[k]) == k
  {
    if k > 0 {
      NewComponentsOwner(runs[1..], k - 1);
    }
  }

  lemma ScanOwned(y: nat, row: seq<real>, r: Run)
    ensures Owned(ScanRow(y, row).ccs, r) <==> r in RowRuns(y, row)
  {
    var ccs, runs := ScanRow(y, row).ccs, RowRuns(y, row);
    RunsFromExact(y, row, 0);
    if r in runs {
      var k :| 0 <= k < |runs| && runs[k] == r;
      NewComponentsOwner(runs, k);
    }
  }

  lemma ScanDisjoint(y: nat, row: seq<real>)
    ensures Disjoint(ScanRow(y, row).ccs) && Clean(ScanRow(y, row).ccs)
  {
    RunsFromExact(y, row, 0);
  }

  lemma ScanPartition(y: nat, row: seq<real>)
    ensures Partition(ScanRow(y, row))
  {
    var b := ScanRow(y, row);
    ScanDisjoint(y, row);
    forall r ensures Owned(b.ccs, r) <==> HasRun(b, r) {
      ScanOwned(y, row, r);
      ScanRowOf(y, row, r);
    }
  }

  lemma ScanRowOf(y: nat, row: seq<real>, r: Run)
    ensures HasRun(ScanRow(y, row), r) <==> r in RowRuns(y, row)
  {
    RunsFromExact(y, row, 0);
  }

  lemma ScanSame(y: nat, row: seq<real>, p: Run, q: Run)
    requires p in RowRuns(y, row)
    ensures Same(ScanRow(y, row).ccs, p, q) <==> p == q
  {
    ScanOwned(y, row, p);
    ScanOwned(y, row, q);
  }

  lemma ScanConnected(img: Image, eight: bool, y: nat, p: Run, q: Run)
    requires IsRun(Window(img, eight, y, y), p) && IsRun(Window(img, eight, y, y), q)
    ensures RunsConnected(Window(img, eight, y, y), p, q) <==> p == q
  {
    var w, ccs := Window(img, eight, y, y), ScanRow(y, img[y]).ccs;
    forall p, q, r, s | IsRun(w, r) && IsRun(w, s) && Covers(r, p) && Covers(s, q) && Adjacent(eight, p, q)
      ensures Same(ccs, r, s)
    {
      SameRowSameRun(w, p, q, r, s);
    }
    if RunsConnected(w, p, q) {
      ConnectedSame(w, ccs, p, q);
      ScanSame(y, img[y], p, q);
    }
    if p == q {
      RunInside(w, p);
      ConnectedSelf(w, Pixel(p.xmin, p.y));
    }
  }

  lemma ScanLabelled(img: Image, eight: bool, y: nat)
    requires y < |img|
    ensures Labelled(img, eight, ScanRow(y, img[y]))
  {
    var b := ScanRow(y, img[y]);
    forall p, q | HasRun(b, p) && HasRun(b, q)
      ensures Same(b.ccs, p, q) <==> RunsConnected(Window(img, eight, y, y), p, q)
    {
      ScanRowOf(y, img[y], p);
      ScanRowOf(y, img[y], q);
      HasRunIsRun(img, eight, b, p);
      HasRunIsRun(img, eight, b, q);
      ScanSame(y, img[y], p, q);
      ScanConnected(img, eight, y, p, q);
    }
  }

  /** Scanning a row gives the correct block of that row. */
  lemma ScanCorrect(img: Image, eight: bool, y: nat)
    requires y < |img|
    ensures Correct(img, eight, ScanRow(y, img[y]))
  {
    ScanPartition(y, img[y]);
    ScanLabelled(img, eight, y);
  }

  // - - -- --- ----- -------- The same, for pixels

  ghost predicate InComponent(cc: Component, p: Pixel) {
    exists r :: r in cc.parts && Covers(r, p)
  }

  ghost predicate SameComponent(b: Block, p: Pixel, q: Pixel) {
    exists k :: 0 <= k < |b.ccs| && InComponent(b.ccs[k], p) && InComponent(b.ccs[k], q)
  }

  /** In a correct block two foreground pixels of its rows are in one component
      exactly when a path of foreground pixels in these rows joins them. */
  lemma PixelsConnected(img: Image, eight: bool, b: Block, p: Pixel, q: Pixel)
    requires Correct(img, eight, b)
    requires Inside(WindowOf(img, eight, b), p) && Inside(WindowOf(img, eight, b), q)
    ensures SameComponent(b, p, q) <==> Connected(WindowOf(img, eight, b), p, q)
  {
    var w := WindowOf(img, eight, b);
    var r := RunCovering(w, p);
    var s := RunCovering(w, q);
    HasRunIsRun(img, eight, b, r);
    HasRunIsRun(img, eight, b, s);
    PixelToRun(w, p, r);
    PixelToRun(w, q, s);
    if Connected(w, p, q) {
      ConnectedTransitive(w, Pixel(r.xmin, r.y), p, q);
      ConnectedTransitive(w, Pixel(r.xmin, r.y), q, Pixel(s.xmin, s.y));
      var k := OwnerOf(b.ccs, r);
      assert InComponent(b.ccs[k], p) && InComponent(b.ccs[k], q);
    }
    if SameComponent(b, p, q) {
      SameComponentRuns(img, eight, b, p, q, r, s);
      ConnectedTransitive(w, p, Pixel(r.xmin, r.y), Pixel(s.xmin, s.y));
      ConnectedTransitive(w, p, Pixel(s.xmin, s.y), q);
    }
  }

  lemma SameComponentRuns(img: Image, eight: bool, b: Block, p: Pixel, q: Pixel, r: Run, s: Run)
    requires Correct(img, eight, b) && SameComponent(b, p, q)
    requires HasRun(b, r) && HasRun(b, s) && Covers(r, p) && Covers(s, q)
    ensures Same(b.ccs, r, s)
  {
    var w := WindowOf(img, eight, b);
    var k :| 0 <= k < |b.ccs| && InComponent(b.ccs[k], p) && InComponent(b.ccs[k], q);
    var r' :| r' in b.ccs[k].parts && Covers(r', p);
    var s' :| s' in b.ccs[k].parts && Covers(s', q);
    OwnerUnique(b.ccs, r', k);
    OwnerUnique(b.ccs, s', k);
    HasRunIsRun(img, eight, b, r);
    HasRunIsRun(img, eight, b, s);
    HasRunIsRun(img, eight, b, r');
    HasRunIsRun(img, eight, b, s');
    RunCoveringUnique(w, p, r, r');
    RunCoveringUnique(w, q, s, s');
  }
}
