/** Scanning a row gives a correct block, and fusing two vertically adjacent
    correct blocks gives a correct block: its components are exactly the
    connected components of the rows it covers. */
module Connectivity {
  import opened Images
  import opened Runs
  import opened Components

  ghost predicate HasRun(b: Block, r: Run) {
    b.ymin <= r.y && r.y - b.ymin < |b.rows| && r in b.rows[r.y - b.ymin]
  }

  function WindowOf(img: Image, eight: bool, b: Block): Window {
    Window(img, eight, b.ymin, b.ymax)
  }

  ghost predicate RunsConnected(w: Window, p: Run, q: Run) {
    Connected(w, Pixel(p.xmin, p.y), Pixel(q.xmin, q.y))
  }

  /** One entry per row of ymin..ymax, holding the maximal runs of that row. */
  ghost predicate Shape(img: Image, b: Block) {
    && b.ymin <= b.ymax < |img|
    && |b.rows| == b.ymax - b.ymin + 1
    && forall k :: 0 <= k < |b.rows| ==> b.rows[k] == RowRuns(b.ymin + k, img[b.ymin + k])
  }

  ghost predicate Distinct(parts: seq<Run>) {
    forall i, j :: 0 <= i < j < |parts| ==> parts[i] != parts[j]
  }

  /** Every component is non-empty and lists each of its runs once. */
  ghost predicate Clean(all: seq<Component>) {
    forall k :: 0 <= k < |all| ==> all[k].parts != [] && Distinct(all[k].parts)
  }

  /** The components partition the runs of the rows. */
  ghost predicate Partition(b: Block) {
    && Disjoint(b.ccs) && Clean(b.ccs)
    && forall r :: Owned(b.ccs, r) <==> HasRun(b, r)
  }

  /** Two runs are in one component just when they are connected in the rows of
      the block. */
  ghost predicate Labelled(img: Image, eight: bool, b: Block) {
    forall p, q :: HasRun(b, p) && HasRun(b, q) ==>
      (Same(b.ccs, p, q) <==> RunsConnected(WindowOf(img, eight, b), p, q))
  }

  ghost predicate Correct(img: Image, eight: bool, b: Block) {
    Shape(img, b) && Partition(b) && Labelled(img, eight, b)
  }

  // - - -- --- ----- -------- Runs and pixels

  ghost predicate IsRun(w: Window, r: Run) {
    w.lo <= r.y <= w.hi && r.y < |w.img| && r in RowRuns(r.y, w.img[r.y])
  }

  ghost predicate AllRuns(w: Window, runs: seq<Run>) {
    forall k :: 0 <= k < |runs| ==> IsRun(w, runs[k])
  }

  lemma RunInside(w: Window, r: Run)
    requires IsRun(w, r)
    ensures r.xmin <= r.xmax
    ensures forall x :: r.xmin <= x <= r.xmax ==> Inside(w, Pixel(x, r.y))
  {
    var row := w.img[r.y];
    RunsFromExact(r.y, row, 0);
    var k :| 0 <= k < |RowRuns(r.y, row)| && RowRuns(r.y, row)[k] == r;
    forall x | r.xmin <= x <= r.xmax ensures Inside(w, Pixel(x, r.y)) {
      assert CoversColumn(RowRuns(r.y, row), x);
    }
  }

  lemma RunCovering(w: Window, p: Pixel) returns (r: Run)
    requires Inside(w, p)
    ensures IsRun(w, r) && Covers(r, p)
  {
    var row := w.img[p.y];
    RunsFromExact(p.y, row, 0);
    assert CoversColumn(RowRuns(p.y, row), p.x);
    var k :| 0 <= k < |RowRuns(p.y, row)| && RowRuns(p.y, row)[k].xmin <= p.x <= RowRuns(p.y, row)[k].xmax;
    r := RowRuns(p.y, row)[k];
  }

  lemma RunCoveringUnique(w: Window, p: Pixel, r: Run, s: Run)
    requires IsRun(w, r) && IsRun(w, s) && Covers(r, p) && Covers(s, p)
    ensures r == s
  {
    RunsFromExact(p.y, w.img[p.y], 0);
  }

  /** Pixels side by side in one row are in one run. */
  lemma SameRowSameRun(w: Window, p: Pixel, q: Pixel, r: Run, s: Run)
    requires IsRun(w, r) && IsRun(w, s) && Covers(r, p) && Covers(s, q)
    requires p.y == q.y && Adjacent(w.eight, p, q)
    ensures r == s
  {
    RunsFromExact(p.y, w.img[p.y], 0);
  }

  lemma PixelToRun(w: Window, p: Pixel, r: Run)
    requires IsRun(w, r) && Covers(r, p)
    ensures Connected(w, p, Pixel(r.xmin, r.y)) && Connected(w, Pixel(r.xmin, r.y), p)
  {
    RunInside(w, r);
    RunConnected(w, r, r.xmin, p.x);
    ConnectedSymmetric(w, Pixel(r.xmin, r.y), p);
  }

  /** Adjacent pixels connect the runs they lie in. */
  lemma TouchConnects(w: Window, p: Pixel, q: Pixel, r: Run, s: Run)
    requires IsRun(w, r) && IsRun(w, s) && Covers(r, p) && Covers(s, q) && Adjacent(w.eight, p, q)
    ensures RunsConnected(w, r, s)
  {
    PixelToRun(w, p, r);
    PixelToRun(w, q, s);
    RunInside(w, r);
    RunInside(w, s);
    ConnectedStep(w, p, q);
    ConnectedTransitive(w, Pixel(r.xmin, r.y), p, q);
    ConnectedTransitive(w, Pixel(r.xmin, r.y), q, Pixel(s.xmin, s.y));
  }

  lemma LinkedConnects(w: Window, r: Run, s: Run)
    requires IsRun(w, r) && IsRun(w, s) && r.y + 1 == s.y && Linked(w.eight, r, s)
    ensures RunsConnected(w, r, s)
  {
    RunInside(w, r);
    RunInside(w, s);
    LinkedMeansTouching(w.eight, r, s);
    var p, q :| Covers(r, p) && Covers(s, q) && Adjacent(w.eight, p, q);
    TouchConnects(w, p, q, r, s);
  }

  // - - -- --- ----- -------- Soundness: one component means connected

  ghost predicate AllConnected(w: Window, all: seq<Component>) {
    forall p, q :: Owned(all, p) && Same(all, p, q) ==> RunsConnected(w, p, q)
  }

  lemma JoinConnected(w: Window, all: seq<Component>, r: Run, s: Run)
    requires Disjoint(all) && Owned(all, r) && Owned(all, s)
    requires AllConnected(w, all) && RunsConnected(w, r, s)
    ensures AllConnected(w, Join(all, r, s))
  {
    ConnectedSymmetric(w, Pixel(r.xmin, r.y), Pixel(s.xmin, s.y));
    forall p, q | Owned(Join(all, r, s), p) && Same(Join(all, r, s), p, q)
      ensures RunsConnected(w, p, q)
    {
      JoinOwner(all, r, s, p);
      JoinOwner(all, r, s, q);
      JoinSame(all, r, s, p, q);
      if !Same(all, p, q) {
        if Same(all, p, r) {
          ChainConnected(w, p, r, s, q);
        } else {
          ChainConnected(w, p, s, r, q);
        }
      }
    }
  }

  lemma ChainConnected(w: Window, p: Run, r: Run, s: Run, q: Run)
    requires RunsConnected(w, p, r) && RunsConnected(w, r, s) && RunsConnected(w, s, q)
    ensures RunsConnected(w, p, q)
  {
    ConnectedTransitive(w, Pixel(p.xmin, p.y), Pixel(r.xmin, r.y), Pixel(s.xmin, s.y));
    ConnectedTransitive(w, Pixel(p.xmin, p.y), Pixel(s.xmin, s.y), Pixel(q.xmin, q.y));
  }

  // - - -- --- ----- -------- The sweep

  /** The lists the sweep runs over: two touching rows whose runs all have an owner. */
  ghost predicate Sweepable(y: nat, ar: seq<Run>, br: seq<Run>, all: seq<Component>) {
    && Spaced(y, ar) && Spaced(y + 1, br) && Disjoint(all)
    && (forall k :: 0 <= k < |ar| ==> Owned(all, ar[k]))
    && (forall k :: 0 <= k < |br| ==> Owned(all, br[k]))
  }

  /** Pairs the sweep has left behind on either side are joined if linked. */
  ghost predicate LinksDone(eight: bool, ar: seq<Run>, br: seq<Run>, i: nat, j: nat, all: seq<Component>) {
    forall m, n :: 0 <= m < |ar| && 0 <= n < |br| && (m < i || n < j) && Linked(eight, ar[m], br[n]) ==>
      Same(all, ar[m], br[n])
  }

  lemma StepKeeps(eight: bool, y: nat, ar: seq<Run>, br: seq<Run>, i: nat, j: nat, all: seq<Component>)
    requires i < |ar| && j < |br| && Sweepable(y, ar, br, all)
    ensures Sweepable(y, ar, br, SweepStep(eight, ar[i], br[j], all))
    ensures forall p :: Owned(SweepStep(eight, ar[i], br[j], all), p) <==> Owned(all, p)
    ensures forall p, q :: Owned(all, p) && Same(all, p, q) ==> Same(SweepStep(eight, ar[i], br[j], all), p, q)
    ensures Linked(eight, ar[i], br[j]) ==> Same(SweepStep(eight, ar[i], br[j], all), ar[i], br[j])
  {
    if Linked(eight, ar[i], br[j]) {
      forall p ensures Owned(Join(all, ar[i], br[j]), p) <==> Owned(all, p) {
        JoinOwner(all, ar[i], br[j], p);
      }
      forall p, q | Owned(all, p) && Same(all, p, q) ensures Same(Join(all, ar[i], br[j]), p, q) {
        JoinSame(all, ar[i], br[j], p, q);
      }
      JoinSame(all, ar[i], br[j], ar[i], br[j]);
    }
  }

  lemma StepSweepable(eight: bool, y: nat, ar: seq<Run>, br: seq<Run>, i: nat, j: nat, all: seq<Component>)
    requires i < |ar| && j < |br| && Sweepable(y, ar, br, all)
    ensures Sweepable(y, ar, br, SweepStep(eight, ar[i], br[j], all))
  {
    StepKeeps(eight, y, ar, br, i, j, all);
  }

  /** Stepping past the run that reaches less far loses no link: whatever comes
      later in the other row starts beyond it, by the gap between runs. */
  lemma StepLosesNothing(eight: bool, y: nat, ar: seq<Run>, br: seq<Run>, i: nat, j: nat)
    requires i < |ar| && j < |br| && Spaced(y, ar) && Spaced(y + 1, br)
    ensures ar[i].xmax <= br[j].xmax ==> forall n :: j < n < |br| ==> !Linked(eight, ar[i], br[n])
    ensures ar[i].xmax > br[j].xmax ==> forall m :: i < m < |ar| ==> !Linked(eight, ar[m], br[j])
  {
  }

  lemma StepLinks(eight: bool, y: nat, ar: seq<Run>, br: seq<Run>, i: nat, j: nat, all: seq<Component>)
    requires i < |ar| && j < |br| && Sweepable(y, ar, br, all) && LinksDone(eight, ar, br, i, j, all)
    ensures var d := if ar[i].xmax <= br[j].xmax then 1 else 0;
            LinksDone(eight, ar, br, i + d, j + 1 - d, SweepStep(eight, ar[i], br[j], all))
  {
    var next := SweepStep(eight, ar[i], br[j], all);
    StepKeeps(eight, y, ar, br, i, j, all);
    forall m, n | 0 <= m < |ar| && 0 <= n < |br| && Linked(eight, ar[m], br[n])
      ensures m < i || n < j || (m == i && n == j) ==> Same(next, ar[m], br[n])
    {
      if m < i || n < j { assert Same(all, ar[m], br[n]); }
    }
    StepLosesNothing(eight, y, ar, br, i, j);
  }

  /** What every step of the sweep keeps holds when one row is used up. */
  lemma {:induction false} SweepWalk(eight: bool, ar: seq<Run>, br: seq<Run>, i: nat, j: nat, all: seq<Component>,
                                     keep: (nat, nat, seq<Component>) -> bool) returns (m: nat, n: nat)
    requires i <= |ar| && j <= |br| && keep(i, j, all)
    requires forall i: nat, j: nat, x :: i < |ar| && j < |br| && keep(i, j, x) ==>
               var d := if ar[i].xmax <= br[j].xmax then 1 else 0;
               keep(i + d, j + 1 - d, SweepStep(eight, ar[i], br[j], x))
    ensures keep(m, n, Sweep(eight, ar, br, i, j, all)) && (m == |ar| || n == |br|)
    decreases |ar| - i + |br| - j
  {
    m, n := i, j;
    if i < |ar| && j < |br| {
      var d := if ar[i].xmax <= br[j].xmax then 1 else 0;
      m, n := SweepWalk(eight, ar, br, i + d, j + 1 - d, SweepStep(eight, ar[i], br[j], all), keep);
    }
  }

  /** What the sweep must not do to the partition it starts from: lose a run or
      separate runs that were together. */
  ghost predicate Coarsens(all: seq<Component>, next: seq<Component>) {
    && (forall p :: Owned(next, p) <==> Owned(all, p))
    && (forall p, q :: Owned(all, p) && Same(all, p, q) ==> Same(next, p, q))
  }

  lemma SweepCoarsens(eight: bool, y: nat, ar: seq<Run>, br: seq<Run>, all: seq<Component>)
    requires Sweepable(y, ar, br, all)
    ensures Coarsens(all, Sweep(eight, ar, br, 0, 0, all)) && Disjoint(Sweep(eight, ar, br, 0, 0, all))
  {
    var keep := (i: nat, j: nat, x: seq<Component>) => Sweepable(y, ar, br, x) && Coarsens(all, x);
    forall i: nat, j: nat, x | i < |ar| && j < |br| && keep(i, j, x)
      ensures Sweepable(y, ar, br, SweepStep(eight, ar[i], br[j], x)) && Coarsens(all, SweepStep(eight, ar[i], br[j], x))
    {
      StepKeeps(eight, y, ar, br, i, j, x);
    }
    var m, n := SweepWalk(eight, ar, br, 0, 0, all, keep);
  }

  /** The sweep compares every linked pair: afterwards all of them are joined. */
  lemma SweepLinks(eight: bool, y: nat, ar: seq<Run>, br: seq<Run>, all: seq<Component>)
    requires Sweepable(y, ar, br, all)
    ensures forall m, n :: 0 <= m < |ar| && 0 <= n < |br| && Linked(eight, ar[m], br[n]) ==>
              Same(Sweep(eight, ar, br, 0, 0, all), ar[m], br[n])
  {
    var keep := (i: nat, j: nat, x: seq<Component>) => Sweepable(y, ar, br, x) && LinksDone(eight, ar, br, i, j, x);
    forall i: nat, j: nat, x | i < |ar| && j < |br| && keep(i, j, x)
      ensures var d := if ar[i].xmax <= br[j].xmax then 1 else 0;
              keep(i + d, j + 1 - d, SweepStep(eight, ar[i], br[j], x))
    {
      StepSweepable(eight, y, ar, br, i, j, x);
      StepLinks(eight, y, ar, br, i, j, x);
    }
    var m, n := SweepWalk(eight, ar, br, 0, 0, all, keep);
  }

  lemma StepConnected(w: Window, r: Run, s: Run, all: seq<Component>)
    requires IsRun(w, r) && IsRun(w, s) && r.y + 1 == s.y
    requires Disjoint(all) && Owned(all, r) && Owned(all, s) && AllConnected(w, all)
    ensures AllConnected(w, SweepStep(w.eight, r, s, all))
  {
    if Linked(w.eight, r, s) {
      LinkedConnects(w, r, s);
      JoinConnected(w, all, r, s);
    }
  }

  /** Every join of the sweep is backed by a pair of touching runs. */
  lemma SweepConnected(w: Window, y: nat, ar: seq<Run>, br: seq<Run>, all: seq<Component>)
    requires Sweepable(y, ar, br, all) && AllConnected(w, all)
    requires AllRuns(w, ar) && AllRuns(w, br)
    ensures AllConnected(w, Sweep(w.eight, ar, br, 0, 0, all))
  {
    var keep := (i: nat, j: nat, x: seq<Component>) => Sweepable(y, ar, br, x) && AllConnected(w, x);
    forall i: nat, j: nat, x | i < |ar| && j < |br| && keep(i, j, x)
      ensures Sweepable(y, ar, br, SweepStep(w.eight, ar[i], br[j], x)) && AllConnected(w, SweepStep(w.eight, ar[i], br[j], x))
    {
      StepSweepable(w.eight, y, ar, br, i, j, x);
      StepConnected(w, ar[i], br[j], x);
    }
    var m, n := SweepWalk(w.eight, ar, br, 0, 0, all, keep);
  }
}
