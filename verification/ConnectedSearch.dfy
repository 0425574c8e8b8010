/** The connected-component search, end to end: whatever order the threads run
    in, the components found are the connected components of the image. */
module ConnectedSearch {
  import opened Images
  import opened Runs
  import opened Components
  import opened Connectivity
  import opened Fusion
  import opened ComponentStats
  import opened FuseTrees
  import opened Totals
  import Batch = UnorderedBatch
  import BatchRuns = UnorderedRuns

  /** The block a history of scans and fuses results in: what the workers did. */
  function Replay(img: Image, eight: bool, t: Tree): (b: Block)
    requires forall y :: y in Rows(t) ==> y < |img|
    ensures b.rows != []
  {
    match t
    case Row(y) =>
      assert y in Rows(t);
      ScanRow(y, img[y])
    case Fused(a, b) =>
      assert forall y :: y in Rows(a) || y in Rows(b) ==> y in Rows(t);
      Fuse(eight, Replay(img, eight, a), Replay(img, eight, b))
  }

  lemma TreeRows(t: Tree, height: nat)
    requires InOrder(t) && Bottom(t) < height
    ensures forall y :: y in Rows(t) ==> y < height
  {
    InOrderRows(t);
  }

  /** Any order of fusing vertical neighbours gives a correct block. */
  lemma {:induction false} ReplayCorrect(img: Image, eight: bool, t: Tree)
    requires InOrder(t) && forall y :: y in Rows(t) ==> y < |img|
    ensures Correct(img, eight, Replay(img, eight, t))
    ensures Replay(img, eight, t).ymin == Top(t) && Replay(img, eight, t).ymax == Bottom(t)
  {
    match t
    case Row(y) =>
      assert y in Rows(t);
      ScanCorrect(img, eight, y);
    case Fused(a, b) =>
      assert forall y :: y in Rows(a) || y in Rows(b) ==> y in Rows(t);
      ReplayCorrect(img, eight, a);
      ReplayCorrect(img, eight, b);
      FuseCorrect(img, eight, Replay(img, eight, a), Replay(img, eight, b));
  }

  lemma {:induction false} ReplayMeasured(img: Image, eight: bool, t: Tree)
    requires forall y :: y in Rows(t) ==> y < |img|
    requires forall y :: 0 <= y < |img| ==> |img[y]| < U32
    ensures AllMeasured(Replay(img, eight, t).ccs)
  {
    match t
    case Row(y) =>
      assert y in Rows(t);
      ScanMeasured(y, img[y]);
    case Fused(a, b) =>
      assert forall y :: y in Rows(a) || y in Rows(b) ==> y in Rows(t);
      ReplayMeasured(img, eight, a);
      ReplayMeasured(img, eight, b);
      FuseMeasured(eight, Replay(img, eight, a), Replay(img, eight, b));
  }

  lemma {:induction false} ReplayBoxed(img: Image, eight: bool, t: Tree)
    requires forall y :: y in Rows(t) ==> y < |img|
    ensures AllBoxed(Replay(img, eight, t).ccs)
  {
    match t
    case Row(y) =>
      assert y in Rows(t);
      ScanBoxed(y, img[y]);
    case Fused(a, b) =>
      assert forall y :: y in Rows(a) || y in Rows(b) ==> y in Rows(t);
      ReplayBoxed(img, eight, a);
      ReplayBoxed(img, eight, b);
      FuseBoxed(eight, Replay(img, eight, a), Replay(img, eight, b));
  }

  /** A finished batch run over the rows of the image. */
  ghost predicate Finished(img: Image, workers: nat, s: Batch.State) {
    && workers >= 1 && |img| >= 1
    && Batch.Reachable(workers, |img|, s) && s.completer.Closed?
  }

  /** There is one for every image and number of workers. */
  lemma SomeRunFinishes(img: Image, workers: nat) returns (s: Batch.State)
    requires workers >= 1 && |img| >= 1
    ensures Finished(img, workers, s)
  {
    var steps;
    assert Batch.Run(Batch.Init(workers, |img|), []) == Some(Batch.Init(workers, |img|));
    steps, s := BatchRuns.CanFinish(workers, |img|, Batch.Init(workers, |img|));
  }

  lemma FinishedRow(img: Image, workers: nat, s: Batch.State)
    requires Finished(img, workers, s)
    ensures s.row != [] && s.row[0].Some? && InOrder(s.row[0].value)
    ensures Top(s.row[0].value) == 0 && Bottom(s.row[0].value) == |img| - 1
    ensures forall y :: y in Rows(s.row[0].value) ==> y < |img|
  {
    BatchRuns.WholeImage(workers, |img|, s);
    TreeRows(s.row[0].value, |img|);
  }

  /** The block left in row[0], returned by aktive_cc_find. */
  ghost function Result(img: Image, eight: bool, workers: nat, s: Batch.State): Block
    requires Finished(img, workers, s)
  {
    FinishedRow(img, workers, s);
    Replay(img, eight, s.row[0].value)
  }

  function WholeWindow(img: Image, eight: bool): Window
    requires |img| >= 1
  {
    Window(img, eight, 0, |img| - 1)
  }

  lemma ResultCorrect(img: Image, eight: bool, workers: nat, s: Batch.State)
    requires Finished(img, workers, s)
    ensures Correct(img, eight, Result(img, eight, workers, s))
    ensures WindowOf(img, eight, Result(img, eight, workers, s)) == WholeWindow(img, eight)
  {
    FinishedRow(img, workers, s);
    ReplayCorrect(img, eight, s.row[0].value);
  }

  /** For every image, neighbourhood, number of workers and interleaving: two
      foreground pixels are in the same component of the result if and only if a
      path of adjacent foreground pixels of the image joins them. */
  lemma ComponentsFound(img: Image, eight: bool, workers: nat, s: Batch.State, p: Pixel, q: Pixel)
    requires Finished(img, workers, s) && Foreground(img, p) && Foreground(img, q)
    ensures SameComponent(Result(img, eight, workers, s), p, q) <==> Connected(WholeWindow(img, eight), p, q)
  {
    ResultCorrect(img, eight, workers, s);
    PixelsConnected(img, eight, Result(img, eight, workers, s), p, q);
  }

  /** Every foreground pixel is in a component, and no other pixel is. */
  lemma ForegroundFound(img: Image, eight: bool, workers: nat, s: Batch.State, p: Pixel)
    requires Finished(img, workers, s)
    ensures SameComponent(Result(img, eight, workers, s), p, p) <==> Foreground(img, p)
  {
    var b, w := Result(img, eight, workers, s), WholeWindow(img, eight);
    ResultCorrect(img, eight, workers, s);
    if Foreground(img, p) {
      ConnectedSelf(w, p);
      PixelsConnected(img, eight, b, p, p);
    }
    if SameComponent(b, p, p) {
      var k :| 0 <= k < |b.ccs| && InComponent(b.ccs[k], p);
      var r :| r in b.ccs[k].parts && Covers(r, p);
      OwnerUnique(b.ccs, r, k);
      HasRunIsRun(img, eight, b, r);
      RunInside(w, r);
      assert Inside(w, Pixel(p.x, r.y));
    }
  }

  /** The schedule does not matter: any two finished runs over the same image,
      even with different numbers of workers, group the pixels the same way. */
  lemma ScheduleIndependent(img: Image, eight: bool, n1: nat, s1: Batch.State, n2: nat, s2: Batch.State, p: Pixel, q: Pixel)
    requires Finished(img, n1, s1) && Finished(img, n2, s2)
    ensures SameComponent(Result(img, eight, n1, s1), p, q) <==> SameComponent(Result(img, eight, n2, s2), p, q)
  {
    GroupedIsForeground(img, eight, n1, s1, p, q);
    GroupedIsForeground(img, eight, n2, s2, p, q);
    if Foreground(img, p) && Foreground(img, q) {
      ComponentsFound(img, eight, n1, s1, p, q);
      ComponentsFound(img, eight, n2, s2, p, q);
    }
  }

  lemma GroupedIsForeground(img: Image, eight: bool, workers: nat, s: Batch.State, p: Pixel, q: Pixel)
    requires Finished(img, workers, s)
    ensures SameComponent(Result(img, eight, workers, s), p, q) ==> Foreground(img, p) && Foreground(img, q)
  {
    var b := Result(img, eight, workers, s);
    if SameComponent(b, p, q) {
      var k :| 0 <= k < |b.ccs| && InComponent(b.ccs[k], p) && InComponent(b.ccs[k], q);
      assert SameComponent(b, p, p) && SameComponent(b, q, q);
      ForegroundFound(img, eight, workers, s, p);
      ForegroundFound(img, eight, workers, s, q);
    }
  }

  lemma ResultParts(img: Image, eight: bool, w: nat, b: Block, k: nat)
    requires Correct(img, eight, b) && k < |b.ccs|
    requires forall y :: 0 <= y < |img| ==> |img[y]| == w
    ensures RunsOf(img, w, b.ccs[k].parts) && Distinct(b.ccs[k].parts)
  {
    forall m | 0 <= m < |b.ccs[k].parts| ensures HasRun(b, b.ccs[k].parts[m]) {
      OwnerUnique(b.ccs, b.ccs[k].parts[m], k);
    }
  }

  /** Area and coordinate sums of every component found are those of its pixels, as
      SumsRight says: modulo 2^32, and exactly within its bounds. */
  lemma SumsFound(img: Image, eight: bool, w: nat, workers: nat, s: Batch.State, k: nat)
    requires Finished(img, workers, s) && k < |Result(img, eight, workers, s).ccs|
    requires w < U32 && forall y :: 0 <= y < |img| ==> |img[y]| == w
    ensures SumsRight(Result(img, eight, workers, s).ccs[k], w, |img|)
  {
    var b := Result(img, eight, workers, s);
    FinishedRow(img, workers, s);
    ReplayMeasured(img, eight, s.row[0].value);
    ResultCorrect(img, eight, workers, s);
    ResultParts(img, eight, w, b, k);
    assert Measured(b.ccs[k]);
    SumsExact(img, w, b.ccs[k]);
  }

  /** The bounding box is the smallest one around the pixels of the component. */
  ghost predicate Tight(cc: Component) {
    && (forall p :: InComponent(cc, p) ==> cc.xmin <= p.x <= cc.xmax && cc.ymin <= p.y <= cc.ymax)
    && (exists p :: InComponent(cc, p) && p.x == cc.xmin) && (exists p :: InComponent(cc, p) && p.x == cc.xmax)
    && (exists p :: InComponent(cc, p) && p.y == cc.ymin) && (exists p :: InComponent(cc, p) && p.y == cc.ymax)
  }

  lemma RunEndsIn(img: Image, eight: bool, b: Block, k: nat, r: Run)
    requires Correct(img, eight, b) && k < |b.ccs| && r in b.ccs[k].parts
    ensures InComponent(b.ccs[k], Pixel(r.xmin, r.y)) && InComponent(b.ccs[k], Pixel(r.xmax, r.y))
  {
    OwnerUnique(b.ccs, r, k);
    HasRunIsRun(img, eight, b, r);
    RunInside(WindowOf(img, eight, b), r);
    assert Covers(r, Pixel(r.xmin, r.y)) && Covers(r, Pixel(r.xmax, r.y));
  }

  lemma BoxTight(img: Image, eight: bool, b: Block, k: nat)
    requires Correct(img, eight, b) && k < |b.ccs| && Boxed(b.ccs[k])
    ensures Tight(b.ccs[k])
  {
    var cc := b.ccs[k];
    var left :| left in cc.parts && left.xmin == cc.xmin;
    RunEndsIn(img, eight, b, k, left);
    var right :| right in cc.parts && right.xmax == cc.xmax;
    RunEndsIn(img, eight, b, k, right);
    var top :| top in cc.parts && top.y == cc.ymin;
    RunEndsIn(img, eight, b, k, top);
    var bottom :| bottom in cc.parts && bottom.y == cc.ymax;
    RunEndsIn(img, eight, b, k, bottom);
    BoxTightFrom(cc, left, right, top, bottom);
  }

  lemma BoxTightFrom(cc: Component, left: Run, right: Run, top: Run, bottom: Run)
    requires Boxed(cc) && left.xmin == cc.xmin && right.xmax == cc.xmax && top.y == cc.ymin && bottom.y == cc.ymax
    requires InComponent(cc, Pixel(left.xmin, left.y)) && InComponent(cc, Pixel(right.xmax, right.y))
    requires InComponent(cc, Pixel(top.xmin, top.y)) && InComponent(cc, Pixel(bottom.xmin, bottom.y))
    ensures Tight(cc)
  {
  }

  /** The bounding box of every component found is tight. */
  lemma BoxFound(img: Image, eight: bool, workers: nat, s: Batch.State, k: nat)
    requires Finished(img, workers, s) && k < |Result(img, eight, workers, s).ccs|
    ensures Tight(Result(img, eight, workers, s).ccs[k])
  {
    var b := Result(img, eight, workers, s);
    FinishedRow(img, workers, s);
    ReplayBoxed(img, eight, s.row[0].value);
    ResultCorrect(img, eight, workers, s);
    assert Boxed(b.ccs[k]);
    BoxTight(img, eight, b, k);
  }
}
