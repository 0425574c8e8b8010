/** Area, coordinate sums and bounding box of a component against the pixels it
    covers, with the 32 bit arithmetic of the code. */
module ComponentStats {
  import opened Images
  import opened Runs
  import opened Components
  import opened Connectivity
  import opened Fusion

  // - - -- --- ----- -------- Reference: sums over the raster

  /** What is added up for a pixel: 1 for the area, or one of its coordinates. */
  datatype Weight = One | X | Y

  function WeightOf(k: Weight, p: Pixel): nat {
    match k case One => 1 case X => p.x case Y => p.y
  }

  ghost predicate CoveredBy(parts: seq<Run>, p: Pixel) {
    exists m :: 0 <= m < |parts| && Covers(parts[m], p)
  }

  /** Sum over the covered pixels of row y left of column n. */
  ghost function RowSum(k: Weight, parts: seq<Run>, y: nat, n: nat): nat {
    if n == 0 then 0
    else
      var p := Pixel(n - 1, y);
      RowSum(k, parts, y, n - 1) + if CoveredBy(parts, p) then WeightOf(k, p) else 0
  }

  /** Sum over the covered pixels of the first h rows of width w. */
  ghost function RasterSum(k: Weight, parts: seq<Run>, w: nat, h: nat): nat {
    if h == 0 then 0 else RasterSum(k, parts, w, h - 1) + RowSum(k, parts, h - 1, w)
  }

  // - - -- --- ----- -------- Sums over runs

  /** Sum over the pixels x..r.xmax of a run. */
  function TailSum(k: Weight, r: Run, x: nat): nat
    decreases r.xmax + 1 - x
  {
    if x > r.xmax then 0 else WeightOf(k, Pixel(x, r.y)) + TailSum(k, r, x + 1)
  }

  function RunSum(k: Weight, r: Run): nat {
    TailSum(k, r, r.xmin)
  }

  function PartsSum(k: Weight, parts: seq<Run>): nat {
    if parts == [] then 0 else RunSum(k, parts[0]) + PartsSum(k, parts[1..])
  }

  lemma {:induction false} PartsSumConcat(k: Weight, a: seq<Run>, b: seq<Run>)
    ensures PartsSum(k, a + b) == PartsSum(k, a) + PartsSum(k, b)
  {
    if a == [] {
      assert a + b == b;
    } else {
      PartsSumConcat(k, a[1..], b);
      assert (a + b)[1..] == a[1..] + b;
    }
  }

  lemma {:induction false} TailSumClosed(r: Run, x: nat)
    requires x <= r.xmax + 1
    ensures TailSum(One, r, x) == r.xmax + 1 - x
    ensures 2 * TailSum(X, r, x) == r.xmax * (r.xmax + 1) - x * (x - 1)
    ensures TailSum(Y, r, x) == r.y * (r.xmax + 1 - x)
    decreases r.xmax + 1 - x
  {
    if x <= r.xmax {
      TailSumClosed(r, x + 1);
      assert x * (x - 1) + 2 * x == (x + 1) * x;
      assert r.y * (r.xmax + 1 - x) == r.y + r.y * (r.xmax - x);
    }
  }

  /** Sum over the pixels of a single run left of column n of its row. */
  lemma {:induction false} RowSumOfRun(k: Weight, r: Run, y: nat, n: nat)
    ensures y != r.y ==> RowSum(k, [r], y, n) == 0
    ensures y == r.y && n <= r.xmin ==> RowSum(k, [r], y, n) == 0
    ensures y == r.y && r.xmin <= n <= r.xmax + 1 ==> RowSum(k, [r], y, n) + TailSum(k, r, n) == RunSum(k, r)
    ensures y == r.y && r.xmin <= r.xmax && n > r.xmax ==> RowSum(k, [r], y, n) == RunSum(k, r)
  {
    if n > 0 {
      RowSumOfRun(k, r, y, n - 1);
      assert CoveredBy([r], Pixel(n - 1, y)) <==> Covers(r, Pixel(n - 1, y)) by {
        if Covers(r, Pixel(n - 1, y)) { assert Covers([r][0], Pixel(n - 1, y)); }
      }
    }
  }

  lemma {:induction false} RasterSumOfRun(k: Weight, r: Run, w: nat, h: nat)
    requires r.xmin <= r.xmax < w
    ensures RasterSum(k, [r], w, h) == if r.y < h then RunSum(k, r) else 0
  {
    if h > 0 {
      RasterSumOfRun(k, r, w, h - 1);
      RowSumOfRun(k, r, h - 1, w);
    }
  }

  ghost predicate Separate(r: Run, rest: seq<Run>) {
    forall p :: !(Covers(r, p) && CoveredBy(rest, p))
  }

  lemma {:induction false} RowSumCons(k: Weight, r: Run, rest: seq<Run>, y: nat, n: nat)
    requires Separate(r, rest)
    ensures RowSum(k, [r] + rest, y, n) == RowSum(k, [r], y, n) + RowSum(k, rest, y, n)
  {
    if n > 0 {
      RowSumCons(k, r, rest, y, n - 1);
      CoveredByCons(r, rest, Pixel(n - 1, y));
      CoveredByCons(r, [], Pixel(n - 1, y));
      assert [r] + [] == [r];
    }
  }

  lemma CoveredByCons(r: Run, rest: seq<Run>, p: Pixel)
    ensures CoveredBy([r] + rest, p) <==> Covers(r, p) || CoveredBy(rest, p)
  {
    var all := [r] + rest;
    if Covers(r, p) { assert Covers(all[0], p); }
    if CoveredBy(rest, p) {
      var m :| 0 <= m < |rest| && Covers(rest[m], p);
      assert all[m + 1] == rest[m];
    }
  }

  lemma {:induction false} RasterSumCons(k: Weight, r: Run, rest: seq<Run>, w: nat, h: nat)
    requires Separate(r, rest)
    ensures RasterSum(k, [r] + rest, w, h) == RasterSum(k, [r], w, h) + RasterSum(k, rest, w, h)
  {
    if h > 0 {
      RasterSumCons(k, r, rest, w, h - 1);
      RowSumCons(k, r, rest, h - 1, w);
    }
  }

  lemma {:induction false} RowSumEmpty(k: Weight, y: nat, n: nat)
    ensures RowSum(k, [], y, n) == 0
  {
    if n > 0 { RowSumEmpty(k, y, n - 1); }
  }

  lemma {:induction false} RasterSumEmpty(k: Weight, w: nat, h: nat)
    ensures RasterSum(k, [], w, h) == 0
  {
    if h > 0 {
      RasterSumEmpty(k, w, h - 1);
      RowSumEmpty(k, h - 1, w);
    }
  }

  ghost predicate RunsOf(img: Image, w: nat, parts: seq<Run>) {
    forall m :: 0 <= m < |parts| ==>
      && parts[m].y < |img| && |img[parts[m].y]| == w
      && parts[m] in RowRuns(parts[m].y, img[parts[m].y])
  }

  /** For a list of different runs of an image, adding up run by run is adding up
      over the pixels: no pixel is counted twice. */
  lemma {:induction false} PartsSumIsRasterSum(k: Weight, img: Image, w: nat, parts: seq<Run>)
    requires RunsOf(img, w, parts) && Distinct(parts)
    ensures PartsSum(k, parts) == RasterSum(k, parts, w, |img|)
  {
    if parts == [] {
      RasterSumEmpty(k, w, |img|);
    } else {
      var r, rest := parts[0], parts[1..];
      PartsSumIsRasterSum(k, img, w, rest);
      assert Separate(r, rest) by { RunsSeparate(img, w, parts); }
      RasterSumCons(k, r, rest, w, |img|);
      RunsFromExact(r.y, img[r.y], 0);
      RasterSumOfRun(k, r, w, |img|);
      assert parts == [r] + rest;
    }
  }

  lemma RunsSeparate(img: Image, w: nat, parts: seq<Run>)
    requires RunsOf(img, w, parts) && Distinct(parts) && parts != []
    ensures Separate(parts[0], parts[1..])
  {
    forall p | Covers(parts[0], p) && CoveredBy(parts[1..], p) ensures false {
      var m :| 0 <= m < |parts[1..]| && Covers(parts[1..][m], p);
      RunsFromExact(p.y, img[p.y], 0);
    }
  }

  // - - -- --- ----- -------- The 32 bit arithmetic

  lemma ModUnique(a: int, q: int, r: int)
    requires a == q * U32 + r && 0 <= r < U32
    ensures a % U32 == r
  {
  }

  lemma Sub32OfMods(p: int, q: int)
    ensures Sub32(p % U32, q % U32) == (p - q) % U32
  {
    var d := (p % U32 - q % U32) % U32;
    var c := (p % U32 - q % U32) / U32;
    ModUnique(p - q, p / U32 - q / U32 + c, d);
  }

  lemma Add32OfMods(p: nat, q: nat)
    ensures Add32(p % U32, q % U32) == (p + q) % U32
  {
    var d := (p % U32 + q % U32) % U32;
    var c := (p % U32 + q % U32) / U32;
    ModUnique(p + q, p / U32 + q / U32 + c, d);
  }

  /** The closed form used for the x coordinates of a run is exact if and only if
      the run is a single pixel or the sum of its coordinates is below 2^31: the
      doubled sum must not wrap before it is halved. */
  lemma RunXSumExact(r: Run)
    requires r.xmin <= r.xmax < U32 - 1
    ensures RunXSum(r) == RunSum(X, r) <==> r.xmin == r.xmax || RunSum(X, r) < 0x8000_0000
  {
    TailSumClosed(r, r.xmin);
    if r.xmin == r.xmax {
      assert 2 * RunSum(X, r) == 2 * r.xmax by {
        assert r.xmax * (r.xmax + 1) - r.xmax * (r.xmax - 1) == 2 * r.xmax;
      }
    } else {
      RunXSumWraps(r);
      SmallMod(2 * RunSum(X, r));
    }
  }

  lemma RunXSumWraps(r: Run)
    requires r.xmin < r.xmax < U32 - 1
    ensures RunXSum(r) == (2 * RunSum(X, r)) % U32 / 2
  {
    TailSumClosed(r, r.xmin);
    var p, q := r.xmax * (r.xmax + 1), r.xmin * (r.xmin - 1);
    assert Add32(r.xmax, 1) == r.xmax + 1;
    assert Mul32(r.xmin, Sub32(r.xmin, 1)) == q % U32 by {
      if r.xmin == 0 { assert Mul32(0, Sub32(0, 1)) == 0; } else { assert Sub32(r.xmin, 1) == r.xmin - 1; }
    }
    Sub32OfMods(p, q);
  }

  /** An image 65537 pixels wide already breaks it: a full row adds up to
      2147516416, the code computes 32768. */
  lemma RunXSumFailsWhenWide(r: Run)
    requires r == Run(0, 0, 65536)
    ensures RunSum(X, r) == 2147516416 && RunXSum(r) == 32768
  {
    TailSumClosed(r, 0);
    RunXSumWraps(r);
  }

  // - - -- --- ----- -------- What the closed forms of many runs add up to

  /** How often doubling the sum of a run wraps around before it is halved. */
  function RunOverflows(r: Run): nat {
    if r.xmin == r.xmax then 0 else RunSum(X, r) / 0x8000_0000
  }

  function Overflows(parts: seq<Run>): nat {
    if parts == [] then 0 else RunOverflows(parts[0]) + Overflows(parts[1..])
  }

  function ClosedSum(parts: seq<Run>): nat {
    if parts == [] then 0 else RunXSum(parts[0]) + ClosedSum(parts[1..])
  }

  lemma {:induction false} ClosedSumConcat(a: seq<Run>, b: seq<Run>)
    ensures ClosedSum(a + b) == ClosedSum(a) + ClosedSum(b)
  {
    if a == [] {
      assert a + b == b;
    } else {
      ClosedSumConcat(a[1..], b);
      assert (a + b)[1..] == a[1..] + b;
    }
  }

  /** Each time the closed form comes out short by 2^31. */
  lemma RunDefect(r: Run)
    requires r.xmin <= r.xmax < U32 - 1
    ensures RunSum(X, r) == RunXSum(r) + 0x8000_0000 * RunOverflows(r)
  {
    if r.xmin == r.xmax {
      RunXSumExact(r);
    } else {
      RunXSumWraps(r);
      var sum := RunSum(X, r);
      ModUnique(2 * sum, sum / 0x8000_0000, 2 * (sum % 0x8000_0000));
    }
  }

  lemma {:induction false} ClosedDefect(parts: seq<Run>)
    requires forall m :: 0 <= m < |parts| ==> parts[m].xmin <= parts[m].xmax < U32 - 1
    ensures PartsSum(X, parts) == ClosedSum(parts) + 0x8000_0000 * Overflows(parts)
  {
    if parts != [] {
      RunDefect(parts[0]);
      ClosedDefect(parts[1..]);
    }
  }

  /** So many runs add up right, modulo 2^32, if and only if that happens an even
      number of times. */
  lemma ClosedExact(parts: seq<Run>)
    requires forall m :: 0 <= m < |parts| ==> parts[m].xmin <= parts[m].xmax < U32 - 1
    ensures ClosedSum(parts) % U32 == PartsSum(X, parts) % U32 <==> Overflows(parts) % 2 == 0
  {
    ClosedDefect(parts);
    EvenHalves(ClosedSum(parts), Overflows(parts));
  }

  lemma EvenHalves(a: nat, n: nat)
    ensures a % U32 == (a + 0x8000_0000 * n) % U32 <==> n % 2 == 0
  {
    var half, b := n / 2, a % U32 + 0x8000_0000 * (n % 2);
    assert a + 0x8000_0000 * n == (a / U32 + half) * U32 + b;
    ModUnique(a + 0x8000_0000 * n, a / U32 + half + b / U32, b % U32);
  }

  /** It does not happen in images up to 65536 pixels wide. */
  lemma {:induction false} NarrowNeverOverflows(parts: seq<Run>)
    requires forall m :: 0 <= m < |parts| ==> parts[m].xmin <= parts[m].xmax < 65536
    ensures Overflows(parts) == 0
  {
    if parts != [] {
      RunXSumInNarrowImage(parts[0]);
      RunDefect(parts[0]);
      NarrowNeverOverflows(parts[1..]);
    }
  }

  lemma MulMonotone(a: nat, b: nat, c: nat, d: nat)
    requires a <= c && b <= d
    ensures a * b <= c * d
  {
    assert a * b <= a * d && a * d <= c * d;
  }

  lemma RunXSumInNarrowImage(r: Run)
    requires r.xmin <= r.xmax < 65536
    ensures RunXSum(r) == RunSum(X, r)
  {
    TailSumClosed(r, r.xmin);
    MulMonotone(r.xmax, r.xmax + 1, 65535, 65536);
    if r.xmin > 0 { MulMonotone(0, 0, r.xmin, r.xmin - 1); }
    assert RunSum(X, r) < 0x8000_0000;
    RunXSumExact(r);
  }

  // - - -- --- ----- -------- Kept by scanning and fusing

  /** The sums of a component, modulo 2^32; that of the x coordinates is what the
      closed forms of its runs add up to. */
  ghost predicate Counted(cc: Component) {
    && cc.area == PartsSum(One, cc.parts) % U32
    && cc.xsum == ClosedSum(cc.parts) % U32
    && cc.ysum == PartsSum(Y, cc.parts) % U32
  }

  /** The bounding box holds all runs, and each side is reached by one of them. */
  ghost predicate Boxed(cc: Component) {
    && (forall r :: r in cc.parts ==> cc.xmin <= r.xmin && r.xmax <= cc.xmax && cc.ymin <= r.y <= cc.ymax)
    && (exists r :: r in cc.parts && r.xmin == cc.xmin)
    && (exists r :: r in cc.parts && r.xmax == cc.xmax)
    && (exists r :: r in cc.parts && r.y == cc.ymin)
    && (exists r :: r in cc.parts && r.y == cc.ymax)
  }

  lemma MergeCounted(a: Component, b: Component)
    requires Counted(a) && Counted(b)
    ensures Counted(Merge(a, b))
  {
    PartsSumConcat(One, a.parts, b.parts);
    ClosedSumConcat(a.parts, b.parts);
    PartsSumConcat(Y, a.parts, b.parts);
    Add32OfMods(PartsSum(One, a.parts), PartsSum(One, b.parts));
    Add32OfMods(ClosedSum(a.parts), ClosedSum(b.parts));
    Add32OfMods(PartsSum(Y, a.parts), PartsSum(Y, b.parts));
  }

  lemma MergeBoxed(a: Component, b: Component)
    requires Boxed(a) && Boxed(b)
    ensures Boxed(Merge(a, b))
  {
    var c := Merge(a, b);
    assert forall r :: r in c.parts <==> r in a.parts || r in b.parts;
    var left :| left in (if a.xmin < b.xmin then a else b).parts && left.xmin == Min(a.xmin, b.xmin);
    var right :| right in (if a.xmax > b.xmax then a else b).parts && right.xmax == Max(a.xmax, b.xmax);
    var top :| top in (if a.ymin < b.ymin then a else b).parts && top.y == Min(a.ymin, b.ymin);
    var bottom :| bottom in (if a.ymax > b.ymax then a else b).parts && bottom.y == Max(a.ymax, b.ymax);
    assert left in c.parts && right in c.parts && top in c.parts && bottom in c.parts;
  }

  lemma NewCounted(r: Run)
    requires r.xmin <= r.xmax < U32 - 1
    ensures Counted(NewComponent(r))
  {
    NewSums(r);
    SmallMod(RunXSum(r));
    SinglePart(One, r);
    SinglePart(Y, r);
    assert [r][1..] == [] && ClosedSum([r]) == RunXSum(r);
  }

  lemma SinglePart(k: Weight, r: Run)
    ensures PartsSum(k, [r]) == RunSum(k, r)
  {
    assert [r][1..] == [];
  }

  lemma NewSums(r: Run)
    requires r.xmin <= r.xmax < U32 - 1
    ensures NewComponent(r).area == RunSum(One, r) % U32
    ensures NewComponent(r).ysum == RunSum(Y, r) % U32
    ensures RunXSum(r) < U32
  {
    TailSumClosed(r, r.xmin);
    SmallMod(r.xmax - r.xmin);
    SmallMod(r.xmax - r.xmin + 1);
  }

  lemma NewBoxed(r: Run)
    requires r.xmin <= r.xmax
    ensures Boxed(NewComponent(r))
  {
    assert r in NewComponent(r).parts;
  }

  ghost predicate Measured(cc: Component) {
    Counted(cc) && Boxed(cc)
  }

  ghost predicate AllMeasured(all: seq<Component>) {
    forall k :: 0 <= k < |all| ==> Measured(all[k])
  }

  ghost predicate AllBoxed(all: seq<Component>) {
    forall k :: 0 <= k < |all| ==> Boxed(all[k])
  }

  // Whatever merging two components keeps, fusing two blocks does.

  ghost predicate All(all: seq<Component>, good: Component -> bool) {
    forall k :: 0 <= k < |all| ==> good(all[k])
  }

  ghost predicate Mergeable(good: Component -> bool) {
    forall a, b :: good(a) && good(b) ==> good(Merge(a, b))
  }

  lemma JoinKeepsAll(all: seq<Component>, r: Run, s: Run, good: Component -> bool)
    requires All(all, good) && Mergeable(good)
    ensures All(Join(all, r, s), good)
  {
    var a, b := OwnerOf(all, r), OwnerOf(all, s);
    if a != b && a < |all| && b < |all| {
      var merged := all[a := Merge(all[a], all[b])];
      assert good(all[a]) && good(all[b]);
      forall k | 0 <= k < |RemoveAt(merged, b)| ensures good(RemoveAt(merged, b)[k]) {
        assert RemoveAt(merged, b)[k] == merged[if k < b then k else k + 1];
      }
    }
  }

  lemma FuseKeepsAll(eight: bool, a: Block, b: Block, good: Component -> bool)
    requires a.rows != [] && b.rows != [] && All(a.ccs, good) && All(b.ccs, good) && Mergeable(good)
    ensures All(Fuse(eight, a, b).ccs, good)
  {
    var ar, br := LowerRow(a), b.rows[0];
    var keep := (i: nat, j: nat, x: seq<Component>) => All(x, good);
    forall i: nat, j: nat, x | i < |ar| && j < |br| && keep(i, j, x)
      ensures All(SweepStep(eight, ar[i], br[j], x), good)
    {
      JoinKeepsAll(x, ar[i], br[j], good);
    }
    forall k | 0 <= k < |a.ccs + b.ccs| ensures good((a.ccs + b.ccs)[k]) {
      assert (a.ccs + b.ccs)[k] == if k < |a.ccs| then a.ccs[k] else b.ccs[k - |a.ccs|];
    }
    var m, n := SweepWalk(eight, ar, br, 0, 0, a.ccs + b.ccs, keep);
  }

  /** Fusing keeps the sums and boxes right. */
  lemma FuseMeasured(eight: bool, a: Block, b: Block)
    requires a.rows != [] && b.rows != [] && AllMeasured(a.ccs) && AllMeasured(b.ccs)
    ensures AllMeasured(Fuse(eight, a, b).ccs)
  {
    var good := (c: Component) => Measured(c);
    forall c, d | good(c) && good(d) ensures good(Merge(c, d)) {
      MergeCounted(c, d);
      MergeBoxed(c, d);
    }
    FuseKeepsAll(eight, a, b, good);
    assert forall k :: 0 <= k < |Fuse(eight, a, b).ccs| ==> good(Fuse(eight, a, b).ccs[k]);
  }

  lemma FuseBoxed(eight: bool, a: Block, b: Block)
    requires a.rows != [] && b.rows != [] && AllBoxed(a.ccs) && AllBoxed(b.ccs)
    ensures AllBoxed(Fuse(eight, a, b).ccs)
  {
    var good := (c: Component) => Boxed(c);
    forall c, d | good(c) && good(d) ensures good(Merge(c, d)) {
      MergeBoxed(c, d);
    }
    FuseKeepsAll(eight, a, b, good);
    assert forall k :: 0 <= k < |Fuse(eight, a, b).ccs| ==> good(Fuse(eight, a, b).ccs[k]);
  }

  lemma ScanMeasured(y: nat, row: seq<real>)
    requires |row| < U32
    ensures AllMeasured(ScanRow(y, row).ccs)
  {
    ScanBoxed(y, row);
    RunsFromExact(y, row, 0);
    forall k | 0 <= k < |RowRuns(y, row)| ensures Measured(ScanRow(y, row).ccs[k]) {
      NewCounted(RowRuns(y, row)[k]);
    }
  }

  lemma ScanBoxed(y: nat, row: seq<real>)
    ensures AllBoxed(ScanRow(y, row).ccs)
  {
    RunsFromExact(y, row, 0);
    forall k | 0 <= k < |RowRuns(y, row)| ensures Boxed(ScanRow(y, row).ccs[k]) {
      NewBoxed(RowRuns(y, row)[k]);
    }
  }

  // - - -- --- ----- -------- The sums of a finished component

  lemma {:induction false} RowSumBound(parts: seq<Run>, y: nat, n: nat)
    ensures RowSum(One, parts, y, n) <= n
    ensures 2 * RowSum(X, parts, y, n) <= n * (n - 1)
    ensures RowSum(Y, parts, y, n) <= y * n
  {
    if n > 0 {
      RowSumBound(parts, y, n - 1);
      assert n * (n - 1) == (n - 1) * (n - 2) + 2 * (n - 1);
      assert y * n == y * (n - 1) + y;
    }
  }

  lemma {:induction false} RasterSumBound(parts: seq<Run>, w: nat, h: nat)
    ensures RasterSum(One, parts, w, h) <= w * h
    ensures 2 * RasterSum(X, parts, w, h) <= h * (w * (w - 1))
    ensures 2 * RasterSum(Y, parts, w, h) <= w * (h * (h - 1))
  {
    if h > 0 {
      RasterSumBound(parts, w, h - 1);
      RowSumBound(parts, h - 1, w);
      assert w * h == w * (h - 1) + w;
      assert h * (w * (w - 1)) == (h - 1) * (w * (w - 1)) + w * (w - 1);
      assert w * (h * (h - 1)) == w * ((h - 1) * (h - 2)) + 2 * ((h - 1) * w) by {
        assert h * (h - 1) == (h - 1) * (h - 2) + 2 * (h - 1);
        MulSplit(w, (h - 1) * (h - 2), h - 1);
      }
    }
  }

  lemma MulSplit(w: int, a: int, b: int)
    ensures w * (a + 2 * b) == w * a + 2 * (b * w)
  {
  }

  /** Area and y sum of a component of a w x |img| image are the sums over its pixels,
      modulo 2^32. The x sum is if and only if doubled sums of runs wrap around an
      even number of times, which is none up to a width of 65536. All are exact when
      the worst case totals of the image fit 32 bits. */
  ghost predicate SumsRight(cc: Component, w: nat, h: nat) {
    && cc.area == RasterSum(One, cc.parts, w, h) % U32
    && cc.ysum == RasterSum(Y, cc.parts, w, h) % U32
    && (cc.xsum == RasterSum(X, cc.parts, w, h) % U32 <==> Overflows(cc.parts) % 2 == 0)
    && (w <= 65536 ==> Overflows(cc.parts) == 0)
    && (w * h < U32 ==> RasterSum(One, cc.parts, w, h) < U32)
    && (h * (w * (w - 1)) < 2 * U32 ==> RasterSum(X, cc.parts, w, h) < U32)
    && (w * (h * (h - 1)) < 2 * U32 ==> RasterSum(Y, cc.parts, w, h) < U32)
  }

  lemma SumsExact(img: Image, w: nat, cc: Component)
    requires w < U32 && Counted(cc) && RunsOf(img, w, cc.parts) && Distinct(cc.parts)
    ensures SumsRight(cc, w, |img|)
  {
    forall m | 0 <= m < |cc.parts| ensures cc.parts[m].xmin <= cc.parts[m].xmax < w {
      RunsFromExact(cc.parts[m].y, img[cc.parts[m].y], 0);
    }
    ClosedExact(cc.parts);
    if w <= 65536 { NarrowNeverOverflows(cc.parts); }
    PartsSumIsRasterSum(One, img, w, cc.parts);
    PartsSumIsRasterSum(X, img, w, cc.parts);
    PartsSumIsRasterSum(Y, img, w, cc.parts);
    RasterSumBound(cc.parts, w, |img|);
  }

  lemma SmallMod(n: nat)
    ensures n < U32 ==> n % U32 == n
  {
  }
}
