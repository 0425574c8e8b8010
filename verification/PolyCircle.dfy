/** The signed distance to a set of circles: by a scan over all centres, and by way
    of the KD-tree. */
module PolyCircle {
  import opened QuickSelect
  import opened PointTree
  import opened Stretches
  import opened PointSearch

  /** The square root, of which only this matters. */
  ghost predicate Monotone(root: real -> real) {
    forall a, b :: 0.0 <= a <= b ==> root(a) <= root(b)
  }

  function RootOf(d: Distance, root: real -> real): Distance {
    if d.Finite? then Finite(root(d.d)) else Infinity
  }

  function Outside(d: Distance, radius: real): Distance {
    if d.Finite? then Finite(d.d - radius) else Infinity
  }

  function Lesser(a: Distance, b: Distance): Distance {
    if Less(a, b) then a else b
  }

  /** The smallest distance among the first n centres. */
  function LeastRoot(centers: seq<Point>, n: nat, target: Point, root: real -> real): Distance
    requires n <= |centers|
  {
    if n == 0 then Infinity
    else Lesser(Finite(root(Dist2(centers[n-1], target))), LeastRoot(centers, n - 1, target, root))
  }

  /** aktive_sdf_polycircle. */
  method Polycircle(x: real, y: real, radius: real, centers: seq<Point>, root: real -> real) returns (r: Distance)
    ensures r == Outside(LeastRoot(centers, |centers|, Point(x, y), root), radius)
    ensures SignedDistance(x, y, radius, centers, root, r)
  {
    var mindist := Infinity;
    var k := 0;
    while k < |centers|
      invariant 0 <= k <= |centers| && mindist == LeastRoot(centers, k, Point(x, y), root)
    {
      var d := root(Dist2(centers[k], Point(x, y)));
      mindist := Lesser(Finite(d), mindist);
      k := k + 1;
    }
    LeastMeans(x, y, radius, centers, root);
    return Outside(mindist, radius);
  }

  /** The distance is that to the nearest circle: with the radius added it is the root
      of the squared distance of some center, and of no center more. Without circles it
      is infinite. */
  ghost predicate SignedDistance(x: real, y: real, radius: real, centers: seq<Point>, root: real -> real, r: Distance) {
    && (r.Finite? <==> |centers| > 0)
    && (r.Finite? ==>
          && (forall k :: 0 <= k < |centers| ==> r.d + radius <= ToCenter(x, y, centers[k], root))
          && (exists k :: 0 <= k < |centers| && r.d + radius == ToCenter(x, y, centers[k], root)))
  }

  function Squares(x: real, y: real, c: Point): real {
    (c.x - x) * (c.x - x) + (c.y - y) * (c.y - y)
  }

  /** How far the center is away. */
  function ToCenter(x: real, y: real, c: Point, root: real -> real): real {
    root(Squares(x, y, c))
  }

  /** So it is negative just inside some circle. */
  lemma NegativeInside(x: real, y: real, radius: real, centers: seq<Point>, root: real -> real, r: Distance)
    requires SignedDistance(x, y, radius, centers, root, r)
    ensures r.Finite? && r.d < 0.0 <==> exists k :: 0 <= k < |centers| && ToCenter(x, y, centers[k], root) < radius
  {
  }

  /** From (4, 6) the distance to the circle of radius 1 around (1, 2) is 4, as that to
      its center is the root of 9 and 16. */
  lemma OffBothAxes(root: real -> real, r: Distance)
    requires root(25.0) == 5.0 && SignedDistance(4.0, 6.0, 1.0, [Point(1.0, 2.0)], root, r)
    ensures r == Finite(4.0)
  {
    var centers := [Point(1.0, 2.0)];
    assert Squares(4.0, 6.0, centers[0]) == 25.0 && ToCenter(4.0, 6.0, centers[0], root) == 5.0;
  }

  lemma CenterDistance(x: real, y: real, c: Point, root: real -> real)
    ensures ToCenter(x, y, c, root) == root(Dist2(c, Point(x, y)))
  {
    SumOfSquares(c, Point(x, y));
    assert Squares(x, y, c) == Dist2(c, Point(x, y));
  }

  lemma LeastMeans(x: real, y: real, radius: real, centers: seq<Point>, root: real -> real)
    ensures SignedDistance(x, y, radius, centers, root, Outside(LeastRoot(centers, |centers|, Point(x, y), root), radius))
  {
    var n, target := |centers|, Point(x, y);
    forall k | 0 <= k < n
      ensures LeastRoot(centers, n, target, root).Finite?
      ensures LeastRoot(centers, n, target, root).d <= ToCenter(x, y, centers[k], root)
    {
      LeastRootBelow(centers, n, target, root, k);
      CenterDistance(x, y, centers[k], root);
    }
    if n > 0 {
      var k := LeastRootTaken(centers, n, target, root);
      CenterDistance(x, y, centers[k], root);
      assert LeastRoot(centers, n, target, root).d == ToCenter(x, y, centers[k], root);
    }
  }

  lemma {:induction false} LeastRootBelow(centers: seq<Point>, n: nat, target: Point, root: real -> real, k: nat)
    requires k < n <= |centers|
    ensures LeastRoot(centers, n, target, root).Finite?
    ensures LeastRoot(centers, n, target, root).d <= root(Dist2(centers[k], target))
  {
    if k < n - 1 { LeastRootBelow(centers, n - 1, target, root, k); }
  }

  lemma {:induction false} LeastRootTaken(centers: seq<Point>, n: nat, target: Point, root: real -> real) returns (k: nat)
    requires 0 < n <= |centers|
    ensures k < n && LeastRoot(centers, n, target, root) == Finite(root(Dist2(centers[k], target)))
  {
    k := n - 1;
    assert LeastRoot(centers, 0, target, root) == Infinity;
    if LeastRoot(centers, n, target, root) != Finite(root(Dist2(centers[k], target))) {
      k := LeastRootTaken(centers, n - 1, target, root);
    }
  }

  /** The least distance is the root of the least squared distance. */
  lemma RootOfNearest(centers: seq<Point>, target: Point, root: real -> real, best: Point, d: Distance)
    requires Monotone(root) && Nearest(p => Count(centers, 0, |centers|, p), target, best, d)
    ensures LeastRoot(centers, |centers|, target, root) == RootOf(d, root)
  {
    var occurs := (p: Point) => Count(centers, 0, |centers|, p);
    if |centers| == 0 {
      assert occurs(best) == 0;
    } else {
      var k := LeastRootTaken(centers, |centers|, target, root);
      CountHas(centers, 0, |centers|, k);
      assert occurs(centers[k]) > 0;
      assert d.Finite? && occurs(best) > 0;
      var j := CountFinds(centers, 0, |centers|, best);
      LeastRootBelow(centers, |centers|, target, root, j);
      DistanceNatural(target);
      assert DistanceTo(target)(best) >= 0.0;
    }
  }

  /** aktive_sdf_polycircle_kd. */
  method PolycircleKd(x: real, y: real, radius: real, centers: Tree, root: real -> real) returns (r: Distance, ghost best: Point, ghost d: Distance)
    ensures r == Outside(RootOf(d, root), radius)
    ensures Sorted(centers, SplitX) ==> Nearest(p => Occurs(centers, p), Point(x, y), best, d)
  {
    var distance;
    best, distance := FindNearest(centers, Point(x, y));
    d := distance;
    r := Outside(RootOf(distance, root), radius);
  }

  /** Setting up the tree and searching it gives what the scan over all centres gives,
      for centres docile in both coordinates. */
  method PolycircleIndexed(x: real, y: real, radius: real, centers: array<Point>, root: real -> real) returns (r: Distance)
    requires Monotone(root)
    modifies centers
    ensures AllDocile(old(centers[..]), 0, centers.Length) ==>
              r == Outside(LeastRoot(old(centers[..]), centers.Length, Point(x, y), root), radius)
    ensures AllDocile(old(centers[..]), 0, centers.Length) ==> SignedDistance(x, y, radius, old(centers[..]), root, r)
  {
    ghost var was := centers[..];
    ghost var select := QuickSelection();
    var tree := MakeNode(centers, 0, centers.Length, SplitX, select);
    MadeIndexes(select, was, 0, |was|, SplitX, Build(tree, centers[..]));
    ghost var best, d;
    r, best, d := PolycircleKd(x, y, radius, tree, root);
    if AllDocile(was, 0, |was|) {
      SameNearest(tree, was, Point(x, y), best, d);
      RootOfNearest(was, Point(x, y), root, best, d);
      LeastMeans(x, y, radius, was, root);
    }
  }

  lemma SameNearest(t: Tree, s: seq<Point>, target: Point, best: Point, d: Distance)
    requires Holds(t, s, 0, |s|) && Nearest(p => Occurs(t, p), target, best, d)
    ensures Nearest(p => Count(s, 0, |s|, p), target, best, d)
  {
  }
}
