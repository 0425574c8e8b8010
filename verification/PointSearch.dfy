/** Searching a KD-tree for the point nearest to a target, against the linear scan
    over all points. */
module PointSearch {
  import opened QuickSelect
  import opened PointTree
  import opened Stretches

  /** Squared distances; the search starts from INFINITY. */
  datatype Distance = Infinity | Finite(d: real)

  predicate Less(a: Distance, b: Distance) {
    a.Finite? && (b.Infinity? || a.d < b.d)
  }

  function Square(a: real): real {
    a * a
  }

  function Dist2(p: Point, target: Point): real {
    Square(p.x - target.x) + Square(p.y - target.y)
  }

  /** `best` is as near to the target as any of the points counted, `d` is how near,
      if there are any; without points nothing changes. */
  ghost predicate Nearest(occurs: Point -> nat, target: Point, best: Point, d: Distance) {
    && (forall p :: occurs(p) > 0 ==> !Less(Finite(Dist2(p, target)), d))
    && (d.Finite? ==> occurs(best) > 0 && d.d == Dist2(best, target))
  }

  /** The distance of the nearest point is determined by the points. */
  lemma NearestUnique(occurs: Point -> nat, target: Point, p: Point, d: Distance, q: Point, e: Distance)
    requires Nearest(occurs, target, p, d) && Nearest(occurs, target, q, e)
    ensures d == e
  {
  }

  // - - -- --- ----- -------- The search

  function DistanceTo(target: Point): Point -> real {
    p => Dist2(p, target)
  }

  /** What a search that already knows `best` at distance `bestd` makes of a tree. */
  ghost predicate Improves(t: Tree, dist: Point -> real, best: Point, bestd: Distance, best': Point, bestd': Distance) {
    && (forall p :: Occurs(t, p) > 0 ==> !Less(Finite(dist(p)), bestd'))
    && ((best', bestd') == (best, bestd)
        || (Occurs(t, best') > 0 && bestd' == Finite(dist(best')) && Less(bestd', bestd)))
  }

  lemma SquareMonotone(a: real, b: real)
    requires 0.0 <= a <= b || b <= a <= 0.0
    ensures Square(a) <= Square(b)
  {
    if 0.0 <= a { assert a * a <= a * b && a * b <= b * b; } else { assert a * a <= a * b && a * b <= b * b; }
  }

  lemma SquareNatural(a: real)
    ensures Square(a) >= 0.0
  {
  }

  /** Beyond the splitting line nothing is nearer than the line. */
  lemma BeyondLine(p: Point, pivot: Point, target: Point, dim: Dimension)
    requires Key(target, dim) < Key(pivot, dim) <= Key(p, dim) || Key(p, dim) <= Key(pivot, dim) <= Key(target, dim)
    ensures Dist2(p, target) >= Square(Key(pivot, dim) - Key(target, dim))
  {
    SquareMonotone(Key(pivot, dim) - Key(target, dim), Key(p, dim) - Key(target, dim));
    SquareNatural(p.x - target.x);
    SquareNatural(p.y - target.y);
  }

  /** The points of `t` are those of `a` and `b`. */
  ghost predicate Joined(t: Tree, a: Tree, b: Tree) {
    forall p :: Occurs(t, p) == Occurs(a, p) + Occurs(b, p)
  }

  /** Searching two parts one after the other. */
  lemma BothSearched(t: Tree, a: Tree, b: Tree, dist: Point -> real, p0: Point, d0: Distance, p1: Point, d1: Distance, p2: Point, d2: Distance)
    requires Joined(t, a, b) && Improves(a, dist, p0, d0, p1, d1) && Improves(b, dist, p1, d1, p2, d2)
    ensures Improves(t, dist, p0, d0, p2, d2)
  {
    forall p | Occurs(t, p) > 0 ensures !Less(Finite(dist(p)), d2) {
      assert Occurs(a, p) > 0 || Occurs(b, p) > 0;
    }
  }

  /** A part may be skipped when nothing in it is nearer. */
  lemma PartSkipped(t: Tree, a: Tree, b: Tree, dist: Point -> real, p0: Point, d0: Distance, p1: Point, d1: Distance)
    requires Joined(t, a, b) && Improves(a, dist, p0, d0, p1, d1)
    requires forall p :: Occurs(b, p) > 0 ==> !Less(Finite(dist(p)), d1)
    ensures Improves(t, dist, p0, d0, p1, d1)
  {
    BothSearched(t, a, b, dist, p0, d0, p1, d1, p1, d1);
  }

  /** The pivot with one of the branches: what has been searched when the other one
      comes into question. */
  function Upper(t: Tree, left: bool): Tree
    requires t.Node?
  {
    Node(t.pivot, if left then t.left else t.right, Leaf)
  }

  function Branch(t: Tree, left: bool): Tree
    requires t.Node?
  {
    if left then t.left else t.right
  }

  lemma TreeParts(t: Tree, left: bool)
    requires t.Node?
    ensures Joined(Upper(t, left), Node(t.pivot, Leaf, Leaf), Branch(t, left))
    ensures Joined(t, Upper(t, left), Branch(t, !left))
  {
    forall p ensures Occurs(t, p) == Occurs(Upper(t, left), p) + Occurs(Branch(t, !left), p) {
      PivotOccurs(t.pivot, p);
      assert Occurs(Upper(t, left), p) == Occurs(Branch(t, left), p) + (if p == t.pivot then 1 else 0) + Occurs(Leaf, p);
    }
  }

  lemma PivotOccurs(pivot: Point, p: Point)
    ensures Occurs(Leaf, p) == 0 && Occurs(Node(pivot, Leaf, Leaf), p) == if p == pivot then 1 else 0
  {
  }

  lemma PivotSeen(pivot: Point, dist: Point -> real, best: Point, bestd: Distance)
    ensures var d := Finite(dist(pivot)); var better := Less(d, bestd);
            Improves(Node(pivot, Leaf, Leaf), dist, best, bestd, if better then pivot else best, if better then d else bestd)
  {
  }

  /** On the far side of the splitting line nothing is nearer than the line. */
  lemma FarSide(t: Tree, target: Point, dim: Dimension, bestd: Distance)
    requires t.Node? && Sorted(t, dim)
    requires Less(bestd, Finite(Square(Key(t.pivot, dim) - Key(target, dim))))
    ensures forall p :: Occurs(Branch(t, !(Key(t.pivot, dim) - Key(target, dim) > 0.0)), p) > 0
                        ==> !Less(Finite(DistanceTo(target)(p)), bestd)
  {
    forall p | Occurs(Branch(t, !(Key(t.pivot, dim) - Key(target, dim) > 0.0)), p) > 0
      ensures !Less(Finite(DistanceTo(target)(p)), bestd)
    {
      BeyondLine(p, t.pivot, target, dim);
    }
  }

  lemma ExactHit(t: Tree, dist: Point -> real, best: Point, bestd: Distance, best': Point, bestd': Distance)
    requires t.Node? && dist(t.pivot) == 0.0 && forall p :: dist(p) >= 0.0
    requires Improves(Node(t.pivot, Leaf, Leaf), dist, best, bestd, best', bestd')
    ensures Improves(t, dist, best, bestd, best', bestd')
  {
    PivotOccurs(t.pivot, t.pivot);
    PivotOccurs(t.pivot, best');
    assert Occurs(t, t.pivot) >= 1;
  }

  lemma DistanceNatural(target: Point)
    ensures forall p :: DistanceTo(target)(p) >= 0.0
  {
    forall p ensures DistanceTo(target)(p) >= 0.0 {
      SquareNatural(p.x - target.x);
      SquareNatural(p.y - target.y);
    }
  }

  lemma NoBranches(t: Tree, dist: Point -> real, best: Point, bestd: Distance, best': Point, bestd': Distance)
    requires t.Node? && t.left.Leaf? && t.right.Leaf?
    requires Improves(Node(t.pivot, Leaf, Leaf), dist, best, bestd, best', bestd')
    ensures Improves(t, dist, best, bestd, best', bestd')
  {
  }

  /** nearest as a function: the best point and its distance after the search. */
  function Found(t: Tree, target: Point, dim: Dimension, best: Point, bestd: Distance): (Point, Distance)
    decreases t
  {
    if t.Leaf? then (best, bestd)
    else
      var d := Dist2(t.pivot, target);
      var delta := Key(t.pivot, dim) - Key(target, dim);
      var p1 := if Less(Finite(d), bestd) then t.pivot else best;
      var d1 := if Less(Finite(d), bestd) then Finite(d) else bestd;
      if d == 0.0 || (t.left.Leaf? && t.right.Leaf?) then (p1, d1)
      else
        var near := Found(if delta > 0.0 then t.left else t.right, target, Flip(dim), p1, d1);
        if Less(near.1, Finite(Square(delta))) then near
        else Found(if delta > 0.0 then t.right else t.left, target, Flip(dim), near.0, near.1)
  }

  /** nearest. */
  method Search(t: Tree, target: Point, dim: Dimension, best: Point, bestd: Distance) returns (best': Point, bestd': Distance)
    ensures (best', bestd') == Found(t, target, dim, best, bestd)
    decreases t
  {
    best', bestd' := best, bestd;
    if t.Leaf? { return; }
    var d := Dist2(t.pivot, target);
    var delta := Key(t.pivot, dim) - Key(target, dim);
    if Less(Finite(d), bestd') { best', bestd' := t.pivot, Finite(d); }
    if d == 0.0 { return; }
    if t.left.Leaf? && t.right.Leaf? { return; }
    best', bestd' := Search(if delta > 0.0 then t.left else t.right, target, Flip(dim), best', bestd');
    if Less(bestd', Finite(Square(delta))) { return; }
    best', bestd' := Search(if delta > 0.0 then t.right else t.left, target, Flip(dim), best', bestd');
  }

  /** On a sorted tree the pruned search misses nothing. */
  lemma {:induction false} FoundImproves(t: Tree, target: Point, dim: Dimension, best: Point, bestd: Distance)
    requires Sorted(t, dim)
    ensures var r := Found(t, target, dim, best, bestd); Improves(t, DistanceTo(target), best, bestd, r.0, r.1)
    decreases t, 1
  {
    if t.Node? {
      var d := Dist2(t.pivot, target);
      var p1 := if Less(Finite(d), bestd) then t.pivot else best;
      var d1 := if Less(Finite(d), bestd) then Finite(d) else bestd;
      PivotSeen(t.pivot, DistanceTo(target), best, bestd);
      if d == 0.0 {
        DistanceNatural(target);
        ExactHit(t, DistanceTo(target), best, bestd, p1, d1);
      } else if t.left.Leaf? && t.right.Leaf? {
        NoBranches(t, DistanceTo(target), best, bestd, p1, d1);
      } else {
        BranchesImprove(t, target, dim, best, bestd, p1, d1);
      }
    }
  }

  /** The near branch, and the far one unless it cannot be better. */
  lemma BranchesImprove(t: Tree, target: Point, dim: Dimension, p0: Point, d0: Distance, p1: Point, d1: Distance)
    requires t.Node? && Sorted(t, dim) && Improves(Node(t.pivot, Leaf, Leaf), DistanceTo(target), p0, d0, p1, d1)
    ensures var delta := Key(t.pivot, dim) - Key(target, dim);
            var near := Found(Branch(t, delta > 0.0), target, Flip(dim), p1, d1);
            if Less(near.1, Finite(Square(delta))) then Improves(t, DistanceTo(target), p0, d0, near.0, near.1)
            else
              var r := Found(Branch(t, !(delta > 0.0)), target, Flip(dim), near.0, near.1);
              Improves(t, DistanceTo(target), p0, d0, r.0, r.1)
    decreases t, 0
  {
    var delta := Key(t.pivot, dim) - Key(target, dim);
    var dist, side := DistanceTo(target), delta > 0.0;
    var near := Found(Branch(t, side), target, Flip(dim), p1, d1);
    TreeParts(t, side);
    FoundImproves(Branch(t, side), target, Flip(dim), p1, d1);
    BothSearched(Upper(t, side), Node(t.pivot, Leaf, Leaf), Branch(t, side), dist, p0, d0, p1, d1, near.0, near.1);
    if Less(near.1, Finite(Square(delta))) {
      FarSide(t, target, dim, near.1);
      PartSkipped(t, Upper(t, side), Branch(t, !side), dist, p0, d0, near.0, near.1);
    } else {
      var r := Found(Branch(t, !side), target, Flip(dim), near.0, near.1);
      FoundImproves(Branch(t, !side), target, Flip(dim), near.0, near.1);
      BothSearched(t, Upper(t, side), Branch(t, !side), dist, p0, d0, near.0, near.1, r.0, r.1);
    }
  }

  /** When the far branch is pruned. */
  lemma FoundNear(t: Tree, target: Point, dim: Dimension, d: real, delta: real, near: (Point, Distance))
    requires t.Node? && d == Dist2(t.pivot, target) && d != 0.0 && t.right.Node?
    requires delta == Key(t.pivot, dim) - Key(target, dim) && !(delta > 0.0)
    requires near == Found(t.right, target, Flip(dim), t.pivot, Finite(d)) && Less(near.1, Finite(Square(delta)))
    ensures Found(t, target, dim, Point(0.0, 0.0), Infinity) == near
  {
  }

  /** On a tree that is not sorted it may: in the one built from these four points the
      search for one of them finds another instead. */
  lemma MisorderedMisses(select: Selection, points: seq<Point>, t: Tree)
    requires Quick(select) && points == [Point(7.0, 0.0), Point(9.0, 0.0), Point(5.0, -1.0), Point(5.0, 0.0)]
    requires t == Made(select, points, 0, 4, SplitX).tree
    ensures t == Node(Point(5.0, 0.0), Node(Point(9.0, 0.0), Node(Point(5.0, -1.0), Leaf, Leaf), Leaf),
                      Node(Point(7.0, 0.0), Leaf, Leaf))
    ensures Occurs(t, Point(9.0, 0.0)) > 0 && Dist2(Point(9.0, 0.0), Point(9.0, 0.0)) == 0.0
    ensures Found(t, Point(9.0, 0.0), SplitX, Point(0.0, 0.0), Infinity) == (Point(7.0, 0.0), Finite(4.0))
  {
    MisorderedTree(select);
    var target, right := Point(9.0, 0.0), Node(Point(7.0, 0.0), Leaf, Leaf);
    assert Dist2(Point(5.0, 0.0), target) == 16.0 && Dist2(Point(7.0, 0.0), target) == 4.0 && Square(-4.0) == 16.0;
    FoundNear(t, target, SplitX, 16.0, -4.0, (Point(7.0, 0.0), Finite(4.0)));
  }

  /** Any two sorted trees of the same points give the same distance, whatever their
      shapes. */
  lemma SameDistance(s: seq<Point>, t: Tree, u: Tree, target: Point, dim: Dimension, dim': Dimension)
    requires Holds(t, s, 0, |s|) && Holds(u, s, 0, |s|) && Sorted(t, dim) && Sorted(u, dim')
    ensures Found(t, target, dim, Point(0.0, 0.0), Infinity).1 == Found(u, target, dim', Point(0.0, 0.0), Infinity).1
  {
    var a := Found(t, target, dim, Point(0.0, 0.0), Infinity);
    var b := Found(u, target, dim', Point(0.0, 0.0), Infinity);
    FoundImproves(t, target, dim, Point(0.0, 0.0), Infinity);
    FoundImproves(u, target, dim', Point(0.0, 0.0), Infinity);
    NearestUnique(p => Count(s, 0, |s|, p), target, a.0, a.1, b.0, b.1);
  }

  /** aktive_kdtree_find_nearest: the search from the root. Of the points of a sorted tree
      the one returned is nearest to the target, and the distance is the sum of the
      squares of its differences in x and y; only in an empty tree there is none. */
  method FindNearest(t: Tree, target: Point) returns (best: Point, distance: Distance)
    ensures Sorted(t, SplitX) ==> Nearest(p => Occurs(t, p), target, best, distance)
    ensures Sorted(t, SplitX) ==> (distance.Finite? <==> t.Node?)
    ensures Sorted(t, SplitX) && t.Node? ==>
              && Occurs(t, best) > 0
              && distance.d == (best.x - target.x) * (best.x - target.x) + (best.y - target.y) * (best.y - target.y)
              && forall p :: Occurs(t, p) > 0 ==>
                   distance.d <= (p.x - target.x) * (p.x - target.x) + (p.y - target.y) * (p.y - target.y)
  {
    best, distance := Search(t, target, SplitX, Point(0.0, 0.0), Infinity);
    if Sorted(t, SplitX) {
      FoundImproves(t, target, SplitX, Point(0.0, 0.0), Infinity);
      NearestMeans(t, target, best, distance);
    }
  }

  lemma NearestMeans(t: Tree, target: Point, best: Point, distance: Distance)
    requires Nearest(p => Occurs(t, p), target, best, distance)
    ensures distance.Finite? <==> t.Node?
    ensures t.Node? ==>
              && Occurs(t, best) > 0
              && distance.d == (best.x - target.x) * (best.x - target.x) + (best.y - target.y) * (best.y - target.y)
              && forall p :: Occurs(t, p) > 0 ==>
                   distance.d <= (p.x - target.x) * (p.x - target.x) + (p.y - target.y) * (p.y - target.y)
  {
    var occurs := (p: Point) => Occurs(t, p);
    if t.Node? {
      assert occurs(t.pivot) > 0;
      assert distance.Finite? && occurs(best) > 0 && distance.d == Dist2(best, target);
      SumOfSquares(best, target);
      forall p | Occurs(t, p) > 0
        ensures distance.d <= (p.x - target.x) * (p.x - target.x) + (p.y - target.y) * (p.y - target.y)
      {
        NoNearer(occurs, target, best, distance, p);
        SumOfSquares(p, target);
      }
    } else {
      assert occurs(best) == 0;
    }
  }

  lemma NoNearer(occurs: Point -> nat, target: Point, best: Point, d: Distance, p: Point)
    requires Nearest(occurs, target, best, d) && d.Finite? && occurs(p) > 0
    ensures d.d <= Dist2(p, target)
  {
  }

  lemma SumOfSquares(p: Point, target: Point)
    ensures Dist2(p, target) == (p.x - target.x) * (p.x - target.x) + (p.y - target.y) * (p.y - target.y)
  {
  }
}
