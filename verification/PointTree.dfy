/** Building a KD-tree: every node is a median of its points. */
module PointTree {
  import opened QuickSelect
  import opened Medians
  import opened Stretches

  datatype Tree = Leaf | Node(pivot: Point, left: Tree, right: Tree)

  /** How often the point is in the tree. */
  function Occurs(t: Tree, p: Point): nat {
    match t case Leaf => 0 case Node(q, l, r) => Occurs(l, p) + (if p == q then 1 else 0) + Occurs(r, p)
  }

  function Size(t: Tree): nat {
    match t case Leaf => 0 case Node(_, l, r) => Size(l) + 1 + Size(r)
  }

  /** Every node is a median of its points: the left branch has half of them. */
  ghost predicate Balanced(t: Tree) {
    match t
    case Leaf => true
    case Node(_, l, r) => Size(l) == Size(t) / 2 && Balanced(l) && Balanced(r)
  }

  /** The dimensions alternate, the left branch holds no larger and the right branch
      no smaller keys than the pivot. */
  ghost predicate Sorted(t: Tree, dim: Dimension) {
    match t
    case Leaf => true
    case Node(p, l, r) =>
      && (forall q :: Occurs(l, q) > 0 ==> Key(q, dim) <= Key(p, dim))
      && (forall q :: Occurs(r, q) > 0 ==> Key(p, dim) <= Key(q, dim))
      && Sorted(l, Flip(dim)) && Sorted(r, Flip(dim))
  }

  /** At the root the tree is split by x, one level below by y, then by x again. */
  lemma SortedAxes(t: Tree)
    requires t.Node? && Sorted(t, SplitX)
    ensures forall q :: Occurs(t.left, q) > 0 ==> q.x <= t.pivot.x
    ensures forall q :: Occurs(t.right, q) > 0 ==> t.pivot.x <= q.x
    ensures t.left.Node? ==> (forall q :: Occurs(t.left.left, q) > 0 ==> q.y <= t.left.pivot.y)
                             && (forall q :: Occurs(t.left.right, q) > 0 ==> t.left.pivot.y <= q.y)
                             && Sorted(t.left.left, SplitX) && Sorted(t.left.right, SplitX)
    ensures t.right.Node? ==> (forall q :: Occurs(t.right.left, q) > 0 ==> q.y <= t.right.pivot.y)
                              && (forall q :: Occurs(t.right.right, q) > 0 ==> t.right.pivot.y <= q.y)
                              && Sorted(t.right.left, SplitX) && Sorted(t.right.right, SplitX)
  {
    assert Sorted(t.left, SplitY) && Sorted(t.right, SplitY);
    assert forall q: Point :: Key(q, SplitX) == q.x && Key(q, SplitY) == q.y;
  }

  /** The tree holds the entries start..end, each as often as it is there. */
  ghost predicate Holds(t: Tree, s: seq<Point>, start: nat, end: nat)
    requires end <= |s|
  {
    forall p :: Occurs(t, p) == Count(s, start, end, p)
  }

  /** No two of the entries start..end have the same key. */
  ghost predicate Distinct(s: seq<Point>, dim: Dimension, start: nat, end: nat)
    requires end <= |s|
  {
    forall i, j :: start <= i < j < end ==> Key(s[i], dim) != Key(s[j], dim)
  }

  ghost predicate AllDocile(s: seq<Point>, start: nat, end: nat)
    requires end <= |s|
  {
    Docile(s, SplitX, start, end) && Docile(s, SplitY, start, end)
  }

  /** Distinct keys are docile, and so are those of three points. */
  lemma DistinctDocile(s: seq<Point>, dim: Dimension, start: nat, end: nat)
    requires start <= end <= |s| && (Distinct(s, dim, start, end) || end - start <= 3)
    ensures Docile(s, dim, start, end)
  {
    forall i | start <= i < end ensures Tame(s, dim, start, end, Key(s[i], dim)) {
      ThreeKinds(s, dim, start, end, Key(s[i], dim));
      if Tally(s, start, end, SameKey(dim, Key(s[i], dim))) >= 2 {
        var j, k := TallyTwo(s, start, end, SameKey(dim, Key(s[i], dim)));
      }
    }
  }

  /** The tree holds exactly the entries start..start+len, balanced, and the array has
      them permuted. When both coordinates are docile, the tree is sorted. */
  ghost predicate Indexes(t: Tree, was: seq<Point>, now: seq<Point>, start: nat, len: nat, dim: Dimension) {
    && PermutedWithin(was, now, start, start + len)
    && Holds(t, was, start, start + len) && Size(t) == len && Balanced(t)
    && (AllDocile(was, start, start + len) ==> Sorted(t, dim))
  }

  // - - -- --- ----- -------- Building it

  /** What building a tree results in: the tree, and the entries afterwards. */
  datatype Build = Build(tree: Tree, entries: seq<Point>)

  /** A way to bring a median of the entries start..start+len to their middle. */
  type Selection = (seq<Point>, nat, nat, Dimension) -> seq<Point>

  ghost predicate KeepsSize(select: Selection) {
    forall s: seq<Point>, start: nat, len: nat, dim: Dimension :: |select(s, start, len, dim)| == |s|
  }

  /** make_node as a function, for any selection. */
  ghost function Made(select: Selection, s: seq<Point>, start: nat, len: nat, dim: Dimension): (r: Build)
    requires KeepsSize(select) && start + len <= |s|
    ensures |r.entries| == |s|
    decreases len
  {
    if len == 0 then Build(Leaf, s)
    else if len == 1 then Build(Node(s[start], Leaf, Leaf), s)
    else
      var now := select(s, start, len, dim);
      var left := Made(select, now, start, len / 2, Flip(dim));
      var right := Made(select, left.entries, start + len / 2 + 1, len - len / 2 - 1, Flip(dim));
      Build(Node(now[start + len / 2], left.tree, right.tree), right.entries)
  }

  lemma MadeOf(select: Selection, s: seq<Point>, start: nat, len: nat, dim: Dimension, left: Build, right: Build)
    requires KeepsSize(select) && start + len <= |s| && len > 1
    requires left == Made(select, select(s, start, len, dim), start, len / 2, Flip(dim))
    requires right == Made(select, left.entries, start + len / 2 + 1, len - len / 2 - 1, Flip(dim))
    ensures Made(select, s, start, len, dim) == Build(Node(select(s, start, len, dim)[start + len / 2], left.tree, right.tree), right.entries)
  {
  }

  /** The two branches that are built, one after the other. */
  lemma MadeParts(select: Selection, s: seq<Point>, start: nat, len: nat, dim: Dimension) returns (now: seq<Point>, left: Build, right: Build)
    requires KeepsSize(select) && start + len <= |s| && len > 1
    ensures now == select(s, start, len, dim) && |now| == |left.entries| == |right.entries| == |s|
    ensures left == Made(select, now, start, len / 2, Flip(dim))
    ensures right == Made(select, left.entries, start + len / 2 + 1, len - len / 2 - 1, Flip(dim))
    ensures Made(select, s, start, len, dim) == Build(Node(now[start + len / 2], left.tree, right.tree), right.entries)
  {
    now := select(s, start, len, dim);
    left := Made(select, now, start, len / 2, Flip(dim));
    right := Made(select, left.entries, start + len / 2 + 1, len - len / 2 - 1, Flip(dim));
  }

  ghost predicate Wanted(s: seq<Point>, start: nat, len: nat, dim: Dimension) {
    1 < len && start + len <= |s|
  }

  /** The selection is quick select. */
  ghost predicate Quick(select: Selection) {
    && KeepsSize(select)
    && forall s: seq<Point>, start: nat, len: nat, dim: Dimension {:trigger Wanted(s, start, len, dim)} :: Wanted(s, start, len, dim) ==>
         select(s, start, len, dim) == Selected(s, start, start + len, start + len / 2, dim).0
  }

  function QuickSelected(s: seq<Point>, start: nat, len: nat, dim: Dimension): (now: seq<Point>)
    ensures |now| == |s|
  {
    if 1 < len && start + len <= |s| then Selected(s, start, start + len, start + len / 2, dim).0 else s
  }

  function QuickSelection(): (select: Selection)
    ensures Quick(select)
  {
    (s: seq<Point>, start: nat, len: nat, dim: Dimension) => QuickSelected(s, start, len, dim)
  }

  /** The median for make_node, of two entries or more. */
  method Median(a: array<Point>, start: nat, len: nat, dim: Dimension, ghost select: Selection) returns (mid: nat)
    requires start + len <= a.Length && len >= 2 && Quick(select)
    modifies a
    ensures mid == start + len / 2 && a[..] == select(old(a[..]), start, len, dim)
  {
    assert Wanted(a[..], start, len, dim);
    var median := QuickSelectMedian(a, start, start + len, dim);
    mid := median.value;
  }

  ghost predicate Asked(len: nat) { true }

  /** This is what make_node makes, for whoever asks. */
  ghost predicate IsMade(select: Selection, s: seq<Point>, start: nat, len: nat, dim: Dimension, r: Build) {
    && KeepsSize(select) && start + len <= |s| && |r.entries| == |s|
    && forall n {:trigger Asked(n)} :: n == len && Asked(n) ==> r == Made(select, s, start, n, dim)
  }

  lemma WholeMade(select: Selection, s: seq<Point>, start: nat, len: nat, dim: Dimension, left: Build, right: Build)
    requires KeepsSize(select) && start + len <= |s| && len > 1
    requires IsMade(select, select(s, start, len, dim), start, len / 2, Flip(dim), left)
    requires IsMade(select, left.entries, start + len / 2 + 1, len - len / 2 - 1, Flip(dim), right)
    ensures IsMade(select, s, start, len, dim, Build(Node(select(s, start, len, dim)[start + len / 2], left.tree, right.tree), right.entries))
  {
    assert Asked(len / 2) && Asked(len - len / 2 - 1);
    MadeOf(select, s, start, len, dim, left, right);
  }

  /** make_node. */
  method MakeNode(a: array<Point>, start: nat, len: nat, dim: Dimension, ghost select: Selection) returns (t: Tree)
    requires start + len <= a.Length && Quick(select)
    modifies a
    ensures IsMade(select, old(a[..]), start, len, dim, Build(t, a[..]))
    decreases len
  {
    if len <= 1 { MadeSmall(select, a[..], start, len, dim); }
    if len == 0 { return Leaf; }
    if len == 1 { return Node(a[start], Leaf, Leaf); }
    ghost var was := a[..];
    var mid := Median(a, start, len, dim, select);
    var pivot := a[mid];
    var left := MakeNode(a, start, len / 2, Flip(dim), select);
    ghost var between := a[..];
    var right := MakeNode(a, mid + 1, len - len / 2 - 1, Flip(dim), select);
    t := Node(pivot, left, right);
    WholeMade(select, was, start, len, dim, Build(left, between), Build(right, a[..]));
  }

  // - - -- --- ----- -------- What is built

  lemma PartsMade(select: Selection, s: seq<Point>, start: nat, len: nat, dim: Dimension, r: Build) returns (left: Build, right: Build)
    requires IsMade(select, s, start, len, dim, r) && len > 1
    ensures IsMade(select, select(s, start, len, dim), start, len / 2, Flip(dim), left)
    ensures IsMade(select, left.entries, start + len / 2 + 1, len - len / 2 - 1, Flip(dim), right)
    ensures r == Build(Node(select(s, start, len, dim)[start + len / 2], left.tree, right.tree), right.entries)
  {
    assert Asked(len);
    var now;
    now, left, right := MadeParts(select, s, start, len, dim);
  }

  /** What make_node makes, of any points, indexes them. */
  lemma {:induction false} MadeIndexes(select: Selection, s: seq<Point>, start: nat, len: nat, dim: Dimension, r: Build)
    requires Quick(select) && IsMade(select, s, start, len, dim, r)
    ensures Indexes(r.tree, s, r.entries, start, len, dim)
    decreases len
  {
    if len > 1 {
      var left, right := PartsMade(select, s, start, len, dim, r);
      MadeIndexes(select, select(s, start, len, dim), start, len / 2, Flip(dim), left);
      MadeIndexes(select, left.entries, start + len / 2 + 1, len - len / 2 - 1, Flip(dim), right);
      BranchesIndex(select, s, start, len, dim, left, right);
    } else {
      assert Asked(len);
      MadeSmall(select, s, start, len, dim);
      if len == 1 { SingleIndexes(s, start, dim); }
    }
  }

  lemma BranchesIndex(select: Selection, s: seq<Point>, start: nat, len: nat, dim: Dimension, left: Build, right: Build)
    requires Quick(select) && 1 < len && start + len <= |s|
    requires Indexes(left.tree, select(s, start, len, dim), left.entries, start, len / 2, Flip(dim))
    requires Indexes(right.tree, left.entries, right.entries, start + len / 2 + 1, len - len / 2 - 1, Flip(dim))
    ensures Indexes(Node(select(s, start, len, dim)[start + len / 2], left.tree, right.tree), s, right.entries, start, len, dim)
  {
    QuickFacts(select, s, start, len, dim);
    NodeIndexes(s, select(s, start, len, dim), left.entries, right.entries, start, len, left.tree, right.tree, dim);
  }

  lemma MadeSmall(select: Selection, s: seq<Point>, start: nat, len: nat, dim: Dimension)
    requires KeepsSize(select) && start + len <= |s| && len <= 1
    ensures IsMade(select, s, start, len, dim, if len == 0 then Build(Leaf, s) else Build(Node(s[start], Leaf, Leaf), s))
    ensures Made(select, s, start, len, dim) == if len == 0 then Build(Leaf, s) else Build(Node(s[start], Leaf, Leaf), s)
  {
  }

  lemma SingleIndexes(s: seq<Point>, start: nat, dim: Dimension)
    requires start < |s|
    ensures Indexes(Node(s[start], Leaf, Leaf), s, s, start, 1, dim)
  {
    SingleHolds(s, start);
    var t := Node(s[start], Leaf, Leaf);
    assert Size(t) == 1 && Balanced(t) && Sorted(t, dim);
  }

  lemma QuickFacts(select: Selection, s: seq<Point>, start: nat, len: nat, dim: Dimension)
    requires Quick(select) && 1 < len && start + len <= |s|
    ensures PermutedWithin(s, select(s, start, len, dim), start, start + len)
    ensures Docile(s, dim, start, start + len) ==> Ordered(select(s, start, len, dim), dim, start, start + len / 2, start + len)
  {
    assert Wanted(s, start, len, dim);
    SelectedPermutes(s, start, start + len, start + len / 2, dim);
    if Docile(s, dim, start, start + len) { DocileOrders(s, dim, start, len); }
  }

  lemma NodeIndexes(was: seq<Point>, now: seq<Point>, between: seq<Point>, last: seq<Point>,
                    start: nat, len: nat, left: Tree, right: Tree, dim: Dimension)
    requires 1 < len && PermutedWithin(was, now, start, start + len)
    requires Docile(was, dim, start, start + len) ==> Ordered(now, dim, start, start + len / 2, start + len)
    requires Indexes(left, now, between, start, len / 2, Flip(dim))
    requires Indexes(right, between, last, start + len / 2 + 1, len - len / 2 - 1, Flip(dim))
    ensures Indexes(Node(now[start + len / 2], left, right), was, last, start, len, dim)
  {
    var mid, end := start + len / 2, start + len;
    assert mid + 1 + (len - len / 2 - 1) == end;
    NodePermuted(was, now, between, last, start, mid, end);
    NodeHolds(was, now, between, start, mid, end, left, right);
    NodeBalanced(now[mid], left, right, len);
    if AllDocile(was, start, end) { DocileSorted(was, now, between, start, mid, end, left, right, dim); }
  }

  lemma NodeBalanced(pivot: Point, left: Tree, right: Tree, len: nat)
    requires 1 < len && Size(left) == len / 2 && Size(right) == len - len / 2 - 1 && Balanced(left) && Balanced(right)
    ensures Size(Node(pivot, left, right)) == len && Balanced(Node(pivot, left, right))
  {
  }

  lemma DocileSorted(was: seq<Point>, now: seq<Point>, between: seq<Point>, start: nat, mid: nat, end: nat, left: Tree, right: Tree, dim: Dimension)
    requires start <= mid < end && PermutedWithin(was, now, start, end) && PermutedWithin(now, between, start, mid)
    requires Holds(left, now, start, mid) && Holds(right, between, mid + 1, end)
    requires AllDocile(was, start, end) && Ordered(now, dim, start, mid, end)
    requires AllDocile(now, start, mid) ==> Sorted(left, Flip(dim))
    requires AllDocile(between, mid + 1, end) ==> Sorted(right, Flip(dim))
    ensures Sorted(Node(now[mid], left, right), dim)
  {
    NodeDocile(was, now, between, start, mid, end);
    NodeSorted(was, now, between, start, mid, end, left, right, dim);
  }

  lemma NodeDocile(was: seq<Point>, now: seq<Point>, between: seq<Point>, start: nat, mid: nat, end: nat)
    requires start <= mid < end && PermutedWithin(was, now, start, end) && PermutedWithin(now, between, start, mid)
    requires AllDocile(was, start, end)
    ensures AllDocile(now, start, mid) && AllDocile(between, mid + 1, end)
  {
    PermutedPart(now, between, start, start, mid, end);
    PermutedTwice(was, now, between, start, end);
    DocilePart(was, now, SplitX, start, start, mid, end);
    DocilePart(was, now, SplitY, start, start, mid, end);
    DocilePart(was, between, SplitX, start, mid + 1, end, end);
    DocilePart(was, between, SplitY, start, mid + 1, end, end);
  }

  lemma SingleHolds(s: seq<Point>, start: nat)
    requires start < |s|
    ensures Holds(Node(s[start], Leaf, Leaf), s, start, start + 1)
  {
    forall p ensures Occurs(Node(s[start], Leaf, Leaf), p) == Count(s, start, start + 1, p) {
      assert Count(s, start, start, p) == 0;
    }
  }

  lemma NodePermuted(was: seq<Point>, now: seq<Point>, between: seq<Point>, last: seq<Point>, start: nat, mid: nat, end: nat)
    requires start <= mid < end && PermutedWithin(was, now, start, end)
    requires PermutedWithin(now, between, start, mid) && PermutedWithin(between, last, mid + 1, end)
    ensures PermutedWithin(was, last, start, end)
  {
    PermutedPart(now, between, start, start, mid, end);
    PermutedPart(between, last, start, mid + 1, end, end);
    PermutedTwice(was, now, between, start, end);
    PermutedTwice(was, between, last, start, end);
  }

  lemma NodeHolds(was: seq<Point>, now: seq<Point>, between: seq<Point>, start: nat, mid: nat, end: nat, left: Tree, right: Tree)
    requires start <= mid < end && PermutedWithin(was, now, start, end) && PermutedWithin(now, between, start, mid)
    requires Holds(left, now, start, mid) && Holds(right, between, mid + 1, end)
    ensures Holds(Node(now[mid], left, right), was, start, end) && Holds(right, now, mid + 1, end)
  {
    forall p
      ensures Occurs(Node(now[mid], left, right), p) == Count(was, start, end, p)
      ensures Occurs(right, p) == Count(now, mid + 1, end, p)
    {
      CountSame(now, between, mid + 1, end, p);
      CountSplit(now, start, mid + 1, end, p);
      assert Count(now, start, end, p) == Count(was, start, end, p);
    }
  }

  lemma NodeSorted(was: seq<Point>, now: seq<Point>, between: seq<Point>, start: nat, mid: nat, end: nat, left: Tree, right: Tree, dim: Dimension)
    requires start <= mid < end && PermutedWithin(was, now, start, end) && PermutedWithin(now, between, start, mid)
    requires Holds(left, now, start, mid) && Holds(right, between, mid + 1, end)
    requires Ordered(now, dim, start, mid, end) && Sorted(left, Flip(dim)) && Sorted(right, Flip(dim))
    ensures Sorted(Node(now[mid], left, right), dim)
  {
    NodeHolds(was, now, between, start, mid, end, left, right);
    forall q | Occurs(left, q) > 0 ensures Key(q, dim) <= Key(now[mid], dim) {
      var k := CountFinds(now, start, mid, q);
    }
    forall q | Occurs(right, q) > 0 ensures Key(now[mid], dim) <= Key(q, dim) {
      var k := CountFinds(now, mid + 1, end, q);
    }
  }

  /** The tree of the points of which the selection misorders the first coordinates:
      (9, 0) is in the left branch below (5, 0). */
  lemma MisorderedTree(select: Selection)
    requires Quick(select)
    ensures Made(select, [Point(7.0, 0.0), Point(9.0, 0.0), Point(5.0, -1.0), Point(5.0, 0.0)], 0, 4, SplitX).tree ==
            Node(Point(5.0, 0.0), Node(Point(9.0, 0.0), Node(Point(5.0, -1.0), Leaf, Leaf), Leaf),
                 Node(Point(7.0, 0.0), Leaf, Leaf))
  {
    var a := [Point(7.0, 0.0), Point(9.0, 0.0), Point(5.0, -1.0), Point(5.0, 0.0)];
    var now := [a[2], a[1], a[3], a[0]];
    DuplicatesMisorder(a, k => if 0 <= k < 4 then a[k].y else 0.0);
    assert Wanted(a, 0, 4, SplitX) && select(a, 0, 4, SplitX) == now;
    PairInOrder(now);
    assert Wanted(now, 0, 2, SplitY) && select(now, 0, 2, SplitY) == now;
    MadeTwo(select, now);
    MadeOf(select, a, 0, 4, SplitX, Build(Node(a[1], Node(a[2], Leaf, Leaf), Leaf), now), Build(Node(a[0], Leaf, Leaf), now));
  }

  lemma PairInOrder(s: seq<Point>)
    requires |s| == 4 && s[0].y < s[1].y
    ensures Selected(s, 0, 2, 1, SplitY).0 == s
  {
    GatheredIdle(s, 0, 0, 1, 2, SplitY, s[1].y);
    assert Swapped(s, 1, 1) == s;
    assert Partitioned(s, 0, 2, 1, SplitY) == (s, 1);
    PartitionedFacts(s, 0, 2, 1, SplitY);
  }

  lemma MadeTwo(select: Selection, s: seq<Point>)
    requires KeepsSize(select) && |s| == 4 && select(s, 0, 2, SplitY) == s
    ensures Made(select, s, 0, 2, SplitY) == Build(Node(s[1], Node(s[0], Leaf, Leaf), Leaf), s)
  {
    MadeOf(select, s, 0, 2, SplitY, Build(Node(s[0], Leaf, Leaf), s), Build(Leaf, s));
  }
}
