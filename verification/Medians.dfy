/** When quick select orders the keys around the median: a condition on the keys
    alone, for whatever arrangement they come in. */
module Medians {
  import opened QuickSelect
  import opened Stretches

  function SmallerKey(dim: Dimension, v: real): Point -> bool {
    p => Key(p, dim) < v
  }

  function SameKey(dim: Dimension, v: real): Point -> bool {
    p => Key(p, dim) == v
  }

  function LargerKey(dim: Dimension, v: real): Point -> bool {
    p => Key(p, dim) > v
  }

  /** The key occurs more than once, is not the largest, and so few are smaller that a
      larger one has room between the first place for it and the middle. */
  predicate Harmful(s: seq<Point>, dim: Dimension, start: nat, mid: nat, end: nat, v: real)
    requires start <= mid < end <= |s|
  {
    && Tally(s, start, end, SameKey(dim, v)) >= 2 && Tally(s, start, end, LargerKey(dim, v)) >= 1
    && Tally(s, start, end, SmallerKey(dim, v)) + 2 <= mid - start
  }

  predicate Harmless(s: seq<Point>, dim: Dimension, start: nat, mid: nat, end: nat)
    requires start <= mid < end <= |s|
  {
    forall i :: start <= i < end ==> !Harmful(s, dim, start, mid, end, Key(s[i], dim))
  }

  /** Harm is in the keys, not in their order. */
  lemma HarmfulPermuted(s: seq<Point>, t: seq<Point>, dim: Dimension, start: nat, mid: nat, end: nat, v: real)
    requires start <= mid < end <= |s| && PermutedWithin(s, t, start, end)
    ensures Harmful(s, dim, start, mid, end, v) <==> Harmful(t, dim, start, mid, end, v)
  {
    TallyPermuted(s, t, start, end, SameKey(dim, v));
    TallyPermuted(s, t, start, end, LargerKey(dim, v));
    TallyPermuted(s, t, start, end, SmallerKey(dim, v));
  }

  lemma HarmlessNone(s: seq<Point>, dim: Dimension, start: nat, mid: nat, end: nat, v: real)
    requires start <= mid < end <= |s| && Harmless(s, dim, start, mid, end)
    ensures !Harmful(s, dim, start, mid, end, v)
  {
    if Tally(s, start, end, SameKey(dim, v)) >= 2 {
      var i := TallyFinds(s, start, end, SameKey(dim, v));
      assert Key(s[i], dim) == v;
    }
  }

  lemma HarmlessPermuted(s: seq<Point>, t: seq<Point>, dim: Dimension, start: nat, mid: nat, end: nat)
    requires start <= mid < end <= |s| && PermutedWithin(s, t, start, end) && Harmless(s, dim, start, mid, end)
    ensures Harmless(t, dim, start, mid, end)
  {
    forall i | start <= i < end ensures !Harmful(t, dim, start, mid, end, Key(t[i], dim)) {
      HarmfulPermuted(s, t, dim, start, mid, end, Key(t[i], dim));
      HarmlessNone(s, dim, start, mid, end, Key(t[i], dim));
    }
  }

  /** In a split stretch the smaller keys are those before the split. */
  lemma SplitTally(s: seq<Point>, dim: Dimension, start: nat, store: nat, end: nat, v: real)
    requires start <= store <= end <= |s| && Split(s, dim, start, store, end, v)
    ensures Tally(s, start, end, SmallerKey(dim, v)) == store - start
  {
    TallySplit(s, start, store, end, SmallerKey(dim, v));
    TallyAll(s, start, store, SmallerKey(dim, v));
    TallyNone(s, store, end, SmallerKey(dim, v));
  }

  /** Harmless keys come out ordered. */
  lemma MedianOrders(s: seq<Point>, dim: Dimension, start: nat, end: nat, mid: nat)
    requires start <= mid < end <= |s| && Harmless(s, dim, start, mid, end)
    ensures Ordered(Selected(s, start, end, mid, dim).0, dim, start, mid, end)
  {
    var (now, store) := Selected(s, start, end, mid, dim);
    var v := Key(now[mid], dim);
    SelectedPermutes(s, start, end, mid, dim);
    SelectedOrders(s, dim, start, start, end, end, mid);
    if !Tight((now, store), mid, dim) {
      var k :| store < k < mid && Key(now[k], dim) > v;
      SplitTally(now, dim, start, store, end, v);
      TallyPair(now, start, end, SameKey(dim, v), store, mid);
      TallyHas(now, start, end, LargerKey(dim, v), k);
      HarmfulPermuted(s, now, dim, start, mid, end, v);
      HarmlessNone(s, dim, start, mid, end, v);
    }
  }

  // - - -- --- ----- -------- An arrangement that does harm

  /** The scan leaves alone what is split already. */
  lemma {:induction false} GatheredIdle(s: seq<Point>, start: nat, p: nat, store: nat, end: nat, dim: Dimension, v: real)
    requires start <= store <= end <= |s| && start <= p <= end && Split(s, dim, start, store, end, v)
    ensures Gathered(s, p, if p < store then p else store, end, dim, v) == (s, store)
    decreases end - p
  {
    if p < end {
      assert Swapped(s, p, p) == s;
      GatheredIdle(s, start, p + 1, store, end, dim, v);
    }
  }

  /** The smaller keys in front, the pivot where the first round looks for it and where
      that puts what it takes away from there, and a larger key in between. */
  ghost predicate Arranged(a: seq<Point>, dim: Dimension, start: nat, store: nat, mid: nat, end: nat, v: real) {
    && start <= store && store + 1 < mid < end <= |a| && Split(a, dim, start, store, end, v)
    && Key(a[mid], dim) == v && Key(a[end-1], dim) == v && Key(a[store + 1], dim) > v
    && (mid == end - 1 ==> Key(a[store], dim) == v)
  }

  /** The first round stops right away, with the larger key left of the middle. */
  lemma ArrangedHarms(a: seq<Point>, dim: Dimension, start: nat, store: nat, mid: nat, end: nat, v: real)
    requires Arranged(a, dim, start, store, mid, end, v)
    ensures !Ordered(Selected(a, start, end, mid, dim).0, dim, start, mid, end)
  {
    var first := Swapped(a, mid, end - 1);
    assert Split(first, dim, start, store, end, v);
    GatheredIdle(first, start, start, store, end, dim, v);
    var now := Swapped(first, store, end - 1);
    assert Partitioned(a, start, end, mid, dim) == (now, store);
    assert Key(now[store], dim) == v && Key(now[mid], dim) == v && Key(now[store + 1], dim) > v;
    PartitionedFacts(a, start, end, mid, dim);
    assert Selected(a, start, end, mid, dim) == (now, store);
  }

  /** Swapping entries that are not before the split. */
  lemma SwapBehind(a: seq<Point>, dim: Dimension, start: nat, store: nat, end: nat, v: real, i: nat, j: nat)
    requires start <= store <= end <= |a| && Split(a, dim, start, store, end, v) && store <= i < end && store <= j < end
    ensures Split(Swapped(a, i, j), dim, start, store, end, v) && PermutedWithin(a, Swapped(a, i, j), start, end)
  {
    SwappedPermutes(a, start, end, i, j);
  }

  /** Harmful keys can be arranged so that they do harm. */
  lemma Misarranged(s: seq<Point>, dim: Dimension, start: nat, mid: nat, end: nat, v: real) returns (a: seq<Point>)
    requires start <= mid < end <= |s| && Harmful(s, dim, start, mid, end, v)
    ensures PermutedWithin(s, a, start, end) && !Ordered(Selected(a, start, end, mid, dim).0, dim, start, mid, end)
  {
    var g, store := SmallerFirst(s, dim, start, mid, end, v);
    var b, c := PivotsPlaced(g, dim, start, store, mid, end, v);
    var l := TallyFinds(b, start, end, LargerKey(dim, v));
    a := Swapped(b, l, store + 1);
    SwapBehind(b, dim, start, store, end, v, l, store + 1);
    PermutedTwice(s, g, b, start, end);
    PermutedTwice(s, b, a, start, end);
    ArrangedHarms(a, dim, start, store, mid, end, v);
  }

  lemma SmallerFirst(s: seq<Point>, dim: Dimension, start: nat, mid: nat, end: nat, v: real) returns (g: seq<Point>, store: nat)
    requires start <= mid < end <= |s| && Harmful(s, dim, start, mid, end, v)
    ensures PermutedWithin(s, g, start, end) && start <= store && store + 2 <= mid && Split(g, dim, start, store, end, v)
    ensures Key(g[end-1], dim) == v && Harmful(g, dim, start, mid, end, v)
  {
    var i := TallyFinds(s, start, end, SameKey(dim, v));
    var first := Swapped(s, i, end - 1);
    SwappedPermutes(s, start, end, i, end - 1);
    var r := Gathered(first, start, start, end, dim, v);
    GatheredFacts(first, start, start, start, end, dim, v);
    g, store := r.0, r.1;
    PermutedTwice(s, first, g, start, end);
    HarmfulPermuted(s, g, dim, start, mid, end, v);
    SplitTally(g, dim, start, store, end, v);
  }

  /** Another entry with the key goes to the middle, or, when that is the last place,
      to the front of the larger ones. */
  lemma PivotsPlaced(g: seq<Point>, dim: Dimension, start: nat, store: nat, mid: nat, end: nat, v: real) returns (b: seq<Point>, c: nat)
    requires start <= store && store + 2 <= mid < end <= |g| && Split(g, dim, start, store, end, v)
    requires Key(g[end-1], dim) == v && Harmful(g, dim, start, mid, end, v)
    ensures c == (if mid == end - 1 then store else mid)
    ensures PermutedWithin(g, b, start, end) && Split(b, dim, start, store, end, v) && Harmful(b, dim, start, mid, end, v)
    ensures Key(b[end-1], dim) == v && Key(b[c], dim) == v
  {
    var j, k := TallyTwo(g, start, end, SameKey(dim, v));
    c := if mid == end - 1 then store else mid;
    b := Swapped(g, j, c);
    SwapBehind(g, dim, start, store, end, v, j, c);
    HarmfulPermuted(g, b, dim, start, mid, end, v);
  }

  // - - -- --- ----- -------- The exact condition

  /** Every arrangement of the keys comes out ordered around the middle if and only if
      they are harmless. */
  lemma HarmlessExact(s: seq<Point>, dim: Dimension, start: nat, mid: nat, end: nat)
    requires start <= mid < end <= |s|
    ensures Harmless(s, dim, start, mid, end) <==>
            forall a :: PermutedWithin(s, a, start, end) ==> Ordered(Selected(a, start, end, mid, dim).0, dim, start, mid, end)
  {
    if Harmless(s, dim, start, mid, end) {
      forall a | PermutedWithin(s, a, start, end)
        ensures Ordered(Selected(a, start, end, mid, dim).0, dim, start, mid, end)
      {
        HarmlessPermuted(s, a, dim, start, mid, end);
        MedianOrders(a, dim, start, end, mid);
      }
    } else {
      var i :| start <= i < end && Harmful(s, dim, start, mid, end, Key(s[i], dim));
      var a := Misarranged(s, dim, start, mid, end, Key(s[i], dim));
    }
  }

  // - - -- --- ----- -------- Keys that do no harm in any stretch

  /** The key occurs once, or is the largest, or there are too few others like it and
      larger ones for it to do harm even where nothing is smaller. */
  predicate Tame(s: seq<Point>, dim: Dimension, start: nat, end: nat, v: real)
    requires end <= |s|
  {
    || Tally(s, start, end, SameKey(dim, v)) < 2 || Tally(s, start, end, LargerKey(dim, v)) == 0
    || Tally(s, start, end, SameKey(dim, v)) + Tally(s, start, end, LargerKey(dim, v)) <= 3
  }

  predicate Docile(s: seq<Point>, dim: Dimension, start: nat, end: nat)
    requires end <= |s|
  {
    forall i :: start <= i < end ==> Tame(s, dim, start, end, Key(s[i], dim))
  }

  lemma TameEverywhere(s: seq<Point>, dim: Dimension, start: nat, end: nat, v: real)
    requires end <= |s| && Docile(s, dim, start, end)
    ensures Tame(s, dim, start, end, v)
  {
    if Tally(s, start, end, SameKey(dim, v)) >= 2 {
      var i := TallyFinds(s, start, end, SameKey(dim, v));
      assert Key(s[i], dim) == v;
    }
  }

  /** Neither permuting nor leaving out makes docile keys less so. */
  lemma DocilePart(s: seq<Point>, t: seq<Point>, dim: Dimension, start: nat, b: nat, e: nat, end: nat)
    requires PermutedWithin(s, t, start, end) && start <= b <= e <= end && Docile(s, dim, start, end)
    ensures Docile(t, dim, b, e)
  {
    forall i | b <= i < e ensures Tame(t, dim, b, e, Key(t[i], dim)) {
      var v := Key(t[i], dim);
      TameEverywhere(s, dim, start, end, v);
      TallyPermuted(s, t, start, end, SameKey(dim, v));
      TallyPermuted(s, t, start, end, LargerKey(dim, v));
      TallyPart(t, start, b, e, end, SameKey(dim, v));
      TallyPart(t, start, b, e, end, LargerKey(dim, v));
    }
  }

  lemma {:induction false} ThreeKinds(s: seq<Point>, dim: Dimension, start: nat, end: nat, v: real)
    requires start <= end <= |s|
    ensures Tally(s, start, end, SmallerKey(dim, v)) + Tally(s, start, end, SameKey(dim, v)) + Tally(s, start, end, LargerKey(dim, v))
            == end - start
    decreases end
  {
    if start < end { ThreeKinds(s, dim, start, end - 1, v); }
  }

  lemma DocileHarmless(s: seq<Point>, dim: Dimension, start: nat, end: nat)
    requires start < end <= |s| && Docile(s, dim, start, end)
    ensures Harmless(s, dim, start, start + (end - start) / 2, end)
  {
    forall i | start <= i < end ensures !Harmful(s, dim, start, start + (end - start) / 2, end, Key(s[i], dim)) {
      ThreeKinds(s, dim, start, end, Key(s[i], dim));
    }
  }

  lemma DocileOrders(s: seq<Point>, dim: Dimension, start: nat, len: nat)
    requires start < start + len <= |s| && Docile(s, dim, start, start + len)
    ensures Ordered(Selected(s, start, start + len, start + len / 2, dim).0, dim, start, start + len / 2, start + len)
  {
    DocileHarmless(s, dim, start, start + len);
    MedianOrders(s, dim, start, start + len, start + len / 2);
  }

  predicate HarmlessMiddle(a: seq<Point>, dim: Dimension, b: nat, e: nat) {
    b < e <= |a| && Harmless(a, dim, b, b + (e - b) / 2, e)
  }

  /** Every stretch of every arrangement is harmless around its middle if and only if
      the keys are docile. */
  lemma DocileExact(s: seq<Point>, dim: Dimension, start: nat, end: nat)
    requires start <= end <= |s|
    ensures Docile(s, dim, start, end) <==>
            forall a, b: nat, e: nat :: PermutedWithin(s, a, start, end) && start <= b < e <= end ==> HarmlessMiddle(a, dim, b, e)
  {
    if Docile(s, dim, start, end) {
      forall a, b: nat, e: nat | PermutedWithin(s, a, start, end) && start <= b < e <= end
        ensures HarmlessMiddle(a, dim, b, e)
      {
        DocilePart(s, a, dim, start, b, e, end);
        DocileHarmless(a, dim, b, e);
      }
    } else {
      var i :| start <= i < end && !Tame(s, dim, start, end, Key(s[i], dim));
      var a, b := WildStretch(s, dim, start, end, Key(s[i], dim));
      assert !HarmlessMiddle(a, dim, b, end);
    }
  }

  /** Of a key that is not tame the smaller keys can be put in front; what is left is
      a stretch in which it does harm. */
  lemma WildStretch(s: seq<Point>, dim: Dimension, start: nat, end: nat, v: real) returns (a: seq<Point>, b: nat)
    requires start <= end <= |s| && !Tame(s, dim, start, end, v)
    ensures PermutedWithin(s, a, start, end) && start <= b < end && !Harmless(a, dim, b, b + (end - b) / 2, end)
  {
    var i := TallyFinds(s, start, end, SameKey(dim, v));
    var first := Swapped(s, i, end - 1);
    SwappedPermutes(s, start, end, i, end - 1);
    var r := Gathered(first, start, start, end, dim, v);
    GatheredFacts(first, start, start, start, end, dim, v);
    a, b := r.0, r.1;
    PermutedTwice(s, first, a, start, end);
    WildBehind(s, a, dim, start, b, end, v);
    assert Key(a[end-1], dim) == v;
  }

  lemma WildBehind(s: seq<Point>, a: seq<Point>, dim: Dimension, start: nat, b: nat, end: nat, v: real)
    requires PermutedWithin(s, a, start, end) && start <= b < end && Split(a, dim, start, b, end, v) && !Tame(s, dim, start, end, v)
    ensures Harmful(a, dim, b, b + (end - b) / 2, end, v)
  {
    TallyPermuted(s, a, start, end, SameKey(dim, v));
    TallyPermuted(s, a, start, end, LargerKey(dim, v));
    TallySplit(a, start, b, end, SameKey(dim, v));
    TallySplit(a, start, b, end, LargerKey(dim, v));
    TallyNone(a, start, b, SameKey(dim, v));
    TallyNone(a, start, b, LargerKey(dim, v));
    TallyNone(a, b, end, SmallerKey(dim, v));
    ThreeKinds(a, dim, b, end, v);
  }
}
