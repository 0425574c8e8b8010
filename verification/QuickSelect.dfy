/** Quick select: points are partitioned around their median in place. */
module QuickSelect {
  import opened Totals
  import opened Stretches

  datatype Point = Point(x: real, y: real)

  /** The dimension a node is split on; it alternates from level to level. */
  datatype Dimension = SplitX | SplitY

  function Flip(dim: Dimension): Dimension {
    if dim == SplitX then SplitY else SplitX
  }

  function Key(p: Point, dim: Dimension): real {
    if dim == SplitX then p.x else p.y
  }

  method Swap(a: array<Point>, i: nat, j: nat)
    requires i < a.Length && j < a.Length
    modifies a
    ensures a[..] == Swapped(old(a[..]), i, j)
  {
    var tmp := a[i];
    a[i] := a[j];
    a[j] := tmp;
  }

  // - - -- --- ----- -------- Quick select

  /** Keys below the pivot come before index `store`, the others from there on. */
  ghost predicate Split(s: seq<Point>, dim: Dimension, start: nat, store: nat, end: nat, pivot: real)
    requires start <= store <= end <= |s|
  {
    && (forall k :: start <= k < store ==> Key(s[k], dim) < pivot)
    && (forall k :: store <= k < end ==> Key(s[k], dim) >= pivot)
  }

  /** The scan of the loop body, as a function: entries before `store` are below the
      pivot, those before `p` were looked at. */
  function Gathered(s: seq<Point>, p: nat, store: nat, end: nat, dim: Dimension, pivot: real): (r: (seq<Point>, nat))
    requires store <= p <= end <= |s|
    ensures |r.0| == |s| && store <= r.1 <= end
    decreases end - p
  {
    if p == end then (s, store)
    else if Key(s[p], dim) < pivot then Gathered(Swapped(s, p, store), p + 1, store + 1, end, dim, pivot)
    else Gathered(s, p + 1, store, end, dim, pivot)
  }

  /** The loop body as a function. */
  function Partitioned(s: seq<Point>, start: nat, end: nat, mid: nat, dim: Dimension): (seq<Point>, nat)
    requires start <= mid < end <= |s|
  {
    var (gathered, store) := Gathered(Swapped(s, mid, end - 1), start, start, end, dim, Key(s[mid], dim));
    if store == end then (gathered, store) else (Swapped(gathered, store, end - 1), store)
  }

  lemma GatherSwap(s: seq<Point>, start: nat, p: nat, store: nat, end: nat, dim: Dimension, pivot: real)
    requires start <= store <= p < end <= |s| && Key(s[end-1], dim) == pivot
    requires Split(s, dim, start, store, p, pivot) && Key(s[p], dim) < pivot
    ensures Split(Swapped(s, p, store), dim, start, store + 1, p + 1, pivot)
    ensures PermutedWithin(s, Swapped(s, p, store), start, end) && Swapped(s, p, store)[end-1] == s[end-1]
    ensures store + 1 < end
  {
    SwappedPermutes(s, start, end, p, store);
    var next := Swapped(s, p, store);
    assert Split(next, dim, start, store + 1, p + 1, pivot);
  }

  /** What the scan does: it permutes the stretch and leaves it split. */
  ghost predicate Scanned(s: seq<Point>, start: nat, end: nat, dim: Dimension, pivot: real, r: (seq<Point>, nat)) {
    && start < end && PermutedWithin(s, r.0, start, end) && r.0[end-1] == s[end-1]
    && start <= r.1 < end && Split(r.0, dim, start, r.1, end, pivot)
  }

  lemma {:induction false} GatheredFacts(s: seq<Point>, start: nat, p: nat, store: nat, end: nat, dim: Dimension, pivot: real)
    requires start <= store <= p <= end <= |s| && store < end && Key(s[end-1], dim) == pivot
    requires Split(s, dim, start, store, p, pivot)
    ensures Scanned(s, start, end, dim, pivot, Gathered(s, p, store, end, dim, pivot))
    decreases end - p
  {
    if p < end {
      if Key(s[p], dim) < pivot {
        var next := Swapped(s, p, store);
        var r := Gathered(next, p + 1, store + 1, end, dim, pivot);
        assert Gathered(s, p, store, end, dim, pivot) == r;
        GatherSwap(s, start, p, store, end, dim, pivot);
        GatheredFacts(next, start, p + 1, store + 1, end, dim, pivot);
        ScannedAfter(s, next, start, end, dim, pivot, r);
      } else {
        GatheredFacts(s, start, p + 1, store, end, dim, pivot);
      }
    }
  }

  lemma ScannedAfter(s: seq<Point>, next: seq<Point>, start: nat, end: nat, dim: Dimension, pivot: real, r: (seq<Point>, nat))
    requires start < end && PermutedWithin(s, next, start, end) && next[end-1] == s[end-1]
    requires Scanned(next, start, end, dim, pivot, r)
    ensures Scanned(s, start, end, dim, pivot, r)
  {
  }

  lemma PartitionedFacts(s: seq<Point>, start: nat, end: nat, mid: nat, dim: Dimension)
    requires start <= mid < end <= |s|
    ensures PermutedWithin(s, Partitioned(s, start, end, mid, dim).0, start, end)
    ensures start <= Partitioned(s, start, end, mid, dim).1 < end
    ensures Partitioned(s, start, end, mid, dim).0[Partitioned(s, start, end, mid, dim).1] == s[mid]
    ensures Split(Partitioned(s, start, end, mid, dim).0, dim, start, Partitioned(s, start, end, mid, dim).1, end, Key(s[mid], dim))
    ensures Key(s[start], dim) < Key(s[mid], dim) ==> start < Partitioned(s, start, end, mid, dim).1
  {
    var pivot := Key(s[mid], dim);
    var first := Swapped(s, mid, end - 1);
    var r := Gathered(first, start, start, end, dim, pivot);
    SwappedPermutes(s, start, end, mid, end - 1);
    GatheredFacts(first, start, start, start, end, dim, pivot);
    ScannedAfterSwap(s, first, start, end, dim, pivot, r);
    assert Partitioned(s, start, end, mid, dim) == (Swapped(r.0, r.1, end - 1), r.1);
  }

  lemma ScannedAfterSwap(s: seq<Point>, first: seq<Point>, start: nat, end: nat, dim: Dimension, pivot: real, r: (seq<Point>, nat))
    requires Scanned(first, start, end, dim, pivot, r) && PermutedWithin(s, first, start, end)
    ensures PermutedWithin(s, Swapped(r.0, r.1, end - 1), start, end) && Swapped(r.0, r.1, end - 1)[r.1] == first[end-1]
    ensures Split(Swapped(r.0, r.1, end - 1), dim, start, r.1, end, pivot)
  {
    PivotIn(r.0, start, r.1, end, dim, pivot);
    PermutedTwice(s, first, r.0, start, end);
    PermutedTwice(s, r.0, Swapped(r.0, r.1, end - 1), start, end);
  }

  lemma PivotIn(s: seq<Point>, start: nat, store: nat, end: nat, dim: Dimension, pivot: real)
    requires start <= store < end <= |s| && Split(s, dim, start, store, end, pivot)
    ensures Split(Swapped(s, store, end - 1), dim, start, store, end, pivot)
    ensures Swapped(s, store, end - 1)[store] == s[end-1]
    ensures PermutedWithin(s, Swapped(s, store, end - 1), start, end)
  {
    SwappedPermutes(s, start, end, store, end - 1);
    var next := Swapped(s, store, end - 1);
    forall k | store <= k < end ensures Key(next[k], dim) >= pivot {
      assert next[k] == s[if k == store then end - 1 else if k == end - 1 then store else k];
    }
  }

  /** The loop body of quick_select_median: partition around the point at `mid`. */
  method Partition(a: array<Point>, start: nat, end: nat, mid: nat, dim: Dimension) returns (store: nat)
    requires start <= mid < end <= a.Length
    modifies a
    ensures (a[..], store) == Partitioned(old(a[..]), start, end, mid, dim)
  {
    PartitionedFacts(a[..], start, end, mid, dim);
    var pivot := Key(a[mid], dim);
    Swap(a, mid, end - 1);
    store := Gather(a, start, end, dim, pivot);
    Swap(a, store, end - 1);
  }

  method Gather(a: array<Point>, start: nat, end: nat, dim: Dimension, pivot: real) returns (store: nat)
    requires start <= end <= a.Length
    modifies a
    ensures (a[..], store) == Gathered(old(a[..]), start, start, end, dim, pivot)
  {
    var p := start;
    store := start;
    ghost var was, now := a[..], a[..];
    while p < end
      invariant start <= store <= p <= end && |now| == |was| == a.Length && a[..] == now
      invariant Gathered(now, p, store, end, dim, pivot) == Gathered(was, start, start, end, dim, pivot)
    {
      if Key(a[p], dim) < pivot {
        if p != store { Swap(a, p, store); }
        assert Swapped(now, store, store) == now;
        now := Swapped(now, p, store);
        store := store + 1;
      }
      p := p + 1;
    }
  }

  /** Left of `s` all keys are below those from there on, and so are all keys
      before `e` compared with those from `e` on. */
  ghost predicate Narrowed(a: seq<Point>, dim: Dimension, start: nat, s: nat, e: nat, end: nat)
    requires start <= s <= e <= end <= |a|
  {
    && (forall i, j :: start <= i < s <= j < end ==> Key(a[i], dim) < Key(a[j], dim))
    && (forall i, j :: start <= i < e <= j < end ==> Key(a[i], dim) < Key(a[j], dim))
  }

  /** Permuting what is between s and e keeps the rest narrowed in. */
  lemma NarrowedKept(was: seq<Point>, now: seq<Point>, dim: Dimension, start: nat, s: nat, e: nat, end: nat)
    requires PermutedWithin(was, now, s, e) && start <= s && e <= end <= |was|
    requires Narrowed(was, dim, start, s, e, end)
    ensures Narrowed(now, dim, start, s, e, end)
  {
    forall j | s <= j < e ensures exists i :: s <= i < e && was[i] == now[j] {
      var i := PermutedMember(was, now, s, e, j);
    }
  }

  /** Cutting at the split point narrows the stretch further, on either side. */
  lemma NarrowedCut(a: seq<Point>, dim: Dimension, start: nat, s: nat, store: nat, e: nat, end: nat, pivot: real)
    requires start <= s <= store <= e <= end <= |a|
    requires Narrowed(a, dim, start, s, e, end) && Split(a, dim, s, store, e, pivot)
    ensures Narrowed(a, dim, start, s, store, end) && Narrowed(a, dim, start, store, e, end)
  {
  }

  /** Keys left of `m` are not above that at `m`, keys right of it not below. */
  ghost predicate Ordered(a: seq<Point>, dim: Dimension, start: nat, m: nat, end: nat)
    requires start <= m < end <= |a|
  {
    && (forall k :: start <= k < m ==> Key(a[k], dim) <= Key(a[m], dim))
    && (forall k :: m < k < end ==> Key(a[m], dim) <= Key(a[k], dim))
  }

  /** quick_select_median as a function: the entries afterwards, and where the
      pivot of the last round went. With equal keys a round may keep the stretch as
      it is, but then puts a smaller key at its start than there is at `mid`. */
  function Selected(s: seq<Point>, start: nat, end: nat, mid: nat, dim: Dimension): (r: (seq<Point>, nat))
    requires start <= mid < end <= |s|
    ensures |r.0| == |s|
    decreases 2 * (end - start) + if Key(s[start], dim) < Key(s[mid], dim) then 0 else 1
  {
    PartitionedFacts(s, start, end, mid, dim);
    var (now, store) := Partitioned(s, start, end, mid, dim);
    if Key(now[store], dim) == Key(now[mid], dim) then (now, store)
    else if store > mid then Selected(now, start, store, mid, dim)
    else Selected(now, store, end, mid, dim)
  }

  /** No larger key was left between the place of the pivot and its duplicate at
      `mid`, where the scan stopped. */
  ghost predicate Tight(r: (seq<Point>, nat), mid: nat, dim: Dimension)
    requires mid < |r.0|
  {
    forall k :: r.1 < k < mid ==> Key(r.0[k], dim) <= Key(r.0[mid], dim)
  }

  /** Where the scan stops: the pivot at `store`, an equal key at `mid`, and between
      the two anything not below. */
  lemma EarlyExit(a: seq<Point>, dim: Dimension, start: nat, s: nat, store: nat, mid: nat, e: nat, end: nat)
    requires start <= s <= store < e <= end <= |a| && s <= mid < e
    requires Narrowed(a, dim, start, s, e, end) && Split(a, dim, s, store, e, Key(a[store], dim))
    requires Key(a[store], dim) == Key(a[mid], dim)
    ensures Ordered(a, dim, start, mid, end) <==> Tight((a, store), mid, dim)
    ensures store <= mid && (store == mid ==> Tight((a, store), mid, dim))
    ensures Split(a, dim, start, store, end, Key(a[mid], dim))
  {
  }

  /** One round on the stretch s..e that is left of start..end. */
  lemma RoundFacts(a: seq<Point>, dim: Dimension, start: nat, s: nat, e: nat, end: nat, mid: nat)
    requires start <= s <= mid < e <= end <= |a| && Narrowed(a, dim, start, s, e, end)
    ensures var (now, store) := Partitioned(a, s, e, mid, dim);
            && PermutedWithin(a, now, s, e) && s <= store < e && Split(now, dim, s, store, e, Key(now[store], dim))
            && Narrowed(now, dim, start, s, e, end)
            && Narrowed(now, dim, start, s, store, end) && Narrowed(now, dim, start, store, e, end)
  {
    PartitionedFacts(a, s, e, mid, dim);
    var (now, store) := Partitioned(a, s, e, mid, dim);
    NarrowedKept(a, now, dim, start, s, e, end);
    NarrowedCut(now, dim, start, s, store, e, end, Key(a[mid], dim));
  }

  /** The selection permutes. */
  lemma {:induction false} SelectedPermutes(a: seq<Point>, start: nat, end: nat, mid: nat, dim: Dimension)
    requires start <= mid < end <= |a|
    ensures PermutedWithin(a, Selected(a, start, end, mid, dim).0, start, end)
    decreases 2 * (end - start) + if Key(a[start], dim) < Key(a[mid], dim) then 0 else 1
  {
    PartitionedFacts(a, start, end, mid, dim);
    var (now, store) := Partitioned(a, start, end, mid, dim);
    if Key(now[store], dim) != Key(now[mid], dim) {
      var s, e := if store > mid then start else store, if store > mid then store else end;
      var last := Selected(now, s, e, mid, dim).0;
      SelectedPermutes(now, s, e, mid, dim);
      PermutedPart(now, last, start, s, e, end);
      PermutedTwice(a, now, last, start, end);
    }
  }

  /** It splits the stretch by key exactly if it is tight: the scan for the median
      may stop at a duplicate of the pivot with larger keys before it. */
  lemma {:induction false} SelectedOrders(a: seq<Point>, dim: Dimension, start: nat, s: nat, e: nat, end: nat, mid: nat)
    requires start <= s <= mid < e <= end <= |a| && Narrowed(a, dim, start, s, e, end)
    ensures Ordered(Selected(a, s, e, mid, dim).0, dim, start, mid, end) <==> Tight(Selected(a, s, e, mid, dim), mid, dim)
    ensures var r := Selected(a, s, e, mid, dim);
            start <= r.1 <= mid && Key(r.0[r.1], dim) == Key(r.0[mid], dim)
            && Split(r.0, dim, start, r.1, end, Key(r.0[mid], dim))
    decreases 2 * (e - s) + if Key(a[s], dim) < Key(a[mid], dim) then 0 else 1
  {
    PartitionedFacts(a, s, e, mid, dim);
    RoundFacts(a, dim, start, s, e, end, mid);
    var (now, store) := Partitioned(a, s, e, mid, dim);
    if Key(now[store], dim) == Key(now[mid], dim) {
      EarlyExit(now, dim, start, s, store, mid, e, end);
    } else {
      SelectedOrders(now, dim, start, if store > mid then s else store, if store > mid then store else e, end, mid);
    }
  }

  /** An input for which it does not: the larger 9 ends up left of the median 5. */
  lemma DuplicatesMisorder(a: seq<Point>, y: int -> real)
    requires a == [Point(7.0, y(0)), Point(9.0, y(1)), Point(5.0, y(2)), Point(5.0, y(3))]
    ensures Selected(a, 0, 4, 2, SplitX).0 == [a[2], a[1], a[3], a[0]]
    ensures !Ordered(Selected(a, 0, 4, 2, SplitX).0, SplitX, 0, 2, 4)
  {
    var b := Swapped(a, 2, 3);
    assert b == [a[0], a[1], a[3], a[2]];
    assert Gathered(b, 4, 0, 4, SplitX, 5.0) == (b, 0);
    assert Gathered(b, 2, 0, 4, SplitX, 5.0) == (b, 0);
    assert Gathered(b, 0, 0, 4, SplitX, 5.0) == (b, 0);
    assert Swapped(b, 0, 3) == [a[2], a[1], a[3], a[0]];
    var now := Selected(a, 0, 4, 2, SplitX).0;
    assert now[1].x == 9.0 && now[2].x == 5.0;
  }

  /** quick_select_median on the entries start..end. */
  method QuickSelectMedian(a: array<Point>, start: nat, end: nat, dim: Dimension) returns (median: Option<nat>)
    requires start <= a.Length && end <= a.Length
    modifies a
    ensures end <= start ==> median == None && a[..] == old(a[..])
    ensures end == start + 1 ==> median == Some(start) && a[..] == old(a[..])
    ensures start + 1 < end ==>
              var mid := start + (end - start) / 2;
              median == Some(mid) && a[..] == Selected(old(a[..]), start, end, mid, dim).0
  {
    if end <= start { return None; }
    if end == start + 1 { return Some(start); }
    var mid := start + (end - start) / 2;
    var s, e := start, end;
    while true
      invariant start <= s <= mid < e <= end
      invariant Selected(a[..], s, e, mid, dim) == Selected(old(a[..]), start, end, mid, dim)
      decreases 2 * (e - s) + if Key(a[s], dim) < Key(a[mid], dim) then 0 else 1
    {
      PartitionedFacts(a[..], s, e, mid, dim);
      var store := Partition(a, s, e, mid, dim);
      if Key(a[store], dim) == Key(a[mid], dim) { return Some(mid); }
      if store > mid { e := store; } else { s := store; }
    }
  }
}
