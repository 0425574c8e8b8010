/** Permuting a stretch of a sequence. */
module Stretches {

  /** How often x is among the entries start..end. */
  function Count<T(==)>(s: seq<T>, start: nat, end: nat, x: T): nat
    requires end <= |s|
    decreases end
  {
    if start >= end then 0 else Count(s, start, end - 1, x) + if s[end-1] == x then 1 else 0
  }

  lemma {:induction false} CountSplit<T>(s: seq<T>, start: nat, mid: nat, end: nat, x: T)
    requires start <= mid <= end <= |s|
    ensures Count(s, start, end, x) == Count(s, start, mid, x) + Count(s, mid, end, x)
    decreases end
  {
    if mid < end { CountSplit(s, start, mid, end - 1, x); }
  }

  lemma {:induction false} CountSame<T>(s: seq<T>, t: seq<T>, start: nat, end: nat, x: T)
    requires end <= |s| && end <= |t| && forall k :: start <= k < end ==> s[k] == t[k]
    ensures Count(s, start, end, x) == Count(t, start, end, x)
    decreases end
  {
    if start < end { CountSame(s, t, start, end - 1, x); }
  }

  /** What is counted is found. */
  lemma {:induction false} CountFinds<T>(s: seq<T>, start: nat, end: nat, x: T) returns (k: nat)
    requires end <= |s| && Count(s, start, end, x) > 0
    ensures start <= k < end && s[k] == x
    decreases end
  {
    if s[end-1] == x { k := end - 1; } else { k := CountFinds(s, start, end - 1, x); }
  }

  lemma CountHas<T>(s: seq<T>, start: nat, end: nat, k: nat)
    requires start <= k < end <= |s|
    ensures Count(s, start, end, s[k]) > 0
  {
    CountSplit(s, start, k + 1, end, s[k]);
  }

  /** Two entries of the stretch with the same value are counted twice. */
  lemma CountTwice<T>(s: seq<T>, start: nat, end: nat, i: nat, j: nat)
    requires start <= i < j < end <= |s| && s[i] == s[j]
    ensures Count(s, start, end, s[i]) >= 2
  {
    CountSplit(s, start, j, end, s[i]);
    CountHas(s, start, j, i);
    CountHas(s, j, end, j);
  }

  lemma {:induction false} CountIsMultiset<T>(s: seq<T>, end: nat, x: T)
    requires end <= |s|
    ensures Count(s, 0, end, x) == multiset(s[..end])[x]
    decreases end
  {
    if end > 0 {
      CountIsMultiset(s, end - 1, x);
      assert s[..end] == s[..end-1] + [s[end-1]];
    }
  }

  /** `now` is `was` with the entries start..end permuted. */
  ghost predicate PermutedWithin<T(!new)>(was: seq<T>, now: seq<T>, start: nat, end: nat) {
    && start <= end <= |was| == |now|
    && (forall k :: 0 <= k < |was| && !(start <= k < end) ==> now[k] == was[k])
    && (forall x :: Count(now, start, end, x) == Count(was, start, end, x))
  }

  lemma PermutedTwice<T(!new)>(a: seq<T>, b: seq<T>, c: seq<T>, start: nat, end: nat)
    requires PermutedWithin(a, b, start, end) && PermutedWithin(b, c, start, end)
    ensures PermutedWithin(a, c, start, end)
  {
    forall x ensures Count(c, start, end, x) == Count(a, start, end, x) {
      assert Count(b, start, end, x) == Count(a, start, end, x);
    }
  }

  /** Permuting part of a stretch permutes the stretch. */
  lemma PermutedPart<T(!new)>(was: seq<T>, now: seq<T>, start: nat, s: nat, e: nat, end: nat)
    requires PermutedWithin(was, now, s, e) && start <= s && e <= end <= |was|
    ensures PermutedWithin(was, now, start, end)
  {
    forall x ensures Count(now, start, end, x) == Count(was, start, end, x) {
      CountSplit(was, start, s, end, x);
      CountSplit(was, s, e, end, x);
      CountSplit(now, start, s, end, x);
      CountSplit(now, s, e, end, x);
      CountSame(was, now, start, s, x);
      CountSame(was, now, e, end, x);
    }
  }

  lemma PermutedMember<T(!new)>(was: seq<T>, now: seq<T>, start: nat, end: nat, i: nat) returns (k: nat)
    requires PermutedWithin(was, now, start, end) && start <= i < end
    ensures start <= k < end && was[k] == now[i]
  {
    CountHas(now, start, end, i);
    k := CountFinds(was, start, end, now[i]);
  }

  function Swapped<T>(s: seq<T>, i: nat, j: nat): (r: seq<T>)
    requires i < |s| && j < |s|
    ensures |r| == |s|
    ensures forall k {:trigger r[k]} :: 0 <= k < |s| ==> r[k] == s[if k == i then j else if k == j then i else k]
  {
    seq(|s|, k requires 0 <= k < |s| => s[if k == i then j else if k == j then i else k])
  }

  lemma SwappedPermutes<T(!new)>(s: seq<T>, start: nat, end: nat, i: nat, j: nat)
    requires start <= i < end <= |s| && start <= j < end
    ensures PermutedWithin(s, Swapped(s, i, j), start, end)
  {
    forall x ensures Count(Swapped(s, i, j), start, end, x) == Count(s, start, end, x) {
      if i < j {
        SwappedCount(s, start, end, i, j, x);
      } else if j < i {
        SwappedCount(s, start, end, j, i, x);
        CountSame(Swapped(s, i, j), Swapped(s, j, i), start, end, x);
      } else {
        CountSame(Swapped(s, i, j), s, start, end, x);
      }
    }
  }

  lemma SwappedCount<T>(s: seq<T>, start: nat, end: nat, i: nat, j: nat, x: T)
    requires start <= i < j < end <= |s|
    ensures Count(Swapped(s, i, j), start, end, x) == Count(s, start, end, x)
  {
    var t := Swapped(s, i, j);
    FiveParts(s, start, end, i, j, x);
    FiveParts(t, start, end, i, j, x);
    CountSame(s, t, start, i, x);
    CountSame(s, t, i + 1, j, x);
    CountSame(s, t, j + 1, end, x);
  }

  lemma FiveParts<T>(s: seq<T>, start: nat, end: nat, i: nat, j: nat, x: T)
    requires start <= i < j < end <= |s|
    ensures Count(s, start, end, x) ==
            Count(s, start, i, x) + (if s[i] == x then 1 else 0) + Count(s, i + 1, j, x)
            + (if s[j] == x then 1 else 0) + Count(s, j + 1, end, x)
  {
    CountSplit(s, start, i + 1, end, x);
    CountSplit(s, i + 1, j + 1, end, x);
  }

  // - - -- --- ----- -------- Counting by a property

  /** How many of the entries start..end have the property. */
  function Tally<T>(s: seq<T>, start: nat, end: nat, f: T -> bool): nat
    requires end <= |s|
    decreases end
  {
    if start >= end then 0 else Tally(s, start, end - 1, f) + if f(s[end-1]) then 1 else 0
  }

  lemma {:induction false} TallySplit<T>(s: seq<T>, start: nat, mid: nat, end: nat, f: T -> bool)
    requires start <= mid <= end <= |s|
    ensures Tally(s, start, end, f) == Tally(s, start, mid, f) + Tally(s, mid, end, f)
    decreases end
  {
    if mid < end { TallySplit(s, start, mid, end - 1, f); }
  }

  lemma {:induction false} TallySame<T>(s: seq<T>, t: seq<T>, start: nat, end: nat, f: T -> bool)
    requires end <= |s| && end <= |t| && forall k :: start <= k < end ==> f(s[k]) == f(t[k])
    ensures Tally(s, start, end, f) == Tally(t, start, end, f)
    decreases end
  {
    if start < end { TallySame(s, t, start, end - 1, f); }
  }

  /** Taking the last entry for entry k of the stretch, and back. */
  lemma TallySwapped<T>(s: seq<T>, start: nat, end: nat, k: nat, f: T -> bool)
    requires start <= k < end <= |s|
    ensures Tally(Swapped(s, k, end - 1), start, end, f) == Tally(s, start, end, f)
  {
    var t := Swapped(s, k, end - 1);
    if k < end - 1 {
      TallyParts(s, start, end, k, f);
      TallyParts(t, start, end, k, f);
      TallySame(s, t, start, k, f);
      TallySame(s, t, k + 1, end - 1, f);
    } else {
      TallySame(s, t, start, end, f);
    }
  }

  lemma TallyParts<T>(s: seq<T>, start: nat, end: nat, k: nat, f: T -> bool)
    requires start <= k < end - 1 < |s|
    ensures Tally(s, start, end, f) ==
            Tally(s, start, k, f) + (if f(s[k]) then 1 else 0) + Tally(s, k + 1, end - 1, f) + if f(s[end-1]) then 1 else 0
  {
    TallySplit(s, start, k + 1, end - 1, f);
  }

  /** Permuting does not change how many entries have a property. */
  lemma {:induction false} TallyPermuted<T(!new)>(s: seq<T>, t: seq<T>, start: nat, end: nat, f: T -> bool)
    requires start <= end <= |s| && end <= |t| && forall x :: Count(s, start, end, x) == Count(t, start, end, x)
    ensures Tally(s, start, end, f) == Tally(t, start, end, f)
    decreases end
  {
    if start < end {
      CountHas(s, start, end, end - 1);
      var k := CountFinds(t, start, end, s[end-1]);
      var last := end - 1;
      var u := Swapped(t, k, last);
      SwappedPermutes(t, start, end, k, last);
      forall x ensures Count(s, start, last, x) == Count(u, start, last, x) {
        assert Count(s, start, end, x) == Count(t, start, end, x) == Count(u, start, end, x);
      }
      TallyPermuted(s, u, start, end - 1, f);
      TallySwapped(t, start, end, k, f);
    }
  }

  /** Part of a stretch has no more of anything. */
  lemma TallyPart<T>(s: seq<T>, start: nat, b: nat, e: nat, end: nat, f: T -> bool)
    requires start <= b <= e <= end <= |s|
    ensures Tally(s, b, e, f) <= Tally(s, start, end, f)
  {
    TallySplit(s, start, b, end, f);
    TallySplit(s, b, e, end, f);
  }

  lemma {:induction false} TallyNone<T>(s: seq<T>, start: nat, end: nat, f: T -> bool)
    requires end <= |s| && forall k :: start <= k < end ==> !f(s[k])
    ensures Tally(s, start, end, f) == 0
    decreases end
  {
    if start < end { TallyNone(s, start, end - 1, f); }
  }

  lemma {:induction false} TallyAll<T>(s: seq<T>, start: nat, end: nat, f: T -> bool)
    requires start <= end <= |s| && forall k :: start <= k < end ==> f(s[k])
    ensures Tally(s, start, end, f) == end - start
    decreases end
  {
    if start < end { TallyAll(s, start, end - 1, f); }
  }

  lemma {:induction false} TallyFinds<T>(s: seq<T>, start: nat, end: nat, f: T -> bool) returns (k: nat)
    requires end <= |s| && Tally(s, start, end, f) > 0
    ensures start <= k < end && f(s[k])
    decreases end
  {
    if f(s[end-1]) { k := end - 1; } else { k := TallyFinds(s, start, end - 1, f); }
  }

  lemma TallyTwo<T>(s: seq<T>, start: nat, end: nat, f: T -> bool) returns (j: nat, k: nat)
    requires end <= |s| && Tally(s, start, end, f) >= 2
    ensures start <= j < k < end && f(s[j]) && f(s[k])
  {
    k := TallyFinds(s, start, end, f);
    TallySplit(s, start, k, end, f);
    TallySplit(s, k, k + 1, end, f);
    assert Tally(s, k, k + 1, f) == Tally(s, k, k, f) + 1;
    if Tally(s, start, k, f) > 0 {
      j := TallyFinds(s, start, k, f);
    } else {
      j := k;
      k := TallyFinds(s, k + 1, end, f);
    }
  }

  lemma TallyHas<T>(s: seq<T>, start: nat, end: nat, f: T -> bool, k: nat)
    requires start <= k < end <= |s| && f(s[k])
    ensures Tally(s, start, end, f) > 0
  {
    TallySplit(s, start, k + 1, end, f);
  }

  lemma TallyPair<T>(s: seq<T>, start: nat, end: nat, f: T -> bool, j: nat, k: nat)
    requires start <= j < k < end <= |s| && f(s[j]) && f(s[k])
    ensures Tally(s, start, end, f) >= 2
  {
    TallySplit(s, start, k, end, f);
    TallyHas(s, start, k, f, j);
    TallyHas(s, k, end, f, k);
  }
}
