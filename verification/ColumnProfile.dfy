/** Column profiles: the second search built on the unordered batch. Per column it
    finds the first (or last) row with a non-zero value. */
module ColumnProfile {
  import opened FuseTrees
  import opened Totals
  import Batch = UnorderedBatch
  import BatchRuns = UnorderedRuns

  /** The values of the requested columns, row by row. */
  type Values = seq<seq<real>>

  /** The end marker of an empty column: -1 when looking for the last non-zero
      row, the image height when looking for the first one. */
  function Mark(bottom: bool, height: nat): int {
    if bottom then -1 else height
  }

  function Scanned(values: seq<real>, y: nat, mark: int): seq<int> {
    seq(|values|, i requires 0 <= i < |values| => if values[i] != 0.0 then y else mark)
  }

  function Pick(mark: int, a: int, b: int): int {
    if mark < 0 then (if a > b then a else b) else (if a < b then a else b)
  }

  function FusedProfile(a: seq<int>, b: seq<int>, mark: int): seq<int>
    requires |a| == |b|
  {
    seq(|a|, k requires 0 <= k < |a| => Pick(mark, a[k], b[k]))
  }

  /** cprofile_scan. */
  method ScanProfile(values: seq<real>, y: nat, mark: int, profile: array<int>)
    requires profile.Length == |values|
    modifies profile
    ensures profile[..] == Scanned(values, y, mark)
  {
    for i := 0 to |values|
      invariant forall k :: 0 <= k < i ==> profile[k] == Scanned(values, y, mark)[k]
    {
      profile[i] := if values[i] != 0.0 then y else mark;
    }
  }

  /** cprofile_fuse: the profile of the upper block takes in that of the lower. */
  method FuseProfile(a: array<int>, b: array<int>, mark: int)
    requires a.Length == b.Length && a != b
    modifies a
    ensures a[..] == FusedProfile(old(a[..]), old(b[..]), mark)
  {
    if mark < 0 {
      for k := 0 to a.Length
        invariant forall i :: 0 <= i < k ==> a[i] == Pick(mark, old(a[i]), b[i])
        invariant forall i :: k <= i < a.Length ==> a[i] == old(a[i])
      {
        a[k] := if a[k] > b[k] then a[k] else b[k];
      }
    } else {
      for k := 0 to a.Length
        invariant forall i :: 0 <= i < k ==> a[i] == Pick(mark, old(a[i]), b[i])
        invariant forall i :: k <= i < a.Length ==> a[i] == old(a[i])
      {
        a[k] := if a[k] < b[k] then a[k] else b[k];
      }
    }
  }

  ghost predicate Wide(values: Values, n: nat) {
    forall y :: 0 <= y < |values| ==> |values[y]| == n
  }

  /** The profile a history of scans and fuses results in. */
  function Replay(values: Values, n: nat, mark: int, t: Tree): (p: seq<int>)
    requires Wide(values, n) && forall y :: y in Rows(t) ==> y < |values|
    ensures |p| == n
  {
    match t
    case Row(y) =>
      assert y in Rows(t);
      Scanned(values[y], y, mark)
    case Fused(a, b) =>
      assert forall y :: y in Rows(a) || y in Rows(b) ==> y in Rows(t);
      FusedProfile(Replay(values, n, mark, a), Replay(values, n, mark, b), mark)
  }

  /** Row y is the last non-zero one of column k in rows lo..hi, or -1 says that
      there is none. */
  ghost predicate IsLast(values: Values, k: nat, lo: nat, hi: nat, y: int)
    requires hi < |values| && forall r :: lo <= r <= hi ==> k < |values[r]|
  {
    && (y == -1 || (lo <= y <= hi && values[y][k] != 0.0))
    && (forall r :: lo <= r <= hi && y < r ==> values[r][k] == 0.0)
  }

  /** Row y is the first non-zero one of column k in rows lo..hi, or the image
      height says that there is none. */
  ghost predicate IsFirst(values: Values, k: nat, lo: nat, hi: nat, y: int)
    requires hi < |values| && forall r :: lo <= r <= hi ==> k < |values[r]|
  {
    && (y == |values| || (lo <= y <= hi && values[y][k] != 0.0))
    && (forall r :: lo <= r <= hi && r < y ==> values[r][k] == 0.0)
  }

  lemma ReplayProfile(values: Values, n: nat, t: Tree, k: nat)
    requires Wide(values, n) && InOrder(t) && Bottom(t) < |values| && k < n
    requires forall y :: y in Rows(t) ==> y < |values|
    ensures IsLast(values, k, Top(t), Bottom(t), Replay(values, n, -1, t)[k])
    ensures IsFirst(values, k, Top(t), Bottom(t), Replay(values, n, |values|, t)[k])
  {
    ReplayLast(values, n, t, k);
    ReplayFirst(values, n, t, k);
  }

  lemma {:induction false} ReplayLast(values: Values, n: nat, t: Tree, k: nat)
    requires Wide(values, n) && InOrder(t) && Bottom(t) < |values| && k < n
    requires forall y :: y in Rows(t) ==> y < |values|
    ensures IsLast(values, k, Top(t), Bottom(t), Replay(values, n, -1, t)[k])
  {
    InOrderRows(t);
    match t
    case Row(y) =>
    case Fused(a, b) =>
      InOrderRows(a);
      InOrderRows(b);
      assert forall y :: y in Rows(a) || y in Rows(b) ==> y in Rows(t);
      ReplayLast(values, n, a, k);
      ReplayLast(values, n, b, k);
  }

  lemma {:induction false} ReplayFirst(values: Values, n: nat, t: Tree, k: nat)
    requires Wide(values, n) && InOrder(t) && Bottom(t) < |values| && k < n
    requires forall y :: y in Rows(t) ==> y < |values|
    ensures IsFirst(values, k, Top(t), Bottom(t), Replay(values, n, |values|, t)[k])
  {
    InOrderRows(t);
    match t
    case Row(y) =>
    case Fused(a, b) =>
      InOrderRows(a);
      InOrderRows(b);
      assert forall y :: y in Rows(a) || y in Rows(b) ==> y in Rows(t);
      ReplayFirst(values, n, a, k);
      ReplayFirst(values, n, b, k);
  }

  /** For every schedule and column, the profile found is the last non-zero row of
      the column, or -1, when looking from the bottom; the first one, or the image
      height, when looking from the top. */
  lemma ProfileFound(values: Values, n: nat, bottom: bool, workers: nat, s: Batch.State, k: nat)
    requires Wide(values, n) && workers >= 1 && |values| >= 1 && k < n
    requires Batch.Reachable(workers, |values|, s) && s.completer.Closed?
    ensures s.row != [] && s.row[0].Some? && forall y :: y in Rows(s.row[0].value) ==> y < |values|
    ensures var y := Replay(values, n, Mark(bottom, |values|), s.row[0].value)[k];
            if bottom then IsLast(values, k, 0, |values| - 1, y) else IsFirst(values, k, 0, |values| - 1, y)
  {
    BatchRuns.WholeImage(workers, |values|, s);
    InOrderRows(s.row[0].value);
    ReplayProfile(values, n, s.row[0].value, k);
  }

  /** Both answers leave no choice. */
  lemma ProfileUnique(values: Values, k: nat, lo: nat, hi: nat, y: int, z: int)
    requires hi < |values| && forall r :: lo <= r <= hi ==> k < |values[r]|
    ensures IsLast(values, k, lo, hi, y) && IsLast(values, k, lo, hi, z) ==> y == z
    ensures IsFirst(values, k, lo, hi, y) && IsFirst(values, k, lo, hi, z) ==> y == z
  {
  }

  /** Any two finished runs, whatever their schedules and numbers of workers, find the
      same profile. */
  lemma ProfileScheduleIndependent(values: Values, n: nat, bottom: bool, n1: nat, s1: Batch.State, n2: nat, s2: Batch.State)
    requires Wide(values, n) && n1 >= 1 && n2 >= 1 && |values| >= 1
    requires Batch.Reachable(n1, |values|, s1) && s1.completer.Closed? && s1.row != [] && s1.row[0].Some?
    requires Batch.Reachable(n2, |values|, s2) && s2.completer.Closed? && s2.row != [] && s2.row[0].Some?
    requires forall y :: y in Rows(s1.row[0].value) || y in Rows(s2.row[0].value) ==> y < |values|
    ensures var mark := Mark(bottom, |values|); Replay(values, n, mark, s1.row[0].value) == Replay(values, n, mark, s2.row[0].value)
  {
    var mark := Mark(bottom, |values|);
    var p, q := Replay(values, n, mark, s1.row[0].value), Replay(values, n, mark, s2.row[0].value);
    forall k | 0 <= k < n ensures p[k] == q[k] {
      ProfileFound(values, n, bottom, n1, s1, k);
      ProfileFound(values, n, bottom, n2, s2, k);
      ProfileUnique(values, k, 0, |values| - 1, p[k], q[k]);
    }
  }
}
