/** What every step of an unordered batch run keeps about its blocks: those being
    made, those travelling and those recorded tile the rows issued so far. */
module UnorderedBlocks {
  import opened Totals
  import opened FuseTrees
  import opened UnorderedBatch
  import opened Tiling
  import opened UnorderedGauges

  function Flying(s: State, u: Tree): nat {
    Gauge(s, TreeMeter(u))
  }

  ghost function Live(s: State): Census {
    u => Flying(s, u) + Recorded(s.row, u)
  }

  ghost predicate FullRecorded(row: seq<Option<Tree>>) {
    |row| > 0 && row[0].Some? && Full(row[0].value, |row|)
  }

  ghost predicate Blocks(s: State) {
    && Tiles(Live(s), s.count, |s.row|) && Tidy(s.row)
    && (s.stop <==> FullRecorded(s.row))
  }

  // - - -- --- ----- -------- The completer callback

  /** The callback's block is a live one not recorded yet. */
  ghost predicate Arriving(row: seq<Option<Tree>>, live: Census, lo: nat, t: Tree) {
    && Tidy(row) && Tiles(live, lo, |row|) && Member(live, t)
    && Recorded(row, t) == 0 && (forall u :: Recorded(row, u) <= live(u))
  }

  lemma ArrivingIsFresh(row: seq<Option<Tree>>, live: Census, lo: nat, t: Tree)
    requires Arriving(row, live, lo, t)
    ensures Fresh(row, t)
    ensures forall k: nat :: k < |row| && row[k].Some? ==> Member(live, row[k].value) && !Full(row[k].value, |row|)
  {
    forall k: nat | k < |row| && row[k].Some?
      ensures Apart(t, row[k].value) && Member(live, row[k].value)
    {
      var x := row[k].value;
      assert AtHome(row, k);
      RecordedIs(row, |row|, x);
      assert Recorded(row, x) <= live(x);
    }
  }

  /** The block taken out of the array for a fuse with t, above or below it. */
  ghost predicate Partner(row: seq<Option<Tree>>, live: Census, t: Tree, x: Tree) {
    && Top(x) < |row| && row[Top(x)] == Some(x) && Member(live, x)
    && (Bottom(x) + 1 == Top(t) || Bottom(t) + 1 == Top(x))
  }

  /** Whatever the callback injects fuses two live, vertically adjacent blocks,
      and these leave the array; otherwise the block is recorded. Nothing else
      in the array changes. */
  lemma ReceiveEffect(row: seq<Option<Tree>>, live: Census, lo: nat, t: Tree)
    requires Arriving(row, live, lo, t)
    ensures var v := Receive(row, t);
            && Tidy(v.row) && |v.row| == |row|
            && (v.inject.None? ==> forall u :: Recorded(v.row, u) == Recorded(row, u) + Is(u, t))
            && (v.inject.Some? ==> v.inject.value.FuseTask?)
            && (v.stop <==> FullRecorded(v.row))
  {
    ArrivingIsFresh(row, live, lo, t);
    FreshIsVacant(row, t);
    NeighbourAdjacent(row, t);
    if Full(t, |row|) {
      PutFull(row, t);
    } else if Top(t) > 0 && Occupied(row, Top(t) - 1) {
      assert AtHome(row, Top(t) - 1);
      TakeOut(row, row[Top(t) - 1].value);
    } else if Bottom(t) < |row| - 1 && Occupied(row, Bottom(t) + 1) {
      assert AtHome(row, Bottom(t) + 1);
      TakeOut(row, row[Bottom(t) + 1].value);
    } else {
      PutIn(row, t);
    }
  }

  lemma InjectEffect(row: seq<Option<Tree>>, live: Census, lo: nat, t: Tree) returns (x: Tree)
    requires Arriving(row, live, lo, t) && Receive(row, t).inject.Some?
    ensures Partner(row, live, t, x) && x != t
    ensures Receive(row, t).inject == Some(if Bottom(x) + 1 == Top(t) then FuseTask(x, t) else FuseTask(t, x))
    ensures forall u :: Recorded(Receive(row, t).row, u) + Is(u, x) == Recorded(row, u)
  {
    ArrivingIsFresh(row, live, lo, t);
    NeighbourAdjacent(row, t);
    if Top(t) > 0 && Occupied(row, Top(t) - 1) {
      assert AtHome(row, Top(t) - 1);
      x := row[Top(t) - 1].value;
    } else {
      assert AtHome(row, Bottom(t) + 1);
      x := row[Bottom(t) + 1].value;
    }
    assert AtHome(row, Top(x));
    TakeOut(row, x);
  }

  // - - -- --- ----- -------- Steps

  lemma FlyingResult(s: State, t: Tree)
    requires s.results != [] && s.results[0] == Some(t)
    ensures Flying(s, t) >= 1
  {
    TotalMember(s.results, 0, TreeMeter(t).result);
  }

  lemma ResultArrives(s: State, t: Tree)
    requires Blocks(s) && s.results != [] && s.results[0] == Some(t)
    ensures Arriving(s.row, Live(s), s.count, t) && !s.stop
  {
    FlyingResult(s, t);
    var live := Live(s);
    assert live(t) == Flying(s, t) + Recorded(s.row, t);
    assert Member(live, t);
    forall u ensures Recorded(s.row, u) <= live(u) {
      assert live(u) == Flying(s, u) + Recorded(s.row, u);
    }
    ArrivingIsFresh(s.row, live, s.count, t);
  }

  lemma BlocksTake(s: State)
    requires Blocks(s) && Enabled(s, TakeResult) && s.results[0].Some?
    ensures Blocks(Do(s, TakeResult))
  {
    var t, next := s.results[0].value, Do(s, TakeResult);
    var live, after := Live(s), Live(next);
    ResultArrives(s, t);
    ReceiveEffect(s.row, live, s.count, t);
    if Receive(s.row, t).inject.Some? {
      var x := InjectEffect(s.row, live, s.count, t);
      var a, b := if Bottom(x) + 1 == Top(t) then x else t, if Bottom(x) + 1 == Top(t) then t else x;
      forall u ensures after(u) + Is(u, a) + Is(u, b) == live(u) + Is(u, Fused(a, b)) {
        InFlightStep(s, TakeResult, u);
      }
      TilesFuse(live, after, s.count, |s.row|, a, b);
    } else {
      forall u ensures after(u) == live(u) {
        InFlightStep(s, TakeResult, u);
      }
      TilesSame(live, after, s.count, |s.row|);
    }
  }

  lemma BlocksIssue(s: State)
    requires Blocks(s) && Enabled(s, IssueRow) && s.count <= |s.row|
    ensures Blocks(Do(s, IssueRow))
  {
    var live, after := Live(s), Live(Do(s, IssueRow));
    forall u ensures after(u) == live(u) + Is(u, Row(s.count - 1)) {
      InFlightStep(s, IssueRow, u);
    }
    TilesIssue(live, after, s.count, |s.row|);
  }

  lemma BlocksOther(s: State, step: Step)
    requires Blocks(s) && Enabled(s, step) && !step.IssueRow? && (step.TakeResult? ==> s.results[0].None?)
    ensures Blocks(Do(s, step))
  {
    var live, after := Live(s), Live(Do(s, step));
    forall u ensures after(u) == live(u) {
      InFlightStep(s, step, u);
    }
    TilesSame(live, after, s.count, |s.row|);
  }

  /** Every step keeps the tiling and the tidy adjacency array. */
  lemma BlocksStep(s: State, step: Step)
    requires Blocks(s) && Enabled(s, step) && s.count <= |s.row|
    ensures Blocks(Do(s, step))
  {
    if step.IssueRow? {
      BlocksIssue(s);
    } else if step.TakeResult? && s.results[0].Some? {
      BlocksTake(s);
    } else {
      BlocksOther(s, step);
    }
  }

  lemma NothingFlies(workers: nat, height: nat, u: Tree)
    ensures Flying(Init(workers, height), u) == 0
  {
    TotalZero(Init(workers, height).workers, TreeMeter(u).worker);
  }

  lemma {:induction false} NothingRecorded(height: nat, n: nat, u: Tree)
    requires n <= height
    ensures RecordedTo(Init(0, height).row, n, u) == 0
  {
    if n > 0 { NothingRecorded(height, n - 1, u); }
  }

  lemma BlocksInit(workers: nat, height: nat)
    ensures Blocks(Init(workers, height))
  {
    var s := Init(workers, height);
    forall u ensures Live(s)(u) == 0 {
      NothingFlies(workers, height, u);
      NothingRecorded(height, height, u);
    }
  }

  /** Once the block of all rows is recorded nothing else is alive. */
  lemma StopMeansAlone(s: State, u: Tree)
    requires Blocks(s) && s.stop
    ensures Flying(s, u) == 0
    ensures s.row[0].Some? && InOrder(s.row[0].value) && Top(s.row[0].value) == 0 && Bottom(s.row[0].value) == |s.row| - 1
  {
    var t, live := s.row[0].value, Live(s);
    RecordedIs(s.row, |s.row|, t);
    assert live(t) == Flying(s, t) + Recorded(s.row, t);
    FullIsAlone(live, s.count, |s.row|, t, u);
    FullIsAlone(live, s.count, |s.row|, t, t);
    assert live(u) == Flying(s, u) + Recorded(s.row, u);
    RecordedIs(s.row, |s.row|, u);
  }

  /** All rows issued and nothing in flight: the search is over. */
  lemma NothingFlyingMeansStop(s: State)
    requires Blocks(s) && s.count == 0 && |s.row| > 0
    requires forall u :: Flying(s, u) == 0
    ensures s.stop
  {
    forall u ensures Live(s)(u) == Recorded(s.row, u) {
      assert Flying(s, u) == 0;
    }
    OnlyRecordedMeansFull(s.row, Live(s));
  }
}
