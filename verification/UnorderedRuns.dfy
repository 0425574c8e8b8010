/** The unordered batch run as a whole: no schedule can get it stuck, every
    schedule ends, and every schedule leaves the block of all rows behind. */
module UnorderedRuns {
  import opened Totals
  import opened FuseTrees
  import opened UnorderedBatch
  import opened Tiling
  import opened UnorderedGauges
  import opened UnorderedBlocks
  import opened UnorderedCounts

  ghost predicate Inv(s: State) {
    Sizes(s) && Blocks(s) && Bounded(s) && SignalsOut(s) && SignalsBack(s) && Conserved(s)
  }

  lemma InvStep(s: State, step: Step)
    requires Inv(s) && Enabled(s, step)
    ensures Inv(Do(s, step)) && |Do(s, step).workers| == |s.workers| && |Do(s, step).row| == |s.row|
  {
    SizesStep(s, step);
    BlocksStep(s, step);
    BoundedStep(s, step);
    SignalsOutStep(s, step);
    SignalsBackStep(s, step);
    ConservedStep(s, step);
    RowKept(s, step);
  }

  lemma RowKept(s: State, step: Step)
    requires Enabled(s, step)
    ensures |Do(s, step).workers| == |s.workers| && |Do(s, step).row| == |s.row|
  {
  }

  lemma GaugeInit(workers: nat, height: nat, m: Meter)
    requires m.worker(Looking) == 0 && m.hand(Taking) == 0
    ensures Gauge(Init(workers, height), m) == 0
  {
    TotalZero(Init(workers, height).workers, m.worker);
  }

  lemma {:induction false} IdleInit(height: nat, n: nat)
    requires n <= height
    ensures IdleTo(Init(0, height).row, n) == 0
  {
    if n > 0 { IdleInit(height, n - 1); }
  }

  lemma InvInit(workers: nat, height: nat)
    requires workers >= 1 && height >= 1
    ensures Inv(Init(workers, height))
  {
    BlocksInit(workers, height);
    GaugeInit(workers, height, LoadMeter());
    GaugeInit(workers, height, EofMeter());
    GaugeInit(workers, height, GoneMeter());
    GaugeInit(workers, height, EofResultMeter());
    GaugeInit(workers, height, UnitMeter());
    GaugeInit(workers, height, PendingMeter());
    IdleInit(height, height);
  }

  lemma {:induction false} InvRun(s: State, steps: seq<Step>)
    requires Inv(s) && Run(s, steps).Some?
    ensures Inv(Run(s, steps).value)
    ensures |Run(s, steps).value.workers| == |s.workers| && |Run(s, steps).value.row| == |s.row|
    decreases |steps|
  {
    if steps != [] {
      InvStep(s, steps[0]);
      InvRun(Do(s, steps[0]), steps[1..]);
    }
  }

  /** The invariants hold in every state of every run, for any number of workers
      and rows. */
  lemma ReachableInv(workers: nat, height: nat, s: State)
    requires workers >= 1 && height >= 1 && Reachable(workers, height, s)
    ensures Inv(s) && |s.workers| == workers && |s.row| == height
  {
    var steps :| Run(Init(workers, height), steps) == Some(s);
    InvInit(workers, height);
    InvRun(Init(workers, height), steps);
  }

  // - - -- --- ----- -------- No deadlock

  /** Some thread can do something useful, at once or after one worker has gone
      round its polling loop. */
  ghost predicate CanProgress(s: State) {
    exists step, spin :: Progresses(s, step, spin)
  }

  ghost predicate Progresses(s: State, step: Step, spin: Option<Step>) {
    if spin.None? then Enabled(s, step) && !Spins(s, step)
    else Enabled(s, spin.value) && Spins(s, spin.value)
         && Enabled(Do(s, spin.value), step) && !Spins(Do(s, spin.value), step)
  }

  /** A worker that is not gone, with a task it can get or a result it can put. */
  lemma WorkerCanProgress(s: State, w: nat)
    requires Inv(s) && w < |s.workers| && !s.workers[w].Gone?
    requires s.workers[w].Delivering? ==> |s.results| < |s.workers|
    requires s.workers[w].Looking? || s.workers[w].Polled? ==> s.priority != [] || s.regular != []
    ensures CanProgress(s)
  {
    match s.workers[w]
    case Looking =>
      if s.priority != [] {
        assert Progresses(s, PollPriority(w), None);
      } else {
        assert Progresses(s, PollRegular(w), Some(PollPriority(w)));
      }
    case Polled =>
      if s.regular != [] {
        assert Progresses(s, PollRegular(w), None);
      } else {
        assert Progresses(s, PollPriority(w), Some(PollRegular(w)));
      }
    case Working(t) => assert Progresses(s, Work(w), None);
    case Delivering(r) => assert Progresses(s, Deliver(w), None);
  }

  lemma AllGoneCounts(s: State)
    requires Inv(s) && forall w :: 0 <= w < |s.workers| ==> s.workers[w].Gone?
    ensures Gauge(s, GoneMeter()) == |s.workers|
  {
    AllOnes(s.workers, GoneMeter().worker);
    TotalZero(s.regular, GoneMeter().ticket);
    TotalZero(s.priority, GoneMeter().task);
    TotalZero(s.results, GoneMeter().result);
  }

  lemma {:induction false} AllOnes<T>(s: seq<T>, f: T -> nat)
    requires forall i :: 0 <= i < |s| ==> f(s[i]) == 1
    ensures Total(s, f) == |s|
  {
    if s != [] { AllOnes(s[1..], f); }
  }

  /** The completer waits for a result and there is none. */
  lemma StarvedCompleter(s: State)
    requires Inv(s) && s.completer.Taking? && s.results == []
    ensures CanProgress(s)
  {
    if w: nat :| w < |s.workers| && !s.workers[w].Gone? {
      if s.priority != [] || s.regular != [] || !(s.workers[w].Looking? || s.workers[w].Polled?) {
        WorkerCanProgress(s, w);
      } else if v: nat :| v < |s.workers| && (s.workers[v].Working? || s.workers[v].Delivering?) {
        WorkerCanProgress(s, v);
      } else {
        StarvedMaker(s, w);
      }
    } else {
      AllGoneCounts(s);
      NoEofResults(s);
    }
  }

  lemma NoEofResults(s: State)
    requires s.results == []
    ensures Gauge(s, EofResultMeter()) == 0
  {
    TotalZero(s.regular, EofResultMeter().ticket);
    TotalZero(s.priority, EofResultMeter().task);
    TotalZero(s.workers, EofResultMeter().worker);
  }

  /** Nothing to do for any worker: then the maker has something to say. */
  lemma StarvedMaker(s: State, w: nat)
    requires Inv(s) && s.completer.Taking? && s.results == [] && s.priority == [] && s.regular == []
    requires forall v :: 0 <= v < |s.workers| ==> !s.workers[v].Working? && !s.workers[v].Delivering?
    requires w < |s.workers| && !s.workers[w].Gone?
    ensures CanProgress(s)
  {
    if s.maker.Ending? {
      assert Progresses(s, SendEof, None);
    } else if s.maker.Making? && s.count > 0 {
      assert Progresses(s, IssueRow, None);
    } else if s.maker.Making? {
      forall u ensures Flying(s, u) == 0 {
        TotalZero(s.workers, TreeMeter(u).worker);
      }
      NothingFlyingMeansStop(s);
      assert Progresses(s, SeeStop, None);
    } else {
      TotalZero(s.workers, EofMeter().worker);
      GoneOnly(s);
    }
  }

  lemma GoneOnly(s: State)
    requires Inv(s) && Gauge(s, GoneMeter()) >= |s.workers|
    ensures forall v :: 0 <= v < |s.workers| ==> s.workers[v].Gone?
  {
    TotalAtMost(s.workers, GoneMeter().worker);
    TotalZero(s.regular, GoneMeter().ticket);
    TotalZero(s.priority, GoneMeter().task);
    TotalZero(s.results, GoneMeter().result);
  }

  /** The completer is blocked injecting: the load bound leaves some worker free
      to take from the full priority ring or to put into the results. */
  lemma BlockedCompleter(s: State)
    requires Inv(s) && s.completer.Injecting? && |s.priority| == |s.workers|
    ensures CanProgress(s)
  {
    NotStopped(s);
    if w: nat :| w < |s.workers| && !s.workers[w].Delivering? {
      NoneGone(s, w);
      WorkerCanProgress(s, w);
    } else if |s.results| < |s.workers| {
      WorkerCanProgress(s, 0);
    } else {
      AllOnes(s.priority, LoadMeter().task);
      AllOnes(s.results, LoadMeter().result);
      AllOnes(s.workers, LoadMeter().worker);
    }
  }

  lemma NotStopped(s: State)
    requires Inv(s) && s.completer.Injecting?
    ensures !s.stop
  {
    if s.stop {
      StopMeansAlone(s, Product(s.completer.task));
    }
  }

  lemma NoneGone(s: State, w: nat)
    requires Inv(s) && !s.stop && w < |s.workers|
    ensures !s.workers[w].Gone?
  {
    TotalMember(s.workers, w, GoneMeter().worker);
  }

  /** No state of any run is a deadlock: until the completer is through, some
      thread can make progress. In particular the completer can always get its
      fuse task into the bounded priority ring in the end. */
  lemma NoDeadlock(workers: nat, height: nat, s: State)
    requires workers >= 1 && height >= 1 && Reachable(workers, height, s) && !s.completer.Closed?
    ensures CanProgress(s)
  {
    ReachableInv(workers, height, s);
    InvProgress(s);
  }

  lemma InvProgress(s: State)
    requires Inv(s) && !s.completer.Closed?
    ensures CanProgress(s)
  {
    if s.completer.Taking? && s.results != [] {
      assert Progresses(s, TakeResult, None);
    } else if s.completer.Taking? {
      StarvedCompleter(s);
    } else if |s.priority| < |s.workers| {
      assert Progresses(s, Inject, None);
    } else {
      BlockedCompleter(s);
    }
  }

  // - - -- --- ----- -------- Termination

  /** The steps of a run that are not fruitless polls. */
  function UsefulSteps(s: State, steps: seq<Step>): nat
    requires Run(s, steps).Some?
    decreases |steps|
  {
    if steps == [] then 0
    else (if Spins(s, steps[0]) then 0 else 1) + UsefulSteps(Do(s, steps[0]), steps[1..])
  }

  lemma {:induction false} UsefulStepsBounded(s: State, steps: seq<Step>)
    requires Inv(s) && Run(s, steps).Some?
    ensures UsefulSteps(s, steps) + WorkLeft(Run(s, steps).value) <= WorkLeft(s)
    decreases |steps|
  {
    if steps != [] {
      InvStep(s, steps[0]);
      ProgressStep(s, steps[0]);
      UsefulStepsBounded(Do(s, steps[0]), steps[1..]);
    }
  }

  /** Every schedule ends: with h rows and n workers no run has more than
      11h + 5n + 1 useful steps. */
  lemma Terminates(workers: nat, height: nat, steps: seq<Step>)
    requires workers >= 1 && height >= 1 && Run(Init(workers, height), steps).Some?
    ensures UsefulSteps(Init(workers, height), steps) <= 11 * height + 5 * workers + 1
  {
    InvInit(workers, height);
    UsefulStepsBounded(Init(workers, height), steps);
    GaugeInit(workers, height, UnitMeter());
    GaugeInit(workers, height, StageMeter());
    IdleInit(height, height);
  }

  // - - -- --- ----- -------- Every run can be brought to its end

  lemma {:induction false} RunOn(s: State, a: seq<Step>, b: seq<Step>)
    requires Run(s, a).Some?
    ensures Run(s, a + b) == Run(Run(s, a).value, b)
    decreases |a|
  {
    if a == [] {
      assert a + b == b;
    } else {
      RunOn(Do(s, a[0]), a[1..], b);
      assert (a + b)[1..] == a[1..] + b;
    }
  }

  /** Useful steps, each perhaps after a fruitless poll, lead there. */
  lemma {:induction false} FinishFrom(s: State) returns (steps: seq<Step>)
    requires Inv(s)
    ensures Run(s, steps).Some? && Run(s, steps).value.completer.Closed?
    decreases WorkLeft(s)
  {
    steps := [];
    if !s.completer.Closed? {
      InvProgress(s);
      var step, spin :| Progresses(s, step, spin);
      var first := if spin.None? then [step] else [spin.value, step];
      var n := FirstSteps(s, step, spin);
      steps := FinishFrom(n);
      RunOn(s, first, steps);
      steps := first + steps;
    }
  }

  lemma FirstSteps(s: State, step: Step, spin: Option<Step>) returns (n: State)
    requires Inv(s) && Progresses(s, step, spin)
    ensures Run(s, if spin.None? then [step] else [spin.value, step]) == Some(n) && Inv(n) && WorkLeft(n) < WorkLeft(s)
  {
    if spin.None? {
      n := OneStep(s, step);
    } else {
      var m := OneStep(s, spin.value);
      n := OneStep(m, step);
      RunOn(s, [spin.value], [step]);
      assert [spin.value] + [step] == [spin.value, step];
    }
  }

  lemma OneStep(s: State, step: Step) returns (n: State)
    requires Inv(s) && Enabled(s, step)
    ensures n == Do(s, step) && Run(s, [step]) == Some(n) && Inv(n)
    ensures if Spins(s, step) then WorkLeft(n) == WorkLeft(s) else WorkLeft(n) < WorkLeft(s)
  {
    n := Do(s, step);
    InvStep(s, step);
    ProgressStep(s, step);
    assert [step][1..] == [];
  }

  /** From every state a run can reach there is a way to a finished one. */
  lemma CanFinish(workers: nat, height: nat, s: State) returns (steps: seq<Step>, end: State)
    requires workers >= 1 && height >= 1 && Reachable(workers, height, s)
    ensures Run(s, steps) == Some(end) && Reachable(workers, height, end) && end.completer.Closed?
  {
    ReachableInv(workers, height, s);
    steps := FinishFrom(s);
    end := Run(s, steps).value;
    var before :| Run(Init(workers, height), before) == Some(s);
    RunOn(Init(workers, height), before, steps);
  }

  // - - -- --- ----- -------- The end of a run

  lemma ClosedSignals(s: State)
    requires Inv(s) && s.completer.Closed?
    ensures s.maker.Finished? && s.stop && s.count == 0
    ensures forall v :: 0 <= v < |s.workers| ==> s.workers[v].Gone?
    ensures Gauge(s, EofMeter()) == 0 && Gauge(s, EofResultMeter()) == 0
  {
    GoneOnly(s);
    AllGoneCounts(s);
  }

  lemma ClosedRings(s: State)
    requires Inv(s) && s.completer.Closed?
    ensures s.regular == [] && s.priority == [] && s.results == []
  {
    ClosedSignals(s);
    if s.regular != [] && s.regular[0].Some? {
      StopMeansAlone(s, Product(s.regular[0].value));
    }
    if s.priority != [] {
      StopMeansAlone(s, Product(s.priority[0]));
    }
    if s.results != [] && s.results[0].Some? {
      StopMeansAlone(s, s.results[0].value);
    }
  }

  lemma {:induction false} IdleAlone(row: seq<Option<Tree>>, n: nat)
    requires n <= |row| && Tidy(row) && FullRecorded(row)
    requires forall k: nat :: k < |row| && row[k].Some? ==> row[k] == row[0]
    ensures IdleTo(row, n) <= 1 && (n == 0 ==> IdleTo(row, n) == 0)
    ensures n > 0 ==> IdleTo(row, n) == 1
  {
    if n > 0 { IdleAlone(row, n - 1); }
  }

  lemma OnlyFullRecorded(s: State)
    requires Inv(s) && s.stop
    ensures Idle(s.row) == 1
  {
    forall k: nat | k < |s.row| && s.row[k].Some? ensures s.row[k] == s.row[0] {
      var t, x, live := s.row[0].value, s.row[k].value, Live(s);
      assert AtHome(s.row, k);
      RecordedIs(s.row, |s.row|, t);
      RecordedIs(s.row, |s.row|, x);
      assert live(t) == Flying(s, t) + Recorded(s.row, t) && live(x) == Flying(s, x) + Recorded(s.row, x);
      FullIsAlone(live, s.count, |s.row|, t, x);
    }
    IdleAlone(s.row, |s.row|);
  }

  /** When the completer is through, so is everybody else: the maker has ended,
      all workers are gone and every ring is empty, as `release` asserts. */
  lemma CleanShutdown(workers: nat, height: nat, s: State)
    requires workers >= 1 && height >= 1 && Reachable(workers, height, s) && s.completer.Closed?
    ensures s.maker.Finished? && |s.workers| == workers && forall v :: 0 <= v < workers ==> s.workers[v].Gone?
    ensures s.regular == [] && s.priority == [] && s.results == []
  {
    ReachableInv(workers, height, s);
    ClosedSignals(s);
    ClosedRings(s);
  }

  /** What every finished run leaves in row[0]: a block fused from all the rows,
      each once, always joining vertical neighbours, by exactly height - 1 fuses. */
  lemma WholeImage(workers: nat, height: nat, s: State)
    requires workers >= 1 && height >= 1 && Reachable(workers, height, s) && s.completer.Closed?
    ensures |s.row| == height && s.row[0].Some? && InOrder(s.row[0].value)
    ensures Top(s.row[0].value) == 0 && Bottom(s.row[0].value) == height - 1
    ensures s.fused == height - 1
  {
    ReachableInv(workers, height, s);
    CleanShutdown(workers, height, s);
    ClosedSignals(s);
    StopMeansAlone(s, s.row[0].value);
    OnlyFullRecorded(s);
    TotalZero(s.workers, UnitMeter().worker);
    TotalZero(s.workers, PendingMeter().worker);
  }
}
