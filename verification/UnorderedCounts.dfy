/** Counting arguments for the unordered batch run: the bound that rules out the
    injection deadlock, the accounting of the eof signals and of the fuses. */
module UnorderedCounts {
  import opened Totals
  import opened FuseTrees
  import opened UnorderedBatch
  import opened Tiling
  import opened UnorderedGauges
  import opened UnorderedBlocks

  // - - -- --- ----- -------- Meters

  /** Priority tasks, results, workers past the empty check or holding work, and
      the completer's hand. */
  function LoadMeter(): Meter {
    Meter((t: Option<Task>) => 0, (t: Task) => 1,
          (w: Worker) => if w.Polled? || w.Working? || w.Delivering? then 1 else 0,
          (r: Option<Tree>) => 1, (c: Completer) => if c.Injecting? then 1 else 0)
  }

  /** Eof signals between maker and worker exit. */
  function EofMeter(): Meter {
    Meter((t: Option<Task>) => if t.None? then 1 else 0, (t: Task) => 0,
          (w: Worker) => if w == Delivering(None) then 1 else 0,
          (r: Option<Tree>) => 0, (c: Completer) => 0)
  }

  function GoneMeter(): Meter {
    Meter((t: Option<Task>) => 0, (t: Task) => 0, (w: Worker) => if w.Gone? then 1 else 0,
          (r: Option<Tree>) => 0, (c: Completer) => 0)
  }

  /** Eof signals between worker exit and completer. */
  function EofResultMeter(): Meter {
    Meter((t: Option<Task>) => 0, (t: Task) => 0, (w: Worker) => 0,
          (r: Option<Tree>) => if r.None? then 1 else 0, (c: Completer) => 0)
  }

  function FuseOf(t: Task): nat {
    if t.FuseTask? then 1 else 0
  }

  /** Fuse tasks created but not executed yet. */
  function PendingMeter(): Meter {
    Meter((t: Option<Task>) => if t.Some? then FuseOf(t.value) else 0, FuseOf,
          (w: Worker) => if w.Working? then FuseOf(w.task) else 0,
          (r: Option<Tree>) => 0, (c: Completer) => if c.Injecting? then FuseOf(c.task) else 0)
  }

  /** Blocks in flight, as task or as result. */
  function UnitMeter(): Meter {
    Meter((t: Option<Task>) => if t.Some? then 1 else 0, (t: Task) => 1,
          (w: Worker) => if w.Working? || (w.Delivering? && w.result.Some?) then 1 else 0,
          (r: Option<Tree>) => if r.Some? then 1 else 0, (c: Completer) => if c.Injecting? then 1 else 0)
  }

  /** How far everything in flight is from the completer. */
  function StageMeter(): Meter {
    Meter((t: Option<Task>) => 4, (t: Task) => 4,
          (w: Worker) => if w.Working? then 3 else if w.Delivering? then 2 else 0,
          (r: Option<Tree>) => 1, (c: Completer) => if c.Injecting? then 5 else 0)
  }

  // - - -- --- ----- -------- Recorded blocks

  function Here(o: Option<Tree>, k: nat): nat {
    if o.Some? && Top(o.value) == k then 1 else 0
  }

  function IdleTo(row: seq<Option<Tree>>, n: nat): nat
    requires n <= |row|
  {
    if n == 0 then 0 else IdleTo(row, n - 1) + Here(row[n - 1], n - 1)
  }

  /** How many blocks are recorded. */
  function Idle(row: seq<Option<Tree>>): nat {
    IdleTo(row, |row|)
  }

  lemma {:induction false} IdleStore(row: seq<Option<Tree>>, k: nat, v: Option<Tree>, n: nat)
    requires k < |row| && n <= |row|
    ensures IdleTo(row[k := v], n) + (if k < n then Here(row[k], k) else 0) == IdleTo(row, n) + (if k < n then Here(v, k) else 0)
  {
    if n > 0 { IdleStore(row, k, v, n - 1); }
  }

  // - - -- --- ----- -------- Invariants

  function Sent(s: State): nat {
    match s.maker case Making => 0 case Ending(k) => k case Finished => |s.workers|
  }

  ghost predicate Sizes(s: State) {
    var n := |s.workers|;
    && n >= 1 && |s.row| >= 1 && s.count <= |s.row|
    && |s.regular| <= n && |s.priority| <= n && |s.results| <= n
    && (s.maker.Ending? ==> s.maker.sent < n) && (!s.maker.Making? ==> s.count == 0 && s.stop)
    && 1 <= s.active <= n && (s.completer.Closed? ==> s.active == 1)
  }

  /** The inductive bound of the unordered coordinator. */
  ghost predicate Bounded(s: State) {
    Gauge(s, LoadMeter()) <= 2 * |s.workers| + 1
  }

  /** Eof signals: what the maker sent is on its way or has ended a worker. */
  ghost predicate SignalsOut(s: State) {
    Sent(s) == Gauge(s, EofMeter()) + Gauge(s, GoneMeter())
  }

  /** What ended a worker is on its way to the completer or was collected. */
  ghost predicate SignalsBack(s: State) {
    Gauge(s, GoneMeter()) ==
    Gauge(s, EofResultMeter()) + (|s.workers| - s.active) + (if s.completer.Closed? then 1 else 0)
  }

  /** Every fuse, pending or done, has turned two blocks into one. */
  ghost predicate Conserved(s: State) {
    s.count + Gauge(s, UnitMeter()) + Idle(s.row) + Gauge(s, PendingMeter()) + s.fused == |s.row|
  }

  lemma SizesStep(s: State, step: Step)
    requires Sizes(s) && Enabled(s, step)
    ensures Sizes(Do(s, step))
  {
  }

  // What the steps do to single meters.

  predicate ForwardsEof(s: State, step: Step) {
    step.Deliver? && step.w < |s.workers| && s.workers[step.w] == Delivering(None)
  }

  /** The completer takes a block and turns it into a fuse task to inject. */
  predicate Hands(s: State, step: Step)
    requires Enabled(s, step)
  {
    step.TakeResult? && Do(s, step).completer.Injecting?
  }

  lemma EofDelta(s: State, step: Step)
    requires Enabled(s, step)
    ensures Gauge(Do(s, step), EofMeter()) + (if ForwardsEof(s, step) then 1 else 0)
         == Gauge(s, EofMeter()) + if step.SendEof? then 1 else 0
  {
    GaugeStep(s, step, EofMeter());
  }

  lemma GoneDelta(s: State, step: Step)
    requires Enabled(s, step)
    ensures Gauge(Do(s, step), GoneMeter()) == Gauge(s, GoneMeter()) + if ForwardsEof(s, step) then 1 else 0
  {
    GaugeStep(s, step, GoneMeter());
  }

  lemma EofResultDelta(s: State, step: Step)
    requires Enabled(s, step)
    ensures Gauge(Do(s, step), EofResultMeter()) + (if step.TakeResult? && s.results[0].None? then 1 else 0)
         == Gauge(s, EofResultMeter()) + if ForwardsEof(s, step) then 1 else 0
  {
    GaugeStep(s, step, EofResultMeter());
  }

  lemma UnitDelta(s: State, step: Step)
    requires Enabled(s, step)
    ensures Gauge(Do(s, step), UnitMeter()) + (if step.TakeResult? && s.results[0].Some? then 1 else 0)
         == Gauge(s, UnitMeter()) + (if step.IssueRow? then 1 else 0) + if Hands(s, step) then 1 else 0
  {
    GaugeStep(s, step, UnitMeter());
  }

  lemma PendingDelta(s: State, step: Step)
    requires Enabled(s, step)
    ensures Gauge(Do(s, step), PendingMeter()) + (if step.Work? then FuseOf(s.workers[step.w].task) else 0)
         == Gauge(s, PendingMeter()) + if Hands(s, step) then FuseOf(Do(s, step).completer.task) else 0
  {
    GaugeStep(s, step, PendingMeter());
  }

  lemma StageDelta(s: State, step: Step)
    requires Enabled(s, step)
    ensures Spins(s, step) || step.SeeStop? ==> Gauge(Do(s, step), StageMeter()) == Gauge(s, StageMeter())
    ensures step.IssueRow? || step.SendEof? ==> Gauge(Do(s, step), StageMeter()) == Gauge(s, StageMeter()) + 4
    ensures !Spins(s, step) && !step.IssueRow? && !step.SendEof? && !step.SeeStop? ==>
              Gauge(Do(s, step), StageMeter()) < Gauge(s, StageMeter()) + if Hands(s, step) then 5 else 0
  {
    GaugeStep(s, step, StageMeter());
  }

  lemma SignalsOutStep(s: State, step: Step)
    requires Sizes(s) && SignalsOut(s) && Enabled(s, step)
    ensures SignalsOut(Do(s, step))
  {
    EofDelta(s, step);
    GoneDelta(s, step);
  }

  lemma SignalsBackStep(s: State, step: Step)
    requires Sizes(s) && SignalsBack(s) && Enabled(s, step)
    ensures SignalsBack(Do(s, step))
  {
    GoneDelta(s, step);
    EofResultDelta(s, step);
  }

  lemma LoadWhenNoPriority(s: State)
    requires Sizes(s) && s.priority == []
    ensures Gauge(s, LoadMeter()) <= 2 * |s.workers| + 1
  {
    TotalAtMost(s.workers, LoadMeter().worker);
    TotalAtMost(s.results, LoadMeter().result);
    TotalZero(s.regular, LoadMeter().ticket);
  }

  /** Only a worker that has just seen the priority ring empty can push the load
      up, and then the other places leave room for it. */
  lemma BoundedStep(s: State, step: Step)
    requires Sizes(s) && Bounded(s) && Enabled(s, step)
    ensures Bounded(Do(s, step))
  {
    if step.PollPriority? && s.priority == [] {
      SizesStep(s, step);
      LoadWhenNoPriority(Do(s, step));
    } else {
      GaugeStep(s, step, LoadMeter());
    }
  }

  // - - -- --- ----- -------- Blocks and fuses

  lemma IdleAtEnds(row: seq<Option<Tree>>, t: Tree, v: Option<Tree>)
    requires Top(t) <= Bottom(t) < |row| && (v.None? || v == Some(t))
    requires row[Bottom(t)] == row[Top(t)] && (row[Top(t)].None? || row[Top(t)] == Some(t))
    ensures Idle(AtEnds(row, t, v)) + Here(row[Top(t)], Top(t)) == Idle(row) + Here(v, Top(t))
  {
    IdleStore(row, Top(t), v, |row|);
    IdleStore(row[Top(t) := v], Bottom(t), v, |row|);
  }

  lemma IdleReceive(row: seq<Option<Tree>>, live: Census, lo: nat, t: Tree)
    requires Arriving(row, live, lo, t)
    ensures Receive(row, t).inject.None? ==> Idle(Receive(row, t).row) == Idle(row) + 1
    ensures Receive(row, t).inject.Some? ==> Idle(Receive(row, t).row) + 1 == Idle(row)
  {
    ArrivingIsFresh(row, live, lo, t);
    FreshIsVacant(row, t);
    if Full(t, |row|) {
      IdleStore(row, 0, Some(t), |row|);
    } else if Top(t) > 0 && Occupied(row, Top(t) - 1) {
      assert AtHome(row, Top(t) - 1);
      IdleAtEnds(row, row[Top(t) - 1].value, None);
    } else if Bottom(t) < |row| - 1 && Occupied(row, Bottom(t) + 1) {
      assert AtHome(row, Bottom(t) + 1);
      IdleAtEnds(row, row[Bottom(t) + 1].value, None);
    } else {
      IdleAtEnds(row, t, Some(t));
    }
  }

  lemma IdleTake(s: State)
    requires Blocks(s) && Enabled(s, TakeResult) && s.results[0].Some?
    ensures Idle(Do(s, TakeResult).row) + (if Do(s, TakeResult).completer.Injecting? then 1 else 0)
         == Idle(s.row) + if Do(s, TakeResult).completer.Injecting? then 0 else 1
    ensures Do(s, TakeResult).completer.Injecting? ==> Do(s, TakeResult).completer.task.FuseTask?
    ensures |Do(s, TakeResult).row| == |s.row|
  {
    var t := s.results[0].value;
    ResultArrives(s, t);
    IdleReceive(s.row, Live(s), s.count, t);
    ReceiveEffect(s.row, Live(s), s.count, t);
  }

  lemma ConservedTake(s: State)
    requires Blocks(s) && Conserved(s) && Enabled(s, TakeResult) && s.results[0].Some?
    ensures Conserved(Do(s, TakeResult))
  {
    UnitDelta(s, TakeResult);
    PendingDelta(s, TakeResult);
    IdleTake(s);
  }

  lemma ConservedOther(s: State, step: Step)
    requires Conserved(s) && Enabled(s, step) && (step.TakeResult? ==> s.results[0].None?)
    ensures Conserved(Do(s, step))
  {
    UnitDelta(s, step);
    PendingDelta(s, step);
    assert Do(s, step).row == s.row && !Hands(s, step);
  }

  lemma ConservedStep(s: State, step: Step)
    requires Blocks(s) && Conserved(s) && Enabled(s, step)
    ensures Conserved(Do(s, step))
  {
    if step.TakeResult? && s.results[0].Some? { ConservedTake(s); } else { ConservedOther(s, step); }
  }

  // - - -- --- ----- -------- Progress

  /** The work left. Each unissued row will pass the stages up to the completer,
      and so will the block of each pair of live blocks. */
  function WorkLeft(s: State): nat {
    11 * s.count + 6 * (Gauge(s, UnitMeter()) + Idle(s.row)) + Gauge(s, StageMeter())
    + (if s.maker.Making? then 5 * |s.workers| + 1
       else if s.maker.Ending? && s.maker.sent <= |s.workers| then 5 * (|s.workers| - s.maker.sent) else 0)
  }

  /** Every step but a fruitless poll is progress, and a fruitless poll undoes
      none: a run takes only finitely many useful steps. */
  lemma ProgressStep(s: State, step: Step)
    requires Sizes(s) && Blocks(s) && Enabled(s, step)
    ensures !Spins(s, step) ==> WorkLeft(Do(s, step)) < WorkLeft(s)
    ensures Spins(s, step) ==> WorkLeft(Do(s, step)) == WorkLeft(s)
  {
    if step.TakeResult? && s.results[0].Some? { ProgressTake(s); } else { ProgressOther(s, step); }
  }

  lemma ProgressTake(s: State)
    requires Sizes(s) && Blocks(s) && Enabled(s, TakeResult) && s.results[0].Some?
    ensures WorkLeft(Do(s, TakeResult)) < WorkLeft(s)
  {
    UnitDelta(s, TakeResult);
    StageDelta(s, TakeResult);
    IdleTake(s);
  }

  lemma ProgressOther(s: State, step: Step)
    requires Sizes(s) && Enabled(s, step) && (step.TakeResult? ==> s.results[0].None?)
    ensures !Spins(s, step) ==> WorkLeft(Do(s, step)) < WorkLeft(s)
    ensures Spins(s, step) ==> WorkLeft(Do(s, step)) == WorkLeft(s)
  {
    UnitDelta(s, step);
    StageDelta(s, step);
  }
}
