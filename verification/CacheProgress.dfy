/** The row cache gets on: no state of any run is one in which threads only go round
    in circles, and what they usefully do is bounded by what they ask for. */
module CacheProgress {
  import opened Totals
  import opened VectorCache

  // - - -- --- ----- -------- A vector that is there makes the next offset known

  ghost predicate HolderStored<R>(s: State<R>, i: nat)
    requires i < |s.lock|
  {
    s.lock[i].Some? && s.lock[i].value < |s.threads| && s.threads[s.lock[i].value].calls != []
    && s.threads[s.lock[i].value].calls[0].pc.Stored?
  }

  /** But for a thread that is just about to make it so. */
  ghost predicate LinkOk<R>(s: State<R>, i: nat)
    requires i < |s.area| && |s.start| == |s.area| + 1 && |s.lock| == |s.area|
  {
    s.area[i].Some? ==> s.start[i + 1] != 0 || HolderStored(s, i)
  }

  ghost predicate Linked<R>(s: State<R>, fill: nat -> (R, nat), start: nat) {
    Inv(s, fill, start) && forall i :: 0 <= i < |s.area| ==> LinkOk(s, i)
  }

  lemma LinkStep<R>(s: State<R>, step: Step, fill: nat -> (R, nat), start: nat, i: nat)
    requires Linked(s, fill, start) && Enabled(s, step) && i < |s.area|
    ensures var n := Do(s, step, fill); |n.start| == |n.area| + 1 && |n.lock| == |n.area| == |s.area| && LinkOk(n, i)
  {
    MoverFacts(s, fill, start, step.t);
    assert LinkOk(s, i) && Known(fill, start, i + 1);
  }

  lemma LinkedStep<R>(s: State<R>, step: Step, fill: nat -> (R, nat), start: nat)
    requires Linked(s, fill, start) && Enabled(s, step)
    ensures Linked(Do(s, step, fill), fill, start)
  {
    InvStep(s, step, fill, start);
    forall i: nat | i < |s.area| ensures LinkOk(Do(s, step, fill), i) {
      LinkStep(s, step, fill, start, i);
    }
  }

  lemma {:induction false} LinkedRun<R>(s: State<R>, steps: seq<Step>, fill: nat -> (R, nat), start: nat)
    requires Linked(s, fill, start) && Run(s, steps, fill).Some?
    ensures Linked(Run(s, steps, fill).value, fill, start)
    decreases |steps|
  {
    if steps != [] {
      LinkedStep(s, steps[0], fill, start);
      LinkedRun(Do(s, steps[0], fill), steps[1..], fill, start);
    }
  }

  lemma AfterLinked<R>(vectors: nat, start: nat, threads: nat, fill: nat -> (R, nat), steps: seq<Step>, s: State<R>)
    requires After(vectors, start, threads, fill, steps, s)
    ensures Linked(s, fill, start)
  {
    InvInit(vectors, start, threads, fill);
    LinkedRun(Init(vectors, start, threads), steps, fill, start);
  }

  // - - -- --- ----- -------- Steps in vain

  predicate There<R>(s: State<R>, i: nat) {
    i < |s.area| && s.area[i].Some?
  }

  predicate Unknown<R>(s: State<R>, i: nat) {
    i < |s.start| && s.start[i] == 0
  }

  /** Asking for a vector that is there already, as the next offset is not seen yet, and
      finding just that. */
  predicate Spins<R>(s: State<R>, step: Step) {
    && step.Move? && step.t < |s.threads| && s.threads[step.t].calls != []
    && var top := s.threads[step.t].calls[0];
       || (top.pc.Seeking? && Unknown(s, top.index) && top.index > 0 && There(s, top.index - 1))
       || (top.pc.Checking? && |s.threads[step.t].calls| > 1 && There(s, top.index))
  }

  predicate Useful<R>(s: State<R>, step: Step) {
    step.Move? && !Spins(s, step)
  }

  // - - -- --- ----- -------- No state without progress

  ghost predicate Progresses<R>(s: State<R>, step: Step, spin: Option<Step>, fill: nat -> (R, nat)) {
    if spin.None? then Enabled(s, step) && Useful(s, step)
    else Enabled(s, spin.value) && Spins(s, spin.value)
         && Enabled(Do(s, spin.value, fill), step) && Useful(Do(s, spin.value, fill), step)
  }

  /** Some thread can take a useful step, at once or after one in vain. */
  ghost predicate CanProgress<R>(s: State<R>, fill: nat -> (R, nat)) {
    exists step, spin :: Progresses(s, step, spin, fill)
  }

  /** A thread in a critical section can go on. */
  lemma HolderProgresses<R>(s: State<R>, fill: nat -> (R, nat), start: nat, i: nat)
    requires Linked(s, fill, start) && i < |s.lock| && s.lock[i].Some?
    ensures CanProgress(s, fill)
  {
    assert LockOk(s, i);
    assert ThreadOk(s, fill, start, s.lock[i].value);
    assert Progresses(s, Move(s.lock[i].value), None, fill);
  }

  /** When no thread is in one, any thread with a call under way can. */
  lemma CallerProgresses<R>(s: State<R>, fill: nat -> (R, nat), start: nat, t: nat)
    requires Linked(s, fill, start) && t < |s.threads| && s.threads[t].calls != []
    requires forall i :: 0 <= i < |s.lock| ==> s.lock[i].None?
    ensures CanProgress(s, fill)
  {
    MoverFacts(s, fill, start, t);
    assert Known(fill, start, 0);
    var calls := s.threads[t].calls;
    var i := calls[0].index;
    if i > 0 { assert LinkOk(s, i - 1); }
    if calls[0].pc.Checking? && |calls| > 1 && There(s, i) {
      var n := Do(s, Move(t), fill);
      assert calls[1].index == i + 1 && calls[1].pc.Seeking?;
      assert LinkOk(s, i);
      assert n.threads[t].calls == calls[1..];
      assert Progresses(s, Move(t), Some(Move(t)), fill);
    } else {
      assert Progresses(s, Move(t), None, fill);
    }
  }

  /** As long as a call is under way some thread can get something done. */
  lemma NoDeadlock<R>(vectors: nat, start: nat, threads: nat, fill: nat -> (R, nat), steps: seq<Step>, s: State<R>, t: nat)
    requires After(vectors, start, threads, fill, steps, s) && t < |s.threads| && s.threads[t].calls != []
    ensures CanProgress(s, fill)
  {
    AfterLinked(vectors, start, threads, fill, steps, s);
    if i :| 0 <= i < |s.lock| && s.lock[i].Some? {
      HolderProgresses(s, fill, start, i);
    } else {
      CallerProgresses(s, fill, start, t);
    }
  }

  // - - -- --- ----- -------- A bound on useful steps

  /** What a thread has left to do: the steps of its innermost call and of those that
      this may lead to further down the table, and of the calls that wait for it. */
  function Cost<R>(s: State<R>, th: Thread<R>): nat {
    if th.calls == [] then 0 else TopCost(s, th.calls[0], |th.calls| > 1) + 6 * (|th.calls| - 1)
  }

  function TopCost<R>(s: State<R>, top: Frame<R>, nested: bool): nat {
    match top.pc
    case Checking => if !There(s, top.index) then 7 + 8 * top.index else if nested then 0 else 1
    case Seeking => if Unknown(s, top.index) && top.index > 0 && !There(s, top.index - 1) then 6 + 8 * top.index else 6
    case Locking => 5
    case Rechecking => 4
    case Filled(_, _) => 3
    case Stored(_) => 2
    case Unlocking => 1
  }

  function WorkLeft<R>(s: State<R>): nat {
    Total(s.threads, th => Cost(s, th))
  }

  lemma {:induction false} TotalLess<T>(s: seq<T>, f: T -> nat, g: T -> nat, t: nat)
    requires t < |s| && forall i :: 0 <= i < |s| ==> g(s[i]) <= f(s[i])
    ensures Total(s, g) + f(s[t]) <= Total(s, f) + g(s[t])
    ensures Total(s, g) <= Total(s, f)
  {
    if t > 0 {
      TotalLess(s[1..], f, g, t - 1);
    } else if |s| > 1 {
      TotalLess(s[1..], f, g, 0);
    }
  }

  /** What the others have left to do does not grow. */
  lemma CostKept<R>(s: State<R>, step: Step, fill: nat -> (R, nat), start: nat, th: Thread<R>)
    requires Linked(s, fill, start) && Enabled(s, step)
    ensures Cost(Do(s, step, fill), th) <= Cost(s, th)
  {
    MoverFacts(s, fill, start, step.t);
    forall i: nat ensures There(s, i) ==> There(Do(s, step, fill), i) {
    }
    forall i: nat ensures Unknown(Do(s, step, fill), i) ==> Unknown(s, i) {
      assert Known(fill, start, i);
    }
  }

  /** What a call may add. */
  function Allowance(step: Step): nat {
    if step.Call? then 8 * step.index + 7 else 0
  }

  lemma CostSpent<R>(s: State<R>, step: Step, fill: nat -> (R, nat), start: nat)
    requires Linked(s, fill, start) && Enabled(s, step)
    ensures var n := Do(s, step, fill);
            step.t < |n.threads| &&
            Cost(n, n.threads[step.t]) + (if Useful(s, step) then 1 else 0) <= Cost(s, s.threads[step.t]) + Allowance(step)
  {
    MoverFacts(s, fill, start, step.t);
  }

  lemma WorkLeftStep<R>(s: State<R>, step: Step, fill: nat -> (R, nat), start: nat)
    requires Linked(s, fill, start) && Enabled(s, step)
    ensures WorkLeft(Do(s, step, fill)) + (if Useful(s, step) then 1 else 0) <= WorkLeft(s) + Allowance(step)
  {
    var n, t := Do(s, step, fill), step.t;
    var f, g := (th: Thread<R>) => Cost(s, th), (th: Thread<R>) => Cost(n, th);
    forall i | 0 <= i < |s.threads| ensures g(s.threads[i]) <= f(s.threads[i]) {
      CostKept(s, step, fill, start, s.threads[i]);
    }
    TotalLess(s.threads, f, g, t);
    CostSpent(s, step, fill, start);
    assert n.threads == s.threads[t := n.threads[t]];
    TotalUpdate(s.threads, t, n.threads[t], g);
  }

  function UsefulSteps<R>(s: State<R>, steps: seq<Step>, fill: nat -> (R, nat)): nat
    requires Run(s, steps, fill).Some?
    decreases |steps|
  {
    if steps == [] then 0
    else (if Useful(s, steps[0]) then 1 else 0) + UsefulSteps(Do(s, steps[0], fill), steps[1..], fill)
  }

  function Allowances(steps: seq<Step>): nat {
    if steps == [] then 0 else Allowance(steps[0]) + Allowances(steps[1..])
  }

  lemma {:induction false} UsefulStepsBounded<R>(s: State<R>, steps: seq<Step>, fill: nat -> (R, nat), start: nat)
    requires Linked(s, fill, start) && Run(s, steps, fill).Some?
    ensures UsefulSteps(s, steps, fill) + WorkLeft(Run(s, steps, fill).value) <= WorkLeft(s) + Allowances(steps)
    decreases |steps|
  {
    if steps != [] {
      WorkLeftStep(s, steps[0], fill, start);
      LinkedStep(s, steps[0], fill, start);
      UsefulStepsBounded(Do(s, steps[0], fill), steps[1..], fill, start);
    }
  }

  /** Whatever the schedule, a run takes no more useful steps than 8 * i + 7 for each
      vector i that was asked for. */
  lemma Terminates<R>(vectors: nat, start: nat, threads: nat, fill: nat -> (R, nat), steps: seq<Step>)
    requires Headed(fill, start) && Run(Init(vectors, start, threads), steps, fill).Some?
    ensures UsefulSteps(Init(vectors, start, threads), steps, fill) <= Allowances(steps)
  {
    var s := Init(vectors, start, threads);
    InvInit(vectors, start, threads, fill);
    TotalZero(s.threads, th => Cost(s, th));
    UsefulStepsBounded(s, steps, fill, start);
  }
}
