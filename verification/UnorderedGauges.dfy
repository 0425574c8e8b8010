/** Sums over everything in flight in an unordered batch run, and how each step
    changes them. */
module UnorderedGauges {
  import opened Totals
  import opened FuseTrees
  import opened UnorderedBatch

  /** What to count for each thing in flight. */
  datatype Meter = Meter(
    ticket: Option<Task> -> nat,
    task: Task -> nat,
    worker: Worker -> nat,
    result: Option<Tree> -> nat,
    hand: Completer -> nat)

  function Gauge(s: State, m: Meter): nat {
    Total(s.regular, m.ticket) + Total(s.priority, m.task) + Total(s.workers, m.worker)
    + Total(s.results, m.result) + m.hand(s.completer)
  }

  /** The parts of a state a step leaves behind and puts in place. */
  function Removed(s: State, step: Step, m: Meter): nat
    requires Enabled(s, step)
  {
    match step
    case IssueRow => 0
    case SeeStop => 0
    case SendEof => 0
    case PollPriority(w) => m.worker(Looking) + if s.priority == [] then 0 else m.task(s.priority[0])
    case PollRegular(w) => m.worker(Polled) + if s.regular == [] then 0 else m.ticket(s.regular[0])
    case Work(w) => m.worker(s.workers[w])
    case Deliver(w) => m.worker(s.workers[w])
    case TakeResult => m.result(s.results[0]) + m.hand(Taking)
    case Inject => m.hand(s.completer)
  }

  function Added(s: State, step: Step, m: Meter): nat
    requires Enabled(s, step)
  {
    var next := Do(s, step);
    match step
    case IssueRow => m.ticket(Some(RowTask(s.count - 1)))
    case SeeStop => 0
    case SendEof => m.ticket(None)
    case PollPriority(w) => m.worker(next.workers[w])
    case PollRegular(w) => m.worker(next.workers[w])
    case Work(w) => m.worker(next.workers[w])
    case Deliver(w) => m.worker(next.workers[w]) + m.result(s.workers[w].result)
    case TakeResult => m.hand(next.completer)
    case Inject => m.task(s.completer.task) + m.hand(Taking)
  }

  lemma GaugeStep(s: State, step: Step, m: Meter)
    requires Enabled(s, step)
    ensures Gauge(Do(s, step), m) + Removed(s, step, m) == Gauge(s, m) + Added(s, step, m)
  {
    var next := Do(s, step);
    match step
    case IssueRow => TotalAppend(s.regular, Some(RowTask(s.count - 1)), m.ticket);
    case SeeStop =>
    case SendEof => TotalAppend(s.regular, None, m.ticket);
    case PollPriority(w) => TotalUpdate(s.workers, w, next.workers[w], m.worker);
    case PollRegular(w) => TotalUpdate(s.workers, w, next.workers[w], m.worker);
    case Work(w) => TotalUpdate(s.workers, w, next.workers[w], m.worker);
    case Deliver(w) =>
      TotalUpdate(s.workers, w, next.workers[w], m.worker);
      TotalAppend(s.results, s.workers[w].result, m.result);
    case TakeResult =>
    case Inject => TotalAppend(s.priority, s.completer.task, m.task);
  }

  // - - -- --- ----- -------- Live blocks

  function Makes(t: Task, u: Tree): nat {
    if Product(t) == u then 1 else 0
  }

  /** Counts the copies of a block being made or on their way to the completer. */
  function TreeMeter(u: Tree): Meter {
    Meter((t: Option<Task>) => if t.Some? then Makes(t.value, u) else 0,
          (t: Task) => Makes(t, u),
          (w: Worker) => match w
             case Working(t) => Makes(t, u)
             case Delivering(r) => if r == Some(u) then 1 else 0
             case _ => 0,
          (r: Option<Tree>) => if r == Some(u) then 1 else 0,
          (c: Completer) => if c.Injecting? then Makes(c.task, u) else 0)
  }

  /** Moving work around neither creates nor loses a block; issuing a row adds
      one, and the completer gets hold of the block it takes. */
  lemma InFlightStep(s: State, step: Step, u: Tree)
    requires Enabled(s, step)
    ensures !step.IssueRow? && !step.TakeResult? ==> Gauge(Do(s, step), TreeMeter(u)) == Gauge(s, TreeMeter(u))
    ensures step.IssueRow? ==> Gauge(Do(s, step), TreeMeter(u)) == Gauge(s, TreeMeter(u)) + if u == Row(s.count - 1) then 1 else 0
    ensures step.TakeResult? ==>
              Gauge(Do(s, step), TreeMeter(u)) + (if s.results[0] == Some(u) then 1 else 0)
              == Gauge(s, TreeMeter(u)) + TreeMeter(u).hand(Do(s, step).completer)
  {
    GaugeStep(s, step, TreeMeter(u));
  }
}
