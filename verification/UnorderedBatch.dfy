/** A batch run with the unordered coordinator, as used by the component and the
    column profile search: one maker, `workers` worker threads and the completer
    exchange tasks and results over bounded rings. Every ring operation is one
    atomic step, taken when the ring allows it; any enabled step of any thread
    may come next. */
module UnorderedBatch {
  import opened Totals
  import opened FuseTrees

  /** A task either generates the block of a row or fuses two blocks. */
  datatype Task = RowTask(y: nat) | FuseTask(a: Tree, b: Tree)

  /** The block a worker makes of a task. */
  function Product(t: Task): Tree {
    match t case RowTask(y) => Row(y) case FuseTask(a, b) => Fused(a, b)
  }

  /** Where a worker thread stands. In get_task it polls the priority ring first,
      and only when it saw that empty the regular ring. */
  datatype Worker =
    | Looking                          // about to poll the priority tasks
    | Polled                           // saw no priority task, about to poll the regular ones
    | Working(task: Task)
    | Delivering(result: Option<Tree>) // about to put a result, None is the forwarded eof
    | Gone

  datatype Maker =
    | Making           // issuing rows, then waiting for the stop flag
    | Ending(sent: nat) // gen_complete: eof tasks put so far
    | Finished

  datatype Completer =
    | Taking
    | Injecting(task: Task) // blocked in aktive_batch_inject until the task fits
    | Closed

  datatype State = State(
    count: nat,                 // rows still to issue
    stop: bool,
    maker: Maker,
    regular: seq<Option<Task>>, // None is the eof task
    priority: seq<Task>,
    workers: seq<Worker>,
    results: seq<Option<Tree>>,
    completer: Completer,
    active: nat,                // workers whose eof was not seen yet
    row: seq<Option<Tree>>,     // the adjacency array
    fused: nat)                 // fuse tasks executed so far

  function Init(workers: nat, height: nat): State {
    State(height, false, Making, [], [], seq(workers, _ => Looking), [], Taking, workers,
          seq(height, _ => None), 0)
  }

  // - - -- --- ----- -------- The completer callback

  /** What the callback does with a block: the new adjacency array, the fuse task
      to inject, if any, and whether the stop flag is raised. */
  datatype Verdict = Verdict(row: seq<Option<Tree>>, inject: Option<Task>, stop: bool)

  function Store(row: seq<Option<Tree>>, k: nat, v: Option<Tree>): seq<Option<Tree>> {
    if k < |row| then row[k := v] else row
  }

  /** Enter or remove a block at its two end indices. */
  function AtEnds(row: seq<Option<Tree>>, t: Tree, v: Option<Tree>): seq<Option<Tree>> {
    Store(Store(row, Top(t), v), Bottom(t), v)
  }

  predicate Occupied(row: seq<Option<Tree>>, k: int) {
    0 <= k < |row| && row[k].Some?
  }

  function Receive(row: seq<Option<Tree>>, t: Tree): Verdict {
    if Top(t) == 0 && Bottom(t) == |row| - 1 then
      Verdict(Store(row, 0, Some(t)), None, true)
    else if Top(t) > 0 && Occupied(row, Top(t) - 1) then
      var x := row[Top(t) - 1].value;
      Verdict(AtEnds(row, x, None), Some(FuseTask(x, t)), false)
    else if Bottom(t) < |row| - 1 && Occupied(row, Bottom(t) + 1) then
      var x := row[Bottom(t) + 1].value;
      Verdict(AtEnds(row, x, None), Some(FuseTask(t, x)), false)
    else
      Verdict(AtEnds(row, t, Some(t)), None, false)
  }

  // - - -- --- ----- -------- Steps

  datatype Step =
    | IssueRow             // maker: next row task into the regular ring
    | SeeStop              // maker: all rows issued and stop flag seen
    | SendEof              // maker: next eof task into the regular ring
    | PollPriority(w: nat)
    | PollRegular(w: nat)
    | Work(w: nat)
    | Deliver(w: nat)
    | TakeResult           // completer
    | Inject               // completer

  predicate Enabled(s: State, step: Step) {
    var n := |s.workers|;
    match step
    case IssueRow => s.maker.Making? && s.count > 0 && |s.regular| < n
    case SeeStop => s.maker.Making? && s.count == 0 && s.stop
    case SendEof => s.maker.Ending? && |s.regular| < n
    case PollPriority(w) => w < n && s.workers[w].Looking?
    case PollRegular(w) => w < n && s.workers[w].Polled?
    case Work(w) => w < n && s.workers[w].Working?
    case Deliver(w) => w < n && s.workers[w].Delivering? && |s.results| < n
    case TakeResult => s.completer.Taking? && s.results != []
    case Inject => s.completer.Injecting? && |s.priority| < n
  }

  /** A poll that finds its ring empty: get_task goes round its loop. */
  predicate Spins(s: State, step: Step) {
    (step.PollPriority? && s.priority == []) || (step.PollRegular? && s.regular == [])
  }

  function Do(s: State, step: Step): State
    requires Enabled(s, step)
  {
    match step
    case IssueRow => s.(count := s.count - 1, regular := s.regular + [Some(RowTask(s.count - 1))])
    case SeeStop => s.(maker := if |s.workers| == 0 then Finished else Ending(0))
    case SendEof =>
      s.(regular := s.regular + [None],
         maker := if s.maker.sent + 1 < |s.workers| then Ending(s.maker.sent + 1) else Finished)
    case PollPriority(w) =>
      if s.priority == [] then s.(workers := s.workers[w := Polled])
      else s.(priority := s.priority[1..], workers := s.workers[w := Working(s.priority[0])])
    case PollRegular(w) =>
      if s.regular == [] then s.(workers := s.workers[w := Looking])
      else s.(regular := s.regular[1..],
              workers := s.workers[w := if s.regular[0].Some? then Working(s.regular[0].value) else Delivering(None)])
    case Work(w) =>
      s.(workers := s.workers[w := Delivering(Some(Product(s.workers[w].task)))],
         fused := if s.workers[w].task.FuseTask? then s.fused + 1 else s.fused)
    case Deliver(w) =>
      s.(results := s.results + [s.workers[w].result],
         workers := s.workers[w := if s.workers[w].result.Some? then Looking else Gone])
    case TakeResult =>
      if s.results[0].Some? then
        var v := Receive(s.row, s.results[0].value);
        s.(results := s.results[1..], row := v.row, stop := s.stop || v.stop,
           completer := if v.inject.Some? then Injecting(v.inject.value) else Taking)
      else if s.active == 1 then s.(results := s.results[1..], completer := Closed)
      else s.(results := s.results[1..], active := if s.active == 0 then 0 else s.active - 1)
    case Inject => s.(priority := s.priority + [s.completer.task], completer := Taking)
  }

  /** The state after the given steps, if each of them was enabled in turn. */
  function Run(s: State, steps: seq<Step>): Option<State>
    decreases |steps|
  {
    if steps == [] then Some(s)
    else if Enabled(s, steps[0]) then Run(Do(s, steps[0]), steps[1..])
    else None
  }

  ghost predicate Reachable(workers: nat, height: nat, s: State) {
    exists steps :: Run(Init(workers, height), steps) == Some(s)
  }
}
