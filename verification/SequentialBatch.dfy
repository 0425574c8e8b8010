/** A batch run with the sequential coordinator: maker, workers and completer
    exchange tasks, idle workers, the pickup order and results over bounded rings.
    Every ring operation is one atomic step, taken when the ring allows it; any
    enabled step of any thread may come next. */
module SequentialBatch {
  import opened Totals

  /** What goes over task and result rings: the number of a task, or of the task a
      result belongs to, and None for the null pointer that signals eof. */
  type Item = Option<nat>

  datatype Maker =
    | Choosing          // about to take an idle worker
    | Chosen(w: nat)    // about to put it into the pickup ring
    | Handing(w: nat)   // about to put the task into the worker's ring
    | Finished

  /** Where a worker thread stands. */
  datatype Worker =
    | Waiting           // in get_task
    | Working(task: nat)
    | Returning(task: nat) // set_result, about to put the result
    | Resting           // set_result, about to report idle
    | Forwarding        // set_result of the eof
    | Gone

  datatype Completer =
    | Picking               // get_result, about to take the next worker
    | Collecting(w: nat)    // about to take that worker's result
    | Closed

  datatype State = State(
    tasks: nat,              // tasks the maker is going to generate
    maker: Maker,
    drained: bool,           // gen_complete saw no idle worker, it waits for them from then on
    idle: seq<nat>,          // worker_idle
    pickup: seq<nat>,
    task: seq<seq<Item>>,    // per worker
    workers: seq<Worker>,
    result: seq<seq<Item>>,  // per worker
    completer: Completer,
    active: nat,
    issued: seq<nat>,        // history: the worker of each task and eof put, in order
    returned: seq<nat>,      // history: the non-null results of get_result, in order
    nulls: nat)              // history: null results taken

  function Init(workers: nat, tasks: nat): State {
    State(tasks, Choosing, false, seq(workers, w => w), [], seq(workers, _ => []), seq(workers, _ => Waiting),
          seq(workers, _ => []), Picking, workers, [], [], 0)
  }

  /** What the maker hands out as entry number `e`: the tasks, then eof. */
  function ItemOf(tasks: nat, e: nat): Item {
    if e < tasks then Some(e) else None
  }

  datatype Step =
    | TakeIdle                 // maker: gen_regular, gen_complete
    | SeeNoneIdle              // maker: end of the first loop of gen_complete
    | PutPickup                // maker
    | PutTask                  // maker
    | TakeTask(w: nat)
    | Work(w: nat)
    | PutResult(w: nat)
    | PutIdle(w: nat)
    | Forward(w: nat)
    | TakePickup               // completer
    | TakeResult               // completer

  predicate Enabled(s: State, step: Step) {
    var n := |s.workers|;
    match step
    case TakeIdle => s.maker.Choosing? && s.idle != []
    case SeeNoneIdle => s.maker.Choosing? && |s.issued| >= s.tasks && !s.drained && s.idle == []
    case PutPickup => s.maker.Chosen? && |s.pickup| < n
    case PutTask => s.maker.Handing? && s.maker.w < |s.task| && |s.task[s.maker.w]| < 3 && s.issued != []
    case TakeTask(w) => w < n && s.workers[w].Waiting? && w < |s.task| && s.task[w] != []
    case Work(w) => w < n && s.workers[w].Working?
    case PutResult(w) => w < n && s.workers[w].Returning? && w < |s.result| && |s.result[w]| < n
    case PutIdle(w) => w < n && s.workers[w].Resting? && |s.idle| < n + 2
    case Forward(w) => w < n && s.workers[w].Forwarding? && w < |s.result| && |s.result[w]| < n
    case TakePickup => s.completer.Picking? && s.pickup != []
    case TakeResult => s.completer.Collecting? && s.completer.w < |s.result| && s.result[s.completer.w] != []
  }

  function Do(s: State, step: Step): State
    requires Enabled(s, step)
  {
    match step
    case TakeIdle => s.(idle := s.idle[1..], maker := Chosen(s.idle[0]))
    case SeeNoneIdle => s.(drained := true)
    case PutPickup => s.(pickup := s.pickup + [s.maker.w], issued := s.issued + [s.maker.w], maker := Handing(s.maker.w))
    case PutTask =>
      var w := s.maker.w;
      s.(task := s.task[w := s.task[w] + [ItemOf(s.tasks, |s.issued| - 1)]],
         maker := if |s.issued| == s.tasks + |s.workers| then Finished else Choosing)
    case TakeTask(w) =>
      s.(task := s.task[w := s.task[w][1..]],
         workers := s.workers[w := if s.task[w][0].Some? then Working(s.task[w][0].value) else Forwarding])
    case Work(w) => s.(workers := s.workers[w := Returning(s.workers[w].task)])
    case PutResult(w) =>
      s.(result := s.result[w := s.result[w] + [Some(s.workers[w].task)]], workers := s.workers[w := Resting])
    case PutIdle(w) => s.(idle := s.idle + [w], workers := s.workers[w := Waiting])
    case Forward(w) => s.(result := s.result[w := s.result[w] + [None]], workers := s.workers[w := Gone])
    case TakePickup => s.(pickup := s.pickup[1..], completer := Collecting(s.pickup[0]))
    case TakeResult =>
      var w := s.completer.w;
      var rest := s.(result := s.result[w := s.result[w][1..]]);
      if s.result[w][0].Some? then rest.(returned := s.returned + [s.result[w][0].value], completer := Picking)
      else if s.active == 1 then rest.(nulls := s.nulls + 1, completer := Closed)
      else rest.(nulls := s.nulls + 1, completer := Picking, active := if s.active == 0 then 0 else s.active - 1)
  }

  /** The state after the given steps, if each of them was enabled in turn. */
  function Run(s: State, steps: seq<Step>): Option<State>
    decreases |steps|
  {
    if steps == [] then Some(s)
    else if Enabled(s, steps[0]) then Run(Do(s, steps[0]), steps[1..])
    else None
  }

  ghost predicate Reachable(workers: nat, tasks: nat, s: State) {
    exists steps :: Run(Init(workers, tasks), steps) == Some(s)
  }
}
