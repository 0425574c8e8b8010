/** The sequential batch run as a whole: results come in the order of the tasks, no
    schedule can get it stuck, every schedule ends and leaves all rings empty. */
module SequentialRuns {
  import opened Totals
  import opened SequentialBatch

  // - - -- --- ----- -------- Invariants

  ghost predicate Sizes(s: State) {
    var n := |s.workers|;
    && n >= 1 && |s.task| == n && |s.result| == n && |s.issued| <= s.tasks + n
    && (forall i :: 0 <= i < |s.issued| ==> s.issued[i] < n)
    && (forall i :: 0 <= i < |s.idle| ==> s.idle[i] < n)
    && match s.maker
       case Choosing => |s.issued| < s.tasks + n
       case Chosen(w) => w < n && |s.issued| < s.tasks + n
       case Handing(w) => w < n && s.issued != [] && s.issued[|s.issued|-1] == w
       case Finished => |s.issued| == s.tasks + n
  }

  /** Number of results, null or not, the completer has taken. */
  function Position(s: State): nat {
    |s.returned| + s.nulls
  }

  /** The completer has taken the results of a prefix of what was issued, first
      those of the tasks, in order, then the null results. */
  ghost predicate Log(s: State) {
    var n, ahead := |s.workers|, if s.completer.Collecting? then 1 else 0;
    && Position(s) + ahead <= |s.issued| && s.pickup == s.issued[Position(s) + ahead..]
    && (s.completer.Collecting? ==> s.issued[Position(s)] == s.completer.w)
    && (forall i :: 0 <= i < |s.returned| ==> s.returned[i] == i)
    && |s.returned| <= s.tasks && (s.nulls == 0 || |s.returned| == s.tasks)
    && s.nulls <= n && (s.completer.Closed? <==> s.nulls == n)
    && s.active == if s.completer.Closed? then 1 else n - s.nulls
  }

  function Hand(worker: Worker): seq<Item> {
    match worker
    case Working(t) => [Some(t)]
    case Returning(t) => [Some(t)]
    case Forwarding => [None]
    case _ => []
  }

  function MakerHand(s: State, w: nat): seq<Item> {
    if s.maker == Handing(w) && s.issued != [] then [ItemOf(s.tasks, |s.issued| - 1)] else []
  }

  /** Everything under way between maker and completer by worker w, oldest first. */
  function Queue(s: State, w: nat): seq<Item>
    requires w < |s.workers| && w < |s.task| && w < |s.result|
  {
    s.result[w] + Hand(s.workers[w]) + s.task[w] + MakerHand(s, w)
  }

  /** The entries from number `from` on that were issued to worker w. */
  function Mine(tasks: nat, issued: seq<nat>, from: nat, w: nat): seq<Item>
    decreases |issued| - from
  {
    if from >= |issued| then []
    else (if issued[from] == w then [ItemOf(tasks, from)] else []) + Mine(tasks, issued, from + 1, w)
  }

  /** Nothing is lost, doubled or reordered on the way of any worker. */
  ghost predicate Queues(s: State) {
    Sizes(s) && forall w :: 0 <= w < |s.workers| ==> Queue(s, w) == Mine(s.tasks, s.issued, Position(s), w)
  }

  /** In how many places worker w is: reported idle, held by the maker, provided with
      a task, or not waiting. */
  function Token(s: State, w: nat): nat
    requires w < |s.workers| && w < |s.task|
  {
    (if w in s.idle then 1 else 0) + (if s.maker == Chosen(w) || s.maker == Handing(w) then 1 else 0)
    + |s.task[w]| + (if s.workers[w].Waiting? then 0 else 1)
  }

  ghost predicate Unique(s: seq<nat>) {
    forall i, j :: 0 <= i < j < |s| ==> s[i] != s[j]
  }

  ghost predicate Tokens(s: State) {
    Sizes(s) && Unique(s.idle) && forall w :: 0 <= w < |s.workers| ==> Token(s, w) == 1
  }

  /** Worker w can still be given a task. */
  predicate Live(s: State, w: nat)
    requires w < |s.workers| && w < |s.task|
  {
    || w in s.idle || s.maker == Chosen(w) || (s.maker == Handing(w) && |s.issued| <= s.tasks)
    || (s.task[w] != [] && s.task[w][0].Some?)
    || s.workers[w].Working? || s.workers[w].Returning? || s.workers[w].Resting?
  }

  /** Worker w was issued its eof. */
  ghost predicate Retired(tasks: nat, issued: seq<nat>, w: nat) {
    exists e :: tasks <= e < |issued| && issued[e] == w
  }

  /** The workers issued their eof are just those that will not come back. */
  ghost predicate Ends(s: State) {
    && Sizes(s)
    && (forall e, f :: s.tasks <= e < f < |s.issued| ==> s.issued[e] != s.issued[f])
    && (forall w :: 0 <= w < |s.workers| ==> (Retired(s.tasks, s.issued, w) <==> !Live(s, w)))
  }

  ghost predicate Inv(s: State) {
    Sizes(s) && Log(s) && Queues(s) && Tokens(s) && Ends(s)
  }

  // - - -- --- ----- -------- Every step keeps them

  lemma {:induction false} MineAppend(tasks: nat, issued: seq<nat>, from: nat, v: nat, w: nat)
    requires from <= |issued|
    ensures Mine(tasks, issued + [v], from, w) ==
            Mine(tasks, issued, from, w) + if v == w then [ItemOf(tasks, |issued|)] else []
    decreases |issued| - from
  {
    if from < |issued| { MineAppend(tasks, issued, from + 1, v, w); }
  }

  /** What the completer finds first in the ring it looks into is the result of the
      next entry issued. */
  lemma NextResult(s: State)
    requires Log(s) && Queues(s) && Enabled(s, TakeResult)
    ensures s.result[s.completer.w][0] == ItemOf(s.tasks, Position(s))
  {
    var w := s.completer.w;
    assert Queue(s, w)[0] == s.result[w][0];
  }

  lemma SizesStep(s: State, step: Step)
    requires Sizes(s) && Enabled(s, step)
    ensures Sizes(Do(s, step)) && |Do(s, step).workers| == |s.workers| && Do(s, step).tasks == s.tasks
  {
  }

  lemma LogIssue(s: State)
    requires Log(s) && Enabled(s, PutPickup)
    ensures Log(Do(s, PutPickup))
  {
    var at := Position(s) + if s.completer.Collecting? then 1 else 0;
    assert (s.issued + [s.maker.w])[at..] == s.issued[at..] + [s.maker.w];
  }

  lemma LogPick(s: State)
    requires Log(s) && Enabled(s, TakePickup)
    ensures Log(Do(s, TakePickup))
  {
  }

  lemma LogCollect(s: State)
    requires Log(s) && Enabled(s, TakeResult) && s.result[s.completer.w][0] == ItemOf(s.tasks, Position(s))
    ensures Log(Do(s, TakeResult))
  {
  }

  lemma LogStep(s: State, step: Step)
    requires Log(s) && Queues(s) && Enabled(s, step)
    ensures Log(Do(s, step))
  {
    if step.PutPickup? {
      LogIssue(s);
    } else if step.TakePickup? {
      LogPick(s);
    } else if step.TakeResult? {
      NextResult(s);
      LogCollect(s);
    } else {
      LogOther(s, step);
    }
  }

  lemma LogOther(s: State, step: Step)
    requires Log(s) && Enabled(s, step) && !step.PutPickup? && !step.TakePickup? && !step.TakeResult?
    ensures Log(Do(s, step))
  {
    var t := Do(s, step);
    assert t.issued == s.issued && t.pickup == s.pickup && t.returned == s.returned && t.nulls == s.nulls;
    assert t.completer == s.completer && t.active == s.active && t.tasks == s.tasks && |t.workers| == |s.workers|;
  }

  /** Handing something on does not change what is under way. */
  lemma QueueKept(s: State, step: Step, w: nat)
    requires Sizes(s) && Enabled(s, step) && !step.PutPickup? && !step.TakeResult? && w < |s.workers|
    ensures Sizes(Do(s, step)) && Queue(Do(s, step), w) == Queue(s, w)
  {
    SizesStep(s, step);
    if step.PutTask? {
      if s.maker.w == w {
        assert Queue(Do(s, step), w) == s.result[w] + Hand(s.workers[w]) + (s.task[w] + [ItemOf(s.tasks, |s.issued| - 1)]) + [];
      }
    } else if step.TakeTask? && step.w == w {
      assert s.task[w] == [s.task[w][0]] + s.task[w][1..];
    }
  }

  lemma QueuesStep(s: State, step: Step)
    requires Log(s) && Queues(s) && Enabled(s, step)
    ensures Queues(Do(s, step))
  {
    SizesStep(s, step);
    var t := Do(s, step);
    forall w | 0 <= w < |t.workers| ensures Queue(t, w) == Mine(t.tasks, t.issued, Position(t), w) {
      if step.PutPickup? {
        QueueIssued(s, w);
      } else if step.TakeResult? {
        QueueCollected(s, w);
      } else {
        QueueKept(s, step, w);
      }
    }
  }

  lemma QueueIssued(s: State, w: nat)
    requires Log(s) && Queues(s) && Enabled(s, PutPickup) && w < |s.workers|
    ensures var t := Do(s, PutPickup); Sizes(t) && Queue(t, w) == Mine(t.tasks, t.issued, Position(t), w)
  {
    SizesStep(s, PutPickup);
    MineAppend(s.tasks, s.issued, Position(s), s.maker.w, w);
    assert Queue(s, w) == Mine(s.tasks, s.issued, Position(s), w);
  }

  lemma CollectedHead(s: State, w: nat)
    requires Sizes(s) && Enabled(s, TakeResult) && w < |s.workers|
    ensures Sizes(Do(s, TakeResult))
    ensures Queue(s, w) == (if s.completer.w == w then [s.result[w][0]] else []) + Queue(Do(s, TakeResult), w)
  {
    var t := Do(s, TakeResult);
    SizesStep(s, TakeResult);
    assert t.task == s.task && t.workers == s.workers && t.maker == s.maker && t.issued == s.issued && t.tasks == s.tasks;
    assert MakerHand(t, w) == MakerHand(s, w);
    if s.completer.w == w {
      assert t.result[w] == s.result[w][1..];
      Regroup(s.result[w], Hand(s.workers[w]), s.task[w], MakerHand(s, w));
    } else {
      assert t.result[w] == s.result[w];
    }
  }

  lemma Regroup(r: seq<Item>, h: seq<Item>, q: seq<Item>, m: seq<Item>)
    requires r != []
    ensures r + h + q + m == [r[0]] + (r[1..] + h + q + m)
  {
  }

  lemma CollectedPosition(s: State)
    requires Enabled(s, TakeResult)
    ensures var t := Do(s, TakeResult); Position(t) == Position(s) + 1 && t.issued == s.issued && t.tasks == s.tasks
  {
  }

  lemma QueueCollected(s: State, w: nat)
    requires Log(s) && Queues(s) && Enabled(s, TakeResult) && w < |s.workers|
    ensures var t := Do(s, TakeResult); Sizes(t) && Queue(t, w) == Mine(t.tasks, t.issued, Position(t), w)
  {
    NextResult(s);
    CollectedHead(s, w);
    CollectedPosition(s);
    MineTail(s.tasks, s.issued, Position(s), w, Queue(Do(s, TakeResult), w));
  }

  lemma MineTail(tasks: nat, issued: seq<nat>, from: nat, w: nat, rest: seq<Item>)
    requires from < |issued|
    requires Mine(tasks, issued, from, w) == (if issued[from] == w then [ItemOf(tasks, from)] else []) + rest
    ensures rest == Mine(tasks, issued, from + 1, w)
  {
    var head := if issued[from] == w then [ItemOf(tasks, from)] else [];
    assert rest == (head + rest)[|head|..];
    assert (head + Mine(tasks, issued, from + 1, w))[|head|..] == Mine(tasks, issued, from + 1, w);
  }

  lemma TokensStep(s: State, step: Step)
    requires Tokens(s) && Enabled(s, step)
    ensures Tokens(Do(s, step))
  {
    SizesStep(s, step);
    IdleStep(s, step);
    forall w | 0 <= w < |s.workers| ensures Token(Do(s, step), w) == 1 {
      TokenKept(s, step, w);
    }
  }

  lemma IdleStep(s: State, step: Step)
    requires Tokens(s) && Enabled(s, step)
    ensures Unique(Do(s, step).idle)
  {
    if step.PutIdle? { assert Token(s, step.w) == 1; }
  }

  /** The worker just moves from one place to the next. */
  lemma TokenKept(s: State, step: Step, w: nat)
    requires Tokens(s) && Enabled(s, step) && w < |s.workers|
    ensures Sizes(Do(s, step)) && Token(Do(s, step), w) == 1
  {
    SizesStep(s, step);
    assert Token(s, w) == 1;
    if step.TakeIdle? {
      assert s.idle == [s.idle[0]] + s.idle[1..];
      assert s.idle[0] !in s.idle[1..];
    }
  }

  lemma RetiredAppend(tasks: nat, issued: seq<nat>, v: nat, w: nat)
    ensures Retired(tasks, issued + [v], w) <==> Retired(tasks, issued, w) || (|issued| >= tasks && v == w)
  {
    if Retired(tasks, issued, w) {
      var e :| tasks <= e < |issued| && issued[e] == w;
      assert (issued + [v])[e] == w;
    }
    if |issued| >= tasks && v == w { assert (issued + [v])[|issued|] == w; }
  }

  lemma EndsStep(s: State, step: Step)
    requires Tokens(s) && Ends(s) && Enabled(s, step)
    ensures Ends(Do(s, step))
  {
    SizesStep(s, step);
    if step.PutPickup? { assert Live(s, s.maker.w); }
    forall w | 0 <= w < |s.workers| ensures Retired(s.tasks, Do(s, step).issued, w) <==> !Live(Do(s, step), w) {
      LiveKept(s, step, w);
    }
  }

  lemma LiveKept(s: State, step: Step, w: nat)
    requires Tokens(s) && Ends(s) && Enabled(s, step) && w < |s.workers|
    ensures Sizes(Do(s, step)) && (Retired(s.tasks, Do(s, step).issued, w) <==> !Live(Do(s, step), w))
  {
    SizesStep(s, step);
    assert Token(s, w) == 1 && (Retired(s.tasks, s.issued, w) <==> !Live(s, w));
    if step.PutPickup? {
      RetiredAppend(s.tasks, s.issued, s.maker.w, w);
    } else {
      LiveSame(s, step, w);
    }
  }

  lemma LiveSame(s: State, step: Step, w: nat)
    requires Tokens(s) && Enabled(s, step) && w < |s.workers| && !step.PutPickup?
    ensures Sizes(Do(s, step)) && (Live(Do(s, step), w) <==> Live(s, w))
  {
    SizesStep(s, step);
    assert Token(s, w) == 1;
    if step.TakeIdle? { assert s.idle == [s.idle[0]] + s.idle[1..]; }
  }

  lemma InvStep(s: State, step: Step)
    requires Inv(s) && Enabled(s, step)
    ensures Inv(Do(s, step)) && |Do(s, step).workers| == |s.workers| && Do(s, step).tasks == s.tasks
  {
    SizesStep(s, step);
    LogStep(s, step);
    QueuesStep(s, step);
    TokensStep(s, step);
    EndsStep(s, step);
  }

  lemma InvInit(workers: nat, tasks: nat)
    requires workers >= 1
    ensures Inv(Init(workers, tasks))
  {
    forall w | 0 <= w < workers { InitAt(workers, tasks, w); }
  }

  lemma InitAt(workers: nat, tasks: nat, w: nat)
    requires w < workers
    ensures var s := Init(workers, tasks);
            && Sizes(s) && Token(s, w) == 1 && Live(s, w) && !Retired(s.tasks, s.issued, w)
            && Queue(s, w) == Mine(s.tasks, s.issued, Position(s), w)
  {
    assert Init(workers, tasks).idle[w] == w;
  }

  lemma {:induction false} InvRun(s: State, steps: seq<Step>)
    requires Inv(s) && Run(s, steps).Some?
    ensures var t := Run(s, steps).value; Inv(t) && |t.workers| == |s.workers| && t.tasks == s.tasks
    decreases |steps|
  {
    if steps != [] {
      InvStep(s, steps[0]);
      InvRun(Do(s, steps[0]), steps[1..]);
    }
  }

  /** The invariants hold in every state of every run. */
  lemma ReachableInv(workers: nat, tasks: nat, s: State)
    requires workers >= 1 && Reachable(workers, tasks, s)
    ensures Inv(s) && |s.workers| == workers && s.tasks == tasks
  {
    var steps :| Run(Init(workers, tasks), steps) == Some(s);
    InvInit(workers, tasks);
    InvRun(Init(workers, tasks), steps);
  }

  // - - -- --- ----- -------- Rings

  /** However the threads are scheduled, a task ring never holds more than one of
      the three entries it has room for, and reporting idle never waits. */
  lemma RingsBounded(workers: nat, tasks: nat, s: State, w: nat)
    requires workers >= 1 && Reachable(workers, tasks, s) && w < workers
    ensures w < |s.task| && |s.task[w]| <= 1
    ensures |s.idle| <= workers
  {
    ReachableInv(workers, tasks, s);
    assert Token(s, w) == 1;
    Pigeons(s.idle, workers);
  }

  /** Different numbers below n: at most n of them, and if there are n then all. */
  lemma {:induction false} Pigeons(s: seq<nat>, n: nat)
    requires Unique(s) && forall i :: 0 <= i < |s| ==> s[i] < n
    ensures |s| <= n
    ensures |s| == n ==> forall k :: 0 <= k < n ==> k in s
    decreases n
  {
    if s != [] {
      assert s[0] < n;
      if n - 1 in s {
        var i :| 0 <= i < |s| && s[i] == n - 1;
        var rest := s[..i] + s[i+1..];
        forall j | 0 <= j < |rest| ensures rest[j] < n - 1 {
          assert rest[j] == s[if j < i then j else j + 1];
        }
        Pigeons(rest, n - 1);
        assert forall k :: k in rest ==> k in s;
      } else {
        assert forall i :: 0 <= i < |s| ==> s[i] in s;
        Pigeons(s, n - 1);
      }
    }
  }

  // - - -- --- ----- -------- Order

  function Images<T, R>(tasks: seq<T>, work: T -> R): (images: seq<R>)
    ensures |images| == |tasks| && forall i :: 0 <= i < |tasks| ==> images[i] == work(tasks[i])
  {
    seq(|tasks|, i requires 0 <= i < |tasks| => work(tasks[i]))
  }

  /** In every state of every run the results handed to the completer so far are
      the images of the first tasks, in the order the maker generated these; and
      once it is told eof, those of all tasks. */
  lemma InOrder<T, R>(tasks: seq<T>, work: T -> R, workers: nat, s: State)
    requires workers >= 1 && Reachable(workers, |tasks|, s)
    ensures |s.returned| <= |tasks| && forall i :: 0 <= i < |s.returned| ==> s.returned[i] < |tasks|
    ensures seq(|s.returned|, i requires 0 <= i < |s.returned| => work(tasks[s.returned[i]])) == Images(tasks, work)[..|s.returned|]
    ensures s.completer.Closed? ==> |s.returned| == |tasks|
  {
    ReachableInv(workers, |tasks|, s);
  }

  /** The completer is told eof after exactly one null result per worker. */
  lemma EofAfterAllWorkers(workers: nat, tasks: nat, s: State)
    requires workers >= 1 && Reachable(workers, tasks, s)
    ensures s.nulls <= workers && (s.completer.Closed? <==> s.nulls == workers)
    ensures s.nulls > 0 ==> |s.returned| == tasks
  {
    ReachableInv(workers, tasks, s);
  }

  // - - -- --- ----- -------- Clean release

  /** Once all eofs are out, every worker had one. */
  lemma AllRetired(s: State, w: nat)
    requires Inv(s) && |s.issued| == s.tasks + |s.workers| && w < |s.workers|
    ensures Retired(s.tasks, s.issued, w) && !Live(s, w)
  {
    var late := s.issued[s.tasks..];
    Pigeons(late, |s.workers|);
    assert w in late;
    var i :| 0 <= i < |late| && late[i] == w;
    assert s.issued[s.tasks + i] == w;
  }

  /** With all results taken, all queues are empty. */
  lemma NothingUnderWay(s: State)
    requires Sizes(s) && Queues(s) && Position(s) == |s.issued|
    ensures !s.maker.Handing?
    ensures forall w :: 0 <= w < |s.workers| ==> s.result[w] == [] && s.task[w] == [] && Hand(s.workers[w]) == []
  {
    forall w | 0 <= w < |s.workers| ensures Queue(s, w) == [] {
      assert Queue(s, w) == Mine(s.tasks, s.issued, Position(s), w);
      assert |Queue(s, w)| == |s.result[w]| + |Hand(s.workers[w])| + |s.task[w]| + |MakerHand(s, w)|;
    }
    assert forall w :: 0 <= w < |s.workers| ==> |Queue(s, w)| == |s.result[w]| + |Hand(s.workers[w])| + |s.task[w]| + |MakerHand(s, w)|;
    assert s.maker.Handing? ==> Queue(s, s.maker.w) == [];
  }

  lemma ClosedAt(s: State)
    requires Inv(s) && s.completer.Closed?
    ensures Position(s) == |s.issued| == s.tasks + |s.workers| && s.maker.Finished?
  {
    NothingUnderWay(s);
  }

  lemma WorkerGone(s: State, w: nat)
    requires Inv(s) && s.completer.Closed? && w < |s.workers|
    ensures s.workers[w].Gone? && s.task[w] == [] && s.result[w] == [] && w !in s.idle
  {
    ClosedAt(s);
    NothingUnderWay(s);
    AllRetired(s, w);
    assert Token(s, w) == 1;
  }

  /** When the completer is told eof, everything release asserts holds: all rings
      are empty. Moreover all threads are done with the coordinator by then. */
  lemma CleanRelease(workers: nat, tasks: nat, s: State)
    requires workers >= 1 && Reachable(workers, tasks, s) && s.completer.Closed?
    ensures s.pickup == [] && s.idle == []
    ensures |s.task| == |s.result| == |s.workers| == workers
    ensures forall w :: 0 <= w < workers ==> s.task[w] == [] && s.result[w] == [] && s.workers[w].Gone?
    ensures s.maker.Finished?
  {
    ReachableInv(workers, tasks, s);
    ClosedAt(s);
    forall w | 0 <= w < workers ensures s.task[w] == [] && s.result[w] == [] && s.workers[w].Gone? && w !in s.idle {
      WorkerGone(s, w);
    }
    if s.idle != [] { WorkerGone(s, s.idle[0]); }
  }

  // - - -- --- ----- -------- No deadlock

  ghost predicate CanStep(s: State) {
    exists step :: Enabled(s, step)
  }

  /** A worker with something under way can move, or its result awaits the completer. */
  lemma WorkerMoves(s: State, w: nat)
    requires Inv(s) && w < |s.workers| && s.result[w] == [] && Queue(s, w) != []
    ensures CanStep(s)
  {
    assert Token(s, w) == 1;
    if s.workers[w].Working? {
      assert Enabled(s, Work(w));
    } else if s.workers[w].Returning? {
      assert Enabled(s, PutResult(w));
    } else if s.workers[w].Forwarding? {
      assert Enabled(s, Forward(w));
    } else if s.task[w] != [] {
      assert Enabled(s, TakeTask(w));
    } else {
      assert Enabled(s, PutTask);
    }
  }

  /** While the completer waits for a certain worker. */
  lemma CollectingMoves(s: State)
    requires Inv(s) && s.completer.Collecting?
    ensures CanStep(s)
  {
    var w := s.completer.w;
    assert Queue(s, w) == Mine(s.tasks, s.issued, Position(s), w);
    if s.result[w] != [] {
      assert Enabled(s, TakeResult);
    } else {
      WorkerMoves(s, w);
    }
  }

  /** With nothing under way, the maker finds an idle worker or waits for one that
      is about to report. */
  lemma MakerMoves(s: State)
    requires Inv(s) && s.completer.Picking? && s.pickup == []
    ensures CanStep(s)
  {
    NothingUnderWay(s);
    AllCollected(s);
    if s.maker.Chosen? {
      assert Enabled(s, PutPickup);
    } else {
      ChoosingMoves(s);
    }
  }

  lemma AllCollected(s: State)
    requires Inv(s) && s.completer.Picking? && Position(s) == |s.issued|
    ensures |s.issued| < s.tasks + |s.workers| && !s.maker.Finished?
  {
  }

  lemma ChoosingMoves(s: State)
    requires Inv(s) && s.maker.Choosing?
    requires forall w :: 0 <= w < |s.workers| ==> s.task[w] == [] && Hand(s.workers[w]) == []
    ensures CanStep(s)
  {
    var w := SomeoneLeft(s);
    if w in s.idle {
      assert Enabled(s, TakeIdle);
    } else {
      Pigeons(s.idle, |s.workers|);
      assert s.workers[w].Resting?;
      assert Enabled(s, PutIdle(w));
    }
  }

  /** Before the last eof there is a worker that had none. */
  lemma SomeoneLeft(s: State) returns (w: nat)
    requires Inv(s) && |s.issued| < s.tasks + |s.workers|
    ensures w < |s.workers| && Live(s, w)
  {
    if forall v :: 0 <= v < |s.workers| ==> !Live(s, v) {
      var late := if |s.issued| <= s.tasks then [] else s.issued[s.tasks..];
      forall v | 0 <= v < |s.workers| ensures v in late {
        assert Retired(s.tasks, s.issued, v);
        var e :| s.tasks <= e < |s.issued| && s.issued[e] == v;
        assert late[e - s.tasks] == v;
      }
      TooFew(late, |s.workers|);
    }
    w :| 0 <= w < |s.workers| && Live(s, w);
  }

  /** To list all numbers below n takes n entries. */
  lemma {:induction false} TooFew(s: seq<nat>, n: nat)
    requires forall k :: 0 <= k < n ==> k in s
    ensures |s| >= n
    decreases n
  {
    if n > 0 {
      assert n - 1 in s;
      var i :| 0 <= i < |s| && s[i] == n - 1;
      var rest := s[..i] + s[i+1..];
      forall k | 0 <= k < n - 1 ensures k in rest {
        assert k in s;
        var j :| 0 <= j < |s| && s[j] == k;
        assert rest[if j < i then j else j - 1] == k;
      }
      TooFew(rest, n - 1);
    }
  }

  /** The sequential coordinator is free of deadlock: in every reachable state some
      thread can go on, unless the completer was told eof. */
  lemma NoDeadlock(workers: nat, tasks: nat, s: State)
    requires workers >= 1 && Reachable(workers, tasks, s) && !s.completer.Closed?
    ensures CanStep(s)
  {
    ReachableInv(workers, tasks, s);
    InvMoves(s);
  }

  lemma InvMoves(s: State)
    requires Inv(s) && !s.completer.Closed?
    ensures CanStep(s)
  {
    if s.completer.Collecting? {
      CollectingMoves(s);
    } else if s.pickup != [] {
      assert Enabled(s, TakePickup);
    } else {
      MakerMoves(s);
    }
  }

  // - - -- --- ----- -------- Termination

  function WorkerWork(worker: Worker): nat {
    match worker
    case Working(_) => 4
    case Returning(_) => 3
    case Resting => 2
    case Forwarding => 3
    case _ => 0
  }

  function TaskWork(ring: seq<Item>): nat {
    5 * |ring|
  }

  function MakerWork(s: State): int {
    10 * (s.tasks + |s.workers| - |s.issued|)
    + (match s.maker case Chosen(_) => -1 case Handing(_) => 6 case _ => 0) + if s.drained then 0 else 1
  }

  function PickupWork(s: State): nat {
    2 * |s.pickup| + if s.completer.Collecting? then 1 else 0
  }

  /** An upper bound of the number of steps still to come. */
  function WorkLeft(s: State): int {
    MakerWork(s) + Total(s.task, TaskWork) + Total(s.workers, WorkerWork) + PickupWork(s)
  }

  lemma MakerWorkStep(s: State, step: Step)
    requires Sizes(s) && Enabled(s, step)
    ensures var gained := if step.PutPickup? then 2 else if step.PutTask? then 5 else 0;
            MakerWork(Do(s, step)) + gained <= MakerWork(s)
    ensures step.TakeIdle? || step.SeeNoneIdle? || step.PutPickup? || step.PutTask? ==>
              var gained := if step.PutPickup? then 2 else if step.PutTask? then 5 else 0;
              MakerWork(Do(s, step)) + gained < MakerWork(s)
  {
  }

  lemma TaskWorkStep(s: State, step: Step)
    requires Sizes(s) && Enabled(s, step)
    ensures Total(Do(s, step).task, TaskWork) ==
            Total(s.task, TaskWork) + (if step.PutTask? then 5 else 0) - (if step.TakeTask? then 5 else 0)
  {
    if step.PutTask? {
      TotalUpdate(s.task, s.maker.w, Do(s, step).task[s.maker.w], TaskWork);
    } else if step.TakeTask? {
      TotalUpdate(s.task, step.w, Do(s, step).task[step.w], TaskWork);
    }
  }

  lemma WorkerWorkStep(s: State, step: Step)
    requires Sizes(s) && Enabled(s, step)
    ensures step.TakeTask? ==> Total(Do(s, step).workers, WorkerWork) <= Total(s.workers, WorkerWork) + 4
    ensures step.Work? || step.PutResult? || step.PutIdle? || step.Forward? ==>
              Total(Do(s, step).workers, WorkerWork) < Total(s.workers, WorkerWork)
    ensures !step.TakeTask? ==> Total(Do(s, step).workers, WorkerWork) <= Total(s.workers, WorkerWork)
  {
    if step.TakeTask? || step.Work? || step.PutResult? || step.PutIdle? || step.Forward? {
      TotalUpdate(s.workers, step.w, Do(s, step).workers[step.w], WorkerWork);
    }
  }

  lemma PickupWorkStep(s: State, step: Step)
    requires Enabled(s, step)
    ensures PickupWork(Do(s, step)) ==
            PickupWork(s) + (if step.PutPickup? then 2 else 0) - (if step.TakePickup? || step.TakeResult? then 1 else 0)
  {
  }

  lemma WorkLeftStep(s: State, step: Step)
    requires Sizes(s) && Enabled(s, step)
    ensures WorkLeft(Do(s, step)) < WorkLeft(s)
  {
    MakerWorkStep(s, step);
    TaskWorkStep(s, step);
    WorkerWorkStep(s, step);
    PickupWorkStep(s, step);
  }

  lemma {:induction false} WorkLeftRun(s: State, steps: seq<Step>)
    requires Inv(s) && Run(s, steps).Some?
    ensures WorkLeft(s) >= |steps|
    decreases |steps|
  {
    if steps == [] {
      MakerWorkLeft(s);
    } else {
      InvStep(s, steps[0]);
      WorkLeftRun(Do(s, steps[0]), steps[1..]);
      WorkLeftStep(s, steps[0]);
    }
  }

  lemma MakerWorkLeft(s: State)
    requires Sizes(s)
    ensures WorkLeft(s) >= 0
  {
  }

  /** Every schedule ends: no run has more than 10 steps per task and worker, and one. */
  lemma Terminates(workers: nat, tasks: nat, steps: seq<Step>)
    requires workers >= 1 && Run(Init(workers, tasks), steps).Some?
    ensures |steps| <= 10 * (tasks + workers) + 1
  {
    InvInit(workers, tasks);
    WorkLeftRun(Init(workers, tasks), steps);
    WorkLeftInit(workers, tasks);
  }

  lemma WorkLeftInit(workers: nat, tasks: nat)
    ensures WorkLeft(Init(workers, tasks)) == 10 * (tasks + workers) + 1
  {
    TotalZero(Init(workers, tasks).workers, WorkerWork);
    TotalZero(Init(workers, tasks).task, TaskWork);
  }

  // - - -- --- ----- -------- Every run can be brought to its end

  lemma {:induction false} RunOn(s: State, a: seq<Step>, b: seq<Step>)
    requires Run(s, a).Some?
    ensures Run(s, a + b) == Run(Run(s, a).value, b)
    decreases |a|
  {
    if a == [] {
      assert a + b == b;
    } else {
      RunOn(Do(s, a[0]), a[1..], b);
      assert (a + b)[1..] == a[1..] + b;
    }
  }

  /** Any steps at all lead there. */
  lemma {:induction false} FinishFrom(s: State) returns (steps: seq<Step>)
    requires Inv(s)
    ensures Run(s, steps).Some? && Run(s, steps).value.completer.Closed?
    decreases WorkLeft(s)
  {
    steps := [];
    if !s.completer.Closed? {
      InvMoves(s);
      var step :| Enabled(s, step);
      InvStep(s, step);
      WorkLeftStep(s, step);
      MakerWorkLeft(s);
      steps := FinishFrom(Do(s, step));
      assert ([step] + steps)[1..] == steps;
      steps := [step] + steps;
    }
  }

  /** From every state a run can reach there is a way to a finished one. */
  lemma CanFinish(workers: nat, tasks: nat, s: State) returns (steps: seq<Step>, end: State)
    requires workers >= 1 && Reachable(workers, tasks, s)
    ensures Run(s, steps) == Some(end) && Reachable(workers, tasks, end) && end.completer.Closed?
  {
    ReachableInv(workers, tasks, s);
    steps := FinishFrom(s);
    end := Run(s, steps).value;
    var before :| Run(Init(workers, tasks), before) == Some(s);
    RunOn(Init(workers, tasks), before, steps);
  }
}
