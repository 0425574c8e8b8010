/** The cache of rows in front of a format that can only be read from the start: any
    number of threads ask for any rows in any order. Each access of a thread to the
    shared entries is one atomic step; any thread that can go on may do so next. */
module VectorCache {
  import opened Totals

  /** Where a call of aktive_veccache_get stands. */
  datatype Pc<R> =
    | Checking                    // about to look for the vector
    | Seeking                     // about to look for its start offset, or waiting for the call that provides it
    | Locking                     // about to enter the critical section
    | Rechecking                  // in it, about to look for the vector again
    | Filled(row: R, next: nat)   // the filler is done
    | Stored(next: nat)           // the vector is stored
    | Unlocking                   // all is stored

  datatype Frame<R> = Frame(index: nat, pc: Pc<R>)

  /** A thread with its nested calls, innermost first, and what its last call gave. */
  datatype Thread<R> = Thread(calls: seq<Frame<R>>, got: Option<(nat, Option<R>)>)

  /** The shared entries, with one more start offset than there are vectors. */
  datatype State<R> = State(
    start: seq<nat>,           // 0 while unknown
    area: seq<Option<R>>,
    lock: seq<Option<nat>>,    // the thread in the critical section
    fills: seq<nat>,           // history: how often the filler ran for each vector
    threads: seq<Thread<R>>)

  /** aktive_veccache_new, and a number of threads that will use it. */
  function Init<R>(vectors: nat, start: nat, threads: nat): State<R> {
    State([start] + seq(vectors, _ => 0), seq(vectors, _ => None), seq(vectors, _ => None), seq(vectors, _ => 0),
          seq(threads, _ => Thread([], None)))
  }

  datatype Step = Call(t: nat, index: nat) | Move(t: nat)

  /** The entries have the sizes of the table, and the step is one of a thread. */
  predicate Fits<R>(s: State<R>, t: nat) {
    && t < |s.threads| && |s.lock| == |s.area| == |s.fills| && |s.start| == |s.area| + 1
    && (s.threads[t].calls != [] ==> s.threads[t].calls[0].index < |s.area|)
  }

  predicate Enabled<R>(s: State<R>, step: Step) {
    && Fits(s, step.t)
    && match step
       case Call(t, index) => s.threads[t].calls == [] && index < |s.area|
       case Move(t) =>
         && s.threads[t].calls != []
         && (s.threads[t].calls[0].pc.Locking? ==> s.lock[s.threads[t].calls[0].index] == None)
         && (s.threads[t].calls[0].pc.Seeking? && s.start[s.threads[t].calls[0].index] == 0 ==> s.threads[t].calls[0].index > 0)
  }

  /** The innermost call of thread t goes on at `pc`. */
  function Goto<R>(s: State<R>, t: nat, pc: Pc<R>): State<R>
    requires t < |s.threads| && s.threads[t].calls != []
  {
    var th := s.threads[t];
    s.(threads := s.threads[t := th.(calls := [Frame(th.calls[0].index, pc)] + th.calls[1..])])
  }

  /** The innermost call of thread t returns the vector. */
  function Return<R>(s: State<R>, t: nat): State<R>
    requires Fits(s, t) && s.threads[t].calls != []
  {
    var th := s.threads[t];
    var got := if |th.calls| == 1 then Some((th.calls[0].index, s.area[th.calls[0].index])) else th.got;
    s.(threads := s.threads[t := Thread(th.calls[1..], got)])
  }

  function Do<R>(s: State<R>, step: Step, fill: nat -> (R, nat)): State<R>
    requires Enabled(s, step)
  {
    match step
    case Call(t, index) => s.(threads := s.threads[t := s.threads[t].(calls := [Frame(index, Checking)])])
    case Move(t) =>
      var i := s.threads[t].calls[0].index;
      match s.threads[t].calls[0].pc
      case Checking => if s.area[i].Some? then Return(s, t) else Goto(s, t, Seeking)
      case Seeking =>
        if s.start[i] != 0 then Goto(s, t, Locking)
        else s.(threads := s.threads[t := s.threads[t].(calls := [Frame(i - 1, Checking)] + s.threads[t].calls)])
      case Locking => Goto(s.(lock := s.lock[i := Some(t)]), t, Rechecking)
      case Rechecking =>
        if s.area[i].Some? then Goto(s, t, Unlocking)
        else Goto(s.(fills := s.fills[i := s.fills[i] + 1]), t, Filled(fill(s.start[i]).0, fill(s.start[i]).1))
      case Filled(row, next) => Goto(s.(area := s.area[i := Some(row)]), t, Stored(next))
      case Stored(next) => Goto(s.(start := s.start[i + 1 := next]), t, Unlocking)
      case Unlocking => Return(s.(lock := s.lock[i := None]), t)
  }

  function Run<R>(s: State<R>, steps: seq<Step>, fill: nat -> (R, nat)): Option<State<R>>
    decreases |steps|
  {
    if steps == [] then Some(s)
    else if Enabled(s, steps[0]) then Run(Do(s, steps[0], fill), steps[1..], fill)
    else None
  }

  // - - -- --- ----- -------- Reference: the plain sequential parse

  function StartOf<R>(fill: nat -> (R, nat), start: nat, i: nat): nat {
    if i == 0 then start else fill(StartOf(fill, start, i - 1)).1
  }

  function RowOf<R>(fill: nat -> (R, nat), start: nat, i: nat): R {
    fill(StartOf(fill, start, i)).0
  }

  ghost predicate Known<R>(fill: nat -> (R, nat), start: nat, i: nat) {
    StartOf(fill, start, i) != 0
  }

  /** No vector starts at offset 0, which stands for an unknown one. */
  ghost predicate Headed<R>(fill: nat -> (R, nat), start: nat) {
    forall i: nat :: Known(fill, start, i)
  }

  // - - -- --- ----- -------- Invariants

  predicate Critical<R>(pc: Pc<R>) {
    pc.Rechecking? || pc.Filled? || pc.Stored? || pc.Unlocking?
  }

  /** What is known about entry i. */
  ghost predicate EntryOk<R>(s: State<R>, fill: nat -> (R, nat), start: nat, i: nat)
    requires i < |s.area| && |s.start| == |s.area| + 1
  {
    && (s.start[i] == 0 || s.start[i] == StartOf(fill, start, i))
    && (s.area[i] == None || s.area[i] == Some(RowOf(fill, start, i)))
  }

  /** The innermost call of thread t, at entry i. */
  ghost predicate TopOk<R>(s: State<R>, fill: nat -> (R, nat), start: nat, t: nat, i: nat, pc: Pc<R>)
    requires i < |s.area| && |s.start| == |s.area| + 1 && |s.lock| == |s.area|
  {
    && (pc.Locking? || Critical(pc) ==> s.start[i] == StartOf(fill, start, i))
    && (Critical(pc) <==> s.lock[i] == Some(t))
    && (pc.Filled? ==> s.area[i] == None && pc.row == RowOf(fill, start, i) && pc.next == StartOf(fill, start, i + 1))
    && (pc.Stored? ==> s.area[i].Some? && pc.next == StartOf(fill, start, i + 1))
    && (pc.Unlocking? ==> s.area[i].Some?)
  }

  /** The calls of thread t go down the table, and only the innermost is active. */
  ghost predicate ThreadOk<R>(s: State<R>, fill: nat -> (R, nat), start: nat, t: nat)
    requires t < |s.threads| && |s.start| == |s.area| + 1 && |s.lock| == |s.area|
  {
    var calls := s.threads[t].calls;
    && (forall k :: 0 <= k < |calls| ==> calls[k].index < |s.area| && calls[k].index == calls[0].index + k)
    && (forall k :: 1 <= k < |calls| ==> calls[k].pc.Seeking?)
    && (calls != [] ==> TopOk(s, fill, start, t, calls[0].index, calls[0].pc))
    && (s.threads[t].got.Some? ==>
          s.threads[t].got.value.0 < |s.area| && s.threads[t].got.value.1 == Some(RowOf(fill, start, s.threads[t].got.value.0)))
  }

  /** The thread that holds the lock of entry i is in its critical section. */
  ghost predicate LockOk<R>(s: State<R>, i: nat)
    requires i < |s.lock| && i < |s.area| && i < |s.fills|
  {
    && (s.lock[i].Some? ==>
          var t := s.lock[i].value;
          t < |s.threads| && s.threads[t].calls != [] && s.threads[t].calls[0].index == i && Critical(s.threads[t].calls[0].pc))
    && s.fills[i] == if s.area[i].Some? || HolderFilled(s, i) then 1 else 0
  }

  predicate HolderFilled<R>(s: State<R>, i: nat)
    requires i < |s.lock|
  {
    s.lock[i].Some? && s.lock[i].value < |s.threads| && s.threads[s.lock[i].value].calls != []
    && s.threads[s.lock[i].value].calls[0].pc.Filled?
  }

  ghost predicate Inv<R>(s: State<R>, fill: nat -> (R, nat), start: nat) {
    && |s.start| == |s.area| + 1 && |s.lock| == |s.area| == |s.fills|
    && Headed(fill, start) && s.start[0] == start
    && (forall i :: 0 <= i < |s.area| ==> EntryOk(s, fill, start, i) && LockOk(s, i))
    && (forall t :: 0 <= t < |s.threads| ==> ThreadOk(s, fill, start, t))
  }

  // - - -- --- ----- -------- Every step keeps them

  lemma InvInit<R>(vectors: nat, start: nat, threads: nat, fill: nat -> (R, nat))
    requires Headed(fill, start)
    ensures Inv(Init(vectors, start, threads), fill, start)
  {
  }

  lemma EntryStep<R>(s: State<R>, step: Step, fill: nat -> (R, nat), start: nat, i: nat)
    requires Inv(s, fill, start) && Enabled(s, step) && i < |s.area|
    ensures var n := Do(s, step, fill); |n.start| == |s.start| && |n.area| == |s.area| && EntryOk(n, fill, start, i)
  {
    assert EntryOk(s, fill, start, i);
    if step.Move? { assert ThreadOk(s, fill, start, step.t); }
  }

  lemma LockStep<R>(s: State<R>, step: Step, fill: nat -> (R, nat), start: nat, i: nat)
    requires Inv(s, fill, start) && Enabled(s, step) && i < |s.area|
    ensures var n := Do(s, step, fill); |n.lock| == |s.lock| && |n.area| == |s.area| && |n.fills| == |s.fills| && LockOk(n, i)
  {
    if s.threads[step.t].calls != [] && s.threads[step.t].calls[0].index == i {
      LockOwn(s, step, fill, start, i);
    } else {
      LockOther(s, step, fill, start, i);
    }
  }

  lemma LockOwn<R>(s: State<R>, step: Step, fill: nat -> (R, nat), start: nat, i: nat)
    requires Inv(s, fill, start) && Enabled(s, step) && i < |s.area|
    requires s.threads[step.t].calls != [] && s.threads[step.t].calls[0].index == i
    ensures var n := Do(s, step, fill); |n.lock| == |s.lock| && |n.area| == |s.area| && |n.fills| == |s.fills| && LockOk(n, i)
  {
    assert LockOk(s, i) && ThreadOk(s, fill, start, step.t);
  }

  lemma LockOther<R>(s: State<R>, step: Step, fill: nat -> (R, nat), start: nat, i: nat)
    requires Inv(s, fill, start) && Enabled(s, step) && i < |s.area|
    requires s.threads[step.t].calls != [] ==> s.threads[step.t].calls[0].index != i
    ensures var n := Do(s, step, fill); |n.lock| == |s.lock| && |n.area| == |s.area| && |n.fills| == |s.fills| && LockOk(n, i)
  {
    assert LockOk(s, i) && ThreadOk(s, fill, start, step.t);
  }

  /** No thread holds a lock but that of the entry its innermost call is critical at. */
  lemma OneLock<R>(s: State<R>, fill: nat -> (R, nat), start: nat, t: nat, j: nat)
    requires Inv(s, fill, start) && t < |s.threads| && j < |s.area| && s.lock[j] == Some(t)
    ensures s.threads[t].calls != [] && s.threads[t].calls[0].index == j && Critical(s.threads[t].calls[0].pc)
  {
    assert LockOk(s, j);
  }

  /** What is known of the locks and the entry a thread moves at. */
  lemma MoverFacts<R>(s: State<R>, fill: nat -> (R, nat), start: nat, t: nat)
    requires Inv(s, fill, start) && t < |s.threads|
    ensures ThreadOk(s, fill, start, t)
    ensures forall j :: 0 <= j < |s.area| && s.lock[j] == Some(t) ==>
              s.threads[t].calls != [] && s.threads[t].calls[0].index == j && Critical(s.threads[t].calls[0].pc)
    ensures s.threads[t].calls != [] ==>
              s.threads[t].calls[0].index < |s.area| && EntryOk(s, fill, start, s.threads[t].calls[0].index)
  {
    forall j | 0 <= j < |s.area| && s.lock[j] == Some(t)
      ensures s.threads[t].calls != [] && s.threads[t].calls[0].index == j && Critical(s.threads[t].calls[0].pc)
    {
      OneLock(s, fill, start, t, j);
    }
    assert ThreadOk(s, fill, start, t);
  }

  predicate Returns<R>(s: State<R>, t: nat)
    requires Fits(s, t) && s.threads[t].calls != []
  {
    var c := s.threads[t].calls[0];
    c.pc.Unlocking? || (c.pc.Checking? && s.area[c.index].Some?)
  }

  lemma OwnReturn<R>(s: State<R>, t: nat, fill: nat -> (R, nat), start: nat)
    requires Inv(s, fill, start) && Enabled(s, Move(t)) && Returns(s, t)
    ensures var n := Do(s, Move(t), fill);
            && t < |n.threads| && |n.start| == |n.area| + 1 && |n.lock| == |n.area| && ThreadOk(n, fill, start, t)
  {
    MoverFacts(s, fill, start, t);
    var calls := s.threads[t].calls;
    assert forall k :: 0 <= k < |calls| - 1 ==> calls[1..][k] == calls[k + 1];
  }

  lemma OwnNest<R>(s: State<R>, t: nat, fill: nat -> (R, nat), start: nat)
    requires Inv(s, fill, start) && Enabled(s, Move(t)) && s.threads[t].calls[0].pc.Seeking?
    ensures var n := Do(s, Move(t), fill);
            && t < |n.threads| && |n.start| == |n.area| + 1 && |n.lock| == |n.area| && ThreadOk(n, fill, start, t)
  {
    MoverFacts(s, fill, start, t);
  }

  lemma OwnMove<R>(s: State<R>, t: nat, fill: nat -> (R, nat), start: nat)
    requires Inv(s, fill, start) && Enabled(s, Move(t)) && !Returns(s, t) && !s.threads[t].calls[0].pc.Seeking?
    ensures var n := Do(s, Move(t), fill);
            && t < |n.threads| && |n.start| == |n.area| + 1 && |n.lock| == |n.area| && ThreadOk(n, fill, start, t)
  {
    MoverFacts(s, fill, start, t);
  }

  lemma OwnStep<R>(s: State<R>, step: Step, fill: nat -> (R, nat), start: nat)
    requires Inv(s, fill, start) && Enabled(s, step)
    ensures var n := Do(s, step, fill);
            && step.t < |n.threads| && |n.start| == |n.area| + 1 && |n.lock| == |n.area| && ThreadOk(n, fill, start, step.t)
  {
    if step.Call? {
      MoverFacts(s, fill, start, step.t);
    } else if Returns(s, step.t) {
      OwnReturn(s, step.t, fill, start);
    } else if s.threads[step.t].calls[0].pc.Seeking? {
      OwnNest(s, step.t, fill, start);
    } else {
      OwnMove(s, step.t, fill, start);
    }
  }

  lemma OtherStep<R>(s: State<R>, step: Step, fill: nat -> (R, nat), start: nat, u: nat)
    requires Inv(s, fill, start) && Enabled(s, step) && u < |s.threads| && u != step.t
    ensures var n := Do(s, step, fill);
            && u < |n.threads| && |n.start| == |n.area| + 1 && |n.lock| == |n.area| && ThreadOk(n, fill, start, u)
  {
    assert ThreadOk(s, fill, start, step.t) && ThreadOk(s, fill, start, u);
  }

  lemma InvStep<R>(s: State<R>, step: Step, fill: nat -> (R, nat), start: nat)
    requires Inv(s, fill, start) && Enabled(s, step)
    ensures Inv(Do(s, step, fill), fill, start) && |Do(s, step, fill).area| == |s.area|
  {
    var n := Do(s, step, fill);
    forall i | 0 <= i < |s.area| ensures EntryOk(n, fill, start, i) && LockOk(n, i) {
      EntryStep(s, step, fill, start, i);
      LockStep(s, step, fill, start, i);
    }
    forall u | 0 <= u < |s.threads| ensures ThreadOk(n, fill, start, u) {
      if u == step.t { OwnStep(s, step, fill, start); } else { OtherStep(s, step, fill, start, u); }
    }
  }

  lemma {:induction false} InvRun<R>(s: State<R>, steps: seq<Step>, fill: nat -> (R, nat), start: nat)
    requires Inv(s, fill, start) && Run(s, steps, fill).Some?
    ensures Inv(Run(s, steps, fill).value, fill, start) && |Run(s, steps, fill).value.area| == |s.area|
    decreases |steps|
  {
    if steps != [] {
      InvStep(s, steps[0], fill, start);
      InvRun(Do(s, steps[0], fill), steps[1..], fill, start);
    }
  }

  /** The state after some steps of some threads on a new cache. Offset 0 is reserved,
      so no vector may start there. */
  ghost predicate After<R>(vectors: nat, start: nat, threads: nat, fill: nat -> (R, nat), steps: seq<Step>, s: State<R>) {
    Headed(fill, start) && Run(Init(vectors, start, threads), steps, fill) == Some(s)
  }

  lemma AfterInv<R>(vectors: nat, start: nat, threads: nat, fill: nat -> (R, nat), steps: seq<Step>, s: State<R>)
    requires After(vectors, start, threads, fill, steps, s)
    ensures Inv(s, fill, start) && |s.area| == vectors
  {
    InvInit(vectors, start, threads, fill);
    InvRun(Init(vectors, start, threads), steps, fill, start);
  }

  // - - -- --- ----- -------- What a thread is given is what it asked for

  /** The last thing thread t asked for was vector i, in step k. */
  ghost predicate LastAsked(steps: seq<Step>, t: nat, k: nat, i: nat) {
    && k < |steps| && steps[k] == Call(t, i)
    && forall m :: k < m < |steps| ==> !(steps[m].Call? && steps[m].t == t)
  }

  /** The thread is at its call for vector i, or has been given something for it. */
  ghost predicate Serves<R>(s: State<R>, t: nat, i: nat) {
    && t < |s.threads|
    && var th := s.threads[t];
       if th.calls == [] then th.got.Some? && th.got.value.0 == i else th.calls[|th.calls|-1].index == i
  }

  lemma ServesStep<R>(s: State<R>, step: Step, fill: nat -> (R, nat), t: nat, i: nat)
    requires Serves(s, t, i) && Enabled(s, step) && !(step.Call? && step.t == t)
    ensures Serves(Do(s, step, fill), t, i)
  {
  }

  lemma {:induction false} ServesRun<R>(s: State<R>, steps: seq<Step>, fill: nat -> (R, nat), t: nat, i: nat)
    requires Serves(s, t, i) && Run(s, steps, fill).Some?
    requires forall m :: 0 <= m < |steps| ==> !(steps[m].Call? && steps[m].t == t)
    ensures Serves(Run(s, steps, fill).value, t, i)
    decreases |steps|
  {
    if steps != [] {
      ServesStep(s, steps[0], fill, t, i);
      ServesRun(Do(s, steps[0], fill), steps[1..], fill, t, i);
    }
  }

  lemma {:induction false} AskedServed<R>(s: State<R>, steps: seq<Step>, fill: nat -> (R, nat), t: nat, k: nat, i: nat)
    requires Run(s, steps, fill).Some? && LastAsked(steps, t, k, i)
    ensures Serves(Run(s, steps, fill).value, t, i)
    decreases |steps|
  {
    var n := Do(s, steps[0], fill);
    if k == 0 {
      assert Serves(n, t, i);
      ServesRun(n, steps[1..], fill, t, i);
    } else {
      assert steps[1..][k - 1] == steps[k];
      AskedServed(n, steps[1..], fill, t, k - 1, i);
    }
  }

  // - - -- --- ----- -------- What every run guarantees

  /** A thread that has asked for vector i is on its outermost call for just that, or
      through with it, and then what it was given is vector i of the sequential parse. */
  lemma GetsRow<R>(vectors: nat, start: nat, threads: nat, fill: nat -> (R, nat), steps: seq<Step>, s: State<R>, t: nat, k: nat, i: nat)
    requires After(vectors, start, threads, fill, steps, s) && LastAsked(steps, t, k, i)
    ensures t < |s.threads| && i < vectors
    ensures s.threads[t].calls != [] ==> s.threads[t].calls[|s.threads[t].calls|-1].index == i
    ensures s.threads[t].calls == [] ==> s.threads[t].got == Some((i, Some(RowOf(fill, start, i))))
  {
    AfterInv(vectors, start, threads, fill, steps, s);
    AskedServed(Init(vectors, start, threads), steps, fill, t, k, i);
    assert ThreadOk(s, fill, start, t);
  }

  /** The filler runs at most once per vector. */
  lemma FilledOnce<R>(vectors: nat, start: nat, threads: nat, fill: nat -> (R, nat), steps: seq<Step>, s: State<R>, i: nat)
    requires After(vectors, start, threads, fill, steps, s) && i < |s.fills|
    ensures s.fills[i] <= 1
  {
    AfterInv(vectors, start, threads, fill, steps, s);
    assert LockOk(s, i);
  }

  /** When it runs, it does so at the offset the sequential parse has there. */
  lemma FilledAt<R>(vectors: nat, start: nat, threads: nat, fill: nat -> (R, nat), steps: seq<Step>, s: State<R>, t: nat)
    requires After(vectors, start, threads, fill, steps, s) && Enabled(s, Move(t)) && s.threads[t].calls[0].pc.Rechecking?
    ensures s.start[s.threads[t].calls[0].index] == StartOf(fill, start, s.threads[t].calls[0].index)
  {
    AfterInv(vectors, start, threads, fill, steps, s);
    assert ThreadOk(s, fill, start, t);
  }

  /** No thread ever holds two locks. */
  lemma NeverTwoLocks<R>(vectors: nat, start: nat, threads: nat, fill: nat -> (R, nat), steps: seq<Step>, s: State<R>, j: nat, k: nat)
    requires After(vectors, start, threads, fill, steps, s) && j < |s.lock| && k < |s.lock|
    requires s.lock[j].Some? && s.lock[j] == s.lock[k]
    ensures j == k
  {
    AfterInv(vectors, start, threads, fill, steps, s);
    assert LockOk(s, j) && LockOk(s, k);
  }
}
