/** The master/worker verification queue of src/checkqueue.h.

    Every critical section of `Loop`, `Add` and the destructor is one atomic step of a state machine
    with one master (thread 0) and any number of workers; the checks themselves run between critical
    sections, one step per check.  Condition variables may wake a thread at any time.
 */
module CheckQueue {

  datatype Option<T> = None | Some(value: T)

  /** Where a thread is: `Outside` is a master that is not in Wait, `Starting` has not yet entered the
      first critical section, `Inside` holds the mutex, `Running` holds the rest of a batch of `nNow`. */
  datatype Thread =
    | Outside
    | Starting
    | Inside
    | Waiting(notified: bool)
    | Running(todo: seq<bool>, nNow: nat, fOk: bool)
    | Exited

  /** `added` records the checks added since Wait last returned. */
  datatype State = State(
    queue: seq<bool>, nIdle: int, nTotal: int, fAllOk: bool, nTodo: int,
    nBatchSize: nat, stop: bool, threads: seq<Thread>, added: seq<bool>)

  const MASTER := 0

  predicate AllTrue(checks: seq<bool>) {
    forall i :: 0 <= i < |checks| ==> checks[i]
  }

  // ----- Critical sections -----

  function Max(a: int, b: int): int { if a < b then b else a }
  function Min(a: int, b: int): int { if a < b then a else b }

  /** How many checks a thread takes. */
  function BatchLength(s: State): int
    requires s.nTotal + s.nIdle + 1 > 0
  {
    Max(1, Min(s.nBatchSize, |s.queue| / (s.nTotal + s.nIdle + 1)))
  }

  /** The most checks, up to the batch size, that every thread and one more could take; at least one. */
  lemma {:induction false} BatchIs(s: State)
    requires s.nTotal >= 0 && s.nIdle >= 0
    ensures var n, share := BatchLength(s), s.nTotal + s.nIdle + 1;
            && n >= 1 && (n > 1 ==> n <= s.nBatchSize && n * share <= |s.queue|)
            && (n < s.nBatchSize ==> (n + 1) * share > |s.queue|)
  {
    var k, share := |s.queue|, s.nTotal + s.nIdle + 1;
    var q, n := k / share, BatchLength(s);
    DivIsShare(k, share);
    if n > 1 { TimesMonotone(n, q, share); }
    if n < s.nBatchSize { TimesMonotone(q + 1, n + 1, share); }
  }

  lemma {:induction false} DivIsShare(k: nat, share: nat)
    requires share > 0
    ensures k / share * share <= k < (k / share + 1) * share
  {
  }

  lemma {:induction false} TimesMonotone(a: nat, b: nat, d: nat)
    requires a <= b
    ensures a * d <= b * d
  {
  }

  lemma BatchFits(s: State)
    requires s.nTotal >= 0 && s.nIdle >= 0 && s.queue != []
    ensures 1 <= BatchLength(s) <= |s.queue|
  {
    DivAtMost(|s.queue|, s.nTotal + s.nIdle + 1);
  }

  lemma MulAtLeast(q: nat, d: nat)
    requires d > 0
    ensures q <= q * d
  {
  }

  lemma DivAtMost(n: nat, d: nat)
    requires d > 0
    ensures n / d <= n
  {
    var q := n / d;
    assert q * d <= n;
    MulAtLeast(q, d);
  }

  /** A Wait that returned, with its verdict. */
  datatype Outcome = Outcome(next: State, returned: Option<bool>)

  function SetThread(s: State, t: nat, thread: Thread): State
    requires t < |s.threads|
  {
    s.(threads := s.threads[t := thread])
  }

  /** From the head of the inner loop to the release of the mutex. */
  function LoopHead(s: State, t: nat): Outcome
    requires t < |s.threads| && s.nTotal >= 0 && s.nIdle >= 0
  {
    if s.stop then
      Outcome(SetThread(s, t, if t == MASTER then Outside else Exited), if t == MASTER then Some(false) else None)
    else if s.queue != [] then
      BatchFits(s);
      var n := BatchLength(s);
      var start := |s.queue| - n;
      Outcome(SetThread(s, t, Running(s.queue[start..], n, s.fAllOk)).(queue := s.queue[..start]), None)
    else if t == MASTER && s.nTodo == 0 then
      Outcome(SetThread(s, t, Outside).(nTotal := s.nTotal - 1, fAllOk := true, added := []), Some(s.fAllOk))
    else
      Outcome(SetThread(s, t, Waiting(false)).(nIdle := s.nIdle + 1), None)
  }

  function Notify(thread: Thread): Thread {
    if thread.Waiting? then Waiting(true) else thread
  }

  /** The clean-up of a finished batch, or the registration of a new thread. */
  function CleanUp(s: State, t: nat): State
    requires t < |s.threads|
  {
    var s' := SetThread(s, t, Inside);
    if s.threads[t].Running? then
      var s'' := s'.(fAllOk := s.fAllOk && s.threads[t].fOk, nTodo := s.nTodo - s.threads[t].nNow);
      if s''.nTodo == 0 && t != MASTER then SetThread(s'', MASTER, Notify(s''.threads[MASTER])) else s''
    else
      s'.(nTotal := s.nTotal + 1)
  }

  /** Add under the mutex, then one worker or all of them are notified. */
  function AddChecks(s: State, checks: seq<bool>, woken: nat): State {
    if checks == [] then s
    else
      s.(queue := s.queue + checks, nTodo := s.nTodo + |checks|, added := s.added + checks,
         threads := seq(|s.threads|, i requires 0 <= i < |s.threads| =>
           if i != MASTER && (|checks| > 1 || i == woken) then Notify(s.threads[i]) else s.threads[i]))
  }

  /** One check of a batch; once one has failed the rest are skipped. */
  function Execute(thread: Thread): Thread
    requires thread.Running? && thread.todo != []
  {
    thread.(todo := thread.todo[1..], fOk := if thread.fOk then thread.todo[0] else thread.fOk)
  }

  // ----- Steps -----

  datatype Action =
    | Add(checks: seq<bool>, woken: nat)
    | CallWait
    | Enter(t: nat)
    | Check(t: nat)
    | Wake(t: nat)
    | Stop

  /** Which thread may do what.  The master adds and waits from one thread, and destroys the queue only
      while not waiting. */
  predicate Ready(s: State, a: Action) {
    && |s.threads| > 0
    && match a
       case Add(_, _) => s.threads[MASTER].Outside? && !s.stop
       case CallWait => s.threads[MASTER].Outside? && !s.stop
       case Enter(t) => t < |s.threads|
         && (s.threads[t].Starting? || (s.threads[t].Running? && s.threads[t].todo == []))
       case Check(t) => t < |s.threads| && s.threads[t].Running? && s.threads[t].todo != []
       case Wake(t) => t < |s.threads| && s.threads[t].Waiting?
       case Stop => s.threads[MASTER].Outside?
  }

  predicate Enabled(s: State, a: Action) {
    Ready(s, a) && s.nTotal >= 0 && s.nIdle >= 0 && (a.Wake? ==> s.nIdle > 0)
  }

  function Next(s: State, a: Action): Outcome
    requires Enabled(s, a)
  {
    match a
    case Add(checks, woken) => Outcome(AddChecks(s, checks, woken), None)
    case CallWait => Outcome(SetThread(s, MASTER, Starting), None)
    case Enter(t) => LoopHead(CleanUp(s, t), t)
    case Check(t) => Outcome(SetThread(s, t, Execute(s.threads[t])), None)
    case Wake(t) => LoopHead(SetThread(s, t, Inside).(nIdle := s.nIdle - 1), t)
    case Stop => Outcome(s.(stop := true,
      threads := seq(|s.threads|, i requires 0 <= i < |s.threads| =>
                   if i != MASTER then Notify(s.threads[i]) else s.threads[i])), None)
  }

  function Initial(nBatchSize: nat, workers: nat): State {
    State([], 0, 0, true, 0, nBatchSize, false, [Outside] + seq(workers, _ => Starting), [])
  }

  // ----- Sums over threads -----

  function Total(threads: seq<Thread>, f: Thread -> nat): nat {
    if threads == [] then 0 else f(threads[0]) + Total(threads[1..], f)
  }

  lemma {:induction false} TotalUpdate(threads: seq<Thread>, i: nat, thread: Thread, f: Thread -> nat)
    requires i < |threads|
    ensures Total(threads[i := thread], f) + f(threads[i]) == Total(threads, f) + f(thread)
  {
    if i > 0 {
      TotalUpdate(threads[1..], i - 1, thread, f);
      assert threads[i := thread][1..] == threads[1..][i - 1 := thread];
    } else {
      assert threads[i := thread][1..] == threads[1..];
    }
  }

  lemma {:induction false} TotalSame(threads: seq<Thread>, others: seq<Thread>, f: Thread -> nat)
    requires |threads| == |others|
    requires forall i :: 0 <= i < |threads| ==> f(threads[i]) == f(others[i])
    ensures Total(threads, f) == Total(others, f)
  {
    if threads != [] {
      assert f(threads[0]) == f(others[0]);
      forall i | 0 <= i < |threads| - 1 ensures f(threads[1..][i]) == f(others[1..][i]) {
        assert f(threads[i + 1]) == f(others[i + 1]);
      }
      TotalSame(threads[1..], others[1..], f);
    }
  }

  lemma {:induction false} TotalAtLeast(threads: seq<Thread>, i: nat, f: Thread -> nat)
    requires i < |threads|
    ensures f(threads[i]) <= Total(threads, f)
  {
    if i > 0 { TotalAtLeast(threads[1..], i - 1, f); }
  }

  lemma {:induction false} TotalZero(threads: seq<Thread>, f: Thread -> nat) returns (i: nat)
    requires Total(threads, f) > 0
    ensures i < |threads| && f(threads[i]) > 0
  {
    if f(threads[0]) > 0 {
      i := 0;
    } else {
      var j := TotalZero(threads[1..], f);
      i := j + 1;
    }
  }

  // ----- The invariant -----

  function InFlight(thread: Thread): nat { if thread.Running? then thread.nNow else 0 }
  function Idle(thread: Thread): nat { if thread.Waiting? then 1 else 0 }
  function Registered(thread: Thread): nat { if thread.Outside? || thread.Starting? then 0 else 1 }

  predicate ThreadOk(t: nat, thread: Thread) {
    && (t == MASTER ==> !thread.Exited?)
    && (t != MASTER ==> !thread.Outside?)
    && (thread.Running? ==> |thread.todo| <= thread.nNow && thread.nNow >= 1)
  }

  predicate Promising(thread: Thread) {
    thread.Running? ==> thread.fOk && AllTrue(thread.todo)
  }

  predicate AllPromising(threads: seq<Thread>) {
    forall i :: 0 <= i < |threads| ==> Promising(threads[i])
  }

  /** The counters are exact. */
  ghost predicate Counted(s: State) {
    && s.nIdle == Total(s.threads, Idle)
    && s.nTotal == Total(s.threads, Registered)
    && s.nTodo == |s.queue| + Total(s.threads, InFlight)
  }

  /** Nothing has failed, and nothing queued or in flight will, exactly when all added checks are true. */
  predicate VerdictOk(s: State) {
    AllTrue(s.added) <==> s.fAllOk && AllTrue(s.queue) && AllPromising(s.threads)
  }

  /** A master that nobody has notified waits for checks in flight, with nothing left to take. */
  predicate MasterOk(s: State)
    requires |s.threads| > 0
  {
    && (s.threads[MASTER] == Waiting(false) ==> s.queue == [] && s.nTodo > 0)
    && (s.stop ==> s.threads[MASTER].Outside?)
  }

  ghost predicate Core(s: State) {
    && |s.threads| > 0
    && (forall i :: 0 <= i < |s.threads| ==> ThreadOk(i, s.threads[i]))
    && Counted(s) && VerdictOk(s)
  }

  ghost predicate Inv(s: State) {
    Core(s) && MasterOk(s)
  }

  lemma {:induction false} Replaced(threads: seq<Thread>, t: nat, thread: Thread)
    requires t < |threads|
    ensures Total(threads[t := thread], Idle) + Idle(threads[t]) == Total(threads, Idle) + Idle(thread)
    ensures Total(threads[t := thread], Registered) + Registered(threads[t])
            == Total(threads, Registered) + Registered(thread)
    ensures Total(threads[t := thread], InFlight) + InFlight(threads[t]) == Total(threads, InFlight) + InFlight(thread)
    ensures AllPromising(threads[t := thread]) && Promising(threads[t]) <==> AllPromising(threads) && Promising(thread)
  {
    TotalUpdate(threads, t, thread, Idle);
    TotalUpdate(threads, t, thread, Registered);
    TotalUpdate(threads, t, thread, InFlight);
    var after := threads[t := thread];
    if AllPromising(after) && Promising(threads[t]) {
      forall i | 0 <= i < |threads| ensures Promising(threads[i]) {
        assert i != t ==> after[i] == threads[i];
      }
      assert after[t] == thread;
    }
  }

  lemma AllTrueConcat(a: seq<bool>, b: seq<bool>)
    ensures AllTrue(a + b) <==> AllTrue(a) && AllTrue(b)
  {
    if AllTrue(a + b) {
      forall i | 0 <= i < |a| ensures a[i] { assert (a + b)[i] == a[i]; }
      forall i | 0 <= i < |b| ensures b[i] { assert (a + b)[|a| + i] == b[i]; }
    }
  }

  /** The notification of a waiting thread changes no count. */
  lemma {:induction false} NotifyOk(s: State, threads: seq<Thread>)
    requires Inv(s)
    requires |threads| == |s.threads|
    requires forall i :: 0 <= i < |threads| ==> threads[i] == s.threads[i] || threads[i] == Notify(s.threads[i])
    requires threads[MASTER] == s.threads[MASTER]
    ensures Inv(s.(threads := threads))
  {
    TotalSame(threads, s.threads, Idle);
    TotalSame(threads, s.threads, Registered);
    TotalSame(threads, s.threads, InFlight);
    assert forall i :: 0 <= i < |threads| ==> Promising(threads[i]) == Promising(s.threads[i]);
  }

  /** A step that changes one thread, and the shared fields to match. */
  lemma {:induction false} OneThread(s: State, s': State, t: nat)
    requires Core(s) && t < |s.threads| && |s'.threads| == |s.threads|
    requires s'.threads == s.threads[t := s'.threads[t]] && ThreadOk(t, s'.threads[t])
    requires s'.nIdle + Idle(s.threads[t]) == s.nIdle + Idle(s'.threads[t])
    requires s'.nTotal + Registered(s.threads[t]) == s.nTotal + Registered(s'.threads[t])
    requires s'.nTodo - |s'.queue| + InFlight(s.threads[t]) == s.nTodo - |s.queue| + InFlight(s'.threads[t])
    requires s'.added == s.added
    requires s'.fAllOk && AllTrue(s'.queue) && Promising(s'.threads[t]) <==>
             s.fAllOk && AllTrue(s.queue) && Promising(s.threads[t])
    ensures Core(s')
  {
    Replaced(s.threads, t, s'.threads[t]);
  }

  /** A finished batch is taken off the books; the last one notifies the master. */
  lemma {:induction false} FinishOk(s: State, t: nat)
    requires Inv(s) && t < |s.threads| && s.threads[t].Running? && s.threads[t].todo == []
    ensures Inv(CleanUp(s, t))
  {
    assert ThreadOk(t, s.threads[t]);
    var s' := SetThread(s, t, Inside).(fAllOk := s.fAllOk && s.threads[t].fOk, nTodo := s.nTodo - s.threads[t].nNow);
    OneThread(s, s', t);
    if t != MASTER && s'.nTodo == 0 {
      OneThread(s', SetThread(s', MASTER, Notify(s'.threads[MASTER])), MASTER);
    }
  }

  lemma {:induction false} CleanUpOk(s: State, t: nat)
    requires Inv(s) && Enabled(s, Enter(t))
    ensures Inv(CleanUp(s, t)) && CleanUp(s, t).threads[t] == Inside
    ensures CleanUp(s, t).added == s.added && CleanUp(s, t).stop == s.stop && CleanUp(s, t).queue == s.queue
    ensures |CleanUp(s, t).threads| == |s.threads|
  {
    if s.threads[t].Running? {
      FinishOk(s, t);
    } else {
      OneThread(s, CleanUp(s, t), t);
    }
  }

  lemma {:induction false} NothingInFlight(threads: seq<Thread>)
    requires forall i :: 0 <= i < |threads| ==> ThreadOk(i, threads[i])
    requires Total(threads, InFlight) == 0
    ensures AllPromising(threads)
  {
    forall i | 0 <= i < |threads| ensures Promising(threads[i]) {
      assert ThreadOk(i, threads[i]);
      TotalAtLeast(threads, i, InFlight);
    }
  }

  lemma {:induction false} TakeOk(s: State, t: nat)
    requires Inv(s) && t < |s.threads| && s.threads[t] == Inside
    requires s.nTotal >= 0 && s.nIdle >= 0 && !s.stop && s.queue != []
    ensures Inv(LoopHead(s, t).next)
  {
    BatchFits(s);
    var start := |s.queue| - BatchLength(s);
    var rest, batch := s.queue[..start], s.queue[start..];
    assert s.queue == rest + batch;
    AllTrueConcat(rest, batch);
    OneThread(s, LoopHead(s, t).next, t);
  }

  lemma {:induction false} ReturnOk(s: State)
    requires Inv(s) && s.threads[MASTER] == Inside
    requires s.nTotal >= 0 && s.nIdle >= 0 && !s.stop && s.queue == [] && s.nTodo == 0
    ensures Inv(LoopHead(s, MASTER).next)
    ensures LoopHead(s, MASTER).returned == Some(AllTrue(s.added))
  {
    NothingInFlight(s.threads);
    Replaced(s.threads, MASTER, Outside);
  }

  /** The rest of a critical section keeps the invariant, and a verdict it returns is right. */
  lemma {:induction false} LoopHeadOk(s: State, t: nat)
    requires Inv(s) && t < |s.threads| && s.threads[t] == Inside && s.nTotal >= 0 && s.nIdle >= 0
    ensures Inv(LoopHead(s, t).next)
    ensures LoopHead(s, t).returned.Some? ==> LoopHead(s, t).returned.value == AllTrue(s.added)
    ensures LoopHead(s, t).returned.Some? <==> t == MASTER && s.queue == [] && s.nTodo == 0
    ensures LoopHead(s, t).next.added == if LoopHead(s, t).returned.Some? then [] else s.added
  {
    if s.stop {
      OneThread(s, SetThread(s, t, Exited), t);
    } else if s.queue != [] {
      TakeOk(s, t);
    } else if t == MASTER && s.nTodo == 0 {
      ReturnOk(s);
    } else {
      OneThread(s, SetThread(s, t, Waiting(false)).(nIdle := s.nIdle + 1), t);
    }
  }

  // ----- Whole runs -----

  lemma {:induction false} AddOk(s: State, checks: seq<bool>, woken: nat)
    requires Inv(s) && Enabled(s, Add(checks, woken))
    ensures Inv(AddChecks(s, checks, woken))
    ensures AddChecks(s, checks, woken).added == s.added + checks
  {
    if checks != [] {
      var added := s.(queue := s.queue + checks, nTodo := s.nTodo + |checks|, added := s.added + checks);
      AllTrueConcat(s.queue, checks);
      AllTrueConcat(s.added, checks);
      assert Inv(added);
      NotifyOk(added, AddChecks(s, checks, woken).threads);
    }
  }

  /** Every step keeps the invariant, and Wait returns whether all checks added since the last return hold. */
  lemma {:induction false} NextOk(s: State, a: Action)
    requires Inv(s) && Enabled(s, a)
    ensures Inv(Next(s, a).next)
    ensures Next(s, a).returned.Some? ==> Next(s, a).returned.value == AllTrue(s.added)
    ensures Next(s, a).next.added ==
            if Next(s, a).returned.Some? then [] else if a.Add? then s.added + a.checks else s.added
  {
    match a {
      case Add(checks, woken) => AddOk(s, checks, woken);
      case CallWait => OneThread(s, SetThread(s, MASTER, Starting), MASTER);
      case Enter(t) =>
        CleanUpOk(s, t);
        LoopHeadOk(CleanUp(s, t), t);
      case Check(t) => CheckOk(s, t);
      case Wake(t) =>
        var s' := SetThread(s, t, Inside).(nIdle := s.nIdle - 1);
        OneThread(s, s', t);
        LoopHeadOk(s', t);
      case Stop =>
        var s' := s.(stop := true);
        NotifyOk(s', Next(s, a).next.threads);
    }
  }

  lemma {:induction false} CheckOk(s: State, t: nat)
    requires Inv(s) && Enabled(s, Check(t))
    ensures Inv(Next(s, Check(t)).next)
  {
    var thread := s.threads[t];
    assert ThreadOk(t, thread);
    assert thread.todo == [thread.todo[0]] + thread.todo[1..];
    AllTrueConcat([thread.todo[0]], thread.todo[1..]);
    OneThread(s, Next(s, Check(t)).next, t);
  }

  lemma {:induction false} InitialOk(nBatchSize: nat, workers: nat)
    ensures Inv(Initial(nBatchSize, workers))
  {
    var s := Initial(nBatchSize, workers);
    StartTotals(s.threads, Idle);
    StartTotals(s.threads, Registered);
    StartTotals(s.threads, InFlight);
  }

  lemma {:induction false} StartTotals(threads: seq<Thread>, f: Thread -> nat)
    requires f(Outside) == 0 && f(Starting) == 0
    requires forall i :: 0 <= i < |threads| ==> threads[i] == Outside || threads[i] == Starting
    ensures Total(threads, f) == 0
  {
    if threads != [] { StartTotals(threads[1..], f); }
  }

  /** The counters never stand in the way of a step. */
  lemma {:induction false} ReadyIsEnabled(s: State, a: Action)
    requires Inv(s) && Ready(s, a)
    ensures Enabled(s, a)
  {
    if a.Wake? { TotalAtLeast(s.threads, a.t, Idle); }
  }

  datatype Event = Added(checks: seq<bool>) | Returned(verdict: bool)

  ghost predicate Runs(s: State, actions: seq<Action>)
    decreases |actions|
  {
    actions == [] || (Enabled(s, actions[0]) && Runs(Next(s, actions[0]).next, actions[1..]))
  }

  ghost function End(s: State, actions: seq<Action>): State
    requires Runs(s, actions)
    decreases |actions|
  {
    if actions == [] then s else End(Next(s, actions[0]).next, actions[1..])
  }

  /** What the owner of the queue sees of a run. */
  ghost function Trace(s: State, actions: seq<Action>): seq<Event>
    requires Runs(s, actions)
    decreases |actions|
  {
    if actions == [] then []
    else
      var o := Next(s, actions[0]);
      (if actions[0].Add? then [Added(actions[0].checks)] else [])
      + (if o.returned.Some? then [Returned(o.returned.value)] else [])
      + Trace(o.next, actions[1..])
  }

  /** Each verdict in a trace is whether all checks added since the one before are true. */
  ghost predicate VerdictsRight(trace: seq<Event>, pending: seq<bool>) {
    trace == [] ||
    match trace[0]
    case Added(checks) => VerdictsRight(trace[1..], pending + checks)
    case Returned(verdict) => verdict == AllTrue(pending) && VerdictsRight(trace[1..], [])
  }

  lemma {:induction false} RunOk(s: State, actions: seq<Action>)
    requires Inv(s) && Runs(s, actions)
    ensures Inv(End(s, actions))
    ensures VerdictsRight(Trace(s, actions), s.added)
    decreases |actions|
  {
    if actions != [] {
      var a := actions[0];
      var o := Next(s, a);
      NextOk(s, a);
      RunOk(o.next, actions[1..]);
      var rest := Trace(o.next, actions[1..]);
      assert ([] + []) + rest == rest;
      if a.Add? {
        assert Trace(s, actions)[1..] == rest;
      } else if o.returned.Some? {
        assert Trace(s, actions)[1..] == rest;
      } else {
        assert Trace(s, actions) == rest;
      }
    }
  }

  /** Every verdict of every run of a fresh queue, with any number of workers, is right; and in every
      state reached the counters are exact. */
  lemma {:induction false} EveryRunIsRight(nBatchSize: nat, workers: nat, actions: seq<Action>)
    requires Runs(Initial(nBatchSize, workers), actions)
    ensures VerdictsRight(Trace(Initial(nBatchSize, workers), actions), [])
    ensures var s := End(Initial(nBatchSize, workers), actions);
            Counted(s)
  {
    InitialOk(nBatchSize, workers);
    RunOk(Initial(nBatchSize, workers), actions);
  }

  // ----- The master is never stranded -----

  predicate Settled(s: State) {
    forall i :: 0 <= i < |s.threads| ==> !s.threads[i].Inside?
  }

  function Weight(thread: Thread): nat { if thread.Running? then 1 + |thread.todo| else 0 }

  function Rank(s: State): nat { 3 * |s.queue| + Total(s.threads, Weight) }

  /** Threads that have yet to look at the queue: new ones and notified ones. */
  function Due(thread: Thread): nat { if thread == Starting || thread == Waiting(true) then 1 else 0 }

  lemma {:induction false} LoopHeadRank(s: State, t: nat)
    requires t < |s.threads| && s.threads[t] == Inside && s.nTotal >= 0 && s.nIdle >= 0
    ensures Rank(LoopHead(s, t).next) <= Rank(s)
    ensures !s.stop && s.queue != [] ==> Rank(LoopHead(s, t).next) < Rank(s)
  {
    var s' := LoopHead(s, t).next;
    TotalUpdate(s.threads, t, s'.threads[t], Weight);
    if !s.stop && s.queue != [] { BatchFits(s); }
  }

  lemma {:induction false} CleanUpRank(s: State, t: nat)
    requires Inv(s) && Enabled(s, Enter(t))
    ensures Rank(CleanUp(s, t)) + Weight(s.threads[t]) == Rank(s)
  {
    TotalUpdate(s.threads, t, Inside, Weight);
    var ts := s.threads[t := Inside];
    TotalUpdate(ts, MASTER, Notify(ts[MASTER]), Weight);
  }

  /** No step of a thread inside the loop adds work. */
  lemma {:induction false} RankNeverGrows(s: State, a: Action)
    requires Inv(s) && Enabled(s, a) && (a.Enter? || a.Check? || a.Wake?)
    ensures Rank(Next(s, a).next) <= Rank(s)
    ensures a.Check? || (a.Enter? && s.threads[a.t].Running?) ==> Rank(Next(s, a).next) < Rank(s)
  {
    match a {
      case Enter(t) =>
        CleanUpOk(s, t);
        CleanUpRank(s, t);
        LoopHeadRank(CleanUp(s, t), t);
      case Check(t) => TotalUpdate(s.threads, t, Execute(s.threads[t]), Weight);
      case Wake(t) =>
        TotalUpdate(s.threads, t, Inside, Weight);
        LoopHeadRank(SetThread(s, t, Inside).(nIdle := s.nIdle - 1), t);
    }
  }

  /** The master has called Wait and has not returned from it. */
  predicate MasterInWait(s: State) {
    |s.threads| > 0 && !s.threads[MASTER].Outside?
  }

  /** A waiting master that nobody has notified has a worker at work for it. */
  lemma {:induction false} WaitingMasterHasWorker(s: State) returns (w: nat)
    requires Inv(s) && s.threads[MASTER] == Waiting(false)
    ensures s.nTodo > 0 && s.queue == []
    ensures 0 < w < |s.threads| && s.threads[w].Running?
  {
    w := TotalZero(s.threads, InFlight);
  }

  /** A step of a thread inside the loop that is no spurious wake-up: a waiting thread moves only when it
      has been notified. */
  predicate LoopStep(s: State, a: Action) {
    Enabled(s, a) && (a.Enter? || a.Check? || (a.Wake? && s.threads[a.t] == Waiting(true)))
  }

  /** While a Wait lasts, some thread can take such a step: the master itself, or a worker it waits for. */
  lemma {:induction false} NextMove(s: State) returns (a: Action)
    requires Inv(s) && Settled(s) && MasterInWait(s)
    ensures LoopStep(s, a)
  {
    var t := MASTER;
    if s.threads[MASTER] == Waiting(false) { t := WaitingMasterHasWorker(s); }
    assert ThreadOk(t, s.threads[t]) && !s.threads[t].Inside?;
    a := if s.threads[t].Waiting? then Wake(t)
         else if s.threads[t].Running? && s.threads[t].todo != [] then Check(t)
         else Enter(t);
    ReadyIsEnabled(s, a);
  }

  /** A thread that finds nothing to do is no longer due. */
  lemma {:induction false} LoopHeadDue(s: State, t: nat)
    requires t < |s.threads| && s.threads[t] == Inside && s.nTotal >= 0 && s.nIdle >= 0
    ensures Total(LoopHead(s, t).next.threads, Due) == Total(s.threads, Due)
  {
    var s' := LoopHead(s, t).next;
    TotalUpdate(s.threads, t, s'.threads[t], Due);
    assert s'.threads == s.threads[t := s'.threads[t]];
  }

  /** Every such step takes away work, or leaves the work and takes away a thread that is due. */
  lemma {:induction false} StepCounts(s: State, a: Action)
    requires Inv(s) && LoopStep(s, a)
    ensures var s' := Next(s, a).next;
            Rank(s') < Rank(s) || (Rank(s') == Rank(s) && Total(s'.threads, Due) < Total(s.threads, Due))
  {
    hide Inv;
    RankNeverGrows(s, a);
    match a {
      case Enter(t) =>
        if s.threads[t].Starting? {
          CleanUpOk(s, t);
          TotalUpdate(s.threads, t, Inside, Due);
          LoopHeadDue(CleanUp(s, t), t);
        }
      case Check(_) =>
      case Wake(t) =>
        TotalUpdate(s.threads, t, Inside, Due);
        LoopHeadDue(SetThread(s, t, Inside).(nIdle := s.nIdle - 1), t);
    }
  }

  lemma {:induction false} DueAtMost(threads: seq<Thread>)
    ensures Total(threads, Due) <= |threads|
  {
    if threads != [] { DueAtMost(threads[1..]); }
  }

  /** How many such steps there can be. */
  function Steps(s: State): nat { Rank(s) * (|s.threads| + 1) + Total(s.threads, Due) }

  lemma {:induction false} Lexicographic(r: nat, r': nat, d: nat, d': nat, n: nat)
    requires d' <= n && (r' < r || (r' == r && d' < d))
    ensures r' * (n + 1) + d' < r * (n + 1) + d
  {
    if r' < r { assert (r' + 1) * (n + 1) <= r * (n + 1); }
  }

  /** Until it returns, a Wait goes on as a Wait, with fewer steps left. */
  lemma {:induction false} WaitGoesOn(s: State, a: Action)
    requires Inv(s) && Settled(s) && MasterInWait(s) && LoopStep(s, a)
    ensures var o := Next(s, a);
            && Inv(o.next) && Settled(o.next) && Steps(o.next) < Steps(s)
            && (o.returned.None? ==> MasterInWait(o.next))
  {
    hide Inv, Rank, Due;
    NextOk(s, a);
    NextSettled(s, a);
    StepCounts(s, a);
    var o := Next(s, a);
    if a.Enter? { CleanUpOk(s, a.t); }
    DueAtMost(o.next.threads);
    Lexicographic(Rank(s), Rank(o.next), Total(s.threads, Due), Total(o.next.threads, Due), |s.threads|);
  }

  lemma {:induction false} LoopHeadSettled(s: State, t: nat)
    requires t < |s.threads| && s.nTotal >= 0 && s.nIdle >= 0
    requires forall i :: 0 <= i < |s.threads| && i != t ==> !s.threads[i].Inside?
    ensures Settled(LoopHead(s, t).next)
  {
    var s' := LoopHead(s, t).next;
    assert s'.threads == s.threads[t := s'.threads[t]] && !s'.threads[t].Inside?;
  }

  lemma {:induction false} NextSettled(s: State, a: Action)
    requires Settled(s) && Enabled(s, a)
    ensures Settled(Next(s, a).next)
  {
    match a {
      case Enter(t) => LoopHeadSettled(CleanUp(s, t), t);
      case Wake(t) => LoopHeadSettled(SetThread(s, t, Inside).(nIdle := s.nIdle - 1), t);
      case _ =>
    }
  }

  /** Steps inside the loop, none of them a spurious wake-up, up to the return from Wait at the latest. */
  ghost predicate Proceeds(s: State, actions: seq<Action>)
    decreases |actions|
  {
    actions == [] ||
    (&& LoopStep(s, actions[0])
     && var o := Next(s, actions[0]);
        if o.returned.Some? then |actions| == 1 else Proceeds(o.next, actions[1..]))
  }

  /** Such steps with the return from Wait as the last. */
  ghost predicate Finishes(s: State, actions: seq<Action>)
    decreases |actions|
  {
    && actions != [] && LoopStep(s, actions[0])
    && var o := Next(s, actions[0]);
       if o.returned.Some? then |actions| == 1 else Finishes(o.next, actions[1..])
  }

  /** Whichever threads run, a Wait makes only so many steps without spurious wake-ups; and unless it has
      returned there is a next one. */
  lemma {:induction false} WaitMustFinish(s: State, actions: seq<Action>)
    requires Inv(s) && Settled(s) && MasterInWait(s) && Proceeds(s, actions)
    ensures |actions| <= Steps(s)
    ensures Finishes(s, actions) || exists a :: Proceeds(s, actions + [a])
    decreases |actions|
  {
    hide Inv;
    hide Settled;
    if actions == [] {
      var a := NextMove(s);
      assert Proceeds(s, actions + [a]);
    } else {
      var o := Next(s, actions[0]);
      WaitGoesOn(s, actions[0]);
      if o.returned.None? {
        WaitMustFinish(o.next, actions[1..]);
        if a :| Proceeds(o.next, actions[1..] + [a]) {
          assert (actions + [a])[1..] == actions[1..] + [a];
          assert Proceeds(s, actions + [a]);
        }
      }
    }
  }

  /** From every reachable state of a Wait there is a schedule without spurious wake-ups that ends it. */
  lemma {:induction false} WaitCanFinish(s: State) returns (actions: seq<Action>)
    requires Inv(s) && Settled(s) && MasterInWait(s)
    ensures Finishes(s, actions)
    decreases Steps(s)
  {
    hide Inv;
    hide Settled;
    var a := NextMove(s);
    WaitGoesOn(s, a);
    var o := Next(s, a);
    if o.returned.Some? {
      actions := [a];
    } else {
      var rest := WaitCanFinish(o.next);
      actions := [a] + rest;
    }
  }

  lemma {:induction false} RunSettled(s: State, actions: seq<Action>)
    requires Settled(s) && Runs(s, actions)
    ensures Settled(End(s, actions))
    decreases |actions|
  {
    if actions != [] {
      NextSettled(s, actions[0]);
      RunSettled(Next(s, actions[0]).next, actions[1..]);
    }
  }

  /** In every run, with any number of workers, a master inside Wait is never stranded: whatever steps the
      threads take from there without spurious wake-ups, they come to an end, and only at the return. */
  lemma {:induction false} MasterIsNeverStranded(nBatchSize: nat, workers: nat, actions: seq<Action>, more: seq<Action>)
    requires Runs(Initial(nBatchSize, workers), actions)
    requires MasterInWait(End(Initial(nBatchSize, workers), actions))
    requires Proceeds(End(Initial(nBatchSize, workers), actions), more)
    ensures var s := End(Initial(nBatchSize, workers), actions);
            |more| <= Steps(s) && (Finishes(s, more) || exists a :: Proceeds(s, more + [a]))
  {
    var s := Initial(nBatchSize, workers);
    InitialOk(nBatchSize, workers);
    RunOk(s, actions);
    RunSettled(s, actions);
    WaitMustFinish(End(s, actions), more);
  }

  // ----- Shutting down -----

  /** Once a stop is requested, nobody waits without having been notified. */
  ghost predicate Awake(s: State) {
    s.stop ==> forall i :: 0 <= i < |s.threads| ==> s.threads[i] != Waiting(false)
  }

  lemma {:induction false} LoopHeadAwake(s: State, t: nat)
    requires t < |s.threads| && s.nTotal >= 0 && s.nIdle >= 0
    requires s.stop ==> forall i :: 0 <= i < |s.threads| && i != t ==> s.threads[i] != Waiting(false)
    ensures Awake(LoopHead(s, t).next)
  {
    var s' := LoopHead(s, t).next;
    assert s.stop ==> s'.threads == s.threads[t := s'.threads[t]] && !s'.threads[t].Waiting?;
  }

  lemma {:induction false} NextAwake(s: State, a: Action)
    requires Inv(s) && Enabled(s, a) && Awake(s)
    ensures Awake(Next(s, a).next)
  {
    match a {
      case Enter(t) => LoopHeadAwake(CleanUp(s, t), t);
      case Wake(t) => LoopHeadAwake(SetThread(s, t, Inside).(nIdle := s.nIdle - 1), t);
      case _ =>
    }
  }

  lemma {:induction false} RunAwake(s: State, actions: seq<Action>)
    requires Inv(s) && Awake(s) && Runs(s, actions)
    ensures Awake(End(s, actions))
    decreases |actions|
  {
    if actions != [] {
      NextAwake(s, actions[0]);
      NextOk(s, actions[0]);
      RunAwake(Next(s, actions[0]).next, actions[1..]);
    }
  }

  /** The steps of a thread up to its exit. */
  function StepsLeft(thread: Thread): nat {
    if thread.Exited? || thread.Outside? then 0 else if thread.Running? then 1 + |thread.todo| else 1
  }

  /** Every step after a stop brings a worker nearer to its exit. */
  lemma {:induction false} StopStep(s: State, a: Action)
    requires Inv(s) && s.stop && Enabled(s, a) && !a.Stop?
    ensures Next(s, a).next.stop
    ensures Total(Next(s, a).next.threads, StepsLeft) < Total(s.threads, StepsLeft)
  {
    var t := a.t;
    var s' := Next(s, a).next;
    TotalUpdate(s.threads, t, s'.threads[t], StepsLeft);
    assert s'.threads == s.threads[t := s'.threads[t]];
  }

  /** The workers run on, whichever and in whatever order, after a stop. */
  ghost predicate WindsDown(s: State, actions: seq<Action>)
    decreases |actions|
  {
    actions == [] || (LoopStep(s, actions[0]) && WindsDown(Next(s, actions[0]).next, actions[1..]))
  }

  ghost predicate AllExited(s: State) {
    forall i :: 0 < i < |s.threads| ==> s.threads[i].Exited?
  }

  /** After a stop only so many steps are possible, and as long as a worker has not exited there is one. */
  lemma {:induction false} StopMustEnd(s: State, actions: seq<Action>)
    requires Inv(s) && Settled(s) && Awake(s) && s.stop && WindsDown(s, actions)
    ensures |actions| <= Total(s.threads, StepsLeft)
    ensures (Runs(s, actions) && AllExited(End(s, actions))) || exists a :: WindsDown(s, actions + [a])
    decreases |actions|
  {
    if actions == [] {
      if i :| 0 < i < |s.threads| && !s.threads[i].Exited? {
        var a := StopMove(s, i);
        assert WindsDown(s, actions + [a]);
      }
    } else {
      var a := actions[0];
      var s' := Next(s, a).next;
      NextOk(s, a);
      NextSettled(s, a);
      NextAwake(s, a);
      StopStep(s, a);
      StopMustEnd(s', actions[1..]);
      if b :| WindsDown(s', actions[1..] + [b]) {
        assert (actions + [b])[1..] == actions[1..] + [b];
        assert WindsDown(s, actions + [b]);
      }
    }
  }

  lemma {:induction false} StopMove(s: State, i: nat) returns (a: Action)
    requires Inv(s) && Settled(s) && Awake(s) && s.stop
    requires 0 < i < |s.threads| && !s.threads[i].Exited?
    ensures LoopStep(s, a)
  {
    assert ThreadOk(i, s.threads[i]);
    a := if s.threads[i].Waiting? then Wake(i)
         else if s.threads[i].Running? && s.threads[i].todo != [] then Check(i) else Enter(i);
    ReadyIsEnabled(s, a);
  }

  /** In every run, with any number of workers, once a stop is requested every worker exits: whatever steps they take
      from there come to an end, and only when all have exited.  So the destructor's joins return. */
  lemma {:induction false} WorkersExit(nBatchSize: nat, workers: nat, actions: seq<Action>, more: seq<Action>)
    requires Runs(Initial(nBatchSize, workers), actions) && End(Initial(nBatchSize, workers), actions).stop
    requires WindsDown(End(Initial(nBatchSize, workers), actions), more)
    ensures var s := End(Initial(nBatchSize, workers), actions);
            && |more| <= Total(s.threads, StepsLeft)
            && ((Runs(s, more) && AllExited(End(s, more))) || exists a :: WindsDown(s, more + [a]))
  {
    var s := Initial(nBatchSize, workers);
    InitialOk(nBatchSize, workers);
    RunOk(s, actions);
    RunSettled(s, actions);
    RunAwake(s, actions);
    StopMustEnd(End(s, actions), more);
  }

  /** Adding one check notifies at most one waiting worker, adding more notifies all. */
  lemma {:induction false} AddIs(s: State, checks: seq<bool>, woken: nat)
    requires Enabled(s, Add(checks, woken))
    ensures var s' := Next(s, Add(checks, woken)).next;
            && s'.queue == s.queue + checks && s'.nTodo == s.nTodo + |checks| && s'.added == s.added + checks
            && s' == s.(queue := s'.queue, nTodo := s'.nTodo, added := s'.added, threads := s'.threads)
            && |s'.threads| == |s.threads|
            && forall i :: 0 <= i < |s.threads| ==>
                 s'.threads[i] == if s.threads[i].Waiting? && (|checks| > 1 || (|checks| == 1 && i == woken))
                                  then Waiting(true) else s.threads[i]
  {
  }

  /** Requesting a stop notifies every worker and changes nothing else. */
  lemma {:induction false} StopIs(s: State)
    requires Enabled(s, Stop)
    ensures var s' := Next(s, Stop).next;
            && s'.stop && s' == s.(stop := true, threads := s'.threads) && |s'.threads| == |s.threads|
            && forall i :: 0 <= i < |s.threads| ==>
                 s'.threads[i] == if s.threads[i].Waiting? then Waiting(true) else s.threads[i]
  {
  }
}
