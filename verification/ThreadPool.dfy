/** threadpool/threadpool.c: worker threads park themselves and dispatchers wake them.

    The model takes one step for each lock, unlock, wait and signal of the source, in every
    interleaving. Thread creation succeeds, tp_stop stays 0, and a condition variable wakes
    only when it is signalled; a signal that finds nobody waiting is lost. Call i of
    dispatch_threadpool carries job i, standing for its (fn, arg) pair. */
module ThreadPool {
  import opened Seqs

  const MAXT_IN_POOL := 200

  datatype Owner = Nobody | Dispatcher(i: nat) | Worker(j: nat)

  /** Where a call of dispatch_threadpool stands; the number is its local variable `thread`. */
  datatype CallPc =
    | Call                      // about to lock tp_mutex
    | Test(again: bool)         // holds tp_mutex, about to test the loop condition (again: after a wait)
    | Wait                      // asleep on tp_idle
    | Woken                     // signalled, must take tp_mutex again
    | LockThread(thread: int)   // popped a thread and stored the job, about to lock its mutex
    | Signal(thread: int)       // about to signal its condition variable
    | UnlockThread(thread: int)
    | Unlock(thread: int)       // about to unlock tp_mutex
    | Done(thread: int)

  /** Where a worker stands in wrapper_fn and save_thread. */
  datatype ThreadPc =
    | Start        // about to read fn and arg and call
    | Running      // inside the job
    | LockSelf     // about to lock its own mutex
    | LockPool     // in save_thread, about to lock tp_mutex
    | Save         // about to compare tp_index with tp_max_index
    | SignalIdle   // stored itself, about to signal tp_idle
    | UnlockPool
    | WaitCond     // about to wait on its own condition variable
    | Sleep
    | WokenUp      // signalled, must take its own mutex again
    | Release      // about to unlock its own mutex
    | Rejected     // save_thread found the list full: the worker will exit

  datatype Thread = Thread(pc: ThreadPc, job: nat, mutex: Owner)

  /** `list` is tp_list with -1 for NULL; `ran` counts how often each job was started, `runs` how
      often by which worker. */
  datatype State = State(
    max: nat,
    mutex: Owner,
    list: seq<int>,
    index: int,
    total: nat,
    calls: seq<CallPc>,
    threads: seq<Thread>,
    ran: multiset<nat>,
    runs: multiset<(nat, nat)>)

  datatype Step = Dispatch(i: nat) | Work(j: nat) | Wake(j: nat, i: nat)

  function Init(n: nat, max: nat): State {
    State(max, Nobody, seq(MAXT_IN_POOL, _ => -1), 0, 0, seq(n, _ => Call), [], multiset{}, multiset{})
  }

  predicate IsThread(s: State, j: int) {
    0 <= j < |s.threads|
  }

  predicate SomeoneWaits(s: State) {
    exists i :: 0 <= i < |s.calls| && s.calls[i] == Wait
  }

  predicate Enabled(s: State, step: Step) {
    match step
    case Dispatch(i) =>
      && i < |s.calls|
      && (match s.calls[i]
          case Call => s.mutex == Nobody
          case Test(_) => true
          case Wait => false
          case Woken => s.mutex == Nobody
          case LockThread(j) => IsThread(s, j) && s.threads[j].mutex == Nobody
          case Signal(j) => IsThread(s, j)
          case UnlockThread(j) => IsThread(s, j)
          case Unlock(_) => true
          case Done(_) => false)
    case Work(j) =>
      && j < |s.threads|
      && (match s.threads[j].pc
          case LockSelf => s.threads[j].mutex == Nobody
          case LockPool => s.mutex == Nobody
          case SignalIdle => !SomeoneWaits(s)
          case Sleep => false
          case WokenUp => s.threads[j].mutex == Nobody
          case Rejected => false
          case _ => true)
    case Wake(j, i) =>
      j < |s.threads| && s.threads[j].pc == SignalIdle && i < |s.calls| && s.calls[i] == Wait
  }

  function SetCall(s: State, i: nat, pc: CallPc): State
    requires i < |s.calls|
  {
    s.(calls := s.calls[i := pc])
  }

  function SetThread(s: State, j: nat, pc: ThreadPc, mutex: Owner): State
    requires j < |s.threads|
  {
    s.(threads := s.threads[j := s.threads[j].(pc := pc, mutex := mutex)])
  }

  /** The loop test, then either a wait, a new thread, or the pop of an idle thread. */
  function ApplyTest(s: State, i: nat): State
    requires i < |s.calls|
  {
    if s.index <= 0 && s.total >= s.max then
      SetCall(s, i, Wait).(mutex := Nobody)
    else if s.index <= 0 then
      SetCall(s, i, Unlock(|s.threads|))
      .(threads := s.threads + [Thread(Start, i, Nobody)], total := s.total + 1)
    else
      var k := s.index - 1;
      var j := if k < |s.list| then s.list[k] else -1;
      SetCall(s, i, LockThread(j))
      .(index := k,
        list := if k < |s.list| then s.list[k := -1] else s.list,
        threads := if IsThread(s, j) then s.threads[j := s.threads[j].(job := i)] else s.threads)
  }

  function ApplyDispatch(s: State, i: nat): State
    requires Enabled(s, Dispatch(i))
  {
    match s.calls[i]
    case Call => SetCall(s, i, Test(false)).(mutex := Dispatcher(i))
    case Woken => SetCall(s, i, Test(true)).(mutex := Dispatcher(i))
    case Test(_) => ApplyTest(s, i)
    case LockThread(j) => SetThread(SetCall(s, i, Signal(j)), j, s.threads[j].pc, Dispatcher(i))
    case Signal(j) =>
      var pc := if s.threads[j].pc == Sleep then WokenUp else s.threads[j].pc;
      SetThread(SetCall(s, i, UnlockThread(j)), j, pc, s.threads[j].mutex)
    case UnlockThread(j) => SetThread(SetCall(s, i, Unlock(j)), j, s.threads[j].pc, Nobody)
    case Unlock(j) => SetCall(s, i, Done(j)).(mutex := Nobody)
  }

  function ApplySave(s: State, j: nat): State
    requires j < |s.threads|
  {
    if s.index < s.max then
      SetThread(s, j, SignalIdle, s.threads[j].mutex)
      .(list := if 0 <= s.index < |s.list| then s.list[s.index := j] else s.list, index := s.index + 1)
    else
      SetThread(s, j, Rejected, s.threads[j].mutex)
  }

  function ApplyWork(s: State, j: nat): State
    requires Enabled(s, Work(j))
  {
    var t := s.threads[j];
    match t.pc
    case Start =>
      SetThread(s, j, Running, t.mutex).(ran := s.ran + multiset{t.job}, runs := s.runs + multiset{(t.job, j)})
    case Running => SetThread(s, j, LockSelf, t.mutex)
    case LockSelf => SetThread(s, j, LockPool, Worker(j))
    case LockPool => SetThread(s, j, Save, t.mutex).(mutex := Worker(j))
    case Save => ApplySave(s, j)
    case SignalIdle => SetThread(s, j, UnlockPool, t.mutex)
    case UnlockPool => SetThread(s, j, WaitCond, t.mutex).(mutex := Nobody)
    case WaitCond => SetThread(s, j, Sleep, Nobody)
    case WokenUp => SetThread(s, j, Release, Worker(j))
    case Release => SetThread(s, j, Start, Nobody)
  }

  function Apply(s: State, step: Step): State
    requires Enabled(s, step)
  {
    match step
    case Dispatch(i) => ApplyDispatch(s, i)
    case Work(j) => ApplyWork(s, j)
    case Wake(j, i) => SetThread(SetCall(s, i, Woken), j, UnlockPool, s.threads[j].mutex)
  }

  /** t is reached from s by these steps. */
  predicate Run(s: State, steps: seq<Step>, t: State)
    decreases |steps|
  {
    if steps == [] then s == t
    else Enabled(s, steps[0]) && Run(Apply(s, steps[0]), steps[1..], t)
  }

  // ---------- the invariant ----------

  predicate CallHoldsPool(pc: CallPc) {
    pc.Test? || pc.LockThread? || pc.Signal? || pc.UnlockThread? || pc.Unlock?
  }

  predicate ThreadHoldsPool(pc: ThreadPc) {
    pc.Save? || pc.SignalIdle? || pc.UnlockPool?
  }

  predicate HoldsSelf(pc: ThreadPc) {
    pc.LockPool? || pc.Save? || pc.SignalIdle? || pc.UnlockPool? || pc.WaitCond? || pc.Release?
  }

  predicate Parked(pc: ThreadPc) {
    pc.SignalIdle? || pc.UnlockPool? || pc.WaitCond? || pc.Sleep?
  }

  /** The worker has a job it has not started. */
  predicate Fresh(pc: ThreadPc) {
    pc.WokenUp? || pc.Release? || pc.Start?
  }

  predicate Assigned(pc: CallPc) {
    pc.LockThread? || pc.Signal? || pc.UnlockThread? || pc.Unlock? || pc.Done?
  }

  /** A dispatcher has popped thread j and not yet signalled it. */
  predicate Claimed(s: State, j: int) {
    && s.mutex.Dispatcher? && s.mutex.i < |s.calls|
    && (s.calls[s.mutex.i] == LockThread(j) || s.calls[s.mutex.i] == Signal(j))
  }

  predicate OnList(s: State, j: int) {
    0 <= s.index <= |s.list| && j in s.list[..s.index]
  }

  ghost predicate Sizes(s: State) {
    && |s.list| == MAXT_IN_POOL && 1 <= s.max <= MAXT_IN_POOL
    && s.total == |s.threads| && 0 <= s.index <= s.total <= s.max
  }

  ghost predicate PoolLock(s: State) {
    && (forall i :: 0 <= i < |s.calls| ==> (CallHoldsPool(s.calls[i]) <==> s.mutex == Dispatcher(i)))
    && (forall j :: 0 <= j < |s.threads| ==> (ThreadHoldsPool(s.threads[j].pc) <==> s.mutex == Worker(j)))
    && (s.mutex.Dispatcher? ==> s.mutex.i < |s.calls|)
    && (s.mutex.Worker? ==> s.mutex.j < |s.threads|)
  }

  ghost predicate ThreadLock(s: State, j: nat)
    requires j < |s.threads|
  {
    var t := s.threads[j];
    && (HoldsSelf(t.pc) <==> t.mutex == Worker(j))
    && (t.mutex.Worker? ==> t.mutex.j == j)
    && (t.mutex.Dispatcher? ==>
          s.mutex == t.mutex && t.mutex.i < |s.calls|
          && (s.calls[t.mutex.i] == Signal(j) || s.calls[t.mutex.i] == UnlockThread(j)))
    && (s.mutex.Dispatcher? && s.mutex.i < |s.calls| ==>
          s.calls[s.mutex.i] == Signal(j) || s.calls[s.mutex.i] == UnlockThread(j) ==> t.mutex == s.mutex)
  }

  ghost predicate Listed(s: State)
    requires Sizes(s)
  {
    && Distinct(s.list[..s.index])
    && AllBelow(s.list[..s.index], |s.threads|)
    && (forall k :: 0 <= k < s.index ==> Parked(s.threads[s.list[k]].pc) && !Claimed(s, s.list[k]))
    && (forall j :: 0 <= j < |s.threads| && Parked(s.threads[j].pc) && !Claimed(s, j) ==> OnList(s, j))
    && (forall j :: 0 <= j < |s.threads| ==> s.threads[j].pc != Rejected)
  }

  ghost predicate CallJob(s: State, i: nat)
    requires i < |s.calls|
  {
    var pc := s.calls[i];
    if !Assigned(pc) then s.ran[i] == 0
    else
      && IsThread(s, pc.thread)
      && var t := s.threads[pc.thread];
         match pc
         case LockThread(_) => s.ran[i] == 0 && t.job == i && (t.pc == WaitCond || t.pc == Sleep)
         case Signal(_) => s.ran[i] == 0 && t.job == i && t.pc == Sleep
         case UnlockThread(_) => s.ran[i] == 0 && t.job == i && t.pc == WokenUp
         case _ => s.ran[i] <= 1 && (s.ran[i] == 0 ==> t.job == i && Fresh(t.pc))
  }

  ghost predicate ThreadJob(s: State, j: nat)
    requires j < |s.threads|
  {
    var t := s.threads[j];
    && t.job < |s.calls|
    && (Fresh(t.pc) ==> s.ran[t.job] == 0 && Assigned(s.calls[t.job]) && s.calls[t.job].thread == j)
    && (!Fresh(t.pc) && !Claimed(s, j) ==> s.ran[t.job] == 1)
  }

  ghost predicate Jobs(s: State) {
    && (forall i :: 0 <= i < |s.calls| ==> CallJob(s, i))
    && (forall j :: 0 <= j < |s.threads| ==> ThreadJob(s, j))
    && (forall x :: x in s.ran ==> x < |s.calls|)
  }

  function IsWoken(pc: CallPc): int {
    if pc.Woken? || pc == Test(true) then 1 else 0
  }

  /** Dispatchers that were signalled and have not yet tested the condition again. */
  function WokenCount(s: State): int {
    Sum(seq(|s.calls|, i requires 0 <= i < |s.calls| => IsWoken(s.calls[i])))
  }

  /** 1 while a worker has stored itself and not yet signalled tp_idle. */
  function PendingSignal(s: State): int {
    if s.mutex.Worker? && s.mutex.j < |s.threads| && s.threads[s.mutex.j].pc == SignalIdle then 1 else 0
  }

  ghost predicate NoLostWakeup(s: State) {
    SomeoneWaits(s) ==> s.total >= s.max && s.index - PendingSignal(s) <= WokenCount(s)
  }

  /** Who holds which mutex, and who will be woken. */
  ghost predicate LockInv(s: State) {
    && Sizes(s)
    && PoolLock(s)
    && (forall j :: 0 <= j < |s.threads| ==> ThreadLock(s, j))
    && NoLostWakeup(s)
  }

  ghost predicate Inv(s: State) {
    LockInv(s) && Listed(s) && Jobs(s)
  }

  lemma WokenCountUpdate(s: State, s': State, i: nat)
    requires i < |s.calls| == |s'.calls| && s'.calls == s.calls[i := s'.calls[i]]
    ensures WokenCount(s') == WokenCount(s) - IsWoken(s.calls[i]) + IsWoken(s'.calls[i])
  {
    var xs := seq(|s.calls|, k requires 0 <= k < |s.calls| => IsWoken(s.calls[k]));
    var ys := seq(|s'.calls|, k requires 0 <= k < |s'.calls| => IsWoken(s'.calls[k]));
    assert ys == xs[i := IsWoken(s'.calls[i])];
    SumUpdate(xs, i, IsWoken(s'.calls[i]));
  }

  /** The steps that take or release tp_mutex. */
  lemma PoolLockKeepsInv(s: State, i: nat)
    requires Inv(s) && Enabled(s, Dispatch(i))
    requires s.calls[i].Call? || s.calls[i].Woken? || s.calls[i].Unlock?
    ensures Inv(Apply(s, Dispatch(i)))
  {
    var s' := Apply(s, Dispatch(i));
    WokenCountUpdate(s, s', i);
    assert CallJob(s, i);
    forall j | 0 <= j < |s'.threads| ensures ThreadLock(s', j) && ThreadJob(s', j) {
      assert ThreadLock(s, j) && ThreadJob(s, j);
    }
    forall k | 0 <= k < |s'.calls| ensures CallJob(s', k) {
      assert CallJob(s, k);
    }
  }

  /** The dispatcher locks the popped thread's mutex. */
  lemma LockThreadKeepsInv(s: State, i: nat)
    requires Inv(s) && Enabled(s, Dispatch(i))
    requires s.calls[i].LockThread?
    ensures Inv(Apply(s, Dispatch(i)))
  {
    var s' := Apply(s, Dispatch(i));
    WokenCountUpdate(s, s', i);
    assert CallJob(s, i);
    assert ThreadLock(s, s.calls[i].thread);
    assert LockInv(s') by {
      hide Jobs, Listed;
      forall j | 0 <= j < |s'.threads| ensures ThreadLock(s', j) {
        assert ThreadLock(s, j);
      }
    }
    hide PoolLock, ThreadLock, NoLostWakeup;
    forall j | 0 <= j < |s'.threads| ensures ThreadJob(s', j) {
      assert ThreadJob(s, j);
    }
    forall k | 0 <= k < |s'.calls| ensures CallJob(s', k) {
      assert CallJob(s, k);
    }
  }

  /** The dispatcher unlocks it. */
  lemma UnlockThreadKeepsInv(s: State, i: nat)
    requires Inv(s) && Enabled(s, Dispatch(i))
    requires s.calls[i].UnlockThread?
    ensures Inv(Apply(s, Dispatch(i)))
  {
    var s' := Apply(s, Dispatch(i));
    WokenCountUpdate(s, s', i);
    assert CallJob(s, i);
    assert ThreadLock(s, s.calls[i].thread);
    assert LockInv(s') by {
      hide Jobs, Listed;
      forall j | 0 <= j < |s'.threads| ensures ThreadLock(s', j) {
        assert ThreadLock(s, j);
      }
    }
    hide PoolLock, ThreadLock, NoLostWakeup;
    forall j | 0 <= j < |s'.threads| ensures ThreadJob(s', j) {
      assert ThreadJob(s, j);
    }
    forall k | 0 <= k < |s'.calls| ensures CallJob(s', k) {
      assert CallJob(s, k);
    }
  }

  /** The dispatcher signals the popped thread, which is asleep. */
  lemma SignalKeepsInv(s: State, i: nat)
    requires Inv(s) && Enabled(s, Dispatch(i))
    requires s.calls[i].Signal?
    ensures Inv(Apply(s, Dispatch(i)))
  {
    var s' := Apply(s, Dispatch(i));
    WokenCountUpdate(s, s', i);
    assert CallJob(s, i);
    assert ThreadLock(s, s.calls[i].thread);
    assert LockInv(s') by {
      hide Jobs, Listed;
      forall j | 0 <= j < |s'.threads| ensures ThreadLock(s', j) {
        assert ThreadLock(s, j);
      }
    }
    hide PoolLock, ThreadLock, NoLostWakeup;
    forall j | 0 <= j < |s'.threads| ensures ThreadJob(s', j) {
      assert ThreadJob(s, j);
    }
    forall k | 0 <= k < |s'.calls| ensures CallJob(s', k) {
      assert CallJob(s, k);
    }
  }

  lemma WaitKeepsInv(s: State, i: nat)
    requires Inv(s) && i < |s.calls| && s.calls[i].Test? && s.index == 0 && s.total >= s.max
    ensures Inv(ApplyTest(s, i))
  {
    var s' := ApplyTest(s, i);
    WokenCountUpdate(s, s', i);
    WokenCountNonNegative(s');
    assert CallJob(s, i);
    forall j | 0 <= j < |s'.threads| ensures ThreadLock(s', j) && ThreadJob(s', j) {
      assert ThreadLock(s, j) && ThreadJob(s, j);
    }
    forall k | 0 <= k < |s'.calls| ensures CallJob(s', k) {
      assert CallJob(s, k);
    }
  }

  lemma WokenCountNonNegative(s: State)
    ensures WokenCount(s) >= 0
  {
    SumBounds(seq(|s.calls|, i requires 0 <= i < |s.calls| => IsWoken(s.calls[i])), 0, 1);
  }

  lemma CreateKeepsInv(s: State, i: nat)
    requires Inv(s) && i < |s.calls| && s.calls[i].Test? && s.index == 0 && s.total < s.max
    ensures Inv(ApplyTest(s, i))
  {
    var s' := ApplyTest(s, i);
    WokenCountUpdate(s, s', i);
    assert CallJob(s, i);
    forall j | 0 <= j < |s'.threads| ensures ThreadLock(s', j) && ThreadJob(s', j) {
      assert j < |s.threads| ==> ThreadLock(s, j) && ThreadJob(s, j);
    }
    forall k | 0 <= k < |s'.calls| ensures CallJob(s', k) {
      assert CallJob(s, k);
    }
  }

  lemma PopKeepsLocks(s: State, i: nat)
    requires Inv(s) && i < |s.calls| && s.calls[i].Test? && s.index > 0
    ensures Sizes(ApplyTest(s, i)) && PoolLock(ApplyTest(s, i)) && NoLostWakeup(ApplyTest(s, i))
    ensures forall t :: 0 <= t < |s.threads| ==> ThreadLock(ApplyTest(s, i), t)
  {
    var s' := ApplyTest(s, i);
    WokenCountUpdate(s, s', i);
    forall t | 0 <= t < |s'.threads| ensures ThreadLock(s', t) {
      assert ThreadLock(s, t);
    }
  }

  lemma PopKeepsJobs(s: State, i: nat)
    requires Inv(s) && i < |s.calls| && s.calls[i].Test? && s.index > 0
    ensures forall t :: 0 <= t < |s.threads| ==> ThreadJob(ApplyTest(s, i), t)
    ensures forall k :: 0 <= k < |s.calls| ==> CallJob(ApplyTest(s, i), k)
  {
    var s' := ApplyTest(s, i);
    assert CallJob(s, i);
    var j := s.list[s.index - 1];
    assert s.list[..s.index][s.index - 1] == j;
    assert ThreadJob(s, j) && ThreadLock(s, j);
    hide PoolLock, ThreadLock, NoLostWakeup;
    forall t | 0 <= t < |s'.threads| ensures ThreadJob(s', t) {
      assert ThreadJob(s, t);
    }
    forall k | 0 <= k < |s'.calls| ensures CallJob(s', k) {
      assert CallJob(s, k);
    }
  }

  lemma PopKeepsInv(s: State, i: nat)
    requires Inv(s) && i < |s.calls| && s.calls[i].Test? && s.index > 0
    ensures Inv(ApplyTest(s, i))
  {
    var s' := ApplyTest(s, i);
    PopKeepsLocks(s, i);
    PopKeepsJobs(s, i);
    var j := s.list[s.index - 1];
    assert s.list[..s.index][s.index - 1] == j;
    assert s'.list[..s'.index] == s.list[..s.index][..s'.index];
    hide NoLostWakeup, ThreadLock, CallJob, ThreadJob;
  }

  lemma SameCalls(s: State, s': State)
    requires s'.calls == s.calls
    ensures SomeoneWaits(s') == SomeoneWaits(s) && WokenCount(s') == WokenCount(s)
  {
  }

  /** Where a worker's step takes it, away from save_thread's test. */
  function NextPc(pc: ThreadPc): ThreadPc {
    match pc
    case Start => Running
    case Running => LockSelf
    case LockSelf => LockPool
    case LockPool => Save
    case SignalIdle => UnlockPool
    case UnlockPool => WaitCond
    case WaitCond => Sleep
    case WokenUp => Release
    case Release => Start
    case other => other
  }

  /** Such a step changes the worker's own record and, at most, who holds tp_mutex and what has run. */
  lemma WorkChanges(s: State, j: nat)
    requires Enabled(s, Work(j)) && !s.threads[j].pc.Save?
    ensures
      var s', t := Apply(s, Work(j)), s.threads[j];
      && s'.calls == s.calls && s'.list == s.list && s'.index == s.index && s'.total == s.total && s'.max == s.max
      && |s'.threads| == |s.threads| && s'.threads == s.threads[j := s'.threads[j]]
      && s'.threads[j].pc == NextPc(t.pc) && s'.threads[j].job == t.job
      && s'.ran == s.ran + (if t.pc.Start? then multiset{t.job} else multiset{})
      && (s'.mutex == s.mutex || t.pc.LockPool? || t.pc.UnlockPool?)
      && (t.pc.LockPool? ==> s.mutex == Nobody && s'.mutex == Worker(j))
      && (t.pc.UnlockPool? ==> s'.mutex == Nobody)
      && (if t.pc.LockSelf? || t.pc.WokenUp? then t.mutex == Nobody && s'.threads[j].mutex == Worker(j)
          else if t.pc.WaitCond? || t.pc.Release? then s'.threads[j].mutex == Nobody
          else s'.threads[j].mutex == t.mutex)
  {
  }

  /** The worker's steps on its own mutex, and between its mutexes. */
  lemma OwnStepKeepsLocks(s: State, j: nat)
    requires Inv(s) && Enabled(s, Work(j))
    requires var pc := s.threads[j].pc;
             pc.Start? || pc.Running? || pc.LockSelf? || pc.WaitCond? || pc.WokenUp? || pc.Release?
    ensures LockInv(Apply(s, Work(j)))
  {
    var s' := Apply(s, Work(j));
    WorkChanges(s, j);
    hide Listed, Jobs, Apply, Enabled;
    SameCalls(s, s');
    hide WokenCount, SomeoneWaits;
    assert ThreadLock(s, j);
    forall t | 0 <= t < |s'.threads| ensures ThreadLock(s', t) {
      assert ThreadLock(s, t);
    }
  }

  /** The worker's steps on tp_mutex. */
  lemma PoolStepKeepsLocks(s: State, j: nat)
    requires Inv(s) && Enabled(s, Work(j))
    requires s.threads[j].pc.LockPool? || s.threads[j].pc.SignalIdle? || s.threads[j].pc.UnlockPool?
    ensures LockInv(Apply(s, Work(j)))
  {
    var s' := Apply(s, Work(j));
    WorkChanges(s, j);
    hide Listed, Jobs, Apply, Enabled;
    SameCalls(s, s');
    hide WokenCount, SomeoneWaits;
    assert ThreadLock(s, j);
    forall t | 0 <= t < |s'.threads| ensures ThreadLock(s', t) {
      assert ThreadLock(s, t);
    }
  }

  /** The worker starts its job. */
  lemma StartKeepsJobs(s: State, j: nat)
    requires Inv(s) && Enabled(s, Work(j)) && s.threads[j].pc.Start?
    ensures Sizes(Apply(s, Work(j))) && Listed(Apply(s, Work(j))) && Jobs(Apply(s, Work(j)))
  {
    var s' := Apply(s, Work(j));
    assert ThreadLock(s, j) && ThreadJob(s, j);
    WorkChanges(s, j);
    hide Apply, Enabled, PoolLock, ThreadLock, NoLostWakeup;
    forall t | 0 <= t < |s'.threads| ensures ThreadJob(s', t) {
      assert ThreadJob(s, t);
    }
    forall k | 0 <= k < |s'.calls| ensures CallJob(s', k) {
      assert CallJob(s, k);
    }
  }

  /** From the end of a job to its own mutex. */
  lemma LockSelfKeepsJobs(s: State, j: nat)
    requires Inv(s) && Enabled(s, Work(j))
    requires s.threads[j].pc.Running? || s.threads[j].pc.LockSelf?
    ensures Sizes(Apply(s, Work(j))) && Listed(Apply(s, Work(j))) && Jobs(Apply(s, Work(j)))
  {
    var s' := Apply(s, Work(j));
    assert ThreadLock(s, j) && ThreadJob(s, j);
    WorkChanges(s, j);
    hide Apply, Enabled, PoolLock, ThreadLock, NoLostWakeup;
    forall t | 0 <= t < |s'.threads| ensures ThreadJob(s', t) {
      assert ThreadJob(s, t);
    }
    forall k | 0 <= k < |s'.calls| ensures CallJob(s', k) {
      assert CallJob(s, k);
    }
  }

  /** In save_thread, around the saving. */
  lemma PoolStepKeepsJobs(s: State, j: nat)
    requires Inv(s) && Enabled(s, Work(j))
    requires s.threads[j].pc.LockPool? || s.threads[j].pc.SignalIdle? || s.threads[j].pc.UnlockPool?
    ensures Sizes(Apply(s, Work(j))) && Listed(Apply(s, Work(j))) && Jobs(Apply(s, Work(j)))
  {
    var s' := Apply(s, Work(j));
    assert ThreadLock(s, j) && ThreadJob(s, j);
    WorkChanges(s, j);
    hide Apply, Enabled, PoolLock, ThreadLock, NoLostWakeup;
    forall t | 0 <= t < |s'.threads| ensures ThreadJob(s', t) {
      assert ThreadJob(s, t);
    }
    forall k | 0 <= k < |s'.calls| ensures CallJob(s', k) {
      assert CallJob(s, k);
    }
  }

  /** Falling asleep. */
  lemma SleepKeepsJobs(s: State, j: nat)
    requires Inv(s) && Enabled(s, Work(j))
    requires s.threads[j].pc.WaitCond?
    ensures Sizes(Apply(s, Work(j))) && Listed(Apply(s, Work(j))) && Jobs(Apply(s, Work(j)))
  {
    var s' := Apply(s, Work(j));
    assert ThreadLock(s, j) && ThreadJob(s, j);
    WorkChanges(s, j);
    hide Apply, Enabled, PoolLock, ThreadLock, NoLostWakeup;
    forall t | 0 <= t < |s'.threads| ensures ThreadJob(s', t) {
      assert ThreadJob(s, t);
    }
    forall k | 0 <= k < |s'.calls| ensures CallJob(s', k) {
      assert CallJob(s, k);
    }
  }

  /** From the signal back to the loop head. */
  lemma ResumeKeepsJobs(s: State, j: nat)
    requires Inv(s) && Enabled(s, Work(j))
    requires s.threads[j].pc.WokenUp? || s.threads[j].pc.Release?
    ensures Sizes(Apply(s, Work(j))) && Listed(Apply(s, Work(j))) && Jobs(Apply(s, Work(j)))
  {
    var s' := Apply(s, Work(j));
    assert ThreadLock(s, j) && ThreadJob(s, j);
    WorkChanges(s, j);
    hide Apply, Enabled, PoolLock, ThreadLock, NoLostWakeup;
    forall t | 0 <= t < |s'.threads| ensures ThreadJob(s', t) {
      assert ThreadJob(s, t);
    }
    forall k | 0 <= k < |s'.calls| ensures CallJob(s', k) {
      assert CallJob(s, k);
    }
  }

  /** A worker in save_thread always finds room: it is not on the list itself. */
  lemma SaveHasRoom(s: State, j: nat)
    requires Inv(s) && j < |s.threads| && s.threads[j].pc == Save
    ensures s.index < s.total
  {
    DistinctBelowMissing(s.list[..s.index], |s.threads|, j);
  }

  lemma SaveKeepsLocks(s: State, j: nat)
    requires Inv(s) && j < |s.threads| && s.threads[j].pc == Save
    ensures Sizes(ApplySave(s, j)) && PoolLock(ApplySave(s, j)) && NoLostWakeup(ApplySave(s, j))
    ensures forall t :: 0 <= t < |s.threads| ==> ThreadLock(ApplySave(s, j), t)
  {
    var s' := ApplySave(s, j);
    SaveHasRoom(s, j);
    forall t | 0 <= t < |s'.threads| ensures ThreadLock(s', t) {
      assert ThreadLock(s, t);
    }
  }

  lemma SaveKeepsInv(s: State, j: nat)
    requires Inv(s) && j < |s.threads| && s.threads[j].pc == Save
    ensures Inv(ApplySave(s, j))
  {
    var s' := ApplySave(s, j);
    SaveHasRoom(s, j);
    SaveKeepsLocks(s, j);
    assert s'.list[..s'.index] == s.list[..s.index] + [j];
    forall t | 0 <= t < |s'.threads| ensures ThreadJob(s', t) {
      assert ThreadJob(s, t);
    }
    forall k | 0 <= k < |s'.calls| ensures CallJob(s', k) {
      assert CallJob(s, k);
    }
  }

  lemma WakeKeepsLocks(s: State, j: nat, i: nat)
    requires Inv(s) && Enabled(s, Wake(j, i))
    ensures LockInv(Apply(s, Wake(j, i)))
  {
    var s' := Apply(s, Wake(j, i));
    WokenCountUpdate(s, s', i);
    hide Listed, Jobs, WokenCount;
    assert ThreadLock(s, j);
    forall t | 0 <= t < |s'.threads| ensures ThreadLock(s', t) {
      assert ThreadLock(s, t);
    }
  }

  lemma WakeKeepsInv(s: State, j: nat, i: nat)
    requires Inv(s) && Enabled(s, Wake(j, i))
    ensures Inv(Apply(s, Wake(j, i)))
  {
    var s' := Apply(s, Wake(j, i));
    WakeKeepsLocks(s, j, i);
    assert CallJob(s, i) && ThreadJob(s, j);
    hide LockInv, NoLostWakeup;
    forall t | 0 <= t < |s'.threads| ensures ThreadJob(s', t) {
      assert ThreadJob(s, t);
    }
    forall k | 0 <= k < |s'.calls| ensures CallJob(s', k) {
      assert CallJob(s, k);
    }
  }

  lemma StepKeepsInv(s: State, step: Step)
    requires Inv(s) && Enabled(s, step)
    ensures Inv(Apply(s, step))
  {
    assert Sizes(s) && (step.Work? ==> s.threads[step.j].pc != Rejected);
    hide LockInv, Listed, Jobs, ApplyTest, ApplySave;
    match step
    case Dispatch(i) =>
      match s.calls[i] {
        case Call => PoolLockKeepsInv(s, i);
        case Woken => PoolLockKeepsInv(s, i);
        case Unlock(_) => PoolLockKeepsInv(s, i);
        case LockThread(_) => LockThreadKeepsInv(s, i);
        case Signal(_) => SignalKeepsInv(s, i);
        case UnlockThread(_) => UnlockThreadKeepsInv(s, i);
        case Test(_) =>
          if s.index > 0 {
            PopKeepsInv(s, i);
          } else if s.total < s.max {
            CreateKeepsInv(s, i);
          } else {
            WaitKeepsInv(s, i);
          }
      }
    case Work(j) =>
      match s.threads[j].pc {
        case Save => SaveKeepsInv(s, j);
        case LockPool => PoolStepKeepsLocks(s, j); PoolStepKeepsJobs(s, j);
        case SignalIdle => PoolStepKeepsLocks(s, j); PoolStepKeepsJobs(s, j);
        case UnlockPool => PoolStepKeepsLocks(s, j); PoolStepKeepsJobs(s, j);
        case Start => OwnStepKeepsLocks(s, j); StartKeepsJobs(s, j);
        case Running => OwnStepKeepsLocks(s, j); LockSelfKeepsJobs(s, j);
        case LockSelf => OwnStepKeepsLocks(s, j); LockSelfKeepsJobs(s, j);
        case WaitCond => OwnStepKeepsLocks(s, j); SleepKeepsJobs(s, j);
        case WokenUp => OwnStepKeepsLocks(s, j); ResumeKeepsJobs(s, j);
        case Release => OwnStepKeepsLocks(s, j); ResumeKeepsJobs(s, j);
        case _ =>
      }
    case Wake(j, i) => WakeKeepsInv(s, j, i);
  }

  lemma {:induction false} RunKeepsInv(s: State, steps: seq<Step>, t: State)
    requires Inv(s) && Run(s, steps, t)
    ensures Inv(t) && |t.calls| == |s.calls| && t.max == s.max
    decreases |steps|
  {
    if steps != [] {
      StepKeepsInv(s, steps[0]);
      RunKeepsInv(Apply(s, steps[0]), steps[1..], t);
    }
  }

  lemma InitInv(n: nat, max: nat)
    requires 1 <= max <= MAXT_IN_POOL
    ensures Inv(Init(n, max))
  {
  }

  // ---------- which worker ran which job ----------

  /** How often worker j has run job i: once if it ran at all and is the worker its call was given. */
  function Credit(s: State, i: nat, j: nat): nat {
    if i < |s.calls| && s.ran[i] == 1 && Assigned(s.calls[i]) && s.calls[i].thread == j then 1 else 0
  }

  ghost predicate RunBy(s: State) {
    forall i: nat, j: nat :: s.runs[(i, j)] == Credit(s, i, j)
  }

  lemma StartKeepsRunBy(s: State, j: nat)
    requires Inv(s) && RunBy(s) && Enabled(s, Work(j)) && s.threads[j].pc.Start?
    ensures RunBy(Apply(s, Work(j)))
  {
    var s' := Apply(s, Work(j));
    assert ThreadJob(s, j);
    forall i: nat, w: nat ensures s'.runs[(i, w)] == Credit(s', i, w) {
      assert s.runs[(i, w)] == Credit(s, i, w);
    }
  }

  /** A call keeps its worker from the moment it has one, and has one before its job runs. */
  lemma DispatchKeepsRunBy(s: State, i: nat)
    requires Inv(s) && RunBy(s) && Enabled(s, Dispatch(i))
    ensures RunBy(Apply(s, Dispatch(i)))
  {
    var s' := Apply(s, Dispatch(i));
    assert CallJob(s, i);
    hide Inv;
    forall k: nat, w: nat ensures s'.runs[(k, w)] == Credit(s', k, w) {
      assert s.runs[(k, w)] == Credit(s, k, w);
    }
  }

  lemma StepKeepsRunBy(s: State, step: Step)
    requires Inv(s) && RunBy(s) && Enabled(s, step)
    ensures RunBy(Apply(s, step))
  {
    if step.Dispatch? {
      DispatchKeepsRunBy(s, step.i);
    } else if step.Work? && s.threads[step.j].pc.Start? {
      StartKeepsRunBy(s, step.j);
    } else {
      var s' := Apply(s, step);
      hide Inv;
      forall i: nat, w: nat ensures s'.runs[(i, w)] == Credit(s', i, w) {
        assert s.runs[(i, w)] == Credit(s, i, w);
      }
    }
  }

  lemma {:induction false} RunKeepsRunBy(s: State, steps: seq<Step>, t: State)
    requires Inv(s) && RunBy(s) && Run(s, steps, t)
    ensures RunBy(t)
    decreases |steps|
  {
    if steps != [] {
      StepKeepsInv(s, steps[0]);
      StepKeepsRunBy(s, steps[0]);
      hide Inv, RunBy, Enabled;
      RunKeepsRunBy(Apply(s, steps[0]), steps[1..], t);
    }
  }

  // ---------- what the pool promises ----------

  /** In every interleaving each job is run by at most one worker, once: the worker named in the call
      that dispatched it. A call that has returned names the worker that ran its job or holds it next.
      Nothing that was not dispatched runs. */
  lemma ExactlyOneWorkerPerJob(n: nat, max: nat, steps: seq<Step>, t: State)
    requires 1 <= max <= MAXT_IN_POOL && Run(Init(n, max), steps, t)
    ensures |t.calls| == n
    ensures forall i :: 0 <= i < n ==> t.ran[i] <= 1
    ensures forall i :: i in t.ran ==> i < n
    ensures forall i: nat, j: nat :: t.runs[(i, j)] <= 1
    ensures forall i: nat, j: nat :: (i, j) in t.runs <==>
              i < n && t.ran[i] == 1 && Assigned(t.calls[i]) && t.calls[i].thread == j
    ensures forall i :: 0 <= i < n && t.ran[i] == 1 ==> Assigned(t.calls[i]) && IsThread(t, t.calls[i].thread)
    ensures forall i :: 0 <= i < n && t.calls[i].Done? && t.ran[i] == 0 ==>
              IsThread(t, t.calls[i].thread)
              && t.threads[t.calls[i].thread].job == i && Fresh(t.threads[t.calls[i].thread].pc)
    ensures forall i, j :: 0 <= i < n && 0 <= j < |t.threads| && Fresh(t.threads[j].pc) && t.threads[j].job == i ==>
              t.ran[i] == 0 && Assigned(t.calls[i]) && t.calls[i].thread == j
  {
    InitInv(n, max);
    RunKeepsInv(Init(n, max), steps, t);
    RunKeepsRunBy(Init(n, max), steps, t);
    forall i: nat, j: nat ensures t.runs[(i, j)] == Credit(t, i, j) {
    }
    forall i | 0 <= i < n
      ensures t.ran[i] <= 1
      ensures t.ran[i] == 1 ==> Assigned(t.calls[i]) && IsThread(t, t.calls[i].thread)
      ensures t.calls[i].Done? && t.ran[i] == 0 ==>
                IsThread(t, t.calls[i].thread)
                && t.threads[t.calls[i].thread].job == i && Fresh(t.threads[t.calls[i].thread].pc)
    {
      assert CallJob(t, i);
    }
    forall j | 0 <= j < |t.threads| && Fresh(t.threads[j].pc)
      ensures t.threads[j].job < n && t.ran[t.threads[j].job] == 0
      ensures Assigned(t.calls[t.threads[j].job]) && t.calls[t.threads[j].job].thread == j
    {
      assert ThreadJob(t, j);
    }
  }

  /** A dispatcher that pops a worker overwrites only a job that has run, and the worker it
      signals is asleep, so the signal is not lost. */
  lemma NoJobOverwrittenNoSignalLost(n: nat, max: nat, steps: seq<Step>, t: State, i: nat)
    requires 1 <= max <= MAXT_IN_POOL && Run(Init(n, max), steps, t) && i < n
    ensures i < |t.calls| && 0 <= t.index <= |t.list|
    ensures t.calls[i].Test? && t.index > 0 ==>
              IsThread(t, t.list[t.index - 1])
              && t.ran[t.threads[t.list[t.index - 1]].job] == 1
              && Parked(t.threads[t.list[t.index - 1]].pc)
    ensures t.calls[i].Signal? ==>
              IsThread(t, t.calls[i].thread)
              && t.threads[t.calls[i].thread].pc == Sleep && t.threads[t.calls[i].thread].job == i
  {
    InitInv(n, max);
    RunKeepsInv(Init(n, max), steps, t);
    assert CallJob(t, i);
    if t.index > 0 {
      var j := t.list[..t.index][t.index - 1];
      assert ThreadJob(t, j);
    }
  }

  /** tp_index <= tp_total <= tp_max_index, save_thread never fails, and while a dispatcher
      sleeps on tp_idle the idle workers do not outnumber those already woken for them. */
  lemma CountersAndWakeups(n: nat, max: nat, steps: seq<Step>, t: State)
    requires 1 <= max <= MAXT_IN_POOL && Run(Init(n, max), steps, t)
    ensures 0 <= t.index <= t.total <= max && t.total == |t.threads|
    ensures forall j :: 0 <= j < |t.threads| ==> t.threads[j].pc != Rejected
    ensures SomeoneWaits(t) ==> t.index - PendingSignal(t) <= WokenCount(t)
  {
    InitInv(n, max);
    RunKeepsInv(Init(n, max), steps, t);
  }

  ghost predicate Stuck(s: State) {
    forall step :: !Enabled(s, step)
  }

  /** Whoever holds tp_mutex can move, or the worker it waits for can. */
  lemma HolderMoves(s: State)
    requires Inv(s) && s.mutex != Nobody
    ensures !Stuck(s)
  {
    match s.mutex
    case Dispatcher(i) =>
      assert CallHoldsPool(s.calls[i]) && CallJob(s, i);
      if s.calls[i].LockThread? {
        var j := s.calls[i].thread;
        assert ThreadLock(s, j);
        if s.threads[j].mutex != Nobody {
          assert Enabled(s, Work(j));
        } else {
          assert Enabled(s, Dispatch(i));
        }
      } else {
        assert Enabled(s, Dispatch(i));
      }
    case Worker(j) =>
      assert ThreadHoldsPool(s.threads[j].pc);
      if s.threads[j].pc == SignalIdle && SomeoneWaits(s) {
        var i :| 0 <= i < |s.calls| && s.calls[i] == Wait;
        assert Enabled(s, Wake(j, i));
      } else {
        assert Enabled(s, Work(j));
      }
  }

  /** With tp_mutex free, a worker that cannot move is asleep. */
  lemma IdleWorker(s: State, j: nat)
    requires Inv(s) && s.mutex == Nobody && j < |s.threads| && !Enabled(s, Work(j))
    ensures s.threads[j].pc == Sleep && s.ran[s.threads[j].job] == 1 && OnList(s, j)
  {
    assert ThreadLock(s, j) && ThreadJob(s, j);
  }

  lemma NobodyWoken(s: State)
    requires forall i :: 0 <= i < |s.calls| ==> IsWoken(s.calls[i]) == 0
    ensures WokenCount(s) == 0
  {
    SumBounds(seq(|s.calls|, i requires 0 <= i < |s.calls| => IsWoken(s.calls[i])), 0, 0);
  }

  /** No deadlock: a state in which nothing can move is one in which every call has returned,
      every job has run exactly once, and every worker sleeps on the idle list. */
  lemma StuckMeansFinished(s: State)
    requires Inv(s) && Stuck(s)
    ensures forall i :: 0 <= i < |s.calls| ==> s.calls[i].Done? && s.ran[i] == 1
    ensures forall j :: 0 <= j < |s.threads| ==> s.threads[j].pc == Sleep && OnList(s, j)
  {
    if s.mutex != Nobody {
      HolderMoves(s);
    }
    forall j | 0 <= j < |s.threads| ensures s.threads[j].pc == Sleep && s.ran[s.threads[j].job] == 1 && OnList(s, j) {
      assert !Enabled(s, Work(j));
      IdleWorker(s, j);
    }
    forall i | 0 <= i < |s.calls| ensures s.calls[i].Done? || s.calls[i].Wait? {
      assert !Enabled(s, Dispatch(i));
    }
    NobodyWoken(s);
    if |s.threads| > 0 {
      assert OnList(s, 0);
    }
    forall i | 0 <= i < |s.calls| ensures s.calls[i].Done? && s.ran[i] == 1 {
      assert CallJob(s, i);
      assert s.calls[i] != Wait;
    }
  }

  // ---------- every run ends ----------

  /** Steps a call may still pay for, its worker's whole round included. */
  function CallWeight(pc: CallPc): int {
    match pc
    case Call => 19
    case Woken => 19
    case Test(_) => 18
    case Wait => 17
    case LockThread(_) => 16
    case Signal(_) => 15
    case UnlockThread(_) => 2
    case Unlock(_) => 1
    case Done(_) => 0
  }

  function ThreadWeight(pc: ThreadPc): int {
    match pc
    case WokenUp => 12
    case Release => 11
    case Start => 10
    case Running => 9
    case LockSelf => 8
    case LockPool => 7
    case Save => 6
    case SignalIdle => 5
    case UnlockPool => 2
    case WaitCond => 1
    case Sleep => 0
    case Rejected => 0
  }

  function CallWeights(s: State): seq<int> {
    seq(|s.calls|, i requires 0 <= i < |s.calls| => CallWeight(s.calls[i]))
  }

  function ThreadWeights(s: State): seq<int> {
    seq(|s.threads|, j requires 0 <= j < |s.threads| => ThreadWeight(s.threads[j].pc))
  }

  function Budget(s: State): int {
    Sum(CallWeights(s)) + Sum(ThreadWeights(s))
  }

  lemma CallWeightUpdate(s: State, s': State, i: nat)
    requires i < |s.calls| == |s'.calls| && s'.calls == s.calls[i := s'.calls[i]]
    ensures Sum(CallWeights(s')) == Sum(CallWeights(s)) - CallWeight(s.calls[i]) + CallWeight(s'.calls[i])
  {
    assert CallWeights(s') == CallWeights(s)[i := CallWeight(s'.calls[i])];
    SumUpdate(CallWeights(s), i, CallWeight(s'.calls[i]));
  }

  lemma ThreadWeightUpdate(s: State, s': State, j: nat)
    requires j < |s.threads| == |s'.threads|
    requires forall k :: 0 <= k < |s.threads| && k != j ==> s'.threads[k].pc == s.threads[k].pc
    ensures Sum(ThreadWeights(s')) ==
            Sum(ThreadWeights(s)) - ThreadWeight(s.threads[j].pc) + ThreadWeight(s'.threads[j].pc)
  {
    assert ThreadWeights(s') == ThreadWeights(s)[j := ThreadWeight(s'.threads[j].pc)];
    SumUpdate(ThreadWeights(s), j, ThreadWeight(s'.threads[j].pc));
  }

  lemma TestSpends(s: State, i: nat)
    requires Inv(s) && i < |s.calls| && s.calls[i].Test?
    ensures Budget(ApplyTest(s, i)) < Budget(s)
  {
    var s' := ApplyTest(s, i);
    assert Sizes(s);
    hide Inv, LockInv, Listed, Jobs;
    CallWeightUpdate(s, s', i);
    if s.index == 0 && s.total < s.max {
      assert ThreadWeights(s') == ThreadWeights(s) + [10];
      SumAppend(ThreadWeights(s), 10);
    } else {
      assert ThreadWeights(s') == ThreadWeights(s);
    }
  }

  lemma DispatchSpends(s: State, i: nat)
    requires Inv(s) && Enabled(s, Dispatch(i)) && !s.calls[i].Test?
    ensures Budget(Apply(s, Dispatch(i))) < Budget(s)
  {
    var s' := Apply(s, Dispatch(i));
    assert CallJob(s, i);
    hide Inv, LockInv, Listed, Jobs;
    CallWeightUpdate(s, s', i);
    if s.calls[i].Signal? {
      ThreadWeightUpdate(s, s', s.calls[i].thread);
    } else {
      assert ThreadWeights(s') == ThreadWeights(s);
    }
  }

  lemma WorkSpends(s: State, j: nat)
    requires Inv(s) && Enabled(s, Work(j))
    ensures Budget(Apply(s, Work(j))) < Budget(s)
  {
    var s' := Apply(s, Work(j));
    SaveSpends(s, j);
    hide Inv, Sizes;
    assert CallWeights(s') == CallWeights(s);
    ThreadWeightUpdate(s, s', j);
  }

  /** Each step spends at least one unit. */
  lemma StepSpends(s: State, step: Step)
    requires Inv(s) && Enabled(s, step)
    ensures Budget(Apply(s, step)) < Budget(s)
  {
    match step
    case Dispatch(i) =>
      if s.calls[i].Test? {
        TestSpends(s, i);
      } else {
        DispatchSpends(s, i);
      }
    case Work(j) => WorkSpends(s, j);
    case Wake(j, i) =>
      CallWeightUpdate(s, Apply(s, step), i);
      ThreadWeightUpdate(s, Apply(s, step), j);
  }

  lemma SaveSpends(s: State, j: nat)
    requires Inv(s) && Enabled(s, Work(j))
    ensures s.threads[j].pc == Save ==> s.index < s.max
  {
    if s.threads[j].pc == Save {
      SaveHasRoom(s, j);
    }
  }

  lemma {:induction false} RunIsBounded(s: State, steps: seq<Step>, t: State)
    requires Inv(s) && Run(s, steps, t)
    ensures |steps| + Budget(t) <= Budget(s)
    decreases |steps|
  {
    if steps != [] {
      StepSpends(s, steps[0]);
      StepKeepsInv(s, steps[0]);
      RunIsBounded(Apply(s, steps[0]), steps[1..], t);
    }
  }

  lemma BudgetBounds(n: nat, max: nat, t: State)
    ensures Budget(Init(n, max)) == 19 * n && Budget(t) >= 0
  {
    var s := Init(n, max);
    SumBounds(CallWeights(s), 19, 19);
    SumBounds(CallWeights(t), 0, 19);
    SumBounds(ThreadWeights(t), 0, 12);
  }

  /** Total correctness: a pool given n jobs takes at most 19 n steps in any interleaving, and
      when it can take no more, every job has run exactly once, by the worker its call returned,
      and nothing else has. */
  lemma EveryRunCompletes(n: nat, max: nat, steps: seq<Step>, t: State)
    requires 1 <= max <= MAXT_IN_POOL && Run(Init(n, max), steps, t)
    ensures |steps| <= 19 * n
    ensures |t.calls| == n
    ensures Stuck(t) ==> forall i :: 0 <= i < n ==> t.calls[i].Done? && t.ran[i] == 1
    ensures Stuck(t) ==> forall i :: i in t.ran ==> i < n
    ensures Stuck(t) ==> forall i: nat, j: nat ::
              t.runs[(i, j)] == if i < n && t.calls[i].thread == j then 1 else 0
  {
    var s := Init(n, max);
    InitInv(n, max);
    RunKeepsInv(s, steps, t);
    ExactlyOneWorkerPerJob(n, max, steps, t);
    RunIsBounded(s, steps, t);
    BudgetBounds(n, max, t);
    if Stuck(t) {
      StuckMeansFinished(t);
    }
  }

  // ---------- idle workers are used before new ones are made ----------

  /** How many workers are not on the list. */
  function Busy(s: State): int {
    |s.threads| - s.index
  }

  lemma WorkKeepsThreads(s: State, step: Step)
    requires Enabled(s, step) && !step.Dispatch?
    ensures |Apply(s, step).threads| == |s.threads|
  {
  }

  /** A step makes a worker only when none is on the list; it is then a dispatcher's, under tp_mutex. */
  lemma NewOnlyWhenNoneIdle(s: State, step: Step)
    requires Inv(s) && Enabled(s, step)
    ensures |s.threads| <= |Apply(s, step).threads| <= |s.threads| + 1
    ensures |Apply(s, step).threads| > |s.threads| ==>
              && s.index == 0 && (forall j :: 0 <= j < |s.threads| ==> !OnList(s, j))
              && step.Dispatch? && s.mutex == Dispatcher(step.i) && Busy(Apply(s, step)) == |s.threads| + 1
  {
    hide Listed, Jobs, NoLostWakeup, ThreadLock;
    if !step.Dispatch? {
      WorkKeepsThreads(s, step);
    }
  }

  /** The most workers that were off the list at once. */
  function Peak(s: State, steps: seq<Step>, t: State): (m: int)
    requires Run(s, steps, t)
    ensures m >= Busy(s)
    decreases |steps|
  {
    if steps == [] then Busy(s)
    else
      var rest := Peak(Apply(s, steps[0]), steps[1..], t);
      if Busy(s) > rest then Busy(s) else rest
  }

  lemma {:induction false} ThreadsWithinPeak(s: State, steps: seq<Step>, t: State)
    requires Inv(s) && Run(s, steps, t)
    ensures |t.threads| <= |s.threads| || |t.threads| <= Peak(s, steps, t)
    decreases |steps|
  {
    if steps != [] {
      StepKeepsInv(s, steps[0]);
      NewOnlyWhenNoneIdle(s, steps[0]);
      ThreadsWithinPeak(Apply(s, steps[0]), steps[1..], t);
      hide Inv, Apply, Enabled, Run;
    }
  }

  /** Idle workers are reused: over any run no more workers are ever made than were off the list at once. */
  lemma NoMoreThanWereBusy(n: nat, max: nat, steps: seq<Step>, t: State)
    requires 1 <= max <= MAXT_IN_POOL && Run(Init(n, max), steps, t)
    ensures t.total == |t.threads| <= Peak(Init(n, max), steps, t)
  {
    InitInv(n, max);
    RunKeepsInv(Init(n, max), steps, t);
    ThreadsWithinPeak(Init(n, max), steps, t);
    hide Listed, Jobs, PoolLock, NoLostWakeup, ThreadLock, Run, Peak;
  }

  // ---------- one call after another ----------

  /** A call that has not yet been given a worker. */
  predicate Deciding(pc: CallPc) {
    pc.Test? || pc.Wait? || pc.Woken?
  }

  /** No call is under way, and every worker is on the list. */
  predicate AllParked(s: State) {
    s.index == |s.threads| && forall i :: 0 <= i < |s.calls| ==> s.calls[i].Call? || s.calls[i].Done?
  }

  predicate BeginsCall(s: State, step: Step) {
    step.Dispatch? && step.i < |s.calls| && s.calls[step.i].Call?
  }

  /** Each call is made only after the one before returned and its worker parked. */
  predicate OneByOne(s: State, steps: seq<Step>, t: State)
    requires Run(s, steps, t)
    decreases |steps|
  {
    steps != [] ==>
      (BeginsCall(s, steps[0]) ==> AllParked(s)) && OneByOne(Apply(s, steps[0]), steps[1..], t)
  }

  ghost predicate Single(s: State) {
    && |s.threads| <= 1
    && (forall i :: 0 <= i < |s.calls| && Deciding(s.calls[i]) ==> s.index == |s.threads|)
    && (forall i, k :: 0 <= i < k < |s.calls| ==> !(Deciding(s.calls[i]) && Deciding(s.calls[k])))
  }

  lemma DispatchKeepsSingle(s: State, i: nat)
    requires Inv(s) && Single(s) && Enabled(s, Dispatch(i)) && (s.calls[i].Call? ==> AllParked(s))
    ensures Single(Apply(s, Dispatch(i)))
  {
    NewOnlyWhenNoneIdle(s, Dispatch(i));
    hide Listed, Jobs, NoLostWakeup, ThreadLock, PoolLock;
  }

  lemma OtherKeepsSingle(s: State, step: Step)
    requires Inv(s) && Single(s) && Enabled(s, step) && !step.Dispatch?
    ensures Single(Apply(s, step))
  {
    if step.Work? && s.threads[step.j].pc == Save {
      SaveHasRoom(s, step.j);
    }
    hide Listed, Jobs, NoLostWakeup, ThreadLock, PoolLock;
  }

  lemma {:induction false} SingleThroughout(s: State, steps: seq<Step>, t: State)
    requires Inv(s) && Single(s) && Run(s, steps, t) && OneByOne(s, steps, t)
    ensures |t.threads| <= 1
    decreases |steps|
  {
    if steps != [] {
      StepKeepsInv(s, steps[0]);
      if steps[0].Dispatch? {
        DispatchKeepsSingle(s, steps[0].i);
      } else {
        OtherKeepsSingle(s, steps[0]);
      }
      hide Inv, Apply, Single, Enabled, AllParked;
      SingleThroughout(Apply(s, steps[0]), steps[1..], t);
    }
  }

  /** Calls made one after another, each after the worker parked again, share one worker. */
  lemma OneWorkerForCallsInTurn(n: nat, max: nat, steps: seq<Step>, t: State)
    requires 1 <= max <= MAXT_IN_POOL && Run(Init(n, max), steps, t) && OneByOne(Init(n, max), steps, t)
    ensures |t.threads| <= 1
    ensures forall i :: 0 <= i < |t.calls| && Assigned(t.calls[i]) ==> t.calls[i].thread == 0
  {
    InitInv(n, max);
    SingleThroughout(Init(n, max), steps, t);
    RunKeepsInv(Init(n, max), steps, t);
    hide Run, OneByOne, Listed, LockInv;
    forall i | 0 <= i < |t.calls| && Assigned(t.calls[i]) ensures t.calls[i].thread == 0 {
      assert CallJob(t, i);
    }
  }
}
