/**
 The script check queue: one master and any number of workers share a stack of checks.

 Every critical section of the original is one atomic step here, taken by any thread in any
 order. A check is represented by the answer it would give. Waking up needs no reason, so
 spurious wake-ups are covered. The shutdown flag is never raised.
 */
module CheckQueue {
  import opened Basics
  import opened Sums
  import Products

  type ThreadId = nat

  const MASTER: ThreadId := 0

  /** Where a thread is: not in the loop, running a batch outside the lock (with the status it saw
      when it took the batch), or asleep on its condition variable. */
  datatype Thread = Outside | Running(batch: seq<bool>, ok: bool) | Asleep(signalled: bool)

  /** The shared fields, the threads, and the checks added since the master last returned. */
  datatype State = State(queue: seq<bool>, nIdle: int, nTotal: int, fAllOk: bool, nTodo: int, nBatchSize: nat,
                         threads: map<ThreadId, Thread>, added: seq<bool>)

  predicate All(checks: seq<bool>) { forall i :: 0 <= i < |checks| ==> checks[i] }

  // --- the steps ---------------------------------------------------------------------

  function BatchSize(s: State): (n: nat)
    requires s.queue != [] && s.nTotal >= 0 && s.nIdle >= 0
    ensures 1 <= n <= |s.queue|
  {
    var share := |s.queue| / (s.nTotal + s.nIdle + 1);
    var capped := if s.nBatchSize < share then s.nBatchSize else share;
    if capped < 1 then 1 else capped
  }

  /** A batch of more than one leaves as much for every other thread, busy or idle, and one more, and is within the limit; it
      is the largest such batch. */
  lemma FairShare(s: State)
    requires s.queue != [] && s.nTotal >= 0 && s.nIdle >= 0
    ensures BatchSize(s) > 1 ==> BatchSize(s) <= s.nBatchSize && BatchSize(s) * (s.nTotal + s.nIdle + 1) <= |s.queue|
    ensures BatchSize(s) < s.nBatchSize ==> (BatchSize(s) + 1) * (s.nTotal + s.nIdle + 1) > |s.queue|
  {
    var k, n := s.nTotal + s.nIdle + 1, BatchSize(s);
    var share := |s.queue| / k;
    Products.DivMod(|s.queue|, k);
    if n <= share {
      Products.MulMono(n, share, k);
    }
    if share <= n {
      Products.MulMono(share + 1, n + 1, k);
    }
  }

  /** The rest of a critical section: return, go to sleep, or take a batch off the stack. */
  function LoopTop(s: State, t: ThreadId): (r: (State, Option<bool>))
    requires s.nTotal >= 0 && s.nIdle >= 0
  {
    if s.queue == [] then
      if t == MASTER && s.nTodo == 0 then
        (s.(nTotal := s.nTotal - 1, fAllOk := true, added := [], threads := s.threads[t := Outside]), Some(s.fAllOk))
      else
        (s.(nIdle := s.nIdle + 1, threads := s.threads[t := Asleep(false)]), None)
    else
      var n := |s.queue| - BatchSize(s);
      (s.(queue := s.queue[..n], threads := s.threads[t := Running(s.queue[n..], s.fAllOk)]), None)
  }

  function Signal(threads: map<ThreadId, Thread>, t: ThreadId): (r: map<ThreadId, Thread>) {
    if t in threads && threads[t].Asleep? then threads[t := Asleep(true)] else threads
  }

  /** The state right after a thread has accounted for its batch. */
  function Accounted(s: State, t: ThreadId): (r: State)
    requires t in s.threads && s.threads[t].Running?
  {
    var Running(batch, ok) := s.threads[t];
    var todo := s.nTodo - |batch|;
    var threads := if todo == 0 && t != MASTER then Signal(s.threads, MASTER) else s.threads;
    s.(fAllOk := s.fAllOk && ok && All(batch), nTodo := todo, threads := threads[t := Outside])
  }

  /** Signal the sleeping ones among some threads. */
  function WakeAll(threads: map<ThreadId, Thread>, woken: set<ThreadId>): (r: map<ThreadId, Thread>) {
    map t | t in threads :: if t in woken && threads[t].Asleep? then Asleep(true) else threads[t]
  }

  datatype Step =
    | Enter(t: ThreadId)               // a thread starts the loop
    | Finish(t: ThreadId)              // a thread is done with its batch
    | Wake(t: ThreadId)                // a sleeping thread gets the lock back
    | Add(checks: seq<bool>, woken: set<ThreadId>)  // the master adds checks and wakes some workers

  predicate Enabled(s: State, step: Step) {
    match step
    case Enter(t) => t in s.threads && s.threads[t].Outside?
    case Finish(t) => t in s.threads && s.threads[t].Running?
    case Wake(t) => t in s.threads && s.threads[t].Asleep?
    case Add(_, woken) => MASTER in s.threads && s.threads[MASTER].Outside? && MASTER !in woken
  }

  /** The counters make sense for a step; this turns out to be so in every reachable state. */
  predicate Counted(s: State, step: Step) { s.nTotal >= 0 && s.nIdle >= 0 && (step.Wake? ==> s.nIdle > 0) }

  /** One critical section; the second part is what the master's wait returns, if it returns. */
  function Do(s: State, step: Step): (r: (State, Option<bool>))
    requires Enabled(s, step) && Counted(s, step)
  {
    match step
    case Enter(t) => LoopTop(s.(nTotal := s.nTotal + 1), t)
    case Finish(t) => LoopTop(Accounted(s, t), t)
    case Wake(t) => LoopTop(s.(nIdle := s.nIdle - 1, threads := s.threads[t := Outside]), t)
    case Add(checks, woken) =>
      (s.(queue := s.queue + checks, nTodo := s.nTodo + |checks|, added := s.added + checks,
          threads := WakeAll(s.threads, woken)), None)
  }

  /** A fresh queue with a master and some workers that have not started. */
  predicate Init(s: State) {
    && s.queue == [] && s.nIdle == 0 && s.nTotal == 0 && s.fAllOk && s.nTodo == 0 && s.added == []
    && MASTER in s.threads && forall t :: t in s.threads ==> s.threads[t].Outside?
  }

  // --- the invariant -------------------------------------------------------------------

  function Held(t: Thread): int { if t.Running? then |t.batch| else 0 }
  function Runs(t: Thread): int { if t.Running? then 1 else 0 }
  function Sleeps(t: Thread): int { if t.Asleep? then 1 else 0 }

  ghost function HeldMap(threads: map<ThreadId, Thread>): map<ThreadId, int> { map t | t in threads :: Held(threads[t]) }
  ghost function RunsMap(threads: map<ThreadId, Thread>): map<ThreadId, int> { map t | t in threads :: Runs(threads[t]) }
  ghost function SleepsMap(threads: map<ThreadId, Thread>): map<ThreadId, int> { map t | t in threads :: Sleeps(threads[t]) }

  /** Checks taken off the stack but not accounted for yet. */
  ghost function InFlight(threads: map<ThreadId, Thread>): int { Sum(HeldMap(threads)) }

  /** Threads that hold a batch. */
  ghost function Busy(threads: map<ThreadId, Thread>): int { Sum(RunsMap(threads)) }

  ghost function Sleepers(threads: map<ThreadId, Thread>): int { Sum(SleepsMap(threads)) }

  predicate BatchOk(w: Thread) { w.Running? ==> All(w.batch) }

  predicate BatchesOk(threads: map<ThreadId, Thread>) { forall t :: t in threads ==> BatchOk(threads[t]) }

  /** Counters are exact, and what is known about the answer is consistent. */
  ghost predicate Inv(s: State) {
    && MASTER in s.threads
    && s.nTodo == |s.queue| + InFlight(s.threads)
    && s.nIdle == Sleepers(s.threads)
    && s.nTotal == s.nIdle + Busy(s.threads)
    && (forall t :: t in s.threads && s.threads[t].Running? ==> |s.threads[t].batch| > 0 && (s.threads[t].ok || !s.fAllOk))
    && (All(s.added) <==> s.fAllOk && All(s.queue) && BatchesOk(s.threads))
    && s.nTodo <= |s.added|
    && (s.threads[MASTER].Asleep? ==> s.queue == [])
    && (s.threads[MASTER] == Asleep(false) ==> s.nTodo > 0)
  }

  predicate OthersOk(threads: map<ThreadId, Thread>, t: ThreadId) {
    forall u :: u in threads && u != t ==> BatchOk(threads[u])
  }

  lemma BatchesUpdate(threads: map<ThreadId, Thread>, t: ThreadId, w: Thread)
    requires t in threads
    ensures BatchesOk(threads) <==> BatchOk(threads[t]) && OthersOk(threads, t)
    ensures BatchesOk(threads[t := w]) <==> BatchOk(w) && OthersOk(threads, t)
  {
    hide BatchOk;
    var next := threads[t := w];
    assert next[t] == w && forall u :: u in threads && u != t ==> next[u] == threads[u];
    if BatchesOk(next) {
      forall u | u in threads && u != t
        ensures BatchOk(threads[u])
      {
        assert BatchOk(next[u]);
      }
    }
  }

  lemma CountsUpdate(threads: map<ThreadId, Thread>, t: ThreadId, w: Thread)
    requires t in threads
    ensures InFlight(threads[t := w]) == InFlight(threads) - Held(threads[t]) + Held(w)
    ensures Busy(threads[t := w]) == Busy(threads) - Runs(threads[t]) + Runs(w)
    ensures Sleepers(threads[t := w]) == Sleepers(threads) - Sleeps(threads[t]) + Sleeps(w)
  {
    var next := threads[t := w];
    assert HeldMap(next) == HeldMap(threads)[t := Held(w)];
    assert RunsMap(next) == RunsMap(threads)[t := Runs(w)];
    assert SleepsMap(next) == SleepsMap(threads)[t := Sleeps(w)];
    SumUpdate(HeldMap(threads), t, Held(w));
    SumUpdate(RunsMap(threads), t, Runs(w));
    SumUpdate(SleepsMap(threads), t, Sleeps(w));
  }

  lemma CountsNonNegative(threads: map<ThreadId, Thread>)
    ensures InFlight(threads) >= 0 && Busy(threads) >= 0 && Sleepers(threads) >= 0
  {
    SumNonNegative(HeldMap(threads));
    SumNonNegative(RunsMap(threads));
    SumNonNegative(SleepsMap(threads));
  }

  lemma CountsCover(threads: map<ThreadId, Thread>, t: ThreadId)
    requires t in threads
    ensures Held(threads[t]) <= InFlight(threads) && Runs(threads[t]) <= Busy(threads) && Sleeps(threads[t]) <= Sleepers(threads)
  {
    SumBoundsElement(HeldMap(threads), t);
    SumBoundsElement(RunsMap(threads), t);
    SumBoundsElement(SleepsMap(threads), t);
  }

  /** Nothing in flight means nobody runs a batch. */
  lemma NobodyRuns(threads: map<ThreadId, Thread>)
    requires InFlight(threads) == 0
    requires forall t :: t in threads && threads[t].Running? ==> |threads[t].batch| > 0
    ensures forall t :: t in threads ==> !threads[t].Running?
    ensures Busy(threads) == 0
  {
    forall t | t in threads
      ensures !threads[t].Running?
    {
      CountsCover(threads, t);
    }
    AllZero(RunsMap(threads));
  }

  lemma {:induction false} AllZero(m: map<ThreadId, int>)
    requires forall t :: t in m ==> m[t] == 0
    ensures Sum(m) == 0
    decreases |m|
  {
    if m != map[] {
      var t :| t in m && Sum(m) == m[t] + Sum(m - {t});
      RemoveShrinks(m, t);
      AllZero(m - {t});
    }
  }

  /** Something in flight means somebody runs a batch. */
  lemma SomebodyRuns(threads: map<ThreadId, Thread>) returns (t: ThreadId)
    requires InFlight(threads) > 0
    ensures t in threads && threads[t].Running?
  {
    if u :| u in threads && threads[u].Running? {
      t := u;
    } else {
      AllZero(HeldMap(threads));
    }
  }

  /** The invariant while thread t is inside a critical section, counted but in no state yet. */
  ghost predicate InvInside(s: State, t: ThreadId) {
    && t in s.threads && s.threads[t].Outside? && Inv(s.(nTotal := s.nTotal - 1))
  }

  /** The master returns only when everything it added was answered, and returns the conjunction. */
  lemma ReturnKeeps(s: State, t: ThreadId)
    requires InvInside(s, t) && s.nTotal >= 0 && s.nIdle >= 0 && s.queue == [] && t == MASTER && s.nTodo == 0
    ensures Inv(LoopTop(s, t).0) && LoopTop(s, t).1 == Some(All(s.added))
  {
    hide InFlight, Busy, Sleepers;
    NobodyRuns(s.threads);
    assert LoopTop(s, t).0.threads == s.threads;
  }

  lemma SleepKeeps(s: State, t: ThreadId)
    requires InvInside(s, t) && s.nTotal >= 0 && s.nIdle >= 0 && s.queue == [] && !(t == MASTER && s.nTodo == 0)
    ensures Inv(LoopTop(s, t).0)
  {
    hide InFlight, Busy, Sleepers;
    CountsNonNegative(s.threads);
    CountsUpdate(s.threads, t, Asleep(false));
    BatchesUpdate(s.threads, t, Asleep(false));
  }

  lemma TakeKeeps(s: State, t: ThreadId)
    requires InvInside(s, t) && s.nTotal >= 0 && s.nIdle >= 0 && s.queue != []
    ensures Inv(LoopTop(s, t).0)
  {
    hide InFlight, Busy, Sleepers, BatchSize, All;
    var s' := LoopTop(s, t).0;
    var n := |s.queue| - BatchSize(s);
    CountsUpdate(s.threads, t, s'.threads[t]);
    assert s.queue == s.queue[..n] + s.queue[n..];
    AllConcat(s.queue[..n], s.queue[n..]);
    assert s'.threads[t].batch == s.queue[n..];
    BatchesUpdate(s.threads, t, s'.threads[t]);
  }

  /** However a critical section ends, the invariant holds again. */
  lemma LoopTopKeeps(s: State, t: ThreadId)
    requires InvInside(s, t)
    ensures s.nTotal >= 0 && s.nIdle >= 0
    ensures Inv(LoopTop(s, t).0)
    ensures LoopTop(s, t).1.Some? ==> t == MASTER && LoopTop(s, t).1.value == All(s.added) && LoopTop(s, t).0.added == []
    ensures LoopTop(s, t).1.None? ==> LoopTop(s, t).0.added == s.added
  {
    CountsNonNegative(s.threads);
    hide InFlight, Busy, Sleepers, All, BatchesOk;
    if s.queue != [] {
      TakeKeeps(s, t);
    } else if t == MASTER && s.nTodo == 0 {
      ReturnKeeps(s, t);
    } else {
      SleepKeeps(s, t);
    }
  }

  lemma AllConcat(a: seq<bool>, b: seq<bool>)
    ensures All(a + b) <==> All(a) && All(b)
  {
    if All(a + b) {
      forall i | 0 <= i < |a| ensures a[i] { assert (a + b)[i]; }
      forall i | 0 <= i < |b| ensures b[i] { assert (a + b)[|a| + i]; }
    }
  }

  // --- every step keeps the invariant -----------------------------------------------------

  lemma InitHolds(s: State)
    requires Init(s)
    ensures Inv(s)
  {
    AllZero(HeldMap(s.threads));
    AllZero(RunsMap(s.threads));
    AllZero(SleepsMap(s.threads));
  }

  lemma CanDo(s: State, step: Step)
    requires Inv(s) && Enabled(s, step)
    ensures Counted(s, step)
  {
    CountsNonNegative(s.threads);
    if step.Wake? {
      CountsCover(s.threads, step.t);
    }
  }

  lemma EnterInside(s: State, t: ThreadId)
    requires Inv(s) && t in s.threads && s.threads[t].Outside?
    ensures InvInside(s.(nTotal := s.nTotal + 1), t)
  {
    assert s.(nTotal := s.nTotal + 1).(nTotal := s.nTotal) == s;
  }

  lemma WakeInside(s: State, t: ThreadId)
    requires Inv(s) && t in s.threads && s.threads[t].Asleep?
    ensures InvInside(s.(nIdle := s.nIdle - 1, threads := s.threads[t := Outside]), t)
  {
    hide InFlight, Busy, Sleepers, All;
    CountsUpdate(s.threads, t, Outside);
    BatchesUpdate(s.threads, t, Outside);
  }

  lemma SignalKeepsCounts(threads: map<ThreadId, Thread>, t: ThreadId)
    ensures InFlight(Signal(threads, t)) == InFlight(threads) && Busy(Signal(threads, t)) == Busy(threads)
    ensures Sleepers(Signal(threads, t)) == Sleepers(threads)
    ensures BatchesOk(Signal(threads, t)) == BatchesOk(threads)
  {
    if t in threads && threads[t].Asleep? {
      CountsUpdate(threads, t, Asleep(true));
      BatchesUpdate(threads, t, Asleep(true));
    }
  }

  lemma FinishInside(s: State, t: ThreadId)
    requires Inv(s) && t in s.threads && s.threads[t].Running?
    ensures InvInside(Accounted(s, t), t) && Accounted(s, t).added == s.added
  {
    hide InFlight, Busy, Sleepers, All;
    var Running(batch, ok) := s.threads[t];
    var s' := Accounted(s, t);
    SignalKeepsCounts(s.threads, MASTER);
    var threads := if s.nTodo - |batch| == 0 && t != MASTER then Signal(s.threads, MASTER) else s.threads;
    CountsCover(s.threads, t);
    CountsUpdate(threads, t, Outside);
    AnswerKept(s.threads, threads, t, batch);
    CountsNonNegative(s'.threads);
  }

  /** Taking a batch out of the running ones leaves the others. */
  lemma AnswerKept(threads: map<ThreadId, Thread>, signalled: map<ThreadId, Thread>, t: ThreadId, batch: seq<bool>)
    requires t in threads && threads[t].Running? && threads[t].batch == batch
    requires signalled == threads || signalled == Signal(threads, MASTER)
    ensures t in signalled && signalled[t] == threads[t]
    ensures BatchesOk(threads) <==> All(batch) && BatchesOk(signalled[t := Outside])
  {
    hide All;
    SignalKeepsCounts(threads, MASTER);
    BatchesUpdate(signalled, t, Outside);
  }

  lemma WakeAllKeeps(threads: map<ThreadId, Thread>, woken: set<ThreadId>)
    ensures InFlight(WakeAll(threads, woken)) == InFlight(threads) && Busy(WakeAll(threads, woken)) == Busy(threads)
    ensures Sleepers(WakeAll(threads, woken)) == Sleepers(threads)
    ensures BatchesOk(WakeAll(threads, woken)) == BatchesOk(threads)
  {
    var next := WakeAll(threads, woken);
    assert HeldMap(next) == HeldMap(threads);
    assert RunsMap(next) == RunsMap(threads);
    assert SleepsMap(next) == SleepsMap(threads);
    hide All;
    assert forall t :: t in threads ==> BatchOk(next[t]) == BatchOk(threads[t]);
  }

  lemma AddKeeps(s: State, checks: seq<bool>, woken: set<ThreadId>)
    requires Inv(s) && Enabled(s, Add(checks, woken)) && Counted(s, Add(checks, woken))
    ensures Kept(s, Add(checks, woken), Do(s, Add(checks, woken)).0, Do(s, Add(checks, woken)).1)
  {
    hide All, BatchesOk, InFlight, Busy, Sleepers;
    WakeAllKeeps(s.threads, woken);
    AllConcat(s.queue, checks);
    AllConcat(s.added, checks);
  }

  /** What every step does: it keeps the invariant; when the master's wait returns, its answer is the
      conjunction of all checks added since it last returned, and the record starts afresh. */
  ghost predicate Kept(s: State, step: Step, s': State, ret: Option<bool>) {
    && Inv(s')
    && (ret.Some? ==> ret.value == All(s.added) && s'.added == [])
    && (ret.None? ==> s'.added == if step.Add? then s.added + step.checks else s.added)
  }

  lemma EnterKeeps(s: State, t: ThreadId)
    requires Inv(s) && Enabled(s, Enter(t)) && Counted(s, Enter(t))
    ensures Kept(s, Enter(t), Do(s, Enter(t)).0, Do(s, Enter(t)).1)
  {
    hide Inv, InvInside, All, LoopTop;
    EnterInside(s, t);
    LoopTopKeeps(s.(nTotal := s.nTotal + 1), t);
  }

  lemma FinishKeeps(s: State, t: ThreadId)
    requires Inv(s) && Enabled(s, Finish(t)) && Counted(s, Finish(t))
    ensures Kept(s, Finish(t), Do(s, Finish(t)).0, Do(s, Finish(t)).1)
  {
    hide Inv, InvInside, All, LoopTop;
    FinishInside(s, t);
    LoopTopKeeps(Accounted(s, t), t);
  }

  lemma WakeKeeps(s: State, t: ThreadId)
    requires Inv(s) && Enabled(s, Wake(t)) && Counted(s, Wake(t))
    ensures Kept(s, Wake(t), Do(s, Wake(t)).0, Do(s, Wake(t)).1)
  {
    WakeInside(s, t);
    LoopTopKeeps(s.(nIdle := s.nIdle - 1, threads := s.threads[t := Outside]), t);
    hide Inv, InvInside, All, LoopTop;
  }

  /** Every step of every thread keeps the invariant. */
  lemma StepKeeps(s: State, step: Step)
    requires Inv(s) && Enabled(s, step)
    ensures Counted(s, step)
    ensures Kept(s, step, Do(s, step).0, Do(s, step).1)
  {
    CanDo(s, step);
    hide Inv, Do, All, Counted;
    match step {
      case Enter(t) => EnterKeeps(s, t);
      case Finish(t) => FinishKeeps(s, t);
      case Wake(t) => WakeKeeps(s, t);
      case Add(checks, woken) => AddKeeps(s, checks, woken);
    }
  }

  // --- runs -----------------------------------------------------------------------------

  /** Any interleaving of steps from a fresh queue, with what the steps returned. */
  predicate IsRun(states: seq<State>, steps: seq<Step>, rets: seq<Option<bool>>) {
    && |states| == |steps| + 1 && |rets| == |steps|
    && Init(states[0])
    && forall i :: 0 <= i < |steps| ==> Follows(states[i], steps[i], states[i + 1], rets[i])
  }

  predicate Follows(s: State, step: Step, s': State, ret: Option<bool>) {
    Enabled(s, step) && (Counted(s, step) ==> Do(s, step) == (s', ret))
  }

  /** The checks added before step j since the master last returned. */
  function AddedSince(steps: seq<Step>, rets: seq<Option<bool>>, j: nat): (r: seq<bool>)
    requires j <= |steps| == |rets|
  {
    if j == 0 || rets[j - 1].Some? then []
    else AddedSince(steps, rets, j - 1) + if steps[j - 1].Add? then steps[j - 1].checks else []
  }

  /** The invariant holds throughout every run, and the bookkeeping of added checks is right. */
  lemma {:induction false} RunKeeps(states: seq<State>, steps: seq<Step>, rets: seq<Option<bool>>, j: nat)
    requires IsRun(states, steps, rets) && j <= |steps|
    ensures Inv(states[j]) && states[j].added == AddedSince(steps, rets, j)
  {
    hide Inv, Do, All;
    if j == 0 {
      InitHolds(states[0]);
    } else {
      RunKeeps(states, steps, rets, j - 1);
      assert Follows(states[j - 1], steps[j - 1], states[j], rets[j - 1]);
      StepKeeps(states[j - 1], steps[j - 1]);
    }
  }

  /** In every run, whenever the master's wait returns, it returns the conjunction of exactly the
      checks added since it last returned. */
  lemma WaitAnswers(states: seq<State>, steps: seq<Step>, rets: seq<Option<bool>>, j: nat)
    requires IsRun(states, steps, rets) && j < |steps| && rets[j].Some?
    ensures rets[j].value == All(AddedSince(steps, rets, j))
    ensures states[j + 1].nTotal == states[j + 1].nIdle && states[j + 1].nTodo == 0 && states[j + 1].fAllOk
  {
    RunKeeps(states, steps, rets, j);
    RunKeeps(states, steps, rets, j + 1);
    assert Follows(states[j], steps[j], states[j + 1], rets[j]);
    StepKeeps(states[j], steps[j]);
    IdleBetweenUses(states[j + 1]);
  }

  /** Right after the master's wait has returned, and until checks are added, the queue is idle. */
  lemma IdleBetweenUses(s: State)
    requires Inv(s) && s.added == []
    ensures s.nTotal == s.nIdle && s.nTodo == 0 && s.fAllOk
  {
    CountsNonNegative(s.threads);
    NobodyRuns(s.threads);
  }

  /** The counters in every reachable state: pending work is what is queued plus what is in flight,
      and the threads not idle are those that hold a batch. */
  lemma CountersExact(s: State)
    requires Inv(s)
    ensures s.nTodo == |s.queue| + InFlight(s.threads) && s.nTotal - s.nIdle == Busy(s.threads)
    ensures s.nTodo == 0 ==> forall t :: t in s.threads ==> !s.threads[t].Running?
  {
    CountsNonNegative(s.threads);
    if s.nTodo == 0 {
      NobodyRuns(s.threads);
    }
  }

  /** While the master is in its wait, somebody can go on without a spurious wake-up: a thread that
      runs a batch, or the master itself because it was signalled. */
  lemma MasterNotStuck(s: State) returns (t: ThreadId)
    requires Inv(s) && !s.threads[MASTER].Outside?
    ensures t in s.threads && (s.threads[t].Running? || (t == MASTER && s.threads[t] == Asleep(true)))
  {
    t := MASTER;
    if s.threads[MASTER] == Asleep(false) {
      t := SomebodyRuns(s.threads);
    }
  }

  // --- the loops outside the lock -------------------------------------------------------

  /** Move a batch off the back of the stack, one check at a time. */
  method TakeBatch(queue0: seq<bool>, nNow: nat) returns (queue: seq<bool>, vChecks: seq<bool>)
    requires nNow <= |queue0|
    ensures queue == queue0[..|queue0| - nNow]
    ensures |vChecks| == nNow && forall i :: 0 <= i < nNow ==> vChecks[i] == queue0[|queue0| - 1 - i]
    ensures All(vChecks) <==> All(queue0[|queue0| - nNow..])
  {
    queue, vChecks := queue0, [];
    for i := 0 to nNow
      invariant queue == queue0[..|queue0| - i]
      invariant |vChecks| == i && forall k :: 0 <= k < i ==> vChecks[k] == queue0[|queue0| - 1 - k]
    {
      vChecks := vChecks + [queue[|queue| - 1]];
      queue := queue[..|queue| - 1];
    }
    ghost var suffix := queue0[|queue0| - nNow..];
    assert forall k :: 0 <= k < nNow ==> vChecks[k] == suffix[nNow - 1 - k];
    assert forall k :: 0 <= k < nNow ==> suffix[k] == vChecks[nNow - 1 - k];
  }

  /** Run a batch, skipping the rest after a failure: the answer is the conjunction all the same. */
  method RunBatch(vChecks: seq<bool>, ok: bool) returns (fOk: bool, evaluated: nat)
    ensures fOk == (ok && All(vChecks))
    ensures evaluated <= |vChecks| && (fOk && ok ==> evaluated == |vChecks|)
    ensures !ok ==> evaluated == 0
  {
    fOk, evaluated := ok, 0;
    for i := 0 to |vChecks|
      invariant fOk == (ok && All(vChecks[..i]))
      invariant evaluated <= i && (fOk ==> evaluated == i) && (!ok ==> evaluated == 0)
    {
      assert vChecks[..i + 1] == vChecks[..i] + [vChecks[i]];
      AllConcat(vChecks[..i], [vChecks[i]]);
      assert All([vChecks[i]]) <==> vChecks[i] by {
        assert [vChecks[i]][0] == vChecks[i];
      }
      if fOk {
        fOk := vChecks[i];
        evaluated := evaluated + 1;
      }
    }
    assert vChecks[..|vChecks|] == vChecks;
  }
}
