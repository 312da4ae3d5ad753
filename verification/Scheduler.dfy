/**
 Threads, their locking contexts, and round-robin dispatch. Each step is one lock operation
 together with the thread switch taken when its critical section ends.
 */
module Scheduler {
  import opened Semaphores

  /** A locking context; a thread is named by the context embedded in it. */
  type Ctx = nat
  type LockId = nat

  const IDLE: Ctx := 0

  datatype ThreadState = RUNNING | BLOCKED | DONE
  datatype LockState = READY | BLOCKING | ACQUIRED

  /** `started` only records which threads were created to run. */
  datatype State = State(
    active: Ctx, queue: seq<Ctx>, thread: map<Ctx, ThreadState>, locking: map<Ctx, LockState>,
    waits: seq<seq<Ctx>>, started: set<Ctx>)

  datatype Step =
    | Acquire(c: Ctx)                  // a lock is taken at once
    | Block(c: Ctx, l: LockId)         // a lock is not free: join its wait list
    | Wake(l: LockId)                  // a lock is handed to its first waiter
    | Poll(c: Ctx)                     // LockingIsAcquired
    | Yield                            // given up, or evicted at the end of the quantum
    | Finish                           // the thread's main returned
    | Create(t: Ctx, start: bool)
    | NewContext(c: Ctx)               // a context of a caller that does not block

  ghost function Init(locks: nat): State
  {
    State(IDLE, [], map[IDLE := BLOCKED], map[IDLE := READY], seq(locks, _ => []), {})
  }

  /** Schedule and SchedulerSwitch. */
  ghost function Switched(s: State): State
    requires s.active in s.thread
  {
    var q := if s.active != IDLE && s.thread[s.active] == RUNNING then s.queue + [s.active] else s.queue;
    if q != [] then s.(active := q[0], queue := q[1..]) else s.(active := IDLE, queue := q)
  }

  ghost predicate Caller(s: State, c: Ctx)
  {
    c == s.active || (c in s.locking && c !in s.thread)
  }

  /** The context is not in use. */
  ghost predicate Free(s: State, c: Ctx) { c in s.locking && s.locking[c] == READY }

  /**
   What callers owe. A context is used for one lock operation at a time; that an ordinary active
   thread's context is free is not asked for but proved. A thread has one link for the run queue,
   so it must not be woken while it stands there; only the idle thread could be.
   */
  ghost predicate Enabled(s: State, step: Step)
  {
    match step {
      case Acquire(c) => Caller(s, c) && (c == s.active != IDLE || Free(s, c))
      case Block(c, l) => Caller(s, c) && l < |s.waits| && (c == s.active != IDLE || Free(s, c))
      case Wake(l) => l < |s.waits| && s.waits[l] != [] && (s.waits[l][0] == IDLE ==> IDLE !in s.queue)
      case Poll(c) => c in s.locking && c !in s.thread && s.locking[c] != READY
      case Yield => true
      case Finish => s.active != IDLE
      case Create(t, _) => t !in s.locking
      case NewContext(c) => c !in s.locking
    }
  }

  /** A context is woken: a thread goes to the run queue, another caller finds its lock acquired. */
  ghost function Woken(s: State, c: Ctx): State
  {
    if c in s.thread
    then s.(locking := s.locking[c := READY], thread := s.thread[c := RUNNING], queue := s.queue + [c])
    else s.(locking := s.locking[c := ACQUIRED])
  }

  ghost function Waiting(s: State, c: Ctx, l: LockId): State
    requires l < |s.waits|
  {
    s.(locking := s.locking[c := BLOCKING], waits := s.waits[l := s.waits[l] + [c]])
  }

  ghost function Next(s: State, step: Step): State
    requires s.active in s.thread && Enabled(s, step)
  {
    match step {
      case Acquire(c) => if c in s.thread then s else s.(locking := s.locking[c := ACQUIRED])
      case Block(c, l) =>
        if c in s.thread then Switched(Waiting(s.(thread := s.thread[c := BLOCKED]), c, l)) else Waiting(s, c, l)
      case Wake(l) => Woken(s.(waits := s.waits[l := s.waits[l][1..]]), s.waits[l][0])
      case Poll(c) => if s.locking[c] == ACQUIRED then s.(locking := s.locking[c := READY]) else s
      case Yield => Switched(s)
      case Finish => Switched(s.(thread := s.thread[s.active := DONE]))
      case Create(t, start) =>
        var s1 := s.(locking := s.locking[t := READY], thread := s.thread[t := if start then RUNNING else BLOCKED]);
        if start then s1.(queue := s.queue + [t], started := s.started + {t}) else s1
      case NewContext(c) => s.(locking := s.locking[c := READY])
    }
  }

  // Where a context is

  ghost function Count(c: Ctx, q: seq<Ctx>): nat { multiset(q)[c] }

  /** How often a context stands in the wait lists, all together. */
  ghost function WaitCount(c: Ctx, waits: seq<seq<Ctx>>): nat
  {
    if waits == [] then 0 else WaitCount(c, waits[..|waits| - 1]) + Count(c, waits[|waits| - 1])
  }

  lemma {:induction false} WaitCountUpdate(c: Ctx, waits: seq<seq<Ctx>>, l: LockId, w: seq<Ctx>)
    requires l < |waits|
    ensures WaitCount(c, waits[l := w]) == WaitCount(c, waits) - Count(c, waits[l]) + Count(c, w)
    ensures WaitCount(c, waits) >= Count(c, waits[l])
    decreases |waits|
  {
    var n := |waits| - 1;
    if l < n {
      WaitCountUpdate(c, waits[..n], l, w);
      assert waits[l := w][..n] == waits[..n][l := w];
    } else {
      assert waits[l := w][..n] == waits[..n];
    }
  }

  lemma {:induction false} NowhereIff(c: Ctx, waits: seq<seq<Ctx>>)
    ensures WaitCount(c, waits) == 0 <==> forall l :: 0 <= l < |waits| ==> c !in waits[l]
  {
    if waits != [] {
      var n := |waits| - 1;
      NowhereIff(c, waits[..n]);
      assert forall l :: 0 <= l < n ==> waits[..n][l] == waits[l];
    }
  }

  lemma CountPush(c: Ctx, q: seq<Ctx>, d: Ctx)
    ensures Count(c, q + [d]) == Count(c, q) + if c == d then 1 else 0
  {
  }

  lemma CountPop(c: Ctx, q: seq<Ctx>)
    requires q != []
    ensures Count(c, q[1..]) == Count(c, q) - if c == q[0] then 1 else 0
    ensures Count(q[0], q) > 0
  {
    assert q == [q[0]] + q[1..];
  }

  ghost function Active(s: State, c: Ctx): nat { if c == s.active then 1 else 0 }

  /** The bookkeeping of one context. */
  ghost predicate CtxOk(s: State, c: Ctx)
  {
    if c !in s.locking then
      c !in s.thread && c !in s.started && WaitCount(c, s.waits) == 0 && Count(c, s.queue) == 0 && c != s.active
    else
      // On exactly one wait list, once, while the lock operation is blocked.
      && WaitCount(c, s.waits) == (if s.locking[c] == BLOCKING then 1 else 0)
      && (if c !in s.thread then Count(c, s.queue) == 0 && c != s.active && c !in s.started
          else
            && s.locking[c] != ACQUIRED && (s.locking[c] == BLOCKING ==> s.thread[c] == BLOCKED)
            && (if c == IDLE then
                  && c !in s.started
                  && Count(c, s.queue) <= 1
                else
                  && Active(s, c) + Count(c, s.queue) == (if s.thread[c] == RUNNING then 1 else 0)
                  && (s.thread[c] == RUNNING || s.locking[c] == BLOCKING ==> c in s.started)
                  && (c in s.started && s.thread[c] == BLOCKED ==> s.locking[c] == BLOCKING)))
  }

  ghost predicate Inv(s: State)
  {
    IDLE in s.thread && s.active in s.thread && forall c :: CtxOk(s, c)
  }

  /** The assertions and panics of the source, at the step they guard. */
  ghost predicate AssertsHold(s: State, step: Step)
  {
    match step {
      case Acquire(c) => c in s.locking && s.locking[c] == READY
      case Block(c, _) => c in s.locking && s.locking[c] == READY && (c in s.thread ==> c == s.active)
      case Wake(l) =>
        l < |s.waits| && s.waits[l] != [] && s.waits[l][0] in s.locking && s.locking[s.waits[l][0]] == BLOCKING &&
        (s.waits[l][0] in s.thread ==> s.thread[s.waits[l][0]] == BLOCKED)
      case Poll(c) => c in s.locking && s.locking[c] != READY
      case _ => true
    }
  }

  lemma AssertsNeverFail(s: State, step: Step)
    requires Inv(s) && Enabled(s, step)
    ensures AssertsHold(s, step)
  {
    assert CtxOk(s, s.active);
    if step.Wake? {
      var c := s.waits[step.l][0];
      CountPop(c, s.waits[step.l]);
      WaitCountUpdate(c, s.waits, step.l, []);
      assert CtxOk(s, c);
    }
  }

  /** A wake-up of an ordinary thread is always possible, and never meets the active one or a queued one. */
  lemma WakeTargetsOthers(s: State, l: LockId)
    requires Inv(s) && l < |s.waits| && s.waits[l] != [] && s.waits[l][0] != IDLE
    ensures Enabled(s, Wake(l)) && s.waits[l][0] != s.active && s.waits[l][0] !in s.queue
  {
    var c := s.waits[l][0];
    CountPop(c, s.waits[l]);
    WaitCountUpdate(c, s.waits, l, []);
    assert CtxOk(s, c);
  }

  // Every step keeps the bookkeeping

  /**
   Before a switch the active thread may be running, freshly blocked or done; otherwise the
   bookkeeping is the same.
   */
  ghost predicate Leaving(s: State)
  {
    && IDLE in s.thread && s.active in s.thread
    && (forall c :: c != s.active ==> CtxOk(s, c))
    && LeavingOk(s, s.active)
  }

  ghost predicate LeavingOk(s: State, c: Ctx)
  {
    && c in s.thread && c in s.locking && s.locking[c] != ACQUIRED
    && Count(c, s.queue) <= (if c == IDLE then 1 else 0)
    && WaitCount(c, s.waits) == (if s.locking[c] == BLOCKING then 1 else 0)
    && (s.locking[c] == BLOCKING ==> s.thread[c] == BLOCKED)
    && (if c == IDLE then c !in s.started
        else c in s.started && (s.thread[c] == BLOCKED ==> s.locking[c] == BLOCKING))
  }

  lemma ActiveLeaves(s: State)
    requires Inv(s)
    ensures Leaving(s)
  {
    assert CtxOk(s, s.active);
  }

  lemma SwitchOk(s: State, c: Ctx)
    requires Leaving(s)
    ensures CtxOk(Switched(s), c) && Switched(s).active in s.thread
  {
    var back := s.active != IDLE && s.thread[s.active] == RUNNING;
    var q := if back then s.queue + [s.active] else s.queue;
    CountPush(c, s.queue, s.active);
    assert c != s.active ==> CtxOk(s, c);
    if q != [] {
      CountPop(c, q);
      CountPop(q[0], q);
      CountPush(q[0], s.queue, s.active);
      assert q[0] != s.active ==> CtxOk(s, q[0]);
    }
  }

  lemma SwitchInv(s: State)
    requires Leaving(s)
    ensures Inv(Switched(s))
  {
    SwitchOk(s, s.active);
    forall c ensures CtxOk(Switched(s), c) { SwitchOk(s, c); }
  }

  lemma WaitingOk(s: State, c: Ctx, l: LockId, d: Ctx)
    requires Inv(s) && l < |s.waits| && Caller(s, c) && c !in s.thread && s.locking[c] == READY
    ensures CtxOk(Waiting(s, c, l), d)
  {
    CountPush(d, s.waits[l], c);
    WaitCountUpdate(d, s.waits, l, s.waits[l] + [c]);
    assert CtxOk(s, d);
  }

  lemma BlockLeaves(s: State, l: LockId, d: Ctx)
    requires Inv(s) && l < |s.waits| && s.active in s.locking && s.locking[s.active] == READY
    ensures var t := Waiting(s.(thread := s.thread[s.active := BLOCKED]), s.active, l);
            if d == s.active then LeavingOk(t, d) else CtxOk(t, d)
  {
    CountPush(d, s.waits[l], s.active);
    WaitCountUpdate(d, s.waits, l, s.waits[l] + [s.active]);
    assert CtxOk(s, d);
  }

  lemma BlockInv(s: State, c: Ctx, l: LockId)
    requires Inv(s) && Enabled(s, Block(c, l))
    ensures Inv(Next(s, Block(c, l)))
  {
    AssertsNeverFail(s, Block(c, l));
    if c in s.thread {
      var t := Waiting(s.(thread := s.thread[c := BLOCKED]), c, l);
      BlockLeaves(s, l, c);
      forall d | d != c ensures CtxOk(t, d) { BlockLeaves(s, l, d); }
      SwitchInv(t);
    } else {
      forall d ensures CtxOk(Waiting(s, c, l), d) { WaitingOk(s, c, l, d); }
    }
  }

  lemma WakeOk(s: State, l: LockId, d: Ctx)
    requires Inv(s) && Enabled(s, Wake(l)) && AssertsHold(s, Wake(l))
    ensures CtxOk(Next(s, Wake(l)), d)
  {
    var c := s.waits[l][0];
    CountPop(d, s.waits[l]);
    WaitCountUpdate(d, s.waits, l, s.waits[l][1..]);
    CountPush(d, s.queue, c);
    assert CtxOk(s, d);
  }

  lemma FinishInv(s: State)
    requires Inv(s) && Enabled(s, Finish)
    ensures Inv(Next(s, Finish))
  {
    var t := s.(thread := s.thread[s.active := DONE]);
    assert CtxOk(s, s.active);
    forall c | c != s.active ensures CtxOk(t, c) { assert CtxOk(s, c); }
    SwitchInv(t);
  }

  lemma CreateInv(s: State, t: Ctx, start: bool)
    requires Inv(s) && Enabled(s, Create(t, start))
    ensures Inv(Next(s, Create(t, start)))
  {
    forall c ensures CtxOk(Next(s, Create(t, start)), c) {
      CountPush(c, s.queue, t);
      assert CtxOk(s, c);
    }
  }

  /** Acquire, Poll and NewContext only change one context of a caller that does not block. */
  lemma ContextInv(s: State, step: Step)
    requires Inv(s) && Enabled(s, step) && AssertsHold(s, step) && (step.Acquire? || step.Poll? || step.NewContext?)
    ensures Inv(Next(s, step))
  {
    forall c ensures CtxOk(Next(s, step), c) { assert CtxOk(s, c); }
  }

  lemma StepInv(s: State, step: Step)
    requires Inv(s) && Enabled(s, step)
    ensures Inv(Next(s, step))
  {
    AssertsNeverFail(s, step);
    match step {
      case Block(c, l) => BlockInv(s, c, l);
      case Wake(l) => forall d ensures CtxOk(Next(s, step), d) { WakeOk(s, l, d); }
      case Yield => ActiveLeaves(s); SwitchInv(s);
      case Finish => FinishInv(s);
      case Create(t, start) => CreateInv(s, t, start);
      case _ => ContextInv(s, step);
    }
  }

  // Runs

  /** Every step of the run is enabled where it is taken. */
  ghost predicate Run(s: State, steps: seq<Step>)
    decreases |steps|
  {
    steps == [] || (s.active in s.thread && Enabled(s, steps[0]) && Run(Next(s, steps[0]), steps[1..]))
  }

  ghost function After(s: State, steps: seq<Step>): State
    requires Run(s, steps)
    decreases |steps|
  {
    if steps == [] then s else After(Next(s, steps[0]), steps[1..])
  }

  lemma {:induction false} RunInv(s: State, steps: seq<Step>)
    requires Inv(s) && Run(s, steps)
    ensures Inv(After(s, steps))
    decreases |steps|
  {
    if steps != [] {
      StepInv(s, steps[0]);
      RunInv(Next(s, steps[0]), steps[1..]);
    }
  }

  lemma {:induction false} NothingWaits(c: Ctx, locks: nat)
    ensures WaitCount(c, seq(locks, _ => [])) == 0
  {
    if locks > 0 {
      NothingWaits(c, locks - 1);
      assert seq<seq<Ctx>>(locks, _ => [])[..locks - 1] == seq<seq<Ctx>>(locks - 1, _ => []);
    }
  }

  lemma InitInv(locks: nat)
    ensures Inv(Init(locks))
  {
    forall c ensures CtxOk(Init(locks), c) { NothingWaits(c, locks); }
  }

  /**
   Over every run, a thread that was started and has not finished is in exactly one place: it is
   active, or stands once in the run queue, or is BLOCKED and stands once on one wait list.
   */
  lemma ExactlyOnePlace(locks: nat, steps: seq<Step>, t: Ctx)
    requires Run(Init(locks), steps)
    ensures var s := After(Init(locks), steps);
            t != IDLE && t in s.started ==>
              && t in s.thread && t in s.locking
              && Active(s, t) + Count(t, s.queue) + WaitCount(t, s.waits) == (if s.thread[t] == DONE then 0 else 1)
              && (WaitCount(t, s.waits) == 1 <==> s.thread[t] == BLOCKED)
              && (s.thread[t] == BLOCKED <==> s.locking[t] == BLOCKING)
  {
    InitInv(locks);
    RunInv(Init(locks), steps);
    assert CtxOk(After(Init(locks), steps), t);
  }

  /** A thread that finishes is DONE. */
  lemma FinishEnds(s: State)
    requires Inv(s) && Enabled(s, Finish)
    ensures Next(s, Finish).thread[s.active] == DONE
  {
  }

  lemma StepKeepsDone(s: State, step: Step, t: Ctx)
    requires Inv(s) && Enabled(s, step) && t != IDLE && t in s.thread && s.thread[t] == DONE
    ensures t in Next(s, step).thread && Next(s, step).thread[t] == DONE
  {
    assert CtxOk(s, t) && CtxOk(s, s.active);
    if step.Wake? { AssertsNeverFail(s, step); }
  }

  /** A thread that is DONE stays so over every run, and is never active, queued or waiting. */
  lemma {:induction false} DoneForever(s: State, steps: seq<Step>, t: Ctx)
    requires Inv(s) && Run(s, steps) && t != IDLE && t in s.thread && s.thread[t] == DONE
    ensures var e := After(s, steps);
            && t in e.thread && e.thread[t] == DONE
            && e.active != t && t !in e.queue && forall l :: 0 <= l < |e.waits| ==> t !in e.waits[l]
    decreases |steps|
  {
    if steps == [] {
      assert CtxOk(s, t);
      NowhereIff(t, s.waits);
      assert Count(t, s.queue) == 0;
    } else {
      StepInv(s, steps[0]);
      StepKeepsDone(s, steps[0], t);
      DoneForever(Next(s, steps[0]), steps[1..], t);
    }
  }

  /** The idle thread is dispatched by default only if the run queue is empty, and no other thread was running. */
  lemma IdleByDefault(s: State)
    requires Inv(s) && Switched(s).active == IDLE
    ensures IDLE in s.queue || (s.queue == [] && s.active == IDLE) || (s.queue == [] && s.thread[s.active] != RUNNING)
  {
    assert CtxOk(s, s.active);
    assert s.queue != [] ==> s.queue[0] in s.queue;
  }

  /**
   The life of a context that does not block: an operation that takes its lock at once, or whose wait is
   ended by a wake-up, leaves it ACQUIRED; one that waits leaves it BLOCKING; polling it says which, and
   an acquired context is then free to be used again.
   */
  lemma PlainContext(s: State, c: Ctx, l: LockId)
    requires Inv(s) && c in s.locking && c !in s.thread
    ensures Enabled(s, Acquire(c)) ==> Next(s, Acquire(c)).locking == s.locking[c := ACQUIRED]
    ensures Enabled(s, Block(c, l)) ==>
              Next(s, Block(c, l)).locking == s.locking[c := BLOCKING] && Next(s, Block(c, l)).active == s.active
    ensures Enabled(s, Wake(l)) && s.waits[l][0] == c ==>
              Next(s, Wake(l)).locking == s.locking[c := ACQUIRED] && Next(s, Wake(l)).queue == s.queue
    ensures Enabled(s, Poll(c)) ==>
              Next(s, Poll(c)) == if s.locking[c] == ACQUIRED then s.(locking := s.locking[c := READY]) else s
    ensures Enabled(s, Poll(c)) && s.locking[c] == ACQUIRED ==> Enabled(Next(s, Poll(c)), Acquire(c))
  {
  }

  /** Does the step call Schedule? */
  ghost predicate Switches(s: State, step: Step)
  {
    step.Yield? || step.Finish? || (step.Block? && step.c in s.thread)
  }

  ghost function Schedules(s: State, steps: seq<Step>): nat
    requires Run(s, steps)
    decreases |steps|
  {
    if steps == [] then 0
    else (if Switches(s, steps[0]) then 1 else 0) + Schedules(Next(s, steps[0]), steps[1..])
  }

  /** A queued thread moves up by one at each Schedule, the first one becomes active, and nothing overtakes. */
  lemma StepMovesUp(s: State, step: Step, k: nat)
    requires Inv(s) && Enabled(s, step) && k < |s.queue|
    ensures var n := Next(s, step);
            if !Switches(s, step) then k < |n.queue| && n.queue[k] == s.queue[k] && n.active == s.active
            else if k == 0 then n.active == s.queue[0]
            else k - 1 < |n.queue| && n.queue[k - 1] == s.queue[k] && n.active == s.queue[0]
  {
  }

  /** After at most k calls of Schedule, the thread at position k still waits its turn, that much further up. */
  lemma {:induction false} MovesUp(s: State, steps: seq<Step>, k: nat)
    requires Inv(s) && Run(s, steps) && k < |s.queue| && Schedules(s, steps) <= k
    ensures var p, e := k - Schedules(s, steps), After(s, steps);
            p < |e.queue| && e.queue[p] == s.queue[k] && (s.queue[k] != IDLE ==> e.active != s.queue[k])
    decreases |steps|
  {
    if steps == [] {
      assert CtxOk(s, s.active);
      assert Count(s.queue[k], s.queue) > 0;
    } else {
      var step := steps[0];
      StepInv(s, step);
      StepMovesUp(s, step, k);
      MovesUp(Next(s, step), steps[1..], if Switches(s, step) then k - 1 else k);
    }
  }

  /** The thread at position k of the run queue is dispatched by the (k+1)-th Schedule. */
  lemma DispatchedInTurn(s: State, steps: seq<Step>, last: Step, k: nat)
    requires Inv(s) && Run(s, steps) && k < |s.queue| && Schedules(s, steps) == k
    requires After(s, steps).active in After(s, steps).thread && Enabled(After(s, steps), last)
    requires Switches(After(s, steps), last)
    ensures Next(After(s, steps), last).active == s.queue[k]
  {
    MovesUp(s, steps, k);
    RunInv(s, steps);
    StepMovesUp(After(s, steps), last, 0);
  }

  /** How often the run hands lock `l` over. */
  ghost function Wakes(l: LockId, steps: seq<Step>): nat
    decreases |steps|
  {
    if steps == [] then 0 else (if steps[0] == Wake(l) then 1 else 0) + Wakes(l, steps[1..])
  }

  lemma StepWaits(s: State, step: Step, l: LockId, k: nat)
    requires Inv(s) && Enabled(s, step) && l < |s.waits| && k < |s.waits[l]|
    ensures var n := Next(s, step);
            |n.waits| == |s.waits| &&
            if step == Wake(l) then k > 0 ==> k - 1 < |n.waits[l]| && n.waits[l][k - 1] == s.waits[l][k]
            else k < |n.waits[l]| && n.waits[l][k] == s.waits[l][k]
  {
  }

  /** Waiters of a lock keep their order: the one at position k is left waiting until k were woken before it. */
  lemma {:induction false} WaitsInTurn(s: State, steps: seq<Step>, l: LockId, k: nat)
    requires Inv(s) && Run(s, steps) && l < |s.waits| && k < |s.waits[l]| && Wakes(l, steps) <= k
    ensures var p, e := k - Wakes(l, steps), After(s, steps);
            l < |e.waits| && p < |e.waits[l]| && e.waits[l][p] == s.waits[l][k]
    decreases |steps|
  {
    if steps != [] {
      StepInv(s, steps[0]);
      StepWaits(s, steps[0], l, k);
      WaitsInTurn(Next(s, steps[0]), steps[1..], l, if steps[0] == Wake(l) then k - 1 else k);
    }
  }

  /** The scheduler's globals, the locking contexts, and the semaphores whose wait lists they join. */
  class Kernel {
    var active: Ctx                  // ActiveThread
    var upcoming: Ctx                // NextThread
    var queue: seq<Ctx>              // RunQueue
    var thread: map<Ctx, ThreadState>
    var locking: map<Ctx, LockState>
    var count: seq<nat>              // of each semaphore
    var waits: seq<seq<Ctx>>         // WaitingThreads of each semaphore
    var switching: bool              // SchedulerMutex: a switch has been requested
    ghost var started: set<Ctx>

    ghost function View(): State
      reads this
    {
      State(active, queue, thread, locking, waits, started)
    }

    ghost function SemaphoreAt(l: LockId): Semaphore<Ctx>
      requires l < |count| == |waits|
      reads this
    {
      Semaphore(count[l], waits[l])
    }

    ghost predicate Valid()
      reads this
    {
      && Inv(View()) && !switching && |count| == |waits|
      && forall l :: 0 <= l < |waits| && waits[l] != [] ==> count[l] == 0
    }

    /** SchedulerStartup, and SemaphoreInit of every semaphore. */
    constructor (counts: seq<nat>)
      ensures Valid() && View() == Init(|counts|) && count == counts
    {
      active, upcoming, queue := IDLE, IDLE, [];
      thread, locking := map[IDLE := BLOCKED], map[IDLE := READY];
      count, waits := counts, seq(|counts|, _ => []);
      switching, started := false, {};
      new;
      InitInv(|counts|);
    }

    method SchedulerNeedsSwitch()
      modifies `switching
      ensures switching
    {
      if !switching {
        switching := true;
      }
    }

    method SchedulerBlockThread()
      modifies `thread, `switching
      ensures switching && thread == old(thread)[active := BLOCKED]
    {
      thread := thread[active := BLOCKED];
      SchedulerNeedsSwitch();
    }

    method SchedulerResumeThread(t: Ctx)
      requires t in thread && thread[t] == BLOCKED
      modifies `thread, `queue
      ensures thread == old(thread)[t := RUNNING] && queue == old(queue) + [t]
    {
      thread := thread[t := RUNNING];
      queue := queue + [t];
    }

    /** The wake function of a thread's context; the kernel panics on any other state. */
    method SchedulerWakeOnLock(c: Ctx)
      requires c in locking && c in thread
      requires locking[c] == READY || (locking[c] == BLOCKING && thread[c] == BLOCKED)
      modifies `thread, `queue, `locking
      ensures View() == if old(locking[c]) == READY then old(View()) else Woken(old(View()), c)
    {
      match locking[c] {
        case READY =>
          assert locking[c := READY] == locking;
        case BLOCKING =>
          locking := locking[c := READY];
          SchedulerResumeThread(c);
      }
    }

    /** The wake function of a caller that does not block. */
    method LockingWakeNonBlocking(c: Ctx)
      requires c in locking && c !in thread && locking[c] != ACQUIRED
      modifies `locking
      ensures View() == Woken(old(View()), c)
    {
      locking := locking[c := ACQUIRED];
    }

    method LockingAcquire(c: Ctx)
      requires c in locking && (locking[c] == READY || locking[c] == BLOCKING)
      requires c in thread && locking[c] == BLOCKING ==> thread[c] == BLOCKED
      modifies `thread, `queue, `locking
      ensures View() == if c in thread && old(locking[c]) == READY then old(View()) else Woken(old(View()), c)
    {
      if c in thread {
        SchedulerWakeOnLock(c);
      } else {
        LockingWakeNonBlocking(c);
      }
    }

    method LockingBlock(c: Ctx)
      requires c in locking && locking[c] == READY && (c in thread ==> c == active)
      modifies `thread, `switching, `locking
      ensures locking == old(locking)[c := BLOCKING]
      ensures thread == (if c in old(thread) then old(thread)[c := BLOCKED] else old(thread))
      ensures switching == (c in old(thread) || old(switching))
    {
      if c in thread {
        SchedulerBlockThread();
      }
      locking := locking[c := BLOCKING];
    }

    /** LockingIsAcquired, which panics on a context that is not in use. */
    method LockingIsAcquired(c: Ctx) returns (result: bool)
      requires Valid() && Enabled(View(), Poll(c))
      modifies `locking
      ensures Valid() && View() == Next(old(View()), Poll(c))
      ensures result <==> forall l :: 0 <= l < |waits| ==> c !in waits[l]
    {
      StepInv(View(), Poll(c));
      assert CtxOk(View(), c);
      NowhereIff(c, waits);
      result := locking[c] == ACQUIRED;
      if result {
        locking := locking[c := READY];
      }
    }

    method Schedule()
      requires active in thread
      modifies `queue, `upcoming
      ensures View().(active := upcoming) == Switched(old(View()))
    {
      if active != IDLE && thread[active] == RUNNING {
        queue := queue + [active];
      }
      if queue != [] {
        upcoming := queue[0];
        queue := queue[1..];
      } else {
        upcoming := IDLE;
      }
    }

    method SchedulerSwitch()
      modifies `active
      ensures active == upcoming
    {
      active := upcoming;
    }

    /** The end of a critical section, where a requested switch is carried out. */
    method EndCritical()
      requires active in thread
      modifies `queue, `upcoming, `active, `switching
      ensures !switching && View() == if old(switching) then Switched(old(View())) else old(View())
    {
      if switching {
        Schedule();
        SchedulerSwitch();
        switching := false;
      }
    }

    /** The count is never positive while anyone waits, so the lock is free only for want of waiters. */
    method SemaphoreDown(c: Ctx, l: LockId)
      requires Valid() && l < |count| && Enabled(View(), Acquire(c))
      modifies this
      ensures Valid() && |count| == |old(count)| && count == old(count)[l := count[l]]
      ensures SemaphoreAt(l) == Down(old(SemaphoreAt(l)), c)
      ensures View() == Next(old(View()), if old(count[l]) == 0 then Block(c, l) else Acquire(c))
    {
      ghost var was := View();
      ghost var step := if count[l] == 0 then Block(c, l) else Acquire(c);
      AssertsNeverFail(was, step);
      StepInv(was, step);
      if count[l] == 0 {
        LockingBlock(c);
        waits := waits[l := waits[l] + [c]];
      } else {
        count := count[l := count[l] - 1];
        LockingAcquire(c);
      }
      EndCritical();
      assert View() == Next(was, step);
    }

    method SemaphoreUp(l: LockId)
      requires Valid() && l < |count| && (waits[l] != [] && waits[l][0] == IDLE ==> IDLE !in queue)
      modifies this
      ensures Valid() && |count| == |old(count)| && count == old(count)[l := count[l]]
      ensures SemaphoreAt(l) == Up(old(SemaphoreAt(l)))
      ensures View() == if old(waits[l]) == [] then old(View()) else Next(old(View()), Wake(l))
    {
      if waits[l] != [] {
        ghost var was := View();
        AssertsNeverFail(was, Wake(l));
        StepInv(was, Wake(l));
        var c := waits[l][0];
        waits := waits[l := waits[l][1..]];
        LockingAcquire(c);
        assert View() == Next(was, Wake(l));
      } else {
        count := count[l := count[l] + 1];
      }
      EndCritical();
    }

    /** SchedulerForceSwitch, or the timer's eviction once the critical section is over. */
    method SchedulerForceSwitch()
      requires Valid()
      modifies this
      ensures Valid() && count == old(count) && View() == Next(old(View()), Yield)
    {
      StepInv(View(), Yield);
      SchedulerNeedsSwitch();
      EndCritical();
    }

    /** The end of SchedulerThreadStartup. */
    method FinishThread()
      requires Valid() && active != IDLE
      modifies this
      ensures Valid() && count == old(count) && View() == Next(old(View()), Finish)
    {
      StepInv(View(), Finish);
      thread := thread[active := DONE];
      SchedulerNeedsSwitch();
      EndCritical();
    }

    method SchedulerCreateThread(t: Ctx, start: bool)
      requires Valid() && t !in locking
      modifies this
      ensures Valid() && count == old(count) && View() == Next(old(View()), Create(t, start))
    {
      StepInv(View(), Create(t, start));
      locking := locking[t := READY];
      if start {
        thread := thread[t := RUNNING];
        queue := queue + [t];
        started := started + {t};
      } else {
        thread := thread[t := BLOCKED];
      }
    }
  }
}
