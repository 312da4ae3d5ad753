/**
 Any number of threads reading from and writing to one pipe. Each semaphore call, and the work
 on the ring under the mutex, is one step; threads interleave freely.
 */
module Pipe {
  import opened Common
  import opened RingBuffer
  import opened Semaphores

  datatype SemId = Mutex | EmptyLock | FullLock | ReadLock | WriteLock

  type Sem = Semaphore<Tid>

  /** The five semaphores of a pipe. */
  datatype Sems = Sems(mutex: Sem, empty: Sem, full: Sem, read: Sem, write: Sem) {
    function Get(s: SemId): Sem {
      match s
      case Mutex => mutex
      case EmptyLock => empty
      case FullLock => full
      case ReadLock => read
      case WriteLock => write
    }
    function With(s: SemId, sem: Sem): Sems {
      match s
      case Mutex => this.(mutex := sem)
      case EmptyLock => this.(empty := sem)
      case FullLock => this.(full := sem)
      case ReadLock => this.(read := sem)
      case WriteLock => this.(write := sem)
    }
  }

  datatype Side = Reading | Writing

  function Other(s: Side): Side { if s == Reading then Writing else Reading }

  /** The semaphore that serialises the calls of one side. */
  function LockOf(s: Side): SemId { if s == Reading then ReadLock else WriteLock }

  /** The semaphore that keeps one side out while the ring has nothing for it. */
  function GateOf(s: Side): SemId { if s == Reading then EmptyLock else FullLock }

  datatype Call =
    | Read(size: nat)
    | ReadStruct(size: nat)
    | Write(data: seq<char>)
    | WriteStruct(data: seq<char>)
  {
    function Side(): Side { if Read? || ReadStruct? then Reading else Writing }
    function Size(): nat { if Read? || ReadStruct? then size else |data| }
    predicate Struct() { ReadStruct? || WriteStruct? }
    /** PipeRead and PipeWrite are never called with size zero. */
    predicate Ok() { Struct() || Size() > 0 }
  }

  /**
   Where a thread is in its call. The At states are about to make the semaphore call named,
   the Wait states are blocked in it. `wake`: the other side was shut out and must be let in;
   `more`: the ring still has something for this side.
   */
  datatype Pc =
    | AtLock | WaitLock
    | AtTest                                    // the loop test of the struct calls
    | AtGate | WaitGate
    | AtMutex | WaitMutex
    | InRing
    | AtMutexUp(wake: bool, more: bool)
    | AtOtherUp(more: bool)
    | AtGateUp
    | AtLockUp

  /** `met` is what the ring had for the call, data or space, at its last transfer; the code does not keep it. */
  datatype Thread = Thread(call: Call, pc: Pc, moved: seq<char>, met: nat)

  datatype Record = Record(call: Call, bytes: seq<char>, met: nat)

  /**
   `reader`, `writer` and `inMutex` say who is inside a critical section, `readLog` and `writeLog`
   list the finished calls, `accepted` and `delivered` all bytes that ever entered and left the
   ring; the code has no such variables.
   */
  datatype State = State(cap: nat, ring: seq<char>, sems: Sems, threads: map<Tid, Thread>,
                         reader: Option<Tid>, writer: Option<Tid>, inMutex: Option<Tid>,
                         readLog: seq<Record>, writeLog: seq<Record>,
                         accepted: seq<char>, delivered: seq<char>)
  {
    function Holder(s: Side): Option<Tid> { if s == Reading then reader else writer }
    function WithHolder(s: Side, t: Option<Tid>): State {
      if s == Reading then this.(reader := t) else this.(writer := t)
    }
    function Done(s: Side): seq<Record> { if s == Reading then readLog else writeLog }
  }

  /** PipeInit: the ring is empty, so readers are shut out and writers are let in. */
  function Init(cap: nat): State {
    State(cap, [],
          Sems(Semaphore(1, []), Semaphore(0, []), Semaphore(1, []), Semaphore(1, []), Semaphore(1, [])),
          map[], None, None, None, [], [], [], [])
  }

  // ---------------------------------------------------------------- semaphores

  /** `t` lowers `s` and goes on to `next`, or blocks if the count is zero. */
  function SemaphoreDown(st: State, t: Tid, s: SemId, next: Pc, wait: Pc): State
    requires t in st.threads
  {
    var sem := st.sems.Get(s);
    if sem.count == 0 then
      st.(sems := st.sems.With(s, Down(sem, t)),
          threads := st.threads[t := st.threads[t].(pc := wait)])
    else
      st.(sems := st.sems.With(s, Down(sem, t)),
          threads := st.threads[t := st.threads[t].(pc := next)])
  }

  /** Where a blocked thread continues when the semaphore is handed to it. */
  function Granted(th: Thread): Thread {
    match th.pc
    case WaitLock => th.(pc := Entered(th.call))
    case WaitGate => th.(pc := AtMutex)
    case WaitMutex => th.(pc := InRing)
    case _ => th
  }

  /** `t` raises `s` and goes on to `next`; the first waiter, if any, gets the semaphore. */
  function SemaphoreUp(st: State, t: Tid, s: SemId, next: Pc): State
    requires t in st.threads
  {
    var sem := st.sems.Get(s);
    var threads := st.threads[t := st.threads[t].(pc := next)];
    if sem.waiting != [] then
      var w := sem.waiting[0];
      st.(sems := st.sems.With(s, Up(sem)),
          threads := if w in threads then threads[w := Granted(threads[w])] else threads)
    else
      st.(sems := st.sems.With(s, Up(sem)), threads := threads)
  }

  /** Who is inside after `s` has been raised. */
  function NextIn(st: State, s: SemId): Option<Tid> {
    if st.sems.Get(s).waiting != [] then Some(st.sems.Get(s).waiting[0]) else None
  }

  // ---------------------------------------------------------------- the calls, step by step

  function Entered(c: Call): Pc { if c.Struct() then AtTest else AtGate }
  function AfterInner(c: Call): Pc { if c.Struct() then AtTest else AtLockUp }
  function AfterOther(c: Call, more: bool): Pc { if more then AtGateUp else AfterInner(c) }
  function AfterMutex(c: Call, wake: bool, more: bool): Pc {
    if wake then AtOtherUp(more) else AfterOther(c, more)
  }

  predicate CanAct(st: State, t: Tid) {
    && t in st.threads && !Blocked(st.threads[t])
    && |st.ring| <= st.cap && |st.threads[t].moved| <= st.threads[t].call.Size()
  }

  /** The work on the ring under the mutex. */
  function RingWork(st: State, t: Tid): State
    requires CanAct(st, t)
  {
    var th := st.threads[t];
    var k := |th.moved|;
    if th.call.Side() == Reading then
      var n := Min(th.call.Size() - k, |st.ring|);
      var ring := st.ring[n..];
      var pc := AtMutexUp(|st.ring| == st.cap && n > 0, ring != []);
      st.(ring := ring, delivered := st.delivered + st.ring[..n],
          threads := st.threads[t := Thread(th.call, pc, th.moved + st.ring[..n], |st.ring|)])
    else
      var bytes := Accepted(st.ring, st.cap, th.call.data[k..]);
      var ring := st.ring + bytes;
      var pc := AtMutexUp(st.ring == [] && |bytes| > 0, |ring| != st.cap);
      st.(ring := ring, accepted := st.accepted + bytes,
          threads := st.threads[t := Thread(th.call, pc, th.moved + bytes, st.cap - |st.ring|)])
  }

  predicate Blocked(th: Thread) { th.pc.WaitLock? || th.pc.WaitGate? || th.pc.WaitMutex? }

  /** A thread that is not in the pipe makes a call. */
  function Begin(st: State, t: Tid, c: Call): State {
    st.(threads := st.threads[t := Thread(c, AtLock, [], 0)])
  }

  /** The call of `t` returns. */
  function Finish(st: State, t: Tid): State
    requires t in st.threads
  {
    var th := st.threads[t];
    var r := Record(th.call, th.moved, th.met);
    if th.call.Side() == Reading then st.(threads := st.threads - {t}, readLog := st.readLog + [r])
    else st.(threads := st.threads - {t}, writeLog := st.writeLog + [r])
  }

  /** The next step of a thread that is not blocked. */
  function Act(st: State, t: Tid): State
    requires CanAct(st, t)
  {
    var th := st.threads[t];
    var side := th.call.Side();
    match th.pc
    case AtLock =>
      var st' := SemaphoreDown(st, t, LockOf(side), Entered(th.call), WaitLock);
      if st.sems.Get(LockOf(side)).count == 0 then st' else st'.WithHolder(side, Some(t))
    case AtTest =>
      st.(threads := st.threads[t := th.(pc := if |th.moved| < th.call.Size() then AtGate else AtLockUp)])
    case AtGate => SemaphoreDown(st, t, GateOf(side), AtMutex, WaitGate)
    case AtMutex =>
      var st' := SemaphoreDown(st, t, Mutex, InRing, WaitMutex);
      if st.sems.Get(Mutex).count == 0 then st' else st'.(inMutex := Some(t))
    case InRing => RingWork(st, t)
    case AtMutexUp(wake, more) =>
      SemaphoreUp(st, t, Mutex, AfterMutex(th.call, wake, more)).(inMutex := NextIn(st, Mutex))
    case AtOtherUp(more) => SemaphoreUp(st, t, GateOf(Other(side)), AfterOther(th.call, more))
    case AtGateUp => SemaphoreUp(st, t, GateOf(side), AfterInner(th.call))
    case AtLockUp =>
      Finish(SemaphoreUp(st, t, LockOf(side), AtLockUp), t).WithHolder(side, NextIn(st, LockOf(side)))
    case _ => st
  }

  // ---------------------------------------------------------------- the invariant

  predicate Inside(pc: Pc) { !pc.AtLock? && !pc.WaitLock? }
  predicate UsesMutex(pc: Pc) { pc.InRing? || pc.AtMutexUp? }

  function WaitsOn(th: Thread): Option<SemId> {
    match th.pc
    case WaitLock => Some(LockOf(th.call.Side()))
    case WaitGate => Some(GateOf(th.call.Side()))
    case WaitMutex => Some(Mutex)
    case _ => None
  }

  /** The thread has taken its gate and has not used up what it took. */
  predicate HoldsGate(pc: Pc) {
    || pc.AtMutex? || pc.WaitMutex? || pc.InRing? || pc.AtGateUp?
    || (pc.AtMutexUp? && pc.more) || (pc.AtOtherUp? && pc.more)
  }

  /** The thread will raise the gate of the other side. */
  predicate Owes(pc: Pc) { (pc.AtMutexUp? && pc.wake) || pc.AtOtherUp? }

  predicate BeforeRing(pc: Pc) {
    pc.AtGate? || pc.WaitGate? || pc.AtMutex? || pc.WaitMutex? || pc.InRing?
  }

  predicate AfterRing(pc: Pc) { pc.AtMutexUp? || pc.AtOtherUp? || pc.AtGateUp? }

  /** How far the thread has got with its bytes. */
  predicate ProgressOk(th: Thread) {
    && th.call.Ok() && |th.moved| <= th.call.Size()
    && (th.call.Side() == Writing ==> th.moved == th.call.data[..|th.moved|])
    && (!Inside(th.pc) ==> th.moved == [])
    && (BeforeRing(th.pc) ==> |th.moved| < th.call.Size())
    && (AfterRing(th.pc) ==> |th.moved| > 0)
    && (th.pc.AtLockUp? ==> if th.call.Struct() then |th.moved| == th.call.Size() else |th.moved| > 0)
    && (th.pc.AtTest? ==> th.call.Struct())
    && (!th.call.Struct() && BeforeRing(th.pc) ==> th.moved == [])
    && (!th.call.Struct() && (AfterRing(th.pc) || th.pc.AtLockUp?) ==> |th.moved| == Min(th.call.Size(), th.met))
  }

  ghost predicate ThreadOk(st: State, t: Tid)
    requires t in st.threads
  {
    var th := st.threads[t];
    && ProgressOk(th)
    && (Inside(th.pc) <==> st.Holder(th.call.Side()) == Some(t))
    && (UsesMutex(th.pc) <==> st.inMutex == Some(t))
  }

  ghost predicate SemOk(st: State, s: SemId) {
    var w := st.sems.Get(s).waiting;
    && (w != [] ==> st.sems.Get(s).count == 0)
    && Distinct(w)
    && (forall t :: t in w <==> t in st.threads && WaitsOn(st.threads[t]) == Some(s))
  }

  ghost predicate HolderOk(st: State, side: Side)
  {
    match st.Holder(side)
    case None => st.sems.Get(LockOf(side)).count == 1
    case Some(t) => st.sems.Get(LockOf(side)).count == 0 && t in st.threads && st.threads[t].call.Side() == side
  }

  ghost predicate MutexOk(st: State)
  {
    match st.inMutex
    case None => st.sems.Get(Mutex).count == 1
    case Some(t) => st.sems.Get(Mutex).count == 0 && t in st.threads
  }

  /** There is something in the ring for this side. */
  predicate Open(st: State, side: Side) {
    if side == Reading then st.ring != [] else |st.ring| < st.cap
  }

  /** 1 if the call in progress on this side holds its gate. */
  function Held(st: State, side: Side): nat {
    match st.Holder(side)
    case None => 0
    case Some(t) => if t in st.threads && HoldsGate(st.threads[t].pc) then 1 else 0
  }

  /** 1 if the call in progress on this side owes the other side its gate. */
  function Owed(st: State, side: Side): nat {
    match st.Holder(side)
    case None => 0
    case Some(t) => if t in st.threads && Owes(st.threads[t].pc) then 1 else 0
  }

  /** The tokens of a gate: in its count, held by its own side, owed by the other side. */
  ghost function Tokens(st: State, side: Side): nat
  {
    st.sems.Get(GateOf(side)).count + Held(st, side) + Owed(st, Other(side))
  }

  ghost predicate TokensOk(st: State, side: Side)
  {
    Tokens(st, side) == if Open(st, side) then 1 else 0
  }

  /** The bytes of the finished calls, one call after the other. */
  function Flatten(rs: seq<Record>): seq<char> {
    if rs == [] then [] else Flatten(rs[..|rs| - 1]) + rs[|rs| - 1].bytes
  }

  /** What the call in progress has moved so far. */
  ghost function Partial(st: State, side: Side): seq<char> {
    match st.Holder(side)
    case None => []
    case Some(t) => if t in st.threads then st.threads[t].moved else []
  }

  predicate RecordOk(r: Record) {
    && |r.bytes| <= r.call.Size()
    && (if r.call.Struct() then |r.bytes| == r.call.Size() else 0 < |r.bytes| == Min(r.call.Size(), r.met))
    && (r.call.Side() == Writing ==> r.bytes == r.call.data[..|r.bytes|])
  }

  ghost predicate HistoryOk(st: State) {
    && st.accepted == st.delivered + st.ring
    && st.accepted == Flatten(st.writeLog) + Partial(st, Writing)
    && st.delivered == Flatten(st.readLog) + Partial(st, Reading)
    && (forall r :: r in st.readLog ==> RecordOk(r) && r.call.Side() == Reading)
    && (forall r :: r in st.writeLog ==> RecordOk(r) && r.call.Side() == Writing)
  }

  ghost predicate Shape(st: State) { 0 < st.cap && |st.ring| <= st.cap }

  ghost predicate ThreadsOk(st: State) { forall t :: t in st.threads ==> ThreadOk(st, t) }

  ghost predicate SemsOk(st: State) { forall s: SemId :: SemOk(st, s) }

  ghost predicate HoldersOk(st: State)
    requires Shape(st)
  {
    HolderOk(st, Reading) && HolderOk(st, Writing) && MutexOk(st)
  }

  ghost predicate Control(st: State) { Shape(st) && ThreadsOk(st) && SemsOk(st) && HoldersOk(st) }

  ghost predicate Inv(st: State) {
    Control(st) && TokensOk(st, Reading) && TokensOk(st, Writing) && HistoryOk(st)
  }

  lemma InitInv(cap: nat)
    requires cap > 0
    ensures Inv(Init(cap))
  {}

  // ---------------------------------------------------------------- the wait lists

  lemma SemsKept(st: State, st': State)
    requires SemsOk(st) && st'.sems == st.sems
    requires forall t :: t in st'.threads && WaitsOn(st'.threads[t]).Some? ==> t in st.threads
    requires forall t :: t in st.threads && WaitsOn(st.threads[t]).Some? ==> t in st'.threads
    requires forall t :: t in st.threads && t in st'.threads ==> WaitsOn(st'.threads[t]) == WaitsOn(st.threads[t])
    ensures SemsOk(st')
  {
    forall s: SemId
      ensures SemOk(st', s)
    {
      assert SemOk(st, s);
    }
  }

  lemma DownSems(st: State, t: Tid, s: SemId, next: Pc, wait: Pc)
    requires SemsOk(st) && t in st.threads
    requires WaitsOn(st.threads[t]) == None && WaitsOn(st.threads[t].(pc := next)) == None
    requires WaitsOn(st.threads[t].(pc := wait)) == Some(s)
    ensures SemsOk(SemaphoreDown(st, t, s, next, wait))
  {
    var st' := SemaphoreDown(st, t, s, next, wait);
    forall r: SemId
      ensures SemOk(st', r)
    {
      assert SemOk(st, r);
    }
  }

  lemma FirstOut(q: seq<Tid>)
    requires q != [] && Distinct(q)
    ensures Distinct(q[1..])
    ensures forall t :: t in q[1..] <==> t in q && t != q[0]
  {
    assert q == [q[0]] + q[1..];
  }

  lemma UpSems(st: State, t: Tid, s: SemId, next: Pc)
    requires SemsOk(st) && t in st.threads
    requires WaitsOn(st.threads[t]) == None && WaitsOn(st.threads[t].(pc := next)) == None
    ensures forall w :: w in st.sems.Get(s).waiting ==> w in st.threads && w != t && WaitsOn(st.threads[w]) == Some(s)
    ensures SemsOk(SemaphoreUp(st, t, s, next))
  {
    assert SemOk(st, s);
    var q := st.sems.Get(s).waiting;
    if q != [] {
      UpHandsOver(st, t, s, next);
    } else {
      var st' := SemaphoreUp(st, t, s, next);
      forall r: SemId
        ensures SemOk(st', r)
      {
        assert SemOk(st, r);
      }
    }
  }

  /** The first waiter is handed the semaphore: what that does to the wait list of semaphore `r`. */
  lemma HandOverSem(st: State, t: Tid, s: SemId, next: Pc, r: SemId)
    requires SemOk(st, r) && SemOk(st, s) && t in st.threads && st.sems.Get(s).waiting != []
    requires WaitsOn(st.threads[t]) == None && WaitsOn(st.threads[t].(pc := next)) == None
    ensures SemOk(SemaphoreUp(st, t, s, next), r)
  {
    var st', q := SemaphoreUp(st, t, s, next), st.sems.Get(s).waiting;
    var w := q[0];
    assert w in q;
    FirstOut(q);
    assert WaitsOn(st'.threads[w]) == None && WaitsOn(st'.threads[t]) == None;
    assert forall u :: u in st.threads && u != t && u != w ==> st'.threads[u] == st.threads[u];
  }

  lemma UpHandsOver(st: State, t: Tid, s: SemId, next: Pc)
    requires SemsOk(st) && t in st.threads && st.sems.Get(s).waiting != []
    requires WaitsOn(st.threads[t]) == None && WaitsOn(st.threads[t].(pc := next)) == None
    ensures SemsOk(SemaphoreUp(st, t, s, next))
  {
    forall r: SemId
      ensures SemOk(SemaphoreUp(st, t, s, next), r)
    {
      HandOverSem(st, t, s, next, r);
    }
  }

  // ---------------------------------------------------------------- frames for the parts of the invariant

  lemma HistoryKept(st: State, st': State)
    requires HistoryOk(st)
    requires st'.ring == st.ring && st'.accepted == st.accepted && st'.delivered == st.delivered
    requires st'.readLog == st.readLog && st'.writeLog == st.writeLog
    requires Partial(st', Reading) == Partial(st, Reading) && Partial(st', Writing) == Partial(st, Writing)
    ensures HistoryOk(st')
  {}

  /** Nothing the invariant says about thread `u` has changed. */
  predicate SameFor(st: State, st': State, u: Tid) {
    && u in st.threads && u in st'.threads && st'.threads[u] == st.threads[u]
    && (st'.reader == Some(u) <==> st.reader == Some(u))
    && (st'.writer == Some(u) <==> st.writer == Some(u))
    && (st'.inMutex == Some(u) <==> st.inMutex == Some(u))
  }

  lemma ThreadsKept(st: State, st': State, changed: set<Tid>)
    requires ThreadsOk(st)
    requires forall u :: u in st'.threads && u !in changed ==> SameFor(st, st', u)
    requires forall u :: u in st'.threads && u in changed ==> ThreadOk(st', u)
    ensures ThreadsOk(st')
  {
    forall u | u in st'.threads
      ensures ThreadOk(st', u)
    {
      if u !in changed { assert SameFor(st, st', u) && ThreadOk(st, u); }
    }
  }

  /** Who is inside a call is one thread of the right side, and it is not the other side's. */
  ghost predicate InCall(st: State, t: Tid, side: Side) {
    && Shape(st) && t in st.threads && ProgressOk(st.threads[t])
    && Inside(st.threads[t].pc) && st.threads[t].call.Side() == side
    && st.Holder(side) == Some(t) && st.Holder(Other(side)) != Some(t)
  }

  lemma InCallNow(st: State, t: Tid)
    requires Control(st) && t in st.threads && Inside(st.threads[t].pc)
    ensures InCall(st, t, st.threads[t].call.Side())
  {
    assert ThreadOk(st, t);
    assert HolderOk(st, Other(st.threads[t].call.Side()));
  }

  lemma WaiterOk(st: State, s: SemId, w: Tid)
    requires Control(st) && w in st.sems.Get(s).waiting
    ensures w in st.threads && WaitsOn(st.threads[w]) == Some(s) && ProgressOk(st.threads[w])
    ensures st.sems.Get(s).count == 0
    ensures Inside(st.threads[w].pc) <==> st.Holder(st.threads[w].call.Side()) == Some(w)
    ensures st.inMutex != Some(w)
  {
    assert SemOk(st, s) && ThreadOk(st, w);
  }

  /** Only the holder of a side can wait at its gate. */
  lemma GateWaiter(st: State, side: Side, w: Tid)
    requires Control(st) && w in st.sems.Get(GateOf(side)).waiting
    ensures w in st.threads && st.threads[w].pc.WaitGate? && st.threads[w].call.Side() == side
    ensures st.Holder(side) == Some(w)
  {
    WaiterOk(st, GateOf(side), w);
  }

  // ---------------------------------------------------------------- steps of one thread alone

  lemma BeginInv(st: State, t: Tid, c: Call)
    requires Inv(st) && t !in st.threads && c.Ok()
    ensures Inv(Begin(st, t, c))
  {
    BeginControl(st, t, c);
    assert HoldersOk(st);
    HistoryKept(st, Begin(st, t, c));
  }

  lemma BeginControl(st: State, t: Tid, c: Call)
    requires Control(st) && t !in st.threads && c.Ok()
    ensures Control(Begin(st, t, c))
  {
    var st' := Begin(st, t, c);
    SemsKept(st, st');
    assert HoldersOk(st);
    ThreadsKept(st, st', {t});
  }

  /** A step of `t` alone that leaves it as deep inside as it was. */
  lemma AloneControl(st: State, st': State, t: Tid, th': Thread)
    requires Control(st) && t in st.threads && Shape(st')
    requires st' == st.(threads := st.threads[t := th'],
                        ring := st'.ring, accepted := st'.accepted, delivered := st'.delivered)
    requires var th := st.threads[t];
             && th'.call == th.call && ProgressOk(th')
             && WaitsOn(th) == WaitsOn(th') == None
             && Inside(th'.pc) == Inside(th.pc) && UsesMutex(th'.pc) == UsesMutex(th.pc)
    ensures Control(st')
  {
    SemsKept(st, st');
    assert ThreadOk(st, t);
    ThreadsKept(st, st', {t});
  }

  lemma AtTestInv(st: State, t: Tid)
    requires Inv(st) && t in st.threads && st.threads[t].pc.AtTest?
    ensures CanAct(st, t) && Inv(Act(st, t))
  {
    InCallNow(st, t);
    AloneControl(st, Act(st, t), t, Act(st, t).threads[t]);
    HistoryKept(st, Act(st, t));
    TestTokens(st, t, st.threads[t].call.Side());
  }

  lemma TestTokens(st: State, t: Tid, side: Side)
    requires InCall(st, t, side) && st.threads[t].pc.AtTest? && TokensOk(st, Reading) && TokensOk(st, Writing)
    ensures forall pc: Pc :: !HoldsGate(pc) && !Owes(pc) ==>
              var st' := st.(threads := st.threads[t := st.threads[t].(pc := pc)]);
              TokensOk(st', Reading) && TokensOk(st', Writing)
  {}

  /** A thread about to work on the ring finds something there: the code's assertions hold. */
  lemma RingAsserts(st: State, t: Tid)
    requires Inv(st) && t in st.threads && st.threads[t].pc.InRing?
    ensures var th := st.threads[t];
            && |th.moved| < th.call.Size() && Open(st, th.call.Side())
            && (!Open(st, Other(th.call.Side())) ==> st.sems.Get(GateOf(Other(th.call.Side()))).count == 0)
  {
    InCallNow(st, t);
    assert Held(st, st.threads[t].call.Side()) == 1;
  }

  lemma ReadWorkKeeps(st: State, t: Tid)
    requires InCall(st, t, Reading) && st.threads[t].pc.InRing? && st.ring != []
    ensures Shape(RingWork(st, t)) && ProgressOk(RingWork(st, t).threads[t])
    ensures TokensOk(st, Reading) && TokensOk(st, Writing) ==>
              TokensOk(RingWork(st, t), Reading) && TokensOk(RingWork(st, t), Writing)
  {}

  lemma ReadWorkHistory(st: State, t: Tid)
    requires InCall(st, t, Reading) && st.threads[t].pc.InRing? && HistoryOk(st)
    ensures HistoryOk(RingWork(st, t))
  {
    var st', th := RingWork(st, t), st.threads[t];
    var n := Min(th.call.Size() - |th.moved|, |st.ring|);
    assert st.ring == st.ring[..n] + st.ring[n..];
    assert st'.delivered == Flatten(st.readLog) + (th.moved + st.ring[..n]);
    assert Partial(st', Writing) == Partial(st, Writing);
  }

  lemma WriteWorkKeeps(st: State, t: Tid)
    requires InCall(st, t, Writing) && st.threads[t].pc.InRing? && |st.ring| < st.cap
    ensures Shape(RingWork(st, t)) && ProgressOk(RingWork(st, t).threads[t])
    ensures TokensOk(st, Reading) && TokensOk(st, Writing) ==>
              TokensOk(RingWork(st, t), Reading) && TokensOk(RingWork(st, t), Writing)
  {
    var th := st.threads[t];
    var k, d := |th.moved|, th.call.data;
    var bytes := Accepted(st.ring, st.cap, d[k..]);
    assert d[..k] + bytes == d[..k + |bytes|];
  }

  lemma WriteWorkHistory(st: State, t: Tid)
    requires InCall(st, t, Writing) && st.threads[t].pc.InRing? && HistoryOk(st)
    ensures HistoryOk(RingWork(st, t))
  {
    var st', th := RingWork(st, t), st.threads[t];
    var bytes := Accepted(st.ring, st.cap, th.call.data[|th.moved|..]);
    assert st'.accepted == st'.delivered + st'.ring;
    assert st'.accepted == Flatten(st.writeLog) + (th.moved + bytes);
    assert Partial(st', Reading) == Partial(st, Reading);
  }

  lemma RingWorkInv(st: State, t: Tid)
    requires Inv(st) && t in st.threads && st.threads[t].pc.InRing?
    ensures CanAct(st, t) && Inv(Act(st, t))
  {
    InCallNow(st, t);
    RingAsserts(st, t);
    if st.threads[t].call.Side() == Reading {
      ReadWorkKeeps(st, t);
      ReadWorkHistory(st, t);
    } else {
      WriteWorkKeeps(st, t);
      WriteWorkHistory(st, t);
    }
    AloneControl(st, RingWork(st, t), t, RingWork(st, t).threads[t]);
  }

  // ---------------------------------------------------------------- lowering a semaphore

  lemma LockBusy(st: State, t: Tid, side: Side)
    requires Control(st) && t in st.threads && st.threads[t].pc.AtLock? && st.threads[t].call.Side() == side
    requires st.sems.Get(LockOf(side)).count == 0
    ensures Control(SemaphoreDown(st, t, LockOf(side), Entered(st.threads[t].call), WaitLock))
  {
    var th := st.threads[t];
    var st' := SemaphoreDown(st, t, LockOf(side), Entered(th.call), WaitLock);
    assert ThreadOk(st, t);
    DownSems(st, t, LockOf(side), Entered(th.call), WaitLock);
    ThreadsKept(st, st', {t});
  }

  /** Lowering a semaphore changes only the thread that does it, and whom it makes a holder. */
  lemma DownThreads(st: State, t: Tid, s: SemId, next: Pc, wait: Pc, st': State)
    requires ThreadsOk(st) && t in st.threads
    requires st'.threads == SemaphoreDown(st, t, s, next, wait).threads && ThreadOk(st', t)
    requires forall u :: u in st.threads && u != t ==>
               (st'.reader == Some(u) <==> st.reader == Some(u)) && (st'.writer == Some(u) <==> st.writer == Some(u))
               && (st'.inMutex == Some(u) <==> st.inMutex == Some(u))
    ensures ThreadsOk(st')
  {
    ThreadsKept(st, st', {t});
  }

  lemma LockTakenHolders(st: State, t: Tid, side: Side)
    requires Shape(st) && HoldersOk(st) && t in st.threads && st.threads[t].call.Side() == side
    requires st.sems.Get(LockOf(side)).count != 0
    ensures st.Holder(side) == None
    ensures var st' := SemaphoreDown(st, t, LockOf(side), Entered(st.threads[t].call), WaitLock);
            HoldersOk(st'.WithHolder(side, Some(t)))
  {
    assert HolderOk(st, side) && HolderOk(st, Other(side));
  }

  lemma LockTaken(st: State, t: Tid, side: Side)
    requires Control(st) && t in st.threads && st.threads[t].pc.AtLock? && st.threads[t].call.Side() == side
    requires st.sems.Get(LockOf(side)).count != 0
    ensures Control(SemaphoreDown(st, t, LockOf(side), Entered(st.threads[t].call), WaitLock).WithHolder(side, Some(t)))
    ensures st.Holder(side) == None
  {
    var th := st.threads[t];
    var st1 := SemaphoreDown(st, t, LockOf(side), Entered(th.call), WaitLock);
    var st' := st1.WithHolder(side, Some(t));
    LockTakenHolders(st, t, side);
    assert ThreadOk(st, t);
    DownSems(st, t, LockOf(side), Entered(th.call), WaitLock);
    SemsKept(st1, st');
    DownThreads(st, t, LockOf(side), Entered(th.call), WaitLock, st');
  }

  lemma GateTakenHolders(st: State, t: Tid, side: Side)
    requires Shape(st) && HoldersOk(st) && t in st.threads
    ensures HoldersOk(SemaphoreDown(st, t, GateOf(side), AtMutex, WaitGate))
  {
    assert HolderOk(st, side) && HolderOk(st, Other(side)) && MutexOk(st);
  }

  lemma GateTaken(st: State, t: Tid, side: Side)
    requires Control(st) && InCall(st, t, side) && st.threads[t].pc.AtGate?
    ensures Control(SemaphoreDown(st, t, GateOf(side), AtMutex, WaitGate))
  {
    var st' := SemaphoreDown(st, t, GateOf(side), AtMutex, WaitGate);
    GateTakenHolders(st, t, side);
    assert ThreadOk(st, t);
    DownSems(st, t, GateOf(side), AtMutex, WaitGate);
    DownThreads(st, t, GateOf(side), AtMutex, WaitGate, st');
  }

  lemma MutexTaken(st: State, t: Tid, side: Side)
    requires Control(st) && InCall(st, t, side) && st.threads[t].pc.AtMutex?
    ensures var st' := SemaphoreDown(st, t, Mutex, InRing, WaitMutex);
            if st.sems.Get(Mutex).count == 0 then Control(st') else Control(st'.(inMutex := Some(t)))
  {
    var st1 := SemaphoreDown(st, t, Mutex, InRing, WaitMutex);
    var st' := if st.sems.Get(Mutex).count == 0 then st1 else st1.(inMutex := Some(t));
    assert ThreadOk(st, t) && MutexOk(st);
    DownSems(st, t, Mutex, InRing, WaitMutex);
    SemsKept(st1, st');
    DownThreads(st, t, Mutex, InRing, WaitMutex, st');
  }

  ghost predicate BothTokensOk(st: State) { TokensOk(st, Reading) && TokensOk(st, Writing) }

  lemma GateDownTokens(st: State, t: Tid, side: Side)
    requires InCall(st, t, side) && BothTokensOk(st) && st.threads[t].pc.AtGate?
    ensures BothTokensOk(SemaphoreDown(st, t, GateOf(side), AtMutex, WaitGate))
  {}

  lemma MutexDownTokens(st: State, t: Tid, side: Side, m: Option<Tid>)
    requires InCall(st, t, side) && BothTokensOk(st) && st.threads[t].pc.AtMutex?
    ensures BothTokensOk(SemaphoreDown(st, t, Mutex, InRing, WaitMutex).(inMutex := m))
  {}

  lemma LockTokens(st: State, t: Tid, side: Side)
    requires t in st.threads && TokensOk(st, Reading) && TokensOk(st, Writing)
    requires st.Holder(Reading) != Some(t) && st.Holder(Writing) != Some(t)
    ensures var st' := SemaphoreDown(st, t, LockOf(side), Entered(st.threads[t].call), WaitLock);
            && TokensOk(st', Reading) && TokensOk(st', Writing)
            && (st.Holder(side) == None ==>
                  TokensOk(st'.WithHolder(side, Some(t)), Reading) && TokensOk(st'.WithHolder(side, Some(t)), Writing))
  {}

  // ---------------------------------------------------------------- raising a semaphore

  lemma GrantedOk(th: Thread)
    requires ProgressOk(th) && Blocked(th)
    ensures ProgressOk(Granted(th)) && Inside(Granted(th).pc) && !Blocked(Granted(th))
    ensures UsesMutex(Granted(th).pc) <==> th.pc.WaitMutex?
  {}

  predicate CanGoOn(th: Thread, next: Pc) {
    Inside(next) && !UsesMutex(next) && !Blocked(th.(pc := next)) && ProgressOk(th.(pc := next))
  }

  lemma AfterMutexOk(th: Thread)
    requires ProgressOk(th) && th.pc.AtMutexUp?
    ensures CanGoOn(th, AfterMutex(th.call, th.pc.wake, th.pc.more))
  {}

  lemma MutexHanded(st: State, t: Tid, side: Side, next: Pc)
    requires Control(st) && InCall(st, t, side) && st.threads[t].pc.AtMutexUp? && CanGoOn(st.threads[t], next)
    requires st.sems.mutex.waiting != []
    ensures Control(SemaphoreUp(st, t, Mutex, next).(inMutex := NextIn(st, Mutex)))
  {
    var st1 := SemaphoreUp(st, t, Mutex, next);
    var st' := st1.(inMutex := NextIn(st, Mutex));
    var w := st.sems.mutex.waiting[0];
    assert ThreadOk(st, t);
    WaiterOk(st, Mutex, w);
    GrantedOk(st.threads[w]);
    UpSems(st, t, Mutex, next);
    SemsKept(st1, st');
    ThreadsKept(st, st', {t, w});
  }

  lemma MutexFreed(st: State, t: Tid, side: Side, next: Pc)
    requires Control(st) && InCall(st, t, side) && st.threads[t].pc.AtMutexUp? && CanGoOn(st.threads[t], next)
    requires st.sems.mutex.waiting == []
    ensures Control(SemaphoreUp(st, t, Mutex, next).(inMutex := NextIn(st, Mutex)))
  {
    var st1 := SemaphoreUp(st, t, Mutex, next);
    var st' := st1.(inMutex := NextIn(st, Mutex));
    assert ThreadOk(st, t);
    UpSems(st, t, Mutex, next);
    SemsKept(st1, st');
    ThreadsKept(st, st', {t});
  }

  lemma OtherHanded(st: State, t: Tid, side: Side, next: Pc)
    requires Control(st) && InCall(st, t, side) && st.threads[t].pc.AtOtherUp? && CanGoOn(st.threads[t], next)
    requires st.sems.Get(GateOf(Other(side))).waiting != []
    ensures Control(SemaphoreUp(st, t, GateOf(Other(side)), next))
  {
    var s := GateOf(Other(side));
    var w := st.sems.Get(s).waiting[0];
    assert ThreadOk(st, t);
    WaiterOk(st, s, w);
    GrantedOk(st.threads[w]);
    UpSems(st, t, s, next);
    ThreadsKept(st, SemaphoreUp(st, t, s, next), {t, w});
  }

  lemma OtherFreed(st: State, t: Tid, side: Side, next: Pc)
    requires Control(st) && InCall(st, t, side) && st.threads[t].pc.AtOtherUp? && CanGoOn(st.threads[t], next)
    requires st.sems.Get(GateOf(Other(side))).waiting == []
    ensures Control(SemaphoreUp(st, t, GateOf(Other(side)), next))
  {
    var s := GateOf(Other(side));
    assert ThreadOk(st, t);
    UpSems(st, t, s, next);
    ThreadsKept(st, SemaphoreUp(st, t, s, next), {t});
  }

  lemma GateRaised(st: State, t: Tid, side: Side, next: Pc)
    requires Control(st) && InCall(st, t, side) && st.threads[t].pc.AtGateUp? && CanGoOn(st.threads[t], next)
    ensures Control(SemaphoreUp(st, t, GateOf(side), next)) && st.sems.Get(GateOf(side)).waiting == []
  {
    var s := GateOf(side);
    if st.sems.Get(s).waiting != [] {
      GateWaiter(st, side, st.sems.Get(s).waiting[0]);
    }
    assert ThreadOk(st, t);
    UpSems(st, t, s, next);
    ThreadsKept(st, SemaphoreUp(st, t, s, next), {t});
  }

  /** The state after the last step of a call. */
  function Returned(st: State, t: Tid, side: Side): State
    requires t in st.threads
  {
    Finish(SemaphoreUp(st, t, LockOf(side), AtLockUp), t).WithHolder(side, NextIn(st, LockOf(side)))
  }

  lemma LockHanded(st: State, t: Tid, side: Side)
    requires Control(st) && InCall(st, t, side) && st.threads[t].pc.AtLockUp?
    requires st.sems.Get(LockOf(side)).waiting != []
    ensures ThreadsOk(Returned(st, t, side)) && HoldersOk(Returned(st, t, side))
  {
    var s := LockOf(side);
    var st' := Returned(st, t, side);
    var w := st.sems.Get(s).waiting[0];
    assert ThreadOk(st, t);
    WaiterOk(st, s, w);
    GrantedOk(st.threads[w]);
    ThreadsKept(st, st', {t, w});
  }

  lemma LockFreed(st: State, t: Tid, side: Side)
    requires Control(st) && InCall(st, t, side) && st.threads[t].pc.AtLockUp?
    requires st.sems.Get(LockOf(side)).waiting == []
    ensures ThreadsOk(Returned(st, t, side)) && HoldersOk(Returned(st, t, side))
  {
    assert ThreadOk(st, t);
    ThreadsKept(st, Returned(st, t, side), {t});
  }

  lemma LockRaised(st: State, t: Tid, side: Side)
    requires Control(st) && InCall(st, t, side) && st.threads[t].pc.AtLockUp?
    ensures Control(Returned(st, t, side))
  {
    var st1 := SemaphoreUp(st, t, LockOf(side), AtLockUp);
    UpSems(st, t, LockOf(side), AtLockUp);
    SemsKept(st1, Returned(st, t, side));
    if st.sems.Get(LockOf(side)).waiting != [] { LockHanded(st, t, side); } else { LockFreed(st, t, side); }
  }

  lemma MutexUpTokens(st: State, t: Tid, side: Side, m: Option<Tid>)
    requires InCall(st, t, side) && BothTokensOk(st) && st.threads[t].pc.AtMutexUp?
    requires var q := st.sems.mutex.waiting;
             q != [] ==> q[0] in st.threads && st.threads[q[0]].pc.WaitMutex?
    ensures var th := st.threads[t];
            BothTokensOk(SemaphoreUp(st, t, Mutex, AfterMutex(th.call, th.pc.wake, th.pc.more)).(inMutex := m))
  {}

  lemma OtherUpTokens(st: State, t: Tid, side: Side)
    requires InCall(st, t, side) && BothTokensOk(st) && st.threads[t].pc.AtOtherUp?
    requires var q := st.sems.Get(GateOf(Other(side))).waiting;
             q != [] ==> q[0] in st.threads && st.threads[q[0]].pc.WaitGate? && st.Holder(Other(side)) == Some(q[0])
    ensures var th := st.threads[t];
            BothTokensOk(SemaphoreUp(st, t, GateOf(Other(side)), AfterOther(th.call, th.pc.more)))
  {}

  lemma GateUpTokens(st: State, t: Tid, side: Side)
    requires InCall(st, t, side) && BothTokensOk(st) && st.threads[t].pc.AtGateUp?
    requires st.sems.Get(GateOf(side)).waiting == []
    ensures BothTokensOk(SemaphoreUp(st, t, GateOf(side), AfterInner(st.threads[t].call)))
  {}

  lemma LockUpTokens(st: State, t: Tid, side: Side)
    requires InCall(st, t, side) && BothTokensOk(st) && st.threads[t].pc.AtLockUp?
    requires var q := st.sems.Get(LockOf(side)).waiting;
             q != [] ==> q[0] in st.threads && st.threads[q[0]].pc.WaitLock? && q[0] != t
    ensures BothTokensOk(Returned(st, t, side))
  {}

  lemma FlattenAppend(rs: seq<Record>, r: Record)
    ensures Flatten(rs + [r]) == Flatten(rs) + r.bytes
  {
    assert (rs + [r])[..|rs|] == rs;
  }

  lemma HistoryLogged(st: State, st': State, side: Side, r: Record)
    requires HistoryOk(st) && RecordOk(r) && r.call.Side() == side
    requires st'.ring == st.ring && st'.accepted == st.accepted && st'.delivered == st.delivered
    requires st'.Done(side) == st.Done(side) + [r] && st'.Done(Other(side)) == st.Done(Other(side))
    requires Partial(st, side) == r.bytes && Partial(st', side) == []
    requires Partial(st', Other(side)) == Partial(st, Other(side))
    ensures HistoryOk(st')
  {
    FlattenAppend(st.Done(side), r);
  }

  lemma LockUpHistory(st: State, t: Tid, side: Side)
    requires InCall(st, t, side) && HistoryOk(st) && st.threads[t].pc.AtLockUp?
    requires var q := st.sems.Get(LockOf(side)).waiting;
             q != [] ==> q[0] in st.threads && st.threads[q[0]].moved == [] && q[0] != t
    ensures HistoryOk(Returned(st, t, side))
  {
    var th := st.threads[t];
    HistoryLogged(st, Returned(st, t, side), side, Record(th.call, th.moved, th.met));
  }

  lemma DownHistory(st: State, t: Tid, s: SemId, next: Pc, wait: Pc, m: Option<Tid>)
    requires HistoryOk(st) && t in st.threads
    ensures HistoryOk(SemaphoreDown(st, t, s, next, wait).(inMutex := m))
  {
    HistoryKept(st, SemaphoreDown(st, t, s, next, wait).(inMutex := m));
  }

  lemma UpHistory(st: State, t: Tid, s: SemId, next: Pc, m: Option<Tid>)
    requires HistoryOk(st) && t in st.threads
    ensures HistoryOk(SemaphoreUp(st, t, s, next).(inMutex := m))
  {
    HistoryKept(st, SemaphoreUp(st, t, s, next).(inMutex := m));
  }

  lemma LockDownHistory(st: State, t: Tid, side: Side, next: Pc)
    requires HistoryOk(st) && t in st.threads && st.Holder(side) == None && st.threads[t].moved == []
    ensures HistoryOk(SemaphoreDown(st, t, LockOf(side), next, WaitLock).WithHolder(side, Some(t)))
  {
    HistoryKept(st, SemaphoreDown(st, t, LockOf(side), next, WaitLock).WithHolder(side, Some(t)));
  }

  // ---------------------------------------------------------------- every step keeps the invariant

  lemma AtLockInv(st: State, t: Tid)
    requires Inv(st) && t in st.threads && st.threads[t].pc.AtLock?
    ensures CanAct(st, t) && Inv(Act(st, t))
  {
    var th := st.threads[t];
    var side := th.call.Side();
    assert ThreadOk(st, t) && HolderOk(st, Other(side));
    LockTokens(st, t, side);
    if st.sems.Get(LockOf(side)).count == 0 {
      LockBusy(st, t, side);
      DownHistory(st, t, LockOf(side), Entered(th.call), WaitLock, st.inMutex);
    } else {
      LockTaken(st, t, side);
      LockDownHistory(st, t, side, Entered(th.call));
    }
  }

  lemma AtGateInv(st: State, t: Tid)
    requires Inv(st) && t in st.threads && st.threads[t].pc.AtGate?
    ensures CanAct(st, t) && Inv(Act(st, t))
  {
    var side := st.threads[t].call.Side();
    InCallNow(st, t);
    GateTaken(st, t, side);
    GateDownTokens(st, t, side);
    DownHistory(st, t, GateOf(side), AtMutex, WaitGate, st.inMutex);
  }

  lemma AtMutexInv(st: State, t: Tid)
    requires Inv(st) && t in st.threads && st.threads[t].pc.AtMutex?
    ensures CanAct(st, t) && Inv(Act(st, t))
  {
    var side := st.threads[t].call.Side();
    InCallNow(st, t);
    MutexTaken(st, t, side);
    var m := if st.sems.mutex.count == 0 then st.inMutex else Some(t);
    MutexDownTokens(st, t, side, m);
    DownHistory(st, t, Mutex, InRing, WaitMutex, m);
  }

  lemma MutexUpControl(st: State, t: Tid, side: Side, next: Pc)
    requires Control(st) && InCall(st, t, side) && st.threads[t].pc.AtMutexUp?
    requires next == AfterMutex(st.threads[t].call, st.threads[t].pc.wake, st.threads[t].pc.more)
    ensures Control(SemaphoreUp(st, t, Mutex, next).(inMutex := NextIn(st, Mutex)))
  {
    AfterMutexOk(st.threads[t]);
    if st.sems.mutex.waiting != [] {
      WaiterOk(st, Mutex, st.sems.mutex.waiting[0]);
      MutexHanded(st, t, side, next);
    } else {
      MutexFreed(st, t, side, next);
    }
  }

  lemma MutexUpInv(st: State, t: Tid, side: Side, next: Pc)
    requires Inv(st) && InCall(st, t, side) && st.threads[t].pc.AtMutexUp?
    requires next == AfterMutex(st.threads[t].call, st.threads[t].pc.wake, st.threads[t].pc.more)
    ensures Inv(SemaphoreUp(st, t, Mutex, next).(inMutex := NextIn(st, Mutex)))
  {
    MutexUpControl(st, t, side, next);
    MutexUpTokens(st, t, side, NextIn(st, Mutex));
    UpHistory(st, t, Mutex, next, NextIn(st, Mutex));
  }

  lemma AtMutexUpInv(st: State, t: Tid)
    requires Inv(st) && t in st.threads && st.threads[t].pc.AtMutexUp?
    ensures CanAct(st, t) && Inv(Act(st, t))
  {
    var th := st.threads[t];
    InCallNow(st, t);
    MutexUpInv(st, t, th.call.Side(), AfterMutex(th.call, th.pc.wake, th.pc.more));
  }

  lemma AtOtherUpInv(st: State, t: Tid)
    requires Inv(st) && t in st.threads && st.threads[t].pc.AtOtherUp?
    ensures CanAct(st, t) && Inv(Act(st, t))
  {
    var th := st.threads[t];
    var side, next := th.call.Side(), AfterOther(th.call, th.pc.more);
    var s := GateOf(Other(side));
    InCallNow(st, t);
    if st.sems.Get(s).waiting != [] {
      GateWaiter(st, Other(side), st.sems.Get(s).waiting[0]);
      OtherHanded(st, t, side, next);
    } else {
      OtherFreed(st, t, side, next);
    }
    OtherUpTokens(st, t, side);
    UpHistory(st, t, s, next, st.inMutex);
  }

  lemma AtGateUpInv(st: State, t: Tid)
    requires Inv(st) && t in st.threads && st.threads[t].pc.AtGateUp?
    ensures CanAct(st, t) && Inv(Act(st, t))
  {
    var th := st.threads[t];
    var side := th.call.Side();
    InCallNow(st, t);
    GateRaised(st, t, side, AfterInner(th.call));
    GateUpTokens(st, t, side);
    UpHistory(st, t, GateOf(side), AfterInner(th.call), st.inMutex);
  }

  lemma ReturnInv(st: State, t: Tid)
    requires Inv(st) && t in st.threads && st.threads[t].pc.AtLockUp?
    ensures CanAct(st, t) && Inv(Act(st, t))
  {
    var side := st.threads[t].call.Side();
    InCallNow(st, t);
    if st.sems.Get(LockOf(side)).waiting != [] {
      WaiterOk(st, LockOf(side), st.sems.Get(LockOf(side)).waiting[0]);
    }
    LockRaised(st, t, side);
    LockUpTokens(st, t, side);
    LockUpHistory(st, t, side);
  }

  lemma ActInv(st: State, t: Tid)
    requires Inv(st) && t in st.threads && !Blocked(st.threads[t])
    ensures CanAct(st, t) && Inv(Act(st, t))
  {
    match st.threads[t].pc
    case AtTest => AtTestInv(st, t);
    case InRing => RingWorkInv(st, t);
    case AtMutexUp(_, _) => AtMutexUpInv(st, t);
    case AtOtherUp(_) => AtOtherUpInv(st, t);
    case AtGateUp => AtGateUpInv(st, t);
    case AtLockUp => ReturnInv(st, t);
    case AtLock => AtLockInv(st, t);
    case AtGate => AtGateInv(st, t);
    case AtMutex => AtMutexInv(st, t);
  }

  // ---------------------------------------------------------------- runs

  /** One step of the system: some thread makes a call, or some thread in a call goes on. */
  ghost predicate Step(st: State, st': State) {
    || (exists t, c: Call :: t !in st.threads && c.Ok() && st' == Begin(st, t, c))
    || (exists t :: CanAct(st, t) && st' == Act(st, t))
  }

  ghost predicate Run(sts: seq<State>) {
    && |sts| > 0 && sts[0].cap > 0 && sts[0] == Init(sts[0].cap)
    && forall i :: 0 <= i < |sts| - 1 ==> Step(sts[i], sts[i + 1])
  }

  lemma StepInv(st: State, st': State)
    requires Inv(st) && Step(st, st')
    ensures Inv(st')
  {
    if t, c: Call :| t !in st.threads && c.Ok() && st' == Begin(st, t, c) {
      BeginInv(st, t, c);
    } else {
      var t :| CanAct(st, t) && st' == Act(st, t);
      ActInv(st, t);
    }
  }

  /** The invariant holds throughout every run. */
  lemma {:induction false} RunInv(sts: seq<State>, i: nat)
    requires Run(sts) && i < |sts|
    ensures Inv(sts[i])
    decreases i
  {
    if i == 0 {
      InitInv(sts[0].cap);
    } else {
      RunInv(sts, i - 1);
      assert Step(sts[i - 1], sts[i - 1 + 1]);
      StepInv(sts[i - 1], sts[i]);
    }
  }

  // ---------------------------------------------------------------- what the invariant gives

  /**
   In every state of every run, the token of each gate is in exactly one place while the ring has
   something for its side, and nowhere otherwise.
   */
  lemma TokensBalanced(sts: seq<State>, i: nat)
    requires Run(sts) && i < |sts|
    ensures Tokens(sts[i], Reading) == if sts[i].ring != [] then 1 else 0
    ensures Tokens(sts[i], Writing) == if |sts[i].ring| < sts[i].cap then 1 else 0
  {
    RunInv(sts, i);
  }

  /**
   So the assertions around the ring work hold: the other side's gate is down when it is shut out,
   and no transfer is empty.
   */
  lemma AssertsNeverFail(sts: seq<State>, i: nat, t: Tid)
    requires Run(sts) && i < |sts| && t in sts[i].threads && sts[i].threads[t].pc.InRing?
    ensures var st := sts[i];
            var th := st.threads[t];
            && CanAct(st, t)
            && (th.call.Side() == Reading && |st.ring| == st.cap ==> st.sems.full.count == 0)
            && (th.call.Side() == Writing && st.ring == [] ==> st.sems.empty.count == 0)
            && |RingWork(st, t).threads[t].moved| > |th.moved|
  {
    RunInv(sts, i);
    ActInv(sts[i], t);
    RingAsserts(sts[i], t);
  }

  /**
   One transfer moves the oldest bytes, or the next ones of the caller's, as many as are asked for and the
   ring has or takes: afterwards the call has all it wanted, or the ring has nothing more for its side.
   */
  lemma TransferExact(sts: seq<State>, i: nat, t: Tid)
    requires Run(sts) && i < |sts| && t in sts[i].threads && sts[i].threads[t].pc.InRing?
    ensures CanAct(sts[i], t) && t in Act(sts[i], t).threads
    ensures var st, th := sts[i], sts[i].threads[t];
            var st', th' := Act(st, t), Act(st, t).threads[t];
            && (|th'.moved| == th.call.Size() || !Open(st', th.call.Side()))
            && (th.call.Side() == Reading ==>
                  st.ring == th'.moved[|th.moved|..] + st'.ring && th'.moved[..|th.moved|] == th.moved
                  && th'.met == |st.ring|)
            && (th.call.Side() == Writing ==>
                  th'.moved == th.call.data[..|th'.moved|] && st'.ring == st.ring + th'.moved[|th.moved|..]
                  && th'.met + |st.ring| == st.cap)
  {
    RunInv(sts, i);
    assert ThreadOk(sts[i], t);
    OneTransfer(sts[i], t);
  }

  lemma OneTransfer(st: State, t: Tid)
    requires Shape(st) && t in st.threads && ProgressOk(st.threads[t])
    ensures CanAct(st, t) || Blocked(st.threads[t])
    ensures CanAct(st, t) ==>
              var th := st.threads[t];
              var st', th' := RingWork(st, t), RingWork(st, t).threads[t];
              && (|th'.moved| == th.call.Size() || !Open(st', th.call.Side()))
              && (th.call.Side() == Reading ==>
                    st.ring == th'.moved[|th.moved|..] + st'.ring && th'.moved[..|th.moved|] == th.moved
                    && th'.met == |st.ring|)
              && (th.call.Side() == Writing ==>
                    th'.moved == th.call.data[..|th'.moved|] && st'.ring == st.ring + th'.moved[|th.moved|..]
                    && th'.met + |st.ring| == st.cap)
  {
    var th := st.threads[t];
    if th.call.Side() == Writing && CanAct(st, t) {
      var bytes := Accepted(st.ring, st.cap, th.call.data[|th.moved|..]);
      assert th.call.data[..|th.moved|] + bytes == th.call.data[..|th.moved| + |bytes|];
    }
  }

  /** A finished plain call has moved the smaller of what it asked for and what the ring had for it. */
  lemma PlainCallsExact(sts: seq<State>, i: nat, r: Record)
    requires Run(sts) && i < |sts| && (r in sts[i].readLog || r in sts[i].writeLog) && !r.call.Struct()
    ensures |r.bytes| == if r.call.Size() < r.met then r.call.Size() else r.met
    ensures r.call.Write? ==> r.bytes == r.call.data[..|r.bytes|]
  {
    RunInv(sts, i);
  }

  /** The part of PipeReadInner under the mutex, on the ring buffer itself: it does what RingWork says. */
  method ReadTheRing(ring: Ring, buff: array<char>, at: nat, ghost st: State, ghost t: Tid, size: nat)
    returns (read: nat, wasFull: bool, dataLeft: bool)
    requires ring.Valid() && ring.Size == st.cap && ring.Contents() == st.ring && buff != ring.Buffer
    requires CanAct(st, t) && st.threads[t].call.Side() == Reading
    requires size == st.threads[t].call.Size() - |st.threads[t].moved| && at + size <= buff.Length
    modifies ring, buff
    ensures ring.Valid() && ring.Contents() == RingWork(st, t).ring
    ensures at + read <= buff.Length
    ensures RingWork(st, t).threads[t].moved == st.threads[t].moved + buff[at..at + read]
    ensures RingWork(st, t).threads[t].pc == AtMutexUp(wasFull && read > 0, dataLeft)
  {
    ghost var q, was := ring.Contents(), buff[..];
    wasFull := ring.IsFull();
    read := ring.Read(buff, at, size);
    dataLeft := !ring.IsEmpty();
    assert buff[at..at + read] == q[..read];
  }

  /** The same of PipeWriteInner. */
  method WriteTheRing(ring: Ring, buff: array<char>, at: nat, ghost st: State, ghost t: Tid, size: nat)
    returns (write: nat, wasEmpty: bool, spaceLeft: bool)
    requires ring.Valid() && ring.Size == st.cap && ring.Contents() == st.ring && buff != ring.Buffer
    requires CanAct(st, t) && st.threads[t].call.Side() == Writing
    requires size == st.threads[t].call.Size() - |st.threads[t].moved| && at + size <= buff.Length
    requires buff[at..at + size] == st.threads[t].call.data[|st.threads[t].moved|..]
    modifies ring, ring.Buffer
    ensures ring.Valid() && ring.Contents() == RingWork(st, t).ring
    ensures |RingWork(st, t).threads[t].moved| == |st.threads[t].moved| + write
    ensures RingWork(st, t).threads[t].pc == AtMutexUp(wasEmpty && write > 0, spaceLeft)
  {
    wasEmpty := ring.IsEmpty();
    write := ring.Write(buff, at, size);
    spaceLeft := !ring.IsFull();
  }

  /** Bytes come out in the order they went in, none lost, none invented. */
  lemma BytesInOrder(sts: seq<State>, i: nat)
    requires Run(sts) && i < |sts|
    ensures sts[i].accepted == sts[i].delivered + sts[i].ring
  {
    RunInv(sts, i);
  }

  lemma {:induction false} FlattenPrefix(rs: seq<Record>, k: nat)
    requires k < |rs|
    ensures |Flatten(rs[..k])| + |rs[k].bytes| <= |Flatten(rs)|
    ensures Flatten(rs)[|Flatten(rs[..k])|..|Flatten(rs[..k])| + |rs[k].bytes|] == rs[k].bytes
    decreases |rs|
  {
    var init := rs[..|rs| - 1];
    if k < |init| {
      FlattenPrefix(init, k);
      assert init[..k] == rs[..k];
    } else {
      assert init == rs[..k];
    }
  }

  /** A finished struct write lies in one piece in the stream, whoever else was writing. */
  lemma WritesContiguous(sts: seq<State>, i: nat, k: nat)
    requires Run(sts) && i < |sts| && k < |sts[i].writeLog| && sts[i].writeLog[k].call.WriteStruct?
    ensures var st := sts[i];
            var d := st.writeLog[k].call.data;
            var at := |Flatten(st.writeLog[..k])|;
            at + |d| <= |st.accepted| && st.accepted[at..at + |d|] == d
  {
    RunInv(sts, i);
    var st := sts[i];
    FlattenPrefix(st.writeLog, k);
    assert st.writeLog[k] in st.writeLog;
    var at, d := |Flatten(st.writeLog[..k])|, st.writeLog[k].call.data;
    assert st.accepted[at..at + |d|] == Flatten(st.writeLog)[at..at + |d|];
  }

  /** A finished struct read got as many bytes as it asked for, in one piece of the stream. */
  lemma ReadsContiguous(sts: seq<State>, i: nat, k: nat)
    requires Run(sts) && i < |sts| && k < |sts[i].readLog| && sts[i].readLog[k].call.ReadStruct?
    ensures var st := sts[i];
            var r := st.readLog[k];
            var at := |Flatten(st.readLog[..k])|;
            |r.bytes| == r.call.size && at + |r.bytes| <= |st.accepted| && st.accepted[at..at + |r.bytes|] == r.bytes
  {
    RunInv(sts, i);
    var st := sts[i];
    FlattenPrefix(st.readLog, k);
    assert st.readLog[k] in st.readLog;
    var at, r := |Flatten(st.readLog[..k])|, st.readLog[k];
    assert st.accepted[at..at + |r.bytes|] == Flatten(st.readLog)[at..at + |r.bytes|];
  }

  /** Every call in progress is blocked. */
  predicate Stuck(st: State) {
    st.threads.Keys != {} && forall t :: t in st.threads ==> Blocked(st.threads[t])
  }

  lemma NobodyInMutex(st: State)
    requires Control(st) && Stuck(st)
    ensures st.inMutex == None
  {
    assert MutexOk(st);
    assert forall t :: t in st.threads ==> ThreadOk(st, t) && !UsesMutex(st.threads[t].pc);
  }

  /** If a side has a call in progress and everything is blocked, the ring has nothing for that side. */
  lemma StuckSide(st: State, t: Tid)
    requires Inv(st) && Stuck(st) && t in st.threads
    ensures !Open(st, st.threads[t].call.Side())
  {
    var side := st.threads[t].call.Side();
    NobodyInMutex(st);
    forall u | u in st.threads
      ensures !st.threads[u].pc.WaitMutex?
    {
      assert SemOk(st, Mutex);
    }
    assert ThreadOk(st, t) && SemOk(st, LockOf(side)) && HolderOk(st, side) && HolderOk(st, Other(side));
    var h := st.Holder(side).value;
    assert ThreadOk(st, h) && SemOk(st, GateOf(side));
    assert st.threads[h].pc.WaitGate?;
    assert Held(st, side) == 0;
    assert Owed(st, Other(side)) == 0;
  }

  /** No deadlock: if nobody can go on, either all are readers of an empty ring or all writers to a full one. */
  lemma NoDeadlock(sts: seq<State>, i: nat)
    requires Run(sts) && i < |sts| && Stuck(sts[i])
    ensures var st := sts[i];
            || (st.ring == [] && forall t :: t in st.threads ==> st.threads[t].call.Side() == Reading)
            || (|st.ring| == st.cap && forall t :: t in st.threads ==> st.threads[t].call.Side() == Writing)
  {
    RunInv(sts, i);
    var st := sts[i];
    forall t | t in st.threads
      ensures !Open(st, st.threads[t].call.Side())
    {
      StuckSide(st, t);
    }
  }
}
