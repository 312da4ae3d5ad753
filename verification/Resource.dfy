/**
 The reader/writer lock: shared or exclusive, handed over in the order of arrival.
 */
module Resource {
  import opened Common

  datatype Mode = SHARED | EXCLUSIVE

  datatype Request = Request(thread: Tid, mode: Mode)

  /** How many waiters a free lock goes to: one exclusive, or all the shared ones at the front. */
  function WakeCount(waiting: seq<Request>): nat {
    if waiting != [] && waiting[0].mode == EXCLUSIVE then 1 else SharedFrom(waiting, 0)
  }

  /** The end of the run of shared requests that starts at k. */
  function SharedFrom(waiting: seq<Request>, k: nat): (n: nat)
    requires k <= |waiting|
    ensures k <= n <= |waiting|
    ensures forall i :: k <= i < n ==> waiting[i].mode == SHARED
    ensures n < |waiting| ==> waiting[n].mode != SHARED
    decreases |waiting| - k
  {
    if k == |waiting| || waiting[k].mode != SHARED then k else SharedFrom(waiting, k + 1)
  }

  ghost function Threads(rs: seq<Request>): multiset<Tid> {
    if rs == [] then multiset{} else Threads(rs[..|rs| - 1]) + multiset{rs[|rs| - 1].thread}
  }

  // ---------------------------------------------------------------- the lock as a value

  /**
   `sharers` and `owner` say who holds the lock, `arrivals` and `grants` who asked for it and who
   got it, in order; the code has only the first three fields.
   */
  datatype Lock = Lock(state: Mode, numShared: nat, waiting: seq<Request>,
                       sharers: multiset<Tid>, owner: Option<Tid>,
                       arrivals: seq<Request>, grants: seq<Request>)

  datatype Op = LockShared(t: Tid) | LockExclusive(t: Tid) | UnlockShared(t: Tid) | UnlockExclusive(t: Tid)

  /** One owner, or exactly numShared sharers. */
  ghost predicate Held(l: Lock)
  {
    match l.state
    case EXCLUSIVE => l.owner.Some? && l.numShared == 0 && l.sharers == multiset{}
    case SHARED => l.owner == None && |l.sharers| == l.numShared
  }

  ghost predicate Inv(l: Lock)
  {
    && Held(l)
    && (l.waiting != [] ==> l.state == EXCLUSIVE || l.numShared > 0)
    && (l.waiting != [] && l.state == SHARED ==> l.waiting[0].mode == EXCLUSIVE)
    && l.arrivals == l.grants + l.waiting
  }

  /** Only holders unlock. */
  ghost predicate Enabled(l: Lock, op: Op)
  {
    match op
    case LockShared(_) => true
    case LockExclusive(_) => true
    case UnlockShared(t) => t in l.sharers
    case UnlockExclusive(t) => l.owner == Some(t)
  }

  /** A free lock goes to the first waiters. */
  ghost function HandedOver(l: Lock): Lock
    requires l.waiting != []
  {
    var n := WakeCount(l.waiting);
    var woken := l.waiting[..n];
    var rest := l.(waiting := l.waiting[n..], grants := l.grants + woken);
    if l.waiting[0].mode == EXCLUSIVE
    then rest.(state := EXCLUSIVE, numShared := 0, owner := Some(l.waiting[0].thread), sharers := multiset{})
    else rest.(state := SHARED, numShared := n, owner := None, sharers := Threads(woken))
  }

  // The loop that hands a free lock over, one waiter at a time.

  ghost predicate IsFree(l: Lock) { l.numShared == 0 && l.sharers == multiset{} && l.owner == None }

  ghost predicate AllShared(waiting: seq<Request>, k: nat)
    requires k <= |waiting|
  {
    forall i :: 0 <= i < k ==> waiting[i].mode == SHARED
  }

  /** The first k waiters of a free lock have been woken. */
  ghost function PartlyWoken(l: Lock, k: nat): Lock
    requires k <= |l.waiting|
  {
    l.(state := if k == 0 then l.state else SHARED, numShared := k, waiting := l.waiting[k..],
       sharers := Threads(l.waiting[..k]), grants := l.grants + l.waiting[..k])
  }

  ghost function GrantedShared(l: Lock): Lock
    requires l.waiting != []
  {
    l.(state := SHARED, numShared := l.numShared + 1, waiting := l.waiting[1..],
       sharers := l.sharers + multiset{l.waiting[0].thread}, grants := l.grants + [l.waiting[0]])
  }

  ghost function GrantedExclusive(l: Lock): Lock
    requires l.waiting != []
  {
    l.(state := EXCLUSIVE, waiting := l.waiting[1..], owner := Some(l.waiting[0].thread),
       grants := l.grants + [l.waiting[0]])
  }

  lemma WakeNone(l: Lock)
    requires IsFree(l)
    ensures PartlyWoken(l, 0) == l
  {}

  lemma WakeOne(l: Lock, k: nat)
    requires k < |l.waiting|
    ensures GrantedShared(PartlyWoken(l, k)) == PartlyWoken(l, k + 1)
  {
    assert l.waiting[..k + 1] == l.waiting[..k] + [l.waiting[k]];
    assert l.waiting[k..][1..] == l.waiting[k + 1..];
  }

  lemma {:induction false} SharedFromEnds(waiting: seq<Request>, i: nat, k: nat)
    requires i <= k <= |waiting| && AllShared(waiting, k) && (k < |waiting| ==> waiting[k].mode != SHARED)
    ensures SharedFrom(waiting, i) == k
    decreases k - i
  {
    if i < k { SharedFromEnds(waiting, i + 1, k); }
  }

  lemma WakeEnd(l: Lock, k: nat)
    requires IsFree(l) && 0 < k <= |l.waiting| && AllShared(l.waiting, k)
    requires k < |l.waiting| ==> l.waiting[k].mode != SHARED
    ensures WakeCount(l.waiting) == k && PartlyWoken(l, k) == HandedOver(l)
  {
    SharedFromEnds(l.waiting, 0, k);
  }

  lemma WakeExclusive(l: Lock)
    requires IsFree(l) && l.waiting != [] && l.waiting[0].mode != SHARED
    ensures WakeCount(l.waiting) == 1 && GrantedExclusive(l) == HandedOver(l) && l.waiting[..1] == [l.waiting[0]]
  {}

  ghost function Arrived(l: Lock, r: Request): Lock { l.(arrivals := l.arrivals + [r]) }
  ghost function Queued(l: Lock, r: Request): Lock { l.(waiting := l.waiting + [r]) }

  ghost function Next(l: Lock, op: Op): Lock
    requires Enabled(l, op)
  {
    match op
    case LockShared(t) =>
      var r := Request(t, SHARED);
      if l.waiting == [] && l.state == SHARED
      then Arrived(l, r).(numShared := l.numShared + 1, sharers := l.sharers + multiset{t}, grants := l.grants + [r])
      else Queued(Arrived(l, r), r)
    case LockExclusive(t) =>
      var r := Request(t, EXCLUSIVE);
      if l.waiting == [] && l.state == SHARED && l.numShared == 0
      then Arrived(l, r).(state := EXCLUSIVE, owner := Some(t), grants := l.grants + [r])
      else Queued(Arrived(l, r), r)
    case UnlockShared(t) =>
      var rest := l.(numShared := |l.sharers| - 1, sharers := l.sharers - multiset{t});
      if |l.sharers| == 1 && l.waiting != [] then HandedOver(rest) else rest
    case UnlockExclusive(_) =>
      if l.waiting == [] then l.(state := SHARED, owner := None) else HandedOver(l)
  }

  lemma {:induction false} ThreadsSize(rs: seq<Request>)
    ensures |Threads(rs)| == |rs|
  {
    if rs != [] { ThreadsSize(rs[..|rs| - 1]); }
  }

  /** A free lock with waiters is held after the hand-over, and whoever waits still has to. */
  lemma HandedOverInv(l: Lock)
    requires l.waiting != [] && l.arrivals == l.grants + l.waiting
    ensures Inv(HandedOver(l)) && |HandedOver(l).grants| > |l.grants|
  {
    var n := WakeCount(l.waiting);
    ThreadsSize(l.waiting[..n]);
    assert l.waiting == l.waiting[..n] + l.waiting[n..];
  }

  lemma SharerLeaves(sharers: multiset<Tid>, t: Tid)
    requires t in sharers
    ensures |sharers - multiset{t}| == |sharers| - 1
  {}

  /** Requests and grants are only ever added. */
  ghost predicate Extends(l: Lock, n: Lock) { l.arrivals <= n.arrivals && l.grants <= n.grants }

  lemma ArrivalInv(l: Lock, op: Op)
    requires Inv(l) && (op.LockShared? || op.LockExclusive?)
    ensures Inv(Next(l, op)) && Extends(l, Next(l, op))
  {}

  lemma UnlockSharedInv(l: Lock, t: Tid)
    requires Inv(l) && t in l.sharers
    ensures Inv(Next(l, UnlockShared(t))) && Extends(l, Next(l, UnlockShared(t)))
  {
    SharerLeaves(l.sharers, t);
    if |l.sharers| == 1 && l.waiting != [] {
      HandedOverInv(l.(numShared := |l.sharers| - 1, sharers := l.sharers - multiset{t}));
    }
  }

  lemma StepInv(l: Lock, op: Op)
    requires Inv(l) && Enabled(l, op)
    ensures Inv(Next(l, op)) && Extends(l, Next(l, op))
  {
    match op
    case LockShared(_) => ArrivalInv(l, op);
    case LockExclusive(_) => ArrivalInv(l, op);
    case UnlockShared(t) => UnlockSharedInv(l, t);
    case UnlockExclusive(_) => if l.waiting != [] { HandedOverInv(l); }
  }

  // ---------------------------------------------------------------- runs

  ghost predicate Run(l: Lock, ops: seq<Op>)
    decreases |ops|
  {
    ops == [] || (Enabled(l, ops[0]) && Run(Next(l, ops[0]), ops[1..]))
  }

  ghost function After(l: Lock, ops: seq<Op>): Lock
    requires Run(l, ops)
    decreases |ops|
  {
    if ops == [] then l else After(Next(l, ops[0]), ops[1..])
  }

  /**
   Over every run in which only holders unlock: the lock has one owner or exactly numShared sharers,
   somebody waits only while it is held, and in shared mode the first waiter is exclusive.
   */
  lemma {:induction false} RunInv(l: Lock, ops: seq<Op>)
    requires Inv(l) && Run(l, ops)
    ensures Inv(After(l, ops)) && Extends(l, After(l, ops))
    decreases |ops|
  {
    if ops != [] {
      StepInv(l, ops[0]);
      RunInv(Next(l, ops[0]), ops[1..]);
    }
  }

  /**
   No overtaking over any run: once n requests have been granted, the one that stood at position k
   of the wait list is k - n places from the front, or is among those granted, as number k of them.
   */
  lemma GrantedInTurn(l: Lock, ops: seq<Op>, k: nat)
    requires Inv(l) && Run(l, ops) && k < |l.waiting|
    ensures var e := After(l, ops);
            var n := |e.grants| - |l.grants|;
            && n >= 0
            && (n <= k ==> k - n < |e.waiting| && e.waiting[k - n] == l.waiting[k])
            && (n > k ==> e.grants[|l.grants| + k] == l.waiting[k])
  {
    RunInv(l, ops);
    var e, at := After(l, ops), |l.grants| + k;
    assert l.waiting[k] == l.arrivals[at] == e.arrivals[at];
    assert e.arrivals[at] == if at < |e.grants| then e.grants[at] else e.waiting[at - |e.grants|];
  }

  /** The request is in force: its thread owns the lock, or is one of its sharers. */
  ghost predicate Holds(l: Lock, r: Request)
  {
    match r.mode
    case EXCLUSIVE => l.owner == Some(r.thread)
    case SHARED => r.thread in l.sharers
  }

  lemma {:induction false} ThreadsIn(rs: seq<Request>, i: nat)
    requires i < |rs|
    ensures rs[i].thread in Threads(rs)
    decreases |rs|
  {
    if i < |rs| - 1 { ThreadsIn(rs[..|rs| - 1], i); }
  }

  /**
   The release that leaves the lock without a holder grants it to the first n waiters and no others: a
   single exclusive one, or all the shared ones in front of the first exclusive one. They then hold it.
   */
  lemma LastReleaseGrants(l: Lock, op: Op, n: nat)
    requires Inv(l) && Enabled(l, op) && l.waiting != []
    requires op.UnlockExclusive? || (op.UnlockShared? && |l.sharers| == 1)
    requires 1 <= n <= |l.waiting|
    requires if l.waiting[0].mode == EXCLUSIVE then n == 1
             else AllShared(l.waiting, n) && (n < |l.waiting| ==> l.waiting[n].mode == EXCLUSIVE)
    ensures var e := Next(l, op);
            && e.grants == l.grants + l.waiting[..n] && e.waiting == l.waiting[n..]
            && (forall i :: 0 <= i < n ==> Holds(e, l.waiting[i]))
            && (l.waiting[0].mode == EXCLUSIVE ==> e.sharers == multiset{})
            && (l.waiting[0].mode == SHARED ==> e.owner == None && |e.sharers| == n)
  {
    if l.waiting[0].mode == SHARED { SharedFromEnds(l.waiting, 0, n); }
    var woken := l.waiting[..n];
    ThreadsSize(woken);
    forall i | 0 <= i < n ensures Holds(Next(l, op), l.waiting[i]) { ThreadsIn(woken, i); }
  }

  /** A release that leaves other sharers wakes nobody, and takes one share from the thread. */
  lemma OtherReleases(l: Lock, t: Tid)
    requires Inv(l) && t in l.sharers && |l.sharers| > 1
    ensures var e := Next(l, UnlockShared(t));
            e.sharers == l.sharers - multiset{t} && e.waiting == l.waiting && e.grants == l.grants && e.owner == None
  {}

  /** A request is in force at once exactly if nobody stands in its way; otherwise it is the last to wait. */
  lemma ArrivalGranted(l: Lock, op: Op)
    requires Inv(l) && (op.LockShared? || op.LockExclusive?)
    ensures var e, r := Next(l, op), Request(op.t, if op.LockShared? then SHARED else EXCLUSIVE);
            if l.owner == None && l.waiting == [] && (op.LockExclusive? ==> l.sharers == multiset{})
            then Holds(e, r) && e.grants == l.grants + [r] && e.waiting == []
            else e.waiting == l.waiting + [r] && e.grants == l.grants && e.sharers == l.sharers && e.owner == l.owner
  {}

  class ResourceLock {
    var State: Mode
    var NumShared: nat
    var WaitingThreads: seq<Request>

    // Bookkeeping the code does not have: who holds the lock, and who asked for it and got it when.
    ghost var sharers: multiset<Tid>
    ghost var owner: Option<Tid>
    ghost var arrivals: seq<Request>
    ghost var grants: seq<Request>

    ghost function View(): Lock
      reads this
    {
      Lock(State, NumShared, WaitingThreads, sharers, owner, arrivals, grants)
    }

    ghost predicate Valid()
      reads this
    {
      Inv(View())
    }

    /** The lock of a new thread's result starts out held by that thread, any other lock free. */
    constructor (state: Mode, creator: Tid)
      ensures Valid() && State == state && WaitingThreads == [] && arrivals == []
      ensures owner == if state == EXCLUSIVE then Some(creator) else None
    {
      State, NumShared, WaitingThreads := state, 0, [];
      sharers, owner := multiset{}, if state == EXCLUSIVE then Some(creator) else None;
      arrivals, grants := [], [];
    }

    /** `acquired` is false if the thread was blocked. */
    method LockShared(t: Tid) returns (acquired: bool)
      requires Valid()
      modifies this
      ensures Valid() && View() == Next(old(View()), Op.LockShared(t))
      ensures acquired <==> old(WaitingThreads) == [] && old(State) == SHARED
      ensures acquired ==> sharers == old(sharers) + multiset{t} && grants == arrivals
      ensures !acquired ==> sharers == old(sharers) && owner == old(owner) && grants == old(grants)
    {
      StepInv(View(), Op.LockShared(t));
      var r := Request(t, SHARED);
      arrivals := arrivals + [r];
      if WaitingThreads != [] {
        WaitingThreads := WaitingThreads + [r];
        acquired := false;
      } else if State == SHARED {
        NumShared := NumShared + 1;
        sharers, grants := sharers + multiset{t}, grants + [r];
        acquired := true;
      } else {
        WaitingThreads := WaitingThreads + [r];
        acquired := false;
      }
    }

    method LockExclusive(t: Tid) returns (acquired: bool)
      requires Valid()
      modifies this
      ensures Valid() && View() == Next(old(View()), Op.LockExclusive(t))
      ensures acquired <==> old(owner) == None && old(sharers) == multiset{}
      ensures acquired ==> owner == Some(t) && grants == arrivals
      ensures !acquired ==> sharers == old(sharers) && owner == old(owner) && grants == old(grants)
    {
      StepInv(View(), Op.LockExclusive(t));
      var r := Request(t, EXCLUSIVE);
      arrivals := arrivals + [r];
      if WaitingThreads != [] {
        WaitingThreads := WaitingThreads + [r];
        acquired := false;
      } else if State == SHARED {
        if NumShared == 0 {
          State := EXCLUSIVE;
          owner, grants := Some(t), grants + [r];
          acquired := true;
        } else {
          WaitingThreads := WaitingThreads + [r];
          acquired := false;
        }
      } else {
        WaitingThreads := WaitingThreads + [r];
        acquired := false;
      }
    }

    method GrantShared()
      requires WaitingThreads != []
      modifies this
      ensures View() == GrantedShared(old(View()))
    {
      var cur := WaitingThreads[0];
      NumShared := NumShared + 1;
      State := SHARED;
      WaitingThreads := WaitingThreads[1..];
      sharers, grants := sharers + multiset{cur.thread}, grants + [cur];
    }

    method GrantExclusive()
      requires WaitingThreads != []
      modifies this
      ensures View() == GrantedExclusive(old(View()))
    {
      var cur := WaitingThreads[0];
      WaitingThreads := WaitingThreads[1..];
      State := EXCLUSIVE;
      owner, grants := Some(cur.thread), grants + [cur];
    }

    /** Hands a free lock to the first waiters. */
    method WakeThreads() returns (woken: seq<Request>)
      requires IsFree(View()) && WaitingThreads != []
      modifies this
      ensures View() == HandedOver(old(View()))
      ensures woken == old(WaitingThreads)[..WakeCount(old(WaitingThreads))]
    {
      woken := [];
      ghost var l, k := View(), 0;
      WakeNone(l);
      while true
        invariant k < |l.waiting| && View() == PartlyWoken(l, k) && AllShared(l.waiting, k)
        invariant woken == l.waiting[..k]
        decreases |l.waiting| - k
      {
        var cur := WaitingThreads[0];
        assert cur == l.waiting[k];
        if cur.mode == SHARED {
          WakeOne(l, k);
          GrantShared();
          woken := woken + [cur];
          k := k + 1;
        } else {
          if NumShared == 0 {
            WakeExclusive(l);
            GrantExclusive();
            woken := woken + [cur];
          } else {
            WakeEnd(l, k);
          }
          return;
        }
        if WaitingThreads == [] {
          WakeEnd(l, k);
          return;
        }
      }
    }

    /** The holder's side of the bargain: only a thread that shares the lock gives up its share. */
    method UnlockShared(t: Tid) returns (woken: seq<Request>)
      requires Valid() && t in sharers
      modifies this
      ensures Valid() && View() == Next(old(View()), Op.UnlockShared(t))
      ensures woken == if |old(sharers)| == 1 then old(WaitingThreads)[..WakeCount(old(WaitingThreads))] else []
    {
      StepInv(View(), Op.UnlockShared(t));
      SharerLeaves(sharers, t);
      woken := [];
      NumShared := NumShared - 1;
      sharers := sharers - multiset{t};
      if NumShared == 0 && WaitingThreads != [] {
        woken := WakeThreads();
      }
    }

    method UnlockExclusive(t: Tid) returns (woken: seq<Request>)
      requires Valid() && owner == Some(t)
      modifies this
      ensures Valid() && View() == Next(old(View()), Op.UnlockExclusive(t))
      ensures woken == old(WaitingThreads)[..WakeCount(old(WaitingThreads))]
    {
      StepInv(View(), Op.UnlockExclusive(t));
      woken := [];
      owner := None;
      if WaitingThreads == [] {
        State := SHARED;
      } else {
        woken := WakeThreads();
      }
    }
  }
}
