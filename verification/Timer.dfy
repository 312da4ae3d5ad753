/**
 The timer unit: deadlines on a clock that wraps at the word size, kept in two heaps, one for
 the current lap of the clock and one for the next.
 */
module Timer {
  import opened Common
  import opened WeightedHeap

  const LAP: nat := MAX_WEIGHT + 1   // the clock counts modulo 2^64

  type Time = Weight

  // Unwrapped time is an int that never wraps; the clock shows it modulo LAP.

  function Clock(t: nat): Time { t % LAP }

  /** When the current lap of the clock began. */
  function LapStart(t: nat): nat { t - t % LAP }

  lemma LapCases(now: nat, t: nat)
    requires now <= t < now + LAP
    ensures LapStart(t) == if Clock(t) < Clock(now) then LapStart(now) + LAP else LapStart(now)
  {}

  /**
   The unwrapped deadline a registration amounts to: the clock read `time`, the request was for
   `wait` more, and the current lap is that of `now`.
   */
  function DeadlineMeant(time: Time, wait: Time, now: nat): nat {
    var w := (time + wait) % LAP;
    LapStart(now) + w + if w >= time then 0 else LAP
  }

  /**
   It is the deadline asked for exactly if the clock was read in the lap of the last TimerInner;
   otherwise it is off by exactly the laps between the two.
   */
  lemma DeadlineExact(t: nat, wait: Time, now: nat)
    ensures DeadlineMeant(Clock(t), wait, now) == t + wait <==> LapStart(t) == LapStart(now)
    ensures DeadlineMeant(Clock(t), wait, now) - (t + wait) == LapStart(now) - LapStart(t)
  {}

  /** The clock wraps after it is read, and TimerInner sees that first: the timer is one lap late. */
  lemma StaleRegistration()
    ensures DeadlineMeant(Clock(LAP - 1), 5, LAP) == (LAP - 1) + 5 + LAP
  {}

  /** The clock wraps before it is read, and TimerInner has not seen that yet: the timer is one lap early. */
  lemma HastyRegistration()
    ensures DeadlineMeant(Clock(LAP), 5, LAP - 1) == LAP + 5 - LAP
  {}

  // ---------------------------------------------------------------- runs

  /** A registration with its unwrapped deadline, or an interrupt at an unwrapped time. */
  datatype Event<Id> = Register(id: Id, deadline: nat) | Inner(t: nat)

  /** The timers pending after a run: what TimerRegister adds and TimerInner takes away. */
  function Pending<Id>(run: seq<Event<Id>>): map<Id, nat> {
    if run == [] then map[]
    else
      var before, e := Pending(run[..|run| - 1]), run[|run| - 1];
      match e
      case Register(id, d) => before[id := d]
      case Inner(t) => map x | x in before && before[x] > t :: before[x]
  }

  lemma PendingAfter<Id>(run: seq<Event<Id>>, e: Event<Id>)
    ensures Pending(run + [e]) ==
              match e
              case Register(id, d) => Pending(run)[id := d]
              case Inner(t) => map x | x in Pending(run) && Pending(run)[x] > t :: Pending(run)[x]
  {
    assert (run + [e])[..|run|] == run;
  }

  ghost predicate FiresAt<Id>(run: seq<Event<Id>>, k: nat, id: Id)
    requires k < |run|
  {
    run[k].Inner? && id in Pending(run[..k]) && id !in Pending(run[..k + 1])
  }

  /**
   A timer registered at step j and not registered again before step k fires there exactly if k is the
   first interrupt after j at or past its deadline: never early, never twice, never skipped.
   */
  lemma FiresOnceOnTime<Id>(run: seq<Event<Id>>, j: nat, k: nat)
    requires j < k < |run| && run[j].Register?
    requires forall i :: j < i < k && run[i].Register? ==> run[i].id != run[j].id
    ensures FiresAt(run, k, run[j].id) <==>
              && run[k].Inner? && run[j].deadline <= run[k].t
              && forall i :: j < i < k && run[i].Inner? ==> run[i].t < run[j].deadline
  {
    StillPending(run, j, k);
    assert run[..k + 1][..k] == run[..k];
  }

  lemma {:induction false} StillPending<Id>(run: seq<Event<Id>>, j: nat, k: nat)
    requires j < k <= |run| && run[j].Register?
    requires forall i :: j < i < k && run[i].Register? ==> run[i].id != run[j].id
    ensures var id := run[j].id;
            && (id in Pending(run[..k]) <==> forall i :: j < i < k && run[i].Inner? ==> run[i].t < run[j].deadline)
            && (id in Pending(run[..k]) ==> Pending(run[..k])[id] == run[j].deadline)
    decreases k
  {
    assert run[..k][..k - 1] == run[..k - 1];
    if j + 1 < k {
      StillPending(run, j, k - 1);
    }
  }

  ghost predicate SortedBy(fired: seq<Node>, due: map<Node, nat>) {
    && (forall x :: x in fired ==> x in due)
    && (forall i, j :: 0 <= i < j < |fired| ==> due[fired[i]] <= due[fired[j]])
  }

  class TimerUnit {
    var Timers: Heap
    var TimersOverflow: Heap
    var TimerLastTime: Time
    ghost var now: nat              // unwrapped time of the last TimerInner
    ghost var due: map<Node, nat>   // unwrapped deadlines of the pending timers
    ghost var history: seq<Event<Node>>

    /** The two heaps hold the pending timers of the lap that began at `start` and of the next one. */
    ghost predicate HeapsOk(start: nat)
      reads `Timers, `TimersOverflow, `due, Timers, TimersOverflow, Timers.nodes, TimersOverflow.nodes
    {
      && Timers != TimersOverflow && Timers.Valid() && TimersOverflow.Valid()
      && Elems(Timers.nodes) !! Elems(TimersOverflow.nodes)
      && due.Keys == Elems(Timers.nodes) + Elems(TimersOverflow.nodes)
      && (forall x :: x in Elems(Timers.nodes) ==> due[x] == start + x.Weight)
      && (forall x :: x in Elems(TimersOverflow.nodes) ==> due[x] == start + LAP + x.Weight)
    }

    ghost predicate Valid()
      reads this, Timers, TimersOverflow, Timers.nodes, TimersOverflow.nodes
    {
      HeapsOk(LapStart(now)) && TimerLastTime == Clock(now)
    }

    /** The timers in the heaps are those the run so far has left pending. */
    ghost predicate Tracked()
      reads `due, `history
    {
      due == Pending(history)
    }

    /** TimerStartup, given the two initialised heaps. */
    constructor (time: Time, heap1: Heap, heap2: Heap)
      requires heap1 != heap2 && heap1.Valid() && heap2.Valid() && heap1.nodes == heap2.nodes == []
      ensures Valid() && Tracked() && history == [] && now == time && Timers == heap1 && TimersOverflow == heap2
    {
      Timers, TimersOverflow := heap1, heap2;
      TimerLastTime, now, due, history := time, time, map[], [];
    }

    /** Pops every timer whose weight has been reached, lightest first. */
    static method QueueTimers(time: Time, heap: Heap) returns (fired: seq<Node>)
      requires heap.Valid()
      modifies heap, Elems(heap.nodes)`Left, Elems(heap.nodes)`Right, Elems(heap.nodes)`Parent
      ensures heap.Valid()
      ensures Elems(heap.nodes) == set x | x in old(heap.nodes) && x.Weight > time
      ensures Elems(fired) == set x | x in old(heap.nodes) && x.Weight <= time
      ensures Distinct(fired) && forall i, j :: 0 <= i < j < |fired| ==> fired[i].Weight <= fired[j].Weight
    {
      fired := [];
      ghost var all := Elems(heap.nodes);
      while heap.Size > 0 && heap.Head.Weight <= time
        invariant heap.Valid()
        invariant Batch(fired, all, Elems(heap.nodes), time)
        decreases heap.Size
      {
        fired := QueueOne(heap, fired, all, time);
      }
      if heap.Size > 0 { heap.HeadIsLightest(); }
      assert forall x :: x in Elems(heap.nodes) ==> x.Weight > time;
    }

    /** One turn of the loop: the lightest timer is popped and fires. */
    static method QueueOne(heap: Heap, fired: seq<Node>, ghost all: set<Node>, ghost time: Time)
      returns (fired': seq<Node>)
      requires heap.Valid() && heap.Size > 0 && heap.Head.Weight <= time && Batch(fired, all, Elems(heap.nodes), time)
      modifies heap, Elems(heap.nodes)`Left, Elems(heap.nodes)`Right, Elems(heap.nodes)`Parent
      ensures heap.Valid() && heap.Size < old(heap.Size) && Elems(heap.nodes) <= old(Elems(heap.nodes))
      ensures Batch(fired', all, Elems(heap.nodes), time)
    {
      ghost var left := Elems(heap.nodes);
      assert heap.Head in left;
      heap.HeadIsLightest();
      BatchMore(fired, all, left, heap.Head, time);
      var timer := heap.Pop();
      fired' := fired + [timer];
    }

    /** Of the timers `all`, those not `left` have fired, lightest first, and none of `left` is lighter. */
    static ghost predicate Batch(fired: seq<Node>, all: set<Node>, left: set<Node>, time: Time)
      reads all`Weight
    {
      && left <= all && Elems(fired) == all - left && Distinct(fired)
      && (forall x :: x in all && x !in left ==> x.Weight <= time)
      && (forall i, j :: 0 <= i < j < |fired| ==>
            fired[i] in all && fired[j] in all && fired[i].Weight <= fired[j].Weight)
      && (forall i, y :: 0 <= i < |fired| && y in left ==> fired[i] in all && fired[i].Weight <= y.Weight)
    }

    static lemma BatchMore(fired: seq<Node>, all: set<Node>, left: set<Node>, x: Node, time: Time)
      requires Batch(fired, all, left, time) && x in left && x.Weight <= time
      requires forall y :: y in left ==> x.Weight <= y.Weight
      ensures Batch(fired + [x], all, left - {x}, time)
    {
      ElemsAppend(fired, x);
      assert forall i :: 0 <= i < |fired| ==> fired[i] in Elems(fired);
    }

    /** Fires the timers of the current lap up to `time`. */
    method FireCurrent(time: Time, ghost start: nat) returns (fired: seq<Node>)
      requires HeapsOk(start)
      modifies `due, Timers, Elems(Timers.nodes)`Left, Elems(Timers.nodes)`Right, Elems(Timers.nodes)`Parent
      ensures HeapsOk(start) && due == old(due) - Elems(fired)
      ensures Distinct(fired) && Elems(fired) == set x | x in old(due) && old(due)[x] <= start + time
      ensures SortedBy(fired, old(due))
      ensures forall x :: x in Elems(Timers.nodes) ==> x.Weight > time
    {
      ghost var here, later := Elems(Timers.nodes), Elems(TimersOverflow.nodes);
      fired := QueueTimers(time, Timers);
      FiredNow(fired, here, later, due, time, start);
      due := due - Elems(fired);
    }

    /** The lap has ended: what is left of it fires, and the other heap becomes the current one. */
    method TurnLap(ghost start: nat) returns (fired: seq<Node>)
      requires HeapsOk(start)
      modifies `due, `Timers, `TimersOverflow
      modifies Timers, Elems(Timers.nodes)`Left, Elems(Timers.nodes)`Right, Elems(Timers.nodes)`Parent
      ensures HeapsOk(start + LAP) && due == old(due) - Elems(fired)
      ensures Timers == old(TimersOverflow) && TimersOverflow == old(Timers)
      ensures Timers.nodes == old(TimersOverflow.nodes)
      ensures Distinct(fired) && Elems(fired) == set x | x in old(due) && old(due)[x] < start + LAP
      ensures SortedBy(fired, old(due))
    {
      fired := FireCurrent(MAX_WEIGHT, start);
      assert Elems(Timers.nodes) == {};
      Timers, TimersOverflow := TimersOverflow, Timers;
    }

    /** The clock shows less than last time exactly if it has wrapped. */
    method CatchUp(time: Time, ghost t: nat) returns (fired: seq<Node>)
      requires Valid() && now <= t < now + LAP && time == Clock(t)
      modifies `due, `Timers, `TimersOverflow
      modifies Timers, Elems(Timers.nodes)`Left, Elems(Timers.nodes)`Right, Elems(Timers.nodes)`Parent
      ensures HeapsOk(LapStart(t)) && due == old(due) - Elems(fired)
      ensures {Timers, TimersOverflow} == old({Timers, TimersOverflow})
      ensures Elems(Timers.nodes) <= old(Elems(Timers.nodes) + Elems(TimersOverflow.nodes))
      ensures Distinct(fired) && SortedBy(fired, old(due))
      ensures Elems(fired) == set x | x in old(due) && old(due)[x] < LapStart(t)
    {
      LapCases(now, t);
      fired := [];
      if time < TimerLastTime {
        fired := TurnLap(LapStart(now));
      }
    }

    /** Takes every timer that is due at `t` off the heaps, earliest deadline first. */
    method FireDue(time: Time, ghost t: nat) returns (fired: seq<Node>)
      requires Valid() && now <= t < now + LAP && time == Clock(t)
      modifies `due, `Timers, `TimersOverflow, Timers, TimersOverflow
      modifies Elems(Timers.nodes)`Left, Elems(Timers.nodes)`Right, Elems(Timers.nodes)`Parent
      modifies Elems(TimersOverflow.nodes)`Left, Elems(TimersOverflow.nodes)`Right, Elems(TimersOverflow.nodes)`Parent
      ensures HeapsOk(LapStart(t)) && due == old(due) - Elems(fired)
      ensures Distinct(fired) && Elems(fired) == set x | x in old(due) && old(due)[x] <= t
      ensures SortedBy(fired, old(due))
      ensures forall x :: x in Elems(Timers.nodes) ==> x.Weight > time
    {
      fired := CatchUp(time, t);
      ghost var rest := due;
      var more := FireCurrent(time, LapStart(t));
      FiredTogether(old(due), rest, fired, more, t);
      fired := fired + more;
    }

    /** Takes the expired timers off the heaps; `armed` is the countdown set for the next interrupt. */
    method TimerInner(time: Time, ghost t: nat) returns (fired: seq<Node>, armed: Time)
      requires Valid() && Tracked() && now <= t < now + LAP && time == Clock(t)
      modifies this, Timers, TimersOverflow
      modifies Elems(Timers.nodes)`Left, Elems(Timers.nodes)`Right, Elems(Timers.nodes)`Parent
      modifies Elems(TimersOverflow.nodes)`Left, Elems(TimersOverflow.nodes)`Right
      modifies Elems(TimersOverflow.nodes)`Parent
      ensures Valid() && now == t
      ensures Tracked() && history == old(history) + [Inner(t)]
      ensures Distinct(fired) && Elems(fired) == set x | x in old(due) && old(due)[x] <= t
      ensures due == old(due) - Elems(fired)
      ensures SortedBy(fired, old(due))
      ensures forall x :: x in due ==> t + armed <= due[x]
      ensures Armed(LapStart(t), time, armed)
    {
      fired, armed := Expire(time, t);
      RecordInner(t, old(due), Elems(fired));
    }

    method Expire(time: Time, ghost t: nat) returns (fired: seq<Node>, armed: Time)
      requires Valid() && now <= t < now + LAP && time == Clock(t)
      modifies `due, `Timers, `TimersOverflow, `TimerLastTime, `now, Timers, TimersOverflow
      modifies Elems(Timers.nodes)`Left, Elems(Timers.nodes)`Right, Elems(Timers.nodes)`Parent
      modifies Elems(TimersOverflow.nodes)`Left, Elems(TimersOverflow.nodes)`Right
      modifies Elems(TimersOverflow.nodes)`Parent
      ensures Valid() && now == t
      ensures Distinct(fired) && Elems(fired) == set x | x in old(due) && old(due)[x] <= t
      ensures due == old(due) - Elems(fired)
      ensures SortedBy(fired, old(due))
      ensures forall x :: x in due ==> t + armed <= due[x]
      ensures Armed(LapStart(t), time, armed)
    {
      fired := FireDue(time, t);
      armed := Arm(time, LapStart(t));
      NoteTime(time, t);
    }

    /** Adds a timer `wait` from the time `t` at which the clock was read. */
    method TimerRegister(newTimer: Node, time: Time, wait: Time, ghost t: nat)
      requires Valid() && Tracked() && newTimer !in due && time == Clock(t)
      modifies `due, `history, Timers, TimersOverflow, newTimer
      modifies Elems(Timers.nodes)`Left, Elems(Timers.nodes)`Right, Elems(Timers.nodes)`Parent
      modifies Elems(TimersOverflow.nodes)`Left, Elems(TimersOverflow.nodes)`Right, Elems(TimersOverflow.nodes)`Parent
      ensures Valid() && due == old(due)[newTimer := DeadlineMeant(time, wait, now)]
      ensures Tracked() && history == old(history) + [Register(newTimer, DeadlineMeant(time, wait, now))]
      ensures due[newTimer] == t + wait <==> LapStart(t) == LapStart(now)
    {
      RegisterAt(newTimer, time, wait);
      DeadlineExact(t, wait, now);
    }

    method RegisterAt(newTimer: Node, time: Time, wait: Time)
      requires Valid() && Tracked() && newTimer !in due
      modifies `due, `history, Timers, TimersOverflow, newTimer
      modifies Elems(Timers.nodes)`Left, Elems(Timers.nodes)`Right, Elems(Timers.nodes)`Parent
      modifies Elems(TimersOverflow.nodes)`Left, Elems(TimersOverflow.nodes)`Right
      modifies Elems(TimersOverflow.nodes)`Parent
      ensures Valid() && due == old(due)[newTimer := DeadlineMeant(time, wait, now)]
      ensures Tracked() && history == old(history) + [Register(newTimer, DeadlineMeant(time, wait, now))]
    {
      var timerTime: Time := (time + wait) % LAP;
      Enter(newTimer, timerTime, time, LapStart(now));
      RecordRegister(newTimer, DeadlineMeant(time, wait, now), old(due));
    }

    /** Adds a timer to the heap of the lap its time falls in. */
    method Enter(newTimer: Node, timerTime: Time, time: Time, ghost start: nat)
      requires HeapsOk(start) && newTimer !in due
      modifies `due, Timers, TimersOverflow, newTimer
      modifies Elems(Timers.nodes)`Left, Elems(Timers.nodes)`Right, Elems(Timers.nodes)`Parent
      modifies Elems(TimersOverflow.nodes)`Left, Elems(TimersOverflow.nodes)`Right
      modifies Elems(TimersOverflow.nodes)`Parent
      ensures HeapsOk(start)
      ensures due == old(due)[newTimer := start + timerTime + if timerTime >= time then 0 else LAP]
    {
      if timerTime >= time {
        AddNow(timerTime, newTimer, start);
      } else {
        AddNext(timerTime, newTimer, start);
      }
    }

    ghost method RecordRegister(id: Node, deadline: nat, was: map<Node, nat>)
      requires was == Pending(history) && due == was[id := deadline]
      modifies `history
      ensures Tracked() && history == old(history) + [Register(id, deadline)]
    {
      PendingAfter(history, Register(id, deadline));
      history := history + [Register(id, deadline)];
    }

    ghost method RecordInner(t: nat, was: map<Node, nat>, gone: set<Node>)
      requires was == Pending(history) && due == was - gone && gone == set x | x in was && was[x] <= t
      modifies `history
      ensures Tracked() && history == old(history) + [Inner(t)]
    {
      PendingAfter(history, Inner(t));
      history := history + [Inner(t)];
    }

    method AddNow(weight: Time, node: Node, ghost start: nat)
      requires HeapsOk(start) && node !in due
      modifies `due, Timers, Elems(Timers.nodes)`Left, Elems(Timers.nodes)`Right, Elems(Timers.nodes)`Parent, node
      ensures HeapsOk(start) && due == old(due)[node := start + weight]
    {
      AddTo(weight, node, Timers, TimersOverflow);
      due := due[node := start + weight];
    }

    method AddNext(weight: Time, node: Node, ghost start: nat)
      requires HeapsOk(start) && node !in due
      modifies `due, TimersOverflow, node
      modifies Elems(TimersOverflow.nodes)`Left, Elems(TimersOverflow.nodes)`Right, Elems(TimersOverflow.nodes)`Parent
      ensures HeapsOk(start) && due == old(due)[node := start + LAP + weight]
    {
      AddTo(weight, node, TimersOverflow, Timers);
      due := due[node := start + LAP + weight];
    }

    static method AddTo(weight: Time, node: Node, heap: Heap, ghost other: Heap)
      requires heap != other && heap.Valid() && other.Valid() && Elems(heap.nodes) !! Elems(other.nodes)
      requires node !in Elems(heap.nodes) && node !in Elems(other.nodes)
      modifies heap, Elems(heap.nodes)`Left, Elems(heap.nodes)`Right, Elems(heap.nodes)`Parent, node
      ensures heap.Valid() && other.Valid() && other.nodes == old(other.nodes)
      ensures Elems(heap.nodes) == old(Elems(heap.nodes)) + {node} && node.Weight == weight
    {
      heap.Add(weight, node);
    }

    /**
     The countdown from `time` in the lap that began at `start` ends at the earliest deadline of that lap
     if there is one; otherwise where the clock shows zero.
     */
    ghost predicate Armed(start: nat, time: Time, armed: Time)
      reads `due
    {
      if exists x :: x in due && due[x] < start + LAP
      then
        && (exists x :: x in due && due[x] == start + time + armed)
        && (forall x :: x in due ==> start + time + armed <= due[x])
      else (time + armed) % LAP == 0
    }

    /** Sets the countdown, so that no pending deadline comes before the next interrupt. */
    method Arm(time: Time, ghost start: nat) returns (armed: Time)
      requires HeapsOk(start) && forall x :: x in Elems(Timers.nodes) ==> x.Weight > time
      ensures forall x :: x in due ==> start + time + armed <= due[x]
      ensures Armed(start, time, armed)
    {
      armed := TimerSetNextTimer(time);
      forall x | x in due
        ensures start + time + armed <= due[x]
      {
        if x in Elems(Timers.nodes) { assert time + armed <= x.Weight; }
      }
      if Timers.Size > 0 {
        var x := Timers.nodes[0];
        assert x in Elems(Timers.nodes) && due[x] == start + time + armed && due[x] < start + LAP;
      }
    }

    method NoteTime(time: Time, ghost t: nat)
      requires HeapsOk(LapStart(t)) && time == Clock(t)
      modifies `TimerLastTime, `now
      ensures Valid() && now == t
    {
      TimerLastTime, now := time, t;
    }

    /** Counts down to the head of the heap, modulo the word size, or to the end of the lap if there is none. */
    method TimerSetNextTimer(time: Time) returns (delta: Time)
      requires Timers.Valid()
      ensures Timers.nodes != [] ==> (time + delta) % LAP == Timers.nodes[0].Weight
      ensures Timers.nodes == [] ==> (time + delta) % LAP == 0
      ensures (forall x :: x in Elems(Timers.nodes) ==> x.Weight > time) ==>
                && (Timers.nodes != [] ==> 0 < delta <= MAX_WEIGHT - time)
                && (forall x :: x in Elems(Timers.nodes) ==> time + delta <= x.Weight)
      ensures delta == 0 ==> time == if Timers.nodes == [] then 0 else Timers.nodes[0].Weight
    {
      if Timers.Size > 0 {
        Timers.HeadIsLightest();
        assert Timers.Head in Elems(Timers.nodes);
        var nextTimer := Timers.Head.Weight;
        delta := if nextTimer >= time then nextTimer - time else nextTimer + LAP - time;
      } else {
        var rollover := MAX_WEIGHT - time;
        delta := if rollover == MAX_WEIGHT then 0 else rollover + 1;
      }
    }
  }

  /** The timers of the current lap up to `time`, as their deadlines tell them apart. */
  lemma FiredNow(fired: seq<Node>, here: set<Node>, later: set<Node>, due: map<Node, nat>, time: Time, start: nat)
    requires due.Keys == here + later
    requires forall x :: x in here ==> due[x] == start + x.Weight
    requires forall x :: x in later ==> due[x] >= start + LAP
    requires Elems(fired) == set x | x in here && x.Weight <= time
    requires forall i, j :: 0 <= i < j < |fired| ==> fired[i].Weight <= fired[j].Weight
    ensures Elems(fired) == set x | x in due && due[x] <= start + time
    ensures SortedBy(fired, due)
  {
    assert forall i :: 0 <= i < |fired| ==> fired[i] in Elems(fired);
  }

  /** Two batches of timers fired one after the other. */
  lemma FiredTogether(due: map<Node, nat>, rest: map<Node, nat>, first: seq<Node>, more: seq<Node>, t: nat)
    requires rest == due - Elems(first)
    requires Distinct(first) && SortedBy(first, due) && Distinct(more) && SortedBy(more, rest)
    requires Elems(more) == set x | x in rest && rest[x] <= t
    requires forall x :: x in Elems(first) ==> x in due && due[x] <= t
    requires forall x, y :: x in Elems(first) && y in rest ==> due[x] <= rest[y]
    ensures Elems(first + more) == set x | x in due && due[x] <= t
    ensures Distinct(first + more) && SortedBy(first + more, due)
    ensures rest - Elems(more) == due - Elems(first + more)
  {
    ElemsConcat(first, more);
    assert forall i :: 0 <= i < |first| ==> first[i] in Elems(first);
    assert forall i :: 0 <= i < |more| ==> more[i] in Elems(more) && more[i] in rest;
  }

  lemma ElemsConcat(a: seq<Node>, b: seq<Node>)
    ensures Elems(a + b) == Elems(a) + Elems(b)
  {
    forall x | x in Elems(a) + Elems(b)
      ensures x in a + b
    {}
  }

  lemma ElemsAppend(ns: seq<Node>, x: Node)
    ensures Elems(ns + [x]) == Elems(ns) + {x}
  {}
}
