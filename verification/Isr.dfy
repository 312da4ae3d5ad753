/**
 Counted interrupt levels: nested disables of several levels over one hardware level.
 */
module Isr {

  const LEVEL_NONE := 0
  const LEVEL_COUNT := 8   // NONE, CRIT, SOFT, SERIAL_WRITE, SERIAL_READ, TIMER, WATCHDOG, RESET

  type Level = l: nat | 1 <= l < LEVEL_COUNT witness 1

  /** The highest level up to `l` with a positive count, or NONE. */
  function Top(counts: seq<nat>, l: nat): nat
    requires l < |counts|
  {
    if l == LEVEL_NONE then LEVEL_NONE else if counts[l] > 0 then l else Top(counts, l - 1)
  }

  lemma {:induction false} TopIsHighest(counts: seq<nat>, l: nat)
    requires l < |counts|
    ensures Top(counts, l) <= l
    ensures Top(counts, l) > 0 ==> counts[Top(counts, l)] > 0
    ensures forall k :: Top(counts, l) < k <= l ==> counts[k] == 0
  {
    if l > 0 && counts[l] == 0 { TopIsHighest(counts, l - 1); }
  }

  lemma TopUnique(counts: seq<nat>, l: nat, t: nat)
    requires t <= l < |counts| && (t > 0 ==> counts[t] > 0) && forall k :: t < k <= l ==> counts[k] == 0
    ensures Top(counts, l) == t
  {
    TopIsHighest(counts, l);
  }

  /** Counts that are positive at the same levels have the same top. */
  lemma {:induction false} TopSame(a: seq<nat>, b: seq<nat>, l: nat)
    requires |a| == |b| && l < |a| && forall k :: 0 < k <= l ==> (a[k] > 0 <==> b[k] > 0)
    ensures Top(a, l) == Top(b, l)
  {
    if l > 0 && a[l] == 0 { TopSame(a, b, l - 1); }
  }

  /** What a piece of code does with interrupts: masked sections, and points where one may come in. */
  datatype Act = Section(level: Level, body: seq<Act>) | Interrupt(level: Level, handler: seq<Act>)

  function Higher(a: nat, b: nat): nat { if a > b then a else b }

  /**
   The interrupts that code takes when it starts with the hardware at level `irq`, in order, each with
   the level in force when it came in.
   */
  function Taken(acts: seq<Act>, irq: nat): seq<(Level, nat)>
    decreases acts, 1
  {
    if acts == [] then [] else TakenBy(acts[0], irq) + Taken(acts[1..], irq)
  }

  function TakenBy(act: Act, irq: nat): seq<(Level, nat)>
    decreases act, 0
  {
    match act
    case Section(level, body) => Taken(body, Higher(irq, level))
    case Interrupt(level, handler) => if level > irq then [(level, irq)] + Taken(handler, level) else []
  }

  ghost predicate AllAbove(taken: seq<(Level, nat)>, irq: nat)
  {
    forall i :: 0 <= i < |taken| ==> taken[i].0 > taken[i].1 >= irq
  }

  /** Whatever comes in was above the level in force, which is never below the one at the start. */
  lemma {:induction false} TakenAbove(acts: seq<Act>, irq: nat)
    ensures AllAbove(Taken(acts, irq), irq)
    decreases acts, 1
  {
    if acts != [] {
      TakenByAbove(acts[0], irq);
      TakenAbove(acts[1..], irq);
    }
  }

  lemma {:induction false} TakenByAbove(act: Act, irq: nat)
    ensures AllAbove(TakenBy(act, irq), irq)
    decreases act, 0
  {
    match act
    case Section(level, body) => TakenAbove(body, Higher(irq, level));
    case Interrupt(level, handler) => TakenAbove(handler, level);
  }

  /** What comes in during one piece of code does not depend on what came before. */
  lemma {:induction false} TakenAppend(a: seq<Act>, b: seq<Act>, irq: nat)
    ensures Taken(a + b, irq) == Taken(a, irq) + Taken(b, irq)
    decreases |a|
  {
    if a == [] {
      assert a + b == b;
    } else {
      var ab := a + b;
      assert ab[0] == a[0] && ab[1..] == a[1..] + b;
      TakenAppend(a[1..], b, irq);
      Assoc(TakenBy(a[0], irq), Taken(a[1..], irq), Taken(b, irq));
    }
  }

  lemma Assoc<T>(a: seq<T>, b: seq<T>, c: seq<T>)
    ensures (a + b) + c == a + (b + c)
  {}

  /** An interrupt comes in if and only if it is above the level in force, and then its handler runs at its level. */
  lemma InterruptTaken(level: Level, handler: seq<Act>, irq: nat)
    ensures level > irq <==> TakenBy(Interrupt(level, handler), irq) != []
    ensures level > irq ==>
              TakenBy(Interrupt(level, handler), irq)[0] == (level, irq)
              && TakenBy(Interrupt(level, handler), irq)[1..] == Taken(handler, level)
  {}

  /** A section runs at the higher of the two levels, so it masks every interrupt up to its own. */
  lemma SectionMasks(level: Level, body: seq<Act>, irq: nat)
    ensures TakenBy(Section(level, body), irq) == Taken(body, if irq < level then level else irq)
    ensures forall x :: x in TakenBy(Section(level, body), irq) ==> x.0 > level && x.0 > irq
  {
    TakenAbove(body, Higher(irq, level));
  }

  class IsrUnit {
    var counts: array<nat>   // IsrDisabledCount
    var irq: nat             // the hardware level

    ghost predicate Shaped()
      reads this
    {
      counts.Length == LEVEL_COUNT
    }

    /** The hardware level is the highest one that has been disabled. */
    ghost predicate Valid()
      reads this, counts
    {
      Shaped() && irq == Top(counts[..], LEVEL_COUNT - 1)
    }

    constructor ()
      ensures Valid() && fresh(counts) && irq == LEVEL_NONE && forall l :: 0 <= l < LEVEL_COUNT ==> counts[l] == 0
    {
      counts := new nat[LEVEL_COUNT](_ => 0);
      irq := LEVEL_NONE;
      new;
      TopIsHighest(counts[..], LEVEL_COUNT - 1);
    }

    /** Sets the hardware level to a candidate that is disabled or being disabled. */
    method IsrCheckLevel(changing: Level, candidate: Level, enable: bool) returns (set_: bool)
      requires Shaped()
      modifies `irq
      ensures set_ <==> counts[candidate] > 0 || (candidate == changing && !enable)
      ensures irq == if set_ then candidate else old(irq)
    {
      set_ := counts[candidate] > 0 || (candidate == changing && !enable);
      if set_ {
        irq := candidate;
      }
    }

    /** Selects the hardware level for the counts, with `level` counted in when it is being disabled. */
    method IsrDefer(level: Level, enable: bool)
      requires Shaped() && counts[level] == 0
      modifies `irq
      ensures irq == Top(counts[..][level := if enable then 0 else 1], LEVEL_COUNT - 1)
    {
      ghost var c := counts[..][level := if enable then 0 else 1];
      var l := LEVEL_COUNT - 1;
      while l > LEVEL_NONE
        invariant 0 <= l < LEVEL_COUNT && counts[..] == old(counts[..])
        invariant Top(c, LEVEL_COUNT - 1) == Top(c, l)
      {
        var found := IsrCheckLevel(level, l, enable);
        if found {
          return;
        }
        l := l - 1;
      }
      irq := LEVEL_NONE;
    }

    method IsrDisable(level: Level)
      requires Valid()
      modifies `irq, counts
      ensures Valid() && counts[..] == old(counts[..])[level := old(counts[level]) + 1]
      ensures irq == if old(irq) > level then old(irq) else level
    {
      ghost var was := counts[..];
      TopIsHighest(was, LEVEL_COUNT - 1);
      if counts[level] == 0 {
        IsrDefer(level, false);
        TopSame(was[level := 1], was[level := was[level] + 1], LEVEL_COUNT - 1);
      }
      counts[level] := counts[level] + 1;
      TopSame(was[level := was[level] + 1], counts[..], LEVEL_COUNT - 1);
      if was[level] > 0 { TopSame(was, counts[..], LEVEL_COUNT - 1); }
      TopUnique(counts[..], LEVEL_COUNT - 1, if old(irq) > level then old(irq) else level);
    }

    /** The source asserts the positive count, and that the hardware level covers it: that follows. */
    method IsrEnable(level: Level)
      requires Valid() && counts[level] > 0
      modifies `irq, counts
      ensures Valid() && old(irq) >= level
      ensures counts[..] == old(counts[..])[level := old(counts[level]) - 1]
    {
      TopIsHighest(counts[..], LEVEL_COUNT - 1);
      assert irq >= level;
      ghost var was := counts[..];
      counts[level] := counts[level] - 1;
      if counts[level] == 0 {
        IsrDefer(level, true);
        assert counts[..] == counts[..][level := 0];
      } else {
        TopSame(was, counts[..], LEVEL_COUNT - 1);
      }
    }

    /** Runs the handler with the interrupt's level disabled. */
    method IsrHandlerWrapper(level: Level, handler: seq<Act>) returns (ghost taken: seq<(Level, nat)>)
      requires Valid()
      modifies `irq, counts
      ensures Valid() && irq == old(irq) && counts[..] == old(counts[..])
      ensures taken == Taken(handler, Higher(old(irq), level))
      decreases handler, 2
    {
      IsrDisable(level);
      taken := Perform(handler);
      IsrEnable(level);
      assert counts[..] == old(counts[..]);
    }

    /**
     Any well-nested code, with interrupts coming in where they may: exactly those above the level in
     force are taken, and counts and hardware level end as they began.
     */
    method Perform(acts: seq<Act>) returns (ghost taken: seq<(Level, nat)>)
      requires Valid()
      modifies `irq, counts
      ensures Valid() && irq == old(irq) && counts[..] == old(counts[..])
      ensures taken == Taken(acts, old(irq))
      decreases acts, 1
    {
      taken := [];
      if acts != [] {
        var a := acts[0];
        match a {
          case Section(level, body) =>
            IsrDisable(level);
            taken := Perform(body);
            IsrEnable(level);
            assert counts[..] == old(counts[..]);
          case Interrupt(level, handler) =>
            if level > irq {
              ghost var more := IsrHandlerWrapper(level, handler);
              taken := [(level, irq)] + more;
            }
        }
        ghost var rest := Perform(acts[1..]);
        taken := taken + rest;
      }
    }
  }
}
