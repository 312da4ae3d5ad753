/**
 The two-space copying collector and the allocator on top of it.
 */
module Collector {
  import opened Common
  import opened LispGraph

  // ---------------------------------------------------------------- sizes

  /** The least multiple of `size` that is at least `v`. */
  function RoundUp(v: nat, size: nat): nat
    requires size > 0
  {
    if v == 0 then 0 else size + RoundUp(if v < size then 0 else v - size, size)
  }

  /** Bytes `alloc` takes for a payload of `payload` bytes. */
  function AllocSize(payload: nat): nat {
    RoundUp(RoundUp(payload, WORD) + HEADER, WORD)
  }

  /** The source rounds with a mask, `(v + 7) & ~7`: that is the multiple of a word in [v, v + 7]. */
  lemma RoundUpMask(v: bv64)
    requires v <= v + 7
    ensures var r := (v + 7) & !7; r % 8 == 0 && v <= r <= v + 7
  {}

  /** There is only one such multiple, and RoundUp gives it: both forms of rounding agree. */
  lemma RoundUpOnly(v: nat, r: nat)
    ensures r == RoundUp(v, WORD) <==> r % WORD == 0 && v <= r <= v + WORD - 1
  {
    RoundUpWord(v);
  }

  lemma {:induction false} RoundUpWord(v: nat)
    ensures RoundUp(v, WORD) % WORD == 0 && v <= RoundUp(v, WORD) < v + WORD
  {
    if v > 0 { RoundUpWord(if v < WORD then 0 else v - WORD); }
  }

  /**
   The sizes `alloc` computes: whole words, header included. There is room for a forwarding
   pointer exactly if the payload is not empty.
   */
  lemma AllocSizeFits(payload: nat)
    ensures AllocSize(payload) % WORD == 0
    ensures AllocSize(payload) >= HEADER + WORD <==> payload > 0
    ensures HEADER + payload <= AllocSize(payload) < HEADER + payload + WORD
  {
    var r := RoundUp(payload, WORD);
    RoundUpWord(payload);
    RoundUpWord(r + HEADER);
  }

  // ---------------------------------------------------------------- memory

  /** Writes an object at `a`, destroying whatever its bytes overlap. */
  function Store(mem: Memory, a: Addr, o: Obj): Memory {
    (map b | b in mem && (b + mem[b].size <= a || a + o.size <= b) :: mem[b])[a := o]
  }

  /** What is left after a write is the new object and whatever it did not overlap. */
  lemma StoreExact(mem: Memory, a: Addr, o: Obj, b: Addr)
    ensures a in Store(mem, a, o) && Store(mem, a, o)[a] == o
    ensures b != a ==>
              (b in Store(mem, a, o) <==> b in mem && (b + mem[b].size <= a || a + o.size <= b))
              && (b in Store(mem, a, o) ==> Store(mem, a, o)[b] == mem[b])
  {}

  // ---------------------------------------------------------------- a collection in progress

  /**
   `order` lists the objects moved so far, `dest` their new addresses (the layout of the
   to-space), `fwd` the same as a map. The first `scanned` copies have been fully forwarded;
   while `busy`, copy number `scanned` is being rewritten. `live` bounds what may be moved.
   */
  datatype Copy = Copy(mem: Memory, order: seq<Addr>, dest: seq<Addr>, fwd: Forwarding,
                       scanned: nat, busy: bool, free: Addr, live: set<Addr>)

  ghost predicate Known(g: Graph, fwd: Forwarding, p: Addr) { Managed(g, p) ==> p in fwd }

  ghost predicate AllKnown(g: Graph, fwd: Forwarding, o: Obj) {
    forall i :: 0 <= i < |Fields(o)| ==> Known(g, fwd, Fields(o)[i])
  }

  /** What copy number `i` holds. */
  ghost predicate CopyHolds(g: Graph, c: Copy, i: nat)
    requires i < |c.order| == |c.dest|
  {
    var a := c.order[i];
    a in g.mem && a in c.fwd && c.fwd[a] == c.dest[i] && c.dest[i] in c.mem &&
    if i < c.scanned then AllKnown(g, c.fwd, g.mem[a]) && c.mem[c.dest[i]] == Relocated(g.mem[a], c.fwd)
    else (c.busy && i == c.scanned) || c.mem[c.dest[i]] == g.mem[a]
  }

  /** The state of an original object: untouched, or a tombstone pointing at its copy. */
  ghost predicate OriginalHolds(g: Graph, c: Copy, a: Addr) {
    a in g.mem && a in c.mem &&
    c.mem[a] == if a in c.fwd then Moved(g.mem[a].size, c.fwd[a]) else g.mem[a]
  }

  ghost predicate CopyInv(g: Graph, to: Addr, c: Copy) {
    && |c.order| == |c.dest| && c.scanned <= |c.dest| && (c.busy ==> c.scanned < |c.dest|)
    && Distinct(c.order)
    && (forall a :: a in c.fwd <==> a in c.order)
    && (forall a :: a in c.order ==> a in g.layout && a in c.live)
    && Closed(g, c.live)
    && (forall a :: a in g.layout ==> OriginalHolds(g, c, a))
    && (forall i :: 0 <= i < |c.dest| ==> CopyHolds(g, c, i))
    && Tiles(c.mem, to, c.dest, c.free)
    && c.free == to + Bytes(g.mem, g.layout, c.fwd.Keys)
  }

  /** The standing facts of a collection from `g` into the space at `to`. */
  ghost predicate Setting(g: Graph, to: Addr, used: nat) {
    && WellFormed(g, to, used)
    && 0 < g.base && 0 < to
    && (g.base + g.limit <= to || to + g.limit <= g.base)
  }

  ghost predicate Extends(c: Copy, c': Copy) {
    && c'.scanned == c.scanned && c'.busy == c.busy && c'.live == c.live
    && c.order <= c'.order && c.dest <= c'.dest
    && Grows(c.fwd, c'.fwd)
    && (forall i :: 0 <= i < |c.dest| && c.dest[i] in c.mem ==>
          c.dest[i] in c'.mem && c'.mem[c.dest[i]] == c.mem[c.dest[i]])
  }

  /** Moving one object: copy it to `free`, leave a tombstone. */
  function MoveOne(c: Copy, a: Addr): Copy
    requires a in c.mem
  {
    var o := c.mem[a];
    Copy(Store(c.mem, c.free, o)[a := Moved(o.size, c.free)],
         c.order + [a], c.dest + [c.free], c.fwd[a := c.free],
         c.scanned, c.busy, c.free + o.size, c.live)
  }

  lemma RelocatedGrows(g: Graph, o: Obj, fwd: Forwarding, fwd': Forwarding)
    requires AllKnown(g, fwd, o)
    requires forall a :: a in fwd ==> a in fwd' && fwd'[a] == fwd[a]
    requires forall a :: a in fwd' ==> Managed(g, a)
    ensures AllKnown(g, fwd', o) && Relocated(o, fwd') == Relocated(o, fwd)
  {
    forall i | 0 <= i < |Fields(o)|
      ensures Known(g, fwd', Fields(o)[i]) && Target(fwd', Fields(o)[i]) == Target(fwd, Fields(o)[i])
    {
      assert Known(g, fwd, Fields(o)[i]);
    }
    match o
    case Cell(_, a, d) => assert Fields(o)[0] == a && Fields(o)[1] == d;
    case Function(_, p, b, e) => assert Fields(o)[0] == p && Fields(o)[1] == b && Fields(o)[2] == e;
    case Macro(_, p, b, e) => assert Fields(o)[0] == p && Fields(o)[1] == b && Fields(o)[2] == e;
    case Env(_, v, u) => assert Fields(o)[0] == v && Fields(o)[1] == u;
    case _ =>
  }

  /** There is room for every object not moved yet: the copies never outgrow the old heap. */
  lemma RoomToMove(g: Graph, to: Addr, used: nat, c: Copy, a: Addr)
    requires Setting(g, to, used) && CopyInv(g, to, c)
    requires a in g.layout && a !in c.fwd
    ensures a in c.mem && c.mem[a] == g.mem[a]
    ensures c.free + g.mem[a].size <= to + used
    ensures Bytes(g.mem, g.layout, c.fwd.Keys + {a}) == Bytes(g.mem, g.layout, c.fwd.Keys) + g.mem[a].size
  {
    assert OriginalHolds(g, c, a);
    BytesAdd(g.mem, g.base, g.layout, g.base + used, c.fwd.Keys, a);
    BytesBound(g.mem, g.base, g.layout, g.base + used, c.fwd.Keys + {a});
  }

  /** A write leaves an object alone that it does not overlap. */
  lemma StoreFrames(mem: Memory, a: Addr, o: Obj, b: Addr)
    requires b in mem && b != a && (b + mem[b].size <= a || a + o.size <= b)
    ensures b in Store(mem, a, o) && Store(mem, a, o)[b] == mem[b]
  {}

  /** The bytes of the next copy overlap no original and no earlier copy. */
  lemma MoveApart(g: Graph, to: Addr, used: nat, c: Copy, a: Addr)
    requires Setting(g, to, used) && CopyInv(g, to, c)
    requires a in g.layout && a !in c.fwd
    ensures forall b :: b in g.layout ==>
              Managed(g, b) && b in c.mem && b != c.free
              && (b + c.mem[b].size <= c.free || c.free + g.mem[a].size <= b)
    ensures forall b :: b in c.dest ==> b in c.mem && b != c.free && b !in g.layout && b + c.mem[b].size <= c.free
  {
    RoomToMove(g, to, used, c, a);
    TilesOrdered(g.mem, g.base, g.layout, g.base + used);
    TilesOrdered(c.mem, to, c.dest, c.free);
    forall b | b in g.layout
      ensures Managed(g, b) && b in c.mem && c.mem[b].size == g.mem[b].size && b + c.mem[b].size <= g.base + g.limit
    {
      assert OriginalHolds(g, c, b);
    }
    assert forall b :: b in c.dest ==> b in c.mem && c.mem[b].size > 0 by { TilesPositive(c.mem, to, c.dest, c.free); }
  }

  lemma {:induction false} TilesPositive(mem: Memory, base: Addr, layout: seq<Addr>, end: Addr)
    requires Tiles(mem, base, layout, end)
    ensures forall b :: b in layout ==> b in mem && mem[b].size > 0
    decreases |layout|
  {
    if layout != [] { TilesPositive(mem, base, layout[..|layout| - 1], layout[|layout| - 1]); }
  }

  /** So it leaves every original and every earlier copy alone. */
  lemma MoveFrames(g: Graph, to: Addr, used: nat, c: Copy, a: Addr)
    requires Setting(g, to, used) && CopyInv(g, to, c)
    requires a in g.layout && a !in c.fwd
    ensures a in c.mem
    ensures var c' := MoveOne(c, a);
            && c.free !in g.layout && c.free !in c.dest
            && (forall b :: b in g.layout ==> Managed(g, b) && b in c'.mem && b in c.mem)
            && (forall b :: b in g.layout && b != a ==> c'.mem[b] == c.mem[b])
            && (forall b :: b in c.dest ==> b in c'.mem && b in c.mem && b != a && c'.mem[b] == c.mem[b])
  {
    RoomToMove(g, to, used, c, a);
    MoveApart(g, to, used, c, a);
    forall b | b in g.layout || b in c.dest
      ensures b in Store(c.mem, c.free, c.mem[a]) && Store(c.mem, c.free, c.mem[a])[b] == c.mem[b]
    {
      StoreFrames(c.mem, c.free, c.mem[a], b);
    }
  }

  lemma MoveKeeps(g: Graph, to: Addr, used: nat, c: Copy, a: Addr)
    requires Setting(g, to, used) && CopyInv(g, to, c)
    requires a in g.layout && a !in c.fwd && a in c.live
    ensures a in c.mem && CopyInv(g, to, MoveOne(c, a)) && Extends(c, MoveOne(c, a))
    ensures MoveOne(c, a).free <= to + used
  {
    RoomToMove(g, to, used, c, a);
    MoveFrames(g, to, used, c, a);
    var c' := MoveOne(c, a);
    assert c'.fwd.Keys == c.fwd.Keys + {a};
    TilesFrame(c.mem, c'.mem, to, c.dest, c.free);
    assert c'.mem[c.free] == g.mem[a];
    TilesAppend(c'.mem, to, c.dest, c.free);
    forall b | b in g.layout
      ensures OriginalHolds(g, c', b)
    {
      assert OriginalHolds(g, c, b);
    }
    forall i | 0 <= i < |c'.dest|
      ensures CopyHolds(g, c', i)
    {
      if i < |c.dest| {
        assert CopyHolds(g, c, i);
        if i < c.scanned {
          RelocatedGrows(g, g.mem[c.order[i]], c.fwd, c'.fwd);
        }
      }
    }
  }

  // ---------------------------------------------------------------- the end of a collection

  /** With every copy scanned, a field of a moved object leads to a moved object. */
  lemma FieldsMoved(g: Graph, to: Addr, used: nat, c: Copy, a: Addr)
    requires Setting(g, to, used) && CopyInv(g, to, c) && c.scanned == |c.dest| && !c.busy
    requires a in c.fwd && a in g.mem
    ensures LeadsInto(g, c.fwd.Keys, g.mem[a])
  {
    Apart(g, to, used, c);
    assert a in c.order;
    var i :| 0 <= i < |c.order| && c.order[i] == a;
    assert CopyHolds(g, c, i);
    forall j | 0 <= j < |Fields(g.mem[a])| && Fields(g.mem[a])[j] in g.layout
      ensures Fields(g.mem[a])[j] in c.fwd
    {
      assert Known(g, c.fwd, Fields(g.mem[a])[j]);
    }
  }

  ghost predicate RootsKnown(g: Graph, fwd: Forwarding) {
    && Known(g, fwd, g.symbols)
    && (forall f, i :: 0 <= f < |g.frames| && 0 <= i < |g.frames[f]| ==> Known(g, fwd, g.frames[f][i]))
  }

  /** Every copy scanned and every root known: what has been moved is closed under roots and fields. */
  lemma MovedClosed(g: Graph, to: Addr, used: nat, c: Copy)
    requires Setting(g, to, used) && CopyInv(g, to, c) && c.scanned == |c.dest| && !c.busy
    requires RootsKnown(g, c.fwd)
    ensures Closed(g, c.fwd.Keys)
  {
    Apart(g, to, used, c);
    forall f, i | 0 <= f < |g.frames| && 0 <= i < |g.frames[f]| && g.frames[f][i] in g.layout
      ensures g.frames[f][i] in c.fwd
    {
      assert Known(g, c.fwd, g.frames[f][i]);
    }
    forall a | a in c.fwd && a in g.mem
      ensures LeadsInto(g, c.fwd.Keys, g.mem[a])
    {
      FieldsMoved(g, to, used, c, a);
    }
  }

  /** So if nothing unreachable may be moved, the moved objects are exactly the reachable ones. */
  lemma AllLiveMoved(g: Graph, to: Addr, used: nat, c: Copy)
    requires Setting(g, to, used) && CopyInv(g, to, c) && c.scanned == |c.dest| && !c.busy
    requires RootsKnown(g, c.fwd) && c.live == Live(g)
    ensures c.fwd.Keys == Live(g)
  {
    assert Live(g) <= c.fwd.Keys by {
      MovedClosed(g, to, used, c);
      ClosedHoldsLive(g, c.fwd.Keys);
    }
    OnlyLiveMoved(g, to, c);
  }

  lemma OnlyLiveMoved(g: Graph, to: Addr, c: Copy)
    requires CopyInv(g, to, c)
    ensures c.fwd.Keys <= c.live
  {
    forall a | a in c.fwd.Keys
      ensures a in c.live
    {
      assert a in c.order;
    }
  }

  /** The graph a finished collection leaves. */
  ghost function Result(g: Graph, to: Addr, c: Copy, symbols: Addr, frames: seq<seq<Addr>>): Graph {
    Graph(c.mem, to, g.limit, c.dest, symbols, frames)
  }

  lemma TargetOk(g: Graph, to: Addr, used: nat, c: Copy, h: Graph, p: Addr)
    requires Setting(g, to, used) && CopyInv(g, to, c)
    requires h.base == to && h.limit == g.limit && h.layout == c.dest
    requires PointerOk(g, to, p) && Known(g, c.fwd, p)
    ensures PointerOk(h, g.base, Target(c.fwd, p))
  {
    TilesOrdered(g.mem, g.base, g.layout, g.base + used);
    if p in c.fwd {
      var i :| 0 <= i < |c.order| && c.order[i] == p;
      assert CopyHolds(g, c, i);
    }
  }

  lemma CopiesWellFormed(g: Graph, to: Addr, used: nat, c: Copy, h: Graph, i: nat)
    requires Setting(g, to, used) && CopyInv(g, to, c) && c.scanned == |c.dest| && !c.busy
    requires h.base == to && h.limit == g.limit && h.layout == c.dest && h.mem == c.mem
    requires i < |c.dest|
    ensures c.dest[i] in c.mem && Regular(c.mem[c.dest[i]]) && FieldsOk(h, g.base, c.mem[c.dest[i]])
  {
    assert CopyHolds(g, c, i);
    var o := g.mem[c.order[i]];
    assert c.order[i] in g.layout;
    FieldsRelocated(o, c.fwd);
    forall k | 0 <= k < |Fields(o)|
      ensures PointerOk(h, g.base, Target(c.fwd, Fields(o)[k]))
    {
      assert Known(g, c.fwd, Fields(o)[k]);
      TargetOk(g, to, used, c, h, Fields(o)[k]);
    }
  }

  ghost predicate Finished(g: Graph, to: Addr, used: nat, c: Copy, symbols: Addr, frames: seq<seq<Addr>>) {
    && Setting(g, to, used) && CopyInv(g, to, c) && c.scanned == |c.dest| && !c.busy
    && RootsKnown(g, c.fwd) && symbols == Target(c.fwd, g.symbols) && c.live == Live(g)
    && FramesForwarded(g.frames, frames, c.fwd)
  }

  /** A finished collection leaves a well-formed graph that holds the live bytes and no others. */
  lemma ResultWellFormed(g: Graph, to: Addr, used: nat, c: Copy, symbols: Addr, frames: seq<seq<Addr>>)
    requires Finished(g, to, used, c, symbols, frames)
    ensures c.free - to == LiveBytes(g) && LiveBytes(g) <= used
    ensures WellFormed(Result(g, to, c, symbols, frames), g.base, LiveBytes(g))
  {
    var h := Result(g, to, c, symbols, frames);
    AllLiveMoved(g, to, used, c);
    BytesBound(g.mem, g.base, g.layout, g.base + used, Live(g));
    forall a | a in h.layout
      ensures a in h.mem && Regular(h.mem[a]) && FieldsOk(h, g.base, h.mem[a])
    {
      var i :| 0 <= i < |c.dest| && c.dest[i] == a;
      CopiesWellFormed(g, to, used, c, h, i);
    }
    TargetOk(g, to, used, c, h, g.symbols);
    forall f, i | 0 <= f < |h.frames| && 0 <= i < |h.frames[f]|
      ensures PointerOk(h, g.base, h.frames[f][i])
    {
      assert PointerOk(g, to, g.frames[f][i]);
      TargetOk(g, to, used, c, h, g.frames[f][i]);
    }
  }

  /** No object is moved twice, and no two objects are moved to the same place. */
  lemma ForwardingInjective(g: Graph, to: Addr, used: nat, c: Copy)
    requires Setting(g, to, used) && CopyInv(g, to, c)
    ensures Distinct(c.order)
    ensures forall a, b :: a in c.fwd && b in c.fwd && c.fwd[a] == c.fwd[b] ==> a == b
  {
    Apart(g, to, used, c);
    forall a, b | a in c.fwd && b in c.fwd && c.fwd[a] == c.fwd[b]
      ensures a == b
    {
      assert a in c.order && b in c.order;
      var i :| 0 <= i < |c.order| && c.order[i] == a;
      var j :| 0 <= j < |c.order| && c.order[j] == b;
      assert CopyHolds(g, c, i) && CopyHolds(g, c, j);
    }
  }

  /** A finished collection leaves a graph isomorphic to the reachable part of the old one. */
  lemma ResultIsomorphic(g: Graph, to: Addr, used: nat, c: Copy, symbols: Addr, frames: seq<seq<Addr>>)
    requires Finished(g, to, used, c, symbols, frames)
    ensures Isomorphic(g, Result(g, to, c, symbols, frames), c.fwd)
  {
    MovedClosed(g, to, used, c);
    ForwardingInjective(g, to, used, c);
    forall a | a in c.fwd
      ensures CarriedOver(g, Result(g, to, c, symbols, frames), c.fwd, a)
    {
      assert a in c.order;
      var i :| 0 <= i < |c.order| && c.order[i] == a;
      assert CopyHolds(g, c, i);
    }
  }

  // ---------------------------------------------------------------- scanning one copy

  ghost predicate Grows(fwd: Forwarding, fwd': Forwarding) {
    forall a :: a in fwd ==> a in fwd' && fwd'[a] == fwd[a]
  }

  lemma KnownGrows(g: Graph, to: Addr, used: nat, c: Copy, c': Copy, p: Addr)
    requires Setting(g, to, used) && CopyInv(g, to, c) && CopyInv(g, to, c') && Grows(c.fwd, c'.fwd)
    requires Known(g, c.fwd, p)
    ensures Known(g, c'.fwd, p) && Target(c'.fwd, p) == Target(c.fwd, p)
  {
    TilesOrdered(g.mem, g.base, g.layout, g.base + used);
  }

  /** Originals and copies live at different addresses, and so do any two copies. */
  lemma Apart(g: Graph, to: Addr, used: nat, c: Copy)
    requires Setting(g, to, used) && CopyInv(g, to, c)
    ensures forall a :: a in g.layout ==> Managed(g, a) && a !in c.dest
    ensures Distinct(c.dest)
    ensures c.free <= to + used
  {
    TilesOrdered(g.mem, g.base, g.layout, g.base + used);
    TilesOrdered(c.mem, to, c.dest, c.free);
    BytesBound(g.mem, g.base, g.layout, g.base + used, c.fwd.Keys);
  }

  /** Rewriting the copy under the scan pointer in place. */
  lemma RewriteKeeps(g: Graph, to: Addr, used: nat, c: Copy, o: Obj)
    requires Setting(g, to, used) && CopyInv(g, to, c) && c.busy
    requires c.dest[c.scanned] in c.mem && o.size == c.mem[c.dest[c.scanned]].size
    ensures CopyInv(g, to, c.(mem := c.mem[c.dest[c.scanned] := o]))
  {
    var a := c.dest[c.scanned];
    var c' := c.(mem := c.mem[a := o]);
    Apart(g, to, used, c);
    assert Tiles(c'.mem, to, c'.dest, c'.free) by { TilesFrame(c.mem, c'.mem, to, c.dest, c.free); }
    forall b | b in g.layout
      ensures OriginalHolds(g, c', b)
    {
      assert OriginalHolds(g, c, b) && a in c.dest;
    }
    forall i | 0 <= i < |c'.dest|
      ensures CopyHolds(g, c', i)
    {
      assert CopyHolds(g, c, i);
    }
  }

  lemma ScanDone(g: Graph, to: Addr, c: Copy)
    requires CopyInv(g, to, c) && c.busy
    requires c.order[c.scanned] in g.mem && c.dest[c.scanned] in c.mem
    requires AllKnown(g, c.fwd, g.mem[c.order[c.scanned]])
    requires c.mem[c.dest[c.scanned]] == Relocated(g.mem[c.order[c.scanned]], c.fwd)
    ensures CopyInv(g, to, c.(scanned := c.scanned + 1, busy := false))
  {
    var c' := c.(scanned := c.scanned + 1, busy := false);
    forall b | b in g.layout
      ensures OriginalHolds(g, c', b)
    {
      assert OriginalHolds(g, c, b);
    }
    forall i | 0 <= i < |c'.dest|
      ensures CopyHolds(g, c', i)
    {
      assert CopyHolds(g, c, i);
    }
  }

  lemma {:induction false} TilesNext(mem: Memory, base: Addr, layout: seq<Addr>, end: Addr, i: nat)
    requires Tiles(mem, base, layout, end) && i < |layout|
    ensures layout[i] in mem && mem[layout[i]].size > 0
    ensures layout[i] + mem[layout[i]].size == if i + 1 < |layout| then layout[i + 1] else end
    ensures layout[0] == base
    decreases |layout|
  {
    var init := layout[..|layout| - 1];
    if i + 1 < |layout| {
      TilesNext(mem, base, init, layout[|layout| - 1], i);
    } else if init != [] {
      TilesNext(mem, base, init, layout[|layout| - 1], 0);
    }
  }

  /** The scan pointer: the address of the first copy not scanned yet. */
  ghost function ScanAt(c: Copy): Addr {
    if c.scanned < |c.dest| then c.dest[c.scanned] else c.free
  }

  // ---------------------------------------------------------------- roots

  predicate Before(f: nat, i: nat, f': nat, i': nat) { f < f' || (f == f' && i < i') }

  /** Root slots before (f, i) have been forwarded, the others are as they were. */
  ghost predicate RootsDone(g: Graph, fwd: Forwarding, frames: seq<seq<Addr>>, f: nat, i: nat) {
    && |frames| == |g.frames|
    && (forall u :: 0 <= u < |frames| ==> |frames[u]| == |g.frames[u]|)
    && (forall u, v :: 0 <= u < |frames| && 0 <= v < |frames[u]| ==>
                          if Before(u, v, f, i)
                          then Known(g, fwd, g.frames[u][v]) && frames[u][v] == Target(fwd, g.frames[u][v])
                          else frames[u][v] == g.frames[u][v])
  }

  lemma RootsDoneGrows(g: Graph, to: Addr, used: nat, c: Copy, c': Copy, frames: seq<seq<Addr>>, f: nat, i: nat)
    requires Setting(g, to, used) && CopyInv(g, to, c) && CopyInv(g, to, c') && Grows(c.fwd, c'.fwd)
    requires RootsDone(g, c.fwd, frames, f, i)
    ensures RootsDone(g, c'.fwd, frames, f, i)
  {
    forall u, v | 0 <= u < |frames| && 0 <= v < |frames[u]| && Before(u, v, f, i)
      ensures Known(g, c'.fwd, g.frames[u][v]) && frames[u][v] == Target(c'.fwd, g.frames[u][v])
    {
      KnownGrows(g, to, used, c, c', g.frames[u][v]);
    }
  }

  lemma RootsDoneStep(g: Graph, fwd: Forwarding, frames: seq<seq<Addr>>, f: nat, i: nat, q: Addr)
    requires RootsDone(g, fwd, frames, f, i) && f < |frames| && i < |frames[f]|
    requires Known(g, fwd, g.frames[f][i]) && q == Target(fwd, g.frames[f][i])
    ensures RootsDone(g, fwd, frames[f := frames[f][i := q]], f, i + 1)
  {}

  lemma RootsDoneFrame(g: Graph, fwd: Forwarding, frames: seq<seq<Addr>>, f: nat)
    requires f < |frames| && RootsDone(g, fwd, frames, f, |frames[f]|)
    ensures RootsDone(g, fwd, frames, f + 1, 0)
  {}

  lemma RootsDoneAll(g: Graph, fwd: Forwarding, frames: seq<seq<Addr>>)
    requires RootsDone(g, fwd, frames, |frames|, 0) && Known(g, fwd, g.symbols)
    ensures RootsKnown(g, fwd) && FramesForwarded(g.frames, frames, fwd)
  {}

  /** Where a collection starts. */
  ghost function Fresh(g: Graph, to: Addr): Copy { Copy(g.mem, [], [], map[], 0, false, to, Live(g)) }

  lemma {:induction false} BytesNone(mem: Memory, layout: seq<Addr>)
    ensures Bytes(mem, layout, {}) == 0
    decreases |layout|
  {
    if layout != [] { BytesNone(mem, layout[..|layout| - 1]); }
  }

  lemma LiveClosed(g: Graph, to: Addr, used: nat)
    requires Setting(g, to, used)
    ensures Closed(g, Live(g))
  {
    if g.symbols in g.layout { RootReachable(g, g.symbols); }
    forall f, i | 0 <= f < |g.frames| && 0 <= i < |g.frames[f]| && g.frames[f][i] in g.layout
      ensures g.frames[f][i] in Live(g)
    {
      RootReachable(g, g.frames[f][i]);
    }
    forall a | a in Live(g) && a in g.mem
      ensures LeadsInto(g, Live(g), g.mem[a])
    {
      forall i | 0 <= i < |Fields(g.mem[a])| && Fields(g.mem[a])[i] in g.layout
        ensures Fields(g.mem[a])[i] in Live(g)
      {
        FieldReachable(g, a, Fields(g.mem[a])[i]);
      }
    }
  }

  lemma FreshInv(g: Graph, to: Addr, used: nat)
    requires Setting(g, to, used)
    ensures CopyInv(g, to, Fresh(g, to))
  {
    BytesNone(g.mem, g.layout);
    LiveClosed(g, to, used);
    assert Fresh(g, to).fwd.Keys == {};
  }

  /** The pointers held by a copied object may be forwarded. */
  lemma FieldForwardable(g: Graph, to: Addr, used: nat, c: Copy, k: nat, i: nat)
    requires Setting(g, to, used) && CopyInv(g, to, c) && k < |c.order|
    requires c.order[k] in g.mem && i < |Fields(g.mem[c.order[k]])|
    ensures Forwardable(g, to, c.live, Fields(g.mem[c.order[k]])[i])
  {
    var a, p := c.order[k], Fields(g.mem[c.order[k]])[i];
    assert a in c.order;
    assert FieldsOk(g, to, g.mem[a]) && PointerOk(g, to, p);
    assert LeadsInto(g, c.live, g.mem[a]);
  }

  lemma RootForwardable(g: Graph, to: Addr, used: nat, live: set<Addr>, p: Addr)
    requires Setting(g, to, used) && IsRoot(g, p) && Closed(g, live)
    ensures Forwardable(g, to, live, p)
  {
    assert PointerOk(g, to, p);
  }

  ghost predicate Forwardable(g: Graph, to: Addr, live: set<Addr>, p: Addr) {
    PointerOk(g, to, p) && (p in g.layout ==> p in live)
  }

  // ---------------------------------------------------------------- field by field

  function SetField(o: Obj, n: nat, p: Addr): Obj {
    match o
    case Cell(s, a, d) => if n == 0 then Cell(s, p, d) else Cell(s, a, p)
    case Function(s, f, b, e) =>
      if n == 0 then Function(s, p, b, e) else if n == 1 then Function(s, f, p, e) else Function(s, f, b, p)
    case Macro(s, f, b, e) =>
      if n == 0 then Macro(s, p, b, e) else if n == 1 then Macro(s, f, p, e) else Macro(s, f, b, p)
    case Env(s, v, u) => if n == 0 then Env(s, p, u) else Env(s, v, p)
    case _ => o
  }

  /** `cur` is `o` with its first `n` fields forwarded. */
  ghost predicate Partly(g: Graph, fwd: Forwarding, o: Obj, cur: Obj, n: nat) {
    && cur.size == o.size
    && n <= |Fields(o)|
    && (forall i :: 0 <= i < n ==> Known(g, fwd, Fields(o)[i]))
    && match o {
         case Cell(s, a, d) =>
           cur == Cell(s, if n > 0 then Target(fwd, a) else a, if n > 1 then Target(fwd, d) else d)
         case Function(s, p, b, e) =>
           cur == Function(s, if n > 0 then Target(fwd, p) else p, if n > 1 then Target(fwd, b) else b,
                           if n > 2 then Target(fwd, e) else e)
         case Macro(s, p, b, e) =>
           cur == Macro(s, if n > 0 then Target(fwd, p) else p, if n > 1 then Target(fwd, b) else b,
                        if n > 2 then Target(fwd, e) else e)
         case Env(s, v, u) =>
           cur == Env(s, if n > 0 then Target(fwd, v) else v, if n > 1 then Target(fwd, u) else u)
         case _ => cur == o
       }
  }

  /** The copy being scanned holds its original with the first `n` fields forwarded. */
  ghost predicate Scanning(g: Graph, c: Copy, n: nat) {
    && c.busy && c.scanned < |c.order| == |c.dest|
    && c.order[c.scanned] in g.mem && c.dest[c.scanned] in c.mem
    && Partly(g, c.fwd, g.mem[c.order[c.scanned]], c.mem[c.dest[c.scanned]], n)
  }

  lemma PartlyGrows(g: Graph, to: Addr, used: nat, c: Copy, c': Copy, o: Obj, cur: Obj, n: nat)
    requires Setting(g, to, used) && CopyInv(g, to, c) && CopyInv(g, to, c') && Grows(c.fwd, c'.fwd)
    requires Partly(g, c.fwd, o, cur, n)
    ensures Partly(g, c'.fwd, o, cur, n)
  {
    forall i | 0 <= i < n
      ensures Known(g, c'.fwd, Fields(o)[i]) && Target(c'.fwd, Fields(o)[i]) == Target(c.fwd, Fields(o)[i])
    {
      KnownGrows(g, to, used, c, c', Fields(o)[i]);
    }
    if n > 0 { assert Target(c'.fwd, Fields(o)[0]) == Target(c.fwd, Fields(o)[0]); }
    if n > 1 { assert Target(c'.fwd, Fields(o)[1]) == Target(c.fwd, Fields(o)[1]); }
    if n > 2 { assert Target(c'.fwd, Fields(o)[2]) == Target(c.fwd, Fields(o)[2]); }
  }

  /** Storing the forwarded address of field `n` into the copy. */
  lemma FieldStored(g: Graph, to: Addr, used: nat, c: Copy, d: Copy, n: nat, r: Addr)
    requires Setting(g, to, used) && CopyInv(g, to, c) && CopyInv(g, to, d) && Extends(c, d)
    requires Scanning(g, c, n) && n < |Fields(g.mem[c.order[c.scanned]])|
    requires var p := Fields(g.mem[c.order[c.scanned]])[n]; Known(g, d.fwd, p) && r == Target(d.fwd, p)
    ensures d.dest[d.scanned] == c.dest[c.scanned] && c.dest[c.scanned] in d.mem
    ensures var d' := d.(mem := d.mem[c.dest[c.scanned] := SetField(d.mem[c.dest[c.scanned]], n, r)]);
            CopyInv(g, to, d') && Scanning(g, d', n + 1)
  {
    var at := c.dest[c.scanned];
    var o, cur := g.mem[c.order[c.scanned]], c.mem[at];
    assert d.mem[at] == cur;
    PartlyGrows(g, to, used, c, d, o, cur, n);
    RewriteKeeps(g, to, used, d, SetField(cur, n, r));
  }

  /** All fields forwarded: the copy counts as scanned, and the scan pointer moves to the next one. */
  lemma ScanFinished(g: Graph, to: Addr, c: Copy, n: nat)
    requires CopyInv(g, to, c) && Scanning(g, c, n) && n == |Fields(g.mem[c.order[c.scanned]])|
    ensures var c' := c.(scanned := c.scanned + 1, busy := false);
            && CopyInv(g, to, c')
            && ScanAt(c') == ScanAt(c) + c.mem[ScanAt(c)].size
            && c.mem[ScanAt(c)].size > 0
  {
    ScanDone(g, to, c);
    TilesNext(c.mem, to, c.dest, c.free, c.scanned);
  }

  lemma ScanBegun(g: Graph, to: Addr, used: nat, c: Copy)
    requires Setting(g, to, used) && CopyInv(g, to, c) && !c.busy && ScanAt(c) < c.free
    ensures c.scanned < |c.dest|
    ensures CopyInv(g, to, c.(busy := true)) && Scanning(g, c.(busy := true), 0)
    ensures ScanAt(c) in c.mem && c.mem[ScanAt(c)] == g.mem[c.order[c.scanned]] && Regular(c.mem[ScanAt(c)])
  {
    var c' := c.(busy := true);
    assert CopyHolds(g, c, c.scanned);
    assert c.order[c.scanned] in c.order;
    forall b | b in g.layout
      ensures OriginalHolds(g, c', b)
    {
      assert OriginalHolds(g, c, b);
    }
    forall i | 0 <= i < |c'.dest|
      ensures CopyHolds(g, c', i)
    {
      assert CopyHolds(g, c, i);
    }
  }

  lemma ScanStart(g: Graph, to: Addr, c: Copy)
    requires CopyInv(g, to, c) && c.scanned == 0
    ensures ScanAt(c) == to
  {
    if c.dest != [] { TilesNext(c.mem, to, c.dest, c.free, 0); }
  }

  lemma ScanBounds(g: Graph, to: Addr, used: nat, c: Copy)
    requires Setting(g, to, used) && CopyInv(g, to, c)
    ensures ScanAt(c) <= c.free <= to + used
    ensures ScanAt(c) == c.free ==> c.scanned == |c.dest|
  {
    Apart(g, to, used, c);
    TilesOrdered(c.mem, to, c.dest, c.free);
    if c.scanned < |c.dest| {
      assert c.dest[c.scanned] in c.dest;
      TilesNext(c.mem, to, c.dest, c.free, c.scanned);
    }
  }

  /** Roots forwarded before the scan stay forwarded after it; then the collection is finished. */
  lemma RootsGrow(g: Graph, to: Addr, used: nat, c: Copy, c': Copy, frames: seq<seq<Addr>>)
    requires Setting(g, to, used) && CopyInv(g, to, c) && CopyInv(g, to, c') && Grows(c.fwd, c'.fwd)
    requires RootsKnown(g, c.fwd) && FramesForwarded(g.frames, frames, c.fwd)
    requires !c'.busy && ScanAt(c') == c'.free && c'.live == Live(g)
    ensures Finished(g, to, used, c', Target(c.fwd, g.symbols), frames)
  {
    KnownGrows(g, to, used, c, c', g.symbols);
    forall f, i | 0 <= f < |g.frames| && 0 <= i < |g.frames[f]|
      ensures Known(g, c'.fwd, g.frames[f][i]) && frames[f][i] == Target(c'.fwd, g.frames[f][i])
    {
      KnownGrows(g, to, used, c, c', g.frames[f][i]);
    }
    ScanBounds(g, to, used, c');
  }

  /** A finished collection: ready to allocate in the new space, and nothing observable has changed. */
  lemma CollectionDone(g: Graph, to: Addr, used: nat, c: Copy, symbols: Addr, frames: seq<seq<Addr>>)
    requires Finished(g, to, used, c, symbols, frames)
    ensures c.free - to == LiveBytes(g) <= used
    ensures Setting(Result(g, to, c, symbols, frames), g.base, LiveBytes(g))
    ensures Isomorphic(g, Result(g, to, c, symbols, frames), c.fwd) && c.fwd.Keys == Live(g)
  {
    AllLiveMoved(g, to, used, c);
    ResultWellFormed(g, to, used, c, symbols, frames);
    ResultIsomorphic(g, to, used, c, symbols, frames);
  }

  // ---------------------------------------------------------------- allocation

  /** A new object: its type and size are set, the constructor fills in the rest. */
  function Blank(t: Tag, size: nat): Obj {
    match t
    case TInt => Int(size, 0)
    case TCell => Cell(size, NULL, NULL)
    case TSymbol => Symbol(size, "")
    case TPrimitive => Primitive(size, 0)
    case TFunction => Function(size, NULL, NULL, NULL)
    case TMacro => Macro(size, NULL, NULL, NULL)
    case TEnv => Env(size, NULL, NULL)
  }

  ghost function Identity(s: set<Addr>): Forwarding { map a | a in s :: a }

  lemma IdentityIsomorphic(g: Graph, s: set<Addr>)
    requires Closed(g, s) && forall a :: a in s ==> a in g.layout && a in g.mem
    ensures Isomorphic(g, g, Identity(s)) && Identity(s).Keys == s
  {
    var fwd := Identity(s);
    assert forall p :: Target(fwd, p) == p;
    assert fwd.Keys == s;
    forall a | a in fwd
      ensures CarriedOver(g, g, fwd, a)
    {
      assert g.mem[a] == Relocated(g.mem[a], fwd);
    }
  }

  /** Without a collection every reachable object stays where it is. */
  lemma StayingPut(g: Graph, to: Addr, used: nat)
    requires Setting(g, to, used)
    ensures Isomorphic(g, g, Identity(Live(g))) && Identity(Live(g)).Keys == Live(g)
    ensures LiveBytes(g) <= used
  {
    LiveClosed(g, to, used);
    BytesBound(g.mem, g.base, g.layout, g.base + used, Live(g));
    IdentityIsomorphic(g, Live(g));
  }

  /** The graph with one more object at the end of the heap. */
  ghost function Grown(h: Graph, used: nat, o: Obj): Graph {
    h.(mem := Store(h.mem, h.base + used, o), layout := h.layout + [h.base + used])
  }

  lemma GrownKeepsObjects(h: Graph, other: Addr, used: nat, o: Obj)
    requires Setting(h, other, used) && used + o.size <= h.limit && o.size > 0
    ensures h.base + used !in h.layout
    ensures forall a :: a in h.layout ==>
              a in h.mem && a in Grown(h, used, o).mem && Grown(h, used, o).mem[a] == h.mem[a]
  {
    TilesOrdered(h.mem, h.base, h.layout, h.base + used);
  }

  lemma GrownTiles(h: Graph, other: Addr, used: nat, o: Obj)
    requires Setting(h, other, used) && used + o.size <= h.limit && o.size > 0
    ensures var h' := Grown(h, used, o); Tiles(h'.mem, h'.base, h'.layout, h'.base + used + o.size)
  {
    var h', at := Grown(h, used, o), h.base + used;
    GrownKeepsObjects(h, other, used, o);
    TilesFrame(h.mem, h'.mem, h.base, h.layout, at);
    TilesAppend(h'.mem, h.base, h.layout, at);
  }

  lemma GrownSetting(h: Graph, other: Addr, used: nat, o: Obj)
    requires Setting(h, other, used) && used + o.size <= h.limit
    requires Regular(o) && FieldsOk(h, other, o)
    ensures Setting(Grown(h, used, o), other, used + o.size)
  {
    var h' := Grown(h, used, o);
    GrownTiles(h, other, used, o);
    GrownKeepsObjects(h, other, used, o);
    assert forall p :: PointerOk(h, other, p) ==> PointerOk(h', other, p);
    forall a | a in h'.layout
      ensures a in h'.mem && Regular(h'.mem[a]) && FieldsOk(h', other, h'.mem[a])
    {
      if a in h.layout {
        assert FieldsOk(h, other, h.mem[a]);
      }
    }
  }

  lemma GrownIsomorphic(g: Graph, h: Graph, other: Addr, used: nat, o: Obj, fwd: Forwarding)
    requires Setting(h, other, used) && used + o.size <= h.limit && o.size > 0
    requires Isomorphic(g, h, fwd)
    ensures Isomorphic(g, Grown(h, used, o), fwd)
    ensures Untargeted(fwd, h.base + used)
  {
    GrownKeepsObjects(h, other, used, o);
    forall a | a in fwd
      ensures CarriedOver(g, Grown(h, used, o), fwd, a) && fwd[a] != h.base + used
    {
      assert CarriedOver(g, h, fwd, a);
    }
  }

  lemma BlankShape(t: Tag, size: nat)
    ensures var o := Blank(t, size);
            o.size == size && !o.Moved? && forall i :: 0 <= i < |Fields(o)| ==> Fields(o)[i] == NULL
    ensures var o := Blank(t, size);
            match t {
              case TInt => o.Int?
              case TCell => o.Cell?
              case TSymbol => o.Symbol?
              case TPrimitive => o.Primitive?
              case TFunction => o.Function?
              case TMacro => o.Macro?
              case TEnv => o.Env?
            }
  {}

  /** Bumping the heap pointer over a new object, which must have room for a forwarding pointer. */
  lemma BumpOk(g: Graph, h: Graph, other: Addr, used: nat, o: Obj, fwd: Forwarding)
    requires Setting(h, other, used) && used + o.size <= h.limit && o.size > 0 && o.size % WORD == 0
    requires !o.Moved? && (forall i :: 0 <= i < |Fields(o)| ==> Fields(o)[i] == NULL) && Isomorphic(g, h, fwd)
    ensures var h' := Grown(h, used, o);
            && (Setting(h', other, used + o.size) <==> o.size >= HEADER + WORD)
            && Tiles(h'.mem, h'.base, h'.layout, h'.base + used + o.size)
            && Isomorphic(g, h', fwd) && Untargeted(fwd, h.base + used)
  {
    GrownTiles(h, other, used, o);
    GrownIsomorphic(g, h, other, used, o, fwd);
    if o.size >= HEADER + WORD {
      GrownSetting(h, other, used, o);
    } else {
      NoRoomToMove(h, other, used, o);
    }
  }

  lemma NoRoomToMove(h: Graph, other: Addr, used: nat, o: Obj)
    requires Setting(h, other, used) && !Regular(o)
    ensures !Setting(Grown(h, used, o), other, used + o.size)
  {
    var h' := Grown(h, used, o);
    assert h.base + used in h'.layout && h'.mem[h.base + used] == o;
  }

  /** Overwriting an object in place with one of the same size. */
  lemma RewriteSetting(h: Graph, other: Addr, used: nat, a: Addr, o: Obj)
    requires Setting(h, other, used) && a in h.layout && a in h.mem
    requires o.size == h.mem[a].size && !o.Moved? && FieldsOk(h, other, o)
    ensures Setting(h.(mem := h.mem[a := o]), other, used)
  {
    var h' := h.(mem := h.mem[a := o]);
    TilesFrame(h.mem, h'.mem, h.base, h.layout, h.base + used);
    forall b | b in h'.layout
      ensures b in h'.mem && Regular(h'.mem[b]) && FieldsOk(h', other, h'.mem[b])
    {
      assert FieldsOk(h, other, h.mem[b]);
      assert forall p :: PointerOk(h', other, p) == PointerOk(h, other, p);
    }
    forall f, i | 0 <= f < |h.frames| && 0 <= i < |h.frames[f]|
      ensures PointerOk(h', other, h.frames[f][i])
    {
      assert PointerOk(h, other, h.frames[f][i]);
    }
  }

  /** Filling in the fields of an object no forwarded pointer leads to. */
  lemma FillOk(g: Graph, h: Graph, other: Addr, used: nat, a: Addr, o: Obj, fwd: Forwarding)
    requires Setting(h, other, used) && Isomorphic(g, h, fwd)
    requires a in h.layout && a in h.mem && Untargeted(fwd, a)
    requires o.size == h.mem[a].size && !o.Moved? && FieldsOk(h, other, o)
    ensures Setting(h.(mem := h.mem[a := o]), other, used)
    ensures Isomorphic(g, h.(mem := h.mem[a := o]), fwd)
  {
    RewriteSetting(h, other, used, a, o);
    forall b | b in fwd
      ensures CarriedOver(g, h.(mem := h.mem[a := o]), fwd, b)
    {
      assert CarriedOver(g, h, fwd, b);
    }
  }

  /** What isomorphic heaps in the same pair of spaces have in common is all a program can see. */
  lemma Unseen(g: Graph, to: Addr, used: nat, h: Graph, used': nat, fwd: Forwarding)
    requires Setting(g, to, used) && h.limit == g.limit && (h.base == g.base || h.base == to)
    requires used' <= h.limit && Tiles(h.mem, h.base, h.layout, h.base + used') && Isomorphic(g, h, fwd)
    ensures Unobservable(g, h, fwd)
  {
    TilesOrdered(h.mem, h.base, h.layout, h.base + used');
    SharingKept(g, h, to, used, fwd);
  }

  // ---------------------------------------------------------------- arguments of the constructors

  /** A pointer to a root slot, or the address of a constant such as Nil. */
  datatype Arg = Root(start: Start) | Static(p: Addr)

  /** A slot that exists, or a constant outside both spaces. */
  predicate ArgOk(g: Graph, other: Addr, arg: Arg) {
    match arg
    case Root(s) => Exists(g, s)
    case Static(p) => !Managed(g, p) && !(other <= p < other + g.limit)
  }

  function ArgValue(g: Graph, arg: Arg): Addr
    requires arg.Root? ==> Exists(g, arg.start)
  {
    match arg
    case Root(s) => Begin(g, s)
    case Static(p) => p
  }

  /** After a move an argument still is one, and gives the image of what it gave before. */
  lemma ArgMoves(g: Graph, other: Addr, used: nat, h: Graph, other': Addr, fwd: Forwarding, arg: Arg)
    requires WellFormed(g, other, used) && Isomorphic(g, h, fwd) && ArgOk(g, other, arg)
    requires h.limit == g.limit && {h.base, other'} == {g.base, other}
    ensures ArgOk(h, other', arg) && ArgValue(h, arg) == Target(fwd, ArgValue(g, arg))
  {
    TilesOrdered(g.mem, g.base, g.layout, g.base + used);
    assert h.base in {g.base, other} && other' in {g.base, other};
  }

  lemma ArgPointerOk(h: Graph, other: Addr, used: nat, arg: Arg)
    requires WellFormed(h, other, used) && ArgOk(h, other, arg)
    ensures PointerOk(h, other, ArgValue(h, arg))
  {}
}
