/**
 The object graph the Lisp collector works on: sized objects at byte addresses inside
 one semi-space, the roots (the symbol list and the C stack frames), reachability, and
 what it means for two graphs to be the same up to the addresses of their objects.
 */
module LispGraph {

  type Addr = int

  const NULL: Addr := 0
  const WORD := 8        // sizeof(void *)
  const HEADER := 8      // offsetof(Obj, value): the type and size fields

  datatype Tag = TInt | TCell | TSymbol | TPrimitive | TFunction | TMacro | TEnv

  datatype Obj =
    | Int(size: nat, value: int)
    | Cell(size: nat, car: Addr, cdr: Addr)
    | Symbol(size: nat, name: string)
    | Primitive(size: nat, fn: int)
    | Function(size: nat, params: Addr, body: Addr, env: Addr)
    | Macro(size: nat, params: Addr, body: Addr, env: Addr)
    | Env(size: nat, vars: Addr, up: Addr)
    | Moved(size: nat, moved: Addr)

  type Memory = map<Addr, Obj>

  function Fields(o: Obj): seq<Addr> {
    match o
    case Cell(_, a, d) => [a, d]
    case Function(_, p, b, e) => [p, b, e]
    case Macro(_, p, b, e) => [p, b, e]
    case Env(_, v, u) => [v, u]
    case _ => []
  }

  /** An object as the allocator leaves it: word-sized, with room for a forwarding pointer. */
  predicate Regular(o: Obj) {
    o.size % WORD == 0 && o.size >= HEADER + WORD && !o.Moved?
  }

  // ---------------------------------------------------------------- tiling

  /** The objects at the addresses of `layout` fill [base, end) back to back. */
  ghost predicate Tiles(mem: Memory, base: Addr, layout: seq<Addr>, end: Addr)
    decreases |layout|
  {
    if layout == [] then base == end
    else
      var a := layout[|layout| - 1];
      a in mem && mem[a].size > 0 && a + mem[a].size == end
      && Tiles(mem, base, layout[..|layout| - 1], a)
  }

  lemma {:induction false} TilesOrdered(mem: Memory, base: Addr, layout: seq<Addr>, end: Addr)
    requires Tiles(mem, base, layout, end)
    ensures base <= end
    ensures forall a :: a in layout ==> a in mem && base <= a && a + mem[a].size <= end
    ensures forall i, j :: 0 <= i < j < |layout| ==>
                              layout[i] in mem && layout[i] + mem[layout[i]].size <= layout[j] && layout[i] < layout[j]
    decreases |layout|
  {
    if layout != [] {
      var init, a := layout[..|layout| - 1], layout[|layout| - 1];
      TilesOrdered(mem, base, init, a);
      assert layout == init + [a];
      forall i, j | 0 <= i < j < |layout|
        ensures layout[i] in mem && layout[i] + mem[layout[i]].size <= layout[j] && layout[i] < layout[j]
      {
        assert layout[i] == init[i];
        if j < |init| { assert layout[j] == init[j]; }
      }
    }
  }

  lemma {:induction false} TilesFrame(mem: Memory, mem': Memory, base: Addr, layout: seq<Addr>, end: Addr)
    requires Tiles(mem, base, layout, end)
    requires forall a :: a in layout && a in mem ==> a in mem' && mem'[a].size == mem[a].size
    ensures Tiles(mem', base, layout, end)
    decreases |layout|
  {
    if layout != [] {
      var init, a := layout[..|layout| - 1], layout[|layout| - 1];
      assert a in layout;
      assert forall b :: b in init ==> b in layout;
      TilesFrame(mem, mem', base, init, a);
    }
  }

  lemma TilesAppend(mem: Memory, base: Addr, layout: seq<Addr>, a: Addr)
    requires Tiles(mem, base, layout, a)
    requires a in mem && mem[a].size > 0
    ensures Tiles(mem, base, layout + [a], a + mem[a].size)
  {
    assert (layout + [a])[..|layout + [a]| - 1] == layout;
  }

  /** Bytes of the objects of `layout` whose address is in `s`. */
  ghost function Bytes(mem: Memory, layout: seq<Addr>, s: set<Addr>): nat
    decreases |layout|
  {
    if layout == [] then 0
    else
      var a := layout[|layout| - 1];
      Bytes(mem, layout[..|layout| - 1], s) + if a in mem && a in s then mem[a].size else 0
  }

  lemma {:induction false} BytesBound(mem: Memory, base: Addr, layout: seq<Addr>, end: Addr, s: set<Addr>)
    requires Tiles(mem, base, layout, end)
    ensures Bytes(mem, layout, s) <= end - base
    decreases |layout|
  {
    if layout != [] {
      BytesBound(mem, base, layout[..|layout| - 1], layout[|layout| - 1], s);
    }
  }

  /** Adding one unseen object to the set adds exactly its size. */
  lemma {:induction false} BytesAdd(mem: Memory, base: Addr, layout: seq<Addr>, end: Addr, s: set<Addr>, a: Addr)
    requires Tiles(mem, base, layout, end)
    requires a !in s
    ensures a in layout ==> a in mem && Bytes(mem, layout, s + {a}) == Bytes(mem, layout, s) + mem[a].size
    ensures a !in layout ==> Bytes(mem, layout, s + {a}) == Bytes(mem, layout, s)
    decreases |layout|
  {
    if layout != [] {
      var init, b := layout[..|layout| - 1], layout[|layout| - 1];
      TilesOrdered(mem, base, init, b);
      assert layout == init + [b];
      BytesAdd(mem, base, init, b, s, a);
    }
  }

  // ---------------------------------------------------------------- graphs and reachability

  /** One semi-space [base, base + limit) with its objects, and the roots. */
  datatype Graph = Graph(mem: Memory, base: Addr, limit: nat, layout: seq<Addr>,
                         symbols: Addr, frames: seq<seq<Addr>>)

  predicate Managed(g: Graph, a: Addr) { g.base <= a < g.base + g.limit }

  ghost predicate IsRoot(g: Graph, a: Addr) {
    a == g.symbols || exists f, i :: 0 <= f < |g.frames| && 0 <= i < |g.frames[f]| && g.frames[f][i] == a
  }

  /** A pointer a program may hold: an object of this space, or something outside both spaces. */
  ghost predicate PointerOk(g: Graph, other: Addr, p: Addr) {
    p in g.layout || (!Managed(g, p) && !(other <= p < other + g.limit))
  }

  ghost predicate FieldsOk(g: Graph, other: Addr, o: Obj) {
    forall i :: 0 <= i < |Fields(o)| ==> PointerOk(g, other, Fields(o)[i])
  }

  ghost predicate WellFormed(g: Graph, other: Addr, used: nat) {
    && used <= g.limit
    && Tiles(g.mem, g.base, g.layout, g.base + used)
    && (forall a :: a in g.layout ==> a in g.mem && Regular(g.mem[a]) && FieldsOk(g, other, g.mem[a]))
    && PointerOk(g, other, g.symbols)
    && (forall f, i :: 0 <= f < |g.frames| && 0 <= i < |g.frames[f]| ==> PointerOk(g, other, g.frames[f][i]))
  }

  /** `p` runs along fields from a root; every object on it lies in the space. */
  ghost predicate Path(g: Graph, p: seq<Addr>) {
    && |p| > 0 && IsRoot(g, p[0])
    && (forall i :: 0 <= i < |p| ==> p[i] in g.layout && p[i] in g.mem)
    && (forall i :: 0 <= i < |p| - 1 ==> p[i + 1] in Fields(g.mem[p[i]]))
  }

  ghost predicate PathTo(g: Graph, p: seq<Addr>, a: Addr) { Path(g, p) && p[|p| - 1] == a }

  ghost predicate Reachable(g: Graph, a: Addr) { exists p :: PathTo(g, p, a) }

  ghost function Live(g: Graph): set<Addr> { set a | a in g.layout && Reachable(g, a) }

  ghost function LiveBytes(g: Graph): nat { Bytes(g.mem, g.layout, Live(g)) }

  lemma RootReachable(g: Graph, a: Addr)
    requires IsRoot(g, a) && a in g.layout && a in g.mem
    ensures Reachable(g, a)
  {
    assert PathTo(g, [a], a);
  }

  lemma FieldReachable(g: Graph, a: Addr, b: Addr)
    requires Reachable(g, a) && a in g.mem && b in Fields(g.mem[a]) && b in g.layout && b in g.mem
    ensures Reachable(g, b)
  {
    var p :| PathTo(g, p, a);
    assert PathTo(g, p + [b], b);
  }

  /** The pointers of `o` into the space lead into `s`. */
  ghost predicate LeadsInto(g: Graph, s: set<Addr>, o: Obj) {
    forall i :: 0 <= i < |Fields(o)| && Fields(o)[i] in g.layout ==> Fields(o)[i] in s
  }

  /** `s` holds the roots and is closed under fields. */
  ghost predicate Closed(g: Graph, s: set<Addr>) {
    && (g.symbols in g.layout ==> g.symbols in s)
    && (forall f, i :: 0 <= f < |g.frames| && 0 <= i < |g.frames[f]| && g.frames[f][i] in g.layout ==>
          g.frames[f][i] in s)
    && (forall a :: a in s && a in g.mem ==> LeadsInto(g, s, g.mem[a]))
  }

  lemma {:induction false} ClosedHoldsPath(g: Graph, s: set<Addr>, p: seq<Addr>, k: nat)
    requires Path(g, p) && k < |p| && Closed(g, s)
    ensures p[k] in s
    decreases k
  {
    if k > 0 {
      ClosedHoldsPath(g, s, p, k - 1);
      var a := p[k - 1];
      assert a in s && a in g.mem && LeadsInto(g, s, g.mem[a]);
      assert p[k - 1 + 1] in Fields(g.mem[a]);
    }
  }

  /** The reachable objects are the least closed set. */
  lemma ClosedHoldsLive(g: Graph, s: set<Addr>)
    requires Closed(g, s)
    ensures Live(g) <= s
  {
    forall a | a in Live(g)
      ensures a in s
    {
      var p :| PathTo(g, p, a);
      ClosedHoldsPath(g, s, p, |p| - 1);
    }
  }

  // ---------------------------------------------------------------- isomorphism

  type Forwarding = map<Addr, Addr>

  ghost predicate Untargeted(fwd: Forwarding, b: Addr) { forall a :: a in fwd ==> fwd[a] != b }

  function Target(fwd: Forwarding, p: Addr): Addr { if p in fwd then fwd[p] else p }

  /** The object with every pointer replaced by its forwarded address. */
  function Relocated(o: Obj, fwd: Forwarding): Obj {
    match o
    case Cell(n, a, d) => Cell(n, Target(fwd, a), Target(fwd, d))
    case Function(n, p, b, e) => Function(n, Target(fwd, p), Target(fwd, b), Target(fwd, e))
    case Macro(n, p, b, e) => Macro(n, Target(fwd, p), Target(fwd, b), Target(fwd, e))
    case Env(n, v, u) => Env(n, Target(fwd, v), Target(fwd, u))
    case _ => o
  }

  ghost predicate FramesForwarded(fs: seq<seq<Addr>>, fs': seq<seq<Addr>>, fwd: Forwarding) {
    && |fs'| == |fs|
    && (forall f :: 0 <= f < |fs| ==> |fs'[f]| == |fs[f]|)
    && (forall f, i :: 0 <= f < |fs| && 0 <= i < |fs[f]| ==> fs'[f][i] == Target(fwd, fs[f][i]))
  }

  ghost predicate CarriedOver(g: Graph, h: Graph, fwd: Forwarding, a: Addr)
    requires a in fwd
  {
    && a in g.mem && fwd[a] in h.layout && fwd[a] in h.mem
    && h.mem[fwd[a]] == Relocated(g.mem[a], fwd)
  }

  /**
   `fwd` carries a part of `g` that is closed under roots and fields onto `h`: it keeps distinct
   objects distinct, and every root and field follows it.
   */
  ghost predicate Isomorphic(g: Graph, h: Graph, fwd: Forwarding) {
    && Closed(g, fwd.Keys) && (forall a :: a in fwd ==> a in g.layout)
    && (forall a, b :: a in fwd && b in fwd && fwd[a] == fwd[b] ==> a == b)
    && (forall a :: a in fwd ==> CarriedOver(g, h, fwd, a))
    && h.symbols == Target(fwd, g.symbols)
    && FramesForwarded(g.frames, h.frames, fwd)
  }

  // What a Lisp program can observe: start at a root, follow fields by position.

  datatype Start = SymbolList | Slot(frame: nat, slot: nat)

  datatype Seen = Nothing | Foreign(p: Addr) | Object(a: Addr)

  predicate Exists(g: Graph, s: Start) {
    s.Slot? ==> s.frame < |g.frames| && s.slot < |g.frames[s.frame]|
  }

  function Begin(g: Graph, s: Start): Addr
    requires Exists(g, s)
  {
    match s
    case SymbolList => g.symbols
    case Slot(f, i) => g.frames[f][i]
  }

  ghost function Look(g: Graph, p: Addr): Seen { if p in g.layout then Object(p) else Foreign(p) }

  /** Where the access path `way` (field positions, last one last) leads from root `s`. */
  ghost function Follow(g: Graph, s: Start, way: seq<nat>): Seen
    decreases |way|
  {
    if way == [] then (if Exists(g, s) then Look(g, Begin(g, s)) else Nothing)
    else
      var before := Follow(g, s, way[..|way| - 1]);
      var k := way[|way| - 1];
      if before.Object? && before.a in g.mem && k < |Fields(g.mem[before.a])|
      then Look(g, Fields(g.mem[before.a])[k])
      else Nothing
  }

  ghost function Image(fwd: Forwarding, s: Seen): Seen {
    if s.Object? then Object(Target(fwd, s.a)) else s
  }

  lemma FieldsRelocated(o: Obj, fwd: Forwarding)
    ensures |Fields(Relocated(o, fwd))| == |Fields(o)|
    ensures forall k :: 0 <= k < |Fields(o)| ==> Fields(Relocated(o, fwd))[k] == Target(fwd, Fields(o)[k])
  {}

  /**
   Following any access path in the two graphs leads to corresponding places: both lead
   nowhere, or to the same foreign pointer, or to an object and its image.
   */
  lemma {:induction false} SamePaths(g: Graph, h: Graph, other: Addr, used: nat, fwd: Forwarding,
                                     s: Start, way: seq<nat>)
    requires WellFormed(g, other, used) && Isomorphic(g, h, fwd)
    requires forall b :: b in h.layout ==> Managed(g, b) || other <= b < other + g.limit
    ensures Follow(h, s, way) == Image(fwd, Follow(g, s, way))
    ensures Follow(g, s, way).Object? ==> Follow(g, s, way).a in fwd
    decreases |way|
  {
    if way == [] {
      if Exists(g, s) {
        var p := Begin(g, s);
        assert IsRoot(g, p) && Begin(h, s) == Target(fwd, p);
        SameLook(g, h, other, used, fwd, p);
      }
    } else {
      var init, k := way[..|way| - 1], way[|way| - 1];
      SamePaths(g, h, other, used, fwd, s, init);
      var before := Follow(g, s, init);
      if before.Object? {
        var a := before.a;
        assert CarriedOver(g, h, fwd, a);
        FieldsRelocated(g.mem[a], fwd);
        if k < |Fields(g.mem[a])| {
          assert FieldsOk(g, other, g.mem[a]) && LeadsInto(g, fwd.Keys, g.mem[a]);
          SameLook(g, h, other, used, fwd, Fields(g.mem[a])[k]);
        }
      }
    }
  }

  lemma SameLook(g: Graph, h: Graph, other: Addr, used: nat, fwd: Forwarding, p: Addr)
    requires WellFormed(g, other, used) && Isomorphic(g, h, fwd)
    requires forall b :: b in h.layout ==> Managed(g, b) || other <= b < other + g.limit
    requires PointerOk(g, other, p)
    requires p in g.layout ==> p in fwd
    ensures Look(h, Target(fwd, p)) == Image(fwd, Look(g, p))
  {
    if p in fwd { assert CarriedOver(g, h, fwd, p); }
  }

  /**
   The step from `g` to `h` cannot be observed: every access path leads to corresponding places,
   objects met on it have the same type, size and payload, and two paths meet in one object after
   exactly when they did before (sharing, including cycles, is kept).
   */
  ghost predicate Unobservable(g: Graph, h: Graph, fwd: Forwarding) {
    && (forall s, way :: SeenAlike(g, h, fwd, s, way))
    && (forall s, way, t, way' :: MeetAlike(g, h, s, way, t, way'))
  }

  ghost predicate SeenAlike(g: Graph, h: Graph, fwd: Forwarding, s: Start, way: seq<nat>) {
    var u := Follow(g, s, way);
    && Follow(h, s, way) == Image(fwd, u)
    && (u.Object? ==> u.a in fwd && CarriedOver(g, h, fwd, u.a))
  }

  ghost predicate MeetAlike(g: Graph, h: Graph, s: Start, way: seq<nat>, t: Start, way': seq<nat>) {
    Follow(g, s, way) == Follow(g, t, way') <==> Follow(h, s, way) == Follow(h, t, way')
  }

  lemma ImagesApart(fwd: Forwarding, u: Seen, u': Seen)
    requires forall a, b :: a in fwd && b in fwd && fwd[a] == fwd[b] ==> a == b
    requires (u.Object? ==> u.a in fwd) && (u'.Object? ==> u'.a in fwd)
    ensures Image(fwd, u) == Image(fwd, u') <==> u == u'
  {}

  /** An isomorphism between two heaps in the same pair of spaces cannot be observed. */
  lemma SharingKept(g: Graph, h: Graph, other: Addr, used: nat, fwd: Forwarding)
    requires WellFormed(g, other, used) && Isomorphic(g, h, fwd)
    requires forall b :: b in h.layout ==> Managed(g, b) || other <= b < other + g.limit
    ensures Unobservable(g, h, fwd)
  {
    forall s, way ensures SeenAlike(g, h, fwd, s, way) {
      SamePaths(g, h, other, used, fwd, s, way);
      var u := Follow(g, s, way);
      if u.Object? { assert CarriedOver(g, h, fwd, u.a); }
    }
    forall s, way, t, way' ensures MeetAlike(g, h, s, way, t, way') {
      assert SeenAlike(g, h, fwd, s, way) && SeenAlike(g, h, fwd, t, way');
      ImagesApart(fwd, Follow(g, s, way), Follow(g, t, way'));
    }
  }
}
