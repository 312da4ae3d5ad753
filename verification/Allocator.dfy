/**
 The allocation block of one Lisp thread: two heaps, the bump pointer, the roots, and the
 operations that move objects between the heaps.
 */
module Allocator {
  import opened LispGraph
  import opened Collector

  class AllocBlock {
    var memory: Addr
    var from_space: Addr
    var mem_nused: nat
    var cur_heap: Addr
    var next_heap: Addr
    const memory_size: nat
    var gc_running: bool
    const always_gc: bool
    var Symbols: Addr

    var scan1: Addr
    var scan2: Addr

    var mem: Memory              // every byte of both heaps, as objects
    var frames: seq<seq<Addr>>   // the root frames on the C stack, innermost first
    ghost var layout: seq<Addr>  // addresses of the objects in the current heap

    ghost function GraphOf(): Graph
      reads this
    {
      Graph(mem, memory, memory_size, layout, Symbols, frames)
    }

    ghost predicate Valid()
      reads this
    {
      memory == cur_heap && !gc_running && Setting(GraphOf(), next_heap, mem_nused)
    }

    /** A collection of the graph `g` is under way and has reached `c`. */
    ghost predicate Collecting(g: Graph, used: nat, c: Copy)
      reads this
    {
      && from_space == g.base && memory_size == g.limit && mem == c.mem && scan2 == c.free
      && Setting(g, memory, used) && CopyInv(g, memory, c)
    }

    method Forward(obj: Addr, ghost g: Graph, ghost used: nat, ghost c: Copy)
      returns (r: Addr, ghost c': Copy)
      requires Collecting(g, used, c) && Forwardable(g, memory, c.live, obj)
      modifies `mem, `scan2
      ensures Collecting(g, used, c') && Extends(c, c')
      ensures Known(g, c'.fwd, obj) && r == Target(c'.fwd, obj)
    {
      Apart(g, memory, used, c);
      c' := c;
      var offset := obj - from_space;
      if offset < 0 || memory_size <= offset {
        return obj, c;
      }
      assert OriginalHolds(g, c, obj);
      if mem[obj].Moved? {
        return mem[obj].moved, c;
      }
      MoveKeeps(g, memory, used, c, obj);
      c' := MoveOne(c, obj);
      var newloc, o := scan2, mem[obj];
      mem := Store(mem, newloc, o);
      scan2 := scan2 + o.size;
      mem := mem[obj := Moved(o.size, newloc)];
      r := newloc;
    }

    method ForwardRootObjects(ghost g: Graph, ghost used: nat, ghost c: Copy) returns (ghost c': Copy)
      requires Collecting(g, used, c) && Symbols == g.symbols && frames == g.frames
      requires c.scanned == 0 && !c.busy
      modifies `mem, `scan2, `Symbols, `frames
      ensures Collecting(g, used, c') && c'.scanned == 0 && !c'.busy && c'.live == c.live
      ensures RootsKnown(g, c'.fwd) && Symbols == Target(c'.fwd, g.symbols)
      ensures FramesForwarded(g.frames, frames, c'.fwd)
    {
      RootForwardable(g, memory, used, c.live, Symbols);
      Symbols, c' := Forward(Symbols, g, used, c);
      var f := 0;
      while f < |frames|
        invariant 0 <= f <= |frames|
        invariant Collecting(g, used, c') && c'.scanned == 0 && !c'.busy && c'.live == c.live
        invariant RootsDone(g, c'.fwd, frames, f, 0)
        invariant Known(g, c'.fwd, g.symbols) && Symbols == Target(c'.fwd, g.symbols)
      {
        c' := ForwardFrame(f, g, used, c');
        f := f + 1;
      }
      RootsDoneAll(g, c'.fwd, frames);
    }

    /** The slots of one frame. */
    method ForwardFrame(f: nat, ghost g: Graph, ghost used: nat, ghost c: Copy) returns (ghost c': Copy)
      requires Collecting(g, used, c) && RootsDone(g, c.fwd, frames, f, 0)
      requires f < |frames| && Known(g, c.fwd, g.symbols)
      modifies `mem, `scan2, `frames
      ensures Collecting(g, used, c') && c'.scanned == c.scanned && c'.busy == c.busy && c'.live == c.live
      ensures RootsDone(g, c'.fwd, frames, f + 1, 0) && |frames| == |old(frames)|
      ensures Known(g, c'.fwd, g.symbols) && Target(c'.fwd, g.symbols) == Target(c.fwd, g.symbols)
    {
      c' := c;
      var i := 0;
      while i < |frames[f]|
        invariant |frames| == |old(frames)| && 0 <= i <= |frames[f]|
        invariant Collecting(g, used, c') && c'.scanned == c.scanned && c'.busy == c.busy && c'.live == c.live
        invariant RootsDone(g, c'.fwd, frames, f, i)
        invariant Known(g, c'.fwd, g.symbols) && Target(c'.fwd, g.symbols) == Target(c.fwd, g.symbols)
      {
        c' := ForwardSlot(f, i, g, used, c');
        i := i + 1;
      }
      RootsDoneFrame(g, c'.fwd, frames, f);
    }

    /** The body of the root loop: one slot of one frame, unless it is empty. */
    method ForwardSlot(f: nat, i: nat, ghost g: Graph, ghost used: nat, ghost c: Copy) returns (ghost c': Copy)
      requires Collecting(g, used, c) && RootsDone(g, c.fwd, frames, f, i)
      requires f < |frames| && i < |frames[f]| && Known(g, c.fwd, g.symbols)
      modifies `mem, `scan2, `frames
      ensures Collecting(g, used, c') && c'.scanned == c.scanned && c'.busy == c.busy && c'.live == c.live
      ensures RootsDone(g, c'.fwd, frames, f, i + 1)
      ensures Known(g, c'.fwd, g.symbols) && Target(c'.fwd, g.symbols) == Target(c.fwd, g.symbols)
    {
      var p := frames[f][i];
      assert p == g.frames[f][i] && !Before(f, i, f, i);
      if p != NULL {
        RootForwardable(g, memory, used, c.live, p);
        var q;
        q, c' := Forward(p, g, used, c);
        RootsDoneGrows(g, memory, used, c, c', frames, f, i);
        KnownGrows(g, memory, used, c, c', g.symbols);
        RootsDoneStep(g, c'.fwd, frames, f, i, q);
        frames := frames[f := frames[f][i := q]];
      } else {
        c' := c;
        Apart(g, memory, used, c);
        RootsDoneStep(g, c.fwd, frames, f, i, p);
        assert frames[f][i := p] == frames[f];
        assert frames[f := frames[f][i := p]] == frames;
      }
    }

    /** `scan1->field = forward(scan1->field)` for field number `n`. */
    method ForwardField(n: nat, ghost g: Graph, ghost used: nat, ghost c: Copy) returns (ghost c': Copy)
      requires Collecting(g, used, c) && Scanning(g, c, n) && scan1 == ScanAt(c)
      requires n < |Fields(g.mem[c.order[c.scanned]])|
      modifies `mem, `scan2
      ensures Collecting(g, used, c') && Scanning(g, c', n + 1) && scan1 == ScanAt(c')
      ensures Grows(c.fwd, c'.fwd) && c'.scanned == c.scanned && c'.live == c.live
      ensures c'.order[c.scanned] == c.order[c.scanned]
      ensures mem[scan1].size == old(mem[scan1]).size
    {
      FieldForwardable(g, memory, used, c, c.scanned, n);
      var p := Fields(mem[scan1])[n];
      var r;
      r, c' := Forward(p, g, used, c);
      FieldStored(g, memory, used, c, c', n, r);
      mem := mem[scan1 := SetField(mem[scan1], n, r)];
      c' := c'.(mem := mem);
    }

    /** The two pointers of a cell or of an environment, in order. */
    method ForwardPair(ghost g: Graph, ghost used: nat, ghost c: Copy) returns (ghost c': Copy)
      requires Collecting(g, used, c) && Scanning(g, c, 0) && scan1 == ScanAt(c)
      requires 2 <= |Fields(g.mem[c.order[c.scanned]])|
      modifies `mem, `scan2
      ensures Collecting(g, used, c') && Scanning(g, c', 2) && scan1 == ScanAt(c')
      ensures Grows(c.fwd, c'.fwd) && c'.scanned == c.scanned && c'.live == c.live
      ensures c'.order[c.scanned] == c.order[c.scanned]
    {
      c' := ForwardField(0, g, used, c);
      c' := ForwardField(1, g, used, c');
    }

    /** The three pointers of a function or of a macro, in order. */
    method ForwardTriple(ghost g: Graph, ghost used: nat, ghost c: Copy) returns (ghost c': Copy)
      requires Collecting(g, used, c) && Scanning(g, c, 0) && scan1 == ScanAt(c)
      requires 3 <= |Fields(g.mem[c.order[c.scanned]])|
      modifies `mem, `scan2
      ensures Collecting(g, used, c') && Scanning(g, c', 3) && scan1 == ScanAt(c')
      ensures Grows(c.fwd, c'.fwd) && c'.scanned == c.scanned && c'.live == c.live
      ensures c'.order[c.scanned] == c.order[c.scanned]
    {
      c' := ForwardPair(g, used, c);
      c' := ForwardField(2, g, used, c');
    }

    /** One turn of the scan loop: forwards the pointers of the copy at `scan1` and steps over it. */
    method ScanOne(ghost g: Graph, ghost used: nat, ghost c: Copy) returns (ghost c': Copy)
      requires Collecting(g, used, c) && !c.busy && scan1 == ScanAt(c) && scan1 < scan2
      modifies `mem, `scan1, `scan2
      ensures Collecting(g, used, c') && !c'.busy && scan1 == ScanAt(c')
      ensures Grows(c.fwd, c'.fwd) && c'.live == c.live && old(scan1) < scan1
    {
      ScanBegun(g, memory, used, c);
      c' := c.(busy := true);
      match mem[scan1] {
        case Int(_, _) =>
        case Symbol(_, _) =>
        case Primitive(_, _) =>
        case Cell(_, _, _) => c' := ForwardPair(g, used, c');
        case Function(_, _, _, _) => c' := ForwardTriple(g, used, c');
        case Macro(_, _, _, _) => c' := ForwardTriple(g, used, c');
        case Env(_, _, _) => c' := ForwardPair(g, used, c');
        case Moved(_, _) =>
          assert false;  // "Bug: copy: unknown type"
      }
      ScanFinished(g, memory, c', |Fields(g.mem[c'.order[c'.scanned]])|);
      c' := c'.(scanned := c'.scanned + 1, busy := false);
      scan1 := scan1 + mem[scan1].size;
    }

    /** The scan loop, from the roots' copies to the last object they lead to. */
    method ScanAll(ghost g: Graph, ghost used: nat, ghost c: Copy) returns (ghost c': Copy)
      requires Collecting(g, used, c) && !c.busy && scan1 == ScanAt(c)
      modifies `mem, `scan1, `scan2
      ensures Collecting(g, used, c') && !c'.busy && Grows(c.fwd, c'.fwd) && c'.live == c.live
      ensures scan1 == ScanAt(c') == scan2
    {
      c' := c;
      ScanBounds(g, memory, used, c');
      while scan1 < scan2
        invariant Collecting(g, used, c') && !c'.busy && scan1 == ScanAt(c')
        invariant Grows(c.fwd, c'.fwd) && c'.live == c.live
        invariant scan1 <= scan2 <= memory + used
        decreases memory + used - scan1
      {
        c' := ScanOne(g, used, c');
        ScanBounds(g, memory, used, c');
      }
    }

    /** Roots first, then everything they lead to. */
    method CopyLive(ghost g: Graph, ghost used: nat) returns (ghost c: Copy)
      requires Collecting(g, used, Fresh(g, memory)) && Symbols == g.symbols && frames == g.frames
      requires scan1 == scan2
      modifies `mem, `scan1, `scan2, `Symbols, `frames
      ensures mem == c.mem && scan1 == memory + LiveBytes(g) && LiveBytes(g) <= used
      ensures Setting(Result(g, memory, c, Symbols, frames), g.base, LiveBytes(g))
      ensures Isomorphic(g, Result(g, memory, c, Symbols, frames), c.fwd) && c.fwd.Keys == Live(g)
    {
      ghost var d := ForwardRootObjects(g, used, Fresh(g, memory));
      ScanStart(g, memory, d);
      c := ScanAll(g, used, d);
      RootsGrow(g, memory, used, d, c, frames);
      CollectionDone(g, memory, used, c, Symbols, frames);
    }

    /** Exchanges the two heaps and puts both scan pointers at the start of the new one. */
    method SwapHeaps()
      modifies `gc_running, `from_space, `memory, `next_heap, `cur_heap, `scan1, `scan2
      ensures gc_running && from_space == old(memory)
      ensures memory == cur_heap == old(next_heap) && next_heap == old(cur_heap)
      ensures scan1 == scan2 == memory
    {
      gc_running := true;
      from_space := memory;
      memory := next_heap;
      next_heap := cur_heap;
      cur_heap := memory;
      scan2 := memory;
      scan1 := scan2;
    }

    method Gc() returns (ghost fwd: Forwarding)
      requires Valid()
      modifies this
      ensures Valid()
      ensures memory == old(next_heap) && next_heap == old(cur_heap)
      ensures Isomorphic(old(GraphOf()), GraphOf(), fwd) && fwd.Keys == Live(old(GraphOf()))
      ensures Unobservable(old(GraphOf()), GraphOf(), fwd)
      ensures mem_nused == LiveBytes(old(GraphOf())) <= old(mem_nused)
    {
      ghost var g, used := GraphOf(), mem_nused;
      SwapHeaps();
      fwd := MoveAll(g, used);
      Unseen(g, memory, used, GraphOf(), mem_nused, fwd);
    }

    /** What follows the exchange of the heaps. */
    method MoveAll(ghost g: Graph, ghost used: nat) returns (ghost fwd: Forwarding)
      requires Setting(g, memory, used) && from_space == g.base && memory_size == g.limit && mem == g.mem
      requires Symbols == g.symbols && frames == g.frames && scan1 == scan2 == memory
      modifies `mem, `scan1, `scan2, `Symbols, `frames, `mem_nused, `gc_running, `layout
      ensures Setting(GraphOf(), g.base, mem_nused) && !gc_running && mem_nused == LiveBytes(g) <= used
      ensures Isomorphic(g, GraphOf(), fwd) && fwd.Keys == Live(g)
    {
      FreshInv(g, memory, used);
      ghost var c := CopyLive(g, used);
      fwd := c.fwd;
      mem_nused, gc_running, layout := scan1 - memory, false, c.dest;
      assert GraphOf() == Result(g, memory, c, Symbols, frames);
    }

    /** Will `alloc` collect before it takes `size` bytes? */
    predicate Collects(size: nat)
      reads `mem_nused
    {
      always_gc || memory_size < mem_nused + size
    }

    /** Collects if debugging asks for it, or if `size` more bytes do not fit; otherwise does nothing. */
    method MakeRoom(size: nat) returns (ghost fwd: Forwarding)
      requires Valid()
      modifies this
      ensures Valid()
      ensures Isomorphic(old(GraphOf()), GraphOf(), fwd) && fwd.Keys == Live(old(GraphOf()))
      ensures LiveBytes(old(GraphOf())) <= old(mem_nused)
      ensures if old(Collects(size))
              then memory == old(next_heap) && next_heap == old(memory) && mem_nused == LiveBytes(old(GraphOf()))
              else GraphOf() == old(GraphOf()) && next_heap == old(next_heap) && mem_nused == old(mem_nused)
    {
      fwd := Identity(Live(GraphOf()));
      StayingPut(GraphOf(), next_heap, mem_nused);
      if always_gc && !gc_running {
        fwd := Gc();
      } else if !always_gc && memory_size < mem_nused + size {
        fwd := Gc();
      }
    }

    /**
     `ok` is false when the source stops with "Memory exhausted". An empty payload leaves an object
     too small for its tombstone, and with it a heap that is no longer well formed.
     */
    method Alloc(t: Tag, payload: nat) returns (ok: bool, obj: Addr, ghost fwd: Forwarding)
      requires Valid()
      modifies this
      ensures Valid() <==> payload > 0 || !ok
      ensures if old(Collects(AllocSize(payload)))
              then memory == cur_heap == old(next_heap) && next_heap == old(memory)
              else memory == cur_heap == old(memory) && next_heap == old(next_heap)
      ensures mem_nused == (if old(Collects(AllocSize(payload))) then LiveBytes(old(GraphOf())) else old(mem_nused))
                           + if ok then AllocSize(payload) else 0
      ensures Isomorphic(old(GraphOf()), GraphOf(), fwd) && fwd.Keys == Live(old(GraphOf()))
      ensures Unobservable(old(GraphOf()), GraphOf(), fwd)
      ensures !ok <==> memory_size < LiveBytes(old(GraphOf())) + AllocSize(payload)
      ensures ok ==> |layout| > 0 && obj == layout[|layout| - 1] && Untargeted(fwd, obj)
      ensures ok ==> obj in mem && mem[obj].size == AllocSize(payload)
      ensures ok && t == TInt ==> mem[obj].Int?
      ensures ok && t == TCell ==> mem[obj].Cell?
      ensures ok && t == TSymbol ==> mem[obj].Symbol?
      ensures ok && t == TPrimitive ==> mem[obj].Primitive?
      ensures ok && t == TFunction ==> mem[obj].Function?
      ensures ok && t == TMacro ==> mem[obj].Macro?
      ensures ok && t == TEnv ==> mem[obj].Env?
    {
      ghost var g, other, used := GraphOf(), next_heap, mem_nused;
      var size := RoundUp(payload, WORD);
      size := size + HEADER;
      size := RoundUp(size, WORD);
      AllocSizeFits(payload);
      ok, obj, fwd := Take(t, size);
      BlankShape(t, size);
      Unseen(g, other, used, GraphOf(), mem_nused, fwd);
    }

    /** The part of `alloc` after the size is known. */
    method Take(t: Tag, size: nat) returns (ok: bool, obj: Addr, ghost fwd: Forwarding)
      requires Valid() && size > 0 && size % WORD == 0
      modifies this
      ensures Valid() <==> size >= HEADER + WORD || !ok
      ensures if old(Collects(size))
              then memory == cur_heap == old(next_heap) && next_heap == old(memory)
              else memory == cur_heap == old(memory) && next_heap == old(next_heap)
      ensures mem_nused == (if old(Collects(size)) then LiveBytes(old(GraphOf())) else old(mem_nused))
                           + if ok then size else 0
      ensures mem_nused <= memory_size && Tiles(mem, memory, layout, memory + mem_nused)
      ensures Isomorphic(old(GraphOf()), GraphOf(), fwd) && fwd.Keys == Live(old(GraphOf()))
      ensures !ok <==> memory_size < LiveBytes(old(GraphOf())) + size
      ensures ok ==> |layout| > 0 && obj == layout[|layout| - 1] && Untargeted(fwd, obj)
      ensures ok ==> obj in mem && mem[obj] == Blank(t, size)
    {
      ghost var g := GraphOf();
      fwd := MakeRoom(size);
      ok, obj := TryBump(t, size, g, fwd);
    }

    /** Takes `size` bytes at the end of the heap, or nothing if they do not fit. */
    method TryBump(t: Tag, size: nat, ghost g: Graph, ghost fwd: Forwarding) returns (ok: bool, obj: Addr)
      requires Valid() && size > 0 && size % WORD == 0 && Isomorphic(g, GraphOf(), fwd)
      modifies `mem, `mem_nused, `layout
      ensures ok <==> old(mem_nused) + size <= memory_size
      ensures (Valid() <==> size >= HEADER + WORD || !ok) && Isomorphic(g, GraphOf(), fwd)
      ensures mem_nused == old(mem_nused) + (if ok then size else 0)
      ensures mem_nused <= memory_size && Tiles(mem, memory, layout, memory + mem_nused)
      ensures ok ==> |layout| > 0 && obj == layout[|layout| - 1] && Untargeted(fwd, obj)
      ensures ok ==> obj in mem && mem[obj] == Blank(t, size)
    {
      if memory_size < mem_nused + size {
        return false, NULL;
      }
      ok := true;
      obj := Bump(t, size, g, fwd);
    }

    /** Takes `size` bytes at the end of the heap. */
    method Bump(t: Tag, size: nat, ghost g: Graph, ghost fwd: Forwarding) returns (obj: Addr)
      requires Valid() && mem_nused + size <= memory_size
      requires size % WORD == 0 && size > 0 && Isomorphic(g, GraphOf(), fwd)
      modifies `mem, `mem_nused, `layout
      ensures (Valid() <==> size >= HEADER + WORD) && Isomorphic(g, GraphOf(), fwd)
      ensures Tiles(mem, memory, layout, memory + mem_nused)
      ensures layout == old(layout) + [obj] && Untargeted(fwd, obj)
      ensures mem_nused == old(mem_nused) + size
      ensures obj in mem && mem[obj] == Blank(t, size)
    {
      BlankShape(t, size);
      BumpOk(g, GraphOf(), next_heap, mem_nused, Blank(t, size), fwd);
      obj := Place(t, size);
    }

    /** The stores that make the new object. */
    method Place(t: Tag, size: nat) returns (obj: Addr)
      modifies `mem, `mem_nused, `layout
      ensures obj == memory + old(mem_nused) && mem_nused == old(mem_nused) + size
      ensures layout == old(layout) + [obj] && obj in mem && mem[obj] == Blank(t, size)
      ensures GraphOf() == Grown(old(GraphOf()), old(mem_nused), Blank(t, size))
    {
      obj := memory + mem_nused;
      mem := Store(mem, obj, Blank(t, size));
      mem_nused := mem_nused + size;
      layout := layout + [obj];
    }

    /** The heap of a new Lisp thread; `nil` is the statically allocated empty list. */
    constructor (heap1: Addr, heap2: Addr, heap_size: nat, always: bool, nil: Addr)
      requires 0 < heap1 && 0 < heap2 && (heap1 + heap_size <= heap2 || heap2 + heap_size <= heap1)
      requires !(heap1 <= nil < heap1 + heap_size) && !(heap2 <= nil < heap2 + heap_size)
      ensures Valid() && mem_nused == 0 && cur_heap == heap1 && next_heap == heap2
      ensures memory_size == heap_size && frames == [] && Symbols == nil
    {
      cur_heap, next_heap, memory_size := heap1, heap2, heap_size;
      memory, mem_nused := heap1, 0;
      from_space, scan1, scan2 := NULL, NULL, NULL;
      gc_running, always_gc := false, always;
      Symbols, frames, mem, layout := nil, [], map[], [];
    }

    /** ADD_ROOT: a frame of empty slots for the pointers of one C function. */
    method PushFrame(n: nat)
      requires Valid()
      modifies `frames
      ensures Valid() && |frames| == |old(frames)| + 1 && frames[1..] == old(frames)
      ensures |frames[0]| == n && forall i :: 0 <= i < n ==> frames[0][i] == NULL
    {
      frames := [seq(n, _ => NULL)] + frames;
      assert forall f :: 1 <= f < |frames| ==> frames[f] == old(frames)[f - 1];
    }

    /** The C function returns and its frame is unlinked. */
    method PopFrame()
      requires Valid() && |frames| > 0
      modifies `frames
      ensures Valid() && frames == old(frames)[1..]
    {
      frames := frames[1..];
      assert forall f :: 0 <= f < |frames| ==> frames[f] == old(frames)[f + 1];
    }

    method SetSlot(f: nat, i: nat, p: Addr)
      requires Valid() && f < |frames| && i < |frames[f]| && PointerOk(GraphOf(), next_heap, p)
      modifies `frames
      ensures Valid() && frames == old(frames)[f := old(frames)[f][i := p]]
    {
      frames := frames[f := frames[f][i := p]];
      assert forall u, v :: 0 <= u < |frames| && 0 <= v < |frames[u]| && (u, v) != (f, i) ==>
          frames[u][v] == old(frames)[u][v];
    }

    /**
     Allocates a pair. The arguments are read after the allocation, which may have moved what the
     root slots point at: what is stored is the image of what they held before.
     */
    method Cons(car: Arg, cdr: Arg) returns (ok: bool, cell: Addr, ghost fwd: Forwarding)
      requires Valid() && ArgOk(GraphOf(), next_heap, car) && ArgOk(GraphOf(), next_heap, cdr)
      modifies this
      ensures Valid()
      ensures Isomorphic(old(GraphOf()), GraphOf(), fwd) && fwd.Keys == Live(old(GraphOf()))
      ensures !ok <==> memory_size < LiveBytes(old(GraphOf())) + AllocSize(2 * WORD)
      ensures ok ==> cell in layout && Untargeted(fwd, cell) && cell in mem && mem[cell].Cell?
      ensures ok ==> mem[cell].car == Target(fwd, old(ArgValue(GraphOf(), car)))
      ensures ok ==> mem[cell].cdr == Target(fwd, old(ArgValue(GraphOf(), cdr)))
    {
      ghost var g, other, used := GraphOf(), next_heap, mem_nused;
      ok, cell, fwd := Alloc(TCell, 2 * WORD);
      if ok {
        ArgMoves(g, other, used, GraphOf(), next_heap, fwd, car);
        ArgMoves(g, other, used, GraphOf(), next_heap, fwd, cdr);
        var a := Deref(car);
        var d := Deref(cdr);
        ArgPointerOk(GraphOf(), next_heap, mem_nused, car);
        ArgPointerOk(GraphOf(), next_heap, mem_nused, cdr);
        FillCell(cell, a, d, g, fwd);
      }
    }

    /** The stores that fill in a new pair. */
    method FillCell(cell: Addr, a: Addr, d: Addr, ghost g: Graph, ghost fwd: Forwarding)
      requires Valid() && Isomorphic(g, GraphOf(), fwd) && Untargeted(fwd, cell)
      requires cell in layout && cell in mem && mem[cell].Cell?
      requires PointerOk(GraphOf(), next_heap, a) && PointerOk(GraphOf(), next_heap, d)
      modifies `mem
      ensures Valid() && Isomorphic(g, GraphOf(), fwd)
      ensures cell in mem && mem[cell] == Cell(old(mem)[cell].size, a, d)
    {
      FillOk(g, GraphOf(), next_heap, mem_nused, cell, Cell(mem[cell].size, a, d), fwd);
      mem := mem[cell := Cell(mem[cell].size, a, d)];
    }

    method Deref(arg: Arg) returns (p: Addr)
      requires arg.Root? ==> Exists(GraphOf(), arg.start)
      ensures p == ArgValue(GraphOf(), arg)
    {
      match arg
      case Static(q) => p := q;
      case Root(s) =>
        match s
        case SymbolList => p := Symbols;
        case Slot(f, i) => p := frames[f][i];
    }
  }
}
