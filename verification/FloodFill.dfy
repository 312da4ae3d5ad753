/**
 Distances in the maze, by relaxation: every change of a cell raises an event, and every event
 is answered by looking at the neighbours of its cell.
 */
module FloodFill {
  import opened Bitmap
  import opened MazeMap

  const FAR: nat := 255   // the largest unsigned char

  // ---------------------------------------------------------------- cells

  // Cell (x, y) of a maze of side n has number y * n + x.

  function CellIndex(n: nat, x: nat, y: nat): nat { Rows(n, y) + x }

  /** y * n, which is how many cells there are in y rows. */
  function Rows(n: nat, y: nat): nat { if y == 0 then 0 else Rows(n, y - 1) + n }

  lemma {:induction false} RowsIsProduct(n: nat, y: nat)
    ensures Rows(n, y) == y * n
  {
    if y > 0 {
      RowsIsProduct(n, y - 1);
      assert y * n == (y - 1) * n + n;
    }
  }

  function Row(n: nat, c: nat): nat
    requires n > 0
  {
    c / n
  }

  function Col(n: nat, c: nat): nat
    requires n > 0
  {
    c % n
  }

  lemma IndexCoords(n: nat, x: nat, y: nat)
    requires x < n && y < n
    ensures CellIndex(n, x, y) < n * n
    ensures Row(n, CellIndex(n, x, y)) == y && Col(n, CellIndex(n, x, y)) == x
  {
    RowsIsProduct(n, y);
    StepUp(y, n, n);
    DivModUnique(CellIndex(n, x, y), n, y, x);
  }

  lemma DivModUnique(c: nat, n: nat, q: nat, r: nat)
    requires r < n && c == q * n + r
    ensures c / n == q && c % n == r
  {
    assert c == (c / n) * n + c % n;
    SplitUnique(c / n, c % n, q, r, n);
  }

  lemma CellOfIndex(width: nat, height: nat, c: nat)
    requires c < width * height
    ensures width > 0 && height > 0 && c / width < height && CellIndex(width, c % width, c / width) == c
  {
    if width > 0 {
      assert c == (c / width) * width + c % width;
      if c / width >= height { MulMono(height, c / width, width); }
      RowsIsProduct(width, c / width);
    }
  }

  lemma CoordsInside(n: nat, c: nat)
    requires c < n * n
    ensures n > 0 && Row(n, c) < n && Col(n, c) < n && CellIndex(n, Col(n, c), Row(n, c)) == c
  {
    if n > 0 {
      assert c == (c / n) * n + c % n;
      StepUp(n - 1, c / n, n);
      RowsIsProduct(n, c / n);
    }
  }

  /**
   The solver finds x as index % Height: with a stride of Width that gives back every cell
   exactly if the maze is square.
   */
  lemma DecodeExact(width: nat, height: nat)
    requires width >= 1 && height >= 1
    ensures (forall x, y :: 0 <= x < width && 0 <= y < height ==> CellIndex(width, x, y) % height == x)
            <==> width == height
  {
    if width == height {
      forall x, y | 0 <= x < width && 0 <= y < height
        ensures CellIndex(width, x, y) % height == x
      {
        IndexCoords(width, x, y);
      }
    } else if width < height {
      RowsIsProduct(width, 1);
      assert CellIndex(width, 0, 1) == width;
      assert CellIndex(width, 0, 1) % height != 0;
    } else {
      assert CellIndex(width, height, 0) == height;
      assert CellIndex(width, height, 0) % height != height;
    }
  }

  /** In a maze of the default size, 4 by 5, the cell (0, 1) is taken for (4, 1), which does not exist. */
  lemma DecodeDefault()
    ensures CellIndex(4, 0, 1) % 5 == 4 && CellIndex(4, 0, 1) / 4 == 1
  {
    RowsIsProduct(4, 1);
  }

  function Next(n: nat, c: int, dir: Direction): int {
    match dir case NORTH => c + n case SOUTH => c - n case EAST => c + 1 case WEST => c - 1
  }

  ghost predicate Maze(v: View) { v.Roomy() && v.width == v.height }

  function Cells(v: View): nat { v.width * v.width }

  predicate IsOpen(v: View, c: nat, dir: Direction)
    requires v.Roomy()
  {
    !GetWall(v, Col(v.width, c), Row(v.width, c), dir)
  }

  lemma NextRow(n: nat, x: nat, y: nat)
    ensures CellIndex(n, x, y + 1) == CellIndex(n, x, y) + n
  {}

  /** An opening leads to a cell of the maze, and back. */
  lemma OpenLeads(v: View, c: nat, dir: Direction)
    requires Maze(v) && c < Cells(v) && IsOpen(v, c, dir)
    ensures 0 <= Next(v.width, c, dir) < Cells(v) && Next(v.width, c, dir) != c
    ensures IsOpen(v, Next(v.width, c, dir), Opposite(dir))
    ensures Next(v.width, Next(v.width, c, dir), Opposite(dir)) == c
  {
    CoordsInside(v.width, c);
    var x, y := Col(v.width, c), Row(v.width, c);
    NeighbourOf(v, x, y, dir);
    var nx, ny := Beside(x, y, dir).0, Beside(x, y, dir).1;
    IndexCoords(v.width, nx, ny);
    assert EdgeOf(nx, ny, Opposite(dir)) == EdgeOf(x, y, dir);
  }

  ghost predicate Adjacent(v: View, c: nat, d: nat)
    requires v.Roomy()
  {
    exists dir :: IsOpen(v, c, dir) && d == Next(v.width, c, dir)
  }

  lemma AdjacentSymmetric(v: View, c: nat, d: nat)
    requires Maze(v) && c < Cells(v) && Adjacent(v, c, d)
    ensures d < Cells(v) && d != c && Adjacent(v, d, c)
  {
    var dir :| IsOpen(v, c, dir) && d == Next(v.width, c, dir);
    OpenLeads(v, c, dir);
  }

  /** There is an open path of n steps between cell c and a destination. */
  ghost predicate Reach(v: View, goals: set<nat>, c: nat, n: nat)
    requires v.Roomy()
    decreases n
  {
    if n == 0 then c in goals
    else exists b: nat :: b < Cells(v) && Adjacent(v, b, c) && Reach(v, goals, b, n - 1)
  }

  /** `d` is the length of a shortest open path to a destination, or 255 if that is longer or there is none. */
  ghost predicate IsDistance(v: View, goals: set<nat>, c: nat, d: nat)
    requires v.Roomy()
  {
    && d <= FAR
    && (d < FAR ==> Reach(v, goals, c, d))
    && (forall n: nat :: Reach(v, goals, c, n) ==> d <= n)
  }

  /** The same seen from the other end: an open path of n steps from cell c to a destination. */
  ghost predicate Leads(v: View, goals: set<nat>, c: nat, n: nat)
    requires v.Roomy()
    decreases n
  {
    if n == 0 then c in goals
    else exists b: nat :: b < Cells(v) && Adjacent(v, c, b) && Leads(v, goals, b, n - 1)
  }

  /** A path can be walked either way, so the distance to a destination is the distance from it. */
  lemma {:induction false} EitherWay(v: View, goals: set<nat>, c: nat, n: nat)
    requires Maze(v) && c < Cells(v)
    ensures Reach(v, goals, c, n) <==> Leads(v, goals, c, n)
    decreases n
  {
    if n > 0 {
      forall b: nat | b < Cells(v)
        ensures Adjacent(v, b, c) && Reach(v, goals, b, n - 1) <==> Adjacent(v, c, b) && Leads(v, goals, b, n - 1)
      {
        EitherWay(v, goals, b, n - 1);
        if Adjacent(v, b, c) { AdjacentSymmetric(v, b, c); }
        if Adjacent(v, c, b) { AdjacentSymmetric(v, c, b); }
      }
    }
  }

  // ---------------------------------------------------------------- relaxation

  /** The flood map and the cells with an event pending. */
  datatype Flood = Flood(fm: seq<nat>, ev: set<nat>)

  /** Everything in range, no value below a real path, destinations at zero. */
  ghost predicate Sound(v: View, goals: set<nat>, f: Flood)
    requires v.Roomy()
  {
    && |f.fm| == Cells(v) && (forall c :: c in f.ev ==> c < Cells(v))
    && (forall c :: 0 <= c < Cells(v) ==> f.fm[c] <= FAR && (f.fm[c] < FAR ==> Reach(v, goals, c, f.fm[c])))
    && (forall c :: c in goals ==> c < Cells(v) && f.fm[c] == 0)
  }

  /** The neighbour of `c` in direction `dir` is at most one further than `c`. */
  ghost predicate SettledTo(v: View, f: Flood, c: nat, dir: Direction)
    requires v.Roomy() && c < |f.fm|
  {
    IsOpen(v, c, dir) ==> 0 <= Next(v.width, c, dir) < |f.fm| ==> f.fm[Next(v.width, c, dir)] <= f.fm[c] + 1
  }

  ghost predicate Settled(v: View, f: Flood, c: nat)
    requires v.Roomy() && c < |f.fm|
  {
    forall dir :: SettledTo(v, f, c, dir)
  }

  /** Cells without an event are settled, with `busy` as a possible exception. */
  ghost predicate AllSettled(v: View, f: Flood, busy: int)
    requires v.Roomy()
  {
    forall c :: 0 <= c < |f.fm| && c !in f.ev && c != busy ==> Settled(v, f, c)
  }

  /** What the solver does to one neighbour. */
  function Relax(f: Flood, c: nat, d: nat): Flood
    requires c < |f.fm| && d < |f.fm|
  {
    if f.fm[d] > f.fm[c] then Flood(f.fm[d := f.fm[c] + 1], f.ev + {d}) else f
  }

  lemma RelaxSound(v: View, goals: set<nat>, f: Flood, c: nat, dir: Direction)
    requires Maze(v) && Sound(v, goals, f) && c < Cells(v) && IsOpen(v, c, dir)
    ensures 0 <= Next(v.width, c, dir) < Cells(v) && Next(v.width, c, dir) != c
    ensures Sound(v, goals, Relax(f, c, Next(v.width, c, dir)))
  {
    OpenLeads(v, c, dir);
    if f.fm[c] < FAR { ReachOn(v, goals, c, dir, f.fm[c]); }
    LowerSound(v, goals, f, c, Next(v.width, c, dir));
  }

  /** A cell may be lowered to the length of a path to it. */
  lemma LowerSound(v: View, goals: set<nat>, f: Flood, c: nat, d: nat)
    requires v.Roomy() && Sound(v, goals, f) && c < Cells(v) && d < Cells(v)
    requires f.fm[c] < FAR ==> Reach(v, goals, d, f.fm[c] + 1)
    ensures Sound(v, goals, Relax(f, c, d))
  {}

  lemma ReachOn(v: View, goals: set<nat>, c: nat, dir: Direction, n: nat)
    requires v.Roomy() && c < Cells(v) && IsOpen(v, c, dir) && Reach(v, goals, c, n) && 0 <= Next(v.width, c, dir)
    ensures Reach(v, goals, Next(v.width, c, dir), n + 1)
  {
    assert Adjacent(v, c, Next(v.width, c, dir));
  }

  /** Lowering one cell unsettles no other, and values only go down. */
  lemma RelaxSettled(v: View, f: Flood, c: nat, dir: Direction, busy: int)
    requires Maze(v) && |f.fm| == Cells(v) && c < Cells(v) && IsOpen(v, c, dir)
    requires 0 <= Next(v.width, c, dir) < Cells(v) && Next(v.width, c, dir) != c
    requires AllSettled(v, f, busy)
    ensures var f' := Relax(f, c, Next(v.width, c, dir));
            && AllSettled(v, f', busy) && f'.fm[c] == f.fm[c] && SettledTo(v, f', c, dir)
            && forall e :: SettledTo(v, f, c, e) ==> SettledTo(v, f', c, e)
  {
    var d := Next(v.width, c, dir);
    var f' := Relax(f, c, d);
    forall a | 0 <= a < |f'.fm| && a !in f'.ev && a != busy
      ensures Settled(v, f', a)
    {
      assert Settled(v, f, a);
      forall e
        ensures SettledTo(v, f', a, e)
      {
        assert SettledTo(v, f, a, e);
      }
    }
  }

  lemma StepBounds(v: View, f: Flood, b: nat, c: nat)
    requires v.Roomy() && AllSettled(v, f, -1) && f.ev == {} && b < |f.fm| && c < |f.fm| && Adjacent(v, b, c)
    ensures f.fm[c] <= f.fm[b] + 1
  {
    var dir :| IsOpen(v, b, dir) && c == Next(v.width, b, dir);
    assert Settled(v, f, b) && SettledTo(v, f, b, dir);
  }

  lemma {:induction false} PathBounds(v: View, goals: set<nat>, f: Flood, c: nat, n: nat)
    requires Maze(v) && Sound(v, goals, f) && AllSettled(v, f, -1) && f.ev == {}
    requires c < Cells(v) && Reach(v, goals, c, n)
    ensures f.fm[c] <= n
    decreases n
  {
    if n > 0 {
      var b: nat :| b < Cells(v) && Adjacent(v, b, c) && Reach(v, goals, b, n - 1);
      PathBounds(v, goals, f, b, n - 1);
      StepBounds(v, f, b, c);
    }
  }

  /** With no events left, every cell holds its distance. */
  lemma DoneIsDistance(v: View, goals: set<nat>, f: Flood)
    requires Maze(v) && Sound(v, goals, f) && AllSettled(v, f, -1) && f.ev == {}
    ensures forall c :: 0 <= c < Cells(v) ==> IsDistance(v, goals, c, f.fm[c])
  {
    forall c | 0 <= c < Cells(v)
      ensures IsDistance(v, goals, c, f.fm[c])
    {
      forall n: nat | Reach(v, goals, c, n)
        ensures f.fm[c] <= n
      {
        PathBounds(v, goals, f, c, n);
      }
    }
  }

  // ---------------------------------------------------------------- termination

  // An event at value v is answered by at most four events at value v + 1, so give it five
  // times their weight.

  function Pow5(k: nat): (r: nat)
    ensures r >= 1
  {
    if k == 0 then 1 else 5 * Pow5(k - 1)
  }

  function Term(f: Flood, i: nat): nat
    requires i < |f.fm|
  {
    if i in f.ev && f.fm[i] <= FAR then Pow5(FAR + 1 - f.fm[i]) else 0
  }

  function Load(f: Flood, k: nat): nat
    requires k <= |f.fm|
  {
    if k == 0 then 0 else Load(f, k - 1) + Term(f, k - 1)
  }

  /** Changing one cell changes the load by the change of its term. */
  lemma {:induction false} LoadChange(f: Flood, f': Flood, d: nat, k: nat)
    requires |f'.fm| == |f.fm| && d < |f.fm| && k <= |f.fm|
    requires forall i :: 0 <= i < |f.fm| && i != d ==> f'.fm[i] == f.fm[i] && (i in f'.ev <==> i in f.ev)
    ensures Load(f', k) == Load(f, k) + if d < k then Term(f', d) - Term(f, d) else 0
    decreases k
  {
    if k > 0 { LoadChange(f, f', d, k - 1); }
  }

  /** At most one event more, one step further out. */
  function Extra(f: Flood, c: nat): nat
    requires c < |f.fm|
  {
    if f.fm[c] < FAR then Pow5(FAR - f.fm[c]) else 0
  }

  lemma RelaxLoad(f: Flood, c: nat, d: nat)
    requires c < |f.fm| && d < |f.fm| && f.fm[d] <= FAR
    ensures Load(Relax(f, c, d), |f.fm|) <= Load(f, |f.fm|) + Extra(f, c)
  {
    if f.fm[d] > f.fm[c] { LoadChange(f, Relax(f, c, d), d, |f.fm|); }
  }

  lemma TakeLoad(f: Flood, c: nat)
    requires c < |f.fm| && c in f.ev && f.fm[c] <= FAR
    ensures Load(f.(ev := f.ev - {c}), |f.fm|) == Load(f, |f.fm|) - Pow5(FAR + 1 - f.fm[c])
  {
    LoadChange(f, f.(ev := f.ev - {c}), c, |f.fm|);
  }

  /** The flood after one direction has been looked at. */
  ghost predicate Visited(v: View, f: Flood, c: nat, dir: Direction, f': Flood)
    requires v.Roomy() && c < |f.fm|
  {
    if IsOpen(v, c, dir)
    then 0 <= Next(v.width, c, dir) < |f.fm| && f' == Relax(f, c, Next(v.width, c, dir))
    else f' == f
  }

  lemma VisitKeeps(v: View, goals: set<nat>, f: Flood, c: nat, dir: Direction, f': Flood)
    requires Maze(v) && Sound(v, goals, f) && AllSettled(v, f, c) && c < Cells(v) && Visited(v, f, c, dir, f')
    ensures Sound(v, goals, f') && AllSettled(v, f', c) && f'.fm[c] == f.fm[c]
    ensures SettledTo(v, f', c, dir) && forall e :: SettledTo(v, f, c, e) ==> SettledTo(v, f', c, e)
    ensures Load(f', Cells(v)) <= Load(f, Cells(v)) + Extra(f, c)
  {
    if IsOpen(v, c, dir) {
      RelaxSound(v, goals, f, c, dir);
      RelaxSettled(v, f, c, dir, c);
      RelaxLoad(f, c, Next(v.width, c, dir));
    }
  }

  /** A cell with all four neighbours looked at is settled. */
  lemma FourVisits(v: View, f: Flood, c: nat)
    requires v.Roomy() && c < |f.fm| && AllSettled(v, f, c)
    requires SettledTo(v, f, c, EAST) && SettledTo(v, f, c, WEST)
    requires SettledTo(v, f, c, NORTH) && SettledTo(v, f, c, SOUTH)
    ensures AllSettled(v, f, -1)
  {
    forall dir
      ensures SettledTo(v, f, c, dir)
    {
      match dir case EAST => case WEST => case NORTH => case SOUTH =>
    }
    assert Settled(v, f, c);
  }

  // ---------------------------------------------------------------- the solver

  class FloodMap {
    var Width: nat
    var Height: nat
    var Values: array<nat>      // FloodMap
    var EventMap: array<Word>

    ghost predicate Sized()
      reads this
    {
      && Values.Length == Width * Height && EventMap.Length == BitmapSize(Width * Height)
      && Values as object != EventMap
    }

    /** The arrays hold the flood `f`. */
    ghost predicate Holds(f: Flood)
      reads this, Values, EventMap
    {
      && Sized() && Values[..] == f.fm
      && (forall i :: 0 <= i < WORD_SIZE * EventMap.Length ==> (On(EventMap[..], i) <==> i in f.ev))
      && (forall i :: i in f.ev ==> i < Width * Height)
    }

    constructor (width: nat, height: nat, mapBuff: array<nat>, eventBuff: array<Word>)
      ensures Width == width && Height == height && Values == mapBuff && EventMap == eventBuff
    {
      Width, Height, Values, EventMap := width, height, mapBuff, eventBuff;
    }

    /** The value of a cell; everything outside is far. */
    method FloodFillGet(x: nat, y: nat) returns (r: nat)
      requires Sized()
      ensures x < Width && y < Height ==> CellIndex(Width, x, y) < Values.Length && r == Values[CellIndex(Width, x, y)]
      ensures !(x < Width && y < Height) ==> r == FAR
    {
      if x >= Width || y >= Height {
        return FAR;
      }
      CellInside(x, y);
      return Values[CellIndex(Width, x, y)];
    }

    lemma CellInside(x: nat, y: nat)
      requires x < Width && y < Height
      ensures CellIndex(Width, x, y) < Width * Height
    {
      StepUp(y, Height, Width);
      RowsIsProduct(Width, y);
    }

    method FloodFillSet(x: nat, y: nat, value: nat)
      requires Sized()
      modifies Values
      ensures x < Width && y < Height ==>
                var c := CellIndex(Width, x, y);
                c < Values.Length && Values[..] == old(Values[..])[c := value % 256]
      ensures !(x < Width && y < Height) ==> Values[..] == old(Values[..])
    {
      if x >= Width || y >= Height {
        return;
      }
      CellInside(x, y);
      Values[CellIndex(Width, x, y)] := value % 256;
    }

    method FloodNewEvent(x: nat, y: nat, ghost f: Flood)
      requires Holds(f)
      modifies EventMap
      ensures Holds(if x < Width && y < Height then f.(ev := f.ev + {CellIndex(Width, x, y)}) else f)
    {
      if x >= Width || y >= Height {
        return;
      }
      CellInside(x, y);
      BitmapSizeLeast(Width * Height);
      BitmapOn(EventMap, 0, CellIndex(Width, x, y));
    }

    /**
     Takes the first event, if any, with its coordinates decoded as the source does; they are -1
     if there is none, and those of the event's cell if the maze is square.
     */
    method FloodGetEvent(ghost f: Flood) returns (x: int, y: int, ghost c: nat)
      requires Holds(f)
      modifies EventMap
      ensures x == -1 <==> y == -1
      ensures x == -1 ==> f.ev == {} && Holds(f)
      ensures x != -1 ==> 0 <= x && 0 <= y < Height && 0 < Width && x == c % Height && y == c / Width
      ensures x != -1 ==> c in f.ev && Holds(f.(ev := f.ev - {c}))
      ensures x != -1 && Width == Height ==> x < Width && c == CellIndex(Width, x, y)
    {
      x, y, c := -1, -1, 0;
      var index := FirstEvent(f);
      if index != -1 {
        c := index;
        x, y := Decode(index);
        ClearEvent(index, f);
      }
    }

    /** The first event in the bitmap, or -1. */
    method FirstEvent(ghost f: Flood) returns (index: int)
      requires Holds(f)
      ensures -1 <= index && (index == -1 ==> f.ev == {})
      ensures index != -1 ==> index in f.ev && index < Width * Height
    {
      index := BitmapGetFirstFlag(EventMap, Width * Height);
      if index == -1 { NoEvents(f); }
    }

    method Decode(index: nat) returns (x: nat, y: nat)
      requires index < Width * Height
      ensures 0 < Width && 0 < Height && x == index % Height && y == index / Width < Height
      ensures Width == Height ==> x < Width && index == CellIndex(Width, x, y)
    {
      CellOfIndex(Width, Height, index);
      y := index / Width;
      x := index % Height;
    }

    method ClearEvent(index: nat, ghost f: Flood)
      requires Holds(f) && index in f.ev
      modifies EventMap
      ensures Holds(f.(ev := f.ev - {index}))
    {
      BitmapSizeLeast(Width * Height);
      BitmapOff(EventMap, 0, index);
    }

    lemma NoEvents(f: Flood)
      requires Holds(f) && forall i :: 0 <= i < WORD_SIZE * EventMap.Length ==> !On(EventMap[..], i)
      ensures f.ev == {}
    {
      BitmapSizeLeast(Width * Height);
      forall i: nat ensures i !in f.ev {
        if i < WORD_SIZE * EventMap.Length { assert !On(EventMap[..], i); }
      }
    }

    /** This flood map belongs to the maze `v` stored in `map`. */
    ghost predicate For(walls: Map, v: View)
      reads this, walls, walls.wallBuff
    {
      && walls.Look() == v && Maze(v) && Width == Height == v.width
      && walls.wallBuff != EventMap && walls.wallBuff as object != Values
    }

    /** One of the four tests of the loop: look at a neighbour, lower it and raise its event. */
    method Visit(walls: Map, x: nat, y: nat, dir: Direction, curValue: nat, ghost v: View, ghost f: Flood, ghost c: nat)
      returns (ghost f': Flood)
      requires For(walls, v) && Holds(f) && x < Width && y < Height && c == CellIndex(Width, x, y)
      requires c < |f.fm| && curValue == f.fm[c] && forall i :: 0 <= i < |f.fm| ==> f.fm[i] <= FAR
      modifies Values, EventMap
      ensures For(walls, v) && Holds(f') && Visited(v, f, c, dir, f')
    {
      f' := f;
      IndexCoords(Width, x, y);
      if !walls.MapGetWall(x, y, dir) {
        NeighbourOf(v, x, y, dir);
        var (nx, ny) := Beside(x, y, dir);
        ghost var d := CellIndex(Width, nx, ny);
        Lower(nx, ny, curValue, f, c, d);
        f' := Relax(f, c, d);
      }
    }

    method Lower(nx: nat, ny: nat, curValue: nat, ghost f: Flood, ghost c: nat, ghost d: nat)
      requires Holds(f) && nx < Width && ny < Height && d == CellIndex(Width, nx, ny) < |f.fm|
      requires c < |f.fm| && curValue == f.fm[c] && f.fm[d] <= FAR
      modifies Values, EventMap
      ensures Holds(Relax(f, c, d))
    {
      var r := FloodFillGet(nx, ny);
      if r > curValue {
        FloodFillSet(nx, ny, curValue + 1);
        FloodNewEvent(nx, ny, Flood(f.fm[d := f.fm[c] + 1], f.ev));
      }
    }

    /** Answers one event: looks at the four neighbours of its cell. */
    method Answer(walls: Map, x: nat, y: nat, ghost v: View, ghost goals: set<nat>, ghost f: Flood, ghost c: nat)
      returns (ghost f4: Flood)
      requires For(walls, v) && Holds(f) && x < Width && y < Height && c == CellIndex(Width, x, y) < Cells(v)
      requires Sound(v, goals, f) && AllSettled(v, f, c)
      modifies Values, EventMap
      ensures For(walls, v) && Holds(f4)
      ensures Sound(v, goals, f4) && AllSettled(v, f4, -1)
      ensures Load(f4, Cells(v)) <= Load(f, Cells(v)) + 4 * Extra(f, c)
    {
      var curValue := FloodFillGet(x, y);
      ghost var f1 := Visit(walls, x, y, EAST, curValue, v, f, c);
      VisitKeeps(v, goals, f, c, EAST, f1);
      ghost var f2 := Visit(walls, x, y, WEST, curValue, v, f1, c);
      VisitKeeps(v, goals, f1, c, WEST, f2);
      ghost var f3 := Visit(walls, x, y, NORTH, curValue, v, f2, c);
      VisitKeeps(v, goals, f2, c, NORTH, f3);
      f4 := Visit(walls, x, y, SOUTH, curValue, v, f3, c);
      VisitKeeps(v, goals, f3, c, SOUTH, f4);
      FourVisits(v, f4, c);
    }

    method SetFar(x: nat, y: nat)
      requires Sized() && x < Width && y < Height
      modifies Values
      ensures CellFar(x, y) && forall k :: 0 <= k < Values.Length && old(Values[k]) == FAR ==> Values[k] == FAR
    {
      ghost var was := Values[..];
      FloodFillSet(x, y, FAR);
      assert forall k :: 0 <= k < Values.Length ==> Values[k] == Values[..][k];
    }

    method ClearColumn(x: nat)
      requires Sized() && x < Width
      modifies Values
      ensures forall k :: 0 <= k < Values.Length && old(Values[k]) == FAR ==> Values[k] == FAR
      ensures forall j :: 0 <= j < Height ==> CellFar(x, j)
    {
      var y := 0;
      while y < Height
        invariant 0 <= y <= Height
        invariant forall k :: 0 <= k < Values.Length && old(Values[k]) == FAR ==> Values[k] == FAR
        invariant forall j :: 0 <= j < y ==> CellFar(x, j)
      {
        label Before:
        SetFar(x, y);
        forall j | 0 <= j < y
          ensures CellFar(x, j)
        {
          assert old@Before(CellFar(x, j));
        }
        y := y + 1;
      }
    }

    method ClearEvents()
      requires Sized()
      modifies EventMap
      ensures Holds(Flood(Values[..], {}))
    {
      BitmapClear(EventMap, Width * Height);
    }

    method FloodFillClear()
      requires Sized()
      modifies Values, EventMap
      ensures Holds(Flood(Values[..], {})) && forall c :: 0 <= c < Values.Length ==> Values[c] == FAR
    {
      var x := 0;
      while x < Width
        invariant 0 <= x <= Width
        invariant forall i, j :: 0 <= i < x && 0 <= j < Height ==> CellFar(i, j)
        modifies Values
      {
        label Before:
        ClearColumn(x);
        forall i, j | 0 <= i < x && 0 <= j < Height
          ensures CellFar(i, j)
        {
          assert old@Before(CellFar(i, j));
        }
        x := x + 1;
      }
      AllFar();
      ClearEvents();
    }

    lemma AllFar()
      requires Sized()
      requires forall i, j :: 0 <= i < Width && 0 <= j < Height ==> CellFar(i, j)
      ensures forall c :: 0 <= c < Values.Length ==> Values[c] == FAR
    {
      forall c | 0 <= c < Values.Length
        ensures Values[c] == FAR
      {
        CellOfIndex(Width, Height, c);
        assert CellFar(c % Width, c / Width);
      }
    }

    ghost predicate CellFar(x: nat, y: nat)
      reads this, Values
    {
      CellIndex(Width, x, y) < Values.Length ==> Values[CellIndex(Width, x, y)] == FAR
    }

    method FloodFillSetDestination(x: nat, y: nat, ghost f: Flood)
      requires Holds(f)
      modifies Values, EventMap
      ensures if x < Width && y < Height
              then CellIndex(Width, x, y) < |f.fm| && Holds(WithGoal(f, CellIndex(Width, x, y)))
              else Holds(f)
    {
      if x < Width && y < Height { CellInside(x, y); }
      FloodFillSet(x, y, 0);
      FloodNewEvent(x, y, if x < Width && y < Height then f.(fm := f.fm[CellIndex(Width, x, y) := 0]) else f);
    }

    /** How the unit is used: clear, set the destinations, calculate. */
    method Solve(walls: Map, dests: seq<(nat, nat)>, ghost v: View) returns (ghost goals: set<nat>)
      requires For(walls, v) && Sized()
      modifies Values, EventMap
      ensures forall c :: c in goals <==> exists i :: 0 <= i < |dests| && IsCell(Width, Height, dests[i], c)
      ensures Sized() && Values.Length == Cells(v)
      ensures forall c :: 0 <= c < Cells(v) ==> IsDistance(v, goals, c, Values[c])
    {
      FloodFillClear();
      ghost var f := Flood(Values[..], {});
      var k := 0;
      while k < |dests|
        invariant 0 <= k <= |dests| && For(walls, v) && Holds(f) && Prepared(v, Goals(Width, Height, dests, k), f)
      {
        var (x, y) := dests[k];
        FloodFillSetDestination(x, y, f);
        if x < Width && y < Height {
          f := WithGoal(f, CellIndex(Width, x, y));
        }
        k := k + 1;
      }
      goals := Goals(Width, Height, dests, k);
      forall c ensures c in goals <==> exists i :: 0 <= i < |dests| && IsCell(Width, Height, dests[i], c) {
        GoalsAre(Width, Height, dests, k, c);
      }
      FloodFillCalculate(walls, v, goals);
    }

    /** After a clear and any number of destinations, leaves every cell at its distance. */
    method FloodFillCalculate(walls: Map, ghost v: View, ghost goals: set<nat>)
      requires For(walls, v) && Holds(Flood(Values[..], goals)) && Prepared(v, goals, Flood(Values[..], goals))
      modifies Values, EventMap
      ensures Sized() && Values.Length == Cells(v)
      ensures forall c :: 0 <= c < Cells(v) ==> IsDistance(v, goals, c, Values[c])
    {
      ghost var f := Flood(Values[..], goals);
      PreparedOk(v, goals, f);
      while true
        invariant For(walls, v) && Holds(f) && Sound(v, goals, f) && AllSettled(v, f, -1)
        decreases Load(f, Cells(v))
      {
        var x, y, c := FloodGetEvent(f);
        if x == -1 && y == -1 {
          DoneIsDistance(v, goals, f);
          return;
        }
        ghost var f1 := f.(ev := f.ev - {c});
        Taken(v, goals, f, c);
        f := Answer(walls, x, y, v, goals, f1, c);
      }
    }
  }

  /** Taking the event of cell c: only c may now be unsettled, and the load drops by more than the answer adds. */
  lemma Taken(v: View, goals: set<nat>, f: Flood, c: nat)
    requires v.Roomy() && Sound(v, goals, f) && AllSettled(v, f, -1) && c in f.ev
    ensures var f1 := f.(ev := f.ev - {c});
            && c < Cells(v) && Sound(v, goals, f1) && AllSettled(v, f1, c)
            && Load(f1, Cells(v)) + 4 * Extra(f1, c) < Load(f, Cells(v))
  {
    TakeLoad(f, c);
    TakenSettled(v, f, c);
  }

  lemma TakenSettled(v: View, f: Flood, c: nat)
    requires v.Roomy() && AllSettled(v, f, -1)
    ensures AllSettled(v, f.(ev := f.ev - {c}), c)
  {
    var f1 := f.(ev := f.ev - {c});
    forall a | 0 <= a < |f1.fm| && a !in f1.ev && a != c
      ensures Settled(v, f1, a)
    {
      assert Settled(v, f, a);
      assert forall dir :: SettledTo(v, f, a, dir) ==> SettledTo(v, f1, a, dir);
    }
  }

  /** The coordinates next to (x, y). */
  function Beside(x: int, y: int, dir: Direction): (int, int) {
    match dir case NORTH => (x, y + 1) case SOUTH => (x, y - 1) case EAST => (x + 1, y) case WEST => (x - 1, y)
  }

  lemma NeighbourOf(v: View, x: nat, y: nat, dir: Direction)
    requires Maze(v) && x < v.width && y < v.width && !GetWall(v, x, y, dir)
    ensures var (nx, ny) := Beside(x, y, dir);
            && 0 <= nx < v.width && 0 <= ny < v.width
            && CellIndex(v.width, nx, ny) == Next(v.width, CellIndex(v.width, x, y), dir)
            && CellIndex(v.width, nx, ny) < Cells(v)
  {
    var (nx, ny) := Beside(x, y, dir);
    assert v.Inner(EdgeOf(x, y, dir));
    IndexCoords(v.width, nx, ny);
    match dir {
      case NORTH => NextRow(v.width, x, y);
      case SOUTH => NextRow(v.width, x, y - 1);
      case EAST =>
      case WEST =>
    }
  }

  /** The destination is inside the maze and has number c. */
  ghost predicate IsCell(width: nat, height: nat, d: (nat, nat), c: nat)
  {
    d.0 < width && d.1 < height && c == CellIndex(width, d.0, d.1)
  }

  /** The cells of the first k destinations that are inside the maze. */
  ghost function Goals(width: nat, height: nat, dests: seq<(nat, nat)>, k: nat): set<nat>
    requires k <= |dests|
  {
    if k == 0 then {}
    else
      var (x, y) := dests[k - 1];
      Goals(width, height, dests, k - 1) + if x < width && y < height then {CellIndex(width, x, y)} else {}
  }

  lemma {:induction false} GoalsAre(width: nat, height: nat, dests: seq<(nat, nat)>, k: nat, c: nat)
    requires k <= |dests|
    ensures c in Goals(width, height, dests, k) <==> exists i :: 0 <= i < k && IsCell(width, height, dests[i], c)
  {
    if k > 0 {
      GoalsAre(width, height, dests, k - 1, c);
      assert IsCell(width, height, dests[k - 1], c) ==> exists i :: 0 <= i < k && IsCell(width, height, dests[i], c);
    }
  }

  /** One more destination, at zero and with its event raised. */
  function WithGoal(f: Flood, c: nat): Flood
    requires c < |f.fm|
  {
    Flood(f.fm[c := 0], f.ev + {c})
  }

  /** All cells far, destinations at zero with their events raised. */
  ghost predicate Prepared(v: View, goals: set<nat>, f: Flood) {
    && |f.fm| == Cells(v) && f.ev == goals && (forall c :: c in goals ==> c < Cells(v))
    && (forall c :: 0 <= c < Cells(v) ==> f.fm[c] == if c in goals then 0 else FAR)
  }

  lemma PreparedOk(v: View, goals: set<nat>, f: Flood)
    requires Maze(v) && Prepared(v, goals, f)
    ensures Sound(v, goals, f) && AllSettled(v, f, -1)
  {}
}
