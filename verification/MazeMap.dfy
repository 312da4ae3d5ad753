/**
 The maze: one bit for each inner wall, the outer walls implied.
 */
module MazeMap {
  import opened Bitmap

  datatype Direction = NORTH | EAST | SOUTH | WEST

  /** A wall position: horizontal walls are numbered along x, vertical ones along y. */
  datatype Edge = Edge(horizontal: bool, major: nat, minor: nat)

  function EdgeOf(x: nat, y: nat, dir: Direction): Edge {
    match dir
    case NORTH => Edge(true, x, y + 1)
    case SOUTH => Edge(true, x, y)
    case EAST => Edge(false, y, x + 1)
    case WEST => Edge(false, y, x)
  }

  function Opposite(dir: Direction): Direction {
    match dir case NORTH => SOUTH case SOUTH => NORTH case EAST => WEST case WEST => EAST
  }

  /** How many inner walls there are along one axis: MapBitsNeeded. */
  function BitsNeeded(major: nat, minor: nat): nat
    requires minor >= 1
  {
    major * (minor - 1)
  }

  /** The wall buffer: vertical walls from word 0, horizontal ones from word `hbase`. */
  datatype View = View(words: seq<Word>, hbase: nat, width: nat, height: nat) {

    function MajorSize(e: Edge): nat { if e.horizontal then width else height }
    function MinorSize(e: Edge): nat { if e.horizontal then height else width }

    predicate Inner(e: Edge) { 0 < e.minor < MinorSize(e) && e.major < MajorSize(e) }

    function Index(e: Edge): nat
      requires Inner(e)
    {
      e.major * (MinorSize(e) - 1) + e.minor - 1
    }

    function Base(e: Edge): nat { if e.horizontal then hbase else 0 }

    /** The two tables fit into the buffer without overlapping; a maze of one row has no horizontal walls. */
    predicate Roomy() {
      && width >= 1 && height >= 1
      && BitsNeeded(height, width) <= WORD_SIZE * |words|
      && (height > 1 ==>
            && BitsNeeded(height, width) <= WORD_SIZE * hbase
            && WORD_SIZE * hbase + BitsNeeded(width, height) <= WORD_SIZE * |words|)
    }
  }

  lemma StepUp(a: nat, b: nat, m: nat)
    ensures a < b ==> a * m + m <= b * m
  {
    if a < b {
      MulMono(a + 1, b, m);
      assert (a + 1) * m == a * m + m;
    }
  }

  lemma MulMono(a: nat, b: nat, m: nat)
    requires a <= b
    ensures a * m <= b * m
  {}

  lemma IndexBound(major: nat, minor: nat, majorSize: nat, m: nat)
    requires major < majorSize && 0 < minor <= m
    ensures major * m + minor - 1 < majorSize * m
  {
    StepUp(major, majorSize, m);
  }

  lemma IndexInRange(v: View, e: Edge)
    requires v.Roomy() && v.Inner(e)
    ensures v.Index(e) < BitsNeeded(v.MajorSize(e), v.MinorSize(e))
    ensures WORD_SIZE * v.Base(e) + v.Index(e) < WORD_SIZE * |v.words|
  {
    IndexBound(e.major, e.minor, v.MajorSize(e), v.MinorSize(e) - 1);
  }

  lemma SplitUnique(a: nat, r: nat, b: nat, s: nat, m: nat)
    requires r < m && s < m && a * m + r == b * m + s
    ensures a == b && r == s
  {
    StepUp(a, b, m);
    StepUp(b, a, m);
  }

  function BitOf(v: View, e: Edge): nat
    requires v.Inner(e)
  {
    WORD_SIZE * v.Base(e) + v.Index(e)
  }

  /** Every inner wall has a bit of its own. */
  lemma BitsApart(v: View, e: Edge, f: Edge)
    requires v.Roomy() && v.Inner(e) && v.Inner(f) && BitOf(v, e) == BitOf(v, f)
    ensures e == f
  {
    IndexInRange(v, e);
    IndexInRange(v, f);
    if e.horizontal == f.horizontal {
      SplitUnique(e.major, e.minor - 1, f.major, f.minor - 1, v.MinorSize(e) - 1);
    }
  }

  /** Every inner wall has a bit in the buffer, and no two have the same one. */
  ghost predicate Fits(v: View)
  {
    && (forall e :: v.Inner(e) ==> BitOf(v, e) < WORD_SIZE * |v.words|)
    && (forall e, f :: v.Inner(e) && v.Inner(f) && BitOf(v, e) == BitOf(v, f) ==> e == f)
  }

  /** The last inner wall of a table has the last bit of the table. */
  lemma LastIndex(v: View, horizontal: bool)
    requires v.width >= 1 && v.height >= 1 && (if horizontal then v.height > 1 else v.width > 1)
    ensures var e := Edge(horizontal, (if horizontal then v.width else v.height) - 1,
                          (if horizontal then v.height else v.width) - 1);
            v.Inner(e) && v.Index(e) == BitsNeeded(v.MajorSize(e), v.MinorSize(e)) - 1
  {
    var n, m := if horizontal then v.width else v.height, (if horizontal then v.height else v.width) - 1;
    assert n * m == (n - 1) * m + m;
  }

  /** Every bit of the vertical table belongs to a wall. */
  lemma VerticalAt(v: View, k: nat)
    requires v.width > 1 && k < BitsNeeded(v.height, v.width)
    ensures var e := Edge(false, k / (v.width - 1), k % (v.width - 1) + 1);
            v.Inner(e) && BitOf(v, e) == k
  {
    var m := v.width - 1;
    assert k == (k / m) * m + k % m;
    if k / m >= v.height { MulMono(v.height, k / m, m); }
  }

  /** If the vertical table reaches the horizontal one, the first horizontal wall shares its bit. */
  lemma TablesCollide(v: View)
    requires v.width >= 1 && v.height > 1 && WORD_SIZE * v.hbase < BitsNeeded(v.height, v.width)
    ensures !Fits(v)
  {
    VerticalAt(v, WORD_SIZE * v.hbase);
    var e, f := Edge(false, WORD_SIZE * v.hbase / (v.width - 1), WORD_SIZE * v.hbase % (v.width - 1) + 1),
                Edge(true, 0, 1);
    assert v.Inner(e) && v.Inner(f) && BitOf(v, e) == BitOf(v, f) && e != f;
  }

  /** Having room is exactly what every wall needs to have a bit of its own. */
  lemma FitsIffRoomy(v: View)
    requires v.width >= 1 && v.height >= 1
    ensures Fits(v) <==> v.Roomy()
  {
    if v.Roomy() {
      forall e | v.Inner(e) ensures BitOf(v, e) < WORD_SIZE * |v.words| { IndexInRange(v, e); }
      forall e, f | v.Inner(e) && v.Inner(f) && BitOf(v, e) == BitOf(v, f) ensures e == f { BitsApart(v, e, f); }
    }
    if Fits(v) {
      FitsNeedsRoom(v);
    }
  }

  lemma FitsNeedsRoom(v: View)
    requires v.width >= 1 && v.height >= 1 && Fits(v)
    ensures v.Roomy()
  {
    if v.width > 1 {
      LastIndex(v, false);
      assert BitOf(v, Edge(false, v.height - 1, v.width - 1)) < WORD_SIZE * |v.words|;
    }
    if v.height > 1 {
      LastIndex(v, true);
      assert BitOf(v, Edge(true, v.width - 1, v.height - 1)) < WORD_SIZE * |v.words|;
      if WORD_SIZE * v.hbase < BitsNeeded(v.height, v.width) { TablesCollide(v); }
    }
  }

  predicate GetFlag(v: View, e: Edge)
    requires v.Roomy()
  {
    if !v.Inner(e) then true
    else
      IndexInRange(v, e);
      BitmapGet(v.words, v.Base(e), v.Index(e))
  }

  predicate GetWall(v: View, x: nat, y: nat, dir: Direction)
    requires v.Roomy()
  {
    GetFlag(v, EdgeOf(x, y, dir))
  }

  /** The flags after the wall at `e` has been set to `state`: an outer wall cannot be changed. */
  ghost predicate FlagSet(v: View, v': View, e: Edge, state: bool)
    requires v.Roomy() && v'.Roomy()
  {
    forall f :: GetFlag(v', f) == if f == e && v.Inner(e) then state else GetFlag(v, f)
  }

  lemma FlagIsBit(v: View, e: Edge)
    requires v.Roomy() && v.Inner(e)
    ensures BitOf(v, e) < WORD_SIZE * |v.words| && GetFlag(v, e) == On(v.words, BitOf(v, e))
  {
    IndexInRange(v, e);
    GetIsOn(v.words, v.Base(e), v.Index(e));
  }

  lemma SetFlagAt(v: View, words: seq<Word>, e: Edge, state: bool, f: Edge)
    requires v.Roomy() && v.Inner(e) && Changed(v.words, words, BitOf(v, e), state)
    ensures GetFlag(v.(words := words), f) == if f == e then state else GetFlag(v, f)
  {
    var v' := v.(words := words);
    if v.Inner(f) {
      assert v'.Inner(f) && BitOf(v', f) == BitOf(v, f);
      FlagIsBit(v, f);
      FlagIsBit(v', f);
      if BitOf(v, f) == BitOf(v, e) { BitsApart(v, e, f); }
    }
  }

  lemma SetFlagExact(v: View, words: seq<Word>, e: Edge, state: bool)
    requires v.Roomy() && v.Inner(e) && Changed(v.words, words, BitOf(v, e), state)
    ensures v.(words := words).Roomy() && FlagSet(v, v.(words := words), e, state)
  {
    forall f
      ensures GetFlag(v.(words := words), f) == if f == e && v.Inner(e) then state else GetFlag(v, f)
    {
      SetFlagAt(v, words, e, state, f);
    }
  }

  /** Words for all inner walls. */
  function MapSizeNeeded(width: nat, height: nat): nat
    requires width >= 1 && height >= 1
  {
    BitmapSize(BitsNeeded(width, height)) + BitmapSize(BitsNeeded(height, width))
  }

  lemma NoWalls(v: View)
    requires forall k :: 0 <= k < |v.words| ==> v.words[k] == 0
    ensures v.Roomy() ==> forall e :: v.Inner(e) ==> !GetFlag(v, e)
  {
    if v.Roomy() {
      forall e | v.Inner(e)
        ensures !GetFlag(v, e)
      {
        IndexInRange(v, e);
        ZeroHasNoBit(v.Index(e) % WORD_SIZE);
      }
    }
  }

  /** Where MapInit puts the two tables. */
  function Laid(words: seq<Word>, width: nat, height: nat): View
    requires width >= 1 && height >= 1
  {
    View(words, BitmapSize(BitsNeeded(width, height)), width, height)
  }

  /** The horizontal walls need no more words than are there, and the vertical ones no more than they. */
  predicate WellLaid(words: nat, width: nat, height: nat)
    requires width >= 1 && height >= 1
  {
    var h, w := BitmapSize(BitsNeeded(width, height)), BitmapSize(BitsNeeded(height, width));
    height == 1 || (w <= h && 2 * h <= words)
  }

  /**
   MapInit puts the horizontal walls after as many words as they need themselves, not as many
   as the vertical ones need. In every buffer it accepts, every wall has a bit of its own exactly
   if there are no horizontal walls, or they need as many words as the vertical ones or more, and
   the buffer has twice that many.
   */
  lemma LayoutExact(width: nat, height: nat, words: seq<Word>)
    requires width >= 1 && height >= 1 && |words| >= MapSizeNeeded(width, height)
    ensures Fits(Laid(words, width, height)) <==> WellLaid(|words|, width, height)
    ensures Laid(words, width, height).Roomy() <==> WellLaid(|words|, width, height)
  {
    FitsIffRoomy(Laid(words, width, height));
    RoomyIffWellLaid(width, height, words);
  }

  lemma RoomyIffWellLaid(width: nat, height: nat, words: seq<Word>)
    requires width >= 1 && height >= 1 && |words| >= MapSizeNeeded(width, height)
    ensures Laid(words, width, height).Roomy() <==> WellLaid(|words|, width, height)
  {
    WordsCover(BitsNeeded(height, width), BitsNeeded(width, height), |words|);
  }

  /** Bits fit into words exactly if the words they need do. */
  lemma WordsCover(vertical: nat, horizontal: nat, n: nat)
    requires n >= BitmapSize(horizontal) + BitmapSize(vertical)
    ensures var h, w := BitmapSize(horizontal), BitmapSize(vertical);
            && vertical <= WORD_SIZE * n
            && (vertical <= WORD_SIZE * h <==> w <= h)
            && (WORD_SIZE * h + horizontal <= WORD_SIZE * n <==> 2 * h <= n)
  {
    BitmapSizeLeast(vertical);
    BitmapSizeLeast(horizontal);
  }

  /** The default size, 4 by 5, takes one word for each table, so it is laid out well. */
  lemma LayoutDefault(words: seq<Word>)
    requires |words| >= MapSizeNeeded(4, 5)
    ensures Fits(Laid(words, 4, 5))
  {
    LayoutExact(4, 5, words);
  }

  /** A maze of 8 by 5 is not, however large the buffer: two of its inner walls share a bit. */
  lemma LayoutCollides(words: seq<Word>)
    ensures var v := Laid(words, 8, 5);
            var e, f := Edge(false, 4, 5), Edge(true, 0, 1);
            v.Inner(e) && v.Inner(f) && e != f && BitOf(v, e) == BitOf(v, f)
  {}

  /** A maze of one column and 40 rows runs over the end of the buffer asked for. */
  lemma LayoutOverruns(words: seq<Word>)
    requires |words| == MapSizeNeeded(1, 40)
    ensures var v, e := Laid(words, 1, 40), Edge(true, 0, 1);
            v.Inner(e) && BitOf(v, e) >= WORD_SIZE * |words|
  {}

  lemma {:induction false} BitmapSizeLeast(n: nat)
    ensures n <= WORD_SIZE * BitmapSize(n) < n + WORD_SIZE
  {
    if n > 0 { BitmapSizeLeast(if n < WORD_SIZE then 0 else n - WORD_SIZE); }
  }

  class Map {
    var wallBuff: array<Word>
    var HBase: nat
    var Width: nat
    var Height: nat

    function Look(): View
      reads this, wallBuff
    {
      View(wallBuff[..], HBase, Width, Height)
    }

    predicate MapGetWall(x: nat, y: nat, dir: Direction)
      requires Look().Roomy()
      reads this, wallBuff
    {
      GetWall(Look(), x, y, dir)
    }

    /** Takes over a buffer if it is large enough, with no inner walls. */
    method MapInit(buff: array<Word>, width: nat, height: nat) returns (ok: bool)
      requires width >= 1 && height >= 1
      modifies this, buff
      ensures ok <==> buff.Length >= MapSizeNeeded(width, height)
      ensures ok ==> wallBuff == buff && Width == width && Height == height
      ensures ok ==> HBase == BitmapSize(BitsNeeded(width, height))
      ensures ok ==> (Look().Roomy() <==> WellLaid(buff.Length, width, height))
      ensures ok && width == height ==> Look().Roomy()
      ensures ok && Look().Roomy() ==> forall e :: Look().Inner(e) ==> !GetFlag(Look(), e)
    {
      ok := buff.Length >= MapSizeNeeded(width, height);
      if ok {
        wallBuff, HBase := buff, BitmapSize(BitsNeeded(width, height));
        Height, Width := height, width;
        var cur := 0;
        while cur < buff.Length
          invariant 0 <= cur <= buff.Length
          invariant forall k :: 0 <= k < cur ==> buff[k] == 0
          modifies buff
        {
          buff[cur] := 0;
          cur := cur + 1;
        }
        NoWalls(Look());
        LayoutExact(width, height, buff[..]);
      }
    }

    /** Sets the wall that (x, y) and its neighbour share, and no other. */
    method MapSetWall(x: nat, y: nat, dir: Direction, state: bool)
      requires Look().Roomy()
      modifies wallBuff
      ensures Look().Roomy() && FlagSet(old(Look()), Look(), EdgeOf(x, y, dir), state)
    {
      var v, e := Look(), EdgeOf(x, y, dir);
      if v.Inner(e) {
        IndexInRange(v, e);
        if state {
          BitmapOn(wallBuff, v.Base(e), v.Index(e));
        } else {
          BitmapOff(wallBuff, v.Base(e), v.Index(e));
        }
        SetFlagExact(v, wallBuff[..], e, state);
      }
    }
  }
}
