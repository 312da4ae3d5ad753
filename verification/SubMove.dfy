/**
 The motion of the mouse on a grid of half cells: odd coordinates are cell centres, an even one
 is a cell edge. A move is legal if it passes the tests of the planner.
 */
module SubMove {
  import opened MazeMap

  datatype Move =
    | DONE | START | FORWARD | STOP | TURN_RIGHT | TURN_LEFT | TURN_AROUND | INTEGRATE_RIGHT | INTEGRATE_LEFT

  datatype Pose = Pose(x: int, y: int, dir: Direction, moving: bool)

  // ---------------------------------------------------------------- moving

  function Right(d: Direction): Direction {
    match d case NORTH => EAST case EAST => SOUTH case SOUTH => WEST case WEST => NORTH
  }

  function Left(d: Direction): Direction { Right(Right(Right(d))) }

  function Translate(p: Pose, dist: int): Pose {
    match p.dir
    case NORTH => p.(y := p.y + dist)
    case SOUTH => p.(y := p.y - dist)
    case EAST => p.(x := p.x + dist)
    case WEST => p.(x := p.x - dist)
  }

  function MovingAfter(m: Move): bool { m in {START, FORWARD, INTEGRATE_RIGHT, INTEGRATE_LEFT} }

  function Apply(q: Pose, m: Move): Pose {
    var p := q.(moving := MovingAfter(m));
    match m
    case DONE => p
    case START => Translate(p, 1)
    case STOP => Translate(p, 1)
    case FORWARD => Translate(p, 1)
    case TURN_RIGHT => p.(dir := Right(p.dir))
    case TURN_LEFT => p.(dir := Left(p.dir))
    case TURN_AROUND => p.(dir := Opposite(p.dir))
    case INTEGRATE_RIGHT =>
      var c := Translate(p, 1);
      Translate(c.(dir := Right(c.dir)), 1)
    case INTEGRATE_LEFT =>
      var c := Translate(p, 1);
      Translate(c.(dir := Left(c.dir)), 1)
  }

  /** How far a step ahead goes along each axis. */
  function StepX(p: Pose): int { Translate(p, 1).x - p.x }
  function StepY(p: Pose): int { Translate(p, 1).y - p.y }

  /** North is up, east is right; a distance is so many steps, and nothing else changes. */
  lemma Compass(p: Pose, dist: int)
    ensures p.dir == NORTH ==> StepX(p) == 0 && StepY(p) == 1
    ensures p.dir == EAST ==> StepX(p) == 1 && StepY(p) == 0
    ensures p.dir == SOUTH ==> StepX(p) == 0 && StepY(p) == -1
    ensures p.dir == WEST ==> StepX(p) == -1 && StepY(p) == 0
    ensures Translate(p, dist) == p.(x := p.x + dist * StepX(p), y := p.y + dist * StepY(p))
  {}

  /** A turn to the right is clockwise, and happens on the spot. */
  lemma Turns(p: Pose)
    ensures forall m :: m == TURN_RIGHT || m == TURN_LEFT || m == TURN_AROUND ==>
              Apply(p, m).x == p.x && Apply(p, m).y == p.y && !Apply(p, m).moving
    ensures StepX(Apply(p, TURN_RIGHT)) == StepY(p) && StepY(Apply(p, TURN_RIGHT)) == -StepX(p)
    ensures StepX(Apply(p, TURN_LEFT)) == -StepY(p) && StepY(Apply(p, TURN_LEFT)) == StepX(p)
    ensures StepX(Apply(p, TURN_AROUND)) == -StepX(p) && StepY(Apply(p, TURN_AROUND)) == -StepY(p)
  {}

  /** Moves ahead are one step in the same direction, and leave the mouse moving or stopped as named. */
  lemma Straight(p: Pose)
    ensures Apply(p, DONE) == p.(moving := false)
    ensures Apply(p, START) == p.(x := p.x + StepX(p), y := p.y + StepY(p), moving := true)
    ensures Apply(p, FORWARD) == p.(x := p.x + StepX(p), y := p.y + StepY(p), moving := true)
    ensures Apply(p, STOP) == p.(x := p.x + StepX(p), y := p.y + StepY(p), moving := false)
  {}

  /** A curve is one step ahead and one to the side, and ends moving in the direction turned to. */
  lemma Curves(p: Pose)
    ensures var dx, dy, q := StepX(p), StepY(p), Apply(p, INTEGRATE_RIGHT);
            q.x == p.x + dx + dy && q.y == p.y + dy - dx && q.moving && StepX(q) == dy && StepY(q) == -dx
    ensures var dx, dy, q := StepX(p), StepY(p), Apply(p, INTEGRATE_LEFT);
            q.x == p.x + dx - dy && q.y == p.y + dy + dx && q.moving && StepX(q) == -dy && StepY(q) == dx
  {}

  predicate Centred(p: Pose) { p.x % 2 == 1 && p.y % 2 == 1 }
  predicate Edged(p: Pose) { p.x % 2 == 0 || p.y % 2 == 0 }

  /** The cell the mouse is in, or is entering if it is on an edge. */
  function CellOf(p: Pose): (int, int) {
    if Centred(p) then (p.x / 2, p.y / 2)
    else var q := Translate(p, 1); (q.x / 2, q.y / 2)
  }

  // ---------------------------------------------------------------- the tests

  /** What the mouse has scanned and what the flood fill says, as the planner sees them. */
  datatype Sight = Sight(scanned: (int, int) -> bool, flood: (int, int) -> Flood)

  type Flood = n: nat | n <= 255

  predicate Wall(v: View, x: int, y: int, dir: Direction)
    requires v.Roomy()
  {
    x < 0 || y < 0 || GetWall(v, x, y, dir)
  }

  predicate StartCentred(p: Pose, m: Move) {
    m in {START, TURN_RIGHT, TURN_LEFT, TURN_AROUND} ==> Centred(p)
  }

  predicate StartEdge(p: Pose, m: Move) { m in {STOP, INTEGRATE_RIGHT, INTEGRATE_LEFT} ==> Edged(p) }

  predicate StartMoving(p: Pose, m: Move) {
    && (m in {START, TURN_RIGHT, TURN_LEFT, TURN_AROUND} ==> !p.moving)
    && (m in {STOP, FORWARD, INTEGRATE_RIGHT, INTEGRATE_LEFT} ==> p.moving)
  }

  predicate StartStraightAway(p: Pose, m: Move, s: Sight) {
    m == FORWARD ==>
      var (cx, cy) := CellOf(p);
      var next := Translate(p.(x := cx, y := cy), 1);
      s.flood(next.x, next.y) < s.flood(cx, cy)
  }

  predicate EndOnWall(v: View, p: Pose, m: Move)
    requires v.Roomy()
  {
    m in {START, STOP, FORWARD, INTEGRATE_RIGHT, INTEGRATE_LEFT} ==>
      if Centred(p) then true
      else if p.x % 2 == 1 then !Wall(v, p.x / 2, p.y / 2, SOUTH)
      else if p.y % 2 == 1 then !Wall(v, p.x / 2, p.y / 2, WEST)
      else false
  }

  predicate EndOnPeg(p: Pose) { !(p.x % 2 == 0 && p.y % 2 == 0) }

  predicate EndInScanned(p: Pose, s: Sight) { var (cx, cy) := CellOf(p); s.scanned(cx, cy) }

  predicate NextScanned(p: Pose, m: Move, s: Sight) {
    m in {FORWARD, INTEGRATE_RIGHT, INTEGRATE_LEFT} ==>
      var (cx, cy) := CellOf(Translate(p, 1)); s.scanned(cx, cy)
  }

  predicate NextLessFloodFill(p: Pose, m: Move, s: Sight) {
    m in {TURN_RIGHT, TURN_LEFT, TURN_AROUND} ==>
      var q := Translate(p, 2); s.flood(q.x / 2, q.y / 2) < s.flood(p.x / 2, p.y / 2)
  }

  predicate EndFacingWall(v: View, p: Pose, m: Move)
    requires v.Roomy()
  {
    m in {FORWARD, TURN_RIGHT, TURN_LEFT, TURN_AROUND, INTEGRATE_RIGHT, INTEGRATE_LEFT} && Centred(p) ==>
      !Wall(v, p.x / 2, p.y / 2, p.dir)
  }

  predicate Legal(v: View, p: Pose, m: Move, s: Sight)
    requires v.Roomy()
  {
    && StartCentred(p, m) && StartEdge(p, m) && StartMoving(p, m) && StartStraightAway(p, m, s)
    && var q := Apply(p, m);
       && EndOnWall(v, q, m) && EndOnPeg(q) && EndInScanned(q, s) && EndFacingWall(v, q, m)
       && NextScanned(q, m, s) && NextLessFloodFill(q, m, s)
  }

  // ---------------------------------------------------------------- where the mouse can be

  /** At the centre of a cell of the maze. */
  predicate AtCentre(v: View, p: Pose) {
    Centred(p) && 0 < p.x < 2 * v.width && 0 < p.y < 2 * v.height
  }

  /** On an inner edge, heading across it. */
  predicate InLine(v: View, p: Pose) {
    && 0 < p.x < 2 * v.width && 0 < p.y < 2 * v.height
    && if p.x % 2 == 0 then p.y % 2 == 1 && p.dir in {EAST, WEST} else p.y % 2 == 0 && p.dir in {NORTH, SOUTH}
  }

  /** On an edge without a wall, crossing it. */
  predicate AtOpening(v: View, p: Pose)
    requires v.Roomy()
  {
    InLine(v, p) && !GetWall(v, p.x / 2, p.y / 2, if p.x % 2 == 0 then WEST else SOUTH)
  }

  /** Where a run can bring the mouse: at a centre, or moving across an opening. */
  predicate Safe(v: View, p: Pose)
    requires v.Roomy()
  {
    AtCentre(v, p) || (AtOpening(v, p) && p.moving)
  }

  /** A wall that can be missing is an inner one. */
  lemma MissingWallInside(v: View, x: nat, y: nat, dir: Direction)
    requires v.Roomy() && !GetWall(v, x, y, dir)
    ensures v.Inner(EdgeOf(x, y, dir))
  {}

  lemma OutOfOpening(v: View, p: Pose)
    requires InLine(v, p)
    ensures AtCentre(v, Translate(p, 1))
  {}

  /** An edge with an inner wall position is an edge between two cells. */
  lemma InnerInLine(v: View, q: Pose)
    requires 0 <= q.x && 0 <= q.y
    requires if q.dir == NORTH || q.dir == SOUTH
             then q.x % 2 == 1 && q.y % 2 == 0 && v.Inner(EdgeOf(q.x / 2, q.y / 2, SOUTH))
             else q.x % 2 == 0 && q.y % 2 == 1 && v.Inner(EdgeOf(q.x / 2, q.y / 2, WEST))
    ensures InLine(v, q)
  {}

  lemma StepOut(v: View, p: Pose)
    requires AtCentre(v, p)
    ensures var q := Translate(p, 1);
            && 0 <= q.x && 0 <= q.y && q.dir == p.dir
            && (q.x % 2 == 1 <==> p.dir == NORTH || p.dir == SOUTH) && (q.y % 2 == 1 <==> q.x % 2 == 0)
  {}

  lemma IntoOpening(v: View, p: Pose)
    requires v.Roomy() && AtCentre(v, p) && EndOnWall(v, Translate(p, 1), START)
    ensures AtOpening(v, Translate(p, 1))
  {
    var q := Translate(p, 1);
    StepOut(v, p);
    if q.x % 2 == 1 {
      MissingWallInside(v, q.x / 2, q.y / 2, SOUTH);
    } else {
      MissingWallInside(v, q.x / 2, q.y / 2, WEST);
    }
    InnerInLine(v, q);
  }

  /** The poses a move passes through, the start and the end included. */
  function Waypoints(p: Pose, m: Move): seq<Pose> {
    if m == INTEGRATE_RIGHT || m == INTEGRATE_LEFT then
      var q := Translate(p, 1);
      [p, q, q.(dir := if m == INTEGRATE_RIGHT then Right(q.dir) else Left(q.dir)), Apply(p, m)]
    else [p, Apply(p, m)]
  }

  /** The mouse turns on the spot at a centre, or takes a half step between a centre and an opening. */
  predicate NoCrash(v: View, p: Pose, q: Pose)
    requires v.Roomy()
  {
    || (AtCentre(v, p) && q.x == p.x && q.y == p.y)
    || (AtCentre(v, p) && AtOpening(v, q) && SamePlace(Translate(p, 1), q))
    || (AtOpening(v, p) && AtCentre(v, q) && SamePlace(Translate(p, 1), q))
  }

  predicate SamePlace(p: Pose, q: Pose) { p.x == q.x && p.y == q.y && p.dir == q.dir }

  /**
   A legal move keeps the mouse safe, unless it is DONE while the mouse is crossing an opening:
   DONE passes every test there but leaves the mouse standing on the edge.
   */
  lemma LegalMoveSafe(v: View, p: Pose, m: Move, s: Sight)
    requires v.Roomy() && Safe(v, p) && Legal(v, p, m, s)
    ensures Safe(v, Apply(p, m)) <==> m != DONE || Centred(p)
  {
    if m == INTEGRATE_RIGHT || m == INTEGRATE_LEFT {
      IntegrateSafe(v, p, m);
    } else if m in {START, STOP, FORWARD} {
      StraightSafe(v, p, m);
    }
  }

  lemma StraightSafe(v: View, p: Pose, m: Move)
    requires v.Roomy() && Safe(v, p) && m in {START, STOP, FORWARD}
    requires StartCentred(p, m) && StartEdge(p, m) && EndOnWall(v, Apply(p, m), m)
    ensures NoCrash(v, p, Apply(p, m)) && Safe(v, Apply(p, m)) && (m == STOP ==> AtCentre(v, Apply(p, m)))
  {
    if AtCentre(v, p) { IntoOpening(v, p.(moving := MovingAfter(m))); } else { OutOfOpening(v, p); }
  }

  lemma IntegrateSafe(v: View, p: Pose, m: Move)
    requires v.Roomy() && Safe(v, p) && (m == INTEGRATE_RIGHT || m == INTEGRATE_LEFT)
    requires StartEdge(p, m) && EndOnWall(v, Apply(p, m), m)
    ensures var w := Waypoints(p, m); NoCrash(v, w[0], w[1]) && NoCrash(v, w[1], w[2]) && NoCrash(v, w[2], w[3])
    ensures Safe(v, Apply(p, m))
  {
    OutOfOpening(v, p);
    IntoOpening(v, Waypoints(p.(moving := true), m)[2]);
  }

  /** On the way, too: no half step of a legal move crosses a wall or leaves the maze. */
  lemma LegalMoveNoCrash(v: View, p: Pose, m: Move, s: Sight)
    requires v.Roomy() && Safe(v, p) && Legal(v, p, m, s) && m != DONE
    ensures forall i :: 0 <= i < |Waypoints(p, m)| - 1 ==> NoCrash(v, Waypoints(p, m)[i], Waypoints(p, m)[i + 1])
    ensures !Apply(p, m).moving ==> AtCentre(v, Apply(p, m))
  {
    if m == INTEGRATE_RIGHT || m == INTEGRATE_LEFT {
      IntegrateSafe(v, p, m);
    } else if m in {START, STOP, FORWARD} {
      StraightSafe(v, p, m);
    }
  }

  /** DONE passes every test where the mouse is, if the cell there has been scanned. */
  lemma DoneLegal(v: View, p: Pose, s: Sight)
    requires v.Roomy() && InLine(v, p) && EndInScanned(p, s)
    ensures Legal(v, p, DONE, s)
  {}

  lemma OpenWhenEmpty(v: View, p: Pose)
    requires v.Roomy() && InLine(v, p) && forall k :: 0 <= k < |v.words| ==> v.words[k] == 0
    ensures AtOpening(v, p)
  {
    NoWalls(v);
    assert v.Inner(EdgeOf(p.x / 2, p.y / 2, if p.x % 2 == 0 then WEST else SOUTH));
  }

  /** The exception is real: in an empty maze of two by two cells the mouse can stop on an edge. */
  lemma DoneOnEdge()
    ensures exists v: View, p: Pose, s: Sight ::
              v.Roomy() && Safe(v, p) && Legal(v, p, DONE, s) && !Safe(v, Apply(p, DONE))
  {
    var v := View([0, 0], 1, 2, 2);
    var p := Pose(2, 1, EAST, true);
    var s := Sight((x, y) => true, (x, y) => 0);
    OpenWhenEmpty(v, p);
    DoneLegal(v, p, s);
    LegalMoveSafe(v, p, DONE, s);
  }

  // ---------------------------------------------------------------- runs

  /** What the planner saw and the move it made. */
  datatype Turn = Turn(s: Sight, m: Move)

  function After(p: Pose, turns: seq<Turn>): Pose {
    if turns == [] then p else Apply(After(p, turns[..|turns| - 1]), turns[|turns| - 1].m)
  }

  /** Every move passes the tests where it is made. */
  ghost predicate LegalRun(v: View, p: Pose, turns: seq<Turn>)
    requires v.Roomy()
  {
    if turns == [] then true
    else
      var init, last := turns[..|turns| - 1], turns[|turns| - 1];
      LegalRun(v, p, init) && Legal(v, After(p, init), last.m, last.s)
  }

  /** Safe, and at a centre whenever stopped. */
  predicate Sound(v: View, p: Pose)
    requires v.Roomy()
  {
    Safe(v, p) && (!p.moving ==> AtCentre(v, p))
  }

  lemma MoveSound(v: View, p: Pose, m: Move, s: Sight)
    requires v.Roomy() && Sound(v, p) && Legal(v, p, m, s) && (m == DONE ==> Centred(p))
    ensures Sound(v, Apply(p, m))
  {
    LegalMoveSafe(v, p, m, s);
    if m != DONE { LegalMoveNoCrash(v, p, m, s); }
  }

  /** Wherever the run makes the move DONE, the mouse is at a centre. */
  ghost predicate NoDoneOnEdge(p: Pose, turns: seq<Turn>)
  {
    forall i :: 0 <= i < |turns| && turns[i].m == DONE ==> Centred(After(p, turns[..i]))
  }

  lemma {:induction false} LegalPrefix(v: View, p: Pose, turns: seq<Turn>, k: nat)
    requires v.Roomy() && LegalRun(v, p, turns) && k <= |turns|
    ensures LegalRun(v, p, turns[..k])
    decreases |turns|
  {
    if k < |turns| {
      var init := turns[..|turns| - 1];
      LegalPrefix(v, p, init, k);
      assert init[..k] == turns[..k];
    } else {
      assert turns[..k] == turns;
    }
  }

  lemma {:induction false} RunSound(v: View, p: Pose, turns: seq<Turn>)
    requires v.Roomy() && AtCentre(v, p) && !p.moving && LegalRun(v, p, turns) && NoDoneOnEdge(p, turns)
    ensures Sound(v, After(p, turns))
    decreases |turns|
  {
    if turns != [] {
      var init, last := turns[..|turns| - 1], turns[|turns| - 1];
      assert forall i :: 0 <= i < |init| ==> init[i] == turns[i] && init[..i] == turns[..i];
      RunSound(v, p, init);
      assert turns[|turns| - 1].m == DONE ==> Centred(After(p, turns[..|turns| - 1]));
      MoveSound(v, After(p, init), last.m, last.s);
    }
  }

  lemma PrefixSound(v: View, p: Pose, turns: seq<Turn>, k: nat)
    requires v.Roomy() && AtCentre(v, p) && !p.moving && LegalRun(v, p, turns) && NoDoneOnEdge(p, turns)
    requires k <= |turns|
    ensures Sound(v, After(p, turns[..k]))
  {
    LegalPrefix(v, p, turns, k);
    assert forall i :: 0 <= i < k ==> turns[..k][i] == turns[i] && turns[..k][..i] == turns[..i];
    RunSound(v, p, turns[..k]);
  }

  lemma StoppedAtCentre(v: View, p: Pose, turns: seq<Turn>, i: nat)
    requires v.Roomy() && i < |turns| && turns[i].m == DONE && Sound(v, After(p, turns[..i + 1]))
    ensures Centred(After(p, turns[..i]))
  {
    assert turns[..i + 1][..i] == turns[..i];
    assert After(p, turns[..i + 1]) == Apply(After(p, turns[..i]), DONE);
  }

  /**
   From a stopped cell centre, over any run of legal moves: the mouse is at every point at a cell
   centre or moving across an opening in line with it, and at a centre whenever it is stopped,
   exactly if no DONE is made on an edge.
   */
  lemma RunSafe(v: View, p: Pose, turns: seq<Turn>)
    requires v.Roomy() && AtCentre(v, p) && !p.moving && LegalRun(v, p, turns)
    ensures NoDoneOnEdge(p, turns) <==> forall k :: 0 <= k <= |turns| ==> Sound(v, After(p, turns[..k]))
  {
    if NoDoneOnEdge(p, turns) {
      forall k | 0 <= k <= |turns| ensures Sound(v, After(p, turns[..k])) { PrefixSound(v, p, turns, k); }
    }
    if forall k :: 0 <= k <= |turns| ==> Sound(v, After(p, turns[..k])) {
      forall i | 0 <= i < |turns| && turns[i].m == DONE ensures Centred(After(p, turns[..i])) {
        StoppedAtCentre(v, p, turns, i);
      }
    }
  }

  // ---------------------------------------------------------------- choosing a move

  /** How good a move is: the flood of the cell it ends in, of the cell ahead, a wall ahead, a turn. */
  datatype Score = Score(flood: Flood, facing: Flood, wall: bool, rotated: bool)

  function Rotates(m: Move): bool { m in {TURN_RIGHT, TURN_LEFT, TURN_AROUND, INTEGRATE_RIGHT, INTEGRATE_LEFT} }

  predicate Better(a: Score, b: Score) {
    if a.flood != b.flood then a.flood < b.flood
    else if a.facing != b.facing then a.facing < b.facing
    else if a.wall != b.wall then b.wall
    else a.rotated && !b.rotated
  }

  const CANDIDATES: seq<Move> :=
    [START, FORWARD, STOP, TURN_RIGHT, TURN_LEFT, TURN_AROUND, INTEGRATE_RIGHT, INTEGRATE_LEFT]

  /** The cell a pose counts as, found by halving; on an edge it is the cell ahead. */
  method NormalCell(v: View, p: Pose) returns (cx: int, cy: int)
    requires v.Roomy() && Safe(v, p)
    ensures (cx, cy) == CellOf(p)
    ensures 0 <= cx < v.width && 0 <= cy < v.height
  {
    if !Centred(p) { OutOfOpening(v, p); }
    if p.x % 2 == 1 {
      cx := p.x / 2;
    } else if p.dir == EAST {
      cx := p.x / 2;
    } else if p.dir == WEST {
      cx := p.x / 2 - 1;
    } else {
      assert false;
    }
    if p.y % 2 == 1 {
      cy := p.y / 2;
    } else if p.dir == NORTH {
      cy := p.y / 2;
    } else if p.dir == SOUTH {
      cy := p.y / 2 - 1;
    } else {
      assert false;
    }
  }

  /** What doing nothing is taken to be worth. */
  const NOTHING := Score(255, 255, true, true)

  function ScoreOf(v: View, start: Pose, m: Move, s: Sight): Score
    requires v.Roomy()
  {
    if m == DONE then NOTHING else ScoreAt(v, Apply(start, m), s, Rotates(m))
  }

  /** The score of a pose a move ends in. */
  function ScoreAt(v: View, p: Pose, s: Sight, rotated: bool): Score
    requires v.Roomy()
  {
    var (cx, cy) := CellOf(p);
    var ahead := Translate(p.(x := cx, y := cy), 1);
    Score(s.flood(cx, cy), s.flood(ahead.x, ahead.y), Wall(v, cx, cy, p.dir), rotated)
  }

  /** The move is not legal here, or does not beat the score. */
  predicate Loses(v: View, start: Pose, s: Sight, m: Move, score: Score)
    requires v.Roomy()
  {
    Legal(v, start, m, s) ==> !Better(ScoreOf(v, start, m, s), score)
  }

  /** What lost against the leader loses against what beats the leader. */
  lemma StillLoses(v: View, start: Pose, s: Sight, m: Move, leader: Score, score: Score)
    requires v.Roomy() && Loses(v, start, s, m, leader) && Better(score, leader)
    ensures Loses(v, start, s, m, score)
  {}

  lemma AllStillLose(v: View, start: Pose, s: Sight, i: nat, leader: Score, score: Score)
    requires v.Roomy() && i <= |CANDIDATES| && Better(score, leader)
    requires forall j :: 0 <= j < i ==> Loses(v, start, s, CANDIDATES[j], leader)
    ensures forall j :: 0 <= j < i ==> Loses(v, start, s, CANDIDATES[j], score)
  {
    forall j | 0 <= j < i ensures Loses(v, start, s, CANDIDATES[j], score) {
      StillLoses(v, start, s, CANDIDATES[j], leader, score);
    }
  }

  /** The planner's choice: no legal candidate beats it, and it is DONE if none beats doing nothing. */
  ghost predicate Chosen(v: View, start: Pose, s: Sight, best: Move)
    requires v.Roomy()
  {
    && (best == DONE || Candidate(v, start, s, best))
    && (forall m :: m in CANDIDATES ==> Loses(v, start, s, m, ScoreOf(v, start, best, s)))
  }

  /** A legal candidate that beats doing nothing. */
  predicate Candidate(v: View, start: Pose, s: Sight, m: Move)
    requires v.Roomy()
  {
    m in CANDIDATES && Legal(v, start, m, s) && Better(ScoreOf(v, start, m, s), NOTHING)
  }

  /** Tries the candidates in order. */
  method FindBest(v: View, start: Pose, s: Sight) returns (best: Move)
    requires v.Roomy() && Safe(v, start)
    ensures Chosen(v, start, s, best)
  {
    best := DONE;
    var bestScore := NOTHING;
    var i := 0;
    while i < |CANDIDATES|
      invariant 0 <= i <= |CANDIDATES| && bestScore == ScoreOf(v, start, best, s)
      invariant best == DONE || Candidate(v, start, s, best)
      invariant bestScore == NOTHING || Better(bestScore, NOTHING)
      invariant forall j :: 0 <= j < i ==> Loses(v, start, s, CANDIDATES[j], bestScore)
    {
      ghost var leader := bestScore;
      best, bestScore := Compare(v, start, s, CANDIDATES[i], best, bestScore);
      if bestScore != leader { AllStillLose(v, start, s, i, leader, bestScore); }
      i := i + 1;
    }
  }

  /** One turn of the loop: a legal candidate that beats the leader takes its place. */
  method Compare(v: View, start: Pose, s: Sight, cur: Move, best: Move, bestScore: Score)
    returns (best': Move, score': Score)
    requires v.Roomy() && Safe(v, start) && cur in CANDIDATES && (best == DONE || Candidate(v, start, s, best))
    requires bestScore == ScoreOf(v, start, best, s) && (bestScore == NOTHING || Better(bestScore, NOTHING))
    ensures (best' == DONE || Candidate(v, start, s, best')) && score' == ScoreOf(v, start, best', s)
    ensures score' == bestScore || Better(score', bestScore)
    ensures score' == NOTHING || Better(score', NOTHING)
    ensures Loses(v, start, s, cur, score')
  {
    best', score' := best, bestScore;
    if Legal(v, start, cur, s) {
      var score := Scored(v, start, cur, s);
      if Better(score, bestScore) {
        best', score' := cur, score;
      }
    }
  }

  /** The gathering of results for one candidate. */
  method Scored(v: View, start: Pose, m: Move, s: Sight) returns (score: Score)
    requires v.Roomy() && Safe(v, start) && Legal(v, start, m, s) && m != DONE
    ensures score == ScoreOf(v, start, m, s)
  {
    LegalMoveSafe(v, start, m, s);
    var p := Apply(start, m);
    var cx, cy := NormalCell(v, p);
    var ahead := Translate(p.(x := cx, y := cy), 1);
    score := Score(s.flood(cx, cy), s.flood(ahead.x, ahead.y), Wall(v, cx, cy, p.dir), Rotates(m));
  }

  // ---------------------------------------------------------------- what a choice means

  /** A turn at a centre ends facing a cell of smaller flood with no wall between. */
  lemma TurnFacesDownhill(v: View, p: Pose, m: Move, s: Sight)
    requires v.Roomy() && AtCentre(v, p) && Legal(v, p, m, s)
    requires m == TURN_RIGHT || m == TURN_LEFT || m == TURN_AROUND
    ensures var q := Apply(p, m);
            && s.flood(p.x / 2 + StepX(q), p.y / 2 + StepY(q)) < s.flood(p.x / 2, p.y / 2)
            && !GetWall(v, p.x / 2, p.y / 2, q.dir)
  {
    var q := Apply(p, m);
    assert NextLessFloodFill(q, m, s) && EndFacingWall(v, q, m);
    Compass(q, 2);
    CellAhead(q);
  }

  lemma CellAhead(q: Pose)
    ensures Translate(q, 2).x / 2 == q.x / 2 + StepX(q) && Translate(q, 2).y / 2 == q.y / 2 + StepY(q)
  {}

  /** FORWARD is only for going downhill. */
  lemma ForwardDownhill(v: View, p: Pose, s: Sight)
    requires v.Roomy() && Legal(v, p, FORWARD, s)
    ensures var (cx, cy) := CellOf(p); s.flood(cx + StepX(p), cy + StepY(p)) < s.flood(cx, cy)
  {
    assert StartStraightAway(p, FORWARD, s);
    StraightTest(p, s);
  }

  lemma StraightTest(p: Pose, s: Sight)
    requires StartStraightAway(p, FORWARD, s)
    ensures var (cx, cy) := CellOf(p); s.flood(cx + StepX(p), cy + StepY(p)) < s.flood(cx, cy)
  {
    var (cx, cy) := CellOf(p);
    Compass(p.(x := cx, y := cy), 1);
    Compass(p, 1);
  }

  /** A move that goes on goes on into a cell that has been scanned. */
  lemma GoesOnIntoScanned(v: View, p: Pose, m: Move, s: Sight)
    requires v.Roomy() && Legal(v, p, m, s) && (m == FORWARD || m == INTEGRATE_RIGHT || m == INTEGRATE_LEFT)
    ensures var q := Apply(p, m);
            var (nx, ny) := CellOf(q.(x := q.x + StepX(q), y := q.y + StepY(q))); s.scanned(nx, ny)
  {
    var q := Apply(p, m);
    assert NextScanned(q, m, s);
    Compass(q, 1);
  }

  /** Going on from the centre of a cell, there is no wall ahead. */
  lemma GoesOnIntoOpening(v: View, p: Pose, m: Move, s: Sight)
    requires v.Roomy() && Legal(v, p, m, s) && (m == FORWARD || m == INTEGRATE_RIGHT || m == INTEGRATE_LEFT)
    requires AtCentre(v, Apply(p, m))
    ensures !GetWall(v, Apply(p, m).x / 2, Apply(p, m).y / 2, Apply(p, m).dir)
  {
    assert EndFacingWall(v, Apply(p, m), m);
  }

  /** The cell the mouse is in, or enters, after a legal move has been scanned. */
  lemma EndsInScanned(v: View, p: Pose, m: Move, s: Sight)
    requires v.Roomy() && Legal(v, p, m, s)
    ensures var q := Apply(p, m);
            if Centred(q) then s.scanned(q.x / 2, q.y / 2)
            else s.scanned((q.x + StepX(q)) / 2, (q.y + StepY(q)) / 2)
  {
    assert EndInScanned(Apply(p, m), s);
    Compass(Apply(p, m), 1);
  }

  /** The four criteria as digits of one number, the first the most significant. */
  function Rank(a: Score): nat
  {
    ((a.flood * 256 + a.facing) * 2 + if a.wall then 1 else 0) * 2 + if a.rotated then 0 else 1
  }

  lemma BetterIsRank(a: Score, b: Score)
    ensures Better(a, b) <==> Rank(a) < Rank(b)
  {}

  /** The choice goes where the flood is least, among all legal candidates. */
  lemma ChosenIsLowest(v: View, start: Pose, s: Sight, best: Move, m: Move)
    requires v.Roomy() && Chosen(v, start, s, best) && m in CANDIDATES && Legal(v, start, m, s)
    ensures Rank(ScoreOf(v, start, best, s)) <= Rank(ScoreOf(v, start, m, s))
    ensures best != DONE ==>
              var (ax, ay) := CellOf(Apply(start, best));
              var (mx, my) := CellOf(Apply(start, m));
              s.flood(ax, ay) <= s.flood(mx, my)
  {
    assert Loses(v, start, s, m, ScoreOf(v, start, best, s));
    BetterIsRank(ScoreOf(v, start, m, s), ScoreOf(v, start, best, s));
  }

  /** Every move but DONE is a candidate. */
  lemma CandidatesAreMoves(m: Move)
    ensures m in CANDIDATES <==> m != DONE
  {
    assert CANDIDATES[0] == START && CANDIDATES[1] == FORWARD && CANDIDATES[2] == STOP && CANDIDATES[3] == TURN_RIGHT;
    assert CANDIDATES[4] == TURN_LEFT && CANDIDATES[5] == TURN_AROUND && CANDIDATES[6] == INTEGRATE_RIGHT;
    assert CANDIDATES[7] == INTEGRATE_LEFT;
  }

  /** The cell a pose counts as: the one it is in, or on an edge the one that a step ahead leads into. */
  function CellBy(q: Pose): (int, int)
  {
    if Centred(q) then (q.x / 2, q.y / 2) else ((q.x + StepX(q)) / 2, (q.y + StepY(q)) / 2)
  }

  lemma CellIs(q: Pose)
    ensures CellOf(q) == CellBy(q)
  {}

  lemma StepFrom(q: Pose, x: int, y: int)
    ensures Translate(q.(x := x, y := y), 1) == q.(x := x + StepX(q), y := y + StepY(q))
  {}

  /** What the planner looks at: the cell the move ends in, the one ahead of it, the wall between, and the turn. */
  lemma ScoreExact(v: View, p: Pose, m: Move, s: Sight)
    requires v.Roomy() && m != DONE
    ensures var q := Apply(p, m);
            var (cx, cy) := CellBy(q);
            ScoreOf(v, p, m, s) ==
              Score(s.flood(cx, cy), s.flood(cx + StepX(q), cy + StepY(q)), Wall(v, cx, cy, q.dir), q.dir != p.dir)
  {
    RotatesIff(p, m);
    ScoreIn(v, Apply(p, m), s, Rotates(m));
    var q := Apply(p, m);
    assert ScoreOf(v, p, m, s) == ScoreAt(v, q, s, Rotates(m));
  }

  lemma ScoreIn(v: View, q: Pose, s: Sight, rotated: bool)
    requires v.Roomy()
    ensures var (cx, cy) := CellBy(q);
            ScoreAt(v, q, s, rotated) ==
              Score(s.flood(cx, cy), s.flood(cx + StepX(q), cy + StepY(q)), Wall(v, cx, cy, q.dir), rotated)
  {
    CellIs(q);
    StepFrom(q, CellBy(q).0, CellBy(q).1);
  }

  lemma RotatesIff(p: Pose, m: Move)
    ensures Rotates(m) <==> Apply(p, m).dir != p.dir
  {}

  // When each move is legal, where a run can bring the mouse.

  predicate OpenAhead(v: View, c: (int, int), dir: Direction)
    requires v.Roomy()
  {
    0 <= c.0 && 0 <= c.1 && !GetWall(v, c.0, c.1, dir)
  }

  lemma EdgeNorthSouth(p: Pose)
    requires Centred(p) && p.x > 0 && p.y > 0 && (p.dir == NORTH || p.dir == SOUTH)
    ensures var q := Translate(p, 1);
            && q.x % 2 == 1 && q.y % 2 == 0 && q.x >= 0 && q.y >= 0
            && EdgeOf(q.x / 2, q.y / 2, SOUTH) == EdgeOf(p.x / 2, p.y / 2, p.dir)
  {}

  lemma EdgeEastWest(p: Pose)
    requires Centred(p) && p.x > 0 && p.y > 0 && (p.dir == EAST || p.dir == WEST)
    ensures var q := Translate(p, 1);
            && q.x % 2 == 0 && q.y % 2 == 1 && q.x >= 0 && q.y >= 0
            && EdgeOf(q.x / 2, q.y / 2, WEST) == EdgeOf(p.x / 2, p.y / 2, p.dir)
  {}

  /** The edge a step ahead of a centre is open from both sides or from none. */
  lemma EdgeAhead(v: View, p: Pose, m: Move)
    requires v.Roomy() && AtCentre(v, p) && m in {START, FORWARD, INTEGRATE_RIGHT, INTEGRATE_LEFT}
    ensures EndOnWall(v, Translate(p, 1), m) <==> OpenAhead(v, CellBy(p), p.dir)
  {
    if p.dir == NORTH || p.dir == SOUTH { EdgeNorthSouth(p); } else { EdgeEastWest(p); }
  }

  /** The edge a step ahead of a centre counts as the cell beyond it, and so does that cell's centre. */
  lemma CellBeyond(p: Pose)
    requires Centred(p)
    ensures var q := Translate(p, 1);
            && !Centred(q) && EndOnPeg(q) && q.dir == p.dir && q.moving == p.moving
            && CellOf(q) == (CellBy(p).0 + StepX(p), CellBy(p).1 + StepY(p))
            && Centred(Translate(q, 1)) && CellOf(Translate(q, 1)) == CellOf(q)
  {}

  lemma StartTests(v: View, p: Pose, s: Sight)
    requires v.Roomy()
    ensures var q := Translate(p.(moving := true), 1);
            Legal(v, p, START, s) <==>
              Centred(p) && !p.moving && EndOnWall(v, q, START) && EndOnPeg(q) && EndInScanned(q, s)
  {}

  /** Starting: stopped at a centre, with an opening into a scanned cell ahead. */
  lemma StartIff(v: View, p: Pose, s: Sight)
    requires v.Roomy() && Safe(v, p)
    ensures Legal(v, p, START, s) <==>
              && Centred(p) && !p.moving && OpenAhead(v, CellBy(p), p.dir)
              && s.scanned(CellBy(p).0 + StepX(p), CellBy(p).1 + StepY(p))
  {
    StartTests(v, p, s);
    if Centred(p) {
      var c := p.(moving := true);
      EdgeAhead(v, c, START);
      CellBeyond(c);
      assert CellBy(c) == CellBy(p) && StepX(c) == StepX(p) && StepY(c) == StepY(p);
    }
  }

  /** Stopping: on an edge, in front of a scanned cell. */
  lemma StopIff(v: View, p: Pose, s: Sight)
    requires v.Roomy() && Safe(v, p)
    ensures Legal(v, p, STOP, s) <==> !Centred(p) && s.scanned(CellBy(p).0, CellBy(p).1)
  {
    CellIs(p);
    if !Centred(p) { StopsAhead(v, p); }
  }

  /** Turning: stopped at the centre of a scanned cell, towards an open cell of smaller flood. */
  lemma TurnIff(v: View, p: Pose, m: Move, s: Sight)
    requires v.Roomy() && Safe(v, p) && (m == TURN_RIGHT || m == TURN_LEFT || m == TURN_AROUND)
    ensures var q := Apply(p, m);
            var (cx, cy) := CellBy(p);
            Legal(v, p, m, s) <==>
              && Centred(p) && !p.moving && s.scanned(cx, cy) && OpenAhead(v, (cx, cy), q.dir)
              && s.flood(cx + StepX(q), cy + StepY(q)) < s.flood(cx, cy)
  {
    CellAhead(Apply(p, m));
  }

  lemma StraightIff(p: Pose, s: Sight)
    ensures var (cx, cy) := CellBy(p);
            StartStraightAway(p, FORWARD, s) <==> s.flood(cx + StepX(p), cy + StepY(p)) < s.flood(cx, cy)
  {
    CellIs(p);
  }

  /** What FORWARD asks for, for any pose it ends in. */
  predicate ForwardEnd(v: View, q: Pose, s: Sight)
    requires v.Roomy()
  {
    && EndOnWall(v, q, FORWARD) && EndOnPeg(q) && EndInScanned(q, s) && EndFacingWall(v, q, FORWARD)
    && NextScanned(q, FORWARD, s)
  }

  lemma ForwardTests(v: View, p: Pose, s: Sight)
    requires v.Roomy()
    ensures Legal(v, p, FORWARD, s) <==>
              p.moving && StartStraightAway(p, FORWARD, s) && ForwardEnd(v, Translate(p.(moving := true), 1), s)
  {}

  lemma FromCentre(v: View, p: Pose, s: Sight)
    requires v.Roomy() && AtCentre(v, p)
    ensures var (cx, cy) := CellBy(p);
            ForwardEnd(v, Translate(p, 1), s) <==>
              OpenAhead(v, (cx, cy), p.dir) && s.scanned(cx + StepX(p), cy + StepY(p))
  {
    EdgeAhead(v, p, FORWARD);
    CellBeyond(p);
  }

  /** From an edge, a step ahead leads to the centre of the cell the edge counts as. */
  lemma EdgeCell(v: View, p: Pose)
    requires InLine(v, p)
    ensures var q := Translate(p, 1);
            && AtCentre(v, q) && CellBy(q) == CellBy(p) && q.dir == p.dir && q.moving == p.moving
            && StepX(q) == StepX(p) && StepY(q) == StepY(p)
  {
    OutOfOpening(v, p);
  }

  lemma AtEndCentre(v: View, q: Pose, s: Sight)
    requires v.Roomy() && AtCentre(v, q)
    ensures var (cx, cy) := CellBy(q);
            ForwardEnd(v, q, s) <==>
              && OpenAhead(v, (cx, cy), q.dir) && s.scanned(cx + StepX(q), cy + StepY(q)) && s.scanned(cx, cy)
  {
    CellIs(q);
    CellBeyond(q);
  }

  lemma FromEdge(v: View, p: Pose, s: Sight)
    requires v.Roomy() && InLine(v, p)
    ensures var (cx, cy) := CellBy(p);
            ForwardEnd(v, Translate(p, 1), s) <==>
              && OpenAhead(v, (cx, cy), p.dir) && s.scanned(cx + StepX(p), cy + StepY(p)) && s.scanned(cx, cy)
  {
    EdgeCell(v, p);
    AtEndCentre(v, Translate(p, 1), s);
  }

  /** Going on: moving, towards a cell of smaller flood that is open and scanned. */
  lemma ForwardIff(v: View, p: Pose, s: Sight)
    requires v.Roomy() && Safe(v, p)
    ensures var (cx, cy) := CellBy(p);
            Legal(v, p, FORWARD, s) <==>
              && p.moving && s.flood(cx + StepX(p), cy + StepY(p)) < s.flood(cx, cy)
              && OpenAhead(v, (cx, cy), p.dir) && s.scanned(cx + StepX(p), cy + StepY(p))
              && (Centred(p) || s.scanned(cx, cy))
  {
    ForwardTests(v, p, s);
    StraightIff(p, s);
    if p.moving {
      assert p.(moving := true) == p;
      if Centred(p) { FromCentre(v, p, s); } else { FromEdge(v, p, s); }
    }
  }

  /** What a curve asks for, once the mouse has turned at the centre `c`. */
  predicate CurveEnd(v: View, c: Pose, m: Move, s: Sight)
    requires v.Roomy()
  {
    var q := Translate(c, 1);
    && EndOnWall(v, q, m) && EndOnPeg(q) && EndInScanned(q, s) && EndFacingWall(v, q, m) && NextScanned(q, m, s)
  }

  lemma CurveTests(v: View, p: Pose, m: Move, s: Sight)
    requires v.Roomy() && (m == INTEGRATE_RIGHT || m == INTEGRATE_LEFT)
    ensures Legal(v, p, m, s) <==>
              Edged(p) && p.moving && CurveEnd(v, Turned(p, m), m, s)
  {}

  /** The next cell ahead is open and scanned. */
  predicate OpenInto(v: View, c: Pose, s: Sight)
    requires v.Roomy()
  {
    OpenAhead(v, CellBy(c), c.dir) && s.scanned(CellBy(c).0 + StepX(c), CellBy(c).1 + StepY(c))
  }

  lemma CurveOut(v: View, c: Pose, m: Move, s: Sight)
    requires v.Roomy() && AtCentre(v, c) && (m == INTEGRATE_RIGHT || m == INTEGRATE_LEFT)
    ensures CurveEnd(v, c, m, s) <==> OpenInto(v, c, s)
  {
    EdgeAhead(v, c, m);
    EdgeScanned(c, m, s);
  }

  lemma EdgeScanned(c: Pose, m: Move, s: Sight)
    requires Centred(c) && (m == INTEGRATE_RIGHT || m == INTEGRATE_LEFT)
    ensures var q, into := Translate(c, 1), s.scanned(CellBy(c).0 + StepX(c), CellBy(c).1 + StepY(c));
            !Centred(q) && EndOnPeg(q) && (EndInScanned(q, s) <==> into) && (NextScanned(q, m, s) <==> into)
  {
    CellBeyond(c);
  }

  /** The middle of a curve: at the centre of the cell ahead, already turned. */
  function Turned(p: Pose, m: Move): Pose
  {
    Translate(p, 1).(moving := true, dir := if m == INTEGRATE_RIGHT then Right(p.dir) else Left(p.dir))
  }

  lemma TurnedAtCentre(v: View, p: Pose, m: Move)
    requires InLine(v, p) && (m == INTEGRATE_RIGHT || m == INTEGRATE_LEFT)
    ensures AtCentre(v, Turned(p, m)) && CellBy(Turned(p, m)) == CellBy(p)
  {
    OutOfOpening(v, p);
  }

  lemma TurnedFaces(p: Pose, m: Move)
    requires m == INTEGRATE_RIGHT || m == INTEGRATE_LEFT
    ensures var c, q := Turned(p, m), Apply(p, m);
            c.dir == q.dir && StepX(c) == StepX(q) && StepY(c) == StepY(q)
  {}

  /** An opening on the side turned to, into a scanned cell. */
  predicate SideOpen(v: View, p: Pose, m: Move, s: Sight)
    requires v.Roomy()
  {
    var (cx, cy) := CellBy(p);
    var q := Apply(p, m);
    OpenAhead(v, (cx, cy), q.dir) && s.scanned(cx + StepX(q), cy + StepY(q))
  }

  lemma CurveFromEdge(v: View, p: Pose, m: Move, s: Sight)
    requires v.Roomy() && InLine(v, p) && (m == INTEGRATE_RIGHT || m == INTEGRATE_LEFT)
    ensures CurveEnd(v, Turned(p, m), m, s) <==> SideOpen(v, p, m, s)
  {
    SideIs(v, p, m, s);
    TurnedAtCentre(v, p, m);
    CurveOut(v, Turned(p, m), m, s);
  }

  lemma SideIs(v: View, p: Pose, m: Move, s: Sight)
    requires v.Roomy() && InLine(v, p) && (m == INTEGRATE_RIGHT || m == INTEGRATE_LEFT)
    ensures SideOpen(v, p, m, s) <==> OpenInto(v, Turned(p, m), s)
  {
    TurnedAtCentre(v, p, m);
    TurnedFaces(p, m);
  }

  /** A curve: on an edge, through the cell ahead, and out through an opening on its side into a scanned cell. */
  lemma CurveIff(v: View, p: Pose, m: Move, s: Sight)
    requires v.Roomy() && Safe(v, p) && (m == INTEGRATE_RIGHT || m == INTEGRATE_LEFT)
    ensures Legal(v, p, m, s) <==> !Centred(p) && SideOpen(v, p, m, s)
  {
    CurveTests(v, p, m, s);
    if !Centred(p) { CurveFromEdge(v, p, m, s); }
  }

  /** Wherever the mouse is: from where, and moving or not, a move can be legal at all. */
  lemma LegalFrom(v: View, p: Pose, m: Move, s: Sight)
    requires v.Roomy() && Legal(v, p, m, s)
    ensures m == START || m == TURN_RIGHT || m == TURN_LEFT || m == TURN_AROUND ==>
              p.x % 2 == 1 && p.y % 2 == 1 && !p.moving
    ensures m == STOP || m == INTEGRATE_RIGHT || m == INTEGRATE_LEFT ==> (p.x % 2 == 0 || p.y % 2 == 0) && p.moving
    ensures m == FORWARD ==> p.moving
  {}

  /** No legal move ends on a peg, from wherever it starts. */
  lemma NeverOnPeg(v: View, p: Pose, m: Move, s: Sight)
    requires v.Roomy() && Legal(v, p, m, s)
    ensures Apply(p, m).x % 2 == 1 || Apply(p, m).y % 2 == 1
  {}

  // ---------------------------------------------------------------- runs of the planner

  /** Stopping brings the mouse to the centre of the cell it is entering. */
  lemma StopsAhead(v: View, q: Pose)
    requires InLine(v, q)
    ensures !Centred(q) && Edged(q) && Centred(Apply(q, STOP)) && CellOf(Apply(q, STOP)) == CellOf(q)
    ensures Apply(q, STOP).dir == q.dir
  {}

  lemma StopLegal(v: View, q: Pose, s: Sight)
    requires v.Roomy() && InLine(v, q) && q.moving && EndInScanned(q, s)
    ensures Legal(v, q, STOP, s)
  {
    StopsAhead(v, q);
  }

  lemma StopScore(v: View, p: Pose, s: Sight, m: Move)
    requires v.Roomy() && m != DONE && InLine(v, Apply(p, m))
    ensures ScoreOf(v, Apply(p, m), STOP, s) == ScoreOf(v, p, m, s).(rotated := false)
  {
    StopsAhead(v, Apply(p, m));
  }

  /** A mouse that drove onto an edge can stop in the cell ahead, and that beats doing nothing. */
  lemma CanStop(v: View, p: Pose, s: Sight, m: Move)
    requires v.Roomy() && Safe(v, p) && Candidate(v, p, s, m) && !Centred(Apply(p, m))
    ensures Candidate(v, Apply(p, m), s, STOP)
  {
    assert InLine(v, Apply(p, m)) && Apply(p, m).moving by { LegalMoveSafe(v, p, m, s); }
    StopLegal(v, Apply(p, m), s);
    StopScore(v, p, s, m);
  }

  /** One turn of the planner: the map and the sight it decides on, and the move made. */
  datatype Plan = Plan(v: View, s: Sight, m: Move)

  function Reached(p: Pose, plans: seq<Plan>): Pose {
    if plans == [] then p else Apply(Reached(p, plans[..|plans| - 1]), plans[|plans| - 1].m)
  }

  /** The planner looks around, and changes its map, only at the centre of a cell. */
  ghost predicate LooksAtCentres(q: Pose, before: Plan, now: Plan)
  {
    && now.v.width == before.v.width && now.v.height == before.v.height
    && (!Centred(q) ==> now.v == before.v && now.s == before.s)
  }

  /** Every move is the planner's choice where it is made. */
  ghost predicate PlannerRun(p: Pose, plans: seq<Plan>)
  {
    if plans == [] then true
    else
      var init, last := plans[..|plans| - 1], plans[|plans| - 1];
      var q := Reached(p, init);
      && PlannerRun(p, init)
      && last.v.Roomy() && Chosen(last.v, q, last.s, last.m)
      && (init != [] ==> LooksAtCentres(q, init[|init| - 1], last))
  }

  /** Where the last turn left the mouse: sound on its map, and able to stop if on an edge. */
  ghost predicate WellPlaced(v: View, s: Sight, q: Pose)
  {
    v.Roomy() && Sound(v, q) && (!Centred(q) ==> Candidate(v, q, s, STOP))
  }

  lemma TurnKeeps(v: View, s: Sight, q: Pose, m: Move)
    requires WellPlaced(v, s, q) && Chosen(v, q, s, m)
    ensures m == DONE ==> Centred(q)
    ensures WellPlaced(v, s, Apply(q, m))
  {
    if m == DONE {
      assert STOP in CANDIDATES && Loses(v, q, s, STOP, ScoreOf(v, q, DONE, s));
    } else {
      MoveSound(v, q, m, s);
      if !Centred(Apply(q, m)) { CanStop(v, q, s, m); }
    }
  }

  /** A new map and a new sight at a centre leave the mouse well placed; on an edge there are none. */
  lemma LookKeeps(before: Plan, now: Plan, q: Pose)
    requires WellPlaced(before.v, before.s, q) && LooksAtCentres(q, before, now) && now.v.Roomy()
    ensures WellPlaced(now.v, now.s, q)
  {}

  /**
   Every run of the planner from a stopped cell centre, on a map that it may change at centres:
   the mouse is sound before and after the last move, which is DONE only at a centre.
   */
  lemma {:induction false} PlannerSafe(p: Pose, plans: seq<Plan>)
    requires plans != [] && PlannerRun(p, plans) && AtCentre(plans[0].v, p) && !p.moving
    ensures var last, q := plans[|plans| - 1], Reached(p, plans[..|plans| - 1]);
            && last.v.Roomy() && Sound(last.v, q) && Sound(last.v, Apply(q, last.m))
            && (last.m == DONE ==> Centred(q))
            && WellPlaced(last.v, last.s, Reached(p, plans))
    decreases |plans|
  {
    var init, last := plans[..|plans| - 1], plans[|plans| - 1];
    var q := Reached(p, init);
    if init != [] {
      PlannerSafe(p, init);
      LookKeeps(init[|init| - 1], last, q);
    }
    TurnKeeps(last.v, last.s, q, last.m);
  }
}
