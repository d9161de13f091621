/** The game loop of the face-steered shooter ("CIs Space"): one iteration
    of the `while (true)` loop of `main`, stripped of capture, detection and
    drawing. Shots and targets are lists of points mutated in place; the
    counters are the loop's local variables.

    The specification is the value-level step function `Next` over a
    `World` snapshot; the class `Session` keeps the same variables as fields
    and performs each stage with the source's own in-place loops, proved
    equal to `Next`. */
module InvadingSpace {
  import opened Geometry

  const ShipY := 700          // `nave_y`, fixed
  const ShipSize := 80        // the ship sprite is resized to 80x80
  const TargetSize := 100     // the target sprite is resized to 100x100
  const ShotSpeed := 15       // a shot moves up 15 rows per iteration
  const TargetSpeed := 8      // a target moves down 8 rows per iteration
  const MaxTargets := 10      // population ceiling
  const SpawnDepth := 500     // a new target starts in (-500, 0]
  const HitRange := 40        // proximity box of the shot/target test
  const HitScore := 100
  const HitsPerPhase := 5
  const FireInterval := 3     // seconds between automatic shots
  const MuzzleX := 45         // shot spawn offset from the ship
  const MuzzleY := 10

  /** What one iteration reads from the outside world: whether a frame was
      captured, the first detected face, the two `rand()` results used by the
      target spawn, and the wall clock in whole seconds. */
  datatype Input = Input(captured: bool, face: Option<Rect>, randX: nat, randY: nat, elapsed: int)

  /** How the iteration ends: the loop is left, the phase banner for
      `phase` was shown (the iteration `continue`s), or a normal frame. */
  datatype Outcome = Exit | Announce(phase: int) | Play

  /** The loop-carried variables of the game. */
  datatype World = World(
    shots: seq<Point>,
    targets: seq<Point>,
    lastShotTime: int,
    score: int,
    gameOver: bool,
    explosionPos: Point,
    hits: int,
    phase: int,
    h: int)

  datatype Transition = Transition(world: World, outcome: Outcome)

  /** Shots and targets left, and targets hit, by the collision pass. */
  datatype Resolution = Resolution(shots: seq<Point>, targets: seq<Point>, hits: nat)

  /** The variables as initialised before the loop. */
  function Initial(): World
  {
    World([], [], 0, 0, false, Point(0, 0), 0, 1, 0)
  }

  /** `s` without its element at `i` (`vector::erase`). */
  function Remove(s: seq<Point>, i: nat): seq<Point>
    requires i < |s|
  {
    s[..i] + s[i + 1..]
  }

  lemma RemoveMultiset(s: seq<Point>, i: nat)
    requires i < |s|
    ensures multiset(Remove(s, i)) + multiset{s[i]} == multiset(s)
  {
    assert s == s[..i] + [s[i]] + s[i + 1..];
  }

  // ---------------------------------------------------------------------
  // Stages of one iteration, as functions on values

  /** The ship's column: 0 without a face; with one, the face's centre
      minus half the ship, clamped to the screen. */
  function SteerShip(face: Option<Rect>, width: int): (x: int)
    requires width >= ShipSize
    ensures 0 <= x <= width - ShipSize
    ensures face.None? ==> x == 0
    ensures face.Some? ==>
      var want := face.value.x + face.value.width / 2 - ShipSize / 2;
      (0 <= want <= width - ShipSize ==> x == want) &&
      (want < 0 ==> x == 0) &&
      (want > width - ShipSize ==> x == width - ShipSize)
  {
    if face.None? then 0
    else Min(Max(face.value.x + face.value.width / 2 - ShipSize / 2, 0), width - ShipSize)
  }

  /** One shot moved up by one step. */
  function Up(p: Point): Point
  {
    Point(p.x, p.y - ShotSpeed)
  }

  /** The position a surviving shot came from. */
  function Below(p: Point): Point
  {
    Point(p.x, p.y + ShotSpeed)
  }

  /** The shots after moving each up and dropping those above the screen;
      no shot left is above the screen. */
  function MovedShots(s: seq<Point>): (r: seq<Point>)
    ensures |r| <= |s|
    ensures forall k :: 0 <= k < |r| ==> r[k].y >= 0
  {
    if s == [] then []
    else
      var p := Up(s[0]);
      (if p.y < 0 then [] else [p]) + MovedShots(s[1..])
  }

  /** Every survivor is a shot moved up by exactly `ShotSpeed`, and every
      shot that stays on screen survives. */
  lemma {:induction false} MovedShotsMembers(s: seq<Point>)
    ensures forall p :: p in MovedShots(s) ==> Below(p) in s
    ensures forall q :: q in s && Up(q).y >= 0 ==> Up(q) in MovedShots(s)
  {
    if s != [] {
      MovedShotsMembers(s[1..]);
      assert s == [s[0]] + s[1..];
    }
  }

  /** Moving and culling works shot by shot: survivors keep their order. */
  lemma {:induction false} MovedShotsAppend(a: seq<Point>, b: seq<Point>)
    ensures MovedShots(a + b) == MovedShots(a) + MovedShots(b)
  {
    if a == [] {
      assert a + b == b;
    } else {
      assert (a + b)[1..] == a[1..] + b;
      MovedShotsAppend(a[1..], b);
    }
  }

  /** A single shot survives, moved up by exactly `ShotSpeed`, iff it stays
      on screen. */
  lemma MovedShotsSingle(p: Point)
    ensures MovedShots([p]) == if p.y - ShotSpeed < 0 then [] else [Point(p.x, p.y - ShotSpeed)]
  {
    assert [p][1..] == [];
  }

  /** The new target: `rand() % (cols - 100)` and `-rand() % 500` with C's
      truncating remainder. */
  function SpawnPoint(randX: nat, randY: nat, width: int): (p: Point)
    requires width > TargetSize
    ensures 0 <= p.x < width - TargetSize
    ensures -SpawnDepth < p.y <= 0
  {
    Point(randX % (width - TargetSize), CRem(-(randY as int), SpawnDepth))
  }

  /** The target list after the spawn stage: one target more, at the end,
      exactly when fewer than `MaxTargets` exist. */
  function Spawn(targets: seq<Point>, randX: nat, randY: nat, width: int): (r: seq<Point>)
    requires width > TargetSize
    ensures |targets| < MaxTargets ==> |r| == |targets| + 1 && r[|targets|] == SpawnPoint(randX, randY, width)
    ensures |targets| >= MaxTargets ==> r == targets
    ensures |targets| <= MaxTargets ==> |r| <= MaxTargets
    ensures r[..|targets|] == targets
  {
    if |targets| < MaxTargets then targets + [SpawnPoint(randX, randY, width)] else targets
  }

  function Down(p: Point): Point
  {
    Point(p.x, p.y + TargetSpeed)
  }

  /** Every target moved down by exactly `TargetSpeed`, none removed. */
  function MovedTargets(t: seq<Point>): (r: seq<Point>)
    ensures |r| == |t|
    ensures forall k :: 0 <= k < |t| ==> r[k] == Point(t[k].x, t[k].y + TargetSpeed)
  {
    if t == [] then [] else [Down(t[0])] + MovedTargets(t[1..])
  }

  /** A target has reached the ship's row while overlapping it horizontally. */
  predicate Overlaps(t: Point, shipX: int)
  {
    t.y >= ShipY && t.x + TargetSize > shipX && t.x < shipX + ShipSize
  }

  predicate AnyOverlap(ts: seq<Point>, shipX: int)
  {
    exists k :: 0 <= k < |ts| && Overlaps(ts[k], shipX)
  }

  /** The proximity test between a shot and a target. */
  predicate Near(s: Point, t: Point)
  {
    Abs(s.x - t.x) < HitRange && Abs(s.y - t.y) < HitRange
  }

  /** The first target, in list order, close enough to the shot. */
  function FirstNear(s: Point, ts: seq<Point>): (r: Option<nat>)
    ensures r.Some? ==> r.value < |ts| && Near(s, ts[r.value])
    ensures r.Some? ==> forall k :: 0 <= k < r.value ==> !Near(s, ts[k])
    ensures r.None? ==> forall k :: 0 <= k < |ts| ==> !Near(s, ts[k])
  {
    if ts == [] then None
    else if Near(s, ts[0]) then Some(0)
    else match FirstNear(s, ts[1..])
      case None => None
      case Some(j) => Some(j + 1)
  }

  /** The collision pass from shot `i` on. A shot near some target removes
      that target (the first in list order) and itself; the pass then goes on
      at index `i + 1` of the shortened list, so the shot that slid into
      position `i` is not examined in this iteration. */
  function ResolveFrom(shots: seq<Point>, targets: seq<Point>, i: nat): (r: Resolution)
    decreases if i <= |shots| then |shots| - i else 0
    ensures |r.shots| + r.hits == |shots| && |r.targets| + r.hits == |targets|
    ensures i <= |shots| ==> r.hits <= |shots| - i
  {
    if i >= |shots| then Resolution(shots, targets, 0)
    else match FirstNear(shots[i], targets)
      case None => ResolveFrom(shots, targets, i + 1)
      case Some(j) =>
        var r := ResolveFrom(Remove(shots, i), Remove(targets, j), i + 1);
        Resolution(r.shots, r.targets, r.hits + 1)
  }

  /** The pass never touches the shots before the index it starts at. */
  lemma {:induction false} ResolveFromPrefix(shots: seq<Point>, targets: seq<Point>, i: nat)
    requires i <= |shots|
    decreases |shots| - i
    ensures i <= |ResolveFrom(shots, targets, i).shots|
    ensures ResolveFrom(shots, targets, i).shots[..i] == shots[..i]
  {
    if i < |shots| {
      match FirstNear(shots[i], targets)
      case None =>
        ResolveFromPrefix(shots, targets, i + 1);
        assert shots[..i] == shots[..i + 1][..i];
      case Some(j) =>
        var rest := Remove(shots, i);
        var r := ResolveFrom(rest, Remove(targets, j), i + 1);
        assert ResolveFrom(shots, targets, i).shots == r.shots;
        if i + 1 <= |rest| {
          ResolveFromPrefix(rest, Remove(targets, j), i + 1);
          assert r.shots[..i] == r.shots[..i + 1][..i] == rest[..i + 1][..i];
        }
        assert rest[..i] == shots[..i];
    }
  }

  /** The collision pass only removes: what it leaves are shots and targets
      it was given. */
  lemma {:induction false} ResolveFromSubset(shots: seq<Point>, targets: seq<Point>, i: nat)
    decreases if i <= |shots| then |shots| - i else 0
    ensures var r := ResolveFrom(shots, targets, i);
      multiset(r.shots) <= multiset(shots) && multiset(r.targets) <= multiset(targets)
  {
    if i < |shots| {
      match FirstNear(shots[i], targets)
      case None => ResolveFromSubset(shots, targets, i + 1);
      case Some(j) =>
        RemoveMultiset(shots, i);
        RemoveMultiset(targets, j);
        ResolveFromSubset(Remove(shots, i), Remove(targets, j), i + 1);
    }
  }

  /** The first target near shot `i` is the one the pass removes, with the
      shot, before going on at the next index. */
  lemma ResolveHit(s: seq<Point>, t: seq<Point>, i: nat, j: nat)
    requires i < |s| && FirstNear(s[i], t) == Some(j)
    ensures var r := ResolveFrom(Remove(s, i), Remove(t, j), i + 1);
      ResolveFrom(s, t, i) == Resolution(r.shots, r.targets, r.hits + 1)
  {
  }

  /** A shot near no target is kept and the pass goes on at the next index. */
  lemma ResolveMiss(s: seq<Point>, t: seq<Point>, i: nat)
    requires i < |s| && FirstNear(s[i], t) == None
    ensures ResolveFrom(s, t, i) == ResolveFrom(s, t, i + 1)
  {
  }

  /** Does the automatic fire trigger at this clock reading? */
  predicate FireDue(lastShotTime: int, elapsed: int)
  {
    elapsed - lastShotTime >= FireInterval
  }

  function Muzzle(shipX: int): Point
  {
    Point(shipX + MuzzleX, ShipY - MuzzleY)
  }

  // The stages of a played iteration, in the source's order.

  /** Shots move up and those above the screen are dropped. */
  function ShotStage(w: World): (r: World)
    ensures ShotsOnScreen(r.shots) && |r.shots| <= |w.shots|
    ensures r == w.(shots := r.shots)
  {
    w.(shots := MovedShots(w.shots))
  }

  /** A target is added when fewer than ten exist. */
  function SpawnStage(w: World, width: int, randX: nat, randY: nat): (r: World)
    requires width > TargetSize
    ensures r == w.(targets := r.targets)
    ensures |w.targets| <= |r.targets| && r.targets[..|w.targets|] == w.targets
    ensures |w.targets| < MaxTargets <==> |r.targets| == |w.targets| + 1
    ensures |w.targets| <= MaxTargets ==> |r.targets| <= MaxTargets
  {
    w.(targets := Spawn(w.targets, randX, randY, width))
  }

  /** Targets move down; any that overlaps the ship ends the game, with the
      explosion at the ship. */
  function TargetStage(w: World, shipX: int): (r: World)
    ensures r == w.(targets := r.targets, gameOver := r.gameOver, explosionPos := r.explosionPos)
    ensures |r.targets| == |w.targets|
    ensures r.gameOver <==> w.gameOver || exists k :: 0 <= k < |r.targets| && Overlaps(r.targets[k], shipX)
    ensures !w.gameOver && r.gameOver ==> r.explosionPos == Point(shipX, ShipY)
  {
    var moved := MovedTargets(w.targets);
    var over := AnyOverlap(moved, shipX);
    w.(targets := moved,
       gameOver := w.gameOver || over,
       explosionPos := if over then Point(shipX, ShipY) else w.explosionPos)
  }

  /** Shots and targets that meet are removed, 100 points and one hit each. */
  function CollisionStage(w: World): (r: World)
    ensures r == w.(shots := r.shots, targets := r.targets, score := r.score, hits := r.hits)
    ensures r.hits >= w.hits && r.score == w.score + HitScore * (r.hits - w.hits)
    ensures |r.shots| + (r.hits - w.hits) == |w.shots| && |r.targets| + (r.hits - w.hits) == |w.targets|
  {
    var r := ResolveFrom(w.shots, w.targets, 0);
    w.(shots := r.shots, targets := r.targets, score := w.score + HitScore * r.hits, hits := w.hits + r.hits)
  }

  /** The automatic shot from the ship's muzzle. */
  function FireStage(w: World, shipX: int, elapsed: int): (r: World)
    ensures r == w.(shots := r.shots, lastShotTime := r.lastShotTime)
    ensures |r.shots| == |w.shots| + (if FireDue(w.lastShotTime, elapsed) then 1 else 0)
    ensures r.shots[..|w.shots|] == w.shots
    ensures r.lastShotTime == if FireDue(w.lastShotTime, elapsed) then elapsed else w.lastShotTime
  {
    if FireDue(w.lastShotTime, elapsed) then
      w.(shots := w.shots + [Muzzle(shipX)], lastShotTime := elapsed)
    else w
  }

  /** A normal (non-banner) iteration after a frame was captured. */
  function PlayFrame(w: World, width: int, inp: Input): (r: World)
    requires width > TargetSize
    ensures r.phase == w.phase && r.h == w.h
    ensures r.hits >= w.hits && r.score == w.score + HitScore * (r.hits - w.hits)
    ensures w.gameOver ==> r.gameOver
  {
    var shipX := SteerShip(inp.face, width);
    FireStage(CollisionStage(TargetStage(SpawnStage(ShotStage(w), width, inp.randX, inp.randY), shipX)), shipX, inp.elapsed)
  }

  /** One iteration of the game loop. */
  function Next(w: World, width: int, inp: Input): (t: Transition)
    requires width > TargetSize
    ensures t.outcome == Exit ==> t.world == w
    ensures t.outcome.Announce? ==> t.outcome.phase == w.phase && t.world.hits == 0
    ensures t.outcome == Play ==> !w.gameOver && inp.captured && w.hits < HitsPerPhase && w.h != 0
    ensures t.world.score >= w.score && t.world.phase >= w.phase
    ensures t.world.phase - t.world.h == w.phase - w.h
  {
    if w.gameOver then Transition(w, Exit)
    else if w.hits >= HitsPerPhase || w.h == 0 then
      Transition(w.(hits := 0, h := w.h + 1, phase := w.phase + 1), Announce(w.phase))
    else if !inp.captured then Transition(w, Exit)
    else Transition(PlayFrame(w, width, inp), Play)
  }

  // ---------------------------------------------------------------------
  // Properties of the step function

  /** Every target lies in the spawn columns and below the spawn band. */
  ghost predicate TargetsInside(ts: seq<Point>, width: int)
  {
    forall k :: 0 <= k < |ts| ==> 0 <= ts[k].x < width - TargetSize && ts[k].y > -SpawnDepth
  }

  /** No shot is above the top of the screen. */
  ghost predicate ShotsOnScreen(s: seq<Point>)
  {
    forall k :: 0 <= k < |s| ==> s[k].y >= 0
  }

  /** What holds of the loop variables between iterations. */
  ghost predicate Inv(w: World, width: int)
  {
    && |w.targets| <= MaxTargets
    && TargetsInside(w.targets, width)
    && ShotsOnScreen(w.shots)
    && w.score >= 0 && w.score % HitScore == 0
    && w.hits >= 0
    && w.phase == w.h + 1
    && (w.gameOver ==> w.explosionPos.y == ShipY && 0 <= w.explosionPos.x <= width - ShipSize)
  }

  lemma InitialInv(width: int)
    requires width > TargetSize
    ensures Inv(Initial(), width)
  {
  }

  lemma SpawnKeepsInside(ts: seq<Point>, randX: nat, randY: nat, width: int)
    requires width > TargetSize && TargetsInside(ts, width)
    ensures TargetsInside(Spawn(ts, randX, randY, width), width)
  {
    var r := Spawn(ts, randX, randY, width);
    forall k | 0 <= k < |ts| ensures r[k] == ts[k] {
      assert r[k] == r[..|ts|][k];
    }
  }

  lemma {:induction false} MovedKeepsInside(ts: seq<Point>, width: int)
    requires TargetsInside(ts, width)
    ensures TargetsInside(MovedTargets(ts), width)
  {
  }

  /** The collision pass keeps both lists' bounds, as it only removes. */
  lemma ResolveKeepsBounds(shots: seq<Point>, targets: seq<Point>, width: int)
    requires TargetsInside(targets, width) && ShotsOnScreen(shots)
    ensures var r := ResolveFrom(shots, targets, 0);
      TargetsInside(r.targets, width) && ShotsOnScreen(r.shots)
  {
    var r := ResolveFrom(shots, targets, 0);
    ResolveFromSubset(shots, targets, 0);
    forall k | 0 <= k < |r.targets|
      ensures 0 <= r.targets[k].x < width - TargetSize && r.targets[k].y > -SpawnDepth
    {
      assert r.targets[k] in multiset(r.targets);
      assert r.targets[k] in targets;
    }
    forall k | 0 <= k < |r.shots| ensures r.shots[k].y >= 0 {
      assert r.shots[k] in multiset(r.shots);
      assert r.shots[k] in shots;
    }
  }

  // Each stage keeps the invariant, given a ship inside the screen.

  lemma ShotStageInv(w: World, width: int)
    requires Inv(w, width)
    ensures Inv(ShotStage(w), width)
  {
  }

  lemma SpawnStageInv(w: World, width: int, randX: nat, randY: nat)
    requires width > TargetSize && Inv(w, width)
    ensures Inv(SpawnStage(w, width, randX, randY), width)
  {
    SpawnKeepsInside(w.targets, randX, randY, width);
  }

  lemma TargetStageInv(w: World, width: int, shipX: int)
    requires Inv(w, width) && 0 <= shipX <= width - ShipSize
    ensures Inv(TargetStage(w, shipX), width)
  {
    MovedKeepsInside(w.targets, width);
  }

  lemma CollisionStageInv(w: World, width: int)
    requires Inv(w, width)
    ensures Inv(CollisionStage(w), width)
  {
    ResolveKeepsBounds(w.shots, w.targets, width);
  }

  lemma FireStageInv(w: World, width: int, shipX: int, elapsed: int)
    requires Inv(w, width)
    ensures Inv(FireStage(w, shipX, elapsed), width)
  {
  }

  /** A played iteration keeps the invariant. */
  lemma PlayPreservesInv(w: World, width: int, inp: Input)
    requires width > TargetSize && Inv(w, width)
    ensures Inv(PlayFrame(w, width, inp), width)
  {
    var shipX := SteerShip(inp.face, width);
    var w1 := ShotStage(w);
    ShotStageInv(w, width);
    var w2 := SpawnStage(w1, width, inp.randX, inp.randY);
    SpawnStageInv(w1, width, inp.randX, inp.randY);
    var w3 := TargetStage(w2, shipX);
    TargetStageInv(w2, width, shipX);
    var w4 := CollisionStage(w3);
    CollisionStageInv(w3, width);
    FireStageInv(w4, width, shipX, inp.elapsed);
  }

  /** Every iteration keeps the invariant: at most ten targets, all inside
      the spawn columns and below the spawn band, no shot above the screen,
      a score that is a non-negative multiple of 100, `phase == h + 1`, and
      an explosion on the ship's row. */
  lemma NextPreservesInv(w: World, width: int, inp: Input)
    requires width > TargetSize
    requires Inv(w, width)
    ensures Inv(Next(w, width, inp).world, width)
  {
    if !w.gameOver && !(w.hits >= HitsPerPhase || w.h == 0) && inp.captured {
      PlayPreservesInv(w, width, inp);
    }
  }

  /** Game over is terminal: the iteration after it leaves the loop and
      changes nothing. */
  lemma GameOverLatch(w: World, width: int, inp: Input)
    requires width > TargetSize
    requires w.gameOver
    ensures Next(w, width, inp) == Transition(w, Exit)
  {
  }

  /** A moved target on the ship ends the game at the ship's position, and
      the following iteration exits. */
  lemma OverlapEndsGame(w: World, width: int, inp: Input, inp': Input)
    requires width > TargetSize
    requires !w.gameOver && !(w.hits >= HitsPerPhase || w.h == 0) && inp.captured
    requires AnyOverlap(MovedTargets(Spawn(w.targets, inp.randX, inp.randY, width)), SteerShip(inp.face, width))
    ensures var w' := Next(w, width, inp).world;
      w'.gameOver && w'.explosionPos == Point(SteerShip(inp.face, width), ShipY) &&
      Next(w', width, inp') == Transition(w', Exit)
  {
  }

  /** The phase banner: taken when five hits were counted or on the first
      iteration; it resets the hit counter, advances `phase` and `h`, and
      moves, spawns and scores nothing. */
  lemma PhaseStep(w: World, width: int, inp: Input)
    requires width > TargetSize
    requires !w.gameOver && (w.hits >= HitsPerPhase || w.h == 0)
    ensures var t := Next(w, width, inp);
      t.outcome == Announce(w.phase) &&
      t.world.hits == 0 && t.world.phase == w.phase + 1 && t.world.h == w.h + 1 &&
      t.world.shots == w.shots && t.world.targets == w.targets && t.world.score == w.score
  {
  }

  /** The first iteration of a fresh game shows the banner of phase 1. */
  lemma FirstIterationAnnounces(width: int, inp: Input)
    requires width > TargetSize
    ensures Next(Initial(), width, inp) == Transition(Initial().(h := 1, phase := 2), Announce(1))
  {
  }

  /** Scoring in a played iteration: +100 and one hit per collision, so the
      score never decreases; the hit counter and the score move together. */
  lemma PlayScoring(w: World, width: int, inp: Input)
    requires width > TargetSize
    requires !w.gameOver && !(w.hits >= HitsPerPhase || w.h == 0) && inp.captured
    ensures var w' := Next(w, width, inp).world;
      w'.hits >= w.hits && w'.score == w.score + HitScore * (w'.hits - w.hits) && w'.score >= w.score
  {
  }

  /** Removing a hit pair: every hit removes one shot and one target. */
  lemma PlayRemovesInPairs(w: World, width: int, inp: Input)
    requires width > TargetSize
    requires !w.gameOver && !(w.hits >= HitsPerPhase || w.h == 0) && inp.captured
    ensures var w' := Next(w, width, inp).world;
      var spawned := Spawn(w.targets, inp.randX, inp.randY, width);
      |w'.targets| + (w'.hits - w.hits) == |spawned| &&
      |w'.shots| + (w'.hits - w.hits) ==
        |MovedShots(w.shots)| + (if FireDue(w.lastShotTime, inp.elapsed) then 1 else 0)
  {
  }

  /** Automatic fire: the muzzle shot is appended to the collision pass's
      survivors iff at least three seconds passed since the last shot, and
      then the time is recorded; otherwise the shots and the time are kept. */
  lemma AutoFireCadence(w: World, width: int, inp: Input)
    requires width > TargetSize
    requires !w.gameOver && !(w.hits >= HitsPerPhase || w.h == 0) && inp.captured
    ensures var shipX := SteerShip(inp.face, width);
      var c := CollisionStage(TargetStage(SpawnStage(ShotStage(w), width, inp.randX, inp.randY), shipX));
      var w' := Next(w, width, inp).world;
      (FireDue(w.lastShotTime, inp.elapsed) ==>
         w'.shots == c.shots + [Point(shipX + MuzzleX, ShipY - MuzzleY)] && w'.lastShotTime == inp.elapsed) &&
      (!FireDue(w.lastShotTime, inp.elapsed) ==> w'.shots == c.shots && w'.lastShotTime == w.lastShotTime)
  {
  }

  /** In a played iteration the game ends exactly when some target, after
      spawning and moving, overlaps the steered ship. */
  lemma GameOverIffOverlap(w: World, width: int, inp: Input)
    requires width > TargetSize
    requires !w.gameOver && !(w.hits >= HitsPerPhase || w.h == 0) && inp.captured
    ensures Next(w, width, inp).world.gameOver <==>
      AnyOverlap(MovedTargets(Spawn(w.targets, inp.randX, inp.randY, width)), SteerShip(inp.face, width))
  {
  }

  /** The game loop fed one input per iteration, until it is left. */
  function Run(w: World, width: int, inputs: seq<Input>): (r: World)
    requires width > TargetSize
    ensures r.phase >= w.phase && r.phase - r.h == w.phase - w.h
    decreases |inputs|
  {
    if inputs == [] then w
    else
      var t := Next(w, width, inputs[0]);
      if t.outcome == Exit then t.world else Run(t.world, width, inputs[1..])
  }

  /** Over any run the invariant holds and the score never decreases; a
      game that is over stays exactly as it is. */
  lemma {:induction false} RunPreservesInv(w: World, width: int, inputs: seq<Input>)
    requires width > TargetSize && Inv(w, width)
    ensures Inv(Run(w, width, inputs), width)
    ensures Run(w, width, inputs).score >= w.score
    ensures w.gameOver ==> Run(w, width, inputs) == w
    decreases |inputs|
  {
    if inputs != [] {
      var t := Next(w, width, inputs[0]);
      NextPreservesInv(w, width, inputs[0]);
      if !w.gameOver && !(w.hits >= HitsPerPhase || w.h == 0) && inputs[0].captured {
        PlayScoring(w, width, inputs[0]);
      }
      if t.outcome != Exit {
        RunPreservesInv(t.world, width, inputs[1..]);
      }
    }
  }

  /** A shot near a target removes both: two shots each near a different
      target, and the first shot's hit makes the pass skip the second. */
  lemma {:induction false} ErasedShotSkipsNext()
    ensures var r := ResolveFrom([Point(0, 0), Point(500, 0)], [Point(0, 10), Point(500, 10)], 0);
      r == Resolution([Point(500, 0)], [Point(500, 10)], 1)
  {
    var s, t := [Point(0, 0), Point(500, 0)], [Point(0, 10), Point(500, 10)];
    assert Near(s[0], t[0]);
    assert FirstNear(s[0], t) == Some(0);
    assert Remove(s, 0) == [Point(500, 0)];
    assert Remove(t, 0) == [Point(500, 10)];
    assert ResolveFrom([Point(500, 0)], [Point(500, 10)], 1) == Resolution([Point(500, 0)], [Point(500, 10)], 0);
  }

  /** One step of the in-place shot loop: the shot at index `i` of the
      working list is shot `k` of the original list. */
  lemma MovedShotsStep(orig: seq<Point>, k: nat, cur: seq<Point>, i: nat)
    requires i < |cur| && k <= |orig|
    requires cur[..i] == MovedShots(orig[..k]) && cur[i..] == orig[k..]
    ensures k < |orig| && cur[i] == orig[k]
    ensures var moved := cur[i := Up(cur[i])];
      if moved[i].y < 0 then
        moved[..i] + moved[i + 1..] == MovedShots(orig[..k + 1]) + orig[k + 1..] &&
        (moved[..i] + moved[i + 1..])[..i] == MovedShots(orig[..k + 1]) &&
        (moved[..i] + moved[i + 1..])[i..] == orig[k + 1..]
      else
        moved[..i + 1] == MovedShots(orig[..k + 1]) && moved[i + 1..] == orig[k + 1..]
  {
    assert cur[i..][0] == orig[k..][0];
    assert orig[..k + 1] == orig[..k] + [orig[k]];
    MovedShotsAppend(orig[..k], [orig[k]]);
    MovedShotsSingle(orig[k]);
    assert orig[k + 1..] == orig[k..][1..];
    assert cur[i + 1..] == cur[i..][1..];
  }

  // ---------------------------------------------------------------------
  // The loop variables as an object, each stage done in place

  class Session {
    const width: int        // columns of the game background
    var shots: seq<Point>
    var targets: seq<Point>
    var lastShotTime: int
    var score: int
    var gameOver: bool
    var explosionPos: Point
    var hits: int
    var phase: int
    var h: int

    function Snapshot(): World
      reads this
    {
      World(shots, targets, lastShotTime, score, gameOver, explosionPos, hits, phase, h)
    }

    ghost predicate Valid()
      reads this
    {
      width > TargetSize && Inv(Snapshot(), width)
    }

    constructor (width: int)
      requires width > TargetSize
      ensures this.width == width && Snapshot() == Initial() && Valid()
    {
      this.width := width;
      shots, targets := [], [];
      lastShotTime, score := 0, 0;
      gameOver := false;
      explosionPos := Point(0, 0);
      hits, phase, h := 0, 1, 0;
    }

    /** Moves every shot up and erases, in place, those that left the
        screen; after an erase the same index is examined again. */
    method MoveShots()
      modifies this`shots
      ensures Snapshot() == ShotStage(old(Snapshot()))
    {
      var i := 0;
      ghost var k := 0;
      while i < |shots|
        invariant 0 <= i <= |shots| && 0 <= k <= |old(shots)|
        invariant shots[..i] == MovedShots(old(shots)[..k])
        invariant shots[i..] == old(shots)[k..]
        decreases |shots| - i
      {
        ghost var prev := shots;
        MovedShotsStep(old(shots), k, prev, i);
        shots := shots[i := Point(shots[i].x, shots[i].y - ShotSpeed)];
        if shots[i].y < 0 {
          shots := shots[..i] + shots[i + 1..];
        } else {
          i := i + 1;
        }
        k := k + 1;
      }
      assert old(shots)[..k] == old(shots);
    }

    /** Adds one target when fewer than ten exist. */
    method SpawnTarget(randX: nat, randY: nat)
      requires width > TargetSize
      modifies this`targets
      ensures Snapshot() == SpawnStage(old(Snapshot()), width, randX, randY)
    {
      if |targets| < MaxTargets {
        var x := randX % (width - TargetSize);
        targets := targets + [Point(x, CRem(-(randY as int), SpawnDepth))];
      }
    }

    /** Moves every target down and latches game over, recording the
        explosion at the ship, for each target that overlaps the ship; the
        loop does not stop at the first such target. */
    method MoveTargets(shipX: int)
      modifies this`targets, this`gameOver, this`explosionPos
      ensures Snapshot() == TargetStage(old(Snapshot()), shipX)
    {
      var i := 0;
      while i < |targets|
        invariant 0 <= i <= |targets| == |old(targets)|
        invariant forall k :: 0 <= k < i ==> targets[k] == Down(old(targets)[k])
        invariant forall k :: i <= k < |targets| ==> targets[k] == old(targets)[k]
        invariant gameOver == (old(gameOver) || exists k :: 0 <= k < i && Overlaps(targets[k], shipX))
        invariant explosionPos ==
          if exists k :: 0 <= k < i && Overlaps(targets[k], shipX) then Point(shipX, ShipY) else old(explosionPos)
      {
        targets := targets[i := Point(targets[i].x, targets[i].y + TargetSpeed)];
        if targets[i].y >= ShipY && targets[i].x + TargetSize > shipX && targets[i].x < shipX + ShipSize {
          gameOver := true;
          explosionPos := Point(shipX, ShipY);
        }
        i := i + 1;
      }
      assert targets == MovedTargets(old(targets));
    }

    /** The inner loop of the collision pass: the index of the first target
        within 40 pixels of the shot on both axes, if any. */
    method FindTarget(shot: Point) returns (found: Option<nat>)
      ensures found == FirstNear(shot, targets)
    {
      var j := 0;
      while j < |targets|
        invariant 0 <= j <= |targets|
        invariant forall k :: 0 <= k < j ==> !Near(shot, targets[k])
      {
        if Abs(shot.x - targets[j].x) < HitRange && Abs(shot.y - targets[j].y) < HitRange {
          return Some(j);
        }
        j := j + 1;
      }
      return None;
    }

    /** The collision pass: for each shot, the first near target is erased,
        100 points and one hit are counted, the shot is erased and the inner
        loop is left; the outer index then advances past the erased slot. */
    method ResolveCollisions()
      modifies this`shots, this`targets, this`score, this`hits
      ensures Snapshot() == CollisionStage(old(Snapshot()))
    {
      ghost var goal := ResolveFrom(shots, targets, 0);
      var i: nat := 0;
      while i < |shots|
        invariant i <= |shots| + 1
        invariant hits >= old(hits)
        invariant score == old(score) + HitScore * (hits - old(hits))
        invariant goal.shots == ResolveFrom(shots, targets, i).shots
        invariant goal.targets == ResolveFrom(shots, targets, i).targets
        invariant goal.hits == ResolveFrom(shots, targets, i).hits + (hits - old(hits))
        decreases |shots| + 1 - i
      {
        var found := FindTarget(shots[i]);
        if found.Some? {
          var j := found.value;
          ResolveHit(shots, targets, i, j);
          targets := targets[..j] + targets[j + 1..];
          score := score + HitScore;
          hits := hits + 1;
          shots := shots[..i] + shots[i + 1..];
        } else {
          ResolveMiss(shots, targets, i);
        }
        i := i + 1;
      }
    }

    /** Fires from the ship's muzzle when three seconds have passed. */
    method AutoFire(shipX: int, elapsed: int)
      modifies this`shots, this`lastShotTime
      ensures Snapshot() == FireStage(old(Snapshot()), shipX, elapsed)
    {
      if elapsed - lastShotTime >= FireInterval {
        shots := shots + [Point(shipX + MuzzleX, ShipY - MuzzleY)];
        lastShotTime := elapsed;
      }
    }

    /** The stages of a played iteration, in the source's order, with the
        ship already steered to `shipX`. */
    method PlayStages(inp: Input, shipX: int)
      requires width > TargetSize && shipX == SteerShip(inp.face, width)
      modifies this
      ensures Snapshot() == PlayFrame(old(Snapshot()), width, inp)
    {
      MoveShots();
      SpawnTarget(inp.randX, inp.randY);
      MoveTargets(shipX);
      ResolveCollisions();
      AutoFire(shipX, inp.elapsed);
    }

    /** One iteration of the game loop. */
    method Iterate(inp: Input) returns (outcome: Outcome)
      requires Valid()
      modifies this
      ensures Valid()
      ensures Snapshot() == Next(old(Snapshot()), width, inp).world
      ensures outcome == Next(old(Snapshot()), width, inp).outcome
    {
      NextPreservesInv(Snapshot(), width, inp);
      if gameOver {
        return Exit;
      }
      if hits >= HitsPerPhase || h == 0 {
        hits := 0;
        outcome := Announce(phase);
        h := h + 1;
        phase := phase + 1;
        return;
      }
      if !inp.captured {
        return Exit;
      }
      var shipX := 0;
      if inp.face.Some? {
        shipX := inp.face.value.x + inp.face.value.width / 2 - ShipSize / 2;
        shipX := Min(Max(shipX, 0), width - ShipSize);
      }
      PlayStages(inp, shipX);
      outcome := Play;
    }
  }
}
