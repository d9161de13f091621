/** The first prototype of the shooter: the ship sits under the detected
    face, one shot at a time flies up from it, and a fixed target at the top
    centre of the screen scores 10 points per hit.

    `Frame` is the value-level specification of one pass of the frame loop;
    the class `Prototype` keeps the loop's variables as fields and updates
    them statement by statement. */
module SingleShot {
  import opened Geometry

  const ShotSpeed := 10   // rows per frame
  const TargetY := 50     // the target's row; a hit needs the shot at or above it
  const OffScreen := -100 // ship position when no face is seen
  const HitScore := 10

  /** The loop variables. */
  datatype State = State(naveX: int, naveY: int, score: int, shotX: int, shotY: int, isShotFired: bool)

  /** Sprite widths (the images are not resized) and the screen centre
      column, half the width of the menu background. */
  datatype Sprites = Sprites(shipWidth: nat, shotWidth: nat, targetWidth: nat, centerX: nat)

  function Initial(): (r: State)
    ensures Inv(r) && r.score == 0 && !r.isShotFired
  {
    State(0, 0, 0, -1, -1, false)
  }

  /** The ship under the face's centre; a shot is spawned from its middle
      only when none is in flight. Without a face the ship is parked off
      screen and the shot is left alone. */
  function PlaceShip(s: State, sp: Sprites, face: Option<Rect>): (r: State)
    ensures r.score == s.score
    ensures s.isShotFired ==> r.shotX == s.shotX && r.shotY == s.shotY && r.isShotFired
    ensures face.None? ==> r.(naveX := s.naveX, naveY := s.naveY) == s
    ensures face.Some? ==> r.isShotFired
  {
    if face.Some? then
      var x := face.value.x + face.value.width / 2 - sp.shipWidth / 2;
      var y := face.value.y + face.value.height;
      if !s.isShotFired then
        s.(naveX := x, naveY := y, shotX := x + sp.shipWidth / 2 - sp.shotWidth / 2, shotY := y, isShotFired := true)
      else s.(naveX := x, naveY := y)
    else s.(naveX := OffScreen, naveY := OffScreen)
  }

  /** The shot in flight moves up; it is retired once above the screen. */
  function MoveShot(s: State): (r: State)
    ensures r.score == s.score && r.shotX == s.shotX && r.naveX == s.naveX && r.naveY == s.naveY
    ensures !s.isShotFired ==> r == s
    ensures s.isShotFired ==> r.shotY == s.shotY - ShotSpeed && (r.isShotFired <==> r.shotY >= 0)
  {
    if s.isShotFired then
      var y := s.shotY - ShotSpeed;
      s.(shotY := y, isShotFired := !(y < 0))
    else s
  }

  /** The shot is over the target: within half the target's width of the
      centre column, and at or above the target's row. */
  predicate OnTarget(s: State, sp: Sprites)
  {
    s.shotX >= sp.centerX - sp.targetWidth / 2 && s.shotX <= sp.centerX + sp.targetWidth / 2 && s.shotY <= TargetY
  }

  /** A shot on screen and on the target scores and is removed. */
  function HitTest(s: State, sp: Sprites): (r: State)
    ensures r.score == s.score || r.score == s.score + HitScore
    ensures r.score == s.score + HitScore <==> s.shotY >= 0 && OnTarget(s, sp)
    ensures r.score != s.score ==> !r.isShotFired && r.shotY == -1
    ensures r.score == s.score ==> r == s
  {
    if s.shotY >= 0 && OnTarget(s, sp) then
      s.(score := s.score + HitScore, isShotFired := false, shotY := -1)
    else s
  }

  /** One pass of the frame loop after a frame was captured. */
  function Frame(s: State, sp: Sprites, face: Option<Rect>): (r: State)
    ensures r.score == s.score || r.score == s.score + HitScore
    ensures r.score == s.score + HitScore <==> Hit(s, sp, face)
  {
    HitTest(MoveShot(PlaceShip(s, sp, face)), sp)
  }

  /** Between frames a shot is in flight exactly when it is on screen, and
      the score is a non-negative multiple of 10. */
  ghost predicate Inv(s: State)
  {
    (s.isShotFired <==> s.shotY >= 0) && s.score >= 0 && s.score % HitScore == 0
  }

  lemma InitialInv()
    ensures Inv(Initial())
  {
  }

  /** Did this frame hit the target? */
  predicate Hit(s: State, sp: Sprites, face: Option<Rect>)
  {
    var m := MoveShot(PlaceShip(s, sp, face));
    m.shotY >= 0 && OnTarget(m, sp)
  }

  /** Every frame keeps the invariant. */
  lemma FramePreservesInv(s: State, sp: Sprites, face: Option<Rect>)
    requires Inv(s)
    ensures Inv(Frame(s, sp, face))
  {
  }

  /** The ship follows the face, centred on it and just below it, or is
      parked at (-100, -100). */
  lemma ShipPlacement(s: State, sp: Sprites, face: Option<Rect>)
    ensures var r := Frame(s, sp, face);
      && (face.Some? ==>
            r.naveX == face.value.x + face.value.width / 2 - sp.shipWidth / 2 &&
            r.naveY == face.value.y + face.value.height)
      && (face.None? ==> r.naveX == OffScreen && r.naveY == OffScreen)
  {
  }

  /** A shot in flight is never re-aimed: it keeps its column and rises by
      exactly 10 rows, unless it hit the target and was removed. */
  lemma ShotNotReaimed(s: State, sp: Sprites, face: Option<Rect>)
    requires Inv(s) && s.isShotFired
    ensures var r := Frame(s, sp, face);
      r.shotX == s.shotX &&
      (if Hit(s, sp, face) then r.shotY == -1 && !r.isShotFired
       else r.shotY == s.shotY - ShotSpeed && (r.isShotFired <==> r.shotY >= 0))
  {
  }

  /** With no shot in flight, a face spawns one from the ship's middle at the
      ship's row, which then rises 10 rows in the same frame; without a face
      no shot appears. */
  lemma ShotSpawn(s: State, sp: Sprites, face: Option<Rect>)
    requires Inv(s) && !s.isShotFired
    ensures var r := Frame(s, sp, face);
      && (face.None? ==> !r.isShotFired && r.shotX == s.shotX && r.score == s.score)
      && (face.Some? ==>
            r.shotX == r.naveX + sp.shipWidth / 2 - sp.shotWidth / 2 &&
            (Hit(s, sp, face) || r.shotY == r.naveY - ShotSpeed))
  {
  }

  /** The score rises by exactly 10 on a hit and is unchanged otherwise; a
      hit clears the shot. */
  lemma FrameScore(s: State, sp: Sprites, face: Option<Rect>)
    ensures var r := Frame(s, sp, face);
      (Hit(s, sp, face) ==> r.score == s.score + HitScore && !r.isShotFired && r.shotY == -1) &&
      (!Hit(s, sp, face) ==> r.score == s.score) &&
      r.score >= s.score
  {
  }

  /** Scoring needs a shot that was in flight or just fired: with no face and
      no shot in flight, nothing scores. */
  lemma NoShotNoScore(s: State, sp: Sprites)
    requires Inv(s) && !s.isShotFired
    ensures Frame(s, sp, None).score == s.score
  {
  }

  /** The frame loop fed one detection result per frame. */
  function Run(s: State, sp: Sprites, faces: seq<Option<Rect>>): (r: State)
    ensures s.score <= r.score <= s.score + HitScore * |faces|
    decreases |faces|
  {
    if faces == [] then s else Run(Frame(s, sp, faces[0]), sp, faces[1..])
  }

  /** Over any run the invariant holds and the score never decreases. */
  lemma {:induction false} RunKeepsInv(s: State, sp: Sprites, faces: seq<Option<Rect>>)
    requires Inv(s)
    ensures Inv(Run(s, sp, faces)) && Run(s, sp, faces).score >= s.score
    decreases |faces|
  {
    if faces != [] {
      FramePreservesInv(s, sp, faces[0]);
      FrameScore(s, sp, faces[0]);
      RunKeepsInv(Frame(s, sp, faces[0]), sp, faces[1..]);
    }
  }

  class Prototype {
    const sprites: Sprites
    var naveX: int
    var naveY: int
    var score: int
    var shotX: int
    var shotY: int
    var isShotFired: bool

    function Snapshot(): State
      reads this
    {
      State(naveX, naveY, score, shotX, shotY, isShotFired)
    }

    ghost predicate Valid()
      reads this
    {
      Inv(Snapshot())
    }

    constructor (sprites: Sprites)
      ensures this.sprites == sprites && Snapshot() == Initial() && Valid()
    {
      this.sprites := sprites;
      naveX, naveY := 0, 0;
      score := 0;
      shotX, shotY := -1, -1;
      isShotFired := false;
    }

    /** One pass of the frame loop; an empty capture leaves the loop. */
    method RunFrame(captured: bool, face: Option<Rect>) returns (running: bool)
      requires Valid()
      modifies this
      ensures Valid()
      ensures !captured ==> !running && Snapshot() == old(Snapshot())
      ensures captured ==> running && Snapshot() == Frame(old(Snapshot()), sprites, face)
    {
      if !captured {
        return false;
      }
      ghost var s := Snapshot();
      FramePreservesInv(s, sprites, face);
      if face.Some? {
        naveX := face.value.x + face.value.width / 2 - sprites.shipWidth / 2;
        naveY := face.value.y + face.value.height;
        if !isShotFired {
          shotX := naveX + sprites.shipWidth / 2 - sprites.shotWidth / 2;
          shotY := naveY;
          isShotFired := true;
        }
      } else {
        naveX := OffScreen;
        naveY := OffScreen;
      }
      assert Snapshot() == PlaceShip(s, sprites, face);
      if isShotFired {
        shotY := shotY - ShotSpeed;
        if shotY < 0 {
          isShotFired := false;
        }
      }
      assert Snapshot() == MoveShot(PlaceShip(s, sprites, face));
      if shotY >= 0 {
        if shotX >= sprites.centerX - sprites.targetWidth / 2 && shotX <= sprites.centerX + sprites.targetWidth / 2
          && shotY <= TargetY
        {
          score := score + HitScore;
          isShotFired := false;
          shotY := -1;
        }
      }
      running := true;
    }
  }
}
