/** The face-steered snake game: a `SnakeGame` object holding the score, the
    game-over flag, the direction, the snake as a double-ended queue of grid
    cells (front = head) and the food cell.

    `Move` is the value-level specification of `moveSnake`; the class
    performs it in place, scanning the body with a loop as the source does. */
module Snake {
  import opened Geometry

  const GridSize := 20             // pixels per cell
  const Cells := 400 / GridSize    // cells per side of the 400x400 board
  const StartCell := Point(10, 10)
  const StartDirection := 3        // moving right

  /** Directions: 0 up, 1 down, 2 left, 3 right. */
  const Up := 0
  const Down := 1
  const Left := 2
  const Right := 3

  /** The fields of a `SnakeGame`. */
  datatype Game = Game(score: int, gameOver: bool, direction: int, snake: seq<Point>, food: Point)

  predicate InGrid(p: Point)
  {
    0 <= p.x < Cells && 0 <= p.y < Cells
  }

  /** Two cells share a side. */
  predicate Adjacent(p: Point, q: Point)
  {
    Abs(p.x - q.x) + Abs(p.y - q.y) == 1
  }

  /** The food cell chosen from two `rand()` results. */
  function FoodAt(randX: nat, randY: nat): (p: Point)
    ensures InGrid(p)
  {
    Point(randX % Cells, randY % Cells)
  }

  /** The state after construction: food placed, one segment at (10, 10). */
  function Initial(randX: nat, randY: nat): (r: Game)
    ensures r.snake == [StartCell] && r.score == 0 && !r.gameOver && r.direction == Right
    ensures WellFormed(r)
  {
    Game(0, false, StartDirection, [StartCell], FoodAt(randX, randY))
  }

  /** The head shifted one cell in `direction`; any other direction value
      leaves it in place. */
  function Advance(head: Point, direction: int): (p: Point)
    ensures 0 <= direction <= 3 ==> Adjacent(head, p)
    ensures direction == Up ==> p.x == head.x && p.y < head.y
    ensures direction == Down ==> p.x == head.x && p.y > head.y
    ensures direction == Left ==> p.y == head.y && p.x < head.x
    ensures direction == Right ==> p.y == head.y && p.x > head.x
    ensures !(0 <= direction <= 3) ==> p == head
  {
    match direction
    case 0 => Point(head.x, head.y - 1)
    case 1 => Point(head.x, head.y + 1)
    case 2 => Point(head.x - 1, head.y)
    case 3 => Point(head.x + 1, head.y)
    case _ => head
  }

  /** `moveSnake`: leaving the board or running into any current segment
      (the tail included) ends the game and changes nothing else; otherwise
      the new head is pushed in front, and the tail is popped unless the
      head reached the food, which scores a point and places new food. */
  function Move(g: Game, randX: nat, randY: nat): (r: Game)
    requires |g.snake| > 0
    ensures r.direction == g.direction && r.score >= g.score
    ensures |r.snake| - |g.snake| == r.score - g.score
    ensures var head := Advance(g.snake[0], g.direction);
      r.gameOver <==> g.gameOver || !InGrid(head) || head in g.snake
  {
    var head := Advance(g.snake[0], g.direction);
    if !InGrid(head) then g.(gameOver := true)
    else if head in g.snake then g.(gameOver := true)
    else if head == g.food then
      g.(snake := [head] + g.snake, score := g.score + 1, food := FoodAt(randX, randY))
    else g.(snake := [head] + g.snake[..|g.snake| - 1])
  }

  /** What every reachable state satisfies: one segment per point scored
      plus the head, every segment and the food on the board, a valid
      direction, no cell occupied twice, and consecutive segments adjacent. */
  ghost predicate WellFormed(g: Game)
  {
    && g.score >= 0 && |g.snake| == g.score + 1
    && (forall k :: 0 <= k < |g.snake| ==> InGrid(g.snake[k]))
    && InGrid(g.food)
    && 0 <= g.direction <= 3
    && (forall a, b :: 0 <= a < b < |g.snake| ==> g.snake[a] != g.snake[b])
    && (forall k :: 0 <= k < |g.snake| - 1 ==> Adjacent(g.snake[k], g.snake[k + 1]))
  }

  lemma InitialWellFormed(randX: nat, randY: nat)
    ensures WellFormed(Initial(randX, randY))
  {
  }

  /** The outcomes of one move, case by case. */
  lemma MoveOutcomes(g: Game, randX: nat, randY: nat)
    requires |g.snake| > 0
    ensures var head := Advance(g.snake[0], g.direction);
      var r := Move(g, randX, randY);
      && (!InGrid(head) || head in g.snake ==> r == g.(gameOver := true))
      && (InGrid(head) && head !in g.snake ==>
            && r.snake[0] == head && r.gameOver == g.gameOver && r.direction == g.direction
            && r.snake[1..] <= g.snake
            && (head == g.food ==> |r.snake| == |g.snake| + 1 && r.score == g.score + 1)
            && (head != g.food ==> |r.snake| == |g.snake| && r.score == g.score && r.food == g.food))
  {
    var head := Advance(g.snake[0], g.direction);
    var r := Move(g, randX, randY);
    if InGrid(head) && head !in g.snake {
      if head == g.food {
        assert r.snake[1..] == g.snake;
      } else {
        assert r.snake[1..] == g.snake[..|g.snake| - 1];
      }
    }
  }

  /** Every move keeps the snake well formed. */
  lemma MovePreservesWellFormed(g: Game, randX: nat, randY: nat)
    requires WellFormed(g)
    ensures WellFormed(Move(g, randX, randY))
  {
    var head := Advance(g.snake[0], g.direction);
    var r := Move(g, randX, randY);
    if InGrid(head) && head !in g.snake {
      var body := if head == g.food then g.snake else g.snake[..|g.snake| - 1];
      assert r.snake == [head] + body;
      assert forall k :: 0 <= k < |body| ==> body[k] == g.snake[k];
      forall a, b | 0 <= a < b < |r.snake| ensures r.snake[a] != r.snake[b] {
        if a == 0 {
          assert r.snake[b] == g.snake[b - 1];
        } else {
          assert r.snake[a] == g.snake[a - 1] && r.snake[b] == g.snake[b - 1];
        }
      }
      forall k | 0 <= k < |r.snake| - 1 ensures Adjacent(r.snake[k], r.snake[k + 1]) {
        if k > 0 {
          assert r.snake[k] == g.snake[k - 1] && r.snake[k + 1] == g.snake[k];
        }
      }
    }
  }

  /** The direction chosen from the face's centre in a `rows` x `cols`
      frame: the top third means up, else the bottom third down, else the
      left third left, else the right third right; the centre keeps the
      current direction. */
  function FaceDirection(face: Rect, rows: nat, cols: nat, current: int): (d: int)
    ensures var cx := face.x + face.width / 2;
      var cy := face.y + face.height / 2;
      && (cy < rows / 3 ==> d == Up)
      && (cy > 2 * rows / 3 ==> d == Down)
      && (rows / 3 <= cy <= 2 * rows / 3 && cx < cols / 3 ==> d == Left)
      && (rows / 3 <= cy <= 2 * rows / 3 && cx > 2 * cols / 3 ==> d == Right)
      && (rows / 3 <= cy <= 2 * rows / 3 && cols / 3 <= cx <= 2 * cols / 3 ==> d == current)
    ensures 0 <= current <= 3 ==> 0 <= d <= 3
  {
    var cx := face.x + face.width / 2;
    var cy := face.y + face.height / 2;
    if cy < rows / 3 then Up
    else if cy > 2 * rows / 3 then Down
    else if cx < cols / 3 then Left
    else if cx > 2 * cols / 3 then Right
    else current
  }

  /** `detectFace` as a function of the state: only the direction changes,
      and only when a face was found. */
  function Steer(g: Game, face: Option<Rect>, rows: nat, cols: nat): (r: Game)
    ensures r.(direction := g.direction) == g
    ensures face.None? ==> r == g
    ensures WellFormed(g) ==> WellFormed(r)
  {
    if face.Some? then g.(direction := FaceDirection(face.value, rows, cols, g.direction)) else g
  }

  /** What one captured frame supplies: the first detected face (in the
      mirrored frame), and the two `rand()` results used if food is eaten. */
  datatype Tick = Tick(face: Option<Rect>, randX: nat, randY: nat)

  /** The `run` loop fed one tick per captured frame: steer, then stop if
      the game is over, otherwise move. */
  function Run(g: Game, frames: seq<Tick>, rows: nat, cols: nat): (r: Game)
    requires WellFormed(g)
    ensures r.score >= g.score
    ensures g.gameOver ==> r.(direction := g.direction) == g
    decreases |frames|
  {
    if frames == [] then g
    else
      var steered := Steer(g, frames[0].face, rows, cols);
      if steered.gameOver then steered
      else
        MovePreservesWellFormed(steered, frames[0].randX, frames[0].randY);
        Run(Move(steered, frames[0].randX, frames[0].randY), frames[1..], rows, cols)
  }

  /** Over any run the snake stays well formed, and its length never
      decreases. */
  lemma {:induction false} RunWellFormed(g: Game, frames: seq<Tick>, rows: nat, cols: nat)
    requires WellFormed(g)
    ensures WellFormed(Run(g, frames, rows, cols))
    ensures |Run(g, frames, rows, cols).snake| >= |g.snake|
    decreases |frames|
  {
    if frames != [] {
      var steered := Steer(g, frames[0].face, rows, cols);
      if !steered.gameOver {
        MovePreservesWellFormed(steered, frames[0].randX, frames[0].randY);
        MoveOutcomes(steered, frames[0].randX, frames[0].randY);
        RunWellFormed(Move(steered, frames[0].randX, frames[0].randY), frames[1..], rows, cols);
      }
    }
  }

  class SnakeGame {
    var score: int
    var gameOver: bool
    var snakeDirection: int
    var snake: seq<Point>
    var food: Point

    function State(): Game
      reads this
    {
      Game(score, gameOver, snakeDirection, snake, food)
    }

    ghost predicate Valid()
      reads this
    {
      WellFormed(State())
    }

    /** Score 0, not over, moving right; then food is placed and the snake
        gets its single segment. */
    constructor (randX: nat, randY: nat)
      ensures State() == Initial(randX, randY) && Valid()
    {
      score := 0;
      gameOver := false;
      snakeDirection := StartDirection;
      snake := [];
      new;
      SpawnFood(randX, randY);
      InitSnake();
    }

    method InitSnake()
      modifies this`snake
      ensures snake == [StartCell] + old(snake)
    {
      snake := [StartCell] + snake;
    }

    method SpawnFood(randX: nat, randY: nat)
      modifies this`food
      ensures food == FoodAt(randX, randY)
    {
      food := Point(randX % Cells, randY % Cells);
    }

    /** The scan of the body for a segment equal to `head`. */
    method HitsBody(head: Point) returns (hit: bool)
      ensures hit <==> head in snake
    {
      var k := 0;
      while k < |snake|
        invariant 0 <= k <= |snake|
        invariant head !in snake[..k]
      {
        if snake[k] == head {
          return true;
        }
        assert snake[..k + 1] == snake[..k] + [snake[k]];
        k := k + 1;
      }
      assert snake[..k] == snake;
      return false;
    }

    method MoveSnake(randX: nat, randY: nat)
      requires |snake| > 0
      modifies this
      ensures State() == Move(old(State()), randX, randY)
    {
      var head := snake[0];
      if snakeDirection == Up {
        head := Point(head.x, head.y - 1);
      } else if snakeDirection == Down {
        head := Point(head.x, head.y + 1);
      } else if snakeDirection == Left {
        head := Point(head.x - 1, head.y);
      } else if snakeDirection == Right {
        head := Point(head.x + 1, head.y);
      }
      if head.x < 0 || head.x >= Cells || head.y < 0 || head.y >= Cells {
        gameOver := true;
        return;
      }
      var hit := HitsBody(head);
      if hit {
        gameOver := true;
        return;
      }
      snake := [head] + snake;
      if head == food {
        score := score + 1;
        SpawnFood(randX, randY);
      } else {
        snake := snake[..|snake| - 1];
      }
    }

    method DetectFace(face: Option<Rect>, rows: nat, cols: nat)
      modifies this`snakeDirection
      ensures State() == Steer(old(State()), face, rows, cols)
    {
      if face.Some? {
        var cx := face.value.x + face.value.width / 2;
        var cy := face.value.y + face.value.height / 2;
        if cy < rows / 3 {
          snakeDirection := Up;
        } else if cy > 2 * rows / 3 {
          snakeDirection := Down;
        } else if cx < cols / 3 {
          snakeDirection := Left;
        } else if cx > 2 * cols / 3 {
          snakeDirection := Right;
        }
      }
    }

    /** One pass of the `run` loop after a frame: steer from the face, leave
        the loop if the game is over, otherwise move. */
    method RunFrame(captured: bool, face: Option<Rect>, rows: nat, cols: nat, randX: nat, randY: nat)
      returns (running: bool)
      requires Valid()
      modifies this
      ensures Valid()
      ensures !captured ==> !running && State() == old(State())
      ensures captured ==>
        var g := Steer(old(State()), face, rows, cols);
        running == !g.gameOver &&
        State() == if g.gameOver then g else Move(g, randX, randY)
    {
      if !captured {
        return false;
      }
      DetectFace(face, rows, cols);
      if gameOver {
        return false;
      }
      MovePreservesWellFormed(State(), randX, randY);
      MoveSnake(randX, randY);
      running := true;
    }
  }
}
