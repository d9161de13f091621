# Invading Space: the game logic of three face-steered games

This project models, in Dafny, the game-state logic of the three games in the
repository. All three are steered by the player's face, as seen by a webcam:

- **CIs Space** (`teste.cpp`, module `InvadingSpace`) is a shooter. A ship on row 700
  follows the face and fires automatically every three seconds. Up to ten
  targets fall from above. A shot within 40 pixels of a target on both axes
  destroys it and scores 100. Five hits bring the next phase banner. A target
  that reaches the ship's row over the ship ends the game.
- **Snake** (`snake.cpp`, module `Snake`) is a snake on a 20x20 grid. Its
  direction comes from the third of the frame the face is in. It grows by one
  segment for each food it eats. It dies on leaving the grid or on running
  into itself.
- **The single-shot prototype** (`projeto.cpp`, module `SingleShot`) has a
  ship placed under the face. The ship has one shot in flight at a time, and a
  fixed target at the top centre scores 10 per hit.

Each game is modelled twice:

- A value-level step function is the specification. `InvadingSpace.Next`
  over a `World`, `Snake.Move` over a `Game` and `SingleShot.Frame` over a
  `State` take the old variables and the frame's inputs and give the new
  variables.
- A class holds the source's own variables as fields and updates them as the
  source does. The shot and target lists are `seq` fields. Elements are erased
  in place by index loops, and the snake's body is scanned with a loop. The
  class methods are proved to produce exactly what the step function gives.

Lemmas about the step functions state the properties the games keep: bounds,
population limit, scoring, the phase reset, the game-over latch and the grid
invariants. `Run` functions apply a step once per input to model the game
loops themselves. Lemmas over `Run` carry these properties through any number
of iterations.

Inputs from the outside world are parameters:

- the first detected face rectangle (or none);
- whether a frame was captured;
- the values `rand()` returned;
- the wall clock in whole seconds.

C++ semantics are written out where they differ from Dafny's. `-rand() % 500`
uses C's truncating remainder (`Geometry.CRem`). All other divisions in the
modelled code have non-negative operands, where C and Dafny agree.

## Behaviour of the source worth knowing

- **Shot skip (CIs Space).** In the collision pass (`teste.cpp:235-245`), a
  shot that hits is erased at line 241 and the outer index still advances.
  The shot that slides into the erased slot is not examined in that
  iteration. `ResolveFrom` keeps this behaviour, and `ErasedShotSkipsNext`
  shows it: two shots, each over its own target, give only one hit.
- **No `break` in the target loop (CIs Space).** The loop at
  `teste.cpp:227-233` does not stop at the first target that overlaps the
  ship. Every target is moved, and every overlapping one sets the same flag
  and the same explosion point. So `gameOver` and the explosion point come
  out as they would with an early stop, but all targets have moved before
  the collision pass.
- **Phase banner timing.** The five-hit check runs at the start of the
  iteration that follows the hits (`teste.cpp:176-185`), not in the
  iteration that scored them. It shows the current phase and then
  increments it. The first iteration of a game shows phase 1 and leaves
  `phase == 2` (`FirstIterationAnnounces`).
- **Ship with no face.** The ship's column stays 0 when no face is seen
  (`teste.cpp:201-205`). A target can therefore end the game against a ship
  at column 0 that is not drawn.
- **Timing.** The clock is read as whole seconds since the epoch and compared
  with the time of the last shot (`teste.cpp:256-263`).

## Model

| member | source | states |
|---|---|---|
| `Geometry.CRem` | teste.cpp:224 | C's `%` for a positive divisor: the result takes the dividend's sign, its magnitude is \|a\| mod b, and it lies in (-b, 0] for a non-positive dividend |
| `Geometry.Abs` | teste.cpp:237 | `abs` returns the argument or its negation, never negative |
| `Geometry.Min` | teste.cpp:205 | `min` returns one of its arguments, no larger than either |
| `Geometry.Max` | teste.cpp:205 | `max` returns one of its arguments, no smaller than either |
| `InvadingSpace.InitialInv` | teste.cpp:147-157 | the variables as initialised before the loop satisfy the loop invariant |
| `InvadingSpace.SteerShip` | teste.cpp:201-205 | the ship column is always in `[0, cols - 80]`, whatever the face x; it is 0 with no face, and with a face it is the face centre minus 40, clamped at either edge |
| `InvadingSpace.MovedShots` | teste.cpp:209-215 | after the shot step no shot is above the screen, and there are never more shots than before |
| `InvadingSpace.MovedShotsMembers` | teste.cpp:209-215 | every survivor is an old shot moved up exactly 15, and every shot whose new y is not negative survives |
| `InvadingSpace.MovedShotsAppend` | teste.cpp:209-215 | the shot step works shot by shot, so survivors keep their relative order |
| `InvadingSpace.MovedShotsSingle` | teste.cpp:210-213 | one shot survives, 15 rows higher, iff its new y is not negative |
| `InvadingSpace.SpawnPoint` | teste.cpp:223-224 | a new target has x in `[0, cols - 100)` and y in `(-500, 0]` |
| `InvadingSpace.Spawn` | teste.cpp:222-225 | exactly one target is appended iff fewer than 10 exist; the old targets are kept in order; a list of at most 10 stays at most 10 |
| `InvadingSpace.MovedTargets` | teste.cpp:227-228 | every target keeps its x and its y grows by exactly 8; none is added or removed |
| `InvadingSpace.FirstNear` | teste.cpp:236-237 | finds the first target in list order within 40 of the shot on both axes, or reports that none is |
| `InvadingSpace.ResolveFrom` | teste.cpp:235-245 | each hit removes exactly one shot and one target, and there is at most one hit per remaining shot |
| `InvadingSpace.ResolveFromPrefix` | teste.cpp:235-245 | the pass never changes the shots before the index it starts from |
| `InvadingSpace.ResolveFromSubset` | teste.cpp:235-245 | the collision pass only removes: the shots and targets left are sub-multisets of those given |
| `InvadingSpace.SpawnKeepsInside` | teste.cpp:222-225 | spawning keeps every target inside the spawn columns and below the spawn band |
| `InvadingSpace.MovedKeepsInside` | teste.cpp:227-228 | moving targets down keeps them inside the spawn columns and below the spawn band |
| `InvadingSpace.ResolveKeepsBounds` | teste.cpp:235-245 | after the collision pass targets stay inside their bounds and no shot is above the screen |
| `InvadingSpace.ShotStage` | teste.cpp:209-215 | the shot stage leaves no shot above the screen, never adds a shot and changes nothing but the shots |
| `InvadingSpace.SpawnStage` | teste.cpp:222-225 | the spawn stage keeps the old targets as a prefix, adds one iff fewer than 10 existed, keeps at most 10, and changes nothing else |
| `InvadingSpace.TargetStage` | teste.cpp:227-233 | the target stage keeps the number of targets; `gameOver` is set iff it was set or some moved target overlaps the ship, and a new game over puts the explosion at `(nave_x, 700)`; shots, score and counters are untouched |
| `InvadingSpace.CollisionStage` | teste.cpp:235-245 | the collision stage never lowers `hits`, adds 100 to the score per hit, and removes exactly one shot and one target per hit |
| `InvadingSpace.FireStage` | teste.cpp:258-263 | the fire stage keeps the old shots as a prefix and adds one iff the shot is due, recording the time then and keeping it otherwise |
| `InvadingSpace.PlayFrame` | teste.cpp:201-263 | a played iteration keeps `phase` and `h`, never lowers `hits`, adds exactly 100 to the score per new hit, and never clears `gameOver` |
| `InvadingSpace.Next` | teste.cpp:160-263 | an exit changes nothing; a banner shows the current phase and resets `hits`; a played frame happens only with a capture, no game over and fewer than 5 hits after the first iteration; the score and the phase never fall, and `phase - h` is kept |
| `InvadingSpace.Run` | teste.cpp:160-276 | over any run the phase never falls and `phase - h` is unchanged |
| `InvadingSpace.PlayPreservesInv` | teste.cpp:201-263 | a played iteration keeps: at most 10 targets, all within bounds; shots on screen; a score that is a non-negative multiple of 100; `phase == h + 1`; the explosion on the ship row |
| `InvadingSpace.NextPreservesInv` | teste.cpp:160-263 | every loop iteration (exit, phase banner or play) keeps the invariant |
| `InvadingSpace.GameOverLatch` | teste.cpp:161-171 | once `gameOver` is set, the next iteration leaves the loop and changes nothing |
| `InvadingSpace.OverlapEndsGame` | teste.cpp:227-233 | a moved target on the ship's row that overlaps the ship sets `gameOver` and puts the explosion at the ship `(nave_x, 700)`; the next iteration exits |
| `InvadingSpace.PhaseStep` | teste.cpp:176-185 | with 5 or more hits or on the first iteration: the banner shows the current phase, `hits` becomes 0, `phase` and `h` rise by 1, and shots, targets and score are untouched |
| `InvadingSpace.FirstIterationAnnounces` | teste.cpp:150-185 | the first iteration of a fresh game shows phase 1 and leaves phase 2, with nothing else changed |
| `InvadingSpace.PlayScoring` | teste.cpp:237-240 | in a played iteration the score rises by exactly 100 per counted hit and never decreases |
| `InvadingSpace.PlayRemovesInPairs` | teste.cpp:237-242 | every hit removes exactly one target and one shot |
| `InvadingSpace.AutoFireCadence` | teste.cpp:258-263 | the shots become the collision survivors plus one shot at `(nave_x + 45, 690)` iff at least 3 seconds passed since the last shot, and the time is then recorded; otherwise the survivors and the time are kept |
| `InvadingSpace.GameOverIffOverlap` | teste.cpp:227-233 | in a played iteration `gameOver` becomes true exactly when some spawned-and-moved target overlaps the steered ship |
| `InvadingSpace.ErasedShotSkipsNext` | teste.cpp:235-245 | two shots, each over its own target: the first hit erases shot 1 and target 1, and the pass then skips the second shot |
| `InvadingSpace.RunPreservesInv` | teste.cpp:160-276 | over any sequence of iterations the invariant holds and the score never decreases; a finished game stays exactly as it is |
| `InvadingSpace.Session.constructor` | teste.cpp:147-157 | the session starts with the loop's initial values and satisfies the invariant |
| `InvadingSpace.Session.MoveShots` | teste.cpp:209-215 | the in-place move-and-erase loop leaves exactly `MovedShots` of the old shots and changes no other field |
| `InvadingSpace.Session.SpawnTarget` | teste.cpp:222-225 | the target list becomes `Spawn` of the old one, and no other field changes |
| `InvadingSpace.Session.MoveTargets` | teste.cpp:227-233 | targets become `MovedTargets` of the old ones; `gameOver` is set iff some moved target overlaps the ship, with the explosion at the ship; no other field changes |
| `InvadingSpace.Session.FindTarget` | teste.cpp:236-244 | the inner collision loop stops at exactly the target `FirstNear` picks, or finds none when no target is within 40 of the shot |
| `InvadingSpace.Session.ResolveCollisions` | teste.cpp:235-245 | the nested in-place loops leave the lists `ResolveFrom` gives, add 100 to the score and 1 to `hits` per hit, and change nothing else |
| `InvadingSpace.Session.AutoFire` | teste.cpp:258-263 | a muzzle shot is appended and the time recorded iff 3 seconds have passed; otherwise nothing changes |
| `InvadingSpace.Session.PlayStages` | teste.cpp:201-263 | running the stages in the source's order gives exactly the played iteration of the step function |
| `InvadingSpace.Session.Iterate` | teste.cpp:160-263 | one loop iteration updates the fields exactly as `Next` does and keeps the invariant |
| `Snake.FoodAt` | snake.cpp:73-76 | food is always placed inside the 20x20 grid |
| `Snake.Advance` | snake.cpp:79-85 | direction 0 moves the head up, 1 down, 2 left and 3 right, to a neighbouring cell; any other value leaves it in place |
| `Snake.Initial` | snake.cpp:12-21 | a new game has one segment at (10, 10), score 0, direction right, is not over, and is well formed |
| `Snake.Move` | snake.cpp:78-107 | a move keeps the direction, never lowers the score, grows the snake by exactly the points scored, and sets `gameOver` iff it was set or the new head leaves the grid or lands on a segment |
| `Snake.Run` | snake.cpp:32-54 | over any run the score never falls, and a game that is over changes at most its direction |
| `Snake.InitialWellFormed` | snake.cpp:12-21 | the initial game is well formed: one segment at (10, 10), direction 3, score 0, food on the grid |
| `Snake.MoveOutcomes` | snake.cpp:78-107 | a head off the grid or on any segment (tail included) sets `gameOver` and changes nothing else; otherwise the head goes in front, the body follows the old snake, and food grows the snake and the score by 1, else both are kept |
| `Snake.MovePreservesWellFormed` | snake.cpp:78-107 | every move keeps: length = score + 1, all segments and the food on the grid, a valid direction, no cell twice, consecutive segments adjacent |
| `Snake.FaceDirection` | snake.cpp:129-143 | the top third of the frame gives 0, else the bottom third 1, else the left third 2, else the right third 3, else the direction is unchanged; the result is a valid direction when the old one was |
| `Snake.Steer` | snake.cpp:123-144 | face detection changes only the direction, only when a face was found, and keeps the game well formed |
| `Snake.RunWellFormed` | snake.cpp:32-54 | over any run of frames the game stays well formed and the snake never gets shorter |
| `Snake.SnakeGame.constructor` | snake.cpp:12-21 | construction gives the initial game, well formed |
| `Snake.SnakeGame.InitSnake` | snake.cpp:69-71 | pushes (10, 10) in front |
| `Snake.SnakeGame.SpawnFood` | snake.cpp:73-76 | the food becomes the cell picked from the two random values |
| `Snake.SnakeGame.HitsBody` | snake.cpp:92-97 | the scan finds a hit iff the new head equals some current segment |
| `Snake.SnakeGame.MoveSnake` | snake.cpp:78-107 | the in-place move updates the fields exactly as `Move` does |
| `Snake.SnakeGame.DetectFace` | snake.cpp:123-144 | the direction field becomes the one the face rule picks |
| `Snake.SnakeGame.RunFrame` | snake.cpp:33-47 | one pass of `run`: it steers, exits if the game is over and moves otherwise, keeping the game well formed |
| `SingleShot.Initial` | projeto.cpp:139-143 | the loop starts with score 0, no shot in flight and the invariant holding |
| `SingleShot.PlaceShip` | projeto.cpp:159-172 | placing the ship keeps the score and any shot in flight; a face always leaves a shot in flight; without a face only the ship moves |
| `SingleShot.MoveShot` | projeto.cpp:175-181 | a shot in flight rises 10 and stays in flight iff still on screen; nothing else moves, and with no shot nothing changes |
| `SingleShot.HitTest` | projeto.cpp:186-192 | the score rises by 10 exactly when the shot is on screen and over the target, which also clears the shot; otherwise nothing changes |
| `SingleShot.Frame` | projeto.cpp:159-193 | a frame adds 10 to the score exactly on a hit and nothing otherwise |
| `SingleShot.Run` | projeto.cpp:145-197 | over a run the score never falls and rises by at most 10 per frame |
| `SingleShot.InitialInv` | projeto.cpp:139-143 | the initial variables satisfy the invariant |
| `SingleShot.FramePreservesInv` | projeto.cpp:159-193 | every frame keeps: a shot is in flight iff its y is on screen, and the score is a non-negative multiple of 10 |
| `SingleShot.ShipPlacement` | projeto.cpp:159-172 | with a face the ship is at `(face.x + face.w/2 - nave.cols/2, face.y + face.h)`, without one at (-100, -100) |
| `SingleShot.ShotNotReaimed` | projeto.cpp:164-181 | a shot in flight keeps its column and rises exactly 10 (in flight iff still on screen), unless it hit and was removed |
| `SingleShot.ShotSpawn` | projeto.cpp:164-181 | with no shot in flight, a face spawns one from the ship's middle at the ship's row, which rises 10 in the same frame; without a face none appears |
| `SingleShot.FrameScore` | projeto.cpp:186-192 | a hit (on screen, within half the target's width of the centre, at y <= 50) adds exactly 10 and clears the shot; otherwise the score is unchanged |
| `SingleShot.NoShotNoScore` | projeto.cpp:159-193 | with no face and no shot in flight nothing scores |
| `SingleShot.RunKeepsInv` | projeto.cpp:145-197 | over any run of frames the invariant holds and the score never decreases |
| `SingleShot.Prototype.constructor` | projeto.cpp:139-143 | the loop variables start at their initial values |
| `SingleShot.Prototype.RunFrame` | projeto.cpp:145-193 | one pass of the loop updates the fields exactly as `Frame` does; an empty capture leaves the loop |

## Left out

- `facedetect_extra.cpp` is not part of this model. It holds camera capture,
  cascade detection, image resizing, alpha compositing and text, with no game
  state.
- Camera and video capture, face detection, image loading and resizing,
  window handling and every drawing routine (`drawImage`, `drawNave`,
  `drawShot`, `drawTarget`, `drawScore`, `displayMessage`, `drawSnake`,
  `drawFood`, `showScore`) are left out. They are OpenCV I/O and pixel work.
  The first detected face and whether a frame was captured are inputs.
  Coordinates are taken as given, after the horizontal flip that `snake.cpp`
  and `projeto.cpp` apply.
- `rand()`, `srand` and the system clock are not modelled. Their values are
  parameters: non-negative `rand()` results and whole seconds.
- The 3-second and 2-second `waitKey` pauses, the menu keys (`1`, `2`, `3`,
  `q`, Esc, any key in the prototype) and the credits screen are left out.
  They are real-time pacing and user interface.
- Loading failures of the cascade, the images and the camera, which end the
  program, are left out.
- `InvadingSpace.Session`: backgrounds no wider than 100 pixels are excluded
  (`width > 100`). At exactly 100 the source's `rand() % (cols - 100)` divides
  by zero.
- Overflow is not modelled. Integers are unbounded: the 32-bit `int` score,
  coordinates and the truncation of epoch seconds to `int` are out of scope.
  So is C `abs` at `INT_MIN`.
- `SingleShot` takes the sprite widths and the screen centre as parameters.
  The prototype does not resize its images, so their sizes come from files
  that are not part of this model.
