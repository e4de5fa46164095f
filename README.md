# Game of Life engine — a Dafny model

This project models the simulation core of a sparse, unbounded Conway's Game of
Life with a pannable camera and mouse editing: the Moore-neighbourhood
enumeration, the neighbour-count map, the B3/S23 generation step, the
screen-to-grid mapping with truncating division, and the per-frame state update
of the main loop (WASD panning, Space run/pause, Delete clear, left-button
paint, right-button erase, and a frame counter that triggers one generation
every 144 / 12 = 12 frames).

Files and modules:

- `grid.dfy`, module `Grid`: `Coord`, the offset table `Diffs`, `Neighbours`
  (the eight neighbours as a sequence), `FillNeighbours` (the indexed
  loop into an eight-slot array), adjacency and its properties.
- `camera.dfy`, module `Camera`: `CellSize`, `TruncDiv` (integer division
  rounding toward zero, written out because Dafny's `/` is Euclidean) and
  `MouseToGrid`.
- `life.dfy`, module `Life`: the specification (`NeighbourCount` as the size of
  the live part of a Moore neighbourhood, `CountMap` and `NextGeneration` as
  comprehensions) and the two loops of main.rs, `NeighbourCounts` (over the live
  set, growing a map) and `Step` (over the map, growing a set), each proved
  equal to its specification. Because the proof holds for every choice the
  loops make (`:|`), the result does not depend on hash-set or hash-map
  iteration order. Sets are values, so `Step` cannot modify its input.
- `patterns.dfy`, module `Patterns`: consequences of the rule (empty lattice,
  at most two cells, blinker, block).
- `simulation.dfy`, module `Simulation`: the loop state as a `World` record and
  the pure per-frame transition (`OnEvent`, `Poll`, `Pan`, `Edit`, `Advance`,
  `FrameStep`, `RunFrames`), lemmas about them, and the class `Simulator`
  whose fields are the loop's variables and whose methods update them in place,
  each proved to produce the transition's result.

Decisions where the behaviour needed pinning down:

- Paint and erase held together: the cell ends dead (main.rs inserts, then
  removes).
- The truncating division of `mouse_to_grid` is kept exactly: sums from -9 to 9
  all map to column or row 0 (`Camera.DeadZone`).
- Window close or Escape leaves the loop at once: the remaining events and the
  rest of the frame are skipped (`Poll` returns `None`).
- After a generation the counter is 0 and then incremented, so it reads 1 at
  the end of that frame.

## Model

| member | source | states |
|---|---|---|
| Grid.FillNeighbours | src/main.rs:63-70 | the buffer ends holding the eight neighbours of the cell, one per offset-table entry, in table order |
| Grid.DiffsAreMoore | src/main.rs:18-22 | the offset table holds exactly the eight non-zero offsets in {-1,0,1}×{-1,0,1} |
| Grid.NeighboursExact | src/main.rs:63-70 | a coordinate is among a cell's enumerated neighbours iff it is Moore-adjacent to it |
| Grid.NeighboursDistinct | src/main.rs:63-70 | the eight neighbours are pairwise distinct and none is the cell itself |
| Grid.NeighboursSymmetric | src/main.rs:63-70 | `n` is a neighbour of `c` iff `c` is a neighbour of `n` |
| Grid.MooreSize | src/main.rs:18-22 | the neighbourhood, as a set, has exactly eight members |
| Camera.TruncDiv | src/main.rs:92-93 | the quotient times the cell size lies between 0 and the dividend and within one cell of it (rounding toward zero) |
| Camera.RoundsTowardZeroUnique | src/main.rs:92-93 | that rounding condition determines the quotient uniquely |
| Camera.MouseToGrid | src/main.rs:90-95 | each grid coordinate is the pointer-plus-camera sum divided by the cell size, rounded toward zero |
| Camera.TruncDivNonNegative | src/main.rs:92-93 | for a non-negative sum the result is floor division |
| Camera.TruncDivNegative | src/main.rs:92-93 | for a negative sum not divisible by the cell size the result is one above floor division |
| Camera.MinusOneMapsToZero | src/main.rs:90-95 | a pointer at (-1,-1) with the camera at the origin maps to cell (0,0), not (-1,-1) |
| Camera.DeadZone | src/main.rs:92-93 | a sum maps to 0 iff it lies strictly between -10 and 10 |
| Camera.MoveOneCellRight | src/main.rs:90-95 | moving the pointer one cell width right moves the cell by one column when the sum does not cross zero |
| Camera.CameraTranslation | src/main.rs:90-95 | moving the camera and the pointer oppositely by the same amount leaves the cell unchanged |
| Life.CountInsert | src/main.rs:77-84 | adding one non-live cell raises the count of exactly its neighbours by one |
| Life.TouchedIffCounted | src/main.rs:73-87 | a coordinate gets a map entry iff it has at least one live neighbour |
| Life.CountAtMostEight | src/main.rs:73-87 | no count exceeds 8 |
| Life.CountMapCorrect | src/main.rs:73-87 | the count map's keys are exactly the coordinates with a live neighbour, each mapped to its live-neighbour count, which lies in 1..8 |
| Life.NeighbourCounts | src/main.rs:73-87 | the loop over the live set builds exactly the specified count map |
| Life.NextGenerationRule | src/main.rs:98-108 | a coordinate is in the next generation iff its count is 3, or 2 and it is live |
| Life.NextGenerationNearLife | src/main.rs:101-105 | every cell of the next generation is adjacent to a live cell |
| Life.Step | src/main.rs:98-108 | the loop over the count map builds exactly the specified next generation, whatever the iteration order |
| Patterns.CountOfList | src/main.rs:73-87 | for distinct cells the count of their set is the number of them adjacent to the coordinate |
| Patterns.EmptyStaysEmpty | src/main.rs:98-108 | the empty set steps to empty, and so does its successor |
| Patterns.AtMostTwoDie | src/main.rs:102 | any set of at most two cells steps to empty |
| Patterns.HorizontalBlinkerSteps | src/main.rs:98-108 | {(0,0),(1,0),(2,0)} steps to {(1,-1),(1,0),(1,1)} |
| Patterns.VerticalBlinkerSteps | src/main.rs:98-108 | {(1,-1),(1,0),(1,1)} steps back to {(0,0),(1,0),(2,0)} |
| Patterns.BlinkerPeriodTwo | src/main.rs:98-108 | the blinker returns after two steps and differs after one |
| Patterns.BlockIsStill | src/main.rs:98-108 | the 2×2 block is a fixed point |
| Patterns.ThreeCellRule | src/main.rs:102 | for three distinct cells, membership in the next generation is the rule applied to a sum of three adjacency indicators |
| Patterns.FourCellRule | src/main.rs:102 | the same for four distinct cells |
| Simulation.SpaceToggles | src/main.rs:164 | Space negates the run/pause flag, changes nothing else, and twice restores the state |
| Simulation.DeleteClears | src/main.rs:166 | Delete empties the live set whatever the run/pause flag and changes nothing else |
| Simulation.DirectionLatch | src/main.rs:155-162 | in any state, key-down of W, A, S or D sets that key's flag and key-up clears it, changing nothing else |
| Simulation.PollKeepsCounterAndCamera | src/main.rs:149-169 | events never change the frame counter or the camera |
| Simulation.PollCompletes | src/main.rs:149-154 | the queue is drained completely iff it contains no close or Escape event |
| Simulation.PollAppend | src/main.rs:149-169 | draining a concatenated queue equals draining its parts in order |
| Simulation.PanMovesOnlyCamera | src/main.rs:172-175 | panning changes nothing but the camera |
| Simulation.PanPerKey | src/main.rs:172-175 | holding W, A, S, D changes cam_y, cam_x by exactly -15, -15, +15, +15 and the other axis not at all |
| Simulation.PanOpposites | src/main.rs:172-175 | opposite keys cancel; with neither held the axis stays |
| Simulation.EditEffect | src/main.rs:177-191 | only the pointer's cell changes; it ends live iff the right button is up and the left is down or it was live; both held leave it dead |
| Simulation.EditIdempotent | src/main.rs:177-191 | repeating an edit at the same spot with the same buttons changes nothing |
| Simulation.PaintThenErase | src/main.rs:135-206 | while paused, with no event and no direction key held, a frame painting a spot makes its cell live, and a following frame erasing the same spot leaves the earlier state with that cell dead |
| Simulation.EraseDeadIsNoOp | src/main.rs:185-191 | erasing a dead cell leaves the state unchanged |
| Simulation.PausedIsFrozen | src/main.rs:196-203 | while paused the live set and frame counter are unchanged |
| Simulation.RunningAdvances | src/main.rs:196-203 | while running the counter rises by one, and once it reaches 12 the set becomes the next generation and the counter reads 1 |
| Simulation.FrameKeepsCounterBounded | src/main.rs:196-203 | one frame keeps the counter at most 12 |
| Simulation.RunKeepsCounterBounded | src/main.rs:123 | any run of frames from a counter of at most 12 (such as the initial 0) keeps it at most 12 |
| Simulation.DeleteFrameEmpties | src/main.rs:166 | a frame whose queue ends with Delete and no button held ends with nothing live, running or paused |
| Simulation.Simulator.constructor | src/main.rs:111-132 | the loop starts with no live cell, the camera at the origin, no key held, running, counter 0 |
| Simulation.Simulator.HandleEvent | src/main.rs:150-168 | one event updates the fields as the transition for that event says |
| Simulation.Simulator.PollEvents | src/main.rs:149-169 | the event loop stops on close or Escape and otherwise leaves the state the drained queue specifies |
| Simulation.Simulator.PanCamera | src/main.rs:172-175 | the camera fields end as the pan transition says |
| Simulation.Simulator.EditCells | src/main.rs:177-191 | the live set ends as the edit transition says |
| Simulation.Simulator.Tick | src/main.rs:196-203 | the counter and live set end as the step-counter transition says, the generation computed by `Step` |
| Simulation.Simulator.Frame | src/main.rs:135-206 | one loop iteration produces the specified frame transition and keeps the counter at most 12 |
| Simulation.Simulator.Run | src/main.rs:135-211 | iterating frames produces the specified run and keeps the counter bound |
| Simulation.PaintBlinkerAndStep | src/main.rs:177-203 | from the initial state, painting (0,0), (1,0), (2,0) and waiting for the first generation leaves {(1,-1),(1,0),(1,1)} |

## Left out

- Window and canvas creation, clearing and presenting the frame (src/main.rs:113-121, 138-139, 205): calls into the SDL2 library.
- Drawing the live set (src/main.rs:38-60, 194): rendering through SDL2; its error is discarded by the loop, so it has no effect on the state.
- Event polling and mouse sampling through SDL2 (src/main.rs:134, 142-149): the model takes the pending events and the pointer state of each frame as parameters (`FrameInput`).
- Frame pacing with the clock and sleep (src/main.rs:136, 207-210): wall-clock timing with no effect on the state.
- `i32` and `u64` limits: coordinates, the camera and the frame counter are unbounded integers, so the model describes the executions in which the additions (src/main.rs:66-67, 92-93, 172-175) do not overflow; wrap-around and overflow panics are not modelled.
- The infinite loop itself: `Simulator.Run` and `RunFrames` iterate over a finite sequence of frame inputs.
