# Space-shooter core: collision, rocket motion, controls

This project models, in Dafny, the stateable logic of a curses space-shooter in which a
rocket dodges and shoots falling space garbage. It covers three groups:

- **Collision and obstacle bounding boxes** (`obstacles.dfy`, module `Obstacles`, from
  `main.py`): the half-open point-in-rectangle test, the four-corner `has_collision` test,
  the immutable `Obstacle` record with its bounding-box corner and ASCII frame, and the
  frame's line generator. Helpers for Python's `'-' * n`, `'\n'.join` and `str.split('\n')`
  live in `text.dfy` (module `Text`); positions and sizes in `grid.dfy` (module `Grid`).
- **Rocket motion** (`physics.dfy`, module `Physics`, from `additional_functions.py`):
  `_limit`, `_apply_acceleration`, `update_speed` with its exceptions as a `Result`,
  `clip_rocket_position` and `calculate_rocket_move`. Speeds and positions are `real`.
  `math.cos` is a parameter `cos: real -> real`, so every property holds for any cosine.
- **Input and spawn cadence** (`controls.dfy`, module `Controls`, from
  `additional_functions.py`): `read_controls` as a method looping over a key stream given
  as a `seq<int>`, and the `get_garbage_delay_tics` year table.

Coordinates are reals because garbage falls by half a cell per tick and the rocket moves
by fractional speeds. Sizes are integers (line counts and line widths of frames). Python's
string repetition by a negative count gives the empty string; `Text.Repeat` and
`Text.Count` model that.

Three facts about the code shape the model:

- Collision is tested against the obstacle's exact rectangle (main.py:45-50). The one-cell
  padding exists only in the drawn bounding-box frame (main.py:33, 37).
- The speed is snapped to zero only inside an acceleration step
  (additional_functions.py:53-54). An axis with no force is only damped. So a coasting
  rocket never comes exactly to rest (`Physics.CoastingNeverStops`).
- `has_collision` is a corner test, not a general overlap test. It is sound for
  rectangles of at least one cell (`Obstacles.CollisionMeansOverlap`). It is exact for a
  single cell on whole coordinates (`Obstacles.WholeCellCollision`). It misses crossing
  rectangles (`Obstacles.CornerTestMissesCrossing`) and some fractional single-cell overlaps
  (`Obstacles.CornerTestMissesFractionalCell`). Every call site in main.py passes a
  single-cell object.

## Model

| member | source | states |
|---|---|---|
| `Obstacles.IsPointInside` | main.py:61-71 | a point is inside only a rectangle whose both sizes are positive |
| `Obstacles.HasCollision` | main.py:74-93 | a top-left corner of either object inside the other's rectangle is a collision; a collision needs at least one object with positive sizes |
| `Obstacles.RectangleHoldsItsCorners` | main.py:61-85 | a rectangle at least one cell wide contains its top-left corner and its bottom-right cell `corner + size - 1` |
| `Obstacles.CollisionIsSymmetric` | main.py:74-93 | swapping the two objects (corner and size together) does not change the verdict |
| `Obstacles.CollidesWithItself` | main.py:87-93 | a rectangle with positive sizes collides with itself and with a single cell at its own top-left corner |
| `Obstacles.CornerInsideCollides` | main.py:87-93 | if either top-left corner lies inside the other rectangle, a collision is reported |
| `Obstacles.CollisionMeansOverlap` | main.py:74-93 | for sizes of at least one cell, a reported collision means the half-open rectangles really share a point |
| `Obstacles.WholeCellCollision` | main.py:61-93 | on whole coordinates a single cell collides with a rectangle of at least one cell iff it lies inside it, iff the two overlap |
| `Obstacles.CornerTestMissesCrossing` | main.py:87-93 | a 1x7 bar crossing a 3x3 square overlaps it, yet no corner test fires |
| `Obstacles.CornerTestMissesFractionalCell` | main.py:87-93 | a single cell half a row above a 3x5 rectangle overlaps it, yet is not reported |
| `Text.Repeat` | main.py:55-57 | `c * n` has length `max(n, 0)` and every character is `c` |
| `Text.JoinLines` | main.py:34 | the join starts with the first line, followed by a line break when more lines follow |
| `Text.SplitLines` | main.py:34 | splitting yields at least one piece and no piece holds a line break |
| `Text.SplitJoin` | main.py:34 | splitting the `'\n'`-join of break-free lines on `'\n'` gives the lines back |
| `Obstacles.BoundingBoxLines` | main.py:53-58 | `max(rows, 0) + 2` lines, each `max(columns, 0) + 2` wide; first and last are `' '`, dashes, `' '`; the rest are `'|'`, spaces, `'|'` |
| `Obstacles.Obstacle.BoundingBoxFrame` | main.py:31-34 | the frame's lines are exactly the box lines for `rows_size + 1` by `columns_size + 1` |
| `Obstacles.Obstacle.BoundingBoxCornerPos` | main.py:36-37 | the frame corner lies one row above and one column left of the obstacle |
| `Obstacles.Obstacle.DumpBoundingBox` | main.py:39-41 | returns the frame corner and exactly `get_bounding_box_frame()`: `rows_size + 3` lines of width `columns_size + 3` (for non-negative sizes) |
| `Obstacles.Obstacle.HasCollisionWith` | main.py:43-50 | an object whose corner lies in the obstacle's unpadded rectangle, or whose rectangle holds the obstacle's corner, is a hit |
| `Obstacles.ObstacleHitsExactRectangle` | main.py:43-50 | on whole coordinates an obstacle hits a single cell iff the cell is in its unpadded rectangle |
| `Obstacles.FrameEnclosesCollisions` | main.py:31-50 | every single cell an obstacle reports a hit with lies inside the drawn bounding-box frame |
| `Physics.Limit` | additional_functions.py:24-31 | the result is the value or a bound; it lies in `[lo, hi]` when `lo <= hi`; an in-range value is returned unchanged |
| `Physics.LimitIsIdempotent` | additional_functions.py:24-31 | clamping a clamped value changes nothing |
| `Physics.LimitIsMonotone` | additional_functions.py:24-31 | clamping preserves order |
| `Physics.ApplyAcceleration` | additional_functions.py:34-56 | for any cosine and a nonzero limit, the new speed is within `[-abs(limit), abs(limit)]` and is 0 or at least 0.1 in magnitude |
| `Physics.AccelerationFollowsForce` | additional_functions.py:37-50 | with a non-negative cosine and a speed within the limit, a forward force never lowers the speed and a backward one never raises it, except a creep below 0.1 that is cut to 0 |
| `Physics.UpdateSpeed` | additional_functions.py:59-114 | ValueError for a bad row direction, then a bad column direction, then fading outside [0, 1]; division by zero for a zero limit on a forced axis, which is the only failure left once the arguments pass their checks; a free axis is only damped; a forced axis is the accelerated damped speed, within its limit, 0 or at least 0.1 |
| `Physics.UpdateSpeedKeepsLimits` | additional_functions.py:94-114 | with valid arguments and nonzero limits the update succeeds, and speeds within their limits stay within them, whatever the forces |
| `Physics.SpeedAfter` | main.py:194-205 | the speed carried over ticks fails only on a bad direction, and never when every tick's controls are valid |
| `Physics.SpeedStaysWithinLimits` | main.py:194-205 | from speeds within the default limit, any sequence of valid controls raises nothing and keeps both speeds within the limit |
| `Physics.CoastingScalesSpeed` | additional_functions.py:94-96 | after n ticks without force both speeds are the start speeds times 0.8^n |
| `Physics.CoastingNeverStops` | additional_functions.py:94-114 | without force a nonzero speed stays nonzero forever |
| `Physics.ClipRocketPosition` | additional_functions.py:134-136 | the result is at least the minimum, at most the maximum when the interval is proper, and the position itself when it is in range |
| `Physics.ClipAgreesWithLimit` | additional_functions.py:134-136 | on a proper interval clipping equals `_limit` |
| `Physics.ClipOnEmptyIntervalPinsToMinimum` | additional_functions.py:134-136 | when the rocket is larger than the canvas the coordinate is pinned to 0 |
| `Physics.CalculateRocketMove` | additional_functions.py:139-171 | fails only on a bad direction, with `update_speed`'s error; the new speeds are `update_speed`'s; each coordinate is at least 0, at most canvas minus rocket size when the rocket fits, and is the moved coordinate when that is in range; otherwise it stops exactly at the wall: 0 below the range or when the rocket does not fit, `canvas - rocket` above it |
| `Physics.RestingRocketStaysPut` | additional_functions.py:139-171 | a rocket at rest inside the canvas with no key pressed keeps its position and a zero speed |
| `Controls.PendingKeys` | additional_functions.py:194-199 | the keys read are the stream's first keys, in order, and none of them is -1 |
| `Controls.PendingKeysIsPrefixBeforeNoKey` | additional_functions.py:194-199 | the keys read are a prefix of the stream, contain no -1, and stop at the first -1 or at the end of the stream |
| `Controls.AxisDirection` | additional_functions.py:201-211 | an axis force is -1, 0 or 1 |
| `Controls.LastArrowKeyWins` | additional_functions.py:201-211 | the last UP/DOWN (LEFT/RIGHT) key decides the axis force, whatever other keys follow it |
| `Controls.NoArrowKeyNoForce` | additional_functions.py:191-211 | without an arrow key of an axis its force is 0 |
| `Controls.OtherKeyKeepsForce` | additional_functions.py:194-216 | a key of neither arrow of an axis leaves that axis's force unchanged |
| `Controls.ReadControls` | additional_functions.py:188-216 | row and column forces are those of the last arrow keys read before -1, and the shot flag is set iff SPACE was read |
| `Controls.ControlsAreValidForces` | main.py:196-205 | the controls read never make `update_speed` raise |
| `Controls.GarbageDelayTics` | additional_functions.py:219-233 | `None` exactly before 1961; otherwise one of 20, 14, 10, 8, 6, 2 |
| `Controls.DelayShrinksOverTime` | additional_functions.py:219-233 | once spawning is on it stays on, and the delay is positive and never grows as years pass |

## Left out

- All coroutines and the tick loop of main.py (`fire`, `fly_garbage`, `animate_spaceship`,
  `blink`, `explode`, `change_year`, `draw_info_panel`, `show_gameover`, `show_obstacles`,
  `fill_orbit_with_garbage`, `sleep`, `draw`): their point is cooperative interleaving over
  global lists and curses drawing. Only the speed carried between ticks is modelled
  (`Physics.SpeedAfter`).
- curses I/O (`addstr`, `derwin`, `getch`, `beep`, `refresh`); `curses_tools.draw_frame`
  and `get_frame_size` are not part of this model. `getch` is replaced by a key sequence.
- `math.cos` is a parameter: its values are not modelled, and floats are Dafny reals (no
  IEEE rounding, no negative zero).
- Randomness (`get_star_params`, `random.randint` in `fill_orbit_with_garbage`), file
  reading (`get_frames`, 1.py) and command-line parsing.
- `Obstacle.uid` is an optional string; the code never reads it.
- Controls.ReadControls: a key stream that ends without -1 is read as if `getch` had then
  returned -1; the real `getch` would block or keep returning -1.
