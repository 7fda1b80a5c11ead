# Sense HAT games, modelled in Dafny

This project models the core of a collection of small games for the
Raspberry Pi Sense HAT. The Sense HAT is an 8 x 8 RGB LED matrix with a
five-way joystick and environmental and motion sensors. The games modelled are:

- **Maze** and **LargeMaze**: build a maze by growing walls from random border
  pillars, then roll a ball to the goal. The large maze scrolls an 8 x 8
  window over a bigger world.
- **Menu**: a vertically scrolling list of game icons with a red cursor.
- **Space**: a scrolling meteorite field with an enemy near the end.
- **Sensors**: six bar graphs of how far each sensor's newest reading is from
  its recent mean, each with a held recent maximum.
- **RGB**: mix a colour with three bars.
- **Paint** and **Ball**: tilt-steered 2 x 2 balls.
- **Rhythm**: repeat four model beats by moving the board.
- **Alien**: breathe on the board and it "detects" a human or an alien.

One Dafny module follows each game file. A few modules are shared:

- `Hat`: colours, the 8 x 8 screen as a 64-cell sequence, joystick events.
- `History`: the bounded sample histories of the sensor games.
- `MazeGrid`: the wall table, pillar list and wall growth. maze.py and
  largeMaze.py share this code.
- `MinMax`: `getWithinMinMaxFlag`, which paint.py and ball.py define identically.
- `SpaceLayouts`: the enemy bitmaps.

Objects whose fields the games update are classes whose methods modify those
fields. Screens that the games copy and rewrite are values. Where the source
writes a list in place (`updateBeatScreen`), it is an `array`.

Sensor readings, tilt-derived positions, random draws and the joystick event
are parameters of the methods. Random draws are either indices or a `pick`
oracle with `pick(n, k) < k`. The joystick callback runs as an ordinary
method call between frames.

Python floats are modelled as exact reals. A float that decides a
comparison on a length is replaced by the integer it implies:

- sensors.py: `dataCount` is 3.0 / 0.16 = 18.75, so a history is trimmed once
  it is longer than 18.
- alien.py: `dataCount` is 3.0 / 0.1 = 30.0, so the limit is 30.

`DataCapIsLimit` proves each of these equivalences.

## Model

| member | source | states |
|---|---|---|
| Hat.DrawSquare | Games/ball.py:100-103 | the four cells of the 2 x 2 ball at (x, y) take the colour; every other cell is kept |
| History.BoundedAppend | Games/alien.py:130-134 | the result ends with the new reading, stays within the cap when the history was within it, and is the old history plus the reading with the oldest entry dropped exactly when the cap is exceeded |
| History.ExceedsFloor | Games/alien.py:132 | a length exceeds a non-negative real limit exactly when it exceeds the limit's floor |
| History.ReplayKeepsNewest | Games/sensors.py:107-110 | a history fed any readings from empty holds exactly the newest min(n, cap) of them, in order |
| History.SumWithin | Games/sensors.py:111 | readings in [lo, hi] sum to between n·lo and n·hi |
| History.MeanWithin | Games/sensors.py:111 | statistics.mean of readings in [lo, hi] lies in [lo, hi] |
| MazeGrid.InitColour | Games/maze.py:78-98 | even-even cells take the pillar-wall colour on the border and the open-pillar colour inside; other border cells are white; inner odd-odd cells are red at (1, 1), blue at the goal and black elsewhere |
| MazeGrid.InitColourInner | Games/maze.py:94-101 | every inner non-pillar cell, of any parity, is red at (1, 1), blue at the goal and black otherwise |
| MazeGrid.InitCell | Games/maze.py:78-89 | the wall bit is 1 exactly on the border; the colour is InitColour's |
| MazeGrid.ListPillar | Games/maze.py:90-94 | the pillar list becomes the even-even cells up to and including this one in row-major order; the working list stays the indices of its border pillars |
| MazeGrid.PillarsBeforeSpec | Games/maze.py:90-94 | the built list holds exactly the cells with even x and even y before (x, y), in row-major order |
| MazeGrid.BorderPillarIndicesSpec | Games/maze.py:91-93 | an index is in the working list iff it names a pillar on the border |
| MazeGrid.PillarsDistinct | Games/maze.py:90-94 | the pillar list names every pillar once |
| MazeGrid.PillarListed | Games/maze.py:144-148 | every pillar cell is in the list, so the search for a reached pillar finds it |
| MazeGrid.PossibleExtend | Games/maze.py:113-122 | a direction is offered iff the cell two steps away is inside the grid and not yet wall; at most four are offered |
| MazeGrid.ExtendWall | Games/maze.py:131-141 | writing the midpoint and the target pillar gives exactly the table Extend describes |
| MazeGrid.ExtendWritesTwoCells | Games/maze.py:131-141 | an extension sets exactly the midpoint and the target pillar to 1 and changes no other cell |
| MazeGrid.ExtendCells | Games/maze.py:131-141 | both written cells are inside the grid and the target has even coordinates |
| MazeGrid.ExtendStep | Games/maze.py:126-141 | an offered direction leads to an open pillar; extending keeps the grid invariant, never turns a wall back to 0, walls that pillar and strictly shrinks the set of open cells |
| MazeGrid.GrownOffersLess | Games/maze.py:115-122 | every direction offered after walls have grown was already offered before |
| MazeGrid.OddCellsOpen | Games/maze.py:84-87 | cells with two odd coordinates are never walled, so start (1, 1) and the goal corner stay open |
| MazeGrid.RemoveAt | Games/maze.py:108 | `pop(k)` drops one entry and keeps every other one |
| MazeGrid.Requeued | Games/maze.py:143-152 | after an extension the working list holds the other entries, the reached pillar, and the popped one again when it had two or more directions |
| MazeGrid.QueueStart | Games/maze.py:90-94 | the table initDraw builds with the border pillars queued satisfies the wall and working-list invariants |
| MazeGrid.QueueDrop | Games/maze.py:106-126 | popping a pillar that cannot be extended keeps the working-list invariant |
| MazeGrid.StillOpenHadTwo | Games/maze.py:150-152 | a pillar that can still be extended after one extension had at least two directions, so the re-queue rule keeps it queued |
| MazeGrid.QueueExtend | Games/maze.py:143-152 | popping, extending and re-queueing keeps the working-list invariant |
| MazeGrid.QueueEmptyClosed | Games/maze.py:106 | when the working list is empty every pillar is wall |
| MazeGrid.ClosedWallsEveryPillar | Games/maze.py:106-152 | when no wall pillar can be extended, every pillar is wall |
| MazeGrid.ExtendOnce | Games/maze.py:106-152 | one loop pass pops entry pick(draw) of the working list; on a dead end the list loses exactly that entry and one draw is used; otherwise the direction is entry pick(draw + 1) of the offered ones, the reached pillar is the target, the list is exactly Requeued, two draws are used; both invariants kept, walls only grow, and either an open cell is walled or the list shrinks |
| MazeGrid.FindPillarIndex | Games/maze.py:157-164 | returns the first index matching (x, y), and -1 iff no entry matches |
| Maze.Maze.constructor | Games/maze.py:40-49 | 7 x 7 grid, empty lists, not exiting |
| Maze.Maze.JoystickAny | Games/maze.py:61-64 | a release sets shouldExit; nothing else changes |
| Maze.Maze.InitRow | Games/maze.py:76-100 | one row of the wall table (1 on the border), its pillars listed, its pixels drawn |
| Maze.Maze.InitRows | Games/maze.py:75-100 | all rows: a border-only table, the full pillar list, the border working list, and the 7 x 7 maze drawn by InitColour with black outside |
| Maze.Maze.InitDraw | Games/maze.py:66-101 | wallTable has border 1 and interior 0, pillarList holds the even-even cells in row-major order, workingPillarList exactly the border pillars, pixels per InitColour |
| Maze.Maze.GenerateWalls | Games/maze.py:103-154 | terminates with an empty working list, walls never removed, every pillar walled, start and goal open |
| Maze.Maze.Build | Games/maze.py:166-170 | initDraw then generateWalls yields a closed maze with start and goal open |
| LargeMaze.WorldStart | Games/largeMaze.py:87-111 | the world initDraw draws satisfies the colour invariants linking it to the table and the working list |
| LargeMaze.PaintStep | Games/largeMaze.py:140-156 | the world changes exactly at the popped pillar and, after an extension, at the midpoint and the target, which become white; every other cell is kept and the colour invariants hold |
| LargeMaze.GrowAndPaint | Games/largeMaze.py:122-170 | one pass grows the table, uses the draws and rewrites the working list exactly as MazeGrid.ExtendOnce does, and paints white exactly the cells PaintStep names |
| LargeMaze.PaintCells | Games/largeMaze.py:140-156 | writing white to the popped pillar and the extension cells changes those cells and no other |
| LargeMaze.ExtendPaintsWalls | Games/largeMaze.py:140-156 | the table after the step is 1 at exactly the cells the world paints and unchanged elsewhere |
| LargeMaze.RepaintKeepsColours | Games/largeMaze.py:140-156 | painting those cells white keeps the world in step with the table and the working list |
| LargeMaze.WorldDone | Games/largeMaze.py:119-176 | once the working list is empty, every wall cell is drawn white and every open cell keeps its initial colour |
| LargeMaze.NextScroll | Games/largeMaze.py:232-239 | the scroll moves at most one cell, forward only when the ball is 5 or more cells in and the window stays inside the maze, back only when it is 2 or fewer cells in and the scroll stays non-negative |
| LargeMaze.ScrollFollowsBall | Games/largeMaze.py:231-239 | the window stays inside the world, moves at most one cell, and keeps a ball that moved one cell on screen |
| LargeMaze.ReadScreen | Games/largeMaze.py:243-246 | screen cell (i, j) is world cell (sx + i, sy + j) |
| LargeMaze.LargeMaze.constructor | Games/largeMaze.py:32-45 | 15 x 15 maze, empty lists and world, scroll and goal at 0 |
| LargeMaze.LargeMaze.JoystickAny | Games/largeMaze.py:56-59 | a release sets shouldExit; nothing else changes |
| LargeMaze.LargeMaze.InitRows | Games/largeMaze.py:70-112 | all rows of the world: a border-only table, the full pillar list, the border working list, and InitColour inside the maze with black outside |
| LargeMaze.LargeMaze.InitRow | Games/largeMaze.py:89-111 | one row of the wall table (1 on the border), its pillars listed and the border ones queued, its world cells drawn by InitColour, every other world cell kept |
| LargeMaze.LargeMaze.InitCellAt | Games/largeMaze.py:89-110 | one cell of that row: wall bit, pillar entry and world colour |
| LargeMaze.LargeMaze.InitDraw | Games/largeMaze.py:61-117 | the goal is in the corner the draw names and is never the start; the world has max(X,8)·max(Y,8) cells; a border-only table and pillar and working lists as in maze.py; the screen is the top-left window |
| LargeMaze.LargeMaze.GenerateWalls | Games/largeMaze.py:119-176 | as Maze.GenerateWalls, and every wall cell of the world is painted white |
| LargeMaze.LargeMaze.MoveBall | Games/largeMaze.py:230-253 | when the ball moved: the old cell is cleared, the ball drawn, the scroll updated and the window returned, and the goal is reached iff the ball is on it; a one-cell move keeps the ball on screen; otherwise nothing changes |
| LargeMaze.LargeMaze.Build | Games/largeMaze.py:186-191 | initDraw then generateWalls: a closed maze, start and goal open, first screen the top-left window |
| Menu.AppendItem | Games/menu.py:93-99 | appends the item's two rows with its 6 x 2 icon and keeps every earlier pixel |
| Menu.AllMenuPixels | Games/menu.py:86-102 | every item's icon is at rows 3i and 3i+1, the margins are blank, and there is no margin after the last item |
| Menu.SelectKeepsInv | Games/menu.py:56-63 | moving the selection by one starts a cursor slide that keeps the scroll invariant |
| Menu.CursorStepKeepsInv | Games/menu.py:147-156 | each cursor step keeps the scroll invariant |
| Menu.RestCursorVisible | Games/menu.py:158-165 | at rest the cursor's two rows are on screen |
| Menu.Menu.constructor | Games/menu.py:34-45 | first item selected, nothing running, scroll and cursor at 0 |
| Menu.Menu.WindowFits | Games/menu.py:108 | the 8-row window lies inside allMenuPixels |
| Menu.Menu.JoystickAny | Games/menu.py:51-65 | ignored while sliding or exiting; middle or right release starts the selected item; down/up press or hold moves the selection within bounds and starts a slide; left hold exits |
| Menu.Menu.StartItem | Games/menu.py:67-72 | marks the item running with its index |
| Menu.Menu.FinishItem | Games/menu.py:82-83 | after an item returns, nothing is running and the index is -1 |
| Menu.Menu.Load | Games/menu.py:140 | allMenuPixels is the menu image of the icons |
| Menu.Menu.CurrentMenuPixels | Games/menu.py:104-109 | the screen is the 8 rows of the menu image from currentScroll |
| Menu.Menu.RestFrame | Games/menu.py:157-165 | the window with the cursor cells of the selected item lit or dark |
| Menu.Menu.ScreenDuringCursorScrolling | Games/menu.py:111-136 | the screen is the window at the old scroll with the cursor's two cells lit (ShowsCursor), and the scroll becomes ScrollAfter of the direction |
| Menu.CursorCells | Games/menu.py:116-118 | lighting cells (0, row − scroll) and (0, row − scroll + 1) of the window gives exactly that screen |
| Menu.Menu.CursorStep | Games/menu.py:147-156 | the cursor moves one row towards the selection; sliding ends exactly when it arrives; the scroll becomes ScrollAfter of the slide direction; every screen cell is the window at the old scroll with the cursor's two cells lit at its new row |
| Menu.ScrollAfter | Games/menu.py:120-135 | the window moves at most one row, in the direction of the slide, and only once the selected item is at its edge |
| MinMax.Clamp | Games/paint.py:59 | the value lies in [lo, hi], equals x iff x is inside, and is the nearer bound otherwise |
| MinMax.WithinMinMaxFlag | Games/paint.py:58-61 | value is the clamp and flag is true iff no clamping happened |
| MinMax.ClampIdempotent | Games/paint.py:58-61 | clamping a clamped value changes nothing and raises no flag |
| MinMax.ClampMonotone | Games/ball.py:64-67 | clamping preserves order |
| Paint.CountPainted | Games/paint.py:106-117 | the painted count never exceeds the cell count |
| Paint.CountPaintedFull | Games/paint.py:68-70 | the count is 64 iff no cell is black |
| Paint.CountPaintOne | Games/paint.py:106-108 | painting a black cell a non-black colour adds exactly one |
| Paint.PaintCell | Games/paint.py:106-108 | a black cell takes the trail colour, any other cell is kept, and the count stays the number of painted cells |
| Paint.PaintSquare | Games/paint.py:106-117 | the four cells under the ball are painted when black, others kept, count kept exact |
| Paint.PaintedStays | Games/paint.py:106-117 | a painted cell is never repainted and the count never drops |
| Paint.CountMonotone | Games/paint.py:106-117 | keeping every painted cell cannot lower the count |
| Paint.CheckComplete | Games/paint.py:68-70 | complete iff all 64 cells are painted |
| Paint.Paint.constructor | Games/paint.py:40-46 | the painted screen starts black, so its painted count is 0 |
| Paint.CountPaintedBlank | Games/paint.py:40-46 | an all-black screen has nothing painted |
| Paint.Paint.Step | Games/paint.py:84-119 | position is the clamped tilt; on a move the frame shows the ball over the painted screen, the count stays exact, and completion holds iff no cell is black |
| Ball.Frame | Games/ball.py:94-104 | the 2 x 2 ball in the ball colour; every other cell black when neither coordinate was clamped, red otherwise |
| Ball.Step | Games/ball.py:84-104 | the position is the clamped tilt; no frame is drawn iff the ball stayed put without clamping |
| Ball.AlertShows | Games/ball.py:96-99 | a top corner away from the ball is black iff the tilt needed no clamping, and red iff it did |
| Rgb.Scale | Games/rgb.py:91 | int(v·255/7) lies in 0..255, 0 for 0 and 255 for 7 |
| Rgb.DrawBar | Games/rgb.py:85-90 | the bottom v+1 cells of the column take the colour and the rest of it stays black; other columns are kept |
| Rgb.BarFixesLevel | Games/rgb.py:85-90 | a bar determines its level |
| Rgb.ShowsFixesLevels | Games/rgb.py:83-94 | the screen determines r, g and b |
| Rgb.FillRight | Games/rgb.py:93-94 | columns 4..7 take the mixed colour; columns 0..3 kept |
| Rgb.RGB.constructor | Games/rgb.py:33-41 | levels 4, 4, 4, red selected |
| Rgb.RGB.JoystickAny | Games/rgb.py:54-81 | middle release exits; right/left press moves the selection within 0..2; up/down press or hold changes the selected level within 0..7 and redraws; nothing else changes |
| Rgb.RGB.Draw | Games/rgb.py:83-95 | the screen shows the three bars and the mixed colour |
| SpaceLayouts.Decode | Games/space.py:46-247 | a frame string decodes cell by cell |
| SpaceLayouts.LayoutsWellFormed | Games/space.py:46-247 | five layouts, each a non-empty list of equal-length frames of 1..4 whole rows |
| Space.ConstantsAgree | Games/space.py:291-294 | the board has 8 cells per row; the always-filled row is 7 before the end and the goal scroll 8; the meteorite count is int(0.5 · (100 − 7 − 8)) |
| Space.EnemyColour | Games/space.py:299-300 | the enemy colour is neither black nor the meteorite nor the ship colour |
| Space.Recolour | Games/space.py:304 | black cells stay black; every other cell takes the enemy colour |
| Space.RecolourAgain | Games/space.py:303-304 | recolouring an already recoloured layout equals recolouring the original |
| Space.RecolourLayout | Games/space.py:303-304 | every frame of the layout is recoloured |
| Space.TableLayout | Games/space.py:301 | the decoded layout has the table's frames and frame lengths |
| Space.RecolouredTableFits | Games/space.py:301-305 | every layout frame fits at row 16 of the board |
| Space.ScatterMeteorites | Games/space.py:295-297 | a cell is a meteorite iff some drawn (row, column) names it |
| Space.MeteoritesOnePerRow | Games/space.py:293-297 | meteorites lie in rows 8..93, at most one per row |
| Space.LastRowHasMeteorite | Games/space.py:294 | row 93 always has its meteorite |
| Space.PlaceFrame | Games/space.py:452 | the frame replaces its own length of cells from row 16 and the board keeps its length |
| Space.PlaceFirstFrameAsWritten | Games/space.py:305 | the board length becomes 800 − frames + cells of the first frame |
| Space.PlacementAsWrittenGrowsBoard | Games/space.py:305 | for every layout the as-written assignment changes the board length |
| Space.ErasePrefix | Games/space.py:468-469 | cells of the enemy colour before the cut become black; all others kept |
| Space.EraseRemovesOnlyColour | Games/space.py:468-469 | no cell of the colour survives before the cut and no other cell changes |
| Space.Window | Games/space.py:507 | the screen is the 64 cells ending at row 100 − scroll |
| Space.CheckHit | Games/space.py:436-444 | a hit iff either of the two ship cells in the bottom row is not black |
| Space.AnimationIndex | Games/space.py:450 | the frame index lies in 0..n−1 and is (2f div 5) mod n |
| Space.FloorTwoFifths | Games/space.py:450 | int(f / 2.5) equals 2f div 5 for every frame count f |
| Space.ScrollSpeed | Games/space.py:488-489 | the scroll speed lies in [0, 1] and is −roll·2 whenever that is inside |
| Space.Space.constructor | Games/space.py:249-268 | empty board, scroll 0, ship at 3 |
| Space.Space.JoystickAny | Games/space.py:281-284 | a release sets shouldExit |
| Space.Space.InitSpaceArray | Games/space.py:286-305 | meteorites exactly at the drawn cells, the recoloured first frame at row 16, the layout recoloured, the enemy colour set |
| Space.Space.AnimateEnemy | Games/space.py:446-453 | the index is int(f / 2.5) mod frames; the board gets that frame only when the index changed |
| Space.Space.DestroyEnemy | Games/space.py:455-469 | every cell of the enemy colour up to the visible bottom becomes black; the rest is kept |
| Space.Space.Move | Games/space.py:485-492 | the ship is at the clamped tilt, the physical scroll grows by ScrollSpeed, and the row scroll never decreases and grows by at most one |
| Space.Space.EnemyStep | Games/space.py:498-506 | while the enemy is in view and alive it is animated, and an attack destroys it |
| Space.Space.EnemyInView | Games/space.py:500 | the enemy is handled exactly when it is alive and the screen's first cell lies before the end of the enemy's frame at row 16 |
| Space.Space.Frame | Games/space.py:479-519 | the ship and scroll update as Move says, the enemy as EnemyStep says, and the outcome is a crash on a hit, the goal at scroll 92, else a screen with the ship drawn |
| Space.ComposeScreen | Games/space.py:507-515 | a crash iff CheckHit; otherwise the ship's two cells are drawn; goal iff scroll ≥ 92 |
| Sensors.DataCapIsLimit | Games/sensors.py:109 | dataCount is 3.0 / 0.16, and exceeding it is the same as exceeding 18 |
| Sensors.Dim | Games/sensors.py:97 | each channel divided by 3, truncated; a colour is unchanged only when black |
| Sensors.RowPixelsOfLevel | Games/sensors.py:89-98 | cells 0..level are the colour, the max cell is dimmed when above the level, the rest black |
| Sensors.RowShowsLevel | Games/sensors.py:89-98 | the leftmost cell is always the colour and the level and max can be read back from the row |
| Sensors.LevelOf | Games/sensors.py:113 | min(int(delta·k), 7) lies in 0..7 |
| Sensors.LevelOfFloor | Games/sensors.py:113 | a level below 7 is the floor of delta·k; delta·k ≥ 7 gives 7 |
| Sensors.Delta | Games/sensors.py:111-112 | the distance of the newest reading from the mean is never negative |
| Sensors.DeltaWithin | Games/sensors.py:111-112 | with all readings in [lo, hi] the delta is at most hi − lo, and a steady history has delta 0 |
| Sensors.UpdateRecentMax | Games/sensors.py:115-122 | the maximum never falls below the new level; it is either the new level or the old one held one more time |
| Sensors.HoldLasts | Games/sensors.py:118-119 | a maximum stays through up to six lower levels, and only its count grows |
| Sensors.HoldExpires | Games/sensors.py:120-122 | after six lower levels the next lower level replaces the maximum |
| Sensors.ReplayLast | Games/sensors.py:115-122 | replaying levels one at a time is the same as updating after the last |
| Sensors.PutRow | Games/sensors.py:286 | row `row` of the screen becomes the pixels; the other rows are kept |
| Sensors.Level | Games/sensors.py:111-113 | the level of a history is in 0..7 |
| Sensors.OrientationLevel | Games/sensors.py:205-212 | the level from the largest of the three deltas is in 0..7 |
| Sensors.Observe | Games/sensors.py:107-122 | the reading joins its bounded history, the level is computed from it, and the recent maximum is updated |
| Sensors.ObserveOrientation | Games/sensors.py:195-221 | the same for the three orientation histories |
| Sensors.Sensors.constructor | Games/sensors.py:53-72 | empty histories, maxima at 0 |
| Sensors.Sensors.JoystickAny | Games/sensors.py:84-87 | a release sets shouldExit |
| Sensors.Sensors.LatestTemperatureLevel | Games/sensors.py:100-124 | the history gets the reading within 18 entries, the level is Level of it, the maximum updated |
| Sensors.Sensors.LatestHumidityLevel | Games/sensors.py:126-149 | as for temperature |
| Sensors.Sensors.LatestMagnetometerLevel | Games/sensors.py:151-178 | as for temperature, on the field magnitude |
| Sensors.Sensors.LatestOrientationLevel | Games/sensors.py:180-222 | the three histories updated, the level from the largest delta, the maximum updated |
| Sensors.Sensors.LatestAccelerometerLevel | Games/sensors.py:224-251 | as for temperature, on the acceleration magnitude |
| Sensors.Sensors.LatestPressureLevel | Games/sensors.py:253-277 | as for temperature |
| Sensors.Sensors.LatestLevels | Games/sensors.py:293-298 | all six sensors observed in order |
| Sensors.Sensors.SensorDataAndDisplay | Games/sensors.py:279-305 | all six observed; rows 0 and 7 black; row k+1 shows level and maximum of sensor k, or level 0 when hidden; every level is within its maximum |
| Sensors.DrawBars | Games/sensors.py:284-304 | rows 1..6 are the rows of the levels and maxima; rows 0 and 7 black |
| Sensors.BarColour | Games/sensors.py:30-35 | each bar colour is a valid, bright colour |
| Rhythm.DirectionOf | Games/rhythm.py:74-82 | each draw gives a unit move |
| Rhythm.DirectionsCoverMoves | Games/rhythm.py:74-82 | the four draws give the four unit moves, each once |
| Rhythm.RandomModelList | Games/rhythm.py:68-83 | four beats in the drawn directions, beat i at time 4 + i, in increasing time order |
| Rhythm.CornersAreCorners | Games/rhythm.py:85-93 | indices 0, 7, 56 and 63 are exactly the four corners |
| Rhythm.UpdateBeatScreen | Games/rhythm.py:85-93 | the four corners take the colour and no other cell changes |
| Rhythm.Sign | Games/rhythm.py:147-164 | 1 if the newest sample is positive, −1 otherwise, reversed by a correction |
| Rhythm.Corrected | Games/rhythm.py:147-156 | a swing is corrected exactly when the middle sample has the opposite sign and a size of at least 0.7 · 0.4 |
| Rhythm.CorrectionReverses | Games/rhythm.py:147-156 | a corrected move is the negation of the uncorrected one |
| Rhythm.Detect | Games/rhythm.py:137-165 | a gesture iff the window is full, the cooldown is over and the larger swing (ties to y) reaches 0.7; it is a unit move on that axis, corrected iff the middle sample opposes the swing by at least 0.28 |
| Rhythm.Rhythm.GetPlayerAction | Games/rhythm.py:118-165 | both windows get the negated samples and keep the five newest; the gesture is Detect's; a gesture resets the counter to 0, otherwise it advances by one |
| Rhythm.ActionOf | Games/rhythm.py:339-345 | a move exactly when there is a gesture, in its direction, timed at this frame or, when corrected, at the middle sample's frame |
| Rhythm.Rhythm.PlayerStep | Games/rhythm.py:324-346 | the time window advances with the samples; the gesture becomes ActionOf's move, whose middle sample always exists; a move comes only after at least nine frames without one and resets the counter |
| Rhythm.Round | Games/rhythm.py:181 | Python's round: the nearest integer |
| Rhythm.TruncDiv | Games/rhythm.py:182 | int() of a quotient truncates toward zero: q·d ≤ n < q·d + d for n ≥ 0, and q·d − d < n ≤ q·d for n < 0 |
| Rhythm.BeatDistance | Games/rhythm.py:181-183 | the distance to the model beat in the same play round is non-negative |
| Rhythm.DistanceScore | Games/rhythm.py:186-190 | the score is within 0..25: full within 1/24 s, zero from 0.25 s on |
| Rhythm.DistanceScoreMonotone | Games/rhythm.py:186-190 | a move further from its beat never scores more |
| Rhythm.BeatScore | Games/rhythm.py:167-193 | 0 on a direction mismatch, otherwise the distance score, always within [0, 100 / 4] |
| Rhythm.OnBeatScoresFull | Games/rhythm.py:186-193 | a move exactly on its beat in the right direction scores 25 |
| Rhythm.Rhythm.constructor | Games/rhythm.py:42-50 | empty windows, cooldown counter 9 |
| Rhythm.Rhythm.JoystickAny | Games/rhythm.py:63-66 | a release sets shouldExit |
| AlienGame.DataCapIsLimit | Games/alien.py:97 | dataCount is 3.0 / 0.1, and exceeding it is the same as exceeding 30 |
| AlienGame.Toggled | Games/alien.py:121 | the verdict always changes |
| AlienGame.ToggleTwice | Games/alien.py:120-121 | toggling twice is the identity |
| AlienGame.RiseProduct | Games/alien.py:196 | always ≥ 0; positive iff both rises are positive, and then their product |
| AlienGame.PopLeavesOldSuffix | Games/alien.py:198-199 | after a detection the temperature history is a suffix of the history before the reading |
| AlienGame.AnalyzingScreen | Games/alien.py:173-177 | on a copy of the screen every white cell becomes yellow and every other cell keeps its colour, so no white remains |
| AlienGame.Alien.constructor | Games/alien.py:92-99 | verdict HUMAN, empty histories |
| AlienGame.Alien.JoystickAny | Games/alien.py:112-118 | middle release exits, any other release toggles, non-release events change nothing |
| AlienGame.Alien.ToggleDetection | Games/alien.py:120-121 | the verdict is toggled |
| AlienGame.Alien.LatestTemperature | Games/alien.py:124-134 | the history gets the reading within 30 entries and ends with it |
| AlienGame.Alien.LatestHumidity | Games/alien.py:136-146 | the same for humidity |
| AlienGame.Alien.Step | Games/alien.py:190-199 | both histories updated; detection iff the rise product exceeds 0.17, which needs both readings above their means; on detection exactly the newest temperature is removed |
| AlienGame.Alien.ShowAnalyzingScreen | Games/alien.py:172-185 | five frames, recoloured and normal alternating from the recoloured one, only white, red and yellow cells; none when exiting |
| AlienGame.Alien.FeedDetection | Games/alien.py:157-168 | every reading during the verdict display joins its history; histories stay within 30 |
| AlienGame.AppendAllBounded | Games/alien.py:157-168 | fed readings, a history stays within the cap and ends with the newest; from empty it holds the newest readings |

## Left out

- Screen output (`set_pixels`, `set_pixel`, `show_message`, `clear`): screens are returned values or updated sequences.
- Timing is left out: `time.sleep`, `time.monotonic`, frame budgeting and blinking by sub-second, with the blink phase as a parameter where it picks a colour.
- Goal, crash, destroy-flicker, detection and score animations are also left out, because they run on the clock.
- Sensor readings are parameters. The trigonometry, square roots and tilt-to-cell truncations that turn raw readings into positions or levels (`math.trunc(p / (pi/2) * 4 ...)`, `math.sqrt`, `math.sin`) are done by the caller.
- Floats are exact reals; rounding error is not modelled. The correction level 0.7 · 0.4 is 0.28 here, while in floats it is 0.27999999999999997.
- Random choices are parameters (indices or a `pick` oracle): `random.randint`, `np.random.choice`, `np.random.randint`.
- Joystick callbacks run on the library's thread; here they are sequential method calls between frames.
- Menu: the icons are a constructor parameter, because the icon of wave.py is computed with `colorsys` floats. `runItem`'s construction and running of the chosen game class is a dynamic foreign call; only the state reset after it is modelled (`FinishItem`).
- Space: the enemy's sensor checks (`checkTemperature`, `checkOrientation`, `checkMagnetometer`) are the `attacked` parameter of `Frame`.
- Space: the layout table is mutated at class level, so a second game recolours an already recoloured layout. `RecolourAgain` shows this gives the same frames.
- Maze and LargeMaze: `goMaze`'s tilt physics (`round(xPh)`, the wall checks on the accelerations) is left out; `MoveBall` takes the new cell as a parameter. LargeMaze paints the world after the table writes of each pass; those cells are distinct, so the end state is the same.
- Rhythm: the display arithmetic is left out: `updatePlayerScreen`, `updateActiveStepsScreen`, `updateModelScreen`, and the `run` loop's beat positions and score display. `PlayerStep` models the gesture part of that loop.
- Alien: the choice between the human and alien screens in `showDetection` and `normal_screens[1]` are display only and left out.
- KodomoIoT scripts, pendulum.py, wave.py and daruma.py are not part of this model.

## Findings

| source | as written | input that shows it | evidently intended | confidence | as-written member | corrected member |
|---|---|---|---|---|---|---|
| Games/space.py:305 | the slice `spaceArray[128 : 128 + len(layout)]` takes as many cells as the layout has frames, and is assigned the first frame, which has 8 · rows cells | any layout, e.g. layout 0 with 4 frames of 24 cells: the board grows from 800 to 820 cells, which shifts every later row, as `PlacementAsWrittenGrowsBoard` shows for all five layouts | `len(layout[0])`, as `animateEnemy` does at line 452, so that the frame replaces its own cells | not executed | Space.PlaceFirstFrameAsWritten | Space.PlaceFrame |
