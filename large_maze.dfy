/** The scrolling maze of largeMaze.py: the same wall extension as maze.py
    on a larger grid, drawn into a flat `world` buffer of colours that is
    at least 8 x 8, of which the screen shows an 8 x 8 window that scrolls
    with the ball. */
module LargeMaze {
  import opened Hat
  import opened MazeGrid

  /** The colours of the maze cells of `world` (a buffer `ww` cells wide)
      while the walls grow on table `t`: an open cell keeps the colour
      initDraw gave it, a wall cell is white or, on a pillar, still the
      pillar-wall colour. */
  ghost predicate WorldCells(world: seq<Colour>, t: Table, w: nat, h: nat, ww: nat, gx: int, gy: int)
    requires Shaped(t, w, h)
  {
    forall y, x :: 0 <= y < h && 0 <= x < w && InBuffer(world, ww, x, y) ==>
      (t[y][x] == 0 ==> world[FlatIndex(x, y, ww)] == InitColour(x, y, w, h, gx, gy)) &&
      (t[y][x] != 0 ==>
         world[FlatIndex(x, y, ww)] == White ||
         (world[FlatIndex(x, y, ww)] == PillarWallColour && x % 2 == 0 && y % 2 == 0))
  }

  /** A pillar still drawn in the pillar-wall colour is waiting in the
      working list. */
  ghost predicate WorldQueued(world: seq<Colour>, pl: seq<Pillar>, wl: seq<int>, w: nat, h: nat, ww: nat)
  {
    forall i ::
      (0 <= i < |pl| && IsPillarCell(pl[i].x, pl[i].y, w, h) && InBuffer(world, ww, pl[i].x, pl[i].y) &&
       world[FlatIndex(pl[i].x, pl[i].y, ww)] == PillarWallColour) ==> i in wl
  }

  /** The cells of the buffer outside the w x h maze are black. */
  ghost predicate WorldOutside(world: seq<Colour>, w: nat, h: nat, ww: nat)
  {
    forall y, x :: InBuffer(world, ww, x, y) && !(x < w && y < h) ==> world[FlatIndex(x, y, ww)] == Black
  }

  /** Every cell of the w x h maze lies in the buffer. */
  predicate Fits(world: seq<Colour>, w: nat, h: nat, ww: nat)
  {
    w <= ww && RowStart(h, ww) <= |world|
  }

  lemma InMaze(world: seq<Colour>, w: nat, h: nat, ww: nat, x: int, y: int)
    requires Fits(world, w, h, ww) && InGrid(x, y, w, h)
    ensures InBuffer(world, ww, x, y)
  {
    FlatIndexBound(ww, h, x, y);
  }

  /** Painting a wall cell white keeps the colour invariants. */
  lemma WhitenWall(world: seq<Colour>, t: Table, pl: seq<Pillar>, wl: seq<int>, w: nat, h: nat, ww: nat,
                   gx: int, gy: int, x: int, y: int)
    requires Shaped(t, w, h) && Fits(world, w, h, ww) && InGrid(x, y, w, h) && t[y][x] == 1
    requires WorldCells(world, t, w, h, ww, gx, gy) && WorldQueued(world, pl, wl, w, h, ww)
    requires WorldOutside(world, w, h, ww)
    ensures InBuffer(world, ww, x, y)
    ensures var world' := world[FlatIndex(x, y, ww) := White];
      WorldCells(world', t, w, h, ww, gx, gy) && WorldQueued(world', pl, wl, w, h, ww) &&
      WorldOutside(world', w, h, ww) && Fits(world', w, h, ww)
  {
    InMaze(world, w, h, ww, x, y);
    FlatUpdate(world, ww, x, y, White);
  }

  /** Walling two cells in the table and painting them white keeps the
      colour invariants; `u` is `t` with exactly cells (x1, y1) and (x2, y2)
      set to wall. */
  lemma WhitenTwoCells(world: seq<Colour>, t: Table, pl: seq<Pillar>, wl: seq<int>, w: nat, h: nat, ww: nat,
                       gx: int, gy: int, x1: int, y1: int, x2: int, y2: int, world': seq<Colour>, u: Table)
    requires Shaped(t, w, h) && Fits(world, w, h, ww)
    requires InGrid(x1, y1, w, h) && InGrid(x2, y2, w, h)
    requires WorldCells(world, t, w, h, ww, gx, gy) && WorldQueued(world, pl, wl, w, h, ww)
    requires WorldOutside(world, w, h, ww)
    requires InBuffer(world, ww, x1, y1) && InBuffer(world, ww, x2, y2)
    requires world' == world[FlatIndex(x1, y1, ww) := White][FlatIndex(x2, y2, ww) := White]
    requires Shaped(u, w, h) && u[y1][x1] == 1 && u[y2][x2] == 1
    requires forall j, i :: 0 <= j < h && 0 <= i < w && (j != y1 || i != x1) && (j != y2 || i != x2) ==>
               u[j][i] == t[j][i]
    ensures WorldCells(world', u, w, h, ww, gx, gy) && WorldQueued(world', pl, wl, w, h, ww)
    ensures WorldOutside(world', w, h, ww) && Fits(world', w, h, ww)
  {
    var m := world[FlatIndex(x1, y1, ww) := White];
    FlatUpdate(world, ww, x1, y1, White);
    FlatUpdate(m, ww, x2, y2, White);
  }

  /** Dropping the popped pillar from the working list keeps WorldQueued once
      the popped pillar is painted white. */
  lemma QueueShrink(world: seq<Colour>, pl: seq<Pillar>, wl: seq<int>, wl': seq<int>, w: nat, h: nat, ww: nat,
                    index: int)
    requires WorldQueued(world, pl, wl, w, h, ww) && 0 <= index < |pl|
    requires InBuffer(world, ww, pl[index].x, pl[index].y) && world[FlatIndex(pl[index].x, pl[index].y, ww)] == White
    requires forall v :: v in wl && v != index ==> v in wl'
    ensures WorldQueued(world, pl, wl', w, h, ww)
  {
  }

  /** Once the working list is empty, every wall cell is white and every
      open cell has its initial colour. */
  lemma WorldDone(world: seq<Colour>, t: Table, pl: seq<Pillar>, w: nat, h: nat, ww: nat, gx: int, gy: int)
    requires GridInv(t, w, h) && PillarListOf(pl, w, h) && Fits(world, w, h, ww)
    requires WorldCells(world, t, w, h, ww, gx, gy) && WorldQueued(world, pl, [], w, h, ww)
    ensures forall y, x :: 0 <= y < h && 0 <= x < w ==>
              InBuffer(world, ww, x, y) &&
              world[FlatIndex(x, y, ww)] == (if t[y][x] == 1 then White else InitColour(x, y, w, h, gx, gy))
  {
    forall y, x | 0 <= y < h && 0 <= x < w
      ensures InBuffer(world, ww, x, y) &&
              world[FlatIndex(x, y, ww)] == (if t[y][x] == 1 then White else InitColour(x, y, w, h, gx, gy))
    {
      InMaze(world, w, h, ww, x, y);
      if t[y][x] == 1 && x % 2 == 0 && y % 2 == 0 {
        PillarListed(pl, w, h, x, y);
      }
    }
  }

  /** The world initDraw draws, with only the border walled and exactly the
      border pillars queued, satisfies the colour invariants. */
  lemma WorldStart(world: seq<Colour>, t: Table, pl: seq<Pillar>, wl: seq<int>, w: nat, h: nat, ww: nat,
                   gx: int, gy: int)
    requires BorderOnly(t, w, h) && PillarListOf(pl, w, h) && wl == BorderPillarIndices(pl, w, h)
    requires Fits(world, w, h, ww)
    requires forall y, x :: InBuffer(world, ww, x, y) ==>
               world[FlatIndex(x, y, ww)] == (if x < w && y < h then InitColour(x, y, w, h, gx, gy) else Black)
    ensures WorldCells(world, t, w, h, ww, gx, gy) && WorldQueued(world, pl, wl, w, h, ww)
    ensures WorldOutside(world, w, h, ww)
  {
    PillarsBeforeSpec(w, h, 0, h);
    BorderPillarIndicesSpec(pl, w, h);
    forall i | 0 <= i < |pl| && IsPillarCell(pl[i].x, pl[i].y, w, h) && InBuffer(world, ww, pl[i].x, pl[i].y) &&
               world[FlatIndex(pl[i].x, pl[i].y, ww)] == PillarWallColour
      ensures i in wl
    {
      assert OnBorder(pl[i].x, pl[i].y, w, h);
    }
  }

  /** The cells one pass of generateWalls paints white: the popped pillar
      (px, py) and, when the wall was extended by `ext`, the middle cell and
      the pillar reached. */
  predicate StepPaints(px: int, py: int, ext: Option<Offset>, i: int, j: int)
  {
    (i == px && j == py) ||
    (ext.Some? &&
     ((i == px + ext.value.dx / 2 && j == py + ext.value.dy / 2) || (i == px + ext.value.dx && j == py + ext.value.dy)))
  }

  /** One pass of generateWalls' loop on the large maze: the table step of
      ExtendOnce, then the world writes of PaintStep. The colour invariants
      of the world are kept. */
  method GrowAndPaint(w: nat, h: nat, ww: nat, gx: int, gy: int, pick: (nat, nat) -> nat, draw: nat,
                      table: Table, pillars: seq<Pillar>, working: seq<int>, world: seq<Colour>)
    returns (table': Table, working': seq<int>, world': seq<Colour>, draw': nat, index: int, ext: Option<Offset>,
             k: nat, reached: int)
    requires forall n, k :: 0 < k ==> pick(n, k) < k
    requires |working| > 0
    requires GridInv(table, w, h) && Queued(table, pillars, working, w, h) && Fits(world, w, h, ww)
    requires WorldCells(world, table, w, h, ww, gx, gy) && WorldQueued(world, pillars, working, w, h, ww)
    requires WorldOutside(world, w, h, ww)
    ensures k == pick(draw, |working|) && k < |working| && index == working[k]
    ensures index in working && 0 <= index < |pillars| && IsPillarCell(pillars[index].x, pillars[index].y, w, h)
    ensures ext.None? ==> draw' == draw + 1 && working' == RemoveAt(working, k) && reached == -1
    ensures ext.Some? ==>
              var p := pillars[index];
              var options := PossibleExtend(table, w, h, p.x, p.y);
              draw' == draw + 2 && options != [] && ext.value == options[pick(draw + 1, |options|)] &&
              0 <= reached < |pillars| && pillars[reached] == Pillar(p.x + ext.value.dx, p.y + ext.value.dy) &&
              working' == Requeued(working, k, reached, |options| >= 2)
    ensures ext.None? ==> table' == table && PossibleExtend(table, w, h, pillars[index].x, pillars[index].y) == []
    ensures ext.Some? ==>
              ext.value in PossibleExtend(table, w, h, pillars[index].x, pillars[index].y) &&
              table' == Extend(table, w, h, pillars[index].x, pillars[index].y, ext.value)
    ensures forall v :: v in working && v != index ==> v in working'
    ensures GridInv(table', w, h) && Queued(table', pillars, working', w, h) && Grown(table, table', w, h)
    ensures ZeroCells(table', w, h) < ZeroCells(table, w, h) || (table' == table && |working'| < |working|)
    ensures |world'| == |world| && Fits(world', w, h, ww)
    ensures WorldCells(world', table', w, h, ww, gx, gy) && WorldQueued(world', pillars, working', w, h, ww)
    ensures WorldOutside(world', w, h, ww)
    ensures forall j, i :: InBuffer(world, ww, i, j) ==>
              world'[FlatIndex(i, j, ww)] ==
                if StepPaints(pillars[index].x, pillars[index].y, ext, i, j) then White else world[FlatIndex(i, j, ww)]
  {
    table', working', draw', index, ext, k, reached := ExtendOnce(w, h, pick, draw, table, pillars, working);
    world' := PaintStep(w, h, ww, gx, gy, table, table', pillars, working, working', world, index, ext);
  }

  /** The world writes of one pass of generateWalls: the popped pillar is
      painted white and, when the wall was extended, its middle cell and
      the pillar it reached too. */
  method PaintStep(w: nat, h: nat, ww: nat, gx: int, gy: int, table: Table, table': Table, pillars: seq<Pillar>,
                   working: seq<int>, working': seq<int>, world: seq<Colour>, index: int, ext: Option<Offset>)
    returns (world': seq<Colour>)
    requires GridInv(table, w, h) && Fits(world, w, h, ww)
    requires 0 <= index < |pillars| && IsPillarCell(pillars[index].x, pillars[index].y, w, h)
    requires table[pillars[index].y][pillars[index].x] == 1
    requires ext.None? ==> table' == table
    requires ext.Some? ==>
               ext.value in PossibleExtend(table, w, h, pillars[index].x, pillars[index].y) &&
               table' == Extend(table, w, h, pillars[index].x, pillars[index].y, ext.value)
    requires forall v :: v in working && v != index ==> v in working'
    requires WorldCells(world, table, w, h, ww, gx, gy) && WorldQueued(world, pillars, working, w, h, ww)
    requires WorldOutside(world, w, h, ww)
    ensures Shaped(table', w, h)
    ensures |world'| == |world| && Fits(world', w, h, ww)
    ensures InBuffer(world, ww, pillars[index].x, pillars[index].y) &&
            world'[FlatIndex(pillars[index].x, pillars[index].y, ww)] == White
    ensures forall j, i :: InBuffer(world, ww, i, j) ==>
              world'[FlatIndex(i, j, ww)] ==
                if StepPaints(pillars[index].x, pillars[index].y, ext, i, j) then White else world[FlatIndex(i, j, ww)]
    ensures WorldCells(world', table', w, h, ww, gx, gy) && WorldQueued(world', pillars, working', w, h, ww)
    ensures WorldOutside(world', w, h, ww)
  {
    var x, y := pillars[index].x, pillars[index].y;
    ExtendPaintsWalls(table, table', w, h, x, y, ext);
    forall j, i | StepPaints(x, y, ext, i, j)
      ensures InBuffer(world, ww, i, j)
    {
      InMaze(world, w, h, ww, i, j);
    }
    world' := PaintCells(world, ww, x, y, ext);
    RepaintKeepsColours(w, h, ww, gx, gy, table, table', pillars, working, working', world, world', index, ext);
  }

  /** The world writes of one pass: the popped pillar (x, y) is painted
      white and, when the wall was extended by `ext`, the middle cell, then
      the pillar reached. */
  method PaintCells(world: seq<Colour>, ww: nat, x: int, y: int, ext: Option<Offset>) returns (world': seq<Colour>)
    requires forall j, i :: StepPaints(x, y, ext, i, j) ==> InBuffer(world, ww, i, j)
    ensures |world'| == |world|
    ensures forall j, i :: InBuffer(world, ww, i, j) ==>
              world'[FlatIndex(i, j, ww)] == if StepPaints(x, y, ext, i, j) then White else world[FlatIndex(i, j, ww)]
  {
    assert StepPaints(x, y, ext, x, y);
    if ext.Some? {
      assert StepPaints(x, y, ext, x + ext.value.dx / 2, y + ext.value.dy / 2);
      assert StepPaints(x, y, ext, x + ext.value.dx, y + ext.value.dy);
    }
    StepPaintsCells(world, ww, x, y, ext);
    world' := world[FlatIndex(x, y, ww) := White];
    if ext.Some? {
      var d := ext.value;
      var x1, y1 := x + d.dx / 2, y + d.dy / 2;
      var x2, y2 := x + d.dx, y + d.dy;
      world' := world'[FlatIndex(x1, y1, ww) := White];
      world' := world'[FlatIndex(x2, y2, ww) := White];
    }
  }

  /** The writes of one pass change exactly the cells StepPaints names. */
  lemma StepPaintsCells(world: seq<Colour>, ww: nat, px: int, py: int, ext: Option<Offset>)
    requires InBuffer(world, ww, px, py)
    requires ext.Some? ==>
               InBuffer(world, ww, px + ext.value.dx / 2, py + ext.value.dy / 2) &&
               InBuffer(world, ww, px + ext.value.dx, py + ext.value.dy)
    ensures ext.None? ==>
              forall j, i :: InBuffer(world, ww, i, j) ==>
                world[FlatIndex(px, py, ww) := White][FlatIndex(i, j, ww)] ==
                  if StepPaints(px, py, ext, i, j) then White else world[FlatIndex(i, j, ww)]
    ensures ext.Some? ==>
              forall j, i :: InBuffer(world, ww, i, j) ==>
                world[FlatIndex(px, py, ww) := White]
                     [FlatIndex(px + ext.value.dx / 2, py + ext.value.dy / 2, ww) := White]
                     [FlatIndex(px + ext.value.dx, py + ext.value.dy, ww) := White][FlatIndex(i, j, ww)] ==
                  if StepPaints(px, py, ext, i, j) then White else world[FlatIndex(i, j, ww)]
  {
    var w1 := world[FlatIndex(px, py, ww) := White];
    FlatUpdate(world, ww, px, py, White);
    if ext.Some? {
      var d := ext.value;
      var w2 := w1[FlatIndex(px + d.dx / 2, py + d.dy / 2, ww) := White];
      FlatUpdate(w1, ww, px + d.dx / 2, py + d.dy / 2, White);
      FlatUpdate(w2, ww, px + d.dx, py + d.dy, White);
    }
  }

  /** The cells StepPaints names are exactly the cells of the table that
      one pass leaves wall and that may have changed: the popped pillar
      was wall already, and the extension walls the other two. */
  lemma ExtendPaintsWalls(table: Table, table': Table, w: nat, h: nat, x: int, y: int, ext: Option<Offset>)
    requires Shaped(table, w, h) && IsPillarCell(x, y, w, h) && table[y][x] == 1
    requires ext.None? ==> table' == table
    requires ext.Some? ==> ext.value in PossibleExtend(table, w, h, x, y) && table' == Extend(table, w, h, x, y, ext.value)
    ensures Shaped(table', w, h)
    ensures forall j, i :: StepPaints(x, y, ext, i, j) ==> InGrid(i, j, w, h)
    ensures forall j, i :: 0 <= j < h && 0 <= i < w ==>
              table'[j][i] == if StepPaints(x, y, ext, i, j) then 1 else table[j][i]
  {
    if ext.Some? {
      ExtendCells(table, w, h, x, y, ext.value);
      ExtendWritesTwoCells(table, w, h, x, y, ext.value);
    }
  }

  /** Painting white exactly the cells StepPaints names keeps the colour
      invariants, for the table in which those cells are wall and the
      working list from which at most the popped pillar has gone. */
  lemma RepaintKeepsColours(w: nat, h: nat, ww: nat, gx: int, gy: int, table: Table, table': Table,
                            pillars: seq<Pillar>, working: seq<int>, working': seq<int>, world: seq<Colour>,
                            world': seq<Colour>, index: int, ext: Option<Offset>)
    requires Shaped(table, w, h) && Shaped(table', w, h) && Fits(world, w, h, ww) && |world'| == |world|
    requires 0 <= index < |pillars|
    requires forall j, i :: StepPaints(pillars[index].x, pillars[index].y, ext, i, j) ==> InGrid(i, j, w, h)
    requires forall j, i :: 0 <= j < h && 0 <= i < w ==>
               table'[j][i] == if StepPaints(pillars[index].x, pillars[index].y, ext, i, j) then 1 else table[j][i]
    requires forall j, i :: InBuffer(world, ww, i, j) ==>
               world'[FlatIndex(i, j, ww)] ==
                 if StepPaints(pillars[index].x, pillars[index].y, ext, i, j) then White else world[FlatIndex(i, j, ww)]
    requires forall v :: v in working && v != index ==> v in working'
    requires WorldCells(world, table, w, h, ww, gx, gy) && WorldQueued(world, pillars, working, w, h, ww)
    requires WorldOutside(world, w, h, ww)
    ensures Fits(world', w, h, ww)
    ensures WorldCells(world', table', w, h, ww, gx, gy) && WorldQueued(world', pillars, working', w, h, ww)
    ensures WorldOutside(world', w, h, ww)
  {
    var x, y := pillars[index].x, pillars[index].y;
    assert StepPaints(x, y, ext, x, y);
    forall i | 0 <= i < |pillars| && IsPillarCell(pillars[i].x, pillars[i].y, w, h) &&
               InBuffer(world', ww, pillars[i].x, pillars[i].y) &&
               world'[FlatIndex(pillars[i].x, pillars[i].y, ww)] == PillarWallColour
      ensures i in working'
    {
      assert InBuffer(world, ww, pillars[i].x, pillars[i].y);
    }
  }

  /** The scroll position along one axis after the ball moved to `pos`:
      one step forward when the ball is 5 or more cells into the window and
      the window can still move, one step back when it is 2 or fewer cells
      in and the window is not at the start. `length` is the maze length
      along that axis. */
  function NextScroll(scroll: int, pos: int, length: int): (s: int)
    ensures -1 <= s - scroll <= 1
    ensures s > scroll ==> pos - scroll >= 5 && s + 8 <= length
    ensures s < scroll ==> pos - scroll <= 2 && s >= 0
  {
    if pos - scroll >= 5 && scroll < length - 8 then scroll + 1
    else if pos - scroll <= 2 && scroll > 0 then scroll - 1
    else scroll
  }

  /** The window never leaves the world, moves at most one cell, and keeps
      in view a ball that was in view and moved at most one cell. */
  lemma ScrollFollowsBall(scroll: int, pre: int, pos: int, length: int)
    requires 0 <= scroll <= (if length > 8 then length - 8 else 0)
    requires 0 <= pos < length
    ensures var s := NextScroll(scroll, pos, length);
      0 <= s <= (if length > 8 then length - 8 else 0) && -1 <= s - scroll <= 1 &&
      (0 <= pre - scroll < 8 && -1 <= pos - pre <= 1 ==> 0 <= pos - s < 8)
  {
  }

  /** Cell (i, j) of the screen is cell (sx + i, sy + j) of the buffer. */
  predicate ShowsWindow(screen: Screen, world: seq<Colour>, ww: nat, sx: int, sy: int)
  {
    0 <= sx && sx + 8 <= ww && 0 <= sy && RowStart(sy + 8, ww) <= |world| &&
    forall j, i | 0 <= j < 8 && 0 <= i < 8 ::
      FlatIndexBound(ww, sy + 8, sx + i, sy + j);
      screen[At(i, j)] == world[FlatIndex(sx + i, sy + j, ww)]
  }

  /** The first `rows` rows of the window whose top-left cell is (sx, sy),
      in `screen`. */
  predicate ShowsRows(screen: seq<Colour>, world: seq<Colour>, ww: nat, sx: int, sy: int, rows: nat)
  {
    |screen| == 8 * rows &&
    forall j, i :: 0 <= j < rows && 0 <= i < 8 && InBuffer(world, ww, sx + i, sy + j) ==>
      screen[At(i, j)] == world[FlatIndex(sx + i, sy + j, ww)]
  }

  /** Appending the next row of the window. */
  lemma AppendRow(screen: seq<Colour>, world: seq<Colour>, ww: nat, sx: nat, sy: nat, y1: nat, row: seq<Colour>)
    requires sx + 8 <= ww && RowStart(sy + 8, ww) <= |world| && y1 < 8
    requires ShowsRows(screen, world, ww, sx, sy, y1)
    requires 0 <= FlatIndex(sx, sy + y1, ww) && FlatIndex(sx, sy + y1, ww) + 8 <= |world|
    requires row == world[FlatIndex(sx, sy + y1, ww)..FlatIndex(sx, sy + y1, ww) + 8]
    ensures ShowsRows(screen + row, world, ww, sx, sy, y1 + 1)
  {
    var rows := screen + row;
    forall j, i | 0 <= j <= y1 && 0 <= i < 8 && InBuffer(world, ww, sx + i, sy + j)
      ensures rows[At(i, j)] == world[FlatIndex(sx + i, sy + j, ww)]
    {
      if j < y1 {
        assert rows[At(i, j)] == screen[At(i, j)];
      } else {
        assert rows[At(i, j)] == row[i];
      }
    }
  }

  /** Reads the 8 x 8 window whose top-left cell is (sx, sy) out of a
      buffer `ww` cells wide, row by row. */
  method ReadScreen(world: seq<Colour>, ww: nat, sx: nat, sy: nat) returns (screen: Screen)
    requires sx + 8 <= ww && RowStart(sy + 8, ww) <= |world|
    ensures ShowsWindow(screen, world, ww, sx, sy)
  {
    var rows: seq<Colour> := [];
    var y1 := 0;
    while y1 < 8
      invariant 0 <= y1 <= 8 && ShowsRows(rows, world, ww, sx, sy, y1)
    {
      FlatIndexBound(ww, sy + 8, sx, sy + y1);
      FlatIndexBound(ww, sy + 8, sx + 7, sy + y1);
      var start := FlatIndex(sx, sy + y1, ww);
      var row := world[start..start + 8];
      AppendRow(rows, world, ww, sx, sy, y1, row);
      rows := rows + row;
      y1 := y1 + 1;
    }
    forall j, i | 0 <= j < 8 && 0 <= i < 8
      ensures InBuffer(world, ww, sx + i, sy + j) && rows[At(i, j)] == world[FlatIndex(sx + i, sy + j, ww)]
    {
      FlatIndexBound(ww, sy + 8, sx + i, sy + j);
    }
    screen := rows;
  }

  class LargeMaze {
    /** Width and height of the maze in cells; the game builds a 15 x 15 maze. */
    const X: nat
    const Y: nat
    var shouldExit: bool
    /** Indices into `pillarList` of the pillars still to be tried. */
    var workingPillarList: seq<int>
    var pillarList: seq<Pillar>
    var wallTable: Table
    /** The colours of the whole maze, row by row, WorldWidth() cells wide. */
    var world: seq<Colour>
    var currentScrollX: int
    var currentScrollY: int
    var goalX: int
    var goalY: int

    constructor ()
      ensures X == 15 && Y == 15 && Sized()
      ensures !shouldExit && workingPillarList == [] && pillarList == [] && wallTable == [] && world == []
      ensures currentScrollX == 0 && currentScrollY == 0 && goalX == 0 && goalY == 0
    {
      X, Y := 15, 15;
      shouldExit := false;
      workingPillarList, pillarList, wallTable, world := [], [], [], [];
      currentScrollX, currentScrollY, goalX, goalY := 0, 0, 0, 0;
    }

    /** Odd dimensions, so that the pillar grid closes at the border, and
        room for a goal corner apart from the start (1, 1). */
    predicate Sized()
    {
      OddSize(X, Y) && 5 <= X && 5 <= Y
    }

    /** The world is at least 8 x 8, so that it fills the screen. */
    function WorldWidth(): nat
    {
      if X > 8 then X else 8
    }

    function WorldHeight(): nat
    {
      if Y > 8 then Y else 8
    }

    /** The goal sits in one of the three corners other than the start. */
    predicate GoalPlaced()
      reads this
    {
      (goalX, goalY) in {(X - 2, 1), (1, Y - 2), (X - 2, Y - 2)}
    }

    /** The window lies inside the world. */
    predicate ScrollInRange()
      reads this
    {
      |world| == RowStart(WorldHeight(), WorldWidth()) &&
      0 <= currentScrollX <= WorldWidth() - 8 && 0 <= currentScrollY <= WorldHeight() - 8
    }

    /** Any released stick event asks the game to exit. */
    method JoystickAny(e: StickEvent)
      modifies this
      ensures shouldExit == (old(shouldExit) || e.action == Released)
      ensures workingPillarList == old(workingPillarList) && pillarList == old(pillarList)
      ensures wallTable == old(wallTable) && world == old(world)
      ensures currentScrollX == old(currentScrollX) && currentScrollY == old(currentScrollY)
      ensures goalX == old(goalX) && goalY == old(goalY)
    {
      if e.action == Released {
        shouldExit := true;
      }
    }

    /** Places the goal in the corner `goalRandom` names (1 top right,
        2 bottom left, 3 bottom right), builds the table, pillar list and
        working list as maze.py does, draws the maze into a black world of
        at least 8 x 8 cells, and returns the top-left window. */
    method InitDraw(goalRandom: int) returns (screen: Screen)
      requires Sized() && 1 <= goalRandom <= 3
      requires wallTable == [] && pillarList == [] && workingPillarList == []
      modifies this
      ensures goalRandom == 1 ==> goalX == X - 2 && goalY == 1
      ensures goalRandom == 2 ==> goalX == 1 && goalY == Y - 2
      ensures goalRandom == 3 ==> goalX == X - 2 && goalY == Y - 2
      ensures GoalPlaced() && (goalX, goalY) != (1, 1)
      ensures BorderOnly(wallTable, X, Y)
      ensures PillarListOf(pillarList, X, Y) && workingPillarList == BorderPillarIndices(pillarList, X, Y)
      ensures |world| == WorldWidth() * WorldHeight() == RowStart(WorldHeight(), WorldWidth())
      ensures forall y, x :: InBuffer(world, WorldWidth(), x, y) ==>
                world[FlatIndex(x, y, WorldWidth())] ==
                  (if x < X && y < Y then InitColour(x, y, X, Y, goalX, goalY) else Black)
      ensures ShowsWindow(screen, world, WorldWidth(), 0, 0)
      ensures shouldExit == old(shouldExit)
      ensures currentScrollX == old(currentScrollX) && currentScrollY == old(currentScrollY)
    {
      var gx, gy;
      if goalRandom == 1 {
        gx, gy := X - 2, 1;
      } else if goalRandom == 2 {
        gx, gy := 1, Y - 2;
      } else {
        gx, gy := X - 2, Y - 2;
      }
      var table, pillars, working, w := InitRows(gx, gy);
      RowStartIsProduct(WorldHeight(), WorldWidth());
      RowStartLe(8, WorldHeight(), WorldWidth());
      screen := ReadScreen(w, WorldWidth(), 0, 0);
      goalX, goalY, wallTable, pillarList, workingPillarList, world := gx, gy, table, pillars, working, w;
    }

    /** Grows the walls as maze.py does, painting every cell that becomes
        wall white. On return every pillar is wall, the start and the goal
        are open, and the world shows each maze cell white when it is wall
        and in its initial colour otherwise. */
    method GenerateWalls(pick: (nat, nat) -> nat)
      requires forall n, k :: 0 < k ==> pick(n, k) < k
      requires Sized() && GoalPlaced() && |world| == RowStart(WorldHeight(), WorldWidth())
      requires GridInv(wallTable, X, Y) && Queued(wallTable, pillarList, workingPillarList, X, Y)
      requires WorldCells(world, wallTable, X, Y, WorldWidth(), goalX, goalY)
      requires WorldQueued(world, pillarList, workingPillarList, X, Y, WorldWidth())
      requires WorldOutside(world, X, Y, WorldWidth())
      modifies this
      ensures workingPillarList == [] && |world| == old(|world|)
      ensures pillarList == old(pillarList) && shouldExit == old(shouldExit)
      ensures goalX == old(goalX) && goalY == old(goalY)
      ensures currentScrollX == old(currentScrollX) && currentScrollY == old(currentScrollY)
      ensures GridInv(wallTable, X, Y) && Grown(old(wallTable), wallTable, X, Y)
      ensures forall y, x :: IsPillarCell(x, y, X, Y) ==> wallTable[y][x] == 1
      ensures wallTable[1][1] == 0 && wallTable[goalY][goalX] == 0
      ensures forall y, x :: 0 <= y < Y && 0 <= x < X ==>
                InBuffer(world, WorldWidth(), x, y) &&
                world[FlatIndex(x, y, WorldWidth())] ==
                  (if wallTable[y][x] == 1 then White else InitColour(x, y, X, Y, goalX, goalY))
      ensures WorldOutside(world, X, Y, WorldWidth())
    {
      var table, working, pillars, w := wallTable, workingPillarList, pillarList, world;
      var draw := 0;
      RowStartLe(Y, WorldHeight(), WorldWidth());
      while |working| > 0
        invariant GridInv(table, X, Y) && Queued(table, pillars, working, X, Y)
        invariant Grown(old(wallTable), table, X, Y)
        invariant |w| == |world| && Fits(w, X, Y, WorldWidth())
        invariant WorldCells(w, table, X, Y, WorldWidth(), goalX, goalY)
        invariant WorldQueued(w, pillars, working, X, Y, WorldWidth()) && WorldOutside(w, X, Y, WorldWidth())
        invariant pillars == pillarList && world == old(world) && wallTable == old(wallTable)
        invariant shouldExit == old(shouldExit) && goalX == old(goalX) && goalY == old(goalY)
        invariant currentScrollX == old(currentScrollX) && currentScrollY == old(currentScrollY)
        decreases ZeroCells(table, X, Y), |working|
      {
        ghost var before := table;
        var index, ext, k, reached;
        table, working, w, draw, index, ext, k, reached :=
          GrowAndPaint(X, Y, WorldWidth(), goalX, goalY, pick, draw, table, pillars, working, w);
        GrownTrans(old(wallTable), before, table, X, Y);
      }
      QueueEmptyClosed(table, pillars, X, Y);
      OddCellsOpen(table, X, Y, 1, 1);
      OddCellsOpen(table, X, Y, goalX, goalY);
      WorldDone(w, table, pillars, X, Y, WorldWidth(), goalX, goalY);
      wallTable, workingPillarList, world := table, working, w;
    }

    /** The two nested loops of initDraw, starting from empty lists and a
        black world. */
    method InitRows(gx: int, gy: int) returns (table: Table, pillars: seq<Pillar>, working: seq<int>, w: seq<Colour>)
      requires Sized()
      ensures BorderOnly(table, X, Y)
      ensures pillars == PillarsBefore(X, 0, Y) && working == BorderPillarIndices(pillars, X, Y)
      ensures |w| == RowStart(WorldHeight(), WorldWidth())
      ensures forall y, x :: InBuffer(w, WorldWidth(), x, y) ==>
                w[FlatIndex(x, y, WorldWidth())] == (if x < X && y < Y then InitColour(x, y, X, Y, gx, gy) else Black)
    {
      table, pillars, working := [], [], [];
      w := seq(WorldWidth() * WorldHeight(), _ => Black);
      RowStartIsProduct(WorldHeight(), WorldWidth());
      var y := 0;
      while y < Y
        invariant 0 <= y <= Y && RowsPrefix(gx, gy, y, table, pillars, working, w)
      {
        table, pillars, working, w := InitRowAt(gx, gy, y, table, pillars, working, w);
        y := y + 1;
      }
    }

    /** The state of InitRows after the first `y` rows. */
    ghost predicate RowsPrefix(gx: int, gy: int, y: nat, table: Table, pillars: seq<Pillar>, working: seq<int>,
                               w: seq<Colour>)
    {
      |table| == y && (forall j :: 0 <= j < y ==> |table[j]| == X) &&
      (forall j, i :: 0 <= j < y && 0 <= i < X ==> table[j][i] == (if OnBorder(i, j, X, Y) then 1 else 0)) &&
      pillars == PillarsBefore(X, 0, y) && working == BorderPillarIndices(pillars, X, Y) &&
      |w| == RowStart(WorldHeight(), WorldWidth()) &&
      forall j, i :: InBuffer(w, WorldWidth(), i, j) ==>
        w[FlatIndex(i, j, WorldWidth())] == (if j < y && i < X then InitColour(i, j, X, Y, gx, gy) else Black)
    }

    /** Row `y` of InitRows: the row drawn by InitRow joins the table. */
    method InitRowAt(gx: int, gy: int, y: nat, table: Table, pillars: seq<Pillar>, working: seq<int>, w: seq<Colour>)
      returns (table': Table, pillars': seq<Pillar>, working': seq<int>, w': seq<Colour>)
      requires Sized() && y < Y && RowsPrefix(gx, gy, y, table, pillars, working, w)
      ensures RowsPrefix(gx, gy, y + 1, table', pillars', working', w')
    {
      var wallRow;
      wallRow, w', pillars', working' := InitRow(gx, gy, y, w, pillars, working);
      table' := table + [wallRow];
    }

    /** Row `y` of initDraw: the row of the wall table, the pillars of the
        row appended to the pillar list (border ones also queued), and the
        row drawn into the world. */
    method InitRow(gx: int, gy: int, y: nat, w: seq<Colour>, pillars: seq<Pillar>, working: seq<int>)
      returns (wallRow: seq<int>, w': seq<Colour>, pillars': seq<Pillar>, working': seq<int>)
      requires Sized() && y < Y && |w| == RowStart(WorldHeight(), WorldWidth())
      requires pillars == PillarsBefore(X, 0, y) && working == BorderPillarIndices(pillars, X, Y)
      ensures |wallRow| == X
      ensures forall i :: 0 <= i < X ==> wallRow[i] == (if OnBorder(i, y, X, Y) then 1 else 0)
      ensures pillars' == PillarsBefore(X, 0, y + 1) && working' == BorderPillarIndices(pillars', X, Y)
      ensures |w'| == |w|
      ensures forall j, i :: InBuffer(w, WorldWidth(), i, j) ==>
                w'[FlatIndex(i, j, WorldWidth())] ==
                  (if j == y && i < X then InitColour(i, j, X, Y, gx, gy) else w[FlatIndex(i, j, WorldWidth())])
    {
      wallRow, w', pillars', working' := [], w, pillars, working;
      var x := 0;
      while x < X
        invariant 0 <= x <= X && RowPrefix(gx, gy, y, x, w, wallRow, w', pillars', working')
      {
        wallRow, w', pillars', working' := InitCellAt(gx, gy, y, x, w, wallRow, w', pillars', working');
        x := x + 1;
      }
    }

    /** The state of InitRow after the first `x` cells of row `y`. */
    ghost predicate RowPrefix(gx: int, gy: int, y: nat, x: nat, w: seq<Colour>, wallRow: seq<int>, w': seq<Colour>,
                              pillars': seq<Pillar>, working': seq<int>)
    {
      |wallRow| == x &&
      (forall i :: 0 <= i < x ==> wallRow[i] == (if OnBorder(i, y, X, Y) then 1 else 0)) &&
      x <= X && pillars' == PillarsBefore(X, x, y) && working' == BorderPillarIndices(pillars', X, Y) &&
      |w'| == |w| &&
      forall j, i :: InBuffer(w, WorldWidth(), i, j) ==>
        w'[FlatIndex(i, j, WorldWidth())] ==
          (if j == y && i < x then InitColour(i, j, X, Y, gx, gy) else w[FlatIndex(i, j, WorldWidth())])
    }

    /** Cell (x, y) of initDraw: its wall bit, its pillar and its colour. */
    method InitCellAt(gx: int, gy: int, y: nat, x: nat, w: seq<Colour>, wallRow: seq<int>, w': seq<Colour>,
                      pillars': seq<Pillar>, working': seq<int>)
      returns (wallRow'': seq<int>, w'': seq<Colour>, pillars'': seq<Pillar>, working'': seq<int>)
      requires Sized() && y < Y && x < X && |w| == RowStart(WorldHeight(), WorldWidth())
      requires RowPrefix(gx, gy, y, x, w, wallRow, w', pillars', working')
      ensures RowPrefix(gx, gy, y, x + 1, w, wallRow'', w'', pillars'', working'')
    {
      var wall, color := InitCell(X, Y, gx, gy, x, y);
      wallRow'' := wallRow + [wall];
      pillars'', working'' := ListPillar(X, Y, x, y, pillars', working');
      FlatIndexBound(WorldWidth(), WorldHeight(), x, y);
      w'' := SetFlat(w', WorldWidth(), x, y, color);
    }

    /** One move of the ball in goMaze, from (preX, preY) to (x, y), the
        cells the ball physics computed. When the ball moved, the window
        scrolls by at most one cell per axis towards it, the old cell turns
        black and the new one red, the window is redrawn and the game tells
        whether the goal is reached; otherwise nothing changes. */
    method MoveBall(preX: int, preY: int, x: int, y: int) returns (screen: Option<Screen>, reachedGoal: bool)
      requires ScrollInRange() && InGrid(preX, preY, X, Y) && InGrid(x, y, X, Y)
      modifies this
      ensures ScrollInRange()
      ensures (preX, preY) == (x, y) ==>
                screen.None? && !reachedGoal && world == old(world) &&
                currentScrollX == old(currentScrollX) && currentScrollY == old(currentScrollY)
      ensures (preX, preY) != (x, y) ==>
                currentScrollX == NextScroll(old(currentScrollX), x, X) &&
                currentScrollY == NextScroll(old(currentScrollY), y, Y) &&
                InBuffer(old(world), WorldWidth(), preX, preY) && InBuffer(old(world), WorldWidth(), x, y) &&
                world == old(world)[FlatIndex(preX, preY, WorldWidth()) := Black][FlatIndex(x, y, WorldWidth()) := Red] &&
                screen.Some? && ShowsWindow(screen.value, world, WorldWidth(), currentScrollX, currentScrollY) &&
                reachedGoal == (x == goalX && y == goalY)
      ensures 0 <= preX - old(currentScrollX) < 8 && -1 <= x - preX <= 1 ==> 0 <= x - currentScrollX < 8
      ensures 0 <= preY - old(currentScrollY) < 8 && -1 <= y - preY <= 1 ==> 0 <= y - currentScrollY < 8
      ensures wallTable == old(wallTable) && pillarList == old(pillarList)
      ensures workingPillarList == old(workingPillarList) && shouldExit == old(shouldExit)
      ensures goalX == old(goalX) && goalY == old(goalY)
    {
      screen, reachedGoal := None, false;
      if !(preX == x && preY == y) {
        ScrollFollowsBall(currentScrollX, preX, x, X);
        ScrollFollowsBall(currentScrollY, preY, y, Y);
        var sx, sy := NextScroll(currentScrollX, x, X), NextScroll(currentScrollY, y, Y);
        RowStartLe(Y, WorldHeight(), WorldWidth());
        InMaze(world, X, Y, WorldWidth(), preX, preY);
        InMaze(world, X, Y, WorldWidth(), x, y);
        var w := world[FlatIndex(preX, preY, WorldWidth()) := Black][FlatIndex(x, y, WorldWidth()) := Red];
        RowStartLe(sy + 8, WorldHeight(), WorldWidth());
        var s := ReadScreen(w, WorldWidth(), sx, sy);
        currentScrollX, currentScrollY, world := sx, sy, w;
        screen := Some(s);
        reachedGoal := x == goalX && y == goalY;
      }
    }

    /** initDraw followed by generateWalls, as run() does before goMaze:
        the maze has every pillar and the border walled, start and goal
        open, and the world shows every wall cell white and every open cell
        in its initial colour, with the window at the top-left corner. */
    method Build(goalRandom: int, pick: (nat, nat) -> nat) returns (first: Screen)
      requires forall n, k :: 0 < k ==> pick(n, k) < k
      requires Sized() && 1 <= goalRandom <= 3
      requires wallTable == [] && pillarList == [] && workingPillarList == []
      requires currentScrollX == 0 && currentScrollY == 0
      modifies this
      ensures forall j, i :: 0 <= j < 8 && 0 <= i < 8 ==>
                first[At(i, j)] == (if i < X && j < Y then InitColour(i, j, X, Y, goalX, goalY) else Black)
      ensures GoalPlaced() && (goalX, goalY) != (1, 1) && ScrollInRange()
      ensures GridInv(wallTable, X, Y) && PillarListOf(pillarList, X, Y) && workingPillarList == []
      ensures forall y, x :: IsPillarCell(x, y, X, Y) ==> wallTable[y][x] == 1
      ensures wallTable[1][1] == 0 && wallTable[goalY][goalX] == 0
      ensures forall y, x :: InBuffer(world, WorldWidth(), x, y) ==>
                world[FlatIndex(x, y, WorldWidth())] ==
                  (if x < X && y < Y then (if wallTable[y][x] == 1 then White else InitColour(x, y, X, Y, goalX, goalY))
                   else Black)
      ensures shouldExit == old(shouldExit)
    {
      first := InitDraw(goalRandom);
      forall j, i | 0 <= j < 8 && 0 <= i < 8
        ensures InBuffer(world, WorldWidth(), i, j)
      {
        FlatIndexBound(WorldWidth(), WorldHeight(), i, j);
      }
      QueueStart(wallTable, pillarList, workingPillarList, X, Y);
      RowStartLe(Y, WorldHeight(), WorldWidth());
      WorldStart(world, wallTable, pillarList, workingPillarList, X, Y, WorldWidth(), goalX, goalY);
      GenerateWalls(pick);
    }
  }
}
