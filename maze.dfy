/** The maze of maze.py: initDraw lays out the border and the pillars,
    generateWalls grows walls from the border pillars until no wall pillar
    can be extended. The LED output is the screen initDraw returns. */
module Maze {
  import opened Hat
  import opened MazeGrid

  class Maze {
    /** Width and height of the maze in cells; the game builds a 7 x 7 maze. */
    const BlockX: nat
    const BlockY: nat
    var shouldExit: bool
    /** Indices into `pillarList` of the pillars still to be tried. */
    var workingPillarList: seq<int>
    var pillarList: seq<Pillar>
    var wallTable: Table

    constructor ()
      ensures BlockX == 7 && BlockY == 7 && Sized()
      ensures !shouldExit && workingPillarList == [] && pillarList == [] && wallTable == []
    {
      BlockX, BlockY := 7, 7;
      shouldExit := false;
      workingPillarList := [];
      pillarList := [];
      wallTable := [];
    }

    /** Odd dimensions, so that the pillar grid closes at the border, and a
        maze that fits on the 8 x 8 screen it is drawn on. */
    predicate Sized()
    {
      OddSize(BlockX, BlockY) && BlockX <= 8 && BlockY <= 8
    }

    /** Any released stick event asks the game to exit. */
    method JoystickAny(e: StickEvent)
      modifies this
      ensures shouldExit == (old(shouldExit) || e.action == Released)
      ensures workingPillarList == old(workingPillarList) && pillarList == old(pillarList)
      ensures wallTable == old(wallTable)
    {
      if e.action == Released {
        shouldExit := true;
      }
    }

    /** Builds the wall table (border 1, inside 0), the pillar list in
        row-major order and the working list of border pillars, and returns
        the first screen. */
    method InitDraw() returns (pixels: Screen)
      requires Sized()
      requires wallTable == [] && pillarList == [] && workingPillarList == []
      modifies this
      ensures BorderOnly(wallTable, BlockX, BlockY)
      ensures PillarListOf(pillarList, BlockX, BlockY) && workingPillarList == BorderPillarIndices(pillarList, BlockX, BlockY)
      ensures forall y, x :: 0 <= y < 8 && 0 <= x < 8 ==>
                pixels[At(x, y)] ==
                  (if x < BlockX && y < BlockY then InitColour(x, y, BlockX, BlockY, BlockX - 2, BlockY - 2)
                   else Black)
      ensures shouldExit == old(shouldExit)
    {
      var table, pillars, working;
      table, pillars, working, pixels := InitRows();
      wallTable, pillarList, workingPillarList := table, pillars, working;
    }

    /** The two nested loops of initDraw, starting from empty lists and a
        black screen. */
    method InitRows() returns (table: Table, pillars: seq<Pillar>, working: seq<int>, pixels: Screen)
      requires Sized()
      ensures BorderOnly(table, BlockX, BlockY)
      ensures pillars == PillarsBefore(BlockX, 0, BlockY) && working == BorderPillarIndices(pillars, BlockX, BlockY)
      ensures forall y, x :: 0 <= y < 8 && 0 <= x < 8 ==>
                pixels[At(x, y)] ==
                  (if x < BlockX && y < BlockY then InitColour(x, y, BlockX, BlockY, BlockX - 2, BlockY - 2)
                   else Black)
    {
      table, pillars, working := [], [], [];
      pixels := Filled(Black);
      var y := 0;
      while y < BlockY
        invariant 0 <= y <= BlockY
        invariant |table| == y && forall j :: 0 <= j < y ==> |table[j]| == BlockX
        invariant forall j, i :: 0 <= j < y && 0 <= i < BlockX ==>
                    table[j][i] == (if OnBorder(i, j, BlockX, BlockY) then 1 else 0)
        invariant pillars == PillarsBefore(BlockX, 0, y) && working == BorderPillarIndices(pillars, BlockX, BlockY)
        invariant forall j, i :: 0 <= j < 8 && 0 <= i < 8 ==>
                    pixels[At(i, j)] ==
                      (if j < y && i < BlockX then InitColour(i, j, BlockX, BlockY, BlockX - 2, BlockY - 2)
                       else Black)
      {
        var wallRow;
        wallRow, pixels, pillars, working := InitRow(y, pixels, pillars, working);
        table := table + [wallRow];
        y := y + 1;
      }
    }

    /** Row `y` of initDraw: the row of the wall table, the pillars of the
        row appended to the pillar list (border ones also queued), and the
        row drawn into the screen. */
    method InitRow(y: nat, pixels: Screen, pillars: seq<Pillar>, working: seq<int>)
      returns (wallRow: seq<int>, pixels': Screen, pillars': seq<Pillar>, working': seq<int>)
      requires Sized() && y < BlockY
      requires pillars == PillarsBefore(BlockX, 0, y) && working == BorderPillarIndices(pillars, BlockX, BlockY)
      ensures |wallRow| == BlockX
      ensures forall i :: 0 <= i < BlockX ==> wallRow[i] == (if OnBorder(i, y, BlockX, BlockY) then 1 else 0)
      ensures pillars' == PillarsBefore(BlockX, 0, y + 1) && working' == BorderPillarIndices(pillars', BlockX, BlockY)
      ensures forall j, i :: 0 <= j < 8 && 0 <= i < 8 ==>
                pixels'[At(i, j)] ==
                  (if j == y && i < BlockX then InitColour(i, j, BlockX, BlockY, BlockX - 2, BlockY - 2)
                   else pixels[At(i, j)])
    {
      wallRow, pixels', pillars', working' := [], pixels, pillars, working;
      var x := 0;
      while x < BlockX
        invariant 0 <= x <= BlockX
        invariant |wallRow| == x
        invariant forall i :: 0 <= i < x ==> wallRow[i] == (if OnBorder(i, y, BlockX, BlockY) then 1 else 0)
        invariant pillars' == PillarsBefore(BlockX, x, y) && working' == BorderPillarIndices(pillars', BlockX, BlockY)
        invariant forall j, i :: 0 <= j < 8 && 0 <= i < 8 ==>
                    pixels'[At(i, j)] ==
                      (if j == y && i < x then InitColour(i, j, BlockX, BlockY, BlockX - 2, BlockY - 2)
                       else pixels[At(i, j)])
      {
        var wall, color := InitCell(BlockX, BlockY, BlockX - 2, BlockY - 2, x, y);
        wallRow := wallRow + [wall];
        pillars', working' := ListPillar(BlockX, BlockY, x, y, pillars', working');
        pixels' := SetPixel(pixels', x, y, color);
        x := x + 1;
      }
    }

    /** Grows the walls: repeats one extension step until the working list
        is empty. `pick(n, k)` is the n-th random draw, a number in [0, k).
        On return every pillar is wall, no wall has been removed, and start
        and goal are open. */
    method GenerateWalls(pick: (nat, nat) -> nat)
      requires forall n, k :: 0 < k ==> pick(n, k) < k
      requires Sized()
      requires GridInv(wallTable, BlockX, BlockY) && Queued(wallTable, pillarList, workingPillarList, BlockX, BlockY)
      modifies this
      ensures workingPillarList == []
      ensures pillarList == old(pillarList) && shouldExit == old(shouldExit)
      ensures GridInv(wallTable, BlockX, BlockY) && Grown(old(wallTable), wallTable, BlockX, BlockY)
      ensures forall y, x :: IsPillarCell(x, y, BlockX, BlockY) ==> wallTable[y][x] == 1
      ensures wallTable[1][1] == 0 && wallTable[BlockY - 2][BlockX - 2] == 0
    {
      var table, working, pillars := wallTable, workingPillarList, pillarList;
      var draw := 0;
      while |working| > 0
        invariant GridInv(table, BlockX, BlockY)
        invariant Queued(table, pillars, working, BlockX, BlockY)
        invariant Grown(old(wallTable), table, BlockX, BlockY)
        invariant pillarList == old(pillarList) && shouldExit == old(shouldExit)
        decreases ZeroCells(table, BlockX, BlockY), |working|
      {
        ghost var before := table;
        var index, ext, k, reached;
        table, working, draw, index, ext, k, reached := ExtendOnce(BlockX, BlockY, pick, draw, table, pillars, working);
        GrownTrans(old(wallTable), before, table, BlockX, BlockY);
      }
      QueueEmptyClosed(table, pillars, BlockX, BlockY);
      OddCellsOpen(table, BlockX, BlockY, 1, 1);
      OddCellsOpen(table, BlockX, BlockY, BlockX - 2, BlockY - 2);
      wallTable, workingPillarList := table, working;
    }

    /** initDraw followed by generateWalls, as run() does before the ball
        game starts: the result is a maze whose every pillar is wall, whose
        border is wall, and whose start and goal are open. */
    method Build(pick: (nat, nat) -> nat) returns (pixels: Screen)
      requires forall n, k :: 0 < k ==> pick(n, k) < k
      requires Sized() && wallTable == [] && pillarList == [] && workingPillarList == []
      modifies this
      ensures GridInv(wallTable, BlockX, BlockY) && PillarListOf(pillarList, BlockX, BlockY) && workingPillarList == []
      ensures forall y, x :: IsPillarCell(x, y, BlockX, BlockY) ==> wallTable[y][x] == 1
      ensures wallTable[1][1] == 0 && wallTable[BlockY - 2][BlockX - 2] == 0
      ensures shouldExit == old(shouldExit)
    {
      pixels := InitDraw();
      QueueStart(wallTable, pillarList, workingPillarList, BlockX, BlockY);
      GenerateWalls(pick);
    }
  }
}
