/** The board of the space scroller in space.py: a column of 100 rows of 8
    cells with meteorites, an animated enemy near the far end, a ship on the
    bottom row of the 8-row window, and a scroll that only moves forward. */
module Space {
  import opened Hat
  import opened MinMax
  import SpaceLayouts

  /** P_SPACE_ROW_LENGTH: the rows of the whole board. */
  const RowLength := 100
  /** The cells of the whole board. */
  const BoardSize := 800
  /** int(P_METEORITE_RATIO * (P_SPACE_ROW_LENGTH - 7 - 8)) = int(0.5 * 85). */
  const MeteoriteCount := 42
  /** The last row that always holds a meteorite, P_SPACE_ROW_LENGTH - 7. */
  const LastMeteoriteRow := 93
  /** enemyStartRow, eight rows before the last screen. */
  const EnemyStartRow := 16
  /** The scroll at which the goal is reached, P_SPACE_ROW_LENGTH - 8. */
  const GoalScroll := 92
  /** P_SENSITIVE_ROLL. */
  const SensitiveRoll: real := 2.0

  const Meteorite := Cyan
  const Ship := Colour(239, 129, 15)
  const Crushed := Red

  lemma ConstantsAgree()
    ensures BoardSize == 8 * RowLength && LastMeteoriteRow == RowLength - 7 && GoalScroll == RowLength - 8
    ensures MeteoriteCount == (0.5 * (RowLength - 7 - 8) as real).Floor
  {
  }

  /** The three enemies; each is beaten by a different sensor. */
  datatype Enemy = TemperatureEnemy | OrientationEnemy | MagnetometerEnemy

  /** The enemy's colour: the sensor colour of temperature (pink),
      orientation (blue) or magnetometer (yellow). */
  function EnemyColour(e: Enemy): (c: Colour)
    ensures c != Black && c != Meteorite && c != Ship
  {
    match e
    case TemperatureEnemy => Colour(255, 130, 147)
    case OrientationEnemy => Blue
    case MagnetometerEnemy => Yellow
  }

  /** The comprehension of initSpaceArray: every lit cell of the frame
      takes colour `c`, black cells stay black. */
  function Recolour(frame: seq<Colour>, c: Colour): (r: seq<Colour>)
    requires c != Black
    ensures |r| == |frame|
    ensures forall i :: 0 <= i < |frame| ==> (r[i] == Black <==> frame[i] == Black)
    ensures forall i :: 0 <= i < |frame| ==> r[i] != Black ==> r[i] == c
  {
    seq(|frame|, i requires 0 <= i < |frame| => if frame[i] != Black then c else Black)
  }

  /** Recolouring an already recoloured frame is the same as recolouring
      the original: the table the game keeps recolouring between runs ends
      up as if it had been recoloured once with the last colour. */
  lemma RecolourAgain(frame: seq<Colour>, c1: Colour, c2: Colour)
    requires c1 != Black && c2 != Black
    ensures Recolour(Recolour(frame, c1), c2) == Recolour(frame, c2)
  {
    var once := Recolour(frame, c1);
    assert forall i :: 0 <= i < |frame| ==> Recolour(once, c2)[i] == Recolour(frame, c2)[i];
  }

  /** The loop of initSpaceArray over the frames of the chosen layout. */
  method RecolourLayout(layout: seq<seq<Colour>>, c: Colour) returns (r: seq<seq<Colour>>)
    requires c != Black
    ensures |r| == |layout|
    ensures forall l :: 0 <= l < |layout| ==> r[l] == Recolour(layout[l], c)
  {
    r := layout;
    for l := 0 to |layout|
      invariant |r| == |layout|
      invariant forall k :: 0 <= k < l ==> r[k] == Recolour(layout[k], c)
      invariant forall k :: l <= k < |layout| ==> r[k] == layout[k]
    {
      r := r[l := Recolour(r[l], c)];
    }
  }

  /** Layout `l` of the table as frames of cells. */
  function TableLayout(l: int): (frames: seq<seq<Colour>>)
    requires 0 <= l < |SpaceLayouts.Layouts|
    ensures |frames| == |SpaceLayouts.Layouts[l]|
    ensures forall k :: 0 <= k < |frames| ==> |frames[k]| == |SpaceLayouts.Layouts[l][k]|
  {
    seq(|SpaceLayouts.Layouts[l]|, k requires 0 <= k < |SpaceLayouts.Layouts[l]| => SpaceLayouts.Decode(SpaceLayouts.Layouts[l][k]))
  }

  /** A list of frames the game can animate: at least one frame, every
      frame the same whole number of rows, between one and four. */
  predicate FramesFit(frames: seq<seq<Colour>>)
  {
    |frames| >= 1 && 8 <= |frames[0]| <= 32 && |frames[0]| % 8 == 0 &&
    forall k :: 0 <= k < |frames| ==> |frames[k]| == |frames[0]|
  }

  /** Every layout of the table, recoloured, fits. */
  lemma RecolouredTableFits(l: int, c: Colour, frames: seq<seq<Colour>>)
    requires 0 <= l < 5 && c != Black
    requires |frames| == |TableLayout(l)|
    requires forall k :: 0 <= k < |frames| ==> frames[k] == Recolour(TableLayout(l)[k], c)
    ensures FramesFit(frames)
  {
    SpaceLayouts.LayoutsWellFormed();
    assert SpaceLayouts.WellFormed(SpaceLayouts.Layouts[l]);
  }

  /** The rows that get a meteorite: the 42 picked rows and then row 93. */
  function MeteoriteRows(picked: seq<int>): seq<int>
  {
    picked + [LastMeteoriteRow]
  }

  /** What initSpaceArray demands of its random picks: 42 distinct rows from
      8..92 (np.random.choice without replacement) and one column in 0..7 for
      each of them and for row 93. */
  predicate ValidPicks(picked: seq<int>, cols: seq<int>)
  {
    |picked| == MeteoriteCount && |cols| == MeteoriteCount + 1 &&
    (forall j :: 0 <= j < |picked| ==> 8 <= picked[j] < LastMeteoriteRow) &&
    (forall j, k :: 0 <= j < k < |picked| ==> picked[j] != picked[k]) &&
    (forall j :: 0 <= j < |cols| ==> 0 <= cols[j] < 8)
  }

  /** Cell i is the meteorite of one of the first n picks. */
  predicate MeteoriteIn(rows: seq<int>, cols: seq<int>, n: int, i: int)
    requires 0 <= n <= |rows| && n <= |cols|
  {
    exists j :: 0 <= j < n && rows[j] * 8 + cols[j] == i
  }

  /** The meteorite loop of initSpaceArray on an all-black board. */
  method ScatterMeteorites(rows: seq<int>, cols: seq<int>) returns (board: seq<Colour>)
    requires |rows| == |cols|
    requires forall j :: 0 <= j < |rows| ==> 0 <= rows[j] < RowLength && 0 <= cols[j] < 8
    ensures |board| == BoardSize
    ensures forall i :: 0 <= i < BoardSize ==> board[i] == if MeteoriteIn(rows, cols, |rows|, i) then Meteorite else Black
  {
    board := seq(BoardSize, _ => Black);
    for n := 0 to |rows|
      invariant |board| == BoardSize
      invariant forall i :: 0 <= i < BoardSize ==> board[i] == if MeteoriteIn(rows, cols, n, i) then Meteorite else Black
    {
      board := board[rows[n] * 8 + cols[n] := Meteorite];
      forall i | 0 <= i < BoardSize
        ensures MeteoriteIn(rows, cols, n + 1, i) <==> MeteoriteIn(rows, cols, n, i) || i == rows[n] * 8 + cols[n]
      {
        if i == rows[n] * 8 + cols[n] {
          assert rows[n] * 8 + cols[n] == i;
        }
      }
    }
  }

  /** Meteorites lie only in rows 8..93, and every one of those rows that
      holds one holds exactly one: the cell of its pick. */
  lemma MeteoritesOnePerRow(picked: seq<int>, cols: seq<int>, i: int, i': int)
    requires ValidPicks(picked, cols)
    requires MeteoriteIn(MeteoriteRows(picked), cols, MeteoriteCount + 1, i)
    requires MeteoriteIn(MeteoriteRows(picked), cols, MeteoriteCount + 1, i')
    ensures 8 <= i / 8 <= LastMeteoriteRow
    ensures i / 8 == i' / 8 ==> i == i'
  {
    var rows := MeteoriteRows(picked);
    var j :| 0 <= j < MeteoriteCount + 1 && rows[j] * 8 + cols[j] == i;
    var j' :| 0 <= j' < MeteoriteCount + 1 && rows[j'] * 8 + cols[j'] == i';
    assert i / 8 == rows[j];
    assert i' / 8 == rows[j'];
  }

  /** Row 93 always holds a meteorite. */
  lemma LastRowHasMeteorite(picked: seq<int>, cols: seq<int>)
    requires ValidPicks(picked, cols)
    ensures MeteoriteIn(MeteoriteRows(picked), cols, MeteoriteCount + 1, LastMeteoriteRow * 8 + cols[MeteoriteCount])
  {
    assert MeteoriteRows(picked)[MeteoriteCount] == LastMeteoriteRow;
  }

  /** The enemy frame written over the board from row enemyStartRow on,
      the intended reading of the slice assignments of initSpaceArray and
      animateEnemy: the cells of the frame are replaced and the board keeps
      its length. */
  function PlaceFrame(board: seq<Colour>, frame: seq<Colour>): (r: seq<Colour>)
    requires EnemyStartRow * 8 + |frame| <= |board|
    ensures |r| == |board|
    ensures forall i :: 0 <= i < |board| ==>
              r[i] == if EnemyStartRow * 8 <= i < EnemyStartRow * 8 + |frame| then frame[i - EnemyStartRow * 8] else board[i]
  {
    board[..EnemyStartRow * 8] + frame + board[EnemyStartRow * 8 + |frame|..]
  }

  /** The slice assignment of initSpaceArray as written: it replaces as
      many board cells as the layout has frames, not as many as the frame
      has cells. */
  function PlaceFirstFrameAsWritten(board: seq<Colour>, frames: seq<seq<Colour>>): (r: seq<Colour>)
    requires |frames| >= 1 && EnemyStartRow * 8 + |frames| <= |board|
    ensures |r| == |board| - |frames| + |frames[0]|
  {
    board[..EnemyStartRow * 8] + frames[0] + board[EnemyStartRow * 8 + |frames|..]
  }

  /** For every layout of the table the as-written assignment changes the
      length of the board: 20, 28, 18, 20 and 18 cells are added. */
  lemma PlacementAsWrittenGrowsBoard(board: seq<Colour>, l: int, c: Colour, frames: seq<seq<Colour>>)
    requires |board| == BoardSize && 0 <= l < 5 && c != Black
    requires |frames| == |TableLayout(l)|
    requires forall k :: 0 <= k < |frames| ==> frames[k] == Recolour(TableLayout(l)[k], c)
    ensures |PlaceFirstFrameAsWritten(board, frames)| != BoardSize
  {
    RecolouredTableFits(l, c, frames);
    assert |frames[0]| == |SpaceLayouts.Layouts[l][0]|;
  }

  /** The comprehension of destroyEnemy over the prefix of n cells: cells of
      colour c become black; every other cell, and every cell past the
      prefix, is kept. */
  function ErasePrefix(board: seq<Colour>, c: Colour, n: int): (r: seq<Colour>)
    requires 0 <= n <= |board|
    ensures |r| == |board|
    ensures forall i :: 0 <= i < |board| ==> r[i] == if i < n && board[i] == c then Black else board[i]
  {
    seq(n, i requires 0 <= i < n => if board[i] != c then board[i] else Black) + board[n..]
  }

  /** Erasing removes colour c from the prefix and nothing else is lost. */
  lemma EraseRemovesOnlyColour(board: seq<Colour>, c: Colour, n: int, i: int)
    requires 0 <= n <= |board| && 0 <= i < |board|
    ensures i < n ==> ErasePrefix(board, c, n)[i] != c || c == Black
    ensures board[i] != c ==> ErasePrefix(board, c, n)[i] == board[i]
  {
  }

  /** The 64 cells the screen shows at scroll `scroll`: rows
      RowLength - scroll - 8 to RowLength - scroll - 1 of the board. */
  function Window(board: seq<Colour>, scroll: int): (w: Screen)
    requires |board| == BoardSize && 0 <= scroll <= GoalScroll
    ensures forall i :: 0 <= i < ScreenSize ==> w[i] == board[(RowLength - scroll) * 8 - ScreenSize + i]
  {
    board[(RowLength - scroll) * 8 - ScreenSize..(RowLength - scroll) * 8]
  }

  /** checkHit: the ship's two cells on the bottom row are scanned and the
      first non-black one is a hit. */
  method CheckHit(screen: Screen, shipX: int) returns (hit: bool)
    requires 0 <= shipX <= 6
    ensures hit <==> screen[7 * 8 + shipX] != Black || screen[7 * 8 + shipX + 1] != Black
  {
    for i := 7 * 8 + shipX to 7 * 8 + shipX + 2
      invariant forall k :: 7 * 8 + shipX <= k < i ==> screen[k] == Black
    {
      if screen[i] != Black {
        return true;
      }
    }
    return false;
  }

  /** The frame index of animateEnemy, int(enemyFrame / 2.5) % n. */
  function AnimationIndex(enemyFrame: nat, n: int): (k: int)
    requires n >= 1
    ensures 0 <= k < n
    ensures k == (2 * enemyFrame / 5) % n
  {
    FloorTwoFifths(enemyFrame);
    ((enemyFrame as real) / 2.5).Floor % n
  }

  /** enemyFrame / 2.5 truncates to 2 * enemyFrame div 5. */
  lemma FloorTwoFifths(f: nat)
    ensures ((f as real) / 2.5).Floor == 2 * f / 5
  {
    var q := 2 * f / 5;
    assert 5 * q <= 2 * f < 5 * q + 5;
    assert (q as real) <= (f as real) / 2.5 < (q as real) + 1.0;
  }

  /** The outcome of one frame of the run loop. */
  datatype Outcome = Continue | Crash | Goal

  /** The tilt-to-speed rule of run: -roll * P_SENSITIVE_ROLL clamped to
      0.0..1.0 rows per frame. */
  function ScrollSpeed(roll: real): (y: real)
    ensures 0.0 <= y <= 1.0
    ensures 0.0 <= -roll * SensitiveRoll <= 1.0 ==> y == -roll * SensitiveRoll
  {
    var y := -1.0 * roll * SensitiveRoll;
    var atMost := if y < 1.0 then y else 1.0;
    if atMost < 0.0 then 0.0 else atMost
  }

  class Space {
    var shouldExit: bool
    /** spaceArray: the whole board, row 0 (shown last) first. */
    var spaceArray: seq<Colour>
    var currentScroll: int
    var currentScrollPh: real
    var shipX: int
    var selectedEnemyPixelsLayout: seq<seq<Colour>>
    var enemy: Enemy
    var enemyColor: Colour

    constructor ()
      ensures !shouldExit && spaceArray == [] && currentScroll == 0 && currentScrollPh == 0.0 && shipX == 3
      ensures selectedEnemyPixelsLayout == []
    {
      shouldExit := false;
      spaceArray := [];
      currentScroll, currentScrollPh := 0, 0.0;
      shipX := 3;
      selectedEnemyPixelsLayout := [];
      enemy := TemperatureEnemy;
      enemyColor := EnemyColour(TemperatureEnemy);
    }

    /** The board keeps its 800 cells, the enemy frames fit and are in the
        enemy's colour, the ship is on the screen and the scroll lies
        between the start and the goal, the integer part of its real
        counterpart. */
    predicate Valid()
      reads this
    {
      |spaceArray| == BoardSize && FramesFit(selectedEnemyPixelsLayout) &&
      enemyColor == EnemyColour(enemy) &&
      0 <= shipX <= 6 &&
      0.0 <= currentScrollPh && currentScroll == currentScrollPh.Floor && currentScroll <= GoalScroll
    }

    /** joystick_any: any release asks to exit. */
    method JoystickAny(e: StickEvent)
      modifies this`shouldExit
      ensures shouldExit == (old(shouldExit) || e.action == Released)
    {
      if e.action == Released {
        shouldExit := true;
      }
    }

    /** initSpaceArray with its random picks as arguments: the meteorite rows
        and columns, the enemy and the layout index. The board holds the
        first recoloured frame from row 16 on and elsewhere one meteorite
        per picked row. The enemy frame is written over its own cells only
        (see PlaceFirstFrameAsWritten for the assignment as written). */
    method InitSpaceArray(picked: seq<int>, cols: seq<int>, e: Enemy, layoutIndex: int)
      requires ValidPicks(picked, cols) && 0 <= layoutIndex < 5
      requires currentScroll == 0 && currentScrollPh == 0.0 && 0 <= shipX <= 6
      modifies this`spaceArray, this`enemy, this`enemyColor, this`selectedEnemyPixelsLayout
      ensures Valid()
      ensures enemy == e && enemyColor == EnemyColour(e)
      ensures |selectedEnemyPixelsLayout| == |TableLayout(layoutIndex)|
      ensures forall k :: 0 <= k < |selectedEnemyPixelsLayout| ==>
                selectedEnemyPixelsLayout[k] == Recolour(TableLayout(layoutIndex)[k], enemyColor)
      ensures forall i :: 0 <= i < BoardSize ==>
                spaceArray[i] ==
                  if EnemyStartRow * 8 <= i < EnemyStartRow * 8 + |selectedEnemyPixelsLayout[0]|
                  then selectedEnemyPixelsLayout[0][i - EnemyStartRow * 8]
                  else if MeteoriteIn(MeteoriteRows(picked), cols, MeteoriteCount + 1, i) then Meteorite
                  else Black
    {
      var rows := MeteoriteRows(picked);
      var board := ScatterMeteorites(rows, cols);
      var c := EnemyColour(e);
      var frames := RecolourLayout(TableLayout(layoutIndex), c);
      RecolouredTableFits(layoutIndex, c, frames);
      spaceArray := PlaceFrame(board, frames[0]);
      enemy, enemyColor := e, c;
      selectedEnemyPixelsLayout := frames;
    }

    /** animateEnemy: the frame index for enemyFrame, and the enemy rows
        rewritten with that frame only when the index changed. */
    method AnimateEnemy(enemyFrame: nat, lastIndex: int) returns (selectedIndex: int)
      requires Valid()
      modifies this`spaceArray
      ensures Valid()
      ensures selectedIndex == AnimationIndex(enemyFrame, |selectedEnemyPixelsLayout|)
      ensures spaceArray == if lastIndex != selectedIndex
                            then PlaceFrame(old(spaceArray), selectedEnemyPixelsLayout[selectedIndex])
                            else old(spaceArray)
    {
      selectedIndex := AnimationIndex(enemyFrame, |selectedEnemyPixelsLayout|);
      if lastIndex != selectedIndex {
        spaceArray := PlaceFrame(spaceArray, selectedEnemyPixelsLayout[selectedIndex]);
      }
    }

    /** destroyEnemy without its flicker: the enemy's colour is erased from
        the board up to the bottom of the current window. */
    method DestroyEnemy()
      requires Valid()
      modifies this`spaceArray
      ensures Valid()
      ensures forall i :: 0 <= i < BoardSize ==>
                spaceArray[i] == if i < (RowLength - currentScroll) * 8 && old(spaceArray)[i] == enemyColor
                                 then Black else old(spaceArray)[i]
    {
      spaceArray := ErasePrefix(spaceArray, enemyColor, (RowLength - currentScroll) * 8);
    }

    /** Whether the enemy rows are in view and the enemy is still alive. */
    predicate EnemyInView(destroyed: bool)
      requires Valid()
      reads this
      ensures EnemyInView(destroyed) <==>
                !destroyed && (RowLength - currentScroll) * 8 - 64 < EnemyStartRow * 8 + |selectedEnemyPixelsLayout[0]|
    {
      RowLength - currentScroll - 7 <= EnemyStartRow + |selectedEnemyPixelsLayout[0]| / 8 && !destroyed
    }

    /** The enemy's part of a frame, from the frame counter, last frame
        index and destroyed flag before it to those after it: a visible live
        enemy is animated (its rows rewritten when the index changes) and,
        when attacked, erased up to the bottom of the window and marked
        destroyed; otherwise nothing changes. */
    twostate predicate EnemyStepped(attacked: bool, enemyFrame: nat, lastIndex: int, destroyed: bool,
                                    enemyFrame': nat, lastIndex': int, destroyed': bool)
      requires Valid()
      reads this
    {
      |old(spaceArray)| == BoardSize &&
      if EnemyInView(destroyed) then
        lastIndex' == AnimationIndex(enemyFrame, |selectedEnemyPixelsLayout|) &&
        enemyFrame' == enemyFrame + 1 && destroyed' == attacked &&
        spaceArray == (var a := if lastIndex != lastIndex' then PlaceFrame(old(spaceArray), selectedEnemyPixelsLayout[lastIndex'])
                                else old(spaceArray);
                       if attacked then ErasePrefix(a, enemyColor, (RowLength - currentScroll) * 8) else a)
      else
        lastIndex' == lastIndex && enemyFrame' == enemyFrame && destroyed' == destroyed &&
        spaceArray == old(spaceArray)
    }

    /** The movement at the top of the loop of run, with the tilt already
        converted: `x` is the truncated pitch position and `roll` the roll
        angle. The ship moves to -x + 3 clamped to 0..6 and the scroll
        advances by the clamped speed, so it never goes back and moves at
        most one row. */
    method Move(x: int, roll: real)
      requires Valid() && currentScroll < GoalScroll
      modifies this`shipX, this`currentScrollPh, this`currentScroll
      ensures Valid()
      ensures shipX == Clamp(-x + 3, DefaultMin, DefaultMax)
      ensures currentScrollPh == old(currentScrollPh) + ScrollSpeed(roll)
      ensures old(currentScroll) <= currentScroll <= old(currentScroll) + 1
    {
      shipX := Clamp(-x + 3, DefaultMin, DefaultMax);
      currentScrollPh := currentScrollPh + ScrollSpeed(roll);
      currentScroll := currentScrollPh.Floor;
    }

    /** The enemy part of the loop of run: a visible live enemy is animated
        and, when `attacked` (what the enemy's sensor check returned),
        destroyed. */
    method EnemyStep(attacked: bool, enemyFrame: nat, lastIndex: int, destroyed: bool)
      returns (enemyFrame': nat, lastIndex': int, destroyed': bool)
      requires Valid()
      modifies this`spaceArray
      ensures Valid()
      ensures EnemyStepped(attacked, enemyFrame, lastIndex, destroyed, enemyFrame', lastIndex', destroyed')
    {
      enemyFrame', lastIndex', destroyed' := enemyFrame, lastIndex, destroyed;
      if EnemyInView(destroyed) {
        lastIndex' := AnimateEnemy(enemyFrame, lastIndex);
        enemyFrame' := enemyFrame + 1;
        if attacked {
          DestroyEnemy();
          destroyed' := true;
        }
      }
    }

    /** One pass of the loop of run: Move, EnemyStep, and then the screen of
        ComposeScreen for the current window. */
    method Frame(x: int, roll: real, attacked: bool, enemyFrame: nat, lastIndex: int, destroyed: bool)
      returns (outcome: Outcome, screen: Screen, enemyFrame': nat, lastIndex': int, destroyed': bool)
      requires Valid() && currentScroll < GoalScroll
      modifies this`shipX, this`currentScrollPh, this`currentScroll, this`spaceArray
      ensures Valid()
      ensures shipX == Clamp(-x + 3, DefaultMin, DefaultMax)
      ensures currentScrollPh == old(currentScrollPh) + ScrollSpeed(roll)
      ensures old(currentScroll) <= currentScroll <= old(currentScroll) + 1
      ensures EnemyStepped(attacked, enemyFrame, lastIndex, destroyed, enemyFrame', lastIndex', destroyed')
      ensures Shown(Window(spaceArray, currentScroll), currentScroll, shipX, outcome, screen)
      ensures outcome == Continue ==> currentScroll < GoalScroll
    {
      Move(x, roll);
      enemyFrame', lastIndex', destroyed' := EnemyStep(attacked, enemyFrame, lastIndex, destroyed);
      outcome, screen := ComposeScreen(Window(spaceArray, currentScroll), currentScroll, shipX);
    }
  }

  /** What a frame shows for window w: a crash exactly when a ship cell is
      taken, showing the window as it is; otherwise the window with the
      ship's two cells drawn, and the goal exactly at the last scroll. */
  predicate Shown(w: Screen, scroll: int, shipX: int, outcome: Outcome, screen: Screen)
    requires 0 <= shipX <= 6
  {
    (outcome == Crash <==> w[7 * 8 + shipX] != Black || w[7 * 8 + shipX + 1] != Black) &&
    (outcome == Goal <==> outcome != Crash && scroll >= GoalScroll) &&
    (outcome == Crash ==> screen == w) &&
    (outcome != Crash ==> screen == w[7 * 8 + shipX := Ship][7 * 8 + shipX + 1 := Ship])
  }

  /** The end of the loop of run: checkHit on the window, then the ship
      drawn and the goal test. */
  method ComposeScreen(w: Screen, scroll: int, shipX: int) returns (outcome: Outcome, screen: Screen)
    requires 0 <= shipX <= 6
    ensures Shown(w, scroll, shipX, outcome, screen)
  {
    var hit := CheckHit(w, shipX);
    if hit {
      outcome, screen := Crash, w;
    } else {
      screen := w[7 * 8 + shipX := Ship][7 * 8 + shipX + 1 := Ship];
      outcome := if scroll >= GoalScroll then Goal else Continue;
    }
  }
}
