/** The game menu of menu.py. The menu image stacks the items vertically,
    three rows per item (two rows of icon and a blank margin, without a
    margin after the last item). The screen is an 8-row window on that
    image starting at row `currentScroll`. A red two-cell cursor in column 0
    marks the selected item; after an up or down move it slides one row per
    frame to the new item, and the window scrolls when the cursor nears
    its edge. */
module Menu {
  import opened Hat

  /** The 6 x 2 picture each game shows in the menu. */
  type Icon = s: seq<Colour> | |s| == 12 witness seq(12, _ => Black)

  const CursorColour := Red

  /** Column x of icon row j (0 or 1): the picture sits in columns 2 to 7. */
  function IconCell(icon: Icon, j: int, x: int): Colour
    requires 0 <= j <= 1
  {
    if 2 <= x < 8 then icon[6 * j + x - 2] else Black
  }

  /** Rows 3i and 3i + 1 of `pixels` show item i's icon. */
  predicate ItemDrawn(pixels: seq<Colour>, i: nat, icon: Icon)
    requires At(0, 3 * i + 2) <= |pixels|
  {
    forall x :: 0 <= x < 8 ==> pixels[At(x, 3 * i)] == IconCell(icon, 0, x) && pixels[At(x, 3 * i + 1)] == IconCell(icon, 1, x)
  }

  /** Row `row` of `pixels` is black. */
  predicate RowBlank(pixels: seq<Colour>, row: nat)
    requires At(0, row + 1) <= |pixels|
  {
    forall x :: 0 <= x < 8 ==> pixels[At(x, row)] == Black
  }

  /** Row 3i + 2 of `pixels`, the margin after item i, is black. */
  predicate MarginBlank(pixels: seq<Colour>, i: nat)
    requires At(0, 3 * i + 3) <= |pixels|
  {
    RowBlank(pixels, 3 * i + 2)
  }

  /** `pixels` is the whole menu image of `icons`: 3n - 1 rows of 8 cells,
      item i's icon in rows 3i and 3i + 1, every other cell black. */
  predicate IsMenuImage(icons: seq<Icon>, pixels: seq<Colour>)
  {
    |icons| >= 1 && |pixels| == 8 * (3 * |icons| - 1) &&
    (forall i :: 0 <= i < |icons| ==> ItemDrawn(pixels, i, icons[i])) &&
    (forall i :: 0 <= i < |icons| - 1 ==> MarginBlank(pixels, i))
  }

  /** The loop body of getAllMenuPixels for item i: two black rows are
      appended and the icon is written into them. */
  method AppendItem(pixels: seq<Colour>, i: nat, icon: Icon) returns (pixels': seq<Colour>)
    requires |pixels| == 24 * i
    ensures |pixels'| == 24 * i + 16 && pixels'[..24 * i] == pixels
    ensures ItemDrawn(pixels', i, icon)
  {
    pixels' := pixels + seq(16, _ => Black);
    ItemRows(i);
    assert forall k :: 24 * i <= k < 24 * i + 16 ==> pixels'[k] == Black;
    for n := 0 to 6
      invariant |pixels'| == 24 * i + 16 && pixels'[..24 * i] == pixels
      invariant forall x :: 0 <= x < 8 ==>
                  pixels'[At(x, 3 * i)] == (if 2 <= x < 2 + n then icon[x - 2] else Black) &&
                  pixels'[At(x, 3 * i + 1)] == (if 2 <= x < 2 + n then icon[6 + x - 2] else Black)
    {
      pixels' := pixels'[i * 8 * 3 + 2 + n := icon[n]];
      pixels' := pixels'[i * 8 * 3 + 8 + 2 + n := icon[6 + n]];
    }
  }

  /** Item i's two icon rows start 24 i and 24 i + 8 cells into the image. */
  lemma ItemRows(i: nat)
    ensures forall x :: At(x, 3 * i) == 24 * i + x && At(x, 3 * i + 1) == 24 * i + 8 + x
  {
    assert (3 * i) * 8 == 24 * i;
  }

  /** Growing the image by one item keeps the items already drawn. */
  lemma KeepItems(pixels: seq<Colour>, pixels': seq<Colour>, icons: seq<Icon>, i: nat)
    requires i <= |icons| && |pixels| == 24 * i && 24 * i <= |pixels'| && pixels'[..24 * i] == pixels
    requires forall k :: 0 <= k < i ==> ItemDrawn(pixels, k, icons[k]) && MarginBlank(pixels, k)
    ensures forall k :: 0 <= k < i ==> ItemDrawn(pixels', k, icons[k]) && MarginBlank(pixels', k)
  {
    forall k | 0 <= k < i
      ensures ItemDrawn(pixels', k, icons[k]) && MarginBlank(pixels', k)
    {
      forall x | 0 <= x < 8
        ensures pixels'[At(x, 3 * k)] == pixels[At(x, 3 * k)]
        ensures pixels'[At(x, 3 * k + 1)] == pixels[At(x, 3 * k + 1)]
        ensures pixels'[At(x, 3 * k + 2)] == pixels[At(x, 3 * k + 2)]
      {
        assert pixels'[..24 * i][At(x, 3 * k + 2)] == pixels'[At(x, 3 * k + 2)];
        assert pixels'[..24 * i][At(x, 3 * k + 1)] == pixels'[At(x, 3 * k + 1)];
        assert pixels'[..24 * i][At(x, 3 * k)] == pixels'[At(x, 3 * k)];
      }
    }
  }

  /** getAllMenuPixels: the menu image of `icons`. */
  method AllMenuPixels(icons: seq<Icon>) returns (pixels: seq<Colour>)
    requires |icons| >= 1
    ensures IsMenuImage(icons, pixels)
  {
    pixels := [];
    var i := 0;
    while i < |icons|
      invariant 0 <= i <= |icons|
      invariant |pixels| == (if i < |icons| then 24 * i else 24 * i - 8)
      invariant forall k :: 0 <= k < i ==> ItemDrawn(pixels, k, icons[k])
      invariant forall k :: 0 <= k < i && k < |icons| - 1 ==> MarginBlank(pixels, k)
    {
      var grown := AppendItem(pixels, i, icons[i]);
      KeepItems(pixels, grown, icons, i);
      pixels := grown;
      if i != |icons| - 1 {
        pixels := pixels + seq(8, _ => Black);
        assert pixels[..24 * i + 16] == grown;
        KeepItems(grown[..24 * i], pixels, icons, i);
        assert ItemDrawn(pixels, i, icons[i]) by {
          forall x | 0 <= x < 8
            ensures pixels[At(x, 3 * i)] == grown[At(x, 3 * i)] && pixels[At(x, 3 * i + 1)] == grown[At(x, 3 * i + 1)]
          {
          }
        }
      }
      i := i + 1;
    }
  }

  /** The scroll rule of getScreenDuringCursorScrolling for a menu of `n`
      items. Moving down, the window scrolls down one row once the selected
      item starts six or more rows in (for the last item: more than six);
      moving up, it scrolls up one row once the selected item starts at or
      above the top row (for the first item: above it). */
  function ScrollAfter(down: bool, n: int, selected: int, scroll: int): (r: int)
    ensures if down then scroll <= r <= scroll + 1 else scroll - 1 <= r <= scroll
    ensures r != scroll ==> if down then 3 * selected - scroll >= 6 else 3 * selected - scroll <= 0
  {
    var offset := selected * 3 - scroll;
    if down then
      if offset >= 6 && (selected != n - 1 || offset > 6) then scroll + 1 else scroll
    else
      if offset <= 0 && (selected != 0 || offset < 0) then scroll - 1 else scroll
  }

  /** The cursor and scroll state the menu keeps for `n` items. With
      offset = 3 * selected - scroll, the row at which the selected item
      starts inside the window:
      - the selection is an item, and the window fits inside the image
        (0 <= scroll <= 3n - 9, that is, scroll * 8 + 64 <= 8 (3n - 1));
      - at rest the cursor is on the selected item, at offset 0 for the
        first item and 1 to 5 otherwise (6 for the last item, which has no
        margin below it);
      - while the cursor slides down, k = 3 * selected - cursor rows
        remain, 1 <= k <= 3, and 3 <= offset <= 5 + k;
      - while it slides up, k = cursor - 3 * selected rows remain,
        1 <= k <= 3, and 1 - k <= offset <= 3. */
  predicate CursorInv(n: int, selected: int, cursor: int, scroll: int, sliding: bool)
  {
    var offset := 3 * selected - scroll;
    n >= 3 && 0 <= selected < n && 0 <= scroll <= 3 * n - 9 &&
    if !sliding then
      cursor == 3 * selected &&
      (selected == 0 ==> offset == 0) &&
      (selected >= 1 ==> 1 <= offset <= 5 || (selected == n - 1 && offset == 6))
    else if cursor < 3 * selected then
      1 <= 3 * selected - cursor <= 3 && 3 <= offset <= 5 + (3 * selected - cursor)
    else
      1 <= cursor - 3 * selected <= 3 && 1 - (cursor - 3 * selected) <= offset <= 3
  }

  /** At rest the cursor's two cells lie inside the window. */
  lemma RestCursorVisible(n: int, selected: int, cursor: int, scroll: int)
    requires CursorInv(n, selected, cursor, scroll, false)
    ensures 0 <= cursor - scroll && cursor - scroll + 1 < 8
  {
  }

  /** A step of the sliding cursor keeps the invariant: the cursor moves one
      row toward 3 * selected and lands inside the window, the scroll rule
      keeps the window inside the image, and the sliding stops exactly on
      arrival. */
  lemma CursorStepKeepsInv(n: int, selected: int, cursor: int, scroll: int)
    requires CursorInv(n, selected, cursor, scroll, true)
    ensures var down := 3 * selected > cursor;
            var cursor' := if down then cursor + 1 else cursor - 1;
            0 <= cursor' - scroll && cursor' - scroll + 1 < 8 &&
            CursorInv(n, selected, cursor', ScrollAfter(down, n, selected, scroll), cursor' != 3 * selected)
  {
  }

  /** Selecting the next or the previous item from rest starts a slide that
      satisfies the invariant. */
  lemma SelectKeepsInv(n: int, selected: int, cursor: int, scroll: int, selected': int)
    requires CursorInv(n, selected, cursor, scroll, false)
    requires 0 <= selected' < n && (selected' == selected + 1 || selected' == selected - 1)
    ensures CursorInv(n, selected', cursor, scroll, true)
  {
  }

  /** `screen` is the 8-row window of the menu image `pixels` from image
      row `scroll`, with the cursor cells of image rows `row` and `row + 1`
      in column 0 lit. */
  predicate ShowsCursor(screen: Screen, pixels: seq<Colour>, scroll: int, row: int)
  {
    0 <= scroll && At(0, scroll + 8) <= |pixels| &&
    forall y, x :: 0 <= y < 8 && 0 <= x < 8 ==> screen[At(x, y)] == CursorPixel(pixels, scroll, row, x, y)
  }

  /** Cell (x, y) of that screen. */
  function CursorPixel(pixels: seq<Colour>, scroll: int, row: int, x: int, y: int): Colour
    requires 0 <= scroll && At(0, scroll + 8) <= |pixels| && 0 <= y < 8 && 0 <= x < 8
  {
    if x == 0 && (y == row - scroll || y == row - scroll + 1) then CursorColour else pixels[At(x, scroll + y)]
  }

  /** Lighting the two cursor cells of a window gives ShowsCursor. */
  lemma CursorCells(window: Screen, screen: Screen, pixels: seq<Colour>, scroll: int, row: int)
    requires 0 <= scroll && At(0, scroll + 8) <= |pixels| && 0 <= row - scroll <= 6
    requires forall y, x :: 0 <= y < 8 && 0 <= x < 8 ==> window[At(x, y)] == pixels[At(x, scroll + y)]
    requires screen == window[row * 8 - scroll * 8 + 0 := CursorColour][row * 8 - scroll * 8 + 8 := CursorColour]
    ensures ShowsCursor(screen, pixels, scroll, row)
  {
    forall y, x | 0 <= y < 8 && 0 <= x < 8
      ensures screen[At(x, y)] == CursorPixel(pixels, scroll, row, x, y)
    {
      assert screen[At(x, y)] == if At(x, y) == At(0, row - scroll) || At(x, y) == At(0, row - scroll + 1)
                                 then CursorColour else window[At(x, y)];
    }
  }

  class Menu {
    /** The icons of the menu items, in menu order. */
    const icons: seq<Icon>
    var selectedItemIndex: int
    var itemRunning: bool
    var runningItemIndex: int
    var allMenuPixels: seq<Colour>
    /** The image row shown in the top row of the screen. */
    var currentScroll: int
    /** The image row of the upper cursor cell. */
    var currentCursorRow: int
    var cursorScrolling: bool
    var shouldExit: bool

    constructor (icons: seq<Icon>)
      requires |icons| >= 3
      ensures Valid() && this.icons == icons
      ensures selectedItemIndex == 0 && !itemRunning && runningItemIndex == -1 && allMenuPixels == []
      ensures currentScroll == 0 && currentCursorRow == 0 && !cursorScrolling && !shouldExit
    {
      this.icons := icons;
      selectedItemIndex := 0;
      itemRunning := false;
      runningItemIndex := -1;
      allMenuPixels := [];
      currentScroll := 0;
      currentCursorRow := 0;
      cursorScrolling := false;
      shouldExit := false;
    }

    /** How far below the top of the window the selected item's rows start. */
    function Offset(): int
      reads this
    {
      3 * selectedItemIndex - currentScroll
    }

    /** The cursor and scroll invariant, and a running item is a valid
        index while none runs on index -1. */
    predicate Valid()
      reads this
    {
      CursorInv(|icons|, selectedItemIndex, currentCursorRow, currentScroll, cursorScrolling) &&
      (itemRunning ==> 0 <= runningItemIndex < |icons|) &&
      (!itemRunning ==> runningItemIndex == -1)
    }

    /** The whole menu image has been built. */
    predicate Loaded()
      reads this
    {
      IsMenuImage(icons, allMenuPixels)
    }

    /** The window always fits inside a built menu image. */
    lemma WindowFits()
      requires 0 <= currentScroll <= 3 * |icons| - 9 && Loaded()
      ensures 0 <= currentScroll * 8 && currentScroll * 8 + 64 <= |allMenuPixels|
    {
    }

    /** joystick_any. Nothing happens while the cursor slides or the menu is
        exiting. Otherwise a middle or right release starts the selected
        item, a down (up) press or hold selects the next (previous) item if
        there is one and starts the cursor sliding, and a left hold asks
        the menu to exit. */
    method JoystickAny(e: StickEvent)
      requires Valid()
      modifies this
      ensures Valid()
      ensures allMenuPixels == old(allMenuPixels) && currentScroll == old(currentScroll) &&
              currentCursorRow == old(currentCursorRow)
      ensures old(cursorScrolling) || old(shouldExit) ==>
                selectedItemIndex == old(selectedItemIndex) && cursorScrolling == old(cursorScrolling) &&
                shouldExit == old(shouldExit) && itemRunning == old(itemRunning) && runningItemIndex == old(runningItemIndex)
      ensures !old(cursorScrolling) && !old(shouldExit) ==>
                if e.action == Released && e.direction in {Middle, Right} then
                  itemRunning && runningItemIndex == selectedItemIndex == old(selectedItemIndex) &&
                  !cursorScrolling && !shouldExit
                else if e.direction in {Down, Up} && e.action in {Pressed, Held} then
                  var target := if e.direction == Down then old(selectedItemIndex) + 1 else old(selectedItemIndex) - 1;
                  (if 0 <= target < |icons| then selectedItemIndex == target && cursorScrolling
                   else selectedItemIndex == old(selectedItemIndex) && !cursorScrolling) &&
                  !shouldExit && itemRunning == old(itemRunning) && runningItemIndex == old(runningItemIndex)
                else
                  selectedItemIndex == old(selectedItemIndex) && !cursorScrolling &&
                  shouldExit == (e.direction == Left && e.action == Held) &&
                  itemRunning == old(itemRunning) && runningItemIndex == old(runningItemIndex)
    {
      if !cursorScrolling && !shouldExit {
        if (e.direction == Middle && e.action == Released) || (e.direction == Right && e.action == Released) {
          StartItem(selectedItemIndex);
        } else if e.direction == Down && (e.action == Pressed || e.action == Held) {
          if selectedItemIndex <= |icons| - 2 {
            selectedItemIndex := selectedItemIndex + 1;
            cursorScrolling := true;
          }
        } else if e.direction == Up && (e.action == Pressed || e.action == Held) {
          if selectedItemIndex >= 1 {
            selectedItemIndex := selectedItemIndex - 1;
            cursorScrolling := true;
          }
        } else if e.direction == Left && e.action == Held {
          shouldExit := true;
        }
      }
    }

    /** startItem: marks item `index` as the one to run. */
    method StartItem(index: int)
      requires Valid() && 0 <= index < |icons|
      modifies this
      ensures Valid()
      ensures itemRunning && runningItemIndex == index
      ensures selectedItemIndex == old(selectedItemIndex) && allMenuPixels == old(allMenuPixels) &&
              currentScroll == old(currentScroll) && currentCursorRow == old(currentCursorRow) &&
              cursorScrolling == old(cursorScrolling) && shouldExit == old(shouldExit)
    {
      itemRunning := true;
      runningItemIndex := index;
    }

    /** The end of runItem, once the game has returned: no item runs. */
    method FinishItem()
      requires Valid()
      modifies this
      ensures Valid()
      ensures !itemRunning && runningItemIndex == -1
      ensures selectedItemIndex == old(selectedItemIndex) && allMenuPixels == old(allMenuPixels) &&
              currentScroll == old(currentScroll) && currentCursorRow == old(currentCursorRow) &&
              cursorScrolling == old(cursorScrolling) && shouldExit == old(shouldExit)
    {
      itemRunning := false;
      runningItemIndex := -1;
    }

    /** The first statement of run: build the menu image. */
    method Load()
      requires Valid()
      modifies this
      ensures Valid() && Loaded()
      ensures selectedItemIndex == old(selectedItemIndex) && itemRunning == old(itemRunning) &&
              runningItemIndex == old(runningItemIndex) && currentScroll == old(currentScroll) &&
              currentCursorRow == old(currentCursorRow) && cursorScrolling == old(cursorScrolling) &&
              shouldExit == old(shouldExit)
    {
      var pixels := AllMenuPixels(icons);
      allMenuPixels := pixels;
    }

    /** getCurrentMenuPixels: the 8 rows of the image from row currentScroll. */
    method CurrentMenuPixels() returns (screen: Screen)
      requires 0 <= currentScroll <= 3 * |icons| - 9 && Loaded()
      ensures forall y, x :: 0 <= y < 8 && 0 <= x < 8 ==> screen[At(x, y)] == allMenuPixels[At(x, currentScroll + y)]
    {
      WindowFits();
      screen := allMenuPixels[currentScroll * 8..currentScroll * 8 + 8 * 8];
    }

    /** The resting frame of run: the window with the cursor cells next to
        the selected item red while `cursorOn` (the first 0.8 s of every
        second) and black otherwise. */
    method RestFrame(cursorOn: bool) returns (screen: Screen)
      requires Valid() && Loaded() && !cursorScrolling
      ensures 0 <= Offset() <= 6
      ensures forall y, x :: 0 <= y < 8 && 0 <= x < 8 ==>
                screen[At(x, y)] ==
                  if x == 0 && (y == Offset() || y == Offset() + 1) then (if cursorOn then CursorColour else Black)
                  else allMenuPixels[At(x, currentScroll + y)]
    {
      RestCursorVisible(|icons|, selectedItemIndex, currentCursorRow, currentScroll);
      screen := CurrentMenuPixels();
      var c := if cursorOn then CursorColour else Black;
      ghost var window := screen;
      screen := screen[selectedItemIndex * 8 * 3 - currentScroll * 8 + 0 := c];
      screen := screen[selectedItemIndex * 8 * 3 - currentScroll * 8 + 8 := c];
      forall y, x | 0 <= y < 8 && 0 <= x < 8
        ensures screen[At(x, y)] == if x == 0 && (y == Offset() || y == Offset() + 1) then c else window[At(x, y)]
      {
        AtInjective(x, y, 0, Offset());
        AtInjective(x, y, 0, Offset() + 1);
      }
    }

    /** getScreenDuringCursorScrolling: the window with the cursor drawn at
        currentCursorRow, then the scroll rule. */
    method ScreenDuringCursorScrolling(down: bool) returns (screen: Screen)
      requires 0 <= currentScroll <= 3 * |icons| - 9 && Loaded()
      requires 0 <= currentCursorRow - currentScroll <= 6
      modifies this
      ensures selectedItemIndex == old(selectedItemIndex) && itemRunning == old(itemRunning) &&
              runningItemIndex == old(runningItemIndex) && allMenuPixels == old(allMenuPixels) &&
              currentCursorRow == old(currentCursorRow) && cursorScrolling == old(cursorScrolling) &&
              shouldExit == old(shouldExit)
      ensures ShowsCursor(screen, old(allMenuPixels), old(currentScroll), old(currentCursorRow))
      ensures currentScroll == ScrollAfter(down, |icons|, selectedItemIndex, old(currentScroll))
    {
      WindowFits();
      screen := CurrentMenuPixels();
      ghost var window := screen;
      screen := screen[currentCursorRow * 8 - currentScroll * 8 + 0 := CursorColour];
      screen := screen[currentCursorRow * 8 - currentScroll * 8 + 8 := CursorColour];
      CursorCells(window, screen, allMenuPixels, currentScroll, currentCursorRow);
      var offset := selectedItemIndex * 3 - currentScroll;
      if down {
        if offset >= 6 {
          if selectedItemIndex != |icons| - 1 {
            currentScroll := currentScroll + 1;
          } else if offset > 6 {
            currentScroll := currentScroll + 1;
          }
        }
      } else {
        if offset <= 0 {
          if selectedItemIndex != 0 {
            currentScroll := currentScroll - 1;
          } else if offset < 0 {
            currentScroll := currentScroll - 1;
          }
        }
      }
    }

    /** One frame of run while the cursor slides: the cursor moves one row
        toward the selected item, the frame is drawn and the window
        scrolls; the sliding stops exactly when the cursor arrives. The
        window stays inside the image and the cursor inside the window. */
    method CursorStep() returns (screen: Screen)
      requires Valid() && Loaded() && cursorScrolling
      modifies this
      ensures Valid() && Loaded()
      ensures currentCursorRow ==
                if 3 * selectedItemIndex > old(currentCursorRow) then old(currentCursorRow) + 1 else old(currentCursorRow) - 1
      ensures cursorScrolling <==> currentCursorRow != 3 * selectedItemIndex
      ensures currentScroll == ScrollAfter(3 * selectedItemIndex > old(currentCursorRow), |icons|, selectedItemIndex, old(currentScroll))
      ensures -1 <= currentScroll - old(currentScroll) <= 1
      ensures ShowsCursor(screen, allMenuPixels, old(currentScroll), currentCursorRow)
      ensures selectedItemIndex == old(selectedItemIndex) && itemRunning == old(itemRunning) &&
              runningItemIndex == old(runningItemIndex) && allMenuPixels == old(allMenuPixels) &&
              shouldExit == old(shouldExit)
    {
      CursorStepKeepsInv(|icons|, selectedItemIndex, currentCursorRow, currentScroll);
      var down := selectedItemIndex * 3 > currentCursorRow;
      currentCursorRow := if down then currentCursorRow + 1 else currentCursorRow - 1;
      screen := ScreenDuringCursorScrolling(down);
      if selectedItemIndex * 3 == currentCursorRow {
        cursorScrolling := false;
      }
    }
  }
}
