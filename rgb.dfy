/** The RGB game of rgb.py: the joystick picks one of three channels and
    raises or lowers its level in 0..7; the screen shows one bar per
    channel and, on the right, the colour the three levels mix to. */
module Rgb {
  import opened Hat

  /** One channel level 0..7 scaled to 0..255, truncated. */
  function Scale(v: int): (s: int)
    requires 0 <= v <= 7
    ensures 0 <= s <= 255 && (v == 0 ==> s == 0) && (v == 7 ==> s == 255)
  {
    v * 255 / 7
  }

  /** Column `c` holds a bar of height v + 1 in colour `colour`, drawn from
      the bottom row up, and is black above it. */
  predicate Bar(screen: Screen, c: int, v: int, colour: Colour)
    requires 0 <= c < 8
  {
    forall y :: 0 <= y < 8 ==> screen[At(c, y)] == (if 7 - v <= y then colour else Black)
  }

  /** What draw shows for levels r, g, b: columns 0, 1, 2 hold their bars,
      column 3 is black, and columns 4 to 7 show the mixed colour. */
  predicate Shows(screen: Screen, r: int, g: int, b: int)
    requires 0 <= r <= 7 && 0 <= g <= 7 && 0 <= b <= 7
  {
    Bar(screen, 0, r, Red) && Bar(screen, 1, g, Green) && Bar(screen, 2, b, Blue) &&
    (forall y :: 0 <= y < 8 ==> screen[At(3, y)] == Black) &&
    (forall y, x :: 0 <= y < 8 && 4 <= x < 8 ==> screen[At(x, y)] == Colour(Scale(r), Scale(g), Scale(b)))
  }

  /** A bar's height can be read back from the screen. */
  lemma BarFixesLevel(screen: Screen, c: int, v: int, w: int, colour: Colour)
    requires 0 <= c < 8 && 0 <= v <= 7 && 0 <= w <= 7 && colour != Black
    requires Bar(screen, c, v, colour) && Bar(screen, c, w, colour)
    ensures v == w
  {
    // the top cell of each bar is coloured in the other bar too
    assert screen[At(c, 7 - v)] == colour;
    assert screen[At(c, 7 - w)] == colour;
  }

  /** The screen draw produces tells the three levels apart: two level
      triples that are drawn the same are the same. */
  lemma ShowsFixesLevels(screen: Screen, r: int, g: int, b: int, r': int, g': int, b': int)
    requires 0 <= r <= 7 && 0 <= g <= 7 && 0 <= b <= 7
    requires 0 <= r' <= 7 && 0 <= g' <= 7 && 0 <= b' <= 7
    requires Shows(screen, r, g, b) && Shows(screen, r', g', b')
    ensures r == r' && g == g' && b == b'
  {
    BarFixesLevel(screen, 0, r, r', Red);
    BarFixesLevel(screen, 1, g, g', Green);
    BarFixesLevel(screen, 2, b, b', Blue);
  }

  /** Cells outside column `c` are the same in both screens. */
  predicate OtherColumnsSame(s: Screen, t: Screen, c: int)
  {
    forall y, x :: 0 <= y < 8 && 0 <= x < 8 && x != c ==> s[At(x, y)] == t[At(x, y)]
  }

  /** The bar loop of draw for one channel: cells (c, 7 - i) for i in 0..v
      get the channel colour; nothing else is written. */
  method DrawBar(screen: Screen, c: int, v: int, colour: Colour) returns (screen': Screen)
    requires 0 <= c < 8 && 0 <= v <= 7
    requires forall y :: 0 <= y < 8 ==> screen[At(c, y)] == Black
    ensures Bar(screen', c, v, colour) && OtherColumnsSame(screen, screen', c)
  {
    screen' := screen;
    for i := 0 to v + 1
      invariant forall y :: 0 <= y < 8 ==> screen'[At(c, y)] == (if 7 - i < y then colour else Black)
      invariant OtherColumnsSame(screen, screen', c)
    {
      forall y, x | 0 <= y < 8 && 0 <= x < 8
        ensures At(x, y) == At(c, 7 - i) <==> x == c && y == 7 - i
      {
        AtInjective(x, y, c, 7 - i);
      }
      screen' := screen'[c + (7 - i) * 8 := colour];
    }
  }

  /** The last loop of draw: columns 4 to 7 of every row get `colour`. */
  method FillRight(screen: Screen, colour: Colour) returns (screen': Screen)
    ensures forall y, x :: 0 <= y < 8 && 0 <= x < 8 ==>
              screen'[At(x, y)] == (if x >= 4 then colour else screen[At(x, y)])
  {
    screen' := screen;
    for y := 0 to 8
      invariant forall j, x :: 0 <= j < 8 && 0 <= x < 8 ==>
                  screen'[At(x, j)] == (if x >= 4 && j < y then colour else screen[At(x, j)])
    {
      var row: seq<Colour> := [colour, colour, colour, colour];
      screen' := screen'[..y * 8 + 4] + row + screen'[y * 8 + 8..];
    }
  }

  class RGB {
    var shouldExit: bool
    var selectionChanged: bool
    /** 0 red, 1 green, 2 blue. */
    var currentSelection: int
    var r: int
    var g: int
    var b: int

    constructor ()
      ensures Valid()
      ensures !shouldExit && !selectionChanged && currentSelection == 0 && r == 4 && g == 4 && b == 4
    {
      shouldExit, selectionChanged := false, false;
      currentSelection := 0;
      r, g, b := 4, 4, 4;
    }

    /** The selection is a channel and every level lies in 0..7. */
    predicate Valid()
      reads this
    {
      0 <= currentSelection <= 2 && 0 <= r <= 7 && 0 <= g <= 7 && 0 <= b <= 7
    }

    /** The level of channel `c`. */
    function Level(c: int): int
      reads this
    {
      if c == 0 then r else if c == 1 then g else b
    }

    /** The joystick handler. A middle release asks to exit; right and left
        presses move the selection within 0..2 and flag the change when it
        moves; up and down (pressed or held) raise or lower the selected
        level by one, saturating at 7 and 0, and redraw the screen. */
    method JoystickAny(e: StickEvent) returns (screen: Option<Screen>)
      requires Valid()
      modifies this
      ensures Valid()
      ensures e.direction == Middle && e.action == Released ==>
                shouldExit && selectionChanged == old(selectionChanged) && currentSelection == old(currentSelection) &&
                r == old(r) && g == old(g) && b == old(b) && screen.None?
      ensures !(e.direction == Middle && e.action == Released) ==> shouldExit == old(shouldExit)
      ensures e.direction in {Left, Right} ==> r == old(r) && g == old(g) && b == old(b) && screen.None?
      ensures e.direction == Right && e.action == Pressed ==>
                currentSelection == (if old(currentSelection) < 2 then old(currentSelection) + 1 else 2) &&
                selectionChanged == (old(selectionChanged) || old(currentSelection) < 2)
      ensures e.direction == Left && e.action == Pressed ==>
                currentSelection == (if old(currentSelection) > 0 then old(currentSelection) - 1 else 0) &&
                selectionChanged == (old(selectionChanged) || old(currentSelection) > 0)
      ensures e.direction in {Up, Down} ==>
                currentSelection == old(currentSelection) && selectionChanged == old(selectionChanged)
      ensures e.direction in {Up, Down} && e.action in {Pressed, Held} ==>
                Level(currentSelection) ==
                  (if e.direction == Up then (if old(Level(currentSelection)) < 7 then old(Level(currentSelection)) + 1 else 7)
                   else (if old(Level(currentSelection)) > 0 then old(Level(currentSelection)) - 1 else 0)) &&
                (forall c :: 0 <= c <= 2 && c != currentSelection ==> Level(c) == old(Level(c))) &&
                screen.Some? && Shows(screen.value, r, g, b)
      ensures !(e.direction in {Up, Down} && e.action in {Pressed, Held}) ==>
                screen.None? && r == old(r) && g == old(g) && b == old(b)
      ensures !(e.direction in {Left, Right} && e.action == Pressed) ==>
                currentSelection == old(currentSelection) && selectionChanged == old(selectionChanged)
    {
      screen := None;
      if e.direction == Middle && e.action == Released {
        shouldExit := true;
      } else if e.direction == Right && e.action == Pressed {
        if currentSelection < 2 {
          currentSelection := currentSelection + 1;
          selectionChanged := true;
        }
      } else if e.direction == Left && e.action == Pressed {
        if currentSelection > 0 {
          currentSelection := currentSelection - 1;
          selectionChanged := true;
        }
      } else if e.direction == Up && (e.action == Pressed || e.action == Held) {
        if currentSelection == 0 {
          r := if 7 < r + 1 then 7 else r + 1;
        } else if currentSelection == 1 {
          g := if 7 < g + 1 then 7 else g + 1;
        } else {
          b := if 7 < b + 1 then 7 else b + 1;
        }
        var s := Draw();
        screen := Some(s);
      } else if e.direction == Down && (e.action == Pressed || e.action == Held) {
        if currentSelection == 0 {
          r := if 0 > r - 1 then 0 else r - 1;
        } else if currentSelection == 1 {
          g := if 0 > g - 1 then 0 else g - 1;
        } else {
          b := if 0 > b - 1 then 0 else b - 1;
        }
        var s := Draw();
        screen := Some(s);
      }
    }

    /** draw: a black screen, the three bars, then the mixed colour. */
    method Draw() returns (screen: Screen)
      requires Valid()
      ensures Shows(screen, r, g, b)
    {
      screen := Filled(Black);
      screen := DrawBar(screen, 0, r, Red);
      screen := DrawBar(screen, 1, g, Green);
      screen := DrawBar(screen, 2, b, Blue);
      var colour := Colour(Scale(r), Scale(g), Scale(b));
      screen := FillRight(screen, colour);
    }
  }
}
