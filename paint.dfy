/** The paint game of paint.py: the tilted board moves a 2 x 2 ball, every
    cell the ball covers is painted with the trail colour, and the game is
    complete once all 64 cells are painted. */
module Paint {
  import opened Hat
  import opened MinMax

  const BallColour := Green
  const TrailColour := Colour(0, 80, 80)

  /** The number of painted (non-black) cells of `s`. */
  function CountPainted(s: seq<Colour>): (n: nat)
    ensures n <= |s|
  {
    if s == [] then 0 else CountPainted(s[..|s| - 1]) + (if s[|s| - 1] != Black then 1 else 0)
  }

  /** The count reaches the number of cells exactly when every cell is painted. */
  lemma {:induction false} CountPaintedFull(s: seq<Colour>)
    ensures CountPainted(s) == |s| <==> forall k :: 0 <= k < |s| ==> s[k] != Black
  {
    if s != [] {
      var init := s[..|s| - 1];
      CountPaintedFull(init);
      assert forall k :: 0 <= k < |init| ==> init[k] == s[k];
    }
  }

  /** A screen of black cells has nothing painted. */
  lemma {:induction false} CountPaintedBlank(n: nat)
    ensures CountPainted(seq(n, _ => Black)) == 0
  {
    if n > 0 {
      assert seq(n, _ => Black)[..n - 1] == seq(n - 1, _ => Black);
      CountPaintedBlank(n - 1);
    }
  }

  /** Painting one black cell raises the count by exactly one. */
  lemma {:induction false} CountPaintOne(s: seq<Colour>, k: int, c: Colour)
    requires 0 <= k < |s| && s[k] == Black && c != Black
    ensures CountPainted(s[k := c]) == CountPainted(s) + 1
    decreases |s|
  {
    var t := s[k := c];
    if k < |s| - 1 {
      assert t[..|t| - 1] == s[..|s| - 1][k := c];
      CountPaintOne(s[..|s| - 1], k, c);
    } else {
      assert t[..|t| - 1] == s[..|s| - 1];
    }
  }

  /** One cell of the trail step: a black cell at `k` is painted and counted. */
  method PaintCell(s: Screen, k: int, count: nat) returns (s': Screen, count': nat)
    requires 0 <= k < ScreenSize && count == CountPainted(s)
    ensures count' == CountPainted(s')
    ensures s' == if s[k] == Black then s[k := TrailColour] else s
  {
    s', count' := s, count;
    if s[k] == Black {
      CountPaintOne(s, k, TrailColour);
      count' := count + 1;
      s' := s[k := TrailColour];
    }
  }

  /** The trail step of run for the ball at (x, y): each of the four cells
      under the ball that is still black is painted and counted once. */
  method PaintSquare(s: Screen, x: int, y: int, count: nat) returns (s': Screen, count': nat)
    requires 0 <= x <= 6 && 0 <= y <= 6 && count == CountPainted(s)
    ensures count' == CountPainted(s')
    ensures forall j, i :: 0 <= j < 8 && 0 <= i < 8 ==>
              s'[At(i, j)] == if InSquare(x, y, i, j) && s[At(i, j)] == Black then TrailColour else s[At(i, j)]
  {
    s', count' := PaintCell(s, y * 8 + x, count);
    s', count' := PaintCell(s', y * 8 + x + 1, count');
    s', count' := PaintCell(s', (y + 1) * 8 + x, count');
    s', count' := PaintCell(s', (y + 1) * 8 + x + 1, count');
  }

  class Paint {
    var shouldExit: bool
    /** The cells painted so far by the trail. */
    var paintedScreen: Screen

    constructor ()
      ensures !shouldExit && paintedScreen == Filled(Black)
      ensures CountPainted(paintedScreen) == 0
    {
      shouldExit := false;
      paintedScreen := Filled(Black);
      CountPaintedBlank(ScreenSize);
    }

    /** One pass of the loop of run. `tx` and `ty` are the truncated pitch
        and roll terms, `count` is completedPixelCount, and `onTime` says
        whether the frame finished within its time budget, which is the
        only case in which run remembers the position. If the clamped
        position differs from the remembered one, the frame is the painted
        screen with the ball on top, and the cells under the ball are
        painted. `complete` is the test of checkComplete. */
    method Step(tx: int, ty: int, preX: int, preY: int, count: nat, onTime: bool)
      returns (frame: Option<Screen>, count': nat, preX': int, preY': int, complete: bool)
      requires count == CountPainted(paintedScreen)
      modifies this
      ensures count' == CountPainted(paintedScreen) && count' <= ScreenSize
      ensures shouldExit == old(shouldExit)
      ensures var x := Clamp(-tx + 3, DefaultMin, DefaultMax);
              var y := Clamp(ty + 3, DefaultMin, DefaultMax);
              (preX' == if onTime then x else preX) && (preY' == if onTime then y else preY) &&
              (if preX == x && preY == y then frame.None? && paintedScreen == old(paintedScreen)
               else
                 frame.Some? &&
                 (forall j, i :: 0 <= j < 8 && 0 <= i < 8 ==>
                    frame.value[At(i, j)] == if InSquare(x, y, i, j) then BallColour else old(paintedScreen)[At(i, j)]) &&
                 (forall j, i :: 0 <= j < 8 && 0 <= i < 8 ==>
                    paintedScreen[At(i, j)] ==
                      if InSquare(x, y, i, j) && old(paintedScreen)[At(i, j)] == Black then TrailColour
                      else old(paintedScreen)[At(i, j)]))
      ensures complete <==> forall k :: 0 <= k < ScreenSize ==> paintedScreen[k] != Black
    {
      var xF := WithinMinMaxFlag(-tx + 3, DefaultMin, DefaultMax);
      var x := xF.value;
      var yF := WithinMinMaxFlag(ty + 3, DefaultMin, DefaultMax);
      var y := yF.value;
      frame, count' := None, count;
      if !(preX == x && preY == y) {
        var pixels := DrawSquare(paintedScreen, x, y, BallColour);
        var painted;
        painted, count' := PaintSquare(paintedScreen, x, y, count);
        paintedScreen := painted;
        frame := Some(pixels);
      }
      CountPaintedFull(paintedScreen);
      complete := CheckComplete(count');
      if onTime {
        preX', preY' := x, y;
      } else {
        preX', preY' := preX, preY;
      }
    }
  }

  /** checkComplete's test: the game is over when all 64 cells are painted. */
  method CheckComplete(count: nat) returns (complete: bool)
    ensures complete <==> count == ScreenSize
  {
    complete := count == 64;
  }

  /** Painting never erases: a cell painted before a step is unchanged
      after it, whatever the step painted. */
  lemma PaintedStays(s: Screen, s': Screen, x: int, y: int)
    requires forall j, i :: 0 <= j < 8 && 0 <= i < 8 ==>
               s'[At(i, j)] == if InSquare(x, y, i, j) && s[At(i, j)] == Black then TrailColour else s[At(i, j)]
    ensures forall k :: 0 <= k < ScreenSize && s[k] != Black ==> s'[k] == s[k]
    ensures CountPainted(s) <= CountPainted(s')
  {
    forall k | 0 <= k < ScreenSize && s[k] != Black
      ensures s'[k] == s[k]
    {
      assert k == At(k % 8, k / 8);
    }
    CountMonotone(s, s');
  }

  /** Repainting black cells only never lowers the count. */
  lemma {:induction false} CountMonotone(s: seq<Colour>, t: seq<Colour>)
    requires |s| == |t|
    requires forall k :: 0 <= k < |s| && s[k] != Black ==> t[k] == s[k]
    ensures CountPainted(s) <= CountPainted(t)
    decreases |s|
  {
    if s != [] {
      CountMonotone(s[..|s| - 1], t[..|t| - 1]);
    }
  }
}
