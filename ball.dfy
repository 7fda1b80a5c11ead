/** The ball game of ball.py: the tilted board moves a 2 x 2 ball; when the
    tilt would push it past an edge the ball stops there and the whole
    screen turns red as a warning. */
module Ball {
  import opened Hat
  import opened MinMax

  const BallColour := Green

  /** The frame of run for the ball at (x, y): a black screen when both
      coordinates were inside the range, otherwise the red alert screen,
      with the four ball cells on top. */
  method Frame(x: int, y: int, xFlag: bool, yFlag: bool) returns (pixels: Screen)
    requires 0 <= x <= 6 && 0 <= y <= 6
    ensures forall j, i :: 0 <= j < 8 && 0 <= i < 8 ==>
              pixels[At(i, j)] ==
                if InSquare(x, y, i, j) then BallColour
                else if xFlag && yFlag then Black else Red
  {
    if xFlag && yFlag {
      pixels := Filled(Black);
    } else {
      pixels := Filled(Red);
    }
    pixels := DrawSquare(pixels, x, y, BallColour);
  }

  /** One pass of the loop of run. `tx` and `ty` are the truncated pitch
      and roll terms and (preX, preY) the position of the previous pass.
      The position is clamped to 0..6; the frame is redrawn unless the
      ball stayed put inside the range, and the new position is returned
      to be remembered. */
  method Step(tx: int, ty: int, preX: int, preY: int) returns (frame: Option<Screen>, x: int, y: int)
    ensures x == Clamp(-tx + 3, DefaultMin, DefaultMax) && y == Clamp(ty + 3, DefaultMin, DefaultMax)
    ensures 0 <= x <= 6 && 0 <= y <= 6
    ensures frame.None? <==> preX == x && preY == y && -tx + 3 == x && ty + 3 == y
    ensures frame.Some? ==>
              forall j, i :: 0 <= j < 8 && 0 <= i < 8 ==>
                frame.value[At(i, j)] ==
                  if InSquare(x, y, i, j) then BallColour
                  else if -tx + 3 == x && ty + 3 == y then Black else Red
  {
    var xF := WithinMinMaxFlag(-tx + 3, DefaultMin, DefaultMax);
    x := xF.value;
    var yF := WithinMinMaxFlag(ty + 3, DefaultMin, DefaultMax);
    y := yF.value;
    frame := None;
    if !(preX == x && preY == y && xF.flag && yF.flag) {
      var pixels := Frame(x, y, xF.flag, yF.flag);
      frame := Some(pixels);
    }
  }

  /** The base screen tells whether the ball is at rest inside the range:
      a frame's corner cell away from the ball is black exactly when both
      coordinates were in range. */
  lemma AlertShows(tx: int, ty: int, pixels: Screen, x: int, y: int)
    requires x == Clamp(-tx + 3, DefaultMin, DefaultMax) && y == Clamp(ty + 3, DefaultMin, DefaultMax)
    requires forall j, i :: 0 <= j < 8 && 0 <= i < 8 ==>
               pixels[At(i, j)] ==
                 if InSquare(x, y, i, j) then BallColour
                 else if -tx + 3 == x && ty + 3 == y then Black else Red
    ensures var ci := if x == 0 then 7 else 0;
            (pixels[At(ci, 0)] == Black <==> 0 <= -tx + 3 <= 6 && 0 <= ty + 3 <= 6) &&
            (pixels[At(ci, 0)] == Red <==> !(0 <= -tx + 3 <= 6 && 0 <= ty + 3 <= 6))
  {
  }
}
