/** Shared vocabulary of the Sense HAT games: colours, the 8x8 LED screen
    and joystick events. The LED matrix itself is not modelled; a frame is
    the 64-cell sequence a game would hand to the display, row by row. */
module Hat {

  /** An RGB colour; each game writes its colours as three small integers. */
  datatype Colour = Colour(r: int, g: int, b: int)

  const Black := Colour(0, 0, 0)
  const White := Colour(255, 255, 255)
  const Red := Colour(255, 0, 0)
  const Green := Colour(0, 255, 0)
  const Blue := Colour(0, 0, 255)
  const Cyan := Colour(0, 255, 255)
  const Yellow := Colour(255, 255, 0)

  /** Number of cells of the LED matrix. */
  const ScreenSize: nat := 64

  type Screen = s: seq<Colour> | |s| == ScreenSize witness seq(ScreenSize, _ => Black)

  /** A frame in which every cell has colour `c`. */
  function Filled(c: Colour): (s: Screen)
    ensures forall k :: 0 <= k < ScreenSize ==> s[k] == c
  {
    seq(ScreenSize, _ => c)
  }

  /** The index of cell (x, y) of the LED matrix in a frame, row by row. */
  function At(x: int, y: int): int
  {
    y * 8 + x
  }

  /** Distinct cells of the 8x8 matrix have distinct indices inside the frame. */
  lemma AtInjective(x: int, y: int, i: int, j: int)
    requires 0 <= x < 8 && 0 <= i < 8 && 0 <= y && 0 <= j
    ensures At(x, y) == At(i, j) <==> x == i && y == j
  {
  }

  /** Cell (i, j) lies in the 2 x 2 square whose top-left cell is (x, y). */
  predicate InSquare(x: int, y: int, i: int, j: int)
  {
    x <= i <= x + 1 && y <= j <= y + 1
  }

  /** The four writes that draw the tilt games' 2 x 2 ball at (x, y):
      cells y*8+x, y*8+x+1, (y+1)*8+x and (y+1)*8+x+1 get colour `c`. For
      0 <= x, y <= 6 all four lie on the screen, and no other cell changes. */
  method DrawSquare(s: Screen, x: int, y: int, c: Colour) returns (s': Screen)
    requires 0 <= x <= 6 && 0 <= y <= 6
    ensures forall j, i :: 0 <= j < 8 && 0 <= i < 8 ==> s'[At(i, j)] == if InSquare(x, y, i, j) then c else s[At(i, j)]
  {
    s' := s;
    s' := s'[y * 8 + x := c];
    s' := s'[y * 8 + x + 1 := c];
    s' := s'[(y + 1) * 8 + x := c];
    s' := s'[(y + 1) * 8 + x + 1 := c];
  }

  /** A single set_pixel: cell (x, y) gets colour `c` and no other cell
      changes. */
  method SetPixel(s: Screen, x: int, y: int, c: Colour) returns (s': Screen)
    requires 0 <= x < 8 && 0 <= y < 8
    ensures forall j, i :: 0 <= j < 8 && 0 <= i < 8 ==> s'[At(i, j)] == if i == x && j == y then c else s[At(i, j)]
  {
    forall j, i | 0 <= j < 8 && 0 <= i < 8
      ensures At(i, j) == At(x, y) <==> i == x && j == y
    {
      AtInjective(i, j, x, y);
    }
    s' := s[At(x, y) := c];
  }

  /** The index of the first cell of row `y` in a row-by-row buffer `w`
      cells wide: `y` rows of `w` cells come before it. */
  function RowStart(y: int, w: nat): int
    decreases y
  {
    if y <= 0 then 0 else RowStart(y - 1, w) + w
  }

  /** The index of cell (x, y) in a row-by-row buffer `w` cells wide. */
  function FlatIndex(x: int, y: int, w: nat): int
  {
    RowStart(y, w) + x
  }

  /** `y` rows of `w` cells are y * w cells. */
  lemma {:induction false} RowStartIsProduct(y: nat, w: nat)
    ensures RowStart(y, w) == y * w
    decreases y
  {
    if y > 0 {
      RowStartIsProduct(y - 1, w);
      assert (y - 1) * w + w == y * w;
    }
  }

  /** Row starts are at least 0 and each row lies before the start of any later row. */
  lemma {:induction false} RowStartMono(a: int, b: int, w: nat)
    requires 0 <= a < b
    ensures 0 <= RowStart(a, w) && RowStart(a, w) + w <= RowStart(b, w)
    decreases b - a
  {
    RowStartNonNeg(a, w);
    if a + 1 < b {
      RowStartMono(a + 1, b, w);
    }
  }

  lemma {:induction false} RowStartNonNeg(y: int, w: nat)
    ensures 0 <= RowStart(y, w)
    decreases y
  {
    if y > 0 {
      RowStartNonNeg(y - 1, w);
    }
  }

  /** Cells of the first `h` rows have indices in [0, RowStart(h, w)). */
  lemma FlatIndexBound(w: nat, h: int, x: int, y: int)
    requires 0 <= x < w && 0 <= y < h
    ensures 0 <= FlatIndex(x, y, w) < RowStart(h, w)
  {
    RowStartMono(y, h, w);
  }

  /** Later rows start no earlier. */
  lemma RowStartLe(a: int, b: int, w: nat)
    requires 0 <= a <= b
    ensures RowStart(a, w) <= RowStart(b, w)
  {
    if a < b {
      RowStartMono(a, b, w);
    }
  }

  /** Distinct cells of a buffer `w` cells wide have distinct indices. */
  lemma FlatIndexInjective(w: nat, x: int, y: int, i: int, j: int)
    requires 0 <= x < w && 0 <= i < w && 0 <= y && 0 <= j
    ensures FlatIndex(x, y, w) == FlatIndex(i, j, w) <==> x == i && y == j
  {
    if y < j {
      RowStartMono(y, j, w);
    } else if j < y {
      RowStartMono(j, y, w);
    }
  }

  /** Cell (x, y) of a buffer `w` cells wide lies inside `s`. */
  predicate InBuffer(s: seq<Colour>, w: nat, x: int, y: int)
  {
    0 <= x < w && 0 <= y && 0 <= FlatIndex(x, y, w) < |s|
  }

  /** Writing cell (x, y) of a buffer `w` cells wide changes no other cell. */
  lemma FlatUpdate(s: seq<Colour>, w: nat, x: int, y: int, c: Colour)
    requires InBuffer(s, w, x, y)
    ensures forall j, i :: InBuffer(s, w, i, j) ==>
              s[FlatIndex(x, y, w) := c][FlatIndex(i, j, w)] == (if i == x && j == y then c else s[FlatIndex(i, j, w)])
  {
    forall j, i | InBuffer(s, w, i, j)
      ensures s[FlatIndex(x, y, w) := c][FlatIndex(i, j, w)] == (if i == x && j == y then c else s[FlatIndex(i, j, w)])
    {
      FlatIndexInjective(w, x, y, i, j);
    }
  }

  /** A single write into a row-by-row buffer `w` cells wide: cell (x, y)
      gets colour `c` and no other cell changes. */
  method SetFlat(s: seq<Colour>, w: nat, x: int, y: int, c: Colour) returns (s': seq<Colour>)
    requires InBuffer(s, w, x, y)
    ensures |s'| == |s|
    ensures forall j, i :: InBuffer(s, w, i, j) ==> s'[FlatIndex(i, j, w)] == if i == x && j == y then c else s[FlatIndex(i, j, w)]
  {
    FlatUpdate(s, w, x, y, c);
    s' := s[FlatIndex(x, y, w) := c];
  }

  /** Joystick directions and actions as the joystick library reports them. */
  datatype Direction = Up | Down | Left | Right | Middle
  datatype Action = Pressed | Held | Released
  datatype StickEvent = StickEvent(direction: Direction, action: Action)

  datatype Option<T> = None | Some(value: T)
}
