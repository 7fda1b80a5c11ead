/** The wall table shared by the two maze games (maze.py, largeMaze.py).
    The grid is `w` cells wide and `h` cells high; `t[y][x]` is 1 for a wall
    and 0 for an aisle. Cells whose coordinates are both even are pillars;
    walls grow from pillar to pillar, two cells at a time. */
module MazeGrid {
  import opened Hat

  type Table = seq<seq<int>>

  datatype Pillar = Pillar(x: int, y: int)

  /** One of the four directions a wall may be extended in. */
  datatype Offset = Offset(dx: int, dy: int)

  const East := Offset(2, 0)
  const West := Offset(-2, 0)
  const South := Offset(0, 2)
  const North := Offset(0, -2)

  predicate Shaped(t: Table, w: nat, h: nat)
  {
    |t| == h && forall y :: 0 <= y < h ==> |t[y]| == w
  }

  predicate InGrid(x: int, y: int, w: nat, h: nat)
  {
    0 <= x < w && 0 <= y < h
  }

  predicate OnBorder(x: int, y: int, w: nat, h: nat)
  {
    x == 0 || x == w - 1 || y == 0 || y == h - 1
  }

  predicate IsPillarCell(x: int, y: int, w: nat, h: nat)
  {
    InGrid(x, y, w, h) && x % 2 == 0 && y % 2 == 0
  }

  /** Both dimensions odd and at least 3, as the games require. */
  predicate OddSize(w: nat, h: nat)
  {
    3 <= w && 3 <= h && w % 2 == 1 && h % 2 == 1
  }

  /** The table as initDraw leaves it: 1 exactly on the border. */
  predicate BorderOnly(t: Table, w: nat, h: nat)
  {
    Shaped(t, w, h) &&
    forall y, x :: 0 <= y < h && 0 <= x < w ==> t[y][x] == (if OnBorder(x, y, w, h) then 1 else 0)
  }

  /** The invariant of wall extension: cells hold 0 or 1, the border is wall,
      and every wall cell has at least one even coordinate. */
  predicate GridInv(t: Table, w: nat, h: nat)
  {
    Shaped(t, w, h) &&
    (forall y, x :: 0 <= y < h && 0 <= x < w ==> t[y][x] == 0 || t[y][x] == 1) &&
    (forall y, x :: 0 <= y < h && 0 <= x < w && OnBorder(x, y, w, h) ==> t[y][x] == 1) &&
    (forall y, x :: 0 <= y < h && 0 <= x < w && t[y][x] == 1 ==> x % 2 == 0 || y % 2 == 0)
  }

  /** Every wall of `t` is still a wall in `u`. */
  predicate Grown(t: Table, u: Table, w: nat, h: nat)
    requires Shaped(t, w, h) && Shaped(u, w, h)
  {
    forall y, x :: 0 <= y < h && 0 <= x < w && t[y][x] == 1 ==> u[y][x] == 1
  }

  ghost function ZeroCells(t: Table, w: nat, h: nat): set<(int, int)>
    requires Shaped(t, w, h)
  {
    set x, y | 0 <= x < w && 0 <= y < h && t[y][x] == 0 :: (x, y)
  }

  function SetCell(t: Table, x: int, y: int, v: int): (u: Table)
    requires 0 <= y < |t| && 0 <= x < |t[y]|
    ensures |u| == |t| && |u[y]| == |t[y]| && u[y][x] == v
  {
    t[y := t[y][x := v]]
  }

  /** Colour of a pillar that is covered by wall. */
  const PillarWallColour := Colour(200, 255, 30)
  /** Colour of a pillar that is not yet covered by wall. */
  const PillarNotWallColour := Colour(60, 255, 60)

  /** The colour initDraw gives cell (x, y) of a w x h grid whose goal is at
      (gx, gy): the border is wall (white), the start (1, 1) is the ball
      colour (red), the goal blue, the other cells black, and pillars are
      drawn in the pillar colours instead. */
  function InitColour(x: int, y: int, w: nat, h: nat, gx: int, gy: int): (c: Colour)
    ensures x % 2 == 0 && y % 2 == 0 ==>
              c == (if OnBorder(x, y, w, h) then PillarWallColour else PillarNotWallColour)
    ensures (x % 2 != 0 || y % 2 != 0) && OnBorder(x, y, w, h) ==> c == White
    ensures (x % 2 == 1 && y % 2 == 1 && !OnBorder(x, y, w, h)) ==>
              c == (if x == 1 && y == 1 then Red else if x == gx && y == gy then Blue else Black)
  {
    var base :=
      if OnBorder(x, y, w, h) then White
      else if x == 1 && y == 1 then Red
      else if x == gx && y == gy then Blue
      else Black;
    if x % 2 == 0 && y % 2 == 0 then
      (if base == White then PillarWallColour else PillarNotWallColour)
    else base
  }

  /** Every inner cell that is not a pillar, whatever its parity, is start,
      goal or aisle. */
  lemma InitColourInner(x: int, y: int, w: nat, h: nat, gx: int, gy: int)
    requires (x % 2 != 0 || y % 2 != 0) && !OnBorder(x, y, w, h)
    ensures InitColour(x, y, w, h, gx, gy) ==
              (if x == 1 && y == 1 then Red else if x == gx && y == gy then Blue else Black)
  {
  }

  /** Appending the current cell when it is a pillar extends the prefix by one cell. */
  lemma PrefixStep(pl: seq<Pillar>, w: nat, h: nat, x: int, y: int)
    requires PillarPrefix(pl, w, h, x, y) && InGrid(x, y, w, h)
    ensures PillarPrefix(if x % 2 == 0 && y % 2 == 0 then pl + [Pillar(x, y)] else pl, w, h, x + 1, y)
  {
    var pl' := if x % 2 == 0 && y % 2 == 0 then pl + [Pillar(x, y)] else pl;
    forall px, py | IsPillarCell(px, py, w, h) && Before(Pillar(px, py), Pillar(x + 1, y))
      ensures Pillar(px, py) in pl'
    {
      if px != x || py != y {
        assert Before(Pillar(px, py), Pillar(x, y));
      }
    }
  }

  /** Row-major order of the pillar list. */
  predicate Before(p: Pillar, q: Pillar)
  {
    p.y < q.y || (p.y == q.y && p.x < q.x)
  }

  /** `pl` holds, in row-major order, exactly the pillars that come before
      cell (x, y) in row-major order. */
  ghost predicate PillarPrefix(pl: seq<Pillar>, w: nat, h: nat, x: int, y: int)
  {
    (forall i :: 0 <= i < |pl| ==> IsPillarCell(pl[i].x, pl[i].y, w, h) && Before(pl[i], Pillar(x, y))) &&
    (forall px, py :: IsPillarCell(px, py, w, h) && Before(Pillar(px, py), Pillar(x, y)) ==> Pillar(px, py) in pl) &&
    (forall i, j :: 0 <= i < j < |pl| ==> Before(pl[i], pl[j]))
  }

  /** Moving from the end of row y to the start of row y + 1 keeps the prefix. */
  lemma NextRow(pl: seq<Pillar>, w: nat, h: nat, y: int)
    requires PillarPrefix(pl, w, h, w, y)
    ensures PillarPrefix(pl, w, h, 0, y + 1)
  {
    forall px, py | IsPillarCell(px, py, w, h) && Before(Pillar(px, py), Pillar(0, y + 1))
      ensures Pillar(px, py) in pl
    {
      assert Before(Pillar(px, py), Pillar(w, y));
    }
  }

  /** The pillars among the cells before (x, y) in row-major order on a grid
      w cells wide, in the order initDraw's nested loops visit them. */
  function PillarsBefore(w: nat, x: nat, y: nat): seq<Pillar>
    requires x <= w
    decreases y, x
  {
    if x == 0 then (if y == 0 then [] else PillarsBefore(w, w, y - 1))
    else PillarsBefore(w, x - 1, y) + (if (x - 1) % 2 == 0 && y % 2 == 0 then [Pillar(x - 1, y)] else [])
  }

  /** The pillar list of a w x h grid. */
  predicate PillarListOf(pl: seq<Pillar>, w: nat, h: nat)
  {
    pl == PillarsBefore(w, 0, h)
  }

  /** PillarsBefore holds exactly the pillars before (x, y), in row-major order. */
  lemma PillarsBeforeSpec(w: nat, h: nat, x: nat, y: nat)
    requires x <= w && (y < h || (y == h && x == 0))
    ensures PillarPrefix(PillarsBefore(w, x, y), w, h, x, y)
  {
    RowStartSpec(w, h, y);
    if y < h {
      RowSpec(w, h, x, y);
    }
  }

  /** At the start of each row, PillarsBefore holds the pillars of the rows above. */
  lemma {:induction false} RowStartSpec(w: nat, h: nat, y: nat)
    requires y <= h
    ensures PillarPrefix(PillarsBefore(w, 0, y), w, h, 0, y)
    decreases y
  {
    if y != 0 {
      RowStartSpec(w, h, y - 1);
      RowSpec(w, h, w, y - 1);
      NextRow(PillarsBefore(w, w, y - 1), w, h, y - 1);
    }
  }

  /** Along row y, PillarsBefore keeps the prefix one cell at a time. */
  lemma {:induction false} RowSpec(w: nat, h: nat, x: nat, y: nat)
    requires x <= w && y < h && PillarPrefix(PillarsBefore(w, 0, y), w, h, 0, y)
    ensures PillarPrefix(PillarsBefore(w, x, y), w, h, x, y)
    decreases x
  {
    if x != 0 {
      RowSpec(w, h, x - 1, y);
      PillarsBeforeStep(w, h, x - 1, y);
    }
  }

  /** One cell further along the row, PillarsBefore still holds the prefix. */
  lemma PillarsBeforeStep(w: nat, h: nat, x: nat, y: nat)
    requires x < w && y < h && PillarPrefix(PillarsBefore(w, x, y), w, h, x, y)
    ensures PillarPrefix(PillarsBefore(w, x + 1, y), w, h, x + 1, y)
  {
    var pl := PillarsBefore(w, x, y);
    PrefixStep(pl, w, h, x, y);
    assert pl + [] == pl;
  }

  /** The indices of the border pillars of `pl`, in increasing order: the
      working list initDraw builds. */
  function BorderPillarIndices(pl: seq<Pillar>, w: nat, h: nat): seq<int>
    decreases |pl|
  {
    if pl == [] then []
    else
      var n := |pl| - 1;
      BorderPillarIndices(pl[..n], w, h) + (if OnBorder(pl[n].x, pl[n].y, w, h) then [n] else [])
  }

  /** BorderPillarIndices names exactly the border pillars of `pl`. */
  lemma {:induction false} BorderPillarIndicesSpec(pl: seq<Pillar>, w: nat, h: nat)
    ensures forall v :: v in BorderPillarIndices(pl, w, h) <==> 0 <= v < |pl| && OnBorder(pl[v].x, pl[v].y, w, h)
    decreases |pl|
  {
    if pl != [] {
      var n := |pl| - 1;
      BorderPillarIndicesSpec(pl[..n], w, h);
      assert forall v :: 0 <= v < n ==> pl[..n][v] == pl[v];
    }
  }

  predicate IsDirection(d: Offset)
  {
    d == East || d == West || d == South || d == North
  }

  /** Direction `d` from pillar (x, y) leads to a cell inside the grid that is
      not yet wall. */
  predicate Offered(t: Table, w: nat, h: nat, x: int, y: int, d: Offset)
    requires Shaped(t, w, h)
  {
    IsDirection(d) && InGrid(x + d.dx, y + d.dy, w, h) && t[y + d.dy][x + d.dx] == 0
  }

  /** The directions in which the wall at pillar (x, y) can be extended:
      towards a cell two steps away that is inside the grid and not yet
      wall, in the order East, West, South, North. */
  function PossibleExtend(t: Table, w: nat, h: nat, x: int, y: int): (r: seq<Offset>)
    requires Shaped(t, w, h) && InGrid(x, y, w, h)
    ensures |r| <= 4
    ensures forall d :: d in r <==> Offered(t, w, h, x, y, d)
  {
    var e := if x + 2 <= w - 1 && t[y][x + 2] == 0 then [East] else [];
    var wv := if x - 2 >= 0 && t[y][x - 2] == 0 then [West] else [];
    var s := if y + 2 <= h - 1 && t[y + 2][x] == 0 then [South] else [];
    var n := if y - 2 >= 0 && t[y - 2][x] == 0 then [North] else [];
    assert forall d :: d in e + wv + s + n <==> d in e || d in wv || d in s || d in n;
    e + wv + s + n
  }

  /** The table after extending the wall at pillar (x, y) by `d`: the middle
      cell and the pillar two steps away become wall. */
  function Extend(t: Table, w: nat, h: nat, x: int, y: int, d: Offset): (u: Table)
    requires Shaped(t, w, h) && InGrid(x, y, w, h) && d in PossibleExtend(t, w, h, x, y)
  {
    SetCell(SetCell(t, x + d.dx / 2, y + d.dy / 2, 1), x + d.dx, y + d.dy, 1)
  }

  /** Turning one cell with an even coordinate into wall keeps the invariant,
      only grows the walls, and removes the cell from the open cells. */
  lemma SetWall(t: Table, w: nat, h: nat, x: int, y: int)
    requires GridInv(t, w, h) && InGrid(x, y, w, h) && (x % 2 == 0 || y % 2 == 0)
    ensures var u := SetCell(t, x, y, 1);
      GridInv(u, w, h) && Grown(t, u, w, h) &&
      ZeroCells(u, w, h) == ZeroCells(t, w, h) - {(x, y)}
  {
    var u := SetCell(t, x, y, 1);
    assert Shaped(u, w, h);
    assert ZeroCells(u, w, h) == ZeroCells(t, w, h) - {(x, y)};
  }

  /** Walling a cell with an even coordinate and then an open pillar. */
  lemma SetTwoWalls(t: Table, w: nat, h: nat, x1: int, y1: int, x2: int, y2: int)
    requires GridInv(t, w, h) && InGrid(x1, y1, w, h) && (x1 % 2 == 0 || y1 % 2 == 0)
    requires IsPillarCell(x2, y2, w, h) && t[y2][x2] == 0 && (x1 != x2 || y1 != y2)
    ensures var u := SetCell(SetCell(t, x1, y1, 1), x2, y2, 1);
      GridInv(u, w, h) && Grown(t, u, w, h) && u[y1][x1] == 1 && u[y2][x2] == 1 &&
      (forall j, i ::
         (0 <= j < h && 0 <= i < w && (j != y1 || i != x1) && (j != y2 || i != x2)) ==> u[j][i] == t[j][i]) &&
      ZeroCells(u, w, h) < ZeroCells(t, w, h)
  {
    SetWall(t, w, h, x1, y1);
    var m := SetCell(t, x1, y1, 1);
    SetWall(m, w, h, x2, y2);
    assert (x2, y2) in ZeroCells(t, w, h);
  }

  /** One extension step keeps the invariant, only turns cells into walls,
      and walls a pillar that was open, so at least one open cell is gone. */
  lemma ExtendStep(t: Table, w: nat, h: nat, x: int, y: int, d: Offset)
    requires GridInv(t, w, h) && IsPillarCell(x, y, w, h) && d in PossibleExtend(t, w, h, x, y)
    ensures IsPillarCell(x + d.dx, y + d.dy, w, h) && t[y + d.dy][x + d.dx] == 0
    ensures var u := Extend(t, w, h, x, y, d);
      GridInv(u, w, h) && Grown(t, u, w, h) && u[y + d.dy][x + d.dx] == 1 &&
      ZeroCells(u, w, h) < ZeroCells(t, w, h)
  {
    assert Offered(t, w, h, x, y, d);
    ghost var x1, y1 := x + d.dx / 2, y + d.dy / 2;
    assert InGrid(x1, y1, w, h) && (x1 % 2 == 0 || y1 % 2 == 0) && (x1 != x + d.dx || y1 != y + d.dy);
    SetTwoWalls(t, w, h, x1, y1, x + d.dx, y + d.dy);
    ghost var u := SetCell(SetCell(t, x1, y1, 1), x + d.dx, y + d.dy, 1);
    assert Extend(t, w, h, x, y, d) == u;
  }

  /** An extension writes 1 into exactly two cells, the middle one and the
      pillar two cells away, and changes no other cell. */
  lemma ExtendWritesTwoCells(t: Table, w: nat, h: nat, x: int, y: int, d: Offset)
    requires Shaped(t, w, h) && IsPillarCell(x, y, w, h) && d in PossibleExtend(t, w, h, x, y)
    ensures var u := Extend(t, w, h, x, y, d);
      Shaped(u, w, h) && u[y + d.dy / 2][x + d.dx / 2] == 1 && u[y + d.dy][x + d.dx] == 1 &&
      forall j, i ::
        (0 <= j < h && 0 <= i < w && (j != y + d.dy / 2 || i != x + d.dx / 2) &&
         (j != y + d.dy || i != x + d.dx)) ==> u[j][i] == t[j][i]
  {
    ExtendCells(t, w, h, x, y, d);
  }

  /** The two cells an extension writes lie inside the grid. */
  lemma ExtendCells(t: Table, w: nat, h: nat, x: int, y: int, d: Offset)
    requires Shaped(t, w, h) && IsPillarCell(x, y, w, h) && d in PossibleExtend(t, w, h, x, y)
    ensures InGrid(x + d.dx / 2, y + d.dy / 2, w, h) && IsPillarCell(x + d.dx, y + d.dy, w, h)
  {
    assert Offered(t, w, h, x, y, d);
  }

  lemma GrownTrans(a: Table, b: Table, c: Table, w: nat, h: nat)
    requires Shaped(a, w, h) && Shaped(b, w, h) && Shaped(c, w, h)
    requires Grown(a, b, w, h) && Grown(b, c, w, h)
    ensures Grown(a, c, w, h)
  {
  }

  /** Once a table has grown, fewer directions are open. */
  lemma GrownOffersLess(t: Table, u: Table, w: nat, h: nat, x: int, y: int)
    requires Shaped(t, w, h) && Shaped(u, w, h) && InGrid(x, y, w, h) && Grown(t, u, w, h)
    requires GridInv(t, w, h)
    ensures forall d :: d in PossibleExtend(u, w, h, x, y) ==> d in PossibleExtend(t, w, h, x, y)
  {
  }

  /** No wall pillar can be extended any more. */
  ghost predicate Closed(t: Table, w: nat, h: nat)
    requires Shaped(t, w, h)
  {
    forall px, py :: IsPillarCell(px, py, w, h) && t[py][px] == 1 ==> PossibleExtend(t, w, h, px, py) == []
  }

  /** When the border is wall and no wall pillar can be extended, every pillar
      is wall: walls have spread from the border to the whole pillar grid. */
  lemma {:induction false} ClosedWallsEveryPillar(t: Table, w: nat, h: nat, x: int, y: int)
    requires GridInv(t, w, h) && Closed(t, w, h) && IsPillarCell(x, y, w, h)
    ensures t[y][x] == 1
    decreases y
  {
    if y == 0 {
      assert OnBorder(x, y, w, h);
    } else {
      assert IsPillarCell(x, y - 2, w, h);
      ClosedWallsEveryPillar(t, w, h, x, y - 2);
      assert PossibleExtend(t, w, h, x, y - 2) == [];
      assert !Offered(t, w, h, x, y - 2, South);
      assert InGrid(x, y - 2 + South.dy, w, h);
    }
  }

  /** Walls sit only on cells with an even coordinate, so on an odd-sized
      grid the start (1, 1) and the goal corners are never walled. */
  lemma OddCellsOpen(t: Table, w: nat, h: nat, x: int, y: int)
    requires GridInv(t, w, h) && InGrid(x, y, w, h) && x % 2 == 1 && y % 2 == 1
    ensures t[y][x] == 0
  {
  }

  /** The list with the entry at position k taken out (Python's `list.pop(k)`). */
  function RemoveAt(s: seq<int>, k: nat): (r: seq<int>)
    requires k < |s|
    ensures |r| == |s| - 1
    ensures forall v :: v in s && v != s[k] ==> v in r
    ensures forall v :: v in r ==> v in s
  {
    assert s == s[..k] + [s[k]] + s[k + 1..];
    s[..k] + s[k + 1..]
  }

  /** The working-list invariant of generateWalls: `pl` is the pillar list,
      every queued index names a wall pillar, and every wall pillar that
      can still be extended is queued. */
  ghost predicate Queued(t: Table, pl: seq<Pillar>, wl: seq<int>, w: nat, h: nat)
    requires Shaped(t, w, h)
  {
    PillarListOf(pl, w, h) &&
    (forall k :: 0 <= k < |wl| ==>
       0 <= wl[k] < |pl| && IsPillarCell(pl[wl[k]].x, pl[wl[k]].y, w, h) && t[pl[wl[k]].y][pl[wl[k]].x] == 1) &&
    (forall i ::
       (0 <= i < |pl| && IsPillarCell(pl[i].x, pl[i].y, w, h) && t[pl[i].y][pl[i].x] == 1 &&
        PossibleExtend(t, w, h, pl[i].x, pl[i].y) != []) ==> i in wl)
  }

  /** A pillar list in row-major order names every pillar once. */
  lemma PillarsDistinct(pl: seq<Pillar>, w: nat, h: nat, i: int, j: int)
    requires PillarListOf(pl, w, h) && 0 <= i < |pl| && 0 <= j < |pl| && i != j
    ensures pl[i] != pl[j]
  {
    PillarsBeforeSpec(w, h, 0, h);
    if i < j { assert Before(pl[i], pl[j]); } else { assert Before(pl[j], pl[i]); }
  }

  /** Every pillar cell of the grid is in the pillar list. */
  lemma PillarListed(pl: seq<Pillar>, w: nat, h: nat, x: int, y: int)
    requires PillarListOf(pl, w, h) && IsPillarCell(x, y, w, h)
    ensures Pillar(x, y) in pl
  {
    PillarsBeforeSpec(w, h, 0, h);
    assert Before(Pillar(x, y), Pillar(0, h));
  }

  /** Every entry of the pillar list is a pillar cell of the grid. */
  lemma PillarAt(pl: seq<Pillar>, w: nat, h: nat, i: int)
    requires PillarListOf(pl, w, h) && 0 <= i < |pl|
    ensures IsPillarCell(pl[i].x, pl[i].y, w, h)
  {
    PillarsBeforeSpec(w, h, 0, h);
  }

  /** The table initDraw builds, with the border pillars queued, satisfies the
      invariant of wall extension and the working-list invariant. */
  lemma QueueStart(t: Table, pl: seq<Pillar>, wl: seq<int>, w: nat, h: nat)
    requires OddSize(w, h) && BorderOnly(t, w, h) && PillarListOf(pl, w, h) && wl == BorderPillarIndices(pl, w, h)
    ensures GridInv(t, w, h) && Queued(t, pl, wl, w, h)
  {
    BorderOnlyInv(t, w, h);
    BorderQueued(t, pl, wl, w, h);
  }

  /** The table initDraw builds satisfies the invariant of wall extension. */
  lemma BorderOnlyInv(t: Table, w: nat, h: nat)
    requires OddSize(w, h) && BorderOnly(t, w, h)
    ensures GridInv(t, w, h)
  {
    forall y, x | 0 <= y < h && 0 <= x < w && t[y][x] == 1
      ensures x % 2 == 0 || y % 2 == 0
    {
      assert OnBorder(x, y, w, h);
    }
  }

  /** Queueing exactly the border pillars satisfies the working-list invariant. */
  lemma BorderQueued(t: Table, pl: seq<Pillar>, wl: seq<int>, w: nat, h: nat)
    requires BorderOnly(t, w, h) && PillarListOf(pl, w, h) && wl == BorderPillarIndices(pl, w, h)
    ensures Queued(t, pl, wl, w, h)
  {
    PillarsBeforeSpec(w, h, 0, h);
    BorderPillarIndicesSpec(pl, w, h);
    forall k | 0 <= k < |wl|
      ensures 0 <= wl[k] < |pl| && IsPillarCell(pl[wl[k]].x, pl[wl[k]].y, w, h) && t[pl[wl[k]].y][pl[wl[k]].x] == 1
    {
      assert wl[k] in wl;
    }
    forall i | 0 <= i < |pl| && IsPillarCell(pl[i].x, pl[i].y, w, h) && t[pl[i].y][pl[i].x] == 1
      ensures i in wl
    {
      assert OnBorder(pl[i].x, pl[i].y, w, h);
    }
  }

  /** Popping a pillar that cannot be extended keeps the working-list invariant. */
  lemma QueueDrop(t: Table, pl: seq<Pillar>, wl: seq<int>, w: nat, h: nat, k: nat)
    requires GridInv(t, w, h) && Queued(t, pl, wl, w, h) && k < |wl|
    requires PossibleExtend(t, w, h, pl[wl[k]].x, pl[wl[k]].y) == []
    ensures Queued(t, pl, RemoveAt(wl, k), w, h)
  {
    var r := RemoveAt(wl, k);
    forall j | 0 <= j < |r|
      ensures 0 <= r[j] < |pl| && t[pl[r[j]].y][pl[r[j]].x] == 1
    {
      assert r[j] in wl;
    }
  }

  lemma TwoMembers(s: seq<Offset>, a: Offset, b: Offset)
    requires a in s && b in s && a != b
    ensures |s| >= 2
  {
  }

  /** The working list after an extension step: the popped entry taken out,
      the reached pillar queued, and the popped pillar queued again when it
      had another direction. */
  function Requeued(wl: seq<int>, k: nat, reached: int, again: bool): (r: seq<int>)
    requires k < |wl|
    ensures forall v :: v in r <==> (v in RemoveAt(wl, k) || v == reached || (again && v == wl[k]))
  {
    RemoveAt(wl, k) + [reached] + (if again then [wl[k]] else [])
  }

  /** A pillar that can still be extended after extending it by `d` had at
      least two directions before. */
  lemma StillOpenHadTwo(t: Table, w: nat, h: nat, x: int, y: int, d: Offset)
    requires GridInv(t, w, h) && IsPillarCell(x, y, w, h) && d in PossibleExtend(t, w, h, x, y)
    requires PossibleExtend(Extend(t, w, h, x, y, d), w, h, x, y) != []
    ensures |PossibleExtend(t, w, h, x, y)| >= 2
  {
    ExtendStep(t, w, h, x, y, d);
    var u := Extend(t, w, h, x, y, d);
    var e := PossibleExtend(u, w, h, x, y);
    assert e[0] in e;
    GrownOffersLess(t, u, w, h, x, y);
    assert e[0] != d;
    TwoMembers(PossibleExtend(t, w, h, x, y), d, e[0]);
  }

  /** An extension changes no pillar other than the one it reaches. */
  lemma ExtendLeavesOtherPillars(t: Table, w: nat, h: nat, x: int, y: int, d: Offset, qx: int, qy: int)
    requires GridInv(t, w, h) && IsPillarCell(x, y, w, h) && d in PossibleExtend(t, w, h, x, y)
    requires IsPillarCell(qx, qy, w, h) && (qx != x + d.dx || qy != y + d.dy)
    ensures var u := Extend(t, w, h, x, y, d);
      u[qy][qx] == t[qy][qx] &&
      (PossibleExtend(u, w, h, qx, qy) != [] ==> PossibleExtend(t, w, h, qx, qy) != [])
  {
    ExtendWritesTwoCells(t, w, h, x, y, d);
    var u := Extend(t, w, h, x, y, d);
    assert Offered(t, w, h, x, y, d);
    var mx, my := x + d.dx / 2, y + d.dy / 2;
    assert mx % 2 == 1 || my % 2 == 1;
    assert qx != mx || qy != my;
    assert u[qy][qx] == t[qy][qx];
    var e := PossibleExtend(u, w, h, qx, qy);
    if e != [] {
      ExtendStep(t, w, h, x, y, d);
      assert e[0] in e;
      GrownOffersLess(t, u, w, h, qx, qy);
      assert e[0] in PossibleExtend(t, w, h, qx, qy);
    }
  }

  /** One pillar's part of the working-list invariant after an extension:
      a wall pillar that can still be extended is queued. */
  lemma ExtendKeepsPillarQueued(t: Table, pl: seq<Pillar>, wl: seq<int>, w: nat, h: nat, k: nat,
                                d: Offset, reached: int, i: int)
    requires GridInv(t, w, h) && Queued(t, pl, wl, w, h) && k < |wl|
    requires d in PossibleExtend(t, w, h, pl[wl[k]].x, pl[wl[k]].y)
    requires 0 <= reached < |pl| && pl[reached] == Pillar(pl[wl[k]].x + d.dx, pl[wl[k]].y + d.dy)
    requires 0 <= i < |pl| && IsPillarCell(pl[i].x, pl[i].y, w, h)
    ensures var p := pl[wl[k]];
      var u := Extend(t, w, h, p.x, p.y, d);
      u[pl[i].y][pl[i].x] == 1 && PossibleExtend(u, w, h, pl[i].x, pl[i].y) != [] ==>
        i in Requeued(wl, k, reached, |PossibleExtend(t, w, h, p.x, p.y)| >= 2)
  {
    var index := wl[k];
    var p := pl[index];
    var q := pl[i];
    assert IsPillarCell(p.x, p.y, w, h) && IsPillarCell(q.x, q.y, w, h);
    var u := Extend(t, w, h, p.x, p.y, d);
    if u[q.y][q.x] == 1 && PossibleExtend(u, w, h, q.x, q.y) != [] && i != reached {
      if i == index {
        StillOpenHadTwo(t, w, h, p.x, p.y, d);
      } else {
        PillarsDistinct(pl, w, h, i, reached);
        ExtendLeavesOtherPillars(t, w, h, p.x, p.y, d, q.x, q.y);
        assert i in wl;
        assert i in RemoveAt(wl, k);
      }
    }
  }

  /** Popping a pillar, extending it by `d` and queueing the reached pillar,
      and the popped one again when it had another direction, keeps the
      working-list invariant. */
  lemma QueueExtend(t: Table, pl: seq<Pillar>, wl: seq<int>, w: nat, h: nat, k: nat, d: Offset, reached: int)
    requires GridInv(t, w, h) && Queued(t, pl, wl, w, h) && k < |wl|
    requires d in PossibleExtend(t, w, h, pl[wl[k]].x, pl[wl[k]].y)
    requires 0 <= reached < |pl| && pl[reached] == Pillar(pl[wl[k]].x + d.dx, pl[wl[k]].y + d.dy)
    ensures var p := pl[wl[k]];
      var u := Extend(t, w, h, p.x, p.y, d);
      GridInv(u, w, h) && Grown(t, u, w, h) && ZeroCells(u, w, h) < ZeroCells(t, w, h) &&
      Queued(u, pl, Requeued(wl, k, reached, |PossibleExtend(t, w, h, p.x, p.y)| >= 2), w, h)
  {
    var index := wl[k];
    var p := pl[index];
    var again := |PossibleExtend(t, w, h, p.x, p.y)| >= 2;
    ExtendStep(t, w, h, p.x, p.y, d);
    var u := Extend(t, w, h, p.x, p.y, d);
    var wl' := Requeued(wl, k, reached, again);
    RequeuedEntries(t, pl, wl, w, h, k, d, reached);
    forall i | 0 <= i < |pl| && IsPillarCell(pl[i].x, pl[i].y, w, h) && u[pl[i].y][pl[i].x] == 1 &&
               PossibleExtend(u, w, h, pl[i].x, pl[i].y) != []
      ensures i in wl'
    {
      ExtendKeepsPillarQueued(t, pl, wl, w, h, k, d, reached, i);
    }
  }

  /** Every entry of the re-queued working list names a wall pillar of the
      extended table. */
  lemma RequeuedEntries(t: Table, pl: seq<Pillar>, wl: seq<int>, w: nat, h: nat, k: nat, d: Offset, reached: int)
    requires GridInv(t, w, h) && Queued(t, pl, wl, w, h) && k < |wl|
    requires d in PossibleExtend(t, w, h, pl[wl[k]].x, pl[wl[k]].y)
    requires 0 <= reached < |pl| && pl[reached] == Pillar(pl[wl[k]].x + d.dx, pl[wl[k]].y + d.dy)
    ensures var p := pl[wl[k]];
      var u := Extend(t, w, h, p.x, p.y, d);
      var wl' := Requeued(wl, k, reached, |PossibleExtend(t, w, h, p.x, p.y)| >= 2);
      forall j :: 0 <= j < |wl'| ==>
        0 <= wl'[j] < |pl| && IsPillarCell(pl[wl'[j]].x, pl[wl'[j]].y, w, h) && u[pl[wl'[j]].y][pl[wl'[j]].x] == 1
  {
    var index := wl[k];
    var p := pl[index];
    ExtendStep(t, w, h, p.x, p.y, d);
    var u := Extend(t, w, h, p.x, p.y, d);
    var wl' := Requeued(wl, k, reached, |PossibleExtend(t, w, h, p.x, p.y)| >= 2);
    forall j | 0 <= j < |wl'|
      ensures 0 <= wl'[j] < |pl| && IsPillarCell(pl[wl'[j]].x, pl[wl'[j]].y, w, h) && u[pl[wl'[j]].y][pl[wl'[j]].x] == 1
    {
      assert wl'[j] in wl';
      if wl'[j] != reached && wl'[j] != index {
        assert wl'[j] in wl;
      }
    }
  }

  /** When the working list is empty, every pillar is wall. */
  lemma QueueEmptyClosed(t: Table, pl: seq<Pillar>, w: nat, h: nat)
    requires GridInv(t, w, h) && Queued(t, pl, [], w, h)
    ensures forall y, x :: IsPillarCell(x, y, w, h) ==> t[y][x] == 1
  {
    forall px, py | IsPillarCell(px, py, w, h) && t[py][px] == 1
      ensures PossibleExtend(t, w, h, px, py) == []
    {
      PillarListed(pl, w, h, px, py);
      var i :| 0 <= i < |pl| && pl[i] == Pillar(px, py);
    }
    assert Closed(t, w, h);
    forall y, x | IsPillarCell(x, y, w, h)
      ensures t[y][x] == 1
    {
      ClosedWallsEveryPillar(t, w, h, x, y);
    }
  }

  /** One pass of the generateWalls loop on a w x h grid: pops a random
      pillar off the working list and, when one of its directions is open,
      walls the middle cell and the pillar two cells away, queues that pillar,
      and queues the popped one again when it had more than one direction.
      `pick(n, k)` is the n-th random draw, a number in [0, k). Returns the
      popped pillar's index, its position `k` in the working list, the
      direction taken, if any, and the index of the pillar it reached (-1
      when none). Either a cell that was open is walled now, or the table is
      unchanged and the working list is shorter. */
  method ExtendOnce(w: nat, h: nat, pick: (nat, nat) -> nat, draw: nat, table: Table, pillars: seq<Pillar>,
                    working: seq<int>)
    returns (table': Table, working': seq<int>, draw': nat, index: int, ext: Option<Offset>, k: nat, reached: int)
    requires forall n, k :: 0 < k ==> pick(n, k) < k
    requires |working| > 0
    requires GridInv(table, w, h) && Queued(table, pillars, working, w, h)
    ensures k == pick(draw, |working|) && k < |working| && index == working[k]
    ensures index in working && 0 <= index < |pillars| && IsPillarCell(pillars[index].x, pillars[index].y, w, h)
    ensures ext.None? ==> draw' == draw + 1 && working' == RemoveAt(working, k) && reached == -1
    ensures ext.Some? ==>
              var p := pillars[index];
              var options := PossibleExtend(table, w, h, p.x, p.y);
              draw' == draw + 2 && options != [] && ext.value == options[pick(draw + 1, |options|)] &&
              0 <= reached < |pillars| && pillars[reached] == Pillar(p.x + ext.value.dx, p.y + ext.value.dy) &&
              working' == Requeued(working, k, reached, |options| >= 2)
    ensures table[pillars[index].y][pillars[index].x] == 1
    ensures ext.None? ==>
              table' == table && PossibleExtend(table, w, h, pillars[index].x, pillars[index].y) == []
    ensures ext.Some? ==>
              ext.value in PossibleExtend(table, w, h, pillars[index].x, pillars[index].y) &&
              table' == Extend(table, w, h, pillars[index].x, pillars[index].y, ext.value)
    ensures forall v :: v in working && v != index ==> v in working'
    ensures GridInv(table', w, h) && Queued(table', pillars, working', w, h)
    ensures Grown(table, table', w, h)
    ensures ZeroCells(table', w, h) < ZeroCells(table, w, h) ||
            (table' == table && |working'| < |working|)
  {
    k := pick(draw, |working|);
    draw' := draw + 1;
    index := working[k];
    working' := RemoveAt(working, k);
    var x, y := pillars[index].x, pillars[index].y;
    assert IsPillarCell(x, y, w, h);
    var possibleExtend := PossibleExtend(table, w, h, x, y);
    if |possibleExtend| > 0 {
      var extendDirection := possibleExtend[pick(draw', |possibleExtend|)];
      draw' := draw' + 1;
      ext := Some(extendDirection);
      table' := ExtendWall(w, h, table, x, y, extendDirection);
      var x2, y2 := x + extendDirection.dx, y + extendDirection.dy;
      ExtendCells(table, w, h, x, y, extendDirection);
      PillarListed(pillars, w, h, x2, y2);
      reached := FindPillarIndex(pillars, x2, y2);
      if reached != -1 {
        working' := working' + [reached];
      } else {
        assert false;
      }
      if |possibleExtend| >= 2 {
        working' := working' + [index];
      }
      QueueExtend(table, pillars, working, w, h, k, extendDirection, reached);
      assert working' == Requeued(working, k, reached, |possibleExtend| >= 2);
    } else {
      ext := None;
      table' := table;
      reached := -1;
      QueueDrop(table, pillars, working, w, h, k);
    }
  }

  /** The two writes of an extension: the middle cell, then the pillar two
      cells away, become wall. */
  method ExtendWall(w: nat, h: nat, table: Table, x: int, y: int, d: Offset) returns (table': Table)
    requires Shaped(table, w, h) && IsPillarCell(x, y, w, h)
    requires d in PossibleExtend(table, w, h, x, y)
    ensures table' == Extend(table, w, h, x, y, d)
  {
    ExtendCells(table, w, h, x, y, d);
    var x1, y1 := x + d.dx / 2, y + d.dy / 2;
    table' := SetCell(table, x1, y1, 1);
    var x2, y2 := x + d.dx, y + d.dy;
    table' := SetCell(table', x2, y2, 1);
  }

  /** The wall bit and the colour initDraw gives cell (x, y) of a w x h grid
      whose goal is (gx, gy): border cells are wall, start and goal get their
      colours, and a pillar is drawn in the pillar colour that says whether
      it is covered by wall. */
  method InitCell(w: nat, h: nat, gx: int, gy: int, x: int, y: int) returns (wall: int, color: Colour)
    ensures wall == (if OnBorder(x, y, w, h) then 1 else 0)
    ensures color == InitColour(x, y, w, h, gx, gy)
  {
    if x == 0 || x == w - 1 || y == 0 || y == h - 1 {
      wall := 1;
      color := White;
    } else {
      wall := 0;
      if x == 1 && y == 1 {
        color := Red;
      } else if x == gx && y == gy {
        color := Blue;
      } else {
        color := Black;
      }
    }
    if x % 2 == 0 && y % 2 == 0 {
      if color == White {
        color := PillarWallColour;
      } else {
        color := PillarNotWallColour;
      }
    }
  }

  /** Lists cell (x, y) when it is a pillar, and queues its index when it is
      a border pillar. */
  method ListPillar(w: nat, h: nat, x: nat, y: nat, pillars: seq<Pillar>, working: seq<int>)
    returns (pillars': seq<Pillar>, working': seq<int>)
    requires x < w
    requires pillars == PillarsBefore(w, x, y) && working == BorderPillarIndices(pillars, w, h)
    ensures pillars' == PillarsBefore(w, x + 1, y) && working' == BorderPillarIndices(pillars', w, h)
  {
    pillars', working' := pillars, working;
    if x % 2 == 0 && y % 2 == 0 {
      var pillarIndex := |pillars|;
      assert (pillars + [Pillar(x, y)])[..pillarIndex] == pillars;
      if x == 0 || x == w - 1 || y == 0 || y == h - 1 {
        working' := working + [pillarIndex];
      }
      pillars' := pillars + [Pillar(x, y)];
    } else {
      assert pillars + [] == pillars;
    }
  }

  /** Returns the first index of `pl` whose pillar is (x, y), or -1 when
      there is none (findPillarIndex). */
  method FindPillarIndex(pl: seq<Pillar>, x: int, y: int) returns (r: int)
    ensures -1 <= r < |pl|
    ensures r == -1 <==> Pillar(x, y) !in pl
    ensures r != -1 ==> pl[r] == Pillar(x, y) && forall j :: 0 <= j < r ==> pl[j] != Pillar(x, y)
  {
    for i := 0 to |pl|
      invariant forall j :: 0 <= j < i ==> pl[j] != Pillar(x, y)
    {
      if pl[i].x == x && pl[i].y == y {
        return i;
      }
    }
    return -1;
  }
}
