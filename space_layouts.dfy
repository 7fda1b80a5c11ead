/** The enemy bitmaps of space.py (Games/space.py:46-247): five layouts,
    each a list of animation frames of 8 x n cells. A frame is written as a
    string, one character per cell row by row: 'R' a lit cell (red in the
    table, recoloured before use), 'O' an unlit one. */
module SpaceLayouts {
  import opened Hat

  const Layouts: seq<seq<string>> := [
    // Layout 0
    [
      "ORRRRRRO" + "RRORRORR" + "ORRRRRRO",
      "ORRRRRRO" + "ORORORRO" + "RRRRRRRR",
      "ORRRRRRO" + "RRORRORR" + "ORRRRRRO",
      "RRRRRRRR" + "ORRORORO" + "ORRRRRRO"
    ],
    // Layout 1
    [
      "ORRRRRRO" + "RRORRORR" + "RRORRORR" + "ORRRRRRO",
      "ORRRRRRO" + "ROORROOR" + "RRRRRRRR" + "ORRRRRRO",
      "ORRRRRRO" + "RORRRROR" + "RORRRROR" + "ORRRRRRO",
      "ORRRRRRO" + "RRRRRRRR" + "ROORROOR" + "ORRRRRRO"
    ],
    // Layout 2
    [
      "OOORROOO" + "OORRRROO" + "ORRORRRO" + "RROOORRR",
      "OORROOOO" + "ORRRROOO" + "RROORROO" + "ROOOORRR",
      "ORROOOOO" + "RRRROOOO" + "RRORROOO" + "ROOORRRO",
      "ORROOOOO" + "RRRROOOO" + "RRRRROOO" + "ROORRROO",
      "ORROOOOO" + "RRRROOOO" + "RRORROOO" + "ROOORRRO",
      "OORROOOO" + "ORRRROOO" + "RROORROO" + "ROOOORRR",
      "OOORROOO" + "OORRRROO" + "ORRORRRO" + "RROOORRR",
      "OOORROOO" + "OORRRROO" + "ORRRORRO" + "RRROOORR",
      "OOOORROO" + "OOORRRRO" + "OORROORR" + "RRROOOOR",
      "OOOOORRO" + "OOOORRRR" + "OOORRORR" + "ORRROOOR",
      "OOOOORRO" + "OOOORRRR" + "OOORRRRR" + "OORRROOR",
      "OOOOORRO" + "OOOORRRR" + "OOORRORR" + "ORRROOOR",
      "OOOORROO" + "OOORRRRO" + "OORROORR" + "RRROOOOR",
      "OOORROOO" + "OORRRROO" + "ORRRORRO" + "RRROOORR"
    ],
    // Layout 3
    [
      "ORRRRROO" + "RROOORRO" + "RRRRRRRO" + "ORRRRROO",
      "ORRRRROO" + "RRROOORO" + "RRRRRRRO" + "ORRRRROO",
      "OORRRRRO" + "ORRROOOR" + "ORRRRRRR" + "OORRRRRO",
      "OORRRRRO" + "ORRRROOR" + "ORRRRROR" + "OORRRRRO",
      "OORRRRRO" + "ORRRRROR" + "ORRRROOR" + "OORRRRRO",
      "OORRRRRO" + "ORRRRRRR" + "ORRROOOR" + "OORRRRRO",
      "OORRRRRO" + "ORRRRRRR" + "ORROOORR" + "OORRRRRO",
      "OORRRRRO" + "ORRRRRRR" + "OROOORRR" + "OORRRRRO",
      "ORRRRROO" + "RRRRRRRO" + "ROOORRRO" + "ORRRRROO",
      "ORRRRROO" + "RORRRRRO" + "ROORRRRO" + "ORRRRROO",
      "ORRRRROO" + "ROORRRRO" + "RORRRRRO" + "ORRRRROO",
      "ORRRRROO" + "ROOORRRO" + "RRRRRRRO" + "ORRRRROO"
    ],
    // Layout 4
    [
      "OOROOOOO" + "OROROOOO" + "ROOORRRO",
      "OOOROOOO" + "OOROROOO" + "RROOORRR",
      "OOOOROOO" + "OOOROROO" + "RRROOORR",
      "OOOOOROO" + "OOOORORO" + "ORRROOOR",
      "OOOOROOO" + "OOOROROO" + "RRROOORR",
      "OOOROOOO" + "OOROROOO" + "RROOORRR"
    ]
  ]

  /** The colour a frame character stands for in the table. */
  function Pixel(c: char): Colour
  {
    if c == 'R' then Red else Black
  }

  /** A frame of the table as cells. */
  function Decode(frame: string): (cells: seq<Colour>)
    ensures |cells| == |frame|
    ensures forall i :: 0 <= i < |frame| ==> cells[i] == Pixel(frame[i])
  {
    seq(|frame|, i requires 0 <= i < |frame| => Pixel(frame[i]))
  }

  /** A layout is a non-empty list of frames of one common length: a whole
      number of rows, at most four. */
  predicate WellFormed(layout: seq<string>)
  {
    |layout| >= 1 && 8 <= |layout[0]| <= 32 && |layout[0]| % 8 == 0 &&
    forall k :: 0 <= k < |layout| ==> |layout[k]| == |layout[0]|
  }

  /** Every layout of the table is well formed. */
  lemma LayoutsWellFormed()
    ensures |Layouts| == 5
    ensures forall l :: 0 <= l < |Layouts| ==> WellFormed(Layouts[l])
  {
  }
}
