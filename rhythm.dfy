/** The rhythm game of rhythm.py: four model beats in random directions are
    shown, the player repeats them by moving the board, a gesture is read
    from the last five accelerometer samples with a cooldown after each
    one, and every gesture scores by how close it lands to its model beat. */
module Rhythm {
  import opened Hat
  import opened History

  /** P_MODEL_BEAT_COUNT. */
  const ModelBeatCount := 4
  /** beatTime, 60.0 / P_DEFAULT_TEMPO for the default tempo of 60. */
  const BeatTime: real := 1.0
  /** P_THRESHOLD_ACCEL_DELTA. */
  const AccelDelta: real := 0.7
  /** P_THRESHOLD_ACCEL_DELTA * P_THRESHOLD_ACCEL_CORRECTION. */
  const CorrectionLevel: real := 0.7 * 0.4
  /** P_THRESHOLD_SAMPLE_COUNT. */
  const SampleCount: nat := 5
  /** int(P_THRESHOLD_SAMPLE_COUNT / 2), the sample a correction looks at. */
  const MiddleIndex := 2
  /** P_THRESHOLD_IGNORE_COUNT. */
  const IgnoreCount := 9
  /** P_SCORE_COEFFICIENT_TIME and P_SCORE_PERFECT. */
  const ScoreTime: real := 0.25
  const ScorePerfect: real := 120.0
  /** The colour of the beat corners. */
  const BeatColour := Cyan

  function Abs(x: real): real
  {
    if x < 0.0 then -x else x
  }

  /** A move along one axis: one of x and y is 0 and the other is 1 or -1. */
  predicate UnitMove(x: int, y: int)
  {
    (x == 0 && (y == 1 || y == -1)) || (y == 0 && (x == 1 || x == -1))
  }

  /** One beat of the model: its direction and its time from the start. */
  datatype ModelBeat = ModelBeat(x: int, y: int, time: real)

  /** The direction drawn by random.randint(1, 4) in getRandomModelList. */
  function DirectionOf(d: int): (m: (int, int))
    ensures UnitMove(m.0, m.1)
  {
    if d == 1 then (1, 0) else if d == 2 then (-1, 0) else if d == 3 then (0, 1) else (0, -1)
  }

  /** The four draws give the four unit moves, each exactly once. */
  lemma DirectionsCoverMoves(x: int, y: int)
    requires UnitMove(x, y)
    ensures exists d :: 1 <= d <= 4 && DirectionOf(d) == (x, y)
    ensures forall d, d' :: 1 <= d <= 4 && 1 <= d' <= 4 && DirectionOf(d) == DirectionOf(d') ==> d == d'
  {
    if x == 1 {
      assert DirectionOf(1) == (x, y);
    } else if x == -1 {
      assert DirectionOf(2) == (x, y);
    } else if y == 1 {
      assert DirectionOf(3) == (x, y);
    } else {
      assert DirectionOf(4) == (x, y);
    }
  }

  /** getRandomModelList with the random draws as an argument: beat i moves
      in the drawn direction at time beatTime * (P_MODEL_BEAT_COUNT + i), so
      the list is in time order, one beat apart, starting after the four
      warm-up beats. */
  method RandomModelList(draws: seq<int>) returns (models: seq<ModelBeat>)
    requires |draws| == ModelBeatCount && forall i :: 0 <= i < |draws| ==> 1 <= draws[i] <= 4
    ensures |models| == ModelBeatCount
    ensures forall i :: 0 <= i < |models| ==>
              (models[i].x, models[i].y) == DirectionOf(draws[i]) && UnitMove(models[i].x, models[i].y) &&
              models[i].time == BeatTime * ((ModelBeatCount + i) as real)
    ensures forall i, j :: 0 <= i < j < |models| ==> models[i].time < models[j].time
  {
    models := [];
    for i := 0 to ModelBeatCount
      invariant |models| == i
      invariant forall k :: 0 <= k < i ==>
                  (models[k].x, models[k].y) == DirectionOf(draws[k]) &&
                  models[k].time == BeatTime * ((ModelBeatCount + k) as real)
    {
      var d := draws[i];
      var t := BeatTime * ((ModelBeatCount + i) as real);
      if d == 1 {
        models := models + [ModelBeat(1, 0, t)];
      } else if d == 2 {
        models := models + [ModelBeat(-1, 0, t)];
      } else if d == 3 {
        models := models + [ModelBeat(0, 1, t)];
      } else {
        models := models + [ModelBeat(0, -1, t)];
      }
    }
  }

  /** The four corner cells updateBeatScreen writes. */
  predicate IsCorner(i: int)
  {
    i == 0 || i == 7 || i == 56 || i == 63
  }

  /** Those cells are exactly the corners of the matrix. */
  lemma CornersAreCorners(x: int, y: int)
    requires 0 <= x < 8 && 0 <= y < 8
    ensures IsCorner(At(x, y)) <==> (x == 0 || x == 7) && (y == 0 || y == 7)
  {
    if IsCorner(At(x, y)) {
      AtInjective(x, y, 0, 0);
      AtInjective(x, y, 7, 0);
      AtInjective(x, y, 0, 7);
      AtInjective(x, y, 7, 7);
    }
  }

  /** updateBeatScreen on the frame buffer: the four corners take `colour`;
      every other cell keeps its colour. */
  method UpdateBeatScreen(screen: array<Colour>, colour: Colour)
    requires screen.Length == ScreenSize
    modifies screen
    ensures forall i :: 0 <= i < ScreenSize ==> screen[i] == if IsCorner(i) then colour else old(screen[i])
  {
    screen[0 + 0 * 8] := colour;
    screen[7 + 0 * 8] := colour;
    screen[0 + 7 * 8] := colour;
    screen[7 + 7 * 8] := colour;
  }

  /** What getPlayerAction returns: no action, or a unit move, flagged when
      it was corrected to the opposite direction. */
  datatype Gesture = NoGesture | Gesture(correction: bool, x: int, y: int)

  /** The sign rule of getPlayerAction for the newest sample v: 1 if v > 0
      and -1 otherwise, reversed by a correction. */
  function Sign(v: real, reversed: bool): (s: int)
    ensures s == 1 || s == -1
    ensures (s == 1) == ((v > 0.0) != reversed)
  {
    if v > 0.0 then (if reversed then -1 else 1) else (if reversed then 1 else -1)
  }

  /** A corrected move is the opposite of the uncorrected one. */
  lemma CorrectionReverses(v: real)
    ensures Sign(v, true) == -Sign(v, false)
  {
  }

  /** A swing along one axis is corrected when the middle sample points the
      other way and is large enough on its own. */
  predicate Corrected(delta: real, middle: real)
    ensures Corrected(delta, middle) <==>
              (delta > 0.0 && middle <= -CorrectionLevel) || (delta < 0.0 && middle >= CorrectionLevel)
  {
    delta * middle < 0.0 && Abs(middle) >= CorrectionLevel
  }

  /** The decision of getPlayerAction on the sample windows after the
      newest samples were added and with the count of samples since the
      last action: with a full window and the cooldown over, the axis with
      the larger swing between the first and the newest sample acts if that
      swing reaches P_THRESHOLD_ACCEL_DELTA. */
  function Detect(xs: seq<real>, ys: seq<real>, sinceAction: int): (g: Gesture)
    requires |xs| == |ys| && |xs| > 0
    ensures g.Gesture? <==>
              |xs| == SampleCount && sinceAction > IgnoreCount &&
              (var dx := xs[|xs| - 1] - xs[0]; var dy := ys[|ys| - 1] - ys[0];
               if Abs(dx) > Abs(dy) then Abs(dx) >= AccelDelta else Abs(dy) >= AccelDelta)
    ensures g.Gesture? ==> UnitMove(g.x, g.y)
    ensures g.Gesture? ==>
              var dx := xs[|xs| - 1] - xs[0]; var dy := ys[|ys| - 1] - ys[0];
              if Abs(dx) > Abs(dy)
              then g.y == 0 && g.correction == Corrected(dx, xs[MiddleIndex]) && g.x == Sign(xs[|xs| - 1], g.correction)
              else g.x == 0 && g.correction == Corrected(dy, ys[MiddleIndex]) && g.y == Sign(ys[|ys| - 1], g.correction)
  {
    if |xs| == SampleCount && sinceAction > IgnoreCount then
      var dx := xs[SampleCount - 1] - xs[0];
      var dy := ys[SampleCount - 1] - ys[0];
      if Abs(dx) > Abs(dy) then
        if Abs(dx) >= AccelDelta then
          var c := Corrected(dx, xs[MiddleIndex]);
          Gesture(c, Sign(xs[SampleCount - 1], c), 0)
        else NoGesture
      else
        if Abs(dy) >= AccelDelta then
          var c := Corrected(dy, ys[MiddleIndex]);
          Gesture(c, 0, Sign(ys[SampleCount - 1], c))
        else NoGesture
    else NoGesture
  }

  /** A player move as getScoreOfABeat reads it. */
  datatype PlayerAction = PlayerAction(x: int, y: int, time: real)

  /** Python's round on a real: to the nearest integer, halves to even. */
  function Round(r: real): (n: int)
    ensures n as real - 0.5 <= r <= n as real + 0.5
  {
    var f := r.Floor;
    var frac := r - f as real;
    if frac < 0.5 then f
    else if frac > 0.5 then f + 1
    else if f % 2 == 0 then f else f + 1
  }

  /** Python's int(n / d) for a positive d: the quotient truncated toward
      zero (Dafny's / on int rounds toward minus infinity for n < 0). */
  function TruncDiv(n: int, d: int): (q: int)
    requires d > 0
    ensures n >= 0 ==> q * d <= n < q * d + d
    ensures n < 0 ==> q * d - d < n <= q * d
  {
    if n >= 0 then n / d else -((-n) / d)
  }

  /** The distance of getScoreOfABeat between a move at `time` and the
      model beat at `modelTime`, measured in the round of two model lengths
      that the nearest beat falls in. */
  function BeatDistance(time: real, modelTime: real): (delta: real)
    ensures delta >= 0.0
  {
    var beatPosition := Round(time / BeatTime);
    var playRound := TruncDiv(beatPosition - ModelBeatCount, ModelBeatCount * 2);
    Abs(time - (playRound as real) * BeatTime * (ModelBeatCount as real) * 2.0
             - BeatTime * (ModelBeatCount as real) - modelTime)
  }

  /** The score of a matching move at distance delta: 120 - 120 * delta / 0.25
      kept within 0..100, divided by the four beats. */
  function DistanceScore(delta: real): (s: real)
    requires delta >= 0.0
    ensures 0.0 <= s <= 25.0
    ensures delta * 480.0 <= 20.0 ==> s == 25.0
    ensures delta >= ScoreTime ==> s == 0.0
  {
    var raw := ScorePerfect - ScorePerfect * delta / ScoreTime;
    var capped := if raw > 100.0 then 100.0 else raw;
    var score := if capped < 0.0 then 0.0 else capped;
    score / (ModelBeatCount as real)
  }

  /** A move further from its beat never scores more. */
  lemma DistanceScoreMonotone(delta: real, delta': real)
    requires 0.0 <= delta <= delta'
    ensures DistanceScore(delta') <= DistanceScore(delta)
  {
  }

  /** getScoreOfABeat: a move in the direction of the model beat at
      `position` scores by its distance from that beat; any other move scores
      0. A beat is worth at most 100 / P_MODEL_BEAT_COUNT. */
  function BeatScore(models: seq<ModelBeat>, position: int, a: PlayerAction): (s: real)
    requires 0 <= position < |models|
    ensures 0.0 <= s <= 100.0 / (ModelBeatCount as real)
    ensures (a.x != models[position].x || a.y != models[position].y) ==> s == 0.0
    ensures a.x == models[position].x && a.y == models[position].y ==>
              s == DistanceScore(BeatDistance(a.time, models[position].time))
  {
    var m := models[position];
    if a.x == m.x && a.y == m.y then DistanceScore(BeatDistance(a.time, m.time)) else 0.0
  }

  /** A move exactly on its beat, in the right direction, scores the full
      quarter. */
  lemma OnBeatScoresFull(models: seq<ModelBeat>, position: int, a: PlayerAction)
    requires 0 <= position < |models|
    requires a.x == models[position].x && a.y == models[position].y
    requires BeatDistance(a.time, models[position].time) == 0.0
    ensures BeatScore(models, position, a) == 25.0
  {
  }

  /** The move run records for a gesture read at `duration`: timed at this
      frame, or, when corrected, at the frame of the middle sample. */
  function ActionOf(g: Gesture, duration: real, times: seq<real>): (action: Option<PlayerAction>)
    requires g.Gesture? ==> |times| == SampleCount
    ensures action.None? <==> g.NoGesture?
    ensures action.Some? ==> action.value.x == g.x && action.value.y == g.y
    ensures action.Some? ==> action.value.time == if g.correction then times[MiddleIndex] else duration
  {
    if g.Gesture? then
      Some(PlayerAction(g.x, g.y, if g.correction then times[MiddleIndex] else duration))
    else None
  }

  class Rhythm {
    var shouldExit: bool
    var accelerometerXArray: seq<real>
    var accelerometerYArray: seq<real>
    var timeArray: seq<real>
    /** How many samples ago the last action was taken. */
    var lastActionIndex: int

    constructor ()
      ensures Valid() && !shouldExit
      ensures accelerometerXArray == [] && accelerometerYArray == [] && timeArray == []
      ensures lastActionIndex == IgnoreCount
    {
      shouldExit := false;
      accelerometerXArray, accelerometerYArray, timeArray := [], [], [];
      lastActionIndex := IgnoreCount;
    }

    /** The sample windows hold at most five entries, one per frame, so each
        has as many as the frame times. */
    predicate Valid()
      reads this
    {
      |accelerometerXArray| == |accelerometerYArray| == |timeArray| <= SampleCount &&
      lastActionIndex >= 0
    }

    /** joystick_any: any release asks to exit. */
    method JoystickAny(e: StickEvent)
      modifies this`shouldExit
      ensures shouldExit == (old(shouldExit) || e.action == Released)
    {
      if e.action == Released {
        shouldExit := true;
      }
    }

    /** getPlayerAction with the raw accelerometer reading (ax, ay): both
        negated samples join their windows of five, the cooldown counter
        advances, and a gesture resets it. */
    method GetPlayerAction(ax: real, ay: real) returns (g: Gesture)
      requires |accelerometerXArray| == |accelerometerYArray| <= SampleCount
      modifies this`accelerometerXArray, this`accelerometerYArray, this`lastActionIndex
      ensures accelerometerXArray == BoundedAppend(old(accelerometerXArray), -ax, SampleCount)
      ensures accelerometerYArray == BoundedAppend(old(accelerometerYArray), -ay, SampleCount)
      ensures g == Detect(accelerometerXArray, accelerometerYArray, old(lastActionIndex) + 1)
      ensures lastActionIndex == if g.Gesture? then 0 else old(lastActionIndex) + 1
    {
      accelerometerXArray := BoundedAppend(accelerometerXArray, -ax, SampleCount);
      accelerometerYArray := BoundedAppend(accelerometerYArray, -ay, SampleCount);
      lastActionIndex := lastActionIndex + 1;
      g := Detect(accelerometerXArray, accelerometerYArray, lastActionIndex);
      if g.Gesture? {
        lastActionIndex := 0;
      }
    }

    /** The player part of one frame of run at `duration` seconds: the frame
        time joins its window, then the gesture is read. A full sample window
        means a full time window, so a corrected move can always take the
        middle sample's time. */
    method PlayerStep(duration: real, ax: real, ay: real) returns (action: Option<PlayerAction>)
      requires Valid()
      modifies this`accelerometerXArray, this`accelerometerYArray, this`lastActionIndex, this`timeArray
      ensures Valid()
      ensures timeArray == BoundedAppend(old(timeArray), duration, SampleCount)
      ensures accelerometerXArray == BoundedAppend(old(accelerometerXArray), -ax, SampleCount)
      ensures accelerometerYArray == BoundedAppend(old(accelerometerYArray), -ay, SampleCount)
      ensures action == ActionOf(Detect(accelerometerXArray, accelerometerYArray, old(lastActionIndex) + 1), duration, timeArray)
      ensures action.Some? ==> old(lastActionIndex) >= IgnoreCount && lastActionIndex == 0
      ensures action.None? ==> lastActionIndex == old(lastActionIndex) + 1
    {
      timeArray := BoundedAppend(timeArray, duration, SampleCount);
      var g := GetPlayerAction(ax, ay);
      action := ActionOf(g, duration, timeArray);
    }
  }
}
