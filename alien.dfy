/** The human-or-alien game of alien.py: breathing on the board raises the
    temperature and the humidity above their recent means; when their rise
    is large enough the board "analyses" and shows the verdict chosen in
    secret with the joystick. */
module AlienGame {
  import opened Hat
  import opened History

  const Interval: real := 0.1
  const Duration: real := 3.0
  /** P_THRESHOLD for the product of the two rises. */
  const Threshold: real := 0.17
  /** dataCount, Duration / Interval = 30 readings. */
  const DataCount: real := 30.0
  /** The history cap it implies. */
  const DataCap: nat := 30

  lemma DataCapIsLimit(n: nat)
    ensures DataCount == Duration / Interval
    ensures n as real > DataCount <==> n > DataCap
  {
    ExceedsFloor(n, DataCount);
  }

  /** The verdict shown at the next detection (HUMAN = 0, ALIEN = 1). */
  datatype Detection = DetectHuman | DetectAlien

  /** toggleDetection on the verdict. */
  function Toggled(d: Detection): (d': Detection)
    ensures d' != d
  {
    if d == DetectHuman then DetectAlien else DetectHuman
  }

  /** Toggling twice restores the verdict. */
  lemma ToggleTwice(d: Detection)
    ensures Toggled(Toggled(d)) == d
  {
  }

  /** The rule of run: the product of the two rises, or 0 unless both
      readings rose above their means. */
  function RiseProduct(tDelta: real, hDelta: real): (m: real)
    ensures m >= 0.0
    ensures m > 0.0 <==> tDelta > 0.0 && hDelta > 0.0
    ensures tDelta > 0.0 && hDelta > 0.0 ==> m == tDelta * hDelta
  {
    if tDelta <= 0.0 || hDelta <= 0.0 then 0.0 else tDelta * hDelta
  }

  /** Removing the newest entry after an append leaves a suffix of the old
      history: the reading that triggered a detection does not stay in it. */
  lemma PopLeavesOldSuffix(h: seq<real>, x: real, cap: nat)
    requires 1 <= cap
    ensures var r := BoundedAppend(h, x, cap);
            r[..|r| - 1] == h[|h| + 1 - |r|..]
  {
    var r := BoundedAppend(h, x, cap);
    assert r == (h + [x])[|h| + 1 - |r|..];
    assert forall i :: 0 <= i < |r| - 1 ==> r[i] == h[|h| + 1 - |r| + i];
  }

  /** normal_screens[0], a red ring on white, one character per cell row by
      row: 'R' red, 'W' white. */
  const NormalPattern: string :=
    "WWWRRWWW" + "WWRWWRWW" + "WRWWWWRW" + "RWWRRWWR" +
    "RWWRRWWR" + "WRWWWWRW" + "WWRWWRWW" + "WWWRRWWW"

  function PatternPixel(c: char): Colour
  {
    if c == 'R' then Red else White
  }

  const NormalScreen: Screen := seq(ScreenSize, i requires 0 <= i < ScreenSize => PatternPixel(NormalPattern[i]))

  /** The recolour of showAnalyzingScreen on a copy of `screen0`: every white
      cell becomes yellow and every other cell keeps its colour. */
  method AnalyzingScreen(screen0: Screen) returns (screen1: Screen)
    ensures forall i :: 0 <= i < ScreenSize ==>
              screen1[i] == if screen0[i] == White then Yellow else screen0[i]
    ensures forall i :: 0 <= i < ScreenSize ==> screen1[i] != White
  {
    screen1 := screen0;
    for i := 0 to ScreenSize
      invariant forall k :: 0 <= k < i ==> screen1[k] == if screen0[k] == White then Yellow else screen0[k]
      invariant forall k :: i <= k < ScreenSize ==> screen1[k] == screen0[k]
    {
      if screen1[i] == White {
        screen1 := screen1[i := Yellow];
      }
    }
  }

  class Alien {
    var shouldExit: bool
    var nextDetection: Detection
    var temperatureArray: seq<real>
    var humidityArray: seq<real>

    constructor ()
      ensures Valid() && !shouldExit && nextDetection == DetectHuman
      ensures temperatureArray == [] && humidityArray == []
    {
      shouldExit := false;
      nextDetection := DetectHuman;
      temperatureArray, humidityArray := [], [];
    }

    predicate Valid()
      reads this
    {
      |temperatureArray| <= DataCap && |humidityArray| <= DataCap
    }

    /** joystick_any: releasing the middle button exits, releasing any other
        direction toggles the verdict, and nothing else has an effect. */
    method JoystickAny(e: StickEvent)
      modifies this`shouldExit, this`nextDetection
      ensures shouldExit == (old(shouldExit) || (e.action == Released && e.direction == Middle))
      ensures nextDetection ==
                if e.action == Released && e.direction != Middle then Toggled(old(nextDetection))
                else old(nextDetection)
    {
      if e.action == Released {
        if e.direction == Middle {
          shouldExit := true;
        } else {
          ToggleDetection();
        }
      }
    }

    method ToggleDetection()
      modifies this`nextDetection
      ensures nextDetection == Toggled(old(nextDetection))
    {
      nextDetection := if nextDetection == DetectHuman then DetectAlien else DetectHuman;
    }

    /** getLatestTemperature with the reading `t` as argument. */
    method LatestTemperature(t: real) returns (t': real)
      requires |temperatureArray| <= DataCap
      modifies this`temperatureArray
      ensures t' == t
      ensures temperatureArray == BoundedAppend(old(temperatureArray), t, DataCap)
      ensures |temperatureArray| <= DataCap && temperatureArray[|temperatureArray| - 1] == t
    {
      temperatureArray := temperatureArray + [t];
      if |temperatureArray| > DataCap {
        temperatureArray := temperatureArray[1..];
      }
      t' := t;
    }

    /** getLatestHumidity with the reading `h` as argument. */
    method LatestHumidity(h: real) returns (h': real)
      requires |humidityArray| <= DataCap
      modifies this`humidityArray
      ensures h' == h
      ensures humidityArray == BoundedAppend(old(humidityArray), h, DataCap)
      ensures |humidityArray| <= DataCap && humidityArray[|humidityArray| - 1] == h
    {
      humidityArray := humidityArray + [h];
      if |humidityArray| > DataCap {
        humidityArray := humidityArray[1..];
      }
      h' := h;
    }

    /** One pass of run with the readings (t, h): each joins its history and
        is compared with the history's mean; when the product of the rises
        exceeds the threshold the newest temperature is taken out again and
        a detection follows. */
    method Step(t: real, h: real) returns (detected: bool)
      requires Valid()
      modifies this`temperatureArray, this`humidityArray
      ensures Valid()
      ensures humidityArray == BoundedAppend(old(humidityArray), h, DataCap)
      ensures detected ==
                (RiseProduct(t - Mean(BoundedAppend(old(temperatureArray), t, DataCap)),
                             h - Mean(humidityArray)) > Threshold)
      ensures var ts := BoundedAppend(old(temperatureArray), t, DataCap);
              temperatureArray == if detected then ts[..|ts| - 1] else ts
      ensures detected ==> t > Mean(BoundedAppend(old(temperatureArray), t, DataCap)) && h > Mean(humidityArray)
    {
      var t' := LatestTemperature(t);
      var ts := temperatureArray;
      var tDelta := t' - Mean(ts);
      var h' := LatestHumidity(h);
      var hDelta := h' - Mean(humidityArray);
      var multiple := RiseProduct(tDelta, hDelta);
      detected := multiple > Threshold;
      if detected {
        temperatureArray := ts[..|ts| - 1];
      }
    }

    /** The blinking of showAnalyzingScreen: five frames half a second
        apart, alternating between the recoloured and the normal screen and
        starting with the recoloured one; none once exit was asked for. */
    method ShowAnalyzingScreen() returns (frames: seq<Screen>)
      ensures |frames| == if shouldExit then 0 else 5
      ensures forall k :: 0 <= k < |frames| ==>
                forall i :: 0 <= i < ScreenSize ==>
                  frames[k][i] == if k % 2 == 0 && NormalScreen[i] == White then Yellow else NormalScreen[i]
      ensures forall k, i :: 0 <= k < |frames| && 0 <= i < ScreenSize ==>
                frames[k][i] in {White, Red, Yellow}
    {
      var screen0 := NormalScreen;
      var screen1 := AnalyzingScreen(screen0);
      frames := [];
      var count := 5;
      while count > 0 && !shouldExit
        invariant 0 <= count <= 5
        invariant |frames| == 5 - count
        invariant shouldExit ==> count == 5
        invariant forall k :: 0 <= k < |frames| ==> frames[k] == if k % 2 == 0 then screen1 else screen0
      {
        if count % 2 == 1 {
          frames := frames + [screen1];
        } else {
          frames := frames + [screen0];
        }
        count := count - 1;
      }
    }

    /** The history part of showDetection: every reading taken while the
        verdict is on screen joins its history the same way. */
    method FeedDetection(ts: seq<real>, hs: seq<real>)
      requires Valid() && |ts| == |hs|
      modifies this`temperatureArray, this`humidityArray
      ensures Valid()
      ensures temperatureArray == AppendAll(old(temperatureArray), ts, DataCap)
      ensures humidityArray == AppendAll(old(humidityArray), hs, DataCap)
    {
      for i := 0 to |ts|
        invariant Valid()
        invariant temperatureArray == AppendAll(old(temperatureArray), ts[..i], DataCap)
        invariant humidityArray == AppendAll(old(humidityArray), hs[..i], DataCap)
      {
        assert ts[..i + 1][..i] == ts[..i];
        assert hs[..i + 1][..i] == hs[..i];
        var t := LatestTemperature(ts[i]);
        var h := LatestHumidity(hs[i]);
      }
      assert ts[..|ts|] == ts;
      assert hs[..|hs|] == hs;
    }
  }

  /** The history `h` after the readings `xs`, oldest first. */
  function AppendAll(h: seq<real>, xs: seq<real>, cap: nat): seq<real>
    requires 1 <= cap
  {
    if xs == [] then h else BoundedAppend(AppendAll(h, xs[..|xs| - 1], cap), xs[|xs| - 1], cap)
  }

  /** Fed from empty, that is a history of the newest readings; fed from
      any history within the cap, it stays within the cap and ends with the
      newest reading. */
  lemma {:induction false} AppendAllBounded(h: seq<real>, xs: seq<real>, cap: nat)
    requires 1 <= cap && |h| <= cap
    ensures |AppendAll(h, xs, cap)| <= cap
    ensures xs != [] ==> AppendAll(h, xs, cap)[|AppendAll(h, xs, cap)| - 1] == xs[|xs| - 1]
    ensures h == [] ==> AppendAll(h, xs, cap) == Replay(xs, cap)
  {
    if xs != [] {
      AppendAllBounded(h, xs[..|xs| - 1], cap);
    }
  }
}
