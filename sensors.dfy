/** The sensor bar graphs of sensors.py: each frame every sensor's latest
    reading is compared with the mean of its recent history, the distance
    becomes a level 0..7, and row k of the screen shows sensor k's level as
    a bar together with a dimmed marker at its recent maximum, which is
    held for a few frames. */
module Sensors {
  import opened Hat
  import opened History

  /** A recent maximum is held for this many lower readings. */
  const StayMaxCount := 6
  const FrameTime: real := 0.16
  const Duration: real := 3.0
  /** dataCount, Duration / FrameTime = 18.75 readings. */
  const DataCount: real := 18.75
  /** The history cap it implies: a history longer than 18.75 is longer than 18. */
  const DataCap: nat := 18

  lemma DataCapIsLimit(n: nat)
    ensures DataCount == Duration / FrameTime
    ensures n as real > DataCount <==> n > DataCap
  {
    ExceedsFloor(n, DataCount);
  }

  /** Sensitivities: level per unit of distance from the mean. */
  const SensitiveTemp: real := 7.0 / 0.7
  const SensitiveHumidity: real := 7.0 / 5.5
  const SensitiveMagnet: real := 7.0 / 100.0
  const SensitiveOrient: real := 7.0 / 1.1
  const SensitiveAccel: real := 7.0 / 1.5
  const SensitivePressure: real := 7.0 / 13.0

  /** Bar colours, one per sensor. */
  const Temperature := Colour(255, 130, 147)
  const Humidity := Green
  const Magnetometer := Yellow
  const Orientation := Blue
  const Accelerometer := Red
  const Pressure := Cyan

  /** A colour whose channels are 0..255. */
  predicate IsRgb(c: Colour)
  {
    0 <= c.r <= 255 && 0 <= c.g <= 255 && 0 <= c.b <= 255
  }

  /** The colour with each channel divided by three, truncated. */
  function Dim(c: Colour): (d: Colour)
    requires IsRgb(c)
    ensures IsRgb(d) && (d == c <==> c == Black)
  {
    Colour(c.r / 3, c.g / 3, c.b / 3)
  }

  /** getRowPixelsOfLevel: one row of 8 cells, `colour` on cells 0..level
      and black beyond, except that the cell of a recent maximum above the
      level shows the dimmed colour. */
  function RowPixelsOfLevel(level: int, max: int, colour: Colour): (pixels: seq<Colour>)
    requires 0 <= level <= 7 && 0 <= max <= 7 && IsRgb(colour)
    ensures |pixels| == 8
    ensures forall i :: 0 <= i < 8 ==>
              pixels[i] == if max > level && i == max then Dim(colour) else if i <= level then colour else Black
  {
    var pixels := seq(8, i => if i <= level then colour else Black);
    if max > level then pixels[max := Dim(colour)] else pixels
  }

  /** A colour with a channel of at least 3, so that dimming it does not
      give black. */
  predicate Bright(c: Colour)
  {
    3 <= c.r || 3 <= c.g || 3 <= c.b
  }

  /** The bar can be read back: for a bright colour the cells in `colour`
      are exactly 0..level (so the leftmost cell is always lit), and a
      dimmed cell appears exactly at a maximum above the level. */
  lemma RowShowsLevel(level: int, max: int, colour: Colour)
    requires 0 <= level <= 7 && 0 <= max <= 7 && IsRgb(colour) && Bright(colour)
    ensures var pixels := RowPixelsOfLevel(level, max, colour);
            pixels[0] == colour &&
            (forall i :: 0 <= i < 8 ==> (pixels[i] == colour <==> i <= level)) &&
            (forall i :: 0 <= i < 8 ==> (pixels[i] == Dim(colour) <==> max > level && i == max))
  {
  }

  function Abs(x: real): real
  {
    if x < 0.0 then -x else x
  }

  /** min(int(delta * k), 7) for a distance delta >= 0. */
  function LevelOf(delta: real, k: real): (level: int)
    requires 0.0 <= delta && 0.0 < k
    ensures 0 <= level <= 7
  {
    var l := (delta * k).Floor;
    if l < 7 then l else 7
  }

  /** A level below 7 is the integer part of the scaled distance, and a
      scaled distance of 7 or more gives level 7. */
  lemma LevelOfFloor(delta: real, k: real)
    requires 0.0 <= delta && 0.0 < k
    ensures var level := LevelOf(delta, k);
            (level < 7 ==> level as real <= delta * k < level as real + 1.0) &&
            (7.0 <= delta * k ==> level == 7)
  {
  }

  /** A recent maximum: its level and how many lower readings it has
      survived. */
  datatype RecentMax = RecentMax(level: int, count: int)

  predicate RecentMaxValid(m: RecentMax)
  {
    0 <= m.level <= 7 && 0 <= m.count <= StayMaxCount
  }

  /** The recent-max rule of the getLatest*Level methods: a reading at or
      above the maximum becomes the new maximum; a lower one is counted if
      the maximum has survived fewer than StayMaxCount of them, and
      otherwise replaces it. */
  function UpdateRecentMax(m: RecentMax, level: int): (m': RecentMax)
    ensures level <= m'.level
    ensures RecentMaxValid(m) && 0 <= level <= 7 ==> RecentMaxValid(m')
    ensures m'.level == level || (m'.level == m.level && m'.count == m.count + 1)
  {
    if level >= m.level then RecentMax(level, 0)
    else if m.count < StayMaxCount then RecentMax(m.level, m.count + 1)
    else RecentMax(level, 0)
  }

  /** The recent maximum after the readings `levels`, oldest first. */
  function ReplayMax(m: RecentMax, levels: seq<int>): RecentMax
    decreases |levels|
  {
    if levels == [] then m else ReplayMax(UpdateRecentMax(m, levels[0]), levels[1..])
  }

  /** A maximum survives lower readings while it has survived at most
      StayMaxCount of them, and only counts them. */
  lemma {:induction false} HoldLasts(m: RecentMax, levels: seq<int>)
    requires 0 <= m.count && m.count + |levels| <= StayMaxCount
    requires forall i :: 0 <= i < |levels| ==> levels[i] < m.level
    ensures ReplayMax(m, levels) == RecentMax(m.level, m.count + |levels|)
    decreases |levels|
  {
    if levels != [] {
      HoldLasts(RecentMax(m.level, m.count + 1), levels[1..]);
    }
  }

  /** A new maximum held through StayMaxCount lower readings is dropped by the
      next lower reading, which becomes the maximum. */
  lemma HoldExpires(level: int, levels: seq<int>, last: int)
    requires |levels| == StayMaxCount && last < level
    requires forall i :: 0 <= i < |levels| ==> levels[i] < level
    ensures ReplayMax(RecentMax(level, 0), levels + [last]) == RecentMax(last, 0)
  {
    ReplayLast(RecentMax(level, 0), levels, last);
    HoldLasts(RecentMax(level, 0), levels);
  }

  /** Replaying one more reading is one more update. */
  lemma {:induction false} ReplayLast(m: RecentMax, levels: seq<int>, last: int)
    ensures ReplayMax(m, levels + [last]) == UpdateRecentMax(ReplayMax(m, levels), last)
    decreases |levels|
  {
    if levels != [] {
      assert (levels + [last])[1..] == levels[1..] + [last];
      ReplayLast(UpdateRecentMax(m, levels[0]), levels[1..], last);
    } else {
      assert (levels + [last])[1..] == [];
    }
  }

  /** The distance of the newest reading of a history from its mean. */
  function Delta(h: seq<real>): (d: real)
    requires |h| > 0
    ensures d >= 0.0
  {
    Abs(h[|h| - 1] - Mean(h))
  }

  /** The newest reading lies within the spread of the history around its
      mean, and a steady history shows no delta. */
  lemma DeltaWithin(h: seq<real>, lo: real, hi: real)
    requires |h| > 0 && forall k :: 0 <= k < |h| ==> lo <= h[k] <= hi
    ensures Delta(h) <= hi - lo
    ensures lo == hi ==> Delta(h) == 0.0
  {
    MeanWithin(h, lo, hi);
  }

  /** One reading of every sensor, as the model receives it: the orientation
      angles after math.sin, and the magnetic and acceleration vectors as
      their lengths. */
  datatype Readings = Readings(
    temperature: real, humidity: real, magnet: real,
    pitch: real, roll: real, yaw: real,
    accel: real, pressure: real)

  /** Row `row` of `s` replaced by `pixels`: screen[row * 8 : row * 8 + 8] = pixels. */
  method PutRow(s: Screen, row: int, pixels: seq<Colour>) returns (s': Screen)
    requires 0 <= row < 8 && |pixels| == 8
    ensures forall j, i :: 0 <= j < 8 && 0 <= i < 8 ==> s'[At(i, j)] == if j == row then pixels[i] else s[At(i, j)]
  {
    s' := s[..row * 8] + pixels + s[row * 8 + 8..];
  }

  /** The level of a history's newest reading for sensitivity k. */
  function Level(h: seq<real>, k: real): (level: int)
    requires |h| > 0 && 0.0 < k
    ensures 0 <= level <= 7
  {
    LevelOf(Delta(h), k)
  }

  /** The orientation level: the largest of the three angles' distances. */
  function OrientationLevel(p: seq<real>, r: seq<real>, y: seq<real>): (level: int)
    requires |p| > 0 && |r| > 0 && |y| > 0
    ensures 0 <= level <= 7
  {
    LevelOf(Max3(Delta(p), Delta(r), Delta(y)), SensitiveOrient)
  }

  /** The body shared by getLatestTemperatureLevel, -Humidity-, -Magnetometer-,
      -Accelerometer- and -PressureLevel: the reading joins the history,
      its level is taken, and the recent maximum is updated. */
  method Observe(h: seq<real>, x: real, m: RecentMax, k: real) returns (h': seq<real>, level: int, m': RecentMax)
    requires |h| <= DataCap && RecentMaxValid(m) && 0.0 < k
    ensures h' == BoundedAppend(h, x, DataCap) && |h'| <= DataCap
    ensures level == Level(h', k) && 0 <= level <= 7
    ensures m' == UpdateRecentMax(m, level) && RecentMaxValid(m') && level <= m'.level
  {
    h' := BoundedAppend(h, x, DataCap);
    level := Level(h', k);
    m' := UpdateRecentMax(m, level);
  }

  /** getLatestOrientationLevel: one history per angle. */
  method ObserveOrientation(p: seq<real>, r: seq<real>, y: seq<real>, xp: real, xr: real, xy: real, m: RecentMax)
    returns (p': seq<real>, r': seq<real>, y': seq<real>, level: int, m': RecentMax)
    requires |p| <= DataCap && |r| <= DataCap && |y| <= DataCap && RecentMaxValid(m)
    ensures p' == BoundedAppend(p, xp, DataCap) && |p'| <= DataCap
    ensures r' == BoundedAppend(r, xr, DataCap) && |r'| <= DataCap
    ensures y' == BoundedAppend(y, xy, DataCap) && |y'| <= DataCap
    ensures level == OrientationLevel(p', r', y') && 0 <= level <= 7
    ensures m' == UpdateRecentMax(m, level) && RecentMaxValid(m') && level <= m'.level
  {
    p' := BoundedAppend(p, xp, DataCap);
    r' := BoundedAppend(r, xr, DataCap);
    y' := BoundedAppend(y, xy, DataCap);
    level := OrientationLevel(p', r', y');
    m' := UpdateRecentMax(m, level);
  }

  class Sensors {
    var shouldExit: bool
    var temperatureArray: seq<real>
    var humidityArray: seq<real>
    var magnetometerArray: seq<real>
    var orientationPArray: seq<real>
    var orientationRArray: seq<real>
    var orientationYArray: seq<real>
    var accelerometerArray: seq<real>
    var pressureArray: seq<real>
    var temperatureRecentMax: RecentMax
    var humidityRecentMax: RecentMax
    var magnetometerRecentMax: RecentMax
    var orientationRecentMax: RecentMax
    var accelerometerRecentMax: RecentMax
    var pressureRecentMax: RecentMax

    constructor ()
      ensures Valid() && !shouldExit
      ensures temperatureArray == humidityArray == magnetometerArray == [] &&
              orientationPArray == orientationRArray == orientationYArray == [] &&
              accelerometerArray == pressureArray == []
      ensures temperatureRecentMax == humidityRecentMax == magnetometerRecentMax ==
              orientationRecentMax == accelerometerRecentMax == pressureRecentMax == RecentMax(0, 0)
    {
      shouldExit := false;
      temperatureArray, humidityArray, magnetometerArray := [], [], [];
      orientationPArray, orientationRArray, orientationYArray := [], [], [];
      accelerometerArray, pressureArray := [], [];
      temperatureRecentMax, humidityRecentMax, magnetometerRecentMax := RecentMax(0, 0), RecentMax(0, 0), RecentMax(0, 0);
      orientationRecentMax, accelerometerRecentMax, pressureRecentMax := RecentMax(0, 0), RecentMax(0, 0), RecentMax(0, 0);
    }

    /** Every history is within its length limit and every recent maximum
        is a level whose count is within StayMaxCount. */
    predicate Valid()
      reads this
    {
      |temperatureArray| <= DataCap && |humidityArray| <= DataCap &&
      |magnetometerArray| <= DataCap && |orientationPArray| <= DataCap &&
      |orientationRArray| <= DataCap && |orientationYArray| <= DataCap &&
      |accelerometerArray| <= DataCap && |pressureArray| <= DataCap &&
      RecentMaxValid(temperatureRecentMax) && RecentMaxValid(humidityRecentMax) &&
      RecentMaxValid(magnetometerRecentMax) && RecentMaxValid(orientationRecentMax) &&
      RecentMaxValid(accelerometerRecentMax) && RecentMaxValid(pressureRecentMax)
    }

    /** joystick_any: any release asks to exit. */
    method JoystickAny(e: StickEvent)
      modifies this`shouldExit
      ensures shouldExit == (old(shouldExit) || e.action == Released)
    {
      if e.action == Released {
        shouldExit := true;
      }
    }

    /** getLatestTemperatureLevel. */
    method LatestTemperatureLevel(x: real) returns (level: int)
      requires |temperatureArray| <= DataCap && RecentMaxValid(temperatureRecentMax)
      modifies this`temperatureArray, this`temperatureRecentMax
      ensures temperatureArray == BoundedAppend(old(temperatureArray), x, DataCap) && |temperatureArray| <= DataCap
      ensures level == Level(temperatureArray, SensitiveTemp) && 0 <= level <= 7
      ensures temperatureRecentMax == UpdateRecentMax(old(temperatureRecentMax), level) && RecentMaxValid(temperatureRecentMax)
    {
      temperatureArray, level, temperatureRecentMax := Observe(temperatureArray, x, temperatureRecentMax, SensitiveTemp);
    }

    /** getLatestHumidityLevel. */
    method LatestHumidityLevel(x: real) returns (level: int)
      requires |humidityArray| <= DataCap && RecentMaxValid(humidityRecentMax)
      modifies this`humidityArray, this`humidityRecentMax
      ensures humidityArray == BoundedAppend(old(humidityArray), x, DataCap) && |humidityArray| <= DataCap
      ensures level == Level(humidityArray, SensitiveHumidity) && 0 <= level <= 7
      ensures humidityRecentMax == UpdateRecentMax(old(humidityRecentMax), level) && RecentMaxValid(humidityRecentMax)
    {
      humidityArray, level, humidityRecentMax := Observe(humidityArray, x, humidityRecentMax, SensitiveHumidity);
    }

    /** getLatestMagnetometerLevel, on the length of the magnetic vector. */
    method LatestMagnetometerLevel(x: real) returns (level: int)
      requires |magnetometerArray| <= DataCap && RecentMaxValid(magnetometerRecentMax)
      modifies this`magnetometerArray, this`magnetometerRecentMax
      ensures magnetometerArray == BoundedAppend(old(magnetometerArray), x, DataCap) && |magnetometerArray| <= DataCap
      ensures level == Level(magnetometerArray, SensitiveMagnet) && 0 <= level <= 7
      ensures magnetometerRecentMax == UpdateRecentMax(old(magnetometerRecentMax), level) && RecentMaxValid(magnetometerRecentMax)
    {
      magnetometerArray, level, magnetometerRecentMax := Observe(magnetometerArray, x, magnetometerRecentMax, SensitiveMagnet);
    }

    /** getLatestOrientationLevel, on the sines of pitch, roll and yaw. */
    method LatestOrientationLevel(xp: real, xr: real, xy: real) returns (level: int)
      requires |orientationPArray| <= DataCap && |orientationRArray| <= DataCap && |orientationYArray| <= DataCap
      requires RecentMaxValid(orientationRecentMax)
      modifies this`orientationPArray, this`orientationRArray, this`orientationYArray, this`orientationRecentMax
      ensures orientationPArray == BoundedAppend(old(orientationPArray), xp, DataCap) && |orientationPArray| <= DataCap
      ensures orientationRArray == BoundedAppend(old(orientationRArray), xr, DataCap) && |orientationRArray| <= DataCap
      ensures orientationYArray == BoundedAppend(old(orientationYArray), xy, DataCap) && |orientationYArray| <= DataCap
      ensures level == OrientationLevel(orientationPArray, orientationRArray, orientationYArray) && 0 <= level <= 7
      ensures orientationRecentMax == UpdateRecentMax(old(orientationRecentMax), level) && RecentMaxValid(orientationRecentMax)
    {
      orientationPArray, orientationRArray, orientationYArray, level, orientationRecentMax :=
        ObserveOrientation(orientationPArray, orientationRArray, orientationYArray, xp, xr, xy, orientationRecentMax);
    }

    /** getLatestAccelerometerLevel, on the length of the acceleration vector. */
    method LatestAccelerometerLevel(x: real) returns (level: int)
      requires |accelerometerArray| <= DataCap && RecentMaxValid(accelerometerRecentMax)
      modifies this`accelerometerArray, this`accelerometerRecentMax
      ensures accelerometerArray == BoundedAppend(old(accelerometerArray), x, DataCap) && |accelerometerArray| <= DataCap
      ensures level == Level(accelerometerArray, SensitiveAccel) && 0 <= level <= 7
      ensures accelerometerRecentMax == UpdateRecentMax(old(accelerometerRecentMax), level) && RecentMaxValid(accelerometerRecentMax)
    {
      accelerometerArray, level, accelerometerRecentMax := Observe(accelerometerArray, x, accelerometerRecentMax, SensitiveAccel);
    }

    /** getLatestPressureLevel. */
    method LatestPressureLevel(x: real) returns (level: int)
      requires |pressureArray| <= DataCap && RecentMaxValid(pressureRecentMax)
      modifies this`pressureArray, this`pressureRecentMax
      ensures pressureArray == BoundedAppend(old(pressureArray), x, DataCap) && |pressureArray| <= DataCap
      ensures level == Level(pressureArray, SensitivePressure) && 0 <= level <= 7
      ensures pressureRecentMax == UpdateRecentMax(old(pressureRecentMax), level) && RecentMaxValid(pressureRecentMax)
    {
      pressureArray, level, pressureRecentMax := Observe(pressureArray, x, pressureRecentMax, SensitivePressure);
    }

    /** The state after one round of getLatest*Level calls on readings `r`
        that returned `levels`: every history has had its reading appended
        (dropping the oldest beyond DataCap), every level is that of its
        history's newest reading, and every recent maximum has seen its level. */
    twostate predicate Observed(r: Readings, levels: seq<int>)
      reads this
    {
      |levels| == 6 &&
      temperatureArray == BoundedAppend(old(temperatureArray), r.temperature, DataCap) &&
      humidityArray == BoundedAppend(old(humidityArray), r.humidity, DataCap) &&
      magnetometerArray == BoundedAppend(old(magnetometerArray), r.magnet, DataCap) &&
      orientationPArray == BoundedAppend(old(orientationPArray), r.pitch, DataCap) &&
      orientationRArray == BoundedAppend(old(orientationRArray), r.roll, DataCap) &&
      orientationYArray == BoundedAppend(old(orientationYArray), r.yaw, DataCap) &&
      accelerometerArray == BoundedAppend(old(accelerometerArray), r.accel, DataCap) &&
      pressureArray == BoundedAppend(old(pressureArray), r.pressure, DataCap) &&
      levels[0] == Level(temperatureArray, SensitiveTemp) &&
      levels[1] == Level(humidityArray, SensitiveHumidity) &&
      levels[2] == Level(magnetometerArray, SensitiveMagnet) &&
      levels[3] == OrientationLevel(orientationPArray, orientationRArray, orientationYArray) &&
      levels[4] == Level(accelerometerArray, SensitiveAccel) &&
      levels[5] == Level(pressureArray, SensitivePressure) &&
      temperatureRecentMax == UpdateRecentMax(old(temperatureRecentMax), levels[0]) &&
      humidityRecentMax == UpdateRecentMax(old(humidityRecentMax), levels[1]) &&
      magnetometerRecentMax == UpdateRecentMax(old(magnetometerRecentMax), levels[2]) &&
      orientationRecentMax == UpdateRecentMax(old(orientationRecentMax), levels[3]) &&
      accelerometerRecentMax == UpdateRecentMax(old(accelerometerRecentMax), levels[4]) &&
      pressureRecentMax == UpdateRecentMax(old(pressureRecentMax), levels[5])
    }

    /** The recent maximum levels in display order. */
    function MaxLevels(): (maxes: seq<int>)
      reads this
      ensures |maxes| == 6
    {
      [temperatureRecentMax.level, humidityRecentMax.level, magnetometerRecentMax.level,
       orientationRecentMax.level, accelerometerRecentMax.level, pressureRecentMax.level]
    }

    /** The six getLatest*Level calls of getSensorDataAndDisplay, in
        display order (temperature, humidity, magnetometer, orientation,
        accelerometer, pressure). */
    method LatestLevels(r: Readings) returns (levels: seq<int>)
      requires Valid()
      modifies this
      ensures Valid() && shouldExit == old(shouldExit) && |levels| == 6
      ensures Observed(r, levels)
    {
      var t := LatestTemperatureLevel(r.temperature);
      var h := LatestHumidityLevel(r.humidity);
      var m := LatestMagnetometerLevel(r.magnet);
      var o := LatestOrientationLevel(r.pitch, r.roll, r.yaw);
      var a := LatestAccelerometerLevel(r.accel);
      var p := LatestPressureLevel(r.pressure);
      levels := [t, h, m, o, a, p];
    }

    /** getSensorDataAndDisplay: every sensor is read and its history and
        recent maximum updated; rows 0 and 7 stay black and row k + 1 shows
        sensor k's bar in display order, with its recent maximum (read after
        the update) when `showActualData` holds, and level 0 with no marker
        otherwise. */
    method SensorDataAndDisplay(r: Readings, showActualData: bool) returns (screen: Screen, levels: seq<int>)
      requires Valid()
      modifies this
      ensures Valid() && shouldExit == old(shouldExit)
      ensures Observed(r, levels)
      ensures forall k :: 0 <= k < 6 ==> 0 <= levels[k] <= MaxLevels()[k] <= 7
      ensures forall i :: 0 <= i < 8 ==> screen[At(i, 0)] == Black && screen[At(i, 7)] == Black
      ensures forall k, i :: 0 <= k < 6 && 0 <= i < 8 ==>
                screen[At(i, k + 1)] ==
                  if showActualData then RowPixelsOfLevel(levels[k], MaxLevels()[k], BarColour(k))[i]
                  else RowPixelsOfLevel(0, 0, BarColour(k))[i]
    {
      levels := LatestLevels(r);
      screen := DrawBars(levels, MaxLevels(), showActualData);
    }
  }

  /** The drawing half of getSensorDataAndDisplay: rows 0 and 7 black, row
      k + 1 the bar of levels[k] with its recent maximum maxes[k] when
      `showActualData` holds, and level 0 with no marker otherwise. */
  method DrawBars(levels: seq<int>, maxes: seq<int>, showActualData: bool) returns (screen: Screen)
    requires |levels| == 6 && |maxes| == 6
    requires forall k :: 0 <= k < 6 ==> 0 <= levels[k] <= 7 && 0 <= maxes[k] <= 7
    ensures forall i :: 0 <= i < 8 ==> screen[At(i, 0)] == Black && screen[At(i, 7)] == Black
    ensures forall k, i :: 0 <= k < 6 && 0 <= i < 8 ==>
              screen[At(i, k + 1)] ==
                if showActualData then RowPixelsOfLevel(levels[k], maxes[k], BarColour(k))[i]
                else RowPixelsOfLevel(0, 0, BarColour(k))[i]
  {
    screen := Filled(Black);
    var k := 0;
    while k < 6
      invariant 0 <= k <= 6
      invariant forall i :: 0 <= i < 8 ==> screen[At(i, 0)] == Black && screen[At(i, 7)] == Black
      invariant forall j, i :: k + 1 <= j < 7 && 0 <= i < 8 ==> screen[At(i, j)] == Black
      invariant forall j, i :: 0 <= j < k && 0 <= i < 8 ==>
                  screen[At(i, j + 1)] ==
                    if showActualData then RowPixelsOfLevel(levels[j], maxes[j], BarColour(j))[i]
                    else RowPixelsOfLevel(0, 0, BarColour(j))[i]
    {
      var pixels := if showActualData then RowPixelsOfLevel(levels[k], maxes[k], BarColour(k))
                    else RowPixelsOfLevel(0, 0, BarColour(k));
      screen := PutRow(screen, k + 1, pixels);
      k := k + 1;
    }
  }

  function Max3(a: real, b: real, c: real): real
  {
    var bc := if b < c then c else b;
    if a < bc then bc else a
  }

  /** The bar colour of sensor k in display order. */
  function BarColour(k: int): (c: Colour)
    ensures IsRgb(c) && Bright(c)
  {
    if k == 0 then Temperature
    else if k == 1 then Humidity
    else if k == 2 then Magnetometer
    else if k == 3 then Orientation
    else if k == 4 then Accelerometer
    else Pressure
  }
}
