/** The bounded sample histories kept by the sensor games: a new reading is
    appended and, when the list has grown longer than the game's limit, the
    oldest reading is dropped. The games compare the length against a float
    (dataCount); for a length, exceeding it is the same as exceeding its
    integer part, which is the `cap` used here. */
module History {

  /** Appends `x` to `h` and drops the first entry when the result is longer
      than `cap`. */
  function BoundedAppend(h: seq<real>, x: real, cap: nat): (r: seq<real>)
    requires 1 <= cap
    ensures |r| > 0 && r[|r| - 1] == x
    ensures |h| <= cap ==> |r| <= cap
    ensures |r| == (if |h| + 1 > cap then |h| else |h| + 1)
    ensures r == (h + [x])[|h| + 1 - |r|..]
  {
    var g := h + [x];
    if |g| > cap then g[1..] else g
  }

  /** A length exceeds a non-negative float limit exactly when it exceeds
      the limit's integer part. */
  lemma ExceedsFloor(n: nat, limit: real)
    requires 0.0 <= limit
    ensures n as real > limit <==> n > limit.Floor
  {
  }

  function Sum(s: seq<real>): real
  {
    if s == [] then 0.0 else Sum(s[..|s| - 1]) + s[|s| - 1]
  }

  /** A sum of readings lying in [lo, hi] lies between |s| · lo and |s| · hi. */
  lemma {:induction false} SumWithin(s: seq<real>, lo: real, hi: real)
    ensures (forall k :: 0 <= k < |s| ==> lo <= s[k] <= hi) ==>
              lo * (|s| as real) <= Sum(s) <= hi * (|s| as real)
  {
    if s != [] {
      var init := s[..|s| - 1];
      assert forall k :: 0 <= k < |init| ==> init[k] == s[k];
      SumWithin(init, lo, hi);
      var n := |init| as real;
      assert |s| as real == n + 1.0;
      assert lo * (n + 1.0) == lo * n + lo && hi * (n + 1.0) == hi * n + hi;
    }
  }

  /** The arithmetic mean of a non-empty history (statistics.mean). */
  function Mean(s: seq<real>): real
    requires |s| > 0
  {
    Sum(s) / (|s| as real)
  }

  /** The mean lies between the smallest and the largest reading, so a
      history of one repeated reading has that reading as its mean. */
  lemma MeanWithin(s: seq<real>, lo: real, hi: real)
    requires |s| > 0 && forall k :: 0 <= k < |s| ==> lo <= s[k] <= hi
    ensures lo <= Mean(s) <= hi
  {
    SumWithin(s, lo, hi);
  }

  /** A history fed the readings `xs`, oldest first, from empty. */
  function Replay(xs: seq<real>, cap: nat): seq<real>
    requires 1 <= cap
  {
    if xs == [] then [] else BoundedAppend(Replay(xs[..|xs| - 1], cap), xs[|xs| - 1], cap)
  }

  /** A history holds exactly the newest min(n, cap) readings, in order. */
  lemma {:induction false} ReplayKeepsNewest(xs: seq<real>, cap: nat)
    requires 1 <= cap
    ensures var n := if |xs| < cap then |xs| else cap;
            Replay(xs, cap) == xs[|xs| - n..]
  {
    if xs != [] {
      var init, x := xs[..|xs| - 1], xs[|xs| - 1];
      assert init + [x] == xs;
      assert Replay(xs, cap) == BoundedAppend(Replay(init, cap), x, cap);
      ReplayKeepsNewest(init, cap);
      WindowAppend(init, x, cap);
    }
  }

  /** Appending a reading to the window of the newest older readings gives
      the window of all of them. */
  lemma WindowAppend(h: seq<real>, x: real, cap: nat)
    requires 1 <= cap
    ensures var n := if |h| < cap then |h| else cap;
            var m := if |h| + 1 < cap then |h| + 1 else cap;
            BoundedAppend(h[|h| - n..], x, cap) == (h + [x])[|h| + 1 - m..]
  {
    if |h| < cap {
      assert h[|h| - |h|..] == h;
      assert BoundedAppend(h, x, cap) == h + [x];
      assert (h + [x])[0..] == h + [x];
    } else {
      var w := h[|h| - cap..];
      assert |w| == cap;
      var r := BoundedAppend(w, x, cap);
      assert r == (w + [x])[1..];
      assert |r| == cap;
      forall i | 0 <= i < cap
        ensures r[i] == (h + [x])[|h| + 1 - cap + i]
      {
        assert r[i] == (w + [x])[1 + i];
      }
    }
  }
}
