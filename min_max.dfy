/** getWithinMinMaxFlag, which paint.py and ball.py both define in the same
    words: a tilt-derived position is clamped to the screen range and the
    flag tells whether it was already inside. */
module MinMax {

  /** The range both games clamp to (the defaults of getWithinMinMaxFlag). */
  const DefaultMin := 0
  const DefaultMax := 6

  /** min(hi, max(x, lo)). */
  function Clamp(x: int, lo: int, hi: int): (v: int)
    ensures lo <= hi ==> lo <= v <= hi
    ensures lo <= hi ==> (v == x <==> lo <= x <= hi)
    ensures lo <= hi && x < lo ==> v == lo
    ensures lo <= hi && hi < x ==> v == hi
  {
    var atLeast := if x < lo then lo else x;
    if hi < atLeast then hi else atLeast
  }

  datatype Clamped = Clamped(value: int, flag: bool)

  /** The clamped value and whether clamping left it unchanged. */
  function WithinMinMaxFlag(x: int, lo: int, hi: int): (c: Clamped)
    ensures c.value == Clamp(x, lo, hi)
    ensures c.flag <==> c.value == x
    ensures lo <= hi ==> (c.flag <==> lo <= x <= hi)
  {
    var v := Clamp(x, lo, hi);
    Clamped(v, v == x)
  }

  /** Clamping a clamped value changes nothing and raises the flag. */
  lemma ClampIdempotent(x: int, lo: int, hi: int)
    requires lo <= hi
    ensures WithinMinMaxFlag(WithinMinMaxFlag(x, lo, hi).value, lo, hi) == Clamped(Clamp(x, lo, hi), true)
  {
  }

  /** Clamping is monotone: a larger input never gives a smaller position. */
  lemma ClampMonotone(x: int, x': int, lo: int, hi: int)
    requires lo <= hi && x <= x'
    ensures Clamp(x, lo, hi) <= Clamp(x', lo, hi)
  {
  }
}
