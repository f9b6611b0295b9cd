/** Small helpers shared by the models of the optimiser: an optional value, the clamping that
    Math.max(lo, Math.min(x, hi)) performs, and Java's Double.MAX_VALUE. */
module Common {

  datatype Option<+T> = None | Some(value: T)

  /** Math.max(lo, Math.min(x, hi)) on Java ints. */
  function ClampInt(x: int, lo: int, hi: int): (r: int)
    ensures lo <= hi ==> lo <= r <= hi
    ensures lo <= x <= hi ==> r == x
    ensures x < lo ==> r == lo
    ensures lo <= hi && hi < x ==> r == hi
  {
    if x < hi then (if lo < x then x else lo) else (if lo < hi then hi else lo)
  }

  /** Math.max(lo, Math.min(x, hi)) on doubles (NaN is not modelled). */
  function ClampReal(x: real, lo: real, hi: real): (r: real)
    ensures lo <= hi ==> lo <= r <= hi
    ensures lo <= x <= hi ==> r == x
    ensures x < lo ==> r == lo
    ensures lo <= hi && hi < x ==> r == hi
  {
    if x < hi then (if lo < x then x else lo) else (if lo < hi then hi else lo)
  }

  /** Java's Double.MAX_VALUE, (2 - 2^-52) * 2^1023, written out exactly. */
  const DoubleMaxValue: real :=
    179769313486231570814527423731704356798070567525844996598917476803157260780028538760589558632766878171540458953514382464234321326889464182768467546703537516986049910576551282076245490090389328944075868508455133942304583236903222948165808559332123348274797826204144723168738177180919299881250404026184124858368.0

  /** Multiplying both sides by a non-negative real keeps their order. */
  lemma MulMono(a: real, b: real, w: real)
    requires a <= b && 0.0 <= w
    ensures a * w <= b * w
  {
    MulNonneg(b - a, w);
    assert (b - a) * w == b * w - a * w;
  }

  lemma MulNonneg(a: real, b: real)
    requires 0.0 <= a && 0.0 <= b
    ensures 0.0 <= a * b
  {
  }
}
