/**
 * Numeric gene values: clamping into the configured range, drawing a fresh
 * value ("replace") and shifting a value by a drawn delta ("shift").
 * The normal samples are parameters; the configured bounds are `lo` and `hi`.
 */
module Values {

  function Min(a: real, b: real): real { if a <= b then a else b }

  function Max(a: real, b: real): real { if a >= b then a else b }

  /** `f32::min(hi, f32::max(lo, x))`. */
  function Clamp(x: real, lo: real, hi: real): (r: real)
    ensures lo <= hi ==> lo <= r <= hi
    ensures lo <= x <= hi ==> r == x
    ensures x < lo && lo <= hi ==> r == lo
    ensures hi < x ==> r == hi
    ensures hi < lo ==> r == hi
  {
    Min(hi, Max(lo, x))
  }

  lemma ClampIdempotent(x: real, lo: real, hi: real)
    ensures Clamp(Clamp(x, lo, hi), lo, hi) == Clamp(x, lo, hi)
  {
  }

  /** A freshly drawn value: the normal sample clamped into `[lo, hi]`. */
  function NewValue(sample: real, lo: real, hi: real): (r: real)
    ensures lo <= hi ==> lo <= r <= hi
    ensures lo <= sample <= hi ==> r == sample
  {
    Clamp(sample, lo, hi)
  }

  /** `value` shifted by a clamped normal delta, then clamped again. */
  function MutateDelta(value: real, deltaSample: real, lo: real, hi: real): (r: real)
    ensures lo <= hi ==> lo <= r <= hi
    ensures lo <= deltaSample <= hi && lo <= value + deltaSample <= hi ==> r == value + deltaSample
  {
    Clamp(value + Clamp(deltaSample, lo, hi), lo, hi)
  }
}
