/** Grid and number helpers shared by the workspace: the 10-unit snap, the
    scale clamp, the mobile pointer scaling and JavaScript's `%` on integers. */
module Grid {

  /** One grid cell is 10 workspace units (one native pixel at 10x zoom). */
  const GridUnit: real := 10.0
  /** The workspace canvas is 640 x 640 units. */
  const CanvasSize: real := 640.0

  /** v is a whole multiple of the grid unit. */
  predicate OnGrid(v: real) {
    (v / GridUnit).Floor as real * GridUnit == v
  }

  /** `Math.floor(v / 10) * 10`: the grid line at or below v. */
  function Snap(v: real): (r: real)
    ensures OnGrid(r)
    ensures r <= v < r + GridUnit
  {
    (v / GridUnit).Floor as real * GridUnit
  }

  /** Snap is the only grid-aligned value in (v - 10, v]. */
  lemma SnapUnique(v: real, r: real)
    requires OnGrid(r) && r <= v < r + GridUnit
    ensures r == Snap(v)
  {
    var k := (r / GridUnit).Floor;
    var m := (v / GridUnit).Floor;
    assert r == k as real * GridUnit;
    var s := Snap(v);
    assert s == m as real * GridUnit;
    assert (k - m) as real * GridUnit < GridUnit;
    assert (m - k) as real * GridUnit < GridUnit;
    assert k == m;
  }

  function Min(a: real, b: real): real { if a <= b then a else b }
  function Max(a: real, b: real): real { if a >= b then a else b }

  /** `Math.max(lo, Math.min(hi, v))`. */
  function Clamp(v: real, lo: real, hi: real): (r: real)
    requires lo <= hi
    ensures lo <= r <= hi
    ensures lo <= v <= hi ==> r == v
    ensures v < lo ==> r == lo
    ensures hi < v ==> r == hi
  {
    Max(lo, Min(hi, v))
  }

  /** On small viewports the canvas is shown at half size, so raw pointer
      coordinates are doubled before use. */
  function PointerCoord(raw: real, isMobile: bool): (r: real)
    ensures isMobile ==> r == 2.0 * raw
    ensures !isMobile ==> r == raw
  {
    if isMobile then raw * 2.0 else raw
  }

  /** JavaScript's `a % m` for integers: the remainder of truncating
      division, which takes the sign of the dividend. */
  function JsRem(a: int, m: int): (r: int)
    requires m > 0
    ensures a >= 0 ==> 0 <= r < m
    ensures a < 0 ==> -m < r <= 0
    ensures a == JsQuot(a, m) * m + r
  {
    if a >= 0 then a % m else -((-a) % m)
  }

  /** The quotient of JavaScript's truncating division, `Math.trunc(a / m)`. */
  function JsQuot(a: int, m: int): int
    requires m > 0
  {
    if a >= 0 then a / m else -((-a) / m)
  }
}
