/**
 * The input normalisation at the top of `renderQr`: the numeric options
 * are parsed, defaulted and clamped, and the error-correction selector code
 * is looked up in `eclMap`.
 */
module Normalize {

  import opened Wrappers

  /** `Math.min(Math.max(value, min), max)`. */
  function Clamp(v: int, lo: int, hi: int): (r: int)
    ensures lo <= hi ==> lo <= r <= hi
    ensures lo <= v <= hi ==> r == v
    ensures lo <= hi && v < lo ==> r == lo
    ensures v > hi ==> r == hi
  {
    var atLeast := if v < lo then lo else v;
    if atLeast > hi then hi else atLeast
  }

  /** Clamping an already clamped value changes nothing. */
  lemma ClampIdempotent(v: int, lo: int, hi: int)
    ensures Clamp(Clamp(v, lo, hi), lo, hi) == Clamp(v, lo, hi)
  {
  }

  const DefaultScale := 8
  const MinScale := 2
  const MaxScale := 20
  const DefaultMargin := 4
  const MinMargin := 0
  const MaxMargin := 10

  /**
   * `parseInt(raw, 10) || fallback`, where `None` is the NaN `parseInt`
   * returns for non-numeric text. Both NaN and 0 are falsy in JavaScript,
   * so a parsed zero is replaced by the fallback as well.
   */
  function OrDefault(parsed: Option<int>, fallback: int): (r: int)
    ensures parsed.None? || parsed == Some(0) ==> r == fallback
    ensures parsed.Some? && parsed.value != 0 ==> r == parsed.value
    ensures r == 0 ==> fallback == 0
  {
    match parsed
    case Some(v) => if v != 0 then v else fallback
    case None => fallback
  }

  /** The pixel scale actually used: `clamp(parseInt(..) || 8, 2, 20)`. */
  function NormalizeScale(raw: Option<int>): (r: int)
    ensures MinScale <= r <= MaxScale
    ensures raw.None? || raw == Some(0) ==> r == DefaultScale
    ensures raw.Some? && raw.value != 0 && raw.value < MinScale ==> r == MinScale
    ensures raw.Some? && raw.value > MaxScale ==> r == MaxScale
    ensures raw.Some? && MinScale <= raw.value <= MaxScale ==> r == raw.value
  {
    Clamp(OrDefault(raw, DefaultScale), MinScale, MaxScale)
  }

  /** The margin actually used, in modules: `clamp(parseInt(..) || 4, 0, 10)`. */
  function NormalizeMargin(raw: Option<int>): (r: int)
    ensures MinMargin <= r <= MaxMargin
    ensures raw.None? || raw == Some(0) ==> r == DefaultMargin
    ensures raw.Some? && raw.value < MinMargin ==> r == MinMargin
    ensures raw.Some? && raw.value > MaxMargin ==> r == MaxMargin
    ensures raw.Some? && 0 < raw.value <= MaxMargin ==> r == raw.value
  {
    Clamp(OrDefault(raw, DefaultMargin), MinMargin, MaxMargin)
  }

  /**
   * Because a typed 0 falls back to the default, the only inputs that
   * yield a zero margin are negative numbers.
   */
  lemma ZeroMarginOnlyFromNegative(raw: Option<int>)
    ensures NormalizeMargin(raw) == 0 <==> raw.Some? && raw.value < 0
  {
  }

  /** The scale is the default exactly for NaN, 0 and a literal 8. */
  lemma DefaultScaleIff(raw: Option<int>)
    ensures NormalizeScale(raw) == DefaultScale <==> raw.None? || raw == Some(0) || raw == Some(8)
  {
  }

  /** The encoder's error-correction levels, in ascending tolerance. */
  datatype Ecc = Low | Medium | Quartile | High

  /** `eclMap`: the selector codes the page offers. */
  const EclMap: map<string, Ecc> := map["L" := Low, "M" := Medium, "Q" := Quartile, "H" := High]

  /** `eclMap[code] ?? LOW`. */
  function EccFromCode(code: string): (e: Ecc)
    ensures e == Medium <==> code == "M"
    ensures e == Quartile <==> code == "Q"
    ensures e == High <==> code == "H"
    ensures e == Low <==> code != "M" && code != "Q" && code != "H"
  {
    if code in EclMap then EclMap[code] else Low
  }

  /** The selector code for each level: the inverse of the lookup. */
  function CodeOf(e: Ecc): (code: string)
    ensures code in EclMap && EclMap[code] == e
    ensures EccFromCode(code) == e
  {
    match e
    case Low => "L"
    case Medium => "M"
    case Quartile => "Q"
    case High => "H"
  }
}
