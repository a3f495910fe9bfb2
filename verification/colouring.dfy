/**
 * The display transform applied to the raw curvature values by both embed
 * scripts: clamp to the bounds, split by sign, rescale each part to [0, 1]
 * and emit one colour triple per value. The bounds are `[lo, hi]` with
 * `lo < 0 < hi`; the scripts build them as `[-crv_bound, crv_bound]`.
 */
module Colouring {

  /** One vertex colour `[red, green, blue]`. */
  datatype Colour = Colour(red: real, green: real, blue: real)

  /** `crv_bounds = [-crv_bound, crv_bound]`. */
  function CrvBounds(crvBound: real): (bounds: seq<real>)
    ensures |bounds| == 2 && bounds[0] == -bounds[1] && bounds[1] == crvBound
    ensures crvBound > 0.0 ==> bounds[0] < 0.0 < bounds[1]
  {
    [-crvBound, crvBound]
  }

  /** Bounds the rescaling can divide by. */
  predicate ValidBounds(lo: real, hi: real) {
    lo < 0.0 < hi
  }

  /** What the two masked clamping assignments, one after the other, do to one value. */
  function Clamp(lo: real, hi: real, v: real): (c: real)
    ensures lo <= hi ==> lo <= c <= hi
    ensures lo <= hi ==> (c == v <==> lo <= v <= hi)
    ensures lo <= hi ==> (v <= lo ==> c == lo) && (hi <= v ==> c == hi)
  {
    var w := if v < lo then lo else v;
    if w > hi then hi else w
  }

  /** Clamping twice is clamping once. */
  lemma ClampIdempotent(lo: real, hi: real, v: real)
    requires lo <= hi
    ensures Clamp(lo, hi, Clamp(lo, hi, v)) == Clamp(lo, hi, v)
  {
  }

  /**
   * What the two masked rescaling assignments do to one clamped value `c`,
   * selected by the channel flag computed before either of them ran:
   * `1 - (c - lo) / (0 - lo)` when the flag is false, `(c - 0) / (hi - 0)`
   * when it is true.
   */
  function Rescaled(lo: real, hi: real, nonNegative: bool, c: real): (r: real)
    requires ValidBounds(lo, hi)
    ensures nonNegative && 0.0 <= c <= hi ==> 0.0 <= r <= 1.0
    ensures !nonNegative && lo <= c <= 0.0 ==> 0.0 <= r <= 1.0
    ensures r == 0.0 <==> c == 0.0
    ensures (nonNegative && c == hi) || (!nonNegative && c == lo) ==> r == 1.0
  {
    if nonNegative then (c - 0.0) / (hi - 0.0) else 1.0 - (c - lo) / (0.0 - lo)
  }

  /**
   * The intensity of a clamped value on its channel, stated directly: its
   * distance from 0 as a fraction of the bound on its side.
   */
  function Intensity(lo: real, hi: real, c: real): (r: real)
    requires ValidBounds(lo, hi)
    ensures r >= 0.0
    ensures r == 0.0 <==> c == 0.0
  {
    if c >= 0.0 then c / hi else c / lo
  }

  /** The code's formulas compute the intensity when the flag is the sign test. */
  lemma RescaledIsIntensity(lo: real, hi: real, c: real)
    requires ValidBounds(lo, hi)
    ensures Rescaled(lo, hi, c >= 0.0, c) == Intensity(lo, hi, c)
  {
  }

  /**
   * A clamped value has an intensity in [0, 1]; a negative one in (0, 1];
   * 0 has intensity 0 and each bound has intensity 1.
   */
  lemma IntensityInUnitRange(lo: real, hi: real, c: real)
    requires ValidBounds(lo, hi) && lo <= c <= hi
    ensures 0.0 <= Intensity(lo, hi, c) <= 1.0
    ensures c < 0.0 ==> 0.0 < Intensity(lo, hi, c)
    ensures c == 0.0 ==> Intensity(lo, hi, c) == 0.0
    ensures c == lo || c == hi ==> Intensity(lo, hi, c) == 1.0
  {
  }

  /**
   * Rescaling is monotone within each channel: a larger non-negative value,
   * or a more negative value, has a larger intensity.
   */
  lemma IntensityMonotone(lo: real, hi: real, u: real, v: real)
    requires ValidBounds(lo, hi)
    ensures 0.0 <= u < v ==> Intensity(lo, hi, u) < Intensity(lo, hi, v)
    ensures v < u < 0.0 ==> Intensity(lo, hi, u) < Intensity(lo, hi, v)
  {
  }

  /**
   * The colour of one raw value: clamped, then its intensity in the first
   * component when the clamped value is non-negative, in the second when it
   * is negative.
   */
  function ColourOf(lo: real, hi: real, raw: real): (colour: Colour)
    requires ValidBounds(lo, hi)
    ensures colour.blue == 0.0
    ensures 0.0 <= colour.red <= 1.0 && 0.0 <= colour.green <= 1.0
    ensures colour.red > 0.0 <==> raw > 0.0
    ensures colour.green > 0.0 <==> raw < 0.0
    ensures raw >= hi ==> colour == Colour(1.0, 0.0, 0.0)
    ensures raw <= lo ==> colour == Colour(0.0, 1.0, 0.0)
  {
    var c := Clamp(lo, hi, raw);
    IntensityInUnitRange(lo, hi, c);
    if c >= 0.0 then
      assert c > 0.0 ==> c / hi > 0.0;
      Colour(Intensity(lo, hi, c), 0.0, 0.0)
    else
      Colour(0.0, Intensity(lo, hi, c), 0.0)
  }

  /**
   * With the default bound 0.1: 0.05 gives half intensity on the first
   * component, -0.05 half intensity on the second, and 0.2, beyond the
   * bound, full intensity on the first.
   */
  lemma DefaultBoundExamples()
    ensures ColourOf(-0.1, 0.1, 0.05) == Colour(0.5, 0.0, 0.0)
    ensures ColourOf(-0.1, 0.1, -0.05) == Colour(0.0, 0.5, 0.0)
    ensures ColourOf(-0.1, 0.1, 0.2) == Colour(1.0, 0.0, 0.0)
  {
  }

  /** `crv[crv < lo] = lo` followed by `crv[crv > hi] = hi`. */
  method ClampInPlace(crv: array<real>, lo: real, hi: real)
    modifies crv
    ensures forall k :: 0 <= k < crv.Length ==> crv[k] == Clamp(lo, hi, old(crv[k]))
  {
    for k := 0 to crv.Length
      invariant forall m :: 0 <= m < k ==> crv[m] == (if old(crv[m]) < lo then lo else old(crv[m]))
      invariant forall m :: k <= m < crv.Length ==> crv[m] == old(crv[m])
    {
      if crv[k] < lo {
        crv[k] := lo;
      }
    }
    for k := 0 to crv.Length
      invariant forall m :: 0 <= m < k ==> crv[m] == Clamp(lo, hi, old(crv[m]))
      invariant forall m :: k <= m < crv.Length ==> crv[m] == (if old(crv[m]) < lo then lo else old(crv[m]))
    {
      if crv[k] > hi {
        crv[k] := hi;
      }
    }
  }

  /**
   * `crv[~channels] = 1 - (crv[~channels] - lo) / (0 - lo)` followed by
   * `crv[channels] = (crv[channels] - 0) / (hi - 0)`: both passes select
   * their entries by the flags computed beforehand, so an entry rewritten
   * by the first pass is not rescaled again by the second.
   */
  method RescaleInPlace(crv: array<real>, channels: seq<bool>, lo: real, hi: real)
    requires ValidBounds(lo, hi) && |channels| == crv.Length
    modifies crv
    ensures forall k :: 0 <= k < crv.Length ==> crv[k] == Rescaled(lo, hi, channels[k], old(crv[k]))
  {
    for k := 0 to crv.Length
      invariant forall m :: 0 <= m < k ==>
        crv[m] == (if channels[m] then old(crv[m]) else Rescaled(lo, hi, false, old(crv[m])))
      invariant forall m :: k <= m < crv.Length ==> crv[m] == old(crv[m])
    {
      if !channels[k] {
        crv[k] := 1.0 - (crv[k] - lo) / (0.0 - lo);
      }
    }
    for k := 0 to crv.Length
      invariant forall m :: 0 <= m < k ==> crv[m] == Rescaled(lo, hi, channels[m], old(crv[m]))
      invariant forall m :: k <= m < crv.Length ==>
        crv[m] == (if channels[m] then old(crv[m]) else Rescaled(lo, hi, false, old(crv[m])))
    {
      if channels[k] {
        crv[k] := (crv[k] - 0.0) / (hi - 0.0);
      }
    }
  }

  /** `[[crv[i], 0, 0] if channels[i] else [0, crv[i], 0] for i in range(len(crv))]`. */
  function ColourList(crv: seq<real>, channels: seq<bool>): (colours: seq<Colour>)
    requires |channels| == |crv|
    ensures |colours| == |crv|
    ensures forall k :: 0 <= k < |crv| ==> colours[k].blue == 0.0 && (colours[k].red == 0.0 || colours[k].green == 0.0)
    ensures forall k :: 0 <= k < |crv| ==> (if channels[k] then colours[k].red else colours[k].green) == crv[k]
    ensures forall k :: 0 <= k < |crv| ==> (if channels[k] then colours[k].green else colours[k].red) == 0.0
  {
    seq(|crv|, k requires 0 <= k < |crv| =>
      if channels[k] then Colour(crv[k], 0.0, 0.0) else Colour(0.0, crv[k], 0.0))
  }

  /**
   * The whole transform on the array of raw values: afterwards each entry
   * holds the intensity of its clamped value, and the colour list has one
   * colour per value, in order, each the colour of the raw value at that
   * position.
   */
  method Colourize(crv: array<real>, lo: real, hi: real) returns (colors: seq<Colour>)
    requires ValidBounds(lo, hi)
    modifies crv
    ensures |colors| == crv.Length
    ensures forall k :: 0 <= k < crv.Length ==> colors[k] == ColourOf(lo, hi, old(crv[k]))
    ensures forall k :: 0 <= k < crv.Length ==> crv[k] == Intensity(lo, hi, Clamp(lo, hi, old(crv[k])))
  {
    ghost var raw := crv[..];
    ClampInPlace(crv, lo, hi);
    var channels := seq(crv.Length, k reads crv requires 0 <= k < crv.Length => crv[k] >= 0.0);
    ghost var clamped := crv[..];
    RescaleInPlace(crv, channels, lo, hi);
    colors := ColourList(crv[..], channels);
    forall k | 0 <= k < crv.Length
      ensures crv[k] == Intensity(lo, hi, Clamp(lo, hi, raw[k]))
      ensures colors[k] == ColourOf(lo, hi, raw[k])
    {
      RescaledIsIntensity(lo, hi, clamped[k]);
    }
  }
}
