/** Real numbers: smaller and larger, and ratios that stay within bounds. */
module Reals {

  function Min(x: real, y: real): real {
    if x <= y then x else y
  }

  function Max(x: real, y: real): real {
    if x <= y then y else x
  }

  function Abs(x: real): real {
    if x < 0.0 then -x else x
  }

  /** A ratio of a part to a positive whole. */
  lemma RatioBounds(part: real, whole: real)
    requires 0.0 <= part && 0.0 < whole
    ensures 0.0 <= part / whole && (part <= whole ==> part / whole <= 1.0)
    ensures part / whole == 0.0 <==> part == 0.0
    ensures part / whole == 1.0 <==> part == whole
  {
    assert part / whole * whole == part;
  }

  /** The part of `count` things that a share amounts to. */
  function PartOf(share: real, count: nat): real {
    share * count as real
  }

  lemma PartOfRatio(part: real, count: nat)
    requires count > 0
    ensures PartOf(part / count as real, count) == part
  {
  }

  lemma RatioMonotone(x: real, y: real, whole: real)
    requires x <= y && whole > 0.0
    ensures x / whole <= y / whole
  {
  }

  /** Ratios compare as their cross products do. */
  lemma RatioOrder(x: real, whole: real, y: real, other: real)
    requires whole > 0.0 && other > 0.0 && x * other >= y * whole
    ensures x / whole >= y / other
  {
    var p, q := x / whole, y / other;
    assert x == p * whole && y == q * other;
    assert (p - q) * (whole * other) >= 0.0;
    assert whole * other > 0.0;
    NotNegative(p - q, whole * other);
  }

  lemma NotNegative(x: real, factor: real)
    requires factor > 0.0 && x * factor >= 0.0
    ensures x >= 0.0
  {
  }

  lemma OneMinusRatio(part: real, whole: real)
    requires whole > 0.0
    ensures (whole - part) / whole == 1.0 - part / whole
  {
    var share, rest := part / whole, (whole - part) / whole;
    assert share * whole == part && rest * whole == whole - part;
    Cancel(rest, 1.0 - share, whole);
  }

  lemma Cancel(x: real, y: real, factor: real)
    requires factor != 0.0 && x * factor == y * factor
    ensures x == y
  {
  }
}
