/** Floating-point values as the harness sees them, and numpy's argmin over them.
    A float is a real number or the NaN sentinel; rounding is not modelled. */
module Numeric {

  datatype Float = NaN | Num(v: real)

  /** `a` wins against `b` in numpy's argmin scan: a NaN beats every number,
      and among numbers the strictly smaller one wins. */
  predicate Below(a: Float, b: Float)
  {
    match (a, b)
    case (NaN, Num(_)) => true
    case (Num(x), Num(y)) => x < y
    case _ => false
  }

  /** `s[k]` is the first position that no other element beats. */
  predicate IsFirstMin(s: seq<Float>, k: nat)
  {
    && k < |s|
    && (forall j :: 0 <= j < |s| ==> !Below(s[j], s[k]))
    && (forall j :: 0 <= j < k ==> Below(s[k], s[j]))
  }

  /** `np.array(s).argmin()` on a non-empty sequence: the first NaN if there is one,
      otherwise the first occurrence of the minimum. */
  function ArgMin(s: seq<Float>): (k: nat)
    requires |s| > 0
    ensures IsFirstMin(s, k)
  {
    if |s| == 1 then 0
    else
      var k := ArgMin(s[..|s| - 1]);
      if Below(s[|s| - 1], s[k]) then |s| - 1 else k
  }

  /** At most one position is the first minimum, so the selection is determined. */
  lemma FirstMinUnique(s: seq<Float>, k1: nat, k2: nat)
    requires IsFirstMin(s, k1) && IsFirstMin(s, k2)
    ensures k1 == k2
  {
    assert !Below(s[k2], s[k1]) && !Below(s[k1], s[k2]);
  }

  /** A NaN anywhere is selected: argmin returns the first NaN. */
  lemma ArgMinPrefersNaN(s: seq<Float>, i: nat)
    requires i < |s| && s[i] == NaN
    ensures s[ArgMin(s)] == NaN && ArgMin(s) <= i
  {
  }

  /** When every score is a number, the selected score is a true minimum. */
  lemma ArgMinOfNumbers(s: seq<Float>)
    requires |s| > 0 && forall j :: 0 <= j < |s| ==> s[j].Num?
    ensures s[ArgMin(s)].Num?
    ensures forall j :: 0 <= j < |s| ==> s[ArgMin(s)].v <= s[j].v
    ensures forall j :: 0 <= j < ArgMin(s) ==> s[ArgMin(s)].v < s[j].v
  {
  }
}
