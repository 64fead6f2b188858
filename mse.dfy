/** `evaluate_mse(X_imputed, X, mask)`: the mean of the squared differences at the
    masked entries, taken in row-major order. numpy's mean of nothing is NaN, and a NaN
    anywhere in the selection makes the mean NaN. Rounding is not modelled. */
module Mse {
  import opened Numeric
  import opened Matrix

  function Square(d: real): real
  {
    d * d
  }

  /** `(a - b) ** 2` for an imputed value `a` and a true value `b`. */
  function SquaredError(a: Float, b: real): Float
  {
    match a
    case NaN => NaN
    case Num(v) => Num(Square(v - b))
  }

  /** The elementwise squared differences of two flat vectors. */
  function SquaredErrors(a: seq<Float>, b: seq<real>): (r: seq<Float>)
    requires |a| == |b|
    ensures |r| == |a| && forall l :: 0 <= l < |a| ==> r[l] == SquaredError(a[l], b[l])
  {
    seq(|a|, l requires 0 <= l < |a| => SquaredError(a[l], b[l]))
  }

  /** Boolean-mask indexing `s[w]`: the entries where `w` is true, in order. */
  function Select<T>(s: seq<T>, w: seq<bool>): seq<T>
    requires |s| == |w|
  {
    if |s| == 0 then []
    else (if w[0] then [s[0]] else []) + Select(s[1..], w[1..])
  }

  /** A sum in which a NaN absorbs everything. */
  function Sum(s: seq<Float>): Float
  {
    if |s| == 0 then Num(0.0)
    else match (s[0], Sum(s[1..]))
      case (Num(x), Num(y)) => Num(x + y)
      case _ => NaN
  }

  /** `.mean()`: NaN for an empty selection. */
  function Mean(s: seq<Float>): Float
  {
    if |s| == 0 then NaN
    else match Sum(s)
      case NaN => NaN
      case Num(v) => Num(v / |s| as real)
  }

  /** The mean squared error over flat vectors. */
  function FlatMse(a: seq<Float>, b: seq<real>, w: seq<bool>): (r: Float)
    requires |a| == |b| == |w|
    ensures r.Num? ==> r.v >= 0.0
  {
    SquaresNonNegative(a, b, w);
    MeanNonNegative(Select(SquaredErrors(a, b), w));
    Mean(Select(SquaredErrors(a, b), w))
  }

  function EvaluateMse(imputed: seq<seq<Float>>, x: seq<seq<real>>, w: seq<seq<bool>>,
                       n: nat, m: nat): (r: Float)
    requires IsShape(imputed, n, m) && IsShape(x, n, m) && IsShape(w, n, m)
    ensures r.Num? ==> r.v >= 0.0
  {
    FlattenLength(imputed, n, m);
    FlattenLength(x, n, m);
    FlattenLength(w, n, m);
    FlatMse(Flatten(imputed), Flatten(x), Flatten(w))
  }

  // ---------------------------------------------------------------------------
  // Flat facts.

  /** The selection holds exactly the entries at true positions. */
  lemma {:induction false} SelectMembers<T>(s: seq<T>, w: seq<bool>)
    requires |s| == |w|
    ensures forall e :: e in Select(s, w) ==> exists l :: 0 <= l < |s| && w[l] && s[l] == e
    ensures forall l :: 0 <= l < |s| && w[l] ==> s[l] in Select(s, w)
  {
    if |s| > 0 {
      var s', w' := s[1..], w[1..];
      SelectMembers(s', w');
      assert Select(s, w) == (if w[0] then [s[0]] else []) + Select(s', w');
      forall l | 0 <= l < |s| && w[l] ensures s[l] in Select(s, w) {
        if l > 0 {
          assert s'[l - 1] == s[l] && w'[l - 1];
        }
      }
      forall e | e in Select(s, w)
        ensures exists l :: 0 <= l < |s| && w[l] && s[l] == e
      {
        if e in Select(s', w') {
          var l :| 0 <= l < |s'| && w'[l] && s'[l] == e;
          assert w[l + 1] && s[l + 1] == e;
        } else {
          assert w[0] && s[0] == e;
        }
      }
    }
  }

  /** The selection is empty exactly when no position is true. */
  lemma {:induction false} SelectEmpty<T>(s: seq<T>, w: seq<bool>)
    requires |s| == |w|
    ensures |Select(s, w)| == 0 <==> forall l :: 0 <= l < |w| ==> !w[l]
  {
    if |s| > 0 {
      SelectEmpty(s[1..], w[1..]);
      if forall l :: 0 <= l < |w| ==> !w[l] {
        assert forall l :: 0 <= l < |w| - 1 ==> !w[1..][l] by {
          forall l | 0 <= l < |w| - 1 ensures !w[1..][l] {
            assert !w[l + 1];
          }
        }
      }
      if |Select(s, w)| == 0 {
        forall l | 0 <= l < |w| ensures !w[l] {
          if l > 0 {
            assert !w[1..][l - 1];
          }
        }
      }
    }
  }

  /** A sum is NaN exactly when some term is. */
  lemma {:induction false} SumNaN(s: seq<Float>)
    ensures Sum(s) == NaN <==> NaN in s
  {
    if |s| > 0 {
      SumNaN(s[1..]);
      assert s == [s[0]] + s[1..];
    }
  }

  /** A sum of non-negative numbers is non-negative, and zero only when every term is. */
  lemma {:induction false} SumOfNonNegatives(s: seq<Float>)
    requires forall l :: 0 <= l < |s| ==> s[l].Num? && s[l].v >= 0.0
    ensures Sum(s).Num? && Sum(s).v >= 0.0
    ensures Sum(s).v == 0.0 <==> forall l :: 0 <= l < |s| ==> s[l].v == 0.0
  {
    if |s| > 0 {
      SumOfNonNegatives(s[1..]);
      if Sum(s).v == 0.0 {
        forall l | 0 <= l < |s| ensures s[l].v == 0.0 {
          if l > 0 {
            assert s[1..][l - 1] == s[l];
          }
        }
      }
    }
  }

  lemma SquareOfPositive(d: real)
    requires d > 0.0
    ensures Square(d) > 0.0
  {
    calc {
      Square(d);
    ==
      d * d;
    >
      0.0;
    }
  }

  lemma SquareOfNegative(d: real)
    requires d < 0.0
    ensures Square(d) > 0.0
  {
    calc {
      Square(d);
    ==
      (-d) * (-d);
    >
      0.0;
    }
  }

  /** A square is never negative, and it is positive away from zero. */
  lemma SquareNonNegative(d: real)
    ensures Square(d) >= 0.0
    ensures d != 0.0 ==> Square(d) > 0.0
  {
    if d > 0.0 {
      SquareOfPositive(d);
    } else if d < 0.0 {
      SquareOfNegative(d);
    }
  }

  /** A squared error is NaN or a non-negative number. */
  lemma ErrorNonNegative(a: Float, b: real)
    ensures SquaredError(a, b) == NaN || SquaredError(a, b).v >= 0.0
  {
    if a.Num? {
      SquareNonNegative(a.v - b);
    }
  }

  /** A numeric squared error is positive unless the value is exact. */
  lemma ExactWhenZero(a: Float, b: real)
    requires a.Num?
    ensures SquaredError(a, b).v > 0.0 || a == Num(b)
  {
    SquareNonNegative(a.v - b);
  }

  /** Every selected squared error is NaN or a non-negative number. */
  lemma SquaresNonNegative(a: seq<Float>, b: seq<real>, w: seq<bool>)
    requires |a| == |b| == |w|
    ensures forall e :: e in Select(SquaredErrors(a, b), w) ==> e == NaN || e.v >= 0.0
  {
    var errs := SquaredErrors(a, b);
    SelectMembers(errs, w);
    forall l | 0 <= l < |a| ensures errs[l] == NaN || errs[l].v >= 0.0 {
      ErrorNonNegative(a[l], b[l]);
    }
  }

  lemma MeanNonNegative(s: seq<Float>)
    requires forall e :: e in s ==> e == NaN || e.v >= 0.0
    ensures Mean(s).Num? ==> Mean(s).v >= 0.0
  {
    if |s| > 0 && Mean(s).Num? {
      SumNaN(s);
      assert forall l :: 0 <= l < |s| ==> s[l].Num? && s[l].v >= 0.0 by {
        forall l | 0 <= l < |s| ensures s[l].Num? && s[l].v >= 0.0 {
          assert s[l] in s;
        }
      }
      SumOfNonNegatives(s);
    }
  }

  /** A mean of non-negative numbers is zero exactly when every term is zero. */
  lemma MeanZero(s: seq<Float>)
    requires |s| > 0 && forall l :: 0 <= l < |s| ==> s[l].Num? && s[l].v >= 0.0
    ensures Mean(s).Num?
    ensures Mean(s).v == 0.0 <==> forall l :: 0 <= l < |s| ==> s[l].v == 0.0
  {
    SumOfNonNegatives(s);
    var total, count := Sum(s).v, |s| as real;
    assert Mean(s).v == total / count;
    if total / count == 0.0 {
      assert total == (total / count) * count;
    }
  }

  // ---------------------------------------------------------------------------
  // The score, entry by entry.

  /** The flat score is NaN exactly when nothing is selected or a selected entry is NaN. */
  lemma FlatMseIsNaN(a: seq<Float>, b: seq<real>, w: seq<bool>)
    requires |a| == |b| == |w|
    ensures FlatMse(a, b, w) == NaN <==>
      (forall l :: 0 <= l < |w| ==> !w[l]) || (exists l :: 0 <= l < |w| && w[l] && a[l] == NaN)
  {
    var errs := SquaredErrors(a, b);
    var s := Select(errs, w);
    SelectEmpty(errs, w);
    SelectMembers(errs, w);
    SumNaN(s);
    if exists l :: 0 <= l < |w| && w[l] && a[l] == NaN {
      var l :| 0 <= l < |w| && w[l] && a[l] == NaN;
      assert errs[l] == NaN;
    }
  }

  /** With something selected and numbers at every selected entry, the flat score is a
      number, zero exactly when every selected entry is exact. */
  lemma FlatMseZero(a: seq<Float>, b: seq<real>, w: seq<bool>)
    requires |a| == |b| == |w|
    requires exists l :: 0 <= l < |w| && w[l]
    requires forall l :: 0 <= l < |w| && w[l] ==> a[l].Num?
    ensures FlatMse(a, b, w).Num?
    ensures FlatMse(a, b, w) == Num(0.0) <==> forall l :: 0 <= l < |w| && w[l] ==> a[l] == Num(b[l])
  {
    var errs := SquaredErrors(a, b);
    var s := Select(errs, w);
    SelectMembers(errs, w);
    SelectEmpty(errs, w);
    forall t | 0 <= t < |s| ensures s[t].Num? && s[t].v >= 0.0 {
      assert s[t] in s;
      var l :| 0 <= l < |a| && w[l] && errs[l] == s[t];
      ErrorNonNegative(a[l], b[l]);
    }
    MeanZero(s);
    if forall l :: 0 <= l < |w| && w[l] ==> a[l] == Num(b[l]) {
      forall t | 0 <= t < |s| ensures s[t].v == 0.0 {
        assert s[t] in s;
        var l :| 0 <= l < |a| && w[l] && errs[l] == s[t];
      }
    }
    if Mean(s).v == 0.0 {
      forall l | 0 <= l < |w| && w[l] ensures a[l] == Num(b[l]) {
        assert errs[l] in s;
        var t :| 0 <= t < |s| && s[t] == errs[l];
        ExactWhenZero(a[l], b[l]);
      }
    }
  }

  // ---------------------------------------------------------------------------
  // From flat positions to entries.

  /** The flat positions of entry `(i, j)` and back, for selections over the reshaped data. */
  lemma FlatEntry<T>(s: seq<seq<T>>, n: nat, m: nat, l: nat)
    requires IsShape(s, n, m) && l < n * m
    ensures |Flatten(s)| == n * m
    ensures l / m < n && l % m < m && Flatten(s)[l] == s[l / m][l % m]
  {
    FlatPosition(n, m, l);
    FlattenAt(s, n, m, l / m, l % m);
  }

  lemma NothingMaskedFlat(w: seq<seq<bool>>, n: nat, m: nat)
    requires IsShape(w, n, m)
    ensures |Flatten(w)| == n * m
    ensures (forall i, j :: 0 <= i < n && 0 <= j < m ==> !w[i][j]) <==>
      (forall l :: 0 <= l < n * m ==> !Flatten(w)[l])
  {
    FlattenLength(w, n, m);
    if forall i, j :: 0 <= i < n && 0 <= j < m ==> !w[i][j] {
      forall l | 0 <= l < n * m ensures !Flatten(w)[l] {
        FlatEntry(w, n, m, l);
      }
    }
    if forall l :: 0 <= l < n * m ==> !Flatten(w)[l] {
      forall i, j | 0 <= i < n && 0 <= j < m ensures !w[i][j] {
        FlattenAt(w, n, m, i, j);
      }
    }
  }

  lemma MaskedNaNFlat(imputed: seq<seq<Float>>, w: seq<seq<bool>>, n: nat, m: nat)
    requires IsShape(imputed, n, m) && IsShape(w, n, m)
    ensures |Flatten(w)| == |Flatten(imputed)| == n * m
    ensures (exists i, j :: 0 <= i < n && 0 <= j < m && w[i][j] && imputed[i][j] == NaN) <==>
      (exists l :: 0 <= l < n * m && Flatten(w)[l] && Flatten(imputed)[l] == NaN)
  {
    FlattenLength(w, n, m);
    FlattenLength(imputed, n, m);
    if exists i, j :: 0 <= i < n && 0 <= j < m && w[i][j] && imputed[i][j] == NaN {
      var i, j :| 0 <= i < n && 0 <= j < m && w[i][j] && imputed[i][j] == NaN;
      FlattenAt(w, n, m, i, j);
      FlattenAt(imputed, n, m, i, j);
    }
    if exists l :: 0 <= l < n * m && Flatten(w)[l] && Flatten(imputed)[l] == NaN {
      var l :| 0 <= l < n * m && Flatten(w)[l] && Flatten(imputed)[l] == NaN;
      FlatEntry(w, n, m, l);
      FlatEntry(imputed, n, m, l);
    }
  }

  lemma MaskedNumbersFlat(imputed: seq<seq<Float>>, x: seq<seq<real>>, w: seq<seq<bool>>, n: nat, m: nat)
    requires IsShape(imputed, n, m) && IsShape(x, n, m) && IsShape(w, n, m)
    requires forall i, j :: 0 <= i < n && 0 <= j < m && w[i][j] ==> imputed[i][j].Num?
    ensures |Flatten(w)| == |Flatten(imputed)| == |Flatten(x)| == n * m
    ensures forall l :: 0 <= l < n * m && Flatten(w)[l] ==> Flatten(imputed)[l].Num?
    ensures (forall i, j :: 0 <= i < n && 0 <= j < m && w[i][j] ==> imputed[i][j] == Num(x[i][j])) <==>
      (forall l :: 0 <= l < n * m && Flatten(w)[l] ==> Flatten(imputed)[l] == Num(Flatten(x)[l]))
  {
    FlattenLength(w, n, m);
    FlattenLength(imputed, n, m);
    FlattenLength(x, n, m);
    forall l | 0 <= l < n * m && Flatten(w)[l] ensures Flatten(imputed)[l].Num? {
      FlatEntry(w, n, m, l);
      FlatEntry(imputed, n, m, l);
    }
    if forall i, j :: 0 <= i < n && 0 <= j < m && w[i][j] ==> imputed[i][j] == Num(x[i][j]) {
      forall l | 0 <= l < n * m && Flatten(w)[l] ensures Flatten(imputed)[l] == Num(Flatten(x)[l]) {
        FlatEntry(w, n, m, l);
        FlatEntry(imputed, n, m, l);
        FlatEntry(x, n, m, l);
      }
    }
    if forall l :: 0 <= l < n * m && Flatten(w)[l] ==> Flatten(imputed)[l] == Num(Flatten(x)[l]) {
      forall i, j | 0 <= i < n && 0 <= j < m && w[i][j] ensures imputed[i][j] == Num(x[i][j]) {
        FlattenAt(w, n, m, i, j);
        FlattenAt(imputed, n, m, i, j);
        FlattenAt(x, n, m, i, j);
      }
    }
  }

  /** The score is NaN exactly when nothing is masked or the imputer left a NaN at some
      masked entry. */
  lemma MseIsNaN(imputed: seq<seq<Float>>, x: seq<seq<real>>, w: seq<seq<bool>>, n: nat, m: nat)
    requires IsShape(imputed, n, m) && IsShape(x, n, m) && IsShape(w, n, m)
    ensures EvaluateMse(imputed, x, w, n, m) == NaN <==>
      (forall i, j :: 0 <= i < n && 0 <= j < m ==> !w[i][j])
      || (exists i, j :: 0 <= i < n && 0 <= j < m && w[i][j] && imputed[i][j] == NaN)
  {
    FlattenLength(x, n, m);
    NothingMaskedFlat(w, n, m);
    MaskedNaNFlat(imputed, w, n, m);
    FlatMseIsNaN(Flatten(imputed), Flatten(x), Flatten(w));
  }

  /** When something is masked and the imputer produced numbers there, the score is a
      number, and it is zero exactly when every masked entry was reconstructed exactly. */
  lemma MseZero(imputed: seq<seq<Float>>, x: seq<seq<real>>, w: seq<seq<bool>>, n: nat, m: nat)
    requires IsShape(imputed, n, m) && IsShape(x, n, m) && IsShape(w, n, m)
    requires exists i, j :: 0 <= i < n && 0 <= j < m && w[i][j]
    requires forall i, j :: 0 <= i < n && 0 <= j < m && w[i][j] ==> imputed[i][j].Num?
    ensures EvaluateMse(imputed, x, w, n, m).Num?
    ensures EvaluateMse(imputed, x, w, n, m) == Num(0.0) <==>
      forall i, j :: 0 <= i < n && 0 <= j < m && w[i][j] ==> imputed[i][j] == Num(x[i][j])
  {
    NothingMaskedFlat(w, n, m);
    MaskedNumbersFlat(imputed, x, w, n, m);
    FlatMseZero(Flatten(imputed), Flatten(x), Flatten(w));
  }
}
