/** The four imputers the benchmark compares. Three run the grid search of
    `fancyimpute_hpo` over their default grids; datawig is called directly. */
module Imputers {
  import opened Wrappers
  import opened Numeric
  import opened Matrix
  import opened Mse
  import opened HyperGrid
  import opened Hpo

  /** A hyperparameter value: a string, an integer or a float. */
  datatype Param = Text(s: string) | Count(k: int) | Penalty(r: real)

  /** `{'fill_method': ["mean"]}` for `SimpleFill`. */
  const MeanGrid: Grid<string, Param> := [("fill_method", [Text("mean")])]

  /** `{'k': [2, 4, 6]}` for `KNN`. */
  const KnnGrid: Grid<string, Param> := [("k", [Count(2), Count(4), Count(6)])]

  /** `{'rank': [5, 10, 50], 'l2_penalty': [1e-3, 1e-5]}` for `MatrixFactorization`. */
  const MfGrid: Grid<string, Param> :=
    [("rank", [Count(5), Count(10), Count(50)]), ("l2_penalty", [Penalty(0.001), Penalty(0.00001)])]

  // ---------------------------------------------------------------------------
  // The candidate lists.

  /** `SimpleFill` has one candidate. */
  lemma MeanCandidates()
    ensures DictProduct(MeanGrid) == [map["fill_method" := Text("mean")]]
  {
    SingleKeyGrid("fill_method", [Text("mean")]);
  }

  /** `KNN` has three candidates, in the list's order. */
  lemma KnnCandidates()
    ensures DictProduct(KnnGrid) == [map["k" := Count(2)], map["k" := Count(4)], map["k" := Count(6)]]
  {
    SingleKeyGrid("k", [Count(2), Count(4), Count(6)]);
  }

  /** Six candidates, with the rank varying slowest: `c // 2` picks the rank and `c % 2`
      the penalty. */
  lemma MfCandidates(c: nat)
    requires c < 6
    ensures |DictProduct(MfGrid)| == 6
    ensures DictProduct(MfGrid)[c] ==
      map["rank" := [Count(5), Count(10), Count(50)][c / 2],
          "l2_penalty" := [Penalty(0.001), Penalty(0.00001)][c % 2]]
  {
    TwoKeyGrid("rank", [Count(5), Count(10), Count(50)], "l2_penalty", [Penalty(0.001), Penalty(0.00001)], c);
  }

  // ---------------------------------------------------------------------------
  // The grid-searched imputers, with the default grids and `percent_validation = 10`.

  /** `impute_mean(X, mask)`: the single candidate is selected and refitted. */
  method ImputeMean(impute: Imputer<string, Param>, x: array2<real>, mask: array2<bool>, picks: seq<nat>)
    returns (r: Result<Outcome<string, Param>, HpoError>, calls: seq<Call<string, Param>>)
    requires mask.Length0 == x.Length0 && mask.Length1 == x.Length1
    requires KeepsShape(impute, x.Length0, x.Length1)
    requires |picks| == NValidation(|TrainIndices(Flatten(Rows(mask)))|, 10)
    requires PicksInRange(picks, |TrainIndices(Flatten(Rows(mask)))|)
    ensures r.Ok? && r.value.best == map["fill_method" := Text("mean")]
    ensures |calls| == 2 && calls[0].params == calls[1].params == r.value.best
    ensures calls[1].input == RefitInput(Rows(x), Rows(mask), x.Length0, x.Length1)
    ensures r.value.mse == EvaluateMse(impute(r.value.best, calls[1].input), Rows(x), Rows(mask),
                                       x.Length0, x.Length1)
  {
    MeanCandidates();
    r, calls := FancyImputeHpo(impute, MeanGrid, x, mask, 10, picks);
  }

  /** `impute_knn(X, mask)`: three search calls with `k = 2, 4, 6`, then the refit with the
      selected `k`. */
  method ImputeKnn(impute: Imputer<string, Param>, x: array2<real>, mask: array2<bool>, picks: seq<nat>)
    returns (r: Result<Outcome<string, Param>, HpoError>, calls: seq<Call<string, Param>>)
    requires mask.Length0 == x.Length0 && mask.Length1 == x.Length1
    requires KeepsShape(impute, x.Length0, x.Length1)
    requires |picks| == NValidation(|TrainIndices(Flatten(Rows(mask)))|, 10)
    requires PicksInRange(picks, |TrainIndices(Flatten(Rows(mask)))|)
    ensures r.Ok? && |calls| == 4
    ensures calls[0].params == map["k" := Count(2)]
    ensures calls[1].params == map["k" := Count(4)]
    ensures calls[2].params == map["k" := Count(6)]
    ensures forall c :: 0 <= c < 3 ==>
      calls[c].input == SearchInput(Rows(x), Rows(mask), picks, x.Length0, x.Length1)
    ensures r.value.best in DictProduct(KnnGrid)
    ensures r.value.best == DictProduct(KnnGrid)[ArgMin(
      Scores(impute, DictProduct(KnnGrid), SearchInput(Rows(x), Rows(mask), picks, x.Length0, x.Length1),
             Rows(x), ValidationMask(Rows(mask), picks, x.Length0, x.Length1), x.Length0, x.Length1))]
    ensures calls[3] == Call(r.value.best, RefitInput(Rows(x), Rows(mask), x.Length0, x.Length1))
    ensures r.value.mse == EvaluateMse(impute(r.value.best, calls[3].input), Rows(x), Rows(mask),
                                       x.Length0, x.Length1)
  {
    KnnCandidates();
    r, calls := FancyImputeHpo(impute, KnnGrid, x, mask, 10, picks);
  }

  /** `impute_mf(X, mask)`: six search calls over rank and penalty, then the refit. */
  method ImputeMf(impute: Imputer<string, Param>, x: array2<real>, mask: array2<bool>, picks: seq<nat>)
    returns (r: Result<Outcome<string, Param>, HpoError>, calls: seq<Call<string, Param>>)
    requires mask.Length0 == x.Length0 && mask.Length1 == x.Length1
    requires KeepsShape(impute, x.Length0, x.Length1)
    requires |picks| == NValidation(|TrainIndices(Flatten(Rows(mask)))|, 10)
    requires PicksInRange(picks, |TrainIndices(Flatten(Rows(mask)))|)
    ensures r.Ok? && |calls| == 7
    ensures forall c :: 0 <= c < 6 ==> calls[c].params == DictProduct(MfGrid)[c]
    ensures forall c :: 0 <= c < 6 ==>
      calls[c].input == SearchInput(Rows(x), Rows(mask), picks, x.Length0, x.Length1)
    ensures r.value.best in DictProduct(MfGrid)
    ensures r.value.best == DictProduct(MfGrid)[ArgMin(
      Scores(impute, DictProduct(MfGrid), SearchInput(Rows(x), Rows(mask), picks, x.Length0, x.Length1),
             Rows(x), ValidationMask(Rows(mask), picks, x.Length0, x.Length1), x.Length0, x.Length1))]
    ensures calls[6] == Call(r.value.best, RefitInput(Rows(x), Rows(mask), x.Length0, x.Length1))
    ensures r.value.mse == EvaluateMse(impute(r.value.best, calls[6].input), Rows(x), Rows(mask),
                                       x.Length0, x.Length1)
  {
    MfCandidates(0);
    r, calls := FancyImputeHpo(impute, MfGrid, x, mask, 10, picks);
  }

  // ---------------------------------------------------------------------------
  // datawig.

  /** `SimpleImputer.complete`: fills the NaN entries of a frame. */
  type Completer = seq<seq<Float>> -> seq<seq<Float>>

  /** A completer returns a frame of its input's shape. */
  ghost predicate CompletesShape(complete: Completer, n: nat, m: nat)
  {
    forall input: seq<seq<Float>> :: IsShape(input, n, m) ==> IsShape(complete(input), n, m)
  }

  /** A completer keeps the shape and every observed entry; it only fills the NaN ones. */
  ghost predicate FillsOnlyMissing(complete: Completer, n: nat, m: nat)
  {
    && CompletesShape(complete, n, m)
    && forall input: seq<seq<Float>> :: IsShape(input, n, m) ==>
      forall i, j :: 0 <= i < n && 0 <= j < m && input[i][j].Num? ==> complete(input)[i][j] == input[i][j]
  }

  /** `pd.DataFrame(X)`: the data with nothing missing. */
  function Observed(x: seq<seq<real>>, n: nat, m: nat): (r: seq<seq<Float>>)
    requires IsShape(x, n, m)
    ensures IsShape(r, n, m) && forall i, j :: 0 <= i < n && 0 <= j < m ==> r[i][j] == Num(x[i][j])
  {
    seq(n, i requires 0 <= i < n => seq(m, j requires 0 <= j < m => Num(x[i][j])))
  }

  /** `impute_datawig` as written: the frame handed to the imputer is the complete data. */
  function DatawigAsWritten(complete: Completer, x: seq<seq<real>>, mr: seq<seq<bool>>, n: nat, m: nat): Float
    requires IsShape(x, n, m) && IsShape(mr, n, m) && CompletesShape(complete, n, m)
  {
    EvaluateMse(complete(Observed(x, n, m)), x, mr, n, m)
  }

  /** As written, the imputer sees every true value, so the reported error is zero for
      every mask that hides anything, however the imputer would have filled the gaps. */
  lemma AsWrittenReportsZero(complete: Completer, x: seq<seq<real>>, mr: seq<seq<bool>>, n: nat, m: nat)
    requires IsShape(x, n, m) && IsShape(mr, n, m) && FillsOnlyMissing(complete, n, m)
    requires exists i, j :: 0 <= i < n && 0 <= j < m && mr[i][j]
    ensures DatawigAsWritten(complete, x, mr, n, m) == Num(0.0)
  {
    var input := Observed(x, n, m);
    assert forall i, j :: 0 <= i < n && 0 <= j < m ==> complete(input)[i][j] == Num(x[i][j]);
    MseZero(complete(input), x, mr, n, m);
  }

  /** The score with the masked entries hidden, as the other imputers are scored. */
  function DatawigScore(complete: Completer, x: seq<seq<real>>, mr: seq<seq<bool>>, n: nat, m: nat): Float
    requires IsShape(x, n, m) && IsShape(mr, n, m) && CompletesShape(complete, n, m)
  {
    EvaluateMse(complete(Incomplete(x, mr, n, m)), x, mr, n, m)
  }

  /** `impute_datawig(X, mask)` with the masked entries set to NaN before imputing. */
  method ImputeDatawig(complete: Completer, x: array2<real>, mask: array2<bool>) returns (mse: Float)
    requires mask.Length0 == x.Length0 && mask.Length1 == x.Length1
    requires CompletesShape(complete, x.Length0, x.Length1)
    ensures mse == DatawigScore(complete, Rows(x), Rows(mask), x.Length0, x.Length1)
  {
    var df := MaskedCopy(x, mask);
    mse := EvaluateMse(complete(Rows(df)), Rows(x), Rows(mask), x.Length0, x.Length1);
  }

  /** With the mask applied, the imputer sees NaN exactly at the masked entries, and the
      score is zero exactly when it reconstructs every one of them. */
  lemma DatawigScoreZero(complete: Completer, x: seq<seq<real>>, mr: seq<seq<bool>>, n: nat, m: nat)
    requires IsShape(x, n, m) && IsShape(mr, n, m) && CompletesShape(complete, n, m)
    requires exists i, j :: 0 <= i < n && 0 <= j < m && mr[i][j]
    requires forall i, j :: 0 <= i < n && 0 <= j < m && mr[i][j] ==>
      complete(Incomplete(x, mr, n, m))[i][j].Num?
    ensures MissingCells(Incomplete(x, mr, n, m), n, m) == TrueCells(mr, n, m)
    ensures DatawigScore(complete, x, mr, n, m) == Num(0.0) <==>
      forall i, j :: 0 <= i < n && 0 <= j < m && mr[i][j] ==>
        complete(Incomplete(x, mr, n, m))[i][j] == Num(x[i][j])
  {
    MissingCellsOfIncomplete(x, mr, n, m);
    MseZero(complete(Incomplete(x, mr, n, m)), x, mr, n, m);
  }

  /** A completer that fills every NaN with zero. */
  function FillZero(input: seq<seq<Float>>): seq<seq<Float>>
  {
    seq(|input|, i requires 0 <= i < |input| =>
      seq(|input[i]|, j requires 0 <= j < |input[i]| => if input[i][j] == NaN then Num(0.0) else input[i][j]))
  }

  lemma FillZeroFillsOnlyMissing(n: nat, m: nat)
    ensures FillsOnlyMissing(FillZero, n, m)
  {
  }

  /** One row `[1, 2]` with its first entry masked: as written, a zero-filling imputer
      is reported exact. */
  lemma AsWrittenCounterexample()
    ensures FillsOnlyMissing(FillZero, 1, 2)
    ensures DatawigAsWritten(FillZero, [[1.0, 2.0]], [[true, false]], 1, 2) == Num(0.0)
  {
    var mr := [[true, false]];
    FillZeroFillsOnlyMissing(1, 2);
    assert mr[0][0];
    AsWrittenReportsZero(FillZero, [[1.0, 2.0]], mr, 1, 2);
  }

  /** The same input scored with the entry hidden: the zero it fills in is one off. */
  lemma MaskedScoreOfExample()
    ensures FillsOnlyMissing(FillZero, 1, 2)
    ensures DatawigScore(FillZero, [[1.0, 2.0]], [[true, false]], 1, 2) == Num(1.0)
  {
    FillZeroFillsOnlyMissing(1, 2);
    ExampleFilled();
    ExampleScore();
  }

  /** Hiding the first entry of `[[1, 2]]` and filling it with zero gives `[[0, 2]]`. */
  lemma ExampleFilled()
    ensures FillZero(Incomplete([[1.0, 2.0]], [[true, false]], 1, 2)) == [[Num(0.0), Num(2.0)]]
  {
    var input := Incomplete([[1.0, 2.0]], [[true, false]], 1, 2);
    assert input[0][0] == NaN && input[0][1] == Num(2.0);
    assert input == [[NaN, Num(2.0)]] by {
      assert input[0] == [NaN, Num(2.0)];
    }
    var filled := FillZero(input);
    assert filled == [[Num(0.0), Num(2.0)]] by {
      assert filled[0] == [Num(0.0), Num(2.0)];
    }
  }

  /** `[[0, 2]]` against `[[1, 2]]` on the first entry: one squared error of 1. */
  lemma ExampleScore()
    ensures EvaluateMse([[Num(0.0), Num(2.0)]], [[1.0, 2.0]], [[true, false]], 1, 2) == Num(1.0)
  {
    assert Flatten([[Num(0.0), Num(2.0)]]) == [Num(0.0), Num(2.0)];
    assert Flatten([[1.0, 2.0]]) == [1.0, 2.0];
    assert Flatten([[true, false]]) == [true, false];
    var errs := SquaredErrors([Num(0.0), Num(2.0)], [1.0, 2.0]);
    assert Square(0.0 - 1.0) == 1.0;
    assert errs == [Num(1.0), Num(0.0)] by {
      assert Square(2.0 - 2.0) == 0.0;
    }
    assert Select(errs, [true, false]) == [Num(1.0)];
  }
}
