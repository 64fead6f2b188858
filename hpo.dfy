/** `fancyimpute_hpo`: grid search over imputer hyperparameters on a validation split
    drawn from the observed entries, then a refit with the winner, scored on the
    evaluation mask. The imputer is an abstract function of its parameters and its
    input; the validation draw is an explicit argument. */
module Hpo {
  import opened Wrappers
  import opened Numeric
  import opened Matrix
  import opened Mse
  import opened HyperGrid

  /** `np.array([]).argmin()` raises for an empty list of scores. */
  datatype HpoError = EmptyArgmin

  /** The selected parameters and the returned score `mse_best`. */
  datatype Outcome<K, V> = Outcome(best: map<K, V>, mse: Float)

  /** One `fancyimputer(**params).fit_transform(input)` call. */
  datatype Call<K, V> = Call(params: map<K, V>, input: seq<seq<Float>>)

  /** An imputer: constructed from parameters, applied to data with NaN at the hidden entries. */
  type Imputer<!K, !V> = (map<K, V>, seq<seq<Float>>) -> seq<seq<Float>>

  /** `fit_transform` returns data of its input's shape. */
  ghost predicate KeepsShape<K(!new), V(!new)>(impute: Imputer<K, V>, n: nat, m: nat)
  {
    forall p, input :: IsShape(input, n, m) ==> IsShape(impute(p, input), n, m)
  }

  // ---------------------------------------------------------------------------
  // The validation split.

  /** `(mask.reshape(-1) == False).nonzero()[0]`: the unmasked flat positions, ascending. */
  function TrainIndices(fm: seq<bool>): (t: seq<nat>)
    ensures forall a :: 0 <= a < |t| ==> t[a] < |fm| && !fm[t[a]]
    ensures forall a, b :: 0 <= a < b < |t| ==> t[a] < t[b]
    ensures forall l :: 0 <= l < |fm| && !fm[l] ==> l in t
  {
    if |fm| == 0 then []
    else TrainIndices(fm[..|fm| - 1]) + (if fm[|fm| - 1] then [] else [|fm| - 1])
  }

  /** `int(len(train_idx) * percent_validation / 100)`. */
  function NValidation(trainCount: nat, percentValidation: nat): (nv: nat)
    ensures nv * 100 <= trainCount * percentValidation < (nv + 1) * 100
  {
    trainCount * percentValidation / 100
  }

  predicate PicksInRange(picks: seq<nat>, count: nat)
  {
    forall t :: 0 <= t < |picks| ==> picks[t] < count
  }

  /** `np.random.choice(train_idx, n_validation)` with the drawn positions `picks` into
      `train_idx`: the flat positions of the validation entries. */
  function ValidationSet(train: seq<nat>, picks: seq<nat>): set<nat>
    requires PicksInRange(picks, |train|)
  {
    set t | 0 <= t < |picks| :: train[picks[t]]
  }

  /** The validation mask, reshaped: entry `(i, j)` is set when its flat position was drawn. */
  function ValidationMask(mr: seq<seq<bool>>, picks: seq<nat>, n: nat, m: nat): (vm: seq<seq<bool>>)
    requires IsShape(mr, n, m)
    requires PicksInRange(picks, |TrainIndices(Flatten(mr))|)
    ensures IsShape(vm, n, m)
  {
    var v := ValidationSet(TrainIndices(Flatten(mr)), picks);
    seq(n, i requires 0 <= i < n => seq(m, j requires 0 <= j < m => i * m + j in v))
  }

  /** The search input: NaN at `mask | validation_mask`, the data elsewhere. */
  function SearchInput(x: seq<seq<real>>, mr: seq<seq<bool>>, picks: seq<nat>, n: nat, m: nat): (s: seq<seq<Float>>)
    requires IsShape(x, n, m) && IsShape(mr, n, m)
    requires PicksInRange(picks, |TrainIndices(Flatten(mr))|)
    ensures IsShape(s, n, m)
  {
    Incomplete(x, Or(mr, ValidationMask(mr, picks, n, m), n, m), n, m)
  }

  /** The refit input: NaN at `mask` only. */
  function RefitInput(x: seq<seq<real>>, mr: seq<seq<bool>>, n: nat, m: nat): (s: seq<seq<Float>>)
    requires IsShape(x, n, m) && IsShape(mr, n, m)
    ensures IsShape(s, n, m)
  {
    Incomplete(x, mr, n, m)
  }

  /** `mse_hpo`: each candidate's validation score, in candidate order. */
  function Scores<K(!new), V(!new)>(impute: Imputer<K, V>, cands: seq<map<K, V>>, input: seq<seq<Float>>,
                        x: seq<seq<real>>, vm: seq<seq<bool>>, n: nat, m: nat): (s: seq<Float>)
    requires KeepsShape(impute, n, m) && IsShape(input, n, m) && IsShape(x, n, m) && IsShape(vm, n, m)
    ensures |s| == |cands|
    ensures forall c :: 0 <= c < |cands| ==> s[c] == EvaluateMse(impute(cands[c], input), x, vm, n, m)
  {
    seq(|cands|, c requires 0 <= c < |cands| => EvaluateMse(impute(cands[c], input), x, vm, n, m))
  }

  // ---------------------------------------------------------------------------
  // The search.

  lemma ValidationExtend(train: seq<nat>, picks: seq<nat>, t: nat)
    requires PicksInRange(picks, |train|) && t < |picks|
    ensures PicksInRange(picks[..t], |train|) && PicksInRange(picks[..t + 1], |train|)
    ensures ValidationSet(train, picks[..t + 1]) == ValidationSet(train, picks[..t]) + {train[picks[t]]}
  {
    var a, b := picks[..t], picks[..t + 1];
    assert forall u :: 0 <= u < t ==> a[u] == b[u] == picks[u];
    assert b[t] == picks[t];
  }

  /** `validation_mask = np.zeros(size); validation_mask[validation_idx] = 1`, with
      `validation_idx` the training positions at `picks`. */
  method MarkValidation(train: seq<nat>, picks: seq<nat>, size: nat) returns (vflat: array<bool>)
    requires PicksInRange(picks, |train|)
    requires forall t :: 0 <= t < |train| ==> train[t] < size
    ensures fresh(vflat) && vflat.Length == size
    ensures forall l :: 0 <= l < size ==> (vflat[l] <==> l in ValidationSet(train, picks))
  {
    vflat := new bool[size](l => false);
    for t := 0 to |picks|
      invariant PicksInRange(picks[..t], |train|)
      invariant forall l :: 0 <= l < size ==> (vflat[l] <==> l in ValidationSet(train, picks[..t]))
    {
      ValidationExtend(train, picks, t);
      vflat[train[picks[t]]] := true;
    }
    assert picks[..|picks|] == picks;
  }

  /** The drawn validation mask, `.reshape(X.shape) > 0`. */
  method DrawValidationMask(mr: seq<seq<bool>>, n: nat, m: nat, picks: seq<nat>)
    returns (vmask: array2<bool>)
    requires IsShape(mr, n, m)
    requires PicksInRange(picks, |TrainIndices(Flatten(mr))|)
    ensures fresh(vmask) && vmask.Length0 == n && vmask.Length1 == m
    ensures Rows(vmask) == ValidationMask(mr, picks, n, m)
  {
    FlattenLength(mr, n, m);
    var train := TrainIndices(Flatten(mr));
    var vflat := MarkValidation(train, picks, n * m);
    var vf := vflat[..];
    vmask := new bool[n, m]((i, j) requires 0 <= i < n && 0 <= j < m =>
      RowMajorBound(n, m, i, j); vf[i * m + j]);
    var vr := ValidationMask(mr, picks, n, m);
    forall i, j | 0 <= i < n && 0 <= j < m ensures vmask[i, j] == vr[i][j] {
      RowMajorBound(n, m, i, j);
      assert vmask[i, j] == vf[i * m + j];
    }
    assert forall i :: 0 <= i < n ==> Rows(vmask)[i] == vr[i];
  }

  /** `X_incomplete = X.copy(); X_incomplete[mask | validation_mask] = np.nan`, with the
      validation mask drawn from `picks`. */
  method HideSearchEntries(x: array2<real>, mask: array2<bool>, picks: seq<nat>) returns (input: array2<Float>)
    requires mask.Length0 == x.Length0 && mask.Length1 == x.Length1
    requires PicksInRange(picks, |TrainIndices(Flatten(Rows(mask)))|)
    ensures fresh(input) && input.Length0 == x.Length0 && input.Length1 == x.Length1
    ensures Rows(input) == SearchInput(Rows(x), Rows(mask), picks, x.Length0, x.Length1)
  {
    var n, m := x.Length0, x.Length1;
    var mr := Rows(mask);
    var vmask := DrawValidationMask(mr, n, m, picks);
    var vr := Rows(vmask);
    var both := new bool[n, m]((i, j) requires 0 <= i < n && 0 <= j < m => mr[i][j] || vr[i][j]);
    assert forall i :: 0 <= i < n ==> Rows(both)[i] == Or(mr, vr, n, m)[i];
    input := MaskedCopy(x, both);
  }

  /** The search loop: one imputer call per candidate on the same input, each scored on
      the validation mask. */
  method Search<K(!new), V(!new)>(impute: Imputer<K, V>, cands: seq<map<K, V>>, input: seq<seq<Float>>,
                                  x: seq<seq<real>>, vm: seq<seq<bool>>, n: nat, m: nat)
    returns (scores: seq<Float>, calls: seq<Call<K, V>>)
    requires KeepsShape(impute, n, m) && IsShape(input, n, m) && IsShape(x, n, m) && IsShape(vm, n, m)
    ensures scores == Scores(impute, cands, input, x, vm, n, m)
    ensures |calls| == |cands| && forall c :: 0 <= c < |cands| ==> calls[c] == Call(cands[c], input)
  {
    scores, calls := [], [];
    for c := 0 to |cands|
      invariant |scores| == c && |calls| == c
      invariant forall t :: 0 <= t < c ==> scores[t] == EvaluateMse(impute(cands[t], input), x, vm, n, m)
      invariant forall t :: 0 <= t < c ==> calls[t] == Call(cands[t], input)
    {
      var imputed := impute(cands[c], input);
      scores := scores + [EvaluateMse(imputed, x, vm, n, m)];
      calls := calls + [Call(cands[c], input)];
    }
  }

  method FancyImputeHpo<K(==, !new), V(==, !new)>(impute: Imputer<K, V>, grid: Grid<K, V>,
                                                  x: array2<real>, mask: array2<bool>,
                                                  percentValidation: nat, picks: seq<nat>)
    returns (r: Result<Outcome<K, V>, HpoError>, calls: seq<Call<K, V>>)
    requires mask.Length0 == x.Length0 && mask.Length1 == x.Length1
    requires KeepsShape(impute, x.Length0, x.Length1)
    requires |picks| == NValidation(|TrainIndices(Flatten(Rows(mask)))|, percentValidation)
    requires PicksInRange(picks, |TrainIndices(Flatten(Rows(mask)))|)
    ensures r.Err? <==> DictProduct(grid) == []
    ensures |calls| == |DictProduct(grid)| + if r.Ok? then 1 else 0
    ensures forall c :: 0 <= c < |DictProduct(grid)| ==>
      calls[c] == Call(DictProduct(grid)[c], SearchInput(Rows(x), Rows(mask), picks, x.Length0, x.Length1))
    ensures r.Ok? ==>
      var n, m, cands := x.Length0, x.Length1, DictProduct(grid);
      var scores := Scores(impute, cands, SearchInput(Rows(x), Rows(mask), picks, n, m), Rows(x),
                           ValidationMask(Rows(mask), picks, n, m), n, m);
      && r.value.best == cands[ArgMin(scores)]
      && calls[|cands|] == Call(r.value.best, RefitInput(Rows(x), Rows(mask), n, m))
      && r.value.mse == EvaluateMse(impute(r.value.best, RefitInput(Rows(x), Rows(mask), n, m)),
                                    Rows(x), Rows(mask), n, m)
  {
    var n, m := x.Length0, x.Length1;
    var cands := DictProduct(grid);
    var xr, mr := Rows(x), Rows(mask);
    var searchArray := HideSearchEntries(x, mask, picks);
    var vr := ValidationMask(mr, picks, n, m);
    var scores;
    scores, calls := Search(impute, cands, Rows(searchArray), xr, vr, n, m);
    if |scores| == 0 {
      return Err(EmptyArgmin), calls;
    }
    var best := cands[ArgMin(scores)];
    // X_incomplete = X.copy(); X_incomplete[mask] = np.nan; refit with the best parameters
    var refitArray := MaskedCopy(x, mask);
    var imputed := impute(best, Rows(refitArray));
    calls := calls + [Call(best, Rows(refitArray))];
    r := Ok(Outcome(best, EvaluateMse(imputed, xr, mr, n, m)));
  }

  // ---------------------------------------------------------------------------
  // What the split and the inputs satisfy.

  /** The validation entries are drawn from the unmasked ones, so the validation mask and
      the evaluation mask never overlap. */
  lemma ValidationDisjoint(mr: seq<seq<bool>>, picks: seq<nat>, n: nat, m: nat)
    requires IsShape(mr, n, m)
    requires PicksInRange(picks, |TrainIndices(Flatten(mr))|)
    ensures forall i, j :: 0 <= i < n && 0 <= j < m && ValidationMask(mr, picks, n, m)[i][j] ==> !mr[i][j]
  {
    forall i, j | 0 <= i < n && 0 <= j < m && ValidationMask(mr, picks, n, m)[i][j]
      ensures !mr[i][j]
    {
      ValidationCellUnmasked(mr, picks, n, m, i, j);
    }
  }

  lemma ValidationCellUnmasked(mr: seq<seq<bool>>, picks: seq<nat>, n: nat, m: nat, i: nat, j: nat)
    requires IsShape(mr, n, m) && i < n && j < m
    requires PicksInRange(picks, |TrainIndices(Flatten(mr))|)
    requires ValidationMask(mr, picks, n, m)[i][j]
    ensures !mr[i][j]
  {
    var train := TrainIndices(Flatten(mr));
    FlattenAt(mr, n, m, i, j);
    var l := i * m + j;
    assert l in ValidationSet(train, picks);
    var t :| 0 <= t < |picks| && train[picks[t]] == l;
    assert !Flatten(mr)[train[picks[t]]];
  }

  /** Drawing with replacement can repeat positions: there are at most `n_validation`
      validation entries, and none exactly when `n_validation` is zero. */
  lemma {:induction false} ValidationCount(train: seq<nat>, picks: seq<nat>)
    requires PicksInRange(picks, |train|)
    ensures |ValidationSet(train, picks)| <= |picks|
    ensures |ValidationSet(train, picks)| == 0 <==> |picks| == 0
  {
    if |picks| > 0 {
      var t := |picks| - 1;
      ValidationExtend(train, picks, t);
      ValidationCount(train, picks[..t]);
      assert picks[..t + 1] == picks;
      assert train[picks[t]] in ValidationSet(train, picks);
    }
  }

  /** The search input hides the evaluation and the validation entries and shows the data
      everywhere else; the refit input hides only the evaluation entries, so the
      validation entries are visible again. */
  lemma InputsHide(x: seq<seq<real>>, mr: seq<seq<bool>>, picks: seq<nat>, n: nat, m: nat, i: nat, j: nat)
    requires IsShape(x, n, m) && IsShape(mr, n, m) && i < n && j < m
    requires PicksInRange(picks, |TrainIndices(Flatten(mr))|)
    ensures SearchInput(x, mr, picks, n, m)[i][j] == NaN <==>
      mr[i][j] || ValidationMask(mr, picks, n, m)[i][j]
    ensures !mr[i][j] && !ValidationMask(mr, picks, n, m)[i][j] ==>
      SearchInput(x, mr, picks, n, m)[i][j] == Num(x[i][j])
    ensures RefitInput(x, mr, n, m)[i][j] == NaN <==> mr[i][j]
    ensures ValidationMask(mr, picks, n, m)[i][j] ==> RefitInput(x, mr, n, m)[i][j] == Num(x[i][j])
  {
    var vm := ValidationMask(mr, picks, n, m);
    IncompleteAt(x, Or(mr, vm, n, m), n, m, i, j);
    IncompleteAt(x, mr, n, m, i, j);
    ValidationDisjoint(mr, picks, n, m);
  }

  /** With no validation draw (fewer than `100 / percent_validation` training entries),
      every candidate scores NaN and the search returns the first candidate. */
  lemma NoValidationPicksFirst<K(!new), V(!new)>(impute: Imputer<K, V>, cands: seq<map<K, V>>,
                                     x: seq<seq<real>>, mr: seq<seq<bool>>, n: nat, m: nat)
    requires KeepsShape(impute, n, m) && IsShape(x, n, m) && IsShape(mr, n, m) && |cands| > 0
    ensures PicksInRange([], |TrainIndices(Flatten(mr))|)
    ensures var scores := Scores(impute, cands, SearchInput(x, mr, [], n, m), x,
                                 ValidationMask(mr, [], n, m), n, m);
      (forall c :: 0 <= c < |cands| ==> scores[c] == NaN) && ArgMin(scores) == 0
  {
    var vm := ValidationMask(mr, [], n, m);
    var input := SearchInput(x, mr, [], n, m);
    var scores := Scores(impute, cands, input, x, vm, n, m);
    assert forall i, j :: 0 <= i < n && 0 <= j < m ==> !vm[i][j];
    forall c | 0 <= c < |cands| ensures scores[c] == NaN {
      MseIsNaN(impute(cands[c], input), x, vm, n, m);
    }
    ArgMinPrefersNaN(scores, 0);
  }

  /** The selected candidate is the first whose score no other score beats. */
  lemma SelectionIsFirstMinimal(scores: seq<Float>, c: nat)
    requires |scores| > 0 && c < |scores|
    ensures !Below(scores[c], scores[ArgMin(scores)])
    ensures c < ArgMin(scores) ==> Below(scores[ArgMin(scores)], scores[c])
    ensures IsFirstMin(scores, c) ==> c == ArgMin(scores)
  {
    if IsFirstMin(scores, c) {
      FirstMinUnique(scores, c, ArgMin(scores));
    }
  }
}
