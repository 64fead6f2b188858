/** `generate_missing_mask`: the boolean mask, of the data's shape, of the entries
    to hide. Every random draw is an explicit argument; numpy's refusal to draw
    from an empty range is an error result. */
module MissingMask {
  import opened Wrappers
  import opened Matrix
  import opened Arith

  datatype MaskError =
    | NoColumnCountToDraw   // `randint(2, n_features)` with `n_features <= 2`
    | NoWindowStartToDraw   // `randint(0, n_samples - n_samples // k - 1)` with a bound `<= 0`

  // ---------------------------------------------------------------------------
  // Missing at random.

  /** `np.random.rand(n, m) < percent / 100`: the mask drawn from uniform values `u`. */
  function AtRandom(u: seq<seq<real>>, percent: int, n: nat, m: nat): (w: seq<seq<bool>>)
    requires IsShape(u, n, m)
    ensures IsShape(w, n, m)
  {
    seq(n, i requires 0 <= i < n => seq(m, j requires 0 <= j < m =>
      u[i][j] < percent as real / 100.0))
  }

  /** `np.random.rand` draws from `[0, 1)`. */
  predicate IsUniformDraw(u: seq<seq<real>>, n: nat, m: nat)
  {
    IsShape(u, n, m) && forall i, j :: 0 <= i < n && 0 <= j < m ==> 0.0 <= u[i][j] < 1.0
  }

  /** At 0 percent nothing is masked, at 100 percent everything is, and raising the
      percentage only adds masked entries. */
  lemma AtRandomExtremes(u: seq<seq<real>>, n: nat, m: nat, p1: int, p2: int, i: nat, j: nat)
    requires IsUniformDraw(u, n, m) && p1 <= p2 && i < n && j < m
    ensures p1 <= 0 ==> !AtRandom(u, p1, n, m)[i][j]
    ensures p2 >= 100 ==> AtRandom(u, p2, n, m)[i][j]
    ensures AtRandom(u, p1, n, m)[i][j] ==> AtRandom(u, p2, n, m)[i][j]
  {
    assert p1 as real / 100.0 <= p2 as real / 100.0;
  }

  // ---------------------------------------------------------------------------
  // Missing not at random: the draws and their ranges.

  /** The draws of the not-at-random mechanism, in numpy's order: the number `k` of
      affected columns, a permutation of the columns (the first `k` are affected), and
      for each affected column the position of its driver within the unaffected
      columns and the start of its window among the driver-ranked rows. */
  datatype StructuredDraws = StructuredDraws(
    nColsAffected: int, permutation: seq<nat>, drivers: seq<nat>, starts: seq<nat>)

  /** A permutation of `range(n)`. */
  predicate IsPermutation(s: seq<nat>, n: nat)
  {
    && |s| == n
    && (forall i :: 0 <= i < n ==> s[i] < n)
    && (forall i, j :: 0 <= i < j < n ==> s[i] != s[j])
  }

  /** The number of masked entries per affected column, `n_samples // k`. */
  function WindowLength(n: nat, k: nat): nat
    requires k > 0
  {
    n / k
  }

  /** The exclusive bound `randint` gets for the window start. */
  function StartBound(n: nat, k: nat): int
    requires k > 0
  {
    n - WindowLength(n, k) - 1
  }

  /** Each draw lies where numpy draws it from, for every draw that is made before the
      first empty range stops the call. */
  predicate InRange(n: nat, m: nat, dr: StructuredDraws)
  {
    && IsPermutation(dr.permutation, m)
    && (m > 2 ==>
          var k := dr.nColsAffected;
          && 2 <= k < m
          && |dr.drivers| == k && |dr.starts| == k
          && (forall q :: 0 <= q < k ==> dr.drivers[q] < m - k)
          && (StartBound(n, k) > 0 ==> forall q :: 0 <= q < k ==> dr.starts[q] < StartBound(n, k)))
  }

  /** Both ranges are non-empty, so the mechanism produces a mask. */
  predicate Completes(n: nat, m: nat, dr: StructuredDraws)
  {
    InRange(n, m, dr) && m > 2 && StartBound(n, dr.nColsAffected) > 0
  }

  lemma HalfBound(n: nat, k: nat)
    requires k >= 2
    ensures n / k <= n / 2
  {
    var a := n / k;
    assert a * k <= n;
    MulMonotone(2, k, a);
    assert a * 2 <= n;
  }

  /** Whether the start range `[0, n - n // k - 1)` is non-empty: always from three rows
      on, with two rows only when `k > 2`, and never with fewer. */
  lemma StartBoundPositive(n: nat, k: nat)
    requires k >= 2
    ensures StartBound(n, k) > 0 <==> n >= 3 || (n == 2 && k > 2)
  {
    if n >= 3 {
      HalfBound(n, k);
      assert n / 2 < n - 1;
    } else if n == 2 && k == 2 {
      DivModUnique(2, 2, 1, 0);
    } else {
      DivModUnique(n, k, 0, n);
    }
  }

  /** `cols_permuted[k + drivers[q]]`: the driver column of affected column `q`. */
  function Driver(dr: StructuredDraws, q: nat): nat
    requires dr.nColsAffected >= 0 && q < |dr.drivers| && dr.nColsAffected + dr.drivers[q] < |dr.permutation|
  {
    dr.permutation[dr.nColsAffected + dr.drivers[q]]
  }

  /** Column `c` of a matrix of rows. */
  function Column(x: seq<seq<real>>, c: nat): (col: seq<real>)
    requires forall i :: 0 <= i < |x| ==> c < |x[i]|
    ensures |col| == |x| && forall i :: 0 <= i < |x| ==> col[i] == x[i][c]
  {
    seq(|x|, i requires 0 <= i < |x| => x[i][c])
  }

  /** `order` is `col.argsort()`: the rows listed by ascending value, ties in any order. */
  predicate IsArgsort(col: seq<real>, order: seq<nat>)
  {
    IsPermutation(order, |col|) && forall s, t :: 0 <= s < t < |order| ==> col[order[s]] <= col[order[t]]
  }

  /** An argsort for every column of `x`. */
  predicate AreArgsorts(x: seq<seq<real>>, n: nat, m: nat, argsorts: seq<seq<nat>>)
  {
    IsShape(x, n, m) && |argsorts| == m && forall c :: 0 <= c < m ==> IsArgsort(Column(x, c), argsorts[c])
  }

  /** One row ranking per column. */
  predicate AreOrders(argsorts: seq<seq<nat>>, n: nat, m: nat)
  {
    |argsorts| == m && forall c :: 0 <= c < m ==> IsPermutation(argsorts[c], n)
  }

  lemma ArgsortsAreOrders(x: seq<seq<real>>, n: nat, m: nat, argsorts: seq<seq<nat>>)
    requires AreArgsorts(x, n, m, argsorts)
    ensures AreOrders(argsorts, n, m)
  {
    forall c | 0 <= c < m ensures IsPermutation(argsorts[c], n) {
      assert IsArgsort(Column(x, c), argsorts[c]);
    }
  }

  /** The rows at ranked positions `[start, start + d)`. */
  function Window(order: seq<nat>, start: nat, d: nat): set<nat>
    requires start + d <= |order|
  {
    set s | start <= s < start + d :: order[s]
  }

  /** The window ends two ranks short of the top: `start + d <= n - 2`. */
  lemma WindowBound(n: nat, m: nat, dr: StructuredDraws, q: nat)
    requires Completes(n, m, dr) && q < dr.nColsAffected
    ensures dr.starts[q] + WindowLength(n, dr.nColsAffected) <= n - 2
  {
  }

  /** The rows masked in affected column `q`: its driver's ranked rows `[start, start + d)`. */
  function MaskedRows(n: nat, m: nat, dr: StructuredDraws, argsorts: seq<seq<nat>>, q: nat): set<nat>
    requires Completes(n, m, dr) && q < dr.nColsAffected && AreOrders(argsorts, n, m)
  {
    WindowBound(n, m, dr, q);
    Window(argsorts[Driver(dr, q)], dr.starts[q], WindowLength(n, dr.nColsAffected))
  }

  /** The mask the not-at-random mechanism produces: affected column `q` is masked at
      exactly its window, and no unaffected column is masked anywhere. */
  ghost predicate IsNotAtRandomMask(w: seq<seq<bool>>, n: nat, m: nat, dr: StructuredDraws,
                                    argsorts: seq<seq<nat>>)
    requires Completes(n, m, dr) && AreOrders(argsorts, n, m)
  {
    var k, perm := dr.nColsAffected, dr.permutation;
    && IsShape(w, n, m)
    && (forall q, i :: 0 <= q < k && 0 <= i < n ==>
          (w[i][perm[q]] <==> i in MaskedRows(n, m, dr, argsorts, q)))
    && (forall q, i :: k <= q < m && 0 <= i < n ==> !w[i][perm[q]])
  }

  // ---------------------------------------------------------------------------
  // The mechanism.

  lemma WindowExtend(order: seq<nat>, start: nat, d: nat)
    requires start + d < |order|
    ensures Window(order, start, d + 1) == Window(order, start, d) + {order[start + d]}
  {
  }

  /** `mask[values_to_discard, col_affected] = 1`, with `values_to_discard` the rows at
      ranked positions `[start, start + d)` of `order`. */
  method MarkWindow(mask: array2<bool>, col: nat, order: seq<nat>, start: nat, d: nat)
    modifies mask
    requires col < mask.Length1 && start + d <= |order|
    requires forall s :: 0 <= s < |order| ==> order[s] < mask.Length0
    ensures forall i, c :: 0 <= i < mask.Length0 && 0 <= c < mask.Length1 ==>
      (mask[i, c] <==> old(mask[i, c]) || (c == col && i in Window(order, start, d)))
  {
    for t := start to start + d
      invariant forall i, c :: 0 <= i < mask.Length0 && 0 <= c < mask.Length1 ==>
        (mask[i, c] <==> old(mask[i, c]) || (c == col && i in Window(order, start, t - start)))
    {
      WindowExtend(order, start, t - start);
      mask[order[t], col] := true;
    }
  }

  /** The not-at-random branch of `generate_missing_mask`. */
  method NotAtRandom(x: array2<real>, dr: StructuredDraws, argsorts: seq<seq<nat>>)
    returns (r: Result<array2<bool>, MaskError>)
    requires InRange(x.Length0, x.Length1, dr)
    requires AreArgsorts(Rows(x), x.Length0, x.Length1, argsorts)
    ensures r == Err(NoColumnCountToDraw) <==> x.Length1 <= 2
    ensures r == Err(NoWindowStartToDraw) <==>
      x.Length1 > 2 && StartBound(x.Length0, dr.nColsAffected) <= 0
    ensures r.Ok? <==> Completes(x.Length0, x.Length1, dr)
    ensures r.Ok? ==> fresh(r.value) && r.value.Length0 == x.Length0 && r.value.Length1 == x.Length1
    ensures r.Ok? ==> (AreOrders(argsorts, x.Length0, x.Length1) &&
      IsNotAtRandomMask(Rows(r.value), x.Length0, x.Length1, dr, argsorts))
  {
    var n, m := x.Length0, x.Length1;
    var mask := new bool[n, m]((i, j) => false);
    if m <= 2 {
      return Err(NoColumnCountToDraw);
    }
    var k := dr.nColsAffected;
    var perm := dr.permutation;
    ArgsortsAreOrders(Rows(x), n, m, argsorts);
    var q := 0;
    while q < k
      invariant 0 <= q <= k
      invariant q > 0 ==> StartBound(n, k) > 0
      invariant forall p, i :: 0 <= p < m && 0 <= i < n ==>
        (mask[i, perm[p]] <==> p < q && i in MaskedRows(n, m, dr, argsorts, p))
    {
      var col := perm[q];
      var driver := perm[k + dr.drivers[q]];
      var d := n / k;
      if n - d - 1 <= 0 {
        return Err(NoWindowStartToDraw);
      }
      var start := dr.starts[q];
      var order := argsorts[driver];
      assert IsPermutation(order, n);
      MarkWindow(mask, col, order, start, d);
      assert Window(order, start, d) == MaskedRows(n, m, dr, argsorts, q);
      q := q + 1;
    }
    r := Ok(mask);
  }

  /** `generate_missing_mask(X, percent_missing, missing_at_random)`: the uniform draws
      `u` are used at random, the structured draws otherwise; `percent_missing` has no
      effect on the not-at-random mask. */
  method GenerateMissingMask(x: array2<real>, percent: int, missingAtRandom: bool,
                             u: seq<seq<real>>, dr: StructuredDraws, argsorts: seq<seq<nat>>)
    returns (r: Result<array2<bool>, MaskError>)
    requires missingAtRandom ==> IsUniformDraw(u, x.Length0, x.Length1)
    requires !missingAtRandom ==> InRange(x.Length0, x.Length1, dr)
    requires !missingAtRandom ==> AreArgsorts(Rows(x), x.Length0, x.Length1, argsorts)
    ensures r.Ok? ==> fresh(r.value) && r.value.Length0 == x.Length0 && r.value.Length1 == x.Length1
    ensures missingAtRandom ==> r.Ok? && Rows(r.value) == AtRandom(u, percent, x.Length0, x.Length1)
    ensures !missingAtRandom ==> (r == Err(NoColumnCountToDraw) <==> x.Length1 <= 2)
    ensures !missingAtRandom ==> (r == Err(NoWindowStartToDraw) <==>
      x.Length1 > 2 && StartBound(x.Length0, dr.nColsAffected) <= 0)
    ensures !missingAtRandom ==> (r.Ok? <==> Completes(x.Length0, x.Length1, dr))
    ensures !missingAtRandom && r.Ok? ==> (AreOrders(argsorts, x.Length0, x.Length1) &&
      IsNotAtRandomMask(Rows(r.value), x.Length0, x.Length1, dr, argsorts))
  {
    if missingAtRandom {
      var n, m := x.Length0, x.Length1;
      var threshold := percent as real / 100.0;
      var mask := new bool[n, m]((i, j) requires 0 <= i < n && 0 <= j < m => u[i][j] < threshold);
      assert forall i :: 0 <= i < n ==> Rows(mask)[i] == AtRandom(u, percent, n, m)[i];
      r := Ok(mask);
    } else {
      r := NotAtRandom(x, dr, argsorts);
    }
  }

  // ---------------------------------------------------------------------------
  // What the not-at-random mask satisfies.

  /** The elements of a sequence, as a set. */
  function Elements(s: seq<nat>): set<nat>
  {
    set i | 0 <= i < |s| :: s[i]
  }

  lemma {:induction false} DistinctElements(s: seq<nat>)
    requires forall i, j :: 0 <= i < j < |s| ==> s[i] != s[j]
    ensures |Elements(s)| == |s|
  {
    if |s| > 0 {
      var init := s[..|s| - 1];
      DistinctElements(init);
      assert Elements(s) == Elements(init) + {s[|s| - 1]};
      assert s[|s| - 1] !in Elements(init);
    }
  }

  /** `range(n)`, as a sequence. */
  function Iota(n: nat): (s: seq<nat>)
    ensures |s| == n && forall i :: 0 <= i < n ==> s[i] == i
  {
    seq(n, i requires 0 <= i < n => i as nat)
  }

  /** The affected columns `cols_permuted[:k]` and the unaffected ones `cols_permuted[k:]`
      are disjoint and together are all the columns. */
  lemma ColumnsPartition(m: nat, perm: seq<nat>, k: nat)
    requires IsPermutation(perm, m) && k <= m
    ensures forall c :: c in Elements(perm[..k]) ==> c !in Elements(perm[k..])
    ensures Elements(perm[..k]) + Elements(perm[k..]) == Elements(Iota(m))
  {
    forall c | c in Elements(perm[..k]) ensures c !in Elements(perm[k..]) {
      var a :| 0 <= a < k && perm[..k][a] == c;
      forall b | 0 <= b < m - k ensures perm[k..][b] != c {
        assert perm[k..][b] == perm[k + b];
      }
    }
    var all := Elements(Iota(m));
    forall c | c in Elements(perm) ensures c in all {
      var i :| 0 <= i < m && perm[i] == c;
      assert Iota(m)[c] == c;
    }
    DistinctElements(perm);
    DistinctElements(Iota(m));
    assert |all - Elements(perm)| == 0;
    assert Elements(perm) == all;
    forall c | c in Elements(perm) ensures c in Elements(perm[..k]) + Elements(perm[k..]) {
      var i :| 0 <= i < m && perm[i] == c;
      if i < k {
        assert perm[..k][i] == c;
      } else {
        assert perm[k..][i - k] == c;
      }
    }
    forall c | c in Elements(perm[..k]) + Elements(perm[k..]) ensures c in Elements(perm) {
      if c in Elements(perm[..k]) {
        var i :| 0 <= i < k && perm[..k][i] == c;
        assert perm[i] == c;
      } else {
        var i :| 0 <= i < m - k && perm[k..][i] == c;
        assert perm[k + i] == c;
      }
    }
  }

  /** Every driver column is unaffected: it is drawn from `cols_permuted[k:]`, differs from
      every affected column, and carries no masked entry itself. */
  lemma DriverIsUnaffected(w: seq<seq<bool>>, n: nat, m: nat, dr: StructuredDraws,
                           argsorts: seq<seq<nat>>, q: nat)
    requires Completes(n, m, dr) && q < dr.nColsAffected && AreOrders(argsorts, n, m)
    requires IsNotAtRandomMask(w, n, m, dr, argsorts)
    ensures Driver(dr, q) in Elements(dr.permutation[dr.nColsAffected..])
    ensures forall p :: 0 <= p < dr.nColsAffected ==> Driver(dr, q) != dr.permutation[p]
    ensures forall i :: 0 <= i < n ==> !w[i][Driver(dr, q)]
  {
    var k := dr.nColsAffected;
    assert dr.permutation[k..][dr.drivers[q]] == Driver(dr, q);
  }

  /** The window holds `d` distinct rows, because an argsort lists each row once. */
  lemma {:induction false} WindowSize(order: seq<nat>, start: nat, d: nat)
    requires start + d <= |order|
    requires forall i, j :: 0 <= i < j < |order| ==> order[i] != order[j]
    ensures |Window(order, start, d)| == d
  {
    if d > 0 {
      WindowSize(order, start, d - 1);
      WindowExtend(order, start, d - 1);
      assert order[start + d - 1] !in Window(order, start, d - 1);
    }
  }

  /** The masked entries of a column of a mask. */
  function MaskedInColumn(w: seq<seq<bool>>, n: nat, m: nat, c: nat): set<nat>
    requires IsShape(w, n, m) && c < m
  {
    set i | 0 <= i < n && w[i][c]
  }

  /** Every affected column has exactly `n_samples // k` masked entries: at least one
      exactly when there are at least `k` rows, and at most `n_samples - 2`, so it is
      never fully masked. Every unaffected column has none. */
  lemma ColumnCounts(w: seq<seq<bool>>, n: nat, m: nat, dr: StructuredDraws,
                     argsorts: seq<seq<nat>>, q: nat)
    requires Completes(n, m, dr) && q < m && AreOrders(argsorts, n, m)
    requires IsNotAtRandomMask(w, n, m, dr, argsorts)
    ensures q < dr.nColsAffected ==>
      |MaskedInColumn(w, n, m, dr.permutation[q])| == n / dr.nColsAffected <= n - 2
    ensures q < dr.nColsAffected ==>
      (|MaskedInColumn(w, n, m, dr.permutation[q])| > 0 <==> n >= dr.nColsAffected)
    ensures q >= dr.nColsAffected ==> MaskedInColumn(w, n, m, dr.permutation[q]) == {}
  {
    var k := dr.nColsAffected;
    if q < k {
      AffectedColumnCount(w, n, m, dr, argsorts, q);
      DivPositive(n, k);
    } else {
      assert forall i :: 0 <= i < n ==> !w[i][dr.permutation[q]];
    }
  }

  lemma AffectedColumnCount(w: seq<seq<bool>>, n: nat, m: nat, dr: StructuredDraws,
                            argsorts: seq<seq<nat>>, q: nat)
    requires Completes(n, m, dr) && q < dr.nColsAffected && AreOrders(argsorts, n, m)
    requires IsNotAtRandomMask(w, n, m, dr, argsorts)
    ensures |MaskedInColumn(w, n, m, dr.permutation[q])| == n / dr.nColsAffected <= n - 2
  {
    var k := dr.nColsAffected;
    var c := dr.permutation[q];
    var order := argsorts[Driver(dr, q)];
    WindowBound(n, m, dr, q);
    assert IsPermutation(order, n);
    assert MaskedInColumn(w, n, m, c) == MaskedRows(n, m, dr, argsorts, q);
    WindowSize(order, dr.starts[q], n / k);
  }

  /** The two rows the driver ranks highest are never masked in the affected column, and
      every masked row's driver value is at most theirs: missingness falls on the lower
      part of the driver's values. */
  lemma TopRowsKept(x: seq<seq<real>>, w: seq<seq<bool>>, n: nat, m: nat, dr: StructuredDraws,
                    argsorts: seq<seq<nat>>, q: nat)
    requires Completes(n, m, dr) && q < dr.nColsAffected
    requires AreArgsorts(x, n, m, argsorts) && AreOrders(argsorts, n, m)
    requires IsNotAtRandomMask(w, n, m, dr, argsorts)
    ensures var order, c, drv := argsorts[Driver(dr, q)], dr.permutation[q], Driver(dr, q);
      && !w[order[n - 1]][c] && !w[order[n - 2]][c]
      && forall i :: 0 <= i < n && w[i][c] ==>
           x[i][drv] <= x[order[n - 2]][drv] <= x[order[n - 1]][drv]
  {
    var order, c, drv := argsorts[Driver(dr, q)], dr.permutation[q], Driver(dr, q);
    var start, d := dr.starts[q], n / dr.nColsAffected;
    WindowBound(n, m, dr, q);
    assert IsArgsort(Column(x, drv), order);
    forall i | 0 <= i < n && w[i][c]
      ensures exists s :: start <= s < start + d && order[s] == i
    {
      assert i in Window(order, start, d);
    }
    forall s | start <= s < start + d
      ensures order[s] != order[n - 1] && order[s] != order[n - 2]
      ensures x[order[s]][drv] <= x[order[n - 2]][drv] <= x[order[n - 1]][drv]
    {
      assert Column(x, drv)[order[s]] <= Column(x, drv)[order[n - 2]];
      assert Column(x, drv)[order[n - 2]] <= Column(x, drv)[order[n - 1]];
    }
    assert order[n - 1] !in Window(order, start, d);
    assert order[n - 2] !in Window(order, start, d);
  }
}
