/** Dense 2-D values as numpy holds them: shapes, the row-major reshape to a flat
    vector, and the "copy, then set NaN where a mask is true" construction. */
module Matrix {
  import opened Numeric
  import opened Arith

  /** `s` has `n` rows of `m` entries each. */
  predicate IsShape<T>(s: seq<seq<T>>, n: nat, m: nat)
  {
    |s| == n && forall i :: 0 <= i < n ==> |s[i]| == m
  }

  /** The current contents of a 2-D array, row by row. */
  function Rows<T>(a: array2<T>): (s: seq<seq<T>>)
    reads a
    ensures IsShape(s, a.Length0, a.Length1)
    ensures forall i, j :: 0 <= i < a.Length0 && 0 <= j < a.Length1 ==> s[i][j] == a[i, j]
  {
    seq(a.Length0, i requires 0 <= i < a.Length0 reads a =>
      seq(a.Length1, j requires 0 <= j < a.Length1 reads a => a[i, j]))
  }

  /** `reshape(n * m)`: the rows laid end to end (row-major order). */
  function Flatten<T>(s: seq<seq<T>>): seq<T>
  {
    if s == [] then [] else s[0] + Flatten(s[1..])
  }

  /** The flat position `i * m + j` of entry `(i, j)` lies inside the flat vector. */
  lemma {:induction false} RowMajorBound(n: nat, m: nat, i: nat, j: nat)
    requires i < n && j < m
    ensures i * m + j < n * m
  {
    if i + 1 < n {
      RowMajorBound(n - 1, m, i, j);
    }
  }

  /** Reshaping is row-major: entry `(i, j)` sits at flat position `i * m + j`,
      and the flat vector has exactly `n * m` entries. */
  lemma {:induction false} FlattenAt<T>(s: seq<seq<T>>, n: nat, m: nat, i: nat, j: nat)
    requires IsShape(s, n, m) && i < n && j < m
    ensures |Flatten(s)| == n * m
    ensures i * m + j < n * m && Flatten(s)[i * m + j] == s[i][j]
  {
    RowMajorBound(n, m, i, j);
    FlattenLength(s, n, m);
    if i > 0 {
      assert IsShape(s[1..], n - 1, m);
      FlattenAt(s[1..], n - 1, m, i - 1, j);
      assert i * m + j == m + ((i - 1) * m + j);
    }
  }

  lemma {:induction false} FlattenLength<T>(s: seq<seq<T>>, n: nat, m: nat)
    requires IsShape(s, n, m)
    ensures |Flatten(s)| == n * m
  {
    if n > 0 {
      assert IsShape(s[1..], n - 1, m);
      FlattenLength(s[1..], n - 1, m);
    }
  }

  /** Every flat position comes from some entry `(l / m, l % m)`. */
  lemma FlatPosition(n: nat, m: nat, l: nat)
    requires l < n * m
    ensures m > 0 && l / m < n && l % m < m && (l / m) * m + l % m == l
  {
    MulMonotone(0, n, m);
    assert m > 0;
    MulMonotone(n, l / m, m);
  }

  /** Elementwise `a | b` of two masks of one shape. */
  function Or(a: seq<seq<bool>>, b: seq<seq<bool>>, n: nat, m: nat): (r: seq<seq<bool>>)
    requires IsShape(a, n, m) && IsShape(b, n, m)
    ensures IsShape(r, n, m)
    ensures forall i, j :: 0 <= i < n && 0 <= j < m ==> (r[i][j] <==> a[i][j] || b[i][j])
  {
    seq(n, i requires 0 <= i < n => seq(m, j requires 0 <= j < m => a[i][j] || b[i][j]))
  }

  /** `Xc = X.copy(); Xc[w] = np.nan`: the data with NaN exactly where `w` is true. */
  function Incomplete(x: seq<seq<real>>, w: seq<seq<bool>>, n: nat, m: nat): (r: seq<seq<Float>>)
    requires IsShape(x, n, m) && IsShape(w, n, m)
    ensures IsShape(r, n, m)
  {
    seq(n, i requires 0 <= i < n => seq(m, j requires 0 <= j < m =>
      if w[i][j] then NaN else Num(x[i][j])))
  }

  /** The imputer input carries NaN exactly at the masked entries and the ground truth
      everywhere else. */
  lemma IncompleteAt(x: seq<seq<real>>, w: seq<seq<bool>>, n: nat, m: nat, i: nat, j: nat)
    requires IsShape(x, n, m) && IsShape(w, n, m) && i < n && j < m
    ensures Incomplete(x, w, n, m)[i][j] == NaN <==> w[i][j]
    ensures !w[i][j] ==> Incomplete(x, w, n, m)[i][j] == Num(x[i][j])
  {
  }

  /** The NaN entries of an imputer input: the entries it hides. */
  function MissingCells(r: seq<seq<Float>>, n: nat, m: nat): set<(nat, nat)>
    requires IsShape(r, n, m)
  {
    set i: nat, j: nat | i < n && j < m && r[i][j] == NaN :: (i, j)
  }

  /** The true entries of a mask. */
  function TrueCells(w: seq<seq<bool>>, n: nat, m: nat): set<(nat, nat)>
    requires IsShape(w, n, m)
  {
    set i: nat, j: nat | i < n && j < m && w[i][j] :: (i, j)
  }

  /** Hiding more entries hides at least as many: the missing cells of `Incomplete`
      are exactly the mask's true cells. */
  lemma MissingCellsOfIncomplete(x: seq<seq<real>>, w: seq<seq<bool>>, n: nat, m: nat)
    requires IsShape(x, n, m) && IsShape(w, n, m)
    ensures MissingCells(Incomplete(x, w, n, m), n, m) == TrueCells(w, n, m)
  {
  }

  /** `c[w] = np.nan`, in place: NaN where `w` is true, every other entry unchanged. */
  method SetMissing(c: array2<Float>, w: array2<bool>)
    requires w.Length0 == c.Length0 && w.Length1 == c.Length1
    modifies c
    ensures forall i, j :: 0 <= i < c.Length0 && 0 <= j < c.Length1 ==>
      c[i, j] == if w[i, j] then NaN else old(c[i, j])
  {
    var i := 0;
    while i < c.Length0
      invariant 0 <= i <= c.Length0
      invariant forall p, q :: 0 <= p < c.Length0 && 0 <= q < c.Length1 ==>
        c[p, q] == if p < i && w[p, q] then NaN else old(c[p, q])
    {
      var j := 0;
      while j < c.Length1
        invariant 0 <= j <= c.Length1
        invariant forall p, q :: 0 <= p < c.Length0 && 0 <= q < c.Length1 ==>
          c[p, q] == if (p < i || (p == i && q < j)) && w[p, q] then NaN else old(c[p, q])
      {
        if w[i, j] {
          c[i, j] := NaN;
        }
        j := j + 1;
      }
      i := i + 1;
    }
  }

  /** `X_incomplete = X.copy(); X_incomplete[w] = np.nan`, proved against `Incomplete`. */
  method MaskedCopy(x: array2<real>, w: array2<bool>) returns (c: array2<Float>)
    requires w.Length0 == x.Length0 && w.Length1 == x.Length1
    ensures fresh(c) && c.Length0 == x.Length0 && c.Length1 == x.Length1
    ensures Rows(c) == Incomplete(Rows(x), Rows(w), x.Length0, x.Length1)
  {
    var xs := Rows(x);
    c := new Float[x.Length0, x.Length1]((i, j) requires 0 <= i < x.Length0 && 0 <= j < x.Length1 =>
      Num(xs[i][j]));
    SetMissing(c, w);
    assert forall i :: 0 <= i < x.Length0 ==>
      Rows(c)[i] == Incomplete(Rows(x), Rows(w), x.Length0, x.Length1)[i];
  }
}
