/** `experiment`: for every percentage, dataset, missingness mechanism and imputer, in
    that nesting order, one benchmark record. Loading, mask drawing and imputing are
    abstract functions; the global random state they share is replaced by the number of
    masks, respectively imputer runs, drawn before the call. */
module Experiment {
  import opened Numeric
  import opened Arith

  datatype Dataset = LowRankMatrix | Diabetes | Wine | SwissRoll

  /** The loader's `__name__`. */
  function DatasetName(d: Dataset): string
  {
    match d
    case LowRankMatrix => "make_low_rank_matrix"
    case Diabetes => "load_diabetes"
    case Wine => "load_wine"
    case SwissRoll => "make_swiss_roll"
  }

  datatype Imputation = Mean | Knn | Mf | Datawig

  /** The imputer function's `__name__`. */
  function ImputerName(i: Imputation): string
  {
    match i
    case Mean => "impute_mean"
    case Knn => "impute_knn"
    case Mf => "impute_mf"
    case Datawig => "impute_datawig"
  }

  /** `DATA_LOADERS`, the two mechanisms and `imputers`, in the loops' order. */
  const Loaders: seq<Dataset> := [LowRankMatrix, Diabetes, Wine, SwissRoll]
  const Mechanisms: seq<bool> := [true, false]
  const Methods: seq<Imputation> := [Mean, Knn, Mf, Datawig]

  /** One result dictionary. */
  datatype Record = Record(data: string, imputer: string, percentMissing: int, missingAtRandom: bool, mse: Float)

  // ---------------------------------------------------------------------------
  // Positions in the loop nest.

  /** The loop indices of one imputer run: percentage, loader, mechanism, imputer. */
  datatype Run = Run(p: nat, l: nat, a: nat, i: nat)

  predicate InGrid(c: Run, np: nat)
  {
    c.p < np && c.l < |Loaders| && c.a < |Mechanisms| && c.i < |Methods|
  }

  /** Where the record of a run lands in `results`. */
  function Position(c: Run): nat
  {
    ((c.p * 4 + c.l) * 2 + c.a) * 4 + c.i
  }

  /** The run whose record is at position `r`. */
  function Coordinates(r: nat): Run
  {
    Run(r / 32, (r / 8) % 4, (r / 4) % 2, r % 4)
  }

  /** Run `c` comes before run `d` in the loops: lexicographic order on the indices. */
  predicate Before(c: Run, d: Run)
  {
    || c.p < d.p
    || (c.p == d.p && c.l < d.l)
    || (c.p == d.p && c.l == d.l && c.a < d.a)
    || (c.p == d.p && c.l == d.l && c.a == d.a && c.i < d.i)
  }

  lemma CoordinatesInGrid(r: nat, np: nat)
    requires r < 32 * np
    ensures InGrid(Coordinates(r), np)
  {
    DivBelow(r, np, 32);
  }

  /** Decoding a position and encoding it again gives the position back. */
  lemma PositionOfCoordinates(r: nat)
    ensures Position(Coordinates(r)) == r
  {
    var q4 := r / 4;
    var q8 := q4 / 2;
    DivModUnique(r, 8, q8, 4 * (q4 % 2) + r % 4);
    var q32 := q8 / 4;
    DivModUnique(r, 32, q32, 8 * (q8 % 4) + 4 * (q4 % 2) + r % 4);
  }

  /** Encoding a run and decoding its position gives the run back. */
  lemma CoordinatesOfPosition(c: Run, np: nat)
    requires InGrid(c, np)
    ensures Position(c) < 32 * np
    ensures Coordinates(Position(c)) == c
  {
    var r := Position(c);
    var t := (c.p * 4 + c.l) * 2 + c.a;
    var s := c.p * 4 + c.l;
    DivModUnique(r, 4, t, c.i);
    DivModUnique(t, 2, s, c.a);
    DivModUnique(s, 4, c.p, c.l);
    DivModUnique(r, 8, s, r - 8 * s);
    DivModUnique(r, 32, c.p, r - 32 * c.p);
    MulMonotone(c.p, np - 1, 32);
  }

  /** Positions follow the loops' order: an earlier record belongs to an earlier run. */
  lemma Ordered(r1: nat, r2: nat)
    requires r1 < r2
    ensures Before(Coordinates(r1), Coordinates(r2))
  {
    PositionOfCoordinates(r1);
    PositionOfCoordinates(r2);
    CoordinatesInGrid(r1, r1 / 32 + 1);
    CoordinatesInGrid(r2, r2 / 32 + 1);
  }

  // ---------------------------------------------------------------------------
  // The experiment.

  /** The record at position `r`: the data loaded for its loader, the mask drawn for its
      (percentage, loader, mechanism) as the `r / 4`-th mask, and the imputer run as the
      `r`-th run on that data and mask. */
  function Entry<D, W>(percents: seq<int>, load: Dataset -> D, genMask: (D, int, bool, nat) -> W,
                       run: (Imputation, D, W, nat) -> Float, r: nat): (e: Record)
    requires r < 32 * |percents|
    ensures e.data == DatasetName(Loaders[Coordinates(r).l])
    ensures e.imputer == ImputerName(Methods[Coordinates(r).i])
    ensures e.percentMissing == percents[Coordinates(r).p]
    ensures e.missingAtRandom == Mechanisms[Coordinates(r).a]
  {
    CoordinatesInGrid(r, |percents|);
    var c := Coordinates(r);
    var x := load(Loaders[c.l]);
    var w := genMask(x, percents[c.p], Mechanisms[c.a], r / 4);
    Record(DatasetName(Loaders[c.l]), ImputerName(Methods[c.i]), percents[c.p], Mechanisms[c.a],
           run(Methods[c.i], x, w, r))
  }

  /** The record of run `c`. The mask it is scored on depends on the percentage, the
      loader and the mechanism but not on the imputer: the four imputers of one
      (percentage, loader, mechanism) share one mask, the `(p * 4 + l) * 2 + a`-th drawn. */
  lemma RunRecord<D, W>(percents: seq<int>, load: Dataset -> D, genMask: (D, int, bool, nat) -> W,
                        run: (Imputation, D, W, nat) -> Float, c: Run)
    requires InGrid(c, |percents|)
    ensures Position(c) < 32 * |percents|
    ensures
      var x := load(Loaders[c.l]);
      var w := genMask(x, percents[c.p], Mechanisms[c.a], (c.p * 4 + c.l) * 2 + c.a);
      Entry(percents, load, genMask, run, Position(c)) ==
        Record(DatasetName(Loaders[c.l]), ImputerName(Methods[c.i]), percents[c.p], Mechanisms[c.a],
               run(Methods[c.i], x, w, Position(c)))
  {
    CoordinatesOfPosition(c, |percents|);
    DivModUnique(Position(c), 4, (c.p * 4 + c.l) * 2 + c.a, c.i);
  }

  /** The first `len` records. */
  function Entries<D, W>(percents: seq<int>, load: Dataset -> D, genMask: (D, int, bool, nat) -> W,
                         run: (Imputation, D, W, nat) -> Float, len: nat): (es: seq<Record>)
    requires len <= 32 * |percents|
    ensures |es| == len
  {
    seq(len, r requires 0 <= r < len => Entry(percents, load, genMask, run, r))
  }

  lemma EntriesExtend<D, W>(percents: seq<int>, load: Dataset -> D, genMask: (D, int, bool, nat) -> W,
                            run: (Imputation, D, W, nat) -> Float, len: nat)
    requires len < 32 * |percents|
    ensures Entries(percents, load, genMask, run, len + 1) ==
      Entries(percents, load, genMask, run, len) + [Entry(percents, load, genMask, run, len)]
  {
    var a, b := Entries(percents, load, genMask, run, len + 1), Entries(percents, load, genMask, run, len);
    assert forall r :: 0 <= r < len ==> a[r] == b[r];
  }

  /** The innermost loop: every imputer on data `x` and mask `w` of one (percentage, loader,
      mechanism), appending four records. */
  method RunImputers<D, W>(percents: seq<int>, load: Dataset -> D, genMask: (D, int, bool, nat) -> W,
                           run: (Imputation, D, W, nat) -> Float, pi: nat, li: nat, ai: nat,
                           x: D, w: W, before: seq<Record>)
    returns (results: seq<Record>)
    requires InGrid(Run(pi, li, ai, 0), |percents|)
    requires x == load(Loaders[li]) && w == genMask(x, percents[pi], Mechanisms[ai], (pi * 4 + li) * 2 + ai)
    requires |before| == Position(Run(pi, li, ai, 0))
    requires before == Entries(percents, load, genMask, run, |before|)
    ensures |results| == |before| + |Methods| <= 32 * |percents|
    ensures results == Entries(percents, load, genMask, run, |results|)
  {
    results := before;
    var ii := 0;
    while ii < |Methods|
      invariant ii <= |Methods|
      invariant |results| == Position(Run(pi, li, ai, ii))
      invariant results == Entries(percents, load, genMask, run, |results|)
    {
      var imputation := Methods[ii];
      var mse := run(imputation, x, w, |results|);
      RunRecord(percents, load, genMask, run, Run(pi, li, ai, ii));
      var e := Record(DatasetName(Loaders[li]), ImputerName(imputation), percents[pi], Mechanisms[ai], mse);
      assert e == Entry(percents, load, genMask, run, |results|);
      EntriesExtend(percents, load, genMask, run, |results|);
      results := results + [e];
      ii := ii + 1;
    }
    CoordinatesOfPosition(Run(pi, li, ai, 3), |percents|);
  }

  /** `experiment(percent_missing_list)`. */
  method Experiment<D, W>(percents: seq<int>, load: Dataset -> D, genMask: (D, int, bool, nat) -> W,
                          run: (Imputation, D, W, nat) -> Float)
    returns (results: seq<Record>)
    ensures |results| == |percents| * |Loaders| * |Mechanisms| * |Methods|
    ensures forall r :: 0 <= r < |results| ==> results[r] == Entry(percents, load, genMask, run, r)
  {
    results := [];
    var pi := 0;
    while pi < |percents|
      invariant pi <= |percents|
      invariant |results| == 32 * pi
      invariant results == Entries(percents, load, genMask, run, |results|)
    {
      var percent := percents[pi];
      var li := 0;
      while li < |Loaders|
        invariant li <= |Loaders|
        invariant |results| == 32 * pi + 8 * li
        invariant results == Entries(percents, load, genMask, run, |results|)
      {
        var data := Loaders[li];
        var x := load(data);
        var ai := 0;
        while ai < |Mechanisms|
          invariant ai <= |Mechanisms|
          invariant |results| == 32 * pi + 8 * li + 4 * ai
          invariant results == Entries(percents, load, genMask, run, |results|)
        {
          var atRandom := Mechanisms[ai];
          var w := genMask(x, percent, atRandom, (pi * 4 + li) * 2 + ai);
          results := RunImputers(percents, load, genMask, run, pi, li, ai, x, w, results);
          ai := ai + 1;
        }
        li := li + 1;
      }
      pi := pi + 1;
    }
  }
}
