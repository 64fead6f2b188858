/** `dict_product`: a hyperparameter grid (an ordered dict from parameter name to
    the list of values to try) expanded into the list of all parameter assignments,
    in the order of `itertools.product`. */
module HyperGrid {
  import opened Arith

  /** A grid, in the dict's insertion order: each name with its candidate values. */
  type Grid<K, V> = seq<(K, seq<V>)>

  /** `hp_dict.keys()`. */
  function Keys<K, V>(g: Grid<K, V>): (ks: seq<K>)
    ensures |ks| == |g| && forall j :: 0 <= j < |g| ==> ks[j] == g[j].0
  {
    seq(|g|, j requires 0 <= j < |g| => g[j].0)
  }

  /** `hp_dict.values()`. */
  function ValueLists<K, V>(g: Grid<K, V>): (vss: seq<seq<V>>)
    ensures |vss| == |g| && forall j :: 0 <= j < |g| ==> vss[j] == g[j].1
  {
    seq(|g|, j requires 0 <= j < |g| => g[j].1)
  }

  /** A dict never holds a key twice. */
  predicate DistinctKeys<K(==), V>(g: Grid<K, V>)
  {
    forall i, j :: 0 <= i < j < |g| ==> g[i].0 != g[j].0
  }

  /** The product of the list lengths: how many tuples `itertools.product` yields. */
  function Size<V>(vss: seq<seq<V>>): nat
  {
    if vss == [] then 1 else |vss[0]| * Size(vss[1..])
  }

  /** Each value of `vs` in turn, followed by every tuple of `ts`. */
  function Spread<V>(vs: seq<V>, ts: seq<seq<V>>): seq<seq<V>>
  {
    if vs == [] then []
    else seq(|ts|, t requires 0 <= t < |ts| => [vs[0]] + ts[t]) + Spread(vs[1..], ts)
  }

  /** `itertools.product(*vss)`: the first list varies slowest, the last fastest;
      with no lists it yields the single empty tuple. */
  function Product<V>(vss: seq<seq<V>>): seq<seq<V>>
  {
    if vss == [] then [[]] else Spread(vss[0], Product(vss[1..]))
  }

  /** `dict(zip(ks, vs))`: pairs inserted left to right, a later key overriding an earlier one. */
  function Zip<K, V>(ks: seq<K>, vs: seq<V>): map<K, V>
    requires |ks| == |vs|
  {
    if ks == [] then map[] else map[ks[0] := vs[0]] + Zip(ks[1..], vs[1..])
  }

  /** `dict_product(hp_dict)`. */
  function DictProduct<K, V>(g: Grid<K, V>): seq<map<K, V>>
  {
    var p := Product(ValueLists(g));
    seq(|p|, i requires 0 <= i < |p| =>
      if |p[i]| == |g| then Zip(Keys(g), p[i]) else map[])
  }

  // ---------------------------------------------------------------------------
  // The shape and order of the product.

  lemma {:induction false} SpreadLength<V>(vs: seq<V>, ts: seq<seq<V>>)
    ensures |Spread(vs, ts)| == |vs| * |ts|
  {
    if vs != [] {
      SpreadLength(vs[1..], ts);
      assert |vs| * |ts| == |ts| + (|vs| - 1) * |ts|;
    }
  }

  /** Position `i` of `Spread(vs, ts)` is value `i / |ts|` followed by tuple `i % |ts|`. */
  lemma {:induction false} SpreadAt<V>(vs: seq<V>, ts: seq<seq<V>>, i: nat)
    requires i < |vs| * |ts|
    ensures |ts| > 0 && 0 <= i / |ts| < |vs|
    ensures |Spread(vs, ts)| == |vs| * |ts|
    ensures Spread(vs, ts)[i] == [vs[i / |ts|]] + ts[i % |ts|]
  {
    SpreadLength(vs, ts);
    DivBelow(i, |vs|, |ts|);
    var d := |ts|;
    if i < d {
      DivModUnique(i, d, 0, i);
    } else {
      var k := i - d;
      DivAddMultiple(k, 1, d);
      SpreadLength(vs[1..], ts);
      SpreadAt(vs[1..], ts, k);
    }
  }

  /** Exactly `∏ |vss[j]|` tuples are produced. */
  lemma {:induction false} ProductLength<V>(vss: seq<seq<V>>)
    ensures |Product(vss)| == Size(vss)
  {
    if vss != [] {
      ProductLength(vss[1..]);
      SpreadLength(vss[0], Product(vss[1..]));
    }
  }

  lemma {:induction false} SizeSplit<V>(vss: seq<seq<V>>, j: nat)
    requires j <= |vss|
    ensures Size(vss) == Size(vss[..j]) * Size(vss[j..])
  {
    if j > 0 {
      assert vss[..j][1..] == vss[1..][..j - 1];
      assert vss[j..] == vss[1..][j - 1..];
      SizeSplit(vss[1..], j - 1);
      assert Size(vss) == |vss[0]| * (Size(vss[1..][..j - 1]) * Size(vss[j..]));
    } else {
      assert vss[j..] == vss;
    }
  }

  /** Tuple `i` of the product: value `i / s` of the first list, then tuple `i % s` of the
      product of the remaining lists, where `s` is that product's size. */
  lemma ProductStep<V>(vss: seq<seq<V>>, i: nat)
    requires vss != [] && i < Size(vss)
    ensures Size(vss[1..]) > 0 && 0 <= i / Size(vss[1..]) < |vss[0]|
    ensures |Product(vss)| == Size(vss) && |Product(vss[1..])| == Size(vss[1..])
    ensures Product(vss)[i] == [vss[0][i / Size(vss[1..])]] + Product(vss[1..])[i % Size(vss[1..])]
  {
    ProductLength(vss);
    ProductLength(vss[1..]);
    SpreadAt(vss[0], Product(vss[1..]), i);
  }

  lemma {:induction false} ProductTupleLength<V>(vss: seq<seq<V>>, i: nat)
    requires i < |Product(vss)|
    ensures |Product(vss)[i]| == |vss|
  {
    ProductLength(vss);
    if vss != [] {
      ProductStep(vss, i);
      ProductTupleLength(vss[1..], i % Size(vss[1..]));
    }
  }

  /** The enumeration order: tuple `i`, at position `j`, holds digit `j` of `i` written in
      the mixed radix `|vss[0]|, ..., |vss[|vss|-1]|` — the last list varies fastest. */
  lemma {:induction false} ProductAt<V>(vss: seq<seq<V>>, i: nat, j: nat)
    requires i < Size(vss) && j < |vss|
    ensures |Product(vss)| == Size(vss) && |Product(vss)[i]| == |vss|
    ensures Size(vss[j + 1..]) > 0 && |vss[j]| > 0
    ensures Product(vss)[i][j] == vss[j][(i / Size(vss[j + 1..])) % |vss[j]|]
    decreases |vss|, 1
  {
    ProductLength(vss);
    ProductTupleLength(vss, i);
    if j == 0 {
      ProductAtFirst(vss, i);
    } else {
      ProductAtLater(vss, i, j);
    }
  }

  lemma ProductAtFirst<V>(vss: seq<seq<V>>, i: nat)
    requires i < Size(vss) && 0 < |vss|
    ensures Size(vss[1..]) > 0 && |vss[0]| > 0
    ensures |Product(vss)| == Size(vss) && |Product(vss)[i]| > 0
    ensures Product(vss)[i][0] == vss[0][(i / Size(vss[1..])) % |vss[0]|]
  {
    ProductStep(vss, i);
    var d := i / Size(vss[1..]);
    ModOfSmall(d, |vss[0]|);
    var p := Product(vss)[i];
    var tl := Product(vss[1..])[i % Size(vss[1..])];
    assert p == [vss[0][d]] + tl;
    assert p[0] == vss[0][d];
  }

  lemma {:induction false} ProductAtLater<V>(vss: seq<seq<V>>, i: nat, j: nat)
    requires i < Size(vss) && 0 < j < |vss|
    ensures |Product(vss)| == Size(vss) && |Product(vss)[i]| == |vss|
    ensures Size(vss[j + 1..]) > 0 && |vss[j]| > 0
    ensures Product(vss)[i][j] == vss[j][(i / Size(vss[j + 1..])) % |vss[j]|]
    decreases |vss|, 0
  {
    ProductTailEntry(vss, i, j);
    ProductTupleLength(vss, i);
    var rest := vss[1..];
    var lo := i % Size(rest);
    ProductAt(rest, lo, j - 1);
    assert rest[j..] == vss[j + 1..];
    assert rest[j - 1] == vss[j];
    var s := Size(vss[j + 1..]);
    DigitOfRemainder(rest, j - 1, i);
    assert (lo / s) % |vss[j]| == (i / s) % |vss[j]|;
  }

  /** Position `j > 0` of tuple `i` is position `j - 1` of the tail tuple it was built from. */
  lemma ProductTailEntry<V>(vss: seq<seq<V>>, i: nat, j: nat)
    requires i < Size(vss) && 0 < j < |vss|
    ensures Size(vss[1..]) > 0 && i % Size(vss[1..]) < |Product(vss[1..])|
    ensures |Product(vss)| == Size(vss) && j < |Product(vss)[i]|
    ensures j - 1 < |Product(vss[1..])[i % Size(vss[1..])]|
    ensures Product(vss)[i][j] == Product(vss[1..])[i % Size(vss[1..])][j - 1]
  {
    ProductStep(vss, i);
    ProductTupleLength(vss, i);
    ProductTupleLength(vss[1..], i % Size(vss[1..]));
    var tl := Product(vss[1..])[i % Size(vss[1..])];
    assert Product(vss)[i] == [vss[0][i / Size(vss[1..])]] + tl;
  }

  /** Reducing `i` modulo the size of the whole product leaves the digit of every
      position unchanged. */
  lemma DigitOfRemainder<V>(vss: seq<seq<V>>, k: nat, i: nat)
    requires k < |vss| && Size(vss) > 0
    ensures Size(vss[k + 1..]) > 0 && |vss[k]| > 0
    ensures (i % Size(vss)) / Size(vss[k + 1..]) % |vss[k]| == (i / Size(vss[k + 1..])) % |vss[k]|
  {
    var q := Size(vss[k + 1..]);
    var r := |vss[k]|;
    var c := Size(vss[..k]);
    SizeSplit(vss, k);
    assert vss[k..][1..] == vss[k + 1..];
    assert Size(vss[k..]) == r * q;
    assert Size(vss) == c * (r * q);
    NonZeroFactors(c, r, q);
    ModDivMod(i, c, r, q);
  }

  lemma {:induction false} SpreadMember<V>(vs: seq<V>, ts: seq<seq<V>>, x: V, u: seq<V>)
    requires x in vs && u in ts
    ensures [x] + u in Spread(vs, ts)
  {
    if vs[0] == x {
      var t :| 0 <= t < |ts| && ts[t] == u;
      assert Spread(vs, ts)[t] == [x] + u;
    } else {
      SpreadMember(vs[1..], ts, x, u);
      var k :| 0 <= k < |Spread(vs[1..], ts)| && Spread(vs[1..], ts)[k] == [x] + u;
      assert Spread(vs, ts)[|ts| + k] == [x] + u;
    }
  }

  /** The product holds exactly the tuples that take one value from each list. */
  lemma ProductMembers<V>(vss: seq<seq<V>>, t: seq<V>)
    ensures t in Product(vss) <==> |t| == |vss| && forall j :: 0 <= j < |vss| ==> t[j] in vss[j]
  {
    if t in Product(vss) {
      ProductMembersSound(vss, t);
    }
    if |t| == |vss| && forall j :: 0 <= j < |vss| ==> t[j] in vss[j] {
      ProductMembersComplete(vss, t);
    }
  }

  /** Every tuple of the product takes one value from each list. */
  lemma ProductMembersSound<V>(vss: seq<seq<V>>, t: seq<V>)
    requires t in Product(vss)
    ensures |t| == |vss| && forall j :: 0 <= j < |vss| ==> t[j] in vss[j]
  {
    ProductLength(vss);
    var i :| 0 <= i < |Product(vss)| && Product(vss)[i] == t;
    ProductTupleLength(vss, i);
    forall j | 0 <= j < |vss|
      ensures t[j] in vss[j]
    {
      ProductAt(vss, i, j);
    }
  }

  /** Every tuple that takes one value from each list is in the product. */
  lemma {:induction false} ProductMembersComplete<V>(vss: seq<seq<V>>, t: seq<V>)
    requires |t| == |vss| && forall j :: 0 <= j < |vss| ==> t[j] in vss[j]
    ensures t in Product(vss)
  {
    if vss == [] {
      assert t == [];
    } else {
      assert forall j :: 0 <= j < |vss[1..]| ==> t[1..][j] == t[j + 1] && vss[1..][j] == vss[j + 1];
      ProductMembersComplete(vss[1..], t[1..]);
      SpreadMember(vss[0], Product(vss[1..]), t[0], t[1..]);
      assert [t[0]] + t[1..] == t;
    }
  }

  // ---------------------------------------------------------------------------
  // From value tuples to parameter dicts.

  lemma {:induction false} ZipKeys<K, V>(ks: seq<K>, vs: seq<V>)
    requires |ks| == |vs|
    ensures Zip(ks, vs).Keys == set j | 0 <= j < |ks| :: ks[j]
  {
    if ks != [] {
      ZipKeys(ks[1..], vs[1..]);
      var rest := set j | 0 <= j < |ks[1..]| :: ks[1..][j];
      var all := set j | 0 <= j < |ks| :: ks[j];
      assert all == {ks[0]} + rest by {
        forall x | x in all ensures x in {ks[0]} + rest {
          var j :| 0 <= j < |ks| && ks[j] == x;
          if j > 0 {
            assert ks[1..][j - 1] == x;
          }
        }
        forall x | x in rest ensures x in all {
          var j :| 0 <= j < |ks[1..]| && ks[1..][j] == x;
          assert ks[j + 1] == x;
        }
      }
    }
  }

  lemma {:induction false} ZipAt<K, V>(ks: seq<K>, vs: seq<V>, j: nat)
    requires |ks| == |vs| && j < |ks|
    requires forall a, b :: 0 <= a < b < |ks| ==> ks[a] != ks[b]
    ensures ks[j] in Zip(ks, vs) && Zip(ks, vs)[ks[j]] == vs[j]
  {
    if j > 0 {
      ZipAt(ks[1..], vs[1..], j - 1);
    } else if |ks| > 1 {
      ZipKeys(ks[1..], vs[1..]);
      assert ks[0] !in Zip(ks[1..], vs[1..]);
    }
  }

  /** The set of a grid's parameter names. */
  function KeySet<K, V>(g: Grid<K, V>): set<K>
  {
    set j | 0 <= j < |g| :: g[j].0
  }

  /** `len(dict_product(g))` is the product of the lengths of the value lists. */
  lemma DictProductSize<K, V>(g: Grid<K, V>)
    ensures |DictProduct(g)| == Size(ValueLists(g))
  {
    ProductLength(ValueLists(g));
  }

  /** Candidate `i` names exactly the grid's parameters, and gives parameter `j` the value
      at digit `j` of `i` in the mixed radix of the list lengths (last parameter fastest);
      in particular every value comes from that parameter's list. */
  lemma DictProductAt<K, V>(g: Grid<K, V>, i: nat, j: nat)
    requires DistinctKeys(g) && i < |DictProduct(g)| && j < |g|
    ensures DictProduct(g)[i].Keys == KeySet(g)
    ensures Size(ValueLists(g)[j + 1..]) > 0 && |g[j].1| > 0
    ensures g[j].0 in DictProduct(g)[i]
    ensures DictProduct(g)[i][g[j].0] == g[j].1[(i / Size(ValueLists(g)[j + 1..])) % |g[j].1|]
    ensures DictProduct(g)[i][g[j].0] in g[j].1
  {
    var vss := ValueLists(g);
    ProductLength(vss);
    ProductAt(vss, i, j);
    var t := Product(vss)[i];
    assert DictProduct(g)[i] == Zip(Keys(g), t);
    ZipKeys(Keys(g), t);
    ZipAt(Keys(g), t, j);
  }

  /** With distinct keys, `dict(zip(ks, t))` is the map sending `ks[j]` to `t[j]`. */
  lemma ZipEquals<K, V>(ks: seq<K>, t: seq<V>, a: map<K, V>)
    requires |ks| == |t|
    requires forall x, y :: 0 <= x < y < |ks| ==> ks[x] != ks[y]
    requires a.Keys == set j | 0 <= j < |ks| :: ks[j]
    requires forall j :: 0 <= j < |ks| ==> ks[j] in a && a[ks[j]] == t[j]
    ensures Zip(ks, t) == a
  {
    ZipKeys(ks, t);
    forall k | k in a ensures k in Zip(ks, t) && Zip(ks, t)[k] == a[k] {
      var j :| 0 <= j < |ks| && ks[j] == k;
      ZipAt(ks, t, j);
    }
  }

  lemma KeySetOfKeys<K, V>(g: Grid<K, V>)
    ensures KeySet(g) == set j | 0 <= j < |Keys(g)| :: Keys(g)[j]
  {
    var ks := Keys(g);
    forall x | x in KeySet(g) ensures x in set j | 0 <= j < |ks| :: ks[j] {
      var j :| 0 <= j < |g| && g[j].0 == x;
      assert ks[j] == x;
    }
  }

  /** Every assignment of one listed value to each parameter is some candidate. */
  lemma DictProductComplete<K, V>(g: Grid<K, V>, a: map<K, V>)
    requires DistinctKeys(g)
    requires a.Keys == KeySet(g)
    requires forall j :: 0 <= j < |g| ==> g[j].0 in a && a[g[j].0] in g[j].1
    ensures a in DictProduct(g)
  {
    var vss := ValueLists(g);
    var ks := Keys(g);
    var t := seq(|g|, j requires 0 <= j < |g| => a[g[j].0]);
    assert forall j :: 0 <= j < |vss| ==> t[j] in vss[j];
    ProductMembers(vss, t);
    ProductLength(vss);
    var i :| 0 <= i < |Product(vss)| && Product(vss)[i] == t;
    assert DictProduct(g)[i] == Zip(ks, t);
    assert forall x, y :: 0 <= x < y < |ks| ==> ks[x] != ks[y];
    assert forall j :: 0 <= j < |ks| ==> ks[j] in a && a[ks[j]] == t[j];
    KeySetOfKeys(g);
    ZipEquals(ks, t, a);
  }

  /** A grid with one parameter yields one candidate per value, in the list's order. */
  lemma SingleKeyGrid<K, V>(k: K, vs: seq<V>)
    ensures |DictProduct([(k, vs)])| == |vs|
    ensures forall c :: 0 <= c < |vs| ==> DictProduct([(k, vs)])[c] == map[k := vs[c]]
  {
    var g := [(k, vs)];
    var vss := ValueLists(g);
    var ts: seq<seq<V>> := [[]];
    assert vss == [vs] && vss[1..] == [];
    assert Product(vss) == Spread(vs, ts);
    SpreadLength(vs, ts);
    assert Keys(g) == [k];
    forall c | 0 <= c < |vs| ensures DictProduct(g)[c] == map[k := vs[c]] {
      SpreadAt(vs, ts, c);
      assert Spread(vs, ts)[c] == [vs[c]];
      assert Zip([k], [vs[c]]) == map[k := vs[c]] by {
        assert Zip([k][1..], [vs[c]][1..]) == map[];
      }
    }
  }

  /** A grid with two parameters yields `|vs1| * |vs2|` candidates; candidate `c` takes
      value `c / |vs2|` of the first list and value `c % |vs2|` of the second. */
  lemma TwoKeyGrid<K, V>(k1: K, vs1: seq<V>, k2: K, vs2: seq<V>, c: nat)
    requires k1 != k2 && c < |vs1| * |vs2|
    ensures |DictProduct([(k1, vs1), (k2, vs2)])| == |vs1| * |vs2|
    ensures |vs2| > 0 && c / |vs2| < |vs1|
    ensures DictProduct([(k1, vs1), (k2, vs2)])[c] == map[k1 := vs1[c / |vs2|], k2 := vs2[c % |vs2|]]
  {
    TwoKeyEntries(k1, vs1, k2, vs2, c);
    var a, b := DictProduct([(k1, vs1), (k2, vs2)])[c], map[k1 := vs1[c / |vs2|], k2 := vs2[c % |vs2|]];
    assert a.Keys == b.Keys;
  }

  /** The sizes of a two-parameter grid and of its tail. */
  lemma TwoKeySizes<K, V>(k1: K, vs1: seq<V>, k2: K, vs2: seq<V>)
    ensures Size(ValueLists([(k1, vs1), (k2, vs2)])[1..]) == |vs2|
    ensures Size(ValueLists([(k1, vs1), (k2, vs2)])[2..]) == 1
    ensures |DictProduct([(k1, vs1), (k2, vs2)])| == |vs1| * |vs2|
  {
    var g := [(k1, vs1), (k2, vs2)];
    var vss := ValueLists(g);
    assert vss[2..] == [] && vss[1..] == [vs2];
    assert Size(vss[1..]) == |vs2| by {
      assert vss[1..][1..] == [];
    }
    assert Size(vss) == |vs1| * |vs2|;
    DictProductSize(g);
  }

  /** Both entries of candidate `c` of a two-parameter grid, and its key set. */
  lemma TwoKeyEntries<K, V>(k1: K, vs1: seq<V>, k2: K, vs2: seq<V>, c: nat)
    requires k1 != k2 && c < |vs1| * |vs2|
    ensures |DictProduct([(k1, vs1), (k2, vs2)])| == |vs1| * |vs2|
    ensures |vs2| > 0 && c / |vs2| < |vs1|
    ensures DictProduct([(k1, vs1), (k2, vs2)])[c].Keys == {k1, k2}
    ensures DictProduct([(k1, vs1), (k2, vs2)])[c][k1] == vs1[c / |vs2|]
    ensures DictProduct([(k1, vs1), (k2, vs2)])[c][k2] == vs2[c % |vs2|]
  {
    var g := [(k1, vs1), (k2, vs2)];
    assert DistinctKeys(g);
    TwoKeySizes(k1, vs1, k2, vs2);
    DivBelow(c, |vs1|, |vs2|);
    DictProductAt(g, c, 0);
    ModOfSmall(c / |vs2|, |vs1|);
    DictProductAt(g, c, 1);
    assert (c / 1) % |vs2| == c % |vs2|;
    assert KeySet(g) == {k1, k2} by {
      assert g[0].0 == k1 && g[1].0 == k2;
    }
  }

  /** A parameter with an empty value list leaves no candidate at all. */
  lemma EmptyValueList<K, V>(g: Grid<K, V>, j: nat)
    requires j < |g| && g[j].1 == []
    ensures DictProduct(g) == []
  {
    var vss := ValueLists(g);
    ProductLength(vss);
    SizeSplit(vss, j);
    assert vss[j..][0] == [];
  }
}
