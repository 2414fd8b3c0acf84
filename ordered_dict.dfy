/** A Python `dict` as a program sees it when it iterates: a key keeps the
    position of its first insertion, and storing under it again only
    replaces the value. */
module OrderedDict {

  datatype Dict<K, V> = Dict(keys: seq<K>, values: map<K, V>)

  /** No key is listed twice, and the listed keys are the mapped ones. */
  ghost predicate Valid<K(!new), V>(d: Dict<K, V>) {
    && (forall i, j :: 0 <= i < j < |d.keys| ==> d.keys[i] != d.keys[j])
    && (forall k :: k in d.values <==> k in d.keys)
  }

  /** `d[k] = v`. */
  function Store<K(==,!new), V>(d: Dict<K, V>, k: K, v: V): (d': Dict<K, V>)
    requires Valid(d)
    ensures Valid(d')
    ensures d'.values == d.values[k := v]
  {
    if k in d.values then Dict(d.keys, d.values[k := v]) else Dict(d.keys + [k], d.values[k := v])
  }

  /** Storing under a present key leaves the order alone; a new key goes last. */
  lemma StoreOrder<K(!new), V>(d: Dict<K, V>, k: K, v: V)
    requires Valid(d)
    ensures k in d.values ==> Store(d, k, v).keys == d.keys
    ensures k !in d.values ==> Store(d, k, v).keys == d.keys + [k]
  {
  }

  /** The dictionary built by storing `kvs` in order into an empty one. */
  function FromPairs<K(==,!new), V>(kvs: seq<(K, V)>): (d: Dict<K, V>)
    ensures Valid(d)
  {
    if kvs == [] then Dict([], map[])
    else Store(FromPairs(kvs[..|kvs| - 1]), kvs[|kvs| - 1].0, kvs[|kvs| - 1].1)
  }

  /** Storing one more pair extends the dictionary of a prefix. */
  lemma FromPairsPrefixStep<K(!new), V>(kvs: seq<(K, V)>, i: int)
    requires 0 <= i < |kvs|
    ensures FromPairs(kvs[..i + 1]) == Store(FromPairs(kvs[..i]), kvs[i].0, kvs[i].1)
  {
    assert kvs[..i + 1][..i] == kvs[..i];
  }

  function FirstIndex<K(==)>(xs: seq<K>, k: K): (i: nat)
    requires k in xs
    ensures i < |xs| && xs[i] == k && k !in xs[..i]
  {
    if xs[0] == k then 0 else 1 + FirstIndex(xs[1..], k)
  }

  function Firsts<K, V>(kvs: seq<(K, V)>): (ks: seq<K>)
    ensures |ks| == |kvs| && forall i :: 0 <= i < |kvs| ==> ks[i] == kvs[i].0
  {
    seq(|kvs|, i requires 0 <= i < |kvs| => kvs[i].0)
  }

  /** The keys are exactly the keys stored. */
  lemma {:induction false} FromPairsKeys<K(!new), V>(kvs: seq<(K, V)>, k: K)
    ensures k in FromPairs(kvs).values <==> k in Firsts(kvs)
  {
    if kvs != [] {
      var init := kvs[..|kvs| - 1];
      FromPairsKeys(init, k);
      assert Firsts(kvs) == Firsts(init) + [kvs[|kvs| - 1].0];
    }
  }

  /** The keys are in the order of their first insertion. */
  lemma {:induction false} FromPairsOrder<K(!new), V>(kvs: seq<(K, V)>)
    ensures forall k :: k in FromPairs(kvs).keys ==> k in Firsts(kvs)
    ensures forall i, j :: 0 <= i < j < |FromPairs(kvs).keys| ==>
      FirstIndex(Firsts(kvs), FromPairs(kvs).keys[i]) < FirstIndex(Firsts(kvs), FromPairs(kvs).keys[j])
  {
    if kvs != [] {
      var init, last := kvs[..|kvs| - 1], kvs[|kvs| - 1];
      var d := FromPairs(init);
      FromPairsOrder(init);
      var fs := Firsts(kvs);
      assert fs == Firsts(init) + [last.0];
      forall k | k in d.keys ensures FirstIndex(fs, k) == FirstIndex(Firsts(init), k) {
        FirstIndexAppend(Firsts(init), last.0, k);
      }
      if last.0 !in d.values {
        FromPairsKeys(init, last.0);
        FirstIndexNew(Firsts(init), last.0);
      }
    }
  }

  lemma {:induction false} FirstIndexAppend<K>(xs: seq<K>, x: K, k: K)
    requires k in xs
    ensures FirstIndex(xs + [x], k) == FirstIndex(xs, k)
  {
    if xs[0] != k {
      assert (xs + [x])[1..] == xs[1..] + [x];
      FirstIndexAppend(xs[1..], x, k);
    }
  }

  lemma {:induction false} FirstIndexNew<K>(xs: seq<K>, x: K)
    requires x !in xs
    ensures FirstIndex(xs + [x], x) == |xs|
  {
    if xs != [] {
      assert (xs + [x])[1..] == xs[1..] + [x];
      FirstIndexNew(xs[1..], x);
    }
  }

  /** The value of a key is the one its last insertion stored. */
  lemma {:induction false} FromPairsLastWins<K(!new), V>(kvs: seq<(K, V)>, i: int)
    requires 0 <= i < |kvs|
    requires forall j :: i < j < |kvs| ==> kvs[j].0 != kvs[i].0
    ensures kvs[i].0 in FromPairs(kvs).values && FromPairs(kvs).values[kvs[i].0] == kvs[i].1
  {
    if i < |kvs| - 1 {
      FromPairsLastWins(kvs[..|kvs| - 1], i);
    }
  }

  /** Every value stored comes from a pair with its key. */
  lemma {:induction false} FromPairsValues<K(!new), V>(kvs: seq<(K, V)>, k: K)
    requires k in FromPairs(kvs).values
    ensures exists i :: 0 <= i < |kvs| && kvs[i] == (k, FromPairs(kvs).values[k])
  {
    var init, last := kvs[..|kvs| - 1], kvs[|kvs| - 1];
    if last.0 == k {
      assert kvs[|kvs| - 1] == (k, FromPairs(kvs).values[k]);
    } else {
      FromPairsValues(init, k);
      var i :| 0 <= i < |init| && init[i] == (k, FromPairs(init).values[k]);
      assert kvs[i] == init[i];
    }
  }
}
