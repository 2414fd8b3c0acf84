/** A two-level dictionary filled one entry at a time, as
    `data.setdefault(key, {})[inner] = value` (or a `defaultdict(dict)`) does:
    a later entry for the same pair of keys replaces the earlier one. */
module Nesting {
  import opened Numeric

  /** Storing one entry, if any. */
  function Put<K, V>(nest: map<K, map<K, V>>, e: Option<(K, K, V)>): map<K, map<K, V>> {
    match e
    case None => nest
    case Some((key, inner, value)) =>
      var group := if key in nest then nest[key] else map[];
      nest[key := group[inner := value]]
  }

  /** The two-level dictionary built by putting `entries` in order. */
  function Nest<K, V>(entries: seq<Option<(K, K, V)>>): map<K, map<K, V>> {
    if entries == [] then map[] else Put(Nest(entries[..|entries| - 1]), entries[|entries| - 1])
  }

  /** Reading one more entry of a list stores it into what its prefix built. */
  lemma NestPrefixStep<K, V>(entries: seq<Option<(K, K, V)>>, i: int)
    requires 0 <= i < |entries|
    ensures Nest(entries[..i + 1]) == Put(Nest(entries[..i]), entries[i])
  {
    assert entries[..i + 1][..i] == entries[..i];
  }

  /** The entry at position `i` is for `key` and `inner`. */
  predicate Sets<K(==), V>(entries: seq<Option<(K, K, V)>>, i: int, key: K, inner: K)
    requires 0 <= i < |entries|
  {
    entries[i].Some? && entries[i].value.0 == key && entries[i].value.1 == inner
  }

  /** A pair of keys is present exactly when some entry set it. */
  lemma {:induction false} NestEntries<K, V>(entries: seq<Option<(K, K, V)>>, key: K, inner: K)
    ensures (key in Nest(entries) && inner in Nest(entries)[key])
      <==> exists i :: 0 <= i < |entries| && Sets(entries, i, key, inner)
  {
    if entries != [] {
      var init := entries[..|entries| - 1];
      var last := |entries| - 1;
      NestEntries(init, key, inner);
      assert forall i :: 0 <= i < |init| ==> Sets(init, i, key, inner) == Sets(entries, i, key, inner);
      PutEntries(Nest(init), entries[last], key, inner);
      if exists i :: 0 <= i < |entries| && Sets(entries, i, key, inner) {
        var i :| 0 <= i < |entries| && Sets(entries, i, key, inner);
        if i < last {
          assert Sets(init, i, key, inner);
        }
      } else {
        assert !Sets(entries, last, key, inner);
        assert !exists i :: 0 <= i < |init| && Sets(init, i, key, inner);
      }
    }
  }

  /** An outer key is present exactly when some entry has it. */
  lemma {:induction false} NestKeys<K, V>(entries: seq<Option<(K, K, V)>>, key: K)
    ensures key in Nest(entries)
      <==> exists i :: 0 <= i < |entries| && entries[i].Some? && entries[i].value.0 == key
  {
    if entries != [] {
      var init := entries[..|entries| - 1];
      NestKeys(init, key);
      assert forall i :: 0 <= i < |init| ==> init[i] == entries[i];
      var e := entries[|entries| - 1];
      assert key in Put(Nest(init), e) <==> key in Nest(init) || (e.Some? && e.value.0 == key);
    }
  }

  /** After putting an entry, a pair is present when it was before or the entry set it. */
  lemma PutEntries<K, V>(nest: map<K, map<K, V>>, e: Option<(K, K, V)>, key: K, inner: K)
    ensures (key in Put(nest, e) && inner in Put(nest, e)[key])
      <==> (key in nest && inner in nest[key]) || (e.Some? && e.value.0 == key && e.value.1 == inner)
  {
  }

  /** Putting an entry for other keys leaves an existing value alone. */
  lemma PutFrame<K, V>(nest: map<K, map<K, V>>, e: Option<(K, K, V)>, key: K, inner: K)
    requires key in nest && inner in nest[key]
    requires e.Some? ==> e.value.0 != key || e.value.1 != inner
    ensures key in Put(nest, e) && inner in Put(nest, e)[key]
    ensures Put(nest, e)[key][inner] == nest[key][inner]
  {
  }

  /** The value for a pair of keys is the one of the last entry that set it. */
  lemma {:induction false} NestLastWins<K, V>(entries: seq<Option<(K, K, V)>>, i: int, key: K, inner: K)
    requires 0 <= i < |entries| && Sets(entries, i, key, inner)
    requires forall j :: i < j < |entries| ==> !Sets(entries, j, key, inner)
    ensures key in Nest(entries) && inner in Nest(entries)[key]
    ensures Nest(entries)[key][inner] == entries[i].value.2
  {
    var init := entries[..|entries| - 1];
    if i < |entries| - 1 {
      assert forall j :: i < j < |init| ==> Sets(init, j, key, inner) == Sets(entries, j, key, inner);
      assert Sets(init, i, key, inner);
      NestLastWins(init, i, key, inner);
      assert !Sets(entries, |entries| - 1, key, inner);
      PutFrame(Nest(init), entries[|entries| - 1], key, inner);
    }
  }

  /** An empty entry changes nothing. */
  lemma {:induction false} NestSkipsNone<K, V>(a: seq<Option<(K, K, V)>>, b: seq<Option<(K, K, V)>>)
    ensures Nest(a + [None] + b) == Nest(a + b)
    decreases |b|
  {
    if b == [] {
      assert (a + [None] + b)[..|a|] == a;
      assert a + b == a;
    } else {
      var b' := b[..|b| - 1];
      NestSkipsNone(a, b');
      assert (a + [None] + b)[..|a| + |b|] == a + [None] + b';
      assert (a + b)[..|a| + |b| - 1] == a + b';
    }
  }

  /** No outer key maps to an empty dictionary. */
  lemma {:induction false} NestNoEmptyGroups<K, V>(entries: seq<Option<(K, K, V)>>)
    ensures forall key :: key in Nest(entries) ==> Nest(entries)[key] != map[]
  {
    if entries != [] {
      var init := entries[..|entries| - 1];
      NestNoEmptyGroups(init);
      var e := entries[|entries| - 1];
      forall key | key in Put(Nest(init), e) ensures Put(Nest(init), e)[key] != map[] {
        if e.Some? && e.value.0 == key {
          assert e.value.1 in Put(Nest(init), e)[key];
        } else {
          assert Put(Nest(init), e)[key] == Nest(init)[key];
        }
      }
    }
  }

}
