/** Python's `sorted(...)` of a collection of distinct keys, and the order
    Python compares strings by (code point by code point). */
module Ordering {

  /** Python's `a < b` on `str`: lexicographic by code point, a proper
      prefix sorts first. */
  predicate StrLess(a: string, b: string) {
    if a == [] then b != []
    else if b == [] then false
    else if a[0] != b[0] then a[0] < b[0]
    else StrLess(a[1..], b[1..])
  }

  ghost predicate StrictTotalOrder<T(!new)>(lt: (T, T) -> bool) {
    && (forall x :: !lt(x, x))
    && (forall x, y, z :: lt(x, y) && lt(y, z) ==> lt(x, z))
    && (forall x, y :: x != y ==> lt(x, y) || lt(y, x))
  }

  ghost predicate StrictlySorted<T>(r: seq<T>, lt: (T, T) -> bool) {
    forall i, j :: 0 <= i < j < |r| ==> lt(r[i], r[j])
  }

  lemma {:induction false} StrLessIrreflexive(a: string)
    ensures !StrLess(a, a)
  {
    if a != [] { StrLessIrreflexive(a[1..]); }
  }

  lemma {:induction false} StrLessTransitive(a: string, b: string, c: string)
    requires StrLess(a, b) && StrLess(b, c)
    ensures StrLess(a, c)
  {
    if a != [] && b != [] && c != [] && a[0] == b[0] && b[0] == c[0] {
      StrLessTransitive(a[1..], b[1..], c[1..]);
    }
  }

  lemma {:induction false} StrLessTotal(a: string, b: string)
    requires a != b
    ensures StrLess(a, b) || StrLess(b, a)
  {
    if a != [] && b != [] && a[0] == b[0] {
      assert a == [a[0]] + a[1..] && b == [b[0]] + b[1..];
      StrLessTotal(a[1..], b[1..]);
    }
  }

  /** Code-point order on strings is a strict total order, so sorting a set
      of strings has exactly one answer. */
  lemma StrLessIsStrictTotalOrder()
    ensures StrictTotalOrder(StrLess)
  {
    forall x: string ensures !StrLess(x, x) { StrLessIrreflexive(x); }
    forall x: string, y: string, z: string | StrLess(x, y) && StrLess(y, z)
      ensures StrLess(x, z)
    {
      StrLessTransitive(x, y, z);
    }
    forall x: string, y: string | x != y ensures StrLess(x, y) || StrLess(y, x) {
      StrLessTotal(x, y);
    }
  }

  lemma IntLessIsStrictTotalOrder()
    ensures StrictTotalOrder((a: int, b: int) => a < b)
  {
  }

  lemma {:induction false} MinimumExists<T(!new)>(s: set<T>, lt: (T, T) -> bool)
    requires StrictTotalOrder(lt)
    requires s != {}
    ensures exists m :: m in s && forall x :: x in s ==> !lt(x, m)
  {
    var y :| y in s;
    var rest := s - {y};
    if rest == {} {
      assert s == {y};
    } else {
      MinimumExists(rest, lt);
      var m :| m in rest && forall x :: x in rest ==> !lt(x, m);
      if lt(y, m) {
        assert forall x :: x in s ==> !lt(x, y);
      } else {
        assert forall x :: x in s ==> !lt(x, m);
      }
    }
  }

  /** `sorted(s)` for a set of keys: every key once, in ascending order. */
  method SortedSet<T(==,!new)>(s: set<T>, lt: (T, T) -> bool) returns (r: seq<T>)
    requires StrictTotalOrder(lt)
    ensures StrictlySorted(r, lt)
    ensures forall x :: x in r <==> x in s
    ensures |r| == |s|
  {
    r := [];
    var rest := s;
    while rest != {}
      invariant StrictlySorted(r, lt)
      invariant forall x :: x in s <==> x in r || x in rest
      invariant forall i, x :: 0 <= i < |r| && x in rest ==> lt(r[i], x)
      invariant |r| + |rest| == |s|
      decreases |rest|
    {
      MinimumExists(rest, lt);
      var m :| m in rest && forall x :: x in rest ==> !lt(x, m);
      assert forall i :: 0 <= i < |r| ==> r[i] != m;
      r := r + [m];
      rest := rest - {m};
    }
  }

  /** A set of names in ascending order, as `sorted()` lists it. */
  ghost function SortedOf(names: set<string>): (r: seq<string>)
    ensures StrictlySorted(r, StrLess)
    ensures forall x :: x in r <==> x in names
    ensures |r| == |names|
  {
    SortedExists(names);
    var r :| StrictlySorted(r, StrLess) && (forall x :: x in r <==> x in names) && |r| == |names|;
    r
  }

  lemma {:induction false} SortedExists(s: set<string>)
    ensures exists r :: StrictlySorted(r, StrLess) && (forall x :: x in r <==> x in s) && |r| == |s|
    decreases |s|
  {
    if s == {} {
      var e: seq<string> := [];
      assert StrictlySorted(e, StrLess) && (forall x :: x in e <==> x in s) && |e| == |s|;
    } else {
      var m := Least(s);
      SortedExists(s - {m});
      var r :| StrictlySorted(r, StrLess) && (forall x :: x in r <==> x in s - {m}) && |r| == |s - {m}|;
      ConsSorted(m, r);
      assert forall x :: x in [m] + r <==> x in s;
      assert |[m] + r| == |s|;
    }
  }

  /** The least name of a non-empty set. */
  lemma Least(s: set<string>) returns (m: string)
    requires s != {}
    ensures m in s && forall x :: x in s && x != m ==> StrLess(m, x)
  {
    StrLessIsStrictTotalOrder();
    MinimumExists(s, StrLess);
    m :| m in s && forall x :: x in s ==> !StrLess(x, m);
    forall x | x in s && x != m ensures StrLess(m, x) {
      StrLessTotal(m, x);
    }
  }

  lemma ConsSorted(m: string, r: seq<string>)
    requires StrictlySorted(r, StrLess)
    requires forall x :: x in r ==> StrLess(m, x)
    ensures StrictlySorted([m] + r, StrLess)
  {
    var r' := [m] + r;
    forall i, j | 0 <= i < j < |r'| ensures StrLess(r'[i], r'[j]) {
      assert r'[j] == r[j - 1];
      if i > 0 {
        assert r'[i] == r[i - 1];
      }
    }
  }

  /** Two sorted lists of the same names are the same list. */
  lemma {:induction false} SortedUnique(a: seq<string>, b: seq<string>)
    requires StrictlySorted(a, StrLess) && StrictlySorted(b, StrLess)
    requires forall x :: x in a <==> x in b
    ensures a == b
    decreases |a|
  {
    if a == [] || b == [] {
      if a != [] {
        HeadMember(a);
        assert false;
      }
      if b != [] {
        HeadMember(b);
        assert false;
      }
    } else {
      SameHead(a, b);
      forall x ensures x in a[1..] <==> x in b[1..] {
        TailMember(a, x);
        TailMember(b, x);
      }
      SortedTail(a);
      SortedTail(b);
      SortedUnique(a[1..], b[1..]);
      assert a == [a[0]] + a[1..] && b == [b[0]] + b[1..];
    }
  }

  lemma HeadMember(a: seq<string>)
    requires a != []
    ensures a[0] in a
  {
  }

  lemma SameHead(a: seq<string>, b: seq<string>)
    requires a != [] && b != []
    requires StrictlySorted(a, StrLess) && StrictlySorted(b, StrLess)
    requires forall x :: x in a <==> x in b
    ensures a[0] == b[0]
  {
    if a[0] != b[0] {
      assert b[0] in a && a[0] in b;
      var i :| 0 <= i < |a| && a[i] == b[0];
      var j :| 0 <= j < |b| && b[j] == a[0];
      assert StrLess(a[0], a[i]);
      assert StrLess(b[0], b[j]);
      StrLessTransitive(a[0], b[0], a[0]);
      StrLessIrreflexive(a[0]);
      assert false;
    }
  }

  /** In a sorted list the tail holds everything but the head. */
  lemma TailMember(a: seq<string>, x: string)
    requires a != [] && StrictlySorted(a, StrLess)
    ensures x in a[1..] <==> x in a && x != a[0]
  {
    if x in a[1..] {
      var i :| 0 <= i < |a[1..]| && a[1..][i] == x;
      assert StrLess(a[0], a[i + 1]);
      StrLessIrreflexive(x);
    }
    if x in a && x != a[0] {
      var i :| 0 <= i < |a| && a[i] == x;
      assert a[1..][i - 1] == x;
    }
  }

  lemma SortedTail(a: seq<string>)
    requires a != [] && StrictlySorted(a, StrLess)
    ensures StrictlySorted(a[1..], StrLess)
  {
    forall i, j | 0 <= i < j < |a[1..]| ensures StrLess(a[1..][i], a[1..][j]) {
      assert a[1..][i] == a[i + 1] && a[1..][j] == a[j + 1];
    }
  }

  /** A sorted listing of a set is the one `SortedOf` names. */
  lemma SortedIsSortedOf(r: seq<string>, names: set<string>)
    requires StrictlySorted(r, StrLess)
    requires forall x :: x in r <==> x in names
    ensures r == SortedOf(names)
  {
    SortedUnique(r, SortedOf(names));
  }
}
