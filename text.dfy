/** String helpers with Python's meaning: `str.strip()`, `str.split(sep)`,
    `sep.join(parts)`, and `pathlib.PurePosixPath(p).name` / `.stem`. */
module Text {

  /** Python's whitespace (`str.isspace`), which is also what `str.strip()`
      removes and what `\s` matches in a `str` regular expression. */
  predicate IsSpace(c: char) {
    ('\t' <= c <= '\r') || ('\U{1C}' <= c <= ' ') || c == '\U{85}' || c == '\U{A0}'
    || c == '\U{1680}' || ('\U{2000}' <= c <= '\U{200A}') || c == '\U{2028}' || c == '\U{2029}'
    || c == '\U{202F}' || c == '\U{205F}' || c == '\U{3000}'
  }

  predicate AllSpace(s: string) {
    forall i :: 0 <= i < |s| ==> IsSpace(s[i])
  }

  /** `s` neither starts nor ends with whitespace. */
  predicate Trimmed(s: string) {
    s == [] || (!IsSpace(s[0]) && !IsSpace(s[|s| - 1]))
  }

  /** How much whitespace `s` starts with. */
  function LeadingSpace(s: string): (k: nat)
    ensures k <= |s| && (forall i :: 0 <= i < k ==> IsSpace(s[i]))
    ensures k < |s| ==> !IsSpace(s[k])
  {
    if s == [] || !IsSpace(s[0]) then 0 else 1 + LeadingSpace(s[1..])
  }

  /** Where the text of `s` ends and its trailing whitespace begins. */
  function TextEnd(s: string): (k: nat)
    ensures k <= |s| && (forall i :: k <= i < |s| ==> IsSpace(s[i]))
    ensures k > 0 ==> !IsSpace(s[k - 1])
  {
    if s == [] || !IsSpace(s[|s| - 1]) then |s| else TextEnd(s[..|s| - 1])
  }

  function StripLeft(s: string): (r: string)
    ensures |r| <= |s| && r == s[|s| - |r|..]
    ensures AllSpace(s[..|s| - |r|])
    ensures r == [] || !IsSpace(r[0])
  {
    s[LeadingSpace(s)..]
  }

  function StripRight(s: string): (r: string)
    ensures |r| <= |s| && r == s[..|r|]
    ensures AllSpace(s[|r|..])
    ensures r == [] || !IsSpace(r[|r| - 1])
  {
    s[..TextEnd(s)]
  }

  /** Python's `s.strip()`. */
  function Strip(s: string): (r: string)
    ensures Trimmed(r)
    ensures |r| <= |s|
  {
    var l := StripLeft(s);
    var r := StripRight(l);
    assert r != [] ==> r[0] == l[0];
    r
  }

  /** Stripping removes exactly the whitespace padding around a trimmed text. */
  lemma StripPadded(pre: string, s: string, post: string)
    requires AllSpace(pre) && AllSpace(post) && Trimmed(s)
    ensures Strip(pre + s + post) == s
  {
    if s == [] {
      assert pre + s + post == (pre + post) + [];
      StripLeftPadded(pre + post, []);
    } else {
      StripLeftPadded(pre, s + post);
      assert pre + s + post == pre + (s + post);
      StripRightPadded(s, post);
    }
  }

  lemma StripLeftPadded(pre: string, s: string)
    requires AllSpace(pre) && (s == [] || !IsSpace(s[0]))
    ensures StripLeft(pre + s) == s
  {
    var t := pre + s;
    assert forall i :: 0 <= i < |pre| ==> t[i] == pre[i];
    if s != [] {
      assert t[|pre|] == s[0];
      LeadingSpaceStopsAt(t, |pre|);
    }
    LeadingSpaceReaches(t, |pre|);
    assert t[|pre|..] == s;
  }

  lemma LeadingSpaceStopsAt(t: string, j: int)
    requires 0 <= j < |t| && !IsSpace(t[j])
    ensures LeadingSpace(t) <= j
  {
  }

  lemma LeadingSpaceReaches(t: string, j: int)
    requires 0 <= j <= |t| && forall i :: 0 <= i < j ==> IsSpace(t[i])
    ensures LeadingSpace(t) >= j
  {
  }

  lemma StripRightPadded(s: string, post: string)
    requires AllSpace(post) && (s == [] || !IsSpace(s[|s| - 1]))
    ensures StripRight(s + post) == s
  {
    var t := s + post;
    assert forall i :: |s| <= i < |t| ==> t[i] == post[i - |s|];
    if s != [] {
      assert t[|s| - 1] == s[|s| - 1];
      TextEndStopsAt(t, |s|);
    }
    TextEndReaches(t, |s|);
    assert t[..|s|] == s;
  }

  lemma TextEndStopsAt(t: string, j: int)
    requires 0 < j <= |t| && !IsSpace(t[j - 1])
    ensures TextEnd(t) >= j
  {
  }

  lemma TextEndReaches(t: string, j: int)
    requires 0 <= j <= |t| && forall i :: j <= i < |t| ==> IsSpace(t[i])
    ensures TextEnd(t) <= j
  {
  }

  /** The position of the first `c` in `s`. */
  function IndexOf(s: string, c: char): (k: nat)
    requires c in s
    ensures k < |s| && s[k] == c && c !in s[..k]
  {
    if s[0] == c then 0 else 1 + IndexOf(s[1..], c)
  }

  /** Python's `s.split(sep)` for a one-character separator. */
  function Split(s: string, sep: char): (parts: seq<string>)
    ensures |parts| >= 1
  {
    if s == [] then [[]]
    else
      var rest := Split(s[1..], sep);
      if s[0] == sep then [[]] + rest else [[s[0]] + rest[0]] + rest[1..]
  }

  /** No part of a split holds the separator. */
  lemma {:induction false} SplitPartsFree(s: string, sep: char)
    ensures forall i :: 0 <= i < |Split(s, sep)| ==> sep !in Split(s, sep)[i]
  {
    if s != [] {
      SplitPartsFree(s[1..], sep);
      var rest := Split(s[1..], sep);
      if s[0] != sep {
        assert sep !in [s[0]] + rest[0];
      }
    }
  }

  /** Text free of the separator splits into itself alone. */
  lemma {:induction false} SplitFree(s: string, sep: char)
    requires sep !in s
    ensures Split(s, sep) == [s]
  {
    if s != [] {
      SplitFree(s[1..], sep);
      assert [s[0]] + s[1..] == s;
    }
  }

  /** Splitting at a separator splits both sides independently. */
  /** `s.split(sep)` has two parts or more exactly when `sep` occurs in `s`. */
  lemma SplitCount(s: string, sep: char)
    ensures |Split(s, sep)| >= 2 <==> sep in s
  {
    if sep in s {
      var i :| 0 <= i < |s| && s[i] == sep;
      assert s == s[..i] + [sep] + s[i + 1..];
      SplitConcat(s[..i], sep, s[i + 1..]);
    } else {
      SplitFree(s, sep);
    }
  }

  lemma {:induction false} SplitConcat(a: string, sep: char, b: string)
    ensures Split(a + [sep] + b, sep) == Split(a, sep) + Split(b, sep)
  {
    var s := a + [sep] + b;
    if a == [] {
      assert s == [sep] + b && s[1..] == b;
    } else {
      assert s[0] == a[0] && s[1..] == a[1..] + [sep] + b;
      SplitConcat(a[1..], sep, b);
    }
  }

  /** Python's `sep.join(parts)`. */
  function Join(parts: seq<string>, sep: char): string {
    if parts == [] then ""
    else if |parts| == 1 then parts[0]
    else parts[0] + [sep] + Join(parts[1..], sep)
  }

  /** `sep.join(s.split(sep)) == s`. */
  lemma {:induction false} JoinSplit(s: string, sep: char)
    ensures Join(Split(s, sep), sep) == s
  {
    if s != [] {
      var rest := Split(s[1..], sep);
      JoinSplit(s[1..], sep);
      if s[0] == sep {
        JoinCons([], rest, sep);
      } else {
        JoinPrepend(s[0], rest, sep);
      }
      assert [s[0]] + s[1..] == s;
    }
  }

  lemma JoinCons(head: string, rest: seq<string>, sep: char)
    requires |rest| >= 1
    ensures Join([head] + rest, sep) == head + [sep] + Join(rest, sep)
  {
    assert ([head] + rest)[1..] == rest;
  }

  /** Putting a character in front of the first part puts it in front of the joined text. */
  lemma JoinPrepend(c: char, parts: seq<string>, sep: char)
    requires |parts| >= 1
    ensures Join([[c] + parts[0]] + parts[1..], sep) == [c] + Join(parts, sep)
  {
    if |parts| > 1 {
      JoinCons([c] + parts[0], parts[1..], sep);
      JoinCons(parts[0], parts[1..], sep);
      assert [parts[0]] + parts[1..] == parts;
    }
  }

  /** Joining parts free of the separator and splitting again gives the parts back. */
  lemma {:induction false} SplitJoin(parts: seq<string>, sep: char)
    requires |parts| >= 1
    requires forall i :: 0 <= i < |parts| ==> sep !in parts[i]
    ensures Split(Join(parts, sep), sep) == parts
  {
    if |parts| == 1 {
      SplitFree(parts[0], sep);
    } else {
      SplitFree(parts[0], sep);
      SplitJoin(parts[1..], sep);
      SplitConcat(parts[0], sep, Join(parts[1..], sep));
      assert [parts[0]] + parts[1..] == parts;
    }
  }

  /** Splitting `a + sep + name` ends with `name` when `name` holds no separator. */
  lemma SplitEndsWith(a: string, sep: char, name: string)
    requires sep !in name
    ensures Last(Split(a + [sep] + name, sep)) == name
  {
    SplitConcat(a, sep, name);
    SplitFree(name, sep);
  }

  function Last<T>(xs: seq<T>): T
    requires xs != []
  {
    xs[|xs| - 1]
  }

  /** The last component that is neither empty nor ".", as path normalisation keeps it. */
  function LastProper(parts: seq<string>): (name: string)
    ensures name == "" || name in parts
    ensures name != "."
  {
    if parts == [] then ""
    else
      var p := parts[|parts| - 1];
      if p == "" || p == "." then LastProper(parts[..|parts| - 1]) else p
  }

  /** A name a path can end in: not empty, not ".", and free of '/'. */
  predicate ProperName(n: string) {
    n != "" && n != "." && '/' !in n
  }

  /** `PurePosixPath(path).name`: the final component, "" when there is none. */
  function BaseName(path: string): (name: string)
    ensures name == "" || ProperName(name)
  {
    var parts := Split(path, '/');
    SplitPartsFree(path, '/');
    var n := LastProper(parts);
    assert n != "" ==> '/' !in n by {
      if n != "" { var i :| 0 <= i < |parts| && parts[i] == n; }
    }
    n
  }

  /** The final component of `dir/name` is `name`, whatever the directory. */
  lemma BaseNameOfChild(dir: string, name: string)
    requires ProperName(name)
    ensures BaseName(dir + "/" + name) == name
  {
    assert dir + "/" + name == dir + ['/'] + name;
    SplitEndsWith(dir, '/', name);
  }

  lemma BaseNameOfName(name: string)
    requires ProperName(name)
    ensures BaseName(name) == name
  {
    SplitFree(name, '/');
  }

  /** The position of the last `c` in `s`, or -1. */
  function LastIndexOf(s: string, c: char): (i: int)
    ensures -1 <= i < |s|
    ensures i >= 0 ==> s[i] == c && c !in s[i + 1..]
    ensures i == -1 ==> c !in s
  {
    if s == [] then -1
    else if s[|s| - 1] == c then |s| - 1
    else
      var init := s[..|s| - 1];
      assert s == init + [s[|s| - 1]];
      var j := LastIndexOf(init, c);
      if j >= 0 then
        assert s[j] == init[j];
        assert s[j + 1..] == init[j + 1..] + [s[|s| - 1]];
        j
      else
        j
  }

  /** `PurePosixPath(path).stem`: the name without its last suffix; a leading
      dot or a dot at the very end does not start a suffix. */
  function Stem(path: string): (stem: string)
    ensures |stem| <= |BaseName(path)| && stem == BaseName(path)[..|stem|]
  {
    var name := BaseName(path);
    var i := LastIndexOf(name, '.');
    if 0 < i < |name| - 1 then name[..i] else name
  }

  lemma StemOfFile(dir: string, base: string, ext: string)
    requires base != "" && '/' !in base
    requires ext != "" && '/' !in ext && '.' !in ext
    ensures Stem(dir + "/" + base + "." + ext) == base
  {
    var name := base + "." + ext;
    assert '/' !in name;
    assert dir + "/" + base + "." + ext == dir + "/" + name;
    BaseNameOfChild(dir, name);
    var i := LastIndexOf(name, '.');
    assert name[|base|] == '.';
    assert i == |base|;
  }
}
