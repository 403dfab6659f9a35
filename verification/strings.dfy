/** Python's string ordering and the sorting and splitting helpers the sync
    engine relies on: `sorted(...)` on names and relative paths, prefix
    removal and `str.split("/")`. */
module Strings {

  /** Python's `a <= b` on `str`: lexicographic comparison of code points. */
  predicate StrLe(a: string, b: string)
    decreases |a|
  {
    |a| == 0 || (|b| > 0 && (a[0] < b[0] || (a[0] == b[0] && StrLe(a[1..], b[1..]))))
  }

  /** Python's `a < b` on `str`. */
  predicate StrLt(a: string, b: string) {
    StrLe(a, b) && a != b
  }

  lemma {:induction false} StrLeReflexive(a: string)
    ensures StrLe(a, a)
    decreases |a|
  {
    if |a| > 0 {
      StrLeReflexive(a[1..]);
    }
  }

  lemma {:induction false} StrLeTotal(a: string, b: string)
    ensures StrLe(a, b) || StrLe(b, a)
    decreases |a|
  {
    if |a| > 0 && |b| > 0 && a[0] == b[0] {
      StrLeTotal(a[1..], b[1..]);
    }
  }

  lemma {:induction false} StrLeTransitive(a: string, b: string, c: string)
    requires StrLe(a, b) && StrLe(b, c)
    ensures StrLe(a, c)
    decreases |a|
  {
    if |a| > 0 && a[0] == b[0] && b[0] == c[0] {
      StrLeTransitive(a[1..], b[1..], c[1..]);
    }
  }

  lemma {:induction false} StrLeAntisymmetric(a: string, b: string)
    requires StrLe(a, b) && StrLe(b, a)
    ensures a == b
    decreases |a|
  {
    if |a| > 0 {
      StrLeAntisymmetric(a[1..], b[1..]);
      assert a == [a[0]] + a[1..];
      assert b == [b[0]] + b[1..];
    }
  }

  lemma AllAntisymmetric()
    ensures forall a: string, b: string :: StrLe(a, b) && StrLe(b, a) ==> a == b
  {
    forall a: string, b: string | StrLe(a, b) && StrLe(b, a)
      ensures a == b
    {
      StrLeAntisymmetric(a, b);
    }
  }

  /** A common prefix does not change the order. */
  lemma {:induction false} StrLtCommonPrefix(p: string, a: string, b: string)
    requires StrLt(a, b)
    ensures StrLt(p + a, p + b)
    decreases |p|
  {
    if p == [] {
      assert p + a == a && p + b == b;
    } else {
      StrLtCommonPrefix(p[1..], a, b);
      assert (p + a)[1..] == p[1..] + a && (p + b)[1..] == p[1..] + b;
    }
  }

  /** Every element of `s` is at least `m`. */
  predicate IsLeast(m: string, s: set<string>) {
    m in s && forall x :: x in s ==> StrLe(m, x)
  }

  lemma {:induction false} HasLeast(s: set<string>)
    requires s != {}
    ensures exists m :: IsLeast(m, s)
    decreases |s|
  {
    var y :| y in s;
    if s == {y} {
      StrLeReflexive(y);
      assert IsLeast(y, s);
    } else {
      var rest := s - {y};
      HasLeast(rest);
      var m :| IsLeast(m, rest);
      StrLeTotal(y, m);
      if StrLe(y, m) {
        forall x | x in s ensures StrLe(y, x) {
          if x == y { StrLeReflexive(y); } else { StrLeTransitive(y, m, x); }
        }
        assert IsLeast(y, s);
      } else {
        assert IsLeast(m, s);
      }
    }
  }

  /** The least name of a non-empty set. */
  function Least(s: set<string>): (m: string)
    requires s != {}
    ensures m in s
    ensures forall x :: x in s ==> StrLe(m, x)
  {
    HasLeast(s);
    AllAntisymmetric();
    var m :| IsLeast(m, s);
    m
  }

  /** Strictly ascending: sorted with no repetition. */
  predicate StrictlyAscending(s: seq<string>) {
    forall i, j :: 0 <= i < j < |s| ==> StrLt(s[i], s[j])
  }

  /** `sorted(s)` for a Python set of names: the ascending list of its elements. */
  function SortedList(s: set<string>): (r: seq<string>)
    ensures StrictlyAscending(r)
    ensures forall x :: x in r <==> x in s
    ensures |r| == |s|
    decreases |s|
  {
    if s == {} then []
    else
      var m := Least(s);
      var rest := SortedList(s - {m});
      assert forall x :: x in rest ==> StrLt(m, x);
      [m] + rest
  }

  /** The sequence is ordered by `key`, ties allowed. */
  predicate SortedBy<T>(s: seq<T>, key: T -> string) {
    forall i, j :: 0 <= i < j < |s| ==> StrLe(key(s[i]), key(s[j]))
  }

  /** An element whose key is below every key of a sorted sequence may
      go in front of it. */
  lemma ConsSorted<T>(y: T, t: seq<T>, key: T -> string)
    requires SortedBy(t, key)
    requires forall k :: 0 <= k < |t| ==> StrLe(key(y), key(t[k]))
    ensures SortedBy([y] + t, key)
  {
    forall i, j | 0 <= i < j < |[y] + t| ensures StrLe(key(([y] + t)[i]), key(([y] + t)[j])) {
      assert ([y] + t)[j] == t[j - 1];
      if i > 0 { assert ([y] + t)[i] == t[i - 1]; }
    }
  }

  /** A key below the first of a sorted sequence is below all of them. */
  lemma BelowFirst<T>(y: T, s: seq<T>, key: T -> string)
    requires SortedBy(s, key) && (s == [] || StrLe(key(y), key(s[0])))
    ensures forall k :: 0 <= k < |s| ==> StrLe(key(y), key(s[k]))
  {
    forall k | 0 < k < |s| ensures StrLe(key(y), key(s[k])) {
      StrLeTransitive(key(y), key(s[0]), key(s[k]));
    }
  }

  /** A lower bound of `x` and of the elements of `s` bounds every element
      of a reordering of `s` with `x` added. */
  lemma BoundKept<T>(y: T, x: T, s: seq<T>, t: seq<T>, key: T -> string)
    requires multiset(t) == multiset(s) + multiset{x}
    requires StrLe(key(y), key(x))
    requires forall i :: 0 <= i < |s| ==> StrLe(key(y), key(s[i]))
    ensures forall k :: 0 <= k < |t| ==> StrLe(key(y), key(t[k]))
  {
    forall k | 0 <= k < |t| ensures StrLe(key(y), key(t[k])) {
      assert t[k] in multiset(t);
      if t[k] != x {
        assert t[k] in multiset(s);
        var i :| 0 <= i < |s| && s[i] == t[k];
      }
    }
  }

  /** The elements of `s` whose key is `k`, in their order in `s`. */
  function WithKey<T>(s: seq<T>, key: T -> string, k: string): seq<T> {
    if s == [] then []
    else (if key(s[0]) == k then [s[0]] else []) + WithKey(s[1..], key, k)
  }

  /** Inserts `x` before the first element whose key is not smaller. */
  function InsertBy<T>(x: T, s: seq<T>, key: T -> string): (r: seq<T>)
    requires SortedBy(s, key)
    ensures SortedBy(r, key)
    ensures multiset(r) == multiset(s) + multiset{x}
    ensures |r| == |s| + 1
  {
    if s == [] || StrLe(key(x), key(s[0])) then
      BelowFirst(x, s, key);
      ConsSorted(x, s, key);
      [x] + s
    else
      var t := InsertBy(x, s[1..], key);
      StrLeTotal(key(x), key(s[0]));
      assert forall i :: 0 <= i < |s[1..]| ==> StrLe(key(s[0]), key(s[1..][i]));
      BoundKept(s[0], x, s[1..], t, key);
      ConsSorted(s[0], t, key);
      assert s == [s[0]] + s[1..];
      [s[0]] + t
  }

  /** Insertion keeps the order among equal keys: `x` goes in front of the
      elements that share its key, and the others keep their order. */
  lemma {:induction false} InsertByStable<T>(x: T, s: seq<T>, key: T -> string)
    requires SortedBy(s, key)
    ensures forall k :: WithKey(InsertBy(x, s, key), key, k) == (if key(x) == k then [x] else []) + WithKey(s, key, k)
    decreases |s|
  {
    var r := InsertBy(x, s, key);
    if s == [] || StrLe(key(x), key(s[0])) {
      assert r[0] == x && r[1..] == s;
    } else {
      InsertByStable(x, s[1..], key);
      StrLeReflexive(key(x));
      assert key(x) != key(s[0]);
      assert r[0] == s[0] && r[1..] == InsertBy(x, s[1..], key);
    }
  }

  /** Python's `sorted(s, key=key)`: a stable sort (insertion sort; elements
      with equal keys keep their original order). */
  function SortBy<T>(s: seq<T>, key: T -> string): (r: seq<T>)
    ensures SortedBy(r, key)
    ensures multiset(r) == multiset(s)
    ensures |r| == |s|
    ensures forall k :: WithKey(r, key, k) == WithKey(s, key, k)
  {
    if s == [] then []
    else
      assert s == [s[0]] + s[1..];
      InsertByStable(s[0], SortBy(s[1..], key), key);
      InsertBy(s[0], SortBy(s[1..], key), key)
  }

  function Identity(s: string): string { s }

  /** Python's `sorted(v)` on a list of names (duplicates kept). */
  function SortStrings(v: seq<string>): (r: seq<string>)
    ensures SortedBy(r, Identity)
    ensures multiset(r) == multiset(v)
  {
    SortBy(v, Identity)
  }

  predicate HasPrefix(s: string, p: string) {
    |p| <= |s| && s[..|p|] == p
  }

  /** Python's `s.removeprefix(p)`. */
  function RemovePrefix(s: string, p: string): (r: string)
    ensures HasPrefix(s, p) ==> s == p + r
    ensures !HasPrefix(s, p) ==> r == s
  {
    if HasPrefix(s, p) then s[|p|..] else s
  }

  /** `s.split(sep)[0]`: the text before the first `sep` (all of `s` without one). */
  function BeforeFirst(s: string, sep: char): (r: string)
    ensures |r| <= |s| && r == s[..|r|]
    ensures sep !in r
    ensures |r| < |s| ==> s[|r|] == sep
  {
    if s == [] then []
    else if s[0] == sep then []
    else [s[0]] + BeforeFirst(s[1..], sep)
  }

  /** `s.split(sep, 1)[1]`: the text after the first `sep`. Python raises
      `IndexError` when there is none; here that is the precondition. */
  function AfterFirst(s: string, sep: char): (r: string)
    requires sep in s
    ensures s == BeforeFirst(s, sep) + [sep] + r
  {
    var k := |BeforeFirst(s, sep)|;
    assert k < |s|;
    s[k + 1..]
  }

  /** Splitting `a + [sep] + b` on its first `sep` gives back `a` and `b` when
      `a` holds no `sep`. */
  lemma {:induction false} SplitFirstOfJoin(a: string, b: string, sep: char)
    requires sep !in a
    ensures BeforeFirst(a + [sep] + b, sep) == a
    ensures sep in a + [sep] + b && AfterFirst(a + [sep] + b, sep) == b
    decreases |a|
  {
    var s := a + [sep] + b;
    assert s[|a|] == sep;
    if a == [] {
      assert s == [sep] + b;
    } else {
      assert s[1..] == a[1..] + [sep] + b;
      SplitFirstOfJoin(a[1..], b, sep);
      assert a == [a[0]] + a[1..];
    }
  }

  /** The non-empty pieces of `s` between occurrences of `sep`, in order;
      the way `pathlib` reads a relative path string. */
  function Pieces(s: string, sep: char): (r: seq<string>)
    ensures forall i :: 0 <= i < |r| ==> r[i] != [] && sep !in r[i]
    decreases |s|
  {
    var head := BeforeFirst(s, sep);
    if |head| == |s| then (if s == [] then [] else [s])
    else
      var tail := Pieces(s[|head| + 1..], sep);
      if head == [] then tail else [head] + tail
  }
}
