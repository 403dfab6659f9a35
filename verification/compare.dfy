/** Content comparison as the sync engine does it: `_compare_files`
    (`filecmp.cmp(shallow=False)`), `_compare_directories` (a recursive
    walk over `filecmp.dircmp`) and `_get_newest_mtime`
    (scripts/sync_agents.py). */
module Compare {
  import opened Wrappers
  import opened FileTree

  /** `filecmp.DEFAULT_IGNORES`: names `dircmp` leaves out of a listing. */
  const DefaultIgnores: set<string> := {"RCS", "CVS", "tags", ".git", ".hg", ".bzr", "_darcs", "__pycache__"}

  /** A name `dircmp` lists: not ignored and not `.` or `..`. */
  predicate Listed(name: string) {
    name !in DefaultIgnores && name != "." && name != ".."
  }

  function Names(d: Node): (r: set<string>)
    requires d.Dir?
    ensures forall k :: k in r <==> k in d.entries && Listed(k)
  {
    set k | k in d.entries && Listed(k)
  }

  /** `filecmp.cmp` with `shallow=True` on two regular files: equal
      signatures (size and mtime) are taken as equal; otherwise equal sizes
      lead to a comparison of the contents. */
  predicate ShallowSame(a: Node, b: Node)
    requires a.File? && b.File?
  {
    (|a.content| == |b.content| && a.mtime == b.mtime) || a.content == b.content
  }

  predicate SameKind(a: Node, b: Node) {
    (a.File? && b.File?) || (a.Dir? && b.Dir?) || (a.Symlink? && b.Symlink?)
  }

  /** The tree comparison `_compare_directories` performs, as written: no
      name on one side only, no differing common file, every common
      subdirectory equal. A common name whose kinds differ is one of
      `dircmp`'s "funny" entries and is not looked at. */
  predicate TreesEqualAsWritten(a: Node, b: Node)
    requires a.Dir? && b.Dir?
    decreases a
  {
    && Names(a) == Names(b)
    && (forall k :: k in Names(a) && a.entries[k].File? && b.entries[k].File? ==> ShallowSame(a.entries[k], b.entries[k]))
    && (forall k :: k in Names(a) && a.entries[k].Dir? && b.entries[k].Dir? ==> TreesEqualAsWritten(a.entries[k], b.entries[k]))
  }

  /** The comparison with a kind mismatch at a common name counted as a
      difference. */
  predicate TreesEqual(a: Node, b: Node)
    requires a.Dir? && b.Dir?
    decreases a
  {
    && Names(a) == Names(b)
    && (forall k :: k in Names(a) ==> SameKind(a.entries[k], b.entries[k]))
    && (forall k :: k in Names(a) && a.entries[k].File? && b.entries[k].File? ==> ShallowSame(a.entries[k], b.entries[k]))
    && (forall k :: k in Names(a) && a.entries[k].Dir? && b.entries[k].Dir? ==> TreesEqual(a.entries[k], b.entries[k]))
  }

  /** A directory compares equal to itself. */
  lemma {:induction false} TreesEqualReflexive(a: Node)
    requires a.Dir?
    ensures TreesEqual(a, a)
    decreases a
  {
    forall k | k in Names(a) && a.entries[k].Dir? ensures TreesEqual(a.entries[k], a.entries[k]) {
      TreesEqualReflexive(a.entries[k]);
    }
  }

  /** The corrected comparison only ever says "different" more often. */
  lemma {:induction false} TreesEqualRefinesAsWritten(a: Node, b: Node)
    requires a.Dir? && b.Dir? && TreesEqual(a, b)
    ensures TreesEqualAsWritten(a, b)
    decreases a
  {
    forall k | k in Names(a) && a.entries[k].Dir? && b.entries[k].Dir?
      ensures TreesEqualAsWritten(a.entries[k], b.entries[k])
    {
      TreesEqualRefinesAsWritten(a.entries[k], b.entries[k]);
    }
  }

  /** The case the written comparison misses: the source has a file `x`
      where the target has a directory `x`, and they compare equal. */
  lemma KindMismatchIgnored()
    ensures var a := Dir(map["x" := File("a", 1)], 0);
            var b := Dir(map["x" := Dir(map[], 0)], 0);
            TreesEqualAsWritten(a, b) && !TreesEqual(a, b)
  {
    var a := Dir(map["x" := File("a", 1)], 0);
    var b := Dir(map["x" := Dir(map[], 0)], 0);
    assert Names(a) == {"x"} == Names(b);
  }

  // ---------------------------------------------------------------------
  // What `TreesEqual` means, path by path.

  predicate ListedPath(p: Path) {
    forall i :: 0 <= i < |p| ==> Listed(p[i])
  }

  /** The two trees disagree at `p`: both parents are directories and the
      entry is on one side only, has two kinds, or is a differing file. */
  ghost predicate Mismatch(a: Node, b: Node, p: Path) {
    && p != [] && ListedPath(p)
    && Get(a, Parent(p)).Some? && Get(a, Parent(p)).value.Dir?
    && Get(b, Parent(p)).Some? && Get(b, Parent(p)).value.Dir?
    && (|| Get(a, p).Some? != Get(b, p).Some?
        || (Get(a, p).Some? && Get(b, p).Some? && !SameKind(Get(a, p).value, Get(b, p).value))
        || (Get(a, p).Some? && Get(b, p).Some? && Get(a, p).value.File? && Get(b, p).value.File?
            && !ShallowSame(Get(a, p).value, Get(b, p).value)))
  }

  lemma GetCons(n: Node, k: string, q: Path)
    ensures Get(n, [k] + q) == if n.Dir? && k in n.entries then Get(n.entries[k], q) else None
  {
    assert ([k] + q)[0] == k && ([k] + q)[1..] == q;
  }

  /** A mismatch below the top level is a mismatch of two equally named
      subdirectories. */
  lemma MismatchBelow(a: Node, b: Node, k: string, q: Path)
    requires a.Dir? && b.Dir? && q != []
    requires Mismatch(a, b, [k] + q)
    ensures k in Names(a) && k in Names(b)
    ensures a.entries[k].Dir? && b.entries[k].Dir?
    ensures Mismatch(a.entries[k], b.entries[k], q)
  {
    var p := [k] + q;
    assert Parent(p) == [k] + Parent(q);
    assert Listed(p[0]);
    assert forall i :: 0 <= i < |q| ==> q[i] == p[i + 1];
    GetCons(a, k, Parent(q));
    GetCons(b, k, Parent(q));
    GetCons(a, k, q);
    GetCons(b, k, q);
  }

  lemma {:induction false} EqualHasNoMismatch(a: Node, b: Node, p: Path)
    requires a.Dir? && b.Dir? && TreesEqual(a, b)
    ensures !Mismatch(a, b, p)
    decreases |p|
  {
    if Mismatch(a, b, p) {
      var k := p[0];
      var q := p[1..];
      assert p == [k] + q;
      if q == [] {
        assert Parent(p) == [];
        GetCons(a, k, []);
        GetCons(b, k, []);
      } else {
        MismatchBelow(a, b, k, q);
        EqualHasNoMismatch(a.entries[k], b.entries[k], q);
      }
    }
  }

  lemma {:induction false} DifferentHasMismatch(a: Node, b: Node)
    requires a.Dir? && b.Dir? && !TreesEqual(a, b)
    ensures exists p :: Mismatch(a, b, p)
    decreases a
  {
    if Names(a) != Names(b) {
      var k :| (k in Names(a) && k !in Names(b)) || (k in Names(b) && k !in Names(a));
      MismatchAtTop(a, b, k);
    } else if k :| k in Names(a) && !SameKind(a.entries[k], b.entries[k]) {
      MismatchAtTop(a, b, k);
    } else if k :| k in Names(a) && a.entries[k].File? && b.entries[k].File? && !ShallowSame(a.entries[k], b.entries[k]) {
      MismatchAtTop(a, b, k);
    } else {
      var k :| k in Names(a) && a.entries[k].Dir? && b.entries[k].Dir? && !TreesEqual(a.entries[k], b.entries[k]);
      DifferentHasMismatch(a.entries[k], b.entries[k]);
      var q :| Mismatch(a.entries[k], b.entries[k], q);
      MismatchAbove(a, b, k, q);
    }
  }

  lemma MismatchAtTop(a: Node, b: Node, k: string)
    requires a.Dir? && b.Dir? && Listed(k)
    requires || (k in a.entries) != (k in b.entries)
             || (k in a.entries && k in b.entries && !SameKind(a.entries[k], b.entries[k]))
             || (k in a.entries && k in b.entries && a.entries[k].File? && b.entries[k].File?
                 && !ShallowSame(a.entries[k], b.entries[k]))
    ensures Mismatch(a, b, [k])
  {
    assert Parent([k]) == [];
    GetCons(a, k, []);
    GetCons(b, k, []);
  }

  lemma MismatchAbove(a: Node, b: Node, k: string, q: Path)
    requires a.Dir? && b.Dir? && Listed(k) && k in a.entries && k in b.entries
    requires Mismatch(a.entries[k], b.entries[k], q)
    ensures Mismatch(a, b, [k] + q)
  {
    var p := [k] + q;
    assert Parent(p) == [k] + Parent(q);
    assert forall i :: 0 <= i < |p| ==> p[i] == if i == 0 then k else q[i - 1];
    GetCons(a, k, Parent(q));
    GetCons(b, k, Parent(q));
    GetCons(a, k, q);
    GetCons(b, k, q);
  }

  /** Two directories compare equal exactly when they disagree at no
      listed path. */
  lemma TreesEqualMeaning(a: Node, b: Node)
    requires a.Dir? && b.Dir?
    ensures TreesEqual(a, b) <==> forall p :: !Mismatch(a, b, p)
  {
    if TreesEqual(a, b) {
      forall p ensures !Mismatch(a, b, p) {
        EqualHasNoMismatch(a, b, p);
      }
    } else {
      DifferentHasMismatch(a, b);
    }
  }

  // ---------------------------------------------------------------------
  // The comparisons on paths.

  /** `_compare_files(source, target)`: `None` where `os.stat` of the
      source raises. */
  function CompareFiles(w: World, source: Path, target: Path): (r: Option<bool>)
    ensures r.None? <==> Exists(w, target) && !Exists(w, source)
    ensures r == Some(true) <==>
      && IsFile(w, source) && IsFile(w, target)
      && Stat(w, source).value.content == Stat(w, target).value.content
  {
    if !Exists(w, target) then Some(false)
    else match (Stat(w, source), Stat(w, target))
      case (None, _) => None
      case (Some(File(a, _)), Some(File(b, _))) => Some(a == b)
      case _ => Some(false)
  }

  /** `_compare_directories(source, target)` as written: `None` where
      listing either side raises (a missing source, or a file on either
      side). */
  function CompareDirectoriesAsWritten(w: World, source: Path, target: Path): (r: Option<bool>)
    ensures !Exists(w, target) ==> r == Some(false)
    ensures Exists(w, target) ==> (r.Some? <==> IsDir(w, source) && IsDir(w, target))
    ensures r == Some(true) ==> TreesEqualAsWritten(Stat(w, source).value, Stat(w, target).value)
  {
    if !Exists(w, target) then Some(false)
    else if IsDir(w, source) && IsDir(w, target) then
      Some(TreesEqualAsWritten(Stat(w, source).value, Stat(w, target).value))
    else None
  }

  /** `_compare_directories` with the kind check. */
  function CompareDirectories(w: World, source: Path, target: Path): (r: Option<bool>)
    ensures !Exists(w, target) ==> r == Some(false)
    ensures Exists(w, target) ==> (r.Some? <==> IsDir(w, source) && IsDir(w, target))
    ensures r == Some(true) ==> forall p :: !Mismatch(Stat(w, source).value, Stat(w, target).value, p)
    ensures r.Some? && r != Some(true) && Exists(w, target) ==>
      exists p :: Mismatch(Stat(w, source).value, Stat(w, target).value, p)
  {
    if !Exists(w, target) then Some(false)
    else if IsDir(w, source) && IsDir(w, target) then
      TreesEqualMeaning(Stat(w, source).value, Stat(w, target).value);
      Some(TreesEqual(Stat(w, source).value, Stat(w, target).value))
    else None
  }

  // ---------------------------------------------------------------------
  // `_get_newest_mtime`

  /** The modification times `rglob` and `is_file` see in the tree `n`
      stored at `at`: each file's own, and for a link the file it leads to
      (`stat` follows it); a link is listed but never descended into. */
  function FileMtimes(w: World, at: Path, n: Node): set<int>
    decreases n
  {
    match n
    case File(_, m) => {m}
    case Symlink(_) => LinkedMtime(w, at)
    case Dir(entries, _) => set k, m | k in entries && m in FileMtimes(w, at + [k], entries[k]) :: m
  }

  /** The mtime of the file the link at `at` leads to, if it leads to one. */
  function LinkedMtime(w: World, at: Path): set<int> {
    match Stat(w, at)
    case Some(File(_, m)) => {m}
    case _ => {}
  }

  /** The entry `q` below `n` (stored at `at`) is a file with mtime `m`,
      or a link leading to one. */
  predicate ListedMtime(w: World, at: Path, n: Node, q: Path, m: int) {
    var e := Get(n, q);
    e.Some? && ((e.value.File? && e.value.mtime == m) || (e.value.Symlink? && m in LinkedMtime(w, at + q)))
  }

  lemma {:induction false} FileMtimesMeaning(w: World, at: Path, n: Node, m: int)
    ensures m in FileMtimes(w, at, n) <==> exists q :: ListedMtime(w, at, n, q, m)
    decreases n
  {
    match n
    case File(_, m0) =>
      if m in FileMtimes(w, at, n) {
        assert ListedMtime(w, at, n, [], m);
      }
      forall q | ListedMtime(w, at, n, q, m) ensures m == m0 {
        assert q == [];
      }
    case Symlink(_) =>
      if m in FileMtimes(w, at, n) {
        assert at + [] == at;
        assert ListedMtime(w, at, n, [], m);
      }
      forall q | ListedMtime(w, at, n, q, m) ensures m in LinkedMtime(w, at) {
        assert q == [];
        assert at + q == at;
      }
    case Dir(entries, _) =>
      if m in FileMtimes(w, at, n) {
        var k :| k in entries && m in FileMtimes(w, at + [k], entries[k]);
        FileMtimesMeaning(w, at + [k], entries[k], m);
        var q :| ListedMtime(w, at + [k], entries[k], q, m);
        assert ([k] + q)[0] == k && ([k] + q)[1..] == q;
        assert at + [k] + q == at + ([k] + q);
        assert ListedMtime(w, at, n, [k] + q, m);
      }
      if exists q :: ListedMtime(w, at, n, q, m) {
        var q :| ListedMtime(w, at, n, q, m);
        assert q != [];
        var k := q[0];
        assert k in entries;
        assert at + [k] + q[1..] == at + q;
        assert ListedMtime(w, at + [k], entries[k], q[1..], m);
        FileMtimesMeaning(w, at + [k], entries[k], m);
      }
  }

  lemma FileMtimesListed(w: World, at: Path, n: Node)
    ensures forall m :: m in FileMtimes(w, at, n) <==> exists q :: ListedMtime(w, at, n, q, m)
  {
    forall m ensures m in FileMtimes(w, at, n) <==> exists q :: ListedMtime(w, at, n, q, m) {
      FileMtimesMeaning(w, at, n, m);
    }
  }

  /** A link to a file inside the directory counts with the file it leads
      to: `t` holds `a` (mtime 1) and `b`, a link to `/x` (mtime 9). */
  lemma LinkedFileCounts()
    ensures NewestMtime(LinkedDirWorld, ["t"]) == 9
  {
    var w := LinkedDirWorld;
    var t := LinkedDir;
    LinkedDirStats();
    assert FileMtimes(w, ["t"], t) == {1, 9} by {
      assert FileMtimes(w, ["t", "a"], File("", 1)) == {1};
      assert FileMtimes(w, ["t", "b"], Symlink(["x"])) == {9};
      assert ["t"] + ["a"] == ["t", "a"] && ["t"] + ["b"] == ["t", "b"];
      assert "a" in t.entries && t.entries["a"] == File("", 1);
      assert 1 in FileMtimes(w, ["t"] + ["a"], t.entries["a"]);
      assert "b" in t.entries && t.entries["b"] == Symlink(["x"]);
      assert 9 in FileMtimes(w, ["t"] + ["b"], t.entries["b"]);
      forall m | m in FileMtimes(w, ["t"], t) ensures m == 1 || m == 9 {
        var k :| k in t.entries && m in FileMtimes(w, ["t"] + [k], t.entries[k]);
        assert k == "a" || k == "b";
      }
    }
  }

  const LinkedDir := Dir(map["a" := File("", 1), "b" := Symlink(["x"])], 0)
  const LinkedDirWorld: World := Dir(map["t" := LinkedDir, "x" := File("", 9)], 0)

  lemma LinkedDirStats()
    ensures Stat(LinkedDirWorld, ["t"]) == Some(LinkedDir)
    ensures Stat(LinkedDirWorld, ["t", "b"]) == Some(File("", 9))
  {
    var w := LinkedDirWorld;
    var t := LinkedDir;
    assert Get(w, ["t"]) == Some(t) by { assert ["t"][1..] == []; }
    assert Get(w, ["x"]) == Some(File("", 9)) by { assert ["x"][1..] == []; }
    assert Get(w, ["t", "b"]) == Some(Symlink(["x"])) by {
      assert ["t", "b"][1..] == ["b"] && ["b"][1..] == [];
    }
    assert Walk(w, [], ["t"], true, 40) == Some(["t"]) by {
      assert [] + ["t"] == ["t"] && ["t"][1..] == [];
    }
    assert Walk(w, [], ["x"], true, 39) == Some(["x"]) by {
      assert [] + ["x"] == ["x"] && ["x"][1..] == [];
    }
    assert Walk(w, [], ["t", "b"], true, 40) == Some(["x"]) by {
      assert [] + ["t", "b"][..1] == ["t"] && ["t", "b"][1..] == ["b"];
      assert ["t"] + ["b"] == ["t", "b"] && ["x"] + ["b"][1..] == ["x"];
    }
  }

  lemma {:induction false} LargestOf(s: set<int>) returns (m: int)
    requires s != {}
    ensures m in s
    ensures forall y :: y in s ==> y <= m
    decreases |s|
  {
    assert exists x :: x in s by {
      if forall x :: x !in s { assert false; }
    }
    var x :| x in s;
    if s == {x} {
      m := x;
    } else {
      var m' := LargestOf(s - {x});
      m := if x > m' then x else m';
      forall y | y in s ensures y <= m {
        if y != x { assert y in s - {x}; }
      }
    }
  }

  lemma HasMax(s: set<int>)
    requires s != {}
    ensures exists m :: m in s && forall y :: y in s ==> y <= m
  {
    var m := LargestOf(s);
  }

  /** The largest element, or 0 when all are below 0 or there are none (the
      running maximum starts at 0). */
  function MaxOrZero(s: set<int>): (r: int)
    ensures r >= 0 && (r == 0 || r in s)
    ensures forall y :: y in s ==> y <= r
  {
    if s == {} then 0
    else
      HasMax(s);
      var m :| m in s && forall y :: y in s ==> y <= m;
      if m > 0 then m else 0
  }

  /** `_get_newest_mtime(path)`: a file's own mtime; for anything else the
      newest file below it, or 0. */
  function NewestMtime(w: World, p: Path): (r: int)
    ensures IsFile(w, p) ==> r == Stat(w, p).value.mtime
    ensures !IsFile(w, p) ==> r >= 0
    ensures IsDir(w, p) ==> forall q, m :: ListedMtime(w, p, Stat(w, p).value, q, m) ==> m <= r
    ensures IsDir(w, p) ==> r == 0 || exists q :: ListedMtime(w, p, Stat(w, p).value, q, r)
    ensures !Exists(w, p) ==> r == 0
  {
    match Stat(w, p)
    case None => 0
    case Some(d) =>
      if d.File? then d.mtime
      else
        var r := MaxOrZero(FileMtimes(w, p, d));
        assert forall q, m :: ListedMtime(w, p, d, q, m) ==> m <= r by {
          FileMtimesListed(w, p, d);
          forall q, m | ListedMtime(w, p, d, q, m) ensures m <= r {
            assert m in FileMtimes(w, p, d);
          }
        }
        assert r != 0 ==> exists q :: ListedMtime(w, p, d, q, r) by {
          FileMtimesMeaning(w, p, d, r);
        }
        r
  }
}
