/** The file system the sync engine works on, as one immutable tree.

    A path is the sequence of names from the root. Symbolic links hold an
    absolute target path; following them is a walk in the manner of
    `os.path.realpath` that gives up after `MaxSymlinkFollows` links (the
    kernel's ELOOP), in which case the path is treated as missing. */
module FileTree {
  import opened Wrappers

  type Path = seq<string>

  datatype Node =
    | File(content: string, mtime: int)
    | Dir(entries: map<string, Node>, mtime: int)
    | Symlink(target: Path)

  /** A whole file system: its root is a directory. */
  type World = w: Node | w.Dir? witness Dir(map[], 0)

  /** How many links one lookup follows before giving up (Linux MAXSYMLINKS). */
  const MaxSymlinkFollows: nat := 40

  /** `Path.parent`: the root is its own parent. */
  function Parent(p: Path): Path {
    if p == [] then [] else p[..|p| - 1]
  }

  function Last(p: Path): string
    requires p != []
  {
    p[|p| - 1]
  }

  // ---------------------------------------------------------------------
  // Plain lookup and update, following no links.

  function Get(n: Node, p: Path): Option<Node>
    decreases |p|
  {
    if p == [] then Some(n)
    else match n
      case Dir(entries, _) => if p[0] in entries then Get(entries[p[0]], p[1..]) else None
      case _ => None
  }

  /** Replaces (or creates) the node at `p`; fails when `p`'s parent is not
      a directory. */
  function Put(n: Node, p: Path, v: Node): (r: Option<Node>)
    ensures p == [] ==> r == Some(v)
    ensures p != [] ==> (r.Some? <==> Get(n, Parent(p)).Some? && Get(n, Parent(p)).value.Dir?)
    ensures r.Some? ==> Get(r.value, p) == Some(v)
    ensures r.Some? && p != [] ==> r.value.Dir? && r.value.mtime == n.mtime
    decreases |p|
  {
    if p == [] then Some(v)
    else match n
      case Dir(entries, m) =>
        if |p| == 1 then Some(Dir(entries[p[0] := v], m))
        else if p[0] in entries then
          assert Parent(p)[1..] == Parent(p[1..]);
          (match Put(entries[p[0]], p[1..], v)
           case Some(c) => Some(Dir(entries[p[0] := c], m))
           case None => None)
        else None
      case _ => None
  }

  /** Removes the entry at `p`; fails when there is none. */
  function Delete(n: Node, p: Path): (r: Option<Node>)
    requires p != []
    ensures r.Some? <==> Get(n, p).Some?
    ensures r.Some? ==> Get(r.value, p) == None
    ensures r.Some? ==> r.value.Dir? && r.value.mtime == n.mtime
    decreases |p|
  {
    match n
    case Dir(entries, m) =>
      if p[0] !in entries then None
      else if |p| == 1 then Some(Dir(entries - {p[0]}, m))
      else
        (match Delete(entries[p[0]], p[1..])
         case Some(c) => Some(Dir(entries[p[0] := c], m))
         case None => None)
    case _ => None
  }

  /** `q` leaves `p` at some position: neither is a prefix of the other. */
  predicate Diverges(p: Path, q: Path) {
    exists i :: 0 <= i < |p| && i < |q| && p[i] != q[i]
  }

  /** An update at `p` leaves every path that branches off `p` alone. */
  lemma {:induction false} PutElsewhere(n: Node, p: Path, v: Node, q: Path)
    requires Put(n, p, v).Some? && Diverges(p, q)
    ensures Get(Put(n, p, v).value, q) == Get(n, q)
    decreases |p|
  {
    var i :| 0 <= i < |p| && i < |q| && p[i] != q[i];
    if i > 0 {
      assert p[1..][i - 1] != q[1..][i - 1];
      PutElsewhere(n.entries[p[0]], p[1..], v, q[1..]);
    }
  }

  /** So does a removal. */
  lemma {:induction false} DeleteElsewhere(n: Node, p: Path, q: Path)
    requires p != [] && Delete(n, p).Some? && Diverges(p, q)
    ensures Get(Delete(n, p).value, q) == Get(n, q)
    decreases |p|
  {
    var i :| 0 <= i < |p| && i < |q| && p[i] != q[i];
    if i > 0 {
      assert p[1..][i - 1] != q[1..][i - 1];
      DeleteElsewhere(n.entries[p[0]], p[1..], q[1..]);
    }
  }

  /** Looking up below an updated path reads inside the new node. */
  lemma {:induction false} GetBelowPut(n: Node, p: Path, v: Node, q: Path)
    requires Put(n, p, v).Some?
    ensures Get(Put(n, p, v).value, p + q) == Get(v, q)
    decreases |p|
  {
    if p != [] {
      assert (p + q)[1..] == p[1..] + q;
      if |p| > 1 {
        GetBelowPut(n.entries[p[0]], p[1..], v, q);
      } else {
        assert p[1..] + q == q;
      }
    } else {
      assert p + q == q;
    }
  }

  /** A lookup at a prefix of `p` still finds a directory after the update. */
  lemma {:induction false} PutKeepsAncestors(n: Node, p: Path, v: Node, k: nat)
    requires Put(n, p, v).Some? && k < |p|
    ensures Get(Put(n, p, v).value, p[..k]).Some? && Get(Put(n, p, v).value, p[..k]).value.Dir?
    ensures Get(n, p[..k]).Some? && Get(n, p[..k]).value.Dir?
    decreases |p|
  {
    if k > 0 {
      assert p[..k][1..] == p[1..][..k - 1];
      if |p| > 1 {
        PutKeepsAncestors(n.entries[p[0]], p[1..], v, k - 1);
      }
    }
  }

  // ---------------------------------------------------------------------
  // Following links.

  /** Walks `rest` from the already resolved `done`; a link met on the way
      (and, when `followLast` holds, a link at the very end) is replaced by
      its target and the walk restarts at the root. Missing names are kept
      as they are, as `realpath` does in its non-strict mode. */
  function Walk(root: Node, done: Path, rest: Path, followLast: bool, fuel: nat): Option<Path>
    decreases fuel, |rest|
  {
    if rest == [] then Some(done)
    else
      var next := done + [rest[0]];
      match Get(root, next)
      case Some(Symlink(t)) =>
        if |rest| == 1 && !followLast then Some(next)
        else if fuel == 0 then None
        else Walk(root, [], t + rest[1..], followLast, fuel - 1)
      case _ => Walk(root, next, rest[1..], followLast, fuel)
  }

  /** `Path.resolve()`: the link-free path naming the same entry. */
  function Resolve(w: World, p: Path): Option<Path> {
    Walk(w, [], p, true, MaxSymlinkFollows)
  }

  /** The path of the entry `p` itself (its last name not followed). */
  function ResolveEntry(w: World, p: Path): Option<Path> {
    Walk(w, [], p, false, MaxSymlinkFollows)
  }

  lemma {:induction false} WalkEndsOffLink(root: Node, done: Path, rest: Path, fuel: nat)
    requires !(Get(root, done).Some? && Get(root, done).value.Symlink?)
    requires root.Dir?
    requires Walk(root, done, rest, true, fuel).Some?
    ensures var q := Walk(root, done, rest, true, fuel).value;
      !(Get(root, q).Some? && Get(root, q).value.Symlink?)
    decreases fuel, |rest|
  {
    if rest != [] {
      var next := done + [rest[0]];
      match Get(root, next)
      case Some(Symlink(t)) =>
        WalkEndsOffLink(root, [], t + rest[1..], fuel - 1);
      case _ =>
        WalkEndsOffLink(root, next, rest[1..], fuel);
    }
  }

  /** `os.stat`: the node `p` denotes, links followed; `None` when it does
      not exist (or the links loop). Never a link itself. */
  function Stat(w: World, p: Path): (r: Option<Node>)
    ensures r.Some? ==> !r.value.Symlink?
  {
    match Resolve(w, p)
    case None => None
    case Some(q) =>
      WalkEndsOffLink(w, [], p, MaxSymlinkFollows);
      Get(w, q)
  }

  /** When the entry a walk ends on is not a link, following the last
      name as well changes nothing. */
  lemma {:induction false} WalkLastNotLink(root: Node, done: Path, rest: Path, fuel: nat)
    requires Walk(root, done, rest, false, fuel).Some?
    requires !(Get(root, Walk(root, done, rest, false, fuel).value).Some? &&
               Get(root, Walk(root, done, rest, false, fuel).value).value.Symlink?)
    ensures Walk(root, done, rest, true, fuel) == Walk(root, done, rest, false, fuel)
    decreases fuel, |rest|
  {
    if rest != [] {
      var next := done + [rest[0]];
      match Get(root, next)
      case Some(Symlink(t)) =>
        if !(|rest| == 1) {
          WalkLastNotLink(root, [], t + rest[1..], fuel - 1);
        }
      case _ =>
        WalkLastNotLink(root, next, rest[1..], fuel);
    }
  }

  /** An entry that is not a link reads the same through `stat` and
      `lstat`. */
  lemma StatOfNonLink(w: World, p: Path)
    requires LStat(w, p).Some? && !LStat(w, p).value.Symlink?
    ensures Stat(w, p) == LStat(w, p)
  {
    WalkLastNotLink(w, [], p, MaxSymlinkFollows);
  }

  /** `os.lstat`: the entry `p` names, itself possibly a link. */
  function LStat(w: World, p: Path): Option<Node> {
    match ResolveEntry(w, p)
    case None => None
    case Some(q) => Get(w, q)
  }

  predicate Exists(w: World, p: Path) { Stat(w, p).Some? }
  predicate IsDir(w: World, p: Path) { Stat(w, p).Some? && Stat(w, p).value.Dir? }
  predicate IsFile(w: World, p: Path) { Stat(w, p).Some? && Stat(w, p).value.File? }
  predicate IsSymlink(w: World, p: Path) { LStat(w, p).Some? && LStat(w, p).value.Symlink? }

  /** The names `iterdir()` lists in the directory `p` (empty when `p` is
      not a directory). */
  function Children(w: World, p: Path): (r: set<string>)
    ensures r != {} ==> IsDir(w, p)
    ensures forall c :: c in r ==> LStat(w, p + [c]).Some?
  {
    if IsDir(w, p) then
      AllChildEntries(w, p);
      Stat(w, p).value.entries.Keys
    else {}
  }

  lemma AllChildEntries(w: World, p: Path)
    requires IsDir(w, p)
    ensures forall c :: c in Stat(w, p).value.entries ==> LStat(w, p + [c]).Some?
  {
    var q := Resolve(w, p).value;
    forall c | c in Stat(w, p).value.entries ensures LStat(w, p + [c]).Some? {
      ChildEntry(w, p, q, c);
    }
  }

  /** Every listed name of a directory is an entry of it. */
  lemma ChildEntry(w: World, p: Path, q: Path, c: string)
    requires Resolve(w, p) == Some(q) && Get(w, q).Some? && Get(w, q).value.Dir?
    requires c in Get(w, q).value.entries
    ensures LStat(w, p + [c]).Some?
  {
    WalkPrefix(w, [], p, [c], false, MaxSymlinkFollows);
    var e := Get(w, q).value.entries[c];
    GetAppend(w, q, c);
    if e.Symlink? {
      assert ResolveEntry(w, p + [c]) == Walk(w, q, [c], false, MaxSymlinkFollows) == Some(q + [c]);
    } else {
      assert Walk(w, q, [c], false, MaxSymlinkFollows) == Walk(w, q + [c], [], false, MaxSymlinkFollows);
    }
  }

  lemma GetAppend(n: Node, q: Path, c: string)
    requires Get(n, q).Some? && Get(n, q).value.Dir?
    ensures Get(n, q + [c]) == if c in Get(n, q).value.entries then Some(Get(n, q).value.entries[c]) else None
  {
    GetConcat(n, q, [c]);
  }

  lemma {:induction false} GetConcat(n: Node, p: Path, q: Path)
    ensures Get(n, p + q) == if Get(n, p).Some? then Get(Get(n, p).value, q) else None
    decreases |p|
  {
    if p != [] {
      assert (p + q)[1..] == p[1..] + q;
      if n.Dir? && p[0] in n.entries {
        GetConcat(n.entries[p[0]], p[1..], q);
      }
    } else {
      assert p + q == q;
    }
  }

  /** A walk through `p` and on through `s` first walks `p` in full, with
      its last name followed, when `p` resolves to a directory. */
  lemma {:induction false} WalkPrefix(root: Node, done: Path, p: Path, s: Path, followLast: bool, fuel: nat)
    requires s != []
    requires Walk(root, done, p, true, fuel).Some?
    ensures exists f: nat ::
      && f <= fuel
      && Walk(root, done, p + s, followLast, fuel) == Walk(root, Walk(root, done, p, true, fuel).value, s, followLast, f)
    decreases fuel, |p|
  {
    if p == [] {
      assert p + s == s;
      assert Walk(root, done, p + s, followLast, fuel) == Walk(root, done, s, followLast, fuel);
    } else {
      var next := done + [p[0]];
      assert (p + s)[0] == p[0] && (p + s)[1..] == p[1..] + s;
      match Get(root, next)
      case Some(Symlink(t)) =>
        assert t + (p + s)[1..] == (t + p[1..]) + s;
        WalkPrefix(root, [], t + p[1..], s, followLast, fuel - 1);
        var f: nat :| f <= fuel - 1 && Walk(root, [], (t + p[1..]) + s, followLast, fuel - 1)
          == Walk(root, Walk(root, [], t + p[1..], true, fuel - 1).value, s, followLast, f);
      case _ =>
        WalkPrefix(root, next, p[1..], s, followLast, fuel);
    }
  }

  // ---------------------------------------------------------------------
  // Walks across an update.

  /** `p` is a prefix of `q` (possibly all of it). */
  predicate IsPrefix(p: Path, q: Path) {
    |p| <= |q| && q[..|p|] == p
  }

  /** Two paths either branch apart or one extends the other. */
  lemma PrefixOrDiverges(p: Path, q: Path)
    ensures IsPrefix(p, q) || IsPrefix(q, p) || Diverges(p, q)
  {
    var n := if |p| < |q| then |p| else |q|;
    if forall i :: 0 <= i < n ==> p[i] == q[i] {
      assert p[..n] == q[..n];
    } else {
      var i :| 0 <= i < n && p[i] != q[i];
    }
  }

  /** Every proper prefix of an existing path is a directory. */
  lemma AncestorIsDir(n: Node, p: Path, k: nat)
    requires Get(n, p).Some? && k < |p|
    ensures Get(n, p[..k]).Some? && Get(n, p[..k]).value.Dir?
  {
    GetConcat(n, p[..k], p[k..]);
    assert p[..k] + p[k..] == p;
  }

  /** Nothing lies below an entry that is not a directory, so a walk from
      there appends the rest as it is. */
  lemma {:induction false} WalkBelowLeaf(root: Node, done: Path, rest: Path, followLast: bool, fuel: nat)
    requires !(Get(root, done).Some? && Get(root, done).value.Dir?)
    ensures Walk(root, done, rest, followLast, fuel) == Some(done + rest)
    decreases |rest|
  {
    if rest == [] {
      assert done + rest == done;
    } else {
      var next := done + [rest[0]];
      GetConcat(root, done, [rest[0]]);
      WalkBelowLeaf(root, next, rest[1..], followLast, fuel);
      assert next + rest[1..] == done + rest;
    }
  }

  /** Every proper prefix of a removed path is still a directory. */
  lemma {:induction false} DeleteKeepsAncestors(n: Node, p: Path, k: nat)
    requires p != [] && Delete(n, p).Some? && k < |p|
    ensures Get(Delete(n, p).value, p[..k]).Some? && Get(Delete(n, p).value, p[..k]).value.Dir?
    decreases |p|
  {
    if k > 0 {
      assert p[..k][1..] == p[1..][..k - 1];
      DeleteKeepsAncestors(n.entries[p[0]], p[1..], k - 1);
    }
  }

  /** A walk that ended at `q` ends, once `q` is removed, at a path that
      no longer exists. */
  lemma {:induction false} WalkAfterDelete(root: Node, q: Path, done: Path, rest: Path, followLast: bool, fuel: nat)
    requires q != [] && Delete(root, q).Some?
    requires Walk(root, done, rest, followLast, fuel) == Some(q)
    ensures var r := Delete(root, q).value;
      Walk(r, done, rest, followLast, fuel).Some? && Get(r, Walk(r, done, rest, followLast, fuel).value) == None
    decreases fuel, |rest|
  {
    var r := Delete(root, q).value;
    if rest != [] {
      var next := done + [rest[0]];
      PrefixOrDiverges(q, next);
      if IsPrefix(q, next) {
        var tail := next[|q|..] + rest[1..];
        assert q + next[|q|..] == next && q + tail == next + rest[1..];
        GetConcat(r, q, next[|q|..]);
        GetConcat(r, q, tail);
        WalkBelowLeaf(r, next, rest[1..], followLast, fuel);
      } else if IsPrefix(next, q) {
        assert q[..|next|] == next;
        AncestorIsDir(root, q, |next|);
        DeleteKeepsAncestors(root, q, |next|);
        WalkAfterDelete(root, q, next, rest[1..], followLast, fuel);
      } else {
        DeleteElsewhere(root, q, next);
        match Get(root, next)
        case Some(Symlink(t)) =>
          if !(|rest| == 1 && !followLast) {
            WalkAfterDelete(root, q, [], t + rest[1..], followLast, fuel - 1);
          }
        case _ =>
          WalkAfterDelete(root, q, next, rest[1..], followLast, fuel);
      }
    }
  }

  /** Storing a non-link node at `b`, where there was nothing or a file,
      leaves a walk that ended at `b`, or anywhere not below `b`, where it
      was. */
  lemma {:induction false} WalkAfterPut(root: Node, b: Path, v: Node, done: Path, rest: Path, followLast: bool, fuel: nat, x: Path)
    requires b != [] && Put(root, b, v).Some? && !v.Symlink?
    requires Get(root, b).None? || Get(root, b).value.File?
    requires Walk(root, done, rest, followLast, fuel) == Some(x)
    requires x == b || !IsPrefix(b, x)
    ensures Walk(Put(root, b, v).value, done, rest, followLast, fuel) == Some(x)
    decreases fuel, |rest|
  {
    var r := Put(root, b, v).value;
    if rest != [] {
      var next := done + [rest[0]];
      PrefixOrDiverges(b, next);
      if IsPrefix(b, next) {
        WalkReachesLeaf(root, b, done, rest, followLast, fuel, x);
      } else if IsPrefix(next, b) {
        assert b[..|next|] == next;
        PutKeepsAncestors(root, b, v, |next|);
        WalkAfterPut(root, b, v, next, rest[1..], followLast, fuel, x);
      } else {
        PutElsewhere(root, b, v, next);
        match Get(root, next)
        case Some(Symlink(t)) =>
          if !(|rest| == 1 && !followLast) {
            WalkAfterPut(root, b, v, [], t + rest[1..], followLast, fuel - 1, x);
          }
        case _ =>
          WalkAfterPut(root, b, v, next, rest[1..], followLast, fuel, x);
      }
    }
  }

  /** A walk that steps onto or below the non-directory `b` and ends at
      `b` or off it takes that step last, onto `b` itself. */
  lemma WalkReachesLeaf(root: Node, b: Path, done: Path, rest: Path, followLast: bool, fuel: nat, x: Path)
    requires rest != [] && IsPrefix(b, done + [rest[0]])
    requires !(Get(root, b).Some? && (Get(root, b).value.Dir? || Get(root, b).value.Symlink?))
    requires Walk(root, done, rest, followLast, fuel) == Some(x)
    requires x == b || !IsPrefix(b, x)
    ensures done + [rest[0]] == b && rest[1..] == [] && x == b
  {
    var next := done + [rest[0]];
    var tail := next[|b|..];
    assert b + tail == next;
    GetConcat(root, b, tail);
    WalkBelowLeaf(root, next, rest[1..], followLast, fuel);
    assert (next + rest[1..])[..|b|] == b;
    if tail != [] || rest[1..] != [] {
      assert false;
    }
  }

  /** A removal changes nothing that branches off the removed path. */
  lemma DeleteElsewhereAll(n: Node, p: Path)
    requires p != [] && Delete(n, p).Some?
    ensures forall q :: Diverges(p, q) ==> Get(Delete(n, p).value, q) == Get(n, q)
  {
    forall q | Diverges(p, q) ensures Get(Delete(n, p).value, q) == Get(n, q) {
      DeleteElsewhere(n, p, q);
    }
  }

  /** Nor does an update. */
  lemma PutElsewhereAll(n: Node, p: Path, v: Node)
    requires Put(n, p, v).Some?
    ensures forall q :: Diverges(p, q) ==> Get(Put(n, p, v).value, q) == Get(n, q)
  {
    forall q | Diverges(p, q) ensures Get(Put(n, p, v).value, q) == Get(n, q) {
      PutElsewhere(n, p, v, q);
    }
  }

  // ---------------------------------------------------------------------
  // Worlds without links: every lookup is a plain one.

  predicate LinkFree(n: Node) {
    match n
    case File(_, _) => true
    case Dir(entries, _) => forall k :: k in entries ==> LinkFree(entries[k])
    case Symlink(_) => false
  }

  lemma {:induction false} GetLinkFree(n: Node, p: Path)
    requires LinkFree(n) && Get(n, p).Some?
    ensures LinkFree(Get(n, p).value)
    decreases |p|
  {
    if p != [] {
      GetLinkFree(n.entries[p[0]], p[1..]);
    }
  }

  lemma {:induction false} WalkLinkFree(root: Node, done: Path, rest: Path, followLast: bool, fuel: nat)
    requires LinkFree(root)
    ensures Walk(root, done, rest, followLast, fuel) == Some(done + rest)
    decreases |rest|
  {
    if rest == [] {
      assert done + rest == done;
    } else {
      var next := done + [rest[0]];
      if Get(root, next).Some? {
        GetLinkFree(root, next);
      }
      WalkLinkFree(root, next, rest[1..], followLast, fuel);
      assert next + rest[1..] == done + rest;
    }
  }

  /** Without links, `stat` and `lstat` are plain lookups. */
  lemma StatLinkFree(w: World, p: Path)
    requires LinkFree(w)
    ensures Stat(w, p) == Get(w, p) && LStat(w, p) == Get(w, p)
    ensures Resolve(w, p) == Some(p) && ResolveEntry(w, p) == Some(p)
  {
    WalkLinkFree(w, [], p, true, MaxSymlinkFollows);
    WalkLinkFree(w, [], p, false, MaxSymlinkFollows);
    assert [] + p == p;
  }

  lemma {:induction false} PutLinkFree(n: Node, p: Path, v: Node)
    requires LinkFree(n) && LinkFree(v) && Put(n, p, v).Some?
    ensures LinkFree(Put(n, p, v).value)
    decreases |p|
  {
    if |p| > 1 {
      PutLinkFree(n.entries[p[0]], p[1..], v);
    }
  }

  lemma {:induction false} DeleteLinkFree(n: Node, p: Path)
    requires p != [] && LinkFree(n) && Delete(n, p).Some?
    ensures LinkFree(Delete(n, p).value)
    decreases |p|
  {
    if |p| > 1 {
      DeleteLinkFree(n.entries[p[0]], p[1..]);
    }
  }

  /** A removal keeps the parent a directory. */
  lemma {:induction false} DeleteKeepsParent(n: Node, p: Path)
    requires p != [] && Delete(n, p).Some?
    ensures Get(Delete(n, p).value, Parent(p)).Some? && Get(Delete(n, p).value, Parent(p)).value.Dir?
    decreases |p|
  {
    if |p| > 1 {
      assert Parent(p)[1..] == Parent(p[1..]);
      DeleteKeepsParent(n.entries[p[0]], p[1..]);
    }
  }
}
