/** The file-system calls the sync engine makes (`Path.mkdir`, `unlink`,
    `shutil.copy2`, `shutil.copytree`, `shutil.rmtree`) and its two writers
    `_sync_file` and `_sync_directory` (scripts/sync_agents.py). Each
    returns the new world, or `None` where the call raises. */
module FsOps {
  import opened Wrappers
  import opened FileTree

  /** Stores `v` at the non-root path `p`; the root stays a directory. */
  function PutIn(w: World, p: Path, v: Node): (r: Option<World>)
    requires p != []
    ensures r.Some? <==> Get(w, Parent(p)).Some? && Get(w, Parent(p)).value.Dir?
    ensures r.Some? ==> Get(r.value, p) == Some(v)
    ensures r.Some? ==> Put(w, p, v) == Some(r.value)
  {
    match Put(w, p, v)
    case Some(n) => Some(n)
    case None => None
  }

  function DeleteIn(w: World, p: Path): (r: Option<World>)
    requires p != []
    ensures r.Some? <==> Get(w, p).Some?
    ensures r.Some? ==> Get(r.value, p) == None
    ensures r.Some? ==> Delete(w, p) == Some(r.value)
  {
    match Delete(w, p)
    case Some(n) => Some(n)
    case None => None
  }

  /** Creates the entry `name` inside the directory `dir`, links followed. */
  function CreateIn(w: World, dir: Path, name: string, v: Node): (r: Option<World>)
    ensures r.Some? <==> IsDir(w, dir)
  {
    match Resolve(w, dir)
    case None => None
    case Some(q) => if IsDir(w, dir) then PutIn(w, q + [name], v) else None
  }

  /** `Path.mkdir(parents=True, exist_ok=True)`; `now` stamps the
      directories it creates. An existing entry that is not a directory
      (or a dangling link) makes it raise. */
  function MakeDirs(w: World, p: Path, now: int): (r: Option<World>)
    ensures LStat(w, p).Some? ==> (r.Some? <==> IsDir(w, p)) && (r.Some? ==> r.value == w)
    ensures r.Some? && LinkFree(w) ==> LinkFree(r.value) && IsDir(r.value, p)
    decreases |p|
  {
    if p == [] then Some(w)
    else if LStat(w, p).Some? then (if IsDir(w, p) then Some(w) else None)
    else
      var w1 := if Stat(w, Parent(p)).None? then MakeDirs(w, Parent(p), now) else Some(w);
      if w1.None? then None
      else
        var r := CreateIn(w1.value, Parent(p), Last(p), Dir(map[], now));
        if r.Some? && LinkFree(w) then
          MakeDirsLinkFree(w, w1.value, p, now, r.value);
          r
        else r
  }

  lemma MakeDirsLinkFree(w: World, w1: World, p: Path, now: int, r: World)
    requires p != [] && LinkFree(w)
    requires w1 == w || LinkFree(w1)
    requires CreateIn(w1, Parent(p), Last(p), Dir(map[], now)) == Some(r)
    ensures LinkFree(r) && IsDir(r, p)
  {
    StatLinkFree(w1, Parent(p));
    assert Parent(p) + [Last(p)] == p;
    PutLinkFree(w1, p, Dir(map[], now));
    StatLinkFree(r, p);
  }

  /** Removing the entry `q` that `p` names: afterwards `p` names nothing,
      and nothing that branches off `q` changes. */
  function RemoveEntry(w: World, p: Path, q: Path): (r: Option<World>)
    requires q != [] && ResolveEntry(w, p) == Some(q) && Get(w, q).Some?
    ensures r.Some? && LStat(r.value, p).None?
    ensures forall x :: Diverges(q, x) ==> Get(r.value, x) == Get(w, x)
    ensures LinkFree(w) ==> LinkFree(r.value)
  {
    var r := DeleteIn(w, q);
    WalkAfterDelete(w, q, [], p, false, MaxSymlinkFollows);
    DeleteElsewhereAll(w, q);
    assert LinkFree(w) ==> LinkFree(r.value) by {
      if LinkFree(w) { DeleteLinkFree(w, q); }
    }
    r
  }

  /** Without links, `mkdir -p p` changes nothing at a path that is not
      one of `p`'s prefixes: it only adds empty directories where there
      was nothing. */
  lemma {:induction false} MakeDirsKeeps(w: World, p: Path, now: int, q: Path)
    requires LinkFree(w) && MakeDirs(w, p, now).Some? && !IsPrefix(q, p)
    ensures Get(MakeDirs(w, p, now).value, q) == Get(w, q)
    decreases |p|
  {
    StatLinkFree(w, p);
    if p != [] && LStat(w, p).None? {
      StatLinkFree(w, Parent(p));
      var v := w;
      if Stat(w, Parent(p)).None? {
        assert IsPrefix(q, Parent(p)) ==> IsPrefix(q, p);
        MakeDirsKeeps(w, Parent(p), now, q);
        MakeDirsKeeps(w, Parent(p), now, p);
        v := MakeDirs(w, Parent(p), now).value;
      }
      assert MakeDirs(w, p, now) == CreateIn(v, Parent(p), Last(p), Dir(map[], now));
      CreateDirKeeps(v, p, now, q);
    }
  }

  /** One step of `mkdir -p`: creating the missing directory `p` in a
      world without links changes nothing at a path that is not one of
      `p`'s prefixes. */
  lemma CreateDirKeeps(v: World, p: Path, now: int, q: Path)
    requires LinkFree(v) && p != [] && IsDir(v, Parent(p)) && Get(v, p).None? && !IsPrefix(q, p)
    ensures CreateIn(v, Parent(p), Last(p), Dir(map[], now)).Some?
    ensures Get(CreateIn(v, Parent(p), Last(p), Dir(map[], now)).value, q) == Get(v, q)
  {
    StatLinkFree(v, Parent(p));
    assert Parent(p) + [Last(p)] == p;
    PrefixOrDiverges(p, q);
    if Diverges(p, q) {
      PutElsewhere(v, p, Dir(map[], now), q);
    } else {
      assert q[..|p|] == p && p + q[|p|..] == q;
      GetBelowPut(v, p, Dir(map[], now), q[|p|..]);
      GetConcat(v, p, q[|p|..]);
    }
  }

  /** The same, read through `stat`. */
  lemma MakeDirsKeepsStat(w: World, p: Path, now: int, q: Path)
    requires LinkFree(w) && MakeDirs(w, p, now).Some? && !IsPrefix(q, p)
    ensures Stat(MakeDirs(w, p, now).value, q) == Stat(w, q)
  {
    MakeDirsKeeps(w, p, now, q);
    StatLinkFree(w, q);
    StatLinkFree(MakeDirs(w, p, now).value, q);
  }

  /** `Path.unlink()`: removes a file or a link (never a directory). */
  function Unlink(w: World, p: Path): (r: Option<World>)
    ensures r.Some? <==> LStat(w, p).Some? && !LStat(w, p).value.Dir?
    ensures r.Some? ==> LStat(r.value, p).None?
    ensures r.Some? ==> forall x :: Diverges(ResolveEntry(w, p).value, x) ==> Get(r.value, x) == Get(w, x)
    ensures r.Some? && LinkFree(w) ==> LinkFree(r.value)
  {
    match ResolveEntry(w, p)
    case None => None
    case Some(q) =>
      if q == [] then None   // the root is a directory
      else match Get(w, q)
      case None => None
      case Some(Dir(_, _)) => None
      case Some(_) => RemoveEntry(w, p, q)
  }

  /** `shutil.rmtree`: removes a whole directory; refuses a link. */
  function RemoveTree(w: World, p: Path): (r: Option<World>)
    ensures r.Some? <==> LStat(w, p).Some? && LStat(w, p).value.Dir? && ResolveEntry(w, p) != Some([])
    ensures r.Some? ==> LStat(r.value, p).None?
    ensures r.Some? ==> forall x :: Diverges(ResolveEntry(w, p).value, x) ==> Get(r.value, x) == Get(w, x)
    ensures r.Some? && LinkFree(w) ==> LinkFree(r.value)
  {
    match ResolveEntry(w, p)
    case None => None
    case Some(q) =>
      if q == [] then None   // `rmtree` of the root is not modelled
      else match Get(w, q)
      case Some(Dir(_, _)) => RemoveEntry(w, p, q)
      case _ => None
  }

  /** Where `copy2(src, dst)` writes: into `dst` itself, or under the
      source's name when `dst` is a directory. */
  function Destination(w: World, src: Path, dst: Path): Path
    requires src != []
  {
    if IsDir(w, dst) then dst + [Last(src)] else dst
  }

  /** The entry a copy to `d` lands in: `d` resolves, to a place that is
      not the root and not a directory, inside an existing directory. */
  predicate Writable(w: World, d: Path) {
    && Resolve(w, d).Some? && Resolve(w, d).value != []
    && !(Get(w, Resolve(w, d).value).Some? && Get(w, Resolve(w, d).value).value.Dir?)
    && Get(w, Parent(Resolve(w, d).value)).Some? && Get(w, Parent(Resolve(w, d).value)).value.Dir?
  }

  /** `shutil.copy2(src, dst)`: into `dst/<name of src>` when `dst` is a
      directory; refuses to copy a file onto itself; writes through a link
      at the destination; keeps the source's modification time. */
  function Copy2(w: World, src: Path, dst: Path): (r: Option<World>)
    ensures r.Some? <==>
      && IsFile(w, src) && src != [] && Writable(w, Destination(w, src, dst))
      && Resolve(w, Destination(w, src, dst)) != Resolve(w, src)
    ensures r.Some? ==> Stat(r.value, Destination(w, src, dst)) == Stat(w, src)
    ensures r.Some? ==> forall x :: Diverges(Resolve(w, Destination(w, src, dst)).value, x) ==> Get(r.value, x) == Get(w, x)
  {
    match Stat(w, src)
    case Some(File(content, mtime)) =>
      if src == [] then None
      else
        var d := Destination(w, src, dst);
        (match (Resolve(w, src), Resolve(w, d))
         case (Some(a), Some(b)) =>
           if a == b || b == [] then None
           else if Get(w, b).Some? && Get(w, b).value.Dir? then None
           else
             (match PutIn(w, b, File(content, mtime))
              case None => None
              case Some(r) =>
                WalkEndsOffLink(w, [], d, MaxSymlinkFollows);
                WalkAfterPut(w, b, File(content, mtime), [], d, true, MaxSymlinkFollows, b);
                PutElsewhereAll(w, b, File(content, mtime));
                Some(r))
         case _ => None)
    case _ => None
  }

  /** Creating `dir/name` where nothing was: afterwards `dir/name` stats as
      the new node. */
  lemma CreateInStat(w: World, dir: Path, name: string, v: Node, r: World)
    requires !v.Symlink? && LStat(w, dir + [name]).None?
    requires CreateIn(w, dir, name, v) == Some(r)
    ensures Stat(r, dir + [name]) == Some(v)
  {
    var q := Resolve(w, dir).value;
    var b := q + [name];
    WalkPrefix(w, [], dir, [name], false, MaxSymlinkFollows);
    var f: nat :| f <= MaxSymlinkFollows && ResolveEntry(w, dir + [name]) == Walk(w, q, [name], false, f);
    assert Walk(w, q, [name], false, f) == Some(b);
    assert Parent(b) == q && Last(b) == name;
    WalkAfterPut(w, b, v, [], dir, true, MaxSymlinkFollows, q);
    WalkPrefix(r, [], dir, [name], true, MaxSymlinkFollows);
    var g: nat :| g <= MaxSymlinkFollows && Resolve(r, dir + [name]) == Walk(r, q, [name], true, g);
    assert Walk(r, q, [name], true, g) == Some(b);
  }

  /** A new entry `v` at `dst`, which must not exist yet, in an existing
      parent directory. */
  function PlaceNew(w: World, dst: Path, v: Node): (r: Option<World>)
    requires dst != [] && !v.Symlink?
    ensures r.Some? <==> LStat(w, dst).None? && IsDir(w, Parent(dst))
    ensures r.Some? ==> Stat(r.value, dst) == Some(v)
  {
    if LStat(w, dst).Some? then None
    else
      match CreateIn(w, Parent(dst), Last(dst), v)
      case None => None
      case Some(r) =>
        assert Parent(dst) + [Last(dst)] == dst;
        CreateInStat(w, Parent(dst), Last(dst), v, r);
        Some(r)
  }

  /** `shutil.copytree(src, dst)`: `os.makedirs(dst)` creates the missing
      parents and raises when `dst` is already there (before or once the
      parents are made); the copy keeps the source tree as it is. */
  function CopyTree(w: World, src: Path, dst: Path, now: int): (r: Option<World>)
    ensures r.Some? <==>
      && IsDir(w, src) && dst != [] && LStat(w, dst).None?
      && MakeDirs(w, Parent(dst), now).Some?
      && LStat(MakeDirs(w, Parent(dst), now).value, dst).None?
      && IsDir(MakeDirs(w, Parent(dst), now).value, Parent(dst))
    ensures r.Some? ==> Stat(r.value, dst) == Stat(w, src)
  {
    match Stat(w, src)
    case Some(Dir(entries, mtime)) =>
      if dst == [] || LStat(w, dst).Some? then None
      else
        (match MakeDirs(w, Parent(dst), now)
         case None => None
         case Some(w1) => PlaceNew(w1, dst, Dir(entries, mtime)))
    case _ => None
  }

  /** `_sync_file` as written: the parent is created, then `copy2` runs;
      a link at the target is written through and stays a link. */
  function SyncFileAsWritten(w: World, src: Path, dst: Path, now: int): (r: Option<World>) {
    match MakeDirs(w, Parent(dst), now)
    case None => None
    case Some(w1) => Copy2(w1, src, dst)
  }

  /** `_sync_file` with the link removed first, as `_sync_directory`
      already does: afterwards the target is a real copy. */
  function SyncFile(w: World, src: Path, dst: Path, now: int): Option<World> {
    if IsSymlink(w, dst) then
      match Unlink(w, dst)
      case None => None
      case Some(w1) => SyncFileAsWritten(w1, src, dst, now)
    else SyncFileAsWritten(w, src, dst, now)
  }

  /** `_sync_directory`: a link or an existing entry at the target is
      removed, then the source tree is copied there. */
  function SyncDirectory(w: World, src: Path, dst: Path, now: int): (r: Option<World>)
    ensures r.Some? ==> IsDir(r.value, dst)
    ensures LStat(w, dst).Some? && !LStat(w, dst).value.Symlink? && !LStat(w, dst).value.Dir? ==> r.None?
  {
    assert LStat(w, dst).Some? && !LStat(w, dst).value.Symlink? ==> Stat(w, dst) == LStat(w, dst) by {
      if LStat(w, dst).Some? && !LStat(w, dst).value.Symlink? { StatOfNonLink(w, dst); }
    }
    var w1 :=
      if IsSymlink(w, dst) then Unlink(w, dst)
      else if Exists(w, dst) then RemoveTree(w, dst)
      else Some(w);
    match w1
    case None => None
    case Some(w1) => CopyTree(w1, src, dst, now)
  }
}
