/** What the writers achieve: in a world without links, writing an
    action's source over its target leaves the target in the state the
    next plan reports as `synced` (scripts/sync_agents.py, `_sync_file`,
    `_sync_directory` against `_build_sync_plan`). Also the two sides of
    the link problem of `_sync_file`. */
module Convergence {
  import opened Wrappers
  import opened FileTree
  import opened Compare
  import opened FsOps
  import opened Plans

  /** The source and the target lie apart and the target's parent is an
      existing directory. */
  predicate Placed(w: World, src: Path, dst: Path) {
    dst != [] && Diverges(src, dst) && IsDir(w, Parent(dst))
  }

  /** `copy2` of a file onto a path that is not a directory, without links:
      the file lands at that path and nothing else changes. */
  lemma Copy2LinkFree(w: World, src: Path, dst: Path)
    requires LinkFree(w) && IsFile(w, src) && Placed(w, src, dst) && !IsDir(w, dst)
    ensures Copy2(w, src, dst) == PutIn(w, dst, Stat(w, src).value)
    ensures Copy2(w, src, dst).Some?
  {
    StatLinkFree(w, src);
    StatLinkFree(w, dst);
    StatLinkFree(w, Parent(dst));
    assert src != [] by {
      var i :| 0 <= i < |src| && i < |dst| && src[i] != dst[i];
    }
    assert src != dst by {
      var i :| 0 <= i < |src| && i < |dst| && src[i] != dst[i];
    }
  }

  /** After the write the target holds `v` and the source is unchanged,
      so both are plain lookups in a world still without links. */
  lemma AfterPut(w: World, src: Path, dst: Path, v: Node, r: World)
    requires LinkFree(w) && LinkFree(v) && dst != [] && Diverges(src, dst)
    requires PutIn(w, dst, v) == Some(r)
    ensures LinkFree(r)
    ensures Stat(r, dst) == Some(v) && Stat(r, src) == Stat(w, src)
    ensures !IsSymlink(r, dst)
  {
    PutLinkFree(w, dst, v);
    PutElsewhere(w, dst, v, src);
    StatLinkFree(r, dst);
    StatLinkFree(r, src);
    StatLinkFree(w, src);
  }

  /** `_sync_file` of a file onto a file or a missing entry makes the next
      plan call the target `synced`. */
  lemma {:induction false} SyncFileConverges(w: World, src: Path, dst: Path, now: int)
    requires LinkFree(w) && IsFile(w, src) && Placed(w, src, dst) && !IsDir(w, dst)
    ensures SyncFile(w, src, dst, now).Some?
    ensures LinkFree(SyncFile(w, src, dst, now).value)
    ensures ItemStatus(SyncFile(w, src, dst, now).value, src, dst, false, true) == Some(Synced)
  {
    StatLinkFree(w, dst);
    StatLinkFree(w, Parent(dst));
    assert !IsSymlink(w, dst);
    assert MakeDirs(w, Parent(dst), now) == Some(w);
    Copy2LinkFree(w, src, dst);
    var v := Stat(w, src).value;
    StatLinkFree(w, src);
    GetLinkFree(w, src);
    var r := PutIn(w, dst, v).value;
    AfterPut(w, src, dst, v, r);
  }

  /** `copytree` into a missing entry under an existing directory, without
      links: the tree lands there and nothing else changes. */
  lemma CopyTreeLinkFree(w: World, src: Path, dst: Path, now: int)
    requires LinkFree(w) && IsDir(w, src) && Placed(w, src, dst) && !Exists(w, dst)
    ensures CopyTree(w, src, dst, now) == PutIn(w, dst, Stat(w, src).value)
    ensures CopyTree(w, src, dst, now).Some?
  {
    StatLinkFree(w, dst);
    StatLinkFree(w, Parent(dst));
    var v := Stat(w, src).value;
    assert MakeDirs(w, Parent(dst), now) == Some(w);
    assert CopyTree(w, src, dst, now) == PlaceNew(w, dst, v);
    assert PlaceNew(w, dst, v) == CreateIn(w, Parent(dst), Last(dst), v);
    assert Parent(dst) + [Last(dst)] == dst;
  }

  /** `_sync_directory` of a directory onto a directory or a missing entry
      makes the next plan call the target `synced`. */
  lemma {:induction false} SyncDirectoryConverges(w: World, src: Path, dst: Path, now: int)
    requires LinkFree(w) && IsDir(w, src) && Placed(w, src, dst) && !IsFile(w, dst)
    ensures SyncDirectory(w, src, dst, now).Some?
    ensures LinkFree(SyncDirectory(w, src, dst, now).value)
    ensures ItemStatus(SyncDirectory(w, src, dst, now).value, src, dst, true, true) == Some(Synced)
  {
    StatLinkFree(w, dst);
    StatLinkFree(w, src);
    assert !IsSymlink(w, dst);
    var w1: World;
    if Exists(w, dst) {
      w1 := RemoveTree(w, dst).value;
      DeleteLinkFree(w, dst);
      DeleteElsewhere(w, dst, src);
      DeleteKeepsParent(w, dst);
      StatLinkFree(w1, dst);
      StatLinkFree(w1, src);
      StatLinkFree(w1, Parent(dst));
    } else {
      w1 := w;
    }
    assert SyncDirectory(w, src, dst, now) == CopyTree(w1, src, dst, now);
    CopyTreeLinkFree(w1, src, dst, now);
    var v := Stat(w1, src).value;
    StatLinkFree(w1, src);
    GetLinkFree(w1, src);
    var r := PutIn(w1, dst, v).value;
    AfterPut(w1, src, dst, v, r);
    TreesEqualReflexive(v);
  }

  // ---------------------------------------------------------------------
  // A link at a file target.

  /** The source `/s`, holding `"new"`, and a target `/t` that is a link
      to the unrelated file `/x`. */
  const LinkedWorld: World := Dir(map[
    "s" := File("new", 2),
    "t" := Symlink(["x"]),
    "x" := File("old", 1)], 0)

  /** One name looked up in a root directory, links not involved. */
  lemma WalkOneName(w: World, name: string, fuel: nat, followLast: bool)
    requires name in w.entries && !w.entries[name].Symlink?
    ensures Walk(w, [], [name], followLast, fuel) == Some([name])
  {
    assert [] + [name] == [name];
    assert Get(w, [name]) == Some(w.entries[name]) by {
      assert [name][1..] == [];
    }
    assert Walk(w, [name], [name][1..], followLast, fuel) == Some([name]) by {
      assert [name][1..] == [];
    }
  }

  /** A link in the root directory to another name there, followed. */
  lemma WalkRootLink(w: World, name: string, to: string, fuel: nat)
    requires name in w.entries && w.entries[name] == Symlink([to])
    requires to in w.entries && !w.entries[to].Symlink?
    requires fuel > 0
    ensures Walk(w, [], [name], true, fuel) == Some([to])
  {
    assert [] + [name] == [name];
    assert Get(w, [name]) == Some(w.entries[name]) by {
      assert [name][1..] == [];
    }
    assert [to] + [name][1..] == [to];
    WalkOneName(w, to, fuel - 1, true);
  }

  /** The entry itself, its last link not followed. */
  lemma WalkRootEntry(w: World, name: string, fuel: nat)
    requires name in w.entries
    ensures Walk(w, [], [name], false, fuel) == Some([name])
  {
    assert [] + [name] == [name];
    assert Get(w, [name]) == Some(w.entries[name]) by {
      assert [name][1..] == [];
    }
    assert Walk(w, [name], [name][1..], false, fuel) == Some([name]) by {
      assert [name][1..] == [];
    }
  }

  /** `LinkedWorld` after the copy went through the link into `/x`. */
  const CopiedThroughWorld: World := Dir(map[
    "s" := File("new", 2),
    "t" := Symlink(["x"]),
    "x" := File("new", 2)], 0)

  lemma CopiesThroughLink()
    ensures SyncFileAsWritten(LinkedWorld, ["s"], ["t"], 5) == Some(CopiedThroughWorld)
  {
    var w := LinkedWorld;
    WalkRootLink(w, "t", "x", MaxSymlinkFollows);
    WalkOneName(w, "s", MaxSymlinkFollows, true);
    WalkOneName(w, "x", MaxSymlinkFollows, true);
    assert Stat(w, ["s"]) == Some(File("new", 2));
    assert Stat(w, ["t"]) == Some(File("old", 1));
    assert Parent(["t"]) == [];
    assert MakeDirs(w, Parent(["t"]), 5) == Some(w);
    assert w.entries["x" := File("new", 2)] == CopiedThroughWorld.entries;
    assert Put(w, ["x"], File("new", 2)) == Some(CopiedThroughWorld);
  }

  lemma StillLinked()
    ensures IsSymlink(CopiedThroughWorld, ["t"])
    ensures ItemStatus(CopiedThroughWorld, ["s"], ["t"], false, true) == Some(Changed)
  {
    WalkRootEntry(CopiedThroughWorld, "t", MaxSymlinkFollows);
    assert Get(CopiedThroughWorld, ["t"]) == Some(Symlink(["x"])) by {
      assert ["t"][1..] == [];
    }
  }

  /** As written, the copy goes through the link into `/x`: the link
      stays, so the next plan reports the target `changed` again, forever. */
  lemma LinkedTargetStaysChanged()
    ensures SyncFileAsWritten(LinkedWorld, ["s"], ["t"], 5).Some?
    ensures var r := SyncFileAsWritten(LinkedWorld, ["s"], ["t"], 5).value;
      IsSymlink(r, ["t"]) && ItemStatus(r, ["s"], ["t"], false, true) == Some(Changed)
  {
    CopiesThroughLink();
    StillLinked();
  }

  /** As written, a link that points back at the source makes `copy2`
      refuse (the same file on both sides), and the run stops. */
  lemma LinkToSourceRaises()
    ensures SyncFileAsWritten(Dir(map["s" := File("a", 1), "t" := Symlink(["s"])], 0), ["s"], ["t"], 5).None?
  {
    var w: World := Dir(map["s" := File("a", 1), "t" := Symlink(["s"])], 0);
    WalkRootLink(w, "t", "s", MaxSymlinkFollows);
    WalkOneName(w, "s", MaxSymlinkFollows, true);
    assert Stat(w, ["t"]) == Some(File("a", 1));
    assert Parent(["t"]) == [];
    assert MakeDirs(w, Parent(["t"]), 5) == Some(w);
  }

  /** `LinkedWorld` with the link at `/t` unlinked. */
  const UnlinkedWorld: World := Dir(map["s" := File("new", 2), "x" := File("old", 1)], 0)

  lemma LinkedWorldUnlinks()
    ensures IsSymlink(LinkedWorld, ["t"])
    ensures Unlink(LinkedWorld, ["t"]) == Some(UnlinkedWorld)
  {
    var w := LinkedWorld;
    WalkRootEntry(w, "t", MaxSymlinkFollows);
    assert Get(w, ["t"]) == Some(Symlink(["x"])) by {
      assert ["t"][1..] == [];
    }
    assert w.entries - {"t"} == UnlinkedWorld.entries;
    assert Delete(w, ["t"]) == Some(UnlinkedWorld);
  }

  lemma UnlinkedWorldReady()
    ensures LinkFree(UnlinkedWorld) && IsFile(UnlinkedWorld, ["s"])
    ensures Placed(UnlinkedWorld, ["s"], ["t"]) && !IsDir(UnlinkedWorld, ["t"])
  {
    var w1 := UnlinkedWorld;
    assert LinkFree(w1);
    StatLinkFree(w1, ["s"]);
    StatLinkFree(w1, ["t"]);
    StatLinkFree(w1, []);
    assert Get(w1, ["s"]) == Some(File("new", 2)) by {
      assert ["s"][1..] == [];
    }
    assert Get(w1, ["t"]) == None;
    assert Diverges(["s"], ["t"]) by { assert ["s"][0] != ["t"][0]; }
  }

  /** With the link removed first, the target becomes a real copy and the
      next plan reports it `synced`. */
  lemma LinkedTargetReplaced()
    ensures SyncFile(LinkedWorld, ["s"], ["t"], 5).Some?
    ensures var r := SyncFile(LinkedWorld, ["s"], ["t"], 5).value;
      !IsSymlink(r, ["t"]) && ItemStatus(r, ["s"], ["t"], false, true) == Some(Synced)
  {
    LinkedWorldUnlinks();
    UnlinkedWorldReady();
    SyncFileConverges(UnlinkedWorld, ["s"], ["t"], 5);
    SyncFileAfterUnlink(LinkedWorld, UnlinkedWorld, ["s"], ["t"], 5);
    var r := SyncFile(UnlinkedWorld, ["s"], ["t"], 5).value;
    StatLinkFree(r, ["t"]);
  }

  /** `SyncFile` at a link is `_sync_file` on the world without it. */
  lemma SyncFileAfterUnlink(w: World, w1: World, src: Path, dst: Path, now: int)
    requires IsSymlink(w, dst) && Unlink(w, dst) == Some(w1) && LinkFree(w1)
    ensures SyncFile(w, src, dst, now) == SyncFile(w1, src, dst, now)
  {
    StatLinkFree(w1, dst);
  }
}
