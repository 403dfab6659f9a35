/** The plan phase: what each target needs (scripts/sync_agents.py,
    `_build_sync_plan`, `_build_deletion_plan`, the result of
    `_print_plan`). */
module Plans {
  import opened Wrappers
  import opened Strings
  import opened FileTree
  import opened Compare
  import opened Sources
  import opened Manifests

  datatype Status = New | Changed | Synced

  /** `_SyncAction` */
  datatype SyncAction = SyncAction(source: Path, target: Path, rel: string, isDir: bool, status: Status)

  /** `_DeleteAction` */
  datatype DeleteAction = DeleteAction(target: Path, rel: string, isDir: bool)

  /** `_SyncPlan` */
  datatype SyncPlan = SyncPlan(agent: Agent, items: seq<SyncAction>, deletions: seq<DeleteAction>)

  /** The status of one entry against its target; `None` where the
      comparison raises. A link at the target is always `Changed` (unless
      it is the base file, which is not checked for links). */
  function ItemStatus(w: World, source: Path, target: Path, isDir: bool, checkLink: bool): (r: Option<Status>)
    ensures checkLink && IsSymlink(w, target) ==> r == Some(Changed)
    ensures !(checkLink && IsSymlink(w, target)) ==>
      && (r == Some(New) <==> !Exists(w, target))
      && (r == Some(Synced) <==> (if isDir then CompareDirectories(w, source, target) else CompareFiles(w, source, target)) == Some(true))
      && (r.None? <==> (if isDir then CompareDirectories(w, source, target) else CompareFiles(w, source, target)).None?)
  {
    if checkLink && IsSymlink(w, target) then Some(Changed)
    else if !Exists(w, target) then Some(New)
    else
      match if isDir then CompareDirectories(w, source, target) else CompareFiles(w, source, target)
      case None => None
      case Some(true) => Some(Synced)
      case Some(false) => Some(Changed)
  }

  /** The actions for the additional sources, in order. */
  function ItemActions(w: World, agent: Agent, sources: seq<SyncItem>): (r: Option<seq<SyncAction>>)
    ensures r.Some? ==> |r.value| == |sources|
    ensures r.Some? ==> forall i :: 0 <= i < |sources| ==>
      var t := Join(agent.directory, sources[i].rel);
      r.value[i] == SyncAction(sources[i].source, t, sources[i].rel, sources[i].isDir, r.value[i].status)
      && ItemStatus(w, sources[i].source, t, sources[i].isDir, true) == Some(r.value[i].status)
    ensures r.None? <==> exists i :: 0 <= i < |sources| && ItemStatus(w, sources[i].source, Join(agent.directory, sources[i].rel), sources[i].isDir, true).None?
  {
    if sources == [] then Some([])
    else
      var it := sources[0];
      var t := Join(agent.directory, it.rel);
      match ItemStatus(w, it.source, t, it.isDir, true)
      case None => None
      case Some(s) =>
        match ItemActions(w, agent, sources[1..])
        case None =>
          var j :| 0 <= j < |sources[1..]|
            && ItemStatus(w, sources[1..][j].source, Join(agent.directory, sources[1..][j].rel), sources[1..][j].isDir, true).None?;
          assert sources[j + 1] == sources[1..][j];
          None
        case Some(rest) =>
          var r := [SyncAction(it.source, t, it.rel, it.isDir, s)] + rest;
          assert forall i :: 1 <= i < |sources| ==> sources[i] == sources[1..][i - 1];
          Some(r)
  }

  /** `_build_sync_plan`'s actions: the base file first, then one action
      per additional source. */
  function BuildSyncPlan(w: World, dotfiles: Path, agent: Agent, sources: seq<SyncItem>): (r: Option<seq<SyncAction>>)
    ensures r.Some? ==> |r.value| == 1 + |sources|
    ensures r.Some? ==>
      var b := r.value[0];
      && b.source == dotfiles + [BaseFile] && b.target == Join(agent.directory, agent.mainFile)
      && b.rel == agent.mainFile && !b.isDir
      && ItemStatus(w, b.source, b.target, false, false) == Some(b.status)
    ensures r.Some? ==> forall i :: 0 <= i < |sources| ==>
      var a := r.value[i + 1];
      && a.source == sources[i].source && a.rel == sources[i].rel && a.isDir == sources[i].isDir
      && a.target == Join(agent.directory, sources[i].rel)
      && ItemStatus(w, a.source, a.target, a.isDir, true) == Some(a.status)
    ensures r.None? <==>
      || ItemStatus(w, dotfiles + [BaseFile], Join(agent.directory, agent.mainFile), false, false).None?
      || exists i :: 0 <= i < |sources| && ItemStatus(w, sources[i].source, Join(agent.directory, sources[i].rel), sources[i].isDir, true).None?
  {
    var bs := dotfiles + [BaseFile];
    var bt := Join(agent.directory, agent.mainFile);
    match ItemStatus(w, bs, bt, false, false)
    case None => None
    case Some(s) =>
      match ItemActions(w, agent, sources)
      case None => None
      case Some(rest) => Some([SyncAction(bs, bt, agent.mainFile, false, s)] + rest)
  }

  /** `exists() or is_symlink()` of the would-be deleted entry. */
  predicate DeletionTarget(w: World, agent: Agent, cat: string, n: string) {
    var t := Join(agent.directory + [cat], n);
    Exists(w, t) || IsSymlink(w, t)
  }

  /** The deletion of `<cat>/<n>` from the target. */
  function DeleteFor(w: World, agent: Agent, cat: string, n: string): DeleteAction {
    var t := Join(agent.directory + [cat], n);
    DeleteAction(t, cat + "/" + n, IsDir(w, t))
  }

  /** The names, in order, whose entry is present in the target. */
  function PresentNames(w: World, agent: Agent, cat: string, names: seq<string>): (r: seq<string>)
    ensures forall n :: n in r <==> n in names && DeletionTarget(w, agent, cat, n)
    ensures StrictlyAscending(names) ==> StrictlyAscending(r)
  {
    if names == [] then []
    else
      var rest := PresentNames(w, agent, cat, names[1..]);
      assert forall x :: x in names <==> x == names[0] || x in names[1..];
      if DeletionTarget(w, agent, cat, names[0]) then
        assert StrictlyAscending(names) ==> forall x :: x in rest ==> StrLt(names[0], x) by {
          if StrictlyAscending(names) {
            forall x | x in rest ensures StrLt(names[0], x) {
              var j :| 0 <= j < |names[1..]| && names[1..][j] == x;
              assert names[j + 1] == x;
            }
          }
        }
        [names[0]] + rest
      else rest
  }

  /** A name the manifest recorded for `cat`, that the dotfiles category
      no longer holds, and that the target still has an entry (or a
      dangling link) for. */
  predicate Deletable(w: World, dotfiles: Path, agent: Agent, m: Manifest, cat: string, n: string) {
    n in Lookup(m, cat) && n !in Visible(w, dotfiles + [cat]) && DeletionTarget(w, agent, cat, n)
  }

  /** The deletable names of one category, in sorted order. */
  function DeletedNames(w: World, dotfiles: Path, agent: Agent, m: Manifest, cat: string): (r: seq<string>)
    ensures forall n :: n in r <==> Deletable(w, dotfiles, agent, m, cat, n)
    ensures StrictlyAscending(r)
  {
    var gone := (set n | n in Lookup(m, cat)) - Visible(w, dotfiles + [cat]);
    PresentNames(w, agent, cat, SortedList(gone))
  }

  /** The deletions for the names `names` of `cat`, one per name, in
      their order. */
  function DeletionsFor(w: World, agent: Agent, cat: string, names: seq<string>): (r: seq<DeleteAction>)
    ensures |r| == |names|
    ensures forall i :: 0 <= i < |names| ==> r[i] == DeleteFor(w, agent, cat, names[i])
  {
    seq(|names|, i requires 0 <= i < |names| => DeleteFor(w, agent, cat, names[i]))
  }

  /** Sorted names give deletions sorted by relative path, one for each
      name and no other. */
  lemma DeletionsForSorted(w: World, agent: Agent, cat: string, names: seq<string>)
    requires StrictlyAscending(names)
    ensures forall d :: d in DeletionsFor(w, agent, cat, names) <==> exists n :: n in names && d == DeleteFor(w, agent, cat, n)
    ensures var r := DeletionsFor(w, agent, cat, names);
      forall i, j :: 0 <= i < j < |r| ==> StrLt(r[i].rel, r[j].rel)
  {
    var r := DeletionsFor(w, agent, cat, names);
    forall n | n in names ensures DeleteFor(w, agent, cat, n) in r {
      var i :| 0 <= i < |names| && names[i] == n;
      assert r[i] == DeleteFor(w, agent, cat, n);
    }
    forall i, j | 0 <= i < j < |r| ensures StrLt(r[i].rel, r[j].rel) {
      StrLtCommonPrefix(cat + "/", names[i], names[j]);
    }
  }

  /** The deletions for one category, ordered by relative path. */
  function CategoryDeletions(w: World, dotfiles: Path, agent: Agent, m: Manifest, cat: string): (r: seq<DeleteAction>)
    ensures forall d :: d in r <==> exists n :: Deletable(w, dotfiles, agent, m, cat, n) && d == DeleteFor(w, agent, cat, n)
    ensures forall i, j :: 0 <= i < j < |r| ==> StrLt(r[i].rel, r[j].rel)
  {
    var names := DeletedNames(w, dotfiles, agent, m, cat);
    DeletionsForSorted(w, agent, cat, names);
    DeletionsFor(w, agent, cat, names)
  }

  /** The deletions of the categories `cats`, category by category. */
  function DeletionsOf(w: World, dotfiles: Path, agent: Agent, m: Manifest, cats: seq<string>): (r: seq<DeleteAction>)
    ensures forall d :: d in r <==> exists c, n :: c in cats && Deletable(w, dotfiles, agent, m, c, n) && d == DeleteFor(w, agent, c, n)
  {
    if cats == [] then []
    else
      var r := CategoryDeletions(w, dotfiles, agent, m, cats[0]) + DeletionsOf(w, dotfiles, agent, m, cats[1..]);
      assert forall c :: c in cats <==> c == cats[0] || c in cats[1..];
      r
  }

  /** `_build_deletion_plan`: the categories in their fixed order. */
  function BuildDeletionPlan(w: World, dotfiles: Path, agent: Agent, m: Manifest): (r: seq<DeleteAction>)
    ensures forall d :: d in r <==> exists c, n :: c in SyncDirectories && Deletable(w, dotfiles, agent, m, c, n) && d == DeleteFor(w, agent, c, n)
  {
    DeletionsOf(w, dotfiles, agent, m, SyncDirectories)
  }

  /** Something to do: an action that is not `Synced`, or a deletion. */
  predicate Pending(p: SyncPlan) {
    (exists a :: a in p.items && a.status != Synced) || p.deletions != []
  }

  /** The result of `_print_plan`. */
  function HasChanges(plans: seq<SyncPlan>): (r: bool)
    ensures r <==> exists i :: 0 <= i < |plans| && Pending(plans[i])
  {
    if plans == [] then false
    else
      var r := Pending(plans[0]) || HasChanges(plans[1..]);
      assert forall i :: 1 <= i < |plans| ==> plans[i] == plans[1..][i - 1];
      r
  }
}
