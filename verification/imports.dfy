/** The import phase: entries that appeared in an import-source target are
    brought back into the dotfiles directory (scripts/sync_agents.py,
    `_ImportAction`, `_build_import_plan`, `_apply_import`, the result of
    `_print_import_plan`). The manifest is what tells a brand-new entry
    from one the user deleted from the dotfiles on purpose. */
module Imports {
  import opened Wrappers
  import opened Strings
  import opened FileTree
  import opened Compare
  import opened FsOps
  import opened Sources
  import opened Manifests

  /** `"import"`, `"conflict"`, `"exists"`, `"deleted"` */
  datatype ImportStatus = Import | Conflict | AlreadyThere | Deleted

  /** `_ImportAction` */
  datatype ImportAction = ImportAction(
    source: Path, resolved: Path, dest: Path, rel: string,
    isDir: bool, isSymlink: bool, status: ImportStatus)

  /** The path the import reads: a link in the target is resolved. */
  function ResolvedPath(w: World, child: Path): Path {
    if IsSymlink(w, child) then Resolve(w, child).GetOr(child) else child
  }

  /** A child the import looks at: not hidden, and not a dangling link. */
  predicate Considered(w: World, agent: Agent, cat: string, name: string) {
    !Hidden(name) && Exists(w, ResolvedPath(w, agent.directory + [cat, name]))
  }

  /** The dotfiles copy holds the same content as the target's entry: the
      same tree for a directory, the same bytes for a file. */
  predicate SameEntry(w: World, dest: Path, resolved: Path) {
    if IsDir(w, resolved) then
      IsDir(w, dest) && TreesEqual(Stat(w, dest).value, Stat(w, resolved).value)
    else
      IsFile(w, dest) && IsFile(w, resolved) && Stat(w, dest).value.content == Stat(w, resolved).value.content
  }

  /** The target's entry is strictly newer than the dotfiles copy: for a
      directory, its newest file against the copy's newest file; for a
      file, the two entries' own modification times. */
  predicate Newer(w: World, resolved: Path, dest: Path) {
    if IsDir(w, resolved) then NewestMtime(w, resolved) > NewestMtime(w, dest)
    else Exists(w, resolved) && Exists(w, dest) && Stat(w, resolved).value.mtime > Stat(w, dest).value.mtime
  }

  /** The status of an entry the dotfiles also hold; `None` where the
      comparison raises (a directory facing a non-directory, a file facing
      a dangling link). */
  function PresentStatus(w: World, dest: Path, resolved: Path): (r: Option<ImportStatus>)
    requires Exists(w, resolved)
    ensures IsDir(w, resolved) ==> (r.None? <==> !IsDir(w, dest))
    ensures !IsDir(w, resolved) ==> (r.None? <==> !Exists(w, dest))
    ensures r == Some(AlreadyThere) <==> r.Some? && SameEntry(w, dest, resolved)
    ensures r == Some(Import) <==> r.Some? && !SameEntry(w, dest, resolved) && Newer(w, resolved, dest)
    ensures r == Some(Conflict) <==> r.Some? && !SameEntry(w, dest, resolved) && !Newer(w, resolved, dest)
    ensures r != Some(Deleted)
  {
    if IsDir(w, resolved) then
      match CompareDirectories(w, dest, resolved)
      case None => None
      case Some(true) =>
        TreesEqualMeaning(Stat(w, dest).value, Stat(w, resolved).value);
        Some(AlreadyThere)
      case Some(false) =>
        TreesEqualMeaning(Stat(w, dest).value, Stat(w, resolved).value);
        Some(if NewestMtime(w, resolved) > NewestMtime(w, dest) then Import else Conflict)
    else
      match CompareFiles(w, dest, resolved)
      case None => None
      case Some(true) => Some(AlreadyThere)
      case Some(false) =>
        Some(if Stat(w, resolved).value.mtime > Stat(w, dest).value.mtime then Import else Conflict)
  }

  /** The action for the child `name` of the target's category `cat`. */
  function ClassifyChild(w: World, dotfiles: Path, agent: Agent, m: Manifest, cat: string, name: string): (r: Option<ImportAction>)
    requires Considered(w, agent, cat, name)
    ensures r.Some? ==>
      var child := agent.directory + [cat, name];
      var resolved := ResolvedPath(w, child);
      && r.value.source == child && r.value.resolved == resolved
      && r.value.rel == cat + "/" + name && r.value.dest == Join(dotfiles, r.value.rel)
      && r.value.isDir == IsDir(w, resolved) && r.value.isSymlink == IsSymlink(w, child)
    ensures name in Visible(w, dotfiles + [cat]) ==>
      r.None? == PresentStatus(w, Join(dotfiles, cat + "/" + name), ResolvedPath(w, agent.directory + [cat, name])).None?
    ensures name in Visible(w, dotfiles + [cat]) && r.Some? ==>
      Some(r.value.status) == PresentStatus(w, r.value.dest, r.value.resolved)
    ensures name !in Visible(w, dotfiles + [cat]) ==> r.Some? && (r.value.status == Deleted <==> name in Lookup(m, cat))
    ensures name !in Visible(w, dotfiles + [cat]) ==> r.Some? && (r.value.status == Import <==> name !in Lookup(m, cat))
  {
    var child := agent.directory + [cat, name];
    var rel := cat + "/" + name;
    var dest := Join(dotfiles, rel);
    var resolved := ResolvedPath(w, child);
    var status :=
      if name in Visible(w, dotfiles + [cat]) then PresentStatus(w, dest, resolved)
      else if name in Lookup(m, cat) then Some(Deleted)
      else Some(Import);
    match status
    case None => None
    case Some(s) => Some(ImportAction(child, resolved, dest, rel, IsDir(w, resolved), IsSymlink(w, child), s))
  }

  /** The actions for the listed children of one category, in order;
      skipped children leave no action; `None` when a comparison raises. */
  function ChildActions(w: World, dotfiles: Path, agent: Agent, m: Manifest, cat: string, names: seq<string>): (r: Option<seq<ImportAction>>)
    ensures r.None? <==> exists n :: n in names && Considered(w, agent, cat, n) && ClassifyChild(w, dotfiles, agent, m, cat, n).None?
    ensures r.Some? ==> forall a :: a in r.value <==>
      exists n :: n in names && Considered(w, agent, cat, n) && ClassifyChild(w, dotfiles, agent, m, cat, n) == Some(a)
  {
    if names == [] then Some([])
    else
      var n := names[0];
      assert forall x :: x in names <==> x == n || x in names[1..];
      var rest := ChildActions(w, dotfiles, agent, m, cat, names[1..]);
      if !Considered(w, agent, cat, n) then rest
      else
        match ClassifyChild(w, dotfiles, agent, m, cat, n)
        case None => None
        case Some(a) =>
          match rest
          case None => None
          case Some(tail) => Some([a] + tail)
  }

  /** The actions of one category; a category the target does not have
      as a directory gives none. */
  function CategoryOf(w: World, dotfiles: Path, agent: Agent, m: Manifest, c: string): Option<seq<ImportAction>> {
    if IsDir(w, agent.directory + [c]) then ChildActions(w, dotfiles, agent, m, c, SortedList(Children(w, agent.directory + [c])))
    else Some([])
  }

  /** The per-category results `each` of `cats`, concatenated in order;
      `None` as soon as one category raises. */
  function Collect(cats: seq<string>, each: string -> Option<seq<ImportAction>>): (r: Option<seq<ImportAction>>)
    ensures r.None? <==> exists c :: c in cats && each(c).None?
    ensures r.Some? ==> forall a :: a in r.value <==> exists c :: c in cats && each(c).Some? && a in each(c).value
  {
    if cats == [] then Some([])
    else
      assert forall x :: x in cats <==> x == cats[0] || x in cats[1..];
      match each(cats[0])
      case None => None
      case Some(here) =>
        match Collect(cats[1..], each)
        case None => None
        case Some(tail) => Some(here + tail)
  }

  /** The actions for the categories `cats`; a category the target does
      not have as a directory is passed over. */
  function CategoryActions(w: World, dotfiles: Path, agent: Agent, m: Manifest, cats: seq<string>): (r: Option<seq<ImportAction>>)
    ensures r.None? <==> exists c :: (
      && c in cats && IsDir(w, agent.directory + [c])
      && ChildActions(w, dotfiles, agent, m, c, SortedList(Children(w, agent.directory + [c]))).None?)
    ensures r.Some? ==> forall a :: a in r.value <==> exists c :: (
      && c in cats && IsDir(w, agent.directory + [c])
      && a in ChildActions(w, dotfiles, agent, m, c, SortedList(Children(w, agent.directory + [c]))).value)
  {
    Collect(cats, c => CategoryOf(w, dotfiles, agent, m, c))
  }

  /** `_build_import_plan`: the target's category children in the fixed
      category order; `iterdir()` is taken to list names in ascending
      order. */
  function BuildImportPlan(w: World, dotfiles: Path, agent: Agent, m: Manifest): (r: Option<seq<ImportAction>>)
    ensures r.None? <==> exists c, n ::
      && c in SyncDirectories && n in Children(w, agent.directory + [c]) && Considered(w, agent, c, n)
      && ClassifyChild(w, dotfiles, agent, m, c, n).None?
    ensures r.Some? ==> forall a :: a in r.value <==> exists c, n ::
      && c in SyncDirectories && n in Children(w, agent.directory + [c]) && Considered(w, agent, c, n)
      && ClassifyChild(w, dotfiles, agent, m, c, n) == Some(a)
  {
    var r := CategoryActions(w, dotfiles, agent, m, SyncDirectories);
    CategoryChildren(w, dotfiles, agent, m);
    r
  }

  /** The actions of one category directory are those of its listed
      children, and a category that is not a directory lists none. */
  lemma CategoryChildren(w: World, dotfiles: Path, agent: Agent, m: Manifest)
    ensures forall c :: c in SyncDirectories ==>
      var kids := Children(w, agent.directory + [c]);
      && (IsDir(w, agent.directory + [c]) || kids == {})
      && forall n :: n in SortedList(kids) <==> n in kids
  {
  }

  /** Every action of a plan that was built lies in a category, under a
      relative path `<category>/<name>`, with its dotfiles destination at
      that relative path. */
  ghost predicate WellFormed(dotfiles: Path, plan: seq<ImportAction>) {
    forall a :: a in plan ==> exists c, n ::
      c in SyncDirectories && a.rel == c + "/" + n && a.dest == Join(dotfiles, a.rel)
  }

  lemma BuildImportPlanWellFormed(w: World, dotfiles: Path, agent: Agent, m: Manifest)
    requires BuildImportPlan(w, dotfiles, agent, m).Some?
    ensures WellFormed(dotfiles, BuildImportPlan(w, dotfiles, agent, m).value)
  {
  }

  /** Every relative path of a built plan has the `/` the manifest
      bookkeeping splits at. */
  lemma ImportPlanRels(w: World, dotfiles: Path, agent: Agent, m: Manifest)
    requires BuildImportPlan(w, dotfiles, agent, m).Some?
    ensures var plan := BuildImportPlan(w, dotfiles, agent, m).value;
      forall i :: 0 <= i < |plan| ==> '/' in plan[i].rel
  {
    BuildImportPlanWellFormed(w, dotfiles, agent, m);
    WellFormedRels(dotfiles, BuildImportPlan(w, dotfiles, agent, m).value);
  }

  lemma WellFormedRels(dotfiles: Path, plan: seq<ImportAction>)
    requires WellFormed(dotfiles, plan)
    ensures forall i :: 0 <= i < |plan| ==> '/' in plan[i].rel
  {
    forall i | 0 <= i < |plan| ensures '/' in plan[i].rel {
      assert plan[i] in plan;
      var c, n :| c in SyncDirectories && plan[i].rel == c + "/" + n && plan[i].dest == Join(dotfiles, plan[i].rel);
      assert plan[i].rel[|c|] == '/';
    }
  }

  /** The manifest protects deletions: a name the manifest records for a
      category and that the dotfiles no longer hold is never imported,
      and is reported as `Deleted` whenever the target still has it. */
  lemma DeletedNeverImported(w: World, dotfiles: Path, agent: Agent, m: Manifest, cat: string, name: string)
    requires Considered(w, agent, cat, name)
    requires name in Lookup(m, cat) && name !in Visible(w, dotfiles + [cat])
    ensures ClassifyChild(w, dotfiles, agent, m, cat, name).Some?
    ensures ClassifyChild(w, dotfiles, agent, m, cat, name).value.status == Deleted
  {
  }

  /** Conversely, a visible name that the dotfiles lack and the manifest
      has never recorded is imported. */
  lemma UnknownIsImported(w: World, dotfiles: Path, agent: Agent, m: Manifest, cat: string, name: string)
    requires Considered(w, agent, cat, name)
    requires name !in Lookup(m, cat) && name !in Visible(w, dotfiles + [cat])
    ensures ClassifyChild(w, dotfiles, agent, m, cat, name) != None
    ensures ClassifyChild(w, dotfiles, agent, m, cat, name).value.status == Import
  {
  }

  /** The result of `_print_import_plan`: something would be imported. */
  function HasImports(plan: seq<ImportAction>): (r: bool)
    ensures r <==> exists i :: 0 <= i < |plan| && plan[i].status == Import
  {
    if plan == [] then false
    else
      assert forall i :: 1 <= i < |plan| ==> plan[i] == plan[1..][i - 1];
      plan[0].status == Import || HasImports(plan[1..])
  }

  /** The import copies the target's entry, not a place inside or around
      the dotfiles copy: in a world without links, the two paths branch
      apart, and a file is not imported onto a directory. */
  predicate ApartCopy(w: World, a: ImportAction) {
    LinkFree(w) && Diverges(a.resolved, a.dest) && (a.isDir || !IsDir(w, a.dest))
  }

  /** Branching apart is symmetric and survives dropping the last name of
      the second path. */
  lemma DivergesFacts(p: Path, q: Path)
    requires Diverges(p, q)
    ensures Diverges(q, p) && !IsPrefix(p, Parent(q)) && !IsPrefix(q, Parent(q))
  {
    var i :| 0 <= i < |p| && i < |q| && p[i] != q[i];
    assert q[i] != p[i];
  }

  /** One step of `_apply_import`: only `Import` actions touch the world.
      A directory replaces the dotfiles copy wholesale; a file is copied
      over it. Afterwards the dotfiles copy is what the target held. */
  function ApplyOne(w: World, a: ImportAction, now: int): (r: Option<World>)
    ensures a.status != Import ==> r == Some(w)
    ensures r.Some? && a.status == Import && ApartCopy(w, a) ==> Stat(r.value, a.dest) == Stat(w, a.resolved)
  {
    if a.status != Import then Some(w)
    else
      match MakeDirs(w, Parent(a.dest), now)
      case None => None
      case Some(w1) =>
        if a.isDir then
          (match if Exists(w1, a.dest) then RemoveTree(w1, a.dest) else Some(w1)
           case None => None
           case Some(w2) =>
             var r := CopyTree(w2, a.resolved, a.dest, now);
             assert r.Some? && ApartCopy(w, a) ==> Stat(w2, a.resolved) == Stat(w, a.resolved) by {
               if r.Some? && ApartCopy(w, a) {
                 DivergesFacts(a.resolved, a.dest);
                 MakeDirsKeepsStat(w, Parent(a.dest), now, a.resolved);
                 StatLinkFree(w1, a.dest);
                 StatLinkFree(w1, a.resolved);
                 StatLinkFree(w2, a.resolved);
               }
             }
             r)
        else
          var r := Copy2(w1, a.resolved, a.dest);
          assert r.Some? && ApartCopy(w, a) ==> Stat(w1, a.resolved) == Stat(w, a.resolved) && !IsDir(w1, a.dest) by {
            if r.Some? && ApartCopy(w, a) {
              DivergesFacts(a.resolved, a.dest);
              MakeDirsKeepsStat(w, Parent(a.dest), now, a.resolved);
              MakeDirsKeepsStat(w, Parent(a.dest), now, a.dest);
            }
          }
          r
  }

  /** `_apply_import`: the actions in order; `None` when a call raises. */
  function ApplyImport(w: World, plan: seq<ImportAction>, now: int): (r: Option<World>)
    ensures !HasImports(plan) ==> r == Some(w)
    decreases |plan|
  {
    if plan == [] then Some(w)
    else
      match ApplyOne(w, plan[0], now)
      case None => None
      case Some(w1) => ApplyImport(w1, plan[1..], now)
  }

  /** The manifest bookkeeping after an import: every imported relative
      path is recorded, in plan order. */
  function RecordImports(m: Manifest, plan: seq<ImportAction>): (r: Manifest)
    requires forall i :: 0 <= i < |plan| ==> '/' in plan[i].rel
    ensures Includes(r, m)
    ensures r.version == m.version
    ensures !HasImports(plan) ==> r == m
    ensures forall i :: 0 <= i < |plan| && plan[i].status == Import ==>
      AfterFirst(plan[i].rel, '/') in Lookup(r, BeforeFirst(plan[i].rel, '/'))
    ensures NoRepeats(m) ==> NoRepeats(r)
    decreases |plan|
  {
    if plan == [] then m
    else
      var m1 := if plan[0].status == Import then AddImported(m, plan[0].rel) else m;
      var r := RecordImports(m1, plan[1..]);
      assert forall i :: 1 <= i < |plan| ==> plan[i] == plan[1..][i - 1];
      r
  }

  /** `<cat>/<name>` is a child of the target that the import plan
      classes `import`. */
  predicate Imported(w: World, dotfiles: Path, agent: Agent, m: Manifest, cat: string, name: string) {
    && cat in SyncDirectories && name in Children(w, agent.directory + [cat]) && Considered(w, agent, cat, name)
    && ClassifyChild(w, dotfiles, agent, m, cat, name).Some?
    && ClassifyChild(w, dotfiles, agent, m, cat, name).value.status == Import
  }

  /** After the bookkeeping, every child the plan imports is recorded
      under its own category, by its own name. */
  lemma ImportsRecorded(w: World, dotfiles: Path, agent: Agent, m: Manifest, plan: seq<ImportAction>, m1: Manifest)
    requires BuildImportPlan(w, dotfiles, agent, m) == Some(plan)
    requires forall i :: 0 <= i < |plan| ==> '/' in plan[i].rel
    requires m1 == RecordImports(m, plan)
    ensures forall c, n :: Imported(w, dotfiles, agent, m, c, n) ==> n in Lookup(m1, c)
  {
    forall c, n | Imported(w, dotfiles, agent, m, c, n) ensures n in Lookup(m1, c) {
      var a := ClassifyChild(w, dotfiles, agent, m, c, n).value;
      assert a in plan;
      var i :| 0 <= i < |plan| && plan[i] == a;
      assert AfterFirst(a.rel, '/') in Lookup(m1, BeforeFirst(a.rel, '/'));
      CategoryHasNoSlash(c);
      SplitFirstOfJoin(c, n, '/');
    }
  }

  lemma CategoryHasNoSlash(c: string)
    requires c in SyncDirectories
    ensures '/' !in c
  {
  }
}
