/** The engine's configuration and what it takes as sources: the base file,
    the legacy flat-named entries and the children of the synchronised
    category directories (scripts/sync_agents.py, `_get_directory_items`,
    `_get_additional_sources`). */
module Sources {
  import opened Wrappers
  import opened Strings
  import opened Naming
  import opened FileTree

  /** `AgentTarget`: a target directory and the name its base file gets. */
  datatype Agent = Agent(directory: Path, name: string, mainFile: string, importSource: bool)

  const BaseFile: string := "ROOT_AGENTS.md"

  /** The category directories synchronised child by child, in this order. */
  const SyncDirectories: seq<string> := ["commands", "skills", "agents"]

  const ManifestVersion: int := 1

  /** `_SyncItem`: a source entry and the relative path it gets in a target. */
  datatype SyncItem = SyncItem(source: Path, rel: string, isDir: bool)

  function Rel(it: SyncItem): string { it.rel }

  /** A name the engine skips: it starts with a dot. */
  predicate Hidden(name: string) {
    |name| > 0 && name[0] == '.'
  }

  /** `base / rel` in `pathlib`: `rel` is split at `/` (empty pieces
      dropped); an absolute `rel` replaces `base`. */
  function Join(base: Path, rel: string): Path {
    if |rel| > 0 && rel[0] == '/' then Pieces(rel, '/') else base + Pieces(rel, '/')
  }

  lemma PiecesOfName(a: string)
    requires a != [] && '/' !in a
    ensures Pieces(a, '/') == [a]
  {
    assert |BeforeFirst(a, '/')| == |a|;
  }

  /** Joining `"<a>/<b>"` appends the two names. */
  lemma JoinPair(base: Path, a: string, b: string)
    requires a != [] && b != [] && '/' !in a && '/' !in b
    ensures Join(base, a + "/" + b) == base + [a, b]
  {
    var s := a + "/" + b;
    SplitFirstOfJoin(a, b, '/');
    assert a + ['/'] + b == s;
    var head := BeforeFirst(s, '/');
    assert |head| == |a|;
    assert s[|head| + 1..] == b;
    PiecesOfName(b);
    assert s[0] == a[0];
  }

  lemma JoinName(base: Path, a: string)
    requires a != [] && '/' !in a
    ensures Join(base, a) == base + [a]
  {
    PiecesOfName(a);
  }

  /** `base / "<cat>/<rest>"` names `rest` inside the category `cat`. */
  lemma JoinCategory(base: Path, cat: string, rest: string)
    requires cat != [] && '/' !in cat
    ensures Join(base, cat + "/" + rest) == base + [cat] + Pieces(rest, '/')
  {
    var s := cat + "/" + rest;
    SplitFirstOfJoin(cat, rest, '/');
    assert cat + ['/'] + rest == s;
    var head := BeforeFirst(s, '/');
    assert |head| == |cat|;
    assert s[|head| + 1..] == rest;
    assert s[0] == cat[0];
  }

  /** The names `iterdir()` yields in `dir` that do not start with a dot. */
  function Visible(w: World, dir: Path): (r: set<string>)
    ensures forall c :: c in r <==> c in Children(w, dir) && !Hidden(c)
  {
    set c | c in Children(w, dir) && !Hidden(c)
  }

  /** The item for child `name` of category `cat`. */
  function CategoryItem(w: World, dotfiles: Path, cat: string, name: string): SyncItem {
    SyncItem(dotfiles + [cat, name], cat + "/" + name, IsDir(w, dotfiles + [cat, name]))
  }

  /** The children of one category directory, in listing order. */
  function CategoryItems(w: World, dotfiles: Path, cat: string): (r: seq<SyncItem>)
    ensures forall it :: it in r <==> exists n :: n in Visible(w, dotfiles + [cat]) && it == CategoryItem(w, dotfiles, cat, n)
  {
    var names := SortedList(Visible(w, dotfiles + [cat]));
    var r := seq(|names|, i requires 0 <= i < |names| => CategoryItem(w, dotfiles, cat, names[i]));
    assert forall n :: n in Visible(w, dotfiles + [cat]) ==> CategoryItem(w, dotfiles, cat, n) in r by {
      forall n | n in Visible(w, dotfiles + [cat]) ensures CategoryItem(w, dotfiles, cat, n) in r {
        var i :| 0 <= i < |names| && names[i] == n;
        assert r[i] == CategoryItem(w, dotfiles, cat, n);
      }
    }
    r
  }

  function ItemsOf(w: World, dotfiles: Path, cats: seq<string>): (r: seq<SyncItem>)
    ensures forall it :: it in r <==>
      exists c, n :: c in cats && n in Visible(w, dotfiles + [c]) && it == CategoryItem(w, dotfiles, c, n)
  {
    if cats == [] then []
    else
      var r := CategoryItems(w, dotfiles, cats[0]) + ItemsOf(w, dotfiles, cats[1..]);
      assert forall c :: c in cats <==> c == cats[0] || c in cats[1..];
      r
  }

  /** `_get_directory_items`: every visible child of every category
      directory, as `<category>/<child>`. */
  function DirectoryItems(w: World, dotfiles: Path): (r: seq<SyncItem>)
    ensures forall it :: it in r <==>
      exists c, n :: c in SyncDirectories && n in Visible(w, dotfiles + [c]) && it == CategoryItem(w, dotfiles, c, n)
  {
    ItemsOf(w, dotfiles, SyncDirectories)
  }

  /** The item for a legacy flat-named entry. */
  function LegacyItem(w: World, dotfiles: Path, name: string): SyncItem {
    SyncItem(dotfiles + [name], ConvertPath(name), IsDir(w, dotfiles + [name]))
  }

  function LegacyNames(w: World, dotfiles: Path): (r: set<string>)
    ensures forall n :: n in r <==> n in Children(w, dotfiles) && HasPrefix(n, LegacyPrefix)
  {
    set n | n in Children(w, dotfiles) && HasPrefix(n, LegacyPrefix)
  }

  function LegacyItems(w: World, dotfiles: Path): (r: seq<SyncItem>)
    ensures forall it :: it in r <==> exists n :: n in LegacyNames(w, dotfiles) && it == LegacyItem(w, dotfiles, n)
  {
    var names := SortedList(LegacyNames(w, dotfiles));
    LegacyItemsOf(w, dotfiles, names)
  }

  function LegacyItemsOf(w: World, dotfiles: Path, names: seq<string>): (r: seq<SyncItem>)
    ensures forall it :: it in r <==> exists n :: n in names && it == LegacyItem(w, dotfiles, n)
  {
    if names == [] then []
    else
      var r := [LegacyItem(w, dotfiles, names[0])] + LegacyItemsOf(w, dotfiles, names[1..]);
      assert forall n :: n in names <==> n == names[0] || n in names[1..];
      r
  }

  /** `_get_additional_sources`: the legacy entries and the category
      children, stably sorted by relative path; `None` where listing the
      dotfiles directory raises. */
  function AdditionalSources(w: World, dotfiles: Path): (r: Option<seq<SyncItem>>)
    ensures r.Some? <==> IsDir(w, dotfiles)
    ensures r.Some? ==> SortedBy(r.value, Rel)
    ensures r.Some? ==> multiset(r.value) == multiset(LegacyItems(w, dotfiles) + DirectoryItems(w, dotfiles))
    ensures r.Some? ==> forall rel :: WithKey(r.value, Rel, rel) == WithKey(LegacyItems(w, dotfiles) + DirectoryItems(w, dotfiles), Rel, rel)
  {
    if IsDir(w, dotfiles) then Some(SortBy(LegacyItems(w, dotfiles) + DirectoryItems(w, dotfiles), Rel)) else None
  }

  /** Exactly the legacy entries and the visible category children are
      sources, each under its own relative path. */
  lemma AdditionalSourcesMembers(w: World, dotfiles: Path, it: SyncItem)
    requires IsDir(w, dotfiles)
    ensures it in AdditionalSources(w, dotfiles).value <==>
      || (exists n :: n in LegacyNames(w, dotfiles) && it == LegacyItem(w, dotfiles, n))
      || (exists c, n :: c in SyncDirectories && n in Visible(w, dotfiles + [c]) && it == CategoryItem(w, dotfiles, c, n))
  {
    var all := LegacyItems(w, dotfiles) + DirectoryItems(w, dotfiles);
    var r := AdditionalSources(w, dotfiles).value;
    assert it in r <==> it in multiset(r);
    assert it in all <==> it in multiset(all);
  }
}
