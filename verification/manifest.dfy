/** The sync manifest: per category, every name the engine has ever
    managed (scripts/sync_agents.py, `_SyncManifest`, `_load_manifest`,
    `_save_manifest`, the phase-1 append and the final rebuild of
    `sync_mode`). The JSON file itself is not modelled: a stored manifest
    is handed in as a value. */
module Manifests {
  import opened Wrappers
  import opened Strings
  import opened FileTree
  import opened Sources

  datatype Manifest = Manifest(version: int, items: map<string, seq<string>>)

  /** `manifest.items.get(cat, [])` */
  function Lookup(m: Manifest, cat: string): seq<string> {
    if cat in m.items then m.items[cat] else []
  }

  /** Every name `small` records is recorded by `big` too. */
  predicate Includes(big: Manifest, small: Manifest) {
    forall k, n :: k in small.items && n in small.items[k] ==> k in big.items && n in big.items[k]
  }

  lemma IncludesTransitive(a: Manifest, b: Manifest, c: Manifest)
    requires Includes(a, b) && Includes(b, c)
    ensures Includes(a, c)
  {
  }

  predicate NoDuplicates(s: seq<string>) {
    forall i, j :: 0 <= i < j < |s| ==> s[i] != s[j]
  }

  /** No category lists a name twice. */
  predicate NoRepeats(m: Manifest) {
    forall k :: k in m.items ==> NoDuplicates(m.items[k])
  }

  /** `_load_manifest`: the stored manifest when there is one; otherwise
      one built from the visible children of the existing category
      directories. */
  function LoadManifest(w: World, dotfiles: Path, stored: Option<Manifest>): (r: Manifest)
    ensures stored.Some? ==> r == stored.value
    ensures stored.None? ==> r.version == ManifestVersion
    ensures stored.None? ==> forall c :: c in r.items <==> c in SyncDirectories && IsDir(w, dotfiles + [c])
    ensures stored.None? ==> forall c :: c in r.items ==>
      StrictlyAscending(r.items[c]) && forall n :: n in r.items[c] <==> n in Visible(w, dotfiles + [c])
  {
    match stored
    case Some(m) => m
    case None =>
      Manifest(ManifestVersion,
        map c | c in SyncDirectories && IsDir(w, dotfiles + [c]) :: SortedList(Visible(w, dotfiles + [c])))
  }

  /** `_save_manifest`: every list is written sorted. */
  function SaveManifest(m: Manifest): (r: Manifest)
    ensures r.version == m.version && r.items.Keys == m.items.Keys
    ensures forall k :: k in r.items ==> SortedBy(r.items[k], Identity) && multiset(r.items[k]) == multiset(m.items[k])
    ensures Includes(r, m) && Includes(m, r)
  {
    var r := Manifest(m.version, map k | k in m.items :: SortStrings(m.items[k]));
    assert forall k, n :: k in m.items ==> (n in m.items[k] <==> n in multiset(r.items[k]));
    r
  }

  /** The phase-1 bookkeeping for one imported item: the category and the
      name are read back from `"<category>/<name>"` by splitting at the
      first `/`; the name is appended unless already present. */
  function AddImported(m: Manifest, rel: string): (r: Manifest)
    requires '/' in rel
    ensures var cat := BeforeFirst(rel, '/');
      && r.version == m.version
      && r.items.Keys == m.items.Keys + {cat}
      && (forall k :: k in m.items && k != cat ==> r.items[k] == m.items[k])
      && AfterFirst(rel, '/') in r.items[cat]
      && Lookup(m, cat) <= r.items[cat]
      && |r.items[cat]| <= |Lookup(m, cat)| + 1
      && (NoDuplicates(Lookup(m, cat)) ==> NoDuplicates(r.items[cat]))
    ensures Includes(r, m)
    ensures NoRepeats(m) ==> NoRepeats(r)
  {
    var cat := BeforeFirst(rel, '/');
    var name := AfterFirst(rel, '/');
    var prev := Lookup(m, cat);
    Manifest(m.version, m.items[cat := if name in prev then prev else prev + [name]])
  }

  /** Recording `"<cat>/<name>"` records exactly `name` under `cat`. */
  lemma AddImportedRecordsName(m: Manifest, cat: string, name: string)
    requires '/' !in cat
    ensures var r := AddImported(m, cat + "/" + name);
      cat in r.items && name in r.items[cat]
      && forall n :: n in r.items[cat] <==> n in Lookup(m, cat) || n == name
  {
    SplitFirstOfJoin(cat, name, '/');
    assert cat + ['/'] + name == cat + "/" + name;
  }

  /** The rebuild at the end of `sync_mode`: each category becomes the sorted
      union of what the manifest had and what the category directory now
      holds; other keys are kept. */
  function Rebuild(m: Manifest, w: World, dotfiles: Path): (r: Manifest)
    ensures r.version == m.version
    ensures forall k :: k in r.items <==> k in m.items || k in SyncDirectories
    ensures forall k :: k in m.items && k !in SyncDirectories ==> r.items[k] == m.items[k]
    ensures forall c :: c in SyncDirectories ==> StrictlyAscending(r.items[c])
    ensures forall c, n :: c in SyncDirectories ==>
      (n in r.items[c] <==> n in Lookup(m, c) || n in Visible(w, dotfiles + [c]))
    ensures Includes(r, m)
  {
    var keys := m.items.Keys + (set c | c in SyncDirectories);
    Manifest(m.version,
      map k | k in keys ::
        if k in SyncDirectories
        then SortedList((set n | n in Lookup(m, k)) + Visible(w, dotfiles + [k]))
        else m.items[k])
  }
}
