/** The driver (scripts/sync_agents.py, `sync_mode` and `preview_mode`):
    the import phase, the planning of every target, the apply phase with
    its prompts, and the manifest bookkeeping. The console output is
    modelled as a log of events; the operator's answers as a stream of
    replies; `now` stamps the directories the run creates. */
module Engine {
  import opened Wrappers
  import opened FileTree
  import opened FsOps
  import opened Sources
  import opened Manifests
  import opened Plans
  import opened Imports
  import opened Prompt

  /** What the apply phase reports for one entry of one target. */
  datatype Event =
    | Created(agent: string, rel: string)       // a `new` entry written
    | Updated(agent: string, rel: string)       // a `changed` entry overwritten
    | Skipped(agent: string, rel: string)       // a `changed` entry left alone
    | Removed(agent: string, rel: string)       // a deletion carried out
    | KeptDeletion(agent: string, rel: string)  // a deletion declined

  datatype Outcome =
    | BaseFileMissing   // the run exits before touching anything
    | Crashed           // a file-system call raised
    | Finished(world: World, manifest: Manifest, log: seq<Event>, replies: seq<Reply>)

  /** The state the apply phase threads through its steps. */
  datatype Progress = Progress(world: World, log: seq<Event>, answers: seq<bool>)

  /** The world a step leaves, if it finishes. */
  function WorldOf(p: Option<Progress>): Option<World> {
    if p.Some? then Some(p.value.world) else None
  }

  /** The world a run leaves, if it finishes. */
  function OutcomeWorld(o: Outcome): Option<World> {
    if o.Finished? then Some(o.world) else None
  }

  // ---------------------------------------------------------------------
  // Phase 1: imports.

  /** One import source: its plan is built and, when it has something to
      import, applied and recorded; `None` when a step raises. */
  function ImportFrom(w: World, dotfiles: Path, agent: Agent, m: Manifest, now: int): (r: Option<(World, Manifest)>)
    ensures r.Some? ==> BuildImportPlan(w, dotfiles, agent, m).Some?
    ensures r.Some? ==> Includes(r.value.1, m) && r.value.1.version == m.version
    ensures r.Some? && NoRepeats(m) ==> NoRepeats(r.value.1)
    ensures r.Some? ==> forall c, n :: Imported(w, dotfiles, agent, m, c, n) ==> n in Lookup(r.value.1, c)
    ensures BuildImportPlan(w, dotfiles, agent, m).Some? && !HasImports(BuildImportPlan(w, dotfiles, agent, m).value)
      ==> r == Some((w, m))
  {
    match BuildImportPlan(w, dotfiles, agent, m)
    case None => None
    case Some(plan) =>
      if !HasImports(plan) then Some((w, m))
      else
        match ApplyImport(w, plan, now)
        case None => None
        case Some(w1) =>
          ImportPlanRels(w, dotfiles, agent, m);
          var m1 := RecordImports(m, plan);
          ImportsRecorded(w, dotfiles, agent, m, plan, m1);
          Some((w1, m1))
  }

  /** Phase 1: every import source, in order, is imported from; the
      names the first one records survive the rest of the phase. */
  function ImportPhase(w: World, dotfiles: Path, agents: seq<Agent>, m: Manifest, now: int): (r: Option<(World, Manifest)>)
    ensures r.Some? ==> Includes(r.value.1, m) && r.value.1.version == m.version
    ensures r.Some? && NoRepeats(m) ==> NoRepeats(r.value.1)
    ensures r.Some? && agents != [] && agents[0].importSource ==>
      && ImportFrom(w, dotfiles, agents[0], m, now).Some?
      && Includes(r.value.1, ImportFrom(w, dotfiles, agents[0], m, now).value.1)
    ensures (forall i :: 0 <= i < |agents| ==> !agents[i].importSource) ==> r == Some((w, m))
    decreases |agents|
  {
    if agents == [] then Some((w, m))
    else
      assert forall i :: 1 <= i < |agents| ==> agents[i] == agents[1..][i - 1];
      if !agents[0].importSource then ImportPhase(w, dotfiles, agents[1..], m, now)
      else
        match ImportFrom(w, dotfiles, agents[0], m, now)
        case None => None
        case Some((w1, m1)) =>
          var r := ImportPhase(w1, dotfiles, agents[1..], m1, now);
          if r.Some? then IncludesTransitive(r.value.1, m1, m); r
          else r
  }

  /** What the first import source imports is still recorded when the
      phase ends. */
  lemma FirstSourceRecorded(w: World, dotfiles: Path, agents: seq<Agent>, m: Manifest, now: int)
    requires agents != [] && agents[0].importSource
    requires ImportPhase(w, dotfiles, agents, m, now).Some?
    ensures forall c, n :: Imported(w, dotfiles, agents[0], m, c, n) ==>
      n in Lookup(ImportPhase(w, dotfiles, agents, m, now).value.1, c)
  {
    var m1 := ImportFrom(w, dotfiles, agents[0], m, now).value.1;
    var r := ImportPhase(w, dotfiles, agents, m, now).value.1;
    forall c, n | Imported(w, dotfiles, agents[0], m, c, n) ensures n in Lookup(r, c) {
      assert n in Lookup(m1, c);
    }
  }

  /** Building the import plan of this source raises. */
  predicate ImportFails(w: World, dotfiles: Path, agent: Agent, m: Manifest) {
    agent.importSource && BuildImportPlan(w, dotfiles, agent, m).None?
  }

  /** This source has something to import. */
  predicate ImportPending(w: World, dotfiles: Path, agent: Agent, m: Manifest) {
    agent.importSource && BuildImportPlan(w, dotfiles, agent, m).Some?
    && HasImports(BuildImportPlan(w, dotfiles, agent, m).value)
  }

  /** Whether some import source's plan, built by `plan`, imports
      something; `None` when building one raises. */
  function AnyPending(agents: seq<Agent>, plan: Agent -> Option<seq<ImportAction>>): (r: Option<bool>)
    ensures r.None? <==> exists i :: 0 <= i < |agents| && agents[i].importSource && plan(agents[i]).None?
    ensures r.Some? ==> (r.value <==> exists i :: 0 <= i < |agents| && agents[i].importSource
                                                  && plan(agents[i]).Some? && HasImports(plan(agents[i]).value))
    decreases |agents|
  {
    if agents == [] then Some(false)
    else
      assert forall i :: 1 <= i < |agents| ==> agents[i] == agents[1..][i - 1];
      if !agents[0].importSource then AnyPending(agents[1..], plan)
      else
        match plan(agents[0])
        case None => None
        case Some(first) =>
          match AnyPending(agents[1..], plan)
          case None => None
          case Some(b) => Some(HasImports(first) || b)
  }

  /** The import part of `preview_mode`: whether any import source has
      something to import; nothing is applied. */
  function PreviewImports(w: World, dotfiles: Path, agents: seq<Agent>, m: Manifest): (r: Option<bool>)
    ensures r.None? <==> exists i :: 0 <= i < |agents| && ImportFails(w, dotfiles, agents[i], m)
    ensures r.Some? ==> (r.value <==> exists i :: 0 <= i < |agents| && ImportPending(w, dotfiles, agents[i], m))
  {
    AnyPending(agents, a => BuildImportPlan(w, dotfiles, a, m))
  }

  /** When every import source's plan builds and imports nothing, phase 1
      changes neither the world nor the manifest. */
  lemma {:induction false} QuietImportPhase(w: World, dotfiles: Path, agents: seq<Agent>, m: Manifest, now: int)
    requires forall i :: 0 <= i < |agents| ==> !ImportFails(w, dotfiles, agents[i], m) && !ImportPending(w, dotfiles, agents[i], m)
    ensures ImportPhase(w, dotfiles, agents, m, now) == Some((w, m))
    decreases |agents|
  {
    if agents != [] {
      assert forall i :: 1 <= i < |agents| ==> agents[i] == agents[1..][i - 1];
      QuietImportPhase(w, dotfiles, agents[1..], m, now);
    }
  }

  // ---------------------------------------------------------------------
  // Phase 2: plans.

  /** A plan per agent, in order, from the agent's actions (`None` when
      building them raises) and its deletions. */
  function PlansOf(agents: seq<Agent>, items: Agent -> Option<seq<SyncAction>>, deletions: Agent -> seq<DeleteAction>): (r: Option<seq<SyncPlan>>)
    ensures r.None? <==> exists i :: 0 <= i < |agents| && items(agents[i]).None?
    ensures r.Some? ==> |r.value| == |agents|
    ensures r.Some? ==> forall i :: 0 <= i < |agents| ==>
      r.value[i] == SyncPlan(agents[i], items(agents[i]).value, deletions(agents[i]))
    decreases |agents|
  {
    if agents == [] then Some([])
    else
      assert forall i :: 1 <= i < |agents| ==> agents[i] == agents[1..][i - 1];
      match items(agents[0])
      case None => None
      case Some(first) =>
        match PlansOf(agents[1..], items, deletions)
        case None => None
        case Some(rest) => Some([SyncPlan(agents[0], first, deletions(agents[0]))] + rest)
  }

  /** A plan per target, in the order of `agents`; `None` when building a
      plan raises. */
  function BuildPlans(w: World, dotfiles: Path, agents: seq<Agent>, sources: seq<SyncItem>, m: Manifest): (r: Option<seq<SyncPlan>>)
    ensures r.None? <==> exists i :: 0 <= i < |agents| && BuildSyncPlan(w, dotfiles, agents[i], sources).None?
    ensures r.Some? ==> |r.value| == |agents|
    ensures r.Some? ==> forall i :: 0 <= i < |agents| ==>
      && r.value[i].agent == agents[i]
      && BuildSyncPlan(w, dotfiles, agents[i], sources) == Some(r.value[i].items)
      && r.value[i].deletions == BuildDeletionPlan(w, dotfiles, agents[i], m)
  {
    PlansOf(agents, a => BuildSyncPlan(w, dotfiles, a, sources), a => BuildDeletionPlan(w, dotfiles, a, m))
  }

  // ---------------------------------------------------------------------
  // Phase 3: apply.

  /** How `_confirm` reads each reply of the stream. */
  function Answers(replies: seq<Reply>): (r: seq<bool>)
    ensures |r| == |replies|
    ensures forall i :: 0 <= i < |replies| ==> r[i] == Confirm(replies[i])
  {
    seq(|replies|, i requires 0 <= i < |replies| => Confirm(replies[i]))
  }

  /** Every answer is a "no". */
  predicate Declines(answers: seq<bool>) {
    forall i :: 0 <= i < |answers| ==> !answers[i]
  }

  /** `rest` is what is left of `s` after a prefix was read. */
  predicate Suffix<T(==)>(rest: seq<T>, s: seq<T>) {
    |rest| <= |s| && rest == s[|s| - |rest|..]
  }

  lemma SuffixTransitive<T>(a: seq<T>, b: seq<T>, c: seq<T>)
    requires Suffix(a, b) && Suffix(b, c)
    ensures Suffix(a, c)
  {
    assert c[|c| - |b|..][|b| - |a|..] == c[|c| - |a|..];
  }

  lemma DeclinesSuffix(rest: seq<bool>, answers: seq<bool>)
    requires Suffix(rest, answers)
    ensures Declines(answers) ==> Declines(rest)
  {
    if Declines(answers) {
      forall i | 0 <= i < |rest| ensures !rest[i] {
        assert rest[i] == answers[|answers| - |rest| + i];
      }
    }
  }

  /** The operator said yes to the next prompt, or was never asked. */
  predicate Consented(autoYes: bool, answers: seq<bool>) {
    autoYes || (answers != [] && answers[0])
  }

  /** Only what needs no consent: `new` entries written, prompts declined. */
  predicate Unforced(log: seq<Event>)
    decreases |log|
  {
    log != [] ==> (log[0].Created? || log[0].Skipped? || log[0].KeptDeletion?) && Unforced(log[1..])
  }

  /** Nothing was skipped or kept: every change and deletion was carried out. */
  predicate NoneDeclined(log: seq<Event>)
    decreases |log|
  {
    log != [] ==> !log[0].Skipped? && !log[0].KeptDeletion? && NoneDeclined(log[1..])
  }

  /** `auto_yes or _confirm(...)`: with `auto_yes` no reply is read;
      an exhausted stream reads as end of input, a "no". */
  function Approve(autoYes: bool, answers: seq<bool>): (r: (bool, seq<bool>))
    ensures autoYes ==> r == (true, answers)
    ensures r.0 <==> Consented(autoYes, answers)
    ensures Suffix(r.1, answers)
  {
    if autoYes then (true, answers)
    else if answers == [] then (false, [])
    else (answers[0], answers[1..])
  }

  /** Reading the interpreted answers is reading the replies with `_confirm`. */
  lemma ApproveIsAsk(replies: seq<Reply>)
    ensures Approve(false, Answers(replies)).0 == Ask(replies).0
    ensures Approve(false, Answers(replies)).1 == Answers(Ask(replies).1)
  {
  }

  /** The writer for an action: `_sync_directory` or `_sync_file` (the
      latter with a link at the target removed first). */
  function Write(w: World, a: SyncAction, now: int): Option<World> {
    if a.isDir then SyncDirectory(w, a.source, a.target, now) else SyncFile(w, a.source, a.target, now)
  }

  /** The writer the apply phase is given at the run's clock. */
  function Writer(now: int): (World, SyncAction) -> Option<World> {
    (v, a) => Write(v, a, now)
  }

  /** The event an action may leave: a `new` entry is created; a `changed`
      one updated or skipped. */
  predicate Describes(e: Event, agent: string, a: SyncAction) {
    match a.status
    case New => e == Created(agent, a.rel)
    case Changed => e == Updated(agent, a.rel) || e == Skipped(agent, a.rel)
    case Synced => false
  }

  /** One item, given `written`, what writing it over its target leaves:
      `synced` is passed over, `new` is written, `changed` is written only
      when approved. */
  function ItemStep(w: World, agent: string, a: SyncAction, written: Option<World>,
                    autoYes: bool, answers: seq<bool>): (r: Option<Progress>)
    ensures r.Some? ==> Suffix(r.value.answers, answers)
    ensures r.Some? && (autoYes || a.status == New) ==> r.value.answers == answers
    ensures r.Some? && a.status != Synced ==> |r.value.log| == 1 && Describes(r.value.log[0], agent, a)
    ensures r.Some? && !Consented(autoYes, answers) ==> Unforced(r.value.log)
    ensures r.Some? && autoYes ==> NoneDeclined(r.value.log)
    ensures r.Some? ==> r.value.world == w || written == Some(r.value.world)
    ensures r.None? ==> written.None?
    ensures a.status == Synced ==> r == Some(Progress(w, [], answers))
    ensures a.status == Changed && !Consented(autoYes, answers) ==> r.Some? && r.value.world == w
    ensures a.status == New || (a.status == Changed && Consented(autoYes, answers)) ==> WorldOf(r) == written
  {
    if a.status == Synced then Some(Progress(w, [], answers))
    else if a.status == New then
      match written
      case None => None
      case Some(w1) => Some(Progress(w1, [Created(agent, a.rel)], answers))
    else
      var (yes, rest) := Approve(autoYes, answers);
      if !yes then Some(Progress(w, [Skipped(agent, a.rel)], rest))
      else
        match written
        case None => None
        case Some(w1) => Some(Progress(w1, [Updated(agent, a.rel)], rest))
  }

  /** The events of the first item and those of the rest together
      describe items of the plan. */
  lemma DescribedJoin(a: seq<Event>, b: seq<Event>, agent: string, items: seq<SyncAction>)
    requires items != []
    requires a == [] || (|a| == 1 && Describes(a[0], agent, items[0]))
    requires forall e :: e in b ==> exists x :: x in items[1..] && Describes(e, agent, x)
    ensures forall e :: e in a + b ==> exists x :: x in items && Describes(e, agent, x)
  {
    forall e | e in a + b ensures exists x :: x in items && Describes(e, agent, x) {
      if e in a {
        assert e == a[0] && items[0] in items;
      } else {
        var x :| x in items[1..] && Describes(e, agent, x);
        assert x in items;
      }
    }
  }

  lemma {:induction false} NoneDeclinedJoin(a: seq<Event>, b: seq<Event>)
    ensures NoneDeclined(a + b) <==> NoneDeclined(a) && NoneDeclined(b)
    decreases |a|
  {
    if a == [] {
      assert a + b == b;
    } else {
      assert (a + b)[0] == a[0] && (a + b)[1..] == a[1..] + b;
      NoneDeclinedJoin(a[1..], b);
    }
  }

  /** The items of one plan, in order; `write` is the writer of one action
      (`Write` at the run's clock). */
  function ApplyItems(w: World, agent: string, items: seq<SyncAction>, write: (World, SyncAction) -> Option<World>,
                      autoYes: bool, answers: seq<bool>): (r: Option<Progress>)
    ensures r.Some? ==> Suffix(r.value.answers, answers)
    ensures r.Some? && autoYes ==> r.value.answers == answers
    ensures r.Some? ==> forall e :: e in r.value.log ==> exists a :: a in items && Describes(e, agent, a)
    ensures r.Some? && !autoYes && Declines(answers) ==> Unforced(r.value.log)
    ensures r.Some? && autoYes ==> NoneDeclined(r.value.log)
    decreases |items|
  {
    if items == [] then Some(Progress(w, [], answers))
    else
      match ItemStep(w, agent, items[0], write(w, items[0]), autoYes, answers)
      case None => None
      case Some(p) =>
        DeclinesSuffix(p.answers, answers);
        match ApplyItems(p.world, agent, items[1..], write, autoYes, p.answers)
        case None => None
        case Some(q) =>
          Chain(p, q, answers, autoYes);
          DescribedJoin(p.log, q.log, agent, items);
          Some(Progress(q.world, p.log + q.log, q.answers))
  }

  /** A plan whose items are all `synced` writes nothing and asks nothing. */
  lemma {:induction false} AllSyncedItemsAreQuiet(w: World, agent: string, items: seq<SyncAction>,
                                                  write: (World, SyncAction) -> Option<World>, autoYes: bool, answers: seq<bool>)
    requires forall i :: 0 <= i < |items| ==> items[i].status == Synced
    ensures ApplyItems(w, agent, items, write, autoYes, answers) == Some(Progress(w, [], answers))
    decreases |items|
  {
    if items != [] {
      assert items[0].status == Synced;
      forall i | 0 <= i < |items[1..]| ensures items[1..][i].status == Synced {
        assert items[1..][i] == items[i + 1];
      }
      AllSyncedItemsAreQuiet(w, agent, items[1..], write, autoYes, answers);
      assert ItemStep(w, agent, items[0], write(w, items[0]), autoYes, answers) == Some(Progress(w, [], answers));
      var none: seq<Event> := [];
      assert none + none == none;
    }
  }

  /** One approved deletion: a link is unlinked, a directory removed as a
      tree, anything else unlinked. */
  function Remove(w: World, d: DeleteAction): (r: Option<World>)
    ensures r.Some? <==> (
      && LStat(w, d.target).Some?
      && if d.isDir && !IsSymlink(w, d.target)
         then LStat(w, d.target).value.Dir? && ResolveEntry(w, d.target) != Some([])
         else !LStat(w, d.target).value.Dir?)
    ensures r.Some? ==> LStat(r.value, d.target).None?
  {
    if IsSymlink(w, d.target) then Unlink(w, d.target)
    else if d.isDir then RemoveTree(w, d.target)
    else Unlink(w, d.target)
  }

  /** One deletion, given `removed`, what carrying it out leaves; it is
      carried out only when approved. */
  function DeleteStep(w: World, agent: string, d: DeleteAction, removed: Option<World>,
                      autoYes: bool, answers: seq<bool>): (r: Option<Progress>)
    ensures r.Some? ==> Suffix(r.value.answers, answers)
    ensures r.Some? && autoYes ==> r.value.answers == answers
    ensures r.Some? ==> r.value.log == [Removed(agent, d.rel)] || (!autoYes && r.value.log == [KeptDeletion(agent, d.rel)])
    ensures !Consented(autoYes, answers) ==> r.Some? && r.value == Progress(w, [KeptDeletion(agent, d.rel)], r.value.answers)
    ensures Consented(autoYes, answers) ==> WorldOf(r) == removed
  {
    var (yes, rest) := Approve(autoYes, answers);
    if yes then
      match removed
      case None => None
      case Some(w1) => Some(Progress(w1, [Removed(agent, d.rel)], rest))
    else Some(Progress(w, [KeptDeletion(agent, d.rel)], rest))
  }

  /** `log` reports `dels` one by one, in order: each carried out, or
      (when prompts are shown) declined. */
  predicate DeletionLog(log: seq<Event>, agent: string, dels: seq<DeleteAction>, autoYes: bool)
    decreases |dels|
  {
    && |log| == |dels|
    && (dels != [] ==>
      && (log[0] == Removed(agent, dels[0].rel) || (!autoYes && log[0] == KeptDeletion(agent, dels[0].rel)))
      && DeletionLog(log[1..], agent, dels[1..], autoYes))
  }

  lemma DeletionLogJoin(a: seq<Event>, b: seq<Event>, agent: string, dels: seq<DeleteAction>, autoYes: bool)
    requires dels != []
    requires a == [Removed(agent, dels[0].rel)] || (!autoYes && a == [KeptDeletion(agent, dels[0].rel)])
    requires DeletionLog(b, agent, dels[1..], autoYes)
    ensures DeletionLog(a + b, agent, dels, autoYes)
  {
    assert (a + b)[1..] == b;
  }

  lemma {:induction false} UnforcedJoin(a: seq<Event>, b: seq<Event>)
    ensures Unforced(a + b) <==> Unforced(a) && Unforced(b)
    decreases |a|
  {
    if a == [] {
      assert a + b == b;
    } else {
      assert (a + b)[0] == a[0] && (a + b)[1..] == a[1..] + b;
      UnforcedJoin(a[1..], b);
    }
  }

  /** Two steps in a row keep what the apply phase promises about the
      replies and the log. */
  lemma Chain(a: Progress, b: Progress, answers: seq<bool>, autoYes: bool)
    requires Suffix(a.answers, answers) && Suffix(b.answers, a.answers)
    requires autoYes ==> a.answers == answers && b.answers == a.answers
    requires !autoYes && Declines(answers) ==> Unforced(a.log) && Unforced(b.log)
    requires autoYes ==> NoneDeclined(a.log) && NoneDeclined(b.log)
    ensures Suffix(b.answers, answers)
    ensures autoYes ==> b.answers == answers
    ensures !autoYes && Declines(answers) ==> Unforced(a.log + b.log)
    ensures autoYes ==> NoneDeclined(a.log + b.log)
  {
    SuffixTransitive(b.answers, a.answers, answers);
    UnforcedJoin(a.log, b.log);
    NoneDeclinedJoin(a.log, b.log);
  }

  /** The deletions of one plan, in order. */
  function ApplyDeletions(w: World, agent: string, dels: seq<DeleteAction>, remove: (World, DeleteAction) -> Option<World>,
                          autoYes: bool, answers: seq<bool>): (r: Option<Progress>)
    ensures r.Some? ==> Suffix(r.value.answers, answers)
    ensures r.Some? && autoYes ==> r.value.answers == answers
    ensures r.Some? ==> DeletionLog(r.value.log, agent, dels, autoYes)
    ensures !autoYes && Declines(answers) ==> r.Some? && r.value.world == w && Unforced(r.value.log)
    ensures r.Some? && autoYes ==> NoneDeclined(r.value.log)
    decreases |dels|
  {
    if dels == [] then Some(Progress(w, [], answers))
    else
      match DeleteStep(w, agent, dels[0], remove(w, dels[0]), autoYes, answers)
      case None => None
      case Some(p) =>
        DeclinesSuffix(p.answers, answers);
        match ApplyDeletions(p.world, agent, dels[1..], remove, autoYes, p.answers)
        case None => None
        case Some(q) =>
          Chain(p, q, answers, autoYes);
          DeletionLogJoin(p.log, q.log, agent, dels, autoYes);
          Some(Progress(q.world, p.log + q.log, q.answers))
  }

  /** One plan: the target directory is created, then the items and the
      deletions are applied. */
  function PlanStep(w: World, p: SyncPlan, write: (World, SyncAction) -> Option<World>,
                    autoYes: bool, answers: seq<bool>, now: int): (r: Option<Progress>)
    ensures r.Some? ==> MakeDirs(w, p.agent.directory, now).Some?
    ensures r.Some? ==> Suffix(r.value.answers, answers)
    ensures r.Some? && autoYes ==> r.value.answers == answers
    ensures r.Some? && !autoYes && Declines(answers) ==> Unforced(r.value.log)
    ensures r.Some? && autoYes ==> NoneDeclined(r.value.log)
  {
    match MakeDirs(w, p.agent.directory, now)
    case None => None
    case Some(w1) =>
      match ApplyItems(w1, p.agent.name, p.items, write, autoYes, answers)
      case None => None
      case Some(a) =>
        DeclinesSuffix(a.answers, answers);
        match ApplyDeletions(a.world, p.agent.name, p.deletions, Remove, autoYes, a.answers)
        case None => None
        case Some(b) =>
          Chain(a, b, answers, autoYes);
          Some(Progress(b.world, a.log + b.log, b.answers))
  }

  /** The apply loop over all plans. */
  function ApplyPlans(w: World, plans: seq<SyncPlan>, write: (World, SyncAction) -> Option<World>,
                      autoYes: bool, answers: seq<bool>, now: int): (r: Option<Progress>)
    ensures r.Some? ==> Suffix(r.value.answers, answers)
    ensures r.Some? && autoYes ==> r.value.answers == answers
    ensures r.Some? && !autoYes && Declines(answers) ==> Unforced(r.value.log)
    ensures r.Some? && autoYes ==> NoneDeclined(r.value.log)
    decreases |plans|
  {
    if plans == [] then Some(Progress(w, [], answers))
    else
      match PlanStep(w, plans[0], write, autoYes, answers, now)
      case None => None
      case Some(a) =>
        DeclinesSuffix(a.answers, answers);
        match ApplyPlans(a.world, plans[1..], write, autoYes, a.answers, now)
        case None => None
        case Some(c) =>
          Chain(a, c, answers, autoYes);
          Some(Progress(c.world, a.log + c.log, c.answers))
  }

  // ---------------------------------------------------------------------
  // What the apply phase writes.

  /** The entries of `items` that need no consent, in order. */
  function NewOnly(items: seq<SyncAction>): (r: seq<SyncAction>)
    ensures forall a :: a in r <==> a in items && a.status == New
    decreases |items|
  {
    if items == [] then []
    else
      assert forall a :: a in items <==> a == items[0] || a in items[1..];
      (if items[0].status == New then [items[0]] else []) + NewOnly(items[1..])
  }

  /** The entries of `items` that are not `synced`, in order. */
  function Unsynced(items: seq<SyncAction>): (r: seq<SyncAction>)
    ensures forall a :: a in r <==> a in items && a.status != Synced
    decreases |items|
  {
    if items == [] then []
    else
      assert forall a :: a in items <==> a == items[0] || a in items[1..];
      (if items[0].status != Synced then [items[0]] else []) + Unsynced(items[1..])
  }

  /** Every action of `items` written in turn; `None` at the first that raises. */
  function WriteAll(w: World, items: seq<SyncAction>, write: (World, SyncAction) -> Option<World>): Option<World>
    decreases |items|
  {
    if items == [] then Some(w)
    else
      match write(w, items[0])
      case None => None
      case Some(w1) => WriteAll(w1, items[1..], write)
  }

  /** Every deletion of `dels` carried out in turn. */
  function RemoveAll(w: World, dels: seq<DeleteAction>, remove: (World, DeleteAction) -> Option<World>): Option<World>
    decreases |dels|
  {
    if dels == [] then Some(w)
    else
      match remove(w, dels[0])
      case None => None
      case Some(w1) => RemoveAll(w1, dels[1..], remove)
  }

  /** With every prompt declined, the items of a plan write its `new`
      entries, in order, and nothing else. */
  lemma {:induction false} ItemsDeclined(w: World, agent: string, items: seq<SyncAction>,
                                         write: (World, SyncAction) -> Option<World>, answers: seq<bool>)
    ensures Declines(answers) ==>
      WorldOf(ApplyItems(w, agent, items, write, false, answers)) == WriteAll(w, NewOnly(items), write)
    decreases |items|
  {
    if items != [] && Declines(answers) {
      var s := ItemStep(w, agent, items[0], write(w, items[0]), false, answers);
      var xs := NewOnly(items);
      assert !Consented(false, answers);
      if items[0].status == New {
        assert xs[0] == items[0] && xs[1..] == NewOnly(items[1..]);
      } else {
        assert xs == NewOnly(items[1..]);
      }
      if s.Some? {
        DeclinesSuffix(s.value.answers, answers);
        ItemsDeclined(s.value.world, agent, items[1..], write, s.value.answers);
      }
    }
  }

  /** Under `--yes`, the items of a plan write every entry that is not
      `synced`, in order. */
  lemma {:induction false} ItemsApproved(w: World, agent: string, items: seq<SyncAction>,
                                         write: (World, SyncAction) -> Option<World>, answers: seq<bool>)
    ensures WorldOf(ApplyItems(w, agent, items, write, true, answers)) == WriteAll(w, Unsynced(items), write)
    decreases |items|
  {
    if items != [] {
      var s := ItemStep(w, agent, items[0], write(w, items[0]), true, answers);
      var xs := Unsynced(items);
      if items[0].status != Synced {
        assert xs[0] == items[0] && xs[1..] == Unsynced(items[1..]);
      } else {
        assert xs == Unsynced(items[1..]);
      }
      if s.Some? {
        ItemsApproved(s.value.world, agent, items[1..], write, s.value.answers);
      }
    }
  }

  /** Under `--yes`, every deletion of a plan is carried out, in order. */
  lemma {:induction false} DeletionsApproved(w: World, agent: string, dels: seq<DeleteAction>,
                                             remove: (World, DeleteAction) -> Option<World>, answers: seq<bool>)
    ensures WorldOf(ApplyDeletions(w, agent, dels, remove, true, answers)) == RemoveAll(w, dels, remove)
    decreases |dels|
  {
    if dels != [] {
      var s := DeleteStep(w, agent, dels[0], remove(w, dels[0]), true, answers);
      assert WorldOf(s) == remove(w, dels[0]);
      if s.Some? {
        var p := s.value;
        DeletionsApproved(p.world, agent, dels[1..], remove, p.answers);
        assert WorldOf(ApplyDeletions(w, agent, dels, remove, true, answers))
            == WorldOf(ApplyDeletions(p.world, agent, dels[1..], remove, true, p.answers));
      }
    }
  }

  /** What one plan does when every prompt is declined: its target
      directory is created and its `new` entries written; nothing is
      overwritten and nothing deleted. */
  function QuietPlan(w: World, p: SyncPlan, write: (World, SyncAction) -> Option<World>, now: int): Option<World> {
    match MakeDirs(w, p.agent.directory, now)
    case None => None
    case Some(w1) => WriteAll(w1, NewOnly(p.items), write)
  }

  /** What one plan does under `--yes`: its target directory is created,
      every entry that is not `synced` written and every deletion carried
      out. */
  function YesPlan(w: World, p: SyncPlan, write: (World, SyncAction) -> Option<World>, now: int): Option<World> {
    match MakeDirs(w, p.agent.directory, now)
    case None => None
    case Some(w1) =>
      match WriteAll(w1, Unsynced(p.items), write)
      case None => None
      case Some(w2) => RemoveAll(w2, p.deletions, Remove)
  }

  lemma PlanDeclined(w: World, p: SyncPlan, write: (World, SyncAction) -> Option<World>, answers: seq<bool>, now: int)
    ensures Declines(answers) ==> WorldOf(PlanStep(w, p, write, false, answers, now)) == QuietPlan(w, p, write, now)
  {
    if Declines(answers) && MakeDirs(w, p.agent.directory, now).Some? {
      var w1 := MakeDirs(w, p.agent.directory, now).value;
      ItemsDeclined(w1, p.agent.name, p.items, write, answers);
      var a := ApplyItems(w1, p.agent.name, p.items, write, false, answers);
      if a.Some? {
        DeclinesSuffix(a.value.answers, answers);
        var b := ApplyDeletions(a.value.world, p.agent.name, p.deletions, Remove, false, a.value.answers);
        assert b.Some? && b.value.world == a.value.world;
        assert PlanStep(w, p, write, false, answers, now) == Some(Progress(b.value.world, a.value.log + b.value.log, b.value.answers));
      } else {
        assert PlanStep(w, p, write, false, answers, now) == None;
      }
    }
  }

  lemma PlanApproved(w: World, p: SyncPlan, write: (World, SyncAction) -> Option<World>, answers: seq<bool>, now: int)
    ensures WorldOf(PlanStep(w, p, write, true, answers, now)) == YesPlan(w, p, write, now)
  {
    if MakeDirs(w, p.agent.directory, now).Some? {
      var w1 := MakeDirs(w, p.agent.directory, now).value;
      ItemsApproved(w1, p.agent.name, p.items, write, answers);
      var a := ApplyItems(w1, p.agent.name, p.items, write, true, answers);
      if a.Some? {
        DeletionsApproved(a.value.world, p.agent.name, p.deletions, Remove, a.value.answers);
      }
    }
  }

  /** Every plan in turn, each as with every prompt declined. */
  function QuietPlans(w: World, plans: seq<SyncPlan>, write: (World, SyncAction) -> Option<World>, now: int): Option<World>
    decreases |plans|
  {
    if plans == [] then Some(w)
    else
      match QuietPlan(w, plans[0], write, now)
      case None => None
      case Some(w1) => QuietPlans(w1, plans[1..], write, now)
  }

  /** Every plan in turn, each as under `--yes`. */
  function YesPlans(w: World, plans: seq<SyncPlan>, write: (World, SyncAction) -> Option<World>, now: int): Option<World>
    decreases |plans|
  {
    if plans == [] then Some(w)
    else
      match YesPlan(w, plans[0], write, now)
      case None => None
      case Some(w1) => YesPlans(w1, plans[1..], write, now)
  }

  /** With every prompt declined, the apply phase creates the target
      directories and writes the `new` entries of every plan, and does
      nothing else. */
  lemma {:induction false} PlansDeclined(w: World, plans: seq<SyncPlan>, write: (World, SyncAction) -> Option<World>,
                                         answers: seq<bool>, now: int)
    ensures Declines(answers) ==> WorldOf(ApplyPlans(w, plans, write, false, answers, now)) == QuietPlans(w, plans, write, now)
    decreases |plans|
  {
    if plans != [] && Declines(answers) {
      PlanDeclined(w, plans[0], write, answers, now);
      var a := PlanStep(w, plans[0], write, false, answers, now);
      if a.Some? {
        DeclinesSuffix(a.value.answers, answers);
        PlansDeclined(a.value.world, plans[1..], write, a.value.answers, now);
      }
    }
  }

  /** Under `--yes`, the apply phase carries out every plan in full. */
  lemma {:induction false} PlansApproved(w: World, plans: seq<SyncPlan>, write: (World, SyncAction) -> Option<World>,
                                         answers: seq<bool>, now: int)
    ensures WorldOf(ApplyPlans(w, plans, write, true, answers, now)) == YesPlans(w, plans, write, now)
    decreases |plans|
  {
    if plans != [] {
      PlanApproved(w, plans[0], write, answers, now);
      var a := PlanStep(w, plans[0], write, true, answers, now);
      if a.Some? {
        PlansApproved(a.value.world, plans[1..], write, a.value.answers, now);
      }
    }
  }

  // ---------------------------------------------------------------------
  // The whole run.

  /** Phase 2 on `w`: the additional sources are listed, then a plan is
      built per target; `None` when either raises. */
  function PlansFor(w: World, dotfiles: Path, agents: seq<Agent>, m: Manifest): (r: Option<seq<SyncPlan>>)
    ensures r.None? <==> (
      || AdditionalSources(w, dotfiles).None?
      || exists i :: 0 <= i < |agents| && BuildSyncPlan(w, dotfiles, agents[i], AdditionalSources(w, dotfiles).value).None?)
    ensures r.Some? ==> AdditionalSources(w, dotfiles).Some? && |r.value| == |agents|
    ensures r.Some? ==> forall i :: 0 <= i < |agents| ==>
      && r.value[i].agent == agents[i]
      && BuildSyncPlan(w, dotfiles, agents[i], AdditionalSources(w, dotfiles).value) == Some(r.value[i].items)
      && r.value[i].deletions == BuildDeletionPlan(w, dotfiles, agents[i], m)
  {
    match AdditionalSources(w, dotfiles)
    case None => None
    case Some(sources) => BuildPlans(w, dotfiles, agents, sources, m)
  }

  /** The apply phase over `plans`, then the manifest rebuilt from the
      dotfiles and saved. */
  function ApplyAndSave(w: World, m: Manifest, dotfiles: Path, plans: seq<SyncPlan>,
                        autoYes: bool, replies: seq<Reply>, now: int): (r: Outcome)
    ensures r.Finished? || r.Crashed?
    ensures r.Finished? ==> Includes(r.manifest, m)
    ensures r.Finished? ==> r.manifest == SaveManifest(Rebuild(m, r.world, dotfiles))
    ensures r.Finished? && autoYes ==> r.replies == replies
    ensures r.Finished? ==> Suffix(r.replies, replies)
    ensures r.Finished? && !autoYes && Declines(Answers(replies)) ==> Unforced(r.log)
    ensures r.Finished? && autoYes ==> NoneDeclined(r.log)
    ensures !autoYes && Declines(Answers(replies)) ==> OutcomeWorld(r) == QuietPlans(w, plans, Writer(now), now)
    ensures autoYes ==> OutcomeWorld(r) == YesPlans(w, plans, Writer(now), now)
  {
    PlansDeclined(w, plans, Writer(now), Answers(replies), now);
    PlansApproved(w, plans, Writer(now), Answers(replies), now);
    match ApplyPlans(w, plans, Writer(now), autoYes, Answers(replies), now)
    case None => Crashed
    case Some(p) =>
      var rebuilt := Rebuild(m, p.world, dotfiles);
      IncludesTransitive(SaveManifest(rebuilt), rebuilt, m);
      var rest := replies[|replies| - |p.answers|..];
      Finished(p.world, SaveManifest(rebuilt), p.log, rest)
  }

  /** Phases 2 and 3 of `sync_mode`, from the world and manifest phase 1
      left. When nothing needs doing, nothing is written or asked and the
      manifest is saved as it stands; otherwise the apply phase runs and
      the manifest is rebuilt from the dotfiles. */
  function PlanAndApply(w: World, m: Manifest, dotfiles: Path, agents: seq<Agent>,
                        autoYes: bool, replies: seq<Reply>, now: int): (r: Outcome)
    ensures r != BaseFileMissing
    ensures PlansFor(w, dotfiles, agents, m).None? ==> r == Crashed
    ensures PlansFor(w, dotfiles, agents, m).Some? && !HasChanges(PlansFor(w, dotfiles, agents, m).value)
      ==> r == Finished(w, SaveManifest(m), [], replies)
    ensures PlansFor(w, dotfiles, agents, m).Some? && HasChanges(PlansFor(w, dotfiles, agents, m).value)
      && !autoYes && Declines(Answers(replies))
      ==> OutcomeWorld(r) == QuietPlans(w, PlansFor(w, dotfiles, agents, m).value, Writer(now), now)
    ensures PlansFor(w, dotfiles, agents, m).Some? && HasChanges(PlansFor(w, dotfiles, agents, m).value) && autoYes
      ==> OutcomeWorld(r) == YesPlans(w, PlansFor(w, dotfiles, agents, m).value, Writer(now), now)
    ensures r.Finished? ==> Includes(r.manifest, m)
    ensures r.Finished? && autoYes ==> r.replies == replies
    ensures r.Finished? ==> Suffix(r.replies, replies)
    ensures r.Finished? && !autoYes && Declines(Answers(replies)) ==> Unforced(r.log)
    ensures r.Finished? && autoYes ==> NoneDeclined(r.log)
  {
    match PlansFor(w, dotfiles, agents, m)
    case None => Crashed
    case Some(plans) =>
      if !HasChanges(plans) then Finished(w, SaveManifest(m), [], replies)
      else ApplyAndSave(w, m, dotfiles, plans, autoYes, replies, now)
  }

  /** `sync_mode(dotfiles, auto_yes)` on the world `w`, with the stored
      manifest `stored` (if any) and the operator's replies. */
  function SyncRun(w: World, stored: Option<Manifest>, dotfiles: Path, agents: seq<Agent>,
                   autoYes: bool, replies: seq<Reply>, now: int): (r: Outcome)
    ensures r == BaseFileMissing <==> !Exists(w, dotfiles + [BaseFile])
    ensures r.Finished? ==> Includes(r.manifest, LoadManifest(w, dotfiles, stored))
    ensures r.Finished? && autoYes ==> r.replies == replies
    ensures r.Finished? ==> Suffix(r.replies, replies)
    ensures r.Finished? && !autoYes && Declines(Answers(replies)) ==> Unforced(r.log)
    ensures r.Finished? && autoYes ==> NoneDeclined(r.log)
  {
    if !Exists(w, dotfiles + [BaseFile]) then BaseFileMissing
    else
      var m := LoadManifest(w, dotfiles, stored);
      match ImportPhase(w, dotfiles, agents, m, now)
      case None => Crashed
      case Some((w1, m1)) =>
        var r := PlanAndApply(w1, m1, dotfiles, agents, autoYes, replies, now);
        if r.Finished? then IncludesTransitive(r.manifest, m1, m); r
        else r
  }

  /** A run in which every prompt is declined: phase 1 imports without
      asking; then the targets get their directories and `new` entries
      and nothing else: no `changed` entry is overwritten and nothing is
      deleted. */
  lemma DeclinedRun(w: World, stored: Option<Manifest>, dotfiles: Path, agents: seq<Agent>,
                    replies: seq<Reply>, now: int, w1: World, m1: Manifest)
    requires Exists(w, dotfiles + [BaseFile])
    requires ImportPhase(w, dotfiles, agents, LoadManifest(w, dotfiles, stored), now) == Some((w1, m1))
    requires PlansFor(w1, dotfiles, agents, m1).Some?
    requires Declines(Answers(replies))
    ensures OutcomeWorld(SyncRun(w, stored, dotfiles, agents, false, replies, now))
      == if HasChanges(PlansFor(w1, dotfiles, agents, m1).value)
         then QuietPlans(w1, PlansFor(w1, dotfiles, agents, m1).value, Writer(now), now)
         else Some(w1)
  {
    var r := PlanAndApply(w1, m1, dotfiles, agents, false, replies, now);
    assert SyncRun(w, stored, dotfiles, agents, false, replies, now) == r;
  }

  /** The manifest never forgets: a name recorded before a finished run is
      still recorded after it, so in any later state where the dotfiles
      lack it and the target still has it, the next import classes it
      `deleted` and never imports it. */
  lemma DeletedStaysDeleted(w: World, stored: Option<Manifest>, dotfiles: Path, agents: seq<Agent>,
                            autoYes: bool, replies: seq<Reply>, now: int,
                            later: World, agent: Agent, cat: string, name: string)
    requires SyncRun(w, stored, dotfiles, agents, autoYes, replies, now).Finished?
    requires name in Lookup(LoadManifest(w, dotfiles, stored), cat)
    requires Considered(later, agent, cat, name) && name !in Visible(later, dotfiles + [cat])
    ensures var saved := SyncRun(w, stored, dotfiles, agents, autoYes, replies, now).manifest;
      && ClassifyChild(later, dotfiles, agent, LoadManifest(later, dotfiles, Some(saved)), cat, name).Some?
      && ClassifyChild(later, dotfiles, agent, LoadManifest(later, dotfiles, Some(saved)), cat, name).value.status == Deleted
  {
    var saved := SyncRun(w, stored, dotfiles, agents, autoYes, replies, now).manifest;
    var m := LoadManifest(w, dotfiles, stored);
    assert cat in m.items && name in m.items[cat];
    assert name in Lookup(saved, cat);
    DeletedNeverImported(later, dotfiles, agent, saved, cat, name);
  }

  /** What `preview_mode` reports. */
  datatype PreviewOutcome =
    | PreviewBaseFileMissing
    | PreviewCrashed
    | Report(hasImports: bool, hasChanges: bool)

  /** `preview_mode(dotfiles)`: the same plans as the run, on the world as
      it is (nothing is imported, so the manifest is the loaded one). */
  function Preview(w: World, stored: Option<Manifest>, dotfiles: Path, agents: seq<Agent>): (r: PreviewOutcome)
    ensures r == PreviewBaseFileMissing <==> !Exists(w, dotfiles + [BaseFile])
    ensures Exists(w, dotfiles + [BaseFile]) ==> var m := LoadManifest(w, dotfiles, stored);
      r == PreviewCrashed <==>
        || (exists i :: 0 <= i < |agents| && ImportFails(w, dotfiles, agents[i], m))
        || PlansFor(w, dotfiles, agents, m).None?
    ensures r.Report? ==> var m := LoadManifest(w, dotfiles, stored);
      && (r.hasImports <==> exists i :: 0 <= i < |agents| && ImportPending(w, dotfiles, agents[i], m))
      && PlansFor(w, dotfiles, agents, m).Some?
      && r.hasChanges == HasChanges(PlansFor(w, dotfiles, agents, m).value)
  {
    if !Exists(w, dotfiles + [BaseFile]) then PreviewBaseFileMissing
    else
      var m := LoadManifest(w, dotfiles, stored);
      match PreviewImports(w, dotfiles, agents, m)
      case None => PreviewCrashed
      case Some(imports) =>
        match PlansFor(w, dotfiles, agents, m)
        case None => PreviewCrashed
        case Some(plans) => Report(imports, HasChanges(plans))
  }

  /** When the preview reports everything in sync, the run writes nothing,
      asks nothing, and only saves the loaded manifest back. */
  lemma InSyncRunIsQuiet(w: World, stored: Option<Manifest>, dotfiles: Path, agents: seq<Agent>,
                         autoYes: bool, replies: seq<Reply>, now: int)
    requires Preview(w, stored, dotfiles, agents) == Report(false, false)
    ensures SyncRun(w, stored, dotfiles, agents, autoYes, replies, now)
      == Finished(w, SaveManifest(LoadManifest(w, dotfiles, stored)), [], replies)
  {
    var m := LoadManifest(w, dotfiles, stored);
    QuietImportPhase(w, dotfiles, agents, m, now);
  }
}
