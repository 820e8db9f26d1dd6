/** The repository as a protocol: unfinished backups, forget/unforget and a prune that may be
    interleaved at every point where the program does one file-system operation.

    A snapshot is two files, an index and a manifest; both live under `snapshots/`, and Forget moves
    first the manifest and then the index to `snapshots/.trash/`, as Unforget moves them back. Whoever
    does that may stop for good between the two. An index is represented by the set of hashes its file
    entries name. */
module Protocol {
  import opened Wrappers

  /** Snapshot ids start with the time of the run, so comparing ids compares times. */
  type Id = nat
  type Hash = nat

  datatype SnapshotState = Complete | Partial

  datatype Manifest = Manifest(instance: string, state: SnapshotState)

  /** One of the two directories that hold snapshot files. */
  datatype Directory = Directory(manifests: map<Id, Manifest>, indexes: map<Id, set<Hash>>)

  /** A backup that has not published its manifest. `copyable` is what the parent index lets it record
      without reading; `staged` says that the index file is already in place. */
  datatype Backup = Backup(instance: string, copyable: set<Hash>, recorded: set<Hash>, staged: bool)

  /** How far a prune has got. */
  datatype Prune =
    | Idle
    | Begun(emptyTrash: bool, emptied: bool)
    | LiveListed(emptyTrash: bool, todo: set<Id>)
    | Marking(todoLive: set<Id>, todoTrash: set<Id>, referenced: set<Hash>)
    | Deleting(doomed: set<Hash>)

  /** `objects` maps a stored object to its modification time. */
  datatype Repo = Repo(objects: map<Hash, int>, live: Directory, trash: Directory,
                       backups: map<Id, Backup>, used: set<Id>, prune: Prune)

  const EMPTY_DIRECTORY := Directory(map[], map[])
  const EMPTY_REPO := Repo(map[], EMPTY_DIRECTORY, EMPTY_DIRECTORY, map[], {}, Idle)

  datatype Step =
    | BeginBackup(id: Id, instance: string, parent: Option<Id>)
    | StoreObject(id: Id, hash: Hash, now: int)
    | CopyFromParent(id: Id, hash: Hash)
    | RenameIndex(id: Id)
    | RenameManifest(id: Id, state: SnapshotState)
    | FailCommit(id: Id)
    | CrashBackup(id: Id)
    | ForgetManifest(id: Id)
    | ForgetIndex(id: Id)
    | UnforgetManifest(id: Id)
    | UnforgetIndex(id: Id)
    | BeginPrune(emptyTrash: bool)
    | EmptyTrash
    | ListLive
    | ListTrash
    | MarkLive(id: Id)
    | MarkTrash(id: Id)
    | Sweep(cutoff: int)
    | DeleteObject(hash: Hash)
    | EndPrune

  // ---------------------------------------------------------------- steps

  /** The newest complete snapshot of an instance, or none. */
  ghost predicate IsLatestFor(live: Directory, instance: string, parent: Option<Id>) {
    match parent
    case None =>
      forall id :: id in live.manifests ==> live.manifests[id] != Manifest(instance, Complete)
    case Some(p) =>
      && p in live.manifests && live.manifests[p] == Manifest(instance, Complete)
      && forall id :: id in live.manifests && live.manifests[id] == Manifest(instance, Complete) ==> id <= p
  }

  /** When the program can take a step. `BeginBackup` needs the shared lock `repo.write`, which nobody
      takes exclusively; `BeginPrune` needs the exclusive lock `repo.gc`, which only a prune takes. Reading
      a missing index is an error that ends the operation, so such a step is not enabled. */
  ghost predicate Enabled(s: Repo, step: Step) {
    match step
    case BeginBackup(id, instance, parent) =>
      && id !in s.backups && id !in s.live.manifests
      && IsLatestFor(s.live, instance, parent) && (parent.Some? ==> parent.value in s.live.indexes)
    case StoreObject(id, _, _) => id in s.backups && !s.backups[id].staged
    case CopyFromParent(id, h) => id in s.backups && !s.backups[id].staged && h in s.backups[id].copyable
    case RenameIndex(id) => id in s.backups && !s.backups[id].staged
    case RenameManifest(id, _) => id in s.backups && s.backups[id].staged
    case FailCommit(id) => id in s.backups && s.backups[id].staged
    case CrashBackup(id) => id in s.backups
    case ForgetManifest(id) => id in s.live.manifests
    case ForgetIndex(id) => id in s.live.indexes
    case UnforgetManifest(id) => id in s.trash.manifests
    case UnforgetIndex(id) => id in s.trash.indexes
    case BeginPrune(_) => s.prune.Idle?
    case EmptyTrash => s.prune.Begun? && s.prune.emptyTrash
    case ListLive => s.prune.Begun? && s.prune.emptied == s.prune.emptyTrash
    case ListTrash => s.prune.LiveListed?
    case MarkLive(id) => s.prune.Marking? && id in s.prune.todoLive && id in s.live.indexes
    case MarkTrash(id) => s.prune.Marking? && id in s.prune.todoTrash && id in s.trash.indexes
    case Sweep(_) => s.prune.Marking? && s.prune.todoLive == {} && s.prune.todoTrash == {}
    case DeleteObject(h) => s.prune.Deleting? && h in s.prune.doomed
    case EndPrune => !s.prune.Idle?
  }

  ghost function Apply(s: Repo, step: Step): (s': Repo)
    requires Enabled(s, step)
  {
    match step
    case BeginBackup(id, instance, parent) =>
      var copyable := if parent.Some? then s.live.indexes[parent.value] else {};
      s.(backups := s.backups[id := Backup(instance, copyable, {}, false)], used := s.used + {id})
    case StoreObject(id, h, now) =>
      // An object that is already there is not touched, not even its modification time.
      s.(objects := if h in s.objects then s.objects else s.objects[h := now],
         backups := s.backups[id := s.backups[id].(recorded := s.backups[id].recorded + {h})])
    case CopyFromParent(id, h) =>
      s.(backups := s.backups[id := s.backups[id].(recorded := s.backups[id].recorded + {h})])
    case RenameIndex(id) =>
      s.(live := s.live.(indexes := s.live.indexes[id := s.backups[id].recorded]),
         backups := s.backups[id := s.backups[id].(staged := true)])
    case RenameManifest(id, state) =>
      s.(live := s.live.(manifests := s.live.manifests[id := Manifest(s.backups[id].instance, state)]),
         backups := s.backups - {id})
    case FailCommit(id) =>
      s.(live := s.live.(indexes := s.live.indexes - {id}), backups := s.backups - {id})
    case CrashBackup(id) => s.(backups := s.backups - {id})
    case ForgetManifest(id) =>
      s.(trash := s.trash.(manifests := s.trash.manifests[id := s.live.manifests[id]]),
         live := s.live.(manifests := s.live.manifests - {id}))
    case ForgetIndex(id) =>
      s.(trash := s.trash.(indexes := s.trash.indexes[id := s.live.indexes[id]]),
         live := s.live.(indexes := s.live.indexes - {id}))
    case UnforgetManifest(id) =>
      s.(live := s.live.(manifests := s.live.manifests[id := s.trash.manifests[id]]),
         trash := s.trash.(manifests := s.trash.manifests - {id}))
    case UnforgetIndex(id) =>
      s.(live := s.live.(indexes := s.live.indexes[id := s.trash.indexes[id]]),
         trash := s.trash.(indexes := s.trash.indexes - {id}))
    case BeginPrune(emptyTrash) => s.(prune := Begun(emptyTrash, false))
    case EmptyTrash => s.(trash := EMPTY_DIRECTORY, prune := s.prune.(emptied := true))
    case ListLive => s.(prune := LiveListed(s.prune.emptyTrash, s.live.manifests.Keys))
    case ListTrash =>
      s.(prune := Marking(s.prune.todo, if s.prune.emptyTrash then {} else s.trash.indexes.Keys, {}))
    case MarkLive(id) =>
      s.(prune := s.prune.(todoLive := s.prune.todoLive - {id},
                           referenced := s.prune.referenced + s.live.indexes[id]))
    case MarkTrash(id) =>
      s.(prune := s.prune.(todoTrash := s.prune.todoTrash - {id},
                           referenced := s.prune.referenced + s.trash.indexes[id]))
    case Sweep(cutoff) =>
      s.(prune := Deleting(set h | h in s.objects && h !in s.prune.referenced && s.objects[h] <= cutoff))
    case DeleteObject(h) =>
      s.(objects := s.objects - {h}, prune := Deleting(s.prune.doomed - {h}))
    case EndPrune => s.(prune := Idle)
  }

  /** A finite run: states[i+1] comes from states[i] by steps[i]. */
  ghost predicate IsRun(states: seq<Repo>, steps: seq<Step>) {
    && |states| == |steps| + 1
    && states[0] == EMPTY_REPO
    && forall i | 0 <= i < |steps| :: Enabled(states[i], steps[i]) && states[i + 1] == Apply(states[i], steps[i])
  }

  // ----------------------------------------------------------- hypotheses

  predicate IsPruneStep(step: Step) {
    || step.EmptyTrash? || step.ListLive? || step.ListTrash? || step.MarkLive? || step.MarkTrash?
    || step.Sweep? || step.DeleteObject? || step.EndPrune?
  }

  /** Where a prune stands, as far as it matters to a forget or an unforget that comes in between. */
  datatype Phase = BeforeEmptying | Emptied | BetweenLists | MarkingRoots | DeletingObjects

  function PhaseOf(prune: Prune): Phase
    requires !prune.Idle?
  {
    match prune
    case Begun(_, emptied) => if emptied then Emptied else BeforeEmptying
    case LiveListed(_, _) => BetweenLists
    case Marking(_, _, _) => MarkingRoots
    case Deleting(_) => DeletingObjects
  }

  predicate IsForgetStep(step: Step) {
    step.ForgetManifest? || step.ForgetIndex?
  }

  predicate IsUnforgetStep(step: Step) {
    step.UnforgetManifest? || step.UnforgetIndex?
  }

  /** The manifest has been moved to the trash, the index has not. */
  predicate HalfForgotten(s: Repo, id: Id) {
    id in s.trash.manifests && id in s.live.indexes
  }

  /** The manifest has been moved back, the index has not. */
  predicate HalfTakenBack(s: Repo, id: Id) {
    id in s.live.manifests && id in s.trash.indexes
  }

  /** When a prune lists the trash, no snapshot is half-forgotten that it has not listed as a live one. */
  ghost predicate NoneOverlooked(s: Repo, step: Step) {
    step.ListTrash? && s.prune.LiveListed? ==> forall id :: HalfForgotten(s, id) ==> id in s.prune.todo
  }

  /** When a prune empties the trash, no snapshot is half taken back. */
  ghost predicate NoneTorn(s: Repo, step: Step) {
    step.EmptyTrash? ==> forall id :: !HalfTakenBack(s, id)
  }

  /** What the single job slot gives for backups and what callers must give for forget and unforget: a prune starts
      only when no backup is unfinished, and until it has ended no backup starts, nothing is forgotten after the trash
      has been emptied and before the live snapshots are listed, nothing is taken back between the two lists, and
      neither the emptying nor the list of the trash meets a snapshot halfway. */
  ghost predicate KeptApart(s: Repo, step: Step) {
    if s.prune.Idle? then step.BeginPrune? ==> s.backups == map[]
    else
      || (IsPruneStep(step) && NoneOverlooked(s, step) && NoneTorn(s, step))
      || (IsForgetStep(step) && PhaseOf(s.prune) != Emptied)
      || (IsUnforgetStep(step) && PhaseOf(s.prune) != BetweenLists)
  }

  /** A snapshot id (second of the start plus a random suffix) is used once, and nobody forgets a
      snapshot whose backup is still running. */
  predicate IdsUsedOnce(s: Repo, step: Step) {
    && (step.BeginBackup? ==> step.id !in s.used)
    && (IsForgetStep(step) ==> step.id !in s.backups)
  }

  ghost predicate AllKeptApart(states: seq<Repo>, steps: seq<Step>)
    requires |states| == |steps| + 1
  {
    forall i | 0 <= i < |steps| :: KeptApart(states[i], steps[i])
  }

  predicate AllIdsUsedOnce(states: seq<Repo>, steps: seq<Step>)
    requires |states| == |steps| + 1
  {
    forall i | 0 <= i < |steps| :: IdsUsedOnce(states[i], steps[i])
  }

  // ------------------------------------------------------------- promises

  /** A snapshot that can be restored, now or after Unforget. */
  predicate Recoverable(s: Repo, id: Id) {
    id in s.live.manifests || id in s.trash.manifests
  }

  /** The hashes an index names, wherever it is. */
  function Contents(s: Repo, id: Id): set<Hash> {
    if id in s.live.indexes then s.live.indexes[id] else if id in s.trash.indexes then s.trash.indexes[id] else {}
  }

  /** The snapshot has its index, and everything the index names is stored. */
  predicate Stored(s: Repo, id: Id) {
    (id in s.live.indexes || id in s.trash.indexes) && Contents(s, id) <= s.objects.Keys
  }

  ghost predicate SnapshotsIntact(s: Repo) {
    forall id | Recoverable(s, id) :: Stored(s, id)
  }

  ghost predicate BackupsIntact(s: Repo) {
    forall id | id in s.backups :: s.backups[id].recorded + s.backups[id].copyable <= s.objects.Keys
  }

  /** The property the program's randomised test samples, for every kind of reference there is. */
  ghost predicate Intact(s: Repo) {
    SnapshotsIntact(s) && BackupsIntact(s)
  }

  ghost predicate FilesInOnePlace(s: Repo) {
    && s.live.indexes.Keys !! s.trash.indexes.Keys && s.live.manifests.Keys !! s.trash.manifests.Keys
    && s.live.indexes.Keys + s.trash.indexes.Keys + s.backups.Keys <= s.used
    && s.backups.Keys !! s.live.manifests.Keys + s.trash.manifests.Keys + s.trash.indexes.Keys
    && forall id | id in s.backups ::
         && (id in s.live.indexes <==> s.backups[id].staged)
         && (s.backups[id].staged ==> s.live.indexes[id] == s.backups[id].recorded)
  }

  ghost predicate PruneOnTrack(s: Repo) {
    && (!s.prune.Idle? ==> s.backups == map[])
    && match s.prune
       case Idle => true
       case Begun(emptyTrash, emptied) => emptied ==> emptyTrash && s.trash == EMPTY_DIRECTORY
       case LiveListed(emptyTrash, todo) =>
         forall id | Recoverable(s, id) :: id in todo || (!emptyTrash && id in s.trash.manifests)
       case Marking(todoLive, todoTrash, referenced) =>
         forall id | Recoverable(s, id) :: id in todoLive || id in todoTrash || Contents(s, id) <= referenced
       case Deleting(doomed) => forall id | Recoverable(s, id) :: Contents(s, id) !! doomed
  }

  ghost predicate Inv(s: Repo) {
    Intact(s) && FilesInOnePlace(s) && PruneOnTrack(s)
  }

  // --------------------------------------------------------------- proofs

  lemma SameSnapshots(s: Repo, t: Repo)
    requires t.live == s.live && t.trash == s.trash && s.objects.Keys <= t.objects.Keys
    ensures forall id :: Recoverable(t, id) == Recoverable(s, id)
    ensures forall id :: Contents(t, id) == Contents(s, id) && (Stored(s, id) ==> Stored(t, id))
  {
  }

  lemma BackupReadsKeepInv(s: Repo, step: Step)
    requires Inv(s) && Enabled(s, step) && KeptApart(s, step) && IdsUsedOnce(s, step)
    requires step.BeginBackup? || step.CopyFromParent? || step.CrashBackup?
    ensures Inv(Apply(s, step))
  {
    SameSnapshots(s, Apply(s, step));
    if step.BeginBackup? {
      NewIdIsUnused(s, step.id);
      if step.parent.Some? {
        assert Recoverable(s, step.parent.value) && Stored(s, step.parent.value);
      }
    }
  }

  lemma NewIdIsUnused(s: Repo, id: Id)
    requires SnapshotsIntact(s) && FilesInOnePlace(s) && id !in s.used
    ensures !Recoverable(s, id) && id !in s.live.indexes && id !in s.trash.indexes
  {
    assert Recoverable(s, id) ==> Stored(s, id);
  }

  lemma StoreObjectKeepsInv(s: Repo, step: Step)
    requires Inv(s) && Enabled(s, step) && KeptApart(s, step) && IdsUsedOnce(s, step)
    requires step.StoreObject?
    ensures Inv(Apply(s, step))
  {
    SameSnapshots(s, Apply(s, step));
  }

  /** An index that is put in place or taken away belongs to no snapshot yet. */
  lemma PublishLeavesOthers(s: Repo, step: Step)
    requires Enabled(s, step) && (step.RenameIndex? || step.RenameManifest? || step.FailCommit?)
    ensures var t := Apply(s, step);
            forall id | id != step.id :: Recoverable(t, id) == Recoverable(s, id) && Contents(t, id) == Contents(s, id) &&
                                         (Stored(s, id) ==> Stored(t, id))
  {
  }

  lemma RenameIndexKeepsInv(s: Repo, step: Step)
    requires Inv(s) && Enabled(s, step) && KeptApart(s, step) && IdsUsedOnce(s, step)
    requires step.RenameIndex?
    ensures Inv(Apply(s, step))
  {
    PublishLeavesOthers(s, step);
  }

  lemma RenameManifestKeepsInv(s: Repo, step: Step)
    requires Inv(s) && Enabled(s, step) && KeptApart(s, step) && IdsUsedOnce(s, step)
    requires step.RenameManifest?
    ensures Inv(Apply(s, step))
  {
    PublishLeavesOthers(s, step);
  }

  lemma FailCommitKeepsInv(s: Repo, step: Step)
    requires Inv(s) && Enabled(s, step) && KeptApart(s, step) && IdsUsedOnce(s, step)
    requires step.FailCommit?
    ensures Inv(Apply(s, step))
  {
    PublishLeavesOthers(s, step);
  }

  /** Moving a file changes neither which snapshots there are nor what they name. */
  lemma MoveChangesPlaces(s: Repo, step: Step)
    requires FilesInOnePlace(s) && Enabled(s, step) && (IsForgetStep(step) || IsUnforgetStep(step))
    ensures forall id :: Recoverable(Apply(s, step), id) == Recoverable(s, id)
    ensures forall id :: Contents(Apply(s, step), id) == Contents(s, id) && (Stored(s, id) ==> Stored(Apply(s, step), id))
  {
  }

  lemma MoveKeepsFiles(s: Repo, step: Step)
    requires FilesInOnePlace(s) && Enabled(s, step) && IdsUsedOnce(s, step)
    requires IsForgetStep(step) || IsUnforgetStep(step)
    ensures FilesInOnePlace(Apply(s, step))
  {
  }

  lemma MoveKeepsInv(s: Repo, step: Step)
    requires Inv(s) && Enabled(s, step) && KeptApart(s, step) && IdsUsedOnce(s, step)
    requires IsForgetStep(step) || IsUnforgetStep(step)
    ensures Inv(Apply(s, step))
  {
    MoveKeepsFiles(s, step);
    MoveChangesPlaces(s, step);
  }

  lemma EmptyTrashKeepsInv(s: Repo, step: Step)
    requires Inv(s) && Enabled(s, step) && KeptApart(s, step)
    requires step.EmptyTrash?
    ensures Inv(Apply(s, step))
  {
    var t := Apply(s, step);
    forall id | Recoverable(t, id) ensures Stored(t, id) {
      assert Recoverable(s, id) && Stored(s, id) && !HalfTakenBack(s, id);
    }
  }

  lemma ListTrashKeepsInv(s: Repo, step: Step)
    requires Inv(s) && Enabled(s, step) && KeptApart(s, step)
    requires step.ListTrash?
    ensures Inv(Apply(s, step))
  {
    var t := Apply(s, step);
    SameSnapshots(s, t);
    forall id | Recoverable(t, id) ensures id in t.prune.todoLive || id in t.prune.todoTrash {
      assert Recoverable(s, id) && Stored(s, id);
      assert HalfForgotten(s, id) ==> id in s.prune.todo;
    }
  }

  lemma PruneStartKeepsInv(s: Repo, step: Step)
    requires Inv(s) && Enabled(s, step) && KeptApart(s, step)
    requires step.BeginPrune? || step.ListLive? || step.EndPrune?
    ensures Inv(Apply(s, step))
  {
    SameSnapshots(s, Apply(s, step));
  }

  lemma MarkKeepsInv(s: Repo, step: Step)
    requires Inv(s) && Enabled(s, step) && KeptApart(s, step)
    requires step.MarkLive? || step.MarkTrash?
    ensures Inv(Apply(s, step))
  {
    var t := Apply(s, step);
    SameSnapshots(s, t);
    assert Contents(s, step.id) <= t.prune.referenced;
  }

  lemma SweepKeepsInv(s: Repo, step: Step)
    requires Inv(s) && Enabled(s, step) && KeptApart(s, step)
    requires step.Sweep?
    ensures Inv(Apply(s, step))
  {
    SameSnapshots(s, Apply(s, step));
  }

  lemma DeleteKeepsInv(s: Repo, step: Step)
    requires Inv(s) && Enabled(s, step) && KeptApart(s, step)
    requires step.DeleteObject?
    ensures Inv(Apply(s, step))
  {
    var t := Apply(s, step);
    forall id | Recoverable(t, id) ensures Stored(t, id) && Contents(t, id) !! t.prune.doomed {
      assert Recoverable(s, id) && Stored(s, id) && Contents(t, id) == Contents(s, id);
    }
  }

  lemma StepKeepsInv(s: Repo, step: Step)
    requires Inv(s) && Enabled(s, step) && KeptApart(s, step) && IdsUsedOnce(s, step)
    ensures Inv(Apply(s, step))
  {
    match step
    case BeginBackup(_, _, _) | CopyFromParent(_, _) | CrashBackup(_) => BackupReadsKeepInv(s, step);
    case StoreObject(_, _, _) => StoreObjectKeepsInv(s, step);
    case RenameIndex(_) => RenameIndexKeepsInv(s, step);
    case RenameManifest(_, _) => RenameManifestKeepsInv(s, step);
    case FailCommit(_) => FailCommitKeepsInv(s, step);
    case ForgetManifest(_) | ForgetIndex(_) | UnforgetManifest(_) | UnforgetIndex(_) => MoveKeepsInv(s, step);
    case MarkLive(_) | MarkTrash(_) => MarkKeepsInv(s, step);
    case Sweep(_) => SweepKeepsInv(s, step);
    case DeleteObject(_) => DeleteKeepsInv(s, step);
    case EmptyTrash => EmptyTrashKeepsInv(s, step);
    case ListTrash => ListTrashKeepsInv(s, step);
    case _ => PruneStartKeepsInv(s, step);
  }

  lemma {:induction false} RunKeepsInv(states: seq<Repo>, steps: seq<Step>, i: nat)
    requires IsRun(states, steps) && AllKeptApart(states, steps) && AllIdsUsedOnce(states, steps)
    requires i <= |steps|
    ensures Inv(states[i])
  {
    if i > 0 {
      RunKeepsInv(states, steps, i - 1);
      StepKeepsInv(states[i - 1], steps[i - 1]);
    }
  }

  /** Over every interleaving in which backups keep away from a prune and forgets and unforgets keep away from the
      moments that are dangerous to them, no reachable state has lost an object: not one that a live or trashed
      snapshot names, nor one that an unfinished backup has recorded or may still take over from its parent. */
  lemma NothingReferencedIsEverLost(states: seq<Repo>, steps: seq<Step>)
    requires IsRun(states, steps) && AllKeptApart(states, steps) && AllIdsUsedOnce(states, steps)
    ensures forall i | 0 <= i < |states| :: Intact(states[i])
  {
    forall i | 0 <= i < |states| ensures Intact(states[i]) {
      RunKeepsInv(states, steps, i);
    }
  }

  lemma PublishKeepsSnapshots(s: Repo, step: Step, id: Id)
    requires FilesInOnePlace(s) && Recoverable(s, id) && Enabled(s, step)
    requires step.RenameIndex? || step.RenameManifest? || step.FailCommit?
    ensures Recoverable(Apply(s, step), id) && Contents(Apply(s, step), id) == Contents(s, id)
  {
    PublishLeavesOthers(s, step);
  }

  /** Except for emptying the trash, no step makes a recoverable snapshot unrecoverable; and no step changes
      what a recoverable snapshot contains. */
  lemma StepKeepsSnapshots(s: Repo, step: Step, id: Id)
    requires Inv(s) && Enabled(s, step)
    requires Recoverable(s, id) && (step.EmptyTrash? ==> id in s.live.manifests && id in s.live.indexes)
    ensures Recoverable(Apply(s, step), id)
    ensures Contents(Apply(s, step), id) == Contents(s, id)
  {
    if IsForgetStep(step) || IsUnforgetStep(step) {
      MoveChangesPlaces(s, step);
    } else if step.RenameIndex? || step.RenameManifest? || step.FailCommit? {
      PublishKeepsSnapshots(s, step, id);
    } else if !step.EmptyTrash? {
      OthersLeaveSnapshots(s, step);
    }
  }

  lemma OthersLeaveSnapshots(s: Repo, step: Step)
    requires Enabled(s, step) && !IsForgetStep(step) && !IsUnforgetStep(step) && !step.EmptyTrash?
    requires !step.RenameIndex? && !step.RenameManifest? && !step.FailCommit?
    ensures Apply(s, step).live == s.live && Apply(s, step).trash == s.trash
  {
  }

  /** If the snapshot can be recovered before, it can be after, with the same contents. */
  ghost predicate StillThere(before: Repo, after: Repo, id: Id) {
    Recoverable(before, id) ==> Recoverable(after, id) && Contents(after, id) == Contents(before, id)
  }

  lemma NextKeepsContents(states: seq<Repo>, steps: seq<Step>, k: nat, id: Id)
    requires IsRun(states, steps) && k < |steps| && Inv(states[k]) && !steps[k].EmptyTrash?
    ensures StillThere(states[k], states[k + 1], id)
  {
    if Recoverable(states[k], id) {
      StepKeepsSnapshots(states[k], steps[k], id);
    }
  }

  lemma StillThereLater(a: Repo, b: Repo, c: Repo, id: Id)
    requires StillThere(a, b, id) && StillThere(b, c, id)
    ensures StillThere(a, c, id)
  {
  }

  lemma {:induction false} ContentsNeverChange(states: seq<Repo>, i: nat, j: nat, id: Id)
    requires i <= j < |states| && forall k | i <= k < j :: StillThere(states[k], states[k + 1], id)
    ensures StillThere(states[i], states[j], id)
  {
    if i < j {
      ContentsNeverChange(states, i, j - 1, id);
      StillThereLater(states[i], states[j - 1], states[j - 1 + 1], id);
    }
  }

  /** Between two moments of a run, as long as the trash is not emptied, a snapshot that can be restored or
      taken back stays so, names the same objects throughout, and all of them are stored. */
  lemma SnapshotsNeverChange(states: seq<Repo>, steps: seq<Step>, i: nat, j: nat, id: Id)
    requires IsRun(states, steps) && AllKeptApart(states, steps) && AllIdsUsedOnce(states, steps)
    requires i <= j < |states| && Recoverable(states[i], id)
    requires forall k | i <= k < j :: !steps[k].EmptyTrash?
    ensures Recoverable(states[j], id)
    ensures Contents(states[j], id) == Contents(states[i], id) <= states[j].objects.Keys
  {
    forall k | i <= k < j ensures StillThere(states[k], states[k + 1], id) {
      RunKeepsInv(states, steps, k);
      NextKeepsContents(states, steps, k, id);
    }
    ContentsNeverChange(states, i, j, id);
    RunKeepsInv(states, steps, j);
    assert Stored(states[j], id);
  }

  /** The whole of Unforget: whichever of the two files is in the trash. */
  ghost function TakeBack(s: Repo, id: Id): Repo {
    var t := if id in s.trash.manifests then Apply(s, UnforgetManifest(id)) else s;
    if id in t.trash.indexes then Apply(t, UnforgetIndex(id)) else t
  }

  /** Wherever a forget or an unforget has stopped, Unforget makes the snapshot whole again, as it was. */
  lemma UnforgetMends(s: Repo, id: Id)
    requires Intact(s) && FilesInOnePlace(s) && Recoverable(s, id)
    ensures var back := TakeBack(s, id);
            && id in back.live.manifests && id in back.live.indexes && back.live.indexes[id] == Contents(s, id)
            && id !in back.trash.manifests && id !in back.trash.indexes
  {
  }

  lemma MovedBack<V>(home: map<Id, V>, away: map<Id, V>, id: Id)
    requires id in home && id !in away
    ensures away[id := home[id]] - {id} == away && (home - {id})[id := home[id]] == home
  {
  }

  /** Forgetting a snapshot keeps it recoverable, and taking it back gives exactly the state before. */
  lemma UnforgetUndoesForget(s: Repo, id: Id)
    requires Intact(s) && FilesInOnePlace(s) && id in s.live.manifests && id in s.live.indexes
    ensures var half := Apply(s, ForgetManifest(id));
            Enabled(half, ForgetIndex(id)) &&
            var forgotten := Apply(half, ForgetIndex(id));
            id !in forgotten.live.manifests && Recoverable(forgotten, id) && TakeBack(forgotten, id) == s
  {
    MovedBack(s.live.manifests, s.trash.manifests, id);
    MovedBack(s.live.indexes, s.trash.indexes, id);
  }

  // ------------------------------------- exactly what has to be kept apart

  /** What may overlap a prune: backups, in which of its phases a forget or an unforget, and whether its list of the
      trash may overlook a half-forgotten snapshot and its emptying of the trash tear one that is half taken back. */
  datatype Discipline = Discipline(backups: bool, forgets: set<Phase>, unforgets: set<Phase>, overlooks: bool, tears: bool)

  predicate IsBackupStep(step: Step) {
    !IsPruneStep(step) && !IsForgetStep(step) && !IsUnforgetStep(step) && !step.BeginPrune?
  }

  ghost predicate Keeps(d: Discipline, s: Repo, step: Step) {
    if s.prune.Idle? then step.BeginPrune? ==> d.backups || s.backups == map[]
    else
      || (IsPruneStep(step) && (d.overlooks || NoneOverlooked(s, step)) && (d.tears || NoneTorn(s, step)))
      || (IsBackupStep(step) && d.backups)
      || (IsForgetStep(step) && PhaseOf(s.prune) in d.forgets)
      || (IsUnforgetStep(step) && PhaseOf(s.prune) in d.unforgets)
  }

  const ALL_PHASES := {BeforeEmptying, Emptied, BetweenLists, MarkingRoots, DeletingObjects}

  /** The lock files: they let everything overlap a prune. */
  const LOCKS_ONLY := Discipline(true, ALL_PHASES, ALL_PHASES, true, true)

  ghost predicate IsRunUnder(d: Discipline, states: seq<Repo>, steps: seq<Step>) {
    && IsRun(states, steps) && AllIdsUsedOnce(states, steps)
    && forall i | 0 <= i < |steps| :: Keeps(d, states[i], steps[i])
  }

  /** Under the discipline no run ever loses anything. */
  ghost predicate LosesNothing(d: Discipline) {
    forall states: seq<Repo>, steps: seq<Step> | IsRunUnder(d, states, steps) ::
      forall i | 0 <= i < |states| :: Intact(states[i])
  }

  /** What a prune has to be kept apart from, and nothing else: backups, forgets between the emptying of the trash and
      the listing of the live snapshots, unforgets between the two lists, and moves that have stopped halfway. */
  lemma NothingIsLostIffKeptApart(d: Discipline)
    ensures LosesNothing(d) <==>
            !d.backups && Emptied !in d.forgets && BetweenLists !in d.unforgets && !d.overlooks && !d.tears
  {
    if d.backups {
      BackupDuringPruneLosesAnObject(d);
    } else if Emptied in d.forgets {
      ForgetDuringPruneLosesAnObject(d);
    } else if BetweenLists in d.unforgets {
      UnforgetDuringPruneLosesAnObject(d);
    } else if d.overlooks {
      HalfForgottenLosesAnObject(d);
    } else if d.tears {
      HalfTakenBackLosesItsIndex(d);
    } else {
      forall states: seq<Repo>, steps: seq<Step> | IsRunUnder(d, states, steps)
        ensures forall i | 0 <= i < |states| :: Intact(states[i])
      {
        NothingReferencedIsEverLost(states, steps);
      }
    }
  }

  /** Some run under the discipline ends in the state. */
  ghost predicate Reachable(d: Discipline, s: Repo) {
    exists states: seq<Repo>, steps: seq<Step> :: Reaches(d, states, steps, s)
  }

  ghost predicate Reaches(d: Discipline, states: seq<Repo>, steps: seq<Step>, s: Repo) {
    IsRunUnder(d, states, steps) && states[|steps|] == s
  }

  lemma Then(d: Discipline, s: Repo, step: Step) returns (t: Repo)
    requires Reachable(d, s) && Enabled(s, step) && IdsUsedOnce(s, step) && Keeps(d, s, step)
    ensures t == Apply(s, step) && Reachable(d, t)
  {
    var states: seq<Repo>, steps: seq<Step> :| Reaches(d, states, steps, s);
    t := Apply(s, step);
    assert Reaches(d, states + [t], steps + [step], t);
  }

  lemma ReachableCounts(d: Discipline, s: Repo)
    requires Reachable(d, s) && !Intact(s)
    ensures !LosesNothing(d)
  {
    var states: seq<Repo>, steps: seq<Step> :| Reaches(d, states, steps, s);
    assert IsRunUnder(d, states, steps) && !Intact(states[|steps|]);
  }

  /** A backup has stored hash 7 and is about to commit it. */
  lemma StoresSeven(d: Discipline) returns (s: Repo)
    ensures Reachable(d, s)
    ensures s == Repo(map[7 := 0], EMPTY_DIRECTORY, EMPTY_DIRECTORY, map[1 := Backup("mc", {}, {7}, false)], {1}, Idle)
  {
    assert Reaches(d, [EMPTY_REPO], [], EMPTY_REPO);
    s := Then(d, EMPTY_REPO, BeginBackup(1, "mc", None));
    s := Then(d, s, StoreObject(1, 7, 0));
    assert {} + {7} == {7};
  }

  const SNAPSHOT_OF_SEVEN := Directory(map[1 := Manifest("mc", Complete)], map[1 := {7}])

  /** Hash 7 is stored, and no backup runs. */
  function HoldingSeven(live: Directory, trash: Directory, prune: Prune): Repo {
    Repo(map[7 := 0], live, trash, map[], {1}, prune)
  }

  /** The backup crashes, and a prune looks for snapshots. */
  lemma SevenIsLeftBehind(d: Discipline) returns (s: Repo)
    ensures Reachable(d, s) && s == HoldingSeven(EMPTY_DIRECTORY, EMPTY_DIRECTORY, LiveListed(false, {}))
  {
    s := StoresSeven(d);
    s := Then(d, s, CrashBackup(1));
    assert s.live.manifests.Keys == {} && s.backups == map[];
    s := Then(d, s, BeginPrune(false));
    s := Then(d, s, ListLive);
  }

  /** It decides to delete what the backup has left behind. */
  lemma SevenIsDoomed(d: Discipline) returns (s: Repo)
    ensures Reachable(d, s) && s == HoldingSeven(EMPTY_DIRECTORY, EMPTY_DIRECTORY, Deleting({7}))
  {
    s := SevenIsLeftBehind(d);
    assert s.trash.indexes.Keys == {};
    s := Then(d, s, ListTrash);
    assert s.objects.Keys == {7} && s.objects[7] == 0;
    s := Then(d, s, Sweep(10));
    assert forall h :: h in s.prune.doomed <==> h == 7;
  }

  lemma FoundStored(d: Discipline) returns (s: Repo)
    requires d.backups
    ensures Reachable(d, s) && s.objects == map[7 := 0] && s.prune == Deleting({7})
    ensures 2 in s.backups && s.backups[2].recorded == {7} && !s.backups[2].staged
  {
    s := SevenIsDoomed(d);
    s := Then(d, s, BeginBackup(2, "mc", None));
    s := Then(d, s, StoreObject(2, 7, 100));
    assert {} + {7} == {7};
  }

  /** If backups may overlap a prune: hash 7 is left behind by a backup that crashed; a prune decides to delete it; a
      second backup finds it already stored and commits; the prune deletes it. */
  lemma BackupDuringPruneLosesAnObject(d: Discipline)
    requires d.backups
    ensures !LosesNothing(d)
  {
    var s := FoundStored(d);
    s := Published(d, s);
    s := Then(d, s, DeleteObject(7));
    assert Recoverable(s, 2) && 7 in Contents(s, 2) && 7 !in s.objects;
    ReachableCounts(d, s);
  }

  lemma Published(d: Discipline, before: Repo) returns (s: Repo)
    requires Reachable(d, before) && d.backups && 2 in before.backups && before.prune == Deleting({7})
    requires before.backups[2].recorded == {7} && !before.backups[2].staged
    ensures Reachable(d, s) && s.objects == before.objects && s.prune == before.prune
    ensures 2 in s.live.manifests && 2 in s.live.indexes && s.live.indexes[2] == {7}
  {
    s := Then(d, before, RenameIndex(2));
    s := Then(d, s, RenameManifest(2, Complete));
  }

  /** The lock files alone do not keep a prune apart from anything. */
  lemma LocksAloneLoseAnObject()
    ensures !LosesNothing(LOCKS_ONLY)
  {
    NothingIsLostIffKeptApart(LOCKS_ONLY);
  }

  lemma Committed(d: Discipline) returns (s: Repo)
    ensures Reachable(d, s) && s == HoldingSeven(SNAPSHOT_OF_SEVEN, EMPTY_DIRECTORY, Idle)
  {
    s := StoresSeven(d);
    s := Then(d, s, RenameIndex(1));
    s := Then(d, s, RenameManifest(1, Complete));
    assert s.backups == map[] && s.live == SNAPSHOT_OF_SEVEN;
  }

  const INDEX_OF_SEVEN := Directory(map[], map[1 := {7}])
  const MANIFEST_OF_SEVEN := Directory(map[1 := Manifest("mc", Complete)], map[])

  lemma ForgottenByHalf(d: Discipline) returns (s: Repo)
    ensures Reachable(d, s) && s == HoldingSeven(INDEX_OF_SEVEN, MANIFEST_OF_SEVEN, Idle)
  {
    s := Committed(d);
    s := Then(d, s, ForgetManifest(1));
    assert s.live == INDEX_OF_SEVEN && s.trash == MANIFEST_OF_SEVEN;
  }

  lemma Forgotten(d: Discipline) returns (s: Repo)
    ensures Reachable(d, s) && s == HoldingSeven(EMPTY_DIRECTORY, SNAPSHOT_OF_SEVEN, Idle)
  {
    s := ForgottenByHalf(d);
    s := Then(d, s, ForgetIndex(1));
    assert s.live == EMPTY_DIRECTORY && s.trash == SNAPSHOT_OF_SEVEN;
  }

  lemma ListedWithoutIt(d: Discipline) returns (s: Repo)
    ensures Reachable(d, s)
    ensures s == HoldingSeven(EMPTY_DIRECTORY, SNAPSHOT_OF_SEVEN, LiveListed(false, {}))
  {
    s := Forgotten(d);
    assert s.live.manifests.Keys == {};
    s := Then(d, s, BeginPrune(false));
    s := Then(d, s, ListLive);
  }

  lemma TakenBack(d: Discipline) returns (s: Repo)
    requires BetweenLists in d.unforgets
    ensures Reachable(d, s)
    ensures s == HoldingSeven(SNAPSHOT_OF_SEVEN, EMPTY_DIRECTORY, LiveListed(false, {}))
  {
    s := ListedWithoutIt(d);
    s := Then(d, s, UnforgetManifest(1));
    s := Then(d, s, UnforgetIndex(1));
    assert s.trash == EMPTY_DIRECTORY && s.live == SNAPSHOT_OF_SEVEN;
  }

  /** Neither list has the snapshot, and the trash holds no index. */
  lemma NeitherListed(d: Discipline, before: Repo) returns (s: Repo)
    requires Reachable(d, before) && before.prune == LiveListed(false, {}) && before.trash.indexes == map[]
    requires d.overlooks || before.trash.manifests == map[]
    ensures Reachable(d, s) && s == before.(prune := Marking({}, {}, {}))
  {
    assert before.trash.indexes.Keys == {};
    s := Then(d, before, ListTrash);
  }

  /** With nothing marked, the sweep takes hash 7. */
  lemma SevenIsDeleted(d: Discipline, before: Repo)
    requires Reachable(d, before) && before.prune == Marking({}, {}, {}) && before.objects == map[7 := 0]
    requires Recoverable(before, 1) && Contents(before, 1) == {7}
    ensures !LosesNothing(d)
  {
    var s := Then(d, before, Sweep(10));
    assert s.prune.doomed == {7};
    s := Then(d, s, DeleteObject(7));
    assert Recoverable(s, 1) && 7 in Contents(s, 1) && 7 !in s.objects;
    ReachableCounts(d, s);
  }

  /** If something may be taken back between the two lists: it is in neither. */
  lemma UnforgetDuringPruneLosesAnObject(d: Discipline)
    requires BetweenLists in d.unforgets
    ensures !LosesNothing(d)
  {
    var s := TakenBack(d);
    s := NeitherListed(d, s);
    SevenIsDeleted(d, s);
  }

  /** If a forget may have stopped, or stand, halfway when the trash is listed: the manifest is not among the live ones
      any more, and the index not yet in the trash. */
  lemma HalfForgottenLosesAnObject(d: Discipline)
    requires d.overlooks
    ensures !LosesNothing(d)
  {
    var s := ForgottenByHalf(d);
    assert s.live.manifests.Keys == {};
    s := Then(d, s, BeginPrune(false));
    s := Then(d, s, ListLive);
    s := NeitherListed(d, s);
    SevenIsDeleted(d, s);
  }

  lemma TakenBackByHalf(d: Discipline) returns (s: Repo)
    ensures Reachable(d, s) && s == HoldingSeven(MANIFEST_OF_SEVEN, INDEX_OF_SEVEN, Idle)
  {
    s := Forgotten(d);
    s := Then(d, s, UnforgetManifest(1));
    assert s.live == MANIFEST_OF_SEVEN && s.trash == INDEX_OF_SEVEN;
  }

  /** If an unforget may have stopped, or stand, halfway when the trash is emptied: the manifest is a live one again, and
      the index is gone. */
  lemma HalfTakenBackLosesItsIndex(d: Discipline)
    requires d.tears
    ensures !LosesNothing(d)
  {
    var s := TakenBackByHalf(d);
    s := Then(d, s, BeginPrune(true));
    s := Then(d, s, EmptyTrash);
    assert Recoverable(s, 1) && !Stored(s, 1);
    ReachableCounts(d, s);
  }

  lemma TrashIsEmptied(d: Discipline) returns (s: Repo)
    ensures Reachable(d, s) && s == HoldingSeven(SNAPSHOT_OF_SEVEN, EMPTY_DIRECTORY, Begun(true, true))
  {
    s := Committed(d);
    s := Then(d, s, BeginPrune(true));
    s := Then(d, s, EmptyTrash);
  }

  /** The snapshot is forgotten after the prune has emptied the trash and before it lists the live ones. */
  lemma ForgottenTooLate(d: Discipline) returns (s: Repo)
    requires Emptied in d.forgets
    ensures Reachable(d, s) && s == HoldingSeven(EMPTY_DIRECTORY, SNAPSHOT_OF_SEVEN, Begun(true, true))
  {
    s := TrashIsEmptied(d);
    s := Then(d, s, ForgetManifest(1));
    s := Then(d, s, ForgetIndex(1));
    assert s.live == EMPTY_DIRECTORY && s.trash == SNAPSHOT_OF_SEVEN;
  }

  /** If something may be forgotten after the trash has been emptied: a prune that empties the trash does not list it,
      so that nothing keeps the objects of a snapshot that has come into it since. */
  lemma ForgetDuringPruneLosesAnObject(d: Discipline)
    requires Emptied in d.forgets
    ensures !LosesNothing(d)
  {
    var s := ForgottenTooLate(d);
    assert s.live.manifests.Keys == {};
    s := Then(d, s, ListLive);
    s := Then(d, s, ListTrash);
    SevenIsDeleted(d, s);
  }
}
