/** Garbage collection, and the two checks that go with it: marking from the snapshots, sweeping what is old and
    unreferenced, and verifying that every snapshot can still be restored. */
module Gc {
  import opened Index
  import opened Sums
  import opened Wrappers

  type Result<T> = Wrappers.Result<T, Error>

  datatype Error = MalformedId | UnreadableIndex(id: string) | NotInTrash | Problems(n: nat) | RetentionFailed

  /** An object file. `rehash` is what its content hashes to, if it can be read. */
  datatype Object = Object(size: nat, modTime: int, rehash: Rehash)

  datatype Rehash = Unreadable | HashesTo(hash: Hash)

  /** An index file: its own hash, the entries that can be read, and whether those are all. */
  datatype IndexFile = IndexFile(fileHash: Hash, entries: seq<Entry>, whole: bool)

  /** A directory of snapshots. A manifest records the hash of its index file. */
  datatype Directory = Directory(manifests: map<string, Hash>, indexes: map<string, IndexFile>)

  const EMPTY_DIRECTORY := Directory(map[], map[])

  // ------------------------------------------------------------ snapshot ids

  predicate Digits(s: string) {
    forall c | c in s :: '0' <= c <= '9'
  }

  predicate ValidSnapshotID(s: string) {
    && |s| == 23
    && Digits(s[..8]) && s[8] == 'T' && Digits(s[9..15]) && s[15] == 'Z' && s[16] == '-'
    && forall c | c in s[17..] :: '0' <= c <= '9' || 'a' <= c <= 'f'
  }

  // -------------------------------------------------------------- references

  /** The object an entry needs. */
  predicate Refers(e: Entry) {
    e.kind.File? && e.hash != ZERO_HASH
  }

  function Referenced(entries: seq<Entry>): set<Hash> {
    set e | e in entries && Refers(e) :: e.hash
  }

  /** What the named indexes refer to. */
  function ReferencedBy(indexes: map<string, IndexFile>, ids: set<string>): set<Hash> {
    set id, h | id in ids && id in indexes && h in Referenced(indexes[id].entries) :: h
  }

  predicate AllReadable(indexes: map<string, IndexFile>, ids: set<string>) {
    forall id | id in ids :: id in indexes && indexes[id].whole
  }

  function TrashedIds(trash: Directory): set<string> {
    set id | id in trash.indexes && ValidSnapshotID(id)
  }

  /** What a prune regards as needed: the live snapshots, and the forgotten ones unless the trash is to be emptied. */
  function Roots(live: Directory, trash: Directory, emptyTrash: bool): set<Hash> {
    ReferencedBy(live.indexes, live.manifests.Keys) +
    if emptyTrash then {} else ReferencedBy(trash.indexes, TrashedIds(trash))
  }

  predicate RootsReadable(live: Directory, trash: Directory, emptyTrash: bool) {
    AllReadable(live.indexes, live.manifests.Keys) && (emptyTrash || AllReadable(trash.indexes, TrashedIds(trash)))
  }

  // ---------------------------------------------------------------- sizes

  ghost function Sizes(objects: map<Hash, Object>): map<Hash, nat> {
    map h | h in objects :: objects[h].size
  }

  /** The bytes the objects occupy. */
  ghost function StoredBytes(objects: map<Hash, Object>): nat {
    Sum(Sizes(objects))
  }

  lemma StoredBytesWithout(objects: map<Hash, Object>, h: Hash)
    requires h in objects
    ensures StoredBytes(objects) == objects[h].size + StoredBytes(objects - {h})
  {
    SumWithout(Sizes(objects), h);
    assert Sizes(objects) - {h} == Sizes(objects - {h});
  }

  // ----------------------------------------------------------------- pruning

  datatype PruneOptions = PruneOptions(dryRun: bool, gracePeriod: int, emptyTrash: bool)

  /** What prune counts. */
  datatype Figures = Figures(referenced: nat, total: nat, deleted: nat, spared: nat, freed: nat)

  datatype PruneReport = PruneReport(live: nat, trashed: nat, figures: Figures, dryRun: bool)

  const DEFAULT_GRACE_PERIOD := 3_600_000_000_000

  function Cutoff(now: int, gracePeriod: int): int {
    now - if gracePeriod <= 0 then DEFAULT_GRACE_PERIOD else gracePeriod
  }

  function Doomed(objects: map<Hash, Object>, referenced: set<Hash>, cutoff: int): set<Hash> {
    set h | h in objects && h !in referenced && objects[h].modTime <= cutoff
  }

  function Spared(objects: map<Hash, Object>, referenced: set<Hash>, cutoff: int): set<Hash> {
    set h | h in objects && h !in referenced && objects[h].modTime > cutoff
  }

  ghost function Restrict(objects: map<Hash, Object>, hs: set<Hash>): map<Hash, Object> {
    map h | h in objects && h in hs :: objects[h]
  }

  ghost function Expected(objects: map<Hash, Object>, referenced: set<Hash>, cutoff: int): Figures {
    var doomed := Doomed(objects, referenced, cutoff);
    Figures(|referenced|, |objects|, |doomed|, |Spared(objects, referenced, cutoff)|,
            StoredBytes(Restrict(objects, doomed)))
  }

  /** Every object falls into one of three groups. */
  lemma FiguresAddUp(objects: map<Hash, Object>, referenced: set<Hash>, cutoff: int)
    ensures var f := Expected(objects, referenced, cutoff);
            f.total == f.deleted + f.spared + |objects.Keys * referenced|
  {
    var doomed, spared := Doomed(objects, referenced, cutoff), Spared(objects, referenced, cutoff);
    assert objects.Keys == doomed + spared + objects.Keys * referenced;
    assert doomed !! spared && (doomed + spared) !! objects.Keys * referenced;
  }

  /** The bytes freed are the bytes the store loses. */
  lemma {:induction false} FreedIsTheDrop(objects: map<Hash, Object>, doomed: set<Hash>)
    requires doomed <= objects.Keys
    ensures StoredBytes(objects) == StoredBytes(objects - doomed) + StoredBytes(Restrict(objects, doomed))
    decreases |doomed|
  {
    if doomed == {} {
      assert objects - doomed == objects && Restrict(objects, doomed) == map[];
    } else {
      var h :| h in doomed;
      StoredBytesWithout(objects, h);
      StoredBytesWithout(Restrict(objects, doomed), h);
      FreedIsTheDrop(objects - {h}, doomed - {h});
      assert objects - {h} - (doomed - {h}) == objects - doomed;
      assert Restrict(objects, doomed) - {h} == Restrict(objects - {h}, doomed - {h});
    }
  }

  lemma OneMoreRestricted(objects: map<Hash, Object>, hs: set<Hash>, h: Hash)
    requires h in objects && h !in hs
    ensures StoredBytes(Restrict(objects, hs + {h})) == StoredBytes(Restrict(objects, hs)) + objects[h].size
  {
    StoredBytesWithout(Restrict(objects, hs + {h}), h);
    assert Restrict(objects, hs + {h}) - {h} == Restrict(objects, hs);
  }

  lemma Within(part: set<Hash>, whole: set<Hash>)
    requires part <= whole
    ensures part * whole == part
  {
  }

  lemma OneMoreSeen(part: set<Hash>, seen: set<Hash>, h: Hash)
    requires h !in seen
    ensures h in part ==> part * (seen + {h}) == part * seen + {h} && |part * (seen + {h})| == |part * seen| + 1
    ensures h !in part ==> part * (seen + {h}) == part * seen
  {
    if h in part {
      assert part * (seen + {h}) == part * seen + {h};
    } else {
      assert part * (seen + {h}) == part * seen;
    }
  }

  function Hashes(s: seq<Hash>): set<Hash> {
    set h | h in s
  }

  predicate Distinct(s: seq<Hash>) {
    forall i, j | 0 <= i < j < |s| :: s[i] != s[j]
  }

  lemma AppendedHash(s: seq<Hash>, h: Hash)
    ensures Hashes(s + [h]) == Hashes(s) + {h}
    ensures Distinct(s) && h !in Hashes(s) ==> Distinct(s + [h])
  {
  }

  lemma PrefixGrows(s: seq<Hash>, n: nat)
    requires Distinct(s) && n < |s|
    ensures Hashes(s[..n + 1]) == Hashes(s[..n]) + {s[n]} && s[n] !in Hashes(s[..n])
  {
  }

  class Repository {
    var objects: map<Hash, Object>
    var live: Directory
    var trash: Directory

    constructor (objects: map<Hash, Object>, live: Directory, trash: Directory)
      ensures this.objects == objects && this.live == live && this.trash == trash
    {
      this.objects, this.live, this.trash := objects, live, trash;
    }

    /** Marks what one index refers to. */
    method MarkFrom(entries: seq<Entry>, before: set<Hash>) returns (referenced: set<Hash>)
      ensures referenced == before + Referenced(entries)
    {
      referenced := before;
      for n := 0 to |entries|
        invariant referenced == before + Referenced(entries[..n])
      {
        assert entries[..n + 1] == entries[..n] + [entries[n]];
        if entries[n].kind.File? && entries[n].hash != ZERO_HASH {
          referenced := referenced + {entries[n].hash};
        }
      }
      assert entries[..|entries|] == entries;
    }

    method MarkAll(ids: set<string>, indexes: map<string, IndexFile>, before: set<Hash>) returns (r: Result<set<Hash>>)
      ensures r.Ok? <==> AllReadable(indexes, ids)
      ensures r.Ok? ==> r.value == before + ReferencedBy(indexes, ids)
    {
      var referenced, left := before, ids;
      while left != {}
        invariant left <= ids && AllReadable(indexes, ids - left)
        invariant referenced == before + ReferencedBy(indexes, ids - left)
        decreases |left|
      {
        var id :| id in left;
        if id !in indexes || !indexes[id].whole {
          return Err(UnreadableIndex(id));
        }
        referenced := MarkFrom(indexes[id].entries, referenced);
        assert ids - (left - {id}) == (ids - left) + {id};
        left := left - {id};
      }
      assert ids - left == ids;
      r := Ok(referenced);
    }

    /** The objects in the order the directory walk meets them. */
    method ListObjects() returns (listing: seq<Hash>)
      ensures Distinct(listing) && Hashes(listing) == objects.Keys
    {
      listing := [];
      var left := objects.Keys;
      while left != {}
        invariant left <= objects.Keys && Distinct(listing) && Hashes(listing) == objects.Keys - left
        decreases |left|
      {
        var h :| h in left;
        AppendedHash(listing, h);
        listing, left := listing + [h], left - {h};
      }
    }

    /** Sorts the objects into referenced, recent and doomed ones. */
    method Sweep(referenced: set<Hash>, cutoff: int) returns (doomed: seq<Hash>, total: nat, spared: nat)
      ensures Distinct(doomed) && Hashes(doomed) == Doomed(objects, referenced, cutoff)
      ensures total == |objects| && spared == |Spared(objects, referenced, cutoff)|
    {
      var listing := ListObjects();
      ghost var aged, recent := Doomed(objects, referenced, cutoff), Spared(objects, referenced, cutoff);
      doomed, total, spared := Classify(listing, referenced, cutoff, aged, recent);
      Within(aged, objects.Keys);
      Within(recent, objects.Keys);
    }

    method Classify(listing: seq<Hash>, referenced: set<Hash>, cutoff: int, ghost aged: set<Hash>,
                    ghost recent: set<Hash>) returns (doomed: seq<Hash>, total: nat, spared: nat)
      requires Distinct(listing) && forall h | h in listing :: h in objects
      requires forall h | h in listing :: h in aged <==> h !in referenced && objects[h].modTime <= cutoff
      requires forall h | h in listing :: h in recent <==> h !in referenced && objects[h].modTime > cutoff
      ensures Distinct(doomed) && Hashes(doomed) == aged * Hashes(listing)
      ensures total == |Hashes(listing)| && spared == |recent * Hashes(listing)|
    {
      doomed, total, spared := [], 0, 0;
      ghost var seen: set<Hash> := {};
      for n := 0 to |listing|
        invariant seen == Hashes(listing[..n]) && total == |seen| && spared == |recent * seen|
        invariant Distinct(doomed) && Hashes(doomed) == aged * seen
      {
        var h := listing[n];
        PrefixGrows(listing, n);
        OneMoreSeen(aged, seen, h);
        OneMoreSeen(recent, seen, h);
        AppendedHash(doomed, h);
        seen := seen + {h};
        total := total + 1;
        if h !in referenced {
          if objects[h].modTime > cutoff {
            spared := spared + 1;
          } else {
            doomed := doomed + [h];
          }
        }
      }
      assert listing[..|listing|] == listing;
    }

    /** Deletes the doomed objects, or only counts what that would do. */
    method DeleteAll(doomed: seq<Hash>, dryRun: bool) returns (deleted: nat, freed: nat)
      requires Distinct(doomed) && Hashes(doomed) <= objects.Keys
      modifies this`objects
      ensures deleted == |Hashes(doomed)| && freed == StoredBytes(Restrict(old(objects), Hashes(doomed)))
      ensures objects == if dryRun then old(objects) else old(objects) - Hashes(doomed)
    {
      deleted, freed := 0, 0;
      ghost var before, gone: set<Hash> := objects, {};
      assert Restrict(before, gone) == map[];
      for n := 0 to |doomed|
        invariant gone == Hashes(doomed[..n]) && deleted == |gone|
        invariant freed == StoredBytes(Restrict(before, gone))
        invariant objects == if dryRun then before else before - gone
      {
        var h := doomed[n];
        PrefixGrows(doomed, n);
        assert h in Hashes(doomed);
        OneMoreRestricted(before, gone, h);
        deleted, freed := deleted + 1, freed + objects[h].size;
        if !dryRun {
          objects := objects - {h};
        }
        gone := gone + {h};
      }
      assert doomed[..|doomed|] == doomed;
    }

    method Collect(referenced: set<Hash>, cutoff: int, dryRun: bool) returns (figures: Figures)
      modifies this`objects
      ensures figures == Expected(old(objects), referenced, cutoff)
      ensures objects == if dryRun then old(objects) else old(objects) - Doomed(old(objects), referenced, cutoff)
    {
      var doomed, total, spared := Sweep(referenced, cutoff);
      var deleted, freed := DeleteAll(doomed, dryRun);
      figures := Figures(|referenced|, total, deleted, spared, freed);
    }

    method Mark(emptyTrash: bool) returns (r: Result<set<Hash>>)
      ensures r.Ok? <==> RootsReadable(live, trash, emptyTrash)
      ensures r.Ok? ==> r.value == Roots(live, trash, emptyTrash)
    {
      r := MarkAll(live.manifests.Keys, live.indexes, {});
      if r.Ok? && !emptyTrash {
        r := MarkAll(TrashedIds(trash), trash.indexes, r.value);
      }
    }

    /** Deletes exactly the objects that no root needs and that are old enough; a dry run on the same state reports the
        same figures. An unreadable index stops it before any object is touched, but after the trash was emptied. */
    method Prune(opts: PruneOptions, now: int) returns (r: Result<PruneReport>)
      modifies this`objects, this`trash
      ensures trash == if opts.emptyTrash && !opts.dryRun then EMPTY_DIRECTORY else old(trash)
      ensures r.Ok? <==> RootsReadable(live, old(trash), opts.emptyTrash)
      ensures r.Err? || opts.dryRun ==> objects == old(objects)
      ensures var referenced, cutoff := Roots(live, old(trash), opts.emptyTrash), Cutoff(now, opts.gracePeriod);
              r.Ok? ==>
                && r.value == PruneReport(|live.manifests|, |TrashedIds(trash)|,
                                          Expected(old(objects), referenced, cutoff), opts.dryRun)
                && (!opts.dryRun ==> objects == old(objects) - Doomed(old(objects), referenced, cutoff))
    {
      ghost var roots := Roots(live, trash, opts.emptyTrash);
      if opts.emptyTrash && !opts.dryRun {
        trash := EMPTY_DIRECTORY;
      }
      var trashed := TrashedIds(trash);
      var marked := Mark(opts.emptyTrash);
      if marked.Err? {
        return Err(marked.error);
      }
      assert marked.value == roots;
      var figures := Collect(marked.value, Cutoff(now, opts.gracePeriod), opts.dryRun);
      r := Ok(PruneReport(|live.manifests|, |trashed|, figures, opts.dryRun));
    }

    // ----------------------------------------------------- forget, unforget

    /** Moves both files of each snapshot to the trash, as far as they exist. A malformed id stops it, and what comes
        before that id has gone by then. */
    method Forget(ids: seq<string>) returns (r: Result<()>)
      modifies this`live, this`trash
      ensures r.Ok? <==> forall id | id in ids :: ValidSnapshotID(id)
      ensures (live, trash) == MoveAll(old(live), old(trash), UntilMalformed(ids))
    {
      for n := 0 to |ids|
        invariant forall id | id in ids[..n] :: ValidSnapshotID(id)
        invariant (live, trash) == MoveAll(old(live), old(trash), ids[..n])
      {
        assert ids[..n + 1][..n] == ids[..n];
        var id := ids[n];
        if !ValidSnapshotID(id) {
          StopsAt(ids, n);
          return Err(MalformedId);
        }
        NotThere(live.manifests, id);
        NotThere(live.indexes, id);
        if id in live.manifests {
          trash := trash.(manifests := trash.manifests[id := live.manifests[id]]);
          live := live.(manifests := live.manifests - {id});
        }
        if id in live.indexes {
          trash := trash.(indexes := trash.indexes[id := live.indexes[id]]);
          live := live.(indexes := live.indexes - {id});
        }
      }
      assert ids[..|ids|] == ids;
      StopsAt(ids, |ids|);
      r := Ok(());
    }

    method Unforget(id: string) returns (r: Result<()>)
      modifies this`live, this`trash
      ensures r == if !ValidSnapshotID(id) then Err(MalformedId)
                   else if id in old(trash).manifests || id in old(trash).indexes then Ok(()) else Err(NotInTrash)
      ensures (trash, live) == if ValidSnapshotID(id) then Move(old(trash), old(live), id) else (old(trash), old(live))
    {
      if !ValidSnapshotID(id) {
        return Err(MalformedId);
      }
      NotThere(trash.manifests, id);
      NotThere(trash.indexes, id);
      var moved := 0;
      if id in trash.manifests {
        live := live.(manifests := live.manifests[id := trash.manifests[id]]);
        trash := trash.(manifests := trash.manifests - {id});
        moved := moved + 1;
      }
      if id in trash.indexes {
        live := live.(indexes := live.indexes[id := trash.indexes[id]]);
        trash := trash.(indexes := trash.indexes - {id});
        moved := moved + 1;
      }
      r := if moved == 0 then Err(NotInTrash) else Ok(());
    }

    // ------------------------------------------------------------------ check

    method CheckSnapshot(id: string, before: set<Hash>) returns (problem: Option<Problem>, referenced: set<Hash>)
      requires id in live.manifests
      ensures problem == SnapshotProblem(live, id)
      ensures referenced == before + if id in Opened(live) then Referenced(live.indexes[id].entries) else {}
    {
      problem, referenced := None, before;
      if id !in live.indexes || live.indexes[id].fileHash != live.manifests[id] {
        problem := Some(BadIndex(id));
      } else {
        referenced := MarkFrom(live.indexes[id].entries, before);
        if !live.indexes[id].whole {
          problem := Some(CutIndex(id));
        }
      }
    }

    /** Goes through the snapshots: the index must be the one its manifest knows, and be readable to its end. What
        can be read of an index is looked at even if the rest of it is lost. */
    method CheckSnapshots() returns (problems: seq<Problem>, referenced: set<Hash>)
      ensures forall p :: p in problems <==> p in SnapshotProblems(live, live.manifests.Keys)
      ensures referenced == ReferencedBy(live.indexes, Opened(live))
    {
      problems, referenced := [], {};
      var ids := live.manifests.Keys;
      var left := ids;
      while left != {}
        invariant left <= ids == live.manifests.Keys
        invariant forall p :: p in problems <==> p in SnapshotProblems(live, ids - left)
        invariant referenced == ReferencedBy(live.indexes, Opened(live) * (ids - left))
        decreases |left|
      {
        var id :| id in left;
        ghost var before := ids - left;
        left := left - {id};
        assert ids - left == before + {id};
        var problem: Option<Problem>;
        problem, referenced := CheckSnapshot(id, referenced);
        OneMoreIndex(live, before, id);
        OneMoreSnapshot(live, before, id);
        if problem.Some? {
          problems := problems + [problem.value];
        }
      }
      assert ids - left == ids && Opened(live) * ids == Opened(live);
    }

    method CheckObject(h: Hash, readData: bool) returns (problem: Option<Problem>, read: bool)
      ensures problem == ObjectProblem(objects, h, readData) && (read <==> readData && h in Readable(objects))
    {
      problem, read := None, false;
      if !readData {
        if h !in objects {
          problem := Some(Missing(h));
        }
      } else if h !in objects || objects[h].rehash.Unreadable? {
        problem := Some(CannotBeRead(h));
      } else {
        read := true;
        if objects[h].rehash.hash != h {
          problem := Some(Corrupted(h));
        }
      }
    }

    /** Goes through the objects the snapshots need: each must be there and, when its data are read, hash to its name. */
    method CheckObjects(referenced: set<Hash>, readData: bool) returns (problems: seq<Problem>, rehashed: nat)
      ensures forall p :: p in problems <==> p in ObjectProblems(objects, referenced, readData)
      ensures rehashed == if readData then |Readable(objects) * referenced| else 0
    {
      problems, rehashed := [], 0;
      var left := referenced;
      while left != {}
        invariant left <= referenced
        invariant forall p :: p in problems <==> p in ObjectProblems(objects, referenced - left, readData)
        invariant rehashed == if readData then |Readable(objects) * (referenced - left)| else 0
        decreases |left|
      {
        var h :| h in left;
        OneMoreSeen(Readable(objects), referenced - left, h);
        OneMoreObject(objects, referenced - left, h, readData);
        assert referenced - (left - {h}) == (referenced - left) + {h};
        left := left - {h};
        var problem, read := CheckObject(h, readData);
        if problem.Some? {
          problems := problems + [problem.value];
        }
        if read {
          rehashed := rehashed + 1;
        }
      }
      assert referenced - left == referenced;
    }

    /** Finds a problem exactly if a live snapshot's index is not as it should be, or an object it names is not there or,
        when data are read, is not what its name says. */
    method Check(readData: bool) returns (rep: CheckReport)
      ensures rep.problems == [] <==> ChecksOut(live, objects, readData)
      ensures forall p :: p in rep.problems <==>
                || p in SnapshotProblems(live, live.manifests.Keys)
                || p in ObjectProblems(objects, ReferencedBy(live.indexes, Opened(live)), readData)
      ensures rep.snapshots == |live.manifests| && rep.objects == |ReferencedBy(live.indexes, Opened(live))|
      ensures rep.rehashed ==
              if readData then |Readable(objects) * ReferencedBy(live.indexes, Opened(live))| else 0
    {
      var bad, referenced := CheckSnapshots();
      var broken, rehashed := CheckObjects(referenced, readData);
      rep := CheckReport(|live.manifests|, |referenced|, rehashed, bad + broken);
      NoProblemMeansItChecksOut(live, objects, readData, bad, broken);
    }

    /** The daily pass. `selected` is what the retention policy would forget. A repository that fails its own check
        is left exactly as it is; otherwise the selected snapshots go to the trash, and only then is there a prune. */
    method Housekeeping(req: Request, selected: Result<seq<string>>, now: int) returns (r: Result<Housekept>)
      modifies this
      ensures !CheckLetsOn(old(live), old(objects), req) ==>
                r.Err? && r.error.Problems? && objects == old(objects) && live == old(live) && trash == old(trash)
      ensures CheckLetsOn(old(live), old(objects), req) ==>
                var forgotten := Forgotten(old(live), old(trash), req, selected);
                var emptied := ForgetLetsOn(req, selected) && req.prune && req.emptyTrash && !req.dryRun;
                && live == forgotten.0 && trash == (if emptied then EMPTY_DIRECTORY else forgotten.1)
                && (r.Ok? <==> ForgetLetsOn(req, selected) &&
                               (req.prune ==> RootsReadable(forgotten.0, forgotten.1, req.emptyTrash)))
                && (r.Ok? && req.prune ==>
                      var referenced := Roots(forgotten.0, forgotten.1, req.emptyTrash);
                      && r.value.prune.Some? && r.value.prune.value.dryRun == req.dryRun
                      && r.value.prune.value.figures == Expected(old(objects), referenced, Cutoff(now, 0))
                      && (!req.dryRun ==> objects == old(objects) - Doomed(old(objects), referenced, Cutoff(now, 0))))
      ensures r.Err? || !req.prune || req.dryRun ==> objects == old(objects)
      ensures r.Ok? ==> (r.value.check.Some? <==> req.check) && (r.value.prune.Some? <==> req.prune)
    {
      var out := Housekept(None, None);
      if req.check {
        var report := Check(req.readData);
        if report.problems != [] {
          return Err(Problems(|report.problems|));
        }
        out := out.(check := Some(report));
      }
      if req.forget {
        if selected.Err? {
          return Err(RetentionFailed);
        }
        if !req.dryRun && selected.value != [] {
          var forgot := Forget(selected.value);
          if forgot.Err? {
            return Err(forgot.error);
          }
        }
      }
      if req.prune {
        var pruned := Prune(PruneOptions(req.dryRun, 0, req.emptyTrash), now);
        if pruned.Err? {
          return Err(pruned.error);
        }
        out := out.(prune := Some(pruned.value));
      }
      r := Ok(out);
    }
  }

  datatype Problem = BadIndex(id: string) | CutIndex(id: string) | Missing(hash: Hash) | CannotBeRead(hash: Hash) |
                     Corrupted(hash: Hash)

  datatype CheckReport = CheckReport(snapshots: nat, objects: nat, rehashed: nat, problems: seq<Problem>)

  datatype Request = Request(check: bool, readData: bool, forget: bool, prune: bool, emptyTrash: bool, dryRun: bool)

  datatype Housekept = Housekept(check: Option<CheckReport>, prune: Option<PruneReport>)

  /** What is wrong with a snapshot's index. */
  function SnapshotProblem(live: Directory, id: string): Option<Problem>
    requires id in live.manifests
  {
    if id !in live.indexes || live.indexes[id].fileHash != live.manifests[id] then Some(BadIndex(id))
    else if !live.indexes[id].whole then Some(CutIndex(id))
    else None
  }

  /** The snapshots whose index is the one their manifest knows. */
  function Opened(live: Directory): set<string> {
    set id | id in live.manifests && id in live.indexes && live.indexes[id].fileHash == live.manifests[id]
  }

  function ObjectProblem(objects: map<Hash, Object>, h: Hash, readData: bool): Option<Problem> {
    if !readData then if h in objects then None else Some(Missing(h))
    else if h !in objects || objects[h].rehash.Unreadable? then Some(CannotBeRead(h))
    else if objects[h].rehash.hash != h then Some(Corrupted(h))
    else None
  }

  function Readable(objects: map<Hash, Object>): set<Hash> {
    set h | h in objects && objects[h].rehash.HashesTo?
  }

  lemma OneMoreIndex(live: Directory, ids: set<string>, id: string)
    requires id in live.manifests
    ensures ReferencedBy(live.indexes, Opened(live) * (ids + {id})) ==
            ReferencedBy(live.indexes, Opened(live) * ids) +
            if id in Opened(live) then Referenced(live.indexes[id].entries) else {}
  {
    if id in Opened(live) {
      assert Opened(live) * (ids + {id}) == Opened(live) * ids + {id};
    } else {
      assert Opened(live) * (ids + {id}) == Opened(live) * ids;
    }
  }

  lemma NoProblemMeansItChecksOut(live: Directory, objects: map<Hash, Object>, readData: bool, bad: seq<Problem>,
                                 broken: seq<Problem>)
    requires forall p :: p in bad <==> p in SnapshotProblems(live, live.manifests.Keys)
    requires forall p :: p in broken <==> p in ObjectProblems(objects, ReferencedBy(live.indexes, Opened(live)), readData)
    ensures bad + broken == [] <==> ChecksOut(live, objects, readData)
  {
    assert bad == [] <==> IndexesIntact(live, live.manifests.Keys) by {
      if id :| id in live.manifests && SnapshotProblem(live, id).Some? {
        assert SnapshotProblem(live, id).value in bad;
      }
      assert bad != [] ==> bad[0] in bad;
    }
    if bad == [] {
      assert Opened(live) == live.manifests.Keys;
      if h :| h in ReferencedBy(live.indexes, Opened(live)) && ObjectProblem(objects, h, readData).Some? {
        assert ObjectProblem(objects, h, readData).value in broken;
      }
      assert broken != [] ==> broken[0] in broken;
    }
  }

  /** What is wrong with some of the live snapshots. */
  ghost function SnapshotProblems(live: Directory, ids: set<string>): set<Problem>
    requires ids <= live.manifests.Keys
  {
    set id | id in ids && SnapshotProblem(live, id).Some? :: SnapshotProblem(live, id).value
  }

  lemma OneMoreSnapshot(live: Directory, ids: set<string>, id: string)
    requires ids <= live.manifests.Keys && id in live.manifests
    ensures SnapshotProblems(live, ids + {id}) ==
            SnapshotProblems(live, ids) +
            if SnapshotProblem(live, id).Some? then {SnapshotProblem(live, id).value} else {}
  {
  }

  ghost function ObjectProblems(objects: map<Hash, Object>, hs: set<Hash>, readData: bool): set<Problem> {
    set h | h in hs && ObjectProblem(objects, h, readData).Some? :: ObjectProblem(objects, h, readData).value
  }

  lemma OneMoreObject(objects: map<Hash, Object>, hs: set<Hash>, h: Hash, readData: bool)
    ensures ObjectProblems(objects, hs + {h}, readData) ==
            ObjectProblems(objects, hs, readData) +
            if ObjectProblem(objects, h, readData).Some? then {ObjectProblem(objects, h, readData).value} else {}
  {
  }

  predicate IndexesIntact(live: Directory, ids: set<string>)
    requires ids <= live.manifests.Keys
  {
    forall id | id in ids ::
      id in live.indexes && live.indexes[id].fileHash == live.manifests[id] && live.indexes[id].whole
  }

  predicate ObjectIntact(objects: map<Hash, Object>, h: Hash, readData: bool) {
    h in objects && (readData ==> objects[h].rehash == HashesTo(h))
  }

  /** Every live snapshot has its index, whole, and every object that index names is there; when data are read, each
      also hashes to its name. */
  predicate ChecksOut(live: Directory, objects: map<Hash, Object>, readData: bool) {
    && IndexesIntact(live, live.manifests.Keys)
    && forall h | h in ReferencedBy(live.indexes, live.manifests.Keys) :: ObjectIntact(objects, h, readData)
  }

  /** Reading the data finds exactly the objects besides whose content cannot be read or belongs to another hash. */
  lemma ReadingFindsTheRest(live: Directory, objects: map<Hash, Object>)
    ensures ChecksOut(live, objects, true) <==>
            && ChecksOut(live, objects, false)
            && forall h | h in ReferencedBy(live.indexes, live.manifests.Keys) && h in objects ::
                 objects[h].rehash == HashesTo(h)
  {
  }

  /** There is no check, or it finds nothing. */
  predicate CheckLetsOn(live: Directory, objects: map<Hash, Object>, req: Request) {
    req.check ==> ChecksOut(live, objects, req.readData)
  }

  /** There is nothing to forget, or it can be done. */
  predicate ForgetLetsOn(req: Request, selected: Result<seq<string>>) {
    req.forget ==> selected.Ok? && (req.dryRun || forall id | id in selected.value :: ValidSnapshotID(id))
  }

  /** What is in the two directories after the forgetting. */
  function Forgotten(live: Directory, trash: Directory, req: Request, selected: Result<seq<string>>)
    : (Directory, Directory)
  {
    if req.forget && !req.dryRun && selected.Ok? then MoveAll(live, trash, UntilMalformed(selected.value))
    else (live, trash)
  }

  /** Moves the files of one snapshot from one directory to the other. */
  function Move(source: Directory, target: Directory, id: string): (Directory, Directory) {
    (Directory(source.manifests - {id}, source.indexes - {id}),
     Directory(if id in source.manifests then target.manifests[id := source.manifests[id]] else target.manifests,
               if id in source.indexes then target.indexes[id := source.indexes[id]] else target.indexes))
  }

  /** The ids before the first malformed one. */
  function UntilMalformed(ids: seq<string>): (r: seq<string>)
    ensures r <= ids && forall id | id in r :: ValidSnapshotID(id)
    ensures |r| < |ids| ==> !ValidSnapshotID(ids[|r|])
  {
    if ids == [] || !ValidSnapshotID(ids[0]) then [] else [ids[0]] + UntilMalformed(ids[1..])
  }

  lemma {:induction false} StopsAt(ids: seq<string>, n: nat)
    requires n <= |ids| && (forall id | id in ids[..n] :: ValidSnapshotID(id))
    requires n < |ids| ==> !ValidSnapshotID(ids[n])
    ensures UntilMalformed(ids) == ids[..n]
  {
    if n > 0 {
      assert ids[..n] == [ids[0]] + ids[1..][..n - 1];
      StopsAt(ids[1..], n - 1);
    }
  }

  lemma NotThere<T>(m: map<string, T>, id: string)
    ensures id !in m ==> m - {id} == m
  {
  }

  function MoveAll(source: Directory, target: Directory, ids: seq<string>): (Directory, Directory) {
    if ids == [] then (source, target)
    else
      var moved := MoveAll(source, target, ids[..|ids| - 1]);
      Move(moved.0, moved.1, ids[|ids| - 1])
  }

  /** Moving there and back changes nothing, unless the trash already held files under that id. */
  lemma ForgetThenUnforget(live: Directory, trash: Directory, id: string)
    requires id !in trash.manifests && id !in trash.indexes
    ensures var forgotten := Move(live, trash, id);
            Move(forgotten.1, forgotten.0, id) == (trash, live)
  {
    var forgotten := Move(live, trash, id);
    var back := Move(forgotten.1, forgotten.0, id);
    assert back.0.manifests == trash.manifests && back.0.indexes == trash.indexes;
    assert back.1.manifests == live.manifests && back.1.indexes == live.indexes;
  }

  /** Forgetting alone never makes an object deletable: what a prune that leaves the trash alone regards as needed
      only grows. */
  lemma ForgettingKeepsRoots(live: Directory, trash: Directory, id: string)
    requires ValidSnapshotID(id) && id !in trash.indexes
    ensures var forgotten := Move(live, trash, id);
            Roots(live, trash, false) <= Roots(forgotten.0, forgotten.1, false)
  {
    var forgotten := Move(live, trash, id);
    forall h | h in Roots(live, trash, false) ensures h in Roots(forgotten.0, forgotten.1, false) {
      if h in ReferencedBy(live.indexes, live.manifests.Keys) {
        var other :| other in live.manifests && other in live.indexes && h in Referenced(live.indexes[other].entries);
        if other == id {
          assert id in TrashedIds(forgotten.1) && h in Referenced(forgotten.1.indexes[id].entries);
        } else {
          assert other in forgotten.0.manifests && other in forgotten.0.indexes;
        }
      } else {
        var other :| other in TrashedIds(trash) && other in trash.indexes && h in Referenced(trash.indexes[other].entries);
        assert other in TrashedIds(forgotten.1) && forgotten.1.indexes[other] == trash.indexes[other];
      }
    }
  }

  /** Whatever a prune does, what a live snapshot needs stays, and the bytes it reports are the bytes that are gone. */
  lemma PruneKeepsWhatIsNeeded(before: map<Hash, Object>, live: Directory, trash: Directory, emptyTrash: bool,
                               cutoff: int, id: string, e: Entry)
    requires id in live.manifests && id in live.indexes && e in live.indexes[id].entries && Refers(e)
    ensures var roots := Roots(live, trash, emptyTrash);
            var after := before - Doomed(before, roots, cutoff);
            && (e.hash in after <==> e.hash in before)
            && StoredBytes(before) - StoredBytes(after) == Expected(before, roots, cutoff).freed
  {
    var roots := Roots(live, trash, emptyTrash);
    assert e.hash in Referenced(live.indexes[id].entries);
    assert e.hash in roots;
    FreedIsTheDrop(before, Doomed(before, roots, cutoff));
  }
}
