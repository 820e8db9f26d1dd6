/** What a dry run of the daily pass says about the real run. It prunes as if nothing had been forgotten. */
module DryRun {
  import opened Gc
  import opened Index
  import opened Sums
  import Wrappers

  function Ids(ids: seq<string>): set<string> {
    set id | id in ids
  }

  /** Moving several snapshots takes their files out of the one directory and puts them into the other. */
  lemma {:induction false} MoveAllIs(live: Directory, trash: Directory, ids: seq<string>)
    ensures var moved, gone := MoveAll(live, trash, ids), Ids(ids);
            && moved.0 == Directory(live.manifests - gone, live.indexes - gone)
            && moved.1.indexes == trash.indexes + (map id | id in live.indexes && id in gone :: live.indexes[id])
  {
    if ids == [] {
      assert live.manifests - {} == live.manifests && live.indexes - {} == live.indexes;
    } else {
      var rest, last := ids[..|ids| - 1], ids[|ids| - 1];
      MoveAllIs(live, trash, rest);
      assert Ids(ids) == Ids(rest) + {last} by {
        assert ids == rest + [last];
      }
      OneMoved(live.manifests, Ids(rest), last);
      OneMoved(live.indexes, Ids(rest), last);
      OneReceived(live.indexes, trash.indexes, Ids(rest), last);
    }
  }

  lemma OneMoved<V>(m: map<string, V>, gone: set<string>, id: string)
    ensures m - gone - {id} == m - (gone + {id})
  {
  }

  lemma OneReceived<V>(source: map<string, V>, target: map<string, V>, gone: set<string>, id: string)
    ensures var sofar := target + (map k | k in source && k in gone :: source[k]);
            target + (map k | k in source && k in gone + {id} :: source[k]) ==
            if id in source - gone then sofar[id := (source - gone)[id]] else sofar
  {
  }

  /** What the snapshots that are to go refer to, those that stay refer to as well. */
  predicate NamedByOthers(live: Directory, gone: set<string>) {
    ReferencedBy(live.indexes, live.manifests.Keys * gone) <= ReferencedBy(live.indexes, live.manifests.Keys - gone)
  }

  lemma RootsOfTheRest(live: Directory, trash: Directory, ids: seq<string>)
    ensures var moved := MoveAll(live, trash, ids);
            && Roots(moved.0, moved.1, true) == ReferencedBy(live.indexes, live.manifests.Keys - Ids(ids))
            && Roots(moved.0, moved.1, true) <= Roots(live, trash, true)
            && (Roots(live, trash, true) == Roots(moved.0, moved.1, true) <==> NamedByOthers(live, Ids(ids)))
            && (RootsReadable(live, trash, true) ==> RootsReadable(moved.0, moved.1, true))
  {
    MoveAllIs(live, trash, ids);
    ReferencedWithout(live.indexes, live.manifests.Keys, Ids(ids));
    SameReferences(live, Ids(ids));
  }

  lemma SameReferences(live: Directory, gone: set<string>)
    ensures (live.manifests - gone).Keys == live.manifests.Keys - gone
    ensures ReferencedBy(live.indexes - gone, live.manifests.Keys - gone) ==
            ReferencedBy(live.indexes, live.manifests.Keys - gone)
  {
    assert forall id | id in live.manifests.Keys - gone && id in live.indexes ::
        id in live.indexes - gone && (live.indexes - gone)[id] == live.indexes[id];
  }

  lemma ReferencedWithout(indexes: map<string, IndexFile>, ids: set<string>, gone: set<string>)
    ensures ReferencedBy(indexes, ids) == ReferencedBy(indexes, ids * gone) + ReferencedBy(indexes, ids - gone)
  {
    assert ids == ids * gone + (ids - gone);
  }

  lemma FewerRoots(objects: map<Hash, Object>, planned: set<Hash>, actual: set<Hash>, cutoff: int)
    requires actual <= planned
    ensures Expected(objects, planned, cutoff) == Expected(objects, actual, cutoff) <==> planned == actual
    ensures |Doomed(objects, planned, cutoff)| <= |Doomed(objects, actual, cutoff)|
    ensures |Doomed(objects, planned, cutoff)| == |Doomed(objects, actual, cutoff)| <==>
            forall h | h in planned - actual && h in objects :: objects[h].modTime > cutoff
  {
    SubsetSize(actual, planned);
    SubsetSize(Doomed(objects, planned, cutoff), Doomed(objects, actual, cutoff));
    if Doomed(objects, planned, cutoff) == Doomed(objects, actual, cutoff) {
      forall h | h in planned - actual && h in objects ensures objects[h].modTime > cutoff {
        assert h !in Doomed(objects, planned, cutoff);
      }
    } else {
      var h :| h in Doomed(objects, actual, cutoff) && h !in Doomed(objects, planned, cutoff);
      assert h in planned - actual;
    }
  }

  // ------------------------------------------------------ what can be read

  /** The indexes that the dry run reads besides those of the real run are those of the snapshots that are to go. */
  lemma ReadableIff(live: Directory, trash: Directory, ids: seq<string>)
    ensures var moved := MoveAll(live, trash, ids);
            RootsReadable(live, trash, true) <==>
            RootsReadable(moved.0, moved.1, true) && AllReadable(live.indexes, live.manifests.Keys * Ids(ids))
  {
    MoveAllIs(live, trash, ids);
    StillReadable(live, Ids(ids));
  }

  lemma StillReadable(live: Directory, gone: set<string>)
    ensures AllReadable(live.indexes - gone, live.manifests.Keys - gone) <==>
            AllReadable(live.indexes, live.manifests.Keys - gone)
    ensures AllReadable(live.indexes, live.manifests.Keys) <==>
            && AllReadable(live.indexes, live.manifests.Keys - gone)
            && AllReadable(live.indexes, live.manifests.Keys * gone)
    ensures (live.manifests - gone).Keys == live.manifests.Keys - gone
  {
    assert forall id | id in live.manifests.Keys - gone && id in live.indexes ::
        id in live.indexes - gone && (live.indexes - gone)[id] == live.indexes[id];
    assert forall id | id in live.manifests :: id in live.manifests.Keys - gone || id in live.manifests.Keys * gone;
  }

  /** With the trash kept the real run reads those that it has moved, where there are any. */
  lemma KeptTrashReadableIff(live: Directory, trash: Directory, ids: seq<string>)
    requires FromLive(live, trash, ids)
    ensures var moved := MoveAll(live, trash, ids);
            RootsReadable(live, trash, false) <==>
            RootsReadable(moved.0, moved.1, false) && forall id | id in ids :: id in live.indexes
  {
    var moved := MoveAll(live, trash, ids);
    MoveAllIs(live, trash, ids);
    StillReadable(live, Ids(ids));
    forall id
      ensures id in TrashedIds(moved.1) <==> id in TrashedIds(trash) || (id in Ids(ids) && id in live.indexes)
      ensures id in TrashedIds(trash) ==> moved.1.indexes[id] == trash.indexes[id]
      ensures id in Ids(ids) && id in live.indexes ==> moved.1.indexes[id] == live.indexes[id]
    {
      InTheTrash(live, trash, ids, id);
    }
  }

  lemma InTheTrash(live: Directory, trash: Directory, ids: seq<string>, id: string)
    requires FromLive(live, trash, ids)
    ensures var after := MoveAll(live, trash, ids).1;
            && (id in TrashedIds(after) <==> id in TrashedIds(trash) || (id in Ids(ids) && id in live.indexes))
            && (id in TrashedIds(trash) ==> after.indexes[id] == trash.indexes[id])
            && (id in Ids(ids) && id in live.indexes ==> after.indexes[id] == live.indexes[id])
  {
    MoveAllIs(live, trash, ids);
  }

  // ---------------------------------------------------------- with both runs

  /** Live snapshots, as retention selects them, none of whose indexes is in the trash as well. */
  ghost predicate FromLive(live: Directory, trash: Directory, ids: seq<string>) {
    && Ids(ids) <= live.manifests.Keys && live.indexes.Keys * Ids(ids) !! trash.indexes.Keys
    && forall id | id in ids :: ValidSnapshotID(id)
  }

  /** Both runs can prune, and their five figures are the same. */
  ghost predicate Foretold(objects: map<Hash, Object>, live: Directory, trash: Directory, ids: seq<string>,
                           emptyTrash: bool, cutoff: int)
  {
    var moved := MoveAll(live, trash, ids);
    && RootsReadable(live, trash, emptyTrash) && RootsReadable(moved.0, moved.1, emptyTrash)
    && Expected(objects, Roots(live, trash, emptyTrash), cutoff) ==
       Expected(objects, Roots(moved.0, moved.1, emptyTrash), cutoff)
  }

  /** When the trash is to be emptied, the dry run foretells the real one exactly if it can read every index, those of
      the selected snapshots too, and every hash a selected snapshot names is named by one that stays. It never counts
      too many deletions, and as many as there will be exactly if what only the selected ones name is not stored or not
      old enough. */
  lemma ForetellsIff(objects: map<Hash, Object>, live: Directory, trash: Directory, ids: seq<string>, cutoff: int)
    ensures Foretold(objects, live, trash, ids, true, cutoff) <==>
            RootsReadable(live, trash, true) && NamedByOthers(live, Ids(ids))
    ensures var moved := MoveAll(live, trash, ids);
            var planned, actual := Roots(live, trash, true), Roots(moved.0, moved.1, true);
            && |Doomed(objects, planned, cutoff)| <= |Doomed(objects, actual, cutoff)|
            && (|Doomed(objects, planned, cutoff)| == |Doomed(objects, actual, cutoff)| <==>
                  forall h | h in planned - actual && h in objects :: objects[h].modTime > cutoff)
  {
    var moved := MoveAll(live, trash, ids);
    RootsOfTheRest(live, trash, ids);
    FewerRoots(objects, Roots(live, trash, true), Roots(moved.0, moved.1, true), cutoff);
  }

  /** With the trash kept, forgetting takes no root away and adds none, so that the dry run foretells the real one
      exactly if it can read every index. */
  lemma KeptTrashForetellsIff(objects: map<Hash, Object>, live: Directory, trash: Directory, ids: seq<string>,
                              cutoff: int)
    requires FromLive(live, trash, ids)
    ensures Foretold(objects, live, trash, ids, false, cutoff) <==> RootsReadable(live, trash, false)
  {
    KeptTrashKeepsRoots(live, trash, ids);
    KeptTrashReadableIff(live, trash, ids);
  }

  lemma KeptTrashKeepsRoots(live: Directory, trash: Directory, ids: seq<string>)
    requires Ids(ids) <= live.manifests.Keys && live.indexes.Keys * Ids(ids) !! trash.indexes.Keys
    requires forall id | id in ids :: ValidSnapshotID(id)
    ensures var moved := MoveAll(live, trash, ids);
            Roots(live, trash, false) == Roots(moved.0, moved.1, false)
  {
    var moved, gone := MoveAll(live, trash, ids), Ids(ids);
    var kept, lost := live.manifests.Keys - gone, live.manifests.Keys * gone;
    RootsOfTheRest(live, trash, ids);
    ReferencedWithout(live.indexes, live.manifests.Keys, gone);
    assert ReferencedBy(moved.1.indexes, TrashedIds(moved.1)) ==
           ReferencedBy(trash.indexes, TrashedIds(trash)) + ReferencedBy(live.indexes, lost) by {
      forall h ensures h in ReferencedBy(moved.1.indexes, TrashedIds(moved.1)) <==>
                       h in ReferencedBy(trash.indexes, TrashedIds(trash)) || h in ReferencedBy(live.indexes, lost)
      {
        NowInTheTrash(live, trash, ids, h);
      }
    }
    SameUnion(ReferencedBy(live.indexes, kept), ReferencedBy(live.indexes, lost),
              ReferencedBy(trash.indexes, TrashedIds(trash)));
  }

  lemma SameUnion(a: set<Hash>, b: set<Hash>, c: set<Hash>)
    ensures b + a + c == a + (c + b)
  {
  }

  lemma NowInTheTrash(live: Directory, trash: Directory, ids: seq<string>, h: Hash)
    requires Ids(ids) <= live.manifests.Keys && live.indexes.Keys * Ids(ids) !! trash.indexes.Keys
    requires forall id | id in ids :: ValidSnapshotID(id)
    ensures var moved := MoveAll(live, trash, ids);
            h in ReferencedBy(moved.1.indexes, TrashedIds(moved.1)) <==>
            h in ReferencedBy(trash.indexes, TrashedIds(trash)) ||
            h in ReferencedBy(live.indexes, live.manifests.Keys * Ids(ids))
  {
    MoveAllIs(live, trash, ids);
    var after, gone := MoveAll(live, trash, ids).1, Ids(ids);
    if h in ReferencedBy(after.indexes, TrashedIds(after)) {
      var id :| id in TrashedIds(after) && id in after.indexes && h in Referenced(after.indexes[id].entries);
      if id in gone && id in live.indexes {
        assert id in live.manifests.Keys * gone && h in Referenced(live.indexes[id].entries);
      } else {
        assert id in TrashedIds(trash) && h in Referenced(trash.indexes[id].entries);
      }
    }
    if h in ReferencedBy(trash.indexes, TrashedIds(trash)) {
      var id :| id in TrashedIds(trash) && id in trash.indexes && h in Referenced(trash.indexes[id].entries);
      assert id in TrashedIds(after) && after.indexes[id] == trash.indexes[id];
    }
    if h in ReferencedBy(live.indexes, live.manifests.Keys * gone) {
      var id :| id in live.manifests.Keys * gone && id in live.indexes && h in Referenced(live.indexes[id].entries);
      assert id in TrashedIds(after) && after.indexes[id] == live.indexes[id];
    }
  }

  /** Both runs prune, and their reports have the same five figures. */
  predicate Agree(dry: Gc.Result<Housekept>, done: Gc.Result<Housekept>) {
    && dry.Ok? && done.Ok? && dry.value.prune.Some? && done.value.prune.Some?
    && dry.value.prune.value.figures == done.value.prune.value.figures
  }

  /** One daily pass over a repository in a given state, with everything but the check asked for. */
  method DailyPass(objects: map<Hash, Object>, live: Directory, trash: Directory, req: Request, ids: seq<string>,
                   now: int) returns (r: Gc.Result<Housekept>)
    requires req.forget && req.prune && forall id | id in ids :: ValidSnapshotID(id)
    ensures var left := if req.dryRun then (live, trash) else MoveAll(live, trash, ids);
            && (r.Ok? <==> CheckLetsOn(live, objects, req) && RootsReadable(left.0, left.1, req.emptyTrash))
            && (r.Ok? ==> r.value.prune.Some? && r.value.prune.value.figures ==
                            Expected(objects, Roots(left.0, left.1, req.emptyTrash), Cutoff(now, 0)))
  {
    StopsAt(ids, |ids|);
    assert ids[..|ids|] == ids;
    var repo := new Repository(objects, live, trash);
    r := repo.Housekeeping(req, Wrappers.Ok(ids), now);
  }

  /** The same pass as a dry run and for real, on the same repository. */
  method BothWays(objects: map<Hash, Object>, live: Directory, trash: Directory, req: Request, ids: seq<string>,
                  now: int) returns (dry: Gc.Result<Housekept>, done: Gc.Result<Housekept>)
    requires req.forget && req.prune && forall id | id in ids :: ValidSnapshotID(id)
    ensures var moved := MoveAll(live, trash, ids);
            && (dry.Ok? <==> CheckLetsOn(live, objects, req) && RootsReadable(live, trash, req.emptyTrash))
            && (done.Ok? <==> CheckLetsOn(live, objects, req) && RootsReadable(moved.0, moved.1, req.emptyTrash))
    ensures req.emptyTrash ==>
              (Agree(dry, done) <==>
                 CheckLetsOn(live, objects, req) && RootsReadable(live, trash, true) && NamedByOthers(live, Ids(ids)))
    ensures !req.emptyTrash && FromLive(live, trash, ids) ==>
              (Agree(dry, done) <==> CheckLetsOn(live, objects, req) && RootsReadable(live, trash, false))
  {
    dry := DailyPass(objects, live, trash, req.(dryRun := true), ids, now);
    done := DailyPass(objects, live, trash, req.(dryRun := false), ids, now);
    ForetellsIff(objects, live, trash, ids, Cutoff(now, 0));
    if FromLive(live, trash, ids) {
      KeptTrashForetellsIff(objects, live, trash, ids, Cutoff(now, 0));
    }
  }

  // ------------------------------------------------------ the least that fails

  lemma MovedOne(live: Directory, id: string)
    requires live.manifests.Keys == {id} && live.indexes.Keys <= {id}
    ensures MoveAll(live, EMPTY_DIRECTORY, [id]).0 == EMPTY_DIRECTORY
    ensures MoveAll(live, EMPTY_DIRECTORY, [id]).1.indexes == live.indexes
  {
    MoveAllIs(live, EMPTY_DIRECTORY, [id]);
    assert Ids([id]) == {id};
    assert live.manifests - {id} == map[] && live.indexes - {id} == map[];
  }

  /** One snapshot, which is selected and alone names the one object there is; that is old enough, and the trash is to
      be emptied. The dry run reports that nothing would be deleted, the real run deletes the object. */
  method Understates(id: string, e: Entry, size: nat, now: int) returns (dry: PruneReport, done: PruneReport)
    requires ValidSnapshotID(id) && Refers(e)
    ensures dry.figures.deleted == 0 && done.figures.deleted == 1
  {
    var objects := map[e.hash := Object(size, Cutoff(now, 0), HashesTo(e.hash))];
    var live := Directory(map[id := 1], map[id := IndexFile(1, [e], true)]);
    MovedOne(live, id);
    OnlyOneRoot(live, id, e);
    var req := Request(false, false, true, true, true, true);
    var first := DailyPass(objects, live, EMPTY_DIRECTORY, req, [id], now);
    var second := DailyPass(objects, live, EMPTY_DIRECTORY, req.(dryRun := false), [id], now);
    dry, done := first.value.prune.value, second.value.prune.value;
    assert Doomed(objects, {e.hash}, Cutoff(now, 0)) == {} && Doomed(objects, {}, Cutoff(now, 0)) == {e.hash};
  }

  lemma OnlyOneRoot(live: Directory, id: string, e: Entry)
    requires live == Directory(map[id := 1], map[id := IndexFile(1, [e], true)]) && Refers(e)
    ensures Roots(live, EMPTY_DIRECTORY, true) == {e.hash} && RootsReadable(live, EMPTY_DIRECTORY, true)
    ensures Roots(EMPTY_DIRECTORY, EMPTY_DIRECTORY, true) == {}
  {
    assert live.indexes[id].entries == [e] && e in live.indexes[id].entries;
    assert e.hash in Referenced(live.indexes[id].entries);
  }

  /** One snapshot, which is selected and has lost its index. The dry run fails on that index, the real run has moved
      the manifest away before it looks, and succeeds, whether the trash is emptied or kept. */
  method FailsAlone(objects: map<Hash, Object>, id: string, emptyTrash: bool, now: int)
    returns (dry: Gc.Result<Housekept>, done: Gc.Result<Housekept>)
    requires ValidSnapshotID(id)
    ensures NamedByOthers(Directory(map[id := 1], map[]), {id}) && dry.Err? && done.Ok?
  {
    var live := Directory(map[id := 1], map[]);
    MovedOne(live, id);
    assert id in live.manifests.Keys && id !in live.indexes;
    var req := Request(false, false, true, true, emptyTrash, true);
    dry, done := BothWays(objects, live, EMPTY_DIRECTORY, req, [id], now);
  }
}
