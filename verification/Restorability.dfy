/** What a check of the repository says about restoring from it. */
module Restorability {
  import opened Index
  import opened Paths
  import opened Text
  import Gc
  import ObjectStore
  import Restore

  /** The object files as the check sees them: which there are, and what their contents hash to. */
  ghost predicate Sees(codec: ObjectStore.Codec, stored: map<Hash, Bytes>, objects: map<Hash, Gc.Object>) {
    && objects.Keys == stored.Keys
    && forall h | h in stored ::
         objects[h].rehash == match ObjectStore.Plain(codec, stored[h])
                              case Ok(content) => Gc.HashesTo(codec.hash(content))
                              case Err(_) => Gc.Unreadable
  }

  /** The size of a file entry is that of its content, if there is one. The check does not look at it. */
  ghost predicate SizeAgrees(codec: ObjectStore.Codec, stored: map<Hash, Bytes>, e: Entry) {
    if e.hash == ZERO_HASH then e.size == 0
    else
      e.hash in stored && ObjectStore.Plain(codec, stored[e.hash]).Ok? ==>
        |ObjectStore.Plain(codec, stored[e.hash]).value| == e.size
  }

  ghost predicate SizesAgree(codec: ObjectStore.Codec, stored: map<Hash, Bytes>, live: Gc.Directory) {
    forall id, e | id in live.manifests && id in live.indexes && e in live.indexes[id].entries && e.kind.File? ::
      SizeAgrees(codec, stored, e)
  }

  /** A snapshot can be restored in full: its index is there, whole, every content it needs is intact, and no entry lies
      below one that is not a directory. Which hash the manifest states for the index does not matter to a restore. */
  ghost predicate Restorable(codec: ObjectStore.Codec, stored: map<Hash, Bytes>, live: Gc.Directory, id: string) {
    && id in live.indexes && live.indexes[id].whole
    && Restore.AllIntact(codec, stored, live.indexes[id].entries) && Restore.Clear(live.indexes[id].entries)
  }

  ghost predicate AllRestorable(codec: ObjectStore.Codec, stored: map<Hash, Bytes>, live: Gc.Directory) {
    forall id | id in live.manifests :: Restorable(codec, stored, live, id)
  }

  /** Every index is the one its manifest knows. Only the check looks at that. */
  predicate HashesAgree(live: Gc.Directory) {
    forall id | id in live.manifests && id in live.indexes :: live.indexes[id].fileHash == live.manifests[id]
  }

  /** In no index an entry lies below one that is not a directory, as in those that backups write. The check does not
      look at that either. */
  ghost predicate AllClear(live: Gc.Directory) {
    forall id | id in live.manifests && id in live.indexes :: Restore.Clear(live.indexes[id].entries)
  }

  /** Reads the index to its end and restores its entries into nothing. */
  method RestoreSnapshot(live: Gc.Directory, store: ObjectStore.Store, id: string, restoreTimes: bool,
                         foreign: set<string>) returns (target: Restore.Target, ok: bool)
    requires id in live.indexes ==>
               PathOrdered(live.indexes[id].entries) && Restore.LinksAreLeaves(live.indexes[id].entries)
    ensures ok <==> Restorable(store.codec, store.objects, live, id)
    ensures ok ==> Restore.RestoredAs(store.codec, store.objects, live.indexes[id].entries, target.nodes)
  {
    target := new Restore.Target();
    ok := id in live.indexes && live.indexes[id].whole;
    if ok {
      var r := target.Run(store, live.indexes[id].entries, Restore.Options(false, false, restoreTimes), foreign);
      ok := r.Ok?;
    }
  }

  lemma IntactIs(codec: ObjectStore.Codec, stored: map<Hash, Bytes>, objects: map<Hash, Gc.Object>, e: Entry)
    requires Sees(codec, stored, objects) && e.kind.File?
    ensures Restore.Intact(codec, stored, e) <==>
            SizeAgrees(codec, stored, e) && (Gc.Refers(e) ==> Gc.ObjectIntact(objects, e.hash, true))
  {
  }

  lemma NamedIs(live: Gc.Directory, h: Hash)
    ensures h in Gc.ReferencedBy(live.indexes, live.manifests.Keys) <==>
            exists id, e :: id in live.manifests && id in live.indexes && e in live.indexes[id].entries &&
                            Gc.Refers(e) && e.hash == h
  {
    if h in Gc.ReferencedBy(live.indexes, live.manifests.Keys) {
      var id :| id in live.manifests && id in live.indexes && h in Gc.Referenced(live.indexes[id].entries);
      var e :| e in live.indexes[id].entries && Gc.Refers(e) && e.hash == h;
    }
    if id, e :| id in live.manifests && id in live.indexes && e in live.indexes[id].entries &&
                Gc.Refers(e) && e.hash == h
    {
      assert h in Gc.Referenced(live.indexes[id].entries);
    }
  }

  /** A check that reads the data is clean, the sizes agree and nothing is in the way of an entry, exactly if every live
      snapshot can be restored and every index is the one its manifest knows. */
  lemma CheckedIsRestorableIff(codec: ObjectStore.Codec, stored: map<Hash, Bytes>, objects: map<Hash, Gc.Object>,
                               live: Gc.Directory)
    requires Sees(codec, stored, objects)
    ensures Gc.ChecksOut(live, objects, true) && SizesAgree(codec, stored, live) && AllClear(live) <==>
            AllRestorable(codec, stored, live) && HashesAgree(live)
  {
    if Gc.ChecksOut(live, objects, true) && SizesAgree(codec, stored, live) && AllClear(live) {
      forall id, e | id in live.manifests && e in live.indexes[id].entries && e.kind.File?
        ensures Restore.Intact(codec, stored, e)
      {
        IntactIs(codec, stored, objects, e);
        NamedIs(live, e.hash);
      }
    }
    if AllRestorable(codec, stored, live) {
      forall id, e | id in live.manifests && id in live.indexes && e in live.indexes[id].entries && e.kind.File?
        ensures SizeAgrees(codec, stored, e) && (Gc.Refers(e) ==> Gc.ObjectIntact(objects, e.hash, true))
      {
        assert Restorable(codec, stored, live, id);
        IntactIs(codec, stored, objects, e);
      }
      forall h | h in Gc.ReferencedBy(live.indexes, live.manifests.Keys) ensures Gc.ObjectIntact(objects, h, true) {
        NamedIs(live, h);
      }
      assert forall id | id in live.manifests :: Restorable(codec, stored, live, id);
    }
  }

  /** So for a check that reads the data: what it finds although everything can be restored are indexes with another
      hash, and what it misses although something cannot are sizes and entries below a file. */
  lemma WhatACheckGetsWrong(codec: ObjectStore.Codec, stored: map<Hash, Bytes>, objects: map<Hash, Gc.Object>,
                            live: Gc.Directory)
    requires Sees(codec, stored, objects)
    ensures !Gc.ChecksOut(live, objects, true) && AllRestorable(codec, stored, live) <==>
            AllRestorable(codec, stored, live) && !HashesAgree(live)
    ensures Gc.ChecksOut(live, objects, true) && !AllRestorable(codec, stored, live) <==>
            Gc.ChecksOut(live, objects, true) && !(SizesAgree(codec, stored, live) && AllClear(live))
  {
    CheckedIsRestorableIff(codec, stored, objects, live);
  }

  /** A stored object that hashes to something else passes a check that does not read it, and its file cannot be
      restored. */
  lemma UnreadDataPasses(codec: ObjectStore.Codec, stored: map<Hash, Bytes>, objects: map<Hash, Gc.Object>, id: string,
                         e: Entry, content: Bytes)
    requires Sees(codec, stored, objects) && Gc.Refers(e) && e.hash in stored
    requires ObjectStore.Plain(codec, stored[e.hash]).Ok? && ObjectStore.Plain(codec, stored[e.hash]).value == content
    requires codec.hash(content) != e.hash
    ensures var live := Gc.Directory(map[id := 1], map[id := Gc.IndexFile(1, [e], true)]);
            Gc.ChecksOut(live, objects, false) && !AllRestorable(codec, stored, live)
  {
    var live := Gc.Directory(map[id := 1], map[id := Gc.IndexFile(1, [e], true)]);
    assert e in live.indexes[id].entries && id in live.manifests;
    forall h | h in Gc.ReferencedBy(live.indexes, live.manifests.Keys) ensures h == e.hash {
      NamedIs(live, h);
    }
  }

  /** An entry with the wrong size passes even a check that reads the data, and cannot be restored. */
  lemma WrongSizePasses(codec: ObjectStore.Codec, stored: map<Hash, Bytes>, objects: map<Hash, Gc.Object>, id: string,
                        e: Entry, content: Bytes)
    requires Sees(codec, stored, objects) && Gc.Refers(e) && e.hash in stored
    requires ObjectStore.Plain(codec, stored[e.hash]).Ok? && ObjectStore.Plain(codec, stored[e.hash]).value == content
    requires codec.hash(content) == e.hash && |content| != e.size
    ensures var live := Gc.Directory(map[id := 1], map[id := Gc.IndexFile(1, [e], true)]);
            Gc.ChecksOut(live, objects, true) && !AllRestorable(codec, stored, live)
  {
    var live := Gc.Directory(map[id := 1], map[id := Gc.IndexFile(1, [e], true)]);
    assert e in live.indexes[id].entries && id in live.manifests;
    forall h | h in Gc.ReferencedBy(live.indexes, live.manifests.Keys) ensures h == e.hash {
      NamedIs(live, h);
    }
  }

  /** An entry below a file passes such a check too, though both are intact, and cannot be restored. */
  lemma BelowAFilePasses(codec: ObjectStore.Codec, stored: map<Hash, Bytes>, objects: map<Hash, Gc.Object>, id: string,
                         e: Entry, f: Entry)
    requires Sees(codec, stored, objects) && e.kind.File? && f.kind.File? && Below(f.path, e.path)
    requires Restore.Intact(codec, stored, e) && Restore.Intact(codec, stored, f)
    ensures var live := Gc.Directory(map[id := 1], map[id := Gc.IndexFile(1, [e, f], true)]);
            Gc.ChecksOut(live, objects, true) && !AllRestorable(codec, stored, live)
  {
    var live := Gc.Directory(map[id := 1], map[id := Gc.IndexFile(1, [e, f], true)]);
    assert live.indexes[id].entries == [e, f] && id in live.manifests;
    assert e in live.indexes[id].entries && f in live.indexes[id].entries;
    IntactIs(codec, stored, objects, e);
    IntactIs(codec, stored, objects, f);
    forall h | h in Gc.ReferencedBy(live.indexes, live.manifests.Keys) ensures Gc.ObjectIntact(objects, h, true) {
      NamedIs(live, h);
    }
  }

  lemma OneIsRestorable(codec: ObjectStore.Codec, stored: map<Hash, Bytes>, objects: map<Hash, Gc.Object>,
                        live: Gc.Directory, id: string, e: Entry)
    requires Relative(e.path) && (e.kind.File? ==> Restore.Intact(codec, stored, e))
    requires id in live.manifests && id in live.indexes && live.manifests[id] != live.indexes[id].fileHash
    requires live.indexes[id].whole && live.indexes[id].entries == [e]
    ensures Restorable(codec, stored, live, id) && !Gc.ChecksOut(live, objects, true)
    ensures PathOrdered(live.indexes[id].entries) && Restore.LinksAreLeaves(live.indexes[id].entries)
  {
    assert !Below(e.path, e.path);
    assert id in live.manifests.Keys;
  }

  /** A readable index whose hash is not the one in its manifest is reported, and its snapshot is restored all the
      same. */
  method OtherHashIsReported(store: ObjectStore.Store, objects: map<Hash, Gc.Object>, id: string, e: Entry,
                             other: Hash)
    returns (report: Gc.CheckReport, target: Restore.Target, ok: bool)
    requires Sees(store.codec, store.objects, objects) && other != 1 && Relative(e.path)
    requires e.kind.File? ==> Restore.Intact(store.codec, store.objects, e)
    ensures report.problems != [] && ok
    ensures Restore.RestoredAs(store.codec, store.objects, [e], target.nodes)
  {
    var live := Gc.Directory(map[id := other], map[id := Gc.IndexFile(1, [e], true)]);
    OneIsRestorable(store.codec, store.objects, objects, live, id, e);
    var repo := new Gc.Repository(objects, live, Gc.EMPTY_DIRECTORY);
    report := repo.Check(true);
    target, ok := RestoreSnapshot(live, store, id, false, {});
  }

  /** Checks the repository with its data and then restores a live snapshot into nothing. After a clean report that
      succeeds, and gives the restored tree, if the sizes agree. */
  method CheckAndRestore(repo: Gc.Repository, store: ObjectStore.Store, id: string, restoreTimes: bool,
                         foreign: set<string>)
    returns (report: Gc.CheckReport, target: Restore.Target, ok: bool)
    requires Sees(store.codec, store.objects, repo.objects) && id in repo.live.manifests
    requires id in repo.live.indexes ==>
               PathOrdered(repo.live.indexes[id].entries) && Restore.LinksAreLeaves(repo.live.indexes[id].entries)
    ensures ok <==> Restorable(store.codec, store.objects, repo.live, id)
    ensures report.problems == [] && SizesAgree(store.codec, store.objects, repo.live) && AllClear(repo.live) ==>
              ok && Restore.RestoredAs(store.codec, store.objects, repo.live.indexes[id].entries, target.nodes)
  {
    report := repo.Check(true);
    CheckedIsRestorableIff(store.codec, store.objects, repo.objects, repo.live);
    target, ok := RestoreSnapshot(repo.live, store, id, restoreTimes, foreign);
  }
}
