/** From a tree that keeps still, through a snapshot, to the restored tree. */
module RoundTrip {
  import opened Text
  import opened Index
  import opened Paths
  import Backup
  import ObjectStore
  import Restore
  import Scan

  /** What a walk's item stood for when the walk looked at it. */
  function Original(w: Backup.World, it: Scan.Item, seen: nat): Restore.Node {
    match it.kind
    case Dir => Restore.DirNode(it.mode)
    case Symlink => Restore.LinkNode(it.target)
    case File =>
      var v := w.At(it.path, seen);
      Restore.FileNode(it.mode, if v.Present? then v.content else [])
  }

  /** The tree the items stand for, on top of what is known of it already. */
  function Originals(w: Backup.World, known: map<string, Restore.Node>, items: seq<Scan.Item>, seen: map<string, nat>)
    : map<string, Restore.Node>
  {
    if items == [] then known
    else
      var rest, last := items[..|items| - 1], items[|items| - 1];
      Originals(w, known, rest, seen)[last.path := Original(w, last, Backup.LookedAt(seen, last.path))]
  }

  /** Cold items, then hot ones, as a run takes them. */
  function TreeOf(w: Backup.World, items: seq<Scan.Item>, seen: map<string, nat>): map<string, Restore.Node> {
    Originals(w, Originals(w, map[], Scan.Tier(items, false), seen), Scan.Tier(items, true), seen)
  }

  ghost predicate Depicted(codec: ObjectStore.Codec, entries: map<string, Entry>, tree: map<string, Restore.Node>) {
    && entries.Keys == tree.Keys
    && forall p | p in entries :: entries[p].path == p && Relative(p) && Restore.Depicts(codec, entries[p], tree[p])
  }

  lemma ItemIsDepicted(w: Backup.World, codec: ObjectStore.Codec, it: Scan.Item, seen: nat)
    requires w.Lawful() && codec.hash == w.hash
    requires it.kind.File? ==> w.Still(it.path, seen) && Backup.Describes(w, it, seen)
    ensures Restore.Depicts(codec, Backup.StillEntry(w, it, seen), Original(w, it, seen))
    ensures Backup.StillEntry(w, it, seen).path == it.path
  {
  }

  lemma {:induction false} ItemsAreDepicted(w: Backup.World, codec: ObjectStore.Codec, recorded: map<string, Entry>,
                                            known: map<string, Restore.Node>, items: seq<Scan.Item>,
                                            seen: map<string, nat>, now: nat)
    requires w.Lawful() && codec.hash == w.hash && Depicted(codec, recorded, known)
    requires Backup.Walked(w, items, seen, now) && Backup.AllStill(w, items, seen)
    requires forall it | it in items :: Relative(it.path)
    ensures Depicted(codec, Backup.StillEntries(w, recorded, items, seen), Originals(w, known, items, seen))
  {
    if items != [] {
      var rest, last := items[..|items| - 1], items[|items| - 1];
      ItemsAreDepicted(w, codec, recorded, known, rest, seen, now);
      ItemIsDepicted(w, codec, last, Backup.LookedAt(seen, last.path));
    }
  }

  lemma IndexDescribesTheTree(w: Backup.World, codec: ObjectStore.Codec, items: seq<Scan.Item>, seen: map<string, nat>,
                              now: nat, index: seq<Entry>)
    requires w.Lawful() && codec.hash == w.hash
    requires Backup.Walked(w, items, seen, now) && Backup.AllStill(w, items, seen)
    requires forall it | it in items :: Relative(it.path)
    requires Backup.Lists(index, Backup.StillIndex(w, items, seen))
    ensures PathOrdered(index) && Restore.Describe(codec, index, TreeOf(w, items, seen))
  {
    var cold, hot := Scan.Tier(items, false), Scan.Tier(items, true);
    Backup.SplitIsWalked(w, items, seen, now);
    Backup.TierOf(items, false);
    Backup.TierOf(items, true);
    ItemsAreDepicted(w, codec, map[], map[], cold, seen, now);
    ItemsAreDepicted(w, codec, Backup.StillEntries(w, map[], cold, seen), Originals(w, map[], cold, seen), hot, seen, now);
    DepictedDescribes(codec, index, Backup.StillIndex(w, items, seen), TreeOf(w, items, seen));
  }

  lemma DepictedDescribes(codec: ObjectStore.Codec, index: seq<Entry>, entries: map<string, Entry>,
                          tree: map<string, Restore.Node>)
    requires Backup.Lists(index, entries) && Depicted(codec, entries, tree)
    ensures PathOrdered(index) && Restore.Describe(codec, index, tree)
  {
    forall i, j | 0 <= i < j < |index| ensures Less(index[i].path, index[j].path) {
      assert Less(Backup.PathsOf(index)[i], Backup.PathsOf(index)[j]);
    }
    forall p | p in tree ensures exists e :: e in index && e.path == p {
      assert entries[p] in index;
    }
  }

  /** A complete snapshot of a still tree, restored into nothing, is that tree: every path, type, link target, file mode
      and byte, and every directory mode but for the owner's access. */
  lemma SnapshotThenRestore(w: Backup.World, store: ObjectStore.Store, items: seq<Scan.Item>, seen: map<string, nat>,
                            now: nat, index: seq<Entry>)
    requires w.Lawful() && store.codec.hash == w.hash && store.Valid() && store.codec.Addresses()
    requires Backup.Walked(w, items, seen, now) && Backup.AllStill(w, items, seen)
    requires forall it | it in items :: Relative(it.path)
    requires Backup.Lists(index, Backup.StillIndex(w, items, seen))
    requires forall e | e in index && e.kind.File? :: e.hash in store.objects
    ensures PathOrdered(index) && Restore.AllIntact(store.codec, store.objects, index)
    ensures var tree := TreeOf(w, items, seen);
            Restore.Restored(store.codec, store.objects, index) == map p | p in tree :: Restore.AsRestored(tree[p])
  {
    IndexDescribesTheTree(w, store.codec, items, seen, now, index);
    Restore.RestoringGivesTheTree(store, index, TreeOf(w, items, seen));
  }

  // ------------------------------------------- the index of a walk is whole

  predicate HasItem(items: seq<Scan.Item>, p: string) {
    exists it :: it in items && it.path == p
  }

  lemma {:induction false} StillEntriesHold(w: Backup.World, recorded: map<string, Entry>, items: seq<Scan.Item>,
                                            seen: map<string, nat>, p: string)
    ensures var entries := Backup.StillEntries(w, recorded, items, seen);
            && (p in entries <==> p in recorded || HasItem(items, p))
            && (p in entries && !HasItem(items, p) ==> entries[p] == recorded[p])
            && (HasItem(items, p) ==>
                  exists it :: it in items && it.path == p &&
                               entries[p] == Backup.StillEntry(w, it, Backup.LookedAt(seen, p)))
  {
    if items != [] {
      var rest, last := items[..|items| - 1], items[|items| - 1];
      assert items == rest + [last] && last in items;
      StillEntriesHold(w, recorded, rest, seen, p);
    }
  }

  lemma {:induction false} OriginalsHold(w: Backup.World, known: map<string, Restore.Node>, items: seq<Scan.Item>,
                                         seen: map<string, nat>, p: string)
    ensures var tree := Originals(w, known, items, seen);
            && (p in tree <==> p in known || HasItem(items, p))
            && (p in tree && !HasItem(items, p) ==> tree[p] == known[p])
            && (HasItem(items, p) ==>
                  exists it :: it in items && it.path == p && tree[p] == Original(w, it, Backup.LookedAt(seen, p)))
  {
    if items != [] {
      var rest, last := items[..|items| - 1], items[|items| - 1];
      assert items == rest + [last] && last in items;
      OriginalsHold(w, known, rest, seen, p);
    }
  }

  lemma {:induction false} InOneTier(items: seq<Scan.Item>, it: Scan.Item)
    requires it in items
    ensures it in Scan.Tier(items, it.hot)
  {
    var rest, last := items[..|items| - 1], items[|items| - 1];
    if it in rest {
      InOneTier(rest, it);
    } else {
      assert it == last;
    }
  }

  lemma TiersHaveTheItems(items: seq<Scan.Item>, p: string)
    ensures HasItem(items, p) <==> HasItem(Scan.Tier(items, false), p) || HasItem(Scan.Tier(items, true), p)
  {
    Backup.TierOf(items, false);
    Backup.TierOf(items, true);
    if it :| it in items && it.path == p {
      InOneTier(items, it);
    }
  }

  /** At each path the index and the tree have what the only item there stands for. */
  lemma StillIndexIs(w: Backup.World, items: seq<Scan.Item>, seen: map<string, nat>, p: string)
    ensures p in Backup.StillIndex(w, items, seen) <==> HasItem(items, p)
    ensures HasItem(items, p) ==>
              exists it :: it in items && it.path == p &&
                           Backup.StillIndex(w, items, seen)[p] == Backup.StillEntry(w, it, Backup.LookedAt(seen, p))
  {
    var cold, hot := Scan.Tier(items, false), Scan.Tier(items, true);
    TiersHaveTheItems(items, p);
    Backup.TierOf(items, false);
    Backup.TierOf(items, true);
    StillEntriesHold(w, map[], cold, seen, p);
    StillEntriesHold(w, Backup.StillEntries(w, map[], cold, seen), hot, seen, p);
  }

  lemma TreeOfIs(w: Backup.World, items: seq<Scan.Item>, seen: map<string, nat>, p: string)
    ensures p in TreeOf(w, items, seen) <==> HasItem(items, p)
    ensures HasItem(items, p) ==>
              exists it :: it in items && it.path == p &&
                           TreeOf(w, items, seen)[p] == Original(w, it, Backup.LookedAt(seen, p))
  {
    var cold, hot := Scan.Tier(items, false), Scan.Tier(items, true);
    TiersHaveTheItems(items, p);
    Backup.TierOf(items, false);
    Backup.TierOf(items, true);
    OriginalsHold(w, map[], cold, seen, p);
    OriginalsHold(w, Originals(w, map[], cold, seen), hot, seen, p);
  }

  lemma DirIsIndexed(w: Backup.World, items: seq<Scan.Item>, seen: map<string, nat>, index: seq<Entry>, d: Scan.Item)
    requires Scan.Unique(items) && d in items && d.kind.Dir?
    requires Backup.Lists(index, Backup.StillIndex(w, items, seen))
    ensures exists e :: e in index && e.path == d.path && e.kind.Dir?
  {
    StillIndexIs(w, items, seen, d.path);
    assert HasItem(items, d.path);
    var it :| it in items && it.path == d.path &&
              Backup.StillIndex(w, items, seen)[d.path] == Backup.StillEntry(w, it, Backup.LookedAt(seen, d.path));
    assert it == d;
    assert Backup.StillIndex(w, items, seen)[d.path] in index;
  }

  /** The index of a whole walk has every directory above one of its entries. */
  lemma WalkGivesParents(w: Backup.World, items: seq<Scan.Item>, seen: map<string, nat>, index: seq<Entry>)
    requires Scan.Complete(items) && Backup.Lists(index, Backup.StillIndex(w, items, seen))
    ensures WithParents(index)
  {
    forall e | e in index && ParentOf(e.path) != ""
      ensures exists d :: d in index && d.path == ParentOf(e.path) && d.kind.Dir?
    {
      StillIndexIs(w, items, seen, e.path);
      var it :| it in items && it.path == e.path;
      var d :| d in items && d.kind.Dir? && d.path == ParentOf(it.path);
      DirIsIndexed(w, items, seen, index, d);
    }
  }

  // --------------------------------------------------------- there and back

  /** The target holds what the items stood for when the walk looked at them, and nothing else. */
  ghost predicate HoldsTheTree(w: Backup.World, items: seq<Scan.Item>, seen: map<string, nat>,
                               nodes: map<string, Restore.Node>)
  {
    && (forall it | it in items ::
          it.path in nodes && nodes[it.path] == Restore.AsRestored(Original(w, it, Backup.LookedAt(seen, it.path))))
    && (forall p | p in nodes :: HasItem(items, p))
  }

  lemma TreeIsHeld(w: Backup.World, items: seq<Scan.Item>, seen: map<string, nat>, nodes: map<string, Restore.Node>)
    requires Scan.Unique(items)
    requires var tree := TreeOf(w, items, seen); nodes == map p | p in tree :: Restore.AsRestored(tree[p])
    ensures HoldsTheTree(w, items, seen, nodes)
  {
    forall it | it in items
      ensures it.path in nodes && nodes[it.path] == Restore.AsRestored(Original(w, it, Backup.LookedAt(seen, it.path)))
    {
      TreeOfIs(w, items, seen, it.path);
      assert HasItem(items, it.path);
    }
    forall p | p in nodes ensures HasItem(items, p) {
      TreeOfIs(w, items, seen, p);
    }
  }

  lemma SameItems(a: seq<Scan.Item>, b: seq<Scan.Item>)
    requires multiset(a) == multiset(b)
    ensures forall it :: it in a <==> it in b
  {
    forall it ensures it in a <==> it in b {
      assert it in multiset(a) <==> it in multiset(b);
    }
  }

  lemma SameTreeHeld(w: Backup.World, a: seq<Scan.Item>, b: seq<Scan.Item>, seen: map<string, nat>,
                     nodes: map<string, Restore.Node>)
    requires (forall it :: it in a <==> it in b) && HoldsTheTree(w, a, seen, nodes)
    ensures HoldsTheTree(w, b, seen, nodes)
  {
    forall p | p in nodes ensures HasItem(b, p) {
      var it :| it in a && it.path == p;
    }
  }

  /** Every directory belongs to somebody who may enter, list and change it. */
  ghost predicate OwnersHaveAccess(items: seq<Scan.Item>) {
    forall it | it in items && it.kind.Dir? :: it.mode & Restore.OWNER_ALL == Restore.OWNER_ALL
  }

  lemma ItemIsIndexed(w: Backup.World, items: seq<Scan.Item>, seen: map<string, nat>, index: seq<Entry>, it: Scan.Item)
    requires Scan.Unique(items) && Backup.Lists(index, Backup.StillIndex(w, items, seen)) && it in items
    ensures exists e :: e in index && e.kind == it.kind && e.mode == it.mode
  {
    StillIndexIs(w, items, seen, it.path);
    assert HasItem(items, it.path);
    assert Backup.StillIndex(w, items, seen)[it.path] in index;
  }

  lemma EntryIsAnItem(w: Backup.World, items: seq<Scan.Item>, seen: map<string, nat>, index: seq<Entry>, e: Entry)
    requires Backup.Lists(index, Backup.StillIndex(w, items, seen)) && e in index
    ensures exists it :: it in items && e.kind == it.kind && e.mode == it.mode
  {
    StillIndexIs(w, items, seen, e.path);
  }

  lemma SameModes(w: Backup.World, items: seq<Scan.Item>, seen: map<string, nat>, index: seq<Entry>)
    requires Scan.Unique(items) && Backup.Lists(index, Backup.StillIndex(w, items, seen))
    ensures (forall e | e in index && e.kind.Dir? :: e.mode & Restore.OWNER_ALL == Restore.OWNER_ALL) <==>
            OwnersHaveAccess(items)
  {
    forall it | it in items ensures exists e :: e in index && e.kind == it.kind && e.mode == it.mode {
      ItemIsIndexed(w, items, seen, index, it);
    }
    forall e | e in index ensures exists it :: it in items && e.kind == it.kind && e.mode == it.mode {
      EntryIsAnItem(w, items, seen, index, e);
    }
  }

  /** Restores the snapshot into nothing and verifies it. */
  method RestoreInto(repo: Backup.Repository, id: string, items: seq<Scan.Item>, clock: nat, restoreTimes: bool,
                     foreign: set<string>, ghost seen: map<string, nat>)
    returns (target: Restore.Target, diffs: seq<Restore.Difference>)
    requires repo.Valid() && repo.store.codec.Addresses() && id in repo.snapshots && Scan.Complete(items)
    requires Backup.Walked(repo.world, items, seen, clock) && Backup.AllStill(repo.world, items, seen)
    requires Backup.Lists(repo.snapshots[id].index, Backup.StillIndex(repo.world, items, seen))
    ensures HoldsTheTree(repo.world, items, seen, target.nodes)
    ensures diffs == [] <==> OwnersHaveAccess(items)
  {
    var index := repo.snapshots[id].index;
    WalkGivesParents(repo.world, items, seen, index);
    SnapshotThenRestore(repo.world, repo.store, items, seen, clock, index);
    target := new Restore.Target();
    var r := target.Run(repo.store, index, Restore.Options(false, false, restoreTimes), foreign);
    TreeIsHeld(repo.world, items, seen, target.nodes);
    diffs := target.Verify(repo.store.codec, index);
    Restore.VerifyAfterRestore(repo.store.codec, repo.store.objects, index);
    SameModes(repo.world, items, seen, index);
  }

  /** A run over a tree that keeps still, and a restore of its snapshot into nothing: the run commits, complete if the
      walk had nothing to warn of, and the target is the tree: every path, type, link target, file mode and byte, and
      every directory mode but for the owner's access. Verifying finds no difference exactly if that is nothing new. */
  method BackUpAndRestore(repo: Backup.Repository, opts: Scan.Options, root: seq<Scan.Child>, instance: string,
                          id: string, paranoid: bool, clock: nat, restoreTimes: bool, foreign: set<string>,
                          ghost seen: map<string, nat>)
    returns (target: Restore.Target, diffs: seq<Restore.Difference>)
    requires repo.Valid() && repo.store.codec.Addresses() && id !in repo.snapshots && Scan.AllProper(root)
    requires var items := Scan.WalkedChildren(opts, "", root).items;
             Backup.Walked(repo.world, items, seen, clock) && Backup.AllStill(repo.world, items, seen)
    modifies repo, repo.store
    ensures repo.Valid() && id in repo.snapshots
    ensures repo.snapshots[id].complete <==> Scan.WalkedChildren(opts, "", root).warnings == []
    ensures var items := Scan.WalkedChildren(opts, "", root).items;
            HoldsTheTree(repo.world, items, seen, target.nodes) && (diffs == [] <==> OwnersHaveAccess(items))
  {
    ghost var walked := Scan.WalkedChildren(opts, "", root).items;
    var report := Scan.Walk(opts, root);
    SameItems(report.items, walked);
    Scan.WalkIsComplete(opts, root, report.items);
    var committed := repo.Run(instance, id, paranoid, report.items, report.warnings, true, true, clock, seen);
    target, diffs := RestoreInto(repo, id, report.items, clock, restoreTimes, foreign, seen);
    SameTreeHeld(repo.world, report.items, walked, seen, target.nodes);
  }
}
