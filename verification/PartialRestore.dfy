/** Restoring part of a snapshot, by paths or by patterns: the request is checked, the snapshot's entries are selected,
    and what is selected is restored. */
module PartialRestore {
  import opened Text
  import opened Index
  import opened Paths
  import Glob
  import ObjectStore
  import Restore
  import Selection
  import opened Wrappers

  type Result<T> = Wrappers.Result<T, Failure>

  datatype Failure =
    | BothGiven
    | BadRequest(path: Selection.PathError)
    | NotFound(missing: seq<string>)
    | NotRestored(why: Restore.Error)

  lemma {:induction false} AcceptedIs(paths: seq<string>, dirs: set<string>, entries: seq<Entry>, e: Entry)
    ensures e in Selection.Accepted(paths, dirs, entries) <==> e in entries && Selection.Accepts(paths, dirs, e)
  {
    if entries != [] {
      var rest, last := entries[..|entries| - 1], entries[|entries| - 1];
      AcceptedIs(paths, dirs, rest, e);
      assert entries == rest + [last];
    }
  }

  lemma {:induction false} AskedForIs(requested: set<string>, entries: seq<Entry>, e: Entry)
    ensures e in Selection.AllAskedFor(requested, entries) <==> e in entries && Selection.AskedFor(requested, e)
  {
    if entries != [] {
      var rest, last := entries[..|entries| - 1], entries[|entries| - 1];
      AskedForIs(requested, rest, e);
      assert entries == rest + [last];
    }
  }

  lemma OrderedWithLast(entries: seq<Entry>, last: Entry)
    requires PathOrdered(entries) && Relative(last.path) && forall e | e in entries :: Less(e.path, last.path)
    ensures PathOrdered(entries + [last])
  {
  }

  lemma {:induction false} AcceptedIsOrdered(paths: seq<string>, dirs: set<string>, entries: seq<Entry>)
    requires PathOrdered(entries)
    ensures PathOrdered(Selection.Accepted(paths, dirs, entries))
  {
    if entries != [] {
      var rest, last := entries[..|entries| - 1], entries[|entries| - 1];
      AcceptedIsOrdered(paths, dirs, rest);
      forall e | e in Selection.Accepted(paths, dirs, rest) ensures Less(e.path, last.path) {
        AcceptedIs(paths, dirs, rest, e);
      }
      OrderedWithLast(Selection.Accepted(paths, dirs, rest), last);
    }
  }

  /** The entries the patterns match. */
  function Matching(patterns: seq<Glob.Pattern>, entries: seq<Entry>): seq<Entry> {
    if entries == [] then []
    else
      var rest, last := entries[..|entries| - 1], entries[|entries| - 1];
      Matching(patterns, rest) + if Glob.Excluded(patterns, last.path) then [last] else []
  }

  lemma {:induction false} MatchingIs(patterns: seq<Glob.Pattern>, entries: seq<Entry>, e: Entry)
    ensures e in Matching(patterns, entries) <==> e in entries && Glob.Excluded(patterns, e.path)
  {
    if entries != [] {
      var rest, last := entries[..|entries| - 1], entries[|entries| - 1];
      MatchingIs(patterns, rest, e);
      assert entries == rest + [last];
    }
  }

  lemma {:induction false} MatchingIsOrdered(patterns: seq<Glob.Pattern>, entries: seq<Entry>)
    requires PathOrdered(entries)
    ensures PathOrdered(Matching(patterns, entries))
  {
    if entries != [] {
      var rest, last := entries[..|entries| - 1], entries[|entries| - 1];
      MatchingIsOrdered(patterns, rest);
      forall e | e in Matching(patterns, rest) ensures Less(e.path, last.path) {
        MatchingIs(patterns, rest, e);
      }
      OrderedWithLast(Matching(patterns, rest), last);
    }
  }

  method CollectMatching(patterns: seq<Glob.Pattern>, entries: seq<Entry>) returns (out: seq<Entry>)
    requires forall e | e in entries :: Relative(e.path)
    ensures out == Matching(patterns, entries)
  {
    out := [];
    for n := 0 to |entries|
      invariant out == Matching(patterns, entries[..n])
    {
      assert entries[..n + 1][..n] == entries[..n];
      assert entries[n] in entries;
      var matched := Glob.Match(patterns, entries[n].path);
      if matched {
        out := out + [entries[n]];
      }
    }
    assert entries[..|entries|] == entries;
  }

  /** With an entry its directory is asked for. */
  lemma ParentIsAskedFor(requested: set<string>, e: Entry, d: Entry)
    requires Relative(e.path) && ParentOf(e.path) != "" && d.path == ParentOf(e.path) && d.kind.Dir?
    requires Selection.AskedFor(requested, e)
    ensures Selection.AskedFor(requested, d)
  {
    AllAboveTheParent(e.path);
    if p :| p in requested && AtOrBelow(e.path, p) {
      assert p == e.path ==> Below(p, d.path);
      assert p != e.path && p != "" ==> AtOrBelow(d.path, p);
    } else {
      var p :| p in requested && Below(p, e.path);
      BelowIsTransitive(p, e.path, d.path);
    }
  }

  lemma AskedForHasParents(requested: set<string>, entries: seq<Entry>)
    requires PathOrdered(entries) && WithParents(entries)
    ensures WithParents(Selection.AllAskedFor(requested, entries))
  {
    var asked := Selection.AllAskedFor(requested, entries);
    forall e | e in asked && ParentOf(e.path) != ""
      ensures exists d :: d in asked && d.path == ParentOf(e.path) && d.kind.Dir?
    {
      AskedForIs(requested, entries, e);
      var d :| d in entries && d.path == ParentOf(e.path) && d.kind.Dir?;
      ParentIsAskedFor(requested, e, d);
      AskedForIs(requested, entries, d);
    }
  }

  /** What is restored of a request is the full restore, cut down to what was asked for. */
  lemma PartialIsAPart(codec: ObjectStore.Codec, objects: map<Hash, Bytes>, requested: set<string>, entries: seq<Entry>,
                       p: string)
    requires PathOrdered(entries) && PathOrdered(Selection.AllAskedFor(requested, entries))
    ensures var part := Restore.Restored(codec, objects, Selection.AllAskedFor(requested, entries));
            var whole := Restore.Restored(codec, objects, entries);
            && (p in part <==> exists e :: e in entries && e.path == p && Selection.AskedFor(requested, e))
            && (p in part ==> p in whole && part[p] == whole[p])
  {
    var asked := Selection.AllAskedFor(requested, entries);
    if p in Restore.Restored(codec, objects, asked) {
      Restore.RestoredHasNothingElse(codec, objects, asked, p);
      var e :| e in asked && e.path == p;
      AskedForIs(requested, entries, e);
      Restore.RestoredIsExact(codec, objects, asked, e);
      Restore.RestoredIsExact(codec, objects, entries, e);
    }
    if e :| e in entries && e.path == p && Selection.AskedFor(requested, e) {
      AskedForIs(requested, entries, e);
      Restore.RestoredIsExact(codec, objects, asked, e);
    }
  }

  /** The paths a request comes down to. */
  ghost function Requested(request: seq<string>): set<string> {
    var cleaned := Selection.Cleaned(request);
    if cleaned.Ok? then Strings(cleaned.value) else {}
  }

  /** The entries that are wanted; no request means all of them. */
  ghost function Wanted(request: seq<string>, entries: seq<Entry>): seq<Entry> {
    if request == [] then entries else Selection.AllAskedFor(Requested(request), entries)
  }

  /** What an exact request of paths selects brings its directories along, so that the tree holds nothing else. */
  lemma WantedIsWhole(codec: ObjectStore.Codec, objects: map<Hash, Bytes>, request: seq<string>, entries: seq<Entry>,
                      nodes: map<string, Restore.Node>)
    requires PathOrdered(entries) && WithParents(entries) && PathOrdered(Wanted(request, entries))
    requires Restore.RestoredAs(codec, objects, Wanted(request, entries), nodes)
    ensures nodes == Restore.Restored(codec, objects, Wanted(request, entries))
  {
    if request != [] {
      AskedForHasParents(Requested(request), entries);
    }
    Restore.ClosedIsWhole(codec, objects, Wanted(request, entries), nodes);
  }

  /** Whatever part of an index is restored: the tree has exactly what was selected and the directories above it, and is
      the full restore there, but for the modes of directories that were not selected themselves. */
  lemma AnyPartIsAPart(codec: ObjectStore.Codec, objects: map<Hash, Bytes>, entries: seq<Entry>, selected: seq<Entry>,
                       nodes: map<string, Restore.Node>, p: string)
    requires PathOrdered(entries) && WithParents(entries)
    requires PathOrdered(selected) && forall e | e in selected :: e in entries
    requires Restore.RestoredAs(codec, objects, selected, nodes)
    ensures p in nodes <==> p != "" && exists e :: e in selected && AtOrBelow(e.path, p)
    ensures var whole := Restore.Restored(codec, objects, entries);
            p in nodes ==>
              && p in whole
              && if exists e :: e in selected && e.path == p then nodes[p] == whole[p]
                 else nodes[p].DirNode? && whole[p].DirNode?
  {
    if e :| e in selected && e.path == p {
      Restore.RestoredIsExact(codec, objects, selected, e);
      Restore.RestoredIsExact(codec, objects, entries, e);
    } else if p in nodes {
      if p in Restore.Restored(codec, objects, selected) {
        Restore.RestoredHasNothingElse(codec, objects, selected, p);
      }
      var e :| e in selected && Below(e.path, p);
      Restore.ListedAbove(entries, e, p);
      var d :| d in entries && d.path == p && d.kind.Dir?;
      Restore.RestoredIsExact(codec, objects, entries, d);
    }
  }

  /** No path that the request comes down to continues another one with a character that sorts before '/'. */
  ghost predicate Exact(request: seq<string>) {
    Selection.Separated(Selection.Cover(Requested(request)))
  }

  /** The snapshot holds something of every path. */
  ghost predicate AllFound(request: seq<string>, entries: seq<Entry>) {
    forall m | m in Selection.Cover(Requested(request)) :: Selection.Holds(entries, m)
  }

  /** What a request selects, by patterns, by paths, or everything. */
  ghost predicate Selects(patterns: Option<seq<Glob.Pattern>>, request: seq<string>, entries: seq<Entry>,
                          selected: seq<Entry>)
  {
    if patterns.Some? then selected == Matching(patterns.value, entries)
    else if request == [] then selected == entries
    else
      exists paths, dirs :: Selection.MadeFrom(Requested(request), paths, dirs) &&
                            selected == Selection.Accepted(paths, dirs, entries)
  }

  /** The request is one of the two kinds, and its paths are as they have to be. */
  predicate WellFormed(patterns: Option<seq<Glob.Pattern>>, request: seq<string>) {
    (patterns.None? || request == []) && Selection.Cleaned(request).Ok?
  }

  /** The entries to restore, or what is wrong with the request, or the paths nothing was found of. */
  method Select(entries: seq<Entry>, patterns: Option<seq<Glob.Pattern>>, request: seq<string>)
    returns (r: Result<seq<Entry>>)
    requires PathOrdered(entries)
    ensures !WellFormed(patterns, request) ==> r == Err(Malformed(patterns, request))
    ensures WellFormed(patterns, request) && r.Err? ==> r.error.NotFound? && request != []
    ensures r.Ok? ==> PathOrdered(r.value) && Selects(patterns, request, entries, r.value)
    ensures r.Ok? ==> forall e | e in r.value :: e in entries
    ensures Exact(request) && patterns.None? && r.Ok? ==> r.value == Wanted(request, entries)
    ensures Exact(request) && WellFormed(patterns, request) ==>
              && (r.Ok? <==> AllFound(request, entries))
              && (r.Err? ==> forall m :: m in r.error.missing <==>
                               m in Selection.Cover(Requested(request)) && !Selection.Holds(entries, m))
  {
    if patterns.Some? && request != [] {
      return Err(BothGiven);
    }
    var made := Selection.NewSelection(request);
    if made.Err? {
      return Err(BadRequest(made.error));
    }
    var sel := made.value;
    if sel != null {
      r := SelectPaths(entries, request, sel);
    } else if patterns.Some? {
      var out := CollectMatching(patterns.value, entries);
      MatchingIsOrdered(patterns.value, entries);
      forall e | e in out ensures e in entries {
        MatchingIs(patterns.value, entries, e);
      }
      r := Ok(out);
    } else {
      r := Ok(entries);
    }
  }

  function Malformed(patterns: Option<seq<Glob.Pattern>>, request: seq<string>): Failure
    requires !WellFormed(patterns, request)
  {
    if patterns.Some? && request != [] then BothGiven else BadRequest(Selection.Cleaned(request).error)
  }

  method SelectPaths(entries: seq<Entry>, request: seq<string>, sel: Selection.Selection) returns (r: Result<seq<Entry>>)
    requires PathOrdered(entries) && request != []
    requires sel.Valid() && sel.matched == {} && Selection.MadeFrom(Requested(request), sel.paths, sel.dirs)
    modifies sel`matched
    ensures r.Err? ==> r.error.NotFound?
    ensures r.Ok? ==> PathOrdered(r.value) && r.value == Selection.Accepted(sel.paths, sel.dirs, entries)
    ensures r.Ok? ==> forall e | e in r.value :: e in entries
    ensures Exact(request) ==>
              && (r.Ok? <==> AllFound(request, entries))
              && (r.Ok? ==> r.value == Wanted(request, entries))
              && (r.Err? ==> forall m :: m in r.error.missing <==>
                               m in Selection.Cover(Requested(request)) && !Selection.Holds(entries, m))
  {
    var selected, missing := Selection.CollectAndReport(sel, entries, Requested(request));
    if missing != [] {
      assert missing[0] in missing;
      return Err(NotFound(missing));
    }
    AcceptedIsOrdered(sel.paths, sel.dirs, entries);
    forall e | e in selected ensures e in entries {
      AcceptedIs(sel.paths, sel.dirs, entries, e);
    }
    r := Ok(selected);
  }

  /** The report counts the entries selected. */
  ghost predicate Tells(rep: Restore.Report, selected: seq<Entry>, opts: Restore.Options) {
    var c := Restore.Counted(selected);
    && (rep.files, rep.dirs, rep.symlinks, rep.bytes) == (c.files, c.dirs, c.symlinks, c.bytes)
    && rep.dryRun == opts.dryRun && rep.verified == if opts.dryRun then 0 else c.files
  }

  /** Each of the entries is in place. */
  ghost predicate InPlace(codec: ObjectStore.Codec, objects: map<Hash, Bytes>, nodes: map<string, Restore.Node>,
                          selected: seq<Entry>)
  {
    forall e | e in selected ::
      if e.kind.Dir? then Restore.IsDir(nodes, e.path) else Restore.Written(codec, objects, nodes, e)
  }

  /** Each of the entries has its time, except those that belong to somebody else, which are counted. */
  ghost predicate Timely(nodes: map<string, Restore.Node>, times: map<string, int>, selected: seq<Entry>,
                         foreign: set<string>, refused: nat)
  {
    && refused == |Restore.RefusedOf(nodes, selected, foreign)|
    && forall e | e in selected && Restore.Timed(nodes, e) && e.path !in foreign ::
         e.path in times && times[e.path] == e.modTime
  }

  ghost predicate Restored(codec: ObjectStore.Codec, objects: map<Hash, Bytes>, nodes: map<string, Restore.Node>,
                           times: map<string, int>, selected: seq<Entry>, opts: Restore.Options, foreign: set<string>,
                           rep: Restore.Report)
  {
    && Tells(rep, selected, opts)
    && (!opts.dryRun ==> InPlace(codec, objects, nodes, selected))
    && if !opts.dryRun && opts.restoreTimes then Timely(nodes, times, selected, foreign, rep.refused)
       else rep.refused == 0
  }

  /** What comes of restoring what was selected. Of an index that is closed under parents into nothing, it succeeds
      exactly if everything selected is intact, and then the tree is that and the directories above it. */
  ghost predicate Outcome(store: ObjectStore.Store, entries: seq<Entry>, selected: seq<Entry>, opts: Restore.Options,
                          foreign: set<string>, before: map<string, Restore.Node>, after: map<string, Restore.Node>,
                          times: map<string, int>, r: Result<Restore.Report>)
    reads store
  {
    && (r.Ok? ==> Restored(store.codec, store.objects, after, times, selected, opts, foreign, r.value))
    && (r.Err? ==> r.error.NotRestored?)
    && (WithParents(entries) && before == map[] && !opts.dryRun ==>
          && (r.Ok? <==> Restore.AllIntact(store.codec, store.objects, selected))
          && (r.Ok? ==> Restore.RestoredAs(store.codec, store.objects, selected, after)))
  }

  lemma StillVouched(codec: ObjectStore.Codec, before: map<string, Restore.Node>, after: map<string, Restore.Node>,
                     selected: seq<Entry>, entries: seq<Entry>)
    requires Restore.AllVouched(codec, before, after, selected) && forall e | e in selected :: e in entries
    ensures Restore.AllVouched(codec, before, after, entries)
  {
  }

  /** In an index that is closed under parents nothing is in the way of any part of it. */
  lemma PartIsClear(entries: seq<Entry>, selected: seq<Entry>)
    requires PathOrdered(entries) && WithParents(entries) && forall e | e in selected :: e in entries
    ensures Restore.Clear(selected) && Restore.LinksAreLeaves(selected)
  {
    Restore.ClosedIsClear(entries);
  }

  method RestoreSelected(target: Restore.Target, store: ObjectStore.Store, entries: seq<Entry>, selected: seq<Entry>,
                         opts: Restore.Options, foreign: set<string>) returns (r: Result<Restore.Report>)
    requires PathOrdered(selected) && forall e | e in selected :: e in entries
    requires PathOrdered(entries) && (opts.dryRun || opts.overwrite || target.nodes == map[])
    modifies target
    ensures opts.dryRun ==> target.nodes == old(target.nodes)
    ensures Restore.AllVouched(store.codec, old(target.nodes), target.nodes, entries)
    ensures Outcome(store, entries, selected, opts, foreign, old(target.nodes), target.nodes, target.times, r)
  {
    if WithParents(entries) {
      PartIsClear(entries, selected);
    }
    var done := target.Run(store, selected, opts, foreign);
    StillVouched(store.codec, old(target.nodes), target.nodes, selected, entries);
    r := if done.Ok? then Ok(done.value) else Err(NotRestored(done.error));
  }

  /** Restores what is asked for. A malformed request, and one with a path the snapshot holds nothing of, changes
      nothing. */
  method Run(target: Restore.Target, store: ObjectStore.Store, entries: seq<Entry>,
             patterns: Option<seq<Glob.Pattern>>, request: seq<string>, opts: Restore.Options, foreign: set<string>)
    returns (r: Result<Restore.Report>)
    requires PathOrdered(entries)
    modifies target
    ensures !WellFormed(patterns, request) ==>
              r == Err(Malformed(patterns, request)) && target.nodes == old(target.nodes)
    ensures WellFormed(patterns, request) && !opts.dryRun && !opts.overwrite && old(target.nodes) != map[] ==>
              r == Err(NotRestored(Restore.NotEmpty)) && target.nodes == old(target.nodes)
    ensures opts.dryRun || (r.Err? && r.error.NotFound?) ==> target.nodes == old(target.nodes)
    ensures request == [] ==> !(r.Err? && r.error.NotFound?)
    ensures Exact(request) && r.Err? && r.error.NotFound? ==>
              forall m :: m in r.error.missing <==>
                m in Selection.Cover(Requested(request)) && !Selection.Holds(entries, m)
    ensures Restore.AllVouched(store.codec, old(target.nodes), target.nodes, entries)
    ensures WellFormed(patterns, request) && (opts.dryRun || opts.overwrite || old(target.nodes) == map[]) &&
            !(r.Err? && r.error.NotFound?) ==>
              exists selected :: Selects(patterns, request, entries, selected) &&
                Outcome(store, entries, selected, opts, foreign, old(target.nodes), target.nodes, target.times, r)
    ensures Exact(request) && WellFormed(patterns, request) && patterns.None? &&
            (opts.dryRun || opts.overwrite || old(target.nodes) == map[]) ==>
              && (r.Err? && r.error.NotFound? <==> !AllFound(request, entries))
              && (AllFound(request, entries) ==>
                    Outcome(store, entries, Wanted(request, entries), opts, foreign, old(target.nodes), target.nodes,
                            target.times, r))
  {
    var selected := Select(entries, patterns, request);
    if selected.Err? && !selected.error.NotFound? {
      return Err(selected.error);
    }
    if !opts.dryRun && !opts.overwrite && target.nodes != map[] {
      return Err(NotRestored(Restore.NotEmpty));
    }
    if selected.Err? {
      return Err(selected.error);
    }
    r := RestoreSelected(target, store, entries, selected.value, opts, foreign);
  }
}
