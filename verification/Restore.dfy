/** Writing a snapshot back out, checking every byte against the index, and comparing a tree with a snapshot. */
module Restore {
  import opened Text
  import opened Index
  import opened Paths
  import ObjectStore
  import opened Wrappers

  /** What is at a path below the target directory. */
  datatype Node = DirNode(mode: Mode) | FileNode(mode: Mode, content: Bytes) | LinkNode(target: string)

  const OWNER_ALL: Mode := 0x1C0
  const PLAIN_DIR: Mode := 0x1ED

  type Result<T> = Wrappers.Result<T, Error>

  datatype Error =
    | NotEmpty
    | CannotCreate(path: string)
    | NoHashButBytes(path: string)
    | Unreadable(path: string)
    | Corrupted(path: string)
    | WrongSize(path: string)

  datatype Report = Report(files: nat, dirs: nat, symlinks: nat, bytes: nat, verified: nat, refused: nat, dryRun: bool)

  // ------------------------------------------------------------------ entries

  /** The object a file entry names is there, whole, and as long as the entry says. */
  predicate Intact(codec: ObjectStore.Codec, objects: map<Hash, Bytes>, e: Entry) {
    if e.hash == ZERO_HASH then e.size == 0
    else
      e.hash in objects &&
      match ObjectStore.Plain(codec, objects[e.hash])
      case Ok(content) => codec.hash(content) == e.hash && |content| == e.size
      case Err(_) => false
  }

  /** The node is what the entry says. */
  predicate Matches(codec: ObjectStore.Codec, n: Node, e: Entry) {
    match e.kind
    case Dir => n.DirNode?
    case Symlink => n == LinkNode(e.target)
    case File =>
      && n.FileNode? && n.mode == e.mode && |n.content| == e.size
      && (e.hash != ZERO_HASH ==> codec.hash(n.content) == e.hash)
  }

  predicate Holds(codec: ObjectStore.Codec, nodes: map<string, Node>, e: Entry) {
    e.path in nodes && Matches(codec, nodes[e.path], e)
  }

  // --------------------------------------------------------------- the target

  /** The lowest thing that exists at or above the path, and it is not a directory. */
  ghost predicate InTheWay(nodes: map<string, Node>, path: string, d: string) {
    && d != "" && d in nodes && AtOrBelow(path, d) && !nodes[d].DirNode?
    && forall x | x != "" && x in nodes && AtOrBelow(path, x) :: AtOrBelow(d, x)
  }

  lemma OnlyItself(nodes: map<string, Node>, path: string)
    requires path != "" && path in nodes
    ensures (exists d :: InTheWay(nodes, path, d)) <==> !nodes[path].DirNode?
  {
    if !nodes[path].DirNode? {
      assert InTheWay(nodes, path, path);
    }
    if d :| InTheWay(nodes, path, d) {
      assert AtOrBelow(path, d) && AtOrBelow(d, path);
      assert d == path;
    }
  }

  lemma WayUp(nodes: map<string, Node>, path: string)
    requires Relative(path) && path !in nodes
    ensures (exists d :: InTheWay(nodes, path, d)) <==> exists d :: InTheWay(nodes, ParentOf(path), d)
  {
    AllAboveTheParent(path);
    forall x | x != "" && x in nodes ensures AtOrBelow(path, x) <==> AtOrBelow(ParentOf(path), x) {
    }
    if d :| InTheWay(nodes, path, d) {
      assert InTheWay(nodes, ParentOf(path), d);
    }
    if d :| InTheWay(nodes, ParentOf(path), d) {
      assert InTheWay(nodes, path, d);
    }
  }

  /** With a path, all directories above it are there. */
  ghost predicate UpClosed(nodes: map<string, Node>) {
    forall p, q | p in nodes && q != "" && Below(p, q) :: q in nodes
  }

  /** A file or link cannot go there: something else is in the way, above it or below it. */
  ghost predicate Blocked(nodes: map<string, Node>, path: string) {
    || (exists d :: InTheWay(nodes, ParentOf(path), d))
    || (IsDir(nodes, path) && exists q :: q in nodes && ParentOf(q) == path)
  }

  /** The node is put at the path, and what is missing above it is made. */
  ghost predicate Added(before: map<string, Node>, after: map<string, Node>, path: string, n: Node) {
    && path in after && after[path] == n
    && (forall p | p != path :: p in after <==> p in before || (p != "" && Below(path, p)))
    && (forall p | p in after && p != path :: after[p] == if p in before then before[p] else DirNode(PLAIN_DIR))
  }

  /** What writing one file or link comes to: nothing may be in its way and its object has to be intact. */
  ghost predicate OneWritten(codec: ObjectStore.Codec, objects: map<Hash, Bytes>, before: map<string, Node>,
                             after: map<string, Node>, e: Entry, ok: bool)
    requires !e.kind.Dir?
  {
    && (ok ==> !Blocked(before, e.path))
    && (e.path !in before && !Blocked(before, e.path) ==> (ok <==> (e.kind.File? ==> Intact(codec, objects, e))))
    && (e.path !in before && UpClosed(before) && ok ==> Added(before, after, e.path, NodeFor(codec, objects, e)))
  }

  class Target {
    var nodes: map<string, Node>
    var times: map<string, int>
    var now: int

    constructor ()
      ensures nodes == map[] && times == map[]
    {
      nodes, times, now := map[], map[], 0;
    }

    /** A change in a directory changes the directory's time. */
    method Touch(path: string)
      modifies this`times, this`now
    {
      now := now + 1;
      times := times[path := now][ParentOf(path) := now];
    }

    /** Creates a directory and whatever is missing above it. */
    method MakeDirs(path: string, mode: Mode) returns (ok: bool)
      requires path == "" || Relative(path)
      modifies this
      ensures !ok <==> exists d :: InTheWay(old(nodes), path, d)
      ensures forall p | p in old(nodes) :: p in nodes && nodes[p] == old(nodes)[p]
      ensures forall p | p in nodes && p !in old(nodes) :: AtOrBelow(path, p) && nodes[p] == DirNode(mode)
      ensures ok && path != "" ==> path in nodes && nodes[path].DirNode?
      ensures path == "" || (path in old(nodes) && old(nodes)[path].DirNode?) ==> ok && nodes == old(nodes)
      ensures ok && UpClosed(old(nodes)) ==> forall p | p != "" && AtOrBelow(path, p) :: p in nodes
      decreases |path|
    {
      if path == "" {
        return true;
      }
      if path in nodes {
        OnlyItself(nodes, path);
        return nodes[path].DirNode?;
      }
      WayUp(nodes, path);
      AllAboveTheParent(path);
      ok := MakeDirs(ParentOf(path), mode);
      if ok {
        AboveIsAbove(path);
        nodes := nodes[path := DirNode(mode)];
        Touch(path);
      }
    }

    /** Puts a finished file in place of whatever is not a directory. */
    method Place(path: string, file: Node) returns (ok: bool)
      requires !file.DirNode?
      modifies this
      ensures ok <==> !IsDir(old(nodes), path)
      ensures nodes == if ok then old(nodes)[path := file] else old(nodes)
    {
      ok := !(path in nodes && nodes[path].DirNode?);
      if ok {
        nodes := nodes[path := file];
        Touch(path);
      }
    }

    /** Replaces whatever is there by a link; a directory only goes if nothing is in it. */
    method PlaceLink(path: string, link: Node) returns (ok: bool)
      requires link.LinkNode?
      modifies this
      ensures ok <==> !(IsDir(old(nodes), path) && exists q :: q in old(nodes) && ParentOf(q) == path)
      ensures nodes == if ok then old(nodes)[path := link] else old(nodes)
    {
      ok := !(path in nodes && nodes[path].DirNode? && exists q :: q in nodes && ParentOf(q) == path);
      if ok {
        nodes := nodes[path := link];
        Touch(path);
      }
    }

    /** An empty file that has no object. One that is there already keeps its mode, a link is followed. */
    method WriteEmpty(path: string, mode: Mode) returns (ok: bool)
      modifies this
      ensures ok <==> !IsDir(old(nodes), path)
      ensures nodes == if path !in old(nodes) then old(nodes)[path := FileNode(mode, [])]
                       else if old(nodes)[path].FileNode? then old(nodes)[path := FileNode(old(nodes)[path].mode, [])]
                       else old(nodes)
    {
      ok := !(path in nodes && nodes[path].DirNode?);
      if ok {
        if path !in nodes {
          nodes := nodes[path := FileNode(mode, [])];
        } else if nodes[path].FileNode? {
          nodes := nodes[path := FileNode(nodes[path].mode, [])];
        }
        Touch(path);
      }
    }

    /** Streams one object out, checking its hash and size, and only then puts it in place. */
    method WriteFile(store: ObjectStore.Store, e: Entry) returns (r: Result<nat>)
      requires Relative(e.path) && e.kind.File?
      modifies this
      ensures OnlyAbove(old(nodes), nodes, e.path, PLAIN_DIR)
      ensures r.Ok? ==> Intact(store.codec, store.objects, e) && r.value == e.size
      ensures r.Ok? && e.hash != ZERO_HASH ==>
                e.path in nodes && nodes[e.path] == NodeFor(store.codec, store.objects, e)
      ensures r.Ok? && e.hash == ZERO_HASH ==> IsEmptyFile(nodes, e.path)
      ensures e.path in nodes && nodes[e.path].FileNode? ==>
                (e.path in old(nodes) && nodes[e.path] == old(nodes)[e.path]) || Vouched(store.codec, nodes[e.path], e)
      ensures OneWritten(store.codec, store.objects, old(nodes), nodes, e, r.Ok?)
    {
      AllAboveTheParent(e.path);
      var made := MakeDirs(ParentOf(e.path), PLAIN_DIR);
      AboveIsAbove(e.path);
      if !made {
        return Err(CannotCreate(e.path));
      }
      if e.hash == ZERO_HASH {
        if e.size != 0 {
          return Err(NoHashButBytes(e.path));
        }
        var ok := WriteEmpty(e.path, e.mode);
        return if ok then Ok(0) else Err(CannotCreate(e.path));
      }
      var read := store.Open(e.hash);
      if read.Err? {
        return Err(Unreadable(e.path));
      }
      if store.codec.hash(read.value) != e.hash {
        return Err(Corrupted(e.path));
      }
      if |read.value| != e.size {
        return Err(WrongSize(e.path));
      }
      var ok := Place(e.path, FileNode(e.mode, read.value));
      r := if ok then Ok(|read.value|) else Err(CannotCreate(e.path));
    }

    method WriteLink(e: Entry) returns (r: Result<()>)
      requires Relative(e.path) && e.kind.Symlink?
      modifies this
      ensures OnlyAbove(old(nodes), nodes, e.path, PLAIN_DIR)
      ensures r.Ok? ==> e.path in nodes && nodes[e.path] == LinkNode(e.target)
      ensures e.path in nodes && nodes[e.path].FileNode? ==> e.path in old(nodes) && nodes[e.path] == old(nodes)[e.path]
      ensures r.Ok? ==> !Blocked(old(nodes), e.path)
      ensures e.path !in old(nodes) && !Blocked(old(nodes), e.path) ==> r.Ok?
      ensures e.path !in old(nodes) && UpClosed(old(nodes)) && r.Ok? ==>
                Added(old(nodes), nodes, e.path, LinkNode(e.target))
    {
      AllAboveTheParent(e.path);
      var made := MakeDirs(ParentOf(e.path), PLAIN_DIR);
      AboveIsAbove(e.path);
      if !made {
        return Err(CannotCreate(e.path));
      }
      var ok := PlaceLink(e.path, LinkNode(e.target));
      r := if ok then Ok(()) else Err(CannotCreate(e.path));
    }

    /** Directories first, so that parents exist before their children. */
    method MakeAll(entries: seq<Entry>) returns (r: Result<nat>)
      requires PathOrdered(entries)
      modifies this
      ensures OnlyDirsMore(old(nodes), nodes)
      ensures r.Ok? ==>
                r.value == Counted(entries).dirs && forall e | e in entries && e.kind.Dir? :: IsDir(nodes, e.path)
      ensures old(nodes) == map[] ==> r.Ok? && DirsMade(entries, nodes)
    {
      var dirs := 0;
      ghost var base := nodes;
      for n := 0 to |entries|
        invariant OnlyDirsMore(base, nodes) && dirs == Counted(entries[..n]).dirs
        invariant forall i | 0 <= i < n && entries[i].kind.Dir? :: IsDir(nodes, entries[i].path)
        invariant base == map[] ==> DirsMade(entries[..n], nodes)
      {
        assert entries[..n + 1][..n] == entries[..n];
        if entries[n].kind.Dir? {
          var ok := MakeNth(entries, n, base);
          if !ok {
            return Err(CannotCreate(entries[n].path));
          }
          dirs := dirs + 1;
        }
      }
      assert entries[..|entries|] == entries;
      r := Ok(dirs);
    }

    method MakeNth(entries: seq<Entry>, n: nat, ghost base: map<string, Node>) returns (ok: bool)
      requires PathOrdered(entries) && n < |entries| && entries[n].kind.Dir? && OnlyDirsMore(base, nodes)
      requires base == map[] ==> DirsMade(entries[..n], nodes)
      modifies this
      ensures OnlyDirsMore(base, nodes) && forall p | p in old(nodes) :: p in nodes && nodes[p] == old(nodes)[p]
      ensures ok ==> IsDir(nodes, entries[n].path)
      ensures base == map[] ==> ok && DirsMade(entries[..n + 1], nodes)
    {
      assert entries[n] in entries && entries[..n + 1][..n] == entries[..n];
      if base == map[] {
        DirsMadeAreClosed(entries[..n], nodes);
      }
      ok := MakeDirs(entries[n].path, entries[n].mode | OWNER_ALL);
    }

    /** Everything that is not a directory. Files are only ever put in place after their bytes were checked. */
    method WriteAll(store: ObjectStore.Store, entries: seq<Entry>) returns (r: Result<Counts>)
      requires PathOrdered(entries)
      modifies this
      ensures AllVouched(store.codec, old(nodes), nodes, entries)
      ensures r.Ok? ==> r.value == Counted(entries).(dirs := 0)
      ensures r.Ok? ==> forall e | e in entries && !e.kind.Dir? :: Written(store.codec, store.objects, nodes, e)
      ensures forall p | p in old(nodes) && Untouched(entries, p) :: p in nodes && nodes[p] == old(nodes)[p]
      ensures DirsMade(entries, old(nodes)) ==>
                && (r.Ok? <==> AllIntact(store.codec, store.objects, entries) && ClearTo(entries, |entries|))
                && (r.Ok? ==> Stands(store.codec, store.objects, entries, entries, nodes))
    {
      var counts := Counts(0, 0, 0, 0);
      ghost var base := nodes;
      for n := 0 to |entries|
        invariant AllVouched(store.codec, base, nodes, entries) && counts == Counted(entries[..n]).(dirs := 0)
        invariant SoFar(store.codec, store.objects, base, nodes, entries, n)
        invariant FromDirs(store.codec, store.objects, base, nodes, entries, n)
      {
        var wrote := WriteStep(store, entries, n, counts, base);
        if wrote.Err? {
          return Err(wrote.error);
        }
        counts := wrote.value;
      }
      assert entries[..|entries|] == entries;
      r := Ok(counts);
    }

    method WriteStep(store: ObjectStore.Store, entries: seq<Entry>, n: nat, counts: Counts,
                     ghost base: map<string, Node>)
      returns (r: Result<Counts>)
      requires PathOrdered(entries) && n < |entries| && counts == Counted(entries[..n]).(dirs := 0)
      requires AllVouched(store.codec, base, nodes, entries)
      requires SoFar(store.codec, store.objects, base, nodes, entries, n)
      requires FromDirs(store.codec, store.objects, base, nodes, entries, n)
      modifies this
      ensures AllVouched(store.codec, base, nodes, entries)
      ensures forall p | p in base && Untouched(entries, p) :: p in nodes && nodes[p] == base[p]
      ensures r.Ok? ==> r.value == Counted(entries[..n + 1]).(dirs := 0)
      ensures r.Ok? ==> SoFar(store.codec, store.objects, base, nodes, entries, n + 1)
      ensures r.Ok? ==> FromDirs(store.codec, store.objects, base, nodes, entries, n + 1)
      ensures r.Err? && DirsMade(entries, base) ==>
                !(AllIntact(store.codec, store.objects, entries) && ClearTo(entries, |entries|))
    {
      CountNext(entries, n);
      if entries[n].kind.Dir? {
        DirStep(store.codec, store.objects, base, nodes, entries, n);
        r := Ok(counts);
      } else {
        var wrote := WriteNth(store, entries, n, base);
        r := if wrote.Err? then Err(wrote.error) else Ok(Count(counts, entries[n]));
      }
    }

    method WriteNth(store: ObjectStore.Store, entries: seq<Entry>, n: nat, ghost base: map<string, Node>)
      returns (r: Result<nat>)
      requires PathOrdered(entries) && n < |entries| && !entries[n].kind.Dir?
      requires AllVouched(store.codec, base, nodes, entries)
      requires SoFar(store.codec, store.objects, base, nodes, entries, n)
      requires FromDirs(store.codec, store.objects, base, nodes, entries, n)
      modifies this
      ensures AllVouched(store.codec, base, nodes, entries)
      ensures forall p | p in base && Untouched(entries, p) :: p in nodes && nodes[p] == base[p]
      ensures r.Ok? ==> SoFar(store.codec, store.objects, base, nodes, entries, n + 1)
      ensures r.Ok? ==> FromDirs(store.codec, store.objects, base, nodes, entries, n + 1)
      ensures r.Err? && DirsMade(entries, base) ==>
                !(AllIntact(store.codec, store.objects, entries) && ClearTo(entries, |entries|))
    {
      var e := entries[n];
      assert e in entries && entries[..n + 1][..n] == entries[..n] && entries[..n + 1] == entries[..n] + [e];
      PathIsNew(entries, n);
      ghost var before := nodes;
      r := WriteOther(store, e);
      if DirsMade(entries, base) {
        OtherStep(store.codec, store.objects, base, before, nodes, entries, n, r.Ok?);
      }
    }

    method WriteOther(store: ObjectStore.Store, e: Entry) returns (r: Result<nat>)
      requires Relative(e.path) && !e.kind.Dir?
      modifies this
      ensures OnlyAbove(old(nodes), nodes, e.path, PLAIN_DIR)
      ensures r.Ok? ==> Written(store.codec, store.objects, nodes, e)
      ensures e.path in nodes && nodes[e.path].FileNode? ==>
                (e.path in old(nodes) && nodes[e.path] == old(nodes)[e.path]) || Vouched(store.codec, nodes[e.path], e)
      ensures OneWritten(store.codec, store.objects, old(nodes), nodes, e, r.Ok?)
    {
      if e.kind.Symlink? {
        var linked := WriteLink(e);
        r := if linked.Ok? then Ok(0) else Err(linked.error);
      } else {
        r := WriteFile(store, e);
      }
    }

    /** Sets modification times, which the writing has changed. Those of entries that belong to somebody else cannot be
        set. */
    method ApplyTimes(entries: seq<Entry>, foreign: set<string>) returns (refused: nat)
      requires PathOrdered(entries)
      modifies this`times
      ensures forall e | e in entries && Timed(nodes, e) && e.path !in foreign ::
                e.path in times && times[e.path] == e.modTime
      ensures refused == |RefusedOf(nodes, entries, foreign)|
    {
      refused := 0;
      assert entries[|entries|..] == [];
      for n := |entries| downto 0
        invariant forall i | n <= i < |entries| && Timed(nodes, entries[i]) && entries[i].path !in foreign ::
                    entries[i].path in times && times[entries[i].path] == entries[i].modTime
        invariant refused == |RefusedOf(nodes, entries[n..], foreign)|
      {
        var e := entries[n];
        assert entries[n..][1..] == entries[n + 1..];
        PathIsNew(entries, n);
        if e.modTime != 0 && !e.kind.Symlink? && e.path in nodes {
          if e.path in foreign {
            refused := refused + 1;
          } else {
            times := times[e.path := e.modTime];
          }
        }
      }
    }

    /** Restores the entries a snapshot holds, or the selected ones of them. */
    method Run(store: ObjectStore.Store, entries: seq<Entry>, opts: Options, foreign: set<string>)
      returns (r: Result<Report>)
      requires PathOrdered(entries)
      modifies this
      ensures !opts.dryRun && !opts.overwrite && old(nodes) != map[] ==> r == Err(NotEmpty) && nodes == old(nodes)
      ensures opts.dryRun ==> r.Ok? && nodes == old(nodes)
      ensures r.Ok? ==>
                var c, rep := Counted(entries), r.value;
                && (rep.files, rep.dirs, rep.symlinks, rep.bytes) == (c.files, c.dirs, c.symlinks, c.bytes)
                && rep.dryRun == opts.dryRun && rep.verified == if opts.dryRun then 0 else c.files
      ensures AllVouched(store.codec, old(nodes), nodes, entries)
      ensures r.Ok? && !opts.dryRun ==>
                forall e | e in entries ::
                  if e.kind.Dir? then IsDir(nodes, e.path) else Written(store.codec, store.objects, nodes, e)
      ensures old(nodes) == map[] && LinksAreLeaves(entries) && !opts.dryRun ==>
                && (r.Ok? <==> AllIntact(store.codec, store.objects, entries) && Clear(entries))
                && (r.Ok? ==> RestoredAs(store.codec, store.objects, entries, nodes))
      ensures old(nodes) == map[] && WithParents(entries) && !opts.dryRun ==>
                && (r.Ok? <==> AllIntact(store.codec, store.objects, entries))
                && (r.Ok? ==> nodes == Restored(store.codec, store.objects, entries))
      ensures r.Ok? && !opts.dryRun && opts.restoreTimes ==>
                forall e | e in entries && Timed(nodes, e) && e.path !in foreign ::
                  e.path in times && times[e.path] == e.modTime
      ensures r.Ok? ==>
                r.value.refused == if !opts.dryRun && opts.restoreTimes then |RefusedOf(nodes, entries, foreign)| else 0
    {
      if opts.dryRun {
        var c := CountAll(entries);
        r := Ok(Report(c.files, c.dirs, c.symlinks, c.bytes, 0, 0, true));
      } else if !opts.overwrite && nodes != map[] {
        r := Err(NotEmpty);
      } else {
        var wrote := WriteTree(store, entries);
        if WithParents(entries) {
          ClosedIsClear(entries);
        }
        if wrote.Err? {
          r := Err(wrote.error);
        } else {
          var c, refused := wrote.value, 0;
          if opts.restoreTimes {
            refused := ApplyTimes(entries, foreign);
          }
          r := Ok(Report(c.files, c.dirs, c.symlinks, c.bytes, c.files, refused, false));
        }
      }
    }

    method WriteTree(store: ObjectStore.Store, entries: seq<Entry>) returns (r: Result<Counts>)
      requires PathOrdered(entries)
      modifies this
      ensures AllVouched(store.codec, old(nodes), nodes, entries)
      ensures r.Ok? ==> r.value == Counted(entries)
      ensures r.Ok? ==> forall e | e in entries ::
                if e.kind.Dir? then IsDir(nodes, e.path) else Written(store.codec, store.objects, nodes, e)
      ensures old(nodes) == map[] ==>
                && (r.Ok? <==> AllIntact(store.codec, store.objects, entries) && Clear(entries))
                && (r.Ok? ==> RestoredAs(store.codec, store.objects, entries, nodes))
    {
      var made := MakeAll(entries);
      if made.Err? {
        return Err(made.error);
      }
      ClearIs(entries);
      var wrote := WriteAll(store, entries);
      if wrote.Err? {
        return Err(wrote.error);
      }
      if old(nodes) == map[] {
        StandsIsRestored(store.codec, store.objects, entries, nodes);
      }
      forall e | e in entries && e.kind.Dir? ensures IsDir(nodes, e.path) {
        DirsAreUntouched(entries, e);
      }
      r := Ok(wrote.value.(dirs := made.value));
    }

    /** Compares the tree with a snapshot and reports every difference. */
    method Verify(codec: ObjectStore.Codec, entries: seq<Entry>) returns (diffs: seq<Difference>)
      ensures diffs == [] <==> forall e | e in entries :: Same(codec, nodes, e)
    {
      diffs := [];
      for n := 0 to |entries|
        invariant diffs == [] <==> forall i | 0 <= i < n :: Same(codec, nodes, entries[i])
      {
        var e := entries[n];
        var found := Compare(codec, e);
        diffs := diffs + found;
      }
    }

    method Compare(codec: ObjectStore.Codec, e: Entry) returns (diffs: seq<Difference>)
      ensures diffs == [] <==> Same(codec, nodes, e)
    {
      if e.path !in nodes {
        return [Missing(e.path)];
      }
      diffs := [];
      var n := nodes[e.path];
      match e.kind {
        case Dir =>
          if !n.DirNode? {
            diffs := [NotADirectory(e.path)];
          }
        case Symlink =>
          if !n.LinkNode? {
            return [NotALink(e.path)];
          }
          if n.target != e.target {
            diffs := [WrongTarget(e.path)];
          }
        case File =>
          if !n.FileNode? || |n.content| != e.size {
            return [OtherSize(e.path)];
          }
          if e.hash != ZERO_HASH && codec.hash(n.content) != e.hash {
            diffs := [OtherContent(e.path)];
          }
      }
      if !e.kind.Symlink? && (n.LinkNode? || n.mode != e.mode) {
        diffs := diffs + [OtherMode(e.path)];
      }
    }
  }

  datatype Options = Options(dryRun: bool, overwrite: bool, restoreTimes: bool)

  datatype Difference =
    | Missing(path: string)
    | NotADirectory(path: string)
    | NotALink(path: string)
    | WrongTarget(path: string)
    | OtherSize(path: string)
    | OtherContent(path: string)
    | OtherMode(path: string)

  /** The node is exactly what the entry says. */
  predicate Same(codec: ObjectStore.Codec, nodes: map<string, Node>, e: Entry) {
    && e.path in nodes
    && var n := nodes[e.path];
       match e.kind
       case Dir => n == DirNode(e.mode)
       case Symlink => n == LinkNode(e.target)
       case File => n.FileNode? && n.mode == e.mode && |n.content| == e.size &&
                    (e.hash != ZERO_HASH ==> codec.hash(n.content) == e.hash)
  }

  method CountAll(entries: seq<Entry>) returns (c: Counts)
    ensures c == Counted(entries)
  {
    c := Counts(0, 0, 0, 0);
    for n := 0 to |entries|
      invariant c == Counted(entries[..n])
    {
      assert entries[..n + 1][..n] == entries[..n];
      c := Count(c, entries[n]);
    }
    assert entries[..|entries|] == entries;
  }

  /** Entries whose time is to be set. */
  predicate Timed(nodes: map<string, Node>, e: Entry) {
    e.modTime != 0 && !e.kind.Symlink? && e.path in nodes
  }

  function RefusedOf(nodes: map<string, Node>, entries: seq<Entry>, foreign: set<string>): seq<string> {
    if entries == [] then []
    else (if Timed(nodes, entries[0]) && entries[0].path in foreign then [entries[0].path] else []) +
         RefusedOf(nodes, entries[1..], foreign)
  }

  function Restored(codec: ObjectStore.Codec, objects: map<Hash, Bytes>, entries: seq<Entry>): map<string, Node> {
    AllOf(codec, objects, DirsOf(entries), entries)
  }

  lemma DirsAreUntouched(entries: seq<Entry>, d: Entry)
    requires PathOrdered(entries) && d in entries && d.kind.Dir?
    ensures Untouched(entries, d.path)
  {
    var i :| 0 <= i < |entries| && entries[i] == d;
    PathIsNew(entries, i);
  }

  /** The entry is in place, with the bytes and, unless it is an empty file that was there before, the mode it had. */
  predicate Written(codec: ObjectStore.Codec, objects: map<Hash, Bytes>, nodes: map<string, Node>, e: Entry)
    requires !e.kind.Dir?
  {
    && (e.kind.File? ==> Intact(codec, objects, e))
    && (e.kind.Symlink? || e.hash != ZERO_HASH ==> e.path in nodes && nodes[e.path] == NodeFor(codec, objects, e))
    && (e.kind.File? && e.hash == ZERO_HASH ==> IsEmptyFile(nodes, e.path))
  }

  /** An empty file, whatever its mode, or the link that leads to one. */
  predicate IsEmptyFile(nodes: map<string, Node>, path: string) {
    path in nodes && match nodes[path]
                     case FileNode(_, content) => content == []
                     case LinkNode(_) => true
                     case DirNode(_) => false
  }

  /** What holds when the first n entries have been written. */
  ghost predicate SoFar(codec: ObjectStore.Codec, objects: map<Hash, Bytes>, base: map<string, Node>,
                        nodes: map<string, Node>, entries: seq<Entry>, n: nat)
    requires n <= |entries|
  {
    && (forall i | 0 <= i < n && !entries[i].kind.Dir? :: Written(codec, objects, nodes, entries[i]))
    && (forall p | p in base && Untouched(entries, p) :: p in nodes && nodes[p] == base[p])
  }

  /** ... and what holds if there was nothing but the directories before. */
  ghost predicate FromDirs(codec: ObjectStore.Codec, objects: map<Hash, Bytes>, base: map<string, Node>,
                           nodes: map<string, Node>, entries: seq<Entry>, n: nat)
    requires n <= |entries|
  {
    DirsMade(entries, base) ==>
      && ClearTo(entries, n) && AllIntact(codec, objects, entries[..n])
      && Stands(codec, objects, entries, entries[..n], nodes)
  }

  lemma OtherStep(codec: ObjectStore.Codec, objects: map<Hash, Bytes>, base: map<string, Node>,
                  before: map<string, Node>, after: map<string, Node>, entries: seq<Entry>, n: nat, ok: bool)
    requires PathOrdered(entries) && n < |entries| && !entries[n].kind.Dir? && DirsMade(entries, base)
    requires FromDirs(codec, objects, base, before, entries, n)
    requires OneWritten(codec, objects, before, after, entries[n], ok)
    ensures ok ==> FromDirs(codec, objects, base, after, entries, n + 1)
    ensures !ok ==> !(AllIntact(codec, objects, entries) && ClearTo(entries, |entries|))
  {
    StandsIsClosed(codec, objects, entries, n, before);
    BlockedIff(codec, objects, entries, n, before);
    assert entries[..n + 1] == entries[..n] + [entries[n]] && entries[n] in entries;
    if ok {
      NextNode(codec, objects, entries, n, before, after);
    }
  }

  lemma DirStep(codec: ObjectStore.Codec, objects: map<Hash, Bytes>, base: map<string, Node>,
                nodes: map<string, Node>, entries: seq<Entry>, n: nat)
    requires n < |entries| && entries[n].kind.Dir? && FromDirs(codec, objects, base, nodes, entries, n)
    ensures FromDirs(codec, objects, base, nodes, entries, n + 1)
  {
    var rest, next := entries[..n], entries[..n + 1];
    assert next[..n] == rest && next == rest + [entries[n]];
  }

  predicate AllIntact(codec: ObjectStore.Codec, objects: map<Hash, Bytes>, entries: seq<Entry>) {
    forall e | e in entries && e.kind.File? :: Intact(codec, objects, e)
  }

  /** No file or link of the snapshot goes there. */
  predicate Untouched(entries: seq<Entry>, p: string) {
    forall e | e in entries && !e.kind.Dir? :: e.path != p
  }

  /** A file that was not there before was checked against the index. */
  ghost predicate AllVouched(codec: ObjectStore.Codec, before: map<string, Node>, after: map<string, Node>,
                             entries: seq<Entry>)
  {
    forall p | p in after && after[p].FileNode? ::
      (p in before && before[p] == after[p]) || exists e :: e in entries && e.path == p && Vouched(codec, after[p], e)
  }

  lemma {:induction false} AllOfAre(codec: ObjectStore.Codec, objects: map<Hash, Bytes>, dirs: map<string, Node>,
                                    entries: seq<Entry>, p: string)
    requires Untouched(entries, p)
    ensures p in AllOf(codec, objects, dirs, entries) <==> p in dirs
    ensures p in dirs ==> AllOf(codec, objects, dirs, entries)[p] == dirs[p]
  {
    if entries != [] {
      AllOfAre(codec, objects, dirs, entries[..|entries| - 1], p);
    }
  }

  datatype Counts = Counts(files: nat, dirs: nat, symlinks: nat, bytes: nat)

  function Count(c: Counts, e: Entry): Counts {
    match e.kind
    case Dir => c.(dirs := c.dirs + 1)
    case Symlink => c.(symlinks := c.symlinks + 1)
    case File => c.(files := c.files + 1, bytes := c.bytes + e.size)
  }

  function Counted(entries: seq<Entry>): Counts {
    if entries == [] then Counts(0, 0, 0, 0)
    else Count(Counted(entries[..|entries| - 1]), entries[|entries| - 1])
  }

  lemma CountNext(entries: seq<Entry>, n: nat)
    requires n < |entries|
    ensures Counted(entries[..n + 1]) == Count(Counted(entries[..n]), entries[n])
  {
    assert entries[..n + 1][..n] == entries[..n];
  }

  /** The directories of a snapshot as they are restored: the owner can always get in. */
  function DirsOf(entries: seq<Entry>): map<string, Node> {
    if entries == [] then map[]
    else
      var dirs, last := DirsOf(entries[..|entries| - 1]), entries[|entries| - 1];
      if last.kind.Dir? then dirs[last.path := DirNode(last.mode | OWNER_ALL)] else dirs
  }

  /** ... and then everything else. */
  function AllOf(codec: ObjectStore.Codec, objects: map<Hash, Bytes>, dirs: map<string, Node>, entries: seq<Entry>)
    : map<string, Node>
  {
    if entries == [] then dirs
    else
      var rest, last := AllOf(codec, objects, dirs, entries[..|entries| - 1]), entries[|entries| - 1];
      if last.kind.Dir? then rest else rest[last.path := NodeFor(codec, objects, last)]
  }

  lemma {:induction false} DirsOfAre(entries: seq<Entry>, p: string)
    ensures p in DirsOf(entries) <==> exists e :: e in entries && e.kind.Dir? && e.path == p
    ensures p in DirsOf(entries) ==> DirsOf(entries)[p].DirNode?
  {
    if entries != [] {
      var rest, last := entries[..|entries| - 1], entries[|entries| - 1];
      DirsOfAre(rest, p);
      assert entries == rest + [last];
    }
  }

  /** Nothing changes but the path itself and directories made above it. */
  ghost predicate OnlyAbove(before: map<string, Node>, after: map<string, Node>, path: string, mode: Mode) {
    && (forall p | p in before && p != path :: p in after && after[p] == before[p])
    && (forall p | p in after && p !in before && p != path :: after[p] == DirNode(mode))
  }

  /** Everything is as it was, and what is new are directories. */
  ghost predicate OnlyDirsMore(before: map<string, Node>, after: map<string, Node>) {
    && (forall p | p in before :: p in after && after[p] == before[p])
    && (forall p | p in after && p !in before :: after[p].DirNode?)
  }

  function Content(codec: ObjectStore.Codec, objects: map<Hash, Bytes>, h: Hash): Bytes {
    if h in objects && ObjectStore.Plain(codec, objects[h]).Ok? then ObjectStore.Plain(codec, objects[h]).value else []
  }

  /** What a file or link entry becomes. */
  function NodeFor(codec: ObjectStore.Codec, objects: map<Hash, Bytes>, e: Entry): Node
    requires !e.kind.Dir?
  {
    if e.kind.Symlink? then LinkNode(e.target)
    else FileNode(e.mode, if e.hash == ZERO_HASH then [] else Content(codec, objects, e.hash))
  }

  /** A file whose bytes were checked against the index. */
  predicate Vouched(codec: ObjectStore.Codec, n: Node, e: Entry) {
    && n.FileNode? && |n.content| == e.size && e.kind.File?
    && (e.hash == ZERO_HASH || codec.hash(n.content) == e.hash)
  }

  predicate IsDir(nodes: map<string, Node>, path: string) {
    path in nodes && nodes[path].DirNode?
  }

  lemma AboveIsAbove(path: string)
    requires Relative(path)
    ensures forall p | p != "" && AtOrBelow(ParentOf(path), p) :: AtOrBelow(path, p)
  {
    AllAboveTheParent(path);
  }

  // ------------------------------------------- what is there after each step

  /** Nothing lies below an entry that is not a directory. */
  ghost predicate Clear(entries: seq<Entry>) {
    forall e, f | e in entries && f in entries && !e.kind.Dir? :: !Below(f.path, e.path)
  }

  /** Nothing lies below a link. */
  ghost predicate LinksAreLeaves(entries: seq<Entry>) {
    forall e, f | e in entries && f in entries && e.kind.Symlink? :: !Below(f.path, e.path)
  }

  /** When its turn comes, nothing is in the way of an entry that is not a directory. */
  ghost predicate ClearAt(entries: seq<Entry>, n: nat)
    requires n < |entries|
  {
    && (forall f | f in entries && f.kind.Dir? :: !Below(f.path, entries[n].path))
    && (forall i | 0 <= i < n && !entries[i].kind.Dir? :: !Below(entries[n].path, entries[i].path))
  }

  ghost predicate ClearTo(entries: seq<Entry>, n: nat)
    requires n <= |entries|
  {
    forall i | 0 <= i < n && !entries[i].kind.Dir? :: ClearAt(entries, i)
  }

  lemma BelowIsLater(entries: seq<Entry>, i: nat, j: nat)
    requires PathOrdered(entries) && i < |entries| && j < |entries| && Below(entries[j].path, entries[i].path)
    ensures i < j
  {
    PrefixIsLess(entries[i].path, entries[j].path);
    LessIsEarlier(entries, i, j);
  }

  lemma ClearIs(entries: seq<Entry>)
    requires PathOrdered(entries)
    ensures ClearTo(entries, |entries|) <==> Clear(entries)
  {
    if ClearTo(entries, |entries|) {
      forall e, f | e in entries && f in entries && !e.kind.Dir? ensures !Below(f.path, e.path) {
        var i :| 0 <= i < |entries| && entries[i] == e;
        var j :| 0 <= j < |entries| && entries[j] == f;
        assert ClearAt(entries, i) && (f.kind.Dir? || ClearAt(entries, j));
        if Below(f.path, e.path) && !f.kind.Dir? {
          BelowIsLater(entries, i, j);
        }
      }
    }
  }

  /** The mode with which the turn for directories makes one at the path: that of the first there or below. */
  function DirFor(entries: seq<Entry>, p: string): Option<Mode> {
    if entries == [] then None
    else
      var before, last := DirFor(entries[..|entries| - 1], p), entries[|entries| - 1];
      if before.Some? then before
      else if last.kind.Dir? && AtOrBelow(last.path, p) then Some(last.mode | OWNER_ALL)
      else None
  }

  /** The mode of a directory that is made whether or not an entry names it. */
  function ModeMade(entries: seq<Entry>, p: string): Mode {
    match DirFor(entries, p)
    case Some(mode) => mode
    case None => PLAIN_DIR
  }

  lemma {:induction false} DirForIs(entries: seq<Entry>, p: string)
    ensures DirFor(entries, p).Some? <==> exists e :: e in entries && e.kind.Dir? && AtOrBelow(e.path, p)
  {
    if entries != [] {
      var rest, last := entries[..|entries| - 1], entries[|entries| - 1];
      DirForIs(rest, p);
      assert entries == rest + [last];
    }
  }

  ghost predicate DirsMade(entries: seq<Entry>, nodes: map<string, Node>) {
    forall p ::
      && (p in nodes <==> p != "" && DirFor(entries, p).Some?)
      && (p in nodes ==> nodes[p] == DirNode(DirFor(entries, p).value))
  }

  lemma AlsoAbove(path: string, p: string, q: string)
    requires AtOrBelow(path, p) && Below(p, q)
    ensures Below(path, q)
  {
    if path != p {
      BelowIsTransitive(path, p, q);
    }
  }

  lemma DirsMadeAreClosed(entries: seq<Entry>, nodes: map<string, Node>)
    requires DirsMade(entries, nodes)
    ensures UpClosed(nodes)
  {
    forall p, q | p in nodes && q != "" && Below(p, q) ensures q in nodes {
      DirForIs(entries, p);
      var e :| e in entries && e.kind.Dir? && AtOrBelow(e.path, p);
      AlsoAbove(e.path, p, q);
      DirForIs(entries, q);
    }
  }

  /** What is at a path when the directories have been made and some of the entries written. */
  function NodeAt(codec: ObjectStore.Codec, objects: map<Hash, Bytes>, entries: seq<Entry>, done: seq<Entry>, p: string)
    : Option<Node>
  {
    if p == "" then None
    else if done == [] then
      match DirFor(entries, p)
      case Some(mode) => Some(DirNode(mode))
      case None => None
    else
      var before, last := NodeAt(codec, objects, entries, done[..|done| - 1], p), done[|done| - 1];
      if last.kind.Dir? then before
      else if p == last.path then Some(NodeFor(codec, objects, last))
      else if before.None? && Below(last.path, p) then Some(DirNode(PLAIN_DIR))
      else before
  }

  ghost predicate Stands(codec: ObjectStore.Codec, objects: map<Hash, Bytes>, entries: seq<Entry>, done: seq<Entry>,
                         nodes: map<string, Node>)
  {
    forall p ::
      && (p in nodes <==> NodeAt(codec, objects, entries, done, p).Some?)
      && (p in nodes ==> nodes[p] == NodeAt(codec, objects, entries, done, p).value)
  }

  /** The entry is in place by then: it is a directory, or one of those written. */
  predicate Placed(entries: seq<Entry>, done: seq<Entry>, e: Entry) {
    (e in entries && e.kind.Dir?) || (e in done && !e.kind.Dir?)
  }

  lemma {:induction false} NodeAtIs(codec: ObjectStore.Codec, objects: map<Hash, Bytes>, entries: seq<Entry>,
                                    done: seq<Entry>, p: string)
    requires p != ""
    ensures NodeAt(codec, objects, entries, done, p).Some? <==>
            exists e :: Placed(entries, done, e) && AtOrBelow(e.path, p)
  {
    if done == [] {
      DirForIs(entries, p);
      if e :| e in entries && e.kind.Dir? && AtOrBelow(e.path, p) {
        assert Placed(entries, done, e);
      }
    } else {
      var rest, last := done[..|done| - 1], done[|done| - 1];
      NodeAtIs(codec, objects, entries, rest, p);
      assert done == rest + [last];
      if e :| Placed(entries, rest, e) && AtOrBelow(e.path, p) {
        assert Placed(entries, done, e);
      }
      if e :| Placed(entries, done, e) && AtOrBelow(e.path, p) && e != last {
        assert Placed(entries, rest, e);
      }
      if !last.kind.Dir? && AtOrBelow(last.path, p) {
        assert Placed(entries, done, last);
      }
    }
  }

  /** Where nothing was written there is a directory, made in the turn for directories or for what was written below. */
  lemma {:induction false} NodeAtElse(codec: ObjectStore.Codec, objects: map<Hash, Bytes>, entries: seq<Entry>,
                                      done: seq<Entry>, p: string)
    requires p != "" && forall e | e in done && !e.kind.Dir? :: e.path != p
    ensures var n := NodeAt(codec, objects, entries, done, p);
            n.Some? ==> n.value == DirNode(ModeMade(entries, p))
  {
    if done != [] {
      var rest, last := done[..|done| - 1], done[|done| - 1];
      assert done == rest + [last];
      NodeAtElse(codec, objects, entries, rest, p);
      if DirFor(entries, p).Some? {
        DirForStays(codec, objects, entries, rest, p);
      }
    }
  }

  lemma {:induction false} DirForStays(codec: ObjectStore.Codec, objects: map<Hash, Bytes>, entries: seq<Entry>,
                                       done: seq<Entry>, p: string)
    requires p != "" && DirFor(entries, p).Some?
    ensures NodeAt(codec, objects, entries, done, p).Some?
  {
    if done != [] {
      DirForStays(codec, objects, entries, done[..|done| - 1], p);
    }
  }

  lemma {:induction false} WrittenAt(codec: ObjectStore.Codec, objects: map<Hash, Bytes>, entries: seq<Entry>, n: nat,
                                     i: nat)
    requires PathOrdered(entries) && i < n <= |entries| && !entries[i].kind.Dir?
    ensures NodeAt(codec, objects, entries, entries[..n], entries[i].path) ==
            Some(NodeFor(codec, objects, entries[i]))
  {
    var last := n - 1;
    assert entries[..n][..last] == entries[..last] && entries[i] in entries;
    if i < last {
      WrittenAt(codec, objects, entries, last, i);
      PathIsNew(entries, last);
    }
  }

  /** A directory that is listed is made with its own mode, as those below come later. */
  lemma {:induction false} OwnMode(entries: seq<Entry>, n: nat, i: nat)
    requires PathOrdered(entries) && i < n <= |entries| && entries[i].kind.Dir?
    ensures DirFor(entries[..n], entries[i].path) == Some(entries[i].mode | OWNER_ALL)
  {
    var last := n - 1;
    assert entries[..n][..last] == entries[..last];
    if i < last {
      OwnMode(entries, last, i);
    } else if DirFor(entries[..last], entries[i].path).Some? {
      DirForIs(entries[..last], entries[i].path);
      var e :| e in entries[..last] && e.kind.Dir? && AtOrBelow(e.path, entries[i].path);
      var j :| 0 <= j < last && entries[j] == e;
      PathIsNew(entries, i);
      BelowIsLater(entries, i, j);
    }
  }

  lemma StandsIsClosed(codec: ObjectStore.Codec, objects: map<Hash, Bytes>, entries: seq<Entry>, n: nat,
                       nodes: map<string, Node>)
    requires n <= |entries| && Stands(codec, objects, entries, entries[..n], nodes)
    ensures UpClosed(nodes)
  {
    forall p, q | p in nodes && q != "" && Below(p, q) ensures q in nodes {
      NodeAtIs(codec, objects, entries, entries[..n], p);
      var e :| Placed(entries, entries[..n], e) && AtOrBelow(e.path, p);
      AlsoAbove(e.path, p, q);
      NodeAtIs(codec, objects, entries, entries[..n], q);
    }
  }

  lemma NextNode(codec: ObjectStore.Codec, objects: map<Hash, Bytes>, entries: seq<Entry>, n: nat,
                 before: map<string, Node>, after: map<string, Node>)
    requires PathOrdered(entries) && n < |entries| && !entries[n].kind.Dir?
    requires Stands(codec, objects, entries, entries[..n], before) && entries[n].path !in before
    requires Added(before, after, entries[n].path, NodeFor(codec, objects, entries[n]))
    ensures Stands(codec, objects, entries, entries[..n + 1], after)
  {
    var next := entries[..n + 1];
    assert next[..n] == entries[..n] && entries[n] in entries;
  }

  /** An entry is blocked exactly if something lies below it that is made as a directory, or above it that is not. */
  lemma BlockedIff(codec: ObjectStore.Codec, objects: map<Hash, Bytes>, entries: seq<Entry>, n: nat,
                   nodes: map<string, Node>)
    requires PathOrdered(entries) && n < |entries| && !entries[n].kind.Dir? && ClearTo(entries, n)
    requires Stands(codec, objects, entries, entries[..n], nodes)
    ensures Blocked(nodes, entries[n].path) <==> !ClearAt(entries, n)
    ensures ClearAt(entries, n) ==> entries[n].path !in nodes
  {
    if i :| 0 <= i < n && !entries[i].kind.Dir? && Below(entries[n].path, entries[i].path) {
      BlockedAbove(codec, objects, entries, n, i, nodes);
    } else if f :| f in entries && f.kind.Dir? && Below(f.path, entries[n].path) {
      BlockedBelow(codec, objects, entries, n, f, nodes);
    } else {
      NotBlocked(codec, objects, entries, n, nodes);
    }
  }

  lemma BlockedAbove(codec: ObjectStore.Codec, objects: map<Hash, Bytes>, entries: seq<Entry>, n: nat, i: nat,
                     nodes: map<string, Node>)
    requires PathOrdered(entries) && i < n < |entries| && ClearTo(entries, n)
    requires Stands(codec, objects, entries, entries[..n], nodes)
    requires !entries[i].kind.Dir? && Below(entries[n].path, entries[i].path)
    ensures Blocked(nodes, entries[n].path)
  {
    var path, d := entries[n].path, entries[i].path;
    assert entries[n] in entries && entries[i] in entries;
    WrittenAt(codec, objects, entries, n, i);
    AllAboveTheParent(path);
    forall x | x != "" && x in nodes && AtOrBelow(ParentOf(path), x) ensures AtOrBelow(d, x) {
      AncestorsCompare(path, x, d);
      if Below(x, d) {
        NothingBelow(codec, objects, entries, n, i, x);
      }
    }
    assert InTheWay(nodes, ParentOf(path), d);
  }

  lemma NothingBelow(codec: ObjectStore.Codec, objects: map<Hash, Bytes>, entries: seq<Entry>, n: nat, i: nat,
                     x: string)
    requires PathOrdered(entries) && i < n <= |entries| && !entries[i].kind.Dir? && ClearTo(entries, n)
    requires x != "" && Below(x, entries[i].path)
    ensures NodeAt(codec, objects, entries, entries[..n], x).None?
  {
    NodeAtIs(codec, objects, entries, entries[..n], x);
    assert ClearAt(entries, i);
    if e :| Placed(entries, entries[..n], e) && AtOrBelow(e.path, x) {
      AlsoAbove(e.path, x, entries[i].path);
      if !e.kind.Dir? {
        var j :| 0 <= j < n && entries[j] == e;
        assert ClearAt(entries, j);
        BelowIsLater(entries, i, j);
      }
    }
  }

  lemma BlockedBelow(codec: ObjectStore.Codec, objects: map<Hash, Bytes>, entries: seq<Entry>, n: nat, f: Entry,
                     nodes: map<string, Node>)
    requires PathOrdered(entries) && n < |entries| && Stands(codec, objects, entries, entries[..n], nodes)
    requires f in entries && f.kind.Dir? && Below(f.path, entries[n].path)
    ensures Blocked(nodes, entries[n].path)
  {
    var path := entries[n].path;
    assert entries[n] in entries;
    PathIsNew(entries, n);
    DirForIs(entries, path);
    DirForStays(codec, objects, entries, entries[..n], path);
    NodeAtElse(codec, objects, entries, entries[..n], path);
    var q := StepDown(f.path, path);
    DirForIs(entries, q);
    DirForStays(codec, objects, entries, entries[..n], q);
  }

  lemma NotPlacedYet(entries: seq<Entry>, n: nat, e: Entry)
    requires PathOrdered(entries) && n < |entries| && !entries[n].kind.Dir? && ClearAt(entries, n)
    requires Placed(entries, entries[..n], e)
    ensures !AtOrBelow(e.path, entries[n].path)
  {
    var j :| 0 <= j < |entries| && entries[j] == e && (e.kind.Dir? || j < n);
    PathIsNew(entries, n);
    if Below(e.path, entries[n].path) && !e.kind.Dir? {
      BelowIsLater(entries, n, j);
    }
  }

  lemma NotBlocked(codec: ObjectStore.Codec, objects: map<Hash, Bytes>, entries: seq<Entry>, n: nat,
                   nodes: map<string, Node>)
    requires PathOrdered(entries) && n < |entries| && !entries[n].kind.Dir? && ClearAt(entries, n)
    requires Stands(codec, objects, entries, entries[..n], nodes)
    ensures !Blocked(nodes, entries[n].path) && entries[n].path !in nodes
  {
    var path := entries[n].path;
    assert entries[n] in entries;
    AllAboveTheParent(path);
    if d :| InTheWay(nodes, ParentOf(path), d) {
      assert Below(path, d);
      assert forall e | e in entries[..n] && !e.kind.Dir? :: e.path != d;
      NodeAtElse(codec, objects, entries, entries[..n], d);
    }
    forall e | Placed(entries, entries[..n], e) ensures !AtOrBelow(e.path, path) {
      NotPlacedYet(entries, n, e);
    }
    NodeAtIs(codec, objects, entries, entries[..n], path);
  }

  // --------------------------------------------------------- the tree restored

  /** A directory that no entry names, above one that is. */
  ghost predicate Implied(entries: seq<Entry>, p: string) {
    p != "" && (forall e | e in entries :: e.path != p) && exists e :: e in entries && Below(e.path, p)
  }

  /** The tree holds what the entries say, and above that the directories that none of them names. Those get the mode of
      the first directory below them that is listed, or the plain one. */
  ghost predicate RestoredAs(codec: ObjectStore.Codec, objects: map<Hash, Bytes>, entries: seq<Entry>,
                             nodes: map<string, Node>)
  {
    && (forall p :: p in nodes <==> p in Restored(codec, objects, entries) || Implied(entries, p))
    && (forall p | p in Restored(codec, objects, entries) && p in nodes ::
          nodes[p] == Restored(codec, objects, entries)[p])
    && (forall p | Implied(entries, p) && p in nodes :: nodes[p] == DirNode(ModeMade(entries, p)))
  }

  lemma StandsIsRestored(codec: ObjectStore.Codec, objects: map<Hash, Bytes>, entries: seq<Entry>,
                         nodes: map<string, Node>)
    requires PathOrdered(entries) && Stands(codec, objects, entries, entries, nodes)
    ensures RestoredAs(codec, objects, entries, nodes)
  {
    forall e | e in entries
      ensures e.path in Restored(codec, objects, entries)
      ensures e.path in nodes && nodes[e.path] == Restored(codec, objects, entries)[e.path]
    {
      EntryStands(codec, objects, entries, nodes, e);
    }
    forall p | forall e | e in entries :: e.path != p
      ensures p in nodes <==> Implied(entries, p)
      ensures p in nodes ==> nodes[p] == DirNode(ModeMade(entries, p))
      ensures p !in Restored(codec, objects, entries)
    {
      OtherStands(codec, objects, entries, nodes, p);
    }
  }

  lemma EntryStands(codec: ObjectStore.Codec, objects: map<Hash, Bytes>, entries: seq<Entry>, nodes: map<string, Node>,
                    e: Entry)
    requires PathOrdered(entries) && Stands(codec, objects, entries, entries, nodes) && e in entries
    ensures e.path in nodes && e.path in Restored(codec, objects, entries)
    ensures nodes[e.path] == Restored(codec, objects, entries)[e.path]
  {
    var i :| 0 <= i < |entries| && entries[i] == e;
    assert entries[..|entries|] == entries;
    RestoredIsExact(codec, objects, entries, e);
    if e.kind.Dir? {
      PathIsNew(entries, i);
      OwnMode(entries, |entries|, i);
      DirForStays(codec, objects, entries, entries, e.path);
      NodeAtElse(codec, objects, entries, entries, e.path);
    } else {
      WrittenAt(codec, objects, entries, |entries|, i);
    }
  }

  lemma OtherStands(codec: ObjectStore.Codec, objects: map<Hash, Bytes>, entries: seq<Entry>, nodes: map<string, Node>,
                    p: string)
    requires PathOrdered(entries) && Stands(codec, objects, entries, entries, nodes)
    requires forall e | e in entries :: e.path != p
    ensures p in nodes <==> Implied(entries, p)
    ensures p in nodes ==> nodes[p] == DirNode(ModeMade(entries, p))
    ensures p !in Restored(codec, objects, entries)
  {
    if p in Restored(codec, objects, entries) {
      RestoredHasNothingElse(codec, objects, entries, p);
    }
    if p != "" {
      NodeAtIs(codec, objects, entries, entries, p);
      NodeAtElse(codec, objects, entries, entries, p);
      if e :| e in entries && Below(e.path, p) {
        assert Placed(entries, entries, e);
      }
    }
  }

  /** In an index that is closed under parents nothing is in the way and nothing missing. */
  lemma ClosedIsClear(entries: seq<Entry>)
    requires PathOrdered(entries) && WithParents(entries)
    ensures Clear(entries) && forall p :: !Implied(entries, p)
  {
    forall e, p | e in entries && p != "" && Below(e.path, p)
      ensures exists d :: d in entries && d.path == p && d.kind.Dir?
    {
      ListedAbove(entries, e, p);
    }
    forall e, f | e in entries && f in entries && !e.kind.Dir? ensures !Below(f.path, e.path) {
      if Below(f.path, e.path) {
        var d :| d in entries && d.path == e.path && d.kind.Dir?;
        var i :| 0 <= i < |entries| && entries[i] == e;
        PathIsNew(entries, i);
      }
    }
  }

  lemma {:induction false} ListedAbove(entries: seq<Entry>, e: Entry, p: string)
    requires PathOrdered(entries) && WithParents(entries) && e in entries && p != "" && Below(e.path, p)
    ensures exists d :: d in entries && d.path == p && d.kind.Dir?
    decreases |e.path|
  {
    AllAboveTheParent(e.path);
    var d :| d in entries && d.path == ParentOf(e.path) && d.kind.Dir?;
    if d.path != p {
      ListedAbove(entries, d, p);
    }
  }

  lemma ClosedIsWhole(codec: ObjectStore.Codec, objects: map<Hash, Bytes>, entries: seq<Entry>,
                      nodes: map<string, Node>)
    requires PathOrdered(entries) && WithParents(entries) && RestoredAs(codec, objects, entries, nodes)
    ensures nodes == Restored(codec, objects, entries)
  {
    ClosedIsClear(entries);
  }

  // ------------------------------------------------------- a restore is faithful

  lemma {:induction false} DirRestoredAt(entries: seq<Entry>, n: nat, i: nat)
    requires PathOrdered(entries) && i < n <= |entries| && entries[i].kind.Dir?
    ensures entries[i].path in DirsOf(entries[..n])
    ensures DirsOf(entries[..n])[entries[i].path] == DirNode(entries[i].mode | OWNER_ALL)
  {
    var last := n - 1;
    assert entries[..n][..last] == entries[..last];
    if i < last {
      DirRestoredAt(entries, last, i);
      PathIsNew(entries, last);
    }
  }

  lemma {:induction false} OtherRestoredAt(codec: ObjectStore.Codec, objects: map<Hash, Bytes>,
                                           dirs: map<string, Node>, entries: seq<Entry>, n: nat, i: nat)
    requires PathOrdered(entries) && i < n <= |entries| && !entries[i].kind.Dir?
    ensures var all := AllOf(codec, objects, dirs, entries[..n]);
            entries[i].path in all && all[entries[i].path] == NodeFor(codec, objects, entries[i])
  {
    var last := n - 1;
    assert entries[..n][..last] == entries[..last];
    if i < last {
      OtherRestoredAt(codec, objects, dirs, entries, last, i);
      PathIsNew(entries, last);
    }
  }

  /** What is in a restored tree, entry by entry. */
  lemma RestoredIsExact(codec: ObjectStore.Codec, objects: map<Hash, Bytes>, entries: seq<Entry>, e: Entry)
    requires PathOrdered(entries) && e in entries
    ensures e.path in Restored(codec, objects, entries)
    ensures Restored(codec, objects, entries)[e.path] ==
            if e.kind.Dir? then DirNode(e.mode | OWNER_ALL) else NodeFor(codec, objects, e)
  {
    assert entries[..|entries|] == entries;
    var i :| 0 <= i < |entries| && entries[i] == e;
    if e.kind.Dir? {
      DirRestoredAt(entries, |entries|, i);
    } else {
      OtherRestoredAt(codec, objects, DirsOf(entries), entries, |entries|, i);
    }
    if e.kind.Dir? {
      DirsAreUntouched(entries, e);
      AllOfAre(codec, objects, DirsOf(entries), entries, e.path);
    }
  }

  lemma {:induction false} RestoredHasNothingElse(codec: ObjectStore.Codec, objects: map<Hash, Bytes>,
                                                  entries: seq<Entry>, p: string)
    requires p in Restored(codec, objects, entries)
    ensures exists e :: e in entries && e.path == p
  {
    if forall e | e in entries :: e.path != p {
      AllOfAre(codec, objects, DirsOf(entries), entries, p);
      DirsOfAre(entries, p);
    }
  }

  /** After a restore into nothing, Verify finds no difference exactly if every directory's mode lets its owner in. */
  lemma VerifyAfterRestore(codec: ObjectStore.Codec, objects: map<Hash, Bytes>, entries: seq<Entry>)
    requires PathOrdered(entries) && AllIntact(codec, objects, entries)
    ensures (forall e | e in entries :: Same(codec, Restored(codec, objects, entries), e)) <==>
            forall e | e in entries && e.kind.Dir? :: e.mode & OWNER_ALL == OWNER_ALL
  {
    forall e | e in entries
      ensures Same(codec, Restored(codec, objects, entries), e) <==> (e.kind.Dir? ==> e.mode & OWNER_ALL == OWNER_ALL)
    {
      RestoredIsExact(codec, objects, entries, e);
    }
  }

  /** The entries describe the tree: one for each path, with its mode, content and target. */
  ghost predicate Describe(codec: ObjectStore.Codec, entries: seq<Entry>, tree: map<string, Node>) {
    && (forall p | p in tree :: exists e :: e in entries && e.path == p)
    && (forall e | e in entries :: e.path in tree && Depicts(codec, e, tree[e.path]))
  }

  predicate Depicts(codec: ObjectStore.Codec, e: Entry, n: Node) {
    match n
    case DirNode(mode) => e.kind.Dir? && e.mode == mode
    case LinkNode(target) => e.kind.Symlink? && e.target == target
    case FileNode(mode, content) =>
      e.kind.File? && e.mode == mode && e.size == |content| && e.hash == codec.hash(content) && e.hash != ZERO_HASH
  }

  /** The tree, except that its owner can get into every directory. */
  function AsRestored(n: Node): Node {
    if n.DirNode? then DirNode(n.mode | OWNER_ALL) else n
  }

  lemma DepictedIsIntact(store: ObjectStore.Store, e: Entry, n: Node)
    requires store.Valid() && store.codec.Addresses() && Depicts(store.codec, e, n) && e.kind.File?
    requires e.hash in store.objects
    ensures Intact(store.codec, store.objects, e) && NodeFor(store.codec, store.objects, e) == n
  {
    store.OpenReturnsWhatWasPut(n.content);
  }

  /** Restoring a snapshot that describes a tree, with every content in the store, into nothing gives that tree: every
      path, type, link target, file mode and byte. */
  lemma RestoringGivesTheTree(store: ObjectStore.Store, entries: seq<Entry>, tree: map<string, Node>)
    requires store.Valid() && store.codec.Addresses() && PathOrdered(entries) && Describe(store.codec, entries, tree)
    requires forall e | e in entries && e.kind.File? :: e.hash in store.objects
    ensures AllIntact(store.codec, store.objects, entries)
    ensures Restored(store.codec, store.objects, entries) == map p | p in tree :: AsRestored(tree[p])
  {
    var restored := Restored(store.codec, store.objects, entries);
    forall e | e in entries
      ensures e.kind.File? ==> Intact(store.codec, store.objects, e)
      ensures e.path in restored && restored[e.path] == AsRestored(tree[e.path])
    {
      RestoredIsExact(store.codec, store.objects, entries, e);
      if e.kind.File? {
        DepictedIsIntact(store, e, tree[e.path]);
      }
    }
    forall p | p in restored ensures p in tree {
      RestoredHasNothingElse(store.codec, store.objects, entries, p);
    }
  }
}
