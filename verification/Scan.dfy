/** The walk over the instance directory: what it records, what it leaves out, and the stat-diff. */
module Scan {
  import opened Text
  import opened Index
  import opened Paths
  import opened Sums
  import Glob

  /** What lstat says about a file-system entry. */
  datatype Info = Info(mode: Mode, size: nat, modTime: int, inode: nat)

  /** What a directory entry turns out to be when the walk reaches it. */
  datatype Shape =
    | Regular
    | Link(target: string)
    | BrokenLink                  // its target cannot be read
    | Special                     // a socket, device or pipe
    | Vanished                    // gone between listing and stat

  /** A directory tree at one moment. A directory without a listing cannot be read. */
  datatype Tree =
    | Leaf(shape: Shape, info: Info)
    | Folder(info: Info, listing: seq<Child>, readable: bool)

  datatype Child = Child(name: string, tree: Tree)

  datatype Item = Item(path: string, kind: EntryType, mode: Mode, size: nat, modTime: int, inode: nat,
                       target: string, hot: bool)
  {
    /** The index entry that describes the item, without its content hash. */
    function Entry(): Entry {
      Index.Entry(path, kind, mode, size, modTime, inode, ZERO_HASH, target)
    }
  }

  /** `skip` holds the paths the walk must not enter, the repository itself for instance. */
  datatype Options = Options(exclude: seq<Glob.Pattern>, hot: seq<Glob.Pattern>, skip: set<string>)

  function PathOf(dir: string, name: string): string {
    if dir == "" then name else dir + "/" + name
  }

  // ------------------------------------------------------- one entry at a time

  function Recordable(t: Tree): bool {
    t.Folder? || t.shape.Regular? || t.shape.Link?
  }

  function ItemOf(opts: Options, path: string, t: Tree): Item
    requires Recordable(t)
  {
    var i, hot := t.info, Glob.Excluded(opts.hot, path);
    match t
    case Folder(_, _, _) => Item(path, Dir, i.mode, 0, i.modTime, i.inode, "", hot)
    case Leaf(Link(target), _) => Item(path, Symlink, i.mode, 0, i.modTime, i.inode, target, hot)
    case Leaf(_, _) => Item(path, File, i.mode, i.size, i.modTime, i.inode, "", hot)
  }

  /** What a walk has produced so far. A warning is represented by the path it is about. */
  datatype Report = Report(items: seq<Item>, warnings: seq<string>, excluded: nat, excludedBytes: nat)

  const NOTHING := Report([], [], 0, 0)

  function Plus(a: Report, b: Report): Report {
    Report(a.items + b.items, a.warnings + b.warnings, a.excluded + b.excluded, a.excludedBytes + b.excludedBytes)
  }

  function Record(opts: Options, path: string, t: Tree): Report {
    if Recordable(t) then
      Report([ItemOf(opts, path, t)], if t.Folder? && !t.readable then [path] else [], 0, 0)
    else
      Report([], [path], 0, 0)
  }

  function LeaveOut(t: Tree): Report {
    // The size is only known for what can still be looked at.
    Report([], [], 1, if t.Folder? || t.shape.Vanished? then 0 else t.info.size)
  }

  /** What the walk makes of the entry at `path` and everything beneath it. */
  function Walked(opts: Options, path: string, t: Tree): Report
    decreases t, 1
  {
    if path in opts.skip then NOTHING
    else if Glob.Excluded(opts.exclude, path) then LeaveOut(t)
    else if t.Folder? && t.readable then Plus(Record(opts, path, t), WalkedChildren(opts, path, t.listing))
    else Record(opts, path, t)
  }

  function WalkedChildren(opts: Options, dir: string, children: seq<Child>): Report
    decreases children, 0
  {
    if children == [] then NOTHING
    else
      var rest, last := children[..|children| - 1], children[|children| - 1];
      Plus(WalkedChildren(opts, dir, rest), Walked(opts, PathOf(dir, last.name), last.tree))
  }

  // -------------------------------------------------------------- the walk

  /** The walk's callback state. */
  class Walker {
    const opts: Options
    var report: Report

    constructor (opts: Options)
      ensures this.opts == opts && report == NOTHING
    {
      this.opts, report := opts, NOTHING;
    }

    /** The callback for one entry, then its contents unless the callback says to skip them. */
    method Visit(path: string, t: Tree)
      modifies this
      ensures report == Plus(old(report), Walked(opts, path, t))
      decreases t, 1
    {
      if path in opts.skip {
        return;
      }
      if Glob.Excluded(opts.exclude, path) {
        report := Plus(report, LeaveOut(t));
        return;
      }
      report := Plus(report, Record(opts, path, t));
      if t.Folder? && t.readable {
        VisitAll(path, t.listing);
        PlusIsAssociative(old(report), Record(opts, path, t), WalkedChildren(opts, path, t.listing));
      }
    }

    method VisitAll(dir: string, children: seq<Child>)
      modifies this
      ensures report == Plus(old(report), WalkedChildren(opts, dir, children))
      decreases children, 0
    {
      for n := 0 to |children|
        invariant report == Plus(old(report), WalkedChildren(opts, dir, children[..n]))
      {
        NextChild(opts, dir, children, n, old(report));
        Visit(PathOf(dir, children[n].name), children[n].tree);
      }
      assert children[..|children|] == children;
    }
  }

  lemma NextChild(opts: Options, dir: string, children: seq<Child>, n: nat, before: Report)
    requires n < |children|
    ensures Plus(before, WalkedChildren(opts, dir, children[..n + 1])) ==
            Plus(Plus(before, WalkedChildren(opts, dir, children[..n])),
                 Walked(opts, PathOf(dir, children[n].name), children[n].tree))
  {
    assert children[..n + 1][..n] == children[..n];
    PlusIsAssociative(before, WalkedChildren(opts, dir, children[..n]),
                      Walked(opts, PathOf(dir, children[n].name), children[n].tree));
  }

  lemma PlusIsAssociative(a: Report, b: Report, c: Report)
    ensures Plus(Plus(a, b), c) == Plus(a, Plus(b, c))
  {
  }

  predicate InPathOrder(items: seq<Item>) {
    forall i, j | 0 <= i < j < |items| :: items[i].path == items[j].path || Less(items[i].path, items[j].path)
  }

  lemma InsertedInPathOrder(items: seq<Item>, i: nat, it: Item)
    requires InPathOrder(items) && i <= |items|
    requires forall j | 0 <= j < i :: !Less(it.path, items[j].path)
    requires i < |items| ==> Less(it.path, items[i].path)
    ensures InPathOrder(items[..i] + [it] + items[i..])
  {
    forall j | 0 <= j < i ensures items[j].path == it.path || Less(items[j].path, it.path) {
      LessIsTotal(items[j].path, it.path);
    }
    forall j | i <= j < |items| ensures Less(it.path, items[j].path) {
      if j > i && items[i].path != items[j].path {
        LessIsTransitive(it.path, items[i].path, items[j].path);
      }
    }
  }

  method InsertByPath(sorted: seq<Item>, it: Item) returns (r: seq<Item>)
    requires InPathOrder(sorted)
    ensures InPathOrder(r) && multiset(r) == multiset(sorted) + multiset{it}
  {
    var i := 0;
    while i < |sorted| && !Less(it.path, sorted[i].path)
      invariant i <= |sorted| && forall j | 0 <= j < i :: !Less(it.path, sorted[j].path)
    {
      i := i + 1;
    }
    InsertedInPathOrder(sorted, i, it);
    InsertedOnce(sorted, i, it);
    r := sorted[..i] + [it] + sorted[i..];
  }

  method SortByPath(items: seq<Item>) returns (sorted: seq<Item>)
    ensures InPathOrder(sorted) && multiset(sorted) == multiset(items)
  {
    sorted := [];
    for n := 0 to |items|
      invariant InPathOrder(sorted) && multiset(sorted) == multiset(items[..n])
    {
      assert items[..n + 1] == items[..n] + [items[n]];
      sorted := InsertByPath(sorted, items[n]);
    }
    assert items[..|items|] == items;
  }

  /** Everything below the root, which is itself implied, in path order. */
  method Walk(opts: Options, root: seq<Child>) returns (report: Report)
    ensures var walked := WalkedChildren(opts, "", root);
            && multiset(report.items) == multiset(walked.items) && InPathOrder(report.items)
            && report.(items := []) == walked.(items := [])
  {
    var w := new Walker(opts);
    w.VisitAll("", root);
    var sorted := SortByPath(w.report.items);
    report := w.report.(items := sorted);
  }

  /** The items that can be copied at any time, and those that wait until the application holds still. */
  method Split(items: seq<Item>) returns (cold: seq<Item>, hot: seq<Item>)
    ensures cold == Tier(items, false) && hot == Tier(items, true)
  {
    cold, hot := [], [];
    for n := 0 to |items|
      invariant cold == Tier(items[..n], false) && hot == Tier(items[..n], true)
    {
      assert items[..n + 1][..n] == items[..n];
      if items[n].hot {
        hot := hot + [items[n]];
      } else {
        cold := cold + [items[n]];
      }
    }
    assert items[..|items|] == items;
  }

  function Tier(items: seq<Item>, hot: bool): seq<Item> {
    if items == [] then []
    else
      var rest, last := items[..|items| - 1], items[|items| - 1];
      Tier(rest, hot) + (if last.hot == hot then [last] else [])
  }

  // ----------------------------------------- what a walk yields, entry by entry

  datatype Found = Found(path: string, tree: Tree)

  /** Every entry of the tree, whatever the rules say. */
  function Listing(path: string, t: Tree): seq<Found>
    decreases t, 1
  {
    [Found(path, t)] + (if t.Folder? && t.readable then ListingOfAll(path, t.listing) else [])
  }

  function ListingOfAll(dir: string, children: seq<Child>): seq<Found>
    decreases children, 0
  {
    if children == [] then []
    else
      var rest, last := children[..|children| - 1], children[|children| - 1];
      ListingOfAll(dir, rest) + Listing(PathOf(dir, last.name), last.tree)
  }

  /** Names as a file system allows them. */
  predicate WellNamed(t: Tree)
    decreases t, 1
  {
    t.Folder? ==> AllWellNamed(t.listing)
  }

  predicate AllWellNamed(children: seq<Child>)
    decreases children, 0
  {
    forall c | c in children :: c.name != "" && '/' !in c.name && WellNamed(c.tree)
  }

  predicate Blocked(opts: Options, path: string) {
    path in opts.skip || Glob.Excluded(opts.exclude, path)
  }

  /** The path or a directory above it is left out. */
  ghost predicate Hidden(opts: Options, path: string) {
    exists d :: d != "" && AtOrBelow(path, d) && Blocked(opts, d)
  }

  /** The items for the entries that can be recorded and are not hidden, in the same order. */
  ghost function Visible(opts: Options, all: seq<Found>): seq<Item> {
    if all == [] then []
    else
      var rest, last := all[..|all| - 1], all[|all| - 1];
      Visible(opts, rest) + Shown(opts, last)
  }

  ghost function Shown(opts: Options, f: Found): seq<Item> {
    if Recordable(f.tree) && !Hidden(opts, f.path) then [ItemOf(opts, f.path, f.tree)] else []
  }

  lemma VisibleNext(opts: Options, all: seq<Found>, a: seq<Item>, b: seq<Item>)
    requires all != [] && Visible(opts, all[..|all| - 1]) == a + b
    ensures Visible(opts, all) == a + (b + Shown(opts, all[|all| - 1]))
  {
  }

  lemma {:induction false} VisibleAppend(opts: Options, a: seq<Found>, b: seq<Found>)
    ensures Visible(opts, a + b) == Visible(opts, a) + Visible(opts, b)
  {
    if b == [] {
      assert a + b == a;
    } else {
      var n := |b| - 1;
      assert (a + b)[..|a + b| - 1] == a + b[..n] && (a + b)[|a + b| - 1] == b[n];
      VisibleAppend(opts, a, b[..n]);
      VisibleNext(opts, a + b, Visible(opts, a), Visible(opts, b[..n]));
    }
  }

  lemma {:induction false} VisibleNone(opts: Options, all: seq<Found>)
    requires forall f | f in all :: Hidden(opts, f.path)
    ensures Visible(opts, all) == []
  {
    if all != [] {
      VisibleNone(opts, all[..|all| - 1]);
    }
  }

  lemma {:induction false} ListingIsBelow(path: string, t: Tree)
    requires path != ""
    ensures forall f | f in Listing(path, t) :: AtOrBelow(f.path, path)
    decreases t, 1
  {
    if t.Folder? && t.readable {
      ListingOfAllIsBelow(path, t.listing);
    }
  }

  lemma {:induction false} ListingOfAllIsBelow(dir: string, children: seq<Child>)
    requires dir != ""
    ensures forall f | f in ListingOfAll(dir, children) :: Below(f.path, dir)
    decreases children, 0
  {
    if children != [] {
      var rest, last := children[..|children| - 1], children[|children| - 1];
      ListingOfAllIsBelow(dir, rest);
      var path := PathOf(dir, last.name);
      ListingIsBelow(path, last.tree);
      forall f | f in Listing(path, last.tree) ensures Below(f.path, dir) {
        assert dir + "/" <= path;
      }
    }
  }

  /** No directory above the path is left out. */
  ghost predicate Clear(opts: Options, path: string) {
    forall d :: d != "" && Below(path, d) ==> !Blocked(opts, d)
  }

  lemma ChildIsClear(opts: Options, dir: string, name: string)
    requires name != "" && '/' !in name
    requires dir != "" ==> Clear(opts, dir) && !Blocked(opts, dir)
    ensures Clear(opts, PathOf(dir, name))
  {
    var path := PathOf(dir, name);
    forall d | d != "" && Below(path, d) ensures !Blocked(opts, d) {
      if dir == "" {
        BelowMeansSlash(path, d);
      } else {
        ChildHasNoDeeperAncestor(dir, name, d);
        AncestorsCompare(path, d, dir);
      }
    }
  }

  /** The walk yields exactly the recordable entries with no left-out entry at or above them. */
  lemma {:induction false} WalkedIsVisible(opts: Options, path: string, t: Tree)
    requires path != "" && WellNamed(t) && Clear(opts, path)
    ensures Walked(opts, path, t).items == Visible(opts, Listing(path, t))
    decreases t, 1
  {
    if Blocked(opts, path) {
      ListingIsBelow(path, t);
      VisibleNone(opts, Listing(path, t));
    } else {
      assert !Hidden(opts, path);
      VisibleFirst(opts, path, t);
      if t.Folder? && t.readable {
        WalkedChildrenAreVisible(opts, path, t.listing);
      }
    }
  }

  lemma VisibleFirst(opts: Options, path: string, t: Tree)
    requires !Hidden(opts, path)
    ensures Visible(opts, Listing(path, t)) ==
            Record(opts, path, t).items +
            (if t.Folder? && t.readable then Visible(opts, ListingOfAll(path, t.listing)) else [])
  {
    var one := [Found(path, t)];
    assert one[..0] == [];
    assert Visible(opts, one) == Record(opts, path, t).items;
    if t.Folder? && t.readable {
      VisibleAppend(opts, one, ListingOfAll(path, t.listing));
    } else {
      assert Listing(path, t) == one;
    }
  }

  lemma {:induction false} WalkedChildrenAreVisible(opts: Options, dir: string, children: seq<Child>)
    requires AllWellNamed(children)
    requires dir != "" ==> Clear(opts, dir) && !Blocked(opts, dir)
    ensures WalkedChildren(opts, dir, children).items == Visible(opts, ListingOfAll(dir, children))
    decreases children, 0
  {
    if children != [] {
      var rest, last := children[..|children| - 1], children[|children| - 1];
      WalkedChildrenAreVisible(opts, dir, rest);
      ChildIsClear(opts, dir, last.name);
      WalkedIsVisible(opts, PathOf(dir, last.name), last.tree);
      VisibleAppend(opts, ListingOfAll(dir, rest), Listing(PathOf(dir, last.name), last.tree));
    }
  }

  // ----------------------------------------------- what a walk's items are like

  /** A directory holds each name once. */
  predicate AllProper(children: seq<Child>)
    decreases children, 0
  {
    && (forall i, j | 0 <= i < j < |children| :: children[i].name != children[j].name)
    && forall c | c in children :: c.name != "" && '/' !in c.name && Proper(c.tree)
  }

  predicate Proper(t: Tree)
    decreases t, 1
  {
    t.Folder? ==> AllProper(t.listing)
  }

  lemma PathOfAChild(dir: string, name: string)
    requires name != "" && '/' !in name && (dir == "" || Relative(dir))
    ensures Relative(PathOf(dir, name)) && ParentOf(PathOf(dir, name)) == dir
  {
    var p := PathOf(dir, name);
    LastSlashIsLast(p);
    if dir != "" {
      assert p[|dir|] == '/';
      assert forall i | |dir| < i < |p| :: p[i] in name;
    }
  }

  lemma {:induction false} ItemsAtOrBelow(opts: Options, path: string, t: Tree)
    requires path != ""
    ensures forall it | it in Walked(opts, path, t).items :: AtOrBelow(it.path, path)
    decreases t, 1
  {
    if t.Folder? {
      ItemsBelow(opts, path, t.listing);
    }
  }

  lemma {:induction false} ItemsBelow(opts: Options, dir: string, children: seq<Child>)
    requires dir != ""
    ensures forall it | it in WalkedChildren(opts, dir, children).items :: Below(it.path, dir)
    decreases children, 0
  {
    if children != [] {
      var rest, last := children[..|children| - 1], children[|children| - 1];
      var path := PathOf(dir, last.name);
      ItemsBelow(opts, dir, rest);
      ItemsAtOrBelow(opts, path, last.tree);
      assert Below(path, dir);
      forall it | it in Walked(opts, path, last.tree).items ensures Below(it.path, dir) {
        if it.path != path {
          BelowIsTransitive(it.path, path, dir);
        }
      }
    }
  }

  /** The item's directory is another item, which is a directory. */
  predicate HasParentIn(items: seq<Item>, it: Item) {
    exists d :: d in items && d.kind.Dir? && d.path == ParentOf(it.path)
  }

  lemma StillHasParent(items: seq<Item>, more: seq<Item>, it: Item)
    requires HasParentIn(items, it) && forall d | d in items :: d in more
    ensures HasParentIn(more, it)
  {
  }

  lemma {:induction false} WalkedHasParents(opts: Options, path: string, t: Tree)
    requires Relative(path) && Proper(t)
    ensures forall it | it in Walked(opts, path, t).items ::
              it.path == path || HasParentIn(Walked(opts, path, t).items, it)
    decreases t, 1
  {
    var items := Walked(opts, path, t).items;
    if path !in opts.skip && !Glob.Excluded(opts.exclude, path) && t.Folder? && t.readable {
      var inside := WalkedChildren(opts, path, t.listing).items;
      WalkedChildrenHaveParents(opts, path, t.listing);
      assert ItemOf(opts, path, t) in items && items == [ItemOf(opts, path, t)] + inside;
      forall it | it in inside ensures HasParentIn(items, it) {
        if ParentOf(it.path) != path {
          StillHasParent(inside, items, it);
        }
      }
    }
  }

  /** Every item but those in the directory itself has its directory among the items. */
  lemma {:induction false} WalkedChildrenHaveParents(opts: Options, dir: string, children: seq<Child>)
    requires (dir == "" || Relative(dir)) && AllProper(children)
    ensures forall it | it in WalkedChildren(opts, dir, children).items ::
              ParentOf(it.path) == dir || HasParentIn(WalkedChildren(opts, dir, children).items, it)
    decreases children, 0
  {
    if children != [] {
      var rest, last := children[..|children| - 1], children[|children| - 1];
      var items := WalkedChildren(opts, dir, children).items;
      var before, more := WalkedChildren(opts, dir, rest).items, Walked(opts, PathOf(dir, last.name), last.tree).items;
      assert items == before + more;
      WalkedChildrenHaveParents(opts, dir, rest);
      assert last in children;
      PathOfAChild(dir, last.name);
      WalkedHasParents(opts, PathOf(dir, last.name), last.tree);
      forall it | it in items && ParentOf(it.path) != dir ensures HasParentIn(items, it) {
        if it in before {
          StillHasParent(before, items, it);
        } else {
          StillHasParent(more, items, it);
        }
      }
    }
  }

  /** No two items have the same path. */
  ghost predicate Unique(items: seq<Item>) {
    forall a, b | a in items && b in items && a.path == b.path :: a == b
  }

  lemma ItemsOfAChild(opts: Options, dir: string, children: seq<Child>, it: Item)
    requires it in WalkedChildren(opts, dir, children).items && AllProper(children)
    ensures exists c :: c in children && AtOrBelow(it.path, PathOf(dir, c.name))
  {
    var rest, last := children[..|children| - 1], children[|children| - 1];
    if it in WalkedChildren(opts, dir, rest).items {
      ItemsOfAChild(opts, dir, rest, it);
    } else {
      assert last in children;
      ItemsAtOrBelow(opts, PathOf(dir, last.name), last.tree);
    }
  }

  lemma {:induction false} WalkedIsUnique(opts: Options, path: string, t: Tree)
    requires Relative(path) && Proper(t)
    ensures Unique(Walked(opts, path, t).items)
    decreases t, 1
  {
    if path !in opts.skip && !Glob.Excluded(opts.exclude, path) && t.Folder? && t.readable {
      WalkedChildrenAreUnique(opts, path, t.listing);
      ItemsBelow(opts, path, t.listing);
    }
  }

  lemma NamesApart(dir: string, a: string, b: string, p: string)
    requires (dir == "" || Relative(dir)) && a != "" && '/' !in a && b != "" && '/' !in b && a != b
    ensures !(AtOrBelow(p, PathOf(dir, a)) && AtOrBelow(p, PathOf(dir, b)))
  {
    PathOfAChild(dir, a);
    PathOfAChild(dir, b);
    assert dir != "" ==> PathOf(dir, a)[|dir| + 1..] == a && PathOf(dir, b)[|dir| + 1..] == b;
    SiblingsAreApart(p, PathOf(dir, a), PathOf(dir, b));
  }

  lemma ApartFromLast(opts: Options, dir: string, rest: seq<Child>, last: Child, a: Item, b: Item)
    requires (dir == "" || Relative(dir)) && AllProper(rest) && last.name != "" && '/' !in last.name
    requires forall c | c in rest :: c.name != last.name
    requires a in WalkedChildren(opts, dir, rest).items && b in Walked(opts, PathOf(dir, last.name), last.tree).items
    ensures a.path != b.path
  {
    ItemsOfAChild(opts, dir, rest, a);
    var c :| c in rest && AtOrBelow(a.path, PathOf(dir, c.name));
    PathOfAChild(dir, last.name);
    ItemsAtOrBelow(opts, PathOf(dir, last.name), last.tree);
    NamesApart(dir, c.name, last.name, a.path);
  }

  lemma {:induction false} WalkedChildrenAreUnique(opts: Options, dir: string, children: seq<Child>)
    requires (dir == "" || Relative(dir)) && AllProper(children)
    ensures Unique(WalkedChildren(opts, dir, children).items)
    decreases children, 0
  {
    if children != [] {
      var rest, last := children[..|children| - 1], children[|children| - 1];
      var before, more := WalkedChildren(opts, dir, rest).items, Walked(opts, PathOf(dir, last.name), last.tree).items;
      WalkedChildrenAreUnique(opts, dir, rest);
      assert last in children;
      PathOfAChild(dir, last.name);
      WalkedIsUnique(opts, PathOf(dir, last.name), last.tree);
      assert forall c | c in rest :: c.name != last.name && c in children;
      forall a, b | a in before && b in more ensures a.path != b.path {
        ApartFromLast(opts, dir, rest, last, a, b);
      }
    }
  }

  /** What a walk from the root finds: relative paths, each once, and every directory above one of them. */
  ghost predicate Complete(items: seq<Item>) {
    && Unique(items)
    && forall it | it in items :: Relative(it.path) && (ParentOf(it.path) == "" || HasParentIn(items, it))
  }

  lemma ItemsAreRelative(opts: Options, children: seq<Child>, it: Item)
    requires it in WalkedChildren(opts, "", children).items && AllProper(children)
    ensures Relative(it.path)
  {
    ItemsOfAChild(opts, "", children, it);
  }

  lemma WalkIsComplete(opts: Options, root: seq<Child>, items: seq<Item>)
    requires AllProper(root) && multiset(items) == multiset(WalkedChildren(opts, "", root).items)
    ensures Complete(items)
  {
    var walked := WalkedChildren(opts, "", root).items;
    WalkedChildrenHaveParents(opts, "", root);
    WalkedChildrenAreUnique(opts, "", root);
    assert forall it :: it in items <==> it in walked by {
      forall it ensures it in items <==> it in walked {
        assert it in multiset(items) <==> it in multiset(walked);
      }
    }
    forall it | it in items ensures Relative(it.path) && (ParentOf(it.path) == "" || HasParentIn(items, it)) {
      ItemsAreRelative(opts, root, it);
      if ParentOf(it.path) != "" {
        StillHasParent(walked, items, it);
      }
    }
  }

  // ----------------------------------------------------------- pruning filters

  ghost predicate OnlyExcludes(rules: seq<Glob.Pattern>) {
    Glob.FromGlobs(rules) && forall r | r in rules :: !r.negate
  }

  /** Apart from what is skipped, a path is hidden exactly if the rules exclude the path itself. */
  lemma HiddenMeansExcluded(opts: Options, path: string)
    requires OnlyExcludes(opts.exclude) && path != "" && Glob.OneLine(path)
    ensures Hidden(opts, path) <==> Hidden(opts.(exclude := []), path) || Glob.Excluded(opts.exclude, path)
  {
    var free := opts.(exclude := []);
    if Hidden(opts, path) {
      var d :| d != "" && AtOrBelow(path, d) && Blocked(opts, d);
      if d in opts.skip {
        assert Blocked(free, d);
      } else if d != path {
        Glob.ExclusionGoesDeeper(opts.exclude, d, path);
      }
    }
    if Hidden(free, path) {
      var d :| d != "" && AtOrBelow(path, d) && Blocked(free, d);
      assert Blocked(opts, d);
    }
    if Glob.Excluded(opts.exclude, path) {
      assert AtOrBelow(path, path) && Blocked(opts, path);
    }
  }

  /** The items the rules let pass. */
  function Passing(rules: seq<Glob.Pattern>, items: seq<Item>): seq<Item> {
    if items == [] then []
    else
      var rest, last := items[..|items| - 1], items[|items| - 1];
      Passing(rules, rest) + (if Glob.Excluded(rules, last.path) then [] else [last])
  }

  lemma PassingOneMore(rules: seq<Glob.Pattern>, items: seq<Item>, it: Item)
    ensures Passing(rules, items + [it]) == Passing(rules, items) + (if Glob.Excluded(rules, it.path) then [] else [it])
  {
    assert (items + [it])[..|items|] == items;
  }

  ghost predicate OrdinaryPaths(all: seq<Found>) {
    forall f | f in all :: f.path != "" && Glob.OneLine(f.path)
  }

  lemma ShownIsPassing(opts: Options, items: seq<Item>, f: Found)
    requires OnlyExcludes(opts.exclude) && f.path != "" && Glob.OneLine(f.path)
    ensures Passing(opts.exclude, items + Shown(opts.(exclude := []), f)) ==
            Passing(opts.exclude, items) + Shown(opts, f)
  {
    var free := opts.(exclude := []);
    HiddenMeansExcluded(opts, f.path);
    if Recordable(f.tree) && !Hidden(free, f.path) {
      PassingOneMore(opts.exclude, items, ItemOf(free, f.path, f.tree));
    } else {
      assert items + [] == items;
    }
  }

  lemma {:induction false} VisibleIsPassing(opts: Options, all: seq<Found>)
    requires OnlyExcludes(opts.exclude) && OrdinaryPaths(all)
    ensures Visible(opts, all) == Passing(opts.exclude, Visible(opts.(exclude := []), all))
  {
    if all != [] {
      var rest, last := all[..|all| - 1], all[|all| - 1];
      VisibleIsPassing(opts, rest);
      ShownIsPassing(opts, Visible(opts.(exclude := []), rest), last);
    }
  }

  /** Pruning excluded directories during the walk gives what filtering a full listing would. Both walks skip the same
      paths. */
  lemma PruningOnlyFilters(opts: Options, root: seq<Child>)
    requires OnlyExcludes(opts.exclude)
    requires AllWellNamed(root) && OrdinaryPaths(ListingOfAll("", root))
    ensures WalkedChildren(opts, "", root).items ==
            Passing(opts.exclude, WalkedChildren(opts.(exclude := []), "", root).items)
  {
    WalkedChildrenAreVisible(opts, "", root);
    WalkedChildrenAreVisible(opts.(exclude := []), "", root);
    VisibleIsPassing(opts, ListingOfAll("", root));
  }

  // ---------------------------------------------- one set of rules after another

  /** Without negations more rules exclude what either set does. */
  lemma {:induction false} EitherExcludes(first: seq<Glob.Pattern>, second: seq<Glob.Pattern>, path: string)
    requires forall r | r in first + second :: !r.negate
    ensures Glob.Excluded(first + second, path) <==> Glob.Excluded(first, path) || Glob.Excluded(second, path)
  {
    if second == [] {
      assert first + second == first;
    } else {
      var rest := second[..|second| - 1];
      assert (first + second)[..|first + second| - 1] == first + rest;
      assert forall r | r in first + rest :: r in first + second;
      EitherExcludes(first, rest, path);
      assert second[|second| - 1] in first + second;
    }
  }

  lemma {:induction false} PassingTwice(first: seq<Glob.Pattern>, second: seq<Glob.Pattern>, items: seq<Item>)
    requires forall r | r in first + second :: !r.negate
    ensures Passing(second, Passing(first, items)) == Passing(first + second, items)
  {
    if items != [] {
      var rest, last := items[..|items| - 1], items[|items| - 1];
      PassingTwice(first, second, rest);
      EitherExcludes(first, second, last.path);
      if !Glob.Excluded(first, last.path) {
        PassingOneMore(second, Passing(first, rest), last);
      } else {
        assert Passing(first, rest) + [] == Passing(first, rest);
      }
    }
  }

  /** Filtering what a walk under some rules found by further ones gives what a walk under all of them finds. */
  lemma FurtherRulesOnlyFilter(opts: Options, more: seq<Glob.Pattern>, root: seq<Child>)
    requires OnlyExcludes(opts.exclude) && OnlyExcludes(more)
    requires AllWellNamed(root) && OrdinaryPaths(ListingOfAll("", root))
    ensures Passing(more, WalkedChildren(opts, "", root).items) ==
            WalkedChildren(opts.(exclude := opts.exclude + more), "", root).items
  {
    var both := opts.(exclude := opts.exclude + more);
    PruningOnlyFilters(opts, root);
    PruningOnlyFilters(both, root);
    assert both.(exclude := []) == opts.(exclude := []);
    PassingTwice(opts.exclude, more, WalkedChildren(opts.(exclude := []), "", root).items);
  }

  // -------------------------------------------------------- previewing rules

  datatype Preview = Preview(entries: nat, excluded: nat, bytes: nat, samples: seq<string>)

  /** The entries the rules exclude. */
  function Hits(rules: seq<Glob.Pattern>, entries: seq<Entry>): seq<Entry> {
    if entries == [] then []
    else
      var rest, last := entries[..|entries| - 1], entries[|entries| - 1];
      Hits(rules, rest) + (if Glob.Excluded(rules, last.path) then [last] else [])
  }

  function Bytes(entries: seq<Entry>): nat {
    if entries == [] then 0 else Bytes(entries[..|entries| - 1]) + entries[|entries| - 1].size
  }

  function FilePaths(entries: seq<Entry>): seq<string> {
    if entries == [] then []
    else
      var last := entries[|entries| - 1];
      FilePaths(entries[..|entries| - 1]) + (if last.kind.File? then [last.path] else [])
  }

  function FirstTwenty(paths: seq<string>): seq<string> {
    if |paths| <= 20 then paths else paths[..20]
  }

  method PreviewExclusions(rules: seq<Glob.Pattern>, entries: seq<Entry>) returns (out: Preview)
    ensures out == Preview(|entries|, |Hits(rules, entries)|, Bytes(Hits(rules, entries)),
                           FirstTwenty(FilePaths(Hits(rules, entries))))
  {
    out := Preview(0, 0, 0, []);
    for n := 0 to |entries|
      invariant var hits := Hits(rules, entries[..n]);
                out == Preview(n, |hits|, Bytes(hits), FirstTwenty(FilePaths(hits)))
    {
      var e := entries[n];
      out := out.(entries := out.entries + 1);
      HitsOneMore(rules, entries[..n], e);
      assert entries[..n + 1] == entries[..n] + [e];
      if !Glob.Excluded(rules, e.path) {
        assert Hits(rules, entries[..n + 1]) == Hits(rules, entries[..n]);
        continue;
      }
      OneMoreHit(Hits(rules, entries[..n]), e);
      out := out.(excluded := out.excluded + 1, bytes := out.bytes + e.size);
      if |out.samples| < 20 && e.kind.File? {
        out := out.(samples := out.samples + [e.path]);
      }
    }
    assert entries[..|entries|] == entries;
  }

  lemma OneMoreHit(hits: seq<Entry>, e: Entry)
    ensures Bytes(hits + [e]) == Bytes(hits) + e.size
    ensures FilePaths(hits + [e]) == FilePaths(hits) + (if e.kind.File? then [e.path] else [])
  {
    assert (hits + [e])[..|hits|] == hits;
  }

  lemma {:induction false} HitsByCount(rules: seq<Glob.Pattern>, entries: seq<Entry>, e: Entry)
    ensures multiset(Hits(rules, entries))[e] ==
            if Glob.Excluded(rules, e.path) then multiset(entries)[e] else 0
  {
    if entries != [] {
      var rest, last := entries[..|entries| - 1], entries[|entries| - 1];
      HitsByCount(rules, rest, e);
      assert entries == rest + [last];
    }
  }

  function Entries(items: seq<Item>): seq<Entry> {
    if items == [] then [] else Entries(items[..|items| - 1]) + [items[|items| - 1].Entry()]
  }

  lemma SameHits(rules: seq<Glob.Pattern>, a: seq<Entry>, b: seq<Entry>)
    requires multiset(a) == multiset(b)
    ensures multiset(Hits(rules, a)) == multiset(Hits(rules, b))
  {
    forall e: Entry ensures multiset(Hits(rules, a))[e] == multiset(Hits(rules, b))[e] {
      HitsByCount(rules, a, e);
      HitsByCount(rules, b, e);
    }
  }

  lemma OneMore<T>(all: seq<T>, a: seq<T>, b: seq<T>, x: T)
    requires multiset(all) == multiset(a) + multiset(b)
    ensures multiset(all + [x]) == multiset(a + [x]) + multiset(b) == multiset(a) + multiset(b + [x])
  {
  }

  lemma {:induction false} HitsAndPassing(rules: seq<Glob.Pattern>, items: seq<Item>)
    ensures multiset(Entries(items)) == multiset(Hits(rules, Entries(items))) + multiset(Entries(Passing(rules, items)))
  {
    if items != [] {
      var n := |items| - 1;
      assert items == items[..n] + [items[n]];
      HitsAndPassing(rules, items[..n]);
      HitsOrPassing(rules, items[..n], items[n]);
    }
  }

  lemma HitsOrPassing(rules: seq<Glob.Pattern>, rest: seq<Item>, last: Item)
    requires multiset(Entries(rest)) == multiset(Hits(rules, Entries(rest))) + multiset(Entries(Passing(rules, rest)))
    ensures multiset(Entries(rest + [last])) ==
            multiset(Hits(rules, Entries(rest + [last]))) + multiset(Entries(Passing(rules, rest + [last])))
  {
    var es, e, passing := Entries(rest), last.Entry(), Passing(rules, rest);
    EntriesOneMore(rest, last);
    HitsOneMore(rules, es, e);
    PassingOneMore(rules, rest, last);
    OneMore(es, Hits(rules, es), Entries(passing), e);
    if Glob.Excluded(rules, last.path) {
      assert passing + [] == passing;
    } else {
      assert Hits(rules, es) + [] == Hits(rules, es);
      EntriesOneMore(passing, last);
    }
  }

  lemma EntriesOneMore(items: seq<Item>, it: Item)
    ensures Entries(items + [it]) == Entries(items) + [it.Entry()]
  {
    assert (items + [it])[..|items|] == items;
  }

  lemma HitsOneMore(rules: seq<Glob.Pattern>, entries: seq<Entry>, e: Entry)
    ensures Hits(rules, entries + [e]) == Hits(rules, entries) + (if Glob.Excluded(rules, e.path) then [e] else [])
  {
    assert (entries + [e])[..|entries|] == entries;
  }

  /** What a preview of further rules counts on the index of a walk is what a walk of the same tree with those rules
      added leaves out: the hits and the new walk's entries make up the index. */
  lemma PreviewCountsWhatAWalkLeavesOut(opts: Options, more: seq<Glob.Pattern>, root: seq<Child>, index: seq<Entry>)
    requires OnlyExcludes(opts.exclude) && OnlyExcludes(more)
    requires AllWellNamed(root) && OrdinaryPaths(ListingOfAll("", root))
    requires multiset(index) == multiset(Entries(WalkedChildren(opts, "", root).items))
    ensures multiset(index) ==
            multiset(Hits(more, index)) +
            multiset(Entries(WalkedChildren(opts.(exclude := opts.exclude + more), "", root).items))
  {
    FurtherRulesOnlyFilter(opts, more, root);
    var all := WalkedChildren(opts, "", root).items;
    HitsAndPassing(more, all);
    SameHits(more, index, Entries(all));
  }

  // ------------------------------------------------------------ the stat-diff

  /** Whether the previous entry already describes the same content as the item. */
  predicate Unchanged(prev: Entry, it: Item) {
    && prev.kind == it.kind && prev.hash != ZERO_HASH
    && prev.size == it.size && prev.modTime == it.modTime && prev.mode == it.mode
    && (prev.inode == 0 || it.inode == 0 || prev.inode == it.inode)
  }
}
