/** How entries become a tree, one at a time: which directories are listed, which are invented, and which of the entries
    can be reached in the end. */
module TreeShape {
  import opened Text
  import opened Index
  import opened Paths

  datatype Node = Node(name: string, path: string, kind: EntryType, size: nat, modTime: int, target: string,
                       children: nat, subBytes: nat)

  /** path.Base of a path without a trailing slash. */
  function Base(p: string): string {
    p[LastSlash(p) + 1..]
  }

  function NodeOf(e: Entry): Node {
    Node(Base(e.path), e.path, e.kind, e.size, e.modTime, e.target, 0, 0)
  }

  function InventedDir(dir: string): Node {
    Node(Base(dir), dir, Dir, 0, 0, "", 0, 0)
  }

  /** The listings of the directories, and every node by its path. */
  datatype Shape = Shape(children: map<string, seq<Node>>, byPath: map<string, Node>)

  function Listing(children: map<string, seq<Node>>, dir: string): seq<Node> {
    if dir in children then children[dir] else []
  }

  /** A node is entered and put into a listing. */
  function Entered(t: Shape, dir: string, n: Node): Shape {
    Shape(t.children[dir := Listing(t.children, dir) + [n]], t.byPath[n.path := n])
  }

  /** A listing for a directory that has none. If there is no node for it either, one is invented and listed, which may
      make a listing for a directory above that nothing else has named. */
  function Opened(t: Shape, dir: string): Shape {
    var placed := t.(children := t.children[dir := []]);
    if dir in t.byPath then placed else Entered(placed, ParentOf(dir), InventedDir(dir))
  }

  /** Going up until a directory has a listing. */
  function Ensured(t: Shape, dir: string): (r: Shape)
    ensures t.children.Keys <= r.children.Keys && (dir != "" ==> dir in r.children)
    decreases |dir|
  {
    if dir == "" || dir in t.children then t else Ensured(Opened(t, dir), ParentOf(dir))
  }

  function Placed(t: Shape, e: Entry): Shape {
    var listed := Entered(t, ParentOf(e.path), NodeOf(e));
    if e.kind.Dir? && e.path !in listed.children then listed.(children := listed.children[e.path := []]) else listed
  }

  function Added(t: Shape, e: Entry): Shape {
    Placed(Ensured(t.(byPath := t.byPath[e.path := NodeOf(e)]), ParentOf(e.path)), e)
  }

  function Loaded(index: seq<Entry>): (t: Shape)
    ensures "" in t.children
  {
    if index == [] then Shape(map["" := []], map[])
    else Added(Loaded(index[..|index| - 1]), index[|index| - 1])
  }

  // ----------------------------------------------- it stops after one level

  /** Every node has a listing to be in. */
  ghost predicate Roomy(t: Shape) {
    "" in t.children && forall p | p in t.byPath :: ParentOf(p) in t.children
  }

  function Prepared(t: Shape, dir: string): Shape {
    if dir == "" || dir in t.children then t else Opened(t, dir)
  }

  /** What has been listed has a directory with a listing, and then the way up ends. */
  lemma EnsuredStops(t: Shape, dir: string)
    requires "" in t.children && (dir in t.byPath ==> ParentOf(dir) in t.children)
    ensures Ensured(t, dir) == Prepared(t, dir)
  {
    if dir != "" && dir !in t.children {
      assert ParentOf(dir) in Opened(t, dir).children;
      assert Ensured(Opened(t, dir), ParentOf(dir)) == Opened(t, dir);
    }
  }

  lemma SamePlaced(t: Shape, u: Shape, e: Entry)
    requires t.children == u.children && t.byPath[e.path := NodeOf(e)] == u.byPath[e.path := NodeOf(e)]
    ensures Placed(t, e) == Placed(u, e)
  {
  }

  lemma InsertedTwice<V>(m: map<string, V>, a: string, x: V, b: string, y: V)
    ensures m[a := x][a := x] == m[a := x]
    ensures a != b ==> m[a := x][b := y][a := x] == m[b := y][a := x]
  {
  }

  lemma SameListings(t: Shape, u: Shape, dir: string)
    requires t.children == u.children && (dir in t.byPath <==> dir in u.byPath)
    ensures Opened(t, dir).children == Opened(u, dir).children
  {
  }

  function NodesOpened(nodes: map<string, Node>, dir: string): map<string, Node> {
    if dir in nodes then nodes else nodes[dir := InventedDir(dir)]
  }

  lemma OpenedNodes(t: Shape, dir: string)
    ensures Opened(t, dir).byPath == NodesOpened(t.byPath, dir)
  {
  }

  /** That the node of an entry is entered before its directory is looked for makes no difference. */
  lemma NamedFirst(t: Shape, e: Entry, dir: string)
    requires dir != e.path
    ensures Placed(Prepared(t.(byPath := t.byPath[e.path := NodeOf(e)]), dir), e) == Placed(Prepared(t, dir), e)
  {
    var named := t.(byPath := t.byPath[e.path := NodeOf(e)]);
    InsertedTwice(t.byPath, e.path, NodeOf(e), dir, InventedDir(dir));
    SameListings(t, named, dir);
    OpenedNodes(t, dir);
    OpenedNodes(named, dir);
    if dir == "" || dir in t.children {
      SamePlaced(named, t, e);
    } else {
      SamePlaced(Opened(named, dir), Opened(t, dir), e);
    }
  }

  /** So adding an entry is at most one invention and the placing of the entry. */
  lemma AddedIs(t: Shape, e: Entry)
    requires Roomy(t) && Relative(e.path)
    ensures Added(t, e) == Placed(Prepared(t, ParentOf(e.path)), e)
  {
    var parent := ParentOf(e.path);
    AllAboveTheParent(e.path);
    EnsuredStops(t.(byPath := t.byPath[e.path := NodeOf(e)]), parent);
    NamedFirst(t, e, parent);
  }

  /** A node that is there is not invented again. */
  lemma {:induction false} EnsuredKeepsNodes(t: Shape, dir: string, p: string)
    requires p in t.byPath
    ensures p in Ensured(t, dir).byPath && Ensured(t, dir).byPath[p] == t.byPath[p]
    decreases |dir|
  {
    if dir != "" && dir !in t.children {
      OpenedNodes(t, dir);
      EnsuredKeepsNodes(Opened(t, dir), ParentOf(dir), p);
    }
  }

  // -------------------------------------------------------- what always holds

  /** Whatever is listed is the node of its path, in the listing it belongs to. */
  ghost predicate Consistent(t: Shape) {
    forall dir, n | dir in t.children && n in t.children[dir] ::
      n.path in t.byPath && t.byPath[n.path] == n && ParentOf(n.path) == dir
  }

  /** Nodes are of relative paths and have no totals yet. */
  ghost predicate Plain(nodes: map<string, Node>) {
    forall p | p in nodes :: nodes[p].path == p && Relative(p) && nodes[p].children == 0 && nodes[p].subBytes == 0
  }

  /** Every entry has its node. */
  ghost predicate Named(nodes: map<string, Node>, index: seq<Entry>) {
    forall e | e in index :: e.path in nodes && nodes[e.path] == NodeOf(e)
  }

  /** Every node is that of an entry, or was invented to list an entry in it. */
  ghost predicate Accounted(t: Shape, index: seq<Entry>) {
    forall p | p in t.byPath :: HasPath(index, p) || (p in t.children && HasChild(index, p))
  }

  ghost predicate Sane(t: Shape, index: seq<Entry>) {
    Roomy(t) && Consistent(t) && Plain(t.byPath) && Named(t.byPath, index) && Accounted(t, index)
  }

  lemma EnteredIsConsistent(t: Shape, dir: string, n: Node)
    requires Consistent(t) && n.path !in t.byPath && ParentOf(n.path) == dir
    ensures Consistent(Entered(t, dir, n))
  {
    var u := Entered(t, dir, n);
    forall d, m | d in u.children && m in u.children[d]
      ensures m.path in u.byPath && u.byPath[m.path] == m && ParentOf(m.path) == d
    {
      if m != n {
        assert d in t.children && m in t.children[d];
      }
    }
  }

  lemma RoomIsConsistent(t: Shape, dir: string)
    requires Consistent(t) && dir !in t.children
    ensures Consistent(t.(children := t.children[dir := []]))
  {
  }

  lemma AddedIsConsistent(t: Shape, e: Entry)
    requires Roomy(t) && Consistent(t) && e.path !in t.byPath && Relative(e.path)
    ensures Consistent(Added(t, e))
  {
    var parent := ParentOf(e.path);
    AddedIs(t, e);
    AllAboveTheParent(e.path);
    var u := Prepared(t, parent);
    if parent != "" && parent !in t.children {
      RoomIsConsistent(t, parent);
      if parent !in t.byPath {
        EnteredIsConsistent(t.(children := t.children[parent := []]), ParentOf(parent), InventedDir(parent));
      }
    }
    assert e.path !in u.byPath;
    var listed := Entered(u, parent, NodeOf(e));
    EnteredIsConsistent(u, parent, NodeOf(e));
    if e.path !in listed.children {
      RoomIsConsistent(listed, e.path);
    }
  }

  lemma AddedIsRoomy(t: Shape, e: Entry)
    requires Roomy(t) && Relative(e.path)
    ensures Roomy(Added(t, e))
  {
    AddedIs(t, e);
  }

  function NodesBefore(t: Shape, e: Entry): map<string, Node> {
    var parent := ParentOf(e.path);
    if parent == "" || parent in t.children then t.byPath else NodesOpened(t.byPath, parent)
  }

  lemma AddedNodes(t: Shape, e: Entry)
    requires Roomy(t) && Relative(e.path)
    ensures Added(t, e).byPath == NodesBefore(t, e)[e.path := NodeOf(e)]
  {
    AddedIs(t, e);
    OpenedNodes(t, ParentOf(e.path));
  }

  lemma PlainMore(nodes: map<string, Node>, n: Node)
    requires Plain(nodes) && Relative(n.path) && n.children == 0 && n.subBytes == 0
    ensures Plain(nodes[n.path := n])
  {
  }

  lemma AddedIsPlain(t: Shape, e: Entry)
    requires Roomy(t) && Plain(t.byPath) && Relative(e.path)
    ensures Plain(Added(t, e).byPath)
  {
    var parent := ParentOf(e.path);
    AddedNodes(t, e);
    AllAboveTheParent(e.path);
    if parent != "" {
      PlainMore(t.byPath, InventedDir(parent));
    }
    PlainMore(NodesBefore(t, e), NodeOf(e));
  }

  lemma StillNamed(nodes: map<string, Node>, n: Node, index: seq<Entry>)
    requires Named(nodes, index) && n.path !in nodes
    ensures Named(nodes[n.path := n], index)
  {
  }

  lemma OneNameMore(nodes: map<string, Node>, index: seq<Entry>, e: Entry)
    requires Named(nodes, index) && e.path !in nodes
    ensures Named(nodes[e.path := NodeOf(e)], index + [e])
  {
    StillNamed(nodes, NodeOf(e), index);
    assert forall f | f in index + [e] :: f in index || f == e;
  }

  lemma AddedIsNamed(t: Shape, index: seq<Entry>, e: Entry)
    requires Roomy(t) && Relative(e.path) && Named(t.byPath, index) && e.path !in t.byPath
    ensures Named(Added(t, e).byPath, index + [e])
  {
    var parent := ParentOf(e.path);
    AddedNodes(t, e);
    AllAboveTheParent(e.path);
    if parent !in t.byPath {
      StillNamed(t.byPath, InventedDir(parent), index);
    }
    OneNameMore(NodesBefore(t, e), index, e);
  }

  predicate HasPath(index: seq<Entry>, p: string) {
    exists e :: e in index && e.path == p
  }

  predicate HasChild(index: seq<Entry>, p: string) {
    exists e :: e in index && ParentOf(e.path) == p
  }

  lemma OneEntryMore(index: seq<Entry>, e: Entry, p: string)
    ensures HasPath(index + [e], p) <==> HasPath(index, p) || e.path == p
    ensures HasChild(index + [e], p) <==> HasChild(index, p) || ParentOf(e.path) == p
  {
    assert forall f :: f in index + [e] <==> f in index || f == e;
  }

  lemma AddedNames(t: Shape, e: Entry)
    requires Roomy(t) && Relative(e.path)
    ensures var u := Added(t, e);
            && t.children.Keys <= u.children.Keys
            && forall p | p in u.byPath :: p in t.byPath || p == e.path || (p == ParentOf(e.path) && p in u.children)
  {
    AddedIs(t, e);
  }

  lemma AddedIsAccounted(t: Shape, index: seq<Entry>, e: Entry)
    requires Roomy(t) && Relative(e.path) && Accounted(t, index)
    ensures Accounted(Added(t, e), index + [e])
  {
    AddedNames(t, e);
    forall p | p in Added(t, e).byPath
      ensures HasPath(index + [e], p) || (p in Added(t, e).children && HasChild(index + [e], p))
    {
      OneEntryMore(index, e, p);
    }
  }

  /** In path order nothing has been invented at the path of an entry still to come. */
  lemma NextIsNew(t: Shape, index: seq<Entry>, e: Entry)
    requires PathOrdered(index + [e]) && Accounted(t, index)
    ensures e.path !in t.byPath
  {
    var more := index + [e];
    forall f | f in index ensures Less(f.path, e.path) && Relative(f.path) {
      var i :| 0 <= i < |index| && index[i] == f;
      assert more[i] == f && more[|index|] == e;
    }
    if e.path in t.byPath {
      if HasPath(index, e.path) {
        var f :| f in index && f.path == e.path;
        LessIsStrict(f.path, e.path);
      } else {
        var f :| f in index && ParentOf(f.path) == e.path;
        assert Relative(e.path) by { assert e in more; }
        PrefixIsLess(e.path, f.path);
        LessIsStrict(f.path, e.path);
      }
    }
  }

  lemma PrefixIsOrdered(index: seq<Entry>, n: nat)
    requires PathOrdered(index) && n <= |index|
    ensures PathOrdered(index[..n])
  {
  }

  lemma {:induction false} LoadedIsSane(index: seq<Entry>)
    requires PathOrdered(index)
    ensures Sane(Loaded(index), index)
  {
    if index != [] {
      var rest, e := index[..|index| - 1], index[|index| - 1];
      assert index == rest + [e] && e in index;
      PrefixIsOrdered(index, |index| - 1);
      LoadedIsSane(rest);
      var t := Loaded(rest);
      NextIsNew(t, rest, e);
      AddedIsRoomy(t, e);
      AddedIsConsistent(t, e);
      AddedIsPlain(t, e);
      AddedIsNamed(t, rest, e);
      AddedIsAccounted(t, rest, e);
    }
  }

  // --------------------------------------------------- what can be reached

  /** Opening directories from the root leads to the path, and it is a directory if it is to be opened itself. */
  ghost predicate Reached(children: map<string, seq<Node>>, p: string, asDir: bool)
    decreases |p|
  {
    var parent := ParentOf(p);
    && (exists n :: n in Listing(children, parent) && n.path == p && (asDir ==> n.kind.Dir?))
    && (parent != "" ==> |parent| < |p| && Reached(children, parent, true))
  }

  /** Every listed node is listed in the other tree too, as a node of the same kind. */
  ghost predicate Covers(children: map<string, seq<Node>>, others: map<string, seq<Node>>) {
    forall dir, n | dir in children && n in children[dir] ::
      exists m :: m in Listing(others, dir) && m.path == n.path && m.kind == n.kind
  }

  lemma {:induction false} CoveredIsReached(children: map<string, seq<Node>>, others: map<string, seq<Node>>, p: string,
                                            asDir: bool)
    requires Covers(children, others) && Reached(children, p, asDir)
    ensures Reached(others, p, asDir)
    decreases |p|
  {
    var parent := ParentOf(p);
    var n :| n in Listing(children, parent) && n.path == p && (asDir ==> n.kind.Dir?);
    var m :| m in Listing(others, parent) && m.path == n.path && m.kind == n.kind;
    if parent != "" {
      CoveredIsReached(children, others, parent, true);
    }
  }

  /** Reaching a path depends on the listings of what is above it. */
  lemma {:induction false} ReachedFromAbove(a: map<string, seq<Node>>, b: map<string, seq<Node>>, p: string, asDir: bool)
    requires forall dir | |dir| < |p| :: Listing(a, dir) == Listing(b, dir)
    requires ParentOf(p) != p
    ensures Reached(a, p, asDir) <==> Reached(b, p, asDir)
    decreases |p|
  {
    var parent := ParentOf(p);
    if parent != "" {
      if ParentOf(parent) != parent {
        ReachedFromAbove(a, b, parent, true);
      }
    }
  }

  /** An invented directory can be reached exactly if what is above it could be before. */
  lemma InventedIsReachedIff(t: Shape, dir: string)
    requires "" in t.children && Relative(dir) && dir !in t.children && dir !in t.byPath
    ensures var children := Ensured(t, dir).children;
            Reached(children, dir, true) <==> ParentOf(dir) == "" || Reached(t.children, ParentOf(dir), true)
  {
    var above := ParentOf(dir);
    AllAboveTheParent(dir);
    EnsuredStops(t, dir);
    var u := Opened(t, dir);
    assert InventedDir(dir) in Listing(u.children, above);
    if above != "" {
      AllAboveTheParent(above);
      assert forall d | |d| < |above| :: Listing(u.children, d) == Listing(t.children, d);
      ReachedFromAbove(t.children, u.children, above, true);
    }
  }

  predicate HasDir(index: seq<Entry>, p: string) {
    exists e :: e in index && e.path == p && e.kind.Dir?
  }

  /** The entry's directory is an entry; or nothing is there and what is above it is the root, a directory that is an
      entry, or one that an earlier entry lies directly in and nothing else is there. */
  predicate Supported(index: seq<Entry>, i: nat)
    requires i < |index|
  {
    var dir := ParentOf(index[i].path);
    var above := ParentOf(dir);
    || dir == "" || HasDir(index, dir)
    || (!HasPath(index, dir) &&
        (above == "" || HasDir(index, above) ||
         (!HasPath(index, above) && exists j :: 0 <= j < i && ParentOf(index[j].path) == above)))
  }

  predicate Bridged(index: seq<Entry>) {
    forall i | 0 <= i < |index| :: Supported(index, i)
  }

  /** A listing nothing leads to. */
  ghost predicate Orphan(t: Shape, q: string) {
    q in t.children && q !in t.byPath
  }

  lemma OrphanStays(t: Shape, q: string, e: Entry)
    requires Roomy(t) && Relative(e.path) && Orphan(t, q) && e.path != q
    ensures Orphan(Added(t, e), q)
  {
    AddedNames(t, e);
    AddedNodes(t, e);
  }

  lemma LoadedOfMore(index: seq<Entry>, e: Entry)
    ensures Loaded(index + [e]) == Added(Loaded(index), e)
  {
    assert (index + [e])[..|index|] == index;
  }

  lemma LoadedNext(index: seq<Entry>, n: nat)
    requires n < |index|
    ensures Loaded(index[..n + 1]) == Added(Loaded(index[..n]), index[n])
  {
    assert index[..n + 1][..n] == index[..n];
  }

  lemma LoadedPrefixIsSane(index: seq<Entry>, n: nat)
    requires PathOrdered(index) && n <= |index|
    ensures Roomy(Loaded(index[..n])) && Accounted(Loaded(index[..n]), index[..n])
    ensures n < |index| ==> Relative(index[n].path)
  {
    PrefixIsOrdered(index, n);
    LoadedIsSane(index[..n]);
    assert n < |index| ==> index[n] in index;
  }

  ghost predicate OrphanAt(index: seq<Entry>, n: nat, q: string)
    requires n <= |index|
  {
    Orphan(Loaded(index[..n]), q)
  }

  ghost predicate StaysOrphan(index: seq<Entry>, n: nat, q: string)
    requires n < |index|
  {
    OrphanAt(index, n, q) ==> OrphanAt(index, n + 1, q)
  }

  lemma OrphanNext(index: seq<Entry>, n: nat, q: string)
    requires PathOrdered(index) && n < |index| && index[n].path != q
    ensures StaysOrphan(index, n, q)
  {
    LoadedPrefixIsSane(index, n);
    LoadedNext(index, n);
    if OrphanAt(index, n, q) {
      OrphanStays(Loaded(index[..n]), q, index[n]);
    }
  }

  lemma {:induction false} OrphanForGood(index: seq<Entry>, i: nat, q: string)
    requires i <= |index| && OrphanAt(index, i, q) && forall n | i <= n < |index| :: StaysOrphan(index, n, q)
    ensures OrphanAt(index, |index|, q)
    decreases |index| - i
  {
    if i < |index| {
      assert StaysOrphan(index, i, q);
      OrphanForGood(index, i + 1, q);
    }
  }

  lemma NotLater(index: seq<Entry>, i: nat, p: string)
    requires PathOrdered(index) && i < |index| && p < index[i].path
    ensures forall j | i <= j < |index| :: index[j].path != p
  {
    PrefixIsLess(p, index[i].path);
    forall j | i <= j < |index| ensures index[j].path != p {
      LessIsStrict(p, index[i].path);
    }
  }

  /** An entry whose directory is not there, in one that is not there either and in which nothing has been found yet. */
  lemma MakesAnOrphan(t: Shape, index: seq<Entry>, e: Entry) returns (q: string)
    requires Roomy(t) && Accounted(t, index) && Relative(e.path)
    requires var dir := ParentOf(e.path);
             && dir != "" && !HasPath(index, dir) && ParentOf(dir) != "" && !HasPath(index, ParentOf(dir))
             && !HasChild(index, ParentOf(dir))
    ensures Orphan(Added(t, e), q) && (q == ParentOf(e.path) || q == ParentOf(ParentOf(e.path)))
  {
    var dir := ParentOf(e.path);
    var above := ParentOf(dir);
    AllAboveTheParent(e.path);
    AllAboveTheParent(dir);
    assert above !in t.byPath;
    if dir in t.children && dir !in t.byPath {
      q := dir;
      OrphanStays(t, q, e);
    } else if dir in t.children {
      q := above;
      OrphanStays(t, q, e);
    } else {
      q := above;
      AddedIs(t, e);
      AddedNodes(t, e);
    }
  }

  lemma UnlistedIsUnreachable(t: Shape, q: string, asDir: bool)
    requires Consistent(t) && q !in t.byPath
    ensures !Reached(t.children, q, asDir)
  {
  }

  lemma OnlyDirsOpen(t: Shape, q: string)
    requires Consistent(t) && q in t.byPath && !t.byPath[q].kind.Dir?
    ensures !Reached(t.children, q, true)
  {
  }

  lemma NotADirectory(index: seq<Entry>, q: string)
    requires PathOrdered(index) && HasPath(index, q) && !HasDir(index, q)
    ensures !Reached(Loaded(index).children, q, true)
  {
    LoadedIsSane(index);
    var e :| e in index && e.path == q;
    OnlyDirsOpen(Loaded(index), q);
  }

  /** The directory of an entry is not there, and what is above it is not there either nor has an earlier entry in it. */
  predicate Dangling(index: seq<Entry>, i: nat)
    requires i < |index|
  {
    var dir := ParentOf(index[i].path);
    && dir != "" && !HasPath(index, dir) && ParentOf(dir) != "" && !HasPath(index, ParentOf(dir))
    && forall j | 0 <= j < i :: ParentOf(index[j].path) != ParentOf(dir)
  }

  lemma OrphanFrom(index: seq<Entry>, i: nat) returns (q: string)
    requires PathOrdered(index) && i < |index| && Dangling(index, i)
    ensures q == ParentOf(index[i].path) || q == ParentOf(ParentOf(index[i].path))
    ensures OrphanAt(index, i + 1, q)
  {
    LoadedPrefixIsSane(index, i);
    LoadedNext(index, i);
    assert forall f | f in index[..i] :: f in index;
    q := MakesAnOrphan(Loaded(index[..i]), index[..i], index[i]);
  }

  lemma NotLaterThanItsEntry(index: seq<Entry>, i: nat, q: string)
    requires PathOrdered(index) && i < |index| && ParentOf(index[i].path) != "" && ParentOf(ParentOf(index[i].path)) != ""
    requires q == ParentOf(index[i].path) || q == ParentOf(ParentOf(index[i].path))
    ensures forall j | i <= j < |index| :: index[j].path != q
  {
    assert index[i] in index;
    AllAboveTheParent(index[i].path);
    AllAboveTheParent(ParentOf(index[i].path));
    NotLater(index, i, q);
  }

  lemma AllStayOrphans(index: seq<Entry>, i: nat, q: string)
    requires PathOrdered(index) && forall j | i <= j < |index| :: index[j].path != q
    ensures forall n | i <= n < |index| :: StaysOrphan(index, n, q)
  {
    forall n | i <= n < |index| ensures StaysOrphan(index, n, q) {
      OrphanNext(index, n, q);
    }
  }

  lemma StaysAfterItsEntry(index: seq<Entry>, i: nat, q: string)
    requires PathOrdered(index) && i < |index| && ParentOf(index[i].path) != "" && ParentOf(ParentOf(index[i].path)) != ""
    requires q == ParentOf(index[i].path) || q == ParentOf(ParentOf(index[i].path))
    ensures forall n | i + 1 <= n < |index| :: StaysOrphan(index, n, q)
  {
    NotLaterThanItsEntry(index, i, q);
    AllStayOrphans(index, i + 1, q);
  }

  lemma NeverListed(index: seq<Entry>, i: nat, q: string)
    requires i <= |index| && OrphanAt(index, i, q) && forall n | i <= n < |index| :: StaysOrphan(index, n, q)
    ensures q !in Loaded(index).byPath
  {
    OrphanForGood(index, i, q);
    assert index[..|index|] == index;
  }

  lemma LeftOut(index: seq<Entry>, i: nat) returns (q: string)
    requires PathOrdered(index) && i < |index| && Dangling(index, i)
    ensures q == ParentOf(index[i].path) || q == ParentOf(ParentOf(index[i].path))
    ensures q !in Loaded(index).byPath
  {
    q := OrphanFrom(index, i);
    StaysAfterItsEntry(index, i, q);
    NeverListed(index, i + 1, q);
  }

  lemma DanglingIsUnreachable(index: seq<Entry>, i: nat)
    requires PathOrdered(index) && i < |index| && Dangling(index, i)
    ensures !Reached(Loaded(index).children, index[i].path, false)
  {
    LoadedIsSane(index);
    var q := LeftOut(index, i);
    UnlistedIsUnreachable(Loaded(index), q, true);
  }

  /** An entry that is not supported cannot be reached. */
  lemma UnsupportedIsUnreachable(index: seq<Entry>, i: nat)
    requires PathOrdered(index) && i < |index| && !Supported(index, i)
    ensures !Reached(Loaded(index).children, index[i].path, false)
  {
    var dir := ParentOf(index[i].path);
    if HasPath(index, dir) {
      NotADirectory(index, dir);
    } else if HasPath(index, ParentOf(dir)) {
      NotADirectory(index, ParentOf(dir));
    } else {
      DanglingIsUnreachable(index, i);
    }
  }
}
