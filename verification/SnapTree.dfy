/** A snapshot's flat index as a directory tree for a file browser, with what ticking each directory would bring. */
module SnapTree {
  import opened Text
  import opened Index
  import opened Paths
  import opened Sums
  import opened TreeShape

  // ---------------------------------------------------------------- the index

  /** A node and the directory it belongs to. */
  datatype Spot = Spot(parent: string, node: Node)

  function SpotOf(e: Entry): Spot {
    Spot(ParentOf(e.path), NodeOf(e))
  }

  function InventedSpot(dir: string): Spot {
    Spot(ParentOf(dir), InventedDir(dir))
  }

  function WithEntry(spots: seq<Spot>, e: Entry): seq<Spot> {
    var dir := ParentOf(e.path);
    (if dir == "" || dir in Dirs(spots) then spots else spots + [InventedSpot(dir)]) + [SpotOf(e)]
  }

  /** The nodes in the order they come: those of the entries, each after its directory if that has to be invented. */
  function Spots(index: seq<Entry>): seq<Spot> {
    if index == [] then [] else WithEntry(Spots(index[..|index| - 1]), index[|index| - 1])
  }

  function Dirs(spots: seq<Spot>): set<string> {
    set s | s in spots && s.node.kind.Dir? :: s.node.path
  }

  /** The next node is new, and its directory is there. */
  predicate Fresh(spots: seq<Spot>, s: Spot) {
    && s.node.path != "" && (s.parent == "" || s.parent in Dirs(spots))
    && forall t | t in spots :: t.node.path != s.node.path
  }

  predicate Growing(spots: seq<Spot>) {
    spots == [] ||
    var rest, last := spots[..|spots| - 1], spots[|spots| - 1];
    Growing(rest) && Fresh(rest, last)
  }

  lemma {:induction false} GrowingBefore(spots: seq<Spot>, n: nat)
    requires Growing(spots) && n < |spots|
    ensures Growing(spots[..n]) && Fresh(spots[..n], spots[n])
  {
    var last := |spots| - 1;
    if n < last {
      GrowingBefore(spots[..last], n);
      assert spots[..last][..n] == spots[..n];
    }
  }

  // ------------------------------------------------- what the tree is to hold

  /** The nodes directly in a directory, in the index's order. */
  function Kids(spots: seq<Spot>, dir: string): seq<Node> {
    if spots == [] then []
    else
      var rest, last := spots[..|spots| - 1], spots[|spots| - 1];
      if last.parent == dir then Kids(rest, dir) + [last.node] else Kids(rest, dir)
  }

  function Nodes(spots: seq<Spot>): map<string, Node> {
    if spots == [] then map[]
    else
      var rest, last := spots[..|spots| - 1], spots[|spots| - 1];
      Nodes(rest)[last.node.path := last.node]
  }

  function FileBytes(spots: seq<Spot>): nat {
    if spots == [] then 0
    else
      var rest, last := spots[..|spots| - 1], spots[|spots| - 1].node;
      if last.kind.File? then FileBytes(rest) + last.size else FileBytes(rest)
  }

  lemma OneSpotMore(spots: seq<Spot>, s: Spot)
    ensures Nodes(spots + [s]) == Nodes(spots)[s.node.path := s.node]
    ensures FileBytes(spots + [s]) == if s.node.kind.File? then FileBytes(spots) + s.node.size else FileBytes(spots)
  {
    assert (spots + [s])[..|spots|] == spots;
  }

  lemma OneKidMore(spots: seq<Spot>, s: Spot, dir: string)
    ensures Kids(spots + [s], dir) == if s.parent == dir then Kids(spots, dir) + [s.node] else Kids(spots, dir)
  {
    assert (spots + [s])[..|spots|] == spots;
  }

  lemma OneDirMore(spots: seq<Spot>, s: Spot)
    requires Growing(spots) && Fresh(spots, s)
    ensures Dirs(spots + [s]) == if s.node.kind.Dir? then Dirs(spots) + {s.node.path} else Dirs(spots)
    ensures Growing(spots + [s]) && s.node.path !in Dirs(spots) && s.node.path != s.parent
  {
    assert (spots + [s])[..|spots|] == spots;
  }

  /** A directory that is new has nothing in it yet. */
  lemma {:induction false} NothingInsideYet(spots: seq<Spot>, dir: string)
    requires Growing(spots) && dir != "" && forall s | s in spots :: s.node.path != dir
    ensures Kids(spots, dir) == []
  {
    if spots != [] {
      NothingInsideYet(spots[..|spots| - 1], dir);
    }
  }

  /** Every directory lists what is directly in it, in the index's order. */
  ghost predicate Lists(children: map<string, seq<Node>>, spots: seq<Spot>) {
    && children.Keys == {""} + Dirs(spots)
    && forall dir | dir in children :: children[dir] == Kids(spots, dir)
  }

  /** The node is among its directory's children, and has a place for its own if it is a directory. */
  function Extended(children: map<string, seq<Node>>, s: Spot): map<string, seq<Node>>
    requires s.parent in children
  {
    var listed := children[s.parent := children[s.parent] + [s.node]];
    if s.node.kind.Dir? && s.node.path !in listed then listed[s.node.path := []] else listed
  }

  lemma ExtendedAt(children: map<string, seq<Node>>, spots: seq<Spot>, s: Spot, dir: string)
    requires Growing(spots) && Fresh(spots, s) && s.parent in children && dir in Extended(children, s)
    requires dir in children ==> children[dir] == Kids(spots, dir)
    requires "" in children && (dir !in children ==> s.parent != dir)
    ensures Extended(children, s)[dir] == Kids(spots + [s], dir)
  {
    OneKidMore(spots, s, dir);
    if dir !in children {
      NothingInsideYet(spots, dir);
    }
  }

  lemma ExtendedKeys(children: map<string, seq<Node>>, s: Spot)
    requires s.parent in children
    ensures Extended(children, s).Keys == if s.node.kind.Dir? then children.Keys + {s.node.path} else children.Keys
  {
  }

  lemma ExtendedListings(children: map<string, seq<Node>>, spots: seq<Spot>, s: Spot)
    requires Growing(spots) && Fresh(spots, s) && Lists(children, spots) && s.parent in children
    ensures forall dir | dir in Extended(children, s) :: Extended(children, s)[dir] == Kids(spots + [s], dir)
  {
    forall dir | dir in Extended(children, s) ensures Extended(children, s)[dir] == Kids(spots + [s], dir) {
      ExtendedAt(children, spots, s, dir);
    }
  }

  lemma ExtendedLists(children: map<string, seq<Node>>, spots: seq<Spot>, s: Spot)
    requires Growing(spots) && Fresh(spots, s) && Lists(children, spots)
    ensures s.parent in children && Lists(Extended(children, s), spots + [s])
  {
    assert s.parent in children;
    OneDirMore(spots, s);
    ExtendedKeys(children, s);
    ExtendedListings(children, spots, s);
  }

  // -------------------------------------------------- the tree is the index

  /** The tree so far holds these nodes. */
  ghost predicate Holds(t: Shape, spots: seq<Spot>) {
    Growing(spots) && Lists(t.children, spots) && t.byPath == Nodes(spots)
  }

  /** Every entry has a directory among them, and is one of them if it is a directory. */
  ghost predicate Hosts(spots: seq<Spot>, index: seq<Entry>) {
    forall e | e in index ::
      (ParentOf(e.path) == "" || ParentOf(e.path) in Dirs(spots)) && (e.kind.Dir? ==> e.path in Dirs(spots))
  }

  lemma PathIsFresh(spots: seq<Spot>, p: string)
    requires Growing(spots) && p !in Nodes(spots)
    ensures forall s | s in spots :: s.node.path != p
  {
    forall s | s in spots ensures s.node.path != p {
      SpotIsNode(spots, s);
    }
  }

  lemma PlacedIsExtended(t: Shape, e: Entry)
    requires ParentOf(e.path) in t.children
    ensures Placed(t, e) == Shape(Extended(t.children, SpotOf(e)), t.byPath[e.path := NodeOf(e)])
  {
  }

  lemma OpenedIsExtended(t: Shape, dir: string)
    requires dir !in t.children && dir !in t.byPath && ParentOf(dir) in t.children
    ensures Opened(t, dir) == Shape(Extended(t.children, InventedSpot(dir)), t.byPath[dir := InventedDir(dir)])
  {
  }

  /** One spot more, in the tree and among the spots. */
  lemma OneMoreHeld(t: Shape, spots: seq<Spot>, s: Spot)
    requires Holds(t, spots) && Fresh(spots, s)
    ensures s.parent in t.children
    ensures Holds(Shape(Extended(t.children, s), t.byPath[s.node.path := s.node]), spots + [s])
    ensures Dirs(spots + [s]) == if s.node.kind.Dir? then Dirs(spots) + {s.node.path} else Dirs(spots)
  {
    ExtendedLists(t.children, spots, s);
    OneSpotMore(spots, s);
    OneDirMore(spots, s);
  }

  /** The directory of the entry, if it has to be invented, can be. */
  lemma PreparedIsHeld(t: Shape, spots: seq<Spot>, dir: string)
    requires Holds(t, spots) && dir != "" && dir !in Dirs(spots) && dir !in t.byPath
    requires ParentOf(dir) == "" || ParentOf(dir) in Dirs(spots)
    ensures Holds(Prepared(t, dir), spots + [InventedSpot(dir)])
    ensures Dirs(spots + [InventedSpot(dir)]) == Dirs(spots) + {dir}
  {
    PathIsFresh(spots, dir);
    OneMoreHeld(t, spots, InventedSpot(dir));
    OpenedIsExtended(t, dir);
  }

  lemma PlacedIsHeld(t: Shape, spots: seq<Spot>, e: Entry)
    requires Holds(t, spots) && e.path != "" && e.path !in t.byPath
    requires ParentOf(e.path) == "" || ParentOf(e.path) in Dirs(spots)
    ensures Holds(Placed(t, e), spots + [SpotOf(e)])
    ensures Dirs(spots + [SpotOf(e)]) == if e.kind.Dir? then Dirs(spots) + {e.path} else Dirs(spots)
  {
    PathIsFresh(spots, e.path);
    OneMoreHeld(t, spots, SpotOf(e));
    PlacedIsExtended(t, e);
  }

  /** What an entry needs of the tree: a directory, or a place to invent one. */
  ghost predicate CanTake(t: Shape, spots: seq<Spot>, e: Entry) {
    var dir := ParentOf(e.path);
    && Relative(e.path) && e.path !in t.byPath
    && (dir == "" || dir in Dirs(spots) ||
        (dir !in t.byPath && (ParentOf(dir) == "" || ParentOf(dir) in Dirs(spots))))
  }

  lemma AddedIsHeld(t: Shape, spots: seq<Spot>, e: Entry)
    requires Roomy(t) && Holds(t, spots) && CanTake(t, spots, e)
    ensures Holds(Added(t, e), WithEntry(spots, e))
    ensures Dirs(spots) <= Dirs(WithEntry(spots, e)) && (e.kind.Dir? ==> e.path in Dirs(WithEntry(spots, e)))
    ensures ParentOf(e.path) == "" || ParentOf(e.path) in Dirs(WithEntry(spots, e))
  {
    var dir := ParentOf(e.path);
    AllAboveTheParent(e.path);
    AddedIs(t, e);
    if dir == "" || dir in Dirs(spots) {
      PlacedIsHeld(t, spots, e);
    } else {
      PreparedIsHeld(t, spots, dir);
      OpenedNodes(t, dir);
      PlacedIsHeld(Prepared(t, dir), spots + [InventedSpot(dir)], e);
    }
  }

  lemma OneMoreHosted(spots: seq<Spot>, more: seq<Spot>, index: seq<Entry>, e: Entry)
    requires Hosts(spots, index) && Dirs(spots) <= Dirs(more) && (e.kind.Dir? ==> e.path in Dirs(more))
    requires ParentOf(e.path) == "" || ParentOf(e.path) in Dirs(more)
    ensures Hosts(more, index + [e])
  {
    assert forall f | f in index + [e] :: f in index || f == e;
  }

  lemma SpotsOfMore(index: seq<Entry>, e: Entry)
    ensures Spots(index + [e]) == WithEntry(Spots(index), e)
  {
    assert (index + [e])[..|index|] == index;
  }

  lemma DirIsEarlier(index: seq<Entry>, n: nat, dir: string)
    requires PathOrdered(index) && n < |index| && HasDir(index, dir) && dir < index[n].path
    ensures exists e :: e in index[..n] && e.path == dir && e.kind.Dir?
  {
    var e :| e in index && e.path == dir && e.kind.Dir?;
    var j :| 0 <= j < |index| && index[j] == e;
    PrefixIsLess(dir, index[n].path);
    LessIsEarlier(index, j, n);
    assert index[..n][j] == e;
  }

  lemma DirIsThere(index: seq<Entry>, n: nat, dir: string, spots: seq<Spot>)
    requires PathOrdered(index) && n < |index| && HasDir(index, dir) && dir < index[n].path
    requires Hosts(spots, index[..n])
    ensures dir in Dirs(spots)
  {
    DirIsEarlier(index, n, dir);
  }

  lemma AboveIsThere(index: seq<Entry>, n: nat, above: string, spots: seq<Spot>)
    requires PathOrdered(index) && n < |index| && above < index[n].path && Hosts(spots, index[..n])
    requires HasDir(index, above) || exists j :: 0 <= j < n && ParentOf(index[j].path) == above
    ensures above == "" || above in Dirs(spots)
  {
    if HasDir(index, above) {
      DirIsThere(index, n, above, spots);
    } else {
      var j :| 0 <= j < n && ParentOf(index[j].path) == above;
      assert index[j] in index[..n];
    }
  }

  lemma OrderedUpTo(index: seq<Entry>, n: nat)
    requires PathOrdered(index) && n < |index|
    ensures PathOrdered(index[..n] + [index[n]]) && Relative(index[n].path)
  {
    PrefixIsOrdered(index, n + 1);
    assert index[..n] + [index[n]] == index[..n + 1];
    assert index[n] in index;
  }

  lemma NextPathIsNew(index: seq<Entry>, n: nat)
    requires PathOrdered(index) && n < |index|
    ensures Relative(index[n].path) && index[n].path !in Loaded(index[..n]).byPath
  {
    LoadedPrefixIsSane(index, n);
    OrderedUpTo(index, n);
    NextIsNew(Loaded(index[..n]), index[..n], index[n]);
  }

  /** A directory that is no entry and is not among the spots has no node. */
  lemma MissingIsMissing(index: seq<Entry>, n: nat, spots: seq<Spot>, dir: string)
    requires PathOrdered(index) && n <= |index| && !HasPath(index, dir)
    requires Holds(Loaded(index[..n]), spots) && dir != "" && dir !in Dirs(spots)
    ensures dir !in Loaded(index[..n]).byPath
  {
    LoadedPrefixIsSane(index, n);
    assert forall f | f in index[..n] :: f in index;
  }

  lemma NextCanBeTaken(index: seq<Entry>, n: nat, spots: seq<Spot>)
    requires PathOrdered(index) && n < |index| && Supported(index, n)
    requires Holds(Loaded(index[..n]), spots) && Hosts(spots, index[..n])
    ensures CanTake(Loaded(index[..n]), spots, index[n])
  {
    var dir := ParentOf(index[n].path);
    NextPathIsNew(index, n);
    AllAboveTheParent(index[n].path);
    if dir != "" && dir !in Dirs(spots) {
      AllAboveTheParent(dir);
      if HasDir(index, dir) {
        DirIsThere(index, n, dir, spots);
      }
      MissingIsMissing(index, n, spots, dir);
      if ParentOf(dir) != "" {
        AboveIsThere(index, n, ParentOf(dir), spots);
      }
    }
  }

  /** The tree of the entries holds their spots. */
  ghost predicate GrownFrom(index: seq<Entry>) {
    Holds(Loaded(index), Spots(index)) && Hosts(Spots(index), index)
  }

  lemma TakenIsGrown(before: seq<Entry>, e: Entry)
    requires Roomy(Loaded(before)) && GrownFrom(before) && CanTake(Loaded(before), Spots(before), e)
    ensures GrownFrom(before + [e])
  {
    var t, spots, more := Loaded(before), Spots(before), WithEntry(Spots(before), e);
    AddedIsHeld(t, spots, e);
    OneMoreHosted(spots, more, before, e);
    LoadedOfMore(before, e);
    SpotsOfMore(before, e);
  }

  lemma NextIsGrown(index: seq<Entry>, n: nat)
    requires PathOrdered(index) && n < |index| && Supported(index, n) && GrownFrom(index[..n])
    ensures GrownFrom(index[..n] + [index[n]])
  {
    NextCanBeTaken(index, n, Spots(index[..n]));
    LoadedPrefixIsSane(index, n);
    TakenIsGrown(index[..n], index[n]);
  }

  /** Of a bridged index in path order the tree holds exactly the spots, and every directory comes before what is in
      it. */
  lemma {:induction false} PathOrderGrows(index: seq<Entry>, n: nat)
    requires PathOrdered(index) && Bridged(index) && n <= |index|
    ensures GrownFrom(index[..n])
  {
    if n > 0 {
      PathOrderGrows(index, n - 1);
      NextIsGrown(index, n - 1);
      PrefixOfMore(index, n - 1);
    }
  }

  lemma BridgedIsGrown(index: seq<Entry>)
    requires PathOrdered(index) && Bridged(index)
    ensures Holds(Loaded(index), Spots(index)) && Hosts(Spots(index), index)
  {
    PathOrderGrows(index, |index|);
    assert index[..|index|] == index;
  }

  /** An index in which every entry's directory is an entry is bridged. */
  lemma ClosedIsBridged(index: seq<Entry>)
    requires PathOrdered(index) && WithParents(index)
    ensures Bridged(index)
  {
    assert forall i | 0 <= i < |index| :: index[i] in index;
  }

  /** The nodes of the tree: those of the entries, and directories entries lie in. */
  lemma TreeIsTheIndex(index: seq<Entry>, p: string)
    requires PathOrdered(index) && Bridged(index)
    ensures p in Loaded(index).byPath <==> HasPath(index, p) || (p != "" && HasChild(index, p))
    ensures forall e | e in index :: e.path in Loaded(index).byPath && Loaded(index).byPath[e.path] == NodeOf(e)
    ensures !HasPath(index, p) && p != "" && HasChild(index, p) ==> Loaded(index).byPath[p].kind.Dir?
  {
    LoadedIsSane(index);
    BridgedIsGrown(index);
    if p != "" && HasChild(index, p) {
      var e :| e in index && ParentOf(e.path) == p;
      DirIsNode(Spots(index), p);
    }
  }

  lemma DirIsNode(spots: seq<Spot>, p: string)
    requires Growing(spots) && p in Dirs(spots)
    ensures p in Nodes(spots) && Nodes(spots)[p].kind.Dir?
  {
    var s :| s in spots && s.node.kind.Dir? && s.node.path == p;
    SpotIsNode(spots, s);
  }

  // ------------------------------------------------------ what can be reached

  lemma {:induction false} NodesAreReached(children: map<string, seq<Node>>, spots: seq<Spot>, p: string)
    requires Growing(spots) && FromEntries(spots) && Lists(children, spots) && p in Nodes(spots)
    ensures Reached(children, p, Nodes(spots)[p].kind.Dir?)
    decreases |p|
  {
    NodeHasSpot(spots, p);
    var s :| s in spots && s.node.path == p && s.node == Nodes(spots)[p];
    SpotIsNode(spots, s);
    ParentsAreDirs(spots, s);
    AllAboveTheParent(p);
    assert s.node in Listing(children, s.parent);
    if s.parent != "" {
      DirIsNode(spots, s.parent);
      NodesAreReached(children, spots, s.parent);
    }
  }

  lemma ReachedAtLeast(children: map<string, seq<Node>>, p: string)
    requires Reached(children, p, true)
    ensures Reached(children, p, false)
  {
  }

  lemma EveryEntryIsReached(index: seq<Entry>, e: Entry)
    requires PathOrdered(index) && Bridged(index) && e in index
    ensures Reached(Loaded(index).children, e.path, false)
  {
    BridgedIsGrown(index);
    LoadedIsSane(index);
    EntriesAreSpots(index);
    var spots := Spots(index);
    assert e.path in Nodes(spots);
    NodesAreReached(Loaded(index).children, spots, e.path);
    if Nodes(spots)[e.path].kind.Dir? {
      ReachedAtLeast(Loaded(index).children, e.path);
    }
  }

  /** Of an index in path order, every entry can be reached from the root exactly if each entry is supported: no two
      directories above it are missing unless something directly in the upper one has come before. */
  lemma AllReachedIffBridged(index: seq<Entry>)
    requires PathOrdered(index)
    ensures AllReached(Loaded(index).children, index) <==> Bridged(index)
  {
    if Bridged(index) {
      forall e | e in index ensures Reached(Loaded(index).children, e.path, false) {
        EveryEntryIsReached(index, e);
      }
    } else {
      var i :| 0 <= i < |index| && !Supported(index, i);
      UnsupportedIsUnreachable(index, i);
      assert index[i] in index;
    }
  }

  // ------------------------------------------------------------ rolling up

  /** The sizes of the entries below a directory that are not directories, among those looked at so far; or, to count
      them, a one for each. */
  ghost function Weights(nodes: map<string, Node>, among: set<string>, dir: string, inBytes: bool): map<string, nat> {
    map p | p in nodes && p in among && !nodes[p].kind.Dir? && Below(p, dir) :: if inBytes then nodes[p].size else 1
  }

  /** A directory with what is below it. */
  ghost function Totalled(nodes: map<string, Node>, among: set<string>, n: Node): Node {
    n.(children := Sum(Weights(nodes, among, n.path, false)), subBytes := Sum(Weights(nodes, among, n.path, true)))
  }

  function Bumped(n: Node, size: nat): Node {
    n.(children := n.children + 1, subBytes := n.subBytes + size)
  }

  /** Adds one entry to every directory above it, going up one at a time. */
  method AddUp(p: string, size: nat, totals: map<string, Node>) returns (sums: map<string, Node>)
    requires Relative(p) && "" !in totals
    ensures sums.Keys == totals.Keys
    ensures forall d | d in totals :: sums[d] == if Below(p, d) then Bumped(totals[d], size) else totals[d]
  {
    sums := totals;
    var dir := ParentOf(p);
    AllAboveTheParent(p);
    while true
      invariant dir == "" || Relative(dir)
      invariant sums.Keys == totals.Keys
      invariant forall d | d in totals :: (d == dir || Below(dir, d)) ==> Below(p, d)
      invariant forall d | d in totals ::
                  sums[d] == if Below(p, d) && d != dir && !Below(dir, d) then Bumped(totals[d], size) else totals[d]
      decreases |dir|
    {
      if dir in sums {
        sums := sums[dir := Bumped(sums[dir], size)];
      }
      if dir == "" {
        break;
      }
      AllAboveTheParent(dir);
      dir := ParentOf(dir);
    }
  }

  lemma OneWeightMore(nodes: map<string, Node>, done: set<string>, p: string, dir: string, inBytes: bool)
    requires p in nodes && p !in done
    ensures Sum(Weights(nodes, done + {p}, dir, inBytes)) ==
            if !nodes[p].kind.Dir? && Below(p, dir)
            then Sum(Weights(nodes, done, dir, inBytes)) + (if inBytes then nodes[p].size else 1)
            else Sum(Weights(nodes, done, dir, inBytes))
  {
    var before, after := Weights(nodes, done, dir, inBytes), Weights(nodes, done + {p}, dir, inBytes);
    if !nodes[p].kind.Dir? && Below(p, dir) {
      var w := if inBytes then nodes[p].size else 1;
      SumWith(before, p, w);
      assert after == before[p := w];
    } else {
      assert after == before;
    }
  }

  lemma OneNodeMore(nodes: map<string, Node>, done: set<string>, p: string, n: Node)
    requires p in nodes && p !in done
    ensures Totalled(nodes, done + {p}, n) ==
            if !nodes[p].kind.Dir? && Below(p, n.path) then Bumped(Totalled(nodes, done, n), nodes[p].size)
            else Totalled(nodes, done, n)
  {
    OneWeightMore(nodes, done, p, n.path, false);
    OneWeightMore(nodes, done, p, n.path, true);
  }

  ghost predicate TotalledUpTo(nodes: map<string, Node>, done: set<string>, totals: map<string, Node>) {
    && (forall p :: p in totals <==> p in nodes && nodes[p].kind.Dir?)
    && (forall p | p in totals :: totals[p] == Totalled(nodes, done, nodes[p]))
  }

  method AddOne(nodes: map<string, Node>, ghost done: set<string>, p: string, totals: map<string, Node>)
    returns (sums: map<string, Node>)
    requires Plain(nodes) && p in nodes && p !in done && TotalledUpTo(nodes, done, totals)
    ensures TotalledUpTo(nodes, done + {p}, sums)
  {
    if nodes[p].kind.Dir? {
      sums := totals;
    } else {
      sums := AddUp(p, nodes[p].size, totals);
    }
    forall d | d in totals ensures sums[d] == Totalled(nodes, done + {p}, nodes[d]) {
      OneNodeMore(nodes, done, p, nodes[d]);
    }
  }

  method Totals(nodes: map<string, Node>) returns (totals: map<string, Node>)
    requires Plain(nodes)
    ensures TotalledUpTo(nodes, nodes.Keys, totals)
  {
    totals := map p | p in nodes && nodes[p].kind.Dir? :: nodes[p];
    var left := nodes.Keys;
    NothingYet(nodes);
    while left != {}
      invariant left <= nodes.Keys && TotalledUpTo(nodes, nodes.Keys - left, totals)
      decreases |left|
    {
      var p :| p in left;
      totals := AddOne(nodes, nodes.Keys - left, p, totals);
      assert nodes.Keys - (left - {p}) == nodes.Keys - left + {p};
      left := left - {p};
    }
    assert nodes.Keys - left == nodes.Keys;
  }

  lemma NothingYet(nodes: map<string, Node>)
    requires Plain(nodes)
    ensures forall p | p in nodes :: nodes[p] == Totalled(nodes, {}, nodes[p])
  {
    forall p | p in nodes ensures nodes[p] == Totalled(nodes, {}, nodes[p]) {
      assert Weights(nodes, {}, p, false) == map[] && Weights(nodes, {}, p, true) == map[];
    }
  }

  /** The node with the totals, if there are some for it. */
  function Rewritten(n: Node, totals: map<string, Node>): Node {
    if n.path in totals then totals[n.path] else n
  }

  predicate AllRewritten(was: seq<Node>, now: seq<Node>, totals: map<string, Node>) {
    |now| == |was| && forall i | 0 <= i < |was| :: now[i] == Rewritten(was[i], totals)
  }

  method ReplaceIn(siblings: seq<Node>, p: string, agg: Node) returns (now: seq<Node>)
    requires agg.path == p
    ensures AllRewritten(siblings, now, map[p := agg])
  {
    now := siblings;
    for i := 0 to |siblings|
      invariant |now| == |siblings|
      invariant forall j | 0 <= j < |now| :: now[j] == if j < i then Rewritten(siblings[j], map[p := agg]) else siblings[j]
    {
      if now[i].path == p {
        now := now[i := agg];
      }
    }
  }

  ghost predicate Rolled(children: map<string, seq<Node>>, now: map<string, seq<Node>>, totals: map<string, Node>) {
    now.Keys == children.Keys && forall dir | dir in children :: AllRewritten(children[dir], now[dir], totals)
  }

  /** Every node is listed in its own directory. */
  predicate InPlace(children: map<string, seq<Node>>) {
    forall dir, n | dir in children && n in children[dir] :: ParentOf(n.path) == dir
  }

  lemma OneRewrittenMore(was: seq<Node>, mid: seq<Node>, now: seq<Node>, done: map<string, Node>, p: string, agg: Node)
    requires agg.path == p && p !in done && (forall q | q in done :: done[q].path == q)
    requires AllRewritten(was, mid, done) && AllRewritten(mid, now, map[p := agg])
    ensures AllRewritten(was, now, done[p := agg])
  {
  }

  lemma NoneRewritten(was: seq<Node>, now: seq<Node>, done: map<string, Node>, p: string, agg: Node)
    requires AllRewritten(was, now, done) && forall n | n in was :: n.path != p
    ensures AllRewritten(was, now, done[p := agg])
  {
    forall i | 0 <= i < |was| ensures now[i] == Rewritten(was[i], done[p := agg]) {
      assert was[i] in was;
    }
  }

  /** Writes one total into its directory's listing. */
  method WriteOne(children: map<string, seq<Node>>, sofar: map<string, seq<Node>>, ghost done: map<string, Node>,
                  p: string, agg: Node) returns (now: map<string, seq<Node>>)
    requires agg.path == p && p !in done && (forall q | q in done :: done[q].path == q)
    requires InPlace(children) && ParentOf(p) in children && Rolled(children, sofar, done)
    ensures Rolled(children, now, done[p := agg])
  {
    var siblings := ReplaceIn(sofar[ParentOf(p)], p, agg);
    now := sofar[ParentOf(p) := siblings];
    forall dir | dir in children ensures AllRewritten(children[dir], now[dir], done[p := agg]) {
      if dir == ParentOf(p) {
        OneRewrittenMore(children[dir], sofar[dir], siblings, done, p, agg);
      } else {
        NoneRewritten(children[dir], now[dir], done, p, agg);
      }
    }
  }

  lemma OneTotalMore(nodes: map<string, Node>, totals: map<string, Node>, left: set<string>, p: string)
    requires left <= totals.Keys && p in left
    ensures totals - (left - {p}) == (totals - left)[p := totals[p]]
    ensures nodes + (totals - left)[p := totals[p]] == (nodes + (totals - left))[p := totals[p]]
  {
  }

  /** A directory is in two places, in the listing it is in and by its path; both get its totals. */
  method WriteBack(children: map<string, seq<Node>>, nodes: map<string, Node>, totals: map<string, Node>)
    returns (now: map<string, seq<Node>>, nowNodes: map<string, Node>)
    requires InPlace(children)
    requires forall p | p in totals :: p in nodes && totals[p].path == p && ParentOf(p) in children
    ensures Rolled(children, now, totals) && nowNodes == nodes + totals
  {
    now, nowNodes := children, nodes;
    var left := totals.Keys;
    ghost var done: map<string, Node> := map[];
    while left != {}
      invariant left <= totals.Keys && done == totals - left
      invariant Rolled(children, now, done) && nowNodes == nodes + done
      decreases |left|
    {
      var p :| p in left;
      OneTotalMore(nodes, totals, left, p);
      now := WriteOne(children, now, done, p, totals[p]);
      nowNodes := nowNodes[p := totals[p]];
      done := done[p := totals[p]];
      left := left - {p};
    }
    assert totals - left == totals;
  }

  // ----------------------------------------------------------------- sorting

  /** Directories first, then by name. */
  predicate Before(a: Node, b: Node) {
    if a.kind.Dir? != b.kind.Dir? then a.kind.Dir? else Less(a.name, b.name)
  }

  predicate InOrder(nodes: seq<Node>) {
    forall i, j | 0 <= i < j < |nodes| :: !Before(nodes[j], nodes[i])
  }

  lemma BeforeIsTransitive(a: Node, b: Node, c: Node)
    requires Before(a, b) && Before(b, c)
    ensures Before(a, c) && !Before(b, a)
  {
    if a.kind.Dir? == b.kind.Dir? {
      LessIsStrict(a.name, b.name);
      if b.kind.Dir? == c.kind.Dir? {
        LessIsTransitive(a.name, b.name, c.name);
      }
    }
  }

  lemma InsertedInOrder(sorted: seq<Node>, i: nat, n: Node)
    requires InOrder(sorted) && i <= |sorted|
    requires forall j | 0 <= j < i :: !Before(n, sorted[j])
    requires i < |sorted| ==> Before(n, sorted[i])
    ensures InOrder(sorted[..i] + [n] + sorted[i..])
  {
    forall j | i <= j < |sorted| ensures !Before(sorted[j], n) {
      if Before(sorted[j], n) {
        BeforeIsTransitive(sorted[j], n, sorted[i]);
      }
    }
  }

  method Insert(sorted: seq<Node>, n: Node) returns (r: seq<Node>)
    requires InOrder(sorted)
    ensures InOrder(r) && multiset(r) == multiset(sorted) + multiset{n}
  {
    var i := 0;
    while i < |sorted| && !Before(n, sorted[i])
      invariant i <= |sorted| && forall j | 0 <= j < i :: !Before(n, sorted[j])
    {
      i := i + 1;
    }
    InsertedInOrder(sorted, i, n);
    InsertedOnce(sorted, i, n);
    r := sorted[..i] + [n] + sorted[i..];
  }

  method SortNodes(nodes: seq<Node>) returns (sorted: seq<Node>)
    ensures InOrder(sorted) && multiset(sorted) == multiset(nodes)
  {
    sorted := [];
    for n := 0 to |nodes|
      invariant InOrder(sorted) && multiset(sorted) == multiset(nodes[..n])
    {
      assert nodes[..n + 1] == nodes[..n] + [nodes[n]];
      sorted := Insert(sorted, nodes[n]);
    }
    assert nodes[..|nodes|] == nodes;
  }

  predicate SortedFrom(now: seq<Node>, was: seq<Node>) {
    InOrder(now) && multiset(now) == multiset(was)
  }

  method SortAll(children: map<string, seq<Node>>) returns (now: map<string, seq<Node>>)
    ensures now.Keys == children.Keys && forall dir | dir in children :: SortedFrom(now[dir], children[dir])
  {
    now := children;
    var left := children.Keys;
    while left != {}
      invariant left <= children.Keys && now.Keys == children.Keys
      invariant forall dir | dir in left :: now[dir] == children[dir]
      invariant forall dir | dir in children && dir !in left :: SortedFrom(now[dir], children[dir])
      decreases |left|
    {
      var dir :| dir in left;
      var sorted := SortNodes(now[dir]);
      now := now[dir := sorted];
      left := left - {dir};
    }
  }

  // ------------------------------------------------------- what the tree shows

  /** A node as the tree shows it in the end. */
  ghost function Final(nodes: map<string, Node>, n: Node): Node {
    if n.kind.Dir? then Totalled(nodes, nodes.Keys, n) else n
  }

  ghost function Finals(nodes: map<string, Node>, kids: seq<Node>): seq<Node> {
    seq(|kids|, i requires 0 <= i < |kids| => Final(nodes, kids[i]))
  }

  /** The spots are those of index entries. */
  ghost predicate FromEntries(spots: seq<Spot>) {
    forall s | s in spots ::
      Relative(s.node.path) && s.parent == ParentOf(s.node.path) && s.node.children == 0 && s.node.subBytes == 0
  }

  lemma {:induction false} NodesArePlain(spots: seq<Spot>)
    requires FromEntries(spots)
    ensures Plain(Nodes(spots)) && forall p | p in Nodes(spots) :: exists s :: s in spots && s.node.path == p
  {
    if spots != [] {
      NodesArePlain(spots[..|spots| - 1]);
      assert spots[|spots| - 1] in spots;
    }
  }

  /** What a directory lists are nodes of the tree, and belong to that directory. */
  lemma {:induction false} KidsAreNodes(spots: seq<Spot>, dir: string, n: Node)
    requires Growing(spots) && n in Kids(spots, dir)
    ensures n.path in Nodes(spots) && Nodes(spots)[n.path] == n && Spot(dir, n) in spots
  {
    var rest, last := spots[..|spots| - 1], spots[|spots| - 1];
    if n in Kids(rest, dir) {
      KidsAreNodes(rest, dir, n);
    } else {
      assert last == Spot(dir, n);
    }
  }

  lemma RewrittenIsFinal(nodes: map<string, Node>, totals: map<string, Node>, kids: seq<Node>, now: seq<Node>)
    requires TotalledUpTo(nodes, nodes.Keys, totals) && AllRewritten(kids, now, totals)
    requires forall n | n in kids :: n.path in nodes && nodes[n.path] == n
    ensures now == Finals(nodes, kids)
  {
    forall i | 0 <= i < |kids| ensures now[i] == Final(nodes, kids[i]) {
      assert kids[i] in kids;
    }
  }

  // ------------------------------------------------------------------ the tree

  function IndexBytes(index: seq<Entry>): nat {
    if index == [] then 0
    else
      var rest, last := index[..|index| - 1], index[|index| - 1];
      if last.kind.File? then IndexBytes(rest) + last.size else IndexBytes(rest)
  }

  lemma PrefixOfMore<T>(s: seq<T>, n: nat)
    requires n < |s|
    ensures s[..n] + [s[n]] == s[..n + 1]
  {
  }

  lemma BytesOfMore(index: seq<Entry>, e: Entry)
    ensures IndexBytes(index + [e]) == IndexBytes(index) + if e.kind.File? then e.size else 0
  {
    assert (index + [e])[..|index|] == index;
  }

  /** Every entry can be reached from the root. */
  ghost predicate AllReached(children: map<string, seq<Node>>, index: seq<Entry>) {
    forall e | e in index :: Reached(children, e.path, false)
  }

  ghost predicate AllSortedFrom(now: map<string, seq<Node>>, was: map<string, seq<Node>>) {
    now.Keys == was.Keys && forall dir | dir in now :: SortedFrom(now[dir], was[dir])
  }

  lemma TotalsFit(t: Shape, totals: map<string, Node>)
    requires Roomy(t) && Consistent(t) && Plain(t.byPath) && TotalledUpTo(t.byPath, t.byPath.Keys, totals)
    ensures totals == TotalsOf(t.byPath) && InPlace(t.children)
    ensures forall p | p in totals :: p in t.byPath && totals[p].path == p && ParentOf(p) in t.children
  {
  }

  /** The totals of all directories. */
  ghost function TotalsOf(nodes: map<string, Node>): map<string, Node> {
    map p | p in nodes && nodes[p].kind.Dir? :: Totalled(nodes, nodes.Keys, nodes[p])
  }

  class Tree {
    var children: map<string, seq<Node>>
    var byPath: map<string, Node>
    var entries: nat
    var bytes: nat

    constructor ()
      ensures IsEmpty()
    {
      children, byPath, entries, bytes := map["" := []], map[], 0, 0;
    }

    ghost function Now(): Shape
      reads this
    {
      Shape(children, byPath)
    }

    ghost predicate IsEmpty()
      reads this
    {
      Now() == Loaded([]) && entries == 0 && bytes == 0
    }

    /** Gives a directory that no entry has named a listing and a place in one. On the way up it takes what it has just
        listed for known. */
    method EnsureDir(start: string)
      modifies this`children, this`byPath
      ensures Now() == Ensured(old(Now()), start)
    {
      var dir := start;
      while dir != ""
        invariant Ensured(Now(), dir) == Ensured(old(Now()), start)
        decreases |dir|
      {
        if dir in children {
          return;
        }
        ghost var before := Now();
        children := children[dir := []];
        var parent := ParentOf(dir);
        if dir !in byPath {
          var node := InventedDir(dir);
          byPath := byPath[dir := node];
          children := children[parent := (if parent in children then children[parent] else []) + [node]];
        }
        assert Now() == Opened(before, dir);
        dir := parent;
      }
    }

    method Add(e: Entry)
      requires "" in children
      modifies this
      ensures Now() == Added(old(Now()), e)
      ensures entries == old(entries) + 1 && bytes == old(bytes) + (if e.kind.File? then e.size else 0)
    {
      entries := entries + 1;
      bytes := bytes + if e.kind.File? then e.size else 0;
      Place(e);
    }

    method Place(e: Entry)
      requires "" in children
      modifies this`children, this`byPath
      ensures Now() == Added(old(Now()), e)
    {
      var node, parent := NodeOf(e), ParentOf(e.path);
      byPath := byPath[e.path := node];
      ghost var named := Now();
      EnsureDir(parent);
      ghost var ensured := Now();
      EnsuredKeepsNodes(named, parent, e.path);
      children := children[parent := children[parent] + [node]];
      if e.kind.Dir? && e.path !in children {
        children := children[e.path := []];
      }
      assert ensured.byPath[e.path := node] == ensured.byPath;
    }

    /** The tree holds these entries and nothing else. */
    ghost predicate HasLoaded(index: seq<Entry>)
      reads this
    {
      Now() == Loaded(index) && entries == |index| && bytes == IndexBytes(index)
    }

    method AddNext(index: seq<Entry>, n: nat)
      requires n < |index| && HasLoaded(index[..n])
      modifies this
      ensures HasLoaded(index[..n + 1])
    {
      LoadedOfMore(index[..n], index[n]);
      BytesOfMore(index[..n], index[n]);
      PrefixOfMore(index, n);
      Add(index[n]);
    }

    /** One streaming pass over an index. More entries than allowed stop it. */
    method Load(index: seq<Entry>, maxEntries: nat) returns (ok: bool)
      requires IsEmpty()
      modifies this
      ensures ok <==> maxEntries == 0 || |index| <= maxEntries
      ensures ok ==> Now() == Loaded(index) && entries == |index| && bytes == IndexBytes(index)
    {
      assert index[..0] == [];
      for n := 0 to |index|
        invariant HasLoaded(index[..n]) && (maxEntries == 0 || n <= maxEntries)
      {
        if maxEntries > 0 && entries >= maxEntries {
          return false;
        }
        AddNext(index, n);
      }
      assert index[..|index|] == index;
      ok := true;
    }

    /** Each directory learns what is below it, in both views. */
    method RollUp()
      requires Roomy(Now()) && Consistent(Now()) && Plain(byPath)
      modifies this`children, this`byPath
      ensures Rolled(old(children), children, TotalsOf(old(byPath)))
      ensures byPath == old(byPath) + TotalsOf(old(byPath))
    {
      var totals := Totals(byPath);
      TotalsFit(Now(), totals);
      children, byPath := WriteBack(children, byPath, totals);
    }

    method Sort()
      modifies this`children
      ensures AllSortedFrom(children, old(children))
    {
      children := SortAll(children);
    }

    method Finish(index: seq<Entry>)
      requires PathOrdered(index) && Now() == Loaded(index)
      modifies this`children, this`byPath
      ensures AllReached(children, index) <==> Bridged(index)
      ensures Bridged(index) ==> Shows(Now(), Spots(index))
    {
      LoadedIsSane(index);
      RollUp();
      ghost var rolled := children;
      Sort();
      FinishedTree(index, rolled, Now());
    }

    /** Reads an index and assembles the tree. */
    method Build(index: seq<Entry>, maxEntries: nat) returns (ok: bool)
      requires PathOrdered(index) && IsEmpty()
      modifies this
      ensures ok <==> maxEntries == 0 || |index| <= maxEntries
      ensures ok ==> entries == |index| && bytes == IndexBytes(index)
      ensures ok ==> (AllReached(children, index) <==> Bridged(index))
      ensures ok && Bridged(index) ==> Shows(Now(), Spots(index))
      ensures ok && Bridged(index) ==> HasEntries(Now(), index) && ViewsAgree(Now()) && AddsUp(Now())
    {
      ok := Load(index, maxEntries);
      if ok {
        Finish(index);
        if Bridged(index) {
          BuiltTree(index, Now());
        }
      }
    }

    /** One page of a directory's children. */
    method List(dir: string, offset: int, limit: int) returns (nodes: seq<Node>, total: nat, ok: bool)
      ensures ok <==> Normalise(dir) in children
      ensures ok ==> total == |children[Normalise(dir)]| && nodes == Page(children[Normalise(dir)], offset, limit)
      ensures !ok ==> nodes == [] && total == 0
    {
      var key := Normalise(dir);
      if key !in children {
        return [], 0, false;
      }
      var kids := children[key];
      total, ok := |kids|, true;
      var start := if offset < 0 then 0 else offset;
      if start >= total {
        return [], total, true;
      }
      var end := total;
      if limit > 0 && start + limit < end {
        end := start + limit;
      }
      nodes := kids[start..end];
    }
  }

  lemma {:induction false} EntriesAreSpots(index: seq<Entry>)
    requires forall e | e in index :: Relative(e.path)
    ensures FromEntries(Spots(index))
  {
    if index != [] {
      var e := index[|index| - 1];
      EntriesAreSpots(index[..|index| - 1]);
      assert e in index;
      AllAboveTheParent(e.path);
    }
  }

  /** The finished tree: in both views every directory has its totals, and every listing is in order. */
  ghost predicate Shows(t: Shape, spots: seq<Spot>) {
    var nodes := Nodes(spots);
    && t.children.Keys == {""} + Dirs(spots)
    && (forall dir | dir in t.children :: SortedFrom(t.children[dir], Finals(nodes, Kids(spots, dir))))
    && t.byPath.Keys == nodes.Keys && forall p | p in t.byPath :: t.byPath[p] == Final(nodes, nodes[p])
  }

  /** Totals and order change nothing about what can be reached. */
  lemma RolledCovers(t: Shape, rolled: map<string, seq<Node>>)
    requires Consistent(t) && Rolled(t.children, rolled, TotalsOf(t.byPath))
    ensures Covers(t.children, rolled) && Covers(rolled, t.children)
  {
    forall dir, n | dir in t.children && n in t.children[dir]
      ensures exists m :: m in Listing(rolled, dir) && m.path == n.path && m.kind == n.kind
    {
      var i :| 0 <= i < |t.children[dir]| && t.children[dir][i] == n;
      assert rolled[dir][i] in rolled[dir];
    }
    forall dir, n | dir in rolled && n in rolled[dir]
      ensures exists m :: m in Listing(t.children, dir) && m.path == n.path && m.kind == n.kind
    {
      var i :| 0 <= i < |rolled[dir]| && rolled[dir][i] == n;
      assert t.children[dir][i] in t.children[dir];
    }
  }

  lemma SortedCovers(rolled: map<string, seq<Node>>, now: map<string, seq<Node>>)
    requires AllSortedFrom(now, rolled)
    ensures Covers(rolled, now) && Covers(now, rolled)
  {
    forall dir, n | dir in rolled && n in rolled[dir] ensures n in Listing(now, dir) {
      assert n in multiset(now[dir]);
    }
    forall dir, n | dir in now && n in now[dir] ensures n in Listing(rolled, dir) {
      assert n in multiset(rolled[dir]);
    }
  }

  lemma ReachedAlike(a: map<string, seq<Node>>, b: map<string, seq<Node>>, c: map<string, seq<Node>>, p: string)
    requires Covers(a, b) && Covers(b, a) && Covers(b, c) && Covers(c, b)
    ensures Reached(a, p, false) <==> Reached(c, p, false)
  {
    if Reached(a, p, false) {
      CoveredIsReached(a, b, p, false);
      CoveredIsReached(b, c, p, false);
    }
    if Reached(c, p, false) {
      CoveredIsReached(c, b, p, false);
      CoveredIsReached(b, a, p, false);
    }
  }

  lemma ShownIsReached(index: seq<Entry>, rolled: map<string, seq<Node>>, now: Shape)
    requires PathOrdered(index) && Rolled(Loaded(index).children, rolled, TotalsOf(Loaded(index).byPath))
    requires AllSortedFrom(now.children, rolled)
    ensures AllReached(now.children, index) <==> Bridged(index)
  {
    LoadedIsSane(index);
    RolledCovers(Loaded(index), rolled);
    SortedCovers(rolled, now.children);
    forall e | e in index ensures Reached(Loaded(index).children, e.path, false) <==> Reached(now.children, e.path, false) {
      ReachedAlike(Loaded(index).children, rolled, now.children, e.path);
    }
    AllReachedIffBridged(index);
  }

  lemma ShownIsComplete(index: seq<Entry>, rolled: map<string, seq<Node>>, now: Shape)
    requires PathOrdered(index) && Bridged(index)
    requires Rolled(Loaded(index).children, rolled, TotalsOf(Loaded(index).byPath))
    requires AllSortedFrom(now.children, rolled)
    requires now.byPath == Loaded(index).byPath + TotalsOf(Loaded(index).byPath)
    ensures Shows(now, Spots(index))
  {
    BridgedIsGrown(index);
    HeldIsShown(Loaded(index), Spots(index), rolled, now);
  }

  lemma FinishedTree(index: seq<Entry>, rolled: map<string, seq<Node>>, now: Shape)
    requires PathOrdered(index) && Rolled(Loaded(index).children, rolled, TotalsOf(Loaded(index).byPath))
    requires AllSortedFrom(now.children, rolled) && now.byPath == Loaded(index).byPath + TotalsOf(Loaded(index).byPath)
    ensures AllReached(now.children, index) <==> Bridged(index)
    ensures Bridged(index) ==> Shows(now, Spots(index))
  {
    ShownIsReached(index, rolled, now);
    if Bridged(index) {
      ShownIsComplete(index, rolled, now);
    }
  }

  /** A bridged index has every directory before what is in it. */
  lemma SpotsAreGrowing(index: seq<Entry>)
    requires PathOrdered(index) && Bridged(index)
    ensures Growing(Spots(index)) && FromEntries(Spots(index))
  {
    BridgedIsGrown(index);
    EntriesAreSpots(index);
  }

  lemma NodesAreFinal(nodes: map<string, Node>, now: map<string, Node>)
    requires now == nodes + TotalsOf(nodes)
    ensures now.Keys == nodes.Keys && forall p | p in now :: now[p] == Final(nodes, nodes[p])
  {
  }

  lemma HeldIsShown(t: Shape, spots: seq<Spot>, rolled: map<string, seq<Node>>, now: Shape)
    requires Holds(t, spots) && Rolled(t.children, rolled, TotalsOf(t.byPath))
    requires AllSortedFrom(now.children, rolled) && now.byPath == t.byPath + TotalsOf(t.byPath)
    ensures Shows(now, spots)
  {
    AllFinal(spots, t.children, rolled, TotalsOf(t.byPath));
    NodesAreFinal(t.byPath, now.byPath);
  }

  lemma {:induction false} ParentsAreDirs(spots: seq<Spot>, s: Spot)
    requires Growing(spots) && s in spots
    ensures s.parent == "" || s.parent in Dirs(spots)
  {
    var i :| 0 <= i < |spots| && spots[i] == s;
    GrowingBefore(spots, i);
    assert Dirs(spots[..i]) <= Dirs(spots);
  }

  lemma {:induction false} NodeHasSpot(spots: seq<Spot>, p: string)
    requires p in Nodes(spots)
    ensures exists s :: s in spots && s.node.path == p && s.node == Nodes(spots)[p]
  {
    var rest, last := spots[..|spots| - 1], spots[|spots| - 1];
    if last.node.path != p {
      NodeHasSpot(rest, p);
    } else {
      assert last in spots;
    }
  }

  lemma AllFinal(spots: seq<Spot>, before: map<string, seq<Node>>, now: map<string, seq<Node>>, totals: map<string, Node>)
    requires Growing(spots) && Lists(before, spots) && Rolled(before, now, totals)
    requires TotalledUpTo(Nodes(spots), Nodes(spots).Keys, totals)
    ensures forall dir | dir in now :: now[dir] == Finals(Nodes(spots), Kids(spots, dir))
  {
    forall dir | dir in now ensures now[dir] == Finals(Nodes(spots), Kids(spots, dir)) {
      forall n | n in Kids(spots, dir) ensures n.path in Nodes(spots) && Nodes(spots)[n.path] == n {
        KidsAreNodes(spots, dir, n);
      }
      RewrittenIsFinal(Nodes(spots), totals, Kids(spots, dir), now[dir]);
    }
  }

  // ------------------------------------------------------------------- paging

  /** The root goes by several names: nothing, a dot, or slashes only. */
  function Normalise(p: string): string {
    var t := TrimSlashes(p);
    if t == "." then "" else t
  }

  function Page(kids: seq<Node>, offset: int, limit: int): seq<Node> {
    var start := if offset < 0 then 0 else offset;
    if start >= |kids| then []
    else if limit > 0 && start + limit < |kids| then kids[start..start + limit]
    else kids[start..]
  }

  function PagesFrom(kids: seq<Node>, offset: nat, limit: nat): seq<Node>
    requires limit > 0
    decreases |kids| - offset
  {
    if offset >= |kids| then [] else Page(kids, offset, limit) + PagesFrom(kids, offset + limit, limit)
  }

  lemma SplitAt(kids: seq<Node>, a: nat, b: nat)
    requires a <= b <= |kids|
    ensures kids[a..] == kids[a..b] + kids[b..]
  {
  }

  /** Pages of any size, one after the other, are the listing. */
  lemma {:induction false} PagesMakeTheListing(kids: seq<Node>, offset: nat, limit: nat)
    requires limit > 0 && offset <= |kids|
    ensures PagesFrom(kids, offset, limit) == kids[offset..]
    decreases |kids| - offset
  {
    var next := offset + limit;
    if next < |kids| {
      PagesMakeTheListing(kids, next, limit);
      SplitAt(kids, offset, next);
    } else if offset < |kids| {
      assert PagesFrom(kids, next, limit) == [];
      assert Page(kids, offset, limit) == kids[offset..];
    }
  }

  /** Every node lies in a directory. */
  ghost predicate ParentClosed(nodes: map<string, Node>) {
    forall p | p in nodes && ParentOf(p) != "" :: ParentOf(p) in nodes && nodes[ParentOf(p)].kind.Dir?
  }

  lemma NodesAreClosed(spots: seq<Spot>)
    requires Growing(spots) && FromEntries(spots)
    ensures ParentClosed(Nodes(spots))
  {
    forall p | p in Nodes(spots) && ParentOf(p) != ""
      ensures ParentOf(p) in Nodes(spots) && Nodes(spots)[ParentOf(p)].kind.Dir?
    {
      NodeHasSpot(spots, p);
      var s :| s in spots && s.node.path == p;
      ParentsAreDirs(spots, s);
      var d :| d in spots && d.node.kind.Dir? && d.node.path == ParentOf(p);
      SpotIsNode(spots, d);
    }
  }

  lemma {:induction false} SpotIsNode(spots: seq<Spot>, s: Spot)
    requires Growing(spots) && s in spots
    ensures s.node.path in Nodes(spots) && Nodes(spots)[s.node.path] == s.node
    ensures s.node in Kids(spots, s.parent)
  {
    var rest, last := spots[..|spots| - 1], spots[|spots| - 1];
    if s in rest {
      SpotIsNode(rest, s);
    } else {
      assert s == last;
    }
  }

  predicate DistinctPaths(nodes: seq<Node>) {
    forall i, j | 0 <= i < j < |nodes| :: nodes[i].path != nodes[j].path
  }

  lemma {:induction false} KidsAreDistinct(spots: seq<Spot>, dir: string)
    requires Growing(spots)
    ensures DistinctPaths(Kids(spots, dir))
  {
    if spots != [] {
      var rest, last := spots[..|spots| - 1], spots[|spots| - 1];
      KidsAreDistinct(rest, dir);
      forall n | n in Kids(rest, dir) ensures n.path != last.node.path {
        KidsAreNodes(rest, dir, n);
      }
    }
  }

  lemma PermutedOnce(a: seq<Node>, b: seq<Node>)
    requires multiset(a) == multiset(b)
    requires DistinctPaths(b)
    ensures DistinctPaths(a)
    ensures forall n :: n in a <==> n in b
  {
    forall n ensures n in a <==> n in b {
      assert n in multiset(a) <==> n in multiset(b);
    }
    forall i, j | 0 <= i < j < |a| ensures a[i].path != a[j].path {
      if a[i].path == a[j].path {
        assert a[i] in b && a[j] in b;
        TwiceInside(a, i, j);
        OnceInside(b, a[i]);
      }
    }
  }

  lemma FinalsOfKids(spots: seq<Spot>, dir: string, n: Node)
    requires Growing(spots) && FromEntries(spots)
    ensures n in Finals(Nodes(spots), Kids(spots, dir)) <==>
            n.path in Nodes(spots) && ParentOf(n.path) == dir && n == Final(Nodes(spots), Nodes(spots)[n.path])
  {
    var nodes, kids := Nodes(spots), Kids(spots, dir);
    if n in Finals(nodes, kids) {
      var i :| 0 <= i < |kids| && Finals(nodes, kids)[i] == n;
      KidsAreNodes(spots, dir, kids[i]);
    }
    if n.path in nodes && ParentOf(n.path) == dir && n == Final(nodes, nodes[n.path]) {
      NodeHasSpot(spots, n.path);
      var s :| s in spots && s.node.path == n.path && s.node == nodes[n.path];
      SpotIsNode(spots, s);
      var i :| 0 <= i < |kids| && kids[i] == s.node;
      assert Finals(nodes, kids)[i] == n;
    }
  }

  lemma FinalsAreDistinct(spots: seq<Spot>, dir: string)
    requires Growing(spots)
    ensures DistinctPaths(Finals(Nodes(spots), Kids(spots, dir)))
  {
    KidsAreDistinct(spots, dir);
    var kids := Kids(spots, dir);
    assert forall i | 0 <= i < |kids| :: Final(Nodes(spots), kids[i]).path == kids[i].path;
  }

  lemma ShownInListing(spots: seq<Spot>, dir: string, shown: map<string, Node>, n: Node)
    requires Growing(spots) && FromEntries(spots)
    requires shown.Keys == Nodes(spots).Keys && forall p | p in shown :: shown[p] == Final(Nodes(spots), Nodes(spots)[p])
    ensures n in Finals(Nodes(spots), Kids(spots, dir)) <==>
            n.path in shown && ParentOf(n.path) == dir && n == shown[n.path]
  {
    FinalsOfKids(spots, dir, n);
  }

  /** A directory's listing in the finished tree: the nodes whose parent it is, each once. */
  lemma ListingIsExact(tree: Shape, index: seq<Entry>, dir: string, n: Node)
    requires PathOrdered(index) && Bridged(index) && Shows(tree, Spots(index)) && dir in tree.children
    ensures DistinctPaths(tree.children[dir])
    ensures n in tree.children[dir] <==> n.path in tree.byPath && ParentOf(n.path) == dir && n == tree.byPath[n.path]
  {
    var spots := Spots(index);
    SpotsAreGrowing(index);
    FinalsAreDistinct(spots, dir);
    PermutedOnce(tree.children[dir], Finals(Nodes(spots), Kids(spots, dir)));
    ShownInListing(spots, dir, tree.byPath, n);
  }

  lemma LoneIsUnsupported(e: Entry)
    requires Relative(e.path) && ParentOf(e.path) != "" && ParentOf(ParentOf(e.path)) != ""
    ensures PathOrdered([e]) && !Bridged([e])
  {
    AllAboveTheParent(e.path);
    AllAboveTheParent(ParentOf(e.path));
    assert !Supported([e], 0);
  }

  /** With two levels missing above the only entry there is no way to it. */
  method InventedIsUnreachable(e: Entry) returns (tree: Tree)
    requires Relative(e.path) && ParentOf(e.path) != "" && ParentOf(ParentOf(e.path)) != ""
    ensures tree.entries == 1 && !Reached(tree.children, e.path, false)
  {
    LoneIsUnsupported(e);
    tree := new Tree();
    var _ := tree.Build([e], 0);
  }

  // ------------------------------------------------------------- what adds up

  /** A directory counts the entries below it that are not directories, and their bytes. */
  lemma TotalsCount(nodes: map<string, Node>, n: Node)
    ensures Totalled(nodes, nodes.Keys, n).children ==
            |set p | p in nodes && !nodes[p].kind.Dir? && Below(p, n.path)|
    ensures Totalled(nodes, nodes.Keys, n).subBytes ==
            Sum(map p | p in nodes && !nodes[p].kind.Dir? && Below(p, n.path) :: nodes[p].size)
  {
    var ones := Weights(nodes, nodes.Keys, n.path, false);
    SumOfOnes(ones);
    assert ones.Keys == set p | p in nodes && !nodes[p].kind.Dir? && Below(p, n.path);
    assert Weights(nodes, nodes.Keys, n.path, true) ==
           map p | p in nodes && !nodes[p].kind.Dir? && Below(p, n.path) :: nodes[p].size;
  }

  ghost function All(nodes: map<string, Node>, dir: string, inBytes: bool): map<string, nat> {
    Weights(nodes, nodes.Keys, dir, inBytes)
  }

  /** What one listed node contributes to its directory. */
  ghost function Share(nodes: map<string, Node>, q: string, inBytes: bool): nat
    requires q in nodes
  {
    if nodes[q].kind.Dir? then Sum(All(nodes, q, inBytes)) else if inBytes then nodes[q].size else 1
  }

  ghost function Shares(nodes: map<string, Node>, ks: set<string>, inBytes: bool): map<string, nat> {
    map q | q in ks && q in nodes :: Share(nodes, q, inBytes)
  }

  /** The weights of what is at or below some of the listed nodes. */
  ghost function Through(nodes: map<string, Node>, ks: set<string>, inBytes: bool): map<string, nat> {
    map p | p in nodes && !nodes[p].kind.Dir? && (exists k :: k in ks && AtOrBelow(p, k)) ::
      if inBytes then nodes[p].size else 1
  }

  /** Only directories have something below them. */
  lemma {:induction false} AboveAreDirs(nodes: map<string, Node>, p: string, q: string)
    requires Plain(nodes) && ParentClosed(nodes) && p in nodes && q != "" && Below(p, q)
    ensures q in nodes && nodes[q].kind.Dir?
    decreases |p|
  {
    AllAboveTheParent(p);
    if q != ParentOf(p) {
      AboveAreDirs(nodes, ParentOf(p), q);
    }
  }

  /** The weights of what is at or below one node. */
  ghost function Part(nodes: map<string, Node>, k: string, inBytes: bool): map<string, nat> {
    map p | p in nodes && !nodes[p].kind.Dir? && AtOrBelow(p, k) :: if inBytes then nodes[p].size else 1
  }

  lemma PartIsShare(nodes: map<string, Node>, k: string, inBytes: bool)
    requires Plain(nodes) && ParentClosed(nodes) && k in nodes
    ensures Sum(Part(nodes, k, inBytes)) == Share(nodes, k, inBytes)
  {
    forall p | p in nodes && Below(p, k) ensures nodes[k].kind.Dir? {
      AboveAreDirs(nodes, p, k);
    }
    if nodes[k].kind.Dir? {
      assert Part(nodes, k, inBytes) == All(nodes, k, inBytes);
    } else {
      var w := if inBytes then nodes[k].size else 1;
      SumWith(map[], k, w);
      assert Part(nodes, k, inBytes) == map[][k := w];
    }
  }

  lemma PartsAreApart(nodes: map<string, Node>, ks: set<string>, k: string, inBytes: bool)
    requires Plain(nodes) && k in nodes && k !in ks
    requires forall q | q in ks :: q in nodes && ParentOf(q) == ParentOf(k)
    ensures Through(nodes, ks, inBytes).Keys !! Part(nodes, k, inBytes).Keys
  {
    forall p | p in Part(nodes, k, inBytes) ensures p !in Through(nodes, ks, inBytes) {
      forall q | q in ks ensures !AtOrBelow(p, q) {
        SiblingsAreApart(p, k, q);
      }
    }
  }

  lemma OnePartMore(nodes: map<string, Node>, ks: set<string>, k: string, inBytes: bool)
    ensures Through(nodes, ks + {k}, inBytes) == Through(nodes, ks, inBytes) + Part(nodes, k, inBytes)
  {
    forall p ensures p in Through(nodes, ks + {k}, inBytes) <==>
                     p in Through(nodes, ks, inBytes) || p in Part(nodes, k, inBytes)
    {
      if p in Through(nodes, ks, inBytes) {
        var q :| q in ks && AtOrBelow(p, q);
        assert q in ks + {k};
      }
      if p in Part(nodes, k, inBytes) {
        assert k in ks + {k};
      }
    }
  }

  lemma OneShareMore(nodes: map<string, Node>, ks: set<string>, k: string, inBytes: bool)
    requires k in nodes && k !in ks
    ensures Sum(Shares(nodes, ks + {k}, inBytes)) == Sum(Shares(nodes, ks, inBytes)) + Share(nodes, k, inBytes)
  {
    SumWith(Shares(nodes, ks, inBytes), k, Share(nodes, k, inBytes));
    assert Shares(nodes, ks + {k}, inBytes) == Shares(nodes, ks, inBytes)[k := Share(nodes, k, inBytes)];
  }

  lemma NoShares(nodes: map<string, Node>, inBytes: bool)
    ensures Through(nodes, {}, inBytes) == map[] && Shares(nodes, {}, inBytes) == map[]
  {
  }

  lemma {:induction false} SharesAddUp(nodes: map<string, Node>, dir: string, ks: set<string>, inBytes: bool)
    requires Plain(nodes) && ParentClosed(nodes)
    requires forall q | q in ks :: q in nodes && ParentOf(q) == dir
    ensures Sum(Through(nodes, ks, inBytes)) == Sum(Shares(nodes, ks, inBytes))
    decreases |ks|
  {
    if ks == {} {
      NoShares(nodes, inBytes);
    } else {
      var k :| k in ks;
      var rest := ks - {k};
      assert rest + {k} == ks;
      SharesAddUp(nodes, dir, rest, inBytes);
      OneShareMore(nodes, rest, k, inBytes);
      OnePartMore(nodes, rest, k, inBytes);
      PartsAreApart(nodes, rest, k, inBytes);
      SumOfParts(Through(nodes, rest, inBytes), Part(nodes, k, inBytes));
      PartIsShare(nodes, k, inBytes);
    }
  }

  lemma BelowIsThroughAListed(nodes: map<string, Node>, dir: string, p: string)
    requires Plain(nodes) && ParentClosed(nodes) && dir != "" && p in nodes
    ensures Below(p, dir) <==> exists k :: k in Listed(nodes.Keys, dir) && AtOrBelow(p, k)
  {
    if Below(p, dir) {
      var _ := WayDown(nodes.Keys, dir, p);
    }
    forall k | k in Listed(nodes.Keys, dir) && AtOrBelow(p, k) ensures Below(p, dir) {
      AllAboveTheParent(k);
      if p != k {
        BelowIsTransitive(p, k, dir);
      }
    }
  }

  lemma AllIsThroughListed(nodes: map<string, Node>, dir: string, inBytes: bool)
    requires Plain(nodes) && ParentClosed(nodes) && dir != ""
    ensures All(nodes, dir, inBytes) == Through(nodes, Listed(nodes.Keys, dir), inBytes)
  {
    forall p | p in nodes ensures Below(p, dir) <==> exists k :: k in Listed(nodes.Keys, dir) && AtOrBelow(p, k) {
      BelowIsThroughAListed(nodes, dir, p);
    }
  }

  /** A directory's total is the sum over what is listed in it. */
  lemma TotalIsSumOverListing(nodes: map<string, Node>, dir: string, inBytes: bool)
    requires Plain(nodes) && ParentClosed(nodes) && dir != ""
    ensures Sum(All(nodes, dir, inBytes)) == Sum(Shares(nodes, Listed(nodes.Keys, dir), inBytes))
  {
    SharesAddUp(nodes, dir, Listed(nodes.Keys, dir), inBytes);
    AllIsThroughListed(nodes, dir, inBytes);
  }

  /** What the tree shows for the nodes listed in a directory, by path. */
  ghost function ShownShares(byPath: map<string, Node>, dir: string, inBytes: bool): map<string, nat> {
    map q | q in byPath && ParentOf(q) == dir :: ShownShare(byPath[q], inBytes)
  }

  function ShownShare(n: Node, inBytes: bool): nat {
    if n.kind.Dir? then (if inBytes then n.subBytes else n.children) else if inBytes then n.size else 1
  }

  /** What a listing shows, added up. */
  function ListedTotal(listing: seq<Node>, inBytes: bool): nat {
    if listing == [] then 0
    else ListedTotal(listing[..|listing| - 1], inBytes) + ShownShare(listing[|listing| - 1], inBytes)
  }

  function ListedShares(listing: seq<Node>, inBytes: bool): map<string, nat> {
    if listing == [] then map[]
    else
      var last := listing[|listing| - 1];
      ListedShares(listing[..|listing| - 1], inBytes)[last.path := ShownShare(last, inBytes)]
  }

  lemma {:induction false} ListedSharesAre(listing: seq<Node>, inBytes: bool, q: string)
    requires DistinctPaths(listing)
    ensures q in ListedShares(listing, inBytes) <==> exists n :: n in listing && n.path == q
    ensures forall n | n in listing && n.path == q :: ListedShares(listing, inBytes)[q] == ShownShare(n, inBytes)
  {
    if listing != [] {
      var rest, last := listing[..|listing| - 1], listing[|listing| - 1];
      ListedSharesAre(rest, inBytes, q);
      assert listing == rest + [last];
    }
  }

  lemma {:induction false} ListedTotalIsTheSum(listing: seq<Node>, inBytes: bool)
    requires DistinctPaths(listing)
    ensures ListedTotal(listing, inBytes) == Sum(ListedShares(listing, inBytes))
  {
    if listing == [] {
      assert Sum<string>(map[]) == 0;
    } else {
      var rest, last := listing[..|listing| - 1], listing[|listing| - 1];
      ListedTotalIsTheSum(rest, inBytes);
      ListedSharesAre(rest, inBytes, last.path);
      SumWith(ListedShares(rest, inBytes), last.path, ShownShare(last, inBytes));
    }
  }

  lemma ListedSharesAreShown(listing: seq<Node>, byPath: map<string, Node>, dir: string, inBytes: bool)
    requires DistinctPaths(listing) && forall p | p in byPath :: byPath[p].path == p
    requires forall n :: n in listing <==> n.path in byPath && ParentOf(n.path) == dir && n == byPath[n.path]
    ensures ListedShares(listing, inBytes) == ShownShares(byPath, dir, inBytes)
  {
    forall q
      ensures q in ListedShares(listing, inBytes) <==> q in byPath && ParentOf(q) == dir
      ensures q in ListedShares(listing, inBytes) ==> ListedShares(listing, inBytes)[q] == ShownShare(byPath[q], inBytes)
    {
      ListedSharesAre(listing, inBytes, q);
      assert q in byPath && ParentOf(q) == dir ==> byPath[q] in listing;
    }
  }

  lemma ListedIsShown(tree: Shape, index: seq<Entry>, dir: string, inBytes: bool)
    requires PathOrdered(index) && Bridged(index) && Shows(tree, Spots(index)) && dir in tree.children
    ensures ListedTotal(tree.children[dir], inBytes) == Sum(ShownShares(tree.byPath, dir, inBytes))
  {
    var listing := tree.children[dir];
    forall n ensures DistinctPaths(listing) &&
                     (n in listing <==> n.path in tree.byPath && ParentOf(n.path) == dir && n == tree.byPath[n.path])
    {
      ListingIsExact(tree, index, dir, n);
    }
    ShowsByPath(tree, Spots(index));
    ListedSharesAreShown(listing, tree.byPath, dir, inBytes);
    ListedTotalIsTheSum(listing, inBytes);
  }

  lemma ShowsByPath(tree: Shape, spots: seq<Spot>)
    requires Shows(tree, spots)
    ensures forall p | p in tree.byPath :: tree.byPath[p].path == p
  {
    forall p | p in Nodes(spots) ensures Nodes(spots)[p].path == p {
      NodeHasSpot(spots, p);
    }
  }

  /** In the finished tree each directory's figures are the sums over what is listed in it. */
  lemma ShownTotalsAddUp(tree: Shape, index: seq<Entry>, dir: string)
    requires PathOrdered(index) && Bridged(index) && Shows(tree, Spots(index))
    requires dir in tree.byPath && tree.byPath[dir].kind.Dir?
    ensures dir in tree.children
    ensures tree.byPath[dir].children == ListedTotal(tree.children[dir], false)
    ensures tree.byPath[dir].subBytes == ListedTotal(tree.children[dir], true)
  {
    var spots := Spots(index);
    SpotsAreGrowing(index);
    NodeHasSpot(spots, dir);
    ListedIsShown(tree, index, dir, false);
    ListedIsShown(tree, index, dir, true);
    TotalsAreSums(tree, spots, dir);
  }

  /** Every entry is a node of the tree, as it is but for the figures of a directory. */
  ghost predicate HasEntries(t: Shape, index: seq<Entry>) {
    forall e | e in index ::
      && ParentOf(e.path) in t.children && e.path in t.byPath
      && t.byPath[e.path].(children := 0, subBytes := 0) == NodeOf(e)
  }

  /** Every node is in the listing of its directory, once and as it is by path, and in no other. */
  ghost predicate ViewsAgree(t: Shape) {
    forall dir | dir in t.children ::
      && DistinctPaths(t.children[dir])
      && forall n :: n in t.children[dir] <==> n.path in t.byPath && ParentOf(n.path) == dir && n == t.byPath[n.path]
  }

  /** The figures of every directory are the sums over its listing. */
  ghost predicate AddsUp(t: Shape) {
    forall dir | dir in t.byPath && t.byPath[dir].kind.Dir? ::
      && dir in t.children
      && t.byPath[dir].children == ListedTotal(t.children[dir], false)
      && t.byPath[dir].subBytes == ListedTotal(t.children[dir], true)
  }

  lemma BuiltTree(index: seq<Entry>, tree: Shape)
    requires PathOrdered(index) && Bridged(index) && Shows(tree, Spots(index))
    ensures HasEntries(tree, index) && ViewsAgree(tree) && AddsUp(tree)
  {
    EntriesAreShown(index, tree);
    forall dir, n | dir in tree.children
      ensures DistinctPaths(tree.children[dir])
      ensures n in tree.children[dir] <==>
              n.path in tree.byPath && ParentOf(n.path) == dir && n == tree.byPath[n.path]
    {
      ListingIsExact(tree, index, dir, n);
    }
    assert ViewsAgree(tree) by {
      forall dir | dir in tree.children ensures DistinctPaths(tree.children[dir]) {
        ListingIsExact(tree, index, dir, InventedDir(dir));
      }
    }
    forall dir | dir in tree.byPath && tree.byPath[dir].kind.Dir?
      ensures dir in tree.children && tree.byPath[dir].children == ListedTotal(tree.children[dir], false) &&
              tree.byPath[dir].subBytes == ListedTotal(tree.children[dir], true)
    {
      ShownTotalsAddUp(tree, index, dir);
    }
  }

  lemma EntriesAreShown(index: seq<Entry>, tree: Shape)
    requires PathOrdered(index) && Bridged(index) && Shows(tree, Spots(index))
    ensures HasEntries(tree, index)
  {
    forall e | e in index
      ensures ParentOf(e.path) in tree.children && e.path in tree.byPath &&
              tree.byPath[e.path].(children := 0, subBytes := 0) == NodeOf(e)
    {
      EntryIsShown(index, tree, e);
    }
  }

  lemma EntryIsShown(index: seq<Entry>, tree: Shape, e: Entry)
    requires PathOrdered(index) && Bridged(index) && Shows(tree, Spots(index)) && e in index
    ensures ParentOf(e.path) in tree.children && e.path in tree.byPath
    ensures tree.byPath[e.path].(children := 0, subBytes := 0) == NodeOf(e)
  {
    EntryIsANode(index, e);
    assert tree.byPath[e.path] == Final(Nodes(Spots(index)), NodeOf(e));
  }

  lemma EntryIsANode(index: seq<Entry>, e: Entry)
    requires PathOrdered(index) && Bridged(index) && e in index
    ensures ParentOf(e.path) == "" || ParentOf(e.path) in Dirs(Spots(index))
    ensures e.path in Nodes(Spots(index)) && Nodes(Spots(index))[e.path] == NodeOf(e)
  {
    BridgedIsGrown(index);
    TreeIsTheIndex(index, e.path);
  }

  lemma TotalsAreSums(tree: Shape, spots: seq<Spot>, dir: string)
    requires Growing(spots) && FromEntries(spots) && Shows(tree, spots)
    requires dir in tree.byPath && tree.byPath[dir].kind.Dir?
    ensures tree.byPath[dir].children == Sum(ShownShares(tree.byPath, dir, false))
    ensures tree.byPath[dir].subBytes == Sum(ShownShares(tree.byPath, dir, true))
  {
    var nodes := Nodes(spots);
    NodesArePlain(spots);
    NodesAreClosed(spots);
    TotalIsSumOverListing(nodes, dir, false);
    TotalIsSumOverListing(nodes, dir, true);
    SharesAreShown(nodes, tree.byPath, dir, false);
    SharesAreShown(nodes, tree.byPath, dir, true);
  }

  lemma SharesAreShown(nodes: map<string, Node>, byPath: map<string, Node>, dir: string, inBytes: bool)
    requires Plain(nodes) && byPath.Keys == nodes.Keys && forall p | p in byPath :: byPath[p] == Final(nodes, nodes[p])
    ensures Shares(nodes, Listed(nodes.Keys, dir), inBytes) == ShownShares(byPath, dir, inBytes)
  {
  }
}
