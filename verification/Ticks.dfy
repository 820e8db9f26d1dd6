/** The tick boxes of the file browser: a set of paths, each standing for everything beneath it, kept minimal. */
module Ticks {
  import opened Text
  import opened Paths
  import opened Sums
  import opened Wrappers

  /** Ticked, or beneath something that is. */
  predicate Covered(selection: set<string>, path: string) {
    exists chosen :: chosen in selection && AtOrBelow(path, chosen)
  }

  /** No chosen path lies beneath another. */
  ghost predicate PrefixFree(selection: set<string>) {
    forall a, b | a in selection && b in selection :: !Below(a, b)
  }

  /** What replaces a ticked directory when something inside it is unticked: the other children of each directory on
      the way down. */
  function Around(paths: set<string>, parent: string, excluded: string): set<string> {
    set m | m in paths && AtOrBelow(ParentOf(m), parent) && Below(excluded, ParentOf(m)) && !AtOrBelow(excluded, m)
  }

  /** How many of a directory's entries unticking asks for. */
  const LISTING_LIMIT := 5000

  /** What comes back for a directory: all it lists, or as much of that as is asked for. */
  predicate IsPage(paths: set<string>, dir: string, page: set<string>) {
    page <= Listed(paths, dir) &&
    |page| == if |Listed(paths, dir)| <= LISTING_LIMIT then |Listed(paths, dir)| else LISTING_LIMIT
  }

  /** Every directory from below `parent` down to the path, and the path itself, is on the page of its directory. */
  predicate OnPages(paths: set<string>, pages: map<string, set<string>>, parent: string, m: string) {
    forall k | k in paths && AtOrBelow(m, k) && Below(k, parent) :: ParentOf(k) in pages && k in pages[ParentOf(k)]
  }

  /** Those of the other children that are on the pages. */
  function Shown(paths: set<string>, pages: map<string, set<string>>, parent: string, excluded: string): set<string> {
    set m | m in Around(paths, parent, excluded) && OnPages(paths, pages, parent, m)
  }

  class Browser {
    /** The paths of the snapshot being browsed, and what comes back when a directory of it is listed. */
    const paths: set<string>
    const pages: map<string, set<string>>

    var selection: set<string>

    constructor (paths: set<string>, pages: map<string, set<string>>)
      requires Rooted(paths) && forall dir | dir in paths :: dir in pages && IsPage(paths, dir, pages[dir])
      ensures this.paths == paths && this.pages == pages && selection == {} && Valid()
    {
      this.paths, this.pages, selection := paths, pages, {};
    }

    ghost predicate Paged() {
      Rooted(paths) && forall dir | dir in paths :: dir in pages && IsPage(paths, dir, pages[dir])
    }

    ghost predicate Valid()
      reads this
    {
      Paged() && selection <= paths && PrefixFree(selection)
    }

    method CoveredBySelection(path: string) returns (covered: bool)
      ensures covered <==> Covered(selection, path)
    {
      if path in selection {
        assert AtOrBelow(path, path);
        return true;
      }
      var left := selection;
      while left != {}
        invariant left <= selection
        invariant forall chosen | chosen in selection - left :: !AtOrBelow(path, chosen)
        decreases |left|
      {
        var chosen :| chosen in left;
        if chosen + "/" <= path {
          return true;
        }
        left := left - {chosen};
      }
      covered := false;
    }

    /** Ticking a box that is not covered adds that subtree and nothing else. */
    method Select(path: string)
      requires Valid() && path in paths && !Covered(selection, path)
      modifies this
      ensures Valid()
      ensures forall q :: Covered(selection, q) <==> old(Covered(selection, q)) || AtOrBelow(q, path)
    {
      ghost var before := selection;
      var left := selection;
      while left != {}
        invariant left <= before
        invariant forall c :: c in selection <==> c in before && (c in left || !AtOrBelow(c, path))
        decreases |left|
      {
        var chosen :| chosen in left;
        if chosen == path || path + "/" <= chosen {
          selection := selection - {chosen};
        }
        left := left - {chosen};
      }
      selection := selection + {path};
      SelectedCovers(before, path, selection);
      SelectedIsPrefixFree(before, path, selection);
    }

    /** Unticking a covered box removes that subtree, and what lies above it up to the path that was ticked, which no
        longer stand for all that is beneath them. Nothing else changes, if and only if the listings on the way down
        leave nothing out. */
    method Deselect(path: string)
      requires Valid() && path in paths
      modifies this
      ensures Valid()
      ensures old(!Covered(selection, path)) ==> selection == old(selection)
      ensures old(Covered(selection, path)) ==>
                exists chosen :: UntickedInside(paths, pages, old(selection), selection, chosen, path)
    {
      if path in selection {
        Remove(path);
        return;
      }
      var parent := ChosenAbove(path);
      if parent.Some? {
        Expand(parent.value, path);
      }
    }

    method Remove(path: string)
      requires Valid() && path in selection
      modifies this
      ensures Valid() && UntickedInside(paths, pages, old(selection), selection, path, path)
    {
      RemovedUnticks(paths, pages, selection, path);
      selection := selection - {path};
    }

    method Expand(parent: string, path: string)
      requires Valid() && path in paths && parent in selection && Below(path, parent)
      modifies this
      ensures Valid() && UntickedInside(paths, pages, old(selection), selection, parent, path)
    {
      ExpandedUnticks(paths, pages, selection, parent, path);
      selection := selection - {parent};
      ExpandAround(parent, path);
    }

    method ChosenAbove(path: string) returns (parent: Option<string>)
      ensures parent.Some? ==> parent.value in selection && Below(path, parent.value)
      ensures parent.None? ==> forall chosen | chosen in selection :: !Below(path, chosen)
    {
      var left := selection;
      while left != {}
        invariant left <= selection
        invariant forall chosen | chosen in selection - left :: !Below(path, chosen)
        decreases |left|
      {
        var chosen :| chosen in left;
        if chosen + "/" <= path {
          return Some(chosen);
        }
        left := left - {chosen};
      }
      parent := None;
    }

    /** Ticks everything directly in a directory except what leads to `excluded`, and goes down that way. */
    method ExpandAround(parent: string, excluded: string)
      requires Paged() && parent in paths && excluded in paths && Below(excluded, parent)
      modifies this
      ensures selection == old(selection) + Shown(paths, pages, parent, excluded)
      decreases |excluded| - |parent|, 1
    {
      var left := pages[parent];
      ghost var before, done: set<string> := selection, {};
      while left != {}
        invariant left !! done && left + done == pages[parent]
        invariant selection == before + Through(paths, pages, parent, excluded, done)
        decreases |left|
      {
        var node :| node in left;
        ReplaceNext(parent, excluded, node, before, done);
        left, done := left - {node}, done + {node};
      }
      AllThrough(paths, pages, parent, excluded);
    }

    method ReplaceNext(parent: string, excluded: string, node: string, ghost before: set<string>,
                       ghost done: set<string>)
      requires Paged() && parent in paths && excluded in paths && Below(excluded, parent)
      requires node in pages[parent] && selection == before + Through(paths, pages, parent, excluded, done)
      modifies this
      ensures selection == before + Through(paths, pages, parent, excluded, done + {node})
      decreases |excluded| - |parent|, 0, 1
    {
      OneMoreThrough(paths, pages, parent, excluded, done, node);
      Replace(node, excluded);
    }

    /** One child of the directory that is being replaced. */
    method Replace(node: string, excluded: string)
      requires Paged() && excluded in paths && node in paths
      modifies this
      ensures selection == old(selection) + Replacement(paths, pages, node, excluded)
      decreases |excluded| - |ParentOf(node)|, 0, 0
    {
      if node != excluded {
        if node + "/" <= excluded {
          ExpandAround(node, excluded);
        } else {
          selection := selection + {node};
        }
      }
    }
  }

  /** What takes the place of one child. */
  function Replacement(paths: set<string>, pages: map<string, set<string>>, node: string, excluded: string)
    : set<string>
  {
    if node == excluded then {} else if Below(excluded, node) then Shown(paths, pages, node, excluded) else {node}
  }

  lemma SelectedCovers(before: set<string>, path: string, after: set<string>)
    requires after == before - (set c | c in before && AtOrBelow(c, path)) + {path}
    ensures forall q :: Covered(after, q) <==> Covered(before, q) || AtOrBelow(q, path)
  {
    forall q ensures Covered(after, q) <==> Covered(before, q) || AtOrBelow(q, path) {
      if Covered(before, q) {
        var c :| c in before && AtOrBelow(q, c);
        if AtOrBelow(c, path) && q != c && c != path {
          BelowIsTransitive(q, c, path);
        }
        assert c in after || AtOrBelow(q, path);
      }
      assert path in after;
    }
  }

  lemma SelectedIsPrefixFree(before: set<string>, path: string, after: set<string>)
    requires after == before - (set c | c in before && AtOrBelow(c, path)) + {path}
    requires PrefixFree(before) && !Covered(before, path)
    ensures PrefixFree(after)
  {
    forall a, b | a in after && b in after ensures !Below(a, b) {
      if b in before && a == path {
        assert !AtOrBelow(path, b);
      }
    }
  }

  /** The part of the replacement that lies at or beneath some of the children. */
  function Through(paths: set<string>, pages: map<string, set<string>>, parent: string, excluded: string,
                   kids: set<string>): set<string>
  {
    set m | m in Shown(paths, pages, parent, excluded) && exists k :: k in kids && AtOrBelow(m, k)
  }

  lemma OneMoreThrough(paths: set<string>, pages: map<string, set<string>>, parent: string, excluded: string,
                       kids: set<string>, node: string)
    requires Rooted(paths) && parent != "" && Below(excluded, parent) && node in Listed(paths, parent)
    requires parent in pages && node in pages[parent]
    ensures Through(paths, pages, parent, excluded, kids + {node}) ==
            Through(paths, pages, parent, excluded, kids) + Replacement(paths, pages, node, excluded)
  {
    forall m ensures m in Shown(paths, pages, parent, excluded) && AtOrBelow(m, node) <==>
                     m in Replacement(paths, pages, node, excluded)
    {
      ShownBelowOneChild(paths, pages, parent, excluded, node, m);
    }
  }

  lemma AroundOneChild(paths: set<string>, parent: string, excluded: string, node: string, m: string)
    requires Rooted(paths) && parent != "" && Below(excluded, parent) && node in Listed(paths, parent)
    ensures m in Around(paths, parent, excluded) && AtOrBelow(m, node) <==>
            if Below(excluded, node) then m in Around(paths, node, excluded) else m == node && node != excluded
  {
    AllAboveTheParent(node);
    if m in paths {
      AllAboveTheParent(m);
    }
  }

  /** The pages down to something at or below a child of the parent begin with the child's own. */
  lemma PagesFromTheChild(paths: set<string>, pages: map<string, set<string>>, parent: string, node: string, m: string)
    requires Rooted(paths) && parent != "" && node in Listed(paths, parent) && AtOrBelow(m, node)
    requires parent in pages && node in pages[parent]
    ensures OnPages(paths, pages, parent, m) <==> OnPages(paths, pages, node, m)
  {
    AllAboveTheParent(node);
    forall k | k in paths && AtOrBelow(m, k) && Below(k, parent) ensures k == node || Below(k, node) {
      assert Below(node, k) ==> AtOrBelow(parent, k);
      if m != k && m != node {
        AncestorsCompare(m, k, node);
      }
    }
    forall k | k in paths && AtOrBelow(m, k) && Below(k, node) ensures Below(k, parent) {
      BelowIsTransitive(k, node, parent);
    }
  }

  lemma ShownBelowOneChild(paths: set<string>, pages: map<string, set<string>>, parent: string, excluded: string,
                           node: string, m: string)
    requires Rooted(paths) && parent != "" && Below(excluded, parent) && node in Listed(paths, parent)
    requires parent in pages && node in pages[parent]
    ensures m in Shown(paths, pages, parent, excluded) && AtOrBelow(m, node) <==>
            m in Replacement(paths, pages, node, excluded)
  {
    AroundOneChild(paths, parent, excluded, node, m);
    if AtOrBelow(m, node) {
      PagesFromTheChild(paths, pages, parent, node, m);
    }
  }

  lemma AllThrough(paths: set<string>, pages: map<string, set<string>>, parent: string, excluded: string)
    requires Rooted(paths) && parent != "" && parent in pages
    ensures Through(paths, pages, parent, excluded, pages[parent]) == Shown(paths, pages, parent, excluded)
  {
    forall m | m in Shown(paths, pages, parent, excluded) ensures exists k :: k in pages[parent] && AtOrBelow(m, k) {
      AllAboveTheParent(m);
      assert Below(m, parent);
      var k := WayDown(paths, parent, m);
      AllAboveTheParent(k);
    }
  }

  // ----------------------------------------------------- what unticking means

  ghost predicate Unticked(paths: set<string>, before: set<string>, after: set<string>, chosen: string, path: string) {
    forall q | q in paths ::
      Covered(after, q) <==>
      Covered(before, q) && !AtOrBelow(q, path) && !(Below(path, q) && AtOrBelow(q, chosen))
  }

  /** ... except that some paths are lost together with what is beneath them. */
  ghost predicate UntickedBut(paths: set<string>, before: set<string>, after: set<string>, chosen: string, path: string,
                              lost: set<string>)
  {
    forall q | q in paths ::
      Covered(after, q) <==>
      Covered(before, q) && !AtOrBelow(q, path) && !(Below(path, q) && AtOrBelow(q, chosen)) && !Covered(lost, q)
  }

  /** What the listings on the way down leave out. */
  function CutOff(paths: set<string>, pages: map<string, set<string>>, parent: string, excluded: string): set<string> {
    Around(paths, parent, excluded) - Shown(paths, pages, parent, excluded)
  }

  /** What unticking a path beneath a ticked one does: beside that path what the listings leave out is lost, so it is
      what unticking should do if and only if they leave nothing out. */
  ghost predicate UntickedInside(paths: set<string>, pages: map<string, set<string>>, before: set<string>,
                                 after: set<string>, chosen: string, path: string)
  {
    && chosen in before && AtOrBelow(path, chosen)
    && UntickedBut(paths, before, after, chosen, path, CutOff(paths, pages, chosen, path))
    && (Unticked(paths, before, after, chosen, path) <==> CutOff(paths, pages, chosen, path) == {})
  }

  /** Listings that are not too long leave nothing out. */
  lemma ShortListingsCutNothing(paths: set<string>, pages: map<string, set<string>>, parent: string, excluded: string)
    requires Rooted(paths) && parent in paths && Below(excluded, parent)
    requires forall dir | dir in paths :: dir in pages && IsPage(paths, dir, pages[dir])
    requires forall dir | dir in paths && AtOrBelow(dir, parent) && Below(excluded, dir) ::
               |Listed(paths, dir)| <= LISTING_LIMIT
    ensures CutOff(paths, pages, parent, excluded) == {}
  {
    forall m | m in Around(paths, parent, excluded) ensures OnPages(paths, pages, parent, m) {
      forall k | k in paths && AtOrBelow(m, k) && Below(k, parent)
        ensures ParentOf(k) in pages && k in pages[ParentOf(k)]
      {
        OnTheWay(paths, parent, excluded, m, k);
        SubsetSize(pages[ParentOf(k)], Listed(paths, ParentOf(k)));
      }
    }
  }

  /** A listing that is too long, by more than the one entry that leads to the path, leaves something out. */
  lemma LongListingCuts(paths: set<string>, pages: map<string, set<string>>, parent: string, excluded: string,
                        dir: string)
    requires Rooted(paths) && parent in paths && excluded in paths && dir in paths && dir in pages
    requires AtOrBelow(dir, parent) && Below(excluded, dir)
    requires IsPage(paths, dir, pages[dir]) && |Listed(paths, dir)| > LISTING_LIMIT + 1
    ensures CutOff(paths, pages, parent, excluded) != {}
  {
    var way := WayDown(paths, dir, excluded);
    var off := Listed(paths, dir) - pages[dir];
    assert off + pages[dir] == Listed(paths, dir) && off !! pages[dir];
    assert |off - {way}| >= |off| - 1 > 0;
    var m :| m in off - {way};
    if AtOrBelow(excluded, m) {
      SiblingsAreApart(excluded, m, way);
    }
    assert m in Around(paths, parent, excluded);
    AllAboveTheParent(m);
    if dir != parent {
      BelowIsTransitive(m, dir, parent);
    }
    assert !OnPages(paths, pages, parent, m);
  }

  lemma OnTheWay(paths: set<string>, parent: string, excluded: string, m: string, k: string)
    requires Rooted(paths) && parent in paths && m in Around(paths, parent, excluded)
    requires k in paths && AtOrBelow(m, k) && Below(k, parent)
    ensures ParentOf(k) in paths && AtOrBelow(ParentOf(k), parent) && Below(excluded, ParentOf(k))
  {
    AllAboveTheParent(k);
    AllAboveTheParent(m);
    if k != m {
      assert AtOrBelow(ParentOf(m), k) && Below(k, ParentOf(k));
      if ParentOf(m) != k {
        BelowIsTransitive(ParentOf(m), k, ParentOf(k));
      }
      BelowIsTransitive(excluded, ParentOf(m), ParentOf(k));
    }
  }

  lemma NothingIsCutOffBelow(paths: set<string>, pages: map<string, set<string>>, path: string)
    ensures CutOff(paths, pages, path, path) == {}
  {
  }

  /** Something that is cut off is not above the path, nor at or below it, so losing it is a difference. */
  lemma CutOffIsLost(paths: set<string>, before: set<string>, after: set<string>, chosen: string, path: string,
                     lost: set<string>)
    requires Rooted(paths) && chosen in before && chosen != "" && UntickedBut(paths, before, after, chosen, path, lost)
    requires lost <= Around(paths, chosen, path)
    ensures Unticked(paths, before, after, chosen, path) <==> lost == {}
  {
    if m :| m in lost {
      AroundIsBelow(paths, chosen, path, m);
      assert m in paths && Covered(before, m) && Covered(lost, m);
    }
  }

  /** A path is covered by one member only. */
  lemma OnlyOneCovers(selection: set<string>, a: string, b: string, q: string)
    requires PrefixFree(selection) && a in selection && b in selection && AtOrBelow(q, a) && AtOrBelow(q, b)
    ensures a == b
  {
    if Below(q, a) && Below(q, b) {
      AncestorsCompare(q, a, b);
    }
  }

  lemma AroundIsBelow(paths: set<string>, parent: string, excluded: string, m: string)
    requires Rooted(paths) && parent != "" && m in Around(paths, parent, excluded)
    ensures Below(m, parent) && !AtOrBelow(excluded, m) && !AtOrBelow(m, excluded)
  {
    AllAboveTheParent(m);
    if ParentOf(m) != parent {
      BelowIsTransitive(m, ParentOf(m), parent);
    }
  }

  lemma AroundCoversOnly(paths: set<string>, parent: string, excluded: string, q: string)
    requires Rooted(paths) && parent != "" && Below(excluded, parent) && Covered(Around(paths, parent, excluded), q)
    ensures Below(q, parent) && !AtOrBelow(q, excluded) && !Below(excluded, q)
  {
    var m :| m in Around(paths, parent, excluded) && AtOrBelow(q, m);
    AroundIsBelow(paths, parent, excluded, m);
    if q != m {
      BelowIsTransitive(q, m, parent);
      if Below(q, excluded) {
        AncestorsCompare(q, m, excluded);
      }
      if Below(excluded, q) {
        BelowIsTransitive(excluded, q, m);
      }
    }
  }

  lemma {:induction false} AroundCoversAll(paths: set<string>, parent: string, excluded: string, q: string)
    requires Rooted(paths) && parent != "" && Below(excluded, parent) && excluded in paths && q in paths
    requires Below(q, parent) && !AtOrBelow(q, excluded) && !Below(excluded, q)
    ensures Covered(Around(paths, parent, excluded), q)
    decreases |q| - |parent|
  {
    var k := WayDown(paths, parent, q);
    AllAboveTheParent(k);
    if AtOrBelow(excluded, k) {
      AroundCoversAll(paths, k, excluded, q);
      var m :| m in Around(paths, k, excluded) && AtOrBelow(q, m);
      if ParentOf(m) != k {
        BelowIsTransitive(ParentOf(m), k, parent);
      }
      assert m in Around(paths, parent, excluded);
    } else {
      assert k in Around(paths, parent, excluded);
    }
  }

  lemma RemovedUnticks(paths: set<string>, pages: map<string, set<string>>, before: set<string>, path: string)
    requires Rooted(paths) && before <= paths && PrefixFree(before) && path in before
    ensures PrefixFree(before - {path}) && UntickedInside(paths, pages, before, before - {path}, path, path)
  {
    NothingIsCutOffBelow(paths, pages, path);
    forall q | q in paths
      ensures Covered(before - {path}, q) <==> Covered(before, q) && !AtOrBelow(q, path)
    {
      if Covered(before, q) {
        var c :| c in before && AtOrBelow(q, c);
        if AtOrBelow(q, path) {
          OnlyOneCovers(before, c, path, q);
        }
      }
      if Covered(before - {path}, q) {
        var c :| c in before - {path} && AtOrBelow(q, c);
        if AtOrBelow(q, path) {
          OnlyOneCovers(before, c, path, q);
        }
      }
    }
  }

  lemma WholeExpansionUnticks(paths: set<string>, before: set<string>, parent: string, path: string)
    requires Rooted(paths) && before <= paths && PrefixFree(before) && parent in before
    requires path in paths && Below(path, parent)
    ensures var after := before - {parent} + Around(paths, parent, path);
            PrefixFree(after) && Unticked(paths, before, after, parent, path)
  {
    var others, around := before - {parent}, Around(paths, parent, path);
    forall a, b | a in others + around && b in others + around ensures !Below(a, b) {
      NotBelowEachOther(paths, before, parent, path, a, b);
    }
    forall q | q in paths
      ensures Covered(others + around, q) <==>
              Covered(before, q) && !AtOrBelow(q, path) && !(Below(path, q) && AtOrBelow(q, parent))
    {
      CoveredByEither(others, around, q);
      CoveredByEither(others, {parent}, q);
      assert others + {parent} == before;
      if Covered(around, q) {
        AroundCoversOnly(paths, parent, path, q);
      } else if Below(q, parent) && !AtOrBelow(q, path) && !Below(path, q) {
        AroundCoversAll(paths, parent, path, q);
      }
      if Covered(others, q) {
        OthersStayCovered(before, parent, path, q);
      }
      assert Covered({parent}, q) <==> AtOrBelow(q, parent) by {
        assert parent in {parent};
      }
    }
  }

  lemma CoveredWithout(selection: set<string>, lost: set<string>, q: string)
    requires PrefixFree(selection) && lost <= selection
    ensures Covered(selection - lost, q) <==> Covered(selection, q) && !Covered(lost, q)
  {
    if Covered(selection, q) {
      var c :| c in selection && AtOrBelow(q, c);
      if d :| d in lost && AtOrBelow(q, d) {
        OnlyOneCovers(selection, c, d, q);
      }
      if d :| d in selection - lost && AtOrBelow(q, d) {
        OnlyOneCovers(selection, c, d, q);
      }
    }
  }

  lemma ExpandedUnticks(paths: set<string>, pages: map<string, set<string>>, before: set<string>, parent: string,
                        path: string)
    requires Rooted(paths) && before <= paths && PrefixFree(before) && parent in before
    requires path in paths && Below(path, parent)
    ensures var after := before - {parent} + Shown(paths, pages, parent, path);
            PrefixFree(after) && UntickedInside(paths, pages, before, after, parent, path)
  {
    var others, around, cut := before - {parent}, Around(paths, parent, path), CutOff(paths, pages, parent, path);
    WholeExpansionUnticks(paths, before, parent, path);
    forall m | m in around ensures m !in others {
      AroundIsBelow(paths, parent, path, m);
    }
    assert others + Shown(paths, pages, parent, path) == others + around - cut;
    forall q | q in paths
      ensures Covered(others + around - cut, q) <==> Covered(others + around, q) && !Covered(cut, q)
    {
      CoveredWithout(others + around, cut, q);
    }
    CutOffIsLost(paths, before, others + around - cut, parent, path, cut);
  }

  lemma CoveredByEither(a: set<string>, b: set<string>, q: string)
    ensures Covered(a + b, q) <==> Covered(a, q) || Covered(b, q)
  {
    if Covered(a + b, q) {
      var c :| c in a + b && AtOrBelow(q, c);
      assert c in a || c in b;
    }
    if Covered(a, q) {
      var c :| c in a && AtOrBelow(q, c);
      assert c in a + b;
    }
    if Covered(b, q) {
      var c :| c in b && AtOrBelow(q, c);
      assert c in a + b;
    }
  }

  lemma OthersStayCovered(before: set<string>, parent: string, path: string, q: string)
    requires PrefixFree(before) && parent in before && Below(path, parent) && Covered(before - {parent}, q)
    ensures !AtOrBelow(q, parent) && !AtOrBelow(q, path)
  {
    var c :| c in before - {parent} && AtOrBelow(q, c);
    if AtOrBelow(q, parent) {
      OnlyOneCovers(before, c, parent, q);
    }
    if Below(q, path) {
      BelowIsTransitive(q, path, parent);
    }
  }

  lemma NotBelowEachOther(paths: set<string>, before: set<string>, parent: string, path: string, a: string, b: string)
    requires Rooted(paths) && PrefixFree(before) && parent in before && parent != "" && Below(path, parent)
    requires a in before - {parent} + Around(paths, parent, path) && b in before - {parent} + Around(paths, parent, path)
    ensures !Below(a, b)
  {
    if a in Around(paths, parent, path) {
      AroundIsBelow(paths, parent, path, a);
      AllAboveTheParent(a);
    }
    if b in Around(paths, parent, path) {
      AroundIsBelow(paths, parent, path, b);
    }
    if Below(a, b) {
      if a in Around(paths, parent, path) {
        AncestorsCompare(a, parent, b);
      } else {
        BelowIsTransitive(a, b, parent);
      }
    }
  }
}
