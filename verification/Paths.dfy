/** A tree of relative paths: what lies in which directory. */
module Paths {
  import opened Text

  predicate Relative(p: string) {
    p != "" && p[0] != '/'
  }

  /** Whatever is in the tree, its directory is too. */
  ghost predicate Rooted(paths: set<string>) {
    forall p | p in paths :: Relative(p) && (ParentOf(p) == "" || ParentOf(p) in paths)
  }

  /** The paths directly in a directory. */
  function Listed(paths: set<string>, dir: string): set<string> {
    set q | q in paths && ParentOf(q) == dir
  }

  lemma AllAboveTheParent(p: string)
    requires Relative(p)
    ensures forall d | d != "" :: Below(p, d) <==> d == ParentOf(p) || Below(ParentOf(p), d)
    ensures ParentOf(p) == "" || (Relative(ParentOf(p)) && |ParentOf(p)| < |p|)
  {
    forall d | d != "" ensures Below(p, d) <==> d == ParentOf(p) || Below(ParentOf(p), d) {
      AboveTheParent(p, d);
    }
    AboveTheParent(p, "x");
  }

  lemma NotBelowASibling(a: string, b: string)
    requires Relative(a) && Relative(b) && ParentOf(a) == ParentOf(b)
    ensures !Below(a, b)
  {
    AllAboveTheParent(a);
    AllAboveTheParent(b);
  }

  /** Nothing is at or below two entries of one directory. */
  lemma SiblingsAreApart(p: string, a: string, b: string)
    requires Relative(a) && Relative(b) && ParentOf(a) == ParentOf(b) && a != b
    ensures !(AtOrBelow(p, a) && AtOrBelow(p, b))
  {
    NotBelowASibling(a, b);
    NotBelowASibling(b, a);
    if Below(p, a) && Below(p, b) {
      AncestorsCompare(p, a, b);
    }
  }

  /** On the way down from a directory to what is below it there is something directly in it. */
  lemma {:induction false} StepDown(p: string, dir: string) returns (k: string)
    requires Relative(p) && dir != "" && Below(p, dir)
    ensures k != "" && ParentOf(k) == dir && AtOrBelow(p, k)
    decreases |p|
  {
    AllAboveTheParent(p);
    if ParentOf(p) == dir {
      k := p;
    } else {
      k := StepDown(ParentOf(p), dir);
    }
  }

  /** Whatever is below a directory is at or below one of the paths listed in it. */
  lemma {:induction false} WayDown(paths: set<string>, dir: string, p: string) returns (k: string)
    requires Rooted(paths) && p in paths && dir != "" && Below(p, dir)
    ensures k in Listed(paths, dir) && AtOrBelow(p, k)
    decreases |p|
  {
    AllAboveTheParent(p);
    if ParentOf(p) == dir {
      k := p;
    } else {
      k := WayDown(paths, dir, ParentOf(p));
      assert Below(p, ParentOf(p));
    }
  }
}
