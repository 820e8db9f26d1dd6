/** Restoring only some paths: which entries a set of ticked paths brings along. */
module Selection {
  import opened Text
  import opened Index
  import opened Wrappers

  datatype PathError = Empty | Absolute | NotCanonical | Escapes

  type Result<T> = Wrappers.Result<T, PathError>

  // ------------------------------------------------------- canonical paths

  /** Lexically clean: what Go's path.Clean leaves as it is, for a path that is not absolute. */
  predicate Clean(p: string) {
    p == "." || CleanSegments(Segments(p))
  }

  /** No empty segment, no ".", and ".." only at the front. */
  predicate CleanSegments(segs: seq<string>) {
    && (forall s | s in segs :: s != "" && s != ".")
    && (forall i | 0 < i < |segs| && segs[i] == ".." :: segs[i - 1] == "..")
  }

  function Canonical(raw: string): (r: Result<string>) {
    var p := TrimSpace(raw);
    if p == "" then Err(Empty)
    else if p[0] == '/' then Err(Absolute)
    else if !Clean(p) then Err(NotCanonical)
    else if ".." in Segments(p) then Err(Escapes)
    else Ok(p)
  }

  /** path.Dir of a clean path. */
  function ParentDir(p: string): string {
    var k := LastSlash(p);
    if k < 0 then "." else if k == 0 then "/" else p[..k]
  }

  // ------------------------------------------------------------- the model

  /** One pass over the sorted paths: a path is dropped when it lies below the last path kept. */
  function Collapse(s: seq<string>): (c: seq<string>)
    ensures s != [] ==> c != []
    ensures forall p | p in c :: p in s
  {
    if |s| <= 1 then s
    else
      var c, p := Collapse(s[..|s| - 1]), s[|s| - 1];
      if Below(p, c[|c| - 1]) then c else c + [p]
  }

  /** dirs are the proper ancestors of the paths. */
  ghost predicate AreAncestors(paths: seq<string>, dirs: set<string>) {
    forall d :: d in dirs <==> exists p :: p in paths && Below(p, d)
  }

  /** Where x would be inserted: everything before i is less, nothing from i on is. */
  predicate IsPosition(paths: seq<string>, x: string, i: int) {
    && 0 <= i <= |paths|
    && (forall j | 0 <= j < i :: Less(paths[j], x))
    && (forall j | i <= j < |paths| :: !Less(paths[j], x))
  }

  /** m is the path that a single probe finds for x: x itself or its predecessor, if x lies below that. */
  ghost predicate Finds(paths: seq<string>, x: string, m: string) {
    if x in paths then m == x
    else exists i :: IsPosition(paths, x, i) && i > 0 && m == paths[i - 1] && Below(x, m)
  }

  ghost predicate Accepts(paths: seq<string>, dirs: set<string>, e: Entry) {
    (exists m :: Finds(paths, e.path, m)) || (e.kind == Dir && e.path in dirs)
  }

  // -------------------------------------------------------------- the class

  class Selection {
    const paths: seq<string>
    const dirs: set<string>
    var matched: set<string>

    ghost predicate Valid() {
      Ascending(paths) && AreAncestors(paths, dirs)
    }

    constructor (paths: seq<string>, dirs: set<string>)
      ensures this.paths == paths && this.dirs == dirs && matched == {}
    {
      this.paths, this.dirs, matched := paths, dirs, {};
    }

    /** Whether an entry belongs in the restore. Records the path responsible, but an ancestor that is only
        carried along is no evidence that the path below it exists. */
    method Keep(e: Entry) returns (kept: bool)
      requires Valid()
      modifies this`matched
      ensures kept <==> Accepts(paths, dirs, e)
      ensures forall m :: m in matched <==> m in old(matched) || Finds(paths, e.path, m)
    {
      var i := SearchStrings(paths, e.path);
      if i < |paths| && paths[i] == e.path {
        matched := matched + {e.path};
        assert Finds(paths, e.path, e.path);
        return true;
      }
      PositionIsUnique(paths, e.path, i);
      if i > 0 && Below(e.path, paths[i - 1]) {
        matched := matched + {paths[i - 1]};
        assert Finds(paths, e.path, paths[i - 1]);
        return true;
      }
      kept := e.kind == Dir && e.path in dirs;
    }

    /** The selected paths that found nothing. */
    method Unmatched() returns (out: seq<string>)
      ensures forall p :: p in out <==> p in paths && p !in matched
    {
      out := [];
      for n := 0 to |paths|
        invariant forall p :: p in out <==> p in paths[..n] && p !in matched
      {
        if paths[n] !in matched {
          out := out + [paths[n]];
        }
      }
      assert paths[..|paths|] == paths;
    }
  }

  lemma PositionIsUnique(paths: seq<string>, x: string, i: int)
    requires IsPosition(paths, x, i) && !(i < |paths| && paths[i] == x) && Ascending(paths)
    ensures x !in paths
    ensures forall j :: IsPosition(paths, x, j) ==> j == i
  {
    LessIsStrict(x, x);
    assert forall n | i < n < |paths| :: Less(paths[i], paths[n]);
    assert forall n | 0 <= n < |paths| :: paths[n] != x;
    assert i < |paths| ==> !Less(paths[i], x);
    assert forall j | IsPosition(paths, x, j) :: j < i ==> Less(paths[j], x);
    assert forall j | IsPosition(paths, x, j) :: !(j < i) && !(i < j);
  }

  /** Binary search in ascending strings. */
  method SearchStrings(paths: seq<string>, x: string) returns (i: nat)
    requires Ascending(paths)
    ensures IsPosition(paths, x, i)
  {
    i := 0;
    var j := |paths|;
    while i < j
      invariant i <= j <= |paths|
      invariant forall k | 0 <= k < i :: Less(paths[k], x)
      invariant forall k | j <= k < |paths| :: !Less(paths[k], x)
    {
      var h := (i + j) / 2;
      if Less(paths[h], x) {
        forall k | 0 <= k < h ensures Less(paths[k], x) { LessIsTransitive(paths[k], paths[h], x); }
        i := h + 1;
      } else {
        forall k | h < k < |paths| ensures !Less(paths[k], x) {
          if Less(paths[k], x) { LessIsTransitive(paths[h], paths[k], x); }
        }
        j := h;
      }
    }
  }

  method CollapsePaths(cleaned: seq<string>) returns (prefixFree: seq<string>)
    requires cleaned != []
    ensures prefixFree == Collapse(cleaned)
  {
    prefixFree := cleaned[..1];
    for n := 1 to |cleaned|
      invariant prefixFree == Collapse(cleaned[..n])
    {
      assert cleaned[..n + 1][..n] == cleaned[..n];
      var last := prefixFree[|prefixFree| - 1];
      if !Below(cleaned[n], last) {
        prefixFree := prefixFree + [cleaned[n]];
      }
    }
    assert cleaned[..|cleaned|] == cleaned;
  }

  /** Neither absolute nor below ".", as every canonical path is. */
  predicate PlainRelative(p: string) {
    p != "" && p[0] != '/' && !("./" <= p)
  }

  lemma DotIsTheFirstSegment(p: string)
    requires "./" <= p
    ensures "." in Segments(p)
  {
    assert p[1..][0] == '/';
    assert Segments(p[1..])[0] == "";
    assert Segments(p)[0] == ".";
  }

  lemma CanonicalIsRelative(p: string)
    requires p != "" && p[0] != '/' && Clean(p)
    ensures PlainRelative(p)
  {
    if "./" <= p {
      DotIsTheFirstSegment(p);
    }
  }

  lemma ParentIsNearest(p: string)
    requires PlainRelative(p)
    ensures LastSlash(p) < 0 ==> ParentDir(p) == "." && forall d :: !Below(p, d)
    ensures LastSlash(p) >= 0 ==> PlainRelative(ParentDir(p)) && ParentDir(p) !in {".", "/"}
    ensures LastSlash(p) >= 0 ==> forall d :: Below(p, d) <==> d == ParentDir(p) || Below(ParentDir(p), d)
  {
    var k := LastSlash(p);
    LastSlashIsLast(p);
    if k < 0 {
      forall d ensures !Below(p, d) { BelowMeansSlash(p, d); }
    } else {
      var dir := p[..k];
      BelowMeansSlash(p, dir);
      assert "." + "/" == "./";
      forall d ensures Below(p, d) <==> d == dir || Below(dir, d) {
        BelowMeansSlash(p, d);
        if Below(dir, d) { BelowIsTransitive(p, dir, d); }
        if Below(p, d) && |d| < k { AncestorsAreNested(p, d, dir); }
      }
    }
  }

  /** Every proper ancestor of one path, walking up with path.Dir. */
  method AddAncestors(p: string, dirs: set<string>) returns (all: set<string>)
    requires PlainRelative(p)
    ensures forall d :: d in all <==> d in dirs || Below(p, d)
  {
    all := dirs;
    var dir := ParentDir(p);
    ParentIsNearest(p);
    while dir != "." && dir != "/"
      invariant dir == "." || (PlainRelative(dir) && dir != "/")
      invariant dir == "." ==> forall d :: d in all <==> d in dirs || Below(p, d)
      invariant dir != "." ==> Below(p, dir) && forall d :: d in all || d == dir || Below(dir, d) <==> d in dirs || Below(p, d)
      decreases if dir == "." then 0 else 1 + |dir|
    {
      all := all + {dir};
      ParentIsNearest(dir);
      if ParentDir(dir) != "." {
        BelowIsTransitive(p, dir, ParentDir(dir));
      }
      dir := ParentDir(dir);
    }
  }

  function Cleaned(requested: seq<string>): (r: Result<seq<string>>)
    ensures r.Ok? ==> |r.value| == |requested| && forall p | p in r.value :: PlainRelative(p)
  {
    if requested == [] then Ok([])
    else
      match Canonical(requested[0])
      case Err(e) => Err(e)
      case Ok(p) =>
        CanonicalIsRelative(p);
        match Cleaned(requested[1..])
        case Err(e) => Err(e)
        case Ok(rest) => Ok([p] + rest)
  }

  method CanonicalPaths(requested: seq<string>) returns (r: Result<seq<string>>)
    ensures r == Cleaned(requested)
  {
    var cleaned := [];
    assert requested[0..] == requested && forall rest: seq<string> :: [] + rest == rest;
    for n := 0 to |requested|
      invariant Cleaned(requested) == match Cleaned(requested[n..])
                                      case Err(e) => Err(e)
                                      case Ok(rest) => Ok(cleaned + rest)
    {
      var c := Canonical(requested[n]);
      assert requested[n..][1..] == requested[n + 1..];
      if c.Err? {
        return Err(c.error);
      }
      assert forall rest :: cleaned + ([c.value] + rest) == (cleaned + [c.value]) + rest;
      cleaned := cleaned + [c.value];
    }
    assert cleaned + [] == cleaned;
    r := Ok(cleaned);
  }

  method AncestorsOf(paths: seq<string>) returns (dirs: set<string>)
    requires forall p | p in paths :: PlainRelative(p)
    ensures AreAncestors(paths, dirs)
  {
    dirs := {};
    for n := 0 to |paths|
      invariant AreAncestors(paths[..n], dirs)
    {
      assert paths[..n + 1] == paths[..n] + [paths[n]];
      dirs := AddAncestors(paths[n], dirs);
    }
    assert paths[..|paths|] == paths;
  }

  /** Validates and normalises the caller's paths; no paths means no restriction. */
  method NewSelection(requested: seq<string>) returns (r: Result<Selection?>)
    ensures requested == [] ==> r == Ok(null)
    ensures requested != [] ==> (r.Err? <==> Cleaned(requested).Err?)
    ensures requested != [] && r.Err? ==> r.error == Cleaned(requested).error
    ensures requested != [] && r.Ok? ==>
              && r.value != null && fresh(r.value) && r.value.Valid() && r.value.matched == {}
              && MadeFrom(Strings(Cleaned(requested).value), r.value.paths, r.value.dirs)
  {
    if requested == [] {
      return Ok(null);
    }
    var cleaned := CanonicalPaths(requested);
    if cleaned.Err? {
      return Err(cleaned.error);
    }
    var sorted := SortStrings(cleaned.value);
    SameStrings(sorted, cleaned.value);
    var s := Compact(sorted);
    assert s != [] by { assert cleaned.value[0] in Strings(cleaned.value); }
    var prefixFree := CollapsePaths(s);
    CollapseAscends(s);
    assert forall p | p in prefixFree :: p in Strings(cleaned.value);
    var dirs := AncestorsOf(prefixFree);
    var sel := new Selection(prefixFree, dirs);
    r := Ok(sel);
  }

  lemma SameStrings(a: seq<string>, b: seq<string>)
    requires multiset(a) == multiset(b)
    ensures Strings(a) == Strings(b)
  {
    forall p ensures p in a <==> p in b { assert p in a <==> p in multiset(a); }
  }

  lemma {:induction false} CollapseAscends(s: seq<string>)
    requires Ascending(s)
    ensures Ascending(Collapse(s))
    ensures s != [] ==> forall p | p in Collapse(s) :: p == s[|s| - 1] || Less(p, s[|s| - 1])
  {
    if |s| > 1 {
      var before := s[..|s| - 1];
      CollapseAscends(before);
      forall p | p in Collapse(before) ensures Less(p, s[|s| - 1]) {
        var i :| 0 <= i < |before| && before[i] == p;
        assert s[i] == p;
      }
      var c := Collapse(before);
      forall i | 0 <= i < |c| ensures Less(c[i], s[|s| - 1]) { assert c[i] in c; }
    }
  }

  // --------------------------------------------- what the selection means

  /** The requested paths that lie below no other requested path. */
  ghost function Cover(requested: set<string>): set<string> {
    set p | p in requested && !exists q :: q in requested && Below(p, q)
  }

  /** No path of the cover continues another one with a character that sorts before '/'. */
  ghost predicate Separated(cover: set<string>) {
    forall p, q | p in cover && q in cover :: !(p < q && q[|p|] < '/')
  }

  /** What ticking paths asks for: those entries, everything beneath them, and their parent directories. */
  ghost predicate AskedFor(requested: set<string>, e: Entry) {
    || (exists p :: p in requested && AtOrBelow(e.path, p))
    || (e.kind == Dir && exists p :: p in requested && Below(p, e.path))
  }

  lemma {:induction false} CoverMemberAbove(requested: set<string>, x: string) returns (m: string)
    requires x in requested
    ensures m in Cover(requested) && AtOrBelow(x, m)
    decreases |x|
  {
    if q :| q in requested && Below(x, q) {
      m := CoverMemberAbove(requested, q);
      if q != m { BelowIsTransitive(x, q, m); }
    } else {
      m := x;
    }
  }

  /** Collapsing never drops a member of the cover. */
  lemma {:induction false} CollapseKeepsCover(s: seq<string>, m: string)
    requires m in Cover(Strings(s))
    ensures m in Collapse(s)
  {
    if |s| > 1 {
      var before := s[..|s| - 1];
      if m in before {
        CollapseKeepsCover(before, m);
      } else {
        assert m == s[|s| - 1];
      }
    }
  }

  lemma CoverOfPrefix(s: seq<string>)
    requires Ascending(s) && s != []
    ensures var before := s[..|s| - 1];
            Cover(Strings(before)) == Cover(Strings(s)) - {s[|s| - 1]}
  {
    var before, last := s[..|s| - 1], s[|s| - 1];
    forall p | p in before ensures !Below(p, last) && p != last {
      LessIsStrict(p, last);
      if Below(p, last) { PrefixIsLess(last, p); }
    }
    assert Strings(s) == Strings(before) + {last};
  }

  /** Between a member of a separated cover and something beneath it lies no other member. */
  lemma NothingBetween(cover: set<string>, m: string, y: string, x: string)
    requires Separated(cover) && m in cover && y in cover && !Below(y, m)
    requires Below(x, m) && (Less(y, x) || y == x)
    ensures !Less(m, y)
  {
    if Less(m, y) {
      BetweenDirAndEntry(m, y, x);
    }
  }

  /** What the pass drops from a separated cover is not a member of it, and what it keeps is. */
  lemma DropsExactlyTheCovered(requested: set<string>, c: seq<string>, x: string)
    requires Separated(Cover(requested)) && c != [] && Ascending(c)
    requires Strings(c) == Cover(requested) - {x} && x in requested
    requires Less(c[|c| - 1], x)
    ensures Below(x, c[|c| - 1]) <==> x !in Cover(requested)
  {
    var last := c[|c| - 1];
    assert last in Strings(c);
    if x !in Cover(requested) {
      var m := CoverMemberAbove(requested, x);
      assert m in Strings(c);
      assert m == last || Less(m, last);
      NothingBetween(Cover(requested), m, last, x);
    }
  }

  /** On a separated cover the one pass leaves exactly the cover. */
  lemma {:induction false} CollapseIsCover(s: seq<string>)
    requires Ascending(s) && Separated(Cover(Strings(s)))
    ensures Strings(Collapse(s)) == Cover(Strings(s))
  {
    if |s| > 1 {
      var before, x := s[..|s| - 1], s[|s| - 1];
      CoverOfPrefix(s);
      CollapseIsCover(before);
      CollapseAscends(before);
      var c := Collapse(before);
      assert c[|c| - 1] in c && c[|c| - 1] in before;
      DropsExactlyTheCovered(Strings(s), c, x);
      if Below(x, c[|c| - 1]) {
        assert Cover(Strings(s)) - {x} == Cover(Strings(s));
      } else {
        StringsAppend(c, x);
      }
    }
  }

  lemma StringsAppend(c: seq<string>, x: string)
    ensures Strings(c + [x]) == Strings(c) + {x}
  {
  }

  /** For something beneath a member of a separated cover the single probe finds that member. */
  lemma ProbeFindsTheCoverMember(paths: seq<string>, x: string, m: string, i: int)
    requires Ascending(paths) && Separated(Strings(paths)) && IsPosition(paths, x, i)
    requires m in paths && Below(x, m) && forall p, q | p in paths && q in paths :: !Below(p, q)
    ensures i > 0 && paths[i - 1] == m
  {
    PrefixIsLess(m, x);
    LessIsStrict(m, x);
    var n :| 0 <= n < |paths| && paths[n] == m;
    var y := paths[i - 1];
    assert y in Strings(paths) && m in Strings(paths);
    NothingBetween(Strings(paths), m, y, x);
    assert n < i - 1 ==> Less(m, y);
  }

  lemma {:induction false} PositionExists(paths: seq<string>, x: string) returns (i: int)
    requires Ascending(paths)
    ensures IsPosition(paths, x, i)
  {
    if paths == [] {
      i := 0;
    } else {
      var n := |paths| - 1;
      if Less(paths[n], x) {
        i := n + 1;
        forall j | 0 <= j < n ensures Less(paths[j], x) { LessIsTransitive(paths[j], paths[n], x); }
      } else {
        i := PositionExists(paths[..n], x);
        assert forall j | 0 <= j < n :: paths[..n][j] == paths[j];
      }
    }
  }

  /** With a prefix-free, separated list the probe finds m exactly if x is m or lies below it. */
  lemma FindsMeansAtOrBelow(paths: seq<string>, x: string, m: string)
    requires Ascending(paths) && Separated(Strings(paths))
    requires forall p, q | p in paths && q in paths :: !Below(p, q)
    ensures Finds(paths, x, m) <==> m in paths && AtOrBelow(x, m)
  {
    if m in paths && Below(x, m) {
      assert x !in paths;
      var i := PositionExists(paths, x);
      ProbeFindsTheCoverMember(paths, x, m, i);
    }
  }

  /** `paths` and `dirs` are what newSelection makes of the requested paths. */
  ghost predicate MadeFrom(requested: set<string>, paths: seq<string>, dirs: set<string>) {
    && AreAncestors(paths, dirs)
    && exists s :: Ascending(s) && Strings(s) == requested && paths == Collapse(s)
  }

  lemma MadeFromFacts(requested: set<string>, paths: seq<string>, dirs: set<string>)
    requires MadeFrom(requested, paths, dirs)
    ensures Ascending(paths) && Cover(requested) <= Strings(paths) <= requested
    ensures Separated(Cover(requested)) ==> Strings(paths) == Cover(requested)
  {
    var s :| Ascending(s) && Strings(s) == requested && paths == Collapse(s);
    CollapseAscends(s);
    forall m | m in Cover(requested) ensures m in Strings(paths) { CollapseKeepsCover(s, m); }
    if Separated(Cover(requested)) { CollapseIsCover(s); }
  }

  /** Whatever is accepted was asked for. */
  lemma AcceptedWasAskedFor(requested: set<string>, paths: seq<string>, dirs: set<string>, e: Entry)
    requires MadeFrom(requested, paths, dirs) && Accepts(paths, dirs, e)
    ensures AskedFor(requested, e)
  {
    MadeFromFacts(requested, paths, dirs);
    if m :| Finds(paths, e.path, m) {
      assert m in Strings(paths) && AtOrBelow(e.path, m);
    } else {
      var p :| p in paths && Below(p, e.path);
      assert p in Strings(paths);
    }
  }

  /** With a separated cover everything asked for is accepted. */
  lemma AskedForIsAccepted(requested: set<string>, paths: seq<string>, dirs: set<string>, e: Entry)
    requires MadeFrom(requested, paths, dirs) && Separated(Cover(requested)) && AskedFor(requested, e)
    ensures Accepts(paths, dirs, e)
  {
    MadeFromFacts(requested, paths, dirs);
    var x := e.path;
    assert forall p | p in paths :: p in Strings(paths) && p in Cover(requested);
    if p :| p in requested && AtOrBelow(x, p) {
      var m := CoverMemberAbove(requested, p);
      assert m in Strings(paths);
      if x != p && p != m { BelowIsTransitive(x, p, m); }
      FindsMeansAtOrBelow(paths, x, m);
    } else {
      var p :| p in requested && Below(p, x);
      var m := CoverMemberAbove(requested, p);
      assert m in Strings(paths);
      FindsMeansAtOrBelow(paths, x, m);
      if p != m { AncestorsCompare(p, x, m); }
    }
  }

  // ------------------------------------------- when the cover is not separated

  function Repeat(n: nat): (w: string)
    ensures |w| == n && forall i | 0 <= i < n :: w[i] == 'a'
  {
    seq(n, i => 'a')
  }

  lemma {:induction false} LongerThanAll(paths: seq<string>) returns (n: nat)
    ensures forall p | p in paths :: |p| < n
  {
    n := 0;
    for i := 0 to |paths|
      invariant forall j | 0 <= j < i :: |paths[j]| < n
    {
      if |paths[i]| >= n { n := |paths[i]| + 1; }
    }
  }

  /** The last path before x sorts after q, so it is not p, and x is a direct child of p. */
  lemma PredecessorIsNoAncestor(p: string, q: string, y: string, w: string)
    requires p < q && q[|p|] < '/' && (y == q || Less(q, y)) && !Below(p, y)
    requires '/' !in w
    ensures !Below(p + "/" + w, y)
  {
    var x := p + "/" + w;
    PrefixIsLess(p, q);
    if y != q { LessIsTransitive(p, q, y); }
    LessIsStrict(p, y);
    LessIsStrict(p, p);
    assert Below(x, p);
    if Below(x, y) {
      AncestorsCompare(x, y, p);
      ChildHasNoDeeperAncestor(p, w, y);
    }
  }

  /** A file directly below p that the selection {p, q, ...} misses, although p was asked for. */
  lemma MissedEntry(requested: set<string>, paths: seq<string>, dirs: set<string>, p: string, q: string) returns (e: Entry)
    requires MadeFrom(requested, paths, dirs)
    requires p in Cover(requested) && q in Cover(requested) && p < q && q[|p|] < '/'
    ensures e.kind == File && (exists w :: '/' !in w && w != "" && e.path == p + "/" + w)
    ensures AskedFor(requested, e) && !Accepts(paths, dirs, e)
  {
    MadeFromFacts(requested, paths, dirs);
    var n := LongerThanAll(paths);
    var w := Repeat(n + 1);
    var x := p + "/" + w;
    e := Entry(x, File, 0, 0, 0, 0, ZERO_HASH, "");
    assert AtOrBelow(x, p);
    assert x !in paths;
    assert Below(x, p);
    SiblingBeforeContents(p, q, x);
    forall m ensures !Finds(paths, x, m) {
      if i :| IsPosition(paths, x, i) && i > 0 && m == paths[i - 1] && Below(x, m) {
        QIsBefore(paths, x, i, q);
        assert m in Strings(paths);
        PredecessorIsNoAncestor(p, q, m, w);
      }
    }
  }

  lemma QIsBefore(paths: seq<string>, x: string, i: int, q: string)
    requires Ascending(paths) && IsPosition(paths, x, i) && q in Strings(paths) && Less(q, x)
    ensures i > 0 && (paths[i - 1] == q || Less(q, paths[i - 1]))
  {
    var n :| 0 <= n < |paths| && paths[n] == q;
    assert n < i;
  }

  /** A restore by paths brings along exactly what was asked for, for every possible entry, if and only if
      no path of the cover continues another one with a character that sorts before '/'. */
  lemma SelectionIsExactIffSeparated(requested: set<string>, paths: seq<string>, dirs: set<string>)
    requires MadeFrom(requested, paths, dirs)
    ensures (forall e: Entry :: Accepts(paths, dirs, e) <==> AskedFor(requested, e)) <==> Separated(Cover(requested))
  {
    if Separated(Cover(requested)) {
      forall e: Entry ensures Accepts(paths, dirs, e) <==> AskedFor(requested, e) {
        if Accepts(paths, dirs, e) { AcceptedWasAskedFor(requested, paths, dirs, e); }
        if AskedFor(requested, e) { AskedForIsAccepted(requested, paths, dirs, e); }
      }
    } else {
      var p, q :| p in Cover(requested) && q in Cover(requested) && p < q && q[|p|] < '/';
      var e := MissedEntry(requested, paths, dirs, p, q);
      assert !(Accepts(paths, dirs, e) <==> AskedFor(requested, e));
    }
  }

  /** Under that condition the list is prefix-free and is the cover of the request. */
  lemma SeparatedSelectionIsTheCover(requested: set<string>, paths: seq<string>, dirs: set<string>)
    requires MadeFrom(requested, paths, dirs) && Separated(Cover(requested))
    ensures Strings(paths) == Cover(requested)
    ensures forall p, q | p in paths && q in paths :: !Below(p, q)
  {
    MadeFromFacts(requested, paths, dirs);
    assert forall p | p in paths :: p in Strings(paths);
  }

  /** The entries a selection accepts, in order. */
  ghost function Accepted(paths: seq<string>, dirs: set<string>, entries: seq<Entry>): seq<Entry> {
    if entries == [] then []
    else
      var rest, last := entries[..|entries| - 1], entries[|entries| - 1];
      Accepted(paths, dirs, rest) + if Accepts(paths, dirs, last) then [last] else []
  }

  /** The entries asked for, in order. */
  ghost function AllAskedFor(requested: set<string>, entries: seq<Entry>): seq<Entry> {
    if entries == [] then []
    else
      var rest, last := entries[..|entries| - 1], entries[|entries| - 1];
      AllAskedFor(requested, rest) + if AskedFor(requested, last) then [last] else []
  }

  lemma {:induction false} AcceptedAreAskedFor(requested: set<string>, paths: seq<string>, dirs: set<string>,
                                               entries: seq<Entry>)
    requires forall e: Entry :: Accepts(paths, dirs, e) <==> AskedFor(requested, e)
    ensures Accepted(paths, dirs, entries) == AllAskedFor(requested, entries)
  {
    if entries != [] {
      AcceptedAreAskedFor(requested, paths, dirs, entries[..|entries| - 1]);
    }
  }

  /** Some entry was found under the path. */
  ghost predicate Hit(paths: seq<string>, entries: seq<Entry>, m: string) {
    entries != [] && (Hit(paths, entries[..|entries| - 1], m) || Finds(paths, entries[|entries| - 1].path, m))
  }

  lemma {:induction false} HitMeansFound(paths: seq<string>, entries: seq<Entry>, m: string)
    ensures Hit(paths, entries, m) <==> exists e :: e in entries && Finds(paths, e.path, m)
  {
    if entries != [] {
      var rest, last := entries[..|entries| - 1], entries[|entries| - 1];
      HitMeansFound(paths, rest, m);
      assert entries == rest + [last];
    }
  }

  /** The part of collecting a snapshot's entries that a selection decides. */
  method Collect(sel: Selection, entries: seq<Entry>) returns (out: seq<Entry>)
    requires sel.Valid() && sel.matched == {}
    modifies sel`matched
    ensures out == Accepted(sel.paths, sel.dirs, entries)
    ensures forall m :: m in sel.matched <==> Hit(sel.paths, entries, m)
  {
    out := [];
    for n := 0 to |entries|
      invariant out == Accepted(sel.paths, sel.dirs, entries[..n])
      invariant forall m :: m in sel.matched <==> Hit(sel.paths, entries[..n], m)
    {
      assert entries[..n + 1][..n] == entries[..n];
      var kept := sel.Keep(entries[n]);
      out := out + if kept then [entries[n]] else [];
    }
    assert entries[..|entries|] == entries;
  }

  lemma MatchedMeansAtOrBelow(paths: seq<string>, entries: seq<Entry>, m: string)
    requires Ascending(paths) && Separated(Strings(paths))
    requires forall p, q | p in paths && q in paths :: !Below(p, q)
    ensures Hit(paths, entries, m) <==> m in paths && exists e :: e in entries && AtOrBelow(e.path, m)
  {
    HitMeansFound(paths, entries, m);
    forall x ensures Finds(paths, x, m) <==> m in paths && AtOrBelow(x, m) {
      FindsMeansAtOrBelow(paths, x, m);
    }
  }

  lemma CollectedIsExact(requested: set<string>, paths: seq<string>, dirs: set<string>, entries: seq<Entry>, m: string)
    requires MadeFrom(requested, paths, dirs) && Separated(Cover(requested))
    ensures Accepted(paths, dirs, entries) == AllAskedFor(requested, entries)
    ensures m in paths <==> m in Cover(requested)
    ensures Hit(paths, entries, m) <==> m in Cover(requested) && Holds(entries, m)
  {
    SeparatedSelectionIsTheCover(requested, paths, dirs);
    SelectionIsExactIffSeparated(requested, paths, dirs);
    AcceptedAreAskedFor(requested, paths, dirs, entries);
    MadeFromFacts(requested, paths, dirs);
    MatchedMeansAtOrBelow(paths, entries, m);
    assert m in paths <==> m in Strings(paths);
  }

  /** Some entry of the snapshot is the path or lies below it. */
  ghost predicate Holds(entries: seq<Entry>, p: string) {
    exists e :: e in entries && AtOrBelow(e.path, p)
  }

  /** What a restore takes, and what it reports as not found. If the cover is separated that is what was asked for, and
      the members of the cover that no entry of the snapshot is or lies below. */
  method CollectAndReport(sel: Selection, entries: seq<Entry>, ghost requested: set<string>)
    returns (out: seq<Entry>, missing: seq<string>)
    requires sel.Valid() && sel.matched == {} && MadeFrom(requested, sel.paths, sel.dirs)
    modifies sel`matched
    ensures out == Accepted(sel.paths, sel.dirs, entries)
    ensures forall m :: m in missing <==> m in sel.paths && !Hit(sel.paths, entries, m)
    ensures Separated(Cover(requested)) ==>
              && out == AllAskedFor(requested, entries)
              && forall m :: m in missing <==> m in Cover(requested) && !Holds(entries, m)
  {
    out := Collect(sel, entries);
    missing := sel.Unmatched();
    forall m | Separated(Cover(requested))
      ensures out == AllAskedFor(requested, entries) && (m in missing <==> m in Cover(requested) && !Holds(entries, m))
    {
      CollectedIsExact(requested, sel.paths, sel.dirs, entries, m);
    }
    assert Separated(Cover(requested)) ==> out == AllAskedFor(requested, entries) by {
      if Separated(Cover(requested)) {
        CollectedIsExact(requested, sel.paths, sel.dirs, entries, "");
      }
    }
  }
}
