/** AMP's per-directory exclusion files: reading one, and grouping patterns into them. A file is the list of its lines. */
module AmpExclude {
  import opened Text
  import opened Wrappers

  type Result<T> = Wrappers.Result<T, Error>

  datatype Error = RuleHasSeparator(rule: string) | EmptyAtRoot

  // ------------------------------------------------------------------ reading

  /** The rule a line stands for, anchored at the instance root. */
  function Rule(dir: string, line: string): string {
    if dir == "" then line else dir + "/" + line
  }

  predicate IsRule(line: string) {
    TrimSpace(line) != "" && TrimSpace(line)[0] != '#'
  }

  function Rules(lines: seq<string>, dir: string): seq<string> {
    if lines == [] then []
    else
      var rest, last := lines[..|lines| - 1], lines[|lines| - 1];
      Rules(rest, dir) + if IsRule(last) then [Rule(dir, TrimSpace(last))] else []
  }

  /** One file in one directory; the first rule with a separator is an error, and a file without rules excludes its
      directory. */
  method Parse(lines: seq<string>, rawDir: string) returns (r: Result<seq<string>>)
    ensures var dir := TrimSlashes(rawDir);
            if exists line :: line in lines && IsRule(line) && '/' in TrimSpace(line) then r.Err? && r.error.RuleHasSeparator?
            else if Rules(lines, dir) != [] then r == Ok(Rules(lines, dir))
            else if dir == "" then r == Err(EmptyAtRoot) else r == Ok([dir])
  {
    var dir := TrimSlashes(rawDir);
    var rules := [];
    for n := 0 to |lines|
      invariant rules == Rules(lines[..n], dir)
      invariant forall line | line in lines[..n] :: !(IsRule(line) && '/' in TrimSpace(line))
    {
      assert lines[..n + 1][..n] == lines[..n] && lines[..n + 1] == lines[..n] + [lines[n]];
      var line := TrimSpace(lines[n]);
      if line == "" || line[0] == '#' {
        continue;
      }
      if '/' in line {
        assert lines[n] in lines;
        return Err(RuleHasSeparator(line));
      }
      rules := rules + [if dir == "" then line else dir + "/" + line];
    }
    assert lines[..|lines|] == lines;
    if |rules| == 0 {
      return if dir == "" then Err(EmptyAtRoot) else Ok([dir]);
    }
    r := Ok(rules);
  }

  // ---------------------------------------------------------------- rendering

  predicate HasDoubleStar(p: string) {
    exists i :: 0 <= i < |p| - 1 && p[i] == '*' && p[i + 1] == '*'
  }

  datatype Placing = Dropped | Unsupported | Placed(dir: string, name: string)

  /** Where a pattern goes. */
  function Place(raw: string): Placing {
    var p := TrimSpace(raw);
    if p == "" || p[0] == '#' then Dropped
    else if p[0] == '!' || HasDoubleStar(p) then Unsupported
    else
      var q := WithoutTrailingSlash(p);
      var k := LastSlash(q);
      if q[k + 1..] == "" then Unsupported else Placed(TrimSlashes(q[..k + 1]), q[k + 1..])
  }

  function Files(patterns: seq<string>): map<string, seq<string>> {
    if patterns == [] then map[]
    else
      var files, place := Files(patterns[..|patterns| - 1]), Place(patterns[|patterns| - 1]);
      if place.Placed? then files[place.dir := NamesIn(files, place.dir) + [place.name]] else files
  }

  function NamesIn(files: map<string, seq<string>>, dir: string): seq<string> {
    if dir in files then files[dir] else []
  }

  function LeftOver(patterns: seq<string>): seq<string> {
    if patterns == [] then []
    else
      var rest, last := patterns[..|patterns| - 1], patterns[|patterns| - 1];
      LeftOver(rest) + if Place(last).Unsupported? then [last] else []
  }

  lemma OneMorePattern(patterns: seq<string>, n: nat)
    requires n < |patterns|
    ensures var files, place := Files(patterns[..n]), Place(patterns[n]);
            && Files(patterns[..n + 1]) ==
               (if place.Placed? then files[place.dir := NamesIn(files, place.dir) + [place.name]] else files)
            && LeftOver(patterns[..n + 1]) == LeftOver(patterns[..n]) + if place.Unsupported? then [patterns[n]] else []
  {
    assert patterns[..n + 1][..n] == patterns[..n];
  }

  method DoubleStar(p: string) returns (found: bool)
    ensures found <==> HasDoubleStar(p)
  {
    var i := 0;
    while i + 1 < |p|
      invariant forall j | 0 <= j < i && j + 1 < |p| :: !(p[j] == '*' && p[j + 1] == '*')
    {
      if p[i] == '*' && p[i + 1] == '*' {
        return true;
      }
      i := i + 1;
    }
    found := false;
  }

  /** Each pattern goes into the file of the directory that its last segment lies in. */
  method Render(patterns: seq<string>) returns (files: map<string, seq<string>>, unsupported: seq<string>)
    ensures files == Files(patterns) && unsupported == LeftOver(patterns)
  {
    files, unsupported := map[], [];
    for n := 0 to |patterns|
      invariant files == Files(patterns[..n]) && unsupported == LeftOver(patterns[..n])
    {
      OneMorePattern(patterns, n);
      var raw := patterns[n];
      var p := TrimSpace(raw);
      if p != "" && p[0] != '#' {
        var double := DoubleStar(p);
        var q := WithoutTrailingSlash(p);
        var dir, name := TrimSlashes(q[..LastSlash(q) + 1]), q[LastSlash(q) + 1..];
        if p[0] == '!' || double || name == "" {
          unsupported := unsupported + [raw];
        } else {
          files := files[dir := (if dir in files then files[dir] else []) + [name]];
        }
      }
    }
    assert patterns[..|patterns|] == patterns;
  }

  // ------------------------------------------------------------- there and back

  /** What AMP's files can hold as it is. */
  predicate Expressible(p: string) {
    && p != "" && Trimmed(p) && p[0] != '#' && p[0] != '!' && p[0] != '/'
    && !HasDoubleStar(p) && p[|p| - 1] != '/'
    && var k := LastSlash(p);
       (k > 0 ==> p[k - 1] != '/') && p[k + 1] != '#' && !IsSpace(p[k + 1])
  }

  function DirOf(p: string): string {
    if LastSlash(p) < 0 then "" else p[..LastSlash(p)]
  }

  function NameOf(p: string): string {
    p[LastSlash(p) + 1..]
  }

  /** Rendered alone and read back, the pattern is the one rule of its file. */
  predicate ComesBack(p: string) {
    var place := Place(p);
    place.Placed? && IsRule(place.name) && Rule(TrimSlashes(place.dir), TrimSpace(place.name)) == p
  }

  lemma {:induction false} TrimSpaceIsShorter(s: string)
    ensures |TrimSpace(s)| <= |s| && (|TrimSpace(s)| == |s| ==> TrimSpace(s) == s)
  {
    TrimLeftIsShorter(s);
    TrimRightIsShorter(TrimLeft(s));
  }

  lemma {:induction false} TrimLeftIsShorter(s: string)
    ensures |TrimLeft(s)| <= |s| && (|TrimLeft(s)| == |s| ==> TrimLeft(s) == s)
    ensures TrimLeft(s) != "" ==> !IsSpace(TrimLeft(s)[0])
  {
    if s != "" && IsSpace(s[0]) {
      TrimLeftIsShorter(s[1..]);
    }
  }

  lemma {:induction false} TrimRightIsShorter(s: string)
    ensures |TrimRight(s)| <= |s| && (|TrimRight(s)| == |s| ==> TrimRight(s) == s)
    ensures TrimRight(s) != "" ==> !IsSpace(TrimRight(s)[|TrimRight(s)| - 1])
  {
    if s != "" && IsSpace(s[|s| - 1]) {
      TrimRightIsShorter(s[..|s| - 1]);
    }
  }

  lemma {:induction false} TrimSlashesIsShorter(s: string)
    ensures |TrimSlashes(s)| <= |s| && (|TrimSlashes(s)| == |s| ==> TrimSlashes(s) == s)
    ensures s != "" && (s[0] == '/' || s[|s| - 1] == '/') ==> |TrimSlashes(s)| < |s|
  {
    if s != "" && s[0] == '/' {
      TrimSlashesIsShorter(s[1..]);
    } else if s != "" && s[|s| - 1] == '/' {
      TrimSlashesIsShorter(s[..|s| - 1]);
    }
  }

  /** A directory with its slash: trimming takes away the slash alone exactly if there is no other at an edge. */
  lemma TrimTheSlash(p: string, k: nat)
    requires k < |p| && p[k] == '/'
    ensures k > 0 && p[0] != '/' && p[k - 1] != '/' ==> TrimSlashes(p[..k + 1]) == p[..k]
    ensures |TrimSlashes(p[..k + 1])| <= k
    ensures k > 0 && |TrimSlashes(p[..k + 1])| == k ==> p[0] != '/' && p[k - 1] != '/'
  {
    var x := p[..k + 1];
    assert x[..k] == p[..k];
    TrimSlashesIsShorter(x[1..]);
    TrimSlashesIsShorter(x[..k]);
  }

  lemma DirAndName(p: string)
    ensures Rule(DirOf(p), NameOf(p)) == p || (p != "" && p[0] == '/')
    ensures '/' !in NameOf(p)
  {
    var k := LastSlash(p);
    LastSlashIsLast(p);
    if k > 0 {
      assert p == p[..k] + "/" + p[k + 1..];
    } else if k < 0 {
      assert p[k + 1..] == p;
    }
  }

  lemma DirIsTrimmed(p: string)
    requires Expressible(p)
    ensures TrimSlashes(p[..LastSlash(p) + 1]) == DirOf(p) == TrimSlashes(DirOf(p))
  {
    var k := LastSlash(p);
    LastSlashIsLast(p);
    if k >= 0 {
      TrimTheSlash(p, k);
    }
  }

  lemma NameIsRule(p: string)
    requires Expressible(p)
    ensures IsRule(NameOf(p)) && TrimSpace(NameOf(p)) == NameOf(p)
  {
    TrimmedIsTrimSpace(NameOf(p));
  }

  lemma ExpressibleIsPlaced(p: string)
    requires Expressible(p)
    ensures Place(p) == Placed(DirOf(p), NameOf(p))
    ensures IsRule(NameOf(p)) && TrimSpace(NameOf(p)) == NameOf(p) && '/' !in NameOf(p)
    ensures TrimSlashes(DirOf(p)) == DirOf(p) && Rule(DirOf(p), NameOf(p)) == p
  {
    TrimmedIsTrimSpace(p);
    DirAndName(p);
    DirIsTrimmed(p);
    NameIsRule(p);
  }

  lemma RuleIsNoLonger(dir: string, name: string, d: string, n: string)
    requires |d| <= |dir| && |n| <= |name|
    ensures |Rule(d, n)| <= |Rule(dir, name)|
    ensures |Rule(d, n)| == |Rule(dir, name)| ==> |d| == |dir| && |n| == |name|
  {
  }

  /** Place splits without adding anything. */
  lemma SplitLength(q: string)
    ensures var dir, name := TrimSlashes(q[..LastSlash(q) + 1]), q[LastSlash(q) + 1..];
            && |Rule(dir, name)| <= |q|
            && (|Rule(dir, name)| == |q| ==>
                  LastSlash(q) < 0 || (LastSlash(q) > 0 && q[0] != '/' && q[LastSlash(q) - 1] != '/'))
  {
    var k := LastSlash(q);
    LastSlashIsLast(q);
    if k >= 0 {
      TrimTheSlash(q, k);
    }
  }

  lemma ComingBackLosesNothing(p: string)
    requires ComesBack(p)
    ensures var q := WithoutTrailingSlash(TrimSpace(p));
            var dir, name := TrimSlashes(q[..LastSlash(q) + 1]), q[LastSlash(q) + 1..];
            && q == TrimSpace(p) == p && |Rule(dir, name)| == |q| && TrimSpace(name) == name
  {
    var q := WithoutTrailingSlash(TrimSpace(p));
    var dir, name := TrimSlashes(q[..LastSlash(q) + 1]), q[LastSlash(q) + 1..];
    TrimSpaceIsShorter(p);
    TrimSpaceIsShorter(name);
    TrimSlashesIsShorter(dir);
    RuleIsNoLonger(dir, name, TrimSlashes(dir), TrimSpace(name));
    SplitLength(q);
  }

  lemma {:induction false} TrimSpaceTrims(s: string)
    ensures TrimSpace(s) == s ==> Trimmed(s)
  {
    TrimLeftIsShorter(s);
    TrimRightIsShorter(TrimLeft(s));
  }

  lemma NoLeadingSlash(p: string)
    requires p != "" && (LastSlash(p) > 0 ==> p[0] != '/') && LastSlash(p) != 0
    ensures p[0] != '/'
  {
    LastSlashIsLast(p);
  }

  lemma OnlyExpressibleComesBack(p: string)
    requires ComesBack(p)
    ensures Expressible(p)
  {
    ComingBackLosesNothing(p);
    SplitLength(p);
    NoLeadingSlash(p);
    TrimSpaceTrims(p);
    TrimSpaceTrims(NameOf(p));
  }

  /** The exact patterns that survive being rendered and read back. */
  lemma ComesBackIffExpressible(p: string)
    ensures ComesBack(p) <==> Expressible(p)
  {
    if Expressible(p) {
      ExpressibleIsPlaced(p);
    }
    if ComesBack(p) {
      OnlyExpressibleComesBack(p);
    }
  }

  /** The names rendered into one directory's file, as rules again. */
  function Back(patterns: seq<string>, dir: string): seq<string> {
    if patterns == [] then []
    else
      var rest, last := patterns[..|patterns| - 1], patterns[|patterns| - 1];
      if DirOf(last) == dir then Back(rest, dir) + [last] else Back(rest, dir)
  }

  /** What one more pattern does to one directory's file. */
  lemma OnePatternMore(patterns: seq<string>, dir: string)
    requires patterns != [] && Expressible(patterns[|patterns| - 1])
    ensures var rest, last := patterns[..|patterns| - 1], patterns[|patterns| - 1];
            var before, after := Files(rest), Files(patterns);
            && (dir in after <==> dir in before || DirOf(last) == dir)
            && NamesIn(after, dir) ==
               if DirOf(last) == dir then NamesIn(before, dir) + [NameOf(last)] else NamesIn(before, dir)
  {
    ExpressibleIsPlaced(patterns[|patterns| - 1]);
  }

  lemma {:induction false} NothingLeftOver(patterns: seq<string>)
    requires forall p | p in patterns :: Expressible(p)
    ensures LeftOver(patterns) == []
  {
    if patterns != [] {
      NothingLeftOver(patterns[..|patterns| - 1]);
      ExpressibleIsPlaced(patterns[|patterns| - 1]);
    }
  }

  /** The names of one file, all of them rules as they stand, and what they are read back as. */
  ghost predicate Reads(names: seq<string>, dir: string, back: seq<string>) {
    && (forall n | n in names :: IsRule(n) && TrimSpace(n) == n && '/' !in n)
    && (names != [] ==> TrimSlashes(dir) == dir) && Rules(names, dir) == back && |back| == |names|
  }

  lemma ReadsOneMore(names: seq<string>, dir: string, back: seq<string>, p: string)
    requires Reads(names, dir, back) && Expressible(p) && DirOf(p) == dir
    ensures Reads(names + [NameOf(p)], dir, back + [p])
  {
    ExpressibleIsPlaced(p);
  }

  lemma {:induction false} FilesHoldThePatterns(patterns: seq<string>, dir: string)
    requires forall p | p in patterns :: Expressible(p)
    ensures dir in Files(patterns) <==> Back(patterns, dir) != []
    ensures Reads(NamesIn(Files(patterns), dir), dir, Back(patterns, dir))
  {
    if patterns != [] {
      var rest, last := patterns[..|patterns| - 1], patterns[|patterns| - 1];
      FilesHoldThePatterns(rest, dir);
      OnePatternMore(patterns, dir);
      if DirOf(last) == dir {
        ReadsOneMore(NamesIn(Files(rest), dir), dir, Back(rest, dir), last);
      }
    }
  }

  lemma {:induction false} BackByCount(patterns: seq<string>, dir: string, p: string)
    ensures multiset(Back(patterns, dir))[p] == if DirOf(p) == dir then multiset(patterns)[p] else 0
  {
    if patterns != [] {
      var rest, last := patterns[..|patterns| - 1], patterns[|patterns| - 1];
      BackByCount(rest, dir, p);
      assert patterns == rest + [last];
    }
  }

  /** Patterns of the directories looked at are there as often as they were, others are not. */
  ghost predicate Regained(patterns: seq<string>, dirs: set<string>, all: seq<string>) {
    forall p :: multiset(all)[p] == if DirOf(p) in dirs then multiset(patterns)[p] else 0
  }

  lemma OneFileMore(patterns: seq<string>, dirs: set<string>, dir: string, all: seq<string>)
    requires Regained(patterns, dirs, all) && dir !in dirs
    ensures Regained(patterns, dirs + {dir}, all + Back(patterns, dir))
  {
    forall p ensures multiset(all + Back(patterns, dir))[p] ==
                     if DirOf(p) in dirs + {dir} then multiset(patterns)[p] else 0
    {
      BackByCount(patterns, dir, p);
    }
  }

  lemma NothingLeft(patterns: seq<string>, all: seq<string>)
    requires (forall p | p in patterns :: Expressible(p)) && Regained(patterns, Files(patterns).Keys, all)
    ensures multiset(all) == multiset(patterns)
  {
    forall p ensures multiset(all)[p] == multiset(patterns)[p] {
      FilesHoldThePatterns(patterns, DirOf(p));
      BackByCount(patterns, DirOf(p), p);
    }
  }

  lemma FileReadsBack(patterns: seq<string>, dir: string, r: Result<seq<string>>)
    requires (forall p | p in patterns :: Expressible(p)) && dir in Files(patterns)
    requires var lines, d := Files(patterns)[dir], TrimSlashes(dir);
             if exists line :: line in lines && IsRule(line) && '/' in TrimSpace(line) then r.Err?
             else if Rules(lines, d) != [] then r == Ok(Rules(lines, d)) else true
    ensures r == Ok(Back(patterns, dir))
  {
    FilesHoldThePatterns(patterns, dir);
  }

  /** Rendering the patterns into files and reading every file gives the same patterns, each as often as before. */
  method ThereAndBack(patterns: seq<string>) returns (all: seq<string>)
    requires forall p | p in patterns :: Expressible(p)
    ensures multiset(all) == multiset(patterns)
  {
    var files, unsupported := Render(patterns);
    NothingLeftOver(patterns);
    assert unsupported == [];
    all := [];
    var left := files.Keys;
    ghost var done: set<string> := {};
    while left != {}
      invariant left !! done && left + done == files.Keys && Regained(patterns, done, all)
      decreases |left|
    {
      var dir :| dir in left;
      var r := Parse(files[dir], dir);
      FileReadsBack(patterns, dir, r);
      OneFileMore(patterns, done, dir, all);
      all := all + r.value;
      left, done := left - {dir}, done + {dir};
    }
    NothingLeft(patterns, all);
  }
}
