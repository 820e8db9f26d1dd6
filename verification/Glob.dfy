/** Exclusion patterns: the compiler from globs to regular expressions, what a glob means, and sets of rules. */
module Glob {
  import opened Text
  import opened Wrappers

  // ---------------------------------------------------- regular expressions

  /** A set of characters: `.`, `[^/]`, one literal character, or a class with this body. */
  datatype Chars = Dot | NotSlash | Only(c: char) | Class(body: string)

  /** One piece of a regular expression: one character, a starred character set, or an optional group. */
  datatype Node = One(chars: Chars) | Many(chars: Chars) | Maybe(group: seq<Node>)

  /** An anchored regular expression. */
  type Regex = seq<Node>

  /** `(?:.*\/)?` and `(?:\/.*)?` */
  const ANY_DIRS: Node := Maybe([Many(Dot), One(Only('/'))])
  const BELOW: Node := Maybe([One(Only('/')), Many(Dot)])

  /** The characters and ranges of a class, after the sign. */
  predicate InRanges(items: string, c: char) {
    items != "" &&
    if |items| >= 3 && items[1] == '-' then items[0] <= c <= items[2] || InRanges(items[3..], c)
    else c == items[0] || InRanges(items[1..], c)
  }

  predicate HasInvertedRange(items: string) {
    items != "" &&
    if |items| >= 3 && items[1] == '-' then items[2] < items[0] || HasInvertedRange(items[3..])
    else HasInvertedRange(items[1..])
  }

  predicate Has(chars: Chars, c: char) {
    match chars
    case Dot => c != '\n'
    case NotSlash => c != '/'
    case Only(x) => c == x
    case Class(body) => if body != "" && body[0] == '^' then !InRanges(body[1..], c) else InRanges(body, c)
  }

  predicate MatchesNode(n: Node, s: string)
    decreases n, 0
  {
    match n
    case One(chars) => |s| == 1 && Has(chars, s[0])
    case Many(chars) => forall i | 0 <= i < |s| :: Has(chars, s[i])
    case Maybe(group) => s == "" || Matches(group, s)
  }

  /** The whole of s matches the pieces one after the other. */
  predicate Matches(re: Regex, s: string)
    decreases re, 1
  {
    if re == [] then s == ""
    else exists k :: 0 <= k <= |s| && MatchesNode(re[0], s[..k]) && Matches(re[1..], s[k..])
  }

  // ------------------------------------------------------------ the compiler

  datatype GlobError =
    | EmptyPattern | UnclosedClass | EmptyClass | SlashInClass | DanglingEscape | EscapedSlash | BadClass
    | NegatesNothing

  type Result<T> = Wrappers.Result<T, GlobError>

  /** The position of the first ']' from i on, or |g|. */
  function ClassEnd(g: string, i: nat): (end: nat)
    requires i <= |g|
    ensures i <= end <= |g| && (end < |g| ==> g[end] == ']')
    ensures forall k | i <= k < end :: g[k] != ']'
    decreases |g| - i
  {
    if i == |g| || g[i] == ']' then i else ClassEnd(g, i + 1)
  }

  /** The body as it is written into the regular expression. */
  function ClassBody(body: string): string {
    if body != "" && body[0] == '!' then "^" + body[1..] else body
  }

  function ClassItems(body: string): string {
    if body != "" && body[0] in {'!', '^'} then body[1..] else body
  }

  /** A class body that Go's regexp accepts and reads as plain characters and ranges. It rejects an inverted
      range; a body that is empty after its sign, or holds '[' or a backslash, has a syntax of its own and is
      not modelled. */
  predicate PlainClass(body: string) {
    && ClassItems(body) != "" && '[' !in body && '\\' !in body && !HasInvertedRange(ClassItems(body))
  }

  predicate HasPlainClass(n: Node) {
    n.One? && n.chars.Class? ==> PlainClass(n.chars.body)
  }

  function Cons(n: Node, rest: Result<Regex>): Result<Regex> {
    match rest
    case Ok(re) => Ok([n] + re)
    case Err(e) => Err(e)
  }

  /** What one element of a glob turns into, and how long the element is. */
  function Element(g: string): (r: Result<(Node, nat)>)
    requires g != ""
    ensures r.Ok? ==> 1 <= r.value.1 <= |g|
  {
    match g[0]
    case '*' =>
      if |g| > 1 && g[1] == '*' then
        if |g| > 2 && g[2] == '/' then Ok((ANY_DIRS, 3)) else Ok((Many(Dot), 2))
      else
        Ok((Many(NotSlash), 1))
    case '?' => Ok((One(NotSlash), 1))
    case '[' =>
      var end := ClassEnd(g, 1);
      if end == |g| then Err(UnclosedClass)
      else if end == 1 then Err(EmptyClass)
      else if '/' in g[1..end] then Err(SlashInClass)
      else Ok((One(Class(ClassBody(g[1..end]))), end + 1))
    case '\\' =>
      if |g| == 1 then Err(DanglingEscape)
      else if g[1] == '/' then Err(EscapedSlash)
      else Ok((One(Only(g[1])), 2))
    case c => Ok((One(Only(c)), 1))
  }

  function Nodes(g: string): Result<Regex>
    decreases |g|
  {
    if g == "" then Ok([])
    else
      match Element(g)
      case Err(e) => Err(e)
      case Ok(el) => Cons(el.0, Nodes(g[el.1..]))
  }

  /** The whole regular expression for a glob. */
  function Compiled(glob: string): Result<Regex> {
    var g := WithoutTrailingSlash(glob);
    if g == "" then Err(EmptyPattern)
    else
      match Nodes(g)
      case Err(e) => Err(e)
      case Ok(re) =>
        if exists n :: n in re && !HasPlainClass(n) then Err(BadClass)
        else Ok((if '/' in g then [] else [ANY_DIRS]) + re + [BELOW])
  }

  /** Walks over the glob once and writes the regular expression. */
  method CompileGlob(glob: string) returns (r: Result<Regex>)
    ensures r == Compiled(glob)
  {
    var g := WithoutTrailingSlash(glob);
    if g == "" {
      return Err(EmptyPattern);
    }
    var b: Regex := [];
    if '/' !in g {
      b := b + [ANY_DIRS];
    }
    ghost var start := b;
    var written := WriteNodes(g, b);
    if written.Err? {
      return written;
    }
    b := written.value;
    var plain := AllPlain(b);
    assert start == if '/' in g then [] else [ANY_DIRS];
    if !plain {
      return Err(BadClass);
    }
    r := Ok(b + [BELOW]);
  }

  function Prepend(start: Regex, r: Result<Regex>): Result<Regex> {
    match r
    case Err(e) => Err(e)
    case Ok(rest) => Ok(start + rest)
  }

  lemma PrependMore(start: Regex, n: Node, r: Result<Regex>)
    ensures Prepend(start + [n], r) == Prepend(start, Cons(n, r))
  {
    if r.Ok? {
      assert start + [n] + r.value == start + ([n] + r.value);
    }
  }

  lemma PrependNothing(start: Regex, r: Result<Regex>)
    ensures Prepend([], r) == r && Prepend(start, Ok([])) == Ok(start)
  {
    if r.Ok? {
      assert [] + r.value == r.value;
    }
    assert start + [] == start;
  }

  /** What the pieces from a position on come to, in terms of what those from the next piece on come to. */
  ghost predicate ReadsOn(g: string, i: nat, from: seq<Result<Regex>>)
    requires i < |g| && |from| == |g| + 1
  {
    match Element(g[i..])
    case Err(e) => from[i] == Err(e)
    case Ok((n, length)) => from[i] == Cons(n, from[i + length])
  }

  lemma NodesFrom(g: string) returns (from: seq<Result<Regex>>)
    ensures |from| == |g| + 1 && from[0] == Nodes(g) && from[|g|] == Ok([])
    ensures forall i | 0 <= i < |g| :: ReadsOn(g, i, from)
  {
    from := seq(|g| + 1, i requires 0 <= i <= |g| => Nodes(g[i..]));
    assert g[0..] == g;
    forall i | 0 <= i < |g| ensures ReadsOn(g, i, from) {
      var el := Element(g[i..]);
      if el.Ok? {
        assert g[i..][el.value.1..] == g[i + el.value.1..];
      }
    }
  }

  method WriteNodes(g: string, start: Regex) returns (r: Result<Regex>)
    ensures r == Prepend(start, Nodes(g))
  {
    var b, i := start, 0;
    ghost var from := NodesFrom(g);
    while i < |g|
      invariant i <= |g| && Prepend(start, from[0]) == Prepend(b, from[i])
    {
      assert ReadsOn(g, i, from);
      var el := Element(g[i..]);
      if el.Err? {
        return Err(el.error);
      }
      var (n, length) := el.value;
      PrependMore(b, n, from[i + length]);
      b, i := b + [n], i + length;
    }
    PrependNothing(b, Ok([]));
    r := Ok(b);
  }

  /** What regexp.Compile makes of the classes. */
  method AllPlain(b: Regex) returns (plain: bool)
    ensures plain <==> forall n | n in b :: HasPlainClass(n)
  {
    plain := true;
    for k := 0 to |b|
      invariant plain <==> forall n | n in b[..k] :: HasPlainClass(n)
    {
      assert b[..k + 1] == b[..k] + [b[k]];
      plain := plain && HasPlainClass(b[k]);
    }
    assert b[..|b|] == b;
  }

  // ------------------------------------------------------- what a glob means

  /** The direct meaning of a glob that is anchored at both ends, except that everything beneath what it names
      is meant too. */
  ghost predicate Means(g: string, p: string)
    decreases |g|, |p|
  {
    if g == "" then p == "" || p[0] == '/'
    else if "**/" <= g then Means(g[3..], p) || exists i :: 0 <= i < |p| && p[i] == '/' && Means(g[3..], p[i + 1..])
    else if "**" <= g then Means(g[2..], p) || (p != "" && Means(g, p[1..]))
    else if g[0] == '*' then Means(g[1..], p) || (p != "" && p[0] != '/' && Means(g, p[1..]))
    else if g[0] == '?' then p != "" && p[0] != '/' && Means(g[1..], p[1..])
    else if g[0] == '[' then
      var end := ClassEnd(g, 1);
      && end < |g| && p != "" && Means(g[end + 1..], p[1..])
      && if g[1] in {'!', '^'} then !InRanges(g[2..end], p[0]) else InRanges(g[1..end], p[0])
    else if g[0] == '\\' then |g| > 1 && p != "" && p[0] == g[1] && Means(g[2..], p[1..])
    else p != "" && p[0] == g[0] && Means(g[1..], p[1..])
  }

  /** A glob with a slash is anchored at the root; one without may start after any slash. */
  ghost predicate Selects(glob: string, p: string) {
    var g := WithoutTrailingSlash(glob);
    Means(g, p) || ('/' !in g && exists i :: 0 <= i < |p| && p[i] == '/' && Means(g, p[i + 1..]))
  }

  // -------------------------------------------------- one piece at a time

  lemma OneThenRest(c: Chars, rest: Regex, s: string)
    ensures Matches([One(c)] + rest, s) <==> s != "" && Has(c, s[0]) && Matches(rest, s[1..])
  {
    var re := [One(c)] + rest;
    assert re[1..] == rest;
    if s != "" && Has(c, s[0]) && Matches(rest, s[1..]) {
      assert MatchesNode(re[0], s[..1]);
    }
    if Matches(re, s) {
      var k :| 0 <= k <= |s| && MatchesNode(re[0], s[..k]) && Matches(re[1..], s[k..]);
      assert k == 1;
    }
  }

  lemma ManyHoldsOneMore(c: Chars, s: string, k: nat)
    requires s != "" && k < |s| && Has(c, s[0]) && MatchesNode(Many(c), s[1..][..k])
    ensures MatchesNode(Many(c), s[..k + 1]) && s[1..][k..] == s[k + 1..]
  {
    var taken := s[..k + 1];
    forall i | 0 <= i < |taken| ensures Has(c, taken[i]) {
      assert i > 0 ==> s[1..][..k][i - 1] == taken[i];
    }
  }

  lemma ManyTakesOneMore(c: Chars, rest: Regex, s: string)
    requires s != "" && Has(c, s[0]) && Matches([Many(c)] + rest, s[1..])
    ensures Matches([Many(c)] + rest, s)
  {
    var re := [Many(c)] + rest;
    assert re[0] == Many(c) && re[1..] == rest;
    var k :| 0 <= k <= |s[1..]| && MatchesNode(re[0], s[1..][..k]) && Matches(re[1..], s[1..][k..]);
    ManyHoldsOneMore(c, s, k);
    assert MatchesNode(re[0], s[..k + 1]) && Matches(re[1..], s[k + 1..]);
  }

  lemma ManyTookOneOrMore(c: Chars, rest: Regex, s: string, k: nat)
    requires 0 < k <= |s| && MatchesNode(Many(c), s[..k]) && Matches(rest, s[k..])
    ensures Has(c, s[0]) && Matches([Many(c)] + rest, s[1..])
  {
    var re, tail := [Many(c)] + rest, s[1..];
    assert re[0] == Many(c) && re[1..] == rest;
    assert s[..k][1..] == tail[..k - 1] && tail[k - 1..] == s[k..];
  }

  lemma ManyTookOne(c: Chars, rest: Regex, s: string)
    requires Matches([Many(c)] + rest, s)
    ensures Matches(rest, s) || (s != "" && Has(c, s[0]) && Matches([Many(c)] + rest, s[1..]))
  {
    var re := [Many(c)] + rest;
    assert re[0] == Many(c) && re[1..] == rest;
    var k :| 0 <= k <= |s| && MatchesNode(re[0], s[..k]) && Matches(re[1..], s[k..]);
    if k == 0 {
      assert s[0..] == s;
    } else {
      ManyTookOneOrMore(c, rest, s, k);
    }
  }

  lemma ManyTakesNothing(c: Chars, rest: Regex, s: string)
    requires Matches(rest, s)
    ensures Matches([Many(c)] + rest, s)
  {
    var re := [Many(c)] + rest;
    assert re[1..] == rest && s[0..] == s;
    assert MatchesNode(re[0], s[..0]);
  }

  lemma ManyThenRest(c: Chars, rest: Regex, s: string)
    ensures Matches([Many(c)] + rest, s) <==>
            Matches(rest, s) || (s != "" && Has(c, s[0]) && Matches([Many(c)] + rest, s[1..]))
  {
    if Matches([Many(c)] + rest, s) {
      ManyTookOne(c, rest, s);
    }
    if Matches(rest, s) {
      ManyTakesNothing(c, rest, s);
    }
    if s != "" && Has(c, s[0]) && Matches([Many(c)] + rest, s[1..]) {
      ManyTakesOneMore(c, rest, s);
    }
  }

  predicate OneLine(s: string) {
    '\n' !in s
  }

  lemma {:induction false} DirsMatch(s: string)
    ensures Matches([Many(Dot), One(Only('/'))], s) <==> s != "" && s[|s| - 1] == '/' && OneLine(s)
    decreases |s|
  {
    var slash := [One(Only('/'))];
    ManyThenRest(Dot, slash, s);
    OneThenRest(Only('/'), [], s);
    assert [Many(Dot)] + slash == [Many(Dot), One(Only('/'))] && slash + [] == slash;
    if s != "" {
      DirsMatch(s[1..]);
      assert s == [s[0]] + s[1..];
    }
  }

  lemma AnyDirsNode(s: string)
    requires OneLine(s)
    ensures MatchesNode(ANY_DIRS, s) <==> s == "" || s[|s| - 1] == '/'
  {
    DirsMatch(s);
  }

  /** The rest matches what comes after some slash. */
  predicate AfterASlash(rest: Regex, s: string, i: int) {
    0 <= i < |s| && s[i] == '/' && Matches(rest, s[i + 1..])
  }

  lemma AnyDirsTaken(rest: Regex, s: string, k: nat)
    requires OneLine(s) && k <= |s| && MatchesNode(ANY_DIRS, s[..k]) && Matches(rest, s[k..])
    ensures Matches(rest, s) || AfterASlash(rest, s, k - 1)
  {
    AnyDirsNode(s[..k]);
    if k == 0 {
      assert s[0..] == s;
    }
  }

  lemma TakeAnyDirs(rest: Regex, s: string, k: nat)
    requires OneLine(s) && k <= |s| && Matches(rest, s[k..]) && (k == 0 || s[k - 1] == '/')
    ensures Matches([ANY_DIRS] + rest, s)
  {
    var re := [ANY_DIRS] + rest;
    assert re[0] == ANY_DIRS && re[1..] == rest;
    AnyDirsNode(s[..k]);
    assert MatchesNode(re[0], s[..k]) && Matches(re[1..], s[k..]);
  }

  lemma AnyDirsWereTaken(rest: Regex, s: string)
    requires OneLine(s) && Matches([ANY_DIRS] + rest, s)
    ensures Matches(rest, s) || exists i :: AfterASlash(rest, s, i)
  {
    var re := [ANY_DIRS] + rest;
    assert re[0] == ANY_DIRS && re[1..] == rest;
    var k :| 0 <= k <= |s| && MatchesNode(re[0], s[..k]) && Matches(re[1..], s[k..]);
    AnyDirsTaken(rest, s, k);
  }

  lemma AnyDirsOrASlash(rest: Regex, s: string)
    requires OneLine(s)
    ensures Matches([ANY_DIRS] + rest, s) <==> Matches(rest, s) || exists i :: AfterASlash(rest, s, i)
  {
    if Matches([ANY_DIRS] + rest, s) {
      AnyDirsWereTaken(rest, s);
    } else if Matches(rest, s) {
      assert s[0..] == s;
      TakeAnyDirs(rest, s, 0);
    } else if i :| AfterASlash(rest, s, i) {
      TakeAnyDirs(rest, s, i + 1);
    }
  }

  lemma AnyDirsThenRest(rest: Regex, s: string)
    requires OneLine(s)
    ensures Matches([ANY_DIRS] + rest, s) <==>
            Matches(rest, s) || exists i :: 0 <= i < |s| && s[i] == '/' && Matches(rest, s[i + 1..])
  {
    AnyDirsOrASlash(rest, s);
    if i :| 0 <= i < |s| && s[i] == '/' && Matches(rest, s[i + 1..]) {
      assert AfterASlash(rest, s, i);
    }
  }

  lemma {:induction false} ManyDotsMatch(s: string)
    ensures Matches([Many(Dot)], s) <==> OneLine(s)
    decreases |s|
  {
    ManyThenRest(Dot, [], s);
    assert [Many(Dot)] + [] == [Many(Dot)];
    if s != "" {
      ManyDotsMatch(s[1..]);
      assert s == [s[0]] + s[1..];
    }
  }

  lemma BelowMatches(s: string)
    requires OneLine(s)
    ensures Matches([BELOW], s) <==> s == "" || s[0] == '/'
  {
    var group := [One(Only('/')), Many(Dot)];
    OneThenRest(Only('/'), [Many(Dot)], s);
    assert [One(Only('/'))] + [Many(Dot)] == group;
    if s != "" {
      ManyDotsMatch(s[1..]);
    }
    var re := [BELOW];
    assert re[1..] == [];
    if Matches(re, s) {
      var k :| 0 <= k <= |s| && MatchesNode(re[0], s[..k]) && Matches(re[1..], s[k..]);
      assert s[..k] == s;
    }
    if s == "" || s[0] == '/' {
      assert s[..|s|] == s;
      assert MatchesNode(re[0], s[..|s|]) && Matches(re[1..], s[|s|..]);
    }
  }

  // --------------------------------------------- the translation keeps meaning

  /** `rest` matches what `tail` means, on everything no longer than p. */
  ghost predicate Translates(rest: Regex, tail: string, p: string) {
    forall q | |q| <= |p| && OneLine(q) :: Matches(rest, q) <==> Means(tail, q)
  }

  lemma DirsMean(g: string, p: string, rest: Regex)
    requires "**/" <= g && OneLine(p) && Translates(rest, g[3..], p)
    ensures Matches([ANY_DIRS] + rest, p) <==> Means(g, p)
  {
    AnyDirsThenRest(rest, p);
  }

  lemma ClassHas(body: string, c: char)
    requires body != ""
    ensures Has(Class(ClassBody(body)), c) <==>
            if body[0] in {'!', '^'} then !InRanges(body[1..], c) else InRanges(body, c)
  {
    if body[0] == '!' {
      assert ClassBody(body)[1..] == body[1..];
    }
  }

  lemma ClassMeans(g: string, p: string, rest: Regex, end: nat)
    requires g != "" && g[0] == '[' && end == ClassEnd(g, 1) && 1 < end < |g|
    requires OneLine(p) && Translates(rest, g[end + 1..], p)
    ensures Matches([One(Class(ClassBody(g[1..end])))] + rest, p) <==> Means(g, p)
  {
    var body := g[1..end];
    OneThenRest(Class(ClassBody(body)), rest, p);
    assert body[0] == g[1] && body[1..] == g[2..end];
    if p != "" {
      ClassHas(body, p[0]);
    }
  }

  lemma StarMeans(g: string, p: string, rest: Regex)
    requires g != "" && Element(g).Ok? && OneLine(p)
    requires Translates(rest, g[Element(g).value.1..], p)
    requires g[0] == '*' && !("**/" <= g)
    requires p != "" ==> (Matches([Element(g).value.0] + rest, p[1..]) <==> Means(g, p[1..]))
    ensures Matches([Element(g).value.0] + rest, p) <==> Means(g, p)
  {
    ManyThenRest(Element(g).value.0.chars, rest, p);
  }

  lemma CharacterMeans(g: string, p: string, rest: Regex)
    requires g != "" && Element(g).Ok? && OneLine(p)
    requires Translates(rest, g[Element(g).value.1..], p)
    requires g[0] != '*' && g[0] != '['
    ensures Matches([Element(g).value.0] + rest, p) <==> Means(g, p)
  {
    OneThenRest(Element(g).value.0.chars, rest, p);
  }

  lemma ElementMeans(g: string, p: string, rest: Regex)
    requires g != "" && Element(g).Ok? && HasPlainClass(Element(g).value.0) && OneLine(p)
    requires Translates(rest, g[Element(g).value.1..], p)
    requires p != "" ==> (Matches([Element(g).value.0] + rest, p[1..]) <==> Means(g, p[1..]))
    ensures Matches([Element(g).value.0] + rest, p) <==> Means(g, p)
  {
    if "**/" <= g {
      DirsMean(g, p, rest);
    } else if g[0] == '*' {
      StarMeans(g, p, rest);
    } else if g[0] == '[' {
      ClassMeans(g, p, rest, Element(g).value.1 - 1);
    } else {
      CharacterMeans(g, p, rest);
    }
  }

  lemma FirstPiece(g: string)
    requires g != "" && Nodes(g).Ok?
    ensures var el := Element(g);
            && el.Ok? && Nodes(g[el.value.1..]).Ok? && Nodes(g).value == [el.value.0] + Nodes(g[el.value.1..]).value
  {
  }

  /** The pieces written for a glob, and the tail for what lies beneath, match exactly what the glob means. */
  lemma {:induction false} NodesMean(g: string, p: string)
    requires Nodes(g).Ok? && OneLine(p) && forall n | n in Nodes(g).value :: HasPlainClass(n)
    ensures Matches(Nodes(g).value + [BELOW], p) <==> Means(g, p)
    decreases |g|, |p|
  {
    if g == "" {
      assert [] + [BELOW] == [BELOW];
      BelowMatches(p);
    } else {
      FirstPiece(g);
      var el := Element(g).value;
      var tail := g[el.1..];
      var rest := Nodes(tail).value + [BELOW];
      assert Nodes(g).value + [BELOW] == [el.0] + rest;
      forall q | |q| <= |p| && OneLine(q) ensures Matches(rest, q) <==> Means(tail, q) {
        NodesMean(tail, q);
      }
      if p != "" {
        NodesMean(g, p[1..]);
      }
      ElementMeans(g, p, rest);
    }
  }

  /** The compiled expression accepts exactly the paths the glob selects. */
  lemma CompilationKeepsMeaning(glob: string, p: string)
    requires Compiled(glob).Ok? && OneLine(p)
    ensures Matches(Compiled(glob).value, p) <==> Selects(glob, p)
  {
    var g := WithoutTrailingSlash(glob);
    var re := Nodes(g).value + [BELOW];
    NodesMean(g, p);
    if '/' in g {
      assert [] + Nodes(g).value + [BELOW] == re;
    } else {
      assert [ANY_DIRS] + Nodes(g).value + [BELOW] == [ANY_DIRS] + re;
      AnyDirsThenRest(re, p);
      forall i | 0 <= i < |p| && p[i] == '/' ensures Matches(re, p[i + 1..]) <==> Means(g, p[i + 1..]) {
        NodesMean(g, p[i + 1..]);
      }
    }
  }

  // --------------------------------------------------- going deeper is covered

  lemma {:induction false} MeansDeeper(g: string, p: string, q: string)
    requires Means(g, p)
    ensures Means(g, p + "/" + q)
    decreases |g|, |p|
  {
    var deeper := p + "/" + q;
    if g == "" {
    } else if "**/" <= g {
      if Means(g[3..], p) {
        MeansDeeper(g[3..], p, q);
      } else {
        var i :| 0 <= i < |p| && p[i] == '/' && Means(g[3..], p[i + 1..]);
        MeansDeeper(g[3..], p[i + 1..], q);
        assert deeper[i] == '/' && deeper[i + 1..] == p[i + 1..] + "/" + q;
      }
    } else if "**" <= g || g[0] == '*' {
      var tail := if "**" <= g then g[2..] else g[1..];
      if Means(tail, p) {
        MeansDeeper(tail, p, q);
      } else {
        MeansDeeper(g, p[1..], q);
        assert deeper[1..] == p[1..] + "/" + q;
      }
    } else {
      var tail := if g[0] == '[' then g[ClassEnd(g, 1) + 1..] else if g[0] == '\\' then g[2..] else g[1..];
      MeansDeeper(tail, p[1..], q);
      assert deeper[1..] == p[1..] + "/" + q;
    }
  }

  /** Whatever a glob selects, it selects with everything beneath it. */
  lemma SelectsDeeper(glob: string, p: string, q: string)
    requires Selects(glob, p) && Below(q, p)
    ensures Selects(glob, q)
  {
    var g, rest := WithoutTrailingSlash(glob), q[|p| + 1..];
    assert q == p + "/" + rest;
    if Means(g, p) {
      MeansDeeper(g, p, rest);
    } else {
      var i :| 0 <= i < |p| && p[i] == '/' && Means(g, p[i + 1..]);
      MeansDeeper(g, p[i + 1..], rest);
      assert q[i] == '/' && q[i + 1..] == p[i + 1..] + "/" + rest;
    }
  }

  // ------------------------------------------------------------ sets of rules

  datatype Pattern = Pattern(raw: string, negate: bool, re: Regex)

  /** One line of a rule list: nothing for blanks and comments. */
  function CompiledLine(raw: string): Result<seq<Pattern>> {
    var line := TrimSpace(raw);
    if line == "" || line[0] == '#' then Ok([])
    else
      var negate := line[0] == '!';
      var rule := if negate then TrimSpace(line[1..]) else line;
      if rule == "" then Err(NegatesNothing)
      else
        match Compiled(rule)
        case Err(e) => Err(e)
        case Ok(re) => Ok([Pattern(rule, negate, re)])
  }

  function CompiledLines(lines: seq<string>): Result<seq<Pattern>> {
    if lines == [] then Ok([])
    else
      match CompiledLine(lines[0])
      case Err(e) => Err(e)
      case Ok(ps) =>
        match CompiledLines(lines[1..])
        case Err(e) => Err(e)
        case Ok(rest) => Ok(ps + rest)
  }

  method Compile(lines: seq<string>) returns (r: Result<seq<Pattern>>)
    ensures r == CompiledLines(lines)
  {
    var patterns: seq<Pattern> := [];
    assert lines[0..] == lines && forall rest: seq<Pattern> :: [] + rest == rest;
    for n := 0 to |lines|
      invariant CompiledLines(lines) == match CompiledLines(lines[n..])
                                        case Ok(rest) => Ok(patterns + rest)
                                        case Err(e) => Err(e)
    {
      assert lines[n..][1..] == lines[n + 1..];
      var line := TrimSpace(lines[n]);
      if line == "" || line[0] == '#' {
        assert forall rest: seq<Pattern> :: patterns + ([] + rest) == patterns + rest;
        continue;
      }
      var negate := line[0] == '!';
      if negate {
        line := TrimSpace(line[1..]);
        if line == "" {
          return Err(NegatesNothing);
        }
      }
      var re := CompileGlob(line);
      if re.Err? {
        return Err(re.error);
      }
      var p := Pattern(line, negate, re.value);
      assert forall rest: seq<Pattern> :: patterns + ([p] + rest) == patterns + [p] + rest;
      patterns := patterns + [p];
    }
    assert patterns + [] == patterns;
    r := Ok(patterns);
  }

  function WithoutLeadingSlash(s: string): string {
    if s != "" && s[0] == '/' then s[1..] else s
  }

  /** The verdict of the last rule that matches; without one a path is not excluded. */
  predicate Excluded(patterns: seq<Pattern>, path: string) {
    patterns != [] &&
    var last := patterns[|patterns| - 1];
    if Matches(last.re, path) then !last.negate else Excluded(patterns[..|patterns| - 1], path)
  }

  /** Every rule that matches overwrites the verdict so far. */
  method Match(patterns: seq<Pattern>, rooted: string) returns (excluded: bool)
    ensures excluded <==> Excluded(patterns, WithoutLeadingSlash(rooted))
  {
    var path := WithoutLeadingSlash(rooted);
    excluded := false;
    for n := 0 to |patterns|
      invariant excluded <==> Excluded(patterns[..n], path)
    {
      assert patterns[..n + 1][..n] == patterns[..n];
      if Matches(patterns[n].re, path) {
        excluded := !patterns[n].negate;
      }
    }
    assert patterns[..|patterns|] == patterns;
  }

  /** Merging appends: wherever some rule of the second set matches, the second set decides. */
  lemma {:induction false} MergedRulesTakePrecedence(a: seq<Pattern>, b: seq<Pattern>, path: string)
    ensures Excluded(a + b, path) <==>
            if exists p :: p in b && Matches(p.re, path) then Excluded(b, path) else Excluded(a, path)
  {
    if b == [] {
      assert a + b == a;
    } else {
      var n := |b| - 1;
      assert (a + b)[..|a + b| - 1] == a + b[..n];
      assert b == b[..n] + [b[n]];
      MergedRulesTakePrecedence(a, b[..n], path);
    }
  }

  /** Rules that came out of Compile. */
  ghost predicate FromGlobs(patterns: seq<Pattern>) {
    forall p | p in patterns :: Compiled(p.raw) == Ok(p.re)
  }

  lemma {:induction false} CompiledLinesAreFromGlobs(lines: seq<string>)
    requires CompiledLines(lines).Ok?
    ensures FromGlobs(CompiledLines(lines).value)
  {
    if lines != [] {
      CompiledLinesAreFromGlobs(lines[1..]);
    }
  }

  /** Without negations an excluded directory excludes everything beneath it. */
  lemma {:induction false} ExclusionGoesDeeper(patterns: seq<Pattern>, p: string, q: string)
    requires FromGlobs(patterns) && (forall r | r in patterns :: !r.negate)
    requires Excluded(patterns, p) && Below(q, p) && OneLine(q)
    ensures Excluded(patterns, q)
  {
    var n := |patterns| - 1;
    var last := patterns[n];
    assert q[..|p|] == p;
    if Matches(last.re, p) {
      CompilationKeepsMeaning(last.raw, p);
      SelectsDeeper(last.raw, p, q);
      CompilationKeepsMeaning(last.raw, q);
    } else {
      ExclusionGoesDeeper(patterns[..n], p, q);
    }
  }

  // ----------------------------------------------------------------- quoting

  function QuoteCharacter(c: char): string {
    if c in {'*', '?', '[', ']', '\\', '!', '#'} then ['\\', c] else [c]
  }

  function QuoteAll(s: string): string {
    if s == "" then "" else QuoteCharacter(s[0]) + QuoteAll(s[1..])
  }

  function Quoted(s: string): string {
    QuoteAll(WithoutTrailingSlash(s))
  }

  method QuoteGlob(raw: string) returns (quoted: string)
    ensures quoted == Quoted(raw)
  {
    var s := WithoutTrailingSlash(raw);
    quoted := "";
    assert s[0..] == s;
    for i := 0 to |s|
      invariant QuoteAll(s) == quoted + QuoteAll(s[i..])
    {
      QuotedOneMore(quoted, s, i);
      if s[i] in {'*', '?', '[', ']', '\\', '!', '#'} {
        quoted := quoted + ['\\', s[i]];
      } else {
        quoted := quoted + [s[i]];
      }
    }
    assert quoted + "" == quoted;
  }

  lemma QuotedOneMore(quoted: string, s: string, i: nat)
    requires i < |s|
    ensures quoted + QuoteAll(s[i..]) == quoted + QuoteCharacter(s[i]) + QuoteAll(s[i + 1..])
  {
    assert s[i..][1..] == s[i + 1..];
  }

  lemma QuotedCharacterMeans(c: char, tail: string, p: string)
    ensures Means(QuoteCharacter(c) + tail, p) <==> p != "" && p[0] == c && Means(tail, p[1..])
  {
    var g := QuoteCharacter(c) + tail;
    assert g[0] != '*' && !("**/" <= g) && !("**" <= g);
    if |QuoteCharacter(c)| == 2 {
      assert g[0] == '\\' && g[1] == c && g[2..] == tail;
    } else {
      assert g[0] == c && g[1..] == tail;
    }
  }

  lemma OneCharacterOn(p: string, s: string)
    requires s != ""
    ensures AtOrBelow(p, s) <==> p != "" && p[0] == s[0] && AtOrBelow(p[1..], s[1..])
  {
    assert s == [s[0]] + s[1..];
    if p != "" {
      assert p == [p[0]] + p[1..];
      assert p[0] == s[0] ==> (Below(p, s) <==> Below(p[1..], s[1..]));
    }
  }

  /** A quoted path means that path and what lies beneath it. */
  lemma {:induction false} QuotedMeansItself(s: string, p: string)
    ensures Means(QuoteAll(s), p) <==> AtOrBelow(p, s)
  {
    if s == "" {
      assert Below(p, "") <==> p != "" && p[0] == '/';
    } else {
      QuotedCharacterMeans(s[0], QuoteAll(s[1..]), p);
      OneCharacterOn(p, s);
      if p != "" {
        QuotedMeansItself(s[1..], p[1..]);
      }
    }
  }

  lemma {:induction false} QuoteKeepsSlashes(s: string)
    ensures '/' in QuoteAll(s) <==> '/' in s
  {
    if s != "" {
      QuoteKeepsSlashes(s[1..]);
      assert s == [s[0]] + s[1..];
    }
  }

  lemma {:induction false} QuoteKeepsTheEnd(s: string)
    requires s != ""
    ensures QuoteAll(s) != "" && QuoteAll(s)[|QuoteAll(s)| - 1] == s[|s| - 1]
  {
    if |s| > 1 {
      QuoteKeepsTheEnd(s[1..]);
    }
  }

  /** Quoting leaves nothing special: one literal character after the other. */
  lemma {:induction false} QuotedCompiles(s: string)
    ensures Nodes(QuoteAll(s)).Ok? && forall n | n in Nodes(QuoteAll(s)).value :: n.One? && n.chars.Only?
  {
    if s != "" {
      var g := QuoteAll(s);
      QuotedCompiles(s[1..]);
      assert g == QuoteCharacter(s[0]) + QuoteAll(s[1..]);
      assert g[|QuoteCharacter(s[0])|..] == QuoteAll(s[1..]);
    }
  }

  lemma QuotedIsATrimmedRule(s: string)
    requires s != "" && s[|s| - 1] != '/' && Trimmed(s)
    ensures var g := QuoteAll(s);
            g != "" && g[0] != '#' && g[0] != '!' && Trimmed(g) && g[|g| - 1] != '/'
  {
    QuoteKeepsTheEnd(s);
    assert QuoteAll(s) == QuoteCharacter(s[0]) + QuoteAll(s[1..]);
  }

  lemma QuotedLine(s: string)
    requires s != "" && s[|s| - 1] != '/' && Trimmed(s)
    ensures var g := QuoteAll(s);
            Compiled(g).Ok? && CompiledLine(Quoted(s)) == Ok([Pattern(g, false, Compiled(g).value)])
  {
    QuotedIsATrimmedRule(s);
    QuotedCompiles(s);
    TrimmedIsTrimSpace(QuoteAll(s));
  }

  lemma QuotedSelects(s: string, p: string)
    requires s != "" && s[|s| - 1] != '/' && Trimmed(s)
    ensures Selects(QuoteAll(s), p) <==> if '/' in s then AtOrBelow(p, s) else s in Segments(p)
  {
    QuotedIsATrimmedRule(s);
    QuoteKeepsSlashes(s);
    QuotedMeansItself(s, p);
    if '/' !in s {
      SegmentIsAName(s, p);
      forall i | 0 <= i < |p| && p[i] == '/' ensures Means(QuoteAll(s), p[i + 1..]) <==> AtOrBelow(p[i + 1..], s) {
        QuotedMeansItself(s, p[i + 1..]);
      }
    }
  }

  /** A path with a slash, quoted and compiled, is exactly that path and what lies beneath it; a single name
      is every path with a segment of that name. Nothing the name contains is special any more. */
  lemma QuotedPathIsExact(s: string, p: string)
    requires s != "" && s[|s| - 1] != '/' && Trimmed(s) && OneLine(p)
    ensures CompiledLine(Quoted(s)).Ok?
    ensures var patterns := CompiledLine(Quoted(s)).value;
            |patterns| == 1 && !patterns[0].negate && patterns[0].raw == Quoted(s) &&
            (Matches(patterns[0].re, p) <==> if '/' in s then AtOrBelow(p, s) else s in Segments(p))
  {
    QuotedLine(s);
    CompilationKeepsMeaning(QuoteAll(s), p);
    QuotedSelects(s, p);
  }

  lemma {:induction false} FirstSegment(s: string, p: string)
    requires '/' !in s
    ensures AtOrBelow(p, s) <==> Segments(p)[0] == s
  {
    if s == "" {
      assert p != "" ==> (Below(p, "") <==> p[0] == '/');
    } else if p != "" {
      FirstSegment(s[1..], p[1..]);
      assert p == [p[0]] + p[1..] && s == [s[0]] + s[1..];
      assert p[0] == s[0] ==> (Below(p, s) <==> Below(p[1..], s[1..]));
      assert p[0] == s[0] ==> (p == s <==> p[1..] == s[1..]);
      assert Segments(p)[0] == s ==> p[0] == s[0];
    }
  }

  /** The name begins after the slash at i. */
  predicate NameAfter(p: string, i: int, s: string) {
    0 <= i < |p| && p[i] == '/' && AtOrBelow(p[i + 1..], s)
  }

  lemma NameFurtherOn(p: string, i: int, s: string)
    requires p != "" && i > 0
    ensures NameAfter(p, i, s) <==> NameAfter(p[1..], i - 1, s)
  {
    if i < |p| {
      assert p[1..][i - 1 + 1..] == p[i + 1..];
    }
  }

  lemma NamesFurtherOn(p: string, s: string)
    requires p != ""
    ensures (exists i :: NameAfter(p, i, s)) <==> NameAfter(p, 0, s) || exists i :: NameAfter(p[1..], i, s)
  {
    if i :| NameAfter(p, i, s) && i > 0 {
      NameFurtherOn(p, i, s);
    }
    if i :| NameAfter(p[1..], i, s) {
      NameFurtherOn(p, i + 1, s);
    }
  }

  lemma {:induction false} LaterSegments(s: string, p: string)
    requires '/' !in s
    ensures (exists i :: NameAfter(p, i, s)) <==> s in Segments(p)[1..]
  {
    if p != "" {
      var tail := p[1..];
      LaterSegments(s, tail);
      FirstSegment(s, tail);
      NamesFurtherOn(p, s);
      var rest := Segments(tail);
      assert rest == [rest[0]] + rest[1..];
      assert Segments(p)[1..] == if p[0] == '/' then rest else rest[1..];
      assert p[0 + 1..] == tail;
    }
  }

  lemma SegmentIsAName(s: string, p: string)
    requires '/' !in s
    ensures s in Segments(p) <==>
            AtOrBelow(p, s) || exists i :: 0 <= i < |p| && p[i] == '/' && AtOrBelow(p[i + 1..], s)
  {
    FirstSegment(s, p);
    LaterSegments(s, p);
    var segs := Segments(p);
    assert segs == [segs[0]] + segs[1..];
    if i :| 0 <= i < |p| && p[i] == '/' && AtOrBelow(p[i + 1..], s) {
      assert NameAfter(p, i, s);
    }
  }
}
