/** Byte strings as the program compares them, and slash-separated paths.

    A string is a sequence of characters; the order of UTF-8 byte strings and the order of the characters
    they encode agree. */
module Text {

  /** Strict dictionary order. */
  predicate Less(a: string, b: string) {
    b != "" && (a == "" || a[0] < b[0] || (a[0] == b[0] && Less(a[1..], b[1..])))
  }

  predicate Ascending(s: seq<string>) {
    forall i, j | 0 <= i < j < |s| :: Less(s[i], s[j])
  }

  /** `path` lies somewhere beneath `dir`. */
  predicate Below(path: string, dir: string) {
    dir + "/" <= path
  }

  predicate AtOrBelow(path: string, dir: string) {
    path == dir || Below(path, dir)
  }

  lemma {:induction false} LessIsStrict(a: string, b: string)
    ensures !(Less(a, b) && Less(b, a)) && !Less(a, a)
  {
    if a != "" {
      LessIsStrict(a[1..], if b != "" then b[1..] else "");
    }
  }

  lemma {:induction false} LessIsTotal(a: string, b: string)
    ensures Less(a, b) || a == b || Less(b, a)
  {
    if a != "" && b != "" && a[0] == b[0] {
      LessIsTotal(a[1..], b[1..]);
      assert a == [a[0]] + a[1..] && b == [b[0]] + b[1..];
    }
  }

  lemma {:induction false} LessIsTransitive(a: string, b: string, c: string)
    requires Less(a, b) && Less(b, c)
    ensures Less(a, c)
  {
    if a != "" && a[0] == b[0] == c[0] {
      LessIsTransitive(a[1..], b[1..], c[1..]);
    }
  }

  lemma {:induction false} PrefixIsLess(a: string, b: string)
    requires a <= b && a != b
    ensures Less(a, b)
  {
    if a != "" {
      assert a[1..] <= b[1..];
      PrefixIsLess(a[1..], b[1..]);
    }
  }

  /** Two strings with a common beginning are ordered by what follows it. */
  lemma {:induction false} LessAfter(m: string, a: string, b: string)
    ensures Less(m + a, m + b) <==> Less(a, b)
  {
    if m == "" {
      assert m + a == a && m + b == b;
    } else {
      assert (m + a)[1..] == m[1..] + a && (m + b)[1..] == m[1..] + b;
      LessAfter(m[1..], a, b);
    }
  }

  /** Whatever sorts between m and something that begins with m begins with m too. */
  lemma {:induction false} Between(m: string, y: string, x: string)
    requires Less(m, y) && (Less(y, x) || y == x) && m <= x
    ensures m <= y
  {
    if m != "" {
      assert m[1..] <= x[1..];
      Between(m[1..], y[1..], x[1..]);
      assert y == [y[0]] + y[1..] && m == [m[0]] + m[1..];
    }
  }

  lemma BelowMeansSlash(p: string, dir: string)
    ensures Below(p, dir) <==> dir < p && p[|dir|] == '/'
  {
    if dir < p && p[|dir|] == '/' {
      assert p[..|dir| + 1] == dir + "/";
    }
  }

  /** Of two strings that go on differently after m, the lesser goes on with the lesser character. */
  lemma NextCharacter(m: string, y: string, x: string)
    requires m < y && m < x && (Less(y, x) || y == x)
    ensures y[|m|] <= x[|m|]
  {
    if y != x {
      var a, b := y[|m|..], x[|m|..];
      assert y == m + a && x == m + b;
      LessAfter(m, a, b);
    }
  }

  lemma ReallyBetween(m: string, y: string, x: string)
    requires Less(m, y) && (Less(y, x) || y == x) && m <= x
    ensures m < y
  {
    Between(m, y, x);
    LessIsStrict(m, y);
  }

  lemma AtMostASlash(m: string, y: string)
    requires m < y && y[|m|] <= '/'
    ensures Below(y, m) || y[|m|] < '/'
  {
    BelowMeansSlash(y, m);
  }

  /** ... and if that something is beneath m, it is beneath m as well or goes on with a character before '/'. */
  lemma BetweenDirAndEntry(m: string, y: string, x: string)
    requires Less(m, y) && (Less(y, x) || y == x) && Below(x, m)
    ensures m < y && (Below(y, m) || y[|m|] < '/')
  {
    BelowMeansSlash(x, m);
    ReallyBetween(m, y, x);
    NextCharacter(m, y, x);
    AtMostASlash(m, y);
  }

  /** A name that continues a directory's name with a character before '/' sorts before its contents. */
  lemma SiblingBeforeContents(m: string, y: string, x: string)
    requires m < y && y[|m|] < '/' && Below(x, m)
    ensures Less(y, x)
  {
    var a, b := y[|m|..], x[|m|..];
    assert y == m + a && x == m + b;
    assert b[0] == '/';
    LessAfter(m, a, b);
  }

  /** The position of the last slash, or -1. */
  function LastSlash(p: string): (k: int)
    ensures -1 <= k < |p|
  {
    if p == "" then -1
    else if p[|p| - 1] == '/' then |p| - 1
    else LastSlash(p[..|p| - 1])
  }

  lemma {:induction false} LastSlashIsLast(p: string)
    ensures LastSlash(p) >= 0 ==> p[LastSlash(p)] == '/'
    ensures forall i | LastSlash(p) < i < |p| :: p[i] != '/'
  {
    if p != "" && p[|p| - 1] != '/' {
      LastSlashIsLast(p[..|p| - 1]);
    }
  }

  /** The directory holding p, "" for the root. */
  function ParentOf(p: string): string {
    if LastSlash(p) < 0 then "" else p[..LastSlash(p)]
  }

  /** What lies above a path lies at or above its parent. */
  lemma AboveTheParent(p: string, d: string)
    requires d != "" && p != "" && p[0] != '/'
    ensures Below(p, d) <==> d == ParentOf(p) || Below(ParentOf(p), d)
    ensures ParentOf(p) != "" ==> ParentOf(p)[0] != '/' && Below(p, ParentOf(p))
  {
    var k := LastSlash(p);
    LastSlashIsLast(p);
    BelowMeansSlash(p, d);
    if k >= 0 {
      var dir := p[..k];
      BelowMeansSlash(p, dir);
      if Below(dir, d) {
        BelowIsTransitive(p, dir, d);
      }
      if Below(p, d) && |d| < k {
        AncestorsAreNested(p, d, dir);
      }
    }
  }

  function TrimSlashes(p: string): string {
    if p != "" && p[0] == '/' then TrimSlashes(p[1..])
    else if p != "" && p[|p| - 1] == '/' then TrimSlashes(p[..|p| - 1])
    else p
  }

  function WithoutTrailingSlash(s: string): string {
    if s != "" && s[|s| - 1] == '/' then s[..|s| - 1] else s
  }

  lemma BelowIsTransitive(a: string, b: string, c: string)
    requires Below(a, b) && Below(b, c)
    ensures Below(a, c)
  {
  }

  /** Two directories above one path are above each other. */
  lemma AncestorsAreNested(path: string, a: string, b: string)
    requires Below(path, a) && Below(path, b) && |a| < |b|
    ensures Below(b, a)
  {
    assert a + "/" == path[..|a| + 1] == b[..|a| + 1];
  }

  lemma AncestorsCompare(path: string, a: string, b: string)
    requires Below(path, a) && Below(path, b)
    ensures a == b || Below(a, b) || Below(b, a)
  {
    if |a| < |b| {
      AncestorsAreNested(path, a, b);
    } else if |b| < |a| {
      AncestorsAreNested(path, b, a);
    } else {
      assert a == path[..|a|] == b;
    }
  }

  lemma ChildHasNoDeeperAncestor(dir: string, name: string, d: string)
    requires '/' !in name && Below(dir + "/" + name, d)
    ensures |d| <= |dir|
  {
    var x := dir + "/" + name;
    BelowMeansSlash(x, d);
    assert forall i | |dir| < i < |x| :: x[i] == name[i - |dir| - 1];
  }

  // ---------------------------------------------------------------- sorting

  /** Sorted, possibly with repetitions. */
  predicate Ordered(s: seq<string>) {
    forall i, j | 0 <= i < j < |s| :: s[i] == s[j] || Less(s[i], s[j])
  }

  function Strings(s: seq<string>): set<string> {
    set p | p in s
  }

  lemma InsertedInOrder(s: seq<string>, i: nat, p: string)
    requires Ordered(s) && i <= |s|
    requires forall j | 0 <= j < i :: !Less(p, s[j])
    requires i < |s| ==> Less(p, s[i])
    ensures Ordered(s[..i] + [p] + s[i..])
  {
    forall j | 0 <= j < i ensures s[j] == p || Less(s[j], p) { LessIsTotal(s[j], p); }
    forall j | i <= j < |s| ensures Less(p, s[j]) {
      if j > i && s[i] != s[j] { LessIsTransitive(p, s[i], s[j]); }
    }
  }

  method InsertSorted(s: seq<string>, p: string) returns (r: seq<string>)
    requires Ordered(s)
    ensures Ordered(r) && multiset(r) == multiset(s) + multiset{p}
  {
    var i := 0;
    while i < |s| && !Less(p, s[i])
      invariant i <= |s| && forall j | 0 <= j < i :: !Less(p, s[j])
    {
      i := i + 1;
    }
    assert s == s[..i] + s[i..];
    InsertedInOrder(s, i, p);
    r := s[..i] + [p] + s[i..];
  }

  method SortStrings(s: seq<string>) returns (r: seq<string>)
    ensures Ordered(r) && multiset(r) == multiset(s)
  {
    r := [];
    for n := 0 to |s|
      invariant Ordered(r) && multiset(r) == multiset(s[..n])
    {
      assert s[..n + 1] == s[..n] + [s[n]];
      r := InsertSorted(r, s[n]);
    }
    assert s[..|s|] == s;
  }

  /** Drops neighbours that are equal. */
  method Compact(s: seq<string>) returns (r: seq<string>)
    requires Ordered(s)
    ensures Ascending(r) && Strings(r) == Strings(s)
  {
    r := [];
    for n := 0 to |s|
      invariant Ascending(r) && Strings(r) == Strings(s[..n])
      invariant r == [] <==> n == 0
      invariant n > 0 ==> r[|r| - 1] == s[n - 1]
    {
      assert Strings(s[..n + 1]) == Strings(s[..n]) + {s[n]};
      if n == 0 || s[n] != s[n - 1] {
        forall i | 0 <= i < |r| ensures Less(r[i], s[n]) {
          if i < |r| - 1 { LessIsTransitive(r[i], r[|r| - 1], s[n]); }
        }
        r := r + [s[n]];
      }
    }
    assert s[..|s|] == s;
  }

  // ----------------------------------------------------------- white space

  predicate IsSpace(c: char) {
    || c in {' ', '\t', '\n', '\U{0b}', '\U{0c}', '\r', '\U{85}', '\U{a0}', '\U{1680}'}
    || '\U{2000}' <= c <= '\U{200a}'
    || c in {'\U{2028}', '\U{2029}', '\U{202f}', '\U{205f}', '\U{3000}'}
  }

  function TrimLeft(s: string): (t: string) {
    if s != "" && IsSpace(s[0]) then TrimLeft(s[1..]) else s
  }

  function TrimRight(s: string): (t: string) {
    if s != "" && IsSpace(s[|s| - 1]) then TrimRight(s[..|s| - 1]) else s
  }

  function TrimSpace(s: string): string {
    TrimRight(TrimLeft(s))
  }

  predicate Trimmed(s: string) {
    s == "" || (!IsSpace(s[0]) && !IsSpace(s[|s| - 1]))
  }

  lemma TrimmedIsTrimSpace(s: string)
    requires Trimmed(s)
    ensures TrimSpace(s) == s
  {
  }

  // --------------------------------------------------------------- segments

  /** What lies between the slashes; at least one, possibly empty, segment. */
  function Segments(p: string): (segs: seq<string>)
    ensures |segs| >= 1
  {
    if p == "" then [""]
    else
      var rest := Segments(p[1..]);
      if p[0] == '/' then [""] + rest else [[p[0]] + rest[0]] + rest[1..]
  }
}
