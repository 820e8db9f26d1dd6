/** Adding up and counting, in whatever order things come. */
module Sums {

  ghost function Sum<K>(m: map<K, nat>): nat
    decreases |m|
  {
    if m == map[] then 0
    else
      var k :| k in m;
      m[k] + Sum(m - {k})
  }

  lemma {:induction false} SumWithout<K>(m: map<K, nat>, k: K)
    requires k in m
    ensures Sum(m) == m[k] + Sum(m - {k})
    decreases |m|
  {
    var other :| other in m && Sum(m) == m[other] + Sum(m - {other});
    if other != k {
      SumWithout(m - {other}, k);
      SumWithout(m - {k}, other);
      assert m - {other} - {k} == m - {k} - {other};
    }
  }

  lemma SumWith<K>(m: map<K, nat>, k: K, v: nat)
    requires k !in m
    ensures Sum(m[k := v]) == Sum(m) + v
  {
    SumWithout(m[k := v], k);
    assert m[k := v] - {k} == m;
  }

  lemma OneKeyMore<K>(a: map<K, nat>, b: map<K, nat>, k: K)
    requires k in b && k !in a
    ensures (b - {k})[k := b[k]] == b && (a + (b - {k}))[k := b[k]] == a + b && k !in a + (b - {k})
  {
  }

  /** Parts without a common key add up. */
  lemma {:induction false} SumOfParts<K>(a: map<K, nat>, b: map<K, nat>)
    requires a.Keys !! b.Keys
    ensures Sum(a + b) == Sum(a) + Sum(b)
    decreases |b|
  {
    if b == map[] {
      assert a + b == a;
    } else {
      var k :| k in b;
      var rest := b - {k};
      SumOfParts(a, rest);
      SumWith(rest, k, b[k]);
      SumWith(a + rest, k, b[k]);
      OneKeyMore(a, b, k);
    }
  }

  /** A sum of ones counts. */
  lemma {:induction false} SumOfOnes<K>(m: map<K, nat>)
    requires forall k | k in m :: m[k] == 1
    ensures Sum(m) == |m|
    decreases |m|
  {
    if m != map[] {
      var k :| k in m;
      SumOfOnes(m - {k});
      SumWithout(m, k);
    }
  }

  lemma TwiceInside<T>(s: seq<T>, i: nat, j: nat)
    requires i < j < |s| && s[i] == s[j]
    ensures multiset(s)[s[i]] >= 2
  {
    assert s == s[..j] + s[j..];
    assert s[i] in s[..j] && s[j] in s[j..];
  }

  lemma {:induction false} OnceInside<T>(s: seq<T>, x: T)
    requires forall i, j | 0 <= i < j < |s| :: s[i] != s[j]
    ensures multiset(s)[x] <= 1
  {
    if s != [] {
      var n := |s| - 1;
      assert s == s[..n] + [s[n]];
      OnceInside(s[..n], x);
      assert x == s[n] ==> x !in s[..n];
    }
  }

  lemma InsertedOnce<T>(s: seq<T>, i: nat, x: T)
    requires i <= |s|
    ensures multiset(s[..i] + [x] + s[i..]) == multiset(s) + multiset{x}
  {
    assert s == s[..i] + s[i..];
  }

  lemma {:induction false} SubsetSize<T>(a: set<T>, b: set<T>)
    requires a <= b
    ensures |a| <= |b| && (|a| == |b| ==> a == b)
  {
    if a != {} {
      var x :| x in a;
      SubsetSize(a - {x}, b - {x});
    }
  }
}
