/** The retention policy: which snapshots `forget` keeps.

    Times are integers. The names of the hour, day, week, month and year a snapshot was started in are data of
    the snapshot, so nothing here depends on calendar arithmetic. */
module Retention {
  import opened Sums
  import opened Wrappers

  datatype Unit = Hourly | Daily | Weekly | Monthly | Yearly

  const UNITS: seq<Unit> := [Hourly, Daily, Weekly, Monthly, Yearly]

  datatype Manifest = Manifest(id: string, at: int, tags: seq<string>,
                               hour: string, day: string, week: string, month: string, year: string)
  {
    function Bucket(u: Unit): string {
      match u
      case Hourly => hour
      case Daily => day
      case Weekly => week
      case Monthly => month
      case Yearly => year
    }
  }

  datatype Policy = Policy(keepLast: int, keepHourly: int, keepDaily: int, keepWeekly: int, keepMonthly: int,
                           keepYearly: int, keepWithin: int, keepTags: seq<string>, minSnapshots: int)
  {
    function Count(u: Unit): int {
      match u
      case Hourly => keepHourly
      case Daily => keepDaily
      case Weekly => keepWeekly
      case Monthly => keepMonthly
      case Yearly => keepYearly
    }
  }

  datatype Reason =
    | OneOfTheLast(n: int)
    | Within(span: int)
    | Tagged(tag: string)
    | NewestOf(unit: Unit)
    | Floor(n: int)

  datatype Decision = Decision(manifest: Manifest, keep: bool, reasons: seq<Reason>)

  datatype PolicyError = NegativeCount | KeepsNothing

  type Result<T> = Wrappers.Result<T, PolicyError>

  function Validate(p: Policy): Result<()> {
    if p.keepLast < 0 || p.keepHourly < 0 || p.keepDaily < 0 || p.keepWeekly < 0 || p.keepMonthly < 0 || p.keepYearly < 0 then
      Err(NegativeCount)
    else if p.keepLast == 0 && p.keepHourly == 0 && p.keepDaily == 0 && p.keepWeekly == 0 && p.keepMonthly == 0 &&
            p.keepYearly == 0 && p.keepWithin == 0 && p.keepTags == [] then
      Err(KeepsNothing)
    else
      Ok(())
  }

  // ------------------------------------------------------------ the rules

  /** A bucket rule wants the newest snapshot of each of its newest `count` buckets. `seen` are the buckets
      of the snapshots that come before, newest first. */
  predicate Claims(count: int, seen: set<string>, bucket: string) {
    bucket !in seen && |seen| < count
  }

  function BucketsOf(u: Unit, earlier: seq<Manifest>): set<string> {
    if earlier == [] then {}
    else BucketsOf(u, earlier[..|earlier| - 1]) + {earlier[|earlier| - 1].Bucket(u)}
  }

  predicate RecentEnough(p: Policy, now: int, m: Manifest) {
    p.keepWithin > 0 && m.at > now - p.keepWithin
  }

  function TagReasons(tags: seq<string>, m: Manifest): seq<Reason> {
    if tags == [] then []
    else (if tags[0] in m.tags then [Tagged(tags[0])] else []) + TagReasons(tags[1..], m)
  }

  function BucketReason(p: Policy, u: Unit, earlier: seq<Manifest>, m: Manifest): seq<Reason> {
    if Claims(p.Count(u), BucketsOf(u, earlier), m.Bucket(u)) then [NewestOf(u)] else []
  }

  function BucketReasons(p: Policy, units: seq<Unit>, earlier: seq<Manifest>, m: Manifest): seq<Reason> {
    if units == [] then []
    else BucketReason(p, units[0], earlier, m) + BucketReasons(p, units[1..], earlier, m)
  }

  function LastReason(p: Policy, rank: nat): seq<Reason> {
    if rank < p.keepLast then [OneOfTheLast(p.keepLast)] else []
  }

  function WithinReason(p: Policy, now: int, m: Manifest): seq<Reason> {
    if RecentEnough(p, now, m) then [Within(p.keepWithin)] else []
  }

  /** Everything but the floor: what is recorded for the snapshot that has `earlier` before it. */
  function RuleReasons(p: Policy, now: int, earlier: seq<Manifest>, m: Manifest): seq<Reason> {
    LastReason(p, |earlier|) + WithinReason(p, now, m) + TagReasons(p.keepTags, m) +
    BucketReasons(p, UNITS, earlier, m)
  }

  // --------------------------------------- decisions on a list, newest first

  function ReasonsAt(p: Policy, now: int, o: seq<Manifest>, i: nat): seq<Reason>
    requires i < |o|
  {
    RuleReasons(p, now, o[..i], o[i])
  }

  function AllReasons(p: Policy, now: int, o: seq<Manifest>): (reasons: seq<seq<Reason>>)
    ensures |reasons| == |o| && forall i | 0 <= i < |o| :: reasons[i] == ReasonsAt(p, now, o, i)
  {
    seq(|o|, i requires 0 <= i < |o| => ReasonsAt(p, now, o, i))
  }

  /** How many of the first n snapshots some rule wants. */
  function WantedBefore(reasons: seq<seq<Reason>>, n: nat): (c: nat)
    requires n <= |reasons|
    ensures c <= n
  {
    if n == 0 then 0
    else WantedBefore(reasons, n - 1) + (if reasons[n - 1] != [] then 1 else 0)
  }

  /** The floor rescues the newest unwanted snapshots until `minSnapshots` are kept. */
  predicate Rescued(minSnapshots: int, reasons: seq<seq<Reason>>, i: nat)
    requires i < |reasons|
  {
    && reasons[i] == []
    && WantedBefore(reasons, |reasons|) + (i - WantedBefore(reasons, i)) < minSnapshots
  }

  function Decide(minSnapshots: int, reasons: seq<seq<Reason>>, m: Manifest, i: nat): Decision
    requires i < |reasons|
  {
    var all := reasons[i] + (if Rescued(minSnapshots, reasons, i) then [Floor(minSnapshots)] else []);
    Decision(m, all != [], all)
  }

  /** The outcome of the whole policy for the list o. */
  function Decisions(p: Policy, now: int, o: seq<Manifest>): (ds: seq<Decision>)
    ensures |ds| == |o|
  {
    var reasons := AllReasons(p, now, o);
    seq(|o|, i requires 0 <= i < |o| => Decide(p.minSnapshots, reasons, o[i], i))
  }

  predicate NewestFirst(o: seq<Manifest>) {
    forall i, j | 0 <= i < j < |o| :: o[i].at >= o[j].at
  }

  method Insert(o: seq<Manifest>, m: Manifest) returns (o': seq<Manifest>)
    requires NewestFirst(o)
    ensures NewestFirst(o') && multiset(o') == multiset(o) + multiset{m}
  {
    var i := 0;
    while i < |o| && o[i].at >= m.at
      invariant i <= |o|
      invariant forall j | 0 <= j < i :: o[j].at >= m.at
    {
      i := i + 1;
    }
    o' := o[..i] + [m] + o[i..];
    InsertedOnce(o, i, m);
  }

  /** Sorts newest first. The order of snapshots with the same time is not part of the contract. */
  method SortNewestFirst(snapshots: seq<Manifest>) returns (o: seq<Manifest>)
    ensures NewestFirst(o) && multiset(o) == multiset(snapshots)
  {
    o := [];
    for n := 0 to |snapshots|
      invariant NewestFirst(o) && multiset(o) == multiset(snapshots[..n])
    {
      assert snapshots[..n + 1] == snapshots[..n] + [snapshots[n]];
      o := Insert(o, snapshots[n]);
    }
    assert snapshots[..|snapshots|] == snapshots;
  }

  function Keep(d: Decision, reason: Reason): Decision {
    Decision(d.manifest, true, d.reasons + [reason])
  }

  /** What is decided about o[i] after the rules before the floor named by the parameters have run. */
  predicate Marked(d: Decision, m: Manifest, reasons: seq<Reason>) {
    d.manifest == m && d.reasons == reasons && (d.keep <==> reasons != [])
  }

  method MarkTag(tag: string, o: seq<Manifest>, decisions: seq<Decision>, ghost before: seq<seq<Reason>>)
    returns (ds: seq<Decision>)
    requires |decisions| == |o| == |before|
    requires forall i | 0 <= i < |o| :: Marked(decisions[i], o[i], before[i])
    ensures |ds| == |o|
    ensures forall i | 0 <= i < |o| :: Marked(ds[i], o[i], before[i] + (if tag in o[i].tags then [Tagged(tag)] else []))
  {
    ds := decisions;
    for i := 0 to |o|
      invariant |ds| == |o|
      invariant forall j | 0 <= j < i :: Marked(ds[j], o[j], before[j] + (if tag in o[j].tags then [Tagged(tag)] else []))
      invariant forall j | i <= j < |o| :: ds[j] == decisions[j]
    {
      if tag in o[i].tags {
        ds := ds[i := Keep(ds[i], Tagged(tag))];
      }
    }
  }

  /** buckets[i] are the buckets of the first i snapshots. */
  ghost predicate BucketHistory(u: Unit, o: seq<Manifest>, buckets: seq<set<string>>) {
    && |buckets| == |o| + 1 && buckets[0] == {}
    && forall i | 0 <= i < |o| :: buckets[i + 1] == buckets[i] + {o[i].Bucket(u)}
  }

  lemma HistoryOf(u: Unit, o: seq<Manifest>) returns (buckets: seq<set<string>>)
    ensures BucketHistory(u, o, buckets)
    ensures forall i | 0 <= i <= |o| :: buckets[i] == BucketsOf(u, o[..i])
  {
    buckets := seq(|o| + 1, i requires 0 <= i <= |o| => BucketsOf(u, o[..i]));
    forall i | 0 <= i < |o| ensures BucketsOf(u, o[..i + 1]) == BucketsOf(u, o[..i]) + {o[i].Bucket(u)} {
      assert o[..i + 1][..i] == o[..i];
    }
  }

  lemma {:induction false} BucketsOnlyGrow(u: Unit, o: seq<Manifest>, buckets: seq<set<string>>, i: nat, j: nat)
    requires BucketHistory(u, o, buckets) && i <= j <= |o|
    ensures |buckets[i]| <= |buckets[j]|
  {
    if i < j {
      BucketsOnlyGrow(u, o, buckets, i, j - 1);
      SubsetSize(buckets[j - 1], buckets[j]);
    }
  }

  /** Which snapshots a bucket rule with this count wants. */
  ghost predicate AreClaims(count: int, u: Unit, o: seq<Manifest>, buckets: seq<set<string>>, claims: seq<bool>) {
    && |claims| == |o| && |buckets| == |o| + 1
    && forall i | 0 <= i < |o| :: claims[i] == Claims(count, buckets[i], o[i].Bucket(u))
  }

  lemma NoBucketsLeft(count: int, u: Unit, o: seq<Manifest>, buckets: seq<set<string>>, claims: seq<bool>, i: nat)
    requires BucketHistory(u, o, buckets) && AreClaims(count, u, o, buckets, claims)
    requires i < |o| && |buckets[i]| >= count
    ensures forall j | i <= j < |o| :: !claims[j]
  {
    forall j | i <= j < |o| ensures !claims[j] {
      BucketsOnlyGrow(u, o, buckets, i, j);
    }
  }

  /** One bucket rule. The loop stops at the first snapshot that would open one bucket too many. */
  method MarkBucket(count: int, u: Unit, o: seq<Manifest>, decisions: seq<Decision>,
                    ghost buckets: seq<set<string>>, ghost claims: seq<bool>)
    returns (ds: seq<Decision>)
    requires |decisions| == |o| && BucketHistory(u, o, buckets) && AreClaims(count, u, o, buckets, claims)
    ensures |ds| == |o|
    ensures forall i | 0 <= i < |o| :: ds[i] == if claims[i] then Keep(decisions[i], NewestOf(u)) else decisions[i]
  {
    ds := decisions;
    var seen: set<string> := {};
    var i := 0;
    while i < |o|
      invariant i <= |o| == |ds|
      invariant seen == buckets[i]
      invariant forall j | 0 <= j < i :: ds[j] == if claims[j] then Keep(decisions[j], NewestOf(u)) else decisions[j]
      invariant forall j | i <= j < |o| :: ds[j] == decisions[j]
    {
      if o[i].Bucket(u) !in seen {
        if |seen| >= count {
          NoBucketsLeft(count, u, o, buckets, claims, i);
          return;
        }
        ds := ds[i := Keep(ds[i], NewestOf(u))];
      }
      seen := seen + {o[i].Bucket(u)};
      i := i + 1;
    }
  }

  /** The floor walks from newest to oldest, so that what it rescues is the newest of the unwanted. */
  method MarkFloor(minSnapshots: int, o: seq<Manifest>, decisions: seq<Decision>, ghost reasons: seq<seq<Reason>>)
    returns (ds: seq<Decision>)
    requires |decisions| == |o| == |reasons|
    requires forall i | 0 <= i < |o| :: Marked(decisions[i], o[i], reasons[i])
    ensures |ds| == |o| && forall i | 0 <= i < |o| :: ds[i] == Decide(minSnapshots, reasons, o[i], i)
  {
    ds := decisions;
    if minSnapshots > 0 {
      var kept := 0;
      for i := 0 to |o|
        invariant kept == WantedBefore(reasons, i)
      {
        if ds[i].keep {
          kept := kept + 1;
        }
      }
      var i := 0;
      while i < |o|
        invariant i <= |o| == |ds|
        invariant kept == WantedBefore(reasons, |o|) + (i - WantedBefore(reasons, i))
        invariant forall j | 0 <= j < i :: ds[j] == Decide(minSnapshots, reasons, o[j], j)
        invariant forall j | i <= j < |o| :: ds[j] == decisions[j]
      {
        if kept >= minSnapshots {
          forall j | i <= j < |o| ensures !Rescued(minSnapshots, reasons, j) {
            WantedGrowsSlowly(reasons, i, j);
          }
          return;
        }
        if !ds[i].keep {
          ds := ds[i := Keep(ds[i], Floor(minSnapshots))];
          kept := kept + 1;
        }
        i := i + 1;
      }
    }
  }

  lemma {:induction false} WantedGrowsSlowly(reasons: seq<seq<Reason>>, i: nat, j: nat)
    requires i <= j <= |reasons|
    ensures 0 <= WantedBefore(reasons, j) - WantedBefore(reasons, i) <= j - i
  {
    if i < j {
      WantedGrowsSlowly(reasons, i, j - 1);
    }
  }

  lemma {:induction false} TagReasonsAppend(a: seq<string>, b: seq<string>, m: Manifest)
    ensures TagReasons(a + b, m) == TagReasons(a, m) + TagReasons(b, m)
  {
    if a == [] {
      assert a + b == b;
    } else {
      assert (a + b)[1..] == a[1..] + b;
      TagReasonsAppend(a[1..], b, m);
    }
  }

  lemma {:induction false} BucketReasonsAppend(p: Policy, a: seq<Unit>, b: seq<Unit>, earlier: seq<Manifest>, m: Manifest)
    ensures BucketReasons(p, a + b, earlier, m) ==
            BucketReasons(p, a, earlier, m) + BucketReasons(p, b, earlier, m)
  {
    if a == [] {
      assert a + b == b;
    } else {
      assert (a + b)[1..] == a[1..] + b;
      BucketReasonsAppend(p, a[1..], b, earlier, m);
    }
  }

  method MarkLast(p: Policy, o: seq<Manifest>) returns (ds: seq<Decision>)
    ensures |ds| == |o| && forall i | 0 <= i < |o| :: Marked(ds[i], o[i], LastReason(p, i))
  {
    ds := seq(|o|, i requires 0 <= i < |o| => Decision(o[i], false, []));
    for i := 0 to |o|
      invariant |ds| == |o|
      invariant forall j | 0 <= j < i :: Marked(ds[j], o[j], LastReason(p, j))
      invariant forall j | i <= j < |o| :: Marked(ds[j], o[j], [])
    {
      if i < p.keepLast {
        ds := ds[i := Keep(ds[i], OneOfTheLast(p.keepLast))];
      }
    }
  }

  method MarkWithin(p: Policy, now: int, o: seq<Manifest>, decisions: seq<Decision>, ghost before: seq<seq<Reason>>)
    returns (ds: seq<Decision>)
    requires |decisions| == |o| == |before|
    requires forall i | 0 <= i < |o| :: Marked(decisions[i], o[i], before[i])
    ensures |ds| == |o| && forall i | 0 <= i < |o| :: Marked(ds[i], o[i], before[i] + WithinReason(p, now, o[i]))
  {
    ds := decisions;
    if p.keepWithin > 0 {
      var cutoff := now - p.keepWithin;
      for i := 0 to |o|
        invariant |ds| == |o|
        invariant forall j | 0 <= j < i :: Marked(ds[j], o[j], before[j] + WithinReason(p, now, o[j]))
        invariant forall j | i <= j < |o| :: ds[j] == decisions[j]
      {
        if o[i].at > cutoff {
          ds := ds[i := Keep(ds[i], Within(p.keepWithin))];
        }
      }
    }
  }

  ghost function Recorded(ds: seq<Decision>): (reasons: seq<seq<Reason>>)
    ensures |reasons| == |ds| && forall i | 0 <= i < |ds| :: reasons[i] == ds[i].reasons
  {
    seq(|ds|, i requires 0 <= i < |ds| => ds[i].reasons)
  }

  method MarkTags(tags: seq<string>, o: seq<Manifest>, decisions: seq<Decision>, ghost before: seq<seq<Reason>>)
    returns (ds: seq<Decision>)
    requires |decisions| == |o| == |before|
    requires forall i | 0 <= i < |o| :: Marked(decisions[i], o[i], before[i])
    ensures |ds| == |o| && forall i | 0 <= i < |o| :: Marked(ds[i], o[i], before[i] + TagReasons(tags, o[i]))
  {
    ds := decisions;
    for t := 0 to |tags|
      invariant |ds| == |o|
      invariant forall j | 0 <= j < |o| :: Marked(ds[j], o[j], before[j] + TagReasons(tags[..t], o[j]))
    {
      ghost var was := Recorded(ds);
      ds := MarkTag(tags[t], o, ds, was);
      assert tags[..t + 1] == tags[..t] + [tags[t]];
      forall j | 0 <= j < |o|
        ensures Marked(ds[j], o[j], before[j] + TagReasons(tags[..t + 1], o[j]))
      {
        TagReasonsAppend(tags[..t], [tags[t]], o[j]);
        assert was[j] == before[j] + TagReasons(tags[..t], o[j]);
      }
    }
    assert tags[..|tags|] == tags;
  }

  /** The rule for one unit, skipped when its count is not positive. */
  method MarkUnit(p: Policy, u: Unit, o: seq<Manifest>, decisions: seq<Decision>, ghost before: seq<seq<Reason>>)
    returns (ds: seq<Decision>)
    requires |decisions| == |o| == |before|
    requires forall i | 0 <= i < |o| :: Marked(decisions[i], o[i], before[i])
    ensures |ds| == |o|
    ensures forall i | 0 <= i < |o| :: Marked(ds[i], o[i], before[i] + BucketReason(p, u, o[..i], o[i]))
  {
    ghost var buckets := HistoryOf(u, o);
    ghost var claims := seq(|o|, i requires 0 <= i < |o| => Claims(p.Count(u), buckets[i], o[i].Bucket(u)));
    ds := decisions;
    if p.Count(u) > 0 {
      ds := MarkBucket(p.Count(u), u, o, decisions, buckets, claims);
    }
    forall i | 0 <= i < |o|
      ensures Marked(ds[i], o[i], before[i] + BucketReason(p, u, o[..i], o[i]))
    {
      assert BucketReason(p, u, o[..i], o[i]) == if claims[i] then [NewestOf(u)] else [];
    }
  }

  lemma BucketReasonsNext(p: Policy, b: nat, before: seq<Reason>, earlier: seq<Manifest>, m: Manifest)
    requires b < |UNITS|
    ensures before + BucketReasons(p, UNITS[..b + 1], earlier, m) ==
            before + BucketReasons(p, UNITS[..b], earlier, m) + BucketReason(p, UNITS[b], earlier, m)
  {
    assert UNITS[..b + 1] == UNITS[..b] + [UNITS[b]];
    BucketReasonsAppend(p, UNITS[..b], [UNITS[b]], earlier, m);
    assert BucketReasons(p, [UNITS[b]], earlier, m) == BucketReason(p, UNITS[b], earlier, m);
  }

  method MarkBuckets(p: Policy, o: seq<Manifest>, decisions: seq<Decision>, ghost before: seq<seq<Reason>>)
    returns (ds: seq<Decision>)
    requires |decisions| == |o| == |before|
    requires forall i | 0 <= i < |o| :: Marked(decisions[i], o[i], before[i])
    ensures |ds| == |o|
    ensures forall i | 0 <= i < |o| :: Marked(ds[i], o[i], before[i] + BucketReasons(p, UNITS, o[..i], o[i]))
  {
    ds := decisions;
    for b := 0 to |UNITS|
      invariant |ds| == |o|
      invariant forall j | 0 <= j < |o| :: Marked(ds[j], o[j], before[j] + BucketReasons(p, UNITS[..b], o[..j], o[j]))
    {
      ghost var was := Recorded(ds);
      ds := MarkUnit(p, UNITS[b], o, ds, was);
      forall j | 0 <= j < |o|
        ensures Marked(ds[j], o[j], before[j] + BucketReasons(p, UNITS[..b + 1], o[..j], o[j]))
      {
        BucketReasonsNext(p, b, before[j], o[..j], o[j]);
      }
    }
    assert UNITS[..|UNITS|] == UNITS;
  }

  function Manifests(ds: seq<Decision>): (o: seq<Manifest>)
    ensures |o| == |ds| && forall i | 0 <= i < |o| :: o[i] == ds[i].manifest
  {
    seq(|ds|, i requires 0 <= i < |ds| => ds[i].manifest)
  }

  /** A decision for every snapshot, newest first, as the policy has it. */
  ghost predicate Decided(p: Policy, now: int, snapshots: seq<Manifest>, ds: seq<Decision>) {
    && NewestFirst(Manifests(ds)) && multiset(Manifests(ds)) == multiset(snapshots)
    && ds == Decisions(p, now, Manifests(ds))
  }

  method Apply(p: Policy, snapshots: seq<Manifest>, now: int) returns (r: Result<seq<Decision>>)
    ensures r.Err? <==> Validate(p).Err?
    ensures r.Err? ==> r.error == Validate(p).error
    ensures r.Ok? ==> Decided(p, now, snapshots, r.value)
  {
    var valid := Validate(p);
    if valid.Err? {
      return Err(valid.error);
    }
    var ordered := SortNewestFirst(snapshots);
    var ds := MarkLast(p, ordered);
    ds := MarkWithin(p, now, ordered, ds, Recorded(ds));
    ds := MarkTags(p.keepTags, ordered, ds, Recorded(ds));
    ds := MarkBuckets(p, ordered, ds, Recorded(ds));
    ds := MarkFloor(p.minSnapshots, ordered, ds, AllReasons(p, now, ordered));
    assert Manifests(ds) == ordered;
    r := Ok(ds);
  }

  /** The manifests whose decision is `keep`, in order. */
  function Select(ds: seq<Decision>, keep: bool): seq<Manifest> {
    if ds == [] then []
    else Select(ds[..|ds| - 1], keep) +
         (if ds[|ds| - 1].keep == keep then [ds[|ds| - 1].manifest] else [])
  }

  method SplitDecisions(ds: seq<Decision>) returns (keep: seq<Manifest>, remove: seq<Manifest>)
    ensures keep == Select(ds, true) && remove == Select(ds, false)
  {
    keep, remove := [], [];
    for n := 0 to |ds|
      invariant keep == Select(ds[..n], true) && remove == Select(ds[..n], false)
    {
      assert ds[..n + 1][..n] == ds[..n];
      if ds[n].keep {
        keep := keep + [ds[n].manifest];
      } else {
        remove := remove + [ds[n].manifest];
      }
    }
    assert ds[..|ds|] == ds;
  }

  /** The kept and the removed snapshots, each newest first. */
  method Split(p: Policy, snapshots: seq<Manifest>, now: int) returns (r: Result<(seq<Manifest>, seq<Manifest>)>)
    ensures r.Err? <==> Validate(p).Err?
    ensures r.Err? ==> r.error == Validate(p).error
    ensures r.Ok? ==> exists ds :: Decided(p, now, snapshots, ds) && r.value == (Select(ds, true), Select(ds, false))
  {
    var applied := Apply(p, snapshots, now);
    if applied.Err? {
      return Err(applied.error);
    }
    var keep, remove := SplitDecisions(applied.value);
    r := Ok((keep, remove));
  }

  // ------------------------------- decisions on a set with distinct times

  ghost predicate DistinctTimes(s: set<Manifest>) {
    forall m, n | m in s && n in s && m.at == n.at :: m == n
  }

  function Newer(s: set<Manifest>, m: Manifest): set<Manifest> {
    set n | n in s && n.at > m.at
  }

  function Buckets(u: Unit, s: set<Manifest>): set<string> {
    set m | m in s :: m.Bucket(u)
  }

  predicate ClaimedIn(p: Policy, u: Unit, s: set<Manifest>, m: Manifest) {
    Claims(p.Count(u), Buckets(u, Newer(s, m)), m.Bucket(u))
  }

  predicate HasKeptTag(p: Policy, m: Manifest) {
    exists tag :: tag in p.keepTags && tag in m.tags
  }

  /** Some rule other than the floor wants m. */
  predicate WantedIn(p: Policy, now: int, s: set<Manifest>, m: Manifest) {
    || |Newer(s, m)| < p.keepLast
    || RecentEnough(p, now, m)
    || HasKeptTag(p, m)
    || (exists u | u in UNITS :: ClaimedIn(p, u, s, m))
  }

  ghost function Wanted(p: Policy, now: int, s: set<Manifest>): set<Manifest> {
    set m | m in s && WantedIn(p, now, s, m)
  }

  /** The k newest members of s. */
  ghost function Newest(s: set<Manifest>, k: int): set<Manifest> {
    set m | m in s && |Newer(s, m)| < k
  }

  /** What is wanted, and the newest of the others until there are `floor` snapshots. */
  ghost function FilledUp(s: set<Manifest>, wanted: set<Manifest>, floor: int): set<Manifest> {
    wanted + Newest(s - wanted, floor - |wanted|)
  }

  ghost function Kept(p: Policy, now: int, s: set<Manifest>): set<Manifest> {
    FilledUp(s, Wanted(p, now, s), p.minSnapshots)
  }

  ghost function Claimed(p: Policy, u: Unit, s: set<Manifest>): set<Manifest> {
    set m | m in s && ClaimedIn(p, u, s, m)
  }

  function Min(a: int, b: int): int { if a < b then a else b }
  function Max(a: int, b: int): int { if a < b then b else a }

  lemma {:induction false} Oldest(s: set<Manifest>) returns (m: Manifest)
    requires s != {} && DistinctTimes(s)
    ensures m in s && Newer(s, m) == s - {m}
    ensures forall n | n in s - {m} :: Newer(s - {m}, n) == Newer(s, n)
    decreases |s|
  {
    var any :| any in s;
    m := any;
    if s - {any} != {} {
      var n := Oldest(s - {any});
      if n.at < any.at {
        m := n;
      }
      forall x | x in s - {m} ensures x.at > m.at {
        assert x in s && m in s && any in s && n in s;
        assert x == any || x == n || x in Newer(s - {any}, n);
      }
    }
  }

  lemma NewestGrows(rest: set<Manifest>, m: Manifest, k: int)
    requires m !in rest && Newer(rest + {m}, m) == rest
    requires forall n | n in rest :: Newer(rest, n) == Newer(rest + {m}, n)
    ensures Newest(rest + {m}, k) == if |rest| < k then Newest(rest, k) + {m} else Newest(rest, k)
  {
  }

  lemma {:induction false} NewestCount(s: set<Manifest>, k: int)
    requires DistinctTimes(s)
    ensures |Newest(s, k)| == Max(0, Min(|s|, k))
    decreases |s|
  {
    if s != {} {
      var m := Oldest(s);
      var rest := s - {m};
      assert rest + {m} == s;
      NewestCount(rest, k);
      NewestGrows(rest, m, k);
      assert m !in Newest(rest, k) && |s| == |rest| + 1;
    }
  }

  lemma BucketsGrow(u: Unit, s: set<Manifest>, m: Manifest)
    ensures Buckets(u, s + {m}) == Buckets(u, s) + {m.Bucket(u)}
  {
  }

  lemma ClaimedGrows(p: Policy, u: Unit, rest: set<Manifest>, m: Manifest)
    requires m !in rest && Newer(rest + {m}, m) == rest
    requires forall n | n in rest :: Newer(rest, n) == Newer(rest + {m}, n)
    ensures Claimed(p, u, rest + {m}) ==
            if Claims(p.Count(u), Buckets(u, rest), m.Bucket(u)) then Claimed(p, u, rest) + {m}
            else Claimed(p, u, rest)
  {
    var s := rest + {m};
    assert forall n | n in rest :: ClaimedIn(p, u, s, n) <==> ClaimedIn(p, u, rest, n);
    assert ClaimedIn(p, u, s, m) <==> Claims(p.Count(u), Buckets(u, rest), m.Bucket(u));
  }

  lemma ClaimedCounts(count: int, u: Unit, claimed: set<Manifest>, buckets: set<string>, m: Manifest)
    requires |claimed| == Max(0, Min(count, |buckets|)) == |Buckets(u, claimed)|
    requires Buckets(u, claimed) <= buckets && m !in claimed
    ensures var claimed' := if Claims(count, buckets, m.Bucket(u)) then claimed + {m} else claimed;
            |claimed'| == Max(0, Min(count, |buckets + {m.Bucket(u)}|)) == |Buckets(u, claimed')|
  {
    BucketsGrow(u, claimed, m);
    if m.Bucket(u) in buckets {
      assert buckets + {m.Bucket(u)} == buckets;
    } else {
      assert |buckets + {m.Bucket(u)}| == |buckets| + 1;
      assert m.Bucket(u) !in Buckets(u, claimed);
    }
  }

  /** Each bucket rule claims exactly as many snapshots as it may, one for each of its newest buckets. */
  lemma {:induction false} BucketRuleClaims(p: Policy, u: Unit, s: set<Manifest>)
    requires DistinctTimes(s)
    ensures |Claimed(p, u, s)| == Max(0, Min(p.Count(u), |Buckets(u, s)|)) == |Buckets(u, Claimed(p, u, s))|
    decreases |s|
  {
    if s != {} {
      var m := Oldest(s);
      var rest := s - {m};
      assert rest + {m} == s;
      BucketRuleClaims(p, u, rest);
      ClaimedGrows(p, u, rest, m);
      BucketsGrow(u, rest, m);
      ClaimedCounts(p.Count(u), u, Claimed(p, u, rest), Buckets(u, rest), m);
    }
  }

  /** What a bucket rule claims is the newest of its bucket. */
  lemma ClaimedIsNewestOfItsBucket(p: Policy, u: Unit, s: set<Manifest>, m: Manifest, n: Manifest)
    requires m in Claimed(p, u, s) && n in s && n.Bucket(u) == m.Bucket(u)
    ensures n.at <= m.at
  {
    assert n in Newer(s, m) ==> n.Bucket(u) in Buckets(u, Newer(s, m));
  }

  lemma FloorCount(wanted: set<Manifest>, rest: set<Manifest>, floor: int)
    requires DistinctTimes(rest) && wanted !! rest
    ensures |wanted + Newest(rest, floor - |wanted|)| == Max(|wanted|, Min(|wanted| + |rest|, floor))
  {
    NewestCount(rest, floor - |wanted|);
  }

  lemma FloorCountIn(s: set<Manifest>, wanted: set<Manifest>, floor: int)
    requires DistinctTimes(s) && wanted <= s
    ensures FilledUp(s, wanted, floor) <= s
    ensures |FilledUp(s, wanted, floor)| == Max(|wanted|, Min(|s|, floor))
  {
    var rest := s - wanted;
    FloorCount(wanted, rest, floor);
  }

  /** The number kept: what the rules want, filled up to the floor as far as there are snapshots. */
  lemma KeptCount(p: Policy, now: int, s: set<Manifest>)
    requires DistinctTimes(s)
    ensures Kept(p, now, s) <= s
    ensures |Kept(p, now, s)| == Max(|Wanted(p, now, s)|, Min(|s|, p.minSnapshots))
  {
    FloorCountIn(s, Wanted(p, now, s), p.minSnapshots);
  }

  /** The floor adds the newest snapshots that no rule wants. */
  lemma FloorAddsTheNewest(p: Policy, now: int, s: set<Manifest>, m: Manifest, n: Manifest)
    requires DistinctTimes(s) && m in Kept(p, now, s) - Wanted(p, now, s)
    requires n in s - Wanted(p, now, s) && n.at > m.at
    ensures n in Kept(p, now, s)
  {
    var rest := s - Wanted(p, now, s);
    SubsetSize(Newer(rest, n), Newer(rest, m));
  }

  // ------------------------------ pruning early does not change later decisions

  /** History s, with newer snapshots added later. */
  ghost predicate LaterThan(added: set<Manifest>, s: set<Manifest>) {
    forall a, m | a in added && m in s :: a.at > m.at
  }

  /** Nothing is wanted with more snapshots before it, or later, that was not wanted with fewer, or earlier. */
  lemma WantedShrinks(p: Policy, now: int, now': int, s: set<Manifest>, t: set<Manifest>, m: Manifest)
    requires s <= t && now <= now' && WantedIn(p, now', t, m)
    ensures WantedIn(p, now, s, m)
  {
    assert Newer(s, m) <= Newer(t, m);
    SubsetSize(Newer(s, m), Newer(t, m));
    if u :| u in UNITS && ClaimedIn(p, u, t, m) {
      BucketsSubset(u, Newer(s, m), Newer(t, m));
      assert ClaimedIn(p, u, s, m);
    }
  }

  lemma BucketsSubset(u: Unit, s: set<Manifest>, t: set<Manifest>)
    requires s <= t
    ensures Buckets(u, s) <= Buckets(u, t) && |Buckets(u, s)| <= |Buckets(u, t)|
  {
    SubsetSize(Buckets(u, s), Buckets(u, t));
  }

  lemma NewerOfNewer(s: set<Manifest>, m: Manifest, n: Manifest)
    requires n in Newer(s, m)
    ensures Newer(Newer(s, m), n) == Newer(s, n)
  {
  }

  /** If y is not wanted by "last", then as many snapshots newer than y are. */
  lemma LastRuleIsFull(p: Policy, now: int, s: set<Manifest>, y: Manifest)
    requires DistinctTimes(s) && y in s && !WantedIn(p, now, s, y)
    ensures |Newer(s, y) * Wanted(p, now, s)| >= p.keepLast
  {
    var newer := Newer(s, y);
    NewestCount(newer, p.keepLast);
    forall n | n in Newest(newer, p.keepLast) ensures n in newer * Wanted(p, now, s) {
      NewerOfNewer(s, y, n);
    }
    SubsetSize(Newest(newer, p.keepLast), newer * Wanted(p, now, s));
  }

  /** If y is the newest of its bucket and not wanted, then the snapshots newer than y that are wanted fill
      as many buckets as the rule may open. */
  lemma BucketRuleIsFull(p: Policy, now: int, u: Unit, s: set<Manifest>, y: Manifest)
    requires DistinctTimes(s) && y in s && !WantedIn(p, now, s, y)
    requires u in UNITS && y.Bucket(u) !in Buckets(u, Newer(s, y))
    ensures |Buckets(u, Newer(s, y) * Wanted(p, now, s))| >= p.Count(u)
  {
    var newer := Newer(s, y);
    assert !ClaimedIn(p, u, s, y);
    BucketRuleClaims(p, u, newer);
    forall n | n in Claimed(p, u, newer) ensures n in newer * Wanted(p, now, s) {
      NewerOfNewer(s, y, n);
      assert ClaimedIn(p, u, s, n);
    }
    BucketsSubset(u, Claimed(p, u, newer), newer * Wanted(p, now, s));
  }

  /** The newest snapshot of s that shares a bucket with x. */
  lemma {:induction false} NewestWithBucket(u: Unit, s: set<Manifest>, x: Manifest) returns (y: Manifest)
    requires x in s
    ensures y in s && y.at >= x.at && y.Bucket(u) == x.Bucket(u)
    ensures y.Bucket(u) !in Buckets(u, Newer(s, y))
    decreases |Newer(s, x)|
  {
    y := x;
    if x.Bucket(u) in Buckets(u, Newer(s, x)) {
      var z :| z in Newer(s, x) && z.Bucket(u) == x.Bucket(u);
      assert Newer(s, z) <= Newer(s, x) - {z};
      SubsetSize(Newer(s, z), Newer(s, x) - {z});
      y := NewestWithBucket(u, s, z);
    }
  }

  /** Two histories: all of s, and a part of it that still has everything the rules wanted; both go on
      with the same newer snapshots. */
  ghost predicate PrunedHistory(p: Policy, now: int, s: set<Manifest>, kept: set<Manifest>, added: set<Manifest>) {
    DistinctTimes(s + added) && LaterThan(added, s) && Wanted(p, now, s) <= kept <= s
  }

  /** "Last" decides the same on the pruned history. */
  lemma LastRuleAgrees(p: Policy, now: int, s: set<Manifest>, kept: set<Manifest>, added: set<Manifest>, m: Manifest)
    requires PrunedHistory(p, now, s, kept, added) && m in kept + added
    requires |Newer(kept + added, m)| < p.keepLast
    ensures |Newer(s + added, m)| < p.keepLast
  {
    if y :| y in Newer(s, m) && y !in kept {
      assert !WantedIn(p, now, s, y);
      assert DistinctTimes(s);
      LastRuleIsFull(p, now, s, y);
      SubsetSize(Newer(s, y) * Wanted(p, now, s), Newer(kept + added, m));
    } else {
      assert Newer(s + added, m) == Newer(kept + added, m);
    }
  }

  /** A bucket that the pruned history has lost above m was beyond what the rule may open anyway. */
  lemma LostBucketMeansFull(p: Policy, now: int, u: Unit, s: set<Manifest>, kept: set<Manifest>, added: set<Manifest>,
                            m: Manifest, x: Manifest)
    requires PrunedHistory(p, now, s, kept, added) && m in kept + added && u in UNITS
    requires x in Newer(s + added, m) && x.Bucket(u) !in Buckets(u, Newer(kept + added, m))
    ensures |Buckets(u, Newer(kept + added, m))| >= p.Count(u)
  {
    assert x in added ==> x in Newer(kept + added, m);
    var y := NewestWithBucket(u, s, x);
    assert y in kept ==> y in Newer(kept + added, m);
    assert !WantedIn(p, now, s, y);
    assert DistinctTimes(s);
    BucketRuleIsFull(p, now, u, s, y);
    BucketsSubset(u, Newer(s, y) * Wanted(p, now, s), Newer(kept + added, m));
  }

  /** A bucket rule decides the same on the pruned history. */
  lemma BucketRuleAgrees(p: Policy, now: int, u: Unit, s: set<Manifest>, kept: set<Manifest>, added: set<Manifest>,
                         m: Manifest)
    requires PrunedHistory(p, now, s, kept, added) && m in kept + added && u in UNITS
    requires ClaimedIn(p, u, kept + added, m)
    ensures ClaimedIn(p, u, s + added, m)
  {
    var all, some := Newer(s + added, m), Newer(kept + added, m);
    forall x | x in all ensures x.Bucket(u) in Buckets(u, some) {
      if x.Bucket(u) !in Buckets(u, some) {
        LostBucketMeansFull(p, now, u, s, kept, added, m, x);
      }
    }
    assert Buckets(u, all) <= Buckets(u, some);
    SubsetSize(Buckets(u, all), Buckets(u, some));
  }

  /** The rules want the same snapshots whether or not the history was pruned before. */
  lemma RulesIgnorePruning(p: Policy, now: int, now': int, s: set<Manifest>, kept: set<Manifest>, added: set<Manifest>)
    requires PrunedHistory(p, now, s, kept, added) && now <= now'
    ensures Wanted(p, now', kept + added) == Wanted(p, now', s + added)
  {
    forall m ensures m in Wanted(p, now', kept + added) <==> m in Wanted(p, now', s + added) {
      if m in Wanted(p, now', s + added) {
        if m in s {
          WantedShrinks(p, now, now', s, s + added, m);
        }
        WantedShrinks(p, now', now', kept + added, s + added, m);
      }
      if m in Wanted(p, now', kept + added) {
        if |Newer(kept + added, m)| < p.keepLast {
          LastRuleAgrees(p, now, s, kept, added, m);
        } else if u :| u in UNITS && ClaimedIn(p, u, kept + added, m) {
          BucketRuleAgrees(p, now, u, s, kept, added, m);
        }
      }
    }
  }

  /** Applying the policy early, and later again with newer snapshots added, keeps exactly what one
      application to the whole history keeps; with a floor at least the number kept is the same. */
  lemma PruningEarlyChangesNothing(p: Policy, now: int, now': int, s: set<Manifest>, added: set<Manifest>)
    requires DistinctTimes(s + added) && LaterThan(added, s) && now <= now'
    ensures p.minSnapshots <= 0 ==> Kept(p, now', Kept(p, now, s) + added) == Kept(p, now', s + added)
    ensures |Kept(p, now', Kept(p, now, s) + added)| == |Kept(p, now', s + added)|
  {
    assert DistinctTimes(s);
    KeptCount(p, now, s);
    var kept := Kept(p, now, s);
    RulesIgnorePruning(p, now, now', s, kept, added);
    KeptCount(p, now', kept + added);
    KeptCount(p, now', s + added);
    SameCount(s, kept, added, |Wanted(p, now, s)|, p.minSnapshots);
  }

  /** A history that was cut down to the floor is as good as the whole for every later floor. */
  lemma SameCount(s: set<Manifest>, kept: set<Manifest>, added: set<Manifest>, wanted: nat, floor: int)
    requires kept <= s && s !! added && |kept| == Max(wanted, Min(|s|, floor))
    ensures kept == s || Min(|kept + added|, floor) == Min(|s + added|, floor) == floor
  {
    SubsetSize(kept, s);
  }

  /** Applying the policy to what it kept removes nothing. */
  lemma ApplyingTwiceRemovesNothing(p: Policy, now: int, s: set<Manifest>)
    requires DistinctTimes(s)
    ensures Kept(p, now, Kept(p, now, s)) == Kept(p, now, s)
  {
    var kept := Kept(p, now, s);
    KeptCount(p, now, s);
    assert kept + {} == kept && s + {} == s;
    RulesIgnorePruning(p, now, now, s, kept, {});
    KeptCount(p, now, kept);
    SubsetSize(Wanted(p, now, kept), kept);
    SubsetSize(Kept(p, now, kept), kept);
  }

  // ----------------------------------------------- the list and the set agree

  function Elements(o: seq<Manifest>): set<Manifest> {
    set m | m in o
  }

  ghost predicate StrictlyNewestFirst(o: seq<Manifest>) {
    forall i, j | 0 <= i < j < |o| :: o[i].at > o[j].at
  }

  /** Snapshots with distinct times: sorting newest first leaves one possible order. */
  lemma DistinctTimesSortStrictly(o: seq<Manifest>)
    requires NewestFirst(o) && DistinctTimes(Elements(o))
    requires forall i, j | 0 <= i < j < |o| :: o[i] != o[j]
    ensures StrictlyNewestFirst(o)
  {
  }

  lemma {:induction false} ElementsCount(o: seq<Manifest>)
    requires StrictlyNewestFirst(o)
    ensures |Elements(o)| == |o|
  {
    if o != [] {
      var n := |o| - 1;
      ElementsCount(o[..n]);
      assert Elements(o) == Elements(o[..n]) + {o[n]};
    }
  }

  lemma EarlierIsNewer(o: seq<Manifest>, i: nat)
    requires StrictlyNewestFirst(o) && i < |o|
    ensures Newer(Elements(o), o[i]) == Elements(o[..i]) && |Elements(o[..i])| == i
  {
    ElementsCount(o[..i]);
  }

  lemma {:induction false} BucketsOfElements(u: Unit, earlier: seq<Manifest>)
    ensures BucketsOf(u, earlier) == Buckets(u, Elements(earlier))
  {
    if earlier != [] {
      var n := |earlier| - 1;
      BucketsOfElements(u, earlier[..n]);
      assert Elements(earlier) == Elements(earlier[..n]) + {earlier[n]};
      BucketsGrow(u, Elements(earlier[..n]), earlier[n]);
    }
  }

  lemma {:induction false} TagReasonsExist(p: Policy, tags: seq<string>, m: Manifest)
    ensures TagReasons(tags, m) != [] <==> exists tag :: tag in tags && tag in m.tags
  {
    if tags != [] {
      TagReasonsExist(p, tags[1..], m);
      assert tags == [tags[0]] + tags[1..];
    }
  }

  lemma {:induction false} BucketReasonsExist(p: Policy, units: seq<Unit>, earlier: seq<Manifest>, m: Manifest)
    ensures BucketReasons(p, units, earlier, m) != [] <==> exists u | u in units :: BucketReason(p, u, earlier, m) != []
  {
    if units != [] {
      BucketReasonsExist(p, units[1..], earlier, m);
      assert units == [units[0]] + units[1..];
    }
  }

  /** A reason other than the floor is recorded exactly for the snapshots some rule wants. */
  lemma ReasonsMeanWanted(p: Policy, now: int, o: seq<Manifest>, i: nat)
    requires StrictlyNewestFirst(o) && i < |o|
    ensures ReasonsAt(p, now, o, i) != [] <==> o[i] in Wanted(p, now, Elements(o))
  {
    EarlierIsNewer(o, i);
    TagReasonsExist(p, p.keepTags, o[i]);
    BucketReasonsExist(p, UNITS, o[..i], o[i]);
    forall u ensures BucketReason(p, u, o[..i], o[i]) != [] <==> ClaimedIn(p, u, Elements(o), o[i]) {
      BucketsOfElements(u, o[..i]);
    }
  }

  ghost function WantedAmong(o: seq<Manifest>, wanted: set<Manifest>, n: nat): set<Manifest>
    requires n <= |o|
  {
    wanted * Elements(o[..n])
  }

  lemma OneMoreWanted(o: seq<Manifest>, wanted: set<Manifest>, n: nat)
    requires StrictlyNewestFirst(o) && n < |o|
    ensures |WantedAmong(o, wanted, n + 1)| == |WantedAmong(o, wanted, n)| + (if o[n] in wanted then 1 else 0)
  {
    if o[n] in wanted {
      assert WantedAmong(o, wanted, n + 1) == WantedAmong(o, wanted, n) + {o[n]};
    } else {
      assert WantedAmong(o, wanted, n + 1) == WantedAmong(o, wanted, n);
    }
  }

  lemma OneMoreCounts(o: seq<Manifest>, reasons: seq<seq<Reason>>, wanted: set<Manifest>, n: nat)
    requires StrictlyNewestFirst(o) && |reasons| == |o| && n < |o| && (reasons[n] != [] <==> o[n] in wanted)
    requires WantedBefore(reasons, n) == |WantedAmong(o, wanted, n)|
    ensures WantedBefore(reasons, n + 1) == |WantedAmong(o, wanted, n + 1)|
  {
    OneMoreWanted(o, wanted, n);
  }

  lemma {:induction false} WantedBeforeCounts(o: seq<Manifest>, reasons: seq<seq<Reason>>, wanted: set<Manifest>, n: nat)
    requires StrictlyNewestFirst(o) && |reasons| == |o| && n <= |o|
    requires forall i | 0 <= i < |o| :: reasons[i] != [] <==> o[i] in wanted
    ensures WantedBefore(reasons, n) == |WantedAmong(o, wanted, n)|
  {
    if n == 0 {
      assert WantedAmong(o, wanted, 0) == {};
    } else {
      WantedBeforeCounts(o, reasons, wanted, n - 1);
      OneMoreCounts(o, reasons, wanted, n - 1);
    }
  }

  lemma UnwantedBefore(o: seq<Manifest>, i: nat, wanted: set<Manifest>)
    requires StrictlyNewestFirst(o) && i < |o| && wanted <= Elements(o)
    ensures WantedAmong(o, wanted, |o|) == wanted
    ensures |Newer(Elements(o) - wanted, o[i])| == i - |WantedAmong(o, wanted, i)|
  {
    EarlierIsNewer(o, i);
    assert o[..|o|] == o;
    var before, part := Elements(o[..i]), WantedAmong(o, wanted, i);
    assert Newer(Elements(o) - wanted, o[i]) == before - part;
  }

  lemma RescuedAreTheNewest(o: seq<Manifest>, reasons: seq<seq<Reason>>, wanted: set<Manifest>, floor: int, i: nat)
    requires StrictlyNewestFirst(o) && |reasons| == |o| && i < |o| && wanted <= Elements(o)
    requires forall j | 0 <= j < |o| :: reasons[j] != [] <==> o[j] in wanted
    ensures Rescued(floor, reasons, i) <==> o[i] in Newest(Elements(o) - wanted, floor - |wanted|)
  {
    WantedBeforeCounts(o, reasons, wanted, i);
    WantedBeforeCounts(o, reasons, wanted, |o|);
    UnwantedBefore(o, i, wanted);
  }

  /** On snapshots with distinct times the list the method returns marks exactly the kept set, and a
      snapshot is kept exactly when a reason is recorded for it. */
  lemma DecisionsMarkTheKept(p: Policy, now: int, o: seq<Manifest>, i: nat)
    requires StrictlyNewestFirst(o) && i < |o|
    ensures Decisions(p, now, o)[i].manifest == o[i]
    ensures Decisions(p, now, o)[i].keep <==> Decisions(p, now, o)[i].reasons != []
    ensures Decisions(p, now, o)[i].keep <==> o[i] in Kept(p, now, Elements(o))
  {
    var wanted, reasons := Wanted(p, now, Elements(o)), AllReasons(p, now, o);
    forall j | 0 <= j < |o| ensures reasons[j] != [] <==> o[j] in wanted { ReasonsMeanWanted(p, now, o, j); }
    RescuedAreTheNewest(o, reasons, wanted, p.minSnapshots, i);
    assert o[i] in wanted <==> reasons[i] != [];
  }

  // ------------------------------------------------------------- validation

  predicate NoBuckets(p: Policy) {
    p.keepHourly == p.keepDaily == p.keepWeekly == p.keepMonthly == p.keepYearly == 0
  }

  /** Validation means to refuse a policy that keeps nothing. It lets one family through: a negative
      `keepWithin` with everything else off. */
  lemma WhatValidationMisses(p: Policy)
    requires Validate(p).Ok?
    ensures (forall now, s :: Kept(p, now, s) == {}) <==>
            p.keepWithin < 0 && p.keepLast == 0 && p.keepTags == [] && p.minSnapshots <= 0 && NoBuckets(p)
  {
    if !(p.keepWithin < 0 && p.keepLast == 0 && p.keepTags == [] && p.minSnapshots <= 0 && NoBuckets(p)) {
      KeepsSomething(p);
    }
  }

  /** A single snapshot that carries every tag the policy knows. */
  function Lone(p: Policy): Manifest {
    Manifest("", 0, p.keepTags, "", "", "", "", "")
  }

  lemma WantedWithoutBuckets(p: Policy)
    requires p.keepWithin > 0 || p.keepLast > 0 || p.keepTags != []
    ensures Lone(p) in Wanted(p, 0, {Lone(p)})
  {
    assert Newer({Lone(p)}, Lone(p)) == {};
    if p.keepTags != [] {
      assert p.keepTags[0] in Lone(p).tags && HasKeptTag(p, Lone(p));
    }
  }

  lemma WantedByABucket(p: Policy)
    requires Validate(p).Ok? && !NoBuckets(p)
    ensures Lone(p) in Wanted(p, 0, {Lone(p)})
  {
    var m := Lone(p);
    assert Newer({m}, m) == {};
    var u := if p.keepHourly > 0 then Hourly else if p.keepDaily > 0 then Daily else if p.keepWeekly > 0 then Weekly
             else if p.keepMonthly > 0 then Monthly else Yearly;
    assert u in [Hourly, Daily, Weekly, Monthly, Yearly];
    assert Buckets(u, {}) == {};
    assert ClaimedIn(p, u, {m}, m);
  }

  lemma KeptByTheFloor(p: Policy)
    requires p.minSnapshots > 0
    ensures Lone(p) in Kept(p, 0, {Lone(p)})
  {
    var m := Lone(p);
    assert Newer({m}, m) == {};
    if m !in Wanted(p, 0, {m}) {
      assert Wanted(p, 0, {m}) == {};
      assert {m} - {} == {m};
      assert m in Newest({m} - {}, p.minSnapshots);
    }
  }

  lemma KeepsSomething(p: Policy)
    requires Validate(p).Ok?
    requires p.keepWithin > 0 || p.keepLast > 0 || p.keepTags != [] || p.minSnapshots > 0 || !NoBuckets(p)
    ensures exists now, s :: Kept(p, now, s) != {}
  {
    if p.keepWithin > 0 || p.keepLast > 0 || p.keepTags != [] {
      WantedWithoutBuckets(p);
    } else if !NoBuckets(p) {
      WantedByABucket(p);
    } else {
      KeptByTheFloor(p);
    }
    assert Lone(p) in Kept(p, 0, {Lone(p)});
  }
}
