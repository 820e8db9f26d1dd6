/** The cache that keeps a few snapshot trees: what it drops before each request, and what a request leaves in it. */
module TreeCache {
  import opened Sums

  /** When each cached tree was last asked for. */
  type Uses = map<string, int>

  /** The trees that have not been idle too long. */
  function Recent(uses: Uses, now: int, idle: nat): Uses {
    map id | id in uses && now - uses[id] <= idle :: uses[id]
  }

  /** `kept` are trees of `uses`, and none that was dropped had been used later than one that was kept. */
  ghost predicate LeastRecentlyUsedWent(uses: Uses, kept: Uses) {
    && (forall id | id in kept :: id in uses && kept[id] == uses[id])
    && (forall gone, id | gone in uses && gone !in kept && id in kept :: uses[gone] <= uses[id])
  }

  lemma DroppingTheOldest(uses: Uses, kept: Uses, oldest: string)
    requires LeastRecentlyUsedWent(uses, kept) && oldest in kept
    requires forall id | id in kept :: kept[oldest] <= kept[id]
    ensures LeastRecentlyUsedWent(uses, kept - {oldest}) && |kept - {oldest}| == |kept| - 1
  {
    assert (kept - {oldest}).Keys == kept.Keys - {oldest};
    assert |kept - {oldest}| == |(kept - {oldest}).Keys|;
  }

  /** What is served without building: a tree that is there and not idle, if there is room for one more or another such
      tree was asked for longer ago. */
  ghost predicate Served(recent: Uses, maxTrees: nat, snapshot: string) {
    snapshot in recent && (|recent| < maxTrees || exists other :: other in recent && recent[other] < recent[snapshot])
  }

  /** No two trees were last asked for at the same moment. */
  ghost predicate DistinctTimes(uses: Uses) {
    forall a, b | a in uses && b in uses && a != b :: uses[a] != uses[b]
  }

  lemma TheOneThatWent(recent: Uses, kept: Uses, gone: string)
    requires LeastRecentlyUsedWent(recent, kept) && |kept| == |recent| - 1 && gone in recent && gone !in kept
    ensures kept.Keys == recent.Keys - {gone}
  {
    assert |kept.Keys| == |kept| && |recent.Keys| == |recent|;
    SubsetSize(kept.Keys, recent.Keys - {gone});
  }

  /** Dropping one of the least recently used keeps a tree if some other was used before it, and only if some other was
      not used after it. */
  lemma KeptIfAnotherIsOlder(recent: Uses, kept: Uses, snapshot: string)
    requires LeastRecentlyUsedWent(recent, kept) && |kept| == |recent| - 1 && snapshot in recent
    ensures (exists other :: other in recent && recent[other] < recent[snapshot]) ==> snapshot in kept
    ensures snapshot in kept ==> exists other :: other in recent && other != snapshot && recent[other] <= recent[snapshot]
  {
    if snapshot in kept {
      if recent.Keys <= kept.Keys {
        assert |kept.Keys| == |kept| && |recent.Keys| == |recent|;
        SubsetSize(recent.Keys, kept.Keys);
      }
      var gone :| gone in recent.Keys && gone !in kept.Keys;
      assert recent[gone] <= recent[snapshot];
    } else {
      TheOneThatWent(recent, kept, snapshot);
    }
  }

  lemma RecentIsNoMore(uses: Uses, now: int, idle: nat)
    ensures |Recent(uses, now, idle)| <= |uses|
  {
    var recent := Recent(uses, now, idle);
    assert |recent.Keys| == |recent| && |uses.Keys| == |uses|;
    SubsetSize(recent.Keys, uses.Keys);
  }

  class Cache {
    const maxTrees: nat
    const idle: nat

    var uses: Uses

    constructor (maxTreesOption: int, idleOption: int)
      ensures maxTrees == (if maxTreesOption <= 0 then 3 else maxTreesOption)
      ensures idle == if idleOption <= 0 then 300_000_000_000 else idleOption
      ensures uses == map[] && Valid()
    {
      maxTrees := if maxTreesOption <= 0 then 3 else maxTreesOption;
      idle := if idleOption <= 0 then 300_000_000_000 else idleOption;
      uses := map[];
    }

    ghost predicate Valid()
      reads this
    {
      0 < maxTrees && |uses| <= maxTrees
    }

    method Oldest() returns (oldest: string)
      requires uses != map[]
      ensures oldest in uses && forall id | id in uses :: uses[oldest] <= uses[id]
    {
      oldest :| oldest in uses;
      var left := uses.Keys - {oldest};
      while left != {}
        invariant left <= uses.Keys && oldest in uses
        invariant forall id | id in uses && id !in left :: uses[oldest] <= uses[id]
        decreases |left|
      {
        var id :| id in left;
        if uses[id] < uses[oldest] {
          oldest := id;
        }
        left := left - {id};
      }
    }

    /** Drops idle trees, then as many of the least recently used as it takes to make room for one more. */
    method Evict(now: int)
      requires Valid()
      modifies this
      ensures LeastRecentlyUsedWent(Recent(old(uses), now, idle), uses) && |uses| < maxTrees
      ensures |Recent(old(uses), now, idle)| < maxTrees ==> uses == Recent(old(uses), now, idle)
      ensures |Recent(old(uses), now, idle)| >= maxTrees ==> |uses| == maxTrees - 1
    {
      uses := Recent(uses, now, idle);
      ghost var recent := uses;
      while |uses| >= maxTrees
        invariant LeastRecentlyUsedWent(recent, uses) && (uses == recent || |uses| >= maxTrees - 1)
        invariant |recent| < maxTrees ==> uses == recent
        decreases |uses|
      {
        var oldest := Oldest();
        DroppingTheOldest(recent, uses, oldest);
        uses := uses - {oldest};
      }
    }

    /** A request. `built` says whether building the tree would succeed; a tree that is there is not built again, and
        one that cannot be built is not kept. */
    method Get(snapshot: string, built: bool, now: int) returns (ok: bool, fromCache: bool)
      requires Valid()
      modifies this
      ensures Valid() && ok == (fromCache || built)
      ensures ok ==> snapshot in uses && uses[snapshot] == now
      ensures !ok ==> snapshot !in uses
      ensures fromCache ==> snapshot in old(uses)
      ensures forall id | id in uses && id != snapshot :: id in old(uses) && uses[id] == old(uses)[id]
      ensures var recent := Recent(old(uses), now, idle);
              && (Served(recent, maxTrees, snapshot) ==> fromCache)
              && (fromCache ==> snapshot in recent)
              && (fromCache && |recent| >= maxTrees ==>
                    exists other :: other in recent && other != snapshot && recent[other] <= recent[snapshot])
              && (DistinctTimes(recent) ==> (fromCache <==> Served(recent, maxTrees, snapshot)))
    {
      ghost var recent := Recent(uses, now, idle);
      RecentIsNoMore(uses, now, idle);
      Evict(now);
      if |recent| >= maxTrees && snapshot in recent {
        KeptIfAnotherIsOlder(recent, uses, snapshot);
      }
      fromCache := snapshot in uses;
      ghost var before := uses;
      uses := uses[snapshot := now];
      assert uses.Keys == before.Keys + {snapshot};
      assert |uses| == |uses.Keys| && |before| == |before.Keys|;
      ok := fromCache || built;
      if !ok {
        uses := uses - {snapshot};
        assert uses.Keys <= before.Keys;
        assert |uses| == |uses.Keys| <= |before.Keys|;
      }
    }
  }

  /** A full cache makes room even for a tree it already holds: whenever the one asked for is the least recently used of
      them, it is dropped and built again. */
  method FullCacheDropsWhatIsAskedFor(cache: Cache, snapshot: string, built: bool, now: int)
    returns (ok: bool, fromCache: bool)
    requires cache.Valid() && |Recent(cache.uses, now, cache.idle)| == cache.maxTrees && snapshot in cache.uses
    requires forall id | id in Recent(cache.uses, now, cache.idle) && id != snapshot ::
               cache.uses[snapshot] < cache.uses[id]
    modifies cache
    ensures !fromCache && ok == built
  {
    ok, fromCache := cache.Get(snapshot, built, now);
  }
}
