/** Taking a snapshot of a tree that other programs go on changing: the stat-diff against the last complete snapshot,
    the reading of what it cannot vouch for, and the commit. */
module Backup {
  import opened Text
  import opened Index
  import opened Sums
  import ObjectStore
  import Scan

  /** How often a file that keeps changing is read. */
  const MAX_REREADS := 3

  // ------------------------------------------------------- the world outside

  /** What there is at a path between two changes. */
  datatype Version = Absent | Present(modTime: int, content: Bytes)

  datatype Trouble = NoTrouble | Denied | Broken

  /** Every way the tree can change under a run. Each path goes through numbered versions; `version` says which of them
      is there at a time, `torn` what a read returns that a change overlaps, and `trouble` whether an access at a time
      fails for another reason than that the file is gone. */
  datatype World = World(version: (string, nat) -> nat, file: (string, nat) -> Version,
                         torn: (string, nat) -> Bytes, trouble: (string, nat) -> Trouble, hash: Bytes -> Hash)
  {
    function At(path: string, time: nat): Version {
      file(path, version(path, time))
    }

    /** Changes happen in order, every write leaves stat data the path has not had before, and no content has the hash
        that is not set. */
    ghost predicate Lawful() {
      && (forall p: string, s: nat, t: nat | s <= t :: version(p, s) <= version(p, t))
      && (forall p: string, i: nat, j: nat | SameStat(file(p, i), file(p, j)) :: i == j)
      && (forall b: Bytes :: hash(b) != ZERO_HASH)
    }

    /** The path is the same, and can be read, from a time on. */
    ghost predicate Still(path: string, from: nat) {
      && At(path, from).Present?
      && forall t: nat | from <= t :: version(path, t) == version(path, from) && trouble(path, t).NoTrouble?
    }
  }

  predicate SameStat(a: Version, b: Version) {
    a.Present? && b.Present? && |a.content| == |b.content| && a.modTime == b.modTime
  }

  predicate HasStat(v: Version, size: nat, modTime: int) {
    v.Present? && |v.content| == size && v.modTime == modTime
  }

  /** The item describes the file that was at its path at a time. */
  predicate Describes(w: World, it: Scan.Item, time: nat) {
    HasStat(w.At(it.path, time), it.size, it.modTime)
  }

  /** The entry holds the hash of the content its stat data stand for. */
  ghost predicate Faithful(w: World, e: Entry) {
    exists i: nat :: HasStat(w.file(e.path, i), e.size, e.modTime) && e.hash == w.hash(w.file(e.path, i).content)
  }

  // ------------------------------------------------------------------ a run

  datatype Stats = Stats(files: nat, dirs: nat, symlinks: nat, totalBytes: nat,
                         vouched: nat, reread: nat, newObjects: nat, reused: nat)

  datatype Reading = Bytes(bytes: Bytes) | NotThere | Failed(why: Trouble)

  datatype Looking = Stat(size: nat, modTime: int) | Missing | Hidden(why: Trouble)

  /** What came of one attempt: what was stored, and what the file looked like afterwards. */
  datatype Attempted =
    | Gone
    | Unread(why: Trouble)
    | Taken(hash: Hash, length: nat, isNew: bool, size: nat, modTime: int)

  /** The end of the attempts, or the item as the next one is to find it. */
  datatype Progress = Done(result: Stored) | Again(it: Scan.Item)

  /** The file looked afterwards as the item says. */
  predicate Stable(it: Scan.Item, a: Attempted)
    requires a.Taken?
  {
    a.size == it.size && a.modTime == it.modTime
  }

  function Judged(it: Scan.Item, a: Attempted, atLast: bool): Progress {
    match a
    case Gone => Done(Vanished)
    case Unread(why) => Done(Trouble(why))
    case Taken(hash, length, _, size, modTime) =>
      if Stable(it, a) || atLast then Done(Stored(it.Entry().(hash := hash, size := length)))
      else Again(it.(size := size, modTime := modTime))
  }

  function StatsAfter(stats: Stats, it: Scan.Item, a: Attempted, atLast: bool): Stats {
    var counted := if a.Taken? && !Stable(it, a) then stats.(reread := stats.reread + 1) else stats;
    if a.Taken? && (Stable(it, a) || atLast) then Noted(counted, a.isNew) else counted
  }

  /** What an attempt gave, a stable one the content its stat data stand for. */
  ghost predicate Sound(w: World, it: Scan.Item, a: Attempted, last: nat, now: nat) {
    && (a.Taken? ==> HasStat(w.At(it.path, now), a.size, a.modTime))
    && (a.Taken? && Stable(it, a) ==>
          HasStat(w.At(it.path, last), a.length, it.modTime) && a.hash == w.hash(w.At(it.path, last).content))
    && (w.Still(it.path, last) ==> a.Taken? && Stable(it, a))
  }

  function WarningsAfter(warnings: seq<string>, it: Scan.Item, a: Attempted, atLast: bool): seq<string> {
    if a.Taken? && !Stable(it, a) && atLast then warnings + [it.path] else warnings
  }

  /** What one attempt comes to: another one at the file as it looks now, or the end. */
  ghost predicate Tried(w: World, it: Scan.Item, atLast: bool, last: nat, now: nat, p: Progress, was: Stats,
                        after: Stats)
  {
    match p
    case Again(next) =>
      && !atLast && Describes(w, next, now) && next == it.(size := next.size, modTime := next.modTime)
      && after == was.(reread := was.reread + 1) && !w.Still(it.path, last)
    case Done(r) =>
      && Accounted(after) == Accounted(was) + (if r.Stored? then 1 else 0) && SameByKind(was, after)
      && (w.Still(it.path, last) ==> r == Stored(it.Entry().(hash := w.hash(w.At(it.path, last).content))))
  }

  /** What is recorded is right unless that gave a warning. */
  ghost predicate Warned(w: World, it: Scan.Item, p: Progress, before: seq<string>, after: seq<string>) {
    && before <= after && (p.Again? ==> after == before)
    && (p.Done? && p.result.Stored? ==> p.result.entry.path == it.path && p.result.entry.kind.File?)
    && (p.Done? && p.result.Stored? && after == before ==> Faithful(w, p.result.entry))
  }

  /** The content recorded is in the store, and of a still file it is the one that was counted and added. */
  ghost predicate InStore(h: Hash, still: bool, was: Stats, now: Stats, stored: set<Hash>, storedNow: set<Hash>) {
    h in storedNow && (still ==> now == Noted(was, h !in stored) && storedNow == stored + {h})
  }

  lemma JudgedRight(w: World, it: Scan.Item, a: Attempted, atLast: bool, last: nat, now: nat, was: Stats,
                    before: seq<string>, stored: set<Hash>, storedNow: set<Hash>)
    requires it.kind.File? && Sound(w, it, a, last, now) && Describes(w, it, last) && AddedOne(stored, storedNow, a)
    ensures Tried(w, it, atLast, last, now, Judged(it, a, atLast), was, StatsAfter(was, it, a, atLast))
    ensures Warned(w, it, Judged(it, a, atLast), before, WarningsAfter(before, it, a, atLast))
    ensures w.Still(it.path, last) ==> WarningsAfter(before, it, a, atLast) == before
    ensures Judged(it, a, atLast).Done? && Judged(it, a, atLast).result.Stored? ==>
              InStore(Judged(it, a, atLast).result.entry.hash, w.Still(it.path, last), was,
                      StatsAfter(was, it, a, atLast), stored, storedNow)
  {
    if a.Taken? && Stable(it, a) {
      assert HasStat(w.file(it.path, w.version(it.path, last)), a.length, it.modTime);
    }
  }

  datatype Stored = Stored(entry: Entry) | Vanished | Trouble(why: Trouble)

  /** Files that are recorded: vouched for, stored anew or found stored. */
  function Accounted(stats: Stats): nat {
    stats.vouched + stats.newObjects + stats.reused
  }

  /** The same is counted as recorded, by kind, and the bytes of the files. */
  predicate SameByKind(was: Stats, now: Stats) {
    && now.files == was.files && now.dirs == was.dirs && now.symlinks == was.symlinks
    && now.totalBytes == was.totalBytes
  }

  /** One content more, which was new or was there. */
  function Noted(stats: Stats, isNew: bool): Stats {
    if isNew then stats.(newObjects := stats.newObjects + 1) else stats.(reused := stats.reused + 1)
  }

  predicate Vouches(paranoid: bool, previous: map<string, Entry>, it: Scan.Item) {
    !paranoid && it.path in previous && Scan.Unchanged(previous[it.path], it)
  }

  lemma OneObjectMore<V>(objects: map<Hash, V>, before: set<Hash>, h: Hash)
    requires objects.Keys == before + {h}
    ensures |objects| == |before| + if h in before then 0 else 1
  {
    assert |objects| == |objects.Keys|;
    if h in before {
      assert before + {h} == before;
    }
  }

  /** What the counters show after the items of a still tree, but for how many contents were new. */
  function StillStats(paranoid: bool, previous: map<string, Entry>, stats: Stats, items: seq<Scan.Item>): Stats {
    if items == [] then stats
    else
      var last := items[|items| - 1];
      StillStep(paranoid, previous, StillStats(paranoid, previous, stats, items[..|items| - 1]), last)
  }

  function StillStep(paranoid: bool, previous: map<string, Entry>, stats: Stats, it: Scan.Item): Stats {
    match it.kind
    case Dir => stats.(dirs := stats.dirs + 1)
    case Symlink => stats.(symlinks := stats.symlinks + 1)
    case File =>
      stats.(files := stats.files + 1, totalBytes := stats.totalBytes + it.size,
             vouched := stats.vouched + if Vouches(paranoid, previous, it) then 1 else 0)
  }

  /** The counters show one more item, and each new content is one more object. */
  predicate Tallied(paranoid: bool, previous: map<string, Entry>, it: Scan.Item, was: Stats, stored: nat, now: Stats,
                    storedNow: nat)
  {
    && ButContents(now) == StillStep(paranoid, previous, ButContents(was), it)
    && now.newObjects - storedNow == was.newObjects - stored
  }

  /** The same when the file has been stored and is about to be counted. */
  predicate TalliedFile(paranoid: bool, previous: map<string, Entry>, it: Scan.Item, was: Stats, stored: nat,
                        now: Stats, storedNow: nat)
  {
    && SameByKind(was, now) && now.reread == was.reread
    && now.vouched == was.vouched + (if Vouches(paranoid, previous, it) then 1 else 0)
    && now.newObjects - storedNow == was.newObjects - stored
  }

  function CountFile(stats: Stats, size: nat): Stats {
    stats.(files := stats.files + 1, totalBytes := stats.totalBytes + size)
  }

  function CountTaken(stats: Stats, r: Stored): Stats {
    if r.Stored? then CountFile(stats, r.entry.size) else stats
  }

  /** Every file counted is accounted for: vouched for, stored anew or found stored. */
  predicate Balanced(was: Stats, now: Stats) {
    now.files - Accounted(now) == was.files - Accounted(was)
  }

  lemma FileIsBalanced(was: Stats, now: Stats, r: Stored)
    requires SameByKind(was, now) && Accounted(now) == Accounted(was) + if r.Stored? then 1 else 0
    ensures Balanced(was, CountTaken(now, r))
  {
  }

  lemma FileIsTallied(paranoid: bool, previous: map<string, Entry>, it: Scan.Item, was: Stats, stored: nat, now: Stats,
                      storedNow: nat, r: Stored)
    requires it.kind.File? && TalliedFile(paranoid, previous, it, was, stored, now, storedNow)
    requires r.Stored? && r.entry.size == it.size
    ensures Tallied(paranoid, previous, it, was, stored, CountTaken(now, r), storedNow)
  {
  }

  /** The counters but for how many contents were new and how many were there. */
  function ButContents(stats: Stats): Stats {
    stats.(newObjects := 0, reused := 0)
  }

  /** What reading from one tick of the clock to the next gives: all of a content only if nothing changed between. */
  predicate ReadAt(w: World, path: string, t: nat, r: Reading) {
    && (r.Bytes? <==> w.trouble(path, t).NoTrouble? && w.At(path, t).Present?)
    && (r.Bytes? && w.version(path, t) == w.version(path, t + 1) ==> r.bytes == w.At(path, t).content)
    && (r.NotThere? ==> w.At(path, t).Absent?)
  }

  predicate SeenAt(w: World, path: string, t: nat, r: Looking) {
    && (r.Stat? ==> HasStat(w.At(path, t), r.size, r.modTime))
    && (!r.Stat? ==> !(w.trouble(path, t).NoTrouble? && w.At(path, t).Present?))
  }

  /** The content that was read was taken, if the look afterwards found the file. */
  predicate TookAt(w: World, path: string, t: nat, bytes: Bytes, a: Attempted) {
    && (a.Taken? ==> a.hash == w.hash(bytes) && a.length == |bytes|)
    && SeenAt(w, path, t, if a.Taken? then Stat(a.size, a.modTime) else Missing)
  }

  /** The store has what was taken, which was new or was there, and nothing else that is new. */
  predicate AddedOne(before: set<Hash>, after: set<Hash>, a: Attempted) {
    before <= after && (a.Taken? ==> after == before + {a.hash} && a.isNew == (a.hash !in before))
  }

  lemma FailureIsSound(w: World, it: Scan.Item, last: nat, t: nat, a: Attempted, now: nat)
    requires last <= t && !a.Taken? && !(w.trouble(it.path, t).NoTrouble? && w.At(it.path, t).Present?)
    ensures Sound(w, it, a, last, now)
  {
    assert w.Still(it.path, last) ==>
        w.version(it.path, t) == w.version(it.path, last) && w.trouble(it.path, t).NoTrouble?;
  }

  lemma TakenIsSound(w: World, it: Scan.Item, last: nat, t: nat, r: Reading, a: Attempted)
    requires w.Lawful() && last <= t && Describes(w, it, last)
    requires ReadAt(w, it.path, t, r) && r.Bytes? && TookAt(w, it.path, t + 2, r.bytes, a) && a.Taken?
    ensures Sound(w, it, a, last, t + 2)
  {
    if Stable(it, a) {
      NothingHappened(w, it.path, last, t + 2);
    }
    if w.Still(it.path, last) {
      assert w.version(it.path, t + 2) == w.version(it.path, last);
    }
  }

  lemma AttemptIsSound(w: World, it: Scan.Item, last: nat, t: nat, r: Reading, a: Attempted, now: nat)
    requires w.Lawful() && last <= t && Describes(w, it, last) && ReadAt(w, it.path, t, r)
    requires if r.Bytes? then now == t + 2 && TookAt(w, it.path, t + 2, r.bytes, a) else !a.Taken?
    ensures Sound(w, it, a, last, now)
  {
    if a.Taken? {
      TakenIsSound(w, it, last, t, r, a);
    } else {
      FailureIsSound(w, it, last, if r.Bytes? then t + 2 else t, a, now);
    }
  }

  /** The store is sound, and addresses content by the same hash. */
  ghost predicate Ready(w: World, store: ObjectStore.Store)
    reads store
  {
    store.Valid() && store.codec.Lossless() && store.codec.hash == w.hash
  }

  predicate Kept(before: map<Hash, Index.Bytes>, after: map<Hash, Index.Bytes>) {
    before.Keys <= after.Keys
  }

  class Runner {
    const world: World
    const paranoid: bool
    const previous: map<string, Entry>
    const store: ObjectStore.Store

    var clock: nat
    var entries: map<string, Entry>
    var stats: Stats
    var warnings: seq<string>

    constructor (world: World, paranoid: bool, previous: map<string, Entry>, store: ObjectStore.Store, clock: nat,
                 warnings: seq<string>)
      ensures this.world == world && this.paranoid == paranoid && this.previous == previous && this.store == store
      ensures this.clock == clock && entries == map[] && this.warnings == warnings
      ensures stats == Stats(0, 0, 0, 0, 0, 0, 0, 0)
    {
      this.world, this.paranoid, this.previous, this.store, this.clock := world, paranoid, previous, store, clock;
      entries, this.warnings, stats := map[], warnings, Stats(0, 0, 0, 0, 0, 0, 0, 0);
    }

    /** What was there before is known to be right, and stored. */
    ghost predicate Trusted()
      reads store
    {
      forall p | p in previous && previous[p].kind.File? ::
        previous[p].path == p && Faithful(world, previous[p]) && previous[p].hash in store.objects
    }

    method Put(bytes: Bytes, name: string) returns (isNew: bool)
      requires Ready(world, store)
      modifies store
      ensures Ready(world, store) && isNew == (world.hash(bytes) !in old(store.objects))
      ensures store.objects.Keys == old(store.objects.Keys) + {world.hash(bytes)}
    {
      var put := store.Put(ObjectStore.Source(bytes, ObjectStore.Never), name);
      isNew := put.value.isNew;
    }

    /** Opens, reads and closes. The read takes from one tick of the clock to the next. */
    method Read(path: string) returns (r: Reading)
      modifies this`clock
      ensures clock == old(clock) + 2
      ensures ReadAt(world, path, old(clock), r)
    {
      var v, now := world.At(path, clock), clock;
      clock := clock + 2;
      if v.Absent? {
        r := NotThere;
      } else if !world.trouble(path, now).NoTrouble? {
        r := Failed(world.trouble(path, now));
      } else if world.version(path, now) == world.version(path, now + 1) {
        r := Bytes(v.content);
      } else {
        r := Bytes(world.torn(path, now));
      }
    }

    method Lstat(path: string) returns (r: Looking)
      modifies this`clock
      ensures clock == old(clock) + 1
      ensures SeenAt(world, path, old(clock), r)
    {
      var v, now := world.At(path, clock), clock;
      clock := clock + 1;
      if v.Absent? {
        r := Missing;
      } else if !world.trouble(path, now).NoTrouble? {
        r := Hidden(world.trouble(path, now));
      } else {
        r := Stat(|v.content|, v.modTime);
      }
    }

    /** The index entry for one regular file, which is read only when the previous snapshot cannot vouch for it. */
    method StoreFile(it: Scan.Item, ghost seen: nat) returns (r: Stored)
      requires world.Lawful() && Ready(world, store) && Trusted() && it.kind.File?
      requires seen <= clock && Describes(world, it, seen)
      modifies this`clock, this`stats, this`warnings, store
      ensures Ready(world, store) && clock >= old(clock) && Kept(old(store.objects), store.objects)
      ensures old(warnings) <= warnings
      ensures r.Stored? ==> r.entry.path == it.path && r.entry.kind.File? && r.entry.hash in store.objects
      ensures r.Stored? && warnings == old(warnings) ==> Faithful(world, r.entry)
      ensures world.Still(it.path, seen) ==>
                warnings == old(warnings) &&
                r == Stored(it.Entry().(hash := world.hash(world.At(it.path, seen).content)))
      ensures Balanced(old(stats), CountTaken(stats, r))
      ensures world.Still(it.path, seen) ==>
                Tallied(paranoid, previous, it, old(stats), old(|store.objects|), CountTaken(stats, r), |store.objects|)
    {
      ghost var was, stored := stats, |store.objects|;
      r := VouchOrRead(it, seen);
      FileIsBalanced(was, stats, r);
      if world.Still(it.path, seen) {
        FileIsTallied(paranoid, previous, it, was, stored, stats, |store.objects|, r);
      }
    }

    method VouchOrRead(it: Scan.Item, ghost seen: nat) returns (r: Stored)
      requires world.Lawful() && Ready(world, store) && Trusted() && it.kind.File?
      requires seen <= clock && Describes(world, it, seen)
      modifies this`clock, this`stats, this`warnings, store
      ensures Ready(world, store) && clock >= old(clock) && Kept(old(store.objects), store.objects)
      ensures old(warnings) <= warnings
      ensures r.Stored? ==> r.entry.path == it.path && r.entry.kind.File? && r.entry.hash in store.objects
      ensures r.Stored? && warnings == old(warnings) ==> Faithful(world, r.entry)
      ensures world.Still(it.path, seen) ==>
                warnings == old(warnings) &&
                r == Stored(it.Entry().(hash := world.hash(world.At(it.path, seen).content)))
      ensures Accounted(stats) == Accounted(old(stats)) + if r.Stored? then 1 else 0
      ensures SameByKind(old(stats), stats)
      ensures world.Still(it.path, seen) ==>
                TalliedFile(paranoid, previous, it, old(stats), old(|store.objects|), stats, |store.objects|)
    {
      if !paranoid && it.path in previous && Scan.Unchanged(previous[it.path], it) {
        stats := stats.(vouched := stats.vouched + 1);
        var entry := it.Entry().(hash := previous[it.path].hash);
        TheOnlyHash(world, entry, seen);
        r := Stored(entry);
      } else {
        ghost var before := store.objects.Keys;
        r := ReadFile(it, seen);
        if world.Still(it.path, seen) {
          OneObjectMore(store.objects, before, r.entry.hash);
        }
      }
    }

    /** One reading and one look afterwards. If the look finds what the item describes, what was read is its content. */
    method Attempt(it: Scan.Item, ghost last: nat) returns (a: Attempted)
      requires world.Lawful() && Ready(world, store) && last <= clock && Describes(world, it, last)
      modifies this`clock, store
      ensures Ready(world, store) && Kept(old(store.objects), store.objects) && clock > old(clock)
      ensures AddedOne(old(store.objects).Keys, store.objects.Keys, a)
      ensures Sound(world, it, a, last, clock - 1)
    {
      ghost var start := clock;
      var reading := Read(it.path);
      match reading {
        case NotThere => a := Gone;
        case Failed(why) => a := Unread(why);
        case Bytes(bytes) => a := PutAndLook(it, bytes);
      }
      AttemptIsSound(world, it, last, start, reading, a, clock - 1);
    }

    method PutAndLook(it: Scan.Item, bytes: Bytes) returns (a: Attempted)
      requires Ready(world, store)
      modifies this`clock, store
      ensures Ready(world, store) && clock == old(clock) + 1
      ensures AddedOne(old(store.objects).Keys, store.objects.Keys, a)
      ensures TookAt(world, it.path, old(clock), bytes, a)
    {
      var isNew := Put(bytes, it.path);
      var after := Lstat(it.path);
      a := match after
           case Missing => Gone
           case Hidden(why) => Unread(why)
           case Stat(size, modTime) => Taken(world.hash(bytes), |bytes|, isNew, size, modTime);
    }

    /** Counts a content that is recorded. A file that never settled is a warning. */
    method NoteRead(path: string, stable: bool, isNew: bool)
      modifies this`stats, this`warnings
      ensures warnings == if stable then old(warnings) else old(warnings) + [path]
      ensures stats == Noted(if stable then old(stats) else old(stats).(reread := old(stats.reread) + 1), isNew)
    {
      if !stable {
        stats := stats.(reread := stats.reread + 1);
        warnings := warnings + [path];
      }
      stats := if isNew then stats.(newObjects := stats.newObjects + 1) else stats.(reused := stats.reused + 1);
    }

    /** Reads and looks again until the file holds still or there have been too many attempts. */
    method ReadFile(walked: Scan.Item, ghost seen: nat) returns (r: Stored)
      requires world.Lawful() && Ready(world, store) && walked.kind.File?
      requires seen <= clock && Describes(world, walked, seen)
      modifies this`clock, this`stats, this`warnings, store
      ensures Ready(world, store) && clock >= old(clock) && Kept(old(store.objects), store.objects)
      ensures old(warnings) <= warnings
      ensures r.Stored? ==> r.entry.path == walked.path && r.entry.kind.File? && r.entry.hash in store.objects
      ensures r.Stored? && warnings == old(warnings) ==> Faithful(world, r.entry)
      ensures world.Still(walked.path, seen) ==>
                warnings == old(warnings) &&
                r == Stored(walked.Entry().(hash := world.hash(world.At(walked.path, seen).content)))
      ensures Accounted(stats) == Accounted(old(stats)) + if r.Stored? then 1 else 0
      ensures SameByKind(old(stats), stats)
      ensures world.Still(walked.path, seen) ==>
                && stats == Noted(old(stats), r.entry.hash !in old(store.objects))
                && store.objects.Keys == old(store.objects.Keys) + {r.entry.hash}
    {
      var attempt := 0;
      ghost var last := seen;
      var p := Try(walked, attempt, last);
      while p.Again?
        invariant Ready(world, store) && clock > old(clock) && Kept(old(store.objects), store.objects)
        invariant p.Again? ==> attempt < MAX_REREADS - 1 && stats.(reread := 0) == old(stats).(reread := 0)
        invariant p.Again? ==> warnings == old(warnings) && Describes(world, p.it, clock - 1)
        invariant p.Again? ==> p.it == walked.(size := p.it.size, modTime := p.it.modTime)
        invariant p.Done? ==> Warned(world, walked, p, old(warnings), warnings)
        invariant p.Done? && p.result.Stored? ==> p.result.entry.hash in store.objects
        invariant p.Done? ==> Accounted(stats) == Accounted(old(stats)) + if p.result.Stored? then 1 else 0
        invariant p.Done? ==> SameByKind(old(stats), stats)
        invariant world.Still(walked.path, seen) ==>
                    && p == Done(Stored(walked.Entry().(hash := world.hash(world.At(walked.path, seen).content))))
                    && warnings == old(warnings)
                    && stats == Noted(old(stats), p.result.entry.hash !in old(store.objects))
                    && store.objects.Keys == old(store.objects.Keys) + {p.result.entry.hash}
        decreases MAX_REREADS - attempt
      {
        attempt, last := attempt + 1, clock - 1;
        p := Try(p.it, attempt, last);
      }
      r := p.result;
    }

    /** One attempt at a file, and what is made of it. */
    method Try(it: Scan.Item, attempt: nat, ghost last: nat) returns (p: Progress)
      requires world.Lawful() && Ready(world, store) && it.kind.File? && attempt < MAX_REREADS
      requires last <= clock && Describes(world, it, last)
      modifies this`clock, this`stats, this`warnings, store
      ensures Ready(world, store) && clock > old(clock) && Kept(old(store.objects), store.objects)
      ensures Tried(world, it, attempt >= MAX_REREADS - 1, last, clock - 1, p, old(stats), stats)
      ensures Warned(world, it, p, old(warnings), warnings)
      ensures world.Still(it.path, last) ==> warnings == old(warnings)
      ensures p.Done? && p.result.Stored? ==>
                InStore(p.result.entry.hash, world.Still(it.path, last), old(stats), stats,
                        old(store.objects).Keys, store.objects.Keys)
    {
      var a := Attempt(it, last);
      p := Judge(it, a, attempt >= MAX_REREADS - 1);
      JudgedRight(world, it, a, attempt >= MAX_REREADS - 1, last, clock - 1, old(stats), old(warnings),
                  old(store.objects).Keys, store.objects.Keys);
    }

    /** Records what was taken if the file held still or this was the last attempt. */
    method Judge(it: Scan.Item, a: Attempted, atLast: bool) returns (p: Progress)
      modifies this`stats, this`warnings
      ensures p == Judged(it, a, atLast)
      ensures warnings == WarningsAfter(old(warnings), it, a, atLast)
      ensures stats == StatsAfter(old(stats), it, a, atLast)
    {
      match a {
        case Gone => p := Done(Vanished);
        case Unread(why) => p := Done(Trouble(why));
        case Taken(hash, length, isNew, size, modTime) =>
          var stable := size == it.size && modTime == it.modTime;
          if stable || atLast {
            NoteRead(it.path, stable, isNew);
            p := Done(Stored(it.Entry().(hash := hash, size := length)));
          } else {
            stats := stats.(reread := stats.reread + 1);
            p := Again(it.(size := size, modTime := modTime));
          }
      }
    }

    /** Every entry is under its path, its content is stored, and it is faithful unless there is a warning. */
    ghost predicate Recorded()
      reads this`entries, this`warnings, store
    {
      forall p | p in entries ::
        && entries[p].path == p
        && (entries[p].kind.File? ==> entries[p].hash in store.objects)
        && (entries[p].kind.File? && warnings == [] ==> Faithful(world, entries[p]))
    }

    /** One phase of a run. It ends early only on an error that is not about a single file. */
    method Process(items: seq<Scan.Item>, ghost seen: map<string, nat>) returns (ok: bool)
      requires world.Lawful() && Ready(world, store) && Trusted() && Recorded() && Walked(world, items, seen, clock)
      modifies this`clock, this`entries, this`stats, this`warnings, store
      ensures Ready(world, store) && clock >= old(clock) && Kept(old(store.objects), store.objects)
      ensures old(warnings) <= warnings && Recorded()
      ensures AllStill(world, items, seen) ==>
                ok && warnings == old(warnings) && entries == StillEntries(world, old(entries), items, seen)
      ensures Balanced(old(stats), stats)
      ensures AllStill(world, items, seen) ==>
                && ButContents(stats) == StillStats(paranoid, previous, ButContents(old(stats)), items)
                && stats.newObjects - |store.objects| == old(stats.newObjects - |store.objects|)
    {
      ghost var recorded, was, stored, warned := entries, stats, |store.objects|, warnings;
      for n := 0 to |items|
        invariant Ready(world, store) && clock >= old(clock) && Kept(old(store.objects), store.objects)
        invariant old(warnings) <= warnings && Recorded()
        invariant Balanced(old(stats), stats)
        invariant AllStill(world, items, seen) ==> SoFar(items[..n], seen, recorded, was, stored, warned)
      {
        ok := ProcessNth(items, n, seen, recorded, was, stored, warned);
        if !ok {
          return;
        }
      }
      assert items[..|items|] == items;
      ok := true;
    }

    /** What has come of items of a still tree. */
    ghost predicate SoFar(items: seq<Scan.Item>, seen: map<string, nat>, recorded: map<string, Entry>, was: Stats,
                          stored: nat, warned: seq<string>)
      reads this`entries, this`stats, this`warnings, store
    {
      && warnings == warned && entries == StillEntries(world, recorded, items, seen)
      && ButContents(stats) == StillStats(paranoid, previous, ButContents(was), items)
      && stats.newObjects - |store.objects| == was.newObjects - stored
    }

    method ProcessNth(items: seq<Scan.Item>, n: nat, ghost seen: map<string, nat>, ghost recorded: map<string, Entry>,
                      ghost was: Stats, ghost stored: nat, ghost warned: seq<string>) returns (ok: bool)
      requires world.Lawful() && Ready(world, store) && Trusted() && Recorded() && n < |items|
      requires Walked(world, items, seen, clock)
      requires AllStill(world, items, seen) ==> SoFar(items[..n], seen, recorded, was, stored, warned)
      modifies this`clock, this`entries, this`stats, this`warnings, store
      ensures Ready(world, store) && clock >= old(clock) && Kept(old(store.objects), store.objects)
      ensures old(warnings) <= warnings && Recorded()
      ensures Balanced(old(stats), stats)
      ensures AllStill(world, items, seen) ==> ok && SoFar(items[..n + 1], seen, recorded, was, stored, warned)
    {
      var it := items[n];
      assert items[..n + 1][..n] == items[..n] && it in items;
      ok := ProcessOne(it, LookedAt(seen, it.path));
    }

    /** The cold phase, then what lies between quiescing and releasing. A run whose quiescer fails is given up. */
    method BothPhases(items: seq<Scan.Item>, quiesced: bool, released: bool, ghost seen: map<string, nat>)
      returns (ok: bool)
      requires world.Lawful() && Ready(world, store) && Trusted() && Recorded()
      requires Walked(world, items, seen, clock) && entries == map[]
      modifies this`clock, this`entries, this`stats, this`warnings, store
      ensures Ready(world, store) && Kept(old(store.objects), store.objects) && old(warnings) <= warnings && Recorded()
      ensures AllStill(world, items, seen) && quiesced && released ==>
                ok && warnings == old(warnings) && entries == StillIndex(world, items, seen)
    {
      var cold, hot := Scan.Split(items);
      SplitIsWalked(world, items, seen, clock);
      ok := Process(cold, seen);
      if ok {
        ok := quiesced;
        if ok {
          ok := Process(hot, seen);
          ok := ok && released;
        }
      }
    }

    method ProcessOne(it: Scan.Item, ghost seen: nat) returns (ok: bool)
      requires world.Lawful() && Ready(world, store) && Trusted() && Recorded()
      requires it.kind.File? ==> seen <= clock && Describes(world, it, seen)
      modifies this`clock, this`entries, this`stats, this`warnings, store
      ensures Ready(world, store) && clock >= old(clock) && Kept(old(store.objects), store.objects)
      ensures old(warnings) <= warnings && Recorded()
      ensures (it.kind.File? ==> world.Still(it.path, seen)) ==>
                ok && warnings == old(warnings) && entries == old(entries)[it.path := StillEntry(world, it, seen)]
      ensures Balanced(old(stats), stats)
      ensures (it.kind.File? ==> world.Still(it.path, seen)) ==>
                Tallied(paranoid, previous, it, old(stats), old(|store.objects|), stats, |store.objects|)
    {
      ok := true;
      if it.kind.Dir? {
        stats := stats.(dirs := stats.dirs + 1);
        entries := entries[it.path := it.Entry()];
      } else if it.kind.Symlink? {
        stats := stats.(symlinks := stats.symlinks + 1);
        entries := entries[it.path := it.Entry()];
      } else {
        ok := ProcessFile(it, seen);
      }
    }

    method ProcessFile(it: Scan.Item, ghost seen: nat) returns (ok: bool)
      requires world.Lawful() && Ready(world, store) && Trusted() && Recorded()
      requires it.kind.File? && seen <= clock && Describes(world, it, seen)
      modifies this`clock, this`entries, this`stats, this`warnings, store
      ensures Ready(world, store) && clock >= old(clock) && Kept(old(store.objects), store.objects)
      ensures old(warnings) <= warnings && Recorded()
      ensures world.Still(it.path, seen) ==>
                ok && warnings == old(warnings) && entries == old(entries)[it.path := StillEntry(world, it, seen)]
      ensures Balanced(old(stats), stats)
      ensures world.Still(it.path, seen) ==>
                Tallied(paranoid, previous, it, old(stats), old(|store.objects|), stats, |store.objects|)
    {
      var r := StoreFile(it, seen);
      ok := Take(it.path, r);
    }

    /** Records what came of a file. A failure that is not about the file alone ends the phase. */
    method Take(path: string, r: Stored) returns (ok: bool)
      requires Recorded() && (r.Stored? ==> r.entry.path == path && r.entry.kind.File? && r.entry.hash in store.objects)
      requires r.Stored? && warnings == [] ==> Faithful(world, r.entry)
      modifies this`entries, this`stats, this`warnings
      ensures Recorded() && old(warnings) <= warnings && (ok <==> r != Trouble(Broken))
      ensures r.Stored? ==> warnings == old(warnings) && entries == old(entries)[path := r.entry]
      ensures stats == CountTaken(old(stats), r)
    {
      ok := true;
      match r {
        case Vanished => warnings := warnings + [path];
        case Trouble(Broken) => ok := false;
        case Trouble(_) => warnings := warnings + [path];
        case Stored(entry) => Record(entry);
      }
    }

    method Record(entry: Entry)
      modifies this`stats, this`entries
      ensures entries == old(entries)[entry.path := entry]
      ensures stats == CountFile(old(stats), entry.size)
    {
      stats := stats.(files := stats.files + 1, totalBytes := stats.totalBytes + entry.size);
      entries := entries[entry.path := entry];
    }
  }

  function LookedAt(seen: map<string, nat>, path: string): nat {
    if path in seen then seen[path] else 0
  }

  /** The items are what a walk found: each file was as described when it was looked at. */
  predicate Walked(w: World, items: seq<Scan.Item>, seen: map<string, nat>, now: nat) {
    forall it | it in items && it.kind.File? ::
      LookedAt(seen, it.path) <= now && Describes(w, it, LookedAt(seen, it.path))
  }

  /** Nothing about the files changes, and all can be read, from when the walk looked at them. */
  ghost predicate AllStill(w: World, items: seq<Scan.Item>, seen: map<string, nat>) {
    forall it | it in items && it.kind.File? :: w.Still(it.path, LookedAt(seen, it.path))
  }

  /** What belongs into the index for an item of a still tree, whatever earlier snapshots say. */
  function StillEntry(w: World, it: Scan.Item, seen: nat): Entry {
    var v := w.At(it.path, seen);
    if it.kind.File? && v.Present? then it.Entry().(hash := w.hash(v.content)) else it.Entry()
  }

  /** The same for many items, on top of what is recorded already. */
  function StillEntries(w: World, recorded: map<string, Entry>, items: seq<Scan.Item>, seen: map<string, nat>)
    : map<string, Entry>
  {
    if items == [] then recorded
    else
      var rest, last := items[..|items| - 1], items[|items| - 1];
      StillEntries(w, recorded, rest, seen)[last.path := StillEntry(w, last, LookedAt(seen, last.path))]
  }

  /** The same stat data before and after mean the same version throughout. */
  lemma NothingHappened(w: World, path: string, from: nat, to: nat)
    requires w.Lawful() && from <= to && SameStat(w.At(path, from), w.At(path, to))
    ensures forall t | from <= t <= to :: w.version(path, t) == w.version(path, from)
  {
    forall t | from <= t <= to ensures w.version(path, t) == w.version(path, from) {
      assert w.version(path, from) <= w.version(path, t) <= w.version(path, to);
    }
  }

  /** Stat data stand for one content only. */
  lemma TheOnlyHash(w: World, e: Entry, seen: nat)
    requires w.Lawful() && Faithful(w, e) && HasStat(w.At(e.path, seen), e.size, e.modTime)
    ensures e.hash == w.hash(w.At(e.path, seen).content)
  {
    var i: nat :| HasStat(w.file(e.path, i), e.size, e.modTime) && e.hash == w.hash(w.file(e.path, i).content);
    assert SameStat(w.file(e.path, i), w.At(e.path, seen));
  }

  // ------------------------------------------------------------ the repository

  datatype Snapshot = Snapshot(instance: string, complete: bool, index: seq<Entry>)

  datatype Found = Nothing | Latest(id: string)

  function PathsOf(index: seq<Entry>): seq<string> {
    seq(|index|, i requires 0 <= i < |index| => index[i].path)
  }

  /** The index lists the entries, each once and in path order. */
  ghost predicate Lists(index: seq<Entry>, entries: map<string, Entry>) {
    && Ascending(PathsOf(index))
    && (forall e | e in index :: e.path in entries && entries[e.path] == e)
    && (forall p | p in entries :: entries[p].path == p && entries[p] in index)
  }

  lemma KeysOnce(keys: seq<string>, sorted: seq<string>)
    requires forall i, j | 0 <= i < j < |keys| :: keys[i] != keys[j]
    requires Ordered(sorted) && multiset(sorted) == multiset(keys)
    ensures Ascending(sorted) && Strings(sorted) == Strings(keys)
  {
    forall p ensures p in sorted <==> p in keys {
      assert p in multiset(sorted) <==> p in multiset(keys);
    }
    forall i, j | 0 <= i < j < |sorted| ensures sorted[i] != sorted[j] {
      if sorted[i] == sorted[j] {
        TwiceInside(sorted, i, j);
        OnceInside(keys, sorted[i]);
      }
    }
  }

  /** The keys of a map in order. */
  method SortedKeys<T>(m: map<string, T>) returns (sorted: seq<string>)
    ensures Ascending(sorted) && Strings(sorted) == m.Keys
  {
    var keys, left := [], m.Keys;
    while left != {}
      invariant left <= m.Keys && Strings(keys) == m.Keys - left
      invariant forall i, j | 0 <= i < j < |keys| :: keys[i] != keys[j]
      decreases |left|
    {
      var k :| k in left;
      assert k !in Strings(keys) && Strings(keys + [k]) == Strings(keys) + {k};
      keys, left := keys + [k], left - {k};
    }
    sorted := SortStrings(keys);
    KeysOnce(keys, sorted);
  }

  /** The entries as the index lists them. */
  method Commit(entries: map<string, Entry>) returns (index: seq<Entry>)
    requires forall p | p in entries :: entries[p].path == p
    ensures Lists(index, entries)
  {
    var paths := SortedKeys(entries);
    index := [];
    for n := 0 to |paths|
      invariant |index| == n && forall i | 0 <= i < n :: paths[i] in entries && index[i] == entries[paths[i]]
    {
      assert paths[n] in Strings(paths);
      index := index + [entries[paths[n]]];
    }
    assert PathsOf(index) == paths;
    forall p | p in entries ensures entries[p] in index {
      assert p in Strings(paths);
      var i :| 0 <= i < |paths| && paths[i] == p;
      assert index[i] == entries[p];
    }
  }

  /** Whoever commits the same entries commits the same index. */
  lemma {:induction false} OneIndexOnly(a: seq<Entry>, b: seq<Entry>, entries: map<string, Entry>)
    requires Lists(a, entries) && Lists(b, entries)
    ensures a == b
    decreases |entries|
  {
    SameEntries(a, b, entries);
    if a != [] {
      FirstIsLeast(a, b, entries);
      FirstIsLeast(b, a, entries);
      LessIsStrict(a[0].path, b[0].path);
      RestIsListed(a, entries);
      RestIsListed(b, entries);
      OneIndexOnly(a[1..], b[1..], entries - {a[0].path});
    }
  }

  lemma SameEntries(a: seq<Entry>, b: seq<Entry>, entries: map<string, Entry>)
    requires Lists(a, entries) && Lists(b, entries)
    ensures a == [] <==> b == []
  {
    if a != [] {
      assert entries[a[0].path] in b;
    }
    if b != [] {
      assert entries[b[0].path] in a;
    }
  }

  lemma FirstIsLeast(a: seq<Entry>, b: seq<Entry>, entries: map<string, Entry>)
    requires Lists(a, entries) && Lists(b, entries) && a != [] && b != []
    ensures a[0].path == b[0].path || Less(a[0].path, b[0].path)
    ensures a[0].path == b[0].path ==> a[0] == b[0]
  {
    assert entries[b[0].path] in a;
    var i :| 0 <= i < |a| && a[i] == b[0];
    assert PathsOf(a)[i] == b[0].path && PathsOf(a)[0] == a[0].path;
  }

  lemma RestIsListed(a: seq<Entry>, entries: map<string, Entry>)
    requires Lists(a, entries) && a != []
    ensures Lists(a[1..], entries - {a[0].path})
  {
    var rest := a[1..];
    forall i, j | 0 <= i < j < |rest| ensures Less(PathsOf(rest)[i], PathsOf(rest)[j]) {
      assert Less(PathsOf(a)[i + 1], PathsOf(a)[j + 1]);
    }
    forall e | e in rest ensures e.path != a[0].path {
      var i :| 0 <= i < |rest| && rest[i] == e;
      assert Less(PathsOf(a)[0], PathsOf(a)[i + 1]);
      LessIsStrict(e.path, e.path);
    }
    assert a == [a[0]] + rest;
  }

  class Repository {
    const world: World

    const store: ObjectStore.Store

    var snapshots: map<string, Snapshot>

    constructor (world: World, store: ObjectStore.Store)
      requires world.Lawful() && Ready(world, store)
      ensures Valid() && snapshots == map[] && this.world == world && this.store == store
    {
      this.world, this.store, snapshots := world, store, map[];
    }

    ghost predicate Sound(s: Snapshot)
      reads store
    {
      && Ascending(PathsOf(s.index))
      && (forall e | e in s.index && e.kind.File? :: e.hash in store.objects)
      && (s.complete ==> forall e | e in s.index && e.kind.File? :: Faithful(world, e))
    }

    /** What every run leaves behind: nothing dangles, and complete snapshots are faithful. */
    ghost predicate Valid()
      reads this, store
    {
      world.Lawful() && Ready(world, store) && forall id | id in snapshots :: Sound(snapshots[id])
    }

    /** The most recent complete snapshot of an instance; ids sort by time. */
    method LatestFor(instance: string) returns (r: Found)
      ensures match r
              case Latest(id) =>
                && id in snapshots && snapshots[id].instance == instance && snapshots[id].complete
                && forall other | other in snapshots && Less(id, other) ::
                     !(snapshots[other].instance == instance && snapshots[other].complete)
              case Nothing =>
                forall id | id in snapshots :: !(snapshots[id].instance == instance && snapshots[id].complete)
    {
      var all := SortedKeys(snapshots);
      assert forall id | id in snapshots :: id in Strings(all);
      for n := |all| downto 0
        invariant forall i | n <= i < |all| ::
                    !(snapshots[all[i]].instance == instance && snapshots[all[i]].complete)
        invariant forall i | 0 <= i < |all| :: all[i] in Strings(all)
      {
        if snapshots[all[n]].instance == instance && snapshots[all[n]].complete {
          forall other | other in snapshots && Less(all[n], other)
            ensures exists i :: n < i < |all| && all[i] == other
          {
            var i :| 0 <= i < |all| && all[i] == other;
            LessIsStrict(all[n], other);
          }
          return Latest(all[n]);
        }
      }
      r := Nothing;
    }

    method LoadParentIndex(parent: Found) returns (previous: map<string, Entry>)
      requires parent.Latest? ==> parent.id in snapshots
      ensures forall p | p in previous ::
                parent.Latest? && previous[p].path == p && previous[p] in snapshots[parent.id].index
      ensures parent.Latest? ==> forall e | e in snapshots[parent.id].index :: e.path in previous
    {
      previous := map[];
      if parent.Latest? {
        var index := snapshots[parent.id].index;
        for n := 0 to |index|
          invariant forall p | p in previous :: previous[p].path == p && previous[p] in index
          invariant forall i | 0 <= i < n :: index[i].path in previous
        {
          previous := previous[index[n].path := index[n]];
        }
      }
    }

    /** One run: scan, parent, cold phase, quiesce, hot phase, release, commit. `seen` says when the walk looked at
        each file. Without a manifest at the end nothing has changed but the object store. */
    method Run(instance: string, id: string, paranoid: bool, items: seq<Scan.Item>, scanWarnings: seq<string>,
               quiesced: bool, released: bool, clock: nat, ghost seen: map<string, nat>) returns (committed: bool)
      requires Valid() && Walked(world, items, seen, clock)
      modifies this, store
      ensures Valid() && Kept(old(store.objects), store.objects)
      ensures !committed ==> snapshots == old(snapshots)
      ensures committed ==> id !in old(snapshots) && id in snapshots && snapshots == old(snapshots)[id := snapshots[id]]
      ensures committed ==> snapshots[id].instance == instance && (scanWarnings != [] ==> !snapshots[id].complete)
      ensures AllStill(world, items, seen) && quiesced && released && id !in old(snapshots) ==>
                && committed && (snapshots[id].complete <==> scanWarnings == [])
                && Lists(snapshots[id].index, StillIndex(world, items, seen))
    {
      var parent := LatestFor(instance);
      var previous := LoadParentIndex(parent);
      var run := new Runner(world, paranoid, previous, store, clock, scanWarnings);
      committed := run.BothPhases(items, quiesced, released, seen);
      if committed && id !in snapshots {
        Publish(instance, id, run.warnings == [], run.entries);
      } else {
        committed := false;
      }
    }

    /** A new snapshot appears with its index. */
    method Publish(instance: string, id: string, complete: bool, entries: map<string, Entry>)
      requires Valid() && id !in snapshots
      requires forall p | p in entries ::
                 && entries[p].path == p
                 && (entries[p].kind.File? ==> entries[p].hash in store.objects)
                 && (entries[p].kind.File? && complete ==> Faithful(world, entries[p]))
      modifies this`snapshots
      ensures Valid() && id in snapshots && snapshots == old(snapshots)[id := snapshots[id]]
      ensures snapshots[id].instance == instance && snapshots[id].complete == complete
      ensures Lists(snapshots[id].index, entries)
    {
      var index := Commit(entries);
      snapshots := snapshots[id := Snapshot(instance, complete, index)];
    }
  }

  /** The cold items, then the hot ones. */
  function StillIndex(w: World, items: seq<Scan.Item>, seen: map<string, nat>): map<string, Entry> {
    StillEntries(w, StillEntries(w, map[], Scan.Tier(items, false), seen), Scan.Tier(items, true), seen)
  }

  lemma {:induction false} TierOf(items: seq<Scan.Item>, hot: bool)
    ensures forall it | it in Scan.Tier(items, hot) :: it in items
  {
    if items != [] {
      TierOf(items[..|items| - 1], hot);
    }
  }

  lemma SplitIsWalked(w: World, items: seq<Scan.Item>, seen: map<string, nat>, now: nat)
    requires Walked(w, items, seen, now)
    ensures forall hot :: Walked(w, Scan.Tier(items, hot), seen, now)
    ensures AllStill(w, items, seen) ==> forall hot :: AllStill(w, Scan.Tier(items, hot), seen)
  {
    TierOf(items, false);
    TierOf(items, true);
  }
}
