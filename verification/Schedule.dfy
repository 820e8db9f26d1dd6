/** When the daemon backs up and when it cleans up: recomputed after every wake-up, across restarts. */
module Schedule {
  import opened Wrappers

  /** An unusable interval or grace period in the settings is `None`. */
  datatype Settings = Settings(enabled: bool, interval: Option<nat>, grace: Option<nat>, housekeeping: bool)

  /** What the state file and the repository know about the last backup. */
  datatype Known = Known(lastBackup: Option<int>, lastSnapshot: Option<int>)

  const MAX_SLEEP := 300_000_000_000

  // ----------------------------------------------------------- the calendar

  /** The time of day housekeeping is set to, in its time zone: the day a moment belongs to, and the moment the set
      time comes on a day. */
  datatype Calendar = Calendar(day: int -> int, slot: int -> int)
  {
    ghost predicate Lawful() {
      && (forall d: int, e: int | d < e :: slot(d) < slot(e))
      && (forall t: int :: slot(day(t) - 1) < t < slot(day(t) + 1))
    }
  }

  /** The first time the set time comes strictly after a moment. */
  method NextHousekeeping(calendar: Calendar, now: int) returns (due: int)
    requires calendar.Lawful()
    ensures due > now
    ensures exists d :: calendar.slot(d) == due
    ensures forall d: int :: calendar.slot(d) > now ==> calendar.slot(d) >= due
  {
    var today := calendar.day(now);
    due := calendar.slot(today);
    if !(due > now) {
      due := calendar.slot(today + 1);
    }
    forall d: int | calendar.slot(d) > now ensures calendar.slot(d) >= due {
      assert d < today ==> d == today - 1 || calendar.slot(d) < calendar.slot(today - 1);
      assert d > today + 1 ==> calendar.slot(today + 1) < calendar.slot(d);
    }
  }

  // ---------------------------------------------------------------- backups

  /** The latest moment a backup is known to have begun. */
  function Latest(known: Known, fired: Option<int>): Option<int> {
    Later(Later(known.lastBackup, known.lastSnapshot), fired)
  }

  function Later(a: Option<int>, b: Option<int>): Option<int> {
    if a.None? then b else if b.None? || a.value >= b.value then a else b
  }

  /** No two moments closer than an interval. */
  ghost predicate Spaced(times: seq<int>, every: int) {
    forall i, j | 0 <= i < j < |times| :: times[i] + every <= times[j]
  }

  ghost predicate Rising(times: seq<int>) {
    forall i, j | 0 <= i < j < |times| :: times[i] < times[j]
  }

  lemma SpacedMore(times: seq<int>, every: nat, now: int)
    requires Spaced(times, every) && (times != [] ==> times[|times| - 1] + every <= now)
    ensures Spaced(times + [now], every)
  {
  }

  lemma RisingMore(times: seq<int>, next: int)
    requires Rising(times) && (times != [] ==> times[|times| - 1] < next)
    ensures Rising(times + [next])
  {
  }

  function Grace(settings: Settings): nat {
    if settings.grace.Some? then settings.grace.value else 0
  }

  /** What a process that has just started schedules. */
  function FirstBackup(settings: Settings, known: Known, now: int): Option<int> {
    if !settings.enabled || settings.interval.None? then None
    else
      var last := Later(known.lastBackup, known.lastSnapshot);
      var due := (if last.Some? then last.value else now) + settings.interval.value;
      var floor := now + Grace(settings);
      Some(if due < floor then floor else due)
  }

  /** What is on record when a process starts is recent enough for a fire it knows nothing of: nothing is on record at
      all, or something no older than the fire, or the grace period reaches to the end of the interval. */
  predicate RecentEnough(settings: Settings, known: Known, lastFire: int, now: int)
    requires settings.interval.Some?
  {
    var last := Later(known.lastBackup, known.lastSnapshot);
    || last.None? || last.value >= lastFire
    || now + Grace(settings) >= lastFire + settings.interval.value
  }

  /** Whether the first backup of a new process keeps the interval after the last fire of the one before depends on
      exactly that. */
  lemma RestartKeepsTheIntervalIff(settings: Settings, known: Known, lastFire: int, now: int)
    requires settings.enabled && settings.interval.Some? && lastFire <= now
    ensures FirstBackup(settings, known, now).value >= lastFire + settings.interval.value <==>
            RecentEnough(settings, known, lastFire, now)
  {
  }

  class Scheduler {
    const calendar: Calendar

    var started: int
    var fired: Option<int>
    var nextBackup: Option<int>
    var nextHousekeeping: Option<int>

    /** The moments backups were fired and the housekeeping slots that were, in this process and those before it. */
    ghost var fires: seq<int>
    ghost var slots: seq<int>
    ghost var clock: int

    constructor (calendar: Calendar, settings: Settings, known: Known, now: int)
      requires calendar.Lawful()
      ensures this.calendar == calendar && started == now && clock == now && fires == [] && slots == []
      ensures settings.interval.Some? ==> Valid(settings.interval.value)
      ensures fired == None && nextBackup == FirstBackup(settings, known, now)
    {
      this.calendar, started, fired, nextBackup, nextHousekeeping := calendar, now, None, None, None;
      fires, slots, clock := [], [], now;
      new;
      Recompute(settings, known, now);
    }

    ghost predicate Valid(every: nat)
      reads this
    {
      calendar.Lawful() && OnPace(every)
    }

    /** With an interval that does not change: fires are spaced, and what is due next keeps that so. */
    ghost predicate OnPace(every: nat)
      reads this
    {
      && Spaced(fires, every) && Rising(slots)
      && (fired.Some? ==> fires != [] && fired.value == fires[|fires| - 1])
      && (fired.None? && fires != [] ==> fires[|fires| - 1] <= started)
      && (nextBackup.Some? && fires != [] ==> fires[|fires| - 1] + every <= nextBackup.value)
      && (nextHousekeeping.Some? && slots != [] ==> slots[|slots| - 1] < nextHousekeeping.value)
      && (slots != [] ==> slots[|slots| - 1] <= clock) && (fires != [] ==> fires[|fires| - 1] <= clock)
    }

    /** Works out when each kind of run is next due. The backup's base is the last run, whoever knows about it; the
        grace period after the start and the present are floors. */
    method Recompute(settings: Settings, known: Known, now: int)
      requires calendar.Lawful() && now >= clock
      modifies this`nextBackup, this`nextHousekeeping, this`clock
      ensures clock == now
      ensures nextBackup.Some? <==> settings.enabled && settings.interval.Some?
      ensures nextBackup.Some? ==>
                var last := Latest(known, fired);
                var base := (if last.Some? then last.value else started) + settings.interval.value;
                && now <= nextBackup.value && base <= nextBackup.value
                && (settings.grace.Some? ==> started + settings.grace.value <= nextBackup.value)
                && (nextBackup.value == now || nextBackup.value == base ||
                    (settings.grace.Some? && nextBackup.value == started + settings.grace.value))
      ensures nextHousekeeping.Some? <==> settings.housekeeping
      ensures nextHousekeeping.Some? ==>
                && now < nextHousekeeping.value && (exists d :: calendar.slot(d) == nextHousekeeping.value)
                && forall d: int :: calendar.slot(d) > now ==> calendar.slot(d) >= nextHousekeeping.value
    {
      clock := now;
      nextBackup := None;
      if settings.enabled && settings.interval.Some? {
        var base := known.lastBackup;
        if known.lastSnapshot.Some? && (base.None? || known.lastSnapshot.value > base.value) {
          base := known.lastSnapshot;
        }
        if fired.Some? && (base.None? || fired.value > base.value) {
          base := fired;
        }
        var due := (if base.None? then started else base.value) + settings.interval.value;
        if settings.grace.Some? {
          var floor := started + settings.grace.value;
          if due < floor {
            due := floor;
          }
        }
        if due < now {
          due := now;
        }
        nextBackup := Some(due);
      }
      nextHousekeeping := None;
      if settings.housekeeping {
        var due := NextHousekeeping(calendar, now);
        nextHousekeeping := Some(due);
      }
    }

    /** How long to sleep: never past what is due, and never longer than five minutes. */
    method UntilNext(now: int) returns (d: int)
      ensures 0 <= d <= MAX_SLEEP
      ensures nextBackup.Some? && now <= nextBackup.value ==> now + d <= nextBackup.value
      ensures nextHousekeeping.Some? && now <= nextHousekeeping.value ==> now + d <= nextHousekeeping.value
      ensures d < MAX_SLEEP ==>
                || (nextBackup.Some? && nextBackup.value <= now + d)
                || (nextHousekeeping.Some? && nextHousekeeping.value <= now + d)
    {
      var soonest := nextBackup;
      if nextHousekeeping.Some? && (soonest.None? || nextHousekeeping.value < soonest.value) {
        soonest := nextHousekeeping;
      }
      if soonest.None? {
        return MAX_SLEEP;
      }
      d := soonest.value - now;
      if d < 0 {
        d := 0;
      }
      if d > MAX_SLEEP {
        d := MAX_SLEEP;
      }
    }

    /** Decides what is due now. What is fired is remembered at once, before any record of the run exists. */
    method FireDue(now: int) returns (backup: bool, housekeeping: bool)
      requires now >= clock
      modifies this`fired, this`fires, this`slots, this`clock
      ensures clock == now
      ensures backup <==> nextBackup.Some? && nextBackup.value <= now
      ensures housekeeping <==> nextHousekeeping.Some? && nextHousekeeping.value <= now
      ensures fired == (if backup then Some(now) else old(fired))
      ensures fires == (if backup then old(fires) + [now] else old(fires))
      ensures slots == if housekeeping then old(slots) + [nextHousekeeping.value] else old(slots)
    {
      clock := now;
      backup := nextBackup.Some? && nextBackup.value <= now;
      housekeeping := nextHousekeeping.Some? && nextHousekeeping.value <= now;
      if backup {
        fired := Some(now);
        fires := fires + [now];
      }
      if housekeeping {
        slots := slots + [nextHousekeeping.value];
      }
    }

    /** What is known is no reason to fire too early at a moment: this process, the state file and the list of snapshots
        taken together know of nothing, or of the last fire, or the moment and the grace period are late enough. */
    ghost predicate Tracked(settings: Settings, known: Known, now: int)
      requires settings.interval.Some?
      reads this`fires, this`fired, this`started
    {
      fires != [] && Latest(known, fired).Some? ==>
        var due := fires[|fires| - 1] + settings.interval.value;
        || fires[|fires| - 1] <= Latest(known, fired).value
        || due <= now || (settings.grace.Some? && due <= started + settings.grace.value)
    }

    /** Firing what is due keeps everything fired so far in order. What is due next is then out of date. */
    method FireKeepsPace(ghost every: nat, now: int)
      requires OnPace(every) && clock <= now
      modifies this`fired, this`fires, this`slots, this`clock
      ensures Spaced(fires, every) && Rising(slots) && clock == now
      ensures old(slots) <= slots
      ensures var due := old(nextBackup.Some? && nextBackup.value <= now);
              && fires == (if due then old(fires) + [now] else old(fires))
              && fired == (if due then Some(now) else old(fired))
      ensures fires != [] ==> fires[|fires| - 1] <= now
      ensures slots != [] ==> slots[|slots| - 1] <= now
    {
      ghost var firesBefore, slotsBefore := fires, slots;
      var backup, housekeeping := FireDue(now);
      if backup {
        SpacedMore(firesBefore, every, now);
      }
      if housekeeping {
        RisingMore(slotsBefore, nextHousekeeping.value);
      }
    }

    /** One turn of the loop when the timer goes off: fire, wait out the jitter, recompute. */
    method Wake(settings: Settings, known: Known, now: int, after: int)
      requires settings.interval.Some? && Valid(settings.interval.value) && clock <= now <= after
      requires Tracked(settings, known, after)
      modifies this`fired, this`fires, this`slots, this`clock, this`nextBackup, this`nextHousekeeping
      ensures Valid(settings.interval.value) && clock == after
      ensures old(slots) <= slots
      ensures var due := old(nextBackup.Some? && nextBackup.value <= now);
              && fires == (if due then old(fires) + [now] else old(fires))
              && fired == (if due then Some(now) else old(fired))
    {
      FireKeepsPace(settings.interval.value, now);
      Recompute(settings, known, after);
    }

    /** The settings were saved, or the status page asks. */
    method Refresh(settings: Settings, known: Known, now: int)
      requires settings.interval.Some? && Valid(settings.interval.value) && Tracked(settings, known, now) && clock <= now
      modifies this`clock, this`nextBackup, this`nextHousekeeping
      ensures Valid(settings.interval.value) && clock == now
    {
      Recompute(settings, known, now);
    }

    /** A new process knows nothing but what was recorded or is listed. Spacing holds across the restart exactly if
        that is recent enough. */
    method Restart(settings: Settings, known: Known, now: int)
      requires settings.interval.Some? && Valid(settings.interval.value) && clock <= now
      modifies this`started, this`fired, this`clock, this`nextBackup, this`nextHousekeeping
      ensures Valid(settings.interval.value) <==>
                !settings.enabled || fires == [] || RecentEnough(settings, known, fires[|fires| - 1], now)
      ensures fires != [] && RecentEnough(settings, known, fires[|fires| - 1], now) ==> Tracked(settings, known, now)
      ensures clock == now && started == now && fired == None && nextBackup == FirstBackup(settings, known, now)
    {
      started, fired := now, None;
      Recompute(settings, known, now);
      if settings.enabled && fires != [] {
        RestartKeepsTheIntervalIff(settings, known, fires[|fires| - 1], now);
      }
    }
  }

  // -------------------------------------------------------------- whole runs

  datatype Event =
    | Woken(now: int, after: int, known: Known)
    | Refreshed(now: int, known: Known)
    | Restarted(now: int, known: Known)

  /** When the loop is done with an event. */
  function After(event: Event): int {
    if event.Woken? then event.after else event.now
  }

  /** Events come in the order of the clock. */
  ghost predicate InTime(events: seq<Event>, clock: int) {
    events == [] || (clock <= events[0].now <= After(events[0]) && InTime(events[1..], After(events[0])))
  }

  /** What is known when the fires of earlier processes are on record, whatever else is. */
  function OnRecord(known: Known, before: Option<int>): Known {
    known.(lastBackup := Later(known.lastBackup, before))
  }

  /** The last fire of the processes before this one, if this one has fired nothing, is `before`. */
  ghost predicate Remembered(s: Scheduler, before: Option<int>)
    reads s
  {
    s.fires != [] && s.fired.None? ==> before == Some(s.fires[|s.fires| - 1])
  }

  method NewProcess(s: Scheduler, settings: Settings, known: Known, now: int, before: Option<int>)
    returns (before': Option<int>)
    requires settings.interval.Some? && s.Valid(settings.interval.value) && Remembered(s, before) && s.clock <= now
    modifies s
    ensures s.Valid(settings.interval.value) && Remembered(s, before') && s.clock == now
    ensures s.fires == old(s.fires) && s.slots == old(s.slots)
  {
    before' := if s.fired.Some? then s.fired else before;
    s.Restart(settings, OnRecord(known, before'), now);
  }

  method Turn(s: Scheduler, settings: Settings, event: Event, before: Option<int>)
    returns (before': Option<int>)
    requires settings.interval.Some? && s.Valid(settings.interval.value) && Remembered(s, before)
    requires InTime([event], s.clock)
    modifies s
    ensures s.Valid(settings.interval.value) && Remembered(s, before') && s.clock == After(event)
    ensures old(s.fires) <= s.fires && old(s.slots) <= s.slots
  {
    before' := before;
    match event {
      case Woken(now, after, known) => s.Wake(settings, OnRecord(known, before), now, after);
      case Refreshed(now, known) => s.Refresh(settings, OnRecord(known, before), now);
      case Restarted(now, known) => before' := NewProcess(s, settings, known, now, before);
    }
  }

  /** Over every run of the loop, any number of restarts included, two backups are never fired closer than the interval
      and no housekeeping slot is fired twice. Only what an earlier process fired has to be on record; of what the
      present one fired the state file and the repository may say anything. */
  method Run(s: Scheduler, settings: Settings, events: seq<Event>)
    requires settings.interval.Some? && s.Valid(settings.interval.value) && InTime(events, s.clock)
    requires s.fires == [] || s.fired.Some?
    modifies s
    ensures Spaced(s.fires, settings.interval.value) && Rising(s.slots)
    ensures old(s.fires) <= s.fires && old(s.slots) <= s.slots
  {
    var before := None;
    for n := 0 to |events|
      invariant s.Valid(settings.interval.value) && Remembered(s, before) && InTime(events[n..], s.clock)
      invariant old(s.fires) <= s.fires && old(s.slots) <= s.slots
    {
      assert events[n..][1..] == events[n + 1..];
      before := Turn(s, settings, events[n], before);
    }
  }

  method FiredOnce(calendar: Calendar, settings: Settings, known: Known, at: int) returns (s: Scheduler)
    requires calendar.Lawful() && settings.interval.Some? && FirstBackup(settings, known, at) == Some(at)
    ensures fresh(s) && s.fires == [at] && s.clock == at && s.Valid(settings.interval.value)
  {
    s := new Scheduler(calendar, settings, known, at);
    s.Wake(settings, known, at, at);
  }

  /** The least that fails: a restart between firing and recording, with an older run on record and no grace. The new
      process backs up at once. */
  method UnrecordedFireIsRepeated(calendar: Calendar, every: nat, older: int, lastFire: int, now: int)
    returns (s: Scheduler)
    requires calendar.Lawful() && older + every <= lastFire <= now < lastFire + every
    ensures s.fires == [lastFire] && s.started == now && s.nextBackup == Some(now)
  {
    var settings := Settings(true, Some(every), None, false);
    s := FiredOnce(calendar, settings, Known(Some(older), None), lastFire);
    s.Restart(settings, Known(Some(older), None), now);
  }
}
