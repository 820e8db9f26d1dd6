/** Holding the application still through its console, with a watchdog of its own that turns saving back on.

    One Quiesce call at a time, any number of Release calls and every watchdog that was ever armed run concurrently.
    A step is what one of them does while it holds the mutex, or one call on the console. */
module Quiesce {
  import opened Wrappers

  /** A line on the console. Whether it confirms a flush is up to the configured pattern. */
  datatype Line = Line(text: string, confirms: bool)

  /** Where the Quiesce call stands. */
  datatype QuiescePc =
    | NotCalled
    | CheckingStatus
    | Skipping                    // the application was found stopped
    | Draining
    | SwitchingOff
    | Holding                     // save-off was acknowledged
    | Arming
    | Flushing
    | Polling
    | Confirmed(line: nat)
    | Skipped
    | Failed

  /** Where a Release call stands. `claim` is the hold it took; `seen` counts the holds there had been when it began. */
  datatype ReleasePc =
    | Stopping(watchdog: nat, claim: Option<nat>, seen: nat)
    | Waiting(watchdog: nat, claim: Option<nat>, seen: nat)
    | Sending(hold: nat, seen: nat)
    | Returned(seen: nat)

  datatype WatchdogPc =
    | Armed(cancelled: bool)
    | Fired
    | Rescuing(hold: nat)
    | Gone(seen: Option<nat>)     // with the number of holds there had been when it looked

  datatype Owner = ByRelease(id: nat) | ByWatchdog(id: nat)

  /** A save-on that was sent. */
  datatype Attempt = Attempt(hold: nat, who: Owner, delivered: bool)

  /** How a console command fares. A call can fail although the command got through. */
  datatype Sent = Acknowledged | LostReply | LostCommand

  /** The application, as the console shows it: `cursor` is how much of the console has been fetched, `drained` how
      much had been when it was last drained, `stray` whether a save-off got through without an answer. */
  datatype Application = Application(saving: bool, console: seq<Line>, cursor: nat, drained: nat, stray: bool)
  {
    predicate Valid() {
      drained <= cursor <= |console|
    }
  }

  /** What has happened: the holds so far, who took each upon himself, every save-on sent, and how many of those there
      had been when the last save-off got through. */
  datatype Past = Past(holds: nat, owners: map<nat, Owner>, attempts: seq<Attempt>, off: Option<nat>)

  datatype State = State(held: bool, skipped: bool, stopWatchdog: Option<nat>,
                         quiesce: QuiescePc, releases: map<nat, ReleasePc>, watchdogs: map<nat, WatchdogPc>,
                         app: Application, past: Past)

  const INITIAL :=
    State(false, false, None, NotCalled, map[], map[], Application(true, [], 0, 0, false), Past(0, map[], [], None))

  /** What the Quiesce call does next. */
  datatype QuiesceAction =
    | Call(skipIfStopped: bool)
    | Status(answer: Option<bool>)
    | NoteSkipped
    | Drain(ok: bool)
    | SaveOff(sent: Sent)
    | Hold
    | Arm(watchdog: nat)
    | Flush(ok: bool)
    | Poll(ok: bool)
    | GiveUp

  datatype ReleaseAction = Start | Stop | Waited | SaveOn(sent: Sent)

  datatype WatchdogAction = Timer | NoticeStop | Look | Rescue(sent: Sent)

  datatype Action =
    | OfQuiesce(q: QuiesceAction)
    | OfRelease(release: nat, r: ReleaseAction)
    | OfWatchdog(watchdog: nat, w: WatchdogAction)
    | Print(line: Line)

  predicate Idle(pc: QuiescePc) {
    pc.NotCalled? || pc.Confirmed? || pc.Skipped? || pc.Failed?
  }

  predicate QuiesceEnabled(s: State, q: QuiesceAction) {
    match q
    case Call(_) => Idle(s.quiesce)
    case Status(_) => s.quiesce.CheckingStatus?
    case NoteSkipped => s.quiesce.Skipping?
    case Drain(_) => s.quiesce.Draining?
    case SaveOff(_) => s.quiesce.SwitchingOff?
    case Hold => s.quiesce.Holding?
    case Arm(w) => s.quiesce.Arming? && w !in s.watchdogs
    case Flush(_) => s.quiesce.Flushing?
    case Poll(_) => s.quiesce.Polling?
    case GiveUp => s.quiesce.Polling?
  }

  predicate ReleaseEnabled(s: State, id: nat, r: ReleaseAction) {
    match r
    case Start => id !in s.releases
    case Stop => id in s.releases && s.releases[id].Stopping?
    case Waited => id in s.releases && s.releases[id].Waiting? &&
                   s.releases[id].watchdog in s.watchdogs && s.watchdogs[s.releases[id].watchdog].Gone?
    case SaveOn(_) => id in s.releases && s.releases[id].Sending?
  }

  predicate WatchdogEnabled(s: State, id: nat, w: WatchdogAction) {
    && id in s.watchdogs
    && match w
       case Timer => s.watchdogs[id].Armed?
       case NoticeStop => s.watchdogs[id] == Armed(true)
       case Look => s.watchdogs[id].Fired?
       case Rescue(_) => s.watchdogs[id].Rescuing?
  }

  predicate Enabled(s: State, a: Action) {
    match a
    case OfQuiesce(q) => QuiesceEnabled(s, q)
    case OfRelease(id, r) => ReleaseEnabled(s, id, r)
    case OfWatchdog(id, w) => WatchdogEnabled(s, id, w)
    case Print(_) => true
  }

  /** The first line from `from` on that confirms a flush. */
  function Confirmation(console: seq<Line>, from: nat): (r: Option<nat>)
    requires from <= |console|
    ensures r.Some? ==> from <= r.value < |console| && console[r.value].confirms
    ensures r.None? ==> forall i | from <= i < |console| :: !console[i].confirms
    decreases |console| - from
  {
    if from == |console| then None
    else if console[from].confirms then Some(from)
    else Confirmation(console, from + 1)
  }

  function AfterClaim(claim: Option<nat>, seen: nat): ReleasePc {
    match claim
    case Some(h) => Sending(h, seen)
    case None => Returned(seen)
  }

  /** The first critical section of Release. */
  function BeginRelease(s: State, r: nat): State {
    var claim := if s.held then Some(s.past.holds) else None;
    s.(held := false, skipped := false, stopWatchdog := None,
       past := if s.held then s.past.(owners := s.past.owners[s.past.holds := ByRelease(r)]) else s.past,
       releases := s.releases[r := match s.stopWatchdog
                                   case Some(w) => Stopping(w, claim, s.past.holds)
                                   case None => AfterClaim(claim, s.past.holds)])
  }

  /** save-on as the application sees it, and as the history records it. */
  function AfterSaveOn(s: State, hold: nat, who: Owner, sent: Sent): State {
    var delivered := !sent.LostCommand?;
    s.(app := if delivered then s.app.(saving := true, stray := false) else s.app,
       past := s.past.(attempts := s.past.attempts + [Attempt(hold, who, delivered)]))
  }

  /** ... and save-off. */
  function AfterSaveOff(s: State, stray: bool): State {
    s.(app := s.app.(saving := false, stray := stray), past := s.past.(off := Some(|s.past.attempts|)))
  }

  function QuiesceNext(s: State, q: QuiesceAction): State
    requires QuiesceEnabled(s, q) && s.app.Valid()
  {
    match q
    case Call(skipIfStopped) =>
      if s.held || s.skipped then s.(quiesce := Failed)
      else s.(quiesce := if skipIfStopped then CheckingStatus else Draining)
    case Status(None) => s.(quiesce := Failed)
    case Status(Some(running)) => s.(quiesce := if running then Draining else Skipping)
    case NoteSkipped => s.(skipped := true, quiesce := Skipped)
    case Drain(false) => s.(quiesce := Failed)
    case Drain(true) => s.(app := s.app.(cursor := |s.app.console|, drained := |s.app.console|), quiesce := SwitchingOff)
    case SaveOff(Acknowledged) => AfterSaveOff(s, false).(quiesce := Holding)
    case SaveOff(LostReply) => AfterSaveOff(s, true).(quiesce := Failed)
    case SaveOff(LostCommand) => s.(quiesce := Failed)
    case Hold => s.(held := true, past := s.past.(holds := s.past.holds + 1), quiesce := Arming)
    case Arm(w) => s.(stopWatchdog := Some(w), watchdogs := s.watchdogs[w := Armed(false)], quiesce := Flushing)
    case Flush(ok) => s.(quiesce := if ok then Polling else Failed)
    case Poll(false) => s.(quiesce := Failed)
    case Poll(true) =>
      var found := Confirmation(s.app.console, s.app.cursor);
      s.(app := s.app.(cursor := |s.app.console|), quiesce := if found.Some? then Confirmed(found.value) else Polling)
    case GiveUp => s.(quiesce := Failed)
  }

  function ReleaseNext(s: State, id: nat, r: ReleaseAction): State
    requires ReleaseEnabled(s, id, r)
  {
    match r
    case Start => BeginRelease(s, id)
    case Stop =>
      var pc := s.releases[id];
      s.(releases := s.releases[id := Waiting(pc.watchdog, pc.claim, pc.seen)],
         watchdogs := if pc.watchdog in s.watchdogs && s.watchdogs[pc.watchdog].Armed?
                      then s.watchdogs[pc.watchdog := Armed(true)] else s.watchdogs)
    case Waited =>
      var pc := s.releases[id];
      s.(releases := s.releases[id := AfterClaim(pc.claim, pc.seen)])
    case SaveOn(sent) =>
      var pc := s.releases[id];
      AfterSaveOn(s, pc.hold, ByRelease(id), sent).(releases := s.releases[id := Returned(pc.seen)])
  }

  function WatchdogNext(s: State, id: nat, w: WatchdogAction): State
    requires WatchdogEnabled(s, id, w)
  {
    match w
    case Timer => s.(watchdogs := s.watchdogs[id := Fired])
    case NoticeStop => s.(watchdogs := s.watchdogs[id := Gone(None)])
    case Look =>
      s.(held := false,
         past := if s.held then s.past.(owners := s.past.owners[s.past.holds := ByWatchdog(id)]) else s.past,
         watchdogs := s.watchdogs[id := if s.held then Rescuing(s.past.holds) else Gone(Some(s.past.holds))])
    case Rescue(sent) =>
      var hold := s.watchdogs[id].hold;
      AfterSaveOn(s, hold, ByWatchdog(id), sent).(watchdogs := s.watchdogs[id := Gone(Some(hold))])
  }

  function Next(s: State, a: Action): State
    requires Enabled(s, a) && s.app.Valid()
  {
    match a
    case OfQuiesce(q) => QuiesceNext(s, q)
    case OfRelease(id, r) => ReleaseNext(s, id, r)
    case OfWatchdog(id, w) => WatchdogNext(s, id, w)
    case Print(line) => s.(app := s.app.(console := s.app.console + [line]))
  }

  // ------------------------------------------------------------- invariants

  /** Holds that somebody has taken it upon himself to end. */
  function Claims(s: State): int {
    if s.held then s.past.holds - 1 else s.past.holds
  }

  function ClaimOf(pc: ReleasePc): Option<nat> {
    match pc
    case Stopping(_, claim, _) => claim
    case Waiting(_, claim, _) => claim
    case Sending(hold, _) => Some(hold)
    case Returned(_) => None
  }

  /** The call is still to send save-on for the hold. */
  predicate Carries(s: State, who: Owner, hold: nat) {
    match who
    case ByRelease(r) => r in s.releases && ClaimOf(s.releases[r]) == Some(hold)
    case ByWatchdog(w) => w in s.watchdogs && s.watchdogs[w] == Rescuing(hold)
  }

  predicate Attempted(s: State, hold: nat) {
    exists i | 0 <= i < |s.past.attempts| :: s.past.attempts[i].hold == hold
  }

  predicate Delivered(s: State, hold: nat) {
    exists i | 0 <= i < |s.past.attempts| :: s.past.attempts[i].hold == hold && s.past.attempts[i].delivered
  }

  /** Every hold but the present one has an owner, and each owner either carries it or has attempted it, once. */
  ghost predicate Owned(s: State) {
    && (forall h: nat :: h in s.past.owners <==> 1 <= h <= Claims(s))
    && (forall who, h: nat | Carries(s, who, h) :: h in s.past.owners && s.past.owners[h] == who && !Attempted(s, h))
    && (forall h | h in s.past.owners :: Attempted(s, h) || Carries(s, s.past.owners[h], h))
  }

  ghost predicate Once(s: State) {
    && (forall i | 0 <= i < |s.past.attempts| ::
          s.past.attempts[i].hold in s.past.owners && s.past.owners[s.past.attempts[i].hold] == s.past.attempts[i].who)
    && (forall i, j | 0 <= i < j < |s.past.attempts| :: s.past.attempts[i].hold != s.past.attempts[j].hold)
  }

  predicate BeforeHold(pc: QuiescePc) {
    pc.CheckingStatus? || pc.Skipping? || pc.Draining? || pc.SwitchingOff? || pc.Holding?
  }

  ghost predicate Seen(s: State) {
    && (BeforeHold(s.quiesce) ==> !s.held) && (s.held ==> s.past.holds > 0)
    && (forall r | r in s.releases :: s.releases[r].seen <= Claims(s))
    && (forall w | w in s.watchdogs && s.watchdogs[w].Gone? && s.watchdogs[w].seen.Some? ::
          s.watchdogs[w].seen.value <= Claims(s))
  }

  /** A held application has a watchdog that nobody has stopped, from the moment one is armed. */
  ghost predicate Guarded(s: State) {
    && (s.stopWatchdog.Some? ==> s.stopWatchdog.value in s.watchdogs)
    && (s.held && !s.quiesce.Arming? ==>
          s.stopWatchdog.Some? && s.watchdogs[s.stopWatchdog.value] in {Armed(false), Fired})
    && (forall r | r in s.releases && (s.releases[r].Stopping? || s.releases[r].Waiting?) ::
          s.releases[r].watchdog in s.watchdogs && s.stopWatchdog != Some(s.releases[r].watchdog))
  }

  /** Why saving can be off. */
  ghost predicate Explained(s: State) {
    s.app.saving || s.app.stray || s.quiesce.Holding? || (s.past.holds > 0 && !Delivered(s, s.past.holds))
  }

  /** No save-off got through, or a save-on did after the last one. */
  predicate OnAgain(past: Past) {
    past.off.Some? ==> exists i :: past.off.value <= i < |past.attempts| && past.attempts[i].delivered
  }

  ghost predicate Accounted(s: State) {
    && (s.app.saving <==> OnAgain(s.past)) && (s.app.stray ==> !s.app.saving)
    && (s.past.off.Some? ==> s.past.off.value <= |s.past.attempts|)
    && (s.past.holds > 0 || s.quiesce.Holding? ==> s.past.off.Some?)
  }

  ghost predicate Followed(s: State) {
    && s.app.Valid()
    && (s.quiesce.Confirmed? ==>
          s.app.drained <= s.quiesce.line < |s.app.console| && s.app.console[s.quiesce.line].confirms)
  }

  ghost predicate Inv(s: State) {
    Owned(s) && Once(s) && Seen(s) && Guarded(s) && Explained(s) && Accounted(s) && Followed(s)
  }

  // ------------------------------------------------- one kind of step at a time

  lemma AttemptedAfter(s: State, hold: nat, who: Owner, sent: Sent, h: nat)
    ensures Attempted(AfterSaveOn(s, hold, who, sent), h) <==> h == hold || Attempted(s, h)
    ensures Delivered(AfterSaveOn(s, hold, who, sent), h) <==> (h == hold && !sent.LostCommand?) || Delivered(s, h)
  {
    var after := AfterSaveOn(s, hold, who, sent).past.attempts;
    assert after[|s.past.attempts|].hold == hold;
    if Attempted(s, h) {
      var i :| 0 <= i < |s.past.attempts| && s.past.attempts[i].hold == h;
      assert after[i].hold == h;
    }
    if Delivered(s, h) {
      var i :| 0 <= i < |s.past.attempts| && s.past.attempts[i].hold == h && s.past.attempts[i].delivered;
      assert after[i].hold == h && after[i].delivered;
    }
  }

  /** Nothing about holds changes unless one is taken, claimed or attempted. */
  predicate SameHolds(s: State, t: State) {
    t.held == s.held && t.past.holds == s.past.holds && t.past.owners == s.past.owners && t.past.attempts == s.past.attempts
  }

  lemma HoldIsOwned(s: State, t: State)
    requires Owned(s) && Seen(s) && !s.held && t.held && t.past.holds == s.past.holds + 1
    requires t.past.owners == s.past.owners && t.past.attempts == s.past.attempts
    requires t.releases == s.releases && t.watchdogs == s.watchdogs
    ensures Owned(t)
  {
    assert forall who, h: nat :: Carries(t, who, h) == Carries(s, who, h);
    assert forall h: nat :: Attempted(t, h) == Attempted(s, h);
  }

  lemma UnchangedIsOwned(s: State, t: State)
    requires Owned(s) && SameHolds(s, t)
    requires forall who, h: nat :: Carries(t, who, h) == Carries(s, who, h)
    ensures Owned(t)
  {
    assert forall h: nat :: Attempted(t, h) == Attempted(s, h);
  }

  lemma ClaimIsOwned(s: State, t: State, who: Owner)
    requires Owned(s) && Once(s) && Seen(s) && s.held && !t.held && t.past.holds == s.past.holds
    requires t.past.owners == s.past.owners[s.past.holds := who] && t.past.attempts == s.past.attempts
    requires forall other, h: nat :: Carries(t, other, h) == (Carries(s, other, h) || (other == who && h == s.past.holds))
    ensures Owned(t) && Once(t)
  {
    assert forall h: nat :: Attempted(t, h) == Attempted(s, h);
    assert !Attempted(s, s.past.holds);
    forall h | h in t.past.owners ensures Attempted(t, h) || Carries(t, t.past.owners[h], h) {
      assert h != s.past.holds ==> h in s.past.owners;
    }
  }

  lemma AttemptIsOwned(s: State, t: State, who: Owner, hold: nat, sent: Sent)
    requires Owned(s) && Once(s) && Carries(s, who, hold)
    requires t.held == s.held && t.past.holds == s.past.holds && t.past.owners == s.past.owners
    requires t.past.attempts == AfterSaveOn(s, hold, who, sent).past.attempts
    requires forall other, h: nat :: Carries(t, other, h) == (Carries(s, other, h) && other != who)
    ensures Owned(t) && Once(t)
  {
    forall h: nat ensures Attempted(t, h) <==> h == hold || Attempted(s, h) {
      AttemptedAfter(s, hold, who, sent, h);
      assert Attempted(t, h) == Attempted(AfterSaveOn(s, hold, who, sent), h);
    }
    forall h | h in t.past.owners ensures Attempted(t, h) || Carries(t, t.past.owners[h], h) {
      assert t.past.owners[h] == who && Carries(s, who, h) ==> h == hold;
    }
    forall i | 0 <= i < |s.past.attempts| ensures s.past.attempts[i].hold != hold {
      assert !Attempted(s, hold);
    }
  }

  /** What a step of Quiesce leaves alone. */
  predicate QuiesceEffect(s: State, q: QuiesceAction, t: State) {
    && t.releases == s.releases && t.past.owners == s.past.owners && t.past.attempts == s.past.attempts
    && t.held == (s.held || q.Hold?) && t.past.holds == (if q.Hold? then s.past.holds + 1 else s.past.holds)
    && t.watchdogs == (if q.Arm? then s.watchdogs[q.watchdog := Armed(false)] else s.watchdogs)
    && (!q.Arm? ==> t.stopWatchdog == s.stopWatchdog)
    && (!q.SaveOff? ==> t.past.off == s.past.off && t.app.saving == s.app.saving && t.app.stray == s.app.stray)
  }

  lemma SaveOffHasItsEffect(s: State, sent: Sent)
    requires QuiesceEnabled(s, SaveOff(sent)) && s.app.Valid()
    ensures QuiesceEffect(s, SaveOff(sent), QuiesceNext(s, SaveOff(sent)))
  {
  }

  lemma HoldingHasItsEffect(s: State, q: QuiesceAction)
    requires QuiesceEnabled(s, q) && s.app.Valid() && (q.Hold? || q.Arm?)
    ensures QuiesceEffect(s, q, QuiesceNext(s, q))
  {
  }

  lemma WaitingHasItsEffect(s: State, q: QuiesceAction)
    requires QuiesceEnabled(s, q) && s.app.Valid() && (q.Drain? || q.Flush? || q.Poll? || q.GiveUp?)
    ensures QuiesceEffect(s, q, QuiesceNext(s, q))
  {
  }

  lemma QuiesceHasItsEffect(s: State, q: QuiesceAction)
    requires QuiesceEnabled(s, q) && s.app.Valid()
    ensures QuiesceEffect(s, q, QuiesceNext(s, q))
  {
    if q.SaveOff? {
      SaveOffHasItsEffect(s, q.sent);
    } else if q.Hold? || q.Arm? {
      HoldingHasItsEffect(s, q);
    } else if q.Drain? || q.Flush? || q.Poll? || q.GiveUp? {
      WaitingHasItsEffect(s, q);
    }
  }

  lemma QuiesceKeepsOwned(s: State, t: State, q: QuiesceAction)
    requires Owned(s) && Once(s) && Seen(s) && QuiesceEnabled(s, q) && QuiesceEffect(s, q, t)
    ensures Owned(t) && Once(t)
  {
    if q.Hold? {
      HoldIsOwned(s, t);
    } else {
      UnchangedIsOwned(s, t);
    }
  }

  lemma ReleaseKeepsOwned(s: State, id: nat, r: ReleaseAction)
    requires Owned(s) && Once(s) && Seen(s) && ReleaseEnabled(s, id, r)
    ensures Owned(ReleaseNext(s, id, r)) && Once(ReleaseNext(s, id, r))
  {
    var t := ReleaseNext(s, id, r);
    match r {
      case Start =>
        if s.held {
          ClaimIsOwned(s, t, ByRelease(id));
        } else {
          UnchangedIsOwned(s, t);
        }
      case SaveOn(sent) =>
        AttemptIsOwned(s, t, ByRelease(id), s.releases[id].hold, sent);
      case _ =>
        UnchangedIsOwned(s, t);
    }
  }

  lemma WatchdogKeepsOwned(s: State, id: nat, w: WatchdogAction)
    requires Owned(s) && Once(s) && Seen(s) && WatchdogEnabled(s, id, w)
    ensures Owned(WatchdogNext(s, id, w)) && Once(WatchdogNext(s, id, w))
  {
    var t := WatchdogNext(s, id, w);
    match w {
      case Look =>
        if s.held {
          ClaimIsOwned(s, t, ByWatchdog(id));
        } else {
          UnchangedIsOwned(s, t);
        }
      case Rescue(sent) =>
        AttemptIsOwned(s, t, ByWatchdog(id), s.watchdogs[id].hold, sent);
      case _ =>
        UnchangedIsOwned(s, t);
    }
  }

  lemma QuiesceKeepsFollowed(s: State, q: QuiesceAction)
    requires Followed(s) && QuiesceEnabled(s, q)
    ensures Followed(QuiesceNext(s, q))
  {
  }

  lemma QuietlyGuarded(s: State, t: State, q: QuiesceAction)
    requires Seen(s) && Guarded(s) && QuiesceEnabled(s, q) && !q.Hold? && !q.Arm? && QuiesceEffect(s, q, t)
    requires BeforeHold(t.quiesce) ==> BeforeHold(s.quiesce) || !s.held
    ensures Seen(t) && Guarded(t)
  {
  }

  lemma HoldIsGuarded(s: State)
    requires Seen(s) && Guarded(s) && s.app.Valid() && QuiesceEnabled(s, Hold)
    ensures Seen(QuiesceNext(s, Hold)) && Guarded(QuiesceNext(s, Hold))
  {
  }

  lemma ArmIsGuarded(s: State, w: nat)
    requires Seen(s) && Guarded(s) && s.app.Valid() && QuiesceEnabled(s, Arm(w))
    ensures Seen(QuiesceNext(s, Arm(w))) && Guarded(QuiesceNext(s, Arm(w)))
  {
  }

  lemma QuiesceKeepsGuarded(s: State, q: QuiesceAction)
    requires Seen(s) && Guarded(s) && s.app.Valid() && QuiesceEnabled(s, q)
    ensures Seen(QuiesceNext(s, q)) && Guarded(QuiesceNext(s, q))
  {
    match q {
      case Hold => HoldIsGuarded(s);
      case Arm(w) => ArmIsGuarded(s, w);
      case _ =>
        QuiesceHasItsEffect(s, q);
        QuietlyGuarded(s, QuiesceNext(s, q), q);
    }
  }

  lemma ReleaseKeepsGuarded(s: State, id: nat, r: ReleaseAction)
    requires Inv(s) && ReleaseEnabled(s, id, r)
    ensures Seen(ReleaseNext(s, id, r)) && Guarded(ReleaseNext(s, id, r)) && Followed(ReleaseNext(s, id, r))
  {
  }

  lemma WatchdogKeepsGuarded(s: State, id: nat, w: WatchdogAction)
    requires Inv(s) && WatchdogEnabled(s, id, w)
    ensures Seen(WatchdogNext(s, id, w)) && Guarded(WatchdogNext(s, id, w)) && Followed(WatchdogNext(s, id, w))
  {
    if w.Rescue? {
      assert Carries(s, ByWatchdog(id), s.watchdogs[id].hold);
    }
  }

  lemma QuiesceKeepsExplained(s: State, t: State, q: QuiesceAction)
    requires Explained(s) && Owned(s) && Once(s) && Seen(s) && QuiesceEnabled(s, q) && QuiesceEffect(s, q, t)
    requires q.SaveOff? ==>
               && t.app.saving == (s.app.saving && q.sent.LostCommand?)
               && t.app.stray == (q.sent.LostReply? || (s.app.stray && q.sent.LostCommand?))
    requires t.quiesce.Holding? == (q.SaveOff? && q.sent.Acknowledged?)
    ensures Explained(t)
  {
    if q.Hold? {
      assert !Delivered(t, t.past.holds);
    } else {
      assert Delivered(t, t.past.holds) == Delivered(s, s.past.holds);
    }
  }

  lemma SaveOnKeepsExplained(s: State, hold: nat, who: Owner, sent: Sent, t: State)
    requires Explained(s) && t.quiesce == s.quiesce
    requires t.past == AfterSaveOn(s, hold, who, sent).past && t.app == AfterSaveOn(s, hold, who, sent).app
    ensures Explained(t)
  {
    AttemptedAfter(s, hold, who, sent, s.past.holds);
    assert Delivered(t, s.past.holds) == Delivered(AfterSaveOn(s, hold, who, sent), s.past.holds);
  }

  lemma ReleaseKeepsExplained(s: State, id: nat, r: ReleaseAction)
    requires Explained(s) && ReleaseEnabled(s, id, r)
    ensures Explained(ReleaseNext(s, id, r))
  {
    if r.SaveOn? {
      SaveOnKeepsExplained(s, s.releases[id].hold, ByRelease(id), r.sent, ReleaseNext(s, id, r));
    } else {
      assert ReleaseNext(s, id, r).past.attempts == s.past.attempts;
    }
  }

  lemma WatchdogKeepsExplained(s: State, id: nat, w: WatchdogAction)
    requires Explained(s) && WatchdogEnabled(s, id, w)
    ensures Explained(WatchdogNext(s, id, w))
  {
    if w.Rescue? {
      SaveOnKeepsExplained(s, s.watchdogs[id].hold, ByWatchdog(id), w.sent, WatchdogNext(s, id, w));
    } else {
      assert WatchdogNext(s, id, w).past.attempts == s.past.attempts;
    }
  }

  lemma SaveOnKeepsAccounted(s: State, hold: nat, who: Owner, sent: Sent, t: State)
    requires Accounted(s) && t.quiesce == s.quiesce
    requires t.past == AfterSaveOn(s, hold, who, sent).past && t.app == AfterSaveOn(s, hold, who, sent).app
    ensures Accounted(t)
  {
    var n := |s.past.attempts|;
    assert t.past.attempts[n].delivered == !sent.LostCommand?;
    if OnAgain(s.past) && s.past.off.Some? {
      var i :| s.past.off.value <= i < n && s.past.attempts[i].delivered;
      assert t.past.attempts[i].delivered;
    }
  }

  lemma QuiesceKeepsAccounted(s: State, q: QuiesceAction)
    requires Accounted(s) && s.app.Valid() && QuiesceEnabled(s, q)
    ensures Accounted(QuiesceNext(s, q))
  {
    QuiesceHasItsEffect(s, q);
  }

  lemma ReleaseKeepsAccounted(s: State, id: nat, r: ReleaseAction)
    requires Accounted(s) && ReleaseEnabled(s, id, r)
    ensures Accounted(ReleaseNext(s, id, r))
  {
    if r.SaveOn? {
      SaveOnKeepsAccounted(s, s.releases[id].hold, ByRelease(id), r.sent, ReleaseNext(s, id, r));
    }
  }

  lemma WatchdogKeepsAccounted(s: State, id: nat, w: WatchdogAction)
    requires Accounted(s) && WatchdogEnabled(s, id, w)
    ensures Accounted(WatchdogNext(s, id, w))
  {
    if w.Rescue? {
      SaveOnKeepsAccounted(s, s.watchdogs[id].hold, ByWatchdog(id), w.sent, WatchdogNext(s, id, w));
    }
  }

  // ------------------------------------------------------------------- runs

  lemma QuiesceKeepsInv(s: State, q: QuiesceAction)
    requires Inv(s) && QuiesceEnabled(s, q)
    ensures Inv(QuiesceNext(s, q))
  {
    QuiesceHasItsEffect(s, q);
    QuiesceKeepsOwned(s, QuiesceNext(s, q), q);
    QuiesceKeepsGuarded(s, q);
    QuiesceKeepsExplained(s, QuiesceNext(s, q), q);
    QuiesceKeepsAccounted(s, q);
    QuiesceKeepsFollowed(s, q);
  }

  lemma ReleaseKeepsInv(s: State, id: nat, r: ReleaseAction)
    requires Inv(s) && ReleaseEnabled(s, id, r)
    ensures Inv(ReleaseNext(s, id, r))
  {
    ReleaseKeepsOwned(s, id, r);
    ReleaseKeepsGuarded(s, id, r);
    ReleaseKeepsAccounted(s, id, r);
    ReleaseKeepsExplained(s, id, r);
  }

  lemma WatchdogKeepsInv(s: State, id: nat, w: WatchdogAction)
    requires Inv(s) && WatchdogEnabled(s, id, w)
    ensures Inv(WatchdogNext(s, id, w))
  {
    WatchdogKeepsOwned(s, id, w);
    WatchdogKeepsGuarded(s, id, w);
    WatchdogKeepsAccounted(s, id, w);
    WatchdogKeepsExplained(s, id, w);
  }

  lemma StepKeepsInv(s: State, a: Action)
    requires Inv(s) && Enabled(s, a)
    ensures Inv(Next(s, a))
  {
    match a {
      case OfQuiesce(q) => QuiesceKeepsInv(s, q);
      case OfRelease(id, r) => ReleaseKeepsInv(s, id, r);
      case OfWatchdog(id, w) => WatchdogKeepsInv(s, id, w);
      case Print(line) => UnchangedIsOwned(s, Next(s, a));
    }
  }

  /** The state after the actions, if each could be taken in turn. */
  function After(actions: seq<Action>): (r: Option<State>)
    ensures r.Some? ==> Inv(r.value)
  {
    if actions == [] then
      assert Inv(INITIAL);
      Some(INITIAL)
    else
      match After(actions[..|actions| - 1])
      case None => None
      case Some(s) =>
        var a := actions[|actions| - 1];
        if !Enabled(s, a) then None
        else
          StepKeepsInv(s, a);
          Some(Next(s, a))
  }

  ghost predicate Reachable(s: State) {
    exists actions :: After(actions) == Some(s)
  }

  // ---------------------------------------------------------- what it amounts to

  /** Every hold that was released or timed out is ended exactly once: it has one owner, a Release or a watchdog, and
      that owner either has sent the only save-on for it or is about to. */
  lemma EveryHoldIsEndedOnce(s: State, h: nat)
    requires Reachable(s) && 1 <= h <= Claims(s)
    ensures h in s.past.owners
    ensures Attempted(s, h) != Carries(s, s.past.owners[h], h)
    ensures forall i, j | 0 <= i < |s.past.attempts| && 0 <= j < |s.past.attempts| &&
              s.past.attempts[i].hold == h && s.past.attempts[j].hold == h :: i == j
    ensures forall i | 0 <= i < |s.past.attempts| && s.past.attempts[i].hold == h ::
              s.past.attempts[i].who == s.past.owners[h]
    ensures forall who | Carries(s, who, h) :: who == s.past.owners[h]
  {
    var actions :| After(actions) == Some(s);
  }

  /** Once a Release that began after a hold has returned, or a watchdog has looked, that hold is being ended: save-on
      has been sent for it exactly if its owner no longer has it to send. */
  lemma ReleaseOrTimerEndsTheHold(s: State, h: nat, id: nat)
    requires Reachable(s) && 1 <= h
    requires (id in s.releases && s.releases[id].Returned? && h <= s.releases[id].seen) ||
             (id in s.watchdogs && s.watchdogs[id].Gone? && s.watchdogs[id].seen.Some? && h <= s.watchdogs[id].seen.value)
    ensures h <= Claims(s) && h in s.past.owners
    ensures Attempted(s, h) <==> !Carries(s, s.past.owners[h], h)
  {
    var actions :| After(actions) == Some(s);
  }

  /** No call is under way that could still turn saving on. */
  ghost predicate AtRest(s: State) {
    && Idle(s.quiesce) && !s.held
    && forall who, h: nat :: !Carries(s, who, h)
  }

  /** Saving is off at rest exactly if a save-off got through and no save-on did since: if that was not the save-off of
      a call that failed, then the one save-on for the last hold was lost. */
  lemma SavingIsOffIff(s: State)
    requires Reachable(s) && AtRest(s)
    ensures !s.app.saving <==> !OnAgain(s.past)
    ensures s.app.stray ==> !s.app.saving
    ensures !s.app.saving && !s.app.stray ==>
              exists i :: 0 <= i < |s.past.attempts| && s.past.attempts[i].hold == s.past.holds &&
                          !s.past.attempts[i].delivered
    ensures s.past.holds <= 1 ==>
              (!s.app.saving <==> s.app.stray || (s.past.holds == 1 && !Delivered(s, 1)))
  {
    var actions :| After(actions) == Some(s);
    if !s.app.saving && !s.app.stray {
      EveryHoldIsEndedOnce(s, s.past.holds);
      var i :| 0 <= i < |s.past.attempts| && s.past.attempts[i].hold == s.past.holds;
      assert !s.past.attempts[i].delivered;
    }
    if s.past.holds == 1 && OnAgain(s.past) {
      var i :| s.past.off.value <= i < |s.past.attempts| && s.past.attempts[i].delivered;
      assert s.past.attempts[i].hold == 1;
    }
  }

  lemma {:induction false} FewAttempts(attempts: seq<Attempt>, n: nat)
    requires forall i, j | 0 <= i < j < |attempts| :: attempts[i].hold != attempts[j].hold
    requires forall i | 0 <= i < |attempts| :: 1 <= attempts[i].hold <= n
    ensures |attempts| <= n
  {
    if attempts != [] {
      assert 1 <= attempts[0].hold <= n;
    }
    if n > 0 {
      if i :| 0 <= i < |attempts| && attempts[i].hold == n {
        FewAttempts(attempts[..i] + attempts[i + 1..], n - 1);
      } else {
        FewAttempts(attempts, n - 1);
      }
    }
  }

  /** While the application is held saving is off, unless the owner of an earlier hold was late: his save-on got
      through after the save-off. Nobody can be late if every earlier hold had its save-on sent by then. */
  lemma HeldIsOffUnlessSomebodyIsLate(s: State)
    requires Reachable(s) && s.held
    ensures s.past.off.Some? && s.past.off.value < s.past.holds
    ensures s.app.saving <==>
            exists i :: s.past.off.value <= i < |s.past.attempts| && s.past.attempts[i].delivered
    ensures forall i | 0 <= i < |s.past.attempts| :: s.past.attempts[i].hold < s.past.holds
    ensures s.past.off.value == s.past.holds - 1 ==> !s.app.saving
  {
    var actions :| After(actions) == Some(s);
    FewAttempts(s.past.attempts, s.past.holds - 1);
  }

  /** While the application is held, the watchdog in charge has not been stopped, so its timer or its look can come. */
  lemma HeldIsGuarded(s: State)
    requires Reachable(s) && s.held && !s.quiesce.Arming?
    ensures s.stopWatchdog.Some?
    ensures Enabled(s, OfWatchdog(s.stopWatchdog.value, Timer)) || Enabled(s, OfWatchdog(s.stopWatchdog.value, Look))
  {
    var actions :| After(actions) == Some(s);
  }

  /** A Quiesce that was not skipped succeeds only on a confirming line that was printed after the drain. */
  lemma ConfirmedByANewLine(s: State)
    requires Reachable(s) && s.quiesce.Confirmed?
    ensures s.app.drained <= s.quiesce.line < |s.app.console| && s.app.console[s.quiesce.line].confirms
  {
    var actions :| After(actions) == Some(s);
  }

  // ------------------------------------------------------------- what is not so

  lemma Then(s: State, a: Action) returns (t: State)
    requires Reachable(s) && s.app.Valid() && Enabled(s, a)
    ensures t == Next(s, a) && Reachable(t) && t.app.Valid()
  {
    var actions :| After(actions) == Some(s);
    assert (actions + [a])[..|actions|] == actions;
    assert After(actions + [a]) == Some(Next(s, a));
    t := Next(s, a);
  }

  lemma UpToSaveOff() returns (s: State)
    ensures Reachable(s)
    ensures s == INITIAL.(quiesce := SwitchingOff)
  {
    s := INITIAL;
    assert After([]) == Some(s);
    s := Then(s, OfQuiesce(Call(false)));
    s := Then(s, OfQuiesce(Drain(true)));
  }

  /** A save-off that gets through although the call fails leaves saving off, with no hold that a Release or a
      watchdog would end. */
  lemma LostReplyLeavesSavingOff() returns (s: State)
    ensures Reachable(s) && AtRest(s) && !s.app.saving && s.past.holds == 0 && s.past.attempts == []
    ensures 0 in s.releases && s.releases[0].Returned?
  {
    s := UpToSaveOff();
    s := Then(s, OfQuiesce(SaveOff(LostReply)));
    s := Then(s, OfRelease(0, Start));
  }

  lemma UpToHold() returns (s: State)
    ensures Reachable(s)
    ensures s == INITIAL.(quiesce := Arming, held := true, app := Application(false, [], 0, 0, false),
                          past := Past(1, map[], [], Some(0)))
  {
    s := UpToSaveOff();
    s := Then(s, OfQuiesce(SaveOff(Acknowledged)));
    s := Then(s, OfQuiesce(Hold));
  }

  /** A second Release can return although the first has not sent save-on yet. */
  lemma SecondReleaseReturnsEarly() returns (s: State)
    ensures Reachable(s) && !s.app.saving && s.past.attempts == []
    ensures 1 in s.releases && s.releases[1] == Returned(1) && s.past.holds == 1
  {
    s := UpToHold();
    s := Then(s, OfRelease(0, Start));
    s := Then(s, OfRelease(1, Start));
  }

  lemma UpToGivingUp() returns (s: State)
    ensures Reachable(s)
    ensures s == State(true, false, Some(0), Failed, map[], map[0 := Armed(false)], Application(false, [], 0, 0, false),
                       Past(1, map[], [], Some(0)))
  {
    s := UpToHold();
    s := Then(s, OfQuiesce(Arm(0)));
    s := Then(s, OfQuiesce(Flush(false)));
  }

  lemma UpToLateWatchdog() returns (s: State)
    ensures Reachable(s)
    ensures s == State(false, false, Some(0), Failed, map[], map[0 := Rescuing(1)], Application(false, [], 0, 0, false),
                       Past(1, map[1 := ByWatchdog(0)], [], Some(0)))
  {
    s := UpToGivingUp();
    s := Then(s, OfWatchdog(0, Timer));
    s := Then(s, OfWatchdog(0, Look));
  }

  lemma UpToHoldBesideIt() returns (s: State)
    ensures Reachable(s)
    ensures s == State(true, false, Some(0), Arming, map[], map[0 := Rescuing(1)], Application(false, [], 0, 0, false),
                       Past(2, map[1 := ByWatchdog(0)], [], Some(0)))
  {
    s := UpToLateWatchdog();
    s := Then(s, OfQuiesce(Call(false)));
    s := Then(s, OfQuiesce(Drain(true)));
    s := Then(s, OfQuiesce(SaveOff(Acknowledged)));
    s := Then(s, OfQuiesce(Hold));
  }

  /** A watchdog that is slow to send its save-on turns saving on under the next hold. */
  lemma LateWatchdogUndoesTheNextHold() returns (s: State)
    ensures Reachable(s) && s.held && s.past.holds == 2 && s.app.saving
    ensures s.past.attempts == [Attempt(1, ByWatchdog(0), true)]
  {
    s := UpToHoldBesideIt();
    s := Then(s, OfWatchdog(0, Rescue(Acknowledged)));
  }
}
