/** The job runner: one slot, a bounded history, and what a running job may do to its record. */
module Jobs {
  import opened Events
  import opened Wrappers

  /** What a job's body came back with. A result that cannot be encoded carries the reason. */
  datatype Encoding = Encoded(raw: string) | NotEncodable(reason: string)

  datatype Outcome = Outcome(error: Option<string>, result: Option<Encoding>)

  datatype Submitted = Accepted(job: Job) | Busy(job: Job) | ShuttingDown

  datatype CancelResult = Asked | AlreadyFinished | NotFound

  // ---------------------------------------------------------------- job ids

  function KindName(k: Kind): string {
    match k
    case Backup => "backup"
    case Restore => "restore"
    case Housekeeping => "housekeeping"
    case Check => "check"
    case Stop => "stop"
    case Start => "start"
  }

  function Digit(n: nat): char
    requires n < 10
  {
    "0123456789"[n]
  }

  function Decimal(n: nat): (s: string)
    ensures s != "" && '-' !in s
  {
    if n < 10 then [Digit(n)] else Decimal(n / 10) + [Digit(n % 10)]
  }

  /** The default id: kind, start time and the runner's counter. */
  function IdOf(k: Kind, stamp: string, n: nat): string {
    KindName(k) + "-" + stamp + "-" + Decimal(n)
  }

  lemma {:induction false} DecimalIsInjective(a: nat, b: nat)
    requires Decimal(a) == Decimal(b)
    ensures a == b
  {
    var s := Decimal(a);
    assert a >= 10 ==> |s| >= 2 && s[..|s| - 1] == Decimal(a / 10);
    assert b >= 10 ==> |s| >= 2 && s[..|s| - 1] == Decimal(b / 10);
    assert s[|s| - 1] == Digit(a % 10) == Digit(b % 10);
    assert a % 10 == b % 10;
    if a >= 10 && b >= 10 {
      DecimalIsInjective(a / 10, b / 10);
    }
  }

  lemma AfterTheLastDash(a: string, x: string, b: string, y: string)
    requires a + "-" + x == b + "-" + y && '-' !in x && '-' !in y
    ensures x == y
  {
    var s := a + "-" + x;
    assert s[|a|] == '-' && s[|b|] == '-';
    assert forall i | |a| < i < |s| :: s[i] == x[i - |a| - 1];
    assert forall i | |b| < i < |s| :: s[i] == y[i - |b| - 1];
    assert s[|a| + 1..] == x && s[|b| + 1..] == y;
  }

  /** The counter alone keeps ids apart, whatever the clock says. */
  lemma IdsDiffer(k1: Kind, stamp1: string, n1: nat, k2: Kind, stamp2: string, n2: nat)
    requires n1 != n2
    ensures IdOf(k1, stamp1, n1) != IdOf(k2, stamp2, n2)
  {
    if IdOf(k1, stamp1, n1) == IdOf(k2, stamp2, n2) {
      AfterTheLastDash(KindName(k1) + "-" + stamp1, Decimal(n1), KindName(k2) + "-" + stamp2, Decimal(n2));
      DecimalIsInjective(n1, n2);
    }
  }

  // ---------------------------------------------------------------- records

  /** What of a job changes while it runs and when it ends. */
  datatype Standing = Standing(state: State, endedAt: int, stage: string, done: int, total: int,
                               error: string, result: string, cancelling: bool)

  const JUST_STARTED := Standing(Running, 0, "", 0, 0, "", "", false)

  const UNENCODABLE := "the result could not be encoded: "

  class Record {
    const id: string
    const kind: Kind
    const startedBy: string
    const startedAt: int

    var now: Standing
    var logs: seq<LogLine>
    var lastEmit: Option<int>
    /** Whether the context is done. */
    var ctxDone: bool

    /** The runner's counter when the job was submitted, and whether anyone asked for it to stop while it ran. */
    ghost const number: nat
    ghost const stamp: string
    ghost var asked: bool

    constructor (kind: Kind, stamp: string, number: nat, who: string, at: int)
      ensures id == IdOf(kind, stamp, number) && this.kind == kind && startedBy == who && startedAt == at
      ensures this.number == number && this.stamp == stamp
      ensures now == JUST_STARTED && logs == [] && lastEmit == None && !ctxDone && !asked
    {
      id, this.kind, startedBy, startedAt := IdOf(kind, stamp, number), kind, who, at;
      now, logs, lastEmit, ctxDone := JUST_STARTED, [], None, false;
      this.number, this.stamp, asked := number, stamp, false;
    }

    /** The public view. */
    function View(): Job
      reads this
    {
      Job(id, kind, now.state, startedBy, startedAt, now.endedAt, now.stage, now.done, now.total, now.error,
          now.result, now.cancelling)
    }

    /** How the job's standing looks once its body is back. Being told to stop wins over whatever error unwinding
        produced. */
    function Final(outcome: Outcome, at: int): Standing
      reads this
    {
      var state := if ctxDone then Cancelled else if outcome.error.Some? then Failed else Succeeded;
      now.(state := state, endedAt := at, cancelling := false,
           error := if outcome.error.Some? then outcome.error.value else now.error,
           result := if outcome.result.Some? && outcome.result.value.Encoded? then outcome.result.value.raw
                     else now.result)
    }

    /** Writes down how the job ended. */
    method Finish(outcome: Outcome, at: int, logCap: Cap)
      requires now.state.Running? && Settled() && |logs| <= logCap
      modifies this
      ensures now == old(Final(outcome, at)) && ctxDone && asked == old(asked) && Settled() && |logs| <= logCap
      ensures lastEmit == old(lastEmit)
      ensures logs == if outcome.result.Some? && outcome.result.value.NotEncodable?
                      then AppendCapped(old(logs), logCap, LogLine(at, "warn", UNENCODABLE + outcome.result.value.reason))
                      else old(logs)
    {
      now := now.(endedAt := at);
      match outcome.error {
        case Some(e) =>
          if ctxDone {
            now := now.(state := Cancelled, error := e);
          } else {
            now := now.(state := Failed, error := e);
          }
        case None =>
          if ctxDone {
            now := now.(state := Cancelled);
          } else {
            now := now.(state := Succeeded);
          }
      }
      now := now.(cancelling := false);
      match outcome.result {
        case None =>
        case Some(Encoded(raw)) => now := now.(result := raw);
        case Some(NotEncodable(reason)) =>
          logs := AppendCapped(logs, logCap, LogLine(at, "warn", UNENCODABLE + reason));
      }
      ctxDone := true;
    }

    method AskToStop()
      requires now.state.Running?
      modifies this`ctxDone, this`asked
      ensures ctxDone && asked && Settled()
    {
      ctxDone := true;
      asked := true;
    }

    /** A job ended as cancelled exactly if it was asked to stop while it ran. */
    ghost predicate Settled()
      reads this
    {
      if now.state.Running? then ctxDone == asked else ctxDone && (now.state.Cancelled? <==> asked)
    }
  }

  // ----------------------------------------------------------------- runner

  /** The jobs were submitted one after the other, the last of them as the last so far. */
  ghost predicate Numbered(jobs: seq<Record>, counter: nat) {
    forall i | 0 <= i < |jobs| ::
      jobs[i].number == counter - |jobs| + 1 + i && jobs[i].id == IdOf(jobs[i].kind, jobs[i].stamp, jobs[i].number)
  }

  lemma LaterOnesAreNumbered(jobs: seq<Record>, counter: nat, from: nat)
    requires Numbered(jobs, counter) && from <= |jobs|
    ensures Numbered(jobs[from..], counter)
  {
  }

  ghost predicate Consecutive(jobs: seq<Record>) {
    forall i, j | 0 <= i < j < |jobs| :: jobs[i].number < jobs[j].number
  }

  lemma NumberedIsConsecutive(jobs: seq<Record>, counter: nat)
    requires Numbered(jobs, counter)
    ensures Consecutive(jobs)
  {
  }

  lemma NextIsNumbered(jobs: seq<Record>, counter: nat, rec: Record)
    requires Numbered(jobs, counter) && rec.number == counter + 1 && rec.id == IdOf(rec.kind, rec.stamp, rec.number)
    ensures Numbered(jobs + [rec], counter + 1)
  {
  }

  /** The map finds exactly these jobs, each by its id. */
  ghost predicate IndexedBy(jobs: seq<Record>, byID: map<string, Record>) {
    && (forall id | id in byID :: byID[id] in jobs && byID[id].id == id)
    && (forall r | r in jobs :: r.id in byID && byID[r.id] == r)
  }

  lemma AddedIsIndexed(jobs: seq<Record>, byID: map<string, Record>, rec: Record)
    requires IndexedBy(jobs, byID) && rec.id !in byID
    ensures IndexedBy(jobs + [rec], byID[rec.id := rec])
  {
  }

  lemma DroppedIsIndexed(jobs: seq<Record>, byID: map<string, Record>)
    requires jobs != [] && Consecutive(jobs) && IndexedBy(jobs, byID)
    ensures IndexedBy(jobs[1..], byID - {jobs[0].id}) && Consecutive(jobs[1..])
  {
    assert jobs == [jobs[0]] + jobs[1..] && jobs[0] !in jobs[1..];
  }

  class Runner {
    const historyCap: Cap
    const logCap: Cap
    const throttle: int
    const feed: Feed

    var counter: nat
    var current: Record?
    var history: seq<Record>
    var byID: map<string, Record>
    var closed: bool

    /** Every job there has been. */
    ghost var records: set<Record>

    /** The jobs that can be asked about: the last ones that ended, in the order they were submitted, and the current. */
    ghost function Known(): seq<Record>
      reads this`current, this`history
    {
      if current == null then history else history + [current]
    }

    /** The known jobs are the last ones submitted, without a gap, and as many as the history holds have ended. */
    ghost predicate InOrder()
      reads this`counter, this`current, this`history
    {
      var ended := if current == null then counter else counter - 1;
      && |history| == (if ended < historyCap then ended else historyCap)
      && Numbered(Known(), counter)
    }

    /** byID holds exactly the known jobs. */
    ghost predicate Indexed()
      reads this`current, this`history, this`byID
    {
      IndexedBy(Known(), byID)
    }

    /** Of all jobs there have been, only the current one runs. */
    ghost predicate OnlyOneRuns()
      reads this`current, this`history, this`records, records
    {
      && (forall r | r in Known() :: r in records)
      && (forall r | r in records :: r.Settled() && (r.now.state.Running? <==> r == current) && |r.logs| <= logCap)
    }

    ghost predicate ValidJobs()
      reads this`counter, this`current, this`history, this`byID, this`records, records
    {
      InOrder() && Indexed() && OnlyOneRuns()
    }

    ghost predicate Valid()
      reads this, records, feed, feed.everyone
    {
      feed.Valid() && ValidJobs()
    }

    constructor (historyOption: int, logOption: int, eventOption: int, throttleOption: int)
      ensures Valid() && fresh(feed) && feed.published == [] && records == {} && feed.everyone == {} && !closed
      ensures historyCap == (if historyOption <= 0 then 20 else historyOption)
      ensures logCap == (if logOption <= 0 then 2000 else logOption)
      ensures feed.eventCap == (if eventOption <= 0 then 1024 else eventOption)
      ensures throttle == if throttleOption <= 0 then 250_000_000 else throttleOption
    {
      historyCap := if historyOption <= 0 then 20 else historyOption;
      logCap := if logOption <= 0 then 2000 else logOption;
      throttle := if throttleOption <= 0 then 250_000_000 else throttleOption;
      counter, current, history, byID, closed, records := 0, null, [], map[], false, {};
      feed := new Feed(if eventOption <= 0 then 1024 else eventOption);
    }

    lemma NewIdIsNew(kind: Kind, stamp: string)
      requires InOrder() && Indexed()
      ensures IdOf(kind, stamp, counter + 1) !in byID
    {
      forall i | 0 <= i < |Known()| ensures Known()[i].id != IdOf(kind, stamp, counter + 1) {
        var q := Known()[i];
        IdsDiffer(q.kind, q.stamp, q.number, kind, stamp, counter + 1);
      }
    }

    method Register(kind: Kind, stamp: string, who: string, at: int) returns (rec: Record)
      requires ValidJobs() && current == null
      modifies this`counter, this`current, this`byID, this`records
      ensures ValidJobs() && current == rec && fresh(rec)
      ensures counter == old(counter) + 1 && records == old(records) + {rec}
      ensures rec.View() == NewJob(IdOf(kind, stamp, counter), kind, who, at) && !rec.asked
    {
      NewIdIsNew(kind, stamp);
      ghost var known := Known();
      counter := counter + 1;
      rec := new Record(kind, stamp, counter, who, at);
      NextIsNumbered(known, counter - 1, rec);
      AddedIsIndexed(known, byID, rec);
      current := rec;
      byID := byID[rec.id := rec];
      records := records + {rec};
      assert Known() == known + [rec];
    }

    /** Publishing leaves the jobs alone. */
    method Announce(now: int, news: News)
      requires Valid() && !news.Reset?
      modifies feed, feed.everyone
      ensures Valid() && feed.published == old(feed.published) + [Event(|feed.published|, now, news)]
      ensures feed.everyone == old(feed.everyone)
    {
      ghost var known := Known();
      feed.Publish(now, news);
      assert Known() == known;
    }

    method Begin(kind: Kind, who: string, now: int, stamp: string) returns (job: Job)
      requires Valid() && current == null
      modifies this`counter, this`current, this`byID, this`records, feed, feed.everyone
      ensures Valid() && job == NewJob(IdOf(kind, stamp, counter), kind, who, now)
      ensures current != null && fresh(current) && records == old(records) + {current}
      ensures current.View() == job && !current.asked
      ensures feed.published == old(feed.published) + [Event(|feed.published|, now, JobNews(job))]
    {
      var rec := Register(kind, stamp, who, now);
      job := rec.View();
      Announce(now, JobNews(job));
    }

    /** Claims the slot, if it is free. The job's body then runs on its own. */
    method Submit(kind: Kind, who: string, now: int, stamp: string) returns (r: Submitted)
      requires Valid()
      modifies this`counter, this`current, this`byID, this`records, feed, feed.everyone
      ensures Valid()
      ensures old(closed) ==> r == ShuttingDown
      ensures old(!closed && current != null) ==> r == Busy(old(current.View()))
      ensures !r.Accepted? ==> feed.published == old(feed.published) && records == old(records) && current == old(current)
      ensures old(!closed && current == null) ==>
                && r == Accepted(NewJob(IdOf(kind, stamp, counter), kind, who, now))
                && current != null && fresh(current) && records == old(records) + {current}
                && current.View() == r.job && !current.asked
                && feed.published == old(feed.published) + [Event(|feed.published|, now, JobNews(r.job))]
    {
      if closed {
        r := ShuttingDown;
      } else if current != null {
        r := Busy(current.View());
      } else {
        var job := Begin(kind, who, now, stamp);
        r := Accepted(job);
      }
    }

    /** Drops the oldest jobs while there are too many. */
    method ForgetOld()
      requires current == null && Indexed() && Consecutive(history)
      modifies this`history, this`byID
      ensures Indexed() && history == LastOf(old(history), historyCap)
    {
      while |history| > historyCap
        invariant |history| <= old(|history|) && history == old(history)[old(|history|) - |history|..]
        invariant |history| == old(|history|) || |history| >= historyCap
        invariant Indexed() && Consecutive(history)
      {
        DropOldest();
      }
    }

    method DropOldest()
      requires current == null && history != [] && Indexed() && Consecutive(history)
      modifies this`history, this`byID
      ensures history == old(history)[1..] && Indexed() && Consecutive(history)
    {
      DroppedIsIndexed(history, byID);
      var dropped := history[0];
      history := history[1..];
      byID := byID - {dropped.id};
    }

    method Retire(rec: Record)
      requires InOrder() && Indexed() && current == rec
      modifies this`current, this`history, this`byID
      ensures InOrder() && Indexed() && current == null && history == LastOf(old(history) + [rec], historyCap)
    {
      ghost var known := Known();
      assert known == history + [rec];
      current := null;
      history := history + [rec];
      assert Known() == known;
      NumberedIsConsecutive(known, counter);
      ForgetOld();
      LaterOnesAreNumbered(known, counter, |known| - |history|);
    }

    method EndCurrent(outcome: Outcome, now: int)
      requires ValidJobs() && current != null
      modifies this`current, this`history, this`byID, current
      ensures ValidJobs() && current == null && history == LastOf(old(history) + [old(current)], historyCap)
      ensures old(current).now == old(current.Final(outcome, now)) && old(current).asked == old(current.asked)
    {
      var rec := current;
      rec.Finish(outcome, now, logCap);
      Retire(rec);
    }

    /** The end of the goroutine that ran the job's body. */
    method Finish(outcome: Outcome, now: int)
      requires Valid() && current != null
      modifies this`current, this`history, this`byID, current, feed, feed.everyone
      ensures Valid() && current == null && history == LastOf(old(history) + [old(current)], historyCap)
      ensures old(current).now == old(current.Final(outcome, now)) && old(current).asked == old(current.asked)
      ensures feed.published == old(feed.published) + [Event(|feed.published|, now, JobNews(old(current).View()))]
    {
      var rec := current;
      EndCurrent(outcome, now);
      Announce(now, JobNews(rec.View()));
    }

    method MarkCancelling()
      requires ValidJobs() && current != null
      modifies current`now
      ensures ValidJobs() && current.now == old(current.now).(cancelling := true)
    {
      current.now := current.now.(cancelling := true);
    }

    method StopCurrent()
      requires ValidJobs() && current != null
      modifies current`ctxDone, current`asked
      ensures ValidJobs() && current.asked
    {
      current.AskToStop();
    }

    method CancelCurrent()
      requires ValidJobs() && current != null
      modifies current`now, current`ctxDone, current`asked
      ensures ValidJobs() && current.asked && current.now == old(current.now).(cancelling := true)
    {
      MarkCancelling();
      StopCurrent();
    }

    /** Asks a running job to unwind. */
    method Cancel(id: string, now: int) returns (r: CancelResult)
      requires Valid()
      modifies current, feed, feed.everyone
      ensures Valid()
      ensures r == if current != null && current.id == id then Asked else if id in byID then AlreadyFinished else NotFound
      ensures !r.Asked? ==>
                feed.published == old(feed.published) && (current != null ==> current.asked == old(current.asked))
      ensures r.Asked? ==> current.asked && current.now == old(current.now).(cancelling := true) &&
                           feed.published == old(feed.published) + [Event(|feed.published|, now, JobNews(current.View()))]
    {
      if current == null || current.id != id {
        r := if id in byID then AlreadyFinished else NotFound;
      } else {
        MarkCancelling();
        Announce(now, JobNews(current.View()));
        StopCurrent();
        r := Asked;
      }
    }

    /** The first half of Shutdown. */
    method BeginShutdown()
      requires Valid()
      modifies this`closed, current
      ensures Valid() && closed
      ensures current != null ==> current.asked && current.now == old(current.now).(cancelling := true)
    {
      ghost var known := Known();
      closed := true;
      assert Known() == known;
      if current != null {
        CancelCurrent();
      }
    }

    /** The second half, once the job that was running has unwound. */
    method EndShutdown()
      requires Valid() && closed && current == null
      modifies feed`watchers, feed.watchers`closed
      ensures Valid() && feed.watchers == [] && forall w | w in feed.everyone :: w.closed
    {
      feed.CloseWatchers();
    }

    /** Whether a call to Stage is worth an event. */
    predicate Newsworthy(rec: Record, stage: string, done: int, total: int, now: int)
      reads rec
    {
      || rec.now.stage != stage
      || (total > 0 && done >= total)
      || rec.lastEmit.None?
      || now - rec.lastEmit.value >= throttle
    }

    method Update(rec: Record, stage: string, done: int, total: int, now: int) returns (newsworthy: bool)
      requires ValidJobs() && rec in records
      modifies rec`now, rec`lastEmit
      ensures ValidJobs() && rec.now == old(rec.now).(stage := stage, done := done, total := total)
      ensures newsworthy == old(Newsworthy(rec, stage, done, total, now))
      ensures rec.lastEmit == if newsworthy then Some(now) else old(rec.lastEmit)
    {
      var changed := rec.now.stage != stage;
      rec.now := rec.now.(stage := stage, done := done, total := total);
      var finished := total > 0 && done >= total;
      newsworthy := changed || finished || rec.lastEmit.None? || now - rec.lastEmit.value >= throttle;
      if newsworthy {
        rec.lastEmit := Some(now);
      }
    }

    /** Progress of a job: the record is always brought up to date, an event goes out only now and then. */
    method Stage(rec: Record, stage: string, done: int, total: int, now: int)
      requires Valid() && rec in records
      modifies rec`now, rec`lastEmit, feed, feed.everyone
      ensures Valid() && rec.now == old(rec.now).(stage := stage, done := done, total := total)
      ensures rec.lastEmit == if old(Newsworthy(rec, stage, done, total, now)) then Some(now) else old(rec.lastEmit)
      ensures feed.published == if old(Newsworthy(rec, stage, done, total, now))
                                then old(feed.published) + [Event(|feed.published|, now, News.Progress(rec.View()))]
                                else old(feed.published)
    {
      var newsworthy := Update(rec, stage, done, total, now);
      if newsworthy {
        Announce(now, News.Progress(rec.View()));
      }
    }

    /** A line for a job's log and for whoever is watching. */
    method Logf(rec: Record, level: string, text: string, now: int)
      requires Valid() && rec in records
      modifies rec`logs, feed, feed.everyone
      ensures Valid() && rec.logs == AppendCapped(old(rec.logs), logCap, LogLine(now, level, text))
      ensures feed.published == old(feed.published) + [Event(|feed.published|, now, Log(LogLine(now, level, text)))]
    {
      var line := LogLine(now, level, text);
      rec.logs := AppendCapped(rec.logs, logCap, line);
      Announce(now, Log(line));
    }

    /** Every job that can be asked about, from the one submitted last to the oldest. */
    method List() returns (jobs: seq<Job>)
      ensures jobs == Views(Known())
    {
      jobs := [];
      if current != null {
        jobs := [current.View()];
        assert Known()[..|history|] == history;
      }
      assert history[..|history|] == history;
      for n := |history| downto 0
        invariant jobs + Views(history[..n]) == Views(Known())
      {
        assert history[..n + 1][..n] == history[..n];
        FirstOfRest(jobs, history[n].View(), Views(history[..n]));
        jobs := jobs + [history[n].View()];
      }
    }
  }

  /** The last first. */
  function Views(records: seq<Record>): seq<Job>
    reads records
  {
    if records == [] then []
    else [records[|records| - 1].View()] + Views(records[..|records| - 1])
  }

  lemma FirstOfRest(jobs: seq<Job>, first: Job, rest: seq<Job>)
    ensures jobs + ([first] + rest) == jobs + [first] + rest
  {
  }

  function NewJob(id: string, kind: Kind, who: string, at: int): Job {
    Job(id, kind, Running, who, at, 0, "", 0, 0, "", "", false)
  }
}
