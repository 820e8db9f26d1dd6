/** The event half of the job runner: a ring of numbered events and the watchers who follow them. In the program it
    shares one object and one mutex with the other half; every method here runs under that mutex. */
module Events {
  import opened Wrappers

  datatype Kind = Backup | Restore | Housekeeping | Check | Stop | Start

  datatype State = Running | Succeeded | Failed | Cancelled

  datatype Job = Job(id: string, kind: Kind, state: State, startedBy: string, startedAt: int, endedAt: int,
                     stage: string, done: int, total: int, error: string, result: string, cancelling: bool)

  datatype LogLine = LogLine(at: int, level: string, text: string)

  datatype News = JobNews(job: Job) | Progress(job: Job) | Log(line: LogLine) | Reset

  datatype Event = Event(number: nat, at: int, news: News)

  type Cap = n: int | n > 0 witness 1

  /** How many events a watcher's channel holds. */
  const PLACES := 64

  function AppendCapped<T>(buf: seq<T>, max: nat, v: T): seq<T> {
    var longer := buf + [v];
    if |longer| > max then longer[|longer| - max..] else longer
  }

  function LastOf<T>(s: seq<T>, max: nat): seq<T> {
    if |s| > max then s[|s| - max..] else s
  }

  // --------------------------------------------------------------- watchers

  /** Everything about one watcher: what its subscriber has taken out of the channel and what is still in it, the
      reset it begins with, if any, and where in the runner's events its part begins and ends. `continuous` says that
      the subscriber was promised everything after `since`. */
  datatype Trace = Trace(received: seq<Event>, pending: seq<Event>, closed: bool, reset: seq<Event>,
                         first: nat, last: nat, since: nat, continuous: bool)
  {
    /** All the subscriber has received or will still find in the channel. */
    function Stream(): seq<Event> {
      received + pending
    }

    /** The stream is one unbroken stretch of what was published, possibly after a reset, and an open watcher has had
        everything up to now. */
    ghost predicate Follows(published: seq<Event>) {
      && |pending| <= PLACES
      && (reset == [] || (|reset| == 1 && reset[0].news.Reset?))
      && first <= last <= |published|
      && Stream() == reset + published[first..last]
      && (continuous && reset == [] ==> first == since)
      && (!closed ==> last == |published|)
    }

    /** A send that does not wait, and the end of a watcher that is not keeping up. */
    function Offered(ev: Event): Trace {
      if |pending| < PLACES then this.(pending := pending + [ev], last := last + 1) else this.(closed := true)
    }
  }

  lemma OfferedStillFollows(t: Trace, published: seq<Event>, ev: Event)
    requires !t.closed && t.Follows(published)
    ensures t.Offered(ev).Follows(published + [ev])
  {
    SliceGrows(published, ev, t.first, t.last);
    assert t.received + (t.pending + [ev]) == t.received + t.pending + [ev];
    assert t.reset + (published[t.first..] + [ev]) == t.reset + published[t.first..] + [ev];
  }

  lemma ClosedStillFollows(t: Trace, published: seq<Event>, ev: Event)
    requires t.closed && t.Follows(published)
    ensures t.Follows(published + [ev])
  {
    SliceGrows(published, ev, t.first, t.last);
  }

  lemma ClosingFollows(t: Trace, published: seq<Event>)
    requires t.Follows(published)
    ensures t.(closed := true).Follows(published)
  {
  }

  lemma ReceivedStillFollows(t: Trace, published: seq<Event>)
    requires t.pending != [] && t.Follows(published)
    ensures t.(received := t.received + [t.pending[0]], pending := t.pending[1..]).Follows(published)
  {
    assert t.received + t.pending == t.received + [t.pending[0]] + t.pending[1..];
  }

  class Watcher {
    /** What is in the channel and not yet received. */
    var pending: seq<Event>
    var closed: bool

    ghost var received: seq<Event>
    ghost var reset: seq<Event>
    ghost var first: nat
    ghost var last: nat
    ghost const since: nat
    ghost const continuous: bool

    constructor (ghost since: nat, ghost continuous: bool, ghost start: nat)
      ensures Now() == Trace([], [], false, [], start, start, since, continuous)
    {
      pending, closed, received, reset, first, last := [], false, [], [], start, start;
      this.since, this.continuous := since, continuous;
    }

    ghost function Now(): Trace
      reads this
    {
      Trace(received, pending, closed, reset, first, last, since, continuous)
    }

    /** A send that does not wait. A send on a closed channel would panic. */
    method Send(ev: Event) returns (sent: bool)
      requires !closed
      modifies this`pending
      ensures sent <==> old(|pending|) < PLACES
      ensures pending == if sent then old(pending) + [ev] else old(pending)
    {
      sent := |pending| < PLACES;
      if sent {
        pending := pending + [ev];
      }
    }

    /** Closing a closed channel would panic. */
    method Close()
      requires !closed
      modifies this`closed
      ensures closed
    {
      closed := true;
    }

    method Offer(ev: Event) returns (live: bool)
      requires !closed
      modifies this
      ensures Now() == old(Now()).Offered(ev) && live == !closed
    {
      live := Send(ev);
      if live {
        last := last + 1;
      } else if !closed {
        Close();
      }
    }

    /** Throws away what nobody has received yet. */
    method Drain()
      modifies this`pending
      ensures pending == []
    {
      while pending != [] {
        pending := pending[1..];
      }
    }

    /** The subscriber's side. Nothing comes out of an empty channel. */
    method Receive() returns (ev: Option<Event>)
      modifies this`pending, this`received
      ensures ev == if old(pending) == [] then None else Some(old(pending)[0])
      ensures Now() == if old(pending) == [] then old(Now())
                       else old(Now()).(received := old(received) + [old(pending)[0]], pending := old(pending)[1..])
      ensures Now().Stream() == old(Now().Stream())
      ensures forall published: seq<Event> :: old(Now()).Follows(published) ==> Now().Follows(published)
    {
      if pending == [] {
        return None;
      }
      forall published: seq<Event> | Now().Follows(published)
        ensures Now().(received := received + [pending[0]], pending := pending[1..]).Follows(published)
      {
        ReceivedStillFollows(Now(), published);
      }
      ev := Some(pending[0]);
      received, pending := received + [pending[0]], pending[1..];
    }
  }

  lemma SliceGrows(published: seq<Event>, ev: Event, first: nat, last: nat)
    requires first <= last <= |published|
    ensures (published + [ev])[first..last] == published[first..last]
    ensures last == |published| ==> (published + [ev])[first..last + 1] == published[first..last] + [ev]
  {
  }

  class Feed {
    const eventCap: Cap

    var events: seq<Event>
    var seqNo: nat
    var watchers: seq<Watcher>

    /** Every event and every watcher there has been. */
    ghost var published: seq<Event>
    ghost var everyone: set<Watcher>

    constructor (eventCap: Cap)
      ensures this.eventCap == eventCap && Valid() && published == [] && everyone == {} && watchers == []
    {
      this.eventCap := eventCap;
      events, seqNo, watchers, published, everyone := [], 0, [], [], {};
    }

    ghost predicate ValidRing()
      reads this`events, this`seqNo, this`published
    {
      && seqNo == |published|
      && (forall i | 0 <= i < |published| :: published[i].number == i + 1 && !published[i].news.Reset?)
      && events == LastOf(published, eventCap)
    }

    ghost predicate ValidWatchers(published: seq<Event>)
      reads this`watchers, this`everyone, everyone
    {
      && (forall i, j | 0 <= i < j < |watchers| :: watchers[i] != watchers[j])
      && (forall w | w in watchers :: w in everyone)
      && (forall w | w in everyone :: w.Now().Follows(published))
      && (forall w | w in everyone :: w in watchers <==> !w.closed)
    }

    ghost predicate Valid()
      reads this`events, this`seqNo, this`published, this`watchers, this`everyone, everyone
    {
      ValidRing() && ValidWatchers(published)
    }

    method Ring(at: int, news: News) returns (ev: Event)
      requires ValidRing() && !news.Reset?
      modifies this`events, this`seqNo, this`published
      ensures ValidRing()
      ensures ev == Event(old(seqNo) + 1, at, news) && published == old(published) + [ev]
    {
      seqNo := seqNo + 1;
      ev := Event(seqNo, at, news);
      events := AppendCapped(events, eventCap, ev);
      published := published + [ev];
    }

    method FanOut(ev: Event)
      requires forall i, j | 0 <= i < j < |watchers| :: watchers[i] != watchers[j]
      requires forall w | w in watchers :: !w.closed
      modifies this`watchers, watchers
      ensures forall i, j | 0 <= i < j < |watchers| :: watchers[i] != watchers[j]
      ensures forall w | w in watchers :: w in old(watchers)
      ensures forall w | w in old(watchers) :: w.Now() == old(w.Now()).Offered(ev) && (w in watchers <==> !w.closed)
    {
      var live := [];
      for n := 0 to |watchers|
        modifies watchers
        invariant forall i, j | 0 <= i < j < |live| :: live[i] != live[j]
        invariant forall w | w in live :: w in watchers[..n]
        invariant forall i | n <= i < |watchers| :: watchers[i] !in live && watchers[i].Now() == old(watchers[i].Now())
        invariant forall i | 0 <= i < n :: watchers[i].Now() == old(watchers[i].Now()).Offered(ev) &&
                                           (watchers[i] in live <==> !watchers[i].closed)
      {
        assert !watchers[n].Now().closed;
        var kept := watchers[n].Offer(ev);
        if kept {
          live := live + [watchers[n]];
        }
      }
      watchers := live;
    }

    /** The event gets its number, a place in the ring and is offered to every watcher; one that is full is given up. */
    method Publish(at: int, news: News)
      requires Valid() && !news.Reset?
      modifies this`events, this`seqNo, this`watchers, this`published, everyone
      ensures Valid() && published == old(published) + [Event(old(seqNo) + 1, at, news)]
      ensures forall w | w in everyone ::
                w.Now() == if old(w.closed) then old(w.Now()) else old(w.Now()).Offered(published[|published| - 1])
    {
      ghost var before, was := published, watchers;
      var ev := Ring(at, news);
      FanOut(ev);
      forall w | w in everyone ensures w.Now().Follows(published) {
        if w in was {
          OfferedStillFollows(old(w.Now()), before, ev);
        } else {
          ClosedStillFollows(w.Now(), before, ev);
        }
      }
    }

    // ---------------------------------------------------------- subscribing

    method EventsAfter(since: int) returns (backlog: seq<Event>)
      requires ValidRing()
      ensures backlog == published[StartOf(seqNo, eventCap, since)..]
    {
      assert forall i | 0 <= i < |events| :: events[i].number == seqNo - |events| + i + 1;
      if since <= 0 {
        return events;
      }
      for i := 0 to |events|
        invariant forall j | 0 <= j < i :: events[j].number <= since
      {
        if events[i].number > since {
          assert i > 0 ==> events[i - 1].number <= since;
          return events[i..];
        }
      }
      assert events != [] ==> events[|events| - 1].number <= since;
      return [];
    }

    /** Puts the backlog into the new channel, which nobody reads yet. Whenever the channel is full, what is in it
        makes way for a reset and the event that did not fit is dropped with it. */
    method Fill(w: Watcher, backlog: seq<Event>, reset: Event)
      requires w.pending == [] && w.reset == [] && !w.closed
      modifies w`pending, w`reset
      ensures w.reset == Told(|backlog|, reset)
      ensures w.pending == InChannel(backlog, |backlog|, reset)
    {
      for n := 0 to |backlog|
        invariant w.reset == Told(n, reset) && !w.closed
        invariant w.pending == InChannel(backlog, n, reset)
      {
        OneMoreInChannel(backlog, n, reset);
        var sent := w.Send(backlog[n]);
        if !sent {
          w.Drain();
          var _ := w.Send(reset);
          w.reset := [reset];
        }
      }
    }

    method Replay(since: int, now: int, backlog: seq<Event>) returns (w: Watcher)
      requires seqNo == |published| && backlog == published[StartOf(seqNo, eventCap, since)..]
      ensures fresh(w) && !w.closed && w.Now().Follows(published)
      ensures w.since == (if since < 0 then 0 else since) && (w.continuous <==> eventCap > PLACES && since <= seqNo)
      ensures w.first == seqNo - Kept(|backlog|) && w.last == seqNo && w.received == []
      ensures w.reset == Told(|backlog|, Event(seqNo, now, Reset))
    {
      w := new Watcher(if since < 0 then 0 else since, eventCap > PLACES && since <= seqNo, seqNo);
      Fill(w, backlog, Event(seqNo, now, Reset));
      w.first := seqNo - Kept(|backlog|);
      ReplayFollows(w.Now(), published, eventCap, since, Event(seqNo, now, Reset));
    }

    /** Everything after `since` is replayed, as far as it fits, and everything from now on follows. */
    method Subscribe(since: int, now: int) returns (w: Watcher)
      requires Valid()
      modifies this`watchers, this`everyone
      ensures Valid() && fresh(w) && !w.closed
      ensures watchers == old(watchers) + [w] && everyone == old(everyone) + {w}
      ensures w.since == (if since < 0 then 0 else since) && (w.continuous <==> eventCap > PLACES && since <= seqNo)
      ensures var length := seqNo - StartOf(seqNo, eventCap, since);
              w.first == seqNo - Kept(length) && w.last == seqNo && w.received == [] &&
              w.reset == Told(length, Event(seqNo, now, Reset))
    {
      var backlog := EventsAfter(since);
      w := Replay(since, now, backlog);
      Join(w);
    }

    method Join(w: Watcher)
      requires Valid() && w !in everyone && !w.closed && w.Now().Follows(published)
      modifies this`watchers, this`everyone
      ensures Valid() && watchers == old(watchers) + [w] && everyone == old(everyone) + {w}
    {
      watchers := watchers + [w];
      everyone := everyone + {w};
    }

    static method Without(all: seq<Watcher>, w: Watcher) returns (rest: seq<Watcher>)
      requires forall i, j | 0 <= i < j < |all| :: all[i] != all[j]
      ensures forall i, j | 0 <= i < j < |rest| :: rest[i] != rest[j]
      ensures forall v :: v in rest <==> v in all && v != w
    {
      rest := [];
      for n := 0 to |all|
        invariant forall v :: v in rest <==> v in all[..n] && v != w
        invariant forall i, j | 0 <= i < j < |rest| :: rest[i] != rest[j]
      {
        assert all[..n + 1] == all[..n] + [all[n]] && all[n] !in all[..n];
        if all[n] != w {
          rest := rest + [all[n]];
        }
      }
      assert all[..|all|] == all;
    }

    /** The function handed to the subscriber. It may be called after the watcher was dropped. */
    method Unsubscribe(w: Watcher)
      requires Valid() && w in everyone
      modifies this`watchers, w
      ensures Valid() && w.Now() == old(w.Now()).(closed := true)
      ensures forall v :: v in watchers <==> v in old(watchers) && v != w
    {
      watchers := Without(watchers, w);
      if !w.closed {
        w.Close();
      }
    }

    /** A subscriber looks into its channel, whenever it likes. */
    method Take(w: Watcher) returns (ev: Option<Event>)
      requires Valid() && w in everyone
      modifies w
      ensures Valid() && w.Now().Stream() == old(w.Now().Stream())
      ensures ev == if old(w.pending) == [] then None else Some(old(w.pending)[0])
      ensures |w.pending| == if ev.None? then 0 else old(|w.pending|) - 1
    {
      ev := w.Receive();
    }

    /** The end of Shutdown, once no job is left. */
    method CloseWatchers()
      requires Valid()
      modifies this`watchers, watchers`closed
      ensures Valid() && watchers == [] && forall w | w in everyone :: w.closed
    {
      for n := 0 to |watchers|
        modifies watchers`closed
        invariant forall i | 0 <= i < |watchers| :: watchers[i].closed <==> i < n
      {
        if !watchers[n].closed {
          watchers[n].Close();
        }
      }
      forall w | w in watchers ensures w.Now().Follows(published) {
        ClosingFollows(old(w.Now()), published);
        assert w.Now() == old(w.Now()).(closed := true);
      }
      watchers := [];
    }
  }

  function StartOf(total: nat, cap: nat, since: int): nat {
    var oldest := if total < cap then 0 else total - cap;
    if since <= oldest then oldest else if since <= total then since else total
  }

  function Told(n: nat, reset: Event): seq<Event> {
    if n <= PLACES then [] else [reset]
  }

  /** What is in the channel once the first n events of a backlog have been offered. */
  function InChannel(backlog: seq<Event>, n: nat, reset: Event): (places: seq<Event>)
    requires n <= |backlog|
    ensures |places| <= PLACES
  {
    Told(n, reset) + backlog[n - Kept(n)..n]
  }

  lemma OneMoreInChannel(backlog: seq<Event>, n: nat, reset: Event)
    requires n < |backlog|
    ensures var places, next := InChannel(backlog, n, reset), InChannel(backlog, n + 1, reset);
            if |places| == PLACES then next == [reset] && Told(n + 1, reset) == [reset]
            else next == places + [backlog[n]] && Told(n + 1, reset) == Told(n, reset)
  {
    NextPlace(n);
  }

  lemma EndOfTheEnd<T>(s: seq<T>, start: nat, k: nat)
    requires start + k <= |s|
    ensures s[start..][|s| - start - k..|s| - start] == s[|s| - k..|s|]
  {
  }

  lemma ReplayFollows(t: Trace, published: seq<Event>, cap: Cap, since: int, reset: Event)
    requires reset.news.Reset? && t.received == [] && t.last == |published|
    requires var backlog := published[StartOf(|published|, cap, since)..];
             t.first == |published| - Kept(|backlog|) &&
             t.reset == Told(|backlog|, reset) && t.pending == InChannel(backlog, |backlog|, reset)
    requires t.since == (if since < 0 then 0 else since) && (t.continuous <==> cap > PLACES && since <= |published|)
    ensures t.Follows(published)
  {
    var start := StartOf(|published|, cap, since);
    var backlog := published[start..];
    NoSilentGap(|published|, cap, since);
    EndOfTheEnd(published, start, Kept(|backlog|));
    assert t.Stream() == t.pending;
  }

  /** How many of a backlog's events, the last ones, are in the channel once all have been offered. */
  function Kept(length: nat): (k: nat)
    ensures k <= length && k <= PLACES
    ensures length <= PLACES ==> k == length
    ensures length > PLACES ==> k < PLACES
  {
    if length <= PLACES then length
    else if length <= 2 * PLACES then length - PLACES - 1
    else Kept(length - PLACES)
  }

  lemma {:induction false} NextPlace(n: nat)
    ensures Kept(n + 1) == if n == PLACES || (n > PLACES && Kept(n) == PLACES - 1) then 0 else Kept(n) + 1
  {
    if n > 2 * PLACES {
      NextPlace(n - PLACES);
    }
  }

  lemma {:induction false} KeptIsARemainder(length: nat)
    requires length > PLACES
    ensures Kept(length) == (length - PLACES - 1) % PLACES
  {
    if length > 2 * PLACES {
      KeptIsARemainder(length - PLACES);
    }
  }

  /** The replay for `since` leaves something out, or cannot know what it leaves out, and does not say so. */
  predicate SilentGap(total: nat, cap: Cap, since: int) {
    var start := StartOf(total, cap, since);
    total - start <= PLACES && start != (if since < 0 then 0 else since)
  }

  /** That happens exactly when the ring fits into the channel and has dropped events the subscriber has not seen, or
      when the subscriber has seen numbers this runner has not reached. */
  lemma NoSilentGap(total: nat, cap: Cap, since: int)
    ensures SilentGap(total, cap, since) <==>
            since > total || (cap <= PLACES && total > cap + (if since < 0 then 0 else since))
  {
  }

  /** The ring must be longer than the channel, or some subscriber misses events without knowing. */
  lemma RingMustExceedChannel(cap: Cap)
    ensures cap > PLACES <==> forall total: nat, since: int | since <= total :: !SilentGap(total, cap, since)
  {
    forall total: nat, since: int | since <= total && cap > PLACES ensures !SilentGap(total, cap, since) {
      NoSilentGap(total, cap, since);
    }
    if cap <= PLACES {
      NoSilentGap(cap + 1, cap, 0);
    }
  }

  /** What a subscriber gets, up to the close: events numbered without gap or repetition, right after the number it
      asked for unless the stream begins with a reset, and reaching to the latest event while it is open. */
  lemma SubscriberSeesEveryNumber(t: Trace, published: seq<Event>)
    requires t.Follows(published)
    requires forall i | 0 <= i < |published| :: published[i].number == i + 1 && !published[i].news.Reset?
    ensures var events := t.Stream()[|t.reset|..];
            && (forall i | 0 <= i < |events| :: events[i].number == t.first + i + 1 && events[i] == published[t.first + i])
            && (t.reset != [] ==> t.Stream()[0].news.Reset?)
            && (t.continuous && t.reset == [] ==> t.first == t.since)
            && (!t.closed ==> t.first + |events| == |published|)
  {
    var part := published[t.first..t.last];
    assert (t.reset + part)[|t.reset|..] == part;
    assert forall i | 0 <= i < |part| :: part[i] == published[t.first + i];
  }
}
