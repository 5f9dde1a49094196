/**
 * The parts together: the bytes on the connections of an event stream, through messages and
 * events, to the metrics of the aggregator the stream is wired to, while scrapes prune it.
 */
module Exporters {
  import opened Messages
  import opened Codec
  import opened Clients
  import opened EventStreams
  import opened Parser
  import opened Aggregators
  import opened Pruning
  import PruneRaces
  import Sessions
  import Text

  // ---------------------------------------------------------------- the history of a wired aggregator

  /** The aggregator's events for the handled messages, the i-th one at the clock reading `clock(i)`. */
  function HistoryOf(ms: seq<Fields>, read: FloatReader, clock: nat -> int): Sessions.History {
    if ms == [] then []
    else HistoryOf(ms[..|ms| - 1], read, clock) + EventsOf(ms[|ms| - 1], read, clock(|ms| - 1))
  }

  function Scrapes(readings: seq<int>): Sessions.History {
    if readings == [] then [] else Scrapes(readings[..|readings| - 1]) + [Prune(readings[|readings| - 1])]
  }

  function EventsAt(o: Obs, read: FloatReader, now: int): Sessions.History {
    if o.Handled? then EventsOf(o.message, read, now) else []
  }

  /**
   * The history of an aggregator that gets the observations of a stream while scrapes prune it:
   * `scrapes(i)` are the clock readings of those that do so behind the first `i` observations.
   */
  function Wired(log: Log, read: FloatReader, clock: nat -> int, scrapes: nat -> seq<int>): Sessions.History {
    if log == [] then Scrapes(scrapes(0))
    else
      var p := log[..|log| - 1];
      Wired(p, read, clock, scrapes) + EventsAt(log[|log| - 1], read, clock(|MessagesHandled(p)|)) + Scrapes(scrapes(|log|))
  }

  lemma {:induction false} WithoutPrunesSplit(a: Sessions.History, b: Sessions.History)
    ensures WithoutPrunes(a + b) == WithoutPrunes(a) + WithoutPrunes(b)
    decreases |b|
  {
    if b == [] {
      assert a + b == a;
    } else {
      var p, e := b[..|b| - 1], b[|b| - 1];
      WithoutPrunesSplit(a, p);
      assert (a + b)[..|a + b| - 1] == a + p;
      Text.Assoc(WithoutPrunes(a), WithoutPrunes(p), if e.Prune? then [] else [e]);
    }
  }

  lemma {:induction false} ScrapesVanish(readings: seq<int>)
    ensures WithoutPrunes(Scrapes(readings)) == []
  {
    if readings != [] {
      var p, last := readings[..|readings| - 1], readings[|readings| - 1];
      ScrapesVanish(p);
      LastOnSnoc(Scrapes(p), Prune(last), "");
    }
  }

  lemma EventsStay(m: Fields, read: FloatReader, now: int)
    ensures WithoutPrunes(EventsOf(m, read, now)) == EventsOf(m, read, now)
  {
    var es := EventsOf(m, read, now);
    if es != [] {
      assert es[..0] == [];
    }
  }

  lemma EventsAtStay(o: Obs, read: FloatReader, now: int)
    ensures WithoutPrunes(EventsAt(o, read, now)) == EventsAt(o, read, now)
  {
    if o.Handled? {
      EventsStay(o.message, read, now);
    }
  }

  lemma HistoryAppend(ms: seq<Fields>, o: Obs, read: FloatReader, clock: nat -> int)
    ensures HistoryOf(ms + (if o.Handled? then [o.message] else []), read, clock) ==
            HistoryOf(ms, read, clock) + EventsAt(o, read, clock(|ms|))
  {
    if o.Handled? {
      HistorySnoc(ms, o.message, read, clock);
    } else {
      assert ms + [] == ms;
    }
  }

  lemma HandledLast(log: Log)
    requires log != []
    ensures var o := log[|log| - 1];
            MessagesHandled(log) == MessagesHandled(log[..|log| - 1]) + if o.Handled? then [o.message] else []
  {
    HandledSnoc(log, |log| - 1);
    assert log[..|log|] == log;
  }

  /** Apart from the prunes, the history is that of the handled messages. */
  lemma {:induction false} WiredWithoutPrunes(log: Log, read: FloatReader, clock: nat -> int, scrapes: nat -> seq<int>)
    ensures WithoutPrunes(Wired(log, read, clock, scrapes)) == HistoryOf(MessagesHandled(log), read, clock)
  {
    ScrapesVanish(scrapes(|log|));
    if log != [] {
      var p := log[..|log| - 1];
      var h, es := Wired(p, read, clock, scrapes), EventsAt(log[|log| - 1], read, clock(|MessagesHandled(p)|));
      WiredWithoutPrunes(p, read, clock, scrapes);
      WithoutPrunesSplit(h + es, Scrapes(scrapes(|log|)));
      WithoutPrunesSplit(h, es);
      EventsAtStay(log[|log| - 1], read, clock(|MessagesHandled(p)|));
      HandledLast(log);
      HistoryAppend(MessagesHandled(p), log[|log| - 1], read, clock);
      assert WithoutPrunes(h + es) + [] == WithoutPrunes(h + es);
    }
  }

  lemma HandledSnoc(log: Log, i: nat)
    requires i < |log|
    ensures MessagesHandled(log[..i + 1]) ==
            MessagesHandled(log[..i]) + if log[i].Handled? then [log[i].message] else []
  {
    assert log[..i + 1] == log[..i] + [log[i]];
    assert [log[i]][1..] == [];
    HandledSplit(log[..i], [log[i]]);
  }

  lemma HistorySnoc(ms: seq<Fields>, m: Fields, read: FloatReader, clock: nat -> int)
    ensures HistoryOf(ms + [m], read, clock) == HistoryOf(ms, read, clock) + EventsOf(m, read, clock(|ms|))
  {
    assert (ms + [m])[..|ms|] == ms;
  }

  // ---------------------------------------------------------------- the wiring

  /** What the last notification says, `up` if there is none. */
  function LastUp(up: bool, log: Log): bool
    decreases |log|
  {
    if log == [] then up else LastUp(if log[0].Up? then log[0].up else up, log[1..])
  }

  method PruneAll(agg: Aggregator, readings: seq<int>)
    requires agg.Valid()
    modifies agg
    ensures agg.Valid() && agg.history == old(agg.history) + Scrapes(readings)
    ensures agg.channels.Values <= old(agg.channels.Values)
    ensures agg.streamUp == old(agg.streamUp) && agg.reconnects == old(agg.reconnects)
  {
    assert agg.history + [] == agg.history;
    for i := 0 to |readings|
      invariant agg.Valid() && agg.history == old(agg.history) + Scrapes(readings[..i])
      invariant agg.channels.Values <= old(agg.channels.Values)
      invariant agg.streamUp == old(agg.streamUp) && agg.reconnects == old(agg.reconnects)
    {
      assert readings[..i + 1][..i] == readings[..i];
      Text.Assoc(old(agg.history), Scrapes(readings[..i]), [Prune(readings[i])]);
      agg.GcStaleChannels(readings[i]);
    }
    assert readings[..|readings|] == readings;
  }

  /** One observation reaches the aggregator: a notification, a reconnect or an event. */
  method Observe(agg: Aggregator, o: Obs, now: int)
    requires agg.Valid()
    modifies agg, agg.channels.Values
    ensures agg.Valid() && agg.history == old(agg.history) + EventsAt(o, agg.read, now)
    ensures fresh(agg.channels.Values - old(agg.channels.Values))
    ensures agg.reconnects == old(agg.reconnects) + if o.Reconnect? then 1 else 0
    ensures agg.streamUp == if o.Up? then o.up else old(agg.streamUp)
  {
    assert agg.history + [] == agg.history;
    match o {
      case Up(up) => agg.SetStreamUp(up);
      case Reconnect => agg.IncReconnects();
      case Handled(m) => agg.Handle(m, now);
      case _ =>
    }
  }

  /**
   * Every observation of the stream reaches the aggregator it is wired to, in order, with scrapes
   * pruning it in between. The counters are the one-way sessions of the resulting history.
   */
  method Wire(agg: Aggregator, log: Log, clock: nat -> int, scrapes: nat -> seq<int>)
    requires agg.Valid() && agg.history == []
    modifies agg, agg.channels.Values
    ensures agg.Valid() && agg.history == Wired(log, agg.read, clock, scrapes)
    ensures agg.reconnects == old(agg.reconnects) + Reconnects(log)
    ensures agg.streamUp == LastUp(old(agg.streamUp), log)
    ensures agg.noInbound == |Sessions.Verdicts(agg.opts, agg.history, NoInbound)|
    ensures agg.noOutbound == |Sessions.Verdicts(agg.opts, agg.history, NoOutbound)|
  {
    var handled := 0;
    PruneAll(agg, scrapes(0));
    assert log[..0] == [] && log[0..] == log;
    for i := 0 to |log|
      invariant agg.Valid() && handled == |MessagesHandled(log[..i])|
      invariant agg.history == Wired(log[..i], agg.read, clock, scrapes)
      invariant agg.reconnects + Reconnects(log[i..]) == old(agg.reconnects) + Reconnects(log)
      invariant LastUp(agg.streamUp, log[i..]) == LastUp(old(agg.streamUp), log)
      invariant fresh(agg.channels.Values - old(agg.channels.Values))
    {
      HandledSnoc(log, i);
      assert log[..i + 1][..i] == log[..i];
      assert log[i..][0] == log[i] && log[i..][1..] == log[i + 1..];
      Observe(agg, log[i], clock(handled));
      PruneAll(agg, scrapes(i + 1));
      if log[i].Handled? {
        handled := handled + 1;
      }
    }
    assert log[..|log|] == log;
    Sessions.CountersAreVerdicts(agg.opts, agg.history);
  }

  // ---------------------------------------------------------------- the gauge

  lemma {:induction false} LastUpIsPhase(p: Phase, log: Log)
    requires !PhaseAfter(true, p, log).Wrong?
    ensures LastUp(p.Consuming?, log) == PhaseAfter(true, p, log).Consuming?
    decreases |log|
  {
    if log != [] {
      BrokenStays(true, log[1..]);
      LastUpIsPhase(Next(true, p, log[0]), log[1..]);
      BrokenStays(true, log);
    }
  }

  /** After any number of observations of any run, the gauge is up exactly while events can be delivered. */
  lemma GaugeIsConsuming(hooks: Hooks, max: int, backoff: int, script: seq<Round<EventStreams.Outcome>>, k: nat)
    requires hooks.onUp && k <= |RunLog(hooks, max, true, backoff, script)|
    ensures var log := RunLog(hooks, max, true, backoff, script);
            LastUp(false, log[..k]) == (PhaseAfter(true, Idle, log[..k]) == Delivering(true))
    ensures LastUp(false, RunLog(hooks, max, true, backoff, script)) == false
  {
    var log := RunLog(hooks, max, true, backoff, script);
    LifecycleKept(hooks, max, true, backoff, script);
    PhaseBroken(true, Idle, log, k);
    LastUpIsPhase(Idle, log[..k]);
    LastUpIsPhase(Idle, log);
  }

  // ---------------------------------------------------------------- from bytes to verdicts

  /**
   * What the peer does at one dial: nothing; any bytes that do not make for a login; or it accepts
   * the login and sends framed messages, then bytes that hold no whole message.
   */
  datatype Link =
    | NoLink
    | Refused(input: string, end: StreamEnd, takesLogin: bool)
    | Link(login: Frame, frames: seq<Frame>, tail: string, end: StreamEnd)

  ghost predicate LawfulLink(l: Link) {
    match l
    case NoLink => true
    case Refused(_, _, _) => !Accepted(AttemptOf(l))
    case Link(login, frames, tail, end) =>
      && LawfulFrame(login) && Success(login.message) && Ours(IdOf(1), login.message)
      && WellFramed(frames)
      && DecodeAll(tail, end).0 == []
  }

  function AttemptOf(l: Link): Attempt {
    match l
    case NoLink => DialFails
    case Refused(input, end, takesLogin) => Dials(input, end, takesLogin)
    case Link(login, frames, tail, end) => Dials(Stream([login]) + (Stream(frames) + tail), end, true)
  }

  function SentOn(l: Link): seq<Fields> {
    if l.Link? then MessagesOf(l.frames) else []
  }

  /** The events sent on some links, in order. */
  function EventsSent(links: seq<Link>): seq<Fields> {
    if links == [] then [] else EventsIn(SentOn(links[0])) + EventsSent(links[1..])
  }

  lemma LinkCarries(l: Link)
    requires LawfulLink(l)
    ensures Carried(OutcomeOf(AttemptOf(l))) == SentOn(l)
  {
    if l.Link? {
      var rest := Stream(l.frames) + l.tail;
      ReadFrame(l.login, rest, l.end);
      DecodeFrames(l.frames, l.tail, l.end);
      assert MessagesOf(l.frames) + [] == MessagesOf(l.frames);
    }
  }

  lemma {:induction false} PlayedCarry(links: seq<Link>, script: seq<Round<Attempt>>)
    requires |links| == |script| && forall l :: l in links ==> LawfulLink(l)
    requires forall i :: 0 <= i < |links| ==> script[i].attempt == AttemptOf(links[i])
    ensures var played := Played(ScriptOf(script));
            |played| <= |links| && EventsCarried(played) == EventsSent(links[..|played|])
    decreases |links|
  {
    var rounds := ScriptOf(script);
    var played := Played(rounds);
    if links != [] && !script[0].cancelledBefore {
      var l := links[0];
      LinkCarries(l);
      PlayedCarry(links[1..], script[1..]);
      assert rounds[0] == RoundOf(script[0]) && rounds[1..] == ScriptOf(script[1..]);
      assert played[0] == rounds[0];
      var n := |played|;
      assert links[..n][0] == l && links[..n][1..] == links[1..][..n - 1];
      assert played[1..] == if rounds[0].cancelledAfter || rounds[0].cancelledInWait then [] else Played(rounds[1..]);
    }
  }

  /** The links are what the peer does at the dials of the script. */
  ghost predicate Carries(links: seq<Link>, script: seq<Round<Attempt>>) {
    && |links| == |script|
    && (forall l :: l in links ==> LawfulLink(l))
    && forall i :: 0 <= i < |links| ==> script[i].attempt == AttemptOf(links[i])
  }

  /** The events sent on the links that a run plays. */
  function EventsPlayed(links: seq<Link>, script: seq<Round<Attempt>>): seq<Fields>
    requires |links| == |script|
  {
    var n := |Played(ScriptOf(script))|;
    PlayedAtMost(script);
    EventsSent(links[..n])
  }

  lemma {:induction false} PlayedAtMost(script: seq<Round<Attempt>>)
    ensures |Played(ScriptOf(script))| <= |script|
    decreases |script|
  {
    if script != [] {
      PlayedAtMost(script[1..]);
    }
  }

  /** Any two histories with the same events apart from prunes, the one safe against the prunes of the other, agree. */
  lemma SafeCounts(o: Options, h: Sessions.History, reach: PruneRaces.Reach)
    requires PruneRaces.WithinReach(h, reach) && PruneRaces.HangupsSafe(o, WithoutPrunes(h), reach)
    ensures |Sessions.Verdicts(o, h, NoInbound)| == |Sessions.Verdicts(o, WithoutPrunes(h), NoInbound)|
    ensures |Sessions.Verdicts(o, h, NoOutbound)| == |Sessions.Verdicts(o, WithoutPrunes(h), NoOutbound)|
  {
    WithoutPrunesTwice(h);
    PruneRaces.CountersExactly(o, WithoutPrunes(h), reach);
    Sessions.CountersAreVerdicts(o, h);
    Sessions.CountersAreVerdicts(o, WithoutPrunes(h));
  }

  lemma {:induction false} WithoutPrunesTwice(h: Sessions.History)
    ensures WithoutPrunes(WithoutPrunes(h)) == WithoutPrunes(h)
  {
    if h != [] {
      var p, e := h[..|h| - 1], h[|h| - 1];
      WithoutPrunesTwice(p);
      if !e.Prune? {
        LastOnSnoc(WithoutPrunes(p), e, "");
      } else {
        assert WithoutPrunes(p) + [] == WithoutPrunes(p);
      }
    }
  }

  lemma LawfulCounts(o: Options, h: Sessions.History)
    requires Lawful(o, h)
    ensures |Sessions.Verdicts(o, h, NoInbound)| == |Sessions.Verdicts(o, WithoutPrunes(h), NoInbound)|
    ensures |Sessions.Verdicts(o, h, NoOutbound)| == |Sessions.Verdicts(o, WithoutPrunes(h), NoOutbound)|
  {
    PrunesInvisible(o, h);
    Sessions.CountersAreVerdicts(o, h);
    Sessions.CountersAreVerdicts(o, WithoutPrunes(h));
  }

  /** The counts of one-way sessions are the same in both histories. */
  ghost predicate SameCounts(o: Options, g: Sessions.History, h: Sessions.History) {
    forall v :: v != NoVerdict ==> |Sessions.Verdicts(o, g, v)| == |Sessions.Verdicts(o, h, v)|
  }

  /** The prunes of a history keep to some reach its hangups are safe against, or it is lawful. */
  ghost predicate PrunedSafely(o: Options, h: Sessions.History) {
    Lawful(o, h) ||
    exists reach :: PruneRaces.WithinReach(h, reach) && PruneRaces.HangupsSafe(o, WithoutPrunes(h), reach)
  }

  lemma PrunedSafelyCounts(o: Options, h: Sessions.History)
    requires PrunedSafely(o, h)
    ensures SameCounts(o, h, WithoutPrunes(h))
  {
    if Lawful(o, h) {
      LawfulCounts(o, h);
    } else {
      var reach :| PruneRaces.WithinReach(h, reach) && PruneRaces.HangupsSafe(o, WithoutPrunes(h), reach);
      SafeCounts(o, h, reach);
    }
    forall v | v != NoVerdict ensures |Sessions.Verdicts(o, h, v)| == |Sessions.Verdicts(o, WithoutPrunes(h), v)| {
      assert v == NoInbound || v == NoOutbound;
    }
  }

  /** What a run of the stream hands over and announces, and how it leaves the gauge. */
  lemma RunDelivers(links: seq<Link>, script: seq<Round<Attempt>>, hooks: Hooks, max: int, backoff: int)
    requires Carries(links, script)
    ensures var log := RunLog(hooks, max, true, backoff, ScriptOf(script));
            && MessagesHandled(log) == EventsPlayed(links, script)
            && Reconnects(log) == ReconnectsDue(hooks, true, |Played(ScriptOf(script))|)
            && (hooks.onUp ==> !LastUp(false, log))
  {
    PlayedCarry(links, script);
    RunHandles(hooks, max, true, backoff, ScriptOf(script));
    RunReconnects(hooks, max, true, backoff, ScriptOf(script));
    if hooks.onUp {
      GaugeIsConsuming(hooks, max, backoff, ScriptOf(script), 0);
    }
  }

  /**
   * End to end, for every run of connects, refused logins, failures and cancellation, and every
   * history `h` that is, apart from prunes placed anywhere, the events handed over in it. These are
   * the events the peer sent on the connections the run played. The aggregator's one-way counters
   * are the one-way sessions of `h`, and those of the events themselves if `h` is pruned safely.
   */
  lemma {:induction false} BytesToVerdicts(links: seq<Link>, script: seq<Round<Attempt>>, hooks: Hooks, max: int, backoff: int,
                        o: Options, read: FloatReader, clock: nat -> int, h: Sessions.History)
    requires Carries(links, script)
    requires WithoutPrunes(h) ==
             HistoryOf(MessagesHandled(RunLog(hooks, max, true, backoff, ScriptOf(script))), read, clock)
    ensures var sent := HistoryOf(EventsPlayed(links, script), read, clock);
            WithoutPrunes(h) == sent && (PrunedSafely(o, h) ==> SameCounts(o, h, sent))
    ensures Run(o, h).noInbound == |Sessions.Verdicts(o, h, NoInbound)|
    ensures Run(o, h).noOutbound == |Sessions.Verdicts(o, h, NoOutbound)|
  {
    RunDelivers(links, script, hooks, max, backoff);
    Sessions.CountersAreVerdicts(o, h);
    if PrunedSafely(o, h) {
      PrunedSafelyCounts(o, h);
    }
  }

  /** The same of the objects: the stream runs, the aggregator it is wired to is scraped in between. */
  method Export(stream: EventStream, agg: Aggregator, ghost links: seq<Link>, script: seq<Round<Attempt>>,
                clock: nat -> int, scrapes: nat -> seq<int>)
    returns (cancelled: bool)
    requires Carries(links, script)
    requires stream.log == [] && agg.Valid() && agg.history == [] && !agg.streamUp && agg.reconnects == 0
    modifies stream, agg, agg.channels.Values
    ensures agg.Valid() && (cancelled <==> Cancels(script))
    ensures WithoutPrunes(agg.history) == HistoryOf(EventsPlayed(links, script), agg.read, clock)
    ensures agg.noInbound == |Sessions.Verdicts(agg.opts, agg.history, NoInbound)|
    ensures agg.noOutbound == |Sessions.Verdicts(agg.opts, agg.history, NoOutbound)|
    ensures PrunedSafely(agg.opts, agg.history) ==>
              SameCounts(agg.opts, agg.history, HistoryOf(EventsPlayed(links, script), agg.read, clock))
    ensures stream.hooks.onUp ==> !agg.streamUp
    ensures agg.reconnects == ReconnectsDue(stream.hooks, true, |Played(ScriptOf(script))|)
  {
    cancelled := stream.Run(script);
    ghost var log := RunLog(stream.hooks, stream.maxBackoff, true, stream.baseBackoff, ScriptOf(script));
    assert stream.log == log;
    RunDelivers(links, script, stream.hooks, stream.maxBackoff, stream.baseBackoff);
    Wire(agg, stream.log, clock, scrapes);
    WiredWithoutPrunes(log, agg.read, clock, scrapes);
    BytesToVerdicts(links, script, stream.hooks, stream.maxBackoff, stream.baseBackoff,
                    agg.opts, agg.read, clock, agg.history);
  }
}
