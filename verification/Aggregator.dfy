/**
 * The RTCP aggregator: a table of the channels RTCP has been heard on, counters, and
 * one-way-audio verdicts given when a channel hangs up. `Step` is the effect of one event
 * under the lock; the class `Aggregator` updates its table in place and keeps, as a ghost, the
 * history of events it has seen.
 *
 * Every event carries the clock reading the code takes before it acquires the lock. A history
 * lists events in the order in which the lock was acquired, so a reading may be older than the
 * moment its event takes effect.
 */
module Aggregators {
  import opened Text
  import opened Messages
  import opened Parser

  /** Times and durations in nanoseconds. */
  datatype Options = Options(perChannel: bool, minCall: int, channelTTL: int)

  const SECOND := 1_000_000_000

  /** Zero stands for the default of five seconds and of one hour. */
  function WithDefaults(o: Options): Options {
    Options(o.perChannel,
            if o.minCall == 0 then 5 * SECOND else o.minCall,
            if o.channelTTL == 0 then 3600 * SECOND else o.channelTTL)
  }

  datatype Event =
    | Rtcp(channel: string, direction: Direction, loss: Option<Float>, now: int)
    | Hangup(channel: string, now: int)
    | Prune(now: int)

  datatype Session = Session(firstSeen: int, lastSeen: int, sent: nat, received: nat)

  datatype LossKey = LossKey(channel: string, direction: Direction)

  datatype State = State(
    table: map<string, Session>,
    sentTotal: nat, receivedTotal: nat,
    noInbound: nat, noOutbound: nat,
    loss: map<LossKey, Float>)

  const EMPTY := State(map[], 0, 0, 0, 0, map[])

  // ---------------------------------------------------------------- one event

  datatype Verdict = NoVerdict | NoInbound | NoOutbound

  /** The judgement on a session that a hangup closes at `now`. */
  function VerdictOn(o: Options, session: Option<Session>, now: int): Verdict {
    match session
    case None => NoVerdict
    case Some(s) =>
      if now - s.firstSeen < o.minCall then NoVerdict
      else if s.sent > 0 && s.received == 0 then NoInbound
      else if s.received > 0 && s.sent == 0 then NoOutbound
      else NoVerdict
  }

  function Entry(table: map<string, Session>, channel: string): Option<Session> {
    if channel in table then Some(table[channel]) else None
  }

  function Heard(session: Option<Session>, direction: Direction, now: int): Session {
    var s := if session.Some? then session.value else Session(now, now, 0, 0);
    match direction
    case Sent => s.(lastSeen := now, sent := s.sent + 1)
    case Received => s.(lastSeen := now, received := s.received + 1)
  }

  predicate Stale(o: Options, s: Session, now: int) {
    s.lastSeen < now - o.channelTTL
  }

  function KeyOfLoss(o: Options, e: Event): LossKey
    requires e.Rtcp?
  {
    LossKey(if o.perChannel then e.channel else "", e.direction)
  }

  function Step(o: Options, s: State, e: Event): State {
    match e
    case Rtcp(channel, direction, loss, now) =>
      s.(sentTotal := s.sentTotal + if direction == Sent then 1 else 0,
         receivedTotal := s.receivedTotal + if direction == Received then 1 else 0,
         loss := if loss.Some? then s.loss[KeyOfLoss(o, e) := loss.value] else s.loss,
         table := if channel == "" then s.table else s.table[channel := Heard(Entry(s.table, channel), direction, now)])
    case Hangup(channel, now) =>
      if channel == "" then s
      else
        var verdict := VerdictOn(o, Entry(s.table, channel), now);
        s.(table := s.table - {channel},
           noInbound := s.noInbound + if verdict == NoInbound then 1 else 0,
           noOutbound := s.noOutbound + if verdict == NoOutbound then 1 else 0)
    case Prune(now) =>
      s.(table := map c | c in s.table && !Stale(o, s.table[c], now) :: s.table[c])
  }

  /** The state after a history. */
  function Run(o: Options, history: seq<Event>): State {
    if history == [] then EMPTY
    else Step(o, Run(o, history[..|history| - 1]), history[|history| - 1])
  }

  lemma RunSnoc(o: Options, history: seq<Event>, e: Event)
    ensures Run(o, history + [e]) == Step(o, Run(o, history), e)
  {
    assert (history + [e])[..|history|] == history;
  }

  // ---------------------------------------------------------------- from messages to events

  /** The event a message stands for, if any: RTCP reports and hangups. */
  function EventsOf(m: Fields, read: FloatReader, now: int): seq<Event> {
    var s := SampleOf(m, read);
    if s.Some? then [Rtcp(s.value.channel, s.value.direction, s.value.packetLoss, now)]
    else if Lower(Lookup(m, "Event")) == "hangup" then [Hangup(ChannelOf(m), now)]
    else []
  }

  lemma HangupName(m: Fields)
    ensures Lower(Lookup(m, "Event")) == "hangup" <==> EqualFold(Lookup(m, "Event"), "Hangup")
    ensures !(EqualFold(Lookup(m, "Event"), "RTCPSent") && EqualFold(Lookup(m, "Event"), "Hangup"))
    ensures !(EqualFold(Lookup(m, "Event"), "RTCPReceived") && EqualFold(Lookup(m, "Event"), "Hangup"))
    ensures !(EqualFold(Lookup(m, "Event"), "RTCPSent") && EqualFold(Lookup(m, "Event"), "RTCPReceived"))
  {
    LowerIs(Lookup(m, "Event"), "hangup");
    EqualFoldExactly("hangup", "Hangup");
    assert |Lower("RTCPSent")| == 8 && |Lower("RTCPReceived")| == 12 && |Lower("Hangup")| == 6;
  }

  /** Which messages count for the aggregator, and for what. */
  lemma EventsExactly(m: Fields, read: FloatReader, now: int)
    ensures var event := Lookup(m, "Event");
            var c := if Lookup(m, "Channel") != "" then Lookup(m, "Channel") else Lookup(m, "ChannelObjectName");
            var loss := FirstReading(m, ["FractionLost", "ReportBlockFractionLost0", "ReportBlock0FractionLost"], read, LossOf);
            EventsOf(m, read, now) ==
            if EqualFold(event, "RTCPSent") then [Rtcp(c, Sent, loss, now)]
            else if EqualFold(event, "RTCPReceived") then [Rtcp(c, Received, loss, now)]
            else if EqualFold(event, "Hangup") then [Hangup(c, now)]
            else []
  {
    DirectionExactly(m);
    HangupName(m);
    ChannelExactly(m);
    if SampleOf(m, read).Some? {
      SampleExactly(m, read);
    }
  }

  /** What a message does to the table's entry of a channel. */
  function EntryAfter(m: Fields, now: int, entry: Option<Session>): Option<Session> {
    var event := Lookup(m, "Event");
    var s := if entry.Some? then entry.value else Session(now, now, 0, 0);
    if EqualFold(event, "RTCPSent") then Some(Session(s.firstSeen, now, s.sent + 1, s.received))
    else if EqualFold(event, "RTCPReceived") then Some(Session(s.firstSeen, now, s.sent, s.received + 1))
    else if EqualFold(event, "Hangup") then None
    else entry
  }

  lemma StepTotals(o: Options, s: State, e: Event)
    ensures Step(o, s, e).sentTotal == s.sentTotal + if e.Rtcp? && e.direction == Sent then 1 else 0
    ensures Step(o, s, e).receivedTotal == s.receivedTotal + if e.Rtcp? && e.direction == Received then 1 else 0
  {
  }

  lemma StepEntryAfter(o: Options, s: State, m: Fields, e: Event, x: string)
    requires e.Rtcp? || e.Hangup?
    requires e.Rtcp? && e.direction == Sent <==> EqualFold(Lookup(m, "Event"), "RTCPSent")
    requires e.Rtcp? && e.direction == Received <==> EqualFold(Lookup(m, "Event"), "RTCPReceived")
    requires e.Hangup? <==> EqualFold(Lookup(m, "Event"), "Hangup")
    ensures Entry(Step(o, s, e).table, x) ==
            if x != "" && x == e.channel then EntryAfter(m, e.now, Entry(s.table, x)) else Entry(s.table, x)
  {
  }

  lemma MessageMoves(o: Options, m: Fields, read: FloatReader, now: int, history: seq<Event>)
    ensures var s, t := Run(o, history), Run(o, history + EventsOf(m, read, now));
            var event := Lookup(m, "Event");
            var c := if Lookup(m, "Channel") != "" then Lookup(m, "Channel") else Lookup(m, "ChannelObjectName");
            && t.sentTotal == s.sentTotal + (if EqualFold(event, "RTCPSent") then 1 else 0)
            && t.receivedTotal == s.receivedTotal + (if EqualFold(event, "RTCPReceived") then 1 else 0)
            && forall x :: Entry(t.table, x) ==
                 if x != "" && x == c then EntryAfter(m, now, Entry(s.table, x)) else Entry(s.table, x)
  {
    EventsExactly(m, read, now);
    HangupName(m);
    var es := EventsOf(m, read, now);
    if es == [] {
      assert history + es == history;
    } else {
      var e, s := es[0], Run(o, history);
      assert es == [e];
      RunSnoc(o, history, e);
      StepTotals(o, s, e);
      forall x
        ensures Entry(Step(o, s, e).table, x) ==
                if x != "" && x == e.channel then EntryAfter(m, now, Entry(s.table, x)) else Entry(s.table, x)
      {
        StepEntryAfter(o, s, m, e, x);
      }
    }
  }

  // ---------------------------------------------------------------- the aggregator object

  class ChanState {
    var firstSeen: int
    var lastSeen: int
    var rtcpSent: nat
    var rtcpReceived: nat

    constructor (now: int)
      ensures AsSession() == Session(now, now, 0, 0)
    {
      firstSeen, lastSeen, rtcpSent, rtcpReceived := now, now, 0, 0;
    }

    function AsSession(): Session
      reads this
    {
      Session(firstSeen, lastSeen, rtcpSent, rtcpReceived)
    }

    method Hear(direction: Direction, now: int)
      modifies this
      ensures AsSession() == Heard(Some(old(AsSession())), direction, now)
    {
      lastSeen := now;
      match direction {
        case Sent => rtcpSent := rtcpSent + 1;
        case Received => rtcpReceived := rtcpReceived + 1;
      }
    }
  }

  class Aggregator {
    const opts: Options
    const read: FloatReader
    var channels: map<string, ChanState>
    var sentTotal: nat
    var receivedTotal: nat
    var noInbound: nat
    var noOutbound: nat
    var loss: map<LossKey, Float>
    var streamUp: bool
    var reconnects: nat
    ghost var history: seq<Event>

    ghost function Table(): map<string, Session>
      reads this`channels, channels.Values
    {
      map c | c in channels :: channels[c].AsSession()
    }

    ghost function Abstract(): State
      reads this, channels.Values
    {
      State(Table(), sentTotal, receivedTotal, noInbound, noOutbound, loss)
    }

    /** No two channels share a state object. */
    ghost predicate Separate()
      reads this`channels
    {
      forall c, d :: c in channels && d in channels && c != d ==> channels[c] != channels[d]
    }

    /** The fields hold the state of the history. */
    ghost predicate Valid()
      reads this, channels.Values
    {
      Separate() && Abstract() == Run(opts, history)
    }

    constructor (o: Options, read: FloatReader)
      ensures Valid() && history == [] && opts == WithDefaults(o) && this.read == read
      ensures opts.perChannel == o.perChannel
      ensures opts.minCall == if o.minCall == 0 then 5_000_000_000 else o.minCall
      ensures opts.channelTTL == if o.channelTTL == 0 then 3_600_000_000_000 else o.channelTTL
      ensures !streamUp && reconnects == 0 && channels == map[]
    {
      opts, this.read := WithDefaults(o), read;
      channels := map[];
      sentTotal, receivedTotal, noInbound, noOutbound := 0, 0, 0, 0;
      loss := map[];
      streamUp, reconnects := false, 0;
      history := [];
    }

    method SetStreamUp(up: bool)
      requires Valid()
      modifies this
      ensures Valid() && streamUp == up && reconnects == old(reconnects)
      ensures history == old(history) && channels == old(channels)
    {
      streamUp := up;
    }

    method IncReconnects()
      requires Valid()
      modifies this
      ensures Valid() && reconnects == old(reconnects) + 1 && streamUp == old(streamUp)
      ensures history == old(history) && channels == old(channels)
    {
      reconnects := reconnects + 1;
    }

    /** What the event-handling methods leave alone. */
    twostate predicate KeepsRest()
      reads this
    {
      streamUp == old(streamUp) && reconnects == old(reconnects)
    }

    /** Counts an event under its direction, and updates or removes the entry of its channel. */
    method Handle(m: Fields, now: int)
      requires Valid()
      modifies this, channels.Values
      ensures Valid() && history == old(history) + EventsOf(m, read, now)
      ensures fresh(channels.Values - old(channels.Values)) && KeepsRest()
      ensures sentTotal == old(sentTotal) + if EqualFold(Lookup(m, "Event"), "RTCPSent") then 1 else 0
      ensures receivedTotal == old(receivedTotal) + if EqualFold(Lookup(m, "Event"), "RTCPReceived") then 1 else 0
      ensures var c := if Lookup(m, "Channel") != "" then Lookup(m, "Channel") else Lookup(m, "ChannelObjectName");
              forall x :: Entry(Table(), x) ==
                if x != "" && x == c then EntryAfter(m, now, Entry(old(Table()), x)) else Entry(old(Table()), x)
    {
      MessageMoves(opts, m, read, now, history);
      var event := Lower(Lookup(m, "Event"));
      if event == "rtcpsent" || event == "rtcpreceived" {
        HandleRTCP(m, now);
      } else if event == "hangup" {
        HandleHangup(m, now);
      } else {
        assert history == old(history) + [];
      }
    }

    method HandleRTCP(m: Fields, now: int)
      requires Valid() && DirectionOf(m).Some?
      modifies this, channels.Values
      ensures Valid() && history == old(history) + EventsOf(m, read, now)
      ensures fresh(channels.Values - old(channels.Values)) && KeepsRest()
    {
      var sample := Parse(m, read);
      Record(sample.value, now);
      Remember(old(Abstract()), Rtcp(sample.value.channel, sample.value.direction, sample.value.packetLoss, now));
    }

    method HandleHangup(m: Fields, now: int)
      requires Valid() && DirectionOf(m).None? && Lower(Lookup(m, "Event")) == "hangup"
      modifies this
      ensures Valid() && history == old(history) + EventsOf(m, read, now)
      ensures channels.Values <= old(channels.Values) && KeepsRest()
    {
      var channel := FirstNonEmpty([Lookup(m, "Channel"), Lookup(m, "ChannelObjectName")]);
      Close(channel, now);
      Remember(old(Abstract()), Hangup(channel, now));
    }

    /** Drops the channels not heard since `now - channelTTL`; `now` was read before the lock. */
    method GcStaleChannels(now: int)
      requires Valid()
      modifies this
      ensures Valid() && history == old(history) + [Prune(now)]
      ensures channels.Values <= old(channels.Values) && KeepsRest()
    {
      var cutoff := now - opts.channelTTL;
      Evict(cutoff);
      assert Table() == Step(opts, old(Abstract()), Prune(now)).table;
      Remember(old(Abstract()), Prune(now));
    }

    /** Appends an event that has taken effect to the history. */
    ghost method Remember(before: State, e: Event)
      requires Separate() && before == Run(opts, history) && Abstract() == Step(opts, before, e)
      modifies this`history
      ensures Valid() && history == old(history) + [e] && Abstract() == old(Abstract())
    {
      RunSnoc(opts, history, e);
      var state := Abstract();
      history := history + [e];
      assert Abstract() == state;
    }

    /** What `HandleRTCP` does with a parsed sample. */
    method Record(s: Sample, now: int)
      requires Separate()
      modifies this, channels.Values
      ensures Separate() && history == old(history) && KeepsRest()
      ensures Abstract() == Step(opts, old(Abstract()), Rtcp(s.channel, s.direction, s.packetLoss, now))
      ensures fresh(channels.Values - old(channels.Values))
    {
      Count(s);
      if s.channel == "" {
        return;
      }
      Touch(s.channel, s.direction, now);
    }

    /** The counters and gauges of `HandleRTCP`, which need no lock. */
    method Count(s: Sample)
      modifies this`sentTotal, this`receivedTotal, this`loss
      ensures sentTotal == old(sentTotal) + (if s.direction == Sent then 1 else 0)
      ensures receivedTotal == old(receivedTotal) + (if s.direction == Received then 1 else 0)
      ensures loss == if s.packetLoss.None? then old(loss)
                      else old(loss)[LossKey(if opts.perChannel then s.channel else "", s.direction) := s.packetLoss.value]
    {
      match s.direction {
        case Sent => sentTotal := sentTotal + 1;
        case Received => receivedTotal := receivedTotal + 1;
      }
      if s.packetLoss.Some? {
        loss := loss[LossKey(if opts.perChannel then s.channel else "", s.direction) := s.packetLoss.value];
      }
    }

    /** The entry of the channel, created if there is none. */
    method FindOrCreate(channel: string, now: int) returns (st: ChanState)
      requires Separate()
      modifies this`channels
      ensures Separate() && channel in channels && channels[channel] == st
      ensures channels.Values <= old(channels.Values) + {st} && fresh(channels.Values - old(channels.Values))
      ensures Table() == old(Table()[channel := if channel in Table() then Table()[channel] else Session(now, now, 0, 0)])
    {
      if channel !in channels {
        var created := new ChanState(now);
        channels := channels[channel := created];
      }
      st := channels[channel];
    }

    /** The locked part of `HandleRTCP`. */
    method Touch(channel: string, direction: Direction, now: int)
      requires Separate()
      modifies this`channels, channels.Values
      ensures Separate() && fresh(channels.Values - old(channels.Values))
      ensures Table() == old(Table()[channel := Heard(Entry(Table(), channel), direction, now)])
    {
      var st := FindOrCreate(channel, now);
      ghost var found := Table();
      st.Hear(direction, now);
      assert Table() == found[channel := Heard(Some(found[channel]), direction, now)];
    }

    /** What `HandleHangup` does with the channel's name. */
    method Close(channel: string, now: int)
      requires Separate()
      modifies this
      ensures Separate() && history == old(history) && KeepsRest()
      ensures Abstract() == Step(opts, old(Abstract()), Hangup(channel, now))
      ensures channels.Values <= old(channels.Values)
    {
      if channel == "" {
        return;
      }
      var st := Remove(channel);
      if st == null || now - st.firstSeen < opts.minCall {
        return;
      }
      if st.rtcpSent > 0 && st.rtcpReceived == 0 {
        noInbound := noInbound + 1;
      } else if st.rtcpReceived > 0 && st.rtcpSent == 0 {
        noOutbound := noOutbound + 1;
      }
    }

    /** The locked part of `HandleHangup`: takes the channel's state out of the table. */
    method Remove(channel: string) returns (st: ChanState?)
      requires Separate()
      modifies this`channels
      ensures Separate() && channels.Values <= old(channels.Values)
      ensures Table() == old(Table()) - {channel}
      ensures if st == null then old(Entry(Table(), channel)) == None
              else old(Entry(Table(), channel)) == Some(st.AsSession())
    {
      if channel !in channels {
        assert Table() - {channel} == Table();
        return null;
      }
      st := channels[channel];
      channels := channels - {channel};
    }

    /** The locked part of `GcStaleChannels`. */
    method Evict(cutoff: int)
      requires Separate()
      modifies this`channels
      ensures Separate() && channels.Values <= old(channels.Values)
      ensures Table() == old(map c | c in Table() && !(Table()[c].lastSeen < cutoff) :: Table()[c])
    {
      ghost var before := channels;
      var todo := channels.Keys;
      while todo != {}
        invariant todo <= channels.Keys <= before.Keys
        invariant forall c :: c in channels ==> channels[c] == before[c]
        invariant forall c :: c in before && c !in todo ==> (c in channels <==> !(before[c].lastSeen < cutoff))
      {
        var k :| k in todo;
        if channels[k].lastSeen < cutoff {
          channels := channels - {k};
        }
        todo := todo - {k};
      }
    }
  }
}
