/**
 * What the table and the verdict counters mean in terms of the history alone. A session of a
 * channel is the run of RTCP events on it since the last event that closed it: a hangup of
 * the channel, or a prune whose cutoff lies behind everything heard on it so far.
 */
module Sessions {
  import opened Text
  import opened Parser
  import opened Aggregators

  type History = seq<Event>

  // ---------------------------------------------------------------- sessions of a history

  predicate IsRtcpOn(e: Event, c: string) {
    e.Rtcp? && e.channel == c
  }

  /** The time of the last RTCP event on `c`. */
  function LastHeard(h: History, c: string): Option<int> {
    if h == [] then None
    else if IsRtcpOn(h[|h| - 1], c) then Some(h[|h| - 1].now)
    else LastHeard(h[..|h| - 1], c)
  }

  /** Event `j` ends whatever session `c` has: it hangs `c` up, or evicts it as stale. */
  predicate Closes(o: Options, h: History, j: nat, c: string)
    requires j < |h|
  {
    match h[j]
    case Rtcp(_, _, _, _) => false
    case Hangup(channel, _) => channel == c
    case Prune(now) =>
      var heard := LastHeard(h[..j], c);
      heard.Some? && heard.value < now - o.channelTTL
  }

  /** The position right behind the last event that closes `c`. */
  function Opened(o: Options, h: History, c: string): (k: nat)
    ensures k <= |h|
  {
    if h == [] then 0
    else if Closes(o, h, |h| - 1, c) then |h|
    else Opened(o, h[..|h| - 1], c)
  }

  function RtcpOn(h: History, c: string): (es: seq<Event>)
    ensures forall e :: e in es ==> IsRtcpOn(e, c)
  {
    if h == [] then []
    else RtcpOn(h[..|h| - 1], c) + if IsRtcpOn(h[|h| - 1], c) then [h[|h| - 1]] else []
  }

  /** The RTCP events of the open session of `c`. */
  function OpenSession(o: Options, h: History, c: string): (es: seq<Event>)
    ensures forall e :: e in es ==> IsRtcpOn(e, c)
  {
    RtcpOn(h[Opened(o, h, c)..], c)
  }

  function CountDirection(es: seq<Event>, d: Direction): nat {
    if es == [] then 0
    else CountDirection(es[..|es| - 1], d) + if es[|es| - 1].Rtcp? && es[|es| - 1].direction == d then 1 else 0
  }

  /** The table entry a session amounts to: its first time, last time and counts. */
  function Summary(es: seq<Event>): Option<Session> {
    if es == [] then None
    else Some(Session(es[0].now, es[|es| - 1].now, CountDirection(es, Sent), CountDirection(es, Received)))
  }

  // ---------------------------------------------------------------- one event more

  lemma {:induction false} OpenedIs(o: Options, h: History, c: string)
    ensures Opened(o, h, c) > 0 ==> Closes(o, h, Opened(o, h, c) - 1, c)
    ensures forall j :: Opened(o, h, c) <= j < |h| ==> !Closes(o, h, j, c)
  {
    if h != [] && !Closes(o, h, |h| - 1, c) {
      var p := h[..|h| - 1];
      OpenedIs(o, p, c);
      forall j | 0 <= j < |p| ensures Closes(o, p, j, c) == Closes(o, h, j, c) {
        assert p[..j] == h[..j];
      }
    }
  }

  lemma OpenSessionSnoc(o: Options, h: History, e: Event, c: string)
    ensures OpenSession(o, h + [e], c) ==
            if Closes(o, h + [e], |h|, c) then []
            else if IsRtcpOn(e, c) then OpenSession(o, h, c) + [e]
            else OpenSession(o, h, c)
  {
    var g := h + [e];
    assert g[..|g| - 1] == h;
    if !Closes(o, g, |h|, c) {
      var k := Opened(o, h, c);
      assert g[k..] == h[k..] + [e];
      assert (h[k..] + [e])[..|h[k..]|] == h[k..];
    }
  }

  lemma LastHeardSnoc(h: History, e: Event, c: string)
    ensures LastHeard(h + [e], c) == if IsRtcpOn(e, c) then Some(e.now) else LastHeard(h, c)
  {
    assert (h + [e])[..|h|] == h;
  }

  /** What was last heard in an open session was last heard at all. */
  lemma {:induction false} OpenSessionHeard(o: Options, h: History, c: string)
    ensures OpenSession(o, h, c) != [] ==>
              LastHeard(h, c) == Some(OpenSession(o, h, c)[|OpenSession(o, h, c)| - 1].now)
  {
    if h != [] {
      var p, e := h[..|h| - 1], h[|h| - 1];
      assert h == p + [e];
      OpenSessionHeard(o, p, c);
      OpenSessionSnoc(o, p, e, c);
      LastHeardSnoc(p, e, c);
    }
  }

  lemma SummarySnoc(es: seq<Event>, e: Event)
    requires e.Rtcp?
    ensures Summary(es + [e]) == Some(Heard(Summary(es), e.direction, e.now))
  {
    assert (es + [e])[..|es|] == es;
  }

  // ---------------------------------------------------------------- one channel by itself

  function EntryStep(o: Options, entry: Option<Session>, e: Event, c: string): Option<Session> {
    match e
    case Rtcp(channel, direction, _, now) => if channel == c then Some(Heard(entry, direction, now)) else entry
    case Hangup(channel, _) => if channel == c then None else entry
    case Prune(now) => if entry.Some? && Stale(o, entry.value, now) then None else entry
  }

  /** The entry of `c`, followed through the history without the rest of the state. */
  function ChannelRun(o: Options, h: History, c: string): Option<Session> {
    if h == [] then None
    else EntryStep(o, ChannelRun(o, h[..|h| - 1], c), h[|h| - 1], c)
  }

  lemma ChannelSnoc(o: Options, h: History, e: Event, c: string)
    ensures ChannelRun(o, h + [e], c) == EntryStep(o, ChannelRun(o, h, c), e, c)
  {
    assert (h + [e])[..|h|] == h;
  }

  lemma StepEntry(o: Options, s: State, e: Event, c: string)
    requires c != ""
    ensures Entry(Step(o, s, e).table, c) == EntryStep(o, Entry(s.table, c), e, c)
  {
  }

  lemma {:induction false} EntryIsChannelRun(o: Options, h: History, c: string)
    requires c != ""
    ensures Entry(Run(o, h).table, c) == ChannelRun(o, h, c)
  {
    if h != [] {
      EntryIsChannelRun(o, h[..|h| - 1], c);
      StepEntry(o, Run(o, h[..|h| - 1]), h[|h| - 1], c);
    }
  }

  // ---------------------------------------------------------------- the table is the open sessions

  lemma {:induction false} TableHasOnlyNames(o: Options, h: History)
    ensures "" !in Run(o, h).table
  {
    if h != [] {
      TableHasOnlyNames(o, h[..|h| - 1]);
    }
  }

  lemma {:induction false} ChannelRunIsSession(o: Options, h: History, c: string)
    ensures ChannelRun(o, h, c) == Summary(OpenSession(o, h, c))
  {
    if h != [] {
      var p, e := h[..|h| - 1], h[|h| - 1];
      assert h == p + [e];
      ChannelRunIsSession(o, p, c);
      OpenSessionSnoc(o, p, e, c);
      OpenSessionHeard(o, p, c);
      var es := OpenSession(o, p, c);
      if e.Prune? {
        assert h[..|p|] == p;
      } else if IsRtcpOn(e, c) {
        SummarySnoc(es, e);
      }
    }
  }

  /** A channel's entry summarises its open session; without one there is no entry. */
  lemma TableIsOpenSessions(o: Options, h: History, c: string)
    requires c != ""
    ensures Entry(Run(o, h).table, c) == Summary(OpenSession(o, h, c))
  {
    EntryIsChannelRun(o, h, c);
    ChannelRunIsSession(o, h, c);
  }

  lemma OpenSessionExact(o: Options, h: History, c: string)
    ensures OpenSession(o, h, c) != [] <==> exists i :: Opened(o, h, c) <= i < |h| && IsRtcpOn(h[i], c)
  {
    var k := Opened(o, h, c);
    var tail := h[k..];
    RtcpOnExact(tail, c);
    assert forall i :: 0 <= i < |tail| ==> tail[i] == h[k + i];
    assert forall i :: k <= i < |h| ==> h[i] == tail[i - k];
  }

  /** Event `i` is an RTCP event on `c` behind which nothing closes `c`. */
  ghost predicate HeardOpen(o: Options, h: History, c: string, i: nat) {
    i < |h| && IsRtcpOn(h[i], c) && forall j :: i < j < |h| ==> !Closes(o, h, j, c)
  }

  /**
   * A channel is in the table exactly when it has had an RTCP event since its last hangup or
   * eviction.
   */
  lemma LiveExactlyIfHeardSinceClosed(o: Options, h: History, c: string)
    requires c != ""
    ensures c in Run(o, h).table <==> exists i :: HeardOpen(o, h, c, i)
  {
    TableIsOpenSessions(o, h, c);
    OpenSessionExact(o, h, c);
    OpenedIs(o, h, c);
    var k := Opened(o, h, c);
    if i: nat :| HeardOpen(o, h, c, i) {
      assert k <= i + 1;
      assert k - 1 == i ==> !Closes(o, h, i, c);
    }
    if c in Run(o, h).table {
      var i :| k <= i < |h| && IsRtcpOn(h[i], c);
      assert HeardOpen(o, h, c, i);
    }
  }

  lemma {:induction false} RtcpOnExact(h: History, c: string)
    ensures RtcpOn(h, c) != [] <==> exists i :: 0 <= i < |h| && IsRtcpOn(h[i], c)
  {
    if h != [] {
      RtcpOnExact(h[..|h| - 1], c);
      assert forall i :: 0 <= i < |h| - 1 ==> h[..|h| - 1][i] == h[i];
    }
  }

  // ---------------------------------------------------------------- the counters are the one-way hangups

  /** The verdict the hangup at `j` deserves by the session it closes; nothing for other events. */
  function VerdictAt(o: Options, h: History, j: nat): Verdict
    requires j < |h|
  {
    if h[j].Hangup? && h[j].channel != "" then VerdictOn(o, Summary(OpenSession(o, h[..j], h[j].channel)), h[j].now)
    else NoVerdict
  }

  function Verdicts(o: Options, h: History, v: Verdict): set<nat> {
    set j: nat | j < |h| && VerdictAt(o, h, j) == v
  }

  lemma VerdictAtPrefix(o: Options, h: History, e: Event, j: nat)
    requires j < |h|
    ensures VerdictAt(o, h + [e], j) == VerdictAt(o, h, j)
  {
    assert (h + [e])[..j] == h[..j];
    assert (h + [e])[j] == h[j];
  }

  lemma VerdictsSnoc(o: Options, h: History, e: Event, v: Verdict)
    requires v != NoVerdict
    ensures |Verdicts(o, h + [e], v)| == |Verdicts(o, h, v)| + if VerdictAt(o, h + [e], |h|) == v then 1 else 0
  {
    forall j: nat | j < |h| ensures j in Verdicts(o, h + [e], v) <==> j in Verdicts(o, h, v) {
      VerdictAtPrefix(o, h, e, j);
    }
    OneMore(Verdicts(o, h, v), Verdicts(o, h + [e], v), |h|);
  }

  lemma OneMore(a: set<nat>, b: set<nat>, n: nat)
    requires forall j :: j in a ==> j < n
    requires forall j :: j in b ==> j <= n
    requires forall j: nat :: j < n ==> (j in b <==> j in a)
    ensures |b| == |a| + if n in b then 1 else 0
  {
    if n in b {
      assert b == a + {n};
    } else {
      assert b == a;
    }
  }

  /** Each counter is the number of hangups that closed a one-directional session of enough length. */
  lemma {:induction false} CountersAreVerdicts(o: Options, h: History)
    ensures Run(o, h).noInbound == |Verdicts(o, h, NoInbound)|
    ensures Run(o, h).noOutbound == |Verdicts(o, h, NoOutbound)|
  {
    if h != [] {
      var p, e := h[..|h| - 1], h[|h| - 1];
      assert h == p + [e];
      CountersAreVerdicts(o, p);
      VerdictsSnoc(o, p, e, NoInbound);
      VerdictsSnoc(o, p, e, NoOutbound);
      assert h[..|p|] == p;
      if e.Hangup? && e.channel != "" {
        TableIsOpenSessions(o, p, e.channel);
      }
    }
  }

  /** When a verdict is given, in full: one direction heard, the other never, and long enough. */
  lemma VerdictExact(o: Options, h: History, j: nat)
    requires j < |h|
    ensures VerdictAt(o, h, j) == NoInbound <==>
              h[j].Hangup? && h[j].channel != "" &&
              var es := OpenSession(o, h[..j], h[j].channel);
              es != [] && h[j].now - es[0].now >= o.minCall && forall e :: e in es ==> e.direction == Sent
    ensures VerdictAt(o, h, j) == NoOutbound <==>
              h[j].Hangup? && h[j].channel != "" &&
              var es := OpenSession(o, h[..j], h[j].channel);
              es != [] && h[j].now - es[0].now >= o.minCall && forall e :: e in es ==> e.direction == Received
  {
    if h[j].Hangup? {
      var es := OpenSession(o, h[..j], h[j].channel);
      CountsExact(es);
      if es != [] {
        assert es[0] in es;
      }
    }
  }

  lemma {:induction false} CountsExact(es: seq<Event>)
    requires forall e :: e in es ==> e.Rtcp?
    ensures CountDirection(es, Received) == 0 <==> forall e :: e in es ==> e.direction == Sent
    ensures CountDirection(es, Sent) == 0 <==> forall e :: e in es ==> e.direction == Received
    ensures CountDirection(es, Sent) + CountDirection(es, Received) == |es|
  {
    if es != [] {
      var p, e := es[..|es| - 1], es[|es| - 1];
      InSnoc(es);
      CountsExact(p);
    }
  }

  lemma InSnoc(es: seq<Event>)
    requires es != []
    ensures forall x :: x in es <==> x in es[..|es| - 1] || x == es[|es| - 1]
  {
    assert es == es[..|es| - 1] + [es[|es| - 1]];
  }
}
