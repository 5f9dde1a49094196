/**
 * What a scrape's phases emit, metric by metric: which fields of which rows each metric comes
 * from, and when it is there at all.
 */
module ScrapeOutputs {
  import opened Text
  import opened Messages
  import opened Clients
  import opened Parser
  import opened Grouping
  import opened Collectors

  // ---------------------------------------------------------------- channels

  /** The state and the call of a channel row. */
  lemma ChannelRowExactly(m: Fields)
    ensures StateOf(m) ==
            if Lookup(m, "ChannelStateDesc") != "" then Lookup(m, "ChannelStateDesc")
            else if Lookup(m, "ChannelState") != "" then Lookup(m, "ChannelState")
            else "Unknown"
    ensures CallOf(m) == if Lookup(m, "Linkedid") != "" then Lookup(m, "Linkedid") else Lookup(m, "Uniqueid")
  {
    var a, b := Lookup(m, "ChannelStateDesc"), Lookup(m, "ChannelState");
    var c, d := Lookup(m, "Linkedid"), Lookup(m, "Uniqueid");
    FirstNonEmptySpec([a, b, "Unknown"], if a != "" then 0 else if b != "" then 1 else 2);
    FirstNonEmptySpec([c, d], if c != "" then 0 else if d != "" then 1 else 2);
  }

  lemma CallIdsExactly(items: seq<Fields>, id: string)
    ensures id in CallIds(items) <==> id != "" && exists m :: m in items && CallOf(m) == id
  {
    var ids := Map(CallOf, items);
    if id in ids {
      var i :| 0 <= i < |ids| && ids[i] == id;
      assert items[i] in items;
    }
    if m :| m in items && CallOf(m) == id {
      var i :| 0 <= i < |items| && items[i] == m;
      assert ids[i] == id;
    }
  }

  /** The output is its first metric, its last and those in between. */
  lemma OutputParts(out: seq<Metric>, x: Metric)
    requires |out| >= 2
    ensures x in out <==> x == out[0] || x == out[|out| - 1] || x in multiset(out[1..|out| - 1])
  {
    assert out == [out[0]] + out[1..|out| - 1] + [out[|out| - 1]];
    assert x in out[1..|out| - 1] <==> x in multiset(out[1..|out| - 1]);
  }

  lemma StateMetricsExactly(items: seq<Fields>, s: string, n: nat)
    ensures ChannelsByState(s, n) in StateMetrics(StateCounts(items)) <==>
            n > 0 && n == multiset(Map(StateOf, items))[s]
  {
    var counts := StateCounts(items);
    CountByIs(Map(StateOf, items), s);
    assert s in Map(StateOf, items) <==> multiset(Map(StateOf, items))[s] > 0;
  }

  lemma ChannelOutputMembers(items: seq<Fields>, out: seq<Metric>, x: Metric)
    requires ChannelOutput(items, out)
    ensures x in out <==>
            x == ChannelsActive(|items|) || x == CallsActive(|CallIds(items)|) || x in StateMetrics(StateCounts(items))
  {
    var states := StateMetrics(StateCounts(items));
    OutputParts(out, x);
    assert x in multiset(out[1..|out| - 1]) <==> x in multiset(states);
  }

  /**
   * The number of rows, the number of calls, and for each state that occurs the number of rows in
   * it, and nothing else.
   */
  lemma ChannelMetricsExactly(items: seq<Fields>, out: seq<Metric>)
    requires ChannelOutput(items, out)
    ensures forall n :: ChannelsActive(n) in out <==> n == |items|
    ensures forall n :: CallsActive(n) in out <==> n == |CallIds(items)|
    ensures forall s, n :: ChannelsByState(s, n) in out <==> n > 0 && n == multiset(Map(StateOf, items))[s]
    ensures forall x :: x in out ==> x.ChannelsActive? || x.CallsActive? || x.ChannelsByState?
  {
    forall n ensures ChannelsActive(n) in out <==> n == |items| {
      ChannelOutputMembers(items, out, ChannelsActive(n));
    }
    forall n ensures CallsActive(n) in out <==> n == |CallIds(items)| {
      ChannelOutputMembers(items, out, CallsActive(n));
    }
    forall s, n ensures ChannelsByState(s, n) in out <==> n > 0 && n == multiset(Map(StateOf, items))[s] {
      ChannelOutputMembers(items, out, ChannelsByState(s, n));
      StateMetricsExactly(items, s, n);
    }
    forall x | x in out ensures x.ChannelsActive? || x.CallsActive? || x.ChannelsByState? {
      ChannelOutputMembers(items, out, x);
    }
  }

  // ---------------------------------------------------------------- queues

  /** The label of a member's status code. */
  lemma StatusLabelsExactly(s: string)
    ensures TrimSpace(s) == "" || TrimSpace(s) == "0" ==> QueueMemberStatus(s) == "unknown"
    ensures TrimSpace(s) == "1" ==> QueueMemberStatus(s) == "not_in_use"
    ensures TrimSpace(s) == "2" ==> QueueMemberStatus(s) == "in_use"
    ensures TrimSpace(s) == "3" ==> QueueMemberStatus(s) == "busy"
    ensures TrimSpace(s) == "4" ==> QueueMemberStatus(s) == "invalid"
    ensures TrimSpace(s) == "5" ==> QueueMemberStatus(s) == "unavailable"
    ensures TrimSpace(s) == "6" ==> QueueMemberStatus(s) == "ringing"
    ensures TrimSpace(s) == "7" ==> QueueMemberStatus(s) == "ringinuse"
    ensures TrimSpace(s) == "8" ==> QueueMemberStatus(s) == "on_hold"
    ensures TrimSpace(s) !in ["", "0", "1", "2", "3", "4", "5", "6", "7", "8"] ==> QueueMemberStatus(s) == s
  {
    var codes := ["", "0", "1", "2", "3", "4", "5", "6", "7", "8"];
    assert codes[0] == "" && codes[1] == "0" && codes[2] == "1" && codes[3] == "2" && codes[4] == "3";
    assert codes[5] == "4" && codes[6] == "5" && codes[7] == "6" && codes[8] == "7" && codes[9] == "8";
  }

  lemma SummaryName(m: Fields)
    ensures Lower(Lookup(m, "Event")) == "queueparams" <==> EqualFold(Lookup(m, "Event"), "QueueParams")
  {
    LowerIs(Lookup(m, "Event"), "queueparams");
    EqualFoldExactly("queueparams", "QueueParams");
  }

  lemma MemberName(m: Fields)
    ensures Lower(Lookup(m, "Event")) == "queuemember" <==> EqualFold(Lookup(m, "Event"), "QueueMember")
  {
    LowerIs(Lookup(m, "Event"), "queuemember");
    EqualFoldExactly("queuemember", "QueueMember");
  }

  /** Which rows are members, and of which queue with which status. */
  lemma MemberRowExactly(m: Fields)
    ensures IsMember(m) <==> EqualFold(Lookup(m, "Event"), "QueueMember") && Lookup(m, "Queue") != ""
    ensures RowOf(m) == Row(Lookup(m, "Queue"), QueueMemberStatus(Lookup(m, "Status")))
  {
    MemberName(m);
  }

  lemma GaugeExactly(read: FloatReader, value: string, metric: Float -> Metric, x: Metric)
    ensures x in Gauge(read, value, metric) <==> value != "" && read(value).Some? && x == metric(read(value).value)
  {
  }

  lemma SummaryParts(m: Fields, read: FloatReader, x: Metric)
    ensures x in ParamMetrics(m, read) <==>
            EqualFold(Lookup(m, "Event"), "QueueParams") && Lookup(m, "Queue") != "" &&
            (|| x in Gauge(read, Lookup(m, "Calls"), f => QueueCallers(Lookup(m, "Queue"), f))
             || x in Gauge(read, Lookup(m, "Completed"), f => QueueCompleted(Lookup(m, "Queue"), f))
             || x in Gauge(read, Lookup(m, "Abandoned"), f => QueueAbandoned(Lookup(m, "Queue"), f)))
  {
    SummaryName(m);
  }

  /** A queue summary gives a metric for each of its three numbers that can be read, under its own name. */
  lemma QueueSummaryExactly(m: Fields, read: FloatReader, x: Metric)
    ensures x in ParamMetrics(m, read) <==>
            EqualFold(Lookup(m, "Event"), "QueueParams") && Lookup(m, "Queue") != "" &&
            match x
            case QueueCallers(queue, v) =>
              queue == Lookup(m, "Queue") && Lookup(m, "Calls") != "" && read(Lookup(m, "Calls")) == Some(v)
            case QueueCompleted(queue, v) =>
              queue == Lookup(m, "Queue") && Lookup(m, "Completed") != "" && read(Lookup(m, "Completed")) == Some(v)
            case QueueAbandoned(queue, v) =>
              queue == Lookup(m, "Queue") && Lookup(m, "Abandoned") != "" && read(Lookup(m, "Abandoned")) == Some(v)
            case _ => false
  {
    var queue := Lookup(m, "Queue");
    SummaryParts(m, read, x);
    GaugeExactly(read, Lookup(m, "Calls"), f => QueueCallers(queue, f), x);
    GaugeExactly(read, Lookup(m, "Completed"), f => QueueCompleted(queue, f), x);
    GaugeExactly(read, Lookup(m, "Abandoned"), f => QueueAbandoned(queue, f), x);
  }

  lemma {:induction false} AllSummaries(items: seq<Fields>, read: FloatReader, x: Metric)
    ensures x in AllParamMetrics(items, read) <==> exists m :: m in items && x in ParamMetrics(m, read)
  {
    if items != [] {
      var p, last := items[..|items| - 1], items[|items| - 1];
      assert items == p + [last];
      AllSummaries(p, read, x);
      assert x in AllParamMetrics(items, read) <==> x in AllParamMetrics(p, read) || x in ParamMetrics(last, read);
      assert forall m :: m in items <==> m in p || m == last;
    }
  }

  lemma MemberMetricsExactly(rows: seq<Row>, queue: string, status: string, n: nat)
    ensures QueueMembers(queue, status, n) in MemberMetrics(CountMembers(rows)) <==>
            n > 0 && n == multiset(rows)[Row(queue, status)]
  {
    CountMembersIs(rows, queue, status);
    assert Row(queue, status) in rows <==> multiset(rows)[Row(queue, status)] > 0;
  }

  lemma QueueOutputMembers(items: seq<Fields>, read: FloatReader, out: seq<Metric>, x: Metric)
    requires QueueOutput(items, read, out)
    ensures x in out <==> x in AllParamMetrics(items, read) || x in MemberMetrics(CountMembers(MemberRows(items)))
  {
    var params, members := AllParamMetrics(items, read), MemberMetrics(CountMembers(MemberRows(items)));
    assert out == params + out[|params|..];
    assert x in out[|params|..] <==> x in multiset(out[|params|..]);
    assert x in multiset(out[|params|..]) <==> x in multiset(members);
  }

  lemma NoMembersInSummaries(items: seq<Fields>, read: FloatReader, x: Metric)
    requires x in AllParamMetrics(items, read)
    ensures !x.QueueMembers?
  {
    AllSummaries(items, read, x);
    var m :| m in items && x in ParamMetrics(m, read);
    QueueSummaryExactly(m, read, x);
  }

  /**
   * For each queue and status that occurs the number of member rows with it, and the metrics of
   * the queue summaries, and nothing else.
   */
  lemma QueueMetricsExactly(items: seq<Fields>, read: FloatReader, out: seq<Metric>, x: Metric)
    requires QueueOutput(items, read, out)
    ensures x in out <==>
            if x.QueueMembers? then x.count > 0 && x.count == multiset(MemberRows(items))[Row(x.queue, x.status)]
            else exists m :: m in items && x in ParamMetrics(m, read)
  {
    QueueOutputMembers(items, read, out, x);
    if x.QueueMembers? {
      MemberMetricsExactly(MemberRows(items), x.queue, x.status, x.count);
      if x in AllParamMetrics(items, read) {
        NoMembersInSummaries(items, read, x);
      }
    } else {
      AllSummaries(items, read, x);
    }
  }

  // ---------------------------------------------------------------- the core phase and the order of phases

  /** The version under either of its names, the system name, and the number of calls if it can be read. */
  lemma CoreMetricsExactly(settings: Fields, status: Fields, read: FloatReader)
    ensures var version := if Lookup(settings, "AsteriskVersion") != "" then Lookup(settings, "AsteriskVersion")
                           else Lookup(settings, "Version");
            var calls := Lookup(status, "CoreCurrentCalls");
            CoreMetrics(settings, status, read) ==
            [Info(version, Lookup(settings, "SystemName"))] +
            if calls != "" && read(calls).Some? then [CurrentCalls(read(calls).value)] else []
  {
    var a, b := Lookup(settings, "AsteriskVersion"), Lookup(settings, "Version");
    FirstNonEmptySpec([a, b], if a != "" then 0 else if b != "" then 1 else 2);
  }

  /** The phases after a login, in their order. */
  lemma PhaseOrderExactly(o: ScrapeOptions)
    ensures PhasesAfterLogin(o) ==
            [CoreStatus, ChannelList] + (if o.disableSIP then [] else [SipPeers]) +
            (if o.disablePJSIP then [] else [PjsipEndpoints]) + (if o.disableQueues then [] else [Queues])
  {
  }

  /** Each phase works on its own reply, with its own reader. */
  lemma PhaseOutputExactly(p: Phase, r: Replies, readers: Readers, out: seq<Metric>)
    requires !Fails(p, r, readers)
    ensures p == CoreStatus ==>
              r.settings.Response? && r.status.Response? &&
              (Emits(p, r, readers, out) <==> out == CoreMetrics(r.settings.message, r.status.message, readers.float))
    ensures p == ChannelList ==> r.channels.Items? && (Emits(p, r, readers, out) <==> ChannelOutput(r.channels.items, out))
    ensures p == SipPeers ==>
              (Emits(p, r, readers, out) <==> out == if r.sipPeers.Items? then readers.groupSip(r.sipPeers.items) else [])
    ensures p == PjsipEndpoints ==>
              (Emits(p, r, readers, out) <==>
               out == if r.pjsipEndpoints.Items? then readers.groupPjsip(r.pjsipEndpoints.items) else [])
    ensures p == Queues ==>
              (Emits(p, r, readers, out) <==>
               if r.queues.Items? then QueueOutput(r.queues.items, readers.float, out) else out == [])
  {
  }

  lemma {:induction false} FirstFailing(ps: seq<Phase>, r: Replies, readers: Readers, i: nat)
    requires i <= |ps| && forall j :: 0 <= j < i ==> !Fails(ps[j], r, readers)
    requires i < |ps| ==> Fails(ps[i], r, readers)
    ensures First(Failing(ps, r, readers)) == if i < |ps| then Some(ps[i]) else None
  {
    if ps != [] {
      var p := ps[..|ps| - 1];
      FirstFailing(p, r, readers, if i < |p| then i else |p|);
    }
  }

  /**
   * The error of a scrape is that of the dial, else of the login, else of the first phase in the
   * order of the phases that fails; and there is none only if nothing failed.
   */
  lemma FirstErrorExactly(o: ScrapeOptions, r: Replies, readers: Readers, i: nat)
    requires i <= |PhasesAfterLogin(o)| && forall j :: 0 <= j < i ==> !Fails(PhasesAfterLogin(o)[j], r, readers)
    requires i < |PhasesAfterLogin(o)| ==> Fails(PhasesAfterLogin(o)[i], r, readers)
    ensures First(FailedPhases(o, r, readers)) ==
            if !r.dialled then Some(Dial)
            else if !r.loggedIn then Some(Login)
            else if i < |PhasesAfterLogin(o)| then Some(PhasesAfterLogin(o)[i])
            else None
  {
    FirstFailing(PhasesAfterLogin(o), r, readers, i);
  }
}
