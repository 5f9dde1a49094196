/**
 * One scrape: phases in a fixed order over one connection, an error counter per phase, and
 * the rows of the channel and queue lists grouped into counts. The replies to the phases'
 * requests are inputs; how a reply comes about is the business of module `Clients`.
 */
module Collectors {
  import opened Text
  import opened Messages
  import opened Clients
  import opened Parser
  import opened Grouping
  import opened Sums

  datatype Metric =
    | Info(version: string, systemName: string)
    | CurrentCalls(value: Float)
    | ChannelsActive(count: nat)
    | ChannelsByState(state: string, count: nat)
    | CallsActive(count: nat)
    | QueueCallers(queue: string, value: Float)
    | QueueCompleted(queue: string, value: Float)
    | QueueAbandoned(queue: string, value: Float)
    | QueueMembers(queue: string, status: string, count: nat)
    | PeerMetric(name: string, labels: seq<string>, value: Float)

  // ---------------------------------------------------------------- the channel list

  function StateOf(m: Fields): string {
    FirstNonEmpty([Lookup(m, "ChannelStateDesc"), Lookup(m, "ChannelState"), "Unknown"])
  }

  function CallOf(m: Fields): string {
    FirstNonEmpty([Lookup(m, "Linkedid"), Lookup(m, "Uniqueid")])
  }

  function StateCounts(items: seq<Fields>): Counts {
    CountBy(Map(StateOf, items))
  }

  function CallIds(items: seq<Fields>): set<string> {
    NonEmpty(Map(CallOf, items))
  }

  function StateMetrics(counts: Counts): set<Metric> {
    set s | s in counts :: ChannelsByState(s, counts[s])
  }

  method EmitStates(counts: Counts) returns (out: seq<Metric>)
    ensures multiset(out) == multiset(StateMetrics(counts))
  {
    out := [];
    var todo := counts.Keys;
    ghost var emitted: set<Metric> := {};
    while todo != {}
      invariant todo <= counts.Keys
      invariant emitted == set s | s in counts && s !in todo :: ChannelsByState(s, counts[s])
      invariant multiset(out) == multiset(emitted)
    {
      var s :| s in todo;
      var m := ChannelsByState(s, counts[s]);
      assert m !in emitted;
      emitted := emitted + {m};
      out := out + [m];
      todo := todo - {s};
    }
    assert emitted == StateMetrics(counts);
  }

  /** The number of rows first, then a count per state in some order, and the number of calls last. */
  predicate ChannelOutput(items: seq<Fields>, out: seq<Metric>) {
    && |out| >= 2
    && out[0] == ChannelsActive(|items|)
    && out[|out| - 1] == CallsActive(|CallIds(items)|)
    && multiset(out[1..|out| - 1]) == multiset(StateMetrics(StateCounts(items)))
  }

  method CollectChannels(reply: ListReply) returns (failed: bool, out: seq<Metric>)
    ensures failed == reply.ListFailed?
    ensures if failed then out == [] else ChannelOutput(reply.items, out)
  {
    if reply.ListFailed? {
      return true, [];
    }
    var items := reply.items;
    var byState, linkedids := GroupChannels(items);
    var states := EmitStates(byState);
    out := [ChannelsActive(|items|)] + states + [CallsActive(|linkedids|)];
    assert out[1..|out| - 1] == states;
    return false, out;
  }

  lemma StateCountsSnoc(p: seq<Fields>, m: Fields)
    ensures StateCounts(p + [m]) == AddOne(StateCounts(p), StateOf(m))
  {
    MapSnoc(StateOf, p, m);
    CountBySnoc(Map(StateOf, p), StateOf(m));
  }

  lemma CallIdsSnoc(p: seq<Fields>, m: Fields)
    ensures CallIds(p + [m]) == CallIds(p) + if CallOf(m) != "" then {CallOf(m)} else {}
  {
    MapSnoc(CallOf, p, m);
  }

  method GroupChannels(items: seq<Fields>) returns (byState: Counts, linkedids: set<string>)
    ensures byState == StateCounts(items) && linkedids == CallIds(items)
  {
    byState, linkedids := map[], {};
    for i := 0 to |items|
      invariant byState == StateCounts(items[..i])
      invariant linkedids == CallIds(items[..i])
    {
      var m := items[i];
      assert items[..i + 1] == items[..i] + [m];
      StateCountsSnoc(items[..i], m);
      CallIdsSnoc(items[..i], m);
      var state := FirstNonEmpty([Lookup(m, "ChannelStateDesc"), Lookup(m, "ChannelState"), "Unknown"]);
      byState := AddOne(byState, state);
      var id := FirstNonEmpty([Lookup(m, "Linkedid"), Lookup(m, "Uniqueid")]);
      if id != "" {
        linkedids := linkedids + {id};
      }
    }
    assert items[..|items|] == items;
  }

  /** Each state is counted as often as rows are in it. */
  lemma {:induction false} StateCountsExact(items: seq<Fields>, state: string)
    ensures Count(StateCounts(items), state) == multiset(Map(StateOf, items))[state]
    ensures state in StateCounts(items) <==> exists m :: m in items && StateOf(m) == state
  {
    var states := Map(StateOf, items);
    CountByIs(states, state);
    if m :| m in items && StateOf(m) == state {
      var i :| 0 <= i < |items| && items[i] == m;
      assert states[i] == state;
    }
    if state in states {
      var i :| 0 <= i < |states| && states[i] == state;
      assert items[i] in items && StateOf(items[i]) == state;
    }
  }

  /** For every list, the counts by state add up to the channels, and there are at most as many calls as channels. */
  lemma ChannelCountsAddUp(items: seq<Fields>)
    ensures Total(StateCounts(items)) == |items|
    ensures |CallIds(items)| <= |items|
  {
    CountByTotal(Map(StateOf, items));
    NonEmptyAtMost(Map(CallOf, items));
  }

  /** The order of the rows does not matter. */
  lemma ChannelCountsOrderless(a: seq<Fields>, b: seq<Fields>)
    requires multiset(a) == multiset(b)
    ensures |a| == |b| && StateCounts(a) == StateCounts(b) && CallIds(a) == CallIds(b)
  {
    SameLength(a, b);
    MapOrderless(StateOf, a, b);
    CountByOrderless(Map(StateOf, a), Map(StateOf, b));
    MapOrderless(CallOf, a, b);
    var x, y := Map(CallOf, a), Map(CallOf, b);
    forall id ensures id in x <==> id in y {
      assert id in x <==> id in multiset(x);
      assert id in y <==> id in multiset(y);
    }
  }

  // ---------------------------------------------------------------- the queue list

  function QueueMemberStatus(s: string): string {
    match TrimSpace(s)
    case "0" => "unknown"
    case "1" => "not_in_use"
    case "2" => "in_use"
    case "3" => "busy"
    case "4" => "invalid"
    case "5" => "unavailable"
    case "6" => "ringing"
    case "7" => "ringinuse"
    case "8" => "on_hold"
    case "" => "unknown"
    case _ => s
  }

  datatype Row = Row(queue: string, status: string)

  predicate IsMember(m: Fields) {
    Lower(Lookup(m, "Event")) == "queuemember" && Lookup(m, "Queue") != ""
  }

  function RowOf(m: Fields): Row {
    Row(Lookup(m, "Queue"), QueueMemberStatus(Lookup(m, "Status")))
  }

  /** The member rows with a queue name. */
  function MemberRows(items: seq<Fields>): seq<Row> {
    if items == [] then []
    else
      var p, m := items[..|items| - 1], items[|items| - 1];
      MemberRows(p) + if IsMember(m) then [RowOf(m)] else []
  }

  function Gauge(read: FloatReader, value: string, metric: Float -> Metric): seq<Metric> {
    if value == "" then [] else match read(value) case None => [] case Some(f) => [metric(f)]
  }

  /** What one queue summary emits. */
  function ParamMetrics(m: Fields, read: FloatReader): seq<Metric> {
    var queue := Lookup(m, "Queue");
    if Lower(Lookup(m, "Event")) != "queueparams" || queue == "" then []
    else
      Gauge(read, Lookup(m, "Calls"), f => QueueCallers(queue, f)) +
      Gauge(read, Lookup(m, "Completed"), f => QueueCompleted(queue, f)) +
      Gauge(read, Lookup(m, "Abandoned"), f => QueueAbandoned(queue, f))
  }

  function AllParamMetrics(items: seq<Fields>, read: FloatReader): seq<Metric> {
    if items == [] then []
    else AllParamMetrics(items[..|items| - 1], read) + ParamMetrics(items[|items| - 1], read)
  }

  /** queue -> status -> count */
  type MemberCounts = map<string, Counts>

  function AddMember(counts: MemberCounts, r: Row): MemberCounts {
    counts[r.queue := AddOne(if r.queue in counts then counts[r.queue] else map[], r.status)]
  }

  function CountMembers(rows: seq<Row>): MemberCounts {
    if rows == [] then map[] else AddMember(CountMembers(rows[..|rows| - 1]), rows[|rows| - 1])
  }

  function CountAt(counts: MemberCounts, queue: string, status: string): nat {
    if queue in counts then Count(counts[queue], status) else 0
  }

  function MemberMetrics(counts: MemberCounts): set<Metric> {
    set q, s | q in counts && s in counts[q] :: QueueMembers(q, s, counts[q][s])
  }

  method EmitQueue(queue: string, byStatus: Counts) returns (out: seq<Metric>)
    ensures multiset(out) == multiset(set s | s in byStatus :: QueueMembers(queue, s, byStatus[s]))
  {
    out := [];
    var todo := byStatus.Keys;
    ghost var emitted: set<Metric> := {};
    while todo != {}
      invariant todo <= byStatus.Keys
      invariant emitted == set s | s in byStatus && s !in todo :: QueueMembers(queue, s, byStatus[s])
      invariant multiset(out) == multiset(emitted)
    {
      var s :| s in todo;
      var m := QueueMembers(queue, s, byStatus[s]);
      assert m !in emitted;
      emitted := emitted + {m};
      out := out + [m];
      todo := todo - {s};
    }
    assert emitted == set s | s in byStatus :: QueueMembers(queue, s, byStatus[s]);
  }

  method EmitMembers(counts: MemberCounts) returns (out: seq<Metric>)
    ensures multiset(out) == multiset(MemberMetrics(counts))
  {
    out := [];
    var todo := counts.Keys;
    ghost var emitted: set<Metric> := {};
    while todo != {}
      invariant todo <= counts.Keys
      invariant emitted == set q, s | q in counts && q !in todo && s in counts[q] :: QueueMembers(q, s, counts[q][s])
      invariant multiset(out) == multiset(emitted)
    {
      var q :| q in todo;
      var rows := EmitQueue(q, counts[q]);
      ghost var own := set s | s in counts[q] :: QueueMembers(q, s, counts[q][s]);
      assert emitted !! own;
      assert multiset(emitted + own) == multiset(emitted) + multiset(own);
      emitted := emitted + own;
      out := out + rows;
      todo := todo - {q};
    }
    assert emitted == MemberMetrics(counts);
  }

  method GroupQueues(items: seq<Fields>, read: FloatReader) returns (params: seq<Metric>, counts: MemberCounts)
    ensures params == AllParamMetrics(items, read)
    ensures counts == CountMembers(MemberRows(items))
  {
    params, counts := [], map[];
    for i := 0 to |items|
      invariant params == AllParamMetrics(items[..i], read)
      invariant counts == CountMembers(MemberRows(items[..i]))
    {
      var m := items[i];
      assert items[..i + 1][..i] == items[..i];
      var event, queue := Lower(Lookup(m, "Event")), Lookup(m, "Queue");
      MemberStep(items[..i + 1]);
      if event == "queueparams" && queue != "" {
        params := params + ParamMetrics(m, read);
      } else if event == "queuemember" && queue != "" {
        counts := AddMember(counts, RowOf(m));
      }
    }
    assert items[..|items|] == items;
  }

  lemma MemberStep(items: seq<Fields>)
    requires items != []
    ensures var p, m := items[..|items| - 1], items[|items| - 1];
            CountMembers(MemberRows(items)) ==
            if IsMember(m) then AddMember(CountMembers(MemberRows(p)), RowOf(m)) else CountMembers(MemberRows(p))
  {
    var rows, m := MemberRows(items[..|items| - 1]), items[|items| - 1];
    assert (rows + [RowOf(m)])[..|rows|] == rows;
    assert rows + [] == rows;
  }

  /** The summaries' metrics in list order, then a count per queue and status in some order. */
  predicate QueueOutput(items: seq<Fields>, read: FloatReader, out: seq<Metric>) {
    var params := AllParamMetrics(items, read);
    && params <= out
    && multiset(out[|params|..]) == multiset(MemberMetrics(CountMembers(MemberRows(items))))
  }

  predicate ListFails(reply: ListReply, unknownAction: Error -> bool) {
    reply.ListFailed? && !unknownAction(reply.error)
  }

  /** An action the peer does not know is no failure, but emits nothing either. */
  method CollectQueues(reply: ListReply, read: FloatReader, unknownAction: Error -> bool)
    returns (failed: bool, out: seq<Metric>)
    ensures failed == ListFails(reply, unknownAction)
    ensures if reply.ListFailed? then out == [] else QueueOutput(reply.items, read, out)
  {
    if reply.ListFailed? {
      return !unknownAction(reply.error), [];
    }
    var params, counts := GroupQueues(reply.items, read);
    var members := EmitMembers(counts);
    out := params + members;
    assert out[|params|..] == members;
    return false, out;
  }

  /** Each queue and status is counted as often as it occurs among the rows. */
  lemma {:induction false} CountMembersIs(rows: seq<Row>, queue: string, status: string)
    ensures CountAt(CountMembers(rows), queue, status) == multiset(rows)[Row(queue, status)]
    ensures queue in CountMembers(rows) && status in CountMembers(rows)[queue] <==> Row(queue, status) in rows
  {
    if rows != [] {
      var p := rows[..|rows| - 1];
      assert rows == p + [rows[|rows| - 1]];
      CountMembersIs(p, queue, status);
    }
  }

  lemma {:induction false} CountMembersQueues(rows: seq<Row>, queue: string)
    ensures queue in CountMembers(rows) <==> exists status :: Row(queue, status) in rows
  {
    if rows != [] {
      var p, r := rows[..|rows| - 1], rows[|rows| - 1];
      assert rows == p + [r];
      CountMembersQueues(p, queue);
      if queue == r.queue {
        assert Row(queue, r.status) in rows;
      }
    }
  }

  ghost function MembersTotal(counts: MemberCounts): nat {
    Sum(counts.Keys, q => QueueTotal(counts, q))
  }

  ghost function QueueTotal(counts: MemberCounts, queue: string): nat {
    if queue in counts then Total(counts[queue]) else 0
  }

  lemma MembersTotalAdd(counts: MemberCounts, r: Row)
    ensures MembersTotal(AddMember(counts, r)) == MembersTotal(counts) + 1
  {
    var more := AddMember(counts, r);
    var f, g := q => QueueTotal(counts, q), q => QueueTotal(more, q);
    var names := counts.Keys + {r.queue};
    SumSupport(names, counts.Keys, f);
    assert more.Keys == names;
    SumChanged(names, f, g, r.queue);
    TotalAddOne(if r.queue in counts then counts[r.queue] else map[], r.status);
    if r.queue !in counts {
      SumZero({}, k => Count(map[], k));
    }
  }

  /** The member counts of all queues add up to the member rows with a queue name. */
  lemma {:induction false} MemberCountsAddUp(rows: seq<Row>)
    ensures MembersTotal(CountMembers(rows)) == |rows|
  {
    if rows == [] {
      SumZero({}, q => QueueTotal(map[], q));
    } else {
      MemberCountsAddUp(rows[..|rows| - 1]);
      MembersTotalAdd(CountMembers(rows[..|rows| - 1]), rows[|rows| - 1]);
    }
  }

  function RowsIn(m: Fields): multiset<Row> {
    if IsMember(m) then multiset{RowOf(m)} else multiset{}
  }

  lemma {:induction false} MemberRowsSplit(a: seq<Fields>, b: seq<Fields>)
    ensures MemberRows(a + b) == MemberRows(a) + MemberRows(b)
    decreases |b|
  {
    if b == [] {
      assert a + b == a;
    } else {
      var p, m := b[..|b| - 1], b[|b| - 1];
      assert (a + b)[..|a + b| - 1] == a + p;
      MemberRowsSplit(a, p);
      Assoc(MemberRows(a), MemberRows(p), if IsMember(m) then [RowOf(m)] else []);
    }
  }

  lemma MemberRowsOne(m: Fields)
    ensures multiset(MemberRows([m])) == RowsIn(m)
  {
    assert [m][..0] == [];
  }

  lemma MemberRowsMiddle(l: seq<Fields>, x: Fields, r: seq<Fields>)
    ensures multiset(MemberRows(l + [x] + r)) == multiset(MemberRows(l + r)) + RowsIn(x)
  {
    MemberRowsSplit(l + [x], r);
    MemberRowsSplit(l, [x]);
    MemberRowsSplit(l, r);
    MemberRowsOne(x);
  }

  /** Reordering the list reorders the member rows. */
  lemma {:induction false} MemberRowsOrderless(a: seq<Fields>, b: seq<Fields>)
    requires multiset(a) == multiset(b)
    ensures multiset(MemberRows(a)) == multiset(MemberRows(b))
    decreases |a|
  {
    SameLength(a, b);
    if a != [] {
      var p, x := a[..|a| - 1], a[|a| - 1];
      var l, r := TakeOutLast(a, b);
      MemberRowsOrderless(p, l + r);
      assert a == p + [x] + [] && p + [] == p;
      MemberRowsMiddle(p, x, []);
      MemberRowsMiddle(l, x, r);
    }
  }

  /** The order of the rows does not matter. */
  lemma MemberCountsOrderless(a: seq<Fields>, b: seq<Fields>)
    requires multiset(a) == multiset(b)
    ensures CountMembers(MemberRows(a)) == CountMembers(MemberRows(b))
  {
    MemberRowsOrderless(a, b);
    SameRowsSameCounts(MemberRows(a), MemberRows(b));
  }

  lemma SameRowsSameCounts(x: seq<Row>, y: seq<Row>)
    requires multiset(x) == multiset(y)
    ensures CountMembers(x) == CountMembers(y)
  {
    var m, n := CountMembers(x), CountMembers(y);
    forall r: Row ensures r in x <==> r in y {
      assert r in x <==> r in multiset(x);
      assert r in y <==> r in multiset(y);
    }
    forall q ensures q in m <==> q in n {
      CountMembersQueues(x, q);
      CountMembersQueues(y, q);
    }
    forall q | q in m ensures m[q] == n[q] {
      forall s ensures (s in m[q] <==> s in n[q]) && Count(m[q], s) == Count(n[q], s) {
        CountMembersIs(x, q, s);
        CountMembersIs(y, q, s);
      }
      assert forall s :: s in m[q] ==> m[q][s] == Count(m[q], s) && n[q][s] == Count(n[q], s);
    }
  }

  // ---------------------------------------------------------------- the scrape

  datatype Phase = Dial | Login | CoreStatus | ChannelList | SipPeers | PjsipEndpoints | Queues

  datatype ScrapeOptions = ScrapeOptions(disableSIP: bool, disablePJSIP: bool, disableQueues: bool)

  type PeerGrouping = seq<Fields> -> seq<Metric>

  /** How the peer does in one scrape: whether it can be dialled and logged in to, and its replies. */
  datatype Replies = Replies(
    dialled: bool, loggedIn: bool,
    settings: Reply, status: Reply,
    channels: ListReply, sipPeers: ListReply, pjsipEndpoints: ListReply, queues: ListReply)

  /** What happens on the scrape's connection, with what each phase emits. */
  datatype Step = LoginTried | Ran(phase: Phase, failed: bool, out: seq<Metric>) | LoggedOff | Released

  type ErrorCounts = map<Phase, nat>

  function ErrorsIn(errors: ErrorCounts, p: Phase): nat {
    if p in errors then errors[p] else 0
  }

  /** One more error for each phase listed. */
  function Tally(errors: ErrorCounts, ps: seq<Phase>): ErrorCounts {
    if ps == [] then errors
    else
      var before, p := Tally(errors, ps[..|ps| - 1]), ps[|ps| - 1];
      before[p := ErrorsIn(before, p) + 1]
  }

  function CoreMetrics(settings: Fields, status: Fields, read: FloatReader): seq<Metric> {
    [Info(FirstNonEmpty([Lookup(settings, "AsteriskVersion"), Lookup(settings, "Version")]), Lookup(settings, "SystemName"))] +
    Gauge(read, Lookup(status, "CoreCurrentCalls"), f => CurrentCalls(f))
  }

  /** Either request failing fails the phase. */
  method CollectCore(settings: Reply, status: Reply, read: FloatReader) returns (failed: bool, out: seq<Metric>)
    ensures failed <==> settings.Failed? || status.Failed?
    ensures out == if failed then [] else CoreMetrics(settings.message, status.message, read)
  {
    if settings.Failed? || status.Failed? {
      return true, [];
    }
    var version := FirstNonEmpty([Lookup(settings.message, "AsteriskVersion"), Lookup(settings.message, "Version")]);
    out := [Info(version, Lookup(settings.message, "SystemName"))];
    var v := Lookup(status.message, "CoreCurrentCalls");
    if v != "" {
      var n := read(v);
      if n.Some? {
        out := out + [CurrentCalls(n.value)];
      }
    }
    return false, out;
  }

  /** The phases that follow a login, whatever becomes of the ones before. */
  function PhasesAfterLogin(o: ScrapeOptions): seq<Phase> {
    [CoreStatus, ChannelList] +
    (if o.disableSIP then [] else [SipPeers]) +
    (if o.disablePJSIP then [] else [PjsipEndpoints]) +
    (if o.disableQueues then [] else [Queues])
  }

  /** What the phases do with the replies is fixed by these. */
  datatype Readers = Readers(
    float: FloatReader, unknownAction: Error -> bool, groupSip: PeerGrouping, groupPjsip: PeerGrouping)

  /** The phase fails, supposing the scrape gets to it. */
  predicate Fails(p: Phase, r: Replies, readers: Readers) {
    match p
    case Dial => !r.dialled
    case Login => !r.loggedIn
    case CoreStatus => r.settings.Failed? || r.status.Failed?
    case ChannelList => r.channels.ListFailed?
    case SipPeers => ListFails(r.sipPeers, readers.unknownAction)
    case PjsipEndpoints => ListFails(r.pjsipEndpoints, readers.unknownAction)
    case Queues => ListFails(r.queues, readers.unknownAction)
  }

  /** What the phase emits when it does not fail. */
  predicate Emits(p: Phase, r: Replies, readers: Readers, out: seq<Metric>)
    requires !Fails(p, r, readers)
  {
    match p
    case Dial => out == []
    case Login => out == []
    case CoreStatus => out == CoreMetrics(r.settings.message, r.status.message, readers.float)
    case ChannelList => ChannelOutput(r.channels.items, out)
    case SipPeers => out == PeerOutput(r.sipPeers, readers.groupSip)
    case PjsipEndpoints => out == PeerOutput(r.pjsipEndpoints, readers.groupPjsip)
    case Queues => if r.queues.ListFailed? then out == [] else QueueOutput(r.queues.items, readers.float, out)
  }

  function PeerOutput(reply: ListReply, group: PeerGrouping): seq<Metric> {
    if reply.Items? then group(reply.items) else []
  }

  method CollectPeers(reply: ListReply, group: PeerGrouping, unknownAction: Error -> bool)
    returns (failed: bool, out: seq<Metric>)
    ensures failed == ListFails(reply, unknownAction)
    ensures out == PeerOutput(reply, group)
  {
    match reply {
      case ListFailed(error) => return !unknownAction(error), [];
      case Items(items) => return false, group(items);
    }
  }

  function Failing(ps: seq<Phase>, r: Replies, readers: Readers): seq<Phase> {
    if ps == [] then []
    else
      var p := ps[|ps| - 1];
      Failing(ps[..|ps| - 1], r, readers) + if Fails(p, r, readers) then [p] else []
  }

  /** The phases of a whole scrape that fail, in order: without a connection or a login there are no others. */
  function FailedPhases(o: ScrapeOptions, r: Replies, readers: Readers): seq<Phase> {
    if !r.dialled then [Dial]
    else if !r.loggedIn then [Login]
    else Failing(PhasesAfterLogin(o), r, readers)
  }

  function First(ps: seq<Phase>): Option<Phase> {
    if ps == [] then None else Some(ps[0])
  }

  /** How one phase turns out: failing or not, and emitting, as its own replies say; a failing one emits nothing. */
  predicate RanAs(step: Step, p: Phase, r: Replies, readers: Readers) {
    && step.Ran?
    && step.phase == p
    && step.failed == Fails(p, r, readers)
    && if Fails(p, r, readers) then step.out == [] else Emits(p, r, readers, step.out)
  }

  predicate RanInOrder(ran: seq<Step>, ps: seq<Phase>, r: Replies, readers: Readers) {
    && |ran| == |ps|
    && forall i :: 0 <= i < |ps| ==> RanAs(ran[i], ps[i], r, readers)
  }

  /** What a scrape does on its connection: a dialled one is always released, a login always logged off. */
  predicate ScrapeLog(log: seq<Step>, o: ScrapeOptions, r: Replies, readers: Readers) {
    if !r.dialled then log == []
    else if !r.loggedIn then log == [LoginTried, Released]
    else
      && |log| >= 3
      && log[0] == LoginTried
      && RanInOrder(log[1..|log| - 2], PhasesAfterLogin(o), r, readers)
      && log[|log| - 2..] == [LoggedOff, Released]
  }

  class Collector {
    const options: ScrapeOptions
    const readers: Readers
    var errors: ErrorCounts

    constructor (options: ScrapeOptions, readers: Readers)
      ensures errors == map[] && this.options == options && this.readers == readers
    {
      this.options, this.readers := options, readers;
      errors := map[];
    }

    /** The scrape so far: the phases in `done` have run, their failures counted on top of `before`. */
    ghost predicate Progress(before: ErrorCounts, done: seq<Phase>, r: Replies, err: Option<Phase>, ran: seq<Step>)
      reads this
    {
      && errors == Tally(before, Failing(done, r, readers))
      && err == First(Failing(done, r, readers))
      && RanInOrder(ran, done, r, readers)
    }

    /** Books the outcome of one more phase. */
    method Book(step: Step, firstErr: Option<Phase>, soFar: seq<Step>,
                ghost before: ErrorCounts, ghost done: seq<Phase>, ghost r: Replies)
      returns (err: Option<Phase>, ran: seq<Step>)
      requires Progress(before, done, r, firstErr, soFar)
      requires step.Ran? && RanAs(step, step.phase, r, readers)
      modifies this
      ensures Progress(before, done + [step.phase], r, err, ran)
    {
      var phase := step.phase;
      ghost var was := Failing(done, r, readers);
      assert (done + [phase])[..|done|] == done;
      assert (was + [phase])[..|was|] == was;
      assert was + [] == was;
      err, ran := firstErr, soFar + [step];
      if step.failed {
        errors := errors[phase := ErrorsIn(errors, phase) + 1];
        if firstErr == None {
          err := Some(phase);
        }
      }
    }

    method RunPhase(p: Phase, r: Replies) returns (step: Step)
      requires p != Dial && p != Login
      ensures step.Ran? && step.phase == p && RanAs(step, p, r, readers)
    {
      var failed, out := false, [];
      match p {
        case CoreStatus => failed, out := CollectCore(r.settings, r.status, readers.float);
        case ChannelList => failed, out := CollectChannels(r.channels);
        case SipPeers => failed, out := CollectPeers(r.sipPeers, readers.groupSip, readers.unknownAction);
        case PjsipEndpoints => failed, out := CollectPeers(r.pjsipEndpoints, readers.groupPjsip, readers.unknownAction);
        case Queues => failed, out := CollectQueues(r.queues, readers.float, readers.unknownAction);
      }
      return Ran(p, failed, out);
    }

    /** Runs one phase unless it is switched off, and books its outcome. */
    method RunUnless(disabled: bool, p: Phase, r: Replies, firstErr: Option<Phase>, soFar: seq<Step>,
                     ghost before: ErrorCounts, ghost done: seq<Phase>)
      returns (err: Option<Phase>, ran: seq<Step>)
      requires p != Dial && p != Login && Progress(before, done, r, firstErr, soFar)
      modifies this
      ensures Progress(before, done + (if disabled then [] else [p]), r, err, ran)
    {
      if disabled {
        assert done + [] == done;
        return firstErr, soFar;
      }
      var step := RunPhase(p, r);
      err, ran := Book(step, firstErr, soFar, before, done, r);
    }

    /** The phases after the login: each runs, whatever failed before. */
    method RunPhases(r: Replies) returns (err: Option<Phase>, ran: seq<Step>)
      modifies this
      ensures Progress(old(errors), PhasesAfterLogin(options), r, err, ran)
    {
      ghost var before, done: seq<Phase> := errors, [CoreStatus, ChannelList];
      err, ran := RunUnless(false, CoreStatus, r, None, [], before, []);
      err, ran := RunUnless(false, ChannelList, r, err, ran, before, [] + [CoreStatus]);
      assert [] + [CoreStatus] + [ChannelList] == done;
      err, ran := RunUnless(options.disableSIP, SipPeers, r, err, ran, before, done);
      done := done + if options.disableSIP then [] else [SipPeers];
      err, ran := RunUnless(options.disablePJSIP, PjsipEndpoints, r, err, ran, before, done);
      done := done + if options.disablePJSIP then [] else [PjsipEndpoints];
      err, ran := RunUnless(options.disableQueues, Queues, r, err, ran, before, done);
    }

    /** One scrape: each failed phase is counted once, no other counter moves, and the error is the first failure. */
    method Scrape(r: Replies) returns (err: Option<Phase>, log: seq<Step>)
      modifies this
      ensures errors == Tally(old(errors), FailedPhases(options, r, readers))
      ensures err == First(FailedPhases(options, r, readers))
      ensures ScrapeLog(log, options, r, readers)
    {
      if !r.dialled {
        errors := errors[Dial := ErrorsIn(errors, Dial) + 1];
        return Some(Dial), [];
      }
      if !r.loggedIn {
        errors := errors[Login := ErrorsIn(errors, Login) + 1];
        return Some(Login), [LoginTried, Released];
      }
      var ran;
      err, ran := RunPhases(r);
      log := [LoginTried] + ran + [LoggedOff, Released];
      assert log[1..|log| - 2] == ran;
    }

    /** The up gauge is 1 exactly when the scrape moved no error counter. */
    method Collect(r: Replies) returns (up: nat, log: seq<Step>)
      modifies this
      ensures up == 1 <==> errors == old(errors)
      ensures up == if FailedPhases(options, r, readers) == [] then 1 else 0
      ensures errors == Tally(old(errors), FailedPhases(options, r, readers))
      ensures ScrapeLog(log, options, r, readers)
    {
      ghost var failed := FailedPhases(options, r, readers);
      if failed != [] {
        TallyIs(errors, failed, failed[0]);
      }
      var err;
      err, log := Scrape(r);
      up := if err.Some? then 0 else 1;
    }
  }

  lemma {:induction false} TallyIs(errors: ErrorCounts, ps: seq<Phase>, p: Phase)
    ensures ErrorsIn(Tally(errors, ps), p) == ErrorsIn(errors, p) + multiset(ps)[p]
  {
    if ps != [] {
      TallyIs(errors, ps[..|ps| - 1], p);
      assert ps == ps[..|ps| - 1] + [ps[|ps| - 1]];
    }
  }

  lemma {:induction false} FailingIs(ps: seq<Phase>, r: Replies, readers: Readers, p: Phase)
    ensures multiset(Failing(ps, r, readers))[p] == if Fails(p, r, readers) then multiset(ps)[p] else 0
  {
    if ps != [] {
      FailingIs(ps[..|ps| - 1], r, readers, p);
      assert ps == ps[..|ps| - 1] + [ps[|ps| - 1]];
    }
  }

  predicate Reached(p: Phase, o: ScrapeOptions, r: Replies) {
    match p
    case Dial => true
    case Login => r.dialled
    case CoreStatus => r.dialled && r.loggedIn
    case ChannelList => r.dialled && r.loggedIn
    case SipPeers => r.dialled && r.loggedIn && !o.disableSIP
    case PjsipEndpoints => r.dialled && r.loggedIn && !o.disablePJSIP
    case Queues => r.dialled && r.loggedIn && !o.disableQueues
  }

  /** A scrape moves a phase's counter by one if the scrape gets to the phase and it fails, and not at all otherwise. */
  lemma ScrapeCounts(errors: ErrorCounts, o: ScrapeOptions, r: Replies, readers: Readers, p: Phase)
    ensures ErrorsIn(Tally(errors, FailedPhases(o, r, readers)), p) ==
            ErrorsIn(errors, p) + if Reached(p, o, r) && Fails(p, r, readers) then 1 else 0
  {
    TallyIs(errors, FailedPhases(o, r, readers), p);
    if r.dialled && r.loggedIn {
      FailingIs(PhasesAfterLogin(o), r, readers, p);
      OncePerPhase(o, r, p);
    }
  }

  lemma OncePerPhase(o: ScrapeOptions, r: Replies, p: Phase)
    requires r.dialled && r.loggedIn
    ensures multiset(PhasesAfterLogin(o))[p] == if Reached(p, o, r) && p != Dial && p != Login then 1 else 0
  {
  }
}
