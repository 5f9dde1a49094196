/**
 * A scrape over the bytes of its connection: the login, the two core requests and the lists are
 * a run of calls of the client, and the replies they get are the ones the collector works on.
 */
module ScrapeRuns {
  import opened Text
  import opened Messages
  import opened Codec
  import opened Clients
  import opened Collectors

  /** Stands for the reply to a request that is not made. */
  const NOT_ASKED: Reply := Failed(Error.Closed)
  const NO_LIST: ListReply := ListFailed(Error.Closed)

  function Request(action: string): Fields {
    [Field("Action", action)]
  }

  const CHANNELS := List(Request("CoreShowChannels"), "CoreShowChannelsComplete")
  const SIP_PEERS := List(Request("SIPpeers"), "PeerlistComplete")
  const PJSIP_ENDPOINTS := List(Request("PJSIPShowEndpoints"), "EndpointListComplete")
  const QUEUE_STATUS := List(Request("QueueStatus"), "QueueStatusComplete")

  /** The phases that ask for a list, in order. */
  function ListPhases(o: ScrapeOptions): seq<Phase> {
    [ChannelList] +
    (if o.disableSIP then [] else [SipPeers]) +
    (if o.disablePJSIP then [] else [PjsipEndpoints]) +
    (if o.disableQueues then [] else [Queues])
  }

  function CallOf(p: Phase): Call {
    match p
    case SipPeers => SIP_PEERS
    case PjsipEndpoints => PJSIP_ENDPOINTS
    case Queues => QUEUE_STATUS
    case _ => CHANNELS
  }

  /** The lists of a scrape; none depends on how the others went. */
  function ListCalls(o: ScrapeOptions): (r: seq<Call>)
    ensures |r| == |ListPhases(o)| && forall i :: 0 <= i < |r| ==> r[i] == CallOf(ListPhases(o)[i])
  {
    [CHANNELS] +
    (if o.disableSIP then [] else [SIP_PEERS]) +
    (if o.disablePJSIP then [] else [PJSIP_ENDPOINTS]) +
    (if o.disableQueues then [] else [QUEUE_STATUS])
  }

  function ListAt(outcomes: seq<Outcome>, i: nat): ListReply {
    if i < |outcomes| && outcomes[i].OfList? then outcomes[i].listing else NO_LIST
  }

  /** The replies the phases of a scrape work on, from the outcomes of its lists in order. */
  function Assemble(o: ScrapeOptions, settings: Reply, status: Reply, outcomes: seq<Outcome>): Replies {
    var pjsip := if o.disableSIP then 1 else 2;
    var queues := if o.disablePJSIP then pjsip else pjsip + 1;
    Replies(true, true, settings, status,
            ListAt(outcomes, 0),
            if o.disableSIP then NO_LIST else ListAt(outcomes, 1),
            if o.disablePJSIP then NO_LIST else ListAt(outcomes, pjsip),
            if o.disableQueues then NO_LIST else ListAt(outcomes, queues))
  }

  /** The list reply a phase works on. */
  function ReplyFor(p: Phase, r: Replies): ListReply {
    match p
    case SipPeers => r.sipPeers
    case PjsipEndpoints => r.pjsipEndpoints
    case Queues => r.queues
    case _ => r.channels
  }

  lemma EachPhaseItsReply(o: ScrapeOptions, settings: Reply, status: Reply, outcomes: seq<Outcome>, i: nat)
    requires i < |ListPhases(o)|
    ensures ReplyFor(ListPhases(o)[i], Assemble(o, settings, status, outcomes)) == ListAt(outcomes, i)
  {
  }

  const REFUSED := Replies(true, false, NOT_ASKED, NOT_ASKED, NO_LIST, NO_LIST, NO_LIST, NO_LIST)

  datatype Gathering = NoLogin | Gathering(settings: Reply, status: Reply, outcomes: seq<Outcome>)

  /** The replies to the core requests, of which the second is made only if the first succeeds, and the bytes left. */
  function CoreReplies(input: string, end: StreamEnd): (Reply, Reply, string) {
    var (settings, behindSettings) := ReplyOf(IdOf(2), input, end);
    if settings.Failed? then (settings, NOT_ASKED, behindSettings)
    else
      var (status, behindStatus) := ReplyOf(IdOf(3), behindSettings, end);
      (settings, status, behindStatus)
  }

  /** How many calls there are before the lists. */
  function CallsBefore(settings: Reply): nat {
    if settings.Response? then 3 else 2
  }

  /** What is got out of the bytes: the login, the core replies and the lists. */
  function Gathered(lists: seq<Call>, input: string, end: StreamEnd): (Gathering, string) {
    var (login, behindLogin) := LoginOf(IdOf(1), input, end);
    if !login.LoggedIn? then (NoLogin, behindLogin)
    else
      var (settings, status, behindCore) := CoreReplies(behindLogin, end);
      var (outcomes, unread) := RunCalls(lists, CallsBefore(settings), behindCore, end);
      (Gathering(settings, status, outcomes), unread)
  }

  function RepliesOf(o: ScrapeOptions, g: Gathering): Replies {
    if g.NoLogin? then REFUSED else Assemble(o, g.settings, g.status, g.outcomes)
  }

  /** The replies a scrape gets out of the bytes, and the bytes it leaves. */
  function Fetched(o: ScrapeOptions, input: string, end: StreamEnd): (Replies, string) {
    var (g, unread) := Gathered(ListCalls(o), input, end);
    (RepliesOf(o, g), unread)
  }

  /** What a scrape asks for, word by word. */
  lemma ListCallsExactly(o: ScrapeOptions)
    ensures ListCalls(o) ==
            [List([Field("Action", "CoreShowChannels")], "CoreShowChannelsComplete")] +
            (if o.disableSIP then [] else [List([Field("Action", "SIPpeers")], "PeerlistComplete")]) +
            (if o.disablePJSIP then [] else [List([Field("Action", "PJSIPShowEndpoints")], "EndpointListComplete")]) +
            (if o.disableQueues then [] else [List([Field("Action", "QueueStatus")], "QueueStatusComplete")])
  {
  }

  // ---------------------------------------------------------------- the scrape's calls

  function CoreCalls(config: Config): seq<Call> {
    [Single(LoginRequest(config)), Single(Request("CoreSettings")), Single(Request("CoreStatus"))]
  }

  function ScrapeCalls(config: Config, o: ScrapeOptions): seq<Call> {
    CoreCalls(config) + ListCalls(o)
  }

  lemma CoreCallsExactly(config: Config)
    ensures CoreCalls(config) ==
            [Single([Field("Action", "Login"), Field("Username", config.username), Field("Secret", config.secret),
                     Field("Events", if config.eventClasses == "" then "off" else config.eventClasses)]),
             Single([Field("Action", "CoreSettings")]),
             Single([Field("Action", "CoreStatus")])]
  {
  }

  const LOGOFF := Single(Request("Logoff"))

  /** The peer takes every request in whole, whichever of these calls makes it and whatever its identifier. */
  ghost predicate TakesEvery(takes: nat -> nat, calls: seq<Call>) {
    forall n: nat, call: Call, actions: nat {:trigger takes(n), RequestOf(call, actions)} ::
      call in calls ==> takes(n) >= |RequestOf(call, actions)|
  }

  lemma {:induction false} TakesEach(takes: nat -> nat, writes: nat, all: seq<Call>, calls: seq<Call>, actions: nat)
    requires TakesEvery(takes, all) && forall c :: c in calls ==> c in all
    ensures Takes(takes, writes, calls, actions)
    decreases |calls|
  {
    if calls != [] {
      assert calls[0] in calls;
      assert takes(writes) >= |RequestOf(calls[0], actions)|;
      TakesEach(takes, writes + 1, all, calls[1..], Bump(actions));
    }
  }

  lemma TakesOne(takes: nat -> nat, calls: seq<Call>, k: nat, n: nat, actions: nat)
    requires TakesEvery(takes, calls) && k < |calls|
    ensures takes(n) >= |RequestOf(calls[k], actions)|
  {
    assert calls[k] in calls;
  }

  function CoreBytes(settings: Reply): string {
    RequestOf(Single(Request("CoreSettings")), 1) +
    if settings.Response? then RequestOf(Single(Request("CoreStatus")), 2) else ""
  }

  /** The bytes of the requests up to the logoff. */
  function GatherBytes(config: Config, lists: seq<Call>, g: Gathering): string {
    RequestOf(Single(LoginRequest(config)), 0) +
    if g.NoLogin? then "" else CoreBytes(g.settings) + RequestsOf(lists, CallsBefore(g.settings))
  }

  /** Where the counter is behind them. */
  function GatherCalls(lists: seq<Call>, g: Gathering): nat {
    if g.NoLogin? then 1 else Bumped(CallsBefore(g.settings), |lists|)
  }

  method AskCore(client: Client, ghost calls: seq<Call>) returns (settings: Reply, status: Reply)
    requires client.Valid() && client.open && client.actions == 1 && TakesEvery(client.takes, calls)
    requires |calls| >= 3 && calls[1] == Single(Request("CoreSettings")) && calls[2] == Single(Request("CoreStatus"))
    modifies client, client.reader
    ensures client.Valid() && client.open && client.closes == old(client.closes)
    ensures client.actions == CallsBefore(settings)
    ensures client.written == old(client.written) + CoreBytes(settings)
    ensures (settings, status, client.reader.Unread()) == CoreReplies(old(client.reader.Unread()), client.reader.end)
  {
    settings := Ask(client, Request("CoreSettings"), calls, 1);
    status := NOT_ASKED;
    if settings.Response? {
      status := Ask(client, Request("CoreStatus"), calls, 2);
      Assoc(old(client.written), RequestOf(calls[1], 1), RequestOf(calls[2], 2));
    } else {
      assert RequestOf(calls[1], 1) + "" == RequestOf(calls[1], 1);
    }
  }

  /** All requests of a scrape on a fresh client, with the replies the bytes hold for them. */
  method Gather(client: Client, lists: seq<Call>) returns (g: Gathering)
    requires client.Valid() && client.open && client.actions == 0
    requires TakesEvery(client.takes, CoreCalls(client.config) + lists)
    modifies client, client.reader
    ensures client.Valid() && client.open && client.closes == old(client.closes)
    ensures client.written == old(client.written) + GatherBytes(client.config, lists, g)
    ensures client.actions == GatherCalls(lists, g)
    ensures (g, client.reader.Unread()) == Gathered(lists, old(client.reader.Unread()), client.reader.end)
  {
    ghost var calls, before := CoreCalls(client.config) + lists, client.written;
    CoreCallsAre(client.config, lists);
    var login := Login(client, calls);
    ghost var first := RequestOf(calls[0], 0);
    if !login.LoggedIn? {
      assert first + "" == first;
      return NoLogin;
    }
    var settings, status := AskCore(client, calls);
    TakesEach(client.takes, client.writes, calls, lists, client.actions);
    ghost var more := RequestsOf(lists, client.actions);
    var outcomes := Perform(client, lists);
    g := Gathering(settings, status, outcomes);
    Assoc(before, first, CoreBytes(settings));
    Assoc(before, first + CoreBytes(settings), more);
    Assoc(first, CoreBytes(settings), more);
  }

  lemma CoreCallsAre(config: Config, lists: seq<Call>)
    ensures |CoreCalls(config)| == 3 && forall c :: c in CoreCalls(config) ==> c.Single?
    ensures var calls := CoreCalls(config) + lists;
            && calls[0] == Single(LoginRequest(config))
            && calls[1] == Single(Request("CoreSettings"))
            && calls[2] == Single(Request("CoreStatus"))
            && forall c :: c in lists ==> c in calls
  {
  }

  method Login(client: Client, ghost calls: seq<Call>) returns (login: LoginResult)
    requires client.Valid() && client.open && client.actions == 0
    requires calls != [] && calls[0] == Single(LoginRequest(client.config)) && TakesEvery(client.takes, calls)
    modifies client, client.reader
    ensures client.Valid() && client.open && client.closes == old(client.closes) && client.actions == 1
    ensures client.written == old(client.written) + RequestOf(calls[0], 0)
    ensures (login, client.reader.Unread()) == LoginOf(IdOf(1), old(client.reader.Unread()), client.reader.end)
  {
    TakesOne(client.takes, calls, 0, client.writes, 0);
    login := client.Login();
  }

  method Ask(client: Client, request: Fields, ghost calls: seq<Call>, ghost k: nat) returns (reply: Reply)
    requires client.Valid() && client.open
    requires k < |calls| && calls[k] == Single(request) && TakesEvery(client.takes, calls)
    modifies client, client.reader
    ensures client.Valid() && client.open && client.closes == old(client.closes)
    ensures client.actions == Bump(old(client.actions))
    ensures client.written == old(client.written) + RequestOf(calls[k], old(client.actions))
    ensures (reply, client.reader.Unread()) ==
            ReplyOf(IdOf(old(client.actions) + 1), old(client.reader.Unread()), client.reader.end)
  {
    TakesOne(client.takes, calls, k, client.writes, client.actions);
    reply := client.Action(request);
  }

  // ---------------------------------------------------------------- the bytes of the requests

  /** Requests as they are written, numbered from `n` on. */
  function Numbered(requests: seq<Fields>, n: nat): string {
    if requests == [] then ""
    else Encode(requests[0] + [Field("ActionID", Format(n))]) + Numbered(requests[1..], n + 1)
  }

  lemma {:induction false} NumberedSplit(a: seq<Fields>, b: seq<Fields>, n: nat)
    ensures Numbered(a + b, n) == Numbered(a, n) + Numbered(b, n + |a|)
    decreases |a|
  {
    if a == [] {
      assert a + b == b;
    } else {
      assert (a + b)[0] == a[0] && (a + b)[1..] == a[1..] + b;
      NumberedSplit(a[1..], b, n + 1);
      Assoc(Encode(a[0] + [Field("ActionID", Format(n))]), Numbered(a[1..], n + 1), Numbered(b, n + |a|));
    }
  }

  lemma NumberedOne(request: Fields, n: nat)
    ensures Numbered([request], n) == Encode(request + [Field("ActionID", Format(n))])
  {
    assert [request][1..] == [];
  }

  /** No field of the request is an identifier already. */
  ghost predicate Unnumbered(request: Fields) {
    forall f :: f in request ==> !EqualFold(f.key, "ActionID")
  }

  lemma RequestNumbered(call: Call, actions: nat)
    requires Unnumbered(call.request) && actions + 1 < UINT64_LIMIT
    ensures RequestOf(call, actions) == Numbered([call.request], actions + 1)
  {
    var request := call.request;
    FindIs(request, "ActionID", |request|);
    NumberedOne(request, actions + 1);
  }

  function RequestsIn(calls: seq<Call>): seq<Fields> {
    if calls == [] then [] else [calls[0].request] + RequestsIn(calls[1..])
  }

  lemma {:induction false} RequestsInSplit(a: seq<Call>, b: seq<Call>)
    ensures RequestsIn(a + b) == RequestsIn(a) + RequestsIn(b) && |RequestsIn(a)| == |a|
    decreases |a|
  {
    if a == [] {
      assert a + b == b;
    } else {
      assert (a + b)[0] == a[0] && (a + b)[1..] == a[1..] + b;
      RequestsInSplit(a[1..], b);
      Assoc([a[0].request], RequestsIn(a[1..]), RequestsIn(b));
    }
  }

  lemma RequestsInOne(call: Call)
    ensures RequestsIn([call]) == [call.request] && RequestsIn([]) == []
  {
    assert [call][1..] == [];
  }

  lemma {:induction false} RequestsNumbered(calls: seq<Call>, actions: nat)
    requires (forall c :: c in calls ==> Unnumbered(c.request)) && actions + |calls| < UINT64_LIMIT
    ensures RequestsOf(calls, actions) == Numbered(RequestsIn(calls), actions + 1)
    decreases |calls|
  {
    if calls != [] {
      var first, more := calls[0], calls[1..];
      assert Bump(actions) == actions + 1 && first in calls && forall c :: c in more ==> c in calls;
      RequestNumbered(first, actions);
      RequestsNumbered(more, actions + 1);
      NumberedSplit([first.request], RequestsIn(more), actions + 1);
    }
  }

  lemma KeysUnnumbered(config: Config)
    ensures Unnumbered(LoginRequest(config))
    ensures forall action: string :: Unnumbered(Request(action))
  {
    assert |Lower("ActionID")| == 8 && |Lower("Action")| == 6 && |Lower("Secret")| == 6 && |Lower("Events")| == 6;
    assert Lower("ActionID")[0] == 'a' && Lower("Username")[0] == 'u';
  }

  /** The core requests that are made after a login. */
  function CoreRequests(settings: Reply): seq<Fields> {
    [Request("CoreSettings")] + if settings.Response? then [Request("CoreStatus")] else []
  }

  lemma CoreBytesNumbered(settings: Reply)
    ensures CoreBytes(settings) == Numbered(CoreRequests(settings), 2)
    ensures |CoreRequests(settings)| == CallsBefore(settings) - 1
  {
    KeysUnnumbered(Config("", "", ""));
    assert Unnumbered(Request("CoreSettings")) && Unnumbered(Request("CoreStatus"));
    RequestNumbered(Single(Request("CoreSettings")), 1);
    RequestNumbered(Single(Request("CoreStatus")), 2);
    NumberedSplit([Request("CoreSettings")], [Request("CoreStatus")], 2);
    assert [Request("CoreSettings")] + [] == [Request("CoreSettings")];
  }

  /** The requests of a scrape that got as far as `g`, with the logoff. */
  function RequestsMade(config: Config, lists: seq<Call>, g: Gathering): seq<Fields> {
    [LoginRequest(config)] +
    if g.NoLogin? then [] else CoreRequests(g.settings) + RequestsIn(lists) + [Request("Logoff")]
  }

  lemma BumpedSmall(n: nat, k: nat)
    requires n + k < UINT64_LIMIT
    ensures Bumped(n, k) == n + k
  {
    BumpedIs(n, k);
  }

  lemma ListsAppended(core: seq<Fields>, coreBytes: string, lists: seq<Call>, n: nat)
    requires coreBytes == Numbered(core, 2) && n == |core| + 1
    requires (forall c :: c in lists ==> Unnumbered(c.request)) && n + |lists| < UINT64_LIMIT
    ensures coreBytes + RequestsOf(lists, n) == Numbered(core + RequestsIn(lists), 2)
  {
    RequestsNumbered(lists, n);
    NumberedSplit(core, RequestsIn(lists), 2);
  }

  lemma CallAppended(requests: seq<Fields>, bytes: string, call: Call, n: nat)
    requires bytes == Numbered(requests, 2) && n == |requests| + 1 && n + 1 < UINT64_LIMIT && Unnumbered(call.request)
    ensures bytes + RequestOf(call, n) == Numbered(requests + [call.request], 2)
  {
    RequestNumbered(call, n);
    NumberedSplit(requests, [call.request], 2);
  }

  lemma AfterLoginNumbered(core: seq<Fields>, coreBytes: string, lists: seq<Call>, off: Call, n: nat)
    requires coreBytes == Numbered(core, 2) && n == |core| + 1 && n <= 3
    requires (forall c :: c in lists ==> Unnumbered(c.request)) && |lists| < UINT64_LIMIT - 4 && Unnumbered(off.request)
    ensures coreBytes + RequestsOf(lists, n) + RequestOf(off, Bumped(n, |lists|)) ==
            Numbered(core + RequestsIn(lists) + [off.request], 2)
  {
    ListsAppended(core, coreBytes, lists, n);
    BumpedSmall(n, |lists|);
    RequestsInSplit(lists, []);
    CallAppended(core + RequestsIn(lists), coreBytes + RequestsOf(lists, n), off, n + |lists|);
  }

  lemma LoginFirst(login: Fields, rest: seq<Fields>, bytes: string)
    requires Unnumbered(login) && bytes == Numbered(rest, 2)
    ensures RequestOf(Single(login), 0) + bytes == Numbered([login] + rest, 1)
  {
    RequestNumbered(Single(login), 0);
    NumberedSplit([login], rest, 1);
  }

  lemma GatherNumbered(config: Config, lists: seq<Call>, g: Gathering)
    requires (forall c :: c in lists ==> Unnumbered(c.request)) && |lists| < UINT64_LIMIT - 4
    ensures GatherBytes(config, lists, g) + (if g.NoLogin? then "" else RequestOf(LOGOFF, GatherCalls(lists, g))) ==
            Numbered(RequestsMade(config, lists, g), 1)
  {
    KeysUnnumbered(config);
    var login := LoginRequest(config);
    var first := RequestOf(Single(login), 0);
    if g.NoLogin? {
      LoginFirst(login, [], "");
      assert first + "" + "" == first + "";
    } else {
      LogoffUnnumbered();
      CoreBytesNumbered(g.settings);
      AfterLoginNumbered(CoreRequests(g.settings), CoreBytes(g.settings), lists, LOGOFF, CallsBefore(g.settings));
      var most := CoreBytes(g.settings) + RequestsOf(lists, CallsBefore(g.settings));
      var off := RequestOf(LOGOFF, GatherCalls(lists, g));
      LoginFirst(login, CoreRequests(g.settings) + RequestsIn(lists) + [LOGOFF.request], most + off);
      Assoc(first, most, off);
    }
  }

  lemma LogoffUnnumbered()
    ensures Unnumbered(LOGOFF.request) && LOGOFF.request == Request("Logoff")
  {
    KeysUnnumbered(Config("", "", ""));
  }

  lemma ListsUnnumbered(o: ScrapeOptions)
    ensures forall c :: c in ListCalls(o) ==> Unnumbered(c.request)
    ensures |ListCalls(o)| <= 4
  {
    KeysUnnumbered(Config("", "", ""));
    forall c | c in ListCalls(o) ensures Unnumbered(c.request) {
      assert c == CHANNELS || c == SIP_PEERS || c == PJSIP_ENDPOINTS || c == QUEUE_STATUS;
    }
  }

  function Unless(disabled: bool, call: Call): seq<Call> {
    if disabled then [] else [call]
  }

  lemma RequestUnless(disabled: bool, call: Call)
    ensures RequestsIn(Unless(disabled, call)) == if disabled then [] else [call.request]
  {
    RequestsInOne(call);
  }

  lemma ListRequestsExactly(o: ScrapeOptions)
    ensures RequestsIn(ListCalls(o)) ==
            [[Field("Action", "CoreShowChannels")]] +
            (if o.disableSIP then [] else [[Field("Action", "SIPpeers")]]) +
            (if o.disablePJSIP then [] else [[Field("Action", "PJSIPShowEndpoints")]]) +
            (if o.disableQueues then [] else [[Field("Action", "QueueStatus")]])
  {
    var s, p, q := Unless(o.disableSIP, SIP_PEERS), Unless(o.disablePJSIP, PJSIP_ENDPOINTS), Unless(o.disableQueues, QUEUE_STATUS);
    RequestsInSplit([CHANNELS] + s + p, q);
    RequestsInSplit([CHANNELS] + s, p);
    RequestsInSplit([CHANNELS], s);
    RequestsInOne(CHANNELS);
    RequestUnless(o.disableSIP, SIP_PEERS);
    RequestUnless(o.disablePJSIP, PJSIP_ENDPOINTS);
    RequestUnless(o.disableQueues, QUEUE_STATUS);
  }

  // ---------------------------------------------------------------- a scrape of one connection

  /** The phases on the replies, and the logoff of a login that was accepted. */
  method ScrapeOver(collector: Collector, client: Client) returns (up: nat, log: seq<Step>)
    requires client.Valid() && client.open && client.actions == 0
    requires TakesEvery(client.takes, ScrapeCalls(client.config, collector.options) + [LOGOFF])
    modifies collector, client, client.reader
    ensures var r := Fetched(collector.options, old(client.reader.Unread()), client.reader.end).0;
            var failed := FailedPhases(collector.options, r, collector.readers);
            && ScrapeLog(log, collector.options, r, collector.readers)
            && collector.errors == Tally(old(collector.errors), failed)
            && up == if failed == [] then 1 else 0
    ensures client.written == old(client.written) +
            Numbered(RequestsMade(client.config, ListCalls(collector.options),
                                  Gathered(ListCalls(collector.options), old(client.reader.Unread()), client.reader.end).0), 1)
    ensures !client.open && client.closes == old(client.closes) + 1
  {
    ghost var lists, before := ListCalls(collector.options), client.written;
    TakesFewer(client.takes, ScrapeCalls(client.config, collector.options), LOGOFF);
    var g := Gather(client, ListCalls(collector.options));
    up, log := collector.Collect(RepliesOf(collector.options, g));
    ListsUnnumbered(collector.options);
    GatherNumbered(client.config, lists, g);
    ghost var most := GatherBytes(client.config, lists, g);
    if g.Gathering? {
      LogOff(client, ScrapeCalls(client.config, collector.options));
      Assoc(before, most, RequestOf(LOGOFF, GatherCalls(lists, g)));
    } else {
      assert most + "" == most;
    }
    client.Close();
  }

  lemma TakesFewer(takes: nat -> nat, calls: seq<Call>, call: Call)
    requires TakesEvery(takes, calls + [call])
    ensures TakesEvery(takes, calls) && forall n, actions :: takes(n) >= |RequestOf(call, actions)|
  {
    assert call in calls + [call];
    assert forall c :: c in calls ==> c in calls + [call];
  }

  method LogOff(client: Client, ghost calls: seq<Call>)
    requires client.Valid() && client.open && TakesEvery(client.takes, calls + [LOGOFF])
    modifies client, client.reader
    ensures client.Valid() && client.open && client.closes == old(client.closes)
    ensures client.written == old(client.written) + RequestOf(LOGOFF, old(client.actions))
  {
    TakesOne(client.takes, calls + [LOGOFF], |calls|, client.writes, client.actions);
    var ignored := client.Action(Request("Logoff"));
  }

  /** The requests of a scrape, word by word. */
  lemma RequestsMadeExactly(config: Config, o: ScrapeOptions, g: Gathering)
    ensures RequestsMade(config, ListCalls(o), g) ==
            [[Field("Action", "Login"), Field("Username", config.username), Field("Secret", config.secret),
              Field("Events", if config.eventClasses == "" then "off" else config.eventClasses)]] +
            if g.NoLogin? then []
            else
              [[Field("Action", "CoreSettings")]] +
              (if g.settings.Response? then [[Field("Action", "CoreStatus")]] else []) +
              ([[Field("Action", "CoreShowChannels")]] +
               (if o.disableSIP then [] else [[Field("Action", "SIPpeers")]]) +
               (if o.disablePJSIP then [] else [[Field("Action", "PJSIPShowEndpoints")]]) +
               (if o.disableQueues then [] else [[Field("Action", "QueueStatus")]])) +
              [[Field("Action", "Logoff")]]
  {
    ListRequestsExactly(o);
  }

  /** How a scrape's log shows what became of the login. */
  lemma LogShowsLogoff(log: seq<Step>, o: ScrapeOptions, r: Replies, readers: Readers)
    requires r.dialled && ScrapeLog(log, o, r, readers)
    ensures LoggedOff in log <==> r.loggedIn
    ensures log != [] && log[0] == LoginTried && log[|log| - 1] == Released
    ensures r.loggedIn ==> |log| >= 3 && log[|log| - 2] == LoggedOff
  {
    if r.loggedIn {
      assert log[|log| - 2..][0] == log[|log| - 2] && log[|log| - 2..][1] == log[|log| - 1];
    }
  }

  /**
   * One scrape on a fresh client: the collector's phases on the replies in the client's bytes. It
   * writes the login; if that is accepted the settings request, the status request only if the
   * settings came, a request for every list that is not switched off, and the logoff, numbered
   * from 1 without gaps. The log says that it logged off exactly when it did.
   */
  method ScrapeConnection(collector: Collector, client: Client) returns (up: nat, log: seq<Step>)
    requires client.Valid() && client.open && client.actions == 0
    requires TakesEvery(client.takes, ScrapeCalls(client.config, collector.options) + [LOGOFF])
    modifies collector, client, client.reader
    ensures var r := Fetched(collector.options, old(client.reader.Unread()), client.reader.end).0;
            var failed := FailedPhases(collector.options, r, collector.readers);
            && ScrapeLog(log, collector.options, r, collector.readers)
            && collector.errors == Tally(old(collector.errors), failed)
            && up == if failed == [] then 1 else 0
    ensures var o, config := collector.options, client.config;
            var g := Gathered(ListCalls(o), old(client.reader.Unread()), client.reader.end).0;
            client.written == old(client.written) + Numbered(
              [[Field("Action", "Login"), Field("Username", config.username), Field("Secret", config.secret),
                Field("Events", if config.eventClasses == "" then "off" else config.eventClasses)]] +
              if g.NoLogin? then []
              else
                [[Field("Action", "CoreSettings")]] +
                (if g.settings.Response? then [[Field("Action", "CoreStatus")]] else []) +
                ([[Field("Action", "CoreShowChannels")]] +
                 (if o.disableSIP then [] else [[Field("Action", "SIPpeers")]]) +
                 (if o.disablePJSIP then [] else [[Field("Action", "PJSIPShowEndpoints")]]) +
                 (if o.disableQueues then [] else [[Field("Action", "QueueStatus")]])) +
                [[Field("Action", "Logoff")]], 1)
    ensures LoggedOff in log <==>
            Gathered(ListCalls(collector.options), old(client.reader.Unread()), client.reader.end).0.Gathering?
    ensures !client.open && client.closes == old(client.closes) + 1
  {
    ghost var g := Gathered(ListCalls(collector.options), client.reader.Unread(), client.reader.end).0;
    RequestsMadeExactly(client.config, collector.options, g);
    up, log := ScrapeOver(collector, client);
    LogShowsLogoff(log, collector.options, RepliesOf(collector.options, g), collector.readers);
  }

  // ---------------------------------------------------------------- a server that answers

  lemma AnsweredAt(calls: seq<Call>, answers: seq<Answer>, k: nat, tail: string, end: StreamEnd)
    requires k < |calls| == |answers| && AnswersRun(calls, answers, 0) && calls[k].Single?
    ensures answers[k].Plain?
    ensures ReplyOf(IdOf(k + 1), ServedBytes(answers[k..]) + tail, end) ==
            (Response(answers[k].frame.message), ServedBytes(answers[k + 1..]) + tail)
  {
    assert AnswersCall(IdOf(0 + 1 + k), calls[k], answers[k]);
    assert answers[k..][0] == answers[k] && answers[k..][1..] == answers[k + 1..];
    Assoc(AnswerBytes(answers[k]), ServedBytes(answers[k + 1..]), tail);
    AnsweredCall(calls[k], answers[k], IdOf(k + 1), ServedBytes(answers[k + 1..]) + tail, end);
  }

  lemma AnsweredLists(core: seq<Call>, lists: seq<Call>, answers: seq<Answer>, tail: string, end: StreamEnd)
    requires |core| == 3 && |answers| == |core + lists| && AnswersRun(core + lists, answers, 0)
    ensures AnswersRun(lists, answers[3..], 3)
    ensures RunCalls(lists, 3, ServedBytes(answers[3..]) + tail, end) == (OwnOutcomes(lists, answers[3..]), tail)
  {
    forall i: nat | i < |lists| ensures AnswersCall(IdOf(3 + 1 + i), lists[i], answers[3..][i]) {
      assert (core + lists)[3 + i] == lists[i] && answers[3..][i] == answers[3 + i];
      assert AnswersCall(IdOf(0 + 1 + (3 + i)), (core + lists)[3 + i], answers[3 + i]);
    }
    StaysInSync(lists, answers[3..], 3, tail, end);
  }

  /** The answers to the core requests are single messages. */
  ghost predicate CoreAnswered(answers: seq<Answer>) {
    |answers| >= 3 && answers[0].Plain? && answers[1].Plain? && answers[2].Plain?
  }

  lemma GatheredStep(lists: seq<Call>, input: string, end: StreamEnd,
                     login: Fields, settings: Fields, status: Fields, rest1: string, rest2: string, rest3: string)
    requires Success(login) && ReplyOf(IdOf(1), input, end) == (Response(login), rest1)
    requires ReplyOf(IdOf(2), rest1, end) == (Response(settings), rest2)
    requires ReplyOf(IdOf(3), rest2, end) == (Response(status), rest3)
    ensures var (outcomes, unread) := RunCalls(lists, 3, rest3, end);
            Gathered(lists, input, end) == (Gathering(Response(settings), Response(status), outcomes), unread)
  {
  }

  /** Whatever the lists asked for: an answered login, answered core requests and answered lists are gathered as they are. */
  lemma AnsweredGathering(core: seq<Call>, lists: seq<Call>, answers: seq<Answer>, tail: string, end: StreamEnd)
    requires |core| == 3 && (forall c :: c in core ==> c.Single?)
    requires |answers| == |core + lists| && AnswersRun(core + lists, answers, 0)
    requires CoreAnswered(answers) && Success(answers[0].frame.message)
    ensures Gathered(lists, ServedBytes(answers) + tail, end) ==
            (Gathering(Response(answers[1].frame.message), Response(answers[2].frame.message),
                       OwnOutcomes(lists, answers[3..])), tail)
  {
    var calls := core + lists;
    assert calls[0] == core[0] && calls[1] == core[1] && calls[2] == core[2];
    AnsweredAt(calls, answers, 0, tail, end);
    AnsweredAt(calls, answers, 1, tail, end);
    AnsweredAt(calls, answers, 2, tail, end);
    assert answers[0..] == answers;
    AnsweredLists(core, lists, answers, tail, end);
    GatheredStep(lists, ServedBytes(answers) + tail, end,
                 answers[0].frame.message, answers[1].frame.message, answers[2].frame.message,
                 ServedBytes(answers[1..]) + tail, ServedBytes(answers[2..]) + tail, ServedBytes(answers[3..]) + tail);
  }

  /**
   * With a server that answers every call of the scrape, the login with a success, the scrape
   * works on exactly the server's answers and leaves just what follows them.
   */
  lemma {:induction false} AnsweredFetch(o: ScrapeOptions, config: Config, answers: seq<Answer>, tail: string, end: StreamEnd)
    requires |answers| == |ScrapeCalls(config, o)| && AnswersRun(ScrapeCalls(config, o), answers, 0)
    requires CoreAnswered(answers) && Success(answers[0].frame.message)
    ensures |answers[3..]| == |ListCalls(o)|
    ensures Fetched(o, ServedBytes(answers) + tail, end) ==
            (Assemble(o, Response(answers[1].frame.message), Response(answers[2].frame.message),
                      OwnOutcomes(ListCalls(o), answers[3..])), tail)
  {
    CoreCallsAre(config, ListCalls(o));
    AnsweredGathering(CoreCalls(config), ListCalls(o), answers, tail, end);
  }

  lemma {:induction false} OwnOutcomesAt(calls: seq<Call>, answers: seq<Answer>, i: nat)
    requires i < |calls| == |answers|
    ensures |OwnOutcomes(calls, answers)| == |calls| && OwnOutcomes(calls, answers)[i] == OwnOutcome(calls[i], answers[i])
    decreases |calls|
  {
    if i > 0 {
      OwnOutcomesAt(calls[1..], answers[1..], i - 1);
    } else if |calls| > 1 {
      OwnOutcomesAt(calls[1..], answers[1..], 0);
    }
  }

  /** The list is accepted, or rejected in a way that says the action is unknown, save for the channel list. */
  predicate AnswerFine(p: Phase, call: Call, a: Answer, readers: Readers) {
    a.Accept? ||
    (a.Reject? && p != ChannelList &&
     readers.unknownAction(Rejected(Lookup(call.request, "Action"), Lookup(a.frame.message, "Message"))))
  }

  predicate IsListPhase(p: Phase) {
    p.ChannelList? || p.SipPeers? || p.PjsipEndpoints? || p.Queues?
  }

  /** A list phase fails exactly when the server's answer is not fine. */
  lemma ListPhaseFails(p: Phase, r: Replies, readers: Readers, call: Call, a: Answer, id: string)
    requires IsListPhase(p) && call.List? && AnswersCall(id, call, a)
    requires ReplyFor(p, r) == OwnOutcome(call, a).listing
    ensures Fails(p, r, readers) <==> !AnswerFine(p, call, a, readers)
  {
  }

  lemma PhasesSplit(o: ScrapeOptions)
    ensures PhasesAfterLogin(o) == [CoreStatus] + ListPhases(o)
    ensures forall p :: p in ListPhases(o) ==> IsListPhase(p)
    ensures forall c :: c in ListCalls(o) ==> c.List?
  {
  }

  lemma EachListFails(o: ScrapeOptions, settings: Reply, status: Reply, answers: seq<Answer>, readers: Readers, i: nat)
    requires i < |ListPhases(o)| == |answers| && AnswersRun(ListCalls(o), answers, 3)
    ensures var r := Assemble(o, settings, status, OwnOutcomes(ListCalls(o), answers));
            Fails(ListPhases(o)[i], r, readers) <==> !AnswerFine(ListPhases(o)[i], ListCalls(o)[i], answers[i], readers)
  {
    var p, call, outcomes := ListPhases(o)[i], ListCalls(o)[i], OwnOutcomes(ListCalls(o), answers);
    PhasesSplit(o);
    assert p in ListPhases(o) && call in ListCalls(o);
    assert AnswersCall(IdOf(3 + 1 + i), call, answers[i]);
    EachPhaseItsReply(o, settings, status, outcomes, i);
    OwnOutcomesAt(ListCalls(o), answers, i);
    ListPhaseFails(p, Assemble(o, settings, status, outcomes), readers, call, answers[i], IdOf(3 + 1 + i));
  }

  /** Every list the scrape asks for is answered well. */
  ghost predicate ListsFine(o: ScrapeOptions, answers: seq<Answer>, readers: Readers)
    requires |answers| == |ListPhases(o)|
  {
    forall i: nat :: i < |answers| ==> AnswerFine(ListPhases(o)[i], ListCalls(o)[i], answers[i], readers)
  }

  lemma ListsFineExactly(o: ScrapeOptions, settings: Fields, status: Fields, answers: seq<Answer>, readers: Readers)
    requires |answers| == |ListPhases(o)| && AnswersRun(ListCalls(o), answers, 3)
    ensures FailedPhases(o, Assemble(o, Response(settings), Response(status), OwnOutcomes(ListCalls(o), answers)), readers) == []
            <==> ListsFine(o, answers, readers)
  {
    var r := Assemble(o, Response(settings), Response(status), OwnOutcomes(ListCalls(o), answers));
    NoneFailing(o, r, readers);
    PhasesAll(o, r, readers);
    forall i: nat | i < |answers|
      ensures Fails(ListPhases(o)[i], r, readers) <==> !AnswerFine(ListPhases(o)[i], ListCalls(o)[i], answers[i], readers)
    {
      EachListFails(o, Response(settings), Response(status), answers, readers, i);
    }
  }

  /**
   * A scrape that is answered in this way counts no error, and puts its gauge up, if and only if
   * every list is accepted or, other than the channel list, rejected as unknown.
   */
  lemma {:induction false} AnsweredScrapeIsUp(o: ScrapeOptions, config: Config, answers: seq<Answer>, tail: string, end: StreamEnd, readers: Readers)
    requires |answers| == |ScrapeCalls(config, o)| && AnswersRun(ScrapeCalls(config, o), answers, 0)
    requires CoreAnswered(answers) && Success(answers[0].frame.message)
    ensures |answers[3..]| == |ListPhases(o)|
    ensures FailedPhases(o, Fetched(o, ServedBytes(answers) + tail, end).0, readers) == [] <==>
            ListsFine(o, answers[3..], readers)
  {
    AnsweredFetch(o, config, answers, tail, end);
    AnsweredLists(CoreCalls(config), ListCalls(o), answers, tail, end);
    ListsFineExactly(o, answers[1].frame.message, answers[2].frame.message, answers[3..], readers);
  }

  lemma PhasesAll(o: ScrapeOptions, r: Replies, readers: Readers)
    ensures (forall p :: p in PhasesAfterLogin(o) ==> !Fails(p, r, readers)) <==>
            !Fails(CoreStatus, r, readers) && forall i: nat :: i < |ListPhases(o)| ==> !Fails(ListPhases(o)[i], r, readers)
  {
    PhasesSplit(o);
    assert forall i: nat :: i < |ListPhases(o)| ==> ListPhases(o)[i] in PhasesAfterLogin(o);
    assert CoreStatus in PhasesAfterLogin(o);
  }

  lemma NoneFailing(o: ScrapeOptions, r: Replies, readers: Readers)
    requires r.dialled && r.loggedIn
    ensures FailedPhases(o, r, readers) == [] <==> forall p :: p in PhasesAfterLogin(o) ==> !Fails(p, r, readers)
  {
    var ps := PhasesAfterLogin(o);
    forall p ensures p in Failing(ps, r, readers) <==> p in ps && Fails(p, r, readers) {
      FailingIs(ps, r, readers, p);
      assert p in Failing(ps, r, readers) <==> multiset(Failing(ps, r, readers))[p] > 0;
      assert p in ps <==> multiset(ps)[p] > 0;
    }
    if Failing(ps, r, readers) != [] {
      assert Failing(ps, r, readers)[0] in Failing(ps, r, readers);
    }
  }
}
