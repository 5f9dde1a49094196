/**
 * The request/response client: action identifiers, single replies, and list replies that end
 * with a completion event. `ReplyOf` and `ListReplyOf` say what one call makes of the unread
 * bytes; the methods of `Client` meet them.
 */
module Clients {
  import opened Text
  import opened Messages
  import opened Codec

  datatype Error =
    | Closed
    | WriteFailed
    | ReadFailed(cause: ReadResult)
    | Mismatch(want: string, got: string)
    | Rejected(action: string, message: string)

  datatype Reply = Response(message: Fields) | Failed(error: Error)

  datatype ListReply = Items(items: seq<Fields>) | ListFailed(error: Error)

  // ---------------------------------------------------------------- action identifiers

  /** The identifier of the call that moves the 64-bit counter to `n` modulo 2^64. */
  function IdOf(n: nat): string {
    Format(n % UINT64_LIMIT)
  }

  /** One step of the 64-bit call counter. */
  function Bump(actions: nat): nat {
    (actions + 1) % UINT64_LIMIT
  }

  lemma IdAfterBump(actions: nat, n: nat)
    ensures IdOf(Bump(actions) + n) == IdOf(actions + 1 + n)
  {
    assert ((actions + 1) % UINT64_LIMIT + n) % UINT64_LIMIT == (actions + 1 + n) % UINT64_LIMIT;
  }

  /** The counter after `n` calls. */
  function Bumped(actions: nat, n: nat): nat
    decreases n
  {
    if n == 0 then actions else Bumped(Bump(actions), n - 1)
  }

  lemma {:induction false} BumpedIs(actions: nat, n: nat)
    requires actions < UINT64_LIMIT
    ensures Bumped(actions, n) == (actions + n) % UINT64_LIMIT
    decreases n
  {
    if n > 0 {
      BumpedIs(Bump(actions), n - 1);
      if actions + 1 == UINT64_LIMIT {
        assert (UINT64_LIMIT + (n - 1)) % UINT64_LIMIT == (n - 1) % UINT64_LIMIT;
      } else {
        assert Bump(actions) == actions + 1;
      }
    }
  }

  /** Calls fewer than 2^64 apart never share an identifier, and no identifier is empty. */
  lemma IdsDistinct(m: nat, n: nat)
    requires m < n < m + UINT64_LIMIT
    ensures IdOf(m) != IdOf(n)
    ensures IdOf(m) != "" && AllDigits(IdOf(m)) && ParseUint(IdOf(m)) == Some(m % UINT64_LIMIT)
  {
    ParseFormat(m % UINT64_LIMIT);
    ParseFormat(n % UINT64_LIMIT);
    assert m == m / UINT64_LIMIT * UINT64_LIMIT + m % UINT64_LIMIT;
    assert n == n / UINT64_LIMIT * UINT64_LIMIT + n % UINT64_LIMIT;
  }

  // ---------------------------------------------------------------- what a message is to a call

  /** The message carries this call's identifier, or none. */
  predicate Ours(id: string, m: Fields) {
    var got := Lookup(m, "ActionID");
    got == "" || got == id
  }

  predicate Success(m: Fields) {
    EqualFold(Lookup(m, "Response"), "Success")
  }

  predicate Completes(id: string, complete: string, m: Fields) {
    Ours(id, m) && EqualFold(Lookup(m, "Event"), complete)
  }

  predicate IsItem(id: string, complete: string, m: Fields) {
    Ours(id, m) && !EqualFold(Lookup(m, "Event"), complete) && Lookup(m, "Event") != ""
  }

  // ---------------------------------------------------------------- one call on the unread bytes

  function ReplyOf(id: string, input: string, end: StreamEnd): (Reply, string) {
    var (r, rest) := Read(input, end);
    if !r.Msg? then (Failed(ReadFailed(r)), rest)
    else if !Ours(id, r.fields) then (Failed(Mismatch(id, Lookup(r.fields, "ActionID"))), rest)
    else (Response(r.fields), rest)
  }

  function Collect(id: string, complete: string, items: seq<Fields>, input: string, end: StreamEnd): (ListReply, string)
    decreases |input|
  {
    var (r, rest) := Read(input, end);
    if !r.Msg? then (ListFailed(ReadFailed(r)), rest)
    else if Completes(id, complete, r.fields) then (Items(items), rest)
    else if IsItem(id, complete, r.fields) then Collect(id, complete, items + [r.fields], rest, end)
    else Collect(id, complete, items, rest, end)
  }

  function ListReplyOf(action: string, id: string, complete: string, input: string, end: StreamEnd): (ListReply, string) {
    var (first, rest) := Read(input, end);
    if !first.Msg? then (ListFailed(ReadFailed(first)), rest)
    else if !Success(first.fields) then (ListFailed(Rejected(action, Lookup(first.fields, "Message"))), rest)
    else Collect(id, complete, [], rest, end)
  }

  // ---------------------------------------------------------------- list replies, message by message

  /** The index of the first completion, or the number of messages. */
  function FirstCompletion(id: string, complete: string, ms: seq<Fields>): (k: nat)
    ensures k <= |ms|
    ensures forall j :: 0 <= j < k ==> !Completes(id, complete, ms[j])
    ensures k < |ms| ==> Completes(id, complete, ms[k])
  {
    if ms == [] || Completes(id, complete, ms[0]) then 0 else 1 + FirstCompletion(id, complete, ms[1..])
  }

  function ItemsIn(id: string, complete: string, ms: seq<Fields>): seq<Fields> {
    if ms == [] then []
    else (if IsItem(id, complete, ms[0]) then [ms[0]] else []) + ItemsIn(id, complete, ms[1..])
  }

  lemma {:induction false} CollectByMessages(id: string, complete: string, items: seq<Fields>, input: string, end: StreamEnd)
    ensures var (ms, last) := DecodeAll(input, end);
            var k := FirstCompletion(id, complete, ms);
            var (reply, rest) := Collect(id, complete, items, input, end);
            if k < |ms|
            then reply == Items(items + ItemsIn(id, complete, ms[..k])) && DecodeAll(rest, end) == (ms[k + 1..], last)
            else reply == ListFailed(ReadFailed(last))
    decreases |input|
  {
    var (r, rest) := Read(input, end);
    if r.Msg? {
      var m := r.fields;
      var ms, more := DecodeAll(input, end).0, DecodeAll(rest, end).0;
      assert ms[0] == m && ms[1..] == more;
      var k := FirstCompletion(id, complete, ms);
      if Completes(id, complete, m) {
        assert items + ItemsIn(id, complete, ms[..k]) == items;
      } else {
        var item := if IsItem(id, complete, m) then [m] else [];
        CollectByMessages(id, complete, items + item, rest, end);
        assert items + [] == items;
        var k' := FirstCompletion(id, complete, more);
        assert k == k' + 1;
        if k < |ms| {
          assert ms[..k][0] == m && ms[..k][1..] == more[..k'];
          assert ms[k + 1..] == more[k' + 1..];
          Assoc(items, item, ItemsIn(id, complete, more[..k']));
        }
      }
    }
  }

  lemma ListByMessages(action: string, id: string, complete: string, input: string, end: StreamEnd)
    ensures var (ms, last) := DecodeAll(input, end);
            var (reply, rest) := ListReplyOf(action, id, complete, input, end);
            if ms == [] then reply == ListFailed(ReadFailed(last))
            else if !Success(ms[0]) then reply == ListFailed(Rejected(action, Lookup(ms[0], "Message")))
            else
              var k := FirstCompletion(id, complete, ms[1..]);
              if k < |ms[1..]|
              then reply == Items(ItemsIn(id, complete, ms[1..][..k])) && DecodeAll(rest, end) == (ms[1..][k + 1..], last)
              else reply == ListFailed(ReadFailed(last))
  {
    var (first, rest) := Read(input, end);
    if first.Msg? {
      var ms := DecodeAll(input, end).0;
      assert ms[0] == first.fields && ms[1..] == DecodeAll(rest, end).0;
      CollectByMessages(id, complete, [], rest, end);
      var k := FirstCompletion(id, complete, ms[1..]);
      assert [] + ItemsIn(id, complete, ms[1..][..k]) == ItemsIn(id, complete, ms[1..][..k]);
    }
  }

  /** Message `k` is the first completion behind the first response. */
  ghost predicate CompletedAt(id: string, complete: string, ms: seq<Fields>, k: nat) {
    && 1 <= k < |ms| && Completes(id, complete, ms[k])
    && forall j :: 1 <= j < k ==> !Completes(id, complete, ms[j])
  }

  lemma CompletedAtFirst(id: string, complete: string, ms: seq<Fields>)
    requires ms != []
    ensures var k := FirstCompletion(id, complete, ms[1..]);
            if k < |ms[1..]|
            then CompletedAt(id, complete, ms, k + 1) && ms[1..][..k] == ms[1..k + 1] && ms[1..][k + 1..] == ms[k + 2..]
            else forall j :: 1 <= j < |ms| ==> !Completes(id, complete, ms[j])
  {
    assert forall j :: 1 <= j < |ms| ==> ms[j] == ms[1..][j - 1];
  }

  /**
   * On any bytes: a list call returns items exactly when the first message reports success and
   * a later one of ours is the completion event. In every other case it fails with the error
   * that says why.
   */
  lemma ListExact(action: string, id: string, complete: string, input: string, end: StreamEnd)
    ensures var ms := DecodeAll(input, end).0;
            var reply := ListReplyOf(action, id, complete, input, end).0;
            && (reply.Items? <==> ms != [] && Success(ms[0]) && exists k :: 1 <= k < |ms| && Completes(id, complete, ms[k]))
            && (ms != [] && !Success(ms[0]) ==> reply == ListFailed(Rejected(action, Lookup(ms[0], "Message"))))
            && (ms == [] || Success(ms[0]) ==> reply.Items? || reply == ListFailed(ReadFailed(DecodeAll(input, end).1)))
  {
    ListByMessages(action, id, complete, input, end);
    var ms := DecodeAll(input, end).0;
    if ms != [] {
      CompletedAtFirst(id, complete, ms);
    }
  }

  /**
   * The items of a list call are all the eligible messages before the first completion, so
   * there is no partial list; the messages after it are still to be read.
   */
  lemma ListItemsExact(action: string, id: string, complete: string, input: string, end: StreamEnd)
    requires ListReplyOf(action, id, complete, input, end).0.Items?
    ensures var (ms, last) := DecodeAll(input, end);
            var (reply, rest) := ListReplyOf(action, id, complete, input, end);
            exists k: nat :: CompletedAt(id, complete, ms, k) &&
              reply == Items(ItemsIn(id, complete, ms[1..k])) && DecodeAll(rest, end) == (ms[k + 1..], last)
  {
    ListByMessages(action, id, complete, input, end);
    CompletedAtFirst(id, complete, DecodeAll(input, end).0);
  }

  /** Every item is one of the messages and every eligible message is an item. */
  lemma {:induction false} ItemsInExact(id: string, complete: string, ms: seq<Fields>, m: Fields)
    ensures m in ItemsIn(id, complete, ms) <==> m in ms && IsItem(id, complete, m)
    ensures multiset(ItemsIn(id, complete, ms))[m] == if IsItem(id, complete, m) then multiset(ms)[m] else 0
  {
    if ms != [] {
      assert ms == [ms[0]] + ms[1..];
      ItemsInExact(id, complete, ms[1..], m);
    }
  }

  lemma {:induction false} CollectNeverRejects(id: string, complete: string, items: seq<Fields>, input: string, end: StreamEnd)
    ensures var reply := Collect(id, complete, items, input, end).0;
            reply.Items? || reply.error.ReadFailed?
    decreases |input|
  {
    CollectByMessages(id, complete, items, input, end);
  }

  // ---------------------------------------------------------------- list replies, end to end

  /** What a server puts between the first response and the completion of a list. */
  datatype Sent = Item(frame: Frame) | Noise(frame: Frame)

  /**
   * Noise carries another call's identifier, whatever else it says (it may be a completion
   * event), or carries no event.
   */
  predicate IsNoise(id: string, complete: string, m: Fields) {
    !Ours(id, m) || (Lookup(m, "Event") == "" && complete != "")
  }

  ghost predicate LawfulBody(id: string, complete: string, body: seq<Sent>) {
    forall s :: s in body ==>
      && Blank(s.frame.blank) && WellFormed(s.frame.message)
      && if s.Item? then IsItem(id, complete, s.frame.message) else IsNoise(id, complete, s.frame.message)
  }

  function FramesOf(body: seq<Sent>): (r: seq<Frame>)
    ensures |r| == |body| && forall i :: 0 <= i < |body| ==> r[i] == body[i].frame
  {
    if body == [] then [] else [body[0].frame] + FramesOf(body[1..])
  }

  function ItemsSent(body: seq<Sent>): seq<Fields> {
    if body == [] then []
    else (if body[0].Item? then [body[0].frame.message] else []) + ItemsSent(body[1..])
  }

  ghost predicate LawfulFrame(f: Frame) {
    Blank(f.blank) && WellFormed(f.message)
  }

  lemma FoldsToEmpty(s: string)
    ensures EqualFold("", s) <==> s == ""
  {
    assert |Lower(s)| == |s|;
  }

  lemma ReadFrame(f: Frame, rest: string, end: StreamEnd)
    requires LawfulFrame(f)
    ensures Read(Stream([f]) + rest, end) == (Msg(f.message), rest)
  {
    var e := Encode(f.message);
    assert Stream([f]) == f.blank + e;
    Assoc(f.blank, e, rest);
    SkipBlank(f.blank, e + rest, end);
    RoundTrip(f.message, rest, end);
  }

  lemma {:induction false} CollectBody(id: string, complete: string, items: seq<Fields>, body: seq<Sent>, rest: string, end: StreamEnd)
    requires LawfulBody(id, complete, body)
    ensures Collect(id, complete, items, Stream(FramesOf(body)) + rest, end) ==
            Collect(id, complete, items + ItemsSent(body), rest, end)
    decreases |body|
  {
    if body == [] {
      assert Stream(FramesOf(body)) + rest == rest;
      assert items + ItemsSent(body) == items;
    } else {
      var s, m := body[0], body[0].frame.message;
      var more := Stream(FramesOf(body[1..])) + rest;
      assert Stream([s.frame]) == s.frame.blank + Encode(m);
      Assoc(Stream([s.frame]), Stream(FramesOf(body[1..])), rest);
      assert s in body;
      ReadFrame(s.frame, more, end);
      FoldsToEmpty(complete);
      var item := if s.Item? then [m] else [];
      assert items + [] == items;
      assert Collect(id, complete, items, Stream([s.frame]) + more, end) == Collect(id, complete, items + item, more, end);
      CollectBody(id, complete, items + item, body[1..], rest, end);
      Assoc(items, item, ItemsSent(body[1..]));
    }
  }

  /**
   * From bytes to items: a successful first response, a body of items and noise in any order,
   * and our completion event, with blank lines anywhere, give exactly the items sent, in
   * order, and leave the cursor right behind the completion event.
   */
  lemma ListEndToEnd(action: string, id: string, complete: string,
                     first: Frame, body: seq<Sent>, done: Frame, tail: string, end: StreamEnd)
    requires LawfulFrame(first) && Success(first.message)
    requires LawfulBody(id, complete, body)
    requires LawfulFrame(done) && Completes(id, complete, done.message)
    ensures ListReplyOf(action, id, complete, ListBytes(first, body, done) + tail, end) == (Items(ItemsSent(body)), tail)
  {
    var f, b, d := Stream([first]), Stream(FramesOf(body)), Stream([done]);
    Assoc(f + b, d, tail);
    Assoc(f, b, d + tail);
    ReadFrame(first, b + (d + tail), end);
    CollectBody(id, complete, [], body, d + tail, end);
    assert [] + ItemsSent(body) == ItemsSent(body);
    ReadFrame(done, tail, end);
  }

  function ListBytes(first: Frame, body: seq<Sent>, done: Frame): string {
    Stream([first]) + Stream(FramesOf(body)) + Stream([done])
  }

  // ---------------------------------------------------------------- whole runs

  datatype Call = Single(request: Fields) | List(request: Fields, complete: string)

  datatype Outcome = OfSingle(reply: Reply) | OfList(listing: ListReply)

  function OneCall(call: Call, id: string, input: string, end: StreamEnd): (Outcome, string) {
    match call
    case Single(_) => var (reply, rest) := ReplyOf(id, input, end); (OfSingle(reply), rest)
    case List(request, complete) =>
      var (listing, rest) := ListReplyOf(Lookup(request, "Action"), id, complete, input, end);
      (OfList(listing), rest)
  }

  /** What the client makes of a run of calls, its counter standing at `actions` before them. */
  function RunCalls(calls: seq<Call>, actions: nat, input: string, end: StreamEnd): (seq<Outcome>, string)
    decreases |calls|
  {
    if calls == [] then ([], input)
    else
      var (outcome, rest) := OneCall(calls[0], IdOf(actions + 1), input, end);
      var (outcomes, unread) := RunCalls(calls[1..], Bump(actions), rest, end);
      ([outcome] + outcomes, unread)
  }

  datatype Answer =
    | Plain(frame: Frame)
    | Accept(first: Frame, body: seq<Sent>, done: Frame)
    | Reject(frame: Frame)

  function AnswerBytes(a: Answer): string {
    match a
    case Plain(frame) => Stream([frame])
    case Accept(first, body, done) => ListBytes(first, body, done)
    case Reject(frame) => Stream([frame])
  }

  function ServedBytes(answers: seq<Answer>): string {
    if answers == [] then "" else AnswerBytes(answers[0]) + ServedBytes(answers[1..])
  }

  /** The server answers this call: with its identifier, noise only inside a list body. */
  ghost predicate AnswersCall(id: string, call: Call, a: Answer) {
    match call
    case Single(_) => a.Plain? && LawfulFrame(a.frame) && Lookup(a.frame.message, "ActionID") == id
    case List(_, complete) =>
      match a
      case Plain(_) => false
      case Accept(first, body, done) =>
        && LawfulFrame(first) && Success(first.message) && Lookup(first.message, "ActionID") == id
        && LawfulBody(id, complete, body)
        && LawfulFrame(done) && Completes(id, complete, done.message)
      case Reject(frame) =>
        LawfulFrame(frame) && !Success(frame.message) && Lookup(frame.message, "ActionID") == id
  }

  /** Every call of the run is answered, each with the identifier the counter gives it. */
  ghost predicate AnswersRun(calls: seq<Call>, answers: seq<Answer>, actions: nat)
    requires |calls| == |answers|
  {
    forall i: nat :: i < |calls| ==> AnswersCall(IdOf(actions + 1 + i), calls[i], answers[i])
  }

  function OwnOutcome(call: Call, a: Answer): Outcome {
    match a
    case Plain(frame) => OfSingle(Response(frame.message))
    case Accept(first, body, done) => OfList(Items(ItemsSent(body)))
    case Reject(frame) =>
      OfList(ListFailed(Rejected(Lookup(call.request, "Action"), Lookup(frame.message, "Message"))))
  }

  function OwnOutcomes(calls: seq<Call>, answers: seq<Answer>): seq<Outcome>
    requires |calls| == |answers|
  {
    if calls == [] then [] else [OwnOutcome(calls[0], answers[0])] + OwnOutcomes(calls[1..], answers[1..])
  }

  lemma AnsweredCall(call: Call, a: Answer, id: string, rest: string, end: StreamEnd)
    requires AnswersCall(id, call, a)
    ensures OneCall(call, id, AnswerBytes(a) + rest, end) == (OwnOutcome(call, a), rest)
  {
    match a {
      case Plain(frame) => ReadFrame(frame, rest, end);
      case Accept(first, body, done) =>
        ListEndToEnd(Lookup(call.request, "Action"), id, call.complete, first, body, done, rest, end);
      case Reject(frame) => ReadFrame(frame, rest, end);
    }
  }

  lemma RestAnswered(calls: seq<Call>, answers: seq<Answer>, actions: nat)
    requires calls != [] && |calls| == |answers| && AnswersRun(calls, answers, actions)
    ensures AnswersCall(IdOf(actions + 1), calls[0], answers[0])
    ensures AnswersRun(calls[1..], answers[1..], Bump(actions))
  {
    assert AnswersCall(IdOf(actions + 1 + 0), calls[0], answers[0]);
    forall i: nat | i < |calls[1..]|
      ensures AnswersCall(IdOf(Bump(actions) + 1 + i), calls[1..][i], answers[1..][i])
    {
      IdAfterBump(actions, 1 + i);
      assert AnswersCall(IdOf(actions + 1 + (1 + i)), calls[1 + i], answers[1 + i]);
    }
  }

  /**
   * The client stays in step over any run of single calls, accepted lists and rejected lists:
   * every call gets its own answer and nothing is left unread before what follows the answers.
   */
  lemma {:induction false} StaysInSync(calls: seq<Call>, answers: seq<Answer>, actions: nat, tail: string, end: StreamEnd)
    requires |calls| == |answers| && AnswersRun(calls, answers, actions)
    ensures RunCalls(calls, actions, ServedBytes(answers) + tail, end) == (OwnOutcomes(calls, answers), tail)
    decreases |calls|
  {
    if calls == [] {
      assert ServedBytes(answers) + tail == tail;
    } else {
      var more := ServedBytes(answers[1..]) + tail;
      Assoc(AnswerBytes(answers[0]), ServedBytes(answers[1..]), tail);
      RestAnswered(calls, answers, actions);
      AnsweredCall(calls[0], answers[0], IdOf(actions + 1), more, end);
      StaysInSync(calls[1..], answers[1..], Bump(actions), tail, end);
    }
  }

  /** A message that belongs to any other call of the run is noise inside a list body. */
  lemma OtherCallsAreNoise(mine: nat, other: nat, complete: string, m: Fields)
    requires mine != other && mine < other + UINT64_LIMIT && other < mine + UINT64_LIMIT
    requires Lookup(m, "ActionID") == IdOf(other)
    ensures IsNoise(IdOf(mine), complete, m)
  {
    if mine < other { IdsDistinct(mine, other); } else { IdsDistinct(other, mine); }
  }

  /**
   * The limit of that promise. A message without an identifier that arrives ahead of a reply
   * is taken for the reply; the next call then finds the reply of the previous one and fails.
   */
  lemma UnsolicitedMessageDesyncs(first: Fields, second: Fields, actions: nat,
                                  event: Frame, reply1: Frame, rest: string, end: StreamEnd)
    requires LawfulFrame(event) && Lookup(event.message, "ActionID") == ""
    requires AnswersCall(IdOf(actions + 1), Single(first), Plain(reply1))
    ensures RunCalls([Single(first), Single(second)], actions, Stream([event]) + (Stream([reply1]) + rest), end) ==
            ([OfSingle(Response(event.message)), OfSingle(Failed(Mismatch(IdOf(actions + 2), IdOf(actions + 1))))], rest)
  {
    var input := Stream([event]) + (Stream([reply1]) + rest);
    IdsDistinct(actions + 1, actions + 2);
    ReadFrame(event, Stream([reply1]) + rest, end);
    ReadFrame(reply1, rest, end);
    RunOfTwo(Single(first), Single(second), actions, input, end);
  }

  lemma RunOfTwo(a: Call, b: Call, actions: nat, input: string, end: StreamEnd)
    ensures var (o1, rest1) := OneCall(a, IdOf(actions + 1), input, end);
            var (o2, rest2) := OneCall(b, IdOf(actions + 2), rest1, end);
            RunCalls([a, b], actions, input, end) == ([o1, o2], rest2)
  {
    assert [a, b][1..] == [b] && [b][1..] == [];
    var (o1, rest1) := OneCall(a, IdOf(actions + 1), input, end);
    var (o2, rest2) := OneCall(b, IdOf(actions + 2), rest1, end);
    IdAfterBump(actions, 1);
    assert RunCalls([], Bump(Bump(actions)), rest2, end) == ([], rest2);
    assert [o2] + [] == [o2] && [o1] + [o2] == [o1, o2];
    assert RunCalls([b], Bump(actions), rest1, end) == ([o2], rest2);
  }

  // ---------------------------------------------------------------- the client object

  datatype Config = Config(username: string, secret: string, eventClasses: string)

  datatype LoginResult = LoggedIn | LoginError(error: Error) | LoginRejected(message: string)

  function EventsHeader(config: Config): string {
    if config.eventClasses == "" then "off" else config.eventClasses
  }

  function LoginRequest(config: Config): Fields {
    [Field("Action", "Login"), Field("Username", config.username), Field("Secret", config.secret),
     Field("Events", EventsHeader(config))]
  }

  function LoginOf(id: string, input: string, end: StreamEnd): (LoginResult, string) {
    var (reply, rest) := ReplyOf(id, input, end);
    match reply
    case Failed(error) => (LoginError(error), rest)
    case Response(m) => (if Success(m) then LoggedIn else LoginRejected(Lookup(m, "Message")), rest)
  }

  /** A login succeeds exactly when the next message is ours and reports success. */
  lemma LoginExact(id: string, input: string, end: StreamEnd)
    ensures LoginOf(id, input, end).0.LoggedIn? <==>
              var r := Read(input, end).0;
              r.Msg? && Ours(id, r.fields) && Success(r.fields)
  {
  }

  class Client {
    const config: Config
    const reader: Reader
    /** How many bytes the peer takes of each write, the first being number 0. */
    const takes: nat -> nat
    var open: bool
    var writes: nat
    var actions: nat
    var written: string
    /** How often the connection has been closed. */
    var closes: nat

    ghost predicate Valid()
      reads this, reader
    {
      reader.Valid() && actions < UINT64_LIMIT
    }

    constructor (config: Config, reader: Reader, takes: nat -> nat)
      requires reader.Valid()
      ensures Valid() && open && actions == 0 && writes == 0 && written == "" && closes == 0
      ensures this.config == config && this.reader == reader && this.takes == takes
    {
      this.config, this.reader, this.takes := config, reader, takes;
      open, actions, writes, written, closes := true, 0, 0, "", 0;
    }

    /** Closing twice closes once. */
    method Close()
      modifies this
      ensures !open && closes == old(closes) + if old(open) then 1 else 0
      ensures actions == old(actions) && writes == old(writes) && written == old(written)
    {
      if !open {
        return;
      }
      open := false;
      closes := closes + 1;
    }

    method NextActionID() returns (id: string)
      requires Valid()
      modifies this
      ensures Valid() && id == IdOf(old(actions) + 1) && actions == Bump(old(actions))
      ensures open == old(open) && writes == old(writes) && written == old(written) && closes == old(closes)
    {
      actions := (actions + 1) % UINT64_LIMIT;
      id := Format(actions);
    }

    /** What this write adds to the output: all of `b`, or a part of it when the write fails. */
    function Taken(b: string): string
      reads this
    {
      if !open then "" else if takes(writes) >= |b| then b else b[..takes(writes)]
    }

    method Write(m: Message) returns (failure: Option<Error>)
      modifies this
      ensures failure == if !open then Some(Closed)
                         else if takes(old(writes)) < |Encode(m.fields)| then Some(WriteFailed)
                         else None
      ensures written == old(written) + old(Taken(Encode(m.fields)))
      ensures writes == old(writes) + if open then 1 else 0
      ensures open == old(open) && actions == old(actions) && closes == old(closes)
    {
      if !open {
        return Some(Closed);
      }
      var b := m.EncodeBytes();
      var n := takes(writes);
      writes := writes + 1;
      if n < |b| {
        written := written + b[..n];
        return Some(WriteFailed);
      }
      written := written + b;
      return None;
    }

    /** One message off the connection. `failure` is set when there is no message. */
    method ReadOne() returns (message: Fields, failure: Option<Error>)
      requires Valid()
      modifies reader
      ensures Valid()
      ensures !open ==> failure == Some(Closed) && reader.Unread() == old(reader.Unread())
      ensures open ==>
                var (r, rest) := Read(old(reader.Unread()), reader.end);
                && reader.Unread() == rest
                && if r.Msg? then message == r.fields && failure == None else failure == Some(ReadFailed(r))
    {
      if !open {
        return [], Some(Closed);
      }
      var r := reader.ReadMessage();
      if r.Msg? {
        return r.fields, None;
      }
      return [], Some(ReadFailed(r));
    }

    /** The messages still to come off the connection. */
    ghost function Pending(): seq<Fields>
      reads this, reader
      requires Valid()
    {
      DecodeAll(reader.Unread(), reader.end).0
    }

    /** The bytes of a request with its identifier set. */
    ghost function RequestBytes(request: Fields): string
      reads this
    {
      Encode(Updated(request, "ActionID", IdOf(actions + 1)))
    }

    /** A call with this request gets as far as reading. */
    ghost predicate Usable(request: Fields)
      reads this
    {
      open && takes(writes) >= |RequestBytes(request)|
    }

    ghost function Unusable(): Error
      reads this
    {
      if !open then Closed else WriteFailed
    }

    /** What every call does to the output and the counters, however it ends. */
    twostate predicate Requested(request: Fields)
      reads this
    {
      && actions == Bump(old(actions)) && writes == old(writes) + (if old(open) then 1 else 0)
      && open == old(open) && closes == old(closes)
      && written == old(written) + old(Taken(RequestBytes(request)))
    }

    method Action(request: Fields) returns (reply: Reply)
      requires Valid()
      modifies this, reader
      ensures Valid() && Requested(request)
      ensures old(Usable(request)) ==>
                (reply, reader.Unread()) == ReplyOf(IdOf(old(actions) + 1), old(reader.Unread()), reader.end)
      ensures old(Usable(request)) ==>
                var r, id := Read(old(reader.Unread()), reader.end).0, IdOf(old(actions) + 1);
                reply == if !r.Msg? then Failed(ReadFailed(r))
                         else if Lookup(r.fields, "ActionID") !in {"", id} then Failed(Mismatch(id, Lookup(r.fields, "ActionID")))
                         else Response(r.fields)
      ensures !old(Usable(request)) ==>
                reader.Unread() == old(reader.Unread()) && reply == Failed(old(Unusable()))
    {
      var id := NextActionID();
      var m := new Message(request);
      m.Set("ActionID", id);
      var failure := Write(m);
      if failure.Some? {
        return Failed(failure.value);
      }
      var resp, trouble := ReadOne();
      if trouble.Some? {
        return Failed(trouble.value);
      }
      var got := Lookup(resp, "ActionID");
      if got != "" && got != id {
        return Failed(Mismatch(id, got));
      }
      return Response(resp);
    }

    method ListAction(request: Fields, completeEvent: string) returns (reply: ListReply)
      requires Valid()
      modifies this, reader
      ensures Valid() && Requested(request)
      ensures old(Usable(request)) ==>
                (reply, reader.Unread()) ==
                ListReplyOf(Lookup(request, "Action"), IdOf(old(actions) + 1), completeEvent, old(reader.Unread()), reader.end)
      ensures old(Usable(request)) && Read(old(reader.Unread()), reader.end).0.Msg? ==>
                var first := Read(old(reader.Unread()), reader.end).0.fields;
                if EqualFold(Lookup(first, "Response"), "Success") then !(reply.ListFailed? && reply.error.Rejected?)
                else reply == ListFailed(Rejected(Lookup(request, "Action"), Lookup(first, "Message")))
      ensures !old(Usable(request)) ==>
                reader.Unread() == old(reader.Unread()) && reply == ListFailed(old(Unusable()))
    {
      var id := NextActionID();
      var m := new Message(request);
      m.Set("ActionID", id);
      LookupUpdated(request, "ActionID", id, "Action");
      assert Lower("ActionID")[6] == 'i';
      var failure := Write(m);
      if failure.Some? {
        return ListFailed(failure.value);
      }
      var first, trouble := ReadOne();
      if trouble.Some? {
        return ListFailed(trouble.value);
      }
      if !EqualFold(Lookup(first, "Response"), "Success") {
        var action := m.Get("Action");
        return ListFailed(Rejected(action, Lookup(first, "Message")));
      }
      CollectNeverRejects(id, completeEvent, [], reader.Unread(), reader.end);
      reply := CollectItems(id, completeEvent);
    }

    /** The reading loop of a list call, behind its first response. */
    method CollectItems(id: string, completeEvent: string) returns (reply: ListReply)
      requires Valid() && open
      modifies reader
      ensures Valid()
      ensures (reply, reader.Unread()) == Collect(id, completeEvent, [], old(reader.Unread()), reader.end)
    {
      var items: seq<Fields> := [];
      var completeLower := Lower(completeEvent);
      LowerIdempotent(completeEvent);
      ghost var outcome := Collect(id, completeEvent, [], reader.Unread(), reader.end);
      while true
        invariant Valid()
        invariant Collect(id, completeEvent, items, reader.Unread(), reader.end) == outcome
        decreases |reader.Unread()|
      {
        var msg, failure := ReadOne();
        if failure.Some? {
          return ListFailed(failure.value);
        }
        if !Ours(id, msg) {
          continue;
        }
        if EqualFold(Lookup(msg, "Event"), completeLower) {
          return Items(items);
        }
        if Lookup(msg, "Event") == "" {
          continue;
        }
        items := items + [msg];
      }
    }

    method BuildLogin() returns (request: Fields)
      ensures request == LoginRequest(config)
    {
      var events := config.eventClasses;
      if events == "" {
        events := "off";
      }
      var m := new Message([]);
      m.With(["Action", "Login", "Username", config.username, "Secret", config.secret, "Events", events]);
      LoginFields(config);
      return m.fields;
    }

    /** Sends a login request and judges the reply. */
    method Authenticate(request: Fields) returns (result: LoginResult)
      requires Valid()
      modifies this, reader
      ensures Valid() && Requested(request)
      ensures old(Usable(request)) ==>
                (result, reader.Unread()) == LoginOf(IdOf(old(actions) + 1), old(reader.Unread()), reader.end)
      ensures old(Usable(request)) ==>
                var r, id := Read(old(reader.Unread()), reader.end).0, IdOf(old(actions) + 1);
                result == if !r.Msg? then LoginError(ReadFailed(r))
                          else if Lookup(r.fields, "ActionID") !in {"", id} then LoginError(Mismatch(id, Lookup(r.fields, "ActionID")))
                          else if EqualFold(Lookup(r.fields, "Response"), "Success") then LoggedIn
                          else LoginRejected(Lookup(r.fields, "Message"))
      ensures !old(Usable(request)) ==>
                reader.Unread() == old(reader.Unread()) && result == LoginError(old(Unusable()))
    {
      var reply := Action(request);
      match reply {
        case Failed(error) => return LoginError(error);
        case Response(resp) =>
          if !EqualFold(Lookup(resp, "Response"), "Success") {
            return LoginRejected(Lookup(resp, "Message"));
          }
          return LoggedIn;
      }
    }

    method Login() returns (result: LoginResult)
      requires Valid()
      modifies this, reader
      ensures Valid() && Requested(LoginRequest(config))
      ensures old(Usable(LoginRequest(config))) ==>
                (result, reader.Unread()) == LoginOf(IdOf(old(actions) + 1), old(reader.Unread()), reader.end)
      ensures old(Usable(LoginRequest(config))) ==>
                var r, id := Read(old(reader.Unread()), reader.end).0, IdOf(old(actions) + 1);
                result == if !r.Msg? then LoginError(ReadFailed(r))
                          else if Lookup(r.fields, "ActionID") !in {"", id} then LoginError(Mismatch(id, Lookup(r.fields, "ActionID")))
                          else if EqualFold(Lookup(r.fields, "Response"), "Success") then LoggedIn
                          else LoginRejected(Lookup(r.fields, "Message"))
      ensures !old(Usable(LoginRequest(config))) ==>
                reader.Unread() == old(reader.Unread()) && result == LoginError(old(Unusable()))
    {
      var request := BuildLogin();
      result := Authenticate(request);
    }
  }

  method PerformOne(client: Client, call: Call) returns (outcome: Outcome)
    requires client.Valid() && client.Usable(call.request)
    modifies client, client.reader
    ensures client.Valid() && client.Requested(call.request)
    ensures (outcome, client.reader.Unread()) ==
            OneCall(call, IdOf(old(client.actions) + 1), old(client.reader.Unread()), client.reader.end)
  {
    match call {
      case Single(request) =>
        var reply := client.Action(request);
        outcome := OfSingle(reply);
      case List(request, complete) =>
        var listing := client.ListAction(request, complete);
        outcome := OfList(listing);
    }
  }

  /** The request a call makes when the counter stands at `actions`. */
  function RequestOf(call: Call, actions: nat): string {
    Encode(Updated(call.request, "ActionID", IdOf(actions + 1)))
  }

  /** All requests of a run, in order. */
  function RequestsOf(calls: seq<Call>, actions: nat): string
    decreases |calls|
  {
    if calls == [] then "" else RequestOf(calls[0], actions) + RequestsOf(calls[1..], Bump(actions))
  }

  /** The peer takes every request of the run in whole, the first one being its write number `writes`. */
  ghost predicate Takes(takes: nat -> nat, writes: nat, calls: seq<Call>, actions: nat)
    decreases |calls|
  {
    calls != [] ==>
      takes(writes) >= |RequestOf(calls[0], actions)| && Takes(takes, writes + 1, calls[1..], Bump(actions))
  }

  /** A caller's run of calls on one client, such as a scrape, is the run `RunCalls` describes. */
  method Perform(client: Client, calls: seq<Call>) returns (outcomes: seq<Outcome>)
    requires client.Valid() && client.open && Takes(client.takes, client.writes, calls, client.actions)
    modifies client, client.reader
    ensures client.Valid() && client.open && client.closes == old(client.closes)
    ensures client.written == old(client.written) + RequestsOf(calls, old(client.actions))
    ensures client.actions == Bumped(old(client.actions), |calls|)
    ensures (outcomes, client.reader.Unread()) ==
            RunCalls(calls, old(client.actions), old(client.reader.Unread()), client.reader.end)
    decreases |calls|
  {
    if calls == [] {
      assert client.written + "" == client.written;
      return [];
    }
    ghost var before, actions := client.written, client.actions;
    var outcome := PerformOne(client, calls[0]);
    outcomes := Perform(client, calls[1..]);
    Assoc(before, RequestOf(calls[0], actions), RequestsOf(calls[1..], Bump(actions)));
    outcomes := [outcome] + outcomes;
  }

  lemma PairsStep(kv: seq<string>)
    requires |kv| >= 2
    ensures Pairs(kv) == [Field(kv[0], kv[1])] + Pairs(kv[2..])
    ensures |kv| == 2 ==> Pairs(kv[2..]) == []
    ensures forall k :: 2 <= k <= |kv| ==> kv[2..][k - 2..] == kv[k..]
  {
  }

  lemma LoginFields(config: Config)
    ensures NewMessage(["Action", "Login", "Username", config.username, "Secret", config.secret,
                        "Events", EventsHeader(config)]) == LoginRequest(config)
  {
    var kv := ["Action", "Login", "Username", config.username, "Secret", config.secret, "Events", EventsHeader(config)];
    var r := LoginRequest(config);
    PairsStep(kv);
    PairsStep(kv[2..]);
    PairsStep(kv[4..]);
    PairsStep(kv[6..]);
    assert Pairs(kv) == r;
    LoginKeysDistinct();
    DistinctWrites(r);
  }

  lemma LoginKeysDistinct()
    ensures !EqualFold("Action", "Username") && !EqualFold("Action", "Secret") && !EqualFold("Action", "Events")
    ensures !EqualFold("Username", "Secret") && !EqualFold("Username", "Events") && !EqualFold("Secret", "Events")
  {
    assert |Lower("Action")| == 6 && |Lower("Username")| == 8 && |Lower("Secret")| == 6 && |Lower("Events")| == 6;
    assert Lower("Action")[0] == 'a' && Lower("Secret")[0] == 's' && Lower("Events")[0] == 'e';
  }
}
