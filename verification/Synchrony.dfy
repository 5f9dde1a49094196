/**
 * Exactly when a client stays in step with a server that puts stray messages ahead of its
 * answers: for single calls never, for list calls only if the strays pass for the first response
 * and for noise behind it.
 */
module Synchrony {
  import opened Text
  import opened Messages
  import opened Codec
  import opened Clients

  /** An answer and the messages that arrive ahead of it. */
  datatype Served = Served(strays: seq<Frame>, answer: Answer)

  function ServedOne(s: Served): string {
    Stream(s.strays) + AnswerBytes(s.answer)
  }

  function ServedAll(served: seq<Served>): string {
    if served == [] then "" else ServedOne(served[0]) + ServedAll(served[1..])
  }

  function AnswersIn(served: seq<Served>): (r: seq<Answer>)
    ensures |r| == |served| && forall i :: 0 <= i < |served| ==> r[i] == served[i].answer
  {
    if served == [] then [] else [served[0].answer] + AnswersIn(served[1..])
  }

  /** A well-formed message that does not carry the call's identifier: unsolicited, or of another call. */
  ghost predicate IsStray(id: string, f: Frame) {
    LawfulFrame(f) && Lookup(f.message, "ActionID") != id
  }

  /** The server answers the call, behind any strays. */
  ghost predicate Serves(id: string, call: Call, s: Served) {
    AnswersCall(id, call, s.answer) && forall f :: f in s.strays ==> IsStray(id, f)
  }

  /** Every call of the run is served, with the identifier the counter gives it. */
  ghost predicate ServesRun(calls: seq<Call>, served: seq<Served>, actions: nat)
    requires |calls| == |served|
  {
    forall i: nat :: i < |calls| ==> Serves(IdOf(actions + 1 + i), calls[i], served[i])
  }

  // ---------------------------------------------------------------- single calls

  /** A single call with a stray ahead of its answer does not get the answer. */
  lemma StrayTakenForAnswer(call: Call, id: string, s: Served, rest: string, end: StreamEnd)
    requires call.Single? && Serves(id, call, s) && s.strays != []
    ensures OneCall(call, id, ServedOne(s) + rest, end).0 != OwnOutcome(call, s.answer)
  {
    var f, more := s.strays[0], Stream(s.strays[1..]) + AnswerBytes(s.answer) + rest;
    assert f in s.strays;
    StraysFirst(s, rest);
    ReadFrame(f, more, end);
  }

  /** The bytes of an answer with strays start with those of the first stray. */
  lemma StraysFirst(s: Served, rest: string)
    requires s.strays != []
    ensures ServedOne(s) + rest == Stream([s.strays[0]]) + (Stream(s.strays[1..]) + AnswerBytes(s.answer) + rest)
  {
    var f, more := s.strays[0], Stream(s.strays[1..]);
    assert [f][1..] == [];
    assert Stream([f]) == f.blank + Encode(f.message);
    Assoc(Stream([f]), more, AnswerBytes(s.answer));
    Assoc(Stream([f]), more + AnswerBytes(s.answer), rest);
  }

  lemma NoStraysServed(call: Call, id: string, s: Served, rest: string, end: StreamEnd)
    requires Serves(id, call, s) && s.strays == []
    ensures OneCall(call, id, ServedOne(s) + rest, end) == (OwnOutcome(call, s.answer), rest)
  {
    assert "" + AnswerBytes(s.answer) == AnswerBytes(s.answer);
    AnsweredCall(call, s.answer, id, rest, end);
  }

  lemma ServesNext(calls: seq<Call>, served: seq<Served>, actions: nat, i: nat)
    requires 1 + i < |calls| == |served| && Serves(IdOf(actions + 1 + (1 + i)), calls[1 + i], served[1 + i])
    ensures Serves(IdOf(Bump(actions) + 1 + i), calls[1..][i], served[1..][i])
  {
    IdAfterBump(actions, 1 + i);
  }

  lemma RestServed(calls: seq<Call>, served: seq<Served>, actions: nat)
    requires calls != [] && |calls| == |served| && ServesRun(calls, served, actions)
    ensures Serves(IdOf(actions + 1), calls[0], served[0])
    ensures ServesRun(calls[1..], served[1..], Bump(actions))
  {
    assert Serves(IdOf(actions + 1 + 0), calls[0], served[0]);
    forall i: nat | i < |calls[1..]|
      ensures Serves(IdOf(Bump(actions) + 1 + i), calls[1..][i], served[1..][i])
    {
      ServesNext(calls, served, actions, i);
    }
  }

  predicate StrayFree(served: seq<Served>) {
    forall i :: 0 <= i < |served| ==> served[i].strays == []
  }

  lemma RunCallsCons(calls: seq<Call>, actions: nat, input: string, end: StreamEnd)
    requires calls != []
    ensures var (outcome, rest) := OneCall(calls[0], IdOf(actions + 1), input, end);
            var (outcomes, unread) := RunCalls(calls[1..], Bump(actions), rest, end);
            RunCalls(calls, actions, input, end) == ([outcome] + outcomes, unread)
  {
  }

  lemma OwnOutcomesCons(calls: seq<Call>, answers: seq<Answer>)
    requires calls != [] && |calls| == |answers|
    ensures OwnOutcomes(calls, answers) == [OwnOutcome(calls[0], answers[0])] + OwnOutcomes(calls[1..], answers[1..])
  {
  }

  lemma ConsEqual<T>(x: T, xs: seq<T>, y: T, ys: seq<T>)
    ensures [x] + xs == [y] + ys <==> x == y && xs == ys
  {
    assert ([x] + xs)[0] == x && ([x] + xs)[1..] == xs;
    assert ([y] + ys)[0] == y && ([y] + ys)[1..] == ys;
  }

  /** One call of a run, served: what its outcome and the others' must be for all to be their own. */
  lemma RunOwnCons(calls: seq<Call>, served: seq<Served>, actions: nat, tail: string, end: StreamEnd)
    requires calls != [] && |calls| == |served|
    ensures var rest := ServedAll(served[1..]) + tail;
            var (outcome, unread) := OneCall(calls[0], IdOf(actions + 1), ServedOne(served[0]) + rest, end);
            RunCalls(calls, actions, ServedAll(served) + tail, end).0 == OwnOutcomes(calls, AnswersIn(served)) <==>
              outcome == OwnOutcome(calls[0], served[0].answer) &&
              RunCalls(calls[1..], Bump(actions), unread, end).0 == OwnOutcomes(calls[1..], AnswersIn(served[1..]))
  {
    var rest := ServedAll(served[1..]) + tail;
    Assoc(ServedOne(served[0]), ServedAll(served[1..]), tail);
    RunCallsCons(calls, actions, ServedAll(served) + tail, end);
    OwnOutcomesCons(calls, AnswersIn(served));
    assert AnswersIn(served)[1..] == AnswersIn(served[1..]);
    var (outcome, unread) := OneCall(calls[0], IdOf(actions + 1), ServedOne(served[0]) + rest, end);
    ConsEqual(outcome, RunCalls(calls[1..], Bump(actions), unread, end).0,
              OwnOutcome(calls[0], served[0].answer), OwnOutcomes(calls[1..], AnswersIn(served[1..])));
  }

  /**
   * For every run of single calls: each gets its own answer if and only if no stray arrives ahead
   * of any answer.
   */
  lemma {:induction false} SinglesInSyncExactly(calls: seq<Call>, served: seq<Served>, actions: nat, tail: string, end: StreamEnd)
    requires |calls| == |served| && ServesRun(calls, served, actions)
    requires forall i :: 0 <= i < |calls| ==> calls[i].Single?
    ensures RunCalls(calls, actions, ServedAll(served) + tail, end).0 == OwnOutcomes(calls, AnswersIn(served)) <==>
            StrayFree(served)
    decreases |calls|
  {
    if calls != [] {
      var id, rest := IdOf(actions + 1), ServedAll(served[1..]) + tail;
      RunOwnCons(calls, served, actions, tail, end);
      RestServed(calls, served, actions);
      StrayFreeCons(served);
      if served[0].strays != [] {
        StrayTakenForAnswer(calls[0], id, served[0], rest, end);
      } else {
        NoStraysServed(calls[0], id, served[0], rest, end);
        SinglesInSyncExactly(calls[1..], served[1..], Bump(actions), tail, end);
      }
    }
  }

  lemma StrayFreeCons(served: seq<Served>)
    requires served != []
    ensures StrayFree(served) <==> served[0].strays == [] && StrayFree(served[1..])
  {
    assert forall i :: 1 <= i < |served| ==> served[i] == served[1..][i - 1];
  }

  // ---------------------------------------------------------------- list calls

  /**
   * The strays do the call no harm: there are none, or the first one reports success and passes
   * for the first response, and the others and the first response itself pass for noise.
   */
  predicate Harmless(id: string, call: Call, s: Served) {
    s.strays == [] ||
    (call.List? && s.answer.Accept? && Success(s.strays[0].message) &&
     forall f :: f in s.strays[1..] + [s.answer.first] ==> IsNoise(id, call.complete, f.message))
  }

  function AsNoise(frames: seq<Frame>): (r: seq<Sent>)
    ensures |r| == |frames| && forall i :: 0 <= i < |frames| ==> r[i] == Noise(frames[i])
  {
    if frames == [] then [] else [Noise(frames[0])] + AsNoise(frames[1..])
  }

  lemma {:induction false} ItemsSentSplit(a: seq<Sent>, b: seq<Sent>)
    ensures ItemsSent(a + b) == ItemsSent(a) + ItemsSent(b)
    decreases |a|
  {
    if a == [] {
      assert a + b == b;
    } else {
      assert (a + b)[0] == a[0] && (a + b)[1..] == a[1..] + b;
      ItemsSentSplit(a[1..], b);
      Assoc(if a[0].Item? then [a[0].frame.message] else [], ItemsSent(a[1..]), ItemsSent(b));
    }
  }

  lemma {:induction false} NoiseSendsNothing(frames: seq<Frame>)
    ensures ItemsSent(AsNoise(frames)) == []
  {
    if frames != [] {
      NoiseSendsNothing(frames[1..]);
    }
  }

  lemma FramesOfSplit(a: seq<Sent>, b: seq<Sent>)
    ensures FramesOf(a + b) == FramesOf(a) + FramesOf(b)
  {
  }

  lemma FramesOfNoise(frames: seq<Frame>)
    ensures FramesOf(AsNoise(frames)) == frames
  {
  }

  lemma NoiseAhead(frames: seq<Frame>, body: seq<Sent>)
    ensures FramesOf(AsNoise(frames) + body) == frames + FramesOf(body)
    ensures ItemsSent(AsNoise(frames) + body) == ItemsSent(body)
  {
    FramesOfSplit(AsNoise(frames), body);
    FramesOfNoise(frames);
    ItemsSentSplit(AsNoise(frames), body);
    NoiseSendsNothing(frames);
  }

  lemma {:induction false} StreamSplit(a: seq<Frame>, b: seq<Frame>)
    ensures Stream(a + b) == Stream(a) + Stream(b)
    decreases |a|
  {
    if a == [] {
      assert a + b == b;
    } else {
      assert (a + b)[1..] == a[1..] + b;
      StreamSplit(a[1..], b);
      Assoc(a[0].blank + Encode(a[0].message), Stream(a[1..]), Stream(b));
    }
  }

  /** What a list call finds behind the first stray: the other strays, the first response, the body. */
  function BehindStray(s: Served): seq<Sent>
    requires s.strays != [] && s.answer.Accept?
  {
    AsNoise(s.strays[1..] + [s.answer.first]) + s.answer.body
  }

  /** Strays ahead of an accepted list make the bytes of a list whose first response is the first stray. */
  lemma StraysShiftList(s: Served)
    requires s.strays != [] && s.answer.Accept?
    ensures ServedOne(s) == ListBytes(s.strays[0], BehindStray(s), s.answer.done)
    ensures ItemsSent(BehindStray(s)) == ItemsSent(s.answer.body)
  {
    var more, first, body, done := s.strays[1..], s.answer.first, s.answer.body, s.answer.done;
    assert s.strays == [s.strays[0]] + more;
    StreamSplit([s.strays[0]], more);
    StreamSplit(more, [first]);
    StreamSplit(more + [first], FramesOf(body));
    NoiseAhead(more + [first], body);
    var x, m, f, b, d := Stream([s.strays[0]]), Stream(more), Stream([first]), Stream(FramesOf(body)), Stream([done]);
    Assoc(x, m, f + b + d);
    Assoc(m, f + b, d);
    Assoc(m, f, b);
    Assoc(x, m + f + b, d);
  }

  lemma HarmlessIsLawful(call: Call, id: string, s: Served)
    requires Serves(id, call, s) && s.strays != [] && Harmless(id, call, s)
    ensures LawfulBody(id, call.complete, BehindStray(s))
  {
    var more := s.strays[1..] + [s.answer.first];
    forall x | x in BehindStray(s)
      ensures Blank(x.frame.blank) && WellFormed(x.frame.message)
      ensures if x.Item? then IsItem(id, call.complete, x.frame.message) else IsNoise(id, call.complete, x.frame.message)
    {
      if x !in s.answer.body {
        assert x in AsNoise(more) && x.frame in more;
        assert x.frame in s.strays || x.frame == s.answer.first;
      }
    }
  }

  lemma HarmlessList(call: Call, id: string, s: Served, rest: string, end: StreamEnd)
    requires Serves(id, call, s) && s.strays != [] && Harmless(id, call, s)
    ensures OneCall(call, id, ServedOne(s) + rest, end) == (OwnOutcome(call, s.answer), rest)
  {
    StraysShiftList(s);
    HarmlessIsLawful(call, id, s);
    assert s.strays[0] in s.strays;
    ListEndToEnd(Lookup(call.request, "Action"), id, call.complete,
                 s.strays[0], BehindStray(s), s.answer.done, rest, end);
  }

  /** A message that is not noise to a list call is an item or completes it. */
  lemma NoiseExactly(id: string, complete: string, m: Fields)
    ensures IsNoise(id, complete, m) <==> !IsItem(id, complete, m) && !Completes(id, complete, m)
  {
    FoldsToEmpty(complete);
  }

  lemma {:induction false} ItemsInSplit(id: string, complete: string, a: seq<Fields>, b: seq<Fields>)
    ensures ItemsIn(id, complete, a + b) == ItemsIn(id, complete, a) + ItemsIn(id, complete, b)
    decreases |a|
  {
    if a == [] {
      assert a + b == b;
    } else {
      assert (a + b)[0] == a[0] && (a + b)[1..] == a[1..] + b;
      ItemsInSplit(id, complete, a[1..], b);
      Assoc(if IsItem(id, complete, a[0]) then [a[0]] else [], ItemsIn(id, complete, a[1..]), ItemsIn(id, complete, b));
    }
  }

  lemma {:induction false} ItemsInBody(id: string, complete: string, body: seq<Sent>)
    requires LawfulBody(id, complete, body)
    ensures ItemsIn(id, complete, MessagesOf(FramesOf(body))) == ItemsSent(body)
  {
    if body != [] {
      assert body[0] in body;
      NoiseExactly(id, complete, body[0].frame.message);
      ItemsInBody(id, complete, body[1..]);
      var ms := MessagesOf(FramesOf(body));
      assert ms[0] == body[0].frame.message && ms[1..] == MessagesOf(FramesOf(body[1..]));
    }
  }

  lemma MessagesOfSplit(a: seq<Frame>, b: seq<Frame>)
    ensures MessagesOf(a + b) == MessagesOf(a) + MessagesOf(b)
  {
  }

  /** What an accepted list with strays is as a stream of frames. */
  function ServedFrames(s: Served): seq<Frame>
    requires s.strays != [] && s.answer.Accept?
  {
    [s.strays[0]] + (s.strays[1..] + [s.answer.first] + FramesOf(s.answer.body) + [s.answer.done])
  }

  /** The messages ahead of the body, behind the one that is taken for the first response. */
  function MessagesAhead(s: Served): seq<Fields>
    requires s.strays != [] && s.answer.Accept?
  {
    MessagesOf(s.strays[1..] + [s.answer.first])
  }

  lemma ServedIsStream(s: Served)
    requires s.strays != [] && s.answer.Accept?
    ensures ServedOne(s) == Stream(ServedFrames(s))
  {
    var x, more, body, done := [s.strays[0]], s.strays[1..] + [s.answer.first], FramesOf(s.answer.body), [s.answer.done];
    StraysShiftList(s);
    NoiseAhead(more, s.answer.body);
    StreamSplit(x, more + body + done);
    StreamSplit(more + body, done);
    Assoc(Stream(x), Stream(more + body), Stream(done));
  }

  lemma ServedFramed(id: string, call: Call, s: Served)
    requires Serves(id, call, s) && s.strays != [] && s.answer.Accept?
    ensures WellFramed(ServedFrames(s))
  {
    forall f | f in ServedFrames(s) ensures LawfulFrame(f) {
      if f in FramesOf(s.answer.body) {
        var i :| 0 <= i < |FramesOf(s.answer.body)| && FramesOf(s.answer.body)[i] == f;
        assert s.answer.body[i] in s.answer.body;
      } else {
        assert f in s.strays || f == s.answer.first || f == s.answer.done;
      }
    }
  }

  lemma ServedMessages(s: Served)
    requires s.strays != [] && s.answer.Accept?
    ensures MessagesOf(ServedFrames(s)) ==
            [s.strays[0].message] + (MessagesAhead(s) + MessagesOf(FramesOf(s.answer.body)) + [s.answer.done.message])
  {
    var more, body, done := s.strays[1..] + [s.answer.first], FramesOf(s.answer.body), [s.answer.done];
    MessagesOfSplit([s.strays[0]], more + body + done);
    MessagesOfSplit(more + body, done);
    MessagesOfSplit(more, body);
  }

  lemma ServedDecodes(id: string, call: Call, s: Served, rest: string, end: StreamEnd)
    requires Serves(id, call, s) && s.strays != [] && s.answer.Accept?
    ensures DecodeAll(ServedOne(s) + rest, end).0 ==
            [s.strays[0].message] +
            (MessagesAhead(s) + MessagesOf(FramesOf(s.answer.body)) + [s.answer.done.message] + DecodeAll(rest, end).0)
  {
    ServedIsStream(s);
    ServedFramed(id, call, s);
    ServedMessages(s);
    DecodeFrames(ServedFrames(s), rest, end);
    Assoc([s.strays[0].message], MessagesAhead(s) + MessagesOf(FramesOf(s.answer.body)) + [s.answer.done.message],
          DecodeAll(rest, end).0);
  }

  /** A list that ends at its own completion with no more than its own items met only noise ahead of them. */
  lemma OnlyNoiseAhead(id: string, complete: string, ahead: seq<Fields>, own: seq<Fields>, done: Fields, later: seq<Fields>)
    requires var ms := ahead + own + [done] + later;
             var k := FirstCompletion(id, complete, ms);
             k < |ms| && |ms[k + 1..]| == |later| && ItemsIn(id, complete, ms[..k]) == ItemsIn(id, complete, own)
    ensures forall m :: m in ahead ==> IsNoise(id, complete, m)
  {
    var ms := ahead + own + [done] + later;
    var k := FirstCompletion(id, complete, ms);
    assert ms[..k] == ahead + own;
    ItemsInSplit(id, complete, ahead, own);
    assert |ItemsIn(id, complete, ahead)| == 0;
    forall m | m in ahead ensures IsNoise(id, complete, m) {
      var i :| 0 <= i < |ahead| && ahead[i] == m;
      assert ms[i] == m;
      ItemsInExact(id, complete, ahead, m);
      NoiseExactly(id, complete, m);
    }
  }

  /** A list call that gets its own items and stops right behind its completion found only noise ahead of the body. */
  lemma InStepIsHarmless(call: Call, id: string, s: Served, rest: string, end: StreamEnd)
    requires Serves(id, call, s) && s.strays != [] && s.answer.Accept?
    requires OneCall(call, id, ServedOne(s) + rest, end) == (OwnOutcome(call, s.answer), rest)
    ensures Harmless(id, call, s)
  {
    var action, complete, input := Lookup(call.request, "Action"), call.complete, ServedOne(s) + rest;
    var ahead, own, later := MessagesAhead(s), MessagesOf(FramesOf(s.answer.body)), DecodeAll(rest, end).0;
    var ms := ahead + own + [s.answer.done.message] + later;
    ServedDecodes(id, call, s, rest, end);
    assert ([s.strays[0].message] + ms)[1..] == ms;
    ListByMessages(action, id, complete, input, end);
    ItemsInBody(id, complete, s.answer.body);
    OnlyNoiseAhead(id, complete, ahead, own, s.answer.done.message, later);
    forall f | f in s.strays[1..] + [s.answer.first] ensures IsNoise(id, complete, f.message) {
      var i :| 0 <= i < |ahead| && (s.strays[1..] + [s.answer.first])[i] == f;
      assert ahead[i] in ahead;
    }
  }

  // ---------------------------------------------------------------- rejected lists

  /** A list call never gets its own rejection when a stray arrives ahead of it. */
  lemma StrayAheadOfRejection(call: Call, id: string, s: Served, rest: string, end: StreamEnd)
    requires Serves(id, call, s) && s.strays != [] && s.answer.Reject?
    ensures OneCall(call, id, ServedOne(s) + rest, end) != (OwnOutcome(call, s.answer), rest)
  {
    var f, more := s.strays[0], Stream(s.strays[1..]) + AnswerBytes(s.answer) + rest;
    assert f in s.strays;
    StraysFirst(s, rest);
    ReadFrame(f, more, end);
    if Success(f.message) {
      CollectByMessages(id, call.complete, [], more, end);
    } else {
      FrameHasBytes(s.answer.frame);
    }
  }

  lemma FrameHasBytes(f: Frame)
    ensures |Stream([f])| > 0
  {
    assert [f][1..] == [];
    assert |Encode(f.message)| >= 2;
  }

  // ---------------------------------------------------------------- one call, exactly

  /** A served call gets its own outcome and leaves just what follows its answer if and only if its strays are harmless. */
  lemma {:induction false} CallInStepExactly(call: Call, id: string, s: Served, rest: string, end: StreamEnd)
    requires Serves(id, call, s)
    ensures OneCall(call, id, ServedOne(s) + rest, end) == (OwnOutcome(call, s.answer), rest) <==> Harmless(id, call, s)
  {
    if s.strays == [] {
      NoStraysServed(call, id, s, rest, end);
    } else if Harmless(id, call, s) {
      HarmlessList(call, id, s, rest, end);
    } else if call.Single? {
      StrayTakenForAnswer(call, id, s, rest, end);
    } else if s.answer.Reject? {
      StrayAheadOfRejection(call, id, s, rest, end);
    } else if OneCall(call, id, ServedOne(s) + rest, end) == (OwnOutcome(call, s.answer), rest) {
      InStepIsHarmless(call, id, s, rest, end);
    }
  }

  // ---------------------------------------------------------------- whole runs

  /** After the first `k` calls every one has its own outcome, and what is unread starts with the next call's bytes. */
  ghost predicate InStepAfter(calls: seq<Call>, served: seq<Served>, actions: nat, tail: string, end: StreamEnd, k: nat)
    requires k <= |calls| == |served|
  {
    RunCalls(calls[..k], actions, ServedAll(served) + tail, end) ==
    (OwnOutcomes(calls[..k], AnswersIn(served[..k])), ServedAll(served[k..]) + tail)
  }

  ghost predicate AllHarmless(calls: seq<Call>, served: seq<Served>, actions: nat)
    requires |calls| == |served|
  {
    forall i: nat :: i < |calls| ==> Harmless(IdOf(actions + 1 + i), calls[i], served[i])
  }

  lemma HarmlessNext(calls: seq<Call>, served: seq<Served>, actions: nat, i: nat)
    requires 1 + i < |calls| == |served|
    ensures Harmless(IdOf(Bump(actions) + 1 + i), calls[1..][i], served[1..][i]) <==>
            Harmless(IdOf(actions + 1 + (1 + i)), calls[1 + i], served[1 + i])
  {
    IdAfterBump(actions, 1 + i);
  }

  lemma HarmlessAt(calls: seq<Call>, served: seq<Served>, actions: nat, i: nat)
    requires i < |calls| == |served|
    requires Harmless(IdOf(actions + 1), calls[0], served[0]) && AllHarmless(calls[1..], served[1..], Bump(actions))
    ensures Harmless(IdOf(actions + 1 + i), calls[i], served[i])
  {
    if i > 0 {
      var j: nat := i - 1;
      assert Harmless(IdOf(Bump(actions) + 1 + j), calls[1..][j], served[1..][j]);
      HarmlessNext(calls, served, actions, j);
    }
  }

  lemma HarmlessRest(calls: seq<Call>, served: seq<Served>, actions: nat)
    requires calls != [] && |calls| == |served| && AllHarmless(calls, served, actions)
    ensures Harmless(IdOf(actions + 1), calls[0], served[0]) && AllHarmless(calls[1..], served[1..], Bump(actions))
  {
    assert Harmless(IdOf(actions + 1 + 0), calls[0], served[0]);
    forall i: nat | i < |calls[1..]| ensures Harmless(IdOf(Bump(actions) + 1 + i), calls[1..][i], served[1..][i]) {
      assert Harmless(IdOf(actions + 1 + (1 + i)), calls[1 + i], served[1 + i]);
      HarmlessNext(calls, served, actions, i);
    }
  }

  lemma AllHarmlessCons(calls: seq<Call>, served: seq<Served>, actions: nat)
    requires calls != [] && |calls| == |served|
    ensures AllHarmless(calls, served, actions) <==>
            Harmless(IdOf(actions + 1), calls[0], served[0]) && AllHarmless(calls[1..], served[1..], Bump(actions))
  {
    if AllHarmless(calls, served, actions) {
      HarmlessRest(calls, served, actions);
    } else if Harmless(IdOf(actions + 1), calls[0], served[0]) && AllHarmless(calls[1..], served[1..], Bump(actions)) {
      forall i: nat | i < |calls| ensures Harmless(IdOf(actions + 1 + i), calls[i], served[i]) {
        HarmlessAt(calls, served, actions, i);
      }
    }
  }

  lemma InStepCons(calls: seq<Call>, served: seq<Served>, actions: nat, tail: string, end: StreamEnd, k: nat)
    requires k < |calls| == |served|
    requires OneCall(calls[0], IdOf(actions + 1), ServedOne(served[0]) + (ServedAll(served[1..]) + tail), end) ==
             (OwnOutcome(calls[0], served[0].answer), ServedAll(served[1..]) + tail)
    ensures InStepAfter(calls, served, actions, tail, end, k + 1) <==>
            InStepAfter(calls[1..], served[1..], Bump(actions), tail, end, k)
  {
    var first, own := calls[..k + 1], AnswersIn(served[..k + 1]);
    Assoc(ServedOne(served[0]), ServedAll(served[1..]), tail);
    RunCallsCons(first, actions, ServedAll(served) + tail, end);
    OwnOutcomesCons(first, own);
    assert first[0] == calls[0] && first[1..] == calls[1..][..k];
    assert served[..k + 1][1..] == served[1..][..k] && served[k + 1..] == served[1..][k..];
    assert own[0] == served[0].answer && own[1..] == AnswersIn(served[1..][..k]);
    ConsEqual(OwnOutcome(calls[0], served[0].answer),
              RunCalls(first[1..], Bump(actions), ServedAll(served[1..]) + tail, end).0,
              OwnOutcome(calls[0], served[0].answer), OwnOutcomes(first[1..], own[1..]));
  }

  lemma InStepOne(calls: seq<Call>, served: seq<Served>, actions: nat, tail: string, end: StreamEnd)
    requires calls != [] && |calls| == |served|
    ensures InStepAfter(calls, served, actions, tail, end, 0)
    ensures InStepAfter(calls, served, actions, tail, end, 1) <==>
            OneCall(calls[0], IdOf(actions + 1), ServedOne(served[0]) + (ServedAll(served[1..]) + tail), end) ==
            (OwnOutcome(calls[0], served[0].answer), ServedAll(served[1..]) + tail)
  {
    Assoc(ServedOne(served[0]), ServedAll(served[1..]), tail);
    RunCallsCons(calls[..1], actions, ServedAll(served) + tail, end);
    OwnOutcomesCons(calls[..1], AnswersIn(served[..1]));
    assert calls[..1] == [calls[0]] && calls[..1][1..] == [] && served[..1][1..] == [] && AnswersIn(served[..1])[1..] == [];
    var outcome := OneCall(calls[0], IdOf(actions + 1), ServedAll(served) + tail, end).0;
    ConsEqual(outcome, [], OwnOutcome(calls[0], served[0].answer), []);
  }

  /**
   * For every run of single and list calls that is served behind strays: after every call of it
   * the client is in step, with its own outcomes and its cursor at the next answer, if and only
   * if the strays of every call are harmless to it.
   */
  lemma {:induction false} InStepExactly(calls: seq<Call>, served: seq<Served>, actions: nat, tail: string, end: StreamEnd)
    requires |calls| == |served| && ServesRun(calls, served, actions)
    ensures (forall k: nat :: k <= |calls| ==> InStepAfter(calls, served, actions, tail, end, k)) <==>
            AllHarmless(calls, served, actions)
    decreases |calls|
  {
    if calls == [] {
      assert calls[..0] == [] && served[..0] == [] && served[0..] == [];
    } else {
      var id, rest := IdOf(actions + 1), ServedAll(served[1..]) + tail;
      RestServed(calls, served, actions);
      CallInStepExactly(calls[0], id, served[0], rest, end);
      AllHarmlessCons(calls, served, actions);
      InStepOne(calls, served, actions, tail, end);
      InStepExactly(calls[1..], served[1..], Bump(actions), tail, end);
      if Harmless(id, calls[0], served[0]) {
        forall k: nat | k < |calls|
          ensures InStepAfter(calls, served, actions, tail, end, k + 1) <==>
                  InStepAfter(calls[1..], served[1..], Bump(actions), tail, end, k)
        {
          InStepCons(calls, served, actions, tail, end, k);
        }
        InStepShift(calls, served, actions, tail, end);
      }
    }
  }

  lemma InStepShift(calls: seq<Call>, served: seq<Served>, actions: nat, tail: string, end: StreamEnd)
    requires calls != [] && |calls| == |served| && InStepAfter(calls, served, actions, tail, end, 0)
    requires forall k: nat :: k < |calls| ==>
               (InStepAfter(calls, served, actions, tail, end, k + 1) <==>
                InStepAfter(calls[1..], served[1..], Bump(actions), tail, end, k))
    ensures (forall k: nat :: k <= |calls| ==> InStepAfter(calls, served, actions, tail, end, k)) <==>
            (forall k: nat :: k <= |calls[1..]| ==> InStepAfter(calls[1..], served[1..], Bump(actions), tail, end, k))
  {
    if forall k: nat :: k <= |calls[1..]| ==> InStepAfter(calls[1..], served[1..], Bump(actions), tail, end, k) {
      forall k: nat | k <= |calls| ensures InStepAfter(calls, served, actions, tail, end, k) {
        if k > 0 {
          var j: nat := k - 1;
          assert InStepAfter(calls[1..], served[1..], Bump(actions), tail, end, j);
          assert InStepAfter(calls, served, actions, tail, end, j + 1);
        }
      }
    }
  }

  // ---------------------------------------------------------------- the unchecked first response

  /**
   * A list call does not check whose success it takes for its first response: ahead of an accepted
   * list that is harmless, if and only if the list's own first response then passes for noise.
   */
  lemma SuccessAheadOfList(call: Call, id: string, s: Served, rest: string, end: StreamEnd)
    requires Serves(id, call, s) && s.answer.Accept? && |s.strays| == 1 && Success(s.strays[0].message)
    ensures OneCall(call, id, ServedOne(s) + rest, end) == (OfList(Items(ItemsSent(s.answer.body))), rest) <==>
            IsNoise(id, call.complete, s.answer.first.message)
  {
    assert s.strays[1..] + [s.answer.first] == [s.answer.first];
    CallInStepExactly(call, id, s, rest, end);
  }

  /** Ahead of the call's own rejection it hides the rejection, which is then skipped as noise. */
  lemma RejectionHidden(call: Call, id: string, s: Served, rest: string, end: StreamEnd)
    requires Serves(id, call, s) && s.answer.Reject? && |s.strays| == 1 && Success(s.strays[0].message)
    requires IsNoise(id, call.complete, s.answer.frame.message)
    ensures var (listing, unread) := Collect(id, call.complete, [], rest, end);
            OneCall(call, id, ServedOne(s) + rest, end) == (OfList(listing), unread)
  {
    var f, own := s.strays[0], s.answer.frame;
    assert f in s.strays && s.strays[1..] == [];
    StraysFirst(s, rest);
    assert "" + Stream([own]) == Stream([own]);
    ReadFrame(f, Stream([own]) + rest, end);
    ReadFrame(own, rest, end);
    NoiseExactly(id, call.complete, own.message);
  }

  /**
   * What the call returns then is up to whatever follows: the items of some later list that is
   * completed by a message of ours or by an unidentified one, or the failure of the last read.
   */
  lemma SuccessAheadOfRejection(call: Call, id: string, s: Served, rest: string, end: StreamEnd)
    requires Serves(id, call, s) && s.answer.Reject? && |s.strays| == 1 && Success(s.strays[0].message)
    requires IsNoise(id, call.complete, s.answer.frame.message)
    ensures var (ms, last) := DecodeAll(rest, end);
            var k := FirstCompletion(id, call.complete, ms);
            OneCall(call, id, ServedOne(s) + rest, end).0 ==
            OfList(if k < |ms| then Items(ItemsIn(id, call.complete, ms[..k])) else ListFailed(ReadFailed(last)))
  {
    RejectionHidden(call, id, s, rest, end);
    CollectByMessages(id, call.complete, [], rest, end);
    var ms := DecodeAll(rest, end).0;
    var k := FirstCompletion(id, call.complete, ms);
    assert [] + ItemsIn(id, call.complete, ms[..k]) == ItemsIn(id, call.complete, ms[..k]);
  }
}
