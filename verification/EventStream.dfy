/**
 * The persistent event stream: connect, log in, hand every event to the handler, and connect
 * again after a wait that doubles up to a bound. What the environment does in a run (how each
 * dial goes, the bytes each connection carries, when the run is cancelled) is a script, one
 * round per turn of the loop; a run that outlives its script is a run still going on.
 */
module EventStreams {
  import opened Text
  import opened Messages
  import opened Codec
  import opened Clients

  /**
   * A dial: it fails, or it opens a connection that carries these bytes and takes the login
   * request in whole or not.
   */
  datatype Attempt = DialFails | Dials(input: string, end: StreamEnd, takesLogin: bool)

  /** What comes of a dial: no connection, one that refuses the login, or messages. */
  datatype Outcome = NoConnection | LoginRefused | Carries(messages: seq<Fields>)

  /** The login on a fresh connection succeeds. */
  predicate Accepted(a: Attempt)
    requires a.Dials?
  {
    a.takesLogin && LoginOf(IdOf(1), a.input, a.end).0.LoggedIn?
  }

  /** The bytes the login leaves unread. */
  function BehindLogin(a: Attempt): string
    requires a.Dials?
  {
    LoginOf(IdOf(1), a.input, a.end).1
  }

  function OutcomeOf(a: Attempt): Outcome {
    if a.DialFails? then NoConnection
    else if Accepted(a) then Carries(DecodeAll(BehindLogin(a), a.end).0)
    else LoginRefused
  }

  /** One turn of the loop, with the moments at which the context is found cancelled. */
  datatype Round<+T> = Round(cancelledBefore: bool, attempt: T, cancelledAfter: bool, cancelledInWait: bool) {
    predicate Cancelled() { cancelledBefore || cancelledAfter || cancelledInWait }
  }

  function RoundOf(r: Round<Attempt>): Round<Outcome> {
    Round(r.cancelledBefore, OutcomeOf(r.attempt), r.cancelledAfter, r.cancelledInWait)
  }

  /** Some round of the script finds the context cancelled. */
  predicate Cancels(script: seq<Round<Attempt>>) {
    script != [] && (script[0].Cancelled() || Cancels(script[1..]))
  }

  /** A script in terms of what comes of its dials. */
  function ScriptOf(script: seq<Round<Attempt>>): (r: seq<Round<Outcome>>)
    ensures |r| == |script|
  {
    if script == [] then [] else [RoundOf(script[0])] + ScriptOf(script[1..])
  }

  /** Which of the two optional hooks are set. */
  datatype Hooks = Hooks(onUp: bool, onReconnect: bool)

  /** What can be observed of a run. `Wait` is the wait the loop sets out to make. */
  datatype Obs =
    | Reconnect
    | Attempted
    | Opened
    | Up(up: bool)
    | Handled(message: Fields)
    | Released
    | Wait(duration: int)

  type Log = seq<Obs>

  // ---------------------------------------------------------------- the wait

  /** Durations are in nanoseconds. */
  const SECOND := 1_000_000_000

  const MAX_INT64: int := 0x7fff_ffff_ffff_ffff

  predicate IsInt64(d: int) { -MAX_INT64 - 1 <= d <= MAX_INT64 }

  /** Doubling a signed 64-bit duration. */
  function Double(d: int): int {
    (2 * d + MAX_INT64 + 1) % UINT64_LIMIT - MAX_INT64 - 1
  }

  function NextBackoff(d: int, max: int): int {
    if Double(d) > max then max else Double(d)
  }

  function NthBackoff(base: int, max: int, n: nat): int {
    if n == 0 then base else NextBackoff(NthBackoff(base, max, n - 1), max)
  }

  function Pow2(n: nat): nat {
    if n == 0 then 1 else 2 * Pow2(n - 1)
  }

  /** The base doubled `n` times, without a bound. */
  function Doubled(base: nat, n: nat): nat {
    if n == 0 then base else 2 * Doubled(base, n - 1)
  }

  lemma {:induction false} DoubledIs(base: nat, n: nat)
    ensures Doubled(base, n) == base * Pow2(n)
  {
    if n > 0 {
      DoubledIs(base, n - 1);
      assert base * (2 * Pow2(n - 1)) == 2 * (base * Pow2(n - 1));
    }
  }

  lemma {:induction false} DoubledGrows(base: nat, n: nat)
    requires base > 0
    ensures Doubled(base, n) > n && Doubled(base, n) >= base
  {
    if n > 0 {
      DoubledGrows(base, n - 1);
    }
  }

  function Min(a: int, b: int): int { if a < b then a else b }

  lemma DoubleExact(d: int)
    requires IsInt64(d)
    ensures IsInt64(Double(d))
    ensures IsInt64(2 * d) ==> Double(d) == 2 * d
    ensures 2 * d > MAX_INT64 ==> Double(d) < 0
  {
    if 2 * d > MAX_INT64 {
      assert 2 * d + MAX_INT64 + 1 == UINT64_LIMIT + (2 * d - MAX_INT64 - 1);
    }
  }

  lemma {:induction false} BackoffIs(base: int, max: int, n: nat)
    requires 0 < base <= max && 2 * max <= MAX_INT64
    ensures NthBackoff(base, max, n) == Min(Doubled(base, n), max)
  {
    if n > 0 {
      BackoffIs(base, max, n - 1);
      DoubledGrows(base, n - 1);
      DoubleExact(NthBackoff(base, max, n - 1));
    }
  }

  /** A bound that is reached and cannot be doubled is followed by a negative wait. */
  lemma BackoffOverflows(base: int, max: int)
    requires 0 < base <= max && IsInt64(max) && 2 * max > MAX_INT64
    ensures exists n: nat :: NthBackoff(base, max, n) != Min(Doubled(base, n), max)
  {
    var k: nat := max;
    DoubledGrows(base, k);
    DoubledGrows(base, k + 1);
    if NthBackoff(base, max, k) == max {
      DoubleExact(max);
      assert NthBackoff(base, max, k + 1) < 0;
    }
  }

  /**
   * For a positive base the n-th wait is min(base * 2^n, max) for every n exactly when the base
   * does not exceed the bound and twice the bound fits in 64 bits. (The first wait is never
   * capped, and a bound that cannot be doubled makes a later wait negative.)
   */
  lemma BackoffClosedForm(base: int, max: int)
    requires 0 < base && IsInt64(base) && IsInt64(max)
    ensures (forall n: nat :: NthBackoff(base, max, n) == Min(base * Pow2(n), max)) <==> base <= max && 2 * max <= 9223372036854775807
  {
    forall n: nat ensures Doubled(base, n) == base * Pow2(n) {
      DoubledIs(base, n);
    }
    if base > max {
      assert NthBackoff(base, max, 0) != Min(Doubled(base, 0), max);
    } else if 2 * max > MAX_INT64 {
      BackoffOverflows(base, max);
    } else {
      forall n: nat ensures NthBackoff(base, max, n) == Min(Doubled(base, n), max) {
        BackoffIs(base, max, n);
      }
    }
  }

  /** The waits never shrink and never exceed the bound. */
  lemma BackoffMonotone(base: int, max: int, n: nat)
    requires 0 < base <= max && 2 * max <= MAX_INT64
    ensures base <= NthBackoff(base, max, n) <= NthBackoff(base, max, n + 1) <= max
  {
    BackoffIs(base, max, n);
    BackoffIs(base, max, n + 1);
    DoubledGrows(base, n);
  }

  // ---------------------------------------------------------------- what a run does

  predicate IsEvent(m: Fields) {
    Lookup(m, "Event") != ""
  }

  /** The observations of the events among some messages. */
  function Dispatched(ms: seq<Fields>): Log {
    if ms == [] then []
    else (if IsEvent(ms[0]) then [Handled(ms[0])] else []) + Dispatched(ms[1..])
  }

  function Carried(o: Outcome): seq<Fields> {
    if o.Carries? then o.messages else []
  }

  function OnUp(hooks: Hooks, up: bool): Log {
    if hooks.onUp then [Up(up)] else []
  }

  function OnceLog(hooks: Hooks, o: Outcome): Log {
    match o
    case NoConnection => []
    case LoginRefused => OnceLogOpen(hooks, o) + [Released]
    case Carries(_) => OnceLogOpen(hooks, o) + [Released]
  }

  /** The log of an opened connection up to its close. */
  function OnceLogOpen(hooks: Hooks, o: Outcome): Log {
    [Opened] + if o.Carries? then ServeLog(hooks, o.messages) else []
  }

  function ServeLog(hooks: Hooks, ms: seq<Fields>): Log {
    OnUp(hooks, true) + Dispatched(ms) + OnUp(hooks, false)
  }

  /** A turn of the loop up to its wait. */
  function RoundHead(hooks: Hooks, first: bool, a: Outcome): Log {
    Notice(hooks, first) + [Attempted] + OnceLog(hooks, a)
  }

  function Notice(hooks: Hooks, first: bool): Log {
    if !first && hooks.onReconnect then [Reconnect] else []
  }

  function RunLog(hooks: Hooks, max: int, first: bool, backoff: int, script: seq<Round<Outcome>>): Log
    decreases |script|, 2
  {
    if script == [] || script[0].cancelledBefore then []
    else
      RoundHead(hooks, first, script[0].attempt) + Rest(hooks, max, backoff, script)
  }

  /** A run behind the head of its first round. */
  function Rest(hooks: Hooks, max: int, backoff: int, script: seq<Round<Outcome>>): Log
    requires script != []
    decreases |script|, 1
  {
    if script[0].cancelledAfter then [] else [Wait(backoff)] + Later(hooks, max, backoff, script)
  }

  /** A run behind its first wait. */
  function Later(hooks: Hooks, max: int, backoff: int, script: seq<Round<Outcome>>): Log
    requires script != []
    decreases |script|, 0
  {
    if script[0].cancelledInWait then [] else RunLog(hooks, max, false, NextBackoff(backoff, max), script[1..])
  }

  /** Behind the wait of an uncancelled turn, the run is the turn, the wait and what comes later. */
  lemma TurnEnds(hooks: Hooks, max: int, first: bool, backoff: int, turn: Round<Outcome>, later: seq<Round<Outcome>>, start: Log)
    requires !turn.cancelledBefore && !turn.cancelledAfter
    ensures start + RunLog(hooks, max, first, backoff, [turn] + later) ==
            start + RoundHead(hooks, first, turn.attempt) + [Wait(backoff)] +
            if turn.cancelledInWait then [] else RunLog(hooks, max, false, NextBackoff(backoff, max), later)
  {
    var script := [turn] + later;
    assert script[0] == turn && script[1..] == later;
    var head, rest := RoundHead(hooks, first, turn.attempt), Later(hooks, max, backoff, script);
    Assoc(start, head, [Wait(backoff)] + rest);
    Assoc(start + head, [Wait(backoff)], rest);
  }

  /** The rounds of a script that start before the run is cancelled. */
  function Played(script: seq<Round<Outcome>>): seq<Round<Outcome>> {
    if script == [] || script[0].cancelledBefore then []
    else [script[0]] + if script[0].cancelledAfter || script[0].cancelledInWait then [] else Played(script[1..])
  }

  // ---------------------------------------------------------------- the stream object

  class EventStream {
    const config: Config
    const hooks: Hooks
    /** The bounds of the wait, which a caller may set before the run. */
    var baseBackoff: int
    var maxBackoff: int
    var log: Log

    constructor (config: Config, hooks: Hooks)
      ensures log == [] && this.hooks == hooks && baseBackoff == 1_000_000_000 && maxBackoff == 30_000_000_000
      ensures this.config == if config.eventClasses == "" then config.(eventClasses := "call,reporting") else config
    {
      this.config := if config.eventClasses == "" then config.(eventClasses := "call,reporting") else config;
      this.hooks, baseBackoff, maxBackoff := hooks, SECOND, 30 * SECOND;
      log := [];
    }

    /** Runs until cancelled or until the script ends. */
    method Run(script: seq<Round<Attempt>>) returns (cancelled: bool)
      modifies this`log
      ensures log == old(log) + RunLog(hooks, maxBackoff, true, baseBackoff, ScriptOf(script))
      ensures cancelled <==> Cancels(script)
    {
      var backoff := baseBackoff;
      var first := true;
      var left := script;
      ghost var all := old(log) + RunLog(hooks, maxBackoff, true, baseBackoff, ScriptOf(script));
      while left != []
        invariant all == log + RunLog(hooks, maxBackoff, first, backoff, ScriptOf(left))
        invariant Cancels(script) <==> Cancels(left)
        decreases |left|
      {
        var r := left[0];
        ghost var turn, later := RoundOf(r), ScriptOf(left[1..]);
        assert ScriptOf(left)[0] == turn && ScriptOf(left)[1..] == later;
        if r.cancelledBefore {
          assert log + [] == log;
          return true;
        }
        ghost var start := log;
        assert start + [] == start;
        if !first && hooks.onReconnect {
          log := log + [Reconnect];
        }
        assert log == start + Notice(hooks, first);
        log := log + [Attempted];
        RunOnce(r.attempt);
        Assoc(start, Notice(hooks, first), [Attempted]);
        Assoc(start, Notice(hooks, first) + [Attempted], OnceLog(hooks, turn.attempt));
        assert log == start + RoundHead(hooks, first, turn.attempt);
        if r.cancelledAfter {
          assert RoundHead(hooks, first, turn.attempt) + [] == RoundHead(hooks, first, turn.attempt);
          return true;
        }
        log := log + [Wait(backoff)];
        TurnEnds(hooks, maxBackoff, first, backoff, turn, later, start);
        if r.cancelledInWait {
          return true;
        }
        first := false;
        backoff := Double(backoff);
        if backoff > maxBackoff {
          backoff := maxBackoff;
        }
        left := left[1..];
      }
      assert log + [] == log;
      return false;
    }

    /** One connection, from dial to close. */
    method RunOnce(a: Attempt)
      modifies this`log
      ensures log == old(log) + OnceLog(hooks, OutcomeOf(a))
    {
      if a.DialFails? {
        return;
      }
      ghost var before := log;
      var client := Dial(a);
      log := log + [Opened];
      var loggedIn := LogIn(client, a);
      if loggedIn {
        Serve(client);
        Assoc(before, [Opened], ServeLog(hooks, OutcomeOf(a).messages));
      }
      Assoc(before, OnceLogOpen(hooks, OutcomeOf(a)), [Released]);
      log := log + [Released];
    }

    /** A logged-in connection, with its notifications. */
    method Serve(client: Client)
      requires client.Valid() && client.open
      modifies this`log, client.reader
      ensures log == old(log) + ServeLog(hooks, DecodeAll(old(client.reader.Unread()), client.reader.end).0)
    {
      ghost var before, ds := log, Dispatched(DecodeAll(client.reader.Unread(), client.reader.end).0);
      assert before + [] == before;
      if hooks.onUp {
        log := log + [Up(true)];
      }
      Consume(client);
      Assoc(before, OnUp(hooks, true), ds);
      Assoc(before, OnUp(hooks, true) + ds, OnUp(hooks, false));
      assert log + [] == log;
      if hooks.onUp {
        log := log + [Up(false)];
      }
    }

    /** The peer takes the login request of a fresh client in whole. */
    ghost predicate TakesLogin(client: Client)
      reads client
    {
      client.open && client.takes(client.writes) >= |RequestOf(Single(LoginRequest(client.config)), client.actions)|
    }

    method Dial(a: Attempt) returns (client: Client)
      requires a.Dials?
      ensures fresh(client) && fresh(client.reader) && client.Valid() && client.open && client.actions == 0
      ensures client.reader.Unread() == a.input && client.reader.end == a.end && TakesLogin(client) == a.takesLogin
    {
      var reader := new Reader(a.input, a.end);
      var room := if a.takesLogin then |RequestOf(Single(LoginRequest(config)), 0)| else 0;
      client := new Client(config, reader, n => room);
    }

    method LogIn(client: Client, ghost a: Attempt) returns (loggedIn: bool)
      requires a.Dials? && client.Valid() && client.open && client.actions == 0
      requires client.reader.Unread() == a.input && client.reader.end == a.end && TakesLogin(client) == a.takesLogin
      modifies client, client.reader
      ensures client.Valid() && client.open
      ensures loggedIn <==> Accepted(a)
      ensures loggedIn ==> client.reader.Unread() == BehindLogin(a)
    {
      assert IdOf(client.actions + 1) == IdOf(1);
      var login := client.Login();
      loggedIn := login.LoggedIn?;
      assert a.takesLogin ==> (login, client.reader.Unread()) == LoginOf(IdOf(1), a.input, a.end);
    }

    /** Hands events to the handler until a read fails. */
    method Consume(client: Client)
      requires client.Valid() && client.open
      modifies this`log, client.reader
      ensures log == old(log) + Dispatched(DecodeAll(old(client.reader.Unread()), client.reader.end).0)
    {
      ghost var all := log + Dispatched(client.Pending());
      while true
        invariant client.Valid() && client.open
        invariant log + Dispatched(client.Pending()) == all
        decreases |client.reader.Unread()|
      {
        ghost var before := client.Pending();
        var msg, failure := NextEvent(client);
        if failure.Some? {
          assert log + [] == log;
          return;
        }
        ghost var ds := Dispatched(client.Pending());
        if Lookup(msg, "Event") == "" {
          assert [] + ds == ds;
          continue;
        }
        Assoc(log, [Handled(msg)], ds);
        log := log + [Handled(msg)];
      }
    }

    method NextEvent(client: Client) returns (msg: Fields, failure: Option<Error>)
      requires client.Valid() && client.open
      modifies client.reader
      ensures client.Valid()
      ensures failure.Some? ==> old(client.Pending()) == []
      ensures failure.None? ==> old(client.Pending()) == [msg] + client.Pending()
      ensures failure.None? ==> |client.reader.Unread()| < |old(client.reader.Unread())|
    {
      msg, failure := client.ReadOne();
    }
  }

  // ---------------------------------------------------------------- the lifecycle

  datatype Phase = Idle | Connected | Consuming | Leaving | Wrong

  /**
   * The order in which observations may come, one connection at a time. Where notifications are
   * made, events come between them; otherwise anywhere on the connection.
   */
  function Next(notified: bool, p: Phase, o: Obs): Phase {
    match o
    case Reconnect => if p.Idle? then Idle else Wrong
    case Attempted => if p.Idle? then Idle else Wrong
    case Wait(_) => if p.Idle? then Idle else Wrong
    case Opened => if p.Idle? then Connected else Wrong
    case Up(up) =>
      if !notified then Wrong
      else if up then (if p.Connected? then Consuming else Wrong)
      else (if p.Consuming? then Leaving else Wrong)
    case Handled(_) => if p == Delivering(notified) then p else Wrong
    case Released => if p.Connected? || p.Leaving? then Idle else Wrong
  }

  /** The phase in which events are handed over. */
  function Delivering(notified: bool): Phase {
    if notified then Consuming else Connected
  }

  function PhaseAfter(notified: bool, p: Phase, log: Log): Phase
    decreases |log|
  {
    if log == [] then p else PhaseAfter(notified, Next(notified, p, log[0]), log[1..])
  }

  lemma {:induction false} PhaseSplit(notified: bool, p: Phase, a: Log, b: Log)
    ensures PhaseAfter(notified, p, a + b) == PhaseAfter(notified, PhaseAfter(notified, p, a), b)
    decreases |a|
  {
    if a == [] {
      assert a + b == b;
    } else {
      assert (a + b)[0] == a[0] && (a + b)[1..] == a[1..] + b;
      PhaseSplit(notified, Next(notified, p, a[0]), a[1..], b);
    }
  }

  lemma {:induction false} DispatchedPhase(notified: bool, ms: seq<Fields>)
    ensures PhaseAfter(notified, Delivering(notified), Dispatched(ms)) == Delivering(notified)
  {
    if ms != [] {
      DispatchedPhase(notified, ms[1..]);
      var own := if IsEvent(ms[0]) then [Handled(ms[0])] else [];
      PhaseSplit(notified, Delivering(notified), own, Dispatched(ms[1..]));
      PhaseOne(notified, Delivering(notified), Handled(ms[0]));
    }
  }

  lemma PhaseOne(notified: bool, p: Phase, o: Obs)
    ensures PhaseAfter(notified, p, [o]) == Next(notified, p, o)
  {
    assert [o][1..] == [];
  }

  lemma ServePhase(hooks: Hooks, ms: seq<Fields>)
    ensures PhaseAfter(hooks.onUp, Connected, ServeLog(hooks, ms)) == if hooks.onUp then Leaving else Connected
  {
    var n, ds := hooks.onUp, Dispatched(ms);
    DispatchedPhase(n, ms);
    if n {
      PhaseSplit(n, Connected, [Up(true)] + ds, [Up(false)]);
      PhaseSplit(n, Connected, [Up(true)], ds);
      PhaseOne(n, Connected, Up(true));
      PhaseOne(n, Consuming, Up(false));
    } else {
      assert ServeLog(hooks, ms) == ds;
    }
  }

  lemma OncePhase(hooks: Hooks, a: Outcome)
    ensures PhaseAfter(hooks.onUp, Idle, OnceLog(hooks, a)) == Idle
  {
    var n := hooks.onUp;
    if !a.NoConnection? {
      var body := if a.Carries? then ServeLog(hooks, a.messages) else [];
      PhaseOne(n, Idle, Opened);
      PhaseSplit(n, Idle, [Opened], body);
      if a.Carries? {
        ServePhase(hooks, a.messages);
      }
      PhaseSplit(n, Idle, OnceLogOpen(hooks, a), [Released]);
      PhaseOne(n, Connected, Released);
      PhaseOne(n, Leaving, Released);
    }
  }

  lemma HeadPhase(hooks: Hooks, first: bool, a: Outcome)
    ensures PhaseAfter(hooks.onUp, Idle, RoundHead(hooks, first, a)) == Idle
  {
    var n, notice := hooks.onUp, Notice(hooks, first);
    PhaseOne(n, Idle, Reconnect);
    PhaseSplit(n, Idle, notice, [Attempted]);
    PhaseOne(n, Idle, Attempted);
    PhaseSplit(n, Idle, notice + [Attempted], OnceLog(hooks, a));
    OncePhase(hooks, a);
  }

  /**
   * Every run keeps to the lifecycle and ends idle. Given the hook, up and down strictly
   * alternate starting with up and the handler is called only between an up and the next down;
   * with or without it, every connection that was opened is closed exactly once, before
   * anything else is attempted.
   */
  lemma {:induction false} LifecycleKept(hooks: Hooks, max: int, first: bool, backoff: int, script: seq<Round<Outcome>>)
    ensures PhaseAfter(hooks.onUp, Idle, RunLog(hooks, max, first, backoff, script)) == Idle
    decreases |script|
  {
    var n := hooks.onUp;
    if script != [] && !script[0].cancelledBefore {
      HeadPhase(hooks, first, script[0].attempt);
      LifecycleKept(hooks, max, false, NextBackoff(backoff, max), script[1..]);
      PhaseSplit(n, Idle, [Wait(backoff)], Later(hooks, max, backoff, script));
      PhaseOne(n, Idle, Wait(backoff));
      PhaseSplit(n, Idle, RoundHead(hooks, first, script[0].attempt), Rest(hooks, max, backoff, script));
    }
  }

  lemma {:induction false} BrokenStays(notified: bool, log: Log)
    ensures PhaseAfter(notified, Wrong, log) == Wrong
  {
    if log != [] {
      BrokenStays(notified, log[1..]);
    }
  }

  function Ups(log: Log): seq<bool> {
    if log == [] then [] else (if log[0].Up? then [log[0].up] else []) + Ups(log[1..])
  }

  function CountOpened(log: Log): nat {
    if log == [] then 0 else (if log[0].Opened? then 1 else 0) + CountOpened(log[1..])
  }

  function CountReleased(log: Log): nat {
    if log == [] then 0 else (if log[0].Released? then 1 else 0) + CountReleased(log[1..])
  }

  /** What keeping to the lifecycle means for the notifications, from any phase on. */
  lemma {:induction false} LifecycleMeans(notified: bool, p: Phase, log: Log)
    requires !p.Wrong? && !PhaseAfter(notified, p, log).Wrong?
    ensures var ups := Ups(log);
            && (forall i :: 0 <= i < |ups| ==> ups[i] == if p.Consuming? then i % 2 == 1 else i % 2 == 0)
            && (PhaseAfter(notified, p, log).Consuming? <==> (|ups| % 2 == 0 <==> p.Consuming?))
    ensures CountOpened(log) + (if p.Idle? then 0 else 1) == CountReleased(log) + if PhaseAfter(notified, p, log).Idle? then 0 else 1
    decreases |log|
  {
    if log != [] {
      var q := Next(notified, p, log[0]);
      BrokenStays(notified, log[1..]);
      LifecycleMeans(notified, q, log[1..]);
      var ups, later := Ups(log), Ups(log[1..]);
      if log[0].Up? {
        assert ups == [log[0].up] + later;
        assert forall i :: 0 < i < |ups| ==> ups[i] == later[i - 1];
      } else {
        assert ups == later;
      }
    }
  }

  lemma {:induction false} PhaseBroken(notified: bool, p: Phase, log: Log, k: nat)
    requires k <= |log| && !PhaseAfter(notified, p, log).Wrong?
    ensures !PhaseAfter(notified, p, log[..k]).Wrong?
    ensures k < |log| ==> !Next(notified, PhaseAfter(notified, p, log[..k]), log[k]).Wrong?
  {
    assert log == log[..k] + log[k..];
    PhaseSplit(notified, p, log[..k], log[k..]);
    BrokenStays(notified, log[k..]);
    if k < |log| {
      BrokenStays(notified, log[k..][1..]);
    }
  }

  /**
   * The first `k` observations: their notifications alternate starting with up, the stream is
   * up exactly while consuming, a message handled next finds it up, and the connections opened
   * but not closed are none or the one in use.
   */
  ghost predicate OrderlyAt(notified: bool, log: Log, k: nat)
    requires k <= |log|
  {
    var phase, ups := PhaseAfter(notified, Idle, log[..k]), Ups(log[..k]);
    && (forall i :: 0 <= i < |ups| ==> ups[i] == (i % 2 == 0))
    && (phase.Consuming? <==> |ups| % 2 == 1)
    && (k < |log| && log[k].Handled? ==> phase == Delivering(notified))
    && CountOpened(log[..k]) == CountReleased(log[..k]) + (if phase.Idle? then 0 else 1)
  }

  lemma LifecycleOrderly(notified: bool, log: Log, k: nat)
    requires !PhaseAfter(notified, Idle, log).Wrong? && k <= |log|
    ensures OrderlyAt(notified, log, k)
  {
    PhaseBroken(notified, Idle, log, k);
    LifecycleMeans(notified, Idle, log[..k]);
  }

  /** Every run is orderly at every moment, and at its end every opened connection has been closed once. */
  lemma RunOrderly(hooks: Hooks, max: int, backoff: int, script: seq<Round<Outcome>>)
    ensures var log := RunLog(hooks, max, true, backoff, script);
            && (forall k: nat :: k <= |log| ==> OrderlyAt(hooks.onUp, log, k))
            && CountOpened(log) == CountReleased(log)
  {
    var log := RunLog(hooks, max, true, backoff, script);
    LifecycleKept(hooks, max, true, backoff, script);
    forall k: nat | k <= |log| ensures OrderlyAt(hooks.onUp, log, k) {
      LifecycleOrderly(hooks.onUp, log, k);
    }
    LifecycleMeans(hooks.onUp, Idle, log);
  }

  // ---------------------------------------------------------------- what is handled, waited and counted

  function EventsIn(ms: seq<Fields>): seq<Fields> {
    if ms == [] then [] else (if IsEvent(ms[0]) then [ms[0]] else []) + EventsIn(ms[1..])
  }

  /** The events of all connections of some rounds, in order. */
  function EventsCarried(rounds: seq<Round<Outcome>>): seq<Fields> {
    if rounds == [] then [] else EventsIn(Carried(rounds[0].attempt)) + EventsCarried(rounds[1..])
  }

  function MessagesHandled(log: Log): seq<Fields> {
    if log == [] then []
    else if log[0].Handled? then [log[0].message] + MessagesHandled(log[1..])
    else MessagesHandled(log[1..])
  }

  lemma {:induction false} HandledSplit(a: Log, b: Log)
    ensures MessagesHandled(a + b) == MessagesHandled(a) + MessagesHandled(b)
    decreases |a|
  {
    if a == [] {
      assert a + b == b;
    } else {
      assert (a + b)[0] == a[0] && (a + b)[1..] == a[1..] + b;
      HandledSplit(a[1..], b);
    }
  }

  lemma HandledSilent(log: Log, o: Obs)
    requires !o.Handled?
    ensures MessagesHandled([o] + log) == MessagesHandled(log)
    ensures MessagesHandled(log + [o]) == MessagesHandled(log)
  {
    assert ([o] + log)[1..] == log && [o][1..] == [];
    HandledSplit(log, [o]);
  }

  lemma {:induction false} DispatchedHandled(ms: seq<Fields>)
    ensures MessagesHandled(Dispatched(ms)) == EventsIn(ms)
  {
    if ms != [] {
      DispatchedHandled(ms[1..]);
      var ds := Dispatched(ms[1..]);
      if IsEvent(ms[0]) {
        assert ([Handled(ms[0])] + ds)[1..] == ds;
      } else {
        assert [] + ds == ds;
      }
    }
  }

  lemma ServeHandled(hooks: Hooks, ms: seq<Fields>)
    ensures MessagesHandled(ServeLog(hooks, ms)) == EventsIn(ms)
  {
    var ds := Dispatched(ms);
    DispatchedHandled(ms);
    HandledSilent(ds, Up(true));
    assert [] + ds == ds;
    var front := OnUp(hooks, true) + ds;
    HandledSilent(front, Up(false));
    assert front + [] == front;
  }

  lemma HeadHandled(hooks: Hooks, first: bool, a: Outcome)
    ensures MessagesHandled(RoundHead(hooks, first, a)) == EventsIn(Carried(a))
  {
    var front := Notice(hooks, first) + [Attempted];
    HandledSilent([], Reconnect);
    HandledSilent(Notice(hooks, first), Attempted);
    assert MessagesHandled(front) == [];
    HandledSplit(front, OnceLog(hooks, a));
    HandledSilent([], Opened);
    HandledSilent(OnceLogOpen(hooks, a), Released);
    if a.Carries? {
      ServeHandled(hooks, a.messages);
      HandledSilent(ServeLog(hooks, a.messages), Opened);
    }
  }

  /** In every run the handler gets exactly the messages with a non-empty Event, connection by connection, in order. */
  lemma {:induction false} RunHandles(hooks: Hooks, max: int, first: bool, backoff: int, script: seq<Round<Outcome>>)
    ensures MessagesHandled(RunLog(hooks, max, first, backoff, script)) == EventsCarried(Played(script))
    decreases |script|
  {
    if script != [] && !script[0].cancelledBefore {
      var r := script[0];
      var later := Later(hooks, max, backoff, script);
      RunHandles(hooks, max, false, NextBackoff(backoff, max), script[1..]);
      HeadHandled(hooks, first, r.attempt);
      HandledSplit(RoundHead(hooks, first, r.attempt), Rest(hooks, max, backoff, script));
      HandledSilent(later, Wait(backoff));
    }
  }

  function Waits(log: Log): seq<int> {
    if log == [] then []
    else if log[0].Wait? then [log[0].duration] + Waits(log[1..])
    else Waits(log[1..])
  }

  function Attempts(log: Log): nat {
    if log == [] then 0 else (if log[0].Attempted? then 1 else 0) + Attempts(log[1..])
  }

  function Reconnects(log: Log): nat {
    if log == [] then 0 else (if log[0].Reconnect? then 1 else 0) + Reconnects(log[1..])
  }

  lemma {:induction false} CountsSplit(a: Log, b: Log)
    ensures Attempts(a + b) == Attempts(a) + Attempts(b)
    ensures Reconnects(a + b) == Reconnects(a) + Reconnects(b)
    ensures Waits(a) == [] ==> Waits(a + b) == Waits(b)
    decreases |a|
  {
    if a == [] {
      assert a + b == b;
    } else {
      assert (a + b)[0] == a[0] && (a + b)[1..] == a[1..] + b;
      CountsSplit(a[1..], b);
    }
  }

  /** Nothing in the log is a wait, an attempt or a reconnect notice. */
  ghost predicate Inner(log: Log) {
    forall o :: o in log ==> !o.Wait? && !o.Attempted? && !o.Reconnect?
  }

  lemma {:induction false} InnerCounts(log: Log)
    requires Inner(log)
    ensures Waits(log) == [] && Attempts(log) == 0 && Reconnects(log) == 0
  {
    if log != [] {
      InnerCounts(log[1..]);
    }
  }

  lemma {:induction false} DispatchedInner(ms: seq<Fields>)
    ensures Inner(Dispatched(ms))
  {
    if ms != [] {
      DispatchedInner(ms[1..]);
    }
  }

  lemma FrontCounts(hooks: Hooks, first: bool)
    ensures var log := Notice(hooks, first) + [Attempted];
            Waits(log) == [] && Attempts(log) == 1 && Reconnects(log) == |Notice(hooks, first)|
  {
    assert [Attempted][1..] == [] && [Reconnect][1..] == [];
    CountsSplit(Notice(hooks, first), [Attempted]);
  }

  lemma OnceInner(hooks: Hooks, a: Outcome)
    ensures Inner(OnceLog(hooks, a))
  {
    DispatchedInner(Carried(a));
  }

  lemma HeadCounts(hooks: Hooks, first: bool, a: Outcome)
    ensures var log := RoundHead(hooks, first, a);
            Waits(log) == [] && Attempts(log) == 1 && Reconnects(log) == |Notice(hooks, first)|
  {
    FrontCounts(hooks, first);
    OnceInner(hooks, a);
    InnerCounts(OnceLog(hooks, a));
    CountsSplit(Notice(hooks, first) + [Attempted], OnceLog(hooks, a));
  }

  lemma WaitCounts(backoff: int, later: Log)
    ensures var log := [Wait(backoff)] + later;
            Waits(log) == [backoff] + Waits(later) && Attempts(log) == Attempts(later) && Reconnects(log) == Reconnects(later)
  {
    assert ([Wait(backoff)] + later)[1..] == later;
  }

  function ReconnectsDue(hooks: Hooks, first: bool, attempts: nat): nat {
    if !hooks.onReconnect then 0 else if first && attempts > 0 then attempts - 1 else attempts
  }

  /**
   * In every run each round played is one attempt and, given the hook, every attempt but the
   * first is announced as a reconnect.
   */
  lemma {:induction false} RunReconnects(hooks: Hooks, max: int, first: bool, backoff: int, script: seq<Round<Outcome>>)
    ensures var log := RunLog(hooks, max, first, backoff, script);
            Attempts(log) == |Played(script)| && Reconnects(log) == ReconnectsDue(hooks, first, Attempts(log))
    decreases |script|
  {
    if script != [] && !script[0].cancelledBefore {
      RunReconnects(hooks, max, false, NextBackoff(backoff, max), script[1..]);
      HeadCounts(hooks, first, script[0].attempt);
      CountsSplit(RoundHead(hooks, first, script[0].attempt), Rest(hooks, max, backoff, script));
      WaitCounts(backoff, Later(hooks, max, backoff, script));
    }
  }

  /** The waits are the backoffs from the `n`-th on. */
  ghost predicate AreBackoffs(waits: seq<int>, base: int, max: int, n: nat) {
    forall i: nat :: i < |waits| ==> waits[i] == NthBackoff(base, max, n + i)
  }

  lemma BackoffsCons(d: int, waits: seq<int>, base: int, max: int, n: nat)
    requires d == NthBackoff(base, max, n) && AreBackoffs(waits, base, max, n + 1)
    ensures AreBackoffs([d] + waits, base, max, n)
  {
    forall i: nat | i < |[d] + waits| ensures ([d] + waits)[i] == NthBackoff(base, max, n + i) {
      if i > 0 {
        var j: nat := i - 1;
        assert waits[j] == NthBackoff(base, max, n + 1 + j);
      }
    }
  }

  /** The n-th wait of a run is the n-th backoff. */
  lemma {:induction false} RunWaits(hooks: Hooks, max: int, first: bool, base: int, n: nat, script: seq<Round<Outcome>>)
    ensures AreBackoffs(Waits(RunLog(hooks, max, first, NthBackoff(base, max, n), script)), base, max, n)
    decreases |script|
  {
    if script != [] && !script[0].cancelledBefore {
      var backoff := NthBackoff(base, max, n);
      RunWaits(hooks, max, false, base, n + 1, script[1..]);
      HeadCounts(hooks, first, script[0].attempt);
      CountsSplit(RoundHead(hooks, first, script[0].attempt), Rest(hooks, max, backoff, script));
      var later := Later(hooks, max, backoff, script);
      WaitCounts(backoff, later);
      BackoffsCons(backoff, Waits(later), base, max, n);
    }
  }

  /** From the configured bounds to the waits made: capped doubling, for every run. */
  lemma WaitsOfRun(hooks: Hooks, base: int, max: int, script: seq<Round<Outcome>>)
    requires 0 < base <= max && 2 * max <= MAX_INT64
    ensures var waits := Waits(RunLog(hooks, max, true, base, script));
            forall i :: 0 <= i < |waits| ==> waits[i] == Min(base * Pow2(i), max)
  {
    var waits := Waits(RunLog(hooks, max, true, base, script));
    assert NthBackoff(base, max, 0) == base;
    RunWaits(hooks, max, true, base, 0, script);
    assert AreBackoffs(waits, base, max, 0);
    forall i: nat | i < |waits| ensures waits[i] == Min(base * Pow2(i), max) {
      assert waits[i] == NthBackoff(base, max, 0 + i);
      BackoffIs(base, max, i);
      DoubledIs(base, i);
    }
  }
}
