/**
 * What may come right behind what in the log of a run: where reconnects are announced, attempts
 * are made, connections opened and closed, and waits begun.
 */
module StreamOrders {
  import opened Messages
  import opened EventStreams

  /** `b` may come right behind `a`. */
  predicate Follows(hooks: Hooks, a: Obs, b: Obs) {
    match b
    case Attempted => if hooks.onReconnect then a == Reconnect else a.Wait?
    case Reconnect => hooks.onReconnect && a.Wait?
    case Opened => a == Attempted
    case Up(up) => hooks.onUp && if up then a == Opened else a == Up(true) || a.Handled?
    case Handled(_) => a.Handled? || a == if hooks.onUp then Up(true) else Opened
    case Released => a == Opened || if hooks.onUp then a == Up(false) else a.Handled?
    case Wait(_) => a == Attempted || a == Released
  }

  ghost predicate Adjacent(hooks: Hooks, log: Log) {
    forall k :: 0 < k < |log| ==> Follows(hooks, log[k - 1], log[k])
  }

  lemma AdjacentJoin(hooks: Hooks, a: Log, b: Log)
    requires Adjacent(hooks, a) && Adjacent(hooks, b)
    requires a != [] && b != [] ==> Follows(hooks, a[|a| - 1], b[0])
    ensures Adjacent(hooks, a + b)
  {
    var log := a + b;
    forall k | 0 < k < |log| ensures Follows(hooks, log[k - 1], log[k]) {
      if k > |a| {
        assert log[k - 1] == b[k - 1 - |a|] && log[k] == b[k - |a|];
      }
    }
  }

  lemma {:induction false} DispatchedAdjacent(hooks: Hooks, ms: seq<Fields>)
    ensures Adjacent(hooks, Dispatched(ms)) && forall o :: o in Dispatched(ms) ==> o.Handled?
  {
    if ms != [] {
      DispatchedAdjacent(hooks, ms[1..]);
      var own := if IsEvent(ms[0]) then [Handled(ms[0])] else [];
      assert Dispatched(ms[1..]) != [] ==> Dispatched(ms[1..])[0] in Dispatched(ms[1..]);
      AdjacentJoin(hooks, own, Dispatched(ms[1..]));
    }
  }

  lemma LastHandled(ms: seq<Fields>)
    ensures Dispatched(ms) != [] ==> Dispatched(ms)[0].Handled? && Dispatched(ms)[|Dispatched(ms)| - 1].Handled?
  {
    DispatchedAdjacent(Hooks(true, true), ms);
    if Dispatched(ms) != [] {
      assert Dispatched(ms)[0] in Dispatched(ms) && Dispatched(ms)[|Dispatched(ms)| - 1] in Dispatched(ms);
    }
  }

  lemma ServeAdjacent(hooks: Hooks, ms: seq<Fields>)
    ensures Adjacent(hooks, [Opened] + ServeLog(hooks, ms) + [Released])
  {
    var ds := Dispatched(ms);
    DispatchedAdjacent(hooks, ms);
    LastHandled(ms);
    if hooks.onUp {
      AdjacentJoin(hooks, [Up(true)], ds);
      AdjacentJoin(hooks, [Up(true)] + ds, [Up(false)]);
    } else {
      assert ServeLog(hooks, ms) == ds;
    }
    AdjacentJoin(hooks, [Opened], ServeLog(hooks, ms));
    AdjacentJoin(hooks, [Opened] + ServeLog(hooks, ms), [Released]);
  }

  lemma OnceAdjacent(hooks: Hooks, a: Outcome)
    ensures var log := OnceLog(hooks, a);
            Adjacent(hooks, log) && (log != [] ==> log[0] == Opened && log[|log| - 1] == Released)
  {
    if a.Carries? {
      ServeAdjacent(hooks, a.messages);
    }
  }

  /** What a turn of the loop starts with. */
  function Start(hooks: Hooks, first: bool): Obs {
    if !first && hooks.onReconnect then Reconnect else Attempted
  }

  lemma HeadAdjacent(hooks: Hooks, first: bool, a: Outcome)
    ensures var log := RoundHead(hooks, first, a);
            && Adjacent(hooks, log) && log[0] == Start(hooks, first)
            && (log[|log| - 1] == Attempted || log[|log| - 1] == Released)
  {
    OnceAdjacent(hooks, a);
    var front := Notice(hooks, first) + [Attempted];
    AdjacentJoin(hooks, Notice(hooks, first), [Attempted]);
    AdjacentJoin(hooks, front, OnceLog(hooks, a));
  }

  /** The log is in order, starts as a turn does, and does not end with a notice. */
  ghost predicate OrderlyRun(hooks: Hooks, first: bool, log: Log) {
    Adjacent(hooks, log) && (log != [] ==> log[0] == Start(hooks, first) && log[|log| - 1] != Reconnect)
  }

  /** A head of a turn, alone or with its wait and an orderly run behind it. */
  lemma TurnAdjacent(hooks: Hooks, first: bool, a: Outcome, backoff: int, later: Log)
    requires OrderlyRun(hooks, false, later)
    ensures OrderlyRun(hooks, first, RoundHead(hooks, first, a))
    ensures OrderlyRun(hooks, first, RoundHead(hooks, first, a) + ([Wait(backoff)] + later))
  {
    var head, rest := RoundHead(hooks, first, a), [Wait(backoff)] + later;
    HeadAdjacent(hooks, first, a);
    AdjacentJoin(hooks, [Wait(backoff)], later);
    assert rest[0] == Wait(backoff);
    AdjacentJoin(hooks, head, rest);
    var log := head + rest;
    assert log[0] == head[0] && log[|log| - 1] == rest[|rest| - 1];
  }

  lemma {:induction false} RunAdjacent(hooks: Hooks, max: int, first: bool, backoff: int, script: seq<Round<Outcome>>)
    ensures OrderlyRun(hooks, first, RunLog(hooks, max, first, backoff, script))
    decreases |script|
  {
    if script != [] && !script[0].cancelledBefore {
      RunAdjacent(hooks, max, false, NextBackoff(backoff, max), script[1..]);
      var head := RoundHead(hooks, first, script[0].attempt);
      TurnAdjacent(hooks, first, script[0].attempt, backoff, Later(hooks, max, backoff, script));
      assert head + [] == head;
    }
  }

  /**
   * In the log of every run: it starts with an attempt; given the hook, each later attempt comes
   * right behind a reconnect notice and each notice right behind a wait and right before an
   * attempt; without it there are no notices, and each later attempt comes right behind a wait.
   */
  lemma ReconnectsAnnounceAttempts(hooks: Hooks, max: int, backoff: int, script: seq<Round<Outcome>>, k: nat)
    requires k < |RunLog(hooks, max, true, backoff, script)|
    ensures var log := RunLog(hooks, max, true, backoff, script);
            && log[0] == Attempted
            && (k > 0 && log[k] == Attempted ==> if hooks.onReconnect then log[k - 1] == Reconnect else log[k - 1].Wait?)
            && (log[k] == Reconnect ==>
                  hooks.onReconnect && 0 < k < |log| - 1 && log[k - 1].Wait? && log[k + 1] == Attempted)
  {
    var log := RunLog(hooks, max, true, backoff, script);
    RunAdjacent(hooks, max, true, backoff, script);
    assert k > 0 ==> Follows(hooks, log[k - 1], log[k]);
    assert k < |log| - 1 ==> Follows(hooks, log[k], log[k + 1]);
  }

  /**
   * Likewise: a connection opens right behind its attempt, is up right behind its opening, is down
   * right behind its last event, and closed right behind that; a wait begins right behind a failed
   * attempt or a close.
   */
  lemma ConnectionsInOrder(hooks: Hooks, max: int, backoff: int, script: seq<Round<Outcome>>, k: nat)
    requires 0 < k < |RunLog(hooks, max, true, backoff, script)|
    ensures var log := RunLog(hooks, max, true, backoff, script);
            && (log[k] == Opened ==> log[k - 1] == Attempted)
            && (log[k] == Up(true) ==> log[k - 1] == Opened)
            && (log[k] == Up(false) ==> log[k - 1] == Up(true) || log[k - 1].Handled?)
            && (log[k] == Released ==> log[k - 1] == Opened || (if hooks.onUp then log[k - 1] == Up(false) else log[k - 1].Handled?))
            && (log[k].Wait? ==> log[k - 1] == Attempted || log[k - 1] == Released)
  {
    var log := RunLog(hooks, max, true, backoff, script);
    RunAdjacent(hooks, max, true, backoff, script);
    assert Follows(hooks, log[k - 1], log[k]);
  }

  /** Of the messages a connection carries, exactly those with a value for Event are handed over. */
  lemma {:induction false} EventsInExactly(ms: seq<Fields>, m: Fields)
    ensures multiset(EventsIn(ms))[m] == if Lookup(m, "Event") != "" then multiset(ms)[m] else 0
  {
    if ms != [] {
      assert ms == [ms[0]] + ms[1..];
      EventsInExactly(ms[1..], m);
    }
  }

  lemma TurnCounts(hooks: Hooks, max: int, first: bool, backoff: int, script: seq<Round<Outcome>>)
    requires script != [] && !script[0].cancelledBefore
    ensures var log, later := RunLog(hooks, max, first, backoff, script), Later(hooks, max, backoff, script);
            if script[0].cancelledAfter then Attempts(log) == 1 && Waits(log) == []
            else Attempts(log) == 1 + Attempts(later) && |Waits(log)| == 1 + |Waits(later)|
  {
    HeadCounts(hooks, first, script[0].attempt);
    CountsSplit(RoundHead(hooks, first, script[0].attempt), Rest(hooks, max, backoff, script));
    WaitCounts(backoff, Later(hooks, max, backoff, script));
  }

  /**
   * Cancellation ends a run where it strikes: with `i` the first round of the script that finds the
   * context cancelled, there are no attempts behind it, none in it if it was cancelled before its
   * attempt, and no wait in it unless it was cancelled in the wait.
   */
  lemma {:induction false} CancellationStops(hooks: Hooks, max: int, first: bool, backoff: int,
                                             script: seq<Round<Outcome>>, i: nat)
    requires i <= |script| && forall j :: 0 <= j < i ==> !script[j].Cancelled()
    requires i < |script| ==> script[i].Cancelled()
    ensures var log := RunLog(hooks, max, first, backoff, script);
            && Attempts(log) == (if i < |script| && !script[i].cancelledBefore then i + 1 else i)
            && |Waits(log)| ==
               if i < |script| && !script[i].cancelledBefore && !script[i].cancelledAfter then i + 1 else i
    decreases |script|
  {
    if script != [] && !script[0].cancelledBefore {
      TurnCounts(hooks, max, first, backoff, script);
      if i > 0 {
        CancellationStops(hooks, max, false, NextBackoff(backoff, max), script[1..], i - 1);
      }
    }
  }
}
