/**
 * Closing connections under the race between the stream's loop and the watchdogs. Every
 * dialled connection has a watchdog that waits for cancellation and closes it; the loop closes
 * it on its way out of the connection. Both go through the connection's own once-guard. Closing
 * clears the client's reference to the connection, which the loop's operations first test and
 * then use. A run is any interleaving of the steps below.
 */
module Watchdogs {
  import opened Messages
  import EventStreams

  /** `closeDone` is the once-guard, and whether the reference is cleared; `closes` counts the closes made. */
  datatype Conn = Conn(closeDone: bool, closes: nat, watching: bool)

  /** The client operations of a connection's life: the two halves of the login, and reading events. */
  datatype Op = WriteLogin | ReadLogin | ReadEvent

  /** Where the loop is; a connection in use is named by its index. */
  datatype Place =
    | Between
    | At(op: Op, conn: nat)
    | Tested(op: Op, conn: nat)
    | Sending(conn: nat)
    | Waiting(op: Op, conn: nat)
    | Returning(conn: nat, wasUp: bool)
    | Crashed(conn: nat, wasUp: bool)
  {
    /** Events are being read. */
    predicate Listening() {
      (At? || Tested? || Waiting?) && op == ReadEvent
    }

    /** The reference has been tested and is about to be used. */
    predicate Using() {
      Tested? || Sending?
    }
  }

  datatype State = State(place: Place, conns: seq<Conn>, cancelled: bool, up: bool)

  datatype Action =
    | Cancel
    | DialFails
    | DialSucceeds
    | Test
    | Use
    | Fails
    | LoginSucceeds
    | Deliver(message: Fields)
    | LoopCloses
    | WatchdogCloses(conn: nat)

  const START := State(Between, [], false, false)

  function CloseOnce(c: Conn): Conn {
    if c.closeDone then c else Conn(true, c.closes + 1, c.watching)
  }

  predicate Cleared(s: State, conn: nat) {
    conn < |s.conns| && s.conns[conn].closeDone
  }

  /** An operation fails for reasons of its own only while the reference is there. */
  predicate Enabled(s: State, a: Action) {
    match a
    case Cancel => true
    case DialFails => s.place.Between?
    case DialSucceeds => s.place.Between?
    case Test => s.place.At?
    case Use => s.place.Using()
    case Fails => s.place.Waiting? || (s.place.Using() && !Cleared(s, s.place.conn))
    case LoginSucceeds => s.place.Waiting? && s.place.op == ReadLogin
    case Deliver(_) => s.place.Waiting? && s.place.op == ReadEvent
    case LoopCloses => s.place.Returning? && s.place.conn < |s.conns|
    case WatchdogCloses(i) => s.cancelled && i < |s.conns| && s.conns[i].watching
  }

  /** Leaving a connection lowers the gauge before it closes the connection, also when it crashes. */
  function Leave(s: State): State
    requires !s.place.Between?
  {
    s.(place := Returning(s.place.conn, s.place.Listening()), up := false)
  }

  function Crash(s: State): State
    requires !s.place.Between?
  {
    s.(place := Crashed(s.place.conn, s.place.Listening()), up := false)
  }

  /** Writing the login uses the reference twice, reading uses it once. */
  function AfterUse(p: Place): Place
    requires p.Using()
  {
    if p.Sending? then At(ReadLogin, p.conn)
    else if p.op == WriteLogin then Sending(p.conn)
    else Waiting(p.op, p.conn)
  }

  function Step(s: State, a: Action): State
    requires Enabled(s, a)
  {
    match a
    case Cancel => s.(cancelled := true)
    case DialFails => s
    case DialSucceeds => s.(place := At(WriteLogin, |s.conns|), conns := s.conns + [Conn(false, 0, true)])
    case Test => if Cleared(s, s.place.conn) then Leave(s) else s.(place := Tested(s.place.op, s.place.conn))
    case Use => if Cleared(s, s.place.conn) then Crash(s) else s.(place := AfterUse(s.place))
    case Fails => Leave(s)
    case LoginSucceeds => s.(place := At(ReadEvent, s.place.conn), up := true)
    case Deliver(_) => s.(place := At(ReadEvent, s.place.conn))
    case LoopCloses => s.(place := Between, conns := s.conns[s.place.conn := CloseOnce(s.conns[s.place.conn])])
    case WatchdogCloses(i) => s.(conns := s.conns[i := CloseOnce(s.conns[i]).(watching := false)])
  }

  /** The state after an interleaving, if every step of it can be taken. */
  function Exec(actions: seq<Action>): (r: (bool, State)) {
    if actions == [] then (true, START)
    else
      var (ok, s) := Exec(actions[..|actions| - 1]);
      var a := actions[|actions| - 1];
      if ok && Enabled(s, a) then (true, Step(s, a)) else (false, s)
  }

  lemma ExecSnoc(actions: seq<Action>, a: Action)
    ensures Exec(actions + [a]) ==
            var (ok, s) := Exec(actions);
            if ok && Enabled(s, a) then (true, Step(s, a)) else (false, s)
  {
    assert (actions + [a])[..|actions|] == actions;
  }

  // ---------------------------------------------------------------- closing

  ghost predicate Inv(s: State) {
    && (s.place.Between? || s.place.conn == |s.conns| - 1)
    && (s.up <==> s.place.Listening())
    && forall i :: 0 <= i < |s.conns| ==>
         var c := s.conns[i];
         && c.closes == (if c.closeDone then 1 else 0)
         && ((!s.place.Between? && i == s.place.conn) || c.closeDone)
         && (c.watching || (c.closeDone && s.cancelled))
         && (!s.place.Between? && i == s.place.conn && c.closeDone ==> s.cancelled)
  }

  lemma StepKeepsInv(s: State, a: Action)
    requires Inv(s) && Enabled(s, a)
    ensures Inv(Step(s, a))
  {
  }

  lemma {:induction false} InvAlways(actions: seq<Action>)
    requires Exec(actions).0
    ensures Inv(Exec(actions).1)
  {
    if actions != [] {
      var p := actions[..|actions| - 1];
      InvAlways(p);
      StepKeepsInv(Exec(p).1, actions[|actions| - 1]);
    }
  }

  /**
   * In every state of every interleaving: no connection is closed twice; with no connection in
   * use, every connection ever dialled has been closed exactly once; and once cancellation has
   * reached every watchdog, all have been, wherever the loop is. The gauge is up exactly while
   * events are read, so messages are delivered only while it is up.
   */
  lemma ClosedExactlyOnce(actions: seq<Action>)
    requires Exec(actions).0
    ensures var s := Exec(actions).1;
            && (forall c :: c in s.conns ==> c.closes <= 1)
            && (s.place.Between? ==> forall c :: c in s.conns ==> c.closes == 1)
            && ((forall c :: c in s.conns ==> !c.watching) ==> forall c :: c in s.conns ==> c.closes == 1)
            && (s.up <==> s.place.Listening())
            && (forall m :: Enabled(s, Deliver(m)) ==> s.up)
  {
    InvAlways(actions);
  }

  // ---------------------------------------------------------------- using a cleared reference

  /** The watchdog of `conn` has closed it since the loop last tested a reference. */
  ghost predicate ClosedSinceTest(actions: seq<Action>, conn: nat) {
    exists j :: 0 <= j < |actions| && actions[j] == WatchdogCloses(conn) &&
      forall k :: j < k < |actions| ==> actions[k] != Test
  }

  lemma ClosedSinceTestSnoc(actions: seq<Action>, a: Action, conn: nat)
    ensures ClosedSinceTest(actions + [a], conn) <==>
            a == WatchdogCloses(conn) || (a != Test && ClosedSinceTest(actions, conn))
  {
    var more := actions + [a];
    assert more[|actions|] == a;
    if j :| 0 <= j < |more| && more[j] == WatchdogCloses(conn) && forall k :: j < k < |more| ==> more[k] != Test {
      if j < |actions| {
        assert actions[j] == WatchdogCloses(conn);
        assert forall k :: j < k < |actions| ==> actions[k] == more[k];
      }
    }
    if a != Test && ClosedSinceTest(actions, conn) {
      var j :| 0 <= j < |actions| && actions[j] == WatchdogCloses(conn) &&
               forall k :: j < k < |actions| ==> actions[k] != Test;
      assert more[j] == WatchdogCloses(conn);
      assert forall k :: j < k < |more| ==> more[k] == if k < |actions| then actions[k] else a;
    }
  }

  lemma {:induction false} ClearedExactly(actions: seq<Action>)
    requires Exec(actions).0 && Exec(actions).1.place.Using()
    ensures var s := Exec(actions).1;
            Cleared(s, s.place.conn) <==> ClosedSinceTest(actions, s.place.conn)
  {
    if actions != [] {
      var p, a := actions[..|actions| - 1], actions[|actions| - 1];
      assert actions == p + [a];
      var s := Exec(p).1;
      InvAlways(p);
      ClosedSinceTestSnoc(p, a, Exec(actions).1.place.conn);
      if s.place.Using() {
        ClearedExactly(p);
      }
    }
  }

  /**
   * The loop uses a cleared reference, and crashes, exactly when the watchdog's close falls between
   * its test and the use; so only in a cancelled run.
   */
  lemma {:induction false} CrashesExactly(actions: seq<Action>)
    requires Exec(actions).0 && Enabled(Exec(actions).1, Use)
    ensures var s := Exec(actions).1;
            && (Step(s, Use).place.Crashed? <==> ClosedSinceTest(actions, s.place.conn))
            && (Step(s, Use).place.Crashed? ==> s.cancelled)
  {
    ClearedExactly(actions);
    InvAlways(actions);
  }

  /** No other step crashes. */
  lemma OnlyUseCrashes(s: State, a: Action)
    requires Enabled(s, a) && !s.place.Crashed? && Step(s, a).place.Crashed?
    ensures a == Use
  {
  }

  /** Every moment at which the loop is about to use a reference is open to it: cancellation and the watchdog suffice. */
  lemma CrashFromAnyUse(actions: seq<Action>)
    requires Exec(actions).0 && Exec(actions).1.place.Using()
    ensures var conn := Exec(actions).1.place.conn;
            && conn < |Exec(actions).1.conns|
            && (!Cleared(Exec(actions).1, conn) ==>
                  var run := actions + [Cancel] + [WatchdogCloses(conn)] + [Use];
                  Exec(run).0 && Exec(run).1.place.Crashed?)
  {
    var conn := Exec(actions).1.place.conn;
    InvAlways(actions);
    ExecSnoc(actions, Cancel);
    ExecSnoc(actions + [Cancel], WatchdogCloses(conn));
    ExecSnoc(actions + [Cancel] + [WatchdogCloses(conn)], Use);
  }

  /** There are such moments, the first right behind the dial. */
  lemma CrashReachable()
    ensures var run := [DialSucceeds, Test] + [Cancel] + [WatchdogCloses(0)] + [Use];
            Exec(run).0 && Exec(run).1.place.Crashed?
  {
    ExecSnoc([], DialSucceeds);
    ExecSnoc([DialSucceeds], Test);
    assert [] + [DialSucceeds] == [DialSucceeds] && [DialSucceeds] + [Test] == [DialSucceeds, Test];
    CrashFromAnyUse([DialSucceeds, Test]);
  }

  // ---------------------------------------------------------------- what can be observed

  /** What a step of the loop adds to the stream's log; the watchdogs add nothing. */
  function Observed(s: State, a: Action): EventStreams.Log
    requires Enabled(s, a)
  {
    match a
    case Cancel => []
    case DialFails => [EventStreams.Attempted]
    case DialSucceeds => [EventStreams.Attempted, EventStreams.Opened]
    case LoginSucceeds => [EventStreams.Up(true)]
    case Deliver(m) => if EventStreams.IsEvent(m) then [EventStreams.Handled(m)] else []
    case LoopCloses => [EventStreams.Released]
    case WatchdogCloses(_) => []
    case _ => if s.up && !Step(s, a).up then [EventStreams.Up(false)] else []
  }

  function LogOf(actions: seq<Action>): EventStreams.Log {
    if actions == [] then []
    else
      var (ok, s) := Exec(actions[..|actions| - 1]);
      var a := actions[|actions| - 1];
      LogOf(actions[..|actions| - 1]) + if ok && Enabled(s, a) then Observed(s, a) else []
  }

  function PhaseOf(p: Place): EventStreams.Phase {
    match p
    case Between => EventStreams.Idle
    case Returning(_, wasUp) => if wasUp then EventStreams.Leaving else EventStreams.Connected
    case Crashed(_, wasUp) => if wasUp then EventStreams.Leaving else EventStreams.Connected
    case _ => if p.Listening() then EventStreams.Consuming else EventStreams.Connected
  }

  lemma StepKeepsPhase(s: State, a: Action)
    requires Inv(s) && Enabled(s, a)
    ensures EventStreams.PhaseAfter(true, PhaseOf(s.place), Observed(s, a)) == PhaseOf(Step(s, a).place)
  {
    var log := Observed(s, a);
    if |log| == 1 {
      EventStreams.PhaseOne(true, PhaseOf(s.place), log[0]);
    } else if |log| == 2 {
      assert log[1..] == [EventStreams.Opened];
      EventStreams.PhaseOne(true, PhaseOf(s.place), EventStreams.Opened);
    }
  }

  /**
   * In every interleaving, with cancellation striking anywhere, what can be observed of the loop
   * keeps to the stream's lifecycle, and tells where the loop is.
   */
  lemma {:induction false} InterleavingsKeepLifecycle(actions: seq<Action>)
    requires Exec(actions).0
    ensures EventStreams.PhaseAfter(true, EventStreams.Idle, LogOf(actions)) == PhaseOf(Exec(actions).1.place)
    ensures !PhaseOf(Exec(actions).1.place).Wrong?
  {
    if actions != [] {
      var p, a := actions[..|actions| - 1], actions[|actions| - 1];
      var s := Exec(p).1;
      InterleavingsKeepLifecycle(p);
      InvAlways(p);
      StepKeepsPhase(s, a);
      EventStreams.PhaseSplit(true, EventStreams.Idle, LogOf(p), Observed(s, a));
    }
  }

  /** So every prefix of every interleaving's log is as orderly as that of a run without interference. */
  lemma InterleavingsOrderly(actions: seq<Action>, k: nat)
    requires Exec(actions).0 && k <= |LogOf(actions)|
    ensures EventStreams.OrderlyAt(true, LogOf(actions), k)
  {
    InterleavingsKeepLifecycle(actions);
    EventStreams.LifecycleOrderly(true, LogOf(actions), k);
  }

  // ---------------------------------------------------------------- waiting watchdogs

  function WatchingCount(conns: seq<Conn>): nat {
    if conns == [] then 0 else WatchingCount(conns[..|conns| - 1]) + if conns[|conns| - 1].watching then 1 else 0
  }

  lemma {:induction false} AllWatching(conns: seq<Conn>)
    requires forall c :: c in conns ==> c.watching
    ensures WatchingCount(conns) == |conns|
  {
    if conns != [] {
      AllWatching(conns[..|conns| - 1]);
    }
  }

  function Dials(actions: seq<Action>): nat {
    if actions == [] then 0 else Dials(actions[..|actions| - 1]) + if actions[|actions| - 1].DialSucceeds? then 1 else 0
  }

  lemma StepDials(s: State, a: Action)
    requires Enabled(s, a)
    ensures |Step(s, a).conns| == |s.conns| + if a.DialSucceeds? then 1 else 0
  {
  }

  lemma {:induction false} DialsCounted(actions: seq<Action>)
    requires Exec(actions).0
    ensures |Exec(actions).1.conns| == Dials(actions)
  {
    if actions != [] {
      var p := actions[..|actions| - 1];
      DialsCounted(p);
      StepDials(Exec(p).1, actions[|actions| - 1]);
    }
  }

  /**
   * A watchdog outlives its connection: until the run is cancelled, there is one waiting for
   * every connection ever dialled, closed or not.
   */
  lemma WatchdogsAccumulate(actions: seq<Action>)
    requires Exec(actions).0 && !Exec(actions).1.cancelled
    ensures WatchingCount(Exec(actions).1.conns) == Dials(actions)
  {
    InvAlways(actions);
    AllWatching(Exec(actions).1.conns);
    DialsCounted(actions);
  }
}
