/**
 * Conservation of RTCP events: every event that was counted is in the count of a live entry,
 * or was in an entry that a hangup or a prune removed, or had no channel name.
 */
module Accounting {
  import opened Text
  import opened Parser
  import opened Aggregators
  import opened Sessions
  import opened Sums

  function CountIn(entry: Option<Session>, d: Direction): nat {
    match entry
    case None => 0
    case Some(s) => if d == Sent then s.sent else s.received
  }

  function TotalOf(s: State, d: Direction): nat {
    if d == Sent then s.sentTotal else s.receivedTotal
  }

  ghost function Live(table: map<string, Session>, d: Direction): nat {
    Sum(table.Keys, c => CountIn(Entry(table, c), d))
  }

  /** The part of a table that a prune at `now` evicts. */
  function StaleIn(o: Options, table: map<string, Session>, now: int): map<string, Session> {
    map c | c in table && Stale(o, table[c], now) :: table[c]
  }

  /** Where the counted events of direction `d` went, event by event of the history. */
  datatype Ledger = Ledger(hungUp: nat, evicted: nat, unnamed: nat)

  /** The entry an event makes in the ledger, from the table it finds. */
  ghost function Book(o: Options, table: map<string, Session>, l: Ledger, e: Event, d: Direction): Ledger {
    if e.Prune? then Ledger(l.hungUp, l.evicted + Live(StaleIn(o, table, e.now), d), l.unnamed)
    else if e.Hangup? then
      (if e.channel == "" then l else Ledger(l.hungUp + CountIn(Entry(table, e.channel), d), l.evicted, l.unnamed))
    else if e.channel == "" && e.direction == d then Ledger(l.hungUp, l.evicted, l.unnamed + 1)
    else l
  }

  ghost function Booked(o: Options, h: History, d: Direction): Ledger {
    if h == [] then Ledger(0, 0, 0)
    else
      var p := h[..|h| - 1];
      Book(o, Run(o, p).table, Booked(o, p, d), h[|h| - 1], d)
  }

  /** A live count may be summed over any set of names that includes the table's. */
  lemma LiveOver(table: map<string, Session>, d: Direction, names: set<string>)
    requires table.Keys <= names
    ensures Live(table, d) == Sum(names, c => CountIn(Entry(table, c), d))
  {
    SumSupport(names, table.Keys, c => CountIn(Entry(table, c), d));
  }

  /** Changing one entry changes the live count by the difference. */
  lemma LiveChanged(t: map<string, Session>, t': map<string, Session>, d: Direction, c: string)
    requires forall x :: x != c ==> Entry(t, x) == Entry(t', x)
    ensures Live(t', d) + CountIn(Entry(t, c), d) == Live(t, d) + CountIn(Entry(t', c), d)
  {
    var names := t.Keys + t'.Keys + {c};
    LiveOver(t, d, names);
    LiveOver(t', d, names);
    SumChanged(names, x => CountIn(Entry(t, x), d), x => CountIn(Entry(t', x), d), c);
  }

  /** A prune splits the live count into what stays and what it evicts. */
  lemma LiveSplit(o: Options, t: map<string, Session>, now: int, d: Direction)
    ensures var kept := map c | c in t && !Stale(o, t[c], now) :: t[c];
            Live(t, d) == Live(kept, d) + Live(StaleIn(o, t, now), d)
  {
    var kept, gone := map c | c in t && !Stale(o, t[c], now) :: t[c], StaleIn(o, t, now);
    LiveOver(kept, d, t.Keys);
    LiveOver(gone, d, t.Keys);
    SumPlus(t.Keys, c => CountIn(Entry(kept, c), d), c => CountIn(Entry(gone, c), d), c => CountIn(Entry(t, c), d));
  }

  lemma BookedSnoc(o: Options, h: History, e: Event, d: Direction)
    ensures Booked(o, h + [e], d) == Book(o, Run(o, h).table, Booked(o, h, d), e, d)
  {
    assert (h + [e])[..|h|] == h;
  }

  ghost predicate Balanced(o: Options, h: History, d: Direction) {
    var s, l := Run(o, h), Booked(o, h, d);
    TotalOf(s, d) == Live(s.table, d) + l.hungUp + l.evicted + l.unnamed
  }

  lemma StepTable(o: Options, s: State, e: Event)
    requires e.Rtcp? || e.Hangup?
    ensures TotalOf(Step(o, s, e), Sent) == TotalOf(s, Sent) + if e.Rtcp? && e.direction == Sent then 1 else 0
    ensures TotalOf(Step(o, s, e), Received) == TotalOf(s, Received) + if e.Rtcp? && e.direction == Received then 1 else 0
    ensures e.channel == "" ==> Step(o, s, e).table == s.table
    ensures forall x :: x != e.channel ==> Entry(Step(o, s, e).table, x) == Entry(s.table, x)
    ensures e.channel != "" ==>
              var entry := Entry(Step(o, s, e).table, e.channel);
              if e.Rtcp? then entry == Some(Heard(Entry(s.table, e.channel), e.direction, e.now)) else entry == None
  {
  }

  lemma BalancedSnoc(o: Options, h: History, e: Event, d: Direction)
    requires Balanced(o, h, d)
    ensures Balanced(o, h + [e], d)
  {
    var s, s' := Run(o, h), Step(o, Run(o, h), e);
    RunSnoc(o, h, e);
    BookedSnoc(o, h, e, d);
    if e.Prune? {
      LiveSplit(o, s.table, e.now, d);
    } else {
      StepTable(o, s, e);
      LiveChanged(s.table, s'.table, d, e.channel);
    }
  }

  /** The books balance in every reachable state, for both directions. */
  lemma {:induction false} EventsConserved(o: Options, h: History, d: Direction)
    ensures Balanced(o, h, d)
  {
    if h == [] {
      SumZero({}, c => CountIn(Entry(map[], c), d));
    } else {
      var p, e := h[..|h| - 1], h[|h| - 1];
      EventsConserved(o, p, d);
      BalancedSnoc(o, p, e, d);
      assert p + [e] == h;
    }
  }

  /** Live entries hold the events of the open sessions. */
  lemma LiveEntryHoldsSession(o: Options, h: History, c: string, d: Direction)
    requires c != ""
    ensures CountIn(Entry(Run(o, h).table, c), d) == CountDirection(OpenSession(o, h, c), d)
  {
    TableIsOpenSessions(o, h, c);
  }

  /** The totals count the RTCP events of the history, named or not. */
  lemma {:induction false} TotalsCountEvents(o: Options, h: History, d: Direction)
    ensures TotalOf(Run(o, h), d) == CountDirection(h, d)
  {
    if h != [] {
      TotalsCountEvents(o, h[..|h| - 1], d);
    }
  }

  // ---------------------------------------------------------------- the loss gauges

  /** The last loss ratio reported under a gauge's labels, if any. */
  function LastLoss(o: Options, h: History, k: LossKey): Option<Float> {
    if h == [] then None
    else
      var e := h[|h| - 1];
      if e.Rtcp? && e.loss.Some? && KeyOfLoss(o, e) == k then e.loss else LastLoss(o, h[..|h| - 1], k)
  }

  /** A gauge exists once a ratio was reported under its labels and shows the last one; none is ever removed. */
  lemma {:induction false} GaugesShowLastLoss(o: Options, h: History, k: LossKey)
    ensures var gauges := Run(o, h).loss;
            (if k in gauges then Some(gauges[k]) else None) == LastLoss(o, h, k)
  {
    if h != [] {
      GaugesShowLastLoss(o, h[..|h| - 1], k);
    }
  }
}
