/**
 * Exactly when pruning can change a verdict, for prunes whose clock reading may be later than
 * that of events that take effect behind them: the clock is read before the lock is taken.
 */
module PruneRaces {
  import opened Text
  import opened Aggregators
  import opened Sessions
  import opened Pruning
  import opened PruneVisibility

  /** The latest clock reading that a prune may carry when `i` other events have taken effect. */
  type Reach = nat -> int

  ghost predicate WithinReach(g: History, reach: Reach) {
    forall k :: 0 <= k < |g| && g[k].Prune? ==> g[k].now <= reach(|WithoutPrunes(g[..k])|)
  }

  /** `g` is `h` with prunes placed anywhere within reach. */
  ghost predicate Placed(g: History, h: History, reach: Reach) {
    WithoutPrunes(g) == h && WithinReach(g, reach)
  }

  /** Every prune within reach carries a reading no later than `latest`. */
  function UpTo(latest: int): Reach {
    (i: nat) => latest
  }

  /**
   * Readings may run ahead of the next event's by `slack`; with none they are in clock order.
   * (Prunes behind the last event move no verdict counter.)
   */
  function AheadOfNext(h: History, slack: int): Reach {
    (i: nat) => if i < |h| then h[i].now + slack else 0
  }

  /** A prune right behind the first `i` events would find `c` in the table, and stale. */
  ghost predicate Forgettable(o: Options, h: History, c: string, i: nat, reach: Reach) {
    Opened(o, h, c) <= i <= |h| &&
    var heard := RtcpOn(h[Opened(o, h, c)..i], c);
    heard != [] && heard[|heard| - 1].now < reach(i) - o.channelTTL
  }

  /** What is behind each place where `c` can be forgotten deserves the verdict of the whole session. */
  ghost predicate SafeBehindCuts(o: Options, h: History, c: string, at: int, reach: Reach) {
    forall i: nat :: Forgettable(o, h, c, i, reach) ==>
      VerdictOn(o, Summary(RtcpOn(h[i..], c)), at) == VerdictOn(o, Summary(OpenSession(o, h, c)), at)
  }

  // ---------------------------------------------------------------- what is remembered

  lemma WithinReachSnoc(g: History, e: Event, reach: Reach)
    ensures WithinReach(g + [e], reach) <==>
            WithinReach(g, reach) && (e.Prune? ==> e.now <= reach(|WithoutPrunes(g)|))
  {
    var f := g + [e];
    assert f[..|g|] == g && f[|g|] == e;
    forall k | 0 <= k < |g| ensures f[k] == g[k] && f[..k] == g[..k] {}
  }

  lemma RtcpOnSnoc(h: History, e: Event, c: string)
    ensures RtcpOn(h + [e], c) == RtcpOn(h, c) + if IsRtcpOn(e, c) then [e] else []
  {
    assert (h + [e])[..|h|] == h;
  }

  lemma {:induction false} RtcpOnSplit(a: History, b: History, c: string)
    ensures RtcpOn(a + b, c) == RtcpOn(a, c) + RtcpOn(b, c)
    decreases |b|
  {
    if b == [] {
      assert a + b == a;
    } else {
      var p, e := b[..|b| - 1], b[|b| - 1];
      assert b == p + [e] && a + b == (a + p) + [e];
      RtcpOnSplit(a, p, c);
      RtcpOnSnoc(p, e, c);
      RtcpOnSnoc(a + p, e, c);
      Assoc(RtcpOn(a, c), RtcpOn(p, c), if IsRtcpOn(e, c) then [e] else []);
    }
  }

  lemma SessionSplit(o: Options, h: History, c: string, i: nat)
    requires Opened(o, h, c) <= i <= |h|
    ensures OpenSession(o, h, c) == RtcpOn(h[Opened(o, h, c)..i], c) + RtcpOn(h[i..], c)
  {
    assert h[Opened(o, h, c)..] == h[Opened(o, h, c)..i] + h[i..];
    RtcpOnSplit(h[Opened(o, h, c)..i], h[i..], c);
  }

  /** A cut behind all events leaves nothing of the session. */
  lemma CutAtTheEnd(o: Options, h: History, c: string, reach: Reach)
    ensures RtcpOn(h[|h|..], c) == []
    ensures Forgettable(o, h, c, |h|, reach) <==>
            var es := OpenSession(o, h, c);
            es != [] && es[|es| - 1].now < reach(|h|) - o.channelTTL
  {
    assert h[Opened(o, h, c)..|h|] == h[Opened(o, h, c)..] && h[|h|..] == [];
  }

  /** A run with prunes remembers the part of the session behind a cut at `i`. */
  ghost predicate RemembersBehind(o: Options, g: History, c: string, reach: Reach, i: nat) {
    var h := WithoutPrunes(g);
    Forgettable(o, h, c, i, reach) && ChannelRun(o, g, c) == Summary(RtcpOn(h[i..], c))
  }

  ghost predicate Remembers(o: Options, g: History, c: string, reach: Reach) {
    || ChannelRun(o, g, c) == Summary(OpenSession(o, WithoutPrunes(g), c))
    || exists i: nat :: RemembersBehind(o, g, c, reach, i)
  }

  /** A remembered part ends with the last event of the session. */
  lemma RememberedEnd(o: Options, g: History, c: string, reach: Reach)
    requires Remembers(o, g, c, reach) && ChannelRun(o, g, c).Some?
    ensures var es := OpenSession(o, WithoutPrunes(g), c);
            es != [] && es[|es| - 1].now == ChannelRun(o, g, c).value.lastSeen
  {
    if i: nat :| RemembersBehind(o, g, c, reach, i) {
      SessionSplit(o, WithoutPrunes(g), c, i);
    }
  }

  lemma RemembersAfterPruning(o: Options, g: History, e: Event, c: string, reach: Reach)
    requires e.Prune? && e.now <= reach(|WithoutPrunes(g)|) && Remembers(o, g, c, reach)
    ensures Remembers(o, g + [e], c, reach)
  {
    var h := WithoutPrunes(g);
    ChannelSnoc(o, g, e, c);
    LastOnSnoc(g, e, c);
    assert WithoutPrunes(g + [e]) == h;
    if ChannelRun(o, g, c).Some? && Stale(o, ChannelRun(o, g, c).value, e.now) {
      RememberedEnd(o, g, c, reach);
      CutAtTheEnd(o, h, c, reach);
      assert RemembersBehind(o, g + [e], c, reach, |h|);
    } else if i: nat :| RemembersBehind(o, g, c, reach, i) {
      assert RemembersBehind(o, g + [e], c, reach, i);
    }
  }

  /** An event that does not close `c` leaves every cut of its session where it was. */
  lemma ForgettableSnoc(o: Options, h: History, e: Event, c: string, i: nat, reach: Reach)
    requires !e.Prune? && !(e.Hangup? && e.channel == c) && i <= |h|
    ensures Forgettable(o, h + [e], c, i, reach) <==> Forgettable(o, h, c, i, reach)
    ensures RtcpOn((h + [e])[i..], c) == RtcpOn(h[i..], c) + if IsRtcpOn(e, c) then [e] else []
  {
    var f := h + [e];
    assert f[..|h|] == h;
    assert Opened(o, f, c) == Opened(o, h, c);
    if Opened(o, h, c) <= i {
      assert f[Opened(o, h, c)..i] == h[Opened(o, h, c)..i];
    }
    assert f[i..] == h[i..] + [e];
    RtcpOnSplit(h[i..], [e], c);
    assert [e][..0] == [];
  }

  lemma WholeAfterEvent(o: Options, g: History, e: Event, c: string)
    requires !e.Prune? && ((e.Hangup? && e.channel == c) || ChannelRun(o, g, c) == Summary(OpenSession(o, WithoutPrunes(g), c)))
    ensures ChannelRun(o, g + [e], c) == Summary(OpenSession(o, WithoutPrunes(g) + [e], c))
  {
    var h := WithoutPrunes(g);
    ChannelSnoc(o, g, e, c);
    OpenSessionSnoc(o, h, e, c);
    if IsRtcpOn(e, c) {
      SummarySnoc(OpenSession(o, h, c), e);
    }
  }

  lemma BehindAfterEvent(o: Options, g: History, e: Event, c: string, reach: Reach, i: nat)
    requires !e.Prune? && !(e.Hangup? && e.channel == c) && RemembersBehind(o, g, c, reach, i)
    ensures RemembersBehind(o, g + [e], c, reach, i)
  {
    var h := WithoutPrunes(g);
    var rest := RtcpOn(h[i..], c);
    ChannelSnoc(o, g, e, c);
    LastOnSnoc(g, e, c);
    ForgettableSnoc(o, h, e, c, i, reach);
    if IsRtcpOn(e, c) {
      SummarySnoc(rest, e);
    } else {
      assert rest + [] == rest;
    }
  }

  lemma RemembersAfterEvent(o: Options, g: History, e: Event, c: string, reach: Reach)
    requires !e.Prune? && Remembers(o, g, c, reach)
    ensures Remembers(o, g + [e], c, reach)
  {
    LastOnSnoc(g, e, c);
    if i: nat :| !(e.Hangup? && e.channel == c) && RemembersBehind(o, g, c, reach, i) {
      BehindAfterEvent(o, g, e, c, reach, i);
    } else {
      WholeAfterEvent(o, g, e, c);
    }
  }

  /** Whatever prunes do within reach, a session is remembered whole or from behind some cut. */
  lemma {:induction false} MemoryOfPlaced(o: Options, g: History, c: string, reach: Reach)
    requires WithinReach(g, reach)
    ensures Remembers(o, g, c, reach)
  {
    if g != [] {
      var p, e := g[..|g| - 1], g[|g| - 1];
      assert g == p + [e];
      WithinReachSnoc(p, e, reach);
      MemoryOfPlaced(o, p, c, reach);
      if e.Prune? {
        RemembersAfterPruning(o, p, e, c, reach);
      } else {
        RemembersAfterEvent(o, p, e, c, reach);
      }
    }
  }

  /** At every place where `c` can be forgotten, a single prune does it. */
  lemma {:induction false} CutAt(o: Options, h: History, c: string, i: nat, reach: Reach) returns (g: History)
    requires WithoutPrunes(h) == h && Forgettable(o, h, c, i, reach)
    ensures Placed(g, h, reach) && ChannelRun(o, g, c) == Summary(RtcpOn(h[i..], c))
    decreases |h|
  {
    if i == |h| {
      g := h + [Prune(reach(i))];
      PruneBehind(o, h, c, reach);
    } else {
      var p, e := h[..|h| - 1], h[|h| - 1];
      assert h == p + [e];
      PruneFreeSnoc(p, e);
      ForgettableSnoc(o, p, e, c, i, reach);
      var f := CutAt(o, p, c, i, reach);
      g := f + [e];
      LastOnSnoc(f, e, c);
      WithinReachSnoc(f, e, reach);
      BehindAfterEvent(o, f, e, c, reach, i);
    }
  }

  lemma PruneFreeWithinReach(h: History, reach: Reach)
    requires WithoutPrunes(h) == h
    ensures WithinReach(h, reach)
  {
    NoPrunes(h);
    assert forall k :: 0 <= k < |h| ==> h[k] in h;
  }

  lemma PruneIsPlaced(h: History, reach: Reach)
    requires WithoutPrunes(h) == h
    ensures Placed(h + [Prune(reach(|h|))], h, reach)
  {
    var e := Prune(reach(|h|));
    PruneFreeWithinReach(h, reach);
    LastOnSnoc(h, e, "");
    assert h + [] == h;
    WithinReachSnoc(h, e, reach);
  }

  /** A prune that finds the session of `c` stale forgets it. */
  lemma StaleIsForgotten(o: Options, h: History, c: string, now: int)
    requires var es := OpenSession(o, h, c); es != [] && es[|es| - 1].now < now - o.channelTTL
    ensures ChannelRun(o, h + [Prune(now)], c) == None
  {
    ChannelRunIsSession(o, h, c);
    ChannelSnoc(o, h, Prune(now), c);
  }

  lemma PruneBehind(o: Options, h: History, c: string, reach: Reach)
    requires WithoutPrunes(h) == h && Forgettable(o, h, c, |h|, reach)
    ensures var g := h + [Prune(reach(|h|))];
            Placed(g, h, reach) && ChannelRun(o, g, c) == Summary(RtcpOn(h[|h|..], c))
  {
    CutAtTheEnd(o, h, c, reach);
    PruneIsPlaced(h, reach);
    StaleIsForgotten(o, h, c, reach(|h|));
  }

  // ---------------------------------------------------------------- one hangup

  /** Such a placement after which only `rest` of the session of `c` is remembered. */
  ghost predicate ReducedTo(o: Options, g: History, h: History, c: string, reach: Reach, rest: seq<Event>) {
    Placed(g, h, reach) && Entry(Run(o, g).table, c) == Summary(rest)
  }

  /**
   * For a history without prunes and any reach: prunes placed within it never change the verdict
   * of a hangup at `at` if and only if, wherever the channel can be forgotten, the part of its
   * session behind that place deserves the verdict of the whole.
   */
  lemma {:induction false} HangupVerdictExactly(o: Options, h: History, c: string, at: int, reach: Reach)
    requires c != "" && WithoutPrunes(h) == h
    ensures
      (forall g :: Placed(g, h, reach) ==>
         VerdictOn(o, Entry(Run(o, g).table, c), at) == VerdictOn(o, Entry(Run(o, h).table, c), at))
      <==> SafeBehindCuts(o, h, c, at, reach)
  {
    TableIsOpenSessions(o, h, c);
    forall i: nat | Forgettable(o, h, c, i, reach)
      ensures exists g :: ReducedTo(o, g, h, c, reach, RtcpOn(h[i..], c))
    {
      var g := CutAt(o, h, c, i, reach);
      EntryIsChannelRun(o, g, c);
      assert ReducedTo(o, g, h, c, reach, RtcpOn(h[i..], c));
    }
    forall g | Placed(g, h, reach)
      ensures Entry(Run(o, g).table, c) == ChannelRun(o, g, c) && Remembers(o, g, c, reach)
    {
      MemoryOfPlaced(o, g, c, reach);
      EntryIsChannelRun(o, g, c);
    }
  }

  // ---------------------------------------------------------------- the counters

  /** After every prefix of every placement the verdict counters are those without the prunes. */
  ghost predicate CountersSafe(o: Options, h: History, reach: Reach) {
    forall g :: WithinReach(g, reach) && WithoutPrunes(g) <= h ==> SameVerdicts(Run(o, g), Run(o, WithoutPrunes(g)))
  }

  predicate IsNamedHangup(e: Event) {
    e.Hangup? && e.channel != ""
  }

  ghost predicate HangupsSafe(o: Options, h: History, reach: Reach) {
    forall j: nat :: j < |h| && IsNamedHangup(h[j]) ==> SafeBehindCuts(o, h[..j], h[j].channel, h[j].now, reach)
  }

  /** Counters that agree before a hangup agree behind it exactly when the verdicts do. */
  lemma VerdictsMoveCounters(o: Options, s: State, t: State, e: Event)
    requires SameVerdicts(s, t) && !e.Prune?
    ensures SameVerdicts(Step(o, s, e), Step(o, t, e)) <==>
            (IsNamedHangup(e) ==>
               VerdictOn(o, Entry(s.table, e.channel), e.now) == VerdictOn(o, Entry(t.table, e.channel), e.now))
  {
  }

  lemma {:induction false} PruneFreePrefix(h: History, j: nat)
    requires WithoutPrunes(h) == h && j <= |h|
    ensures WithoutPrunes(h[..j]) == h[..j]
    decreases |h|
  {
    if j < |h| {
      var p, e := h[..|h| - 1], h[|h| - 1];
      assert h == p + [e] && p[..j] == h[..j];
      PruneFreeSnoc(p, e);
      PruneFreePrefix(p, j);
    } else {
      assert h[..j] == h;
    }
  }

  lemma SafeHangupStep(o: Options, h: History, p: History, e: Event, reach: Reach)
    requires WithoutPrunes(h) == h && HangupsSafe(o, h, reach) && !e.Prune?
    requires WithinReach(p, reach) && WithoutPrunes(p) + [e] <= h
    requires SameVerdicts(Run(o, p), Run(o, WithoutPrunes(p)))
    ensures SameVerdicts(Step(o, Run(o, p), e), Step(o, Run(o, WithoutPrunes(p)), e))
  {
    var w := WithoutPrunes(p);
    if IsNamedHangup(e) {
      assert h[|w|] == (w + [e])[|w|] == e;
      assert h[..|w|] == w;
      PruneFreePrefix(h, |w|);
      HangupVerdictExactly(o, w, e.channel, e.now, reach);
      assert Placed(p, w, reach);
    }
    VerdictsMoveCounters(o, Run(o, p), Run(o, w), e);
  }

  lemma {:induction false} SafeHangupsSafeCounters(o: Options, h: History, g: History, reach: Reach)
    requires WithoutPrunes(h) == h && HangupsSafe(o, h, reach)
    requires WithinReach(g, reach) && WithoutPrunes(g) <= h
    ensures SameVerdicts(Run(o, g), Run(o, WithoutPrunes(g)))
    decreases |g|
  {
    if g != [] {
      var p, e := g[..|g| - 1], g[|g| - 1];
      assert g == p + [e];
      WithinReachSnoc(p, e, reach);
      LastOnSnoc(p, e, "");
      var w := WithoutPrunes(p);
      assert w <= WithoutPrunes(g);
      SafeHangupsSafeCounters(o, h, p, reach);
      if e.Prune? {
        assert WithoutPrunes(g) == w;
        StepKeepsSameVerdicts(o, Run(o, p), Run(o, w), e);
      } else {
        RunSnoc(o, w, e);
        SafeHangupStep(o, h, p, e, reach);
      }
    }
  }

  lemma PlacedNext(g: History, h: History, reach: Reach, j: nat)
    requires j < |h| && !h[j].Prune? && Placed(g, h[..j], reach)
    ensures WithinReach(g + [h[j]], reach) && WithoutPrunes(g) <= h
    ensures WithoutPrunes(g + [h[j]]) == h[..j] + [h[j]] && WithoutPrunes(g + [h[j]]) <= h
  {
    WithinReachSnoc(g, h[j], reach);
    LastOnSnoc(g, h[j], "");
    assert h[..j] + [h[j]] == h[..j + 1];
  }

  /** Safe counters agree before and behind the hangup at `j`, wherever prunes are placed before it. */
  lemma SafeAround(o: Options, h: History, g: History, reach: Reach, j: nat)
    requires CountersSafe(o, h, reach) && j < |h| && !h[j].Prune? && Placed(g, h[..j], reach)
    ensures SameVerdicts(Run(o, g), Run(o, h[..j]))
    ensures SameVerdicts(Run(o, g + [h[j]]), Run(o, h[..j] + [h[j]]))
  {
    PlacedNext(g, h, reach, j);
  }

  lemma SafeCountersSafeVerdict(o: Options, h: History, g: History, reach: Reach, j: nat)
    requires CountersSafe(o, h, reach) && j < |h| && IsNamedHangup(h[j]) && Placed(g, h[..j], reach)
    ensures VerdictOn(o, Entry(Run(o, g).table, h[j].channel), h[j].now) ==
            VerdictOn(o, Entry(Run(o, h[..j]).table, h[j].channel), h[j].now)
  {
    SafeAround(o, h, g, reach, j);
    RunSnoc(o, g, h[j]);
    RunSnoc(o, h[..j], h[j]);
    VerdictsMoveCounters(o, Run(o, g), Run(o, h[..j]), h[j]);
  }

  /**
   * For a history without prunes and any reach: the verdict counters are the same after every
   * prefix of every placement if and only if every hangup is safe behind the cuts of the session
   * it closes.
   */
  lemma {:induction false} CountersExactly(o: Options, h: History, reach: Reach)
    requires WithoutPrunes(h) == h
    ensures CountersSafe(o, h, reach) <==> HangupsSafe(o, h, reach)
  {
    if HangupsSafe(o, h, reach) {
      forall g | WithinReach(g, reach) && WithoutPrunes(g) <= h
        ensures SameVerdicts(Run(o, g), Run(o, WithoutPrunes(g)))
      {
        SafeHangupsSafeCounters(o, h, g, reach);
      }
    }
    if CountersSafe(o, h, reach) {
      forall j: nat | j < |h| && IsNamedHangup(h[j])
        ensures SafeBehindCuts(o, h[..j], h[j].channel, h[j].now, reach)
      {
        PruneFreePrefix(h, j);
        forall g | Placed(g, h[..j], reach)
          ensures VerdictOn(o, Entry(Run(o, g).table, h[j].channel), h[j].now) ==
                  VerdictOn(o, Entry(Run(o, h[..j]).table, h[j].channel), h[j].now)
        {
          SafeCountersSafeVerdict(o, h, g, reach, j);
        }
        HangupVerdictExactly(o, h[..j], h[j].channel, h[j].now, reach);
      }
    }
  }

  // ---------------------------------------------------------------- in terms of silences

  lemma {:induction false} RtcpOnCut(h: History, c: string, s: nat) returns (i: nat)
    requires s <= |RtcpOn(h, c)|
    ensures i <= |h| && |RtcpOn(h[..i], c)| == s
    ensures if s < |RtcpOn(h, c)| then i < |h| && h[i] == RtcpOn(h, c)[s] else i == |h|
  {
    if s == |RtcpOn(h, c)| {
      i := |h|;
      assert h[..i] == h;
    } else {
      var p, e := h[..|h| - 1], h[|h| - 1];
      assert h == p + [e];
      RtcpOnSnoc(p, e, c);
      if s == |RtcpOn(p, c)| {
        i := |p|;
      } else {
        i := RtcpOnCut(p, c, s);
        assert h[..i] == p[..i];
      }
    }
  }

  /** The same for the open session of `c`: its first `s` events and the others lie either side of some place. */
  lemma SessionCut(o: Options, h: History, c: string, s: nat) returns (i: nat)
    requires s <= |OpenSession(o, h, c)|
    ensures Opened(o, h, c) <= i <= |h|
    ensures var es := OpenSession(o, h, c);
            && RtcpOn(h[Opened(o, h, c)..i], c) == es[..s] && RtcpOn(h[i..], c) == es[s..]
            && if s < |es| then i < |h| && h[i] == es[s] else i == |h|
  {
    var k := Opened(o, h, c);
    var n := RtcpOnCut(h[k..], c, s);
    i := k + n;
    assert h[k..][..n] == h[k..i];
    SessionSplit(o, h, c, i);
  }

  /** Behind every silence that a reading of `latest` makes stale, the verdict is that of the session. */
  ghost predicate SafeBehindSilences(o: Options, es: seq<Event>, at: int, latest: int) {
    forall s: nat :: 0 < s <= |es| && latest - es[s - 1].now > o.channelTTL ==>
      VerdictOn(o, Summary(es[s..]), at) == VerdictOn(o, Summary(es), at)
  }

  lemma CutsAreSilences(o: Options, h: History, c: string, at: int, latest: int)
    ensures SafeBehindCuts(o, h, c, at, UpTo(latest)) <==> SafeBehindSilences(o, OpenSession(o, h, c), at, latest)
  {
    var es, reach := OpenSession(o, h, c), UpTo(latest);
    forall s: nat | 0 < s <= |es| && latest - es[s - 1].now > o.channelTTL
      ensures exists i: nat :: Forgettable(o, h, c, i, reach) && RtcpOn(h[i..], c) == es[s..]
    {
      var i := SessionCut(o, h, c, s);
      assert Forgettable(o, h, c, i, reach);
    }
    forall i: nat | Forgettable(o, h, c, i, reach)
      ensures exists s: nat :: 0 < s <= |es| && latest - es[s - 1].now > o.channelTTL && es[s..] == RtcpOn(h[i..], c)
    {
      SessionSplit(o, h, c, i);
      var s := |RtcpOn(h[Opened(o, h, c)..i], c)|;
      assert es[s..] == RtcpOn(h[i..], c);
    }
  }

  /**
   * Prunes placed anywhere, with any readings up to `latest`, never change a hangup's verdict if
   * and only if, behind each event of the session that such a reading makes stale, the rest of
   * the session deserves the verdict of the whole.
   */
  lemma {:induction false} HangupVerdictExactlyUpTo(o: Options, h: History, c: string, at: int, latest: int)
    requires c != "" && WithoutPrunes(h) == h
    ensures
      (forall g :: Placed(g, h, UpTo(latest)) ==>
         VerdictOn(o, Entry(Run(o, g).table, c), at) == VerdictOn(o, Entry(Run(o, h).table, c), at))
      <==> SafeBehindSilences(o, OpenSession(o, h, c), at, latest)
  {
    HangupVerdictExactly(o, h, c, at, UpTo(latest));
    CutsAreSilences(o, h, c, at, latest);
  }

  /** The same for the counters after every prefix, over all hangups of the history. */
  lemma {:induction false} CountersExactlyUpTo(o: Options, h: History, latest: int)
    requires WithoutPrunes(h) == h
    ensures CountersSafe(o, h, UpTo(latest)) <==>
            forall j: nat :: j < |h| && IsNamedHangup(h[j]) ==>
              SafeBehindSilences(o, OpenSession(o, h[..j], h[j].channel), h[j].now, latest)
  {
    CountersExactly(o, h, UpTo(latest));
    forall j: nat | j < |h| && IsNamedHangup(h[j])
      ensures SafeBehindCuts(o, h[..j], h[j].channel, h[j].now, UpTo(latest)) <==>
              SafeBehindSilences(o, OpenSession(o, h[..j], h[j].channel), h[j].now, latest)
    {
      CutsAreSilences(o, h[..j], h[j].channel, h[j].now, latest);
    }
  }

  /** The silence behind event `s - 1` of a session, with the slack, is longer than the TTL. */
  ghost predicate SilenceWithin(o: Options, es: seq<Event>, s: nat, at: int, slack: int) {
    0 < s <= |es| && (if s < |es| then es[s].now else at) + slack - es[s - 1].now > o.channelTTL
  }

  /** Behind every such silence the verdict is that of the session. */
  ghost predicate SafeBehindLongSilences(o: Options, es: seq<Event>, at: int, slack: int) {
    forall s: nat :: SilenceWithin(o, es, s, at, slack) ==>
      VerdictOn(o, Summary(es[s..]), at) == VerdictOn(o, Summary(es), at)
  }

  lemma SilenceIsCut(o: Options, h: History, j: nat, slack: int, s: nat) returns (i: nat)
    requires j < |h| && IsNamedHangup(h[j])
    requires SilenceWithin(o, OpenSession(o, h[..j], h[j].channel), s, h[j].now, slack)
    ensures Forgettable(o, h[..j], h[j].channel, i, AheadOfNext(h, slack))
    ensures RtcpOn(h[..j][i..], h[j].channel) == OpenSession(o, h[..j], h[j].channel)[s..]
  {
    i := SessionCut(o, h[..j], h[j].channel, s);
  }

  lemma CutIsSilence(o: Options, h: History, j: nat, slack: int, i: nat) returns (s: nat)
    requires NonDecreasing(h) && j < |h| && IsNamedHangup(h[j]) && Forgettable(o, h[..j], h[j].channel, i, AheadOfNext(h, slack))
    ensures SilenceWithin(o, OpenSession(o, h[..j], h[j].channel), s, h[j].now, slack)
    ensures RtcpOn(h[..j][i..], h[j].channel) == OpenSession(o, h[..j], h[j].channel)[s..]
  {
    var p, c := h[..j], h[j].channel;
    var es := OpenSession(o, p, c);
    SessionSplit(o, p, c, i);
    s := |RtcpOn(p[Opened(o, p, c)..i], c)|;
    assert es[s..] == RtcpOn(p[i..], c);
    if s < |es| {
      assert es[s] == es[s..][0];
      RtcpOnLater(h, i, j, c, es[s]);
    }
  }

  lemma CutsAreLongSilences(o: Options, h: History, j: nat, slack: int)
    requires NonDecreasing(h) && j < |h| && IsNamedHangup(h[j])
    ensures SafeBehindCuts(o, h[..j], h[j].channel, h[j].now, AheadOfNext(h, slack)) <==>
            SafeBehindLongSilences(o, OpenSession(o, h[..j], h[j].channel), h[j].now, slack)
  {
    var p, c, at, reach := h[..j], h[j].channel, h[j].now, AheadOfNext(h, slack);
    var es := OpenSession(o, p, c);
    forall s: nat | SilenceWithin(o, es, s, at, slack)
      ensures exists i: nat :: Forgettable(o, p, c, i, reach) && RtcpOn(p[i..], c) == es[s..]
    {
      var i := SilenceIsCut(o, h, j, slack, s);
    }
    forall i: nat | Forgettable(o, p, c, i, reach)
      ensures exists s: nat :: SilenceWithin(o, es, s, at, slack) && es[s..] == RtcpOn(p[i..], c)
    {
      var s := CutIsSilence(o, h, j, slack, i);
    }
  }

  lemma RtcpOnLater(h: History, i: nat, j: nat, c: string, e: Event)
    requires NonDecreasing(h) && i <= j <= |h| && e in RtcpOn(h[..j][i..], c)
    ensures i < |h| && h[i].now <= e.now
  {
    RtcpOnFrom(h[..j][i..], c);
    var k :| 0 <= k < |h[..j][i..]| && h[..j][i..][k] == e;
    assert h[i + k] == e;
  }

  lemma {:induction false} RtcpOnFrom(h: History, c: string)
    ensures forall e :: e in RtcpOn(h, c) ==> e in h
  {
    if h != [] {
      RtcpOnFrom(h[..|h| - 1], c);
      assert h == h[..|h| - 1] + [h[|h| - 1]];
    }
  }

  /**
   * For a history in clock order, with prunes whose readings run ahead of the next event's by at
   * most `slack`: the verdict counters are the same after every prefix of every placement if and
   * only if every hangup is safe behind each silence that is longer than the TTL less the slack.
   */
  lemma {:induction false} CountersExactlyWithin(o: Options, h: History, slack: int)
    requires WithoutPrunes(h) == h && NonDecreasing(h)
    ensures CountersSafe(o, h, AheadOfNext(h, slack)) <==>
            forall j: nat :: j < |h| && IsNamedHangup(h[j]) ==>
              SafeBehindLongSilences(o, OpenSession(o, h[..j], h[j].channel), h[j].now, slack)
  {
    CountersExactly(o, h, AheadOfNext(h, slack));
    forall j: nat | j < |h| && IsNamedHangup(h[j])
      ensures SafeBehindCuts(o, h[..j], h[j].channel, h[j].now, AheadOfNext(h, slack)) <==>
              SafeBehindLongSilences(o, OpenSession(o, h[..j], h[j].channel), h[j].now, slack)
    {
      CutsAreLongSilences(o, h, j, slack);
    }
  }
}
