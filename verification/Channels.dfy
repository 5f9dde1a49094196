/**
 * Channels do not interfere: what a history does to a channel, and the verdicts it adds,
 * depend on that channel's own events and the prunes only.
 */
module Channels {
  import opened Text
  import opened Parser
  import opened Accounting
  import opened Aggregators
  import opened Sessions
  import opened Sums

  /** The events of `h` on channel `c`, and the prunes. */
  function Project(h: History, c: string): History {
    if h == [] then []
    else Project(h[..|h| - 1], c) + if h[|h| - 1].Prune? || h[|h| - 1].channel == c then [h[|h| - 1]] else []
  }

  lemma ProjectSnoc(h: History, e: Event, c: string)
    ensures Project(h + [e], c) == Project(h, c) + if e.Prune? || e.channel == c then [e] else []
  {
    assert (h + [e])[..|h|] == h;
  }

  /** The entry of a channel is that of its own projection. */
  lemma {:induction false} ProjectionKeepsEntry(o: Options, h: History, c: string)
    ensures ChannelRun(o, h, c) == ChannelRun(o, Project(h, c), c)
  {
    if h != [] {
      var p, e := h[..|h| - 1], h[|h| - 1];
      assert h == p + [e];
      ProjectionKeepsEntry(o, p, c);
      ProjectSnoc(p, e, c);
      ChannelSnoc(o, p, e, c);
      if e.Prune? || e.channel == c {
        ChannelSnoc(o, Project(p, c), e, c);
      } else {
        assert Project(p, c) + [] == Project(p, c);
      }
    }
  }

  /** The verdict the last event `e` gives, from the entry of its channel. */
  function VerdictBy(o: Options, h: History, e: Event): Verdict {
    if e.Hangup? && e.channel != "" then VerdictOn(o, ChannelRun(o, h, e.channel), e.now) else NoVerdict
  }

  /** How many verdicts `v` a history gives on `c`. */
  function VerdictsOn(o: Options, h: History, v: Verdict, c: string): nat {
    if h == [] then 0
    else
      var p, e := h[..|h| - 1], h[|h| - 1];
      VerdictsOn(o, p, v, c) + Adds(o, p, e, v, c)
  }

  lemma VerdictsOnSnoc(o: Options, h: History, e: Event, v: Verdict, c: string)
    ensures VerdictsOn(o, h + [e], v, c) == VerdictsOn(o, h, v, c) + Adds(o, h, e, v, c)
  {
    assert (h + [e])[..|h|] == h;
  }

  /** What one event adds to the verdicts on `c`. */
  function Adds(o: Options, h: History, e: Event, v: Verdict, c: string): nat {
    if !e.Prune? && e.channel == c && VerdictBy(o, h, e) == v then 1 else 0
  }

  lemma ProjectionAdds(o: Options, h: History, e: Event, v: Verdict, c: string)
    ensures Adds(o, h, e, v, c) == Adds(o, Project(h, c), e, v, c)
  {
    if !e.Prune? && e.channel == c {
      ProjectionKeepsEntry(o, h, c);
    }
  }

  function CounterOf(s: State, v: Verdict): nat {
    match v
    case NoVerdict => 0
    case NoInbound => s.noInbound
    case NoOutbound => s.noOutbound
  }

  lemma CounterStep(o: Options, h: History, e: Event, v: Verdict)
    requires v != NoVerdict
    ensures CounterOf(Run(o, h + [e]), v) == CounterOf(Run(o, h), v) + if VerdictBy(o, h, e) == v then 1 else 0
  {
    RunSnoc(o, h, e);
    if e.Hangup? && e.channel != "" {
      EntryIsChannelRun(o, h, e.channel);
    }
  }

  lemma ProjectedCounterSnoc(o: Options, h: History, e: Event, v: Verdict, c: string)
    requires v != NoVerdict
    ensures CounterOf(Run(o, Project(h + [e], c)), v) == CounterOf(Run(o, Project(h, c)), v) + Adds(o, h, e, v, c)
  {
    var q := Project(h, c);
    ProjectSnoc(h, e, c);
    ProjectionAdds(o, h, e, v, c);
    if e.Prune? || e.channel == c {
      CounterStep(o, q, e, v);
    } else {
      assert q + [] == q;
    }
  }

  /** A counter after the projection on `c` counts the verdicts on `c`. */
  lemma {:induction false} ProjectedCounter(o: Options, h: History, v: Verdict, c: string)
    requires v != NoVerdict
    ensures CounterOf(Run(o, Project(h, c)), v) == VerdictsOn(o, h, v, c)
  {
    if h != [] {
      var p, e := h[..|h| - 1], h[|h| - 1];
      ProjectedCounter(o, p, v, c);
      ProjectedCounterSnoc(o, p, e, v, c);
      assert h == p + [e];
    }
  }

  function ChannelsOf(h: History): set<string> {
    set e | e in h && !e.Prune? :: e.channel
  }

  lemma {:induction false} CounterIsSum(o: Options, h: History, v: Verdict, names: set<string>)
    requires v != NoVerdict && ChannelsOf(h) <= names
    ensures CounterOf(Run(o, h), v) == Sum(names, c => VerdictsOn(o, h, v, c))
  {
    var now := c => VerdictsOn(o, h, v, c);
    if h == [] {
      SumZero(names, now);
    } else {
      var p, e := h[..|h| - 1], h[|h| - 1];
      assert h == p + [e];
      assert forall x :: x in p ==> x in h;
      assert e in h;
      CounterIsSum(o, p, v, names);
      CounterStep(o, p, e, v);
      var before := c => VerdictsOn(o, p, v, c);
      forall c ensures now(c) == before(c) + if !e.Prune? && e.channel == c && VerdictBy(o, p, e) == v then 1 else 0 {
        VerdictsOnSnoc(o, p, e, v, c);
      }
      if e.Prune? {
        SumSame(names, before, now);
      } else {
        assert e.channel in ChannelsOf(h);
        SumChanged(names, before, now, e.channel);
      }
    }
  }

  /** The counter that the projection on `c` by itself ends with. */
  function ProjectionCounts(o: Options, h: History, v: Verdict, c: string): nat {
    CounterOf(Run(o, Project(h, c)), v)
  }

  /**
   * Any history is the combination of its per-channel projections: each channel's entry is the
   * one its projection leaves, and each verdict counter is the sum of theirs.
   */
  lemma {:induction false} ProjectionsCombine(o: Options, h: History, v: Verdict)
    requires v != NoVerdict
    ensures forall c :: c != "" ==> Entry(Run(o, h).table, c) == Entry(Run(o, Project(h, c)).table, c)
    ensures CounterOf(Run(o, h), v) == Sum(ChannelsOf(h), c => ProjectionCounts(o, h, v, c))
  {
    forall c | c != "" ensures Entry(Run(o, h).table, c) == Entry(Run(o, Project(h, c)).table, c) {
      EntryIsChannelRun(o, h, c);
      EntryIsChannelRun(o, Project(h, c), c);
      ProjectionKeepsEntry(o, h, c);
    }
    var own, projected := c => VerdictsOn(o, h, v, c), c => ProjectionCounts(o, h, v, c);
    CounterIsSum(o, h, v, ChannelsOf(h));
    forall c ensures own(c) == projected(c) {
      ProjectedCounter(o, h, v, c);
    }
    SumSame(ChannelsOf(h), own, projected);
  }

  // ---------------------------------------------------------------- commutation

  /** All of the state but the loss gauges. */
  predicate SameButLoss(s: State, t: State) {
    s.(loss := map[]) == t.(loss := map[])
  }

  lemma MapsEqual(m: map<string, Session>, n: map<string, Session>)
    requires forall c :: Entry(m, c) == Entry(n, c)
    ensures m == n
  {
    forall c ensures c in m <==> c in n {
      assert Entry(m, c) == Entry(n, c);
    }
    forall c | c in m ensures m[c] == n[c] {
      assert Entry(m, c) == Entry(n, c);
    }
  }

  lemma StepKeepsOthers(o: Options, s: State, e: Event, c: string)
    requires !e.Prune? && (c == "" || c != e.channel)
    ensures Entry(Step(o, s, e).table, c) == Entry(s.table, c)
  {
  }

  lemma TablesCommute(o: Options, s: State, a: Event, b: Event)
    requires !a.Prune? && !b.Prune? && a.channel != b.channel
    ensures Step(o, Step(o, s, a), b).table == Step(o, Step(o, s, b), a).table
  {
    var sa, sb := Step(o, s, a), Step(o, s, b);
    var ab, ba := Step(o, sa, b).table, Step(o, sb, a).table;
    forall c ensures Entry(ab, c) == Entry(ba, c) {
      if c != "" {
        StepEntry(o, sa, b, c);
        StepEntry(o, sb, a, c);
        StepEntry(o, s, a, c);
        StepEntry(o, s, b, c);
      } else {
        StepKeepsOthers(o, sa, b, c);
        StepKeepsOthers(o, sb, a, c);
        StepKeepsOthers(o, s, a, c);
        StepKeepsOthers(o, s, b, c);
      }
    }
    MapsEqual(ab, ba);
  }

  /** What a step adds to the counters depends on the entry of its own channel only. */
  lemma StepAdds(o: Options, s: State, t: State, e: Event)
    requires !e.Prune? && (e.channel != "" ==> Entry(s.table, e.channel) == Entry(t.table, e.channel))
    ensures var s', t' := Step(o, s, e), Step(o, t, e);
            && s'.sentTotal - s.sentTotal == t'.sentTotal - t.sentTotal
            && s'.receivedTotal - s.receivedTotal == t'.receivedTotal - t.receivedTotal
            && s'.noInbound - s.noInbound == t'.noInbound - t.noInbound
            && s'.noOutbound - s.noOutbound == t'.noOutbound - t.noOutbound
  {
  }

  lemma {:induction false} StepsCommute(o: Options, s: State, a: Event, b: Event)
    requires !a.Prune? && !b.Prune? && a.channel != b.channel
    ensures SameButLoss(Step(o, Step(o, s, a), b), Step(o, Step(o, s, b), a))
    ensures o.perChannel ==> Step(o, Step(o, s, a), b) == Step(o, Step(o, s, b), a)
  {
    var sa, sb := Step(o, s, a), Step(o, s, b);
    TablesCommute(o, s, a, b);
    StepKeepsOthers(o, s, a, b.channel);
    StepKeepsOthers(o, s, b, a.channel);
    StepAdds(o, s, sb, a);
    StepAdds(o, s, sa, b);
    if o.perChannel {
      LossCommutes(o, s, a, b);
    }
  }

  lemma LossCommutes(o: Options, s: State, a: Event, b: Event)
    requires o.perChannel && !a.Prune? && !b.Prune? && a.channel != b.channel
    ensures Step(o, Step(o, s, a), b).loss == Step(o, Step(o, s, b), a).loss
  {
    if a.Rtcp? && b.Rtcp? {
      assert KeyOfLoss(o, a) != KeyOfLoss(o, b);
    }
  }

  /** What a step does apart from the loss gauges does not depend on them. */
  lemma StepKeepsSameButLoss(o: Options, s: State, t: State, e: Event)
    requires SameButLoss(s, t)
    ensures SameButLoss(Step(o, s, e), Step(o, t, e))
  {
  }

  lemma {:induction false} RunAppend(o: Options, h: History, g: History, tail: History)
    requires SameButLoss(Run(o, h), Run(o, g))
    ensures SameButLoss(Run(o, h + tail), Run(o, g + tail))
    decreases |tail|
  {
    if tail == [] {
      assert h + tail == h && g + tail == g;
    } else {
      var p, e := tail[..|tail| - 1], tail[|tail| - 1];
      RunAppend(o, h, g, p);
      RunSnoc(o, h + p, e);
      RunSnoc(o, g + p, e);
      assert tail == p + [e];
      Assoc(h, p, [e]);
      Assoc(g, p, [e]);
      StepKeepsSameButLoss(o, Run(o, h + p), Run(o, g + p), e);
    }
  }

  /**
   * Neighbouring events on different channels may be swapped anywhere in a history: whatever
   * follows, only gauges that the channels share can tell.
   */
  lemma NeighboursCommute(o: Options, h: History, a: Event, b: Event, tail: History)
    requires !a.Prune? && !b.Prune? && a.channel != b.channel
    ensures SameButLoss(Run(o, h + [a] + [b] + tail), Run(o, h + [b] + [a] + tail))
  {
    RunSnoc(o, h, a);
    RunSnoc(o, h, b);
    RunSnoc(o, h + [a], b);
    RunSnoc(o, h + [b], a);
    StepsCommute(o, Run(o, h), a, b);
    RunAppend(o, h + [a] + [b], h + [b] + [a], tail);
  }

  // ---------------------------------------------------------------- commutation of the gauges

  /** Event `e` sets the gauge `k`. */
  predicate Reports(o: Options, e: Event, k: LossKey) {
    e.Rtcp? && e.loss.Some? && KeyOfLoss(o, e) == k
  }

  lemma {:induction false} LastLossAppend(o: Options, h: History, tail: History, k: LossKey)
    ensures LastLoss(o, h + tail, k) == if LastLoss(o, tail, k).Some? then LastLoss(o, tail, k) else LastLoss(o, h, k)
    ensures LastLoss(o, tail, k).Some? <==> exists e :: e in tail && Reports(o, e, k)
    decreases |tail|
  {
    if tail == [] {
      assert h + tail == h;
    } else {
      var p, e := tail[..|tail| - 1], tail[|tail| - 1];
      assert tail == p + [e];
      assert (h + tail)[..|h + tail| - 1] == h + p;
      LastLossAppend(o, h, p, k);
      if Reports(o, e, k) {
        assert e in tail;
      }
    }
  }

  /** Both events set one gauge, to different ratios. */
  predicate Disagree(o: Options, a: Event, b: Event) {
    && a.Rtcp? && b.Rtcp? && a.loss.Some? && b.loss.Some?
    && KeyOfLoss(o, a) == KeyOfLoss(o, b) && a.loss != b.loss
  }

  lemma LastLossOfTwo(o: Options, h: History, a: Event, b: Event, k: LossKey)
    ensures LastLoss(o, h + [a] + [b], k) ==
            if Reports(o, b, k) then b.loss else if Reports(o, a, k) then a.loss else LastLoss(o, h, k)
  {
    assert (h + [a] + [b])[..|h| + 1] == h + [a] && (h + [a])[..|h|] == h;
  }

  /** After the swap and the tail, each gauge is the same unless both events set it and nothing sets it later. */
  lemma GaugeCommutes(o: Options, h: History, a: Event, b: Event, tail: History, k: LossKey)
    ensures LastLoss(o, h + [a] + [b] + tail, k) == LastLoss(o, h + [b] + [a] + tail, k) <==>
            !(Reports(o, a, k) && Reports(o, b, k) && a.loss != b.loss) || exists e :: e in tail && Reports(o, e, k)
  {
    LastLossAppend(o, h + [a] + [b], tail, k);
    LastLossAppend(o, h + [b] + [a], tail, k);
    LastLossOfTwo(o, h, a, b, k);
    LastLossOfTwo(o, h, b, a, k);
  }

  function GaugeAt(gauges: map<LossKey, Float>, k: LossKey): Option<Float> {
    if k in gauges then Some(gauges[k]) else None
  }

  lemma GaugeMapsEqual(m: map<LossKey, Float>, n: map<LossKey, Float>)
    requires forall k :: GaugeAt(m, k) == GaugeAt(n, k)
    ensures m == n
  {
    forall k ensures k in m <==> k in n {
      assert GaugeAt(m, k) == GaugeAt(n, k);
    }
    forall k | k in m ensures m[k] == n[k] {
      assert GaugeAt(m, k) == GaugeAt(n, k);
    }
  }

  ghost predicate SameLastLoss(o: Options, g: History, h: History) {
    forall k :: LastLoss(o, g, k) == LastLoss(o, h, k)
  }

  lemma GaugesEqual(o: Options, g: History, h: History)
    ensures Run(o, g).loss == Run(o, h).loss <==> SameLastLoss(o, g, h)
  {
    forall k ensures LastLoss(o, g, k) == GaugeAt(Run(o, g).loss, k) && LastLoss(o, h, k) == GaugeAt(Run(o, h).loss, k) {
      GaugesShowLastLoss(o, g, k);
      GaugesShowLastLoss(o, h, k);
    }
    if SameLastLoss(o, g, h) {
      forall k ensures GaugeAt(Run(o, g).loss, k) == GaugeAt(Run(o, h).loss, k) {
        assert LastLoss(o, g, k) == LastLoss(o, h, k);
      }
      GaugeMapsEqual(Run(o, g).loss, Run(o, h).loss);
    }
  }

  /**
   * The swap has no effect at all if and only if the two events do not set one gauge to different
   * ratios, or something behind them sets that gauge.
   */
  lemma NeighboursCommuteExactly(o: Options, h: History, a: Event, b: Event, tail: History)
    requires !a.Prune? && !b.Prune? && a.channel != b.channel
    ensures Run(o, h + [a] + [b] + tail) == Run(o, h + [b] + [a] + tail) <==>
            !Disagree(o, a, b) || exists e :: e in tail && Reports(o, e, KeyOfLoss(o, a))
  {
    var ab, ba := h + [a] + [b] + tail, h + [b] + [a] + tail;
    NeighboursCommute(o, h, a, b, tail);
    GaugesEqual(o, ab, ba);
    forall k
      ensures LastLoss(o, ab, k) == LastLoss(o, ba, k) <==>
              !(Reports(o, a, k) && Reports(o, b, k) && a.loss != b.loss) || exists e :: e in tail && Reports(o, e, k)
    {
      GaugeCommutes(o, h, a, b, tail, k);
    }
    SameButLossAndLoss(Run(o, ab), Run(o, ba));
    if Disagree(o, a, b) {
      var own := KeyOfLoss(o, a);
      assert Reports(o, a, own) && Reports(o, b, own);
      assert LastLoss(o, ab, own) == LastLoss(o, ba, own) <==> exists e :: e in tail && Reports(o, e, own);
      assert forall k :: Reports(o, a, k) ==> k == own;
    } else {
      assert SameLastLoss(o, ab, ba);
    }
  }

  lemma SameButLossAndLoss(s: State, t: State)
    requires SameButLoss(s, t)
    ensures s == t <==> s.loss == t.loss
  {
  }

  /** Only gauges without the channel's name can be set by both, by reports in the same direction. */
  lemma DisagreeExactly(o: Options, a: Event, b: Event)
    requires !a.Prune? && !b.Prune? && a.channel != b.channel
    ensures Disagree(o, a, b) <==>
            !o.perChannel && a.Rtcp? && b.Rtcp? && a.direction == b.direction &&
            a.loss.Some? && b.loss.Some? && a.loss != b.loss
  {
  }
}
