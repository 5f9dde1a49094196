/**
 * When pruning idle channels is invisible. A scrape may prune at any moment, with a clock
 * reading taken before it got the lock. As long as no channel stays silent for longer than
 * the TTL between an RTCP event and its next event, and no prune carries a reading later than
 * that of an event behind it, the verdict counters are the ones of a run without any prune.
 */
module Pruning {
  import opened Text
  import opened Parser
  import opened Aggregators
  import opened Sessions

  function WithoutPrunes(h: History): History {
    if h == [] then []
    else WithoutPrunes(h[..|h| - 1]) + if h[|h| - 1].Prune? then [] else [h[|h| - 1]]
  }

  predicate OnChannel(e: Event, c: string) {
    !e.Prune? && e.channel == c
  }

  /** The last event on `c`, RTCP or hangup. */
  function LastOn(h: History, c: string): Option<Event> {
    if h == [] then None
    else if OnChannel(h[|h| - 1], c) then Some(h[|h| - 1])
    else LastOn(h[..|h| - 1], c)
  }

  /** Each RTCP event on a channel is followed by that channel's next event within the TTL. */
  ghost predicate NoLongSilence(o: Options, h: History) {
    h != [] ==>
      var p, e := h[..|h| - 1], h[|h| - 1];
      && NoLongSilence(o, p)
      && (!e.Prune? && LastOn(p, e.channel).Some? && LastOn(p, e.channel).value.Rtcp? ==>
            e.now - LastOn(p, e.channel).value.now <= o.channelTTL)
  }

  /** No prune carries a clock reading later than that of an event that takes effect after it. */
  ghost predicate PrunesInOrder(h: History) {
    forall i, j :: 0 <= i < j < |h| && h[i].Prune? && !h[j].Prune? ==> h[i].now <= h[j].now
  }

  ghost predicate Lawful(o: Options, h: History) {
    NoLongSilence(o, h) && PrunesInOrder(h)
  }

  lemma {:induction false} LawfulPrefix(o: Options, h: History, k: nat)
    requires k <= |h| && Lawful(o, h)
    ensures Lawful(o, h[..k])
  {
    if k < |h| {
      var p := h[..|h| - 1];
      LawfulPrefix(o, p, k);
      assert p[..k] == h[..k];
    } else {
      assert h[..k] == h;
    }
  }

  /** Nothing heard on `c` since some prune's cutoff. */
  ghost predicate Expired(o: Options, h: History, c: string) {
    LastOn(h, c).Some? &&
    exists i :: 0 <= i < |h| && h[i].Prune? && LastOn(h, c).value.now < h[i].now - o.channelTTL
  }

  lemma LastOnSnoc(h: History, e: Event, c: string)
    ensures LastOn(h + [e], c) == if OnChannel(e, c) then Some(e) else LastOn(h, c)
    ensures WithoutPrunes(h + [e]) == WithoutPrunes(h) + if e.Prune? then [] else [e]
  {
    assert (h + [e])[..|h|] == h;
  }

  /** A live entry was last touched by the channel's last event, an RTCP event. */
  lemma {:induction false} EntryLastSeen(o: Options, h: History, c: string)
    requires ChannelRun(o, h, c).Some?
    ensures LastOn(h, c).Some? && LastOn(h, c).value.Rtcp? && LastOn(h, c).value.now == ChannelRun(o, h, c).value.lastSeen
  {
    if h != [] {
      var p, e := h[..|h| - 1], h[|h| - 1];
      if !OnChannel(e, c) {
        EntryLastSeen(o, p, c);
      }
    }
  }

  /** With prunes a channel's entry is the one without them, or it is gone because it expired. */
  ghost predicate SameUnlessExpired(o: Options, h: History, c: string) {
    var pruned, kept := ChannelRun(o, h, c), ChannelRun(o, WithoutPrunes(h), c);
    pruned == kept || (pruned == None && Expired(o, h, c) && LastOn(h, c).value.Rtcp?)
  }

  /** At the next event on the channel of a lawful history, nothing has been lost to a prune. */
  lemma NotExpiredAtNextEvent(o: Options, h: History, e: Event)
    requires Lawful(o, h + [e]) && !e.Prune? && SameUnlessExpired(o, h, e.channel)
    ensures ChannelRun(o, h, e.channel) == ChannelRun(o, WithoutPrunes(h), e.channel)
  {
    var g, c := h + [e], e.channel;
    assert g[..|h|] == h && g[|h|] == e;
    assert forall i :: 0 <= i < |h| ==> g[i] == h[i];
    assert forall i :: 0 <= i < |h| && h[i].Prune? ==> h[i].now <= e.now;
  }

  lemma ExpiredSnoc(o: Options, h: History, e: Event, c: string)
    requires !OnChannel(e, c) && Expired(o, h, c)
    ensures Expired(o, h + [e], c)
  {
    LastOnSnoc(h, e, c);
    assert forall i :: 0 <= i < |h| ==> (h + [e])[i] == h[i];
  }

  lemma SameUnlessExpiredSnoc(o: Options, h: History, e: Event, c: string)
    requires Lawful(o, h + [e]) && SameUnlessExpired(o, h, c)
    ensures SameUnlessExpired(o, h + [e], c)
  {
    ChannelSnoc(o, h, e, c);
    LastOnSnoc(h, e, c);
    if !OnChannel(e, c) && Expired(o, h, c) {
      ExpiredSnoc(o, h, e, c);
    }
    if e.Prune? {
      assert WithoutPrunes(h + [e]) == WithoutPrunes(h);
      if ChannelRun(o, h, c).Some? {
        EntryLastSeen(o, h, c);
        assert (h + [e])[|h|] == e;
      }
    } else {
      ChannelSnoc(o, WithoutPrunes(h), e, c);
      if e.channel == c {
        NotExpiredAtNextEvent(o, h, e);
      }
    }
  }

  lemma {:induction false} EntriesSurvive(o: Options, h: History, c: string)
    requires Lawful(o, h)
    ensures SameUnlessExpired(o, h, c)
  {
    if h != [] {
      var p, e := h[..|h| - 1], h[|h| - 1];
      assert h == p + [e];
      LawfulPrefix(o, h, |p|);
      EntriesSurvive(o, p, c);
      SameUnlessExpiredSnoc(o, p, e, c);
    }
  }

  predicate SameVerdicts(s: State, t: State) {
    s.noInbound == t.noInbound && s.noOutbound == t.noOutbound
  }

  /** The verdict counters move with the entry of the channel that hangs up, and only then. */
  lemma StepKeepsSameVerdicts(o: Options, s: State, t: State, e: Event)
    requires SameVerdicts(s, t)
    requires !e.Prune? && e.channel != "" ==> Entry(s.table, e.channel) == Entry(t.table, e.channel)
    ensures SameVerdicts(Step(o, s, e), Step(o, t, e))
    ensures e.Prune? ==> SameVerdicts(Step(o, s, e), t)
  {
  }

  /**
   * Pruning changes no verdict: in a lawful history the counters are those of the same events
   * without any prune, although the table may have lost channels that are not heard again.
   */
  lemma {:induction false} PrunesInvisible(o: Options, h: History)
    requires Lawful(o, h)
    ensures SameVerdicts(Run(o, h), Run(o, WithoutPrunes(h)))
  {
    if h != [] {
      var p, e := h[..|h| - 1], h[|h| - 1];
      assert h == p + [e];
      LawfulPrefix(o, h, |p|);
      PrunesInvisible(o, p);
      LastOnSnoc(p, e, "");
      if !e.Prune? && e.channel != "" {
        EntriesSurvive(o, p, e.channel);
        NotExpiredAtNextEvent(o, p, e);
        EntryIsChannelRun(o, p, e.channel);
        EntryIsChannelRun(o, WithoutPrunes(p), e.channel);
      }
      StepKeepsSameVerdicts(o, Run(o, p), Run(o, WithoutPrunes(p)), e);
      if e.Prune? {
        assert WithoutPrunes(h) == WithoutPrunes(p);
      } else {
        RunSnoc(o, WithoutPrunes(p), e);
      }
    }
  }

  /** The same after every prefix, and between any two ways of placing prunes among the same events. */
  lemma PrunePlacementIrrelevant(o: Options, g: History, h: History, j: nat, k: nat)
    requires Lawful(o, g) && Lawful(o, h) && j <= |g| && k <= |h|
    requires WithoutPrunes(g[..j]) == WithoutPrunes(h[..k])
    ensures SameVerdicts(Run(o, g[..j]), Run(o, h[..k]))
  {
    LawfulPrefix(o, g, j);
    LawfulPrefix(o, h, k);
    PrunesInvisible(o, g[..j]);
    PrunesInvisible(o, h[..k]);
  }

  predicate SameTotals(s: State, t: State) {
    s.sentTotal == t.sentTotal && s.receivedTotal == t.receivedTotal && s.loss == t.loss
  }

  lemma StepKeepsSameTotals(o: Options, s: State, t: State, e: Event)
    requires SameTotals(s, t)
    ensures SameTotals(Step(o, s, e), Step(o, t, e))
    ensures e.Prune? ==> SameTotals(Step(o, s, e), t)
  {
  }

  /** Event counters and loss gauges never depend on prunes. */
  lemma {:induction false} PrunesKeepTotals(o: Options, h: History)
    ensures SameTotals(Run(o, h), Run(o, WithoutPrunes(h)))
  {
    if h != [] {
      var p, e := h[..|h| - 1], h[|h| - 1];
      assert h == p + [e];
      PrunesKeepTotals(o, p);
      LastOnSnoc(p, e, "");
      StepKeepsSameTotals(o, Run(o, p), Run(o, WithoutPrunes(p)), e);
      if e.Prune? {
        assert WithoutPrunes(h) == WithoutPrunes(p);
      } else {
        RunSnoc(o, WithoutPrunes(p), e);
      }
    }
  }

  // ---------------------------------------------------------------- neither condition can be dropped

  lemma RunOfOne(o: Options, e: Event)
    ensures Run(o, [e]) == Step(o, EMPTY, e)
  {
    RunSnoc(o, [], e);
    assert [] + [e] == [e];
  }

  lemma RunOfThree(o: Options, a: Event, b: Event, c: Event)
    ensures Run(o, [a, b]) == Step(o, Step(o, EMPTY, a), b)
    ensures Run(o, [a, b, c]) == Step(o, Step(o, Step(o, EMPTY, a), b), c)
  {
    RunOfOne(o, a);
    RunSnoc(o, [a], b);
    RunSnoc(o, [a, b], c);
    assert [a] + [b] == [a, b] && [a, b] + [c] == [a, b, c];
  }

  lemma WithoutPruneBetween(a: Event, p: Event, b: Event)
    requires !a.Prune? && p.Prune? && !b.Prune?
    ensures WithoutPrunes([a, p, b]) == [a, b]
  {
    assert [] + [a] == [a] && [a] + [p] == [a, p] && [a, p] + [b] == [a, p, b];
    LastOnSnoc([], a, "");
    LastOnSnoc([a], p, "");
    LastOnSnoc([a, p], b, "");
  }

  /** A silence longer than the TTL loses a verdict, for any settings: the clock is in order here. */
  lemma LongSilenceLosesVerdict(o: Options, c: string, hangup: int)
    requires c != "" && o.channelTTL >= 0 && hangup >= o.minCall && hangup > o.channelTTL
    ensures var h := [Rtcp(c, Sent, None, 0), Prune(hangup), Hangup(c, hangup)];
            && PrunesInOrder(h)
            && Run(o, h).noInbound == 0
            && Run(o, WithoutPrunes(h)).noInbound == 1
  {
    var a, p, b := Rtcp(c, Sent, None, 0), Prune(hangup), Hangup(c, hangup);
    WithoutPruneBetween(a, p, b);
    RunOfThree(o, a, p, b);
    RunOfThree(o, a, b, b);
  }

  /** A long silence can also invent one: only the second half of a two-way call is remembered. */
  lemma LongSilenceInventsVerdict(o: Options, c: string, later: int)
    requires c != "" && o.channelTTL >= 0 && o.minCall >= 0 && later > o.channelTTL
    ensures var h := [Rtcp(c, Received, None, 0), Prune(later), Rtcp(c, Sent, None, later)];
            var g := Hangup(c, later + o.minCall);
            && PrunesInOrder(h + [g])
            && Run(o, h + [g]).noInbound == 1
            && Run(o, WithoutPrunes(h + [g])).noInbound == 0
  {
    var a, p, b, g := Rtcp(c, Received, None, 0), Prune(later), Rtcp(c, Sent, None, later), Hangup(c, later + o.minCall);
    RunOfThree(o, a, p, b);
    RunSnoc(o, [a, p, b], g);
    WithoutPruneBetween(a, p, b);
    LastOnSnoc([a, p, b], g, c);
    RunOfThree(o, a, b, g);
    assert [a, b] + [g] == [a, b, g];
  }

  /**
   * The clock is read before the lock is taken. A prune that reads it after a hangup did but
   * gets the lock first can lose the verdict, though the channel was never silent too long.
   */
  lemma PruneOvertakingLosesVerdict(o: Options, c: string)
    requires c != "" && o.channelTTL >= 0 && o.channelTTL >= o.minCall
    ensures var h := [Rtcp(c, Sent, None, 0), Prune(o.channelTTL + 1), Hangup(c, o.channelTTL)];
            && NoLongSilence(o, h) && !PrunesInOrder(h)
            && Run(o, h).noInbound == 0
            && Run(o, WithoutPrunes(h)).noInbound == 1
  {
    var a, p, b := Rtcp(c, Sent, None, 0), Prune(o.channelTTL + 1), Hangup(c, o.channelTTL);
    var h := [a, p, b];
    assert h[1].Prune? && !h[2].Prune?;
    assert h[..2] == [a, p] && [a, p][..1] == [a] && [a][..0] == [];
    assert LastOn([a, p], c) == Some(a);
    assert NoLongSilence(o, [a]) && NoLongSilence(o, [a, p]);
    WithoutPruneBetween(a, p, b);
    RunOfThree(o, a, p, b);
    RunOfThree(o, a, b, b);
  }

  // ---------------------------------------------------------------- the size of the table

  /** The channels with an RTCP event whose reading lies in the window [from, to]. */
  function HeardWithin(h: History, from: int, to: int): set<string> {
    set e | e in h && e.Rtcp? && e.channel != "" && from <= e.now <= to :: e.channel
  }

  lemma {:induction false} LiveWasHeard(o: Options, h: History, c: string)
    requires c in Run(o, h).table
    ensures exists i: nat :: HeardOpen(o, h, c, i) && h[i].now == Run(o, h).table[c].lastSeen
  {
    TableHasOnlyNames(o, h);
    TableIsOpenSessions(o, h, c);
    LiveExactlyIfHeardSinceClosed(o, h, c);
    OpenSessionHeard(o, h, c);
    LastHeardAt(h, c);
    var i: nat :| i < |h| && IsRtcpOn(h[i], c) && h[i].now == LastHeard(h, c).value &&
                  forall k :: i < k < |h| ==> !IsRtcpOn(h[k], c);
    var k: nat :| HeardOpen(o, h, c, k);
    assert k <= i;
    assert HeardOpen(o, h, c, i);
  }

  lemma {:induction false} LastHeardAt(h: History, c: string)
    requires LastHeard(h, c).Some?
    ensures exists i: nat :: i < |h| && IsRtcpOn(h[i], c) && h[i].now == LastHeard(h, c).value &&
              forall k :: i < k < |h| ==> !IsRtcpOn(h[k], c)
  {
    var p, e := h[..|h| - 1], h[|h| - 1];
    if IsRtcpOn(e, c) {
      assert IsRtcpOn(h[|h| - 1], c);
    } else {
      LastHeardAt(p, c);
      var i: nat :| i < |p| && IsRtcpOn(p[i], c) && p[i].now == LastHeard(p, c).value &&
                    forall k :: i < k < |p| ==> !IsRtcpOn(p[k], c);
      assert IsRtcpOn(h[i], c) && forall k :: i < k < |p| ==> h[k] == p[k];
    }
  }

  /**
   * Right after a prune, every channel left was heard within the last TTL, with nothing that
   * closes it since, so the table is no larger than the set of channels heard in that window.
   */
  lemma TableBound(o: Options, h: History, now: int)
    requires forall e :: e in h ==> e.now <= now
    ensures var g := h + [Prune(now)];
            && (forall c :: c in Run(o, g).table ==>
                  exists i: nat :: HeardOpen(o, g, c, i) && now - o.channelTTL <= g[i].now <= now)
            && Run(o, g).table.Keys <= HeardWithin(h, now - o.channelTTL, now)
            && |Run(o, g).table| <= |HeardWithin(h, now - o.channelTTL, now)|
  {
    var g := h + [Prune(now)];
    RunSnoc(o, h, Prune(now));
    forall c | c in Run(o, g).table
      ensures exists i: nat :: HeardOpen(o, g, c, i) && now - o.channelTTL <= g[i].now <= now
      ensures c in HeardWithin(h, now - o.channelTTL, now)
    {
      TableHasOnlyNames(o, g);
      LiveWasHeard(o, g, c);
      var i: nat :| HeardOpen(o, g, c, i) && g[i].now == Run(o, g).table[c].lastSeen;
      assert i < |h| && g[i] == h[i] && h[i] in h;
    }
    SubsetSize(Run(o, g).table.Keys, HeardWithin(h, now - o.channelTTL, now));
    assert |Run(o, g).table| == |Run(o, g).table.Keys|;
  }

  lemma {:induction false} SubsetSize(a: set<string>, b: set<string>)
    requires a <= b
    ensures |a| <= |b|
  {
    if a != {} {
      var x :| x in a;
      SubsetSize(a - {x}, b - {x});
    }
  }
}
