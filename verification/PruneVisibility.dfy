/**
 * Exactly when pruning can change a verdict. With prunes, a session is remembered only from
 * some silence longer than the TTL on, and every such silence is one a prune can cut at.
 */
module PruneVisibility {
  import opened Aggregators
  import opened Sessions
  import opened Pruning

  /** Event `s - 1` of a session is followed by a silence longer than the TTL; `at` ends the last one. */
  ghost predicate LongSilence(o: Options, es: seq<Event>, s: nat, at: int) {
    0 < s <= |es| && (if s < |es| then es[s].now else at) - es[s - 1].now > o.channelTTL
  }

  ghost predicate NonDecreasing(h: History) {
    forall i, j :: 0 <= i < j < |h| ==> h[i].now <= h[j].now
  }

  /** What a run with prunes remembers of a session: its part behind event `s - 1`. */
  ghost predicate RemembersFrom(o: Options, g: History, c: string, s: nat) {
    var es := OpenSession(o, WithoutPrunes(g), c);
    && s <= |es|
    && ChannelRun(o, g, c) == Summary(es[s..])
    && (0 < s < |es| ==> LongSilence(o, es, s, 0))
    && (0 < s == |es| ==> exists i :: 0 <= i < |g| && g[i].Prune? && es[s - 1].now < g[i].now - o.channelTTL)
  }

  lemma {:induction false} PrunesInOrderPrefix(g: History, e: Event)
    requires PrunesInOrder(g + [e])
    ensures PrunesInOrder(g)
    ensures !e.Prune? ==> forall i :: 0 <= i < |g| && g[i].Prune? ==> g[i].now <= e.now
  {
    var f := g + [e];
    assert forall i :: 0 <= i < |g| ==> f[i] == g[i];
    assert f[|g|] == e;
  }

  lemma RemembersAfterPrune(o: Options, g: History, e: Event, c: string, s: nat) returns (s': nat)
    requires e.Prune? && RemembersFrom(o, g, c, s)
    ensures RemembersFrom(o, g + [e], c, s')
  {
    var f := g + [e];
    var es := OpenSession(o, WithoutPrunes(g), c);
    ChannelSnoc(o, g, e, c);
    LastOnSnoc(g, e, c);
    assert WithoutPrunes(f) == WithoutPrunes(g);
    assert f[|g|] == e && forall i :: 0 <= i < |g| ==> f[i] == g[i];
    if ChannelRun(o, g, c).Some? && Stale(o, ChannelRun(o, g, c).value, e.now) {
      s' := |es|;
      assert es[s'..] == [];
    } else {
      s' := s;
    }
  }

  lemma RemembersAfterRtcp(o: Options, g: History, e: Event, c: string, s: nat)
    requires IsRtcpOn(e, c) && PrunesInOrder(g + [e]) && RemembersFrom(o, g, c, s)
    ensures RemembersFrom(o, g + [e], c, s)
  {
    var es := OpenSession(o, WithoutPrunes(g), c);
    PrunesInOrderPrefix(g, e);
    ChannelSnoc(o, g, e, c);
    LastOnSnoc(g, e, c);
    OpenSessionSnoc(o, WithoutPrunes(g), e, c);
    SummarySnoc(es[s..], e);
    assert (es + [e])[s..] == es[s..] + [e];
  }

  lemma RemembersAfterOther(o: Options, g: History, e: Event, c: string, s: nat) returns (s': nat)
    requires !e.Prune? && !IsRtcpOn(e, c) && RemembersFrom(o, g, c, s)
    ensures RemembersFrom(o, g + [e], c, s')
  {
    var f := g + [e];
    ChannelSnoc(o, g, e, c);
    LastOnSnoc(g, e, c);
    OpenSessionSnoc(o, WithoutPrunes(g), e, c);
    assert forall i :: 0 <= i < |g| ==> f[i] == g[i];
    s' := if e.Hangup? && e.channel == c then 0 else s;
  }

  lemma {:induction false} PrunedSession(o: Options, g: History, c: string) returns (s: nat)
    requires PrunesInOrder(g)
    ensures RemembersFrom(o, g, c, s)
  {
    if g == [] {
      s := 0;
    } else {
      var p, e := g[..|g| - 1], g[|g| - 1];
      assert g == p + [e];
      PrunesInOrderPrefix(p, e);
      var t := PrunedSession(o, p, c);
      if e.Prune? {
        s := RemembersAfterPrune(o, p, e, c, t);
      } else if IsRtcpOn(e, c) {
        RemembersAfterRtcp(o, p, e, c, t);
        s := t;
      } else {
        s := RemembersAfterOther(o, p, e, c, t);
      }
    }
  }

  /** Every long silence of a session can be cut at: a history with one prune that forgets what was before it. */
  lemma {:induction false} CutAtSilence(o: Options, h: History, c: string, s: nat, at: int) returns (g: History)
    requires WithoutPrunes(h) == h && NonDecreasing(h + [Hangup(c, at)])
    requires LongSilence(o, OpenSession(o, h, c), s, at)
    ensures WithoutPrunes(g) == h && PrunesInOrder(g + [Hangup(c, at)])
    ensures ChannelRun(o, g, c) == Summary(OpenSession(o, h, c)[s..])
    decreases |h|
  {
    if s == |OpenSession(o, h, c)| {
      g := h + [Prune(at)];
      CutAtEnd(o, h, c, at);
    } else {
      var p, e := h[..|h| - 1], h[|h| - 1];
      assert h == p + [e];
      PruneFreeSnoc(p, e);
      OpenSessionSnoc(o, p, e, c);
      NonDecreasingPrefix(p, e, Hangup(c, at), Hangup(c, e.now));
      var f := CutAtSilence(o, p, c, s, e.now);
      g := f + [e];
      CutKept(o, f, p, e, c, s);
      PrunesInOrderExtend(f, Hangup(c, e.now), e, Hangup(c, at));
    }
  }

  lemma CutAtEnd(o: Options, h: History, c: string, at: int)
    requires WithoutPrunes(h) == h
    requires LongSilence(o, OpenSession(o, h, c), |OpenSession(o, h, c)|, at)
    ensures var g := h + [Prune(at)];
            && WithoutPrunes(g) == h && PrunesInOrder(g + [Hangup(c, at)])
            && ChannelRun(o, g, c) == Summary([])
  {
    ChannelRunIsSession(o, h, c);
    ChannelSnoc(o, h, Prune(at), c);
    LastOnSnoc(h, Prune(at), c);
    assert WithoutPrunes(h + [Prune(at)]) == h + [];
    NoPrunes(h);
    OnePruneInOrder(h, Prune(at), Hangup(c, at));
  }

  lemma OnePruneInOrder(h: History, e: Event, next: Event)
    requires (forall x :: x in h ==> !x.Prune?) && e.now <= next.now
    ensures PrunesInOrder(h + [e] + [next])
  {
    var f := h + [e] + [next];
    assert forall i :: 0 <= i < |h| ==> f[i] == h[i] && h[i] in h;
    assert f[|h|] == e && f[|h| + 1] == next;
  }

  /** One event more behind a cut keeps what the cut history remembers. */
  lemma CutKept(o: Options, f: History, p: History, e: Event, c: string, s: nat)
    requires !e.Prune? && WithoutPrunes(f) == p
    requires s <= |OpenSession(o, p, c)| && s < |OpenSession(o, p + [e], c)|
    requires ChannelRun(o, f, c) == Summary(OpenSession(o, p, c)[s..])
    ensures WithoutPrunes(f + [e]) == p + [e]
    ensures ChannelRun(o, f + [e], c) == Summary(OpenSession(o, p + [e], c)[s..])
  {
    var es := OpenSession(o, p, c);
    LastOnSnoc(f, e, c);
    ChannelSnoc(o, f, e, c);
    OpenSessionSnoc(o, p, e, c);
    if IsRtcpOn(e, c) {
      SummarySnoc(es[s..], e);
      assert OpenSession(o, p + [e], c) == es + [e];
      assert (es + [e])[s..] == es[s..] + [e];
    } else {
      assert OpenSession(o, p + [e], c) == es;
    }
  }

  lemma {:induction false} NoPrunes(h: History)
    requires WithoutPrunes(h) == h
    ensures forall e :: e in h ==> !e.Prune?
  {
    WithoutPrunesNone(h);
  }

  lemma {:induction false} WithoutPrunesNone(h: History)
    ensures forall e :: e in WithoutPrunes(h) ==> !e.Prune?
    ensures |WithoutPrunes(h)| <= |h|
  {
    if h != [] {
      WithoutPrunesNone(h[..|h| - 1]);
    }
  }

  lemma PruneFreeSnoc(p: History, e: Event)
    requires WithoutPrunes(p + [e]) == p + [e]
    ensures WithoutPrunes(p) == p && !e.Prune?
  {
    LastOnSnoc(p, e, "");
    WithoutPrunesNone(p + [e]);
    WithoutPrunesNone(p);
    assert (p + [e])[|p|] == e;
    var w := WithoutPrunes(p);
    assert w == (w + [e])[..|w|] == (p + [e])[..|p|] == p;
  }

  lemma NonDecreasingPrefix(p: History, e: Event, next: Event, e': Event)
    requires NonDecreasing(p + [e] + [next]) && e'.now == e.now
    ensures NonDecreasing(p + [e']) && e.now <= next.now
  {
    var f := p + [e] + [next];
    assert forall i :: 0 <= i < |p| ==> f[i] == (p + [e'])[i];
    assert f[|p|] == e && f[|p| + 1] == next;
  }

  lemma PrunesInOrderExtend(f: History, e': Event, e: Event, next: Event)
    requires PrunesInOrder(f + [e']) && !e'.Prune? && !e.Prune? && !next.Prune?
    requires e.now == e'.now && e.now <= next.now
    ensures PrunesInOrder(f + [e] + [next])
  {
    PrunesInOrderPrefix(f, e');
    var g := f + [e] + [next];
    assert forall i :: 0 <= i < |f| ==> g[i] == f[i];
    assert g[|f|] == e && g[|f| + 1] == next;
  }

  /** `g` is `h` with prunes placed in clock order, a hangup of `c` at `at` being next. */
  ghost predicate Placement(g: History, h: History, c: string, at: int) {
    WithoutPrunes(g) == h && PrunesInOrder(g + [Hangup(c, at)])
  }

  /** Such a placement after which only `rest` of the session of `c` is remembered. */
  ghost predicate CutBy(o: Options, g: History, h: History, c: string, at: int, rest: seq<Event>) {
    Placement(g, h, c, at) && Entry(Run(o, g).table, c) == Summary(rest)
  }

  /**
   * For a history without prunes and a hangup behind it: prunes placed in clock order never
   * change the hangup's verdict if and only if, at every long silence of the session it
   * closes, the part behind the silence deserves the same verdict as the whole session.
   */
  lemma PruneVisibleExactly(o: Options, h: History, c: string, at: int)
    requires c != "" && WithoutPrunes(h) == h && NonDecreasing(h + [Hangup(c, at)])
    ensures
      (forall g :: Placement(g, h, c, at) ==>
         VerdictOn(o, Entry(Run(o, g).table, c), at) == VerdictOn(o, Entry(Run(o, h).table, c), at))
      <==>
      (forall s: nat :: LongSilence(o, OpenSession(o, h, c), s, at) ==>
         VerdictOn(o, Summary(OpenSession(o, h, c)[s..]), at) == VerdictOn(o, Summary(OpenSession(o, h, c)), at))
  {
    var es := OpenSession(o, h, c);
    TableIsOpenSessions(o, h, c);
    forall s: nat | LongSilence(o, es, s, at)
      ensures exists g :: CutBy(o, g, h, c, at, es[s..])
    {
      var g := CutAtSilence(o, h, c, s, at);
      EntryIsChannelRun(o, g, c);
      assert CutBy(o, g, h, c, at, es[s..]);
    }
    forall g | Placement(g, h, c, at)
      ensures exists s: nat :: s <= |es| && Entry(Run(o, g).table, c) == Summary(es[s..]) &&
                (s == 0 || LongSilence(o, es, s, at))
    {
      PrunesInOrderPrefix(g, Hangup(c, at));
      var s := PrunedSession(o, g, c);
      EntryIsChannelRun(o, g, c);
    }
    assert es[0..] == es;
  }
}
