/** Counting by key, as the scrape phases group list rows: a count per key, whatever the order. */
module Grouping {
  import opened Sums

  type Counts = map<string, nat>

  function Count(counts: Counts, k: string): nat {
    if k in counts then counts[k] else 0
  }

  function AddOne(counts: Counts, k: string): Counts {
    counts[k := Count(counts, k) + 1]
  }

  function CountBy(keys: seq<string>): Counts {
    if keys == [] then map[] else AddOne(CountBy(keys[..|keys| - 1]), keys[|keys| - 1])
  }

  lemma CountBySnoc(keys: seq<string>, k: string)
    ensures CountBy(keys + [k]) == AddOne(CountBy(keys), k)
  {
    assert (keys + [k])[..|keys|] == keys;
  }

  /** Each key is counted as often as it occurs, and only keys that occur are counted. */
  lemma {:induction false} CountByIs(keys: seq<string>, k: string)
    ensures Count(CountBy(keys), k) == multiset(keys)[k]
    ensures k in CountBy(keys) <==> k in keys
  {
    if keys != [] {
      var p := keys[..|keys| - 1];
      assert keys == p + [keys[|keys| - 1]];
      CountByIs(p, k);
    }
  }

  ghost function Total(counts: Counts): nat {
    Sum(counts.Keys, k => Count(counts, k))
  }

  lemma TotalAddOne(counts: Counts, k: string)
    ensures Total(AddOne(counts, k)) == Total(counts) + 1
  {
    var more := AddOne(counts, k);
    var f, g := x => Count(counts, x), x => Count(more, x);
    var names := counts.Keys + {k};
    SumSupport(names, counts.Keys, f);
    assert more.Keys == names;
    SumChanged(names, f, g, k);
  }

  /** The counts add up to the number of rows. */
  lemma {:induction false} CountByTotal(keys: seq<string>)
    ensures Total(CountBy(keys)) == |keys|
  {
    if keys == [] {
      SumZero({}, k => Count(map[], k));
    } else {
      CountByTotal(keys[..|keys| - 1]);
      TotalAddOne(CountBy(keys[..|keys| - 1]), keys[|keys| - 1]);
    }
  }

  /** Reordering the rows changes no count. */
  lemma CountByOrderless(a: seq<string>, b: seq<string>)
    requires multiset(a) == multiset(b)
    ensures CountBy(a) == CountBy(b)
  {
    var m, n := CountBy(a), CountBy(b);
    forall k ensures Count(m, k) == Count(n, k) && (k in m <==> k in n) {
      CountByIs(a, k);
      CountByIs(b, k);
      assert k in a <==> k in multiset(a);
      assert k in b <==> k in multiset(b);
    }
    forall k | k in m ensures m[k] == n[k] {
      assert Count(m, k) == Count(n, k);
    }
  }

  function Map<S, T>(f: S -> T, xs: seq<S>): (r: seq<T>)
    ensures |r| == |xs| && forall i :: 0 <= i < |xs| ==> r[i] == f(xs[i])
  {
    if xs == [] then [] else Map(f, xs[..|xs| - 1]) + [f(xs[|xs| - 1])]
  }

  lemma MapSnoc<S, T>(f: S -> T, xs: seq<S>, x: S)
    ensures Map(f, xs + [x]) == Map(f, xs) + [f(x)]
  {
    assert (xs + [x])[..|xs|] == xs;
  }

  lemma {:induction false} MapSplit<S, T>(f: S -> T, a: seq<S>, b: seq<S>)
    ensures Map(f, a + b) == Map(f, a) + Map(f, b)
  {
  }

  lemma MapMiddle<S, T>(f: S -> T, l: seq<S>, x: S, r: seq<S>)
    ensures multiset(Map(f, l + [x] + r)) == multiset(Map(f, l + r)) + multiset{f(x)}
  {
    MapSplit(f, l + [x], r);
    MapSnoc(f, l, x);
    MapSplit(f, l, r);
  }

  lemma TakeOut<S>(b: seq<S>, x: S) returns (l: seq<S>, r: seq<S>)
    requires x in b
    ensures b == l + [x] + r && multiset(b) == multiset(l + r) + multiset{x}
  {
    var i :| 0 <= i < |b| && b[i] == x;
    l, r := b[..i], b[i + 1..];
    assert b == l + [x] + r;
  }

  lemma SameLength<S>(a: seq<S>, b: seq<S>)
    requires multiset(a) == multiset(b)
    ensures |a| == |b|
  {
    assert |a| == |multiset(a)| && |b| == |multiset(b)|;
  }

  /** With the last row of `a` taken out of `b`, the rest of `b` is a reordering of the rest of `a`. */
  lemma TakeOutLast<S>(a: seq<S>, b: seq<S>) returns (l: seq<S>, r: seq<S>)
    requires a != [] && multiset(a) == multiset(b)
    ensures b == l + [a[|a| - 1]] + r && multiset(a[..|a| - 1]) == multiset(l + r)
  {
    var p, x := a[..|a| - 1], a[|a| - 1];
    assert a == p + [x];
    assert x in multiset(b);
    l, r := TakeOut(b, x);
    assert multiset(p) == multiset(a) - multiset{x};
  }

  /** Reordering rows reorders what is read off them. */
  lemma {:induction false} MapOrderless<S, T>(f: S -> T, a: seq<S>, b: seq<S>)
    requires multiset(a) == multiset(b)
    ensures multiset(Map(f, a)) == multiset(Map(f, b))
    decreases |a|
  {
    SameLength(a, b);
    if a != [] {
      var p, x := a[..|a| - 1], a[|a| - 1];
      var l, r := TakeOutLast(a, b);
      MapOrderless(f, p, l + r);
      assert Map(f, a) == Map(f, p) + [f(x)];
      MapMiddle(f, l, x, r);
    }
  }

  /** The strings that are not empty. */
  function NonEmpty(ids: seq<string>): set<string> {
    set id | id in ids && id != ""
  }

  lemma {:induction false} NonEmptyAtMost(ids: seq<string>)
    ensures |NonEmpty(ids)| <= |ids|
  {
    if ids != [] {
      var p, id := ids[..|ids| - 1], ids[|ids| - 1];
      assert ids == p + [id];
      NonEmptyAtMost(p);
      if id == "" {
        assert NonEmpty(ids) == NonEmpty(p);
      } else {
        assert NonEmpty(ids) == NonEmpty(p) + {id};
      }
    }
  }
}
