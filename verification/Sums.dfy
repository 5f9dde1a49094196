/** Sums of a function over a finite set of names. */
module Sums {

  ghost function Sum(s: set<string>, f: string -> nat): nat {
    if s == {} then 0
    else
      var x :| x in s;
      f(x) + Sum(s - {x}, f)
  }

  lemma {:induction false} SumWithout(s: set<string>, f: string -> nat, x: string)
    requires x in s
    ensures Sum(s, f) == f(x) + Sum(s - {x}, f)
  {
    var y :| y in s && Sum(s, f) == f(y) + Sum(s - {y}, f);
    if y != x {
      SumWithout(s - {y}, f, x);
      SumWithout(s - {x}, f, y);
      assert s - {y} - {x} == s - {x} - {y};
    }
  }

  lemma {:induction false} SumSame(s: set<string>, f: string -> nat, g: string -> nat)
    requires forall x :: x in s ==> f(x) == g(x)
    ensures Sum(s, f) == Sum(s, g)
  {
    if s != {} {
      var x :| x in s;
      SumWithout(s, f, x);
      SumWithout(s, g, x);
      SumSame(s - {x}, f, g);
    }
  }

  /** Changing one summand changes the sum by as much. */
  lemma SumChanged(s: set<string>, f: string -> nat, g: string -> nat, x: string)
    requires x in s && forall y :: y in s && y != x ==> f(y) == g(y)
    ensures Sum(s, g) + f(x) == Sum(s, f) + g(x)
  {
    SumWithout(s, f, x);
    SumWithout(s, g, x);
    SumSame(s - {x}, f, g);
  }

  /** Names that count nothing may be left out. */
  lemma {:induction false} SumSupport(s: set<string>, t: set<string>, f: string -> nat)
    requires t <= s && forall x :: x in s && x !in t ==> f(x) == 0
    ensures Sum(s, f) == Sum(t, f)
    decreases s - t
  {
    if s == t {
    } else {
      var x :| x in s && x !in t;
      SumWithout(s, f, x);
      assert s - {x} - t < s - t by {
        assert x in s - t && x !in s - {x} - t;
      }
      SumSupport(s - {x}, t, f);
    }
  }

  lemma {:induction false} SumPlus(s: set<string>, f: string -> nat, g: string -> nat, h: string -> nat)
    requires forall x :: x in s ==> h(x) == f(x) + g(x)
    ensures Sum(s, h) == Sum(s, f) + Sum(s, g)
  {
    if s != {} {
      var x :| x in s;
      SumWithout(s, f, x);
      SumWithout(s, g, x);
      SumWithout(s, h, x);
      SumPlus(s - {x}, f, g, h);
    }
  }

  lemma {:induction false} SumZero(s: set<string>, f: string -> nat)
    requires forall x :: x in s ==> f(x) == 0
    ensures Sum(s, f) == 0
  {
    if s != {} {
      var x :| x in s;
      SumWithout(s, f, x);
      SumZero(s - {x}, f);
    }
  }
}
