/** Sums of a function over a finite set. */
module Sums {

  ghost function SumOver<T(!new)>(s: set<T>, f: T -> nat): nat {
    if s == {} then 0
    else
      var x :| x in s;
      f(x) + SumOver(s - {x}, f)
  }

  lemma {:induction false} SumAdd<T(!new)>(s: set<T>, x: T, f: T -> nat)
    requires x !in s
    ensures SumOver(s + {x}, f) == SumOver(s, f) + f(x)
    decreases s
  {
    var t := s + {x};
    var y :| y in t && SumOver(t, f) == f(y) + SumOver(t - {y}, f);
    if y == x {
      assert t - {x} == s;
    } else {
      assert t - {y} == (s - {y}) + {x};
      SumAdd(s - {y}, x, f);
      SumAdd(s - {y}, y, f);
      assert (s - {y}) + {y} == s;
    }
  }

  lemma {:induction false} SumUnion<T(!new)>(s: set<T>, t: set<T>, f: T -> nat)
    requires s !! t
    ensures SumOver(s + t, f) == SumOver(s, f) + SumOver(t, f)
    decreases t
  {
    if t == {} {
      assert s + t == s;
    } else {
      var x :| x in t;
      SumUnion(s, t - {x}, f);
      SumAdd(t - {x}, x, f);
      SumAdd(s + (t - {x}), x, f);
      assert (t - {x}) + {x} == t;
      assert (s + (t - {x})) + {x} == s + t;
    }
  }

  lemma SumSubset<T(!new)>(s: set<T>, t: set<T>, f: T -> nat)
    requires s <= t
    ensures SumOver(s, f) <= SumOver(t, f)
  {
    SumUnion(s, t - s, f);
    assert s + (t - s) == t;
  }

  lemma {:induction false} SumCongruent<T(!new)>(s: set<T>, f: T -> nat, g: T -> nat)
    requires forall x :: x in s ==> f(x) == g(x)
    ensures SumOver(s, f) == SumOver(s, g)
    decreases s
  {
    if s == {} {
    } else {
      var x :| x in s;
      SumCongruent(s - {x}, f, g);
      SumAdd(s - {x}, x, f);
      SumAdd(s - {x}, x, g);
      assert (s - {x}) + {x} == s;
    }
  }

  /** The entry of a map, absent entries reading as zero. */
  function ValueIn<T>(m: map<T, nat>): T -> nat { x => if x in m then m[x] else 0 }

  ghost function Total<T(!new)>(m: map<T, nat>): nat { SumOver(m.Keys, ValueIn(m)) }

  /** Overwriting one entry changes the total by the difference. */
  lemma TotalUpdate<T(!new)>(m: map<T, nat>, x: T, v: nat)
    ensures Total(m[x := v]) + ValueIn(m)(x) == Total(m) + v
  {
    var m', rest := m[x := v], m.Keys - {x};
    assert m'.Keys == rest + {x};
    SumAdd(rest, x, ValueIn(m'));
    SumCongruent(rest, ValueIn(m'), ValueIn(m));
    if x in m {
      assert m.Keys == rest + {x};
      SumAdd(rest, x, ValueIn(m));
    } else {
      assert m.Keys == rest;
    }
  }

  /** Sums respect pointwise addition. */
  lemma {:induction false} SumPlus<T(!new)>(s: set<T>, f: T -> nat, g: T -> nat, h: T -> nat)
    requires forall x :: x in s ==> f(x) + g(x) == h(x)
    ensures SumOver(s, f) + SumOver(s, g) == SumOver(s, h)
    decreases s
  {
    if s == {} {
    } else {
      var x :| x in s;
      SumPlus(s - {x}, f, g, h);
      SumAdd(s - {x}, x, f);
      SumAdd(s - {x}, x, g);
      SumAdd(s - {x}, x, h);
      assert (s - {x}) + {x} == s;
    }
  }
}
