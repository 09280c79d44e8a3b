/** Sums over finite sets. */
module Sums {

  ghost function Sum<T(!new)>(s: set<T>, f: T -> int): int {
    if s == {} then 0 else
    var x :| x in s;
    f(x) + Sum(s - {x}, f)
  }

  /** The sum does not depend on the order in which elements are taken. */
  lemma {:induction false} SumRemove<T(!new)>(s: set<T>, f: T -> int, x: T)
    requires x in s
    ensures Sum(s, f) == f(x) + Sum(s - {x}, f)
  {
    var y :| y in s && Sum(s, f) == f(y) + Sum(s - {y}, f);
    if y != x {
      SumRemove(s - {y}, f, x);
      SumRemove(s - {x}, f, y);
      assert s - {y} - {x} == s - {x} - {y};
    }
  }

  lemma SumAdd<T(!new)>(s: set<T>, f: T -> int, x: T)
    ensures Sum(s + {x}, f) == Sum(s, f) + if x in s then 0 else f(x)
  {
    if x in s {
      assert s + {x} == s;
    } else {
      SumRemove(s + {x}, f, x);
      assert s + {x} - {x} == s;
    }
  }

  lemma {:induction false} SumMonotone<T(!new)>(s: set<T>, t: set<T>, f: T -> int)
    requires s <= t && forall x <- t :: f(x) >= 0
    ensures 0 <= Sum(s, f) <= Sum(t, f)
    decreases |t|
  {
    if t != {} {
      var x :| x in t;
      SumRemove(t, f, x);
      if x in s {
        SumRemove(s, f, x);
      }
      assert x !in s ==> s - {x} == s;
      SumMonotone(s - {x}, t - {x}, f);
    }
  }

  /** `n * m`, in a form that keeps proofs linear. */
  ghost function Times(n: nat, m: nat): nat {
    if n == 0 then 0 else m + Times(n - 1, m)
  }

  lemma {:induction false} TimesIsProduct(n: nat, m: nat)
    ensures Times(n, m) == n * m
  {
    if n > 0 {
      TimesIsProduct(n - 1, m);
      assert n * m == (n - 1) * m + m;
    }
  }

  lemma {:induction false} TimesMonotone(a: nat, b: nat, m: nat)
    requires a <= b
    ensures Times(a, m) <= Times(b, m)
  {
    if a < b {
      TimesMonotone(a, b - 1, m);
    }
  }

  lemma {:induction false} SumBounded<T(!new)>(s: set<T>, f: T -> int, most: nat)
    requires forall x <- s :: f(x) <= most
    ensures Sum(s, f) <= Times(|s|, most)
  {
    if s != {} {
      var x :| x in s;
      SumRemove(s, f, x);
      SumBounded(s - {x}, f, most);
      assert |s| == |s - {x}| + 1;
    }
  }

  lemma UnionStep<T(!new)>(s: set<T>, t: set<T>, f: T -> int, x: T)
    requires x in t && f(x) >= 0
    ensures Sum(s + t, f) <= Sum(s + (t - {x}), f) + f(x) && Sum(t, f) == Sum(t - {x}, f) + f(x)
  {
    SumRemove(t, f, x);
    SumAdd(s + (t - {x}), f, x);
    assert s + (t - {x}) + {x} == s + t;
  }

  lemma {:induction false} SumUnion<T(!new)>(s: set<T>, t: set<T>, f: T -> int)
    requires forall x <- s + t :: f(x) >= 0
    ensures Sum(s + t, f) <= Sum(s, f) + Sum(t, f)
    decreases |t|
  {
    if t == {} {
      assert s + t == s;
    } else {
      var x :| x in t;
      assert x in s + t && f(x) >= 0;
      assert forall y <- s + (t - {x}) :: y in s + t;
      SumUnion(s, t - {x}, f);
      UnionStep(s, t, f, x);
    }
  }

  lemma {:induction false} SumSame<T(!new)>(s: set<T>, f: T -> int, g: T -> int)
    requires forall x <- s :: f(x) == g(x)
    ensures Sum(s, f) == Sum(s, g)
  {
    if s != {} {
      var x :| x in s;
      SumRemove(s, f, x);
      SumRemove(s, g, x);
      SumSame(s - {x}, f, g);
    }
  }

  lemma {:induction false} SumPlus<T(!new)>(s: set<T>, f: T -> int, g: T -> int, h: T -> int)
    requires forall x <- s :: h(x) == f(x) + g(x)
    ensures Sum(s, h) == Sum(s, f) + Sum(s, g)
  {
    if s != {} {
      var x :| x in s;
      SumRemove(s, f, x);
      SumRemove(s, g, x);
      SumRemove(s, h, x);
      SumPlus(s - {x}, f, g, h);
    }
  }

  /** A function that is zero off one element sums to its value there. */
  lemma {:induction false} SumSingle<T(!new)>(s: set<T>, f: T -> int, x: T)
    requires forall y <- s :: y != x ==> f(y) == 0
    ensures Sum(s, f) == if x in s then f(x) else 0
  {
    if s != {} {
      var y :| y in s;
      SumRemove(s, f, y);
      SumSingle(s - {y}, f, x);
    }
  }
}
