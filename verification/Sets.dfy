/** Finite sets as tables: largest and smallest elements, and sums. */
module Sets {
  ghost function Pick<T>(s: set<T>): (x: T)
    requires s != {}
    ensures x in s
  {
    var x :| x in s; x
  }

  ghost function MaxKey(s: set<int>, default: int): (m: int)
    ensures s == {} ==> m == default
    ensures s != {} ==> m in s
    ensures forall x | x in s :: x <= m
  {
    if s == {} then default else
      var x := Pick(s);
      var rest := MaxKey(s - {x}, x);
      assert forall y | y in s :: y == x || y in s - {x};
      if x < rest then rest else x
  }

  /** max(f) over s, `default` for an empty s. */
  ghost function MaxOf<T>(s: set<T>, f: T -> int, default: int): (m: int)
    ensures s == {} ==> m == default
    ensures s != {} ==> exists x :: x in s && f(x) == m
    ensures forall x | x in s :: f(x) <= m
  {
    if s == {} then default else
      var x :| x in s;
      var rest := MaxOf(s - {x}, f, f(x));
      if f(x) < rest then rest else f(x)
  }

  ghost function MinOf<T>(s: set<T>, f: T -> int, default: int): (m: int)
    ensures s == {} ==> m == default
    ensures s != {} ==> exists x :: x in s && f(x) == m
    ensures forall x | x in s :: m <= f(x)
  {
    if s == {} then default else
      var x :| x in s;
      var rest := MinOf(s - {x}, f, f(x));
      if f(x) > rest then rest else f(x)
  }

  lemma Smaller<T>(part: set<T>, whole: set<T>, x: T)
    requires part <= whole && x in whole && x !in part
    ensures |part| < |whole|
  {
    assert whole == part + (whole - part) && x in whole - part;
  }

  /** The sum of f over s. */
  ghost function Sum<T>(s: set<T>, f: T -> int): int {
    if s == {} then 0 else
      var x :| x in s;
      f(x) + Sum(s - {x}, f)
  }

  /** The element taken first does not matter. */
  lemma {:induction false} SumRemove<T>(s: set<T>, f: T -> int, y: T)
    requires y in s
    ensures Sum(s, f) == f(y) + Sum(s - {y}, f)
  {
    var x :| x in s && Sum(s, f) == f(x) + Sum(s - {x}, f);
    if x != y {
      SumRemove(s - {x}, f, y);
      SumRemove(s - {y}, f, x);
      assert s - {x} - {y} == s - {y} - {x};
    }
  }

  lemma {:induction false} SumUnion<T>(a: set<T>, b: set<T>, f: T -> int)
    requires a !! b
    ensures Sum(a + b, f) == Sum(a, f) + Sum(b, f)
  {
    if a == {} {
      assert a + b == b;
    } else {
      var x :| x in a;
      SumRemove(a, f, x);
      SumRemove(a + b, f, x);
      assert a + b - {x} == (a - {x}) + b;
      SumUnion(a - {x}, b, f);
    }
  }

  lemma {:induction false} SumBounds<T>(s: set<T>, f: T -> int, g: T -> int)
    requires forall x | x in s :: f(x) <= g(x)
    ensures Sum(s, f) <= Sum(s, g)
  {
    if s != {} {
      var x :| x in s;
      SumRemove(s, f, x);
      SumRemove(s, g, x);
      SumBounds(s - {x}, f, g);
    }
  }

  lemma {:induction false} SumScale<T>(s: set<T>, f: T -> int, g: T -> int, c: int)
    requires forall x | x in s :: g(x) == c * f(x)
    ensures Sum(s, g) == c * Sum(s, f)
  {
    if s != {} {
      var x :| x in s;
      SumRemove(s, f, x);
      SumRemove(s, g, x);
      SumScale(s - {x}, f, g, c);
      assert c * (f(x) + Sum(s - {x}, f)) == c * f(x) + c * Sum(s - {x}, f);
    }
  }

  lemma {:induction false} SumOnes<T>(s: set<T>, f: T -> int)
    requires forall x | x in s :: f(x) == 1
    ensures Sum(s, f) == |s|
  {
    if s != {} {
      var x :| x in s;
      SumRemove(s, f, x);
      SumOnes(s - {x}, f);
    }
  }
}
