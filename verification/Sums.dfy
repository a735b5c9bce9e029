/** Finite sums over exact reals. */
module Sums {

  function Sum<T>(s: seq<T>, f: T -> real): real {
    if |s| == 0 then 0.0 else f(s[0]) + Sum(s[1..], f)
  }

  lemma {:induction false} SumConcat<T>(a: seq<T>, b: seq<T>, f: T -> real)
    ensures Sum(a + b, f) == Sum(a, f) + Sum(b, f)
  {
    if |a| == 0 {
      assert a + b == b;
    } else {
      assert (a + b)[1..] == a[1..] + b;
      SumConcat(a[1..], b, f);
    }
  }

  lemma SumLast<T>(s: seq<T>, f: T -> real)
    requires |s| > 0
    ensures Sum(s, f) == Sum(s[..|s| - 1], f) + f(s[|s| - 1])
  {
    var last := s[|s| - 1];
    assert s == s[..|s| - 1] + [last];
    SumConcat(s[..|s| - 1], [last], f);
    assert Sum([last], f) == f(last) + Sum([], f);
  }

  lemma SumPrefix<T>(s: seq<T>, i: nat, f: T -> real)
    requires i < |s|
    ensures Sum(s[..i + 1], f) == Sum(s[..i], f) + f(s[i])
  {
    SumLast(s[..i + 1], f);
    assert s[..i + 1][..i] == s[..i];
  }

  lemma {:induction false} SumConstant<T>(s: seq<T>, f: T -> real, c: real)
    requires forall x | x in s :: f(x) == c
    ensures Sum(s, f) == |s| as real * c
  {
    if |s| == 0 {
    } else {
      SumConstant(s[1..], f, c);
      assert |s| as real == 1.0 + |s[1..]| as real;
    }
  }

  lemma {:induction false} SumMonotone<T>(s: seq<T>, f: T -> real, g: T -> real)
    requires forall x | x in s :: f(x) <= g(x)
    ensures Sum(s, f) <= Sum(s, g)
  {
    if |s| == 0 {
    } else {
      assert s[0] in s && forall x | x in s[1..] :: x in s;
      SumMonotone(s[1..], f, g);
    }
  }

  lemma {:induction false} SumAdd<T>(s: seq<T>, f: T -> real, g: T -> real, both: T -> real)
    requires forall x | x in s :: both(x) == f(x) + g(x)
    ensures Sum(s, both) == Sum(s, f) + Sum(s, g)
  {
    if |s| == 0 {
    } else {
      assert s[0] in s && forall x | x in s[1..] :: x in s;
      SumAdd(s[1..], f, g, both);
    }
  }

  lemma Distribute(k: real, x: real, y: real)
    ensures k * (x + y) == k * x + k * y
  {
  }

  lemma {:induction false} SumScale<T>(s: seq<T>, k: real, f: T -> real, scaled: T -> real)
    requires forall x | x in s :: scaled(x) == k * f(x)
    ensures Sum(s, scaled) == k * Sum(s, f)
  {
    if |s| == 0 {
    } else {
      assert s[0] in s && forall x | x in s[1..] :: x in s;
      SumScale(s[1..], k, f, scaled);
      Distribute(k, f(s[0]), Sum(s[1..], f));
    }
  }

  lemma {:induction false} SumNonNegative<T>(s: seq<T>, f: T -> real)
    requires forall x | x in s :: f(x) >= 0.0
    ensures Sum(s, f) >= 0.0
    ensures Sum(s, f) == 0.0 ==> forall x | x in s :: f(x) == 0.0
  {
    if |s| == 0 {
    } else {
      assert s[0] in s && forall x | x in s[1..] :: x in s;
      SumNonNegative(s[1..], f);
      assert forall x | x in s :: x == s[0] || x in s[1..];
    }
  }

  /** A running total. */
  method Accumulate<T>(s: seq<T>, f: T -> real) returns (total: real)
    ensures total == Sum(s, f)
  {
    total := 0.0;
    for i := 0 to |s|
      invariant total == Sum(s[..i], f)
    {
      SumPrefix(s, i, f);
      total := total + f(s[i]);
    }
    assert s[..|s|] == s;
  }

  function Without<T>(s: seq<T>, k: nat): seq<T>
    requires k < |s|
  {
    s[..k] + s[k + 1..]
  }

  lemma SplitAt<T>(s: seq<T>, k: nat)
    requires k < |s|
    ensures s == s[..k] + [s[k]] + s[k + 1..] && Without(s, k) == s[..k] + s[k + 1..]
  {
  }

  lemma WithoutMultiset<T>(s: seq<T>, k: nat)
    requires k < |s|
    ensures multiset(s) == multiset{s[k]} + multiset(Without(s, k))
  {
    assert s == s[..k] + ([s[k]] + s[k + 1..]);
  }

  lemma {:induction false} WithoutSum<T>(s: seq<T>, k: nat, f: T -> real)
    requires k < |s|
    ensures Sum(s, f) == f(s[k]) + Sum(Without(s, k), f)
  {
    if k == 0 {
      assert Without(s, 0) == s[1..];
    } else {
      WithoutSum(s[1..], k - 1, f);
      assert Without(s, k)[1..] == Without(s[1..], k - 1);
    }
  }

  /** The order of the summands does not matter. */
  lemma {:induction false} SumPermuted<T>(a: seq<T>, b: seq<T>, f: T -> real)
    requires multiset(a) == multiset(b)
    ensures Sum(a, f) == Sum(b, f)
  {
    if |a| == 0 {
      assert |multiset(b)| == 0;
    } else {
      assert a[0] in multiset(b);
      var k :| 0 <= k < |b| && b[k] == a[0];
      WithoutMultiset(a, 0);
      WithoutMultiset(b, k);
      assert Without(a, 0) == a[1..];
      assert multiset(a[1..]) == multiset(a) - multiset{a[0]};
      assert multiset(Without(b, k)) == multiset(b) - multiset{a[0]};
      SumPermuted(a[1..], Without(b, k), f);
      WithoutSum(b, k, f);
    }
  }
}
