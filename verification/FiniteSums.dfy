/**
 Sums over finite sets and sequences in exact arithmetic. A Python `sum` over a dictionary and a SQL SUM over a
 group both visit their rows in an order nobody fixes, so a sum over a set is the common meaning of the two.
 */
module FiniteSums {

  ghost function Sum<T>(s: set<T>, f: T -> real): real {
    if s == {} then 0.0 else var x :| x in s; f(x) + Sum(s - {x}, f)
  }

  /** An element to go on with. */
  lemma Pick<T>(s: set<T>) returns (x: T)
    requires s != {}
    ensures x in s
  {
    x :| x in s;
  }

  lemma SumEmpty<T>(f: T -> real)
    ensures Sum({}, f) == 0.0
  {
  }

  /** Any element may be taken out first. */
  lemma {:induction false} SumPick<T>(s: set<T>, f: T -> real, x: T)
    requires x in s
    ensures Sum(s, f) == f(x) + Sum(s - {x}, f)
    decreases |s|
  {
    var y :| y in s && Sum(s, f) == f(y) + Sum(s - {y}, f);
    if y != x {
      SumPick(s - {y}, f, x);
      SumPick(s - {x}, f, y);
      assert s - {y} - {x} == s - {x} - {y};
    }
  }

  lemma SumAdd<T>(s: set<T>, f: T -> real, x: T)
    requires x !in s
    ensures Sum(s + {x}, f) == f(x) + Sum(s, f)
  {
    SumPick(s + {x}, f, x);
    assert s + {x} - {x} == s;
  }

  lemma {:induction false} SumUnion<T>(s: set<T>, t: set<T>, f: T -> real)
    requires s !! t
    ensures Sum(s + t, f) == Sum(s, f) + Sum(t, f)
    decreases |s|
  {
    if s == {} {
      assert s + t == t;
    } else {
      var x :| x in s;
      SumPick(s, f, x);
      SumPick(s + t, f, x);
      assert s + t - {x} == (s - {x}) + t;
      SumUnion(s - {x}, t, f);
    }
  }

  lemma {:induction false} SumSame<T>(s: set<T>, f: T -> real, g: T -> real)
    requires forall x | x in s :: f(x) == g(x)
    ensures Sum(s, f) == Sum(s, g)
    decreases |s|
  {
    if s != {} {
      var x :| x in s;
      SumPick(s, f, x);
      SumPick(s, g, x);
      SumSame(s - {x}, f, g);
    }
  }

  lemma {:induction false} SumMonotone<T>(s: set<T>, f: T -> real, g: T -> real)
    requires forall x | x in s :: f(x) <= g(x)
    ensures Sum(s, f) <= Sum(s, g)
    decreases |s|
  {
    if s != {} {
      var x :| x in s;
      SumPick(s, f, x);
      SumPick(s, g, x);
      SumMonotone(s - {x}, f, g);
    }
  }

  lemma {:induction false} SumPlus<T>(s: set<T>, f: T -> real, g: T -> real, h: T -> real)
    requires forall x | x in s :: h(x) == f(x) + g(x)
    ensures Sum(s, h) == Sum(s, f) + Sum(s, g)
    decreases |s|
  {
    if s != {} {
      var x :| x in s;
      SumPick(s, f, x);
      SumPick(s, g, x);
      SumPick(s, h, x);
      SumPlus(s - {x}, f, g, h);
    }
  }

  lemma {:induction false} SumScale<T>(s: set<T>, c: real, f: T -> real, h: T -> real)
    requires forall x | x in s :: h(x) == c * f(x)
    ensures Sum(s, h) == c * Sum(s, f)
    decreases |s|
  {
    hide Sum;
    if s == {} {
      SumEmpty(f);
      SumEmpty(h);
    } else {
      var x :| x in s;
      SumPick(s, f, x);
      SumPick(s, h, x);
      SumScale(s - {x}, c, f, h);
      Distribute(c, f(x), Sum(s - {x}, f), Sum(s, f));
    }
  }

  lemma Distribute(c: real, a: real, b: real, t: real)
    requires t == a + b
    ensures c * t == c * a + c * b
  {
  }

  lemma {:induction false} SumConst<T>(s: set<T>, c: real, f: T -> real)
    requires forall x | x in s :: f(x) == c
    ensures Sum(s, f) == |s| as real * c
    decreases |s|
  {
    hide Sum;
    if s == {} {
      SumEmpty(f);
    } else {
      var x :| x in s;
      SumPick(s, f, x);
      SumConst(s - {x}, c, f);
    }
  }

  lemma {:induction false} SumZero<T>(s: set<T>, f: T -> real)
    requires forall x | x in s :: f(x) == 0.0
    ensures Sum(s, f) == 0.0
    decreases |s|
  {
    if s != {} {
      var x :| x in s;
      SumPick(s, f, x);
      SumZero(s - {x}, f);
    }
  }

  /** A count, as a sum of ones. */
  lemma {:induction false} SumCount<T>(s: set<T>, hits: set<T>, f: T -> real)
    requires hits <= s
    requires forall x | x in s :: f(x) == if x in hits then 1.0 else 0.0
    ensures Sum(s, f) == |hits| as real
    decreases |s|
  {
    hide Sum;
    if s == {} {
      SumEmpty(f);
    } else {
      var x :| x in s;
      SumPick(s, f, x);
      SumCount(s - {x}, hits - {x}, f);
    }
  }

  /** Dropping elements that contribute nothing. */
  lemma {:induction false} SumSubset<T>(s: set<T>, t: set<T>, f: T -> real)
    requires t <= s
    requires forall x | x in s - t :: f(x) == 0.0
    ensures Sum(s, f) == Sum(t, f)
  {
    assert s == t + (s - t);
    SumUnion(t, s - t, f);
    SumZero(s - t, f);
  }

  /** Summing over the names of things that have one name each. */
  lemma {:induction false} SumImage<T, K>(s: set<T>, name: T -> K, t: set<K>, f: T -> real, g: K -> real)
    requires forall x | x in s :: name(x) in t && f(x) == g(name(x))
    requires forall x, y | x in s && y in s && name(x) == name(y) :: x == y
    requires forall k | k in t :: exists x :: x in s && name(x) == k
    ensures Sum(s, f) == Sum(t, g)
    decreases |s|
  {
    hide Sum;
    if s == {} {
      assert t == {};
      SumEmpty(f);
      SumEmpty(g);
    } else {
      var x := Pick(s);
      SumPick(s, f, x);
      SumPick(t, g, name(x));
      SumImage(s - {x}, name, t - {name(x)}, f, g);
    }
  }

  ghost function Fibre<T, K>(s: set<T>, key: T -> K, k: K): set<T> {
    set x | x in s && key(x) == k
  }

  /** GROUP BY: the sum over `s` is the sum of the group totals. */
  lemma {:induction false} SumByGroup<T, K>(s: set<T>, key: T -> K, f: T -> real, ks: set<K>, total: K -> real)
    requires forall x | x in s :: key(x) in ks
    requires forall k | k in ks :: total(k) == Sum(Fibre(s, key, k), f)
    ensures Sum(s, f) == Sum(ks, total)
    decreases |ks|
  {
    hide Sum;
    if ks == {} {
      assert s == {};
      SumEmpty(f);
      SumEmpty(total);
    } else {
      var k :| k in ks;
      var group := Fibre(s, key, k);
      var rest := s - group;
      assert s == group + rest;
      SumUnion(group, rest, f);
      SumPick(ks, total, k);
      forall j | j in ks - {k} ensures total(j) == Sum(Fibre(rest, key, j), f) {
        assert Fibre(rest, key, j) == Fibre(s, key, j);
      }
      SumByGroup(rest, key, f, ks - {k}, total);
    }
  }

  function SeqSum(s: seq<real>): real {
    if s == [] then 0.0 else s[0] + SeqSum(s[1..])
  }

  lemma {:induction false} SeqSumAppend(s: seq<real>, t: seq<real>)
    ensures SeqSum(s + t) == SeqSum(s) + SeqSum(t)
  {
    if s == [] {
      assert s + t == t;
    } else {
      assert (s + t)[1..] == s[1..] + t;
      SeqSumAppend(s[1..], t);
    }
  }

  /** Multiplication by name, so that a proof can hide it and stay linear. */
  function Times(a: real, b: real): real {
    a * b
  }

  ghost function Product<T>(f: T -> real, g: T -> real): T -> real {
    y => Times(f(y), g(y))
  }

  /** The cross differences (f(x) - f(y)) * (g(x) - g(y)) between x and each y. */
  ghost function CrossTo<T>(f: T -> real, g: T -> real, x: T): T -> real {
    y => Times(f(x) - f(y), g(x) - g(y))
  }

  /** |s| * sum(f*g) - sum(f) * sum(g): the covariance, times |s| squared. */
  ghost function Covariance<T>(s: set<T>, f: T -> real, g: T -> real): real {
    Times(|s| as real, Sum(s, Product(f, g))) - Times(Sum(s, f), Sum(s, g))
  }

  lemma {:induction false} CrossExpand<T>(s: set<T>, f: T -> real, g: T -> real, x: T)
    ensures Sum(s, CrossTo(f, g, x))
         == Times(|s| as real, Times(f(x), g(x))) - Times(f(x), Sum(s, g)) - Times(g(x), Sum(s, f))
          + Sum(s, Product(f, g))
    decreases |s|
  {
    hide Sum, Times;
    if s == {} {
      SumEmpty(f);
      SumEmpty(g);
      SumEmpty(Product(f, g));
      SumEmpty(CrossTo(f, g, x));
      TimesZero(Times(f(x), g(x)));
      TimesZero(f(x));
      TimesZero(g(x));
    } else {
      var y :| y in s;
      var r := s - {y};
      SumPick(s, f, y);
      SumPick(s, g, y);
      SumPick(s, Product(f, g), y);
      SumPick(s, CrossTo(f, g, x), y);
      CrossExpand(r, f, g, x);
      TimesPlus(f(x), g(y), Sum(r, g), Sum(s, g));
      TimesPlus(g(x), f(y), Sum(r, f), Sum(s, f));
      CrossStep(|r| as real, |s| as real, f(x), f(y), g(x), g(y));
    }
  }

  lemma TimesZero(a: real)
    ensures Times(a, 0.0) == Times(0.0, a) == 0.0
  {
  }

  lemma TimesPlus(c: real, a: real, b: real, t: real)
    requires t == a + b
    ensures Times(c, t) == Times(c, a) + Times(c, b)
  {
  }

  lemma CrossStep(n: real, m: real, a: real, p: real, b: real, q: real)
    requires m == n + 1.0
    ensures Times(m, Times(a, b)) == Times(n, Times(a, b)) + Times(a, b)
    ensures Times(a - p, b - q) == Times(a, b) - Times(a, q) - Times(b, p) + Times(p, q)
  {
    var ab := a * b;
    assert m * ab == n * ab + ab;
  }

  /** Taking one point out of the covariance leaves its cross differences to the others. */
  lemma CovariancePick<T>(s: set<T>, f: T -> real, g: T -> real, x: T)
    requires x in s
    ensures Covariance(s, f, g) == Covariance(s - {x}, f, g) + Sum(s - {x}, CrossTo(f, g, x))
  {
    hide Sum, Times, CrossTo;
    var r := s - {x};
    SumPick(s, f, x);
    SumPick(s, g, x);
    SumPick(s, Product(f, g), x);
    CrossExpand(r, f, g, x);
    CovarianceStep(|r| as real, f(x), g(x), Sum(r, f), Sum(r, g), Sum(r, Product(f, g)),
                   |s| as real, Sum(s, f), Sum(s, g), Sum(s, Product(f, g)));
  }

  lemma CovarianceStep(n: real, a: real, b: real, sf: real, sg: real, sfg: real,
                       m: real, tf: real, tg: real, tfg: real)
    requires m == n + 1.0 && tf == a + sf && tg == b + sg && tfg == Times(a, b) + sfg
    ensures Times(m, tfg) - Times(tf, tg)
         == Times(n, sfg) - Times(sf, sg) + (Times(n, Times(a, b)) - Times(a, sg) - Times(b, sf) + sfg)
  {
    var ab := a * b;
    assert tf * tg == (a + sf) * (b + sg) == ab + a * sg + sf * b + sf * sg;
    assert m * tfg == (n + 1.0) * (ab + sfg) == n * ab + n * sfg + ab + sfg;
  }

  /** Chebyshev's sum inequality: oppositely ordered functions have no positive covariance. */
  lemma {:induction false} ChebyshevOpposite<T>(s: set<T>, f: T -> real, g: T -> real)
    requires forall x, y | x in s && y in s :: CrossTo(f, g, x)(y) <= 0.0
    ensures Covariance(s, f, g) <= 0.0
    decreases |s|
  {
    if s != {} {
      var x :| x in s;
      CovariancePick(s, f, g, x);
      ChebyshevOpposite(s - {x}, f, g);
      SumMonotone(s - {x}, CrossTo(f, g, x), y => 0.0);
      SumZero(s - {x}, y => 0.0);
    }
  }

  /** The variance is never negative, and it is zero only for a constant function. */
  lemma {:induction false} VarianceSign<T>(s: set<T>, f: T -> real)
    ensures Covariance(s, f, f) >= 0.0
    ensures Covariance(s, f, f) == 0.0 <==> forall x, y | x in s && y in s :: f(x) == f(y)
    decreases |s|
  {
    if s != {} {
      var x :| x in s;
      var r := s - {x};
      CovariancePick(s, f, f, x);
      VarianceSign(r, f);
      CrossSquares(r, f, x);
      if y :| y in r && f(y) != f(x) {
        assert x in s && y in s;
      }
    }
  }

  lemma {:induction false} CrossSquares<T>(s: set<T>, f: T -> real, x: T)
    ensures Sum(s, CrossTo(f, f, x)) >= 0.0
    ensures Sum(s, CrossTo(f, f, x)) == 0.0 <==> forall y | y in s :: f(y) == f(x)
    decreases |s|
  {
    hide Sum, Times;
    if s == {} {
      SumEmpty(CrossTo(f, f, x));
    } else {
      var y :| y in s;
      SumPick(s, CrossTo(f, f, x), y);
      CrossSquares(s - {y}, f, x);
      SquareSign(f(x) - f(y));
      TimesZero(0.0);
    }
  }

  lemma SquareSign(d: real)
    ensures Times(d, d) >= 0.0
    ensures Times(d, d) == 0.0 ==> d == 0.0
  {
    if d > 0.0 {
      ProductPositive(d, d);
    } else if d < 0.0 {
      ProductPositive(-d, -d);
      assert -d * -d == d * d;
    }
  }

  lemma ProductPositive(a: real, b: real)
    requires a > 0.0 && b > 0.0
    ensures Times(a, b) > 0.0
  {
  }

  /** SumScale, with the product by name. */
  lemma ScaledUp(x: real, y: real, n: real)
    requires x <= y && n > 0.0
    ensures x * n <= y * n
  {
    if x < y {
      ProductPositive(y - x, n);
      assert (y - x) * n == y * n - x * n;
    }
  }

  /** A margin scales with what it is a margin of. */
  lemma ScaledBetween(r: real, x: real, margin: real, n: real)
    requires x - margin <= r <= x + margin && n > 0.0
    ensures x * n - margin * n <= r * n <= x * n + margin * n
  {
    ScaledUp(x - margin, r, n);
    ScaledUp(r, x + margin, n);
    assert (x - margin) * n == x * n - margin * n && (x + margin) * n == x * n + margin * n;
  }

  lemma {:induction false} SumTimes<T>(s: set<T>, c: real, f: T -> real, h: T -> real)
    requires forall k | k in s :: h(k) == Times(c, f(k))
    ensures Sum(s, h) == Times(c, Sum(s, f))
  {
    hide Sum;
    forall k | k in s ensures h(k) == c * f(k) {
      assert h(k) == Times(c, f(k));
    }
    SumScale(s, c, f, h);
  }

  lemma {:induction false} SubsetSize<T>(a: set<T>, b: set<T>)
    requires a <= b
    ensures |a| <= |b|
    decreases |a|
  {
    if a != {} {
      var x := Pick(a);
      SubsetSize(a - {x}, b - {x});
    }
  }
}
