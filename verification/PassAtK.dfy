/**
  The pass@k estimator: its product form, the binomial ratio it stands for, and what that ratio
  counts.
 */
module PassAtK {

  /** Binomial coefficients, by Pascal's rule. */
  function Choose(n: nat, k: nat): nat {
    if k == 0 then 1 else if n == 0 then 0 else Choose(n - 1, k - 1) + Choose(n - 1, k)
  }

  lemma {:induction false} ChoosePositive(n: nat, k: nat)
    ensures Choose(n, k) > 0 <==> k <= n
  {
    if k > 0 && n > 0 {
      ChoosePositive(n - 1, k - 1);
      ChoosePositive(n - 1, k);
    }
  }

  lemma AddRows(a: int, b: int, c: int, n: int, i: int)
    requires a * (i + 1) == b * (n - 1 - i) && b * i == c * (n - i)
    ensures (b + a) * (i + 1) == (c + b) * (n - i)
  {
    calc {
      (b + a) * (i + 1);
      b * (i + 1) + a * (i + 1);
      b * (i + 1) + b * (n - 1 - i);
      b * n;
      b * i + b * (n - i);
      c * (n - i) + b * (n - i);
      (c + b) * (n - i);
    }
  }

  /** The step the product form takes: from choosing i of n to choosing i + 1. */
  lemma {:induction false} ChooseNext(n: nat, i: nat)
    requires i <= n
    ensures Choose(n, i + 1) * (i + 1) == Choose(n, i) * (n - i)
  {
    if i == n {
      ChoosePositive(n, i + 1);
    } else if i > 0 {
      ChooseNext(n - 1, i);
      ChooseNext(n - 1, i - 1);
      AddRows(Choose(n - 1, i + 1), Choose(n - 1, i), Choose(n - 1, i - 1), n, i);
    } else {
      ChooseNext(n - 1, 0);
    }
  }

  // ---------------------------------------------------------------- what binomials count

  ghost function KSubsets<T(!new)>(u: set<T>, k: nat): set<set<T>> {
    set s: set<T> | s <= u && |s| == k
  }

  ghost function WithElement<T(!new)>(x: T, ss: set<set<T>>): set<set<T>> {
    set s | s in ss :: s + {x}
  }

  lemma {:induction false} WithElementSize<T(!new)>(x: T, ss: set<set<T>>)
    requires forall s :: s in ss ==> x !in s
    ensures |WithElement(x, ss)| == |ss|
  {
    if ss != {} {
      var s :| s in ss;
      var rest := ss - {s};
      WithElementSize(x, rest);
      NewElement(x, s, rest);
      assert WithElement(x, ss) == WithElement(x, rest) + {s + {x}};
    }
  }

  lemma NewElement<T(!new)>(x: T, s: set<T>, rest: set<set<T>>)
    requires s !in rest && x !in s && forall t :: t in rest ==> x !in t
    ensures s + {x} !in WithElement(x, rest)
  {
    forall t | t in rest ensures t + {x} != s + {x} {
      assert (t + {x}) - {x} == t;
      assert (s + {x}) - {x} == s;
    }
  }

  lemma Split<T(!new)>(u: set<T>, x: T, k: nat)
    requires x in u && k > 0
    ensures KSubsets(u, k) == KSubsets(u - {x}, k) + WithElement(x, KSubsets(u - {x}, k - 1))
    ensures KSubsets(u - {x}, k) !! WithElement(x, KSubsets(u - {x}, k - 1))
  {
    var without, with := KSubsets(u - {x}, k), WithElement(x, KSubsets(u - {x}, k - 1));
    forall s | s in KSubsets(u, k) ensures s in without + with {
      if x in s {
        var t := s - {x};
        assert t in KSubsets(u - {x}, k - 1) && t + {x} == s;
      }
    }
    forall s | s in with ensures s in KSubsets(u, k) && s !in without {
      var t :| t in KSubsets(u - {x}, k - 1) && t + {x} == s;
      assert x in s;
    }
  }

  lemma NoElements<T(!new)>(u: set<T>, k: nat)
    requires k == 0 || u == {}
    ensures KSubsets(u, k) == if k == 0 then {{}} else {}
  {
    forall s: set<T> | s in KSubsets(u, k) ensures s == {} {}
    if k == 0 {
      var none: set<T> := {};
      assert none in KSubsets(u, k);
    }
  }

  /** A set of n elements has Choose(n, k) subsets of k elements. */
  lemma {:induction false} CountKSubsets<T(!new)>(u: set<T>, k: nat)
    ensures |KSubsets(u, k)| == Choose(|u|, k)
  {
    if k == 0 || u == {} {
      NoElements(u, k);
    } else {
      var x :| x in u;
      CountKSubsets(u - {x}, k);
      CountKSubsets(u - {x}, k - 1);
      AddElement(u, x, k);
    }
  }

  lemma AddElement<T(!new)>(u: set<T>, x: T, k: nat)
    requires x in u && k > 0
    ensures |KSubsets(u, k)| == |KSubsets(u - {x}, k)| + |KSubsets(u - {x}, k - 1)|
  {
    Split(u, x, k);
    WithElementSize(x, KSubsets(u - {x}, k - 1));
  }

  /** The draws of k trials that hold at least one pass. */
  ghost function Hits<T(!new)>(trials: set<T>, passes: set<T>, k: nat): set<set<T>> {
    set s | s in KSubsets(trials, k) && !(s !! passes)
  }

  lemma CountHits<T(!new)>(trials: set<T>, passes: set<T>, k: nat)
    requires passes <= trials
    ensures |passes| <= |trials|
    ensures |Hits(trials, passes, k)| == Choose(|trials|, k) - Choose(|trials| - |passes|, k)
  {
    assert trials == passes + (trials - passes);
    var misses := KSubsets(trials - passes, k);
    assert misses !! Hits(trials, passes, k);
    forall s | s in KSubsets(trials, k) && s !! passes ensures s in misses {
      assert s <= trials - passes;
    }
    assert KSubsets(trials, k) == misses + Hits(trials, passes, k);
    CountKSubsets(trials, k);
    CountKSubsets(trials - passes, k);
    assert |trials - passes| == |trials| - |passes|;
  }

  // ---------------------------------------------------------------- the estimator

  /** Choose(n, i) as a real. */
  ghost function Ways(n: nat, i: nat): real {
    Choose(n, i) as real
  }

  lemma WaysPositive(n: nat, k: nat)
    ensures Ways(n, k) >= 0.0 && (Ways(n, k) > 0.0 <==> k <= n)
  {
    ChoosePositive(n, k);
  }

  /** The chance of at least one pass among k of n trials, c of which pass. */
  ghost function PassRate(n: nat, c: int, k: nat): real
    requires c <= n && 1 <= k
  {
    if k > n then (if c > 0 then 1.0 else 0.0)
    else (WaysPositive(n, k); 1.0 - Ways(n - c, k) / Ways(n, k))
  }

  /** `p` is the ratio of the ways to draw i failures to the ways to draw i trials. */
  ghost predicate IsRatio(p: real, n: int, c: int, i: nat)
    requires i <= n && i <= n - c
  {
    p * Ways(n, i) == Ways(n - c, i)
  }

  lemma ProductStep(n: int, c: int, i: nat, p: real)
    requires i < n && i < n - c && IsRatio(p, n, c, i)
    ensures IsRatio(p * ((n - c - i) as real / (n - i) as real), n, c, i + 1)
  {
    ChooseNextReal(n, i);
    ChooseNextReal(n - c, i);
    var a, b, x, y := Ways(n, i), Ways(n, i + 1), Ways(n - c, i), Ways(n - c, i + 1);
    ScaleBoth(p, a, b, x, y, (n - i) as real, (n - c - i) as real, (i + 1) as real);
  }

  lemma ChooseNextReal(n: nat, i: nat)
    requires i <= n
    ensures Ways(n, i + 1) * (i + 1) as real == Ways(n, i) * (n - i) as real
  {
    ChooseNext(n, i);
    CastProducts(Choose(n, i + 1), i + 1, Choose(n, i), n - i);
  }

  lemma CastProducts(a: int, b: int, c: int, d: int)
    requires a * b == c * d
    ensures a as real * b as real == c as real * d as real
  {
    CastProduct(a, b);
    CastProduct(c, d);
  }

  lemma CastProduct(x: int, y: int)
    ensures (x * y) as real == x as real * y as real
  {
  }

  lemma ScaleBoth(p: real, a: real, b: real, x: real, y: real, d: real, e: real, f: real)
    requires d > 0.0 && f > 0.0 && p * a == x && b * f == a * d && y * f == x * e
    ensures p * (e / d) * b == y
  {
    var q := e / d;
    assert q * d == e;
    calc {
      p * q * b * f;
      p * q * (a * d);
      (p * a) * (q * d);
      y * f;
    }
  }

  method PassAtK(n: int, c: int, k: int) returns (r: real)
    ensures n >= 0 && c <= n && 1 <= k ==> r == PassRate(n, c, k)
    ensures k <= n && (c > n || k <= 0) ==> r == if c != 0 && c >= n then 1.0 else 0.0
    ensures k > n && (c > n || n < 0 || k <= 0) ==> r == if c > 0 then 1.0 else 0.0
  {
    if k > n {
      return if c > 0 then 1.0 else 0.0;
    }
    if c == 0 {
      if 1 <= k {
        RateAtEnds(n, c, k);
      }
      return 0.0;
    }
    if c >= n {
      if c == n && 1 <= k {
        RateAtEnds(n, c, k);
      }
      return 1.0;
    }
    if k <= 0 {
      return 0.0;
    }
    if k > n - c {
      RateAtEnds(n, c, k);
      return 1.0;
    }
    var p := 1.0;
    for i := 0 to k
      invariant i <= n && i <= n - c && IsRatio(p, n, c, i)
    {
      ProductStep(n, c, i, p);
      p := p * ((n - c - i) as real / (n - i) as real);
    }
    Quotient(n, c, k, p);
    r := 1.0 - p;
  }

  /** Nothing passes, or there are fewer failures than draws. */
  lemma RateAtEnds(n: nat, c: nat, k: nat)
    requires c <= n && 1 <= k <= n
    ensures c == 0 ==> PassRate(n, c, k) == 0.0
    ensures k > n - c ==> PassRate(n, c, k) == 1.0
  {
    WaysPositive(n, k);
    WaysPositive(n - c, k);
    if c == 0 {
      RatioBelowOne(Ways(n, k), Ways(n, k));
    } else if k > n - c {
      RatioBelowOne(Ways(n - c, k), Ways(n, k));
    }
  }

  lemma Quotient(n: int, c: int, k: nat, p: real)
    requires k <= n && k <= n - c && IsRatio(p, n, c, k)
    ensures Ways(n, k) > 0.0 && p == Ways(n - c, k) / Ways(n, k)
  {
    WaysPositive(n, k);
    DivideOut(p, Ways(n, k), Ways(n - c, k));
  }

  lemma DivideOut(p: real, a: real, x: real)
    requires a > 0.0 && p * a == x
    ensures p == x / a
  {
  }

  /** The estimate is the share of k-element draws that hold a pass, whichever the passes are. */
  lemma RateIsShareOfDraws<T(!new)>(trials: set<T>, passes: set<T>, k: nat)
    requires passes <= trials && 1 <= k <= |trials|
    ensures |passes| <= |trials| && |KSubsets(trials, k)| > 0
    ensures PassRate(|trials|, |passes|, k) == |Hits(trials, passes, k)| as real / |KSubsets(trials, k)| as real
  {
    assert trials == passes + (trials - passes);
    CountHits(trials, passes, k);
    CountKSubsets(trials, k);
    ChoosePositive(|trials|, k);
    var all, miss := Choose(|trials|, k) as real, Choose(|trials| - |passes|, k) as real;
    ShareLeft(all, miss);
  }

  lemma ShareLeft(all: real, miss: real)
    requires all > 0.0
    ensures 1.0 - miss / all == (all - miss) / all
  {
    assert all / all == 1.0;
    assert (all - miss) / all == all / all - miss / all;
  }

  lemma RateIsAProbability(n: nat, c: nat, k: nat)
    requires c <= n && 1 <= k
    ensures 0.0 <= PassRate(n, c, k) <= 1.0
    ensures c == 0 ==> PassRate(n, c, k) == 0.0
    ensures c == n > 0 ==> PassRate(n, c, k) == 1.0
  {
    if k <= n {
      WaysPositive(n, k);
      WaysPositive(n - c, k);
      ChooseGrows(n - c, n, k);
      RatioBelowOne(Ways(n - c, k), Ways(n, k));
    }
  }

  lemma RatioBelowOne(x: real, y: real)
    requires 0.0 <= x <= y && y > 0.0
    ensures 0.0 <= x / y <= 1.0
    ensures x == y ==> x / y == 1.0
    ensures x == 0.0 ==> x / y == 0.0
  {
    if x == 0.0 {
      assert 0.0 / y == 0.0;
    }
  }

  lemma RatioOrder(x: real, y: real, z: real)
    requires x <= y && z > 0.0
    ensures x / z <= y / z
  {
  }

  lemma {:induction false} ChooseGrows(m: nat, n: nat, k: nat)
    requires m <= n
    ensures Choose(m, k) <= Choose(n, k)
    decreases n
  {
    if m < n && k > 0 {
      ChooseGrows(m, n - 1, k);
    }
  }

  /** More draws never lower the estimate. */
  lemma {:induction false} RateGrowsWithDraws(n: nat, c: nat, k: nat, l: nat)
    requires c <= n && 1 <= k <= l
    ensures PassRate(n, c, k) <= PassRate(n, c, l)
    decreases l - k
  {
    RateIsAProbability(n, c, k);
    if k < l && k < n {
      OneMoreDraw(n, c, k);
      RateGrowsWithDraws(n, c, k + 1, l);
    } else if k < l && c == 0 {
      RateIsAProbability(n, c, l);
    }
  }

  lemma ProperMissFalls(n: nat, c: nat, k: nat)
    requires c <= n && k < n - c && Ways(n, k) > 0.0 && Ways(n, k + 1) > 0.0 && Ways(n - c, k) >= 0.0
    ensures Ways(n - c, k + 1) / Ways(n, k + 1) <= Ways(n - c, k) / Ways(n, k)
  {
    var a, b, x, y := Ways(n, k), Ways(n, k + 1), Ways(n - c, k), Ways(n - c, k + 1);
    NextRatio(n, k, a, b);
    NextRatio(n - c, k, x, y);
    CastRatioFalls(a, b, x, y, n - k, n - c - k, k + 1);
  }

  /** `b` is to `a` as the draws left are to the draws made. */
  ghost predicate Next(a: real, b: real, d: int, f: int) {
    b * f as real == a * d as real
  }

  lemma NextRatio(n: nat, k: nat, a: real, b: real)
    requires k <= n && a == Ways(n, k) && b == Ways(n, k + 1)
    ensures Next(a, b, n - k, k + 1)
  {
    ChooseNextReal(n, k);
  }

  lemma CastRatioFalls(a: real, b: real, x: real, y: real, d: int, e: int, f: int)
    requires a > 0.0 && b > 0.0 && x >= 0.0 && f > 0 && 0 < e <= d
    requires Next(a, b, d, f) && Next(x, y, e, f)
    ensures y / b <= x / a
  {
    RatioFalls(a, b, x, y, d as real, e as real, f as real);
  }

  lemma MissFalls(n: nat, c: nat, k: nat)
    requires c <= n && k < n
    ensures Ways(n, k) > 0.0 && Ways(n, k + 1) > 0.0
    ensures Ways(n - c, k + 1) / Ways(n, k + 1) <= Ways(n - c, k) / Ways(n, k)
  {
    WaysPositive(n, k);
    WaysPositive(n, k + 1);
    WaysPositive(n - c, k);
    WaysPositive(n - c, k + 1);
    if k < n - c {
      ProperMissFalls(n, c, k);
    } else {
      ZeroRatio(Ways(n - c, k + 1), Ways(n, k + 1), Ways(n - c, k), Ways(n, k));
    }
  }

  lemma ZeroRatio(zero: real, b: real, x: real, y: real)
    requires zero == 0.0 && b > 0.0 && x >= 0.0 && y > 0.0
    ensures zero / b <= x / y
  {
  }

  lemma OneMoreDraw(n: nat, c: nat, k: nat)
    requires c <= n && 1 <= k < n
    ensures PassRate(n, c, k) <= PassRate(n, c, k + 1)
  {
    MissFalls(n, c, k);
  }

  lemma RatioFalls(a: real, b: real, x: real, y: real, d: real, e: real, f: real)
    requires a > 0.0 && b > 0.0 && x >= 0.0 && f > 0.0 && 0.0 < e <= d
    requires b * f == a * d && y * f == x * e
    ensures y / b <= x / a
  {
    var p := x / a;
    assert p * a == x;
    ScaleBoth(p, a, b, x, y, d, e, f);
    var q := e / d;
    RatioBelowOne(e, d);
    assert p * q * b == y;
    assert y / b == p * q;
    AtMost(p, q);
  }

  lemma AtMost(p: real, q: real)
    requires p >= 0.0 && 0.0 <= q <= 1.0
    ensures p * q <= p
  {
  }

  /** More passes never lower the estimate. */
  lemma RateGrowsWithPasses(n: nat, c: nat, d: nat, k: nat)
    requires c <= d <= n && 1 <= k
    ensures PassRate(n, c, k) <= PassRate(n, d, k)
  {
    if k <= n {
      WaysPositive(n, k);
      ChooseGrows(n - d, n - c, k);
      RatioOrder(Ways(n - d, k), Ways(n - c, k), Ways(n, k));
    }
  }
}
