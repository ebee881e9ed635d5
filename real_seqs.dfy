/** Sums, means and population variances over finite sequences of reals,
    and the facts about them that the diversity score and the drift rule need. */
module RealSeqs {

  /** Applies `f` to every element, keeping the order. */
  function MapSeq<A, B>(s: seq<A>, f: A -> B): (r: seq<B>)
    ensures |r| == |s|
    ensures forall i :: 0 <= i < |s| ==> r[i] == f(s[i])
  {
    if s == [] then [] else [f(s[0])] + MapSeq(s[1..], f)
  }

  function Sum(xs: seq<real>): real
  {
    if xs == [] then 0.0 else xs[0] + Sum(xs[1..])
  }

  function Mean(xs: seq<real>): real
    requires |xs| > 0
  {
    Sum(xs) / |xs| as real
  }

  function SquaredDistanceFrom(m: real): real -> real
  {
    x => (x - m) * (x - m)
  }

  function SquaredDeviations(xs: seq<real>, m: real): seq<real>
  {
    MapSeq(xs, SquaredDistanceFrom(m))
  }

  /** The population variance: the mean squared deviation from the mean. */
  function Variance(xs: seq<real>): (v: real)
    requires |xs| > 0
    ensures v >= 0.0
  {
    var devs := SquaredDeviations(xs, Mean(xs));
    SumNonNegative(devs);
    Sum(devs) / |xs| as real
  }

  lemma {:induction false} SumConcat(a: seq<real>, b: seq<real>)
    ensures Sum(a + b) == Sum(a) + Sum(b)
  {
    if a == [] {
      assert a + b == b;
    } else {
      assert (a + b)[1..] == a[1..] + b;
      SumConcat(a[1..], b);
    }
  }

  lemma {:induction false} SumNonNegative(xs: seq<real>)
    requires forall i :: 0 <= i < |xs| ==> xs[i] >= 0.0
    ensures Sum(xs) >= 0.0
  {
    if xs != [] {
      SumNonNegative(xs[1..]);
    }
  }

  lemma {:induction false} SumBounds(xs: seq<real>, lo: real, hi: real)
    requires forall i :: 0 <= i < |xs| ==> lo <= xs[i] <= hi
    ensures |xs| as real * lo <= Sum(xs) <= |xs| as real * hi
  {
    if xs != [] {
      SumBounds(xs[1..], lo, hi);
    }
  }

  lemma {:induction false} SumConstant(xs: seq<real>, c: real)
    requires forall i :: 0 <= i < |xs| ==> xs[i] == c
    ensures Sum(xs) == |xs| as real * c
  {
    if xs != [] {
      SumConstant(xs[1..], c);
    }
  }

  /** The mean of values in [lo, hi] lies in [lo, hi]. */
  lemma MeanBounds(xs: seq<real>, lo: real, hi: real)
    requires |xs| > 0
    requires forall i :: 0 <= i < |xs| ==> lo <= xs[i] <= hi
    ensures lo <= Mean(xs) <= hi
  {
    var n := |xs| as real;
    SumBounds(xs, lo, hi);
    assert Mean(xs) * n == Sum(xs);
  }

  lemma ProductNonNegative(a: real, b: real)
    requires a >= 0.0 && b >= 0.0
    ensures a * b >= 0.0
  {
  }

  /** An element of `b` equal to the head of `a`, and what remains on each side. */
  lemma PermutationHead<T>(a: seq<T>, b: seq<T>) returns (j: nat)
    requires |a| > 0 && multiset(a) == multiset(b)
    ensures j < |b| && b[j] == a[0]
    ensures multiset(a[1..]) == multiset(b[..j] + b[j + 1..])
  {
    assert a == [a[0]] + a[1..];
    assert a[0] in multiset(b);
    j :| j < |b| && b[j] == a[0];
    assert b == b[..j] + [b[j]] + b[j + 1..];
    assert multiset(b) == multiset(b[..j]) + multiset{b[j]} + multiset(b[j + 1..]);
    assert multiset(a) == multiset{a[0]} + multiset(a[1..]);
    assert multiset(b[..j] + b[j + 1..]) == multiset(b[..j]) + multiset(b[j + 1..]);
    assert multiset(a[1..]) == multiset(a) - multiset{a[0]};
    assert multiset(b[..j] + b[j + 1..]) == multiset(b) - multiset{b[j]};
  }

  lemma MapSeqConcat<A, B>(a: seq<A>, b: seq<A>, f: A -> B)
    ensures MapSeq(a + b, f) == MapSeq(a, f) + MapSeq(b, f)
  {
  }

  /** Mapping two permutations of each other gives permutations of each other. */
  lemma {:induction false} MapSeqPermutation<A, B>(a: seq<A>, b: seq<A>, f: A -> B)
    requires multiset(a) == multiset(b)
    ensures multiset(MapSeq(a, f)) == multiset(MapSeq(b, f))
  {
    if a == [] {
      assert |b| == |multiset(b)| == 0;
    } else {
      var j := PermutationHead(a, b);
      var rest := b[..j] + b[j + 1..];
      MapSeqPermutation(a[1..], rest, f);
      assert b == b[..j] + ([b[j]] + b[j + 1..]);
      MapSeqConcat(b[..j], [b[j]] + b[j + 1..], f);
      MapSeqConcat([b[j]], b[j + 1..], f);
      MapSeqConcat(b[..j], b[j + 1..], f);
      MapSeqConcat([a[0]], a[1..], f);
      assert a == [a[0]] + a[1..];
    }
  }

  /** The sum does not depend on the order of the summands. */
  lemma {:induction false} SumPermutation(a: seq<real>, b: seq<real>)
    requires multiset(a) == multiset(b)
    ensures Sum(a) == Sum(b)
  {
    if a == [] {
      assert |b| == |multiset(b)| == 0;
    } else {
      var j := PermutationHead(a, b);
      var rest := b[..j] + b[j + 1..];
      SumPermutation(a[1..], rest);
      assert b == b[..j] + ([b[j]] + b[j + 1..]);
      SumConcat(b[..j], [b[j]] + b[j + 1..]);
      SumConcat([b[j]], b[j + 1..]);
      SumConcat(b[..j], b[j + 1..]);
    }
  }

  /** The variance does not depend on the order of the values. */
  lemma VariancePermutation(a: seq<real>, b: seq<real>)
    requires |a| > 0 && multiset(a) == multiset(b)
    ensures |b| > 0 && Variance(a) == Variance(b)
  {
    assert |a| == |multiset(a)| == |multiset(b)| == |b|;
    SumPermutation(a, b);
    var m := Mean(a);
    MapSeqPermutation(a, b, SquaredDistanceFrom(m));
    SumPermutation(SquaredDeviations(a, m), SquaredDeviations(b, m));
  }

  function ScaledBy(c: real): real -> real
  {
    x => c * x
  }

  function DeviationFrom(m: real): real -> real
  {
    x => x - m
  }

  /** Scaling every element scales the sum. */
  lemma {:induction false} SumScaled(xs: seq<real>, c: real)
    ensures Sum(MapSeq(xs, ScaledBy(c))) == c * Sum(xs)
  {
    if xs != [] {
      var ys := MapSeq(xs, ScaledBy(c));
      assert ys[1..] == MapSeq(xs[1..], ScaledBy(c));
      SumScaled(xs[1..], c);
      Distribute(c, xs[0], Sum(xs[1..]));
    }
  }

  lemma Distribute(c: real, a: real, b: real)
    ensures c * (a + b) == c * a + c * b
  {
  }

  /** The deviations from m sum to the sum less |xs| copies of m. */
  lemma {:induction false} SumDeviations(xs: seq<real>, m: real)
    ensures Sum(MapSeq(xs, DeviationFrom(m))) == Sum(xs) - |xs| as real * m
  {
    if xs != [] {
      var es := MapSeq(xs, DeviationFrom(m));
      assert es[1..] == MapSeq(xs[1..], DeviationFrom(m));
      SumDeviations(xs[1..], m);
    }
  }

  /** For x in [-1, 1]: (x - m)^2 + 2 m (x - m) = x^2 - m^2 <= 1. */
  lemma DeviationBound(x: real, m: real, d: real, e: real, z: real)
    requires -1.0 <= x <= 1.0
    requires d == SquaredDistanceFrom(m)(x) && e == DeviationFrom(m)(x) && z == ScaledBy(m)(e)
    ensures d <= 1.0 - 2.0 * z
  {
    assert d + 2.0 * z == x * x - m * m;
    ProductNonNegative(1.0 - x, 1.0 + x);
    if m >= 0.0 {
      ProductNonNegative(m, m);
    } else {
      ProductNonNegative(-m, -m);
    }
  }

  /** Summing d <= 1 - 2 z element by element. */
  lemma {:induction false} SumBoundedBy(ds: seq<real>, zs: seq<real>)
    requires |zs| == |ds|
    requires forall i :: 0 <= i < |ds| ==> ds[i] <= 1.0 - 2.0 * zs[i]
    ensures Sum(ds) <= |ds| as real - 2.0 * Sum(zs)
  {
    if ds != [] {
      SumBoundedBy(ds[1..], zs[1..]);
    }
  }

  /** The cross terms m (x - m), one per value. */
  function CrossTerms(xs: seq<real>, m: real): seq<real>
  {
    MapSeq(MapSeq(xs, DeviationFrom(m)), ScaledBy(m))
  }

  /** Values in [-1, 1]: the squared deviations from m sum to at most
      |xs| less twice the cross terms. */
  lemma DeviationsBelow(xs: seq<real>, m: real)
    requires forall i :: 0 <= i < |xs| ==> -1.0 <= xs[i] <= 1.0
    ensures Sum(SquaredDeviations(xs, m)) <= |xs| as real - 2.0 * Sum(CrossTerms(xs, m))
  {
    var devs := SquaredDeviations(xs, m);
    var es := MapSeq(xs, DeviationFrom(m));
    var zs := MapSeq(es, ScaledBy(m));
    forall i | 0 <= i < |devs| ensures devs[i] <= 1.0 - 2.0 * zs[i] {
      DeviationBound(xs[i], m, devs[i], es[i], zs[i]);
    }
    SumBoundedBy(devs, zs);
  }

  lemma CrossTermsVanish(xs: seq<real>)
    requires |xs| > 0
    ensures Sum(CrossTerms(xs, Mean(xs))) == 0.0
  {
    var m := Mean(xs);
    var es := MapSeq(xs, DeviationFrom(m));
    SumScaled(es, m);
    SumDeviations(xs, m);
    MeanTimesCount(xs);
    CrossTermVanishes(Sum(CrossTerms(xs, m)), Sum(es), Sum(xs), |xs| as real, m);
  }

  /** Values in [-1, 1] have population variance at most 1. */
  lemma VarianceAtMostOne(xs: seq<real>)
    requires |xs| > 0
    requires forall i :: 0 <= i < |xs| ==> -1.0 <= xs[i] <= 1.0
    ensures Variance(xs) <= 1.0
  {
    DeviationsBelow(xs, Mean(xs));
    CrossTermsVanish(xs);
    QuotientAtMostOne(Sum(SquaredDeviations(xs, Mean(xs))), |xs| as real);
  }

  lemma MeanTimesCount(xs: seq<real>)
    requires |xs| > 0
    ensures Sum(xs) == Mean(xs) * |xs| as real
  {
  }

  lemma CrossTermVanishes(scaled: real, deviations: real, sum: real, n: real, m: real)
    requires scaled == m * deviations && deviations == sum - n * m && sum == m * n
    ensures scaled == 0.0
  {
  }

  lemma QuotientAtMostOne(t: real, n: real)
    requires t <= n && n > 0.0
    ensures t / n <= 1.0
  {
  }

  /** Identical values have variance zero. */
  lemma VarianceConstant(xs: seq<real>, c: real)
    requires |xs| > 0
    requires forall i :: 0 <= i < |xs| ==> xs[i] == c
    ensures Variance(xs) == 0.0
  {
    var n := |xs| as real;
    SumConstant(xs, c);
    assert Mean(xs) == c;
    var devs := SquaredDeviations(xs, c);
    SumConstant(devs, 0.0);
  }
}
