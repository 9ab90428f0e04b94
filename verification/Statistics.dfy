/**
 The statistics of the constant-time checker, over exact reals: the streaming (Welford) accumulator,
 Welch's t between the two classes, and the gate over all percentile crops.
 */
module Statistics {
  import opened Collections

  // ----- What the accumulator is meant to hold ------------------------------------------------

  function Sum(xs: seq<real>): real {
    if xs == [] then 0.0 else Sum(xs[..|xs| - 1]) + xs[|xs| - 1]
  }

  /** The sum of squared deviations from c. */
  function Deviations(xs: seq<real>, c: real): (d: real)
    ensures d >= 0.0
  {
    if xs == [] then 0.0 else Deviations(xs[..|xs| - 1], c) + Square(xs[|xs| - 1] - c)
  }

  function Square(x: real): (r: real)
    ensures r >= 0.0
  {
    x * x
  }

  function SampleMean(xs: seq<real>): real
    requires xs != []
  {
    Sum(xs) / |xs| as real
  }

  function SampleVariance(xs: seq<real>): (v: real)
    requires |xs| >= 2
    ensures v >= 0.0
  {
    NonNegativeQuotient(Deviations(xs, SampleMean(xs)), (|xs| - 1) as real);
    Deviations(xs, SampleMean(xs)) / (|xs| - 1) as real
  }

  /** For instance 0 and 2: mean 1, and variance 2 over one degree of freedom. */
  lemma SampleOfTwo()
    ensures SampleMean([0.0, 2.0]) == 1.0 && SampleVariance([0.0, 2.0]) == 2.0
  {
    var xs := [0.0, 2.0];
    assert xs[..1] == [0.0] && xs[..1][..0] == [];
    assert Sum(xs) == Sum(xs[..1]) + 2.0 && Sum(xs[..1]) == Sum(xs[..1][..0]) + 0.0;
    assert Deviations(xs[..1], 1.0) == Deviations(xs[..1][..0], 1.0) + Square(-1.0);
    assert Deviations(xs, 1.0) == Deviations(xs[..1], 1.0) + Square(1.0);
    assert Square(1.0) == 1.0 * 1.0 && Square(-1.0) == (-1.0) * (-1.0);
  }

  lemma NonNegativeQuotient(a: real, b: real)
    requires a >= 0.0 && b > 0.0
    ensures a / b >= 0.0
  {}

  // ----- The accumulator ----------------------------------------------------------------------

  datatype Stats = Stats(n: nat, mean: real, m2: real) {
    /** `Acc.add`. */
    function Add(x: real): Stats {
      var k := n + 1;
      var delta := x - mean;
      var mean' := mean + delta / k as real;
      Stats(k, mean', m2 + delta * (x - mean'))
    }

    /** `Acc.variance`. */
    function Variance(): real {
      if n < 2 then 0.0 else m2 / (n - 1) as real
    }
  }

  const EMPTY := Stats(0, 0.0, 0.0)

  function AddAll(xs: seq<real>): Stats {
    if xs == [] then EMPTY else AddAll(xs[..|xs| - 1]).Add(xs[|xs| - 1])
  }

  function SquareSum(xs: seq<real>): real {
    if xs == [] then 0.0 else SquareSum(xs[..|xs| - 1]) + Square(xs[|xs| - 1])
  }

  lemma {:induction false} DeviationsExpanded(xs: seq<real>, c: real)
    ensures Expands(Deviations(xs, c), |xs| as real, Sum(xs), SquareSum(xs), c)
  {
    if xs != [] {
      var init, x := xs[..|xs| - 1], xs[|xs| - 1];
      DeviationsExpanded(init, c);
      ExpandStep(Deviations(init, c), |init| as real, Sum(init), SquareSum(init), c, x,
                 Deviations(xs, c), |xs| as real, Sum(xs), SquareSum(xs));
    }
  }

  /** The deviations d from c of n samples with sum s and sum of squares q. */
  ghost predicate Expands(d: real, n: real, s: real, q: real, c: real) {
    d == q - 2.0 * (c * s) + n * (c * c)
  }

  lemma ExpandStep(d: real, n: real, s: real, q: real, c: real, x: real, d': real, n': real, s': real, q': real)
    requires Expands(d, n, s, q, c)
    requires d' == d + Square(x - c) && n' == n + 1.0 && s' == s + x && q' == q + Square(x)
    ensures Expands(d', n', s', q', c)
  {
    ExpandSquare(x, c);
    Distribute(c, s, x);
    Distribute(c * c, n, 1.0);
  }

  lemma ExpandSquare(x: real, c: real)
    ensures Square(x - c) == Square(x) - 2.0 * (c * x) + c * c
  {
    calc {
      (x - c) * (x - c);
      x * (x - c) - c * (x - c);
      x * x - x * c - (c * x - c * c);
    }
  }

  lemma Distribute(c: real, a: real, b: real)
    ensures c * (a + b) == c * a + c * b
  {}

  /** The mean update keeps n * mean equal to the sum. */
  lemma MeanStep(n: real, mean: real, x: real)
    requires n >= 0.0
    ensures (n + 1.0) * (mean + (x - mean) / (n + 1.0)) == n * mean + x
  {
    var k, q := n + 1.0, (x - mean) / (n + 1.0);
    assert k * q == x - mean;
    Distribute(k, mean, q);
  }

  /** The algebra behind the m2 update: Q - m*S gains (x - m) * (x - m'). */
  lemma DeviationStep(n: real, s: real, m: real, m': real, x: real)
    requires s == n * m && s + x == (n + 1.0) * m'
    ensures x * x - m' * (s + x) == -(m * s) + (x - m) * (x - m')
  {
    calc {
      (x - m) * (x - m');
      x * x - x * m' - (m * x - m * m');
    }
    assert m * (s + x) == m' * (s + m) by {
      assert m * ((n + 1.0) * m') == m' * ((n + 1.0) * m);
      assert (n + 1.0) * m == s + m;
    }
    Distribute(m, s, x);
    Distribute(m', s, x);
    Distribute(m', s, m);
  }

  /** What the accumulator holds, in terms of the running sum and the running sum of squares. */
  ghost predicate Holds(a: Stats, n: real, s: real, q: real) {
    a.n as real == n && n * a.mean == s && a.m2 == q - a.mean * s
  }

  lemma AddMean(a: Stats, n: real, x: real, n': real)
    requires a.n as real == n && n' == n + 1.0
    ensures a.Add(x).n as real == n' && n' * a.Add(x).mean == n * a.mean + x
  {
    assert (a.n + 1) as real == n';
    MeanStep(n, a.mean, x);
  }

  lemma AddStep(a: Stats, n: real, s: real, q: real, x: real, n': real, s': real, q': real)
    requires Holds(a, n, s, q)
    requires n' == n + 1.0 && s' == s + x && q' == q + Square(x)
    ensures Holds(a.Add(x), n', s', q')
  {
    AddMean(a, n, x, n');
    var b := a.Add(x);
    assert b.m2 == a.m2 + (x - a.mean) * (x - b.mean);
    DeviationStep(n, s, a.mean, b.mean, x);
  }

  lemma {:induction false} Moments(xs: seq<real>)
    ensures Holds(AddAll(xs), |xs| as real, Sum(xs), SquareSum(xs))
  {
    if xs != [] {
      var init := xs[..|xs| - 1];
      Moments(init);
      AddStep(AddAll(init), |init| as real, Sum(init), SquareSum(init), xs[|xs| - 1],
              |xs| as real, Sum(xs), SquareSum(xs));
    }
  }

  /** At the mean, the expansion of the deviations is what m2 holds. */
  lemma AtTheMean(a: Stats, d: real, n: real, s: real, q: real)
    requires Holds(a, n, s, q) && Expands(d, n, s, q, a.mean)
    ensures a.m2 == d
  {
    MeanSquared(n, a.mean, s);
  }

  lemma MeanSquared(n: real, m: real, s: real)
    requires n * m == s
    ensures n * (m * m) == m * s
  {
    assert n * (m * m) == (n * m) * m;
  }

  /** The two-pass statistics of xs. */
  ghost predicate TwoPass(a: Stats, xs: seq<real>) {
    && a.n == |xs|
    && a.n as real * a.mean == Sum(xs)
    && a.m2 == Deviations(xs, a.mean)
  }

  lemma TwoPassOf(a: Stats, xs: seq<real>)
    requires a.n == |xs| && Holds(a, |xs| as real, Sum(xs), SquareSum(xs))
    ensures TwoPass(a, xs)
  {
    DeviationsExpanded(xs, a.mean);
    AtTheMean(a, Deviations(xs, a.mean), |xs| as real, Sum(xs), SquareSum(xs));
    HoldsSum(a, |xs| as real, Sum(xs), SquareSum(xs));
  }

  lemma HoldsSum(a: Stats, n: real, s: real, q: real)
    requires Holds(a, n, s, q)
    ensures a.n as real * a.mean == s
  {}

  lemma {:induction false} CountsAll(xs: seq<real>)
    ensures AddAll(xs).n == |xs|
  {
    if xs != [] {
      CountsAll(xs[..|xs| - 1]);
    }
  }

  /** Welford is exact: after any sequence of adds the accumulator holds the two-pass statistics. */
  lemma WelfordExact(xs: seq<real>)
    ensures TwoPass(AddAll(xs), xs)
  {
    Moments(xs);
    CountsAll(xs);
    TwoPassOf(AddAll(xs), xs);
  }

  lemma MeanAndVarianceExact(xs: seq<real>)
    ensures xs != [] ==> AddAll(xs).mean == SampleMean(xs)
    ensures |xs| >= 2 ==> AddAll(xs).Variance() == SampleVariance(xs)
    ensures |xs| < 2 ==> AddAll(xs).Variance() == 0.0
  {
    WelfordExact(xs);
    if xs != [] {
      Quotient(|xs| as real, AddAll(xs).mean, Sum(xs));
    }
  }

  lemma Quotient(n: real, m: real, s: real)
    requires n != 0.0 && n * m == s
    ensures m == s / n
  {}

  // ----- Welch's t, squared -------------------------------------------------------------------

  /** The square of `welchT`, whose only irrational step is the root in the denominator. */
  function WelchSquared(a: Stats, b: Stats): real {
    if a.n < 2 || b.n < 2 then 0.0
    else
      var va := a.Variance() / a.n as real;
      var vb := b.Variance() / b.n as real;
      if va + vb == 0.0 then 0.0 else Square(a.mean - b.mean) / (va + vb)
  }

  /** The variance of the difference of the two sample means. */
  function Spread(xs: seq<real>, ys: seq<real>): real
    requires |xs| >= 2 && |ys| >= 2
  {
    SampleVariance(xs) / |xs| as real + SampleVariance(ys) / |ys| as real
  }

  /** The textbook statistic of two samples, where it is defined. */
  function TextbookSquared(xs: seq<real>, ys: seq<real>): real
    requires |xs| >= 2 && |ys| >= 2 && Spread(xs, ys) != 0.0
  {
    Square(SampleMean(xs) - SampleMean(ys)) / Spread(xs, ys)
  }

  predicate AllAre<T(==)>(xs: seq<T>, c: T) {
    forall i :: 0 <= i < |xs| ==> xs[i] == c
  }

  predicate Constant<T(==)>(xs: seq<T>) {
    xs == [] || AllAre(xs, xs[0])
  }

  /**
   The textbook statistic is undefined exactly when both samples are constant.  There, as for too few
   samples, the code reports zero, whether the two constants are equal or not.
   */
  lemma WelchExact(xs: seq<real>, ys: seq<real>)
    ensures |xs| >= 2 && |ys| >= 2 ==> (Spread(xs, ys) == 0.0 <==> Constant(xs) && Constant(ys))
    ensures WelchSquared(AddAll(xs), AddAll(ys))
            == if |xs| < 2 || |ys| < 2 || (Constant(xs) && Constant(ys)) then 0.0 else TextbookSquared(xs, ys)
  {
    WelfordExact(xs);
    WelfordExact(ys);
    MeanAndVarianceExact(xs);
    MeanAndVarianceExact(ys);
    if |xs| >= 2 && |ys| >= 2 {
      VarianceZeroIff(xs);
      VarianceZeroIff(ys);
      NoSpread(SampleVariance(xs), |xs| as real, SampleVariance(ys), |ys| as real);
    }
  }

  /** When the reported statistic is zero: too few samples, two constant classes, or equal means. */
  lemma WelchZeroIff(xs: seq<real>, ys: seq<real>)
    ensures WelchSquared(AddAll(xs), AddAll(ys)) == 0.0
            <==> |xs| < 2 || |ys| < 2 || (Constant(xs) && Constant(ys)) || SampleMean(xs) == SampleMean(ys)
  {
    WelchExact(xs, ys);
    if |xs| >= 2 && |ys| >= 2 && Spread(xs, ys) != 0.0 {
      ZeroQuotient(Square(SampleMean(xs) - SampleMean(ys)), Spread(xs, ys));
      ZeroSquare(SampleMean(xs) - SampleMean(ys));
    }
  }

  lemma ZeroSquare(x: real)
    ensures Square(x) == 0.0 <==> x == 0.0
  {
    if x != 0.0 {
      NonZeroProduct(x, x, Square(x));
    }
  }

  lemma NonZeroProduct(x: real, y: real, r: real)
    requires x != 0.0 && y != 0.0 && r == x * y
    ensures r != 0.0
  {}

  lemma ZeroQuotient(a: real, b: real)
    requires b != 0.0
    ensures a / b == 0.0 <==> a == 0.0
  {
    assert (a / b) * b == a;
  }

  lemma NoSpread(v: real, n: real, w: real, k: real)
    requires v >= 0.0 && w >= 0.0 && n > 0.0 && k > 0.0
    ensures v / n + w / k == 0.0 <==> v == 0.0 && w == 0.0
  {
    NonNegativeQuotient(v, n);
    NonNegativeQuotient(w, k);
    ZeroQuotient(v, n);
    ZeroQuotient(w, k);
  }

  lemma {:induction false} NoDeviations(xs: seq<real>, c: real)
    ensures Deviations(xs, c) == 0.0 <==> AllAre(xs, c)
  {
    if xs != [] {
      var init, x := xs[..|xs| - 1], xs[|xs| - 1];
      NoDeviations(init, c);
      ZeroSquare(x - c);
      assert AllAre(xs, c) ==> AllAre(init, c) && x == c;
      assert AllAre(init, c) && x == c ==> AllAre(xs, c);
    }
  }

  lemma {:induction false} SumOfEqual(xs: seq<real>, c: real)
    requires AllAre(xs, c)
    ensures Sum(xs) == c * |xs| as real
  {
    if xs != [] {
      SumOfEqual(xs[..|xs| - 1], c);
      Distribute(c, (|xs| - 1) as real, 1.0);
    }
  }

  /** A sample does not vary exactly when all its values are equal. */
  lemma VarianceZeroIff(xs: seq<real>)
    requires |xs| >= 2
    ensures SampleVariance(xs) == 0.0 <==> Constant(xs)
  {
    var mean := SampleMean(xs);
    if Constant(xs) {
      SumOfEqual(xs, xs[0]);
      Quotient(|xs| as real, xs[0], Sum(xs));
    }
    NoDeviations(xs, mean);
    ZeroQuotient(Deviations(xs, mean), (|xs| - 1) as real);
  }

  // ----- Percentile crops -----------------------------------------------------------------------

  ghost predicate Sorted(s: seq<nat>) {
    forall i, j :: 0 <= i < j < |s| ==> s[i] <= s[j]
  }

  /** The index of the cutoff: p * (len - 1), truncated. */
  function CropIndex(p: real, len: nat): (i: nat)
    requires 0.0 <= p <= 1.0 && len > 0
    ensures i < len
  {
    var x := p * (len - 1) as real;
    ScaledBounds(p, (len - 1) as real);
    x.Floor
  }

  lemma ScaledBounds(p: real, n: real)
    requires 0.0 <= p <= 1.0 && n >= 0.0
    ensures 0.0 <= p * n <= n
  {
    assert p * n <= 1.0 * n;
  }

  /** The samples that survive a crop, as the reals the accumulator sees. */
  function Kept(ts: seq<nat>, cutoff: nat): seq<nat> {
    if ts == [] then []
    else Kept(ts[..|ts| - 1], cutoff) + if ts[|ts| - 1] <= cutoff then [ts[|ts| - 1]] else []
  }

  lemma {:induction false} KeptCounts(ts: seq<nat>, cutoff: nat, x: nat)
    ensures multiset(Kept(ts, cutoff))[x] == if x <= cutoff then multiset(ts)[x] else 0
  {
    if ts != [] {
      var init, last := ts[..|ts| - 1], ts[|ts| - 1];
      KeptCounts(init, cutoff, x);
      CountPush(init, last, x);
      CountPush(Kept(init, cutoff), last, x);
      assert ts == init + [last] && Kept(init, cutoff) + [] == Kept(init, cutoff);
    }
  }

  lemma CountPush(s: seq<nat>, v: nat, x: nat)
    ensures multiset(s + [v])[x] == multiset(s)[x] + if v == x then 1 else 0
  {}

  lemma CropIndexMonotone(p: real, q: real, len: nat)
    requires 0.0 <= p <= q <= 1.0 && len > 0
    ensures CropIndex(p, len) <= CropIndex(q, len)
  {
    var n := (len - 1) as real;
    Scale(p, q, n);
    FloorMonotone(p * n, q * n);
  }

  lemma Scale(p: real, q: real, n: real)
    requires p <= q && n >= 0.0
    ensures p * n <= q * n
  {}

  lemma FloorMonotone(x: real, y: real)
    requires x <= y
    ensures x.Floor <= y.Floor
  {}

  /** A larger crop keeps a superset, sample by sample, multiplicities included. */
  lemma LargerCropsKeepMore(combined: seq<nat>, ts: seq<nat>, p: real, q: real)
    requires Sorted(combined) && combined != []
    requires 0.0 <= p <= q <= 1.0
    ensures multiset(Kept(ts, combined[CropIndex(p, |combined|)]))
            <= multiset(Kept(ts, combined[CropIndex(q, |combined|)]))
  {
    CropIndexMonotone(p, q, |combined|);
    forall x
      ensures multiset(Kept(ts, combined[CropIndex(p, |combined|)]))[x]
              <= multiset(Kept(ts, combined[CropIndex(q, |combined|)]))[x]
    {
      KeptCounts(ts, combined[CropIndex(p, |combined|)], x);
      KeptCounts(ts, combined[CropIndex(q, |combined|)], x);
    }
  }

  /** The 1.0 crop keeps every sample, in order. */
  lemma FullCropKeepsAll(combined: seq<nat>, ts: seq<nat>)
    requires Sorted(combined) && combined != [] && multiset(ts) <= multiset(combined)
    ensures Kept(ts, combined[CropIndex(1.0, |combined|)]) == ts
  {
    assert CropIndex(1.0, |combined|) == |combined| - 1;
    forall i | 0 <= i < |ts|
      ensures ts[i] <= combined[|combined| - 1]
    {
      assert ts[i] in multiset(ts);
      assert ts[i] in combined;
    }
    KeptPrefix(ts, combined[|combined| - 1]);
  }

  /** A crop at p keeps more than p * (n - 1) of the n samples. */
  lemma CropKeepsEnough(combined: seq<nat>, p: real)
    requires Sorted(combined) && combined != [] && 0.0 <= p <= 1.0
    ensures |Kept(combined, combined[CropIndex(p, |combined|)])| as real > p * (|combined| - 1) as real
  {
    var i := CropIndex(p, |combined|);
    KeepsUpTo(combined, i);
    IndexAbove(p, |combined|);
  }

  lemma IndexAbove(p: real, len: nat)
    requires 0.0 <= p <= 1.0 && len > 0
    ensures (CropIndex(p, len) + 1) as real > p * (len - 1) as real
  {}

  /** At most p * (n - 1) samples lie strictly below the cutoff: the crop is no wider than it has to be. */
  lemma CropDropsEnough(combined: seq<nat>, p: real)
    requires Sorted(combined) && combined != [] && 0.0 <= p <= 1.0
    ensures var cutoff := combined[CropIndex(p, |combined|)];
            |Filter((x: nat) => x < cutoff, combined)| as real <= p * (|combined| - 1) as real
  {
    var i := CropIndex(p, |combined|);
    var below := (x: nat) => x < combined[i];
    IndexIs(p, |combined|);
    assert combined == combined[..i] + combined[i..];
    FilterAppend(below, combined[..i], combined[i..]);
    FilterShrinks(below, combined[..i]);
    FilterNone(below, combined[i..]);
  }

  lemma {:induction false} FilterShrinks(keep: nat -> bool, s: seq<nat>)
    ensures |Filter(keep, s)| <= |s|
  {
    if s != [] {
      FilterShrinks(keep, s[1..]);
    }
  }

  lemma {:induction false} FilterNone(keep: nat -> bool, s: seq<nat>)
    requires forall i :: 0 <= i < |s| ==> !keep(s[i])
    ensures Filter(keep, s) == []
  {
    if s != [] {
      FilterNone(keep, s[1..]);
      assert !keep(s[0]);
    }
  }

  lemma IndexIs(p: real, len: nat)
    requires 0.0 <= p <= 1.0 && len > 0
    ensures CropIndex(p, len) as real <= p * (len - 1) as real < (CropIndex(p, len) + 1) as real
  {}

  lemma KeepsUpTo(combined: seq<nat>, i: nat)
    requires Sorted(combined) && i < |combined|
    ensures |Kept(combined, combined[i])| >= i + 1
  {
    KeptPrefix(combined[..i + 1], combined[i]);
    assert combined == combined[..i + 1] + combined[i + 1..];
    KeptGrows(combined[..i + 1], combined[i + 1..], combined[i]);
  }

  lemma {:induction false} KeptPrefix(ts: seq<nat>, cutoff: nat)
    requires forall i :: 0 <= i < |ts| ==> ts[i] <= cutoff
    ensures Kept(ts, cutoff) == ts
  {
    if ts != [] {
      KeptPrefix(ts[..|ts| - 1], cutoff);
      assert ts == ts[..|ts| - 1] + [ts[|ts| - 1]];
    }
  }

  lemma {:induction false} KeptGrows(a: seq<nat>, b: seq<nat>, cutoff: nat)
    ensures |Kept(a + b, cutoff)| >= |Kept(a, cutoff)|
  {
    if b == [] {
      assert a + b == a;
    } else {
      KeptGrows(a, b[..|b| - 1], cutoff);
      assert (a + b)[..|a + b| - 1] == a + b[..|b| - 1];
    }
  }

  // ----- The report -------------------------------------------------------------------------

  function ToReals(ts: seq<nat>): (r: seq<real>)
    ensures |r| == |ts|
  {
    seq(|ts|, i requires 0 <= i < |ts| => ts[i] as real)
  }

  /** The squared statistic of one crop. */
  function CropSquared(fixedT: seq<nat>, randomT: seq<nat>, cutoff: nat): real {
    WelchSquared(AddAll(ToReals(Kept(fixedT, cutoff))), AddAll(ToReals(Kept(randomT, cutoff))))
  }

  /** The streaming accumulator of the source. */
  class Acc {
    var n: nat
    var mean: real
    var m2: real

    ghost function View(): Stats
      reads this
    {
      Stats(n, mean, m2)
    }

    constructor ()
      ensures View() == EMPTY
    {
      n, mean, m2 := 0, 0.0, 0.0;
    }

    method Add(x: real)
      modifies this
      ensures View() == old(View()).Add(x)
    {
      n := n + 1;
      var delta := x - mean;
      mean := mean + delta / n as real;
      m2 := m2 + delta * (x - mean);
    }

    method Variance() returns (v: real)
      ensures v == View().Variance()
    {
      if n < 2 {
        return 0.0;
      }
      v := m2 / (n - 1) as real;
    }
  }

  lemma OneSampleMore(ts: seq<nat>, i: nat, cutoff: nat)
    requires i < |ts|
    ensures var before := AddAll(ToReals(Kept(ts[..i], cutoff)));
            AddAll(ToReals(Kept(ts[..i + 1], cutoff)))
            == if ts[i] <= cutoff then before.Add(ts[i] as real) else before
  {
    var kept := Kept(ts[..i], cutoff);
    assert ts[..i + 1][..i] == ts[..i];
    if ts[i] <= cutoff {
      assert ToReals(kept + [ts[i]])[..|kept|] == ToReals(kept);
    } else {
      assert kept + [] == kept;
    }
  }

  /** One pass of the crop loop over one class. */
  method AddKept(ts: seq<nat>, cutoff: nat) returns (a: Acc)
    ensures fresh(a) && a.View() == AddAll(ToReals(Kept(ts, cutoff)))
  {
    a := new Acc();
    for i := 0 to |ts|
      invariant fresh(a) && a.View() == AddAll(ToReals(Kept(ts[..i], cutoff)))
    {
      OneSampleMore(ts, i, cutoff);
      if ts[i] <= cutoff {
        a.Add(ts[i] as real);
      }
    }
    assert ts[..|ts|] == ts;
  }

  method WelchT(a: Acc, b: Acc) returns (squared: real)
    ensures squared == WelchSquared(a.View(), b.View())
  {
    if a.n < 2 || b.n < 2 {
      return 0.0;
    }
    var va := a.Variance();
    var vb := b.Variance();
    var denom := va / a.n as real + vb / b.n as real;
    if denom == 0.0 {
      return 0.0;
    }
    squared := Square(a.mean - b.mean) / denom;
  }

  /** |t| < 10, squared. */
  const THRESHOLD_SQUARED := 100.0

  /** The percentile crops; 1.0 keeps every sample. */
  const CROPS: seq<real> := [1.0, 0.9999, 0.999, 0.99, 0.95, 0.90, 0.80, 0.70, 0.60, 0.50]

  lemma CropsInRange(i: nat)
    requires i < |CROPS|
    ensures 0.0 <= CROPS[i] <= 1.0
  {}

  /** The squared statistic at crop i of the sorted samples. */
  function SquaredAt(fixedT: seq<nat>, randomT: seq<nat>, combined: seq<nat>, i: nat): real
    requires combined != [] && i < |CROPS|
  {
    CropsInRange(i);
    CropSquared(fixedT, randomT, combined[CropIndex(CROPS[i], |combined|)])
  }

  /** `m` bounds the statistic of the first k crops and, unless it is zero, is one of them. */
  ghost predicate Largest(fixedT: seq<nat>, randomT: seq<nat>, combined: seq<nat>, k: nat, m: real)
    requires combined != [] && k <= |CROPS|
  {
    && (forall i :: 0 <= i < k ==> SquaredAt(fixedT, randomT, combined, i) <= m)
    && (m == 0.0 || exists i :: 0 <= i < k && SquaredAt(fixedT, randomT, combined, i) == m)
  }

  lemma LargerOf(fixedT: seq<nat>, randomT: seq<nat>, combined: seq<nat>, k: nat, m: real)
    requires combined != [] && k < |CROPS| && Largest(fixedT, randomT, combined, k, m)
    ensures var t := SquaredAt(fixedT, randomT, combined, k);
            Largest(fixedT, randomT, combined, k + 1, if t > m then t else m)
  {}

  /** The ten percentages of the report. */
  predicate IsPercentage(p: real) {
    || p == 1.0 || p == 0.9999 || p == 0.999 || p == 0.99 || p == 0.95
    || p == 0.9 || p == 0.8 || p == 0.7 || p == 0.6 || p == 0.5
  }

  /** The sample at the last index that is no more than p * (n - 1). */
  ghost predicate IsCutoff(combined: seq<nat>, p: real, cutoff: nat) {
    exists i :: 0 <= i < |combined| && IsCutoffAt(combined, p, cutoff, i)
  }

  predicate IsCutoffAt(combined: seq<nat>, p: real, cutoff: nat, i: nat)
    requires i < |combined|
  {
    combined[i] == cutoff && i as real <= p * (|combined| - 1) as real < (i + 1) as real
  }

  lemma CropsAreThePercentages()
    ensures |CROPS| == 10 && forall i :: 0 <= i < 10 ==> IsPercentage(CROPS[i])
    ensures CROPS[0] == 1.0 && CROPS[1] == 0.9999 && CROPS[2] == 0.999 && CROPS[3] == 0.99 && CROPS[4] == 0.95
    ensures CROPS[5] == 0.9 && CROPS[6] == 0.8 && CROPS[7] == 0.7 && CROPS[8] == 0.6 && CROPS[9] == 0.5
  {}

  /** Each percentage is one of the crops. */
  lemma CropOf(p: real) returns (i: nat)
    requires IsPercentage(p)
    ensures i < |CROPS| && CROPS[i] == p
  {
    CropsAreThePercentages();
    i := if p == 1.0 then 0 else if p == 0.9999 then 1 else if p == 0.999 then 2 else if p == 0.99 then 3
         else if p == 0.95 then 4 else if p == 0.9 then 5 else if p == 0.8 then 6 else if p == 0.7 then 7
         else if p == 0.6 then 8 else 9;
  }

  /** The code's index finds the cutoff, and there is only one. */
  lemma CutoffIs(combined: seq<nat>, p: real, cutoff: nat)
    requires combined != [] && 0.0 <= p <= 1.0
    ensures IsCutoff(combined, p, cutoff) <==> cutoff == combined[CropIndex(p, |combined|)]
  {
    var k := CropIndex(p, |combined|);
    IndexIs(p, |combined|);
    assert IsCutoffAt(combined, p, combined[k], k);
    if i :| 0 <= i < |combined| && IsCutoffAt(combined, p, cutoff, i) {
      OneFloor(i, k, p * (|combined| - 1) as real);
    }
  }

  lemma OneFloor(i: nat, k: nat, x: real)
    requires i as real <= x < (i + 1) as real && k as real <= x < (k + 1) as real
    ensures i == k
  {}

  /** `m` bounds the statistic at the cutoff of every percentage and, unless it is zero, is one of them. */
  ghost predicate Maximum(fixedT: seq<nat>, randomT: seq<nat>, combined: seq<nat>, m: real) {
    && (forall p, c :: IsPercentage(p) && IsCutoff(combined, p, c) ==> CropSquared(fixedT, randomT, c) <= m)
    && (m == 0.0 || exists p, c :: IsPercentage(p) && IsCutoff(combined, p, c) && CropSquared(fixedT, randomT, c) == m)
  }

  lemma LargestIsMaximum(fixedT: seq<nat>, randomT: seq<nat>, combined: seq<nat>, m: real)
    requires combined != [] && Largest(fixedT, randomT, combined, |CROPS|, m)
    ensures Maximum(fixedT, randomT, combined, m)
  {
    forall p, c | IsPercentage(p) && IsCutoff(combined, p, c)
      ensures CropSquared(fixedT, randomT, c) <= m
    {
      var i := CropOf(p);
      CropsInRange(i);
      CutoffIs(combined, p, c);
      assert SquaredAt(fixedT, randomT, combined, i) <= m;
    }
    if m != 0.0 {
      var i :| 0 <= i < |CROPS| && SquaredAt(fixedT, randomT, combined, i) == m;
      CropsInRange(i);
      CropsAreThePercentages();
      var c := combined[CropIndex(CROPS[i], |combined|)];
      CutoffIs(combined, CROPS[i], c);
      assert IsPercentage(CROPS[i]) && IsCutoff(combined, CROPS[i], c) && CropSquared(fixedT, randomT, c) == m;
    }
  }

  datatype Verdict = Verdict(maxSquared: real, pass: bool)

  /**
   `report`: the largest squared t over all crops and whether it stays under the gate.  `combined` is
   the sorted copy of both classes.  Without any sample the index `combined.len - 1` underflows, and
   there is no verdict.
   */
  method Report(fixedT: seq<nat>, randomT: seq<nat>, combined: seq<nat>) returns (r: Option<Verdict>)
    requires Sorted(combined) && multiset(combined) == multiset(fixedT + randomT)
    ensures r == None <==> fixedT == [] && randomT == []
    ensures r.Some? ==> Maximum(fixedT, randomT, combined, r.value.maxSquared)
    ensures r.Some? ==> combined != [] && Largest(fixedT, randomT, combined, |CROPS|, r.value.maxSquared)
    ensures r.Some? ==> (r.value.pass <==> r.value.maxSquared < 100.0)
  {
    SameSize(combined, fixedT, randomT);
    if |combined| == 0 {
      return None;
    }
    var maxSquared := 0.0;
    for c := 0 to |CROPS|
      invariant Largest(fixedT, randomT, combined, c, maxSquared)
    {
      var squared := CropStatistic(fixedT, randomT, combined, c);
      LargerOf(fixedT, randomT, combined, c, maxSquared);
      if squared > maxSquared {
        maxSquared := squared;
      }
    }
    LargestIsMaximum(fixedT, randomT, combined, maxSquared);
    r := Some(Verdict(maxSquared, maxSquared < THRESHOLD_SQUARED));
  }

  lemma SameSize(combined: seq<nat>, a: seq<nat>, b: seq<nat>)
    requires multiset(combined) == multiset(a + b)
    ensures |combined| == |a| + |b|
  {
    assert |combined| == |multiset(combined)| == |multiset(a + b)| == |a + b|;
  }

  /** The loop body of `report`: both classes up to the cutoff of crop c. */
  method CropStatistic(fixedT: seq<nat>, randomT: seq<nat>, combined: seq<nat>, c: nat) returns (squared: real)
    requires combined != [] && c < |CROPS|
    ensures forall cutoff :: IsCutoff(combined, CROPS[c], cutoff) ==> squared == CropSquared(fixedT, randomT, cutoff)
    ensures squared == SquaredAt(fixedT, randomT, combined, c)
  {
    CropsInRange(c);
    var cutoff := combined[CropIndex(CROPS[c], |combined|)];
    var fa := AddKept(fixedT, cutoff);
    var ra := AddKept(randomT, cutoff);
    squared := WelchT(fa, ra);
    forall other | IsCutoff(combined, CROPS[c], other)
      ensures other == cutoff
    {
      CutoffIs(combined, CROPS[c], other);
    }
  }

  /** A reported maximum under the gate includes the t-test on all samples: no crop can hide it. */
  lemma PassCoversAllSamples(fixedT: seq<nat>, randomT: seq<nat>, combined: seq<nat>, m: real)
    requires Sorted(combined) && combined != [] && multiset(combined) == multiset(fixedT + randomT)
    requires Largest(fixedT, randomT, combined, |CROPS|, m) && m < THRESHOLD_SQUARED
    ensures WelchSquared(AddAll(ToReals(fixedT)), AddAll(ToReals(randomT))) < THRESHOLD_SQUARED
  {
    FullCropKeepsAll(combined, fixedT);
    FullCropKeepsAll(combined, randomT);
    assert CROPS[0] == 1.0;
    assert SquaredAt(fixedT, randomT, combined, 0) <= m;
  }

  lemma {:induction false} KeptConstant(ts: seq<nat>, cutoff: nat, c: nat)
    requires AllAre(ts, c)
    ensures AllAre(Kept(ts, cutoff), c) && Constant(ToReals(Kept(ts, cutoff)))
  {
    if ts != [] {
      KeptConstant(ts[..|ts| - 1], cutoff, c);
    }
  }

  /** Two constant classes pass, however far apart their timings are. */
  lemma ConstantClassesPass(fixedT: seq<nat>, randomT: seq<nat>, combined: seq<nat>)
    requires combined != [] && Constant(fixedT) && Constant(randomT)
    ensures forall m :: Largest(fixedT, randomT, combined, |CROPS|, m) <==> m == 0.0
  {
    forall i | 0 <= i < |CROPS|
      ensures SquaredAt(fixedT, randomT, combined, i) == 0.0
    {
      CropsInRange(i);
      var cutoff := combined[CropIndex(CROPS[i], |combined|)];
      KeptConstant(fixedT, cutoff, if fixedT == [] then 0 else fixedT[0]);
      KeptConstant(randomT, cutoff, if randomT == [] then 0 else randomT[0]);
      WelchZeroIff(ToReals(Kept(fixedT, cutoff)), ToReals(Kept(randomT, cutoff)));
    }
  }

  /** For instance 100 ns for every fixed and 200 ns for every random measurement. */
  lemma TwiceAsSlowPasses()
    ensures Largest([100, 100], [200, 200], [100, 100, 200, 200], |CROPS|, 0.0) && 0.0 < THRESHOLD_SQUARED
    ensures SampleMean([100.0, 100.0]) == 100.0 && SampleMean([200.0, 200.0]) == 200.0
  {
    ConstantClassesPass([100, 100], [200, 200], [100, 100, 200, 200]);
    SumOfEqual([100.0, 100.0], 100.0);
    SumOfEqual([200.0, 200.0], 200.0);
  }
}
