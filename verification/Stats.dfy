/** Per-metric statistics of a group of runs, over exact reals. */
module Stats {
  import opened Sums
  import opened Ordering

  /** The standard deviation is kept as its square. */
  datatype MetricStat = MetricStat(count: nat, min: real, max: real, mean: real, variance: real)

  function Itself(v: real): real {
    v
  }

  /** Squared distance from `c`. */
  function FromCentre(c: real): real -> real {
    v => (v - c) * (v - c)
  }

  function Mean(vs: seq<real>): real
    requires |vs| > 0
  {
    Sum(vs, Itself) / |vs| as real
  }

  function Variance(vs: seq<real>): real
    requires |vs| > 0
  {
    Sum(vs, FromCentre(Mean(vs))) / |vs| as real
  }

  ghost predicate IsMin(m: real, vs: seq<real>) {
    m in vs && forall v | v in vs :: m <= v
  }

  ghost predicate IsMax(m: real, vs: seq<real>) {
    m in vs && forall v | v in vs :: v <= m
  }

  /** `s` summarizes `vs`. */
  ghost predicate Summarizes(s: MetricStat, vs: seq<real>) {
    && |vs| > 0
    && s.count == |vs|
    && IsMin(s.min, vs)
    && IsMax(s.max, vs)
    && s.mean == Mean(vs)
    && s.variance == Variance(vs)
  }

  method ExtremesAndSum(vs: seq<real>) returns (min: real, max: real, sum: real)
    requires |vs| > 0
    ensures IsMin(min, vs) && IsMax(max, vs) && sum == Sum(vs, Itself)
  {
    min, max, sum := vs[0], vs[0], 0.0;
    for i := 0 to |vs|
      invariant min in vs && max in vs
      invariant forall k :: 0 <= k < i ==> min <= vs[k] <= max
      invariant sum == Sum(vs[..i], Itself)
    {
      SumPrefix(vs, i, Itself);
      if vs[i] < min {
        min := vs[i];
      }
      if vs[i] > max {
        max := vs[i];
      }
      sum := sum + vs[i];
    }
    assert vs[..|vs|] == vs;
  }

  /** Two passes: extremes and sum, then squared distances from the mean. */
  method Stat(vs: seq<real>) returns (s: MetricStat)
    requires |vs| > 0
    ensures Summarizes(s, vs)
  {
    var min, max, sum := ExtremesAndSum(vs);
    var mean := sum / |vs| as real;
    var squares := Accumulate(vs, FromCentre(mean));
    s := MetricStat(|vs|, min, max, mean, squares / |vs| as real);
  }

  // ----- Bounds -----

  function Constantly(c: real): real -> real {
    _ => c
  }

  lemma SumBetween(vs: seq<real>, lo: real, hi: real)
    requires forall v | v in vs :: lo <= v <= hi
    ensures |vs| as real * lo <= Sum(vs, Itself) <= |vs| as real * hi
  {
    SumMonotone(vs, Constantly(lo), Itself);
    SumMonotone(vs, Itself, Constantly(hi));
    SumConstant(vs, Constantly(lo), lo);
    SumConstant(vs, Constantly(hi), hi);
  }

  lemma ProductSign(x: real, n: real)
    requires n > 0.0
    ensures x * n >= 0.0 <==> x >= 0.0
  {
  }

  lemma DivideBounds(n: real, lo: real, x: real, hi: real)
    requires n > 0.0 && n * lo <= x <= n * hi
    ensures lo <= x / n <= hi
  {
    var q := x / n;
    assert q * n == x;
    assert (q - lo) * n == q * n - n * lo && (hi - q) * n == n * hi - q * n;
    ProductSign(q - lo, n);
    ProductSign(hi - q, n);
  }

  lemma MeanBetween(vs: seq<real>, lo: real, hi: real)
    requires |vs| > 0 && forall v | v in vs :: lo <= v <= hi
    ensures lo <= Mean(vs) <= hi
  {
    SumBetween(vs, lo, hi);
    DivideBounds(|vs| as real, lo, Sum(vs, Itself), hi);
  }

  lemma NonNegativeProduct(x: real, y: real)
    requires x >= 0.0 && y >= 0.0
    ensures x * y >= 0.0
  {
  }

  lemma Square(d: real)
    ensures d * d >= 0.0
    ensures d * d == 0.0 <==> d == 0.0
  {
    if d > 0.0 { ProductSign(-d, d); } else if d < 0.0 { ProductSign(d, -d); }
  }

  /** A point between `lo` and `hi`, seen from `c`: (hi - v)(v - lo) >= 0, expanded. */
  lemma PointBound(v: real, c: real, lo: real, hi: real)
    requires lo <= v <= hi
    ensures (v - c) * (v - c) <= (hi - c) * (c - lo) + (hi + lo - 2.0 * c) * (v - c)
  {
    var d := v - c;
    NonNegativeProduct(hi - v, v - lo);
    assert (hi - c - d) * (c - lo + d) == (hi - c) * (c - lo) + d * (hi - c) - d * (c - lo) - d * d;
    assert (hi + lo - 2.0 * c) * d == d * (hi - c) - d * (c - lo);
  }

  function Offset(c: real): real -> real {
    v => v - c
  }

  function Scaled(k: real, c: real): real -> real {
    v => k * (v - c)
  }

  function Line(room: real, slope: real, c: real): real -> real {
    v => room + slope * (v - c)
  }

  /** Offsets from the mean cancel. */
  lemma OffsetsCancel(vs: seq<real>)
    requires |vs| > 0
    ensures Sum(vs, Offset(Mean(vs))) == 0.0
  {
    var c := Mean(vs);
    SumAdd(vs, Offset(c), Constantly(c), Itself);
    SumConstant(vs, Constantly(c), c);
    assert |vs| as real * c == Sum(vs, Itself);
  }

  lemma LineSum(vs: seq<real>, c: real, room: real, slope: real)
    requires Sum(vs, Offset(c)) == 0.0
    ensures Sum(vs, Line(room, slope, c)) == |vs| as real * room
  {
    SumScale(vs, slope, Offset(c), Scaled(slope, c));
    SumConstant(vs, Constantly(room), room);
    SumAdd(vs, Constantly(room), Scaled(slope, c), Line(room, slope, c));
  }

  lemma UnderLine(v: real, c: real, lo: real, hi: real, room: real, slope: real)
    requires lo <= v <= hi && room == (hi - c) * (c - lo) && slope == hi + lo - 2.0 * c
    ensures FromCentre(c)(v) <= Line(room, slope, c)(v)
  {
    PointBound(v, c, lo, hi);
  }

  ghost predicate BelowLine(vs: seq<real>, c: real, room: real, slope: real) {
    forall v | v in vs :: FromCentre(c)(v) <= Line(room, slope, c)(v)
  }

  lemma AllBelowLine(vs: seq<real>, c: real, lo: real, hi: real, room: real, slope: real)
    requires forall v | v in vs :: lo <= v <= hi
    requires room == (hi - c) * (c - lo) && slope == hi + lo - 2.0 * c
    ensures BelowLine(vs, c, room, slope)
  {
    forall v | v in vs {
      UnderLine(v, c, lo, hi, room, slope);
    }
  }

  lemma SquaresUnderLine(vs: seq<real>, c: real, room: real, slope: real)
    requires Sum(vs, Offset(c)) == 0.0 && BelowLine(vs, c, room, slope)
    ensures Sum(vs, FromCentre(c)) <= |vs| as real * room
  {
    SumMonotone(vs, FromCentre(c), Line(room, slope, c));
    LineSum(vs, c, room, slope);
  }

  /** Squared distances from a centre that balances the offsets. */
  lemma SquaresBound(vs: seq<real>, c: real, lo: real, hi: real, room: real)
    requires forall v | v in vs :: lo <= v <= hi
    requires Sum(vs, Offset(c)) == 0.0 && room == (hi - c) * (c - lo)
    ensures Sum(vs, FromCentre(c)) <= |vs| as real * room
  {
    var slope := hi + lo - 2.0 * c;
    AllBelowLine(vs, c, lo, hi, room, slope);
    SquaresUnderLine(vs, c, room, slope);
  }

  lemma SquaresNonNegative(vs: seq<real>, c: real)
    ensures Sum(vs, FromCentre(c)) >= 0.0
    ensures Sum(vs, FromCentre(c)) == 0.0 ==> forall v | v in vs :: v == c
  {
    forall v | v in vs ensures FromCentre(c)(v) >= 0.0 && (FromCentre(c)(v) == 0.0 <==> v == c) {
      Square(v - c);
    }
    SumNonNegative(vs, FromCentre(c));
  }

  lemma VarianceAtMost(vs: seq<real>, room: real)
    requires |vs| > 0 && Sum(vs, FromCentre(Mean(vs))) <= |vs| as real * room
    ensures 0.0 <= Variance(vs) <= room
  {
    var n, total := |vs| as real, Sum(vs, FromCentre(Mean(vs)));
    SquaresNonNegative(vs, Mean(vs));
    assert n * 0.0 == 0.0;
    DivideBounds(n, 0.0, total, room);
  }

  lemma VarianceBound(vs: seq<real>, c: real, lo: real, hi: real, room: real)
    requires |vs| > 0 && forall v | v in vs :: lo <= v <= hi
    requires c == Mean(vs) && room == (hi - c) * (c - lo)
    ensures 0.0 <= Variance(vs) <= room
  {
    OffsetsCancel(vs);
    SquaresBound(vs, c, lo, hi, room);
    VarianceAtMost(vs, room);
  }

  /**
   min <= mean <= max, and the variance is at most (max - mean)(mean - min),
   which is at most a quarter of the range squared.
   */
  lemma StatBounds(s: MetricStat, vs: seq<real>)
    requires Summarizes(s, vs)
    ensures s.min <= s.mean <= s.max
    ensures 0.0 <= s.variance <= (s.max - s.mean) * (s.mean - s.min)
    ensures (s.max - s.mean) * (s.mean - s.min) <= (s.max - s.min) * (s.max - s.min) / 4.0
  {
    MeanBetween(vs, s.min, s.max);
    VarianceBound(vs, s.mean, s.min, s.max, (s.max - s.mean) * (s.mean - s.min));
    QuarterRange(s.max - s.mean, s.mean - s.min);
  }

  lemma QuarterRange(x: real, y: real)
    ensures x * y <= (x + y) * (x + y) / 4.0
  {
    Square(x - y);
    assert (x + y) * (x + y) == (x - y) * (x - y) + 4.0 * (x * y);
  }

  /** The standard deviation is zero exactly when all values are equal. */
  lemma NoSpreadExactly(s: MetricStat, vs: seq<real>)
    requires Summarizes(s, vs)
    ensures s.variance == 0.0 <==> forall v | v in vs :: v == vs[0]
  {
    var squares, n := Sum(vs, FromCentre(s.mean)), |vs| as real;
    assert squares / n * n == squares;
    SquaresNonNegative(vs, s.mean);
    if s.variance == 0.0 {
      assert squares == 0.0;
      assert vs[0] in vs;
    }
    if forall v | v in vs :: v == vs[0] {
      MeanBetween(vs, vs[0], vs[0]);
      SumConstant(vs, FromCentre(s.mean), 0.0);
    }
  }

  lemma ExtremesPermuted(lo: real, hi: real, vs: seq<real>, ws: seq<real>)
    requires multiset(vs) == multiset(ws) && IsMin(lo, vs) && IsMax(hi, vs)
    ensures |vs| == |ws| && IsMin(lo, ws) && IsMax(hi, ws)
  {
    SameMembers(vs, ws);
    SameMembers(ws, vs);
  }

  lemma CentrePermuted(vs: seq<real>, ws: seq<real>)
    requires multiset(vs) == multiset(ws) && 0 < |vs| == |ws|
    ensures Mean(vs) == Mean(ws) && Variance(vs) == Variance(ws)
  {
    SumPermuted(vs, ws, Itself);
    SumPermuted(vs, ws, FromCentre(Mean(vs)));
  }

  /** The order in which runs are listed does not change a metric's statistics. */
  lemma StatPermuted(s: MetricStat, vs: seq<real>, ws: seq<real>)
    requires multiset(vs) == multiset(ws) && Summarizes(s, vs)
    ensures Summarizes(s, ws)
  {
    ExtremesPermuted(s.min, s.max, vs, ws);
    CentrePermuted(vs, ws);
  }

  lemma SummaryUnique(s: MetricStat, t: MetricStat, vs: seq<real>)
    requires Summarizes(s, vs) && Summarizes(t, vs)
    ensures s == t
  {
  }

  /** The summary, as a function. */
  ghost function StatOf(vs: seq<real>): (s: MetricStat)
    requires |vs| > 0
    ensures Summarizes(s, vs)
  {
    ExtremesExist(vs);
    var s :| Summarizes(s, vs);
    s
  }

  lemma {:induction false} ExtremesExist(vs: seq<real>)
    requires |vs| > 0
    ensures exists s :: Summarizes(s, vs)
  {
    var lo, hi := Extremes(vs);
    assert Summarizes(MetricStat(|vs|, lo, hi, Mean(vs), Variance(vs)), vs);
  }

  lemma {:induction false} Extremes(vs: seq<real>) returns (lo: real, hi: real)
    requires |vs| > 0
    ensures IsMin(lo, vs) && IsMax(hi, vs)
  {
    if |vs| == 1 {
      lo, hi := vs[0], vs[0];
    } else {
      lo, hi := Extremes(vs[1..]);
      lo, hi := if vs[0] < lo then vs[0] else lo, if vs[0] > hi then vs[0] else hi;
      assert forall v | v in vs :: v == vs[0] || v in vs[1..];
    }
  }
}
