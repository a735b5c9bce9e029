/** The example's rank-based AUC, against the pairwise definition. */
module Auc {
  import opened Wrappers
  import opened Sums
  import opened Ordering

  /** How a positive score `x` fares against another score `y`: win, tie or loss. */
  function Beats(x: real, y: real): real {
    if y < x then 1.0 else if y == x then 0.5 else 0.0
  }

  /** `x` against every score of `s`. */
  function Wins(x: real, s: seq<real>): real {
    if |s| == 0 then 0.0 else Beats(x, s[0]) + Wins(x, s[1..])
  }

  /** All pairs of a score from `p` with one from `n`. */
  function PairWins(p: seq<real>, n: seq<real>): real {
    if |p| == 0 then 0.0 else Wins(p[0], n) + PairWins(p[1..], n)
  }

  function Labelled(scores: seq<real>, labels: seq<int>, y: int): seq<real>
    requires |scores| == |labels|
  {
    if |scores| == 0 then []
    else (if labels[0] == y then [scores[0]] else []) + Labelled(scores[1..], labels[1..], y)
  }

  predicate Binary(labels: seq<int>) {
    forall i :: 0 <= i < |labels| ==> labels[i] == 0 || labels[i] == 1
  }

  /** The fraction of (positive, negative) pairs ordered correctly, ties counting half. */
  function PairwiseAuc(p: seq<real>, n: seq<real>): Option<real> {
    if |p| == 0 || |n| == 0 then None
    else
      var pairs := |p| as real * |n| as real;
      if pairs > 0.0 then Some(PairWins(p, n) / pairs) else assert false; None
  }

  // ----- Sums of wins -----

  lemma {:induction false} WinsBounds(x: real, s: seq<real>)
    ensures 0.0 <= Wins(x, s) <= |s| as real
  {
    if |s| == 0 {
    } else {
      WinsBounds(x, s[1..]);
    }
  }

  lemma {:induction false} PairWinsBounds(p: seq<real>, n: seq<real>)
    ensures 0.0 <= PairWins(p, n) <= |p| as real * |n| as real
  {
    if |p| == 0 {
    } else {
      WinsBounds(p[0], n);
      PairWinsBounds(p[1..], n);
      assert |p| as real * |n| as real == |n| as real + |p[1..]| as real * |n| as real;
    }
  }

  /** Over 0/1 labels, wins split into those against positives and against negatives. */
  lemma {:induction false} WinsSplit(x: real, scores: seq<real>, labels: seq<int>)
    requires |scores| == |labels| && Binary(labels)
    ensures Wins(x, scores) == Wins(x, Labelled(scores, labels, 1)) + Wins(x, Labelled(scores, labels, 0))
  {
    if |scores| == 0 {
    } else {
      WinsSplit(x, scores[1..], labels[1..]);
      var p, n := Labelled(scores[1..], labels[1..], 1), Labelled(scores[1..], labels[1..], 0);
      assert ([scores[0]] + p)[1..] == p && ([scores[0]] + n)[1..] == n;
      assert [] + p == p && [] + n == n;
    }
  }

  lemma {:induction false} PairWinsColumn(p: seq<real>, y: real, n: seq<real>)
    ensures PairWins(p, [y] + n) == PairWins(p, [y]) + PairWins(p, n)
  {
    if |p| == 0 {
    } else {
      PairWinsColumn(p[1..], y, n);
      assert ([y] + n)[1..] == n;
      assert Wins(p[0], [y]) == Beats(p[0], y) + Wins(p[0], []);
    }
  }

  lemma {:induction false} WinsBothWays(x: real, p: seq<real>)
    ensures Wins(x, p) + PairWins(p, [x]) == |p| as real
  {
    if |p| == 0 {
    } else {
      WinsBothWays(x, p[1..]);
      assert Wins(p[0], [x]) == Beats(p[0], x) + Wins(p[0], []);
      assert |p| as real == 1.0 + |p[1..]| as real;
    }
  }

  /** Every score meets every other once each way, and itself as a tie. */
  lemma {:induction false} PairWinsSelf(p: seq<real>)
    ensures PairWins(p, p) == |p| as real * |p| as real / 2.0
  {
    if |p| == 0 {
    } else {
      var x, q := p[0], p[1..];
      assert p == [x] + q;
      PairWinsSelf(q);
      PairWinsColumn(q, x, q);
      WinsBothWays(x, q);
      var m := |q| as real;
      assert |p| as real == m + 1.0;
      assert (m + 1.0) * (m + 1.0) / 2.0 == 0.5 + m + m * m / 2.0;
    }
  }

  lemma {:induction false} PairWinsSplit(p: seq<real>, scores: seq<real>, labels: seq<int>)
    requires |scores| == |labels| && Binary(labels)
    ensures PairWins(p, scores) == PairWins(p, Labelled(scores, labels, 1)) + PairWins(p, Labelled(scores, labels, 0))
  {
    if |p| == 0 {
    } else {
      WinsSplit(p[0], scores, labels);
      PairWinsSplit(p[1..], scores, labels);
    }
  }

  // ----- Mid-ranks -----

  /** Average rank of score `x` among `scores`, counting from 1. */
  function MidRank(x: real, scores: seq<real>): real {
    Wins(x, scores) + 0.5
  }

  function RankSum(ranks: seq<real>, labels: seq<int>): real
    requires |ranks| == |labels|
  {
    if |ranks| == 0 then 0.0
    else (if labels[0] == 1 then ranks[0] else 0.0) + RankSum(ranks[1..], labels[1..])
  }

  ghost predicate AllMidRanks(ranks: seq<real>, scores: seq<real>, all: seq<real>) {
    |ranks| == |scores| && forall i :: 0 <= i < |ranks| ==> ranks[i] == MidRank(scores[i], all)
  }

  /** Ranks of the positives, summed, are their wins against everyone plus a half each. */
  lemma {:induction false} RankSumIsWins(ranks: seq<real>, scores: seq<real>, labels: seq<int>, all: seq<real>)
    requires |ranks| == |labels| && AllMidRanks(ranks, scores, all)
    ensures RankSum(ranks, labels)
         == PairWins(Labelled(scores, labels, 1), all) + |Labelled(scores, labels, 1)| as real / 2.0
  {
    if |ranks| == 0 {
    } else {
      RankSumIsWins(ranks[1..], scores[1..], labels[1..], all);
      var p := Labelled(scores[1..], labels[1..], 1);
      assert ([scores[0]] + p)[1..] == p && [] + p == p;
    }
  }

  lemma HalfProduct(m: real)
    ensures m * (m + 1.0) / 2.0 == m * m / 2.0 + m / 2.0
  {
  }

  /** The rank-sum formula is the pairwise count. */
  lemma RankFormula(ranks: seq<real>, scores: seq<real>, labels: seq<int>)
    requires |ranks| == |labels| && Binary(labels) && AllMidRanks(ranks, scores, scores)
    ensures RankSum(ranks, labels) - Triangle(|Labelled(scores, labels, 1)| as real)
         == PairWins(Labelled(scores, labels, 1), Labelled(scores, labels, 0))
  {
    var p := Labelled(scores, labels, 1);
    RankSumIsWins(ranks, scores, labels, scores);
    PairWinsSplit(p, scores, labels);
    PairWinsSelf(p);
    HalfProduct(|p| as real);
  }

  function Triangle(m: real): real {
    m * (m + 1.0) / 2.0
  }

  // ----- Counting in sorted order -----

  /** What index `i` contributes to the wins of `x`. */
  function Contribution(scores: seq<real>, x: real): int -> real {
    i => if 0 <= i < |scores| then Beats(x, scores[i]) else 0.0
  }

  function Indices(n: nat): (s: seq<int>)
    ensures |s| == n && forall i :: 0 <= i < n ==> s[i] == i
  {
    seq(n, i => i)
  }

  lemma {:induction false} WinsLast(x: real, s: seq<real>)
    requires |s| > 0
    ensures Wins(x, s) == Wins(x, s[..|s| - 1]) + Beats(x, s[|s| - 1])
  {
    if |s| > 1 {
      WinsLast(x, s[1..]);
      assert s[1..][..|s| - 2] == s[..|s| - 1][1..];
    }
  }

  lemma {:induction false} WinsByIndex(x: real, scores: seq<real>, n: nat)
    requires n <= |scores|
    ensures Sum(Indices(n), Contribution(scores, x)) == Wins(x, scores[..n])
  {
    if n == 0 {
    } else {
      WinsByIndex(x, scores, n - 1);
      assert Indices(n)[..n - 1] == Indices(n - 1);
      SumLast(Indices(n), Contribution(scores, x));
      assert scores[..n][..n - 1] == scores[..n - 1];
      WinsLast(x, scores[..n]);
    }
  }

  /** `order` lists every index of `scores` once, by increasing score. */
  ghost predicate Orders(order: seq<int>, scores: seq<real>) {
    && multiset(order) == multiset(Indices(|scores|))
    && |order| == |scores|
    && (forall k :: 0 <= k < |order| ==> 0 <= order[k] < |scores|)
    && forall k, l :: 0 <= k < l < |order| ==> scores[order[k]] <= scores[order[l]]
  }

  /** Scores below, at and above `x` occupy positions before i, from i to j, and after j. */
  ghost predicate TieGroup(order: seq<int>, scores: seq<real>, i: nat, j: nat, x: real)
    requires Orders(order, scores)
  {
    && i <= j < |order|
    && (forall k :: 0 <= k < i ==> scores[order[k]] < x)
    && (forall k :: i <= k <= j ==> scores[order[k]] == x)
    && (forall k :: j < k < |order| ==> x < scores[order[k]])
  }

  lemma TieGroupAt(order: seq<int>, scores: seq<real>, i: nat, j: nat)
    requires Orders(order, scores) && i <= j < |order|
    requires scores[order[i]] == scores[order[j]]
    requires i > 0 ==> scores[order[i - 1]] < scores[order[i]]
    requires j + 1 < |order| ==> scores[order[j]] < scores[order[j + 1]]
    ensures TieGroup(order, scores, i, j, scores[order[i]])
  {
    forall k | 0 <= k < i ensures scores[order[k]] < scores[order[i]] {
      assert scores[order[k]] <= scores[order[i - 1]];
    }
    forall k | j < k < |order| ensures scores[order[j]] < scores[order[k]] {
      assert scores[order[j + 1]] <= scores[order[k]];
    }
  }

  lemma TieGroupParts(order: seq<int>, scores: seq<real>, i: nat, j: nat, x: real)
    returns (low: seq<int>, tied: seq<int>, high: seq<int>)
    requires Orders(order, scores) && TieGroup(order, scores, i, j, x)
    ensures order == low + (tied + high) && |low| == i && |tied| == j - i + 1
    ensures forall y | y in low :: Contribution(scores, x)(y) == 1.0
    ensures forall y | y in tied :: Contribution(scores, x)(y) == 0.5
    ensures forall y | y in high :: Contribution(scores, x)(y) == 0.0
  {
    low, tied, high := order[..i], order[i..j + 1], order[j + 1..];
  }

  lemma TieGroupSum(order: seq<int>, scores: seq<real>, i: nat, j: nat, x: real)
    requires Orders(order, scores) && TieGroup(order, scores, i, j, x)
    ensures Sum(order, Contribution(scores, x)) == i as real + (j - i + 1) as real / 2.0
  {
    var low, tied, high := TieGroupParts(order, scores, i, j, x);
    SumOfParts(low, tied, high, Contribution(scores, x));
  }

  lemma SumOfParts<T>(low: seq<T>, tied: seq<T>, high: seq<T>, f: T -> real)
    requires forall y | y in low :: f(y) == 1.0
    requires forall y | y in tied :: f(y) == 0.5
    requires forall y | y in high :: f(y) == 0.0
    ensures Sum(low + (tied + high), f) == |low| as real + |tied| as real / 2.0
  {
    SumConstant(low, f, 1.0);
    SumConstant(tied, f, 0.5);
    SumConstant(high, f, 0.0);
    SumConcat(tied, high, f);
    SumConcat(low, tied + high, f);
  }

  /** A run of ties at positions i..j has mid-rank (i + j) / 2 + 1. */
  lemma TieGroupRank(order: seq<int>, scores: seq<real>, i: nat, j: nat, x: real)
    requires Orders(order, scores) && TieGroup(order, scores, i, j, x)
    ensures (i + j) as real / 2.0 + 1.0 == MidRank(x, scores)
  {
    TieGroupSum(order, scores, i, j, x);
    SumPermuted(order, Indices(|scores|), Contribution(scores, x));
    WinsByIndex(x, scores, |scores|);
    assert scores[..|scores|] == scores;
  }

  // ----- The program -----

  function ScoreKey(scores: seq<real>): int -> Key {
    i => Key(if 0 <= i < |scores| then scores[i] else 0.0, "")
  }

  method SortIndices(scores: seq<real>) returns (order: seq<int>)
    ensures Orders(order, scores)
  {
    order := Sort(Indices(|scores|), ScoreKey(scores));
    SortSorted(Indices(|scores|), ScoreKey(scores));
    SameMembers(order, Indices(|scores|));
    forall k | 0 <= k < |order| ensures 0 <= order[k] < |scores| {
      assert order[k] in Indices(|scores|);
    }
    forall k, l | 0 <= k < l < |order| ensures scores[order[k]] <= scores[order[l]] {
      assert !Less(ScoreKey(scores)(order[l]), ScoreKey(scores)(order[k]));
    }
  }

  /** Position `k` of the sorted order already holds its mid-rank. */
  ghost predicate Ranked(ranks: seq<real>, order: seq<int>, scores: seq<real>, done: nat)
    requires |ranks| == |scores| && Orders(order, scores) && done <= |order|
  {
    forall k :: 0 <= k < done ==> ranks[order[k]] == MidRank(scores[order[k]], scores)
  }

  method MidRanks(scores: seq<real>) returns (ranks: array<real>)
    ensures AllMidRanks(ranks[..], scores, scores)
  {
    var order := SortIndices(scores);
    ranks := new real[|scores|](_ => 0.0);
    var i := 0;
    while i < |order|
      invariant 0 <= i <= |order|
      invariant 0 < i < |order| ==> scores[order[i - 1]] < scores[order[i]]
      invariant Ranked(ranks[..], order, scores, i)
    {
      var j := i;
      while j + 1 < |order| && scores[order[j + 1]] == scores[order[i]]
        invariant i <= j < |order|
        invariant scores[order[j]] == scores[order[i]]
      {
        j := j + 1;
      }
      var avg := (i + j) as real / 2.0 + 1.0;
      TieGroupAt(order, scores, i, j);
      TieGroupRank(order, scores, i, j, scores[order[i]]);
      for k := i to j + 1
        invariant Ranked(ranks[..], order, scores, k)
      {
        Unrepeated(order, scores, k);
        assert scores[order[k]] == scores[order[i]];
        ranks[order[k]] := avg;
      }
      i := j + 1;
    }
    forall n | 0 <= n < |scores| ensures ranks[n] == MidRank(scores[n], scores) {
      Listed(order, scores, n);
    }
  }

  lemma Unrepeated(order: seq<int>, scores: seq<real>, k: nat)
    requires Orders(order, scores) && k < |order|
    ensures forall l :: 0 <= l < k ==> order[l] != order[k]
  {
    forall l | 0 <= l < k ensures order[l] != order[k] {
      assert order == order[..k] + [order[k]] + order[k + 1..];
      IndexOnce(|scores|, order[k]);
      assert multiset(order[..k])[order[k]] + 1 <= multiset(order)[order[k]] <= 1;
      assert order[l] in order[..k];
    }
  }

  lemma {:induction false} IndexOnce(n: nat, x: int)
    ensures multiset(Indices(n))[x] <= 1
    ensures x >= n ==> multiset(Indices(n))[x] == 0
  {
    if n == 0 {
    } else {
      IndexOnce(n - 1, x);
      assert Indices(n) == Indices(n - 1) + [n - 1];
      IndexOnce(n - 1, n - 1);
    }
  }

  lemma Listed(order: seq<int>, scores: seq<real>, n: nat)
    requires Orders(order, scores) && n < |scores|
    ensures exists k :: 0 <= k < |order| && order[k] == n
  {
    assert Indices(|scores|)[n] == n;
    assert n in multiset(order);
  }

  /** The counts of each label. */
  lemma {:induction false} LabelCounts(scores: seq<real>, labels: seq<int>)
    requires |scores| == |labels| && Binary(labels)
    ensures |Labelled(scores, labels, 1)| == Total(labels)
    ensures |Labelled(scores, labels, 0)| == |labels| - Total(labels)
  {
    if |scores| == 0 {
    } else {
      LabelCounts(scores[1..], labels[1..]);
    }
  }

  function Total(labels: seq<int>): int {
    if |labels| == 0 then 0 else labels[0] + Total(labels[1..])
  }

  lemma {:induction false} TotalLast(labels: seq<int>, n: nat)
    requires n < |labels|
    ensures Total(labels[..n + 1]) == Total(labels[..n]) + labels[n]
  {
    if n == 0 {
      assert labels[..1] == [labels[0]];
      assert Total([labels[0]]) == labels[0] + Total([]);
    } else {
      TotalLast(labels[1..], n - 1);
      assert labels[..n + 1][1..] == labels[1..][..n] && labels[..n][1..] == labels[1..][..n - 1];
    }
  }

  lemma {:induction false} RankSumLast(ranks: seq<real>, labels: seq<int>, n: nat)
    requires |ranks| == |labels| && n < |labels|
    ensures RankSum(ranks[..n + 1], labels[..n + 1])
         == RankSum(ranks[..n], labels[..n]) + if labels[n] == 1 then ranks[n] else 0.0
  {
    if n == 0 {
      assert labels[..1] == [labels[0]] && ranks[..1] == [ranks[0]];
      assert RankSum([ranks[0]], [labels[0]]) == (if labels[0] == 1 then ranks[0] else 0.0) + RankSum([], []);
    } else {
      RankSumLast(ranks[1..], labels[1..], n - 1);
      assert labels[..n + 1][1..] == labels[1..][..n] && labels[..n][1..] == labels[1..][..n - 1];
      assert ranks[..n + 1][1..] == ranks[1..][..n] && ranks[..n][1..] == ranks[1..][..n - 1];
    }
  }

  method CountPositives(labels: seq<int>) returns (pos: int)
    ensures pos == Total(labels)
  {
    pos := 0;
    for i := 0 to |labels|
      invariant pos == Total(labels[..i])
    {
      TotalLast(labels, i);
      pos := pos + labels[i];
    }
    assert labels[..|labels|] == labels;
  }

  method SumPositiveRanks(ranks: seq<real>, labels: seq<int>) returns (sum: real)
    requires |ranks| == |labels|
    ensures sum == RankSum(ranks, labels)
  {
    sum := 0.0;
    for i := 0 to |labels|
      invariant sum == RankSum(ranks[..i], labels[..i])
    {
      RankSumLast(ranks, labels, i);
      if labels[i] == 1 {
        sum := sum + ranks[i];
      }
    }
    assert ranks[..|labels|] == ranks && labels[..|labels|] == labels;
  }

  lemma AucInRange(p: seq<real>, n: seq<real>)
    ensures PairwiseAuc(p, n).Some? ==> 0.0 <= PairwiseAuc(p, n).value <= 1.0
  {
    PairWinsBounds(p, n);
    if |p| > 0 && |n| > 0 {
      Fraction(PairWins(p, n), |p| as real * |n| as real);
    }
  }

  lemma Fraction(x: real, y: real)
    requires 0.0 <= x <= y
    ensures y > 0.0 ==> 0.0 <= x / y <= 1.0
  {
    if y > 0.0 { assert x / y * y == x; }
  }

  /**
   The rank-based AUC is the pairwise AUC, for every list of scores and 0/1
   labels, and lies between 0 and 1; it is undefined exactly when a class is empty.
   */
  method RankAuc(scores: seq<real>, labels: seq<int>) returns (auc: Option<real>)
    requires |scores| == |labels| && Binary(labels)
    ensures auc == PairwiseAuc(Labelled(scores, labels, 1), Labelled(scores, labels, 0))
    ensures auc.Some? ==> 0.0 <= auc.value <= 1.0
  {
    AucInRange(Labelled(scores, labels, 1), Labelled(scores, labels, 0));
    var pos := CountPositives(labels);
    var neg := |labels| - pos;
    LabelCounts(scores, labels);
    if pos == 0 || neg == 0 {
      return None;
    }
    var ranks := MidRanks(scores);
    var rankSum := SumPositiveRanks(ranks[..], labels);
    RankFormula(ranks[..], scores, labels);
    ghost var p, n := Labelled(scores, labels, 1), Labelled(scores, labels, 0);
    var m, k := pos as real, neg as real;
    assert m == |p| as real && k == |n| as real;
    ProductPositive(m, k);
    auc := Some((rankSum - Triangle(m)) / (m * k));
    PairwiseQuotient(p, n, rankSum - Triangle(m), m * k);
  }

  lemma ProductPositive(x: real, y: real)
    requires x > 0.0 && y > 0.0
    ensures x * y > 0.0
  {
  }

  lemma PairwiseQuotient(p: seq<real>, n: seq<real>, wins: real, pairs: real)
    requires |p| > 0 && |n| > 0 && wins == PairWins(p, n) && pairs == |p| as real * |n| as real && pairs > 0.0
    ensures PairwiseAuc(p, n) == Some(wins / pairs)
  {
  }
}
