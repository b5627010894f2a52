/**
 * `top_n_accuracy`: turns the list of lineup ranks into the cumulative
 * accuracy curve, whose i-th entry (1-indexed) is the fraction of ranks that
 * are at most i.
 */
module TopN {

  /** How many ranks are at most `i`. */
  function CountAtMost(ranks: seq<int>, i: int): (c: nat)
    ensures c <= |ranks|
  {
    if |ranks| == 0 then 0
    else (if ranks[0] <= i then 1 else 0) + CountAtMost(ranks[1..], i)
  }

  /** The accuracy at cutoff `i`: the fraction of ranks at most `i`. */
  function Accuracy(ranks: seq<int>, i: int): real
    requires |ranks| > 0
  {
    CountAtMost(ranks, i) as real / |ranks| as real
  }

  /** `min(n, size)`, and no entries at all when that is not positive. */
  function CurveLength(n: int, size: nat): (k: nat)
    ensures k <= size && (n >= 0 ==> k <= n)
    ensures n < 0 ==> k == 0
    ensures n >= 0 ==> (k == n || k == size)
  {
    if n < 0 then 0 else if n < size then n else size
  }

  /**
   * The curve `top_n_accuracy(ranks, n)` returns: one entry per cutoff
   * 1 .. min(n, |ranks|); an empty rank list gives an empty curve, and no
   * division is made.
   */
  function Curve(ranks: seq<int>, n: int): (acc: seq<real>)
    ensures |acc| == CurveLength(n, |ranks|)
  {
    var k := CurveLength(n, |ranks|);
    seq(k, i requires 0 <= i < k => Accuracy(ranks, i + 1))
  }

  /** `top_n_accuracy`: the counting loop appends one accuracy per cutoff. */
  method TopNAccuracy(ranks: seq<int>, n: int) returns (acc: seq<real>)
    ensures |acc| == CurveLength(n, |ranks|)
    ensures forall i :: 0 <= i < |acc| ==>
              acc[i] == CountAtMost(ranks, i + 1) as real / |ranks| as real
    ensures acc == Curve(ranks, n)
  {
    var lineupLength := |ranks|;  // the number of ranks, whatever the name says
    var m := if n < lineupLength then n else lineupLength;
    acc := [];
    var i := 1;
    while i < m + 1
      invariant 1 <= i && (m >= 0 ==> i <= m + 1)
      invariant |acc| == i - 1 && |acc| <= CurveLength(n, lineupLength)
      invariant forall j :: 0 <= j < |acc| ==>
                  acc[j] == CountAtMost(ranks, j + 1) as real / lineupLength as real
    {
      var topI := CountAtMost(ranks, i) as real / lineupLength as real;
      acc := acc + [topI];
      i := i + 1;
    }
    assert |acc| == CurveLength(n, lineupLength);
  }

  /** Raising the cutoff never lowers the count. */
  lemma {:induction false} CountMonotone(ranks: seq<int>, i: int, j: int)
    requires i <= j
    ensures CountAtMost(ranks, i) <= CountAtMost(ranks, j)
  {
    if |ranks| > 0 {
      CountMonotone(ranks[1..], i, j);
    }
  }

  /** When every rank is at most `k`, all of them are counted at cutoff `k`. */
  lemma {:induction false} CountAll(ranks: seq<int>, k: int)
    requires forall r :: r in ranks ==> r <= k
    ensures CountAtMost(ranks, k) == |ranks|
  {
    if |ranks| > 0 {
      assert ranks[0] in ranks;
      assert forall r :: r in ranks[1..] ==> r in ranks;
      CountAll(ranks[1..], k);
    }
  }

  /** Every entry of the curve is a fraction in [0, 1]. */
  lemma CurveBounded(ranks: seq<int>, n: int, i: int)
    requires 0 <= i < |Curve(ranks, n)|
    ensures 0.0 <= Curve(ranks, n)[i] <= 1.0
  {
    var c, size := CountAtMost(ranks, i + 1) as real, |ranks| as real;
    assert Curve(ranks, n)[i] == c / size;
    FractionBounded(c, size);
  }

  /** A count no larger than a positive size gives a fraction in [0, 1]. */
  lemma FractionBounded(c: real, size: real)
    requires 0.0 <= c <= size && size > 0.0
    ensures 0.0 <= c / size <= 1.0
    ensures c == size ==> c / size == 1.0
  {
    FractionMonotone(0.0, c, size);
    FractionMonotone(c, size, size);
    assert 0.0 / size == 0.0 && size / size == 1.0;
  }

  /** The curve is non-decreasing. */
  lemma CurveMonotone(ranks: seq<int>, n: int, i: int, j: int)
    requires 0 <= i <= j < |Curve(ranks, n)|
    ensures Curve(ranks, n)[i] <= Curve(ranks, n)[j]
  {
    CountMonotone(ranks, i + 1, j + 1);
    var ci, cj, size := CountAtMost(ranks, i + 1) as real, CountAtMost(ranks, j + 1) as real, |ranks| as real;
    assert Curve(ranks, n)[i] == ci / size && Curve(ranks, n)[j] == cj / size;
    FractionMonotone(ci, cj, size);
  }

  /** Dividing by the same positive size keeps the order of two counts. */
  lemma FractionMonotone(a: real, b: real, size: real)
    requires a <= b && size > 0.0
    ensures a / size <= b / size
  {
  }

  /** If no rank exceeds `k` and the curve reaches cutoff `k`, its entry there is 1. */
  lemma CurveReachesOne(ranks: seq<int>, n: int, k: int)
    requires forall r :: r in ranks ==> r <= k
    requires 1 <= k <= |Curve(ranks, n)|
    ensures Curve(ranks, n)[k - 1] == 1.0
  {
    CountAll(ranks, k);
    var size := |ranks| as real;
    assert size > 0.0;
    assert Curve(ranks, n)[k - 1] == size / size;
    FractionBounded(size, size);
  }

  /**
   * A worked example: of the ranks 1, 3, 2, 1, 5, two are at most 1, three at
   * most 2 and four at most 3.
   */
  lemma CurveExample()
    ensures Curve([1, 3, 2, 1, 5], 3) == [0.4, 0.6, 0.8]
  {
    var ranks := [1, 3, 2, 1, 5];
    assert ranks[1..] == [3, 2, 1, 5] && ranks[1..][1..] == [2, 1, 5];
    assert ranks[1..][1..][1..] == [1, 5] && ranks[1..][1..][1..][1..] == [5];
    assert CountAtMost(ranks, 1) == 2;
    assert CountAtMost(ranks, 2) == 3;
    assert CountAtMost(ranks, 3) == 4;
  }
}
