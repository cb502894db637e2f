/** The two summary figures of a game: accuracy and average response time. */
module Scoring {

  /** The percentage of questions scored, rounded half up to a whole number;
      0 before any question was asked. Round-half-up of 100 * score / total is written
      as (200 * score + total) / (2 * total), which avoids fractions. */
  function Accuracy(score: nat, total: nat): (pct: nat)
    ensures total == 0 ==> pct == 0
    ensures total > 0 ==> 2 * total * pct <= 200 * score + total < 2 * total * (pct + 1)
  {
    if total == 0 then 0 else (200 * score + total) / (2 * total)
  }

  lemma MulMono(m: int, a: int, b: int)
    requires m >= 0 && a <= b
    ensures m * a <= m * b
  {
  }

  lemma MulStrictMono(m: int, a: int, b: int)
    requires m > 0 && a < b
    ensures m * a < m * b
  {
  }

  /** A rounded quotient is determined by the bounds that define it. */
  lemma QuotientUnique(x: int, d: int, p: int, q: int)
    requires d > 0
    requires d * p <= x < d * (p + 1)
    requires d * q <= x < d * (q + 1)
    ensures p == q
  {
    if p < q {
      MulMono(d, p + 1, q);
    } else if q < p {
      MulMono(d, q + 1, p);
    }
  }

  /** With no more points than questions the accuracy is a percentage: 0 for no
      point, 100 when every question was scored. */
  lemma AccuracyBounds(score: nat, total: nat)
    requires 0 < total && score <= total
    ensures Accuracy(score, total) <= 100
    ensures score == 0 ==> Accuracy(score, total) == 0
    ensures score == total ==> Accuracy(score, total) == 100
  {
    var pct, d, x := Accuracy(score, total), 2 * total, 200 * score + total;
    assert d * pct <= x < d * (pct + 1);
    if pct > 100 {
      MulMono(d, 101, pct);
    }
    if score == 0 {
      QuotientUnique(x, d, pct, 0);
    }
    if score == total {
      QuotientUnique(x, d, pct, 100);
    }
  }

  /** Seven points out of ten questions is 70 percent. */
  lemma AccuracySevenOfTen()
    ensures Accuracy(7, 10) == 70
  {
  }

  function Sum(times: seq<int>): int
  {
    if times == [] then 0 else Sum(times[..|times| - 1]) + times[|times| - 1]
  }

  /** The mean response time in hundredths of a second, rounded half up; `times`
      holds milliseconds. 0 when nothing was recorded. */
  function AverageHundredths(times: seq<int>): (avg: int)
    ensures times == [] ==> avg == 0
    ensures times != [] ==>
      20 * |times| * avg <= 2 * Sum(times) + 10 * |times| < 20 * |times| * (avg + 1)
  {
    if times == [] then 0 else (2 * Sum(times) + 10 * |times|) / (20 * |times|)
  }

  /** Response times of 1, 2 and 3 seconds average to 2.00 seconds. */
  lemma AverageOfOneTwoThree()
    ensures AverageHundredths([1000, 2000, 3000]) == 200
  {
    assert [1000, 2000, 3000][..2] == [1000, 2000];
    assert [1000, 2000][..1] == [1000];
    assert [1000][..0] == [];
  }

  /** When every response took the same time, the average is that time. */
  lemma {:induction false} AverageOfEqualTimes(times: seq<int>, t: int)
    requires times != []
    requires forall i :: 0 <= i < |times| ==> times[i] == 10 * t
    ensures AverageHundredths(times) == t
  {
    SumOfEqualTimes(times, 10 * t);
    var n, avg := |times|, AverageHundredths(times);
    var m, x := 20 * n, 2 * Sum(times) + 10 * n;
    assert m * avg <= x < m * (avg + 1);
    assert x == m * t + 10 * n;
    assert m * (t + 1) == m * t + 20 * n;
    QuotientUnique(x, m, avg, t);
  }

  lemma {:induction false} SumOfEqualTimes(times: seq<int>, v: int)
    requires forall i :: 0 <= i < |times| ==> times[i] == v
    ensures Sum(times) == |times| * v
  {
    if times != [] {
      SumOfEqualTimes(times[..|times| - 1], v);
    }
  }
}
