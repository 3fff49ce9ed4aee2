/** The round-trip estimator and the request timeout it gives, in whole milliseconds. Compare section 2.3 of
    RFC 6298; both averages here use the weight 1/8, and each result is truncated toward zero. */
module RttEstimator {
  import opened Bounded

  datatype Rtt = Rtt(estimate: int, variance: int, minimum: int)

  const INITIAL := Rtt(100, 50, 10)

  function Abs(x: int): int { if x < 0 then -x else x }

  /** x / 8, truncated toward zero. */
  function Eighth(x: int): int { if x >= 0 then x / 8 else -(-x / 8) }

  /** Seven parts of the average, one part of the sample. */
  function Blend(average: int, sample: int): int { Eighth(7 * average + sample) }

  function Update(r: Rtt, sample: int): Rtt {
    Rtt(Blend(r.estimate, sample), Blend(r.variance, Abs(sample - r.estimate)), Min(r.minimum, sample))
  }

  function Timeout(r: Rtt): int { Max(r.estimate + 4 * r.variance, 100) }

  lemma BlendStaysBetween(average: int, sample: int)
    ensures Min(average, sample) <= Blend(average, sample) <= Max(average, sample)
  {
  }

  /** Truncation leaves a gap: an average rests exactly when it is at most seven below the sample. */
  lemma RestsExactly(average: nat, sample: nat)
    ensures Blend(average, sample) == average <==> sample - 8 < average <= sample
  {
  }

  function Blends(average: nat, sample: nat, n: nat): nat {
    if n == 0 then average else Blend(Blends(average, sample, n - 1), sample)
  }

  lemma {:induction false} BlendsSettle(average: nat, sample: nat, n: nat)
    ensures var a := Blends(average, sample, n);
            (sample - 8 < a <= sample) || Abs(a - sample) + n <= Abs(average - sample)
    ensures n >= Abs(average - sample) ==> sample - 8 < Blends(average, sample, n) <= sample
    decreases n
  {
    if n > 0 {
      BlendsSettle(average, sample, n - 1);
      RestsExactly(Blends(average, sample, n - 1), sample);
    }
  }

  function Updates(r: Rtt, sample: int, n: nat): Rtt {
    if n == 0 then r else Update(Updates(r, sample, n - 1), sample)
  }

  lemma {:induction false} EstimateIsBlends(r: Rtt, sample: nat, n: nat)
    requires r.estimate >= 0 && r.variance >= 0
    ensures Updates(r, sample, n).estimate == Blends(r.estimate, sample, n)
    ensures Updates(r, sample, n).variance >= 0
    decreases n
  {
    if n > 0 { EstimateIsBlends(r, sample, n - 1); }
  }

  lemma {:induction false} RestingUpdates(r: Rtt, sample: nat, n: nat)
    requires r.variance >= 0 && r.estimate >= 0 && sample - 8 < r.estimate <= sample
    ensures Updates(r, sample, n).estimate == r.estimate
    ensures Updates(r, sample, n).variance == Blends(r.variance, sample - r.estimate, n)
    decreases n
  {
    if n > 0 {
      RestingUpdates(r, sample, n - 1);
      RestsExactly(r.estimate, sample);
    }
  }

  lemma {:induction false} UpdatesCompose(r: Rtt, sample: int, m: nat, n: nat)
    ensures Updates(r, sample, m + n) == Updates(Updates(r, sample, m), sample, n)
    decreases n
  {
    if n > 0 { UpdatesCompose(r, sample, m, n - 1); }
  }

  lemma RestingTimeout(r: Rtt, sample: nat, n: nat)
    requires r.variance >= 0 && r.estimate >= 0 && sample - 8 < r.estimate <= sample
    requires n >= r.variance + 7
    ensures Updates(r, sample, n).estimate == r.estimate
    ensures Max(sample - 7, 100) <= Timeout(Updates(r, sample, n)) <= Max(sample + 21, 100)
  {
    RestingUpdates(r, sample, n);
    BlendsSettle(r.variance, sample - r.estimate, n);
  }

  lemma {:induction false} VarianceStaysBelow(r: Rtt, sample: nat, m: nat)
    requires r.estimate >= 0 && r.variance >= 0
    ensures 0 <= Updates(r, sample, m).variance <= Max(r.variance, Abs(r.estimate - sample))
    ensures Abs(Updates(r, sample, m).estimate - sample) <= Abs(r.estimate - sample)
    ensures Updates(r, sample, m).estimate >= 0
    decreases m
  {
    if m > 0 {
      VarianceStaysBelow(r, sample, m - 1);
      var before := Updates(r, sample, m - 1);
      BlendStaysBetween(before.estimate, sample);
      BlendStaysBetween(before.variance, Abs(sample - before.estimate));
    }
  }

  lemma EstimateSettles(r: Rtt, sample: nat, m: nat)
    requires r.estimate >= 0 && r.variance >= 0 && m >= Abs(r.estimate - sample)
    ensures sample - 8 < Updates(r, sample, m).estimate <= sample
  {
    EstimateIsBlends(r, sample, m);
    BlendsSettle(r.estimate, sample, m);
  }

  /** Under a steady round trip the estimate comes to rest at most seven below it, and the timeout then lies between seven
      milliseconds below and twenty-one above it, apart from the floor of one hundred. */
  lemma SteadySamplesSettle(r: Rtt, sample: nat, n: nat)
    requires r.estimate >= 0 && r.variance >= 0
    requires n >= Abs(r.estimate - sample) + Max(r.variance, Abs(r.estimate - sample)) + 7
    ensures sample - 8 < Updates(r, sample, n).estimate <= sample
    ensures Max(sample - 7, 100) <= Timeout(Updates(r, sample, n)) <= Max(sample + 21, 100)
  {
    var m := Abs(r.estimate - sample);
    EstimateSettles(r, sample, m);
    VarianceStaysBelow(r, sample, m);
    var settled := Updates(r, sample, m);
    UpdatesCompose(r, sample, m, n - m);
    assert Updates(r, sample, n) == Updates(settled, sample, n - m);
    RestingTimeout(settled, sample, n - m);
  }

  /** One round trip that is longer by `jump` raises the timeout by five eighths of it, while the old variance keeps seven
      eighths of its four parts; the two truncations take less than five. */
  lemma JumpRaisesTimeout(r: Rtt, jump: nat)
    requires r.estimate >= 0 && r.variance >= 0
    ensures var t := Timeout(Update(r, r.estimate + jump));
            t >= 100 && 8 * t >= 8 * r.estimate + 28 * r.variance + 5 * jump - 35
            && (t > 100 ==> 8 * t <= 8 * r.estimate + 28 * r.variance + 5 * jump)
  {
    var estimate, variance := 8 * r.estimate + jump, 7 * r.variance + jump;
    assert Update(r, r.estimate + jump).estimate == estimate / 8;
    assert Update(r, r.estimate + jump).variance == variance / 8;
  }

  /** The smallest round trip ever is kept. */
  lemma {:induction false} MinimumIsKept(r: Rtt, sample: int, n: nat)
    ensures Updates(r, sample, n).minimum == if n == 0 || r.minimum <= sample then r.minimum else sample
    decreases n
  {
    if n > 0 { MinimumIsKept(r, sample, n - 1); }
  }

  /** A shorter round trip raises the timeout as well, by three eighths of the difference: the estimate falls by one eighth,
      and the variance counts four times. */
  lemma DropRaisesTimeout(r: Rtt, drop: nat)
    requires r.estimate >= drop && r.variance >= 0
    ensures var t := Timeout(Update(r, r.estimate - drop));
            t >= 100 && 8 * t >= 8 * r.estimate + 28 * r.variance + 3 * drop - 35
            && (t > 100 ==> 8 * t <= 8 * r.estimate + 28 * r.variance + 3 * drop)
  {
    var estimate, variance := 8 * r.estimate - drop, 7 * r.variance + drop;
    assert Update(r, r.estimate - drop).estimate == estimate / 8;
    assert Update(r, r.estimate - drop).variance == variance / 8;
  }

  /** Before any sample the timeout is 300 milliseconds; the minimum starts at ten. */
  lemma FirstTimeout(samples: nat)
    ensures Timeout(INITIAL) == 300
    ensures Updates(INITIAL, samples, 1).minimum == Min(10, samples)
  {
    MinimumIsKept(INITIAL, samples, 1);
  }
}
