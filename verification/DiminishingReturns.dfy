/** The diminishing-returns curve: the average worth of `plays` repeat plays. */
module DiminishingReturns {
  import opened Words
  import opened Arithmetic
  import opened Sums

  const PLAYS_CAP: nat := 100_000

  /** Worth of the `j`-th play in ppm, floored: `1 / (1 + k * (j - 1))`. */
  function Term(j: nat, k: nat): nat
    requires j >= 1
  {
    PPM * PPM / (PPM + k * (j - 1))
  }

  function TermSum(v: nat, k: nat): nat {
    if v == 0 then 0 else TermSum(v - 1, k) + Term(v, k)
  }

  function ClampPlays(plays: nat, cap: nat): (v: nat)
    requires cap >= 1
    ensures 1 <= v <= cap
  {
    Max(1, Min(plays, cap))
  }

  /** The curve as a closed expression. */
  function Curve(plays: nat, k: nat): nat {
    var v := ClampPlays(plays, PLAYS_CAP);
    TermSum(v, k) / v
  }

  /** The undiminished value of a usage row. */
  function Value(minutes: nat, price: nat, region: nat): nat {
    Product(Product(minutes, price), region)
  }

  /** What a usage row weighs: its value at the curve, floored. */
  function Weight(minutes: nat, plays: nat, price: nat, region: nat, k: nat): nat {
    MulDiv(Value(minutes, price, region), Curve(plays, k), PPM)
  }

  /** `d_ppm`: the running-sum loop computes the curve, and its result fits the
      64-bit return type. */
  method DPpm(plays: u64, k: u64) returns (d: u64)
    ensures d == Curve(plays, k)
  {
    var v := ClampPlays(plays, PLAYS_CAP);
    var sum := 0;
    for j := 1 to v + 1
      invariant sum == TermSum(j - 1, k)
    {
      sum := sum + Term(j, k);
    }
    CurveBounds(plays, k);
    d := sum / v;
  }

  lemma TermBounds(j: nat, k: nat)
    requires j >= 1
    ensures Term(j, k) <= PPM
    ensures Term(1, k) == PPM
  {
    assert k * (j - 1) >= 0;
    DivAntitone(PPM * PPM, PPM, PPM + k * (j - 1));
    assert PPM * PPM / PPM == PPM;
    assert k * 0 == 0;
  }

  lemma TermAntitone(j: nat, i: nat, k: nat, l: nat)
    requires 1 <= j <= i && k <= l
    ensures Term(i, l) <= Term(j, k)
  {
    MulMono(k, l, j - 1, i - 1);
    DivAntitone(PPM * PPM, PPM + k * (j - 1), PPM + l * (i - 1));
  }

  lemma {:induction false} TermSumBounds(v: nat, k: nat)
    requires v >= 1
    ensures v * Term(v, k) <= TermSum(v, k) <= v * PPM
    ensures TermSum(v, k) >= PPM
  {
    TermBounds(v, k);
    if v > 1 {
      TermSumBounds(v - 1, k);
      TermAntitone(v - 1, v, k, k);
      MulMono(v - 1, v - 1, Term(v, k), Term(v - 1, k));
      assert v * Term(v, k) == (v - 1) * Term(v, k) + Term(v, k);
      assert v * PPM == (v - 1) * PPM + PPM;
    }
  }

  /** Between one hundred-thousandth and full weight, for every input. */
  lemma {:induction false} CurveBounds(plays: nat, k: nat)
    ensures 10 <= Curve(plays, k) <= PPM
    ensures plays <= 1 ==> Curve(plays, k) == PPM
  {
    var v := ClampPlays(plays, PLAYS_CAP);
    TermSumBounds(v, k);
    DivMono(TermSum(v, k), v * PPM, v);
    DivExact(PPM, v);
    DivMono(v * 10, TermSum(v, k), v);
    DivExact(10, v);
    TermBounds(1, k);
    assert TermSum(1, k) == TermSum(0, k) + Term(1, k);
  }

  /** One more play never raises the floored average. */
  lemma {:induction false} AverageStep(v: nat, k: nat)
    requires v >= 1
    ensures TermSum(v + 1, k) / (v + 1) <= TermSum(v, k) / v
  {
    TermSumBounds(v, k);
    TermAntitone(v, v + 1, k, k);
    AverageDrops(TermSum(v, k), Term(v + 1, k), Term(v, k), v);
  }

  lemma AverageDrops(sum: nat, next: nat, last: nat, v: nat)
    requires v >= 1 && next <= last && v * last <= sum
    ensures (sum + next) / (v + 1) <= sum / v
  {
    var q := sum / v;
    DivBracket(sum, v);
    MulCancelLt(last, q + 1, v);
    assert sum + next < (q + 1) * v + (q + 1) == (q + 1) * (v + 1);
    DivBracket(sum + next, v + 1);
    MulCancelLt((sum + next) / (v + 1), q + 1, v + 1);
  }

  lemma {:induction false} AverageAntitone(v: nat, w: nat, k: nat)
    requires 1 <= v <= w
    ensures TermSum(w, k) / w <= TermSum(v, k) / v
    decreases w
  {
    if v < w {
      AverageAntitone(v, w - 1, k);
      AverageStep(w - 1, k);
    }
  }

  lemma {:induction false} TermSumAntitone(v: nat, k: nat, l: nat)
    requires k <= l
    ensures TermSum(v, l) <= TermSum(v, k)
  {
    if v > 0 {
      TermSumAntitone(v - 1, k, l);
      TermAntitone(v, v, k, l);
    }
  }

  /** Non-increasing in the play count and in the curvature, despite flooring
      every term and the average. */
  lemma {:induction false} CurveAntitone(plays: nat, more: nat, k: nat, l: nat)
    requires plays <= more && k <= l
    ensures Curve(more, l) <= Curve(plays, k)
  {
    var v, w := ClampPlays(plays, PLAYS_CAP), ClampPlays(more, PLAYS_CAP);
    AverageAntitone(v, w, l);
    TermSumAntitone(v, k, l);
    DivMono(TermSum(v, l), TermSum(v, k), v);
  }

  lemma {:induction false} TermSumFloor(v: nat, k: nat)
    requires v >= 1
    ensures TermSum(v, k) >= PPM + (v - 1) * Term(v, k)
  {
    TermBounds(v, k);
    assert TermSum(1, k) == Term(1, k);
    if v > 1 {
      TermSumFloor(v - 1, k);
      TermAntitone(v - 1, v, k, k);
      MulMono(v - 2, v - 2, Term(v, k), Term(v - 1, k));
      Distribute(v - 2, 1, Term(v, k));
    }
  }

  /** At neutral curvature the curve is still falling past 64 plays. */
  lemma {:induction false} CurveFallsPast64()
    ensures Curve(65, PPM) < Curve(64, PPM)
  {
    TermSumFloor(64, PPM);
    assert Term(64, PPM) == 15_625 && Term(65, PPM) == 15_384;
    assert TermSum(65, PPM) == TermSum(64, PPM) + Term(65, PPM);
  }

  // ----- the curve outright ------------------------------------------------

  /** Play `j` is worth a million over one plus `k` parts per million for each play
      before it, floored. */
  lemma {:induction false} TermMeans(j: nat, k: nat)
    requires j >= 1
    ensures Term(j, k) * (1_000_000 + k * (j - 1)) <= 1_000_000_000_000 < (Term(j, k) + 1) * (1_000_000 + k * (j - 1))
  {
    assert k * (j - 1) >= 0;
    DivBracket(PPM * PPM, PPM + k * (j - 1));
  }

  function Terms(v: nat, k: nat): (r: seq<nat>)
    ensures |r| == v
  {
    seq(v, i requires 0 <= i < v => Term(i + 1, k))
  }

  lemma {:induction false} TermsSummed(v: nat, k: nat)
    ensures TermSum(v, k) == Sum(Terms(v, k))
  {
    if v > 0 {
      TermsSummed(v - 1, k);
      assert Terms(v, k)[..v - 1] == Terms(v - 1, k);
    }
  }

  /** The worth of each of the first `|worth|` plays. */
  ghost predicate Worths(worth: seq<nat>, k: nat) {
    forall i :: 0 <= i < |worth| ==>
      worth[i] * (1_000_000 + k * i) <= 1_000_000_000_000 < (worth[i] + 1) * (1_000_000 + k * i)
  }

  /** The curve is the floored average worth of the plays, from one to 100000 of them. */
  lemma {:induction false} CurveMeans(plays: nat, k: nat, worth: seq<nat>)
    requires Worths(worth, k)
    requires |worth| == if plays < 1 then 1 else if plays > 100_000 then 100_000 else plays
    ensures Curve(plays, k) * |worth| <= Sum(worth) < (Curve(plays, k) + 1) * |worth|
  {
    var v := |worth|;
    forall i | 0 <= i < v ensures worth[i] == Terms(v, k)[i] {
      assert k * i >= 0;
      DivUnique(PPM * PPM, PPM + k * i, worth[i]);
    }
    assert worth == Terms(v, k);
    TermsSummed(v, k);
    DivBracket(TermSum(v, k), v);
  }

  /** A row weighs its minutes at its price and region factors, at the curve, floored. */
  lemma {:induction false} WeightMeans(minutes: nat, plays: nat, price: nat, region: nat, k: nat)
    ensures var n := ((minutes * price) * region) * Curve(plays, k);
            Weight(minutes, plays, price, region, k) * 1_000_000 <= n
            < (Weight(minutes, plays, price, region, k) + 1) * 1_000_000
  {
    DivBracket(Value(minutes, price, region) * Curve(plays, k), PPM);
  }
}
