/** The usage-proof circuit as a relation over field values, and what it means. */
module UsageCircuit {
  import opened Words
  import opened Arithmetic
  import opened Field
  import D = DiminishingReturns

  const MAX_WORKS: nat := 16
  const MAX_PLAYS: nat := 64
  const K_PPM: u64 := 1_000_000
  const MINUTES_BITS: nat := 32
  const PLAYS_BITS: nat := 7
  const PPM_BITS: nat := 40
  const WEIGHT_BITS: nat := 120
  const REMAINDER_BITS: nat := 20

  /** The Poseidon hash, left abstract. */
  type Hash = seq<Fe> -> Fe

  // ----- the diminishing-returns table -------------------------------------

  function Table(k: nat): (t: seq<nat>)
    ensures |t| == MAX_PLAYS
  {
    seq(MAX_PLAYS, i requires 0 <= i < MAX_PLAYS => D.Curve(i + 1, k))
  }

  lemma TableInField(k: nat)
    ensures InField(Table(k))
  {
    forall i | 0 <= i < MAX_PLAYS ensures Table(k)[i] < ORDER { D.CurveBounds(i + 1, k); }
  }

  predicate InField(w: seq<nat>) {
    forall i :: 0 <= i < |w| ==> w[i] < ORDER
  }

  function Slots(): (w: seq<nat>)
    ensures |w| == MAX_PLAYS && InField(w)
    ensures forall i :: 0 <= i < |w| ==> w[i] == i
  {
    seq(MAX_PLAYS, i => i)
  }

  /** `d_ppm_table`: one curve value per slot. */
  method BuildTable(k: u64) returns (t: array<nat>)
    ensures fresh(t) && t[..] == Table(k)
  {
    t := new nat[MAX_PLAYS](_ => 0);
    for i := 0 to MAX_PLAYS
      invariant forall j :: 0 <= j < i ==> t[j] == Table(k)[j]
    {
      t[i] := D.DPpm(i + 1, k);
    }
  }

  // ----- rows --------------------------------------------------------------

  /** One row's field values. */
  datatype Row = Row(
    active: bool, work: Fe, minutes: Fe, plays: Fe, salt: Fe, price: Fe, region: Fe,
    weight: Fe, commitment: Fe, pseudonym: Fe)

  /** The prover's auxiliary values for one row. */
  datatype Advice = Advice(selectors: seq<bool>, remainder: Fe)

  function Commitment(h: Hash, work: Fe, minutes: Fe, plays: Fe, salt: Fe): Fe {
    h([work, minutes, plays, salt])
  }

  function PaddedCommitment(h: Hash): Fe { Commitment(h, 0, 0, 0, 0) }

  function Pseudonym(h: Hash, k: Fe, commitment: Fe): Fe { h([k, commitment]) }

  function Bit(b: bool): Fe { if b then 1 else 0 }

  // Running field sums over the first `n` selectors.
  function SumSel(s: seq<bool>, n: nat): Fe
    requires n <= |s|
  {
    if n == 0 then 0 else Add(SumSel(s, n - 1), Bit(s[n - 1]))
  }

  function SumOver(s: seq<bool>, w: seq<nat>, n: nat): Fe
    requires n <= |s| && n <= |w|
  {
    if n == 0 then 0 else Add(SumOver(s, w, n - 1), Mul(Bit(s[n - 1]), Reduce(w[n - 1])))
  }

  /** `enforce_dr_weight`, for an active row. */
  predicate DrHolds(row: Row, a: Advice)
    requires |a.selectors| == MAX_PLAYS
  {
    var d := SumOver(a.selectors, Table(K_PPM), MAX_PLAYS);
    && SumSel(a.selectors, MAX_PLAYS) == 1
    && SumOver(a.selectors, Slots(), MAX_PLAYS) == Sub(row.plays, 1)
    && Add(Mul(row.weight, PPM), a.remainder) == Mul(Mul(Mul(row.minutes, row.price), row.region), d)
    && BitWidth(a.remainder, REMAINDER_BITS)
    && BitWidth(Sub(PPM - 1, a.remainder), REMAINDER_BITS)
  }

  predicate ActiveHolds(h: Hash, k: Fe, row: Row, a: Advice)
    requires |a.selectors| == MAX_PLAYS
  {
    && row.commitment == Commitment(h, row.work, row.minutes, row.plays, row.salt)
    && BitWidth(row.minutes, MINUTES_BITS)
    && BitWidth(row.plays, PLAYS_BITS)
    && BitWidth(row.price, PPM_BITS)
    && BitWidth(row.region, PPM_BITS)
    && BitWidth(Sub(MAX_PLAYS, row.plays), PLAYS_BITS)
    && row.work != 0
    && DrHolds(row, a)
    && BitWidth(row.weight, WEIGHT_BITS)
    && row.pseudonym == Pseudonym(h, k, row.commitment)
  }

  predicate PaddingHolds(h: Hash, k: Fe, row: Row) {
    && row.work == 0
    && row.weight == 0
    && row.commitment == PaddedCommitment(h)
    && row.pseudonym == Pseudonym(h, k, PaddedCommitment(h))
  }

  predicate RowHolds(h: Hash, k: Fe, row: Row, a: Advice) {
    && |a.selectors| == MAX_PLAYS
    && if row.active then ActiveHolds(h, k, row, a) else PaddingHolds(h, k, row)
  }

  // ----- what a row means --------------------------------------------------

  /** The weight at the circuit's curvature, over the integers. */
  function CappedWeight(minutes: nat, plays: nat, price: nat, region: nat): nat {
    D.Weight(minutes, plays, price, region, K_PPM)
  }

  /** An honest opening: every bound, the binding hashes, and the exact weight. */
  predicate Opening(h: Hash, k: Fe, row: Row) {
    && 1 <= row.plays <= MAX_PLAYS
    && row.minutes < Pow2(MINUTES_BITS)
    && row.price < Pow2(PPM_BITS) && row.region < Pow2(PPM_BITS)
    && row.work != 0
    && row.commitment == Commitment(h, row.work, row.minutes, row.plays, row.salt)
    && row.pseudonym == Pseudonym(h, k, row.commitment)
    && row.weight == CappedWeight(row.minutes, row.plays, row.price, row.region)
  }

  predicate RowMeans(h: Hash, k: Fe, row: Row) {
    if row.active then Opening(h, k, row) else PaddingHolds(h, k, row)
  }

  // ----- the selector sums over the integers -------------------------------

  function Count(s: seq<bool>, n: nat): (c: nat)
    requires n <= |s|
    ensures c <= n
  {
    if n == 0 then 0 else Count(s, n - 1) + (if s[n - 1] then 1 else 0)
  }

  lemma {:induction false} SumSelIsCount(s: seq<bool>, n: nat)
    requires n <= |s| && n <= MAX_PLAYS
    ensures SumSel(s, n) == Count(s, n)
  {
    if n > 0 { SumSelIsCount(s, n - 1); }
  }

  /** Slot `i` is the only one selected. */
  predicate OneHot(s: seq<bool>, n: nat, i: int)
    requires n <= |s|
  {
    0 <= i < n && s[i] && forall j :: 0 <= j < n && j != i ==> !s[j]
  }

  predicate NoneHot(s: seq<bool>, n: nat)
    requires n <= |s|
  {
    forall j :: 0 <= j < n ==> !s[j]
  }

  lemma {:induction false} NoneHotSum(s: seq<bool>, w: seq<nat>, n: nat)
    requires n <= |s| && n <= |w| && NoneHot(s, n)
    ensures SumOver(s, w, n) == 0
  {
    if n > 0 {
      NoneHotSum(s, w, n - 1);
    }
  }

  lemma {:induction false} CountZero(s: seq<bool>, n: nat)
    requires n <= |s| && Count(s, n) == 0
    ensures NoneHot(s, n)
  {
    if n > 0 { CountZero(s, n - 1); }
  }

  lemma {:induction false} CountOne(s: seq<bool>, n: nat) returns (i: nat)
    requires n <= |s| && Count(s, n) == 1
    ensures OneHot(s, n, i)
  {
    if s[n - 1] {
      CountZero(s, n - 1);
      i := n - 1;
    } else {
      i := CountOne(s, n - 1);
    }
  }

  lemma {:induction false} OneHotCount(s: seq<bool>, n: nat, i: nat)
    requires n <= |s| && OneHot(s, n, i)
    ensures Count(s, n) == 1
  {
    if i < n - 1 {
      OneHotCount(s, n - 1, i);
    } else {
      NoneHotCount(s, n - 1);
    }
  }

  lemma {:induction false} NoneHotCount(s: seq<bool>, n: nat)
    requires n <= |s| && NoneHot(s, n)
    ensures Count(s, n) == 0
  {
    if n > 0 { NoneHotCount(s, n - 1); }
  }

  /** A one-hot selection reads its slot off any table. */
  lemma {:induction false} OneHotSum(s: seq<bool>, w: seq<nat>, n: nat, i: nat)
    requires n <= |s| && n <= |w| && InField(w) && OneHot(s, n, i)
    ensures SumOver(s, w, n) == w[i]
  {
    ReduceSmall(w[n - 1]);
    ReduceSmall(w[i]);
    if i == n - 1 {
      NoneHotSum(s, w, n - 1);
    } else {
      OneHotSum(s, w, n - 1, i);
    }
  }

  /** The lookup: a selection that sums to one and points at `plays - 1` exists
      only for plays in range, and reads off the curve at `plays`. */
  lemma {:induction false} LookupSound(s: seq<bool>, plays: Fe)
    requires |s| == MAX_PLAYS
    requires SumSel(s, MAX_PLAYS) == 1 && SumOver(s, Slots(), MAX_PLAYS) == Sub(plays, 1)
    ensures 1 <= plays <= MAX_PLAYS
    ensures SumOver(s, Table(K_PPM), MAX_PLAYS) == D.Curve(plays, K_PPM)
  {
    SumSelIsCount(s, MAX_PLAYS);
    var i := CountOne(s, MAX_PLAYS);
    TableInField(K_PPM);
    OneHotSum(s, Slots(), MAX_PLAYS, i);
    OneHotSum(s, Table(K_PPM), MAX_PLAYS, i);
    SubExact(plays, 1);
  }

  function Hot(i: nat): (s: seq<bool>)
    ensures |s| == MAX_PLAYS
  {
    seq(MAX_PLAYS, j => j == i)
  }

  lemma {:induction false} LookupComplete(plays: Fe)
    requires 1 <= plays <= MAX_PLAYS
    ensures SumSel(Hot(plays - 1), MAX_PLAYS) == 1
    ensures SumOver(Hot(plays - 1), Slots(), MAX_PLAYS) == Sub(plays, 1)
    ensures SumOver(Hot(plays - 1), Table(K_PPM), MAX_PLAYS) == D.Curve(plays, K_PPM)
  {
    var s := Hot(plays - 1);
    assert OneHot(s, MAX_PLAYS, plays - 1);
    TableInField(K_PPM);
    OneHotCount(s, MAX_PLAYS, plays - 1);
    OneHotSum(s, Slots(), MAX_PLAYS, plays - 1);
    OneHotSum(s, Table(K_PPM), MAX_PLAYS, plays - 1);
    SumSelIsCount(s, MAX_PLAYS);
    SubExact(plays, 1);
  }

  // ----- the proven division, with no wrap-around --------------------------

  const MINUTES_CAP: nat := 0x1_0000_0000
  const FACTOR_CAP: nat := 0x100_0000_0000
  const VALUE_CAP: nat := 0x1_0000_0000_0000_0000_0000_0000_0000
  const WEIGHT_CAP: nat := 0x100_0000_0000_0000_0000_0000_0000_0000

  predicate Bounded(m: nat, p: nat, r: nat) {
    m < MINUTES_CAP && p < FACTOR_CAP && r < FACTOR_CAP
  }

  lemma ProductMono(a: nat, b: nat, c: nat, d: nat)
    requires a <= c && b <= d
    ensures Product(a, b) <= Product(c, d)
  {
    MulMono(a, c, b, d);
  }

  /** Bounded factors multiply below 2^112, and below 2^132 with the curve. */
  lemma ValueBound(m: nat, p: nat, r: nat, d: nat)
    requires Bounded(m, p, r) && d <= PPM
    ensures Product(m, p) < VALUE_CAP && D.Value(m, p, r) <= VALUE_CAP
    ensures Product(D.Value(m, p, r), d) <= VALUE_CAP * PPM
  {
    ProductMono(m, p, MINUTES_CAP, FACTOR_CAP);
    ProductMono(Product(m, p), r, MINUTES_CAP * FACTOR_CAP, FACTOR_CAP);
    ProductMono(D.Value(m, p, r), d, VALUE_CAP, PPM);
  }

  lemma ProductExact(a: Fe, b: Fe)
    requires Product(a, b) < ORDER
    ensures Mul(a, b) == Product(a, b)
  {
  }

  lemma {:induction false} RightSideExact(m: Fe, p: Fe, r: Fe, d: Fe)
    requires Bounded(m, p, r) && d <= PPM
    ensures Mul(Mul(Mul(m, p), r), d) == Product(D.Value(m, p, r), d)
  {
    ValueBound(m, p, r, d);
    ProductExact(m, p);
    ProductExact(Product(m, p), r);
    ProductExact(D.Value(m, p, r), d);
  }

  lemma LeftSideExact(weight: Fe, rem: Fe)
    requires weight < WEIGHT_CAP && rem < PPM
    ensures Add(Mul(weight, PPM), rem) == weight * PPM + rem
  {
  }

  /** The remainder's two width checks say exactly that it is a remainder. */
  lemma {:induction false} RemainderRange(rem: Fe)
    ensures BitWidth(rem, REMAINDER_BITS) && BitWidth(Sub(PPM - 1, rem), REMAINDER_BITS) <==> rem < PPM
  {
    Pow2Widths();
    BitWidthIff(rem, REMAINDER_BITS);
    BitWidthIff(Sub(PPM - 1, rem), REMAINDER_BITS);
    SubExact(PPM - 1, rem);
  }

  lemma {:induction false} PlaysRange(plays: Fe)
    ensures BitWidth(plays, PLAYS_BITS) && BitWidth(Sub(MAX_PLAYS, plays), PLAYS_BITS) <==> plays <= MAX_PLAYS
  {
    Pow2Widths();
    BitWidthIff(plays, PLAYS_BITS);
    BitWidthIff(Sub(MAX_PLAYS, plays), PLAYS_BITS);
    SubExact(MAX_PLAYS, plays);
  }

  /** For bounded factors, the field equation is the floor division of integers. */
  lemma {:induction false} DivisionMeans(m: Fe, p: Fe, r: Fe, d: Fe, weight: Fe, rem: Fe)
    requires Bounded(m, p, r) && d <= PPM && weight < WEIGHT_CAP && rem < PPM
    ensures Add(Mul(weight, PPM), rem) == Mul(Mul(Mul(m, p), r), d) <==>
      weight == Quot(Product(D.Value(m, p, r), d), PPM) && rem == Rem(Product(D.Value(m, p, r), d), PPM)
  {
    RightSideExact(m, p, r, d);
    LeftSideExact(weight, rem);
  }

  lemma {:induction false} CappedWeightIs(m: nat, plays: nat, p: nat, r: nat)
    ensures CappedWeight(m, plays, p, r) == Quot(Product(D.Value(m, p, r), D.Curve(plays, K_PPM)), PPM)
    ensures CappedWeight(m, plays, p, r) <= D.Value(m, p, r)
  {
    D.CurveBounds(plays, K_PPM);
    MulDivLe(D.Value(m, p, r), D.Curve(plays, K_PPM), PPM);
  }

  lemma {:induction false} Widths(row: Row)
    ensures Pow2(MINUTES_BITS) == MINUTES_CAP && Pow2(PPM_BITS) == FACTOR_CAP
    ensures BitWidth(row.minutes, MINUTES_BITS) <==> row.minutes < MINUTES_CAP
    ensures BitWidth(row.price, PPM_BITS) <==> row.price < FACTOR_CAP
    ensures BitWidth(row.region, PPM_BITS) <==> row.region < FACTOR_CAP
    ensures BitWidth(row.weight, WEIGHT_BITS) <==> row.weight < WEIGHT_CAP
  {
    Pow2Widths();
    BitWidthIff(row.minutes, MINUTES_BITS);
    BitWidthIff(row.price, PPM_BITS);
    BitWidthIff(row.region, PPM_BITS);
    BitWidthIff(row.weight, WEIGHT_BITS);
  }

  // ----- soundness and completeness of a row -------------------------------

  /** The weight gadget, given the bounds, pins the weight to the capped weight. */
  lemma {:induction false} DrSound(row: Row, a: Advice)
    requires |a.selectors| == MAX_PLAYS && DrHolds(row, a)
    requires Bounded(row.minutes, row.price, row.region) && row.weight < WEIGHT_CAP
    ensures 1 <= row.plays <= MAX_PLAYS
    ensures row.weight == CappedWeight(row.minutes, row.plays, row.price, row.region)
  {
    LookupSound(a.selectors, row.plays);
    RemainderRange(a.remainder);
    D.CurveBounds(row.plays, K_PPM);
    DivisionMeans(row.minutes, row.price, row.region, D.Curve(row.plays, K_PPM), row.weight, a.remainder);
    CappedWeightIs(row.minutes, row.plays, row.price, row.region);
  }

  lemma {:induction false} ActiveSound(h: Hash, k: Fe, row: Row, a: Advice)
    requires |a.selectors| == MAX_PLAYS && ActiveHolds(h, k, row, a)
    ensures Opening(h, k, row)
  {
    Widths(row);
    DrSound(row, a);
  }

  /** The advice an honest prover supplies. */
  function HonestAdvice(row: Row): (a: Advice)
    ensures |a.selectors| == MAX_PLAYS
  {
    var scaled := Product(D.Value(row.minutes, row.price, row.region), D.Curve(row.plays, K_PPM));
    Advice(Hot(Max(row.plays, 1) - 1), Reduce(Rem(scaled, PPM)))
  }

  /** The honest remainder passes its checks and completes the division. */
  lemma {:induction false} DivisionComplete(row: Row, d: nat, rem: Fe)
    requires Bounded(row.minutes, row.price, row.region) && row.weight < WEIGHT_CAP && d <= PPM
    requires rem == Rem(Product(D.Value(row.minutes, row.price, row.region), d), PPM)
    requires row.weight == Quot(Product(D.Value(row.minutes, row.price, row.region), d), PPM)
    ensures Add(Mul(row.weight, PPM), rem) == Mul(Mul(Mul(row.minutes, row.price), row.region), d)
    ensures BitWidth(rem, REMAINDER_BITS) && BitWidth(Sub(PPM - 1, rem), REMAINDER_BITS)
  {
    RemainderRange(rem);
    DivisionMeans(row.minutes, row.price, row.region, d, row.weight, rem);
  }

  lemma {:induction false} DrComplete(row: Row)
    requires 1 <= row.plays <= MAX_PLAYS
    requires Bounded(row.minutes, row.price, row.region) && row.weight < WEIGHT_CAP
    requires row.weight == CappedWeight(row.minutes, row.plays, row.price, row.region)
    ensures DrHolds(row, HonestAdvice(row))
  {
    var d := D.Curve(row.plays, K_PPM);
    var scaled := Product(D.Value(row.minutes, row.price, row.region), d);
    LookupComplete(row.plays);
    D.CurveBounds(row.plays, K_PPM);
    ReduceSmall(Rem(scaled, PPM));
    CappedWeightIs(row.minutes, row.plays, row.price, row.region);
    DivisionComplete(row, d, Rem(scaled, PPM));
  }

  lemma {:induction false} ActiveComplete(h: Hash, k: Fe, row: Row)
    requires Opening(h, k, row)
    ensures ActiveHolds(h, k, row, HonestAdvice(row))
  {
    Widths(row);
    PlaysRange(row.plays);
    CappedWeightIs(row.minutes, row.plays, row.price, row.region);
    ValueBound(row.minutes, row.price, row.region, 0);
    DrComplete(row);
  }

  /** A row can be satisfied exactly when it is an honest opening or the canonical
      padding; in particular an active row needs between 1 and 64 plays, and its
      weight is the exact integer floor, with no wrap-around. */
  lemma {:induction false} RowSatisfiableIff(h: Hash, k: Fe, row: Row)
    ensures (exists a :: RowHolds(h, k, row, a)) <==> RowMeans(h, k, row)
  {
    if a :| RowHolds(h, k, row, a) && row.active {
      ActiveSound(h, k, row, a);
    }
    if RowMeans(h, k, row) {
      if row.active { ActiveComplete(h, k, row); }
      assert RowHolds(h, k, row, HonestAdvice(row));
    }
  }
}
