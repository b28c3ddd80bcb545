/** From verified bytes to per-row bandwidth credibility: the saturating 128-bit
    pipeline and the unbounded arithmetic it stands for. */
module Credibility {
  import opened Words
  import opened Arithmetic
  import opened Sums
  import opened Ids
  import opened Receipts
  import opened Allocation

  /** Rates are bytes per this much proven weight. */
  const RATE_SCALE: nat := 1_000_000_000_000

  // ----- the split quotient ------------------------------------------------

  // The products of the quotient and of the remainder of `a / d` with `b`.
  function QuotientPart(a: nat, b: nat, d: nat): nat
    requires d > 0
  {
    Quot(a, d) * b
  }

  function RemainderPart(a: nat, b: nat, d: nat): nat
    requires d > 0
  {
    Rem(a, d) * b
  }

  /** `mul_div_floor`: quotient and remainder multiplied separately, saturating. */
  function MulDivFloor(a: u128, b: u128, d: u128): u128
    requires d > 0
  {
    SaturatingAdd(Saturate(QuotientPart(a, b, d)), Quot(Saturate(RemainderPart(a, b, d)), d))
  }

  lemma AddMultiple(n: nat, m: nat, s: nat, d: nat)
    requires d > 0 && n == m * d + s
    ensures n / d == m + s / d
  {
    var q := s / d;
    DivBracket(s, d);
    Distribute(m, q, d);
    Distribute(m, q + 1, d);
    DivUnique(n, d, m + q);
  }

  lemma SplitQuotient(a: nat, b: nat, d: nat)
    requires d > 0
    ensures MulDiv(a, b, d) == QuotientPart(a, b, d) + Quot(RemainderPart(a, b, d), d)
  {
    SplitOf(a, Quot(a, d), Rem(a, d), b, d);
  }

  lemma SplitOf(a: nat, q: nat, r: nat, b: nat, d: nat)
    requires d > 0 && a == q * d + r
    ensures MulDiv(a, b, d) == q * b + Quot(r * b, d)
  {
    AddMultiple(a * b, q * b, r * b, d);
  }

  lemma ClippedQuotient(m: nat, x: nat, d: nat)
    requires d > 0
    ensures SaturatingAdd(Saturate(m), Quot(Saturate(x), d)) == Saturate(m + Quot(x, d)) <==>
      || x < U128
      || Quot(x, d) == Quot(U128 - 1, d)
      || m + Quot(U128 - 1, d) >= U128 - 1
  {
    DivMono(Saturate(x), x, d);
  }

  /** It is the saturated floor of the true quotient exactly when the remainder
      product fits, or clipping that product does not show. */
  lemma {:induction false} MulDivFloorExactIff(a: u128, b: u128, d: u128)
    requires d > 0
    ensures MulDivFloor(a, b, d) == Saturate(MulDiv(a, b, d)) <==>
      || RemainderPart(a, b, d) < U128
      || Quot(RemainderPart(a, b, d), d) == Quot(U128 - 1, d)
      || QuotientPart(a, b, d) + Quot(U128 - 1, d) >= U128 - 1
  {
    SplitQuotient(a, b, d);
    ClippedQuotient(QuotientPart(a, b, d), RemainderPart(a, b, d), d);
  }

  /** Inputs outside the guard for which the answer is wrong. */
  lemma {:induction false} MulDivFloorCanMiss()
    ensures MulDivFloor(U128 - 2, U128 - 1, U128 - 1) == 1
    ensures MulDiv(U128 - 2, U128 - 1, U128 - 1) == U128 - 2
  {
    DivExact(U128 - 2, U128 - 1);
  }

  // ----- the per-user epoch factor -----------------------------------------

  function Claimants(verified: map<Pair, u128>): set<Id> {
    set pair | pair in verified :: Lower(pair.user)
  }

  function OfUser(verified: map<Pair, u128>, u: Id): map<Pair, nat> {
    map pair | pair in verified && Lower(pair.user) == u :: verified[pair]
  }

  /** All of a user's verified bytes, unbounded. */
  ghost function UserBytes(verified: map<Pair, u128>, u: Id): nat { SumMap(OfUser(verified, u)) }

  /** The user's factor over unbounded integers. */
  function Factor(bytes: nat, minBytes: nat): (f: nat)
    ensures f <= PPM
  {
    if minBytes == 0 then PPM else Min(MulDiv(bytes, PPM, minBytes), PPM)
  }

  ghost function Factors(verified: map<Pair, u128>, minBytes: nat): map<Id, nat> {
    map u | u in Claimants(verified) :: Factor(UserBytes(verified, u), minBytes)
  }

  lemma UserBytesStep(done: map<Pair, u128>, pair: Pair, v: u128, u: Id)
    requires pair !in done
    ensures UserBytes(done[pair := v], u) == UserBytes(done, u) + (if Lower(pair.user) == u then v else 0)
  {
    if Lower(pair.user) == u {
      assert OfUser(done[pair := v], u) == OfUser(done, u)[pair := v];
      SumMapSet(OfUser(done, u), pair, v);
    } else {
      assert OfUser(done[pair := v], u) == OfUser(done, u);
    }
  }

  function Tallied(t: map<Id, u128>, u: Id): u128 { if u in t then t[u] else 0 }

  /** The running per-user totals hold the saturated sums of the pairs seen. */
  ghost predicate TotalsByUser(t: map<Id, u128>, done: map<Pair, u128>) {
    && t.Keys == Claimants(done)
    && forall u :: Tallied(t, u) == Saturate(UserBytes(done, u))
  }

  lemma TotalsByUserStep(t: map<Id, u128>, done: map<Pair, u128>, pair: Pair, v: u128)
    requires TotalsByUser(t, done) && pair !in done
    ensures var u := Lower(pair.user); TotalsByUser(t[u := SaturatingAdd(Tallied(t, u), v)], done[pair := v])
  {
    var w := Lower(pair.user);
    var t' := t[w := SaturatingAdd(Tallied(t, w), v)];
    assert Claimants(done[pair := v]) == Claimants(done) + {w};
    forall u ensures Tallied(t', u) == Saturate(UserBytes(done[pair := v], u)) {
      UserBytesStep(done, pair, v, u);
    }
  }

  lemma SmallRemainder(a: nat, b: nat, d: nat)
    requires 0 < d <= U64 && b <= U64
    ensures RemainderPart(a, b, d) < U128
  {
    MulMono(a % d, U64 - 1, b, U64);
  }

  /** Saturation of the total never shows in the clamped factor. */
  lemma {:induction false} SaturatedFactor(bytes: nat, minBytes: u64)
    requires minBytes > 0
    ensures Min(MulDivFloor(Saturate(bytes), PPM, minBytes), PPM) == Factor(bytes, minBytes)
  {
    var b := Saturate(bytes);
    SmallRemainder(b, PPM, minBytes);
    MulDivFloorExactIff(b, PPM, minBytes);
    if bytes >= U128 {
      AmpleBytes(b, minBytes);
      AmpleBytes(bytes, minBytes);
    }
  }

  lemma AmpleBytes(bytes: nat, minBytes: u64)
    requires 0 < minBytes <= bytes
    ensures MulDiv(bytes, PPM, minBytes) >= PPM
  {
    MulMono(PPM, PPM, minBytes, bytes);
    DivMono(PPM * minBytes, bytes * PPM, minBytes);
    DivExact(PPM, minBytes);
  }

  function Scaled(totals: map<Id, u128>, minBytes: u64): map<Id, nat> {
    map u | u in totals :: if minBytes == 0 then PPM else Min(MulDivFloor(totals[u], PPM, minBytes), PPM)
  }

  lemma ScaledTotals(totals: map<Id, u128>, verified: map<Pair, u128>, minBytes: u64)
    requires TotalsByUser(totals, verified)
    ensures Scaled(totals, minBytes) == Factors(verified, minBytes)
  {
    forall u | u in totals ensures Scaled(totals, minBytes)[u] == Factor(UserBytes(verified, u), minBytes) {
      assert totals[u] == Tallied(totals, u);
      if minBytes > 0 { SaturatedFactor(UserBytes(verified, u), minBytes); }
    }
  }

  /** The totals of all users over the verified pairs, in whatever order they come. */
  method SumByUser(verified: map<Pair, u128>) returns (totals: map<Id, u128>)
    ensures TotalsByUser(totals, verified)
  {
    totals := map[];
    var rest := verified.Keys;
    ghost var done: map<Pair, u128> := map[];
    while rest != {}
      invariant rest <= verified.Keys
      invariant done == map pair | pair in verified && pair !in rest :: verified[pair]
      invariant TotalsByUser(totals, done)
      decreases |rest|
    {
      var pair :| pair in rest;
      var u := Lower(pair.user);
      TotalsByUserStep(totals, done, pair, verified[pair]);
      totals := totals[u := SaturatingAdd(Tallied(totals, u), verified[pair])];
      done := done[pair := verified[pair]];
      rest := rest - {pair};
    }
    assert done == verified;
  }

  /** `epoch_factor_ppm`: sum each user's bytes, then scale by the floor. */
  method EpochFactor(verified: map<Pair, u128>, minBytes: u64) returns (factors: map<Id, nat>)
    ensures factors == Factors(verified, minBytes)
  {
    var totals := SumByUser(verified);
    ScaledTotals(totals, verified, minBytes);
    factors := Scaled(totals, minBytes);
  }

  // ----- the per-row credibility -------------------------------------------

  function RateOf(rates: map<Id, u64>, work: Id): u64 {
    if Lower(work) in rates then rates[Lower(work)] else 0
  }

  function FactorOf(factors: map<Id, nat>, user: Id): nat {
    if Lower(user) in factors then factors[Lower(user)] else 0
  }

  function PairOf(row: RawRow): Pair { Pair(Lower(row.user), Lower(row.work)) }

  function Clamp(f: nat): u128 { Min(f, PPM) }

  /** One row of `row_credibility_ppm`, in the saturating arithmetic. */
  function RowCredibility(row: RawRow, verified: map<Pair, u128>, rates: map<Id, u64>, factors: map<Id, nat>): nat
    requires forall u :: u in factors ==> factors[u] <= PPM
  {
    var factor := FactorOf(factors, row.user);
    var rate := RateOf(rates, row.work);
    if rate == 0 then 0
    else if row.raw == 0 then factor
    else
      var expected := Max(MulDivFloor(row.raw, rate, RATE_SCALE), 1);
      var bytes := Held(verified, PairOf(row));
      MulDivFloor(Clamp(MulDivFloor(bytes, PPM, expected)), factor, PPM)
  }

  function RowsCredibility(
      rows: seq<RawRow>, verified: map<Pair, u128>, rates: map<Id, u64>, factors: map<Id, nat>): (ppm: seq<nat>)
    requires forall u :: u in factors ==> factors[u] <= PPM
    ensures |ppm| == |rows|
  {
    seq(|rows|, i requires 0 <= i < |rows| => RowCredibility(rows[i], verified, rates, factors))
  }

  /** Bytes a weight implies, never rounded down to nothing. */
  function Expected(raw: nat, rate: nat): (e: nat)
    ensures e >= 1
  {
    Max(MulDiv(raw, rate, RATE_SCALE), 1)
  }

  function Ratio(bytes: nat, expected: nat): (r: nat)
    requires expected >= 1
    ensures r <= PPM
  {
    Min(MulDiv(bytes, PPM, expected), PPM)
  }

  /** The credibility over unbounded integers. */
  function Ideal(raw: nat, rate: nat, bytes: nat, factor: nat): (c: nat)
    requires factor <= PPM
    ensures c <= factor
  {
    if rate == 0 then 0
    else if raw == 0 then factor
    else
      var ratio := Ratio(bytes, Expected(raw, rate));
      MulDivLe(factor, ratio, PPM);
      MulDiv(factor, ratio, PPM)
  }

  lemma {:induction false} ExpectedInWords(raw: u128, rate: u64)
    ensures Max(MulDivFloor(raw, rate, RATE_SCALE), 1) == Saturate(Expected(raw, rate))
  {
    SmallRemainder(raw, rate, RATE_SCALE);
    MulDivFloorExactIff(raw, rate, RATE_SCALE);
  }

  lemma SmallOverLarge(n: nat, d: nat)
    requires n < d
    ensures n / d == 0
  {
    DivUnique(n, d, 0);
  }

  /** An expectation clipped to the word is still unmeetable. */
  lemma ClippedExpectation(bytes: nat, e: nat)
    requires bytes * PPM < U128 - 1 && e >= 1
    ensures Ratio(bytes, Saturate(e)) == Ratio(bytes, e)
  {
    if e >= U128 {
      SmallOverLarge(bytes * PPM, U128 - 1);
      SmallOverLarge(bytes * PPM, e);
    }
  }

  lemma {:induction false} RatioInWords(bytes: u128, e: u128)
    requires bytes * PPM < U128 - 1 && e >= 1
    ensures Clamp(MulDivFloor(bytes, PPM, e)) == Ratio(bytes, e)
  {
    DivBracket(bytes, e);
    MulMono(bytes % e, bytes, PPM, PPM);
    MulDivFloorExactIff(bytes, PPM, e);
    DivLeSelf(bytes * PPM, e);
  }

  lemma {:induction false} FoldInWords(ratio: nat, factor: nat)
    requires ratio <= PPM && factor <= PPM
    ensures MulDivFloor(ratio, factor, PPM) == MulDiv(factor, ratio, PPM)
  {
    MulMono(ratio % PPM, PPM, factor, PPM);
    MulDivFloorExactIff(ratio, factor, PPM);
    assert ratio * factor == factor * ratio;
    MulDivLe(factor, ratio, PPM);
  }

  /** The saturating row computation is the unbounded one whenever the verified
      bytes are not themselves near the word size. */
  lemma {:induction false} RowRefinesIdeal(
      row: RawRow, verified: map<Pair, u128>, rates: map<Id, u64>, factors: map<Id, nat>)
    requires forall u :: u in factors ==> factors[u] <= PPM
    requires Held(verified, PairOf(row)) * PPM < U128 - 1
    ensures RowCredibility(row, verified, rates, factors)
         == Ideal(row.raw, RateOf(rates, row.work), Held(verified, PairOf(row)), FactorOf(factors, row.user))
  {
    var bytes, rate := Held(verified, PairOf(row)), RateOf(rates, row.work);
    if rate > 0 && row.raw > 0 {
      var e := Expected(row.raw, rate);
      ExpectedInWords(row.raw, rate);
      RatioInWords(bytes, Saturate(e));
      ClippedExpectation(bytes, e);
      FoldInWords(Ratio(bytes, e), FactorOf(factors, row.user));
    }
  }

  // ----- monotonicity ------------------------------------------------------

  /** Claiming more weight never raises credibility. */
  lemma {:induction false} ClaimingMoreNeverHelps(raw: nat, more: nat, rate: nat, bytes: nat, factor: nat)
    requires factor <= PPM && raw <= more
    ensures Ideal(more, rate, bytes, factor) <= Ideal(raw, rate, bytes, factor)
  {
    if rate > 0 && raw > 0 {
      MulMono(raw, more, rate, rate);
      DivMono(raw * rate, more * rate, RATE_SCALE);
      DivAntitone(bytes * PPM, Expected(raw, rate), Expected(more, rate));
      FoldMono(factor, factor, Ratio(bytes, Expected(more, rate)), Ratio(bytes, Expected(raw, rate)));
    }
  }

  lemma FoldMono(f: nat, g: nat, r: nat, s: nat)
    requires f <= g && r <= s
    ensures MulDiv(f, r, PPM) <= MulDiv(g, s, PPM)
  {
    MulMono(f, g, r, s);
    DivMono(f * r, g * s, PPM);
  }

  /** More verified bytes, for the row or for the user, never lower it. */
  lemma {:induction false} MoreEvidenceNeverHurts(raw: nat, rate: nat, bytes: nat, more: nat, factor: nat, better: nat)
    requires factor <= better <= PPM && bytes <= more
    ensures Ideal(raw, rate, bytes, factor) <= Ideal(raw, rate, more, better)
  {
    if rate > 0 && raw > 0 {
      var e := Expected(raw, rate);
      MulMono(bytes, more, PPM, PPM);
      DivMono(bytes * PPM, more * PPM, e);
      FoldMono(factor, better, Ratio(bytes, e), Ratio(more, e));
    }
  }

  lemma {:induction false} FactorMono(bytes: nat, more: nat, minBytes: nat)
    requires bytes <= more
    ensures Factor(bytes, minBytes) <= Factor(more, minBytes)
  {
    if minBytes > 0 {
      MulMono(bytes, more, PPM, PPM);
      DivMono(bytes * PPM, more * PPM, minBytes);
    }
  }

  // ----- evidence bounds weight --------------------------------------------

  lemma IdealWithinRatio(raw: nat, rate: nat, bytes: nat, factor: nat)
    requires rate > 0 && raw > 0 && factor <= PPM
    ensures Ideal(raw, rate, bytes, factor) <= Ratio(bytes, Expected(raw, rate))
  {
    var ratio := Ratio(bytes, Expected(raw, rate));
    FoldMono(factor, PPM, ratio, ratio);
    MulDivCommutes(PPM, ratio);
  }

  /** The credited weight times the rate is at most twice the verified bytes, at
      the rate's scale: no claim outruns its evidence, dust claims included. */
  lemma {:induction false} EvidenceBoundsWeight(row: RawRow, rate: nat, bytes: nat, factor: nat)
    requires rate > 0 && factor <= PPM
    ensures CredOf(Graded(row, Ideal(row.raw, rate, bytes, factor))) * rate <= 2 * bytes * RATE_SCALE
  {
    var raw := row.raw;
    var ppm := Ideal(raw, rate, bytes, factor);
    var c := CredOf(Graded(row, ppm));
    DivBracket(raw * ppm, PPM);
    if raw > 0 {
      var e := Expected(raw, rate);
      IdealWithinRatio(raw, rate, bytes, factor);
      CreditWithinEvidence(raw, ppm, Ratio(bytes, e), c, e, bytes);
      DivBracket(raw * rate, RATE_SCALE);
      WeightWithinExpectation(raw, rate, c, e, bytes);
    }
  }

  lemma MulDivCommutes(d: nat, r: nat)
    requires d > 0
    ensures MulDiv(d, r, d) == r
  {
    DivExact(r, d);
    assert d * r == r * d;
  }

  lemma CreditWithinEvidence(raw: nat, ppm: nat, ratio: nat, c: nat, e: nat, bytes: nat)
    requires c * PPM <= raw * ppm && ppm <= ratio && ratio * e <= bytes * PPM
    ensures c * e <= raw * bytes
  {
    MulMono(raw, raw, ppm, ratio);
    MulMono(c * PPM, raw * ratio, e, e);
    MulMono(raw, raw, ratio * e, bytes * PPM);
    assert (c * PPM) * e == (c * e) * PPM;
    assert (raw * ratio) * e == raw * (ratio * e);
    assert raw * (bytes * PPM) == (raw * bytes) * PPM;
    MulCancelLe(c * e, raw * bytes, PPM);
  }

  lemma WeightWithinExpectation(raw: nat, rate: nat, c: nat, e: nat, bytes: nat)
    requires e == Expected(raw, rate)
    requires c * e <= raw * bytes && raw * rate < (raw * rate / RATE_SCALE + 1) * RATE_SCALE
    ensures c * rate <= 2 * bytes * RATE_SCALE
  {
    assert raw * rate <= (2 * e) * RATE_SCALE;
    MulMono(c * e, raw * bytes, rate, rate);
    MulMono(raw * rate, (2 * e) * RATE_SCALE, bytes, bytes);
    assert (c * e) * rate == (c * rate) * e;
    assert (raw * bytes) * rate == (raw * rate) * bytes;
    assert ((2 * e) * RATE_SCALE) * bytes == (2 * bytes * RATE_SCALE) * e;
    MulCancelLe(c * rate, 2 * bytes * RATE_SCALE, e);
  }

  // ----- the whole pipeline ------------------------------------------------

  /** What a bundle verifies, and each user's factor over it. */
  ghost function Verified(p: Policy, b: seq<Signed>): map<Pair, u128> { Totals(EvidenceOf(p, b)) }

  /** A bundle that fits in memory cannot saturate anything. */
  lemma {:induction false} BundleBytes(p: Policy, b: seq<Signed>, pair: Pair)
    requires |b| < U64
    ensures Held(Verified(p, b), pair) == BytesFor(EvidenceOf(p, b), pair)
    ensures Held(Verified(p, b), pair) * PPM < U128 - 1
    ensures Held(Verified(p, b), pair) <= CHUNK_SIZE * |Only(EvidenceOf(p, b), pair)|
  {
    var n := |Only(EvidenceOf(p, b), pair)|;
    BlocksBoundBytes(p, b, pair);
    MulMono(CHUNK_SIZE, CHUNK_SIZE, n, U64);
    MulMono(Held(Verified(p, b), pair), CHUNK_SIZE * U64, PPM, PPM);
  }

  /** The 128-bit pipeline computes the unbounded formula on every bundle:
      credibility depends only on the row, its rate, the bytes of its consumer and
      work, and the consumer's total bytes. */
  lemma {:induction false} PipelineRefines(
      p: Policy, b: seq<Signed>, rates: map<Id, u64>, minBytes: u64, rows: seq<RawRow>, i: nat)
    requires |b| < U64 && i < |rows|
    ensures var factors := Factors(Verified(p, b), minBytes);
            RowsCredibility(rows, Verified(p, b), rates, factors)[i]
            == Ideal(rows[i].raw, RateOf(rates, rows[i].work),
                     BytesFor(EvidenceOf(p, b), Pair(Lower(rows[i].user), Lower(rows[i].work))),
                     FactorOf(factors, rows[i].user))
  {
    BundleBytes(p, b, PairOf(rows[i]));
    RowRefinesIdeal(rows[i], Verified(p, b), rates, Factors(Verified(p, b), minBytes));
  }

  /** The weight a row can be paid on is capped by the blocks its consumer
      verifiably received of that work, whatever weight was claimed. */
  lemma {:induction false} BlocksBoundWeight(
      p: Policy, b: seq<Signed>, rates: map<Id, u64>, minBytes: u64, rows: seq<RawRow>, i: nat)
    requires |b| < U64 && i < |rows| && RateOf(rates, rows[i].work) > 0
    ensures var ppm := RowsCredibility(rows, Verified(p, b), rates, Factors(Verified(p, b), minBytes))[i];
            CredOf(Graded(rows[i], ppm)) * RateOf(rates, rows[i].work)
            <= 2 * (CHUNK_SIZE * |Only(EvidenceOf(p, b), Pair(Lower(rows[i].user), Lower(rows[i].work)))|) * RATE_SCALE
  {
    var factors := Factors(Verified(p, b), minBytes);
    var bytes := BytesFor(EvidenceOf(p, b), PairOf(rows[i]));
    PipelineRefines(p, b, rates, minBytes, rows, i);
    BundleBytes(p, b, PairOf(rows[i]));
    EvidenceBoundsWeight(rows[i], RateOf(rates, rows[i].work), bytes, FactorOf(factors, rows[i].user));
  }

  // ----- more receipts never hurt ------------------------------------------

  lemma {:induction false} AbsorbKeeps(p: Policy, ev: Evidence, more: seq<Signed>, k: Key)
    requires k in ev
    ensures k in Absorb(p, ev, more) && Absorb(p, ev, more)[k] == ev[k]
  {
    if |more| > 0 { AbsorbKeeps(p, ev, more[..|more| - 1], k); }
  }

  lemma {:induction false} BytesGrow(p: Policy, b: seq<Signed>, more: seq<Signed>, pair: Pair)
    ensures BytesFor(EvidenceOf(p, b), pair) <= BytesFor(EvidenceOf(p, b + more), pair)
    ensures pair in Pairs(EvidenceOf(p, b)) ==> pair in Pairs(EvidenceOf(p, b + more))
  {
    var ev, big := EvidenceOf(p, b), EvidenceOf(p, b + more);
    AbsorbConcat(p, map[], b, more);
    forall k | k in ev ensures k in big && big[k] == ev[k] {
      AbsorbKeeps(p, ev, more, k);
    }
    SumMapMono(Only(ev, pair), Only(big, pair));
    if k :| k in ev && k.pair == pair { assert k in big; }
  }

  lemma {:induction false} FactorsGrow(p: Policy, b: seq<Signed>, more: seq<Signed>, minBytes: nat, user: Id)
    ensures FactorOf(Factors(Verified(p, b), minBytes), user) <= FactorOf(Factors(Verified(p, b + more), minBytes), user)
  {
    var v, w, u := Verified(p, b), Verified(p, b + more), Lower(user);
    forall pair | pair in v ensures pair in w && v[pair] <= w[pair] {
      BytesGrow(p, b, more, pair);
    }
    SumMapMono(OfUser(v, u), OfUser(w, u));
    FactorMono(UserBytes(v, u), UserBytes(w, u), minBytes);
    if pair :| pair in v && Lower(pair.user) == u { assert pair in w; }
  }

  /** Adding receipts to a bundle, valid or not, never lowers any row's credibility. */
  lemma {:induction false} MoreReceiptsNeverHurt(
      p: Policy, b: seq<Signed>, more: seq<Signed>, rates: map<Id, u64>, minBytes: u64, rows: seq<RawRow>, i: nat)
    requires |b + more| < U64 && i < |rows|
    ensures RowsCredibility(rows, Verified(p, b), rates, Factors(Verified(p, b), minBytes))[i]
         <= RowsCredibility(rows, Verified(p, b + more), rates, Factors(Verified(p, b + more), minBytes))[i]
  {
    PipelineRefines(p, b, rates, minBytes, rows, i);
    PipelineRefines(p, b + more, rates, minBytes, rows, i);
    BytesGrow(p, b, more, PairOf(rows[i]));
    FactorsGrow(p, b, more, minBytes, rows[i].user);
    MoreEvidenceNeverHurts(
      rows[i].raw, RateOf(rates, rows[i].work),
      BytesFor(EvidenceOf(p, b), PairOf(rows[i])), BytesFor(EvidenceOf(p, b + more), PairOf(rows[i])),
      FactorOf(Factors(Verified(p, b), minBytes), rows[i].user),
      FactorOf(Factors(Verified(p, b + more), minBytes), rows[i].user));
  }
}
