/** The native prover: weights, witness assembly, padding, and the public digest. */
module Prover {
  import opened Words
  import opened Arithmetic
  import opened Field
  import opened UsageCircuit
  import opened CircuitSynthesis
  import D = DiminishingReturns
  import Datasets

  /** 32 bytes read as a big-endian integer. */
  type Bytes32 = u256

  datatype UsageInput = UsageInput(work: Bytes32, minutes: u64, plays: u64, salt: Bytes32, price: u64, region: u64)

  datatype RowWitness = RowWitness(
    active: bool, work: Bytes32, minutes: u64, plays: u64, salt: Bytes32, price: u64, region: u64,
    weight: u128, commitment: Bytes32, pseudonym: Bytes32)

  datatype PublicRow = PublicRow(work: Bytes32, commitment: Bytes32, pseudonym: Bytes32, weight: u128)

  /** How the proof system itself can fail. */
  datatype EngineError = Synthesis | Serialize

  datatype ProveError = TooManyWorks | EngineFailed(cause: EngineError)

  datatype Bundle = Bundle(
    proof: seq<nat>, digest: Bytes32, epoch: u64, tier: Bytes32, k: Bytes32, rows: seq<PublicRow>)

  /** The proof system, left abstract: a public input and an assignment to bytes. */
  type Engine = (Fe, Assignment) -> Fallible<seq<nat>, EngineError>

  // ----- the native weight -------------------------------------------------

  /** `weight_of`: 128-bit products, which wrap when they leave the word. */
  function WeightOf(minutes: u64, plays: u64, price: u64, region: u64, k: nat): u128 {
    var d := Table(k)[D.ClampPlays(plays, MAX_PLAYS) - 1];
    var value := Wrap(Product(Wrap(Product(minutes, price)), region));
    Quot(Wrap(Product(value, d)), PPM)
  }

  lemma WrapProduct(a: nat, b: nat)
    ensures Wrap(Product(Wrap(a), b)) == Wrap(Product(a, b))
  {
    RemOfFactor(a, b, U128);
  }

  /** The curve as the circuit's table reads it: plays clamped to the table. */
  function TableCurve(plays: nat, k: nat): nat { D.Curve(D.ClampPlays(plays, MAX_PLAYS), k) }

  /** The scaled value before the division, over unbounded integers. */
  function Scaled(minutes: nat, plays: nat, price: nat, region: nat, k: nat): nat {
    Product(D.Value(minutes, price, region), TableCurve(plays, k))
  }

  lemma {:induction false} WeightOfWraps(minutes: u64, plays: u64, price: u64, region: u64, k: nat)
    ensures WeightOf(minutes, plays, price, region, k) == Quot(Wrap(Scaled(minutes, plays, price, region, k)), PPM)
  {
    WrapProduct(Product(minutes, price), region);
    WrapProduct(D.Value(minutes, price, region), TableCurve(plays, k));
  }

  /** The native weight is the exact floor exactly when the scaled value fits 128
      bits; past that point the native product wraps and falls short. */
  lemma {:induction false} WeightOfExactIff(minutes: u64, plays: u64, price: u64, region: u64, k: nat)
    ensures WeightOf(minutes, plays, price, region, k) == Quot(Scaled(minutes, plays, price, region, k), PPM) <==>
      Scaled(minutes, plays, price, region, k) < U128
  {
    WeightOfWraps(minutes, plays, price, region, k);
  }

  function Opened(x: UsageInput, user: string, work: string): Datasets.UsageRow {
    Datasets.UsageRow(user, work, x.minutes, x.price, x.region, x.plays)
  }

  /** What the table's clamp adds to the scaled value, less what the word drops. */
  function Excess(x: UsageInput, k: nat): int {
    var value, n := D.Value(x.minutes, x.price, x.region), Scaled(x.minutes, x.plays, x.price, x.region, k);
    n - Product(value, D.Curve(x.plays, k)) - Quot(n, U128) * U128
  }

  /** Moving a number by `e` stays within its block of the scale exactly when its
      remainder moves within the scale. */
  lemma SameBlock(n: nat, e: int)
    requires n + e >= 0
    ensures (n + e) / PPM == n / PPM <==> 0 <= n % PPM + e < PPM
  {
  }

  /** Proven and opened usage weigh the same, for every input and curvature, exactly
      when the excess is absorbed by the opened value's remainder. Up to 64 plays,
      zero included, that says the scaled value fits 128 bits; past 64 plays the
      native weight stops falling, so while it fits it is never the smaller. */
  lemma {:induction false} ProvenWeightIsOpenedWeight(x: UsageInput, k: nat, user: string, work: string)
    ensures WeightOf(x.minutes, x.plays, x.price, x.region, k) == Datasets.Weight(Opened(x, user, work), k) <==>
      0 <= Rem(Product(D.Value(x.minutes, x.price, x.region), D.Curve(x.plays, k)), PPM) + Excess(x, k) < PPM
    ensures x.plays <= MAX_PLAYS ==>
      (WeightOf(x.minutes, x.plays, x.price, x.region, k) == Datasets.Weight(Opened(x, user, work), k) <==>
       Scaled(x.minutes, x.plays, x.price, x.region, k) < U128)
    ensures x.plays > MAX_PLAYS && Scaled(x.minutes, x.plays, x.price, x.region, k) < U128 ==>
      Datasets.Weight(Opened(x, user, work), k) <= WeightOf(x.minutes, x.plays, x.price, x.region, k)
  {
    var value, n := D.Value(x.minutes, x.price, x.region), Scaled(x.minutes, x.plays, x.price, x.region, k);
    WeightOfExactIff(x.minutes, x.plays, x.price, x.region, k);
    WeightOfWraps(x.minutes, x.plays, x.price, x.region, k);
    WrapIs(n);
    SameBlock(Product(value, D.Curve(x.plays, k)), Excess(x, k));
    if x.plays > MAX_PLAYS {
      D.CurveAntitone(MAX_PLAYS, x.plays, k, k);
      ProductMono(value, D.Curve(x.plays, k), value, D.Curve(MAX_PLAYS, k));
      DivMono(Product(value, D.Curve(x.plays, k)), Product(value, D.Curve(MAX_PLAYS, k)), PPM);
    }
  }

  lemma WrapIs(n: nat)
    ensures Wrap(n) == n - Quot(n, U128) * U128
  {
  }

  const LONG_PLAYS: UsageInput := UsageInput(1, 1, 65, 0, PPM, 1)

  /** One play past the table: the two weights part. */
  lemma {:induction false} WeightsPartPast64(user: string, work: string)
    ensures Datasets.Weight(Opened(LONG_PLAYS, user, work), PPM)
         < WeightOf(LONG_PLAYS.minutes, LONG_PLAYS.plays, LONG_PLAYS.price, LONG_PLAYS.region, PPM)
  {
    D.CurveFallsPast64();
    D.CurveBounds(64, PPM);
    LongPlaysWeight();
    UnitRowWeighsCurve(Opened(LONG_PLAYS, user, work), PPM);
  }

  lemma {:induction false} LongPlaysWeight()
    ensures WeightOf(1, 65, PPM, 1, PPM) == D.Curve(64, PPM)
  {
    D.CurveBounds(64, PPM);
    WeightOfExactIff(1, 65, PPM, 1, PPM);
    UnitScale(D.Curve(64, PPM));
  }

  lemma UnitScale(d: nat)
    ensures Product(D.Value(1, PPM, 1), d) == PPM * d && Quot(PPM * d, PPM) == d
  {
    DivExact(d, PPM);
  }

  lemma UnitRowWeighsCurve(row: Datasets.UsageRow, k: nat)
    requires Datasets.Value(row) == PPM
    ensures Datasets.Weight(row, k) == D.Curve(row.plays, k)
  {
    DivExact(D.Curve(row.plays, k), PPM);
  }

  // ----- hashes over bytes -------------------------------------------------

  function NativeCommitment(h: Hash, work: Bytes32, minutes: u64, plays: u64, salt: Bytes32): Bytes32 {
    Commitment(h, Reduce(work), Reduce(minutes), Reduce(plays), Reduce(salt))
  }

  function NativePseudonym(h: Hash, k: Bytes32, commitment: Bytes32): Bytes32 {
    Pseudonym(h, Reduce(k), Reduce(commitment))
  }

  function PublicOutputs(rows: seq<PublicRow>): seq<Fe> {
    if |rows| == 0 then []
    else
      var row := rows[|rows| - 1];
      PublicOutputs(rows[..|rows| - 1]) + [Reduce(row.pseudonym), Reduce(row.work), Reduce(row.weight)]
  }

  function PublicPreimage(epoch: u64, tier: Bytes32, k: Bytes32, rows: seq<PublicRow>): seq<Fe> {
    [Reduce(epoch), Reduce(tier), Reduce(k)] + PublicOutputs(rows)
  }

  function NativeDigest(h: Hash, epoch: u64, tier: Bytes32, k: Bytes32, rows: seq<PublicRow>): Bytes32 {
    h(PublicPreimage(epoch, tier, k, rows))
  }

  /** `digest`: push the preimage, then hash it. */
  method ComputeDigest(h: Hash, epoch: u64, tier: Bytes32, k: Bytes32, rows: seq<PublicRow>) returns (d: Bytes32)
    ensures d == NativeDigest(h, epoch, tier, k, rows)
  {
    var inputs := [Reduce(epoch), Reduce(tier), Reduce(k)];
    for i := 0 to |rows|
      invariant inputs == PublicPreimage(epoch, tier, k, rows[..i])
    {
      var row := rows[i];
      assert rows[..i + 1][..i] == rows[..i];
      inputs := inputs + [Reduce(row.pseudonym), Reduce(row.work), Reduce(row.weight)];
    }
    assert rows[..|rows|] == rows;
    d := h(inputs);
  }

  // ----- witness assembly --------------------------------------------------

  function PaddedRow(h: Hash, k: Bytes32): RowWitness {
    var c := NativeCommitment(h, 0, 0, 0, 0);
    RowWitness(false, 0, 0, 0, 0, 0, 0, 0, c, NativePseudonym(h, k, c))
  }

  function ActiveRow(h: Hash, k: Bytes32, kPpm: nat, x: UsageInput): RowWitness {
    var c := NativeCommitment(h, x.work, x.minutes, x.plays, x.salt);
    RowWitness(true, x.work, x.minutes, x.plays, x.salt, x.price, x.region,
               WeightOf(x.minutes, x.plays, x.price, x.region, kPpm), c, NativePseudonym(h, k, c))
  }

  function PublicOf(row: RowWitness): PublicRow {
    PublicRow(row.work, row.commitment, row.pseudonym, row.weight)
  }

  /** Active rows first, canonical padding after, sixteen in all. */
  function Witness(h: Hash, k: Bytes32, kPpm: nat, xs: seq<UsageInput>): (rows: seq<RowWitness>)
    ensures |rows| == MAX_WORKS
  {
    seq(MAX_WORKS, i requires 0 <= i < MAX_WORKS => if i < |xs| then ActiveRow(h, k, kPpm, xs[i]) else PaddedRow(h, k))
  }

  function Publics(rows: seq<RowWitness>): (r: seq<PublicRow>)
    ensures |r| == |rows|
  {
    seq(|rows|, i requires 0 <= i < |rows| => PublicOf(rows[i]))
  }

  function Padded(h: Hash, k: Bytes32, active: seq<PublicRow>): (rows: seq<PublicRow>)
    requires |active| <= MAX_WORKS
    ensures |rows| == MAX_WORKS && rows[..|active|] == active
  {
    active + seq(MAX_WORKS - |active|, i => PublicOf(PaddedRow(h, k)))
  }

  /** `digest_from_active`: pad, then hash. */
  method DigestFromActive(h: Hash, epoch: u64, tier: Bytes32, k: Bytes32, active: seq<PublicRow>)
    returns (r: Fallible<Bytes32, ProveError>)
    ensures r == if |active| > MAX_WORKS then Failed(TooManyWorks)
                 else Done(NativeDigest(h, epoch, tier, k, Padded(h, k, active)))
  {
    if |active| > MAX_WORKS {
      return Failed(TooManyWorks);
    }
    var rows := active;
    while |rows| < MAX_WORKS
      invariant |active| <= |rows| <= MAX_WORKS
      invariant rows == Padded(h, k, active)[..|rows|]
    {
      rows := rows + [PublicOf(PaddedRow(h, k))];
    }
    assert rows == Padded(h, k, active);
    var d := ComputeDigest(h, epoch, tier, k, rows);
    return Done(d);
  }

  // ----- the digest of an honest bundle comes back -------------------------

  predicate SameOutputs(a: seq<PublicRow>, b: seq<PublicRow>) {
    |a| == |b| && forall i :: 0 <= i < |a| ==>
      a[i].pseudonym == b[i].pseudonym && a[i].work == b[i].work && a[i].weight == b[i].weight
  }

  lemma {:induction false} CommitmentsNotHashed(a: seq<PublicRow>, b: seq<PublicRow>)
    requires SameOutputs(a, b)
    ensures PublicOutputs(a) == PublicOutputs(b)
  {
    if |a| > 0 { CommitmentsNotHashed(a[..|a| - 1], b[..|b| - 1]); }
  }

  /** An event that carries the pseudonyms, works and weights of the real rows,
      and no commitments, reproduces the prover's digest. */
  lemma {:induction false} DigestRoundTrip(
      h: Hash, epoch: u64, tier: Bytes32, k: Bytes32, kPpm: nat, xs: seq<UsageInput>, active: seq<PublicRow>)
    requires |xs| <= MAX_WORKS
    requires SameOutputs(active, Publics(Witness(h, k, kPpm, xs))[..|xs|])
    ensures NativeDigest(h, epoch, tier, k, Padded(h, k, active))
         == NativeDigest(h, epoch, tier, k, Publics(Witness(h, k, kPpm, xs)))
  {
    var full := Publics(Witness(h, k, kPpm, xs));
    forall i | 0 <= i < MAX_WORKS
      ensures Padded(h, k, active)[i].pseudonym == full[i].pseudonym && Padded(h, k, active)[i].work == full[i].work
           && Padded(h, k, active)[i].weight == full[i].weight
    {
      if i < |xs| { assert full[..|xs|][i] == full[i]; }
    }
    CommitmentsNotHashed(Padded(h, k, active), full);
  }

  // ----- when the assembled witness satisfies the circuit ------------------

  function Lift(w: RowWitness): Row {
    Row(w.active, Reduce(w.work), Reduce(w.minutes), Reduce(w.plays), Reduce(w.salt), Reduce(w.price),
        Reduce(w.region), Reduce(w.weight), Reduce(w.commitment), Reduce(w.pseudonym))
  }

  function LiftAll(ws: seq<RowWitness>): (r: seq<Row>)
    ensures |r| == |ws|
  {
    seq(|ws|, i requires 0 <= i < |ws| => Lift(ws[i]))
  }

  lemma {:induction false} LiftedOutputs(ws: seq<RowWitness>)
    ensures PublicOutputs(Publics(ws)) == Outputs(LiftAll(ws))
  {
    if |ws| > 0 {
      var n := |ws| - 1;
      LiftedOutputs(ws[..n]);
      assert Publics(ws)[..n] == Publics(ws[..n]) && LiftAll(ws)[..n] == LiftAll(ws[..n]);
    }
  }

  // ----- the advice the prover assigns -------------------------------------

  /** The undiminished value, in 128-bit products. */
  function NativeValue(w: RowWitness): u128 { Wrap(Product(Wrap(Product(w.minutes, w.price)), w.region)) }

  /** One selector at the clamped plays, and the remainder of factors reduced first. */
  function NativeAdvice(w: RowWitness): (a: Advice)
    ensures |a.selectors| == MAX_PLAYS
  {
    var hot := D.ClampPlays(w.plays, MAX_PLAYS) - 1;
    var d := Table(K_PPM)[hot];
    Advice(Hot(hot), Reduce(Rem(Product(Rem(NativeValue(w), PPM), Rem(d, PPM)), PPM)))
  }

  function NativeAdvices(ws: seq<RowWitness>): (r: seq<Advice>)
    ensures |r| == |ws|
  {
    seq(|ws|, i requires 0 <= i < |ws| => NativeAdvice(ws[i]))
  }

  /** Everything the prover assigns. */
  function Assigned(epoch: u64, tier: Bytes32, k: Bytes32, ws: seq<RowWitness>): Assignment {
    Assignment(Reduce(epoch), Reduce(tier), Reduce(k), LiftAll(ws), NativeAdvices(ws))
  }

  /** `prove`: the digest, the public rows, and whatever the proof system makes of
      the assignment. */
  method Prove(engine: Engine, h: Hash, epoch: u64, tier: Bytes32, k: Bytes32, kPpm: nat, xs: seq<UsageInput>)
    returns (r: Fallible<Bundle, ProveError>)
    ensures |xs| > MAX_WORKS ==> r == Failed(TooManyWorks)
    ensures |xs| <= MAX_WORKS ==>
      var ws := Witness(h, k, kPpm, xs);
      var digest := NativeDigest(h, epoch, tier, k, Publics(ws));
      var made := engine(Reduce(digest), Assigned(epoch, tier, k, ws));
      r == if made.Failed? then Failed(EngineFailed(made.error))
           else Done(Bundle(made.value, digest, epoch, tier, k, Publics(ws)))
  {
    if |xs| > MAX_WORKS {
      return Failed(TooManyWorks);
    }
    var rows := seq(|xs|, i requires 0 <= i < |xs| => ActiveRow(h, k, kPpm, xs[i]));
    while |rows| < MAX_WORKS
      invariant |xs| <= |rows| <= MAX_WORKS
      invariant rows == Witness(h, k, kPpm, xs)[..|rows|]
    {
      rows := rows + [PaddedRow(h, k)];
    }
    assert rows == Witness(h, k, kPpm, xs);
    var digest := ComputeDigest(h, epoch, tier, k, Publics(rows));
    var made := engine(Reduce(digest), Assigned(epoch, tier, k, rows));
    if made.Failed? {
      return Failed(EngineFailed(made.error));
    }
    r := Done(Bundle(made.value, digest, epoch, tier, k, Publics(rows)));
  }

  /** What a caller can check of an input before proving. */
  predicate Admissible(x: UsageInput, kPpm: nat) {
    && 1 <= x.plays <= MAX_PLAYS
    && x.minutes < MINUTES_CAP && x.price < FACTOR_CAP && x.region < FACTOR_CAP
    && Reduce(x.work) != 0
    && WeightOf(x.minutes, x.plays, x.price, x.region, kPpm) == CappedWeight(x.minutes, x.plays, x.price, x.region)
  }

  lemma {:induction false} ActiveRowMeansIff(h: Hash, k: Bytes32, kPpm: nat, x: UsageInput)
    ensures RowMeans(h, Reduce(k), Lift(ActiveRow(h, k, kPpm, x))) <==> Admissible(x, kPpm)
  {
    LiftExact(h, k, kPpm, x);
    Widths(Lift(ActiveRow(h, k, kPpm, x)));
  }

  /** Word-sized values enter the field unchanged, and hashes are already in it. */
  lemma LiftExact(h: Hash, k: Bytes32, kPpm: nat, x: UsageInput)
    ensures var c := NativeCommitment(h, x.work, x.minutes, x.plays, x.salt);
            Lift(ActiveRow(h, k, kPpm, x))
            == Row(true, Reduce(x.work), x.minutes, x.plays, Reduce(x.salt), x.price, x.region,
                   WeightOf(x.minutes, x.plays, x.price, x.region, kPpm), c, Pseudonym(h, Reduce(k), c))
    ensures Commitment(h, Reduce(x.work), x.minutes, x.plays, Reduce(x.salt))
         == NativeCommitment(h, x.work, x.minutes, x.plays, x.salt)
  {
    ReduceSmall(x.minutes);
    ReduceSmall(x.plays);
    ReduceSmall(x.price);
    ReduceSmall(x.region);
  }

  lemma PaddedRowMeans(h: Hash, k: Bytes32)
    ensures RowMeans(h, Reduce(k), Lift(PaddedRow(h, k)))
  {
  }

  predicate DistinctWorks(xs: seq<UsageInput>) {
    forall i, j :: 0 <= i < j < |xs| ==> Reduce(xs[i].work) != Reduce(xs[j].work)
  }

  lemma {:induction false} WitnessMeansIff(h: Hash, k: Bytes32, kPpm: nat, xs: seq<UsageInput>)
    requires |xs| <= MAX_WORKS
    ensures var rows := LiftAll(Witness(h, k, kPpm, xs));
            (forall i :: 0 <= i < |rows| ==> RowMeans(h, Reduce(k), rows[i])) <==>
            (forall i :: 0 <= i < |xs| ==> Admissible(xs[i], kPpm))
  {
    var rows := LiftAll(Witness(h, k, kPpm, xs));
    forall i | 0 <= i < MAX_WORKS
      ensures RowMeans(h, Reduce(k), rows[i]) <==> (i < |xs| ==> Admissible(xs[i], kPpm))
    {
      if i < |xs| { ActiveRowMeansIff(h, k, kPpm, xs[i]); } else { PaddedRowMeans(h, k); }
    }
  }

  lemma LiftedRow(h: Hash, k: Bytes32, kPpm: nat, xs: seq<UsageInput>, i: nat)
    requires i < MAX_WORKS
    ensures var row := LiftAll(Witness(h, k, kPpm, xs))[i];
            (row.active <==> i < |xs|) && (i < |xs| ==> row.work == Reduce(xs[i].work))
  {
    var ws := Witness(h, k, kPpm, xs);
    assert LiftAll(ws)[i] == Lift(ws[i]);
    assert ws[i] == if i < |xs| then ActiveRow(h, k, kPpm, xs[i]) else PaddedRow(h, k);
  }

  lemma ClashIff(h: Hash, k: Bytes32, kPpm: nat, xs: seq<UsageInput>, i: nat, j: nat)
    requires i < j < MAX_WORKS
    ensures var rows := LiftAll(Witness(h, k, kPpm, xs));
            Clash(rows[i], rows[j]) <==> j < |xs| && Reduce(xs[i].work) == Reduce(xs[j].work)
  {
    LiftedRow(h, k, kPpm, xs, i);
    LiftedRow(h, k, kPpm, xs, j);
  }

  lemma WitnessUniqueIff(h: Hash, k: Bytes32, kPpm: nat, xs: seq<UsageInput>)
    requires |xs| <= MAX_WORKS
    ensures Unique(LiftAll(Witness(h, k, kPpm, xs))) <==> DistinctWorks(xs)
  {
    var rows := LiftAll(Witness(h, k, kPpm, xs));
    if Unique(rows) {
      forall i, j | 0 <= i < j < |xs| ensures Reduce(xs[i].work) != Reduce(xs[j].work) {
        ClashIff(h, k, kPpm, xs, i, j);
        assert !Clash(rows[i], rows[j]);
      }
    }
    if DistinctWorks(xs) {
      forall i, j | 0 <= i < j < MAX_WORKS ensures !Clash(rows[i], rows[j]) {
        ClashIff(h, k, kPpm, xs, i, j);
      }
    }
  }

  /** Bounded factors: the value does not wrap, and the reduced remainder is the
      remainder of the whole product. */
  lemma {:induction false} NativeRemainder(w: RowWitness, d: nat)
    requires Bounded(w.minutes, w.price, w.region)
    ensures NativeValue(w) == D.Value(w.minutes, w.price, w.region)
    ensures Rem(Product(Rem(NativeValue(w), PPM), Rem(d, PPM)), PPM)
         == Rem(Product(D.Value(w.minutes, w.price, w.region), d), PPM)
  {
    ValueBound(w.minutes, w.price, w.region, 0);
    ReducedFactors(D.Value(w.minutes, w.price, w.region), d);
  }

  lemma ReducedFactors(v: nat, d: nat)
    ensures Rem(Product(Rem(v, PPM), Rem(d, PPM)), PPM) == Rem(Product(v, d), PPM)
  {
    RemOfFactor(v, Rem(d, PPM), PPM);
    RemOfFactor(d, v, PPM);
  }

  lemma {:induction false} NativeIsHonest(h: Hash, k: Bytes32, kPpm: nat, x: UsageInput)
    requires Admissible(x, kPpm)
    ensures NativeAdvice(ActiveRow(h, k, kPpm, x)) == HonestAdvice(Lift(ActiveRow(h, k, kPpm, x)))
  {
    LiftExact(h, k, kPpm, x);
    NativeRemainder(ActiveRow(h, k, kPpm, x), D.Curve(x.plays, K_PPM));
  }

  lemma {:induction false} ActiveRowHoldsIff(h: Hash, k: Bytes32, kPpm: nat, x: UsageInput)
    ensures var w := ActiveRow(h, k, kPpm, x);
            RowHolds(h, Reduce(k), Lift(w), NativeAdvice(w)) <==> Admissible(x, kPpm)
  {
    var w := ActiveRow(h, k, kPpm, x);
    ActiveRowMeansIff(h, k, kPpm, x);
    if Admissible(x, kPpm) {
      NativeIsHonest(h, k, kPpm, x);
      MeaningfulRowHolds(h, Reduce(k), Lift(w));
    }
    if RowHolds(h, Reduce(k), Lift(w), NativeAdvice(w)) { RowMeaning(h, Reduce(k), Lift(w), NativeAdvice(w)); }
  }

  lemma {:induction false} WitnessRowsHoldIff(h: Hash, k: Bytes32, kPpm: nat, xs: seq<UsageInput>)
    requires |xs| <= MAX_WORKS
    ensures var ws := Witness(h, k, kPpm, xs);
            RowsHold(h, Reduce(k), LiftAll(ws), NativeAdvices(ws)) <==>
            forall i :: 0 <= i < |xs| ==> Admissible(xs[i], kPpm)
  {
    var ws := Witness(h, k, kPpm, xs);
    forall i | 0 <= i < MAX_WORKS
      ensures RowHolds(h, Reduce(k), LiftAll(ws)[i], NativeAdvices(ws)[i]) <==> (i < |xs| ==> Admissible(xs[i], kPpm))
    {
      if i < |xs| { ActiveRowHoldsIff(h, k, kPpm, xs[i]); } else { PaddedRowMeans(h, k); }
    }
  }

  /** The values the prover assigns satisfy every constraint exactly when each input
      is in range, its native weight is the capped weight, and no two inputs name
      the same work; and when they do not, no other advice would either. Neither
      zero plays, nor more than 64, nor a curvature that weighs differently from the
      circuit's, can be proved. */
  lemma {:induction false} WitnessSatisfiesIff(
      h: Hash, epoch: u64, tier: Bytes32, k: Bytes32, kPpm: nat, xs: seq<UsageInput>)
    requires |xs| <= MAX_WORKS
    ensures var ws := Witness(h, k, kPpm, xs);
            var digest := Reduce(NativeDigest(h, epoch, tier, k, Publics(ws)));
            && (Holds(h, digest, Assigned(epoch, tier, k, ws)) <==>
                (forall i :: 0 <= i < |xs| ==> Admissible(xs[i], kPpm)) && DistinctWorks(xs))
            && (Holds(h, digest, Assigned(epoch, tier, k, ws)) <==>
                Attests(h, digest, Reduce(epoch), Reduce(tier), Reduce(k), LiftAll(ws)))
  {
    var ws := Witness(h, k, kPpm, xs);
    WitnessMeansIff(h, k, kPpm, xs);
    WitnessRowsHoldIff(h, k, kPpm, xs);
    WitnessUniqueIff(h, k, kPpm, xs);
    LiftedOutputs(ws);
    ReduceSmall(NativeDigest(h, epoch, tier, k, Publics(ws)));
  }

  const UNPLAYED: UsageInput := UsageInput(1, 1, 0, 0, PPM, PPM)

  /** An input with minutes but no play: it weighs something natively, and neither
      the assigned advice nor any other satisfies the circuit. */
  lemma {:induction false} UnplayedUnprovable(h: Hash, epoch: u64, tier: Bytes32, k: Bytes32)
    ensures var ws := Witness(h, k, K_PPM, [UNPLAYED]);
            var digest := Reduce(NativeDigest(h, epoch, tier, k, Publics(ws)));
            && ws[0].weight == PPM * PPM
            && !Holds(h, digest, Assigned(epoch, tier, k, ws))
            && !Attests(h, digest, Reduce(epoch), Reduce(tier), Reduce(k), LiftAll(ws))
  {
    WitnessSatisfiesIff(h, epoch, tier, k, K_PPM, [UNPLAYED]);
    assert !Admissible([UNPLAYED][0], K_PPM);
    D.CurveBounds(1, K_PPM);
    WeightOfExactIff(1, 0, PPM, PPM, K_PPM);
    DivExact(PPM * PPM, PPM);
  }

  /** At the circuit's own curvature the weight condition is the overflow guard. */
  lemma {:induction false} AdmissibleNeutralIff(x: UsageInput)
    ensures Admissible(x, K_PPM) <==>
      && 1 <= x.plays <= MAX_PLAYS
      && Bounded(x.minutes, x.price, x.region)
      && Reduce(x.work) != 0
      && Scaled(x.minutes, x.plays, x.price, x.region, K_PPM) < U128
  {
    if 1 <= x.plays <= MAX_PLAYS {
      WeightOfExactIff(x.minutes, x.plays, x.price, x.region, K_PPM);
      CappedWeightIs(x.minutes, x.plays, x.price, x.region);
    }
  }

  const OUTSIZED: UsageInput := UsageInput(1, MINUTES_CAP - 1, 1, 0, FACTOR_CAP - 1, FACTOR_CAP - 1)

  /** The row a circuit would accept for an input, whatever its native weight. */
  function CircuitRow(h: Hash, k: Fe, x: UsageInput): Row
    requires CappedWeight(x.minutes, x.plays, x.price, x.region) < ORDER
  {
    var c := Commitment(h, Reduce(x.work), x.minutes, x.plays, Reduce(x.salt));
    Row(true, Reduce(x.work), x.minutes, x.plays, Reduce(x.salt), x.price, x.region,
        CappedWeight(x.minutes, x.plays, x.price, x.region), c, Pseudonym(h, k, c))
  }

  /** An opening the circuit accepts and the native prover cannot produce: every
      factor is in range, but the 128-bit product wraps. */
  lemma {:induction false} OutsizedWraps(h: Hash, k: Fe)
    ensures CappedWeight(OUTSIZED.minutes, OUTSIZED.plays, OUTSIZED.price, OUTSIZED.region) < ORDER
    ensures Opening(h, k, CircuitRow(h, k, OUTSIZED))
    ensures WeightOf(OUTSIZED.minutes, OUTSIZED.plays, OUTSIZED.price, OUTSIZED.region, K_PPM)
         != CappedWeight(OUTSIZED.minutes, OUTSIZED.plays, OUTSIZED.price, OUTSIZED.region)
    ensures !Admissible(OUTSIZED, K_PPM)
  {
    var m, p := MINUTES_CAP - 1, FACTOR_CAP - 1;
    Pow2Widths();
    ValueBound(m, p, p, 0);
    CappedWeightIs(m, 1, p, p);
    D.CurveBounds(1, K_PPM);
    WeightOfExactIff(m, 1, p, p, K_PPM);
    OutsizedScaled();
  }

  lemma OutsizedScaled()
    ensures Product(D.Value(MINUTES_CAP - 1, FACTOR_CAP - 1, FACTOR_CAP - 1), PPM) >= U128
  {
  }

  // ----- the trust chain of one submission ---------------------------------

  /** The vectors anyone hashed, on which no two collide. */
  ghost predicate CollisionFree(h: Hash, hashed: set<seq<Fe>>) {
    forall x, y :: x in hashed && y in hashed && h(x) == h(y) ==> x == y
  }

  /** What a commitment binds. */
  datatype Usage = Usage(work: Fe, minutes: Fe, plays: Fe, salt: Fe) {
    function Vector(): seq<Fe> { [work, minutes, plays, salt] }
  }

  function UsageOf(row: Row): Usage { Usage(row.work, row.minutes, row.plays, row.salt) }

  /** The usage hashed to a commitment, and it to this pseudonym, under key `k`. */
  ghost predicate Opens(h: Hash, hashed: set<seq<Fe>>, k: Fe, u: Usage, pseudonym: Fe) {
    && u.Vector() in hashed
    && [k, h(u.Vector())] in hashed
    && pseudonym == h([k, h(u.Vector())])
  }

  /** In range, and at some price and region factor it earns the weight: a commitment
      does not bind those two, so any factors in range can be proved with it. */
  ghost predicate Weighs(u: Usage, weight: nat) {
    && u.work != 0 && 1 <= u.plays <= MAX_PLAYS && u.minutes < MINUTES_CAP
    && exists price: nat, region: nat ::
         price < FACTOR_CAP && region < FACTOR_CAP && weight == CappedWeight(u.minutes, u.plays, price, region)
  }

  /** What an opening can earn at most, and does at the top factors. */
  lemma {:induction false} WeighsAtMost(u: Usage, weight: nat)
    requires Weighs(u, weight)
    ensures var top := CappedWeight(u.minutes, u.plays, FACTOR_CAP - 1, FACTOR_CAP - 1);
            weight <= top && Weighs(u, top)
  {
    var price: nat, region: nat :|
      price < FACTOR_CAP && region < FACTOR_CAP && weight == CappedWeight(u.minutes, u.plays, price, region);
    var d, cap := D.Curve(u.plays, K_PPM), FACTOR_CAP - 1;
    CappedWeightIs(u.minutes, u.plays, price, region);
    CappedWeightIs(u.minutes, u.plays, cap, cap);
    ProductMono(u.minutes, price, u.minutes, cap);
    ProductMono(Product(u.minutes, price), region, Product(u.minutes, cap), cap);
    ProductMono(D.Value(u.minutes, price, region), d, D.Value(u.minutes, cap, cap), d);
    DivMono(Product(D.Value(u.minutes, price, region), d), Product(D.Value(u.minutes, cap, cap), d), PPM);
  }

  /** The opening behind a pseudonym is of this work and earns this weight. */
  ghost predicate Earned(h: Hash, hashed: set<seq<Fe>>, k: Fe, work: Fe, pseudonym: Fe, weight: nat) {
    exists u: Usage :: u.work == work && Opens(h, hashed, k, u, pseudonym) && Weighs(u, weight)
  }

  /** A pseudonym has at most one opening. */
  lemma {:induction false} OneOpening(h: Hash, hashed: set<seq<Fe>>, k: Fe, u: Usage, v: Usage, pseudonym: Fe)
    requires CollisionFree(h, hashed)
    requires Opens(h, hashed, k, u, pseudonym) && Opens(h, hashed, k, v, pseudonym)
    ensures u == v
  {
    var a, b := [k, h(u.Vector())], [k, h(v.Vector())];
    assert a[1] == b[1];
    assert u.Vector()[0] == v.Vector()[0] && u.Vector()[1] == v.Vector()[1]
        && u.Vector()[2] == v.Vector()[2] && u.Vector()[3] == v.Vector()[3];
  }

  /** The commitment and the pseudonym of every active row were computed. */
  ghost predicate Traced(hashed: set<seq<Fe>>, k: Fe, rows: seq<Row>) {
    forall i :: 0 <= i < |rows| && rows[i].active ==>
      UsageOf(rows[i]).Vector() in hashed && [k, rows[i].commitment] in hashed
  }

  /** An accepted proof: some satisfying assignment exists, and its hashes were computed. */
  ghost predicate Known(h: Hash, hashed: set<seq<Fe>>, digest: Fe) {
    exists a :: Holds(h, digest, a) && Preimage(a.epoch, a.tier, a.k, a.rows) in hashed && Traced(hashed, a.k, a.rows)
  }

  lemma {:induction false} PublicOutputsAt(rows: seq<PublicRow>, i: nat)
    requires i < |rows|
    ensures |PublicOutputs(rows)| == 3 * |rows|
    ensures PublicOutputs(rows)[3 * i] == Reduce(rows[i].pseudonym)
    ensures PublicOutputs(rows)[3 * i + 1] == Reduce(rows[i].work)
    ensures PublicOutputs(rows)[3 * i + 2] == Reduce(rows[i].weight)
  {
    if i < |rows| - 1 {
      PublicOutputsAt(rows[..|rows| - 1], i);
    } else if i > 0 {
      PublicOutputsAt(rows[..|rows| - 1], 0);
    }
  }

  lemma {:induction false} OutputsAgree(a: seq<PublicRow>, rows: seq<Row>, i: nat)
    requires |a| == |rows| && PublicOutputs(a) == Outputs(rows) && i < |a|
    ensures rows[i].pseudonym == Reduce(a[i].pseudonym)
    ensures rows[i].work == Reduce(a[i].work) && rows[i].weight == a[i].weight
  {
    PublicOutputsAt(a, i);
    OutputsAt(rows, i);
  }

  lemma {:induction false} OpeningEarns(h: Hash, hashed: set<seq<Fe>>, k: Fe, row: Row)
    requires Opening(h, k, row)
    requires UsageOf(row).Vector() in hashed && [k, row.commitment] in hashed
    ensures Earned(h, hashed, k, row.work, row.pseudonym, row.weight)
  {
    Widths(row);
    var u := UsageOf(row);
    assert Opens(h, hashed, k, u, row.pseudonym) && Weighs(u, row.weight);
  }

  /** If a submission's rows hash to a digest with an accepted proof, then every
      nonzero weight was earned by the opening behind its own pseudonym, of its own
      work modulo the field order, and no two nonzero works agree modulo it. */
  lemma {:induction false} SubmissionTrusted(
      h: Hash, hashed: set<seq<Fe>>, epoch: u64, tier: Bytes32, k: Bytes32, active: seq<PublicRow>)
    requires |active| <= MAX_WORKS && CollisionFree(h, hashed)
    requires PublicPreimage(epoch, tier, k, Padded(h, k, active)) in hashed
    requires Known(h, hashed, Reduce(NativeDigest(h, epoch, tier, k, Padded(h, k, active))))
    ensures forall i :: 0 <= i < |active| && active[i].weight > 0 ==>
      Earned(h, hashed, Reduce(k), Reduce(active[i].work), Reduce(active[i].pseudonym), active[i].weight)
    ensures forall i, j :: 0 <= i < j < |active| && active[i].weight > 0 && active[j].weight > 0 ==>
      Reduce(active[i].work) != Reduce(active[j].work)
  {
    var rows := Padded(h, k, active);
    var digest := h(PublicPreimage(epoch, tier, k, rows));
    ReduceSmall(digest);
    var a :| Holds(h, digest, a) && Preimage(a.epoch, a.tier, a.k, a.rows) in hashed && Traced(hashed, a.k, a.rows);
    SamePreimage(epoch, tier, k, rows, a);
    forall i | 0 <= i < |active|
      ensures a.rows[i].work == Reduce(active[i].work) && a.rows[i].weight == active[i].weight
      ensures active[i].weight > 0 ==> a.rows[i].active
      ensures active[i].weight > 0 ==>
        Earned(h, hashed, Reduce(k), Reduce(active[i].work), Reduce(active[i].pseudonym), active[i].weight)
    {
      OutputsAgree(rows, a.rows, i);
      assert rows[i] == rows[..|active|][i];
      RowMeaning(h, a.k, a.rows[i], a.advice[i]);
      if active[i].weight > 0 { OpeningEarns(h, hashed, a.k, a.rows[i]); }
    }
    forall i, j | 0 <= i < j < |active| && active[i].weight > 0 && active[j].weight > 0
      ensures Reduce(active[i].work) != Reduce(active[j].work)
    {
      assert !Clash(a.rows[i], a.rows[j]);
    }
  }

  /** The digest sees a work only modulo the field order. */
  lemma {:induction false} OutputsSeeResidues(a: seq<PublicRow>, b: seq<PublicRow>)
    requires |a| == |b|
    requires forall i :: 0 <= i < |a| ==>
      && a[i].pseudonym == b[i].pseudonym && a[i].weight == b[i].weight
      && Reduce(a[i].work) == Reduce(b[i].work)
    ensures PublicOutputs(a) == PublicOutputs(b)
  {
    if |a| > 0 { OutputsSeeResidues(a[..|a| - 1], b[..|a| - 1]); }
  }

  lemma SamePreimage(epoch: u64, tier: Bytes32, k: Bytes32, rows: seq<PublicRow>, a: Assignment)
    requires PublicPreimage(epoch, tier, k, rows) == Preimage(a.epoch, a.tier, a.k, a.rows)
    ensures a.epoch == Reduce(epoch) && a.k == Reduce(k) && PublicOutputs(rows) == Outputs(a.rows)
  {
    var p, q := PublicPreimage(epoch, tier, k, rows), Preimage(a.epoch, a.tier, a.k, a.rows);
    assert p[0] == q[0] && p[2] == q[2];
    assert p[3..] == PublicOutputs(rows) && q[3..] == Outputs(a.rows);
  }

  // ----- the circuit's curvature is settlement's ---------------------------

  /** The weight a circuit proves is the one settlement computes at its default
      curvature from the same usage. */
  lemma {:induction false} CircuitWeighsAsSettlement(x: UsageInput, user: string, work: string)
    ensures CappedWeight(x.minutes, x.plays, x.price, x.region) == Datasets.Weight(Opened(x, user, work), 1_000_000)
  {
    assert K_PPM == 1_000_000;
  }

  /** The rows a bundle publishes: each input's own work, commitment, pseudonym and
      weight in order, and then the zero row with its hashes, up to sixteen. */
  lemma {:induction false} PublishedRows(h: Hash, k: Bytes32, kPpm: nat, xs: seq<UsageInput>, i: nat)
    requires |xs| <= 16 && i < 16
    ensures var rows := Publics(Witness(h, k, kPpm, xs));
            && |rows| == 16
            && if i < |xs| then
                 var x := xs[i];
                 var c := h([Reduce(x.work), Reduce(x.minutes), Reduce(x.plays), Reduce(x.salt)]);
                 rows[i] == PublicRow(x.work, c, h([Reduce(k), c]), WeightOf(x.minutes, x.plays, x.price, x.region, kPpm))
               else
                 rows[i] == PublicRow(0, h([0, 0, 0, 0]), h([Reduce(k), h([0, 0, 0, 0])]), 0)
  {
    assert [Reduce(0), Reduce(0), Reduce(0), Reduce(0)] == [0, 0, 0, 0];
    if i < |xs| {
      var x := xs[i];
      assert Witness(h, k, kPpm, xs)[i] == ActiveRow(h, k, kPpm, x);
    } else {
      assert Witness(h, k, kPpm, xs)[i] == PaddedRow(h, k);
    }
  }
}
