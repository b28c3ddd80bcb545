/** What counted evidence earns a row, bracket by bracket. */
module EvidenceLaws {
  import opened Words
  import opened Arithmetic
  import opened Sums
  import opened Ids
  import opened Receipts
  import opened Allocation
  import opened Credibility

  // ----- totals ------------------------------------------------------------

  /** A pair's accepted total is the sum of its credited blocks, clipped to 128 bits,
      and it has one exactly when some block of it is credited. */
  lemma {:induction false} TotalIsSum(p: Policy, b: seq<Signed>, user: Id, work: Id)
    ensures var ev, t := EvidenceOf(p, b), Totals(EvidenceOf(p, b));
            && (Pair(user, work) in t <==> exists c: nat :: Key(Pair(user, work), c) in ev)
            && (Pair(user, work) in t ==>
                  t[Pair(user, work)] == Min(SumMap(map k | k in ev && k.pair == Pair(user, work) :: ev[k]), U128 - 1))
  {
    var ev, pair := EvidenceOf(p, b), Pair(user, work);
    if pair in Totals(ev) {
      var k :| k in ev && k.pair == pair;
      assert k == Key(pair, k.chunk);
    }
    assert Only(ev, pair) == map k | k in ev && k.pair == pair :: ev[k];
  }

  // ----- all of a consumer's bytes -----------------------------------------

  /** The bytes of every credited block of a consumer, whatever the work. */
  ghost function ConsumerBytes(ev: Evidence, user: Id): nat {
    SumMap(map k | k in ev && k.pair.user == user :: ev[k])
  }

  /** Evidence is filed under normalised consumers. */
  ghost predicate Normalised(ev: Evidence) {
    forall k :: k in ev ==> Lower(k.pair.user) == k.pair.user
  }

  lemma {:induction false} BundleNormalised(p: Policy, b: seq<Signed>)
    ensures Normalised(EvidenceOf(p, b))
  {
    if |b| > 0 {
      BundleNormalised(p, b[..|b| - 1]);
      LowerIdempotent(b[|b| - 1].receipt.consumer);
    }
  }

  /** No pair's total reaches the word size. */
  ghost predicate Unsaturated(ev: Evidence) {
    forall pair :: BytesFor(ev, pair) < U128 - 1
  }

  lemma OneMoreBlock(ev: Evidence, k: Key, v: nat, user: Id)
    requires k !in ev
    ensures ConsumerBytes(ev[k := v], user) == ConsumerBytes(ev, user) + (if k.pair.user == user then v else 0)
  {
    var m: Evidence := map j | j in ev && j.pair.user == user :: ev[j];
    var n: Evidence := map j | j in ev[k := v] && j.pair.user == user :: ev[k := v][j];
    if k.pair.user == user {
      assert n == m[k := v];
      SumMapSet(m, k, v);
    } else {
      assert n == m;
    }
  }

  lemma OneMoreTotal(t: map<Pair, u128>, pair: Pair, v: u128, user: Id)
    ensures UserBytes(t[pair := v], user) + (if Lower(pair.user) == user then Held(t, pair) else 0)
         == UserBytes(t, user) + (if Lower(pair.user) == user then v else 0)
  {
    if Lower(pair.user) == user {
      assert OfUser(t[pair := v], user) == OfUser(t, user)[pair := v];
      SumMapSet(OfUser(t, user), pair, v);
    } else {
      assert OfUser(t[pair := v], user) == OfUser(t, user);
    }
  }

  lemma FewerUnsaturated(ev: Evidence, k: Key)
    requires k in ev && Unsaturated(ev)
    ensures Unsaturated(ev - {k})
    ensures BytesFor(ev - {k}, k.pair) + ev[k] == BytesFor(ev, k.pair)
  {
    var rest := ev - {k};
    assert ev == rest[k := ev[k]];
    forall pair ensures BytesFor(ev, pair) == BytesFor(rest, pair) + (if k.pair == pair then ev[k] else 0) {
      BytesForSet(rest, k, ev[k], pair);
    }
  }

  /** Totals per pair, gathered per consumer, are the consumer's blocks. */
  lemma {:induction false} GatheredBytes(ev: Evidence, user: Id)
    requires Normalised(ev) && Unsaturated(ev)
    ensures UserBytes(Totals(ev), user) == ConsumerBytes(ev, user)
    decreases |ev|
  {
    if ev == map[] {
      assert Totals(ev) == map[];
    } else {
      var k :| k in ev;
      var rest := ev - {k};
      assert ev == rest[k := ev[k]];
      FewerUnsaturated(ev, k);
      GatheredBytes(rest, user);
      TotalsStep(rest, k, ev[k]);
      assert Held(Totals(rest), k.pair) == BytesFor(rest, k.pair) by { HeldIsBytes(rest, k.pair); }
      OneMoreTotal(Totals(rest), k.pair, SaturatingAdd(Held(Totals(rest), k.pair), ev[k]), user);
      OneMoreBlock(rest, k, ev[k], user);
    }
  }

  lemma HeldIsBytes(ev: Evidence, pair: Pair)
    requires Unsaturated(ev)
    ensures Held(Totals(ev), pair) == BytesFor(ev, pair)
  {
    if pair !in Pairs(ev) { assert Only(ev, pair) == map[]; }
  }

  lemma {:induction false} BundleUnsaturated(p: Policy, b: seq<Signed>)
    requires |b| < U64
    ensures Unsaturated(EvidenceOf(p, b))
  {
    forall pair ensures BytesFor(EvidenceOf(p, b), pair) < U128 - 1 {
      BlocksBoundBytes(p, b, pair);
      MulMono(CHUNK_SIZE, CHUNK_SIZE, |Only(EvidenceOf(p, b), pair)|, U64);
    }
  }

  // ----- what the evidence earns -------------------------------------------

  /** `x` is `n / d` in parts per million, floored, and a million at most. */
  ghost predicate Proportion(x: nat, n: nat, d: nat) {
    && x <= 1_000_000 && x * d <= n * 1_000_000
    && (x == 1_000_000 || n * 1_000_000 < (x + 1) * d)
  }

  /** The bytes a weight implies at a rate per 10^12 of weight, at least one. */
  ghost predicate Implies(raw: nat, rate: nat, e: nat) {
    e >= 1 && ((e == 1 && raw * rate < 1_000_000_000_000)
               || e * 1_000_000_000_000 <= raw * rate < (e + 1) * 1_000_000_000_000)
  }

  lemma {:induction false} RatioIsProportion(n: nat, d: nat)
    requires d >= 1
    ensures Proportion(Ratio(n, d), n, d)
  {
    DivBracket(n * PPM, d);
    MulMono(Ratio(n, d), MulDiv(n, PPM, d), d, d);
  }

  lemma {:induction false} ExpectedIsImplied(raw: nat, rate: nat)
    ensures Implies(raw, rate, Expected(raw, rate))
  {
    DivBracket(raw * rate, RATE_SCALE);
  }

  /** The consumer has some credited block. */
  ghost predicate Present(ev: Evidence, user: Id) {
    exists k :: k in ev && k.pair.user == user
  }

  lemma {:induction false} FactorIs(p: Policy, b: seq<Signed>, minBytes: u64, user: Id)
    requires |b| < U64
    ensures FactorOf(Factors(Verified(p, b), minBytes), user)
         == if Present(EvidenceOf(p, b), Lower(user))
            then Factor(ConsumerBytes(EvidenceOf(p, b), Lower(user)), minBytes) else 0
  {
    var ev, u := EvidenceOf(p, b), Lower(user);
    BundleNormalised(p, b);
    BundleUnsaturated(p, b);
    GatheredBytes(ev, u);
    if Present(ev, u) {
      var k :| k in ev && k.pair.user == u;
      assert k.pair in Verified(p, b);
    }
    if u in Claimants(Verified(p, b)) {
      var pair :| pair in Verified(p, b) && Lower(pair.user) == u;
      var k :| k in ev && k.pair == pair;
    }
  }

  lemma {:induction false} IdealMeans(raw: nat, rate: nat, bytes: nat, factor: nat) returns (share: nat, e: nat)
    requires factor <= PPM
    ensures rate == 0 || factor == 0 ==> Ideal(raw, rate, bytes, factor) == 0
    ensures var c := Ideal(raw, rate, bytes, factor);
            rate > 0 ==>
              && (if raw == 0 then share == 1_000_000 else Implies(raw, rate, e) && Proportion(share, bytes, e))
              && c * 1_000_000 <= factor * share < (c + 1) * 1_000_000
  {
    e := Expected(raw, rate);
    share := if raw == 0 then PPM else Ratio(bytes, e);
    RatioIsProportion(bytes, e);
    ExpectedIsImplied(raw, rate);
    DivBracket(factor * share, PPM);
    if raw == 0 { DivExact(factor, PPM); }
  }

  /** A row earns nothing without a rate for its work or any credited block of its
      user. Otherwise its credibility is the product, floored, of two proportions: the
      user's bytes over the evidence floor, and the bytes of this user and this work
      over what the row's weight implies; a weightless row takes the first alone. */
  lemma {:induction false} CredibilityMeans(
      p: Policy, b: seq<Signed>, rates: map<Id, u64>, minBytes: u64, rows: seq<RawRow>, i: nat)
      returns (floor: nat, share: nat, e: nat)
    requires |b| < U64 && i < |rows|
    ensures var c := RowsCredibility(rows, Verified(p, b), rates, Factors(Verified(p, b), minBytes))[i];
            var ev, user, work := EvidenceOf(p, b), Lower(rows[i].user), Lower(rows[i].work);
            if work !in rates || rates[work] == 0 || !Present(ev, user) then c == 0
            else
              && (if minBytes == 0 then floor == 1_000_000 else Proportion(floor, ConsumerBytes(ev, user), minBytes))
              && (if rows[i].raw == 0 then share == 1_000_000
                  else Implies(rows[i].raw, rates[work], e) && Proportion(share, BytesFor(ev, Pair(user, work)), e))
              && c * 1_000_000 <= floor * share < (c + 1) * 1_000_000
  {
    var row, ev := rows[i], EvidenceOf(p, b);
    var user, work := Lower(row.user), Lower(row.work);
    PipelineRefines(p, b, rates, minBytes, rows, i);
    FactorIs(p, b, minBytes, row.user);
    floor := FactorOf(Factors(Verified(p, b), minBytes), row.user);
    share, e := IdealMeans(row.raw, RateOf(rates, row.work), BytesFor(ev, Pair(user, work)), floor);
    if minBytes > 0 { RatioIsProportion(ConsumerBytes(ev, user), minBytes); }
  }

  /** A row whose user's bytes of that very work reach what its weight implies, for a
      user at or over the evidence floor, is fully credible. */
  lemma {:induction false} FullEvidenceFullCredit(
      p: Policy, b: seq<Signed>, rates: map<Id, u64>, minBytes: u64, rows: seq<RawRow>, i: nat, e: nat)
    requires |b| < U64 && i < |rows|
    requires var ev, user, work := EvidenceOf(p, b), Lower(rows[i].user), Lower(rows[i].work);
             && work in rates && rates[work] > 0 && Implies(rows[i].raw, rates[work], e)
             && SumMap(map k | k in ev && k.pair == Pair(user, work) :: ev[k]) >= e
             && ConsumerBytes(ev, user) >= minBytes
    ensures RowsCredibility(rows, Verified(p, b), rates, Factors(Verified(p, b), minBytes))[i] == 1_000_000
  {
    var ev, user, work := EvidenceOf(p, b), Lower(rows[i].user), Lower(rows[i].work);
    var pair := Pair(user, work);
    assert Only(ev, pair) == map k | k in ev && k.pair == pair :: ev[k];
    BytesPresent(ev, pair);
    var floor, share, d := CredibilityMeans(p, b, rates, minBytes, rows, i);
    assert floor == 1_000_000 by {
      if minBytes > 0 { FullProportion(floor, ConsumerBytes(ev, user), minBytes); }
    }
    assert share == 1_000_000 by {
      if rows[i].raw > 0 {
        SameImplied(rows[i].raw, rates[work], d, e);
        FullProportion(share, BytesFor(ev, pair), e);
      }
    }
  }

  lemma {:induction false} BytesPresent(ev: Evidence, pair: Pair)
    requires BytesFor(ev, pair) > 0
    ensures Present(ev, pair.user)
  {
    assert Only(ev, pair) != map[];
    var k :| k in Only(ev, pair);
    assert k in ev && k.pair.user == pair.user;
  }

  lemma FullProportion(x: nat, n: nat, d: nat)
    requires Proportion(x, n, d) && n >= d > 0
    ensures x == 1_000_000
  {
    if x < 1_000_000 { MulMono(x + 1, 1_000_000, d, n); }
  }

  lemma SameImplied(raw: nat, rate: nat, d: nat, e: nat)
    requires Implies(raw, rate, d) && Implies(raw, rate, e)
    ensures d == e
  {
  }
}
