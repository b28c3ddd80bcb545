/** One event-mode settlement run: intake, receipt credibility, allocation, routing. */
module SettlementRun {
  import opened Words
  import opened Arithmetic
  import opened Sums
  import opened Ids
  import opened Allocation
  import opened Receipts
  import opened Credibility
  import opened EvidenceLaws
  import opened EventMode
  import opened Settlement
  import opened Merkle
  import opened HexText
  import opened AllocationLaws
  import C = Consumption
  import Datasets
  import A = Apportionment

  /** What the run reads beside the log: credential and rate lookups, the evidence
      floor, and the receipt bundle if one is configured. */
  datatype Bandwidth = Bandwidth(
    bundle: seq<Signed>, recover: (Receipt, string) -> Option<Id>, isValid: Id -> bool,
    rate: Id -> u256, minBytes: u64)

  datatype RunError = IntakeFailed(error: IntakeError) | SettleFailed(cause: SettleError)

  // ----- cached chain lookups ----------------------------------------------

  /** Each node's credential, resolved once. */
  method ResolveCredentials(b: seq<Signed>, isValid: Id -> bool) returns (valid: map<Id, bool>)
    ensures forall i :: 0 <= i < |b| ==> Lower(b[i].receipt.node) in valid
    ensures forall n :: n in valid ==> valid[n] == isValid(n)
  {
    valid := map[];
    for i := 0 to |b|
      invariant forall j :: 0 <= j < i ==> Lower(b[j].receipt.node) in valid
      invariant forall n :: n in valid ==> valid[n] == isValid(n)
    {
      var node := Lower(b[i].receipt.node);
      if node in valid { continue; }
      valid := valid[node := isValid(node)];
    }
  }

  /** A rate too wide for 64 bits reads as zero. */
  function Clipped(rate: u256): u64 { if rate < U64 then rate else 0 }

  function Rates(rows: seq<RawRow>, rate: Id -> u256): map<Id, u64> {
    map w | w in (set i | 0 <= i < |rows| :: Lower(rows[i].work)) :: Clipped(rate(w))
  }

  method ResolveRates(rows: seq<RawRow>, rate: Id -> u256) returns (rates: map<Id, u64>)
    ensures rates == Rates(rows, rate)
  {
    rates := map[];
    for i := 0 to |rows|
      invariant forall w :: w in rates <==> exists j :: 0 <= j < i && Lower(rows[j].work) == w
      invariant forall w :: w in rates ==> rates[w] == Clipped(rate(w))
    {
      var work := Lower(rows[i].work);
      if work in rates { continue; }
      rates := rates[work := Clipped(rate(work))];
    }
  }

  /** Evidence depends on credentials only at the nodes the bundle names. */
  lemma {:induction false} CachedCredentialsSuffice(p: Policy, q: Policy, b: seq<Signed>)
    requires p.recover == q.recover && p.epoch == q.epoch
    requires forall i :: 0 <= i < |b| ==> p.credentialed(Lower(b[i].receipt.node)) == q.credentialed(Lower(b[i].receipt.node))
    ensures EvidenceOf(p, b) == EvidenceOf(q, b)
  {
    if |b| > 0 { CachedCredentialsSuffice(p, q, b[..|b| - 1]); }
  }

  // ----- credibility of the accepted rows ----------------------------------

  function PolicyOf(bw: Bandwidth, epoch: u64): Policy { Policy(bw.recover, epoch, bw.isValid) }

  ghost function RowPpm(bw: Bandwidth, epoch: u64, rows: seq<RawRow>): (ppm: seq<nat>)
    ensures |ppm| == |rows|
  {
    var verified := Verified(PolicyOf(bw, epoch), bw.bundle);
    RowsCredibility(rows, verified, Rates(rows, bw.rate), Factors(verified, bw.minBytes))
  }

  method ComputePpm(bw: Bandwidth, epoch: u64, rows: seq<RawRow>) returns (ppm: seq<nat>)
    ensures ppm == RowPpm(bw, epoch, rows)
  {
    var valid := ResolveCredentials(bw.bundle, bw.isValid);
    var policy := Policy(bw.recover, epoch, n => n in valid && valid[n]);
    var verified := AcceptReceipts(policy, bw.bundle);
    CachedCredentialsSuffice(policy, PolicyOf(bw, epoch), bw.bundle);
    var rates := ResolveRates(rows, bw.rate);
    var factors := EpochFactor(verified, bw.minBytes);
    ppm := RowsCredibility(rows, verified, rates, factors);
  }

  /** The epoch a run settles: receipts decide credibility, or all rows are neutral. */
  ghost function SettledEpoch(bw: Option<Bandwidth>, epoch: u64, s: Intake): (e: Epoch)
    ensures e.Paired()
  {
    Epoch(s.fees, s.rows,
          if bw.Some? then RowPpm(bw.value, epoch, s.rows) else Datasets.PerRow(s.rows, map[]))
  }

  /** `run_events`, after its chain reads; escrow is empty in this mode. */
  method RunEvents(hs: Hashes, rd: Reads, log: seq<C.Event>, bw: Option<Bandwidth>)
    returns (r: Fallible<Settlement, RunError>)
    ensures Ingest(rd, log).Failed? ==> r == Failed(IntakeFailed(Ingest(rd, log).error))
    ensures Ingest(rd, log).Done? ==>
      var e := SettledEpoch(bw, rd.epoch, Ingest(rd, log).value);
      && (r.Failed? ==> r.error.SettleFailed?)
      && SettledAs(hs, rd.epoch, e, {}, if r.Done? then Done(r.value) else Failed(r.error.cause))
      && (r.Done? <==> Settles(e))
  {
    var intake := AcceptSubmissions(rd, log);
    if intake.Failed? {
      return Failed(IntakeFailed(intake.error));
    }
    var s := intake.value;
    var res: Fallible<Settlement, SettleError>;
    if bw.Some? {
      var ppm := ComputePpm(bw.value, rd.epoch, s.rows);
      res := SettleRawWithRowCredibility(hs, rd.epoch, Epoch(s.fees, s.rows, ppm), {});
    } else {
      res := SettleRaw(hs, rd.epoch, s.fees, s.rows, map[], {});
    }
    return if res.Done? then Done(res.value) else Failed(SettleFailed(res.error));
  }

  // ----- what a run guarantees ---------------------------------------------

  /** Every successful run pays out exactly the accepted fees: its direct entries
      and the unallocated remainder sum to them, nothing goes to escrow, and every
      entry's proof verifies against the root. */
  lemma {:induction false} RunConserves(hs: Hashes, epoch: u64, bw: Option<Bandwidth>, s: Intake)
    ensures var out := Finalized(hs, epoch, SettledEpoch(bw, epoch, s).Settled(), {});
            && Sum(DirectAmounts(out)) + out.unallocated == SumMap(s.fees)
            && out.escrow == [] && out.escrowTotal == 0
            && forall i :: 0 <= i < |out.entries| ==>
                 Fold(hs.pair, hs.leaf(out.entries[i].work, out.entries[i].amount), out.entries[i].proof) == out.root
  {
    var p := SettledEpoch(bw, epoch, s).Settled();
    SettlementConserves(hs, epoch, SettledEpoch(bw, epoch, s), {});
    NoEscrow(hs, epoch, p);
    forall i | 0 <= i < |Finalized(hs, epoch, p, {}).entries|
      ensures var out := Finalized(hs, epoch, p, {});
              Fold(hs.pair, hs.leaf(out.entries[i].work, out.entries[i].amount), out.entries[i].proof) == out.root
    {
      EntriesVerify(hs, epoch, p, {}, i);
    }
  }

  lemma NoEscrow(hs: Hashes, epoch: nat, p: Payouts)
    ensures var out := Finalized(hs, epoch, p, {});
            out.escrow == [] && out.escrowTotal == 0 && Sum(EscrowAmounts(out)) == 0
  {
    NothingHeld(Keys(p));
    NothingOfNothing(p.perWork);
    assert HeldKeys(p, {}) == [];
    BucketAmounts(hs, epoch, p, {});
  }

  /** The text of some 32-byte value. */
  ghost predicate Formatted(w: Id) {
    exists b: u256 :: w == Format(b)
  }

  lemma {:induction false} IntakeFormatted(rd: Reads, log: seq<C.Event>)
    requires Ingest(rd, log).Done?
    ensures forall i :: 0 <= i < |Ingest(rd, log).value.rows| ==> Formatted(Ingest(rd, log).value.rows[i].work)
  {
    if |log| > 0 {
      var ev := log[|log| - 1];
      IntakeFormatted(rd, log[..|log| - 1]);
      if Passes(rd, ev) {
        assert forall i :: 0 <= i < |PaidRows(ev)| ==> PaidRows(ev)[i].work == Format(ev.works[i]);
      }
    }
  }

  lemma {:induction false} FormattedSpelling(keys: set<Id>)
    requires forall k :: k in keys ==> Formatted(k)
    ensures OneSpelling(keys) && forall k :: k in keys ==> Parse(k).Some?
  {
    forall k | k in keys ensures Parse(k).Some? && k == Format(Parse(k).value) {
      var b: u256 :| k == Format(b);
      FormatParses(b);
    }
  }

  /** A run never meets an unparsable work, so it fails only on overflow or for want
      of credits; and it publishes each work exactly once, since all its keys are
      formatted alike. */
  lemma {:induction false} RunPublishesOnce(hs: Hashes, rd: Reads, log: seq<C.Event>, bw: Option<Bandwidth>)
    requires Ingest(rd, log).Done?
    ensures var e := SettledEpoch(bw, rd.epoch, Ingest(rd, log).value);
            && (Settles(e) <==> e.InRange() && e.Settled().perWork != map[])
            && NoRepeats(Published(Finalized(hs, rd.epoch, e.Settled(), {})))
  {
    var e := SettledEpoch(bw, rd.epoch, Ingest(rd, log).value);
    IntakeFormatted(rd, log);
    forall k | k in e.Settled().perWork ensures Formatted(k) {
      CreditedNamed(e, k);
    }
    FormattedSpelling(e.Settled().perWork.Keys);
    PublishedOnceIff(hs, rd.epoch, e.Settled(), {});
  }

  /** In a run with receipts, the weight any row is paid on is capped by the blocks
      its consumer verifiably received of that work. */
  lemma {:induction false} RunWeightsEvidenced(bw: Bandwidth, epoch: u64, rows: seq<RawRow>, i: nat)
    requires i < |rows| && |bw.bundle| < U64 && RateOf(Rates(rows, bw.rate), rows[i].work) > 0
    ensures var ev := EvidenceOf(PolicyOf(bw, epoch), bw.bundle);
            CredOf(Graded(rows[i], RowPpm(bw, epoch, rows)[i])) * RateOf(Rates(rows, bw.rate), rows[i].work)
            <= 2 * (CHUNK_SIZE * |Only(ev, Pair(Lower(rows[i].user), Lower(rows[i].work)))|) * RATE_SCALE
  {
    BlocksBoundWeight(PolicyOf(bw, epoch), bw.bundle, Rates(rows, bw.rate), bw.minBytes, rows, i);
  }

  // ----- no evidence, no money ---------------------------------------------

  /** Where one of a user's rows came from. */
  lemma {:induction false} RowOrigin(rows: seq<RawRow>, ppm: seq<nat>, u: Id, j: nat) returns (i: nat)
    requires |rows| == |ppm| && j < |UserRows(rows, ppm, u)|
    ensures i < |rows| && UserRows(rows, ppm, u)[j] == Graded(rows[i], Min(ppm[i], PPM))
  {
    var n := |rows| - 1;
    if j < |UserRows(rows[..n], ppm[..n], u)| {
      i := RowOrigin(rows[..n], ppm[..n], u, j);
    } else {
      i := n;
    }
  }

  /** The blocks a row's consumer verifiably received of its work. */
  ghost function BlocksFor(bw: Bandwidth, epoch: u64, row: RawRow): Evidence {
    Only(EvidenceOf(PolicyOf(bw, epoch), bw.bundle), Pair(Lower(row.user), Lower(row.work)))
  }

  /** The weight a user's row is paid on: nothing at a zero rate, and otherwise
      capped by its blocks. */
  lemma {:induction false} CreditedWeight(bw: Bandwidth, epoch: u64, s: Intake, u: Id, j: nat)
    requires |bw.bundle| < U64 && j < |SettledEpoch(Some(bw), epoch, s).RowsOf(u)|
    ensures var g := SettledEpoch(Some(bw), epoch, s).RowsOf(u)[j];
            var rate := RateOf(Rates(s.rows, bw.rate), g.row.work);
            && (rate == 0 ==> CredOf(g) == 0)
            && CredOf(g) * rate <= 2 * (CHUNK_SIZE * |BlocksFor(bw, epoch, g.row)|) * RATE_SCALE
  {
    var ppm := RowPpm(bw, epoch, s.rows);
    var i := RowOrigin(s.rows, ppm, u, j);
    PipelineRefines(PolicyOf(bw, epoch), bw.bundle, Rates(s.rows, bw.rate), bw.minBytes, s.rows, i);
    if RateOf(Rates(s.rows, bw.rate), s.rows[i].work) > 0 { RunWeightsEvidenced(bw, epoch, s.rows, i); }
  }

  /** In a run with receipts, a row whose work has no rate, or of which its consumer
      has no accepted block, is credited nothing whatever weight it proved. */
  lemma {:induction false} UnevidencedRowEarnsNothing(bw: Bandwidth, epoch: u64, s: Intake, u: Id, j: nat)
    requires |bw.bundle| < U64
    requires var gs := SettledEpoch(Some(bw), epoch, s).RowsOf(u);
             && Live(gs) && j < |gs|
             && (RateOf(Rates(s.rows, bw.rate), gs[j].row.work) == 0 || BlocksFor(bw, epoch, gs[j].row) == map[])
    ensures var e := SettledEpoch(Some(bw), epoch, s);
            Credits(e.Fee(u), e.RowsOf(u))[j] == 0
  {
    var e := SettledEpoch(Some(bw), epoch, s);
    var gs := e.RowsOf(u);
    var rate := RateOf(Rates(s.rows, bw.rate), gs[j].row.work);
    CreditedWeight(bw, epoch, s, u, j);
    if rate > 0 { ZeroFactor(CredOf(gs[j]), rate); }
    assert Creds(gs)[j] == 0;
    A.SharesQuota(Target(e.Fee(u), gs), Creds(gs), CredTotal(gs), j);
  }

  lemma ZeroFactor(c: nat, rate: nat)
    requires rate > 0 && c * rate <= 0
    ensures c == 0
  {
    if c > 0 { MulMono(1, c, rate, rate); }
  }

  /** From bytes to money: a row's credit, times the user's raw total and the rate,
      is below the fee times twice its verified blocks at the rate's scale, plus one
      unit of rounding. */
  lemma {:induction false} CreditWithinBlocks(bw: Bandwidth, epoch: u64, s: Intake, u: Id, j: nat)
    requires |bw.bundle| < U64
    requires var gs := SettledEpoch(Some(bw), epoch, s).RowsOf(u);
             Live(gs) && j < |gs| && RateOf(Rates(s.rows, bw.rate), gs[j].row.work) > 0
    ensures var e := SettledEpoch(Some(bw), epoch, s);
            var gs := e.RowsOf(u);
            var rate := RateOf(Rates(s.rows, bw.rate), gs[j].row.work);
            Credits(e.Fee(u), gs)[j] * RawTotal(gs) * rate
            < e.Fee(u) * (2 * (CHUNK_SIZE * |BlocksFor(bw, epoch, gs[j].row)|) * RATE_SCALE) + RawTotal(gs) * rate
  {
    var e := SettledEpoch(Some(bw), epoch, s);
    var gs := e.RowsOf(u);
    CreditedWeight(bw, epoch, s, u, j);
    RowCreditBounds(e.Fee(u), gs, j);
    ScaleCredit(
      Credits(e.Fee(u), gs)[j], RawTotal(gs), e.Fee(u), CredOf(gs[j]), RateOf(Rates(s.rows, bw.rate), gs[j].row.work),
      2 * (CHUNK_SIZE * |BlocksFor(bw, epoch, gs[j].row)|) * RATE_SCALE);
  }

  lemma ScaleCredit(x: nat, total: nat, fee: nat, cred: nat, rate: nat, bound: nat)
    requires rate > 0 && x * total < fee * cred + total && cred * rate <= bound
    ensures x * total * rate < fee * bound + total * rate
  {
    StrictMul(x * total, fee * cred + total, rate);
    Distribute(fee * cred, total, rate);
    MulMono(fee, fee, cred * rate, bound);
    assert (fee * cred) * rate == fee * (cred * rate);
  }

  // ----- a run's credibilities outright ------------------------------------

  /** The rate of a row's work as the run reads it. */
  function ChainRate(bw: Bandwidth, work: Id): nat {
    if bw.rate(Lower(work)) < 0x1_0000_0000_0000_0000 then bw.rate(Lower(work)) else 0
  }

  lemma ChainRateIs(bw: Bandwidth, rows: seq<RawRow>, i: nat)
    requires i < |rows|
    ensures Lower(rows[i].work) in Rates(rows, bw.rate)
    ensures Rates(rows, bw.rate)[Lower(rows[i].work)] == ChainRate(bw, rows[i].work)
  {
  }

  /** In a run with receipts, a row earns nothing without a rate or any credited block
      of its user, and otherwise the product of two proportions: the user's credited
      bytes over the evidence floor, and those of this work over what the row's weight
      implies at the chain's rate. Without receipts every row is neutral. */
  lemma {:induction false} RunCredibilityMeans(bw: Bandwidth, epoch: u64, s: Intake, i: nat)
      returns (floor: nat, share: nat, e: nat)
    requires |bw.bundle| < U64 && i < |s.rows|
    ensures SettledEpoch(None, epoch, s).ppm[i] == 1_000_000
    ensures var c, row := SettledEpoch(Some(bw), epoch, s).ppm[i], s.rows[i];
            var ev := EvidenceOf(Policy(bw.recover, epoch, bw.isValid), bw.bundle);
            if ChainRate(bw, row.work) == 0 || !Present(ev, Lower(row.user)) then c == 0
            else
              && (if bw.minBytes == 0 then floor == 1_000_000
                  else Proportion(floor, ConsumerBytes(ev, Lower(row.user)), bw.minBytes))
              && (if row.raw == 0 then share == 1_000_000
                  else Implies(row.raw, ChainRate(bw, row.work), e)
                       && Proportion(share, BytesFor(ev, Pair(Lower(row.user), Lower(row.work))), e))
              && c * 1_000_000 <= floor * share < (c + 1) * 1_000_000
  {
    ChainRateIs(bw, s.rows, i);
    floor, share, e :=
      CredibilityMeans(PolicyOf(bw, epoch), bw.bundle, Rates(s.rows, bw.rate), bw.minBytes, s.rows, i);
  }
}
