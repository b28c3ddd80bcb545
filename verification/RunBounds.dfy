/** When an event-mode run can overflow: bounds on submissions and fees that exclude
    it, and one opening in range that causes it. */
module RunBounds {
  import opened Words
  import opened Arithmetic
  import opened Sums
  import opened Ids
  import opened Field
  import opened UsageCircuit
  import opened Prover
  import opened Allocation
  import opened AllocationLaws
  import opened EventMode
  import opened Settlement
  import opened SettlementRun
  import C = Consumption
  import D = DiminishingReturns
  import Datasets
  import Receipts

  /** Submissions an epoch may hold, and units a fee may have, with no overflow. */
  const MAX_SUBMISSIONS: nat := 4096
  const MAX_FEE: nat := 65_536

  // ----- every paid weight is below 2^112 ----------------------------------

  lemma {:induction false} TopWeight()
    ensures CappedWeight(MINUTES_CAP - 1, 1, FACTOR_CAP - 1, FACTOR_CAP - 1)
         == D.Value(MINUTES_CAP - 1, FACTOR_CAP - 1, FACTOR_CAP - 1) < VALUE_CAP
    ensures (MAX_FEE + 1) * D.Value(MINUTES_CAP - 1, FACTOR_CAP - 1, FACTOR_CAP - 1) >= U128
  {
    D.CurveBounds(1, K_PPM);
    DivExact(D.Value(MINUTES_CAP - 1, FACTOR_CAP - 1, FACTOR_CAP - 1), PPM);
  }

  lemma {:induction false} EarnedBelowCap(u: Usage, weight: nat)
    requires Weighs(u, weight)
    ensures weight < VALUE_CAP
  {
    var top := FACTOR_CAP - 1;
    WeighsAtMost(u, weight);
    CappedWeightIs(u.minutes, u.plays, top, top);
    ProductMono(u.minutes, top, MINUTES_CAP - 1, top);
    ProductMono(Product(u.minutes, top), top, Product(MINUTES_CAP - 1, top), top);
    TopWeight();
  }

  lemma {:induction false} PaidBelowCap(v: C.Verifier, calls: seq<C.Call>, rd: Reads, hashed: set<seq<Fe>>, i: nat)
    requires SoundProofs(v, calls, rd, hashed, Submissions(v, calls, rd))
    requires Ingest(rd, Submissions(v, calls, rd)).Done?
    requires i < |Ingest(rd, Submissions(v, calls, rd)).value.rows|
    ensures Ingest(rd, Submissions(v, calls, rd)).value.rows[i].raw < VALUE_CAP
  {
    var log := Submissions(v, calls, rd);
    var row := Ingest(rd, log).value.rows[i];
    PaidWeightsAreEarned(v, calls, rd, hashed);
    if row.raw > 0 {
      var j, k :| BackedBy(rd, hashed, log, j, k, row);
      var u :| Opens(rd.h, hashed, Reduce(rd.k), u, Reduce(log[j].pseudonyms[k])) && Weighs(u, row.raw);
      EarnedBelowCap(u, row.raw);
    }
  }

  // ----- a run within the bounds -------------------------------------------

  /** Sixteen rows and one fee a submission. */
  lemma {:induction false} IntakeSize(rd: Reads, log: seq<C.Event>)
    requires Ingest(rd, log).Done?
    ensures |Ingest(rd, log).value.rows| <= MAX_WORKS * |log|
    ensures |Ingest(rd, log).value.fees| <= |log|
  {
    if |log| > 0 {
      var init, ev := log[..|log| - 1], log[|log| - 1];
      IntakeSize(rd, init);
      if Passes(rd, ev) {
        var fees := Ingest(rd, init).value.fees;
        assert fees[ev.user := FeeIn(rd, ev.tier).value].Keys == fees.Keys + {ev.user};
      }
    }
  }

  lemma {:induction false} UserRowsFrom(rows: seq<RawRow>, ppm: seq<nat>, u: Id)
    requires |rows| == |ppm|
    ensures forall j :: 0 <= j < |UserRows(rows, ppm, u)| ==> UserRows(rows, ppm, u)[j].row in rows
  {
    if |rows| > 0 {
      var n := |rows| - 1;
      UserRowsFrom(rows[..n], ppm[..n], u);
      assert rows == rows[..n] + [rows[n]];
    }
  }

  /** Modest fees on weights below 2^112 stay in range, for up to 2^16 rows. */
  lemma {:induction false} ModestEpochInRange(e: Epoch)
    requires e.Paired() && |e.rows| <= MAX_WORKS * MAX_SUBMISSIONS && |e.fees| <= MAX_SUBMISSIONS
    requires forall i :: 0 <= i < |e.rows| ==> e.rows[i].raw < VALUE_CAP
    requires forall u :: u in e.fees ==> e.fees[u] <= MAX_FEE
    ensures e.InRange()
  {
    SumUpper(RawsOf(e.rows), VALUE_CAP - 1);
    MulMono(VALUE_CAP - 1, VALUE_CAP - 1, |e.rows|, MAX_WORKS * MAX_SUBMISSIONS);
    Receipts.SumMapBound(e.fees, MAX_FEE);
    MulMono(MAX_FEE, MAX_FEE, |e.fees|, MAX_SUBMISSIONS);
    forall u | u in e.fees ensures ModestProducts(e.fees[u], e.RowsOf(u)) {
      UserRowsFrom(e.rows, e.ppm, u);
      ModestRows(e.fees[u], e.RowsOf(u), e.rows);
    }
    Totality(e);
  }

  lemma ModestRows(fee: nat, gs: seq<Graded>, rows: seq<RawRow>)
    requires fee <= MAX_FEE
    requires forall j :: 0 <= j < |gs| ==> gs[j].row in rows
    requires forall i :: 0 <= i < |rows| ==> rows[i].raw < VALUE_CAP
    ensures ModestProducts(fee, gs)
  {
    forall j | 0 <= j < |gs| ensures fee * gs[j].row.raw < U128 {
      MulMono(fee, MAX_FEE, gs[j].row.raw, VALUE_CAP - 1);
    }
  }

  /** With at most 4096 submissions and no fee above 65536 units, a run whose intake
      completes never overflows, with or without receipts; so it succeeds exactly
      when something is credited. */
  lemma {:induction false} RunNeverOverflows(
      hs: Hashes, v: C.Verifier, calls: seq<C.Call>, rd: Reads, hashed: set<seq<Fe>>, bw: Option<Bandwidth>)
    requires SoundProofs(v, calls, rd, hashed, Submissions(v, calls, rd))
    requires Ingest(rd, Submissions(v, calls, rd)).Done? && |Submissions(v, calls, rd)| <= MAX_SUBMISSIONS
    requires var s := Ingest(rd, Submissions(v, calls, rd)).value;
             forall u :: u in s.fees ==> s.fees[u] <= MAX_FEE
    ensures var e := SettledEpoch(bw, rd.epoch, Ingest(rd, Submissions(v, calls, rd)).value);
            e.InRange() && (Settles(e) <==> e.Settled().perWork != map[])
  {
    var log := Submissions(v, calls, rd);
    var s := Ingest(rd, log).value;
    IntakeSize(rd, log);
    MulMono(MAX_WORKS, MAX_WORKS, |log|, MAX_SUBMISSIONS);
    forall i | 0 <= i < |s.rows| ensures s.rows[i].raw < VALUE_CAP {
      PaidBelowCap(v, calls, rd, hashed, i);
    }
    ModestEpochInRange(SettledEpoch(bw, rd.epoch, s));
    RunPublishesOnce(hs, rd, log, bw);
  }

  // ----- one opening past the bounds ---------------------------------------

  /** Rows at neutral credibility. */
  function Neutral(rows: seq<RawRow>): (gs: seq<Graded>)
    ensures |gs| == |rows|
  {
    seq(|rows|, i requires 0 <= i < |rows| => Graded(rows[i], PPM))
  }

  lemma {:induction false} NeutralRows(rows: seq<RawRow>, u: Id)
    ensures UserRows(rows, Datasets.PerRow(rows, map[]), u) == Neutral(RowsBy(rows, u))
  {
    if |rows| > 0 {
      var n := |rows| - 1;
      NeutralRows(rows[..n], u);
      assert Datasets.PerRow(rows, map[])[..n] == Datasets.PerRow(rows[..n], map[]);
      assert Neutral(RowsBy(rows[..n], u) + [rows[n]]) == Neutral(RowsBy(rows[..n], u)) + [Graded(rows[n], PPM)];
    }
  }

  /** A user with one neutral row fits exactly when the fee times the weight does. */
  lemma {:induction false} LoneRowFits(fee: nat, row: RawRow)
    requires row.raw > 0
    ensures UserFits(fee, [Graded(row, PPM)]) <==> fee * row.raw < U128
  {
    var gs := [Graded(row, PPM)];
    LoneRowTotals(row);
    DivExact(fee, row.raw);
    assert Creds(gs)[0] == row.raw && |Creds(gs)| == 1;
  }

  lemma LoneRowTotals(row: RawRow)
    ensures RawTotal([Graded(row, PPM)]) == row.raw
    ensures Creds([Graded(row, PPM)]) == [row.raw] && CredTotal([Graded(row, PPM)]) == row.raw
  {
    var gs := [Graded(row, PPM)];
    DivExact(row.raw, PPM);
    assert Raws(gs) == [] + [row.raw] && Creds(gs) == [] + [row.raw];
    SumSnoc([], row.raw);
  }

  /** A run without receipts fails as soon as it accepts one single-work submission
      whose fee times its weight leaves 128 bits. */
  lemma {:induction false} LoneSubmissionOverflows(rd: Reads, log: seq<C.Event>, ev: C.Event)
    requires C.UsersDistinct(log) && Ingest(rd, log).Done? && ev in log && Passes(rd, ev)
    requires |ev.works| == 1 && ev.weights[0] > 0
    requires rd.feeOf(ev.tier).Some? ==> rd.feeOf(ev.tier).value * ev.weights[0] >= U128
    ensures !SettledEpoch(None, rd.epoch, Ingest(rd, log).value).InRange()
  {
    var s := Ingest(rd, log).value;
    var e := SettledEpoch(None, rd.epoch, s);
    IntakeExact(rd, log, ev.user);
    NeutralRows(s.rows, ev.user);
    assert PaidRows(ev) == [PaidRows(ev)[0]];
    assert e.RowsOf(ev.user) == [Graded(PaidRows(ev)[0], PPM)];
    LoneRowFits(e.Fee(ev.user), PaidRows(ev)[0]);
    assert ev.user in e.Payers();
  }

  /** The bound on fees is sharp: an opening in range at the top factors, with one
      unit of fee more, ends every receiptless run that accepts it. */
  lemma {:induction false} TopOpeningOverflows(rd: Reads, log: seq<C.Event>, ev: C.Event, u: Usage)
    requires C.UsersDistinct(log) && Ingest(rd, log).Done? && ev in log && Passes(rd, ev)
    requires u.work != 0 && u.minutes == MINUTES_CAP - 1 && u.plays == 1
    requires |ev.works| == 1 && rd.feeOf(ev.tier).Some? && rd.feeOf(ev.tier).value > MAX_FEE
    requires ev.weights[0] == CappedWeight(u.minutes, u.plays, FACTOR_CAP - 1, FACTOR_CAP - 1)
    ensures Weighs(u, ev.weights[0])
    ensures !SettledEpoch(None, rd.epoch, Ingest(rd, log).value).InRange()
  {
    TopWeight();
    MulMono(MAX_FEE + 1, rd.feeOf(ev.tier).value, ev.weights[0], ev.weights[0]);
    LoneSubmissionOverflows(rd, log, ev);
  }
}
