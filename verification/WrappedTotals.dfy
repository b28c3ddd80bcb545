/** A settlement that succeeds with committed totals that do not account for its
    fees: the additions wrap. */
module WrappedTotals {
  import opened Words
  import opened Sums
  import opened Ids
  import opened Ledgers
  import opened HexText
  import opened Allocation
  import opened AllocationLaws
  import opened Burning
  import opened Datasets
  import opened Settlement

  const HALF: u128 := U128 / 2

  /** Two users pay half the word each, on separate works `v` and `w`. */
  function Halves(v: Id, w: Id): Epoch {
    Epoch(map["a" := HALF, "b" := HALF], [RawRow("a", v, 1), RawRow("b", w, 1)], [PPM, PPM])
  }

  function WorkBy(v: Id, w: Id, u: Id): Id { if u == "a" then v else w }

  lemma {:induction false} RowsOfEach(v: Id, w: Id, u: Id)
    requires u == "a" || u == "b"
    ensures Halves(v, w).RowsOf(u) == [Graded(RawRow(u, WorkBy(v, w, u), 1), PPM)]
  {
    var e := Halves(v, w);
    assert "a"[0] == 'a' && "b"[0] == 'b';
    assert e.rows[..1][..0] == [] && e.ppm[..1][..0] == [];
    assert UserRows(e.rows[..1][..0], e.ppm[..1][..0], u) == [];
    assert UserRows(e.rows[..1], e.ppm[..1], u) == if u == "a" then [Graded(e.rows[0], PPM)] else [];
  }

  lemma UnitRow(fee: nat, row: RawRow)
    requires fee < U128 && row.raw == 1
    ensures RawTotal([Graded(row, PPM)]) == 1 && UserFits(fee, [Graded(row, PPM)])
  {
    var gs := [Graded(row, PPM)];
    assert Raws(gs) == [] + [1];
    SumSnoc([], 1);
    assert fee * gs[0].row.raw == fee;
    ModestUserFits(fee, gs);
  }

  lemma UnitRowCredit(fee: nat, row: RawRow, x: Id)
    requires fee < U128 && row.raw == 1
    ensures AmountFor(CreditEntries(fee, [Graded(row, PPM)]), x) == if x == row.work then fee else 0
  {
    var gs := [Graded(row, PPM)];
    UnitRow(fee, row);
    WholeFeeToOneWork(fee, gs, row.work);
    if x != row.work { AmountForAbsent(CreditEntries(fee, gs), x); }
  }

  lemma {:induction false} EachFits(v: Id, w: Id, u: Id, x: Id)
    requires u == "a" || u == "b"
    ensures UserFits(HALF, Halves(v, w).RowsOf(u))
    ensures AmountFor(Halves(v, w).UserCredits(u), x) == if x == WorkBy(v, w, u) then HALF else 0
  {
    RowsOfEach(v, w, u);
    UnitRow(HALF, RawRow(u, WorkBy(v, w, u), 1));
    UnitRowCredit(HALF, RawRow(u, WorkBy(v, w, u), 1), x);
  }

  ghost function CreditFor(v: Id, w: Id, x: Id): Id -> nat {
    (u: Id) => AmountFor(Halves(v, w).UserCredits(u), x)
  }

  lemma TwoPayers(v: Id, w: Id) returns (t: Id, u: Id)
    ensures Halves(v, w).Payers() == [t, u] && {t, u} == {"a", "b"} && t != u
  {
    var users := Halves(v, w).Payers();
    assert "a"[0] != "b"[0];
    assert Halves(v, w).fees.Keys == {"a", "b"};
    assert |users| == 2;
    t, u := users[0], users[1];
    assert t in users && u in users;
  }

  lemma {:induction false} CreditOfTwo(v: Id, w: Id, x: Id, t: Id, u: Id)
    ensures Get(Halves(v, w).PerWork([t, u]), x)
         == AmountFor(Halves(v, w).UserCredits(t), x) + AmountFor(Halves(v, w).UserCredits(u), x)
  {
    PostGet(map[], Halves(v, w).AllCredits([t, u]), x);
    FlatAmount(Halves(v, w).CreditFn(), CreditFor(v, w, x), [t, u], x);
    SumOfTwo(CreditFor(v, w, x), t, u);
  }

  lemma SumOfTwo(f: Id -> nat, t: Id, u: Id)
    ensures SumOf(f, [t, u]) == f(t) + f(u)
  {
    SumOfSnoc(f, [t], u);
    SumOfSnoc(f, [], t);
    assert [t] + [u] == [t, u] && [] + [t] == [t];
  }

  lemma {:induction false} WorkFits(v: Id, w: Id, x: Id)
    requires v != w
    ensures Get(Halves(v, w).PerWork(Halves(v, w).Payers()), x) < U128
  {
    var t, u := TwoPayers(v, w);
    CreditOfTwo(v, w, x, t, u);
    EachFits(v, w, t, x);
    EachFits(v, w, u, x);
  }

  lemma FeesSum(v: Id, w: Id)
    ensures SumMap(Halves(v, w).fees) == U128
  {
    assert "a"[0] != "b"[0];
    TwoFees("a", "b");
  }

  lemma TwoFees(t: Id, u: Id)
    requires t != u
    ensures SumMap(map[t := HALF, u := HALF]) == U128
  {
    SumMapSet(map[], t, HALF);
    SumMapSet(map[t := HALF], u, HALF);
    assert map[t := HALF, u := HALF] == map[t := HALF][u := HALF];
  }

  lemma EachPaidInFull(v: Id, w: Id, u: Id)
    requires u == "a" || u == "b"
    ensures PaidInFull(Halves(v, w), u)
  {
    var e := Halves(v, w);
    assert "a"[0] != "b"[0];
    assert e.rows[0] == RawRow("a", v, 1) && e.rows[1] == RawRow("b", w, 1);
    assert HasValue(e.rows, u);
    assert e.ppm[0] == PPM && e.ppm[1] == PPM;
  }

  lemma AllPaidInFull(e: Epoch)
    requires e.Paired() && forall u :: u in e.fees ==> PaidInFull(e, u)
    ensures e.Settled().unallocated == 0 && e.Burned(e.Payers()) == 0
  {
    NothingUnallocatedIff(e);
  }

  lemma {:induction false} NothingBurns(v: Id, w: Id)
    ensures Halves(v, w).Settled().unallocated == 0 && Halves(v, w).Burned(Halves(v, w).Payers()) == 0
  {
    forall u | u in Halves(v, w).fees ensures PaidInFull(Halves(v, w), u) {
      EachPaidInFull(v, w, u);
    }
    AllPaidInFull(Halves(v, w));
  }

  lemma RawsSum(v: Id, w: Id)
    ensures Sum(RawsOf(Halves(v, w).rows)) == 2
  {
    assert RawsOf(Halves(v, w).rows) == [1] + [1];
    SumSnoc([1], 1);
    SumSnoc([], 1);
    assert [] + [1] == [1];
  }

  lemma InRangeParts(e: Epoch)
    requires e.Paired() && e.Burned(e.Payers()) < U128 && Sum(RawsOf(e.rows)) < U128
    requires Fits(e.PerWork(e.Payers())) && forall u :: u in e.fees ==> UserFits(e.Fee(u), e.RowsOf(u))
    ensures e.InRange()
  {
    UsersPartitionRaw(e.rows, e.Payers());
    UsageWithinRaw(e, e.Payers());
    PostedWithin(e.AllUsage(e.Payers()));
  }

  lemma {:induction false} HalvesInRange(v: Id, w: Id)
    requires v != w
    ensures Halves(v, w).InRange()
  {
    forall x ensures Get(Halves(v, w).PerWork(Halves(v, w).Payers()), x) < U128 {
      WorkFits(v, w, x);
    }
    forall u | u in Halves(v, w).fees ensures UserFits(Halves(v, w).Fee(u), Halves(v, w).RowsOf(u)) {
      EachFits(v, w, u, v);
    }
    NothingBurns(v, w);
    RawsSum(v, w);
    InRangeParts(Halves(v, w));
  }

  /** An in-range epoch with something to credit, on parsable works, settles. */
  lemma {:induction false} SettlesIfNamed(e: Epoch)
    requires e.Paired() && e.InRange() && SumMap(e.fees) > e.Settled().unallocated
    requires forall i :: 0 <= i < |e.rows| ==> Parse(e.rows[i].work).Some?
    ensures Settles(e)
  {
    Conservation(e);
    assert e.Settled().perWork != map[];
    forall k | k in Keys(e.Settled()) ensures Parse(k).Some? {
      CreditedNamed(e, k);
    }
  }

  lemma AllDirect(hs: Hashes, epoch: nat, p: Payouts)
    ensures var s := Finalized(hs, epoch, p, {});
            Sum(DirectAmounts(s)) == SumMap(p.perWork) && s.totalCredits == Wrap(SumMap(p.perWork)) && s.escrowTotal == 0
            && s.unallocated == p.unallocated
  {
    NothingHeld(Keys(p));
    NothingOfNothing(p.perWork);
    BucketsConserve(hs, epoch, p, {});
    BucketAmounts(hs, epoch, p, {});
  }

  /** Credits of exactly 2^128, none of them escrowed, total to nothing. */
  lemma {:induction false} WrapsToZero(hs: Hashes, epoch: nat, p: Payouts)
    requires SumMap(p.perWork) == U128 && p.unallocated == 0
    ensures var s := Finalized(hs, epoch, p, {});
            && Sum(DirectAmounts(s)) == U128
            && s.totalCredits + s.escrowTotal + s.unallocated == 0
  {
    AllDirect(hs, epoch, p);
  }

  lemma {:induction false} AllCredited(e: Epoch)
    requires e.Settled().unallocated == 0
    ensures SumMap(e.Settled().perWork) == SumMap(e.fees)
  {
    Conservation(e);
  }

  lemma {:induction false} HalvesCredit(v: Id, w: Id)
    ensures SumMap(Halves(v, w).Settled().perWork) == U128 && Halves(v, w).Settled().unallocated == 0
  {
    FeesSum(v, w);
    NothingBurns(v, w);
    AllCredited(Halves(v, w));
  }

  lemma HalvesParse(v: Id, w: Id)
    requires Parse(v).Some? && Parse(w).Some?
    ensures forall i :: 0 <= i < |Halves(v, w).rows| ==> Parse(Halves(v, w).rows[i].work).Some?
  {
  }

  lemma {:induction false} HalvesSettle(v: Id, w: Id)
    requires v != w && Parse(v).Some? && Parse(w).Some?
    ensures Settles(Halves(v, w))
  {
    HalvesInRange(v, w);
    FeesSum(v, w);
    NothingBurns(v, w);
    HalvesParse(v, w);
    SettlesIfNamed(Halves(v, w));
  }

  /** Whenever the two works are distinct 32-byte values, the settlement succeeds and
      every unit of the fees is in its entries, yet the committed totals are zero. */
  lemma {:induction false} TotalsCanWrap(hs: Hashes, epoch: nat, v: Id, w: Id)
    requires v != w && Parse(v).Some? && Parse(w).Some?
    ensures Settles(Halves(v, w)) && SumMap(Halves(v, w).fees) == U128
    ensures var s := Finalized(hs, epoch, Halves(v, w).Settled(), {});
            && Sum(DirectAmounts(s)) == U128
            && s.totalCredits + s.escrowTotal + s.unallocated == 0
  {
    HalvesSettle(v, w);
    HalvesCredit(v, w);
    FeesSum(v, w);
    WrapsToZero(hs, epoch, Halves(v, w).Settled());
  }
}
