/** Exactly when a fee is paid out in full, and when part of it stays unallocated. */
module Burning {
  import opened Words
  import opened Arithmetic
  import opened Sums
  import opened Ids
  import opened Allocation
  import opened AllocationLaws

  // ----- one user ----------------------------------------------------------

  /** The row loses nothing to its credibility. */
  predicate Whole(g: Graded) {
    g.row.raw == 0 || g.ppm == PPM
  }

  ghost predicate AllWhole(gs: seq<Graded>) {
    forall i :: 0 <= i < |gs| ==> Whole(gs[i])
  }

  lemma AllWholeSnoc(gs: seq<Graded>, g: Graded)
    ensures AllWhole(gs + [g]) <==> AllWhole(gs) && Whole(g)
  {
    assert (gs + [g])[|gs|] == g;
    assert forall i :: 0 <= i < |gs| ==> (gs + [g])[i] == gs[i];
  }

  lemma {:induction false} WholeTotals(gs: seq<Graded>)
    requires Clamped(gs)
    ensures CredTotal(gs) == RawTotal(gs) <==> AllWhole(gs)
  {
    forall i | 0 <= i < |gs| ensures Creds(gs)[i] <= Raws(gs)[i] && (Creds(gs)[i] == Raws(gs)[i] <==> Whole(gs[i])) {
    }
    SumEqualIff(Creds(gs), Raws(gs));
  }

  lemma FullShare(fee: nat, c: nat, r: nat)
    requires c <= r && r > 0
    ensures MulDiv(fee, c, r) == fee <==> fee == 0 || c == r
  {
    DivExact(fee, r);
    if fee > 0 && c < r {
      StrictMul(c, r, fee);
      DivBracket(fee * c, r);
      MulCancelLt(MulDiv(fee, c, r), fee, r);
    }
  }

  /** A user's fee is paid out to the last unit exactly when it is zero, or some
      row carries weight and none that does is discounted at all. */
  lemma {:induction false} NothingBurnsIff(fee: nat, gs: seq<Graded>)
    requires Clamped(gs)
    ensures Burn(fee, gs) == 0 <==>
      fee == 0 || (RawTotal(gs) > 0 && AllWhole(gs))
  {
    CredLeRaw(gs);
    WholeTotals(gs);
    if Live(gs) { FullShare(fee, CredTotal(gs), RawTotal(gs)); }
  }

  // ----- read off the input rows -------------------------------------------

  /** The user has a row that carries weight. */
  ghost predicate HasValue(rows: seq<RawRow>, u: Id) {
    exists i :: 0 <= i < |rows| && rows[i].user == u && rows[i].raw > 0
  }

  /** Every row of the user that carries weight is at least neutrally credible. */
  ghost predicate FullyCredible(rows: seq<RawRow>, ppm: seq<nat>, u: Id)
    requires |rows| == |ppm|
  {
    forall i :: 0 <= i < |rows| && rows[i].user == u && rows[i].raw > 0 ==> ppm[i] >= PPM
  }

  lemma {:induction false} WholeRowsIff(rows: seq<RawRow>, ppm: seq<nat>, u: Id)
    requires |rows| == |ppm|
    ensures AllWhole(UserRows(rows, ppm, u)) <==> FullyCredible(rows, ppm, u)
  {
    if |rows| > 0 {
      var n := |rows| - 1;
      WholeRowsIff(rows[..n], ppm[..n], u);
      var init, last := UserRows(rows[..n], ppm[..n], u), Graded(rows[n], Min(ppm[n], PPM));
      assert FullyCredible(rows, ppm, u) <==>
        FullyCredible(rows[..n], ppm[..n], u) && (rows[n].user == u && rows[n].raw > 0 ==> ppm[n] >= PPM);
      AllWholeSnoc(init, last);
      assert init + [] == init;
    }
  }

  lemma {:induction false} HasValueIff(rows: seq<RawRow>, u: Id)
    ensures RawOf(rows, u) > 0 <==> HasValue(rows, u)
  {
    if |rows| > 0 {
      var n := |rows| - 1;
      HasValueIff(rows[..n], u);
      assert HasValue(rows, u) <==> HasValue(rows[..n], u) || (rows[n].user == u && rows[n].raw > 0);
    }
  }

  /** This user's fee reaches works in full. */
  ghost predicate PaidInFull(e: Epoch, u: Id)
    requires e.Paired()
  {
    e.Fee(u) == 0 || (HasValue(e.rows, u) && FullyCredible(e.rows, e.ppm, u))
  }

  lemma {:induction false} UserBurnsNothingIff(e: Epoch, u: Id)
    requires e.Paired()
    ensures e.UserBurn(u) == 0 <==> PaidInFull(e, u)
  {
    NothingBurnsIff(e.Fee(u), e.RowsOf(u));
    WholeRowsIff(e.rows, e.ppm, u);
    RawOfUser(e.rows, e.ppm, u);
    HasValueIff(e.rows, u);
  }

  /** An epoch leaves nothing unallocated exactly when every payer with a fee has
      some weight and no discounted weight: an absence of value is not the only
      cause, since any discount at all burns at least one unit. */
  lemma {:induction false} NothingUnallocatedIff(e: Epoch)
    requires e.Paired()
    ensures e.Settled().unallocated == 0 <==> forall u :: u in e.fees ==> PaidInFull(e, u)
  {
    SumOfZeroIff(e.BurnFn(), e.Payers());
    forall u | u in e.fees ensures e.BurnFn()(u) == 0 <==> PaidInFull(e, u) {
      UserBurnsNothingIff(e, u);
    }
  }

  // ----- an input that burns a user with value -----------------------------

  const DISCOUNTED: Epoch := Epoch(map["u" := 1], [RawRow("u", "w", 1)], [0])

  /** A user with attributable value whose whole fee stays unallocated. */
  lemma {:induction false} ValueCanBurn()
    ensures DISCOUNTED.Paired() && DISCOUNTED.InRange()
    ensures HasValue(DISCOUNTED.rows, "u") && DISCOUNTED.Settled().unallocated == 1
  {
    var e := DISCOUNTED;
    assert e.rows[0] == RawRow("u", "w", 1);
    DiscountedInRange();
    NothingUnallocatedIff(e);
    assert !PaidInFull(e, "u");
    Conservation(e);
    OneFee();
  }

  lemma OneFee()
    ensures SumMap(DISCOUNTED.fees) == 1
  {
    SumMapSet(map[], "u", 1);
    assert DISCOUNTED.fees == map["u" := 1];
  }

  lemma {:induction false} DiscountedInRange()
    ensures DISCOUNTED.InRange()
  {
    var e := DISCOUNTED;
    OneFee();
    assert RawsOf(e.rows) == [1];
    SumSnoc([], 1);
    assert [] + [1] == [1];
    forall u | u in e.fees ensures ModestProducts(e.fees[u], e.RowsOf(u)) {
    }
    Totality(e);
  }
}
