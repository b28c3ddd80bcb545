/** What each work is paid and credited with, read off the rows that name it. */
module WorkPayouts {
  import opened Words
  import opened Arithmetic
  import opened Sums
  import opened Ids
  import opened Ledgers
  import opened Allocation
  import opened AllocationLaws
  import A = Apportionment

  // ----- a user's rows -----------------------------------------------------

  /** Where a user's rows stand among the input rows. */
  ghost predicate Places(rows: seq<RawRow>, u: Id, at: seq<nat>) {
    && (forall j, l :: 0 <= j < l < |at| ==> at[j] < at[l])
    && (forall i :: i in at <==> 0 <= i < |rows| && rows[i].user == u)
  }

  /** A user's rows are exactly the input rows of that user, in input order, each
      with its own credibility, capped at neutral. */
  lemma {:induction false} RowsInOrder(rows: seq<RawRow>, ppm: seq<nat>, u: Id) returns (at: seq<nat>)
    requires |rows| == |ppm|
    ensures Places(rows, u, at) && |at| == |UserRows(rows, ppm, u)|
    ensures forall j :: 0 <= j < |at| ==> at[j] in at && at[j] < |rows|
    ensures forall j :: 0 <= j < |at| ==>
      UserRows(rows, ppm, u)[j] == Graded(rows[at[j]], if ppm[at[j]] < 1_000_000 then ppm[at[j]] else 1_000_000)
  {
    if |rows| == 0 {
      return [];
    }
    var n := |rows| - 1;
    at := RowsInOrder(rows[..n], ppm[..n], u);
    forall j | 0 <= j < |at| ensures at[j] < n {
      assert at[j] in at;
    }
    if rows[n].user == u { at := at + [n]; }
  }

  /** A row's credited weight is its weight at the credibility, floored. */
  lemma {:induction false} CreditBracket(g: Graded)
    ensures CredOf(g) * 1_000_000 <= g.row.raw * g.ppm < (CredOf(g) + 1) * 1_000_000
  {
    DivBracket(g.row.raw * g.ppm, PPM);
  }

  /** What a live user pays works in all is the fee at the credible share, floored. */
  lemma {:induction false} TargetBracket(fee: nat, gs: seq<Graded>)
    requires Live(gs)
    ensures Target(fee, gs) * RawTotal(gs) <= fee * CredTotal(gs) < (Target(fee, gs) + 1) * RawTotal(gs)
  {
    DivBracket(fee * CredTotal(gs), RawTotal(gs));
  }

  // ----- per work ----------------------------------------------------------

  /** What each user's rows on `w` are paid, and what they weigh. */
  ghost function PaidFor(e: Epoch, w: Id): Id -> nat {
    (u: Id) => if Live(e.RowsOf(u)) then On(e.RowsOf(u), Credits(e.Fee(u), e.RowsOf(u)), w) else 0
  }

  function UsedFor(e: Epoch, w: Id): Id -> nat {
    (u: Id) => On(e.RowsOf(u), Creds(e.RowsOf(u)), w)
  }

  ghost function Paid(e: Epoch, w: Id): nat { SumOf(PaidFor(e, w), e.Payers()) }

  ghost function Used(e: Epoch, w: Id): nat { SumOf(UsedFor(e, w), e.Payers()) }

  lemma PaidForIs(e: Epoch, w: Id, u: Id)
    ensures PaidFor(e, w)(u) == AmountFor(e.CreditFn()(u), w)
    ensures UsedFor(e, w)(u) == AmountFor(e.UsageFn()(u), w)
  {
    var gs := e.RowsOf(u);
    EntriesOn(gs, Creds(gs), w);
    if Live(gs) { EntriesOn(gs, Credits(e.Fee(u), gs), w); }
  }

  /** A work's payout is the sum, over the payers and over each one's rows on that
      work, of the row's own share of that payer's fee. */
  lemma {:induction false} WorkPayout(e: Epoch, w: Id)
    ensures Get(e.Settled().perWork, w) == Paid(e, w)
  {
    forall u | u in e.Payers() ensures PaidFor(e, w)(u) == AmountFor(e.CreditFn()(u), w) {
      PaidForIs(e, w, u);
    }
    PostedSum(e.CreditFn(), PaidFor(e, w), e.Payers(), w);
  }

  /** Its weighted usage is the same sum of the rows' credited weights. */
  lemma {:induction false} WorkUsage(e: Epoch, w: Id)
    ensures Depth(e.Settled(), w) == Used(e, w)
  {
    forall u | u in e.Payers() ensures UsedFor(e, w)(u) == AmountFor(e.UsageFn()(u), w) {
      PaidForIs(e, w, u);
    }
    PostedSum(e.UsageFn(), UsedFor(e, w), e.Payers(), w);
    DepthIsUsage(e, e.Payers(), w);
  }

  /** Some row of the user is on `w`. */
  predicate Plays(gs: seq<Graded>, w: Id) {
    exists j :: 0 <= j < |gs| && gs[j].row.work == w
  }

  lemma PlaysIsWork(gs: seq<Graded>, w: Id)
    ensures Plays(gs, w) <==> w in Works(gs)
  {
    if Plays(gs, w) {
      var j :| 0 <= j < |gs| && gs[j].row.work == w;
      assert Works(gs)[j] == w;
    }
  }

  lemma EntriesName(gs: seq<Graded>, amounts: seq<nat>, w: Id)
    requires |amounts| == |gs|
    ensures w in IdsOf(Entries(Works(gs), amounts)) <==> Plays(gs, w)
  {
    var es := Entries(Works(gs), amounts);
    if Plays(gs, w) {
      var j :| 0 <= j < |gs| && gs[j].row.work == w;
      assert es[j].id == w;
    }
  }

  lemma {:induction false} FlatNames(f: Id -> seq<Entry>, users: seq<Id>, w: Id)
    ensures w in IdsOf(Flat(f, users)) <==> exists u :: u in users && w in IdsOf(f(u))
  {
    if |users| > 0 {
      var init, last := users[..|users| - 1], users[|users| - 1];
      FlatNames(f, init, w);
      IdsConcat(Flat(f, init), f(last));
      assert users == init + [last];
    }
  }

  lemma IdsConcat(a: seq<Entry>, b: seq<Entry>)
    ensures IdsOf(a + b) == IdsOf(a) + IdsOf(b)
  {
    forall i | 0 <= i < |b| ensures b[i].id in IdsOf(a + b) { assert (a + b)[|a| + i] == b[i]; }
    forall i | 0 <= i < |a| ensures a[i].id in IdsOf(a + b) { assert (a + b)[i] == a[i]; }
  }

  /** A work is listed among the payouts exactly when a live payer has a row on it,
      be its share zero; and among the reputations when any payer has. */
  lemma {:induction false} WorksListed(e: Epoch, w: Id)
    ensures w in e.Settled().perWork <==> exists u :: u in e.fees && Live(e.RowsOf(u)) && Plays(e.RowsOf(u), w)
    ensures w in e.Settled().reputation <==> exists u :: u in e.fees && Plays(e.RowsOf(u), w)
  {
    PostKeys(map[], e.AllCredits(e.Payers()));
    PostKeys(map[], e.AllUsage(e.Payers()));
    FlatNames(e.CreditFn(), e.Payers(), w);
    FlatNames(e.UsageFn(), e.Payers(), w);
    forall u ensures w in IdsOf(e.CreditFn()(u)) <==> Live(e.RowsOf(u)) && Plays(e.RowsOf(u), w) {
      if Live(e.RowsOf(u)) { EntriesName(e.RowsOf(u), Credits(e.Fee(u), e.RowsOf(u)), w); }
    }
    forall u ensures w in IdsOf(e.UsageFn()(u)) <==> Plays(e.RowsOf(u), w) {
      EntriesName(e.RowsOf(u), Creds(e.RowsOf(u)), w);
    }
  }

  /** The payers with a row on `w`. */
  ghost function Players(e: Epoch, w: Id): set<Id> {
    set u | u in e.fees && Plays(e.RowsOf(u), w)
  }

  lemma {:induction false} AudiencePlays(e: Epoch, w: Id)
    ensures e.Audience(e.Payers(), w) == Players(e, w)
  {
    forall u ensures u in e.Audience(e.Payers(), w) <==> u in Players(e, w) {
      PlaysIsWork(e.RowsOf(u), w);
      assert u in e.Payers() <==> u in e.fees;
    }
  }

  lemma {:induction false} ReputationIs(e: Epoch, w: Id)
    requires w in e.Settled().reputation
    ensures e.Settled().reputation[w].distinctUsers == |e.Audience(e.Payers(), w)|
  {
  }

  /** Its listeners are the payers with a row on it, each counted once. */
  lemma {:induction false} WorkListeners(e: Epoch, w: Id)
    requires w in e.Settled().reputation
    ensures e.Settled().reputation[w].distinctUsers == |Players(e, w)|
  {
    ReputationIs(e, w);
    AudiencePlays(e, w);
  }

  // ----- rounding, per work ------------------------------------------------

  function CountOn(gs: seq<Graded>, w: Id): (n: nat)
    ensures n <= |gs|
  {
    if |gs| == 0 then 0 else CountOn(gs[..|gs| - 1], w) + (if gs[|gs| - 1].row.work == w then 1 else 0)
  }

  /** The bracket on each amount, summed over the rows on `w`. */
  lemma {:induction false} BracketOn(gs: seq<Graded>, xs: seq<nat>, cs: seq<nat>, w: Id, fee: nat, r: nat)
    requires |xs| == |cs| == |gs|
    requires forall j :: 0 <= j < |gs| ==> Within(fee, r, xs[j], cs[j])
    ensures fee * On(gs, cs, w) <= (On(gs, xs, w) + 2 * CountOn(gs, w)) * r
    ensures On(gs, xs, w) * r <= fee * On(gs, cs, w) + CountOn(gs, w) * r
    ensures CountOn(gs, w) > 0 ==> fee * On(gs, cs, w) < (On(gs, xs, w) + 2 * CountOn(gs, w)) * r
    ensures CountOn(gs, w) > 0 ==> On(gs, xs, w) * r < fee * On(gs, cs, w) + CountOn(gs, w) * r
  {
    if |gs| > 0 {
      var n := |gs| - 1;
      BracketOn(gs[..n], xs[..n], cs[..n], w, fee, r);
      assert Within(fee, r, xs[n], cs[n]);
      if gs[n].row.work == w {
        Distribute(On(gs[..n], cs[..n], w), cs[n], fee);
        Distribute(On(gs[..n], xs[..n], w) + 2 * CountOn(gs[..n], w), xs[n] + 2, r);
        Distribute(On(gs[..n], xs[..n], w), xs[n], r);
        Distribute(CountOn(gs[..n], w), 1, r);
      }
    } else {
      assert fee * 0 == 0;
    }
  }

  ghost predicate Within(fee: nat, r: nat, x: nat, c: nat) {
    fee * c < (x + 2) * r && x * r < fee * c + r
  }

  /** `x` is less than two units a row below `fee * c / r`, and one above. */
  ghost predicate Rounded(fee: nat, r: nat, x: nat, c: nat, n: nat) {
    fee * c < (x + 2 * n) * r && x * r < fee * c + n * r
  }

  lemma {:induction false} SharesWithin(fee: nat, gs: seq<Graded>, w: Id)
    requires Clamped(gs) && Live(gs) && CountOn(gs, w) > 0
    ensures var x, c, n := On(gs, Credits(fee, gs), w), On(gs, Creds(gs), w), CountOn(gs, w);
            Rounded(fee, RawTotal(gs), x, c, n)
  {
    forall j | 0 <= j < |gs| ensures Within(fee, RawTotal(gs), Credits(fee, gs)[j], Creds(gs)[j]) {
      RowCreditBounds(fee, gs, j);
    }
    BracketOn(gs, Credits(fee, gs), Creds(gs), w, fee, RawTotal(gs));
  }

  /** A payer's run alone pays a work what that payer's rows on it are due. */
  lemma {:induction false} SoloWork(e: Epoch, u: Id, w: Id)
    requires Live(e.RowsOf(u))
    ensures Get(SoloPayouts(e, u).perWork, w) == On(e.RowsOf(u), Credits(e.Fee(u), e.RowsOf(u)), w)
  {
    SoloCredit(e, u, w);
    PaidForIs(e, w, u);
  }

  /** A user's payout to a work, alone, is within two units a row below and one above
      the fee's part for the credited weight of the user's rows on it. */
  lemma {:induction false} WorkCreditBounds(e: Epoch, u: Id, w: Id)
    requires Live(e.RowsOf(u)) && Plays(e.RowsOf(u), w)
    ensures var gs, x := e.RowsOf(u), Get(SoloPayouts(e, u).perWork, w);
            var c, n := On(gs, Creds(gs), w), CountOn(gs, w);
            Rounded(e.Fee(u), RawTotal(gs), x, c, n)
  {
    SoloWork(e, u, w);
    SomeOn(e.RowsOf(u), w);
    SharesWithin(e.Fee(u), e.RowsOf(u), w);
  }

  lemma {:induction false} SomeOn(gs: seq<Graded>, w: Id)
    ensures CountOn(gs, w) > 0 <==> Plays(gs, w)
  {
    if |gs| > 0 {
      var n := |gs| - 1;
      SomeOn(gs[..n], w);
      assert Plays(gs, w) <==> Plays(gs[..n], w) || gs[n].row.work == w;
    }
  }

  ghost predicate DistinctWorks(gs: seq<Graded>) {
    forall j, l :: 0 <= j < l < |gs| ==> gs[j].row.work != gs[l].row.work
  }

  lemma {:induction false} OnDistinct(gs: seq<Graded>, amounts: seq<nat>, j: nat)
    requires |amounts| == |gs| && j < |gs| && DistinctWorks(gs)
    ensures On(gs, amounts, gs[j].row.work) == amounts[j] && CountOn(gs, gs[j].row.work) == 1
  {
    var n := |gs| - 1;
    if j < n {
      OnDistinct(gs[..n], amounts[..n], j);
    } else {
      NoneOn(gs[..n], amounts[..n], gs[n].row.work);
    }
  }

  lemma {:induction false} NoneOn(gs: seq<Graded>, amounts: seq<nat>, w: Id)
    requires |amounts| == |gs| && forall j :: 0 <= j < |gs| ==> gs[j].row.work != w
    ensures On(gs, amounts, w) == 0 && CountOn(gs, w) == 0
  {
    if |gs| > 0 { NoneOn(gs[..|gs| - 1], amounts[..|gs| - 1], w); }
  }

  /** When a user's rows name distinct works, each work's payout from that user is
      the share of its own row, within the row's bounds. */
  lemma {:induction false} DistinctWorkBounds(e: Epoch, u: Id, j: nat)
    requires Live(e.RowsOf(u)) && j < |e.RowsOf(u)| && DistinctWorks(e.RowsOf(u))
    ensures var gs := e.RowsOf(u);
            var x := Get(SoloPayouts(e, u).perWork, gs[j].row.work);
            && x == Credits(e.Fee(u), gs)[j]
            && e.Fee(u) * CredOf(gs[j]) < (x + 2) * RawTotal(gs)
            && x * RawTotal(gs) < e.Fee(u) * CredOf(gs[j]) + RawTotal(gs)
  {
    var gs := e.RowsOf(u);
    SoloWork(e, u, gs[j].row.work);
    OnDistinct(gs, Credits(e.Fee(u), gs), j);
    RowCreditBounds(e.Fee(u), gs, j);
  }

  // ----- when allocation overflows -----------------------------------------

  /** The part of each fee that reaches no work. */
  ghost function BurnedBy(e: Epoch): Id -> nat {
    (u: Id) => if Live(e.RowsOf(u)) then Max(e.Fee(u), Target(e.Fee(u), e.RowsOf(u))) - Target(e.Fee(u), e.RowsOf(u))
               else e.Fee(u)
  }

  lemma BurnedByIs(e: Epoch, u: Id)
    ensures BurnedBy(e)(u) == e.BurnFn()(u)
  {
    assert Burn(e.Fee(u), e.RowsOf(u)) + Target(e.Fee(u), e.RowsOf(u)) == e.Fee(u);
  }

  /** The unallocated amount is what is left of each fee after its works are paid. */
  lemma {:induction false} UnallocatedIs(e: Epoch)
    ensures e.Settled().unallocated == SumOf(BurnedBy(e), e.Payers())
  {
    forall u | u in e.Payers() ensures BurnedBy(e)(u) == e.BurnFn()(u) {
      BurnedByIs(e, u);
    }
    SumOfAgree(BurnedBy(e), e.BurnFn(), e.Payers());
  }

  /** A payer's own sums and products stay within 128 bits. */
  ghost predicate Representable(e: Epoch, u: Id) {
    var gs := e.RowsOf(u);
    && RawTotal(gs) < 0x1_0000_0000_0000_0000_0000_0000_0000_0000
    && (Live(gs) ==> forall j :: 0 <= j < |gs| ==>
          Target(e.Fee(u), gs) * CredOf(gs[j]) < 0x1_0000_0000_0000_0000_0000_0000_0000_0000)
  }

  lemma FitsIsRepresentable(e: Epoch, u: Id)
    ensures UserFits(e.Fee(u), e.RowsOf(u)) <==> Representable(e, u)
  {
    var gs := e.RowsOf(u);
    assert forall j :: 0 <= j < |gs| ==> Creds(gs)[j] == CredOf(gs[j]);
  }

  /** Every payer's own operations, every work's payout and every work's usage fit. */
  ghost predicate PayersFit(e: Epoch) {
    forall u :: u in e.fees ==> Representable(e, u)
  }

  ghost predicate PayoutsFit(e: Epoch) {
    forall w :: Paid(e, w) < 0x1_0000_0000_0000_0000_0000_0000_0000_0000
  }

  ghost predicate UsageFits(e: Epoch) {
    forall w :: Used(e, w) < 0x1_0000_0000_0000_0000_0000_0000_0000_0000
  }

  lemma PostedIs(e: Epoch, w: Id)
    ensures Get(e.PerWork(e.Payers()), w) == Paid(e, w)
    ensures Get(e.Usage(e.Payers()), w) == Used(e, w)
  {
    WorkPayout(e, w);
    WorkUsage(e, w);
    DepthIsUsage(e, e.Payers(), w);
  }

  lemma AllPostedIs(e: Epoch)
    ensures forall w :: Get(e.PerWork(e.Payers()), w) == Paid(e, w)
    ensures forall w :: Get(e.Usage(e.Payers()), w) == Used(e, w)
  {
    forall w
      ensures Get(e.PerWork(e.Payers()), w) == Paid(e, w)
      ensures Get(e.Usage(e.Payers()), w) == Used(e, w)
    {
      PostedIs(e, w);
    }
  }

  lemma {:induction false} WorksFitIs(e: Epoch)
    ensures Fits(e.PerWork(e.Payers())) <==> PayoutsFit(e)
    ensures Fits(e.Usage(e.Payers())) <==> UsageFits(e)
  {
    AllPostedIs(e);
  }

  lemma PayersFitIs(e: Epoch)
    ensures (forall u :: u in e.Payers() ==> UserFits(e.Fee(u), e.RowsOf(u))) <==> PayersFit(e)
  {
    forall u ensures UserFits(e.Fee(u), e.RowsOf(u)) <==> Representable(e, u) {
      FitsIsRepresentable(e, u);
    }
  }

  /** Allocation is in range exactly when no payer's raw total or share product, no
      work's payout, no work's usage, and not the unallocated amount, leaves 128 bits. */
  lemma {:induction false} InRangeIff(e: Epoch)
    ensures e.InRange() <==>
      && PayersFit(e) && PayoutsFit(e) && UsageFits(e)
      && SumOf(BurnedBy(e), e.Payers()) < 0x1_0000_0000_0000_0000_0000_0000_0000_0000
  {
    PayersFitIs(e);
    WorksFitIs(e);
    UnallocatedIs(e);
  }
}
