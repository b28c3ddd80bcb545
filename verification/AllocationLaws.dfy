/** What the payout core promises: conservation, no redistribution, bounded
    rounding, user locality, and totality under stated bounds. */
module AllocationLaws {
  import opened Words
  import opened Arithmetic
  import opened Sums
  import opened Ids
  import opened Ledgers
  import opened Allocation
  import A = Apportionment

  // ----- conservation ------------------------------------------------------

  lemma {:induction false} UserCreditsTotal(fee: nat, gs: seq<Graded>)
    ensures Sum(Amounts(CreditEntries(fee, gs))) == Target(fee, gs)
  {
    if Live(gs) {
      assert Amounts(CreditEntries(fee, gs)) == Credits(fee, gs);
      A.SharesExact(Target(fee, gs), Creds(gs), CredTotal(gs));
    }
  }

  ghost function Targets(e: Epoch): Id -> nat { (u: Id) => Target(e.Fee(u), e.RowsOf(u)) }

  lemma {:induction false} CreditsAndBurns(e: Epoch, users: seq<Id>)
    ensures Sum(Amounts(e.AllCredits(users))) + e.Burned(users) == SumOf((u: Id) => e.Fee(u), users)
  {
    forall u | u in users ensures Targets(e)(u) == Sum(Amounts(e.UserCredits(u))) {
      UserCreditsTotal(e.Fee(u), e.RowsOf(u));
    }
    FlatTotal(e.CreditFn(), Targets(e), users);
    SumOfAdd(Targets(e), e.BurnFn(), (u: Id) => e.Fee(u), users);
  }

  lemma {:induction false} FeesTotal(e: Epoch)
    ensures SumOf((u: Id) => e.Fee(u), e.Payers()) == SumMap(e.fees)
  {
    SumMapListed(e.fees, (u: Id) => e.Fee(u), e.Payers());
  }

  /** Credits plus the burned amount equal the fees paid, to the last unit. */
  lemma {:induction false} Conservation(e: Epoch)
    ensures SumMap(e.Settled().perWork) + e.Settled().unallocated == SumMap(e.fees)
  {
    PostTotal(map[], e.AllCredits(e.Payers()));
    CreditsAndBurns(e, e.Payers());
    FeesTotal(e);
  }

  // ----- two-stage rounding ------------------------------------------------

  lemma ScaledLower(f: nat, c: nat, r: nat, cred: nat, t: nat, x: nat)
    requires c > 0 && r > 0 && 0 < cred <= c
    requires f * c < (t + 1) * r
    requires t * cred < (x + 1) * c
    ensures f * cred < (x + 2) * r
  {
    StrictMul(f * c, (t + 1) * r, cred);
    StrictMul(t * cred, (x + 1) * c, r);
    MulMono(cred, c, r, r);
    MulCancelLt(f * cred, (x + 2) * r, c);
  }

  lemma ScaledUpper(f: nat, c: nat, r: nat, cred: nat, t: nat, x: nat)
    requires c > 0 && r > 0
    requires t * r <= f * c
    requires x * c < t * cred + c
    ensures x * r < f * cred + r
  {
    StrictMul(x * c, t * cred + c, r);
    MulMono(t * r, f * c, cred, cred);
    Distribute(t * cred, c, r);
    Distribute(f * cred, r, c);
    MulCancelLt(x * r, f * cred + r, c);
  }

  lemma StrictMul(a: nat, b: nat, c: nat)
    requires a < b && c > 0
    ensures a * c < b * c
  {
  }

  /** No redistribution: a row's credit is within two units below and one above
      `fee * cred / raw total`, whatever the other rows' credibilities are. */
  lemma {:induction false} RowCreditBounds(fee: nat, gs: seq<Graded>, i: nat)
    requires Clamped(gs) && Live(gs) && i < |gs|
    ensures var x, cred := Credits(fee, gs)[i], CredOf(gs[i]);
            && fee * cred < (x + 2) * RawTotal(gs)
            && x * RawTotal(gs) < fee * cred + RawTotal(gs)
  {
    var t, c, r := Target(fee, gs), CredTotal(gs), RawTotal(gs);
    var x, cred := Credits(fee, gs)[i], CredOf(gs[i]);
    assert Creds(gs)[i] == cred;
    ElementLeSum(Creds(gs), i);
    DivBracket(fee * c, r);
    A.SharesQuota(t, Creds(gs), c, i);
    if cred > 0 {
      ScaledLower(fee, c, r, cred, t, x);
    }
    ScaledUpper(fee, c, r, cred, t, x);
  }

  // ----- burning is monotone -----------------------------------------------

  /** Same rows, credibilities raised or left alone. */
  ghost predicate Raised(gs: seq<Graded>, hs: seq<Graded>) {
    && |gs| == |hs|
    && forall i :: 0 <= i < |gs| ==> gs[i].row == hs[i].row && gs[i].ppm <= hs[i].ppm
  }

  lemma {:induction false} CredMono(raw: nat, p: nat, q: nat)
    requires p <= q
    ensures MulDiv(raw, p, PPM) <= MulDiv(raw, q, PPM)
  {
    MulMono(raw, raw, p, q);
    DivMono(raw * p, raw * q, PPM);
  }

  lemma {:induction false} CredTotalMono(gs: seq<Graded>, hs: seq<Graded>)
    requires Raised(gs, hs)
    ensures CredTotal(gs) <= CredTotal(hs) && RawTotal(gs) == RawTotal(hs)
  {
    forall i | 0 <= i < |gs| ensures Creds(gs)[i] <= Creds(hs)[i] {
      CredMono(gs[i].row.raw, gs[i].ppm, hs[i].ppm);
    }
    SumMono(Creds(gs), Creds(hs));
    assert Raws(gs) == Raws(hs);
  }

  lemma {:induction false} BurnAntitone(fee: nat, gs: seq<Graded>, hs: seq<Graded>)
    requires Clamped(gs) && Clamped(hs) && Raised(gs, hs)
    ensures Burn(fee, hs) <= Burn(fee, gs)
  {
    CredTotalMono(gs, hs);
    if Live(gs) {
      MulMono(fee, fee, CredTotal(gs), CredTotal(hs));
      DivMono(fee * CredTotal(gs), fee * CredTotal(hs), RawTotal(gs));
    }
  }

  lemma {:induction false} UserRowsRaised(rows: seq<RawRow>, ppm: seq<nat>, more: seq<nat>, u: Id)
    requires |rows| == |ppm| == |more|
    requires forall i :: 0 <= i < |ppm| ==> ppm[i] <= more[i]
    ensures Raised(UserRows(rows, ppm, u), UserRows(rows, more, u))
  {
    if |rows| > 0 {
      var n := |rows| - 1;
      UserRowsRaised(rows[..n], ppm[..n], more[..n], u);
    }
  }

  /** Raising any row's credibility never raises the burned amount. */
  lemma {:induction false} BurnedNeverRises(e: Epoch, more: seq<nat>)
    requires e.Paired() && |more| == |e.ppm|
    requires forall i :: 0 <= i < |more| ==> e.ppm[i] <= more[i]
    ensures e.(ppm := more).Settled().unallocated <= e.Settled().unallocated
  {
    var f := e.(ppm := more);
    forall u ensures f.UserBurn(u) <= e.UserBurn(u) {
      UserRowsRaised(e.rows, e.ppm, more, u);
      BurnAntitone(e.Fee(u), e.RowsOf(u), f.RowsOf(u));
    }
    SumOfMono(f.BurnFn(), e.BurnFn(), e.Payers());
  }

  // ----- user locality -----------------------------------------------------

  function RowsIn(gs: seq<Graded>): (r: seq<RawRow>)
    ensures |r| == |gs|
  {
    seq(|gs|, i requires 0 <= i < |gs| => gs[i].row)
  }

  function PpmIn(gs: seq<Graded>): (r: seq<nat>)
    ensures |r| == |gs|
  {
    seq(|gs|, i requires 0 <= i < |gs| => gs[i].ppm)
  }

  /** The epoch a user would have had alone: own fee, own rows, nothing else. */
  function Solo(e: Epoch, u: Id): (s: Epoch)
    ensures s.Paired()
  {
    Epoch(map[u := e.Fee(u)], RowsIn(e.RowsOf(u)), PpmIn(e.RowsOf(u)))
  }

  lemma {:induction false} OwnRows(gs: seq<Graded>, u: Id)
    requires Clamped(gs) && forall i :: 0 <= i < |gs| ==> gs[i].row.user == u
    ensures UserRows(RowsIn(gs), PpmIn(gs), u) == gs
  {
    if |gs| > 0 {
      var n := |gs| - 1;
      OwnRows(gs[..n], u);
      assert RowsIn(gs)[..n] == RowsIn(gs[..n]) && PpmIn(gs)[..n] == PpmIn(gs[..n]);
    }
  }

  lemma {:induction false} SoloUser(e: Epoch, u: Id)
    ensures Solo(e, u).Payers() == [u]
    ensures Solo(e, u).RowsOf(u) == e.RowsOf(u) && Solo(e, u).Fee(u) == e.Fee(u)
  {
    if e.Paired() { OwnRows(e.RowsOf(u), u); }
    var ks := Solo(e, u).Payers();
    assert ks[0] in ks;
  }

  ghost function SoloPayouts(e: Epoch, u: Id): Payouts { Solo(e, u).Settled() }

  lemma {:induction false} SinglePayer(s: Epoch, u: Id)
    requires s.Payers() == [u]
    ensures s.Settled().perWork == Post(map[], s.UserCredits(u))
    ensures s.Settled().unallocated == s.UserBurn(u)
    ensures s.Usage([u]) == Post(map[], s.UserUsage(u))
  {
    PrefixStep(s, [], u);
    assert [] + [u] == [u];
  }

  lemma {:induction false} SoloCredit(e: Epoch, u: Id, w: Id)
    ensures Get(SoloPayouts(e, u).perWork, w) == AmountFor(e.UserCredits(u), w)
    ensures SoloPayouts(e, u).unallocated == e.UserBurn(u)
  {
    SoloUser(e, u);
    SinglePayer(Solo(e, u), u);
    PostGet(map[], e.UserCredits(u), w);
  }

  lemma UsageIds(gs: seq<Graded>)
    ensures forall w :: w in IdsOf(UsageEntries(gs)) <==> w in Works(gs)
  {
    assert forall i :: 0 <= i < |gs| ==> UsageEntries(gs)[i].id == Works(gs)[i];
  }

  function Reach(p: Payouts, w: Id): nat {
    if w in p.reputation then p.reputation[w].distinctUsers else 0
  }

  function Depth(p: Payouts, w: Id): nat {
    if w in p.reputation then p.reputation[w].weightedUsage else 0
  }

  lemma {:induction false} DepthIsUsage(e: Epoch, users: seq<Id>, w: Id)
    ensures Depth(e.Outcome(users), w) == Get(e.Usage(users), w)
  {
  }

  lemma {:induction false} SoloDepth(e: Epoch, u: Id, w: Id)
    ensures Depth(SoloPayouts(e, u), w) == AmountFor(e.UserUsage(u), w)
  {
    SoloUser(e, u);
    SinglePayer(Solo(e, u), u);
    DepthIsUsage(Solo(e, u), [u], w);
    PostGet(map[], e.UserUsage(u), w);
  }

  lemma SingleListener(s: Epoch, u: Id, w: Id)
    ensures |s.Audience([u], w)| == if w in Works(s.RowsOf(u)) then 1 else 0
  {
    assert s.Audience([u], w) == if w in Works(s.RowsOf(u)) then {u} else {};
  }

  lemma {:induction false} SingleUsage(s: Epoch, u: Id, w: Id)
    ensures w in s.Usage([u]) <==> w in Works(s.RowsOf(u))
  {
    PrefixStep(s, [], u);
    assert [] + [u] == [u];
    PostKeys(map[], s.UserUsage(u));
    UsageIds(s.RowsOf(u));
  }

  lemma {:induction false} SoloReach(e: Epoch, u: Id, w: Id)
    ensures Reach(SoloPayouts(e, u), w) == if w in Works(e.RowsOf(u)) then 1 else 0
  {
    SoloUser(e, u);
    SingleListener(Solo(e, u), u, w);
    SingleUsage(Solo(e, u), u, w);
  }

  lemma {:induction false} AudienceSize(e: Epoch, users: seq<Id>, reach: Id -> nat, w: Id)
    requires forall i, j :: 0 <= i < j < |users| ==> users[i] != users[j]
    requires forall u :: u in users ==> reach(u) == if w in Works(e.RowsOf(u)) then 1 else 0
    ensures |e.Audience(users, w)| == SumOf(reach, users)
  {
    if |users| > 0 {
      var init, u := users[..|users| - 1], users[|users| - 1];
      AudienceSize(e, init, reach, w);
      assert users == init + [u];
      AudienceStep(e, init, u, w);
      assert u !in init && u in users;
    }
  }

  // What each single-user run contributes, as functions of the user.
  ghost function SoloCreditFn(e: Epoch, w: Id): Id -> nat { (u: Id) => Get(SoloPayouts(e, u).perWork, w) }

  ghost function SoloBurnFn(e: Epoch): Id -> nat { (u: Id) => SoloPayouts(e, u).unallocated }

  ghost function SoloDepthFn(e: Epoch, w: Id): Id -> nat { (u: Id) => Depth(SoloPayouts(e, u), w) }

  ghost function SoloReachFn(e: Epoch, w: Id): Id -> nat { (u: Id) => Reach(SoloPayouts(e, u), w) }

  lemma SoloAmounts(e: Epoch, users: seq<Id>, w: Id)
    ensures forall u :: u in users ==> SoloCreditFn(e, w)(u) == AmountFor(e.CreditFn()(u), w)
    ensures forall u :: u in users ==> SoloBurnFn(e)(u) == e.BurnFn()(u)
  {
    forall u | u in users
      ensures SoloCreditFn(e, w)(u) == AmountFor(e.CreditFn()(u), w) && SoloBurnFn(e)(u) == e.BurnFn()(u)
    {
      SoloCredit(e, u, w);
    }
  }

  lemma SoloSignals(e: Epoch, users: seq<Id>, w: Id)
    ensures forall u :: u in users ==> SoloDepthFn(e, w)(u) == AmountFor(e.UsageFn()(u), w)
    ensures forall u :: u in users ==> SoloReachFn(e, w)(u) == if w in Works(e.RowsOf(u)) then 1 else 0
  {
    forall u | u in users
      ensures SoloDepthFn(e, w)(u) == AmountFor(e.UsageFn()(u), w)
      ensures SoloReachFn(e, w)(u) == if w in Works(e.RowsOf(u)) then 1 else 0
    {
      SoloDepth(e, u, w);
      SoloReach(e, u, w);
    }
  }

  /** What a list of contributors posts to one work is the sum of what each does. */
  lemma PostedSum(f: Id -> seq<Entry>, g: Id -> nat, users: seq<Id>, w: Id)
    requires forall u :: u in users ==> g(u) == AmountFor(f(u), w)
    ensures Get(Post(map[], Flat(f, users)), w) == SumOf(g, users)
  {
    FlatAmount(f, g, users, w);
    PostGet(map[], Flat(f, users), w);
  }

  /** Payouts and the burn of an epoch are the sums of the single-user runs. */
  lemma {:induction false} PayoutLocality(e: Epoch, w: Id)
    ensures Get(e.Settled().perWork, w) == SumOf(SoloCreditFn(e, w), e.Payers())
    ensures e.Settled().unallocated == SumOf(SoloBurnFn(e), e.Payers())
  {
    SoloAmounts(e, e.Payers(), w);
    PostedSum(e.CreditFn(), SoloCreditFn(e, w), e.Payers(), w);
    SumOfAgree(SoloBurnFn(e), e.BurnFn(), e.Payers());
  }

  /** So is the weighted usage of a work. */
  lemma {:induction false} DepthLocality(e: Epoch, w: Id)
    ensures Depth(e.Settled(), w) == SumOf(SoloDepthFn(e, w), e.Payers())
  {
    SoloSignals(e, e.Payers(), w);
    PostedSum(e.UsageFn(), SoloDepthFn(e, w), e.Payers(), w);
    DepthIsUsage(e, e.Payers(), w);
  }

  lemma {:induction false} AudienceOfUsed(e: Epoch, users: seq<Id>, w: Id)
    requires w !in e.Usage(users)
    ensures e.Audience(users, w) == {}
  {
    forall u | u in users ensures w !in Works(e.RowsOf(u)) {
      PostKeys(map[], e.AllUsage(users));
      FlatHas(e.UsageFn(), users, u);
      UsageIds(e.RowsOf(u));
    }
  }

  lemma {:induction false} FlatHas(f: Id -> seq<Entry>, users: seq<Id>, u: Id)
    requires u in users
    ensures IdsOf(f(u)) <= IdsOf(Flat(f, users))
  {
    var init, last := users[..|users| - 1], users[|users| - 1];
    if u != last { FlatHas(f, init, u); }
    var a, b := Flat(f, init), f(last);
    forall i | 0 <= i < |b| ensures b[i].id in IdsOf(a + b) { assert (a + b)[|a| + i] == b[i]; }
    forall i | 0 <= i < |a| ensures a[i].id in IdsOf(a + b) { assert (a + b)[i] == a[i]; }
  }

  /** And the audience of a work counts its listeners, each once. */
  lemma {:induction false} ReachLocality(e: Epoch, w: Id)
    ensures Reach(e.Settled(), w) == SumOf(SoloReachFn(e, w), e.Payers())
  {
    SoloSignals(e, e.Payers(), w);
    AudienceSize(e, e.Payers(), SoloReachFn(e, w), w);
    if w !in e.Usage(e.Payers()) { AudienceOfUsed(e, e.Payers(), w); }
  }

  lemma SameContributions(e: Epoch, f: Epoch, users: seq<Id>)
    requires e.fees == f.fees
    requires forall u :: u in users ==> e.RowsOf(u) == f.RowsOf(u)
    ensures e.AllCredits(users) == f.AllCredits(users)
    ensures e.AllUsage(users) == f.AllUsage(users)
    ensures e.Burned(users) == f.Burned(users)
  {
    FlatAgree(e.CreditFn(), f.CreditFn(), users);
    FlatAgree(e.UsageFn(), f.UsageFn(), users);
    SumOfAgree(e.BurnFn(), f.BurnFn(), users);
  }

  lemma SameRange(e: Epoch, f: Epoch, users: seq<Id>)
    requires e.fees == f.fees
    requires forall u :: u in users ==> e.RowsOf(u) == f.RowsOf(u)
    ensures e.FitsFor(users) == f.FitsFor(users)
  {
    SameContributions(e, f, users);
  }

  /** Only each payer's own row sequence matters: re-interleaving users' rows, or
      adding rows of users who paid nothing, changes neither success nor result. */
  lemma {:induction false} InterleavingIrrelevant(e: Epoch, f: Epoch)
    requires e.fees == f.fees
    requires forall u :: u in e.fees ==> e.RowsOf(u) == f.RowsOf(u)
    ensures e.InRange() == f.InRange()
    ensures e.Settled() == f.Settled()
  {
    SameRange(e, f, e.Payers());
    SameSettled(e, f, e.Payers());
  }

  lemma SameSettled(e: Epoch, f: Epoch, users: seq<Id>)
    requires e.fees == f.fees
    requires forall u :: u in users ==> e.RowsOf(u) == f.RowsOf(u)
    ensures e.Outcome(users) == f.Outcome(users)
  {
    SameContributions(e, f, users);
    SameAudience(e, f, users);
  }

  lemma SameAudience(e: Epoch, f: Epoch, users: seq<Id>)
    requires forall u :: u in users ==> e.RowsOf(u) == f.RowsOf(u)
    ensures forall w :: e.Audience(users, w) == f.Audience(users, w)
  {
  }

  // ----- totality ----------------------------------------------------------

  ghost function RawsOf(rows: seq<RawRow>): (r: seq<nat>)
    ensures |r| == |rows|
  {
    seq(|rows|, i requires 0 <= i < |rows| => rows[i].raw)
  }

  /** The raw weight a user's rows carry, and the same as a function of the user. */
  ghost function RawOf(rows: seq<RawRow>, u: Id): nat {
    if |rows| == 0 then 0
    else
      var n := |rows| - 1;
      RawOf(rows[..n], u) + (if u == rows[n].user then rows[n].raw else 0)
  }

  ghost function RawFn(rows: seq<RawRow>): Id -> nat { (u: Id) => RawOf(rows, u) }

  lemma {:induction false} RawTotalSnoc(gs: seq<Graded>, g: Graded)
    ensures RawTotal(gs + [g]) == RawTotal(gs) + g.row.raw
  {
    assert Raws(gs + [g]) == Raws(gs) + [g.row.raw];
    SumSnoc(Raws(gs), g.row.raw);
  }

  lemma {:induction false} RawOfUser(rows: seq<RawRow>, ppm: seq<nat>, u: Id)
    requires |rows| == |ppm|
    ensures RawTotal(UserRows(rows, ppm, u)) == RawOf(rows, u)
  {
    if |rows| > 0 {
      var n := |rows| - 1;
      RawOfUser(rows[..n], ppm[..n], u);
      RawTotalSnoc(UserRows(rows[..n], ppm[..n], u), Graded(rows[n], Min(ppm[n], PPM)));
      assert UserRows(rows[..n], ppm[..n], u) + [] == UserRows(rows[..n], ppm[..n], u);
    }
  }

  /** Distinct users partition the rows. */
  lemma {:induction false} UsersPartitionRaw(rows: seq<RawRow>, users: seq<Id>)
    requires forall i, j :: 0 <= i < j < |users| ==> users[i] != users[j]
    ensures SumOf(RawFn(rows), users) <= Sum(RawsOf(rows))
    decreases |rows|
  {
    if |rows| == 0 {
      SumOfZeroIff(RawFn(rows), users);
    } else {
      var n := |rows| - 1;
      UsersPartitionRaw(rows[..n], users);
      assert RawsOf(rows)[..n] == RawsOf(rows[..n]);
      SumOfBump(RawFn(rows[..n]), RawFn(rows), users, rows[n].user, rows[n].raw);
    }
  }

  ghost function UserCreds(e: Epoch): Id -> nat { (u: Id) => CredTotal(e.RowsOf(u)) }

  lemma UserCredsWithin(e: Epoch, u: Id)
    requires e.Paired()
    ensures UserCreds(e)(u) == Sum(Amounts(e.UsageFn()(u)))
    ensures UserCreds(e)(u) <= RawFn(e.rows)(u)
  {
    CredLeRaw(e.RowsOf(u));
    RawOfUser(e.rows, e.ppm, u);
    assert Amounts(e.UserUsage(u)) == Creds(e.RowsOf(u));
  }

  lemma {:induction false} UsageWithinRaw(e: Epoch, users: seq<Id>)
    requires e.Paired()
    ensures Sum(Amounts(e.AllUsage(users))) <= SumOf(RawFn(e.rows), users)
  {
    forall u ensures UserCreds(e)(u) == Sum(Amounts(e.UsageFn()(u))) && UserCreds(e)(u) <= RawFn(e.rows)(u) {
      UserCredsWithin(e, u);
    }
    FlatTotal(e.UsageFn(), UserCreds(e), users);
    SumOfMono(UserCreds(e), RawFn(e.rows), users);
  }

  ghost predicate ModestProducts(fee: nat, gs: seq<Graded>) {
    forall i :: 0 <= i < |gs| ==> fee * gs[i].row.raw < U128
  }

  lemma {:induction false} ModestUserFits(fee: nat, gs: seq<Graded>)
    requires Clamped(gs) && ModestProducts(fee, gs) && RawTotal(gs) < U128
    ensures UserFits(fee, gs)
  {
    assert Target(fee, gs) + Burn(fee, gs) == fee;
    forall i | 0 <= i < |gs| ensures Target(fee, gs) * Creds(gs)[i] < U128 {
      MulMono(Target(fee, gs), fee, Creds(gs)[i], gs[i].row.raw);
    }
  }

  /** With all weights and all fees summing below 2^128, and each `fee * raw`
      below it too, allocation never overflows. */
  lemma {:induction false} Totality(e: Epoch)
    requires e.Paired()
    requires Sum(RawsOf(e.rows)) < U128 && SumMap(e.fees) < U128
    requires forall u :: u in e.fees ==> ModestProducts(e.fees[u], e.RowsOf(u))
    ensures e.InRange()
  {
    var users := e.Payers();
    UsersPartitionRaw(e.rows, users);
    UsageWithinRaw(e, users);
    PostedWithin(e.AllUsage(users));
    CreditsAndBurns(e, users);
    FeesTotal(e);
    PostedWithin(e.AllCredits(users));
    forall u | u in users ensures UserFits(e.Fee(u), e.RowsOf(u)) {
      SumOfElement(RawFn(e.rows), users, u);
      RawOfUser(e.rows, e.ppm, u);
      ModestUserFits(e.Fee(u), e.RowsOf(u));
    }
  }

  // ----- only named works are credited -------------------------------------

  ghost predicate Named(rows: seq<RawRow>, w: Id) {
    exists i :: 0 <= i < |rows| && rows[i].work == w
  }

  lemma {:induction false} UserRowsNamed(rows: seq<RawRow>, ppm: seq<nat>, u: Id)
    requires |rows| == |ppm|
    ensures forall i :: 0 <= i < |UserRows(rows, ppm, u)| ==> Named(rows, UserRows(rows, ppm, u)[i].row.work)
  {
    if |rows| > 0 {
      var n := |rows| - 1;
      UserRowsNamed(rows[..n], ppm[..n], u);
      forall w | Named(rows[..n], w) ensures Named(rows, w) {
        var i :| 0 <= i < n && rows[..n][i].work == w;
        assert rows[i].work == w;
      }
      assert Named(rows, rows[n].work);
    }
  }

  ghost predicate AllNamed(rows: seq<RawRow>, es: seq<Entry>) {
    forall i :: 0 <= i < |es| ==> Named(rows, es[i].id)
  }

  lemma UserCreditsNamed(e: Epoch, u: Id)
    requires e.Paired()
    ensures AllNamed(e.rows, e.UserCredits(u))
  {
    UserRowsNamed(e.rows, e.ppm, u);
  }

  lemma {:induction false} CreditsNamed(e: Epoch, users: seq<Id>)
    requires e.Paired()
    ensures AllNamed(e.rows, e.AllCredits(users))
  {
    if |users| > 0 {
      var init, u := users[..|users| - 1], users[|users| - 1];
      CreditsNamed(e, init);
      UserCreditsNamed(e, u);
    }
  }

  /** Every credited work is named by some row. */
  lemma {:induction false} CreditedNamed(e: Epoch, w: Id)
    requires e.Paired() && w in e.Settled().perWork
    ensures Named(e.rows, w)
  {
    PostKeys(map[], e.AllCredits(e.Payers()));
    CreditsNamed(e, e.Payers());
  }
}
