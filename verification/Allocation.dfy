/** The DAPR payout core: turning tier fees and weighted usage rows into exact
    per-work credits, the burned remainder, and the reputation signal. */
module Allocation {
  import opened Words
  import opened Arithmetic
  import opened Sums
  import opened Ids
  import opened Ledgers
  import A = Apportionment

  datatype RawRow = RawRow(user: Id, work: Id, raw: u128)

  /** A row with its bandwidth credibility, clamped to neutral. */
  datatype Graded = Graded(row: RawRow, ppm: nat)

  datatype DaprError = Overflow | RowCredibilityLen

  datatype Result<+T> = Ok(value: T) | Err(error: DaprError)

  datatype Reputation = Reputation(distinctUsers: nat, weightedUsage: nat)

  datatype Payouts = Payouts(
    perWork: map<Id, nat>, unallocated: nat, reputation: map<Id, Reputation>)

  // ----- one user ----------------------------------------------------------

  /** `mul_div` on a clamped credibility; the quotient never leaves 128 bits. */
  function CredOf(g: Graded): (c: nat)
    ensures g.ppm <= PPM ==> c <= g.row.raw
  {
    if g.ppm <= PPM then MulDivLe(g.row.raw, g.ppm, PPM); MulDiv(g.row.raw, g.ppm, PPM)
    else MulDiv(g.row.raw, g.ppm, PPM)
  }

  function Creds(gs: seq<Graded>): (r: seq<nat>)
    ensures |r| == |gs|
  {
    seq(|gs|, i requires 0 <= i < |gs| => CredOf(gs[i]))
  }

  function Raws(gs: seq<Graded>): (r: seq<nat>)
    ensures |r| == |gs|
  {
    seq(|gs|, i requires 0 <= i < |gs| => gs[i].row.raw)
  }

  function Works(gs: seq<Graded>): (r: seq<Id>)
    ensures |r| == |gs|
  {
    seq(|gs|, i requires 0 <= i < |gs| => gs[i].row.work)
  }

  /** Credibility is at most neutral on every row. */
  predicate Clamped(gs: seq<Graded>) {
    forall i :: 0 <= i < |gs| ==> gs[i].ppm <= PPM
  }

  function RawTotal(gs: seq<Graded>): nat { Sum(Raws(gs)) }

  function CredTotal(gs: seq<Graded>): nat { Sum(Creds(gs)) }

  predicate Live(gs: seq<Graded>) { RawTotal(gs) > 0 && CredTotal(gs) > 0 }

  /** What the user's works are paid: the fee scaled by the credible share. */
  function Target(fee: nat, gs: seq<Graded>): nat {
    if Live(gs) then MulDiv(fee, CredTotal(gs), RawTotal(gs)) else 0
  }

  lemma {:induction false} CredLeRaw(gs: seq<Graded>)
    requires Clamped(gs)
    ensures CredTotal(gs) <= RawTotal(gs)
  {
    SumMono(Creds(gs), Raws(gs));
  }

  /** The shortfall burned into `unallocated` is never negative. */
  function Burn(fee: nat, gs: seq<Graded>): (b: nat)
    requires Clamped(gs)
    ensures b + Target(fee, gs) == fee
  {
    CredLeRaw(gs);
    if Live(gs) then
      MulDivLe(fee, CredTotal(gs), RawTotal(gs));
      fee - Target(fee, gs)
    else fee
  }

  ghost function Credits(fee: nat, gs: seq<Graded>): (r: seq<nat>)
    requires Live(gs)
    ensures |r| == |gs|
  {
    A.Shares(Target(fee, gs), Creds(gs), CredTotal(gs))
  }

  ghost function CreditEntries(fee: nat, gs: seq<Graded>): seq<Entry> {
    if Live(gs) then Entries(Works(gs), Credits(fee, gs)) else []
  }

  function UsageEntries(gs: seq<Graded>): (es: seq<Entry>)
    ensures |es| == |gs|
  {
    Entries(Works(gs), Creds(gs))
  }

  /** The user's apportionment stays within 128 bits. */
  ghost predicate UserFits(fee: nat, gs: seq<Graded>) {
    && RawTotal(gs) < U128
    && (Live(gs) ==> A.ProductsFit(Target(fee, gs), Creds(gs)))
  }

  // ----- one epoch ---------------------------------------------------------

  /** The rows of one user, in input order, with clamped credibilities. */
  function UserRows(rows: seq<RawRow>, ppm: seq<nat>, u: Id): (gs: seq<Graded>)
    requires |rows| == |ppm|
    ensures Clamped(gs)
    ensures forall i :: 0 <= i < |gs| ==> gs[i].row.user == u
  {
    if |rows| == 0 then []
    else
      var n := |rows| - 1;
      UserRows(rows[..n], ppm[..n], u)
      + (if rows[n].user == u then [Graded(rows[n], Min(ppm[n], PPM))] else [])
  }

  /** Who has touched each work. */
  function Listeners(m: map<Id, set<Id>>, w: Id): set<Id> {
    if w in m then m[w] else {}
  }

  datatype Epoch = Epoch(fees: map<Id, u128>, rows: seq<RawRow>, ppm: seq<nat>) {
    predicate Paired() { |rows| == |ppm| }

    function RowsOf(u: Id): (gs: seq<Graded>)
      ensures Clamped(gs)
    {
      if Paired() then UserRows(rows, ppm, u) else []
    }

    function Fee(u: Id): u128 { if u in fees then fees[u] else 0 }

    ghost function UserCredits(u: Id): seq<Entry> { CreditEntries(Fee(u), RowsOf(u)) }

    function UserUsage(u: Id): seq<Entry> { UsageEntries(RowsOf(u)) }

    function UserBurn(u: Id): nat { Burn(Fee(u), RowsOf(u)) }

    // The same, as functions of the user.
    ghost function CreditFn(): Id -> seq<Entry> { (u: Id) => UserCredits(u) }

    ghost function UsageFn(): Id -> seq<Entry> { (u: Id) => UserUsage(u) }

    ghost function BurnFn(): Id -> nat { (u: Id) => UserBurn(u) }

    /** Entries and burns of a list of users, in order. */
    ghost function AllCredits(users: seq<Id>): seq<Entry> { Flat(CreditFn(), users) }

    ghost function AllUsage(users: seq<Id>): seq<Entry> { Flat(UsageFn(), users) }

    ghost function Burned(users: seq<Id>): nat { SumOf(BurnFn(), users) }

    ghost function PerWork(users: seq<Id>): map<Id, nat> { Post(map[], AllCredits(users)) }

    ghost function Usage(users: seq<Id>): map<Id, nat> { Post(map[], AllUsage(users)) }

    ghost function Audience(users: seq<Id>, w: Id): set<Id> {
      set u | u in users && w in Works(RowsOf(u))
    }

    /** No checked operation exceeds 128 bits on behalf of these users. */
    ghost predicate FitsFor(users: seq<Id>) {
      && (forall u :: u in users ==> UserFits(Fee(u), RowsOf(u)))
      && Fits(PerWork(users))
      && Fits(Usage(users))
      && Burned(users) < U128
    }

    /** The result over unbounded integers. */
    ghost function Outcome(users: seq<Id>): Payouts {
      Payouts(
        PerWork(users),
        Burned(users),
        map w | w in Usage(users) :: Reputation(|Audience(users, w)|, Usage(users)[w]))
    }

    /** The paying users in the order the fee map iterates. */
    function Payers(): (users: seq<Id>)
      ensures forall u :: u in users <==> u in fees
      ensures forall i, j :: 0 <= i < j < |users| ==> users[i] != users[j]
    {
      SortedKeys(fees.Keys)
    }

    ghost predicate InRange() { FitsFor(Payers()) }

    ghost function Settled(): Payouts { Outcome(Payers()) }
  }

  // ----- the imperative pass -----------------------------------------------

  function Group(g: map<Id, seq<Graded>>, u: Id): seq<Graded> {
    if u in g then g[u] else []
  }

  ghost predicate Grouped(g: map<Id, seq<Graded>>, rows: seq<RawRow>, ppm: seq<nat>)
    requires |rows| == |ppm|
  {
    forall u :: Group(g, u) == UserRows(rows, ppm, u)
  }

  lemma UserRowsSnoc(rows: seq<RawRow>, ppm: seq<nat>, row: RawRow, c: nat, u: Id)
    requires |rows| == |ppm|
    ensures UserRows(rows + [row], ppm + [c], u)
         == UserRows(rows, ppm, u) + (if row.user == u then [Graded(row, Min(c, PPM))] else [])
  {
    assert (rows + [row])[..|rows|] == rows && (ppm + [c])[..|rows|] == ppm;
  }

  lemma GroupedStep(g: map<Id, seq<Graded>>, rows: seq<RawRow>, ppm: seq<nat>, row: RawRow, c: nat)
    requires |rows| == |ppm| && Grouped(g, rows, ppm)
    ensures Grouped(g[row.user := Group(g, row.user) + [Graded(row, Min(c, PPM))]], rows + [row], ppm + [c])
  {
    var h := g[row.user := Group(g, row.user) + [Graded(row, Min(c, PPM))]];
    forall u ensures Group(h, u) == UserRows(rows + [row], ppm + [c], u) {
      UserRowsSnoc(rows, ppm, row, c, u);
      assert Group(g, u) == UserRows(rows, ppm, u);
    }
  }

  /** Group rows by user, keeping each user's relative row order. */
  method GroupByUser(rows: seq<RawRow>, ppm: seq<nat>) returns (g: map<Id, seq<Graded>>)
    requires |rows| == |ppm|
    ensures Grouped(g, rows, ppm)
  {
    g := map[];
    for i := 0 to |rows|
      invariant Grouped(g, rows[..i], ppm[..i])
    {
      var row := rows[i];
      GroupedStep(g, rows[..i], ppm[..i], row, ppm[i]);
      g := g[row.user := Group(g, row.user) + [Graded(row, Min(ppm[i], PPM))]];
      assert rows[..i + 1] == rows[..i] + [row] && ppm[..i + 1] == ppm[..i] + [ppm[i]];
    }
    assert rows[..|rows|] == rows && ppm[..|rows|] == ppm;
  }

  /** The totals of one user's rows; fails when the raw total leaves 128 bits. */
  method UserTotals(gs: seq<Graded>) returns (ok: bool, creds: seq<u128>, rw: u128, sumCred: u128)
    requires Clamped(gs)
    ensures ok <==> RawTotal(gs) < U128
    ensures ok ==> creds == Creds(gs) && rw == RawTotal(gs) && sumCred == CredTotal(gs)
  {
    creds, rw, sumCred := [], 0, 0;
    for i := 0 to |gs|
      invariant creds == Creds(gs)[..i]
      invariant rw == Sum(Raws(gs)[..i]) && sumCred == Sum(creds) <= rw
    {
      SumPrefix(Raws(gs), i);
      SumSnoc(creds, CredOf(gs[i]));
      SumPrefixLe(Raws(gs), i + 1);
      if rw + gs[i].row.raw >= U128 {
        return false, [], 0, 0;
      }
      rw := rw + gs[i].row.raw;
      sumCred := sumCred + CredOf(gs[i]);
      creds := creds + [CredOf(gs[i])];
    }
    assert Creds(gs)[..|gs|] == Creds(gs) && Raws(gs)[..|gs|] == Raws(gs);
    ok := true;
  }

  /** Note `u` as a listener of every work in `gs`. */
  method NoteListener(m: map<Id, set<Id>>, u: Id, gs: seq<Graded>) returns (r: map<Id, set<Id>>)
    ensures forall w :: Listeners(r, w) == Listeners(m, w) + (if w in Works(gs) then {u} else {})
  {
    r := m;
    for i := 0 to |gs|
      invariant forall w :: Listeners(r, w) == Listeners(m, w) + (if w in Works(gs)[..i] then {u} else {})
    {
      var w := gs[i].row.work;
      ghost var before := r;
      r := r[w := Listeners(r, w) + {u}];
      assert Works(gs)[..i + 1] == Works(gs)[..i] + [w];
      assert forall v :: Listeners(r, v) == if v == w then Listeners(before, v) + {u} else Listeners(before, v);
    }
    assert Works(gs)[..|gs|] == Works(gs);
  }

  /** The amounts that stand beside rows on `w`. */
  function On(gs: seq<Graded>, amounts: seq<nat>, w: Id): nat
    requires |amounts| == |gs|
  {
    if |gs| == 0 then 0
    else
      var n := |gs| - 1;
      On(gs[..n], amounts[..n], w) + (if gs[n].row.work == w then amounts[n] else 0)
  }

  lemma {:induction false} EntriesOn(gs: seq<Graded>, amounts: seq<nat>, w: Id)
    requires |amounts| == |gs|
    ensures AmountFor(Entries(Works(gs), amounts), w) == On(gs, amounts, w)
  {
    if |gs| > 0 {
      var n := |gs| - 1;
      EntriesOn(gs[..n], amounts[..n], w);
      assert Entries(Works(gs), amounts)[..n] == Entries(Works(gs[..n]), amounts[..n]);
    }
  }

  /** Posting a live user's credits adds to each work the shares of the rows on it. */
  lemma CreditsPosted(fee: nat, gs: seq<Graded>, perWork: map<Id, nat>)
    requires Live(gs)
    ensures forall w :: Get(Post(perWork, CreditEntries(fee, gs)), w) == Get(perWork, w) + On(gs, Credits(fee, gs), w)
  {
    forall w ensures Get(Post(perWork, CreditEntries(fee, gs)), w) == Get(perWork, w) + On(gs, Credits(fee, gs), w) {
      PostGet(perWork, CreditEntries(fee, gs), w);
      EntriesOn(gs, Credits(fee, gs), w);
    }
  }

  /** One user's share of the fee, posted; fails when a product or total leaves 128 bits. */
  method PayUser(fee: u128, gs: seq<Graded>, creds: seq<u128>, rw: u128, sumCred: u128, perWork: map<Id, nat>)
    returns (r: Option<map<Id, nat>>)
    requires Clamped(gs) && creds == Creds(gs) && rw == RawTotal(gs) && sumCred == CredTotal(gs)
    requires Live(gs) && Fits(perWork)
    ensures r == if UserFits(fee, gs) && Fits(Post(perWork, CreditEntries(fee, gs)))
                 then Some(Post(perWork, CreditEntries(fee, gs))) else None
    ensures r.Some? ==> forall w :: Get(r.value, w) == Get(perWork, w) + On(gs, Credits(fee, gs), w)
  {
    CreditsPosted(fee, gs, perWork);
    CredLeRaw(gs);
    MulDivLe(fee, sumCred, rw);
    var shares := A.Apportion(MulDiv(fee, sumCred, rw), creds, sumCred);
    if shares.None? {
      return None;
    }
    r := CheckedPost(perWork, Entries(Works(gs), shares.value));
  }

  /** Passing for more users implies passing for fewer. */
  lemma {:induction false} FitsForPrefix(e: Epoch, users: seq<Id>, k: nat)
    requires k <= |users| && e.FitsFor(users)
    ensures e.FitsFor(users[..k])
  {
    FlatFitsPrefix(e.CreditFn(), users, k);
    FlatFitsPrefix(e.UsageFn(), users, k);
    SumOfPrefix(e.BurnFn(), users, k);
  }

  lemma FitsForWhole(e: Epoch, users: seq<Id>, k: nat)
    requires k <= |users| && !e.FitsFor(users[..k])
    ensures !e.FitsFor(users)
  {
    if e.FitsFor(users) { FitsForPrefix(e, users, k); }
  }

  // ----- the running tallies -----------------------------------------------

  datatype Tally = Tally(
    perWork: map<Id, nat>, unallocated: nat, usage: map<Id, nat>, listeners: map<Id, set<Id>>)

  /** The accumulators hold exactly what the given users contribute. */
  ghost predicate Tallies(e: Epoch, users: seq<Id>, t: Tally) {
    && t.perWork == e.PerWork(users)
    && t.usage == e.Usage(users)
    && t.unallocated == e.Burned(users)
    && forall w :: Listeners(t.listeners, w) == e.Audience(users, w)
  }

  lemma {:induction false} PrefixStep(e: Epoch, users: seq<Id>, u: Id)
    ensures e.PerWork(users + [u]) == Post(e.PerWork(users), e.UserCredits(u))
    ensures e.Usage(users + [u]) == Post(e.Usage(users), e.UserUsage(u))
    ensures e.Burned(users + [u]) == e.Burned(users) + e.UserBurn(u)
  {
    SumOfSnoc(e.BurnFn(), users, u);
    PostConcat(map[], e.AllCredits(users), e.UserCredits(u));
    PostConcat(map[], e.AllUsage(users), e.UserUsage(u));
  }

  lemma FitsForStep(e: Epoch, users: seq<Id>, u: Id)
    requires e.FitsFor(users)
    ensures e.FitsFor(users + [u]) <==>
      && UserFits(e.Fee(u), e.RowsOf(u))
      && Fits(Post(e.PerWork(users), e.UserCredits(u)))
      && Fits(Post(e.Usage(users), e.UserUsage(u)))
      && e.Burned(users) + e.UserBurn(u) < U128
  {
    PrefixStep(e, users, u);
    assert u in users + [u];
  }

  /** The body of the per-user loop, with every checked operation. */
  method UserMoney(fee: u128, gs: seq<Graded>, t: Tally) returns (r: Option<Tally>)
    requires Clamped(gs) && Fits(t.perWork) && Fits(t.usage)
    ensures r.Some? <==>
      && UserFits(fee, gs)
      && Fits(Post(t.perWork, CreditEntries(fee, gs)))
      && Fits(Post(t.usage, UsageEntries(gs)))
      && t.unallocated + Burn(fee, gs) < U128
    ensures r.Some? ==> r.value == t.(
      perWork := Post(t.perWork, CreditEntries(fee, gs)),
      unallocated := t.unallocated + Burn(fee, gs),
      usage := Post(t.usage, UsageEntries(gs)))
  {
    var ok, creds, rw, sumCred := UserTotals(gs);
    if !ok {
      return None;
    }
    var usage := CheckedPost(t.usage, Entries(Works(gs), creds));
    if usage.None? {
      return None;
    }
    if rw == 0 || sumCred == 0 {
      if t.unallocated + fee >= U128 {
        return None;
      }
      return Some(t.(unallocated := t.unallocated + fee, usage := usage.value));
    }
    var burn := Burn(fee, gs);
    if t.unallocated + burn >= U128 {
      return None;
    }
    var paid := PayUser(fee, gs, creds, rw, sumCred, t.perWork);
    if paid.None? {
      return None;
    }
    return Some(t.(perWork := paid.value, unallocated := t.unallocated + burn, usage := usage.value));
  }

  lemma AudienceStep(e: Epoch, users: seq<Id>, u: Id, w: Id)
    ensures e.Audience(users + [u], w) == e.Audience(users, w) + (if w in Works(e.RowsOf(u)) then {u} else {})
  {
  }

  /** The first `k` users have been tallied without exceeding any bound. */
  ghost predicate Running(e: Epoch, users: seq<Id>, k: nat, t: Tally)
    requires k <= |users|
  {
    e.FitsFor(users[..k]) && Tallies(e, users[..k], t)
  }

  /** How the next user moves every total, and when the bounds still hold. */
  lemma NextUser(e: Epoch, users: seq<Id>, k: nat)
    requires k < |users| && e.FitsFor(users[..k])
    ensures e.PerWork(users[..k + 1]) == Post(e.PerWork(users[..k]), e.UserCredits(users[k]))
    ensures e.Usage(users[..k + 1]) == Post(e.Usage(users[..k]), e.UserUsage(users[k]))
    ensures e.Burned(users[..k + 1]) == e.Burned(users[..k]) + e.UserBurn(users[k])
    ensures e.FitsFor(users[..k + 1]) <==>
      && UserFits(e.Fee(users[k]), e.RowsOf(users[k]))
      && Fits(Post(e.PerWork(users[..k]), e.UserCredits(users[k])))
      && Fits(Post(e.Usage(users[..k]), e.UserUsage(users[k])))
      && e.Burned(users[..k]) + e.UserBurn(users[k]) < U128
  {
    assert users[..k + 1] == users[..k] + [users[k]];
    FitsForStep(e, users[..k], users[k]);
    PrefixStep(e, users[..k], users[k]);
  }

  /** One more user. */
  method UserStep(ghost e: Epoch, users: seq<Id>, k: nat, fee: u128, gs: seq<Graded>, t: Tally)
    returns (r: Option<Tally>)
    requires k < |users| && fee == e.Fee(users[k]) && gs == e.RowsOf(users[k])
    requires Running(e, users, k, t)
    ensures r.Some? <==> e.FitsFor(users[..k + 1])
    ensures r.Some? ==> Running(e, users, k + 1, r.value)
  {
    NextUser(e, users, k);
    r := UserMoney(fee, gs, t);
    if r.Some? {
      var listeners := NoteListener(t.listeners, users[k], gs);
      forall w ensures Listeners(listeners, w) == e.Audience(users[..k + 1], w) {
      }
      r := Some(r.value.(listeners := listeners));
    }
  }

  /** The whole list of users, one step at a time. */
  method TallyUsers(e: Epoch, users: seq<Id>) returns (r: Option<Tally>)
    requires e.Paired() && forall u :: u in users ==> u in e.fees
    ensures r.Some? <==> e.FitsFor(users)
    ensures r.Some? ==> Tallies(e, users, r.value)
  {
    var byUser := GroupByUser(e.rows, e.ppm);
    var t := Tally(map[], 0, map[], map[]);
    for k := 0 to |users|
      invariant Running(e, users, k, t)
    {
      var u := users[k];
      var step := UserStep(e, users, k, e.fees[u], Group(byUser, u), t);
      if step.None? {
        FitsForWhole(e, users, k + 1);
        return None;
      }
      t := step.value;
    }
    assert users[..|users|] == users;
    return Some(t);
  }

  lemma OutcomeOfTally(e: Epoch, users: seq<Id>, t: Tally)
    requires Tallies(e, users, t)
    ensures Payouts(t.perWork, t.unallocated, Reputations(t)) == e.Outcome(users)
  {
    assert Reputations(t) == e.Outcome(users).reputation;
  }

  /** `allocate_from_raw_with_row_credibility`: the checked pass agrees with the
      unbounded outcome and fails exactly when a bound is exceeded. */
  method AllocateWithRowCredibility(e: Epoch) returns (r: Result<Payouts>)
    ensures !e.Paired() ==> r == Err(RowCredibilityLen)
    ensures e.Paired() ==> r == if e.InRange() then Ok(e.Settled()) else Err(Overflow)
  {
    if |e.ppm| != |e.rows| {
      return Err(RowCredibilityLen);
    }
    var t := TallyUsers(e, e.Payers());
    if t.None? {
      return Err(Overflow);
    }
    OutcomeOfTally(e, e.Payers(), t.value);
    return Ok(Payouts(t.value.perWork, t.value.unallocated, Reputations(t.value)));
  }

  function Reputations(t: Tally): map<Id, Reputation> {
    map w | w in t.usage :: Reputation(|Listeners(t.listeners, w)|, t.usage[w])
  }
}
