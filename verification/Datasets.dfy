/** Opened usage: reducing listening rows to raw weights before allocation. */
module Datasets {
  import opened Words
  import opened Arithmetic
  import opened Ids
  import opened Ledgers
  import opened Allocation
  import opened AllocationLaws
  import D = DiminishingReturns

  datatype UsageRow = UsageRow(user: Id, work: Id, minutes: u64, pricePpm: u64, regionPpm: u64, plays: u64)

  datatype Dataset = Dataset(fees: map<Id, u128>, usage: seq<UsageRow>, bandwidth: map<Id, u64>)

  /** The undiminished value of a row. */
  function Value(row: UsageRow): nat {
    D.Value(row.minutes, row.pricePpm, row.regionPpm)
  }

  /** `value`: two checked products, which fail exactly when the whole leaves 128 bits. */
  method CheckedValue(row: UsageRow) returns (r: Option<u128>)
    ensures r == if Value(row) < U128 then Some(Value(row)) else None
  {
    var v: nat := row.minutes * row.pricePpm;
    MulMono(row.minutes, U64 - 1, row.pricePpm, U64 - 1);
    var whole: nat := v * row.regionPpm;
    return if whole < U128 then Some(whole) else None;
  }

  function Weight(row: UsageRow, k: nat): nat {
    D.Weight(row.minutes, row.plays, row.pricePpm, row.regionPpm, k)
  }

  lemma {:induction false} WeightLeValue(row: UsageRow, k: nat)
    ensures Weight(row, k) <= Value(row)
  {
    D.CurveBounds(row.plays, k);
    MulDivLe(Value(row), D.Curve(row.plays, k), PPM);
  }

  /** `bw_ppm`: neutral when absent, never above neutral. */
  function Bandwidth(bandwidth: map<Id, u64>, work: Id): (r: nat)
    ensures r <= PPM
  {
    if work in bandwidth then Min(bandwidth[work], PPM) else PPM
  }

  function PerRow(rows: seq<RawRow>, bandwidth: map<Id, u64>): (r: seq<nat>)
    ensures |r| == |rows|
  {
    seq(|rows|, i requires 0 <= i < |rows| => Bandwidth(bandwidth, rows[i].work))
  }

  predicate ValuesFit(d: Dataset) {
    forall i :: 0 <= i < |d.usage| ==> Value(d.usage[i]) < U128
  }

  /** The dataset as raw rows, in the same order. */
  function Reduce(d: Dataset, k: nat): (rows: seq<RawRow>)
    requires ValuesFit(d)
    ensures |rows| == |d.usage|
  {
    seq(|d.usage|, i requires 0 <= i < |d.usage| =>
      WeightLeValue(d.usage[i], k);
      RawRow(d.usage[i].user, d.usage[i].work, Weight(d.usage[i], k)))
  }

  ghost function AsEpoch(d: Dataset, k: nat): (e: Epoch)
    requires ValuesFit(d)
    ensures e.Paired()
  {
    Epoch(d.fees, Reduce(d, k), PerRow(Reduce(d, k), d.bandwidth))
  }

  /** `allocate_from_raw`: one credibility per row, looked up by work. */
  method AllocateFromRaw(fees: map<Id, u128>, rows: seq<RawRow>, bandwidth: map<Id, u64>)
    returns (r: Result<Payouts>)
    ensures var e := Epoch(fees, rows, PerRow(rows, bandwidth));
            r == if e.InRange() then Ok(e.Settled()) else Err(Overflow)
  {
    r := AllocateWithRowCredibility(Epoch(fees, rows, PerRow(rows, bandwidth)));
  }

  /** `allocate`: reduce every row, then allocate the raw weights. */
  method Allocate(d: Dataset, k: u64) returns (r: Result<Payouts>)
    ensures r == if ValuesFit(d) && AsEpoch(d, k).InRange() then Ok(AsEpoch(d, k).Settled()) else Err(Overflow)
  {
    var rows: seq<RawRow> := [];
    for i := 0 to |d.usage|
      invariant |rows| == i
      invariant forall j :: 0 <= j < i ==> Value(d.usage[j]) < U128
      invariant forall j :: 0 <= j < i ==>
        rows[j].user == d.usage[j].user && rows[j].work == d.usage[j].work && rows[j].raw == Weight(d.usage[j], k)
    {
      var row := d.usage[i];
      var value := CheckedValue(row);
      if value.None? {
        return Err(Overflow);
      }
      var dr := D.DPpm(row.plays, k);
      WeightLeValue(row, k);
      rows := rows + [RawRow(row.user, row.work, MulDiv(value.value, dr, PPM))];
    }
    assert rows == Reduce(d, k);
    r := AllocateFromRaw(d.fees, rows, d.bandwidth);
  }

  // ----- a user with one work ----------------------------------------------

  /** Every row of the user is on `w`, at neutral credibility. */
  predicate OnlyOn(gs: seq<Graded>, w: Id) {
    forall i :: 0 <= i < |gs| ==> gs[i].row.work == w && gs[i].ppm == PPM
  }

  lemma {:induction false} NeutralCreds(gs: seq<Graded>, w: Id)
    requires OnlyOn(gs, w)
    ensures Creds(gs) == Raws(gs)
  {
    forall i | 0 <= i < |gs| ensures Creds(gs)[i] == Raws(gs)[i] {
      DivExact(gs[i].row.raw, PPM);
    }
  }

  /** With all of a user's rows on one work at neutral credibility, and some
      weight among them, that work is credited the whole fee and nothing burns. */
  lemma {:induction false} WholeFeeToOneWork(fee: nat, gs: seq<Graded>, w: Id)
    requires Clamped(gs) && OnlyOn(gs, w) && RawTotal(gs) > 0
    ensures AmountFor(CreditEntries(fee, gs), w) == fee && Burn(fee, gs) == 0
  {
    NeutralCreds(gs, w);
    DivExact(fee, RawTotal(gs));
    UserCreditsTotal(fee, gs);
    AmountForOnly(CreditEntries(fee, gs), w);
  }

  /** The curve never drops below one hundred-thousandth, so a row worth at
      least 100000 always keeps a positive weight. */
  lemma {:induction false} WorthwhileRowWeighs(row: UsageRow, k: nat)
    requires Value(row) >= 100_000
    ensures Weight(row, k) >= 1
  {
    var d := D.Curve(row.plays, k);
    D.CurveBounds(row.plays, k);
    MulMono(100_000, Value(row), 10, d);
    DivMono(PPM, Value(row) * d, PPM);
  }

  lemma {:induction false} OwnRowCounts(rows: seq<RawRow>, ppm: seq<nat>, i: nat)
    requires |rows| == |ppm| && i < |rows|
    ensures rows[i].raw <= RawTotal(UserRows(rows, ppm, rows[i].user))
  {
    var n := |rows| - 1;
    var init := UserRows(rows[..n], ppm[..n], rows[i].user);
    RawTotalSnoc(init, Graded(rows[n], Min(ppm[n], PPM)));
    assert init + [] == init;
    if i < n { OwnRowCounts(rows[..n], ppm[..n], i); }
  }

  lemma {:induction false} UserRowsOn(rows: seq<RawRow>, ppm: seq<nat>, u: Id, w: Id)
    requires |rows| == |ppm|
    requires forall i :: 0 <= i < |rows| && rows[i].user == u ==> rows[i].work == w && ppm[i] == PPM
    ensures OnlyOn(UserRows(rows, ppm, u), w)
  {
    if |rows| > 0 {
      var n := |rows| - 1;
      UserRowsOn(rows[..n], ppm[..n], u, w);
    }
  }

  /** The curve's floor at work end to end: a paying user all of whose listening
      is on one fully credible work, with one row worth at least 100000, sends the
      whole fee to that work whatever the play counts and the curvature. */
  lemma {:induction false} LoyalListenerPaysInFull(d: Dataset, k: nat, u: Id, w: Id, i: nat)
    requires ValuesFit(d) && u in d.fees
    requires Bandwidth(d.bandwidth, w) == PPM
    requires forall j :: 0 <= j < |d.usage| && d.usage[j].user == u ==> d.usage[j].work == w
    requires i < |d.usage| && d.usage[i].user == u && Value(d.usage[i]) >= 100_000
    ensures AmountFor(AsEpoch(d, k).UserCredits(u), w) == d.fees[u]
    ensures AsEpoch(d, k).UserBurn(u) == 0
  {
    var e := AsEpoch(d, k);
    UserRowsOn(e.rows, e.ppm, u, w);
    WorthwhileRowWeighs(d.usage[i], k);
    OwnRowCounts(e.rows, e.ppm, i);
    WholeFeeToOneWork(e.Fee(u), e.RowsOf(u), w);
  }

  // ----- a dataset row outright --------------------------------------------

  /** What a row becomes: its own user and work, its minutes at its price, region and
      curve, floored; and the bandwidth listed for its work, neutral when none is or
      when more is listed. */
  lemma {:induction false} RowMeans(d: Dataset, k: nat, i: nat)
    requires ValuesFit(d) && i < |d.usage|
    ensures AsEpoch(d, k).fees == d.fees && |AsEpoch(d, k).rows| == |d.usage|
    ensures var row, raw := d.usage[i], AsEpoch(d, k).rows[i];
            && raw.user == row.user && raw.work == row.work
            && var n := ((row.minutes * row.pricePpm) * row.regionPpm) * D.Curve(row.plays, k);
               raw.raw * 1_000_000 <= n < (raw.raw + 1) * 1_000_000
    ensures var listed := d.bandwidth;
            var w := d.usage[i].work;
            && (w in listed && listed[w] <= 1_000_000 ==> AsEpoch(d, k).ppm[i] == listed[w])
            && ((w in listed && listed[w] > 1_000_000) || w !in listed ==> AsEpoch(d, k).ppm[i] == 1_000_000)
  {
    var row := d.usage[i];
    D.WeightMeans(row.minutes, row.plays, row.pricePpm, row.regionPpm, k);
  }
}
