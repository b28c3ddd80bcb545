/** Synthesising the whole usage circuit over an assignment, and the statement a
    satisfied circuit makes. */
module CircuitSynthesis {
  import opened Words
  import opened Field
  import opened UsageCircuit
  import opened Arithmetic
  import D = DiminishingReturns

  /** All the values a prover assigns. */
  datatype Assignment = Assignment(epoch: Fe, tier: Fe, k: Fe, rows: seq<Row>, advice: seq<Advice>)

  // ----- the statement -----------------------------------------------------

  /** The per-row outputs in digest order. */
  function Outputs(rows: seq<Row>): (r: seq<Fe>)
    ensures |r| == 3 * |rows|
  {
    if |rows| == 0 then []
    else
      var row := rows[|rows| - 1];
      Outputs(rows[..|rows| - 1]) + [row.pseudonym, row.work, row.weight]
  }

  function Preimage(epoch: Fe, tier: Fe, k: Fe, rows: seq<Row>): (r: seq<Fe>)
    ensures |r| == 3 + 3 * |rows|
  {
    [epoch, tier, k] + Outputs(rows)
  }

  lemma {:induction false} OutputsAt(rows: seq<Row>, i: nat)
    requires i < |rows|
    ensures Outputs(rows)[3 * i] == rows[i].pseudonym
    ensures Outputs(rows)[3 * i + 1] == rows[i].work
    ensures Outputs(rows)[3 * i + 2] == rows[i].weight
  {
    if i < |rows| - 1 { OutputsAt(rows[..|rows| - 1], i); }
  }

  /** Equal preimages of equally many rows agree row by row. */
  lemma {:induction false} PreimageInjective(e: Fe, t: Fe, k: Fe, rows: seq<Row>, f: Fe, u: Fe, l: Fe, sows: seq<Row>)
    requires |rows| == |sows| && Preimage(e, t, k, rows) == Preimage(f, u, l, sows)
    ensures e == f && t == u && k == l
    ensures forall i :: 0 <= i < |rows| ==>
      rows[i].pseudonym == sows[i].pseudonym && rows[i].work == sows[i].work && rows[i].weight == sows[i].weight
  {
    var p, q := Preimage(e, t, k, rows), Preimage(f, u, l, sows);
    assert p[0] == q[0] && p[1] == q[1] && p[2] == q[2];
    assert p[3..] == Outputs(rows) && q[3..] == Outputs(sows);
    forall i | 0 <= i < |rows|
      ensures rows[i].pseudonym == sows[i].pseudonym && rows[i].work == sows[i].work && rows[i].weight == sows[i].weight
    {
      OutputsAt(rows, i);
      OutputsAt(sows, i);
    }
  }

  predicate Clash(a: Row, b: Row) {
    a.active && b.active && a.work == b.work
  }

  /** No two active rows share a work. */
  predicate Unique(rows: seq<Row>) {
    forall i, j :: 0 <= i < j < |rows| ==> !Clash(rows[i], rows[j])
  }

  predicate RowsHold(h: Hash, k: Fe, rows: seq<Row>, advice: seq<Advice>)
    requires |rows| == |advice|
  {
    forall i :: 0 <= i < |rows| ==> RowHolds(h, k, rows[i], advice[i])
  }

  /** Every constraint of the circuit, on the public input `digest`. */
  predicate Holds(h: Hash, digest: Fe, a: Assignment) {
    && |a.rows| == |a.advice| == MAX_WORKS
    && RowsHold(h, a.k, a.rows, a.advice)
    && Unique(a.rows)
    && digest == h(Preimage(a.epoch, a.tier, a.k, a.rows))
  }

  /** What the circuit proves about a digest. */
  ghost predicate Attests(h: Hash, digest: Fe, epoch: Fe, tier: Fe, k: Fe, rows: seq<Row>) {
    && |rows| == MAX_WORKS
    && (forall i :: 0 <= i < |rows| ==> RowMeans(h, k, rows[i]))
    && Unique(rows)
    && digest == h(Preimage(epoch, tier, k, rows))
  }

  ghost predicate Provable(h: Hash, digest: Fe) {
    exists a :: Holds(h, digest, a)
  }

  function HonestAdvices(rows: seq<Row>): (r: seq<Advice>)
    ensures |r| == |rows|
  {
    seq(|rows|, i requires 0 <= i < |rows| => HonestAdvice(rows[i]))
  }

  lemma {:induction false} RowMeaning(h: Hash, k: Fe, row: Row, a: Advice)
    requires RowHolds(h, k, row, a)
    ensures RowMeans(h, k, row)
  {
    RowSatisfiableIff(h, k, row);
  }

  lemma {:induction false} MeaningfulRowHolds(h: Hash, k: Fe, row: Row)
    requires RowMeans(h, k, row)
    ensures RowHolds(h, k, row, HonestAdvice(row))
  {
    if row.active { ActiveComplete(h, k, row); }
  }

  /** Soundness and completeness of the whole circuit: a digest is provable
      exactly when it hashes sixteen rows that are honest, pairwise distinct
      openings or canonical padding under one epoch key. */
  lemma {:induction false} ProvableIff(h: Hash, digest: Fe)
    ensures Provable(h, digest) <==>
      exists epoch, tier, k, rows :: Attests(h, digest, epoch, tier, k, rows)
  {
    if a :| Holds(h, digest, a) {
      forall i | 0 <= i < |a.rows| ensures RowMeans(h, a.k, a.rows[i]) {
        RowMeaning(h, a.k, a.rows[i], a.advice[i]);
      }
      assert Attests(h, digest, a.epoch, a.tier, a.k, a.rows);
    }
    if epoch, tier, k, rows :| Attests(h, digest, epoch, tier, k, rows) {
      forall i | 0 <= i < |rows| ensures RowHolds(h, k, rows[i], HonestAdvices(rows)[i]) {
        MeaningfulRowHolds(h, k, rows[i]);
      }
      assert Holds(h, digest, Assignment(epoch, tier, k, rows, HonestAdvices(rows)));
    }
  }

  // ----- synthesis ---------------------------------------------------------

  /** The shared constraint system: whether everything pushed so far is satisfied. */
  class ConstraintSystem {
    var satisfied: bool

    constructor ()
      ensures satisfied
    {
      satisfied := true;
    }

    method Enforce(c: bool)
      modifies this
      ensures satisfied == (old(satisfied) && c)
    {
      satisfied := satisfied && c;
    }

    method EnforceEqualIf(a: Fe, b: Fe, guard: bool)
      modifies this
      ensures satisfied == (old(satisfied) && (guard ==> a == b))
    {
      Enforce(!guard || a == b);
    }

    method EnforceBitWidth(v: Fe, n: nat, guard: bool)
      requires n <= BITS
      modifies this
      ensures satisfied == (old(satisfied) && (guard ==> BitWidth(v, n)))
    {
      var low := Reduce(Recompose(BitsOf(v, BITS)[..n]));
      EnforceEqualIf(v, low, guard);
    }
  }

  /** `enforce_dr_weight`: three selector sums in one pass, then the division. */
  method EnforceDrWeight(cs: ConstraintSystem, row: Row, a: Advice)
    requires |a.selectors| == MAX_PLAYS
    modifies cs
    ensures cs.satisfied == (old(cs.satisfied) && (row.active ==> DrHolds(row, a)))
  {
    var table := BuildTable(K_PPM);
    var sumSel: Fe, sumIdx: Fe, d: Fe := 0, 0, 0;
    for i := 0 to MAX_PLAYS
      invariant sumSel == SumSel(a.selectors, i)
      invariant sumIdx == SumOver(a.selectors, Slots(), i)
      invariant d == SumOver(a.selectors, Table(K_PPM), i)
      invariant cs.satisfied == old(cs.satisfied) && table[..] == Table(K_PPM)
    {
      var s := Bit(a.selectors[i]);
      assert table[i] == Table(K_PPM)[i];
      sumSel := Add(sumSel, s);
      sumIdx := Add(sumIdx, Mul(s, Reduce(i)));
      d := Add(d, Mul(s, Reduce(table[i])));
    }
    cs.EnforceEqualIf(sumSel, 1, row.active);
    cs.EnforceEqualIf(sumIdx, Sub(row.plays, 1), row.active);
    var value := Mul(Mul(row.minutes, row.price), row.region);
    cs.EnforceEqualIf(Add(Mul(row.weight, PPM), a.remainder), Mul(value, d), row.active);
    cs.EnforceBitWidth(a.remainder, REMAINDER_BITS, row.active);
    cs.EnforceBitWidth(Sub(PPM - 1, a.remainder), REMAINDER_BITS, row.active);
  }

  /** `enforce_row`: active-only checks guarded one way, padding checks the other. */
  method EnforceRow(cs: ConstraintSystem, h: Hash, k: Fe, row: Row, a: Advice)
    requires |a.selectors| == MAX_PLAYS
    modifies cs
    ensures cs.satisfied == (old(cs.satisfied) && RowHolds(h, k, row, a))
  {
    var active := row.active;
    cs.EnforceEqualIf(row.commitment, Commitment(h, row.work, row.minutes, row.plays, row.salt), active);
    cs.EnforceBitWidth(row.minutes, MINUTES_BITS, active);
    cs.EnforceBitWidth(row.plays, PLAYS_BITS, active);
    cs.EnforceBitWidth(row.price, PPM_BITS, active);
    cs.EnforceBitWidth(row.region, PPM_BITS, active);
    cs.EnforceBitWidth(Sub(MAX_PLAYS, row.plays), PLAYS_BITS, active);
    cs.Enforce(!active || row.work != 0);
    EnforceDrWeight(cs, row, a);
    cs.EnforceBitWidth(row.weight, WEIGHT_BITS, active);
    cs.EnforceEqualIf(row.pseudonym, Pseudonym(h, k, row.commitment), active);
    cs.EnforceEqualIf(row.work, 0, !active);
    cs.EnforceEqualIf(row.weight, 0, !active);
    cs.EnforceEqualIf(row.commitment, PaddedCommitment(h), !active);
    cs.EnforceEqualIf(row.pseudonym, Pseudonym(h, k, PaddedCommitment(h)), !active);
  }

  /** The pairwise uniqueness pass. */
  method EnforceUnique(cs: ConstraintSystem, rows: seq<Row>)
    modifies cs
    ensures cs.satisfied == (old(cs.satisfied) && Unique(rows))
  {
    for i := 0 to |rows|
      invariant cs.satisfied == (old(cs.satisfied) &&
        forall a, b :: 0 <= a < i && a < b < |rows| ==> !Clash(rows[a], rows[b]))
    {
      for j := i + 1 to |rows|
        invariant cs.satisfied == (old(cs.satisfied) &&
          (forall a, b :: 0 <= a < i && a < b < |rows| ==> !Clash(rows[a], rows[b])) &&
          (forall b :: i < b < j ==> !Clash(rows[i], rows[b])))
      {
        cs.Enforce(!(rows[i].active && rows[j].active && rows[i].work == rows[j].work));
      }
    }
  }

  /** `generate_constraints`: exactly sixteen rows, or no circuit at all. */
  method GenerateConstraints(cs: ConstraintSystem, h: Hash, digest: Fe, a: Assignment) returns (shaped: bool)
    requires |a.advice| == |a.rows| && forall i :: 0 <= i < |a.advice| ==> |a.advice[i].selectors| == MAX_PLAYS
    modifies cs
    ensures shaped <==> |a.rows| == MAX_WORKS
    ensures shaped ==> cs.satisfied == (old(cs.satisfied) && Holds(h, digest, a))
    ensures !shaped ==> cs.satisfied == old(cs.satisfied)
  {
    if |a.rows| != MAX_WORKS {
      return false;
    }
    for i := 0 to |a.rows|
      invariant cs.satisfied == (old(cs.satisfied) &&
        forall j :: 0 <= j < i ==> RowHolds(h, a.k, a.rows[j], a.advice[j]))
    {
      EnforceRow(cs, h, a.k, a.rows[i], a.advice[i]);
    }
    EnforceUnique(cs, a.rows);
    label Bound:
    var inputs := [a.epoch, a.tier, a.k];
    for i := 0 to |a.rows|
      invariant inputs == Preimage(a.epoch, a.tier, a.k, a.rows[..i])
      invariant cs.satisfied == old@Bound(cs.satisfied)
    {
      var row := a.rows[i];
      assert a.rows[..i + 1][..i] == a.rows[..i];
      inputs := inputs + [row.pseudonym, row.work, row.weight];
    }
    assert a.rows[..|a.rows|] == a.rows;
    cs.Enforce(digest == h(inputs));
    return true;
  }

  // ----- the statement, constraint by constraint ---------------------------

  /** What an active row must open to, with every width and hash written out. */
  predicate ActiveMeans(h: Hash, k: Fe, row: Row) {
    && 1 <= row.plays <= 64
    && row.minutes < 0x1_0000_0000 && row.price < 0x100_0000_0000 && row.region < 0x100_0000_0000
    && row.work != 0
    && row.commitment == h([row.work, row.minutes, row.plays, row.salt])
    && row.pseudonym == h([k, row.commitment])
    && var scaled := Product(D.Value(row.minutes, row.price, row.region), D.Curve(row.plays, 1_000_000));
       row.weight * 1_000_000 <= scaled < (row.weight + 1) * 1_000_000
  }

  predicate InactiveMeans(h: Hash, k: Fe, row: Row) {
    && row.work == 0 && row.weight == 0
    && row.commitment == h([0, 0, 0, 0])
    && row.pseudonym == h([k, h([0, 0, 0, 0])])
  }

  lemma ScaledBracket(n: nat, w: nat)
    ensures w == Quot(n, PPM) <==> w * 1_000_000 <= n < (w + 1) * 1_000_000
  {
  }

  /** A row can be satisfied exactly when it is that. */
  lemma {:induction false} RowSatisfiableOutright(h: Hash, k: Fe, row: Row)
    ensures (exists a :: RowHolds(h, k, row, a)) <==>
      if row.active then ActiveMeans(h, k, row) else InactiveMeans(h, k, row)
  {
    RowSatisfiableIff(h, k, row);
    Pow2Widths();
    CappedWeightIs(row.minutes, row.plays, row.price, row.region);
    ScaledBracket(Product(D.Value(row.minutes, row.price, row.region), D.Curve(row.plays, K_PPM)), row.weight);
  }

  /** The digest's preimage: epoch, tier and key, then each row's outputs. */
  lemma {:induction false} PreimageLayout(epoch: Fe, tier: Fe, k: Fe, rows: seq<Row>, i: nat)
    requires i < |rows|
    ensures var p := Preimage(epoch, tier, k, rows);
            && |p| == 3 + 3 * |rows| && p[0] == epoch && p[1] == tier && p[2] == k
            && p[3 + 3 * i] == rows[i].pseudonym && p[4 + 3 * i] == rows[i].work && p[5 + 3 * i] == rows[i].weight
  {
    OutputsAt(rows, i);
  }
}
