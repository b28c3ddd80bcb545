/** Event-mode settlement: re-checking each submission's digest, paying the proven
    weights, and the trust chain from payouts back to in-range openings. */
module EventMode {
  import opened Words
  import opened Ids
  import opened HexText
  import opened Field
  import opened UsageCircuit
  import opened Prover
  import opened Allocation
  import C = Consumption

  datatype IntakeError = WeightTooWide | TooManyRows | FeeUnreadable

  /** What the accepted submissions contribute. */
  datatype Intake = Intake(fees: map<Id, u128>, rows: seq<RawRow>)

  type Outcome = Fallible<Intake, IntakeError>

  /** The chain reads of one settlement run. */
  datatype Reads = Reads(h: Hash, epoch: u64, k: Bytes32, feeOf: Bytes32 -> Option<u256>)

  // ----- one submission ----------------------------------------------------

  predicate Aligned(ev: C.Event) {
    |ev.pseudonyms| == |ev.works| == |ev.weights|
  }

  predicate WeightsFit(ev: C.Event) {
    forall i :: 0 <= i < |ev.weights| ==> ev.weights[i] < U128
  }

  /** The public rows of an event; the commitment is not hashed. */
  function ActiveRows(ev: C.Event): (r: seq<PublicRow>)
    requires Aligned(ev) && WeightsFit(ev)
    ensures |r| == |ev.works|
  {
    seq(|ev.works|, i requires 0 <= i < |ev.works| => PublicRow(ev.works[i], 0, ev.pseudonyms[i], ev.weights[i]))
  }

  function PaidRows(ev: C.Event): (r: seq<RawRow>)
    requires Aligned(ev) && WeightsFit(ev)
    ensures |r| == |ev.works|
  {
    seq(|ev.works|, i requires 0 <= i < |ev.works| => RawRow(ev.user, Format(ev.works[i]), ev.weights[i]))
  }

  function ExpectedDigest(rd: Reads, ev: C.Event): u256
    requires Aligned(ev) && WeightsFit(ev) && |ev.works| <= MAX_WORKS
  {
    NativeDigest(rd.h, rd.epoch, ev.tier, rd.k, Padded(rd.h, rd.k, ActiveRows(ev)))
  }

  function FeeIn(rd: Reads, tier: u256): Option<u128> {
    match rd.feeOf(tier)
    case None => None
    case Some(fee) => if fee < U128 then Some(fee) else None
  }

  /** One pass of the loop: misaligned or mismatching submissions are skipped,
      unreadable values abort the run. */
  function Ingest1(rd: Reads, s: Intake, ev: C.Event): Outcome {
    if !Aligned(ev) then Done(s)
    else if !WeightsFit(ev) then Failed(WeightTooWide)
    else if |ev.works| > MAX_WORKS then Failed(TooManyRows)
    else if ExpectedDigest(rd, ev) != ev.digest then Done(s)
    else match FeeIn(rd, ev.tier)
      case None => Failed(FeeUnreadable)
      case Some(fee) => Done(Intake(s.fees[ev.user := fee], s.rows + PaidRows(ev)))
  }

  function Ingest(rd: Reads, log: seq<C.Event>): Outcome {
    if |log| == 0 then Done(Intake(map[], []))
    else match Ingest(rd, log[..|log| - 1])
      case Failed(e) => Failed(e)
      case Done(s) => Ingest1(rd, s, log[|log| - 1])
  }

  lemma {:induction false} AbortPersists(rd: Reads, log: seq<C.Event>, i: nat)
    requires i <= |log| && Ingest(rd, log[..i]).Failed?
    ensures Ingest(rd, log) == Ingest(rd, log[..i])
    decreases |log| - i
  {
    if i == |log| {
      assert log[..i] == log;
    } else {
      assert log[..i + 1][..i] == log[..i];
      AbortPersists(rd, log, i + 1);
    }
  }

  /** The active rows, built one at a time. */
  method CollectActive(ev: C.Event) returns (active: Option<seq<PublicRow>>)
    requires Aligned(ev)
    ensures active == if WeightsFit(ev) then Some(ActiveRows(ev)) else None
  {
    var rows: seq<PublicRow> := [];
    for i := 0 to |ev.works|
      invariant forall j :: 0 <= j < i ==> ev.weights[j] < U128
      invariant |rows| == i
      invariant forall j :: 0 <= j < i ==> rows[j] == PublicRow(ev.works[j], 0, ev.pseudonyms[j], ev.weights[j])
    {
      if ev.weights[i] >= U128 {
        return None;
      }
      rows := rows + [PublicRow(ev.works[i], 0, ev.pseudonyms[i], ev.weights[i])];
    }
    assert WeightsFit(ev) && rows == ActiveRows(ev);
    return Some(rows);
  }

  method CollectPaid(user: Id, active: seq<PublicRow>) returns (rows: seq<RawRow>)
    ensures |rows| == |active|
    ensures forall i :: 0 <= i < |rows| ==> rows[i] == RawRow(user, Format(active[i].work), active[i].weight)
  {
    rows := [];
    for i := 0 to |active|
      invariant |rows| == i
      invariant forall j :: 0 <= j < i ==> rows[j] == RawRow(user, Format(active[j].work), active[j].weight)
    {
      rows := rows + [RawRow(user, Format(active[i].work), active[i].weight)];
    }
  }

  /** The body of the loop. */
  method AcceptOne(rd: Reads, s: Intake, ev: C.Event) returns (r: Outcome)
    ensures r == Ingest1(rd, s, ev)
  {
    if !Aligned(ev) {
      return Done(s);
    }
    var active := CollectActive(ev);
    if active.None? {
      return Failed(WeightTooWide);
    }
    var expected := DigestFromActive(rd.h, rd.epoch, ev.tier, rd.k, active.value);
    if expected.Failed? {
      return Failed(TooManyRows);
    }
    if expected.value != ev.digest {
      return Done(s);
    }
    var fee := FeeIn(rd, ev.tier);
    if fee.None? {
      return Failed(FeeUnreadable);
    }
    var paid := CollectPaid(ev.user, active.value);
    assert paid == PaidRows(ev);
    return Done(Intake(s.fees[ev.user := fee.value], s.rows + paid));
  }

  /** The acceptance loop of `run_events`. */
  method AcceptSubmissions(rd: Reads, log: seq<C.Event>) returns (r: Outcome)
    ensures r == Ingest(rd, log)
  {
    var s := Intake(map[], []);
    for i := 0 to |log|
      invariant Ingest(rd, log[..i]) == Done(s)
    {
      AbortsAt(rd, log, i);
      var step := AcceptOne(rd, s, log[i]);
      if step.Failed? {
        return step;
      }
      s := step.value;
    }
    assert log[..|log|] == log;
    return Done(s);
  }

  lemma AbortsAt(rd: Reads, log: seq<C.Event>, i: nat)
    requires i < |log| && Ingest(rd, log[..i]).Done?
    ensures var step := Ingest1(rd, Ingest(rd, log[..i]).value, log[i]);
            && Ingest(rd, log[..i + 1]) == step
            && (step.Failed? ==> Ingest(rd, log) == step)
  {
    assert log[..i + 1][..i] == log[..i];
    if Ingest(rd, log[..i + 1]).Failed? { AbortPersists(rd, log, i + 1); }
  }

  // ----- when intake completes, and what it then holds ---------------------

  /** The submission passes every check of the loop. */
  predicate Passes(rd: Reads, ev: C.Event) {
    Aligned(ev) && WeightsFit(ev) && |ev.works| <= MAX_WORKS && ExpectedDigest(rd, ev) == ev.digest
  }

  /** What every submission must satisfy for the run to go on: a misaligned one is
      skipped unread, any other must be readable, and a passing one needs its fee. */
  predicate Tolerable(rd: Reads, ev: C.Event) {
    Aligned(ev) ==>
      && WeightsFit(ev) && |ev.works| <= 16
      && (ExpectedDigest(rd, ev) == ev.digest ==> rd.feeOf(ev.tier).Some? && rd.feeOf(ev.tier).value < U128)
  }

  /** Intake completes exactly when every submission of the epoch is tolerable. */
  lemma {:induction false} IngestDoneIff(rd: Reads, log: seq<C.Event>)
    ensures Ingest(rd, log).Done? <==> forall i :: 0 <= i < |log| ==> Tolerable(rd, log[i])
  {
    if |log| > 0 {
      var init, last := log[..|log| - 1], log[|log| - 1];
      IngestDoneIff(rd, init);
      assert (forall i :: 0 <= i < |log| ==> Tolerable(rd, log[i])) <==>
        (forall i :: 0 <= i < |init| ==> Tolerable(rd, init[i])) && Tolerable(rd, last);
    }
  }

  /** Why a submission ends the run. */
  predicate Stops(rd: Reads, ev: C.Event, e: IntakeError) {
    && Aligned(ev)
    && (if exists i :: 0 <= i < |ev.weights| && ev.weights[i] >= 0x1_0000_0000_0000_0000_0000_0000_0000_0000
        then e == WeightTooWide
        else if |ev.works| > 16 then e == TooManyRows
        else ExpectedDigest(rd, ev) == ev.digest && e == FeeUnreadable
             && (rd.feeOf(ev.tier).None?
                 || rd.feeOf(ev.tier).value >= 0x1_0000_0000_0000_0000_0000_0000_0000_0000))
  }

  /** A failed intake stopped at its first intolerable submission, for that one's reason. */
  lemma {:induction false} IntakeStopsAt(rd: Reads, log: seq<C.Event>) returns (i: nat)
    requires Ingest(rd, log).Failed?
    ensures i < |log| && Stops(rd, log[i], Ingest(rd, log).error)
    ensures forall j :: 0 <= j < i ==> Tolerable(rd, log[j])
  {
    if |log| == 0 {
      assert false;
    } else {
      var init := log[..|log| - 1];
      if Ingest(rd, init).Failed? {
        i := IntakeStopsAt(rd, init);
      } else {
        i := |log| - 1;
        IngestDoneIff(rd, init);
        assert forall j :: 0 <= j < i ==> log[j] == init[j];
      }
    }
  }

  /** One submission with more than sixteen works, or with a weight of 2^128 or
      more, ends the run for everyone, whatever its digest and wherever it stands. */
  lemma {:induction false} OneSubmissionCanAbort(rd: Reads, log: seq<C.Event>, i: nat)
    requires i < |log| && Aligned(log[i]) && (|log[i].works| > MAX_WORKS || !WeightsFit(log[i]))
    ensures Ingest(rd, log).Failed?
  {
    IngestDoneIff(rd, log);
    assert !Tolerable(rd, log[i]);
  }

  /** The contract does log such a submission: it checks only that the arrays are
      nonempty and of equal length. Whatever is called before or after, the epoch's
      intake then fails. */
  lemma {:induction false} OversizedCallAborts(
      v: C.Verifier, calls: seq<C.Call>, call: C.Call, rest: seq<C.Call>, rd: Reads)
    requires C.Check(v, C.Run(v, calls), call).None? && C.EpochAt(call.time) == rd.epoch
    requires |call.works| > MAX_WORKS
    ensures Ingest(rd, C.EpochLog(C.Run(v, calls + [call] + rest).log, rd.epoch)).Failed?
  {
    var log := C.EpochLog(C.Run(v, calls + [call] + rest).log, rd.epoch);
    C.LoggedForGood(v, calls, call, rest);
    assert C.EventOf(call) in log;
    var i :| 0 <= i < |log| && log[i] == C.EventOf(call);
    OneSubmissionCanAbort(rd, log, i);
  }

  /** The rows of one user, in order. */
  function RowsBy(rows: seq<RawRow>, u: Id): seq<RawRow> {
    if |rows| == 0 then []
    else
      var last := rows[|rows| - 1];
      RowsBy(rows[..|rows| - 1], u) + (if last.user == u then [last] else [])
  }

  lemma {:induction false} RowsByConcat(a: seq<RawRow>, b: seq<RawRow>, u: Id)
    ensures RowsBy(a + b, u) == RowsBy(a, u) + RowsBy(b, u)
    decreases |b|
  {
    if |b| == 0 {
      assert a + b == a;
    } else {
      RowsByConcat(a, b[..|b| - 1], u);
      assert (a + b)[..|a + b| - 1] == a + b[..|b| - 1];
    }
  }

  lemma {:induction false} RowsByOne(rows: seq<RawRow>, v: Id, u: Id)
    requires forall i :: 0 <= i < |rows| ==> rows[i].user == v
    ensures RowsBy(rows, u) == if u == v then rows else []
  {
    if |rows| > 0 {
      var init, last := rows[..|rows| - 1], rows[|rows| - 1];
      RowsByOne(init, v, u);
      assert last.user == v && rows == init + [last];
    }
  }

  /** The intake holds this submission's fee, and for its user its rows and no others. */
  ghost predicate Recorded(rd: Reads, s: Intake, ev: C.Event)
    requires Passes(rd, ev)
  {
    && ev.user in s.fees && rd.feeOf(ev.tier).Some? && s.fees[ev.user] == rd.feeOf(ev.tier).value
    && RowsBy(s.rows, ev.user) == PaidRows(ev)
  }

  ghost predicate HasPassed(rd: Reads, log: seq<C.Event>, u: Id) {
    exists ev :: ev in log && ev.user == u && Passes(rd, ev)
  }

  /** What one more submission does to the rows of a user. */
  lemma RowsAfter(rd: Reads, log: seq<C.Event>, u: Id)
    requires |log| > 0 && Ingest(rd, log).Done?
    ensures var init, ev := log[..|log| - 1], log[|log| - 1];
            Ingest(rd, init).Done? &&
            RowsBy(Ingest(rd, log).value.rows, u)
            == RowsBy(Ingest(rd, init).value.rows, u) + (if Passes(rd, ev) && ev.user == u then PaidRows(ev) else [])
  {
    var ev := log[|log| - 1];
    if Passes(rd, ev) {
      RowsByConcat(Ingest(rd, log[..|log| - 1]).value.rows, PaidRows(ev), u);
      RowsByOne(PaidRows(ev), ev.user, u);
    }
  }

  /** For this user, the intake holds exactly what passed. */
  ghost predicate ExactFor(rd: Reads, log: seq<C.Event>, s: Intake, u: Id) {
    && (forall ev :: ev in log && ev.user == u && Passes(rd, ev) ==> Recorded(rd, s, ev))
    && (!HasPassed(rd, log, u) ==> u !in s.fees && RowsBy(s.rows, u) == [])
  }

  lemma ExactOtherUser(rd: Reads, log: seq<C.Event>, u: Id)
    requires |log| > 0 && Ingest(rd, log).Done? && log[|log| - 1].user != u
    requires var init := log[..|log| - 1]; Ingest(rd, init).Done? && ExactFor(rd, init, Ingest(rd, init).value, u)
    ensures ExactFor(rd, log, Ingest(rd, log).value, u)
  {
    var init := log[..|log| - 1];
    RowsAfter(rd, log, u);
  }

  lemma ExactLastUser(rd: Reads, log: seq<C.Event>)
    requires |log| > 0 && Ingest(rd, log).Done? && C.UsersDistinct(log)
    requires var init, u := log[..|log| - 1], log[|log| - 1].user;
             Ingest(rd, init).Done? && ExactFor(rd, init, Ingest(rd, init).value, u)
    ensures ExactFor(rd, log, Ingest(rd, log).value, log[|log| - 1].user)
  {
    var last := log[|log| - 1];
    LastRecorded(rd, log);
    if Passes(rd, last) { assert last in log && HasPassed(rd, log, last.user); }
  }

  lemma LastRecorded(rd: Reads, log: seq<C.Event>)
    requires |log| > 0 && Ingest(rd, log).Done?
    requires var init, u := log[..|log| - 1], log[|log| - 1].user;
             Ingest(rd, init).Done? && u !in Ingest(rd, init).value.fees && RowsBy(Ingest(rd, init).value.rows, u) == []
    ensures var last := log[|log| - 1];
            if Passes(rd, last) then Recorded(rd, Ingest(rd, log).value, last)
            else last.user !in Ingest(rd, log).value.fees && RowsBy(Ingest(rd, log).value.rows, last.user) == []
  {
    RowsAfter(rd, log, log[|log| - 1].user);
  }

  /** A completed intake of distinct users holds exactly the passing submissions:
      each one's fee and its rows in order, and nothing for anyone else. */
  lemma {:induction false} IntakeExact(rd: Reads, log: seq<C.Event>, u: Id)
    requires C.UsersDistinct(log) && Ingest(rd, log).Done?
    ensures ExactFor(rd, log, Ingest(rd, log).value, u)
  {
    if |log| > 0 {
      IntakeExact(rd, log[..|log| - 1], u);
      if log[|log| - 1].user == u { ExactLastUser(rd, log); } else { ExactOtherUser(rd, log, u); }
    }
  }

  // ----- the trust chain ---------------------------------------------------

  /** Event `j`, entry `i`, is this row, and the opening behind the entry's own
      pseudonym earned its weight. */
  ghost predicate BackedBy(rd: Reads, hashed: set<seq<Fe>>, log: seq<C.Event>, j: int, i: int, r: RawRow) {
    && 0 <= j < |log| && Aligned(log[j]) && 0 <= i < |log[j].works|
    && r.user == log[j].user && r.work == Format(log[j].works[i]) && r.raw == log[j].weights[i]
    && Earned(rd.h, hashed, Reduce(rd.k), Reduce(log[j].works[i]), Reduce(log[j].pseudonyms[i]), r.raw)
  }

  /** Some submission of the row's own user backs it. */
  ghost predicate Backed(rd: Reads, hashed: set<seq<Fe>>, log: seq<C.Event>, r: RawRow) {
    exists j, i :: BackedBy(rd, hashed, log, j, i, r)
  }

  /** The field element a work's text reduces to. */
  function Residue(work: Id): Option<Fe> {
    if Parse(work).Some? then Some(Reduce(Parse(work).value)) else None
  }

  /** The same user and, as far as the proofs can tell, the same work. */
  ghost predicate SamePosition(a: RawRow, b: RawRow) {
    a.user == b.user && Residue(a.work) == Residue(b.work)
  }

  /** Nonzero rows are backed, and no two share a user and a work, even modulo the
      field order. */
  ghost predicate Trusted(rd: Reads, hashed: set<seq<Fe>>, log: seq<C.Event>, rows: seq<RawRow>) {
    && (forall i :: 0 <= i < |rows| && rows[i].raw > 0 ==> Backed(rd, hashed, log, rows[i]))
    && (forall i, j :: 0 <= i < j < |rows| && rows[i].raw > 0 && rows[j].raw > 0 ==> !SamePosition(rows[i], rows[j]))
  }

  ghost predicate Submitted(log: seq<C.Event>, u: Id) {
    exists j :: 0 <= j < |log| && log[j].user == u
  }

  ghost predicate UsersFrom(rows: seq<RawRow>, log: seq<C.Event>) {
    forall i :: 0 <= i < |rows| ==> Submitted(log, rows[i].user)
  }

  /** The vectors hashed while settling and proving: no two collide, they include
      every preimage the settlement recomputes, and each submitted proof that
      verifies has a satisfying assignment whose hashes are among them. */
  ghost predicate SoundProofs(
      v: C.Verifier, calls: seq<C.Call>, rd: Reads, hashed: set<seq<Fe>>, log: seq<C.Event>)
  {
    && CollisionFree(rd.h, hashed)
    && (forall d: u256 :: C.Proven(v, calls, d) ==> Known(rd.h, hashed, Reduce(d)))
    && (forall ev :: ev in log && Passes(rd, ev) ==>
          PublicPreimage(rd.epoch, ev.tier, rd.k, Padded(rd.h, rd.k, ActiveRows(ev))) in hashed)
  }

  /** Entry by entry, an accepted submission was earned under its own pseudonyms, on
      works that are distinct even modulo the field order. */
  lemma {:induction false} EntriesEarned(
      v: C.Verifier, calls: seq<C.Call>, rd: Reads, hashed: set<seq<Fe>>, log: seq<C.Event>, ev: C.Event)
    requires SoundProofs(v, calls, rd, hashed, log) && ev in log
    requires Passes(rd, ev) && C.Proven(v, calls, ev.digest)
    ensures forall i :: 0 <= i < |ev.works| && ev.weights[i] > 0 ==>
      Earned(rd.h, hashed, Reduce(rd.k), Reduce(ev.works[i]), Reduce(ev.pseudonyms[i]), ev.weights[i])
    ensures forall i, j :: 0 <= i < j < |ev.works| && ev.weights[i] > 0 && ev.weights[j] > 0 ==>
      Reduce(ev.works[i]) != Reduce(ev.works[j])
  {
    var active := ActiveRows(ev);
    SubmissionTrusted(rd.h, hashed, rd.epoch, ev.tier, rd.k, active);
    forall i | 0 <= i < |ev.works| && ev.weights[i] > 0
      ensures Earned(rd.h, hashed, Reduce(rd.k), Reduce(ev.works[i]), Reduce(ev.pseudonyms[i]), ev.weights[i])
    {
      assert active[i].weight > 0;
    }
    forall i, j | 0 <= i < j < |ev.works| && ev.weights[i] > 0 && ev.weights[j] > 0
      ensures Reduce(ev.works[i]) != Reduce(ev.works[j])
    {
      assert active[i].weight > 0 && active[j].weight > 0;
    }
  }

  lemma {:induction false} PaidRowsTrusted(
      v: C.Verifier, calls: seq<C.Call>, rd: Reads, hashed: set<seq<Fe>>, log: seq<C.Event>, ev: C.Event)
    requires SoundProofs(v, calls, rd, hashed, log) && ev in log
    requires Passes(rd, ev) && C.Proven(v, calls, ev.digest)
    ensures Trusted(rd, hashed, log, PaidRows(ev))
  {
    var rows := PaidRows(ev);
    EntriesEarned(v, calls, rd, hashed, log, ev);
    var j :| 0 <= j < |log| && log[j] == ev;
    forall i | 0 <= i < |rows| && rows[i].raw > 0 ensures Backed(rd, hashed, log, rows[i]) {
      assert BackedBy(rd, hashed, log, j, i, rows[i]);
    }
    forall i, j | 0 <= i < j < |rows| && rows[i].raw > 0 && rows[j].raw > 0
      ensures !SamePosition(rows[i], rows[j])
    {
      FormatParses(ev.works[i]);
      FormatParses(ev.works[j]);
    }
  }

  lemma TrustedConcat(rd: Reads, hashed: set<seq<Fe>>, log: seq<C.Event>, a: seq<RawRow>, b: seq<RawRow>)
    requires Trusted(rd, hashed, log, a) && Trusted(rd, hashed, log, b)
    requires forall i, j :: 0 <= i < |a| && 0 <= j < |b| ==> a[i].user != b[j].user
    ensures Trusted(rd, hashed, log, a + b)
  {
  }

  lemma {:induction false} IntakeUsers(rd: Reads, log: seq<C.Event>)
    requires Ingest(rd, log).Done?
    ensures UsersFrom(Ingest(rd, log).value.rows, log)
  {
    if |log| > 0 {
      IntakeUsers(rd, log[..|log| - 1]);
      forall u ensures Submitted(log, u) <==> Submitted(log[..|log| - 1], u) || log[|log| - 1].user == u {
      }
    }
  }

  /** Every passing submission among `log`'s, which are among `all`'s, is trusted. */
  ghost predicate PassingTrusted(rd: Reads, hashed: set<seq<Fe>>, all: seq<C.Event>, log: seq<C.Event>) {
    forall ev :: ev in log && Passes(rd, ev) ==> Trusted(rd, hashed, all, PaidRows(ev))
  }

  lemma NewUser(rd: Reads, log: seq<C.Event>, rows: seq<RawRow>)
    requires |log| > 0 && C.UsersDistinct(log) && UsersFrom(rows, log[..|log| - 1])
    ensures forall i :: 0 <= i < |rows| ==> rows[i].user != log[|log| - 1].user
  {
    var init := log[..|log| - 1];
    forall i | 0 <= i < |rows| ensures rows[i].user != log[|log| - 1].user {
      var j :| 0 <= j < |init| && init[j].user == rows[i].user;
      assert log[j].user == rows[i].user;
    }
  }

  lemma {:induction false} IntakeTrusted(rd: Reads, hashed: set<seq<Fe>>, all: seq<C.Event>, log: seq<C.Event>)
    requires PassingTrusted(rd, hashed, all, log) && C.UsersDistinct(log) && Ingest(rd, log).Done?
    ensures Trusted(rd, hashed, all, Ingest(rd, log).value.rows)
    decreases |log|
  {
    if |log| > 0 {
      var init, ev := log[..|log| - 1], log[|log| - 1];
      assert ev in log && forall e :: e in init ==> e in log;
      IntakeTrusted(rd, hashed, all, init);
      IntakeUsers(rd, init);
      NewUser(rd, log, Ingest(rd, init).value.rows);
      if Passes(rd, ev) { TrustedConcat(rd, hashed, all, Ingest(rd, init).value.rows, PaidRows(ev)); }
    }
  }

  /** The submissions of the settled epoch, after any history of contract calls. */
  function Submissions(v: C.Verifier, calls: seq<C.Call>, rd: Reads): seq<C.Event> {
    C.EpochLog(C.Run(v, calls).log, rd.epoch)
  }

  lemma {:induction false} SubmissionsSound(v: C.Verifier, calls: seq<C.Call>, rd: Reads)
    ensures C.UsersDistinct(Submissions(v, calls, rd))
    ensures forall ev :: ev in Submissions(v, calls, rd) ==> C.Proven(v, calls, ev.digest)
  {
    var chain := C.Run(v, calls);
    C.RunsSound(v, calls);
    C.EpochUsersDistinct(chain.log, rd.epoch);
    forall ev | ev in Submissions(v, calls, rd) ensures C.Proven(v, calls, ev.digest) {
      var i :| 0 <= i < |Submissions(v, calls, rd)| && Submissions(v, calls, rd)[i] == ev;
      var j :| 0 <= j < |chain.log| && chain.log[j] == ev;
    }
  }

  /** The whole trust chain: for every history of contract calls and every epoch,
      if intake succeeds then every nonzero weight paid on is an entry of a
      submission by that user, earned by the one in-range opening behind that
      entry's own pseudonym, which is of the entry's work modulo the field order; and
      no user is paid twice for the same work, even modulo that order. */
  lemma {:induction false} PaidWeightsAreEarned(
      v: C.Verifier, calls: seq<C.Call>, rd: Reads, hashed: set<seq<Fe>>)
    requires SoundProofs(v, calls, rd, hashed, Submissions(v, calls, rd))
    requires Ingest(rd, Submissions(v, calls, rd)).Done?
    ensures Trusted(rd, hashed, Submissions(v, calls, rd), Ingest(rd, Submissions(v, calls, rd)).value.rows)
  {
    var log := Submissions(v, calls, rd);
    SubmissionsSound(v, calls, rd);
    forall ev | ev in log && Passes(rd, ev) ensures Trusted(rd, hashed, log, PaidRows(ev)) {
      PaidRowsTrusted(v, calls, rd, hashed, log, ev);
    }
    IntakeTrusted(rd, hashed, log, log);
  }

  // ----- works are bound modulo the field order ----------------------------

  /** The works agree entry by entry modulo the field order. */
  ghost predicate SameResidues(a: seq<Bytes32>, b: seq<Bytes32>) {
    |a| == |b| && forall i :: 0 <= i < |a| ==> Reduce(a[i]) == Reduce(b[i])
  }

  /** A submission passes or not whatever 32-byte values stand for its works'
      residues, though they are paid under different names. */
  lemma {:induction false} PassesSeesResidues(rd: Reads, ev: C.Event, works: seq<Bytes32>)
    requires SameResidues(ev.works, works)
    ensures Passes(rd, ev) <==> Passes(rd, ev.(works := works))
  {
    var other := ev.(works := works);
    if Aligned(ev) && WeightsFit(ev) && |works| <= MAX_WORKS {
      var a, b := Padded(rd.h, rd.k, ActiveRows(ev)), Padded(rd.h, rd.k, ActiveRows(other));
      forall i | 0 <= i < MAX_WORKS
        ensures a[i].pseudonym == b[i].pseudonym && a[i].weight == b[i].weight && Reduce(a[i].work) == Reduce(b[i].work)
      {
        if i < |works| { assert a[i] == ActiveRows(ev)[i] && b[i] == ActiveRows(other)[i]; }
      }
      OutputsSeeResidues(a, b);
    }
  }

  /** A second name exists for every residue, and it is a different text; only the
      least name equals the opened work. */
  lemma {:induction false} EveryWorkHasAlias(w: Fe)
    ensures w + ORDER < U256 && Reduce(w + ORDER) == Reduce(w) == w
    ensures Format(w + ORDER) != Format(w)
  {
    NextRepresentative(w);
    TextsDiffer(w + ORDER, w);
  }

  lemma NextRepresentative(w: Fe)
    ensures w + ORDER < U256 && Reduce(w + ORDER) == Reduce(w) == w
  {
  }

  lemma TextsDiffer(a: u256, b: u256)
    requires a != b
    ensures Format(a) != Format(b)
  {
    if Format(a) == Format(b) { FormatInjective(a, b); }
  }

  // ----- one opening, several users ----------------------------------------

  /** Entry `i` of submission `j` is paid a nonzero weight. */
  ghost predicate Pays(rd: Reads, log: seq<C.Event>, j: int, i: int) {
    && 0 <= j < |log| && Passes(rd, log[j])
    && 0 <= i < |log[j].works| && log[j].weights[i] > 0
  }

  function Tag(log: seq<C.Event>, j: int, i: int): Fe
    requires 0 <= j < |log| && 0 <= i < |log[j].pseudonyms|
  {
    Reduce(log[j].pseudonyms[i])
  }

  ghost predicate PaysFor(rd: Reads, hashed: set<seq<Fe>>, log: seq<C.Event>, u: Usage, j: int, i: int) {
    Pays(rd, log, j, i) && Opens(rd.h, hashed, Reduce(rd.k), u, Tag(log, j, i))
  }

  /** No opening is paid in two places. */
  ghost predicate OpeningsPaidOnce(rd: Reads, hashed: set<seq<Fe>>, log: seq<C.Event>) {
    forall u, j, i, l, m :: PaysFor(rd, hashed, log, u, j, i) && PaysFor(rd, hashed, log, u, l, m) ==> j == l && i == m
  }

  /** No two paid entries carry the same pseudonym. */
  ghost predicate TagsDistinct(rd: Reads, log: seq<C.Event>) {
    forall j, i, l, m ::
      Pays(rd, log, j, i) && Pays(rd, log, l, m) && Tag(log, j, i) == Tag(log, l, m) ==> j == l && i == m
  }

  /** Openings are paid once each exactly when the paid pseudonyms are distinct,
      which nothing on the way from the contract to the payout checks. */
  lemma {:induction false} OpeningsPaidOnceIff(v: C.Verifier, calls: seq<C.Call>, rd: Reads, hashed: set<seq<Fe>>)
    requires SoundProofs(v, calls, rd, hashed, Submissions(v, calls, rd))
    ensures OpeningsPaidOnce(rd, hashed, Submissions(v, calls, rd)) <==> TagsDistinct(rd, Submissions(v, calls, rd))
  {
    var log := Submissions(v, calls, rd);
    if OpeningsPaidOnce(rd, hashed, log) {
      forall j, i, l, m | Pays(rd, log, j, i) && Pays(rd, log, l, m) && Tag(log, j, i) == Tag(log, l, m)
        ensures j == l && i == m
      {
        var u := PaidOpening(v, calls, rd, hashed, j, i);
        var w := PaidOpening(v, calls, rd, hashed, l, m);
        OneOpening(rd.h, hashed, Reduce(rd.k), u, w, Tag(log, j, i));
      }
    }
  }

  lemma {:induction false} PaidOpening(
      v: C.Verifier, calls: seq<C.Call>, rd: Reads, hashed: set<seq<Fe>>, j: int, i: int) returns (u: Usage)
    requires SoundProofs(v, calls, rd, hashed, Submissions(v, calls, rd))
    requires Pays(rd, Submissions(v, calls, rd), j, i)
    ensures PaysFor(rd, hashed, Submissions(v, calls, rd), u, j, i)
  {
    var log := Submissions(v, calls, rd);
    SubmissionsSound(v, calls, rd);
    EntriesEarned(v, calls, rd, hashed, log, log[j]);
    assert Earned(rd.h, hashed, Reduce(rd.k), Reduce(log[j].works[i]), Tag(log, j, i), log[j].weights[i]);
    u :| Opens(rd.h, hashed, Reduce(rd.k), u, Tag(log, j, i));
  }

  /** The pseudonyms do repeat when a submission's contents come from a second
      address in the same epoch: both are logged, both pass, and both are paid. */
  lemma {:induction false} SameContentsPaidTwice(
      v: C.Verifier, calls: seq<C.Call>, rd: Reads, call: C.Call, other: Id, i: nat)
    requires C.Check(v, C.Run(v, calls), call).None? && C.EpochAt(call.time) == rd.epoch
    requires other != call.sender && (rd.epoch, other) !in C.Run(v, calls).submitted
    requires Passes(rd, C.EventOf(call)) && i < |call.works| && call.weights[i] > 0
    ensures !TagsDistinct(rd, Submissions(v, calls + [call, call.(sender := other)], rd))
  {
    var log := Submissions(v, calls + [call, call.(sender := other)], rd);
    var ev, n := C.EventOf(call), |Submissions(v, calls, rd)|;
    LoggedTwice(v, calls, rd, call, other);
    assert log[n] == ev && log[n + 1] == ev.(user := other);
    assert ExpectedDigest(rd, ev.(user := other)) == ExpectedDigest(rd, ev) by {
      assert ActiveRows(ev.(user := other)) == ActiveRows(ev);
    }
    assert Pays(rd, log, n, i) && Pays(rd, log, n + 1, i);
  }

  lemma LoggedTwice(v: C.Verifier, calls: seq<C.Call>, rd: Reads, call: C.Call, other: Id)
    requires C.Check(v, C.Run(v, calls), call).None? && C.EpochAt(call.time) == rd.epoch
    requires other != call.sender && (rd.epoch, other) !in C.Run(v, calls).submitted
    ensures Submissions(v, calls + [call, call.(sender := other)], rd)
         == Submissions(v, calls, rd) + [C.EventOf(call), C.EventOf(call).(user := other)]
  {
    var base, ev := C.Run(v, calls).log, C.EventOf(call);
    C.AcceptedFromAnyone(v, calls, call, other);
    assert base + [ev, ev.(user := other)] == base + [ev] + [ev.(user := other)];
    C.EpochLogSnoc(base, ev, rd.epoch);
    C.EpochLogSnoc(base + [ev], ev.(user := other), rd.epoch);
  }

  // ----- an honest user's submission ---------------------------------------

  /** The event carries the outputs and the digest of a bundle the prover made. */
  ghost predicate Honest(rd: Reads, kPpm: nat, xs: seq<UsageInput>, ev: C.Event) {
    && 0 < |xs| <= MAX_WORKS && Aligned(ev) && WeightsFit(ev)
    && SameOutputs(ActiveRows(ev), Publics(Witness(rd.h, rd.k, kPpm, xs))[..|xs|])
    && ev.digest == NativeDigest(rd.h, rd.epoch, ev.tier, rd.k, Publics(Witness(rd.h, rd.k, kPpm, xs)))
  }

  /** The digest recomputed from an honest event equals the prover's, so it is never
      skipped; and if intake completes, its fee and its rows are in it. */
  lemma {:induction false} HonestSubmissionPaid(
      rd: Reads, kPpm: nat, xs: seq<UsageInput>, ev: C.Event, log: seq<C.Event>)
    requires Honest(rd, kPpm, xs, ev) && ev in log && C.UsersDistinct(log)
    ensures Passes(rd, ev)
    ensures Ingest(rd, log).Done? ==> Recorded(rd, Ingest(rd, log).value, ev)
  {
    DigestRoundTrip(rd.h, rd.epoch, ev.tier, rd.k, kPpm, xs, ActiveRows(ev));
    if Ingest(rd, log).Done? { IntakeExact(rd, log, ev.user); }
  }
}
