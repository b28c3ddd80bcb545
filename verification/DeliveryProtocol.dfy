/** The bandwidth-receipt protocol as a step system: many nodes, consumers and
    in-flight streams over one immutable content, and the bundles settled on it. */
module DeliveryProtocol {
  import opened Words
  import opened Sums
  import opened Ids
  import opened Receipts
  import opened Delivery

  /** One open transfer on a node. */
  datatype Flow = Flow(node: Id, progress: Progress)

  datatype Network = Network(ledgers: map<Id, Entries>, flows: map<nat, Flow>, issued: set<Receipt>) {
    function LedgerOf(node: Id): Entries { if node in ledgers then ledgers[node] else map[] }
  }

  const QUIET: Network := Network(map[], map[], {})

  datatype Event =
    | Request(id: nat, node: Id, consumer: Id, work: Id, chunk: u64)
    | Poll(id: nat)
    | Drop(id: nat)
    | Attest(node: Id, epoch: u64, consumer: Id, work: Id, chunk: u64)

  /** One step; an event that cannot happen changes nothing. */
  function Next(content: Content, n: Network, ev: Event): Network {
    match ev
    case Request(id, node, consumer, work, chunk) =>
      var f := FragmentForChunk(content, work, chunk);
      if id in n.flows || f.Failed? then n
      else
        var done := PromisedBy(consumer, work, chunk, |f.value|);
        n.(flows := n.flows[id := Flow(node, Progress(|f.value|, 0, Some(done)))])
    case Poll(id) =>
      if id !in n.flows then n
      else
        var f := n.flows[id];
        n.(flows := n.flows[id := f.(progress := f.progress.Polled(PIECE))],
           ledgers := n.ledgers[f.node := f.progress.Recorded(n.LedgerOf(f.node))])
    case Drop(id) => n.(flows := n.flows - {id})
    case Attest(node, epoch, consumer, work, chunk) =>
      var r := IssueReceipt(n.LedgerOf(node), node, epoch, consumer, work, chunk);
      if r.Failed? then n else n.(issued := n.issued + {r.value})
  }

  /** Any interleaving of events, from a starting state. */
  function Run(content: Content, n: Network, evs: seq<Event>): Network {
    if |evs| == 0 then n else Next(content, Run(content, n, evs[..|evs| - 1]), evs[|evs| - 1])
  }

  lemma {:induction false} RunConcat(content: Content, n: Network, a: seq<Event>, b: seq<Event>)
    ensures Run(content, n, a + b) == Run(content, Run(content, n, a), b)
    decreases |b|
  {
    if |b| == 0 {
      assert a + b == a;
    } else {
      RunConcat(content, n, a, b[..|b| - 1]);
      assert (a + b)[..|a + b| - 1] == a + b[..|b| - 1];
    }
  }

  // ----- what every step keeps ---------------------------------------------

  /** A record of exactly one true block of the content. */
  predicate Truthful(content: Content, k: Key, s: Served) {
    && k.pair.work in content
    && s.bytes == BlockLen(|content[k.pair.work]|, k.chunk)
    && Lower(s.work) == k.pair.work && Lower(s.consumer) == k.pair.user
  }

  predicate TruthfulReceipt(content: Content, r: Receipt) {
    Lower(r.work) in content && r.bytes == BlockLen(|content[Lower(r.work)]|, r.chunk)
  }

  predicate TruthfulFlow(content: Content, p: Progress) {
    && p.pos <= p.len
    && (p.pending.Some? ==>
          && Truthful(content, p.pending.value.Position(), p.pending.value.served)
          && p.pending.value.served.bytes == p.len)
  }

  ghost predicate Honest(content: Content, n: Network) {
    && (forall node, k :: node in n.ledgers && k in n.ledgers[node] ==> Truthful(content, k, n.ledgers[node][k]))
    && (forall id :: id in n.flows ==> TruthfulFlow(content, n.flows[id].progress))
    && (forall r :: r in n.issued ==> TruthfulReceipt(content, r))
  }

  lemma PromiseTruthful(content: Content, consumer: Id, work: Id, chunk: u64)
    requires FragmentForChunk(content, work, chunk).Done?
    ensures var size := |FragmentForChunk(content, work, chunk).value|;
            TruthfulFlow(content, Progress(size, 0, Some(PromisedBy(consumer, work, chunk, size))))
  {
    FragmentIsBlock(content, work, chunk);
    LowerIdempotent(work);
    LowerIdempotent(consumer);
  }

  lemma IssueTruthful(content: Content, entries: Entries, node: Id, epoch: u64, consumer: Id, work: Id, chunk: u64)
    requires forall k :: k in entries ==> Truthful(content, k, entries[k])
    requires IssueReceipt(entries, node, epoch, consumer, work, chunk).Done?
    ensures TruthfulReceipt(content, IssueReceipt(entries, node, epoch, consumer, work, chunk).value)
  {
    LowerIdempotent(entries[Key(Pair(Lower(consumer), Lower(work)), chunk)].work);
  }

  lemma StepKeepsHonest(content: Content, n: Network, ev: Event)
    requires Honest(content, n)
    ensures Honest(content, Next(content, n, ev))
  {
    match ev
    case Request(id, node, consumer, work, chunk) =>
      if FragmentForChunk(content, work, chunk).Done? {
        PromiseTruthful(content, consumer, work, chunk);
      }
    case Poll(id) =>
    case Drop(id) =>
    case Attest(node, epoch, consumer, work, chunk) =>
      if IssueReceipt(n.LedgerOf(node), node, epoch, consumer, work, chunk).Done? {
        IssueTruthful(content, n.LedgerOf(node), node, epoch, consumer, work, chunk);
      }
  }

  /** In every reachable state every ledger entry and every receipt states the
      true length of one block. */
  lemma {:induction false} RunsStayHonest(content: Content, n: Network, evs: seq<Event>)
    requires Honest(content, n)
    ensures Honest(content, Run(content, n, evs))
    decreases |evs|
  {
    if |evs| > 0 {
      RunsStayHonest(content, n, evs[..|evs| - 1]);
      StepKeepsHonest(content, Run(content, n, evs[..|evs| - 1]), evs[|evs| - 1]);
    }
  }

  // ----- credit means full delivery ----------------------------------------

  /** This event is the end of a fully drained, not yet credited transfer of the block. */
  predicate Completes(n: Network, ev: Event, node: Id, k: Key) {
    && ev.Poll? && ev.id in n.flows && n.flows[ev.id].node == node
    && n.flows[ev.id].progress.pos >= n.flows[ev.id].progress.len
    && n.flows[ev.id].progress.pending.Some?
    && n.flows[ev.id].progress.pending.value.Position() == k
  }

  lemma LedgerStep(content: Content, n: Network, ev: Event, node: Id, k: Key)
    ensures k in Next(content, n, ev).LedgerOf(node) <==> k in n.LedgerOf(node) || Completes(n, ev, node, k)
  {
  }

  /** Event `i` of the run completes a transfer of the block. */
  predicate CompletesAt(content: Content, evs: seq<Event>, i: int, node: Id, k: Key) {
    0 <= i < |evs| && Completes(Run(content, QUIET, evs[..i]), evs[i], node, k)
  }

  ghost predicate Drained(content: Content, evs: seq<Event>, node: Id, k: Key) {
    exists i :: CompletesAt(content, evs, i, node, k)
  }

  lemma CompletesAtPrefix(content: Content, evs: seq<Event>, i: int, m: nat, node: Id, k: Key)
    requires m <= |evs| && i < m
    ensures CompletesAt(content, evs[..m], i, node, k) == CompletesAt(content, evs, i, node, k)
  {
    if 0 <= i { assert evs[..m][..i] == evs[..i]; }
  }

  lemma DrainedStep(content: Content, evs: seq<Event>, node: Id, k: Key)
    requires |evs| > 0
    ensures Drained(content, evs, node, k) <==>
      Drained(content, evs[..|evs| - 1], node, k) || CompletesAt(content, evs, |evs| - 1, node, k)
  {
    var m := |evs| - 1;
    if i :| CompletesAt(content, evs[..m], i, node, k) {
      CompletesAtPrefix(content, evs, i, m, node, k);
    }
    if i :| CompletesAt(content, evs, i, node, k) && i < m {
      CompletesAtPrefix(content, evs, i, m, node, k);
    }
  }

  /** All or nothing: a node has a block on its ledger, and so will attest it,
      exactly when some transfer of it ran to completion; however many partial or
      abandoned transfers there were earns nothing. */
  lemma {:induction false} CreditedIffDrained(content: Content, evs: seq<Event>, node: Id, k: Key)
    ensures k in Run(content, QUIET, evs).LedgerOf(node) <==> Drained(content, evs, node, k)
  {
    if |evs| > 0 {
      var init := evs[..|evs| - 1];
      CreditedIffDrained(content, init, node, k);
      DrainedStep(content, evs, node, k);
      LedgerStep(content, Run(content, QUIET, init), evs[|evs| - 1], node, k);
    }
  }

  // ----- the settled totals ------------------------------------------------

  /** Credited nodes sign only what their ledgers issued. */
  ghost predicate Unforged(p: Policy, b: seq<Signed>, n: Network) {
    forall i :: 0 <= i < |b| && Eligible(p, b[i]) ==> b[i].receipt in n.issued
  }

  ghost predicate TrueEvidence(content: Content, ev: Evidence) {
    forall k :: k in ev ==>
      k.chunk < U64 && k.pair.work in content && ev[k] == BlockLen(|content[k.pair.work]|, k.chunk)
  }

  lemma {:induction false} HonestEvidence(content: Content, n: Network, p: Policy, b: seq<Signed>)
    requires Honest(content, n) && Unforged(p, b, n)
    ensures TrueEvidence(content, EvidenceOf(p, b))
  {
    if |b| > 0 {
      HonestEvidence(content, n, p, b[..|b| - 1]);
      var s := b[|b| - 1];
      if Eligible(p, s) { assert TruthfulReceipt(content, s.receipt); }
    }
  }

  function PartBelow(ev: Evidence, pair: Pair, m: nat): Evidence {
    map k | k in ev && k.pair == pair && k.chunk < m :: ev[k]
  }

  lemma PartStep(ev: Evidence, pair: Pair, m: nat)
    ensures SumMap(PartBelow(ev, pair, m + 1))
         == SumMap(PartBelow(ev, pair, m)) + (if Key(pair, m) in ev then ev[Key(pair, m)] else 0)
  {
    var k := Key(pair, m);
    if k in ev {
      assert PartBelow(ev, pair, m + 1) == PartBelow(ev, pair, m)[k := ev[k]];
      SumMapSet(PartBelow(ev, pair, m), k, ev[k]);
    } else {
      assert PartBelow(ev, pair, m + 1) == PartBelow(ev, pair, m);
    }
  }

  /** Every block that starts before the end, below `m`, is in evidence. */
  ghost predicate Covered(ev: Evidence, pair: Pair, size: nat, m: nat) {
    forall c: nat :: c < m && c * CHUNK_SIZE < size ==> Key(pair, c) in ev
  }

  lemma CoveredStep(ev: Evidence, pair: Pair, size: nat, m: nat)
    ensures Covered(ev, pair, size, m + 1) <==>
      Covered(ev, pair, size, m) && (m * CHUNK_SIZE < size ==> Key(pair, m) in ev)
  {
  }

  lemma BlockGrowth(size: nat, m: nat)
    ensures BlockStart(size, m + 1) == BlockStart(size, m) + BlockLen(size, m)
    ensures BlockLen(size, m) == 0 <==> m * CHUNK_SIZE >= size
  {
  }

  ghost predicate ExactLengths(size: nat, ev: Evidence, pair: Pair) {
    forall c: nat :: Key(pair, c) in ev ==> ev[Key(pair, c)] == BlockLen(size, c)
  }

  /** How one more block moves a sum against its bound. */
  lemma BoundStep(s: nat, s': nat, b: nat, b': nat, len: nat, has: bool)
    requires s <= b && b' == b + len && s' == s + (if has then len else 0)
    ensures s' <= b'
    ensures s' == b' <==> s == b && (len == 0 || has)
  {
  }

  lemma {:induction false} PartialSum(size: nat, ev: Evidence, pair: Pair, m: nat)
    requires ExactLengths(size, ev, pair)
    ensures SumMap(PartBelow(ev, pair, m)) <= BlockStart(size, m)
    ensures SumMap(PartBelow(ev, pair, m)) == BlockStart(size, m) <==> Covered(ev, pair, size, m)
  {
    if m == 0 {
      assert PartBelow(ev, pair, 0) == map[];
    } else {
      var c := m - 1;
      PartialSum(size, ev, pair, c);
      PartStep(ev, pair, c);
      BlockGrowth(size, c);
      BoundStep(SumMap(PartBelow(ev, pair, c)), SumMap(PartBelow(ev, pair, m)),
                BlockStart(size, c), BlockStart(size, m), BlockLen(size, c), Key(pair, c) in ev);
      CoveredStep(ev, pair, size, c);
    }
  }

  lemma WholePart(content: Content, ev: Evidence, pair: Pair)
    requires TrueEvidence(content, ev)
    ensures Only(ev, pair) == PartBelow(ev, pair, U64)
  {
  }

  /** The main law of honest nodes: over every run, and for every bundle whose
      credited nodes sign only what their ledgers issued, however replayed,
      duplicated across nodes or reordered, the bytes verified for a consumer and a
      work never exceed the content's length, and equal it exactly when every block
      of the content has an accepted receipt. */
  lemma {:induction false} VerifiedWithinContent(
      content: Content, evs: seq<Event>, p: Policy, b: seq<Signed>, user: Id, work: Id)
    requires Unforged(p, b, Run(content, QUIET, evs))
    ensures work !in content ==> BytesFor(EvidenceOf(p, b), Pair(user, work)) == 0
    ensures work in content ==>
      && BytesFor(EvidenceOf(p, b), Pair(user, work)) <= |content[work]|
      && (BytesFor(EvidenceOf(p, b), Pair(user, work)) == |content[work]| <==>
          Covered(EvidenceOf(p, b), Pair(user, work), |content[work]|, U64))
  {
    var ev, pair := EvidenceOf(p, b), Pair(user, work);
    RunsStayHonest(content, QUIET, evs);
    HonestEvidence(content, Run(content, QUIET, evs), p, b);
    if work in content {
      WholePart(content, ev, pair);
      PartialSum(|content[work]|, ev, pair, U64);
    } else {
      assert Only(ev, pair) == map[];
    }
  }

  // ----- evidence means delivery -------------------------------------------

  ghost predicate OnLedger(n: Network, k: Key) {
    exists node :: k in n.LedgerOf(node)
  }

  /** Every issued receipt's block is on some node's ledger. */
  ghost predicate Ledgered(n: Network) {
    forall r :: r in n.issued ==> OnLedger(n, KeyOf(r))
  }

  lemma LedgersGrow(content: Content, n: Network, ev: Event, k: Key)
    requires OnLedger(n, k)
    ensures OnLedger(Next(content, n, ev), k)
  {
    var node :| k in n.LedgerOf(node);
    LedgerStep(content, n, ev, node, k);
  }

  /** A receipt names the very position its ledger entry is filed under. */
  lemma IssueKey(content: Content, n: Network, node: Id, epoch: u64, consumer: Id, work: Id, chunk: u64)
    requires Honest(content, n)
    requires IssueReceipt(n.LedgerOf(node), node, epoch, consumer, work, chunk).Done?
    ensures KeyOf(IssueReceipt(n.LedgerOf(node), node, epoch, consumer, work, chunk).value)
         == Key(Pair(Lower(consumer), Lower(work)), chunk)
  {
    var k := Key(Pair(Lower(consumer), Lower(work)), chunk);
    assert node in n.ledgers && Truthful(content, k, n.ledgers[node][k]);
    LowerIdempotent(n.LedgerOf(node)[k].work);
    LowerIdempotent(n.LedgerOf(node)[k].consumer);
  }

  lemma StepKeepsLedgered(content: Content, n: Network, ev: Event)
    requires Honest(content, n) && Ledgered(n)
    ensures Ledgered(Next(content, n, ev))
  {
    forall r | r in Next(content, n, ev).issued ensures OnLedger(Next(content, n, ev), KeyOf(r)) {
      if r !in n.issued {
        IssueKey(content, n, ev.node, ev.epoch, ev.consumer, ev.work, ev.chunk);
        assert KeyOf(r) in n.LedgerOf(ev.node);
      }
      LedgersGrow(content, n, ev, KeyOf(r));
    }
  }

  lemma {:induction false} RunsStayLedgered(content: Content, evs: seq<Event>)
    ensures Ledgered(Run(content, QUIET, evs))
  {
    if |evs| > 0 {
      var init := evs[..|evs| - 1];
      RunsStayLedgered(content, init);
      RunsStayHonest(content, QUIET, init);
      StepKeepsLedgered(content, Run(content, QUIET, init), evs[|evs| - 1]);
    }
  }

  /** Some node carried a transfer of the block to its end. */
  ghost predicate Delivered(content: Content, evs: seq<Event>, k: Key) {
    exists node :: Drained(content, evs, node, k)
  }

  /** Accepted evidence of a block means the block was delivered in full: a node that
      credited on request, or on a partial transfer, could not have this. */
  lemma {:induction false} EvidenceMeansDelivery(
      content: Content, evs: seq<Event>, p: Policy, b: seq<Signed>, k: Key)
    requires Unforged(p, b, Run(content, QUIET, evs)) && k in EvidenceOf(p, b)
    ensures Delivered(content, evs, k)
  {
    var n := Run(content, QUIET, evs);
    CreditedIffSpoken(p, b, k);
    var i :| 0 <= i < |b| && Speaks(p, b[i], k);
    RunsStayLedgered(content, evs);
    assert OnLedger(n, KeyOf(b[i].receipt));
    var node :| k in n.LedgerOf(node);
    CreditedIffDrained(content, evs, node, k);
  }

  /** A block's length if it was delivered to this pair, and nothing otherwise. */
  ghost function DeliveredLen(content: Content, evs: seq<Event>, pair: Pair, size: nat): nat -> nat {
    (c: nat) => if Delivered(content, evs, Key(pair, c)) then BlockLen(size, c) else 0
  }

  ghost function SumBelow(f: nat -> nat, m: nat): nat {
    if m == 0 then 0 else SumBelow(f, m - 1) + f(m - 1)
  }

  lemma {:induction false} PartWithin(ev: Evidence, pair: Pair, f: nat -> nat, m: nat)
    requires forall c: nat :: Key(pair, c) in ev ==> ev[Key(pair, c)] <= f(c)
    ensures SumMap(PartBelow(ev, pair, m)) <= SumBelow(f, m)
  {
    if m == 0 {
      assert PartBelow(ev, pair, 0) == map[];
    } else {
      PartWithin(ev, pair, f, m - 1);
      PartStep(ev, pair, m - 1);
    }
  }

  /** So verified bytes never exceed the lengths of the blocks actually delivered to
      that consumer. */
  lemma {:induction false} VerifiedWithinDelivered(
      content: Content, evs: seq<Event>, p: Policy, b: seq<Signed>, user: Id, work: Id)
    requires Unforged(p, b, Run(content, QUIET, evs)) && work in content
    ensures BytesFor(EvidenceOf(p, b), Pair(user, work))
         <= SumBelow(DeliveredLen(content, evs, Pair(user, work), |content[work]|), U64)
  {
    var ev, pair := EvidenceOf(p, b), Pair(user, work);
    var delivered := DeliveredLen(content, evs, pair, |content[work]|);
    RunsStayHonest(content, QUIET, evs);
    HonestEvidence(content, Run(content, QUIET, evs), p, b);
    WholePart(content, ev, pair);
    forall c: nat | Key(pair, c) in ev
      ensures ev[Key(pair, c)] <= delivered(c)
    {
      EvidenceMeansDelivery(content, evs, p, b, Key(pair, c));
    }
    PartWithin(ev, pair, delivered, U64);
  }

  /** Submitting an eligible receipt for each block of a work earns exactly its length. */
  lemma {:induction false} EveryBlockSubmitted(
      content: Content, evs: seq<Event>, p: Policy, b: seq<Signed>, user: Id, work: Id)
    requires Unforged(p, b, Run(content, QUIET, evs)) && work in content
    requires forall c: nat :: c * CHUNK_SIZE < |content[work]| ==> Spoken(p, b, Key(Pair(user, work), c))
    ensures BytesFor(EvidenceOf(p, b), Pair(user, work)) == |content[work]|
  {
    forall c: nat | c * CHUNK_SIZE < |content[work]| ensures Key(Pair(user, work), c) in EvidenceOf(p, b) {
      CreditedIffSpoken(p, b, Key(Pair(user, work), c));
    }
    VerifiedWithinContent(content, evs, p, b, user, work);
  }

  /** Honest receipts agree on every block, so a bundle's order never matters. */
  lemma {:induction false} HonestBundlesConsistent(content: Content, evs: seq<Event>, p: Policy, b: seq<Signed>)
    requires Unforged(p, b, Run(content, QUIET, evs))
    ensures Consistent(p, b)
  {
    RunsStayHonest(content, QUIET, evs);
    forall i | 0 <= i < |b| && Eligible(p, b[i]) ensures TruthfulReceipt(content, b[i].receipt) {
    }
  }

  // ----- a full delivery is always possible --------------------------------

  function Polls(id: nat, count: nat): (evs: seq<Event>)
    ensures |evs| == count
  {
    seq(count, i => Poll(id))
  }

  /** Polls to hand out `left` bytes and then observe the end. */
  function PollsFor(left: nat): nat { (left + PIECE - 1) / PIECE + 1 }

  lemma PollsStep(left: nat)
    ensures left == 0 ==> PollsFor(left) == 1
    ensures left > 0 ==> PollsFor(left) == PollsFor(left - Min(left, PIECE)) + 1
  {
  }

  lemma PollsSplit(id: nat, count: nat)
    requires count > 0
    ensures Polls(id, count)[0] == Poll(id) && Polls(id, count)[1..] == Polls(id, count - 1)
  {
  }

  /** What one poll of an unfinished, or of an exhausted, transfer leaves. */
  lemma PollStep(content: Content, n: Network, id: nat, done: Completion)
    requires id in n.flows && n.flows[id].progress.pending == Some(done)
    requires n.flows[id].progress.pos <= n.flows[id].progress.len
    ensures var f, n' := n.flows[id], Next(content, n, Poll(id));
            f.progress.pos < f.progress.len ==>
              (id in n'.flows &&
               n'.flows[id] == Flow(f.node, Progress(f.progress.len, Min(f.progress.pos + PIECE, f.progress.len), Some(done))))
    ensures n.flows[id].progress.pos == n.flows[id].progress.len ==>
      Holds(Next(content, n, Poll(id)), n.flows[id].node, done)
  {
  }

  ghost predicate Holds(n: Network, node: Id, done: Completion) {
    done.Position() in n.LedgerOf(node) && n.LedgerOf(node)[done.Position()] == done.served
  }

  lemma {:induction false} PollingRecords(
      content: Content, n: Network, id: nat, done: Completion, node: Id, len: nat, pos: nat)
    requires id in n.flows && n.flows[id] == Flow(node, Progress(len, pos, Some(done))) && pos <= len
    ensures Holds(Run(content, n, Polls(id, PollsFor(len - pos))), node, done)
    decreases len - pos
  {
    var count := PollsFor(len - pos);
    var n1 := Next(content, n, Poll(id));
    PollsStep(len - pos);
    PollsSplit(id, count);
    FirstEvent(content, n, Polls(id, count));
    PollStep(content, n, id, done);
    if pos < len {
      PollingRecords(content, n1, id, done, node, len, Min(pos + PIECE, len));
    } else {
      assert Polls(id, 0) == [];
    }
  }

  lemma {:induction false} FirstEvent(content: Content, n: Network, evs: seq<Event>)
    requires |evs| > 0
    ensures Run(content, n, evs) == Run(content, Next(content, n, evs[0]), evs[1..])
  {
    assert evs == [evs[0]] + evs[1..];
    RunConcat(content, n, [evs[0]], evs[1..]);
    assert [evs[0]][..0] == [];
    assert Run(content, n, [evs[0]]) == Next(content, n, evs[0]);
  }

  /** The events of one complete transfer and its attestation. */
  function Transfer(id: nat, node: Id, epoch: u64, consumer: Id, work: Id, chunk: u64, size: nat): seq<Event> {
    [Request(id, node, consumer, work, chunk)]
    + Polls(id, PollsFor(BlockLen(size, chunk)))
    + [Attest(node, epoch, consumer, work, chunk)]
  }

  lemma RequestOpens(content: Content, n: Network, id: nat, node: Id, consumer: Id, work: Id, chunk: u64)
    requires id !in n.flows && IsWorkId(work) && Lower(work) in content
    ensures var len := BlockLen(|content[Lower(work)]|, chunk);
            && len < U64
            && Next(content, n, Request(id, node, consumer, work, chunk))
            == n.(flows := n.flows[id := Flow(node, Progress(len, 0, Some(PromisedBy(consumer, work, chunk, len))))])
  {
    FragmentIsBlock(content, work, chunk);
  }

  lemma AttestIssues(
      content: Content, n: Network, node: Id, epoch: u64, consumer: Id, work: Id, chunk: u64, served: Served)
    requires var k := Key(Pair(Lower(consumer), Lower(work)), chunk);
             k in n.LedgerOf(node) && n.LedgerOf(node)[k] == served
    ensures Receipt(Lower(served.work), Lower(served.consumer), Lower(node), chunk, served.bytes, epoch)
            in Next(content, n, Attest(node, epoch, consumer, work, chunk)).issued
  {
  }

  /** From any state, transferring a block of existing content to the end makes
      the node attest it, at its exact length and for the right consumer. */
  lemma {:induction false} TransferEarnsReceipt(
      content: Content, n: Network, id: nat, node: Id, epoch: u64, consumer: Id, work: Id, chunk: u64)
    requires id !in n.flows && IsWorkId(work) && Lower(work) in content
    ensures var size := |content[Lower(work)]|;
            BlockLen(size, chunk) < U64 &&
            Receipt(Lower(work), Lower(consumer), Lower(node), chunk, BlockLen(size, chunk), epoch)
            in Run(content, n, Transfer(id, node, epoch, consumer, work, chunk, size)).issued
  {
    RequestOpens(content, n, id, node, consumer, work, chunk);
    var len := BlockLen(|content[Lower(work)]|, chunk);
    var done := PromisedBy(consumer, work, chunk, len);
    var req, att := Request(id, node, consumer, work, chunk), Attest(node, epoch, consumer, work, chunk);
    var n1 := Next(content, n, req);
    var n2 := Run(content, n1, Polls(id, PollsFor(len)));
    LowerIdempotent(work);
    LowerIdempotent(consumer);
    assert Holds(n2, node, done) by {
      PollingRecords(content, n1, id, done, node, len, 0);
    }
    AttestIssues(content, n2, node, epoch, consumer, work, chunk, done.served);
    ThreeStages(content, n, req, Polls(id, PollsFor(len)), att);
  }

  lemma {:induction false} ThreeStages(content: Content, n: Network, first: Event, mid: seq<Event>, last: Event)
    ensures Run(content, n, [first] + mid + [last])
         == Next(content, Run(content, Next(content, n, first), mid), last)
  {
    var all := [first] + mid + [last];
    assert all[..|all| - 1] == [first] + mid;
    FirstEvent(content, n, [first] + mid);
    assert ([first] + mid)[1..] == mid;
  }

  // ----- requests for receipts, and dropped transfers ----------------------

  /** Over every run, a node asked for a receipt gives one exactly when a transfer of
      that block to that consumer ran to completion there; and it names the node, the
      epoch asked for, the consumer, the work and the block's true length. */
  lemma {:induction false} AttestedIffDrained(
      content: Content, evs: seq<Event>, node: Id, epoch: u64, consumer: Id, work: Id, chunk: u64)
    ensures var r := IssueReceipt(Run(content, QUIET, evs).LedgerOf(node), node, epoch, consumer, work, chunk);
            && (r.Done? <==> Drained(content, evs, node, Key(Pair(Lower(consumer), Lower(work)), chunk)))
            && (r.Done? ==>
                  && Lower(work) in content
                  && BlockLen(|content[Lower(work)]|, chunk) < U64
                  && r.value == Receipt(Lower(work), Lower(consumer), Lower(node), chunk,
                                        BlockLen(|content[Lower(work)]|, chunk), epoch))
  {
    var n, k := Run(content, QUIET, evs), Key(Pair(Lower(consumer), Lower(work)), chunk);
    CreditedIffDrained(content, evs, node, k);
    RunsStayHonest(content, QUIET, evs);
    if k in n.LedgerOf(node) {
      assert node in n.ledgers && Truthful(content, k, n.ledgers[node][k]);
    }
  }

  /** Dropping a transfer credits nothing and ends it: polling it does nothing more. */
  lemma {:induction false} DroppedForGood(content: Content, n: Network, id: nat)
    ensures var m := Next(content, n, Drop(id));
            && m.ledgers == n.ledgers && m.issued == n.issued
            && Next(content, m, Poll(id)) == m
            && forall other :: other != id ==> (other in m.flows <==> other in n.flows)
                                               && (other in m.flows ==> m.flows[other] == n.flows[other])
  {
  }

  /** A request for a block of held content, under an id not in use, starts a transfer
      at its first byte that will record the true length for that consumer; any other
      request changes nothing. */
  lemma {:induction false} RequestMeans(
      content: Content, n: Network, id: nat, node: Id, consumer: Id, work: Id, chunk: u64)
    ensures var m := Next(content, n, Request(id, node, consumer, work, chunk));
            if id in n.flows || !IsWorkId(work) || Lower(work) !in content then m == n
            else
              var len := BlockLen(|content[Lower(work)]|, chunk);
              var done := Completion(Lower(consumer), Lower(work), chunk, Served(Lower(work), Lower(consumer), len));
              m == n.(flows := n.flows[id := Flow(node, Progress(len, 0, Some(done)))])
  {
    if IsWorkId(work) && Lower(work) in content { FragmentIsBlock(content, work, chunk); }
  }
}
