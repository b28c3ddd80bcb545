/** Co-signed bandwidth receipts and the aggregator's acceptance of a bundle. */
module Receipts {
  import opened Words
  import opened Ids
  import opened Sums

  /** The content block one receipt attests, in bytes. */
  const CHUNK_SIZE: nat := 131_072

  datatype Receipt = Receipt(work: Id, consumer: Id, node: Id, chunk: u64, bytes: u64, epoch: u64)

  datatype Signed = Signed(receipt: Receipt, nodeSig: string, consumerSig: string)

  /** A consumer and a work, in normalised text. */
  datatype Pair = Pair(user: Id, work: Id)

  /** The content position a receipt is credited for. */
  datatype Key = Key(pair: Pair, chunk: nat)

  /** `dedup_key`. */
  function KeyOf(r: Receipt): Key {
    Key(Pair(Lower(r.consumer), Lower(r.work)), r.chunk)
  }

  /** What the aggregator checks a receipt against. `recover` is signature
      recovery over the canonical encoding of the receipt. */
  datatype Policy = Policy(recover: (Receipt, string) -> Option<Id>, epoch: u64, credentialed: Id -> bool)

  /** `verify`: both signatures recover to the parties the receipt names. */
  predicate CoSigned(p: Policy, s: Signed) {
    && p.recover(s.receipt, s.nodeSig) == Some(Lower(s.receipt.node))
    && p.recover(s.receipt, s.consumerSig) == Some(Lower(s.receipt.consumer))
  }

  predicate Eligible(p: Policy, s: Signed) {
    CoSigned(p, s) && s.receipt.epoch == p.epoch && p.credentialed(Lower(s.receipt.node))
  }

  /** An eligible receipt's credit is at most one block. */
  function Credit(s: Signed): (c: nat)
    ensures c <= CHUNK_SIZE
  {
    Min(s.receipt.bytes, CHUNK_SIZE)
  }

  /** Bytes credited to each content position. */
  type Evidence = map<Key, nat>

  predicate Fresh(p: Policy, ev: Evidence, s: Signed) {
    Eligible(p, s) && KeyOf(s.receipt) !in ev
  }

  /** Evidence after one more receipt, and after a whole list of them. */
  function Absorb1(p: Policy, ev: Evidence, s: Signed): Evidence {
    if Fresh(p, ev, s) then ev[KeyOf(s.receipt) := Credit(s)] else ev
  }

  function Absorb(p: Policy, ev: Evidence, b: seq<Signed>): Evidence {
    if |b| == 0 then ev else Absorb1(p, Absorb(p, ev, b[..|b| - 1]), b[|b| - 1])
  }

  function EvidenceOf(p: Policy, b: seq<Signed>): Evidence { Absorb(p, map[], b) }

  lemma {:induction false} AbsorbConcat(p: Policy, ev: Evidence, a: seq<Signed>, b: seq<Signed>)
    ensures Absorb(p, ev, a + b) == Absorb(p, Absorb(p, ev, a), b)
    decreases |b|
  {
    if |b| == 0 {
      assert a + b == a;
    } else {
      AbsorbConcat(p, ev, a, b[..|b| - 1]);
      assert (a + b)[..|a + b| - 1] == a + b[..|b| - 1];
    }
  }

  // ----- totals per consumer and work --------------------------------------

  function Only(ev: Evidence, pair: Pair): Evidence {
    map k | k in ev && k.pair == pair :: ev[k]
  }

  ghost function BytesFor(ev: Evidence, pair: Pair): nat { SumMap(Only(ev, pair)) }

  function Pairs(ev: Evidence): set<Pair> {
    set k | k in ev :: k.pair
  }

  ghost function Totals(ev: Evidence): map<Pair, u128> {
    map pair | pair in Pairs(ev) :: Saturate(BytesFor(ev, pair))
  }

  lemma BytesForSet(ev: Evidence, k: Key, v: nat, pair: Pair)
    requires k !in ev
    ensures BytesFor(ev[k := v], pair) == BytesFor(ev, pair) + (if k.pair == pair then v else 0)
  {
    if k.pair == pair {
      assert Only(ev[k := v], pair) == Only(ev, pair)[k := v];
      SumMapSet(Only(ev, pair), k, v);
    } else {
      assert Only(ev[k := v], pair) == Only(ev, pair);
    }
  }

  function Held(t: map<Pair, u128>, pair: Pair): u128 {
    if pair in t then t[pair] else 0
  }

  lemma TotalsStep(ev: Evidence, k: Key, v: nat)
    requires k !in ev
    ensures Totals(ev[k := v]) == Totals(ev)[k.pair := SaturatingAdd(Held(Totals(ev), k.pair), v)]
  {
    var t, u := Totals(ev), Totals(ev[k := v]);
    assert Pairs(ev[k := v]) == Pairs(ev) + {k.pair};
    forall pair | pair in u ensures u[pair] == t[k.pair := SaturatingAdd(Held(t, k.pair), v)][pair] {
      BytesForSet(ev, k, v, pair);
    }
  }

  /** `accept_receipts`: filter, drop repeats, clamp and sum. */
  method AcceptReceipts(p: Policy, b: seq<Signed>) returns (totals: map<Pair, u128>)
    ensures totals == Totals(EvidenceOf(p, b))
  {
    totals := map[];
    var seen: set<Key> := {};
    for i := 0 to |b|
      invariant seen == EvidenceOf(p, b[..i]).Keys
      invariant totals == Totals(EvidenceOf(p, b[..i]))
    {
      var s := b[i];
      ghost var ev := EvidenceOf(p, b[..i]);
      assert b[..i + 1][..i] == b[..i];
      if !CoSigned(p, s) { continue; }
      if s.receipt.epoch != p.epoch { continue; }
      if !p.credentialed(Lower(s.receipt.node)) { continue; }
      var key := KeyOf(s.receipt);
      if key in seen { continue; }
      seen := seen + {key};
      TotalsStep(ev, key, Credit(s));
      totals := totals[key.pair := SaturatingAdd(Held(totals, key.pair), Credit(s))];
    }
    assert b[..|b|] == b;
  }

  // ----- the declarative reading -------------------------------------------

  /** A receipt attests a block: both signatures recover to the named parties, the epoch
      is this one, the node is credentialed, and it names this consumer, work and block. */
  predicate Speaks(p: Policy, s: Signed, k: Key) {
    && p.recover(s.receipt, s.nodeSig) == Some(Lower(s.receipt.node))
    && p.recover(s.receipt, s.consumerSig) == Some(Lower(s.receipt.consumer))
    && s.receipt.epoch == p.epoch
    && p.credentialed(Lower(s.receipt.node))
    && Lower(s.receipt.consumer) == k.pair.user && Lower(s.receipt.work) == k.pair.work && s.receipt.chunk == k.chunk
  }

  /** Receipt `i` is the first to attest the position. */
  ghost predicate First(p: Policy, b: seq<Signed>, i: int, k: Key) {
    && 0 <= i < |b| && Speaks(p, b[i], k)
    && forall j :: 0 <= j < i ==> !Speaks(p, b[j], k)
  }

  ghost predicate Spoken(p: Policy, b: seq<Signed>, k: Key) {
    exists i :: 0 <= i < |b| && Speaks(p, b[i], k)
  }

  /** A position is credited iff some receipt attests it. */
  lemma {:induction false} CreditedIffSpoken(p: Policy, b: seq<Signed>, k: Key)
    ensures k in EvidenceOf(p, b) <==> Spoken(p, b, k)
  {
    if |b| > 0 {
      CreditedIffSpoken(p, b[..|b| - 1], k);
    }
  }

  /** The credit is that of the first such receipt. */
  lemma {:induction false} FirstSets(p: Policy, b: seq<Signed>, i: nat, k: Key)
    requires First(p, b, i, k)
    ensures k in EvidenceOf(p, b) && EvidenceOf(p, b)[k] == Credit(b[i])
  {
    var n := |b| - 1;
    if i < n {
      assert First(p, b[..n], i, k);
      FirstSets(p, b[..n], i, k);
    } else {
      CreditedIffSpoken(p, b[..n], k);
      assert forall j :: 0 <= j < n ==> b[..n][j] == b[j];
    }
  }

  lemma {:induction false} FirstExists(p: Policy, b: seq<Signed>, k: Key)
    requires Spoken(p, b, k)
    ensures exists i :: First(p, b, i, k)
  {
    var n := |b| - 1;
    if Spoken(p, b[..n], k) {
      FirstExists(p, b[..n], k);
      var i :| First(p, b[..n], i, k);
      assert First(p, b, i, k);
    } else {
      assert forall j :: 0 <= j < n ==> b[..n][j] == b[j];
      assert First(p, b, n, k);
    }
  }

  /** A position is credited iff some receipt passes every check for it, and its credit
      is the bytes of the first such receipt, 131072 at most. */
  lemma {:induction false} FirstEligibleCounts(p: Policy, b: seq<Signed>, k: Key)
    ensures k in EvidenceOf(p, b) <==> exists i :: First(p, b, i, k)
    ensures forall i :: First(p, b, i, k) ==> EvidenceOf(p, b)[k] == Credit(b[i]) <= CHUNK_SIZE
    ensures forall i :: First(p, b, i, k) ==>
      EvidenceOf(p, b)[k] == if b[i].receipt.bytes < 131_072 then b[i].receipt.bytes else 131_072
  {
    CreditedIffSpoken(p, b, k);
    if Spoken(p, b, k) { FirstExists(p, b, k); }
    forall i | First(p, b, i, k) ensures k in EvidenceOf(p, b) && EvidenceOf(p, b)[k] == Credit(b[i]) {
      FirstSets(p, b, i, k);
    }
  }

  /** A receipt that would not count where it stands can be inserted there
      without changing what anything else earns. */
  lemma {:induction false} RejectedReceiptsIgnored(p: Policy, a: seq<Signed>, s: Signed, b: seq<Signed>)
    requires !Fresh(p, EvidenceOf(p, a), s)
    ensures EvidenceOf(p, a + [s] + b) == EvidenceOf(p, a + b)
  {
    AbsorbConcat(p, map[], a + [s], b);
    AbsorbConcat(p, map[], a, b);
    assert (a + [s])[..|a|] == a;
  }

  /** Appending replays, whoever re-served them, changes nothing. */
  lemma {:induction false} ReplaysIgnored(p: Policy, b: seq<Signed>, replays: seq<Signed>)
    requires forall i :: 0 <= i < |replays| ==> !Fresh(p, EvidenceOf(p, b), replays[i])
    ensures EvidenceOf(p, b + replays) == EvidenceOf(p, b)
  {
    if |replays| == 0 {
      assert b + replays == b;
    } else {
      var n := |replays| - 1;
      ReplaysIgnored(p, b, replays[..n]);
      assert b + replays == b + replays[..n] + [replays[n]];
      RejectedReceiptsIgnored(p, b + replays[..n], replays[n], []);
      assert b + replays[..n] + [replays[n]] + [] == b + replays;
      assert b + replays[..n] + [] == b + replays[..n];
    }
  }

  /** Submitting a whole bundle twice is submitting it once. */
  lemma {:induction false} ResubmissionIgnored(p: Policy, b: seq<Signed>)
    ensures EvidenceOf(p, b + b) == EvidenceOf(p, b)
  {
    forall i | 0 <= i < |b| ensures !Fresh(p, EvidenceOf(p, b), b[i]) {
      CreditedIffSpoken(p, b, KeyOf(b[i].receipt));
    }
    ReplaysIgnored(p, b, b);
  }

  /** Enlarging the set of credentialed nodes only grows the credited positions. */
  lemma {:induction false} CredentialsOnlyAdd(p: Policy, q: Policy, b: seq<Signed>)
    requires q.recover == p.recover && q.epoch == p.epoch
    requires forall n :: p.credentialed(n) ==> q.credentialed(n)
    ensures EvidenceOf(p, b).Keys <= EvidenceOf(q, b).Keys
    ensures Totals(EvidenceOf(p, b)).Keys <= Totals(EvidenceOf(q, b)).Keys
  {
    forall k | k in EvidenceOf(p, b) ensures k in EvidenceOf(q, b) {
      CreditedIffSpoken(p, b, k);
      CreditedIffSpoken(q, b, k);
      var i :| 0 <= i < |b| && Speaks(p, b[i], k);
      assert Speaks(q, b[i], k);
    }
  }

  /** Eligible receipts for one position all attest the same credit. */
  ghost predicate Consistent(p: Policy, b: seq<Signed>) {
    forall i, j ::
      (0 <= i < |b| && 0 <= j < |b| && Eligible(p, b[i]) && Eligible(p, b[j])
       && KeyOf(b[i].receipt) == KeyOf(b[j].receipt))
      ==> Credit(b[i]) == Credit(b[j])
  }

  /** When nodes agree on what a block holds, the order of the bundle is immaterial. */
  lemma {:induction false} OrderIrrelevant(p: Policy, b: seq<Signed>, c: seq<Signed>)
    requires multiset(b) == multiset(c) && Consistent(p, b)
    ensures EvidenceOf(p, b) == EvidenceOf(p, c)
  {
    SameKeys(p, b, c);
    forall k | k in EvidenceOf(p, b) ensures EvidenceOf(p, b)[k] == EvidenceOf(p, c)[k] {
      SameCredit(p, b, c, k);
    }
  }

  lemma SameSpeakers(p: Policy, b: seq<Signed>, c: seq<Signed>, k: Key)
    requires multiset(b) == multiset(c) && Spoken(p, b, k)
    ensures Spoken(p, c, k)
  {
    var i :| 0 <= i < |b| && Speaks(p, b[i], k);
    assert b[i] in multiset(b) && b[i] in c;
    var j :| 0 <= j < |c| && c[j] == b[i];
    assert Speaks(p, c[j], k);
  }

  lemma SameKeys(p: Policy, b: seq<Signed>, c: seq<Signed>)
    requires multiset(b) == multiset(c)
    ensures EvidenceOf(p, b).Keys == EvidenceOf(p, c).Keys
  {
    forall k ensures k in EvidenceOf(p, b) <==> k in EvidenceOf(p, c) {
      CreditedIffSpoken(p, b, k);
      CreditedIffSpoken(p, c, k);
      if Spoken(p, b, k) { SameSpeakers(p, b, c, k); }
      if Spoken(p, c, k) { SameSpeakers(p, c, b, k); }
    }
  }

  lemma SameCredit(p: Policy, b: seq<Signed>, c: seq<Signed>, k: Key)
    requires multiset(b) == multiset(c) && Consistent(p, b)
    requires k in EvidenceOf(p, b) && k in EvidenceOf(p, c)
    ensures EvidenceOf(p, b)[k] == EvidenceOf(p, c)[k]
  {
    FirstEligibleCounts(p, b, k);
    FirstEligibleCounts(p, c, k);
    var i :| First(p, b, i, k);
    var j :| First(p, c, j, k);
    assert c[j] in multiset(c) && c[j] in b;
    var l :| 0 <= l < |b| && b[l] == c[j];
    assert Credit(b[i]) == Credit(b[l]);
  }

  // ----- bounds ------------------------------------------------------------

  lemma {:induction false} SumMapBound<K>(m: map<K, nat>, bound: nat)
    requires forall k :: k in m ==> m[k] <= bound
    ensures SumMap(m) <= bound * |m|
    decreases |m|
  {
    if m != map[] {
      var k :| k in m;
      var rest := m - {k};
      SumMapPick(m, k);
      assert m.Keys == rest.Keys + {k};
      assert |m| == |rest| + 1;
      SumMapBound(rest, bound);
      OneMore(bound, |rest|);
    }
  }

  lemma OneMore(bound: nat, n: nat)
    ensures bound * (n + 1) == bound * n + bound
  {
  }

  lemma {:induction false} CreditsBounded(p: Policy, b: seq<Signed>)
    ensures forall k :: k in EvidenceOf(p, b) ==> EvidenceOf(p, b)[k] <= CHUNK_SIZE
    ensures |EvidenceOf(p, b)| <= |b|
  {
    if |b| > 0 {
      CreditsBounded(p, b[..|b| - 1]);
      var ev, s := EvidenceOf(p, b[..|b| - 1]), b[|b| - 1];
      if Fresh(p, ev, s) {
        assert ev[KeyOf(s.receipt) := Credit(s)].Keys == ev.Keys + {KeyOf(s.receipt)};
      }
    }
  }

  /** The bytes credited to a consumer for a work are at most one block for each
      distinct position accepted, and so at most one block per receipt. */
  lemma {:induction false} BlocksBoundBytes(p: Policy, b: seq<Signed>, pair: Pair)
    ensures BytesFor(EvidenceOf(p, b), pair) <= CHUNK_SIZE * |Only(EvidenceOf(p, b), pair)|
    ensures |Only(EvidenceOf(p, b), pair)| <= |b|
  {
    var ev := EvidenceOf(p, b);
    CreditsBounded(p, b);
    SumMapBound(Only(ev, pair), CHUNK_SIZE);
    SubsetSize(Only(ev, pair).Keys, ev.Keys);
  }

  lemma {:induction false} SubsetSize<T>(a: set<T>, b: set<T>)
    requires a <= b
    ensures |a| <= |b|
    decreases |a|
  {
    if a != {} {
      var x :| x in a;
      SubsetSize(a - {x}, b - {x});
      assert a == (a - {x}) + {x} && b == (b - {x}) + {x};
    }
  }
}
