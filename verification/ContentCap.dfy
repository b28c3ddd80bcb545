/** When the bytes credited for a work stay within its content, whoever signed the
    receipts. */
module ContentCap {
  import opened Words
  import opened Sums
  import opened Ids
  import opened Receipts
  import opened Delivery
  import opened DeliveryProtocol

  // ----- a bound for any signers -------------------------------------------

  /** What the credited positions of a pair hold in the content itself. */
  function Entitled(ev: Evidence, pair: Pair, size: nat): Evidence {
    map k | k in ev && k.pair == pair :: BlockLen(size, k.chunk)
  }

  /** Chunk indices are machine words. */
  ghost predicate WordChunks(ev: Evidence) {
    forall k :: k in ev ==> k.chunk < U64
  }

  lemma {:induction false} BundleChunks(p: Policy, b: seq<Signed>)
    ensures WordChunks(EvidenceOf(p, b))
  {
    if |b| > 0 { BundleChunks(p, b[..|b| - 1]); }
  }

  /** Distinct blocks never hold more than the content, and all of them hold it. */
  lemma {:induction false} EntitledWithin(ev: Evidence, pair: Pair, size: nat)
    requires WordChunks(ev)
    ensures SumMap(Entitled(ev, pair, size)) <= size
    ensures size < U64 && (forall c: nat :: c < U64 ==> Key(pair, c) in ev) ==>
      SumMap(Entitled(ev, pair, size)) == size
  {
    var t := Entitled(ev, pair, size);
    assert PartBelow(t, pair, U64) == t;
    PartialSum(size, t, pair, U64);
  }

  /** Each position of the pair is credited no more than its block holds. */
  ghost predicate WithinBlocks(ev: Evidence, pair: Pair, size: nat) {
    forall c: nat :: Key(pair, c) in ev ==> ev[Key(pair, c)] <= BlockLen(size, c)
  }

  /** Whoever signed: credits within their blocks total within the content. */
  lemma {:induction false} AnySignersWithinContent(p: Policy, b: seq<Signed>, pair: Pair, size: nat)
    requires WithinBlocks(EvidenceOf(p, b), pair, size)
    ensures BytesFor(EvidenceOf(p, b), pair) <= size
  {
    var ev := EvidenceOf(p, b);
    BundleChunks(p, b);
    EntitledWithin(ev, pair, size);
    forall k | k in Only(ev, pair) ensures Only(ev, pair)[k] <= Entitled(ev, pair, size)[k] {
      assert k == Key(pair, k.chunk);
    }
    SumMapMono(Only(ev, pair), Entitled(ev, pair, size));
  }

  /** The guard, read off the bundle: the first eligible receipt for each position
      of the pair claims no more than that block holds. */
  lemma {:induction false} WithinBlocksIff(p: Policy, b: seq<Signed>, pair: Pair, size: nat)
    ensures WithinBlocks(EvidenceOf(p, b), pair, size) <==>
      forall c: nat, i :: First(p, b, i, Key(pair, c)) ==> Credit(b[i]) <= BlockLen(size, c)
  {
    forall c: nat ensures var k := Key(pair, c);
      (k in EvidenceOf(p, b) <==> exists i :: First(p, b, i, k)) &&
      forall i :: First(p, b, i, k) ==> EvidenceOf(p, b)[k] == Credit(b[i])
    {
      FirstEligibleCounts(p, b, Key(pair, c));
    }
  }

  // ----- the exact condition -----------------------------------------------

  /** `full` adds to `ev` only true block lengths of the pair's content. */
  ghost predicate Extends(ev: Evidence, full: Evidence, pair: Pair, size: nat) {
    && WordChunks(full)
    && (forall k :: k in ev ==> k in full && full[k] == ev[k])
    && (forall k :: k in full && k !in ev && k.pair == pair ==> full[k] == BlockLen(size, k.chunk))
  }

  /** True additions move the credit and the entitlement alike. */
  lemma {:induction false} ExtensionBalance(ev: Evidence, full: Evidence, pair: Pair, size: nat)
    requires Extends(ev, full, pair, size)
    ensures BytesFor(full, pair) + SumMap(Entitled(ev, pair, size))
         == BytesFor(ev, pair) + SumMap(Entitled(full, pair, size))
    decreases |full|
  {
    if full.Keys <= ev.Keys {
      assert full == ev;
    } else {
      var k :| k in full && k !in ev;
      var rest := full - {k};
      ExtensionBalance(ev, rest, pair, size);
      OneFewer(full, k, pair, size);
    }
  }

  lemma OneFewer(full: Evidence, k: Key, pair: Pair, size: nat)
    requires k in full
    ensures BytesFor(full, pair) == BytesFor(full - {k}, pair) + (if k.pair == pair then full[k] else 0)
    ensures SumMap(Entitled(full, pair, size))
         == SumMap(Entitled(full - {k}, pair, size)) + (if k.pair == pair then BlockLen(size, k.chunk) else 0)
  {
    if k.pair == pair {
      assert Only(full, pair) - {k} == Only(full - {k}, pair);
      assert Entitled(full, pair, size) - {k} == Entitled(full - {k}, pair, size);
      SumMapPick(Only(full, pair), k);
      SumMapPick(Entitled(full, pair, size), k);
    } else {
      assert Only(full, pair) == Only(full - {k}, pair);
      assert Entitled(full, pair, size) == Entitled(full - {k}, pair, size);
    }
  }

  /** The evidence together with the true length of every block it lacks. */
  ghost function Completed(ev: Evidence, pair: Pair, size: nat): Evidence {
    map k | k in ev.Keys + (set c: nat | c < U64 :: Key(pair, c)) :: if k in ev then ev[k] else BlockLen(size, k.chunk)
  }

  lemma CompletedExtends(ev: Evidence, pair: Pair, size: nat)
    requires WordChunks(ev)
    ensures Extends(ev, Completed(ev, pair, size), pair, size)
    ensures forall c: nat :: c < U64 ==> Key(pair, c) in Completed(ev, pair, size)
  {
  }

  /** The exact condition: honest deliveries added to a bundle can never take the
      total past the content exactly when the bundle credits no more than the
      blocks it names hold. */
  lemma {:induction false} CapSurvivesIff(p: Policy, b: seq<Signed>, pair: Pair, size: nat)
    requires size < U64
    ensures (forall full :: Extends(EvidenceOf(p, b), full, pair, size) ==> BytesFor(full, pair) <= size) <==>
      BytesFor(EvidenceOf(p, b), pair) <= SumMap(Entitled(EvidenceOf(p, b), pair, size))
  {
    var ev := EvidenceOf(p, b);
    BundleChunks(p, b);
    forall full | Extends(ev, full, pair, size)
      ensures BytesFor(full, pair) + SumMap(Entitled(ev, pair, size))
           == BytesFor(ev, pair) + SumMap(Entitled(full, pair, size))
      ensures SumMap(Entitled(full, pair, size)) <= size
    {
      ExtensionBalance(ev, full, pair, size);
      EntitledWithin(full, pair, size);
    }
    var all := Completed(ev, pair, size);
    CompletedExtends(ev, pair, size);
    EntitledWithin(all, pair, size);
  }

  // ----- a bundle past the content -----------------------------------------

  /** One eligible receipt for a full block is credited a full block, wherever it
      claims the block lies and however short the work is. */
  lemma {:induction false} LoneReceiptCredit(p: Policy, s: Signed)
    requires Eligible(p, s)
    ensures BytesFor(EvidenceOf(p, [s]), KeyOf(s.receipt).pair) == Credit(s)
  {
    var k := KeyOf(s.receipt);
    var none: Evidence := map[];
    assert [s][..|[s]| - 1] == [] && Absorb(p, none, []) == none;
    assert EvidenceOf(p, [s]) == Absorb1(p, none, s);
    assert EvidenceOf(p, [s]) == map[][k := Credit(s)];
    assert Only(EvidenceOf(p, [s]), k.pair) == map[][k := Credit(s)];
    SumMapSet(map[], k, Credit(s));
  }

  /** A work of one byte, and a block far past its end claimed in full by a
      credentialed node and a consumer who both sign. */
  const SHORT: seq<byte> := [0]
  const CLAIM: Receipt := Receipt("w", "c", "n", 1_000_000, CHUNK_SIZE, 0)
  const COLLUDING: Policy := Policy(
    (r: Receipt, sig: string) => Some(if sig == "n" then Lower(r.node) else Lower(r.consumer)), 0, (n: Id) => true)

  lemma {:induction false} CapCanFail()
    ensures Eligible(COLLUDING, Signed(CLAIM, "n", "c"))
    ensures CLAIM.chunk * CHUNK_SIZE > |SHORT| && BlockLen(|SHORT|, CLAIM.chunk) == 0
    ensures BytesFor(EvidenceOf(COLLUDING, [Signed(CLAIM, "n", "c")]), KeyOf(CLAIM).pair) == CHUNK_SIZE > |SHORT|
  {
    assert "c"[0] != "n"[0];
    LoneReceiptCredit(COLLUDING, Signed(CLAIM, "n", "c"));
  }
}
