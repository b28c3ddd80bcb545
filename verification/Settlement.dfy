/** The settlement tail: routing each credited work to a direct Merkle entry or to
    escrow, and the conservation of value from fees to committed totals. */
module Settlement {
  import opened Words
  import opened Sums
  import opened Ids
  import opened Ledgers
  import opened Allocation
  import opened AllocationLaws
  import opened Datasets
  import opened HexText
  import opened Merkle

  /** The leaf and pair hashes, left abstract. */
  datatype Hashes = Hashes(leaf: (u256, nat) -> u256, pair: PairHash)

  datatype Direct = Direct(work: u256, amount: nat, proof: seq<u256>)

  datatype Escrowed = Escrowed(work: u256, amount: nat)

  datatype Settlement = Settlement(
    epoch: nat, root: u256, totalCredits: nat, unallocated: nat,
    entries: seq<Direct>, escrow: seq<Escrowed>, escrowTotal: nat)

  datatype SettleError = Dapr(error: DaprError) | BadWork(work: Id) | NoCredits

  // ----- routing -----------------------------------------------------------

  /** The keys routed to escrow, or to the direct tree, in iteration order. */
  function Routed(keys: seq<Id>, escrow: set<Id>, held: bool): (r: seq<Id>)
    ensures forall k :: k in r <==> k in keys && ((k in escrow) == held)
  {
    if |keys| == 0 then []
    else
      var init, last := keys[..|keys| - 1], keys[|keys| - 1];
      assert keys == init + [last];
      if (last in escrow) == held then Routed(init, escrow, held) + [last] else Routed(init, escrow, held)
  }

  lemma {:induction false} RoutedSnoc(keys: seq<Id>, k: Id, escrow: set<Id>, held: bool)
    ensures Routed(keys + [k], escrow, held)
         == if (k in escrow) == held then Routed(keys, escrow, held) + [k] else Routed(keys, escrow, held)
  {
    assert (keys + [k])[..|keys|] == keys;
  }

  ghost predicate NoRepeats<T>(keys: seq<T>) {
    forall i, j :: 0 <= i < j < |keys| ==> keys[i] != keys[j]
  }

  lemma NoRepeatsSnoc<T>(keys: seq<T>)
    requires |keys| > 0
    ensures NoRepeats(keys) <==> NoRepeats(keys[..|keys| - 1]) && keys[|keys| - 1] !in keys[..|keys| - 1]
  {
  }

  lemma {:induction false} RoutedOnce(keys: seq<Id>, escrow: set<Id>, held: bool)
    requires NoRepeats(keys)
    ensures NoRepeats(Routed(keys, escrow, held))
  {
    if |keys| > 0 {
      var init, last := keys[..|keys| - 1], keys[|keys| - 1];
      NoRepeatsSnoc(keys);
      RoutedOnce(init, escrow, held);
      var r := Routed(init, escrow, held);
      NoRepeatsSnoc(r + [last]);
      assert (r + [last])[..|r|] == r;
    }
  }

  lemma {:induction false} RoutedSum(f: Id -> nat, keys: seq<Id>, escrow: set<Id>)
    ensures SumOf(f, Routed(keys, escrow, false)) + SumOf(f, Routed(keys, escrow, true)) == SumOf(f, keys)
  {
    if |keys| > 0 {
      var init, last := keys[..|keys| - 1], keys[|keys| - 1];
      assert keys == init + [last];
      RoutedSum(f, init, escrow);
      RoutedSumStep(f, init, last, escrow, true);
      RoutedSumStep(f, init, last, escrow, false);
    }
  }

  lemma RoutedSumStep(f: Id -> nat, keys: seq<Id>, k: Id, escrow: set<Id>, held: bool)
    ensures SumOf(f, Routed(keys + [k], escrow, held))
         == SumOf(f, Routed(keys, escrow, held)) + (if (k in escrow) == held then f(k) else 0)
  {
    RoutedSnoc(keys, k, escrow, held);
    SumOfSnoc(f, Routed(keys, escrow, held), k);
  }

  // ----- the specified result ----------------------------------------------

  function WorkOf(k: Id): u256 {
    if Parse(k).Some? then Parse(k).value else 0
  }

  predicate AllParse(keys: seq<Id>) {
    forall k :: k in keys ==> Parse(k).Some?
  }

  function LeafOf(hs: Hashes, m: map<Id, nat>, k: Id): u256 {
    hs.leaf(WorkOf(k), Get(m, k))
  }

  function Leaves(hs: Hashes, m: map<Id, nat>, direct: seq<Id>): (r: seq<u256>)
    ensures |r| == |direct|
  {
    seq(|direct|, i requires 0 <= i < |direct| => LeafOf(hs, m, direct[i]))
  }

  function WorksOf(keys: seq<Id>): (r: seq<u256>)
    ensures |r| == |keys|
  {
    seq(|keys|, i requires 0 <= i < |keys| => WorkOf(keys[i]))
  }

  function AmountsOf(m: map<Id, nat>, keys: seq<Id>): (r: seq<nat>)
    ensures |r| == |keys|
  {
    seq(|keys|, i requires 0 <= i < |keys| => Get(m, keys[i]))
  }

  function RootOf(hs: Hashes, leaves: seq<u256>): u256 {
    if |leaves| == 0 then 0 else TreeOf(hs.pair, leaves).Root()
  }

  function ProofOf(hs: Hashes, leaves: seq<u256>, i: nat): seq<u256> {
    if |leaves| == 0 then [] else Siblings(TreeOf(hs.pair, leaves).levels, i)
  }

  function EntryAt(hs: Hashes, m: map<Id, nat>, direct: seq<Id>, i: nat): Direct
    requires i < |direct|
  {
    Direct(WorkOf(direct[i]), Get(m, direct[i]), ProofOf(hs, Leaves(hs, m, direct), i))
  }

  function EntriesOf(hs: Hashes, m: map<Id, nat>, direct: seq<Id>): (r: seq<Direct>)
    ensures |r| == |direct|
  {
    seq(|direct|, i requires 0 <= i < |direct| => EntryAt(hs, m, direct, i))
  }

  function EscrowOf(m: map<Id, nat>, held: seq<Id>): (r: seq<Escrowed>)
    ensures |r| == |held|
  {
    seq(|held|, i requires 0 <= i < |held| => Escrowed(WorkOf(held[i]), Get(m, held[i])))
  }

  function Keys(p: Payouts): seq<Id> { SortedKeys(p.perWork.Keys) }

  function DirectKeys(p: Payouts, escrow: set<Id>): seq<Id> { Routed(Keys(p), escrow, false) }

  function HeldKeys(p: Payouts, escrow: set<Id>): seq<Id> { Routed(Keys(p), escrow, true) }

  function Finalized(hs: Hashes, epoch: nat, p: Payouts, escrow: set<Id>): Settlement {
    var direct, held := DirectKeys(p, escrow), HeldKeys(p, escrow);
    Settlement(
      epoch, RootOf(hs, Leaves(hs, p.perWork, direct)), Wrap(Sum(AmountsOf(p.perWork, direct))), p.unallocated,
      EntriesOf(hs, p.perWork, direct), EscrowOf(p.perWork, held), Wrap(Sum(AmountsOf(p.perWork, held))))
  }

  /** The first id in iteration order that is not a 32-byte value. */
  predicate FirstBad(keys: seq<Id>, k: Id) {
    exists i :: 0 <= i < |keys| && keys[i] == k && Parse(k).None? && AllParse(keys[..i])
  }

  // ----- the imperative pass -----------------------------------------------

  /** Where routing has got to after some of the keys. */
  datatype Routing = Routing(
    ids: seq<u256>, amounts: seq<nat>, leaves: seq<u256>, escrow: seq<Escrowed>, escrowTotal: u128)

  ghost predicate DirectSoFar(hs: Hashes, m: map<Id, nat>, direct: seq<Id>, r: Routing) {
    r.ids == WorksOf(direct) && r.amounts == AmountsOf(m, direct) && r.leaves == Leaves(hs, m, direct)
  }

  ghost predicate HeldSoFar(m: map<Id, nat>, held: seq<Id>, r: Routing) {
    r.escrow == EscrowOf(m, held) && r.escrowTotal == Wrap(Sum(AmountsOf(m, held)))
  }

  ghost predicate RoutedSoFar(hs: Hashes, m: map<Id, nat>, keys: seq<Id>, escrow: set<Id>, r: Routing) {
    DirectSoFar(hs, m, Routed(keys, escrow, false), r) && HeldSoFar(m, Routed(keys, escrow, true), r)
  }

  lemma AmountsSnoc(m: map<Id, nat>, keys: seq<Id>, k: Id)
    ensures AmountsOf(m, keys + [k]) == AmountsOf(m, keys) + [Get(m, k)]
    ensures Sum(AmountsOf(m, keys + [k])) == Sum(AmountsOf(m, keys)) + Get(m, k)
  {
    assert AmountsOf(m, keys + [k]) == AmountsOf(m, keys) + [Get(m, k)];
    SumSnoc(AmountsOf(m, keys), Get(m, k));
  }

  lemma LeavesSnoc(hs: Hashes, m: map<Id, nat>, keys: seq<Id>, k: Id)
    ensures Leaves(hs, m, keys + [k]) == Leaves(hs, m, keys) + [LeafOf(hs, m, k)]
    ensures WorksOf(keys + [k]) == WorksOf(keys) + [WorkOf(k)]
  {
  }

  lemma EscrowSnoc(m: map<Id, nat>, keys: seq<Id>, k: Id)
    ensures EscrowOf(m, keys + [k]) == EscrowOf(m, keys) + [Escrowed(WorkOf(k), Get(m, k))]
  {
  }

  lemma WrapStep(a: nat, b: nat)
    ensures Wrap(Wrap(a) + b) == Wrap(a + b)
  {
  }

  lemma DirectStep(hs: Hashes, m: map<Id, nat>, direct: seq<Id>, k: Id, r: Routing)
    requires DirectSoFar(hs, m, direct, r)
    ensures DirectSoFar(hs, m, direct + [k],
      r.(ids := r.ids + [WorkOf(k)], amounts := r.amounts + [Get(m, k)], leaves := r.leaves + [LeafOf(hs, m, k)]))
  {
    AmountsSnoc(m, direct, k);
    LeavesSnoc(hs, m, direct, k);
  }

  lemma HeldStep(m: map<Id, nat>, held: seq<Id>, k: Id, r: Routing)
    requires HeldSoFar(m, held, r)
    ensures HeldSoFar(m, held + [k],
      r.(escrow := r.escrow + [Escrowed(WorkOf(k), Get(m, k))], escrowTotal := Wrap(r.escrowTotal + Get(m, k))))
  {
    AmountsSnoc(m, held, k);
    EscrowSnoc(m, held, k);
    WrapStep(Sum(AmountsOf(m, held)), Get(m, k));
  }

  /** Route one work. */
  method RouteOne(hs: Hashes, m: map<Id, nat>, ghost done: seq<Id>, k: Id, escrow: set<Id>, r: Routing)
    returns (next: Routing)
    requires Parse(k).Some? && k in m && RoutedSoFar(hs, m, done, escrow, r)
    ensures RoutedSoFar(hs, m, done + [k], escrow, next)
  {
    var work, amount := Parse(k).value, m[k];
    RoutedSnoc(done, k, escrow, false);
    RoutedSnoc(done, k, escrow, true);
    if k in escrow {
      HeldStep(m, Routed(done, escrow, true), k, r);
      next := r.(escrow := r.escrow + [Escrowed(work, amount)], escrowTotal := Wrap(r.escrowTotal + amount));
    } else {
      DirectStep(hs, m, Routed(done, escrow, false), k, r);
      next := r.(ids := r.ids + [work], amounts := r.amounts + [amount], leaves := r.leaves + [hs.leaf(work, amount)]);
    }
  }

  function Assembled(ids: seq<u256>, amounts: seq<nat>, levels: seq<seq<u256>>): (r: seq<Direct>)
    requires |ids| == |amounts|
    ensures |r| == |ids|
  {
    seq(|ids|, i requires 0 <= i < |ids| => Direct(ids[i], amounts[i], Siblings(levels, i)))
  }

  /** One entry per routed work, its proof generated by position. */
  method MakeEntries(ids: seq<u256>, amounts: seq<nat>, tree: MerkleTree) returns (entries: seq<Direct>)
    requires |ids| == |amounts| && tree.Rooted()
    ensures entries == Assembled(ids, amounts, tree.levels)
  {
    entries := [];
    for i := 0 to |ids|
      invariant entries == Assembled(ids, amounts, tree.levels)[..i]
    {
      var proof := Proof(tree, i);
      entries := entries + [Direct(ids[i], amounts[i], proof)];
    }
  }

  method WrappingSum(amounts: seq<nat>) returns (total: u128)
    ensures total == Wrap(Sum(amounts))
  {
    total := 0;
    for i := 0 to |amounts|
      invariant total == Wrap(Sum(amounts[..i]))
    {
      SumPrefix(amounts, i);
      WrapStep(Sum(amounts[..i]), amounts[i]);
      total := Wrap(total + amounts[i]);
    }
    assert amounts[..|amounts|] == amounts;
  }

  /** The direct tree's root and entries. */
  method BuildEntries(hs: Hashes, ghost m: map<Id, nat>, ghost direct: seq<Id>, r: Routing)
    returns (root: u256, entries: seq<Direct>, total: u128)
    requires DirectSoFar(hs, m, direct, r)
    ensures root == RootOf(hs, Leaves(hs, m, direct)) && entries == EntriesOf(hs, m, direct)
    ensures total == Wrap(Sum(AmountsOf(m, direct)))
  {
    if |r.ids| == 0 {
      return 0, [], 0;
    }
    var tree := Build(hs.pair, r.leaves);
    root := tree.Root();
    entries := MakeEntries(r.ids, r.amounts, tree);
    assert entries == EntriesOf(hs, m, direct);
    total := WrappingSum(r.amounts);
  }

  /** What `finalize` returns: no credits, the first work that is not a 32-byte
      value, or the whole settlement. */
  ghost predicate Finalizes(
      hs: Hashes, epoch: nat, p: Payouts, escrow: set<Id>, r: Fallible<Settlement, SettleError>)
  {
    if p.perWork == map[] then r == Failed(NoCredits)
    else if AllParse(Keys(p)) then r == Done(Finalized(hs, epoch, p, escrow))
    else r.Failed? && r.error.BadWork? && FirstBad(Keys(p), r.error.work)
  }

  /** `finalize`. */
  method Finalize(hs: Hashes, epoch: nat, p: Payouts, escrow: set<Id>) returns (r: Fallible<Settlement, SettleError>)
    ensures Finalizes(hs, epoch, p, escrow, r)
  {
    if p.perWork == map[] {
      return Failed(NoCredits);
    }
    var keys := Keys(p);
    assert keys != [] by {
      var k :| k in p.perWork;
      assert k in keys;
    }
    var routing, bad := RouteAll(hs, p.perWork, keys, escrow);
    if bad.Some? {
      return Failed(BadWork(bad.value));
    }
    var root, entries, total := BuildEntries(hs, p.perWork, DirectKeys(p, escrow), routing);
    return Done(Settlement(epoch, root, total, p.unallocated, entries, routing.escrow, routing.escrowTotal));
  }

  /** Route every work in order, stopping at the first that is not a 32-byte value. */
  method RouteAll(hs: Hashes, m: map<Id, nat>, keys: seq<Id>, escrow: set<Id>)
    returns (routing: Routing, bad: Option<Id>)
    requires forall k :: k in keys ==> k in m
    ensures bad.None? <==> AllParse(keys)
    ensures bad.None? ==> RoutedSoFar(hs, m, keys, escrow, routing)
    ensures bad.Some? ==> FirstBad(keys, bad.value)
  {
    routing := Routing([], [], [], [], 0);
    for i := 0 to |keys|
      invariant AllParse(keys[..i]) && RoutedSoFar(hs, m, keys[..i], escrow, routing)
    {
      assert keys[i] in keys;
      if Parse(keys[i]).None? {
        return routing, Some(keys[i]);
      }
      assert keys[..i + 1] == keys[..i] + [keys[i]];
      routing := RouteOne(hs, m, keys[..i], keys[i], escrow, routing);
    }
    assert keys[..|keys|] == keys;
    bad := None;
  }

  // ----- what a settlement guarantees --------------------------------------

  /** Every credited key is routed to exactly one bucket, once. */
  lemma {:induction false} KeysRoutedOnce(p: Payouts, escrow: set<Id>)
    ensures NoRepeats(DirectKeys(p, escrow) + HeldKeys(p, escrow))
    ensures forall k :: k in DirectKeys(p, escrow) <==> k in p.perWork && k !in escrow
    ensures forall k :: k in HeldKeys(p, escrow) <==> k in p.perWork && k in escrow
  {
    assert NoRepeats(Keys(p));
    RoutedOnce(Keys(p), escrow, false);
    RoutedOnce(Keys(p), escrow, true);
    Disjoint(DirectKeys(p, escrow), HeldKeys(p, escrow));
  }

  lemma Disjoint<T>(a: seq<T>, b: seq<T>)
    requires NoRepeats(a) && NoRepeats(b) && forall x :: x in a ==> x !in b
    ensures NoRepeats(a + b)
  {
    forall i, j | 0 <= i < j < |a + b| ensures (a + b)[i] != (a + b)[j] {
      if i < |a| <= j { assert a[i] in a && b[j - |a|] in b; }
    }
  }

  // The works as published: 32-byte values, in entry order.
  function DirectWorks(s: Settlement): (r: seq<u256>)
    ensures |r| == |s.entries|
  {
    seq(|s.entries|, i requires 0 <= i < |s.entries| => s.entries[i].work)
  }

  function EscrowWorks(s: Settlement): (r: seq<u256>)
    ensures |r| == |s.escrow|
  {
    seq(|s.escrow|, i requires 0 <= i < |s.escrow| => s.escrow[i].work)
  }

  function Published(s: Settlement): seq<u256> { DirectWorks(s) + EscrowWorks(s) }

  lemma WorksConcat(a: seq<Id>, b: seq<Id>)
    ensures WorksOf(a + b) == WorksOf(a) + WorksOf(b)
  {
  }

  lemma PublishedKeys(hs: Hashes, epoch: nat, p: Payouts, escrow: set<Id>)
    ensures var s := Finalized(hs, epoch, p, escrow);
            && DirectWorks(s) == WorksOf(DirectKeys(p, escrow))
            && EscrowWorks(s) == WorksOf(HeldKeys(p, escrow))
            && Published(s) == WorksOf(DirectKeys(p, escrow) + HeldKeys(p, escrow))
  {
    var s := Finalized(hs, epoch, p, escrow);
    assert DirectWorks(s) == WorksOf(DirectKeys(p, escrow));
    assert EscrowWorks(s) == WorksOf(HeldKeys(p, escrow));
    WorksConcat(DirectKeys(p, escrow), HeldKeys(p, escrow));
  }

  lemma InWorks(keys: seq<Id>, b: u256)
    ensures b in WorksOf(keys) <==> exists k :: k in keys && WorkOf(k) == b
  {
    if b in WorksOf(keys) {
      var i :| 0 <= i < |keys| && WorksOf(keys)[i] == b;
      assert keys[i] in keys;
    }
    if k :| k in keys && WorkOf(k) == b {
      var i :| 0 <= i < |keys| && keys[i] == k;
      assert WorksOf(keys)[i] == b;
    }
  }

  /** A work is published in a bucket exactly when some credited key that names it
      is routed there. */
  lemma {:induction false} PublishedIn(hs: Hashes, epoch: nat, p: Payouts, escrow: set<Id>, b: u256)
    ensures var s := Finalized(hs, epoch, p, escrow);
            && (b in DirectWorks(s) <==> exists k :: k in p.perWork && k !in escrow && WorkOf(k) == b)
            && (b in EscrowWorks(s) <==> exists k :: k in p.perWork && k in escrow && WorkOf(k) == b)
  {
    KeysRoutedOnce(p, escrow);
    PublishedKeys(hs, epoch, p, escrow);
    InWorks(DirectKeys(p, escrow), b);
    InWorks(HeldKeys(p, escrow), b);
  }

  /** No two of the keys name the same 32-byte value. */
  ghost predicate OneSpelling(keys: set<Id>) {
    forall a, b :: a in keys && b in keys && Parse(a) == Parse(b) ==> a == b
  }

  lemma {:induction false} DistinctWorksIff(keys: seq<Id>)
    requires NoRepeats(keys) && AllParse(keys)
    ensures NoRepeats(WorksOf(keys)) <==> OneSpelling(set k | k in keys)
  {
    var works := WorksOf(keys);
    if NoRepeats(works) {
      forall a, b | a in keys && b in keys && Parse(a) == Parse(b) ensures a == b {
        var i :| 0 <= i < |keys| && keys[i] == a;
        var j :| 0 <= j < |keys| && keys[j] == b;
        assert works[i] == works[j];
      }
    }
    if OneSpelling(set k | k in keys) {
      forall i, j | 0 <= i < j < |works| ensures works[i] != works[j] {
        assert keys[i] in keys && keys[j] in keys && keys[i] != keys[j];
      }
    }
  }

  /** Over both published lists every work occurs at most once exactly when no two
      credited keys are spellings of one value; and each credited key's work does occur. */
  lemma {:induction false} PublishedOnceIff(hs: Hashes, epoch: nat, p: Payouts, escrow: set<Id>)
    requires AllParse(Keys(p))
    ensures var s := Finalized(hs, epoch, p, escrow);
            && (NoRepeats(Published(s)) <==> OneSpelling(p.perWork.Keys))
            && forall k :: k in p.perWork ==> WorkOf(k) in Published(s)
  {
    var keys := DirectKeys(p, escrow) + HeldKeys(p, escrow);
    KeysRoutedOnce(p, escrow);
    PublishedKeys(hs, epoch, p, escrow);
    forall k | k in keys ensures k in p.perWork && Parse(k).Some? {
      assert k in Keys(p);
    }
    forall k | k in p.perWork ensures k in keys && WorkOf(k) in WorksOf(keys) {
      assert k in DirectKeys(p, escrow) || k in HeldKeys(p, escrow);
      InWorks(keys, WorkOf(k));
    }
    assert (set k | k in keys) == p.perWork.Keys;
    DistinctWorksIff(keys);
  }

  /** One value credited under two spellings, one of them escrowed. */
  function TwoSpellings(b: u256): Payouts {
    Payouts(map[Format(b) := 5, Digits(b, 64) := 7], 0, map[])
  }

  /** Such a work is accepted, and published in both buckets. */
  lemma {:induction false} BothBucketsPossible(hs: Hashes, epoch: nat, b: u256)
    ensures var p, escrow := TwoSpellings(b), {Format(b)};
            var s := Finalized(hs, epoch, p, escrow);
            p.perWork != map[] && AllParse(Keys(p)) && b in DirectWorks(s) && b in EscrowWorks(s)
  {
    FormatParses(b);
    BareDigitsParse(b);
    BothBuckets(hs, epoch, TwoSpellings(b), Format(b), Digits(b, 64), b);
  }

  /** Two credited spellings of one value, one of them escrowed. */
  lemma BothBuckets(hs: Hashes, epoch: nat, p: Payouts, held: Id, free: Id, b: u256)
    requires p.perWork.Keys == {held, free} && held != free
    requires Parse(held) == Parse(free) == Some(b)
    ensures var s := Finalized(hs, epoch, p, {held});
            p.perWork != map[] && AllParse(Keys(p)) && b in DirectWorks(s) && b in EscrowWorks(s)
  {
    assert held in p.perWork && free in p.perWork && free !in {held};
    PublishedIn(hs, epoch, p, {held}, b);
  }

  /** Every direct entry's proof verifies against the committed root. */
  lemma {:induction false} EntriesVerify(hs: Hashes, epoch: nat, p: Payouts, escrow: set<Id>, i: nat)
    requires i < |Finalized(hs, epoch, p, escrow).entries|
    ensures var s := Finalized(hs, epoch, p, escrow);
            Fold(hs.pair, hs.leaf(s.entries[i].work, s.entries[i].amount), s.entries[i].proof) == s.root
  {
    EveryProofVerifies(hs.pair, Leaves(hs, p.perWork, DirectKeys(p, escrow)), i);
  }

  function DirectAmounts(s: Settlement): (r: seq<nat>)
    ensures |r| == |s.entries|
  {
    seq(|s.entries|, i requires 0 <= i < |s.entries| => s.entries[i].amount)
  }

  function EscrowAmounts(s: Settlement): (r: seq<nat>)
    ensures |r| == |s.escrow|
  {
    seq(|s.escrow|, i requires 0 <= i < |s.escrow| => s.escrow[i].amount)
  }

  ghost function GetFn(m: map<Id, nat>): Id -> nat { (k: Id) => Get(m, k) }

  lemma {:induction false} AmountsAreSum(m: map<Id, nat>, keys: seq<Id>)
    ensures Sum(AmountsOf(m, keys)) == SumOf(GetFn(m), keys)
  {
    if |keys| > 0 {
      var n := |keys| - 1;
      AmountsAreSum(m, keys[..n]);
      assert AmountsOf(m, keys)[..n] == AmountsOf(m, keys[..n]);
    }
  }

  lemma {:induction false} BucketsTotal(p: Payouts, escrow: set<Id>)
    ensures Sum(AmountsOf(p.perWork, DirectKeys(p, escrow))) + Sum(AmountsOf(p.perWork, HeldKeys(p, escrow)))
         == SumMap(p.perWork)
  {
    AmountsAreSum(p.perWork, DirectKeys(p, escrow));
    AmountsAreSum(p.perWork, HeldKeys(p, escrow));
    RoutedSum(GetFn(p.perWork), Keys(p), escrow);
    ListedTotal(p.perWork);
  }

  lemma ListedTotal(m: map<Id, nat>)
    ensures SumOf(GetFn(m), SortedKeys(m.Keys)) == SumMap(m)
  {
    SumMapListed(m, GetFn(m), SortedKeys(m.Keys));
  }

  lemma BucketAmounts(hs: Hashes, epoch: nat, p: Payouts, escrow: set<Id>)
    ensures var s := Finalized(hs, epoch, p, escrow);
            && DirectAmounts(s) == AmountsOf(p.perWork, DirectKeys(p, escrow))
            && EscrowAmounts(s) == AmountsOf(p.perWork, HeldKeys(p, escrow))
  {
  }

  lemma {:induction false} BucketsConserve(hs: Hashes, epoch: nat, p: Payouts, escrow: set<Id>)
    ensures var s := Finalized(hs, epoch, p, escrow);
            && Sum(DirectAmounts(s)) + Sum(EscrowAmounts(s)) == SumMap(p.perWork)
            && s.totalCredits == Wrap(Sum(DirectAmounts(s)))
            && s.escrowTotal == Wrap(Sum(EscrowAmounts(s)))
  {
    BucketAmounts(hs, epoch, p, escrow);
    BucketsTotal(p, escrow);
  }

  /** End to end: direct entries, escrow entries and the unallocated remainder add
      up to the fees paid, whatever the routing. */
  lemma {:induction false} SettlementConserves(hs: Hashes, epoch: nat, e: Epoch, escrow: set<Id>)
    ensures var s := Finalized(hs, epoch, e.Settled(), escrow);
            Sum(DirectAmounts(s)) + Sum(EscrowAmounts(s)) + s.unallocated == SumMap(e.fees)
  {
    BucketsConserve(hs, epoch, e.Settled(), escrow);
    Conservation(e);
  }

  /** The totals, whose additions wrap, account for the credits exactly when each
      bucket's amounts sum below 2^128. */
  lemma {:induction false} TotalsExactIff(hs: Hashes, epoch: nat, p: Payouts, escrow: set<Id>)
    ensures var s := Finalized(hs, epoch, p, escrow);
            s.totalCredits + s.escrowTotal == SumMap(p.perWork) <==>
              && Sum(AmountsOf(p.perWork, DirectKeys(p, escrow))) < U128
              && Sum(AmountsOf(p.perWork, HeldKeys(p, escrow))) < U128
  {
    BucketsTotal(p, escrow);
    WrappingLoses(
      Sum(AmountsOf(p.perWork, DirectKeys(p, escrow))), Sum(AmountsOf(p.perWork, HeldKeys(p, escrow))));
  }

  /** So they account for the fees whenever the fees sum below 2^128. */
  lemma {:induction false} ModestFeesTotalExactly(hs: Hashes, epoch: nat, e: Epoch, escrow: set<Id>)
    requires SumMap(e.fees) < U128
    ensures var s := Finalized(hs, epoch, e.Settled(), escrow);
            s.totalCredits + s.escrowTotal + s.unallocated == SumMap(e.fees)
  {
    TotalsExactIff(hs, epoch, e.Settled(), escrow);
    BucketsTotal(e.Settled(), escrow);
    Conservation(e);
  }

  lemma WrappingLoses(a: nat, b: nat)
    ensures Wrap(a) + Wrap(b) == a + b <==> a < U128 && b < U128
  {
  }

  lemma {:induction false} NothingHeld(keys: seq<Id>)
    ensures Routed(keys, {}, true) == []
  {
    if |keys| > 0 { NothingHeld(keys[..|keys| - 1]); }
  }

  lemma NothingOfNothing(m: map<Id, nat>)
    ensures EscrowOf(m, []) == [] && AmountsOf(m, []) == [] && Wrap(Sum(AmountsOf(m, []))) == 0
  {
  }

  // ----- the three entry points --------------------------------------------

  /** A settlement of an epoch, when everything along the way succeeds. */
  ghost predicate Settles(e: Epoch) {
    e.Paired() && e.InRange() && e.Settled().perWork != map[] && AllParse(Keys(e.Settled()))
  }

  /** What settling an epoch returns, errors included, in the order they are met. */
  ghost predicate SettledAs(
      hs: Hashes, epoch: nat, e: Epoch, escrow: set<Id>, r: Fallible<Settlement, SettleError>)
  {
    if !e.Paired() then r == Failed(Dapr(RowCredibilityLen))
    else if !e.InRange() then r == Failed(Dapr(Overflow))
    else Finalizes(hs, epoch, e.Settled(), escrow, r)
  }

  /** `settle_raw_with_row_credibility`. */
  method SettleRawWithRowCredibility(hs: Hashes, epoch: nat, e: Epoch, escrow: set<Id>)
    returns (r: Fallible<Settlement, SettleError>)
    ensures SettledAs(hs, epoch, e, escrow, r)
    ensures r.Done? <==> Settles(e)
  {
    var res := AllocateWithRowCredibility(e);
    if res.Err? {
      return Failed(Dapr(res.error));
    }
    r := Finalize(hs, epoch, res.value, escrow);
  }

  /** `settle_raw`. */
  method SettleRaw(hs: Hashes, epoch: nat, fees: map<Id, u128>, rows: seq<RawRow>, bandwidth: map<Id, u64>, escrow: set<Id>)
    returns (r: Fallible<Settlement, SettleError>)
    ensures SettledAs(hs, epoch, Epoch(fees, rows, PerRow(rows, bandwidth)), escrow, r)
    ensures r.Done? <==> Settles(Epoch(fees, rows, PerRow(rows, bandwidth)))
  {
    var res := AllocateFromRaw(fees, rows, bandwidth);
    if res.Err? {
      return Failed(Dapr(res.error));
    }
    r := Finalize(hs, epoch, res.value, escrow);
  }

  /** `settle`: the opened dataset at the default curvature. */
  method Settle(hs: Hashes, epoch: nat, d: Dataset, escrow: set<Id>) returns (r: Fallible<Settlement, SettleError>)
    ensures !ValuesFit(d) ==> r == Failed(Dapr(Overflow))
    ensures ValuesFit(d) ==> SettledAs(hs, epoch, AsEpoch(d, PPM), escrow, r)
    ensures r.Done? <==> ValuesFit(d) && Settles(AsEpoch(d, PPM))
  {
    var res := Allocate(d, PPM);
    if res.Err? {
      return Failed(Dapr(res.error));
    }
    r := Finalize(hs, epoch, res.value, escrow);
  }

  // ----- each entry's amount -----------------------------------------------

  /** Some direct entry, or some escrow entry, gives this work this amount. */
  ghost predicate PaysDirect(s: Settlement, b: u256, amount: nat) {
    exists i :: 0 <= i < |s.entries| && s.entries[i].work == b && s.entries[i].amount == amount
  }

  ghost predicate PaysEscrow(s: Settlement, b: u256, amount: nat) {
    exists i :: 0 <= i < |s.escrow| && s.escrow[i].work == b && s.escrow[i].amount == amount
  }

  /** Some credited key, escrowed or not, spells this work and is owed this amount. */
  ghost predicate Owed(p: Payouts, escrow: set<Id>, held: bool, b: u256, amount: nat) {
    exists k :: k in p.perWork && (k in escrow) == held && Parse(k) == Some(b) && p.perWork[k] == amount
  }

  lemma {:induction false} DirectMeans(hs: Hashes, epoch: nat, p: Payouts, escrow: set<Id>, b: u256, amount: nat)
    requires AllParse(Keys(p))
    ensures PaysDirect(Finalized(hs, epoch, p, escrow), b, amount) <==> Owed(p, escrow, false, b, amount)
  {
    var s, direct := Finalized(hs, epoch, p, escrow), DirectKeys(p, escrow);
    KeysRoutedOnce(p, escrow);
    if i :| 0 <= i < |s.entries| && s.entries[i].work == b && s.entries[i].amount == amount {
      assert s.entries[i] == EntryAt(hs, p.perWork, direct, i) && direct[i] in direct && direct[i] in Keys(p);
    }
    if k :| k in p.perWork && (k in escrow) == false && Parse(k) == Some(b) && p.perWork[k] == amount {
      var i :| 0 <= i < |direct| && direct[i] == k;
      assert s.entries[i] == EntryAt(hs, p.perWork, direct, i);
    }
  }

  lemma {:induction false} EscrowMeans(hs: Hashes, epoch: nat, p: Payouts, escrow: set<Id>, b: u256, amount: nat)
    requires AllParse(Keys(p))
    ensures PaysEscrow(Finalized(hs, epoch, p, escrow), b, amount) <==> Owed(p, escrow, true, b, amount)
  {
    var s, held := Finalized(hs, epoch, p, escrow), HeldKeys(p, escrow);
    KeysRoutedOnce(p, escrow);
    if i :| 0 <= i < |s.escrow| && s.escrow[i].work == b && s.escrow[i].amount == amount {
      assert s.escrow[i] == Escrowed(WorkOf(held[i]), Get(p.perWork, held[i])) && held[i] in held && held[i] in Keys(p);
    }
    if k :| k in p.perWork && (k in escrow) == true && Parse(k) == Some(b) && p.perWork[k] == amount {
      var i :| 0 <= i < |held| && held[i] == k;
      assert s.escrow[i] == Escrowed(WorkOf(held[i]), Get(p.perWork, held[i]));
    }
  }

  /** A work and an amount stand in a published list exactly when some credited key that
      spells the work is owed that amount, outside escrow or in it. */
  lemma {:induction false} EntriesMean(hs: Hashes, epoch: nat, p: Payouts, escrow: set<Id>, b: u256, amount: nat)
    requires AllParse(Keys(p))
    ensures var s := Finalized(hs, epoch, p, escrow);
            && (PaysDirect(s, b, amount) <==> Owed(p, escrow, false, b, amount))
            && (PaysEscrow(s, b, amount) <==> Owed(p, escrow, true, b, amount))
            && s.epoch == epoch && s.unallocated == p.unallocated
            && (s.entries == [] ==> s.root == 0)
  {
    DirectMeans(hs, epoch, p, escrow, b, amount);
    EscrowMeans(hs, epoch, p, escrow, b, amount);
  }

  /** Entries stand in the text order of the keys they settle. */
  lemma {:induction false} EntriesInOrder(hs: Hashes, epoch: nat, p: Payouts, escrow: set<Id>, i: nat, j: nat)
      returns (k: Id, l: Id)
    requires AllParse(Keys(p)) && i < j < |Finalized(hs, epoch, p, escrow).entries|
    ensures k in p.perWork && k !in escrow && l in p.perWork && l !in escrow && LexLess(k, l)
    ensures var s := Finalized(hs, epoch, p, escrow);
            && Parse(k) == Some(s.entries[i].work) && s.entries[i].amount == p.perWork[k]
            && Parse(l) == Some(s.entries[j].work) && s.entries[j].amount == p.perWork[l]
  {
    var direct := DirectKeys(p, escrow);
    KeysRoutedOnce(p, escrow);
    RoutedSorted(Keys(p), escrow, false);
    k, l := direct[i], direct[j];
    assert k in direct && l in direct && k in Keys(p) && l in Keys(p);
    assert EntriesOf(hs, p.perWork, direct)[i] == EntryAt(hs, p.perWork, direct, i);
    assert EntriesOf(hs, p.perWork, direct)[j] == EntryAt(hs, p.perWork, direct, j);
  }

  lemma {:induction false} RoutedSorted(keys: seq<Id>, escrow: set<Id>, held: bool)
    requires StrictlySorted(keys)
    ensures StrictlySorted(Routed(keys, escrow, held))
  {
    if |keys| > 0 {
      var init, last := keys[..|keys| - 1], keys[|keys| - 1];
      var r := Routed(init, escrow, held);
      RoutedSorted(init, escrow, held);
      forall x | x in r ensures LexLess(x, last) {
        assert x in init;
      }
      forall i | 0 <= i < |r| ensures LexLess(r[i], last) {
        assert r[i] in r;
      }
    }
  }
}
