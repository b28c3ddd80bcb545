/** The storage node: blocks of content, delivery streams that credit only on
    completion, the ledger of completed deliveries, and the receipts it backs. */
module Delivery {
  import opened Words
  import opened Ids
  import opened Receipts
  import HexText

  type byte = x: nat | x < 256

  /** Content files by lower-case work id; a file's length fits a machine word. */
  type Content = c: map<Id, seq<byte>> | forall w :: w in c ==> |c[w]| < U64

  datatype StorageError = NotServed | BadWorkId | Unreadable

  /** One completed delivery, as the ledger records it. */
  datatype Served = Served(work: Id, consumer: Id, bytes: u64)

  type Entries = map<Key, Served>

  // ----- blocks of content -------------------------------------------------

  predicate IsHexDigit(c: char) {
    '0' <= c <= '9' || 'a' <= c <= 'f' || 'A' <= c <= 'F'
  }

  /** `is_work_id`: `0x` and exactly 64 hex digits. */
  predicate IsWorkId(s: Id) {
    |s| == 66 && s[..2] == "0x" && forall i :: 2 <= i < |s| ==> IsHexDigit(s[i])
  }

  /** Where block `chunk` starts, never past the end. */
  function BlockStart(size: nat, chunk: nat): (r: nat)
    ensures r <= size
  {
    Min(chunk * CHUNK_SIZE, size)
  }

  function BlockLen(size: nat, chunk: nat): nat {
    BlockStart(size, chunk + 1) - BlockStart(size, chunk)
  }

  function Block(data: seq<byte>, chunk: nat): (b: seq<byte>)
    ensures |b| == BlockLen(|data|, chunk) <= CHUNK_SIZE
  {
    data[BlockStart(|data|, chunk)..BlockStart(|data|, chunk + 1)]
  }

  /** `fragment_for_chunk`: saturating offsets clamped to the file. */
  function FragmentForChunk(content: Content, work: Id, chunk: u64): Fallible<seq<byte>, StorageError> {
    if !IsWorkId(work) then Failed(BadWorkId)
    else if Lower(work) !in content then Failed(Unreadable)
    else
      var data := content[Lower(work)];
      var start := Min(Min(chunk * CHUNK_SIZE, U64 - 1), |data|);
      var end := Min(Min(start + CHUNK_SIZE, U64 - 1), |data|);
      Done(data[start..end])
  }

  /** Saturation never shows: the fragment is the exact block. */
  lemma FragmentIsBlock(content: Content, work: Id, chunk: u64)
    requires IsWorkId(work) && Lower(work) in content
    ensures FragmentForChunk(content, work, chunk) == Done(Block(content[Lower(work)], chunk))
  {
  }

  function Blocks(data: seq<byte>, n: nat): seq<byte> {
    if n == 0 then [] else Blocks(data, n - 1) + Block(data, n - 1)
  }

  /** The blocks in order are the content, each byte once. */
  lemma {:induction false} BlocksReassemble(data: seq<byte>, n: nat)
    ensures Blocks(data, n) == data[..BlockStart(|data|, n)]
    ensures n * CHUNK_SIZE >= |data| ==> Blocks(data, n) == data
  {
    if n > 0 { BlocksReassemble(data, n - 1); }
  }

  // ----- the ledger --------------------------------------------------------

  class Ledger {
    var entries: Entries

    constructor ()
      ensures entries == map[]
    {
      entries := map[];
    }

    /** `record`: a repeat overwrites. */
    method Record(consumer: Id, work: Id, chunk: u64, served: Served)
      modifies this
      ensures entries == old(entries)[Key(Pair(Lower(consumer), Lower(work)), chunk) := served]
    {
      entries := entries[Key(Pair(Lower(consumer), Lower(work)), chunk) := served];
    }
  }

  /** `issue_receipt`: the byte count comes from the ledger or not at all. */
  function IssueReceipt(entries: Entries, node: Id, epoch: u64, consumer: Id, work: Id, chunk: u64)
    : (r: Fallible<Receipt, StorageError>)
  {
    var key := Key(Pair(Lower(consumer), Lower(work)), chunk);
    if key in entries then
      var served := entries[key];
      Done(Receipt(Lower(served.work), Lower(served.consumer), Lower(node), chunk, served.bytes, epoch))
    else Failed(NotServed)
  }

  // ----- delivery streams --------------------------------------------------

  /** Slice size of one poll. */
  const PIECE: nat := 16 * 1024

  /** What to record once everything has been handed out. */
  datatype Completion = Completion(consumer: Id, work: Id, chunk: u64, served: Served) {
    function Position(): Key { Key(Pair(Lower(consumer), Lower(work)), chunk) }

    function RecordIn(entries: Entries): Entries { entries[Position() := served] }
  }

  /** A stream's progress as a value: how much is out of how much, and what is
      still to be recorded. */
  datatype Progress = Progress(len: nat, pos: nat, pending: Option<Completion>) {
    function Polled(piece: nat): Progress {
      if pos >= len then Progress(len, pos, None) else Progress(len, Min(pos + piece, len), pending)
    }

    function Recorded(entries: Entries): Entries {
      if pos >= len && pending.Some? then pending.value.RecordIn(entries) else entries
    }
  }

  class DeliveryStream {
    const data: seq<byte>
    const piece: nat
    const ledger: Ledger
    var pos: nat
    var onComplete: Option<Completion>

    ghost predicate Valid()
      reads this
    {
      piece >= 1 && pos <= |data|
    }

    ghost function View(): Progress
      reads this
    {
      Progress(|data|, pos, onComplete)
    }

    /** A zero slice size would never finish, so it becomes one. */
    constructor (data: seq<byte>, piece: nat, ledger: Ledger, done: Completion)
      ensures Valid() && this.data == data && this.piece == Max(piece, 1) && this.ledger == ledger
      ensures View() == Progress(|data|, 0, Some(done))
    {
      this.data := data;
      this.piece := Max(piece, 1);
      this.ledger := ledger;
      pos := 0;
      onComplete := Some(done);
    }

    /** `poll_next`: the next slice, or completion exactly once and the end. */
    method PollNext() returns (item: Option<seq<byte>>)
      requires Valid()
      modifies this, ledger
      ensures Valid() && View() == old(View()).Polled(piece)
      ensures ledger.entries == old(View().Recorded(ledger.entries))
      ensures item == if old(pos) < |data| then Some(data[old(pos)..pos]) else None
      ensures item.Some? ==> 0 < |item.value| <= piece
    {
      if pos >= |data| {
        if onComplete.Some? {
          var done := onComplete.value;
          onComplete := None;
          ledger.Record(done.consumer, done.work, done.chunk, done.served);
        }
        return None;
      }
      var end := Min(pos + piece, |data|);
      item := Some(data[pos..end]);
      pos := end;
    }

    /** A client that keeps polling receives exactly the rest of the data, and
        only then is the delivery recorded. */
    method Drain() returns (received: seq<byte>)
      requires Valid()
      modifies this, ledger
      ensures received == data[old(pos)..]
      ensures pos == |data| && onComplete == None
      ensures ledger.entries
           == if old(onComplete).Some? then old(onComplete).value.RecordIn(old(ledger.entries)) else old(ledger.entries)
    {
      received := [];
      var item := PollNext();
      while item.Some?
        invariant Valid()
        invariant item.Some? ==> received + item.value == data[old(pos)..pos] && onComplete == old(onComplete)
        invariant item.Some? ==> ledger.entries == old(ledger.entries)
        invariant item.None? ==> received == data[old(pos)..] && pos == |data| && onComplete == None
        invariant item.None? ==>
          ledger.entries == (if old(onComplete).Some? then old(onComplete).value.RecordIn(old(ledger.entries))
                             else old(ledger.entries))
        decreases |data| - pos, if item.Some? then 1 else 0
      {
        received := received + item.value;
        item := PollNext();
      }
    }
  }

  /** `content`: nothing is credited here, only promised to the stream's end. */
  method ServeContent(content: Content, ledger: Ledger, consumer: Id, work: Id, chunk: u64)
    returns (r: Fallible<DeliveryStream, StorageError>)
    ensures var f := FragmentForChunk(content, work, chunk);
            r.Failed? ==> f == Failed(r.error)
    ensures var f := FragmentForChunk(content, work, chunk);
            r.Done? ==> f == Done(r.value.data) && r.value.Valid() && r.value.ledger == ledger
    ensures r.Done? ==> var size := |r.value.data|;
            && r.value.piece == PIECE == 16_384 && size < U64
            && r.value.View() == Progress(size, 0, Some(PromisedBy(consumer, work, chunk, size)))
    ensures ledger.entries == old(ledger.entries)
  {
    var f := FragmentForChunk(content, work, chunk);
    if f.Failed? {
      return Failed(f.error);
    }
    var s := new DeliveryStream(f.value, PIECE, ledger, PromisedBy(consumer, work, chunk, |f.value|));
    return Done(s);
  }

  function PromisedBy(consumer: Id, work: Id, chunk: u64, bytes: u64): Completion {
    Completion(Lower(consumer), Lower(work), chunk, Served(Lower(work), Lower(consumer), bytes))
  }

  // ----- what a request is answered with -----------------------------------

  lemma HexDigitsAgree(c: char)
    ensures IsHexDigit(c) <==> HexText.DigitValue(c).Some?
  {
  }

  /** A work id is the prefixed text of a 32-byte value, in either case. */
  lemma {:induction false} WorkIdMeans(s: Id)
    ensures IsWorkId(s) <==> |s| >= 2 && s[..2] == "0x" && HexText.Parse(s).Some?
  {
    if |s| >= 2 && s[..2] == "0x" {
      var text := s[2..];
      HexText.AllDigits(text);
      forall i | 0 <= i < |text| ensures IsHexDigit(s[i + 2]) <==> HexText.DigitValue(text[i]).Some? {
        HexDigitsAgree(text[i]);
      }
      if forall i :: 0 <= i < |text| ==> HexText.DigitValue(text[i]).Some? {
        forall i | 2 <= i < |s| ensures IsHexDigit(s[i]) {
          assert HexText.DigitValue(text[i - 2]).Some?;
        }
      }
    }
  }

  /** A block is 131072 bytes of the file at its own offset, as far as the file goes; a
      text that is no work id, or a work that is not held, has none. */
  lemma {:induction false} FragmentMeans(content: Content, work: Id, chunk: u64)
    ensures FragmentForChunk(content, work, chunk) ==
      if !(|work| >= 2 && work[..2] == "0x" && HexText.Parse(work).Some?) then Failed(BadWorkId)
      else if Lower(work) !in content then Failed(Unreadable)
      else
        var data := content[Lower(work)];
        Done(data[Min(chunk * 131_072, |data|)..Min((chunk + 1) * 131_072, |data|)])
  {
    WorkIdMeans(work);
    if IsWorkId(work) && Lower(work) in content { FragmentIsBlock(content, work, chunk); }
  }
}
