/** Client-side accrual of listening time per work, drained at each epoch's end. */
module SessionStore {
  import opened Words
  import opened Sums
  import opened Ids

  const EPOCH_LENGTH_SECS: nat := 30 * 24 * 60 * 60

  function EpochOf(seconds: nat): nat { seconds / EPOCH_LENGTH_SECS }

  /** Work ids are 32-byte values in their text form, whose order is the byte order. */
  datatype UsageEntry = UsageEntry(work: Id, minutes: u64, plays: u64)

  /** The persistable state: accrued seconds and plays per work, and open sessions. */
  datatype State = State(epoch: nat, secs: map<Id, u64>, plays: map<Id, u64>, active: map<string, Id>)

  /** `u64::saturating_add`. */
  function Saturate64(n: nat): u64 { Min(n, U64 - 1) }

  function At(m: map<Id, u64>, w: Id): u64 { if w in m then m[w] else 0 }

  function Bump(m: map<Id, u64>, w: Id, n: nat): map<Id, u64> {
    m[w := Saturate64(At(m, w) + n)]
  }

  // ----- the operations ----------------------------------------------------

  function Started(s: State, session: string, work: Id): State {
    s.(active := s.active[session := work], plays := Bump(s.plays, work, 1))
  }

  function Accrued(s: State, session: string, dt: u64): State {
    if session in s.active then s.(secs := Bump(s.secs, s.active[session], dt)) else s
  }

  function Stopped(s: State, session: string): State {
    s.(active := s.active - {session})
  }

  /** Open sessions survive a flush; both accumulators are emptied. */
  function Flushed(s: State): State { s.(secs := map[], plays := map[]) }

  /** Whole minutes per work, in work order; less than a minute is dropped. */
  function Drain(s: State, keys: seq<Id>): seq<UsageEntry> {
    if |keys| == 0 then []
    else
      var w := keys[|keys| - 1];
      DrainOne(s, w, Drain(s, keys[..|keys| - 1]))
  }

  function DrainOne(s: State, w: Id, before: seq<UsageEntry>): seq<UsageEntry> {
    if At(s.secs, w) / 60 == 0 then before else before + [UsageEntry(w, At(s.secs, w) / 60, At(s.plays, w))]
  }

  function FlushOutput(s: State): seq<UsageEntry> { Drain(s, SortedKeys(s.secs.Keys)) }

  class Store {
    var epoch: nat
    var secs: map<Id, u64>
    var plays: map<Id, u64>
    var active: map<string, Id>

    ghost function Snapshot(): State
      reads this
    {
      State(epoch, secs, plays, active)
    }

    constructor (now: nat)
      ensures Snapshot() == State(EpochOf(now), map[], map[], map[])
    {
      epoch := EpochOf(now);
      secs, plays, active := map[], map[], map[];
    }

    /** `from_state`: rebuild from a persisted snapshot, whatever it holds. */
    constructor FromState(s: State)
      ensures Snapshot() == s
    {
      epoch, secs, plays, active := s.epoch, s.secs, s.plays, s.active;
    }

    /** `start`: re-using a session id repoints it; every call is one play. */
    method Start(session: string, work: Id)
      modifies this
      ensures Snapshot() == Started(old(Snapshot()), session, work)
    {
      active := active[session := work];
      plays := Bump(plays, work, 1);
    }

    /** `add_time`: time for an unknown session is ignored. */
    method AddTime(session: string, dt: u64) returns (applied: bool)
      modifies this
      ensures applied <==> session in old(active)
      ensures Snapshot() == Accrued(old(Snapshot()), session, dt)
    {
      if session !in active {
        return false;
      }
      secs := Bump(secs, active[session], dt);
      return true;
    }

    /** `stop`. */
    method Stop(session: string) returns (wasOpen: bool)
      modifies this
      ensures wasOpen <==> session in old(active)
      ensures Snapshot() == Stopped(old(Snapshot()), session)
    {
      wasOpen := session in active;
      active := active - {session};
    }

    /** `flush`: take both accumulators and emit whole minutes in work order. */
    method Flush() returns (entries: seq<UsageEntry>)
      modifies this
      ensures entries == FlushOutput(old(Snapshot()))
      ensures Snapshot() == Flushed(old(Snapshot()))
    {
      var drained := State(epoch, secs, plays, active);
      secs, plays := map[], map[];
      entries := DrainKeys(drained, SortedKeys(drained.secs.Keys));
    }
  }

  /** The taken accumulators, turned into entries in the order of the keys. */
  method DrainKeys(drained: State, keys: seq<Id>) returns (entries: seq<UsageEntry>)
    ensures entries == Drain(drained, keys)
  {
    entries := [];
    for i := 0 to |keys|
      invariant entries == Drain(drained, keys[..i])
    {
      assert keys[..i + 1] == keys[..i] + [keys[i]];
      var minutes := At(drained.secs, keys[i]) / 60;
      if minutes != 0 {
        entries := entries + [UsageEntry(keys[i], minutes, At(drained.plays, keys[i]))];
      }
    }
    assert keys[..|keys|] == keys;
  }

  // ----- runs --------------------------------------------------------------

  datatype Event = Start(session: string, work: Id) | Add(session: string, dt: u64) | Stop(session: string) | Flush

  function Next(s: State, ev: Event): State {
    match ev
    case Start(session, work) => Started(s, session, work)
    case Add(session, dt) => Accrued(s, session, dt)
    case Stop(session) => Stopped(s, session)
    case Flush => Flushed(s)
  }

  /** A run from any state: a new store, or one rebuilt from a snapshot. */
  function Run(s: State, evs: seq<Event>): State {
    if |evs| == 0 then s else Next(Run(s, evs[..|evs| - 1]), evs[|evs| - 1])
  }

  /** What each flush of the run emitted. */
  function Outputs(s: State, evs: seq<Event>): seq<seq<UsageEntry>> {
    if |evs| == 0 then []
    else
      var init := evs[..|evs| - 1];
      Outputs(s, init) + (if evs[|evs| - 1].Flush? then [FlushOutput(Run(s, init))] else [])
  }

  /** Seconds an event applies to `w`, with no word size. */
  function Gain(s: State, ev: Event, w: Id): nat {
    if ev.Add? && ev.session in s.active && s.active[ev.session] == w then ev.dt else 0
  }

  /** All seconds the run applies to `w`. */
  function Applied(s: State, evs: seq<Event>, w: Id): nat {
    if |evs| == 0 then 0
    else
      var init := evs[..|evs| - 1];
      Applied(s, init, w) + Gain(Run(s, init), evs[|evs| - 1], w)
  }

  /** Seconds of `w` since the last flush, or since the start with what it held. */
  function Pending(s: State, evs: seq<Event>, w: Id): nat {
    if |evs| == 0 then At(s.secs, w)
    else if evs[|evs| - 1].Flush? then 0
    else
      var init := evs[..|evs| - 1];
      Pending(s, init, w) + Gain(Run(s, init), evs[|evs| - 1], w)
  }

  /** Times `w` was started since the last flush, or in the whole run. */
  function StartsSince(evs: seq<Event>, w: Id): nat {
    if |evs| == 0 || evs[|evs| - 1].Flush? then 0
    else
      var ev := evs[|evs| - 1];
      StartsSince(evs[..|evs| - 1], w) + (if ev.Start? && ev.work == w then 1 else 0)
  }

  /** Plays of `w` the starting state brought, gone with the first flush. */
  function Carried(s: State, evs: seq<Event>, w: Id): nat {
    if Flush in evs then 0 else At(s.plays, w)
  }

  lemma BumpReads(m: map<Id, u64>, w: Id, n: nat, v: Id, total: nat)
    requires At(m, v) == Saturate64(total)
    ensures At(Bump(m, w, n), v) == Saturate64(total + (if v == w then n else 0))
  {
  }

  lemma CarriedSnoc(s: State, evs: seq<Event>, w: Id)
    requires |evs| > 0
    ensures Carried(s, evs, w) == if evs[|evs| - 1].Flush? then 0 else Carried(s, evs[..|evs| - 1], w)
  {
    assert evs == evs[..|evs| - 1] + [evs[|evs| - 1]];
  }

  lemma {:induction false} SecondsCount(s: State, evs: seq<Event>, w: Id)
    ensures At(Run(s, evs).secs, w) == Saturate64(Pending(s, evs, w))
  {
    if |evs| > 0 {
      var init, ev := evs[..|evs| - 1], evs[|evs| - 1];
      var mid := Run(s, init);
      SecondsCount(s, init, w);
      if ev.Add? && ev.session in mid.active {
        BumpReads(mid.secs, mid.active[ev.session], ev.dt, w, Pending(s, init, w));
      }
    }
  }

  lemma {:induction false} PlaysCount(s: State, evs: seq<Event>, w: Id)
    ensures At(Run(s, evs).plays, w) == Saturate64(Carried(s, evs, w) + StartsSince(evs, w))
  {
    if |evs| > 0 {
      var init, ev := evs[..|evs| - 1], evs[|evs| - 1];
      PlaysCount(s, init, w);
      CarriedSnoc(s, evs, w);
      if ev.Start? { BumpReads(Run(s, init).plays, ev.work, 1, w, Carried(s, init, w) + StartsSince(init, w)); }
    }
  }

  /** The stored seconds and plays are the unbounded counts, saturated. */
  lemma {:induction false} StateCounts(s: State, evs: seq<Event>, w: Id)
    ensures At(Run(s, evs).secs, w) == Saturate64(Pending(s, evs, w))
    ensures At(Run(s, evs).plays, w) == Saturate64(Carried(s, evs, w) + StartsSince(evs, w))
  {
    SecondsCount(s, evs, w);
    PlaysCount(s, evs, w);
  }

  // ----- what a flush emits ------------------------------------------------

  /** The minutes an output holds for a work. */
  function MinutesIn(out: seq<UsageEntry>, w: Id): nat {
    if |out| == 0 then 0
    else MinutesIn(out[..|out| - 1], w) + (if out[|out| - 1].work == w then out[|out| - 1].minutes else 0)
  }

  lemma {:induction false} DrainWorks(s: State, keys: seq<Id>)
    ensures forall i :: 0 <= i < |Drain(s, keys)| ==> Drain(s, keys)[i].work in keys
  {
    if |keys| > 0 {
      DrainWorks(s, keys[..|keys| - 1]);
      assert keys[|keys| - 1] in keys && forall k :: k in keys[..|keys| - 1] ==> k in keys;
    }
  }

  ghost predicate SortedByWork(out: seq<UsageEntry>) {
    forall i, j :: 0 <= i < j < |out| ==> LexLess(out[i].work, out[j].work)
  }

  /** A drained list is strictly ordered and holds each key's whole minutes. */
  lemma {:induction false} DrainSorted(s: State, keys: seq<Id>)
    requires StrictlySorted(keys)
    ensures SortedByWork(Drain(s, keys))
    ensures forall i :: 0 <= i < |Drain(s, keys)| ==>
      var e := Drain(s, keys)[i]; e.minutes == At(s.secs, e.work) / 60 >= 1 && e.plays == At(s.plays, e.work)
  {
    if |keys| > 0 {
      var init, w := keys[..|keys| - 1], keys[|keys| - 1];
      DrainSorted(s, init);
      DrainWorks(s, init);
      forall k | k in init ensures LexLess(k, w) {
        var i :| 0 <= i < |init| && init[i] == k;
        assert keys[i] == k;
      }
    }
  }

  lemma {:induction false} DrainMinutes(s: State, keys: seq<Id>, w: Id)
    requires forall i, j :: 0 <= i < j < |keys| ==> keys[i] != keys[j]
    ensures MinutesIn(Drain(s, keys), w) == if w in keys then At(s.secs, w) / 60 else 0
  {
    if |keys| > 0 {
      var init, k := keys[..|keys| - 1], keys[|keys| - 1];
      assert keys == init + [k] && k !in init;
      DrainMinutes(s, init, w);
    }
  }

  lemma {:induction false} FlushMinutes(s: State, w: Id)
    ensures MinutesIn(FlushOutput(s), w) == At(s.secs, w) / 60
  {
    var keys := SortedKeys(s.secs.Keys);
    DrainMinutes(s, keys, w);
  }

  /** In every run from every state, a flush emits entries strictly ordered by work,
      each with at least one minute: the whole minutes since the last flush, and
      exactly the starts since then with any plays the starting state brought. The
      count is zero exactly when playback merely continued, past a flush or from a
      snapshot without plays. */
  lemma {:induction false} FlushEntries(s: State, evs: seq<Event>, i: nat)
    requires i < |FlushOutput(Run(s, evs))|
    ensures SortedByWork(FlushOutput(Run(s, evs)))
    ensures var e := FlushOutput(Run(s, evs))[i];
            && e.minutes == Saturate64(Pending(s, evs, e.work)) / 60 >= 1
            && e.plays == Saturate64(Carried(s, evs, e.work) + StartsSince(evs, e.work))
            && (e.plays == 0 <==> StartsSince(evs, e.work) == 0 && (Flush in evs || At(s.plays, e.work) == 0))
  {
    DrainSorted(Run(s, evs), SortedKeys(Run(s, evs).secs.Keys));
    StateCounts(s, evs, FlushOutput(Run(s, evs))[i].work);
  }

  lemma RunSnoc(s: State, evs: seq<Event>, ev: Event)
    ensures Run(s, evs + [ev]) == Next(Run(s, evs), ev)
  {
    assert (evs + [ev])[..|evs|] == evs;
  }

  const FRESH: State := State(0, map[], map[], map[])

  lemma LeftOpen(w: Id)
    ensures Run(FRESH, [Start("s", w), Flush]) == State(0, map[], map[], map["s" := w])
  {
    RunSnoc(FRESH, [], Start("s", w));
    RunSnoc(FRESH, [Start("s", w)], Flush);
    assert [] + [Start("s", w)] == [Start("s", w)];
    assert [Start("s", w)] + [Flush] == [Start("s", w), Flush];
  }

  lemma SingleDrain(s: State, w: Id)
    requires s.secs == map[w := 60] && s.plays == map[]
    ensures FlushOutput(s) == [UsageEntry(w, 1, 0)]
  {
    var keys := SortedKeys(s.secs.Keys);
    assert |s.secs.Keys| == 1 && keys[0] in keys;
    assert keys == [w] && keys[..0] == [];
    assert Drain(s, keys) == Drain(s, keys[..0]) + [UsageEntry(w, 1, 0)];
  }

  /** A run whose flush reports a minute with no play: a session left open across a
      flush keeps accruing to a work that was not started again. So does a snapshot
      of accrued seconds without play counts, at its very first flush. */
  lemma {:induction false} PlaysCanBeZero(w: Id)
    ensures FlushOutput(Run(FRESH, [Start("s", w), Flush, Add("s", 60)])) == [UsageEntry(w, 1, 0)]
    ensures FlushOutput(Run(State(0, map[w := 60], map[], map[]), [])) == [UsageEntry(w, 1, 0)]
  {
    LeftOpen(w);
    RunSnoc(FRESH, [Start("s", w), Flush], Add("s", 60));
    assert [Start("s", w), Flush] + [Add("s", 60)] == [Start("s", w), Flush, Add("s", 60)];
    SingleDrain(Run(FRESH, [Start("s", w), Flush, Add("s", 60)]), w);
    SingleDrain(State(0, map[w := 60], map[], map[]), w);
  }

  // ----- the accounting law ------------------------------------------------

  /** What each flush of the run dropped from a work for being under a minute. */
  function Losses(s: State, evs: seq<Event>, w: Id): seq<nat> {
    if |evs| == 0 then []
    else
      var init := evs[..|evs| - 1];
      Losses(s, init, w) + (if evs[|evs| - 1].Flush? then [Pending(s, init, w) % 60] else [])
  }

  /** Seconds paid out per flush. */
  function Billed(outs: seq<seq<UsageEntry>>, w: Id): seq<nat> {
    seq(|outs|, i requires 0 <= i < |outs| => 60 * MinutesIn(outs[i], w))
  }

  /** No accumulator for `w` ever reaches the word size. */
  ghost predicate Unsaturated(s: State, evs: seq<Event>, w: Id) {
    forall i :: 0 <= i <= |evs| ==> Pending(s, evs[..i], w) < U64
  }

  lemma UnsaturatedPrefix(s: State, evs: seq<Event>, w: Id)
    requires |evs| > 0 && Unsaturated(s, evs, w)
    ensures Unsaturated(s, evs[..|evs| - 1], w) && Pending(s, evs[..|evs| - 1], w) < U64
  {
    var init := evs[..|evs| - 1];
    forall i | 0 <= i <= |init| ensures Pending(s, init[..i], w) < U64 {
      assert init[..i] == evs[..i];
    }
    assert init[..|init|] == init;
  }

  lemma BilledSnoc(outs: seq<seq<UsageEntry>>, out: seq<UsageEntry>, w: Id)
    ensures Billed(outs + [out], w) == Billed(outs, w) + [60 * MinutesIn(out, w)]
  {
  }

  /** Over every unsaturated run from any state, the seconds a work began with and
      those applied to it are the ones pending, plus, for each flush, sixty times the minutes it reported and a loss below a
      minute. Nothing else is lost and nothing is counted twice. */
  lemma {:induction false} SecondsAccounted(s: State, evs: seq<Event>, w: Id)
    requires Unsaturated(s, evs, w)
    ensures |Losses(s, evs, w)| == |Outputs(s, evs)|
    ensures forall i :: 0 <= i < |Losses(s, evs, w)| ==> Losses(s, evs, w)[i] < 60
    ensures At(s.secs, w) + Applied(s, evs, w)
         == At(Run(s, evs).secs, w) + Sum(Billed(Outputs(s, evs), w)) + Sum(Losses(s, evs, w))
  {
    StateCounts(s, evs, w);
    if |evs| > 0 {
      var init, ev := evs[..|evs| - 1], evs[|evs| - 1];
      UnsaturatedPrefix(s, evs, w);
      SecondsAccounted(s, init, w);
      StateCounts(s, init, w);
      assert evs[..|evs|] == evs;
      if ev.Flush? {
        FlushMinutes(Run(s, init), w);
        BilledSnoc(Outputs(s, init), FlushOutput(Run(s, init)), w);
        SumSnoc(Billed(Outputs(s, init), w), 60 * MinutesIn(FlushOutput(Run(s, init)), w));
        SumSnoc(Losses(s, init, w), Pending(s, init, w) % 60);
      } else {
        assert Outputs(s, init) + [] == Outputs(s, init) && Losses(s, init, w) + [] == Losses(s, init, w);
      }
    }
  }

  // ----- which work a session accrues to -----------------------------------

  /** What the events since say a session is open on: its latest start, unless a stop
      came after, and before any of those what the starting state had. */
  function OpenOn(s: State, evs: seq<Event>, session: string): Option<Id> {
    if |evs| == 0 then if session in s.active then Some(s.active[session]) else None
    else match evs[|evs| - 1]
      case Start(t, work) => if t == session then Some(work) else OpenOn(s, evs[..|evs| - 1], session)
      case Stop(t) => if t == session then None else OpenOn(s, evs[..|evs| - 1], session)
      case _ => OpenOn(s, evs[..|evs| - 1], session)
  }

  /** Time added to a session counts for the work it was last started on, and for
      nothing once it is stopped or if it never was; a flush changes none of that. */
  lemma {:induction false} TimeGoesToLatestStart(s: State, evs: seq<Event>, session: string, dt: u64, w: Id)
    ensures var open := OpenOn(s, evs, session);
            Applied(s, evs + [Add(session, dt)], w) == Applied(s, evs, w) + (if open == Some(w) then dt else 0)
  {
    ActiveIsOpen(s, evs, session);
    assert (evs + [Add(session, dt)])[..|evs|] == evs;
  }

  lemma {:induction false} ActiveIsOpen(s: State, evs: seq<Event>, session: string)
    ensures var active := Run(s, evs).active;
            OpenOn(s, evs, session) == if session in active then Some(active[session]) else None
  {
    if |evs| > 0 { ActiveIsOpen(s, evs[..|evs| - 1], session); }
  }

  /** A store's epoch is counted in spans of thirty days. */
  lemma EpochMeans(now: nat)
    ensures EpochOf(now) * 2_592_000 <= now < (EpochOf(now) + 1) * 2_592_000
  {
  }
}
