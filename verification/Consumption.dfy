/** The on-chain submission contract: one proven submission per user per epoch. */
module Consumption {
  import opened Words
  import opened Ids

  const EPOCH_LENGTH: nat := 30 * 24 * 60 * 60

  /** The proof verifier, left abstract: a digest and a proof. */
  type Verifier = (u256, seq<nat>) -> bool

  datatype Event = Event(
    user: Id, epoch: nat, tier: u256, digest: u256,
    pseudonyms: seq<u256>, works: seq<u256>, weights: seq<u256>)

  datatype Call = Call(
    sender: Id, time: nat, tier: u256, commitments: seq<u256>, pseudonyms: seq<u256>, works: seq<u256>,
    weights: seq<u256>, digest: u256, proof: seq<nat>)

  datatype Revert = NoCommitments | ArityMismatch | AlreadySubmitted | ProofRejected

  /** The stored flags and the emitted log. */
  datatype Chain = Chain(submitted: set<(nat, Id)>, log: seq<Event>)

  const GENESIS: Chain := Chain({}, [])

  function EpochAt(time: nat): nat { time / EPOCH_LENGTH }

  /** The checks of `submitConsumption`, in order. */
  function Check(v: Verifier, c: Chain, call: Call): Option<Revert> {
    if |call.commitments| == 0 then Some(NoCommitments)
    else if !(|call.commitments| == |call.pseudonyms| == |call.works| == |call.weights|) then Some(ArityMismatch)
    else if (EpochAt(call.time), call.sender) in c.submitted then Some(AlreadySubmitted)
    else if !v(call.digest, call.proof) then Some(ProofRejected)
    else None
  }

  /** What an accepted call logs. */
  function EventOf(call: Call): Event {
    Event(call.sender, EpochAt(call.time), call.tier, call.digest, call.pseudonyms, call.works, call.weights)
  }

  function Submit(v: Verifier, c: Chain, call: Call): Chain {
    if Check(v, c, call).Some? then c
    else Chain(c.submitted + {(EpochAt(call.time), call.sender)}, c.log + [EventOf(call)])
  }

  class CWEConsumption {
    const verifier: Verifier
    var submitted: set<(nat, Id)>
    var log: seq<Event>

    ghost function State(): Chain
      reads this
    {
      Chain(submitted, log)
    }

    constructor (verifier: Verifier)
      ensures this.verifier == verifier && State() == GENESIS
    {
      this.verifier := verifier;
      submitted := {};
      log := [];
    }

    /** `submitConsumption`: a revert leaves everything as it was. */
    method SubmitConsumption(call: Call) returns (revert: Option<Revert>)
      modifies this
      ensures revert == Check(verifier, old(State()), call)
      ensures State() == Submit(verifier, old(State()), call)
    {
      if |call.commitments| == 0 {
        return Some(NoCommitments);
      }
      if |call.commitments| != |call.pseudonyms| || |call.commitments| != |call.works|
         || |call.commitments| != |call.weights|
      {
        return Some(ArityMismatch);
      }
      var epoch := EpochAt(call.time);
      if (epoch, call.sender) in submitted {
        return Some(AlreadySubmitted);
      }
      if !verifier(call.digest, call.proof) {
        return Some(ProofRejected);
      }
      submitted := submitted + {(epoch, call.sender)};
      log := log + [Event(call.sender, epoch, call.tier, call.digest, call.pseudonyms, call.works, call.weights)];
      return None;
    }
  }

  // ----- every run ---------------------------------------------------------

  function Run(v: Verifier, calls: seq<Call>): Chain {
    if |calls| == 0 then GENESIS else Submit(v, Run(v, calls[..|calls| - 1]), calls[|calls| - 1])
  }

  /** Some submitted call carried this digest with a proof that verifies. */
  ghost predicate Proven(v: Verifier, calls: seq<Call>, digest: u256) {
    exists i :: 0 <= i < |calls| && calls[i].digest == digest && v(digest, calls[i].proof)
  }

  /** No user appears twice in an epoch, every logged digest came with a proof that
      verified, and the flags record every logged pair. */
  ghost predicate Sound(v: Verifier, calls: seq<Call>, c: Chain) {
    && (forall i, j :: 0 <= i < j < |c.log| && c.log[i].epoch == c.log[j].epoch ==> c.log[i].user != c.log[j].user)
    && (forall i :: 0 <= i < |c.log| ==> Proven(v, calls, c.log[i].digest))
    && (forall i :: 0 <= i < |c.log| ==> |c.log[i].pseudonyms| == |c.log[i].works| == |c.log[i].weights|)
    && (forall i :: 0 <= i < |c.log| ==> (c.log[i].epoch, c.log[i].user) in c.submitted)
  }

  lemma ProvenSnoc(v: Verifier, calls: seq<Call>, call: Call, digest: u256)
    ensures Proven(v, calls, digest) ==> Proven(v, calls + [call], digest)
    ensures v(call.digest, call.proof) ==> Proven(v, calls + [call], call.digest)
  {
    assert (calls + [call])[|calls|] == call;
    if i :| 0 <= i < |calls| && calls[i].digest == digest && v(digest, calls[i].proof) {
      assert (calls + [call])[i] == calls[i];
    }
  }

  lemma SubmitSound(v: Verifier, calls: seq<Call>, c: Chain, call: Call)
    requires Sound(v, calls, c)
    ensures Sound(v, calls + [call], Submit(v, c, call))
  {
    var log := Submit(v, c, call).log;
    forall i | 0 <= i < |log| ensures Proven(v, calls + [call], log[i].digest) {
      ProvenSnoc(v, calls, call, log[i].digest);
      if i < |c.log| { assert log[i] == c.log[i]; }
    }
  }

  /** Whatever is called in whatever order, each user submits at most once per epoch
      and nothing unproven is logged. */
  lemma {:induction false} RunsSound(v: Verifier, calls: seq<Call>)
    ensures Sound(v, calls, Run(v, calls))
  {
    if |calls| > 0 {
      var init := calls[..|calls| - 1];
      RunsSound(v, init);
      SubmitSound(v, init, Run(v, init), calls[|calls| - 1]);
      assert init + [calls[|calls| - 1]] == calls;
    }
  }

  /** The log filtered to one epoch, in chain order: what settlement reads. */
  function EpochLog(log: seq<Event>, epoch: nat): (r: seq<Event>)
    ensures forall i :: 0 <= i < |r| ==> r[i] in log && r[i].epoch == epoch
    ensures forall e :: e in log && e.epoch == epoch ==> e in r
  {
    if |log| == 0 then []
    else
      var init, last := log[..|log| - 1], log[|log| - 1];
      assert log == init + [last];
      EpochLog(init, epoch) + (if last.epoch == epoch then [last] else [])
  }

  ghost predicate UsersDistinct(log: seq<Event>) {
    forall i, j :: 0 <= i < j < |log| ==> log[i].user != log[j].user
  }

  /** An epoch's log of a sound chain names each user once. */
  lemma {:induction false} EpochUsersDistinct(log: seq<Event>, epoch: nat)
    requires forall i, j :: 0 <= i < j < |log| && log[i].epoch == log[j].epoch ==> log[i].user != log[j].user
    ensures UsersDistinct(EpochLog(log, epoch))
  {
    if |log| > 0 {
      var init, last := log[..|log| - 1], log[|log| - 1];
      EpochUsersDistinct(init, epoch);
      var r := EpochLog(init, epoch);
      forall i | 0 <= i < |r| && last.epoch == epoch ensures r[i].user != last.user {
        assert r[i] in init;
      }
    }
  }

  lemma {:induction false} EpochLogSnoc(log: seq<Event>, e: Event, epoch: nat)
    requires e.epoch == epoch
    ensures EpochLog(log + [e], epoch) == EpochLog(log, epoch) + [e]
  {
    assert (log + [e])[..|log|] == log;
  }

  /** Whoever sends it, an accepted call's contents are accepted once more from
      every address that has not submitted in the epoch. */
  lemma {:induction false} AcceptedFromAnyone(v: Verifier, calls: seq<Call>, call: Call, other: Id)
    requires Check(v, Run(v, calls), call).None? && other != call.sender
    requires (EpochAt(call.time), other) !in Run(v, calls).submitted
    ensures Run(v, calls + [call, call.(sender := other)]).log
         == Run(v, calls).log + [EventOf(call), EventOf(call).(user := other)]
  {
    var copy := call.(sender := other);
    var both := calls + [call, copy];
    assert both[..|both| - 1] == calls + [call] && (calls + [call])[..|calls|] == calls;
    assert Run(v, calls + [call]) == Submit(v, Run(v, calls), call);
    assert Check(v, Run(v, calls + [call]), copy).None?;
    assert EventOf(copy) == EventOf(call).(user := other);
  }

  /** An accepted call's event stays in the log, whatever is called after. */
  lemma {:induction false} LoggedForGood(v: Verifier, calls: seq<Call>, call: Call, rest: seq<Call>)
    requires Check(v, Run(v, calls), call).None?
    ensures EventOf(call) in Run(v, calls + [call] + rest).log
    decreases |rest|
  {
    var all := calls + [call] + rest;
    if |rest| == 0 {
      assert all[..|all| - 1] == calls && all[|all| - 1] == call;
      assert Run(v, all) == Submit(v, Run(v, calls), call);
    } else {
      LoggedForGood(v, calls, call, rest[..|rest| - 1]);
      assert all[..|all| - 1] == calls + [call] + rest[..|rest| - 1];
    }
  }

  // ----- acceptance, check by check ----------------------------------------

  lemma {:induction false} FlagsAreLogged(v: Verifier, calls: seq<Call>, epoch: nat, user: Id)
    ensures (epoch, user) in Run(v, calls).submitted <==>
      exists e :: e in Run(v, calls).log && e.epoch == epoch && e.user == user
  {
    if |calls| > 0 {
      var c, call := Run(v, calls[..|calls| - 1]), calls[|calls| - 1];
      FlagsAreLogged(v, calls[..|calls| - 1], epoch, user);
      if Check(v, c, call).None? {
        assert EventOf(call) in c.log + [EventOf(call)];
        assert forall e :: e in c.log + [EventOf(call)] <==> e in c.log || e == EventOf(call);
      }
    }
  }

  /** A call is accepted exactly when it names something, its four lists are equally
      long, its sender has no event in the thirty-day epoch yet, and its proof verifies
      for its digest; it then logs what it carried and nothing else. */
  lemma {:induction false} AcceptedIff(v: Verifier, calls: seq<Call>, call: Call)
    ensures var log, after := Run(v, calls).log, Run(v, calls + [call]).log;
            var epoch := call.time / 2_592_000;
            if && |call.commitments| > 0 && |call.pseudonyms| == |call.commitments|
               && |call.works| == |call.commitments| && |call.weights| == |call.commitments|
               && (forall e :: e in log ==> !(e.epoch == epoch && e.user == call.sender))
               && v(call.digest, call.proof)
            then after == log + [Event(call.sender, epoch, call.tier, call.digest, call.pseudonyms, call.works, call.weights)]
            else after == log
  {
    FlagsAreLogged(v, calls, EpochAt(call.time), call.sender);
    assert (calls + [call])[..|calls|] == calls;
  }

  /** And which revert refuses the rest: an empty call, unequal lists, a sender already
      logged in the epoch, and last a proof that fails. */
  lemma {:induction false} RevertMeans(v: Verifier, calls: seq<Call>, call: Call)
    ensures var log, refusal := Run(v, calls).log, Check(v, Run(v, calls), call);
            var n, epoch := |call.commitments|, call.time / 2_592_000;
            if n == 0 then refusal == Some(NoCommitments)
            else if |call.pseudonyms| != n || |call.works| != n || |call.weights| != n then refusal == Some(ArityMismatch)
            else if exists e :: e in log && e.epoch == epoch && e.user == call.sender then
              refusal == Some(AlreadySubmitted)
            else if v(call.digest, call.proof) then refusal == None
            else refusal == Some(ProofRejected)
  {
    FlagsAreLogged(v, calls, EpochAt(call.time), call.sender);
  }
}
