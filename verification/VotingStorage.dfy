/** The cyclic buffer of rounds: new epochs overwrite old ones, and AddVote finds the round of its epoch first. */
module VotingStorage {
  import opened Foundations
  import opened Metadata
  import opened Instructions
  import opened RoundSteps
  import opened RoundCalls
  import opened VotingRound
  import opened PolicyBackfill

  lemma AlreadyResident(b: Buffer, epoch: uint32)
    requires b.size > 0 && Resident(b, epoch)
    ensures Store(b, epoch) == b
  {
  }

  /** The resident epochs after storing: those of other slots, and the new one. */
  lemma SlotTaken(b: Buffer, resident: set<uint32>, epoch: uint32)
    requires b.size > 0 && epoch !in resident && forall e: uint32 :: e in resident <==> Resident(b, e)
    ensures forall e: uint32 ::
              Resident(Store(b, epoch), e) <==> e == epoch || (e in resident && e % b.size != epoch % b.size)
  {
    forall e: uint32
      ensures Resident(Store(b, epoch), e) <==> e == epoch || (e in resident && e % b.size != epoch % b.size)
    {
      StoreResident(b, epoch, e);
    }
  }

  lemma Oversized(u: Setup, s: Round, call: Call)
    requires CheckSize(call.req, u.restoreVariable).Some?
    ensures AddVoteCall(u, s, call) == (Rejected(BadSize(CheckSize(call.req, u.restoreVariable).value)), s)
  {
  }

  /** The entries of a cyclic buffer that do not share a slot with this epoch. */
  function OtherSlots<T>(m: map<uint32, T>, epoch: uint32, size: nat): (r: map<uint32, T>)
    requires size > 0
    ensures forall e :: e in r <==> e in m && e % size != epoch % size
    ensures forall e :: e in r ==> r[e] == m[e]
  {
    map e | e in m && e % size != epoch % size :: m[e]
  }

  class Storage {
    const restoreVariable: nat
    const size: nat
    var rounds: map<uint32, VotingRound>
    ghost var repr: set<object>
    /** Which epochs are resident, as the buffer's own model says. */
    ghost var buffer: Buffer

    /** Each round is sound and shares no object with another, and the rounds are those of the resident epochs. */
    ghost predicate Valid()
      reads this, repr
    {
      && this in repr && buffer.size == size > 0
      && (forall e: uint32 :: e in rounds <==> Resident(buffer, e))
      && (forall e :: e in rounds ==> Holds(e))
      && (forall e, f :: e in rounds && f in rounds && e != f ==> rounds[e].repr !! rounds[f].repr)
    }

    ghost predicate Holds(e: uint32)
      requires e in rounds
      reads this, repr
    {
      && rounds[e] in repr && rounds[e].repr <= repr
      && rounds[e] in rounds[e].repr && this !in rounds[e].repr && rounds[e].Valid()
      && rounds[e].setup.restoreVariable == restoreVariable
    }

    constructor (restoreVariable: nat, size: nat)
      requires size > 0
      ensures Valid() && rounds == map[] && buffer == Empty(size) && fresh(repr)
      ensures this.restoreVariable == restoreVariable
    {
      this.restoreVariable, this.size := restoreVariable, size;
      rounds := map[];
      repr := {this};
      buffer := Empty(size);
    }

    /** A resident round is kept; otherwise the new round takes its slot, and the occupant is gone. */
    method StoreNewRound(epoch: uint32, setup: Setup, voters: seq<Address>)
      requires Valid() && setup.restoreVariable == restoreVariable
      requires ValidPolicy(setup.policy) && Elems(voters) == setup.policy.weights.Keys
      modifies this
      ensures Valid() && fresh(repr - old(repr)) && buffer == Store(old(buffer), epoch)
      ensures epoch in rounds
      ensures if epoch in old(rounds) then rounds == old(rounds)
              else
                && rounds[epoch].state == Start(setup) && rounds[epoch].setup == setup
                && forall e :: e in rounds && e != epoch ==> e in old(rounds) && rounds[e] == old(rounds)[e]
    {
      hide Resident, Store, VotingRound.Valid, ValidPolicy, Start;
      if epoch in rounds {
        AlreadyResident(buffer, epoch);
        return;
      }
      var round := new VotingRound(setup, voters);
      Install(epoch, round);
    }

    /** Put a round that shares nothing with the storage into its slot. */
    method Install(epoch: uint32, round: VotingRound)
      requires Valid() && epoch !in rounds
      requires round.Valid() && round in round.repr && round.repr !! repr
      requires round.setup.restoreVariable == restoreVariable
      modifies this
      ensures Valid() && repr == old(repr) + round.repr && buffer == Store(old(buffer), epoch)
      ensures epoch in rounds && rounds[epoch] == round
      ensures forall e :: e in rounds && e != epoch ==> e in old(rounds) && rounds[e] == old(rounds)[e]
    {
      hide Resident, Store, VotingRound.Valid, OtherSlots;
      SlotTaken(buffer, rounds.Keys, epoch);
      ghost var held := repr;
      rounds := OtherSlots(rounds, epoch, size)[epoch := round];
      repr := held + round.repr;
      buffer := Store(buffer, epoch);
      forall e | e in rounds ensures Holds(e) {
        if e != epoch { assert old(Holds(e)); }
      }
    }

    /** Storage.AddVote: the size check, then the round, then the vote in that round. No other round changes. */
    method AddVote(call: Call) returns (outcome: Outcome)
      requires Valid()
      requires call.req.data.rewardEpochID in rounds ==> Timely(rounds[call.req.data.rewardEpochID].state, call)
      modifies repr
      ensures Valid() && rounds == old(rounds) && buffer == old(buffer) && fresh(repr - old(repr))
      ensures call.req.data.rewardEpochID !in rounds ==>
                var size := CheckSize(call.req, restoreVariable);
                outcome == Rejected(if size.Some? then BadSize(size.value) else NoRound)
      ensures forall e :: e in rounds ==>
                if e == call.req.data.rewardEpochID
                then (outcome, rounds[e].state) == AddVoteCall(rounds[e].setup, old(rounds[e].state), call)
                else rounds[e].state == old(rounds[e].state)
    {
      hide CheckSize, AddVoteCall, Resident, VotingRound.Valid;
      var epoch := call.req.data.rewardEpochID;
      var size := CheckSize(call.req, restoreVariable);
      if size.Some? {
        if epoch in rounds { Oversized(rounds[epoch].setup, rounds[epoch].state, call); }
        return Rejected(BadSize(size.value));
      }
      if epoch !in rounds {
        return Rejected(NoRound);
      }
      var round := rounds[epoch];
      assert Holds(epoch);
      outcome := round.AddVote(call);
      round.OwnsItself();
      repr := repr + round.repr;
      forall e | e in rounds ensures Holds(e) {
        assert old(Holds(e));
      }
    }
  }
}
