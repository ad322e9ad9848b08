/** The mutable box objects a round keeps, each method proved against the value operation it performs. */
module VoteBoxes {
  import opened Foundations
  import opened Instructions
  import opened Metadata
  import opened Ballot

  class VoteBox {
    const iID: ID
    const iHash: Hash
    const proposer: Address
    var proposal: Proposal
    var votes: map<Address, Vote>
    var voteHash: Hash
    var startTime: nat
    var endTime: int
    var weight: uint16
    var cosignerWeight: uint16
    var finalized: bool
    var deleted: bool
    ghost var history: History

    ghost function Value(): (b: Box)
      reads this
    {
      Box(iID, iHash, proposer, proposal, votes, voteHash, startTime, endTime, weight, cosignerWeight, finalized,
          deleted, history)
    }

    constructor (data: DataFixed, proposer: Address, threshold: uint16, roster: Roster, start: nat, expiration: int)
      ensures Value() == NewBox(data, proposer, threshold, roster, start, expiration)
    {
      iID, iHash, this.proposer := data.instructionID, FixedHash(data), proposer;
      proposal := Proposal(Some(data), threshold, roster.cosigners, TruncateU16(roster.threshold));
      votes, voteHash := map[], InitialHash(data);
      startTime, endTime := start, start + expiration;
      weight, cosignerWeight, finalized, deleted := 0, 0, false, false;
      history := History([], [], []);
    }

    method AddVote(signer: Address, weight: uint16, signature: Bytes, message: Bytes, group: VoterGroup, now: nat)
      returns (r: Result<(Receipt, bool), CastError>)
      modifies this
      ensures var spec := CastVote(old(Value()), signer, weight, signature, message, group, now);
              if spec.Ok? then Value() == spec.value.0 && r == Ok((spec.value.1, spec.value.2))
              else Value() == old(Value()) && r == Err(spec.error)
      ensures r.Ok? <==> (group.provider || group.cosigner) && now <= old(endTime) && signer !in old(votes)
    {
      if !group.provider && !group.cosigner {
        return Err(InvalidVoter);
      }
      if endTime < now {
        return Err(VotingEnded);
      }
      if signer in votes {
        return Err(SignatureAlreadyStored);
      }
      var sequence := |votes|;
      var vote := Vote(sequence, now, signature, message);
      voteHash := NextHash(voteHash, sequence, signature, message, Unix(now));
      votes := votes[signer := vote];
      this.weight := AddU16(this.weight, weight);
      if group.cosigner {
        cosignerWeight := AddU16(cosignerWeight, 1);
      }
      var receipt := Receipt(iHash, vote.sequence, signature, message, Unix(now), voteHash);
      history := history.(order := history.order + [Cast(signer, vote)], receipts := history.receipts + [receipt]);
      if !finalized && this.weight > proposal.threshold && cosignerWeight >= proposal.cosignerThreshold {
        finalized := true;
        return Ok((receipt, true));
      }
      return Ok((receipt, false));
    }

    method SignersData() returns (signatures: seq<Bytes>, messages: seq<Bytes>, timestamps: seq<nat>)
      requires Arranges(votes, history.order)
      ensures |signatures| == |messages| == |timestamps| == |history.order|
      ensures forall j :: 0 <= j < |signatures| ==>
                && signatures[j] == history.order[j].vote.signature
                && messages[j] == history.order[j].vote.message
                && timestamps[j] == Unix(history.order[j].vote.time)
    {
      SlotsUnique(votes, history.order);
      signatures, messages, timestamps := FillSlots(votes, history.order);
    }

    method Action(tag: Tag) returns (r: Result<Action, ActionError>)
      requires !deleted ==> Arranges(votes, history.order)
      ensures r == BuildAction(Value(), tag)
    {
      if deleted {
        return Err(AlreadyDeleted);
      }
      if !finalized {
        return Err(NotFinalized);
      }
      if proposal.instruction.None? {
        return Err(MissingInstruction);
      }
      var d := proposal.instruction.value;
      var signatures, messages, timestamps := SignersData();
      r := Ok(Ballot.Action(d.instructionID, tag, d, signatures, messages, timestamps));
      ghost var spec := ActionOf(d, tag, history.order);
      assert signatures == spec.signatures && messages == spec.variableMessages && timestamps == spec.timestamps;
    }

    lemma ValueFields()
      ensures Value().id == iID && Value().hash == iHash && Value().proposal == proposal && Value().deleted == deleted
    {
    }

    /** Keep an action built from this box on record. */
    ghost method Note(e: Emission)
      modifies this`history
      ensures Value() == old(Value()).(history := old(Value()).history.(emitted := old(Value()).history.emitted + [e]))
    {
      history := history.(emitted := history.emitted + [e]);
    }

    method Delete()
      modifies this
      ensures Value() == Ballot.Delete(old(Value()))
    {
      proposal := proposal.(instruction := None, cosigners := {});
      votes := map[];
      deleted := true;
    }
  }

  /** Fills three arrays by sequence number, walking the vote map in any order: every slot is written once. */
  method FillSlots(votes: map<Address, Vote>, ghost order: seq<Cast>)
    returns (signatures: seq<Bytes>, messages: seq<Bytes>, timestamps: seq<nat>)
    requires |order| == |votes|
    requires forall a :: a in votes ==> votes[a].sequence < |order| && order[votes[a].sequence] == Cast(a, votes[a])
    requires forall i :: 0 <= i < |order| ==> order[i].signer in votes
    requires forall i, j :: 0 <= i < j < |order| ==> order[i].signer != order[j].signer
    ensures |signatures| == |messages| == |timestamps| == |order|
    ensures forall j :: 0 <= j < |signatures| ==>
              && signatures[j] == order[j].vote.signature
              && messages[j] == order[j].vote.message
              && timestamps[j] == Unix(order[j].vote.time)
  {
    hide Written;
    var n := |votes|;
    var sigs := new Bytes[n];
    var msgs := new Bytes[n];
    var times := new nat[n];
    var left := votes.Keys;
    NothingWritten(order, left, sigs[..], msgs[..], times[..]);
    while left != {}
      invariant left <= votes.Keys
      invariant Written(order, left, sigs[..], msgs[..], times[..])
      decreases |left|
    {
      var a :| a in left;
      var vote := votes[a];
      var j := vote.sequence;
      WriteSlot(order, left, sigs[..], msgs[..], times[..], a, vote);
      ghost var s, m, t := sigs[..], msgs[..], times[..];
      sigs[j] := vote.signature;
      msgs[j] := vote.message;
      times[j] := Unix(vote.time);
      assert sigs[..] == s[j := vote.signature] && msgs[..] == m[j := vote.message]
          && times[..] == t[j := Unix(vote.time)];
      left := left - {a};
    }
    signatures, messages, timestamps := sigs[..], msgs[..], times[..];
    AllWritten(order, signatures, messages, timestamps);
  }

  /** The slots of the signers not in left hold their votes. */
  ghost predicate Written(order: seq<Cast>, left: set<Address>, s: seq<Bytes>, m: seq<Bytes>, t: seq<nat>) {
    && |s| == |m| == |t| == |order|
    && forall j :: 0 <= j < |order| && order[j].signer !in left ==>
         s[j] == order[j].vote.signature && m[j] == order[j].vote.message && t[j] == Unix(order[j].vote.time)
  }

  lemma NothingWritten(order: seq<Cast>, left: set<Address>, s: seq<Bytes>, m: seq<Bytes>, t: seq<nat>)
    requires |s| == |m| == |t| == |order| && forall i :: 0 <= i < |order| ==> order[i].signer in left
    ensures Written(order, left, s, m, t)
  {
  }

  lemma WriteSlot(order: seq<Cast>, left: set<Address>, s: seq<Bytes>, m: seq<Bytes>, t: seq<nat>, a: Address, v: Vote)
    requires Written(order, left, s, m, t) && v.sequence < |order| && order[v.sequence] == Cast(a, v)
    requires forall i, j :: 0 <= i < j < |order| ==> order[i].signer != order[j].signer
    ensures v.sequence < |s| == |m| == |t|
    ensures Written(order, left - {a}, s[v.sequence := v.signature], m[v.sequence := v.message],
        t[v.sequence := Unix(v.time)])
  {
  }

  lemma AllWritten(order: seq<Cast>, s: seq<Bytes>, m: seq<Bytes>, t: seq<nat>)
    requires Written(order, {}, s, m, t)
    ensures |s| == |m| == |t| == |order|
    ensures forall j :: 0 <= j < |order| ==>
              s[j] == order[j].vote.signature && m[j] == order[j].vote.message && t[j] == Unix(order[j].vote.time)
  {
  }

  lemma SlotsUnique(votes: map<Address, Vote>, order: seq<Cast>)
    requires Arranges(votes, order)
    ensures |order| == |votes|
    ensures forall a :: a in votes ==> votes[a].sequence < |order| && order[votes[a].sequence] == Cast(a, votes[a])
    ensures forall i :: 0 <= i < |order| ==> order[i].signer in votes
    ensures forall i, j :: 0 <= i < j < |order| ==> order[i].signer != order[j].signer
  {
    SequenceBijection(votes, order);
    forall i, j | 0 <= i < j < |order| ensures order[i].signer != order[j].signer {
      assert Signers(order)[i] != Signers(order)[j];
    }
  }

  /** The boxes of one instruction ID and the hash of the first of them to finalize. */
  datatype BoxTable = BoxTable(m: map<Hash, VoteBox>, finalizedHash: Hash)

  const EMPTY_TABLE: BoxTable := BoxTable(map[], ZeroHash)
}
