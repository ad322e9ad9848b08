/**
 * The round object: nested tables of box objects and a limiter, updated in place.
 *
 * Its ghost `state` is the value the step system gives to the same history. The invariant says the
 * objects hold exactly that value and that it is reachable, so every theorem about reachable rounds is a
 * theorem about these objects.
 */
module VotingRound {
  import opened Foundations
  import opened Instructions
  import opened Metadata
  import opened Limiter
  import opened Ballot
  import opened VoteBoxes
  import opened RoundSteps
  import opened RoundInvariant
  import opened RoundCalls
  import RoundVerdicts

  /** Between calls no AddVote is in flight, and a box's end is outstanding while it is not deleted. */
  ghost predicate Resting(c: Cell) {
    c.flight == Idle && c.lost == 0 && forall h :: h in c.timers <==> h in c.boxes && !c.boxes[h].deleted
  }

  /** A cell with one box put in place. */
  function WithBox(c: Cell, h: Hash, b: Box): (r: Cell) {
    c.(boxes := c.boxes[h := b], timers := if b.deleted then c.timers - {h} else c.timers + {h})
  }

  class VotingRound {
    const setup: Setup
    const limiter: ProposalLimiter
    var voting: map<ID, BoxTable>
    ghost var state: Round
    ghost var repr: set<object>

    ghost predicate Shaped()
      reads this, repr
    {
      && this in repr && limiter in repr
      && limiter.maxPendingRequests == setup.maxPending
      && (forall id, h :: id in voting && h in voting[id].m ==> Placed(id, h, voting[id].m[h]))
    }

    /** A box knows its ID and hash, so no two places hold the same object. */
    ghost predicate Placed(id: ID, h: Hash, box: VoteBox)
      reads this`repr
    {
      box in repr && box.iID == id && box.iHash == h
    }

    /** The table of an ID holds exactly the boxes and the first winner of c. */
    ghost predicate Matches(id: ID, c: Cell)
      reads this, repr
      requires Shaped()
    {
      if id in voting then
        && c.finalizedHash == voting[id].finalizedHash
        && c.boxes.Keys == voting[id].m.Keys
        && (forall h :: h in voting[id].m ==> voting[id].m[h].Value() == c.boxes[h])
      else c == EMPTY_CELL
    }

    /** The objects hold exactly the cells and counters of s. */
    ghost predicate Represents(s: Round)
      reads this, repr
    {
      && Shaped()
      && limiter.counter == s.limiter
      && (forall id :: Matches(id, CellAt(s, id)) && Resting(CellAt(s, id)))
    }

    ghost predicate Valid()
      reads this, repr
    {
      ValidPolicy(setup.policy) && Reachable(setup, state) && Represents(state)
    }

    lemma OwnsItself()
      requires Valid()
      ensures this in repr
    {
    }

    constructor (setup: Setup, voters: seq<Address>)
      requires ValidPolicy(setup.policy) && Elems(voters) == setup.policy.weights.Keys
      ensures Valid() && this in repr && fresh(repr) && state == Start(setup) && this.setup == setup
    {
      this.setup := setup;
      limiter := new ProposalLimiter(voters, setup.maxPending);
      voting := map[];
      state := Start(setup);
      new;
      repr := {this, limiter};
      assert Run(setup, Start(setup), []) == Some(state);
    }

    method BuildVoteBox(call: Call) returns (r: Result<VoteBox, MetaError>)
      ensures var spec := BuildBox(setup, call.req.data, call.req.signer, call.resolved, call.builtAt);
              if spec.Ok? then r.Ok? && fresh(r.value) && r.value.Value() == spec.value
              else r == Err(spec.error)
      ensures var d := call.req.data;
              |d.cosigners| <= MAX_COSIGNERS ==>
                (r.Ok? <==> RoundVerdicts.ThresholdFine(setup, d) && RoundVerdicts.RosterFine(d, call.resolved))
    {
      if |call.req.data.cosigners| <= MAX_COSIGNERS {
        RoundVerdicts.BuildVerdict(setup, call.req, call.resolved, call.builtAt);
      }
      hide RoundVerdicts.ThresholdFine, RoundVerdicts.RosterFine;
      var d := call.req.data;
      var bips := ThresholdBIPS(d, setup.decode);
      if bips.Err? {
        return Err(bips.error);
      }
      var threshold: uint16;
      if bips.value.None? {
        if setup.policy.threshold == 0 {
          return Err(ZeroPolicyThreshold);
        }
        threshold := setup.policy.threshold;
      } else if bips.value.value > MAX_BIPS {
        return Err(InvalidThreshold);
      } else {
        threshold := ComputeThreshold(setup.policy.totalWeight, bips.value.value);
      }
      var roster := Cosigners(d, call.resolved);
      if roster.Err? {
        return Err(roster.error);
      }
      if roster.value.threshold > |roster.value.cosigners| {
        return Err(InvalidCosignerThreshold);
      }
      var box := new VoteBox(d, call.req.signer, threshold, roster.value, call.builtAt, setup.expiration);
      return Ok(box);
    }

    method StartVoteBox(call: Call) returns (r: Result<VoteBox, VoteError>)
      requires limiter.maxPendingRequests == setup.maxPending
      modifies limiter
      ensures var admitted := Admit(old(limiter.counter), setup.maxPending, call.req.signer);
              var spec := BuildBox(setup, call.req.data, call.req.signer, call.resolved, call.builtAt);
              if BeforeEvent(call.req.data, call.openedAt) then r == Err(VotingBeforeEvent)
                  && limiter.counter == old(limiter.counter)
              else if admitted.Err? then r == Err(NotAdmitted(admitted.error))
                  && limiter.counter == old(limiter.counter)
              else if spec.Err? then r == Err(BadMetadata(spec.error))
                  && limiter.counter == Release(admitted.value, call.req.signer)
              else r.Ok? && fresh(r.value) && r.value.Value() == spec.value && limiter.counter == admitted.value
    {
      hide BuildBox;
      if BeforeEvent(call.req.data, call.openedAt) {
        return Err(VotingBeforeEvent);
      }
      var refused := limiter.Increment(call.req.signer);
      if refused.Some? {
        return Err(NotAdmitted(refused.value));
      }
      var built := BuildVoteBox(call);
      if built.Err? {
        limiter.Decrement(call.req.signer);
        return Err(BadMetadata(built.error));
      }
      return Ok(built.value);
    }

    lemma PutRepresents(id: ID, s: Round, c: Cell)
      requires Shaped() && limiter.counter == s.limiter && Matches(id, c) && Resting(c)
      requires forall j :: j != id ==> Matches(j, CellAt(s, j)) && Resting(CellAt(s, j))
      ensures Represents(Put(s, id, c))
    {
      hide Matches, Resting;
      var s' := Put(s, id, c);
      forall j ensures Matches(j, CellAt(s', j)) && Resting(CellAt(s', j)) {
        if j != id { assert CellAt(s', j) == CellAt(s, j); }
      }
    }

    /** Save a new box, and the table of its instruction ID if that is new too. */
    method Enter(id: ID, hash: Hash, box: VoteBox, ghost s: Round)
      requires Represents(s) && (id in voting ==> hash !in voting[id].m)
      requires box !in repr && box.iID == id && box.iHash == hash
      modifies this`repr, this`voting
      ensures repr == old(repr) + {box}
      ensures id in voting && hash in voting[id].m && voting[id].m[hash] == box
      ensures Represents(Put(s, id, WithBox(CellAt(s, id), hash, box.Value())))
    {
      hide Resting, VoteBox.Value;
      var table := if id in voting then voting[id] else EMPTY_TABLE;
      ghost var c := CellAt(s, id);
      assert Matches(id, c);
      voting := voting[id := table.(m := table.m[hash := box])];
      repr := repr + {box};
      assert Shaped();
      assert Matches(id, WithBox(c, hash, box.Value()));
      RestingWithBox(c, hash, box.Value());
      forall j | j != id ensures Matches(j, CellAt(s, j)) && Resting(CellAt(s, j)) {
        assert old(Matches(j, CellAt(s, j)));
      }
      PutRepresents(id, s, WithBox(c, hash, box.Value()));
    }

    /** The objects hold s except, possibly, for the box at (id, hash). */
    ghost predicate RepresentsBut(s: Round, id: ID, hash: Hash)
      reads this, repr
    {
      && Shaped() && limiter.counter == s.limiter && id in voting && hash in voting[id].m
      && (forall j :: j != id ==> Matches(j, CellAt(s, j)) && Resting(CellAt(s, j)))
      && Matches(id, CellAt(s, id).(boxes := CellAt(s, id).boxes[hash := voting[id].m[hash].Value()]))
      && hash in CellAt(s, id).boxes
      && Resting(CellAt(s, id))
    }

    lemma BoxReplaced(s: Round, id: ID, hash: Hash, b: Box)
      requires RepresentsBut(s, id, hash) && voting[id].m[hash].Value() == b
      ensures Represents(Put(s, id, WithBox(CellAt(s, id), hash, b)))
      ensures b == CellAt(s, id).boxes[hash] ==> Represents(s)
    {
      var c := CellAt(s, id);
      assert Matches(id, WithBox(c, hash, b));
      RestingWithBox(c, hash, b);
      hide Resting;
      PutRepresents(id, s, WithBox(c, hash, b));
      if b == c.boxes[hash] {
        assert c.boxes[hash := b] == c.boxes;
        assert Matches(id, c);
      }
    }

    /** The locked part of a vote on a stored box. */
    method VoteStored(id: ID, hash: Hash, call: Call, ghost s: Round) returns (r: Result<(Receipt, bool), CastError>)
      requires Represents(s) && id in voting && hash in voting[id].m
      modifies voting[id].m[hash]
      ensures RepresentsBut(s, id, hash)
      ensures var v := CastInto(setup, CellAt(s, id).boxes[hash], call.req, call.castAt);
              if v.Ok? then r == Ok((v.value.1, v.value.2)) && voting[id].m[hash].Value() == v.value.0
              else r == Err(v.error) && voting[id].m[hash].Value() == CellAt(s, id).boxes[hash]
    {
      hide Resting, CastVote, VoteBox.Value;
      var box := voting[id].m[hash];
      box.ValueFields();
      ghost var c := CellAt(s, id);
      assert Matches(id, c);
      var (group, weight) := GroupOf(call.req.signer, setup.policy.weights, box.proposal.cosigners);
      r := box.AddVote(call.req.signer, weight, call.req.signature, call.req.additionalVariableMessage, group,
          call.castAt);
      forall j | j != id ensures Matches(j, CellAt(s, j)) && Resting(CellAt(s, j)) {
        assert old(Matches(j, CellAt(s, j)));
      }
    }

    /** Record an action in the history of the box that built it. */
    ghost method Record(id: ID, hash: Hash, e: Emission, s: Round)
      requires Represents(s) && id in voting && hash in voting[id].m && !voting[id].m[hash].deleted
      modifies voting[id].m[hash]
      ensures var c := CellAt(s, id);
              var b := Recorded(c.boxes[hash], c.boxes[hash].history.emitted + [e]);
              Represents(Put(s, id, c.(boxes := c.boxes[hash := b])))
    {
      hide Resting, VoteBox.Value;
      HeldAt(s, id, hash);
      var c := CellAt(s, id);
      var b := Recorded(c.boxes[hash], c.boxes[hash].history.emitted + [e]);
      var box := voting[id].m[hash];
      box.ValueFields();
      OpenBoxTimed(c, hash, b);
      assert Matches(id, c);
      box.Note(e);
      forall j | j != id ensures Matches(j, CellAt(s, j)) && Resting(CellAt(s, j)) {
        assert old(Matches(j, CellAt(s, j)));
      }
      assert RepresentsBut(s, id, hash);
      BoxReplaced(s, id, hash, b);
    }

    /** The first box of an instruction ID to finalize is its winner. */
    method Crown(id: ID, hash: Hash, ghost s: Round)
      requires Represents(s) && id in voting
      modifies this`voting
      ensures voting.Keys == old(voting.Keys) && forall j :: j in voting ==> voting[j].m == old(voting[j].m)
      ensures var c := CellAt(s, id);
              Represents(Put(s, id, if c.finalizedHash == ZeroHash then c.(finalizedHash := hash) else c))
    {
      hide Resting;
      ghost var c := CellAt(s, id);
      assert Matches(id, c);
      if voting[id].finalizedHash == ZeroHash {
        voting := voting[id := voting[id].(finalizedHash := hash)];
      }
      ghost var c' := if c.finalizedHash == ZeroHash then c.(finalizedHash := hash) else c;
      forall j | j != id ensures Matches(j, CellAt(s, j)) && Resting(CellAt(s, j)) {
        assert old(Matches(j, CellAt(s, j)));
      }
      assert Matches(id, c');
      RestingCrowned(c, c'.finalizedHash);
      PutRepresents(id, s, c');
    }

    method ReleaseSlot(p: Address, ghost s: Round)
      requires Represents(s)
      modifies limiter
      ensures Represents(s.(limiter := Release(s.limiter, p)))
    {
      hide Resting;
      limiter.Decrement(p);
      ghost var s' := s.(limiter := Release(s.limiter, p));
      assert Shaped();
      forall j ensures Matches(j, CellAt(s', j)) && Resting(CellAt(s', j)) {
        assert old(Matches(j, CellAt(s, j)));
      }
    }

    /** A box object is found exactly when the cell has that box. */
    lemma Lookup(s: Round, id: ID, hash: Hash)
      requires Represents(s)
      ensures (id in voting && hash in voting[id].m) <==> hash in CellAt(s, id).boxes
      ensures CellAt(s, id).flight == Idle && this in repr && limiter in repr
      ensures id in voting && hash in voting[id].m ==> voting[id].m[hash] in repr
    {
      assert Matches(id, CellAt(s, id)) && Resting(CellAt(s, id));
    }

    /** What representation says of one stored box. */
    lemma HeldAt(s: Round, id: ID, hash: Hash)
      requires Represents(s) && id in voting && hash in voting[id].m
      ensures Resting(CellAt(s, id)) && hash in CellAt(s, id).boxes
      ensures voting[id].m[hash].Value() == CellAt(s, id).boxes[hash]
      ensures voting[id].m[hash] in repr && limiter in repr && this in repr
      ensures CellAt(s, id).finalizedHash == voting[id].finalizedHash
    {
      assert Matches(id, CellAt(s, id));
    }

    lemma SameCells(s: Round, s': Round)
      requires Represents(s) && s'.limiter == s.limiter && forall j :: CellAt(s', j) == CellAt(s, j)
      ensures Represents(s')
    {
      hide Matches, Resting;
      forall j ensures Matches(j, CellAt(s', j)) && Resting(CellAt(s', j)) {
        assert CellAt(s', j) == CellAt(s, j);
      }
    }

    /** Build an action from a stored box and record it there. */
    method Publish(id: ID, hash: Hash, tag: Tag, ghost s: Round) returns (action: Action)
      requires Represents(s) && id in voting && hash in voting[id].m && hash in CellAt(s, id).boxes
      requires BuildAction(CellAt(s, id).boxes[hash], tag).Ok?
      requires Arranges(CellAt(s, id).boxes[hash].votes, CellAt(s, id).boxes[hash].history.order)
      modifies voting[id].m[hash]
      ensures action == BuildAction(CellAt(s, id).boxes[hash], tag).value
      ensures Represents(Put(s, id, Emit(CellAt(s, id), hash, tag)))
    {
      HeldAt(s, id, hash);
      hide Represents, Arranges, Resting;
      var box := voting[id].m[hash];
      var a := box.Action(tag);
      action := a.value;
      Record(id, hash, Emission(action, box.history.order), s);
    }

    /** Record the first winner, then build the Threshold action. */
    method Win(id: ID, hash: Hash, ghost s: Round) returns (action: Action)
      requires Represents(s) && id in voting && hash in voting[id].m && hash in CellAt(s, id).boxes
      requires BuildAction(CellAt(s, id).boxes[hash], Threshold).Ok?
      requires Arranges(CellAt(s, id).boxes[hash].votes, CellAt(s, id).boxes[hash].history.order)
      modifies this`voting, voting[id].m[hash]
      ensures action == BuildAction(CellAt(s, id).boxes[hash], Threshold).value
      ensures var c := CellAt(s, id);
              var crowned := if c.finalizedHash == ZeroHash then c.(finalizedHash := hash) else c;
              Represents(Put(s, id, Emit(crowned, hash, Threshold)))
    {
      hide Represents, Arranges, BuildAction, Emit;
      ghost var c := CellAt(s, id);
      ghost var c2 := if c.finalizedHash == ZeroHash then c.(finalizedHash := hash) else c;
      Crown(id, hash, s);
      action := Publish(id, hash, Threshold, Put(s, id, c2));
      SameCells(Put(Put(s, id, c2), id, Emit(c2, hash, Threshold)), Put(s, id, Emit(c2, hash, Threshold)));
    }

    /** The finalized branch of AddVote. */
    method Settle(id: ID, hash: Hash, data: DataFixed, ghost s: Round) returns (action: Option<Action>)
      requires Represents(s) && id in voting && hash in voting[id].m && hash in CellAt(s, id).boxes
      requires BuildAction(CellAt(s, id).boxes[hash], Threshold).Ok?
      requires Arranges(CellAt(s, id).boxes[hash].votes, CellAt(s, id).boxes[hash].history.order)
      modifies this`voting, limiter, voting[id].m[hash]
      ensures var c := CellAt(s, id);
              && action == (if IsRestore(data) then None else Some(BuildAction(c.boxes[hash], Threshold).value))
              && Represents(Put(s, id, SettleCell(c, hash, data)).(limiter := Release(s.limiter,
                  c.boxes[hash].proposer)))
    {
      HeldAt(s, id, hash);
      ghost var c := CellAt(s, id);
      assert c.(flight := Idle) == c;
      hide Represents, Arranges, BuildAction, Emit, Resting;
      var proposer := voting[id].m[hash].proposer;
      ReleaseSlot(proposer, s);
      ghost var s1 := s.(limiter := Release(s.limiter, proposer));
      action := None;
      if IsRestore(data) {
        SameCells(s1, Put(s, id, SettleCell(c, hash, data)).(limiter := s1.limiter));
      } else {
        var a := Win(id, hash, s1);
        action := Some(a);
      }
    }

    /** After an accepted vote has been written: settle it if it finalized the box. */
    method Finish(call: Call, receipt: Receipt, finalizes: bool, ghost s: Round, ghost b: Box)
      returns (outcome: Outcome)
      requires var id, hash := call.req.data.instructionID, FixedHash(call.req.data);
               && Represents(Put(s, id, WithBox(CellAt(s, id), hash, b))) && id in voting && hash in voting[id].m
      requires !b.deleted && Arranges(b.votes, b.history.order) && (finalizes ==> BuildAction(b, Threshold).Ok?)
      modifies this`voting, limiter, voting[call.req.data.instructionID].m[FixedHash(call.req.data)]
      ensures var id, hash := call.req.data.instructionID, FixedHash(call.req.data);
              var spec := Conclude(s, id, CellAt(s, id), hash, call.req.data, b, receipt, finalizes, call.castAt);
              outcome == spec.0 && Represents(spec.1)
    {
      hide Represents, Arranges, SettleCell, BuildAction;
      var d := call.req.data;
      var id, hash := d.instructionID, FixedHash(d);
      ghost var c1 := WithBox(CellAt(s, id), hash, b);
      ghost var s' := Conclude(s, id, CellAt(s, id), hash, d, b, receipt, finalizes, call.castAt).1;
      if finalizes {
        var action := Settle(id, hash, d, Put(s, id, c1));
        outcome := Accepted(receipt, action);
        SameCells(Put(Put(s, id, c1), id, SettleCell(c1, hash, d)).(limiter := Release(s.limiter, b.proposer)), s');
      } else {
        outcome := Accepted(receipt, None);
        SameCells(Put(s, id, c1), s');
      }
    }

    method VoteOnStored(call: Call) returns (outcome: Outcome)
      requires Valid() && Timely(state, call)
      requires var id, hash := call.req.data.instructionID, FixedHash(call.req.data);
               id in voting && hash in voting[id].m
      modifies this`voting, limiter, voting[call.req.data.instructionID].m[FixedHash(call.req.data)]
      ensures var id, hash := call.req.data.instructionID, FixedHash(call.req.data);
              && hash in CellAt(state, id).boxes
              && var spec := VoteInStored(setup, state, call, CellAt(state, id).boxes[hash]);
                 outcome == spec.0 && Represents(spec.1)
    {
      hide Represents, RepresentsBut, CastInto, BoxInv, Reachable, Resting, VoteBox.Value, Conclude, Arranges,
          ValidPolicy;
      var id, hash := call.req.data.instructionID, FixedHash(call.req.data);
      HeldAt(state, id, hash);
      ghost var b := CellAt(state, id).boxes[hash];
      StoredBoxInv(setup, state, id, hash);
      var box := voting[id].m[hash];
      box.ValueFields();
      if box.deleted {
        SameCells(state, state.(now := call.castAt));
        return Rejected(NotCast(VotingEnded));
      }
      CastReady(setup, b, call.req, state.now, call.castAt);
      var vote := VoteStored(id, hash, call, state);
      BoxReplaced(state, id, hash, box.Value());
      if vote.Err? {
        SameCells(state, state.(now := call.castAt));
        return Rejected(NotCast(vote.error));
      }
      outcome := Finish(call, vote.value.0, vote.value.1, state, box.Value());
    }

    /** The opener's own vote on the box just built; the box is saved only if the vote is accepted. */
    method VoteOnFresh(call: Call, box: VoteBox, ghost s: Round) returns (outcome: Outcome)
      requires ValidPolicy(setup.policy) && Represents(s)
      requires var id, hash := call.req.data.instructionID, FixedHash(call.req.data);
               && (id in voting ==> hash !in voting[id].m)
               && box !in repr && box.iID == id && box.iHash == hash && !box.deleted
      requires BoxInv(setup.policy, box.Value(), call.builtAt) && call.builtAt <= call.castAt
      modifies this`voting, this`repr, limiter, box
      ensures repr == old(repr) || repr == old(repr) + {box}
      ensures var id, hash, d := call.req.data.instructionID, FixedHash(call.req.data), call.req.data;
              var v := CastInto(setup, old(box.Value()), call.req, call.castAt);
              if v.Err? then outcome == Rejected(NotCast(v.error)) && Represents(s)
              else
                var spec := Conclude(s, id, CellAt(s, id), hash, d, v.value.0, v.value.1, v.value.2, call.castAt);
                outcome == spec.0 && Represents(spec.1)
    {
      hide BoxInv, CastVote, Conclude, Represents, VoteBox.Value, Arranges, BuildAction, ValidPolicy;
      var id, hash := call.req.data.instructionID, FixedHash(call.req.data);
      box.ValueFields();
      CastReady(setup, box.Value(), call.req, call.builtAt, call.castAt);
      var (group, weight) := GroupOf(call.req.signer, setup.policy.weights, box.proposal.cosigners);
      var vote := box.AddVote(call.req.signer, weight, call.req.signature, call.req.additionalVariableMessage,
          group, call.castAt);
      if vote.Err? {
        return Rejected(NotCast(vote.error));
      }
      Enter(id, hash, box, s);
      outcome := Finish(call, vote.value.0, vote.value.1, s, box.Value());
    }

    /** startVoteBox touches nothing of the round but its limiter. */
    method Reserve(call: Call, ghost s: Round) returns (r: Result<VoteBox, VoteError>)
      requires Represents(s)
      modifies limiter
      ensures Represents(s.(limiter := limiter.counter))
      ensures r.Ok? ==> fresh(r.value)
      ensures var admitted := Admit(s.limiter, setup.maxPending, call.req.signer);
              var spec := BuildBox(setup, call.req.data, call.req.signer, call.resolved, call.builtAt);
              if BeforeEvent(call.req.data, call.openedAt) then r == Err(VotingBeforeEvent)
                  && limiter.counter == s.limiter
              else if admitted.Err? then r == Err(NotAdmitted(admitted.error)) && limiter.counter == s.limiter
              else if spec.Err? then r == Err(BadMetadata(spec.error))
                  && limiter.counter == Release(admitted.value, call.req.signer)
              else r.Ok? && r.value.Value() == spec.value && limiter.counter == admitted.value
    {
      hide BuildBox, Resting, BeforeEvent;
      r := StartVoteBox(call);
      ghost var s1 := s.(limiter := limiter.counter);
      assert Shaped();
      forall j ensures Matches(j, CellAt(s1, j)) && Resting(CellAt(s1, j)) {
        assert old(Matches(j, CellAt(s, j)));
      }
    }

    method OpenVoting(call: Call) returns (outcome: Outcome)
      requires Valid() && Timely(state, call) && CheckSize(call.req, setup.restoreVariable).None?
      requires var id, hash := call.req.data.instructionID, FixedHash(call.req.data);
               id in voting ==> hash !in voting[id].m
      modifies this`voting, this`repr, limiter
      ensures this in repr && fresh(repr - old(repr))
      ensures var spec := OpenAndVote(setup, state, call); outcome == spec.0 && Represents(spec.1)
    {
      hide Represents, BuildBox, CheckSize, BoxInv, Reachable, CastInto, Conclude, BeforeEvent, VoteBox.Value,
          OpenAndVote;
      ghost var s := state;
      Lookup(s, call.req.data.instructionID, FixedHash(call.req.data));
      FreshBox(setup, s, call);
      var started := Reserve(call, s);
      ghost var s1 := s.(limiter := limiter.counter);
      OpenCases(setup, s, call);
      if started.Err? {
        SameCells(s1, OpenAndVote(setup, s, call).1);
        return Rejected(started.error);
      }
      started.value.ValueFields();
      outcome := VoteOnFresh(call, started.value, s1);
      if outcome.Rejected? { SameCells(s1, OpenAndVote(setup, s, call).1); }
    }

    /** AddVote: the checks before the locks, then the critical section. */
    method AddVote(call: Call) returns (outcome: Outcome)
      requires Valid() && Timely(state, call)
      modifies repr
      ensures Valid() && fresh(repr - old(repr))
      ensures (outcome, state) == AddVoteCall(setup, old(state), call)
    {
      hide CheckSize, OpenAndVote, VoteInStored, Reachable, Represents, ValidPolicy;
      var size := CheckSize(call.req, setup.restoreVariable);
      if size.Some? {
        return Rejected(BadSize(size.value));
      }
      if !call.consistent {
        return Rejected(InconsistentData);
      }
      var id, hash := call.req.data.instructionID, FixedHash(call.req.data);
      Lookup(state, id, hash);
      CallReachable(setup, state, call);
      if id in voting && hash in voting[id].m {
        outcome := VoteOnStored(call);
      } else {
        outcome := OpenVoting(call);
      }
      Adopt(AddVoteCall(setup, state, call).1);
    }

    ghost method Adopt(s: Round)
      requires Represents(s) && ValidPolicy(setup.policy) && Reachable(setup, s)
      modifies this`state
      ensures state == s && Valid()
    {
      hide Resting, Reachable;
      state := s;
      assert Shaped();
      forall j ensures Matches(j, CellAt(s, j)) {
        assert old(Matches(j, CellAt(s, j)));
      }
    }

    method DeleteBox(id: ID, hash: Hash, ghost s: Round)
      requires Represents(s) && id in voting && hash in voting[id].m
      modifies voting[id].m[hash]
      ensures hash in CellAt(s, id).boxes
      ensures Represents(Put(s, id, WithBox(CellAt(s, id), hash, Delete(CellAt(s, id).boxes[hash]))))
      ensures voting[id].m[hash].history == old(voting[id].m[hash].history)
    {
      HeldAt(s, id, hash);
      hide Resting;
      ghost var c := CellAt(s, id);
      assert Matches(id, c);
      voting[id].m[hash].Delete();
      forall j | j != id ensures Matches(j, CellAt(s, j)) && Resting(CellAt(s, j)) {
        assert old(Matches(j, CellAt(s, j)));
      }
      assert RepresentsBut(s, id, hash);
      BoxReplaced(s, id, hash, Delete(c.boxes[hash]));
    }

    /** A restore builds both of its actions when its voting ends. */
    method PublishBoth(id: ID, hash: Hash, ghost s: Round) returns (actions: seq<Action>)
      requires Represents(s) && id in voting && hash in voting[id].m && hash in CellAt(s, id).boxes
      requires var b := CellAt(s, id).boxes[hash]; Buildable(b) && Arranges(b.votes, b.history.order)
      modifies voting[id].m[hash]
      ensures var c := CellAt(s, id);
              var c2 := Emit(Emit(c, hash, Threshold), hash, End);
              Represents(Put(s, id, c2)) && Grown(c, c2, hash, actions)
    {
      hide Represents, Arranges, BuildAction, Emit, Grown, Buildable;
      ghost var c := CellAt(s, id);
      ghost var c1 := Emit(c, hash, Threshold);
      EmitTwice(c, hash);
      var first := Publish(id, hash, Threshold, s);
      var last := Publish(id, hash, End, Put(s, id, c1));
      SameCells(Put(Put(s, id, c1), id, Emit(c1, hash, End)), Put(s, id, Emit(c1, hash, End)));
      return [first, last];
    }

    /** The actions due when a voting ends, built before the box is deleted. */
    method BuildDue(id: ID, hash: Hash, ghost s: Round) returns (actions: seq<Action>)
      requires Represents(s) && id in voting && hash in voting[id].m && hash in CellAt(s, id).boxes
      requires var b := CellAt(s, id).boxes[hash];
               && !b.deleted && b.proposal.instruction.Some? && Arranges(b.votes, b.history.order)
      modifies voting[id].m[hash]
      ensures var c := CellAt(s, id);
              Represents(Put(s, id, WithDue(c, hash))) && Grown(c, WithDue(c, hash), hash, actions)
    {
      HeldAt(s, id, hash);
      ghost var c := CellAt(s, id);
      if c.boxes[hash].finalized { EmitShape(c, hash, End); }
      hide Represents, Arranges, Resting, Emit, BuildAction;
      var box := voting[id].m[hash];
      if !box.finalized {
        SameCells(s, Put(s, id, c));
        actions := [];
      } else if IsRestore(box.proposal.instruction.value) {
        actions := PublishBoth(id, hash, s);
      } else if voting[id].finalizedHash != hash {
        SameCells(s, Put(s, id, c));
        actions := [];
      } else {
        var last := Publish(id, hash, End, s);
        actions := [last];
      }
    }

    /** scheduleEnd's critical section, for a box whose timer has fired. */
    method EndVoting(id: ID, hash: Hash, t: nat) returns (actions: seq<Action>)
      requires Valid() && state.now <= t
      requires id in voting && hash in voting[id].m && !voting[id].m[hash].deleted && voting[id].m[hash].endTime <= t
      modifies repr
      ensures Valid() && repr == old(repr)
      ensures StepEnd(old(state), id, hash, t) == Some(state)
      ensures id in voting && hash in voting[id].m && voting[id].m[hash] == old(voting[id].m[hash])
      ensures ActionsOf(voting[id].m[hash].history.emitted) ==
          ActionsOf(old(voting[id].m[hash].history.emitted)) + actions
    {
      hide Represents, Reachable, ValidPolicy, WithDue, Arranges, BoxInv;
      ghost var s, c := state, CellAt(state, id);
      HeldAt(s, id, hash);
      StoredBoxInv(setup, s, id, hash);
      OpenBoxShape(setup, c.boxes[hash], s.now);
      EndReachable(setup, s, id, hash, t);
      actions := BuildDue(id, hash, s);
      ghost var s1 := Put(s, id, WithDue(c, hash));
      HeldAt(s1, id, hash);
      DeleteBox(id, hash, s1);
      ghost var s2 := Put(s1, id, WithBox(WithDue(c, hash), hash, Delete(WithDue(c, hash).boxes[hash])));
      SameCells(s2, StepEnd(s, id, hash, t).value);
      Adopt(StepEnd(s, id, hash, t).value);
    }
  }

  ghost function ActionsOf(emitted: seq<Emission>): (r: seq<Action>) {
    seq(|emitted|, i requires 0 <= i < |emitted| => emitted[i].action)
  }

  /** c2 differs from c in the actions the box at h has built since. */
  ghost predicate Grown(c: Cell, c2: Cell, h: Hash, actions: seq<Action>)
    requires h in c.boxes
  {
    h in c2.boxes && ActionsOf(c2.boxes[h].history.emitted) == ActionsOf(c.boxes[h].history.emitted) + actions
  }

  ghost predicate Buildable(b: Box) {
    !b.deleted && b.finalized && b.proposal.instruction.Some?
  }

  lemma EmitShape(c: Cell, h: Hash, tag: Tag)
    requires h in c.boxes && Buildable(c.boxes[h])
    ensures BuildAction(c.boxes[h], tag).Ok?
    ensures var c', b := Emit(c, h, tag), c.boxes[h];
            && Grown(c, c', h, [BuildAction(b, tag).value])
            && Buildable(c'.boxes[h]) && c'.boxes[h].votes == b.votes && c'.boxes[h].history.order == b.history.order
  {
  }

  lemma EmitTwice(c: Cell, h: Hash)
    requires h in c.boxes && Buildable(c.boxes[h])
    ensures BuildAction(c.boxes[h], Threshold).Ok?
    ensures var c1 := Emit(c, h, Threshold);
            && h in c1.boxes && BuildAction(c1.boxes[h], End).Ok?
            && c1.boxes[h].votes == c.boxes[h].votes && c1.boxes[h].history.order == c.boxes[h].history.order
            && Grown(c, Emit(c1, h, End), h,
                     [BuildAction(c.boxes[h], Threshold).value, BuildAction(c1.boxes[h], End).value])
  {
    hide BuildAction, Emit, Buildable;
    EmitShape(c, h, Threshold);
    EmitShape(Emit(c, h, Threshold), h, End);
  }

  lemma OpenBoxShape(u: Setup, b: Box, now: nat)
    requires BoxInv(u.policy, b, now) && !b.deleted
    ensures b.proposal.instruction.Some? && Arranges(b.votes, b.history.order)
  {
  }

  lemma EndReachable(u: Setup, s: Round, id: ID, h: Hash, t: nat)
    requires Reachable(u, s) && StepEnd(s, id, h, t).Some?
    ensures Reachable(u, StepEnd(s, id, h, t).value)
  {
    hide Reachable, StepEnd;
    RunOne(u, s, RoundSteps.EndVoting(id, h, t));
    StaysReachable(u, s, StepEnd(s, id, h, t).value, [RoundSteps.EndVoting(id, h, t)]);
  }

  /** A box built for an admitted proposer is a sound, empty box. */
  lemma FreshBox(u: Setup, s: Round, call: Call)
    requires ValidPolicy(u.policy) && Reachable(u, s) && CheckSize(call.req, u.restoreVariable).None?
    ensures var spec := BuildBox(u, call.req.data, call.req.signer, call.resolved, call.builtAt);
            Admit(s.limiter, u.maxPending, call.req.signer).Ok? && spec.Ok? ==>
              && BoxInv(u.policy, spec.value, call.builtAt) && !spec.value.deleted
              && spec.value.id == call.req.data.instructionID && spec.value.hash == FixedHash(call.req.data)
  {
    ReachableInv(u, s);
    if call.req.signer in s.limiter { BuildBoxInv(u, call.req, call.resolved, call.builtAt); }
  }

  lemma StoredBoxInv(u: Setup, s: Round, id: ID, h: Hash)
    requires ValidPolicy(u.policy) && Reachable(u, s) && h in CellAt(s, id).boxes
    ensures BoxInv(u.policy, CellAt(s, id).boxes[h], s.now)
  {
    hide BoxInv, Reachable, EmittedExactly, FlightInv, Winner, Timers;
    ReachableInv(u, s);
    CellAtInv(u, s, s.now, id);
    assert Stored(u, s.now, id, h, CellAt(s, id).boxes[h]);
  }

  /** A box that is not deleted already has its timer. */
  lemma OpenBoxTimed(c: Cell, h: Hash, b: Box)
    requires Resting(c) && h in c.boxes && !c.boxes[h].deleted && !b.deleted
    ensures WithBox(c, h, b) == c.(boxes := c.boxes[h := b])
  {
    assert c.timers + {h} == c.timers;
  }

  lemma RestingCrowned(c: Cell, h: Hash)
    requires Resting(c)
    ensures Resting(c.(finalizedHash := h))
  {
  }

  lemma RestingWithBox(c: Cell, h: Hash, b: Box)
    requires Resting(c)
    ensures Resting(WithBox(c, h, b))
  {
  }
}
