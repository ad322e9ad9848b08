/** Whole calls: what one AddVote or one scheduleEnd does to a round when nothing interleaves with it. */
module RoundCalls {
  import opened Foundations
  import opened Instructions
  import opened Metadata
  import opened Limiter
  import opened Ballot
  import opened RoundSteps
  import opened RoundInvariant

  datatype VoteError =
    | NoRound | BadSize(size: SizeError) | InconsistentData | VotingBeforeEvent
    | NotAdmitted(limit: LimitError) | BadMetadata(meta: MetaError) | NotCast(cast: CastError)

  datatype Outcome = Rejected(error: VoteError) | Accepted(receipt: Receipt, action: Option<Action>)

  /** A call with everything it learns from outside: the consistency verdict, the roster and its clock readings. */
  datatype Call = Call(
    req: Request, consistent: bool, resolved: Option<Roster>, openedAt: nat, builtAt: nat, castAt: nat)

  predicate Timely(s: Round, call: Call) {
    s.now <= call.openedAt <= call.builtAt <= call.castAt
  }

  /** After an accepted vote: store the box and, on finalization, release the slot and settle the cell. */
  function Conclude(s: Round, id: ID, c: Cell, h: Hash, d: DataFixed, b: Box, receipt: Receipt, finalizes: bool,
      t: nat): (r: (Outcome, Round)) {
    var c1 := c.(boxes := c.boxes[h := b], timers := c.timers + {h});
    if !finalizes then (Accepted(receipt, None), Put(s, id, c1).(now := t))
    else
      var a := BuildAction(b, Threshold);
      (Accepted(receipt, if IsRestore(d) || a.Err? then None else Some(a.value)),
       Put(s, id, SettleCell(c1, h, d)).(limiter := Release(s.limiter, b.proposer), now := t))
  }

  /** AddVote on a box that does not exist yet. */
  function OpenAndVote(u: Setup, s: Round, call: Call): (r: (Outcome, Round)) {
    var req, d := call.req, call.req.data;
    var c, admitted := CellAt(s, d.instructionID), Admit(s.limiter, u.maxPending, req.signer);
    if BeforeEvent(d, call.openedAt) then (Rejected(VotingBeforeEvent), s.(now := call.openedAt))
    else if admitted.Err? then (Rejected(NotAdmitted(admitted.error)), s.(now := call.openedAt))
    else
      var b := BuildBox(u, d, req.signer, call.resolved, call.builtAt);
      if b.Err? then
        (Rejected(BadMetadata(b.error)),
         Put(s, d.instructionID, c).(limiter := Release(admitted.value, req.signer), now := call.builtAt))
      else
        var v := CastInto(u, b.value, req, call.castAt);
        if v.Err? then
          (Rejected(NotCast(v.error)),
           Put(s, d.instructionID, c).(limiter := admitted.value, leaked := s.leaked + multiset{req.signer},
               now := call.castAt))
        else
          Conclude(s.(limiter := admitted.value), d.instructionID, c, FixedHash(d), d, v.value.0, v.value.1,
              v.value.2, call.castAt)
  }

  /** AddVote on a stored box. */
  function VoteInStored(u: Setup, s: Round, call: Call, b: Box): (r: (Outcome, Round)) {
    var req, d := call.req, call.req.data;
    if b.deleted then (Rejected(NotCast(VotingEnded)), s.(now := call.castAt))
    else
      var v := CastInto(u, b, req, call.castAt);
      if v.Err? then (Rejected(NotCast(v.error)), s.(now := call.castAt))
      else Conclude(s, d.instructionID, CellAt(s, d.instructionID), FixedHash(d), d, v.value.0, v.value.1,
          v.value.2, call.castAt)
  }

  function AddVoteCall(u: Setup, s: Round, call: Call): (r: (Outcome, Round)) {
    var size, c := CheckSize(call.req, u.restoreVariable), CellAt(s, call.req.data.instructionID);
    if size.Some? then (Rejected(BadSize(size.value)), s)
    else if !call.consistent then (Rejected(InconsistentData), s)
    else if FixedHash(call.req.data) in c.boxes then VoteInStored(u, s, call, c.boxes[FixedHash(call.req.data)])
    else OpenAndVote(u, s, call)
  }

  /** s' is s but for the clock, the limiter and the record of refused first votes. */
  ghost predicate SameBut(s: Round, s': Round, limiter: Counters) {
    s'.limiter == limiter && forall j :: CellAt(s', j) == CellAt(s, j)
  }

  /** How opening a voting ends, case by case, without the details of what it stores. */
  lemma OpenCases(u: Setup, s: Round, call: Call)
    ensures var spec, admitted := OpenAndVote(u, s, call), Admit(s.limiter, u.maxPending, call.req.signer);
            var b := BuildBox(u, call.req.data, call.req.signer, call.resolved, call.builtAt);
            if BeforeEvent(call.req.data, call.openedAt)
            then spec.0 == Rejected(VotingBeforeEvent) && SameBut(s, spec.1, s.limiter)
            else if admitted.Err? then spec.0 == Rejected(NotAdmitted(admitted.error)) && SameBut(s, spec.1, s.limiter)
            else if b.Err?
            then spec.0 == Rejected(BadMetadata(b.error))
                && SameBut(s, spec.1, Release(admitted.value, call.req.signer))
            else
              var v := CastInto(u, b.value, call.req, call.castAt);
              if v.Err? then spec.0 == Rejected(NotCast(v.error)) && SameBut(s, spec.1, admitted.value)
              else
                && spec.0.Accepted?
                && spec == Conclude(s.(limiter := admitted.value), call.req.data.instructionID,
                                    CellAt(s, call.req.data.instructionID), FixedHash(call.req.data), call.req.data,
                                    v.value.0, v.value.1, v.value.2, call.castAt)
  {
    hide BuildBox, CastInto, BeforeEvent, SettleCell, BuildAction;
  }

  /** How a vote on a stored box ends, case by case. */
  lemma StoredCases(u: Setup, s: Round, call: Call, b: Box)
    ensures var spec, v := VoteInStored(u, s, call, b), CastInto(u, b, call.req, call.castAt);
            if b.deleted then spec.0 == Rejected(NotCast(VotingEnded)) && SameBut(s, spec.1, s.limiter)
            else if v.Err? then spec.0 == Rejected(NotCast(v.error)) && SameBut(s, spec.1, s.limiter)
            else
              && spec.0.Accepted?
              && spec == Conclude(s, call.req.data.instructionID, CellAt(s, call.req.data.instructionID),
                                  FixedHash(call.req.data), call.req.data, v.value.0, v.value.1, v.value.2, call.castAt)
  {
    hide CastInto, SettleCell, BuildAction;
  }

  /** Settling changes the record of one box, the first winner and the flight, and nothing else of the cell. */
  lemma SettleFrame(c: Cell, h: Hash, d: DataFixed)
    requires h in c.boxes
    ensures var c' := SettleCell(c, h, d);
            && c'.boxes.Keys == c.boxes.Keys && c'.boxes[h].(history := c.boxes[h].history) == c.boxes[h]
            && (forall g :: g in c.boxes && g != h ==> c'.boxes[g] == c.boxes[g])
            && c'.timers == c.timers && c'.flight == Idle
  {
    hide BuildAction;
    var landed := c.(flight := Idle);
    EmitFrame(if c.finalizedHash == ZeroHash then landed.(finalizedHash := h) else landed, h, Threshold);
    hide Emit;
  }

  lemma EmitFrame(c: Cell, h: Hash, tag: Tag)
    requires h in c.boxes
    ensures var c' := Emit(c, h, tag);
            && c'.boxes.Keys == c.boxes.Keys && c'.boxes[h].(history := c.boxes[h].history) == c.boxes[h]
            && (forall g :: g in c.boxes && g != h ==> c'.boxes[g] == c.boxes[g])
            && c'.timers == c.timers && c'.flight == c.flight && c'.finalizedHash == c.finalizedHash
  {
    hide BuildAction;
  }

  /** What concluding an accepted vote does: the box is stored, and only its record of actions may still grow. */
  lemma ConcludeShape(s: Round, id: ID, c: Cell, h: Hash, d: DataFixed, b: Box, receipt: Receipt, finalizes: bool,
      t: nat)
    ensures var (outcome, s') := Conclude(s, id, c, h, d, b, receipt, finalizes, t);
            && outcome.Accepted? && outcome.receipt == receipt
            && (forall j :: j != id ==> CellAt(s', j) == CellAt(s, j))
            && s'.limiter == (if finalizes then Release(s.limiter, b.proposer) else s.limiter)
            && var c' := CellAt(s', id);
               && c'.boxes.Keys == c.boxes.Keys + {h} && c'.boxes[h].(history := b.history) == b
               && (forall g :: g in c.boxes && g != h ==> c'.boxes[g] == c.boxes[g])
               && c'.timers == c.timers + {h}
  {
    hide BuildAction, SettleCell, Release;
    var c1 := c.(boxes := c.boxes[h := b], timers := c.timers + {h});
    SettleFrame(c1, h, d);
  }

  /** The action a concluded call hands back is the one it adds to the box's record. */
  lemma ConcludeAction(s: Round, id: ID, c: Cell, h: Hash, d: DataFixed, b: Box, receipt: Receipt, finalizes: bool,
      t: nat)
    ensures var (outcome, s') := Conclude(s, id, c, h, d, b, receipt, finalizes, t);
            && outcome.Accepted? && h in CellAt(s', id).boxes
            && (outcome.action.Some? <==> finalizes && !IsRestore(d) && BuildAction(b, Threshold).Ok?)
            && var history := CellAt(s', id).boxes[h].history;
               && history.order == b.history.order
               && history.emitted == b.history.emitted
                    + if outcome.action.Some? then [Emission(outcome.action.value, b.history.order)] else []
  {
    hide BuildAction, Release;
  }

  lemma RunTwo(u: Setup, s: Round, e: Event, rest: seq<Event>)
    requires Step(u, s, e).Some?
    ensures Run(u, s, [e] + rest) == Run(u, Step(u, s, e).value, rest)
  {
    assert ([e] + rest)[1..] == rest;
  }

  lemma RunOne(u: Setup, s: Round, e: Event)
    requires Step(u, s, e).Some?
    ensures Run(u, s, [e]) == Step(u, s, e)
  {
    RunTwo(u, s, e, []);
    assert [e] + [] == [e];
  }

  lemma {:induction false} RunAppend(u: Setup, s: Round, a: seq<Event>, b: seq<Event>)
    requires Run(u, s, a).Some?
    ensures Run(u, s, a + b) == Run(u, Run(u, s, a).value, b)
    decreases |a|
  {
    if a == [] {
      assert a + b == b;
    } else {
      assert (a + b)[1..] == a[1..] + b;
      RunAppend(u, Step(u, s, a[0]).value, a[1..], b);
    }
  }

  lemma StaysReachable(u: Setup, s: Round, s': Round, events: seq<Event>)
    requires Reachable(u, s) && Run(u, s, events) == Some(s')
    ensures Reachable(u, s')
  {
    var prefix :| Run(u, Start(u), prefix) == Some(s);
    RunAppend(u, Start(u), prefix, events);
  }

  /** The steps that conclude an accepted vote. */
  lemma ConcludeRun(u: Setup, s: Round, s1: Round, id: ID, c: Cell, d: DataFixed, b: Box, receipt: Receipt,
      finalizes: bool, t: nat)
    requires c.flight == Idle
    requires var h := FixedHash(d);
             s1 == Put(s, id, c.(boxes := c.boxes[h := b], flight := if finalizes then Finalizing(h)
                 else Idle, timers := c.timers + {h})).(now := t)
    ensures var s' := Conclude(s, id, c, FixedHash(d), d, b, receipt, finalizes, t).1;
            if finalizes then Step(u, s1, Settle(id)) == Some(s') else s' == s1
  {
    var h := FixedHash(d);
    var c1 := CellAt(s1, id);
    if finalizes {
      assert s1.cells[id] == c1;
      assert SettleCell(c1, h, d) == SettleCell(c1.(flight := Idle), h, d);
      assert s1.cells[id := SettleCell(c1, h, d)] == s.cells[id := SettleCell(c1, h, d)];
    }
  }

  /** An uninterrupted AddVote is a run of the step system, so everything reachable by calls is covered there. */
  lemma AddVoteIsRun(u: Setup, s: Round, call: Call) returns (events: seq<Event>)
    requires Timely(s, call) && CellAt(s, call.req.data.instructionID).flight == Idle
    requires var c := CellAt(s, call.req.data.instructionID);
             forall h :: h in c.boxes && !c.boxes[h].deleted ==> h in c.timers
    ensures Run(u, s, events) == Some(AddVoteCall(u, s, call).1)
  {
    var size, c := CheckSize(call.req, u.restoreVariable), CellAt(s, call.req.data.instructionID);
    if size.Some? || !call.consistent {
      events := [];
    } else if FixedHash(call.req.data) in c.boxes {
      events := StoredVoteIsRun(u, s, call);
    } else {
      events := OpeningIsRun(u, s, call);
    }
  }

  lemma StoredVoteIsRun(u: Setup, s: Round, call: Call) returns (events: seq<Event>)
    requires Timely(s, call) && CheckSize(call.req, u.restoreVariable).None?
    requires var c, h := CellAt(s, call.req.data.instructionID), FixedHash(call.req.data);
             c.flight == Idle && h in c.boxes && (!c.boxes[h].deleted ==> h in c.timers)
    ensures var c, h := CellAt(s, call.req.data.instructionID), FixedHash(call.req.data);
            Run(u, s, events) == Some(VoteInStored(u, s, call, c.boxes[h]).1)
  {
    hide CheckSize, CastInto;
    var req, d := call.req, call.req.data;
    var id, h := d.instructionID, FixedHash(d);
    var c := CellAt(s, id);
    var e := LaterVote(req, call.castAt);
    RunOne(u, s, e);
    events := [e];
    if !c.boxes[h].deleted && CastInto(u, c.boxes[h], req, call.castAt).Ok? {
      var v := CastInto(u, c.boxes[h], req, call.castAt).value;
      assert c.timers + {h} == c.timers;
      var s1 := Step(u, s, e).value;
      ConcludeRun(u, s, s1, id, c, d, v.0, v.1, v.2, call.castAt);
      if v.2 {
        RunOne(u, s1, Settle(id));
        RunTwo(u, s, e, [Settle(id)]);
        events := [e] + [Settle(id)];
      }
    }
  }

  lemma OpeningIsRun(u: Setup, s: Round, call: Call) returns (events: seq<Event>)
    requires Timely(s, call) && CheckSize(call.req, u.restoreVariable).None?
    requires var c, h := CellAt(s, call.req.data.instructionID), FixedHash(call.req.data);
             c.flight == Idle && h !in c.boxes
    ensures Run(u, s, events) == Some(OpenAndVote(u, s, call).1)
  {
    hide CheckSize, CastInto, BuildBox;
    var req, d := call.req, call.req.data;
    var id := d.instructionID;
    var c, admitted := CellAt(s, id), Admit(s.limiter, u.maxPending, req.signer);
    var e1 := Increment(req, call.openedAt);
    RunOne(u, s, e1);
    events := [e1];
    if !BeforeEvent(d, call.openedAt) && admitted.Ok? {
      var s1 := Step(u, s, e1).value;
      assert CellAt(s1, id) == c.(flight := Opened(req));
      var tail := BuildingIsRun(u, s, s1, call);
      RunTwo(u, s, e1, tail);
      events := [e1] + tail;
    }
  }

  lemma BuildingIsRun(u: Setup, s: Round, s1: Round, call: Call) returns (events: seq<Event>)
    requires Timely(s, call)
    requires var c, admitted := CellAt(s, call.req.data.instructionID), Admit(s.limiter, u.maxPending, call.req.signer);
             && c.flight == Idle && FixedHash(call.req.data) !in c.boxes
             && !BeforeEvent(call.req.data, call.openedAt) && admitted.Ok?
             && s1 == Put(s, call.req.data.instructionID,
                 c.(flight := Opened(call.req))).(limiter := admitted.value, now := call.openedAt)
    ensures Run(u, s1, events) == Some(OpenAndVote(u, s, call).1)
  {
    hide CheckSize, CastInto, BuildBox, BeforeEvent;
    var req, d := call.req, call.req.data;
    var id, h := d.instructionID, FixedHash(d);
    var c, admitted := CellAt(s, id), Admit(s.limiter, u.maxPending, req.signer);
    assert CellAt(s1, id) == c.(flight := Opened(req));
    var e2 := Build(id, call.resolved, call.builtAt);
    RunOne(u, s1, e2);
    events := [e2];
    var s2 := Step(u, s1, e2).value;
    assert s1.cells[id := c.(flight := Idle)] == s.cells[id := c];
    if BuildBox(u, d, req.signer, call.resolved, call.builtAt).Ok? {
      var b := BuildBox(u, d, req.signer, call.resolved, call.builtAt).value;
      assert CellAt(s2, id) == c.(flight := Built(req, b));
      var e3 := FirstVote(id, call.castAt);
      var s3 := Step(u, s2, e3).value;
      RunOne(u, s2, e3);
      RunTwo(u, s1, e2, [e3]);
      events := [e2] + [e3];
      assert s2.cells[id := c.(flight := Idle)] == s.cells[id := c];
      if CastInto(u, b, req, call.castAt).Ok? {
        var v := CastInto(u, b, req, call.castAt).value;
        ConcludeRun(u, s.(limiter := admitted.value), s3, id, c, d, v.0, v.1, v.2, call.castAt);
        if v.2 {
          RunOne(u, s3, Settle(id));
          RunTwo(u, s2, e3, [Settle(id)]);
          RunTwo(u, s1, e2, [e3] + [Settle(id)]);
          events := [e2] + ([e3] + [Settle(id)]);
        }
      }
    }
  }

  /** A box that took a vote can build its action, if that vote finalized it. */
  lemma CastReady(u: Setup, b: Box, req: Request, then': nat, t: nat)
    requires ValidPolicy(u.policy) && BoxInv(u.policy, b, then') && !b.deleted && then' <= t
    ensures var v := CastInto(u, b, req, t);
            v.Ok? ==>
              && Arranges(v.value.0.votes, v.value.0.history.order) && !v.value.0.deleted
              && (v.value.2 ==> BuildAction(v.value.0, Threshold).Ok?)
  {
    hide Tallied, Receipted, Timed, Arranges;
    CastInv(u.policy, b, req.signer, req.signature, req.additionalVariableMessage, then', t);
  }

  lemma CallReachable(u: Setup, s: Round, call: Call)
    requires ValidPolicy(u.policy) && Reachable(u, s) && Timely(s, call)
        && CellAt(s, call.req.data.instructionID).flight == Idle
    ensures Reachable(u, AddVoteCall(u, s, call).1)
  {
    hide AddVoteCall, BoxInv, EmittedExactly, FlightInv, Winner;
    var id := call.req.data.instructionID;
    ReachableInv(u, s);
    CellAtInv(u, s, s.now, id);
    var events := AddVoteIsRun(u, s, call);
    StaysReachable(u, s, AddVoteCall(u, s, call).1, events);
  }
}
