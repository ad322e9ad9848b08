/** The invariant every interleaving of AddVote and scheduleEnd keeps, cell by cell. */
module RoundInvariant {
  import opened Foundations
  import opened Instructions
  import opened Metadata
  import opened Ballot
  import opened RoundSteps

  ghost predicate Stored(u: Setup, now: nat, id: ID, h: Hash, b: Box) {
    && BoxInv(u.policy, b, now)
    && h.FixedHash? && b.hash == h && b.id == id && b.endTime == b.startTime + u.expiration
    && b.history.order != []
    && ResolveThreshold(u.policy, h.data, u.decode) == Ok(b.proposal.threshold)
  }

  function EmissionOf(d: DataFixed, tag: Tag, casts: seq<Cast>): (r: Emission) {
    Emission(ActionOf(d, tag, casts), casts)
  }

  /** A Threshold action over the shortest passing prefix of the box's vote order. */
  ghost predicate FirstPassing(u: Setup, b: Box, e: Emission)
    requires b.hash.FixedHash?
  {
    && e == EmissionOf(b.hash.data, Threshold, e.casts)
    && e.casts <= b.history.order
    && ShortestPassing(u.policy, b.hash.data, b.proposal.threshold, e.casts)
  }

  /** Exactly which actions a box has built, from its flags and the cell's first winner. */
  ghost predicate EmittedExactly(u: Setup, c: Cell, h: Hash)
    requires h in c.boxes && c.boxes[h].hash == h && h.FixedHash?
  {
    var b := c.boxes[h];
    var emitted, d, order := b.history.emitted, h.data, b.history.order;
    if !b.finalized || c.flight == Finalizing(h) || (IsRestore(d) && !b.deleted) then emitted == []
    else if IsRestore(d) then emitted == [EmissionOf(d, Threshold, order), EmissionOf(d, End, order)]
    else
      && |emitted| == (if b.deleted && h == c.finalizedHash then 2 else 1)
      && FirstPassing(u, b, emitted[0])
      && (|emitted| == 2 ==> emitted[1] == EmissionOf(d, End, order))
  }

  /** The first winner names a settled finalized box, and is missing only while nothing is settled. */
  ghost predicate Winner(c: Cell) {
    && (c.finalizedHash != ZeroHash ==> Settled(c, c.finalizedHash))
    && (c.finalizedHash == ZeroHash ==> forall h :: h in c.boxes ==> !Settled(c, h))
  }

  ghost predicate Settled(c: Cell, h: Hash) {
    h in c.boxes && h.FixedHash? && c.boxes[h].finalized && !IsRestore(h.data) && c.flight != Finalizing(h)
  }

  ghost predicate FlightInv(u: Setup, now: nat, id: ID, c: Cell) {
    match c.flight
    case Idle => true
    case Opened(req) => Opening(u, id, c, req)
    case Built(req, b) =>
      && Opening(u, id, c, req)
      && BoxInv(u.policy, b, now) && b.hash == FixedHash(req.data) && b.id == id && !b.deleted
      && b.endTime == b.startTime + u.expiration
      && b.proposer == req.signer && b.history == History([], [], []) && !b.finalized
      && ResolveThreshold(u.policy, req.data, u.decode) == Ok(b.proposal.threshold)
    case Finalizing(h) =>
      && h in c.boxes && h.FixedHash? && c.boxes[h].finalized && !c.boxes[h].deleted
      && ShortestPassing(u.policy, h.data, c.boxes[h].proposal.threshold, c.boxes[h].history.order)
  }

  ghost predicate Opening(u: Setup, id: ID, c: Cell, req: Request) {
    && req.data.instructionID == id && FixedHash(req.data) !in c.boxes
    && req.signer in u.policy.weights && CheckSize(req, u.restoreVariable).None?
  }

  /** A scheduleEnd goroutine is outstanding for exactly the boxes that are not deleted. */
  ghost predicate Timers(c: Cell) {
    forall h :: h in c.timers <==> h in c.boxes && !c.boxes[h].deleted
  }

  ghost predicate CellInv(u: Setup, now: nat, id: ID, c: Cell) {
    && (forall h :: h in c.boxes ==> Stored(u, now, id, h, c.boxes[h]))
    && Timers(c)
    && FlightInv(u, now, id, c)
    && (forall h :: h in c.boxes ==> EmittedExactly(u, c, h))
    && Winner(c)
    && c.lost == 0
  }

  ghost predicate CellsInv(u: Setup, s: Round) {
    && s.limiter.Keys == u.policy.weights.Keys
    && forall id :: id in s.cells ==> CellInv(u, s.now, id, s.cells[id])
  }

  // ---------------------------------------------------------------- one cell, one step

  lemma CellLater(u: Setup, then': nat, now: nat, id: ID, c: Cell)
    requires CellInv(u, then', id, c) && then' <= now
    ensures CellInv(u, now, id, c)
  {
    forall h | h in c.boxes ensures Stored(u, now, id, h, c.boxes[h]) {
      LaterInv(u.policy, c.boxes[h], then', now);
    }
    if c.flight.Built? { LaterInv(u.policy, c.flight.box, then', now); }
  }

  lemma FlightChange(u: Setup, now: nat, id: ID, c: Cell, f: Flight)
    requires CellInv(u, now, id, c) && !c.flight.Finalizing? && !f.Finalizing?
    requires FlightInv(u, now, id, c.(flight := f))
    ensures CellInv(u, now, id, c.(flight := f))
  {
    var c' := c.(flight := f);
    forall h | h in c'.boxes ensures EmittedExactly(u, c', h) { assert EmittedExactly(u, c, h); }
    if c.finalizedHash != ZeroHash { assert Settled(c, c.finalizedHash); }
    forall h | h in c.boxes ensures Settled(c', h) == Settled(c, h) {}
  }

  /** What a vote changes of its box. */
  lemma CastChanges(u: Setup, t: nat, b: Box, req: Request)
    requires CastInto(u, b, req, t).Ok?
    ensures var v := CastInto(u, b, req, t).value;
            && (b.finalized ==> v.0.finalized)
            && v.0.hash == b.hash && v.0.id == b.id && v.0.proposal == b.proposal && v.0.deleted == b.deleted
            && v.0.startTime == b.startTime && v.0.endTime == b.endTime
            && v.0.history.emitted == b.history.emitted && b.history.order < v.0.history.order
  {
  }

  lemma HashKnown(p: Policy, b: Box, now: nat)
    requires BoxInv(p, b, now)
    ensures b.hash.FixedHash?
  {
  }

  lemma CastIntoInv(u: Setup, then': nat, t: nat, b: Box, req: Request)
    requires ValidPolicy(u.policy) && then' <= t && BoxInv(u.policy, b, then') && !b.deleted
        && CastInto(u, b, req, t).Ok?
    ensures var v := CastInto(u, b, req, t).value;
            && BoxInv(u.policy, v.0, t) && b.hash.FixedHash? && v.2 == (!b.finalized && v.0.finalized)
            && (v.2 ==> ShortestPassing(u.policy, b.hash.data, b.proposal.threshold, v.0.history.order))
  {
    hide ShortestPassing, BoxInv, CastVote, ValidPolicy;
    HashKnown(u.policy, b, then');
    CastInv(u.policy, b, req.signer, req.signature, req.additionalVariableMessage, then', t);
  }

  /** A vote written into a box, fresh or stored, that is not deleted. */
  lemma StoreVoteInv(u: Setup, then': nat, t: nat, id: ID, c: Cell, b: Box, req: Request)
    requires ValidPolicy(u.policy) && then' <= t
    requires CellInv(u, t, id, c.(flight := Idle)) && !c.flight.Finalizing?
    requires BoxInv(u.policy, b, then') && b.id == id && b.hash == FixedHash(req.data) && !b.deleted
    requires b.endTime == b.startTime + u.expiration
    requires ResolveThreshold(u.policy, req.data, u.decode) == Ok(b.proposal.threshold)
    requires b.hash in c.boxes ==> c.boxes[b.hash] == b
    requires b.hash !in c.boxes ==> b.history == History([], [], []) && !b.finalized
    requires CastInto(u, b, req, t).Ok?
    ensures var v := CastInto(u, b, req, t).value;
            CellInv(u, t, id, StoreVote(c, b.hash, v.0, v.2).(timers := c.timers + {b.hash}))
  {
    hide CastInto, BoxInv, ShortestPassing, CheckSize, ResolveThreshold, ActionOf;
    var v := CastInto(u, b, req, t).value;
    var h, b' := b.hash, v.0;
    var c0, c' := c.(flight := Idle), StoreVote(c, h, b', v.2).(timers := c.timers + {h});
    CastIntoInv(u, then', t, b, req);
    CastChanges(u, t, b, req);
    assert c'.boxes == c.boxes[h := b'];
    assert Stored(u, t, id, h, b');
    forall g | g in c'.boxes ensures Stored(u, t, id, g, c'.boxes[g]) {
      if g != h { assert Stored(u, t, id, g, c0.boxes[g]); }
    }
    forall g | g in c'.boxes ensures EmittedExactly(u, c', g) {
      if g != h { assert EmittedExactly(u, c0, g); } else { StoreVoteEmitted(u, c0, c', b, b', v.2); }
    }
    StoreVoteWinner(c0, c', b, b', v.2);
  }

  lemma StoreVoteEmitted(u: Setup, c0: Cell, c': Cell, b: Box, b': Box, finalizes: bool)
    requires var h := b.hash;
             && h.FixedHash? && b'.hash == h && !b.deleted && b' == b'.(deleted := false)
             && c0.flight == Idle
             && c' == c0.(boxes := c0.boxes[h := b'], flight := if finalizes then Finalizing(h) else Idle,
                          timers := c'.timers)
             && (h in c0.boxes ==> c0.boxes[h] == b && EmittedExactly(u, c0, h))
             && (h !in c0.boxes ==> b.history.emitted == [] && !b.finalized)
             && b'.history.emitted == b.history.emitted && b.history.order <= b'.history.order
             && b'.proposal == b.proposal
             && finalizes == (!b.finalized && b'.finalized) && (b.finalized ==> b'.finalized)
    ensures EmittedExactly(u, c', b.hash)
  {
    var h := b.hash;
    if h in c0.boxes && b.finalized && !IsRestore(h.data) {
      assert FirstPassing(u, b, b.history.emitted[0]);
      assert FirstPassing(u, b', b'.history.emitted[0]);
    }
  }

  lemma StoreVoteWinner(c0: Cell, c': Cell, b: Box, b': Box, finalizes: bool)
    requires Winner(c0) && c0.flight == Idle && b.hash.FixedHash?
    requires c' == c0.(boxes := c0.boxes[b.hash := b'], flight := if finalizes then Finalizing(b.hash) else Idle,
                       timers := c'.timers)
    requires b.hash in c0.boxes ==> c0.boxes[b.hash] == b
    requires b.hash !in c0.boxes ==> !b.finalized
    requires finalizes == (!b.finalized && b'.finalized) && (b.finalized ==> b'.finalized)
    ensures Winner(c')
  {
    forall g | g in c'.boxes ensures Settled(c', g) == Settled(c0, g) {}
  }

  function Recorded(b: Box, emitted: seq<Emission>): (r: Box) {
    b.(history := b.history.(emitted := emitted))
  }

  lemma OpenBoxBuilds(u: Setup, now: nat, id: ID, h: Hash, b: Box, tag: Tag)
    requires Stored(u, now, id, h, b) && !b.deleted
    ensures b.proposal.instruction == Some(h.data)
    ensures b.finalized ==> BuildAction(b, tag) == Ok(ActionOf(h.data, tag, b.history.order))
  {
  }

  /** Replacing one box of a cell, flight landed: the other boxes' obligations carry over. */
  lemma ReplaceInv(u: Setup, now: nat, id: ID, c: Cell, c': Cell, h: Hash)
    requires CellInv(u, now, id, c) && h in c.boxes && h in c'.boxes
    requires c'.boxes == c.boxes[h := c'.boxes[h]] && c'.flight == Idle && c'.lost == 0
    requires c.flight == Idle || c.flight == Finalizing(h)
    requires c'.finalizedHash == c.finalizedHash || (c.finalizedHash == ZeroHash && c'.finalizedHash == h)
    requires Stored(u, now, id, h, c'.boxes[h]) && EmittedExactly(u, c', h)
    requires Timers(c') && Winner(c')
    ensures CellInv(u, now, id, c')
  {
    hide BoxInv, FirstPassing, ActionOf, ResolveThreshold, Winner, Timers;
    forall g | g in c'.boxes ensures Stored(u, now, id, g, c'.boxes[g]) {
      if g != h { assert Stored(u, now, id, g, c.boxes[g]); }
    }
    forall g | g in c'.boxes ensures EmittedExactly(u, c', g) {
      if g != h { OtherBoxEmitted(u, c, c', h, g); }
    }
  }

  lemma OtherBoxEmitted(u: Setup, c: Cell, c': Cell, h: Hash, g: Hash)
    requires g in c.boxes && g != h && g.FixedHash? && c.boxes[g].hash == g && EmittedExactly(u, c, g) && Winner(c)
    requires g in c'.boxes && c'.boxes[g] == c.boxes[g] && c'.flight == Idle
    requires c.flight == Idle || c.flight == Finalizing(h)
    requires c'.finalizedHash == c.finalizedHash || (c.finalizedHash == ZeroHash && c'.finalizedHash == h)
    ensures EmittedExactly(u, c', g)
  {
    if c.finalizedHash == ZeroHash { assert !Settled(c, g); }
  }

  lemma SettleInv(u: Setup, now: nat, id: ID, c: Cell)
    requires CellInv(u, now, id, c) && c.flight.Finalizing?
    ensures var h := c.flight.hash;
            && CellInv(u, now, id, SettleCell(c, h, h.data))
            && BuildAction(c.boxes[h], Threshold).Ok?
  {
    hide BoxInv, ShortestPassing, ActionOf, ResolveThreshold;
    var h := c.flight.hash;
    var b, d := c.boxes[h], h.data;
    assert Stored(u, now, id, h, b) && EmittedExactly(u, c, h);
    OpenBoxBuilds(u, now, id, h, b, Threshold);
    var c' := SettleCell(c, h, d);
    if IsRestore(d) {
      assert c.boxes[h := b] == c.boxes;
      assert Winner(c') by { forall g | g in c.boxes ensures Settled(c', g) == Settled(c, g) {} }
    } else {
      var e := EmissionOf(d, Threshold, b.history.order);
      assert c'.boxes[h] == Recorded(b, [e]);
      RecordInv(u.policy, b, now, [e]);
      assert FirstPassing(u, Recorded(b, [e]), e);
      assert Settled(c', h);
      assert Winner(c') by {
        if c.finalizedHash != ZeroHash { assert Settled(c, c.finalizedHash); }
      }
    }
    ReplaceInv(u, now, id, c, c', h);
  }

  /** The actions a box has built once its voting ends. */
  ghost function Due(c: Cell, h: Hash): (r: seq<Emission>)
    requires h in c.boxes && h.FixedHash?
  {
    var b, d := c.boxes[h], h.data;
    if !b.finalized then b.history.emitted
    else if IsRestore(d) then b.history.emitted
        + [EmissionOf(d, Threshold, b.history.order), EmissionOf(d, End, b.history.order)]
    else if h != c.finalizedHash then b.history.emitted
    else b.history.emitted + [EmissionOf(d, End, b.history.order)]
  }

  lemma EndShape(u: Setup, now: nat, id: ID, c: Cell, h: Hash)
    requires h in c.boxes && Stored(u, now, id, h, c.boxes[h]) && !c.boxes[h].deleted
    ensures EndCell(c, h) == c.(boxes := c.boxes[h := Delete(Recorded(c.boxes[h], Due(c, h)))],
        timers := c.timers - {h})
  {
    hide BoxInv, ActionOf, ResolveThreshold;
    var b := c.boxes[h];
    OpenBoxBuilds(u, now, id, h, b, Threshold);
    OpenBoxBuilds(u, now, id, h, b, End);
    var c' := EndCell(c, h);
    assert c'.boxes[h].history.emitted == Due(c, h);
    assert c'.boxes == c.boxes[h := c'.boxes[h]];
  }

  /** Ending a voting builds exactly the actions due, deletes the box and retires its timer. */
  lemma EndInv(u: Setup, now: nat, id: ID, c: Cell, h: Hash)
    requires CellInv(u, now, id, c) && c.flight.Idle? && h in c.timers
    ensures CellInv(u, now, id, EndCell(c, h))
  {
    hide BoxInv, ShortestPassing, ActionOf, ResolveThreshold;
    var b, c' := c.boxes[h], EndCell(c, h);
    assert Stored(u, now, id, h, b) && EmittedExactly(u, c, h);
    EndShape(u, now, id, c, h);
    var b' := c'.boxes[h];
    assert b' == Delete(Recorded(b, Due(c, h)));
    RecordInv(u.policy, b, now, Due(c, h));
    DeleteInv(u.policy, Recorded(b, Due(c, h)), now);
    if b.finalized && !IsRestore(h.data) {
      assert FirstPassing(u, b, b.history.emitted[0]);
      assert FirstPassing(u, b', b'.history.emitted[0]);
    }
    assert Winner(c') by { forall g | g in c.boxes ensures Settled(c', g) == Settled(c, g) {} }
    ReplaceInv(u, now, id, c, c', h);
  }

  // ---------------------------------------------------------------- the round, one step

  lemma EmptyCellInv(u: Setup, now: nat, id: ID)
    ensures CellInv(u, now, id, EMPTY_CELL)
  {
  }

  lemma CellAtInv(u: Setup, s: Round, now: nat, id: ID)
    requires CellsInv(u, s) && s.now <= now
    ensures CellInv(u, now, id, CellAt(s, id))
  {
    if id in s.cells { CellLater(u, s.now, now, id, s.cells[id]); } else { EmptyCellInv(u, now, id); }
  }

  lemma PutInv(u: Setup, s: Round, s': Round, id: ID, c: Cell)
    requires CellsInv(u, s) && s.now <= s'.now && s'.limiter.Keys == s.limiter.Keys
    requires s'.cells == s.cells[id := c] && CellInv(u, s'.now, id, c)
    ensures CellsInv(u, s')
  {
    forall i | i in s'.cells ensures CellInv(u, s'.now, i, s'.cells[i]) {
      if i != id { CellLater(u, s.now, s'.now, i, s.cells[i]); }
    }
  }

  lemma ClockInv(u: Setup, s: Round, t: nat)
    requires CellsInv(u, s) && s.now <= t
    ensures CellsInv(u, s.(now := t))
  {
    forall i | i in s.cells ensures CellInv(u, t, i, s.cells[i]) { CellLater(u, s.now, t, i, s.cells[i]); }
  }

  lemma OpenStepsInv(u: Setup, s: Round, e: Event)
    requires ValidPolicy(u.policy) && CellsInv(u, s) && Step(u, s, e).Some? && (e.Increment? || e.Build?)
    ensures CellsInv(u, Step(u, s, e).value)
  {
    var s' := Step(u, s, e).value;
    var id := if e.Increment? then e.req.data.instructionID else e.id;
    var c := CellAt(s, id);
    CellAtInv(u, s, e.t, id);
    if e.Build? { BuildBoxInv(u, c.flight.req, e.resolved, e.t); }
    if s' == s.(now := e.t) {
      ClockInv(u, s, e.t);
    } else {
      FlightChange(u, e.t, id, c, s'.cells[id].flight);
      PutInv(u, s, s', id, c.(flight := s'.cells[id].flight));
    }
  }

  lemma FirstVoteStepInv(u: Setup, s: Round, e: Event)
    requires ValidPolicy(u.policy) && CellsInv(u, s) && Step(u, s, e).Some? && e.FirstVote?
    ensures CellsInv(u, Step(u, s, e).value)
  {
    var s', c := Step(u, s, e).value, CellAt(s, e.id);
    CellAtInv(u, s, e.t, e.id);
    FlightChange(u, e.t, e.id, c, Idle);
    if CastInto(u, c.flight.box, c.flight.req, e.t).Ok? {
      StoreVoteInv(u, e.t, e.t, e.id, c, c.flight.box, c.flight.req);
    }
    PutInv(u, s, s', e.id, s'.cells[e.id]);
  }

  lemma OpenBoxInCell(u: Setup, now: nat, id: ID, c: Cell, h: Hash)
    requires CellInv(u, now, id, c) && c.flight.Idle? && h in c.boxes
    ensures Stored(u, now, id, h, c.boxes[h]) && c.(flight := Idle) == c
    ensures !c.boxes[h].deleted ==> c.timers + {h} == c.timers
  {
    hide Stored, EmittedExactly, Winner, FlightInv;
  }

  lemma LaterVoteStepInv(u: Setup, s: Round, e: Event)
    requires ValidPolicy(u.policy) && CellsInv(u, s) && Step(u, s, e).Some? && e.LaterVote?
    ensures CellsInv(u, Step(u, s, e).value)
  {
    hide CellInv, CastInto, BoxInv, CheckSize, ResolveThreshold;
    var s', id, h := Step(u, s, e).value, e.req.data.instructionID, FixedHash(e.req.data);
    var c := CellAt(s, id);
    CellAtInv(u, s, e.t, id);
    OpenBoxInCell(u, e.t, id, c, h);
    if s' == s.(now := e.t) {
      ClockInv(u, s, e.t);
    } else {
      StoreVoteInv(u, e.t, e.t, id, c, c.boxes[h], e.req);
      PutInv(u, s, s', id, s'.cells[id]);
    }
  }

  lemma SettleStepInv(u: Setup, s: Round, e: Event)
    requires ValidPolicy(u.policy) && CellsInv(u, s) && Step(u, s, e).Some? && e.Settle?
    ensures CellsInv(u, Step(u, s, e).value)
  {
    hide CellInv, SettleCell, BuildAction;
    var s' := Step(u, s, e).value;
    CellAtInv(u, s, s'.now, e.id);
    SettleInv(u, s.now, e.id, CellAt(s, e.id));
    PutInv(u, s, s', e.id, s'.cells[e.id]);
  }

  lemma EndStepInv(u: Setup, s: Round, e: Event)
    requires ValidPolicy(u.policy) && CellsInv(u, s) && Step(u, s, e).Some? && e.EndVoting?
    ensures CellsInv(u, Step(u, s, e).value)
  {
    hide CellInv, EndCell, BuildAction;
    var s' := Step(u, s, e).value;
    CellAtInv(u, s, s'.now, e.id);
    EndInv(u, e.t, e.id, CellAt(s, e.id), e.hash);
    PutInv(u, s, s', e.id, s'.cells[e.id]);
  }

  /** Every step of every AddVote and scheduleEnd keeps the invariant of every cell. */
  lemma StepInv(u: Setup, s: Round, e: Event)
    requires ValidPolicy(u.policy) && CellsInv(u, s) && Step(u, s, e).Some?
    ensures CellsInv(u, Step(u, s, e).value)
  {
    match e
    case Increment(_, _) => OpenStepsInv(u, s, e);
    case Build(_, _, _) => OpenStepsInv(u, s, e);
    case FirstVote(_, _) => FirstVoteStepInv(u, s, e);
    case LaterVote(_, _) => LaterVoteStepInv(u, s, e);
    case Settle(_) => SettleStepInv(u, s, e);
    case EndVoting(_, _, _) => EndStepInv(u, s, e);
  }

  lemma {:induction false} RunInv(u: Setup, s: Round, events: seq<Event>)
    requires ValidPolicy(u.policy) && CellsInv(u, s) && Run(u, s, events).Some?
    ensures CellsInv(u, Run(u, s, events).value)
    decreases |events|
  {
    if events != [] {
      StepInv(u, s, events[0]);
      RunInv(u, Step(u, s, events[0]).value, events[1..]);
    }
  }

  lemma ReachableInv(u: Setup, s: Round)
    requires ValidPolicy(u.policy) && Reachable(u, s)
    ensures CellsInv(u, s)
  {
    var events :| Run(u, Start(u), events) == Some(s);
    RunInv(u, Start(u), events);
  }
}
