/** The limiter's pending counts against the boxes they stand for, over every interleaving. */
module RoundLimiter {
  import opened Foundations
  import opened Instructions
  import opened Metadata
  import opened Limiter
  import opened Ballot
  import opened RoundSteps
  import opened RoundInvariant

  ghost predicate Open(c: Cell, h: Hash, p: Address) {
    h in c.boxes && !c.boxes[h].finalized && c.boxes[h].proposer == p
  }

  /** Unfinalized boxes of the round opened by p, expired ones included. */
  ghost function OpenBoxes(s: Round, p: Address): (r: set<(ID, Hash)>) {
    set id, h | id in s.cells && h in s.cells[id].boxes && Open(s.cells[id], h, p) :: (id, h)
  }

  /** Whose slot the AddVote in progress on a cell holds without an unfinalized box to show for it. */
  function FlightOwner(c: Cell): (r: Option<Address>) {
    match c.flight
    case Idle => None
    case Opened(req) => Some(req.signer)
    case Built(req, _) => Some(req.signer)
    case Finalizing(h) => if h in c.boxes then Some(c.boxes[h].proposer) else None
  }

  ghost function InFlight(s: Round, p: Address): (r: set<ID>) {
    set id | id in s.cells && FlightOwner(s.cells[id]) == Some(p)
  }

  ghost function Load(s: Round, p: Address): (r: nat) {
    |OpenBoxes(s, p)| + |InFlight(s, p)|
  }

  /** Every reserved slot is accounted for by a box, an AddVote in progress, or a refused first vote. */
  ghost predicate LimiterInv(u: Setup, s: Round) {
    && Balanced(s.limiter, u.maxPending)
    && forall p :: p in s.limiter ==> s.limiter[p].pending == Load(s, p) + s.leaked[p]
  }

  function Ind(b: bool): (r: int) {
    if b then 1 else 0
  }

  /** Rewriting one cell, with at most one box changed, moves the load by what changed there. */
  lemma PutLoad(s: Round, s': Round, id: ID, c: Cell, h: Hash, p: Address)
    requires s'.cells == s.cells[id := c]
    requires forall g :: g != h ==> Open(c, g, p) == Open(CellAt(s, id), g, p)
    ensures Load(s', p) == Load(s, p)
              + Ind(Open(c, h, p)) - Ind(Open(CellAt(s, id), h, p))
              + Ind(FlightOwner(c) == Some(p)) - Ind(FlightOwner(CellAt(s, id)) == Some(p))
  {
    FlightsPut(s, s', id, c, p);
    BoxesPut(s, s', id, c, h, p);
  }

  /** Two sets that agree except at x differ in size by their memberships of x. */
  lemma SizesDiffer<T>(a: set<T>, b: set<T>, x: T)
    requires forall y :: y != x ==> (y in a <==> y in b)
    ensures |b| == |a| + Ind(x in b) - Ind(x in a)
  {
    assert a - {x} == b - {x};
    assert x in a ==> a == (a - {x}) + {x};
    assert x in b ==> b == (b - {x}) + {x};
  }

  lemma FlightsPut(s: Round, s': Round, id: ID, c: Cell, p: Address)
    requires s'.cells == s.cells[id := c]
    ensures |InFlight(s', p)| == |InFlight(s, p)|
        + Ind(FlightOwner(c) == Some(p)) - Ind(FlightOwner(CellAt(s, id)) == Some(p))
  {
    hide FlightOwner;
    assert FlightOwner(EMPTY_CELL) == None by { EmptyCellUnowned(); }
    SizesDiffer(InFlight(s, p), InFlight(s', p), id);
  }

  lemma EmptyCellUnowned()
    ensures FlightOwner(EMPTY_CELL) == None
  {
  }

  lemma BoxesPut(s: Round, s': Round, id: ID, c: Cell, h: Hash, p: Address)
    requires s'.cells == s.cells[id := c]
    requires forall g :: g != h ==> Open(c, g, p) == Open(CellAt(s, id), g, p)
    ensures |OpenBoxes(s', p)| == |OpenBoxes(s, p)| + Ind(Open(c, h, p)) - Ind(Open(CellAt(s, id), h, p))
  {
    OpenAt(s, p);
    OpenAt(s', p);
    hide OpenBoxes, Open;
    SizesDiffer(OpenBoxes(s, p), OpenBoxes(s', p), (id, h));
  }

  lemma OpenAt(s: Round, p: Address)
    ensures forall x :: x in OpenBoxes(s, p) <==> Open(CellAt(s, x.0), x.1, p)
  {
  }

  lemma ClockLoad(s: Round, s': Round, p: Address)
    requires s'.cells == s.cells
    ensures Load(s', p) == Load(s, p)
  {
    assert OpenBoxes(s', p) == OpenBoxes(s, p) && InFlight(s', p) == InFlight(s, p);
  }

  // ---------------------------------------------------------------- one step

  lemma OpenStepsLimiter(u: Setup, s: Round, e: Event)
    requires CellsInv(u, s) && LimiterInv(u, s) && Step(u, s, e).Some? && (e.Increment? || e.Build?)
    ensures LimiterInv(u, Step(u, s, e).value)
  {
    hide CellsInv, CheckSize, BuildBox, Load, Balanced;
    var s' := Step(u, s, e).value;
    var id := if e.Increment? then e.req.data.instructionID else e.id;
    var c := CellAt(s, id);
    forall p: Address ensures s'.cells == s.cells ==> Load(s', p) == Load(s, p) {
      if s'.cells == s.cells { ClockLoad(s, s', p); }
    }
    if s' != s.(now := e.t) {
      forall p: Address ensures Load(s', p) == Load(s, p)
          + Ind(FlightOwner(s'.cells[id]) == Some(p)) - Ind(FlightOwner(c) == Some(p)) {
        PutLoad(s, s', id, s'.cells[id], ZeroHash, p);
      }
      if e.Build? {
        assert FlightOwner(c) == Some(c.flight.req.signer);
        OwnerPending(u, s, id, c.flight.req.signer);
        ReleaseBalanced(s.limiter, u.maxPending, c.flight.req.signer);
      } else {
        AdmitBalanced(s.limiter, u.maxPending, e.req.signer);
      }
    }
  }

  /** A slot in use is never released twice: its owner has something pending. */
  lemma OwnerPending(u: Setup, s: Round, id: ID, p: Address)
    requires LimiterInv(u, s) && FlightOwner(CellAt(s, id)) == Some(p)
    ensures p in s.limiter ==> s.limiter[p].pending > 0
  {
    if id in s.cells {
      assert id in InFlight(s, p);
      assert InFlight(s, p) != {};
    }
  }

  lemma FirstVoteStepLimiter(u: Setup, s: Round, e: Event)
    requires CellsInv(u, s) && LimiterInv(u, s) && Step(u, s, e).Some? && e.FirstVote?
    ensures LimiterInv(u, Step(u, s, e).value)
  {
    hide BoxInv, CheckSize, ResolveThreshold, EmittedExactly, Stored, Winner, Timers, Load;
    var s', c := Step(u, s, e).value, CellAt(s, e.id);
    assert CellInv(u, s.now, e.id, c);
    var h, p0 := FixedHash(c.flight.req.data), c.flight.req.signer;
    forall p: Address ensures Load(s', p) == Load(s, p) - Ind(p == p0 && s'.leaked != s.leaked) {
      PutLoad(s, s', e.id, s'.cells[e.id], h, p);
    }
  }

  lemma LaterVoteStepLimiter(u: Setup, s: Round, e: Event)
    requires CellsInv(u, s) && LimiterInv(u, s) && Step(u, s, e).Some? && e.LaterVote?
    ensures LimiterInv(u, Step(u, s, e).value)
  {
    hide CellsInv, CheckSize, Load;
    var s', id := Step(u, s, e).value, e.req.data.instructionID;
    forall p: Address ensures Load(s', p) == Load(s, p) {
      if s'.cells == s.cells {
        ClockLoad(s, s', p);
      } else {
        PutLoad(s, s', id, s'.cells[id], FixedHash(e.req.data), p);
      }
    }
  }

  lemma EmitKeepsOpen(c: Cell, h: Hash, tag: Tag)
    requires h in c.boxes
    ensures var c' := Emit(c, h, tag);
            && h in c'.boxes && c'.boxes[h].finalized == c.boxes[h].finalized
                && c'.boxes[h].proposer == c.boxes[h].proposer
            && c'.flight == c.flight
            && (forall g, p :: Open(c', g, p) == Open(c, g, p))
  {
  }

  lemma SettleKeepsOpen(c: Cell, h: Hash, d: DataFixed)
    requires h in c.boxes
    ensures var c' := SettleCell(c, h, d);
            && c'.flight == Idle && h in c'.boxes && (forall g, p :: Open(c', g, p) == Open(c, g, p))
  {
    hide Emit;
    var landed := c.(flight := Idle, finalizedHash := if c.finalizedHash == ZeroHash then h else c.finalizedHash);
    EmitKeepsOpen(landed, h, Threshold);
  }

  lemma EndKeepsOpen(c: Cell, h: Hash)
    requires h in c.boxes
    ensures var c' := EndCell(c, h);
            && c'.flight == c.flight && (forall g, p :: Open(c', g, p) == Open(c, g, p))
  {
    hide Emit;
    EmitKeepsOpen(c, h, Threshold);
    EmitKeepsOpen(c, h, End);
    EmitKeepsOpen(Emit(c, h, Threshold), h, End);
  }

  lemma CloseStepsLimiter(u: Setup, s: Round, e: Event)
    requires CellsInv(u, s) && LimiterInv(u, s) && Step(u, s, e).Some? && (e.Settle? || e.EndVoting?)
    ensures LimiterInv(u, Step(u, s, e).value)
  {
    hide CellsInv, SettleCell, EndCell, Load, Open, Balanced;
    var s', c := Step(u, s, e).value, CellAt(s, e.id);
    var h := if e.Settle? then c.flight.hash else e.hash;
    if e.Settle? {
      SettleKeepsOpen(c, h, h.data);
      OwnerPending(u, s, e.id, c.boxes[h].proposer);
      ReleaseBalanced(s.limiter, u.maxPending, c.boxes[h].proposer);
    } else {
      EndKeepsOpen(c, h);
    }
    forall p: Address ensures Load(s', p) == Load(s, p) - Ind(FlightOwner(c) == Some(p)) {
      PutLoad(s, s', e.id, s'.cells[e.id], h, p);
    }
  }

  lemma StepLimiter(u: Setup, s: Round, e: Event)
    requires CellsInv(u, s) && LimiterInv(u, s) && Step(u, s, e).Some?
    ensures LimiterInv(u, Step(u, s, e).value)
  {
    hide CellsInv, LimiterInv, Step;
    match e
    case Increment(_, _) => OpenStepsLimiter(u, s, e);
    case Build(_, _, _) => OpenStepsLimiter(u, s, e);
    case FirstVote(_, _) => FirstVoteStepLimiter(u, s, e);
    case LaterVote(_, _) => LaterVoteStepLimiter(u, s, e);
    case Settle(_) => CloseStepsLimiter(u, s, e);
    case EndVoting(_, _, _) => CloseStepsLimiter(u, s, e);
  }

  lemma {:induction false} RunLimiter(u: Setup, s: Round, events: seq<Event>)
    requires ValidPolicy(u.policy) && CellsInv(u, s) && LimiterInv(u, s) && Run(u, s, events).Some?
    ensures LimiterInv(u, Run(u, s, events).value)
    decreases |events|
  {
    hide CellsInv, LimiterInv, Step;
    if events != [] {
      StepInv(u, s, events[0]);
      StepLimiter(u, s, events[0]);
      RunLimiter(u, Step(u, s, events[0]).value, events[1..]);
    }
  }

  // ---------------------------------------------------------------- every reachable state

  /**
   * A provider's pending count lies between the number of unfinalized boxes it opened and the cap; the
   * excess is the AddVote calls in progress and the refused first votes. Proposed minus completed is pending.
   */
  lemma PendingCounts(u: Setup, s: Round, p: Address)
    requires ValidPolicy(u.policy) && Reachable(u, s) && p in s.limiter
    ensures p in u.policy.weights
    ensures |OpenBoxes(s, p)| <= s.limiter[p].pending <= u.maxPending
    ensures s.limiter[p].pending == |OpenBoxes(s, p)| + |InFlight(s, p)| + s.leaked[p]
    ensures s.limiter[p].proposed - s.limiter[p].completed == s.limiter[p].pending
    ensures s.leaked[p] == 0 && (forall id :: id in s.cells ==> s.cells[id].flight.Idle?) ==>
              s.limiter[p].pending == |OpenBoxes(s, p)|
  {
    var events :| Run(u, Start(u), events) == Some(s);
    assert LimiterInv(u, Start(u)) by {
      forall a | a in Start(u).limiter ensures Load(Start(u), a) == 0 {
        assert OpenBoxes(Start(u), a) == {} && InFlight(Start(u), a) == {};
      }
    }
    RunInv(u, Start(u), events);
    RunLimiter(u, Start(u), events);
    if forall id :: id in s.cells ==> s.cells[id].flight.Idle? { assert InFlight(s, p) == {}; }
  }

  /** Releases never meet a zero count: neither on a failed build nor on finalization. */
  lemma ReleaseNeverAtZero(u: Setup, s: Round, e: Event)
    requires ValidPolicy(u.policy) && Reachable(u, s) && Step(u, s, e).Some? && (e.Build? || e.Settle?)
    ensures var c := CellAt(s, e.id);
            && FlightOwner(c).Some?
            && FlightOwner(c).value in s.limiter && s.limiter[FlightOwner(c).value].pending > 0
  {
    ReachableInv(u, s);
    var c := CellAt(s, e.id);
    assert CellInv(u, s.now, e.id, c);
    if e.Settle? { assert Stored(u, s.now, e.id, c.flight.hash, c.boxes[c.flight.hash]); }
    var p := FlightOwner(c).value;
    PendingCounts(u, s, p);
    assert e.id in InFlight(s, p);
    assert |InFlight(s, p)| > 0;
  }

  /**
   * The first vote on a fresh box is refused, leaving its slot reserved, exactly when the window has already closed.
   */
  lemma FirstVoteRefusedIffExpired(u: Setup, s: Round, id: ID, t: nat)
    requires ValidPolicy(u.policy) && Reachable(u, s) && StepFirstVote(u, s, id, t).Some?
    ensures StepFirstVote(u, s, id, t).value.leaked != s.leaked <==> CellAt(s, id).flight.box.endTime < t
  {
    ReachableInv(u, s);
    var c := CellAt(s, id);
    assert CellInv(u, s.now, id, c);
    assert c.flight.box.votes == map[];
    assert (s.leaked + multiset{c.flight.req.signer})[c.flight.req.signer] == s.leaked[c.flight.req.signer] + 1;
  }
}
