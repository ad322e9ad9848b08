/**
 * Runs that show what the theorems about rounds leave open: a slot that stays reserved for a box that was never
 * stored, and two Threshold actions for one instruction ID, followed into the action queue.
 */
module RoundWitnesses {
  import opened Foundations
  import opened Quorum
  import opened Instructions
  import opened Metadata
  import opened Limiter
  import opened Ballot
  import opened RoundSteps
  import opened RoundInvariant
  import opened RoundTheorems
  import opened RoundCalls
  import RoundLimiter
  import ActionQueue
  import ActionDelivery

  /** One voter, whose vote alone passes the threshold, with room for one pending proposal. */
  const LONE_VOTER: Policy := Policy(map[0 := 3], 3, 1)

  function LoneSetup(expiration: nat): (u: Setup) {
    Setup(LONE_VOTER, 1, expiration, 0, (message: Bytes) => None)
  }

  function Proposed(id: ID, message: Bytes): (d: DataFixed) {
    DataFixed(id, 0, OtherOp(0), OtherCommand(0), message, [], [], 0, 0)
  }

  /** The voter proposes at time 0 and its vote is cast at time t. */
  function Propose(id: ID, message: Bytes, t: nat): (call: Call) {
    Call(Request(Proposed(id, message), [], 0, []), true, None, 0, 0, t)
  }

  lemma LoneVoterValid()
    ensures ValidPolicy(LONE_VOTER)
  {
    var w := LONE_VOTER.weights;
    assert w.Keys == {0} && {0} - {0} == {};
    TotalTakeOut(w, {0}, 0);
    assert Total(w, {}) == 0;
  }

  lemma StartReachable(u: Setup)
    ensures Reachable(u, Start(u))
  {
    assert Run(u, Start(u), []) == Some(Start(u));
  }

  /** What building the proposal gives. */
  function FreshBox(u: Setup, id: ID, message: Bytes): (b: Box) {
    NewBox(Proposed(id, message), 0, 1, Roster({}, 0), 0, u.expiration)
  }

  lemma Builds(expiration: nat, id: ID, message: Bytes)
    requires |message| <= 50 * KIB
    ensures var u, req := LoneSetup(expiration), Propose(id, message, 0).req;
            && CheckSize(req, u.restoreVariable).None? && !BeforeEvent(req.data, 0)
            && BuildBox(u, req.data, 0, None, 0) == Ok(FreshBox(u, id, message))
  {
    assert Elems(Proposed(id, message).cosigners) == {};
  }

  /**
   * A first vote after the window has closed is refused, and the round then has a pending slot without any box: with
   * a cap of one the voter can open nothing more in this round.
   */
  lemma LateFirstVoteLeaks(expiration: nat, id: ID, message: Bytes)
    requires |message| <= 50 * KIB
    ensures var u := LoneSetup(expiration);
            var (outcome, s) := AddVoteCall(u, Start(u), Propose(id, message, expiration + 1));
            && outcome == Rejected(NotCast(VotingEnded)) && Reachable(u, s)
            && s.leaked[0] == 1 && 0 in s.limiter && s.limiter[0].pending == 1
            && RoundLimiter.OpenBoxes(s, 0) == {}
            && Admit(s.limiter, u.maxPending, 0) == Err(LimitReached)
  {
    var u, call := LoneSetup(expiration), Propose(id, message, expiration + 1);
    LoneVoterValid();
    StartReachable(u);
    Builds(expiration, id, message);
    CallReachable(u, Start(u), call);
    var s := AddVoteCall(u, Start(u), call).1;
    assert CellAt(s, id).boxes == map[];
  }

  // ---------------------------------------------------------------- two winners for one instruction ID

  /** The cell of an instruction ID after the voter's proposal was accepted and finalized on the spot. */
  ghost predicate WonOnTheSpot(s: Round, id: ID, message: Bytes) {
    var c, h := CellAt(s, id), FixedHash(Proposed(id, message));
    c.flight.Idle? && h in c.boxes && c.boxes[h].finalized && !c.boxes[h].deleted
  }

  lemma VoteWins(expiration: nat, id: ID, message: Bytes)
    ensures var u, b := LoneSetup(expiration), FreshBox(LoneSetup(expiration), id, message);
            var v := CastInto(u, b, Propose(id, message, 0).req, 0);
            v.Ok? && v.value.2 && v.value.0.finalized && !v.value.0.deleted && v.value.0.proposer == 0
  {
  }

  lemma ProposalWins(expiration: nat, s: Round, id: ID, message: Bytes)
    requires |message| <= 50 * KIB && Reachable(LoneSetup(expiration), s) && s.now == 0
    requires CellAt(s, id).flight.Idle? && FixedHash(Proposed(id, message)) !in CellAt(s, id).boxes
    requires 0 in s.limiter && s.limiter[0].pending == 0
    ensures var u := LoneSetup(expiration);
            var (outcome, s') := AddVoteCall(u, s, Propose(id, message, 0));
            && outcome.Accepted? && Reachable(u, s') && s'.now == 0 && WonOnTheSpot(s', id, message)
            && 0 in s'.limiter && s'.limiter[0].pending == 0
            && (forall h :: h in CellAt(s, id).boxes ==>
                  h in CellAt(s', id).boxes && CellAt(s', id).boxes[h] == CellAt(s, id).boxes[h])
            && (forall h :: h in CellAt(s', id).boxes ==>
                  h in CellAt(s, id).boxes || h == FixedHash(Proposed(id, message)))
  {
    hide Reachable, ValidPolicy, BuildBox, CheckSize, BeforeEvent, CastInto, BuildAction, FreshBox;
    var u, call := LoneSetup(expiration), Propose(id, message, 0);
    LoneVoterValid();
    Builds(expiration, id, message);
    VoteWins(expiration, id, message);
    CallReachable(u, s, call);
  }

  /** Two different proposals for one instruction ID, by the same voter in the same round, can both finalize. */
  lemma BothFinalize(expiration: nat, id: ID, m1: Bytes, m2: Bytes) returns (s: Round)
    requires m1 != m2 && |m1| <= 50 * KIB && |m2| <= 50 * KIB
    ensures Reachable(LoneSetup(expiration), s) && WonOnTheSpot(s, id, m1) && WonOnTheSpot(s, id, m2)
  {
    hide AddVoteCall, Reachable;
    var u := LoneSetup(expiration);
    StartReachable(u);
    ProposalWins(expiration, Start(u), id, m1);
    var s1 := AddVoteCall(u, Start(u), Propose(id, m1, 0)).1;
    assert FixedHash(Proposed(id, m2)) != FixedHash(Proposed(id, m1));
    ProposalWins(expiration, s1, id, m2);
    s := AddVoteCall(u, s1, Propose(id, m2, 0)).1;
  }

  /** The key under which the queue stores an action. */
  function QueueKey(a: Action): (k: ActionQueue.Key) {
    ActionQueue.Key(a.id, a.tag)
  }

  function ToQueue(a: Action, encode: Action -> Bytes): (q: ActionQueue.Body) {
    ActionQueue.Body(QueueKey(a), encode(a))
  }

  /** Any two finalized boxes of one ID that are not restores have built Threshold actions with the same queue key. */
  lemma SameQueueKey(u: Setup, s: Round, id: ID, h1: Hash, h2: Hash)
    requires ValidPolicy(u.policy) && Reachable(u, s) && id in s.cells && s.cells[id].flight.Idle?
    requires h1 in s.cells[id].boxes && s.cells[id].boxes[h1].finalized && h1.FixedHash? && !IsRestore(h1.data)
    requires h2 in s.cells[id].boxes && s.cells[id].boxes[h2].finalized && h2.FixedHash? && !IsRestore(h2.data)
    ensures var e1, e2 := s.cells[id].boxes[h1].history.emitted, s.cells[id].boxes[h2].history.emitted;
            && e1 != [] && e2 != [] && e1[0].action.tag == e2[0].action.tag == Threshold
            && QueueKey(e1[0].action) == QueueKey(e2[0].action) == ActionQueue.Key(id, Threshold)
  {
    ThresholdBuilt(u, s, id, h1);
    ThresholdBuilt(u, s, id, h2);
  }

  lemma ThresholdBuilt(u: Setup, s: Round, id: ID, h: Hash)
    requires ValidPolicy(u.policy) && Reachable(u, s) && id in s.cells && s.cells[id].flight.Idle?
    requires h in s.cells[id].boxes && s.cells[id].boxes[h].finalized && h.FixedHash? && !IsRestore(h.data)
    ensures var e := s.cells[id].boxes[h].history.emitted;
            e != [] && e[0].action.tag == Threshold && e[0].action.id == id
  {
    hide BoxInv, ShortestPassing, ResolveThreshold, Reachable, ValidPolicy;
    ActionsExact(u, s, id, h);
    assert s.cells[id].boxes[h].history.emitted != [];
    ThresholdActionIsShortestPrefix(u, s, id, h, 0);
    ReachableBox(u, s, id, h);
    OwnID(u, s, id, h);
  }

  lemma OwnID(u: Setup, s: Round, id: ID, h: Hash)
    requires id in s.cells && h in s.cells[id].boxes && Stored(u, s.now, id, h, s.cells[id].boxes[h])
    ensures h.FixedHash? && h.data.instructionID == id
  {
  }

  /**
   * Both Threshold actions of such a round go to the queue under one key. Enqueued before the first is polled, only
   * the second reaches the node: the first entry is delivered with the second's body, and the second is orphaned.
   */
  lemma SecondWinnerReplacesFirst(expiration: nat, id: ID, m1: Bytes, m2: Bytes, encode: Action -> Bytes)
    returns (s: Round)
    requires m1 != m2 && |m1| <= 50 * KIB && |m2| <= 50 * KIB
    ensures Reachable(LoneSetup(expiration), s) && WonOnTheSpot(s, id, m1) && WonOnTheSpot(s, id, m2)
    ensures var h1, h2 := FixedHash(Proposed(id, m1)), FixedHash(Proposed(id, m2));
            var e1, e2 := CellAt(s, id).boxes[h1].history.emitted, CellAt(s, id).boxes[h2].history.emitted;
            && e1 != [] && e2 != []
            && var a1, a2 := ToQueue(e1[0].action, encode), ToQueue(e2[0].action, encode);
               var polled := ActionQueue.Run(ActionDelivery.PollFirst(a1, a2, ActionQueue.Main));
               var end := ActionQueue.Run(ActionDelivery.PollThenCommit(a1, a2, ActionQueue.Main));
               && polled.Some? && 0 in polled.value.flights && polled.value.flights[0].body == Some(a2)
               && end.Some? && 0 in end.value.delivered && 1 in end.value.orphaned
  {
    hide Reachable;
    s := BothFinalize(expiration, id, m1, m2);
    LoneVoterValid();
    var h1, h2 := FixedHash(Proposed(id, m1)), FixedHash(Proposed(id, m2));
    SameQueueKey(LoneSetup(expiration), s, id, h1, h2);
    var e1, e2 := CellAt(s, id).boxes[h1].history.emitted, CellAt(s, id).boxes[h2].history.emitted;
    ActionDelivery.SharedKeyOrphans(ToQueue(e1[0].action, encode), ToQueue(e2[0].action, encode), ActionQueue.Main);
  }
}
