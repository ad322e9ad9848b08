/**
 * What AddVote answers and changes, in the terms of the instruction, the policy and the box alone: when a vote is
 * accepted, the exact error otherwise, and what every other part of the round keeps.
 */
module RoundVerdicts {
  import opened Foundations
  import opened Instructions
  import opened Metadata
  import opened Limiter
  import opened Ballot
  import opened RoundSteps
  import opened RoundInvariant
  import opened RoundTheorems
  import opened RoundCalls
  import RoundLimiter

  // ---------------------------------------------------------------- one vote on one box

  /** A vote is refused only for a signer in neither group, after the end of the window, or who has already voted. */
  lemma CastVerdict(u: Setup, b: Box, req: Request, t: nat)
    ensures var v := CastInto(u, b, req, t);
            var eligible := req.signer in u.policy.weights || req.signer in b.proposal.cosigners;
            && (v.Ok? <==> eligible && t <= b.endTime && req.signer !in b.votes)
            && (v.Err? ==>
                  v.error == if !eligible then InvalidVoter
                             else if b.endTime < t then VotingEnded else SignatureAlreadyStored)
  {
  }

  /** What an accepted vote writes, and what it leaves alone. */
  lemma CastEffect(u: Setup, b: Box, req: Request, t: nat)
    requires CastInto(u, b, req, t).Ok?
    ensures var (b', receipt, _) := CastInto(u, b, req, t).value;
            && b'.votes == b.votes[req.signer := Vote(|b.votes|, t, req.signature, req.additionalVariableMessage)]
            && b'.id == b.id && b'.hash == b.hash && b'.proposer == b.proposer && b'.proposal == b.proposal
            && b'.startTime == b.startTime && b'.endTime == b.endTime && b'.deleted == b.deleted
            && receipt.instructionHash == b.hash && receipt.sequence == |b.votes|
            && receipt.signature == req.signature && receipt.message == req.additionalVariableMessage
            && receipt.timestamp == t / 1_000_000_000 && receipt.voteHash == b'.voteHash
  {
  }

  // ---------------------------------------------------------------- a vote on a stored box

  /** A round between calls on this ID, whose call passes the checks made before any lock is taken. */
  ghost predicate Ready(u: Setup, s: Round, call: Call) {
    && ValidPolicy(u.policy) && Reachable(u, s) && Timely(s, call)
    && CellAt(s, call.req.data.instructionID).flight == Idle
    && CheckSize(call.req, u.restoreVariable).None? && call.consistent
  }

  /** The roster of a stored undeleted box is the signed one. */
  lemma StoredRoster(u: Setup, s: Round, id: ID, h: Hash)
    requires ValidPolicy(u.policy) && Reachable(u, s) && h in CellAt(s, id).boxes && !CellAt(s, id).boxes[h].deleted
    ensures h.FixedHash? && CellAt(s, id).boxes[h].proposal.cosigners == Elems(h.data.cosigners)
  {
    hide Tallied, Receipted, Timed, Arranges, EmittedExactly, ResolveThreshold, Reachable;
    ReachableBox(u, s, id, h);
  }

  /**
   * A vote on a stored box is accepted exactly when the box is not deleted, the signer is a policy voter or a declared
   * cosigner, the window is open, and the signer has not voted yet.
   */
  lemma StoredVoteVerdict(u: Setup, s: Round, call: Call)
    requires Ready(u, s, call) && FixedHash(call.req.data) in CellAt(s, call.req.data.instructionID).boxes
    ensures var d, signer, outcome := call.req.data, call.req.signer, AddVoteCall(u, s, call).0;
            var b := CellAt(s, d.instructionID).boxes[FixedHash(d)];
            var eligible := signer in u.policy.weights || signer in d.cosigners;
            && (outcome.Accepted? <==> !b.deleted && eligible && call.castAt <= b.endTime && signer !in b.votes)
            && (outcome.Rejected? ==>
                  outcome.error == NotCast(if b.deleted then VotingEnded
                                           else if !eligible then InvalidVoter
                                           else if b.endTime < call.castAt then VotingEnded
                                           else SignatureAlreadyStored))
  {
    hide Reachable, ValidPolicy, CheckSize, CastInto;
    var d := call.req.data;
    var b := CellAt(s, d.instructionID).boxes[FixedHash(d)];
    if !b.deleted { StoredRoster(u, s, d.instructionID, FixedHash(d)); }
    CastVerdict(u, b, call.req, call.castAt);
  }

  // ---------------------------------------------------------------- a vote that opens a box

  /** The event's time has come, up to the slack of 15 seconds; the timestamp is read as an int64. */
  predicate EventDue(d: DataFixed, now: nat) {
    (if d.timestamp < 0x8000_0000_0000_0000 then d.timestamp else d.timestamp - 0x1_0000_0000_0000_0000) * 1_000_000_000
      <= now + 15_000_000_000
  }

  /** A threshold that the providers must meet: the policy's own, or an FDC one within its bounds. */
  predicate ThresholdFine(u: Setup, d: DataFixed) {
    if d.opType == FDC2Op && d.opCommand == Prove && u.decode(d.originalMessage) != Some(0)
    then
      && u.decode(d.originalMessage).Some?
      && var bips := u.decode(d.originalMessage).value;
         4000 <= bips < 10000 && (bips < 5000 ==> 2 * d.cosignersThreshold > |d.cosigners|)
    else u.policy.threshold != 0
  }

  /** A roster that can meet its threshold, and is the wallet's or backup's own where the command has one. */
  ghost predicate RosterFine(d: DataFixed, resolved: Option<Roster>) {
    && Distinct(d.cosigners) && d.cosignersThreshold <= |d.cosigners|
    && (d.opCommand in {Pay, Reissue, VRF, KeyDataProviderRestore} ==>
          resolved == Some(Roster(Elems(d.cosigners), d.cosignersThreshold)))
  }

  lemma EventVerdict(d: DataFixed, now: nat)
    ensures BeforeEvent(d, now) <==> !EventDue(d, now)
  {
  }

  lemma AdmitVerdict(c: Counters, cap: nat, a: Address)
    ensures Admit(c, cap, a).Ok? <==> a in c && c[a].pending < cap
    ensures Admit(c, cap, a).Err? ==> Admit(c, cap, a).error == if a in c then LimitReached else CannotInitialize
    ensures Admit(c, cap, a).Ok? ==>
              var c' := Admit(c, cap, a).value;
              && c'.Keys == c.Keys && c'[a].pending == c[a].pending + 1
              && (forall x :: x in c && x != a ==> c'[x] == c[x])
  {
  }

  lemma ReleaseVerdict(c: Counters, a: Address)
    ensures var c' := Release(c, a);
            && c'.Keys == c.Keys && (forall x :: x in c && x != a ==> c'[x] == c[x])
            && (a in c ==> c'[a].pending == if c[a].pending > 0 then c[a].pending - 1 else 0)
  {
  }

  /** A box is built exactly when its threshold and its roster are fine; it opens at start for the set expiration. */
  lemma BuildVerdict(u: Setup, req: Request, resolved: Option<Roster>, start: nat)
    requires |req.data.cosigners| <= 1024
    ensures var r := BuildBox(u, req.data, req.signer, resolved, start);
            && (r.Ok? <==> ThresholdFine(u, req.data) && RosterFine(req.data, resolved))
            && (r.Err? ==>
                  var threshold := ResolveThreshold(u.policy, req.data, u.decode);
                  var roster := Cosigners(req.data, resolved);
                  r.error == if threshold.Err? then threshold.error
                             else if roster.Err? then roster.error else InvalidCosignerThreshold)
            && (r.Ok? ==>
                  && r.value.votes == map[] && r.value.proposer == req.signer && !r.value.deleted && !r.value.finalized
                  && r.value.id == req.data.instructionID && r.value.hash == FixedHash(req.data)
                  && r.value.proposal.cosigners == Elems(req.data.cosigners)
                  && r.value.startTime == start && r.value.endTime == start + u.expiration)
  {
    ThresholdIff(u.policy, req.data, u.decode);
    CosignersIff(req.data, resolved);
    DistinctCardinality(req.data.cosigners);
    var d := req.data;
    if d.cosignersThreshold <= |d.cosigners| { assert 2 * d.cosignersThreshold % U64 == 2 * d.cosignersThreshold; }
    hide ResolveThreshold, Cosigners, Distinct;
  }

  /** Only registered providers are in the limiter. */
  lemma LimiterKeys(u: Setup, s: Round)
    requires ValidPolicy(u.policy) && Reachable(u, s)
    ensures s.limiter.Keys == u.policy.weights.Keys
  {
    ReachableInv(u, s);
  }

  /**
   * A vote that opens a box is accepted exactly when the event is due, the signer is a registered provider below its
   * cap, threshold and roster are fine, and the window has not closed before the vote is cast.
   */
  lemma OpenVoteVerdict(u: Setup, s: Round, call: Call)
    requires Ready(u, s, call) && FixedHash(call.req.data) !in CellAt(s, call.req.data.instructionID).boxes
    ensures var d, signer, outcome := call.req.data, call.req.signer, AddVoteCall(u, s, call).0;
            var registered := signer in u.policy.weights;
            var admitted := registered && signer in s.limiter && s.limiter[signer].pending < u.maxPending;
            var sound := ThresholdFine(u, d) && RosterFine(d, call.resolved);
            && (outcome.Accepted? <==>
                  EventDue(d, call.openedAt) && admitted && sound && call.castAt <= call.builtAt + u.expiration)
            && (outcome.Rejected? ==>
                  if !EventDue(d, call.openedAt) then outcome.error == VotingBeforeEvent
                  else if !registered then outcome.error == NotAdmitted(CannotInitialize)
                  else if !admitted then outcome.error == NotAdmitted(LimitReached)
                  else if !sound then outcome.error.BadMetadata?
                  else outcome.error == NotCast(VotingEnded))
  {
    var d := call.req.data;
    LimiterKeys(u, s);
    EventVerdict(d, call.openedAt);
    AdmitVerdict(s.limiter, u.maxPending, call.req.signer);
    BuildVerdict(u, call.req, call.resolved, call.builtAt);
    hide Reachable, ValidPolicy, CheckSize, BuildBox, CastInto, BeforeEvent, EventDue, Admit, ThresholdFine, RosterFine;
    var b := BuildBox(u, d, call.req.signer, call.resolved, call.builtAt);
    if b.Ok? { CastVerdict(u, b.value, call.req, call.castAt); }
  }

  // ---------------------------------------------------------------- what a call changes

  /** The votes of a box, none if it is not stored. */
  function VotesAt(s: Round, id: ID, h: Hash): (r: map<Address, Vote>) {
    if h in CellAt(s, id).boxes then CellAt(s, id).boxes[h].votes else map[]
  }

  predicate FinalAt(s: Round, id: ID, h: Hash) {
    h in CellAt(s, id).boxes && CellAt(s, id).boxes[h].finalized
  }

  /** The box the vote is cast on: the stored one, or the one just built. */
  ghost function TargetBox(u: Setup, s: Round, call: Call): (r: Option<Box>) {
    var d := call.req.data;
    var c, built := CellAt(s, d.instructionID), BuildBox(u, d, call.req.signer, call.resolved, call.builtAt);
    if FixedHash(d) in c.boxes then Some(c.boxes[FixedHash(d)]) else if built.Ok? then Some(built.value) else None
  }

  /** A rejected call stores nothing; the slot it reserved, if any, is given back unless the vote itself was refused. */
  lemma RejectedCase(u: Setup, s: Round, call: Call)
    requires Ready(u, s, call) && AddVoteCall(u, s, call).0.Rejected?
    ensures var error, s' := AddVoteCall(u, s, call).0.error, AddVoteCall(u, s, call).1;
            var known := FixedHash(call.req.data) in CellAt(s, call.req.data.instructionID).boxes;
            var admitted := Admit(s.limiter, u.maxPending, call.req.signer);
            && (forall j :: CellAt(s', j) == CellAt(s, j))
            && (!known && error.NotCast? ==> admitted.Ok? && s'.limiter == admitted.value)
            && (known || !error.NotCast? ==>
                  || s'.limiter == s.limiter
                  || (admitted.Ok? && s'.limiter == Release(admitted.value, call.req.signer)))
  {
    var d := call.req.data;
    hide Reachable, ValidPolicy, CheckSize, BuildBox, CastInto, BeforeEvent, Admit, Release, BuildAction, Conclude;
    hide VoteInStored, OpenAndVote;
    if FixedHash(d) in CellAt(s, d.instructionID).boxes {
      StoredCases(u, s, call, CellAt(s, d.instructionID).boxes[FixedHash(d)]);
    } else {
      OpenCases(u, s, call);
    }
  }

  /** The limiter as an accepted vote finds it: with the opener's slot taken if the vote opens the box. */
  ghost function SlotTaken(u: Setup, s: Round, call: Call): (r: Counters) {
    var admitted := Admit(s.limiter, u.maxPending, call.req.signer);
    if FixedHash(call.req.data) in CellAt(s, call.req.data.instructionID).boxes || admitted.Err? then s.limiter
    else admitted.value
  }

  lemma AcceptedConcludes(u: Setup, s: Round, call: Call)
    requires Ready(u, s, call) && AddVoteCall(u, s, call).0.Accepted?
    ensures var target := TargetBox(u, s, call);
            && target.Some? && !target.value.deleted && CastInto(u, target.value, call.req, call.castAt).Ok?
            && (FixedHash(call.req.data) !in CellAt(s, call.req.data.instructionID).boxes ==>
                  Admit(s.limiter, u.maxPending, call.req.signer).Ok?)
    ensures var d, v := call.req.data, CastInto(u, TargetBox(u, s, call).value, call.req, call.castAt).value;
            AddVoteCall(u, s, call) ==
              Conclude(s.(limiter := SlotTaken(u, s, call)), d.instructionID, CellAt(s, d.instructionID), FixedHash(d),
                       d, v.0, v.1, v.2, call.castAt)
  {
    var d := call.req.data;
    var id, h := d.instructionID, FixedHash(d);
    FreshUndeleted(u, d, call.req.signer, call.resolved, call.builtAt);
    hide Reachable, ValidPolicy, CheckSize, BuildBox, CastInto, BeforeEvent, Admit, Release, BuildAction, Conclude;
    hide VoteInStored, OpenAndVote;
    if h in CellAt(s, id).boxes {
      StoredCases(u, s, call, CellAt(s, id).boxes[h]);
      assert s.(limiter := s.limiter) == s;
    } else {
      OpenCases(u, s, call);
    }
  }

  /** An accepted call stores the box the vote was cast on, with the vote, and nothing else. */
  lemma AcceptedCase(u: Setup, s: Round, call: Call)
    requires Ready(u, s, call) && AddVoteCall(u, s, call).0.Accepted?
    ensures var target := TargetBox(u, s, call);
            target.Some? && !target.value.deleted && CastInto(u, target.value, call.req, call.castAt).Ok?
    ensures var d, s' := call.req.data, AddVoteCall(u, s, call).1;
            var id, h := d.instructionID, FixedHash(d);
            var c, c' := CellAt(s, id), CellAt(s', id);
            var v := CastInto(u, TargetBox(u, s, call).value, call.req, call.castAt).value;
            && AddVoteCall(u, s, call).0.receipt == v.1
            && (forall j :: j != id ==> CellAt(s', j) == CellAt(s, j))
            && c'.boxes.Keys == c.boxes.Keys + {h} && c'.timers == c.timers + {h}
            && c'.boxes[h].(history := v.0.history) == v.0
            && (forall g :: g in c.boxes && g != h ==> c'.boxes[g] == c.boxes[g])
            && (h !in c.boxes ==> Admit(s.limiter, u.maxPending, call.req.signer).Ok?)
            && s'.limiter == (if v.2 then Release(SlotTaken(u, s, call), v.0.proposer) else SlotTaken(u, s, call))
  {
    hide Ready, AddVoteCall, TargetBox, SlotTaken, CastInto, Conclude;
    AcceptedConcludes(u, s, call);
    var d, v := call.req.data, CastInto(u, TargetBox(u, s, call).value, call.req, call.castAt).value;
    ConcludeShape(s.(limiter := SlotTaken(u, s, call)), d.instructionID, CellAt(s, d.instructionID), FixedHash(d), d,
                  v.0, v.1, v.2, call.castAt);
  }

  lemma FreshUndeleted(u: Setup, d: DataFixed, signer: Address, resolved: Option<Roster>, start: nat)
    ensures var b := BuildBox(u, d, signer, resolved, start); b.Ok? ==> !b.value.deleted
  {
  }

  /** No call touches another ID, or another hash of its ID; a rejected one stores nothing at all. */
  lemma VoteFrame(u: Setup, s: Round, call: Call, id: ID, h: Hash)
    requires Ready(u, s, call)
    requires id != call.req.data.instructionID || h != FixedHash(call.req.data) || AddVoteCall(u, s, call).0.Rejected?
    ensures var s' := AddVoteCall(u, s, call).1;
            && (h in CellAt(s', id).boxes <==> h in CellAt(s, id).boxes)
            && (h in CellAt(s, id).boxes ==> CellAt(s', id).boxes[h] == CellAt(s, id).boxes[h])
            && (h in CellAt(s', id).timers <==> h in CellAt(s, id).timers)
            && (id != call.req.data.instructionID || AddVoteCall(u, s, call).0.Rejected? ==>
                  CellAt(s', id) == CellAt(s, id))
  {
    hide Ready, AddVoteCall, TargetBox, CastInto, Admit, Release;
    if AddVoteCall(u, s, call).0.Accepted? { AcceptedCase(u, s, call); } else { RejectedCase(u, s, call); }
  }

  /** What an accepted call stores: the vote, numbered by arrival, in the box of its hash, whose end is scheduled. */
  lemma VoteEffect(u: Setup, s: Round, call: Call)
    requires Ready(u, s, call) && AddVoteCall(u, s, call).0.Accepted?
    ensures var d, signer, s' := call.req.data, call.req.signer, AddVoteCall(u, s, call).1;
            var id, h, before := d.instructionID, FixedHash(d), VotesAt(s, d.instructionID, FixedHash(d));
            var vote := Vote(|before|, call.castAt, call.req.signature, call.req.additionalVariableMessage);
            && h in CellAt(s', id).boxes && h in CellAt(s', id).timers
            && var b := CellAt(s', id).boxes[h];
               && b.votes == before[signer := vote] && !b.deleted
               && (if h in CellAt(s, id).boxes then
                     var was := CellAt(s, id).boxes[h];
                     b.proposer == was.proposer && b.startTime == was.startTime && b.endTime == was.endTime
                   else
                     b.proposer == signer && b.startTime == call.builtAt && b.endTime == call.builtAt + u.expiration)
    ensures var d, receipt := call.req.data, AddVoteCall(u, s, call).0.receipt;
            && receipt.instructionHash == FixedHash(d) && receipt.signature == call.req.signature
            && receipt.message == call.req.additionalVariableMessage && receipt.timestamp == call.castAt / 1_000_000_000
            && receipt.sequence == |VotesAt(s, d.instructionID, FixedHash(d))|
  {
    TargetShape(u, s, call);
    hide Ready, AddVoteCall, TargetBox, CastInto, Admit, Release;
    AcceptedCase(u, s, call);
    CastEffect(u, TargetBox(u, s, call).value, call.req, call.castAt);
  }

  /** A call hands back an action exactly when its vote finalizes the box of a non-restore, and records that action. */
  lemma VoteAction(u: Setup, s: Round, call: Call)
    requires Ready(u, s, call) && AddVoteCall(u, s, call).0.Accepted?
    ensures var d, (outcome, s') := call.req.data, AddVoteCall(u, s, call);
            var id, h := d.instructionID, FixedHash(d);
            var restore := d.opType == WalletOp && d.opCommand == KeyDataProviderRestore;
            && (outcome.action.Some? <==> !FinalAt(s, id, h) && FinalAt(s', id, h) && !restore)
            && (outcome.action.Some? ==>
                  && h in CellAt(s', id).boxes
                  && var history := CellAt(s', id).boxes[h].history;
                     history.emitted == [Emission(outcome.action.value, history.order)])
  {
    assert ValidPolicy(u.policy);
    hide Ready, AddVoteCall, TargetBox, SlotTaken, CastInto, BuildAction, BoxInv, Conclude, Release, ValidPolicy;
    TargetShape(u, s, call);
    AcceptedConcludes(u, s, call);
    AcceptedCase(u, s, call);
    TargetInv(u, s, call);
    var d, target := call.req.data, TargetBox(u, s, call).value;
    var v := CastInto(u, target, call.req, call.castAt).value;
    CastFinal(u, target, call.req, call.castAt);
    CastReady(u, target, call.req, call.castAt, call.castAt);
    ConcludeAction(s.(limiter := SlotTaken(u, s, call)), d.instructionID, CellAt(s, d.instructionID), FixedHash(d), d,
                   v.0, v.1, v.2, call.castAt);
  }

  lemma TargetInv(u: Setup, s: Round, call: Call)
    requires Ready(u, s, call)
    requires FixedHash(call.req.data) in CellAt(s, call.req.data.instructionID).boxes || call.req.signer in s.limiter
    ensures var target := TargetBox(u, s, call);
            target.Some? && !target.value.deleted ==>
              && BoxInv(u.policy, target.value, call.castAt)
              && (!target.value.finalized ==> target.value.history.emitted == [])
  {
    var d := call.req.data;
    var id, h := d.instructionID, FixedHash(d);
    var target := TargetBox(u, s, call);
    if h in CellAt(s, id).boxes {
      hide BoxInv, ResolveThreshold, Reachable, ValidPolicy, BuildBox;
      ReachableBox(u, s, id, h);
      LaterInv(u.policy, target.value, s.now, call.castAt);
    } else if target.Some? {
      LimiterKeys(u, s);
      hide ResolveThreshold, Reachable, ValidPolicy, BoxInv, CheckSize;
      BuildBoxInv(u, call.req, call.resolved, call.builtAt);
      LaterInv(u.policy, target.value, call.builtAt, call.castAt);
    }
  }

  lemma TargetShape(u: Setup, s: Round, call: Call)
    requires Ready(u, s, call)
    ensures var d, target := call.req.data, TargetBox(u, s, call);
            var id, h := d.instructionID, FixedHash(d);
            target.Some? ==>
              && target.value.hash == h && target.value.votes == VotesAt(s, id, h)
              && (if h in CellAt(s, id).boxes then target.value == CellAt(s, id).boxes[h]
                  else && target.value.proposer == call.req.signer && target.value.startTime == call.builtAt
                       && target.value.endTime == call.builtAt + u.expiration && !target.value.finalized)
  {
    var d := call.req.data;
    var id, h := d.instructionID, FixedHash(d);
    if h in CellAt(s, id).boxes { HashOf(u, s, id, h); }
    BuildVerdict(u, call.req, call.resolved, call.builtAt);
    hide Reachable, ValidPolicy, CheckSize, BuildBox, ThresholdFine, RosterFine;
  }

  lemma HashOf(u: Setup, s: Round, id: ID, h: Hash)
    requires ValidPolicy(u.policy) && Reachable(u, s) && h in CellAt(s, id).boxes
    ensures CellAt(s, id).boxes[h].hash == h
  {
    hide BoxInv, EmittedExactly, ResolveThreshold, Reachable;
    ReachableBox(u, s, id, h);
  }

  /**
   * Slots: a call that leaves its fresh box unfinalized takes one slot of the opener; one that finalizes a stored box
   * gives one back to its proposer; a first vote refused for its time keeps the slot. No other count changes.
   */
  lemma VoteSlots(u: Setup, s: Round, call: Call, p: Address)
    requires Ready(u, s, call) && p in s.limiter
    ensures var d, (outcome, s') := call.req.data, AddVoteCall(u, s, call);
            var id, h := d.instructionID, FixedHash(d);
            var known, finalizes := h in CellAt(s, id).boxes, !FinalAt(s, id, h) && FinalAt(s', id, h);
            && p in s'.limiter
            && s'.limiter[p].pending - s.limiter[p].pending ==
                 if p == call.req.signer && !known && (if outcome.Rejected? then outcome.error.NotCast?
                                                       else !finalizes) then 1
                 else if known && finalizes && p == CellAt(s, id).boxes[h].proposer then -1
                 else 0
  {
    var d := call.req.data;
    var id, h := d.instructionID, FixedHash(d);
    if h in CellAt(s, id).boxes && !CellAt(s, id).boxes[h].finalized { SlotInUse(u, s, id, h); }
    hide Ready, AddVoteCall, TargetBox, CastInto, Admit, Release;
    TargetShape(u, s, call);
    AdmitVerdict(s.limiter, u.maxPending, call.req.signer);
    if AddVoteCall(u, s, call).0.Accepted? {
      AcceptedCase(u, s, call);
      var target := TargetBox(u, s, call).value;
      CastFinal(u, target, call.req, call.castAt);
      ReleaseVerdict(SlotTaken(u, s, call), target.proposer);
    } else {
      RejectedCase(u, s, call);
      var admitted := Admit(s.limiter, u.maxPending, call.req.signer);
      if admitted.Ok? { ReleaseVerdict(admitted.value, call.req.signer); }
    }
  }

  lemma CastFinal(u: Setup, b: Box, req: Request, t: nat)
    requires CastInto(u, b, req, t).Ok?
    ensures var v := CastInto(u, b, req, t).value;
            && v.2 == (v.0.finalized && !b.finalized) && (b.finalized ==> v.0.finalized)
            && v.0.proposer == b.proposer && v.0.history.emitted == b.history.emitted
  {
  }

  lemma SlotInUse(u: Setup, s: Round, id: ID, h: Hash)
    requires ValidPolicy(u.policy) && Reachable(u, s) && h in CellAt(s, id).boxes && !CellAt(s, id).boxes[h].finalized
    ensures var p := CellAt(s, id).boxes[h].proposer; p in s.limiter && s.limiter[p].pending > 0
  {
    hide Tallied, Receipted, Timed, Arranges, EmittedExactly, ResolveThreshold, Reachable;
    var p := CellAt(s, id).boxes[h].proposer;
    ReachableBox(u, s, id, h);
    LimiterKeys(u, s);
    RoundLimiter.PendingCounts(u, s, p);
    assert (id, h) in RoundLimiter.OpenBoxes(s, p);
  }

  // ---------------------------------------------------------------- single steps, whatever runs beside them

  /**
   * A voting in the making gets its box exactly when its threshold and its roster are fine; otherwise the opener's slot
   * is given back and nothing is left behind.
   */
  lemma BuildStepVerdict(u: Setup, s: Round, id: ID, resolved: Option<Roster>, t: nat)
    requires ValidPolicy(u.policy) && Reachable(u, s) && CellAt(s, id).flight.Opened? && s.now <= t
    ensures var c, req, next := CellAt(s, id), CellAt(s, id).flight.req, Step(u, s, Build(id, resolved, t));
            && next.Some? && req.signer in s.limiter && req.signer in next.value.limiter
            && CellAt(next.value, id).boxes == c.boxes
            && (if ThresholdFine(u, req.data) && RosterFine(req.data, resolved)
                then CellAt(next.value, id).flight.Built? && next.value.limiter == s.limiter
                else && CellAt(next.value, id).flight == Idle
                     && next.value.limiter[req.signer].pending == s.limiter[req.signer].pending - 1)
  {
    var req := CellAt(s, id).flight.req;
    RoundLimiter.ReleaseNeverAtZero(u, s, Build(id, resolved, t));
    OpeningSize(u, s, id);
    BuildVerdict(u, req, resolved, t);
    hide Reachable, ValidPolicy, BuildBox, ThresholdFine, RosterFine;
  }

  lemma OpeningSize(u: Setup, s: Round, id: ID)
    requires ValidPolicy(u.policy) && Reachable(u, s) && CellAt(s, id).flight.Opened?
    ensures |CellAt(s, id).flight.req.data.cosigners| <= 1024
  {
    ReachableInv(u, s);
    hide Stored, EmittedExactly, Winner, Timers, Reachable;
    assert CellInv(u, s.now, id, CellAt(s, id));
  }

  /** A voting can end exactly once, from its end time on, while no vote on its ID is under way; its data is dropped. */
  lemma EndVerdict(u: Setup, s: Round, id: ID, h: Hash, t: nat)
    requires ValidPolicy(u.policy) && Reachable(u, s)
    ensures var c, next := CellAt(s, id), Step(u, s, EndVoting(id, h, t));
            && (next.Some? <==>
                  && s.now <= t && c.flight == Idle
                  && h in c.boxes && !c.boxes[h].deleted && c.boxes[h].endTime <= t)
            && (next.Some? ==>
                  && next.value.limiter == s.limiter && h in CellAt(next.value, id).boxes
                  && (forall g :: g in c.boxes && g != h ==>
                        g in CellAt(next.value, id).boxes && CellAt(next.value, id).boxes[g] == c.boxes[g])
                  && var b := CellAt(next.value, id).boxes[h];
                     && b.deleted && b.votes == map[]
                     && b.proposal.instruction.None? && b.proposal.cosigners == {})
  {
    if h in CellAt(s, id).boxes {
      ReachableBox(u, s, id, h);
      hide Stored, EmittedExactly, Winner, Reachable, BuildAction;
      EndFrame(CellAt(s, id), h);
    } else if h in CellAt(s, id).timers {
      ReachableInv(u, s);
      CellFacts(u, s, id);
    }
  }

  lemma EndFrame(c: Cell, h: Hash)
    requires h in c.boxes
    ensures var c' := EndCell(c, h);
            && h in c'.boxes && (forall g :: g in c.boxes && g != h ==> g in c'.boxes && c'.boxes[g] == c.boxes[g])
  {
    EmitFrame(c, h, Threshold);
    EmitFrame(c, h, End);
    EmitFrame(Emit(c, h, Threshold), h, End);
    hide Emit;
  }
}
