/** What holds of a round in every reachable state and between any two states of a run. */
module RoundTheorems {
  import opened Foundations
  import opened Quorum
  import opened Instructions
  import opened Metadata
  import opened Ballot
  import opened RoundSteps
  import opened RoundInvariant

  // ---------------------------------------------------------------- runs only ever add

  /** Votes, receipts and actions are appended, flags only rise, and a deleted box is never touched again. */
  ghost predicate BoxGrows(b: Box, b': Box) {
    && b'.id == b.id && b'.hash == b.hash && b'.proposer == b.proposer
    && b'.startTime == b.startTime && b'.endTime == b.endTime
    && b'.proposal.threshold == b.proposal.threshold && b'.proposal.cosignerThreshold == b.proposal.cosignerThreshold
    && b.history.order <= b'.history.order
    && b.history.receipts <= b'.history.receipts
    && b.history.emitted <= b'.history.emitted
    && (b.finalized ==> b'.finalized)
    && (b.deleted ==> b' == b)
  }

  ghost predicate CellGrows(c: Cell, c': Cell) {
    && (c.finalizedHash != ZeroHash ==> c'.finalizedHash == c.finalizedHash)
    && (forall h :: h in c.boxes ==> h in c'.boxes && BoxGrows(c.boxes[h], c'.boxes[h]))
  }

  ghost predicate Grows(s: Round, s': Round) {
    forall id :: id in s.cells ==> id in s'.cells && CellGrows(s.cells[id], s'.cells[id])
  }

  lemma CellGrowsTransitive(a: Cell, b: Cell, c: Cell)
    requires CellGrows(a, b) && CellGrows(b, c)
    ensures CellGrows(a, c)
  {
    forall h | h in a.boxes ensures h in c.boxes && BoxGrows(a.boxes[h], c.boxes[h]) {
      assert BoxGrows(a.boxes[h], b.boxes[h]) && BoxGrows(b.boxes[h], c.boxes[h]);
    }
  }

  lemma VoteGrows(u: Setup, b: Box, req: Request, t: nat)
    requires !b.deleted && CastInto(u, b, req, t).Ok?
    ensures BoxGrows(b, CastInto(u, b, req, t).value.0)
  {
  }

  lemma EmitGrows(c: Cell, h: Hash, tag: Tag)
    requires h in c.boxes && !c.boxes[h].deleted
    ensures CellGrows(c, Emit(c, h, tag)) && !Emit(c, h, tag).boxes[h].deleted && h in Emit(c, h, tag).boxes
  {
  }

  lemma SettleGrows(c: Cell, h: Hash)
    requires h in c.boxes && !c.boxes[h].deleted && h.FixedHash?
    ensures CellGrows(c, SettleCell(c, h, h.data))
  {
    hide BoxGrows, BuildAction;
    var landed := c.(flight := Idle, finalizedHash := if c.finalizedHash == ZeroHash then h else c.finalizedHash);
    CellGrowsReflexive(c);
    EmitGrows(landed, h, Threshold);
    CellGrowsTransitive(c, landed, Emit(landed, h, Threshold));
  }

  lemma DeleteGrows(c: Cell, h: Hash)
    requires h in c.boxes && !c.boxes[h].deleted
    ensures CellGrows(c, c.(boxes := c.boxes[h := Delete(c.boxes[h])], timers := c.timers - {h}))
  {
  }

  lemma EndGrows(c: Cell, h: Hash)
    requires h in c.boxes && !c.boxes[h].deleted && c.boxes[h].proposal.instruction.Some?
    ensures CellGrows(c, EndCell(c, h))
  {
    hide BoxGrows, Emit, Delete;
    CellGrowsReflexive(c);
    EmitGrows(c, h, Threshold);
    EmitGrows(c, h, End);
    var both := Emit(Emit(c, h, Threshold), h, End);
    EmitGrows(Emit(c, h, Threshold), h, End);
    CellGrowsTransitive(c, Emit(c, h, Threshold), both);
    var built :=
      if !c.boxes[h].finalized then c
      else if IsRestore(c.boxes[h].proposal.instruction.value) then both
      else if h != c.finalizedHash then c
      else Emit(c, h, End);
    DeleteGrows(built, h);
    CellGrowsTransitive(c, built, EndCell(c, h));
  }

  /** What the invariant says of the box an event is about. */
  lemma CellFacts(u: Setup, s: Round, id: ID)
    requires CellsInv(u, s)
    ensures var c := CellAt(s, id);
            && (c.flight.Finalizing? ==> var h := c.flight.hash; h in c.boxes && h.FixedHash? && !c.boxes[h].deleted)
            && (c.flight.Built? || c.flight.Opened? ==> FixedHash(c.flight.req.data) !in c.boxes)
            && (forall h :: h in c.timers ==>
                  h in c.boxes && !c.boxes[h].deleted && c.boxes[h].proposal.instruction.Some?)
  {
    hide Tallied, Receipted, Timed, Arranges, EmittedExactly, ResolveThreshold, CheckSize, Winner;
    if id in s.cells { assert CellInv(u, s.now, id, s.cells[id]); }
    var c := CellAt(s, id);
    forall h | h in c.timers ensures h in c.boxes && !c.boxes[h].deleted && c.boxes[h].proposal.instruction.Some? {
      assert Stored(u, s.now, id, h, c.boxes[h]);
    }
  }

  lemma StepGrows(u: Setup, s: Round, e: Event)
    requires CellsInv(u, s) && Step(u, s, e).Some?
    ensures Grows(s, Step(u, s, e).value)
  {
    hide CellInv, BoxGrows, CheckSize, BuildBox, CastInto, SettleCell, EndCell;
    var s' := Step(u, s, e).value;
    var id := if e.Increment? || e.LaterVote? then e.req.data.instructionID else e.id;
    var c := CellAt(s, id);
    CellFacts(u, s, id);
    CellGrowsReflexive(c);
    match e {
      case LaterVote(req, t) =>
        var b := c.boxes[FixedHash(req.data)];
        if !b.deleted && CastInto(u, b, req, t).Ok? { VoteGrows(u, b, req, t); }
      case Settle(_) => SettleGrows(c, c.flight.hash);
      case EndVoting(_, h, t) => EndGrows(c, h);
      case _ =>
    }
    assert id in s'.cells ==> CellGrows(c, s'.cells[id]);
    forall i | i in s.cells ensures i in s'.cells && CellGrows(s.cells[i], s'.cells[i]) {
      if i != id { CellGrowsReflexive(s.cells[i]); }
    }
  }

  lemma {:induction false} RunGrows(u: Setup, s: Round, events: seq<Event>)
    requires ValidPolicy(u.policy) && CellsInv(u, s) && Run(u, s, events).Some?
    ensures Grows(s, Run(u, s, events).value)
    decreases |events|
  {
    hide CellInv, CellGrows, Step;
    if events == [] {
      forall id | id in s.cells ensures CellGrows(s.cells[id], s.cells[id]) { CellGrowsReflexive(s.cells[id]); }
    } else {
      var s1, s2 := Step(u, s, events[0]).value, Run(u, s, events).value;
      StepInv(u, s, events[0]);
      StepGrows(u, s, events[0]);
      RunGrows(u, s1, events[1..]);
      forall id | id in s.cells ensures id in s2.cells && CellGrows(s.cells[id], s2.cells[id]) {
        CellGrowsTransitive(s.cells[id], s1.cells[id], s2.cells[id]);
      }
    }
  }

  lemma CellGrowsReflexive(c: Cell)
    ensures CellGrows(c, c)
  {
  }

  lemma ReachableBox(u: Setup, s: Round, id: ID, h: Hash)
    requires ValidPolicy(u.policy) && Reachable(u, s) && id in s.cells && h in s.cells[id].boxes
    ensures Stored(u, s.now, id, h, s.cells[id].boxes[h])
    ensures EmittedExactly(u, s.cells[id], h)
    ensures Winner(s.cells[id]) && Timers(s.cells[id]) && s.cells[id].lost == 0
    ensures s.cells[id].flight == Finalizing(h) ==> !s.cells[id].boxes[h].deleted
  {
    hide BoxInv, FirstPassing, ActionOf, ResolveThreshold, Reachable;
    ReachableInv(u, s);
    assert CellInv(u, s.now, id, s.cells[id]);
  }

  // ---------------------------------------------------------------- exact weights

  /**
   * What the provider weight of a voting, in 10000ths, must exceed: the declared share of the total weight for an FDC
   * proof that declares one, else the policy's own threshold.
   */
  function NeededShare(u: Setup, d: DataFixed): (r: nat) {
    if d.opType == FDC2Op && d.opCommand == Prove && u.decode(d.originalMessage).Some?
       && u.decode(d.originalMessage).value != 0
    then u.policy.totalWeight * u.decode(d.originalMessage).value
    else u.policy.threshold * 10000
  }

  lemma NeededShareExceeded(u: Setup, d: DataFixed)
    ensures var t := ResolveThreshold(u.policy, d, u.decode);
            t.Ok? ==> forall w: nat :: w > t.value <==> w * 10000 > NeededShare(u, d)
  {
    ThresholdIff(u.policy, d, u.decode);
    hide ResolveThreshold;
  }

  /**
   * In every reachable state an open box's uint16 weight is the combined policy weight of the set of its
   * voters, its cosigner weight the number of its voters on the roster, and it is finalized exactly when
   * both gates pass; the roster and threshold are the signed ones.
   */
  lemma OpenBoxExact(u: Setup, s: Round, id: ID, h: Hash)
    requires ValidPolicy(u.policy) && Reachable(u, s)
    requires id in s.cells && h in s.cells[id].boxes && !s.cells[id].boxes[h].deleted
    ensures h.FixedHash? && h.data.instructionID == id
    ensures var b := s.cells[id].boxes[h];
            && b.weight == Total(u.policy.weights, b.votes.Keys)
            && b.cosignerWeight == |b.votes.Keys * Elems(h.data.cosigners)|
            && b.proposal.cosignerThreshold == h.data.cosignersThreshold
            && b.endTime == b.startTime + u.expiration
            && ResolveThreshold(u.policy, h.data, u.decode) == Ok(b.proposal.threshold)
            && (b.finalized <==> b.weight > b.proposal.threshold && b.cosignerWeight >= b.proposal.cosignerThreshold)
  {
    ReachableBox(u, s, id, h);
    var b := s.cells[id].boxes[h];
    var signers := Signers(b.history.order);
    TallyIsTotal(u.policy.weights, signers);
    CountIsIntersection(Elems(h.data.cosigners), signers);
    assert b.votes.Keys == Elems(signers);
  }

  /** The same in the terms of the instruction alone: when the weight and the cosigners of its voters finalize it. */
  lemma OpenBoxFinalizedIff(u: Setup, s: Round, id: ID, h: Hash)
    requires ValidPolicy(u.policy) && Reachable(u, s)
    requires id in s.cells && h in s.cells[id].boxes && !s.cells[id].boxes[h].deleted
    ensures h.FixedHash?
    ensures var b := s.cells[id].boxes[h];
            b.finalized <==>
              && Total(u.policy.weights, b.votes.Keys) * 10000 > NeededShare(u, h.data)
              && |b.votes.Keys * Elems(h.data.cosigners)| >= h.data.cosignersThreshold
  {
    hide Reachable, ValidPolicy, ResolveThreshold, NeededShare;
    OpenBoxExact(u, s, id, h);
    NeededShareExceeded(u, h.data);
  }

  /**
   * In every reachable state an open box's sequence numbers are a bijection from its voters onto 0..n-1, its vote
   * hash is the fold of its votes in that order, and each receipt is the fold of its own prefix.
   */
  lemma OpenBoxArranged(u: Setup, s: Round, id: ID, h: Hash)
    requires ValidPolicy(u.policy) && Reachable(u, s)
    requires id in s.cells && h in s.cells[id].boxes && !s.cells[id].boxes[h].deleted
    ensures h.FixedHash?
    ensures var b := s.cells[id].boxes[h];
            var order := b.history.order;
            && |order| == |b.votes| == |b.history.receipts|
            && (forall v :: v in b.votes ==>
                  b.votes[v].sequence < |b.votes| && order[b.votes[v].sequence] == Cast(v, b.votes[v]))
            && (forall v, w :: v in b.votes && w in b.votes && b.votes[v].sequence == b.votes[w].sequence ==> v == w)
            && (forall i :: 0 <= i < |b.votes| ==> Filled(b.votes, i))
            && b.voteHash == FoldHash(h.data, order)
            && (forall k :: 0 <= k < |order| ==> b.history.receipts[k] == ReceiptOf(h, h.data, order, k))
  {
    hide Tallied, Timed, ResolveThreshold, EmittedExactly, Winner, Timers, FoldHash, ReceiptOf;
    ReachableBox(u, s, id, h);
    SequenceBijection(s.cells[id].boxes[h].votes, s.cells[id].boxes[h].history.order);
  }

  /** The action of a finalized open box: slot j comes from the vote numbered j, and folding it gives the vote hash. */
  lemma OpenBoxAction(u: Setup, s: Round, id: ID, h: Hash, tag: Tag)
    requires ValidPolicy(u.policy) && Reachable(u, s)
    requires id in s.cells && h in s.cells[id].boxes
    requires !s.cells[id].boxes[h].deleted && s.cells[id].boxes[h].finalized
    ensures var b := s.cells[id].boxes[h];
            && BuildAction(b, tag).Ok?
            && var a := BuildAction(b, tag).value;
               && |a.signatures| == |a.variableMessages| == |a.timestamps| == |b.votes|
               && (forall v :: v in b.votes ==>
                     && b.votes[v].sequence < |b.votes|
                     && a.signatures[b.votes[v].sequence] == b.votes[v].signature
                     && a.variableMessages[b.votes[v].sequence] == b.votes[v].message
                     && a.timestamps[b.votes[v].sequence] == Unix(b.votes[v].time))
               && FoldAction(a, |b.votes|) == b.voteHash
  {
    ReachableBox(u, s, id, h);
    var b := s.cells[id].boxes[h];
    SequenceBijection(b.votes, b.history.order);
    ActionCarriesVoteHash(u.policy, b, s.now, tag);
  }

  // ---------------------------------------------------------------- actions

  function CountTag(emitted: seq<Emission>, tag: Tag): (r: nat) {
    if emitted == [] then 0 else CountTag(emitted[1..], tag) + if emitted[0].action.tag == tag then 1 else 0
  }

  /**
   * How many actions of each kind a box has built, in every reachable state. `settling` is the window
   * between the finalizing vote and the end of the same AddVote call.
   */
  lemma ActionsExact(u: Setup, s: Round, id: ID, h: Hash)
    requires ValidPolicy(u.policy) && Reachable(u, s)
    requires id in s.cells && h in s.cells[id].boxes
    ensures h.FixedHash? && s.cells[id].lost == 0
    ensures var c := s.cells[id];
            var b, settling := c.boxes[h], c.flight == Finalizing(h);
            var restore := h.data.opType == WalletOp && h.data.opCommand == KeyDataProviderRestore;
            && CountTag(b.history.emitted, Threshold) ==
                 (if !b.finalized || settling || (restore && !b.deleted) then 0 else 1)
            && CountTag(b.history.emitted, End) ==
                 (if b.finalized && b.deleted && (restore || h == c.finalizedHash) then 1 else 0)
            && (b.deleted ==> b.votes == map[] && h !in c.timers)
            && (c.finalizedHash != ZeroHash ==>
                  && c.finalizedHash in c.boxes && c.boxes[c.finalizedHash].finalized
                  && c.finalizedHash.FixedHash?
                  && var d := c.finalizedHash.data; d.opType != WalletOp || d.opCommand != KeyDataProviderRestore)
  {
    hide Tallied, Receipted, Timed, Arranges, ResolveThreshold, ShortestPassing;
    ReachableBox(u, s, id, h);
    var c := s.cells[id];
    if c.finalizedHash != ZeroHash { assert Settled(c, c.finalizedHash); }
    var emitted := c.boxes[h].history.emitted;
    CountTagUpToTwo(emitted, Threshold);
    CountTagUpToTwo(emitted, End);
  }

  lemma CountTagUpToTwo(emitted: seq<Emission>, tag: Tag)
    ensures |emitted| == 0 ==> CountTag(emitted, tag) == 0
    ensures |emitted| == 1 ==> CountTag(emitted, tag) == if emitted[0].action.tag == tag then 1 else 0
    ensures |emitted| == 2 ==>
              CountTag(emitted, tag) == (if emitted[0].action.tag == tag then 1 else 0)
                  + (if emitted[1].action.tag == tag then 1 else 0)
  {
    if |emitted| == 2 { assert emitted[1..] == [emitted[1]]; }
  }

  /**
   * A non-restore box's Threshold action lists the shortest prefix of its vote order that passes both gates,
   * and that list is a prefix of the End action's, which has every vote of the box.
   */
  lemma ThresholdActionIsShortestPrefix(u: Setup, s: Round, id: ID, h: Hash, k: nat)
    requires ValidPolicy(u.policy) && Reachable(u, s)
    requires id in s.cells && h in s.cells[id].boxes && h.FixedHash?
    requires h.data.opType != WalletOp || h.data.opCommand != KeyDataProviderRestore
    requires k < |s.cells[id].boxes[h].history.emitted|
    ensures var b := s.cells[id].boxes[h];
            var first, e := b.history.emitted[0], b.history.emitted[k];
            && e.action == ActionOf(h.data, e.action.tag, e.casts)
            && (e.action.tag == Threshold <==> k == 0)
            && first.casts <= e.casts <= b.history.order
            && ShortestPassing(u.policy, h.data, b.proposal.threshold, first.casts)
            && (e.action.tag == End ==> e.casts == b.history.order)
            && first.action.signatures <= e.action.signatures
            && first.action.variableMessages <= e.action.variableMessages
            && first.action.timestamps <= e.action.timestamps
  {
    hide BoxInv, ShortestPassing, ResolveThreshold;
    ReachableBox(u, s, id, h);
  }

  /** The first winner of an instruction ID never changes once set, on any continuation of any run. */
  lemma FirstWinnerIsFinal(u: Setup, s: Round, events: seq<Event>, id: ID)
    requires ValidPolicy(u.policy) && Reachable(u, s) && Run(u, s, events).Some?
    requires id in s.cells && s.cells[id].finalizedHash != ZeroHash
    ensures var s' := Run(u, s, events).value;
            id in s'.cells && s'.cells[id].finalizedHash == s.cells[id].finalizedHash
  {
    ReachableInv(u, s);
    RunGrows(u, s, events);
    assert CellGrows(s.cells[id], Run(u, s, events).value.cells[id]);
  }

  /**
   * A receipt issued in s is confirmed by every action built by then or later that reaches its position:
   * recomputing the vote hash from the action up to that position gives the hash in the receipt.
   */
  lemma ReceiptsConfirmed(u: Setup, s: Round, events: seq<Event>, id: ID, h: Hash, k: nat, i: nat)
    requires ValidPolicy(u.policy) && Reachable(u, s) && Run(u, s, events).Some?
    requires id in s.cells && h in s.cells[id].boxes && k < |s.cells[id].boxes[h].history.receipts|
    ensures var s' := Run(u, s, events).value;
            && id in s'.cells && h in s'.cells[id].boxes
            && var b, b' := s.cells[id].boxes[h], s'.cells[id].boxes[h];
               (i < |b'.history.emitted| && k < |b'.history.emitted[i].casts| ==>
                  var a := b'.history.emitted[i].action;
                  && |a.signatures| == |a.variableMessages| == |a.timestamps| > k
                  && FoldAction(a, k + 1) == b.history.receipts[k].voteHash
                  && a.signatures[k] == b.history.receipts[k].signature)
  {
    hide CellInv, BoxInv, EmittedExactly, Run;
    var s' := Run(u, s, events).value;
    ReachableInv(u, s);
    RunInv(u, s, events);
    RunGrows(u, s, events);
    var b, b' := s.cells[id].boxes[h], s'.cells[id].boxes[h];
    assert BoxGrows(b, b');
    if i < |b'.history.emitted| && k < |b'.history.emitted[i].casts| {
      EmissionConfirms(u, s'.now, id, s'.cells[id], h, k, i);
      assert b'.history.receipts[k] == b.history.receipts[k];
    }
  }

  lemma EmissionShape(u: Setup, c: Cell, h: Hash, i: nat)
    requires h in c.boxes && h.FixedHash? && c.boxes[h].hash == h && EmittedExactly(u, c, h)
    requires i < |c.boxes[h].history.emitted|
    ensures var e := c.boxes[h].history.emitted[i];
            e == EmissionOf(h.data, e.action.tag, e.casts) && e.casts <= c.boxes[h].history.order
  {
  }

  lemma EmissionConfirms(u: Setup, now: nat, id: ID, c: Cell, h: Hash, k: nat, i: nat)
    requires CellInv(u, now, id, c) && h in c.boxes
    requires i < |c.boxes[h].history.emitted| && k < |c.boxes[h].history.emitted[i].casts|
    ensures var b := c.boxes[h];
            var a := b.history.emitted[i].action;
            && |a.signatures| == |a.variableMessages| == |a.timestamps| > k
            && k < |b.history.receipts|
            && FoldAction(a, k + 1) == b.history.receipts[k].voteHash
            && a.signatures[k] == b.history.receipts[k].signature
  {
    hide Tallied, Timed, Arranges, EmittedExactly, ResolveThreshold, Winner, Timers, FlightInv;
    var b := c.boxes[h];
    assert Stored(u, now, id, h, b) && EmittedExactly(u, c, h);
    EmissionShape(u, c, h, i);
    var e := b.history.emitted[i];
    FoldActionPrefix(h.data, e.action.tag, e.casts, k + 1);
    assert e.casts[..k + 1] == b.history.order[..k + 1];
    assert b.history.receipts[k] == ReceiptOf(h, h.data, b.history.order, k);
  }

  // ---------------------------------------------------------------- quorum intersection

  /** The voters of a box, also after its deletion. */
  ghost function VotersOf(b: Box): (r: seq<Address>) {
    Signers(b.history.order)
  }

  /** Two finalized boxes of a round, each under a threshold of at least half, share a registered provider. */
  lemma ProviderQuorumsIntersect(u: Setup, s: Round, id1: ID, h1: Hash, id2: ID, h2: Hash)
    requires ValidPolicy(u.policy) && Reachable(u, s)
    requires id1 in s.cells && h1 in s.cells[id1].boxes && s.cells[id1].boxes[h1].finalized && AtLeastHalf(u, h1)
    requires id2 in s.cells && h2 in s.cells[id2].boxes && s.cells[id2].boxes[h2].finalized && AtLeastHalf(u, h2)
    ensures var a, b := VotersOf(s.cells[id1].boxes[h1]), VotersOf(s.cells[id2].boxes[h2]);
            exists v :: v in a && v in b && v in u.policy.weights
  {
    HalfOutweighs(u, s, id1, h1);
    HalfOutweighs(u, s, id2, h2);
    WeightOverlap(u.policy.weights, VotersOf(s.cells[id1].boxes[h1]), VotersOf(s.cells[id2].boxes[h2]));
  }

  /** The declared BIPS, or without any the policy's own threshold, are at least half. */
  ghost predicate AtLeastHalf(u: Setup, h: Hash) {
    && h.FixedHash? && ThresholdBIPS(h.data, u.decode).Ok?
    && match ThresholdBIPS(h.data, u.decode).value
       case Some(bips) => bips >= MAX_BIPS / 2
       case None => 2 * u.policy.threshold >= u.policy.totalWeight
  }

  lemma HalfOutweighs(u: Setup, s: Round, id: ID, h: Hash)
    requires ValidPolicy(u.policy) && Reachable(u, s)
    requires id in s.cells && h in s.cells[id].boxes && s.cells[id].boxes[h].finalized && AtLeastHalf(u, h)
    ensures var voters := VotersOf(s.cells[id].boxes[h]);
            && Distinct(voters)
            && 2 * Tally(u.policy.weights, voters) > Total(u.policy.weights, u.policy.weights.Keys)
  {
    ReachableBox(u, s, id, h);
    var b := s.cells[id].boxes[h];
    hide Arranges, Receipted, Timed, EmittedExactly, Winner, Timers;
    var declared := ThresholdBIPS(h.data, u.decode).value;
    if declared.Some? {
      assert b.proposal.threshold == ComputeThreshold(u.policy.totalWeight, declared.value);
      HalfShare(b.weight, u.policy.totalWeight, declared.value);
    }
  }

  lemma HalfShare(weight: nat, total: uint16, bips: nat)
    requires MAX_BIPS / 2 <= bips <= MAX_BIPS && weight > ComputeThreshold(total, bips)
    ensures 2 * weight > total
  {
    StrictFloor(weight, total, bips);
    ScaleMonotone(total, 5000, bips);
    hide ComputeThreshold;
  }

  lemma ScaleMonotone(a: nat, b: nat, c: nat)
    requires b <= c
    ensures a * b <= a * c
  {
  }

  /** An FDC proof declared below half of the provider weight. */
  ghost predicate FDCBelowHalf(u: Setup, h: Hash) {
    h.FixedHash? && ThresholdBIPS(h.data, u.decode).Ok? && ThresholdBIPS(h.data, u.decode).value.Some?
    && ThresholdBIPS(h.data, u.decode).value.value < MAX_BIPS / 2
  }

  /** Two finalized below-half FDC boxes over the same roster share a cosigner. */
  lemma CosignerQuorumsIntersect(u: Setup, s: Round, id1: ID, h1: Hash, id2: ID, h2: Hash)
    requires ValidPolicy(u.policy) && Reachable(u, s)
    requires id1 in s.cells && h1 in s.cells[id1].boxes && s.cells[id1].boxes[h1].finalized && FDCBelowHalf(u, h1)
    requires id2 in s.cells && h2 in s.cells[id2].boxes && s.cells[id2].boxes[h2].finalized && FDCBelowHalf(u, h2)
    requires Elems(h1.data.cosigners) == Elems(h2.data.cosigners)
    ensures var a, b := VotersOf(s.cells[id1].boxes[h1]), VotersOf(s.cells[id2].boxes[h2]);
            exists v :: v in a && v in b && v in Elems(h1.data.cosigners)
  {
    CosignerMajority(u, s, id1, h1);
    CosignerMajority(u, s, id2, h2);
    CountOverlap(Elems(h1.data.cosigners), VotersOf(s.cells[id1].boxes[h1]), VotersOf(s.cells[id2].boxes[h2]));
  }

  lemma CosignerMajority(u: Setup, s: Round, id: ID, h: Hash)
    requires ValidPolicy(u.policy) && Reachable(u, s)
    requires id in s.cells && h in s.cells[id].boxes && s.cells[id].boxes[h].finalized && FDCBelowHalf(u, h)
    ensures var voters, roster := VotersOf(s.cells[id].boxes[h]), Elems(h.data.cosigners);
            Distinct(voters) && 2 * Count(roster, voters) > |roster|
  {
    ReachableBox(u, s, id, h);
    DistinctCardinality(h.data.cosigners);
    var bips := u.decode(h.data.originalMessage).value;
    FDCMajority(bips, h.data.cosignersThreshold, |h.data.cosigners|);
  }
}
