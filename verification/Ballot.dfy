/**
 * One voting: the box that collects votes on an instruction hash.
 *
 * `Box` is the box as a value and `VoteBox` the mutable object the proxy keeps. The `history` of a box
 * is a record kept for the specification: which votes were written in which order, the receipts issued
 * and the actions built. BuildAction, a specification, reads it; the object's own Action works from the vote map
 * alone, and is proved to agree.
 */
module Ballot {
  import opened Foundations
  import opened Quorum
  import opened Instructions
  import opened Metadata

  datatype Vote = Vote(sequence: nat, time: nat, signature: Bytes, message: Bytes)

  datatype Cast = Cast(signer: Address, vote: Vote)

  datatype Receipt = Receipt(
    instructionHash: Hash, sequence: nat, signature: Bytes, message: Bytes, timestamp: nat, voteHash: Hash)

  datatype Action = Action(
    id: ID, tag: Tag, message: DataFixed,
    signatures: seq<Bytes>, variableMessages: seq<Bytes>, timestamps: seq<nat>)

  /** An action together with the votes it was built from. */
  datatype Emission = Emission(action: Action, casts: seq<Cast>)

  datatype History = History(order: seq<Cast>, receipts: seq<Receipt>, emitted: seq<Emission>)

  datatype Proposal = Proposal(
    instruction: Option<DataFixed>, threshold: uint16, cosigners: set<Address>, cosignerThreshold: uint16)

  datatype Box = Box(
    id: ID, hash: Hash, proposer: Address, proposal: Proposal,
    votes: map<Address, Vote>, voteHash: Hash, startTime: nat, endTime: int,
    weight: uint16, cosignerWeight: uint16, finalized: bool, deleted: bool,
    history: History)

  datatype VoterGroup = VoterGroup(provider: bool, cosigner: bool)

  datatype CastError = InvalidVoter | VotingEnded | SignatureAlreadyStored

  /** MissingInstruction stands for the nil dereference a cleared proposal would cause. */
  datatype ActionError = AlreadyDeleted | NotFinalized | MissingInstruction

  // ---------------------------------------------------------------- reference definitions

  function Signers(order: seq<Cast>): (r: seq<Address>)
    ensures |r| == |order|
    ensures forall i :: 0 <= i < |r| ==> r[i] == order[i].signer
  {
    seq(|order|, i requires 0 <= i < |order| => order[i].signer)
  }

  /** The vote hash as a reader of the action recomputes it, from the votes in arrival order. */
  function FoldHash(d: DataFixed, order: seq<Cast>): (r: Hash) {
    if order == [] then InitialHash(d)
    else
      var n := |order| - 1;
      NextHash(FoldHash(d, order[..n]), n, order[n].vote.signature, order[n].vote.message, Unix(order[n].vote.time))
  }

  /** Both gates: strictly more provider weight than the threshold, and enough cosigners. */
  predicate Passes(p: Policy, threshold: nat, roster: set<Address>, cosignerThreshold: nat, order: seq<Cast>) {
    Tally(p.weights, Signers(order)) > threshold && Count(roster, Signers(order)) >= cosignerThreshold
  }

  /** The gates of an instruction: its roster and cosigner threshold are part of its data. */
  predicate Gates(p: Policy, d: DataFixed, threshold: nat, order: seq<Cast>) {
    Passes(p, threshold, Elems(d.cosigners), d.cosignersThreshold, order)
  }

  ghost predicate ShortestPassing(p: Policy, d: DataFixed, threshold: nat, casts: seq<Cast>) {
    Gates(p, d, threshold, casts) && forall n :: 0 <= n < |casts| ==> !Gates(p, d, threshold, casts[..n])
  }

  predicate Holds(votes: map<Address, Vote>, c: Cast) {
    c.signer in votes && votes[c.signer] == c.vote
  }

  /** The vote map holds exactly the votes of a list of distinct signers, numbered by position. */
  ghost predicate Arranges(votes: map<Address, Vote>, order: seq<Cast>) {
    && |order| == |votes|
    && Distinct(Signers(order))
    && votes.Keys == Elems(Signers(order))
    && (forall i :: 0 <= i < |order| ==> order[i].vote.sequence == i && Holds(votes, order[i]))
  }

  predicate Filled(votes: map<Address, Vote>, slot: nat) {
    exists a :: a in votes && votes[a].sequence == slot
  }

  /** Sequence numbers are a bijection between the voters and 0..n-1: each slot has exactly one voter. */
  lemma SequenceBijection(votes: map<Address, Vote>, order: seq<Cast>)
    requires Arranges(votes, order)
    ensures forall a :: a in votes ==> votes[a].sequence < |votes| && order[votes[a].sequence] == Cast(a, votes[a])
    ensures forall a, b :: a in votes && b in votes && votes[a].sequence == votes[b].sequence ==> a == b
    ensures forall i :: 0 <= i < |votes| ==> Filled(votes, i)
  {
    forall a | a in votes
      ensures votes[a].sequence < |votes| && order[votes[a].sequence] == Cast(a, votes[a])
    {
      assert a in Elems(Signers(order));
      var i :| 0 <= i < |order| && Signers(order)[i] == a;
      assert Holds(votes, order[i]);
    }
    forall i | 0 <= i < |votes| ensures Filled(votes, i) {
      assert Holds(votes, order[i]);
      assert votes[order[i].signer].sequence == i;
    }
  }

  function ActionOf(d: DataFixed, tag: Tag, order: seq<Cast>): (r: Action)
    ensures |r.signatures| == |r.variableMessages| == |r.timestamps| == |order|
  {
    Action(d.instructionID, tag, d,
           seq(|order|, i requires 0 <= i < |order| => order[i].vote.signature),
           seq(|order|, i requires 0 <= i < |order| => order[i].vote.message),
           seq(|order|, i requires 0 <= i < |order| => Unix(order[i].vote.time)))
  }

  function ReceiptOf(h: Hash, d: DataFixed, order: seq<Cast>, k: nat): (r: Receipt)
    requires k < |order|
  {
    Receipt(h, k, order[k].vote.signature, order[k].vote.message, Unix(order[k].vote.time), FoldHash(d, order[..k + 1]))
  }

  // ---------------------------------------------------------------- operations on values

  function NewBox(d: DataFixed, proposer: Address, threshold: uint16, roster: Roster, start: nat,
      expiration: int): (b: Box) {
    Box(d.instructionID, FixedHash(d), proposer,
        Proposal(Some(d), threshold, roster.cosigners, TruncateU16(roster.threshold)),
        map[], InitialHash(d), start, start + expiration, 0, 0, false, false, History([], [], []))
  }

  function GroupOf(signer: Address, weights: Weights, cosigners: set<Address>): (r: (VoterGroup, uint16)) {
    (VoterGroup(signer in weights, signer in cosigners), WeightOf(weights, signer))
  }

  /** voteBox.addVote. The flag is set only on the transition into the finalized state. */
  function CastVote(b: Box, signer: Address, weight: uint16, signature: Bytes, message: Bytes, group: VoterGroup,
      now: nat)
    : (r: Result<(Box, Receipt, bool), CastError>)
  {
    if !group.provider && !group.cosigner then Err(InvalidVoter)
    else if b.endTime < now then Err(VotingEnded)
    else if signer in b.votes then Err(SignatureAlreadyStored)
    else
      var vote := Vote(|b.votes|, now, signature, message);
      var voteHash := NextHash(b.voteHash, |b.votes|, signature, message, Unix(now));
      var weight' := AddU16(b.weight, weight);
      var cosignerWeight' := if group.cosigner then AddU16(b.cosignerWeight, 1) else b.cosignerWeight;
      var receipt := Receipt(b.hash, vote.sequence, signature, message, Unix(now), voteHash);
      var finalizes :=
        !b.finalized && weight' > b.proposal.threshold && cosignerWeight' >= b.proposal.cosignerThreshold;
      Ok((b.(votes := b.votes[signer := vote], voteHash := voteHash, weight := weight',
             cosignerWeight := cosignerWeight', finalized := b.finalized || finalizes,
             history := b.history.(order := b.history.order + [Cast(signer, vote)],
                                   receipts := b.history.receipts + [receipt])),
          receipt, finalizes))
  }

  function Delete(b: Box): (r: Box) {
    b.(proposal := b.proposal.(instruction := None, cosigners := {}), votes := map[], deleted := true)
  }

  /** voteBox.Action, on the votes in arrival order. */
  function BuildAction(b: Box, tag: Tag): (r: Result<Action, ActionError>) {
    if b.deleted then Err(AlreadyDeleted)
    else if !b.finalized then Err(NotFinalized)
    else if b.proposal.instruction.None? then Err(MissingInstruction)
    else Ok(ActionOf(b.proposal.instruction.value, tag, b.history.order))
  }

  // ---------------------------------------------------------------- the invariant of a box

  /** What opening the box fixed: its data, and thresholds that lost nothing to truncation. */
  ghost predicate Identified(p: Policy, b: Box) {
    && b.hash.FixedHash?
    && var d := b.hash.data;
       && b.id == d.instructionID
       && b.proposer in p.weights
       && Distinct(d.cosigners) && |d.cosigners| <= MAX_COSIGNERS
       && d.cosignersThreshold <= |d.cosigners|
       && b.proposal.cosignerThreshold == d.cosignersThreshold
       && (if b.deleted
           then b.votes == map[]
           else b.proposal.instruction == Some(d) && b.proposal.cosigners == Elems(d.cosigners)
                && Arranges(b.votes, b.history.order))
  }

  /** The uint16 counters equal the unbounded tallies over distinct voters, and decide finality. */
  ghost predicate Tallied(p: Policy, b: Box)
    requires b.hash.FixedHash?
  {
    var signers := Signers(b.history.order);
    && Distinct(signers)
    && (forall a :: a in signers ==> a in p.weights || a in b.hash.data.cosigners)
    && b.weight == Tally(p.weights, signers)
    && b.cosignerWeight == Count(Elems(b.hash.data.cosigners), signers)
    && (b.finalized <==> Gates(p, b.hash.data, b.proposal.threshold, b.history.order))
  }

  /** The vote hash and every receipt are folds of the vote order. */
  ghost predicate Receipted(b: Box)
    requires b.hash.FixedHash?
  {
    && b.voteHash == FoldHash(b.hash.data, b.history.order)
    && |b.history.receipts| == |b.history.order|
    && (forall k :: 0 <= k < |b.history.order| ==>
          b.history.receipts[k] == ReceiptOf(b.hash, b.hash.data, b.history.order, k))
  }

  /** Votes lie in the voting window and arrive in time order. */
  ghost predicate Timed(b: Box, now: nat) {
    var order := b.history.order;
    && b.startTime <= now
    && (forall i :: 0 <= i < |order| ==> b.startTime <= order[i].vote.time <= now && order[i].vote.time <= b.endTime)
    && (forall i, j :: 0 <= i < j < |order| ==> order[i].vote.time <= order[j].vote.time)
  }

  ghost predicate BoxInv(p: Policy, b: Box, now: nat) {
    Identified(p, b) && Tallied(p, b) && Receipted(b) && Timed(b, now)
  }

  lemma NewBoxInv(p: Policy, d: DataFixed, proposer: Address, threshold: uint16, roster: Roster, start: nat,
      expiration: int)
    requires proposer in p.weights
    requires roster == Roster(Elems(d.cosigners), d.cosignersThreshold) && Distinct(d.cosigners)
    requires |d.cosigners| <= MAX_COSIGNERS && d.cosignersThreshold <= |d.cosigners|
    ensures BoxInv(p, NewBox(d, proposer, threshold, roster, start, expiration), start)
  {
    var b := NewBox(d, proposer, threshold, roster, start, expiration);
    assert Signers(b.history.order) == [];
  }

  lemma SignersSnoc(order: seq<Cast>, c: Cast)
    ensures Signers(order + [c]) == Signers(order) + [c.signer]
  {
  }

  lemma SignersGrow(order: seq<Cast>, c: Cast)
    requires Distinct(Signers(order)) && c.signer !in Elems(Signers(order))
    ensures Distinct(Signers(order + [c])) && Elems(Signers(order + [c])) == Elems(Signers(order)) + {c.signer}
  {
    SignersSnoc(order, c);
  }

  lemma ArrangesSnoc(votes: map<Address, Vote>, order: seq<Cast>, a: Address, v: Vote)
    requires Arranges(votes, order) && a !in votes && v.sequence == |order|
    ensures Arranges(votes[a := v], order + [Cast(a, v)])
  {
    hide Signers, Elems, Distinct;
    var votes', order' := votes[a := v], order + [Cast(a, v)];
    SignersGrow(order, Cast(a, v));
    assert votes'.Keys == votes.Keys + {a};
    forall i | 0 <= i < |order'| ensures order'[i].vote.sequence == i && Holds(votes', order'[i]) {
      if i < |order| {
        assert Holds(votes, order[i]);
      }
    }
  }

  lemma TallySnoc(w: Weights, roster: set<Address>, signers: seq<Address>, a: Address)
    ensures Tally(w, signers + [a]) == Tally(w, signers) + WeightOf(w, a)
    ensures Count(roster, signers + [a]) == Count(roster, signers) + if a in roster then 1 else 0
  {
    assert (signers + [a])[..|signers|] == signers;
  }

  /** Adding a new distinct voter never wraps a uint16 counter, because the policy total is a uint16. */
  lemma TallyExact(p: Policy, roster: set<Address>, signers: seq<Address>, a: Address)
    requires ValidPolicy(p) && |roster| <= MAX_COSIGNERS
    requires Distinct(signers) && a !in signers
    ensures Distinct(signers + [a])
    ensures Tally(p.weights, signers + [a]) == Tally(p.weights, signers) + WeightOf(p.weights, a) < U16
    ensures Count(roster, signers + [a]) == Count(roster, signers) + (if a in roster then 1 else 0) <= MAX_COSIGNERS
  {
    TallySnoc(p.weights, roster, signers, a);
    TallyBounded(p.weights, signers + [a]);
    CountBounded(roster, signers + [a]);
  }

  /** One accepted vote adds exactly the voter's weight and cosigner mark to the counters. */
  lemma CastCounted(p: Policy, b: Box, signer: Address, signature: Bytes, message: Bytes, now: nat)
    requires ValidPolicy(p) && Identified(p, b) && Tallied(p, b) && !b.deleted
    ensures var (group, weight) := GroupOf(signer, p.weights, b.proposal.cosigners);
            var r := CastVote(b, signer, weight, signature, message, group, now);
            r.Ok? ==>
              && var signers := Signers(r.value.0.history.order);
              && signers == Signers(b.history.order) + [signer]
              && Distinct(signers)
              && r.value.0.weight == b.weight + weight == Tally(p.weights, signers)
              && r.value.0.cosignerWeight == b.cosignerWeight + (if group.cosigner then 1 else 0)
                                          == Count(Elems(b.hash.data.cosigners), signers)
  {
    var (group, weight) := GroupOf(signer, p.weights, b.proposal.cosigners);
    var r := CastVote(b, signer, weight, signature, message, group, now);
    if r.Ok? {
      var order, d := b.history.order, b.hash.data;
      assert signer !in Elems(Signers(order));
      DistinctCardinality(d.cosigners);
      TallyExact(p, Elems(d.cosigners), Signers(order), signer);
      SignersSnoc(order, Cast(signer, Vote(|b.votes|, now, signature, message)));
      AddExact(b.weight, weight);
      AddExact(b.cosignerWeight, 1);
    }
  }

  lemma AddExact(a: uint16, b: uint16)
    ensures a + b < U16 ==> AddU16(a, b) == a + b
  {
  }

  lemma CastTallied(p: Policy, b: Box, signer: Address, signature: Bytes, message: Bytes, now: nat)
    requires ValidPolicy(p) && Identified(p, b) && Tallied(p, b) && !b.deleted
    ensures var (group, weight) := GroupOf(signer, p.weights, b.proposal.cosigners);
            var r := CastVote(b, signer, weight, signature, message, group, now);
            r.Ok? ==> Tallied(p, r.value.0)
  {
    var (group, weight) := GroupOf(signer, p.weights, b.proposal.cosigners);
    var r := CastVote(b, signer, weight, signature, message, group, now);
    if r.Ok? {
      var order, order', d := b.history.order, r.value.0.history.order, b.hash.data;
      CastCounted(p, b, signer, signature, message, now);
      if b.finalized {
        assert order'[..|order|] == order;
        GatesMonotone(p, d, b.proposal.threshold, order', |order|);
      }
      assert signer in d.cosigners <==> signer in Elems(d.cosigners);
      forall a | a in Signers(order') ensures a in p.weights || a in d.cosigners {
        if a != signer { assert a in Signers(order); }
      }
    }
  }

  lemma FoldSnoc(d: DataFixed, order: seq<Cast>, c: Cast)
    ensures FoldHash(d, order + [c]) ==
        NextHash(FoldHash(d, order), |order|, c.vote.signature, c.vote.message, Unix(c.vote.time))
  {
    assert (order + [c])[..|order|] == order;
  }

  /** Gates once passed stay passed: every extension of a passing list passes. */
  lemma GatesMonotone(p: Policy, d: DataFixed, threshold: nat, order: seq<Cast>, n: nat)
    requires n <= |order| && Gates(p, d, threshold, order[..n])
    ensures Gates(p, d, threshold, order)
  {
    TalliesGrow(p.weights, Elems(d.cosigners), Signers(order), n);
    assert Signers(order)[..n] == Signers(order[..n]);
  }

  lemma ReceiptsKept(hash: Hash, d: DataFixed, order: seq<Cast>, c: Cast)
    ensures forall k :: 0 <= k < |order| ==> ReceiptOf(hash, d, order + [c], k) == ReceiptOf(hash, d, order, k)
  {
    hide FoldHash;
    forall k | 0 <= k < |order| ensures ReceiptOf(hash, d, order + [c], k) == ReceiptOf(hash, d, order, k) {
      assert (order + [c])[..k + 1] == order[..k + 1];
    }
  }

  lemma CastReceipted(b: Box, signer: Address, weight: uint16, signature: Bytes, message: Bytes, group: VoterGroup,
      now: nat)
    requires b.hash.FixedHash? && Receipted(b) && Arranges(b.votes, b.history.order)
    ensures var r := CastVote(b, signer, weight, signature, message, group, now);
            r.Ok? ==>
              && Receipted(r.value.0)
              && r.value.1 == ReceiptOf(b.hash, b.hash.data, r.value.0.history.order, |b.history.order|)
  {
    var r := CastVote(b, signer, weight, signature, message, group, now);
    if r.Ok? {
      var order, order' := b.history.order, r.value.0.history.order;
      FoldSnoc(b.hash.data, order, order'[|order|]);
      assert order'[..|order| + 1] == order';
      ReceiptsKept(b.hash, b.hash.data, order, order'[|order|]);
      hide FoldHash, Arranges;
    }
  }

  /** The vote that finalizes a box makes its list the shortest one to pass both gates. */
  lemma CastShortest(p: Policy, d: DataFixed, threshold: nat, order: seq<Cast>, c: Cast)
    requires !Gates(p, d, threshold, order) && Gates(p, d, threshold, order + [c])
    ensures ShortestPassing(p, d, threshold, order + [c])
  {
    forall n | 0 <= n < |order + [c]| ensures !Gates(p, d, threshold, (order + [c])[..n]) {
      assert (order + [c])[..n] == order[..n];
      if Gates(p, d, threshold, order[..n]) { GatesMonotone(p, d, threshold, order, n); }
    }
  }

  lemma CastTimed(b: Box, signer: Address, weight: uint16, signature: Bytes, message: Bytes, group: VoterGroup,
      then': nat, now: nat)
    requires Timed(b, then') && then' <= now
    ensures var r := CastVote(b, signer, weight, signature, message, group, now);
            r.Ok? ==> Timed(r.value.0, now)
  {
  }

  /** Every accepted vote keeps the box invariant, and finalizes on the first list that passes both gates. */
  lemma CastInv(p: Policy, b: Box, signer: Address, signature: Bytes, message: Bytes, then': nat, now: nat)
    requires ValidPolicy(p) && BoxInv(p, b, then') && !b.deleted && then' <= now
    ensures var (group, weight) := GroupOf(signer, p.weights, b.proposal.cosigners);
            var r := CastVote(b, signer, weight, signature, message, group, now);
            r.Ok? ==>
              && BoxInv(p, r.value.0, now)
              && r.value.2 == (!b.finalized && r.value.0.finalized)
              && (r.value.2 ==> ShortestPassing(p, b.hash.data, b.proposal.threshold, r.value.0.history.order))
  {
    var (group, weight) := GroupOf(signer, p.weights, b.proposal.cosigners);
    var r := CastVote(b, signer, weight, signature, message, group, now);
    if r.Ok? {
      var order := b.history.order;
      var c := Cast(signer, Vote(|b.votes|, now, signature, message));
      CastTallied(p, b, signer, signature, message, now);
      CastReceipted(b, signer, weight, signature, message, group, now);
      CastTimed(b, signer, weight, signature, message, group, then', now);
      ArrangesSnoc(b.votes, order, signer, c.vote);
      if r.value.2 { CastShortest(p, b.hash.data, b.proposal.threshold, order, c); }
    }
  }

  lemma DeleteInv(p: Policy, b: Box, now: nat)
    requires BoxInv(p, b, now)
    ensures BoxInv(p, Delete(b), now)
  {
  }

  lemma RecordInv(p: Policy, b: Box, now: nat, emitted: seq<Emission>)
    requires BoxInv(p, b, now)
    ensures BoxInv(p, b.(history := b.history.(emitted := emitted)), now)
  {
  }

  lemma LaterInv(p: Policy, b: Box, then': nat, now: nat)
    requires BoxInv(p, b, then') && then' <= now
    ensures BoxInv(p, b, now)
  {
  }

  /** The action a reader receives determines the vote hash: folding its three lists gives VoteHash. */
  function FoldAction(a: Action, n: nat): (r: Hash)
    requires n <= |a.signatures| == |a.variableMessages| == |a.timestamps|
  {
    if n == 0 then InitialHash(a.message)
    else NextHash(FoldAction(a, n - 1), n - 1, a.signatures[n - 1], a.variableMessages[n - 1], a.timestamps[n - 1])
  }

  lemma {:induction false} FoldActionPrefix(d: DataFixed, tag: Tag, order: seq<Cast>, n: nat)
    requires n <= |order|
    ensures FoldAction(ActionOf(d, tag, order), n) == FoldHash(d, order[..n])
  {
    if n > 0 {
      FoldActionPrefix(d, tag, order, n - 1);
      assert order[..n][..n - 1] == order[..n - 1];
    }
  }

  /** Every action a box builds carries its VoteHash and, at each receipt's position, that receipt's hash. */
  lemma ActionCarriesVoteHash(p: Policy, b: Box, now: nat, tag: Tag)
    requires BoxInv(p, b, now) && BuildAction(b, tag).Ok?
    ensures var a := BuildAction(b, tag).value;
            && |a.signatures| == |a.variableMessages| == |a.timestamps| == |b.votes| == |b.history.receipts|
            && FoldAction(a, |a.signatures|) == b.voteHash
            && (forall k :: 0 <= k < |b.history.receipts| ==>
                  && FoldAction(a, k + 1) == b.history.receipts[k].voteHash
                  && a.signatures[k] == b.history.receipts[k].signature
                  && a.variableMessages[k] == b.history.receipts[k].message
                  && a.timestamps[k] == b.history.receipts[k].timestamp)
  {
    var a, d, order := BuildAction(b, tag).value, b.hash.data, b.history.order;
    FoldActionPrefix(d, tag, order, |order|);
    assert order[..|order|] == order;
    forall k | 0 <= k < |order| ensures FoldAction(a, k + 1) == b.history.receipts[k].voteHash {
      FoldActionPrefix(d, tag, order, k + 1);
    }
  }

  /** A vote hash commits to the instruction and to every vote: equal hashes, equal actions. */
  lemma {:induction false} VoteHashBinding(a: Action, b: Action, n: nat, m: nat)
    requires n <= |a.signatures| == |a.variableMessages| == |a.timestamps|
    requires m <= |b.signatures| == |b.variableMessages| == |b.timestamps|
    requires FoldAction(a, n) == FoldAction(b, m)
    ensures n == m && a.message == b.message
    ensures a.signatures[..n] == b.signatures[..m]
    ensures a.variableMessages[..n] == b.variableMessages[..m]
    ensures a.timestamps[..n] == b.timestamps[..m]
  {
    if n > 0 && m > 0 {
      VoteHashBinding(a, b, n - 1, m - 1);
    }
  }
}
