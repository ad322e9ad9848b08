/**
 * One voting round as a step system in which any number of AddVote and scheduleEnd calls interleave.
 *
 * Everything that belongs to one instruction ID lives in a cell. The boxes lock, or the round lock while
 * the ID is new, lets at most one AddVote be between its steps per ID: that call is the cell's flight.
 * Calls on different IDs interleave freely; they share only the limiter and the clock.
 */
module RoundSteps {
  import opened Foundations
  import opened Instructions
  import opened Metadata
  import opened Limiter
  import opened Ballot

  datatype Setup = Setup(policy: Policy, maxPending: nat, expiration: int, restoreVariable: nat, decode: FDCDecoder)

  /** Where the AddVote on an ID stands: slot reserved, box built, or box finalized and not yet settled. */
  datatype Flight = Idle | Opened(req: Request) | Built(req: Request, box: Box) | Finalizing(hash: Hash)

  /** `timers` are the scheduleEnd goroutines still to run; `lost` counts actions that failed to build. */
  datatype Cell = Cell(boxes: map<Hash, Box>, finalizedHash: Hash, flight: Flight, timers: set<Hash>, lost: nat)

  /** `leaked` records proposers whose fresh box refused its first vote, keeping the slot reserved. */
  datatype Round = Round(cells: map<ID, Cell>, limiter: Counters, leaked: multiset<Address>, now: nat)

  datatype Event =
    | Increment(req: Request, t: nat)
    | Build(id: ID, resolved: Option<Roster>, t: nat)
    | FirstVote(id: ID, t: nat)
    | LaterVote(req: Request, t: nat)
    | Settle(id: ID)
    | EndVoting(id: ID, hash: Hash, t: nat)

  const EVENT_FUTURE_SLACK: nat := 15

  // ---------------------------------------------------------------- opening a box

  /** int64(data.Timestamp): timestamps of 2^63 and above become negative. */
  function EventSeconds(timestamp: uint64): (r: int) {
    if timestamp < U64 / 2 then timestamp else timestamp - U64
  }

  predicate BeforeEvent(d: DataFixed, now: nat) {
    now < (EventSeconds(d.timestamp) - EVENT_FUTURE_SLACK) * SECOND
  }

  function BuildBox(u: Setup, d: DataFixed, signer: Address, resolved: Option<Roster>, start: nat): (r: Result<Box,
      MetaError>) {
    var threshold := ResolveThreshold(u.policy, d, u.decode);
    if threshold.Err? then Err(threshold.error)
    else
      var roster := Cosigners(d, resolved);
      if roster.Err? then Err(roster.error)
      else if roster.value.threshold > |roster.value.cosigners| then Err(InvalidCosignerThreshold)
      else Ok(NewBox(d, signer, threshold.value, roster.value, start, u.expiration))
  }

  /** A built box satisfies the box invariant with nothing lost to the uint16 truncation of its cosigner threshold. */
  lemma BuildBoxInv(u: Setup, req: Request, resolved: Option<Roster>, start: nat)
    requires CheckSize(req, u.restoreVariable).None? && req.signer in u.policy.weights
    ensures var r := BuildBox(u, req.data, req.signer, resolved, start);
            r.Ok? ==>
              && BoxInv(u.policy, r.value, start)
              && r.value.proposal.cosignerThreshold == req.data.cosignersThreshold
              && ResolveThreshold(u.policy, req.data, u.decode) == Ok(r.value.proposal.threshold)
  {
    var r := BuildBox(u, req.data, req.signer, resolved, start);
    if r.Ok? {
      AcceptedRosterIsDeclared(req.data, resolved);
      var roster := Cosigners(req.data, resolved).value;
      NewBoxInv(u.policy, req.data, req.signer, r.value.proposal.threshold, roster, start, u.expiration);
    }
  }

  // ---------------------------------------------------------------- steps of one cell

  function CastInto(u: Setup, b: Box, req: Request, t: nat): (r: Result<(Box, Receipt, bool), CastError>) {
    var (group, weight) := GroupOf(req.signer, u.policy.weights, b.proposal.cosigners);
    CastVote(b, req.signer, weight, req.signature, req.additionalVariableMessage, group, t)
  }

  function StoreVote(c: Cell, h: Hash, b: Box, finalizes: bool): (r: Cell) {
    c.(boxes := c.boxes[h := b], flight := if finalizes then Finalizing(h) else Idle)
  }

  /** Append the action built under tag to the box's record, or count it lost. */
  function Emit(c: Cell, h: Hash, tag: Tag): (r: Cell)
    requires h in c.boxes
  {
    var b := c.boxes[h];
    var a := BuildAction(b, tag);
    if a.Err? then c.(lost := c.lost + 1)
    else
      var emitted := b.history.emitted + [Emission(a.value, b.history.order)];
      c.(boxes := c.boxes[h := b.(history := b.history.(emitted := emitted))])
  }

  /** The finalized branch of AddVote: first winner recorded, Threshold action built unless a restore. */
  function SettleCell(c: Cell, h: Hash, d: DataFixed): (r: Cell)
    requires h in c.boxes
  {
    var landed := c.(flight := Idle);
    if IsRestore(d) then landed
    else Emit(if c.finalizedHash == ZeroHash then landed.(finalizedHash := h) else landed, h, Threshold)
  }

  /** The actions due when a voting ends: both for a restore, else the End action of the first winner. */
  function WithDue(c: Cell, h: Hash): (r: Cell)
    requires h in c.boxes
    ensures h in r.boxes
  {
    var b := c.boxes[h];
    if b.proposal.instruction.None? then c.(lost := c.lost + 1)
    else if !b.finalized then c
    else if IsRestore(b.proposal.instruction.value) then Emit(Emit(c, h, Threshold), h, End)
    else if h != c.finalizedHash then c
    else Emit(c, h, End)
  }

  /** The critical section of scheduleEnd, ending with the deferred delete. */
  function EndCell(c: Cell, h: Hash): (r: Cell)
    requires h in c.boxes
  {
    var built := WithDue(c, h);
    built.(boxes := built.boxes[h := Delete(built.boxes[h])], timers := built.timers - {h})
  }

  // ---------------------------------------------------------------- steps of the round

  const EMPTY_CELL: Cell := Cell(map[], ZeroHash, Idle, {}, 0)

  function CellAt(s: Round, id: ID): (r: Cell) {
    if id in s.cells then s.cells[id] else EMPTY_CELL
  }

  function Put(s: Round, id: ID, c: Cell): (r: Round) {
    s.(cells := s.cells[id := c])
  }

  function Start(u: Setup): (r: Round) {
    Round(map[], Fresh(u.policy.weights.Keys), multiset{}, 0)
  }

  /** None when the event cannot happen in s; a rejected call leaves all but the clock unchanged. */
  function Step(u: Setup, s: Round, e: Event): (r: Option<Round>) {
    match e
    case Increment(req, t) => StepIncrement(u, s, req, t)
    case Build(id, resolved, t) => StepBuild(u, s, id, resolved, t)
    case FirstVote(id, t) => StepFirstVote(u, s, id, t)
    case LaterVote(req, t) => StepLaterVote(u, s, req, t)
    case Settle(id) => StepSettle(s, id)
    case EndVoting(id, h, t) => StepEnd(s, id, h, t)
  }

  /** startVoteBox up to the limiter: the box for this hash does not exist yet. */
  function StepIncrement(u: Setup, s: Round, req: Request, t: nat): (r: Option<Round>) {
    var c := CellAt(s, req.data.instructionID);
    if t < s.now || CheckSize(req, u.restoreVariable).Some? || !c.flight.Idle? || FixedHash(req.data) in c.boxes
    then None
    else
      var admitted := Admit(s.limiter, u.maxPending, req.signer);
      if BeforeEvent(req.data, t) || admitted.Err? then Some(s.(now := t))
      else Some(Put(s, req.data.instructionID, c.(flight := Opened(req))).(limiter := admitted.value, now := t))
  }

  /** buildVoteBox; a failure releases the slot just reserved. */
  function StepBuild(u: Setup, s: Round, id: ID, resolved: Option<Roster>, t: nat): (r: Option<Round>) {
    var c := CellAt(s, id);
    if t < s.now || !c.flight.Opened? then None
    else
      var req := c.flight.req;
      var b := BuildBox(u, req.data, req.signer, resolved, t);
      if b.Err? then Some(Put(s, id, c.(flight := Idle)).(limiter := Release(s.limiter, req.signer), now := t))
      else Some(Put(s, id, c.(flight := Built(req, b.value))).(now := t))
  }

  /** The opener's own vote; only if it is accepted is the box stored and its end scheduled. */
  function StepFirstVote(u: Setup, s: Round, id: ID, t: nat): (r: Option<Round>) {
    var c := CellAt(s, id);
    if t < s.now || !c.flight.Built? then None
    else
      var req, b := c.flight.req, c.flight.box;
      var v := CastInto(u, b, req, t);
      if v.Err? then Some(Put(s, id, c.(flight := Idle)).(leaked := s.leaked + multiset{req.signer}, now := t))
      else
        var h := FixedHash(req.data);
        Some(Put(s, id, StoreVote(c, h, v.value.0, v.value.2).(timers := c.timers + {h})).(now := t))
  }

  function StepLaterVote(u: Setup, s: Round, req: Request, t: nat): (r: Option<Round>) {
    var id, h := req.data.instructionID, FixedHash(req.data);
    var c := CellAt(s, id);
    if t < s.now || CheckSize(req, u.restoreVariable).Some? || !c.flight.Idle? || h !in c.boxes then None
    else
      var b := c.boxes[h];
      if b.deleted then Some(s.(now := t))
      else
        var v := CastInto(u, b, req, t);
        if v.Err? then Some(s.(now := t))
        else Some(Put(s, id, StoreVote(c, h, v.value.0, v.value.2)).(now := t))
  }

  function StepSettle(s: Round, id: ID): (r: Option<Round>) {
    var c := CellAt(s, id);
    if !c.flight.Finalizing? || c.flight.hash !in c.boxes || !c.flight.hash.FixedHash? then None
    else
      var h := c.flight.hash;
      Some(Put(s, id, SettleCell(c, h, h.data)).(limiter := Release(s.limiter, c.boxes[h].proposer)))
  }

  /** One run per timer, not before the box's end time, and only while no AddVote holds the boxes lock. */
  function StepEnd(s: Round, id: ID, h: Hash, t: nat): (r: Option<Round>) {
    var c := CellAt(s, id);
    if t < s.now || !c.flight.Idle? || h !in c.timers || h !in c.boxes || t < c.boxes[h].endTime then None
    else Some(Put(s, id, EndCell(c, h)).(now := t))
  }

  function Run(u: Setup, s: Round, events: seq<Event>): (r: Option<Round>)
    decreases |events|
  {
    if events == [] then Some(s)
    else
      var next := Step(u, s, events[0]);
      if next.None? then None else Run(u, next.value, events[1..])
  }

  ghost predicate Reachable(u: Setup, s: Round) {
    exists events :: Run(u, Start(u), events) == Some(s)
  }
}
