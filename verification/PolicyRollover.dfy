/**
 * Signing-policy rollover: the proxy's update loop against a node that applies only consecutive epochs.
 *
 * UPDATE_POLICY actions and their confirmations may be lost, delayed, reordered or duplicated, and the
 * proxy's view of the node may lag. A restart loads the epoch the node reports and keeps whatever is queued.
 */
module PolicyRollover {
  import opened Foundations

  /** An UPDATE_POLICY action: a fresh action ID and the epoch of the policy it carries. */
  datatype Update = Update(id: nat, epoch: uint32)

  datatype Phase = Polling | Awaiting(update: Update)

  /**
   * `queued` is every action ever enqueued and still deliverable, in any order and any number of times; `applied`
   * records the node's positive answers and `refused` its others, transient ones included. `origin` is the active
   * epoch at the last restart and `emitted` what the update loop has sent on the policy channel since.
   */
  datatype State = State(
    active: uint32, phase: Phase, attempts: nat,
    node: nat, view: nat,
    queued: set<Update>, applied: set<Update>, refused: set<Update>, nextID: nat,
    origin: uint32, emitted: seq<uint32>)

  datatype Event =
    | Restart
    | Refresh(seen: nat)
    | Deliver(update: Update, accepts: bool)
    | Drop(update: Update)
    | Reconcile(fetched: bool)
    | Idle
    | BuildFailed
    | Submit(epoch: uint32, enqueued: bool)
    | AwaitFailed
    | Confirm(accepted: bool)

  /** activePolicy.RewardEpochID + 1, a uint32 sum. */
  function Target(s: State): (r: uint32) {
    (s.active + 1) % U32
  }

  function Start(lastID: uint32, queued: set<Update>, nextID: nat): (r: State) {
    State(lastID, Polling, 0, lastID, lastID, queued, {}, {}, nextID, lastID, [])
  }

  function Step(s: State, e: Event): (r: Option<State>) {
    match e
    case Restart => StepRestart(s)
    case Refresh(seen) => if seen <= s.node then Some(s.(view := seen)) else None
    case Deliver(u, accepts) => StepDeliver(s, u, accepts)
    case Drop(u) => Some(s.(queued := s.queued - {u}))
    case Reconcile(fetched) => StepReconcile(s, fetched)
    case Idle => if Current(s) then Some(s) else None
    case BuildFailed => if Current(s) then Some(s.(attempts := s.attempts + 1)) else None
    case Submit(epoch, enqueued) => StepSubmit(s, epoch, enqueued)
    case AwaitFailed => if s.phase.Awaiting? then Some(s.(phase := Polling)) else None
    case Confirm(accepted) => StepConfirm(s, accepted)
  }

  /** Polling, and the node is not seen ahead: the loop goes on to target the next epoch. */
  predicate Current(s: State) {
    s.phase.Polling? && s.view <= s.active
  }

  /** A new process: the active policy is the one the node reports, nothing is emitted by the loop yet. */
  function StepRestart(s: State): (r: Option<State>) {
    if s.node >= U32 then None
    else Some(s.(active := s.node, phase := Polling, attempts := 0, view := s.node, origin := s.node, emitted := []))
  }

  /**
   * The node applies only its next epoch, and that only if it accepts the update; otherwise it answers with another
   * status, final or transient. Delivery consumes nothing, so the same update may be answered again.
   */
  function StepDeliver(s: State, u: Update, accepts: bool): (r: Option<State>) {
    if u !in s.queued then None
    else if accepts && u.epoch == s.node + 1 then Some(s.(node := u.epoch, applied := s.applied + {u}))
    else Some(s.(refused := s.refused + {u}))
  }

  /** The node was seen ahead: adopt the policy of the epoch it reports, if it can be fetched. */
  function StepReconcile(s: State, fetched: bool): (r: Option<State>) {
    if !s.phase.Polling? || s.view <= s.active || s.view >= U32 then None
    else if !fetched then Some(s)
    else Some(s.(active := s.view, attempts := 0, emitted := s.emitted + [s.view]))
  }

  /**
   * Build from the fetched log and enqueue. The signature collection refuses any epoch but active + 1,
   * whatever epoch the log turns out to carry.
   */
  function StepSubmit(s: State, epoch: uint32, enqueued: bool): (r: Option<State>) {
    if !Current(s) then None
    else if epoch != Target(s) || !enqueued then Some(s.(attempts := s.attempts + 1))
    else
      var u := Update(s.nextID, epoch);
      Some(s.(phase := Awaiting(u), attempts := s.attempts + 1, queued := s.queued + {u}, nextID := s.nextID + 1))
  }

  /** The stored result of the awaited action: status 1 advances, anything else goes back to polling. */
  function StepConfirm(s: State, accepted: bool): (r: Option<State>) {
    if !s.phase.Awaiting? || s.phase.update !in (if accepted then s.applied else s.refused) then None
    else if !accepted then Some(s.(phase := Polling))
    else
      var epoch := s.phase.update.epoch;
      Some(s.(active := epoch, phase := Polling, attempts := 0, emitted := s.emitted + [epoch]))
  }

  function Run(s: State, events: seq<Event>): (r: Option<State>)
    decreases |events|
  {
    if events == [] then Some(s)
    else
      var next := Step(s, events[0]);
      if next.None? then None else Run(next.value, events[1..])
  }

  // ---------------------------------------------------------------- lockstep

  /** Nothing deliverable is beyond the next epoch, and a positive answer means the node has got there. */
  ghost predicate Lockstep(s: State) {
    && s.active <= s.node <= s.active + 1
    && s.view <= s.node
    && (forall u :: u in s.queued ==> u.epoch <= s.active + 1 && u.id < s.nextID)
    && (forall u :: u in s.applied ==> u.epoch <= s.node && u.id < s.nextID)
    && (s.phase.Awaiting? ==> s.phase.update.epoch == Target(s) && s.phase.update.id < s.nextID
                              && (s.phase.update.epoch == 0 ==> s.phase.update !in s.applied))
    && (forall u :: u in s.applied ==> u.epoch > 0)
    && Gapless(s)
  }

  /** The epochs emitted since the last restart are origin + 1, origin + 2, ... up to the active one. */
  ghost predicate Gapless(s: State) {
    && s.active == s.origin + |s.emitted|
    && (forall k :: 0 <= k < |s.emitted| ==> s.emitted[k] == s.origin + 1 + k)
  }

  lemma RestartLockstep(s: State)
    requires Lockstep(s) && StepRestart(s).Some?
    ensures Lockstep(StepRestart(s).value)
  {
  }

  lemma DeliverLockstep(s: State, u: Update, accepts: bool)
    requires Lockstep(s) && StepDeliver(s, u, accepts).Some?
    ensures Lockstep(StepDeliver(s, u, accepts).value)
  {
    hide Gapless;
    StillGapless(s, StepDeliver(s, u, accepts).value);
  }

  lemma StillGapless(s: State, s': State)
    requires Gapless(s) && s'.active == s.active && s'.origin == s.origin && s'.emitted == s.emitted
    ensures Gapless(s')
  {
  }

  lemma EmitGapless(s: State, s': State)
    requires Gapless(s) && s'.active == s.active + 1 && s'.origin == s.origin && s'.emitted == s.emitted + [s'.active]
    ensures Gapless(s')
  {
  }

  lemma ReconcileLockstep(s: State, fetched: bool)
    requires Lockstep(s) && StepReconcile(s, fetched).Some?
    ensures Lockstep(StepReconcile(s, fetched).value)
  {
    hide Gapless;
    if fetched { EmitGapless(s, StepReconcile(s, fetched).value); }
  }

  lemma SubmitLockstep(s: State, epoch: uint32, enqueued: bool)
    requires Lockstep(s) && StepSubmit(s, epoch, enqueued).Some?
    ensures Lockstep(StepSubmit(s, epoch, enqueued).value)
  {
    hide Gapless;
    StillGapless(s, StepSubmit(s, epoch, enqueued).value);
  }

  lemma ConfirmLockstep(s: State, accepted: bool)
    requires Lockstep(s) && StepConfirm(s, accepted).Some?
    ensures Lockstep(StepConfirm(s, accepted).value)
  {
    hide Gapless;
    var s' := StepConfirm(s, accepted).value;
    if accepted {
      assert s.phase.update in s.applied;
      assert s.phase.update.epoch == s.active + 1;
      EmitGapless(s, s');
    } else {
      StillGapless(s, s');
    }
  }

  /** The steps that leave the active epoch and the emitted list alone. */
  lemma QuietLockstep(s: State, e: Event)
    requires Lockstep(s) && Step(s, e).Some? && (e.Refresh? || e.Drop? || e.Idle? || e.BuildFailed? || e.AwaitFailed?)
    ensures Lockstep(Step(s, e).value)
  {
    hide Gapless;
    StillGapless(s, Step(s, e).value);
  }

  lemma StepLockstep(s: State, e: Event)
    requires Lockstep(s) && Step(s, e).Some?
    ensures Lockstep(Step(s, e).value)
  {
    hide Lockstep, StepRestart, StepDeliver, StepReconcile, StepSubmit, StepConfirm;
    match e
    case Restart => RestartLockstep(s);
    case Deliver(u, accepts) => DeliverLockstep(s, u, accepts);
    case Reconcile(fetched) => ReconcileLockstep(s, fetched);
    case Submit(epoch, enqueued) => SubmitLockstep(s, epoch, enqueued);
    case Confirm(accepted) => ConfirmLockstep(s, accepted);
    case Refresh(_) => QuietLockstep(s, e);
    case Drop(_) => QuietLockstep(s, e);
    case Idle => QuietLockstep(s, e);
    case BuildFailed => QuietLockstep(s, e);
    case AwaitFailed => QuietLockstep(s, e);
  }

  lemma {:induction false} RunLockstep(s: State, events: seq<Event>)
    requires Lockstep(s) && Run(s, events).Some?
    ensures Lockstep(Run(s, events).value)
    decreases |events|
  {
    if events != [] {
      StepLockstep(s, events[0]);
      RunLockstep(Step(s, events[0]).value, events[1..]);
    }
  }

  /** What may be queued at a restart: actions with known IDs, for epochs the node could still apply. */
  ghost predicate Leftovers(lastID: uint32, queued: set<Update>, nextID: nat) {
    forall u :: u in queued ==> u.epoch <= lastID + 1 && u.id < nextID
  }

  /** s is on a run after some restart. */
  ghost predicate Reachable(s: State) {
    exists lastID, queued, nextID, events ::
      Leftovers(lastID, queued, nextID) && Run(Start(lastID, queued, nextID), events) == Some(s)
  }

  lemma {:induction false} RunJoin(s: State, a: seq<Event>, b: seq<Event>)
    requires Run(s, a).Some?
    ensures Run(s, a + b) == Run(Run(s, a).value, b)
    decreases |a|
  {
    hide Step;
    if a == [] {
      assert a + b == b;
    } else {
      assert (a + b)[1..] == a[1..] + b;
      RunJoin(Step(s, a[0]).value, a[1..], b);
    }
  }

  lemma StaysReachable(s: State, events: seq<Event>)
    requires Reachable(s) && Run(s, events).Some?
    ensures Reachable(Run(s, events).value)
  {
    hide Run, Leftovers;
    var lastID, queued, nextID, before :|
      Leftovers(lastID, queued, nextID) && Run(Start(lastID, queued, nextID), before) == Some(s);
    RunJoin(Start(lastID, queued, nextID), before, events);
  }

  lemma ReachableLockstep(s: State)
    requires Reachable(s)
    ensures Lockstep(s)
  {
    var lastID, queued, nextID, events :|
      Leftovers(lastID, queued, nextID) && Run(Start(lastID, queued, nextID), events) == Some(s);
    RunLockstep(Start(lastID, queued, nextID), events);
  }

  /**
   * After a restart at the node's epoch, with any leftover actions for epochs the node could still apply, the
   * proxy and the node stay within one epoch of each other on every run, and the update loop emits every
   * epoch exactly once, in order.
   */
  lemma ProxyAndNodeInLockstep(lastID: uint32, queued: set<Update>, nextID: nat, events: seq<Event>)
    requires Leftovers(lastID, queued, nextID)
    requires Run(Start(lastID, queued, nextID), events).Some?
    ensures var s := Run(Start(lastID, queued, nextID), events).value;
            && s.active <= s.node <= s.active + 1
            && s.active == s.origin + |s.emitted|
            && (forall k :: 0 <= k < |s.emitted| ==> s.emitted[k] == s.origin + 1 + k)
  {
    RunLockstep(Start(lastID, queued, nextID), events);
  }

  /** Every reconcile that adopts a policy advances by exactly one epoch, to the one the node has applied. */
  lemma ReconcileAdvancesByOne(s: State, fetched: bool)
    requires Lockstep(s) && StepReconcile(s, fetched).Some?
    ensures var s' := StepReconcile(s, fetched).value;
            if fetched then s'.active == s.active + 1 == s.node else s' == s
  {
  }

  /** A confirmation advances by exactly one epoch, to the one the node has applied; a rejection changes nothing. */
  lemma ConfirmAdvancesByOne(s: State, accepted: bool)
    requires Lockstep(s) && StepConfirm(s, accepted).Some?
    ensures var s' := StepConfirm(s, accepted).value;
            if accepted then s'.active == s.active + 1 == s.node && s'.emitted == s.emitted + [s'.active]
            else s'.active == s.active && s'.emitted == s.emitted
  {
  }

  // ---------------------------------------------------------------- progress

  /**
   * The pipeline is never wedged: from every state of every run, whatever was lost or refused, the loop, the node and
   * the network can go on without a restart so that the next epoch is adopted and emitted. If the node is ahead, its
   * epoch is adopted; otherwise a new update is submitted, applied and confirmed.
   */
  lemma NeverWedged(s: State) returns (events: seq<Event>)
    requires Reachable(s) && s.active + 1 < U32
    ensures Restart !in events && Run(s, events).Some?
    ensures var s' := Run(s, events).value;
            s'.active == s.active + 1 == s'.node && s'.emitted == s.emitted + [s.active + 1] && s'.phase.Polling?
  {
    ReachableLockstep(s);
    hide Reachable, Gapless;
    var back := if s.phase.Awaiting? then [AwaitFailed] else [];
    var s1 := s.(phase := Polling);
    assert Run(s, back) == Some(s1) by { if s.phase.Awaiting? { RunOne(s, AwaitFailed); } }
    var rest;
    if s.node > s.active {
      rest := AdoptsNode(s1);
    } else {
      rest := Submits(s1);
    }
    RunJoin(s, back, rest);
    events := back + rest;
  }

  /** Neither epoch ever goes back, restarts included; so at the largest uint32 there is nothing left to advance to. */
  lemma {:induction false} EpochsNeverGoBack(s: State, events: seq<Event>)
    requires Lockstep(s) && Run(s, events).Some?
    ensures var s' := Run(s, events).value;
            s.active <= s'.active && s.node <= s'.node && (s.active == U32 - 1 ==> s'.active == s.active)
    decreases |events|
  {
    if events != [] {
      StepLockstep(s, events[0]);
      EpochsNeverGoBack(Step(s, events[0]).value, events[1..]);
    }
  }

  lemma AdoptsNode(s: State) returns (events: seq<Event>)
    requires s.phase.Polling? && s.node == s.active + 1 < U32
    ensures Restart !in events && Run(s, events).Some?
    ensures var s' := Run(s, events).value;
            s'.active == s.node == s'.node && s'.emitted == s.emitted + [s.node] && s'.phase.Polling?
  {
    var refresh, adopt := Refresh(s.node), Reconcile(true);
    RunOne(s, refresh);
    RunJoin(s, [refresh], [adopt]);
    RunOne(Step(s, refresh).value, adopt);
    events := [refresh] + [adopt];
  }

  lemma Submits(s: State) returns (events: seq<Event>)
    requires s.phase.Polling? && s.node == s.active && s.active + 1 < U32
    ensures Restart !in events && Run(s, events).Some?
    ensures var s' := Run(s, events).value;
            && s'.active == s.active + 1 == s'.node && s'.emitted == s.emitted + [s.active + 1] && s'.phase.Polling?
  {
    var update := Update(s.nextID, s.active + 1);
    var refresh, submit, deliver := Refresh(s.node), Event.Submit(s.active + 1, true), Deliver(update, true);
    var s1 := Step(s, refresh).value;
    var s2 := Step(s1, submit).value;
    var s3 := Step(s2, deliver).value;
    RunOne(s, refresh);
    RunOne(s1, submit);
    RunOne(s2, deliver);
    RunOne(s3, Confirm(true));
    RunJoin(s2, [deliver], [Confirm(true)]);
    RunJoin(s1, [submit], [deliver] + [Confirm(true)]);
    RunJoin(s, [refresh], [submit] + ([deliver] + [Confirm(true)]));
    events := [refresh] + ([submit] + ([deliver] + [Confirm(true)]));
  }

  /**
   * The loop submits only while it awaits nothing and does not see the node ahead, and then awaits an answer iff the
   * policy is the next one and was enqueued. The update is a new one: no answer to an older one can be taken for its.
   */
  lemma SubmitVerdict(s: State, epoch: uint32, enqueued: bool)
    requires Reachable(s)
    ensures var next := Step(s, Event.Submit(epoch, enqueued));
            && (next.Some? <==> s.phase.Polling? && s.view <= s.active)
            && (next.Some? ==>
                  && (next.value.phase.Awaiting? <==> enqueued && epoch == (s.active + 1) % 0x1_0000_0000)
                  && (next.value.phase.Awaiting? ==>
                        var u := next.value.phase.update;
                        u.epoch == epoch && u !in s.queued && u !in s.applied && u in next.value.queued))
  {
    ReachableLockstep(s);
    hide Reachable;
  }

  /** A refused update advances nothing: the answer sends the loop back to polling, where it may try again. */
  lemma RefusalGoesBack(s: State)
    requires s.phase.Awaiting? && s.phase.update in s.queued
    ensures var end := Run(s, [Deliver(s.phase.update, false)] + [Confirm(false)]);
            end.Some? && end.value.phase.Polling? && LoopOf(end.value) == LoopOf(s) && end.value.node == s.node
  {
    var refuse := Deliver(s.phase.update, false);
    RunOne(s, refuse);
    RunJoin(s, [refuse], [Confirm(false)]);
    RunOne(Step(s, refuse).value, Confirm(false));
  }

  /** Attempts at the current target, on the events alone: builds and submissions since the last advance or restart. */
  function Tries(before: nat, events: seq<Event>): (r: nat)
    decreases |events|
  {
    if events == [] then before
    else
      var e := events[0];
      Tries(if e in {Restart, Reconcile(true), Confirm(true)} then 0
            else if e.Submit? || e.BuildFailed? then before + 1 else before, events[1..])
  }

  lemma {:induction false} AttemptsCounted(s: State, events: seq<Event>)
    requires Run(s, events).Some?
    ensures Run(s, events).value.attempts == Tries(s.attempts, events)
    decreases |events|
  {
    if events != [] { AttemptsCounted(Step(s, events[0]).value, events[1..]); }
  }

  /** After a restart the loop's attempt counter is the number of tries at the current target. */
  lemma AttemptsSinceAdvance(lastID: uint32, queued: set<Update>, nextID: nat, events: seq<Event>)
    requires Run(Start(lastID, queued, nextID), events).Some?
    ensures Run(Start(lastID, queued, nextID), events).value.attempts == Tries(0, events)
  {
    AttemptsCounted(Start(lastID, queued, nextID), events);
  }

  // ---------------------------------------------------------------- the loop itself

  /** What one pass of the update loop learns: the node's epoch and how far it gets. */
  datatype Pass = Pass(
    nodeID: uint32, reconciled: bool, onChain: bool,
    built: Option<uint32>, enqueued: bool, answer: Option<nat>)

  /** The loop's own variables, with the channel it emits on. */
  datatype Loop = Loop(active: uint32, attempts: nat, emitted: seq<uint32>)

  function LoopOf(s: State): (r: Loop) {
    Loop(s.active, s.attempts, s.emitted)
  }

  /** One pass, from the top of the loop to its next continue. */
  function Passed(l: Loop, p: Pass): (r: Loop) {
    var target := (l.active + 1) % U32;
    if p.nodeID > l.active then
      if p.reconciled then Loop(p.nodeID, 0, l.emitted + [p.nodeID]) else l
    else if !p.onChain then l
    else if p.built == Some(target) && p.enqueued && p.answer == Some(1) then Loop(target, 0, l.emitted + [target])
    else l.(attempts := l.attempts + 1)
  }

  /** Steps of the node and the network, which a pass waits for without touching the loop's variables. */
  predicate Outside(e: Event) {
    e.Refresh? || e.Deliver? || e.Drop?
  }

  ghost predicate AllOutside(events: seq<Event>) {
    forall e :: e in events ==> Outside(e)
  }

  lemma {:induction false} OutsideKeepsLoop(s: State, events: seq<Event>)
    requires Run(s, events).Some? && AllOutside(events)
    ensures var s' := Run(s, events).value; LoopOf(s') == LoopOf(s) && s'.phase == s.phase
    decreases |events|
  {
    if events != [] {
      assert Outside(events[0]);
      OutsideKeepsLoop(Step(s, events[0]).value, events[1..]);
    }
  }

  /** The events a pass consists of: what the loop does before waiting, and what it does with the outcome. */
  function FirstEvent(s: State, p: Pass): (e: Event) {
    if p.nodeID > s.active then Reconcile(p.reconciled)
    else if !p.onChain then Idle
    else if p.built.None? then BuildFailed
    else Event.Submit(p.built.value, p.enqueued)
  }

  function LastEvent(p: Pass): (e: Event) {
    if p.answer.None? then AwaitFailed else Confirm(p.answer == Some(1))
  }

  /** The steps of a pass; `between` is what the network and the node do while it awaits an answer. */
  function PassEvents(s: State, p: Pass, between: seq<Event>): (r: seq<Event>) {
    var first := Step(s, FirstEvent(s, p));
    if first.Some? && first.value.phase.Awaiting? then [FirstEvent(s, p)] + between + [LastEvent(p)]
    else [FirstEvent(s, p)]
  }

  /**
   * A pass of the loop that has just looked at the node's epoch is a run of the protocol, and the run does to the
   * loop's variables what the pass does. The only passes that are no run are those that take an answer, 1 or
   * another status, that the node has not given.
   */
  lemma PassIsSteps(s: State, p: Pass, between: seq<Event>)
    requires s.phase.Polling? && s.view == p.nodeID && AllOutside(between)
    ensures var first := Step(s, FirstEvent(s, p));
            && first.Some?
            && (first.value.phase.Polling? ==> Run(s, PassEvents(s, p, between)) == first)
            && (first.value.phase.Awaiting? && Run(first.value, between).Some? ==>
                  var s2, u := Run(first.value, between).value, first.value.phase.update;
                  (Run(s, PassEvents(s, p, between)).Some? <==>
                     p.answer.None? || u in (if p.answer == Some(1) then s2.applied else s2.refused)))
    ensures var end := Run(s, PassEvents(s, p, between));
            end.Some? ==> end.value.phase.Polling? && LoopOf(end.value) == Passed(LoopOf(s), p)
  {
    var first := Step(s, FirstEvent(s, p));
    RunOne(s, FirstEvent(s, p));
    if first.value.phase.Awaiting? {
      RunJoin(s, [FirstEvent(s, p)], between + [LastEvent(p)]);
      assert [FirstEvent(s, p)] + between + [LastEvent(p)] == [FirstEvent(s, p)] + (between + [LastEvent(p)]);
      if Run(first.value, between).Some? {
        RunJoin(first.value, between, [LastEvent(p)]);
        OutsideKeepsLoop(first.value, between);
        RunOne(Run(first.value, between).value, LastEvent(p));
      } else {
        RunFails(first.value, between, [LastEvent(p)]);
      }
    }
  }

  lemma RunOne(s: State, e: Event)
    ensures Run(s, [e]) == Step(s, e)
  {
    if Step(s, e).Some? { assert Run(Step(s, e).value, [e][1..]) == Step(s, e); }
  }

  lemma {:induction false} RunFails(s: State, a: seq<Event>, b: seq<Event>)
    requires Run(s, a).None?
    ensures Run(s, a + b).None?
    decreases |a|
  {
    hide Step;
    assert (a + b)[0] == a[0] && (a + b)[1..] == a[1..] + b;
    if Step(s, a[0]).Some? { RunFails(Step(s, a[0]).value, a[1..], b); }
  }

  /** The update loop as an object, on a run of the protocol after a restart. */
  class UpdateLoop {
    var active: uint32
    var attempts: nat
    var emitted: seq<uint32>
    ghost var state: State

    function Value(): (l: Loop)
      reads this
    {
      Loop(active, attempts, emitted)
    }

    ghost predicate Valid()
      reads this
    {
      Reachable(state) && state.phase.Polling? && LoopOf(state) == Value()
    }

    constructor (lastID: uint32, ghost queued: set<Update>, ghost nextID: nat)
      requires Leftovers(lastID, queued, nextID)
      ensures Valid() && state == Start(lastID, queued, nextID)
    {
      active, attempts, emitted := lastID, 0, [];
      state := Start(lastID, queued, nextID);
      new;
      assert Run(state, []) == Some(state);
    }

    /** The node and the network between two passes; the loop sees the node's epoch only through a refresh. */
    ghost method Elsewhere(events: seq<Event>)
      requires Valid() && AllOutside(events) && Run(state, events).Some?
      modifies this`state
      ensures Valid() && Some(state) == Run(old(state), events)
    {
      hide Reachable, Run;
      OutsideKeepsLoop(state, events);
      StaysReachable(state, events);
      state := Run(state, events).value;
    }

    /** UpdatePolicyAction: the signature collection refuses every epoch but the next. */
    method BuildAction(fetched: Option<uint32>) returns (policy: Option<uint32>)
      ensures policy == if fetched == Some((active + 1) % U32) then fetched else None
    {
      if fetched.Some? && fetched.value != (active + 1) % U32 {
        return None;
      }
      return fetched;
    }

    /** One pass of the loop, with the events around it: a run of the protocol, after which lockstep still holds. */
    method Iterate(p: Pass, ghost between: seq<Event>)
      requires Valid() && state.view == p.nodeID && AllOutside(between)
      requires Run(state, PassEvents(state, p, between)).Some?
      modifies this
      ensures Valid() && Some(state) == Run(old(state), PassEvents(old(state), p, between))
      ensures Value() == Passed(old(Value()), p)
      ensures active <= state.node <= active + 1
    {
      hide Reachable, Run, PassEvents, AllOutside, Lockstep;
      PassIsSteps(state, p, between);
      StaysReachable(state, PassEvents(state, p, between));
      state := Run(state, PassEvents(state, p, between)).value;
      InLockstep(state);
      if p.nodeID > active {
        if !p.reconciled {
          return;
        }
        active := p.nodeID;
        attempts := 0;
        emitted := emitted + [active];
        return;
      }
      if !p.onChain {
        return;
      }
      attempts := attempts + 1;
      var policy := BuildAction(p.built);
      if policy.None? || !p.enqueued || p.answer.None? || p.answer.value != 1 {
        return;
      }
      active := policy.value;
      attempts := 0;
      emitted := emitted + [active];
    }
  }

  lemma InLockstep(s: State)
    requires Reachable(s)
    ensures s.active <= s.node <= s.active + 1
  {
    hide Reachable;
    ReachableLockstep(s);
  }
}
