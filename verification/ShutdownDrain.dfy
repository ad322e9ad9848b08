/**
 * Shutting the internal server down: result handlers that answer the node and store in the background, against a
 * Close that sets the draining flag, shuts the server down and waits for the background writes.
 */
module ShutdownDrain {
  import opened Foundations

  /**
   * One POST /result. Refused: the body did not decode. Storing: it found the server draining and stores before it
   * answers.
   */
  datatype Handler = Decoding | Registered | Storing | Answered | Refused

  /**
   * Running; draining set; server shut down, or its shutdown timed out; returned after the wait, or at the deadline.
   */
  datatype Closing = Open | ShuttingDown | Waiting(timedOut: bool) | Drained(timedOut: bool) | Abandoned(timedOut: bool)

  /**
   * writes: background writes registered with the wait group and not finished. stored: ProcessAndStore has finished.
   */
  datatype State = State(
    draining: bool,
    closing: Closing,
    handlers: map<nat, Handler>,
    writes: set<nat>,
    stored: set<nat>)

  const RUNNING := State(false, Open, map[], {}, {})

  datatype Event =
    | Accept(r: nat)
    | Decode(r: nat, ok: bool)
    | StoreNow(r: nat)
    | Answer(r: nat)
    | FinishWrite(r: nat)
    | StartClose
    | ShutDown
    | ShutDownTimeout
    | WaitDone
    | Deadline

  predicate Finished(h: Handler) { h.Answered? || h.Refused? }

  /** http.Server.Shutdown returns nil only when no handler is running, and nothing is accepted afterwards. */
  predicate Serving(c: Closing) { c.Open? || c.ShuttingDown? || c.timedOut }

  function Step(s: State, e: Event): (t: Option<State>) {
    match e
    case Accept(r) =>
      if r !in s.handlers && Serving(s.closing) then Some(s.(handlers := s.handlers[r := Decoding])) else None
    case Decode(r, ok) =>
      // One section under mu: read the flag, and register the write unless it is set.
      if r !in s.handlers || s.handlers[r] != Decoding then None
      else if !ok then Some(s.(handlers := s.handlers[r := Refused]))
      else if s.draining then Some(s.(handlers := s.handlers[r := Storing]))
      else Some(s.(handlers := s.handlers[r := Registered], writes := s.writes + {r}))
    case StoreNow(r) =>
      if r in s.handlers && s.handlers[r] == Storing
      then Some(s.(handlers := s.handlers[r := Answered], stored := s.stored + {r})) else None
    case Answer(r) =>
      if r in s.handlers && s.handlers[r] == Registered then Some(s.(handlers := s.handlers[r := Answered])) else None
    case FinishWrite(r) =>
      if r in s.writes then Some(s.(writes := s.writes - {r}, stored := s.stored + {r})) else None
    case StartClose => if s.closing.Open? then Some(s.(draining := true, closing := ShuttingDown)) else None
    case ShutDown =>
      if s.closing.ShuttingDown? && (forall r :: r in s.handlers ==> Finished(s.handlers[r]))
      then Some(s.(closing := Waiting(false))) else None
    case ShutDownTimeout => if s.closing.ShuttingDown? then Some(s.(closing := Waiting(true))) else None
    case WaitDone =>
      if s.closing.Waiting? && s.writes == {} then Some(s.(closing := Drained(s.closing.timedOut))) else None
    case Deadline => if s.closing.Waiting? then Some(s.(closing := Abandoned(s.closing.timedOut))) else None
  }

  function RunOn(s: State, events: seq<Event>): (t: Option<State>) {
    if events == [] then Some(s)
    else
      var before := RunOn(s, events[..|events| - 1]);
      if before.None? then None else Step(before.value, events[|events| - 1])
  }

  function Run(events: seq<Event>): (t: Option<State>) {
    RunOn(RUNNING, events)
  }

  lemma RunSnoc(events: seq<Event>, e: Event)
    requires Run(events).Some?
    ensures Run(events + [e]) == Step(Run(events).value, e)
  {
    assert (events + [e])[..|events|] == events;
  }

  ghost predicate Reachable(s: State) {
    exists events :: Run(events) == Some(s)
  }

  lemma ReachableStep(s: State, e: Event)
    requires Reachable(s) && Step(s, e).Some?
    ensures Reachable(Step(s, e).value)
  {
    var events :| Run(events) == Some(s);
    RunSnoc(events, e);
  }

  // ---------------------------------------------------------------- the invariant

  /** Which of the two ways a handler's result is on. */
  ghost predicate Tracked(s: State, r: nat)
    requires r in s.handlers
  {
    match s.handlers[r]
    case Decoding => r !in s.writes && r !in s.stored
    case Refused => r !in s.writes && r !in s.stored
    case Storing => s.draining && r !in s.writes && r !in s.stored
    case Registered => r in s.writes || r in s.stored
    case Answered => r in s.writes || r in s.stored
  }

  ghost predicate Inv(s: State) {
    && (s.draining <==> !s.closing.Open?)
    && s.writes !! s.stored && s.writes + s.stored <= s.handlers.Keys
    && (forall r :: r in s.handlers ==> Tracked(s, r))
    && (s.closing.Drained? ==> s.writes == {})
    && (!Serving(s.closing) ==> forall r :: r in s.handlers ==> Finished(s.handlers[r]))
  }

  lemma TrackedStep(s: State, e: Event, r: nat)
    requires Inv(s) && Step(s, e).Some? && r in Step(s, e).value.handlers
    ensures Tracked(Step(s, e).value, r)
  {
    if r in s.handlers { assert Tracked(s, r); }
  }

  lemma StepInv(s: State, e: Event)
    requires Inv(s) && Step(s, e).Some?
    ensures Inv(Step(s, e).value)
  {
    var t := Step(s, e).value;
    forall r | r in t.handlers ensures Tracked(t, r) { TrackedStep(s, e, r); }
    if e.Decode? || e.StoreNow? { assert Tracked(s, e.r); }
  }

  lemma {:induction false} RunInv(events: seq<Event>)
    requires Run(events).Some?
    ensures Inv(Run(events).value)
  {
    if events != [] {
      RunInv(events[..|events| - 1]);
      StepInv(Run(events[..|events| - 1]).value, events[|events| - 1]);
    }
  }

  // ---------------------------------------------------------------- the theorems

  /** Results whose handler answered the node. */
  function AnsweredResults(s: State): (a: set<nat>) {
    set r | r in s.handlers && s.handlers[r].Answered?
  }

  /** Once draining is set, no background write is registered: the set of unfinished ones only shrinks. */
  lemma {:induction false} DrainingRegistersNothing(s: State, events: seq<Event>)
    requires s.draining && RunOn(s, events).Some?
    ensures RunOn(s, events).value.draining && RunOn(s, events).value.writes <= s.writes
  {
    if events != [] { DrainingRegistersNothing(s, events[..|events| - 1]); }
  }

  /** At any time the answered results not yet stored are exactly the answered ones among the background writes. */
  lemma UnstoredAnswers(events: seq<Event>)
    requires Run(events).Some?
    ensures var s := Run(events).value; AnsweredResults(s) - s.stored == AnsweredResults(s) * s.writes
  {
    RunInv(events);
    var s := Run(events).value;
    forall r | r in AnsweredResults(s) ensures r in s.stored <==> r !in s.writes {
      assert Tracked(s, r);
    }
  }

  /**
   * When Close has returned after its wait, every result whose handler answered success, then or later, has
   * finished ProcessAndStore. This needs no assumption on Shutdown: it holds even when that one timed out.
   */
  lemma DrainedMeansStored(events: seq<Event>)
    requires Run(events).Some? && Run(events).value.closing.Drained?
    ensures var s := Run(events).value; s.writes == {} && AnsweredResults(s) <= s.stored
  {
    RunInv(events);
    UnstoredAnswers(events);
  }

  /** And when Shutdown did not time out, every request was answered and stored, or refused. */
  lemma CleanShutdown(events: seq<Event>, r: nat)
    requires Run(events).Some? && Run(events).value.closing == Drained(false) && r in Run(events).value.handlers
    ensures var s := Run(events).value;
            && Finished(s.handlers[r])
            && (s.handlers[r].Answered? <==> r in s.stored)
  {
    RunInv(events);
    assert Tracked(Run(events).value, r);
  }

  /** Background writes whose handler has registered them but not yet answered. */
  function Unanswered(s: State): (u: set<nat>) {
    set r | r in s.writes && r in s.handlers && s.handlers[r] == Registered
  }

  /**
   * At a return by deadline nothing answered is missing exactly when the wait group's counter is down to the
   * handlers that have not answered yet; when Shutdown did not time out there are none, so exactly when it is zero.
   */
  lemma DeadlineLosesIff(events: seq<Event>)
    requires Run(events).Some? && Run(events).value.closing.Abandoned?
    ensures var s := Run(events).value;
            && (AnsweredResults(s) <= s.stored <==> |s.writes| == |Unanswered(s)|)
            && (!s.closing.timedOut ==> (AnsweredResults(s) <= s.stored <==> |s.writes| == 0))
  {
    RunInv(events);
    UnstoredAnswers(events);
    var s := Run(events).value;
    var a, u := AnsweredResults(s), Unanswered(s);
    forall r | r in s.writes ensures r in u <==> r !in a {
      assert Tracked(s, r);
    }
    if a <= s.stored {
      assert forall r :: r in s.writes ==> r !in a * s.writes;
      assert u == s.writes;
    } else {
      var r :| r in a && r !in s.stored;
      assert r in a * s.writes;
      SubsetCardinality(u, s.writes - {r});
    }
    if !s.closing.timedOut { assert u == {}; }
  }

  /** One request, answered while its write is still in the background. */
  const ANSWERED_RUN: seq<Event> := [Accept(0), Decode(0, true), Answer(0)]

  lemma AnsweredRun()
    ensures Run(ANSWERED_RUN).Some?
    ensures var s := Run(ANSWERED_RUN).value; s.handlers == map[0 := Answered] && s.stored == {} && s.closing.Open?
  {
    var e := ANSWERED_RUN;
    assert e[..0] == [] && e[..0] + [e[0]] == e[..1] && e[..1] + [e[1]] == e[..2] && e[..2] + [e[2]] == e;
    RunSnoc(e[..0], e[0]);
    RunSnoc(e[..1], e[1]);
    RunSnoc(e[..2], e[2]);
  }

  /** A shutdown that returns in time but whose deadline comes before that write is done loses the answered result. */
  lemma DeadlineLoses()
    ensures var end := Run(ANSWERED_RUN + [StartClose] + [ShutDown] + [Deadline]);
            && end.Some? && end.value.closing == Abandoned(false)
            && 0 in AnsweredResults(end.value) && 0 !in end.value.stored
  {
    AnsweredRun();
    RunSnoc(ANSWERED_RUN, StartClose);
    RunSnoc(ANSWERED_RUN + [StartClose], ShutDown);
    RunSnoc(ANSWERED_RUN + [StartClose] + [ShutDown], Deadline);
  }

  // ---------------------------------------------------------------- progress

  lemma {:induction false} RunJoin(s: State, a: seq<Event>, b: seq<Event>)
    requires RunOn(s, a).Some?
    ensures RunOn(s, a + b) == RunOn(RunOn(s, a).value, b)
  {
    if b == [] {
      assert a + b == a;
    } else {
      var n := |b| - 1;
      assert (a + b)[..|a + b| - 1] == a + b[..n];
      RunJoin(s, a, b[..n]);
    }
  }

  lemma RunOne(s: State, e: Event)
    ensures RunOn(s, [e]) == Step(s, e)
  {
    assert [e][..0] == [];
  }

  lemma RunFirst(s: State, e: Event, rest: seq<Event>)
    requires Step(s, e).Some?
    ensures RunOn(s, [e] + rest) == RunOn(Step(s, e).value, rest)
  {
    RunOne(s, e);
    RunJoin(s, [e], rest);
  }

  /** How many steps request r still needs, and which is next; decodes is whether its body will decode. */
  function StepsLeft(s: State, r: nat): (n: nat)
    requires r in s.handlers
  {
    var h, write := s.handlers[r], if r in s.writes then 1 else 0;
    write + if h.Decoding? then 3 else if Finished(h) then 0 else 1
  }

  function OwnStep(s: State, r: nat, decodes: bool): (e: Event)
    requires r in s.handlers
  {
    match s.handlers[r]
    case Decoding => Decode(r, decodes)
    case Storing => StoreNow(r)
    case Registered => Answer(r)
    case _ => FinishWrite(r)
  }

  lemma OwnStepVerdict(s: State, r: nat, decodes: bool)
    requires Inv(s) && r in s.handlers && StepsLeft(s, r) > 0
    ensures var t, h := Step(s, OwnStep(s, r, decodes)), s.handlers[r];
            && t.Some? && Inv(t.value) && t.value.closing == s.closing && t.value.handlers.Keys == s.handlers.Keys
            && StepsLeft(t.value, r) < StepsLeft(s, r)
            && (forall q :: q in s.handlers && q != r ==> t.value.handlers[q] == s.handlers[q])
            && (forall q :: q != r ==> (q in t.value.writes <==> q in s.writes))
            && (h.Decoding? ==> (t.value.handlers[r].Refused? <==> !decodes) && !t.value.handlers[r].Decoding?)
            && (!h.Decoding? ==> !t.value.handlers[r].Decoding? && (t.value.handlers[r].Refused? <==> h.Refused?))
  {
    assert Tracked(s, r);
    StepInv(s, OwnStep(s, r, decodes));
    hide Inv;
  }

  /**
   * Every accepted request can be brought to its end by its own steps, whatever state the server is in: answered and
   * stored, or refused if its body does not decode, with no other request touched.
   */
  lemma {:induction false} RequestCanEnd(s: State, r: nat, decodes: bool) returns (own: seq<Event>)
    requires Inv(s) && r in s.handlers
    ensures forall e :: e in own ==> e in {Decode(r, decodes), StoreNow(r), Answer(r), FinishWrite(r)}
    ensures var t, h := RunOn(s, own), s.handlers[r];
            && t.Some? && Inv(t.value) && t.value.closing == s.closing && t.value.handlers.Keys == s.handlers.Keys
            && (forall q :: q in s.handlers && q != r ==> t.value.handlers[q] == s.handlers[q])
            && t.value.writes == s.writes - {r}
            && (if h.Refused? || (h.Decoding? && !decodes) then t.value.handlers[r].Refused? && r !in t.value.stored
                else t.value.handlers[r].Answered? && r in t.value.stored)
    decreases StepsLeft(s, r)
  {
    if StepsLeft(s, r) == 0 {
      assert Tracked(s, r);
      own := [];
    } else {
      hide Step, Inv, StepsLeft;
      var e := OwnStep(s, r, decodes);
      OwnStepVerdict(s, r, decodes);
      var rest := RequestCanEnd(Step(s, e).value, r, decodes);
      RunFirst(s, e, rest);
      own := [e] + rest;
    }
  }

  /** Requests that are unfinished or not yet stored. */
  function Busy(s: State): (b: set<nat>) {
    set r | r in s.handlers && StepsLeft(s, r) > 0
  }

  lemma {:induction false} AllCanEnd(s: State) returns (events: seq<Event>)
    requires Inv(s)
    ensures forall e :: e in events ==> e.Decode? || e.StoreNow? || e.Answer? || e.FinishWrite?
    ensures var t := RunOn(s, events);
            && t.Some? && Inv(t.value) && t.value.closing == s.closing && t.value.handlers.Keys == s.handlers.Keys
            && Busy(t.value) == {}
    decreases |Busy(s)|
  {
    events := [];
    if Busy(s) != {} {
      var r :| r in Busy(s);
      hide Inv;
      var own := RequestCanEnd(s, r, true);
      var t := RunOn(s, own).value;
      assert Busy(t) <= Busy(s) - {r};
      SubsetCardinality(Busy(t), Busy(s) - {r});
      var rest := AllCanEnd(t);
      RunJoin(s, own, rest);
      events := own + rest;
    }
  }

  /** Close with nothing left to do. */
  function CloseEvents(c: Closing, timesOut: bool): (events: seq<Event>)
    decreases c.Open?
  {
    match c
    case Open => [StartClose] + CloseEvents(ShuttingDown, timesOut)
    case ShuttingDown => [if timesOut then ShutDownTimeout else ShutDown] + [WaitDone]
    case Waiting(_) => [WaitDone]
    case _ => []
  }

  lemma IdleCanClose(s: State, timesOut: bool)
    requires Inv(s) && Busy(s) == {} && !s.closing.Abandoned?
    ensures var t := RunOn(s, CloseEvents(s.closing, timesOut));
            && t.Some? && t.value.handlers == s.handlers && t.value.stored == s.stored
            && t.value.closing == Drained(if s.closing.Open? || s.closing.ShuttingDown? then timesOut
                                          else s.closing.timedOut)
    decreases s.closing.Open?, s.closing.ShuttingDown?
  {
    forall r | r in s.handlers ensures Finished(s.handlers[r]) && r !in s.writes { assert r !in Busy(s); }
    assert s.writes == {};
    if !s.closing.Drained? {
      var events := CloseEvents(s.closing, timesOut);
      var t := Step(s, events[0]).value;
      StepInv(s, events[0]);
      RunFirst(s, events[0], CloseEvents(t.closing, timesOut));
      assert events == [events[0]] + CloseEvents(t.closing, timesOut);
      if !s.closing.Waiting? {
        assert forall r :: r in s.handlers ==> StepsLeft(t, r) == StepsLeft(s, r);
        IdleCanClose(t, timesOut);
      }
    }
  }

  /**
   * Close can always return by its wait, whether or not Shutdown times out on the way: from every state in which it has
   * not given up, and then every request accepted so far has been answered and stored, or refused.
   */
  lemma CloseCanReturn(before: seq<Event>, timesOut: bool) returns (after: seq<Event>)
    requires Run(before).Some? && !Run(before).value.closing.Abandoned?
    ensures Deadline !in after && Run(before + after).Some?
    ensures var s, t := Run(before).value, Run(before + after).value;
            && t.closing.Drained? && s.handlers.Keys == t.handlers.Keys
            && (forall r :: r in s.handlers ==> Finished(t.handlers[r]) && (t.handlers[r].Answered? <==> r in t.stored))
            && (s.closing.Open? || s.closing.ShuttingDown? ==> t.closing.timedOut == timesOut)
  {
    RunInv(before);
    var s := Run(before).value;
    var work := AllCanEnd(s);
    var s1 := RunOn(s, work).value;
    IdleCanClose(s1, timesOut);
    after := work + CloseEvents(s.closing, timesOut);
    RunJoin(s, work, CloseEvents(s.closing, timesOut));
    RunJoin(RUNNING, before, after);
    forall r | r in s.handlers ensures Finished(s1.handlers[r]) && (s1.handlers[r].Answered? <==> r in s1.stored) {
      assert r !in Busy(s1);
      assert Tracked(s1, r);
    }
  }

  // ---------------------------------------------------------------- the server object

  class Internal {
    var draining: bool
    /** The wait group's counter. */
    var resultWrites: nat
    ghost var state: State

    ghost predicate Valid()
      reads this
    {
      Reachable(state) && draining == state.draining && resultWrites == |state.writes|
    }

    constructor ()
      ensures Valid() && state == RUNNING
    {
      draining, resultWrites, state := false, 0, RUNNING;
      new;
      assert Run([]) == Some(RUNNING);
    }

    /** The server accepts a request. */
    ghost method Accepted(r: nat)
      requires Valid() && r !in state.handlers && Serving(state.closing)
      modifies this`state
      ensures Valid() && state == old(state).(handlers := old(state).handlers[r := Decoding])
    {
      ReachableStep(state, Accept(r));
      state := Step(state, Accept(r)).value;
    }

    /** Shutdown returns: nil once no handler is running, or an error at its deadline. */
    ghost method ShutdownReturns(timedOut: bool)
      requires Valid() && state.closing.ShuttingDown?
      requires !timedOut ==> forall r :: r in state.handlers ==> Finished(state.handlers[r])
      modifies this`state
      ensures Valid() && state == old(state).(closing := Waiting(timedOut))
    {
      var e := if timedOut then ShutDownTimeout else ShutDown;
      ReachableStep(state, e);
      state := Step(state, e).value;
    }

    /** resultH up to its answer, for an accepted request; decoded says whether the body decodes. */
    method ResultH(r: nat, decoded: bool) returns (answered: bool)
      requires Valid() && r in state.handlers && state.handlers[r] == Decoding
      modifies this
      ensures Valid() && answered == decoded
      ensures var s, h := old(state), if decoded then Answered else Refused;
              state == s.(handlers := s.handlers[r := h],
                          stored := if decoded && old(draining) then s.stored + {r} else s.stored,
                          writes := if decoded && !old(draining) then s.writes + {r} else s.writes)
    {
      Known(state, r);
      ReachableStep(state, Decode(r, decoded));
      ghost var s := Step(state, Decode(r, decoded)).value;
      if !decoded {
        state := s;
        return false;
      }
      if !draining {
        ReachableStep(s, Answer(r));
        state := Step(s, Answer(r)).value;
        resultWrites := resultWrites + 1;
      } else {
        ReachableStep(s, StoreNow(r));
        state := Step(s, StoreNow(r)).value;
      }
      return true;
    }

    /** The end of a background write. */
    method WriteDone(ghost r: nat)
      requires Valid() && r in state.writes
      modifies this
      ensures Valid() && draining == old(draining) && old(resultWrites) > 0 && resultWrites == old(resultWrites) - 1
      ensures state == old(state).(writes := old(state).writes - {r}, stored := old(state).stored + {r})
    {
      ReachableStep(state, FinishWrite(r));
      state := Step(state, FinishWrite(r)).value;
      resultWrites := resultWrites - 1;
    }

    /** Close's first section. */
    method StartDraining()
      requires Valid() && state.closing.Open?
      modifies this
      ensures Valid() && draining && state == old(state).(draining := true, closing := ShuttingDown)
    {
      ReachableStep(state, StartClose);
      draining := true;
      state := Step(state, StartClose).value;
    }

    /** Close's select: done is ready when the counter is zero; deadline says which ready case is taken. */
    method Await(deadline: bool) returns (returned: bool)
      requires Valid() && state.closing.Waiting?
      modifies this
      ensures Valid() && (returned <==> deadline || old(resultWrites) == 0)
      ensures returned && !deadline ==> AnsweredResults(state) <= state.stored
      ensures !returned ==> state == old(state)
    {
      if deadline {
        ReachableStep(state, Deadline);
        state := Step(state, Deadline).value;
        return true;
      }
      if resultWrites != 0 {
        return false;
      }
      assert state.writes == {};
      ReachableStep(state, WaitDone);
      state := Step(state, WaitDone).value;
      ghost var events :| Run(events) == Some(state);
      DrainedMeansStored(events);
      return true;
    }
  }

  lemma Known(s: State, r: nat)
    requires Reachable(s) && r in s.handlers && s.handlers[r] == Decoding
    ensures r !in s.writes && r !in s.stored
  {
    var events :| Run(events) == Some(s);
    RunInv(events);
    assert Tracked(s, r);
  }
}
