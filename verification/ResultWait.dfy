/**
 * Waiting for a result: any number of WaitOnResponse calls (fetch, subscribe, fetch again, receive) against any
 * number of StoreResponse calls (set, publish), one step per Redis operation.
 */
module ResultWait {
  import opened Foundations
  import opened ResultStore

  type Key = ActionQueue.Key

  datatype Phase =
    | Arrived
    | Subscribing
    | Rechecking
    | Receiving
    | Concluding
    | Done(answer: Option<Response>)

  /**
   * One call. subscribed: its subscription is active. pending: messages in it. missed: a publish for its key failed
   * since it subscribed. overlooked: Redis failed its re-check when the result was already stored and published.
   */
  datatype Waiter =
    Waiter(key: Key, phase: Phase, subscribed: bool, pending: nat, missed: bool, overlooked: bool)

  /** publishing: the key of the StoreResponse call, if any, that holds mu between its set and its publish. */
  datatype State = State(
    store: map<Key, Response>,
    publishing: Option<Key>,
    waiters: map<nat, Waiter>,
    written: set<Response>,
    expired: set<Key>)

  const START := State(map[], None, map[], {}, {})

  /** ok is whether Redis answers; a fetch it does not answer is treated by the code like a missing result. */
  datatype Event =
    | Arrive(w: nat, key: Key)
    | FastFetch(w: nat, ok: bool)
    | Subscribe(w: nat, ok: bool)
    | Recheck(w: nat, ok: bool)
    | Receive(w: nat)
    | Cancel(w: nat)
    | LastFetch(w: nat, ok: bool)
    | Set(response: Response)
    | Publish(ok: bool)
    | Expire(key: Key)

  function Fetch(s: State, k: Key, ok: bool): (r: Option<Response>) {
    if ok then Lookup(s.store, k) else None
  }

  /** A fetch that returns the result ends the call; otherwise it goes on to the next phase. */
  function Fetched(s: State, w: Waiter, ok: bool, otherwise: Phase): (r: Waiter) {
    var found := Fetch(s, w.key, ok);
    w.(phase := if found.Some? then Done(found) else otherwise)
  }

  function Notified(w: Waiter, k: Key, ok: bool): (r: Waiter) {
    if w.subscribed && w.key == k then (if ok then w.(pending := w.pending + 1) else w.(missed := true)) else w
  }

  /** The result is stored, and no message for it is in the subscription or about to be published. */
  predicate TooLate(s: State, w: Waiter) {
    w.key in s.store && w.pending == 0 && s.publishing != Some(w.key)
  }

  predicate At(s: State, w: nat, p: Phase) {
    w in s.waiters && s.waiters[w].phase == p
  }

  function Put(s: State, w: nat, v: Waiter): (r: State) {
    s.(waiters := s.waiters[w := v])
  }

  function Step(s: State, e: Event): (r: Option<State>) {
    match e
    case Arrive(w, k) =>
      if w !in s.waiters then Some(Put(s, w, Waiter(k, Arrived, false, 0, false, false))) else None
    case FastFetch(w, ok) =>
      if At(s, w, Arrived) then Some(Put(s, w, Fetched(s, s.waiters[w], ok, Subscribing))) else None
    case Subscribe(w, ok) =>
      if !At(s, w, Subscribing) then None
      else if ok then Some(Put(s, w, s.waiters[w].(phase := Rechecking, subscribed := true)))
      else Some(Put(s, w, s.waiters[w].(phase := Concluding)))
    case Recheck(w, ok) =>
      if !At(s, w, Rechecking) then None
      else
        var late := !ok && TooLate(s, s.waiters[w]);
        Some(Put(s, w, Fetched(s, s.waiters[w], ok, Receiving).(overlooked := s.waiters[w].overlooked || late)))
    case Receive(w) =>
      if At(s, w, Receiving) && s.waiters[w].pending > 0
      then Some(Put(s, w, s.waiters[w].(phase := Concluding, pending := s.waiters[w].pending - 1))) else None
    case Cancel(w) =>
      if At(s, w, Receiving) then Some(Put(s, w, s.waiters[w].(phase := Concluding))) else None
    case LastFetch(w, ok) =>
      if At(s, w, Concluding) then Some(Put(s, w, Fetched(s, s.waiters[w], ok, Done(None)))) else None
    case Set(r) =>
      if s.publishing.None? && Accepts(Lookup(s.store, r.key), r)
      then Some(s.(store := s.store[r.key := r], publishing := Some(r.key), written := s.written + {r})) else None
    case Publish(ok) =>
      if s.publishing.None? then None
      else Some(s.(publishing := None,
                   waiters := map w | w in s.waiters :: Notified(s.waiters[w], s.publishing.value, ok)))
    case Expire(k) => Some(s.(store := s.store - {k}, expired := s.expired + {k}))
  }

  function Run(events: seq<Event>): (r: Option<State>) {
    if events == [] then Some(START)
    else
      var before := Run(events[..|events| - 1]);
      if before.None? then None else Step(before.value, events[|events| - 1])
  }

  // ---------------------------------------------------------------- no lost wake-up

  /** Nothing will wake this call: its result is stored, but no message is there or about to be sent. */
  predicate Stranded(s: State, w: Waiter) {
    w.phase == Receiving && TooLate(s, w)
  }

  ghost predicate Awaited(s: State, w: Waiter) {
    && (w.phase in {Rechecking, Receiving} ==> w.subscribed)
    && (Stranded(s, w) ==> w.missed || w.overlooked)
    && ((w.missed || w.overlooked) && w.key !in s.expired ==> w.key in s.store)
  }

  ghost predicate AllAwaited(s: State) {
    && (s.publishing.Some? && s.publishing.value !in s.expired ==> s.publishing.value in s.store)
    && (forall w :: w in s.waiters ==> Awaited(s, s.waiters[w]))
  }

  lemma AwaitedStep(s: State, e: Event, k: nat)
    requires Step(s, e).Some? && k in Step(s, e).value.waiters && AllAwaited(s)
    ensures Awaited(Step(s, e).value, Step(s, e).value.waiters[k])
  {
    if k in s.waiters { assert Awaited(s, s.waiters[k]); }
  }

  lemma {:induction false} RunAwaited(events: seq<Event>)
    requires Run(events).Some?
    ensures AllAwaited(Run(events).value)
  {
    if events != [] {
      var before, e := events[..|events| - 1], events[|events| - 1];
      RunAwaited(before);
      var s, s' := Run(before).value, Run(events).value;
      forall k | k in s'.waiters ensures Awaited(s', s'.waiters[k]) {
        AwaitedStep(s, e, k);
      }
    }
  }

  /** The last of the events is a failed publish for w's key, with w's subscription active. */
  ghost predicate MissedNow(events: seq<Event>, w: nat)
    requires events != []
  {
    var n := |events| - 1;
    var s := Run(events[..n]);
    && events[n] == Publish(false)
    && s.Some? && w in s.value.waiters && s.value.waiters[w].subscribed
    && s.value.publishing == Some(s.value.waiters[w].key)
  }

  /** The last of the events is w's re-check, which Redis fails though the result is stored and already published. */
  ghost predicate OverlookedNow(events: seq<Event>, w: nat)
    requires events != []
  {
    var n := |events| - 1;
    var s := Run(events[..n]);
    && events[n] == Recheck(w, false)
    && s.Some? && w in s.value.waiters && s.value.waiters[w].key in s.value.store
    && s.value.waiters[w].pending == 0 && s.value.publishing != Some(s.value.waiters[w].key)
  }

  /** One of the two has happened to w along the run. */
  ghost predicate Hindered(events: seq<Event>, w: nat) {
    events != [] &&
    (MissedNow(events, w) || OverlookedNow(events, w) || Hindered(events[..|events| - 1], w))
  }

  /** The flags of a call record exactly what happened to it, and the set of expired keys what expired. */
  lemma {:induction false} FlagsMean(events: seq<Event>, w: nat)
    requires Run(events).Some?
    ensures var s := Run(events).value;
            && (w in s.waiters ==> (s.waiters[w].missed || s.waiters[w].overlooked <==> Hindered(events, w)))
            && (w !in s.waiters ==> !Hindered(events, w))
            && (forall k :: k in s.expired <==> Expire(k) in events)
  {
    if events != [] {
      var n := |events| - 1;
      FlagsMean(events[..n], w);
      FlagsStep(Run(events[..n]).value, events[n], w);
      assert events == events[..n] + [events[n]];
    }
  }

  lemma FlagsStep(s: State, e: Event, w: nat)
    requires Step(s, e).Some?
    ensures var s' := Step(s, e).value;
            && (w in s.waiters ==> w in s'.waiters)
            && (w in s'.waiters && w !in s.waiters ==> !s'.waiters[w].missed && !s'.waiters[w].overlooked)
            && (w in s.waiters ==>
                  var v := s.waiters[w];
                  var missing := e == Publish(false) && v.subscribed && s.publishing == Some(v.key);
                  var late :=
                    e == Recheck(w, false) && v.key in s.store && v.pending == 0 && s.publishing != Some(v.key);
                  (s'.waiters[w].missed || s'.waiters[w].overlooked <==> v.missed || v.overlooked || missing || late))
            && s'.expired == s.expired + (if e.Expire? then {e.key} else {})
  {
  }

  /**
   * No lost wake-up, on the events of any run. A call that waits with no message there or about to be published is
   * left waiting although its result is stored exactly when a publish for its key failed after it subscribed, or
   * Redis failed its re-check after the result was stored and published. The first half holds with any expiry, the
   * second unless the key itself expired.
   */
  lemma NoLostWakeUp(events: seq<Event>, w: nat)
    requires Run(events).Some? && At(Run(events).value, w, Receiving)
    requires Run(events).value.waiters[w].pending == 0
    requires Run(events).value.publishing != Some(Run(events).value.waiters[w].key)
    ensures var s := Run(events).value;
            var key := s.waiters[w].key;
            && (key in s.store ==> Hindered(events, w))
            && (Expire(key) !in events ==> (key in s.store <==> Hindered(events, w)))
  {
    RunAwaited(events);
    FlagsMean(events, w);
    assert Awaited(Run(events).value, Run(events).value.waiters[w]);
  }

  lemma {:induction false} HinderedNeeds(events: seq<Event>, w: nat)
    requires Hindered(events, w)
    ensures Publish(false) in events || Recheck(w, false) in events
  {
    var n := |events| - 1;
    assert events == events[..n] + [events[n]];
    if !MissedNow(events, w) && !OverlookedNow(events, w) { HinderedNeeds(events[..n], w); }
  }

  /** In particular a call is never stranded on a run without a failed publish and a failed re-check of its own. */
  lemma NeverStranded(events: seq<Event>, w: nat)
    requires Run(events).Some? && w in Run(events).value.waiters
    requires Publish(false) !in events && Recheck(w, false) !in events
    ensures !Stranded(Run(events).value, Run(events).value.waiters[w])
  {
    if Stranded(Run(events).value, Run(events).value.waiters[w]) {
      NoLostWakeUp(events, w);
      HinderedNeeds(events, w);
    }
  }

  /** And a call that was never hindered, and whose result is stored, can return it: message, then fetch. */
  lemma WakesUp(events: seq<Event>, w: nat)
    requires Run(events).Some? && At(Run(events).value, w, Receiving) && !Hindered(events, w)
    requires var s := Run(events).value; s.waiters[w].key in s.store && s.publishing != Some(s.waiters[w].key)
    ensures var s := Run(events).value;
            && Step(s, Receive(w)).Some?
            && Step(Step(s, Receive(w)).value, LastFetch(w, true)).Some?
            && At(Step(Step(s, Receive(w)).value, LastFetch(w, true)).value, w, Done(Some(s.store[s.waiters[w].key])))
  {
    if Run(events).value.waiters[w].pending == 0 { NoLostWakeUp(events, w); }
  }

  /** Each of the three fetches ends the call with the stored response exactly when Redis answers and there is one. */
  lemma FetchVerdict(s: State, w: nat, e: Event, ok: bool)
    requires w in s.waiters && Step(s, e).Some? && e in {FastFetch(w, ok), Recheck(w, ok), LastFetch(w, ok)}
    ensures var key, after := s.waiters[w].key, Step(s, e).value.waiters[w].phase;
            && (ok && key in s.store ==> after == Done(Some(s.store[key])))
            && (!ok || key !in s.store ==>
                  after == if e.FastFetch? then Subscribing else if e.Recheck? then Receiving else Done(None))
            && Step(s, e).value.waiters[w].key == key
  {
  }

  lemma RunSnoc(events: seq<Event>, e: Event)
    requires Run(events).Some?
    ensures Run(events + [e]) == Step(Run(events).value, e)
  {
    assert (events + [e])[..|events|] == events;
  }

  /** The last response stored under a key on these events, if none of its expiries came later. */
  function LastSet(events: seq<Event>, k: Key): (r: Option<Response>) {
    if events == [] then None
    else
      var e := events[|events| - 1];
      if e.Set? && e.response.key == k then Some(e.response)
      else if e == Expire(k) then None
      else LastSet(events[..|events| - 1], k)
  }

  /** What is stored is what was last set and has not expired since: no other step, of any call, changes the store. */
  lemma {:induction false} StoredIsLastSet(events: seq<Event>, k: Key)
    requires Run(events).Some?
    ensures var store := Run(events).value.store; if k in store then LastSet(events, k) == Some(store[k])
            else LastSet(events, k) == None
  {
    if events != [] { StoredIsLastSet(events[..|events| - 1], k); }
  }

  /** What call w does next if Redis answers its fetches and nothing else comes: a subscription fails, a wait ends. */
  function OwnStep(w: nat, p: Phase): (e: Event)
    requires !p.Done?
  {
    match p
    case Arrived => FastFetch(w, true)
    case Subscribing => Subscribe(w, false)
    case Rechecking => Recheck(w, true)
    case Receiving => Cancel(w)
    case Concluding => LastFetch(w, true)
  }

  function StepsLeft(p: Phase): (n: nat) {
    match p
    case Arrived => 3
    case Subscribing => 2
    case Rechecking => 3
    case Receiving => 2
    case Concluding => 1
    case Done(_) => 0
  }

  lemma OwnStepVerdict(s: State, w: nat)
    requires w in s.waiters && !s.waiters[w].phase.Done?
    ensures var v, t := s.waiters[w], Step(s, OwnStep(w, s.waiters[w].phase));
            && t.Some? && t.value.store == s.store && w in t.value.waiters && t.value.waiters[w].key == v.key
            && StepsLeft(t.value.waiters[w].phase) < StepsLeft(v.phase)
            && (t.value.waiters[w].phase.Done? ==> t.value.waiters[w].phase.answer == Lookup(s.store, v.key))
  {
  }

  /**
   * A call always comes back: from any state of any run at most three steps of its own, with nothing published and its
   * wait cancelled, end it with the stored response if there is one, and with an error if there is none.
   */
  lemma {:induction false} CallCanReturn(events: seq<Event>, w: nat) returns (own: seq<Event>)
    requires Run(events).Some? && w in Run(events).value.waiters
    ensures |own| <= StepsLeft(Run(events).value.waiters[w].phase)
    ensures forall e :: e in own ==> exists p: Phase :: !p.Done? && e == OwnStep(w, p)
    ensures var v, t := Run(events).value.waiters[w], Run(events + own);
            && t.Some? && t.value.store == Run(events).value.store && w in t.value.waiters
            && t.value.waiters[w].phase == if v.phase.Done? then v.phase else Done(LastSet(events, v.key))
    decreases StepsLeft(Run(events).value.waiters[w].phase)
  {
    hide Step, OwnStep, StepsLeft;
    var s := Run(events).value;
    var v := s.waiters[w];
    if v.phase.Done? {
      own := [];
      assert events + own == events;
    } else {
      var e := OwnStep(w, v.phase);
      OwnStepVerdict(s, w);
      RunSnoc(events, e);
      StoredIsLastSet(events, v.key);
      StoredIsLastSet(events + [e], v.key);
      var rest := CallCanReturn(events + [e], w);
      own := [e] + rest;
      assert events + [e] + rest == events + own;
    }
  }

  /** The result is stored and published between the fast path and the subscription. */
  function LateSubscription(r: Response): (events: seq<Event>) {
    [Arrive(0, r.key), FastFetch(0, true), Set(r), Publish(true), Subscribe(0, true)]
  }

  /** One call, whether its result is stored, and what is being published. */
  ghost predicate Looks(s: Option<State>, w: Waiter, stored: bool, publishing: Option<Key>) {
    && s.Some? && 0 in s.value.waiters && s.value.waiters[0] == w
    && (w.key in s.value.store <==> stored) && s.value.publishing == publishing && s.value.expired == {}
  }

  lemma LateSubscriptionRun(r: Response)
    ensures Looks(Run(LateSubscription(r)), Waiter(r.key, Rechecking, true, 0, false, false), true, None)
  {
    var w := Waiter(r.key, Subscribing, false, 0, false, false);
    var events := LateSubscription(r);
    forall i | 0 <= i < 5 ensures events[..i] + [events[i]] == events[..i + 1] {}
    assert events[..0] == [] && events[..5] == events;
    RunSnoc(events[..0], events[0]);
    assert Looks(Run(events[..1]), w.(phase := Arrived), false, None);
    RunSnoc(events[..1], events[1]);
    assert Looks(Run(events[..2]), w, false, None);
    RunSnoc(events[..2], events[2]);
    assert Looks(Run(events[..3]), w, true, Some(r.key));
    RunSnoc(events[..3], events[3]);
    assert Looks(Run(events[..4]), w, true, None);
    RunSnoc(events[..4], events[4]);
  }

  /**
   * The second exception is real: after a late subscription, a re-check that Redis fails strands the call, although
   * every publish succeeded and nothing expired. By NoLostWakeUp this is the only way with successful publishes.
   */
  lemma FailedRecheckStrands(r: Response)
    ensures var end := Run(LateSubscription(r) + [Recheck(0, false)]);
            end.Some? && 0 in end.value.waiters && Stranded(end.value, end.value.waiters[0])
  {
    LateSubscriptionRun(r);
    RunSnoc(LateSubscription(r), Recheck(0, false));
    NoLostWakeUp(LateSubscription(r) + [Recheck(0, false)], 0);
  }

  // ---------------------------------------------------------------- what the calls return

  ghost predicate StoreTruthful(s: State) {
    forall k :: k in s.store ==> s.store[k].key == k && s.store[k] in s.written
  }

  ghost predicate AnswerTruthful(s: State, w: Waiter) {
    w.phase.Done? && w.phase.answer.Some? ==> w.phase.answer.value.key == w.key && w.phase.answer.value in s.written
  }

  ghost predicate Truthful(s: State) {
    StoreTruthful(s) && forall w :: w in s.waiters ==> AnswerTruthful(s, s.waiters[w])
  }

  /** A final response written under a key that never expired is the stored one. */
  ghost predicate FinalsKept(s: State) {
    forall r :: r in s.written && Final(r) && r.key !in s.expired ==> r.key in s.store && s.store[r.key] == r
  }

  lemma AnswerStep(s: State, e: Event, k: nat)
    requires Step(s, e).Some? && Truthful(s) && k in Step(s, e).value.waiters
    ensures AnswerTruthful(Step(s, e).value, Step(s, e).value.waiters[k])
  {
    if k in s.waiters { assert AnswerTruthful(s, s.waiters[k]); }
  }

  lemma StoreStep(s: State, e: Event)
    requires Step(s, e).Some? && StoreTruthful(s) && FinalsKept(s)
    ensures StoreTruthful(Step(s, e).value) && FinalsKept(Step(s, e).value)
  {
  }

  lemma {:induction false} RunTruthful(events: seq<Event>)
    requires Run(events).Some?
    ensures Truthful(Run(events).value) && FinalsKept(Run(events).value)
  {
    hide Step, StoreTruthful, FinalsKept, AnswerTruthful;
    if events != [] {
      var before, e := events[..|events| - 1], events[|events| - 1];
      RunTruthful(before);
      StoreStep(Run(before).value, e);
      var s' := Run(events).value;
      forall k | k in s'.waiters ensures AnswerTruthful(s', s'.waiters[k]) {
        AnswerStep(Run(before).value, e, k);
      }
    } else {
      NothingStored();
    }
  }

  lemma NothingStored()
    ensures StoreTruthful(START) && FinalsKept(START)
  {
  }

  /**
   * A call answers only with a response stored under its own key; two calls that both answer with a final response
   * for one key, which never expired, answer the same, and it is still the stored one.
   */
  lemma FinalAnswersAgree(events: seq<Event>, a: nat, b: nat)
    requires Run(events).Some? && a in Run(events).value.waiters && b in Run(events).value.waiters
    requires var s := Run(events).value;
             var u, v := s.waiters[a], s.waiters[b];
             && u.phase.Done? && v.phase.Done? && u.phase.answer.Some? && v.phase.answer.Some?
             && u.key == v.key && u.key !in s.expired && Final(u.phase.answer.value) && Final(v.phase.answer.value)
    ensures var s := Run(events).value;
            && s.waiters[a].phase == s.waiters[b].phase
            && Lookup(s.store, s.waiters[a].key) == s.waiters[a].phase.answer
  {
    RunTruthful(events);
    var s := Run(events).value;
    assert AnswerTruthful(s, s.waiters[a]) && AnswerTruthful(s, s.waiters[b]);
  }
}
