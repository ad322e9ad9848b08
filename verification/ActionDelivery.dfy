/** What holds of every run of the action queues: conservation, bounded redelivery, stored bodies, delivery order. */
module ActionDelivery {
  import opened Foundations
  import opened ActionQueue

  // ---------------------------------------------------------------- conservation

  function Length(qs: Queues): (r: nat) { |qs.main| + |qs.direct| + |qs.backup| }

  function Size(s: State): (r: nat) {
    Length(s.queues) + |s.flights| + |s.delivered| + |s.exhausted| + |s.lost| + |s.orphaned|
  }

  lemma LengthWith(qs: Queues, n: Name, q: seq<Ticket>)
    ensures Length(With(qs, n, q)) == Length(qs) - |At(qs, n)| + |q|
  {
  }

  lemma TakeOff(flights: map<nat, Flight>, id: nat)
    requires id in flights
    ensures |flights - {id}| == |flights| - 1
  {
    assert (flights - {id}).Keys == flights.Keys - {id};
  }

  lemma Reload(flights: map<nat, Flight>, id: nat, f: Flight)
    ensures |flights[id := f]| == |flights| + Bit(id !in flights)
  {
    assert flights[id := f].Keys == flights.Keys + {id};
  }

  lemma PopSize(s: State, n: Name)
    requires Conserved(s) && At(s.queues, n) != []
    ensures Size(PopID(s, n)) == Size(s) && PopID(s, n).enqueued == s.enqueued
  {
    hide Length, Conserved;
    var q := At(s.queues, n);
    OnlyQueued(s, n, |q| - 1);
    LengthWith(s.queues, n, q[..|q| - 1]);
    Reload(s.flights, q[|q| - 1].id, Flight(q[|q| - 1], n, None));
  }

  lemma FetchSize(s: State, id: nat, ok: bool)
    requires Conserved(s) && id in s.flights && id in s.offers
    ensures Size(FetchBody(s, id, ok)) == Size(s) && FetchBody(s, id, ok).enqueued == s.enqueued
  {
    hide Length, Conserved, Queued;
    OnlyInFlight(s, id);
    TakeOff(s.flights, id);
    var f := s.flights[id];
    if ok && f.ticket.key in s.actions {
      Reload(s.flights, id, f.(body := Some(s.actions[f.ticket.key])));
    }
  }

  lemma RestoreSize(s: State, id: nat, ok: bool)
    requires Conserved(s) && id in s.flights
    ensures Size(RestoreDelivery(s, id, ok)) == Size(s) && RestoreDelivery(s, id, ok).enqueued == s.enqueued
  {
    hide Length, Conserved, Queued;
    OnlyInFlight(s, id);
    TakeOff(s.flights, id);
    var f := s.flights[id];
    LengthWith(s.queues, f.queue, At(s.queues, f.queue) + [f.ticket.(attempt := NextAttempt(f.ticket))]);
  }

  lemma PushSize(s: State, id: nat)
    requires id in s.storing && id in s.bodyOf && id !in s.enqueued
    ensures Size(PushID(s, id, true)) == Size(s) + 1 && |PushID(s, id, true).enqueued| == |s.enqueued| + 1
  {
    hide Length;
    var n := s.storing[id];
    LengthWith(s.queues, n, [Ticket(id, s.pushes, s.bodyOf[id].key, 0)] + At(s.queues, n));
  }

  lemma SettleSize(s: State, e: Event)
    requires Conserved(s) && (e.Commit? || e.Abandon?) && Step(s, e).Some?
    ensures Size(Step(s, e).value) == Size(s) && Step(s, e).value.enqueued == s.enqueued
  {
    hide Conserved, Queued, Length;
    OnlyInFlight(s, e.id);
    TakeOff(s.flights, e.id);
  }

  lemma SizeStep(s: State, e: Event)
    requires Inv(s) && Step(s, e).Some?
    ensures Size(Step(s, e).value) - Size(s) == |Step(s, e).value.enqueued| - |s.enqueued|
  {
    hide Conserved, QueueFine, FlightFine, Queued, Length, PopID, FetchBody, RestoreDelivery;
    match e
    case Push(id, ok) => if ok { PushSize(s, id); }
    case Pop(n) => PopSize(s, n);
    case Fetch(id, ok) => FetchSize(s, id, ok);
    case Commit(id, ok) => SettleSize(s, e);
    case Restore(id, ok) => RestoreSize(s, id, ok);
    case Abandon(id) => SettleSize(s, e);
    case Write(_, _) =>
    case Expire(_) =>
  }

  /**
   * Entries enqueued = queued + in flight + delivered + given up + orphaned, and each entry is in exactly one of
   * these places, once.
   */
  lemma {:induction false} EntriesConserved(events: seq<Event>)
    requires Run(events).Some?
    ensures var s := Run(events).value;
            && |s.enqueued| == Size(s)
            && (forall id :: Copies(s, id) == Bit(id in s.enqueued))
  {
    hide Copies, Step;
    RunInv(events);
    if events != [] {
      EntriesConserved(events[..|events| - 1]);
      RunInv(events[..|events| - 1]);
      SizeStep(Run(events[..|events| - 1]).value, events[|events| - 1]);
    }
  }

  // ---------------------------------------------------------------- bounded redelivery

  /**
   * An entry is offered at most five times. While queued, it has been offered exactly as often as its attempt
   * counter says, fewer than five times; it is given up as exhausted only after the fifth offer.
   */
  lemma OffersBounded(events: seq<Event>, id: nat)
    requires Run(events).Some? && id in Run(events).value.enqueued
    ensures var s := Run(events).value;
            && id in s.offers && s.offers[id] <= 5
            && (id in s.exhausted ==> s.offers[id] == 5)
            && (forall n, i :: 0 <= i < |At(s.queues, n)| && At(s.queues, n)[i].id == id
                  ==> s.offers[id] == At(s.queues, n)[i].attempt < 5)
  {
    RunInv(events);
    var s := Run(events).value;
    forall n, i | 0 <= i < |At(s.queues, n)| ensures TicketFine(s, At(s.queues, n)[i], 0) {
      assert QueueFine(s, n);
    }
  }

  // ---------------------------------------------------------------- runs under a rule

  /**
   * KeepBodies: no event replaces or removes the stored body of a live entry that is not the event's own.
   * OwnKeys, a special case: no enqueue under the key of a live entry, and no live entry's body expires.
   * OneAtATime: no poll of a queue with an entry in flight.
   * OldestBack: an entry is requeued only if it is older than the one next in line.
   */
  datatype Rule = KeepBodies | OwnKeys | OneAtATime | OldestBack

  /** Being stored, queued or in flight. */
  predicate Live(s: State, id: nat) {
    id in s.storing || id in s.flights || Queued(s.queues, id) > 0
  }

  ghost predicate KeyFree(s: State, key: Key) {
    forall id :: Live(s, id) && id in s.bodyOf ==> s.bodyOf[id].key != key
  }

  /** No other live entry has the key of this delivery. */
  ghost predicate SoleUser(s: State, id: nat)
    requires id in s.flights
  {
    forall k :: Live(s, k) && k != id && k in s.bodyOf ==> s.bodyOf[k].key != s.flights[id].ticket.key
  }

  predicate Exhausts(s: State, id: nat)
    requires id in s.flights
  {
    NextAttempt(s.flights[id].ticket) >= MAX_DELIVERY_ATTEMPTS
  }

  ghost predicate Allowed(rule: Rule, s: State, e: Event) {
    match rule
    case KeepBodies =>
      (match e
       case Write(a, _) => forall id :: Live(s, id) && id in s.bodyOf && s.bodyOf[id].key == a.key ==> s.bodyOf[id] == a
       case Expire(key) => KeyFree(s, key)
       case Commit(id, ok) => ok && id in s.flights ==> SoleUser(s, id)
       case Restore(id, ok) => ok && id in s.flights && Exhausts(s, id) ==> SoleUser(s, id)
       case _ => true)
    case OwnKeys => (e.Write? ==> KeyFree(s, e.action.key)) && (e.Expire? ==> KeyFree(s, e.key))
    case OneAtATime => e.Pop? ==> forall id :: id in s.flights ==> s.flights[id].queue != e.queue
    case OldestBack =>
      e.Restore? && e.ok && e.id in s.flights && !Exhausts(s, e.id) ==>
        NextIsYounger(At(s.queues, s.flights[e.id].queue), s.flights[e.id].ticket)
  }

  ghost predicate Obeys(rule: Rule, events: seq<Event>) {
    events == [] ||
    var n := |events| - 1;
    Obeys(rule, events[..n]) && Run(events[..n]).Some? && Allowed(rule, Run(events[..n]).value, events[n])
  }

  // ---------------------------------------------------------------- bodies

  ghost predicate HasBody(s: State, id: nat) {
    id in s.bodyOf && s.bodyOf[id].key in s.actions && s.actions[s.bodyOf[id].key] == s.bodyOf[id]
  }

  /** Every entry being stored, queued or in flight has its own body in the action store. */
  ghost predicate BodiesStored(s: State) {
    forall id :: Live(s, id) ==> HasBody(s, id)
  }

  /** Only a write makes an entry live. */
  lemma LiveStep(s: State, e: Event, k: nat)
    requires Inv(s) && Step(s, e).Some? && Live(Step(s, e).value, k)
    ensures Live(s, k) || (e.Write? && k == s.next)
  {
    hide QueueFine, FlightFine, Conserved, Queued;
    match e
    case Push(id, ok) => if ok { PushCopies(s, id, k); }
    case Pop(n) => PopCopies(s, n, k);
    case Restore(id, ok) => Aboard(s, id); RestoreCopies(s, id, ok, k);
    case Fetch(id, ok) =>
    case Commit(id, ok) =>
    case Abandon(id) =>
    case Write(_, _) =>
    case Expire(_) =>
  }

  lemma NoLongerLive(s: State, id: nat)
    requires Inv(s) && id in s.flights
    ensures id !in s.storing && Queued(s.queues, id) == 0
  {
    hide QueueFine, FlightFine, Conserved, Queued;
    OnlyInFlight(s, id);
  }

  lemma KeyInFlight(s: State, id: nat)
    requires Inv(s) && id in s.flights
    ensures id in s.bodyOf && s.bodyOf[id].key == s.flights[id].ticket.key && s.flights[id].ticket.id == id
  {
    assert FlightFine(s, id);
  }

  lemma LiveBelowNext(s: State, id: nat)
    requires Inv(s) && Live(s, id)
    ensures id != s.next
  {
    hide QueueFine, FlightFine, Conserved, Queued;
    if id in s.flights { OnlyInFlight(s, id); }
    if Queued(s.queues, id) > 0 { QueuedOnce(s, id); }
  }

  lemma QueuedOnce(s: State, id: nat)
    requires Conserved(s) && Queued(s.queues, id) > 0
    ensures id in s.enqueued
  {
    hide Queued;
    assert Copies(s, id) == Bit(id in s.enqueued);
  }

  /** What a step does to the action store. */
  lemma StoreStep(s: State, e: Event)
    requires Step(s, e).Some?
    ensures var s' := Step(s, e).value;
            && s'.actions == (match e
                              case Write(a, _) => s.actions[a.key := a]
                              case Expire(key) => s.actions - {key}
                              case Commit(id, ok) => Without(s.actions, s.flights[id].ticket.key, ok)
                              case Restore(id, ok) =>
                                if Exhausts(s, id) then Without(s.actions, s.flights[id].ticket.key, ok) else s.actions
                              case _ => s.actions)
            && s'.bodyOf == (if e.Write? then s.bodyOf[s.next := e.action] else s.bodyOf)
  {
    hide At, With, Without;
  }

  /** A rule-abiding step keeps the body of every entry that is still live. */
  lemma BodyStep(s: State, e: Event, k: nat)
    requires Inv(s) && Step(s, e).Some? && Allowed(KeepBodies, s, e) && BodiesStored(s) && Live(Step(s, e).value, k)
    ensures HasBody(Step(s, e).value, k)
  {
    hide Inv, Step, Queued;
    LiveStep(s, e, k);
    StoreStep(s, e);
    if Live(s, k) { LiveBelowNext(s, k); }
    if e.Commit? || e.Restore? { Leaves(s, e, k); }
  }

  /** A delivery that is committed, or given up as exhausted, is no longer live. */
  lemma Leaves(s: State, e: Event, k: nat)
    requires Inv(s) && Step(s, e).Some? && Live(Step(s, e).value, k) && (e.Commit? || e.Restore?)
    ensures e.id in s.flights && (k == e.id ==> e.Restore? && !Exhausts(s, e.id) && e.ok)
  {
    hide QueueFine, FlightFine, Conserved, Queued;
    NoLongerLive(s, e.id);
  }

  /** An entry in flight under another ID stays live when this one is settled. */
  lemma OtherStaysLive(s: State, e: Event, k: nat)
    requires Step(s, e).Some? && Live(s, k)
    requires || (e.Write? && k != s.next) || e.Expire? || (e.Commit? && k != e.id)
             || (e.Restore? && k != e.id && Exhausts(s, e.id))
    ensures Live(Step(s, e).value, k)
  {
    hide Queued;
  }

  /** A step that leaves every live entry its body must have kept to the rule. */
  lemma BodiesNeedRule(s: State, e: Event)
    requires Inv(s) && Step(s, e).Some? && BodiesStored(Step(s, e).value)
    ensures Allowed(KeepBodies, s, e)
  {
    hide Inv, Step, Queued, Live;
    var s' := Step(s, e).value;
    StoreStep(s, e);
    forall id | Live(s, id) && id in s.bodyOf
      ensures e.Write? && s.bodyOf[id].key == e.action.key ==> s.bodyOf[id] == e.action
      ensures e.Expire? ==> s.bodyOf[id].key != e.key
      ensures e.Commit? && e.ok && e.id in s.flights && id != e.id ==> s.bodyOf[id].key != s.flights[e.id].ticket.key
      ensures e.Restore? && e.ok && e.id in s.flights && Exhausts(s, e.id) && id != e.id ==>
                s.bodyOf[id].key != s.flights[e.id].ticket.key
    {
      LiveBelowNext(s, id);
      InFlightFirst(s, e);
      if e.Write? || e.Expire? || (e.Commit? && id != e.id) || (e.Restore? && id != e.id && Exhausts(s, e.id)) {
        OtherStaysLive(s, e, id);
        assert HasBody(s', id);
      }
    }
  }

  lemma InFlightFirst(s: State, e: Event)
    requires Step(s, e).Some?
    ensures e.Commit? || e.Restore? ==> e.id in s.flights
  {
  }

  /** In every state along the run each live entry has its body. */
  ghost predicate AlwaysStored(events: seq<Event>)
    requires Run(events).Some?
  {
    BodiesStored(Run(events).value) && (events == [] || AlwaysStored(events[..|events| - 1]))
  }

  /**
   * Every live entry has its body stored in every state of a run exactly if every event keeps to the rule: no write
   * puts another body under a live entry's key, no live entry's key expires, and no commit, and no removal on the
   * fifth attempt, takes the body of another live entry with it.
   */
  lemma {:induction false} BodiesStoredIff(events: seq<Event>)
    requires Run(events).Some?
    ensures AlwaysStored(events) <==> Obeys(KeepBodies, events)
  {
    hide Inv, Step, Allowed, HasBody;
    if events != [] {
      var before, e := events[..|events| - 1], events[|events| - 1];
      BodiesStoredIff(before);
      RunInv(before);
      var s, s' := Run(before).value, Run(events).value;
      if AlwaysStored(events) { BodiesNeedRule(s, e); }
      if Obeys(KeepBodies, events) {
        forall k | Live(s', k) ensures HasBody(s', k) { BodyStep(s, e, k); }
      }
    } else {
      NothingLive();
    }
  }

  lemma NothingLive()
    ensures BodiesStored(EMPTY)
  {
  }

  /** On such a run a fetch that Redis answers always yields the action that was enqueued. */
  lemma FetchFindsOwnBody(events: seq<Event>, id: nat)
    requires Run(events).Some? && Obeys(KeepBodies, events)
    ensures var s := Run(events).value;
            && (Live(s, id) ==> HasBody(s, id))
            && (Step(s, Fetch(id, true)).Some? ==>
                  var s' := Step(s, Fetch(id, true)).value;
                  id in s'.flights && id in s.bodyOf && s'.flights[id].body == Some(s.bodyOf[id]))
  {
    hide QueueFine, FlightFine, Conserved, Queued, Obeys;
    BodiesStoredIff(events);
    RunInv(events);
    if id in Run(events).value.flights { KeyInFlight(Run(events).value, id); }
  }

  ghost predicate DistinctKeys(s: State) {
    forall a, b :: Live(s, a) && Live(s, b) && a != b && a in s.bodyOf && b in s.bodyOf ==>
      s.bodyOf[a].key != s.bodyOf[b].key
  }

  lemma DistinctStep(s: State, e: Event)
    requires Inv(s) && Step(s, e).Some? && Allowed(OwnKeys, s, e) && DistinctKeys(s)
    ensures DistinctKeys(Step(s, e).value) && Allowed(KeepBodies, s, e)
  {
    hide Inv, Step, Live;
    var s' := Step(s, e).value;
    StoreStep(s, e);
    forall a, b | Live(s', a) && Live(s', b) && a != b && a in s'.bodyOf && b in s'.bodyOf
      ensures s'.bodyOf[a].key != s'.bodyOf[b].key
    {
      LiveStep(s, e, a);
      LiveStep(s, e, b);
      if Live(s, a) { LiveBelowNext(s, a); }
      if Live(s, b) { LiveBelowNext(s, b); }
    }
    InFlightFirst(s, e);
    if e.Commit? || e.Restore? { FlightLive(s, e.id); }
  }

  lemma FlightLive(s: State, id: nat)
    requires Inv(s) && id in s.flights
    ensures Live(s, id) && id in s.bodyOf && s.bodyOf[id].key == s.flights[id].ticket.key
  {
    KeyInFlight(s, id);
  }

  /** The special case: runs whose live entries have distinct keys and never lose a body to expiry keep to the rule. */
  lemma {:induction false} OwnKeysSuffice(events: seq<Event>)
    requires Run(events).Some? && Obeys(OwnKeys, events)
    ensures Obeys(KeepBodies, events) && DistinctKeys(Run(events).value)
  {
    hide Inv, Step, Allowed, Live;
    if events != [] {
      var before := events[..|events| - 1];
      OwnKeysSuffice(before);
      RunInv(before);
      DistinctStep(Run(before).value, events[|events| - 1]);
    } else {
      assert forall id :: !Live(EMPTY, id) by { NothingLiveAtStart(); }
    }
  }

  lemma NothingLiveAtStart()
    ensures forall id :: !Live(EMPTY, id)
  {
  }

  // ---------------------------------------------------------------- two entries, one key

  /** Both are enqueued before the first is polled. */
  function EnqueueBoth(a: Body, b: Body, n: Name): (events: seq<Event>) {
    [Write(a, n), Push(0, true), Write(b, n), Push(1, true)]
  }

  lemma EnqueueBothRun(a: Body, b: Body, n: Name)
    ensures Run(EnqueueBoth(a, b, n)).Some?
    ensures var s := Run(EnqueueBoth(a, b, n)).value;
            && At(s.queues, n) == [Ticket(1, 1, b.key, 0), Ticket(0, 0, a.key, 0)]
            && s.flights == map[] && s.offers == map[0 := 0, 1 := 0]
            && s.actions == map[a.key := a][b.key := b]
  {
    hide Queued;
    var e := EnqueueBoth(a, b, n);
    assert e[..0] == [] && e[..0] + [e[0]] == e[..1] && e[..1] + [e[1]] == e[..2];
    assert e[..2] + [e[2]] == e[..3] && e[..3] + [e[3]] == e;
    RunSnoc(e[..0], e[0]);
    RunSnoc(e[..1], e[1]);
    var s2 := Run(e[..2]).value;
    assert At(s2.queues, n) == [Ticket(0, 0, a.key, 0)] && s2.next == 1 && s2.pushes == 1;
    assert s2.actions == map[a.key := a] && s2.flights == map[] && s2.offers == map[0 := 0];
    RunSnoc(e[..2], e[2]);
    RunSnoc(e[..3], e[3]);
  }

  function PollFirst(a: Body, b: Body, n: Name): (events: seq<Event>) {
    EnqueueBoth(a, b, n) + [Pop(n)] + [Fetch(0, true)]
  }

  /** The first entry is delivered and committed, then the second is polled. */
  function PollThenCommit(a: Body, b: Body, n: Name): (events: seq<Event>) {
    PollFirst(a, b, n) + [Commit(0, true)] + [Pop(n)] + [Fetch(1, true)]
  }

  lemma PollFirstRun(a: Body, b: Body, n: Name)
    ensures Run(PollFirst(a, b, n)).Some?
    ensures var s := Run(PollFirst(a, b, n)).value;
            && At(s.queues, n) == [Ticket(1, 1, b.key, 0)] && s.offers.Keys == {0, 1}
            && s.actions == map[a.key := a][b.key := b]
            && s.flights == map[0 := Flight(Ticket(0, 0, a.key, 0), n, Some(if a.key == b.key then b else a))]
  {
    hide Queued;
    EnqueueBothRun(a, b, n);
    var e := EnqueueBoth(a, b, n);
    RunSnoc(e, Pop(n));
    RunSnoc(e + [Pop(n)], Fetch(0, true));
  }

  /**
   * Against the rule: the first entry is delivered with the body of the second, and committing it orphans the
   * second. Of two live entries with one key the node gets one action, the later one.
   */
  lemma SharedKeyOrphans(a: Body, b: Body, n: Name)
    requires a.key == b.key
    ensures var polled := Run(PollFirst(a, b, n));
            polled.Some? && 0 in polled.value.flights && polled.value.flights[0].body == Some(b)
    ensures var end := Run(PollThenCommit(a, b, n));
            end.Some? && 0 in end.value.delivered && 1 in end.value.orphaned
  {
    hide Queued, PollFirst;
    PollFirstRun(a, b, n);
    var e := PollFirst(a, b, n);
    RunSnoc(e, Commit(0, true));
    RunSnoc(e + [Commit(0, true)], Pop(n));
    RunSnoc(e + [Commit(0, true)] + [Pop(n)], Fetch(1, true));
  }

  // ---------------------------------------------------------------- delivery order

  /** The queue reads from the newest push to the oldest. */
  ghost predicate InOrder(q: seq<Ticket>) {
    forall i, j :: 0 <= i < j < |q| ==> q[i].rank > q[j].rank
  }

  ghost predicate OlderThan(t: Ticket, q: seq<Ticket>) {
    forall i :: 0 <= i < |q| ==> q[i].rank > t.rank
  }

  ghost predicate Fifo(s: State) {
    && (forall n :: InOrder(At(s.queues, n)))
    && (forall id :: id in s.flights ==> OlderThan(s.flights[id].ticket, At(s.queues, s.flights[id].queue)))
    && (forall a, b :: a in s.flights && b in s.flights && a != b ==> s.flights[a].queue != s.flights[b].queue)
  }

  /** The queue is empty or the entry at its dequeue end is younger than t. */
  predicate NextIsYounger(q: seq<Ticket>, t: Ticket) {
    q == [] || t.rank < q[|q| - 1].rank
  }

  /** A requeue keeps the order exactly when the entry is older than the one next in line. */
  lemma RequeueKeepsOrderIff(q: seq<Ticket>, t: Ticket)
    requires InOrder(q)
    ensures InOrder(q + [t]) <==> NextIsYounger(q, t)
  {
    if q != [] && InOrder(q + [t]) {
      assert (q + [t])[|q| - 1].rank > (q + [t])[|q|].rank;
    }
  }

  /** Two entries of one queue polled before either is settled. */
  function PollBoth(a: Body, b: Body, n: Name): (events: seq<Event>) {
    PollFirst(a, b, n) + [Pop(n)] + [Fetch(1, true)]
  }

  lemma PollBothRun(a: Body, b: Body, n: Name)
    requires a.key != b.key
    ensures Run(PollBoth(a, b, n)).Some?
    ensures var s := Run(PollBoth(a, b, n)).value;
            && At(s.queues, n) == []
            && InFlightOn(s, Ticket(0, 0, a.key, 0), n) && InFlightOn(s, Ticket(1, 1, b.key, 0), n)
  {
    hide Queued, PollFirst;
    PollFirstRun(a, b, n);
    var e := PollFirst(a, b, n);
    RunSnoc(e, Pop(n));
    RunSnoc(e + [Pop(n)], Fetch(1, true));
  }

  /** So with two deliveries outstanding the order survives only if the younger is restored first. */
  lemma TwoInFlight(a: Body, b: Body, n: Name)
    requires a.key != b.key
    ensures var kept := Run(PollBoth(a, b, n) + [Restore(1, true)] + [Restore(0, true)]);
            kept.Some? && At(kept.value.queues, n) == [Ticket(1, 1, b.key, 1), Ticket(0, 0, a.key, 1)]
    ensures var swapped := Run(PollBoth(a, b, n) + [Restore(0, true)] + [Restore(1, true)]);
            swapped.Some? && At(swapped.value.queues, n) == [Ticket(0, 0, a.key, 1), Ticket(1, 1, b.key, 1)]
  {
    hide Queued, PollBoth;
    PollBothRun(a, b, n);
    var e := PollBoth(a, b, n);
    RunSnoc(e, Restore(1, true));
    RunSnoc(e + [Restore(1, true)], Restore(0, true));
    RunSnoc(e, Restore(0, true));
    RunSnoc(e + [Restore(0, true)], Restore(1, true));
  }

  lemma PushOrder(s: State, id: nat, n: Name)
    requires Inv(s) && id in s.storing && id in s.bodyOf && InOrder(At(s.queues, n))
    ensures InOrder(At(PushID(s, id, true).queues, n))
  {
    hide Conserved, Numbered, FlightFine;
    var q := At(s.queues, n);
    assert QueueFine(s, n);
    assert forall i :: 0 <= i < |q| ==> q[i].rank < s.pushes;
  }

  /** All queues read from the newest push to the oldest. */
  ghost predicate Ordered(s: State) {
    forall n :: InOrder(At(s.queues, n))
  }

  lemma RestoreOrderIff(s: State, id: nat, ok: bool)
    requires Ordered(s) && id in s.flights
    ensures Ordered(RestoreDelivery(s, id, ok)) <==>
              (ok && !Exhausts(s, id) ==> NextIsYounger(At(s.queues, s.flights[id].queue), s.flights[id].ticket))
  {
    var f, s' := s.flights[id], RestoreDelivery(s, id, ok);
    var q, back := At(s.queues, f.queue), f.ticket.(attempt := NextAttempt(f.ticket));
    assert InOrder(q);
    RequeueKeepsOrderIff(q, back);
    if ok && !Exhausts(s, id) {
      assert At(s'.queues, f.queue) == q + [back];
    } else {
      assert s'.queues == s.queues;
    }
  }

  lemma PopOrder(s: State, n: Name)
    requires Ordered(s) && At(s.queues, n) != []
    ensures Ordered(PopID(s, n))
  {
    assert InOrder(At(s.queues, n));
  }

  /** A step from ordered queues leaves them ordered exactly if it keeps to the rule. */
  lemma OrderStepIff(s: State, e: Event)
    requires Inv(s) && Step(s, e).Some? && Ordered(s)
    ensures Ordered(Step(s, e).value) <==> Allowed(OldestBack, s, e)
  {
    hide QueueFine, FlightFine, Conserved, Numbered, InOrder, RestoreDelivery, PopID;
    match e
    case Push(id, ok) => if ok { forall n ensures InOrder(At(PushID(s, id, true).queues, n)) { PushOrder(s, id, n); } }
    case Restore(id, ok) => RestoreOrderIff(s, id, ok);
    case Pop(n) => PopOrder(s, n);
    case Fetch(_, _) =>
    case Commit(_, _) =>
    case Abandon(_) =>
    case Write(_, _) =>
    case Expire(_) =>
  }

  /** In every state along the run the queues are in order. */
  ghost predicate AlwaysOrdered(events: seq<Event>)
    requires Run(events).Some?
  {
    Ordered(Run(events).value) && (events == [] || AlwaysOrdered(events[..|events| - 1]))
  }

  /**
   * The queues keep the order of pushes all along a run exactly if every requeue is of an entry older than the one
   * next in line.
   */
  lemma {:induction false} RestoreKeepsOrderIff(events: seq<Event>)
    requires Run(events).Some?
    ensures AlwaysOrdered(events) <==> Obeys(OldestBack, events)
  {
    hide Inv, Step, Allowed, Ordered;
    if events != [] {
      var before := events[..|events| - 1];
      RestoreKeepsOrderIff(before);
      RunInv(before);
      if Ordered(Run(before).value) { OrderStepIff(Run(before).value, events[|events| - 1]); }
      if Obeys(OldestBack, events) { assert Ordered(Run(before).value); }
    } else {
      StartsOrdered();
    }
  }

  lemma StartsOrdered()
    ensures Ordered(EMPTY)
  {
    forall n ensures InOrder(At(EMPTY.queues, n)) { assert At(EMPTY.queues, n) == []; }
  }

  lemma FifoAllows(s: State, e: Event)
    requires Fifo(s)
    ensures Allowed(OldestBack, s, e)
  {
    if e.Restore? && e.id in s.flights {
      assert OlderThan(s.flights[e.id].ticket, At(s.queues, s.flights[e.id].queue));
    }
  }

  lemma PushOlder(s: State, id: nat, t: Ticket, n: Name)
    requires id in s.storing && id in s.bodyOf && t.rank < s.pushes && OlderThan(t, At(s.queues, n))
    ensures OlderThan(t, At(PushID(s, id, true).queues, n))
  {
  }

  lemma PopOlder(s: State, n: Name, k: nat)
    requires At(s.queues, n) != [] && Fifo(s) && k in PopID(s, n).flights
    ensures var s' := PopID(s, n); OlderThan(s'.flights[k].ticket, At(s'.queues, s'.flights[k].queue))
  {
    assert InOrder(At(s.queues, n));
    if k in s.flights { assert OlderThan(s.flights[k].ticket, At(s.queues, s.flights[k].queue)); }
  }

  lemma FlightOrderStep(s: State, e: Event, k: nat)
    requires Inv(s) && Step(s, e).Some? && Fifo(s) && k in Step(s, e).value.flights
    ensures var s' := Step(s, e).value; OlderThan(s'.flights[k].ticket, At(s'.queues, s'.flights[k].queue))
  {
    hide QueueFine, Conserved, Numbered, OlderThan, InOrder, Queued, PushID, PopID;
    if e.Pop? {
      PopOlder(s, e.queue, k);
    } else if e.Push? {
      PushKeepsFlights(s, e.id, e.ok);
      assert FlightFine(s, k);
      if e.ok { PushOlder(s, e.id, s.flights[k].ticket, s.flights[k].queue); }
    } else if e.Restore? {
      assert s.flights[e.id].queue != s.flights[k].queue;
    }
  }

  lemma PushKeepsFlights(s: State, id: nat, ok: bool)
    requires id in s.storing && id in s.bodyOf
    ensures PushID(s, id, ok).flights == s.flights && (!ok ==> PushID(s, id, ok).queues == s.queues)
  {
  }

  lemma ApartStep(s: State, e: Event, a: nat, b: nat)
    requires Inv(s) && Step(s, e).Some? && Fifo(s) && Allowed(OneAtATime, s, e)
    requires a in Step(s, e).value.flights && b in Step(s, e).value.flights && a != b
    ensures Step(s, e).value.flights[a].queue != Step(s, e).value.flights[b].queue
  {
    hide QueueFine, FlightFine, Conserved, Numbered, InOrder, OlderThan, Queued;
  }

  lemma {:induction false} RunFifo(events: seq<Event>)
    requires Run(events).Some? && Obeys(OneAtATime, events)
    ensures Fifo(Run(events).value)
  {
    if events != [] {
      hide QueueFine, FlightFine, Conserved, Numbered, Step, InOrder, OlderThan, Allowed;
      var before, e := events[..|events| - 1], events[|events| - 1];
      RunFifo(before);
      RunInv(before);
      var s, s' := Run(before).value, Run(events).value;
      FifoAllows(s, e);
      OrderStepIff(s, e);
      assert Ordered(s');
      forall k | k in s'.flights ensures OlderThan(s'.flights[k].ticket, At(s'.queues, s'.flights[k].queue)) {
        FlightOrderStep(s, e, k);
      }
      forall a, b | a in s'.flights && b in s'.flights && a != b ensures s'.flights[a].queue != s'.flights[b].queue {
        ApartStep(s, e, a, b);
      }
    } else {
      assert forall n :: At(EMPTY.queues, n) == [];
    }
  }

  /**
   * With one delivery outstanding per queue, every poll takes the oldest entry of its queue that is not settled:
   * a failed delivery is retried before anything enqueued after it.
   */
  lemma OldestFirst(events: seq<Event>, n: Name)
    requires Run(events).Some? && Obeys(OneAtATime, events)
    ensures var s := Run(events).value;
            var q := At(s.queues, n);
            && (forall i :: 0 <= i < |q| - 1 ==> q[|q| - 1].rank < q[i].rank)
            && (forall id :: id in s.flights && s.flights[id].queue == n ==> OlderThan(s.flights[id].ticket, q))
  {
    hide OlderThan;
    RunFifo(events);
    assert InOrder(At(Run(events).value.queues, n));
  }

  // ---------------------------------------------------------------- a restore undoes its pop

  /** Neither a poll of queue n nor a restore to it. */
  predicate Quiet(s: State, e: Event, n: Name) {
    match e
    case Pop(m) => m != n
    case Restore(id, _) => id !in s.flights || s.flights[id].queue != n
    case _ => true
  }

  ghost predicate QuietRun(s: State, events: seq<Event>, n: Name) {
    events == [] ||
    var k := |events| - 1;
    QuietRun(s, events[..k], n) && RunOn(s, events[..k]).Some? && Quiet(RunOn(s, events[..k]).value, events[k], n)
  }

  /** What q becomes by pushes alone. */
  ghost predicate Extends(q: seq<Ticket>, q': seq<Ticket>) {
    |q| <= |q'| && q'[|q'| - |q|..] == q
  }

  lemma PushExtends(s: State, id: nat, ok: bool, n: Name)
    requires id in s.storing && id in s.bodyOf
    ensures Extends(At(s.queues, n), At(PushID(s, id, ok).queues, n))
  {
    var q, q' := At(s.queues, n), At(PushID(s, id, ok).queues, n);
    if ok && n == s.storing[id] {
      assert q'[1..] == q;
    } else {
      assert q' == q && q'[0..] == q;
    }
  }

  /** Any other quiet step leaves the queue as it is. */
  lemma QuietKeeps(s: State, e: Event, n: Name)
    requires Step(s, e).Some? && Quiet(s, e, n) && !e.Push?
    ensures At(Step(s, e).value.queues, n) == At(s.queues, n)
  {
    hide Without;
  }

  lemma QuietStep(s: State, e: Event, n: Name)
    requires Step(s, e).Some? && Quiet(s, e, n)
    ensures Extends(At(s.queues, n), At(Step(s, e).value.queues, n))
  {
    hide At, PushID, PopID, FetchBody, CommitDelivery, RestoreDelivery, WriteBody;
    if e.Push? {
      PushExtends(s, e.id, e.ok, n);
    } else {
      QuietKeeps(s, e, n);
    }
  }

  lemma {:induction false} QuietExtends(s: State, events: seq<Event>, n: Name)
    requires RunOn(s, events).Some? && QuietRun(s, events, n)
    ensures Extends(At(s.queues, n), At(RunOn(s, events).value.queues, n))
  {
    hide Step, Quiet;
    if events != [] {
      var before := events[..|events| - 1];
      QuietExtends(s, before, n);
      QuietStep(RunOn(s, before).value, events[|events| - 1], n);
      var a, b, c := At(s.queues, n), At(RunOn(s, before).value.queues, n), At(RunOn(s, events).value.queues, n);
      assert c[|c| - |a|..] == c[|c| - |b|..][|b| - |a|..];
    }
  }

  lemma ExtendsSnoc(q: seq<Ticket>, q': seq<Ticket>, t: Ticket)
    requires Extends(q, q')
    ensures Extends(q + [t], q' + [t])
  {
    assert (q' + [t])[|q'| - |q|..] == q'[|q'| - |q|..] + [t];
  }

  /** The entry at the dequeue end. */
  function NextInLine(q: seq<Ticket>): (r: Ticket)
    requires q != []
  {
    q[|q| - 1]
  }

  ghost predicate InFlightOn(s: State, t: Ticket, n: Name) {
    t.id in s.flights && s.flights[t.id].ticket == t && s.flights[t.id].queue == n && s.flights[t.id].body.Some?
  }

  /**
   * With one delivery outstanding, a restore leaves the order unchanged: whatever the other handlers do and
   * however much is enqueued meanwhile, the queue ends with what it held before the poll, the restored entry last
   * again with one more attempt.
   */
  lemma RestoreUndoesPop(s: State, n: Name, events: seq<Event>, mid: State)
    requires At(s.queues, n) != []
    requires RunOn(PopID(s, n), events) == Some(mid) && QuietRun(PopID(s, n), events, n)
    requires InFlightOn(mid, NextInLine(At(s.queues, n)), n)
    requires NextInLine(At(s.queues, n)).attempt + 1 < MAX_DELIVERY_ATTEMPTS
    ensures var q := At(s.queues, n);
            var t := NextInLine(q);
            Extends(q[..|q| - 1] + [t.(attempt := t.attempt + 1)], At(RestoreDelivery(mid, t.id, true).queues, n))
  {
    hide RunOn, QuietRun, Extends;
    QuietExtends(PopID(s, n), events, n);
    var t := NextInLine(At(s.queues, n));
    ExtendsSnoc(At(PopID(s, n).queues, n), At(mid.queues, n), t.(attempt := t.attempt + 1));
  }
}
