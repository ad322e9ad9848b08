/**
 * The three action queues as a step system: every Redis operation of Enqueue, Dequeue, Commit and Restore is one
 * step, so any number of handlers may interleave, any write may fail, and a process may stop in the middle.
 */
module ActionQueue {
  import opened Foundations

  const MAX_DELIVERY_ATTEMPTS: nat := 5

  datatype Key = Key(id: ID, tag: Tag)

  /** An action as the store holds it: the key it is stored under, and its content. */
  datatype Body = Body(key: Key, message: Bytes)

  datatype Name = Main | Direct | Backup

  /** A queue entry; id and rank identify its Enqueue call and its place in the order of pushes. */
  datatype Ticket = Ticket(id: nat, rank: nat, key: Key, attempt: nat)

  /** Left end first: Enqueue pushes at the left, Dequeue pops at the right, Restore pushes at the right. */
  datatype Queues = Queues(main: seq<Ticket>, direct: seq<Ticket>, backup: seq<Ticket>)

  /** An entry taken off its queue; body is absent until the action is fetched. */
  datatype Flight = Flight(ticket: Ticket, queue: Name, body: Option<Body>)

  /** Redis contents, the calls in progress, and what became of every entry. */
  datatype State = State(
    actions: map<Key, Body>,
    queues: Queues,
    storing: map<nat, Name>,
    flights: map<nat, Flight>,
    bodyOf: map<nat, Body>,
    offers: map<nat, nat>,
    enqueued: set<nat>,
    delivered: set<nat>,
    exhausted: set<nat>,
    lost: set<nat>,
    orphaned: set<nat>,
    next: nat,
    pushes: nat)

  const EMPTY := State(map[], Queues([], [], []), map[], map[], map[], map[], {}, {}, {}, {}, {}, 0, 0)

  datatype Event =
    | Write(action: Body, queue: Name)
    | Push(id: nat, ok: bool)
    | Pop(queue: Name)
    | Fetch(id: nat, ok: bool)
    | Commit(id: nat, ok: bool)
    | Restore(id: nat, ok: bool)
    | Abandon(id: nat)
    | Expire(key: Key)

  function At(qs: Queues, n: Name): (r: seq<Ticket>) {
    match n case Main => qs.main case Direct => qs.direct case Backup => qs.backup
  }

  function With(qs: Queues, n: Name, q: seq<Ticket>): (r: Queues)
    ensures At(r, n) == q && forall m :: m != n ==> At(r, m) == At(qs, m)
  {
    match n case Main => qs.(main := q) case Direct => qs.(direct := q) case Backup => qs.(backup := q)
  }

  function Without(actions: map<Key, Body>, key: Key, ok: bool): (r: map<Key, Body>) {
    if ok then actions - {key} else actions
  }

  // ---------------------------------------------------------------- steps

  function WriteBody(s: State, a: Body, n: Name): (r: State) {
    s.(actions := s.actions[a.key := a], storing := s.storing[s.next := n], bodyOf := s.bodyOf[s.next := a],
       next := s.next + 1)
  }

  function PushID(s: State, id: nat, ok: bool): (r: State)
    requires id in s.storing && id in s.bodyOf
  {
    if !ok then s.(storing := s.storing - {id})
    else
      var n := s.storing[id];
      s.(queues := With(s.queues, n, [Ticket(id, s.pushes, s.bodyOf[id].key, 0)] + At(s.queues, n)),
         storing := s.storing - {id}, offers := s.offers[id := 0], enqueued := s.enqueued + {id},
         pushes := s.pushes + 1)
  }

  function PopID(s: State, n: Name): (r: State)
    requires At(s.queues, n) != []
  {
    var q := At(s.queues, n);
    var t := q[|q| - 1];
    s.(queues := With(s.queues, n, q[..|q| - 1]), flights := s.flights[t.id := Flight(t, n, None)])
  }

  function FetchBody(s: State, id: nat, ok: bool): (r: State)
    requires id in s.flights && id in s.offers
  {
    var f := s.flights[id];
    if ok && f.ticket.key in s.actions then
      s.(flights := s.flights[id := f.(body := Some(s.actions[f.ticket.key]))],
         offers := s.offers[id := s.offers[id] + 1])
    else s.(flights := s.flights - {id}, orphaned := s.orphaned + {id})
  }

  function CommitDelivery(s: State, id: nat, ok: bool): (r: State)
    requires id in s.flights
  {
    s.(flights := s.flights - {id}, delivered := s.delivered + {id},
       actions := Without(s.actions, s.flights[id].ticket.key, ok))
  }

  /** The attempt counter is a uint8. */
  function NextAttempt(t: Ticket): (r: nat) { if t.attempt == 255 then 0 else t.attempt + 1 }

  function RestoreDelivery(s: State, id: nat, ok: bool): (r: State)
    requires id in s.flights
  {
    var f := s.flights[id];
    var landed := s.(flights := s.flights - {id});
    if NextAttempt(f.ticket) >= MAX_DELIVERY_ATTEMPTS then
      landed.(exhausted := s.exhausted + {id}, actions := Without(s.actions, f.ticket.key, ok))
    else if !ok then landed.(lost := s.lost + {id})
    else
      var back := f.ticket.(attempt := NextAttempt(f.ticket));
      landed.(queues := With(s.queues, f.queue, At(s.queues, f.queue) + [back]))
  }

  function Step(s: State, e: Event): (r: Option<State>) {
    match e
    case Write(a, n) => Some(WriteBody(s, a, n))
    case Push(id, ok) => if id in s.storing && id in s.bodyOf then Some(PushID(s, id, ok)) else None
    case Pop(n) => if At(s.queues, n) != [] then Some(PopID(s, n)) else None
    case Fetch(id, ok) =>
      if id in s.flights && s.flights[id].body.None? && id in s.offers then Some(FetchBody(s, id, ok)) else None
    case Commit(id, ok) => if id in s.flights && s.flights[id].body.Some? then Some(CommitDelivery(s, id, ok)) else None
    case Restore(id, ok) =>
      if id in s.flights && s.flights[id].body.Some? then Some(RestoreDelivery(s, id, ok)) else None
    case Abandon(id) =>
      if id in s.flights then Some(s.(flights := s.flights - {id}, orphaned := s.orphaned + {id})) else None
    case Expire(k) => Some(s.(actions := s.actions - {k}))
  }

  function RunOn(s: State, events: seq<Event>): (r: Option<State>) {
    if events == [] then Some(s)
    else
      var before := RunOn(s, events[..|events| - 1]);
      if before.None? then None else Step(before.value, events[|events| - 1])
  }

  function Run(events: seq<Event>): (r: Option<State>) {
    RunOn(EMPTY, events)
  }

  lemma RunSnoc(events: seq<Event>, e: Event)
    requires Run(events).Some?
    ensures Run(events + [e]) == Step(Run(events).value, e)
  {
    assert (events + [e])[..|events|] == events;
  }

  ghost predicate Reachable(s: State) {
    exists events :: Run(events) == Some(s)
  }

  lemma ReachableStep(s: State, e: Event)
    requires Reachable(s) && Step(s, e).Some?
    ensures Reachable(Step(s, e).value)
  {
    var events :| Run(events) == Some(s);
    RunSnoc(events, e);
  }

  // ---------------------------------------------------------------- conservation

  function Bit(b: bool): (r: nat) { if b then 1 else 0 }

  /** How often entry id is on the queue. */
  function Times(q: seq<Ticket>, id: nat): (r: nat) {
    if q == [] then 0 else Times(q[..|q| - 1], id) + Bit(q[|q| - 1].id == id)
  }

  function Queued(qs: Queues, id: nat): (r: nat) {
    Times(qs.main, id) + Times(qs.direct, id) + Times(qs.backup, id)
  }

  function Ended(s: State, id: nat): (r: nat) {
    Bit(id in s.delivered) + Bit(id in s.exhausted) + Bit(id in s.lost) + Bit(id in s.orphaned)
  }

  /** In how many places entry id is: on a queue, in flight, or at one of its four ends. */
  function Copies(s: State, id: nat): (r: nat) {
    Queued(s.queues, id) + Bit(id in s.flights) + Ended(s, id)
  }

  ghost predicate Conserved(s: State) {
    forall id :: Copies(s, id) == Bit(id in s.enqueued)
  }

  lemma {:induction false} TimesJoin(a: seq<Ticket>, b: seq<Ticket>, id: nat)
    ensures Times(a + b, id) == Times(a, id) + Times(b, id)
  {
    if b == [] {
      assert a + b == a;
    } else {
      var k := |b| - 1;
      assert (a + b)[..|a + b| - 1] == a + b[..k];
      TimesJoin(a, b[..k], id);
    }
  }

  lemma {:induction false} TimesHas(q: seq<Ticket>, i: nat)
    requires i < |q|
    ensures Times(q, q[i].id) >= 1
  {
    if i < |q| - 1 { TimesHas(q[..|q| - 1], i); }
  }

  lemma QueuedWith(qs: Queues, n: Name, q: seq<Ticket>, id: nat)
    ensures Queued(With(qs, n, q), id) + Times(At(qs, n), id) == Queued(qs, id) + Times(q, id)
  {
    hide Times;
  }

  // ---------------------------------------------------------------- the invariant of every run

  ghost predicate TicketFine(s: State, t: Ticket, offered: nat) {
    && t.attempt < MAX_DELIVERY_ATTEMPTS && t.rank < s.pushes
    && t.id in s.offers && s.offers[t.id] == t.attempt + offered
    && t.id in s.bodyOf && s.bodyOf[t.id].key == t.key
  }

  ghost predicate QueueFine(s: State, n: Name) {
    forall i :: 0 <= i < |At(s.queues, n)| ==> TicketFine(s, At(s.queues, n)[i], 0)
  }

  ghost predicate FlightFine(s: State, id: nat)
    requires id in s.flights
  {
    var f := s.flights[id];
    f.ticket.id == id && TicketFine(s, f.ticket, if f.body.Some? then 1 else 0)
  }

  ghost predicate Numbered(s: State) {
    && (forall id :: id in s.enqueued ==> id < s.next && id !in s.storing && id in s.offers)
    && (forall id :: id in s.storing ==> id < s.next && id in s.bodyOf)
  }

  ghost predicate Inv(s: State) {
    && Conserved(s) && Numbered(s)
    && (forall n :: QueueFine(s, n))
    && (forall id :: id in s.flights ==> FlightFine(s, id))
    && (forall id :: id in s.enqueued ==> s.offers[id] <= MAX_DELIVERY_ATTEMPTS)
    && (forall id :: id in s.exhausted ==> id in s.enqueued && s.offers[id] == MAX_DELIVERY_ATTEMPTS)
  }

  /** An entry in flight is nowhere else. */
  lemma OnlyInFlight(s: State, id: nat)
    requires Conserved(s) && id in s.flights
    ensures id in s.enqueued && Queued(s.queues, id) == 0 && Ended(s, id) == 0
  {
    hide Queued, Ended;
    assert Copies(s, id) == Bit(id in s.enqueued);
  }

  lemma OnlyQueued(s: State, n: Name, i: nat)
    requires Conserved(s) && i < |At(s.queues, n)|
    ensures var id := At(s.queues, n)[i].id; id in s.enqueued && id !in s.flights && Ended(s, id) == 0
  {
    hide Ended, Times;
    var id := At(s.queues, n)[i].id;
    TimesHas(At(s.queues, n), i);
    assert Copies(s, id) == Bit(id in s.enqueued);
  }

  lemma PushCopies(s: State, id: nat, k: nat)
    requires id in s.storing && id in s.bodyOf
    ensures Copies(PushID(s, id, true), k) == Copies(s, k) + Bit(k == id)
  {
    hide Queued;
    var n := s.storing[id];
    var t := Ticket(id, s.pushes, s.bodyOf[id].key, 0);
    QueuedWith(s.queues, n, [t] + At(s.queues, n), k);
    TimesJoin([t], At(s.queues, n), k);
  }

  lemma PopCopies(s: State, n: Name, k: nat)
    requires At(s.queues, n) != [] && Conserved(s)
    ensures Copies(PopID(s, n), k) == Copies(s, k)
  {
    hide Queued, Conserved;
    var q := At(s.queues, n);
    OnlyQueued(s, n, |q| - 1);
    QueuedWith(s.queues, n, q[..|q| - 1], k);
  }

  lemma RequeueCopies(qs: Queues, n: Name, t: Ticket, k: nat)
    ensures Queued(With(qs, n, At(qs, n) + [t]), k) == Queued(qs, k) + Bit(k == t.id)
  {
    hide Queued;
    QueuedWith(qs, n, At(qs, n) + [t], k);
    TimesJoin(At(qs, n), [t], k);
  }

  lemma RestoreCopies(s: State, id: nat, ok: bool, k: nat)
    requires Conserved(s) && id in s.flights && s.flights[id].ticket.id == id
    ensures Copies(RestoreDelivery(s, id, ok), k) == Copies(s, k)
  {
    hide Queued, Conserved, With, At, Times;
    OnlyInFlight(s, id);
    var f := s.flights[id];
    var s' := RestoreDelivery(s, id, ok);
    var back := f.ticket.(attempt := NextAttempt(f.ticket));
    if NextAttempt(f.ticket) >= MAX_DELIVERY_ATTEMPTS {
      assert s'.exhausted == s.exhausted + {id} && s'.queues == s.queues;
    } else if !ok {
      assert s'.lost == s.lost + {id} && s'.queues == s.queues;
    } else {
      RequeueCopies(s.queues, f.queue, back, k);
    }
  }

  lemma FetchCopies(s: State, id: nat, ok: bool, k: nat)
    requires Conserved(s) && id in s.flights && id in s.offers
    ensures Copies(FetchBody(s, id, ok), k) == Copies(s, k)
  {
    hide Queued, Conserved;
    OnlyInFlight(s, id);
  }

  /** A delivery committed, or left by a process that stops. */
  lemma SettleCopies(s: State, e: Event, k: nat)
    requires Conserved(s) && (e.Commit? || e.Abandon?) && Step(s, e).Some?
    ensures Copies(Step(s, e).value, k) == Copies(s, k) && Step(s, e).value.enqueued == s.enqueued
  {
    hide Queued, Conserved;
    OnlyInFlight(s, e.id);
  }

  /** Which steps enqueue. */
  lemma EnqueuedStep(s: State, e: Event)
    requires Step(s, e).Some?
    ensures Step(s, e).value.enqueued == if e.Push? && e.ok then s.enqueued + {e.id} else s.enqueued
  {
    hide At, With, Without;
  }

  /** Apart from a push, no step changes the number of places an entry is in. */
  lemma CopiesStep(s: State, e: Event, k: nat)
    requires Inv(s) && Step(s, e).Some?
    ensures Copies(Step(s, e).value, k) - Copies(s, k) == Bit(k in Step(s, e).value.enqueued) - Bit(k in s.enqueued)
  {
    EnqueuedStep(s, e);
    if e.Write? || e.Expire? || (e.Push? && !e.ok) { return; }
    hide QueueFine, FlightFine, Copies, Conserved, PushID, PopID, FetchBody, CommitDelivery, RestoreDelivery;
    match e
    case Push(id, _) => PushCopies(s, id, k);
    case Pop(n) => PopCopies(s, n, k);
    case Fetch(id, ok) => FetchCopies(s, id, ok, k);
    case Commit(_, _) => SettleCopies(s, e, k);
    case Restore(id, ok) => Aboard(s, id); RestoreCopies(s, id, ok, k);
    case Abandon(_) => SettleCopies(s, e, k);
  }

  lemma Aboard(s: State, id: nat)
    requires Inv(s) && id in s.flights
    ensures s.flights[id].ticket.id == id
  {
    assert FlightFine(s, id);
  }

  lemma ConservedStep(s: State, e: Event)
    requires Inv(s) && Step(s, e).Some?
    ensures Conserved(Step(s, e).value)
  {
    hide Copies, Step;
    forall k ensures Copies(Step(s, e).value, k) == Bit(k in Step(s, e).value.enqueued) {
      CopiesStep(s, e, k);
    }
  }

  lemma QueueStep(s: State, e: Event, n: Name)
    requires Inv(s) && Step(s, e).Some?
    ensures QueueFine(Step(s, e).value, n)
  {
    hide Conserved;
    var s' := Step(s, e).value;
    var q, q' := At(s.queues, n), At(s'.queues, n);
    forall i | 0 <= i < |q'| ensures TicketFine(s', q'[i], 0) {
      assert QueueFine(s, n);
      match e
      case Push(id, ok) => PushedFine(s, id, ok, n, i);
      case Pop(_) => { assert q'[i] == q[i]; }
      case Fetch(id, ok) => { OnlyQueued(s, n, i); }
      case Restore(id, ok) => { assert FlightFine(s, id); RestoredFine(s, id, ok, n, i); }
      case Write(_, _) => { OnlyQueued(s, n, i); }
      case Commit(_, _) => {}
      case Abandon(_) => {}
      case Expire(_) => {}
    }
  }

  lemma PushedFine(s: State, id: nat, ok: bool, n: Name, i: nat)
    requires Inv(s) && id in s.storing && id in s.bodyOf && i < |At(PushID(s, id, ok).queues, n)|
    ensures TicketFine(PushID(s, id, ok), At(PushID(s, id, ok).queues, n)[i], 0)
  {
    assert QueueFine(s, n);
    if !ok || n != s.storing[id] {
      OnlyQueued(s, n, i);
    } else if i > 0 {
      OnlyQueued(s, n, i - 1);
    }
  }

  lemma RestoredFine(s: State, id: nat, ok: bool, n: Name, i: nat)
    requires QueueFine(s, n) && id in s.flights && FlightFine(s, id) && s.flights[id].body.Some?
    requires i < |At(RestoreDelivery(s, id, ok).queues, n)|
    ensures TicketFine(RestoreDelivery(s, id, ok), At(RestoreDelivery(s, id, ok).queues, n)[i], 0)
  {
    var q, q' := At(s.queues, n), At(RestoreDelivery(s, id, ok).queues, n);
    if i < |q| {
      assert q'[i] == q[i];
    }
  }

  /** A flight that a step leaves alone stays fine while the step keeps its records. */
  lemma FlightKept(s: State, s': State, id: nat)
    requires id in s.flights && id in s'.flights && s'.flights[id] == s.flights[id] && FlightFine(s, id)
    requires s.pushes <= s'.pushes
    requires id in s'.offers && s'.offers[id] == s.offers[id] && id in s'.bodyOf && s'.bodyOf[id] == s.bodyOf[id]
    ensures FlightFine(s', id)
  {
  }

  lemma PopFlight(s: State, n: Name, id: nat)
    requires Inv(s) && At(s.queues, n) != [] && id in PopID(s, n).flights
    ensures FlightFine(PopID(s, n), id)
  {
    hide Conserved, QueueFine;
    TopFine(s, n);
    if id in s.flights { assert FlightFine(s, id); }
  }

  lemma FetchFlight(s: State, x: nat, ok: bool, id: nat)
    requires Inv(s) && x in s.flights && s.flights[x].body.None? && x in s.offers && id in FetchBody(s, x, ok).flights
    ensures FlightFine(FetchBody(s, x, ok), id)
  {
    hide Conserved, QueueFine, Numbered;
    assert FlightFine(s, id);
  }

  /** The other steps start no flight. */
  lemma OtherFlight(s: State, e: Event, id: nat)
    requires Inv(s) && Step(s, e).Some? && !e.Pop? && !e.Fetch? && id in Step(s, e).value.flights
    ensures FlightFine(Step(s, e).value, id)
  {
    hide Conserved, QueueFine, FlightFine, At, With, Without;
    OnlyInFlight(s, id);
    RecordsOf(s, id);
    FlightKept(s, Step(s, e).value, id);
  }

  lemma RecordsOf(s: State, id: nat)
    requires Inv(s) && id in s.flights
    ensures FlightFine(s, id) && id in s.offers && id in s.bodyOf
  {
    assert FlightFine(s, id);
  }

  lemma FlightStep(s: State, e: Event, id: nat)
    requires Inv(s) && Step(s, e).Some? && id in Step(s, e).value.flights
    ensures FlightFine(Step(s, e).value, id)
  {
    hide Inv, FlightFine, PopID, FetchBody;
    if e.Pop? {
      PopFlight(s, e.queue, id);
    } else if e.Fetch? {
      FetchFlight(s, e.id, e.ok, id);
    } else {
      OtherFlight(s, e, id);
    }
  }

  lemma TopFine(s: State, n: Name)
    requires Inv(s) && At(s.queues, n) != []
    ensures TicketFine(s, At(s.queues, n)[|At(s.queues, n)| - 1], 0)
  {
    assert QueueFine(s, n);
  }

  lemma OffersStep(s: State, e: Event, id: nat)
    requires Inv(s) && Step(s, e).Some? && id in Step(s, e).value.enqueued
    ensures var s' := Step(s, e).value;
            && id in s'.offers && s'.offers[id] <= MAX_DELIVERY_ATTEMPTS
            && (id in s'.exhausted ==> s'.offers[id] == MAX_DELIVERY_ATTEMPTS)
  {
    hide Conserved, QueueFine;
    if id in s.flights { assert FlightFine(s, id); OnlyInFlight(s, id); }
  }

  lemma StepInv(s: State, e: Event)
    requires Inv(s) && Step(s, e).Some?
    ensures Inv(Step(s, e).value)
  {
    var s' := Step(s, e).value;
    ConservedStep(s, e);
    forall n ensures QueueFine(s', n) { QueueStep(s, e, n); }
    forall id | id in s'.flights ensures FlightFine(s', id) { FlightStep(s, e, id); }
    forall id | id in s'.enqueued
      ensures id in s'.offers && s'.offers[id] <= MAX_DELIVERY_ATTEMPTS
      ensures id in s'.exhausted ==> s'.offers[id] == MAX_DELIVERY_ATTEMPTS
    {
      OffersStep(s, e, id);
    }
    NumberedStep(s, e);
  }

  /** The records a step keeps or makes. */
  lemma RecordStep(s: State, e: Event)
    requires Step(s, e).Some?
    ensures var s' := Step(s, e).value;
            && s'.next == (if e.Write? then s.next + 1 else s.next)
            && s'.storing.Keys == (if e.Write? then s.storing.Keys + {s.next}
                                   else if e.Push? then s.storing.Keys - {e.id} else s.storing.Keys)
            && s'.bodyOf.Keys == (if e.Write? then s.bodyOf.Keys + {s.next} else s.bodyOf.Keys)
            && s.offers.Keys <= s'.offers.Keys && (e.Push? && e.ok ==> e.id in s'.offers && e.id in s.storing)
            && s'.exhausted <= s.exhausted + (if e.Restore? then {e.id} else {}) && (e.Restore? ==> e.id in s.flights)
  {
    hide At, With, Without;
  }

  lemma NumberedStep(s: State, e: Event)
    requires Inv(s) && Step(s, e).Some?
    ensures Numbered(Step(s, e).value)
    ensures Step(s, e).value.exhausted <= Step(s, e).value.enqueued
  {
    hide Conserved, QueueFine, FlightFine, Queued, Step;
    RecordStep(s, e);
    EnqueuedStep(s, e);
    if e.Restore? { OnlyInFlight(s, e.id); }
  }

  lemma {:induction false} RunInv(events: seq<Event>)
    requires Run(events).Some?
    ensures Inv(Run(events).value)
  {
    if events != [] {
      RunInv(events[..|events| - 1]);
      StepInv(Run(events[..|events| - 1]).value, events[|events| - 1]);
    }
  }
}
