/** The ActionQueues object, its deliveries, and the handler that drives them; every method is a run of queue steps. */
module ActionQueues {
  import opened Foundations
  import opened ActionQueue

  /** ActionSubmissionID. */
  datatype Entry = Entry(key: Key, attempt: nat)

  datatype QueueID = Known(name: Name) | Unknown

  datatype Delivery = Delivery(action: Body, entry: Entry, queue: Name)

  datatype EnqueueOutcome = Enqueued | InvalidQueue | StoreFailed | PushFailed

  datatype DequeueError = BadQueue | Cancelled | PopFailed | Unreadable | Empty | NotFound | FetchFailed

  /** How the pop of a non-empty list goes. Garbled: the popped item does not decode, and is gone. */
  datatype Pop = Popped | PopError | Garbled

  datatype RestoreOutcome = Requeued | Exhausted | RequeueFailed

  /** Which of the outside operations of one poll go well. */
  datatype Luck = Luck(cancelledBefore: bool, pop: Pop, get: bool, cancelledAfter: bool, send: bool, write: bool)

  datatype Reply = Refused | NothingQueued | Failed | Sent(action: Body) | Undelivered(outcome: RestoreOutcome)

  function EntryOf(t: Ticket): (r: Entry) { Entry(t.key, t.attempt) }

  function Entries(q: seq<Ticket>): (r: seq<Entry>) {
    seq(|q|, i requires 0 <= i < |q| => EntryOf(q[i]))
  }

  function NextEntry(e: Entry): (r: Entry) {
    e.(attempt := if e.attempt == 255 then 0 else e.attempt + 1)
  }

  lemma EntriesJoin(a: seq<Ticket>, b: seq<Ticket>)
    ensures Entries(a + b) == Entries(a) + Entries(b)
  {
  }

  lemma EntriesOne(t: Ticket)
    ensures Entries([t]) == [EntryOf(t)]
  {
  }

  lemma EntriesFront(q: seq<Ticket>)
    requires q != []
    ensures Entries(q[..|q| - 1]) == Entries(q)[..|q| - 1]
  {
  }

  /** Dequeue after its guards: pop, then fetch. */
  function Taken(s: State, n: Name, ok: bool): (r: State)
    requires At(s.queues, n) != [] && NextID(s, n) in s.offers
  {
    FetchBody(PopID(s, n), NextID(s, n), ok)
  }

  function NextID(s: State, n: Name): (r: nat)
    requires At(s.queues, n) != []
  {
    At(s.queues, n)[|At(s.queues, n)| - 1].id
  }

  lemma NextKnown(s: State, n: Name)
    requires Reachable(s) && At(s.queues, n) != []
    ensures NextID(s, n) in s.offers && NextID(s, n) !in s.flights && NextID(s, n) !in s.delivered
    ensures NextID(s, n) !in s.orphaned
    ensures forall ok :: Reachable(Taken(s, n, ok))
  {
    var events :| Run(events) == Some(s);
    RunInv(events);
    OnlyQueued(s, n, |At(s.queues, n)| - 1);
    ReachableStep(s, Pop(n));
    forall ok ensures Reachable(Taken(s, n, ok)) {
      ReachableStep(PopID(s, n), Fetch(NextID(s, n), ok));
    }
  }

  /** The entry is in flight with its body, or orphaned; its queue is one shorter and nothing else has moved. */
  lemma TakenShape(s: State, n: Name, ok: bool)
    requires At(s.queues, n) != [] && NextID(s, n) in s.offers
    requires NextID(s, n) !in s.flights && NextID(s, n) !in s.orphaned
    ensures var q := At(s.queues, n);
            var t, s' := q[|q| - 1], Taken(s, n, ok);
            && s'.queues == With(s.queues, n, q[..|q| - 1]) && s'.actions == s.actions
            && (t.id in s'.flights <==> ok && t.key in s.actions) && (t.id in s'.orphaned <==> t.id !in s'.flights)
            && s'.flights - {t.id} == s.flights
            && (t.id in s'.flights ==> s'.flights[t.id] == Flight(t, n, Some(s.actions[t.key])))
  {
    var q := At(s.queues, n);
    var t, s' := q[|q| - 1], Taken(s, n, ok);
    assert s'.flights - {t.id} == s.flights;
  }

  /** d is the delivery in flight under id. */
  ghost predicate Carries(s: State, id: nat, d: Delivery) {
    && id in s.flights && s.flights[id].body == Some(d.action)
    && EntryOf(s.flights[id].ticket) == d.entry && s.flights[id].queue == d.queue
  }

  class ActionQueues {
    var actions: map<Key, Body>
    var main: seq<Entry>
    var direct: seq<Entry>
    var backup: seq<Entry>
    ghost var state: State

    ghost predicate Valid()
      reads this
    {
      && Reachable(state)
      && actions == state.actions
      && Shows(state.queues)
    }

    ghost predicate Shows(qs: Queues)
      reads this
    {
      main == Entries(qs.main) && direct == Entries(qs.direct) && backup == Entries(qs.backup)
    }

    constructor ()
      ensures Valid() && state == EMPTY
    {
      actions, main, direct, backup := map[], [], [], [];
      state := EMPTY;
      new;
      assert Run([]) == Some(EMPTY);
    }

    /** queueByID. */
    function Queue(n: Name): (r: seq<Entry>)
      reads this
      ensures forall qs :: Shows(qs) ==> r == Entries(At(qs, n))
    {
      match n case Main => main case Direct => direct case Backup => backup
    }

    method SetQueue(n: Name, q: seq<Entry>, ghost qs: Queues, ghost tickets: seq<Ticket>)
      requires Shows(qs) && q == Entries(tickets)
      modifies this
      ensures Shows(With(qs, n, tickets))
      ensures actions == old(actions) && state == old(state)
    {
      match n {
        case Main => main := q;
        case Direct => direct := q;
        case Backup => backup := q;
      }
    }

    method Enqueue(action: Body, queueID: QueueID, storeOk: bool, pushOk: bool) returns (r: EnqueueOutcome)
      requires Valid()
      modifies this
      ensures Valid()
      ensures r == if queueID.Unknown? then InvalidQueue else if !storeOk then StoreFailed
                   else if !pushOk then PushFailed else Enqueued
      ensures state == if r.InvalidQueue? || r.StoreFailed? then old(state)
                       else PushID(WriteBody(old(state), action, queueID.name), old(state).next, pushOk)
    {
      if queueID.Unknown? {
        return InvalidQueue;
      }
      if !storeOk {
        return StoreFailed;
      }
      var n := queueID.name;
      actions := actions[action.key := action];
      ReachableStep(state, Write(action, n));
      ghost var s := WriteBody(state, action, n);
      ReachableStep(s, Push(state.next, pushOk));
      if pushOk {
        ghost var t := Ticket(state.next, state.pushes, action.key, 0);
        EntriesOne(t);
        EntriesJoin([t], At(state.queues, n));
        SetQueue(n, [Entry(action.key, 0)] + Queue(n), state.queues, [t] + At(state.queues, n));
        r := Enqueued;
      } else {
        r := PushFailed;
      }
      state := PushID(s, state.next, pushOk);
    }

    /**
     * A pop that fails consumes nothing; one whose item does not decode consumes it, although the caller sees the
     * same error.
     */
    method Dequeue(queueID: QueueID, cancelled: bool, pop: Pop, getOk: bool)
      returns (r: Result<Delivery, DequeueError>, ghost id: nat)
      requires Valid()
      modifies this
      ensures Valid()
      ensures r.Ok? ==> Carries(state, id, r.value)
      ensures !Takes(old(state), queueID, cancelled, pop) ==>
                && state == old(state)
                && r == Err(if queueID.Unknown? then BadQueue else if cancelled then Cancelled
                            else if pop.PopError? then PopFailed else Empty)
      ensures Takes(old(state), queueID, cancelled, pop) ==>
                && id == NextID(old(state), queueID.name) && id in old(state).offers
                && id !in old(state).flights && id !in old(state).delivered
                && state.flights - {id} == old(state).flights
                && state == Taken(old(state), queueID.name, pop.Popped? && getOk)
                && (r.Ok? <==> id in state.flights) && (r.Err? <==> id in state.orphaned)
                && (r.Ok? <==> pop.Popped? && getOk && LastOf(old(Queue(queueID.name))).key in old(actions))
                && (r.Ok? ==> r.value.action == old(actions)[LastOf(old(Queue(queueID.name))).key])
                && (r.Err? ==> r.error == if pop.Garbled? then Unreadable else if !getOk then FetchFailed else NotFound)
    {
      id := 0;
      if queueID.Unknown? {
        return Err(BadQueue), 0;
      }
      if cancelled {
        return Err(Cancelled), 0;
      }
      if pop.PopError? {
        return Err(PopFailed), 0;
      }
      var n := queueID.name;
      var q := Queue(n);
      if q == [] {
        return Err(Empty), 0;
      }
      hide Taken, Reachable;
      var entry := q[|q| - 1];
      id := NextID(state, n);
      NextKnown(state, n);
      TakenShape(state, n, pop.Popped? && getOk);
      EntriesFront(At(state.queues, n));
      SetQueue(n, q[..|q| - 1], state.queues, At(state.queues, n)[..|q| - 1]);
      state := Taken(state, n, pop.Popped? && getOk);
      if pop.Garbled? {
        return Err(Unreadable), id;
      }
      if !getOk {
        return Err(FetchFailed), id;
      }
      if entry.key !in actions {
        return Err(NotFound), id;
      }
      return Ok(Delivery(actions[entry.key], entry, n)), id;
    }

    method Commit(d: Delivery, ghost id: nat, removeOk: bool) returns (ok: bool)
      requires Valid() && Carries(state, id, d)
      modifies this
      ensures Valid() && ok == removeOk && state == CommitDelivery(old(state), id, removeOk)
    {
      if removeOk {
        actions := actions - {d.entry.key};
      }
      ReachableStep(state, ActionQueue.Commit(id, removeOk));
      state := CommitDelivery(state, id, removeOk);
      return removeOk;
    }

    method Restore(d: Delivery, ghost id: nat, writeOk: bool) returns (r: RestoreOutcome)
      requires Valid() && Carries(state, id, d)
      modifies this
      ensures Valid() && state == RestoreDelivery(old(state), id, writeOk)
      ensures r == if d.entry.attempt >= 4 then Exhausted
                   else if writeOk then Requeued else RequeueFailed
      ensures r.Exhausted? <==> id in state.exhausted
    {
      SmallAttempt(state, id);
      ReachableStep(state, ActionQueue.Restore(id, writeOk));
      ghost var s := state;
      var next := NextEntry(d.entry);
      state := RestoreDelivery(s, id, writeOk);
      if next.attempt >= MAX_DELIVERY_ATTEMPTS {
        if writeOk {
          actions := actions - {d.entry.key};
        }
        return Exhausted;
      }
      if !writeOk {
        return RequeueFailed;
      }
      ghost var t := s.flights[id].ticket.(attempt := next.attempt);
      EntriesOne(t);
      EntriesJoin(At(s.queues, d.queue), [t]);
      SetQueue(d.queue, Queue(d.queue) + [next], s.queues, At(s.queues, d.queue) + [t]);
      return Requeued;
    }

    /**
     * queueH, with undelivered: whatever happens, the handler leaves no delivery of its own in flight, and the reply
     * says what became of the entry it took.
     */
    method QueueH(queueID: QueueID, luck: Luck) returns (reply: Reply, ghost id: nat)
      requires Valid()
      modifies this
      ensures Valid() && state.flights == old(state).flights
      ensures reply.Refused? <==> queueID.Unknown?
      ensures reply.NothingQueued? <==>
                queueID.Known? && !luck.cancelledBefore && !luck.pop.PopError? && old(Queue(queueID.name)) == []
      ensures reply.Sent? <==>
                && queueID.Known? && !luck.cancelledBefore && luck.pop.Popped? && old(Queue(queueID.name)) != []
                && luck.get && LastOf(old(Queue(queueID.name))).key in old(actions)
                && !luck.cancelledAfter && luck.send
      ensures reply.Sent? ==> reply.action == old(actions)[LastOf(old(Queue(queueID.name))).key]
      ensures !Takes(old(state), queueID, luck.cancelledBefore, luck.pop) ==>
                state == old(state) && (reply.Refused? || reply.NothingQueued? || reply.Failed?)
      ensures Takes(old(state), queueID, luck.cancelledBefore, luck.pop) ==>
                && id == NextID(old(state), queueID.name) && id in old(state).offers
                && Settles(Taken(old(state), queueID.name, luck.pop.Popped? && luck.get), id, luck.write, reply, state)
    {
      hide Taken, Settles, CommitDelivery, RestoreDelivery, Reachable;
      id := 0;
      if queueID.Unknown? {
        return Refused, 0;
      }
      var taken;
      taken, id := Dequeue(queueID, luck.cancelledBefore, luck.pop, luck.get);
      ghost var s := state;
      if taken.Err? {
        OrphanSettles(s, id, luck.write);
        return if taken.error.Empty? then NothingQueued else Failed, id;
      }
      var d := taken.value;
      if luck.cancelledAfter || !luck.send {
        var outcome := Restore(d, id, luck.write);
        RestoreSettles(s, id, d, luck.write, outcome);
        return Undelivered(outcome), id;
      }
      var _ := Commit(d, id, luck.write);
      CommitSettles(s, id, d, luck.write);
      return Sent(d.action), id;
    }
  }

  function LastOf(q: seq<Entry>): (r: Entry)
    requires q != []
  {
    q[|q| - 1]
  }

  /** The queue is not empty and its pop is not refused, so an entry leaves it. */
  predicate Takes(s: State, queueID: QueueID, cancelled: bool, pop: Pop) {
    queueID.Known? && !cancelled && !pop.PopError? && At(s.queues, queueID.name) != []
  }

  /** How the handler leaves the entry id that it took off its queue in s. */
  ghost predicate Settles(s: State, id: nat, write: bool, reply: Reply, s': State) {
    if id !in s.flights then reply.Failed? && id in s.orphaned && s' == s
    else
      var f := s.flights[id];
      match reply
      case Sent(action) => f.body == Some(action) && s' == CommitDelivery(s, id, write) && id in s'.delivered
      case Undelivered(outcome) =>
        && s' == RestoreDelivery(s, id, write)
        && (match outcome
            case Requeued =>
              && At(s'.queues, f.queue) == At(s.queues, f.queue) + [f.ticket.(attempt := f.ticket.attempt + 1)]
              && s' == s.(queues := s'.queues, flights := s.flights - {id})
              && (forall n :: n != f.queue ==> At(s'.queues, n) == At(s.queues, n))
            case Exhausted =>
              && f.ticket.attempt == 4
              && s' == s.(flights := s.flights - {id}, exhausted := s.exhausted + {id},
                          actions := if write then s.actions - {f.ticket.key} else s.actions)
            case RequeueFailed => s' == s.(flights := s.flights - {id}, lost := s.lost + {id}))
      case _ => false
  }

  lemma OrphanSettles(s: State, id: nat, write: bool)
    ensures id !in s.flights && id in s.orphaned ==> Settles(s, id, write, Failed, s)
  {
  }

  lemma CommitSettles(s: State, id: nat, d: Delivery, write: bool)
    requires Carries(s, id, d)
    ensures Settles(s, id, write, Sent(d.action), CommitDelivery(s, id, write))
    ensures CommitDelivery(s, id, write).flights == s.flights - {id}
  {
  }

  lemma RestoreSettles(s: State, id: nat, d: Delivery, write: bool, outcome: RestoreOutcome)
    requires Reachable(s) && Carries(s, id, d)
    requires outcome == if d.entry.attempt + 1 >= MAX_DELIVERY_ATTEMPTS then Exhausted
                        else if write then Requeued else RequeueFailed
    ensures Settles(s, id, write, Undelivered(outcome), RestoreDelivery(s, id, write))
    ensures RestoreDelivery(s, id, write).flights == s.flights - {id}
  {
    SmallAttempt(s, id);
    hide Reachable;
  }

  lemma SmallAttempt(s: State, id: nat)
    requires Reachable(s) && id in s.flights
    ensures s.flights[id].ticket.attempt < MAX_DELIVERY_ATTEMPTS && id !in s.exhausted && s.flights[id].ticket.id == id
  {
    var events :| Run(events) == Some(s);
    RunInv(events);
    assert FlightFine(s, id);
    OnlyInFlight(s, id);
  }
}
