/** Restart backfill: which policies are reloaded, and why the rounds made from them all stay resident. */
module PolicyBackfill {
  import opened Foundations

  /** What the indexed relay history answers for an epoch. */
  datatype Fetch = Found | Missing | Failed

  type History = uint32 -> Fetch

  datatype BackfillError = FetchFailed(id: uint32) | LastPolicyMissing

  ghost predicate Increasing(es: seq<uint32>) {
    forall i, j :: 0 <= i < j < |es| ==> es[i] < es[j]
  }

  function Max(a: nat, b: nat): (r: nat) { if a > b then a else b }

  class PolicyService {
    var activePolicy: Option<uint32>
    var restartPolicies: Option<seq<uint32>>

    constructor ()
      ensures activePolicy == None && restartPolicies == None
    {
      activePolicy, restartPolicies := None, None;
    }

    /**
     * The restart branch of Initialize, with its uint32 loop counter. It requires exactly that the loop ends. It
     * then succeeds exactly when nothing in the range fails to load, the last policy is there and the counter can
     * pass it; and it holds exactly the epochs of the range that the history has.
     */
    method Initialize(history: History, offset: nat, lastID: uint32) returns (error: Option<BackfillError>)
      requires CanEnd(history, lastID)
      modifies this
      ensures var first: uint32 := if offset % U32 < lastID then lastID - offset % U32 else 0;
              && (error.None? <==>
                    && lastID < U32 - 1 && history(lastID).Found?
                    && forall id: uint32 :: first <= id <= lastID ==> !history(id).Failed?)
              && (error == Some(LastPolicyMissing) ==>
                    history(lastID).Missing? && NoneFailed(history, first, lastID - first))
              && (error.Some? && error.value.FetchFailed? ==> FirstFailure(history, first, error.value.id))
              && (error.Some? ==> activePolicy == old(activePolicy) && restartPolicies == old(restartPolicies))
              && (error.None? ==>
                    && activePolicy == Some(lastID) && restartPolicies.Some?
                    && Backfilled(restartPolicies.value, history, first, lastID))
    {
      hide CounterAt, IDAt, NoneFailed, Selected, Distance, StopID, CanEnd, Backfilled, FirstID;
      var first := FirstID(offset, lastID);
      FirstPass(history, first, lastID);
      var policies: seq<uint32> := [];
      var id: uint32 := first;
      ghost var n, stop := 0, StopID(history, lastID);
      while id <= lastID
        invariant CounterAt(history, first, lastID, n) == Some(id) && id == IDAt(first, n)
        invariant NoneFailed(history, first, n)
        invariant lastID < U32 - 1 ==>
                    && id == first + n <= lastID + 1 && Selected(policies, history, first, id)
                    && (id == lastID + 1 ==> history(lastID).Found?)
        invariant activePolicy == old(activePolicy) && restartPolicies == old(restartPolicies)
        decreases if lastID < U32 - 1 then lastID + 1 - id else Distance(id, stop)
      {
        var fetched := history(id);
        if fetched.Failed? {
          assert FirstFailure(history, first, id);
          return Some(FetchFailed(id));
        }
        if fetched.Missing? {
          if id == lastID {
            LastAt(history, first, lastID, n);
            return Some(LastPolicyMissing);
          }
        }
        if lastID < U32 - 1 { SelectedNext(policies, history, first, id); }
        if fetched.Found? {
          policies := policies + [id];
        }
        PassDone(history, first, lastID, n, id, stop);
        n := n + 1;
        id := (id + 1) % U32;
      }
      RangeLoaded(history, first, lastID, n);
      SelectedAll(policies, history, first, lastID);
      activePolicy := Some(policies[|policies| - 1]);
      restartPolicies := Some(policies);
      return None;
    }

    /** Run up to the start of the update loop: the channel is sized so that these sends cannot block. */
    method Run() returns (capacity: nat, sent: Option<seq<uint32>>)
      modifies this`restartPolicies
      ensures sent.None? <==> old(activePolicy).None?
      ensures sent.Some? ==>
                && |sent.value| <= capacity == (if |sent.value| > 3 then |sent.value| else 3)
                && sent.value == (if old(restartPolicies).Some? then old(restartPolicies).value
                                  else [old(activePolicy).value])
                && restartPolicies == None
    {
      if activePolicy.None? {
        return 0, None;
      }
      capacity := Max(3, if restartPolicies.Some? then |restartPolicies.value| else 0);
      var channel: seq<uint32> := [];
      if restartPolicies.Some? {
        var policies := restartPolicies.value;
        for i := 0 to |policies|
          invariant channel == policies[..i]
        {
          channel := SendBuffered(channel, capacity, policies[i]);
        }
        restartPolicies := None;
      } else {
        channel := SendBuffered(channel, capacity, activePolicy.value);
      }
      sent := Some(channel);
    }
  }

  /** A send with no consumer yet completes only while the buffer has room. */
  method SendBuffered(channel: seq<uint32>, capacity: nat, e: uint32) returns (r: seq<uint32>)
    requires |channel| < capacity
    ensures r == channel + [e] && |r| <= capacity
  {
    r := channel + [e];
  }

  /** The epochs of [first, end) that the history has, in order. */
  ghost predicate Selected(es: seq<uint32>, history: History, first: nat, end: nat) {
    && Increasing(es)
    && |es| <= end - first
    && (forall e: uint32 :: e in es <==> first <= e < end && history(e).Found?)
    && (end > first && end - 1 < U32 && history(end - 1).Found? ==> es != [] && es[|es| - 1] == end - 1)
  }

  lemma SelectedSnoc(es: seq<uint32>, history: History, first: nat, id: uint32)
    requires first <= id && Selected(es, history, first, id) && history(id).Found?
    ensures Selected(es + [id], history, first, id + 1)
  {
    forall i | 0 <= i < |es| ensures es[i] < id { assert es[i] in es; }
  }

  lemma SelectedNext(es: seq<uint32>, history: History, first: nat, id: uint32)
    requires first <= id && Selected(es, history, first, id)
    ensures Selected(if history(id).Found? then es + [id] else es, history, first, id + 1)
  {
    if history(id).Found? { SelectedSnoc(es, history, first, id); }
  }

  lemma SelectedAll(es: seq<uint32>, history: History, first: uint32, lastID: uint32)
    requires first <= lastID && Selected(es, history, first, lastID + 1) && history(lastID).Found?
    ensures Backfilled(es, history, first, lastID)
  {
  }

  ghost predicate Backfilled(es: seq<uint32>, history: History, first: nat, lastID: uint32) {
    && es != [] && es[|es| - 1] == lastID
    && Increasing(es)
    && |es| <= lastID - first + 1
    && (forall e: uint32 :: e in es <==> first <= e <= lastID && history(e).Found?)
  }

  // ---------------------------------------------------------------- the uint32 loop counter

  /** The offset is converted to uint32 before it is compared. */
  function FirstID(offset: nat, lastID: uint32): (r: uint32)
    ensures if offset % U32 <= lastID then r + offset % U32 == lastID else r == 0
  {
    lastID - Min(offset % U32, lastID)
  }

  /** The epoch of the n-th pass. */
  function IDAt(first: uint32, n: nat): (r: uint32) {
    (first + n) % U32
  }

  lemma NextID(first: uint32, n: nat)
    ensures IDAt(first, n + 1) == (IDAt(first, n) + 1) % U32
    ensures first + n < U32 ==> IDAt(first, n) == first + n
  {
  }

  /** The pass with this counter value is the last one: the guard fails, or one of the two error returns is taken. */
  predicate Exits(history: History, lastID: uint32, id: uint32) {
    id > lastID || history(id).Failed? || (id == lastID && history(id).Missing?)
  }

  /** The counter at the start of the n-th pass; None once the loop has ended. */
  function CounterAt(history: History, first: uint32, lastID: uint32, n: nat): (r: Option<uint32>) {
    if n == 0 then Some(first)
    else
      var id := CounterAt(history, first, lastID, n - 1);
      if id.None? || Exits(history, lastID, id.value) then None else Some((id.value + 1) % U32)
  }

  ghost predicate CanEnd(history: History, lastID: uint32) {
    lastID < U32 - 1 || !history(lastID).Found? || exists id: uint32 :: history(id).Failed?
  }

  /** An epoch at which the loop ends whenever the counter gets there, if it can end with lastID the largest uint32. */
  ghost function StopID(history: History, lastID: uint32): (r: uint32)
    requires CanEnd(history, lastID)
    ensures lastID == U32 - 1 ==> Exits(history, lastID, r)
  {
    if lastID < U32 - 1 || !history(lastID).Found? then lastID
    else var id: uint32 :| history(id).Failed?; id
  }

  /** How many increments take the counter from one value to another. */
  function Distance(from: uint32, to: uint32): (r: nat) {
    if from <= to then to - from else to + U32 - from
  }

  lemma {:induction false} CounterShape(history: History, first: uint32, lastID: uint32, n: nat)
    ensures var c := CounterAt(history, first, lastID, n); c.None? || c == Some(IDAt(first, n))
  {
    hide Exits;
    if n > 0 {
      CounterShape(history, first, lastID, n - 1);
      NextID(first, n - 1);
    }
  }

  lemma {:induction false} CounterGoesOn(history: History, first: uint32, lastID: uint32, n: nat)
    requires !CanEnd(history, lastID)
    ensures CounterAt(history, first, lastID, n).Some?
  {
    if n > 0 { CounterGoesOn(history, first, lastID, n - 1); }
  }

  lemma EndsBy(history: History, first: uint32, lastID: uint32, stop: uint32)
    requires Exits(history, lastID, stop)
    ensures CounterAt(history, first, lastID, Distance(first, stop) + 1).None?
  {
    hide Exits;
    CounterShape(history, first, lastID, Distance(first, stop));
    assert IDAt(first, Distance(first, stop)) == stop;
  }

  /**
   * The loop ends exactly when lastID is below the largest uint32, or the last policy is not loaded, or the load of
   * some epoch fails: otherwise the counter wraps for ever.
   */
  lemma BackfillEndsIff(history: History, first: uint32, lastID: uint32)
    ensures (exists n: nat :: CounterAt(history, first, lastID, n).None?) <==> CanEnd(history, lastID)
  {
    if CanEnd(history, lastID) {
      if lastID < U32 - 1 {
        EndsBy(history, first, lastID, lastID + 1);
      } else {
        EndsBy(history, first, lastID, StopID(history, lastID));
      }
    } else {
      forall n: nat ensures CounterAt(history, first, lastID, n).Some? {
        CounterGoesOn(history, first, lastID, n);
      }
    }
  }

  /** Such an input: every epoch is indexed and the node is at the largest one. */
  lemma BackfillLoops(first: uint32, n: nat)
    ensures CounterAt((id: uint32) => Found, first, U32 - 1, n) == Some(IDAt(first, n))
  {
    CounterGoesOn((id: uint32) => Found, first, U32 - 1, n);
    CounterShape((id: uint32) => Found, first, U32 - 1, n);
  }

  /** No load fails in the first n passes. */
  ghost predicate NoneFailed(history: History, first: uint32, n: nat) {
    forall k: nat :: k < n ==> !history(IDAt(first, k)).Failed?
  }

  /** The epoch is the first one, from first on and around, whose load fails. */
  ghost predicate FirstFailure(history: History, first: uint32, id: uint32) {
    history(id).Failed? && exists n: nat :: IDAt(first, n) == id && NoneFailed(history, first, n)
  }

  lemma LastAt(history: History, first: uint32, lastID: uint32, n: nat)
    requires first <= lastID && IDAt(first, n) == lastID && NoneFailed(history, first, n)
    ensures NoneFailed(history, first, lastID - first)
  {
  }

  lemma FirstPass(history: History, first: uint32, lastID: uint32)
    ensures CounterAt(history, first, lastID, 0) == Some(first) && IDAt(first, 0) == first
    ensures NoneFailed(history, first, 0) && Selected([], history, first, first)
  {
  }

  lemma PassDone(history: History, first: uint32, lastID: uint32, n: nat, id: uint32, stop: uint32)
    requires CounterAt(history, first, lastID, n) == Some(id) && id == IDAt(first, n) && NoneFailed(history, first, n)
    requires !Exits(history, lastID, id)
    ensures CounterAt(history, first, lastID, n + 1) == Some((id + 1) % U32)
    ensures (id + 1) % U32 == IDAt(first, n + 1) && NoneFailed(history, first, n + 1)
    ensures Exits(history, lastID, stop) ==> Distance((id + 1) % U32, stop) < Distance(id, stop)
  {
    NextID(first, n);
  }

  lemma RangeLoaded(history: History, first: uint32, lastID: uint32, n: nat)
    requires NoneFailed(history, first, n) && first + n == lastID + 1 < U32
    ensures forall id: uint32 :: first <= id <= lastID ==> !history(id).Failed?
  {
    forall id: uint32 | first <= id <= lastID ensures !history(id).Failed? {
      NextID(first, id - first);
      assert IDAt(first, id - first) == id;
    }
  }

  // ---------------------------------------------------------------- the cyclic buffer of rounds

  /** slot -> epoch of the round stored there; storing at epoch % size overwrites the occupant. */
  datatype Buffer = Buffer(size: nat, slots: map<nat, uint32>, current: uint32)

  predicate Resident(b: Buffer, e: uint32)
    requires b.size > 0
  {
    e % b.size in b.slots && b.slots[e % b.size] == e
  }

  function Store(b: Buffer, e: uint32): (r: Buffer)
    requires b.size > 0
    ensures r.size == b.size
  {
    if Resident(b, e) then b
    else Buffer(b.size, b.slots[e % b.size := e], if e > b.current then e else b.current)
  }

  function StoreAll(b: Buffer, es: seq<uint32>): (r: Buffer)
    requires b.size > 0
    ensures r.size == b.size
    decreases |es|
  {
    if es == [] then b else Store(StoreAll(b, es[..|es| - 1]), es[|es| - 1])
  }

  function Empty(size: nat): (r: Buffer) {
    Buffer(size, map[], 0)
  }

  class RoundStorage {
    var buffer: Buffer

    constructor (size: nat)
      requires size > 0
      ensures buffer == Empty(size)
    {
      buffer := Empty(size);
    }

    method StoreNewRound(epoch: uint32)
      requires buffer.size > 0
      modifies this
      ensures buffer == Store(old(buffer), epoch)
    {
      if Resident(buffer, epoch) {
        return;
      }
      buffer := buffer.(slots := buffer.slots[epoch % buffer.size := epoch]);
      if epoch > buffer.current {
        buffer := buffer.(current := epoch);
      }
    }

    /** The least resident epoch among the size newest ones, counting back from the newest stored. */
    method OldestStoredEpoch() returns (oldest: uint32, ok: bool)
      requires buffer.size > 0
      ensures Reports(buffer, if ok then Some(oldest) else None)
    {
      var top := buffer.current;
      oldest, ok := 0, false;
      var i := 0;
      while i < buffer.size
        invariant 0 <= i <= buffer.size && i <= top + 1
        invariant ok ==> top - i < oldest <= top && Resident(buffer, oldest)
        invariant forall e: uint32 :: top - i < e <= top && Resident(buffer, e) ==> ok && oldest <= e
        decreases buffer.size - i
      {
        if i > top {
          break;
        }
        var e: uint32 := top - i;
        if Resident(buffer, e) {
          oldest, ok := e, true;
        }
        i := i + 1;
        if e == 0 {
          break;
        }
      }
    }
  }

  predicate InWindow(b: Buffer, e: uint32) {
    e <= b.current && b.current - e < b.size
  }

  /** The least resident epoch of the window, None if there is none. */
  ghost predicate Reports(b: Buffer, report: Option<uint32>)
    requires b.size > 0
  {
    match report
    case None => forall e: uint32 :: InWindow(b, e) ==> !Resident(b, e)
    case Some(r) =>
      && InWindow(b, r) && Resident(b, r)
      && (forall e: uint32 :: InWindow(b, e) && Resident(b, e) ==> r <= e)
  }

  lemma MulSign(k: int, size: nat)
    ensures k >= 1 ==> k * size >= size
    ensures k <= -1 ==> k * size <= 0 - size
  {
    if k >= 1 { assert (k - 1) * size >= 0; }
    if k <= -1 { assert (-k - 1) * size >= 0; }
  }

  /** Quotient and remainder are determined: q * size + r lies in slot r. */
  lemma SlotOf(q: nat, size: nat, r: nat)
    requires size > 0 && r < size
    ensures (q * size + r) % size == r
  {
    var m := q * size + r;
    assert m == m / size * size + m % size;
    assert (m / size - q) * size == m / size * size - q * size;
    MulSign(m / size - q, size);
  }

  /** Epochs less than a buffer's length apart use different slots. */
  lemma SameSlot(size: nat, a: nat, b: nat)
    requires size > 0 && a < b < a + size
    ensures a % size != b % size
  {
    var q, r, d := a / size, a % size, b - a;
    assert a == q * size + r;
    if r + d < size {
      SlotOf(q, size, r + d);
      assert b == q * size + (r + d);
    } else {
      SlotOf(q + 1, size, r + d - size);
      assert b == (q + 1) * size + (r + d - size);
    }
  }

  /** No epoch of the list later than e shares its slot. */
  ghost predicate LatestOfSlot(es: seq<uint32>, size: nat, e: uint32)
    requires size > 0
  {
    forall k :: 0 <= k < |es| && es[k] % size == e % size ==> es[k] <= e
  }

  lemma LatestSnoc(front: seq<uint32>, last: uint32, size: nat, e: uint32)
    requires size > 0
    ensures LatestOfSlot(front + [last], size, e) <==>
        LatestOfSlot(front, size, e) && (last % size == e % size ==> last <= e)
  {
    var es := front + [last];
    assert es[|front|] == last;
    if LatestOfSlot(es, size, e) {
      forall k | 0 <= k < |front| && front[k] % size == e % size ensures front[k] <= e { assert es[k] == front[k]; }
    }
  }

  lemma AllBelow(es: seq<uint32>, size: nat, e: uint32)
    requires size > 0 && es != [] && Increasing(es)
    ensures var front, last := es[..|es| - 1], es[|es| - 1];
            && Increasing(front) && last !in front && LatestOfSlot(front, size, last)
            && (e in es <==> e in front || e == last) && (e in front ==> e < last)
  {
  }

  lemma StoreResident(b: Buffer, last: uint32, e: uint32)
    requires b.size > 0 && !Resident(b, last)
    ensures Resident(Store(b, last), e) <==> e == last || (Resident(b, e) && e % b.size != last % b.size)
    ensures Store(b, last).current == if last > b.current then last else b.current
  {
  }

  /** What is resident after storing an increasing list into an empty buffer: the latest epoch of each slot. */
  lemma {:induction false} ResidentAfter(size: nat, es: seq<uint32>, e: uint32)
    requires size > 0 && Increasing(es)
    ensures var b := StoreAll(Empty(size), es);
            && (Resident(b, e) <==> e in es && LatestOfSlot(es, size, e))
            && b.current == (if es == [] then 0 else es[|es| - 1])
    decreases |es|
  {
    if es != [] {
      var n := |es| - 1;
      var front, last := es[..n], es[n];
      ResidentAfter(size, front, e);
      ResidentAfter(size, front, last);
      assert es == front + [last];
      LatestSnoc(front, last, size, e);
      AllBelow(es, size, e);
      StoreResident(StoreAll(Empty(size), front), last, e);
      hide LatestOfSlot, Increasing, Resident, Store;
    }
  }

  /** Backfill list followed by the epochs the update loop emits. */
  function Continued(es: seq<uint32>, lastID: uint32, n: nat): (r: seq<uint32>)
    requires lastID + n < U32
  {
    if n == 0 then es else Continued(es, lastID, n - 1) + [lastID + n]
  }

  lemma {:induction false} ContinuedShape(es: seq<uint32>, lastID: uint32, n: nat)
    requires lastID + n < U32 && es != [] && Increasing(es) && es[|es| - 1] == lastID
    ensures var all := Continued(es, lastID, n);
            && Increasing(all) && all != [] && all[|all| - 1] == lastID + n && all[0] == es[0]
            && (forall e: uint32 :: e in all <==> e in es || lastID < e <= lastID + n)
    decreases n
  {
    if n == 0 {
      forall e: uint32 | e in es ensures e <= lastID {
        var i :| 0 <= i < |es| && es[i] == e;
        if i < |es| - 1 { assert es[i] < es[|es| - 1]; }
      }
    } else {
      ContinuedShape(es, lastID, n - 1);
      var before := Continued(es, lastID, n - 1);
      forall i | 0 <= i < |before| ensures before[i] <= lastID + n - 1 {
        if i < |before| - 1 { assert before[i] < before[|before| - 1]; }
      }
    }
  }

  /**
   * A buffer of size offset + 1 filled by the backfill and then by any number of consecutive updates holds
   * exactly the stored epochs among the offset + 1 newest: nothing reloaded is evicted early and nothing stale stays.
   */
  lemma BackfillThenUpdatesResident(es: seq<uint32>, first: nat, lastID: uint32, offset: nat, n: nat, e: uint32)
    requires lastID + n < U32 && es != [] && Increasing(es) && es[|es| - 1] == lastID
    requires lastID <= first + offset && forall x :: x in es ==> first <= x
    ensures var b := StoreAll(Empty(offset + 1), Continued(es, lastID, n));
            && b.current == lastID + n
            && (Resident(b, e) <==> e in Continued(es, lastID, n) && e + offset >= lastID + n)
  {
    hide StoreAll, Resident, Continued;
    var all, size := Continued(es, lastID, n), offset + 1;
    ContinuedShape(es, lastID, n);
    ResidentAfter(size, all, e);
    if e in all {
      if e + offset >= lastID + n {
        LatestInSlot(all, size, e);
      } else {
        assert es[|es| - 1] in es;
        assert e >= first;
        OvertakenInSlot(all, size, e);
      }
    }
  }

  lemma OvertakenInSlot(all: seq<uint32>, size: nat, e: uint32)
    requires size > 0 && e + size < U32 && e + size in all
    ensures !LatestOfSlot(all, size, e)
  {
    NextInSlot(e, size);
    var k :| 0 <= k < |all| && all[k] == e + size;
    assert all[k] % size == e % size && !(all[k] <= e);
  }

  lemma LatestInSlot(all: seq<uint32>, size: nat, e: uint32)
    requires size > 0 && Increasing(all) && all != [] && e + size > all[|all| - 1]
    ensures LatestOfSlot(all, size, e)
  {
    forall k | 0 <= k < |all| && all[k] % size == e % size ensures all[k] <= e {
      if k < |all| - 1 { assert all[k] < all[|all| - 1]; }
      if all[k] > e { SameSlot(size, e, all[k]); }
    }
  }

  lemma NextInSlot(e: nat, size: nat)
    requires size > 0
    ensures (e + size) % size == e % size
  {
    assert e + size == (e / size + 1) * size + e % size;
    SlotOf(e / size + 1, size, e % size);
  }

  /**
   * So right after the backfill every reloaded round is resident, and the oldest resident epoch is the first of them.
   */
  lemma BackfillAllResident(es: seq<uint32>, history: History, first: uint32, offset: nat, lastID: uint32)
    requires Backfilled(es, history, first, lastID) && lastID <= first + offset
    ensures var b := StoreAll(Empty(offset + 1), es);
            && (forall e: uint32 :: Resident(b, e) <==> e in es)
            && Reports(b, Some(es[0])) && |es| <= offset + 1
  {
    var b := StoreAll(Empty(offset + 1), es);
    assert Continued(es, lastID, 0) == es;
    forall e: uint32 ensures Resident(b, e) <==> e in es {
      BackfillThenUpdatesResident(es, first, lastID, offset, 0, e);
    }
    forall e: uint32 | e in es ensures InWindow(b, e) && es[0] <= e {
      BackfillThenUpdatesResident(es, first, lastID, offset, 0, e);
      var i :| 0 <= i < |es| && es[i] == e;
      if i > 0 { assert es[0] < es[i]; }
    }
    assert es[0] in es;
  }

  /** What OldestStoredEpoch is for. */
  ghost predicate OldestResident(b: Buffer, e: uint32)
    requires b.size > 0
  {
    Resident(b, e) && forall x: uint32 :: Resident(b, x) ==> e <= x
  }

  /** On any buffer it reports the oldest resident epoch exactly when that one is within the window it scans. */
  lemma OldestIsExactIff(b: Buffer, report: Option<uint32>, oldest: uint32)
    requires b.size > 0 && Reports(b, report) && OldestResident(b, oldest)
    ensures report == Some(oldest) <==> InWindow(b, oldest)
  {
  }

  /** On every buffer that the backfill and any number of updates can build, it always is. */
  lemma OldestExactWhenBuilt(es: seq<uint32>, first: nat, lastID: uint32, offset: nat, n: nat, report: Option<uint32>)
    requires lastID + n < U32 && es != [] && Increasing(es) && es[|es| - 1] == lastID
    requires lastID <= first + offset && forall x :: x in es ==> first <= x
    requires Reports(StoreAll(Empty(offset + 1), Continued(es, lastID, n)), report)
    ensures report.Some? && OldestResident(StoreAll(Empty(offset + 1), Continued(es, lastID, n)), report.value)
  {
    hide StoreAll, Continued;
    var b := StoreAll(Empty(offset + 1), Continued(es, lastID, n));
    forall e: uint32 | Resident(b, e) ensures InWindow(b, e) {
      BackfillThenUpdatesResident(es, first, lastID, offset, n, e);
      ContinuedShape(es, lastID, n);
      StoredAtMost(Continued(es, lastID, n), e);
    }
    BackfillThenUpdatesResident(es, first, lastID, offset, n, lastID + n);
    ContinuedShape(es, lastID, n);
    assert Resident(b, lastID + n);
  }

  lemma StoredAtMost(es: seq<uint32>, e: uint32)
    requires Increasing(es) && e in es
    ensures e <= es[|es| - 1]
  {
    var i :| 0 <= i < |es| && es[i] == e;
    if i < |es| - 1 { assert es[i] < es[|es| - 1]; }
  }
}
