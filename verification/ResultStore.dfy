/** The result store's override guard, and what the store holds after any order of deliveries. */
module ResultStore {
  import opened Foundations
  import opened ActionQueue

  /** Statuses 0 and 1 are final, the others transient. */
  datatype Response = Response(key: Key, status: uint8, log: Bytes)

  datatype StoreOutcome = Stored | ReadFailed | OverrideFinal | OverrideTransient | WriteFailed

  predicate Final(r: Response) { r.status < 2 }

  function Lookup(store: map<Key, Response>, k: Key): (r: Option<Response>) {
    if k in store then Some(store[k]) else None
  }

  /** The override guard. */
  predicate Accepts(existing: Option<Response>, incoming: Response) {
    existing.None? || (!Final(existing.value) && (Final(incoming) || existing.value.status < incoming.status))
  }

  function Deliver(existing: Option<Response>, incoming: Response): (r: Option<Response>) {
    if Accepts(existing, incoming) then Some(incoming) else existing
  }

  /** What one key holds after these deliveries, in order. */
  function Settle(rs: seq<Response>): (r: Option<Response>) {
    if rs == [] then None else Deliver(Settle(rs[..|rs| - 1]), rs[|rs| - 1])
  }

  // ---------------------------------------------------------------- the specification

  /** No final response among the first n. */
  predicate NoFinal(rs: seq<Response>, n: nat)
    requires n <= |rs|
  {
    forall k :: 0 <= k < n ==> !Final(rs[k])
  }

  /** rs[i] is the first final response, or, when there is none, the first with the highest transient status. */
  predicate Canonical(rs: seq<Response>, i: nat)
    requires i < |rs|
  {
    if Final(rs[i]) then NoFinal(rs, i)
    else
      && NoFinal(rs, |rs|)
      && (forall k :: 0 <= k < |rs| ==> rs[k].status <= rs[i].status)
      && (forall k :: 0 <= k < i ==> rs[k].status < rs[i].status)
  }

  /** At most one index is canonical. */
  lemma CanonicalUnique(rs: seq<Response>, i: nat, j: nat)
    requires i < |rs| && j < |rs| && Canonical(rs, i) && Canonical(rs, j)
    ensures i == j
  {
  }

  /** For any delivery order, the store holds exactly the canonical response. */
  lemma {:induction false} SettlesOnCanonical(rs: seq<Response>) returns (i: nat)
    requires rs != []
    ensures i < |rs| && Canonical(rs, i) && Settle(rs) == Some(rs[i])
  {
    var n := |rs| - 1;
    if n == 0 {
      return 0;
    }
    var before := rs[..n];
    i := SettlesOnCanonical(before);
    assert before[i] == rs[i];
    assert forall k :: 0 <= k < n ==> before[k] == rs[k];
    if Accepts(Some(rs[i]), rs[n]) {
      assert NoFinal(before, n);
      i := n;
    }
  }

  /** Whichever response is canonical is the one stored. */
  lemma CanonicalIsStored(rs: seq<Response>, i: nat)
    requires i < |rs| && Canonical(rs, i)
    ensures Settle(rs) == Some(rs[i])
  {
    var j := SettlesOnCanonical(rs);
    CanonicalUnique(rs, i, j);
  }

  /** A final response is never replaced. */
  lemma {:induction false} FinalStays(rs: seq<Response>, n: nat)
    requires n <= |rs| && Settle(rs[..n]).Some? && Final(Settle(rs[..n]).value)
    ensures Settle(rs) == Settle(rs[..n])
  {
    if n < |rs| {
      assert rs[..|rs| - 1][..n] == rs[..n];
      FinalStays(rs[..|rs| - 1], n);
    } else {
      assert rs[..n] == rs;
    }
  }

  // ---------------------------------------------------------------- how many stores succeed

  function Accepted(rs: seq<Response>): (r: nat) {
    if rs == [] then 0
    else Accepted(rs[..|rs| - 1]) + if Accepts(Settle(rs[..|rs| - 1]), rs[|rs| - 1]) then 1 else 0
  }

  /** At most 255 stores succeed per key: the transient statuses climb from 2 to 255, then one final. */
  lemma {:induction false} StoresBounded(rs: seq<Response>)
    ensures Accepted(rs) <= if Settle(rs).None? then 0 else if Final(Settle(rs).value) then 255
                            else Settle(rs).value.status - 1
    ensures Accepted(rs) <= 255
  {
    if rs != [] { StoresBounded(rs[..|rs| - 1]); }
  }

  function Ladder(k: Key, n: nat): (r: seq<Response>)
    requires n <= 254
  {
    seq(n, i requires 0 <= i < n => Response(k, i + 2, []))
  }

  lemma {:induction false} LadderClimbs(k: Key, n: nat)
    requires n <= 254
    ensures Accepted(Ladder(k, n)) == n
    ensures Settle(Ladder(k, n)) == if n == 0 then None else Some(Response(k, n + 1, []))
  {
    if n > 0 {
      assert Ladder(k, n)[..n - 1] == Ladder(k, n - 1);
      LadderClimbs(k, n - 1);
    }
  }

  /** And 255 is attained. */
  lemma BoundAttained(k: Key)
    ensures Accepted(Ladder(k, 254) + [Response(k, 0, [])]) == 255
  {
    LadderClimbs(k, 254);
    var rs := Ladder(k, 254) + [Response(k, 0, [])];
    assert rs[..|rs| - 1] == Ladder(k, 254);
  }

  // ---------------------------------------------------------------- order independence

  ghost predicate FinalsAgree(rs: seq<Response>) {
    forall a, b :: a in rs && b in rs && Final(a) && Final(b) ==> a.status == b.status
  }

  /** When all finals agree, the stored status does not depend on the delivery order. */
  lemma StatusOrderIndependent(rs: seq<Response>, other: seq<Response>)
    requires multiset(rs) == multiset(other) && FinalsAgree(rs) && rs != []
    ensures Settle(rs).Some? && Settle(other).Some? && Settle(rs).value.status == Settle(other).value.status
  {
    SameMembers(rs, other);
    var i := SettlesOnCanonical(rs);
    var j := SettlesOnCanonical(other);
    assert rs[i] in other && other[j] in rs;
    StatusAtLeast(rs, i, other[j]);
    StatusAtLeast(other, j, rs[i]);
  }

  lemma SameMembers(rs: seq<Response>, other: seq<Response>)
    requires multiset(rs) == multiset(other)
    ensures |rs| == |other| && forall r :: r in rs <==> r in other
  {
    assert |multiset(rs)| == |multiset(other)|;
    forall r ensures r in rs <==> r in other {
      assert r in rs <==> r in multiset(rs);
      assert r in other <==> r in multiset(other);
    }
  }

  /** The canonical response is final as soon as any response is, else it has the highest status. */
  lemma StatusAtLeast(rs: seq<Response>, i: nat, r: Response)
    requires i < |rs| && Canonical(rs, i) && r in rs
    ensures Final(r) ==> Final(rs[i])
    ensures !Final(rs[i]) ==> r.status <= rs[i].status
  {
    var k :| 0 <= k < |rs| && rs[k] == r;
  }

  /** When they do not, it does: delivering either of two disagreeing finals first makes it the stored one. */
  lemma DisagreeingFinals(rs: seq<Response>, i: nat)
    requires i < |rs| && Final(rs[i])
    ensures var first := [rs[i]] + rs[..i] + rs[i + 1..];
            multiset(first) == multiset(rs) && Settle(first) == Some(rs[i])
  {
    var first := [rs[i]] + rs[..i] + rs[i + 1..];
    assert rs == rs[..i] + [rs[i]] + rs[i + 1..];
    assert first[..1] == [rs[i]] && first[..1][..0] == [];
    assert Settle(first[..1]) == Some(rs[i]);
    FinalStays(first, 1);
  }

  ghost predicate SameStatus(rs: seq<Response>, other: seq<Response>) {
    Settle(rs).Some? && Settle(other).Some? && Settle(rs).value.status == Settle(other).value.status
  }

  /** Every delivery order of the same responses stores the same status. */
  ghost predicate OrderFree(rs: seq<Response>) {
    forall other :: multiset(other) == multiset(rs) ==> SameStatus(rs, other)
  }

  lemma FinalDecides(rs: seq<Response>, r: Response)
    requires OrderFree(rs) && r in rs && Final(r)
    ensures Settle(rs).Some? && Settle(rs).value.status == r.status
  {
    hide Settle;
    var i :| 0 <= i < |rs| && rs[i] == r;
    DisagreeingFinals(rs, i);
    assert SameStatus(rs, [rs[i]] + rs[..i] + rs[i + 1..]);
  }

  /** So the stored status is the same for every delivery order exactly when the finals agree. */
  lemma OrderIndependentIff(rs: seq<Response>)
    requires rs != []
    ensures FinalsAgree(rs) <==> OrderFree(rs)
  {
    hide Settle, Final;
    if FinalsAgree(rs) {
      forall other | multiset(other) == multiset(rs) ensures SameStatus(rs, other) {
        StatusOrderIndependent(rs, other);
      }
    }
    if OrderFree(rs) {
      forall a, b | a in rs && b in rs && Final(a) && Final(b) ensures a.status == b.status {
        FinalDecides(rs, a);
        FinalDecides(rs, b);
      }
    }
  }

  // ---------------------------------------------------------------- the store of all keys

  function OfKey(rs: seq<Response>, k: Key): (r: seq<Response>) {
    if rs == [] then []
    else
      var before := OfKey(rs[..|rs| - 1], k);
      if rs[|rs| - 1].key == k then before + [rs[|rs| - 1]] else before
  }

  lemma SettleSnoc(rs: seq<Response>, r: Response)
    ensures Settle(rs + [r]) == Deliver(Settle(rs), r)
    ensures forall k :: OfKey(rs + [r], k) == if r.key == k then OfKey(rs, k) + [r] else OfKey(rs, k)
  {
    assert (rs + [r])[..|rs|] == rs;
  }

  class ResultStorage {
    var store: map<Key, Response>
    /** The responses whose read and write the backing store answered, in order. */
    ghost var processed: seq<Response>

    ghost predicate Valid()
      reads this
    {
      forall k :: Lookup(store, k) == Settle(OfKey(processed, k))
    }

    constructor ()
      ensures Valid() && processed == []
    {
      store, processed := map[], [];
    }

    /** StoreResponse, under mu; getOk and setOk say whether the backing store answers. */
    method StoreResponse(response: Response, getOk: bool, setOk: bool) returns (r: StoreOutcome)
      requires Valid()
      modifies this
      ensures Valid()
      ensures processed == if getOk && setOk then old(processed) + [response] else old(processed)
      ensures var existing := Settle(OfKey(old(processed), response.key));
              r == if !getOk then ReadFailed
                   else if Accepts(existing, response) then (if setOk then Stored else WriteFailed)
                   else if Final(existing.value) then OverrideFinal else OverrideTransient
    {
      if !getOk {
        return ReadFailed;
      }
      ghost var history := OfKey(processed, response.key);
      SettleSnoc(history, response);
      SettleSnoc(processed, response);
      var res := Lookup(store, response.key);
      if setOk {
        processed := processed + [response];
      }
      if res.Some? {
        if res.value.status < 2 {
          return OverrideFinal;
        }
        if response.status >= 2 && res.value.status >= response.status {
          return OverrideTransient;
        }
      }
      if !setOk {
        return WriteFailed;
      }
      store := store[response.key := response];
      return Stored;
    }
  }
}
