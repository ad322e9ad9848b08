/** The per-round cap on proposals a data provider may hold open without finalising them. */
module Limiter {
  import opened Foundations

  datatype Counter = Counter(pending: nat, proposed: nat, completed: nat)

  type Counters = map<Address, Counter>

  datatype LimitError = CannotInitialize | LimitReached

  function Fresh(voters: set<Address>): (r: Counters) {
    map v | v in voters :: Counter(0, 0, 0)
  }

  function Admit(c: Counters, cap: nat, a: Address): (r: Result<Counters, LimitError>) {
    if a !in c then Err(CannotInitialize)
    else if c[a].pending >= cap then Err(LimitReached)
    else Ok(c[a := Counter(c[a].pending + 1, c[a].proposed + 1, c[a].completed)])
  }

  /** Ineffectual on unknown addresses; at pending zero only the completion total moves. */
  function Release(c: Counters, a: Address): (r: Counters) {
    if a !in c then c
    else c[a := Counter(if c[a].pending > 0 then c[a].pending - 1 else 0, c[a].proposed, c[a].completed + 1)]
  }

  /** The books balance: every proposal is either pending or completed, and nobody exceeds the cap. */
  ghost predicate Balanced(c: Counters, cap: nat) {
    forall a :: a in c ==> c[a].proposed == c[a].completed + c[a].pending && c[a].pending <= cap
  }

  lemma AdmitBalanced(c: Counters, cap: nat, a: Address)
    requires Balanced(c, cap) && Admit(c, cap, a).Ok?
    ensures Balanced(Admit(c, cap, a).value, cap)
  {
  }

  /** A release keeps the books balanced exactly when the address has something pending, or is unknown. */
  lemma ReleaseBalanced(c: Counters, cap: nat, a: Address)
    requires Balanced(c, cap)
    ensures Balanced(Release(c, a), cap) <==> (a in c ==> c[a].pending > 0)
  {
    if a in c {
      assert a in Release(c, a);
    }
  }

  /** Releasing a slot just reserved restores the pending counts, and only those. */
  lemma AdmitThenRelease(c: Counters, cap: nat, a: Address)
    requires Admit(c, cap, a).Ok?
    ensures var after := Release(Admit(c, cap, a).value, a);
            && after.Keys == c.Keys
            && (forall v :: v in c ==> after[v].pending == c[v].pending)
            && after[a].completed == c[a].completed + 1
  {
  }

  class ProposalLimiter {
    var counter: Counters
    const maxPendingRequests: nat

    constructor (voters: seq<Address>, maxPendingRequests: nat)
      ensures counter == Fresh(Elems(voters)) && this.maxPendingRequests == maxPendingRequests
      ensures Balanced(counter, maxPendingRequests)
    {
      this.maxPendingRequests := maxPendingRequests;
      var c: Counters := map[];
      for i := 0 to |voters|
        invariant c == Fresh(Elems(voters[..i]))
      {
        c := c[voters[i] := Counter(0, 0, 0)];
        assert voters[..i + 1] == voters[..i] + [voters[i]];
      }
      assert voters[..|voters|] == voters;
      counter := c;
    }

    method Increment(address: Address) returns (e: Option<LimitError>)
      modifies this`counter
      ensures var spec := Admit(old(counter), maxPendingRequests, address);
              if spec.Ok? then e.None? && counter == spec.value
              else e == Some(spec.error) && counter == old(counter)
    {
      if address !in counter {
        return Some(CannotInitialize);
      }
      var state := counter[address];
      if state.pending >= maxPendingRequests {
        return Some(LimitReached);
      }
      counter := counter[address := state.(pending := state.pending + 1, proposed := state.proposed + 1)];
      return None;
    }

    method Decrement(address: Address)
      modifies this`counter
      ensures counter == Release(old(counter), address)
    {
      if address !in counter {
        return;
      }
      var state := counter[address];
      if state.pending > 0 {
        state := state.(pending := state.pending - 1);
      }
      counter := counter[address := state.(completed := state.completed + 1)];
    }
  }
}
