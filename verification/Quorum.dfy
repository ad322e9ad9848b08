/** Weighted and counted tallies over a list of signers, and why two large tallies must overlap. */
module Quorum {
  import opened Foundations

  type Weights = map<Address, uint16>

  function WeightOf(w: Weights, a: Address): (r: uint16) {
    if a in w then w[a] else 0
  }

  /** Combined policy weight of a list of signers. */
  function Tally(w: Weights, signers: seq<Address>): (r: nat) {
    if signers == [] then 0
    else Tally(w, signers[..|signers| - 1]) + WeightOf(w, signers[|signers| - 1])
  }

  /** How many signers of a list belong to a roster. */
  function Count(roster: set<Address>, signers: seq<Address>): (r: nat) {
    if signers == [] then 0
    else Count(roster, signers[..|signers| - 1]) + if signers[|signers| - 1] in roster then 1 else 0
  }

  /** Combined policy weight of a set of voters, in no particular order. */
  ghost function Total(w: Weights, voters: set<Address>): (r: nat) {
    if voters == {} then 0
    else var a :| a in voters; WeightOf(w, a) + Total(w, voters - {a})
  }

  lemma {:induction false} TotalTakeOut(w: Weights, voters: set<Address>, x: Address)
    requires x in voters
    ensures Total(w, voters) == WeightOf(w, x) + Total(w, voters - {x})
    decreases voters
  {
    var a :| a in voters && Total(w, voters) == WeightOf(w, a) + Total(w, voters - {a});
    if a != x {
      TotalTakeOut(w, voters - {a}, x);
      TotalTakeOut(w, voters - {x}, a);
      assert voters - {a} - {x} == voters - {x} - {a};
    }
  }

  lemma {:induction false} TotalDisjoint(w: Weights, a: set<Address>, b: set<Address>)
    requires a !! b
    ensures Total(w, a + b) == Total(w, a) + Total(w, b)
    decreases a
  {
    if a == {} {
      assert a + b == b;
    } else {
      var x :| x in a;
      TotalDisjoint(w, a - {x}, b);
      TotalTakeOut(w, a, x);
      TotalTakeOut(w, a + b, x);
      assert a + b - {x} == (a - {x}) + b;
    }
  }

  lemma TotalMonotone(w: Weights, a: set<Address>, b: set<Address>)
    requires a <= b
    ensures Total(w, a) <= Total(w, b)
  {
    TotalDisjoint(w, a, b - a);
    assert a + (b - a) == b;
  }

  /** Signers outside the policy weigh nothing. */
  lemma {:induction false} TotalOutsiders(w: Weights, a: set<Address>)
    requires a !! w.Keys
    ensures Total(w, a) == 0
    decreases a
  {
    if a != {} {
      var x :| x in a;
      TotalTakeOut(w, a, x);
      TotalOutsiders(w, a - {x});
    }
  }

  lemma TotalWithinPolicy(w: Weights, a: set<Address>)
    ensures Total(w, a) == Total(w, a * w.Keys)
  {
    TotalDisjoint(w, a * w.Keys, a - w.Keys);
    TotalOutsiders(w, a - w.Keys);
    assert a == a * w.Keys + (a - w.Keys);
  }

  /** Over distinct signers the running tally is the weight of the set of signers: order is irrelevant. */
  lemma {:induction false} TallyIsTotal(w: Weights, signers: seq<Address>)
    requires Distinct(signers)
    ensures Tally(w, signers) == Total(w, Elems(signers))
  {
    if signers != [] {
      var front, last := signers[..|signers| - 1], signers[|signers| - 1];
      TallyIsTotal(w, front);
      TotalTakeOut(w, Elems(signers), last);
      assert Elems(signers) - {last} == Elems(front);
    }
  }

  lemma {:induction false} CountIsIntersection(roster: set<Address>, signers: seq<Address>)
    requires Distinct(signers)
    ensures Count(roster, signers) == |Elems(signers) * roster|
  {
    if signers == [] {
      assert Elems(signers) * roster == {};
    } else {
      var front, last := signers[..|signers| - 1], signers[|signers| - 1];
      CountIsIntersection(roster, front);
      LastElem(signers);
      hide Elems, Distinct;
      IntersectionSnoc(Elems(front), roster, last);
    }
  }

  lemma LastElem(signers: seq<Address>)
    requires Distinct(signers) && signers != []
    ensures var n := |signers| - 1;
            Elems(signers) == Elems(signers[..n]) + {signers[n]} && signers[n] !in Elems(signers[..n])
  {
  }

  lemma IntersectionSnoc(a: set<Address>, b: set<Address>, x: Address)
    requires x !in a
    ensures |(a + {x}) * b| == |a * b| + if x in b then 1 else 0
  {
    if x in b {
      assert (a + {x}) * b == a * b + {x};
    } else {
      assert (a + {x}) * b == a * b;
    }
  }

  /** Distinct voters never weigh more than the whole policy: the fact that keeps uint16 sums exact. */
  lemma TallyBounded(w: Weights, signers: seq<Address>)
    requires Distinct(signers)
    ensures Tally(w, signers) <= Total(w, w.Keys)
  {
    TallyIsTotal(w, signers);
    TotalWithinPolicy(w, Elems(signers));
    TotalMonotone(w, Elems(signers) * w.Keys, w.Keys);
  }

  lemma CountBounded(roster: set<Address>, signers: seq<Address>)
    requires Distinct(signers)
    ensures Count(roster, signers) <= |roster|
  {
    CountIsIntersection(roster, signers);
    SubsetCardinality(Elems(signers) * roster, roster);
  }

  lemma {:induction false} TalliesGrow(w: Weights, roster: set<Address>, signers: seq<Address>, n: nat)
    requires n <= |signers|
    ensures Tally(w, signers[..n]) <= Tally(w, signers)
    ensures Count(roster, signers[..n]) <= Count(roster, signers)
    decreases |signers|
  {
    if n == |signers| {
      assert signers[..n] == signers;
    } else {
      var front := signers[..|signers| - 1];
      assert front[..n] == signers[..n];
      TalliesGrow(w, roster, front, n);
    }
  }

  /** Two groups that together outweigh the policy have a registered voter in common. */
  lemma WeightOverlap(w: Weights, a: seq<Address>, b: seq<Address>)
    requires Distinct(a) && Distinct(b)
    requires Tally(w, a) + Tally(w, b) > Total(w, w.Keys)
    ensures exists v :: v in a && v in b && v in w
  {
    var pa, pb := Elems(a) * w.Keys, Elems(b) * w.Keys;
    TallyIsTotal(w, a);
    TallyIsTotal(w, b);
    TotalWithinPolicy(w, Elems(a));
    TotalWithinPolicy(w, Elems(b));
    if pa !! pb {
      TotalDisjoint(w, pa, pb);
      TotalMonotone(w, pa + pb, w.Keys);
      assert false;
    }
    var v :| v in pa && v in pb;
    assert v in a && v in b && v in w;
  }

  /** Two groups that together outnumber a roster have a roster member in common. */
  lemma CountOverlap(roster: set<Address>, a: seq<Address>, b: seq<Address>)
    requires Distinct(a) && Distinct(b)
    requires Count(roster, a) + Count(roster, b) > |roster|
    ensures exists v :: v in a && v in b && v in roster
  {
    var ra, rb := Elems(a) * roster, Elems(b) * roster;
    CountIsIntersection(roster, a);
    CountIsIntersection(roster, b);
    if ra !! rb {
      SubsetCardinality(ra + rb, roster);
      assert false;
    }
    var v :| v in ra && v in rb;
    assert v in a && v in b && v in roster;
  }
}
