/** Value types shared by every component of the proxy model. */
module Foundations {

  datatype Option<+T> = None | Some(value: T)

  datatype Result<+T, +E> = Ok(value: T) | Err(error: E)

  /** Addresses, instruction IDs and action IDs only ever get compared, so naturals stand for them. */
  type Address = nat
  type ID = nat

  newtype byte = x: int | 0 <= x < 0x100
  type Bytes = seq<byte>

  const U16: nat := 0x1_0000
  const U32: nat := 0x1_0000_0000
  const U64: nat := 0x1_0000_0000_0000_0000

  type uint8 = x: nat | x < 0x100
  type uint16 = x: nat | x < U16
  type uint32 = x: nat | x < U32
  type uint64 = x: nat | x < U64

  /** Go's `+=` on uint16: the sum modulo 2^16. */
  function AddU16(a: uint16, b: uint16): (r: uint16) {
    (a + b) % U16
  }

  /** Go's `*` on uint64: the product modulo 2^64. */
  function MulU64(a: uint64, b: uint64): (r: uint64) {
    (a * b) % U64
  }

  /** Go's conversion uint16(x) of a uint64: the low 16 bits. */
  function TruncateU16(x: uint64): (r: uint16) {
    x % U16
  }

  /** Instants are nanoseconds; Time.Unix() rounds down to seconds. */
  const SECOND: nat := 1_000_000_000

  function Unix(t: nat): (r: nat) {
    t / SECOND
  }

  function Min(a: nat, b: nat): (r: nat) {
    if a < b then a else b
  }

  /** What an action or a result was submitted for. */
  datatype Tag = Threshold | End | Submit

  ghost predicate Distinct<T>(s: seq<T>) {
    forall i, j :: 0 <= i < j < |s| ==> s[i] != s[j]
  }

  function Elems<T(==)>(s: seq<T>): (r: set<T>) {
    set x | x in s
  }

  /** A list names each address once exactly when it is as long as the set of its elements. */
  lemma {:induction false} DistinctCardinality<T>(s: seq<T>)
    ensures |Elems(s)| <= |s|
    ensures Distinct(s) <==> |Elems(s)| == |s|
  {
    if s == [] {
      assert Elems(s) == {};
    } else {
      var n := |s| - 1;
      var front, last := s[..n], s[n];
      DistinctCardinality(front);
      assert s == front + [last];
      assert Elems(s) == Elems(front) + {last};
      if last in front {
        var i :| 0 <= i < n && front[i] == last;
        assert s[i] == s[n];
      } else {
        assert Distinct(s) <==> Distinct(front);
      }
    }
  }

  /** Two duplicate-free lists of equal size, one contained in the other, have the same elements. */
  lemma SubsetOfEqualSize<T>(a: set<T>, b: set<T>)
    requires a <= b && |a| == |b|
    ensures a == b
  {
    if a != b {
      var x :| x in b && x !in a;
      assert a <= b - {x};
      SubsetCardinality(a, b - {x});
    }
  }

  lemma {:induction false} SubsetCardinality<T>(a: set<T>, b: set<T>)
    requires a <= b
    ensures |a| <= |b|
  {
    assert b == a + (b - a);
  }
}
