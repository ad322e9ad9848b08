/** Collecting a policy's endorsements: a polling scan over block ranges with an error budget. */
module SignatureScan {
  import opened Foundations
  import opened Quorum
  import opened Metadata

  const MAX_CONSECUTIVE_ERRORS: nat := 15

  /** A call of signNewSigningPolicy as its input decodes; signer is absent when recovery fails. */
  datatype Endorsement = Endorsement(policyID: uint32, hash: nat, signer: Option<Address>, signature: Bytes)

  /** None: the transaction input does not decode. */
  type Tx = Option<Endorsement>

  /** What each block holds once indexed. */
  type Chain = int -> seq<Tx>

  /** One poll of the indexer, by how it goes. */
  datatype Poll = StateError | PastDeadline | TxError(index: int) | Fetched(index: int)

  datatype Outcome = NotConsecutive | TooManyErrors | DeadlineExceeded | Cancelled | Collected(signatures: seq<Bytes>)

  datatype Goal = Goal(epoch: uint32, hash: nat, policy: Policy)

  /** A successful fetch of the blocks in (from, to]. */
  datatype Scan = Scan(from: int, to: int)

  /** checkAndExtract. */
  function Extract(g: Goal, tx: Tx): (r: Option<(Address, Bytes)>) {
    if tx.None? then None
    else if tx.value.policyID != g.epoch || tx.value.hash != g.hash then None
    else if tx.value.signer.None? then None
    else Some((tx.value.signer.value, tx.value.signature))
  }

  function Blocks(chain: Chain, from: int, to: int): (r: seq<Tx>)
    decreases if from < to then to - from else 0
  {
    if to <= from then [] else Blocks(chain, from, to - 1) + chain(to)
  }

  /** The transaction by which a endorses the goal's policy with this signature. */
  function Endorsing(g: Goal, a: Address, signature: Bytes): (r: Tx) {
    Some(Endorsement(g.epoch, g.hash, Some(a), signature))
  }

  /** Extraction accepts exactly the endorsements of the goal's epoch and hash whose signer is recovered. */
  lemma ExtractIff(g: Goal, tx: Tx, a: Address, signature: Bytes)
    ensures Extract(g, tx) == Some((a, signature)) <==> tx == Some(Endorsement(g.epoch, g.hash, Some(a), signature))
  {
  }

  /** Every voter of the active policy who endorses among txs is one of these signers. */
  ghost predicate AllSeen(g: Goal, txs: seq<Tx>, signers: seq<Address>) {
    forall a, signature :: Endorsing(g, a, signature) in txs && WeightOf(g.policy.weights, a) > 0 ==> a in signers
  }

  /** a endorsed the goal's policy with this signature in one of txs. */
  ghost predicate Backed(g: Goal, txs: seq<Tx>, a: Address, signature: Bytes) {
    Some(Endorsement(g.epoch, g.hash, Some(a), signature)) in txs
  }

  /** signatures[k] was given by signers[k], distinct voters of the active policy. */
  ghost predicate Genuine(g: Goal, txs: seq<Tx>, signers: seq<Address>, signatures: seq<Bytes>) {
    && |signers| == |signatures| && Distinct(signers)
    && (forall k :: 0 <= k < |signers| ==> WeightOf(g.policy.weights, signers[k]) > 0)
    && (forall k :: 0 <= k < |signers| ==> Backed(g, txs, signers[k], signatures[k]))
  }

  /** The inner loop: walk the fetched transactions until the threshold is exceeded. */
  method ScanTransactions(g: Goal, ghost before: seq<Tx>, txs: seq<Tx>, ghost signers0: seq<Address>,
      signatures0: seq<Bytes>, voted0: set<Address>, weight0: uint16)
    returns (signatures: seq<Bytes>, voted: set<Address>, weight: uint16, done: bool, ghost signers: seq<Address>)
    requires ValidPolicy(g.policy) && Genuine(g, before, signers0, signatures0)
    requires voted0 == Elems(signers0) && weight0 == Tally(g.policy.weights, signers0) <= g.policy.threshold
    ensures Genuine(g, before + txs, signers, signatures) && signers0 <= signers
    ensures voted == Elems(signers) && weight == Tally(g.policy.weights, signers)
    ensures if done then Crosses(g, signers) else weight <= g.policy.threshold && AllSeen(g, txs, signers)
  {
    hide Genuine, AllSeen, Backed, Tally, Extract, Distinct, ValidPolicy;
    signers, signatures, voted, weight, done := signers0, signatures0, voted0, weight0, false;
    ghost var all := before + txs;
    assert Genuine(g, all, signers, signatures) by { GenuineMore(g, before, txs, signers, signatures); }
    NothingYet(g, signers);
    for j := 0 to |txs|
      invariant Genuine(g, all, signers, signatures) && signers0 <= signers
      invariant voted == Elems(signers) && weight == Tally(g.policy.weights, signers) <= g.policy.threshold
      invariant AllSeen(g, txs[..j], signers) && !done
    {
      ghost var seen := signers;
      var extracted := Extract(g, txs[j]);
      if extracted.Some? {
        var (addr, signature) := extracted.value;
        var w := WeightOf(g.policy.weights, addr);
        if w > 0 && addr !in voted {
          ExtractIff(g, txs[j], addr, signature);
          assert all[|before| + j] == txs[j];
          BackedBy(g, all, |before| + j, addr, signature);
          NewSigner(g, all, signers, signatures, addr, signature);
          signers := signers + [addr];
          signatures := signatures + [signature];
          voted := voted + {addr};
          weight := AddU16(weight, w);
          if weight > g.policy.threshold {
            assert signers[..|signers| - 1] + [addr] == signers;
            done := true;
            return;
          }
        }
      }
      SeenOneMore(g, txs, j, seen, signers);
    }
    assert txs[..|txs|] == txs;
  }

  /** Enough weight, and not without the last signer. */
  ghost predicate Crosses(g: Goal, signers: seq<Address>) {
    && signers != []
    && Tally(g.policy.weights, signers) > g.policy.threshold
    && Tally(g.policy.weights, signers[..|signers| - 1]) <= g.policy.threshold
  }

  lemma GenuineMore(g: Goal, before: seq<Tx>, txs: seq<Tx>, signers: seq<Address>, signatures: seq<Bytes>)
    requires Genuine(g, before, signers, signatures)
    ensures Genuine(g, before + txs, signers, signatures)
  {
    forall k | 0 <= k < |signers| ensures Backed(g, before + txs, signers[k], signatures[k]) {
      assert Backed(g, before, signers[k], signatures[k]);
    }
  }

  /** A new voter keeps the list genuine, and its uint16 weight sum exact. */
  lemma NewSigner(g: Goal, all: seq<Tx>, signers: seq<Address>, signatures: seq<Bytes>, a: Address, signature: Bytes)
    requires ValidPolicy(g.policy) && Genuine(g, all, signers, signatures) && Backed(g, all, a, signature)
    requires WeightOf(g.policy.weights, a) > 0 && a !in Elems(signers)
    ensures Genuine(g, all, signers + [a], signatures + [signature])
    ensures Elems(signers + [a]) == Elems(signers) + {a}
    ensures Tally(g.policy.weights, signers + [a]) ==
        Tally(g.policy.weights, signers) + WeightOf(g.policy.weights, a) < U16
  {
    assert (signers + [a])[..|signers|] == signers;
    TallyBounded(g.policy.weights, signers + [a]);
  }

  lemma NothingYet(g: Goal, signers: seq<Address>)
    ensures AllSeen(g, [], signers) && Genuine(g, [], [], []) && Tally(g.policy.weights, []) == 0
  {
  }

  lemma Start(chain: Chain, start: int, polls: seq<Poll>)
    ensures Streak(polls, 0) == 0 && Unhindered(polls, 0)
    ensures ScansOf([], start) == [] && TxsOf(chain, []) == [] && EndOf([], start) == start
  {
  }

  lemma BackedBy(g: Goal, txs: seq<Tx>, i: nat, a: Address, signature: Bytes)
    requires i < |txs| && txs[i] == Some(Endorsement(g.epoch, g.hash, Some(a), signature))
    ensures Backed(g, txs, a, signature)
  {
  }

  lemma SeenOneMore(g: Goal, txs: seq<Tx>, j: nat, seen: seq<Address>, signers: seq<Address>)
    requires j < |txs| && AllSeen(g, txs[..j], seen) && seen <= signers
    requires Extract(g, txs[j]).Some? && WeightOf(g.policy.weights, Extract(g, txs[j]).value.0) > 0 ==>
               Extract(g, txs[j]).value.0 in signers
    ensures AllSeen(g, txs[..j + 1], signers)
  {
    forall a, signature | Endorsing(g, a, signature) in txs[..j + 1] && WeightOf(g.policy.weights, a) > 0
      ensures a in signers
    {
      ExtractIff(g, txs[j], a, signature);
      if Endorsing(g, a, signature) != txs[j] {
        assert txs[..j + 1] == txs[..j] + [txs[j]];
        assert a in seen;
      }
    }
  }

  // ---------------------------------------------------------------- the poll loop

  predicate IsError(p: Poll) {
    p.StateError? || p.TxError?
  }

  /** Length of the run of errors that ends at position n. */
  function Streak(polls: seq<Poll>, n: nat): (r: nat)
    requires n <= |polls|
  {
    if n == 0 || !IsError(polls[n - 1]) then 0 else Streak(polls, n - 1) + 1
  }

  /** The last m of the first n polls failed, to read the state or to fetch the transactions. */
  ghost predicate LastFail(polls: seq<Poll>, n: nat, m: nat)
    requires n <= |polls|
  {
    m <= n && forall k :: n - m <= k < n ==> polls[k].StateError? || polls[k].TxError?
  }

  lemma {:induction false} StreakIs(polls: seq<Poll>, n: nat, m: nat)
    requires n <= |polls|
    ensures LastFail(polls, n, m) <==> m <= Streak(polls, n)
  {
    if n > 0 && m > 0 { StreakIs(polls, n - 1, m - 1); }
  }

  /** None of the first n polls gives a reason to stop. */
  ghost predicate Unhindered(polls: seq<Poll>, n: nat)
    requires n <= |polls|
  {
    && (forall k :: 0 <= k <= n ==> Streak(polls, k) < MAX_CONSECUTIVE_ERRORS)
    && (forall k :: 0 <= k < n ==> !polls[k].PastDeadline?)
  }

  lemma UnhinderedIs(polls: seq<Poll>, n: nat)
    requires n <= |polls| && Unhindered(polls, n)
    ensures forall k :: 0 <= k <= n ==> !LastFail(polls, k, 15) && (k > 0 ==> !polls[k - 1].PastDeadline?)
  {
    forall k | 0 <= k <= n ensures !LastFail(polls, k, 15) { StreakIs(polls, k, 15); }
  }

  lemma StreakStep(polls: seq<Poll>, i: nat)
    requires i < |polls|
    ensures Streak(polls, i + 1) == if IsError(polls[i]) then Streak(polls, i) + 1 else 0
    ensures Unhindered(polls, i) ==>
              (Unhindered(polls, i + 1) <==> Streak(polls, i + 1) < MAX_CONSECUTIVE_ERRORS && !polls[i].PastDeadline?)
  {
  }

  /** The fetched ranges form one chain from start: each begins where the previous ended. */
  ghost predicate Contiguous(scans: seq<Scan>, start: int) {
    scans == [] ||
    var n := |scans| - 1;
    scans[n].from == EndOf(scans[..n], start) && Contiguous(scans[..n], start)
  }

  /** The scans of the polls so far: one per fetch, none for an error. */
  function ScansOf(polls: seq<Poll>, start: int): (r: seq<Scan>) {
    if polls == [] then []
    else
      var n := |polls| - 1;
      var before := ScansOf(polls[..n], start);
      if polls[n].Fetched? then before + [Scan(EndOf(before, start), polls[n].index)] else before
  }

  function EndOf(scans: seq<Scan>, start: int): (r: int) {
    if scans == [] then start else scans[|scans| - 1].to
  }

  function TxsOf(chain: Chain, scans: seq<Scan>): (r: seq<Tx>) {
    if scans == [] then []
    else TxsOf(chain, scans[..|scans| - 1]) + Blocks(chain, scans[|scans| - 1].from, scans[|scans| - 1].to)
  }

  /** Only a fetch extends the scans and the transactions seen. */
  lemma PollStep(chain: Chain, start: int, polls: seq<Poll>, i: nat)
    requires i < |polls|
    ensures var before, after := ScansOf(polls[..i], start), ScansOf(polls[..i + 1], start);
            if polls[i].Fetched?
            then
              && EndOf(after, start) == polls[i].index
              && TxsOf(chain, after) == TxsOf(chain, before) + Blocks(chain, EndOf(before, start), polls[i].index)
            else after == before
  {
    assert polls[..i + 1][..i] == polls[..i];
    var before := ScansOf(polls[..i], start);
    assert forall s: Scan :: (before + [s])[..|before|] == before;
  }

  /**
   * collectSignatures, over any script of polls; running out of script is cancellation. `used` is how many polls
   * were made.
   */
  method CollectSignatures(g: Goal, activeEpoch: uint32, chain: Chain, start: int, polls: seq<Poll>)
    returns (outcome: Outcome, ghost used: nat, ghost signers: seq<Address>)
    requires ValidPolicy(g.policy)
    ensures used <= |polls|
    ensures outcome.NotConsecutive? <==> g.epoch != (activeEpoch + 1) % U32
    ensures !outcome.NotConsecutive? ==>
              && (outcome.TooManyErrors? <==> LastFail(polls, used, 15))
              && (outcome.DeadlineExceeded? <==> used > 0 && polls[used - 1].PastDeadline?)
              && (forall n :: 0 <= n < used ==> !LastFail(polls, n, 15) && (n > 0 ==> !polls[n - 1].PastDeadline?))
              && (outcome.Cancelled? ==> used == |polls|)
    ensures outcome.Collected? ==>
              && Genuine(g, TxsOf(chain, ScansOf(polls[..used], start)), signers, outcome.signatures)
              && Crosses(g, signers)
    ensures outcome.Cancelled? || outcome.TooManyErrors? || outcome.DeadlineExceeded? ==>
              && AllSeen(g, TxsOf(chain, ScansOf(polls[..used], start)), signers)
              && Tally(g.policy.weights, signers) <= g.policy.threshold
  {
    hide Streak, Unhindered, LastFail, Genuine, AllSeen, Tally, Blocks, ValidPolicy, Crosses, TxsOf, ScansOf, EndOf;
    used, signers := 0, [];
    if g.epoch != (activeEpoch + 1) % U32 {
      return NotConsecutive, 0, [];
    }
    var from, errCount, weight: uint16 := start, 0, 0;
    var signatures: seq<Bytes>, voted: set<Address> := [], {};
    var i := 0;
    NothingYet(g, []);
    Start(chain, start, polls);
    while i < |polls|
      invariant 0 <= i <= |polls| && used == i
      invariant errCount == Streak(polls, i) < MAX_CONSECUTIVE_ERRORS && Unhindered(polls, i)
      invariant i > 0 ==> !polls[i - 1].PastDeadline? && Unhindered(polls, i - 1)
      invariant from == EndOf(ScansOf(polls[..i], start), start)
      invariant Genuine(g, TxsOf(chain, ScansOf(polls[..i], start)), signers, signatures)
      invariant AllSeen(g, TxsOf(chain, ScansOf(polls[..i], start)), signers)
      invariant voted == Elems(signers) && weight == Tally(g.policy.weights, signers) <= g.policy.threshold
    {
      var poll := polls[i];
      ghost var scans := ScansOf(polls[..i], start);
      PollStep(chain, start, polls, i);
      StreakStep(polls, i);
      UnhinderedIs(polls, i);
      StreakIs(polls, i + 1, 15);
      i := i + 1;
      used := i;
      if poll.PastDeadline? {
        return DeadlineExceeded, used, signers;
      }
      if IsError(poll) {
        errCount := errCount + 1;
        if errCount < MAX_CONSECUTIVE_ERRORS {
          continue;
        }
        return TooManyErrors, used, signers;
      }
      var to := poll.index;
      var txs := Blocks(chain, from, to);
      ghost var seen := signers;
      var done;
      signatures, voted, weight, done, signers :=
        ScanTransactions(g, TxsOf(chain, scans), txs, signers, signatures, voted, weight);
      if done {
        return Collected(signatures), used, signers;
      }
      AllSeenJoin(g, TxsOf(chain, scans), txs, seen, signers);
      from := to;
      errCount := 0;
    }
    UnhinderedIs(polls, used);
    return Cancelled, used, signers;
  }

  lemma AllSeenJoin(g: Goal, a: seq<Tx>, b: seq<Tx>, seen: seq<Address>, signers: seq<Address>)
    requires AllSeen(g, a, seen) && AllSeen(g, b, signers) && seen <= signers
    ensures AllSeen(g, a + b, signers)
  {
  }

  // ---------------------------------------------------------------- coverage of the blocks

  lemma {:induction false} ScansContiguous(polls: seq<Poll>, start: int)
    ensures Contiguous(ScansOf(polls, start), start)
  {
    if polls != [] {
      var before := ScansOf(polls[..|polls| - 1], start);
      ScansContiguous(polls[..|polls| - 1], start);
      assert forall s: Scan :: (before + [s])[..|before|] == before;
    }
  }

  /** The transaction is in one of the blocks of (from, to]. */
  ghost predicate InBlocks(chain: Chain, from: int, to: int, tx: Tx) {
    exists b :: from < b <= to && tx in chain(b)
  }

  lemma {:induction false} BlocksHold(chain: Chain, from: int, to: int, tx: Tx)
    ensures tx in Blocks(chain, from, to) <==> InBlocks(chain, from, to, tx)
    decreases if from < to then to - from else 0
  {
    if from < to {
      BlocksHold(chain, from, to - 1, tx);
      OneBlockMore(chain, from, to, tx);
      hide InBlocks;
    }
  }

  lemma OneBlockMore(chain: Chain, from: int, to: int, tx: Tx)
    requires from < to
    ensures InBlocks(chain, from, to, tx) <==> InBlocks(chain, from, to - 1, tx) || tx in chain(to)
  {
    if tx in chain(to) { assert from < to <= to && tx in chain(to); }
    if InBlocks(chain, from, to - 1, tx) {
      var b :| from < b <= to - 1 && tx in chain(b);
      assert from < b <= to && tx in chain(b);
    }
    if InBlocks(chain, from, to, tx) && tx !in chain(to) {
      var b :| from < b <= to && tx in chain(b);
      assert from < b <= to - 1 && tx in chain(b);
    }
  }

  /** How many of the scans fetched block b. */
  function TimesScanned(scans: seq<Scan>, b: int): (r: nat) {
    if scans == [] then 0
    else TimesScanned(scans[..|scans| - 1], b) + if scans[|scans| - 1].from < b <= scans[|scans| - 1].to then 1 else 0
  }

  /** The index never goes backwards. */
  ghost predicate Forward(scans: seq<Scan>) {
    forall k :: 0 <= k < |scans| ==> scans[k].from <= scans[k].to
  }

  /** The transactions seen are those of the blocks scanned, and no others. */
  lemma {:induction false} SeenBlocks(chain: Chain, scans: seq<Scan>, tx: Tx)
    ensures tx in TxsOf(chain, scans) <==> (exists b :: TimesScanned(scans, b) >= 1 && tx in chain(b))
  {
    if scans != [] {
      var n := |scans| - 1;
      SeenBlocks(chain, scans[..n], tx);
      BlocksHold(chain, scans[n].from, scans[n].to, tx);
      if tx in TxsOf(chain, scans[..n]) {
        var b :| TimesScanned(scans[..n], b) >= 1 && tx in chain(b);
        assert TimesScanned(scans, b) >= 1;
      } else if tx in TxsOf(chain, scans) {
        var b :| scans[n].from < b <= scans[n].to && tx in chain(b);
        assert TimesScanned(scans, b) >= 1;
      }
      if exists b :: TimesScanned(scans, b) >= 1 && tx in chain(b) {
        var b :| TimesScanned(scans, b) >= 1 && tx in chain(b);
        assert TimesScanned(scans[..n], b) >= 1 || scans[n].from < b <= scans[n].to;
      }
    }
  }

  /** How many of the scans stepped back over block b. */
  function TimesUndone(scans: seq<Scan>, b: int): (r: nat) {
    if scans == [] then 0
    else TimesUndone(scans[..|scans| - 1], b) + if scans[|scans| - 1].to < b <= scans[|scans| - 1].from then 1 else 0
  }

  /** Each block after start is fetched exactly once, up to the last index, and no other block is fetched. */
  ghost predicate EachOnce(scans: seq<Scan>, start: int) {
    forall b :: TimesScanned(scans, b) == if start < b <= EndOf(scans, start) then 1 else 0
  }

  /** The index never goes forwards. */
  ghost predicate Backward(scans: seq<Scan>) {
    forall k :: 0 <= k < |scans| ==> scans[k].to <= scans[k].from
  }

  /** A chain of ranges crosses each block upwards once more than downwards if it ends beyond it, and so on. */
  lemma {:induction false} NetCrossings(scans: seq<Scan>, start: int, b: int)
    requires Contiguous(scans, start)
    ensures var end := EndOf(scans, start);
            TimesScanned(scans, b) - TimesUndone(scans, b) ==
              (if start < b <= end then 1 else 0) - (if end < b <= start then 1 else 0)
  {
    if scans != [] { NetCrossings(scans[..|scans| - 1], start, b); }
  }

  lemma {:induction false} CrossedAt(scans: seq<Scan>, k: nat, b: int)
    requires k < |scans|
    ensures scans[k].from < b <= scans[k].to ==> TimesScanned(scans, b) >= 1
    ensures scans[k].to < b <= scans[k].from ==> TimesUndone(scans, b) >= 1
  {
    if k < |scans| - 1 { CrossedAt(scans[..|scans| - 1], k, b); }
  }

  lemma {:induction false} NeverCrossed(scans: seq<Scan>, b: int)
    ensures Forward(scans) ==> TimesUndone(scans, b) == 0
    ensures Backward(scans) ==> TimesScanned(scans, b) == 0
  {
    if scans != [] { NeverCrossed(scans[..|scans| - 1], b); }
  }

  lemma {:induction false} BackwardEnds(scans: seq<Scan>, start: int)
    requires Contiguous(scans, start)
    ensures Backward(scans) ==> EndOf(scans, start) <= start
    ensures Forward(scans) ==> start <= EndOf(scans, start)
  {
    if scans != [] { BackwardEnds(scans[..|scans| - 1], start); }
  }

  /**
   * Whatever errors intervene, each block after start is fetched exactly once, up to the last index, and no other,
   * exactly when the index never goes backwards; or never goes forwards, so that there is nothing to fetch.
   */
  lemma EachBlockOnceIff(scans: seq<Scan>, start: int)
    requires Contiguous(scans, start)
    ensures EachOnce(scans, start) <==> Forward(scans) || Backward(scans)
  {
    hide Contiguous, TimesScanned, TimesUndone;
    BackwardEnds(scans, start);
    if Forward(scans) || Backward(scans) {
      forall b ensures TimesScanned(scans, b) == if start < b <= EndOf(scans, start) then 1 else 0 {
        NetCrossings(scans, start, b);
        NeverCrossed(scans, b);
      }
    } else {
      var i :| 0 <= i < |scans| && scans[i].from > scans[i].to;
      var j :| 0 <= j < |scans| && scans[j].to > scans[j].from;
      CrossedAt(scans, i, scans[i].from);
      CrossedAt(scans, j, scans[j].to);
      NetCrossings(scans, start, scans[i].from);
      NetCrossings(scans, start, scans[j].to);
    }
  }

  /**
   * In any case no block up to the last index is skipped: it is fetched once more than the index steps back over it.
   */
  lemma NoBlockSkipped(scans: seq<Scan>, start: int, b: int)
    requires Contiguous(scans, start) && start < b <= EndOf(scans, start)
    ensures TimesScanned(scans, b) == 1 + TimesUndone(scans, b)
  {
    NetCrossings(scans, start, b);
  }

  /** A script of polls whose index goes back and forth has blocks fetched twice. */
  lemma BackwardIndexRescans()
    ensures TimesScanned(ScansOf([Fetched(10), Fetched(5), Fetched(12)], 0), 7) == 2
  {
    var polls := [Fetched(10), Fetched(5), Fetched(12)];
    assert polls[..2] == [Fetched(10), Fetched(5)] && polls[..2][..1] == [Fetched(10)] && |polls[..2][..1][..0]| == 0;
    assert ScansOf(polls[..2][..1], 0) == [Scan(0, 10)];
    assert ScansOf(polls[..2], 0) == [Scan(0, 10), Scan(10, 5)];
    var scans := ScansOf(polls, 0);
    assert scans == [Scan(0, 10), Scan(10, 5), Scan(5, 12)];
    assert scans[..2] == [Scan(0, 10), Scan(10, 5)] && scans[..2][..1] == [Scan(0, 10)] && |scans[..2][..1][..0]| == 0;
    assert TimesScanned(scans[..2][..1], 7) == 1;
    assert TimesScanned(scans[..2], 7) == 1;
  }
}
