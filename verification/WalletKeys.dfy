/** The wallet key cache as values: the two maps that must agree, the key actions, and what a sync does to the keys. */
module WalletKeys {
  import opened Foundations

  const KEY_PROOF_BATCH_SIZE: nat := 100

  datatype IDPair = IDPair(wallet: ID, key: uint64)

  /** KeyExistence; a missing nonce is a nil big.Int. */
  datatype KeyInfo = KeyInfo(pair: IDPair, nonce: Option<nat>)

  datatype KeyData = KeyData(info: KeyInfo, proof: Bytes)

  /** An element of the node's KEY_INFO answer. */
  datatype RemoteKey = RemoteKey(pair: IDPair, nonce: uint64)

  /** A key action of the event loop as its result parses; None is a parse error. */
  datatype KeyEvent = Add(data: Option<KeyData>) | Delete(pair: Option<IDPair>)

  datatype WalletError = WalletNotFound | KeyDataNotFound

  datatype SyncOutcome = Synced | FetchFailed | ParseFailed

  type Keys = map<IDPair, KeyData>
  type Lists = map<ID, seq<uint64>>

  /** A missing key of a Go map reads as the nil slice. */
  function ListOf(lists: Lists, w: ID): (r: seq<uint64>) {
    if w in lists then lists[w] else []
  }

  function Listed(lists: Lists, p: IDPair): (r: Lists) {
    if p.key in ListOf(lists, p.wallet) then lists else lists[p.wallet := ListOf(lists, p.wallet) + [p.key]]
  }

  /** slices.DeleteFunc on one value. */
  function Without(s: seq<uint64>, k: uint64): (r: seq<uint64>)
    ensures forall x :: x in r <==> x in s && x != k
  {
    if s == [] then []
    else
      var n := |s| - 1;
      assert s == s[..n] + [s[n]];
      if s[n] == k then Without(s[..n], k) else Without(s[..n], k) + [s[n]]
  }

  lemma {:induction false} WithoutDistinct(s: seq<uint64>, k: uint64)
    requires Distinct(s)
    ensures Distinct(Without(s, k))
  {
    if s != [] {
      var n := |s| - 1;
      WithoutDistinct(s[..n], k);
      assert s[n] !in s[..n];
    }
  }

  function Unlisted(lists: Lists, p: IDPair): (r: Lists) {
    var rest := Without(ListOf(lists, p.wallet), p.key);
    if rest == [] then lists - {p.wallet} else lists[p.wallet := rest]
  }

  /** (w, k) is cached iff k is listed under w; it is then listed once, and no wallet has an empty list. */
  ghost predicate Agree(keys: Keys, lists: Lists) {
    && (forall p: IDPair :: p in keys <==> p.key in ListOf(lists, p.wallet))
    && (forall w :: w in lists ==> lists[w] != [] && Distinct(lists[w]))
  }

  lemma ListedAgree(keys: Keys, lists: Lists, p: IDPair, d: KeyData)
    requires Agree(keys, lists)
    ensures Agree(keys[p := d], Listed(lists, p))
  {
    var lists' := Listed(lists, p);
    forall q: IDPair ensures q in keys[p := d] <==> q.key in ListOf(lists', q.wallet) {
      assert q in keys <==> q.key in ListOf(lists, q.wallet);
    }
  }

  lemma UnlistedAgree(keys: Keys, lists: Lists, p: IDPair)
    requires Agree(keys, lists)
    ensures Agree(keys - {p}, Unlisted(lists, p))
  {
    var lists' := Unlisted(lists, p);
    WithoutDistinct(ListOf(lists, p.wallet), p.key);
    forall q: IDPair ensures q in keys - {p} <==> q.key in ListOf(lists', q.wallet) {
      assert q in keys <==> q.key in ListOf(lists, q.wallet);
    }
  }

  // ---------------------------------------------------------------- what the operations do to the keys

  function Cached(keys: Keys, d: KeyData): (r: Keys) { keys[d.info.pair := d] }

  function Applied(keys: Keys, e: KeyEvent): (r: Keys) {
    match e
    case Add(Some(d)) => Cached(keys, d)
    case Delete(Some(p)) => keys - {p}
    case _ => keys
  }

  function AppliedAll(keys: Keys, events: seq<KeyEvent>): (r: Keys) {
    if events == [] then keys else Applied(AppliedAll(keys, events[..|events| - 1]), events[|events| - 1])
  }

  lemma {:induction false} AppliedJoin(keys: Keys, a: seq<KeyEvent>, b: seq<KeyEvent>)
    ensures AppliedAll(keys, a + b) == AppliedAll(AppliedAll(keys, a), b)
  {
    if b == [] {
      assert a + b == a;
    } else {
      assert (a + b)[..|a + b| - 1] == a + b[..|b| - 1];
      AppliedJoin(keys, a, b[..|b| - 1]);
    }
  }

  lemma AppliedCons(keys: Keys, e: KeyEvent, rest: seq<KeyEvent>)
    ensures AppliedAll(keys, [e] + rest) == AppliedAll(Applied(keys, e), rest)
  {
    AppliedJoin(keys, [e], rest);
    assert [e][..0] == [];
  }

  /** The proofs of one batch are stored one by one up to the first that does not parse. */
  function Stores(proofs: seq<Option<KeyData>>): (r: seq<KeyEvent>)
    decreases |proofs|
  {
    if proofs == [] || proofs[0].None? then [] else [Add(proofs[0])] + Stores(proofs[1..])
  }

  function Pairs(remote: seq<RemoteKey>): (r: set<IDPair>) {
    set x | x in remote :: x.pair
  }

  /** Cached at the snapshot and absent from the node's answer. */
  predicate Stale(p: IDPair, remote: set<IDPair>, localAtStart: set<IDPair>) {
    p !in remote && p in localAtStart
  }

  function StaleIn(s: set<IDPair>, remote: set<IDPair>, localAtStart: set<IDPair>): (r: set<IDPair>) {
    set p | p in s && Stale(p, remote, localAtStart)
  }

  lemma StaleOneMore(keys: Keys, rest: set<IDPair>, p: IDPair, remote: set<IDPair>, localAtStart: set<IDPair>)
    requires p in rest && rest <= keys.Keys
    ensures var before := StaleIn(keys.Keys - rest, remote, localAtStart);
            var after := StaleIn(keys.Keys - (rest - {p}), remote, localAtStart);
            && (if Stale(p, remote, localAtStart) then keys - after == keys - before - {p} else after == before)
            && p !in before
  {
    var before := StaleIn(keys.Keys - rest, remote, localAtStart);
    var after := StaleIn(keys.Keys - (rest - {p}), remote, localAtStart);
    if Stale(p, remote, localAtStart) {
      assert after == before + {p};
    } else {
      assert after == before;
    }
  }

  /** Missing from the cache, or cached without a nonce or with another one; the nonce is compared as a uint64. */
  predicate NeedsProof(keys: Keys, x: RemoteKey) {
    || x.pair !in keys
    || keys[x.pair].info.nonce.None?
    || keys[x.pair].info.nonce.value % U64 != x.nonce
  }

  /** The keys to ask proofs for, in the order of the node's answer. */
  function Needed(keys: Keys, remote: seq<RemoteKey>): (r: seq<IDPair>) {
    if remote == [] then []
    else
      var n := |remote| - 1;
      Needed(keys, remote[..n]) + if NeedsProof(keys, remote[n]) then [remote[n].pair] else []
  }

  /** Cached with the node's own nonce. */
  predicate Fresh(keys: Keys, x: RemoteKey) {
    x.pair in keys && keys[x.pair].info.nonce.Some? && keys[x.pair].info.nonce.value % U64 == x.nonce
  }

  lemma NeedsProofIff(keys: Keys, x: RemoteKey)
    ensures NeedsProof(keys, x) <==> !Fresh(keys, x)
  {
  }

  /** A key is asked for exactly when the node's answer lists it with a nonce other than the cached one, if any. */
  lemma {:induction false} NeededMembers(keys: Keys, remote: seq<RemoteKey>, p: IDPair)
    ensures p in Needed(keys, remote) <==> (exists x :: x in remote && x.pair == p && !Fresh(keys, x))
  {
    hide NeedsProof, Fresh;
    if remote != [] {
      var n := |remote| - 1;
      NeededMembers(keys, remote[..n], p);
      NeedsProofIff(keys, remote[n]);
      assert remote == remote[..n] + [remote[n]];
    }
  }

  // ---------------------------------------------------------------- sync against the event loop

  /** What the node answers to the b-th KEY_PROOF request: None when the request fails. */
  type Node = (nat, seq<IDPair>) -> Option<seq<Option<KeyData>>>

  /** The key actions the event loop handles in each stretch of sync that does not hold the lock. */
  type Gaps = nat -> seq<KeyEvent>

  predicate AllParse(proofs: seq<Option<KeyData>>) {
    forall i :: 0 <= i < |proofs| ==> proofs[i].Some?
  }

  function ProofPairs(proofs: seq<Option<KeyData>>): (r: set<IDPair>) {
    set i | 0 <= i < |proofs| && proofs[i].Some? :: proofs[i].value.info.pair
  }

  /** The node returns proofs exactly for the keys asked for. */
  ghost predicate Exact(node: Node) {
    forall b, batch ::
      node(b, batch).Some? && AllParse(node(b, batch).value) && ProofPairs(node(b, batch).value) == Elems(batch)
  }

  /** Its proofs carry the nonces of its KEY_INFO answer. */
  ghost predicate Current(node: Node, remote: seq<RemoteKey>) {
    forall b, batch :: node(b, batch).Some? ==> CurrentProofs(node(b, batch).value, remote)
  }

  ghost predicate CurrentProofs(proofs: seq<Option<KeyData>>, remote: seq<RemoteKey>) {
    forall i, x :: 0 <= i < |proofs| && proofs[i].Some? && x in remote && proofs[i].value.info.pair == x.pair ==>
      proofs[i].value.info.nonce.Some? && proofs[i].value.info.nonce.value % U64 == x.nonce
  }

  predicate NoDelete(events: seq<KeyEvent>) {
    forall i :: 0 <= i < |events| ==> events[i].Delete? ==> events[i].pair.None?
  }

  ghost predicate NoDeletes(gaps: Gaps, n: nat) {
    forall i :: 0 <= i < n ==> NoDelete(gaps(i))
  }

  function AddedBy(events: seq<KeyEvent>): (r: set<IDPair>) {
    set i | 0 <= i < |events| && events[i].Add? && events[i].data.Some? :: events[i].data.value.info.pair
  }

  /** The keys that events added in the first n gaps. */
  function AddedIn(gaps: Gaps, n: nat): (r: set<IDPair>) {
    if n == 0 then {} else AddedIn(gaps, n - 1) + AddedBy(gaps(n - 1))
  }

  /** The last of the events that adds or deletes p deletes it. */
  predicate DeletedLast(events: seq<KeyEvent>, p: IDPair) {
    events != [] &&
    var n := |events| - 1;
    || events[n] == Delete(Some(p))
    || (p !in AddedBy([events[n]]) && DeletedLast(events[..n], p))
  }

  lemma AddedJoin(a: seq<KeyEvent>, b: seq<KeyEvent>)
    ensures AddedBy(a + b) == AddedBy(a) + AddedBy(b)
  {
    forall p | p in AddedBy(a) + AddedBy(b) ensures p in AddedBy(a + b) {
      if p in AddedBy(a) {
        var i :| 0 <= i < |a| && a[i].Add? && a[i].data.Some? && a[i].data.value.info.pair == p;
        assert (a + b)[i] == a[i];
      } else {
        var i :| 0 <= i < |b| && b[i].Add? && b[i].data.Some? && b[i].data.value.info.pair == p;
        assert (a + b)[|a| + i] == b[i];
      }
    }
  }

  /** Which keys any sequence of key actions leaves: those cached or added whose last action is not a deletion. */
  lemma {:induction false} KeysAfter(keys: Keys, events: seq<KeyEvent>, p: IDPair)
    ensures p in AppliedAll(keys, events) <==> (p in keys || p in AddedBy(events)) && !DeletedLast(events, p)
  {
    if events != [] {
      var n := |events| - 1;
      KeysAfter(keys, events[..n], p);
      assert events == events[..n] + [events[n]];
      AddedJoin(events[..n], [events[n]]);
      OneEvent(AppliedAll(keys, events[..n]), events[n], p);
    }
  }

  lemma OneEvent(keys: Keys, e: KeyEvent, p: IDPair)
    ensures p in Applied(keys, e) <==> p in AddedBy([e]) || (p in keys && e != Delete(Some(p)))
    ensures p in AddedBy([e]) ==> e != Delete(Some(p))
  {
    if e.Add? && e.data.Some? { assert [e][0] == e; }
  }

  lemma {:induction false} NeverDeleted(events: seq<KeyEvent>, p: IDPair)
    requires NoDelete(events)
    ensures !DeletedLast(events, p)
  {
    if events != [] { NeverDeleted(events[..|events| - 1], p); }
  }

  /** How the batches of a sync go: its outcome, all key actions in the order they take effect, the gaps used up. */
  datatype Course = Course(outcome: SyncOutcome, events: seq<KeyEvent>, used: nat)

  /** From the b-th batch on: the gap while waiting for its proofs, the proofs, then the rest. */
  function Fetching(node: Node, gaps: Gaps, toFetch: seq<IDPair>, b: nat): (r: Course)
    decreases |toFetch|
  {
    if toFetch == [] then Course(Synced, gaps(b + 1), b + 2)
    else
      var n := Min(KEY_PROOF_BATCH_SIZE, |toFetch|);
      var proofs := node(b, toFetch[..n]);
      if proofs.None? then Course(FetchFailed, gaps(b + 1), b + 2)
      else
        var stored := gaps(b + 1) + Stores(proofs.value);
        if !AllParse(proofs.value) then Course(ParseFailed, stored, b + 2)
        else
          var rest := Fetching(node, gaps, toFetch[n..], b + 1);
          rest.(events := stored + rest.events)
  }

  /** Everything that happens to the keys from the snapshot to the eviction. */
  function CourseOf(keys: Keys, remote: seq<RemoteKey>, node: Node, gaps: Gaps): (r: Course) {
    var course := Fetching(node, gaps, Needed(AppliedAll(keys, gaps(0)), remote), 0);
    course.(events := gaps(0) + course.events)
  }

  /** The keys when sync returns: without the stale ones if it completed. */
  function SyncedKeys(keys: Keys, remote: seq<RemoteKey>, node: Node, gaps: Gaps): (r: Keys) {
    var course := CourseOf(keys, remote, node, gaps);
    var all := AppliedAll(keys, course.events);
    if course.outcome.Synced? then all - StaleIn(all.Keys, Pairs(remote), keys.Keys) else all
  }

  /**
   * The key set a completed sync leaves, whatever the event loop did in its gaps: the keys of the snapshot and those
   * added since, by events or by proofs, whose last action is not a deletion, less the stale ones.
   */
  lemma SyncKeySet(keys: Keys, remote: seq<RemoteKey>, node: Node, gaps: Gaps, p: IDPair)
    requires CourseOf(keys, remote, node, gaps).outcome.Synced?
    ensures var events := CourseOf(keys, remote, node, gaps).events;
            p in SyncedKeys(keys, remote, node, gaps) <==>
              && (p in keys || p in AddedBy(events)) && !DeletedLast(events, p)
              && !Stale(p, Pairs(remote), keys.Keys)
  {
    hide CourseOf, AddedBy, DeletedLast, Pairs;
    KeysAfter(keys, CourseOf(keys, remote, node, gaps).events, p);
  }

  lemma {:induction false} StoresAdded(proofs: seq<Option<KeyData>>)
    requires AllParse(proofs)
    ensures AddedBy(Stores(proofs)) == ProofPairs(proofs)
    decreases |proofs|
  {
    if proofs != [] {
      StoresAdded(proofs[1..]);
      AddedJoin([Add(proofs[0])], Stores(proofs[1..]));
      assert proofs == [proofs[0]] + proofs[1..];
      assert ProofPairs(proofs) == {proofs[0].value.info.pair} + ProofPairs(proofs[1..]);
      assert AddedBy([Add(proofs[0])]) == {proofs[0].value.info.pair} by {
        assert [Add(proofs[0])][0] == Add(proofs[0]);
      }
    } else {
      assert AddedBy([]) == {};
    }
  }

  /** A node that answers exactly lets the sync complete, and adds exactly the keys asked for. */
  lemma {:induction false} ExactFetching(node: Node, gaps: Gaps, toFetch: seq<IDPair>, b: nat)
    requires Exact(node)
    ensures var c := Fetching(node, gaps, toFetch, b);
            && c.outcome.Synced? && c.used >= b + 2
            && AddedIn(gaps, b + 1) + AddedBy(c.events) == AddedIn(gaps, c.used) + Elems(toFetch)
    decreases |toFetch|
  {
    hide AddedBy, AllParse, ProofPairs;
    if toFetch != [] {
      var n := Min(KEY_PROOF_BATCH_SIZE, |toFetch|);
      var rest := Fetching(node, gaps, toFetch[n..], b + 1);
      ExactFetching(node, gaps, toFetch[n..], b + 1);
      assert node(b, toFetch[..n]).Some?;
      var proofs := node(b, toFetch[..n]).value;
      StoresAdded(proofs);
      AddedJoin(gaps(b + 1), Stores(proofs));
      AddedJoin(gaps(b + 1) + Stores(proofs), rest.events);
      assert toFetch == toFetch[..n] + toFetch[n..];
      assert Elems(toFetch) == Elems(toFetch[..n]) + Elems(toFetch[n..]);
      assert AddedIn(gaps, b + 2) == AddedIn(gaps, b + 1) + AddedBy(gaps(b + 1));
    } else {
      assert AddedIn(gaps, b + 2) == AddedIn(gaps, b + 1) + AddedBy(gaps(b + 1));
      assert Elems(toFetch) == {};
    }
  }

  /** The i-th chunk of 100 keys. */
  function Batch(toFetch: seq<IDPair>, i: nat): (r: seq<IDPair>)
    requires 100 * i < |toFetch|
  {
    toFetch[100 * i..Min(100 * i + 100, |toFetch|)]
  }

  /** The node answered the k-th request, and with proofs that all parse. */
  ghost predicate Answered(node: Node, toFetch: seq<IDPair>, b: nat, k: nat) {
    && 100 * k < |toFetch| && node(b + k, Batch(toFetch, k)).Some?
    && None !in node(b + k, Batch(toFetch, k)).value
  }

  lemma AnsweredShift(node: Node, toFetch: seq<IDPair>, b: nat, k: nat)
    requires |toFetch| > 100
    ensures Answered(node, toFetch[100..], b + 1, k) <==> Answered(node, toFetch, b, k + 1)
    ensures 100 * k < |toFetch| - 100 ==> Batch(toFetch[100..], k) == Batch(toFetch, k + 1)
  {
    if 100 * k < |toFetch| - 100 { assert Batch(toFetch[100..], k) == Batch(toFetch, k + 1); }
  }

  lemma AnsweredFirst(node: Node, toFetch: seq<IDPair>, b: nat)
    requires toFetch != []
    ensures var n := Min(KEY_PROOF_BATCH_SIZE, |toFetch|);
            var proofs := node(b, toFetch[..n]);
            && Batch(toFetch, 0) == toFetch[..n]
            && (Answered(node, toFetch, b, 0) <==> proofs.Some? && AllParse(proofs.value))
  {
    assert Batch(toFetch, 0) == toFetch[..Min(KEY_PROOF_BATCH_SIZE, |toFetch|)];
  }

  /**
   * The keys are asked for in chunks of 100, in order. The loop goes through all of them iff the node answers every
   * request with proofs that parse; else it stops at the first that fails, with the error that this one gives.
   */
  lemma {:induction false} FetchingOutcome(node: Node, gaps: Gaps, toFetch: seq<IDPair>, b: nat)
    ensures var c := Fetching(node, gaps, toFetch, b);
            c.used >= b + 2 &&
            var k := c.used - b - 2;
            && (forall i :: 0 <= i < k ==> Answered(node, toFetch, b, i))
            && (c.outcome.Synced? <==> 100 * k >= |toFetch|)
            && (!c.outcome.Synced? ==> !Answered(node, toFetch, b, k))
            && (c.outcome.FetchFailed? <==> 100 * k < |toFetch| && node(b + k, Batch(toFetch, k)).None?)
    decreases |toFetch|
  {
    hide Answered, Batch, AllParse, Stores;
    if toFetch != [] {
      AnsweredFirst(node, toFetch, b);
      var n := Min(KEY_PROOF_BATCH_SIZE, |toFetch|);
      var c, proofs := Fetching(node, gaps, toFetch, b), node(b, toFetch[..n]);
      if proofs.Some? && AllParse(proofs.value) {
        FetchingOutcome(node, gaps, toFetch[n..], b + 1);
        var k := c.used - b - 2;
        if n < |toFetch| {
          forall i | 0 < i < k ensures Answered(node, toFetch, b, i) { AnsweredShift(node, toFetch, b, i - 1); }
          AnsweredShift(node, toFetch, b, k - 1);
        }
      }
    }
  }

  /** A sync completes iff the node answers each of its requests with proofs that parse. */
  lemma SyncCompletesIff(keys: Keys, remote: seq<RemoteKey>, node: Node, gaps: Gaps)
    ensures var needed := Needed(AppliedAll(keys, gaps(0)), remote);
            CourseOf(keys, remote, node, gaps).outcome.Synced? <==>
              forall k: nat :: 100 * k < |needed| ==> Answered(node, needed, 0, k)
  {
    var needed := Needed(AppliedAll(keys, gaps(0)), remote);
    hide Needed, AppliedAll, Fetching, Answered;
    FetchingOutcome(node, gaps, needed, 0);
  }

  /** What a sync is meant to leave: the node's keys, and those added since the snapshot that were not in it. */
  function Intended(keys: Keys, remote: seq<RemoteKey>, gaps: Gaps, used: nat): (r: set<IDPair>) {
    Pairs(remote) + (AddedIn(gaps, used) - keys.Keys)
  }

  lemma SyncCompletes(keys: Keys, remote: seq<RemoteKey>, node: Node, gaps: Gaps)
    requires Exact(node)
    ensures var c := CourseOf(keys, remote, node, gaps);
            && c.outcome.Synced? && c.used >= 2
            && AddedBy(c.events) == AddedIn(gaps, c.used) + Elems(Needed(AppliedAll(keys, gaps(0)), remote))
  {
    hide AddedBy, Needed, AppliedAll, Exact, Elems;
    var toFetch := Needed(AppliedAll(keys, gaps(0)), remote);
    ExactFetching(node, gaps, toFetch, 0);
    AddedJoin(gaps(0), Fetching(node, gaps, toFetch, 0).events);
    assert AddedIn(gaps, 0) == {} && AddedIn(gaps, 1) == AddedIn(gaps, 0) + AddedBy(gaps(0));
  }

  /** A key of the node's answer that no action touched is cached all along, or it would have been asked for. */
  lemma RemoteAccounted(keys: Keys, remote: seq<RemoteKey>, gaps: Gaps, x: RemoteKey)
    requires x in remote
    ensures x.pair in keys || x.pair in AddedBy(gaps(0)) || x.pair in Needed(AppliedAll(keys, gaps(0)), remote)
  {
    hide AddedBy, Needed;
    NeededMembers(AppliedAll(keys, gaps(0)), remote, x.pair);
    KeysAfter(keys, gaps(0), x.pair);
  }

  lemma SyncMember(keys: Keys, remote: seq<RemoteKey>, node: Node, gaps: Gaps, p: IDPair)
    requires Exact(node)
    ensures var c := CourseOf(keys, remote, node, gaps);
            p in SyncedKeys(keys, remote, node, gaps) <==>
                p in Intended(keys, remote, gaps, c.used) && !DeletedLast(c.events, p)
  {
    hide Fetching, AddedBy, DeletedLast, Exact, AddedIn, SyncedKeys, Needed;
    SyncCompletes(keys, remote, node, gaps);
    SyncKeySet(keys, remote, node, gaps, p);
    NeededMembers(AppliedAll(keys, gaps(0)), remote, p);
    var c := CourseOf(keys, remote, node, gaps);
    if p in Pairs(remote) {
      var x :| x in remote && x.pair == p;
      RemoteAccounted(keys, remote, gaps, x);
      AddedJoin(gaps(0), Fetching(node, gaps, Needed(AppliedAll(keys, gaps(0)), remote), 0).events);
    }
  }

  /**
   * With a node that answers exactly, a sync leaves the intended keys exactly when the last action on none of them,
   * from the snapshot on, is a deletion. It never leaves any other key.
   */
  lemma SyncExactIff(keys: Keys, remote: seq<RemoteKey>, node: Node, gaps: Gaps)
    requires Exact(node)
    ensures var c := CourseOf(keys, remote, node, gaps);
            var intended := Intended(keys, remote, gaps, c.used);
            && SyncedKeys(keys, remote, node, gaps).Keys <= intended
            && (SyncedKeys(keys, remote, node, gaps).Keys == intended <==>
                  forall p :: p in intended ==> !DeletedLast(c.events, p))
  {
    hide CourseOf, SyncedKeys, DeletedLast, Intended, Exact;
    var c := CourseOf(keys, remote, node, gaps);
    var intended := Intended(keys, remote, gaps, c.used);
    forall p ensures p in SyncedKeys(keys, remote, node, gaps) <==> p in intended && !DeletedLast(c.events, p) {
      SyncMember(keys, remote, node, gaps, p);
    }
  }

  lemma {:induction false} FetchingNoDelete(node: Node, gaps: Gaps, toFetch: seq<IDPair>, b: nat)
    requires NoDeletes(gaps, Fetching(node, gaps, toFetch, b).used)
    ensures NoDelete(Fetching(node, gaps, toFetch, b).events) && Fetching(node, gaps, toFetch, b).used >= b + 2
    decreases |toFetch|
  {
    if toFetch != [] {
      var n := Min(KEY_PROOF_BATCH_SIZE, |toFetch|);
      var proofs := node(b, toFetch[..n]);
      FetchingUsed(node, gaps, toFetch, b);
      assert NoDelete(gaps(b + 1));
      if proofs.Some? {
        StoresNoDelete(proofs.value);
        if AllParse(proofs.value) { FetchingNoDelete(node, gaps, toFetch[n..], b + 1); }
      }
    }
  }

  lemma {:induction false} FetchingUsed(node: Node, gaps: Gaps, toFetch: seq<IDPair>, b: nat)
    ensures Fetching(node, gaps, toFetch, b).used >= b + 2
    decreases |toFetch|
  {
    if toFetch != [] { FetchingUsed(node, gaps, toFetch[Min(KEY_PROOF_BATCH_SIZE, |toFetch|)..], b + 1); }
  }

  lemma {:induction false} StoresNoDelete(proofs: seq<Option<KeyData>>)
    ensures NoDelete(Stores(proofs))
    decreases |proofs|
  {
    if proofs != [] && proofs[0].Some? { StoresNoDelete(proofs[1..]); }
  }

  /** So without deletions after the snapshot a sync leaves the intended keys. */
  lemma SyncWithoutDeletions(keys: Keys, remote: seq<RemoteKey>, node: Node, gaps: Gaps)
    requires Exact(node) && NoDeletes(gaps, CourseOf(keys, remote, node, gaps).used)
    ensures SyncedKeys(keys, remote, node, gaps).Keys ==
            Intended(keys, remote, gaps, CourseOf(keys, remote, node, gaps).used)
  {
    hide SyncedKeys, Intended, Exact, AppliedAll, Needed;
    var c := CourseOf(keys, remote, node, gaps);
    var toFetch := Needed(AppliedAll(keys, gaps(0)), remote);
    FetchingNoDelete(node, gaps, toFetch, 0);
    assert NoDelete(gaps(0)) && NoDelete(c.events);
    forall p ensures !DeletedLast(c.events, p) { NeverDeleted(c.events, p); }
    SyncExactIff(keys, remote, node, gaps);
  }

  /** And a deletion after the comparison leaves a hole: a cached key of the node's answer is gone after the sync. */
  lemma DeleteLeavesHole(keys: Keys, x: RemoteKey, node: Node)
    requires Fresh(keys, x)
    ensures var gaps: Gaps := i => if i == 1 then [Delete(Some(x.pair))] else [];
            && CourseOf(keys, [x], node, gaps).outcome.Synced?
            && x.pair in Pairs([x]) && x.pair !in SyncedKeys(keys, [x], node, gaps)
  {
    var gaps: Gaps := i => if i == 1 then [Delete(Some(x.pair))] else [];
    assert AppliedAll(keys, gaps(0)) == keys && [x][..0] == [] && Needed(keys, [x][..0]) == [];
    assert Needed(keys, [x]) == [];
    var c := CourseOf(keys, [x], node, gaps);
    assert c.events == [Delete(Some(x.pair))];
    SyncKeySet(keys, [x], node, gaps, x.pair);
    assert [x][0] == x;
  }

  // ---------------------------------------------------------------- convergence

  ghost predicate NoEvents(gaps: Gaps, n: nat) {
    forall i :: 0 <= i < n ==> gaps(i) == []
  }

  /** Every key of the node's answer is cached with its nonce, or still to be fetched. */
  ghost predicate UpToDate(keys: Keys, remote: seq<RemoteKey>, pending: seq<IDPair>) {
    forall x :: x in remote ==> Fresh(keys, x) || x.pair in pending
  }

  lemma {:induction false} StoresCurrent(keys: Keys, proofs: seq<Option<KeyData>>, remote: seq<RemoteKey>, x: RemoteKey)
    requires AllParse(proofs) && CurrentProofs(proofs, remote) && x in remote
    ensures Fresh(keys, x) || x.pair in ProofPairs(proofs) ==> Fresh(AppliedAll(keys, Stores(proofs)), x)
    decreases |proofs|
  {
    if proofs != [] {
      StoresCurrent(Cached(keys, proofs[0].value), proofs[1..], remote, x);
      AppliedCons(keys, Add(proofs[0]), Stores(proofs[1..]));
      assert proofs == [proofs[0]] + proofs[1..];
      assert ProofPairs(proofs) == {proofs[0].value.info.pair} + ProofPairs(proofs[1..]);
    }
  }

  lemma BatchCurrent(keys: Keys, proofs: seq<Option<KeyData>>, remote: seq<RemoteKey>, batch: seq<IDPair>,
      rest: seq<IDPair>)
    requires AllParse(proofs) && CurrentProofs(proofs, remote) && ProofPairs(proofs) == Elems(batch)
    requires UpToDate(keys, remote, batch + rest)
    ensures UpToDate(AppliedAll(keys, Stores(proofs)), remote, rest)
  {
    hide Fresh, CurrentProofs, AppliedAll, Stores, ProofPairs, AllParse;
    forall x | x in remote ensures Fresh(AppliedAll(keys, Stores(proofs)), x) || x.pair in rest {
      StoresCurrent(keys, proofs, remote, x);
      if x.pair in batch { assert x.pair in Elems(batch); }
    }
  }

  lemma {:induction false} FetchingCurrent(keys: Keys, remote: seq<RemoteKey>, node: Node, gaps: Gaps,
      toFetch: seq<IDPair>, b: nat)
    requires Exact(node) && Current(node, remote) && UpToDate(keys, remote, toFetch)
    requires NoEvents(gaps, Fetching(node, gaps, toFetch, b).used)
    ensures UpToDate(AppliedAll(keys, Fetching(node, gaps, toFetch, b).events), remote, [])
    decreases |toFetch|
  {
    hide AllParse, ProofPairs, CurrentProofs, UpToDate;
    FetchingUsed(node, gaps, toFetch, b);
    assert gaps(b + 1) == [];
    if toFetch != [] {
      var n := Min(KEY_PROOF_BATCH_SIZE, |toFetch|);
      assert node(b, toFetch[..n]).Some?;
      var stored := Stores(node(b, toFetch[..n]).value);
      var rest := Fetching(node, gaps, toFetch[n..], b + 1);
      assert toFetch[..n] + toFetch[n..] == toFetch;
      BatchCurrent(keys, node(b, toFetch[..n]).value, remote, toFetch[..n], toFetch[n..]);
      FetchingCurrent(AppliedAll(keys, stored), remote, node, gaps, toFetch[n..], b + 1);
      AppliedJoin(keys, stored, rest.events);
      assert gaps(b + 1) + stored == stored;
    }
  }

  lemma AllNeeded(keys: Keys, remote: seq<RemoteKey>)
    ensures UpToDate(keys, remote, Needed(keys, remote))
  {
    hide Fresh;
    forall x | x in remote ensures Fresh(keys, x) || x.pair in Needed(keys, remote) {
      NeededMembers(keys, remote, x.pair);
    }
  }

  lemma EvictionKeepsRemote(keys: Keys, remote: seq<RemoteKey>, local: set<IDPair>)
    requires UpToDate(keys, remote, [])
    ensures UpToDate(keys - StaleIn(keys.Keys, Pairs(remote), local), remote, [])
  {
  }

  /**
   * With no key action in its gaps and proofs that carry the node's nonces, a sync leaves nothing for the next to
   * fetch.
   */
  lemma SyncConverges(keys: Keys, remote: seq<RemoteKey>, node: Node, gaps: Gaps)
    requires Exact(node) && Current(node, remote) && NoEvents(gaps, CourseOf(keys, remote, node, gaps).used)
    ensures UpToDate(SyncedKeys(keys, remote, node, gaps), remote, [])
    ensures Needed(SyncedKeys(keys, remote, node, gaps), remote) == []
  {
    SyncCompletes(keys, remote, node, gaps);
    hide Fresh, Exact, Current;
    assert gaps(0) == [];
    var toFetch := Needed(keys, remote);
    AllNeeded(keys, remote);
    FetchingCurrent(keys, remote, node, gaps, toFetch, 0);
    var c := CourseOf(keys, remote, node, gaps);
    assert c.events == Fetching(node, gaps, toFetch, 0).events;
    EvictionKeepsRemote(AppliedAll(keys, c.events), remote, keys.Keys);
    NothingNeeded(SyncedKeys(keys, remote, node, gaps), remote);
  }

  lemma {:induction false} NothingNeeded(keys: Keys, remote: seq<RemoteKey>)
    requires UpToDate(keys, remote, [])
    ensures Needed(keys, remote) == []
  {
    hide Fresh, NeedsProof;
    if remote != [] {
      NothingNeeded(keys, remote[..|remote| - 1]);
      NeedsProofIff(keys, remote[|remote| - 1]);
    }
  }
}
