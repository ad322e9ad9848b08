/** The wallet service's key cache as an object: the two maps, the event loop's updates, and the lock-dropping sync. */
module WalletCache {
  import opened Foundations
  import opened WalletKeys

  class WalletService {
    var keysForWallet: Lists
    var keys: Keys

    ghost predicate Valid()
      reads this
    {
      Agree(keys, keysForWallet)
    }

    constructor ()
      ensures Valid() && keys == map[]
    {
      keysForWallet, keys := map[], map[];
    }

    /** The writes that updateOrAddKey and sync share. */
    method StoreKey(d: KeyData)
      requires Valid()
      modifies this
      ensures Valid() && keys == Cached(old(keys), d) && keysForWallet == Listed(old(keysForWallet), d.info.pair)
    {
      var p := d.info.pair;
      ListedAgree(keys, keysForWallet, p, d);
      if p.key !in ListOf(keysForWallet, p.wallet) {
        keysForWallet := keysForWallet[p.wallet := ListOf(keysForWallet, p.wallet) + [p.key]];
      }
      keys := keys[p := d];
    }

    /** The deletions that removeKey and removeStaleKeys share. */
    method DropKey(p: IDPair)
      requires Valid()
      modifies this
      ensures Valid() && keys == old(keys) - {p} && keysForWallet == Unlisted(old(keysForWallet), p)
    {
      UnlistedAgree(keys, keysForWallet, p);
      keys := keys - {p};
      keysForWallet := keysForWallet[p.wallet := Without(ListOf(keysForWallet, p.wallet), p.key)];
      if keysForWallet[p.wallet] == [] {
        keysForWallet := keysForWallet - {p.wallet};
      }
      assert keysForWallet == Unlisted(old(keysForWallet), p);
    }

    /** update: one key action of the event loop. */
    method Update(e: KeyEvent) returns (ok: bool)
      requires Valid()
      modifies this
      ensures Valid() && keys == Applied(old(keys), e)
      ensures ok <==> (e.Add? && e.data.Some?) || (e.Delete? && e.pair.Some?)
      ensures !ok ==> keysForWallet == old(keysForWallet)
    {
      match e {
        case Add(Some(d)) => StoreKey(d); return true;
        case Delete(Some(p)) => DropKey(p); return true;
        case _ => return false;
      }
    }

    /** The event loop between two lock sections of sync. */
    method RunEvents(events: seq<KeyEvent>)
      requires Valid()
      modifies this
      ensures Valid() && keys == AppliedAll(old(keys), events)
    {
      for i := 0 to |events|
        invariant Valid() && keys == AppliedAll(old(keys), events[..i])
      {
        assert events[..i + 1][..i] == events[..i];
        var _ := Update(events[i]);
      }
      assert events[..|events|] == events;
    }

    method LocalKeySet() returns (local: set<IDPair>)
      ensures local == keys.Keys
    {
      local := {};
      var rest := keys.Keys;
      while rest != {}
        invariant local + rest == keys.Keys && rest <= keys.Keys
        decreases |rest|
      {
        var p :| p in rest;
        local, rest := local + {p}, rest - {p};
      }
    }

    method KeysNeedingProof(remote: seq<RemoteKey>) returns (toFetch: seq<IDPair>)
      ensures toFetch == Needed(keys, remote)
    {
      toFetch := [];
      for i := 0 to |remote|
        invariant toFetch == Needed(keys, remote[..i])
      {
        assert remote[..i + 1][..i] == remote[..i];
        var x := remote[i];
        if x.pair !in keys {
          toFetch := toFetch + [x.pair];
          continue;
        }
        if keys[x.pair].info.nonce.None? || keys[x.pair].info.nonce.value % U64 != x.nonce {
          toFetch := toFetch + [x.pair];
        }
      }
      assert remote[..|remote|] == remote;
    }

    /** One lock section of sync: store a batch of proofs, stopping at the first that does not parse. */
    method StoreBatch(proofs: seq<Option<KeyData>>) returns (ok: bool)
      requires Valid()
      modifies this
      ensures Valid() && keys == AppliedAll(old(keys), Stores(proofs))
      ensures ok <==> AllParse(proofs)
    {
      for i := 0 to |proofs|
        invariant Valid() && AppliedAll(old(keys), Stores(proofs)) == AppliedAll(keys, Stores(proofs[i..]))
        invariant AllParse(proofs[..i])
      {
        if proofs[i].None? {
          return false;
        }
        assert proofs[i..][1..] == proofs[i + 1..] && proofs[..i + 1] == proofs[..i] + [proofs[i]];
        AppliedCons(keys, Add(proofs[i]), Stores(proofs[i + 1..]));
        StoreKey(proofs[i].value);
      }
      assert proofs[..|proofs|] == proofs;
      return true;
    }

    method RemoveStaleKeys(remote: seq<RemoteKey>, localAtStart: set<IDPair>)
      requires Valid()
      modifies this
      ensures Valid() && keys == old(keys) - StaleIn(old(keys).Keys, Pairs(remote), localAtStart)
    {
      hide Stale;
      var remoteSet := Pairs(remote);
      var rest := keys.Keys;
      while rest != {}
        invariant Valid() && rest <= old(keys).Keys
        invariant keys == old(keys) - StaleIn(old(keys).Keys - rest, remoteSet, localAtStart)
        decreases |rest|
      {
        var p :| p in rest;
        StaleOneMore(old(keys), rest, p, remoteSet, localAtStart);
        rest := rest - {p};
        if Stale(p, remoteSet, localAtStart) {
          DropKey(p);
        }
      }
    }

    /** Any one key answers; with the maps in agreement the data is always there. */
    method WalletInfo(w: ID) returns (r: Result<KeyInfo, WalletError>)
      requires Valid()
      ensures r.Ok? <==> exists p :: p in keys && p.wallet == w
      ensures r.Ok? ==> exists p :: p in keys && p.wallet == w && keys[p].info == r.value
      ensures r.Err? ==> r.error == WalletNotFound
    {
      var list := ListOf(keysForWallet, w);
      if list == [] {
        assert forall p :: p in keys ==> p.wallet != w;
        return Err(WalletNotFound);
      }
      var p := IDPair(w, list[0]);
      if p !in keys {
        return Err(KeyDataNotFound);
      }
      return Ok(keys[p].info);
    }

    /**
     * sync after its KEY_INFO answer: snapshot, then batches with the lock dropped in between, then eviction.
     * Gap 0 lies between the snapshot and the comparison, gap b + 1 before the b-th batch is stored, the last one
     * before the eviction; `used` counts them. The theorems about SyncedKeys are theorems about this method.
     */
    method Sync(remote: seq<RemoteKey>, node: Node, gaps: Gaps) returns (r: SyncOutcome, ghost used: nat)
      requires Valid()
      modifies this
      ensures Valid()
      ensures r == CourseOf(old(keys), remote, node, gaps).outcome
          && used == CourseOf(old(keys), remote, node, gaps).used
      ensures keys == SyncedKeys(old(keys), remote, node, gaps)
      ensures Exact(node) ==> r.Synced?
      ensures Exact(node) && NoDeletes(gaps, used) ==> keys.Keys == Intended(old(keys), remote, gaps, used)
      ensures Exact(node) && Current(node, remote) && NoEvents(gaps, used) ==> UpToDate(keys, remote, [])
    {
      hide Exact, NoDeletes, Current, NoEvents, UpToDate, Intended, Agree, AppliedAll, Stores, StaleIn, Pairs, Needed;
      hide Fetching, AllParse;
      ghost var spec := CourseOf(keys, remote, node, gaps);
      SyncFacts(keys, remote, node, gaps);
      var localAtStart := LocalKeySet();
      RunEvents(gaps(0));
      ghost var done := gaps(0);
      var toFetch := KeysNeedingProof(remote);
      var i, b := 0, 0;
      while i < |toFetch|
        invariant 0 <= i <= |toFetch| && Valid() && keys == AppliedAll(old(keys), done)
        invariant var rest := Fetching(node, gaps, toFetch[i..], b);
                  spec == rest.(events := done + rest.events)
      {
        var j := if i + KEY_PROOF_BATCH_SIZE < |toFetch| then i + KEY_PROOF_BATCH_SIZE else |toFetch|;
        NextBatch(node, gaps, toFetch, i, j, b, done);
        var proofs := node(b, toFetch[i..j]);
        AppliedJoin(old(keys), done, gaps(b + 1));
        RunEvents(gaps(b + 1));
        used := b + 2;
        if proofs.None? {
          return FetchFailed, used;
        }
        AppliedJoin(old(keys), done + gaps(b + 1), Stores(proofs.value));
        var ok := StoreBatch(proofs.value);
        if !ok {
          return ParseFailed, used;
        }
        done := done + gaps(b + 1) + Stores(proofs.value);
        i, b := j, b + 1;
      }
      LastGap(node, gaps, toFetch, i, b);
      AppliedJoin(old(keys), done, gaps(b + 1));
      RunEvents(gaps(b + 1));
      used := b + 2;
      RemoveStaleKeys(remote, localAtStart);
      return Synced, used;
    }
  }

  /** What one pass of the batch loop adds to the course. */
  lemma NextBatch(node: Node, gaps: Gaps, toFetch: seq<IDPair>, i: nat, j: nat, b: nat, done: seq<KeyEvent>)
    requires i < |toFetch| && j == i + Min(KEY_PROOF_BATCH_SIZE, |toFetch| - i)
    ensures var c, proofs := Fetching(node, gaps, toFetch[i..], b), node(b, toFetch[i..j]);
            if proofs.None? then c == Course(FetchFailed, gaps(b + 1), b + 2)
            else
              var stored := done + gaps(b + 1) + Stores(proofs.value);
              if !AllParse(proofs.value) then c.outcome.ParseFailed? && c.used == b + 2 && done + c.events == stored
              else
                var rest := Fetching(node, gaps, toFetch[j..], b + 1);
                c.(events := done + c.events) == rest.(events := stored + rest.events)
  {
    assert toFetch[i..][..j - i] == toFetch[i..j] && toFetch[i..][j - i..] == toFetch[j..];
    if node(b, toFetch[i..j]).Some? {
      var stored := Stores(node(b, toFetch[i..j]).value);
      var rest := Fetching(node, gaps, toFetch[j..], b + 1);
      assert done + (gaps(b + 1) + stored) == done + gaps(b + 1) + stored;
      assert done + (gaps(b + 1) + stored + rest.events) == done + gaps(b + 1) + stored + rest.events;
    }
  }

  lemma LastGap(node: Node, gaps: Gaps, toFetch: seq<IDPair>, i: nat, b: nat)
    requires i == |toFetch|
    ensures Fetching(node, gaps, toFetch[i..], b) == Course(Synced, gaps(b + 1), b + 2)
  {
  }

  /** The theorems about a sync, as its contract states them. */
  lemma SyncFacts(keys: Keys, remote: seq<RemoteKey>, node: Node, gaps: Gaps)
    ensures var c, after := CourseOf(keys, remote, node, gaps), SyncedKeys(keys, remote, node, gaps);
            && (Exact(node) ==> c.outcome.Synced?)
            && (Exact(node) && NoDeletes(gaps, c.used) ==> after.Keys == Intended(keys, remote, gaps, c.used))
            && (Exact(node) && Current(node, remote) && NoEvents(gaps, c.used) ==> UpToDate(after, remote, []))
  {
    hide CourseOf, SyncedKeys, Exact, NoDeletes, Current, NoEvents, UpToDate, Intended;
    if Exact(node) {
      SyncCompletes(keys, remote, node, gaps);
      var c := CourseOf(keys, remote, node, gaps);
      if NoDeletes(gaps, c.used) { SyncWithoutDeletions(keys, remote, node, gaps); }
      if Current(node, remote) && NoEvents(gaps, c.used) { SyncConverges(keys, remote, node, gaps); }
    }
  }
}
