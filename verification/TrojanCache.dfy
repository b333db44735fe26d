/** The Trojan password-hash cache (protocol/trojan/trojan.py:44-69 and 194-201). */
module TrojanCache {
  import opened Bytes

  type Uuid = string
  type Hash = string

  /** sha224 as a function; two links never share a hash. */
  ghost predicate Injective(h: Uuid -> Hash) {
    forall u, v {:trigger h(u), h(v)} :: h(u) == h(v) ==> u == v
  }

  lemma InjectiveHashExists() returns (h: Uuid -> Hash)
    ensures Injective(h)
  {
    h := u => u;
  }

  /** What is_link_allowed looks at. */
  datatype Link = Link(active: bool, expired: bool, limit: int, used: int)

  predicate Allowed(l: Link) {
    l.active && !l.expired && !(l.limit > 0 && l.used >= l.limit)
  }

  /** An active, unexpired link is allowed up to its limit, and for ever if the limit is 0; others never. */
  lemma AllowedExactlyWhen(l: Link)
    ensures Allowed(l) <==> l.active && !l.expired && (l.limit <= 0 || l.used < l.limit)
  {
  }

  /** Comparing the hash with every link's, without a cache. */
  ghost predicate Scan(h: Uuid -> Hash, keys: set<Uuid>, pwHash: Hash, r: Option<Uuid>) {
    match r
    case Some(u) => u in keys && h(u) == pwHash
    case None => forall u :: u in keys ==> h(u) != pwHash
  }

  class HashCache {
    const hash: Uuid -> Hash
    var cache: map<Hash, Uuid>
    var snapshotLen: int
    /** the keys at the last rebuild */
    ghost var snapshot: set<Uuid>

    ghost predicate Valid()
      reads this
    {
      && Injective(hash)
      && (snapshotLen == -1 || snapshotLen == |snapshot|)
      && (snapshotLen == -1 ==> cache == map[] && snapshot == {})
      && (forall u :: u in snapshot ==> hash(u) in cache && cache[hash(u)] == u)
      && (forall x :: x in cache ==> cache[x] in snapshot && hash(cache[x]) == x)
    }

    constructor (hash: Uuid -> Hash)
      requires Injective(hash)
      ensures Valid() && this.hash == hash && snapshotLen == -1
    {
      this.hash := hash;
      cache, snapshotLen, snapshot := map[], -1, {};
    }

    /** One entry per link, in any order. */
    method Rebuild(keys: set<Uuid>)
      requires Valid()
      modifies this
      ensures Valid() && snapshot == keys && snapshotLen == |keys|
    {
      var todo := keys;
      var fresh': map<Hash, Uuid> := map[];
      while todo != {}
        invariant todo <= keys
        invariant forall u :: u in keys - todo ==> hash(u) in fresh' && fresh'[hash(u)] == u
        invariant forall x :: x in fresh' ==> fresh'[x] in keys - todo && hash(fresh'[x]) == x
        decreases |todo|
      {
        var u :| u in todo;
        fresh' := fresh'[hash(u) := u];
        todo := todo - {u};
      }
      cache := fresh';
      snapshotLen := |keys|;
      snapshot := keys;
    }

    /** The cache is rebuilt when the number of links differs; then, and whenever the keys are those of
        the last rebuild, the answer is that of a scan. Otherwise it is the scan of the old keys. */
    method FindUuid(keys: set<Uuid>, pwHash: Hash) returns (r: Option<Uuid>)
      requires Valid()
      modifies this
      ensures Valid()
      ensures snapshot == if |keys| != old(snapshotLen) then keys else old(snapshot)
      ensures Scan(hash, snapshot, pwHash, r)
    {
      if |keys| != snapshotLen {
        Rebuild(keys);
      }
      if pwHash in cache {
        return Some(cache[pwHash]);
      }
      return None;
    }

    /** Authorization behind the header parser. The lock is taken once for the lookup and once for the
        check; nothing suspends in between as the code stands, but the contract does not rely on it: the
        links may be others at the check. Even with a stale table only a link that is present and allowed
        then, and whose own hash was presented, gets through: exactly those the table knew. */
    method ResolveAndAuthorize(atLookup: map<Uuid, Link>, atCheck: map<Uuid, Link>, pwHash: Hash)
      returns (r: Option<Uuid>)
      requires Valid()
      modifies this
      ensures Valid()
      ensures snapshot == if |atLookup.Keys| != old(snapshotLen) then atLookup.Keys else old(snapshot)
      ensures r.Some? ==> r.value in atCheck && hash(r.value) == pwHash && Allowed(atCheck[r.value])
      ensures r.Some? <==> exists u :: u in snapshot && hash(u) == pwHash && u in atCheck && Allowed(atCheck[u])
    {
      var u := FindUuid(atLookup.Keys, pwHash);
      if u.None? || u.value !in atCheck {
        return None;
      }
      var link := atCheck[u.value];
      if !link.active || link.expired {
        return None;
      }
      if link.limit > 0 && link.used >= link.limit {
        return None;
      }
      return u;
    }

    /** On the XHTTP path nothing is asked behind the lookup (protocol/trojan/xhttp_core.py:174-179). A
        uuid that is no link any more is accepted there, if and only if its hash is presented, it was a
        link at the last rebuild, and there are as many links now as then. */
    method ResolveForXhttp(keys: set<Uuid>, pwHash: Hash) returns (r: Option<Uuid>)
      requires Valid()
      modifies this
      ensures Valid()
      ensures snapshot == if |keys| != old(snapshotLen) then keys else old(snapshot)
      ensures forall u :: u !in keys ==>
        (r == Some(u) <==> hash(u) == pwHash && u in old(snapshot) && |keys| == old(snapshotLen))
      ensures forall u :: u in keys ==>
        (r == Some(u) <==> hash(u) == pwHash && (u in old(snapshot) || |keys| != old(snapshotLen)))
    {
      r := FindUuid(keys, pwHash);
    }
  }

  /** Which keys a lookup answers for. */
  function Answered(old': set<Uuid>, keys: set<Uuid>): set<Uuid> {
    if |keys| != |old'| then keys else old'
  }

  lemma SameSizeSubset(a: set<Uuid>, b: set<Uuid>)
    requires a <= b && |a| == |b|
    ensures a == b
  {
    var rest := b - a;
    assert b == a + rest;
    assert |rest| == 0;
  }

  /** The lookup agrees with a scan of the present links for every hash, if and only if the number of
      links changed or the links are the same. */
  lemma AgreesExactlyWhen(h: Uuid -> Hash, old': set<Uuid>, keys: set<Uuid>)
    requires Injective(h)
    ensures (forall x, r :: Scan(h, Answered(old', keys), x, r) ==> Scan(h, keys, x, r))
       <==> (|keys| != |old'| || keys == old')
  {
    if |keys| == |old'| && forall x, r :: Scan(h, Answered(old', keys), x, r) ==> Scan(h, keys, x, r) {
      forall u | u in old'
        ensures u in keys
      {
        assert Answered(old', keys) == old';
        assert Scan(h, Answered(old', keys), h(u), Some(u));
      }
      SameSizeSubset(old', keys);
    }
  }

  /** In particular it agrees as long as links were only added, or only removed. */
  lemma GrowingOrShrinkingIsNoticed(old': set<Uuid>, keys: set<Uuid>)
    requires old' <= keys || keys <= old'
    ensures Answered(old', keys) == keys
  {
    if |keys| == |old'| {
      if old' <= keys {
        SameSizeSubset(old', keys);
      } else {
        SameSizeSubset(keys, old');
      }
    }
  }
}
