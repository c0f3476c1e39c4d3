/**
 The lease and key store that nodes coordinate through: a value-level meaning, and the mutable store proved against it.
 */
module Etcd {
  import opened Base

  type LeaseId = nat

  datatype Lease = Lease(ttl: int, expires: int)

  /** Lease 0 marks an entry that belongs to no lease. */
  datatype Entry = Entry(value: string, lease: LeaseId)

  datatype Store = Store(leases: map<LeaseId, Lease>, kv: map<string, Entry>, now: int, next: LeaseId) {

    predicate Expired(id: LeaseId) {
      id in leases && leases[id].expires <= now
    }

    /** Expired leases go, and every key under one of them goes with it. */
    function Purge(): (s: Store) {
      this.(leases := map id | id in leases && !Expired(id) :: leases[id],
            kv := map k | k in kv && !Expired(kv[k].lease) :: kv[k])
    }

    /** What a call that names a lease needs once expired ones are purged. */
    predicate Usable(lease: LeaseId) {
      lease == 0 || (lease in leases && !Expired(lease))
    }

    function Grant(ttl: int): (s: Store) {
      if ttl <= 0 then this else this.(leases := leases[next := Lease(ttl, now + ttl)], next := next + 1)
    }

    function KeepAlive(lease: LeaseId): (s: Store) {
      var p := Purge();
      if lease in p.leases then p.(leases := p.leases[lease := p.leases[lease].(expires := now + p.leases[lease].ttl)])
          else p
    }

    function Revoke(lease: LeaseId): (s: Store) {
      this.(leases := leases - {lease}, kv := map k | k in kv && kv[k].lease != lease :: kv[k])
    }

    function Put(key: string, value: string, lease: LeaseId): (s: Store) {
      var p := Purge();
      if Usable(lease) then p.(kv := p.kv[key := Entry(value, lease)]) else p
    }

    function Lookup(key: string): (v: Option<string>) {
      var p := Purge();
      if key in p.kv then Some(p.kv[key].value) else None
    }

    function Prefixed(prefix: string): (m: map<string, string>) {
      var p := Purge();
      map k | k in p.kv && prefix <= k :: p.kv[k].value
    }

    function Create(key: string, value: string, lease: LeaseId): (s: Store) {
      var p := Purge();
      if key !in p.kv && Usable(lease) then p.(kv := p.kv[key := Entry(value, lease)]) else p
    }

    function Advance(seconds: int): (s: Store) {
      this.(now := now + seconds).Purge()
    }
  }

  /** Between calls: leases are unexpired and already issued, and every leased key's lease is there. */
  ghost predicate StoreOk(s: Store) {
    && (forall id :: id in s.leases ==> 0 < id < s.next && s.leases[id].expires > s.now)
    && (forall k :: k in s.kv ==> s.kv[k].lease == 0 || s.kv[k].lease in s.leases)
    && (forall id :: id in s.leases ==> s.leases[id].ttl > 0)
    && s.next > 0
  }

  /** The clock only moves with a purge, so between calls a purge finds nothing. */
  lemma {:induction false} NothingToPurge(s: Store)
    requires StoreOk(s)
    ensures s.Purge() == s
  {
    assert s.Purge().leases == s.leases;
    assert s.Purge().kv == s.kv;
  }

  lemma {:induction false} OperationsKeepStoreOk(s: Store, ttl: int, lease: LeaseId, key: string, value: string,
                                                 seconds: int)
    requires StoreOk(s)
    ensures StoreOk(s.Grant(ttl)) && StoreOk(s.KeepAlive(lease)) && StoreOk(s.Revoke(lease))
    ensures StoreOk(s.Put(key, value, lease)) && StoreOk(s.Create(key, value, lease)) && StoreOk(s.Advance(seconds))
  {
    NothingToPurge(s);
  }

  class FakeEtcd {
    var leases: map<LeaseId, Lease>
    var kv: map<string, Entry>
    var now: int
    var next: LeaseId

    function Model(): (s: Store)
      reads this
    {
      Store(leases, kv, now, next)
    }

    constructor ()
      ensures Model() == Store(map[], map[], 0, 1)
    {
      leases, kv, now, next := map[], map[], 0, 1;
    }

    /** Erases the keys of one lease, one key at a time. */
    method EraseKeysOf(lease: LeaseId)
      modifies this`kv
      ensures kv == map k | k in old(kv) && old(kv)[k].lease != lease :: old(kv)[k]
    {
      var left := kv.Keys;
      while left != {}
        invariant left <= kv.Keys <= old(kv).Keys
        invariant forall k :: k in kv ==> kv[k] == old(kv)[k]
        invariant forall k :: k in old(kv) && k !in left ==> (k in kv <==> old(kv)[k].lease != lease)
      {
        var k :| k in left;
        left := left - {k};
        if kv[k].lease == lease {
          kv := kv - {k};
        }
      }
    }

    method FindExpired() returns (expired: set<LeaseId>)
      ensures expired == set id | id in leases && leases[id].expires <= now
    {
      expired := {};
      var left := leases.Keys;
      while left != {}
        invariant left <= leases.Keys
        invariant expired == set id | id in leases && leases[id].expires <= now && id !in left
      {
        var id :| id in left;
        left := left - {id};
        if leases[id].expires <= now {
          expired := expired + {id};
        }
      }
    }

    method PurgeExpired()
      modifies this`leases, this`kv
      ensures Model() == old(Model()).Purge()
    {
      var expired := FindExpired();
      var left := expired;
      while left != {}
        invariant left <= expired
        invariant leases == map id | id in old(leases) && (id !in expired || id in left) :: old(leases)[id]
        invariant kv == map k | k in old(kv) && (old(kv)[k].lease !in expired || old(kv)[k].lease in left) :: old(kv)[k]
      {
        var id :| id in left;
        left := left - {id};
        leases := leases - {id};
        EraseKeysOf(id);
      }
    }

    method LeaseGrant(ttl: int) returns (r: Result<LeaseId>)
      modifies this
      ensures Model() == old(Model()).Grant(ttl)
      ensures r == if ttl <= 0 then Err(InvalidArgument) else Ok(old(next))
    {
      if ttl <= 0 {
        return Err(InvalidArgument);
      }
      r := Ok(next);
      leases := leases[next := Lease(ttl, now + ttl)];
      next := next + 1;
    }

    method LeaseKeepAlive(lease: LeaseId) returns (r: Result<()>)
      modifies this
      ensures Model() == old(Model()).KeepAlive(lease)
      ensures r == if lease in old(Model()).Purge().leases then Ok(()) else Err(NotFound)
    {
      PurgeExpired();
      if lease !in leases {
        return Err(NotFound);
      }
      leases := leases[lease := leases[lease].(expires := now + leases[lease].ttl)];
      r := Ok(());
    }

    method LeaseRevoke(lease: LeaseId)
      modifies this
      ensures Model() == old(Model()).Revoke(lease)
    {
      leases := leases - {lease};
      EraseKeysOf(lease);
    }

    method Put(key: string, value: string, lease: LeaseId) returns (r: Result<()>)
      modifies this
      ensures Model() == old(Model()).Put(key, value, lease)
      ensures r == if old(Model()).Usable(lease) then Ok(()) else Err(NotFound)
    {
      PurgeExpired();
      if lease != 0 && lease !in leases {
        return Err(NotFound);
      }
      kv := kv[key := Entry(value, lease)];
      r := Ok(());
    }

    method Get(key: string) returns (v: Option<string>)
      modifies this
      ensures Model() == old(Model()).Purge() && v == old(Model()).Lookup(key)
    {
      PurgeExpired();
      v := if key in kv then Some(kv[key].value) else None;
    }

    method GetPrefix(prefix: string) returns (found: map<string, string>)
      modifies this
      ensures Model() == old(Model()).Purge() && found == old(Model()).Prefixed(prefix)
    {
      PurgeExpired();
      found := map[];
      var left := kv.Keys;
      while left != {}
        invariant left <= kv.Keys && Model() == old(Model()).Purge()
        invariant found == map k | k in kv && k !in left && prefix <= k :: kv[k].value
      {
        var k :| k in left;
        left := left - {k};
        if prefix <= k {
          found := found[k := kv[k].value];
        }
      }
    }

    method CreateIfAbsent(key: string, value: string, lease: LeaseId) returns (r: Result<bool>)
      modifies this
      ensures Model() == old(Model()).Create(key, value, lease)
      ensures r == if key in old(Model()).Purge().kv then Ok(false)
                   else if old(Model()).Usable(lease) then Ok(true) else Err(NotFound)
    {
      PurgeExpired();
      if key in kv {
        return Ok(false);
      }
      if lease != 0 && lease !in leases {
        return Err(NotFound);
      }
      kv := kv[key := Entry(value, lease)];
      r := Ok(true);
    }

    method AdvanceTime(seconds: int)
      modifies this
      ensures Model() == old(Model()).Advance(seconds)
    {
      now := now + seconds;
      PurgeExpired();
    }
  }
}
