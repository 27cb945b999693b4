/**
  The key-value store behind the application cache (src/system/application-cache.js:98-224):
  cached entries with an expiry instant, one version counter per namespace, and one lease
  per key.  `Store` says what the store holds; the functions are its atomic operations, the same
  for the Redis commands and for the in-process maps.
 */
module CacheStore {
  import opened Options

  /** What a cached string decodes to: an envelope with a value, or something unreadable. */
  datatype Raw<+V> = Good(value: V) | Corrupt

  datatype Entry<+V> = Entry(raw: Raw<V>, expiresAt: int)

  datatype Lease = Lease(token: nat, expiresAt: int)

  datatype Store<!K, V> = Store(entries: map<K, Entry<V>>, versions: map<string, nat>, locks: map<K, Lease>)

  function ReadEntry<K, V>(s: Store<K, V>, key: K, now: int): Option<Raw<V>> {
    if key in s.entries && now < s.entries[key].expiresAt then Some(s.entries[key].raw) else None
  }

  function PutEntry<K, V>(s: Store<K, V>, key: K, raw: Raw<V>, expiresAt: int): Store<K, V> {
    s.(entries := s.entries[key := Entry(raw, expiresAt)])
  }

  function DropEntry<K, V>(s: Store<K, V>, key: K): Store<K, V> {
    s.(entries := s.entries - {key})
  }

  function VersionOf<K, V>(s: Store<K, V>, counter: string): nat {
    if counter in s.versions then s.versions[counter] else 0
  }

  function BumpVersion<K, V>(s: Store<K, V>, counter: string): Store<K, V> {
    s.(versions := s.versions[counter := VersionOf(s, counter) + 1])
  }

  predicate LockIsFree<K, V>(s: Store<K, V>, key: K, now: int) {
    key !in s.locks || s.locks[key].expiresAt <= now
  }

  function TakeLock<K, V>(s: Store<K, V>, key: K, token: nat, expiresAt: int): Store<K, V> {
    s.(locks := s.locks[key := Lease(token, expiresAt)])
  }

  function ReleaseLock<K, V>(s: Store<K, V>, key: K, token: nat): Store<K, V> {
    if key in s.locks && s.locks[key].token == token then s.(locks := s.locks - {key}) else s
  }

  /** Redis removes a key by itself at its expiry instant; counters carry no expiry. */
  function Vanish<K, V>(s: Store<K, V>, now: int): Store<K, V> {
    Store(
      map k | k in s.entries && now < s.entries[k].expiresAt :: s.entries[k],
      s.versions,
      map k | k in s.locks && now < s.locks[k].expiresAt :: s.locks[k])
  }

  /** Two stores no caller can tell apart from instant `now` on. */
  ghost predicate SameFrom<K(!new), V>(s: Store<K, V>, t: Store<K, V>, now: int) {
    && (forall c :: VersionOf(s, c) == VersionOf(t, c))
    && (forall k, at | now <= at :: ReadEntry(s, k, at) == ReadEntry(t, k, at))
    && (forall k, at | now <= at :: LockIsFree(s, k, at) == LockIsFree(t, k, at))
    && (forall k | !LockIsFree(s, k, now) && !LockIsFree(t, k, now) :: s.locks[k] == t.locks[k])
  }

  /** Redis, whose expired keys are gone, and the maps, whose expired entries linger, look the same. */
  lemma ExpiryIsInvisible<K(!new), V>(s: Store<K, V>, now: int)
    ensures SameFrom(Vanish(s, now), s, now)
  {
  }

  /** No entry or version operation tells two such stores apart. */
  lemma EntryOperationsAgree<K(!new), V>(s: Store<K, V>, t: Store<K, V>, now: int, key: K, raw: Raw<V>,
                                         expiresAt: int, counter: string)
    requires SameFrom(s, t, now)
    ensures SameFrom(PutEntry(s, key, raw, expiresAt), PutEntry(t, key, raw, expiresAt), now)
    ensures SameFrom(DropEntry(s, key), DropEntry(t, key), now)
    ensures SameFrom(BumpVersion(s, counter), BumpVersion(t, counter), now)
  {
    LocksDecide(s, t, PutEntry(s, key, raw, expiresAt), PutEntry(t, key, raw, expiresAt), now);
    LocksDecide(s, t, DropEntry(s, key), DropEntry(t, key), now);
    LocksDecide(s, t, BumpVersion(s, counter), BumpVersion(t, counter), now);
    forall k, at | now <= at
      ensures ReadEntry(PutEntry(s, key, raw, expiresAt), k, at) == ReadEntry(PutEntry(t, key, raw, expiresAt), k, at)
      ensures ReadEntry(DropEntry(s, key), k, at) == ReadEntry(DropEntry(t, key), k, at)
      ensures ReadEntry(BumpVersion(s, counter), k, at) == ReadEntry(BumpVersion(t, counter), k, at)
    {
      assert ReadEntry(s, k, at) == ReadEntry(t, k, at);
    }
    forall c
      ensures VersionOf(BumpVersion(s, counter), c) == VersionOf(BumpVersion(t, counter), c)
      ensures VersionOf(PutEntry(s, key, raw, expiresAt), c) == VersionOf(PutEntry(t, key, raw, expiresAt), c)
      ensures VersionOf(DropEntry(s, key), c) == VersionOf(DropEntry(t, key), c)
    {
      assert VersionOf(s, c) == VersionOf(t, c) && VersionOf(s, counter) == VersionOf(t, counter);
    }
  }

  lemma TakingAgrees<K(!new), V>(s: Store<K, V>, t: Store<K, V>, now: int, key: K, token: nat, expiresAt: int)
    requires SameFrom(s, t, now)
    ensures SameFrom(TakeLock(s, key, token, expiresAt), TakeLock(t, key, token, expiresAt), now)
  {
    var s', t' := TakeLock(s, key, token, expiresAt), TakeLock(t, key, token, expiresAt);
    forall k, at | now <= at
      ensures ReadEntry(s', k, at) == ReadEntry(t', k, at) && LockIsFree(s', k, at) == LockIsFree(t', k, at)
    {
      assert ReadEntry(s, k, at) == ReadEntry(t, k, at) && LockIsFree(s, k, at) == LockIsFree(t, k, at);
      assert LockIsFree(s, k, now) == LockIsFree(t, k, now);
    }
    forall c
      ensures VersionOf(s', c) == VersionOf(t', c)
    {
      assert VersionOf(s, c) == VersionOf(t, c);
    }
  }

  lemma ReleasingAgrees<K(!new), V>(s: Store<K, V>, t: Store<K, V>, now: int, key: K, token: nat)
    requires SameFrom(s, t, now)
    ensures SameFrom(ReleaseLock(s, key, token), ReleaseLock(t, key, token), now)
  {
    var s', t' := ReleaseLock(s, key, token), ReleaseLock(t, key, token);
    forall k, at | now <= at
      ensures ReadEntry(s', k, at) == ReadEntry(t', k, at) && LockIsFree(s', k, at) == LockIsFree(t', k, at)
    {
      assert ReadEntry(s, k, at) == ReadEntry(t, k, at) && LockIsFree(s, k, at) == LockIsFree(t, k, at);
      assert LockIsFree(s, k, now) == LockIsFree(t, k, now);
    }
    forall c
      ensures VersionOf(s', c) == VersionOf(t', c)
    {
      assert VersionOf(s, c) == VersionOf(t, c);
    }
  }

  /** Nor does taking or releasing a lease. */
  lemma LockOperationsAgree<K(!new), V>(s: Store<K, V>, t: Store<K, V>, now: int, key: K, token: nat, expiresAt: int)
    requires SameFrom(s, t, now)
    ensures LockIsFree(s, key, now) == LockIsFree(t, key, now)
    ensures SameFrom(TakeLock(s, key, token, expiresAt), TakeLock(t, key, token, expiresAt), now)
    ensures SameFrom(ReleaseLock(s, key, token), ReleaseLock(t, key, token), now)
  {
    TakingAgrees(s, t, now, key, token, expiresAt);
    ReleasingAgrees(s, t, now, key, token);
  }

  lemma LocksDecide<K(!new), V>(s: Store<K, V>, t: Store<K, V>, s': Store<K, V>, t': Store<K, V>, now: int)
    requires SameFrom(s, t, now)
    requires s'.locks == s.locks && t'.locks == t.locks
    ensures forall k, at | now <= at :: LockIsFree(s', k, at) == LockIsFree(t', k, at)
    ensures forall k | !LockIsFree(s', k, now) && !LockIsFree(t', k, now) :: s'.locks[k] == t'.locks[k]
  {
    forall k, at | now <= at
      ensures LockIsFree(s', k, at) == LockIsFree(t', k, at)
      ensures !LockIsFree(s', k, now) && !LockIsFree(t', k, now) ==> s'.locks[k] == t'.locks[k]
    {
      assert LockIsFree(s, k, at) == LockIsFree(t, k, at);
      assert LockIsFree(s, k, now) == LockIsFree(s', k, now) && LockIsFree(t, k, now) == LockIsFree(t', k, now);
    }
  }

  /** The in-process store: three maps updated in place. */
  class MemoryCacheStore<!K(==), V> {
    var entries: map<K, Entry<V>>
    var versions: map<string, nat>
    var locks: map<K, Lease>

    function Contents(): Store<K, V>
      reads this
    {
      Store(entries, versions, locks)
    }

    constructor ()
      ensures Contents() == Store(map[], map[], map[])
    {
      entries, versions, locks := map[], map[], map[];
    }

    /** Reading an expired entry deletes it; no read at this or a later instant can tell. */
    method Get(key: K, now: int) returns (found: Option<Raw<V>>)
      modifies this`entries
      ensures found == ReadEntry(old(Contents()), key, now)
      ensures forall k, at | now <= at :: ReadEntry(Contents(), k, at) == ReadEntry(old(Contents()), k, at)
      ensures found.None? ==> key !in entries
    {
      if key !in entries {
        return None;
      }
      var entry := entries[key];
      if entry.expiresAt <= now {
        entries := entries - {key};
        return None;
      }
      return Some(entry.raw);
    }

    method Set(key: K, raw: Raw<V>, ttl: nat, now: int)
      modifies this`entries
      ensures Contents() == PutEntry(old(Contents()), key, raw, now + ttl)
    {
      entries := entries[key := Entry(raw, now + ttl)];
    }

    method Delete(key: K)
      modifies this`entries
      ensures Contents() == DropEntry(old(Contents()), key)
    {
      entries := entries - {key};
    }

    method GetVersion(counter: string) returns (version: nat)
      ensures version == VersionOf(Contents(), counter)
    {
      version := if counter in versions then versions[counter] else 0;
    }

    method Bump(counter: string) returns (next: nat)
      modifies this`versions
      ensures Contents() == BumpVersion(old(Contents()), counter)
      ensures next == VersionOf(old(Contents()), counter) + 1 == VersionOf(Contents(), counter)
    {
      var current := GetVersion(counter);
      next := current + 1;
      versions := versions[counter := next];
    }

    /** Grants the lease exactly when no unexpired lease is held, and changes nothing otherwise. */
    method AcquireLock(key: K, token: nat, ttl: nat, now: int) returns (granted: bool)
      modifies this`locks
      ensures granted == LockIsFree(old(Contents()), key, now)
      ensures Contents() == if granted then TakeLock(old(Contents()), key, token, now + ttl) else old(Contents())
    {
      if key in locks && locks[key].expiresAt > now {
        return false;
      }
      locks := locks[key := Lease(token, now + ttl)];
      return true;
    }

    method Release(key: K, token: nat)
      modifies this`locks
      ensures Contents() == ReleaseLock(old(Contents()), key, token)
      ensures forall k | k in old(locks) && old(locks)[k].token != token :: k in locks && locks[k] == old(locks)[k]
    {
      if key in locks && locks[key].token == token {
        locks := locks - {key};
      }
    }

    method Close()
      modifies this
      ensures Contents() == Store(map[], map[], map[])
    {
      entries, versions, locks := map[], map[], map[];
    }
  }
}
