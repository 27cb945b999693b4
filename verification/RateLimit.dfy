/**
  The fixed-window rate limiter: its memory store and its Redis script (src/system/rate-limit-store.js:9-17, 32-73,
  130-152) and the decision of the middleware (src/middlewares/rate-limit.middleware.js:66-148). A key in Redis
  vanishes at the instant its time to live ends.
 */
module RateLimit {
  import opened Options

  datatype Entry = Entry(count: nat, resetAt: int)

  /** A JavaScript Map: its keys in insertion order and their values. */
  datatype Store = Store(order: seq<string>, entries: map<string, Entry>)

  datatype Outcome = Outcome(count: nat, resetAt: int)

  predicate IsStore(s: Store) {
    && (forall i, j | 0 <= i < j < |s.order| :: s.order[i] != s.order[j])
    && (forall key | key in s.order :: key in s.entries) && (forall key | key in s.entries :: key in s.order)
  }

  // -------------------------------------------------------------------------------- the memory store

  predicate IsExpired(e: Entry, now: int) {
    e.resetAt <= now
  }

  /** The keys that are not expired, in order. */
  function LiveKeys(order: seq<string>, entries: map<string, Entry>, now: int): seq<string>
    requires forall key | key in order :: key in entries
  {
    if order == [] then []
    else (if IsExpired(entries[order[0]], now) then [] else [order[0]]) + LiveKeys(order[1..], entries, now)
  }

  function Restricted(keys: seq<string>, entries: map<string, Entry>): map<string, Entry> {
    map key | key in keys && key in entries :: entries[key]
  }

  /** `Map.prototype.delete` */
  function Without(order: seq<string>, key: string): seq<string> {
    if order == [] then [] else if order[0] == key then order[1..] else [order[0]] + Without(order[1..], key)
  }

  lemma {:induction false} WithoutAt(order: seq<string>, i: nat)
    requires i < |order| && forall j, k | 0 <= j < k < |order| :: order[j] != order[k]
    ensures Without(order, order[i]) == order[..i] + order[i + 1..]
  {
    if i > 0 {
      WithoutAt(order[1..], i - 1);
      assert order[1..][..i - 1] == order[1..i] && order[1..][i..] == order[i + 1..];
      assert order[..i] == [order[0]] + order[1..i];
    }
  }

  /** `pruneMemoryEntries`: above the limit, the expired go first, then the oldest. */
  function Prune(s: Store, now: int, maxKeys: nat): Store
    requires IsStore(s)
  {
    if |s.order| <= maxKeys then s
    else
      var live := LiveKeys(s.order, s.entries, now);
      var kept := if |live| <= maxKeys then live else live[|live| - maxKeys..];
      Store(kept, Restricted(kept, s.entries))
  }

  /** The window a request falls into, and its count there. */
  function Next(previous: Option<Entry>, windowMs: nat, now: int): Entry {
    if previous.None? || IsExpired(previous.value, now) then Entry(1, now + windowMs)
    else Entry(previous.value.count + 1, previous.value.resetAt)
  }

  function Lookup(s: Store, key: string): Option<Entry> {
    if key in s.entries then Some(s.entries[key]) else None
  }

  /** `Map.prototype.set`: a present key keeps its place. */
  function Set(s: Store, key: string, e: Entry): Store {
    Store(if key in s.entries then s.order else s.order + [key], s.entries[key := e])
  }

  function Consumed(s: Store, key: string, windowMs: nat, now: int, maxKeys: nat): Store
    requires IsStore(s)
  {
    SetIsStore(s, key, Next(Lookup(s, key), windowMs, now));
    Prune(Set(s, key, Next(Lookup(s, key), windowMs, now)), now, maxKeys)
  }

  lemma SetIsStore(s: Store, key: string, e: Entry)
    requires IsStore(s)
    ensures IsStore(Set(s, key, e))
  {
  }

  lemma {:induction false} LiveKeysAre(order: seq<string>, entries: map<string, Entry>, now: int)
    requires forall key | key in order :: key in entries
    requires forall i, j | 0 <= i < j < |order| :: order[i] != order[j]
    ensures forall key :: key in LiveKeys(order, entries, now) <==> key in order && !IsExpired(entries[key], now)
    ensures var live := LiveKeys(order, entries, now); forall i, j | 0 <= i < j < |live| :: live[i] != live[j]
    ensures |LiveKeys(order, entries, now)| <= |order|
  {
    if order != [] {
      LiveKeysAre(order[1..], entries, now);
      assert order == [order[0]] + order[1..];
      assert order[0] !in order[1..];
    }
  }

  lemma PruneIsStore(s: Store, now: int, maxKeys: nat)
    requires IsStore(s)
    ensures IsStore(Prune(s, now, maxKeys)) && |Prune(s, now, maxKeys).order| <= maxKeys
    ensures forall key | key in Prune(s, now, maxKeys).entries ::
      key in s.entries && Prune(s, now, maxKeys).entries[key] == s.entries[key]
  {
    LiveKeysAre(s.order, s.entries, now);
  }

  class MemoryRateLimitStore {
    var order: seq<string>
    var entries: map<string, Entry>
    const maxKeys: nat

    constructor (maxKeys: nat)
      ensures this.maxKeys == maxKeys && Value() == Store([], map[]) && Valid()
    {
      order, entries, this.maxKeys := [], map[], maxKeys;
    }

    function Value(): Store
      reads this
    {
      Store(order, entries)
    }

    predicate Valid()
      reads this
    {
      IsStore(Value())
    }

    method Delete(key: string)
      requires Valid()
      modifies this`order, this`entries
      ensures Valid() && Value() == Deleted(old(Value()), key)
    {
      DeletedIsStore(Value(), key);
      order := Without(order, key);
      entries := entries - {key};
    }

    /** The loop over a Map sees each key once, even while it deletes. */
    method DeleteExpired(now: int)
      requires Valid()
      modifies this`order, this`entries
      ensures Valid() && Value() == Only(old(Value()), LiveKeys(old(order), old(entries), now))
    {
      var keys := order;
      ghost var all := Value();
      ghost var kept: seq<string> := [];
      OnlyAll(all);
      NothingKept(all, now);
      for n := 0 to |keys|
        invariant Valid() && Value() == Only(all, kept + keys[n..])
        invariant kept + LiveKeys(keys[n..], all.entries, now) == LiveKeys(keys, all.entries, now)
      {
        KeyAt(all, kept, keys, n);
        LiveKeysStep(keys, all.entries, now, n, kept);
        hide IsStore, LiveKeys, Without, Only, Deleted;
        if entries[keys[n]].resetAt <= now {
          DeletedFrom(Value(), all, kept, keys[n], keys[n + 1..]);
          Delete(keys[n]);
          assert kept + [] == kept;
        } else {
          assert kept + keys[n..] == kept + [keys[n]] + keys[n + 1..];
          kept := kept + [keys[n]];
        }
      }
      assert kept + [] == kept && keys[|keys|..] == [];
    }

    method PruneMemoryEntries(now: int)
      requires Valid()
      modifies this`order, this`entries
      ensures Valid() && Value() == Prune(old(Value()), now, maxKeys)
    {
      if |order| <= maxKeys {
        return;
      }
      hide IsStore, LiveKeys, Prune, Only;
      ghost var all := Value();
      DeleteExpired(now);
      ghost var live := LiveKeys(all.order, all.entries, now);
      OnlyOrder(all, live);
      ghost var evicted := EvictOldest(all, live);
      PruneIsOnly(all, now, maxKeys, live, evicted);
    }

    method EvictOldest(ghost all: Store, ghost live: seq<string>) returns (ghost evicted: nat)
      requires Valid() && Value() == Only(all, live)
      modifies this`order, this`entries
      ensures Valid() && evicted <= |live| && Value() == Only(all, live[evicted..])
      ensures |live| - evicted <= maxKeys && (evicted == 0 || |live| - evicted >= maxKeys)
    {
      hide IsStore, Only, Deleted;
      evicted := 0;
      assert live[0..] == live;
      OnlyOrder(all, live);
      while |order| > maxKeys
        invariant Valid() && evicted <= |live| && order == live[evicted..] && Value() == Only(all, live[evicted..])
        invariant evicted == 0 || |live| - evicted >= maxKeys
        decreases |order|
      {
        EvictStep(Value(), all, live, evicted);
        Delete(order[0]);
        OnlyOrder(all, live[evicted + 1..]);
        evicted := evicted + 1;
      }
    }

    method Consume(key: string, windowMs: nat, now: int) returns (r: Outcome)
      requires Valid()
      modifies this`order, this`entries
      ensures Valid() && Value() == Consumed(old(Value()), key, windowMs, now, maxKeys)
      ensures var e := Next(Lookup(old(Value()), key), windowMs, now); r == Outcome(e.count, e.resetAt)
    {
      var entry := if key in entries then entries[key] else Entry(0, now);
      if key !in entries || entry.resetAt <= now {
        entry := Entry(0, now + windowMs);
      }
      entry := entry.(count := entry.count + 1);
      SetIsStore(Value(), key, entry);
      if key !in entries {
        order := order + [key];
      }
      entries := entries[key := entry];
      PruneMemoryEntries(now);
      r := Outcome(entry.count, entry.resetAt);
    }
  }

  lemma WithoutIsStore(s: Store, i: nat)
    requires IsStore(s) && i < |s.order|
    ensures IsStore(Store(s.order[..i] + s.order[i + 1..], s.entries - {s.order[i]}))
  {
    WithoutMembers(s.order, i);
    var order := s.order[..i] + s.order[i + 1..];
    assert forall k | 0 <= k < |order| :: order[k] == if k < i then s.order[k] else s.order[k + 1];
  }

  /** The store cut down to some keys. */
  function Only(s: Store, keys: seq<string>): Store {
    Store(keys, Restricted(keys, s.entries))
  }

  function Deleted(s: Store, key: string): Store {
    Store(Without(s.order, key), s.entries - {key})
  }

  lemma {:induction false} WithoutAbsent(order: seq<string>, key: string)
    requires key !in order
    ensures Without(order, key) == order
  {
    if order != [] {
      WithoutAbsent(order[1..], key);
    }
  }

  lemma DeletedIsStore(s: Store, key: string)
    requires IsStore(s)
    ensures IsStore(Deleted(s, key))
  {
    if key in s.order {
      var i :| 0 <= i < |s.order| && s.order[i] == key;
      WithoutAt(s.order, i);
      WithoutIsStore(s, i);
    } else {
      WithoutAbsent(s.order, key);
      assert s.entries - {key} == s.entries;
    }
  }

  lemma OnlyOrder(s: Store, keys: seq<string>)
    ensures Only(s, keys).order == keys
  {
  }

  lemma EvictStep(s: Store, all: Store, live: seq<string>, evicted: nat)
    requires evicted < |live| && IsStore(s) && s == Only(all, live[evicted..])
    ensures s.order != [] && Deleted(s, s.order[0]) == Only(all, live[evicted + 1..])
  {
    hide IsStore, Deleted, Restricted;
    assert live[evicted..] == [] + [live[evicted]] + live[evicted + 1..];
    assert [] + live[evicted + 1..] == live[evicted + 1..];
    DeletedFrom(s, all, [], live[evicted], live[evicted + 1..]);
  }

  lemma PruneIsOnly(s: Store, now: int, maxKeys: nat, live: seq<string>, evicted: nat)
    requires IsStore(s) && |s.order| > maxKeys && live == LiveKeys(s.order, s.entries, now) && evicted <= |live|
    requires |live| - evicted <= maxKeys && (evicted == 0 || |live| - evicted >= maxKeys)
    ensures Prune(s, now, maxKeys) == Only(s, live[evicted..])
  {
    hide IsStore, LiveKeys, Restricted;
    assert evicted == 0 ==> live[evicted..] == live;
  }

  lemma OnlyAll(s: Store)
    requires IsStore(s)
    ensures Only(s, s.order) == s && Only(s, [] + s.order[0..]) == s
  {
    assert Restricted(s.order, s.entries) == s.entries;
    assert [] + s.order[0..] == s.order;
  }

  lemma NothingKept(s: Store, now: int)
    requires IsStore(s)
    ensures [] + LiveKeys(s.order[0..], s.entries, now) == LiveKeys(s.order, s.entries, now)
  {
    assert s.order[0..] == s.order;
  }

  lemma KeyAt(all: Store, kept: seq<string>, keys: seq<string>, n: nat)
    requires n < |keys| && IsStore(all) && IsStore(Only(all, kept + keys[n..])) && keys == all.order
    ensures keys[n] in Only(all, kept + keys[n..]).entries
      && Only(all, kept + keys[n..]).entries[keys[n]] == all.entries[keys[n]]
    ensures kept + keys[n..] == kept + [keys[n]] + keys[n + 1..]
  {
    assert keys[n..] == [keys[n]] + keys[n + 1..];
    assert (kept + keys[n..])[|kept|] == keys[n];
    assert keys[n] in all.order;
  }

  /** Deleting a key from a cut-down store cuts it further. */
  lemma DeletedFrom(s: Store, all: Store, front: seq<string>, key: string, back: seq<string>)
    requires IsStore(s) && s == Only(all, front + [key] + back)
    ensures Deleted(s, key) == Only(all, front + back)
  {
    var order := front + [key] + back;
    assert order[|front|] == key && order[..|front|] == front && order[|front| + 1..] == back;
    WithoutAt(order, |front|);
    RestrictedWithout(order, all.entries, |front|);
  }

  lemma WithoutMembers(order: seq<string>, i: nat)
    requires i < |order| && forall j, k | 0 <= j < k < |order| :: order[j] != order[k]
    ensures forall key :: key in order[..i] + order[i + 1..] <==> key in order && key != order[i]
  {
    var less := order[..i] + order[i + 1..];
    assert forall k | 0 <= k < |less| :: less[k] == if k < i then order[k] else order[k + 1];
    forall key | key in order && key != order[i]
      ensures key in less
    {
      var k :| 0 <= k < |order| && order[k] == key;
      assert less[if k < i then k else k - 1] == key;
    }
  }

  lemma RestrictedWithout(order: seq<string>, entries: map<string, Entry>, i: nat)
    requires i < |order| && forall j, k | 0 <= j < k < |order| :: order[j] != order[k]
    ensures Restricted(order[..i] + order[i + 1..], entries) == Restricted(order, entries) - {order[i]}
  {
    WithoutMembers(order, i);
    var less := order[..i] + order[i + 1..];
    hide *;
    RestrictedFewer(less, order, order[i], entries);
  }

  lemma RestrictedFewer(less: seq<string>, order: seq<string>, gone: string, entries: map<string, Entry>)
    requires forall key :: key in less <==> key in order && key != gone
    ensures Restricted(less, entries) == Restricted(order, entries) - {gone}
  {
  }

  lemma LiveKeysStep(keys: seq<string>, entries: map<string, Entry>, now: int, n: nat, kept: seq<string>)
    requires n < |keys| && forall key | key in keys :: key in entries
    ensures kept + LiveKeys(keys[n..], entries, now)
      == kept + (if IsExpired(entries[keys[n]], now) then [] else [keys[n]]) + LiveKeys(keys[n + 1..], entries, now)
  {
    assert keys[n..][0] == keys[n] && keys[n..][1..] == keys[n + 1..];
    var rest := LiveKeys(keys[n + 1..], entries, now);
    if IsExpired(entries[keys[n]], now) {
      assert kept + ([] + rest) == kept + [] + rest;
    } else {
      assert kept + ([keys[n]] + rest) == kept + [keys[n]] + rest;
    }
  }

  // ------------------------------------------------------------------------------- what pruning costs

  /**
    After a request the store holds at most `maxKeys` keys, the key just used among them. If a live key is gone, every
    key left is live, and the ones gone are older than the ones left.
   */
  lemma ConsumeKeepsWithinLimit(s: Store, key: string, windowMs: nat, now: int, maxKeys: nat)
    requires IsStore(s) && |s.order| <= maxKeys && maxKeys >= 1 && windowMs >= 1
    ensures var n := Consumed(s, key, windowMs, now, maxKeys);
      && IsStore(n) && |n.order| <= maxKeys
      && key in n.entries && n.entries[key] == Next(Lookup(s, key), windowMs, now)
      && (forall k | k in s.entries && k != key && k in n.entries :: n.entries[k] == s.entries[k])
      && ((exists k :: k in s.entries && k !in n.entries && !IsExpired(s.entries[k], now)) ==>
            forall k | k in n.entries :: !IsExpired(n.entries[k], now))
  {
    var e := Next(Lookup(s, key), windowMs, now);
    var t := Set(s, key, e);
    assert !IsExpired(e, now);
    hide Next, IsExpired, Lookup;
    SetIsStore(s, key, e);
    PruneIsStore(t, now, maxKeys);
    if |t.order| > maxKeys {
      assert t.order == s.order + [key] && t.order[|s.order|] == key;
      PrunedIsLive(t, now, maxKeys);
    }
    hide IsStore, Prune;
  }

  /** Above the limit only live keys are left, the newest among them. */
  lemma PrunedIsLive(t: Store, now: int, maxKeys: nat)
    requires IsStore(t) && |t.order| > maxKeys >= 1 && !IsExpired(t.entries[t.order[|t.order| - 1]], now)
    ensures var n := Prune(t, now, maxKeys);
      && IsStore(n) && t.order[|t.order| - 1] in n.entries
      && forall k | k in n.entries :: k in t.entries && n.entries[k] == t.entries[k] && !IsExpired(n.entries[k], now)
  {
    hide IsExpired, LiveKeys, Prune;
    var live := LiveKeys(t.order, t.entries, now);
    LiveFacts(t, now);
    PruneIsStore(t, now, maxKeys);
    PruneOrder(t, now, maxKeys);
    LastStays(live, maxKeys);
    var n := Prune(t, now, maxKeys);
    forall k | k in n.entries
      ensures k in live
    {
      assert k in n.order;
    }
  }

  lemma LiveFacts(t: Store, now: int)
    requires IsStore(t) && t.order != [] && !IsExpired(t.entries[t.order[|t.order| - 1]], now)
    ensures var live := LiveKeys(t.order, t.entries, now);
      && live != [] && live[|live| - 1] == t.order[|t.order| - 1]
      && forall k | k in live :: k in t.entries && !IsExpired(t.entries[k], now)
  {
    hide IsExpired, LiveKeys;
    LastIsLive(t.order, t.entries, now);
    LiveKeysAre(t.order, t.entries, now);
  }

  lemma PruneOrder(t: Store, now: int, maxKeys: nat)
    requires IsStore(t) && |t.order| > maxKeys
    ensures var live := LiveKeys(t.order, t.entries, now);
      Prune(t, now, maxKeys).order == if |live| <= maxKeys then live else live[|live| - maxKeys..]
  {
    hide LiveKeys, Restricted;
  }

  lemma LastStays(live: seq<string>, maxKeys: nat)
    requires live != [] && maxKeys >= 1
    ensures var kept := if |live| <= maxKeys then live else live[|live| - maxKeys..];
      live[|live| - 1] in kept && forall k | k in kept :: k in live
  {
    var kept := if |live| <= maxKeys then live else live[|live| - maxKeys..];
    assert kept[|kept| - 1] == live[|live| - 1];
  }

  lemma {:induction false} LastIsLive(order: seq<string>, entries: map<string, Entry>, now: int)
    requires order != [] && (forall key | key in order :: key in entries)
      && !IsExpired(entries[order[|order| - 1]], now)
    ensures var live := LiveKeys(order, entries, now); live != [] && live[|live| - 1] == order[|order| - 1]
  {
    if |order| > 1 {
      LastIsLive(order[1..], entries, now);
    }
  }

  // ---------------------------------------------------------------------------------- the Redis store

  /** A counter and the instant it vanishes, if it has one. */
  datatype RedisEntry = RedisEntry(count: nat, expiresAt: Option<int>)

  type Redis = map<string, RedisEntry>

  predicate Exists(r: Redis, key: string, now: int) {
    key in r && (r[key].expiresAt.Some? ==> now < r[key].expiresAt.value)
  }

  /** `INCREMENT_WITH_TTL_SCRIPT`, one atomic step: INCR, PTTL and, if needed, PEXPIRE. */
  method IncrementWithTtl(r: Redis, key: string, windowMs: nat, now: int) returns (r': Redis, current: nat, ttl: int)
    ensures r' == RedisConsumed(r, key, windowMs, now)
    ensures Outcome(current, now + ttl) == RedisOutcome(r, key, windowMs, now)
  {
    current := if Exists(r, key, now) then r[key].count + 1 else 1;
    var expiresAt := if Exists(r, key, now) then r[key].expiresAt else None;
    ttl := if expiresAt.Some? then expiresAt.value - now else -1;
    if current == 1 || ttl < 0 {
      expiresAt := Some(now + windowMs);
      ttl := windowMs;
    }
    r' := r[key := RedisEntry(current, expiresAt)];
  }

  function RedisConsumed(r: Redis, key: string, windowMs: nat, now: int): Redis {
    var count := if Exists(r, key, now) then r[key].count + 1 else 1;
    r[key := RedisEntry(count, Some(if Exists(r, key, now) && count != 1 && r[key].expiresAt.Some?
                                    then r[key].expiresAt.value
                                    else now + windowMs))]
  }

  function RedisOutcome(r: Redis, key: string, windowMs: nat, now: int): Outcome {
    var e := RedisConsumed(r, key, windowMs, now)[key];
    Outcome(e.count, e.expiresAt.value)
  }

  // --------------------------------------------------------------------------- both follow one store

  /** A request on a key at a time; the windows of different profiles differ. */
  datatype Request = Request(key: string, windowMs: nat, now: int)

  /** An entry that is still running. */
  function Running(e: Option<Entry>, now: int): Option<Entry> {
    if e.Some? && !IsExpired(e.value, now) then e else None
  }

  /** The ideal store: each key on its own, with all the memory it needs. */
  function IdealOutcomes(e: Option<Entry>, requests: seq<Request>, key: string): seq<Outcome>
    decreases |requests|
  {
    if requests == [] then []
    else if requests[0].key != key then IdealOutcomes(e, requests[1..], key)
    else
      var next := Next(e, requests[0].windowMs, requests[0].now);
      [Outcome(next.count, next.resetAt)] + IdealOutcomes(Some(next), requests[1..], key)
  }

  function MemoryOutcomes(s: Store, requests: seq<Request>, key: string, maxKeys: nat): seq<Outcome>
    requires IsStore(s)
    decreases |requests|
  {
    if requests == [] then []
    else
      var q := requests[0];
      var next := Next(Lookup(s, q.key), q.windowMs, q.now);
      SetIsStore(s, q.key, next);
      PruneIsStore(Set(s, q.key, next), q.now, maxKeys);
      (if q.key == key then [Outcome(next.count, next.resetAt)] else [])
      + MemoryOutcomes(Consumed(s, q.key, q.windowMs, q.now, maxKeys), requests[1..], key, maxKeys)
  }

  function RedisOutcomes(r: Redis, requests: seq<Request>, key: string): seq<Outcome>
    decreases |requests|
  {
    if requests == [] then []
    else
      var q := requests[0];
      (if q.key == key then [RedisOutcome(r, q.key, q.windowMs, q.now)] else [])
      + RedisOutcomes(RedisConsumed(r, q.key, q.windowMs, q.now), requests[1..], key)
  }

  /** The running entry of `key` is never evicted. */
  ghost predicate NeverEvicted(s: Store, requests: seq<Request>, key: string, maxKeys: nat)
    requires IsStore(s)
    decreases |requests|
  {
    requests == []
    || var q := requests[0];
       var next := Next(Lookup(s, q.key), q.windowMs, q.now);
       SetIsStore(s, q.key, next);
       PruneIsStore(Set(s, q.key, next), q.now, maxKeys);
       var n := Consumed(s, q.key, q.windowMs, q.now, maxKeys);
       && (key in Set(s, q.key, next).entries && !IsExpired(Set(s, q.key, next).entries[key], q.now) ==>
           key in n.entries)
       && NeverEvicted(n, requests[1..], key, maxKeys)
  }

  /** The clock does not run backwards. */
  ghost predicate InTime(requests: seq<Request>, from: int) {
    && (forall i | 0 <= i < |requests| :: from <= requests[i].now && requests[i].windowMs >= 1)
    && (forall i, j | 0 <= i < j < |requests| :: requests[i].now <= requests[j].now)
  }

  lemma LaterInTime(requests: seq<Request>, from: int)
    requires InTime(requests, from) && requests != []
    ensures InTime(requests[1..], requests[0].now)
  {
    var rest := requests[1..];
    assert forall i | 0 <= i < |rest| :: rest[i] == requests[i + 1];
  }

  /** What a key's next request sees is the same after the clock moved on. */
  lemma NextSees(a: Option<Entry>, b: Option<Entry>, from: int, now: int, windowMs: nat)
    requires Running(a, from) == Running(b, from) && from <= now
    ensures Next(a, windowMs, now) == Next(b, windowMs, now) && Running(a, now) == Running(b, now)
  {
  }

  /** The memory store answers for `key` as the ideal store does, as long as that key is not evicted. */
  lemma {:induction false} MemoryFollowsTheIdeal(s: Store, e: Option<Entry>, requests: seq<Request>, key: string,
                                                 maxKeys: nat, from: int)
    requires IsStore(s) && InTime(requests, from) && NeverEvicted(s, requests, key, maxKeys)
    requires Running(Lookup(s, key), from) == Running(e, from)
    ensures MemoryOutcomes(s, requests, key, maxKeys) == IdealOutcomes(e, requests, key)
    decreases |requests|
  {
    if requests != [] {
      var q := requests[0];
      var next := Next(Lookup(s, q.key), q.windowMs, q.now);
      LaterInTime(requests, from);
      SetIsStore(s, q.key, next);
      PruneIsStore(Set(s, q.key, next), q.now, maxKeys);
      NextSees(Lookup(s, key), e, from, q.now, q.windowMs);
      var n := Consumed(s, q.key, q.windowMs, q.now, maxKeys);
      hide Prune, IsStore, InTime;
      assert q.key != key ==> Running(Lookup(n, key), q.now) == Running(e, q.now);
      assert q.key == key ==> Running(Lookup(n, key), q.now) == Running(Some(next), q.now);
      hide Set, Next, Lookup;
      MemoryFollowsTheIdeal(n, if q.key == key then Some(next) else e, requests[1..], key, maxKeys, q.now);
    }
  }

  function RedisView(r: Redis, key: string): Option<Entry> {
    if key in r && r[key].expiresAt.Some? then Some(Entry(r[key].count, r[key].expiresAt.value)) else None
  }

  /** Every counter in Redis has an expiry and a positive count, as the script leaves it. */
  ghost predicate IsRedis(r: Redis) {
    forall key | key in r :: r[key].expiresAt.Some? && r[key].count >= 1
  }

  /** The Redis script always answers as the ideal store does. */
  lemma {:induction false} RedisFollowsTheIdeal(r: Redis, e: Option<Entry>, requests: seq<Request>, key: string,
                                                from: int)
    requires IsRedis(r) && InTime(requests, from) && Running(RedisView(r, key), from) == Running(e, from)
    ensures RedisOutcomes(r, requests, key) == IdealOutcomes(e, requests, key)
    decreases |requests|
  {
    if requests != [] {
      var q := requests[0];
      LaterInTime(requests, from);
      NextSees(RedisView(r, key), e, from, q.now, q.windowMs);
      RedisFollowsTheIdeal(RedisConsumed(r, q.key, q.windowMs, q.now),
                           if q.key == key then Some(Next(e, q.windowMs, q.now)) else e, requests[1..], key, q.now);
    }
  }

  /** From the start, both stores give a key the same counts and reset times until the memory store evicts it. */
  lemma StoresAgree(requests: seq<Request>, key: string, maxKeys: nat, from: int)
    requires InTime(requests, from) && NeverEvicted(Store([], map[]), requests, key, maxKeys)
    ensures MemoryOutcomes(Store([], map[]), requests, key, maxKeys) == RedisOutcomes(map[], requests, key)
  {
    hide InTime, NeverEvicted;
    MemoryFollowsTheIdeal(Store([], map[]), None, requests, key, maxKeys, from);
    RedisFollowsTheIdeal(map[], None, requests, key, from);
  }

  // -------------------------------------------------------------------------------------- the bounds

  /** Requests on the key at times in `[lo, hi)` that the middleware lets through: those counted up to `max`. */
  function Admitted(e: Option<Entry>, requests: seq<Request>, key: string, max: nat, lo: int, hi: int): nat
    decreases |requests|
  {
    if requests == [] then 0
    else if requests[0].key != key then Admitted(e, requests[1..], key, max, lo, hi)
    else
      var next := Next(e, requests[0].windowMs, requests[0].now);
      (if lo <= requests[0].now < hi && next.count <= max then 1 else 0)
        + Admitted(Some(next), requests[1..], key, max, lo, hi)
  }

  /** All requests on the key use one window length. */
  ghost predicate OneWindow(requests: seq<Request>, key: string, windowMs: nat) {
    forall i | 0 <= i < |requests| && requests[i].key == key :: requests[i].windowMs == windowMs
  }

  function Left(e: Entry, max: nat): nat {
    if e.count < max then max - e.count else 0
  }

  /** Until the window ends, only what is left of `max` is admitted. */
  lemma {:induction false} AtMostMaxPerWindow(e: Entry, requests: seq<Request>, key: string, max: nat, lo: int, hi: int,
                                              from: int)
    requires InTime(requests, from) && hi <= e.resetAt
    ensures Admitted(Some(e), requests, key, max, lo, hi) <= Left(e, max)
    decreases |requests|
  {
    if requests != [] {
      LaterInTime(requests, from);
      var q := requests[0];
      if q.key != key {
        AtMostMaxPerWindow(e, requests[1..], key, max, lo, hi, q.now);
      } else if q.now < hi {
        AtMostMaxPerWindow(Next(Some(e), q.windowMs, q.now), requests[1..], key, max, lo, hi, q.now);
      } else {
        NoneAfter(Some(e), requests, key, max, lo, hi, from);
      }
    }
  }

  lemma {:induction false} NoneAfter(e: Option<Entry>, requests: seq<Request>, key: string, max: nat, lo: int, hi: int,
                                     from: int)
    requires InTime(requests, from) && (requests != [] ==> hi <= requests[0].now)
    ensures Admitted(e, requests, key, max, lo, hi) == 0
    decreases |requests|
  {
    if requests != [] {
      LaterInTime(requests, from);
      var next := if requests[0].key == key then Some(Next(e, requests[0].windowMs, requests[0].now)) else e;
      NoneAfter(next, requests[1..], key, max, lo, hi, requests[0].now);
    }
  }

  /** Across one change of window. */
  lemma {:induction false} AtMostTwoWindows(e: Entry, requests: seq<Request>, key: string, windowMs: nat, max: nat,
                                            lo: int, hi: int, from: int)
    requires InTime(requests, from) && OneWindow(requests, key, windowMs) && hi <= e.resetAt + windowMs
    ensures Admitted(Some(e), requests, key, max, lo, hi) <= Left(e, max) + max
    decreases |requests|
  {
    if requests != [] {
      LaterInTime(requests, from);
      var q := requests[0];
      assert OneWindow(requests[1..], key, windowMs);
      if q.key != key {
        AtMostTwoWindows(e, requests[1..], key, windowMs, max, lo, hi, q.now);
      } else if q.now < e.resetAt {
        AtMostTwoWindows(Next(Some(e), windowMs, q.now), requests[1..], key, windowMs, max, lo, hi, q.now);
      } else {
        AtMostMaxPerWindow(Next(Some(e), windowMs, q.now), requests[1..], key, max, lo, hi, q.now);
      }
    }
  }

  /** In any half-open interval as long as the window, fewer than twice `max` requests on a key are admitted. */
  lemma {:induction false} AtMostTwiceMax(e: Option<Entry>, requests: seq<Request>, key: string, windowMs: nat,
                                          max: nat, lo: int, from: int)
    requires InTime(requests, from) && OneWindow(requests, key, windowMs) && max >= 1
      && (e.Some? ==> e.value.count >= 1)
    ensures Admitted(e, requests, key, max, lo, lo + windowMs) <= 2 * max - 1
    decreases |requests|
  {
    if requests != [] {
      LaterInTime(requests, from);
      var q := requests[0];
      assert OneWindow(requests[1..], key, windowMs);
      if q.key != key {
        AtMostTwiceMax(e, requests[1..], key, windowMs, max, lo, q.now);
      } else {
        var next := Next(e, windowMs, q.now);
        if q.now < lo {
          AtMostTwiceMax(Some(next), requests[1..], key, windowMs, max, lo, q.now);
        } else if e.Some? && !IsExpired(e.value, q.now) {
          AtMostTwoWindows(next, requests[1..], key, windowMs, max, lo, lo + windowMs, q.now);
        } else {
          AtMostMaxPerWindow(next, requests[1..], key, max, lo, lo + windowMs, q.now);
        }
      }
    }
  }

  function Copies(q: Request, n: nat): (copies: seq<Request>)
    ensures |copies| == n && forall i | 0 <= i < n :: copies[i] == q
  {
    if n == 0 then [] else [q] + Copies(q, n - 1)
  }

  lemma {:induction false} CopiesAreAdmitted(e: Entry, q: Request, n: nat, rest: seq<Request>, max: nat, lo: int,
                                             hi: int)
    requires lo <= q.now < hi && q.now < e.resetAt && e.count + n <= max
    ensures Admitted(Some(e), Copies(q, n) + rest, q.key, max, lo, hi)
      == n + Admitted(Some(Entry(e.count + n, e.resetAt)), rest, q.key, max, lo, hi)
    decreases n
  {
    if n == 0 {
      assert [] + rest == rest;
    } else {
      CopiesAreAdmitted(Entry(e.count + 1, e.resetAt), q, n - 1, rest, max, lo, hi);
      assert (Copies(q, n) + rest)[0] == q && (Copies(q, n) + rest)[1..] == Copies(q, n - 1) + rest;
    }
  }

  /** One request opens a window; `max - 1` come at its very end and `max` right after it. */
  function Burst(key: string, windowMs: nat, max: nat): seq<Request>
    requires max >= 1
  {
    var late, after := Request(key, windowMs, windowMs - 1), Request(key, windowMs, windowMs);
    [Request(key, windowMs, 0)] + (Copies(late, max - 1) + ([after] + (Copies(after, max - 1) + [])))
  }

  lemma BurstIsAdmitted(key: string, windowMs: nat, max: nat)
    requires max >= 1 && windowMs >= 2
    ensures Admitted(None, Burst(key, windowMs, max), key, max, 1, 1 + windowMs) == 2 * max - 1
  {
    hide Copies;
    var late, after := Request(key, windowMs, windowMs - 1), Request(key, windowMs, windowMs);
    var tail := Copies(after, max - 1) + [];
    var opening := Entry(1, windowMs);
    AdmittedFirst(None, Request(key, windowMs, 0), Copies(late, max - 1) + ([after] + tail), max, 1, 1 + windowMs);
    CopiesAreAdmitted(opening, late, max - 1, [after] + tail, max, 1, 1 + windowMs);
    AdmittedFirst(Some(Entry(max, windowMs)), after, tail, max, 1, 1 + windowMs);
    CopiesAreAdmitted(Entry(1, 2 * windowMs), after, max - 1, [], max, 1, 1 + windowMs);
  }

  lemma AdmittedFirst(e: Option<Entry>, q: Request, rest: seq<Request>, max: nat, lo: int, hi: int)
    ensures var next := Next(e, q.windowMs, q.now);
      Admitted(e, [q] + rest, q.key, max, lo, hi)
      == (if lo <= q.now < hi && next.count <= max then 1 else 0) + Admitted(Some(next), rest, q.key, max, lo, hi)
  {
    assert ([q] + rest)[1..] == rest;
  }

  /** The times of the requests on a key. */
  function TimesOf(requests: seq<Request>, key: string): seq<int> {
    if requests == [] then []
    else if requests[0].key == key then [requests[0].now] + TimesOf(requests[1..], key)
    else TimesOf(requests[1..], key)
  }

  /** Outcomes the middleware lets through, among those at times in `[lo, hi)`. */
  function Passed(outcomes: seq<Outcome>, times: seq<int>, max: nat, lo: int, hi: int): nat {
    if outcomes == [] || times == [] then 0
    else
      (if lo <= times[0] < hi && Decide(Some(outcomes[0]), max, times[0]).Pass? then 1 else 0)
      + Passed(outcomes[1..], times[1..], max, lo, hi)
  }

  /** Outcomes let through in the window that ends at `resetAt`. */
  function PassedIn(outcomes: seq<Outcome>, max: nat, resetAt: int): nat {
    if outcomes == [] then 0
    else
      (if outcomes[0].resetAt == resetAt && Decide(Some(outcomes[0]), max, 0).Pass? then 1 else 0)
      + PassedIn(outcomes[1..], max, resetAt)
  }

  lemma {:induction false} PassedIsAdmitted(e: Option<Entry>, requests: seq<Request>, key: string, max: nat, lo: int,
                                            hi: int)
    ensures Passed(IdealOutcomes(e, requests, key), TimesOf(requests, key), max, lo, hi)
      == Admitted(e, requests, key, max, lo, hi)
    decreases |requests|
  {
    if requests != [] {
      var q := requests[0];
      if q.key != key {
        PassedIsAdmitted(e, requests[1..], key, max, lo, hi);
        assert [] + TimesOf(requests[1..], key) == TimesOf(requests[1..], key);
      } else {
        var next := Next(e, q.windowMs, q.now);
        PassedIsAdmitted(Some(next), requests[1..], key, max, lo, hi);
        var outcomes := [Outcome(next.count, next.resetAt)] + IdealOutcomes(Some(next), requests[1..], key);
        var times := [q.now] + TimesOf(requests[1..], key);
        assert outcomes[1..] == IdealOutcomes(Some(next), requests[1..], key)
          && times[1..] == TimesOf(requests[1..], key);
      }
    }
  }

  lemma {:induction false} AtMostMaxWithReset(e: Option<Entry>, requests: seq<Request>, key: string, max: nat,
                                              resetAt: int, from: int)
    requires InTime(requests, from)
    ensures PassedIn(IdealOutcomes(e, requests, key), max, resetAt)
      <= if e.None? || e.value.resetAt < resetAt then max
        else if e.value.resetAt == resetAt then Left(e.value, max) else 0
    decreases |requests|
  {
    if requests != [] {
      LaterInTime(requests, from);
      var q := requests[0];
      if q.key != key {
        AtMostMaxWithReset(e, requests[1..], key, max, resetAt, q.now);
      } else {
        var next := Next(e, q.windowMs, q.now);
        AtMostMaxWithReset(Some(next), requests[1..], key, max, resetAt, q.now);
        var outcomes := [Outcome(next.count, next.resetAt)] + IdealOutcomes(Some(next), requests[1..], key);
        assert outcomes[1..] == IdealOutcomes(Some(next), requests[1..], key);
      }
    }
  }

  /**
    Over every run of the memory store in which the key is not evicted: at most `max` requests pass per window, and at
    most twice `max` less one in any half-open interval as long as the window.
   */
  lemma MemoryLimiterBounds(requests: seq<Request>, key: string, windowMs: nat, max: nat, maxKeys: nat, lo: int,
                            resetAt: int, from: int)
    requires InTime(requests, from) && OneWindow(requests, key, windowMs) && max >= 1
    requires NeverEvicted(Store([], map[]), requests, key, maxKeys)
    ensures PassedIn(MemoryOutcomes(Store([], map[]), requests, key, maxKeys), max, resetAt) <= max
    ensures Passed(MemoryOutcomes(Store([], map[]), requests, key, maxKeys), TimesOf(requests, key), max, lo,
                   lo + windowMs) <= 2 * max - 1
  {
    hide InTime, NeverEvicted, OneWindow, IdealOutcomes, MemoryOutcomes, Admitted, PassedIn, Passed;
    MemoryFollowsTheIdeal(Store([], map[]), None, requests, key, maxKeys, from);
    AtMostMaxWithReset(None, requests, key, max, resetAt, from);
    PassedIsAdmitted(None, requests, key, max, lo, lo + windowMs);
    AtMostTwiceMax(None, requests, key, windowMs, max, lo, from);
  }

  /** The same over every run of the Redis script. */
  lemma RedisLimiterBounds(requests: seq<Request>, key: string, windowMs: nat, max: nat, lo: int, resetAt: int,
                           from: int)
    requires InTime(requests, from) && OneWindow(requests, key, windowMs) && max >= 1
    ensures PassedIn(RedisOutcomes(map[], requests, key), max, resetAt) <= max
    ensures Passed(RedisOutcomes(map[], requests, key), TimesOf(requests, key), max, lo, lo + windowMs) <= 2 * max - 1
  {
    hide InTime, OneWindow, IdealOutcomes, RedisOutcomes, Admitted, PassedIn, Passed;
    RedisFollowsTheIdeal(map[], None, requests, key, from);
    AtMostMaxWithReset(None, requests, key, max, resetAt, from);
    PassedIsAdmitted(None, requests, key, max, lo, lo + windowMs);
    AtMostTwiceMax(None, requests, key, windowMs, max, lo, from);
  }

  ghost predicate AreOn(requests: seq<Request>, key: string, windowMs: nat) {
    forall i | 0 <= i < |requests| :: requests[i].key == key && requests[i].windowMs == windowMs
  }

  lemma OnlyKeyStep(s: Store, key: string, e: Entry, now: int, maxKeys: nat)
    requires IsStore(s) && (s.order == [] || s.order == [key]) && maxKeys >= 1
    ensures var t := Set(s, key, e); IsStore(t) && t.order == [key] && Prune(t, now, maxKeys) == t
  {
    SetIsStore(s, key, e);
  }

  /** The only key of a store that holds at least one is never evicted. */
  lemma {:induction false} OnlyKeyStays(s: Store, requests: seq<Request>, key: string, windowMs: nat, maxKeys: nat)
    requires IsStore(s) && (s.order == [] || s.order == [key]) && AreOn(requests, key, windowMs) && maxKeys >= 1
    ensures NeverEvicted(s, requests, key, maxKeys)
    decreases |requests|
  {
    if requests != [] {
      var q := requests[0];
      OnlyKeyStep(s, key, Next(Lookup(s, key), q.windowMs, q.now), q.now, maxKeys);
      hide Next, Prune, Set, Lookup, IsStore;
      OnlyKeyStays(Consumed(s, key, q.windowMs, q.now, maxKeys), requests[1..], key, windowMs, maxKeys);
    }
  }

  lemma BurstIsInTime(key: string, windowMs: nat, max: nat)
    requires max >= 1 && windowMs >= 2
    ensures InTime(Burst(key, windowMs, max), 0) && AreOn(Burst(key, windowMs, max), key, windowMs)
  {
    hide Copies;
    var late, after := Request(key, windowMs, windowMs - 1), Request(key, windowMs, windowMs);
    var burst := Burst(key, windowMs, max);
    assert forall i | 0 <= i < |burst| ::
      burst[i] == if i == 0 then Request(key, windowMs, 0) else if i < max then late else after;
  }

  /** Both stores let the burst reach the bound of twice `max` less one within an interval as long as the window. */
  lemma TwiceMaxLessOneIsReached(key: string, windowMs: nat, max: nat, maxKeys: nat)
    requires max >= 1 && windowMs >= 2 && maxKeys >= 1
    ensures var requests := Burst(key, windowMs, max);
      && InTime(requests, 0) && OneWindow(requests, key, windowMs)
         && NeverEvicted(Store([], map[]), requests, key, maxKeys)
      && Passed(MemoryOutcomes(Store([], map[]), requests, key, maxKeys), TimesOf(requests, key), max, 1, 1 + windowMs)
         == 2 * max - 1
      && Passed(RedisOutcomes(map[], requests, key), TimesOf(requests, key), max, 1, 1 + windowMs) == 2 * max - 1
  {
    var requests := Burst(key, windowMs, max);
    BurstIsInTime(key, windowMs, max);
    hide Burst, InTime, IdealOutcomes, MemoryOutcomes, RedisOutcomes, NeverEvicted, Passed, Admitted;
    OnlyKeyStays(Store([], map[]), requests, key, windowMs, maxKeys);
    MemoryFollowsTheIdeal(Store([], map[]), None, requests, key, maxKeys, 0);
    RedisFollowsTheIdeal(map[], None, requests, key, 0);
    PassedIsAdmitted(None, requests, key, max, 1, 1 + windowMs);
    BurstIsAdmitted(key, windowMs, max);
  }

  // ---------------------------------------------------------------------------------- the middleware

  datatype Headers = Headers(limit: nat, remaining: nat, resetSeconds: int)

  datatype Decision = Pass(headers: Headers) | TooManyRequests(headers: Headers, retryAfter: int) | Unavailable

  function CeilSeconds(ms: int): int {
    -((-ms) / 1000)
  }

  function RetryAfterSeconds(resetAt: int, now: int): int {
    var seconds := CeilSeconds(resetAt - now);
    if seconds < 1 then 1 else seconds
  }

  /** The answer to one request; a failing store gives no outcome. */
  function Decide(outcome: Option<Outcome>, max: nat, now: int): Decision {
    match outcome
    case None => Unavailable
    case Some(o) =>
      var retryAfter := RetryAfterSeconds(o.resetAt, now);
      var headers := Headers(max, if o.count < max then max - o.count else 0, retryAfter);
      if o.count > max then TooManyRequests(headers, retryAfter) else Pass(headers)
  }

  /** Whoever waits as long as told finds a new window; one second less does not do unless it is the only one. */
  lemma RetryAfterIsExact(e: Entry, windowMs: nat, max: nat, now: int, later: int)
    requires max >= 1 && windowMs >= 1 && !IsExpired(e, now)
    ensures var wait := RetryAfterSeconds(e.resetAt, now);
      && (later >= now + 1000 * wait ==>
            var next := Next(Some(e), windowMs, later);
            next.count == 1 && Decide(Some(Outcome(next.count, next.resetAt)), max, later).Pass?)
      && (later == now + 1000 * (wait - 1) ==> !IsExpired(e, later))
  {
  }

  /** The wait told is the fewest whole seconds, but one at least, after which the window has ended. */
  lemma WaitIsFewestSeconds(resetAt: int, now: int, seconds: int)
    requires seconds >= 1
    ensures RetryAfterSeconds(resetAt, now) >= 1
    ensures RetryAfterSeconds(resetAt, now) <= seconds <==> resetAt <= now + 1000 * seconds
  {
  }

  /** A request is refused exactly when its window has already admitted `max`; the header tells how many are left. */
  lemma RefusedExactlyWhenFull(e: Option<Entry>, windowMs: nat, max: nat, now: int)
    requires max >= 1 && windowMs >= 1 && (e.Some? ==> e.value.count >= 1)
    ensures var next := Next(e, windowMs, now);
      var d := Decide(Some(Outcome(next.count, next.resetAt)), max, now);
      var used := if Running(e, now).Some? then e.value.count else 0;
      && (d.TooManyRequests? <==> used >= max)
      && (d.Pass? ==> d.headers.remaining == max - used - 1)
      && (d.TooManyRequests? ==> d.headers.remaining == 0 && d.retryAfter == d.headers.resetSeconds)
      && !d.Unavailable? && d.headers.limit == max && d.headers.resetSeconds == RetryAfterSeconds(next.resetAt, now)
      && next.resetAt > now
    ensures Decide(None, max, now) == Unavailable
  {
  }
}
