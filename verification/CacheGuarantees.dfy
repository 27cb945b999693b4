/**
  What the cache protocol guarantees over every interleaving: values are never older than the last
  invalidation (exactly when the store tells namespaces apart), they come from a loader for the same
  request, leases exclude each other, and each instance has one in-flight promise per key.
 */
module CacheGuarantees {
  import opened Options
  import opened Texts
  import CacheKeys
  import opened CacheStore
  import opened CacheProtocol

  // ------------------------------------------------------------------- freshness, and where it fails

  ghost function Last(r: Run): World
    requires |r.worlds| > 0
  {
    r.worlds[|r.worlds| - 1]
  }

  lemma Extend(cfg: Config, r: Run, a: Action) returns (r': Run)
    requires IsRun(cfg, r) && Enabled(cfg, Last(r), a)
    ensures IsRun(cfg, r') && Last(r') == Next(cfg, Last(r), a)
    ensures r' == Run(r.worlds + [Next(cfg, Last(r), a)], r.actions + [a])
  {
    r' := Run(r.worlds + [Next(cfg, Last(r), a)], r.actions + [a]);
    forall i | 0 <= i < |r'.actions|
      ensures IsStep(cfg, r', i)
    {
      if i < |r.actions| {
        assert IsStep(cfg, r, i);
      }
    }
  }

  /** One instance misses, loads and stores a value for the namespace spelled `s`. */
  lemma FillRun(cfg: Config, e: nat, s: string) returns (r: Run)
    requires e < |cfg.instances| && cfg.instances[e].enabled
    requires s in cfg.spellings && cfg.norm(s).Some?
    ensures IsRun(cfg, r) && |r.actions| == 8
    ensures var key := Key(cfg.norm(s).value, 0, "");
      && key in Last(r).store.entries && Last(r).store.entries[key] == Entry(Good(5), 1)
      && Last(r).store.versions == map[] && Last(r).now == 0
      && |Last(r).calls| == 1 && |Last(r).promises| == 1 && Last(r).step == 8
      && |Last(r).inFlight| == |cfg.instances|
  {
    var key := Key(cfg.norm(s).value, 0, "");
    r := Run([Initial(cfg)], []);
    r := Extend(cfg, r, StartGet(e, s, ""));
    assert Last(r).calls == [Call(e, s, "", 0, Starting)];
    r := Extend(cfg, r, ReadVersion(0, Replied));
    assert Last(r).calls == [Call(e, s, "", 0, Versioned(0))];
    r := Extend(cfg, r, ReadCached(0, Replied));
    assert Last(r).calls == [Call(e, s, "", 0, Missed(key))];
    r := Extend(cfg, r, JoinOrCreate(0));
    assert Last(r).promises == [Promise(e, key, 0, 0, Acquiring)];
    r := Extend(cfg, r, TryLock(0, Replied));
    assert Last(r).promises[0].state == Granted;
    r := Extend(cfg, r, StartLockedLoad(0));
    assert Last(r).promises[0].state == LoadingLocked(5);
    r := Extend(cfg, r, EndLockedLoad(0, true, false));
    assert Last(r).promises[0].state == Storing(5);
    r := Extend(cfg, r, StoreValue(0, 1, Replied));
  }

  /** Invalidating under one spelling leaves a call under the other with the old value. */
  lemma StaleRun(cfg: Config, e: nat, s: string, t: string) returns (r: Run)
    requires e < |cfg.instances| && cfg.instances[e].enabled && cfg.mode.MemoryMode?
    requires s in cfg.spellings && t in cfg.spellings && s != t
    requires cfg.norm(s).Some? && cfg.norm(s) == cfg.norm(t)
    ensures AnswersAfterInvalidation(cfg, r, 8, 9, 12, 5)
  {
    r := FillRun(cfg, e, s);
    r := Extend(cfg, r, Invalidate(e, t, Replied));
    assert VersionOf(Last(r).store, s) == 0;
    r := Extend(cfg, r, StartGet(e, s, ""));
    assert Last(r).calls[1] == Call(e, s, "", 9, Starting);
    r := Extend(cfg, r, ReadVersion(1, Replied));
    assert Last(r).calls[1] == Call(e, s, "", 9, Versioned(0));
    r := Extend(cfg, r, ReadCached(1, Replied));
    assert Last(r).calls[1].state == Finished(Returned(5));
  }

  /**
    Freshness over every interleaving holds exactly when no two spellings of one namespace are counted
    apart: always with Redis, and with the memory store just when the spellings in use normalise apart.
   */
  lemma FreshExactlyWhenSeparated(cfg: Config)
    requires exists e :: 0 <= e < |cfg.instances| && cfg.instances[e].enabled
    ensures NeverStale(cfg) <==> Separates(cfg)
  {
    if Separates(cfg) {
      forall r, i, j, k, b | AnswersAfterInvalidation(cfg, r, i, j, k, b)
        ensures i < b
      {
        AnswerIsFresh(cfg, r, i, j, k, b);
      }
    } else {
      var e :| 0 <= e < |cfg.instances| && cfg.instances[e].enabled;
      var s, t :| s in cfg.spellings && t in cfg.spellings && cfg.norm(s).Some? && cfg.norm(s) == cfg.norm(t) && s != t;
      var r := StaleRun(cfg, e, s, t);
    }
  }

  /** The source's own normalisation makes such spellings: capitals count apart in the memory store. */
  lemma CapitalsCountApart(cfg: Config)
    requires cfg.mode.MemoryMode? && forall s :: cfg.norm(s) == CacheKeys.NormalizeNamespace(s)
    requires exists e :: 0 <= e < |cfg.instances| && cfg.instances[e].enabled
    requires "users" in cfg.spellings && "Users" in cfg.spellings
    ensures CacheKeys.NormalizeNamespace("users") == CacheKeys.NormalizeNamespace("Users") == Some("users")
    ensures !NeverStale(cfg)
  {
    hide NeverStale;
    CapitalsAreLowered();
    hide CacheKeys.NormalizeNamespace;
    FreshExactlyWhenSeparated(cfg);
    assert cfg.norm("users") == cfg.norm("Users") == Some("users") && "users" != "Users";
  }

  lemma CapitalsAreLowered()
    ensures CacheKeys.NormalizeNamespace("users") == CacheKeys.NormalizeNamespace("Users") == Some("users")
  {
    TrimmedStays("users");
    TrimmedStays("Users");
    assert Lower("users") == "users" && Lower("Users") == "users";
    hide Lower, Trim;
  }

  /**
    A returned value was produced either by the call's own loader, or by a loader a promise ran for the
    same normalised namespace and the same parts.
   */
  lemma AnswersMatchTheRequest(cfg: Config, r: Run, k: nat, c: nat)
    requires IsRun(cfg, r) && k < |r.worlds| && c < |r.worlds[k].calls|
    requires r.worlds[k].calls[c].state.Finished? && r.worlds[k].calls[c].state.outcome.Returned?
    ensures var call := r.worlds[k].calls[c];
      var b := call.state.outcome.bornAt;
      && b < k
      && (|| (call.startedAt <= b && r.actions[b] == StartOwnLoad(c))
          || (cfg.norm(call.spelling).Some?
              && exists version: nat :: LoadsFor(r, b, Key(cfg.norm(call.spelling).value, version, call.parts))))
  {
    FreshAlways(cfg, r, k);
    var call := r.worlds[k].calls[c];
    var b := call.state.outcome.bornAt;
    assert CallFresh(cfg, r, k, c, call) && Answers(cfg, r, k, c, call, b);
    if !(call.startedAt <= b && r.actions[b] == StartOwnLoad(c)) {
      var key :| KeyFor(cfg, r, call, key) && FreshFor(cfg, r, k, b, key);
      assert LoadsFor(r, b, Key(cfg.norm(call.spelling).value, key.version, call.parts));
    }
  }

  // --------------------------------------------------------------------------- leases and coalescing

  /** In `loadAndStore`, from the granted lease to its release. */
  predicate HoldsLease(s: PromiseState) {
    s.Granted? || s.LoadingLocked? || s.Storing? || s.Releasing?
  }

  function LeaseEnd(cfg: Config, p: Promise): int
    requires p.inst < |cfg.instances|
  {
    p.grantedAt + cfg.instances[p.inst].lockTtlMs
  }

  ghost predicate InstancesKnown(cfg: Config, w: World) {
    && |w.inFlight| == |cfg.instances|
    && (forall c | 0 <= c < |w.calls| :: w.calls[c].inst < |cfg.instances|)
    && (forall p | 0 <= p < |w.promises| :: w.promises[p].inst < |cfg.instances|)
  }

  /** While a lease has not run out, the store's lock for the key is that lease. */
  ghost predicate LeaseRecorded(cfg: Config, w: World, p: nat)
    requires InstancesKnown(cfg, w) && p < |w.promises|
  {
    HoldsLease(w.promises[p].state) ==>
      && w.promises[p].grantedAt <= w.now && w.promises[p].grantStep < w.step
      && (|| LeaseEnd(cfg, w.promises[p]) <= w.now
          || (w.promises[p].key in w.store.locks
              && w.store.locks[w.promises[p].key] == Lease(p, LeaseEnd(cfg, w.promises[p]))))
  }

  /** Of two holders of one key, the later was granted only after the earlier's lease had run out. */
  ghost predicate LeasesApart(cfg: Config, w: World, p: nat, q: nat)
    requires InstancesKnown(cfg, w) && p < |w.promises| && q < |w.promises|
  {
    p != q && HoldsLease(w.promises[p].state) && HoldsLease(w.promises[q].state)
      && w.promises[p].key == w.promises[q].key ==>
      && w.promises[p].grantStep != w.promises[q].grantStep
      && (w.promises[p].grantStep < w.promises[q].grantStep ==> LeaseEnd(cfg, w.promises[p]) <= w.promises[q].grantedAt)
  }

  /** An instance's in-flight table lists exactly its unsettled promises, each under its own key. */
  ghost predicate InFlightExact(w: World) {
    && (forall i, key | 0 <= i < |w.inFlight| && key in w.inFlight[i] ::
          && w.inFlight[i][key] < |w.promises|
          && w.promises[w.inFlight[i][key]].inst == i
          && w.promises[w.inFlight[i][key]].key == key
          && !w.promises[w.inFlight[i][key]].state.Settled?)
    && (forall p | 0 <= p < |w.promises| && !w.promises[p].state.Settled? ::
          && w.promises[p].inst < |w.inFlight|
          && w.promises[p].key in w.inFlight[w.promises[p].inst]
          && w.inFlight[w.promises[p].inst][w.promises[p].key] == p)
  }

  ghost predicate Orderly(cfg: Config, w: World) {
    && InstancesKnown(cfg, w)
    && InFlightExact(w)
    && (forall p | 0 <= p < |w.promises| :: LeaseRecorded(cfg, w, p))
    && (forall p, q | 0 <= p < |w.promises| && 0 <= q < |w.promises| :: LeasesApart(cfg, w, p, q))
  }

  /** A step changes locks only by taking or releasing one, and leases only by taking one. */
  ghost predicate LeaseEffects(cfg: Config, w: World, a: Action, w': World) {
    && w.now <= w'.now && w.step < w'.step && |w.promises| <= |w'.promises|
    && (forall p | 0 <= p < |w.promises| ::
          && w'.promises[p].key == w.promises[p].key && w'.promises[p].inst == w.promises[p].inst
          && (HoldsLease(w'.promises[p].state) && a != TryLock(p, Replied) ==>
                && HoldsLease(w.promises[p].state)
                && w'.promises[p].grantedAt == w.promises[p].grantedAt
                && w'.promises[p].grantStep == w.promises[p].grantStep))
    && (forall p | |w.promises| <= p < |w'.promises| :: !HoldsLease(w'.promises[p].state))
    && (|| w'.store.locks == w.store.locks
        || (&& a.TryLock? && a.p < |w.promises| && w.promises[a.p].inst < |cfg.instances|
            && LockIsFree(w.store, w.promises[a.p].key, w.now)
            && w'.store.locks == w.store.locks[w.promises[a.p].key :=
                 Lease(a.p, w.now + cfg.instances[w.promises[a.p].inst].lockTtlMs)])
        || (&& a.Unlock? && a.p < |w.promises| && !HoldsLease(w'.promises[a.p].state)
            && w.promises[a.p].key in w.store.locks && w.store.locks[w.promises[a.p].key].token == a.p
            && w'.store.locks == w.store.locks - {w.promises[a.p].key}))
    && (a.TryLock? && a.reply.Replied? && a.p < |w.promises| && HoldsLease(w'.promises[a.p].state) ==>
          && LockIsFree(w.store, w.promises[a.p].key, w.now)
          && w'.promises[a.p].grantedAt == w.now == w'.now && w'.promises[a.p].grantStep == w.step
          && w.promises[a.p].key in w'.store.locks && w.promises[a.p].inst < |cfg.instances|
          && w'.store.locks[w.promises[a.p].key] == Lease(a.p, w.now + cfg.instances[w.promises[a.p].inst].lockTtlMs))
  }

  lemma CallEffects(cfg: Config, w: World, a: Action)
    requires Enabled(cfg, w, a) && !IsPromiseAction(a)
    ensures LeaseEffects(cfg, w, a, Next(cfg, w, a))
  {
  }

  lemma LockEffects(cfg: Config, w: World, a: Action)
    requires Enabled(cfg, w, a) && a.TryLock?
    ensures LeaseEffects(cfg, w, a, Next(cfg, w, a))
  {
  }

  lemma PromiseEffects(cfg: Config, w: World, a: Action)
    requires Enabled(cfg, w, a) && IsPromiseAction(a)
    ensures LeaseEffects(cfg, w, a, Next(cfg, w, a))
  {
    if a.TryLock? {
      LockEffects(cfg, w, a);
    } else if a.Unlock? || a.StoreValue? {
      StoreEffects(cfg, w, a);
    }
  }

  lemma StoreEffects(cfg: Config, w: World, a: Action)
    requires Enabled(cfg, w, a) && (a.Unlock? || a.StoreValue?)
    ensures LeaseEffects(cfg, w, a, Next(cfg, w, a))
  {
  }

  lemma LeaseStep(cfg: Config, w: World, a: Action, w': World, p: nat)
    requires Orderly(cfg, w) && LeaseEffects(cfg, w, a, w')
    requires InstancesKnown(cfg, w') && p < |w'.promises|
    ensures LeaseRecorded(cfg, w', p)
  {
    if p < |w.promises| {
      assert LeaseRecorded(cfg, w, p);
    }
  }

  lemma ApartStep(cfg: Config, w: World, a: Action, w': World, p: nat, q: nat)
    requires Orderly(cfg, w) && LeaseEffects(cfg, w, a, w') && InstancesKnown(cfg, w')
    requires p < |w'.promises| && q < |w'.promises|
    ensures LeasesApart(cfg, w', p, q)
  {
    if p < |w.promises| && q < |w.promises| {
      assert LeaseRecorded(cfg, w, p) && LeaseRecorded(cfg, w, q);
      assert LeasesApart(cfg, w, p, q);
    }
  }

  /** Apart from creating and settling a promise, a step leaves the in-flight tables alone. */
  lemma InFlightUnchanged(cfg: Config, w: World, a: Action)
    requires Enabled(cfg, w, a) && !a.JoinOrCreate? && !a.Settle?
    ensures var w' := Next(cfg, w, a);
      && w'.inFlight == w.inFlight && |w'.promises| == |w.promises|
      && (forall p | 0 <= p < |w.promises| ::
            && w'.promises[p].key == w.promises[p].key && w'.promises[p].inst == w.promises[p].inst
            && w'.promises[p].state.Settled? == w.promises[p].state.Settled?)
  {
  }

  lemma JoinKeepsInFlight(cfg: Config, w: World, a: Action)
    requires Enabled(cfg, w, a) && a.JoinOrCreate? && InstancesKnown(cfg, w) && InFlightExact(w)
    ensures InFlightExact(Next(cfg, w, a))
  {
    var key, inst, w' := w.calls[a.c].state.key, w.calls[a.c].inst, Next(cfg, w, a);
    if key !in w.inFlight[inst] {
      assert w'.inFlight[inst] == w.inFlight[inst][key := |w.promises|];
      assert w'.promises == w.promises + [Promise(inst, key, 0, 0, Acquiring)];
    }
  }

  lemma SettleKeepsInFlight(cfg: Config, w: World, a: Action)
    requires Enabled(cfg, w, a) && a.Settle? && InstancesKnown(cfg, w) && InFlightExact(w)
    ensures InFlightExact(Next(cfg, w, a))
  {
    var inst, w' := w.promises[a.p].inst, Next(cfg, w, a);
    assert w'.inFlight == w.inFlight[inst := w.inFlight[inst] - {w.promises[a.p].key}];
    assert w'.promises == w.promises[a.p := w.promises[a.p].(state := w'.promises[a.p].state)];
  }

  lemma KnownStep(cfg: Config, w: World, a: Action)
    requires Enabled(cfg, w, a) && InstancesKnown(cfg, w)
    ensures InstancesKnown(cfg, Next(cfg, w, a))
  {
    if IsPromiseAction(a) {
      hide CallStep;
    } else {
      hide PromiseStep;
    }
  }

  lemma InFlightStep(cfg: Config, w: World, a: Action)
    requires Enabled(cfg, w, a) && InstancesKnown(cfg, w) && InFlightExact(w)
    ensures InFlightExact(Next(cfg, w, a))
  {
    if a.JoinOrCreate? {
      JoinKeepsInFlight(cfg, w, a);
    } else if a.Settle? {
      SettleKeepsInFlight(cfg, w, a);
    } else {
      InFlightUnchanged(cfg, w, a);
    }
  }

  lemma {:induction false} OrderlyAlways(cfg: Config, r: Run, n: nat)
    requires IsRun(cfg, r) && n < |r.worlds|
    ensures Orderly(cfg, r.worlds[n])
  {
    if n > 0 {
      OrderlyAlways(cfg, r, n - 1);
      assert IsStep(cfg, r, n - 1);
      var w, a := r.worlds[n - 1], r.actions[n - 1];
      KnownStep(cfg, w, a);
      InFlightStep(cfg, w, a);
      if IsPromiseAction(a) {
        PromiseEffects(cfg, w, a);
      } else {
        CallEffects(cfg, w, a);
      }
      forall p: nat | p < |r.worlds[n].promises|
        ensures LeaseRecorded(cfg, r.worlds[n], p)
      {
        LeaseStep(cfg, w, a, r.worlds[n], p);
      }
      forall p: nat, q: nat | p < |r.worlds[n].promises| && q < |r.worlds[n].promises|
        ensures LeasesApart(cfg, r.worlds[n], p, q)
      {
        ApartStep(cfg, w, a, r.worlds[n], p, q);
      }
    }
  }

  /**
    Lease safety: two promises, of any instances, are inside `loadAndStore` for one key together only if
    the earlier outran its lease before the later was granted one; so at most one lease is unexpired.
   */
  lemma OverlapOnlyAfterLeaseEnd(cfg: Config, r: Run, n: nat, p: nat, q: nat)
    requires IsRun(cfg, r) && n < |r.worlds|
    requires p < |r.worlds[n].promises| && q < |r.worlds[n].promises| && p != q
    requires r.worlds[n].promises[p].key == r.worlds[n].promises[q].key
    requires HoldsLease(r.worlds[n].promises[p].state) && HoldsLease(r.worlds[n].promises[q].state)
    ensures InstancesKnown(cfg, r.worlds[n])
    ensures var w := r.worlds[n];
      || w.promises[p].grantedAt + cfg.instances[w.promises[p].inst].lockTtlMs <= w.promises[q].grantedAt <= w.now
      || w.promises[q].grantedAt + cfg.instances[w.promises[q].inst].lockTtlMs <= w.promises[p].grantedAt <= w.now
  {
    OrderlyAlways(cfg, r, n);
    assert LeasesApart(cfg, r.worlds[n], p, q) && LeasesApart(cfg, r.worlds[n], q, p);
    assert LeaseRecorded(cfg, r.worlds[n], p) && LeaseRecorded(cfg, r.worlds[n], q);
  }

  /** A lock that disappears or changes hands before its expiry was released by its own holder. */
  lemma LockLostOnlyByOwner(cfg: Config, r: Run, n: nat, key: Key)
    requires IsRun(cfg, r) && n < |r.actions|
    requires key in r.worlds[n].store.locks && r.worlds[n].now < r.worlds[n].store.locks[key].expiresAt
    requires key !in r.worlds[n + 1].store.locks || r.worlds[n + 1].store.locks[key] != r.worlds[n].store.locks[key]
    ensures r.actions[n].Unlock? && r.actions[n].p == r.worlds[n].store.locks[key].token
    ensures key !in r.worlds[n + 1].store.locks
  {
    assert IsStep(cfg, r, n);
  }

  /** Each instance has at most one unsettled promise per key, and lists it until the very step it settles. */
  lemma OnePromisePerKey(cfg: Config, r: Run, n: nat, p: nat)
    requires IsRun(cfg, r) && n < |r.worlds| && p < |r.worlds[n].promises|
    ensures var w := r.worlds[n]; var promise := w.promises[p];
      && promise.inst < |w.inFlight|
      && (!promise.state.Settled? <==>
            promise.key in w.inFlight[promise.inst] && w.inFlight[promise.inst][promise.key] == p)
      && forall q | 0 <= q < |w.promises| && q != p && w.promises[q].inst == promise.inst
                    && w.promises[q].key == promise.key && !promise.state.Settled? :: w.promises[q].state.Settled?
  {
    OrderlyAlways(cfg, r, n);
  }
}
