/**
  How calls of the read-through cache end (src/system/application-cache.js:307-381): a call throws exactly when a
  loader it depends on failed, whatever replies the store loses, and returns what that loader returned otherwise.
  Everything is told from the actions of the run alone.
 */
module CacheOutcomes {
  import opened Options
  import opened CacheStore
  import opened CacheProtocol

  // ------------------------------------------------------------------------- what happened in a run

  /** The actions before world `n`. */
  ghost function Past(r: Run, n: nat): seq<Action>
    requires n < |r.worlds| == |r.actions| + 1
  {
    r.actions[..n]
  }

  /** Call `c` found the promise `p` in flight, or created it. */
  ghost predicate Joins(r: Run, n: nat, c: nat, p: nat)
    requires n < |r.worlds| == |r.actions| + 1
  {
    exists i | 0 <= i < n ::
      && r.actions[i] == JoinOrCreate(c) && c < |r.worlds[i + 1].calls| && r.worlds[i + 1].calls[c].state == Joined(p)
  }

  /** The loader that promise `p` ran has failed. */
  ghost predicate LoadFailed(r: Run, n: nat, p: nat)
    requires n < |r.worlds| == |r.actions| + 1
  {
    || EndDirectLoad(p, false) in Past(r, n)
    || EndLockedLoad(p, false, false) in Past(r, n) || EndLockedLoad(p, false, true) in Past(r, n)
  }

  /** The loader run that promise `p` began at step `b` has succeeded. */
  ghost predicate LoadSucceeded(r: Run, n: nat, p: nat, b: nat)
    requires n < |r.worlds| == |r.actions| + 1
  {
    && b < n
    && (|| (r.actions[b] == StartDirectLoad(p) && EndDirectLoad(p, true) in Past(r, n))
        || (r.actions[b] == StartLockedLoad(p)
            && (EndLockedLoad(p, true, false) in Past(r, n) || EndLockedLoad(p, true, true) in Past(r, n))))
  }

  /** At step `i` the action `a` reads the value loaded at `b`, unexpired, from the entry of `key`. */
  ghost predicate Hits(r: Run, n: nat, i: nat, a: Action, key: Key, b: nat)
    requires n < |r.worlds| == |r.actions| + 1
  {
    && i < n && r.actions[i] == a
    && key in r.worlds[i].store.entries && r.worlds[i].store.entries[key].raw == Good(b)
    && r.worlds[i].now < r.worlds[i].store.entries[key].expiresAt
  }

  /** The outcome that a promise past its loader will settle with. */
  function Destined(s: PromiseState): Option<Outcome> {
    match s
    case Storing(b) => Some(Returned(b))
    case Releasing(o) => Some(o)
    case Settling(o) => Some(o)
    case Settled(o) => Some(o)
    case _ => None
  }

  // --------------------------------------------------------------------------------------- promises

  /** While waiting, promise `p` read the value loaded at `b` from the entry of its key. */
  ghost predicate HasRead(r: Run, n: nat, p: nat, b: nat)
    requires n < |r.worlds| == |r.actions| + 1 && p < |r.worlds[n].promises|
  {
    exists i :: Hits(r, n, i, ReadWaiting(p, Replied), r.worlds[n].promises[p].key, b)
  }

  ghost predicate PromiseTold(r: Run, n: nat, p: nat)
    requires n < |r.worlds| == |r.actions| + 1 && p < |r.worlds[n].promises|
  {
    var state := r.worlds[n].promises[p].state;
    && (state.LoadingDirect? ==> state.bornAt < n && r.actions[state.bornAt] == StartDirectLoad(p))
    && (state.LoadingLocked? ==> state.bornAt < n && r.actions[state.bornAt] == StartLockedLoad(p))
    && (Destined(state) == Some(Rejected) <==> LoadFailed(r, n, p))
    && (Destined(state).Some? && Destined(state).value.Returned? ==>
          var b := Destined(state).value.bornAt;
          LoadSucceeded(r, n, p, b) || HasRead(r, n, p, b))
  }

  /** A promise that has its outcome keeps it. */
  lemma DestinyStep(cfg: Config, w: World, a: Action, p: nat)
    requires Enabled(cfg, w, a) && p < |w.promises|
    ensures p < |Next(cfg, w, a).promises|
    ensures Destined(w.promises[p].state).Some? ==>
      Destined(Next(cfg, w, a).promises[p].state) == Destined(w.promises[p].state)
  {
  }

  lemma {:induction false} DestinyStays(cfg: Config, r: Run, i: nat, n: nat, p: nat)
    requires IsRun(cfg, r) && i <= n < |r.worlds| && p < |r.worlds[i].promises|
    requires Destined(r.worlds[i].promises[p].state).Some?
    ensures p < |r.worlds[n].promises|
    ensures Destined(r.worlds[n].promises[p].state) == Destined(r.worlds[i].promises[p].state)
    decreases n - i
  {
    if i < n {
      assert IsStep(cfg, r, i);
      DestinyStep(cfg, r.worlds[i], r.actions[i], p);
      hide Next;
      DestinyStays(cfg, r, i + 1, n, p);
    }
  }

  lemma PastGrows(r: Run, n: nat)
    requires n < |r.actions| && |r.worlds| == |r.actions| + 1
    ensures Past(r, n + 1) == Past(r, n) + [r.actions[n]]
  {
  }

  lemma OnlyKnownPromisesFail(cfg: Config, r: Run, n: nat, p: nat)
    requires IsRun(cfg, r) && n < |r.worlds| && LoadFailed(r, n, p)
    ensures p < |r.worlds[n].promises|
  {
    var i: nat :| i < n && (|| r.actions[i] == EndDirectLoad(p, false) || r.actions[i] == EndLockedLoad(p, false, false)
                            || r.actions[i] == EndLockedLoad(p, false, true));
    assert IsStep(cfg, r, i);
    RunGrows(cfg, r, i, n, "");
  }

  lemma PromiseStays(cfg: Config, r: Run, n: nat, p: nat)
    requires IsRun(cfg, r) && n < |r.actions|
    requires p < |r.worlds[n].promises| <= |r.worlds[n + 1].promises| && PromiseTold(r, n, p)
    requires r.worlds[n + 1].promises[p] == r.worlds[n].promises[p]
    requires LoadFailed(r, n + 1, p) ==> LoadFailed(r, n, p)
    ensures PromiseTold(r, n + 1, p)
  {
    PastGrows(r, n);
    var state := r.worlds[n].promises[p].state;
    if Destined(state).Some? && Destined(state).value.Returned?
       && !LoadSucceeded(r, n, p, Destined(state).value.bornAt) {
      var key, b := r.worlds[n].promises[p].key, Destined(state).value.bornAt;
      var i :| Hits(r, n, i, ReadWaiting(p, Replied), key, b);
      assert Hits(r, n + 1, i, ReadWaiting(p, Replied), key, b);
    }
  }

  lemma StepsAreCounted(cfg: Config, r: Run, n: nat)
    requires IsRun(cfg, r) && n < |r.worlds|
    ensures r.worlds[n].step == n
  {
    FreshAlways(cfg, r, n);
  }

  /** Promise `p` takes step `n`. */
  ghost predicate PromiseTakes(cfg: Config, r: Run, n: nat, p: nat) {
    && IsRun(cfg, r) && n < |r.actions| && Past(r, n + 1) == Past(r, n) + [r.actions[n]]
    && r.worlds[n].step == n && p < |r.worlds[n].promises| <= |r.worlds[n + 1].promises|
    && PromiseTold(r, n, p) && IsPromiseAction(r.actions[n]) && r.actions[n].p == p
  }

  lemma OutcomeMoves(cfg: Config, r: Run, n: nat, p: nat, b: nat)
    requires PromiseTakes(cfg, r, n, p) && Destined(r.worlds[n + 1].promises[p].state) == Some(Returned(b))
    ensures LoadSucceeded(r, n + 1, p, b) || HasRead(r, n + 1, p, b)
  {
    assert IsStep(cfg, r, n);
    hide IsRun;
    var a, key, state := r.actions[n], r.worlds[n].promises[p].key, r.worlds[n].promises[p].state;
    assert key == r.worlds[n + 1].promises[p].key;
    if a.ReadWaiting? {
      assert Hits(r, n + 1, n, ReadWaiting(p, Replied), key, b);
    } else if a.EndDirectLoad? || a.EndLockedLoad? {
      assert LoadSucceeded(r, n + 1, p, b);
    } else {
      assert Destined(state) == Some(Returned(b));
      if !LoadSucceeded(r, n, p, b) {
        var i :| Hits(r, n, i, ReadWaiting(p, Replied), key, b);
        assert Hits(r, n + 1, i, ReadWaiting(p, Replied), key, b);
      }
    }
  }

  lemma PromiseMoves(cfg: Config, r: Run, n: nat, p: nat)
    requires IsRun(cfg, r) && n < |r.actions|
    requires p < |r.worlds[n].promises| && PromiseTold(r, n, p)
    requires IsPromiseAction(r.actions[n]) && r.actions[n].p == p
    ensures p < |r.worlds[n + 1].promises| && PromiseTold(r, n + 1, p)
  {
    assert IsStep(cfg, r, n);
    PastGrows(r, n);
    StepsAreCounted(cfg, r, n);
    StepGrows(cfg, r.worlds[n], r.actions[n]);
    var state' := r.worlds[n + 1].promises[p].state;
    assert PromiseTakes(cfg, r, n, p);
    hide PromiseTakes, IsRun;
    if Destined(state').Some? && Destined(state').value.Returned? {
      OutcomeMoves(cfg, r, n, p, Destined(state').value.bornAt);
    }
  }

  /** A step of a call, or of another promise, leaves a promise alone. */
  lemma OthersLeavePromise(cfg: Config, w: World, a: Action, p: nat)
    requires Enabled(cfg, w, a) && p < |w.promises| && (IsPromiseAction(a) ==> a.p != p)
    ensures p < |Next(cfg, w, a).promises| && Next(cfg, w, a).promises[p] == w.promises[p]
  {
  }

  lemma {:induction false} PromisesTold(cfg: Config, r: Run, n: nat, p: nat)
    requires IsRun(cfg, r) && n < |r.worlds| && p < |r.worlds[n].promises|
    ensures PromiseTold(r, n, p)
  {
    if n > 0 {
      var w, a := r.worlds[n - 1], r.actions[n - 1];
      assert IsStep(cfg, r, n - 1);
      StepGrows(cfg, w, a);
      PastGrows(r, n - 1);
      if p < |w.promises| {
        PromisesTold(cfg, r, n - 1, p);
        if IsPromiseAction(a) && a.p == p {
          PromiseMoves(cfg, r, n - 1, p);
        } else {
          OthersLeavePromise(cfg, w, a, p);
          PromiseStays(cfg, r, n - 1, p);
        }
      } else {
        assert a.JoinOrCreate? && r.worlds[n].promises[p].state == Acquiring;
        if LoadFailed(r, n, p) {
          assert LoadFailed(r, n - 1, p);
          OnlyKnownPromisesFail(cfg, r, n - 1, p);
          assert false;
        }
      }
    }
  }

  // ------------------------------------------------------------------------------------------ calls

  /** The outcome is that of the call's own loader. */
  ghost predicate OwnLoaded(r: Run, n: nat, c: nat, o: Outcome)
    requires n < |r.worlds| == |r.actions| + 1
  {
    match o
    case Rejected => EndOwnLoad(c, false) in Past(r, n)
    case Returned(b) => b < n && r.actions[b] == StartOwnLoad(c) && EndOwnLoad(c, true) in Past(r, n)
  }

  /** The outcome is that of a promise the call joined. */
  ghost predicate Delivered(r: Run, n: nat, c: nat, p: nat, o: Outcome)
    requires n < |r.worlds| == |r.actions| + 1
  {
    Joins(r, n, c, p) && p < |r.worlds[n].promises| && r.worlds[n].promises[p].state == Settled(o)
  }

  /** The outcome is a value found under a key for the call's own request. */
  ghost predicate Found(cfg: Config, r: Run, n: nat, c: nat, call: Call, i: nat, key: Key, o: Outcome)
    requires n < |r.worlds| == |r.actions| + 1
  {
    && o.Returned? && Hits(r, n, i, ReadCached(c, Replied), key, o.bornAt)
    && cfg.norm(call.spelling) == Some(key.ns) && key.parts == call.parts
  }

  ghost predicate IsAccountedFor(cfg: Config, r: Run, n: nat, c: nat, call: Call, o: Outcome)
    requires n < |r.worlds| == |r.actions| + 1
  {
    || OwnLoaded(r, n, c, o)
    || (exists p :: Delivered(r, n, c, p, o))
    || (exists i, key :: Found(cfg, r, n, c, call, i, key, o))
  }

  ghost predicate CallTold(cfg: Config, r: Run, n: nat, c: nat)
    requires n < |r.worlds| == |r.actions| + 1 && c < |r.worlds[n].calls|
  {
    var call := r.worlds[n].calls[c];
    && (forall ok | EndOwnLoad(c, ok) in Past(r, n) ::
          call.state.Finished? && call.state.outcome.Returned? == ok && OwnLoaded(r, n, c, call.state.outcome))
    && (forall p | Joins(r, n, c, p) ::
          call.state == Joined(p) || (call.state.Finished? && Delivered(r, n, c, p, call.state.outcome)))
    && (call.state.Joined? ==> Joins(r, n, c, call.state.promise))
    && (call.state.Finished? ==> IsAccountedFor(cfg, r, n, c, call, call.state.outcome))
  }

  /** The call that an action of a caller belongs to. */
  function CallerOf(a: Action): Option<nat> {
    match a
    case ReadVersion(c, _) => Some(c)
    case ReadCached(c, _) => Some(c)
    case PurgeCached(c, _) => Some(c)
    case JoinOrCreate(c) => Some(c)
    case StartOwnLoad(c) => Some(c)
    case EndOwnLoad(c, _) => Some(c)
    case Deliver(c) => Some(c)
    case _ => None
  }

  lemma OthersLeaveCall(cfg: Config, w: World, a: Action, c: nat)
    requires Enabled(cfg, w, a) && c < |w.calls| && CallerOf(a) != Some(c)
    ensures c < |Next(cfg, w, a).calls| && Next(cfg, w, a).calls[c] == w.calls[c]
  {
  }

  lemma OnlyKnownCallsAct(cfg: Config, r: Run, i: nat, n: nat)
    requires IsRun(cfg, r) && i < n < |r.worlds| && CallerOf(r.actions[i]).Some?
    ensures CallerOf(r.actions[i]).value < |r.worlds[n].calls|
  {
    assert IsStep(cfg, r, i);
    RunGrows(cfg, r, i, n, "");
  }

  lemma SettledStays(cfg: Config, r: Run, n: nat, p: nat)
    requires IsRun(cfg, r) && n < |r.actions| && p < |r.worlds[n].promises| && r.worlds[n].promises[p].state.Settled?
    ensures p < |r.worlds[n + 1].promises| && r.worlds[n + 1].promises[p] == r.worlds[n].promises[p]
  {
    assert IsStep(cfg, r, n);
    OthersLeavePromise(cfg, r.worlds[n], r.actions[n], p);
  }

  /** What an outcome is owed to stays so as the run goes on. */
  lemma OutcomeStays(cfg: Config, r: Run, n: nat, c: nat)
    requires IsRun(cfg, r) && n < |r.actions|
    requires c < |r.worlds[n].calls| && CallTold(cfg, r, n, c) && r.worlds[n].calls[c].state.Finished?
    ensures var call := r.worlds[n].calls[c];
      IsAccountedFor(cfg, r, n + 1, c, call, call.state.outcome)
  {
    PastGrows(r, n);
    var call := r.worlds[n].calls[c];
    var o := call.state.outcome;
    if OwnLoaded(r, n, c, o) {
      assert OwnLoaded(r, n + 1, c, o);
    } else if exists p :: Delivered(r, n, c, p, o) {
      var p :| Delivered(r, n, c, p, o);
      SettledStays(cfg, r, n, p);
      assert Joins(r, n + 1, c, p);
      assert Delivered(r, n + 1, c, p, o);
    } else {
      var i, key :| Found(cfg, r, n, c, call, i, key, o);
      assert Found(cfg, r, n + 1, c, call, i, key, o);
    }
  }

  lemma CallStays(cfg: Config, r: Run, n: nat, c: nat)
    requires IsRun(cfg, r) && n < |r.actions| && CallerOf(r.actions[n]) != Some(c)
    requires c < |r.worlds[n].calls| && CallTold(cfg, r, n, c)
    ensures c < |r.worlds[n + 1].calls| && CallTold(cfg, r, n + 1, c)
  {
    PastGrows(r, n);
    assert IsStep(cfg, r, n);
    OthersLeaveCall(cfg, r.worlds[n], r.actions[n], c);
    var call := r.worlds[n].calls[c];
    if call.state.Finished? {
      OutcomeStays(cfg, r, n, c);
    }
    forall p | Joins(r, n + 1, c, p)
      ensures call.state == Joined(p) || (call.state.Finished? && Delivered(r, n + 1, c, p, call.state.outcome))
    {
      assert Joins(r, n, c, p);
      if call.state != Joined(p) {
        SettledStays(cfg, r, n, p);
      }
    }
  }

  /** Call `c` takes step `n`; it had not ended, so no loader of its own has either. */
  ghost predicate CallTakes(cfg: Config, r: Run, n: nat, c: nat) {
    && IsRun(cfg, r) && n < |r.actions| && CallerOf(r.actions[n]) == Some(c)
    && c < |r.worlds[n].calls| <= |r.worlds[n + 1].calls| && CallTold(cfg, r, n, c)
    && Past(r, n + 1) == Past(r, n) + [r.actions[n]]
    && r.worlds[n].step == n
    && (forall ok | EndOwnLoad(c, ok) in Past(r, n + 1) :: r.actions[n] == EndOwnLoad(c, ok))
  }

  lemma JoinsBack(r: Run, n: nat, m: nat, c: nat)
    requires m == n + 1 < |r.worlds| == |r.actions| + 1 && r.actions[n] != JoinOrCreate(c)
    ensures forall p | Joins(r, m, c, p) :: Joins(r, n, c, p)
  {
  }

  lemma OwnLoadEnds(cfg: Config, r: Run, n: nat, c: nat)
    requires CallTakes(cfg, r, n, c) && r.actions[n].EndOwnLoad?
    ensures CallTold(cfg, r, n + 1, c)
  {
    FreshAlways(cfg, r, n);
    assert IsStep(cfg, r, n);
    var call := r.worlds[n].calls[c];
    assert CallFresh(cfg, r, n, c, call);
    hide IsRun, FreshAt, CallFresh;
    assert OwnLoaded(r, n + 1, c, r.worlds[n + 1].calls[c].state.outcome);
    JoinsBack(r, n, n + 1, c);
  }

  lemma Delivers(cfg: Config, r: Run, n: nat, c: nat)
    requires CallTakes(cfg, r, n, c) && r.actions[n].Deliver?
    ensures CallTold(cfg, r, n + 1, c)
  {
    assert IsStep(cfg, r, n);
    var p := r.worlds[n].calls[c].state.promise;
    SettledStays(cfg, r, n, p);
    hide IsRun;
    assert Joins(r, n, c, p) && Joins(r, n + 1, c, p);
    assert Delivered(r, n + 1, c, p, r.worlds[n + 1].calls[c].state.outcome);
    JoinsBack(r, n, n + 1, c);
  }

  lemma Reads(cfg: Config, r: Run, n: nat, c: nat)
    requires CallTakes(cfg, r, n, c) && r.actions[n].ReadCached?
    ensures CallTold(cfg, r, n + 1, c)
  {
    assert IsStep(cfg, r, n);
    var call, call' := r.worlds[n].calls[c], r.worlds[n + 1].calls[c];
    hide IsRun;
    if call'.state.Finished? {
      var key := Key(cfg.norm(call.spelling).value, call.state.version, call.parts);
      assert Hits(r, n + 1, n, ReadCached(c, Replied), key, call'.state.outcome.bornAt);
      assert Found(cfg, r, n + 1, c, call', n, key, call'.state.outcome);
    }
    JoinsBack(r, n, n + 1, c);
  }

  lemma GoesOn(cfg: Config, r: Run, n: nat, c: nat)
    requires CallTakes(cfg, r, n, c) && !r.actions[n].EndOwnLoad? && !r.actions[n].Deliver? && !r.actions[n].ReadCached?
    ensures CallTold(cfg, r, n + 1, c)
  {
    assert IsStep(cfg, r, n);
    var state' := r.worlds[n + 1].calls[c].state;
    hide IsRun;
    assert !state'.Finished? && (state'.Joined? ==> r.actions[n].JoinOrCreate?);
    if r.actions[n] != JoinOrCreate(c) {
      JoinsBack(r, n, n + 1, c);
    }
  }

  lemma {:induction false} CallsTold(cfg: Config, r: Run, n: nat, c: nat)
    requires IsRun(cfg, r) && n < |r.worlds| && c < |r.worlds[n].calls|
    ensures CallTold(cfg, r, n, c)
  {
    if n > 0 {
      var w, a := r.worlds[n - 1], r.actions[n - 1];
      assert IsStep(cfg, r, n - 1);
      StepGrows(cfg, w, a);
      PastGrows(r, n - 1);
      if c >= |w.calls| {
        NewCallTold(cfg, r, n - 1, c);
      } else {
        CallsTold(cfg, r, n - 1, c);
        if CallerOf(a) != Some(c) {
          CallStays(cfg, r, n - 1, c);
        } else {
          CallMoves(cfg, r, n - 1, c);
        }
      }
    }
  }

  lemma NewCallTold(cfg: Config, r: Run, n: nat, c: nat)
    requires IsRun(cfg, r) && n < |r.actions| && |r.worlds[n].calls| <= c < |r.worlds[n + 1].calls|
    ensures CallTold(cfg, r, n + 1, c)
  {
    assert IsStep(cfg, r, n);
    assert r.actions[n].StartGet? && !r.worlds[n + 1].calls[c].state.Finished?;
    forall i: nat | i < n + 1
      ensures CallerOf(r.actions[i]) != Some(c)
    {
      if i < n && CallerOf(r.actions[i]).Some? {
        OnlyKnownCallsAct(cfg, r, i, n);
      }
    }
    assert forall ok :: EndOwnLoad(c, ok) !in Past(r, n + 1);
  }

  lemma CallMoves(cfg: Config, r: Run, n: nat, c: nat)
    requires IsRun(cfg, r) && n < |r.actions| && CallerOf(r.actions[n]) == Some(c)
    requires c < |r.worlds[n].calls| && CallTold(cfg, r, n, c)
    ensures c < |r.worlds[n + 1].calls| && CallTold(cfg, r, n + 1, c)
  {
    PastGrows(r, n);
    StepsAreCounted(cfg, r, n);
    assert IsStep(cfg, r, n);
    var a := r.actions[n];
    assert !r.worlds[n].calls[c].state.Finished?;
    assert forall ok | EndOwnLoad(c, ok) in Past(r, n + 1) :: a == EndOwnLoad(c, ok);
    assert CallTakes(cfg, r, n, c);
    hide Enabled, Next, CallTold, CallTakes;
    if a.EndOwnLoad? {
      OwnLoadEnds(cfg, r, n, c);
    } else if a.Deliver? {
      Delivers(cfg, r, n, c);
    } else if a.ReadCached? {
      Reads(cfg, r, n, c);
    } else {
      GoesOn(cfg, r, n, c);
    }
  }

  // ---------------------------------------------------------------------------------- how calls end

  /**
    In every run, a finished call threw if and only if its own loader failed or it joined a promise whose loader
    failed.
   */
  lemma ThrowsExactlyWhenALoaderFailed(cfg: Config, r: Run, n: nat, c: nat)
    requires IsRun(cfg, r) && n < |r.worlds| && c < |r.worlds[n].calls| && r.worlds[n].calls[c].state.Finished?
    ensures r.worlds[n].calls[c].state.outcome == Rejected <==>
            EndOwnLoad(c, false) in Past(r, n) || exists p :: Joins(r, n, c, p) && LoadFailed(r, n, p)
  {
    CallsTold(cfg, r, n, c);
    var o := r.worlds[n].calls[c].state.outcome;
    forall p | Joins(r, n, c, p)
      ensures o == Rejected <==> LoadFailed(r, n, p)
    {
      assert Delivered(r, n, c, p, o);
      PromisesTold(cfg, r, n, p);
    }
    if o == Rejected && !OwnLoaded(r, n, c, o) {
      var p :| Delivered(r, n, c, p, o);
      assert Joins(r, n, c, p);
    }
  }

  /** However many replies the store loses, no call throws in a run in which no loader fails. */
  lemma LostRepliesNeverThrow(cfg: Config, r: Run, n: nat, c: nat)
    requires IsRun(cfg, r) && n < |r.worlds| && c < |r.worlds[n].calls|
    requires forall a | a in Past(r, n) :: !(a.EndOwnLoad? || a.EndDirectLoad? || a.EndLockedLoad?) || a.ok
    ensures r.worlds[n].calls[c].state != Finished(Rejected)
  {
    if r.worlds[n].calls[c].state == Finished(Rejected) {
      ThrowsExactlyWhenALoaderFailed(cfg, r, n, c);
    }
  }

  /** A call whose own loader has ended has ended with it: with that loader's value, or by throwing. */
  lemma OwnLoaderAnswers(cfg: Config, r: Run, n: nat, c: nat, ok: bool)
    requires IsRun(cfg, r) && n < |r.worlds| && EndOwnLoad(c, ok) in Past(r, n)
    ensures c < |r.worlds[n].calls|
    ensures if ok then exists b | 0 <= b < n ::
                         r.actions[b] == StartOwnLoad(c) && r.worlds[n].calls[c].state == Finished(Returned(b))
            else r.worlds[n].calls[c].state == Finished(Rejected)
  {
    var i: nat :| i < n && r.actions[i] == EndOwnLoad(c, ok);
    OnlyKnownCallsAct(cfg, r, i, n);
    CallsTold(cfg, r, n, c);
    assert OwnLoaded(r, n, c, r.worlds[n].calls[c].state.outcome);
  }

  lemma LoadEndsAt(cfg: Config, r: Run, i: nat, p: nat)
    requires IsRun(cfg, r) && i < |r.actions|
    requires (r.actions[i].EndDirectLoad? || r.actions[i].EndLockedLoad?) && r.actions[i].p == p
    ensures p < |r.worlds[i + 1].promises|
    ensures r.actions[i].ok ==>
      exists b | 0 <= b < i ::
        && Destined(r.worlds[i + 1].promises[p].state) == Some(Returned(b))
        && r.actions[b] == if r.actions[i].EndDirectLoad? then StartDirectLoad(p) else StartLockedLoad(p)
    ensures !r.actions[i].ok ==> Destined(r.worlds[i + 1].promises[p].state) == Some(Rejected)
  {
    assert IsStep(cfg, r, i);
    PromisesTold(cfg, r, i, p);
    DestinyStep(cfg, r.worlds[i], r.actions[i], p);
    if r.actions[i].ok {
      var b := r.worlds[i].promises[p].state.bornAt;
      assert Destined(r.worlds[i + 1].promises[p].state) == Some(Returned(b));
    }
  }

  /**
    From the end of a promise's loader on, the promise is destined to that loader's outcome, through storing the value
    and releasing the lock, whatever replies are lost; and every call that joined it ends with that outcome.
   */
  lemma PromisedLoaderAnswers(cfg: Config, r: Run, i: nat, n: nat, p: nat)
    requires IsRun(cfg, r) && i < n < |r.worlds|
    requires (r.actions[i].EndDirectLoad? || r.actions[i].EndLockedLoad?) && r.actions[i].p == p
    ensures p < |r.worlds[n].promises| && Destined(r.worlds[n].promises[p].state).Some?
    ensures var o := Destined(r.worlds[n].promises[p].state).value;
      && (if r.actions[i].ok then
            o.Returned? && o.bornAt < i
            && r.actions[o.bornAt] == if r.actions[i].EndDirectLoad? then StartDirectLoad(p) else StartLockedLoad(p)
          else o == Rejected)
      && forall c | 0 <= c < |r.worlds[n].calls| && r.worlds[n].calls[c].state.Finished? && Joins(r, n, c, p) ::
           r.worlds[n].calls[c].state == Finished(o)
  {
    LoadEndsAt(cfg, r, i, p);
    DestinyStays(cfg, r, i + 1, n, p);
    forall c | 0 <= c < |r.worlds[n].calls| && r.worlds[n].calls[c].state.Finished? && Joins(r, n, c, p)
      ensures r.worlds[n].calls[c].state == Finished(Destined(r.worlds[n].promises[p].state).value)
    {
      CallsTold(cfg, r, n, c);
    }
  }

  /**
    A returned value is that of the call's own successful loader, or that of the promise it joined (from the promise's
    own successful loader, or read unexpired from the entry of its key), or was read so by the call itself under a key
    for its own request.
   */
  lemma ReturnsWhatWasLoaded(cfg: Config, r: Run, n: nat, c: nat, b: nat)
    requires IsRun(cfg, r) && n < |r.worlds| && c < |r.worlds[n].calls|
    requires r.worlds[n].calls[c].state == Finished(Returned(b))
    ensures
      || (b < n && r.actions[b] == StartOwnLoad(c) && EndOwnLoad(c, true) in Past(r, n))
      || (exists p | 0 <= p < |r.worlds[n].promises| && Joins(r, n, c, p) ::
            || LoadSucceeded(r, n, p, b)
            || exists i :: Hits(r, n, i, ReadWaiting(p, Replied), r.worlds[n].promises[p].key, b))
      || (exists i, key :: Hits(r, n, i, ReadCached(c, Replied), key, b)
                           && cfg.norm(r.worlds[n].calls[c].spelling) == Some(key.ns)
                           && key.parts == r.worlds[n].calls[c].parts)
  {
    CallsTold(cfg, r, n, c);
    var call := r.worlds[n].calls[c];
    if exists p :: Delivered(r, n, c, p, Returned(b)) {
      var p :| Delivered(r, n, c, p, Returned(b));
      PromisesTold(cfg, r, n, p);
    } else if !OwnLoaded(r, n, c, Returned(b)) {
      var i, key :| Found(cfg, r, n, c, call, i, key, Returned(b));
    }
  }

  // --------------------------------------------------------------------- who runs a loader, and when

  /** A read of call `c` that leaves it to its own loader: the store did not answer, or the name is refused. */
  predicate TurnsAway(cfg: Config, spelling: string, c: nat, a: Action) {
    && CallerOf(a) == Some(c)
    && (|| ((a.ReadVersion? || a.ReadCached? || a.PurgeCached?) && a.reply.Lost?)
        || (a.ReadVersion? && cfg.norm(spelling).None?))
  }

  ghost predicate IsTurnedAway(cfg: Config, r: Run, n: nat, c: nat)
    requires n < |r.worlds| == |r.actions| + 1 && c < |r.worlds[n].calls|
  {
    var call := r.worlds[n].calls[c];
    || (call.inst < |cfg.instances| && !cfg.instances[call.inst].enabled)
    || exists a | a in Past(r, n) :: TurnsAway(cfg, call.spelling, c, a)
  }

  ghost predicate IsAlone(r: Run, n: nat, c: nat)
    requires n < |r.worlds| == |r.actions| + 1 && c < |r.worlds[n].calls|
  {
    || r.worlds[n].calls[c].state.Bypassing? || r.worlds[n].calls[c].state.Loading?
    || EndOwnLoad(c, true) in Past(r, n) || EndOwnLoad(c, false) in Past(r, n)
  }

  lemma {:induction false} AloneExactly(cfg: Config, r: Run, n: nat, c: nat)
    requires IsRun(cfg, r) && n < |r.worlds| && c < |r.worlds[n].calls|
    ensures IsAlone(r, n, c) <==> IsTurnedAway(cfg, r, n, c)
  {
    if n > 0 {
      var w, a := r.worlds[n - 1], r.actions[n - 1];
      assert IsStep(cfg, r, n - 1);
      StepGrows(cfg, w, a);
      PastGrows(r, n - 1);
      if c >= |w.calls| {
        NewCallAlone(cfg, r, n - 1, c);
      } else {
        AloneExactly(cfg, r, n - 1, c);
        AloneStep(cfg, r, n - 1, c);
      }
    }
  }

  lemma NewCallAlone(cfg: Config, r: Run, n: nat, c: nat)
    requires IsRun(cfg, r) && n < |r.actions| && |r.worlds[n].calls| <= c < |r.worlds[n + 1].calls|
    ensures IsAlone(r, n + 1, c) <==> IsTurnedAway(cfg, r, n + 1, c)
  {
    assert IsStep(cfg, r, n);
    assert r.actions[n].StartGet?;
    forall i: nat | i < n + 1
      ensures CallerOf(r.actions[i]) != Some(c)
    {
      if i < n && CallerOf(r.actions[i]).Some? {
        OnlyKnownCallsAct(cfg, r, i, n);
      }
    }
    assert forall ok :: EndOwnLoad(c, ok) !in Past(r, n + 1);
  }

  lemma AloneStep(cfg: Config, r: Run, n: nat, c: nat)
    requires IsRun(cfg, r) && n < |r.actions| && c < |r.worlds[n].calls|
    requires IsAlone(r, n, c) <==> IsTurnedAway(cfg, r, n, c)
    ensures c < |r.worlds[n + 1].calls|
    ensures IsAlone(r, n + 1, c) <==> IsTurnedAway(cfg, r, n + 1, c)
  {
    assert IsStep(cfg, r, n);
    PastGrows(r, n);
    var a, call := r.actions[n], r.worlds[n].calls[c];
    if CallerOf(a) != Some(c) {
      OthersLeaveCall(cfg, r.worlds[n], a, c);
    }
    var call' := r.worlds[n + 1].calls[c];
    assert call'.inst == call.inst && call'.spelling == call.spelling;
    assert IsTurnedAway(cfg, r, n + 1, c) <==> IsTurnedAway(cfg, r, n, c) || TurnsAway(cfg, call.spelling, c, a);
    CallsTold(cfg, r, n, c);
    hide IsRun, CallTold;
  }

  /**
    A finished call ran a loader of its own if and only if its cache is disabled, the store did not answer one of its
    reads, or its namespace is refused; every other call is answered from the store or by a promise.
   */
  lemma LoadsAloneExactly(cfg: Config, r: Run, n: nat, c: nat)
    requires IsRun(cfg, r) && n < |r.worlds| && c < |r.worlds[n].calls| && r.worlds[n].calls[c].state.Finished?
    ensures EndOwnLoad(c, true) in Past(r, n) || EndOwnLoad(c, false) in Past(r, n) <==>
            var call := r.worlds[n].calls[c];
            || (call.inst < |cfg.instances| && !cfg.instances[call.inst].enabled)
            || exists a | a in Past(r, n) :: TurnsAway(cfg, call.spelling, c, a)
  {
    AloneExactly(cfg, r, n, c);
  }

  /** At step `j` promise `p` was told who has its key's lock: itself if `granted`, another if not. */
  ghost predicate AskedAt(r: Run, n: nat, j: nat, p: nat, granted: bool)
    requires n < |r.worlds| == |r.actions| + 1 && p < |r.worlds[n].promises|
  {
    var key := r.worlds[n].promises[p].key;
    && j < n && r.actions[j] == TryLock(p, Replied)
    && (granted <==>
          key !in r.worlds[j].store.locks || r.worlds[j].store.locks[key].expiresAt <= r.worlds[j].now)
  }

  /** The promise found the lock taken, and is to wait until `deadline` as its instance is configured to. */
  ghost predicate WaitsUntil(cfg: Config, r: Run, n: nat, j: nat, p: nat, deadline: int)
    requires n < |r.worlds| == |r.actions| + 1 && p < |r.worlds[n].promises|
  {
    && AskedAt(r, n, j, p, false) && r.worlds[n].promises[p].inst < |cfg.instances|
    && deadline == r.worlds[j].now + cfg.instances[r.worlds[n].promises[p].inst].waitTimeoutMs
  }

  predicate Unanswered(p: nat, a: Action) {
    (a.TryLock? || a.ReadWaiting? || a.PurgeWaiting?) && a.p == p && a.reply.Lost?
  }

  /** The store did not answer the promise, or the promise has waited its time out. */
  ghost predicate GivesUp(cfg: Config, r: Run, n: nat, p: nat)
    requires n < |r.worlds| == |r.actions| + 1 && p < |r.worlds[n].promises|
  {
    || (exists a | a in Past(r, n) :: Unanswered(p, a))
    || (exists j, deadline | WaitsUntil(cfg, r, n, j, p, deadline) :: deadline <= r.worlds[n].now)
  }

  ghost predicate WaitTold(cfg: Config, r: Run, n: nat, p: nat)
    requires n < |r.worlds| == |r.actions| + 1 && p < |r.worlds[n].promises|
  {
    match r.worlds[n].promises[p].state
    case Checking(d) => exists j :: WaitsUntil(cfg, r, n, j, p, d)
    case Sleeping(d) => exists j :: WaitsUntil(cfg, r, n, j, p, d)
    case Clearing(d) => exists j :: WaitsUntil(cfg, r, n, j, p, d)
    case Falling => GivesUp(cfg, r, n, p)
    case LoadingDirect(_) => GivesUp(cfg, r, n, p)
    case Granted => exists j :: AskedAt(r, n, j, p, true)
    case LoadingLocked(_) => exists j :: AskedAt(r, n, j, p, true)
    case _ => true
  }

  lemma WaitsOn(cfg: Config, r: Run, n: nat, m: nat, p: nat)
    requires IsRun(cfg, r) && m == n + 1 < |r.worlds| && p < |r.worlds[n].promises|
    ensures p < |r.worlds[m].promises|
    ensures forall j, granted | AskedAt(r, n, j, p, granted) :: AskedAt(r, m, j, p, granted)
    ensures forall j, d | WaitsUntil(cfg, r, n, j, p, d) :: WaitsUntil(cfg, r, m, j, p, d)
    ensures GivesUp(cfg, r, n, p) ==> GivesUp(cfg, r, m, p)
  {
    assert IsStep(cfg, r, n);
    StepGrows(cfg, r.worlds[n], r.actions[n]);
    ClockRuns(cfg, r.worlds[n], r.actions[n]);
    PastGrows(r, n);
    hide IsRun, Next;
    assert forall j, d | WaitsUntil(cfg, r, n, j, p, d) :: WaitsUntil(cfg, r, m, j, p, d);
  }

  lemma ClockRuns(cfg: Config, w: World, a: Action)
    requires Enabled(cfg, w, a)
    ensures w.now <= Next(cfg, w, a).now && (!a.Tick? ==> w.now == Next(cfg, w, a).now)
  {
  }

  lemma WaitMoves(cfg: Config, r: Run, n: nat, m: nat, p: nat)
    requires IsRun(cfg, r) && m == n + 1 < |r.worlds| && p < |r.worlds[n].promises| && WaitTold(cfg, r, n, p)
    requires IsPromiseAction(r.actions[n]) && r.actions[n].p == p
    ensures p < |r.worlds[m].promises| && WaitTold(cfg, r, m, p)
  {
    assert IsStep(cfg, r, n);
    WaitsOn(cfg, r, n, m, p);
    PastGrows(r, n);
    var w, a, promise, promise' := r.worlds[n], r.actions[n], r.worlds[n].promises[p], r.worlds[m].promises[p];
    assert promise'.key == promise.key && promise'.inst == promise.inst;
    if a.TryLock? {
      if a.reply.Lost? {
        assert Unanswered(p, a);
      } else {
        assert AskedAt(r, m, n, p, promise'.state.Granted?);
        assert promise'.state.Granted? || WaitsUntil(cfg, r, m, n, p, promise'.state.deadline);
      }
    } else if a.WaitOrGiveUp? {
      var d := promise.state.deadline;
      var j :| WaitsUntil(cfg, r, n, j, p, d);
      assert WaitsUntil(cfg, r, m, j, p, d);
    } else if (a.ReadWaiting? || a.PurgeWaiting?) && a.reply.Lost? {
      assert Unanswered(p, a);
    }
  }

  lemma {:induction false} WaitsTold(cfg: Config, r: Run, n: nat, p: nat)
    requires IsRun(cfg, r) && n < |r.worlds| && p < |r.worlds[n].promises|
    ensures WaitTold(cfg, r, n, p)
  {
    if n > 0 {
      var w, a := r.worlds[n - 1], r.actions[n - 1];
      assert IsStep(cfg, r, n - 1);
      StepGrows(cfg, w, a);
      if p < |w.promises| {
        WaitsTold(cfg, r, n - 1, p);
        if IsPromiseAction(a) && a.p == p {
          WaitMoves(cfg, r, n - 1, n, p);
        } else {
          OthersLeavePromise(cfg, w, a, p);
          WaitsOn(cfg, r, n - 1, n, p);
        }
      } else {
        assert a.JoinOrCreate? && r.worlds[n].promises[p].state == Acquiring;
      }
    }
  }

  /**
    A promise loads under the lock only once it was granted the lock, and without it only when the store did not answer
    or its time to wait for another's lock has run out.
   */
  lemma LoadsOnlyInTurn(cfg: Config, r: Run, n: nat, p: nat)
    requires IsRun(cfg, r) && n < |r.actions|
    requires r.actions[n] == StartLockedLoad(p) || r.actions[n] == StartDirectLoad(p)
    ensures p < |r.worlds[n].promises|
    ensures r.actions[n] == StartLockedLoad(p) ==> exists j :: AskedAt(r, n, j, p, true)
    ensures r.actions[n] == StartDirectLoad(p) ==>
            || (exists a | a in Past(r, n) :: Unanswered(p, a))
            || (exists j, deadline | WaitsUntil(cfg, r, n, j, p, deadline) :: deadline <= r.worlds[n].now)
  {
    assert IsStep(cfg, r, n);
    WaitsTold(cfg, r, n, p);
  }

  /** While another has the lock a promise goes on waiting exactly until its time is out. */
  lemma WaitsExactlyAsLong(cfg: Config, r: Run, n: nat, p: nat)
    requires IsRun(cfg, r) && n < |r.actions| && r.actions[n] == WaitOrGiveUp(p)
    ensures p < |r.worlds[n].promises| && p < |r.worlds[n + 1].promises|
    ensures exists j, deadline :: WaitsUntil(cfg, r, n, j, p, deadline)
                                  && (r.worlds[n + 1].promises[p].state.Falling? <==> deadline <= r.worlds[n].now)
  {
    assert IsStep(cfg, r, n);
    WaitsTold(cfg, r, n, p);
    var d := r.worlds[n].promises[p].state.deadline;
    var j :| WaitsUntil(cfg, r, n, j, p, d);
  }

  // -------------------------------------------------------------- what the store does, and what may happen

  /** A store operation takes effect unless it was lost before it got there. */
  predicate TakesEffect(a: Action) {
    match a
    case Invalidate(_, _, reply) => reply.Replied? || reply.applied
    case PurgeCached(_, reply) => reply.Replied? || reply.applied
    case TryLock(_, reply) => reply.Replied? || reply.applied
    case PurgeWaiting(_, reply) => reply.Replied? || reply.applied
    case StoreValue(_, _, reply) => reply.Replied? || reply.applied
    case Unlock(_, reply) => reply.Replied? || reply.applied
    case _ => true
  }

  /** What a step does to a cached entry: a value is stored with its time to live, an unreadable one is dropped. */
  lemma EntriesChangeExactly(cfg: Config, w: World, a: Action, key: Key)
    requires Enabled(cfg, w, a)
    ensures var entries, entries' := w.store.entries, Next(cfg, w, a).store.entries;
      if a.Vandalise? && a.key == key then key in entries' && entries'[key] == Entry(Corrupt, a.expiresAt)
      else if a.StoreValue? && w.promises[a.p].key == key && TakesEffect(a) then
        key in entries' && entries'[key] == Entry(Good(w.promises[a.p].state.bornAt), w.now + a.ttl)
      else if ((a.PurgeCached? && w.calls[a.c].state.key == key) || (a.PurgeWaiting? && w.promises[a.p].key == key))
        && TakesEffect(a) then key !in entries'
      else (key in entries' <==> key in entries) && (key in entries ==> entries'[key] == entries[key])
  {
    if IsPromiseAction(a) {
      hide CallStep;
    } else {
      hide PromiseStep;
    }
  }

  /** What a step does to a version counter and to a lock. */
  lemma CountersAndLocksChangeExactly(cfg: Config, w: World, a: Action, counter: string, key: Key)
    requires Enabled(cfg, w, a)
    ensures VersionOf(Next(cfg, w, a).store, counter)
         == VersionOf(w.store, counter)
            + if a.Invalidate? && Counter(cfg, a.spelling) == counter && TakesEffect(a) then 1 else 0
    ensures var locks, locks' := w.store.locks, Next(cfg, w, a).store.locks;
      if a.TryLock? && w.promises[a.p].key == key && TakesEffect(a)
        && (key !in locks || locks[key].expiresAt <= w.now) then
        && key in locks'
        && locks'[key] == Lease(a.p, w.now + cfg.instances[w.promises[a.p].inst].lockTtlMs)
      else if a.Unlock? && w.promises[a.p].key == key && TakesEffect(a) && key in locks && locks[key].token == a.p then
        key !in locks'
      else (key in locks' <==> key in locks) && (key in locks ==> locks'[key] == locks[key])
  {
    if IsPromiseAction(a) {
      hide CallStep;
    } else {
      hide PromiseStep;
    }
  }

  /**
    How much the runs leave open: at any moment time may pass, an entry may be spoilt, an enabled instance may
    invalidate, a call may begin; and whatever the store is asked may be answered, or lost with or without effect.
   */
  lemma AnythingMayHappen(cfg: Config, w: World, a: Action, b: Action)
    ensures a.Tick? && w.now <= a.to ==> Enabled(cfg, w, a)
    ensures a.Vandalise? ==> Enabled(cfg, w, a)
    ensures a.StartGet? && a.inst < |cfg.instances| && a.spelling in cfg.spellings ==> Enabled(cfg, w, a)
    ensures a.Invalidate? && a.inst < |cfg.instances| && a.spelling in cfg.spellings ==>
      var possible := cfg.instances[a.inst].enabled && (cfg.mode.MemoryMode? || cfg.norm(a.spelling).Some?);
      Enabled(cfg, w, a) <==> possible
    ensures IsSameQuestion(a, b) ==> (Enabled(cfg, w, a) <==> Enabled(cfg, w, b))
    ensures a.StoreValue? && Enabled(cfg, w, a) ==> a.ttl >= 1
  {
  }

  /** Two actions that differ only in the store's reply, the loader's success, or the time to live chosen. */
  predicate IsSameQuestion(a: Action, b: Action) {
    match (a, b)
    case (Invalidate(i, s, _), Invalidate(j, t, _)) => i == j && s == t
    case (ReadVersion(c, _), ReadVersion(d, _)) => c == d
    case (ReadCached(c, _), ReadCached(d, _)) => c == d
    case (PurgeCached(c, _), PurgeCached(d, _)) => c == d
    case (EndOwnLoad(c, _), EndOwnLoad(d, _)) => c == d
    case (TryLock(p, _), TryLock(q, _)) => p == q
    case (ReadWaiting(p, _), ReadWaiting(q, _)) => p == q
    case (PurgeWaiting(p, _), PurgeWaiting(q, _)) => p == q
    case (EndDirectLoad(p, _), EndDirectLoad(q, _)) => p == q
    case (EndLockedLoad(p, _, _), EndLockedLoad(q, _, _)) => p == q
    case (StoreValue(p, m, _), StoreValue(q, n, _)) => p == q && m > 0 && n > 0
    case (Unlock(p, _), Unlock(q, _)) => p == q
    case _ => false
  }
}
