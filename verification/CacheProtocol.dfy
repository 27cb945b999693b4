/**
  The read-through cache as a concurrent protocol (src/system/application-cache.js:226-411).

  Any number of cache instances share one store.  Every `await` is a step boundary: one action is one
  atomic store operation, or one run of synchronous code between two of them, and actions of different
  callers interleave freely.  A store operation may also fail, with or without having taken effect.
  A value is known by the step at which the loader that produced it was started.
 */
module CacheProtocol {
  import opened Options
  import opened CacheStore

  datatype Mode = MemoryMode | RedisMode

  datatype InstanceConfig = InstanceConfig(enabled: bool, lockTtlMs: nat, waitTimeoutMs: nat)

  /** `norm` normalises a namespace, or fails; `spellings` are the namespaces callers ask for. */
  datatype Config = Config(
    mode: Mode,
    instances: seq<InstanceConfig>,
    norm: string -> Option<string>,
    spellings: set<string>)

  datatype Key = Key(ns: string, version: nat, parts: string)

  /** A call or an in-flight promise ends with the value of the loader run begun at `bornAt`, or throws. */
  datatype Outcome = Returned(bornAt: nat) | Rejected

  datatype Reply = Replied | Lost(applied: bool)

  datatype CallState =
    | Starting
    | Versioned(version: nat)
    | Purging(key: Key)
    | Missed(key: Key)
    | Joined(promise: nat)
    | Bypassing
    | Loading(bornAt: nat)
    | Finished(outcome: Outcome)

  datatype Call = Call(inst: nat, spelling: string, parts: string, startedAt: nat, state: CallState)

  datatype PromiseState =
    | Acquiring
    | Checking(deadline: int)
    | Sleeping(deadline: int)
    | Clearing(deadline: int)
    | Falling
    | LoadingDirect(bornAt: nat)
    | Granted
    | LoadingLocked(bornAt: nat)
    | Storing(bornAt: nat)
    | Releasing(outcome: Outcome)
    | Settling(outcome: Outcome)
    | Settled(outcome: Outcome)

  /** `grantedAt` and `grantStep` record when the lease was obtained. */
  datatype Promise = Promise(inst: nat, key: Key, grantedAt: int, grantStep: nat, state: PromiseState)

  datatype World = World(
    step: nat,
    now: int,
    store: Store<Key, nat>,
    inFlight: seq<map<Key, nat>>,
    calls: seq<Call>,
    promises: seq<Promise>)

  datatype Action =
    | Tick(to: int)
    | Vandalise(key: Key, expiresAt: int)
    | Invalidate(inst: nat, spelling: string, reply: Reply)
    | StartGet(inst: nat, spelling: string, parts: string)
    | ReadVersion(c: nat, reply: Reply)
    | ReadCached(c: nat, reply: Reply)
    | PurgeCached(c: nat, reply: Reply)
    | JoinOrCreate(c: nat)
    | StartOwnLoad(c: nat)
    | EndOwnLoad(c: nat, ok: bool)
    | Deliver(c: nat)
    | TryLock(p: nat, reply: Reply)
    | WaitOrGiveUp(p: nat)
    | ReadWaiting(p: nat, reply: Reply)
    | PurgeWaiting(p: nat, reply: Reply)
    | StartDirectLoad(p: nat)
    | EndDirectLoad(p: nat, ok: bool)
    | StartLockedLoad(p: nat)
    | EndLockedLoad(p: nat, ok: bool, oversize: bool)
    | StoreValue(p: nat, ttl: nat, reply: Reply)
    | Unlock(p: nat, reply: Reply)
    | Settle(p: nat)

  // ---------------------------------------------------------------------------------------- steps

  /** The version counter a namespace uses: Redis normalises the name, the memory store does not. */
  function Counter(cfg: Config, spelling: string): string {
    if cfg.mode.RedisMode? && cfg.norm(spelling).Some? then cfg.norm(spelling).value else spelling
  }

  function SetCall(w: World, c: nat, state: CallState): World
    requires c < |w.calls|
  {
    w.(calls := w.calls[c := w.calls[c].(state := state)])
  }

  function SetPromise(w: World, p: nat, state: PromiseState): World
    requires p < |w.promises|
  {
    w.(promises := w.promises[p := w.promises[p].(state := state)])
  }

  predicate Enabled(cfg: Config, w: World, a: Action) {
    match a
    case Tick(to) => w.now <= to
    case Vandalise(_, _) => true
    case Invalidate(inst, spelling, _) =>
      && inst < |cfg.instances| && cfg.instances[inst].enabled && spelling in cfg.spellings
      && (cfg.mode.RedisMode? ==> cfg.norm(spelling).Some?)
    case StartGet(inst, spelling, _) => inst < |cfg.instances| && spelling in cfg.spellings
    case ReadVersion(c, _) => c < |w.calls| && w.calls[c].state.Starting?
    case ReadCached(c, _) => c < |w.calls| && w.calls[c].state.Versioned? && cfg.norm(w.calls[c].spelling).Some?
    case PurgeCached(c, _) => c < |w.calls| && w.calls[c].state.Purging?
    case JoinOrCreate(c) => c < |w.calls| && w.calls[c].state.Missed? && w.calls[c].inst < |w.inFlight|
    case StartOwnLoad(c) => c < |w.calls| && w.calls[c].state.Bypassing?
    case EndOwnLoad(c, _) => c < |w.calls| && w.calls[c].state.Loading?
    case Deliver(c) =>
      && c < |w.calls| && w.calls[c].state.Joined?
      && w.calls[c].state.promise < |w.promises|
      && w.promises[w.calls[c].state.promise].state.Settled?
    case TryLock(p, _) => p < |w.promises| && w.promises[p].state.Acquiring? && w.promises[p].inst < |cfg.instances|
    case WaitOrGiveUp(p) => p < |w.promises| && w.promises[p].state.Checking?
    case ReadWaiting(p, _) => p < |w.promises| && w.promises[p].state.Sleeping?
    case PurgeWaiting(p, _) => p < |w.promises| && w.promises[p].state.Clearing?
    case StartDirectLoad(p) => p < |w.promises| && w.promises[p].state.Falling?
    case EndDirectLoad(p, _) => p < |w.promises| && w.promises[p].state.LoadingDirect?
    case StartLockedLoad(p) => p < |w.promises| && w.promises[p].state.Granted?
    case EndLockedLoad(p, _, _) => p < |w.promises| && w.promises[p].state.LoadingLocked?
    case StoreValue(p, ttl, _) => p < |w.promises| && w.promises[p].state.Storing? && 0 < ttl
    case Unlock(p, _) => p < |w.promises| && w.promises[p].state.Releasing?
    case Settle(p) => p < |w.promises| && w.promises[p].state.Settling? && w.promises[p].inst < |w.inFlight|
  }

  /** The step of a caller of `getOrLoad` (lines 307-335), of its loader, or of another process. */
  function CallStep(cfg: Config, w: World, a: Action): World
    requires Enabled(cfg, w, a)
  {
    match a
    case Tick(to) => w.(now := to)
    case Vandalise(key, expiresAt) => w.(store := PutEntry(w.store, key, Corrupt, expiresAt))
    case Invalidate(_, spelling, reply) =>
      if reply == Lost(false) then w else w.(store := BumpVersion(w.store, Counter(cfg, spelling)))
    case StartGet(inst, spelling, parts) =>
      var state := if cfg.instances[inst].enabled then Starting else Bypassing;
      w.(calls := w.calls + [Call(inst, spelling, parts, w.step, state)])
    case ReadVersion(c, reply) =>
      if reply.Lost? || cfg.norm(w.calls[c].spelling).None? then SetCall(w, c, Bypassing)
      else SetCall(w, c, Versioned(VersionOf(w.store, Counter(cfg, w.calls[c].spelling))))
    case ReadCached(c, reply) =>
      if reply.Lost? then SetCall(w, c, Bypassing)
      else
        var key := Key(cfg.norm(w.calls[c].spelling).value, w.calls[c].state.version, w.calls[c].parts);
        (match ReadEntry(w.store, key, w.now)
         case Some(Good(bornAt)) => SetCall(w, c, Finished(Returned(bornAt)))
         case Some(Corrupt) => SetCall(w, c, Purging(key))
         case None => SetCall(w, c, Missed(key)))
    case PurgeCached(c, reply) =>
      var key := w.calls[c].state.key;
      var store := if reply == Lost(false) then w.store else DropEntry(w.store, key);
      SetCall(w.(store := store), c, if reply.Replied? then Missed(key) else Bypassing)
    case JoinOrCreate(c) =>
      var key, inst := w.calls[c].state.key, w.calls[c].inst;
      if key in w.inFlight[inst] then SetCall(w, c, Joined(w.inFlight[inst][key]))
      else
        var p: nat := |w.promises|;
        var flights: map<Key, nat> := w.inFlight[inst][key := p];
        SetCall(
          w.(promises := w.promises + [Promise(inst, key, 0, 0, Acquiring)],
             inFlight := w.inFlight[inst := flights]),
          c, Joined(p))
    case StartOwnLoad(c) => SetCall(w, c, Loading(w.step))
    case EndOwnLoad(c, ok) =>
      SetCall(w, c, Finished(if ok then Returned(w.calls[c].state.bornAt) else Rejected))
    case Deliver(c) => SetCall(w, c, Finished(w.promises[w.calls[c].state.promise].state.outcome))
    case _ => w
  }

  /** The step of an in-flight promise (lines 337-377 and `loadAndStore`, lines 291-305). */
  function PromiseStep(cfg: Config, w: World, a: Action): World
    requires Enabled(cfg, w, a)
  {
    match a
    case TryLock(p, reply) =>
      var key, until := w.promises[p].key, w.now + cfg.instances[w.promises[p].inst].lockTtlMs;
      var deadline := w.now + cfg.instances[w.promises[p].inst].waitTimeoutMs;
      var taken := if LockIsFree(w.store, key, w.now) && reply != Lost(false)
                   then TakeLock(w.store, key, p, until) else w.store;
      if reply.Lost? then SetPromise(w.(store := taken), p, Falling)
      else if !LockIsFree(w.store, key, w.now) then SetPromise(w, p, Checking(deadline))
      else
        var granted := w.promises[p].(grantedAt := w.now, grantStep := w.step, state := Granted);
        w.(store := taken, promises := w.promises[p := granted])
    case WaitOrGiveUp(p) =>
      var deadline := w.promises[p].state.deadline;
      SetPromise(w, p, if w.now < deadline then Sleeping(deadline) else Falling)
    case ReadWaiting(p, reply) =>
      var deadline := w.promises[p].state.deadline;
      if reply.Lost? then SetPromise(w, p, Falling)
      else
        (match ReadEntry(w.store, w.promises[p].key, w.now)
         case Some(Good(bornAt)) => SetPromise(w, p, Settling(Returned(bornAt)))
         case Some(Corrupt) => SetPromise(w, p, Clearing(deadline))
         case None => SetPromise(w, p, Checking(deadline)))
    case PurgeWaiting(p, reply) =>
      var store := if reply == Lost(false) then w.store else DropEntry(w.store, w.promises[p].key);
      SetPromise(w.(store := store), p,
                 if reply.Replied? then Checking(w.promises[p].state.deadline) else Falling)
    case StartDirectLoad(p) => SetPromise(w, p, LoadingDirect(w.step))
    case EndDirectLoad(p, ok) =>
      SetPromise(w, p, Settling(if ok then Returned(w.promises[p].state.bornAt) else Rejected))
    case StartLockedLoad(p) => SetPromise(w, p, LoadingLocked(w.step))
    case EndLockedLoad(p, ok, oversize) =>
      var bornAt := w.promises[p].state.bornAt;
      SetPromise(w, p,
                 if !ok then Releasing(Rejected)
                 else if oversize then Releasing(Returned(bornAt)) else Storing(bornAt))
    case StoreValue(p, ttl, reply) =>
      var bornAt := w.promises[p].state.bornAt;
      var store := if reply == Lost(false) then w.store
                   else PutEntry(w.store, w.promises[p].key, Good(bornAt), w.now + ttl);
      SetPromise(w.(store := store), p, Releasing(Returned(bornAt)))
    case Unlock(p, reply) =>
      var store := if reply == Lost(false) then w.store else ReleaseLock(w.store, w.promises[p].key, p);
      SetPromise(w.(store := store), p, Settling(w.promises[p].state.outcome))
    case Settle(p) =>
      var inst := w.promises[p].inst;
      SetPromise(w.(inFlight := w.inFlight[inst := w.inFlight[inst] - {w.promises[p].key}]), p,
                 Settled(w.promises[p].state.outcome))
    case _ => w
  }

  predicate IsPromiseAction(a: Action) {
    || a.TryLock? || a.WaitOrGiveUp? || a.ReadWaiting? || a.PurgeWaiting? || a.StartDirectLoad? || a.EndDirectLoad?
    || a.StartLockedLoad? || a.EndLockedLoad? || a.StoreValue? || a.Unlock? || a.Settle?
  }

  function Next(cfg: Config, w: World, a: Action): World
    requires Enabled(cfg, w, a)
  {
    (if IsPromiseAction(a) then PromiseStep(cfg, w, a) else CallStep(cfg, w, a)).(step := w.step + 1)
  }

  function Initial(cfg: Config): World {
    World(0, 0, Store(map[], map[], map[]), seq(|cfg.instances|, i => map[]), [], [])
  }

  datatype Run = Run(worlds: seq<World>, actions: seq<Action>)

  ghost predicate IsRun(cfg: Config, r: Run) {
    && |r.worlds| == |r.actions| + 1
    && r.worlds[0] == Initial(cfg)
    && forall i | 0 <= i < |r.actions| :: IsStep(cfg, r, i)
  }

  ghost predicate IsStep(cfg: Config, r: Run, i: nat)
    requires i < |r.actions| && |r.worlds| == |r.actions| + 1
  {
    Enabled(cfg, r.worlds[i], r.actions[i]) && r.worlds[i + 1] == Next(cfg, r.worlds[i], r.actions[i])
  }

  // ------------------------------------------------------------------------------------ freshness

  /** No two spellings in use share a normalised name but count invalidations apart. */
  ghost predicate Separates(cfg: Config) {
    || cfg.mode.RedisMode?
    || forall s, t | s in cfg.spellings && t in cfg.spellings && cfg.norm(s).Some? && cfg.norm(s) == cfg.norm(t) ::
       s == t
  }

  /** Where spellings of one namespace share a counter, it has reached the version in `key`. */
  ghost predicate Reached(cfg: Config, w: World, key: Key) {
    Separates(cfg) ==>
      forall s | s in cfg.spellings && cfg.norm(s) == Some(key.ns) :: key.version <= VersionOf(w.store, Counter(cfg, s))
  }

  /** At step `b` of the run a promise for `key` started its loader. */
  ghost predicate LoadsFor(r: Run, b: nat, key: Key)
    requires b < |r.actions| < |r.worlds|
  {
    && (r.actions[b].StartLockedLoad? || r.actions[b].StartDirectLoad?)
    && r.actions[b].p < |r.worlds[b].promises|
    && r.worlds[b].promises[r.actions[b].p].key == key
  }

  /** `b` is a loader run for `key`, begun (where counters are shared) after the key's version was reached. */
  ghost predicate FreshFor(cfg: Config, r: Run, n: nat, b: nat, key: Key)
    requires n < |r.worlds| == |r.actions| + 1
  {
    b < n && LoadsFor(r, b, key) && Reached(cfg, r.worlds[b], key)
  }

  function Born(s: PromiseState): Option<nat> {
    match s
    case LoadingDirect(b) => Some(b)
    case LoadingLocked(b) => Some(b)
    case Storing(b) => Some(b)
    case Releasing(Returned(b)) => Some(b)
    case Settling(Returned(b)) => Some(b)
    case Settled(Returned(b)) => Some(b)
    case _ => None
  }

  ghost predicate EntriesFresh(cfg: Config, r: Run, n: nat)
    requires n < |r.worlds| == |r.actions| + 1
  {
    forall key | key in r.worlds[n].store.entries && r.worlds[n].store.entries[key].raw.Good? ::
      FreshFor(cfg, r, n, r.worlds[n].store.entries[key].raw.value, key)
  }

  ghost predicate PromiseFresh(cfg: Config, r: Run, n: nat, p: Promise)
    requires n < |r.worlds| == |r.actions| + 1
  {
    && Reached(cfg, r.worlds[n], p.key)
    && (Born(p.state).Some? ==> FreshFor(cfg, r, n, Born(p.state).value, p.key))
  }

  /** The key was built for this call, from a version read after the call started. */
  ghost predicate KeyFor(cfg: Config, r: Run, call: Call, key: Key)
    requires |r.worlds| == |r.actions| + 1 && call.startedAt < |r.worlds|
  {
    && cfg.norm(call.spelling) == Some(key.ns) && key.parts == call.parts
    && VersionOf(r.worlds[call.startedAt].store, Counter(cfg, call.spelling)) <= key.version
  }

  /** The answer comes from a loader of this call, or of a promise for a key built for it. */
  ghost predicate Answers(cfg: Config, r: Run, n: nat, c: nat, call: Call, b: nat)
    requires n < |r.worlds| == |r.actions| + 1 && call.startedAt < |r.worlds|
  {
    && b < n
    && (|| (call.startedAt <= b && r.actions[b] == StartOwnLoad(c))
        || exists key :: KeyFor(cfg, r, call, key) && FreshFor(cfg, r, n, b, key))
  }

  ghost predicate CallFresh(cfg: Config, r: Run, n: nat, c: nat, call: Call)
    requires n < |r.worlds| == |r.actions| + 1
  {
    && call.startedAt < n
    && call.spelling in cfg.spellings
    && r.actions[call.startedAt] == StartGet(call.inst, call.spelling, call.parts)
    && |r.worlds[call.startedAt].calls| == c
    && match call.state
       case Versioned(v) =>
         && cfg.norm(call.spelling).Some?
         && VersionOf(r.worlds[call.startedAt].store, Counter(cfg, call.spelling)) <= v
         && v <= VersionOf(r.worlds[n].store, Counter(cfg, call.spelling))
       case Purging(key) => KeyFor(cfg, r, call, key) && Reached(cfg, r.worlds[n], key)
       case Missed(key) => KeyFor(cfg, r, call, key) && Reached(cfg, r.worlds[n], key)
       case Joined(p) => p < |r.worlds[n].promises| && KeyFor(cfg, r, call, r.worlds[n].promises[p].key)
       case Loading(b) => call.startedAt <= b < n && r.actions[b] == StartOwnLoad(c)
       case Finished(Returned(b)) => Answers(cfg, r, n, c, call, b)
       case _ => true
  }

  ghost predicate InFlightKnown(w: World) {
    forall i, key | 0 <= i < |w.inFlight| && key in w.inFlight[i] ::
      w.inFlight[i][key] < |w.promises| && w.promises[w.inFlight[i][key]].key == key
  }

  ghost predicate FreshAt(cfg: Config, r: Run, n: nat)
    requires n < |r.worlds| == |r.actions| + 1
  {
    && r.worlds[n].step == n
    && InFlightKnown(r.worlds[n])
    && EntriesFresh(cfg, r, n)
    && (forall p | 0 <= p < |r.worlds[n].promises| :: PromiseFresh(cfg, r, n, r.worlds[n].promises[p]))
    && (forall c | 0 <= c < |r.worlds[n].calls| :: CallFresh(cfg, r, n, c, r.worlds[n].calls[c]))
  }

  lemma StepGrows(cfg: Config, w: World, a: Action)
    requires Enabled(cfg, w, a)
    ensures forall counter :: VersionOf(w.store, counter) <= VersionOf(Next(cfg, w, a).store, counter)
    ensures |w.calls| <= |Next(cfg, w, a).calls| && |w.promises| <= |Next(cfg, w, a).promises|
    ensures forall key :: Reached(cfg, w, key) ==> Reached(cfg, Next(cfg, w, a), key)
    ensures forall p | 0 <= p < |w.promises| ::
      Next(cfg, w, a).promises[p].key == w.promises[p].key && Next(cfg, w, a).promises[p].inst == w.promises[p].inst
  {
  }

  lemma {:induction false} RunGrows(cfg: Config, r: Run, i: nat, j: nat, counter: string)
    requires IsRun(cfg, r) && i <= j < |r.worlds|
    ensures VersionOf(r.worlds[i].store, counter) <= VersionOf(r.worlds[j].store, counter)
    ensures |r.worlds[i].calls| <= |r.worlds[j].calls| && |r.worlds[i].promises| <= |r.worlds[j].promises|
    decreases j - i
  {
    if i < j {
      assert IsStep(cfg, r, i);
      StepGrows(cfg, r.worlds[i], r.actions[i]);
      RunGrows(cfg, r, i + 1, j, counter);
    }
  }

  /** A version just read is reached under every spelling of the namespace. */
  lemma VersionReached(cfg: Config, w: World, spelling: string, version: nat, parts: string)
    requires spelling in cfg.spellings && cfg.norm(spelling).Some?
    requires version <= VersionOf(w.store, Counter(cfg, spelling))
    ensures Reached(cfg, w, Key(cfg.norm(spelling).value, version, parts))
  {
  }

  lemma CallStaysFresh(cfg: Config, r: Run, n: nat, c: nat)
    requires IsRun(cfg, r) && n < |r.actions|
    requires c < |r.worlds[n].calls| && CallFresh(cfg, r, n, c, r.worlds[n].calls[c])
    ensures CallFresh(cfg, r, n + 1, c, r.worlds[n].calls[c])
  {
    assert IsStep(cfg, r, n);
    StepGrows(cfg, r.worlds[n], r.actions[n]);
    var call := r.worlds[n].calls[c];
    if call.state.Finished? && call.state.outcome.Returned? {
      var b := call.state.outcome.bornAt;
      if !(call.startedAt <= b && r.actions[b] == StartOwnLoad(c)) {
        var key :| KeyFor(cfg, r, call, key) && FreshFor(cfg, r, n, b, key);
        assert FreshFor(cfg, r, n + 1, b, key);
      }
    }
  }

  lemma EntriesStep(cfg: Config, r: Run, n: nat)
    requires IsRun(cfg, r) && n < |r.actions| && FreshAt(cfg, r, n)
    ensures EntriesFresh(cfg, r, n + 1)
  {
    assert IsStep(cfg, r, n);
    var w, w', a := r.worlds[n], r.worlds[n + 1], r.actions[n];
    forall key | key in w'.store.entries && w'.store.entries[key].raw.Good?
      ensures FreshFor(cfg, r, n + 1, w'.store.entries[key].raw.value, key)
    {
      if key in w.store.entries && w'.store.entries[key] == w.store.entries[key] {
        assert FreshFor(cfg, r, n, w.store.entries[key].raw.value, key);
      } else {
        assert a.StoreValue? && w.promises[a.p].key == key;
        assert PromiseFresh(cfg, r, n, w.promises[a.p]);
      }
    }
  }

  lemma NewPromiseIsFresh(cfg: Config, r: Run, n: nat, p: nat)
    requires IsRun(cfg, r) && n < |r.actions| && FreshAt(cfg, r, n)
    requires |r.worlds[n].promises| <= p < |r.worlds[n + 1].promises|
    ensures PromiseFresh(cfg, r, n + 1, r.worlds[n + 1].promises[p])
  {
    assert IsStep(cfg, r, n);
    var w, a := r.worlds[n], r.actions[n];
    StepGrows(cfg, w, a);
    hide IsRun, EntriesFresh;
    assert a.JoinOrCreate? && CallFresh(cfg, r, n, a.c, w.calls[a.c]);
  }

  lemma PromisesStep(cfg: Config, r: Run, n: nat, p: nat)
    requires IsRun(cfg, r) && n < |r.actions| && FreshAt(cfg, r, n)
    requires p < |r.worlds[n + 1].promises|
    ensures PromiseFresh(cfg, r, n + 1, r.worlds[n + 1].promises[p])
  {
    assert IsStep(cfg, r, n);
    hide IsRun, CallFresh;
    var w, w', a := r.worlds[n], r.worlds[n + 1], r.actions[n];
    if p < |w.promises| {
      StepGrows(cfg, w, a);
      assert PromiseFresh(cfg, r, n, w.promises[p]);
      if w'.promises[p] != w.promises[p] && Born(w'.promises[p].state).Some?
         && Born(w'.promises[p].state) != Born(w.promises[p].state) {
        var b, key := Born(w'.promises[p].state).value, w.promises[p].key;
        if a.ReadWaiting? {
          assert FreshFor(cfg, r, n, w.store.entries[key].raw.value, key);
        } else {
          assert b == n && LoadsFor(r, n, key);
        }
      }
    } else {
      NewPromiseIsFresh(cfg, r, n, p);
    }
  }

  lemma CallsStep(cfg: Config, r: Run, n: nat, c: nat)
    requires IsRun(cfg, r) && n < |r.actions| && FreshAt(cfg, r, n)
    requires c < |r.worlds[n + 1].calls|
    ensures CallFresh(cfg, r, n + 1, c, r.worlds[n + 1].calls[c])
  {
    assert IsStep(cfg, r, n);
    var w, w', a := r.worlds[n], r.worlds[n + 1], r.actions[n];
    StepGrows(cfg, w, a);
    if c < |w.calls| {
      CallStaysFresh(cfg, r, n, c);
      if w'.calls[c] != w.calls[c] {
        CallMoves(cfg, r, n, c);
      }
    }
  }

  ghost predicate CallTakes(cfg: Config, r: Run, n: nat, c: nat) {
    && IsRun(cfg, r) && n < |r.actions| && FreshAt(cfg, r, n)
    && c < |r.worlds[n].calls| <= |r.worlds[n + 1].calls|
    && CallFresh(cfg, r, n + 1, c, r.worlds[n].calls[c])
  }

  lemma CacheRead(cfg: Config, r: Run, n: nat, c: nat)
    requires CallTakes(cfg, r, n, c) && r.actions[n] == ReadCached(c, Replied)
    ensures CallFresh(cfg, r, n + 1, c, r.worlds[n + 1].calls[c])
  {
    assert IsStep(cfg, r, n);
    var w, w', call := r.worlds[n], r.worlds[n + 1], r.worlds[n].calls[c];
    var key := Key(cfg.norm(call.spelling).value, call.state.version, call.parts);
    assert CallFresh(cfg, r, n, c, call);
    StepGrows(cfg, w, r.actions[n]);
    VersionReached(cfg, w, call.spelling, call.state.version, call.parts);
    assert KeyFor(cfg, r, call, key) && KeyFor(cfg, r, w'.calls[c], key);
    if w'.calls[c].state.Finished? {
      var b := w.store.entries[key].raw.value;
      assert FreshFor(cfg, r, n, b, key);
      assert FreshFor(cfg, r, n + 1, b, key);
      assert Answers(cfg, r, n + 1, c, w'.calls[c], b);
    }
  }

  lemma Delivery(cfg: Config, r: Run, n: nat, c: nat)
    requires CallTakes(cfg, r, n, c) && r.actions[n] == Deliver(c)
    ensures CallFresh(cfg, r, n + 1, c, r.worlds[n + 1].calls[c])
  {
    assert IsStep(cfg, r, n);
    var w, call := r.worlds[n], r.worlds[n].calls[c];
    assert CallFresh(cfg, r, n, c, call);
    var p := w.promises[call.state.promise];
    assert PromiseFresh(cfg, r, n, p);
    if p.state.outcome.Returned? {
      assert FreshFor(cfg, r, n + 1, p.state.outcome.bornAt, p.key);
      assert KeyFor(cfg, r, r.worlds[n + 1].calls[c], p.key);
    }
  }

  lemma Joining(cfg: Config, r: Run, n: nat, c: nat)
    requires CallTakes(cfg, r, n, c) && r.actions[n] == JoinOrCreate(c)
    ensures CallFresh(cfg, r, n + 1, c, r.worlds[n + 1].calls[c])
  {
    assert IsStep(cfg, r, n);
    assert CallFresh(cfg, r, n, c, r.worlds[n].calls[c]);
  }

  lemma CallMoves(cfg: Config, r: Run, n: nat, c: nat)
    requires CallTakes(cfg, r, n, c) && r.worlds[n + 1].calls[c] != r.worlds[n].calls[c]
    ensures CallFresh(cfg, r, n + 1, c, r.worlds[n + 1].calls[c])
  {
    assert IsStep(cfg, r, n);
    var w, a, call := r.worlds[n], r.actions[n], r.worlds[n].calls[c];
    assert CallFresh(cfg, r, n, c, call);
    if a == ReadCached(c, Replied) {
      CacheRead(cfg, r, n, c);
    } else if a == Deliver(c) {
      Delivery(cfg, r, n, c);
    } else if a == JoinOrCreate(c) {
      Joining(cfg, r, n, c);
    } else if a.ReadVersion? {
      RunGrows(cfg, r, call.startedAt, n, Counter(cfg, call.spelling));
    } else if a.EndOwnLoad? {
      assert Answers(cfg, r, n + 1, c, r.worlds[n + 1].calls[c], call.state.bornAt);
    }
  }

  lemma InFlightStep(cfg: Config, w: World, a: Action)
    requires Enabled(cfg, w, a) && InFlightKnown(w)
    ensures InFlightKnown(Next(cfg, w, a))
  {
    if IsPromiseAction(a) {
      hide CallStep;
    } else {
      hide PromiseStep;
    }
  }

  /**
    In every run: whatever is stored, promised or returned for a key was loaded for that key, and a call's key is its
    own. Where counters are shared, the loader began after the namespace's counter had reached the version in the key.
   */
  lemma {:induction false} FreshAlways(cfg: Config, r: Run, n: nat)
    requires IsRun(cfg, r) && n < |r.worlds|
    ensures FreshAt(cfg, r, n)
  {
    if n > 0 {
      FreshAlways(cfg, r, n - 1);
      assert IsStep(cfg, r, n - 1);
      InFlightStep(cfg, r.worlds[n - 1], r.actions[n - 1]);
      EntriesStep(cfg, r, n - 1);
      forall p: nat | p < |r.worlds[n].promises|
        ensures PromiseFresh(cfg, r, n, r.worlds[n].promises[p])
      {
        PromisesStep(cfg, r, n - 1, p);
      }
      forall c: nat | c < |r.worlds[n].calls|
        ensures CallFresh(cfg, r, n, c, r.worlds[n].calls[c])
      {
        CallsStep(cfg, r, n - 1, c);
      }
    }
  }

  /**
    Invalidation at step `i`, a call with the same normalised namespace started at a later step `j`, and
    that call finished by step `k` with a value loaded at step `b`.
   */
  ghost predicate AnswersAfterInvalidation(cfg: Config, r: Run, i: nat, j: nat, k: nat, b: nat) {
    && IsRun(cfg, r) && i < j < k < |r.worlds|
    && r.actions[i].Invalidate? && r.actions[i].reply == Replied
    && r.actions[j].StartGet? && cfg.norm(r.actions[i].spelling) == cfg.norm(r.actions[j].spelling)
    && |r.worlds[j].calls| < |r.worlds[k].calls|
    && r.worlds[k].calls[|r.worlds[j].calls|].state == Finished(Returned(b))
  }

  /** No call started after an invalidation yields a value whose loader was started before it. */
  ghost predicate NeverStale(cfg: Config) {
    forall r, i, j, k, b | AnswersAfterInvalidation(cfg, r, i, j, k, b) :: i < b
  }

  lemma StartedOnce(cfg: Config, r: Run, j: nat, k: nat)
    requires IsRun(cfg, r) && j < k < |r.worlds| && r.actions[j].StartGet?
    requires |r.worlds[j].calls| < |r.worlds[k].calls|
    ensures r.worlds[k].calls[|r.worlds[j].calls|].startedAt == j
  {
    FreshAlways(cfg, r, k);
    var c := |r.worlds[j].calls|;
    var s := r.worlds[k].calls[c].startedAt;
    assert CallFresh(cfg, r, k, c, r.worlds[k].calls[c]);
    assert IsStep(cfg, r, j) && IsStep(cfg, r, s);
    if s < j {
      RunGrows(cfg, r, s + 1, j, "");
    } else if j < s {
      RunGrows(cfg, r, j + 1, s, "");
    }
  }

  lemma AnswerIsFresh(cfg: Config, r: Run, i: nat, j: nat, k: nat, b: nat)
    requires Separates(cfg) && AnswersAfterInvalidation(cfg, r, i, j, k, b)
    ensures i < b
  {
    FreshAlways(cfg, r, k);
    StartedOnce(cfg, r, j, k);
    var c := |r.worlds[j].calls|;
    var call := r.worlds[k].calls[c];
    assert CallFresh(cfg, r, k, c, call) && Answers(cfg, r, k, c, call, b);
    if !(j <= b && r.actions[b] == StartOwnLoad(c)) {
      var key :| KeyFor(cfg, r, call, key) && FreshFor(cfg, r, k, b, key);
      var counter := Counter(cfg, call.spelling);
      assert IsStep(cfg, r, i);
      assert Counter(cfg, r.actions[i].spelling) == counter;
      assert VersionOf(r.worlds[i].store, counter) < VersionOf(r.worlds[i + 1].store, counter);
      RunGrows(cfg, r, i + 1, j, counter);
      if b <= i {
        RunGrows(cfg, r, b, i, counter);
      }
    }
  }
}
