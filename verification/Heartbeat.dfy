/**
  Worker heartbeats (src/system/worker-heartbeat.js:8-32, 113-163, 175-219, 234-312): the Redis scripts, the memory
  store and a worker that beats at every tick. A key in Redis vanishes at the instant its time to live ends.
 */
module Heartbeat {
  import opened Options

  /** Tokens and the instants their heartbeats run out. */
  type Tokens = map<string, int>

  datatype Answer = Answer(workerCount: nat, ttlMs: int)

  datatype Event =
    | Beat(role: string, token: string, ttlMs: nat, now: int)
    | Release(role: string, token: string, now: int)
    | Inspect(role: string, now: int)

  function Active(tokens: Tokens, now: int): Tokens {
    map token | token in tokens && tokens[token] > now :: tokens[token]
  }

  /** The largest value; zero for none. */
  ghost predicate IsLatest(latest: int, tokens: Tokens) {
    if |tokens| == 0 then latest == 0
    else (exists token :: token in tokens && tokens[token] == latest) && forall token | token in tokens ::
      tokens[token] <= latest
  }

  /** What an inspection of the running heartbeats says. */
  ghost predicate Tells(answer: Answer, running: Tokens, now: int) {
    answer.workerCount == |running| && if |running| == 0 then answer.ttlMs == 0
      else IsLatest(answer.ttlMs + now, running)
  }

  // -------------------------------------------------------------------------------- the memory store

  type Roles = map<string, Tokens>

  function TokensOf(roles: Roles, role: string): Tokens {
    if role in roles then roles[role] else map[]
  }

  /** Roles without tokens are dropped. */
  function Stored(roles: Roles, role: string, tokens: Tokens): Roles {
    if |tokens| == 0 then roles - {role} else roles[role := tokens]
  }

  function MemoryAfter(roles: Roles, e: Event): Roles {
    match e
    case Beat(role, token, ttlMs, now) => roles[role := Active(TokensOf(roles, role), now)[token := now + ttlMs]]
    case Inspect(role, now) => Stored(roles, role, Active(TokensOf(roles, role), now))
    case Release(role, token, _) => if role in roles then Stored(roles, role, roles[role] - {token}) else roles
  }

  /** `Math.max(...expirations)` */
  method Latest(entries: Tokens) returns (latest: int)
    ensures IsLatest(latest, entries)
  {
    latest := 0;
    if |entries| == 0 {
      return;
    }
    var first :| first in entries;
    latest := entries[first];
    var rest := entries.Keys - {first};
    while rest != {}
      invariant rest <= entries.Keys
      invariant exists token :: token in entries && entries[token] == latest
      invariant forall token | token in entries && token !in rest :: entries[token] <= latest
      decreases |rest|
    {
      var token :| token in rest;
      if entries[token] > latest {
        latest := entries[token];
      }
      rest := rest - {token};
    }
  }

  lemma StoreAgain(roles: Roles, role: string, a: Tokens, b: Tokens)
    ensures Stored(roles, role, a)[role := b] == roles[role := b]
  {
  }

  class MemoryHeartbeatStore {
    var roles: Roles

    constructor ()
      ensures roles == map[]
    {
      roles := map[];
    }

    /** `activeEntries` */
    method ActiveEntries(role: string, now: int) returns (entries: Tokens)
      modifies this
      ensures entries == Active(TokensOf(old(roles), role), now)
      ensures roles == Stored(old(roles), role, entries)
    {
      entries := if role in roles then roles[role] else map[];
      ghost var all := entries;
      var rest := entries.Keys;
      while rest != {}
        invariant rest <= entries.Keys && entries.Keys <= all.Keys
        invariant forall token | token in entries :: entries[token] == all[token]
        invariant forall token | token in all && token !in rest :: token in entries <==> all[token] > now
        invariant roles == old(roles)
        decreases |rest|
      {
        var token :| token in rest;
        if entries[token] <= now {
          entries := entries - {token};
        }
        rest := rest - {token};
      }
      roles := if |entries| == 0 then roles - {role} else roles[role := entries];
    }

    method Beat(role: string, token: string, ttlMs: nat, now: int)
      modifies this
      ensures roles == MemoryAfter(old(roles), Event.Beat(role, token, ttlMs, now))
    {
      hide Active, Stored;
      var entries := ActiveEntries(role, now);
      StoreAgain(old(roles), role, entries, entries[token := now + ttlMs]);
      entries := entries[token := now + ttlMs];
      roles := roles[role := entries];
    }

    method Inspect(role: string, now: int) returns (answer: Answer)
      modifies this
      ensures roles == MemoryAfter(old(roles), Event.Inspect(role, now))
      ensures Tells(answer, Active(TokensOf(old(roles), role), now), now)
    {
      var entries := ActiveEntries(role, now);
      var latest := Latest(entries);
      answer := Answer(|entries|, if |entries| > 0 then latest - now else 0);
    }

    method Release(role: string, token: string, now: int)
      modifies this
      ensures roles == MemoryAfter(old(roles), Event.Release(role, token, now))
    {
      if role !in roles {
        return;
      }
      var entries := roles[role];
      entries := entries - {token};
      roles := if |entries| == 0 then roles - {role} else roles[role := entries];
    }
  }

  // --------------------------------------------------------------------------------- the Redis store

  /** A sorted set of tokens and the instant its key vanishes. */
  datatype SortedSet = SortedSet(scores: Tokens, expiresAt: int)

  type Redis = map<string, SortedSet>

  /** The set stored at a key; an expired key is gone. */
  function Scores(r: Redis, role: string, now: int): Tokens {
    if role in r && now < r[role].expiresAt then r[role].scores else map[]
  }

  /** The three scripts; an empty sorted set is no key. */
  function RedisAfter(r: Redis, e: Event): Redis {
    match e
    case Beat(role, token, ttlMs, now) =>
      r[role := SortedSet(Scores(r, role, now)[token := now + ttlMs], now + 2 * ttlMs)]
    case Inspect(role, now) =>
      Kept(r, role, Active(Scores(r, role, now), now))
    case Release(role, token, now) =>
      Kept(r, role, Scores(r, role, now) - {token})
  }

  function Kept(r: Redis, role: string, left: Tokens): Redis {
    if |left| == 0 || role !in r then r - {role} else r[role := SortedSet(left, r[role].expiresAt)]
  }

  lemma KeptElsewhere(r: Redis, role: string, left: Tokens, other: string)
    requires other != role
    ensures other in Kept(r, role, left) <==> other in r
    ensures other in r ==> Kept(r, role, left)[other] == r[other]
  {
  }

  /** `INSPECT_HEARTBEAT_SCRIPT`: drop what ran out, count, and take the highest score. */
  method InspectScript(r: Redis, role: string, now: int) returns (r': Redis, answer: Answer)
    ensures r' == RedisAfter(r, Inspect(role, now))
    ensures Tells(answer, Active(Scores(r, role, now), now), now)
  {
    hide Active;
    var left := Active(Scores(r, role, now), now);
    r' := Kept(r, role, left);
    var latest := Latest(left);
    if |left| == 0 {
      return r', Answer(0, 0);
    }
    var ttl := latest - now;
    answer := Answer(|left|, ttl);
  }

  /** There is one answer for given running heartbeats. */
  lemma AnswerIsDetermined(a: Answer, b: Answer, running: Tokens, now: int)
    requires Tells(a, running, now) && Tells(b, running, now)
    ensures a == b
  {
  }

  // -------------------------------------------------------------------------------------- agreement

  function TimeOf(e: Event): int {
    e.now
  }

  ghost predicate InTime(events: seq<Event>, from: int) {
    && (forall i | 0 <= i < |events| :: from <= TimeOf(events[i]))
    && (forall i, j | 0 <= i < j < |events| :: TimeOf(events[i]) <= TimeOf(events[j]))
  }

  ghost predicate Uses(events: seq<Event>, ttls: set<nat>) {
    forall i | 0 <= i < |events| && events[i].Beat? :: events[i].ttlMs in ttls && events[i].ttlMs > 0
  }

  /** Each time to live is at most twice any other. */
  ghost predicate AreClose(ttls: set<nat>) {
    forall a, b | a in ttls && b in ttls :: a <= 2 * b
  }

  function MemoryRun(roles: Roles, events: seq<Event>): Roles
    decreases |events|
  {
    if events == [] then roles else MemoryRun(MemoryAfter(roles, events[0]), events[1..])
  }

  function RedisRun(r: Redis, events: seq<Event>): Redis
    decreases |events|
  {
    if events == [] then r else RedisRun(RedisAfter(r, events[0]), events[1..])
  }

  predicate IsRunning(tokens: Tokens, token: string, now: int) {
    token in tokens && tokens[token] > now
  }

  ghost predicate SameRunning(a: Tokens, b: Tokens, now: int) {
    && (forall token | IsRunning(a, token, now) :: IsRunning(b, token, now) && a[token] == b[token])
    && (forall token | IsRunning(b, token, now) :: IsRunning(a, token, now))
  }

  lemma SameRunningIsSameActive(a: Tokens, b: Tokens, now: int)
    ensures SameRunning(a, b, now) <==> Active(a, now) == Active(b, now)
  {
    assert forall token :: token in Active(a, now) <==> IsRunning(a, token, now);
    assert forall token :: token in Active(b, now) <==> IsRunning(b, token, now);
    assert forall token | token in Active(a, now) :: Active(a, now)[token] == a[token];
    assert forall token | token in Active(b, now) :: Active(b, now)[token] == b[token];
  }

  /** At this moment both stores would show the same running heartbeats for every role. */
  ghost predicate Agree(roles: Roles, r: Redis, now: int) {
    forall role :: Active(TokensOf(roles, role), now) == Active(Scores(r, role, now), now)
  }

  /**
    The stores agree and will go on agreeing: no key vanishes before its tokens, and tokens end within a known time.
   */
  ghost predicate InStep(roles: Roles, r: Redis, ttls: set<nat>, now: int) {
    forall role :: RoleInStep(TokensOf(roles, role), r, role, ttls, now)
  }

  ghost predicate IsBounded(tokens: Tokens, ttls: set<nat>, now: int, expiresAt: int) {
    forall token | IsRunning(tokens, token, now) ::
      tokens[token] <= expiresAt && exists ttl :: ttl in ttls && tokens[token] <= now + ttl
  }

  function ExpiryOf(r: Redis, role: string): int {
    if role in r then r[role].expiresAt else 0
  }

  ghost predicate RoleInStep(tokens: Tokens, r: Redis, role: string, ttls: set<nat>, now: int) {
    SameRunning(tokens, Scores(r, role, now), now) && IsBounded(tokens, ttls, now, ExpiryOf(r, role))
  }

  lemma InStepLater(roles: Roles, r: Redis, ttls: set<nat>, now: int, later: int)
    requires InStep(roles, r, ttls, now) && now <= later
    ensures InStep(roles, r, ttls, later)
  {
    forall role
      ensures RoleInStep(TokensOf(roles, role), r, role, ttls, later)
    {
      assert RoleInStep(TokensOf(roles, role), r, role, ttls, now);
      RoleLater(TokensOf(roles, role), r, role, ttls, now, later);
    }
  }

  lemma RoleLater(tokens: Tokens, r: Redis, role: string, ttls: set<nat>, now: int, later: int)
    requires RoleInStep(tokens, r, role, ttls, now) && now <= later
    ensures RoleInStep(tokens, r, role, ttls, later)
  {
    forall token | IsRunning(tokens, token, later)
      ensures IsRunning(Scores(r, role, later), token, later) && Scores(r, role, later)[token] == tokens[token]
      ensures exists ttl :: ttl in ttls && tokens[token] <= later + ttl
    {
      assert IsRunning(tokens, token, now);
      var ttl :| ttl in ttls && tokens[token] <= now + ttl;
    }
    forall token | IsRunning(Scores(r, role, later), token, later)
      ensures IsRunning(tokens, token, later)
    {
      assert IsRunning(Scores(r, role, now), token, now);
    }
  }

  lemma OtherTokens(roles: Roles, e: Event, role: string)
    requires e.role != role
    ensures TokensOf(MemoryAfter(roles, e), role) == TokensOf(roles, role)
  {
    hide Active;
  }

  lemma OtherKeys(r: Redis, e: Event, role: string)
    requires e.role != role
    ensures Scores(RedisAfter(r, e), role, e.now) == Scores(r, role, e.now)
      && ExpiryOf(RedisAfter(r, e), role) == ExpiryOf(r, role)
  {
    hide Active, Kept;
    match e
    case Beat(_, _, _, _) =>
    case Inspect(_, now) => KeptElsewhere(r, e.role, Active(Scores(r, e.role, now), now), role);
    case Release(_, token, now) => KeptElsewhere(r, e.role, Scores(r, e.role, now) - {token}, role);
  }

  /** What each script leaves at its own key, and how long. */
  lemma OwnKey(r: Redis, e: Event)
    ensures e.Beat? && e.ttlMs > 0 ==>
      && Scores(RedisAfter(r, e), e.role, e.now) == Scores(r, e.role, e.now)[e.token := e.now + e.ttlMs]
      && ExpiryOf(RedisAfter(r, e), e.role) == e.now + 2 * e.ttlMs
    ensures e.Inspect? ==> Scores(RedisAfter(r, e), e.role, e.now) == Active(Scores(r, e.role, e.now), e.now)
    ensures e.Release? ==> Scores(RedisAfter(r, e), e.role, e.now) == Scores(r, e.role, e.now) - {e.token}
    ensures !e.Beat? && |Scores(RedisAfter(r, e), e.role, e.now)| > 0 ==>
      ExpiryOf(RedisAfter(r, e), e.role) == ExpiryOf(r, e.role)
  {
    var none: Tokens := map[];
    assert forall t: Tokens :: |t| == 0 ==> t == none;
  }

  lemma BeatInStep(tokens: Tokens, scores: Tokens, e: Event, ttls: set<nat>, expiresAt: int)
    requires e.Beat? && e.ttlMs in ttls && AreClose(ttls)
    requires SameRunning(tokens, scores, e.now) && IsBounded(tokens, ttls, e.now, expiresAt)
    ensures var more := Active(tokens, e.now)[e.token := e.now + e.ttlMs];
      && SameRunning(more, scores[e.token := e.now + e.ttlMs], e.now)
      && IsBounded(more, ttls, e.now, e.now + 2 * e.ttlMs)
  {
    var more := Active(tokens, e.now)[e.token := e.now + e.ttlMs];
    forall token | IsRunning(more, token, e.now)
      ensures more[token] <= e.now + 2 * e.ttlMs && exists ttl :: ttl in ttls && more[token] <= e.now + ttl
    {
      if token != e.token {
        assert IsRunning(tokens, token, e.now);
        var ttl :| ttl in ttls && tokens[token] <= e.now + ttl;
        assert ttl <= 2 * e.ttlMs;
      }
    }
    forall token
      ensures IsRunning(more, token, e.now) ==> IsRunning(scores[e.token := e.now + e.ttlMs], token, e.now)
      ensures IsRunning(scores[e.token := e.now + e.ttlMs], token, e.now) ==> IsRunning(more, token, e.now)
    {
      assert token != e.token && IsRunning(more, token, e.now) ==> IsRunning(tokens, token, e.now);
      assert token != e.token && IsRunning(scores[e.token := e.now + e.ttlMs], token, e.now) ==>
        IsRunning(scores, token, e.now);
    }
  }

  lemma RemovalInStep(tokens: Tokens, scores: Tokens, e: Event, ttls: set<nat>, expiresAt: int)
    requires !e.Beat? && SameRunning(tokens, scores, e.now) && IsBounded(tokens, ttls, e.now, expiresAt)
    ensures var fewer := if e.Inspect? then Active(tokens, e.now) else tokens - {e.token};
      && SameRunning(fewer, if e.Inspect? then Active(scores, e.now) else scores - {e.token}, e.now)
      && IsBounded(fewer, ttls, e.now, expiresAt)
  {
    var fewer := if e.Inspect? then Active(tokens, e.now) else tokens - {e.token};
    var left := if e.Inspect? then Active(scores, e.now) else scores - {e.token};
    assert forall token | IsRunning(fewer, token, e.now) ::
      IsRunning(tokens, token, e.now) && fewer[token] == tokens[token];
    assert forall token | IsRunning(left, token, e.now) ::
      IsRunning(scores, token, e.now) && left[token] == scores[token];
    assert forall token | IsRunning(tokens, token, e.now) && (e.Release? ==> token != e.token) ::
      IsRunning(fewer, token, e.now);
    assert forall token | IsRunning(scores, token, e.now) && (e.Release? ==> token != e.token) ::
      IsRunning(left, token, e.now);
  }

  lemma EventInStep(roles: Roles, r: Redis, e: Event, ttls: set<nat>)
    requires InStep(roles, r, ttls, e.now) && AreClose(ttls) && (e.Beat? ==> e.ttlMs in ttls && e.ttlMs > 0)
    ensures InStep(MemoryAfter(roles, e), RedisAfter(r, e), ttls, e.now)
  {
    hide SameRunning, IsBounded, MemoryAfter, RedisAfter, Scores, ExpiryOf, TokensOf, AreClose, Active;
    forall role
      ensures RoleInStep(TokensOf(MemoryAfter(roles, e), role), RedisAfter(r, e), role, ttls, e.now)
    {
      assert RoleInStep(TokensOf(roles, role), r, role, ttls, e.now);
      if role != e.role {
        OtherTokens(roles, e, role);
        OtherKeys(r, e, role);
      } else {
        OwnKey(r, e);
        OwnTokens(roles, e);
        var tokens, scores := TokensOf(roles, role), Scores(r, role, e.now);
        if e.Beat? {
          BeatInStep(tokens, scores, e, ttls, ExpiryOf(r, role));
        } else {
          RemovalInStep(tokens, scores, e, ttls, ExpiryOf(r, role));
          NothingIsBounded(TokensOf(MemoryAfter(roles, e), role), Scores(RedisAfter(r, e), role, e.now), ttls, e.now,
                           ExpiryOf(RedisAfter(r, e), role));
        }
      }
    }
  }

  lemma NothingIsBounded(tokens: Tokens, scores: Tokens, ttls: set<nat>, now: int, expiresAt: int)
    ensures SameRunning(tokens, scores, now) && |scores| == 0 ==> IsBounded(tokens, ttls, now, expiresAt)
  {
  }

  lemma OwnTokens(roles: Roles, e: Event)
    ensures TokensOf(MemoryAfter(roles, e), e.role) ==
      if e.Beat? then Active(TokensOf(roles, e.role), e.now)[e.token := e.now + e.ttlMs]
      else if e.Inspect? then Active(TokensOf(roles, e.role), e.now)
      else TokensOf(roles, e.role) - {e.token}
  {
    var none: Tokens := map[];
    assert none - {if e.Release? then e.token else ""} == none;
    assert forall t: Tokens :: |t| == 0 ==> t == none;
  }

  lemma {:induction false} RunInStep(roles: Roles, r: Redis, events: seq<Event>, ttls: set<nat>, from: int, now: int)
    requires InStep(roles, r, ttls, from) && InTime(events, from) && Uses(events, ttls) && AreClose(ttls)
    requires from <= now && (events != [] ==> TimeOf(events[|events| - 1]) <= now)
    ensures Agree(MemoryRun(roles, events), RedisRun(r, events), now)
    decreases |events|
  {
    hide InStep, MemoryAfter, RedisAfter, Agree;
    if events == [] {
      InStepLater(roles, r, ttls, from, now);
      InStepAgrees(roles, r, ttls, now);
    } else {
      var e := events[0];
      InStepLater(roles, r, ttls, from, e.now);
      EventInStep(roles, r, e, ttls);
      var rest := events[1..];
      assert forall i | 0 <= i < |rest| :: rest[i] == events[i + 1];
      assert rest != [] ==> rest[|rest| - 1] == events[|events| - 1];
      RunInStep(MemoryAfter(roles, e), RedisAfter(r, e), rest, ttls, e.now, now);
    }
  }

  lemma InStepAgrees(roles: Roles, r: Redis, ttls: set<nat>, now: int)
    requires InStep(roles, r, ttls, now)
    ensures Agree(roles, r, now)
  {
    hide SameRunning, IsBounded, Scores, ExpiryOf, TokensOf, Active;
    forall role
      ensures Active(TokensOf(roles, role), now) == Active(Scores(r, role, now), now)
    {
      assert RoleInStep(TokensOf(roles, role), r, role, ttls, now);
      SameRunningIsSameActive(TokensOf(roles, role), Scores(r, role, now), now);
    }
  }

  /** Traces over the times to live in `ttls`, from the empty stores to any later moment. */
  ghost predicate AlwaysAgree(ttls: set<nat>) {
    forall events: seq<Event>, now: int ::
      InTime(events, 0) && Uses(events, ttls) && 0 <= now && (events != [] ==> TimeOf(events[|events| - 1]) <= now) ==>
        Agree(MemoryRun(map[], events), RedisRun(map[], events), now)
  }

  /**
    The Redis scripts and the memory store show the same workers at every moment of every trace exactly when no time to
    live in use is more than twice another; with one time to live they always agree.
   */
  lemma StoresAgreeExactly(ttls: set<nat>)
    requires 0 !in ttls
    ensures AlwaysAgree(ttls) <==> AreClose(ttls)
  {
    if AreClose(ttls) {
      forall events: seq<Event>, now: int
        | InTime(events, 0) && Uses(events, ttls) && 0 <= now && (events != [] ==> TimeOf(events[|events| - 1]) <= now)
        ensures Agree(MemoryRun(map[], events), RedisRun(map[], events), now)
      {
        EmptyInStep(ttls);
        RunInStep(map[], map[], events, ttls, 0, now);
      }
    } else {
      var a, b :| a in ttls && b in ttls && a > 2 * b;
      LongAndShort(a, b);
    }
  }

  lemma EmptyInStep(ttls: set<nat>)
    ensures InStep(map[], map[], ttls, 0)
  {
  }

  /** A long heartbeat followed by a short one: the key vanishes while the first worker is still running. */
  lemma LongAndShort(a: nat, b: nat)
    requires a > 2 * b && b > 0
    ensures var events := [Beat("worker", "long", a, 0), Beat("worker", "short", b, 0)];
      && InTime(events, 0) && Uses(events, {a, b})
      && !Agree(MemoryRun(map[], events), RedisRun(map[], events), 2 * b)
  {
    var first, second := Beat("worker", "long", a, 0), Beat("worker", "short", b, 0);
    var events := [first, second];
    assert events[1..] == [second] && [second][1..] == [];
    var roles := MemoryAfter(MemoryAfter(map[], first), second);
    var r := RedisAfter(RedisAfter(map[], first), second);
    assert MemoryRun(MemoryAfter(map[], first), [second]) == MemoryRun(roles, []);
    assert RedisRun(RedisAfter(map[], first), [second]) == RedisRun(r, []);
    assert "long" in Active(TokensOf(roles, "worker"), 2 * b);
    assert "long" !in Active(Scores(r, "worker", 2 * b), 2 * b);
  }

  // ------------------------------------------------------------------------------- a worker stays visible

  predicate IsOwn(e: Event, role: string, token: string) {
    (e.Beat? || e.Release?) && e.role == role && e.token == token
  }

  /** The worker's own beats and releases among everybody's events. */
  function Own(events: seq<Event>, role: string, token: string): seq<Event> {
    if events == [] then []
    else (if IsOwn(events[0], role, token) then [events[0]] else []) + Own(events[1..], role, token)
  }

  /** When the worker's heartbeat runs out, after its own events. */
  function RunsOutAt(before: Option<int>, own: seq<Event>): Option<int> {
    if own == [] then before
    else
      var last := own[|own| - 1];
      if last.Beat? then Some(last.now + last.ttlMs) else None
  }

  lemma {:induction false} OneMoreOwn(before: Option<int>, e: Event, own: seq<Event>)
    ensures RunsOutAt(before, [e] + own) == RunsOutAt(if e.Beat? then Some(e.now + e.ttlMs) else None, own)
  {
    if own != [] {
      assert ([e] + own)[|own|] == own[|own| - 1];
    }
  }

  /** One event changes when a token runs out only if it is the token's own. */
  lemma TokenAfter(roles: Roles, e: Event, role: string, token: string, before: Option<int>, later: int)
    requires e.now <= later
    requires forall t | e.now <= t :: IsRunning(TokensOf(roles, role), token, t) <==> before.Some? && before.value > t
    ensures var next := if IsOwn(e, role, token) then if e.Beat? then Some(e.now + e.ttlMs) else None else before;
      forall t | later <= t :: IsRunning(TokensOf(MemoryAfter(roles, e), role), token, t)
        <==> next.Some? && next.value > t
  {
    if e.role == role {
      OwnTokens(roles, e);
    } else {
      OtherTokens(roles, e, role);
    }
    hide MemoryAfter;
    forall t | later <= t
      ensures var next := if IsOwn(e, role, token) then if e.Beat? then Some(e.now + e.ttlMs) else None else before;
        IsRunning(TokensOf(MemoryAfter(roles, e), role), token, t) <==> next.Some? && next.value > t
    {
      assert IsRunning(TokensOf(roles, role), token, t) <==> before.Some? && before.value > t;
    }
  }

  /** A worker's heartbeat depends on its own events alone, whatever other workers and inspections do in between. */
  lemma {:induction false} OthersDoNotMatter(roles: Roles, events: seq<Event>, role: string, token: string,
                                             before: Option<int>, from: int, now: int)
    requires InTime(events, from) && from <= now && (events != [] ==> TimeOf(events[|events| - 1]) <= now)
    requires forall t | from <= t :: IsRunning(TokensOf(roles, role), token, t) <==> before.Some? && before.value > t
    ensures IsRunning(TokensOf(MemoryRun(roles, events), role), token, now)
      <==> RunsOutAt(before, Own(events, role, token)).Some? && RunsOutAt(before, Own(events, role, token)).value > now
    decreases |events|
  {
    hide MemoryAfter, IsRunning, RunsOutAt, TokensOf;
    if events == [] {
      NoOwn(before);
    } else {
      var e, rest := events[0], events[1..];
      assert forall i | 0 <= i < |rest| :: rest[i] == events[i + 1];
      assert rest != [] ==> rest[|rest| - 1] == events[|events| - 1];
      TokenAfter(roles, e, role, token, before, e.now);
      if IsOwn(e, role, token) {
        OneMoreOwn(before, e, Own(rest, role, token));
        var next := if e.Beat? then Some(e.now + e.ttlMs) else None;
        OthersDoNotMatter(MemoryAfter(roles, e), rest, role, token, next, e.now, now);
      } else {
        assert [] + Own(rest, role, token) == Own(rest, role, token);
        OthersDoNotMatter(MemoryAfter(roles, e), rest, role, token, before, e.now, now);
      }
    }
  }

  lemma NoOwn(before: Option<int>)
    ensures RunsOutAt(before, []) == before
  {
  }

  function TickTime(start: int, intervalMs: nat, k: nat): (time: int)
    ensures time == start + k * intervalMs
  {
    if k == 0 then start else TickTime(start, intervalMs, k - 1) + intervalMs
  }

  /** The beats of a running worker: one at each tick that succeeded. */
  function Ticks(role: string, token: string, ttlMs: nat, start: int, intervalMs: nat,
                 succeeded: seq<bool>): seq<Event> {
    if succeeded == [] then []
    else
      var k := |succeeded| - 1;
      Ticks(role, token, ttlMs, start, intervalMs, succeeded[..k])
      + if succeeded[k] then [Event.Beat(role, token, ttlMs, TickTime(start, intervalMs, k))] else []
  }

  /** After some first success no two consecutive ticks fail. */
  ghost predicate NeverFailsTwice(succeeded: seq<bool>) {
    exists first :: 0 <= first < |succeeded| && succeeded[first] && forall k | first < k < |succeeded| ::
      succeeded[k] || succeeded[k - 1]
  }

  lemma TicksRunOut(role: string, token: string, ttlMs: nat, start: int, intervalMs: nat, succeeded: seq<bool>,
                    before: Option<int>)
    requires NeverFailsTwice(succeeded)
    ensures var n := |succeeded|;
      var end := RunsOutAt(before, Ticks(role, token, ttlMs, start, intervalMs, succeeded));
      end.Some? && end.value + 2 * intervalMs >= TickTime(start, intervalMs, n) + ttlMs
  {
    var n := |succeeded|;
    var first :| 0 <= first < n && succeeded[first] && forall k | first < k < n :: succeeded[k] || succeeded[k - 1];
    if !succeeded[n - 1] {
      assert succeeded[n - 2];
      assert succeeded[..n - 1][n - 2];
      var front := Ticks(role, token, ttlMs, start, intervalMs, succeeded[..n - 1]);
      assert front + [] == front;
    }
  }

  /**
    A worker whose time to live exceeds two intervals stays visible from its first successful beat on, as long as no two
    consecutive beats fail, whatever the other workers do: every inspection before the next tick counts it.
   */
  lemma WorkerStaysVisible(events: seq<Event>, role: string, token: string, ttlMs: nat, start: int, intervalMs: nat,
                           succeeded: seq<bool>, from: int, now: int)
    requires InTime(events, from) && from <= now && (events != [] ==> TimeOf(events[|events| - 1]) <= now)
    requires Own(events, role, token) == Ticks(role, token, ttlMs, start, intervalMs, succeeded)
      && NeverFailsTwice(succeeded)
    requires ttlMs > 2 * intervalMs && now < TickTime(start, intervalMs, |succeeded|)
    ensures token in Active(TokensOf(MemoryRun(map[], events), role), now)
  {
    OthersDoNotMatter(map[], events, role, token, None, from, now);
    TicksRunOut(role, token, ttlMs, start, intervalMs, succeeded, None);
  }

  /** The same through Redis, when all workers use close times to live. */
  lemma WorkerStaysVisibleInRedis(events: seq<Event>, role: string, token: string, ttlMs: nat, start: int,
                                  intervalMs: nat, succeeded: seq<bool>, ttls: set<nat>, now: int)
    requires InTime(events, 0) && 0 <= now && (events != [] ==> TimeOf(events[|events| - 1]) <= now)
    requires Own(events, role, token) == Ticks(role, token, ttlMs, start, intervalMs, succeeded)
      && NeverFailsTwice(succeeded)
    requires ttlMs > 2 * intervalMs && now < TickTime(start, intervalMs, |succeeded|)
    requires Uses(events, ttls) && AreClose(ttls)
    ensures token in Active(Scores(RedisRun(map[], events), role, now), now)
  {
    hide Own, Ticks, NeverFailsTwice, InTime, Uses, AreClose, MemoryRun, RedisRun, TickTime, Active, InStep;
    WorkerStaysVisible(events, role, token, ttlMs, start, intervalMs, succeeded, 0, now);
    EmptyInStep(ttls);
    RunInStep(map[], map[], events, ttls, 0, now);
  }
}
