/**
  Starting and stopping one worker's heartbeat (src/system/worker-heartbeat.js:240-312): every `await` is a step
  boundary, and callers, the timer and the store interleave freely.
 */
module HeartbeatLifecycle {
  /** A beat on its way to the store: whether it has taken effect there. */
  datatype Pending = Idle | InFlight(landed: bool)

  /**
    The variables of the closure; the intervals that run (`handle` says whether the newest can still be cleared); the
    calls of `start` that await a beat or are about to set their interval; the calls of `stop` that await a beat, have
    sent their release, or have its reply; and whether the store lists the worker.
   */
  datatype World = World(
    started: bool, stopping: bool, pending: Pending, handle: bool, timers: nat,
    starting: nat, ready: nat, waiting: nat, releasing: nat, released: nat, listed: bool)

  datatype Action = Start | StartResumes | Tick | Beat | Land | Settle | Stop | ReleaseLands | StopResumes

  const INITIAL := World(false, false, Idle, false, 0, 0, 0, 0, 0, 0, false)

  /** `beat()`: nothing while stopping, and one beat at a time. */
  function Beaten(w: World): World {
    if w.stopping || w.pending != Idle then w else w.(pending := InFlight(false))
  }

  predicate Enabled(w: World, a: Action) {
    match a
    case StartResumes => w.ready > 0
    case Tick => w.timers > 0
    case Land => w.pending == InFlight(false)
    case Settle => w.pending != Idle
    case ReleaseLands => w.releasing > 0
    case StopResumes => w.released > 0
    case _ => true
  }

  /** A settled beat resumes every call that awaits it; what a stop does next is to send its release. */
  function Step(w: World, a: Action): World
    requires Enabled(w, a)
  {
    match a
    case Start => if w.started then w else Beaten(w.(started := true, stopping := false)).(starting := w.starting + 1)
    case StartResumes => w.(ready := w.ready - 1, timers := w.timers + 1, handle := true)
    case Tick => Beaten(w)
    case Beat => Beaten(w)
    case Land => w.(pending := InFlight(true), listed := true)
    case Settle => w.(pending := Idle, starting := 0, ready := w.ready + w.starting, waiting := 0,
                      releasing := w.releasing + w.waiting)
    case Stop =>
      if !w.started then w
      else
        var timers := if w.handle && w.timers > 0 then w.timers - 1 else w.timers;
        var cleared := w.(stopping := true, timers := timers, handle := false);
        if w.pending == Idle then cleared.(releasing := w.releasing + 1) else cleared.(waiting := w.waiting + 1)
    case ReleaseLands => w.(releasing := w.releasing - 1, released := w.released + 1, listed := false)
    case StopResumes => w.(released := w.released - 1, started := false)
  }

  datatype Run = Run(worlds: seq<World>, actions: seq<Action>)

  ghost predicate IsRun(w: World, r: Run) {
    && |r.worlds| == |r.actions| + 1 && r.worlds[0] == w
    && forall i | 0 <= i < |r.actions| :: IsStep(r, i)
  }

  ghost predicate IsStep(r: Run, i: nat)
    requires i < |r.actions| && |r.worlds| == |r.actions| + 1
  {
    Enabled(r.worlds[i], r.actions[i]) && r.worlds[i + 1] == Step(r.worlds[i], r.actions[i])
  }

  function Last(r: Run): World
    requires r.worlds != []
  {
    r.worlds[|r.worlds| - 1]
  }

  function With(r: Run, a: Action): Run
    requires r.worlds != [] && Enabled(Last(r), a)
  {
    Run(r.worlds + [Step(Last(r), a)], r.actions + [a])
  }

  lemma Extend(w: World, r: Run, a: Action)
    requires IsRun(w, r) && Enabled(Last(r), a)
    ensures IsRun(w, With(r, a)) && Last(With(r, a)) == Step(Last(r), a)
  {
    hide Step, Enabled;
    var more := With(r, a);
    forall i | 0 <= i < |more.actions|
      ensures IsStep(more, i)
    {
      if i < |r.actions| {
        assert IsStep(r, i);
      }
    }
  }

  predicate IsStopping(w: World) {
    w.waiting + w.releasing + w.released > 0
  }

  predicate IsStarting(w: World) {
    w.starting + w.ready > 0
  }

  // --------------------------------------------------------------------------------- the two hazards

  /** A start takes effect before every stop has returned. */
  predicate StartsUnderStop(w: World, a: Action) {
    a == Start && !w.started && IsStopping(w)
  }

  /** A stop takes effect before every start has returned. */
  predicate StopsUnderStart(w: World, a: Action) {
    a == Stop && w.started && IsStarting(w)
  }

  ghost predicate NeverStartsUnderStop(r: Run)
    requires |r.worlds| == |r.actions| + 1
  {
    forall k | 0 <= k < |r.actions| :: !StartsUnderStop(r.worlds[k], r.actions[k])
  }

  ghost predicate NeverStopsUnderStart(r: Run)
    requires |r.worlds| == |r.actions| + 1
  {
    forall k | 0 <= k < |r.actions| :: !StopsUnderStart(r.worlds[k], r.actions[k])
  }

  // ---------------------------------------------------------------------------- letting calls return

  /** No further call of `start` or `stop`. */
  ghost predicate IsQuiet(actions: seq<Action>) {
    forall i | 0 <= i < |actions| :: actions[i] != Start && actions[i] != Stop
  }

  predicate IsAtRest(w: World) {
    !IsStopping(w) && !IsStarting(w)
  }

  /** Calls await only a beat that is on its way. */
  predicate IsSane(w: World) {
    (w.starting + w.waiting > 0 ==> w.pending != Idle) && (w.handle ==> w.timers > 0)
  }

  lemma StepIsSane(w: World, a: Action)
    requires IsSane(w) && Enabled(w, a)
    ensures IsSane(Step(w, a))
  {
  }

  lemma {:induction false} SaneAlways(r: Run, n: nat)
    requires IsRun(INITIAL, r) && n < |r.worlds|
    ensures IsSane(r.worlds[n])
  {
    if n > 0 {
      SaneAlways(r, n - 1);
      assert IsStep(r, n - 1);
      StepIsSane(r.worlds[n - 1], r.actions[n - 1]);
    }
  }

  function Work(w: World): nat {
    (if w.pending == Idle then 0 else 1) + 2 * w.starting + w.ready + 3 * w.waiting + 2 * w.releasing + w.released
  }

  /** What is left once every pending call of `v` has returned. */
  ghost predicate HasReturned(v: World, u: World) {
    && IsAtRest(u) && u.pending == Idle && u.stopping == v.stopping
    && u.timers == v.timers + v.starting + v.ready
    && u.started == (v.started && !IsStopping(v))
  }

  function NextReturn(w: World): Action {
    if w.pending != Idle then Settle
    else if w.ready > 0 then StartResumes
    else if w.releasing > 0 then ReleaseLands
    else StopResumes
  }

  lemma OneReturns(w: World)
    requires IsSane(w) && Work(w) > 0
    ensures Enabled(w, NextReturn(w))
    ensures var n := Step(w, NextReturn(w));
      Work(n) < Work(w) && IsSane(n) && forall u | HasReturned(n, u) :: HasReturned(w, u)
  {
  }

  lemma {:induction false} AllReturn(w: World, r: Run) returns (q: Run)
    requires IsRun(w, r) && IsQuiet(r.actions) && IsSane(Last(r))
    ensures IsRun(w, q) && IsQuiet(q.actions) && HasReturned(Last(r), Last(q))
    decreases Work(Last(r))
  {
    if Work(Last(r)) == 0 {
      q := r;
    } else {
      OneReturns(Last(r));
      Extend(w, r, NextReturn(Last(r)));
      hide Step, Enabled, HasReturned, Work, IsSane;
      q := AllReturn(w, With(r, NextReturn(Last(r))));
    }
  }

  // ------------------------------------------------------------------------------ a worker that is lost

  /** Everybody has returned, `stop` does nothing any more, and an interval keeps the worker listed. */
  predicate IsLost(w: World) {
    IsAtRest(w) && !w.started && !w.stopping && w.timers > 0 && w.listed
  }

  ghost predicate CanBeLost(w: World) {
    exists q :: IsRun(w, q) && IsQuiet(q.actions) && IsLost(Last(q))
  }

  /** A start is behind us that a pending stop will undo, or has undone. */
  predicate IsUndone(w: World) {
    !w.stopping && w.timers + w.starting + w.ready > 0 && (IsStopping(w) || !w.started)
  }

  lemma {:induction false} OnlyUndoneAreLost(w: World, q: Run, n: nat)
    requires IsRun(w, q) && IsQuiet(q.actions) && n < |q.worlds| && IsUndone(q.worlds[n])
    ensures IsUndone(w)
  {
    if n > 0 {
      assert IsStep(q, n - 1);
      OnlyUndoneAreLost(w, q, n - 1);
    }
  }

  /** From here a worker can be lost without any further call exactly when a start is undone by a stop. */
  lemma CanBeLostExactly(w: World)
    requires IsSane(w)
    ensures CanBeLost(w) <==> IsUndone(w)
  {
    if q :| IsRun(w, q) && IsQuiet(q.actions) && IsLost(Last(q)) {
      OnlyUndoneAreLost(w, q, |q.worlds| - 1);
    }
    if IsUndone(w) {
      var r := Run([w], []);
      var q := AllReturn(w, r);
      hide IsSane, IsUndone;
      Extend(w, q, Tick);
      Extend(w, With(q, Tick), Land);
      Extend(w, With(With(q, Tick), Land), Settle);
      assert IsLost(Last(With(With(With(q, Tick), Land), Settle)));
    }
  }

  /** Without the hazard: a stop that is pending keeps the worker stopping, and nothing is undone. */
  predicate IsOrderly(w: World) {
    && (IsStopping(w) ==> w.stopping)
    && (!w.stopping && !w.started ==> w.timers + w.starting + w.ready == 0)
    && (w.stopping && w.started ==> IsStopping(w))
    && (w.stopping ==> (w.waiting == 0 <==> w.pending == Idle))
    && (w.waiting > 0 ==> w.releasing + w.released == 0 && w.started)
    && (w.stopping && (w.released > 0 || !w.started) ==> !w.listed)
  }

  lemma StepIsOrderly(w: World, a: Action)
    requires IsOrderly(w) && Enabled(w, a) && !StartsUnderStop(w, a)
    ensures IsOrderly(Step(w, a))
  {
  }

  lemma {:induction false} OrderlyAlways(r: Run, n: nat)
    requires IsRun(INITIAL, r) && n < |r.worlds| && forall k | 0 <= k < n :: !StartsUnderStop(r.worlds[k], r.actions[k])
    ensures IsOrderly(r.worlds[n])
  {
    if n > 0 {
      OrderlyAlways(r, n - 1);
      assert IsStep(r, n - 1);
      StepIsOrderly(r.worlds[n - 1], r.actions[n - 1]);
    }
  }

  /**
    Whatever the interleaving, stops that overlap included, as long as no start takes effect under a pending stop: once
    a stop has returned, and until the next start, the worker is not listed and no beat is on its way to the store.
   */
  lemma StoppedStaysUnlisted(r: Run, n: nat)
    requires IsRun(INITIAL, r) && NeverStartsUnderStop(r) && n < |r.worlds|
    ensures var w := r.worlds[n]; w.stopping && !w.started ==> !w.listed && w.pending == Idle
  {
    OrderlyAlways(r, n);
  }

  /**
    A run leads nowhere from where the worker can be lost exactly when no start in it takes effect under a pending stop.
   */
  lemma LostExactly(r: Run)
    requires IsRun(INITIAL, r)
    ensures NeverStartsUnderStop(r) <==> forall n | 0 <= n < |r.worlds| :: !CanBeLost(r.worlds[n])
  {
    hide CanBeLost, Step, Enabled;
    forall n: nat | n < |r.worlds|
      ensures CanBeLost(r.worlds[n]) <==> IsUndone(r.worlds[n])
      ensures NeverStartsUnderStop(r) ==> !IsUndone(r.worlds[n])
    {
      SaneAlways(r, n);
      CanBeLostExactly(r.worlds[n]);
      if NeverStartsUnderStop(r) {
        OrderlyAlways(r, n);
      }
    }
    if k :| 0 <= k < |r.actions| && StartsUnderStop(r.worlds[k], r.actions[k]) {
      assert IsStep(r, k);
      HazardUndoes(r.worlds[k]);
      assert IsUndone(r.worlds[k + 1]);
    }
  }

  lemma HazardUndoes(w: World)
    requires StartsUnderStop(w, Start)
    ensures IsUndone(Step(w, Start))
  {
  }

  lemma Append(r: Run, a: Action, w: World) returns (more: Run)
    requires IsRun(INITIAL, r) && Last(r) == w && Enabled(w, a)
    ensures IsRun(INITIAL, more) && more.worlds != [] && Last(more) == Step(w, a) && more.actions == r.actions + [a]
  {
    Extend(INITIAL, r, a);
    more := With(r, a);
  }

  const FIRST_BEAT := [Start, Land, Settle, StartResumes]

  lemma FirstBeat(r: Run, w: World) returns (more: Run)
    requires IsRun(INITIAL, r) && Last(r) == w
    requires !w.started && w.pending == Idle && w.starting == w.ready == w.waiting == 0
    ensures IsRun(INITIAL, more) && more.actions == r.actions + FIRST_BEAT
    ensures Last(more) == w.(started := true, stopping := false, listed := true, timers := w.timers + 1, handle := true)
  {
    hide IsRun, Last;
    var w1 := Step(w, Start);
    var w2 := Step(w1, Land);
    var w3 := Step(w2, Settle);
    more := Append(r, Start, w);
    more := Append(more, Land, w1);
    more := Append(more, Settle, w2);
    more := Append(more, StartResumes, w3);
    hide Step;
    assert r.actions + [Start] + [Land] + [Settle] + [StartResumes] == r.actions + FIRST_BEAT;
  }

  const TWO_STOPS := [Stop, Stop, ReleaseLands, ReleaseLands, StopResumes]

  /** `b` follows from `a` by one action. */
  predicate Leads(a: World, action: Action, b: World) {
    Enabled(a, action) && Step(a, action) == b
  }

  /** A started worker with one interval. */
  const RUNNING := World(true, false, Idle, true, 1, 0, 0, 0, 0, 0, true)

  lemma TwoStopsLead()
    ensures var w := RUNNING.(stopping := true, handle := false, timers := 0);
      && Leads(RUNNING, Stop, w.(releasing := 1)) && Leads(w.(releasing := 1), Stop, w.(releasing := 2))
      && Leads(w.(releasing := 2), ReleaseLands, w.(releasing := 1, released := 1, listed := false))
      && Leads(w.(releasing := 1, released := 1, listed := false), ReleaseLands, w.(released := 2, listed := false))
      && Leads(w.(released := 2, listed := false), StopResumes, w.(started := false, released := 1, listed := false))
  {
  }

  lemma TwoStops(r: Run) returns (more: Run)
    requires IsRun(INITIAL, r) && Last(r) == RUNNING
    ensures IsRun(INITIAL, more) && more.actions == r.actions + TWO_STOPS
    ensures Last(more) == RUNNING.(started := false, stopping := true, handle := false, timers := 0, released := 1,
                                   listed := false)
  {
    TwoStopsLead();
    hide IsRun, Last, Step, Enabled, RUNNING;
    var w := RUNNING.(stopping := true, handle := false, timers := 0);
    more := Append(r, Stop, RUNNING);
    more := Append(more, Stop, w.(releasing := 1));
    more := Append(more, ReleaseLands, w.(releasing := 2));
    more := Append(more, ReleaseLands, w.(releasing := 1, released := 1, listed := false));
    more := Append(more, StopResumes, w.(released := 2, listed := false));
    hide Leads;
    assert r.actions + [Stop] + [Stop] + [ReleaseLands] + [ReleaseLands] + [StopResumes] == r.actions + TWO_STOPS;
  }

  /** Two stops overlap; the first returns, the worker is started again, and the second stop undoes that start. */
  lemma OverlappingStopsLoseTheWorker() returns (r: Run)
    ensures IsRun(INITIAL, r) && r.actions == FIRST_BEAT + TWO_STOPS + FIRST_BEAT + [StopResumes]
    ensures IsLost(Last(r)) && Step(Last(r), Stop) == Last(r)
  {
    hide FIRST_BEAT, TWO_STOPS;
    r := Run([INITIAL], []);
    r := FirstBeat(r, INITIAL);
    r := TwoStops(r);
    r := FirstBeat(r, RUNNING.(started := false, stopping := true, handle := false, timers := 0, released := 1,
                               listed := false));
    r := Append(r, StopResumes, RUNNING.(released := 1));
  }

  /** The exported `beat` lists a worker that was never started, and no stop takes it off the list. */
  lemma BeatBeforeStartLists() returns (r: Run)
    ensures IsRun(INITIAL, r) && r.actions == [Beat, Land, Settle]
    ensures Last(r).listed && !Last(r).started && Step(Last(r), Stop) == Last(r) && Last(r).timers == 0
  {
    assert Leads(INITIAL, Beat, INITIAL.(pending := InFlight(false)));
    assert Leads(INITIAL.(pending := InFlight(false)), Land, INITIAL.(pending := InFlight(true), listed := true));
    r := Run([INITIAL], []);
    hide Step, Enabled, INITIAL;
    r := Append(r, Beat, INITIAL);
    r := Append(r, Land, INITIAL.(pending := InFlight(false)));
    r := Append(r, Settle, INITIAL.(pending := InFlight(true), listed := true));
  }

  // ------------------------------------------------------------------------------- leaked intervals

  /** Everybody has returned, and more intervals run than a started worker's one. */
  predicate HasLeak(w: World) {
    IsAtRest(w) && w.timers > if w.started then 1 else 0
  }

  ghost predicate CanLeak(w: World) {
    exists q :: IsRun(w, q) && IsQuiet(q.actions) && HasLeak(Last(q))
  }

  /** At most one interval runs or is about to, it can be cleared, and none outlives its worker. */
  predicate HasOneTimer(w: World) {
    && w.timers + w.starting + w.ready <= 1 && (w.handle <==> w.timers == 1)
    && (!w.started || IsStopping(w) ==> w.timers + w.starting + w.ready == 0)
  }

  lemma StepKeepsOneTimer(w: World, a: Action)
    requires HasOneTimer(w) && Enabled(w, a) && !StartsUnderStop(w, a) && !StopsUnderStart(w, a)
    ensures HasOneTimer(Step(w, a))
  {
  }

  /**
    While no start takes effect under a stop and no stop under a start, at most one interval runs, and none after a
    stop.
   */
  lemma {:induction false} AtMostOneTimer(w: World, r: Run, n: nat)
    requires HasOneTimer(w) && IsRun(w, r) && n < |r.worlds| && NeverStartsUnderStop(r) && NeverStopsUnderStart(r)
    ensures HasOneTimer(r.worlds[n]) && r.worlds[n].timers <= 1 && (!r.worlds[n].started ==> r.worlds[n].timers == 0)
  {
    if n > 0 {
      AtMostOneTimer(w, r, n - 1);
      assert IsStep(r, n - 1);
      StepKeepsOneTimer(r.worlds[n - 1], r.actions[n - 1]);
    }
  }

  lemma CannotLeak(w: World)
    requires HasOneTimer(w)
    ensures !CanLeak(w)
  {
    if q :| IsRun(w, q) && IsQuiet(q.actions) && HasLeak(Last(q)) {
      assert NeverStartsUnderStop(q) && NeverStopsUnderStart(q);
      AtMostOneTimer(w, q, |q.worlds| - 1);
    }
  }

  /** Right after either hazard: a stop is pending, and so is an interval that it does not see. */
  lemma HazardLeaks(w: World, a: Action)
    requires IsSane(w) && (StartsUnderStop(w, a) || StopsUnderStart(w, a))
    ensures CanLeak(Step(w, a))
  {
    var v := Step(w, a);
    var r := Run([v], []);
    StepIsSane(w, a);
    assert IsStopping(v) && v.starting + v.ready > 0;
    var q := AllReturn(v, r);
    assert HasLeak(Last(q));
  }

  /** A run leads nowhere from where an interval can leak exactly when neither hazard occurs in it. */
  lemma LeaksExactly(r: Run)
    requires IsRun(INITIAL, r)
    ensures NeverStartsUnderStop(r) && NeverStopsUnderStart(r)
      <==> forall n | 0 <= n < |r.worlds| :: !CanLeak(r.worlds[n])
  {
    hide CanLeak, Step, Enabled, HasOneTimer;
    if NeverStartsUnderStop(r) && NeverStopsUnderStart(r) {
      forall n: nat | n < |r.worlds|
        ensures !CanLeak(r.worlds[n])
      {
        AtMostOneTimer(INITIAL, r, n) by {
          StartsWithNone();
        }
        CannotLeak(r.worlds[n]);
      }
    } else {
      var k :| 0 <= k < |r.actions| && (StartsUnderStop(r.worlds[k], r.actions[k])
                                        || StopsUnderStart(r.worlds[k], r.actions[k]));
      assert IsStep(r, k);
      SaneAlways(r, k);
      HazardLeaks(r.worlds[k], r.actions[k]);
      assert CanLeak(r.worlds[k + 1]);
    }
  }

  lemma StartsWithNone()
    ensures HasOneTimer(INITIAL)
  {
  }

  lemma StopAwaitsTheBeat()
    ensures var w := World(true, true, Idle, false, 0, 0, 0, 0, 0, 0, false);
      && Leads(INITIAL, Start, w.(stopping := false, pending := InFlight(false), starting := 1))
      && Leads(w.(stopping := false, pending := InFlight(false), starting := 1), Stop,
               w.(pending := InFlight(false), starting := 1, waiting := 1))
      && Leads(w.(pending := InFlight(false), starting := 1, waiting := 1), Settle, w.(ready := 1, releasing := 1))
  {
  }

  lemma IntervalOutlivesTheStop()
    ensures var w := World(true, true, Idle, false, 0, 0, 0, 0, 0, 0, false);
      && Leads(w.(ready := 1, releasing := 1), StartResumes, w.(timers := 1, handle := true, releasing := 1))
      && Leads(w.(timers := 1, handle := true, releasing := 1), ReleaseLands,
               w.(timers := 1, handle := true, released := 1))
      && Leads(w.(timers := 1, handle := true, released := 1), StopResumes,
               w.(started := false, timers := 1, handle := true))
  {
  }

  /** A stop during the first beat leaves an interval behind, which the start sets after the stop. */
  lemma StopDuringStartLeaksATimer() returns (r: Run)
    ensures IsRun(INITIAL, r) && r.actions == [Start, Stop, Settle, StartResumes, ReleaseLands, StopResumes]
    ensures HasLeak(Last(r)) && !Last(r).started && Last(r).timers == 1
  {
    StopAwaitsTheBeat();
    IntervalOutlivesTheStop();
    r := Run([INITIAL], []);
    hide Step, Enabled, INITIAL;
    var w := World(true, true, Idle, false, 0, 0, 0, 0, 0, 0, false);
    r := Append(r, Start, INITIAL);
    r := Append(r, Stop, w.(stopping := false, pending := InFlight(false), starting := 1));
    r := Append(r, Settle, w.(pending := InFlight(false), starting := 1, waiting := 1));
    r := Append(r, StartResumes, w.(ready := 1, releasing := 1));
    r := Append(r, ReleaseLands, w.(timers := 1, handle := true, releasing := 1));
    r := Append(r, StopResumes, w.(timers := 1, handle := true, released := 1));
  }
}
