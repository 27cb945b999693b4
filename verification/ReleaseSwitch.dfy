/**
  Switching the current release on POSIX (src/system/atomic-release.js:22-29, 382-501) as a machine over file-system
  operations: any number of processes, and a crash possible between any two operations.
 */
module ReleaseSwitch {
  import opened Options
  import opened ReleasePreflight

  /** What `current` is: nothing, a symbolic link to one release, or something else that every activation refuses. */
  datatype Link = Absent | To(id: string) | Foreign

  /** The content of `deployment-state.json` that matters. */
  datatype State = State(current: string, previous: Option<string>)

  datatype Phase =
    | Started | ManifestVerified | MarkerVerified
    | Resolved(previous: Option<string>) | Linked(previous: Option<string>)
    | Switched(previous: Option<string>) | Written(previous: Option<string>)
    | Finished | Failed | Crashed

  datatype Process = Process(target: string, expected: Option<string>, phase: Phase)

  /** What happened, in order; kept to state what the files mean. */
  datatype Event =
    | ManifestPassed(pid: nat, id: string)
    | MarkerPassed(pid: nat, id: string)
    | LinkRead(pid: nat, previous: Option<string>)
    | LinkSwitched(pid: nat, id: string, previous: Option<string>, before: Link)
    | StateRecorded(pid: nat, id: string, previous: Option<string>)
    | Interrupted(pid: nat)
    | Changed(id: string, directory: Directory)
    | Removed(id: string)

  type Releases = map<string, Directory>

  /** The release directories with all their contents, the link, the state file and the processes; `reader` is fixed. */
  datatype World = World(
    reader: Reader, releases: Releases, current: Link, state: Option<State>,
      processes: map<nat, Process>, log: seq<Event>)

  datatype Action =
    | Begin(pid: nat, target: string, expected: Option<string>)
    | VerifyManifest(pid: nat)
    | VerifyMarker(pid: nat)
    | ResolveCurrent(pid: nat)
    | MakeLink(pid: nat)
    | RenameLink(pid: nat)
    | WriteState(pid: nat)
    | RenameState(pid: nat)
    | Crash(pid: nat)
    | SetRelease(id: string, directory: Directory)
    | RemoveRelease(id: string)

  predicate IsLive(phase: Phase) {
    !phase.Finished? && !phase.Failed? && !phase.Crashed?
  }

  predicate IsAt(w: World, pid: nat, phase: Phase) {
    pid in w.processes && w.processes[pid].phase == phase
  }

  predicate HasSwitched(phase: Phase) {
    phase.Switched? || phase.Written?
  }

  /** The link before a switch, as `resolveCurrentReleaseId` reports it. */
  function AsLink(previous: Option<string>): Link {
    if previous.Some? then To(previous.value) else Absent
  }

  predicate Enabled(w: World, a: Action) {
    match a
    case Begin(pid, _, _) => pid !in w.processes
    case VerifyManifest(pid) => IsAt(w, pid, Started)
    case VerifyMarker(pid) => IsAt(w, pid, ManifestVerified)
    case ResolveCurrent(pid) => IsAt(w, pid, MarkerVerified)
    case MakeLink(pid) => pid in w.processes && w.processes[pid].phase.Resolved?
    case RenameLink(pid) => pid in w.processes && w.processes[pid].phase.Linked?
    case WriteState(pid) => pid in w.processes && w.processes[pid].phase.Switched?
    case RenameState(pid) => pid in w.processes && w.processes[pid].phase.Written?
    case Crash(pid) => pid in w.processes && IsLive(w.processes[pid].phase)
    case SetRelease(_, _) => true
    // Cleaning up spares the current release and releases being activated.
    case RemoveRelease(id) =>
      && w.current != To(id)
      && forall pid | pid in w.processes && IsLive(w.processes[pid].phase) :: w.processes[pid].target != id
  }

  function Moved(w: World, pid: nat, phase: Phase): World
    requires pid in w.processes
  {
    w.(processes := w.processes[pid := w.processes[pid].(phase := phase)])
  }

  function Logged(w: World, e: Event): World {
    w.(log := w.log + [e])
  }

  /** The checks against the current release, after it is resolved. */
  function ResolvedPhase(w: World, p: Process): Phase {
    var id := if w.current.To? then Some(w.current.id) else None;
    if w.current.Foreign? || (p.expected.Some? && id != p.expected) || id == Some(p.target) then Failed
      else Resolved(id)
  }

  function Step(w: World, a: Action): World
    requires Enabled(w, a)
  {
    match a
    case Begin(pid, target, expected) => w.(processes := w.processes[pid := Process(target, expected, Started)])
    case VerifyManifest(pid) =>
      var id := w.processes[pid].target;
      if id in w.releases && ManifestPasses(w.releases[id], id, w.reader)
        then Logged(Moved(w, pid, ManifestVerified), ManifestPassed(pid, id))
      else Moved(w, pid, Failed)
    case VerifyMarker(pid) =>
      var id := w.processes[pid].target;
      if id in w.releases && MarkerPasses(w.releases[id], id, w.reader)
        then Logged(Moved(w, pid, MarkerVerified), MarkerPassed(pid, id))
      else Moved(w, pid, Failed)
    case ResolveCurrent(pid) =>
      var phase := ResolvedPhase(w, w.processes[pid]);
      if phase.Resolved? then Logged(Moved(w, pid, phase), LinkRead(pid, phase.previous)) else Moved(w, pid, phase)
    case MakeLink(pid) => Moved(w, pid, Linked(w.processes[pid].phase.previous))
    case RenameLink(pid) =>
      var p := w.processes[pid];
      Logged(Moved(w, pid, Switched(p.phase.previous)),
             LinkSwitched(pid, p.target, p.phase.previous, w.current)).(current := To(p.target))
    case WriteState(pid) => Moved(w, pid, Written(w.processes[pid].phase.previous))
    case RenameState(pid) =>
      var p := w.processes[pid];
      Logged(Moved(w, pid, Finished),
             StateRecorded(pid, p.target, p.phase.previous)).(state := Some(State(p.target, p.phase.previous)))
    case Crash(pid) =>
      var crashed := Moved(w, pid, Crashed);
      if HasSwitched(w.processes[pid].phase) then Logged(crashed, Interrupted(pid)) else crashed
    case SetRelease(id, directory) => Logged(w, Changed(id, directory)).(releases := w.releases[id := directory])
    case RemoveRelease(id) => Logged(w, Removed(id)).(releases := w.releases - {id})
  }

  ghost predicate IsInitial(w: World) {
    w.processes == map[] && w.log == [] && (w.current.To? ==> w.current.id in w.releases)
  }

  /** All the actions can be taken in turn. */
  predicate Runs(w: World, actions: seq<Action>)
    decreases |actions|
  {
    actions == [] || (Enabled(w, actions[0]) && Runs(Step(w, actions[0]), actions[1..]))
  }

  function Final(w: World, actions: seq<Action>): World
    requires Runs(w, actions)
    decreases |actions|
  {
    if actions == [] then w else Final(Step(w, actions[0]), actions[1..])
  }

  // -------------------------------------------------------------------- the link is always a good release

  /** The last release the link was switched to, or what it was at first. */
  function LinkAfter(start: Link, log: seq<Event>): Link {
    if log == [] then start
    else if log[|log| - 1].LinkSwitched? then To(log[|log| - 1].id)
    else LinkAfter(start, log[..|log| - 1])
  }

  function StateAfter(start: Option<State>, log: seq<Event>): Option<State> {
    if log == [] then start
    else if log[|log| - 1].StateRecorded? then Some(State(log[|log| - 1].id, log[|log| - 1].previous))
    else StateAfter(start, log[..|log| - 1])
  }

  /** The release directories after what happened. */
  function ReleasesAfter(start: Releases, log: seq<Event>): Releases {
    if log == [] then start
    else
      var before := ReleasesAfter(start, log[..|log| - 1]);
      match log[|log| - 1]
      case Changed(id, directory) => before[id := directory]
      case Removed(id) => before - {id}
      case _ => before
  }

  predicate HasVerified(phase: Phase) {
    !phase.Started? && !phase.Failed? && !phase.Crashed?
  }

  /** Every check in the log was passed by the release as it was at that moment. */
  ghost predicate ChecksWerePassed(r: Reader, start: Releases, log: seq<Event>) {
    forall k | 0 <= k < |log| :: IsPassed(r, ReleasesAfter(start, log[..k]), log[k])
  }

  predicate IsPassed(r: Reader, releases: Releases, e: Event) {
    match e
    case ManifestPassed(_, id) => id in releases && ManifestPasses(releases[id], id, r)
    case MarkerPassed(_, id) => id in releases && MarkerPasses(releases[id], id, r)
    case LinkSwitched(_, id, _, _) => id in releases
    case _ => true
  }

  /** Each switch comes after its own process saw the manifest and the marker of that release pass. */
  ghost predicate SwitchesAreVerified(log: seq<Event>) {
    forall k | 0 <= k < |log| && log[k].LinkSwitched? ::
      && (exists i :: 0 <= i < k && log[i] == ManifestPassed(log[k].pid, log[k].id))
      && (exists j :: 0 <= j < k && log[j] == MarkerPassed(log[k].pid, log[k].id))
  }

  ghost predicate LinkExists(w: World) {
    w.current.To? ==> w.current.id in w.releases
  }

  ghost predicate TargetsExist(w: World) {
    forall pid | pid in w.processes && HasVerified(w.processes[pid].phase) && !w.processes[pid].phase.Finished? ::
      w.processes[pid].target in w.releases
  }

  ghost predicate ChecksAreLogged(w: World) {
    forall pid | pid in w.processes && HasVerified(w.processes[pid].phase) ::
      && ManifestPassed(pid, w.processes[pid].target) in w.log
      && (w.processes[pid].phase.ManifestVerified? || MarkerPassed(pid, w.processes[pid].target) in w.log)
  }

  ghost predicate IsSafe(w: World, start: Releases) {
    && LinkExists(w) && TargetsExist(w) && ChecksAreLogged(w) && SwitchesAreVerified(w.log)
    && w.releases == ReleasesAfter(start, w.log) && ChecksWerePassed(w.reader, start, w.log)
  }

  lemma PassedAppend(r: Reader, start: Releases, log: seq<Event>, e: Event)
    requires ChecksWerePassed(r, start, log) && IsPassed(r, ReleasesAfter(start, log), e)
    ensures ChecksWerePassed(r, start, log + [e])
  {
    hide IsPassed;
    var more := log + [e];
    forall k | 0 <= k < |more|
      ensures IsPassed(r, ReleasesAfter(start, more[..k]), more[k])
    {
      if k < |log| {
        assert more[..k] == log[..k] && more[k] == log[k];
      } else {
        assert more[..k] == log;
      }
    }
  }

  lemma ReportIsPassed(w: World, a: Action)
    requires Enabled(w, a) && TargetsExist(w) && Reported(w, a) != []
    ensures IsPassed(w.reader, w.releases, Reported(w, a)[0])
  {
    hide ManifestPasses, MarkerPasses;
  }

  lemma VerifiedAppend(log: seq<Event>, e: Event)
    requires SwitchesAreVerified(log)
    requires e.LinkSwitched? ==> ManifestPassed(e.pid, e.id) in log && MarkerPassed(e.pid, e.id) in log
    ensures SwitchesAreVerified(log + [e])
  {
    var more := log + [e];
    forall k | 0 <= k < |more| && more[k].LinkSwitched?
      ensures (exists i :: 0 <= i < k && more[i] == ManifestPassed(more[k].pid, more[k].id))
      ensures (exists j :: 0 <= j < k && more[j] == MarkerPassed(more[k].pid, more[k].id))
    {
      if k < |log| {
        var i :| 0 <= i < k && log[i] == ManifestPassed(log[k].pid, log[k].id);
        var j :| 0 <= j < k && log[j] == MarkerPassed(log[k].pid, log[k].id);
        assert more[i] == log[i] && more[j] == log[j];
      } else {
        var i :| 0 <= i < |log| && log[i] == ManifestPassed(e.pid, e.id);
        var j :| 0 <= j < |log| && log[j] == MarkerPassed(e.pid, e.id);
        assert more[i] == log[i] && more[j] == log[j];
      }
    }
  }

  /** The only event an operation can log. */
  function Reported(w: World, a: Action): seq<Event>
    requires Enabled(w, a)
  {
    match a
    case VerifyManifest(pid) =>
      var id := w.processes[pid].target;
      if id in w.releases && ManifestPasses(w.releases[id], id, w.reader) then [ManifestPassed(pid, id)] else []
    case VerifyMarker(pid) =>
      var id := w.processes[pid].target;
      if id in w.releases && MarkerPasses(w.releases[id], id, w.reader) then [MarkerPassed(pid, id)] else []
    case ResolveCurrent(pid) =>
      var phase := ResolvedPhase(w, w.processes[pid]);
      if phase.Resolved? then [LinkRead(pid, phase.previous)] else []
    case RenameLink(pid) => [LinkSwitched(pid, w.processes[pid].target, w.processes[pid].phase.previous, w.current)]
    case RenameState(pid) => [StateRecorded(pid, w.processes[pid].target, w.processes[pid].phase.previous)]
    case Crash(pid) => if HasSwitched(w.processes[pid].phase) then [Interrupted(pid)] else []
    case SetRelease(id, directory) => [Changed(id, directory)]
    case RemoveRelease(id) => [Removed(id)]
    case _ => []
  }

  lemma StepReports(w: World, a: Action)
    requires Enabled(w, a)
    ensures Step(w, a).log == w.log + Reported(w, a) && |Reported(w, a)| <= 1
    ensures Step(w, a).current == LinkAfter(w.current, Reported(w, a))
    ensures Step(w, a).state == StateAfter(w.state, Reported(w, a))
    ensures Step(w, a).releases == ReleasesAfter(w.releases, Reported(w, a)) && Step(w, a).reader == w.reader
    ensures Step(w, a).current != w.current ==> a.RenameLink?
  {
    hide ManifestPasses, MarkerPasses;
    if Reported(w, a) != [] {
      var e := Reported(w, a)[0];
      assert Reported(w, a) == [e] && [e][..0] == [];
    }
  }

  lemma StepKeepsTargets(w: World, a: Action)
    requires TargetsExist(w) && LinkExists(w) && Enabled(w, a)
    ensures TargetsExist(Step(w, a)) && LinkExists(Step(w, a))
  {
  }

  lemma StepKeepsChecks(w: World, a: Action)
    requires ChecksAreLogged(w) && Enabled(w, a)
    ensures ChecksAreLogged(Step(w, a))
  {
    var v := Step(w, a);
    StepReports(w, a);
    hide Step;
    forall pid | pid in v.processes && HasVerified(v.processes[pid].phase)
      ensures ManifestPassed(pid, v.processes[pid].target) in v.log
      ensures v.processes[pid].phase.ManifestVerified? || MarkerPassed(pid, v.processes[pid].target) in v.log
    {
      ProcessStep(w, a, pid);
    }
  }

  /** How one operation changes the phase of a process. */
  lemma ProcessStep(w: World, a: Action, pid: nat)
    requires Enabled(w, a) && pid in Step(w, a).processes
    ensures var q := Step(w, a).processes[pid];
      if pid in w.processes then
        var p := w.processes[pid];
        && q.target == p.target && q.expected == p.expected
        && (q.phase == p.phase
            || q.phase.Failed? || q.phase.Crashed?
            || (p.phase.Started? && q.phase.ManifestVerified? && Reported(w, a) == [ManifestPassed(pid, p.target)])
            || (p.phase.ManifestVerified? && q.phase.MarkerVerified? && Reported(w, a) == [MarkerPassed(pid, p.target)])
            || (HasVerified(p.phase) && !p.phase.ManifestVerified? && HasVerified(q.phase)
                && !q.phase.ManifestVerified?))
      else q.phase.Started?
  {
  }

  /** One operation keeps the link good. */
  lemma StepIsSafe(w: World, a: Action, start: Releases)
    requires IsSafe(w, start) && Enabled(w, a)
    ensures IsSafe(Step(w, a), start)
  {
    StepKeepsTargets(w, a);
    StepKeepsChecks(w, a);
    StepReports(w, a);
    var r := Reported(w, a);
    if r != [] {
      SwitchReported(w, a);
      ReportIsPassed(w, a);
    }
    hide Step, SwitchesAreVerified, ChecksWerePassed, IsPassed, LinkExists, ChecksAreLogged, TargetsExist,
         ReleasesAfter, Reported;
    AfterAppend(Absent, None, start, w.log, r);
    if r == [] {
      assert w.log + [] == w.log;
      NothingAfter(Absent, None, w.releases);
    } else {
      assert r == [r[0]];
      VerifiedAppend(w.log, r[0]);
      PassedAppend(w.reader, start, w.log, r[0]);
    }
  }

  lemma SwitchReported(w: World, a: Action)
    requires ChecksAreLogged(w) && Enabled(w, a) && Reported(w, a) != []
    ensures var e := Reported(w, a)[0];
      e.LinkSwitched? ==> ManifestPassed(e.pid, e.id) in w.log && MarkerPassed(e.pid, e.id) in w.log
  {
  }

  lemma {:induction false} AfterAppend(start: Link, state: Option<State>, releases: Releases, a: seq<Event>,
                                       b: seq<Event>)
    ensures ReleasesAfter(releases, a + b) == ReleasesAfter(ReleasesAfter(releases, a), b)
    ensures LinkAfter(start, a + b) == LinkAfter(LinkAfter(start, a), b)
    ensures StateAfter(state, a + b) == StateAfter(StateAfter(state, a), b)
  {
    if b == [] {
      assert a + b == a;
    } else {
      AfterAppend(start, state, releases, a, b[..|b| - 1]);
      assert (a + b)[..|a + b| - 1] == a + b[..|b| - 1];
    }
  }

  /**
    Over every run from a sound start, with any processes and crashes: the link never dangles, once present it stays
    present, it is the release of the last switch, and every switch was preceded by its own process's two checks, which
    the release then passed. The state file is the one of the last recorded activation.
   */
  lemma {:induction false} LinkIsAlwaysGood(w: World, actions: seq<Action>, start: Releases)
    requires IsSafe(w, start) && Runs(w, actions)
    ensures var v := Final(w, actions);
      && IsSafe(v, start) && w.log <= v.log && v.reader == w.reader
      && v.current == LinkAfter(w.current, v.log[|w.log|..])
      && v.state == StateAfter(w.state, v.log[|w.log|..])
    ensures w.current != Absent ==> Final(w, actions).current != Absent
    ensures w.current == Foreign && Final(w, actions).current != Foreign ==> exists k ::
      0 <= k < |actions| && actions[k].RenameLink?
    decreases |actions|
  {
    hide IsSafe, Step, Enabled, LinkAfter, StateAfter, ReleasesAfter;
    if actions == [] {
      assert w.log[|w.log|..] == [];
      NothingAfter(w.current, w.state, start);
    } else {
      var n := Step(w, actions[0]);
      StepIsSafe(w, actions[0], start);
      StepReports(w, actions[0]);
      hide Reported;
      LinkIsAlwaysGood(n, actions[1..], start);
      var v := Final(w, actions);
      assert n.log[|w.log|..] == Reported(w, actions[0]);
      assert v.log[|w.log|..] == n.log[|w.log|..] + v.log[|n.log|..];
      AfterAppend(w.current, w.state, start, n.log[|w.log|..], v.log[|n.log|..]);
      NeverAbsent(w.current, v.log[|w.log|..]);
      if n.current != w.current {
        assert actions[0].RenameLink?;
      } else if k :| 0 <= k < |actions[1..]| && actions[1..][k].RenameLink? {
        assert actions[k + 1].RenameLink?;
      }
    }
  }

  lemma NothingAfter(start: Link, state: Option<State>, releases: Releases)
    ensures LinkAfter(start, []) == start && StateAfter(state, []) == state && ReleasesAfter(releases, []) == releases
  {
  }

  lemma {:induction false} NeverAbsent(start: Link, log: seq<Event>)
    ensures start != Absent ==> LinkAfter(start, log) != Absent
  {
    if log != [] {
      NeverAbsent(start, log[..|log| - 1]);
    }
  }

  // ------------------------------------------------------- does the release still verify when switched to?

  /** The last time a release was changed or removed in a stretch of the log. */
  function LastChange(log: seq<Event>, id: string): (e: Option<Event>)
    ensures e.Some? ==> e.value == Removed(id) || (e.value.Changed? && e.value.id == id)
  {
    if log == [] then None
    else
      var last := log[|log| - 1];
      if last == Removed(id) || (last.Changed? && last.id == id) then Some(last) else LastChange(log[..|log| - 1], id)
  }

  /** A release that was changed was last changed to one whose manifest verifies; so for its marker. */
  predicate LeavesManifest(log: seq<Event>, id: string, r: Reader) {
    var e := LastChange(log, id);
    e.Some? ==> e.value.Changed? && ManifestPasses(e.value.directory, id, r)
  }

  predicate LeavesMarker(log: seq<Event>, id: string, r: Reader) {
    var e := LastChange(log, id);
    e.Some? ==> e.value.Changed? && MarkerPasses(e.value.directory, id, r)
  }

  lemma {:induction false} ReleaseAfter(start: Releases, log: seq<Event>, id: string)
    ensures var e, after := LastChange(log, id), ReleasesAfter(start, log);
      && (e.None? ==> (id in after <==> id in start) && (id in after ==> after[id] == start[id]))
      && (e.Some? ==> (id in after <==> e.value.Changed?) && (id in after ==> after[id] == e.value.directory))
  {
    if log != [] {
      ReleaseAfter(start, log[..|log| - 1], id);
    }
  }

  /**
    The release a switch names passes each check at that moment exactly when whoever changed it last after its process's
    check left it passing; so it does when nobody changed it in between.
   */
  lemma SwitchedReleasePassesExactly(w: World, start: Releases, k: nat) returns (i: nat, j: nat)
    requires IsSafe(w, start) && k < |w.log| && w.log[k].LinkSwitched?
    ensures i < k && w.log[i] == ManifestPassed(w.log[k].pid, w.log[k].id)
    ensures j < k && w.log[j] == MarkerPassed(w.log[k].pid, w.log[k].id)
    ensures var id, releases := w.log[k].id, ReleasesAfter(start, w.log[..k]);
      && id in releases
      && (ManifestPasses(releases[id], id, w.reader) <==> LeavesManifest(w.log[i..k], id, w.reader))
      && (MarkerPasses(releases[id], id, w.reader) <==> LeavesMarker(w.log[j..k], id, w.reader))
  {
    hide ManifestPasses, MarkerPasses, LinkExists, TargetsExist, ChecksAreLogged, ReleasesAfter, LastChange;
    var pid, id := w.log[k].pid, w.log[k].id;
    i :| 0 <= i < k && w.log[i] == ManifestPassed(pid, id);
    j :| 0 <= j < k && w.log[j] == MarkerPassed(pid, id);
    assert IsPassed(w.reader, ReleasesAfter(start, w.log[..i]), w.log[i]);
    assert IsPassed(w.reader, ReleasesAfter(start, w.log[..j]), w.log[j]);
    assert IsPassed(w.reader, ReleasesAfter(start, w.log[..k]), w.log[k]);
    FromTo(start, w.log, i, k, id);
    FromTo(start, w.log, j, k, id);
  }

  lemma FromTo(start: Releases, log: seq<Event>, i: nat, k: nat, id: string)
    requires i <= k <= |log|
    ensures var e, before, after := LastChange(log[i..k], id), ReleasesAfter(start, log[..i]),
      ReleasesAfter(start, log[..k]);
      && (e.None? ==> (id in after <==> id in before) && (id in after ==> after[id] == before[id]))
      && (e.Some? ==> (id in after <==> e.value.Changed?) && (id in after ==> after[id] == e.value.directory))
  {
    hide ReleasesAfter, LastChange;
    assert log[..k] == log[..i] + log[i..k];
    AfterAppend(Absent, None, start, log[..i], log[i..k]);
    ReleaseAfter(ReleasesAfter(start, log[..i]), log[i..k], id);
  }

  // ----------------------------------------------------------------- one activation at a time

  ghost predicate NobodyIsLive(w: World) {
    forall pid | pid in w.processes :: !IsLive(w.processes[pid].phase)
  }

  ghost predicate IsAlone(w: World) {
    forall p, q | p in w.processes && q in w.processes && IsLive(w.processes[p].phase)
      && IsLive(w.processes[q].phase) :: p == q
  }

  /** An activation begins only when no other is under way; interrupted ones are not. */
  ghost predicate RunsInTurn(w: World, actions: seq<Action>)
    decreases |actions|
  {
    actions == []
    || (Enabled(w, actions[0]) && (actions[0].Begin? ==> NobodyIsLive(w))
        && RunsInTurn(Step(w, actions[0]), actions[1..]))
  }

  lemma {:induction false} InTurnRuns(w: World, actions: seq<Action>)
    requires RunsInTurn(w, actions)
    ensures Runs(w, actions)
    decreases |actions|
  {
    hide Step, Enabled, NobodyIsLive;
    if actions != [] {
      InTurnRuns(Step(w, actions[0]), actions[1..]);
    }
  }

  /** Switches since the state was last recorded. */
  function Lag(log: seq<Event>): nat {
    if log == [] || log[|log| - 1].StateRecorded? then 0
    else Lag(log[..|log| - 1]) + if log[|log| - 1].LinkSwitched? then 1 else 0
  }

  /** Activations interrupted between their switch and their record, since the state was last recorded. */
  function Interruptions(log: seq<Event>): nat {
    if log == [] || log[|log| - 1].StateRecorded? then 0
    else Interruptions(log[..|log| - 1]) + if log[|log| - 1].Interrupted? then 1 else 0
  }

  function LastSwitch(log: seq<Event>): (e: Option<Event>)
    ensures e.Some? ==> e.value.LinkSwitched?
  {
    if log == [] then None
    else if log[|log| - 1].LinkSwitched? then Some(log[|log| - 1])
    else LastSwitch(log[..|log| - 1])
  }

  lemma OneMoreEvent(log: seq<Event>, e: Event)
    ensures Lag(log + [e]) == if e.StateRecorded? then 0 else Lag(log) + if e.LinkSwitched? then 1 else 0
    ensures Interruptions(log + [e]) == if e.StateRecorded? then 0
      else Interruptions(log) + if e.Interrupted? then 1 else 0
    ensures LastSwitch(log + [e]) == if e.LinkSwitched? then Some(e) else LastSwitch(log)
  {
    assert (log + [e])[..|log|] == log;
  }

  ghost predicate IsInFlight(w: World) {
    exists pid :: pid in w.processes && HasSwitched(w.processes[pid].phase)
  }

  /** What a live process knows is true: the previous release it read, and that the last switch is its own. */
  ghost predicate KnowsTheLink(w: World, pid: nat)
    requires pid in w.processes
  {
    var p := w.processes[pid];
    && ((p.phase.Resolved? || p.phase.Linked?) ==>
          AsLink(p.phase.previous) == w.current && p.phase.previous != Some(p.target)
          && (p.expected.Some? ==> p.phase.previous == p.expected))
    && (HasSwitched(p.phase) ==>
          LastSwitch(w.log) == Some(LinkSwitched(pid, p.target, p.phase.previous, AsLink(p.phase.previous))))
  }

  /** The state file names the last switch, or nothing was switched yet. */
  ghost predicate StateNamesLastSwitch(w: World, start: Option<State>) {
    var last := LastSwitch(w.log);
    if last.None? then w.state == start else w.state == Some(State(last.value.id, last.value.previous))
  }

  ghost predicate PreviousIsTrue(log: seq<Event>) {
    forall k | 0 <= k < |log| && log[k].LinkSwitched? :: log[k].before == AsLink(log[k].previous)
  }

  ghost predicate InOrder(w: World, start: Option<State>) {
    && IsAlone(w)
    && Lag(w.log) == Interruptions(w.log) + (if IsInFlight(w) then 1 else 0)
    && (forall pid | pid in w.processes :: KnowsTheLink(w, pid))
    && (Lag(w.log) == 0 ==> StateNamesLastSwitch(w, start))
    && PreviousIsTrue(w.log)
  }

  lemma StepIsAlone(w: World, a: Action)
    requires IsAlone(w) && Enabled(w, a) && (a.Begin? ==> NobodyIsLive(w))
    ensures IsAlone(Step(w, a))
  {
  }

  predicate ActsOn(a: Action, pid: nat) {
    !a.SetRelease? && !a.RemoveRelease? && a.pid == pid
  }

  lemma StepKnows(w: World, a: Action, pid: nat)
    requires IsAlone(w) && Enabled(w, a) && (a.Begin? ==> NobodyIsLive(w)) && pid in Step(w, a).processes
    requires pid in w.processes ==> KnowsTheLink(w, pid)
    ensures KnowsTheLink(Step(w, a), pid)
  {
    if ActsOn(a, pid) {
      OwnStepKnows(w, a, pid);
    } else {
      OtherIsOld(w, a, pid);
      OtherStepKnows(w, a, pid);
    }
  }

  lemma OtherIsOld(w: World, a: Action, pid: nat)
    requires Enabled(w, a) && !ActsOn(a, pid) && pid in Step(w, a).processes
    ensures pid in w.processes && Step(w, a).processes[pid] == w.processes[pid]
  {
  }

  lemma LastSwitchStep(w: World, a: Action)
    requires Enabled(w, a)
    ensures LastSwitch(Step(w, a).log) == if a.RenameLink? then Some(Reported(w, a)[0]) else LastSwitch(w.log)
  {
    StepReports(w, a);
    hide LinkAfter, StateAfter, ReleasesAfter, ManifestPasses, MarkerPasses;
    var r := Reported(w, a);
    if r != [] {
      assert r == [r[0]];
      OneMoreEvent(w.log, r[0]);
    } else {
      assert w.log + [] == w.log;
    }
    hide Step, LastSwitch, Lag, Interruptions;
  }

  lemma OwnStepKnows(w: World, a: Action, pid: nat)
    requires Enabled(w, a) && ActsOn(a, pid) && pid in Step(w, a).processes
    requires pid in w.processes ==> KnowsTheLink(w, pid)
    ensures KnowsTheLink(Step(w, a), pid)
  {
    LastSwitchStep(w, a);
    hide LastSwitch, ManifestPasses, MarkerPasses;
  }

  lemma OtherStepKnows(w: World, a: Action, pid: nat)
    requires IsAlone(w) && Enabled(w, a) && !ActsOn(a, pid) && pid in Step(w, a).processes
    requires pid in w.processes && KnowsTheLink(w, pid)
    ensures KnowsTheLink(Step(w, a), pid)
  {
    LastSwitchStep(w, a);
    hide LastSwitch, ManifestPasses, MarkerPasses;
    assert Step(w, a).processes[pid] == w.processes[pid];
    if IsLive(w.processes[pid].phase) {
      assert !a.RenameLink?;
    }
  }

  lemma StepLags(w: World, a: Action, start: Option<State>)
    requires InOrder(w, start) && Enabled(w, a) && (a.Begin? ==> NobodyIsLive(w))
    ensures var v := Step(w, a); Lag(v.log) == Interruptions(v.log) + (if IsInFlight(v) then 1 else 0)
  {
    hide KnowsTheLink, StateNamesLastSwitch, PreviousIsTrue, LinkAfter, StateAfter, ReleasesAfter, ManifestPasses,
         MarkerPasses, Step, IsInFlight, IsAlone, Lag, Interruptions, LastSwitch;
    StepReports(w, a);
    FlightStep(w, a);
    var r := Reported(w, a);
    if r != [] {
      assert r == [r[0]];
      OneMoreEvent(w.log, r[0]);
    } else {
      assert w.log + [] == w.log;
    }
  }

  /** Only a rename of the link takes off, and a record or an interruption lands. */
  lemma FlightStep(w: World, a: Action)
    requires IsAlone(w) && Enabled(w, a)
    ensures a.RenameLink? ==> !IsInFlight(w) && IsInFlight(Step(w, a))
    ensures a.RenameState? ==> IsInFlight(w) && !IsInFlight(Step(w, a))
    ensures a.Crash? && HasSwitched(w.processes[a.pid].phase) ==> IsInFlight(w) && !IsInFlight(Step(w, a))
    ensures (!a.RenameLink? && !a.RenameState? && !(a.Crash? && HasSwitched(w.processes[a.pid].phase))) ==>
      IsInFlight(Step(w, a)) == IsInFlight(w)
  {
    var v := Step(w, a);
    if a.RenameLink? {
      assert HasSwitched(v.processes[a.pid].phase);
    } else if a.RenameState? || (a.Crash? && HasSwitched(w.processes[a.pid].phase)) {
      assert HasSwitched(w.processes[a.pid].phase);
    } else {
      if pid :| pid in w.processes && HasSwitched(w.processes[pid].phase) {
        assert HasSwitched(v.processes[pid].phase);
      }
      if pid :| pid in v.processes && HasSwitched(v.processes[pid].phase) {
        assert HasSwitched(w.processes[pid].phase);
      }
    }
  }

  lemma StepNames(w: World, a: Action, start: Option<State>)
    requires InOrder(w, start) && Enabled(w, a) && (a.Begin? ==> NobodyIsLive(w))
    ensures Lag(Step(w, a).log) == 0 ==> StateNamesLastSwitch(Step(w, a), start)
  {
    StepReports(w, a);
    hide StateAfter, LinkAfter, ReleasesAfter, IsAlone, IsInFlight, ManifestPasses, MarkerPasses, PreviousIsTrue;
    var r := Reported(w, a);
    if r != [] {
      assert r == [r[0]];
      OneMoreEvent(w.log, r[0]);
      hide Lag, Interruptions, LastSwitch;
      if a.RenameState? {
        assert KnowsTheLink(w, a.pid);
      }
    } else {
      assert w.log + [] == w.log;
    }
  }

  lemma StepKeepsPrevious(w: World, a: Action, start: Option<State>)
    requires InOrder(w, start) && Enabled(w, a)
    ensures PreviousIsTrue(Step(w, a).log)
  {
    StepReports(w, a);
    var r := Reported(w, a);
    if a.RenameLink? {
      assert KnowsTheLink(w, a.pid);
    }
    assert r != [] && r[0].LinkSwitched? ==> r[0].before == AsLink(r[0].previous);
    hide Step, Reported, IsAlone, IsInFlight, KnowsTheLink, StateNamesLastSwitch, Lag, Interruptions, LastSwitch;
  }

  lemma StepIsInOrder(w: World, a: Action, start: Option<State>)
    requires InOrder(w, start) && Enabled(w, a) && (a.Begin? ==> NobodyIsLive(w))
    ensures InOrder(Step(w, a), start)
  {
    StepIsAlone(w, a);
    StepLags(w, a, start);
    StepNames(w, a, start);
    StepKeepsPrevious(w, a, start);
    forall pid | pid in Step(w, a).processes
      ensures KnowsTheLink(Step(w, a), pid)
    {
      StepKnows(w, a, pid);
    }
    hide Step, KnowsTheLink, StateNamesLastSwitch, PreviousIsTrue, IsInFlight, Lag, Interruptions, IsAlone;
  }

  /**
    When activations take turns, the state file lags the link by exactly the activations interrupted since it was last
    written, plus the one under way; when it does not lag it names the last switch, whose previous release is the
    link's target just before.
   */
  lemma {:induction false} StateLagsByInterruptions(w: World, actions: seq<Action>, start: Option<State>)
    requires InOrder(w, start) && RunsInTurn(w, actions)
    ensures Runs(w, actions) && InOrder(Final(w, actions), start)
    decreases |actions|
  {
    hide InOrder, Step, Enabled, NobodyIsLive;
    InTurnRuns(w, actions);
    if actions != [] {
      StepIsInOrder(w, actions[0], start);
      StateLagsByInterruptions(Step(w, actions[0]), actions[1..], start);
    }
  }

  lemma InitialIsInOrder(w: World)
    requires IsInitial(w)
    ensures InOrder(w, w.state) && IsSafe(w, w.releases)
  {
  }

  ghost predicate CrashFree(actions: seq<Action>) {
    forall i | 0 <= i < |actions| :: !actions[i].Crash?
  }

  lemma NotInterrupted(w: World, a: Action)
    requires Enabled(w, a) && !a.Crash? && Interruptions(w.log) == 0
    ensures Interruptions(Step(w, a).log) == 0
  {
    StepReports(w, a);
    var r := Reported(w, a);
    assert r != [] ==> !r[0].Interrupted?;
    hide Step, Reported, Enabled, LinkAfter, StateAfter, ReleasesAfter, ManifestPasses, MarkerPasses;
    if r != [] {
      assert r == [r[0]];
      OneMoreEvent(w.log, r[0]);
    } else {
      assert w.log + [] == w.log;
    }
  }

  lemma {:induction false} NoInterruptions(w: World, actions: seq<Action>)
    requires Runs(w, actions) && CrashFree(actions) && Interruptions(w.log) == 0
    ensures Interruptions(Final(w, actions).log) == 0
    decreases |actions|
  {
    hide Step, Enabled, Interruptions;
    if actions != [] {
      NotInterrupted(w, actions[0]);
      NoInterruptions(Step(w, actions[0]), actions[1..]);
    }
  }

  /** Without crashes, once nobody is under way, the link and the state agree on the last switch. */
  lemma WithoutCrashesTheyAgree(w: World, actions: seq<Action>)
    requires IsInitial(w) && RunsInTurn(w, actions) && CrashFree(actions)
    ensures Runs(w, actions)
    ensures var v := Final(w, actions); NobodyIsLive(v) ==>
      match LastSwitch(v.log)
      case None => v.current == w.current && v.state == w.state
      case Some(e) =>
        v.current == To(e.id) && v.state == Some(State(e.id, e.previous)) && e.before == AsLink(e.previous)
  {
    var v := Final(w, actions) by { InTurnRuns(w, actions); }
    InitialIsInOrder(w);
    StateLagsByInterruptions(w, actions, w.state);
    NoInterruptions(w, actions);
    LinkIsAlwaysGood(w, actions, w.releases);
    assert v.log[|w.log|..] == v.log;
    LastSwitchIsLink(w.current, v.log);
    hide IsSafe, Final, Runs, RunsInTurn, LinkAfter, StateAfter, Lag, Interruptions, LastSwitch;
    if LastSwitch(v.log).Some? {
      SwitchIsInLog(v.log);
    }
  }

  lemma {:induction false} LastSwitchIsLink(start: Link, log: seq<Event>)
    ensures LinkAfter(start, log) == if LastSwitch(log).Some? then To(LastSwitch(log).value.id) else start
  {
    if log != [] {
      LastSwitchIsLink(start, log[..|log| - 1]);
    }
  }

  lemma {:induction false} SwitchIsInLog(log: seq<Event>)
    requires LastSwitch(log).Some?
    ensures LastSwitch(log).value in log
  {
    if !log[|log| - 1].LinkSwitched? {
      SwitchIsInLog(log[..|log| - 1]);
    }
  }

  // ------------------------------------------------------------ link and state without crashes, exactly

  function LastRecord(log: seq<Event>): (e: Option<Event>)
    ensures e.Some? ==> e.value.StateRecorded? && e.value in log
  {
    if log == [] then None
    else if log[|log| - 1].StateRecorded? then Some(log[|log| - 1])
    else LastRecord(log[..|log| - 1])
  }

  lemma {:induction false} LastRecordIsState(start: Option<State>, log: seq<Event>)
    ensures var e := LastRecord(log);
      StateAfter(start, log) == if e.Some? then Some(State(e.value.id, e.value.previous)) else start
    ensures LastRecord(log).None? ==> forall e | e in log :: !e.StateRecorded?
  {
    if log != [] {
      LastRecordIsState(start, log[..|log| - 1]);
    }
  }

  ghost predicate HasSwitchOf(log: seq<Event>, pid: nat, id: string, previous: Option<string>) {
    exists before :: LinkSwitched(pid, id, previous, before) in log
  }

  ghost predicate HasRecordOf(log: seq<Event>, pid: nat) {
    exists id, previous :: StateRecorded(pid, id, previous) in log
  }

  /** A process that switched and has not recorded is still at it, or crashed. */
  predicate IsAccounted(w: World, pid: nat, recorded: bool) {
    pid in w.processes && (HasSwitched(w.processes[pid].phase) || w.processes[pid].phase.Crashed?
                           || (w.processes[pid].phase.Finished? && recorded))
  }

  /** Records come from switches of the same process, and switches lead to records. */
  ghost predicate RecordsMatch(w: World) {
    && (forall pid | pid in w.processes && HasSwitched(w.processes[pid].phase) ::
          HasSwitchOf(w.log, pid, w.processes[pid].target, w.processes[pid].phase.previous))
    && (forall e | e in w.log && e.StateRecorded? :: HasSwitchOf(w.log, e.pid, e.id, e.previous))
    && (forall e | e in w.log && e.LinkSwitched? :: IsAccounted(w, e.pid, HasRecordOf(w.log, e.pid)))
  }

  lemma MoreMatches(log: seq<Event>, more: seq<Event>)
    ensures forall pid, id, previous | HasSwitchOf(log, pid, id, previous) :: HasSwitchOf(log + more, pid, id, previous)
    ensures forall pid | HasRecordOf(log, pid) :: HasRecordOf(log + more, pid)
  {
    forall pid, id, previous | HasSwitchOf(log, pid, id, previous)
      ensures HasSwitchOf(log + more, pid, id, previous)
    {
      var before :| LinkSwitched(pid, id, previous, before) in log;
      assert LinkSwitched(pid, id, previous, before) in log + more;
    }
    forall pid | HasRecordOf(log, pid)
      ensures HasRecordOf(log + more, pid)
    {
      var id, previous :| StateRecorded(pid, id, previous) in log;
      assert StateRecorded(pid, id, previous) in log + more;
    }
  }

  /** How one operation moves a process that is about to record, and what it logs for it. */
  lemma SwitchStep(w: World, a: Action, pid: nat)
    requires Enabled(w, a) && pid in Step(w, a).processes && HasSwitched(Step(w, a).processes[pid].phase)
    ensures pid in w.processes && Step(w, a).processes[pid].target == w.processes[pid].target
    ensures var p, q := w.processes[pid], Step(w, a).processes[pid];
      || (HasSwitched(p.phase) && q.phase.previous == p.phase.previous)
      || Reported(w, a) == [LinkSwitched(pid, q.target, q.phase.previous, w.current)]
  {
  }

  lemma AccountedStep(w: World, a: Action, pid: nat, recorded: bool)
    requires Enabled(w, a) && IsAccounted(w, pid, recorded)
    ensures IsAccounted(Step(w, a), pid, recorded
                        || (Reported(w, a) != [] && Reported(w, a)[0].StateRecorded? && Reported(w, a)[0].pid == pid))
  {
  }

  lemma ReportMatches(w: World, a: Action)
    requires Enabled(w, a) && Reported(w, a) != []
    ensures var e := Reported(w, a)[0];
      && (e.StateRecorded? ==> e.pid in w.processes && HasSwitched(w.processes[e.pid].phase)
                               && e.id == w.processes[e.pid].target && e.previous == w.processes[e.pid].phase.previous)
      && (e.LinkSwitched? ==> IsAccounted(Step(w, a), e.pid, false))
  {
  }

  lemma StepKeepsMatch(w: World, a: Action)
    requires RecordsMatch(w) && Enabled(w, a)
    ensures RecordsMatch(Step(w, a))
  {
    hide Step, IsAccounted, Reported, Enabled, LinkAfter, StateAfter, ReleasesAfter, HasSwitchOf, HasRecordOf;
    StepReports(w, a);
    var v, told := Step(w, a), Reported(w, a);
    MoreMatches(w.log, told);
    if told != [] {
      assert told == [told[0]];
      ReportMatches(w, a);
      NewMatches(w.log, told[0]);
    }
    forall pid | pid in v.processes && HasSwitched(v.processes[pid].phase)
      ensures HasSwitchOf(v.log, pid, v.processes[pid].target, v.processes[pid].phase.previous)
    {
      SwitchStep(w, a, pid);
    }
    forall e | e in v.log && e.LinkSwitched?
      ensures IsAccounted(v, e.pid, HasRecordOf(v.log, e.pid))
    {
      if e in w.log {
        AccountedStep(w, a, e.pid, HasRecordOf(w.log, e.pid));
        AccountedMore(v, e.pid, HasRecordOf(v.log, e.pid));
      } else {
        AccountedMore(v, e.pid, HasRecordOf(v.log, e.pid));
      }
    }
  }

  lemma AccountedMore(w: World, pid: nat, recorded: bool)
    ensures IsAccounted(w, pid, false) ==> IsAccounted(w, pid, recorded)
  {
  }

  lemma NewMatches(log: seq<Event>, e: Event)
    ensures e.LinkSwitched? ==> HasSwitchOf(log + [e], e.pid, e.id, e.previous)
    ensures e.StateRecorded? ==> HasRecordOf(log + [e], e.pid)
  {
    assert e in log + [e];
  }

  lemma {:induction false} RunKeepsMatch(w: World, actions: seq<Action>)
    requires RecordsMatch(w) && Runs(w, actions) && CrashFree(actions)
    requires forall pid | pid in w.processes :: !w.processes[pid].phase.Crashed?
    ensures RecordsMatch(Final(w, actions))
    ensures var v := Final(w, actions); forall pid | pid in v.processes :: !v.processes[pid].phase.Crashed?
    decreases |actions|
  {
    if actions != [] {
      StepKeepsMatch(w, actions[0]);
      NobodyCrashed(w, actions[0]);
      hide Step, Enabled, RecordsMatch;
      RunKeepsMatch(Step(w, actions[0]), actions[1..]);
    }
  }

  lemma NobodyCrashed(w: World, a: Action)
    requires Enabled(w, a) && !a.Crash? && forall pid | pid in w.processes :: !w.processes[pid].phase.Crashed?
    ensures var v := Step(w, a); forall pid | pid in v.processes :: !v.processes[pid].phase.Crashed?
  {
  }

  /** At rest without a crash a switch has led to a record, and the last record has its own switch. */
  lemma OwnSwitch(v: World) returns (m: nat)
    requires RecordsMatch(v) && NobodyIsLive(v) && LastSwitch(v.log).Some?
    requires forall pid | pid in v.processes :: !v.processes[pid].phase.Crashed?
    ensures m < |v.log| && v.log[m].LinkSwitched?
    ensures LastRecord(v.log) == Some(StateRecorded(v.log[m].pid, v.log[m].id, v.log[m].previous))
  {
    SwitchIsInLog(v.log);
    LastRecordIsState(None, v.log);
    hide LastSwitch, LastRecord, StateAfter;
    var s := LastSwitch(v.log).value;
    assert IsAccounted(v, s.pid, HasRecordOf(v.log, s.pid));
    assert HasRecordOf(v.log, s.pid);
    var e := LastRecord(v.log).value;
    assert HasSwitchOf(v.log, e.pid, e.id, e.previous);
    var before :| LinkSwitched(e.pid, e.id, e.previous, before) in v.log;
    m :| 0 <= m < |v.log| && v.log[m] == LinkSwitched(e.pid, e.id, e.previous, before);
  }

  lemma {:induction false} LastAfter(log: seq<Event>, m: nat)
    requires m < |log| && log[m].LinkSwitched? && forall k | m < k < |log| :: !log[k].LinkSwitched?
    ensures LastSwitch(log) == Some(log[m])
    decreases |log|
  {
    if m < |log| - 1 {
      LastAfter(log[..|log| - 1], m);
    }
  }

  // ------------------------------------------------------------- what a switch replaces, in every run

  /** The event says the truth about the link at its moment. */
  predicate IsTrueOf(current: Link, e: Event) {
    match e
    case LinkRead(_, previous) => current == AsLink(previous)
    case LinkSwitched(_, _, _, before) => current == before
    case _ => true
  }

  /** Nobody has looked at the link before the two checks, and whoever looked goes by what was seen. */
  ghost predicate GoesByTheRead(w: World, pid: nat)
    requires pid in w.processes
  {
    var p := w.processes[pid];
    && (p.phase.Started? || p.phase.ManifestVerified? || p.phase.MarkerVerified? ==>
          forall previous :: LinkRead(pid, previous) !in w.log)
    && (p.phase.Resolved? || p.phase.Linked? ==>
          LinkRead(pid, p.phase.previous) in w.log && IsAllowed(p, p.phase.previous))
  }

  /** The link's release when it was read is not the target, and is the expected one if one is. */
  predicate IsAllowed(p: Process, previous: Option<string>) {
    previous != Some(p.target) && (p.expected.Some? ==> previous == p.expected)
  }

  ghost predicate FollowsTheRead(w: World, k: nat)
    requires k < |w.log| && w.log[k].LinkSwitched?
  {
    var e := w.log[k];
    && e.pid in w.processes && w.processes[e.pid].target == e.id && IsAllowed(w.processes[e.pid], e.previous)
    && exists i :: 0 <= i < k && w.log[i] == LinkRead(e.pid, e.previous)
  }

  ghost predicate EventsAreTrue(start: Link, log: seq<Event>) {
    forall k | 0 <= k < |log| :: IsTrueOf(LinkAfter(start, log[..k]), log[k])
  }

  ghost predicate ReadersAreKnown(w: World) {
    forall e | e in w.log && e.LinkRead? :: e.pid in w.processes
  }

  ghost predicate ReadOnce(log: seq<Event>) {
    forall i, j | 0 <= i < j < |log| && log[i].LinkRead? && log[j].LinkRead? :: log[i].pid != log[j].pid
  }

  ghost predicate AllFollow(w: World) {
    forall k | 0 <= k < |w.log| && w.log[k].LinkSwitched? :: FollowsTheRead(w, k)
  }

  ghost predicate AllGoByTheRead(w: World) {
    forall pid | pid in w.processes :: GoesByTheRead(w, pid)
  }

  ghost predicate ReadsAreTrue(w: World, start: Link) {
    && w.current == LinkAfter(start, w.log)
    && EventsAreTrue(start, w.log) && ReadersAreKnown(w) && ReadOnce(w.log) && AllGoByTheRead(w) && AllFollow(w)
  }

  lemma StepGoesByTheRead(w: World, a: Action, pid: nat)
    requires Enabled(w, a) && pid in Step(w, a).processes && ReadersAreKnown(w)
    requires pid in w.processes ==> GoesByTheRead(w, pid)
    ensures GoesByTheRead(Step(w, a), pid)
  {
    StepReports(w, a);
    hide LinkAfter, StateAfter, ReleasesAfter, ManifestPasses, MarkerPasses;
    var r := Reported(w, a);
    assert forall e | e in r :: e in w.log + r;
    if !ActsOn(a, pid) {
      OtherIsOld(w, a, pid);
    }
  }

  /** What an operation logs about the link is true, new for its process, and allowed. */
  lemma ReportIsTrue(w: World, a: Action)
    requires Enabled(w, a) && Reported(w, a) != [] && AllGoByTheRead(w)
    ensures var e := Reported(w, a)[0];
      && IsTrueOf(w.current, e)
      && (e.LinkRead? ==> e.pid in w.processes && forall previous :: LinkRead(e.pid, previous) !in w.log)
      && (e.LinkSwitched? ==>
            && e.pid in w.processes && w.processes[e.pid].target == e.id && IsAllowed(w.processes[e.pid], e.previous)
            && LinkRead(e.pid, e.previous) in w.log)
  {
    hide ManifestPasses, MarkerPasses;
    if !a.SetRelease? && !a.RemoveRelease? && !a.Begin? {
      assert GoesByTheRead(w, a.pid);
    }
  }

  /** Processes keep their targets and what they expect. */
  lemma StepKeepsOrders(w: World, a: Action)
    requires Enabled(w, a)
    ensures forall pid | pid in w.processes ::
      && pid in Step(w, a).processes && Step(w, a).processes[pid].target == w.processes[pid].target
      && Step(w, a).processes[pid].expected == w.processes[pid].expected
  {
    hide ManifestPasses, MarkerPasses;
  }

  lemma EventsAppend(start: Link, log: seq<Event>, e: Event)
    requires EventsAreTrue(start, log) && IsTrueOf(LinkAfter(start, log), e)
    ensures EventsAreTrue(start, log + [e])
  {
    hide IsTrueOf, LinkAfter;
    var more := log + [e];
    forall k | 0 <= k < |more|
      ensures IsTrueOf(LinkAfter(start, more[..k]), more[k])
    {
      assert more[..k] == log[..k];
    }
  }

  lemma StepKeepsReads(w: World, a: Action, start: Link)
    requires ReadsAreTrue(w, start) && Enabled(w, a)
    ensures ReadsAreTrue(Step(w, a), start)
  {
    hide Step, Enabled, Reported, GoesByTheRead, IsTrueOf, IsAllowed, FollowsTheRead, EventsAreTrue, ReadersAreKnown,
         ReadOnce, AllGoByTheRead, AllFollow, LinkAfter, StateAfter, ReleasesAfter;
    var v, r := Step(w, a), Reported(w, a);
    StepReports(w, a);
    AfterAppend(start, None, map[], w.log, r);
    StepGoesOn(w, a);
    if r == [] {
      assert w.log + [] == w.log;
    } else {
      ReportIsTrue(w, a);
      assert r == [r[0]];
      EventsAppend(start, w.log, r[0]);
    }
    StepReads(w, a);
    StepFollows(w, a);
  }

  lemma StepGoesOn(w: World, a: Action)
    requires AllGoByTheRead(w) && ReadersAreKnown(w) && Enabled(w, a)
    ensures AllGoByTheRead(Step(w, a))
  {
    hide Step, Enabled, GoesByTheRead, ReadersAreKnown;
    forall pid | pid in Step(w, a).processes
      ensures GoesByTheRead(Step(w, a), pid)
    {
      StepGoesByTheRead(w, a, pid);
    }
  }

  lemma StepReads(w: World, a: Action)
    requires AllGoByTheRead(w) && ReadersAreKnown(w) && ReadOnce(w.log) && Enabled(w, a)
    ensures ReadersAreKnown(Step(w, a)) && ReadOnce(Step(w, a).log)
  {
    hide Step, Enabled, Reported, AllGoByTheRead, IsTrueOf, IsAllowed, LinkAfter, StateAfter, ReleasesAfter;
    var v, r := Step(w, a), Reported(w, a);
    StepReports(w, a);
    StepKeepsOrders(w, a);
    if r != [] {
      ReportIsTrue(w, a);
      assert r == [r[0]];
      forall i, j | 0 <= i < j < |v.log| && v.log[i].LinkRead? && v.log[j].LinkRead?
        ensures v.log[i].pid != v.log[j].pid
      {
        if j == |w.log| {
          assert v.log[i] == LinkRead(v.log[i].pid, v.log[i].previous) && v.log[i] in w.log;
        }
      }
    }
  }

  lemma StepFollows(w: World, a: Action)
    requires AllGoByTheRead(w) && AllFollow(w) && Enabled(w, a)
    ensures AllFollow(Step(w, a))
  {
    hide Step, Enabled, Reported, AllGoByTheRead, IsTrueOf, IsAllowed, FollowsTheRead, LinkAfter, StateAfter,
         ReleasesAfter;
    var v, r := Step(w, a), Reported(w, a);
    StepReports(w, a);
    StepKeepsOrders(w, a);
    if r != [] {
      ReportIsTrue(w, a);
      assert r == [r[0]];
    }
    forall k | 0 <= k < |v.log| && v.log[k].LinkSwitched?
      ensures FollowsTheRead(v, k)
    {
      if k < |w.log| {
        OldFollows(w, v, k);
      } else {
        NewFollows(w, v, k);
      }
    }
  }

  lemma OldFollows(w: World, v: World, k: nat)
    requires k < |w.log| && w.log <= v.log && (w.log[k].LinkSwitched? ==> FollowsTheRead(w, k))
    requires forall pid | pid in w.processes ::
      && pid in v.processes && v.processes[pid].target == w.processes[pid].target
      && v.processes[pid].expected == w.processes[pid].expected
    ensures v.log[k].LinkSwitched? ==> FollowsTheRead(v, k)
  {
    if w.log[k].LinkSwitched? {
      var i :| 0 <= i < k && w.log[i] == LinkRead(w.log[k].pid, w.log[k].previous);
      assert v.log[i] == w.log[i];
    }
  }

  lemma NewFollows(w: World, v: World, k: nat)
    requires k == |w.log| < |v.log| && w.log <= v.log
    requires var e := v.log[k];
      e.LinkSwitched? ==>
        && e.pid in w.processes && w.processes[e.pid].target == e.id && IsAllowed(w.processes[e.pid], e.previous)
        && LinkRead(e.pid, e.previous) in w.log
    requires forall pid | pid in w.processes ::
      && pid in v.processes && v.processes[pid].target == w.processes[pid].target
      && v.processes[pid].expected == w.processes[pid].expected
    ensures v.log[k].LinkSwitched? ==> FollowsTheRead(v, k)
  {
    if v.log[k].LinkSwitched? {
      var i :| 0 <= i < |w.log| && w.log[i] == LinkRead(v.log[k].pid, v.log[k].previous);
      assert v.log[i] == w.log[i];
    }
  }

  lemma {:induction false} RunKeepsReads(w: World, actions: seq<Action>, start: Link)
    requires ReadsAreTrue(w, start) && Runs(w, actions)
    ensures ReadsAreTrue(Final(w, actions), start)
    decreases |actions|
  {
    hide ReadsAreTrue, Step, Enabled;
    if actions != [] {
      StepKeepsReads(w, actions[0], start);
      RunKeepsReads(Step(w, actions[0]), actions[1..], start);
    }
  }

  /** The switch is preceded by its process's one reading of the link. */
  lemma ReadBefore(v: World, start: Link, k: nat) returns (i: nat)
    requires ReadsAreTrue(v, start) && k < |v.log| && v.log[k].LinkSwitched?
    ensures i < k && v.log[i] == LinkRead(v.log[k].pid, v.log[k].previous)
    ensures forall j | 0 <= j < |v.log| && v.log[j].LinkRead? && v.log[j].pid == v.log[k].pid :: j == i
    ensures v.log[k].before == LinkAfter(AsLink(v.log[k].previous), v.log[i..k])
  {
    hide AllGoByTheRead, ReadersAreKnown, LinkAfter;
    assert FollowsTheRead(v, k);
    var e := v.log[k];
    i :| 0 <= i < k && v.log[i] == LinkRead(e.pid, e.previous);
    assert IsTrueOf(LinkAfter(start, v.log[..i]), v.log[i]) && IsTrueOf(LinkAfter(start, v.log[..k]), v.log[k]);
    hide EventsAreTrue, AllFollow;
    assert v.log[..k] == v.log[..i] + v.log[i..k];
    AfterAppend(start, None, map[], v.log[..i], v.log[i..k]);
  }

  /** Between a process's reading of the link and its switch the link was not moved, or back again. */
  predicate IsUndisturbed(between: seq<Event>, previous: Option<string>) {
    var last := LastSwitch(between);
    last.None? || Some(last.value.id) == previous
  }

  predicate LeadsTo(between: seq<Event>, id: string) {
    var last := LastSwitch(between);
    last.Some? && last.value.id == id
  }

  /** Where a process that is about to rename its link read it, and where the link went since. */
  lemma ReadSoFar(v: World, start: Link, pid: nat) returns (i: nat)
    requires ReadsAreTrue(v, start) && Enabled(v, RenameLink(pid))
    ensures var p := v.processes[pid];
      && i < |v.log| && v.log[i] == LinkRead(pid, p.phase.previous) && IsAllowed(p, p.phase.previous)
      && v.current == LinkAfter(AsLink(p.phase.previous), v.log[i..])
  {
    hide AllFollow, ReadOnce, ReadersAreKnown, LinkAfter, IsAllowed;
    assert GoesByTheRead(v, pid);
    var previous := v.processes[pid].phase.previous;
    i :| 0 <= i < |v.log| && v.log[i] == LinkRead(pid, previous);
    assert IsTrueOf(LinkAfter(start, v.log[..i]), v.log[i]);
    hide EventsAreTrue, AllGoByTheRead, GoesByTheRead;
    assert v.log == v.log[..i] + v.log[i..];
    AfterAppend(start, None, map[], v.log[..i], v.log[i..]);
  }

  /**
    Whenever a process is about to rename its link, the link is still what it read, and what its caller expects, exactly
    when its reading is undisturbed; and it already is the target exactly when a switch since then led there.
   */
  lemma SwitchFindsTheExpected(w: World, actions: seq<Action>, pid: nat) returns (i: nat)
    requires IsInitial(w) && Runs(w, actions) && Enabled(Final(w, actions), RenameLink(pid))
    ensures var v := Final(w, actions);
      var p := v.processes[pid];
      var previous := p.phase.previous;
      && i < |v.log| && v.log[i] == LinkRead(pid, previous) && v.current != Foreign
      && (v.current == AsLink(previous) <==> IsUndisturbed(v.log[i..], previous))
      && (p.expected.Some? ==> (v.current == To(p.expected.value) <==> IsUndisturbed(v.log[i..], previous)))
      && (v.current == To(p.target) <==> LeadsTo(v.log[i..], p.target))
  {
    var v := Final(w, actions);
    NothingAfter(w.current, None, map[]);
    RunKeepsReads(w, actions, w.current);
    hide Final, Runs, IsInitial, ReadsAreTrue, LinkAfter, LastSwitch;
    i := ReadSoFar(v, w.current, pid);
    LastSwitchIsLink(AsLink(v.processes[pid].phase.previous), v.log[i..]);
  }

  /**
    In every run, overlaps and crashes included, a switch is preceded by its process's one reading of the link, event
    `i`. It replaces the release that was read, which is recorded as the previous one and is the expected one if one is
    expected, exactly when no switch came in between or the last of them led back to that release. It is to a different
    release exactly when the last of them did not already lead to its target.
   */
  lemma SwitchReplacesExactly(w: World, actions: seq<Action>, k: nat) returns (i: nat)
    requires IsInitial(w) && Runs(w, actions)
    requires k < |Final(w, actions).log| && Final(w, actions).log[k].LinkSwitched?
    ensures var v := Final(w, actions);
      var e := v.log[k];
      && i < k && v.log[i] == LinkRead(e.pid, e.previous)
      && (forall j | 0 <= j < |v.log| && v.log[j].LinkRead? && v.log[j].pid == e.pid :: j == i)
      && (e.before == AsLink(e.previous) <==> IsUndisturbed(v.log[i..k], e.previous))
      && (e.before != To(e.id) <==> !LeadsTo(v.log[i..k], e.id))
      && e.pid in v.processes
      && (v.processes[e.pid].expected.Some? ==>
            (e.before == To(v.processes[e.pid].expected.value) <==> IsUndisturbed(v.log[i..k], e.previous)))
  {
    var v := Final(w, actions);
    NothingAfter(w.current, None, map[]);
    RunKeepsReads(w, actions, w.current);
    hide Final, Runs, IsInitial, LinkAfter, LastSwitch;
    i := ReadBefore(v, w.current, k);
    hide EventsAreTrue, ReadersAreKnown, ReadOnce, AllGoByTheRead;
    assert FollowsTheRead(v, k);
    var e := v.log[k];
    assert IsAllowed(v.processes[e.pid], e.previous);
    hide AllFollow, FollowsTheRead;
    LastSwitchIsLink(AsLink(e.previous), v.log[i..k]);
  }

  /**
    Whatever runs at once, without crashes and once nobody is under way: the state file is the record of the process
    whose switch is event `m`, and it names the current release exactly when the last switch was to the same release, as
    it is when no switch came after `m`; and its previous release is what that switch replaced exactly when the switch
    was undisturbed since its process read the link, event `i`.
   */
  lemma WithoutCrashesTheyAgreeExactly(w: World, actions: seq<Action>) returns (m: nat, i: nat)
    requires IsInitial(w) && Runs(w, actions) && CrashFree(actions)
    requires NobodyIsLive(Final(w, actions)) && LastSwitch(Final(w, actions).log).Some?
    ensures var v := Final(w, actions);
      && m < |v.log| && v.log[m].LinkSwitched? && v.state == Some(State(v.log[m].id, v.log[m].previous))
      && LastRecord(v.log) == Some(StateRecorded(v.log[m].pid, v.log[m].id, v.log[m].previous))
      && (v.current == To(v.state.value.current) <==> LastSwitch(v.log).value.id == v.log[m].id)
      && i < m && v.log[i] == LinkRead(v.log[m].pid, v.log[m].previous)
      && (AsLink(v.state.value.previous) == v.log[m].before <==> IsUndisturbed(v.log[i..m], v.log[m].previous))
      && ((forall k | m < k < |v.log| :: !v.log[k].LinkSwitched?) ==> v.current == To(v.state.value.current))
  {
    var v := Final(w, actions);
    InitialIsInOrder(w);
    LinkIsAlwaysGood(w, actions, w.releases);
    RunKeepsMatch(w, actions);
    assert v.log[|w.log|..] == v.log;
    LastSwitchIsLink(w.current, v.log);
    LastRecordIsState(w.state, v.log);
    hide IsSafe, Final, Runs, RecordsMatch, InOrder, LinkAfter, StateAfter, ReleasesAfter, LastSwitch, LastRecord,
         NobodyIsLive;
    m := OwnSwitch(v);
    i := SwitchReplacesExactly(w, actions, m);
    hide IsUndisturbed, ReadsAreTrue;
    if forall k | m < k < |v.log| :: !v.log[k].LinkSwitched? {
      LastAfter(v.log, m);
    }
  }

  /** In every run, what a switch made current had, at its check, a report in it that every check passed. */
  lemma SwitchedReleaseHadAPassedReport(w: World, actions: seq<Action>, k: nat)
    requires IsInitial(w) && Runs(w, actions)
    requires k < |Final(w, actions).log| && Final(w, actions).log[k].LinkSwitched?
    ensures var log := Final(w, actions).log;
      exists j | 0 <= j < k && log[j] == MarkerPassed(log[k].pid, log[k].id) ::
        log[k].id in ReleasesAfter(w.releases, log[..j])
        && ShowsPassedReport(ReleasesAfter(w.releases, log[..j])[log[k].id], log[k].id, w.reader)
  {
    var log, pid, id := Final(w, actions).log, Final(w, actions).log[k].pid, Final(w, actions).log[k].id;
    LinkIsAlwaysGood(w, actions, w.releases);
    var j :| 0 <= j < k && log[j] == MarkerPassed(pid, id);
    var releases := ReleasesAfter(w.releases, log[..j]);
    assert IsPassed(w.reader, releases, log[j]);
    MarkerNeedsAPassedReport(releases[id], id, w.reader);
  }

  // --------------------------------------------------------------------------- one whole activation

  datatype Refusal = MissingExpected | BadManifest | BadMarker | ForeignLink | Unexpected | AlreadyActive

  datatype Outcome = Activated(state: State) | Refused(reason: Refusal)

  function ActivateOutcome(r: Reader, releases: Releases, current: Link, id: string,
                           expected: Option<string>): Outcome {
    if !(id in releases && ManifestPasses(releases[id], id, r)) then Refused(BadManifest)
    else if !MarkerPasses(releases[id], id, r) then Refused(BadMarker)
    else if current.Foreign? then Refused(ForeignLink)
    else
      var previous := if current.To? then Some(current.id) else None;
      if expected.Some? && previous != expected then Refused(Unexpected)
      else if previous == Some(id) then Refused(AlreadyActive)
      else Activated(State(id, previous))
  }

  /**
    An activation goes through exactly for a release whose manifest and marker pass, when the link is absent or names
    some other release, and the expected one if one is expected; the release's own report then says that every check
    passed.
   */
  lemma ActivatesExactly(r: Reader, releases: Releases, current: Link, id: string, expected: Option<string>)
    ensures var outcome := ActivateOutcome(r, releases, current, id, expected);
      && (outcome.Activated? <==>
            && id in releases && Passes(releases[id], id, r)
            && (current == Absent || (current.To? && current.id != id))
            && (expected.Some? ==> current == To(expected.value)))
      && (outcome.Activated? ==>
            && outcome.state == State(id, if current == Absent then None else Some(current.id))
            && ShowsPassedReport(releases[id], id, r))
  {
    if id in releases {
      MarkerNeedsAPassedReport(releases[id], id, r);
    }
    hide ManifestPasses, MarkerPasses, MarkerIn, HoldsPassedReport, FileAt;
  }

  /** A release whose manifest verifies, but whose marker names no report that every check passed, is refused for it. */
  lemma RefusedWithoutAPassedReport(r: Reader, releases: Releases, current: Link, id: string, expected: Option<string>)
    requires id in releases && ManifestPasses(releases[id], id, r) && !ShowsPassedReport(releases[id], id, r)
    ensures ActivateOutcome(r, releases, current, id, expected) == Refused(BadMarker)
  {
    MarkerNeedsAPassedReport(releases[id], id, r);
    hide ManifestPasses, MarkerPasses, MarkerIn, HoldsPassedReport, FileAt;
  }

  /** The deploy root, as one undisturbed call of the source changes it. */
  class DeployRoot {
    const reader: Reader
    var releases: Releases
    var current: Link
    var state: Option<State>

    constructor (reader: Reader, releases: Releases, current: Link, state: Option<State>)
      ensures this.reader == reader && this.releases == releases && this.current == current && this.state == state
    {
      this.reader, this.releases, this.current, this.state := reader, releases, current, state;
    }

    method ResolveCurrentReleaseId() returns (ok: bool, id: Option<string>)
      ensures ok == !current.Foreign? && (ok ==> AsLink(id) == current)
    {
      match current
      case Absent => ok, id := true, None;
      case Foreign => ok, id := false, None;
      case To(target) => ok, id := true, Some(target);
    }

    method ActivateRelease(id: string, expected: Option<string>) returns (r: Outcome)
      modifies this`current, this`state
      ensures r == ActivateOutcome(reader, releases, old(current), id, expected)
      ensures r.Activated? ==> current == To(id) && state == Some(r.state)
      ensures r.Activated? ==> id in releases && ShowsPassedReport(releases[id], id, reader)
      ensures r.Refused? ==> current == old(current) && state == old(state)
    {
      ActivatesExactly(reader, releases, current, id, expected);
      hide ShowsPassedReport, ManifestPasses, MarkerPasses;
      if id !in releases || !ManifestPasses(releases[id], id, reader) {
        return Refused(BadManifest);
      }
      if !MarkerPasses(releases[id], id, reader) {
        return Refused(BadMarker);
      }
      var ok, currentId := ResolveCurrentReleaseId();
      if !ok {
        return Refused(ForeignLink);
      }
      if expected.Some? && currentId != expected {
        return Refused(Unexpected);
      }
      if currentId == Some(id) {
        return Refused(AlreadyActive);
      }
      var temporaryLink := To(id);
      current := temporaryLink;
      var temporaryState := State(id, currentId);
      state := Some(temporaryState);
      r := Activated(temporaryState);
    }

    method RollbackRelease(id: string, expected: Option<string>) returns (r: Outcome)
      modifies this`current, this`state
      ensures r == if expected.None? then Refused(MissingExpected)
        else ActivateOutcome(reader, releases, old(current), id, expected)
      ensures r.Activated? ==>
        old(current) == To(expected.value) && current == To(id) && state == Some(State(id, expected))
      ensures r.Refused? ==> current == old(current) && state == old(state)
    {
      if expected.None? {
        return Refused(MissingExpected);
      }
      r := ActivateRelease(id, expected);
    }
  }

  /** Rolling an activation back to the release it replaced restores the link, if that release still verifies. */
  lemma RollbackRestores(r: Reader, releases: Releases, current: Link, id: string, expected: Option<string>)
    requires current.To? && ActivateOutcome(r, releases, current, id, expected).Activated?
    ensures ActivateOutcome(r, releases, To(id), current.id, Some(id))
      == if current.id !in releases || !ManifestPasses(releases[current.id], current.id, r) then Refused(BadManifest)
         else if !MarkerPasses(releases[current.id], current.id, r) then Refused(BadMarker)
         else Activated(State(current.id, Some(id)))
  {
    hide ManifestPasses, MarkerPasses;
  }

  /** The operations of one undisturbed call, as far as it gets. */
  function Operations(outcome: Outcome, pid: nat, id: string, expected: Option<string>): seq<Action> {
    match outcome
    case Refused(BadManifest) => [Begin(pid, id, expected), VerifyManifest(pid)]
    case Refused(BadMarker) => [Begin(pid, id, expected), VerifyManifest(pid), VerifyMarker(pid)]
    case Refused(_) => [Begin(pid, id, expected), VerifyManifest(pid), VerifyMarker(pid), ResolveCurrent(pid)]
    case Activated(_) =>
      [Begin(pid, id, expected), VerifyManifest(pid), VerifyMarker(pid), ResolveCurrent(pid), MakeLink(pid),
       RenameLink(pid)]
      + [WriteState(pid), RenameState(pid)]
  }

  lemma {:induction false} RunOne(w: World, a: Action, rest: seq<Action>)
    requires Enabled(w, a)
    ensures Runs(w, [a] + rest) == Runs(Step(w, a), rest)
    ensures Runs(Step(w, a), rest) ==> Final(w, [a] + rest) == Final(Step(w, a), rest)
  {
    hide Step, Enabled;
    assert ([a] + rest)[1..] == rest;
  }

  /** The same world, but with this process and these further events. */
  function With(w: World, pid: nat, p: Process, events: seq<Event>): World {
    w.(processes := w.processes[pid := p], log := w.log + events)
  }

  lemma BeginRuns(w: World, pid: nat, id: string, expected: Option<string>, rest: seq<Action>)
    requires pid !in w.processes
    ensures var v := With(w, pid, Process(id, expected, Started), []);
      var actions := [Begin(pid, id, expected)] + rest;
      Runs(w, actions) == Runs(v, rest) && (Runs(v, rest) ==> Final(w, actions) == Final(v, rest))
  {
    RunOne(w, Begin(pid, id, expected), rest);
    assert w.log + [] == w.log;
  }

  lemma PhaseRuns(w: World, pid: nat, p: Process, events: seq<Event>, a: Action, rest: seq<Action>)
    requires a == VerifyManifest(pid) || a == VerifyMarker(pid) || a == ResolveCurrent(pid) || a == MakeLink(pid)
    requires Enabled(With(w, pid, p, events), a)
    ensures var v := With(w, pid, p, events);
      var n := With(w, pid, p.(phase := Step(v, a).processes[pid].phase), events + Reported(v, a));
      Runs(v, [a] + rest) == Runs(n, rest) && (Runs(n, rest) ==> Final(v, [a] + rest) == Final(n, rest))
  {
    var v := With(w, pid, p, events);
    RunOne(v, a, rest);
    StepReports(v, a);
    assert w.log + events + Reported(v, a) == w.log + (events + Reported(v, a));
    assert Step(v, a).processes == w.processes[pid := p.(phase := Step(v, a).processes[pid].phase)];
  }

  /** Both checks of a release that passes them. */
  lemma ChecksRun(w: World, pid: nat, id: string, expected: Option<string>, rest: seq<Action>)
    requires pid !in w.processes && id in w.releases && Passes(w.releases[id], id, w.reader)
    ensures var v := With(w, pid, Process(id, expected, MarkerVerified),
                          [ManifestPassed(pid, id), MarkerPassed(pid, id)]);
      var actions := [Begin(pid, id, expected), VerifyManifest(pid), VerifyMarker(pid)] + rest;
      Runs(w, actions) == Runs(v, rest) && (Runs(v, rest) ==> Final(w, actions) == Final(v, rest))
  {
    var p := Process(id, expected, Started);
    PhaseRuns(w, pid, p.(phase := ManifestVerified), [ManifestPassed(pid, id)], VerifyMarker(pid), rest);
    PhaseRuns(w, pid, p, [], VerifyManifest(pid), [VerifyMarker(pid)] + rest);
    BeginRuns(w, pid, id, expected, [VerifyManifest(pid)] + ([VerifyMarker(pid)] + rest));
    hide Runs, Final, With;
    assert [] + [ManifestPassed(pid, id)] == [ManifestPassed(pid, id)];
    assert [ManifestPassed(pid, id)] + [MarkerPassed(pid, id)] == [ManifestPassed(pid, id), MarkerPassed(pid, id)];
    assert [Begin(pid, id, expected), VerifyManifest(pid), VerifyMarker(pid)] + rest
        == [Begin(pid, id, expected)] + ([VerifyManifest(pid)] + ([VerifyMarker(pid)] + rest));
  }

  /** From the checks to the new link, not yet renamed. */
  lemma LinkRuns(w: World, pid: nat, p: Process, events: seq<Event>, previous: Option<string>, rest: seq<Action>)
    requires p.phase.MarkerVerified? && ResolvedPhase(w, p) == Resolved(previous)
    ensures var v := With(w, pid, p, events);
      var n := With(w, pid, p.(phase := Linked(previous)), events + [LinkRead(pid, previous)]);
      var actions := [ResolveCurrent(pid), MakeLink(pid)] + rest;
      Runs(v, actions) == Runs(n, rest) && (Runs(n, rest) ==> Final(v, actions) == Final(n, rest))
  {
    var read := events + [LinkRead(pid, previous)];
    assert read + [] == read;
    PhaseRuns(w, pid, p.(phase := Resolved(previous)), read, MakeLink(pid), rest);
    PhaseRuns(w, pid, p, events, ResolveCurrent(pid), [MakeLink(pid)] + rest);
    hide Runs, Final, With;
    assert [ResolveCurrent(pid), MakeLink(pid)] + rest == [ResolveCurrent(pid)] + ([MakeLink(pid)] + rest);
  }

  lemma OneRename(w: World, pid: nat, rest: seq<Action>)
    requires pid in w.processes && w.processes[pid].phase.Linked?
    ensures var p := w.processes[pid];
      var n := w.(processes := w.processes[pid := p.(phase := Switched(p.phase.previous))], current := To(p.target),
                  log := w.log + [LinkSwitched(pid, p.target, p.phase.previous, w.current)]);
      Runs(w, [RenameLink(pid)] + rest) == Runs(n, rest)
      && (Runs(n, rest) ==> Final(w, [RenameLink(pid)] + rest) == Final(n, rest))
  {
    RunOne(w, RenameLink(pid), rest);
  }

  /** From the checks to the renamed link. */
  lemma SwitchRuns(w: World, pid: nat, p: Process, events: seq<Event>, previous: Option<string>, rest: seq<Action>)
    requires p.phase.MarkerVerified? && ResolvedPhase(w, p) == Resolved(previous)
    ensures var v := With(w, pid, p, events);
      var n := With(w, pid, p.(phase := Switched(previous)),
                    events + [LinkRead(pid, previous), LinkSwitched(pid, p.target, previous, w.current)])
               .(current := To(p.target));
      var actions := [ResolveCurrent(pid), MakeLink(pid), RenameLink(pid)] + rest;
      Runs(v, actions) == Runs(n, rest) && (Runs(n, rest) ==> Final(v, actions) == Final(n, rest))
  {
    var read, e := LinkRead(pid, previous), LinkSwitched(pid, p.target, previous, w.current);
    LinkRuns(w, pid, p, events, previous, [RenameLink(pid)] + rest);
    var linked := With(w, pid, p.(phase := Linked(previous)), events + [read]);
    OneRename(linked, pid, rest);
    assert linked.log + [e] == w.log + (events + [read, e]);
    var switched := p.(phase := Switched(previous));
    assert linked.processes[pid := switched] == w.processes[pid := switched];
    hide Runs, Final;
    assert [ResolveCurrent(pid), MakeLink(pid), RenameLink(pid)] + rest
        == [ResolveCurrent(pid), MakeLink(pid)] + ([RenameLink(pid)] + rest);
  }

  lemma RecordRuns(w: World, pid: nat)
    requires pid in w.processes && w.processes[pid].phase.Switched?
    ensures Runs(w, [WriteState(pid), RenameState(pid)])
    ensures var v := Final(w, [WriteState(pid), RenameState(pid)]);
      var p := w.processes[pid];
      && v.current == w.current && v.state == Some(State(p.target, p.phase.previous)) && v.releases == w.releases
         && v.reader == w.reader
      && v.processes == w.processes[pid := p.(phase := Finished)]
      && v.log == w.log + [StateRecorded(pid, p.target, p.phase.previous)]
  {
    var n := Step(w, WriteState(pid));
    assert [RenameState(pid)] + [] == [RenameState(pid)];
    RunOne(n, RenameState(pid), []);
    RunOne(w, WriteState(pid), [RenameState(pid)]);
    assert [WriteState(pid)] + [RenameState(pid)] == [WriteState(pid), RenameState(pid)];
  }

  /** An undisturbed run of the operations changes the link and the state just as the single call does. */
  lemma UndisturbedRunIsTheCall(w: World, pid: nat, id: string, expected: Option<string>)
    requires pid !in w.processes
    ensures var outcome := ActivateOutcome(w.reader, w.releases, w.current, id, expected);
      && Runs(w, Operations(outcome, pid, id, expected))
      && var v := Final(w, Operations(outcome, pid, id, expected));
         && pid in v.processes && v.releases == w.releases
         && (if outcome.Activated? then v.current == To(id) && v.state == Some(outcome.state)
             && v.processes[pid].phase == Finished
             else v.current == w.current && v.state == w.state && v.processes[pid].phase == Failed)
  {
    var outcome := ActivateOutcome(w.reader, w.releases, w.current, id, expected);
    var p := Process(id, expected, Started);
    match outcome
    case Refused(BadManifest) =>
      BeginRuns(w, pid, id, expected, [VerifyManifest(pid)]);
      PhaseRuns(w, pid, p, [], VerifyManifest(pid), []);
      assert [Begin(pid, id, expected)] + [VerifyManifest(pid)] == [Begin(pid, id, expected), VerifyManifest(pid)];
      assert [VerifyManifest(pid)] + [] == [VerifyManifest(pid)];
    case Refused(BadMarker) => MarkerRefused(w, pid, id, expected);
    case Refused(_) => ResolveRefused(w, pid, id, expected);
    case Activated(state) => Activates(w, pid, id, expected, state);
  }

  lemma MarkerRefused(w: World, pid: nat, id: string, expected: Option<string>)
    requires pid !in w.processes && id in w.releases
    requires ManifestPasses(w.releases[id], id, w.reader) && !MarkerPasses(w.releases[id], id, w.reader)
    ensures var actions := [Begin(pid, id, expected), VerifyManifest(pid), VerifyMarker(pid)];
      Runs(w, actions) && Final(w, actions) == With(w, pid, Process(id, expected, Failed), [ManifestPassed(pid, id)])
  {
    var p := Process(id, expected, Started);
    PhaseRuns(w, pid, p.(phase := ManifestVerified), [ManifestPassed(pid, id)], VerifyMarker(pid), []);
    PhaseRuns(w, pid, p, [], VerifyManifest(pid), [VerifyMarker(pid)]);
    BeginRuns(w, pid, id, expected, [VerifyManifest(pid)] + [VerifyMarker(pid)]);
    assert [ManifestPassed(pid, id)] + [] == [ManifestPassed(pid, id)] == [] + [ManifestPassed(pid, id)];
    assert [VerifyMarker(pid)] + [] == [VerifyMarker(pid)];
    assert [Begin(pid, id, expected)] + ([VerifyManifest(pid)] + [VerifyMarker(pid)])
        == [Begin(pid, id, expected), VerifyManifest(pid), VerifyMarker(pid)];
    hide With;
  }

  lemma ResolveRefused(w: World, pid: nat, id: string, expected: Option<string>)
    requires pid !in w.processes && id in w.releases && Passes(w.releases[id], id, w.reader)
    requires ActivateOutcome(w.reader, w.releases, w.current, id, expected).Refused?
    ensures var actions := [Begin(pid, id, expected), VerifyManifest(pid), VerifyMarker(pid), ResolveCurrent(pid)];
      && Runs(w, actions)
      && Final(w, actions) == With(w, pid, Process(id, expected, Failed),
                                   [ManifestPassed(pid, id), MarkerPassed(pid, id)])
  {
    var events := [ManifestPassed(pid, id), MarkerPassed(pid, id)];
    ChecksRun(w, pid, id, expected, [ResolveCurrent(pid)]);
    PhaseRuns(w, pid, Process(id, expected, MarkerVerified), events, ResolveCurrent(pid), []);
    assert events + [] == events && [ResolveCurrent(pid)] + [] == [ResolveCurrent(pid)];
    assert [Begin(pid, id, expected), VerifyManifest(pid), VerifyMarker(pid)] + [ResolveCurrent(pid)]
        == [Begin(pid, id, expected), VerifyManifest(pid), VerifyMarker(pid), ResolveCurrent(pid)];
    hide With;
  }

  /** The world after an activation got as far as the renamed link. */
  function AfterSwitch(w: World, pid: nat, id: string, expected: Option<string>, previous: Option<string>): World {
    With(w, pid, Process(id, expected, Switched(previous)),
         [ManifestPassed(pid, id), MarkerPassed(pid, id), LinkRead(pid, previous),
          LinkSwitched(pid, id, previous, w.current)]).(current := To(id))
  }

  function Switching(pid: nat, id: string, expected: Option<string>): seq<Action> {
    [Begin(pid, id, expected), VerifyManifest(pid), VerifyMarker(pid), ResolveCurrent(pid), MakeLink(pid),
     RenameLink(pid)]
  }

  lemma SwitchingRuns(w: World, pid: nat, id: string, expected: Option<string>, state: State, rest: seq<Action>)
    requires pid !in w.processes && ActivateOutcome(w.reader, w.releases, w.current, id, expected) == Activated(state)
    ensures var n := AfterSwitch(w, pid, id, expected, state.previous);
      && Runs(w, Switching(pid, id, expected) + rest) == Runs(n, rest)
      && (Runs(n, rest) ==> Final(w, Switching(pid, id, expected) + rest) == Final(n, rest))
  {
    var events := [ManifestPassed(pid, id), MarkerPassed(pid, id)];
    var tail := [ResolveCurrent(pid), MakeLink(pid), RenameLink(pid)] + rest;
    var p := Process(id, expected, MarkerVerified);
    ChecksRun(w, pid, id, expected, tail);
    SwitchRuns(w, pid, p, events, state.previous, rest);
    hide Runs, Final, With;
    assert events + [LinkRead(pid, state.previous), LinkSwitched(pid, id, state.previous, w.current)]
        == [ManifestPassed(pid, id), MarkerPassed(pid, id), LinkRead(pid, state.previous),
            LinkSwitched(pid, id, state.previous, w.current)];
    assert Switching(pid, id, expected) + rest
      == [Begin(pid, id, expected), VerifyManifest(pid), VerifyMarker(pid)] + tail;
  }

  lemma Activates(w: World, pid: nat, id: string, expected: Option<string>, state: State)
    requires pid !in w.processes && ActivateOutcome(w.reader, w.releases, w.current, id, expected) == Activated(state)
    ensures var actions := Switching(pid, id, expected) + [WriteState(pid), RenameState(pid)];
      && Runs(w, actions)
      && var v := Final(w, actions);
         && v.current == To(id) && v.state == Some(state) && v.releases == w.releases && v.reader == w.reader
         && v.processes == w.processes[pid := Process(id, expected, Finished)]
         && v.log == w.log + [ManifestPassed(pid, id), MarkerPassed(pid, id), LinkRead(pid, state.previous),
                              LinkSwitched(pid, id, state.previous, w.current),
                              StateRecorded(pid, id, state.previous)]
  {
    SwitchingRuns(w, pid, id, expected, state, [WriteState(pid), RenameState(pid)]);
    var n := AfterSwitch(w, pid, id, expected, state.previous);
    RecordRuns(n, pid);
    assert n.log + [StateRecorded(pid, id, state.previous)]
        == w.log + [ManifestPassed(pid, id), MarkerPassed(pid, id), LinkRead(pid, state.previous),
                    LinkSwitched(pid, id, state.previous, w.current), StateRecorded(pid, id, state.previous)];
  }

  function ChangedAfterChecks(id: string, directory: Directory): seq<Action> {
    [Begin(0, id, None), VerifyManifest(0), VerifyMarker(0)]
    + ([SetRelease(id, directory)] + [ResolveCurrent(0), MakeLink(0), RenameLink(0)])
  }

  /** A release changed between its checks and the rename is switched to all the same, whatever it has become. */
  lemma ChangedReleaseIsSwitchedTo(w: World, id: string, directory: Directory)
    requires w.processes == map[] && w.current == Absent && id in w.releases && Passes(w.releases[id], id, w.reader)
    ensures Runs(w, ChangedAfterChecks(id, directory))
    ensures var v := Final(w, ChangedAfterChecks(id, directory));
      v.current == To(id) && id in v.releases && v.releases[id] == directory
  {
    hide ManifestPasses, MarkerPasses;
    var p, events := Process(id, None, MarkerVerified), [ManifestPassed(0, id), MarkerPassed(0, id)];
    var switch := [ResolveCurrent(0), MakeLink(0), RenameLink(0)];
    ChecksRun(w, 0, id, None, [SetRelease(id, directory)] + switch);
    var checked := With(w, 0, p, events);
    RunOne(checked, SetRelease(id, directory), switch);
    var changed := w.(releases := w.releases[id := directory]);
    assert w.log + events + [Changed(id, directory)] == w.log + (events + [Changed(id, directory)]);
    assert Step(checked, SetRelease(id, directory)) == With(changed, 0, p, events + [Changed(id, directory)]);
    assert switch + [] == switch;
    SwitchRuns(changed, 0, p, events + [Changed(id, directory)], None, []);
  }

  /** An activation as far as its new link, not yet renamed. */
  function Preparing(pid: nat, id: string, expected: Option<string>): seq<Action> {
    [Begin(pid, id, expected), VerifyManifest(pid), VerifyMarker(pid), ResolveCurrent(pid), MakeLink(pid)]
  }

  function Prepared(pid: nat, id: string, previous: Option<string>): seq<Event> {
    [ManifestPassed(pid, id), MarkerPassed(pid, id), LinkRead(pid, previous)]
  }

  lemma PreparingRuns(w: World, pid: nat, id: string, expected: Option<string>, state: State, rest: seq<Action>)
    requires pid !in w.processes && ActivateOutcome(w.reader, w.releases, w.current, id, expected) == Activated(state)
    ensures var n := With(w, pid, Process(id, expected, Linked(state.previous)), Prepared(pid, id, state.previous));
      && Runs(w, Preparing(pid, id, expected) + rest) == Runs(n, rest)
      && (Runs(n, rest) ==> Final(w, Preparing(pid, id, expected) + rest) == Final(n, rest))
  {
    var events := [ManifestPassed(pid, id), MarkerPassed(pid, id)];
    var tail := [ResolveCurrent(pid), MakeLink(pid)] + rest;
    ChecksRun(w, pid, id, expected, tail);
    LinkRuns(w, pid, Process(id, expected, MarkerVerified), events, state.previous, rest);
    hide Runs, Final, With;
    assert events + [LinkRead(pid, state.previous)] == Prepared(pid, id, state.previous);
    assert Preparing(pid, id, expected) + rest
      == [Begin(pid, id, expected), VerifyManifest(pid), VerifyMarker(pid)] + tail;
  }

  function Overlapping(a: string, b: string, c: string): seq<Action> {
    Preparing(0, b, Some(a)) + (Preparing(1, c, Some(a)) + ([RenameLink(0)] + ([RenameLink(1)] + RECORDS)))
  }

  const RECORDS := [WriteState(0), RenameState(0)] + [WriteState(1), RenameState(1)]

  /** The world after both have prepared, and after the first has renamed its link. */
  function BothPrepared(w: World, a: string, b: string, c: string): World {
    var w1 := With(w, 0, Process(b, Some(a), Linked(Some(a))), Prepared(0, b, Some(a)));
    With(w1, 1, Process(c, Some(a), Linked(Some(a))), Prepared(1, c, Some(a)))
  }

  lemma BothPrepare(w: World, a: string, b: string, c: string, rest: seq<Action>)
    requires w.processes == map[] && w.current == To(a) && AreThreeGood(w.reader, w.releases, a, b, c)
    ensures var actions, n := Preparing(0, b, Some(a)) + (Preparing(1, c, Some(a)) + rest), BothPrepared(w, a, b, c);
      Runs(w, actions) == Runs(n, rest) && (Runs(n, rest) ==> Final(w, actions) == Final(n, rest))
  {
    hide ManifestPasses, MarkerPasses, Preparing, Prepared, Runs, Final;
    PreparingRuns(w, 0, b, Some(a), State(b, Some(a)), Preparing(1, c, Some(a)) + rest);
    var w1 := With(w, 0, Process(b, Some(a), Linked(Some(a))), Prepared(0, b, Some(a)));
    PreparingRuns(w1, 1, c, Some(a), State(c, Some(a)), rest);
  }

  lemma BothRecord(w: World)
    requires 0 in w.processes && 1 in w.processes && w.processes[0].phase.Switched? && w.processes[1].phase.Switched?
    ensures Runs(w, RECORDS)
    ensures var v, p := Final(w, RECORDS), w.processes[1];
      && v.current == w.current && v.state == Some(State(p.target, p.phase.previous)) && w.log <= v.log
      && v.processes == w.processes[0 := w.processes[0].(phase := Finished)][1 := p.(phase := Finished)]
  {
    RecordRuns(w, 0);
    var v := Final(w, [WriteState(0), RenameState(0)]);
    RecordRuns(v, 1);
    RunsAppend(w, [WriteState(0), RenameState(0)], [WriteState(1), RenameState(1)]);
  }

  /**
    Two activations that both expect release `a`, without a crash: the second replaces `b` unseen, although it was told
    to replace `a` only, and records `a` as the previous release.
   */
  lemma OverlapDefeatsTheGuard(w: World, a: string, b: string, c: string)
    requires w.processes == map[] && w.current == To(a) && AreThreeGood(w.reader, w.releases, a, b, c)
    ensures Runs(w, Overlapping(a, b, c)) && CrashFree(Overlapping(a, b, c))
    ensures var v := Final(w, Overlapping(a, b, c));
      && LinkSwitched(1, c, Some(a), To(b)) in v.log && v.current == To(c) && v.state == Some(State(c, Some(a)))
      && v.processes == map[0 := Process(b, Some(a), Finished), 1 := Process(c, Some(a), Finished)]
  {
    hide AreThreeGood, Prepared, RECORDS;
    BothPrepare(w, a, b, c, [RenameLink(0)] + ([RenameLink(1)] + RECORDS));
    hide Preparing;
    var w2 := BothPrepared(w, a, b, c);
    OneRename(w2, 0, [RenameLink(1)] + RECORDS);
    var p, q := Process(b, Some(a), Switched(Some(a))), Process(c, Some(a), Switched(Some(a)));
    var w3 := w2.(processes := w2.processes[0 := p], current := To(b),
                  log := w2.log + [LinkSwitched(0, b, Some(a), To(a))]);
    OneRename(w3, 1, RECORDS);
    var w4 := w3.(processes := w3.processes[1 := q], current := To(c),
                  log := w3.log + [LinkSwitched(1, c, Some(a), To(b))]);
    hide Runs, Final;
    BothRecord(w4);
    assert LinkSwitched(1, c, Some(a), To(b)) in w4.log;
    OverlapIsCrashFree(a, b, c);
  }

  lemma OverlapIsCrashFree(a: string, b: string, c: string)
    ensures CrashFree(Overlapping(a, b, c))
  {
  }

  // ------------------------------------------------------------------------- how far the state can lag

  lemma {:induction false} RunsAppend(w: World, a: seq<Action>, b: seq<Action>)
    requires Runs(w, a)
    ensures Runs(w, a + b) == Runs(Final(w, a), b)
    ensures Runs(Final(w, a), b) ==> Final(w, a + b) == Final(Final(w, a), b)
    ensures RunsInTurn(w, a) && RunsInTurn(Final(w, a), b) ==> RunsInTurn(w, a + b)
    decreases |a|
  {
    hide Step, Enabled, NobodyIsLive;
    if a == [] {
      assert a + b == b;
    } else {
      RunsAppend(Step(w, a[0]), a[1..], b);
      assert (a + b)[1..] == a[1..] + b;
    }
  }

  lemma {:induction false} NoBeginIsInTurn(w: World, actions: seq<Action>)
    requires Runs(w, actions) && forall i | 0 <= i < |actions| :: !actions[i].Begin?
    ensures RunsInTurn(w, actions)
    decreases |actions|
  {
    hide Step, Enabled, NobodyIsLive;
    if actions != [] {
      NoBeginIsInTurn(Step(w, actions[0]), actions[1..]);
    }
  }

  /** A begin and what follows it take their turn when nobody is live. */
  lemma BeginIsInTurn(w: World, actions: seq<Action>)
    requires Runs(w, actions) && NobodyIsLive(w) && actions != [] && forall i | 0 < i < |actions| :: !actions[i].Begin?
    ensures RunsInTurn(w, actions)
  {
    hide Step, Enabled, NobodyIsLive;
    NoBeginIsInTurn(Step(w, actions[0]), actions[1..]);
  }

  /** An activation interrupted right after its switch. */
  function Interrupting(pid: nat, id: string): seq<Action> {
    Switching(pid, id, None) + [Crash(pid)]
  }

  lemma CrashRuns(w: World, pid: nat)
    requires pid in w.processes && w.processes[pid].phase.Switched?
    requires forall q | q in w.processes && q != pid :: !IsLive(w.processes[q].phase)
    ensures Runs(w, [Crash(pid)])
    ensures var v := Final(w, [Crash(pid)]);
      && v.current == w.current && v.state == w.state && v.releases == w.releases && v.reader == w.reader
      && NobodyIsLive(v) && v.processes.Keys == w.processes.Keys && v.log == w.log + [Interrupted(pid)]
  {
    RunOne(w, Crash(pid), []);
    assert [Crash(pid)] + [] == [Crash(pid)];
  }

  lemma InterruptedRun(w: World, pid: nat, id: string, state: State)
    requires pid !in w.processes && NobodyIsLive(w)
      && ActivateOutcome(w.reader, w.releases, w.current, id, None) == Activated(state)
    ensures Runs(w, Interrupting(pid, id)) && RunsInTurn(w, Interrupting(pid, id))
    ensures var v := Final(w, Interrupting(pid, id));
      && v.current == To(id) && v.state == w.state && v.releases == w.releases && v.reader == w.reader
         && NobodyIsLive(v)
      && v.processes.Keys == w.processes.Keys + {pid} && Lag(v.log) == Lag(w.log) + 1
  {
    hide ManifestPasses, MarkerPasses, ReleasesAfter, LinkAfter, StateAfter, ActivateOutcome, Step, Enabled, Runs,
         Final,
         Switching, RunsInTurn, Lag;
    var n := AfterSwitch(w, pid, id, None, state.previous);
    CrashRuns(n, pid);
    SwitchingRuns(w, pid, id, None, state, [Crash(pid)]);
    LagAfterInterruption(w.log, pid, id, state.previous, w.current);
    InterruptingBegins(pid, id);
    BeginIsInTurn(w, Interrupting(pid, id));
  }

  lemma InterruptingBegins(pid: nat, id: string)
    ensures var actions := Interrupting(pid, id);
      actions != [] && forall i | 0 < i < |actions| :: !actions[i].Begin?
  {
  }

  lemma LagAfterInterruption(log: seq<Event>, pid: nat, id: string, previous: Option<string>, before: Link)
    ensures var events := [ManifestPassed(pid, id), MarkerPassed(pid, id), LinkRead(pid, previous),
                           LinkSwitched(pid, id, previous, before)];
      Lag(log + events + [Interrupted(pid)]) == Lag(log) + 1
  {
    var one, two := ManifestPassed(pid, id), MarkerPassed(pid, id);
    var three, four := LinkRead(pid, previous), LinkSwitched(pid, id, previous, before);
    OneMoreEvent(log, one);
    OneMoreEvent(log + [one], two);
    OneMoreEvent(log + [one] + [two], three);
    OneMoreEvent(log + [one] + [two] + [three], four);
    OneMoreEvent(log + [one, two, three, four], Interrupted(pid));
    assert log + [one] + [two] + [three] + [four] == log + [one, two, three, four];
  }

  /** A world with three releases and nothing activated yet. */
  function Fresh(r: Reader, releases: Releases): World {
    World(r, releases, Absent, None, map[], [])
  }

  /** Three different releases that pass both checks. */
  predicate AreThreeGood(r: Reader, releases: Releases, a: string, b: string, c: string) {
    && a != b && b != c && a != c && a in releases && b in releases && c in releases
    && Passes(releases[a], a, r) && Passes(releases[b], b, r) && Passes(releases[c], c, r)
  }

  function ActivateThenTwoCrashes(a: string, b: string, c: string): seq<Action> {
    Switching(0, a, None) + [WriteState(0), RenameState(0)] + (Interrupting(1, b) + Interrupting(2, c))
  }

  /**
    The lag is not bounded by one: each interrupted activation adds one. Even in turn, two crashes leave a state file
    that names neither the current nor the previous release.
   */
  lemma StateCanLagByTwo(r: Reader, releases: Releases, a: string, b: string, c: string)
    requires AreThreeGood(r, releases, a, b, c)
    ensures var w, actions := Fresh(r, releases), ActivateThenTwoCrashes(a, b, c);
      && Runs(w, actions) && RunsInTurn(w, actions)
      && var v := Final(w, actions);
         Lag(v.log) == 2 && v.current == To(c) && v.state == Some(State(a, None))
  {
    hide ManifestPasses, MarkerPasses;
    var w := Fresh(r, releases);
    var first := Switching(0, a, None) + [WriteState(0), RenameState(0)];
    Activates(w, 0, a, None, State(a, None));
    BeginIsInTurn(w, first);
    var w1 := Final(w, first);
    var events := [ManifestPassed(0, a), MarkerPassed(0, a), LinkRead(0, None), LinkSwitched(0, a, None, Absent)];
    assert w1.log == events + [StateRecorded(0, a, None)];
    OneMoreEvent(events, StateRecorded(0, a, None));
    hide Runs, Final, RunsInTurn, Lag, Switching;
    InterruptedRun(w1, 1, b, State(b, Some(a)));
    var w2 := Final(w1, Interrupting(1, b));
    InterruptedRun(w2, 2, c, State(c, Some(b)));
    RunsAppend(w1, Interrupting(1, b), Interrupting(2, c));
    RunsAppend(w, first, Interrupting(1, b) + Interrupting(2, c));
  }

  function TwoAtOnce(a: string, b: string): seq<Action> {
    Switching(0, a, None) + (Switching(1, b, None)
                             + ([WriteState(1), RenameState(1)] + [WriteState(0), RenameState(0)]))
  }

  /** Two activations at once can leave a stale state file for good without any crash. */
  lemma ConcurrencyLeavesAStaleState(r: Reader, releases: Releases, a: string, b: string, c: string)
    requires AreThreeGood(r, releases, a, b, c)
    ensures Runs(Fresh(r, releases), TwoAtOnce(a, b))
    ensures var v := Final(Fresh(r, releases), TwoAtOnce(a, b));
      && v.current == To(b) && v.state == Some(State(a, None)) && 0 in v.processes && 1 in v.processes
      && v.processes[0].phase == Finished && v.processes[1].phase == Finished
  {
    hide ManifestPasses, MarkerPasses;
    var w := Fresh(r, releases);
    var records := [WriteState(1), RenameState(1)] + [WriteState(0), RenameState(0)];
    var w1 := AfterSwitch(w, 0, a, None, None);
    var w2 := AfterSwitch(w1, 1, b, None, Some(a));
    SwitchingRuns(w, 0, a, None, State(a, None), Switching(1, b, None) + records);
    SwitchingRuns(w1, 1, b, None, State(b, Some(a)), records);
    RecordRuns(w2, 1);
    var w3 := Final(w2, [WriteState(1), RenameState(1)]);
    RecordRuns(w3, 0);
    RunsAppend(w2, [WriteState(1), RenameState(1)], [WriteState(0), RenameState(0)]);
    hide Runs, Final, Switching;
  }
}
