/**
  Writing and checking the manifest of a release (src/system/atomic-release.js:48-62, 138-249).
  `digest` stands for SHA-256 and `nameLe` for the locale's order of names.
 */
module ReleaseManifest {
  import opened Options
  import opened Texts
  import opened Sorting
  import opened ReleaseTree

  // ------------------------------------------------------------------------------------- identifiers

  predicate IsAlphanumeric(c: char) {
    'A' <= c <= 'Z' || 'a' <= c <= 'z' || IsDigit(c)
  }

  predicate IsReleaseId(id: string) {
    && 6 <= |id| <= 96 && IsAlphanumeric(id[0])
    && forall i | 0 <= i < |id| :: IsAlphanumeric(id[i]) || id[i] in {'.', '_', '-'}
  }

  function AssertReleaseId(value: string): Option<string> {
    var id := Trim(value);
    if IsReleaseId(id) then Some(id) else None
  }

  predicate IsHex(s: string, length: nat) {
    |s| == length && forall i | 0 <= i < |s| :: IsDigit(s[i]) || 'a' <= s[i] <= 'f'
  }

  function AssertCommitSha(value: string): Option<string> {
    var sha := Lower(Trim(value));
    if IsHex(sha, 40) then Some(sha) else None
  }

  // ------------------------------------------------------------------------------------ the manifest

  datatype FileEntry = FileEntry(path: string, bytes: int, sha256: string)
  datatype Component = Component(root: string, commitSha: string, files: seq<FileEntry>)

  /** `createdAt` is the instant that `Date.parse` reads from the text, if it reads one. */
  datatype Manifest = Manifest(
    schemaVersion: int, strategy: string, releaseId: string, createdAt: Option<int>, automaticDeployment: bool,
    components: map<string, Component>)

  const STRATEGY := "manual-atomic-symlink"
  const COMPONENT_NAMES := ["backend", "frontend"]

  datatype Problem =
    | BadReleaseId | ManifestExists | BadCommit(component: string) | MissingComponent(name: string)
    | EnvironmentFileFound(name: string) | SymlinkFound(path: string) | EmptyComponent(name: string)
    | BadInstant | MissingManifest | BadContract
    | BadComponent(name: string) | BadEntry(name: string) | Mismatch(name: string)

  datatype Result<+T> = Ok(value: T) | Fail(problem: Problem)

  /** Path parts joined by slashes. */
  function Slashed(path: Path): string {
    if path == [] then "" else if |path| == 1 then path[0] else path[0] + "/" + Slashed(path[1..])
  }

  function ToEntry(f: Tracked, digest: Bytes -> string): FileEntry {
    FileEntry(Slashed(f.path), |f.content|, digest(f.content))
  }

  function ToEntries(files: seq<Tracked>, digest: Bytes -> string): (entries: seq<FileEntry>)
    ensures |entries| == |files| && forall i | 0 <= i < |files| :: entries[i] == ToEntry(files[i], digest)
  {
    seq(|files|, i requires 0 <= i < |files| => ToEntry(files[i], digest))
  }

  /** The component directories of a release. */
  type Folders = map<string, Node>

  /** `collectComponentFiles`: a missing or non-directory root fails. */
  function ComponentFiles(folders: Folders, name: string, digest: Bytes -> string,
                          nameLe: (string, string) -> bool): Result<seq<FileEntry>> {
    if name !in folders || !folders[name].Dir? then Fail(MissingComponent(name))
    else match Listed(folders[name].entries, nameLe)
      case Files(files) => Ok(ToEntries(files, digest))
      case EnvironmentFile(file) => Fail(EnvironmentFileFound(file))
      case SymbolicLink(path) => Fail(SymlinkFound(Slashed(path)))
  }

  method CollectComponentFiles(folders: Folders, name: string, digest: Bytes -> string,
                               nameLe: (string, string) -> bool)
    returns (r: Result<seq<FileEntry>>)
    ensures r == ComponentFiles(folders, name, digest, nameLe)
  {
    if name !in folders || !folders[name].Dir? {
      return Fail(MissingComponent(name));
    }
    var collector := new Collector();
    collector.Visit(folders[name].entries, [], nameLe);
    ghost var listing := Listed(folders[name].entries, nameLe);
    assert listing.Files? ==> [] + listing.files == listing.files;
    match collector.refusal
    case None => r := Ok(ToEntries(collector.files, digest));
    case Some(EnvironmentFile(file)) => r := Fail(EnvironmentFileFound(file));
    case Some(SymbolicLink(path)) => r := Fail(SymlinkFound(Slashed(path)));
  }

  /** The components in order, up to the first problem. */
  function Components(names: seq<string>, shas: map<string, string>, folders: Folders, digest: Bytes -> string,
                      nameLe: (string, string) -> bool): Result<map<string, Component>>
    requires forall name | name in names :: name in shas
  {
    if names == [] then Ok(map[])
    else
      var front, name := names[..|names| - 1], names[|names| - 1];
      match Components(front, shas, folders, digest, nameLe)
      case Fail(problem) => Fail(problem)
      case Ok(components) =>
        match ComponentFiles(folders, name, digest, nameLe)
        case Fail(problem) => Fail(problem)
        case Ok(files) =>
          if files == [] then Fail(EmptyComponent(name)) else Ok(components[name := Component(name, shas[name], files)])
  }

  function CreateOutcome(existing: Option<Manifest>, folders: Folders, releaseId: string, backendSha: string,
                         frontendSha: string, createdAt: Option<int>, digest: Bytes -> string,
                           nameLe: (string, string) -> bool): Result<Manifest> {
    var id, backend, frontend := AssertReleaseId(releaseId), AssertCommitSha(backendSha), AssertCommitSha(frontendSha);
    if id.None? then Fail(BadReleaseId)
    else if existing.Some? then Fail(ManifestExists)
    else if backend.None? then Fail(BadCommit("backend"))
    else if frontend.None? then Fail(BadCommit("frontend"))
    else
      var shas := map["backend" := backend.value, "frontend" := frontend.value];
      match Components(COMPONENT_NAMES, shas, folders, digest, nameLe)
      case Fail(problem) => Fail(problem)
      case Ok(components) =>
        if createdAt.None? then Fail(BadInstant) else Ok(Manifest(1, STRATEGY, id.value, createdAt, false, components))
  }

  // ------------------------------------------------------------------------------------ shape checks

  function PathParts(s: string): (parts: seq<string>)
    ensures parts != []
  {
    if s == "" then [""]
    else if s[0] == '/' then [""] + PathParts(s[1..])
    else var rest := PathParts(s[1..]); [[s[0]] + rest[0]] + rest[1..]
  }

  predicate IsValidEntry(e: FileEntry) {
    && e.path != "" && '\\' !in e.path && e.path[0] != '/' && ".." !in PathParts(e.path)
    && e.bytes >= 0 && IsHex(e.sha256, 64)
  }

  predicate AreValidEntries(files: seq<FileEntry>) {
    && (forall i | 0 <= i < |files| :: IsValidEntry(files[i]))
    && (forall i, j | 0 <= i < j < |files| :: files[i].path != files[j].path)
  }

  /** The loop with the `seen` set. */
  method CheckEntries(files: seq<FileEntry>) returns (ok: bool)
    ensures ok == AreValidEntries(files)
  {
    hide IsValidEntry;
    var seen: set<string> := {};
    for n := 0 to |files|
      invariant AreValidEntries(files[..n])
      invariant seen == set i | 0 <= i < n :: files[i].path
    {
      if !IsValidEntry(files[n]) || files[n].path in seen {
        return false;
      }
      seen := seen + {files[n].path};
    }
    assert files[..|files|] == files;
    ok := true;
  }

  predicate IsValidComponent(components: map<string, Component>, name: string) {
    && name in components && AssertCommitSha(components[name].commitSha).Some?
    && components[name].root == name && AreValidEntries(components[name].files)
  }

  predicate IsValidShape(m: Manifest, releaseId: string) {
    && m.schemaVersion == 1 && m.strategy == STRATEGY && !m.automaticDeployment && m.releaseId == releaseId
       && m.createdAt.Some?
    && forall i | 0 <= i < |COMPONENT_NAMES| :: IsValidComponent(m.components, COMPONENT_NAMES[i])
  }

  method ValidateManifestShape(m: Manifest, releaseId: string) returns (r: Result<()>)
    ensures r.Ok? == IsValidShape(m, releaseId)
    ensures r.Fail? ==>
      || r.problem.BadContract? || r.problem.BadInstant? || r.problem.BadCommit?
      || r.problem.BadComponent? || r.problem.BadEntry?
  {
    hide AssertCommitSha;
    if m.schemaVersion != 1 || m.strategy != STRATEGY || m.automaticDeployment || m.releaseId != releaseId {
      return Fail(BadContract);
    }
    if m.createdAt.None? {
      return Fail(BadInstant);
    }
    for n := 0 to |COMPONENT_NAMES|
      invariant forall i | 0 <= i < n :: IsValidComponent(m.components, COMPONENT_NAMES[i])
    {
      var name := COMPONENT_NAMES[n];
      if name !in m.components || AssertCommitSha(m.components[name].commitSha).None? {
        return Fail(BadCommit(name));
      }
      if m.components[name].root != name {
        return Fail(BadComponent(name));
      }
      var ok := CheckEntries(m.components[name].files);
      if !ok {
        return Fail(BadEntry(name));
      }
    }
    r := Ok(());
  }

  predicate Matches(m: Manifest, folders: Folders, name: string, digest: Bytes -> string,
                    nameLe: (string, string) -> bool) {
    name in m.components && ComponentFiles(folders, name, digest, nameLe) == Ok(m.components[name].files)
  }

  /** The manifest is well formed and every component lists exactly what the manifest says. */
  predicate Verifies(existing: Option<Manifest>, folders: Folders, releaseId: string, digest: Bytes -> string,
                           nameLe: (string, string) -> bool) {
    var id := AssertReleaseId(releaseId);
    && id.Some? && existing.Some? && IsValidShape(existing.value, id.value)
    && forall i | 0 <= i < |COMPONENT_NAMES| :: Matches(existing.value, folders, COMPONENT_NAMES[i], digest, nameLe)
  }

  /** The directory of one release. */
  class ReleaseDirectory {
    var folders: Folders
    var manifest: Option<Manifest>

    constructor (folders: Folders)
      ensures this.folders == folders && manifest == None
    {
      this.folders, manifest := folders, None;
    }

    method CreateReleaseManifest(releaseId: string, backendSha: string, frontendSha: string, createdAt: Option<int>,
                                 digest: Bytes -> string, nameLe: (string, string) -> bool)
      returns (r: Result<Manifest>)
      modifies this`manifest
      ensures r == CreateOutcome(old(manifest), folders, releaseId, backendSha, frontendSha, createdAt, digest, nameLe)
      ensures manifest == if r.Ok? then Some(r.value) else old(manifest)
    {
      hide AssertReleaseId, AssertCommitSha, ComponentFiles;
      var id := AssertReleaseId(releaseId);
      if id.None? {
        return Fail(BadReleaseId);
      }
      if manifest.Some? {
        return Fail(ManifestExists);
      }
      var backend, frontend := AssertCommitSha(backendSha), AssertCommitSha(frontendSha);
      if backend.None? {
        return Fail(BadCommit("backend"));
      }
      if frontend.None? {
        return Fail(BadCommit("frontend"));
      }
      var shas := map["backend" := backend.value, "frontend" := frontend.value];
      var components: map<string, Component> := map[];
      for n := 0 to |COMPONENT_NAMES|
        invariant manifest == old(manifest)
        invariant forall i | 0 <= i < |COMPONENT_NAMES| :: COMPONENT_NAMES[i] in shas
        invariant Components(COMPONENT_NAMES[..n], shas, folders, digest, nameLe) == Ok(components)
      {
        var name := COMPONENT_NAMES[n];
        FirstProblemStays(COMPONENT_NAMES, n, shas, folders, digest, nameLe);
        var files := CollectComponentFiles(folders, name, digest, nameLe);
        if files.Fail? {
          return Fail(files.problem);
        }
        if files.value == [] {
          return Fail(EmptyComponent(name));
        }
        components := components[name := Component(name, shas[name], files.value)];
      }
      assert COMPONENT_NAMES[..|COMPONENT_NAMES|] == COMPONENT_NAMES;
      if createdAt.None? {
        return Fail(BadInstant);
      }
      r := Ok(Manifest(1, STRATEGY, id.value, createdAt, false, components));
      manifest := Some(r.value);
    }

    method VerifyReleaseManifest(releaseId: string, digest: Bytes -> string,
                                 nameLe: (string, string) -> bool) returns (r: Result<()>)
      ensures r.Ok? == Verifies(manifest, folders, releaseId, digest, nameLe)
    {
      hide AssertReleaseId, IsValidShape, ComponentFiles;
      var id := AssertReleaseId(releaseId);
      if id.None? {
        return Fail(BadReleaseId);
      }
      if manifest.None? {
        return Fail(MissingManifest);
      }
      r := ValidateManifestShape(manifest.value, id.value);
      if r.Fail? {
        return;
      }
      for n := 0 to |COMPONENT_NAMES|
        invariant forall i | 0 <= i < n :: Matches(manifest.value, folders, COMPONENT_NAMES[i], digest, nameLe)
      {
        var actual := CollectComponentFiles(folders, COMPONENT_NAMES[n], digest, nameLe);
        if actual.Fail? {
          return Fail(actual.problem);
        }
        ShapeHasComponent(manifest.value, id.value, n);
        if actual.value != manifest.value.components[COMPONENT_NAMES[n]].files {
          return Fail(Mismatch(COMPONENT_NAMES[n]));
        }
      }
    }
  }

  lemma ShapeHasComponent(m: Manifest, releaseId: string, n: nat)
    requires IsValidShape(m, releaseId) && n < |COMPONENT_NAMES|
    ensures COMPONENT_NAMES[n] in m.components
  {
    assert IsValidComponent(m.components, COMPONENT_NAMES[n]);
  }

  lemma {:induction false} FirstProblemStays(names: seq<string>, n: nat, shas: map<string, string>, folders: Folders,
                                             digest: Bytes -> string, nameLe: (string, string) -> bool)
    requires n < |names| && forall name | name in names :: name in shas
    ensures names[..n + 1][..n] == names[..n]
    ensures Components(names[..n + 1], shas, folders, digest, nameLe).Fail? ==>
      Components(names, shas, folders, digest, nameLe) == Components(names[..n + 1], shas, folders, digest, nameLe)
    decreases |names|
  {
    hide ComponentFiles;
    if n + 1 == |names| {
      assert names[..n + 1] == names;
    } else {
      var front := names[..|names| - 1];
      FirstProblemStays(front, n, shas, folders, digest, nameLe);
      assert front[..n + 1] == names[..n + 1];
    }
  }

  // ---------------------------------------------------------------- verification after creation, exactly

  /** What a file system guarantees of names. */
  predicate IsFileName(name: string) {
    name != "" && '/' !in name && name != "." && name != ".."
  }

  ghost predicate HasFileNames(entries: seq<Entry>) {
    forall i | 0 <= i < |entries| ::
      IsFileName(entries[i].name) && (entries[i].node.Dir? ==> HasFileNames(entries[i].node.entries))
  }

  predicate IsFilePath(path: Path) {
    path != [] && forall i | 0 <= i < |path| :: IsFileName(path[i])
  }

  lemma {:induction false} TrackedHasFileNames(entries: seq<Entry>, path: Path, content: Bytes)
    requires HasFileNames(entries) && IsTracked(entries, path, content)
    ensures IsFilePath(path)
    decreases |path|
  {
    hide IsFileName;
    var i :| 0 <= i < |entries| && entries[i].name == path[0]
      && if |path| == 1 then entries[i].node == File(content)
         else entries[i].node.Dir? && IsTracked(entries[i].node.entries, path[1..], content);
    if |path| > 1 {
      TrackedHasFileNames(entries[i].node.entries, path[1..], content);
      assert forall k | 0 < k < |path| :: path[k] == path[1..][k - 1];
    }
  }

  lemma {:induction false} SplitName(name: string)
    requires '/' !in name
    ensures PathParts(name) == [name]
  {
    if name != "" {
      SplitName(name[1..]);
      assert [name[0]] + name[1..] == name;
    }
  }

  lemma {:induction false} SplitAt(name: string, rest: string)
    requires '/' !in name
    ensures PathParts(name + "/" + rest) == [name] + PathParts(rest)
  {
    var s := name + "/" + rest;
    if name == "" {
      assert s[1..] == rest;
    } else {
      SplitAt(name[1..], rest);
      assert s[1..] == name[1..] + "/" + rest;
      assert [name[0]] + name[1..] == name;
      assert ([name[1..]] + PathParts(rest))[1..] == PathParts(rest);
    }
  }

  /** Splitting the joined path gives the path back, so joined paths never collide. */
  lemma {:induction false} SplitSlashed(path: Path)
    requires IsFilePath(path)
    ensures PathParts(Slashed(path)) == path && Slashed(path) != "" && Slashed(path)[0] != '/'
  {
    if |path| == 1 {
      SplitName(path[0]);
    } else {
      assert IsFileName(path[0]);
      SplitSlashed(path[1..]);
      SplitAt(path[0], Slashed(path[1..]));
      assert path == [path[0]] + path[1..];
    }
  }

  /**
    Tracked siblings the locale does not tell apart come out of the directories of `b` in the order of those of `a`.
   */
  ghost predicate KeepsTies(a: seq<Entry>, b: seq<Entry>, nameLe: (string, string) -> bool) {
    forall p, q, x, y | IsTracked(a, p, x) && IsTracked(a, q, y) && TieAt(p, q, nameLe) && LiesAhead(a, p, q) ::
      LiesAhead(b, p, q)
  }

  /** A tracked file with this path, size and digest. */
  ghost predicate HasFingerprint(entries: seq<Entry>, path: Path, bytes: int, sha256: string, digest: Bytes -> string) {
    exists content :: IsTracked(entries, path, content) && |content| == bytes && digest(content) == sha256
  }

  ghost predicate SameFingerprints(a: seq<Entry>, b: seq<Entry>, digest: Bytes -> string) {
    forall path, bytes, sha256 :: HasFingerprint(a, path, bytes, sha256, digest)
      <==> HasFingerprint(b, path, bytes, sha256, digest)
  }

  ghost predicate HasBackslash(entries: seq<Entry>) {
    exists path, content :: IsTracked(entries, path, content) && '\\' in Slashed(path)
  }

  function PathsOf(files: seq<Tracked>): (paths: seq<Path>)
    ensures |paths| == |files| && forall i | 0 <= i < |files| :: paths[i] == files[i].path
  {
    seq(|files|, i requires 0 <= i < |files| => files[i].path)
  }

  ghost predicate Exact(files: seq<Tracked>, entries: seq<Entry>, nameLe: (string, string) -> bool) {
    StrictlySorted(files, entries, nameLe) && forall path, content ::
      Tracked(path, content) in files <==> IsTracked(entries, path, content)
  }

  lemma EqualListingsSameFingerprints(fs: seq<Tracked>, gs: seq<Tracked>, a: seq<Entry>, b: seq<Entry>,
                                      digest: Bytes -> string, nameLe: (string, string) -> bool, path: Path, bytes: int,
                                        sha256: string)
    requires Exact(fs, a, nameLe) && Exact(gs, b, nameLe) && HasFileNames(a) && HasFileNames(b)
    requires ToEntries(fs, digest) == ToEntries(gs, digest) && HasFingerprint(a, path, bytes, sha256, digest)
    ensures HasFingerprint(b, path, bytes, sha256, digest)
  {
    hide IsTracked, HasFileNames, StrictlySorted, Slashed, PathParts, IsFilePath;
    var content :| IsTracked(a, path, content) && |content| == bytes && digest(content) == sha256;
    var i :| 0 <= i < |fs| && fs[i] == Tracked(path, content);
    assert ToEntries(fs, digest)[i] == ToEntries(gs, digest)[i];
    assert gs[i] == Tracked(gs[i].path, gs[i].content);
    TrackedHasFileNames(a, path, content);
    TrackedHasFileNames(b, gs[i].path, gs[i].content);
    SplitSlashed(path);
    SplitSlashed(gs[i].path);
  }

  lemma SameFingerprintsEqualListings(fs: seq<Tracked>, gs: seq<Tracked>, a: seq<Entry>, b: seq<Entry>,
                                      digest: Bytes -> string, nameLe: (string, string) -> bool)
    requires HasDistinctNames(b) && Exact(fs, a, nameLe) && Exact(gs, b, nameLe)
    requires SameFingerprints(a, b, digest) && KeepsTies(a, b, nameLe)
    ensures ToEntries(fs, digest) == ToEntries(gs, digest)
  {
    hide IsTracked, Slashed, HasDistinctNames, InOrder;
    PathsCarryOver(fs, gs, a, b, digest, nameLe);
    PathsCarryOver(gs, fs, b, a, digest, nameLe);
    OrderCarriesOver(fs, a, b, nameLe);
    hide KeepsTies;
    SortedPathsAreUnique(PathsOf(fs), PathsOf(gs), b, nameLe);
    forall i | 0 <= i < |fs|
      ensures ToEntry(fs[i], digest) == ToEntry(gs[i], digest)
    {
      assert PathsOf(fs)[i] == PathsOf(gs)[i];
      assert fs[i] == Tracked(fs[i].path, fs[i].content);
      var path, content := fs[i].path, fs[i].content;
      assert HasFingerprint(a, path, |content|, digest(content), digest);
      assert HasFingerprint(b, path, |content|, digest(content), digest);
      var other :| IsTracked(b, path, other) && |other| == |content| && digest(other) == digest(content);
      var j :| 0 <= j < |gs| && gs[j] == Tracked(path, other);
      PathOnce(gs, b, i, j, nameLe);
    }
  }

  lemma PathOnce(gs: seq<Tracked>, entries: seq<Entry>, i: nat, j: nat, nameLe: (string, string) -> bool)
    requires StrictlySorted(gs, entries, nameLe) && i < |gs| && j < |gs| && gs[i].path == gs[j].path
    ensures i == j
  {
    hide PathLess;
    if i < j {
      BothWaysIsATie(gs[i].path, gs[j].path, nameLe);
    } else if j < i {
      BothWaysIsATie(gs[j].path, gs[i].path, nameLe);
    }
  }

  lemma OrderCarriesOver(fs: seq<Tracked>, a: seq<Entry>, b: seq<Entry>, nameLe: (string, string) -> bool)
    requires Exact(fs, a, nameLe) && KeepsTies(a, b, nameLe)
    ensures SortedPaths(PathsOf(fs), b, nameLe)
  {
    hide IsTracked, PathLess, TieAt, LiesAhead;
    forall i, j | 0 <= i < j < |fs|
      ensures InOrder(b, PathsOf(fs)[i], PathsOf(fs)[j], nameLe)
    {
      assert InOrder(a, fs[i].path, fs[j].path, nameLe);
      assert fs[i] == Tracked(fs[i].path, fs[i].content) && fs[j] == Tracked(fs[j].path, fs[j].content);
    }
  }

  /** Equal manifest entries come from directories that order their ties alike. */
  lemma EqualListingsKeepTies(fs: seq<Tracked>, gs: seq<Tracked>, a: seq<Entry>, b: seq<Entry>, digest: Bytes -> string,
                              nameLe: (string, string) -> bool)
    requires HasDistinctNames(a) && HasFileNames(a) && HasFileNames(b) && Exact(fs, a, nameLe) && Exact(gs, b, nameLe)
    requires ToEntries(fs, digest) == ToEntries(gs, digest)
    ensures KeepsTies(a, b, nameLe)
  {
    hide IsTracked, HasFileNames, HasDistinctNames, Slashed, InOrder, PathLess, LiesAhead, TieAt;
    forall p, q, x, y | IsTracked(a, p, x) && IsTracked(a, q, y) && TieAt(p, q, nameLe) && LiesAhead(a, p, q)
      ensures LiesAhead(b, p, q)
    {
      var i :| 0 <= i < |fs| && fs[i] == Tracked(p, x);
      var j :| 0 <= j < |fs| && fs[j] == Tracked(q, y);
      SamePathAt(fs, gs, a, b, digest, nameLe, i);
      SamePathAt(fs, gs, a, b, digest, nameLe, j);
      TiesAreInOrder(a, p, q, nameLe);
      assert i <= j;
      assert InOrder(b, gs[i].path, gs[j].path, nameLe);
      TiedInOrder(b, p, q, nameLe);
    }
  }

  lemma TiedInOrder(entries: seq<Entry>, p: Path, q: Path, nameLe: (string, string) -> bool)
    requires TieAt(p, q, nameLe) && InOrder(entries, p, q, nameLe)
    ensures LiesAhead(entries, p, q)
  {
  }

  lemma TiesAreInOrder(entries: seq<Entry>, p: Path, q: Path, nameLe: (string, string) -> bool)
    requires HasDistinctNames(entries) && TieAt(p, q, nameLe) && LiesAhead(entries, p, q)
    ensures p != q && !InOrder(entries, q, p, nameLe)
  {
    LiesAheadIsAsymmetric(entries, p, q);
    TieIsSymmetric(p, q, nameLe);
  }

  lemma {:induction false} TieIsSymmetric(p: Path, q: Path, nameLe: (string, string) -> bool)
    requires TieAt(p, q, nameLe)
    ensures TieAt(q, p, nameLe) && p != q
  {
    if p[0] == q[0] {
      TieIsSymmetric(p[1..], q[1..], nameLe);
    }
  }

  lemma SamePathAt(fs: seq<Tracked>, gs: seq<Tracked>, a: seq<Entry>, b: seq<Entry>, digest: Bytes -> string,
                   nameLe: (string, string) -> bool, i: nat)
    requires HasFileNames(a) && HasFileNames(b) && Exact(fs, a, nameLe) && Exact(gs, b, nameLe)
    requires ToEntries(fs, digest) == ToEntries(gs, digest) && i < |fs|
    ensures i < |gs| && gs[i].path == fs[i].path
  {
    hide IsTracked, HasFileNames, StrictlySorted, Slashed, PathParts, IsFilePath;
    assert ToEntries(fs, digest)[i] == ToEntries(gs, digest)[i];
    assert fs[i] == Tracked(fs[i].path, fs[i].content) && gs[i] == Tracked(gs[i].path, gs[i].content);
    TrackedHasFileNames(a, fs[i].path, fs[i].content);
    TrackedHasFileNames(b, gs[i].path, gs[i].content);
    SplitSlashed(fs[i].path);
    SplitSlashed(gs[i].path);
  }

  lemma PathsCarryOver(fs: seq<Tracked>, gs: seq<Tracked>, a: seq<Entry>, b: seq<Entry>, digest: Bytes -> string,
                       nameLe: (string, string) -> bool)
    requires Exact(fs, a, nameLe) && Exact(gs, b, nameLe) && SameFingerprints(a, b, digest)
    ensures SortedPaths(PathsOf(fs), a, nameLe)
    ensures forall p | p in PathsOf(fs) :: p in PathsOf(gs)
  {
    hide IsTracked, InOrder;
    forall i | 0 <= i < |fs|
      ensures fs[i].path in PathsOf(gs)
    {
      assert fs[i] == Tracked(fs[i].path, fs[i].content);
      assert HasFingerprint(a, fs[i].path, |fs[i].content|, digest(fs[i].content), digest);
      assert HasFingerprint(b, fs[i].path, |fs[i].content|, digest(fs[i].content), digest);
      var content :| IsTracked(b, fs[i].path, content) && |content| == |fs[i].content|
        && digest(content) == digest(fs[i].content);
      var j :| 0 <= j < |gs| && gs[j] == Tracked(fs[i].path, content);
      assert PathsOf(gs)[j] == fs[i].path;
    }
  }

  /**
    Listing two directories gives the same manifest entries exactly when their tracked files agree, and siblings that
    tie come in the same order.
   */
  lemma ListingsAgree(a: seq<Entry>, b: seq<Entry>, fs: seq<Tracked>, gs: seq<Tracked>, digest: Bytes -> string,
                      nameLe: (string, string) -> bool)
    requires HasDistinctNames(a) && HasDistinctNames(b) && HasFileNames(a) && HasFileNames(b)
    requires Exact(fs, a, nameLe) && Exact(gs, b, nameLe)
    ensures ToEntries(fs, digest) == ToEntries(gs, digest)
      <==> SameFingerprints(a, b, digest) && KeepsTies(a, b, nameLe)
  {
    hide HasDistinctNames, Exact, HasFileNames, ToEntries, HasFingerprint, KeepsTies;
    if SameFingerprints(a, b, digest) && KeepsTies(a, b, nameLe) {
      SameFingerprintsEqualListings(fs, gs, a, b, digest, nameLe);
    }
    if ToEntries(fs, digest) == ToEntries(gs, digest) {
      EqualListingsKeepTies(fs, gs, a, b, digest, nameLe);
      forall path, bytes, sha256
        ensures HasFingerprint(a, path, bytes, sha256, digest) <==> HasFingerprint(b, path, bytes, sha256, digest)
      {
        if HasFingerprint(a, path, bytes, sha256, digest) {
          EqualListingsSameFingerprints(fs, gs, a, b, digest, nameLe, path, bytes, sha256);
        }
        if HasFingerprint(b, path, bytes, sha256, digest) {
          EqualListingsSameFingerprints(gs, fs, b, a, digest, nameLe, path, bytes, sha256);
        }
      }
    }
  }

  /** The entries of a listing pass the shape check unless a tracked path holds a backslash. */
  lemma ListedEntriesAreValid(entries: seq<Entry>, fs: seq<Tracked>, digest: Bytes -> string,
                              nameLe: (string, string) -> bool)
    requires Exact(fs, entries, nameLe) && HasFileNames(entries)
    requires forall content :: IsHex(digest(content), 64)
    ensures AreValidEntries(ToEntries(fs, digest)) <==> !HasBackslash(entries)
  {
    hide IsTracked, HasFileNames, Slashed, PathParts, InOrder, IsHex, IsFilePath;
    var listed := ToEntries(fs, digest);
    forall i | 0 <= i < |fs|
      ensures IsFilePath(fs[i].path) && PathParts(Slashed(fs[i].path)) == fs[i].path
      ensures IsValidEntry(listed[i]) <==> '\\' !in Slashed(fs[i].path)
    {
      assert fs[i] == Tracked(fs[i].path, fs[i].content);
      TrackedHasFileNames(entries, fs[i].path, fs[i].content);
      SplitSlashed(fs[i].path);
      NoDotDot(fs[i].path);
      assert listed[i] == ToEntry(fs[i], digest);
    }
    forall i, j | 0 <= i < j < |listed|
      ensures listed[i].path != listed[j].path
    {
      assert listed[i] == ToEntry(fs[i], digest) && listed[j] == ToEntry(fs[j], digest);
      if listed[i].path == listed[j].path {
        PathOnce(fs, entries, i, j, nameLe);
        assert false;
      }
    }
    if HasBackslash(entries) {
      var path, content :| IsTracked(entries, path, content) && '\\' in Slashed(path);
      var i :| 0 <= i < |fs| && fs[i] == Tracked(path, content);
      assert !IsValidEntry(listed[i]);
    } else {
      forall i | 0 <= i < |fs|
        ensures '\\' !in Slashed(fs[i].path)
      {
        assert fs[i] == Tracked(fs[i].path, fs[i].content);
      }
    }
  }

  lemma NoDotDot(path: Path)
    requires IsFilePath(path)
    ensures ".." !in path
  {
  }

  /** What the file system guarantees of a release. */
  ghost predicate IsFileSystem(folders: Folders) {
    forall name | name in folders && folders[name].Dir? ::
      HasDistinctNames(folders[name].entries) && HasFileNames(folders[name].entries)
  }

  /** The component is still a clean directory with the same tracked files, and ties come in the same order. */
  ghost predicate IsUnchanged(before: Folders, after: Folders, name: string, digest: Bytes -> string,
                              nameLe: (string, string) -> bool) {
    && name in before && before[name].Dir? && name in after && after[name].Dir?
    && IsClean(after[name].entries) && SameFingerprints(before[name].entries, after[name].entries, digest)
    && KeepsTies(before[name].entries, after[name].entries, nameLe)
  }

  lemma ComponentMatches(before: Folders, after: Folders, name: string, digest: Bytes -> string,
                         nameLe: (string, string) -> bool)
    requires TotalPreorder(nameLe) && IsFileSystem(before) && IsFileSystem(after)
    requires ComponentFiles(before, name, digest, nameLe).Ok?
    ensures ComponentFiles(after, name, digest, nameLe) == ComponentFiles(before, name, digest, nameLe)
      <==> IsUnchanged(before, after, name, digest, nameLe)
  {
    hide TotalPreorder, KeepsTies, IsClean, HasDistinctNames, HasFileNames, SameFingerprints, ToEntries, Listed,
         IsTracked, StrictlySorted;
    var a := before[name].entries;
    ListingIsExact(a, nameLe);
    if name in after && after[name].Dir? {
      var b := after[name].entries;
      ListingIsExact(b, nameLe);
      if Listed(b, nameLe).Files? {
        ListingsAgree(a, b, Listed(a, nameLe).files, Listed(b, nameLe).files, digest, nameLe);
      }
    }
  }

  lemma CreatedComponents(folders: Folders, shas: map<string, string>, digest: Bytes -> string,
                          nameLe: (string, string) -> bool)
    requires "backend" in shas && "frontend" in shas
    ensures Components(COMPONENT_NAMES, shas, folders, digest, nameLe).Ok? <==>
      forall name | name in COMPONENT_NAMES ::
        ComponentFiles(folders, name, digest, nameLe).Ok? && ComponentFiles(folders, name, digest, nameLe).value != []
    ensures Components(COMPONENT_NAMES, shas, folders, digest, nameLe).Ok? ==>
      forall name | name in COMPONENT_NAMES ::
        && name in Components(COMPONENT_NAMES, shas, folders, digest, nameLe).value
        && Components(COMPONENT_NAMES, shas, folders, digest, nameLe).value[name]
           == Component(name, shas[name], ComponentFiles(folders, name, digest, nameLe).value)
  {
    hide ComponentFiles;
    assert COMPONENT_NAMES[..1] == ["backend"] && COMPONENT_NAMES[1] == "frontend";
    assert ["backend"][..0] == [];
    assert "backend" in COMPONENT_NAMES && "frontend" in COMPONENT_NAMES;
    assert forall name | name in COMPONENT_NAMES :: name == "backend" || name == "frontend";
    assert Components([], shas, folders, digest, nameLe) == Ok(map[]);
    assert Components(["backend"], shas, folders, digest, nameLe).Ok? <==>
      ComponentFiles(folders, "backend", digest, nameLe).Ok?
        && ComponentFiles(folders, "backend", digest, nameLe).value != [];
  }

  lemma {:induction false} LowerOfHex(s: string, length: nat)
    requires IsHex(s, length) && length > 0
    ensures Lower(s) == s && Trim(s) == s
  {
    assert IsHex(s, length) ==> s != "" && !IsSpace(s[0]) && !IsSpace(s[|s| - 1]);
    TrimmedStays(s);
  }

  lemma ShapeAfterCreation(m: Manifest, before: Folders, releaseId: string, backendSha: string, frontendSha: string,
                           createdAt: Option<int>, digest: Bytes -> string, nameLe: (string, string) -> bool)
    requires TotalPreorder(nameLe) && IsFileSystem(before) && forall content :: IsHex(digest(content), 64)
    requires CreateOutcome(None, before, releaseId, backendSha, frontendSha, createdAt, digest, nameLe) == Ok(m)
    ensures AssertReleaseId(releaseId) == Some(m.releaseId)
    ensures forall name | name in COMPONENT_NAMES ::
      && name in m.components && name in before && before[name].Dir?
      && ComponentFiles(before, name, digest, nameLe) == Ok(m.components[name].files) && m.components[name].files != []
    ensures IsValidShape(m, m.releaseId)
      <==> forall name | name in COMPONENT_NAMES :: !HasBackslash(before[name].entries)
  {
    hide TotalPreorder, Trim, Listed, IsTracked, HasBackslash, AreValidEntries, HasFileNames, HasDistinctNames,
         IsClean, IsHex, IsReleaseId, ToEntries,
         StrictlySorted;
    var shas := map["backend" := AssertCommitSha(backendSha).value, "frontend" := AssertCommitSha(frontendSha).value];
    LowerOfHex(shas["backend"], 40);
    LowerOfHex(shas["frontend"], 40);
    CreatedComponents(before, shas, digest, nameLe);
    hide Lower, Components;
    forall name | name in COMPONENT_NAMES
      ensures IsValidComponent(m.components, name) <==> !HasBackslash(before[name].entries)
    {
      var entries := before[name].entries;
      ListingIsExact(entries, nameLe);
      ListedEntriesAreValid(entries, Listed(entries, nameLe).files, digest, nameLe);
      assert name == "backend" || name == "frontend";
    }
    assert "backend" in COMPONENT_NAMES && "frontend" in COMPONENT_NAMES;
    assert COMPONENT_NAMES[0] == "backend" && COMPONENT_NAMES[1] == "frontend";
  }

  /**
    After a manifest was created, verification succeeds exactly when both components are still clean directories with
    the same tracked files, siblings that tie in the locale still come in the same order, and no tracked path holds a
    backslash.
   */
  lemma VerifiesExactlyWhenUnchanged(m: Manifest, before: Folders, after: Folders, releaseId: string,
                                     backendSha: string, frontendSha: string, createdAt: Option<int>,
                                       digest: Bytes -> string, nameLe: (string, string) -> bool)
    requires TotalPreorder(nameLe) && IsFileSystem(before) && IsFileSystem(after) && forall content ::
      IsHex(digest(content), 64)
    requires CreateOutcome(None, before, releaseId, backendSha, frontendSha, createdAt, digest, nameLe) == Ok(m)
    ensures Verifies(Some(m), after, releaseId, digest, nameLe)
      <==> forall name | name in COMPONENT_NAMES ::
             name in before && before[name].Dir? && !HasBackslash(before[name].entries)
               && IsUnchanged(before, after, name, digest, nameLe)
  {
    hide TotalPreorder, ComponentFiles, HasBackslash, IsUnchanged, IsValidShape, CreateOutcome, IsFileSystem,
         AssertReleaseId, IsHex;
    ShapeAfterCreation(m, before, releaseId, backendSha, frontendSha, createdAt, digest, nameLe);
    BothNames();
    ComponentMatches(before, after, "backend", digest, nameLe);
    ComponentMatches(before, after, "frontend", digest, nameLe);
    assert Matches(m, after, "backend", digest, nameLe) <==> IsUnchanged(before, after, "backend", digest, nameLe);
    assert Matches(m, after, "frontend", digest, nameLe) <==> IsUnchanged(before, after, "frontend", digest, nameLe);
    hide Matches;
  }

  lemma BothNames()
    ensures COMPONENT_NAMES[0] == "backend" && COMPONENT_NAMES[1] == "frontend" && |COMPONENT_NAMES| == 2
    ensures forall name :: name in COMPONENT_NAMES <==> name == "backend" || name == "frontend"
  {
  }

  /** An empty or missing component refuses the manifest. */
  lemma EmptyComponentsAreRefused(before: Folders, releaseId: string, backendSha: string, frontendSha: string,
                                  createdAt: Option<int>, digest: Bytes -> string, nameLe: (string, string) -> bool,
                                    name: string)
    requires TotalPreorder(nameLe) && IsFileSystem(before) && name in COMPONENT_NAMES
    requires name !in before || !before[name].Dir? || forall path, content ::
      !IsTracked(before[name].entries, path, content)
    ensures CreateOutcome(None, before, releaseId, backendSha, frontendSha, createdAt, digest, nameLe).Fail?
  {
    hide TotalPreorder, AssertReleaseId, AssertCommitSha, Components, HasDistinctNames, HasFileNames, Listed,
         IsTracked, IsClean, StrictlySorted;
    if AssertCommitSha(backendSha).Some? && AssertCommitSha(frontendSha).Some? {
      CreatedComponents(before, map["backend" := AssertCommitSha(backendSha).value,
                                    "frontend" := AssertCommitSha(frontendSha).value], digest, nameLe);
    }
    if name in before && before[name].Dir? {
      ListingIsExact(before[name].entries, nameLe);
      ListedIsTracked(before[name].entries, Listed(before[name].entries, nameLe));
    }
  }

  lemma ListedIsTracked(entries: seq<Entry>, listing: Listing)
    requires listing.Files? ==> forall path, content ::
      Tracked(path, content) in listing.files <==> IsTracked(entries, path, content)
    ensures listing.Files? && listing.files != [] ==> exists path, content :: IsTracked(entries, path, content)
  {
    hide IsTracked;
    if listing.Files? && listing.files != [] {
      var f := listing.files[0];
      assert Tracked(f.path, f.content) in listing.files;
    }
  }

  /** Where no two contents of the two trees collide, equal fingerprints mean equal files. */
  ghost predicate NoCollision(a: seq<Entry>, b: seq<Entry>, digest: Bytes -> string) {
    forall path, x, y | IsTracked(a, path, x) && IsTracked(b, path, y) && |x| == |y| && digest(x) == digest(y) :: x == y
  }

  lemma FingerprintsMeanContents(a: seq<Entry>, b: seq<Entry>, digest: Bytes -> string)
    requires NoCollision(a, b, digest)
    ensures SameFingerprints(a, b, digest)
      <==> forall path, content :: IsTracked(a, path, content) <==> IsTracked(b, path, content)
  {
    hide IsTracked;
    if SameFingerprints(a, b, digest) {
      forall path, content
        ensures IsTracked(a, path, content) <==> IsTracked(b, path, content)
      {
        if IsTracked(a, path, content) {
          assert HasFingerprint(a, path, |content|, digest(content), digest);
          assert HasFingerprint(b, path, |content|, digest(content), digest);
        }
        if IsTracked(b, path, content) {
          assert HasFingerprint(b, path, |content|, digest(content), digest);
          assert HasFingerprint(a, path, |content|, digest(content), digest);
        }
      }
    } else {
      var path, bytes, sha256 :| HasFingerprint(a, path, bytes, sha256, digest) != HasFingerprint(b, path, bytes,
          sha256, digest);
      if HasFingerprint(a, path, bytes, sha256, digest) {
        var content :| IsTracked(a, path, content) && |content| == bytes && digest(content) == sha256;
        assert !IsTracked(b, path, content);
      } else {
        var content :| IsTracked(b, path, content) && |content| == bytes && digest(content) == sha256;
        assert !IsTracked(a, path, content);
      }
    }
  }

  /** If two names tie in the locale's order, the directory order shows in the list and verification can fail. */
  lemma TiesShow(a: string, b: string, x: Bytes, y: Bytes, nameLe: (string, string) -> bool)
    requires a != b && nameLe(a, b) && nameLe(b, a) && a !in IGNORED && b !in IGNORED
    requires !IsForbiddenEnvironmentFile(a) && !IsForbiddenEnvironmentFile(b)
    ensures Listed([Entry(a, File(x)), Entry(b, File(y))], nameLe) == Files([Tracked([a], x), Tracked([b], y)])
    ensures Listed([Entry(b, File(y)), Entry(a, File(x))], nameLe) == Files([Tracked([b], y), Tracked([a], x)])
  {
    ListedTwo(a, b, x, y, nameLe);
    ListedTwo(b, a, y, x, nameLe);
  }

  lemma ListedTwo(a: string, b: string, x: Bytes, y: Bytes, nameLe: (string, string) -> bool)
    requires nameLe(a, b) && a !in IGNORED && b !in IGNORED && !IsForbiddenEnvironmentFile(a)
      && !IsForbiddenEnvironmentFile(b)
    ensures Listed([Entry(a, File(x)), Entry(b, File(y))], nameLe) == Files([Tracked([a], x), Tracked([b], y)])
  {
    hide IsForbiddenEnvironmentFile;
    var e, f := Entry(a, File(x)), Entry(b, File(y));
    assert [e, f][1..] == [f] && [f][1..] == [];
    assert Sort([f], NameOrder(nameLe)) == [f] + [];
    assert Sort([e, f], NameOrder(nameLe)) == [e] + [f];
    assert [e] + [f] == [e, f];
    WalkIsJoin([f], [], nameLe);
    WalkIsJoin([e, f], [], nameLe);
    assert [] + [a] == [a] && [] + [b] == [b];
  }

  // -------------------------------------------------------------------- what is accepted, character by character

  const HEX_LETTERS := "abcdef"

  lemma HexLettersAre(c: char)
    ensures 'a' <= c <= 'f' <==> c in HEX_LETTERS
  {
    if 'a' <= c <= 'f' {
      assert HEX_LETTERS[c as int - 'a' as int] == c;
    }
  }

  ghost predicate IsLetterOrDigit(c: char) {
    c in CAPITALS || c in SMALL_LETTERS || c in DIGITS
  }

  lemma AlphanumericsAre(c: char)
    ensures IsAlphanumeric(c) <==> IsLetterOrDigit(c)
  {
    hide CAPITALS, SMALL_LETTERS, DIGITS;
    Capital(c);
    SmallLetter(c);
    DigitMeans(c);
  }

  /**
    A release id is accepted exactly as 6 to 96 letters, digits, dots, underscores and hyphens, the first a letter or
    digit, after the white space around it is dropped; so it is a single path part, and accepted again as it is.
   */
  lemma ReleaseIdMeans(value: string, id: string)
    ensures AssertReleaseId(value) == Some(id) <==>
            && id == Trim(value) && 6 <= |id| <= 96 && IsLetterOrDigit(id[0])
            && forall c | c in id :: IsLetterOrDigit(c) || c in "._-"
    ensures AssertReleaseId(value) == Some(id) ==>
      PathParts(id) == [id] && id != "." && id != ".." && '\\' !in id && AssertReleaseId(id) == Some(id)
  {
    ReleaseIdIs(id);
    hide Trim, IsLetterOrDigit;
    if IsReleaseId(id) {
      SafeId(id);
    }
    hide IsReleaseId;
  }

  lemma ReleaseIdIs(id: string)
    ensures IsReleaseId(id) <==>
            && 6 <= |id| <= 96 && IsLetterOrDigit(id[0])
            && forall c | c in id :: IsLetterOrDigit(c) || c in "._-"
  {
    forall i | 0 <= i < |id|
      ensures IsAlphanumeric(id[i]) <==> IsLetterOrDigit(id[i])
      ensures id[i] in {'.', '_', '-'} <==> id[i] in "._-"
    {
      AlphanumericsAre(id[i]);
    }
    hide IsLetterOrDigit, IsAlphanumeric;
    assert forall i | 0 <= i < |id| :: id[i] in id;
  }

  lemma SafeId(id: string)
    requires IsReleaseId(id)
    ensures PathParts(id) == [id] && id != "." && id != ".." && '\\' !in id && Trim(id) == id
  {
    hide PathParts, Trim;
    assert forall i | 0 <= i < |id| :: id[i] != '/' && id[i] != '\\' && !IsSpace(id[i]);
    SplitName(id);
    TrimmedStays(id);
  }

  lemma HexMeans(s: string, length: nat)
    ensures IsHex(s, length) <==> |s| == length && forall c | c in s :: c in DIGITS || c in HEX_LETTERS
  {
    hide DIGITS, HEX_LETTERS;
    forall i | 0 <= i < |s|
      ensures IsDigit(s[i]) || 'a' <= s[i] <= 'f' <==> s[i] in DIGITS || s[i] in HEX_LETTERS
    {
      DigitMeans(s[i]);
      HexLettersAre(s[i]);
    }
    assert forall i | 0 <= i < |s| :: s[i] in s;
  }

  /** The two dots stand at `i` as a whole part of the path. */
  predicate HasDotsAt(s: string, i: int) {
    && 0 <= i <= |s| - 2 && s[i] == '.' && s[i + 1] == '.'
    && (i == 0 || s[i - 1] == '/') && (i + 2 == |s| || s[i + 2] == '/')
  }

  lemma {:induction false} FirstPart(s: string)
    ensures var head := PathParts(s)[0];
      |head| <= |s| && s[..|head|] == head && (|head| == |s| || s[|head|] == '/') && '/' !in head
  {
    if s != "" && s[0] != '/' {
      FirstPart(s[1..]);
    }
  }

  /** A path climbs exactly when two dots stand in it as a whole part. */
  lemma {:induction false} ClimbsExactly(s: string)
    ensures ".." in PathParts(s)[1..] <==> exists i :: HasDotsAt(s, i) && i > 0
    ensures ".." == PathParts(s)[0] <==> HasDotsAt(s, 0)
  {
    FirstPart(s);
    if s != "" {
      var rest := s[1..];
      ClimbsExactly(rest);
      FirstPart(rest);
      if j :| HasDotsAt(rest, j) && j > 0 {
        assert HasDotsAt(s, j + 1);
      }
      if i :| HasDotsAt(s, i) && i > 1 {
        assert HasDotsAt(rest, i - 1);
      }
      if s[0] == '/' {
        assert HasDotsAt(s, 1) <==> HasDotsAt(rest, 0);
        assert PathParts(s)[1..] == PathParts(rest);
        assert PathParts(rest) == [PathParts(rest)[0]] + PathParts(rest)[1..];
      } else {
        assert !HasDotsAt(s, 1);
        assert PathParts(s)[1..] == PathParts(rest)[1..];
      }
    }
  }

  lemma CommitShaMeans(value: string, sha: string)
    ensures AssertCommitSha(value) == Some(sha) <==>
            sha == Lower(Trim(value)) && |sha| == 40 && forall c | c in sha :: c in DIGITS || c in HEX_LETTERS
  {
    HexMeans(Lower(Trim(value)), 40);
    hide Lower, Trim, IsHex, DIGITS, HEX_LETTERS;
  }

  /** A path that stays below its component, a size, and a digest in small letters. */
  ghost predicate IsSoundEntry(e: FileEntry) {
    && e.path != "" && '\\' !in e.path && e.path[0] != '/' && (forall i :: !HasDotsAt(e.path, i))
    && e.bytes >= 0
    && |e.sha256| == 64 && forall c | c in e.sha256 :: c in DIGITS || c in HEX_LETTERS
  }

  lemma EntryMeans(e: FileEntry)
    ensures IsValidEntry(e) <==> IsSoundEntry(e)
  {
    HexMeans(e.sha256, 64);
    ClimbsExactly(e.path);
    assert PathParts(e.path) == [PathParts(e.path)[0]] + PathParts(e.path)[1..];
    hide IsHex, DIGITS, HEX_LETTERS, PathParts;
    if i :| HasDotsAt(e.path, i) {
      assert i == 0 || i > 0;
    }
  }

  ghost predicate IsSoundComponent(components: map<string, Component>, name: string) {
    && name in components && components[name].root == name
    && AssertCommitSha(components[name].commitSha).Some?
    && (forall e | e in components[name].files :: IsSoundEntry(e))
    && (forall i, j | 0 <= i < j < |components[name].files| ::
          components[name].files[i].path != components[name].files[j].path)
  }

  lemma ComponentMeans(components: map<string, Component>, name: string)
    ensures IsValidComponent(components, name) <==> IsSoundComponent(components, name)
  {
    hide IsValidEntry, IsSoundEntry, AssertCommitSha;
    if name in components {
      forall i | 0 <= i < |components[name].files|
        ensures IsValidEntry(components[name].files[i]) <==> IsSoundEntry(components[name].files[i])
      {
        EntryMeans(components[name].files[i]);
      }
    }
  }

  /**
    A manifest is accepted exactly with schema 1, the manual strategy, no automatic deployment, its own release id, an
    instant, and both components: each under its own root, of one commit, with distinct paths that stay below it.
   */
  lemma ShapeMeans(m: Manifest, releaseId: string)
    ensures IsValidShape(m, releaseId) <==>
            && m.schemaVersion == 1 && m.strategy == "manual-atomic-symlink" && m.automaticDeployment == false
            && m.releaseId == releaseId && m.createdAt.Some?
            && IsSoundComponent(m.components, "backend") && IsSoundComponent(m.components, "frontend")
  {
    ComponentMeans(m.components, "backend");
    ComponentMeans(m.components, "frontend");
    hide IsValidComponent, IsSoundComponent;
    assert COMPONENT_NAMES[0] == "backend" && COMPONENT_NAMES[1] == "frontend";
  }

  /** The component is a directory with files to list, and nothing in it that refuses the listing. */
  ghost predicate CanBeListed(folders: Folders, name: string) {
    && name in folders && folders[name].Dir? && HasOnlyAllowed(folders[name].entries)
    && exists path, content :: Reaches(folders[name].entries, path, File(content)) && IsPlain(path)
  }

  /** The component lists the regular files of its directory: their path, size and digest. */
  ghost predicate ListsFiles(c: Component, entries: seq<Entry>, digest: Bytes -> string) {
    forall e :: e in c.files <==>
                exists path, content | Reaches(entries, path, File(content)) && IsPlain(path) ::
                  e == FileEntry(Slashed(path), |content|, digest(content))
  }

  lemma ComponentFilesAre(folders: Folders, name: string, digest: Bytes -> string, nameLe: (string, string) -> bool)
    requires TotalPreorder(nameLe) && IsFileSystem(folders)
    ensures var r := ComponentFiles(folders, name, digest, nameLe);
      && (r.Ok? && r.value != [] <==> CanBeListed(folders, name))
      && (r.Ok? ==> forall sha :: ListsFiles(Component(name, sha, r.value), folders[name].entries, digest))
  {
    hide TotalPreorder, Listed, HasDistinctNames, HasFileNames, Reaches, IsPlain, HasOnlyAllowed;
    if name in folders && folders[name].Dir? {
      var entries := folders[name].entries;
      ListingByPaths(entries, nameLe);
      if Listed(entries, nameLe).Files? {
        var files := Listed(entries, nameLe).files;
        var listed := ToEntries(files, digest);
        EntriesList(files, digest);
        if files != [] {
          assert Tracked(files[0].path, files[0].content) in files;
        }
        forall sha
          ensures ListsFiles(Component(name, sha, listed), entries, digest)
        {
        }
      }
    }
  }

  lemma EntriesList(files: seq<Tracked>, digest: Bytes -> string)
    ensures forall e :: e in ToEntries(files, digest) <==>
                        exists path, content | Tracked(path, content) in files ::
                          e == FileEntry(Slashed(path), |content|, digest(content))
  {
    hide Slashed;
    var entries := ToEntries(files, digest);
    forall e
      ensures e in entries <==> exists path, content | Tracked(path, content) in files ::
        e == FileEntry(Slashed(path), |content|, digest(content))
    {
      if e in entries {
        var i :| 0 <= i < |entries| && entries[i] == e;
        assert Tracked(files[i].path, files[i].content) in files;
      }
      if path, content :| Tracked(path, content) in files && e == FileEntry(Slashed(path), |content|, digest(content)) {
        var i :| 0 <= i < |files| && files[i] == Tracked(path, content);
        assert entries[i] == e;
      }
    }
  }

  /**
    A manifest is written exactly when there is none yet, the id, both commits and the instant are valid, and both
    components can be listed; it then says just that, with every regular file of both components.
   */
  lemma CreatesExactly(existing: Option<Manifest>, folders: Folders, releaseId: string, backendSha: string,
                       frontendSha: string, createdAt: Option<int>, digest: Bytes -> string,
                       nameLe: (string, string) -> bool)
    requires TotalPreorder(nameLe) && IsFileSystem(folders)
    ensures var r := CreateOutcome(existing, folders, releaseId, backendSha, frontendSha, createdAt, digest, nameLe);
      var id := AssertReleaseId(releaseId);
      var backend, frontend := AssertCommitSha(backendSha), AssertCommitSha(frontendSha);
      && (r.Ok? <==>
            && existing.None? && id.Some? && backend.Some? && frontend.Some? && createdAt.Some?
            && CanBeListed(folders, "backend") && CanBeListed(folders, "frontend"))
      && (r.Ok? ==>
            var m := r.value;
            && m.schemaVersion == 1 && m.strategy == "manual-atomic-symlink" && m.automaticDeployment == false
            && m.releaseId == id.value && m.createdAt == createdAt
            && "backend" in m.components && "frontend" in m.components
            && m.components["backend"].root == "backend" && m.components["frontend"].root == "frontend"
            && m.components["backend"].commitSha == backend.value
            && m.components["frontend"].commitSha == frontend.value
            && ListsFiles(m.components["backend"], folders["backend"].entries, digest)
            && ListsFiles(m.components["frontend"], folders["frontend"].entries, digest))
  {
    var backend, frontend := AssertCommitSha(backendSha), AssertCommitSha(frontendSha);
    BothNames();
    hide TotalPreorder, IsFileSystem, AssertReleaseId, AssertCommitSha, ComponentFiles, CanBeListed, ListsFiles;
    if backend.Some? && frontend.Some? {
      CreatedComponents(folders, map["backend" := backend.value, "frontend" := frontend.value], digest, nameLe);
      ComponentFilesAre(folders, "backend", digest, nameLe);
      ComponentFilesAre(folders, "frontend", digest, nameLe);
    }
    hide Components;
  }
}
