/**
  The preflight marker of a release, and the two checks an activation makes (src/system/atomic-release.js:230-249,
  263-423). A release directory is one tree that holds the components, the manifest, the application's report and the
  marker.
 */
module ReleasePreflight {
  import opened Options
  import opened Sorting
  import opened ReleaseTree
  import opened ReleaseManifest

  datatype Report = Report(
    schemaVersion: int, kind: string, status: string, automaticDeployment: bool, releaseId: string, checks: seq<string>)

  /** `reportPath` is resolved against the release directory; it is empty where it leads out of it. */
  datatype Marker = Marker(status: string, releaseId: string, manifestSha: string, reportPath: Path, reportSha: string)

  /** How files are read: SHA-256, the locale's order of names, and the three kinds of JSON file. */
  datatype Reader = Reader(
    digest: Bytes -> string, nameLe: (string, string) -> bool, manifestOf: Bytes -> Option<Manifest>,
    reportOf: Bytes -> Option<Report>, markerOf: Bytes -> Option<Marker>)

  type Directory = seq<Entry>

  datatype SharedItem = SharedDirectory | EnvFile(isPrivate: bool) | OtherItem

  const MANIFEST_FILE := "release-manifest.json"
  const PREFLIGHT_FILE := ".atomic-preflight.json"
  const SHARED_DIRECTORIES := ["logs", "reports", "uploads", "seputar-jaminan-public"]
  const SHARED_FILES := ["env/backend.env", "env/frontend.env"]
  const REQUIRED_FILES: seq<Path> :=
    [["backend", "package.json"], ["frontend", "package.json"], ["frontend", ".next", "BUILD_ID"]]
  const MIGRATIONS: Path := ["backend", "prisma", "migrations"]

  // ------------------------------------------------------------------------------ looking into a release

  function Child(directory: Directory, name: string): Option<Node> {
    if directory == [] then None
    else if directory[0].name == name then Some(directory[0].node)
    else Child(directory[1..], name)
  }

  function Find(directory: Directory, path: Path): Option<Node>
    decreases |path|
  {
    if path == [] then None
    else match Child(directory, path[0])
      case None => None
      case Some(node) =>
        if |path| == 1 then Some(node) else if node.Dir? then Find(node.entries, path[1..]) else None
  }

  function FileAt(directory: Directory, path: Path): Option<Bytes> {
    match Find(directory, path)
    case Some(File(content)) => Some(content)
    case _ => None
  }

  function FoldersOf(directory: Directory): Folders {
    map name | name in COMPONENT_NAMES && Child(directory, name).Some? :: Child(directory, name).value
  }

  function ManifestIn(directory: Directory, r: Reader): Option<Manifest> {
    match FileAt(directory, [MANIFEST_FILE])
    case None => None
    case Some(content) => r.manifestOf(content)
  }

  function MarkerIn(directory: Directory, r: Reader): Option<Marker> {
    match FileAt(directory, [PREFLIGHT_FILE])
    case None => None
    case Some(content) => r.markerOf(content)
  }

  // --------------------------------------------------------------------------------------- the checks

  /** `verifyReleaseManifest` on the directory. */
  predicate ManifestPasses(directory: Directory, releaseId: string, r: Reader) {
    Verifies(ManifestIn(directory, r), FoldersOf(directory), releaseId, r.digest, r.nameLe)
  }

  predicate IsPassedReport(report: Report, releaseId: string) {
    && report.schemaVersion == 1 && report.kind == "preflight" && report.status == "passed"
       && !report.automaticDeployment
    && report.releaseId == releaseId && report.checks != []
    && forall i | 0 <= i < |report.checks| :: report.checks[i] == "passed"
  }

  /** The digest of a readable report inside the release that says every check passed. */
  function VerifyReport(directory: Directory, path: Path, releaseId: string, r: Reader): Option<string> {
    match FileAt(directory, path)
    case None => None
    case Some(content) =>
      match r.reportOf(content)
      case None => None
      case Some(report) => if IsPassedReport(report, releaseId) then Some(r.digest(content)) else None
  }

  /** `verifyPreflightMarker` on the directory. */
  predicate MarkerPasses(directory: Directory, releaseId: string, r: Reader) {
    var id, marker, manifest := AssertReleaseId(releaseId), MarkerIn(directory, r), FileAt(directory, [MANIFEST_FILE]);
    && id.Some? && marker.Some? && manifest.Some?
    && marker.value.status == "passed" && marker.value.releaseId == id.value
    && marker.value.manifestSha == r.digest(manifest.value)
    && VerifyReport(directory, marker.value.reportPath, id.value, r) == Some(marker.value.reportSha)
  }

  predicate Passes(directory: Directory, releaseId: string, r: Reader) {
    ManifestPasses(directory, releaseId, r) && MarkerPasses(directory, releaseId, r)
  }

  // -------------------------------------------------------------------------------------- the preflight

  predicate HasSharedLayout(shared: map<string, SharedItem>) {
    && (forall i | 0 <= i < |SHARED_DIRECTORIES| ::
        SHARED_DIRECTORIES[i] in shared && shared[SHARED_DIRECTORIES[i]].SharedDirectory?)
    && (forall i | 0 <= i < |SHARED_FILES| :: SHARED_FILES[i] in shared && shared[SHARED_FILES[i]] == EnvFile(true))
  }

  predicate HasArtefacts(directory: Directory) {
    && (forall i | 0 <= i < |REQUIRED_FILES| :: FileAt(directory, REQUIRED_FILES[i]).Some?)
    && match Find(directory, MIGRATIONS)
       case Some(Dir(entries)) => exists i | 0 <= i < |entries| :: entries[i].node.Dir?
       case _ => false
  }

  /** The marker a preflight writes, or nothing. */
  function Preflight(directory: Directory, shared: map<string, SharedItem>, releaseId: string, reportPath: Path,
                     r: Reader): Option<Marker> {
    var id, manifest := AssertReleaseId(releaseId), FileAt(directory, [MANIFEST_FILE]);
    if id.None? || manifest.None? || !ManifestPasses(directory, releaseId, r) || !HasSharedLayout(shared) then None
    else match VerifyReport(directory, reportPath, id.value, r)
      case None => None
      case Some(reportSha) =>
        if !HasArtefacts(directory) then None
        else Some(Marker("passed", id.value, r.digest(manifest.value), reportPath, reportSha))
  }

  // --------------------------------------------------------------------- what the checks ask for, exactly

  lemma {:induction false} ChildMeans(directory: Directory, name: string, node: Node)
    requires forall i, j | 0 <= i < j < |directory| :: directory[i].name != directory[j].name
    ensures Child(directory, name) == Some(node)
      <==> exists i :: 0 <= i < |directory| && directory[i] == Entry(name, node)
  {
    if directory != [] {
      var rest := directory[1..];
      assert forall i | 0 < i < |directory| :: directory[i] == rest[i - 1];
      ChildMeans(rest, name, node);
      if directory[0].name == name {
        assert directory[0] == Entry(name, directory[0].node);
      }
    }
  }

  /** What is looked up in a release is what its path leads to, and a path that leads nowhere finds nothing. */
  lemma {:induction false} FindMeans(directory: Directory, path: Path, node: Node)
    requires HasDistinctNames(directory)
    ensures Find(directory, path) == Some(node) <==> Reaches(directory, path, node)
    decreases |path|
  {
    if path != [] {
      forall i | 0 <= i < |directory| && directory[i].name == path[0]
        ensures Child(directory, path[0]) == Some(directory[i].node)
      {
        assert directory[i] == Entry(path[0], directory[i].node);
        ChildMeans(directory, path[0], directory[i].node);
      }
      var child := Child(directory, path[0]);
      if child.Some? {
        ChildMeans(directory, path[0], child.value);
        if |path| > 1 && child.value.Dir? {
          FindMeans(child.value.entries, path[1..], node);
        }
      }
    }
  }

  /** The file at `path` reads as a report of this release's preflight in which there were checks, and all passed. */
  ghost predicate HoldsPassedReport(directory: Directory, path: Path, releaseId: string, r: Reader) {
    var file := FileAt(directory, path);
    && file.Some? && r.reportOf(file.value).Some?
    && var report := r.reportOf(file.value).value;
       && report.schemaVersion == 1 && report.kind == "preflight" && report.status == "passed"
       && report.releaseId == releaseId && report.automaticDeployment == false
       && |report.checks| >= 1 && forall check | check in report.checks :: check == "passed"
  }

  lemma ReportIsVerifiedExactly(directory: Directory, path: Path, releaseId: string, r: Reader)
    ensures VerifyReport(directory, path, releaseId, r).Some? <==> HoldsPassedReport(directory, path, releaseId, r)
    ensures VerifyReport(directory, path, releaseId, r).Some? ==>
      VerifyReport(directory, path, releaseId, r).value == r.digest(FileAt(directory, path).value)
  {
    var file := FileAt(directory, path);
    hide FileAt;
    if file.Some? && r.reportOf(file.value).Some? {
      var checks := r.reportOf(file.value).value.checks;
      assert forall i | 0 <= i < |checks| :: checks[i] in checks;
    }
  }

  /** The directories and files a release needs beside it and inside it. */
  ghost predicate IsEquipped(directory: Directory, shared: map<string, SharedItem>) {
    && (forall name | name in {"logs", "reports", "uploads", "seputar-jaminan-public"} ::
          name in shared && shared[name] == SharedDirectory)
    && (forall name | name in {"env/backend.env", "env/frontend.env"} ::
          name in shared && shared[name] == EnvFile(true))
    && FileAt(directory, ["backend", "package.json"]).Some?
    && FileAt(directory, ["frontend", "package.json"]).Some?
    && FileAt(directory, ["frontend", ".next", "BUILD_ID"]).Some?
    && var migrations := Find(directory, ["backend", "prisma", "migrations"]);
       migrations.Some? && migrations.value.Dir? && exists entry | entry in migrations.value.entries :: entry.node.Dir?
  }

  lemma EquippedMeans(directory: Directory, shared: map<string, SharedItem>)
    ensures HasSharedLayout(shared) && HasArtefacts(directory) <==> IsEquipped(directory, shared)
  {
    hide Find, FileAt;
    assert SHARED_DIRECTORIES[0] == "logs" && SHARED_DIRECTORIES[1] == "reports";
    assert SHARED_DIRECTORIES[2] == "uploads" && SHARED_DIRECTORIES[3] == "seputar-jaminan-public";
    assert SHARED_FILES[0] == "env/backend.env" && SHARED_FILES[1] == "env/frontend.env";
    assert REQUIRED_FILES[0] == ["backend", "package.json"] && REQUIRED_FILES[1] == ["frontend", "package.json"];
    assert REQUIRED_FILES[2] == ["frontend", ".next", "BUILD_ID"];
  }

  /**
    A preflight passes exactly when the manifest verifies, the release is equipped, and its report says that every check
    passed; the marker then names that report and the digests of both files.
   */
  lemma PreflightNeedsAPassedReport(directory: Directory, shared: map<string, SharedItem>, releaseId: string,
                                    reportPath: Path, r: Reader)
    ensures var id, marker := AssertReleaseId(releaseId), Preflight(directory, shared, releaseId, reportPath, r);
      && (marker.Some? <==>
            && id.Some? && ManifestPasses(directory, releaseId, r) && IsEquipped(directory, shared)
            && HoldsPassedReport(directory, reportPath, id.value, r))
      && (marker.Some? ==>
            && FileAt(directory, ["release-manifest.json"]).Some? && FileAt(directory, reportPath).Some?
            && marker.value == Marker("passed", id.value, r.digest(FileAt(directory, ["release-manifest.json"]).value),
                                      reportPath, r.digest(FileAt(directory, reportPath).value)))
  {
    EquippedMeans(directory, shared);
    if AssertReleaseId(releaseId).Some? {
      ReportIsVerifiedExactly(directory, reportPath, AssertReleaseId(releaseId).value, r);
    }
    hide Find, FileAt, AssertReleaseId, HasSharedLayout, HasArtefacts, IsEquipped, VerifyReport, HoldsPassedReport;
  }

  /**
    The marker passes exactly when it is a passed one of this release, carries the manifest's digest and that of the
    report it names, and that report says that every check passed.
   */
  lemma MarkerNeedsAPassedReport(directory: Directory, releaseId: string, r: Reader)
    ensures var id, file := AssertReleaseId(releaseId), FileAt(directory, [".atomic-preflight.json"]);
      MarkerPasses(directory, releaseId, r) <==>
        && id.Some? && file.Some? && r.markerOf(file.value).Some?
        && var marker := r.markerOf(file.value);
        && marker.Some? && marker.value.status == "passed" && marker.value.releaseId == id.value
        && FileAt(directory, ["release-manifest.json"]).Some?
        && marker.value.manifestSha == r.digest(FileAt(directory, ["release-manifest.json"]).value)
        && HoldsPassedReport(directory, marker.value.reportPath, id.value, r)
        && marker.value.reportSha == r.digest(FileAt(directory, marker.value.reportPath).value)
  {
    var id, marker := AssertReleaseId(releaseId), MarkerIn(directory, r);
    if id.Some? && marker.Some? {
      ReportIsVerifiedExactly(directory, marker.value.reportPath, id.value, r);
    }
    hide MarkerIn, AssertReleaseId, VerifyReport;
  }

  /** The marker in the directory leads to a report of this release that every check passed. */
  ghost predicate ShowsPassedReport(directory: Directory, releaseId: string, r: Reader) {
    && MarkerIn(directory, r).Some? && AssertReleaseId(releaseId).Some?
    && HoldsPassedReport(directory, MarkerIn(directory, r).value.reportPath, AssertReleaseId(releaseId).value, r)
  }

  // ------------------------------------------------------------------------- later checks, exactly

  /** The file is there before and after, with the same bytes. */
  predicate IsKept(before: Directory, after: Directory, path: Path) {
    FileAt(before, path).Some? && FileAt(after, path) == FileAt(before, path)
  }

  /** The file's contents before and after share a digest only when they are equal. */
  predicate Distinguishes(r: Reader, before: Directory, after: Directory, path: Path) {
    var a, b := FileAt(before, path), FileAt(after, path);
    a.Some? && b.Some? && r.digest(a.value) == r.digest(b.value) ==> a == b
  }

  /**
    A marker written by a preflight verifies later exactly when the manifest and the application report are still the
    same files; it stays bound to the release it was written for.
   */
  lemma MarkerVerifiesExactlyWhileKept(before: Directory, after: Directory, shared: map<string, SharedItem>,
                                       releaseId: string, laterId: string, reportPath: Path, r: Reader)
    requires Preflight(before, shared, releaseId, reportPath, r).Some?
    requires MarkerIn(after, r) == Preflight(before, shared, releaseId, reportPath, r)
    requires Distinguishes(r, before, after, [MANIFEST_FILE]) && Distinguishes(r, before, after, reportPath)
    ensures MarkerPasses(after, laterId, r)
      <==> AssertReleaseId(laterId) == AssertReleaseId(releaseId)
           && IsKept(before, after, [MANIFEST_FILE]) && IsKept(before, after, reportPath)
    ensures ManifestPasses(before, releaseId, r) && HasSharedLayout(shared) && HasArtefacts(before)
  {
    hide HasSharedLayout, HasArtefacts, ManifestPasses, AssertReleaseId, IsPassedReport, Find;
  }

  /** What a file system guarantees of a release directory. */
  ghost predicate IsReleaseTree(directory: Directory) {
    HasDistinctNames(directory) && HasFileNames(directory)
  }

  lemma {:induction false} ChildIsEntry(directory: Directory, name: string)
    requires Child(directory, name).Some?
    ensures exists i :: 0 <= i < |directory| && directory[i] == Entry(name, Child(directory, name).value)
  {
    if directory[0].name == name {
      assert directory[0] == Entry(name, Child(directory, name).value);
    } else {
      ChildIsEntry(directory[1..], name);
      var i :| 0 <= i < |directory[1..]| && directory[1..][i] == Entry(name, Child(directory[1..], name).value);
      assert directory[i + 1] == directory[1..][i];
    }
  }

  lemma FoldersAreSound(directory: Directory)
    requires IsReleaseTree(directory)
    ensures IsFileSystem(FoldersOf(directory))
  {
    var folders := FoldersOf(directory);
    forall name | name in folders && folders[name].Dir?
      ensures HasDistinctNames(folders[name].entries) && HasFileNames(folders[name].entries)
    {
      ChildIsEntry(directory, name);
    }
  }

  /**
    After a preflight, and with its marker in place, both checks of an activation pass exactly when the manifest and the
    report are the same files and each component is unchanged: still clean, the same tracked files, ties in the same
    order.
   */
  lemma PassesExactlyWhileUnchanged(before: Directory, after: Directory, shared: map<string, SharedItem>,
                                    releaseId: string, reportPath: Path, r: Reader)
    requires TotalPreorder(r.nameLe) && IsReleaseTree(before) && IsReleaseTree(after)
    requires Preflight(before, shared, releaseId, reportPath, r).Some?
    requires MarkerIn(after, r) == Preflight(before, shared, releaseId, reportPath, r)
    requires Distinguishes(r, before, after, [MANIFEST_FILE]) && Distinguishes(r, before, after, reportPath)
    ensures Passes(after, releaseId, r)
      <==> IsKept(before, after, [MANIFEST_FILE]) && IsKept(before, after, reportPath)
           && forall name | name in COMPONENT_NAMES ::
              IsUnchanged(FoldersOf(before), FoldersOf(after), name, r.digest, r.nameLe)
  {
    hide Preflight, TotalPreorder, HasSharedLayout, HasArtefacts, IsUnchanged, IsFileSystem, IsReleaseTree, FileAt,
         MarkerPasses;
    MarkerVerifiesExactlyWhileKept(before, after, shared, releaseId, releaseId, reportPath, r);
    FoldersAreSound(before);
    FoldersAreSound(after);
    if IsKept(before, after, [MANIFEST_FILE]) {
      SameManifest(before, after, releaseId, r);
    }
  }

  /** With the same manifest, a directory passes exactly when its components are unchanged. */
  lemma SameManifest(before: Directory, after: Directory, releaseId: string, r: Reader)
    requires TotalPreorder(r.nameLe) && IsFileSystem(FoldersOf(before)) && IsFileSystem(FoldersOf(after))
    requires ManifestPasses(before, releaseId, r) && IsKept(before, after, [MANIFEST_FILE])
    ensures ManifestPasses(after, releaseId, r)
      <==> forall name | name in COMPONENT_NAMES ::
        IsUnchanged(FoldersOf(before), FoldersOf(after), name, r.digest, r.nameLe)
  {
    hide TotalPreorder, IsUnchanged, IsFileSystem, FoldersOf, IsValidShape, AssertReleaseId, ComponentFiles, FileAt;
    BothNames();
    var a, b := FoldersOf(before), FoldersOf(after);
    assert Matches(ManifestIn(before, r).value, a, "backend", r.digest, r.nameLe);
    assert Matches(ManifestIn(before, r).value, a, "frontend", r.digest, r.nameLe);
    ComponentMatches(a, b, "backend", r.digest, r.nameLe);
    ComponentMatches(a, b, "frontend", r.digest, r.nameLe);
  }
}
