/** The files of a release component, as the manifest lists them (src/system/atomic-release.js:10-20, 102-143). */
module ReleaseTree {
  import opened Options
  import opened Sorting
  import opened Texts

  type Bytes = seq<bv8>

  datatype Node = File(content: Bytes) | Dir(entries: seq<Entry>) | Symlink | Other
  datatype Entry = Entry(name: string, node: Node)

  const IGNORED: set<string> := {
    ".git", ".next", "coverage", "node_modules", "performance-reports", "playwright-report", "quality-reports",
    "release-reports", "test-results"}

  /** `.env` in any case, or `.env.` and at least one more character on the same line; `.env.example` is allowed. */
  predicate IsForbiddenEnvironmentFile(name: string) {
    && |name| >= 4 && name[0] == '.' && LowerChar(name[1]) == 'e' && LowerChar(name[2]) == 'n'
       && LowerChar(name[3]) == 'v'
    && (|| |name| == 4
        || (|name| > 5 && name[4] == '.' && forall i | 5 <= i < |name| ::
            name[i] !in {'\n', '\r', '\U{2028}', '\U{2029}'}))
    && name != ".env.example"
  }

  // ------------------------------------------------------------------------- what should be listed

  /** The regular file at `path`, reached without entering an ignored name. */
  predicate IsTracked(entries: seq<Entry>, path: seq<string>, content: Bytes)
    decreases |path|
  {
    && path != [] && path[0] !in IGNORED
    && exists i | 0 <= i < |entries| ::
         && entries[i].name == path[0]
         && if |path| == 1 then entries[i].node == File(content)
            else entries[i].node.Dir? && IsTracked(entries[i].node.entries, path[1..], content)
  }

  /** No environment file and no symbolic link outside the ignored names. */
  predicate IsClean(entries: seq<Entry>) {
    forall i | 0 <= i < |entries| :: IsCleanEntry(entries[i])
  }

  predicate IsCleanEntry(e: Entry) {
    e.name in IGNORED || (!IsForbiddenEnvironmentFile(e.name) && !e.node.Symlink?
                          && (e.node.Dir? ==> IsClean(e.node.entries)))
  }

  /** What a file system guarantees: names within a directory are distinct. */
  ghost predicate HasDistinctNames(entries: seq<Entry>) {
    && (forall i, j | 0 <= i < j < |entries| :: entries[i].name != entries[j].name)
    && (forall i | 0 <= i < |entries| && entries[i].node.Dir? :: HasDistinctNames(entries[i].node.entries))
  }

  // ---------------------------------------------------------------------------------------- the walk

  datatype Tracked = Tracked(path: seq<string>, content: Bytes)

  datatype Listing = Files(files: seq<Tracked>) | EnvironmentFile(name: string) | SymbolicLink(path: seq<string>)

  function NameOrder(nameLe: (string, string) -> bool): (Entry, Entry) -> bool {
    (a: Entry, b: Entry) => nameLe(a.name, b.name)
  }

  function Weight(entries: seq<Entry>): nat {
    if entries == [] then 0
    else 1 + (if entries[0].node.Dir? then Weight(entries[0].node.entries) else 0) + Weight(entries[1..])
  }

  function EntryWeight(e: Entry): nat {
    1 + if e.node.Dir? then Weight(e.node.entries) else 0
  }

  lemma {:induction false} InsertWeight(e: Entry, entries: seq<Entry>, le: (Entry, Entry) -> bool)
    ensures Weight(Insert(e, entries, le)) == EntryWeight(e) + Weight(entries)
  {
    if entries == [] || le(e, entries[0]) {
      assert ([e] + entries)[1..] == entries;
    } else {
      InsertWeight(e, entries[1..], le);
      assert ([entries[0]] + Insert(e, entries[1..], le))[1..] == Insert(e, entries[1..], le);
    }
  }

  lemma {:induction false} SortWeight(entries: seq<Entry>, le: (Entry, Entry) -> bool)
    ensures Weight(Sort(entries, le)) == Weight(entries)
  {
    if entries != [] {
      SortWeight(entries[1..], le);
      InsertWeight(entries[0], Sort(entries[1..], le), le);
    }
  }

  function Sorted(entries: seq<Entry>, nameLe: (string, string) -> bool): (sorted: seq<Entry>)
    ensures Weight(sorted) == Weight(entries)
  {
    SortWeight(entries, NameOrder(nameLe));
    Sort(entries, NameOrder(nameLe))
  }

  function Join(a: Listing, b: Listing): Listing {
    if a.Files? && b.Files? then Files(a.files + b.files) else if a.Files? then b else a
  }

  /** Visits sorted entries below the directory `at`; the first refusal stops the walk. */
  function Walk(entries: seq<Entry>, at: seq<string>, nameLe: (string, string) -> bool): Listing
    decreases Weight(entries)
  {
    if entries == [] then Files([])
    else
      var e := entries[0];
      Join(
        if e.name in IGNORED then Files([])
        else if IsForbiddenEnvironmentFile(e.name) then EnvironmentFile(e.name)
        else match e.node
          case Symlink => SymbolicLink(at + [e.name])
          case Dir(inner) => Walk(Sorted(inner, nameLe), at + [e.name], nameLe)
          case File(content) => Files([Tracked(at + [e.name], content)])
          case Other => Files([]),
        Walk(entries[1..], at, nameLe))
  }

  function Listed(entries: seq<Entry>, nameLe: (string, string) -> bool): Listing {
    Walk(Sorted(entries, nameLe), [], nameLe)
  }

  /** What one entry contributes to the walk. */
  function WalkOne(e: Entry, at: seq<string>, nameLe: (string, string) -> bool): Listing {
    if e.name in IGNORED then Files([])
    else if IsForbiddenEnvironmentFile(e.name) then EnvironmentFile(e.name)
    else match e.node
      case Symlink => SymbolicLink(at + [e.name])
      case Dir(inner) => Walk(Sorted(inner, nameLe), at + [e.name], nameLe)
      case File(content) => Files([Tracked(at + [e.name], content)])
      case Other => Files([])
  }

  lemma WalkIsJoin(entries: seq<Entry>, at: seq<string>, nameLe: (string, string) -> bool)
    requires entries != []
    ensures Walk(entries, at, nameLe) == Join(WalkOne(entries[0], at, nameLe), Walk(entries[1..], at, nameLe))
  {
    hide IsForbiddenEnvironmentFile, Sorted;
  }

  lemma JoinTwice(a: seq<Tracked>, one: Listing, rest: Listing)
    ensures one.Files? ==> Join(Files(a), Join(one, rest)) == Join(Files(a + one.files), rest)
    ensures !one.Files? ==> Join(Files(a), Join(one, rest)) == one
  {
    if one.Files? && rest.Files? {
      assert a + (one.files + rest.files) == a + one.files + rest.files;
    }
  }

  lemma RestWeight(entries: seq<Entry>, n: nat)
    requires n < |entries|
    ensures entries[n..][0] == entries[n] && entries[n..][1..] == entries[n + 1..]
    ensures Weight(entries[n..]) == EntryWeight(entries[n]) + Weight(entries[n + 1..])
  {
  }

  /** The recursive closure of the source, pushing into one list. */
  class Collector {
    var files: seq<Tracked>
    var refusal: Option<Listing>

    constructor ()
      ensures files == [] && refusal == None
    {
      files, refusal := [], None;
    }

    method Visit(directory: seq<Entry>, at: seq<string>, nameLe: (string, string) -> bool)
      requires refusal == None
      modifies this
      ensures match Walk(Sorted(directory, nameLe), at, nameLe)
        case Files(fs) => refusal == None && files == old(files) + fs
        case refused => refusal == Some(refused)
      decreases Weight(directory), 0
    {
      hide IsForbiddenEnvironmentFile, Walk, Weight, Join;
      var entries := Sorted(directory, nameLe);
      ghost var pushed: seq<Tracked> := [];
      assert entries[0..] == entries;
      NothingPushed(entries, at, nameLe);
      for n := 0 to |entries|
        invariant refusal == None && files == old(files) + pushed
        invariant Weight(entries[n..]) <= Weight(directory)
        invariant Walk(entries, at, nameLe) == Join(Files(pushed), Walk(entries[n..], at, nameLe))
      {
        var entry := entries[n];
        RestWeight(entries, n);
        WalkIsJoin(entries[n..], at, nameLe);
        JoinTwice(pushed, WalkOne(entry, at, nameLe), Walk(entries[n + 1..], at, nameLe));
        if entry.name in IGNORED {
          assert pushed + [] == pushed;
          continue;
        }
        if IsForbiddenEnvironmentFile(entry.name) {
          refusal := Some(EnvironmentFile(entry.name));
          return;
        }
        if entry.node.Symlink? {
          refusal := Some(SymbolicLink(at + [entry.name]));
          return;
        }
        if entry.node.Dir? {
          Visit(entry.node.entries, at + [entry.name], nameLe);
          if refusal != None {
            return;
          }
          pushed := pushed + WalkOne(entry, at, nameLe).files;
          continue;
        }
        if !entry.node.File? {
          assert pushed + [] == pushed;
          continue;
        }
        files := files + [Tracked(at + [entry.name], entry.node.content)];
        pushed := pushed + [Tracked(at + [entry.name], entry.node.content)];
      }
      EverythingPushed(entries, at, nameLe, pushed);
    }
  }

  lemma NothingPushed(entries: seq<Entry>, at: seq<string>, nameLe: (string, string) -> bool)
    ensures Walk(entries, at, nameLe) == Join(Files([]), Walk(entries, at, nameLe))
  {
    hide Walk;
    var w := Walk(entries, at, nameLe);
    if w.Files? {
      assert [] + w.files == w.files;
    }
  }

  lemma EverythingPushed(entries: seq<Entry>, at: seq<string>, nameLe: (string, string) -> bool, pushed: seq<Tracked>)
    ensures Join(Files(pushed), Walk(entries[|entries|..], at, nameLe)) == Files(pushed)
  {
    assert entries[|entries|..] == [] && pushed + [] == pushed;
  }

  // ------------------------------------------------------------------ the listing is exact and sorted

  type Path = seq<string>

  /** Where the paths part, the name of `p` is not above the name of `q`. */
  predicate PathLess(p: Path, q: Path, nameLe: (string, string) -> bool) {
    p != [] && q != [] && if p[0] == q[0] then PathLess(p[1..], q[1..], nameLe) else nameLe(p[0], q[0])
  }

  /** Where the paths part, the locale does not tell the two names apart. */
  predicate TieAt(p: Path, q: Path, nameLe: (string, string) -> bool) {
    && p != [] && q != []
    && if p[0] == q[0] then TieAt(p[1..], q[1..], nameLe) else nameLe(p[0], q[0]) && nameLe(q[0], p[0])
  }

  /** The directory yields the name `x` before the name `y`. */
  predicate IsAhead(entries: seq<Entry>, x: string, y: string) {
    exists i, j | 0 <= i < j < |entries| :: entries[i].name == x && entries[j].name == y
  }

  /** Where the paths part, their directory yields the name of `p` first. */
  predicate LiesAhead(entries: seq<Entry>, p: Path, q: Path)
    decreases |p|
  {
    && p != [] && q != []
    && if p[0] != q[0] then IsAhead(entries, p[0], q[0])
       else exists i | 0 <= i < |entries| ::
              entries[i].name == p[0] && entries[i].node.Dir? && LiesAhead(entries[i].node.entries, p[1..], q[1..])
  }

  /** The order of a listing: by name, and names that tie as the directory yields them. */
  predicate InOrder(entries: seq<Entry>, p: Path, q: Path, nameLe: (string, string) -> bool) {
    PathLess(p, q, nameLe) && (TieAt(p, q, nameLe) ==> LiesAhead(entries, p, q))
  }

  lemma {:induction false} LiesAheadIsAsymmetric(entries: seq<Entry>, p: Path, q: Path)
    requires HasDistinctNames(entries) && LiesAhead(entries, p, q)
    ensures !LiesAhead(entries, q, p)
    decreases |p|
  {
    if p[0] == q[0] {
      var i :| 0 <= i < |entries| && entries[i].name == p[0] && entries[i].node.Dir?
        && LiesAhead(entries[i].node.entries, p[1..], q[1..]);
      LiesAheadIsAsymmetric(entries[i].node.entries, p[1..], q[1..]);
    }
  }

  lemma {:induction false} BothWaysIsATie(p: Path, q: Path, nameLe: (string, string) -> bool)
    requires PathLess(p, q, nameLe)
    ensures p != q
    ensures PathLess(q, p, nameLe) <==> TieAt(p, q, nameLe)
    ensures TieAt(p, q, nameLe) == TieAt(q, p, nameLe)
  {
    if p[0] == q[0] {
      BothWaysIsATie(p[1..], q[1..], nameLe);
    }
  }

  lemma InOrderIsAsymmetric(entries: seq<Entry>, p: Path, q: Path, nameLe: (string, string) -> bool)
    requires HasDistinctNames(entries) && InOrder(entries, p, q, nameLe)
    ensures !InOrder(entries, q, p, nameLe) && p != q
  {
    hide PathLess, TieAt, LiesAhead, HasDistinctNames;
    BothWaysIsATie(p, q, nameLe);
    if LiesAhead(entries, p, q) {
      LiesAheadIsAsymmetric(entries, p, q);
    }
  }

  ghost predicate StrictlySorted(files: seq<Tracked>, entries: seq<Entry>, nameLe: (string, string) -> bool) {
    forall i, j | 0 <= i < j < |files| :: InOrder(entries, files[i].path, files[j].path, nameLe)
  }

  /** The files below `at` that come from `entries`. */
  ghost predicate ListsExactly(files: seq<Tracked>, entries: seq<Entry>, at: seq<string>) {
    && (forall f | f in files :: at <= f.path && IsTracked(entries, f.path[|at|..], f.content))
    && (forall path, content | IsTracked(entries, path, content) :: Tracked(at + path, content) in files)
  }

  /** The entries, some of those of `directory`, are sorted by name, and ties stand as in the directory. */
  ghost predicate InNameOrder(entries: seq<Entry>, directory: seq<Entry>, nameLe: (string, string) -> bool) {
    forall i, j | 0 <= i < j < |entries| :: Precedes(directory, entries[i].name, entries[j].name, nameLe)
  }

  ghost predicate Precedes(directory: seq<Entry>, x: string, y: string, nameLe: (string, string) -> bool) {
    nameLe(x, y) && (nameLe(y, x) ==> IsAhead(directory, x, y))
  }

  ghost predicate IsPartOf(entries: seq<Entry>, directory: seq<Entry>) {
    forall i | 0 <= i < |entries| :: entries[i] in directory
  }

  lemma {:induction false} SortedDistinct(entries: seq<Entry>, nameLe: (string, string) -> bool)
    requires TotalPreorder(nameLe) && HasDistinctNames(entries)
    ensures var sorted := Sorted(entries, nameLe);
      && multiset(sorted) == multiset(entries)
      && HasDistinctNames(sorted)
      && IsPartOf(sorted, entries)
      && InNameOrder(sorted, entries, nameLe)
  {
    var le := NameOrder(nameLe);
    NameOrderIsTotal(nameLe);
    SortPermutes(entries, le);
    SortSorts(entries, le);
    hide Sort;
    var sorted := Sorted(entries, nameLe);
    forall i | 0 <= i < |sorted|
      ensures sorted[i] in entries
    {
      assert sorted[i] in multiset(sorted);
    }
    forall i, j | 0 <= i < j < |sorted|
      ensures Precedes(entries, sorted[i].name, sorted[j].name, nameLe)
    {
      assert le(sorted[i], sorted[j]);
      if le(sorted[j], sorted[i]) {
        var a, b := SortIsStable(entries, le, i, j);
        assert IsAhead(entries, entries[a].name, entries[b].name);
      }
    }
    DistinctPermuted(entries, sorted, NameOf);
    forall i, j | 0 <= i < j < |sorted|
      ensures sorted[i].name != sorted[j].name
    {
      assert NameOf(sorted[i]) != NameOf(sorted[j]);
    }
  }

  function NameOf(e: Entry): string {
    e.name
  }

  lemma NameOrderIsTotal(nameLe: (string, string) -> bool)
    requires TotalPreorder(nameLe)
    ensures TotalPreorder(NameOrder(nameLe))
  {
    var le := NameOrder(nameLe);
    forall a, b
      ensures le(a, b) || le(b, a)
    {
      assert nameLe(a.name, b.name) || nameLe(b.name, a.name);
    }
    forall a, b, c | le(a, b) && le(b, c)
      ensures le(a, c)
    {
      assert nameLe(a.name, b.name) && nameLe(b.name, c.name);
    }
  }

  lemma TrackedPermuted(a: seq<Entry>, b: seq<Entry>, path: seq<string>, content: Bytes)
    requires multiset(a) == multiset(b) && IsTracked(a, path, content)
    ensures IsTracked(b, path, content)
  {
    var i :| 0 <= i < |a| && a[i].name == path[0]
      && if |path| == 1 then a[i].node == File(content)
         else a[i].node.Dir? && IsTracked(a[i].node.entries, path[1..], content);
    assert a[i] in multiset(b);
    var j :| 0 <= j < |b| && b[j] == a[i];
  }

  lemma CleanPermuted(a: seq<Entry>, b: seq<Entry>)
    requires multiset(a) == multiset(b)
    ensures IsClean(a) == IsClean(b)
  {
    hide IsCleanEntry;
    forall i | 0 <= i < |a|
      ensures a[i] in b
    {
      assert a[i] in multiset(a);
    }
    forall i | 0 <= i < |b|
      ensures b[i] in a
    {
      assert b[i] in multiset(b);
    }
  }

  lemma TrackedCons(e: Entry, rest: seq<Entry>, path: seq<string>, content: Bytes)
    ensures IsTracked([e] + rest, path, content) <==> IsTracked([e], path, content) || IsTracked(rest, path, content)
  {
    var entries := [e] + rest;
    if IsTracked(entries, path, content) {
      var i :| 0 <= i < |entries| && entries[i].name == path[0]
        && if |path| == 1 then entries[i].node == File(content)
           else entries[i].node.Dir? && IsTracked(entries[i].node.entries, path[1..], content);
      assert i == 0 || rest[i - 1] == entries[i];
      assert i == 0 ==> [e][0] == e;
    }
    if IsTracked([e], path, content) {
      assert entries[0] == e;
    }
    if IsTracked(rest, path, content) {
      var i :| 0 <= i < |rest| && rest[i].name == path[0]
        && if |path| == 1 then rest[i].node == File(content)
           else rest[i].node.Dir? && IsTracked(rest[i].node.entries, path[1..], content);
      assert entries[i + 1] == rest[i];
    }
  }

  /**
    The facts about one walk through entries of `directory`: it succeeds exactly on a clean tree, and then lists the
    tracked files in order.
   */
  ghost predicate IsExactWalk(listing: Listing, entries: seq<Entry>, directory: seq<Entry>, at: Path,
                              nameLe: (string, string) -> bool) {
    && listing.Files? == IsClean(entries)
    && (listing.Files? ==>
          && ListsExactly(listing.files, entries, at)
          && forall i, j | 0 <= i < j < |listing.files| ::
               InOrder(directory, listing.files[i].path[|at|..], listing.files[j].path[|at|..], nameLe))
  }

  lemma {:induction false} WalkIsExact(entries: seq<Entry>, directory: seq<Entry>, at: Path,
                                       nameLe: (string, string) -> bool)
    requires TotalPreorder(nameLe) && HasDistinctNames(entries)
    requires IsPartOf(entries, directory) && InNameOrder(entries, directory, nameLe)
    ensures IsExactWalk(Walk(entries, at, nameLe), entries, directory, at, nameLe)
    decreases Weight(entries)
  {
    hide TotalPreorder, IsForbiddenEnvironmentFile, IsCleanEntry, InOrder, Precedes;
    if entries != [] {
      hide IsTracked;
      var e, rest := entries[0], entries[1..];
      WalkIsExact(rest, directory, at, nameLe);
      if e.node.Dir? {
        SortedDistinct(e.node.entries, nameLe);
        WalkIsExact(Sorted(e.node.entries, nameLe), e.node.entries, at + [e.name], nameLe);
      }
      OneIsExact(e, directory, at, nameLe);
      WalkIsJoin(entries, at, nameLe);
      assert entries == [e] + rest;
      hide Walk, WalkOne, HasDistinctNames;
      JoinIsExact(e, rest, directory, WalkOne(e, at, nameLe), Walk(rest, at, nameLe), at, nameLe);
    }
  }

  lemma OneTracked(e: Entry, path: seq<string>, content: Bytes)
    ensures IsTracked([e], path, content) <==>
      && path != [] && path[0] == e.name && e.name !in IGNORED
      && if |path| == 1 then e.node == File(content) else e.node.Dir? && IsTracked(e.node.entries, path[1..], content)
  {
    assert [e][0] == e;
  }

  lemma OneIsExact(e: Entry, directory: seq<Entry>, at: Path, nameLe: (string, string) -> bool)
    requires TotalPreorder(nameLe) && e in directory && (e.node.Dir? ==> HasDistinctNames(e.node.entries))
    requires e.node.Dir? ==>
      IsExactWalk(Walk(Sorted(e.node.entries, nameLe), at + [e.name], nameLe), Sorted(e.node.entries, nameLe),
                  e.node.entries,
                  at + [e.name], nameLe)
    ensures IsExactWalk(WalkOne(e, at, nameLe), [e], directory, at, nameLe)
  {
    hide TotalPreorder, InOrder, IsForbiddenEnvironmentFile, IsTracked, Walk, Sorted, HasDistinctNames;
    assert IsClean([e]) == IsCleanEntry(e) by {
      assert [e][0] == e;
    }
    if e.name in IGNORED || e.node.Other? {
      forall path, content
        ensures !IsTracked([e], path, content)
      {
        OneTracked(e, path, content);
      }
    } else if IsForbiddenEnvironmentFile(e.name) || e.node.Symlink? {
    } else if e.node.File? {
      FileIsExact(e, at, nameLe);
    } else {
      SortedDistinct(e.node.entries, nameLe);
      CleanPermuted(Sorted(e.node.entries, nameLe), e.node.entries);
      hide IsClean;
      DirectoryIsExact(e, directory, Walk(Sorted(e.node.entries, nameLe), at + [e.name], nameLe), at, nameLe);
    }
  }

  lemma FileIsExact(e: Entry, at: seq<string>, nameLe: (string, string) -> bool)
    requires e.name !in IGNORED && e.node.File?
    ensures ListsExactly([Tracked(at + [e.name], e.node.content)], [e], at)
  {
    hide IsTracked;
    assert (at + [e.name])[|at|..] == [e.name];
    OneTracked(e, [e.name], e.node.content);
    forall path, content | IsTracked([e], path, content)
      ensures Tracked(at + path, content) == Tracked(at + [e.name], e.node.content)
    {
      OneTracked(e, path, content);
      if |path| == 1 {
        assert path == [e.name];
      }
    }
  }

  lemma DirectoryIsExact(e: Entry, directory: seq<Entry>, listing: Listing, at: Path, nameLe: (string, string) -> bool)
    requires e.name !in IGNORED && e.node.Dir? && e in directory && TotalPreorder(nameLe)
      && HasDistinctNames(e.node.entries)
    requires IsExactWalk(listing, Sorted(e.node.entries, nameLe), e.node.entries, at + [e.name], nameLe)
    ensures listing.Files? ==> ListsExactly(listing.files, [e], at)
    ensures listing.Files? ==> forall i, j | 0 <= i < j < |listing.files| ::
      InOrder(directory, listing.files[i].path[|at|..], listing.files[j].path[|at|..], nameLe)
  {
    hide TotalPreorder, IsTracked, Sorted, HasDistinctNames, IsClean, InOrder, InNameOrder, IsPartOf;
    var inner, sorted := e.node.entries, Sorted(e.node.entries, nameLe);
    SortedDistinct(inner, nameLe);
    if listing.Files? {
      forall f | f in listing.files
        ensures at <= f.path && IsTracked([e], f.path[|at|..], f.content)
      {
        ListedBelow(e, sorted, at, f);
      }
      forall path, content | IsTracked([e], path, content)
        ensures Tracked(at + path, content) in listing.files
      {
        TrackedBelow(e, sorted, at, path, content);
      }
      forall i, j | 0 <= i < j < |listing.files|
        ensures InOrder(directory, listing.files[i].path[|at|..], listing.files[j].path[|at|..], nameLe)
      {
        assert listing.files[i] in listing.files && listing.files[j] in listing.files;
        OrderBelow(e, directory, at, listing.files[i].path, listing.files[j].path, nameLe);
      }
    }
  }

  /** A file listed inside a directory is a tracked file of that directory's entry. */
  lemma ListedBelow(e: Entry, sorted: seq<Entry>, at: seq<string>, f: Tracked)
    requires e.name !in IGNORED && e.node.Dir? && multiset(sorted) == multiset(e.node.entries)
    requires at + [e.name] <= f.path && IsTracked(sorted, f.path[|at + [e.name]|..], f.content)
    ensures at <= f.path && IsTracked([e], f.path[|at|..], f.content)
  {
    hide IsTracked;
    var below := f.path[|at| + 1..];
    assert f.path[|at|..] == [e.name] + below && f.path[|at|..][1..] == below;
    TrackedPermuted(sorted, e.node.entries, below, f.content);
    TrackedIsNonEmpty(e.node.entries, below, f.content);
    OneTracked(e, f.path[|at|..], f.content);
  }

  /** A tracked file of a directory's entry lies inside the directory. */
  lemma TrackedBelow(e: Entry, sorted: seq<Entry>, at: seq<string>, path: seq<string>, content: Bytes)
    requires e.node.Dir? && multiset(sorted) == multiset(e.node.entries) && IsTracked([e], path, content)
    ensures |path| > 1 && IsTracked(sorted, path[1..], content) && at + [e.name] + path[1..] == at + path
  {
    hide IsTracked;
    OneTracked(e, path, content);
    if |path| > 1 {
      TrackedPermuted(e.node.entries, sorted, path[1..], content);
    }
  }

  lemma OrderBelow(e: Entry, directory: seq<Entry>, at: Path, p: Path, q: Path, nameLe: (string, string) -> bool)
    requires e in directory && e.node.Dir? && at + [e.name] <= p && at + [e.name] <= q
    requires InOrder(e.node.entries, p[|at + [e.name]|..], q[|at + [e.name]|..], nameLe)
    ensures at <= p && at <= q && InOrder(directory, p[|at|..], q[|at|..], nameLe)
  {
    var i :| 0 <= i < |directory| && directory[i] == e;
    var x, y := p[|at|..], q[|at|..];
    assert x[0] == y[0] == e.name && x[1..] == p[|at| + 1..] && y[1..] == q[|at| + 1..];
  }

  lemma TrackedIsNonEmpty(entries: seq<Entry>, path: seq<string>, content: Bytes)
    requires IsTracked(entries, path, content)
    ensures path != [] && exists i :: 0 <= i < |entries| && entries[i].name == path[0]
  {
  }

  lemma JoinIsExact(e: Entry, rest: seq<Entry>, directory: seq<Entry>, a: Listing, b: Listing, at: Path,
                    nameLe: (string, string) -> bool)
    requires IsExactWalk(a, [e], directory, at, nameLe) && IsExactWalk(b, rest, directory, at, nameLe)
    requires forall i | 0 <= i < |rest| :: e.name != rest[i].name && Precedes(directory, e.name, rest[i].name, nameLe)
    ensures IsExactWalk(Join(a, b), [e] + rest, directory, at, nameLe)
  {
    hide IsTracked, IsCleanEntry, InOrder, Precedes;
    CleanCons(e, rest);
    hide IsClean;
    if a.Files? && b.Files? {
      var files := a.files + b.files;
      forall path, content
        ensures IsTracked([e] + rest, path, content)
          <==> IsTracked([e], path, content) || IsTracked(rest, path, content)
      {
        TrackedCons(e, rest, path, content);
      }
      forall i, j | 0 <= i < j < |files|
        ensures InOrder(directory, files[i].path[|at|..], files[j].path[|at|..], nameLe)
      {
        if i < |a.files| <= j {
          assert files[i] in a.files && files[j] in b.files;
          AcrossIsInOrder(e, rest, directory, files[i], files[j], at, nameLe);
        }
      }
    }
  }

  lemma AcrossIsInOrder(e: Entry, rest: seq<Entry>, directory: seq<Entry>, f: Tracked, g: Tracked, at: Path,
                        nameLe: (string, string) -> bool)
    requires at <= f.path && at <= g.path && IsTracked([e], f.path[|at|..], f.content)
      && IsTracked(rest, g.path[|at|..], g.content)
    requires forall i | 0 <= i < |rest| :: e.name != rest[i].name && Precedes(directory, e.name, rest[i].name, nameLe)
    ensures InOrder(directory, f.path[|at|..], g.path[|at|..], nameLe)
  {
    TrackedIsNonEmpty([e], f.path[|at|..], f.content);
    TrackedIsNonEmpty(rest, g.path[|at|..], g.content);
  }

  lemma CleanCons(e: Entry, rest: seq<Entry>)
    ensures IsClean([e] + rest) == (IsClean([e]) && IsClean(rest))
  {
    hide IsCleanEntry;
    var entries := [e] + rest;
    assert entries[0] == e && [e][0] == e;
    assert forall i | 0 <= i < |rest| :: rest[i] == entries[i + 1];
    assert forall i | 0 < i < |entries| :: entries[i] == rest[i - 1];
  }

  /**
    The walk of a component succeeds exactly when it holds no environment file and no symbolic link outside the
    ignored names, and then lists each tracked file exactly once, by name, names that tie in the directory's order.
   */
  lemma ListingIsExact(entries: seq<Entry>, nameLe: (string, string) -> bool)
    requires TotalPreorder(nameLe) && HasDistinctNames(entries)
    ensures Listed(entries, nameLe).Files? <==> IsClean(entries)
    ensures Listed(entries, nameLe).Files? ==>
      && StrictlySorted(Listed(entries, nameLe).files, entries, nameLe)
      && forall path, content ::
           Tracked(path, content) in Listed(entries, nameLe).files <==> IsTracked(entries, path, content)
  {
    var sorted := Sorted(entries, nameLe);
    SortedDistinct(entries, nameLe);
    WalkIsExact(sorted, entries, [], nameLe);
    CleanPermuted(sorted, entries);
    hide TotalPreorder, IsTracked, IsClean, Sorted, Walk, HasDistinctNames, InOrder, InNameOrder, IsPartOf;
    var listing := Listed(entries, nameLe);
    if listing.Files? {
      forall path, content
        ensures Tracked(path, content) in listing.files <==> IsTracked(entries, path, content)
      {
        assert [] + path == path && path[0..] == path;
        if IsTracked(entries, path, content) {
          TrackedPermuted(entries, sorted, path, content);
        }
        if Tracked(path, content) in listing.files {
          TrackedPermuted(sorted, entries, path, content);
        }
      }
      forall i, j | 0 <= i < j < |listing.files|
        ensures InOrder(entries, listing.files[i].path, listing.files[j].path, nameLe)
      {
        assert listing.files[i].path[0..] == listing.files[i].path
          && listing.files[j].path[0..] == listing.files[j].path;
      }
    }
  }

  ghost predicate SortedPaths(paths: seq<Path>, entries: seq<Entry>, nameLe: (string, string) -> bool) {
    forall i, j | 0 <= i < j < |paths| :: InOrder(entries, paths[i], paths[j], nameLe)
  }

  /** Two strictly sorted lists of the same paths are the same list. */
  lemma {:induction false} SortedPathsAreUnique(a: seq<Path>, b: seq<Path>, entries: seq<Entry>,
                                                nameLe: (string, string) -> bool)
    requires HasDistinctNames(entries) && SortedPaths(a, entries, nameLe) && SortedPaths(b, entries, nameLe)
    requires forall p :: p in a <==> p in b
    ensures a == b
  {
    hide InOrder, HasDistinctNames;
    BothEmpty(a, b);
    if a != [] {
      assert a[0] in b;
      assert b[0] in a;
      var j :| 0 <= j < |b| && b[j] == a[0];
      var i :| 0 <= i < |a| && a[i] == b[0];
      if j > 0 {
        assert InOrder(entries, b[0], b[j], nameLe);
        InOrderIsAsymmetric(entries, b[0], b[j], nameLe);
      }
      assert a[0] == b[0];
      TailsAgree(a, b, entries, nameLe);
      SortedPathsAreUnique(a[1..], b[1..], entries, nameLe);
      assert a == [a[0]] + a[1..] && b == [b[0]] + b[1..];
    }
  }

  lemma BothEmpty(a: seq<Path>, b: seq<Path>)
    requires forall p :: p in a <==> p in b
    ensures a == [] <==> b == []
  {
    if a != [] {
      assert a[0] in a;
    }
    if b != [] {
      assert b[0] in b;
    }
  }

  lemma TailsAgree(a: seq<Path>, b: seq<Path>, entries: seq<Entry>, nameLe: (string, string) -> bool)
    requires HasDistinctNames(entries) && SortedPaths(a, entries, nameLe) && SortedPaths(b, entries, nameLe)
    requires a != [] && b != [] && a[0] == b[0] && forall p :: p in a <==> p in b
    ensures forall p :: p in a[1..] <==> p in b[1..]
  {
    HeadIsAlone(a, entries, nameLe);
    HeadIsAlone(b, entries, nameLe);
    hide InOrder, HasDistinctNames;
    assert forall p :: p in a <==> p == a[0] || p in a[1..];
    assert forall p :: p in b <==> p == b[0] || p in b[1..];
  }

  lemma HeadIsAlone(a: seq<Path>, entries: seq<Entry>, nameLe: (string, string) -> bool)
    requires HasDistinctNames(entries) && SortedPaths(a, entries, nameLe) && a != []
    ensures a[0] !in a[1..]
  {
    hide InOrder, HasDistinctNames;
    forall j | 0 < j < |a|
      ensures a[j] != a[0]
    {
      InOrderIsAsymmetric(entries, a[0], a[j], nameLe);
    }
  }

  // ------------------------------------------------------------------- the same, told by paths and names

  /** The node at `path`, whatever the names on the way. */
  ghost predicate Reaches(entries: seq<Entry>, path: Path, node: Node)
    decreases |path|
  {
    && path != []
    && exists i | 0 <= i < |entries| ::
         && entries[i].name == path[0]
         && if |path| == 1 then entries[i].node == node
            else entries[i].node.Dir? && Reaches(entries[i].node.entries, path[1..], node)
  }

  ghost predicate IsIgnoredName(name: string) {
    || name == ".git" || name == ".next" || name == "coverage" || name == "node_modules"
    || name == "performance-reports" || name == "playwright-report" || name == "quality-reports"
    || name == "release-reports" || name == "test-results"
  }

  ghost predicate IsPlain(path: Path) {
    forall k | 0 <= k < |path| :: !IsIgnoredName(path[k])
  }

  /** `.env` or `.env.` with a line of text after it, in any case, but not the example file. */
  ghost predicate IsEnvironmentFile(name: string) {
    && name != ".env.example"
    && (|| Lower(name) == ".env"
        || (|name| > 5 && Lower(name)[..5] == ".env."
            && forall c | c in name[5..] :: c !in {'\n', '\r', '\U{2028}', '\U{2029}'}))
  }

  lemma EnvironmentFileMeans(name: string)
    ensures IsForbiddenEnvironmentFile(name) <==> IsEnvironmentFile(name)
  {
    var low := Lower(name);
    assert forall c: char :: LowerChar(c) == '.' <==> c == '.';
    hide Lower, LowerChar;
    assert low == ".env" <==> |low| == 4 && low[0] == '.' && low[1] == 'e' && low[2] == 'n' && low[3] == 'v';
    if |name| > 5 {
      assert low[..5] == ".env." <==> low[0] == '.' && low[1] == 'e' && low[2] == 'n' && low[3] == 'v' && low[4] == '.';
      LineRest(name);
    }
  }

  lemma LineRest(name: string)
    requires |name| > 5
    ensures (forall i | 5 <= i < |name| :: name[i] !in {'\n', '\r', '\U{2028}', '\U{2029}'})
       <==> forall c | c in name[5..] :: c !in {'\n', '\r', '\U{2028}', '\U{2029}'}
  {
    var rest := name[5..];
    assert forall i | 5 <= i < |name| :: rest[i - 5] == name[i] && name[i] in rest;
    forall c | c in rest
      ensures exists i :: 5 <= i < |name| && name[i] == c
    {
      var k :| 0 <= k < |rest| && rest[k] == c;
      assert name[k + 5] == c;
    }
  }

  lemma IgnoredNamesAre(name: string)
    ensures name in IGNORED <==> IsIgnoredName(name)
  {
  }

  lemma PlainRest(path: Path)
    requires path != []
    ensures IsPlain(path) <==> !IsIgnoredName(path[0]) && IsPlain(path[1..])
  {
    hide IsIgnoredName;
    assert forall k | 0 < k < |path| :: path[k] == path[1..][k - 1];
  }

  lemma {:induction false} TrackedMeans(entries: seq<Entry>, path: Path, content: Bytes)
    ensures IsTracked(entries, path, content) <==> Reaches(entries, path, File(content)) && IsPlain(path)
    decreases |path|
  {
    if path != [] {
      IgnoredNamesAre(path[0]);
      PlainRest(path);
      hide IsIgnoredName, IsPlain;
      forall i | 0 <= i < |entries| && entries[i].node.Dir?
        ensures IsTracked(entries[i].node.entries, path[1..], content)
           <==> Reaches(entries[i].node.entries, path[1..], File(content)) && IsPlain(path[1..])
      {
        TrackedMeans(entries[i].node.entries, path[1..], content);
      }
      if |path| == 1 {
        EmptyIsPlain();
      }
    }
  }

  lemma EmptyIsPlain()
    ensures IsPlain([])
  {
  }

  /** Neither an environment file nor a symbolic link, by its path. */
  ghost predicate IsAllowedAt(path: Path, node: Node)
    requires path != []
  {
    !IsEnvironmentFile(path[|path| - 1]) && !node.Symlink?
  }

  ghost predicate HasOnlyAllowed(entries: seq<Entry>) {
    forall path, node | Reaches(entries, path, node) && IsPlain(path) :: IsAllowedAt(path, node)
  }

  lemma {:induction false} CleanIsAllowed(entries: seq<Entry>, path: Path, node: Node)
    requires IsClean(entries) && Reaches(entries, path, node) && IsPlain(path)
    ensures IsAllowedAt(path, node)
    decreases |path|
  {
    var i :| 0 <= i < |entries| && entries[i].name == path[0]
      && if |path| == 1 then entries[i].node == node
         else entries[i].node.Dir? && Reaches(entries[i].node.entries, path[1..], node);
    assert IsCleanEntry(entries[i]);
    IgnoredNamesAre(path[0]);
    EnvironmentFileMeans(path[0]);
    PlainRest(path);
    hide IsIgnoredName, IsPlain, IsForbiddenEnvironmentFile, IsEnvironmentFile;
    if |path| > 1 {
      CleanIsAllowed(entries[i].node.entries, path[1..], node);
    }
  }

  lemma {:induction false} AllowedIsClean(entries: seq<Entry>)
    requires HasOnlyAllowed(entries)
    ensures IsClean(entries)
  {
    forall i | 0 <= i < |entries|
      ensures IsCleanEntry(entries[i])
    {
      var e := entries[i];
      IgnoredNamesAre(e.name);
      EnvironmentFileMeans(e.name);
      if e.name !in IGNORED {
        assert IsPlain([e.name]);
        hide IsIgnoredName, IsForbiddenEnvironmentFile, IsEnvironmentFile;
        assert Reaches(entries, [e.name], e.node);
        assert IsAllowedAt([e.name], e.node);
        if e.node.Dir? {
          forall path, node | Reaches(e.node.entries, path, node) && IsPlain(path)
            ensures IsAllowedAt(path, node)
          {
            var longer := [e.name] + path;
            assert longer[1..] == path;
            PlainRest(longer);
            assert Reaches(entries, longer, node);
            assert IsAllowedAt(longer, node);
          }
          AllowedIsClean(e.node.entries);
        }
      }
    }
  }

  /**
    The walk of a component succeeds exactly when every path that enters none of the nine ignored names ends neither in
    an environment file nor in a symbolic link, and then lists exactly the regular files at such paths.
   */
  lemma ListingByPaths(entries: seq<Entry>, nameLe: (string, string) -> bool)
    requires TotalPreorder(nameLe) && HasDistinctNames(entries)
    ensures Listed(entries, nameLe).Files? <==> HasOnlyAllowed(entries)
    ensures Listed(entries, nameLe).Files? ==> forall path, content ::
      var file := Tracked(path, content);
      file in Listed(entries, nameLe).files <==> Reaches(entries, path, File(content)) && IsPlain(path)
  {
    ListingIsExact(entries, nameLe);
    if IsClean(entries) {
      forall path, node | Reaches(entries, path, node) && IsPlain(path)
        ensures IsAllowedAt(path, node)
      {
        CleanIsAllowed(entries, path, node);
      }
    }
    if HasOnlyAllowed(entries) {
      AllowedIsClean(entries);
    }
    hide IsClean, IsTracked, Reaches, IsPlain, Listed, HasOnlyAllowed, StrictlySorted, HasDistinctNames;
    forall path, content
      ensures IsTracked(entries, path, content) <==> Reaches(entries, path, File(content)) && IsPlain(path)
    {
      TrackedMeans(entries, path, content);
    }
  }
}
