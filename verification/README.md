# Verification of the archive backend

A Dafny model of the parts of the backend that carry algorithms and protocols, with proofs of what they are for. To
verify: `dafny verify dfyconfig.toml`.

| files | what they model |
|---|---|
| StableJson, CacheKeys, CacheStore, CacheProtocol, CacheGuarantees, CacheOutcomes | the versioned, leased read-through cache: serialiser, key names, stores, and the protocol as a machine whose steps are the runs between two awaits, with any number of instances on one store and failing store operations |
| IdebNumber, IdebRecord, IdebReporters, IdebMetrics, IdebHistory, IdebVerdict | the iDeb credit report: number parser, grouping by reporter, totals, monthly history, verdict |
| ReleaseTree, ReleaseManifest, ReleasePreflight, ReleaseSwitch | releases: component walk, manifest, preflight marker, and the switch as a machine over file-system operations on the release directories' contents, with crashes |
| Calendar, ExpiryImport, Monitoring | dates as section 21.4.1 of ECMA-262 defines them, imported expiry dates, clamped months and warning windows |
| RateLimit | the fixed-window limiter on a map with insertion order and on Redis |
| Heartbeat, HeartbeatLifecycle | worker heartbeats on both stores, and starting and stopping a worker |
| Where, ArchiveAccess, PersuratanAccess | database filters with their meaning on rows, against the checks on single records |
| RoleMenus | the role permission baseline and the difference that restores it |
| Options, Texts, Sorting | the optional value, text and stable sorting shared by the others |

Outside the model, and parameters of it: SHA-256 and HMAC (any function; where a theorem needs it, one that does not
collide on the contents compared), the locale's order of names (any total preorder), the
clock (a whole number of milliseconds that does not run backwards), and the rows the database returns. A Redis command or
script is one atomic step, and a key vanishes at the instant its time to live ends. Numbers are exact decimals.

## Where the code does not do what one might expect

- The memory cache store counts versions by the raw spelling of a namespace while keys use the normalised one, so
  invalidating one spelling leaves values of another spelling in place; the Redis store normalises both
  (`CacheGuarantees.FreshExactlyWhenSeparated`, `CacheGuarantees.CapitalsCountApart`).
- Below 1000 a number printed with three or more decimals is read as thousands (`IdebNumber.ReadsBackExactly`).
- Whether groups have three digits never changes how a number is read, and five of the texts searched for in conditions
  and legal fields find nothing that the others do not (`IdebNumber.ParsesExactly`, `IdebRecord.WriteOffMeans`,
  `IdebRecord.PositiveMeans`).
- More facilities can make a verdict milder exactly when the report states no period, or has a default in its own history
  that a facility's history replaces (`IdebVerdict.NeverMilderExactly`).
- Two names that tie in the locale's order, as canonically equivalent spellings do, are listed as the directory yields
  them, so a copy of a release can fail verification (`ReleaseManifest.ListingsAgree`, `ReleaseManifest.TiesShow`).
- The current release is compared with the expected one before the rename: of two overlapping activations the second can
  replace a release it was not told to replace, and record a previous release that was not the last
  (`ReleaseSwitch.SwitchReplacesExactly`, `ReleaseSwitch.OverlapDefeatsTheGuard`).
- Nothing is checked at the rename of the link: a release changed after its checks becomes current as it is
  (`ReleaseSwitch.SwitchedReleasePassesExactly`, `ReleaseSwitch.ChangedReleaseIsSwitchedTo`).
- `deployment-state.json` can fall behind the link by any number of interrupted activations, and two activations at once
  can leave it stale without a crash (`ReleaseSwitch.StateCanLagByTwo`, `ReleaseSwitch.WithoutCrashesTheyAgreeExactly`).
- Dates in years 0 to 99 are taken for 1900 to 1999: the import drops such date cells without an error, and an expiry
  date in March of year 100 gets its three-month warning after its two-month warning (`ExpiryImport.OldDateCellsVanish`,
  `Monitoring.AppraisalWarningComesLater`). The laws of month addition and the statuses fail on exactly those years
  (`Monitoring.ThereAndBack`, `Monitoring.WarningWindows`, `Monitoring.StatusesMoveForward`).
- A window of length w can pass 2*max-1 requests in an interval of length w (`RateLimit.TwiceMaxLessOneIsReached`).
- The Redis heartbeat key can vanish before a worker's token when times to live differ by more than a factor of two
  (`Heartbeat.LongAndShort`).
- A `start` before an overlapping `stop` has returned can leave a worker that no `stop` stops, a `stop` during a `start` an
  interval too many (`HeartbeatLifecycle.LostExactly`, `HeartbeatLifecycle.LeaksExactly`).
- An approval without expiry opens a document that no list shows, and a restricted flag beside an unrestricted level
  hides a document that lists show (`ArchiveAccess.AgreeExactly`).

## Model

| member | source | states |
|---|---|---|
| StableJson.QuoteUnique | src/system/application-cache.js:36-37 | A JSON string literal tells its content and where it ends, escapes and lone surrogates included. |
| StableJson.EscapesAre | src/system/application-cache.js:36-37 | Each unit of a string is written as ECMA-262 has it: itself, one of seven short escapes, or its code; surrogates stand for themselves in pairs and are escaped alone. |
| StableJson.Unique | src/system/application-cache.js:35-47 | A serialised value followed by a comma or a closing bracket tells the value (up to key order) and where it ends. |
| StableJson.SameSerializes | src/system/application-cache.js:43-46 | Two objects with the same fields in different insertion order serialise alike, at every depth. |
| StableJson.SerializeInjective | src/system/application-cache.js:35-47 | Two JSON values serialise alike if and only if they are the same up to the order of object keys. |
| CacheKeys.RequestsShareExactlyWhenEqual | src/system/application-cache.js:59-66 | Under one prefix two requests get the same cache key if and only if normalised namespace, version and parts agree, although namespaces may contain colons. |
| CacheKeys.NamespaceMeans | src/system/application-cache.js:49-57 | A namespace is accepted exactly as 1 to 80 small letters, digits, colons, underscores and hyphens, the first a letter or digit, once trimmed and lowered. |
| CacheKeys.PrefixMeans | src/system/application-cache.js:65 | Of a prefix exactly the colons at its end are dropped. |
| CacheKeys.NamesNeverCollide | src/system/application-cache.js:105-107 | Data, lock and version keys never coincide; lock keys are one per data key and version keys one per namespace. |
| CacheStore.MemoryCacheStore.Get | src/system/application-cache.js:174-189 | Returns the entry that is not yet expired and forgets an expired one; no later read can tell. |
| CacheStore.MemoryCacheStore.Set | src/system/application-cache.js:190-192 | Stores the value until now plus its time to live and changes nothing else. |
| CacheStore.MemoryCacheStore.Delete | src/system/application-cache.js:193-195 | Removes that entry and nothing else. |
| CacheStore.MemoryCacheStore.GetVersion | src/system/application-cache.js:196-198 | The counter's value, zero when it was never bumped. |
| CacheStore.MemoryCacheStore.Bump | src/system/application-cache.js:199-203 | Raises the counter by one, returns the new value, changes nothing else. |
| CacheStore.MemoryCacheStore.AcquireLock | src/system/application-cache.js:204-210 | Grants the lock exactly when no lock on the key is still running, and then records the token until its end. |
| CacheStore.MemoryCacheStore.Release | src/system/application-cache.js:211-214 | Removes the lock only if it carries the caller's token; no other token's lock is touched. |
| CacheStore.ExpiryIsInvisible | src/system/application-cache.js:112-147 | A store whose keys vanish at their expiry shows every later reader the same as one that keeps them and compares. |
| CacheStore.EntryOperationsAgree | src/system/application-cache.js:109-139 | Two stores that look alike from now on still look alike after the same set, delete or bump. |
| CacheStore.LockOperationsAgree | src/system/application-cache.js:140-147 | The same for taking and releasing a lock, and both stores grant or refuse together. |
| CacheProtocol.FreshAlways | src/system/application-cache.js:307-381 | In every interleaving, every stored value, promise and call holds only values whose loader began for its key, and a call's key is for its own namespace and parts; where spellings of a namespace share a counter, the loader began after the counter had reached the version in the key. |
| CacheProtocol.AnswerIsFresh | src/system/application-cache.js:307-393 | When no two spellings in use share a namespace without sharing its counter, a call begun after a successful invalidation never returns a value whose loader began before it, by whatever path. |
| CacheGuarantees.FreshExactlyWhenSeparated | src/system/application-cache.js:196-203 | That freshness holds over all runs if and only if spellings that normalise alike share one counter; the memory store counts raw spellings, and a run with a stale answer is constructed otherwise. |
| CacheGuarantees.StaleRun | src/system/application-cache.js:196-203 | The concrete run: a value cached under one spelling, an invalidation of another spelling of the same namespace, and a stale hit. |
| CacheGuarantees.CapitalsCountApart | src/system/application-cache.js:49-57 | The code's own normalisation makes such spellings: with the memory store, "users" and "Users" in use break freshness. |
| CacheGuarantees.AnswersMatchTheRequest | src/system/application-cache.js:307-381 | On every store and for all spellings, a returned value was loaded for the same normalised namespace and parts as the call asked for. |
| CacheOutcomes.ThrowsExactlyWhenALoaderFailed | src/system/application-cache.js:307-381 | In every run a finished call threw if and only if its own loader failed or it joined a promise whose loader failed. |
| CacheOutcomes.LostRepliesNeverThrow | src/system/application-cache.js:329-377 | Whatever replies the store loses, no call throws in a run in which no loader fails. |
| CacheOutcomes.OwnLoaderAnswers | src/system/application-cache.js:307-333 | A call whose own loader has ended has ended with it: with the value of that very loader run, or by throwing. |
| CacheOutcomes.PromisedLoaderAnswers | src/system/application-cache.js:337-380 | From the end of a promise's loader on, storing and unlocking with lost replies included, the promise is bound to that loader's outcome, and every call that joined it ends with it. |
| CacheOutcomes.ReturnsWhatWasLoaded | src/system/application-cache.js:307-381 | A returned value is that of the call's own loader, or of the promise it joined, or was read unexpired from the entry of a key for its own request. |
| CacheOutcomes.LoadsAloneExactly | src/system/application-cache.js:307-333 | A finished call ran a loader of its own if and only if its cache is disabled, the store did not answer one of its reads, or its namespace is refused. |
| CacheOutcomes.LoadsOnlyInTurn | src/system/application-cache.js:337-377 | A promise loads under the lock only once it was granted the lock, and without it only when the store did not answer or its time to wait has run out. |
| CacheOutcomes.WaitsExactlyAsLong | src/system/application-cache.js:347-364 | While another holds the lock a promise goes on waiting exactly until the configured time is out. |
| CacheOutcomes.EntriesChangeExactly | src/system/application-cache.js:279-305 | A step changes a cached entry exactly when it spoils it, stores a loaded value under the promise's key with its time to live, or drops it as unreadable, and the operation was not lost before it took effect. |
| CacheOutcomes.CountersAndLocksChangeExactly | src/system/application-cache.js:337-393 | A step raises a counter by one exactly for an invalidation, takes a lock exactly when it is free or has run out, and gives one up exactly for its own token, each unless the operation was lost before it took effect. |
| CacheOutcomes.AnythingMayHappen | src/system/application-cache.js:307-393 | How much the runs leave open: time may pass, entries may be spoilt and calls begin at any moment, and whatever is asked of the store may be answered or lost, with or without effect. |
| CacheGuarantees.OverlapOnlyAfterLeaseEnd | src/system/application-cache.js:337-380 | Two computations that both believe they hold the lock of one key: the earlier one has outrun its lock time. |
| CacheGuarantees.LockLostOnlyByOwner | src/system/application-cache.js:144-147 | A running lock changes only when the promise whose token it carries unlocks it. |
| CacheGuarantees.OnePromisePerKey | src/system/application-cache.js:335-380 | Each instance has at most one unsettled promise per key, registered exactly until it settles. |
| IdebNumber.ParsesExactly | src/utils/ideb-report.js:40-85 | What every text is read as: nothing without a digit or mark, else its digits, negative if bracketed or led by a minus, with decimals after the last mark exactly if a mark of the other kind precedes it or it is the only one and stands before one or two digits; whether the groups have three digits never matters. |
| IdebNumber.PrintedReadsBack | src/utils/ideb-report.js:40-85 | A signed number printed with thousands groups and up to two decimals (or any number of decimals from 1000 on), in either convention and with minus or parentheses, parses back to itself. |
| IdebNumber.ReadsBackExactly | src/utils/ideb-report.js:71-80 | Any printed number reads back to its value if and only if it is at least 1000, has at most two decimals, or is zero: below 1000 three or more decimals are taken for thousands. |
| IdebRecord.RecordValueIsTheFirst | src/utils/ideb-report.js:31-38 | The value read is that of the first key that has one; null and the empty string count as none. |
| IdebRecord.RealArithmetic | src/utils/ideb-report.js:111-117 | Exact decimal addition, comparison and maximum mean what they mean on the values. |
| IdebRecord.CollectibilityLevelIs | src/utils/ideb-report.js:123-126 | A value states a level exactly when its text has a digit 1 to 5 with no other digit next to it: the first such digit. |
| IdebRecord.WriteOffMeans | src/utils/ideb-report.js:161-171 | A facility is written off exactly by condition code 03 or 04 or a condition with HAPUSBUKU or HAPUSTAGIH in it, in any case and punctuation; the third spelling searched for adds nothing. |
| IdebRecord.PositiveMeans | src/utils/ideb-report.js:569-592 | A legal field is positive exactly when true, the number one, or a text that is one of eight words, holds one of five phrases or one of two words shortly before one of three, without a negation; the other phrases searched for add nothing. |
| IdebRecord.NegationMeans | src/utils/ideb-report.js:569-575 | A text denies a dispute exactly when it has one of four words, or BELUM and ADA with nothing but white space between them, as whole words. |
| IdebRecord.RunningWordsMean | src/utils/ideb-report.js:588-590 | One word runs on to another exactly when both stand as whole words with at most twenty characters of one line between them. |
| IdebRecord.WordMeans | src/utils/ideb-report.js:575-590 | A text has a word exactly when it is that word with something around it that neither side continues with a letter, digit or underscore. |
| IdebRecord.AmountsAreRead | src/utils/ideb-report.js:87-117 | Plafond, outstanding and the three parts of the arrears are each the number in the first of their fields that holds a value, zero when it is unreadable or there is none. |
| IdebRecord.StatesAreRead | src/utils/ideb-report.js:119-136 | Collectibility, days past due and condition are read from the first of their fields that holds a value. |
| IdebRecord.NamesAreRead | src/utils/ideb-report.js:465-473 | A reporter's name and an account's number are read from the first of their fields that holds a value. |
| IdebRecord.ConditionCodeIs | src/utils/ideb-report.js:141-153 | A condition code is the single digit in the code field, or the two digits it begins with, or else those the condition begins with. |
| IdebRecord.ClassMeans | src/utils/ideb-report.js:138-189 | The four classes by codes and texts: write-off before paid-off before active, which takes code 00 or, without a code, one of three texts. |
| IdebRecord.ShownReads | src/utils/ideb-report.js:1-4 | A number printed as text is read by JavaScript as the same number, below zero with a minus before it. |
| IdebRecord.UpperMeans | src/utils/ideb-report.js:155-171 | Upper-casing turns each small Latin letter into its capital and leaves every other character. |
| IdebRecord.LettersAre | src/utils/ideb-report.js:161-171 | Of a compacted condition exactly the capitals and digits remain, in their order. |
| IdebRecord.ContainsMeans | src/utils/ideb-report.js:155-171 | One text contains another exactly when it is that text with something before and after it. |
| IdebReporters.AggregateReporters | src/utils/ideb-report.js:813-872 | The groups partition the facilities by reporter; each group holds exactly its own facilities, and every accumulator (counts, sums, maxima, worst level with a value that has it) is what its name says of them. Of any two groups the earlier has active facilities if the later has, and at the first of the ten criteria on which they differ, in the source's order, the greater value; ties go by name. The facilities of each group are ordered alike by level, days past due, arrears, outstanding, plafond and name. |
| IdebReporters.IdentityMeans | src/utils/ideb-report.js:756-764 | A facility is grouped by its reporter's code in any case, or without one by the reporter's name in any case, and all without either in one group; the group tells the code and the name, or the code in place of the name. |
| IdebReporters.FacilitiesAreSorted | src/utils/ideb-report.js:201-218 | Within a group each facility appears once, and of any two the earlier has the greater value at the first of level, days past due, arrears, outstanding and plafond on which they differ; ties go by the reporter's name. |
| IdebReporters.UnstatedIsZero | src/utils/ideb-report.js:191-199 | A level or days past due that are not stated count as zero in the order and the totals. |
| IdebReporters.TotalsAdd | src/utils/ideb-report.js:823-853 | One more facility adds its amount to the totals of its class and of the whole group, and to no other. |
| IdebReporters.WorstAdd | src/utils/ideb-report.js:796-811 | The worst level and its value stay those of a facility with the highest level after one more facility. |
| IdebReporters.RiskOrderIsTotal | src/utils/ideb-report.js:201-214 | The risk comparison is a total preorder whenever the locale's order is. |
| IdebReporters.PriorityOrderIsTotal | src/utils/ideb-report.js:857-871 | So is the priority comparison of groups. |
| IdebMetrics.GroupsConserve | src/utils/ideb-report.js:813-855 | Every total a group keeps adds up, over the groups, to the same total over all facilities. |
| IdebMetrics.CountsAddUp | src/utils/ideb-report.js:829-850 | In each group the active, paid-off, written-off and other counts add up to the number of its facilities. |
| IdebMetrics.ClassesPartition | src/utils/ideb-report.js:923-931 | The four class filters split the facilities without loss or repetition. |
| IdebMetrics.DirectAgrees | src/utils/ideb-report.js:941-1044 | All sums and counts of the report, folded directly, equal the sums over the groups; worst levels and highest days past due are the maxima of the groups'. |
| IdebMetrics.BuildMetrics | src/utils/ideb-report.js:913-1047 | The metrics are the direct totals and agree with the groups; the four class lists together hold each facility once. |
| IdebHistory.AggregateHistory | src/utils/ideb-report.js:301-394 | The loop over a map computes the functional merge: one row per key in first-seen order, then sorted. |
| IdebHistory.AggregateConserves | src/utils/ideb-report.js:342-384 | For every period, for every month index where no period is stated, and over all entries, the months counted add up to those of the meaningful entries, and worst level and highest days past due are theirs. |
| IdebHistory.OneRowPerPeriod | src/utils/ideb-report.js:278-292 | No two rows carry the same period, or without a period the same month index. |
| IdebHistory.CollectDescribes | src/utils/ideb-report.js:342-375 | The reporters, accounts and reported counts of a row are those of the entries with its key, and the collectibility shown is the first of the worst that they state. |
| IdebHistory.MeaningfulMeans | src/utils/ideb-report.js:294-299 | An entry counts exactly when it states a collectibility or days past due. |
| IdebHistory.ReadMeans | src/utils/ideb-report.js:310-326 | The columns of an entry come from the first of their fields that holds a value, unreadable numbers as zero, a zero or false collectibility as none, and a month counts once at least. |
| IdebHistory.TruthyMeans | src/utils/ideb-report.js:311-312 | What counts as a collectibility is everything but null, the empty text, false and a number equal to zero. |
| IdebHistory.PeriodKeyMeans | src/utils/ideb-report.js:278-292 | An entry's key is its period's text, or without one its month index, or without both its place in the list, the last two with two places at least. |
| IdebHistory.RowsAreOrdered | src/utils/ideb-report.js:374-376 | Where all entries carry a period or month index, the rows come in the order of it. |
| IdebHistory.RowSaysTheSame | src/utils/ideb-report.js:376-393 | A merged row says the same under each of the names a column has. |
| IdebHistory.ReadRow | src/utils/ideb-report.js:380-393 | A merged row read back as an entry is meaningful and yields exactly its own columns. |
| IdebHistory.MergingMerged | src/utils/ideb-report.js:301-394 | Merging two merged histories gives per period, per month index without a period, and in total the same counts, worst level and days past due as merging all original entries. |
| IdebHistory.AggregateIsIdempotent | src/utils/ideb-report.js:301-394 | Merging the merged rows again changes nothing when the entries carry a period or a month index. |
| IdebVerdict.CollectObservations | src/utils/ideb-report.js:498-554 | The loops push every facility's current and past observations (the summary's history only when no facility has one) and keep the first of each key. |
| IdebVerdict.PeriodIsNormal | src/utils/ideb-report.js:445-449 | A normalised period is its own normal form. |
| IdebVerdict.PeriodTextMeans | src/utils/ideb-report.js:445-449 | Read as a period is exactly a text that begins with four digits and a month 01 to 12, with a hyphen, a slash or nothing between them and no digit behind them. |
| IdebVerdict.ExplicitPeriodMeans | src/utils/ideb-report.js:500-503 | The report's own period is the first of period_month, result_date and processed_at that reads as one. |
| IdebVerdict.ObservationReads | src/utils/ideb-report.js:475-495 | An entry is observed exactly when its collectibility states a level; its period, reporter and account are its own or those it falls back to, its days past due its own. |
| IdebVerdict.FallbackReads | src/utils/ideb-report.js:505-513 | A facility's entries fall back to its period, or else the report's, and to its reporter and account. |
| IdebVerdict.KeyTells | src/utils/ideb-report.js:541-550 | Equal de-duplication keys force equal period, level and days-past-due text, although names may contain the separator. |
| IdebVerdict.ReferenceIsLatest | src/utils/ideb-report.js:556-567 | Without an explicit period the reference is the latest observed one. |
| IdebVerdict.VerdictMeans | src/utils/ideb-report.js:670-754 | Each rule in terms of the records before de-duplication: a condition code or text of write-off, or a legal field that speaks of a dispute; else a level of 3 to 5 in the last 24 months; else a facility of level 2 with at least 0 and fewer than 90 days past due as real numbers; else only level 1 in a non-empty last 12 months. |
| IdebVerdict.DeduplicationIsHarmless | src/utils/ideb-report.js:541-553 | De-duplication changes neither the rule nor the reference period. |
| IdebVerdict.OrderDoesNotMatter | src/utils/ideb-report.js:670-754 | Rule and reference period are the same for every order and repetition of the facilities. |
| IdebVerdict.MoreFacilitiesNeverMilder | src/utils/ideb-report.js:670-754 | With an explicit period and no default in the window of the summary's own history, more facilities never lower the verdict. |
| IdebVerdict.NeverMilderExactly | src/utils/ideb-report.js:527-567 | For every summary: more facilities never lower the verdict, whatever the facilities, if and only if the summary states a period and its own history has no level of 3 to 5 in the 24 months before it. |
| IdebVerdict.ExplicitPeriodIsNeeded | src/utils/ideb-report.js:556-567 | Without an explicit period, whatever else the summary says, one more facility can turn red into green. |
| IdebVerdict.NoDefaultedHistoryIsNeeded | src/utils/ideb-report.js:527-539 | With a default in the summary's history a facility with a history of its own turns red into green. |
| ReleaseTree.Collector.Visit | src/system/atomic-release.js:110-144 | The recursive walk pushes exactly the functional listing, or stops at the first refusal. |
| ReleaseTree.ListingIsExact | src/system/atomic-release.js:110-144 | For any total preorder of names: the walk succeeds exactly on a tree without environment files and symlinks outside ignored names, and then lists each tracked file once, by name, names that tie in the order of their directory. |
| ReleaseTree.ListingByPaths | src/system/atomic-release.js:10-20 | The same told by paths: the walk succeeds exactly when no path clear of the nine ignored names ends in a symbolic link or in a file named .env, or .env. and more, in any case but for .env.example; it lists exactly the regular files at such paths. |
| ReleaseManifest.CollectComponentFiles | src/system/atomic-release.js:110-144 | The manifest entries of a component, or why it is refused. |
| ReleaseManifest.CheckEntries | src/system/atomic-release.js:209-227 | The loop with the seen set accepts exactly the lists of valid entries with distinct paths. |
| ReleaseManifest.ValidateManifestShape | src/system/atomic-release.js:189-228 | Accepts exactly the well-formed manifests of that release, a readable creation time included. |
| ReleaseManifest.ReleaseDirectory.CreateReleaseManifest | src/system/atomic-release.js:146-187 | Writes the manifest of both components once, or changes nothing and says why. |
| ReleaseManifest.ReleaseDirectory.VerifyReleaseManifest | src/system/atomic-release.js:230-249 | Succeeds exactly when the manifest is well formed and both components list what it says. |
| ReleaseManifest.SplitSlashed | src/system/atomic-release.js:134 | Splitting a joined path at the slashes gives the path back, so joined paths never collide. |
| ReleaseManifest.ListedEntriesAreValid | src/system/atomic-release.js:209-227 | A fresh listing passes the shape check unless a tracked path holds a backslash. |
| ReleaseManifest.ListingsAgree | src/system/atomic-release.js:241-243 | Two directories list the same entries if and only if their tracked files agree in path, size and digest and siblings that tie in the locale come in the same order. |
| ReleaseManifest.VerifiesExactlyWhenUnchanged | src/system/atomic-release.js:230-249 | After creation, and for any total preorder of names, verification succeeds if and only if both components are still clean with the same tracked files, tied siblings in the same order, and no tracked path holds a backslash. |
| ReleaseManifest.EmptyComponentsAreRefused | src/system/atomic-release.js:165-175 | A missing or empty component refuses the manifest. |
| ReleaseManifest.FingerprintsMeanContents | src/system/atomic-release.js:102-104 | Where digests do not collide, equal fingerprints mean equal files. |
| ReleaseManifest.TiesShow | src/system/atomic-release.js:117-118 | If two names tie in the locale's order, the order of the directory shows in the listing. |
| ReleaseManifest.ReleaseIdMeans | src/system/atomic-release.js:45-51 | A release id is accepted exactly as 6 to 96 letters, digits, dots, underscores and hyphens, the first a letter or digit, without the white space around it; so it is one path part, neither . nor .., and accepted again as it is. |
| ReleaseManifest.CommitShaMeans | src/system/atomic-release.js:53-59 | A commit is accepted exactly as forty digits and letters a to f, in any case and with white space around it, and kept in small letters. |
| ReleaseManifest.EntryMeans | src/system/atomic-release.js:211-226 | An entry is accepted exactly with a path that is not empty, does not begin with a slash, has no backslash and nowhere two dots as a whole part, a size that is not negative and 64 digits and letters a to f. |
| ReleaseManifest.ShapeMeans | src/system/atomic-release.js:189-228 | A manifest is accepted exactly with schema 1, the manual strategy, no automatic deployment, its own release id, an instant, and both components under their own roots, with a valid commit and valid entries of distinct paths. |
| ReleaseManifest.CreatesExactly | src/system/atomic-release.js:146-187 | A manifest is written exactly when there is none yet, the id, both commits and the instant are valid, and both components have files and nothing that refuses the listing; it then holds just that, with path, size and digest of exactly the regular files outside ignored names. |
| ReleasePreflight.MarkerVerifiesExactlyWhileKept | src/system/atomic-release.js:336-423 | A marker written by a preflight verifies later exactly while manifest and application report are the same files, for that release only. |
| ReleasePreflight.FindMeans | src/system/atomic-release.js:349-380 | What is looked up in a release is what its path leads to, and a path that leads nowhere finds nothing. |
| ReleasePreflight.PreflightNeedsAPassedReport | src/system/atomic-release.js:259-380 | A preflight passes if and only if the manifest verifies, the shared directories, environment files and artefacts are there, and the file named reads as a report of this release with schema 1, kind preflight, status passed, no automatic deployment and at least one check, all passed; its marker names that report and both digests. |
| ReleasePreflight.MarkerNeedsAPassedReport | src/system/atomic-release.js:382-405 | A marker passes if and only if it is a passed one of this release, carries the digests of the manifest and of the report it names, and that report is such a passed one. |
| ReleasePreflight.PassesExactlyWhileUnchanged | src/system/atomic-release.js:230-249 | After a preflight both checks of an activation pass if and only if manifest and report are the same files and both components are unchanged. |
| ReleaseSwitch.LinkIsAlwaysGood | src/system/atomic-release.js:428-490 | Over every run with any processes, crashes and changes to releases: the link never dangles, once present stays present, is the release of the last switch, and each switch follows its own process's manifest and marker checks, which the release's files passed at those moments; the state file is that of the last recorded activation. |
| ReleaseSwitch.SwitchedReleasePassesExactly | src/system/atomic-release.js:467-479 | The release a switch names passes each check at that moment if and only if whoever changed it last since the check left it passing; so it does when nobody changed it. |
| ReleaseSwitch.ChangedReleaseIsSwitchedTo | src/system/atomic-release.js:467-479 | A release changed between its checks and the rename is switched to, whatever it has become. |
| ReleaseSwitch.StateLagsByInterruptions | src/system/atomic-release.js:476-489 | When activations take turns, the state file lags the link by exactly the activations interrupted since it was written plus the one under way. |
| ReleaseSwitch.WithoutCrashesTheyAgree | src/system/atomic-release.js:476-489 | Without crashes and with activations in turn, link and state name the last switch, and its previous release is the link's target just before; what remains of this when activations overlap is stated next. |
| ReleaseSwitch.WithoutCrashesTheyAgreeExactly | src/system/atomic-release.js:476-489 | Without crashes, whatever runs at once: at rest the state file records some process's own switch; it names the current release if and only if the last switch was to the same release, as it is when none came after that one; and its previous release is the link's target just before that switch if and only if the link was not moved, or was moved back, since the process read it. |
| ReleaseSwitch.SwitchFindsTheExpected | src/system/atomic-release.js:467-475 | In every run, whenever a process is about to rename its link: the link is what the process read and what its caller expects if and only if no switch came since the reading or the last one led back; it already is the target if and only if the last one led there. |
| ReleaseSwitch.SwitchReplacesExactly | src/system/atomic-release.js:467-482 | In every run, crashes and overlaps included, each switch follows its process's one reading of the link and replaces the release that was read, recorded and expected if and only if no switch came in between or the last one led back to it; it is to a different release if and only if the last one did not lead to its target. |
| ReleaseSwitch.OverlapDefeatsTheGuard | src/system/atomic-release.js:467-482 | Two activations that both expect the current release: without a crash the second replaces the first's release and records the older one as previous. |
| ReleaseSwitch.DeployRoot.ResolveCurrentReleaseId | src/system/atomic-release.js:406-426 | Tells the current release, none, or that the link is not one to a release. |
| ReleaseSwitch.DeployRoot.ActivateRelease | src/system/atomic-release.js:460-490 | Switches link and state together to a release whose report says that every check passed, or changes nothing and says which check refused. |
| ReleaseSwitch.ActivatesExactly | src/system/atomic-release.js:460-490 | An activation goes through if and only if both checks pass and the link is absent or names another release, the expected one if one is expected; the state then names the release replaced, and the report of the new one says that every check passed. |
| ReleaseSwitch.RefusedWithoutAPassedReport | src/system/atomic-release.js:317-327 | A release with a sound manifest whose marker leads to no such report is refused for its marker. |
| ReleaseSwitch.SwitchedReleaseHadAPassedReport | src/system/atomic-release.js:382-490 | In every run of any number of processes, what a switch made current had such a report in it when its own process checked the marker. |
| ReleaseSwitch.DeployRoot.RollbackRelease | src/system/atomic-release.js:492-501 | Demands the expected release and then activates; on success the state records the release left. |
| ReleaseSwitch.RollbackRestores | src/system/atomic-release.js:492-501 | Rolling an activation back restores the link exactly when the former release still passes both checks. |
| ReleaseSwitch.UndisturbedRunIsTheCall | src/system/atomic-release.js:460-490 | Taken one operation at a time without disturbance, the machine changes link and state as the single call does. |
| ReleaseSwitch.StateCanLagByTwo | src/system/atomic-release.js:476-489 | Two crashes in a row leave a state file two releases behind the link. |
| ReleaseSwitch.ConcurrencyLeavesAStaleState | src/system/atomic-release.js:476-489 | Two activations at once can leave a stale state file without any crash. |
| Calendar.NextMonth | src/utils/collateral-monitoring.js:24-26 | Each month starts right after the last day of the month before (section 21.4.1 of ECMA-262). |
| Calendar.RangeIsThatOfTimeValues | src/utils/collateral-monitoring.js:1-15 | A day is in range exactly when its midnight is a time value of ECMA-262, at most 8.64e15 milliseconds from 1970, and the instants of a day are those up to the next midnight. |
| Calendar.DayNumberIsMonotone | src/utils/collateral-monitoring.js:6-14 | Later dates have larger day numbers and no two dates share one. |
| Calendar.CivilExists | src/utils/collateral-monitoring.js:6-14 | Every day number is that of a civil date. |
| Calendar.CivilIsUnique | src/utils/collateral-monitoring.js:6-14 | Reading the day number of a civil date gives the date back. |
| ExpiryImport.AcceptsExactlyTheCalendar | src/utils/collateral-expiry-import.js:52-63 | Accepted are exactly the Gregorian dates outside years 0 to 99 within the range of time values, and the result is that date. |
| ExpiryImport.TextCellsReadExactly | src/utils/collateral-expiry-import.js:101-113 | Every text cell is empty, or in the wrong format unless it is a date between white space, or yields exactly that date or an error; white space inside a text never makes it a date. |
| ExpiryImport.SerialsAreDays | src/utils/collateral-expiry-import.js:84-99 | A number whose floor lies in 1..2958465 names the day that many days after 1899-12-30, in years 1899 to 9999; every other number is an error. |
| ExpiryImport.IsoTextReadsBack | src/utils/collateral-expiry-import.js:101-113 | A date of years 100 to 9999 printed as YYYY-MM-DD parses back to itself. |
| ExpiryImport.SerialsReadBack | src/utils/collateral-expiry-import.js:84-113 | Each serial's date printed as YYYY-MM-DD parses back to the same date, and dates keep the order of serials. |
| ExpiryImport.OldDateCellsVanish | src/utils/collateral-expiry-import.js:70-82 | A date cell gives neither date nor error exactly when it lies in years 0 to 99. |
| Monitoring.AddMonthsIs | src/utils/collateral-monitoring.js:17-35 | What month addition computes for every start and every number of months. |
| Monitoring.AddsLikeTheCalendarExactly | src/utils/collateral-monitoring.js:17-35 | Month addition is the clamped calendar addition if and only if neither start nor target lies in years 0 to 99 and the target month is in range. |
| Monitoring.AdditionIsMonotone | src/utils/collateral-monitoring.js:17-35 | The same addition swaps two dates if and only if the earlier's target lies in years 0 to 99, the later's after them, and the dates are less than 1900 years apart (or exactly that, with the later on an earlier day of the month); otherwise it keeps their order. |
| Monitoring.MoreMonthsAreLater | src/utils/collateral-monitoring.js:17-35 | More months give a strictly later date unless, and exactly unless, the fewer lead into years 0 to 99 and the more out of them by at most 22800 months. |
| Monitoring.ThereAndBack | src/utils/collateral-monitoring.js:17-35 | Adding months and taking them back never ends after the start if and only if neither start nor target lies in years 0 to 99, and then ends on it exactly when nothing was clamped. |
| Monitoring.WarningWindows | src/utils/collateral-monitoring.js:84-108 | The two-month warning starts 59 to 62 days ahead, the three-month warning 89 to 92, if and only if the warning's month does not lie in years 0 to 99; otherwise it starts after the date. |
| Monitoring.ReportedDatesDecide | src/utils/collateral-monitoring.js:61-139 | On the reported record: due soon exactly from the reported start of the warning (two months for the appraisal, three for the expiry) to the day before the reported date, overdue from that date on, current before; a record without expiry date reports no date, status or days. |
| Monitoring.ReportedWarningsLead | src/utils/collateral-monitoring.js:80-139 | The reported appraisal warning starts 59 to 62 days before the reported date and the expiry warning 89 to 92, if and only if the warning's month does not lie in years 0 to 99; each is there exactly from the first warned day on. |
| Monitoring.StatusesMoveForward | src/utils/collateral-monitoring.js:61-78 | From a moment to a later one the statuses of every record only move forward unless, and exactly unless, the earlier lies in years 0 to 99 and is taken for a day after the later. |
| Monitoring.DaysKeepOrder | src/utils/collateral-monitoring.js:3-15 | Days read through the date-only conversion keep their order under exactly that condition. |
| Monitoring.OverdueIsExpired | src/utils/collateral-monitoring.js:37-42 | Where both statuses exist, overdue, expired and no days remaining coincide. |
| Monitoring.AppraisalWarningComesLater | src/utils/collateral-monitoring.js:84-123 | Due for appraisal soon implies due to expire soon at every moment if and only if the expiry date is neither in March of year 100 nor one of thirty days at the lower end of the range of time values, 20 June to 19 July of the year -271821. |
| Monitoring.WarningExists | src/utils/collateral-monitoring.js:17-35 | A warning exists if and only if the date is not among the first 61 days of the range of time values (91 for three months). |
| RateLimit.MemoryRateLimitStore.DeleteExpired | src/system/rate-limit-store.js:35-37 | Exactly the live keys remain, in their order. |
| RateLimit.MemoryRateLimitStore.EvictOldest | src/system/rate-limit-store.js:39-43 | Keys are removed from the front only, and no more than needed. |
| RateLimit.MemoryRateLimitStore.PruneMemoryEntries | src/system/rate-limit-store.js:32-44 | Above the limit the expired go first, then the oldest. |
| RateLimit.MemoryRateLimitStore.Consume | src/system/rate-limit-store.js:54-66 | Counts the request in its running or new window and prunes. |
| RateLimit.ConsumeKeepsWithinLimit | src/system/rate-limit-store.js:32-66 | After a request at most maxKeys keys remain, the one just used among them; a live key is gone only if no expired one is left. |
| RateLimit.IncrementWithTtl | src/system/rate-limit-store.js:9-17 | The script counts in the running window or opens a new one of the given length. |
| RateLimit.MemoryFollowsTheIdeal | src/system/rate-limit-store.js:46-66 | For a key that is not evicted the memory store answers as a store with all the memory it needs. |
| RateLimit.RedisFollowsTheIdeal | src/system/rate-limit-store.js:130-147 | The Redis script always does. |
| RateLimit.StoresAgree | src/system/rate-limit-store.js:46-147 | Both stores give a key the same counts and reset times until the memory store evicts it. |
| RateLimit.MemoryLimiterBounds | src/middlewares/rate-limit.middleware.js:99-145 | In every run without eviction of the key at most max requests pass per window and at most 2*max-1 in any half-open interval of the window's length. |
| RateLimit.RedisLimiterBounds | src/middlewares/rate-limit.middleware.js:99-145 | The same in every run on Redis. |
| RateLimit.TwiceMaxLessOneIsReached | src/middlewares/rate-limit.middleware.js:99-145 | On both stores a burst around the end of a window reaches that bound. |
| RateLimit.RetryAfterIsExact | src/middlewares/rate-limit.middleware.js:64-75 | Whoever waits as told finds a new window; one second less does not do unless it is the only one. |
| RateLimit.WaitIsFewestSeconds | src/middlewares/rate-limit.middleware.js:64-68 | The wait told is the fewest whole seconds, one at least, after which the window has ended, for every reset time and clock. |
| RateLimit.RefusedExactlyWhenFull | src/middlewares/rate-limit.middleware.js:123-145 | A request is refused exactly when its window already had max; the headers tell the limit, how many are left (none to the refused) and the wait; without an answer from the store the request is turned away as unavailable. |
| Heartbeat.MemoryHeartbeatStore.ActiveEntries | src/system/worker-heartbeat.js:178-186 | Drops exactly the tokens that ran out, and the role when none is left. |
| Heartbeat.MemoryHeartbeatStore.Beat | src/system/worker-heartbeat.js:190-195 | The token runs until now plus its time to live; other running tokens stay. |
| Heartbeat.MemoryHeartbeatStore.Inspect | src/system/worker-heartbeat.js:196-207 | Counts the running tokens and tells how long the last of them runs. |
| Heartbeat.MemoryHeartbeatStore.Release | src/system/worker-heartbeat.js:208-214 | Removes that token only. |
| Heartbeat.InspectScript | src/system/worker-heartbeat.js:13-25 | The Redis inspection tells the same of its running tokens. |
| Heartbeat.AnswerIsDetermined | src/system/worker-heartbeat.js:13-25 | There is one answer for given running tokens. |
| Heartbeat.StoresAgreeExactly | src/system/worker-heartbeat.js:8-32 | Redis and memory show the same workers at every moment of every trace if and only if no time to live in use is more than twice another. |
| Heartbeat.LongAndShort | src/system/worker-heartbeat.js:8-12 | Otherwise a long heartbeat followed by a short one vanishes from Redis while it still runs. |
| Heartbeat.OthersDoNotMatter | src/system/worker-heartbeat.js:175-219 | When a worker runs out depends on its own beats and releases alone. |
| Heartbeat.WorkerStaysVisible | src/system/worker-heartbeat.js:234-293 | A worker whose time to live exceeds two intervals stays visible from its first successful beat on, as long as no two consecutive beats fail. |
| Heartbeat.WorkerStaysVisibleInRedis | src/system/worker-heartbeat.js:234-293 | The same through Redis when times to live are close. |
| HeartbeatLifecycle.StoppedStaysUnlisted | src/system/worker-heartbeat.js:263-312 | In every interleaving, overlapping stops included, in which no start takes effect under a pending stop, a stopped worker is not listed and no beat is on its way until the next start. |
| HeartbeatLifecycle.LostExactly | src/system/worker-heartbeat.js:284-312 | A run leads, by letting its calls return, to a worker that stays listed while stop does nothing if and only if some start in it took effect under a pending stop. |
| HeartbeatLifecycle.OverlappingStopsLoseTheWorker | src/system/worker-heartbeat.js:295-312 | Such a run: two stops overlap, the first returns, the worker is started again, and the second stop undoes that start. |
| HeartbeatLifecycle.AtMostOneTimer | src/system/worker-heartbeat.js:284-304 | While no start takes effect under a stop and no stop under a start, at most one interval runs, and none after a stop. |
| HeartbeatLifecycle.LeaksExactly | src/system/worker-heartbeat.js:284-312 | A run leads, by letting its calls return, to an interval too many if and only if one of the two happens in it. |
| HeartbeatLifecycle.StopDuringStartLeaksATimer | src/system/worker-heartbeat.js:284-304 | A stop during the first beat leaves an interval behind. |
| HeartbeatLifecycle.BeatBeforeStartLists | src/system/worker-heartbeat.js:263-282 | The exported beat lists a worker that was never started, and stop does not take it off the list. |
| ArchiveAccess.ScopesAreReachable | src/utils/digital-archive-access.js:24-91 | A scope has a user exactly when an id is given and its row is found; it then sees all or its division exactly as its role holds the feature, and without a user there are no rights. |
| ArchiveAccess.ExpiryByDay | src/utils/digital-archive-access.js:99-115 | An expiry is not before the start of today exactly when the end of its day has not passed. |
| ArchiveAccess.BuildDocumentVisibilityWhere | src/utils/digital-archive-access.js:183-212 | The filter that the pushed conditions make up. |
| ArchiveAccess.FilterMeans | src/utils/digital-archive-access.js:183-212 | What the filter lets through, for every scope that can arise: without a user only the id that no document has. |
| ArchiveAccess.CheckMeans | src/utils/digital-archive-access.js:214-258 | What the check on one document lets through. |
| ArchiveAccess.AgreeExactly | src/utils/digital-archive-access.js:183-258 | Filter and check agree if and only if neither an approval without expiry nor a restricted flag beside an unrestricted level decides. |
| ArchiveAccess.ConsistentDocumentsAgree | src/utils/digital-archive-access.js:183-258 | On documents whose flag matches the level and whose approvals have an expiry they always agree. |
| PersuratanAccess.ScopesAreReachable | src/utils/persuratan-access.js:21-85 | A scope has a user exactly when an id is given and its row is found; it manages all or its division exactly as its role holds the feature, seeing all goes with managing all, and without a user there are no rights. |
| PersuratanAccess.BuildVisibilityWhere | src/utils/persuratan-access.js:97-180 | The filters that the pushed conditions make up, for the three kinds of mail. |
| PersuratanAccess.FilterAgreesWithCheck | src/utils/persuratan-access.js:97-254 | For every scope that can arise and each kind of mail, filter and check agree, except that without a user the filter asks for an id that no mail has. |
| PersuratanAccess.ManagersAreCreatorsOrGlobal | src/utils/persuratan-access.js:256-275 | Managing is left to the creator and to those who manage everything, and never exceeds viewing. |
| PersuratanAccess.AnonymousFullAccessParts | src/utils/persuratan-access.js:97-104 | Filter and check part for a scope that cannot arise: full access without a user. |
| RoleMenus.MergeIsAJoin | scripts/sync-role-menu-baseline.js:30-40 | Merging permissions is a join: order, grouping and repetition do not matter. |
| RoleMenus.AddParentReadPermissions | scripts/sync-role-menu-baseline.js:51-61 | Reading is added on every menu above, and nothing else changes. |
| RoleMenus.AncestorsAreReached | scripts/sync-role-menu-baseline.js:51-61 | The menus above are exactly those a chain of present, non-empty parents leads to. |
| RoleMenus.BuildExpected | scripts/sync-role-menu-baseline.js:63-97 | The baseline grants each mentioned menu the join of its policies and reading above them, and nothing else. |
| RoleMenus.ParentsCanBeRead | scripts/sync-role-menu-baseline.js:51-61 | Wherever a menu is granted, its parent can be read. |
| RoleMenus.BaselineIsOrderFree | scripts/sync-role-menu-baseline.js:83-95 | The baseline depends on the set of policies, not on their order or repetition. |
| RoleMenus.Compare | scripts/sync-role-menu-baseline.js:122-147 | The creates, updates and deletes are exactly the missing, differing and superfluous rows of the managed roles. |
| RoleMenus.SynchronisationConverges | scripts/sync-role-menu-baseline.js:122-206 | Applying the difference leaves exactly the expected permissions on the managed roles and every other role as it was; a second comparison is empty. |

## Left out

- CacheProtocol.AnswerIsFresh: the store is never closed and Redis neither evicts nor is flushed; a version counter that is lost would start again at zero.
- CacheProtocol.FreshAlways: an entry's time to live is any positive number and its size decides freely whether it is stored, which covers jitter and size limit; the metrics are not modelled.
- CacheOutcomes.ThrowsExactlyWhenALoaderFailed: under the lock, a value that cannot be encoded counts as a loader that failed; waiting for the poll interval is letting time pass.
- CacheKeys.RequestsShareExactlyWhenEqual: of Unicode case folding only what can reach the namespace pattern is modelled (A-Z and the Kelvin sign).
- StableJson.SerializeInjective: numbers are known by their ECMAScript text; values outside JSON (undefined, functions, toJSON) are not modelled.
- IdebNumber.PrintedReadsBack: rounding to binary floating point and numbers from 1e21 on are not modelled.
- IdebRecord.CollectibilityLevelIs: upper-casing covers the Latin letters only; the legal-dispute patterns are modelled on upper-case text.
- IdebHistory.OneRowPerPeriod: a month index below 0.000001 is printed with its zeros, where JavaScript writes an exponent.
- IdebMetrics.BuildMetrics: totals reported by the summary itself, its warnings about them, and the list in lifecycle order are not modelled.
- IdebHistory.MergingMerged: reporter and facility counts are left out because they do not compose: a merged row keeps only the larger of distinct names and reported counts.
- IdebVerdict.VerdictMeans: the evidence attached to a verdict (texts, matched counts, reporter and account lists) is not modelled.
- ReleaseManifest.CollectComponentFiles: a component root that is a symbolic link to a directory is refused, while the code follows it.
- ReleaseManifest.VerifiesExactlyWhenUnchanged: POSIX paths only; the file's JSON text is read back as it was written, and `created_at` is the instant it denotes.
- ReleasePreflight.MarkerVerifiesExactlyWhileKept: resolving the report's path against the release directory is taken as given; the manifest, report and marker are not reached through symbolic links.
- ReleaseSwitch.LinkIsAlwaysGood: Windows junctions are not modelled; nobody else touches `current`, and nobody removes the current release or one being activated. Each of the two checks reads the release in one step, where the code walks and hashes it file by file, so a change in the middle of a check is not modelled.
- ReleaseSwitch.DeployRoot.ActivateRelease: release ids are taken as already valid.
- ExpiryImport.AcceptsExactlyTheCalendar: the parts are whole numbers, as all callers in the file pass them.
- ExpiryImport.SerialsReadBack: reading the workbook, validating a row's other columns and matching rows to collaterals are not modelled.
- Monitoring.OverdueIsExpired: the labels and the parsing of date texts by the Date constructor are not modelled.
- RateLimit.RedisFollowsTheIdeal: the hash of a key is taken as the key; the client's clock agrees with the server's and no time passes between script and answer.
- RateLimit.MemoryLimiterBounds: building keys from requests, skipping requests and the error response beyond its status are not modelled.
- Heartbeat.WorkerStaysVisible: a successful beat takes effect at its tick; role names are taken as already normalised.
- HeartbeatLifecycle.StoppedStaysUnlisted: a release that fails leaves the worker listed until its time to live ends; a settled beat and the calls it resumes are one step; the failure log is not modelled.
- ArchiveAccess.ExpiryByDay: local days last 24 hours; changes of the clock's offset are not modelled.
- RoleMenus.BuildExpected: looking up menus by url and roles by name, and the capability and feature tables behind a policy's permission, are taken as given; menus form a forest.
- Pagination, queues, mail, serializers, seeders and request validation: data, formatting and foreign calls.
