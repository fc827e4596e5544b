# A verified model of mdbapi

mdbapi is a Windows service that serves Microsoft Access files over HTTP. These Dafny
modules model the parts of it that keep state or transform text, and prove what those
parts guarantee.

- **Discovery.** Configured globs are expanded over a file tree (`FileTree`, `Glob`,
  `Wildcards`, `Paths`), every match gets an alias (`Alias`), duplicates are dropped
  (`Expand`, `Expansion`), and a pool opens the databases (`Pool`). At run time a poll loop (`Watcher`)
  and a debounced notification loop (`Debounce`) find new files; several goroutines share
  one registrar (`Interleaving`), which may be closed under them (`Shutdown`). `Service`
  follows a service from its configuration through any run. `Incremental`, `Coherence` and
  `SamePaths` compare a service that grew with one started afresh: on one tree, over all
  trees, and path by path.
- **SQL.** Comments are stripped (`SqlText`), a statement is accepted or refused
  (`Verdict`, `Prefixes`), a row cap is inserted (`RowCap`). Table queries are written as
  text, read back by an independent grammar (`Statement`), run against an abstract
  database, and paged by over-fetching (`Query`, `Paging`). Column lists are cached per table and alias
  (`Schema`, `Store`).
- **Helpers with a bound or a protocol.** The per-address rate limiter with its eviction
  loop (`RateLimit`, `Admission`) and the swap of the service's own executable (`Updater`).

An operation that changes state in the source is a method on a class, proved equal to a
function on values; the properties are lemmas about those functions. `dafny verify
dfyconfig.toml` checks everything.

Each of the following has an exact condition, because the code does not do it always.

- The walk-free test agrees with the tree walk on every tree if and only if the
  recursive glob's base is not a volume root (`GlobTheorems.AgreeOnAllTreesIffNotRootBased`):
  `internal/config/glob.go:156` appends a separator to a base that already ends in one.
- A service that polls a growing tree ends with the aliases of a fresh start, for every
  configuration and every tree in which globs list files only, if and only if each such
  file is a database, some glob accepts it, and the first one that does has a base as
  deep as the base of the glob that lists it (`Coherence.CatchesUpOnFilesIffGuarded`).
  Globs may also list directories; over all trees one exception is added, a listed
  directory above an entry that supplies the same alias
  (`Coherence.CatchesUpIffCoherent`). On one tree it is enough that the condition holds
  for what the globs match there (`Coherence.GuardedTreeCatchesUp`).
- For given entries and a given tree of files, a service that grew to that tree from any
  smaller one lists the same path under every alias as a fresh start if and only if all
  entries that could win an alias, having no explicit entry of that alias before them,
  list the same alias and path, and under an alias without explicit entry the poll first
  tries such a path (`SamePaths.SamePathsIffSettled`). Where the guard above holds the
  second part follows (`SamePaths.GuardedIsPolledAlike`).
- Two files below one base share an alias, so that only one is served, if and only if
  their joined names have one length and differ only in case and in characters that become
  underscores (`Alias.AliasesCollideIff`).
- Driver and path can be read back from a connection string if and only if the driver's
  name holds no closing brace and the path no semicolon (`Pool.ConnStrReadsBackIff`).
- `NewPool` keeps one handle per alias if and only if no two databases that opened share
  an alias (`Pool.NewPoolConservesExactly`). `expandGlobs` always meets this
  (`Incremental.ExpandedAliasesAreApart`).
- Before the pool is closed, a listed path can never change if and only if its database is
  open (`Pool.PathIsFixedIffOpen`): one that failed to open at start-up is listed, but a
  registration under its alias may bring another path.
- Closing the pool, while goroutines are inside tryRegister, leaves the listed paths as
  they are if and only if at that moment none of them stands between its check and its
  registration with a listed alias and another path (`Shutdown.ClosingKeepsPathsIff`). The
  closed pool ends without an open handle if and only if no call reports a new database
  afterwards (`Shutdown.NothingLeftOpenIff`).
- Forgetting an address idle for ten minutes is invisible in every run if and only if
  ten minutes fill a bucket (`RateLimit.SweepsAreInvisibleIff`). Under the same condition,
  and only then, the number of requests let through is bounded by burst plus rate in every
  window of every run (`RateLimit.WindowsAreBoundedIff`): otherwise a sweep gives one
  address its burst twice. So is the cost of a denied request: without it all other answers
  are the same in every run (`Admission.DenialsCostNothingIff`), while beyond that condition
  it can keep an address from being forgotten. The configuration compares the two settings
  nowhere.
- After a failed first attempt, trying the second download source cannot lose the last
  complete executable if and only if the executable is complete again
  (`Updater.SecondAttemptIsSafeIffExeIsWhole`): otherwise the second attempt starts by
  removing the only backup. Over any run of attempts a complete binary is missing at some
  moment if and only if after the first double fault some attempt takes the backup
  (`Updater.RunLosesTheBinaryIff`).
- A text in front of any statement leaves the read-only verdict as it was if and only if
  it closes its block comments, leaves only blanks behind, and does not end inside a line
  comment (`Prefixes.PrefixIsIgnoredIffInvisible`). For a line comment this means that
  every block comment opened in it is closed in it
  (`Verdict.LineCommentIsIgnoredIffClosed`); block comments differ from it when their text
  starts with a slash or holds a closing mark (`Prefixes.BlockCommentIsIgnoredIff`).
- Taking the inserted cap out gives the statement back if and only if the statement did
  not start with white space (`RowCap.CapIsInsertedAfterKeywordIffUnindented`): otherwise
  letters of the keyword stay behind the cap.
- The text sent starts with SELECT TOP if and only if the statement is a SELECT that did so
  already or holds no TOP between blanks anywhere (`RowCap.CappedExactly`).
- The text of a table query reads back as the statement that was meant if and only if the
  row count is not negative and no name in it holds a closing bracket
  (`Statement.RenderReadsBack`). Column names come from the schema, but the table text
  comes from the request as it is, so every answer is the one asked for if and only if
  that text holds no closing bracket (`Query.AnswerIsExpectedIffTablePlain`).
- A page is exact if and only if offset plus limit fits a 64-bit integer
  (`Paging.PageIsExactIffItFits`).
- A column cache keeps the pool's handle if and only if the pool was never closed
  (`Store.CurrentIffNeverClosed`).

Places where the code and its comments differ, modelled as the code does it: the cap is
inserted by slicing the untrimmed statement (`internal/mdb/query.go:235-241`); a
statement behind a comment is accepted but runs without a cap (`RowCap.CommentHidesTheCap`);
and so does one with a TOP inside a string literal (`RowCap.LiteralHidesTheCap`). The
comment at `internal/mdb/schema.go:82-84` says that the table name is validated before and
comes from the list of tables, but the table of a query is the path segment of the request
(`internal/api/handlers.go:46`) and reaches the text unchecked (`internal/mdb/store.go:55-61`,
`internal/mdb/query.go:79`).

## Model

| member | source | states |
|---|---|---|
| Paths.EqualFoldRender | internal/config/glob.go:116 | comparing two rendered paths without case is comparing volume and components without case |
| Paths.PrefixTestMeaning | internal/config/glob.go:156-158 | the prefix test on folded text holds exactly for paths strictly below a base that is not a root |
| Wildcards.MatchLower | internal/config/glob.go:139-142 | a wildcard match survives lower-casing pattern and name |
| Wildcards.MatchBySplit | internal/config/glob.go:139-142 | matching a whole path text is matching it component by component |
| Wildcards.MatchMeaning | internal/config/glob.go:139-142 | a name matches if and only if it can be cut into one piece per pattern character: any run without separators for a star, one character for a question mark, the character itself otherwise |
| Paths.RenderMeaning | internal/config/glob.go:171-172 | the text of a path is its drive letter and colon, or its share, and its components behind separators |
| FileTree.VisitMeaning | internal/config/glob.go:106 | a walk from the base visits exactly the entries at and below it |
| FileTree.GlobKidsMeaning | internal/config/glob.go:82 | a single-level listing returns exactly what exists and matches in every component |
| Glob.GlobBaseText | internal/config/glob.go:169-191 | the text loop yields the rendered longest wildcard-free prefix of a rooted pattern, and the volume's root for a relative leading wildcard |
| Glob.GlobBaseMeaning | internal/config/glob.go:174-179 | the base is the volume and the components before the first one with a wildcard |
| Glob.WalkDir | internal/config/glob.go:105-128 | the callback keeps, in walk order, the files not directly in the base whose folded name matches |
| Glob.MatchGlob | internal/config/glob.go:78-129 | the listing is the function the lemmas below describe, in both branches |
| Glob.MatchGlobMeaning | internal/config/glob.go:78-129 | for any tree and pattern, a path is returned exactly when it exists and the pattern lists it |
| Glob.MatchGlobExactly | internal/config/glob.go:78-129 | with two stars in a row: the files below the base, not directly in it, whose name matches the last component in any case; without: the files and directories that match component by component |
| Glob.PathMatchesGlobMeaning | internal/config/glob.go:135-162 | what the walk-free test accepts, said in components: below the base but not directly in it, never from a root, leaf matching |
| GlobTheorems.AgreementExactly | internal/config/glob.go:98-162 | on any tree the test and the walk agree on every visited file exactly when the base is a directory below its root, or nothing is found |
| GlobTheorems.AgreeOnAllTreesIffNotRootBased | internal/config/glob.go:144-158 | they agree on all trees if and only if the base is not a root |
| GlobTheorems.ListedIsAccepted | internal/config/glob.go:81-96 | a listed path is accepted by the test exactly when the pattern is not root-based and the base is not itself the file |
| GlobTheorems.AcceptedLiesBelowBase | internal/config/glob.go:135-191 | an accepted path lies strictly below the watched base, up to case |
| GlobTheorems.TestIsListingUpToCase | internal/config/glob.go:135-162 | the test accepts exactly the paths of which some case variant would be listed |
| Alias.AliasFromPath | internal/config/glob.go:198-220 | the alias of the relative path, or the error of a path on another volume; which text that is AliasMeaning and RelMeaning say |
| Alias.Slug | internal/config/glob.go:203-219 | the builder loop yields the alias text that AliasMeaning spells out |
| Alias.RelMeaning | internal/config/glob.go:199 | the relative path goes up to the last directory both share, up to case, and down from there |
| Alias.AliasMeaning | internal/config/glob.go:203-219 | the alias of a file below a base is its components below it joined by underscores, the last without its extension, in lower case, with an underscore for every character that is no letter, digit, dash or underscore |
| Alias.AliasOfPlainNames | internal/config/glob.go:15-21 | names of letters, digits, dashes and underscores are only joined and put in lower case |
| Alias.AliasesCollideIff | internal/config/glob.go:203-219 | two files below one base share an alias if and only if their joined names have one length and differ only in case and in characters that become underscores |
| Alias.AliasAlphabet | internal/config/glob.go:206-218 | every alias uses only lower-case letters, digits, dash and underscore |
| Alias.AcceptedHasAlias | internal/watcher/watcher.go:233-240 | an accepted path always has an alias, made only from the components below the base, with no step upwards |
| Alias.AliasIgnoresCase | internal/config/glob.go:198-206 | spellings of one file that differ in case get one alias |
| Alias.DeeperBaseOtherAlias | internal/config/glob.go:199-205 | one file gets different aliases from bases of different depth |
| Expand.Add | internal/config/glob.go:62-68 | one candidate is kept exactly if its folded alias is new |
| Expand.AddMatches | internal/config/glob.go:57-69 | the matches of one glob are added in order, stopping at the first alias error |
| Expand.ExpandGlobs | internal/config/glob.go:29-73 | the result is the first candidate of every folded alias, or the first alias error |
| Expand.FirstsKeepEveryKey | internal/config/glob.go:62-68 | the result is distinct up to case and loses no alias |
| Expand.FirstsAreFirst | internal/config/glob.go:35-44 | an entry is kept exactly if it is the first candidate with its alias |
| Expand.FirstsAreSubsequence | internal/config/glob.go:29-73 | the result keeps the order of the candidates |
| Expand.ExpansionIsFixed | internal/config/glob.go:29-73 | expanding a result again returns it unchanged, on any tree |
| Expand.ExpansionKeys | internal/config/glob.go:29-73 | expansion never fails on rooted patterns, and yields exactly the aliases of the explicit entries and of all listed files |
| Expansion.ExpansionExactly | internal/config/glob.go:29-73 | an entry comes out if and only if it is an explicit entry or the alias, path and no driver of a match, and nothing earlier, by entry and by match, has its alias in lower case |
| Pool.Driver.OpenDB | internal/mdb/driver_windows.go:81-123 | a database that does not answer leaves no handle open |
| Pool.Pool.constructor | internal/mdb/pool.go:49-68 | every configured database is listed, those that open are held |
| Pool.Pool.Register | internal/mdb/pool.go:152-166 | a known alias changes nothing, a new one enters all three maps, a failure leaves the pool as it was |
| Pool.Pool.Close | internal/mdb/pool.go:141-148 | every held handle is closed, in whatever order the map is iterated; paths stay listed |
| Pool.Pool.Aliases | internal/mdb/pool.go:90-98 | each listed alias once |
| Pool.RegisterKeepsSound | internal/mdb/pool.go:152-166 | registering keeps the handles open equal to those held, each opened from its listed path |
| Pool.CloseKeepsSound | internal/mdb/pool.go:141-148 | closing leaves no handle open |
| Pool.NamedDriverWins | internal/mdb/driver_windows.go:81-110 | a handle is opened with the driver the entry names, and with the installed one if it names none; both are in the connection string |
| Pool.ConnStrReadsBackIff | internal/mdb/driver_windows.go:107-110 | driver and path can be read back from the connection string if and only if the driver holds no closing brace and the path no semicolon |
| Pool.RunKeepsSound | internal/mdb/pool.go:141-166 | both hold over every run of registrations and closings |
| Pool.RunKeepsOpen | internal/mdb/pool.go:152-157 | before the pool is closed an open alias keeps its handle and its path |
| Pool.PathIsFixedIffOpen | internal/mdb/pool.go:152-166 | before the pool is closed a listed path can never change if and only if its database is open |
| Pool.AfterCloseAPathCanChange | internal/mdb/pool.go:141-166 | after closing, every listed alias can come back with any path and leave a handle open |
| Pool.NewPoolConservesExactly | internal/mdb/pool.go:55-66 | start-up loses no handle if and only if no two databases that opened share an alias |
| Pool.NewPoolIsSound | internal/mdb/pool.go:49-68 | with distinct aliases the new pool is sound whichever databases open |
| Pool.StartedAliases | internal/mdb/pool.go:55-66 | the listed aliases are exactly the configured ones |
| Pool.StartedPath | internal/mdb/pool.go:58-65 | every configured database is listed with its path, opened or not |
| Watcher.Watcher.DeriveAlias | internal/watcher/watcher.go:223-240 | an alias is derived only for a database ending, and from the base of the first glob that accepts the path |
| Watcher.DatabaseByEnding | internal/watcher/watcher.go:226-229 | the extension test holds exactly for texts that end in one of the two extensions, in any case |
| Watcher.FirstAcceptingDecides | internal/watcher/watcher.go:226-240 | the first accepting glob decides the alias of a database; a path with another ending, or that no glob accepts, has none |
| Watcher.TryMeaning | internal/watcher/watcher.go:242-256 | without an alias, or with one listed in any case, nothing changes; otherwise the opening decides between a new entry with a handle on the path and no change |
| Watcher.Watcher.AlreadyListed | internal/watcher/watcher.go:243-247 | true exactly if some listed alias equals this one up to case |
| Watcher.Watcher.TryRegister | internal/watcher/watcher.go:222-257 | the new pool state and the answer, for every outcome |
| Watcher.Watcher.TryMatches | internal/watcher/watcher.go:211-215 | the matches of one glob are tried in order and the successes counted |
| Watcher.Watcher.Poll | internal/watcher/watcher.go:203-218 | all globs are listed and tried in order, and the successes counted |
| Watcher.Watcher.Tick | internal/watcher/watcher.go:103-115 | one poll, and the next interval |
| Watcher.IntervalIsCappedDoubling | internal/watcher/watcher.go:104-113 | after k idle polls since the last discovery the interval is the base times 2 to the k, capped at five minutes |
| Watcher.TryAllAliases | internal/watcher/watcher.go:211-215 | any attempts in any order add exactly the aliases of those that can open, and are counted once per alias added |
| Watcher.FlushOrderIsIrrelevant | internal/watcher/watcher.go:140-144 | the map order of a flush changes neither the aliases nor the count |
| Watcher.PollReturnsGrowth | internal/watcher/watcher.go:203-218 | a poll returns exactly the growth of the alias list |
| Watcher.RepeatedPollIsIdle | internal/watcher/watcher.go:203-218 | a second poll of an unchanged tree finds nothing and changes nothing |
| Watcher.PollTakesFirst | internal/watcher/watcher.go:203-218 | under a free alias a poll registers the first file that opens, by glob and by listing |
| Incremental.ExpandedAliasesAreApart | internal/config/glob.go:62-68 | the aliases start-up hands to the pool are pairwise distinct up to case |
| Incremental.StartupIsSound | internal/winservice/service.go:91-100 | the service starts with a sound pool whichever databases open |
| Incremental.StartAliases | internal/winservice/service.go:91-100 | the aliases of a fresh start are the explicit ones and one per glob and listed file |
| Incremental.PollAliases | internal/watcher/watcher.go:203-218 | a poll adds exactly the aliases the watcher derives for listed files |
| Incremental.CoherentTreeCatchesUp | internal/watcher/watcher.go:203-257 | polling any larger tree gives the aliases of a fresh start on it if watcher and expansion agree on what the globs match in that tree |
| Coherence.GuardMeaning | internal/watcher/watcher.go:231-240 | the two agree on a listed path exactly if it is a database and the first glob accepting it has a base as deep as that of the listing glob |
| Coherence.GuardedTreeCatchesUp | internal/watcher/watcher.go:203-257 | so polling a larger tree catches up if this holds for its matches, files and directories alike |
| Coherence.CatchesUpOnFilesIffGuarded | internal/watcher/watcher.go:203-257 | over all configurations and all trees in which globs list files only, polling catches up if and only if this holds for every file below unlisted directories |
| Coherence.CatchesUpIffCoherent | internal/watcher/watcher.go:203-257 | over all configurations and all trees, if and only if it holds for everything listed, up to differences that a listed directory above masks |
| Coherence.MaskedOnlyInListedDirectories | internal/watcher/watcher.go:203-257 | nothing is masked below unlisted directories |
| Coherence.DisjointGlobsCatchUp | internal/watcher/watcher.go:203-257 | polling a larger tree catches up if its matches are databases, no glob is root-based or starts from a file, and globs accepting one match have bases of one depth |
| Coherence.LeafFixesExtension | internal/watcher/watcher.go:226-229 | a glob whose last component ends in a database extension lists databases only |
| Coherence.OverlapIsIncoherent | internal/watcher/watcher.go:231-240 | in any list of globs, two that list one entry from bases of different depth break the condition, unless a listed directory lies above |
| Coherence.RootBasedIsIncoherent | internal/config/glob.go:156-158 | a root-based recursive glob breaks it in any list whose single-level globs have a base below their root |
| SamePaths.GrownServiceListsSamePaths | internal/watcher/watcher.go:203-257 | on any tree where those who could win an alias agree on its path, the poll among them, the grown service lists the same path under every alias as a fresh start |
| SamePaths.SamePathsIffSettled | internal/watcher/watcher.go:203-257 | for given entries and a given tree of files, this happens from every smaller tree if and only if they agree |
| SamePaths.GuardedIsPolledAlike | internal/watcher/watcher.go:231-248 | where every match meets the guard, the poll tries under each free alias only what an entry of that alias yields, and tries one if any does |
| SamePaths.SettledListsSameIffGuarded | internal/watcher/watcher.go:203-257 | for given globs, all settled trees of files lead to the same paths if and only if every file the globs could list meets the guard |
| Service.StartsFoldDistinct | internal/config/glob.go:62-68 | whichever databases open, the started pool lists no two aliases equal up to case |
| Service.ServiceIsSafe | internal/winservice/service.go:91-100 | from any configuration and tree, whichever databases open, through any interleaving before closing: aliases distinct up to case, listed paths fixed, handles opened from their listed path, and answers of true accounted for |
| Service.ServiceEndsSafely | internal/winservice/service.go:60-80 | the same to the end, the pool closed at any moment and any number of times: aliases distinct up to case, configured aliases keep their path, handles opened from their listed path |
| Shutdown.ClosingKeepsPathsIff | internal/winservice/service.go:60-80 | a closing leaves every listed path as it is, whatever happens next, if and only if no goroutine has checked a listed alias for another path |
| Shutdown.RivalsArise | internal/watcher/watcher.go:222-254 | two goroutines that find two files of one new alias can reach a moment at which one has |
| Shutdown.PathsStayIffNoneStale | internal/watcher/watcher.go:242-254 | at any reachable moment, listed paths cannot change before the next closing if and only if no goroutine has checked an alias that is listed, closed, and of another path |
| Shutdown.NothingLeftOpenIff | internal/mdb/pool.go:141-166 | the closed pool ends without an open handle if and only if no call reports a new database afterwards |
| Service.ServiceAliases | internal/watcher/watcher.go:222-257 | when every database tried opens, the aliases after any interleaving are the configured ones and those derived for the paths taken up |
| Interleaving.UninterruptedIsTry | internal/watcher/watcher.go:222-257 | the three steps without interruption are the sequential tryRegister |
| Service.ServiceCountsARaceTwice | internal/watcher/watcher.go:242-254 | in every started service, two goroutines that both read the list before either registers both answer true for one new alias |
| Debounce.FsnotifyLoop.Flush | internal/watcher/watcher.go:140-153 | every pending path is tried once, the buffer is emptied, both timers are stopped |
| Debounce.FsnotifyLoop.ReceiveEvent | internal/watcher/watcher.go:161-184 | a creation of a file with a database ending enters the buffer and sets the timers; any other notification changes nothing |
| Debounce.CreatedAreHandedOver | internal/watcher/watcher.go:122-199 | over every run of raw notifications, timers, errors and cancellations, the paths handed over and those in the buffer are exactly the databases whose creation was notified, and after a timer or the cancellation all are handed over |
| Debounce.FsnotifyLoop.Buffer | internal/watcher/watcher.go:173-184 | an arrival resets the quiet timer and starts the maximum timer if none runs |
| Debounce.FsnotifyLoop.Receive | internal/watcher/watcher.go:155-198 | the new loop state and the paths handed over, for every branch of the select |
| Debounce.PendingIsWaiting | internal/watcher/watcher.go:140-184 | over every run, the buffer holds the arrivals since the last flush, and is non-empty exactly when both timers are armed, at last arrival plus 500 ms and first arrival plus 2 s |
| Debounce.NothingIsLost | internal/watcher/watcher.go:122-199 | at every moment of every run, the paths handed to tryRegister and those in the buffer are exactly the database files whose creation was received |
| Debounce.FlushesHandBlocks | internal/watcher/watcher.go:140-144 | each flush hands over exactly the paths that arrived since the flush before |
| Debounce.DroppedOnlyWhenClosed | internal/watcher/watcher.go:157-164 | a cancelled loop drops nothing; a closed channel drops exactly the waiting paths |
| Debounce.WaitingIsBounded | internal/watcher/watcher.go:176-190 | if due timers are served at once, whatever comes next comes within two seconds of every waiting path |
| Debounce.FlushesAreTimely | internal/watcher/watcher.go:176-190 | every timer flush happens at the earlier of last arrival plus 500 ms and first arrival plus 2 s |
| SqlText.StripSQLComments | internal/mdb/query.go:209-230 | the loop that restarts from the beginning terminates and equals one left-to-right scan followed by the line cut |
| SqlText.ScanRestarts | internal/mdb/query.go:211-221 | removing the first closed comment leaves the scan of the text unchanged |
| SqlText.ScanMeaning | internal/mdb/query.go:211-221 | a text without a comment opened and then closed is kept, in any other the first comment becomes a space, and so on |
| SqlText.ScanNoBlock | internal/mdb/query.go:211-221 | a scanned text has no opening mark with a later closing mark |
| SqlText.CutLineMeaning | internal/mdb/query.go:224-227 | a line is cut where its first line comment starts, and left alone without one |
| SqlText.TrimSpaceMeaning | internal/mdb/query.go:200 | trimming takes white space off both ends, and all of it |
| SqlText.StripIsClean | internal/mdb/query.go:209-230 | a stripped text has no line break, no line comment mark and no closed block comment, and is trimmed |
| SqlText.StripFixesExactlyClean | internal/mdb/query.go:209-230 | exactly the clean texts are left as they are, so stripping is idempotent |
| Verdict.StripTrim | internal/mdb/query.go:200 | trimming before stripping changes nothing |
| Verdict.VerdictIgnoresTrivia | internal/mdb/query.go:199-206 | any number of blanks, closed line comments and block comments in front of a statement leaves the verdict and the stripped text as they were |
| Verdict.LineCommentIsIgnoredIffClosed | internal/mdb/query.go:211-228 | a line comment is ignored before every statement if and only if all block comments opened in it are closed in it |
| Prefixes.PrefixIsIgnoredIffInvisible | internal/mdb/query.go:199-230 | a text in front of every statement is ignored if and only if it closes its block comments, leaves only blanks, and does not end inside a line comment |
| Prefixes.BlockCommentIsIgnoredIff | internal/mdb/query.go:211-229 | the same for block comments, for every comment text |
| Verdict.StatementIsAccepted | internal/mdb/query.go:201-204 | a text that starts with SELECT in any case is accepted whatever follows |
| Verdict.StartDecides | internal/mdb/query.go:199-206 | a text that starts with a word, without slashes, dashes or line breaks in it, is accepted if and only if that starts with SELECT or WITH, in any case, whatever follows |
| Verdict.CleanIsJudged | internal/mdb/query.go:199-206 | a trimmed line without comments is accepted if and only if it starts with SELECT or WITH, in any case |
| RowCap.CapKeepsVerdict | internal/mdb/query.go:234-244 | inserting a cap, of any size, leaves the verdict as it was |
| RowCap.SentExactly | internal/mdb/query.go:234-244 | the text sent is the text received if and only if that is no SELECT, starts with SELECT TOP or holds a TOP between blanks; otherwise it is SELECT TOP, the cap, and the text from its seventh character |
| RowCap.CapOnce | internal/mdb/query.go:235-239 | a second cap, of any size, changes nothing |
| RowCap.CappedExactly | internal/mdb/query.go:235-243 | the text sent starts with SELECT TOP exactly if the statement is a SELECT that did so or holds no TOP between blanks |
| RowCap.LiteralHidesTheCap | internal/mdb/query.go:237-239 | a TOP inside a literal leaves an accepted SELECT without a cap |
| RowCap.CapIsInsertedAfterKeywordIffUnindented | internal/mdb/query.go:235-241 | the text sent starts with the keyword and the cap; taking the cap out gives the statement back, without its indentation, if and only if it had none |
| RowCap.CommentHidesTheCap | internal/mdb/query.go:199-244 | a statement behind a block comment keeps its verdict but gets no cap |
| Statement.RenderReadsBack | internal/mdb/query.go:77-83 | the text of a table query reads back as the query meant, columns in their order, if and only if its row count is not negative and no name holds a closing bracket |
| Statement.TextInFull | internal/mdb/query.go:55-83 | the whole text for two conditions and an order |
| Statement.DirectionReads | internal/mdb/query.go:67-71 | ascending and descending are written ASC and DESC |
| Statement.BracketInTableIsNoStatement | internal/mdb/query.go:79 | a table text with a closing bracket at its end gives a text that is no statement |
| Query.TextMeansStatementIffPlain | internal/mdb/query.go:77-85 | the text of a statement that asks for rows has that statement's answer on every database if and only if its names hold no closing bracket |
| Query.ScanRow | internal/mdb/query.go:181-191 | one row is stored under its column names, strings trimmed on request |
| Query.ScanRows | internal/mdb/query.go:153-195 | exactly the rows after the skipped ones, in order, or an error |
| Query.AnyOrderMeansTheFilters | internal/mdb/query.go:53-59 | clauses and arguments listed in any order denote the conjunction of the filters |
| Query.StatementSelects | internal/mdb/query.go:79-85 | running the statement selects the rows that meet the filters, in the order asked for, up to the count |
| Query.BuildWhere | internal/mdb/query.go:49-59 | in every iteration order each filter gives one clause and its own argument; an unknown column fails every order |
| Query.BuildOrder | internal/mdb/query.go:62-72 | the order clause, or an error for an unknown column |
| Query.QueryTable | internal/mdb/query.go:36-92 | unknown columns are refused; otherwise the answer is that to the statement with the filters in some order; the cache grows at most by one description |
| Query.AnswerIsExpectedIffTablePlain | internal/mdb/query.go:48-85 | over every database with plain column names, every query on a table text gives the matching rows in the order asked for, whatever the iteration order of the filters, if and only if that text holds no closing bracket |
| Query.ExecuteSQL | internal/mdb/query.go:96-118 | a refused statement never reaches the database; an accepted one reaches it once, as it came or with the cap behind its keyword, by the conditions of the text; the answer is the database's, scanned |
| Paging.PageIsExactIffItFits | internal/mdb/query.go:44-92 | for an offset that is not negative the answer is rows offset to offset plus limit, clipped, if and only if the sum fits 64 bits; the limit is the one asked for if it lies between one and the maximum, and the maximum otherwise |
| Paging.NegativeOffsetShortens | internal/mdb/query.go:77-91 | a negative offset skips nothing and shortens the answer by as much |
| Paging.NeverMoreThanMaxRows | internal/mdb/query.go:44-46 | no answer has more rows than the configured maximum, nor than a limit asked for within it |
| Paging.PagesPartitionTheResult | internal/mdb/query.go:74-91 | consecutive pages, one after the other, are the whole result: no row lost, none repeated |
| Paging.RefusedIff | internal/mdb/query.go:53-66 | a query is refused if and only if a filter, or else the sort, names a column the list lacks, or there is no list |
| Paging.RowsAsked | internal/mdb/query.go:49-85 | the result rows are those that meet the filters, sorted by the column and in the direction asked for |
| Paging.CacheGrowsIff | internal/mdb/schema.go:53-63 | a query adds a fresh description to the cache if it names a column and describing succeeded, and changes nothing otherwise |
| Paging.ScannedMeaning | internal/mdb/query.go:153-195 | the rows after the skipped ones come out under their names, unless a row has another width than the header or reading fails |
| Paging.TrimBlanksMeaning | internal/mdb/query.go:185-189 | trimming removes exactly the blanks at the end |
| Paging.RowMapMeaning | internal/mdb/query.go:181-191 | each column is shown under its name, of equal names the last; a text loses the blanks at its end if asked to, any other value is shown as it is |
| Paging.RowMapKeys | internal/mdb/query.go:181-191 | nothing is shown under a name that the header lacks |
| Schema.ColumnCache.Columns | internal/mdb/schema.go:53-63 | the cached list, or a fresh description, which is kept only if it succeeded |
| Schema.ColumnCache.ValidateColumn | internal/mdb/schema.go:67-78 | no error exactly for a name in the list |
| Schema.ColumnCache.ColumnType | internal/mdb/schema.go:109-120 | the type of the first column of that name, or an error |
| Schema.LookupSticks | internal/mdb/schema.go:53-63 | once a lookup succeeded, later ones answer the same whatever the database says |
| Schema.LookupAddsOne | internal/mdb/schema.go:53-63 | a lookup adds at most the list of its own table, and none if describing fails |
| Store.PoolStore.Cache | internal/mdb/store.go:72-82 | one cache per alias, created with the handle the pool then holds |
| Store.PoolStore.QueryTable | internal/mdb/store.go:55-61 | the answer, and the new state of the one cache it may change |
| Store.QueryCaches | internal/mdb/store.go:55-82 | a query that names a column leaves the list of its table in the cache of its alias |
| Store.CachedListStays | internal/mdb/store.go:55-82 | over every run, closings included, later queries work with the cached list |
| Store.CurrentIffNeverClosed | internal/mdb/store.go:72-82 | over every run, a cache is bound to the pool's current handle if and only if the run closes the pool nowhere |
| Store.KnownColumnsAreLive | internal/mdb/store.go:55-82 | before closing, with a fixed schema, a query knows a column exactly if the live table has it |
| RateLimit.Middleware.Handle | internal/api/middleware.go:162-186 | the answer and the new map; a rate that is not positive limits nothing |
| RateLimit.Middleware.Sweep | internal/api/middleware.go:148-160 | exactly the entries idle for more than ten minutes are removed, in whatever order |
| RateLimit.SweepsAreInvisibleIff | internal/api/middleware.go:147-186 | sweeps change no answer in any run if and only if burst is at most 600 times the rate |
| RateLimit.AdmittedAtMostBurstPlusRate | internal/api/middleware.go:134-186 | if ten minutes fill a bucket, an address gets at most burst plus T times the rate through in any window of T seconds, sweeps included |
| RateLimit.WindowsAreBoundedIff | internal/api/middleware.go:134-186 | that bound holds for every window of every run if and only if burst is at most 600 times the rate |
| Admission.PassesIffEveryWindowAllows | internal/api/middleware.go:162-186 | a request passes if and only if, with it, no window that ends now lets more through than the burst and T times the rate; in runs with sweeps, if ten minutes fill a bucket |
| Admission.DenialsCostNothingIff | internal/api/middleware.go:147-186 | taking a denied request out of a run never changes another answer if and only if ten minutes fill a bucket |
| Updater.CopyFile | internal/updater/updater.go:338-353 | the states the executable goes through while it is copied |
| Updater.DownloadAndVerify | internal/updater/updater.go:281-294 | every intermediate disk state of one attempt, and its outcome |
| Updater.CheckDevelop | internal/updater/updater.go:220-235 | every intermediate disk state of both attempts, and when a restart is signalled |
| Updater.AttemptIsCrashSafe | internal/updater/updater.go:281-294 | from a complete executable, every intermediate state has a complete executable or backup; success installs the new one, failure restores the old one or leaves it as the backup |
| Updater.SecondAttemptIsSafeIffExeIsWhole | internal/updater/updater.go:220-231 | a second attempt can never lose the last complete binary if and only if the executable is complete when it starts |
| Updater.CheckLosesTheBinaryIff | internal/updater/updater.go:220-294 | for given outcomes, exactly when a check leaves no complete binary at some moment |
| Updater.OutcomeOf | internal/updater/updater.go:281-294 | the disk after one attempt, and whether it succeeds, for every combination of answers |
| Updater.RestartIff | internal/updater/updater.go:220-235 | from a complete executable, a restart is signalled if and only if the first attempt copies completely, or there is a token, the second does, and the first left an executable; its binary is then in place |
| Updater.RestartOnlyAfterSwap | internal/updater/updater.go:220-234 | a restart is signalled only with the extracted binary complete in place |
| Updater.RunsAreSafe | internal/updater/updater.go:239-294 | over any run of attempts without a failed roll-back, a complete binary is always on disk and the executable is the last one installed |
| Updater.RunLosesTheBinaryIff | internal/updater/updater.go:220-294 | over any run of attempts, a complete binary is missing at some moment if and only if after the first double fault some attempt takes the backup |

## Left out

- Glob.GlobBaseText: patterns are taken as cleaned and cut into volume name and rest; `filepath.Clean` and `filepath.VolumeName` themselves are not modelled.
- Glob.MatchGlobMeaning: patterns are rooted, hold a wildcard and no character class `[...]`; relative patterns and a bad-pattern error are not modelled.
- FileTree.VisitMeaning: directories are looked up as they are spelled, where Windows ignores case when it opens them.
- FileTree.GlobKidsMeaning: literal components match as they are spelled, where Windows ignores case when it opens them.
- Service.ServiceIsSafe: before the pool is closed; what holds afterwards Service.ServiceEndsSafely and Shutdown.ClosingKeepsPathsIff say.
- Coherence.CatchesUpIffCoherent: every database that is tried opens.
- Debounce.NothingIsLost: at shutdown a closed event channel drops what is waiting, as Debounce.DroppedOnlyWhenClosed states.
- Query.AnswerIsExpectedIffTablePlain: the column names of the schema hold no closing bracket, which Access does not allow in names; a text that is none of the statements the grammar reads is a syntax error, and what else Access would make of it is not modelled.
- Query.QueryTable: errors do not carry the name of the offending column.
- Pool.ConnStrReadsBackIff: the reader takes braces and semicolons as ODBC does, but knows no other way of quoting.
- RateLimit.AdmittedAtMostBurstPlusRate: levels are exact reals, without the rounding of floats and of nanosecond durations; stamping an entry and drawing its token happen at one time, and the clock does not go back.
- Case mapping is ASCII only, so letters that fold to ASCII from outside it are not covered; texts are sequences of characters, not UTF-8 bytes.
- Symbolic links, junctions, permission errors and changes of the tree during a walk; the order of a walk is that of the tree.
- Paths of other systems than Windows; device paths and drive-relative paths.
- The driver manager, `sql.DB` and its connection limits, the registry lookup of drivers: opening a database succeeds or fails and leaves a handle or none.
- Access's own SQL beyond the one statement QueryTable writes, its treatment of ties under TOP, and whether a capped free statement means the same.
- How values are normalised (`NormalizeValue`) and how query options are parsed from a URL (`ParseQueryOpts`): easy members only.
- Concurrent requests on one column cache, whose map has no lock of its own.
- HTTP routing, authentication, address lists, headers, logging, the YAML configuration and its defaults, tunnels, Windows service control.
- Download, unpacking and the commit check of an update: one attempt is given the extracted binary, or none; the release channel uses a library.
- The integration tool under cmd/integration, whose generated aliases need not be unique.
