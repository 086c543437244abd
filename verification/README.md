# Skuld: a verified model

Skuld is a test harness in which tests declare labels and serial filters, and a
shared SQLite file decides which tests may run at the same time, across threads
and processes. This project models its core in Dafny and proves what the core
is for. `dafny verify dfyconfig.toml` checks everything.

**Coordination.** `Tables` holds the `running` and `labels` tables and the
statements on them as values, with the `can_start` questions and their SQL as a
syntax tree; `Database` is a connection that updates the tables in place, with
the admission transaction and its rollback under any failing statement.
`Protocol` is a labelled transition system over whole runs: any number of
processes and test threads, each somewhere between opening the file and dropping
its guard, crashes, and an outside actor who may delete, replace or retarget any
path between any two steps, the single stats of a moved check included. An
exclusive transaction is one step; `SQLITE_BUSY` is a step back to the retry.
`ProtocolInvariant` proves one inductive invariant, `ProtocolSafety` what it
means for runs, and `ProtocolSplit` exhibits the run that shows where exclusion
ends. `Publish` is the finer machine of the Unix open/recheck/publish loop.

**Filters.** `Syntax` is the grammar with its parser and printer, `RoundTrip` the
theorem between them, `LetterCase` what capitals and blanks do; `Diagram` is the
reduced ordered decision diagram and `Canonical` the canonical form;
`SerialFilter` has the strings that the attribute macro writes, merges and
stores, and `MacroTokens` the macro's grammar read backwards.

**Graphs.** `UnionFind`, `Groups` and `Grouping` turn conflicts into test groups,
and `GroupedRuns` ties the groups to runs of the protocol. `FixtureGraph` and
`FixtureWalk` validate and walk the fixture registry; `FixtureStore` has the two
caches and `FixtureRuns` the racing threads that fill the shared one.
`NearestTags` is the release check's search through the commit history.

**Capture.** `CaptureUnix` and `CaptureWindows` redirect stdio with rollback. The
set of system calls that fail is an input, and the outcome is proved for every
such set.

## Assumptions

- A process the operating system reports dead is dead. A row whose PID was taken
  over by an unrelated process can outlive its owner; the results that need the
  converse say so (`NoPidReuse`).
- Two processes alive at once have different PIDs, and no instance id (PID and
  start time) is used twice.
- The kernel does not reuse the inode number of a file that is linked or open.
- A connection reads and locks through a view: the main, -wal and -shm files it
  holds. Connections with equal views see one pair of tables; connections whose
  views differ in any file are taken not to see each other's writes at all, so
  what a checkpoint or two logs over one main file do to each other is not
  modelled. A view opened for the first time may hold any consistent tables.
- Mutual exclusion is therefore claimed between tests with the same view. After
  the file or a companion is replaced, tests on the old and the new files do not
  see each other (`SwappedCompanionsSplit` is such a run); the moved checks around
  every write are what is proved about that case, and without outside changes
  the case does not arise (`UndisturbedExclusion`).
- The `boolean_expression` crate's diagram is the reduced ordered one over the
  sorted names, and its `to_expr` is some function of that diagram that keeps
  the truth table, invents no variable, and writes constants and single labels as
  themselves. Every result holds for every such function (`IsRenderer`), and one
  is exhibited.
- Tests reach the protocol with filters that passed `validate_serial_filters`.

## Where the code and its documentation differ

- `xtask/src/version.rs:11-16` promises tags without tagged descendants in HEAD's
  history. The search keeps a tag that one untagged path reaches even when
  another path passes a tag: `DiamondContradictsDocumentation` is such a
  history, `OverreportedIff` and `MatchesDocumentationIff` say exactly when the
  two agree (`MatchesUnlessBypassed` in terms of the history alone), and
  `DocumentedAreNearest` that nothing documented is missed.
- `FdCapture::begin` is not all-or-nothing: a failed pipe leaks the saved
  descriptors (`PipeFailureLeaks`) and a failed thread spawn leaves the slots
  redirected (`SpawnFailureLeavesRedirected`), on Windows to handles that have
  just been closed (`SpawnFailureDangles`). `Begin` proves that these two patterns
  of failing calls are the only ones that leave anything behind short of an abort.
  `RedirectToPipe` and `End` are all-or-nothing.
- The scrub's comment speaks of leaving unparseable rows of live instances alone;
  the code leaves every unparseable row alone, and so does the model.

## Model

| member | source | states |
|---|---|---|
| ProtocolSafety.MutualExclusion | src/coordination.rs:1022-1134 | in every state of every run, two running bodies whose connections hold the same main, -wal and -shm files do not conflict: neither filter selects the other test's labels and neither test is serial with everything |
| ProtocolSplit.SwappedCompanionsSplit | CHANGELOG.md:302-304 | a run in which two conflicting bodies run at once on one main file, because its companions were swapped between them: sharing the companions is needed |
| ProtocolSafety.UndisturbedExclusion | src/coordination.rs:1022-1134 | until somebody outside touches the paths, no two conflicting bodies that reach the database by one path run at once |
| ProtocolSplit.NewViewRuns | src/coordination.rs:1022-1075 | from every reachable state, a test on untouched paths comes to run if its view is opened for the first time and holds nothing |
| ProtocolInvariant.StepKeeps | src/coordination.rs:1043-1075 | every step of every actor, crashes and outside file changes included, keeps the invariant on files, views, recorded identities, rows, exclusion and row ownership |
| ProtocolInvariant.OpenViewKeeps | src/coordination.rs:358-385 | opening a view for the first time keeps the invariant, whatever the tables hold; rows of live processes in them are on record as nobody's |
| ProtocolSafety.RunInvariant | src/coordination.rs:1022-1134 | the invariant holds in every state of every run |
| ProtocolSafety.RunExtends | src/coordination.rs:1022-1134 | an enabled step can be taken from every reached state, so the invariant is no hidden guard |
| ProtocolSafety.WaitsExactlyForConflicts | src/coordination.rs:790-873 | with no failed cleanup and no rows brought in before, a waiter is sent back if and only if a live process holds a conflicting registration through the same main, -wal and -shm files; rows of dead processes in the table do not count |
| ProtocolSafety.BlockedByGuard | src/coordination.rs:790-873 | a waiter is sent back only because of a conflicting test registered through its view, or a row left behind there that survives the cleaning and conflicts |
| ProtocolSafety.EmptyAdmits | src/coordination.rs:1045-1056 | with nobody registered through the view and nothing left behind there, every waiter is admitted |
| ProtocolSafety.NothingLeftBehind | src/coordination.rs:935-957 | in a run without failed cleanups or rows brought in, no row of a live process is ever without its guard |
| ProtocolSafety.AbandonedOnlyByFailure | src/coordination.rs:935-957 | a step leaves a row behind only by a refused or failed delete, or by opening a view that brings in rows of live processes |
| ProtocolSafety.OneGuardPerRow | src/coordination.rs:923-933 | a row seen through a view belongs to at most one guard |
| ProtocolSafety.DeleteRemovesOwnRow | src/coordination.rs:935-957 | a guard's DELETE removes the row it inserted with its label rows, and touches no other row and no other view |
| ProtocolSafety.RowsLeaveOnlyByOwner | src/coordination.rs:908-957 | in every run, across replaced files, swapped companions and restarted ids, a row disappears only by its own guard's DELETE or because its process is dead |
| ProtocolSafety.RecordedIdentity | src/coordination.rs:307-323 | a worker past opening has recorded the identities of the main, -wal and -shm files its connection holds, whatever was swapped meanwhile |
| ProtocolSafety.MovedCheckMeans | src/coordination/moved_db.rs:211-231 | in every run, each stat a moved check has passed had an instant of its own, within that check, at which its path named the connection's own file, whatever was swapped between the stats |
| ProtocolSafety.StatMeans | src/coordination/moved_db.rs:211-223 | one passed stat means that at that instant the caller's, -wal or -shm path named the held file; SQLite's own stat vouches for the inode number only |
| ProtocolSafety.RunningWasChecked | src/coordination.rs:1058-1075 | a running body was preceded, after its COMMIT, by three instants in order at which the caller's, -wal and -shm paths named the held files, with its row in the main file at the first |
| ProtocolSafety.WritesWereChecked | src/coordination.rs:1041-1056 | every admission transaction and every DELETE is preceded by a moved check of its own, with an instant for each path, and every schema write by one of the main file |
| ProtocolSafety.GateWasChecked | src/coordination/moved_db.rs:225-231 | whoever is in a transaction, in a body, at its DELETE or done has had an instant for each of the three paths at the stage before |
| ProtocolInvariant.RecordKeeps | src/coordination/moved_db.rs:384-406 | recording an identity that agrees with the connection's own descriptor keeps the invariant |
| ProtocolInvariant.AdmitKeeps | src/coordination.rs:1045-1056 | one admission transaction, admitting or not, keeps the whole invariant, exclusion included |
| ProtocolInvariant.CleanSparesLive | src/coordination.rs:790-804 | stale cleaning never removes a row of a live process |
| Tables.CleanExactly | src/coordination.rs:790-804 | cleaning keeps exactly our own rows and those whose instance id begins with a PID that can be a process's and answers |
| Tables.CleanRemovesDead | src/coordination.rs:790-804 | a row of a process whose PID does not answer goes, with its labels |
| Tables.CleanRemovesGarbage | src/coordination.rs:711-713 | a foreign row whose text before the colon is no number goes, with its labels |
| Tables.CanStartIff | src/coordination.rs:810-873 | `can_start` answers true if and only if no running row conflicts with the candidate in either direction or by `*` |
| Tables.SqlMeaning | src/label.rs:327-338 | the compiled WHERE clause holds of a row exactly when the expression evaluates to true on the row's labels |
| Tables.OwnFilterQuestion | src/coordination.rs:856-870 | the candidate's own filter, run as SQL, finds exactly the rows whose labels it selects |
| Tables.DeleteKeeps | src/coordination.rs:790-804 | deleting rows cascades to exactly their labels and keeps the tables consistent |
| Tables.RegisterKeeps | src/coordination.rs:884-906 | registering uses an unused id, attaches exactly the given labels and changes no other row |
| Tables.UnregisterUndoes | src/coordination.rs:884-957 | registering and unregistering leaves both tables as they were |
| Database.Connection.Attempt | src/coordination.rs:1045-1056 | the transaction cleans, asks and registers, or leaves both tables untouched; it reports an error if and only if a statement it comes to fails, the inserts, COMMIT and ROLLBACK included |
| Database.Connection.CleanStale | src/coordination.rs:790-804 | deleting instance by instance removes exactly the rows of stale instances with their labels |
| Database.Connection.RegisterTest | src/coordination.rs:884-906 | the label loop builds the row and its label rows |
| Database.Connection.UnregisterTest | src/coordination.rs:949-952 | the guard's DELETE takes the row with its labels and leaves every other row and its labels alone |
| Database.Connection.Migrate | src/coordination.rs:542-596 | the version is read again under the write lock: what others migrated meanwhile is kept, an old schema is scrubbed and its version raised, and a panic at a row leaves everything as found, exactly when that row would have been rewritten |
| Database.Connection.ScrubRows | src/coordination.rs:624-682 | the loop over rows scrubs the table, or is rolled back exactly when it stops at a row it has to rewrite |
| Database.ScrubRowKeeps | src/coordination.rs:624-682 | the scrub keeps a filter's selection, is idempotent and rewrites exactly parseable non-canonical filters |
| Database.ScrubKeepsAdmission | src/coordination.rs:624-682 | the scrub changes no admission answer for any candidate |
| Database.StorageKeepsCandidate | src/coordination.rs:1028-1032 | asking `can_start` with the storage form of a candidate's filter gives the answer for the filter itself |
| Database.ScrubExactly | src/coordination.rs:624-682 | the scrub of a table rewrites exactly the parseable non-canonical rows and is a no-op the second time |
| Instance.PidRoundTrip | src/coordination.rs:711-713 | the PID read from an instance id is the one it was made with, if it fits 32 bits |
| Instance.InstanceInjective | src/coordination.rs:84-96 | different processes have different instance ids |
| Instance.InstanceText | src/coordination.rs:84-96 | the text of an id, and of one with a plus sign, by example |
| Publish.NoPanicUnderLock | src/coordination.rs:211-240 | under the init lock, on a healthy file system, nobody panics in the loop, whatever file was there, however often the path is deleted and whoever crashes, as long as nobody is refused the file there |
| Publish.OnlyFoundIsRefused | src/coordination.rs:211-240 | only the file that was there at the start can be refused |
| Publish.NoPanicFromGoodStart | src/coordination.rs:211-240 | if nothing is at the path at the start, or a file with all 0666 bits, no healthy run under the lock panics |
| Publish.CalmStep | src/coordination.rs:222-234 | on a healthy file system a step makes a worker panic if and only if it is a recheck that finds a file |
| Publish.PanicsWithoutLock | src/coordination.rs:222-234 | without the lock there is a run in which a publisher between a failed open and its recheck causes a panic |
| Publish.VisibleIsWorldWritable | src/coordination/publish.rs:149-203 | in every run, locked or not, what is visible or connected to has all 0666 bits or is the file found at the start, and what a rename makes visible has them |
| Publish.WinnerIsKept | src/coordination/publish.rs:212-228 | in every run only deletion from outside changes the file at the path or its mode; a lost rename never does |
| Publish.FastPath | src/coordination/publish.rs:65-68 | a publisher that finds a file there goes back to opening it and creates nothing |
| Publish.WritableByAll | src/coordination/publish.rs:193-194 | the mode test asks exactly for read and write by owner, group and everyone else |
| Publish.TempsAccounted | src/coordination/publish.rs:131-255 | without crashes and failed removals every temporary file belongs to a worker still publishing it, and none is left when nobody is |
| Publish.RenameWins | src/coordination/lock.rs:211-245 | under the lock no rename is lost |
| Publish.StepsGetNearer | src/coordination.rs:211-240 | under the lock each own step of a worker that is not refused brings it nearer to its connection, unless a candidate name was taken or the path is deleted |
| Publish.CanGetNearer | src/coordination/publish.rs:131-144 | a worker in the loop always has such a step, a fresh temporary name included |
| Publish.StepKeeps | src/coordination/publish.rs:57-255 | every step keeps temporary files owned, apart from the visible file, and verified modes right |
| Canonical.Canonicity | src/label.rs:275-314 | two expressions have equal canonical forms if and only if they agree on every label set, cancelled labels included |
| Canonical.CanonicalMeaning | src/label.rs:275-291 | canonicalisation keeps the truth table, adds no name and leaves children sorted |
| Canonical.CanonicalIdempotent | src/label.rs:275-291 | canonicalising twice is canonicalising once |
| Canonical.ConstantIff | src/label.rs:599-608 | the tautology and contradiction tests recognise exactly the constant truth tables |
| Canonical.SortChildrenSorts | src/label.rs:293-314 | after sorting, children are in the order of their text at every node |
| LabelExpr.StrLtIsBefore | src/label.rs:308-314 | the order used is the dictionary order of the characters |
| Canonical.ParseGivesFilter | src/label.rs:394-396 | a parsed filter is canonical over valid names and has the raw tree's truth table |
| Canonical.OrValid | src/label.rs:485-527 | every name the parser yields is lowercase and not reserved |
| Canonical.DisplayParse | src/label.rs:611-615 | parsing a filter's display gives back that filter |
| Canonical.FilterEquality | src/label.rs:558-561 | filters are equal if and only if they select the same label sets |
| Canonical.Operators | src/label.rs:617-694 | the operators give filters that hold exactly when the operand does not, both do, or one does; a label is its own canonical filter and holds where the label is |
| Canonical.OperatorsCommute | src/label.rs:643-694 | commutativity, idempotence and double negation hold as equality of filters |
| Canonical.ShannonIsRenderer | src/label.rs:275-291 | a meaning-preserving rendering of diagrams exists |
| Diagram.FromExprSound | src/label.rs:285-289 | the diagram built from an expression is reduced, ordered and means the same |
| Diagram.Unique | src/label.rs:265-275 | two reduced ordered diagrams of one function are equal |
| RoundTrip.PrintParse | src/label.rs:342-375 | the printed text of an expression over valid names parses, to the same tree with And and Or chains nested to the left |
| RoundTrip.Parenthesise | src/label.rs:485-527 | a text that parses still parses to the same tree inside parentheses, whatever follows |
| LetterCase.CaseInsensitive | src/label.rs:523-524 | texts that differ in letter case only parse to the same tree, or both do not parse |
| LetterCase.NameInAnyCase | src/label.rs:524-524 | however a valid name is capitalised, it is read as that lower-case name |
| LetterCase.LiteralInAnyCase | src/label.pest:11-11 | however `true` or `false` is capitalised, it is read as the constant |
| LetterCase.LeadingBlank | src/label.pest:1-1 | a blank, tab or carriage return in front changes nothing |
| LetterCase.UnderscoreName | src/label.pest:6-6 | a name may begin with an underscore and go on with digits |
| LetterCase.DigitFirst | src/label.pest:6-6 | nothing that begins with a digit parses |
| LetterCase.ParenthesesIff | src/label.rs:342-375 | parentheses are printed exactly where some operand binds less tightly than its place |
| LetterCase.PrintParseAnyCase | src/label.rs:485-527 | the printed text of an expression, in any capitalisation, parses to that expression with its chains nested to the left |
| Syntax.LeftAssocFixpoint | src/label.rs:485-527 | re-association changes exactly the trees not already nested to the left |
| Syntax.LeftAssocEquivalent | src/label.rs:485-527 | re-association keeps the truth table and the names |
| Syntax.BuildOr | src/label.rs:491-499 | the loop that reassigns the left operand computes the grammar's parse |
| Syntax.BuildAnd | src/label.rs:500-508 | the same for conjunction |
| Syntax.CheckLabelName | src/label.rs:115-139 | the index loops accept exactly the non-reserved identifiers |
| SerialFilter.MergeIsUnion | src/fixture.rs:613-624 | a merged filter is valid, parses to the disjunction of the two in order and selects the union; empty and `*` are neutral and absorbing, and appear only then |
| SerialFilter.Collect | src/fixture.rs:598-606 | folding the merge over any list of filters selects exactly what some member selects |
| SerialFilter.DisplaySelects | src/label.rs:321-323 | the printed text of an expression selects exactly the label sets on which it holds |
| SerialFilter.Sentinels | src/coordination.rs:685-696 | the empty filter selects nothing and `*` everything, and both are stored as they are |
| SerialFilter.StorageKeepsSelection | src/coordination.rs:693-706 | the storage form of any valid filter is valid and selects the same label sets |
| SerialFilter.StorageIdempotent | src/coordination.rs:693-706 | storing twice is storing once |
| SerialFilter.StorageCanonicity | src/coordination.rs:685-706 | two declarations share a storage form if and only if they select the same label sets |
| SerialFilter.SerialExpr | macros/src/lib.rs:298-302 | the macro accepts exactly the token expressions of the grammar, and its text parses to the tree the tokens denote whenever the identifiers it consumed are ASCII names |
| SerialFilter.SerialOr | macros/src/lib.rs:304-312 | the or-loop emits the text of the left-nested disjunction |
| SerialFilter.SerialAnd | macros/src/lib.rs:314-322 | the and-loop emits the text of the left-nested conjunction |
| SerialFilter.SerialNot | macros/src/lib.rs:324-345 | negation, parentheses and identifiers |
| MacroTokens.TokensRoundTrip | macros/src/lib.rs:298-345 | the tokens of every tree over valid names, in parentheses where precedence needs them, denote that tree with its chains nested to the left |
| MacroTokens.SerialOfTree | macros/src/lib.rs:298-345 | what the macro writes for the tokens of a tree parses to it and selects exactly the label sets on which the tree holds |
| Groups.ConflictsIsConflict | cargo-skuld/src/graph.rs:16-40 | the static conflict is symmetric and is the relation admission decides by |
| Groups.Classify | cargo-skuld/src/graph.rs:65-72 | the nested loops give two tests one representative if and only if a chain of conflicts joins them |
| Groups.Components | cargo-skuld/src/graph.rs:74-77 | each representative's list holds exactly its class, in index order |
| UnionFind.Partition.Find | cargo-skuld/src/graph.rs:76-76 | walking up ends at the representative |
| UnionFind.Partition.Union | cargo-skuld/src/graph.rs:69-69 | a union merges exactly two classes |
| UnionFind.UnionClasses | cargo-skuld/src/graph.rs:65-72 | after a union two elements share a class iff they did before or lie in the two merged classes |
| Grouping.EncodeInjective | cargo-skuld/src/graph.rs:53-62 | the hashed bytes determine the member list when names have no NUL |
| Grouping.PairGroup | cargo-skuld/src/graph.rs:53-62 | the one group of two conflicting tests in full: prefix, hashed text and member order, for arbitrary names and either input order |
| Grouping.BuildGroups | cargo-skuld/src/graph.rs:64-103 | with distinct names the groups are exactly the components of more than one test; with NUL-free names and no hash collision the assertion never fires |
| Grouping.ListGroups | cargo-skuld/src/graph.rs:79-102 | the loop over components lists every class's group in name order, or stops at a clash of names |
| Grouping.NoClash | cargo-skuld/src/graph.rs:87-96 | no two classes share a name unless the hash collides |
| Grouping.OrderIndependent | cargo-skuld/src/graph.rs:64-103 | every permutation of the input gives the same groups, names and members |
| Grouping.ConflictSharesGroup | cargo-skuld/src/graph.rs:64-103 | two different tests that conflict are members of one group |
| Grouping.GroupsAdmit | cargo-skuld/src/graph.rs:1-4 | if no running test shares a group with the candidate, `can_start` answers true |
| GroupedRuns.DumpKeepsConflict | src/runner.rs:628-638 | dumping filters in storage form changes no conflict |
| GroupedRuns.GroupsAdmitAtOnce | cargo-skuld/src/graph.rs:1-4 | in every run that keeps group members apart, an admission check succeeds at once |
| FixtureGraph.ValidateGraph | src/fixture.rs:171-196 | a registry is accepted if and only if every dependency exists, there is no cycle, and along every edge the scopes are equal, the dependent is Variable or the dependency is Process |
| FixtureGraph.DetectCycle | src/fixture.rs:198-217 | the search fails only on a cycle, and otherwise has visited a dependency-closed set in topological order |
| FixtureGraph.TransitiveScopes | src/fixture.rs:171-189 | in an accepted registry every transitive dependency has the same scope, or the dependent is Variable or the dependency Process |
| FixtureGraph.ChainsAreShort | src/fixture.rs:190-196 | in an accepted registry a chain of nested setups is no longer than the number of fixtures |
| FixtureWalk.Walk | src/fixture.rs:539-561 | the recursive walk follows the explicit-stack pre-order, whatever is pending in its callers, and terminates on cyclic graphs |
| FixtureWalk.WalkAll | src/fixture.rs:534-567 | the walk visits exactly the registered fixtures reachable from the roots, each once, in pre-order |
| FixtureWalk.VisitsExactly | src/fixture.rs:534-567 | the pre-order lists a name if and only if it is registered and reachable |
| FixtureWalk.RequestedEarlier | src/fixture.rs:523-526 | every visited fixture is a root or was requested by one visited earlier |
| FixtureWalk.EarlierFirst | src/fixture.rs:534-567 | everything the earlier of several names lead to is visited before anything else |
| FixtureWalk.DeclaredOrder | src/fixture.rs:556-560 | a first visit is followed by all that the first k declared dependencies newly lead to, for every k |
| FixtureWalk.FirstDependencyNext | src/fixture.rs:556-560 | a registered first dependency that is new is visited right after its dependent |
| FixtureWalk.CollectFixtureSerial | src/fixture.rs:598-606 | the collected filter selects exactly what some reachable fixture's filter selects; it is empty or `*` exactly when it should be |
| FixtureStore.TeardownOrder | src/fixture.rs:266-290 | freeing backwards frees each value once and a dependent before each same-store dependency |
| FixtureStore.TestStore.Get | src/fixture.rs:411-435 | for any set of failing setups, a request fails exactly when something it has to request is unknown or fails; it caches exactly the test-scoped fixtures it demands, its own last, with names unique because the graph is acyclic |
| FixtureStore.TestStore.Dependencies | macros/src/lib.rs:922-950 | the generated prologue settles everything the dependencies demand, or has met something that dooms the request; it never caches a setup still open |
| FixtureStore.TestStore.SetUp | src/fixture.rs:424-433 | prologue, then body: an uncached fixture is appended after what it depends on |
| FixtureStore.SettledOfLess | src/fixture.rs:411-435 | what is settled on top of fixtures cached meanwhile is settled from the start |
| FixtureStore.NothingDoomed | src/fixture.rs:411-435 | in a validated registry without failing setups every request succeeds |
| FixtureStore.FailingDependencyDooms | macros/src/lib.rs:922-950 | a failing dependency that has to be set up dooms the request |
| FixtureStore.TestStore.Find | src/fixture.rs:412-418 | finds the entry of a name if there is one |
| FixtureStore.TestStore.Drop | src/fixture.rs:266-290 | the scope's drop empties the store, freeing each value once, dependents before dependencies |
| FixtureStore.ProcessStore.Publish | src/fixture.rs:453-469 | the second look frees a losing value and returns the winner's, or inserts with index and entries in agreement |
| FixtureStore.ProcessStore.Cleanup | src/fixture.rs:508-520 | empties entries and index, freeing last in first out |
| FixtureRuns.StepKeeps | src/fixture.rs:438-470 | every step of racing setups keeps store, nested setups and the place of every value in order |
| FixtureRuns.RunInvariant | src/fixture.rs:438-520 | that invariant holds in every state of every run of any number of threads |
| FixtureRuns.StoreOrdered | src/fixture.rs:438-470 | in every run, one entry per name, index and entries agreeing, every dependency at a lower index |
| FixtureRuns.LosersNeverEscape | src/fixture.rs:453-460 | in a whole run nothing is freed twice, and a losing value is freed and never handed out |
| FixtureRuns.NoUseAfterFree | src/fixture.rs:508-520 | a value handed out since the last cleanup is cached and not freed |
| FixtureRuns.SameValueForAll | src/fixture.rs:438-470 | the value cached under a name does not change before cleanup |
| FixtureRuns.CachedRequest | src/fixture.rs:441-448 | in every run, a request for a cached fixture opens no setup, builds and frees nothing, and hands the cached value to who asked |
| FixtureRuns.UncachedRequest | src/fixture.rs:450-450 | a request for a fixture not cached opens a setup and does nothing else |
| FixtureRuns.PublishHands | src/fixture.rs:453-469 | publishing hands out the cached value: the thread's own if it won, the winner's if it lost, its own then being freed |
| FixtureRuns.StartedUncached | src/fixture.rs:441-450 | every open setup was started by a request at a moment when its fixture was not cached, and has been open since |
| FixtureRuns.LosersStartedEarlier | src/fixture.rs:438-460 | a value loses only a real race: its setup was started before the winner was published |
| FixtureRuns.CleanupFreesEverything | src/fixture.rs:508-520 | after cleanup every value ever built has been freed |
| FixtureRuns.CleanupOrder | src/fixture.rs:508-520 | cleanup frees a cached fixture once in the whole run and before each of its dependencies |
| FixtureRuns.DepthBounded | src/fixture.rs:190-196 | setups nest no deeper than there are fixtures |
| NearestTags.NearestAncestorTags | xtask/src/version.rs:185-225 | for every finite history the search ends with exactly the tags on commits some path from HEAD reaches before any other tag, each commit once |
| NearestTags.TaggedAncestorsCovered | xtask/src/version.rs:181-184 | every tagged ancestor is an ancestor of, or equal to, a recorded commit |
| NearestTags.DocumentedAreNearest | xtask/src/version.rs:11-16 | every tag the documentation promises is recorded |
| NearestTags.OverreportedIff | xtask/src/version.rs:11-16 | a recorded commit is one the documentation promises if and only if no path to it passes another tag |
| NearestTags.MatchesDocumentationIff | xtask/src/version.rs:11-16 | the recorded set is the documented one if and only if no recorded commit is an ancestor of another |
| NearestTags.MatchesUnlessBypassed | xtask/src/version.rs:11-16 | the recorded set is the documented one if and only if no tagged commit is reached from HEAD both by an untagged path and by one that passes another tag |
| NearestTags.DiamondContradictsDocumentation | xtask/src/version.rs:202-222 | a merge of an untagged and a tagged branch over a tagged base, where the base is reported |
| NearestTags.ValidNextIff | xtask/src/version.rs:258-263 | a valid next version is the same, or the very first later one at patch, minor or major level |
| NearestTags.Validate | xtask/src/version.rs:153-175 | accepts exactly on an equal or valid-next tag, and on no tags only when not exact |
| NearestTags.ValidateAgainstTag | xtask/src/version.rs:137-142 | the whole check in terms of the history: without ancestor tags it passes only when not exact |
| CaptureUnix.Process.Save | src/capture.rs:126-140 | both slots are duplicated, exactly when neither call fails, or nothing is left |
| CaptureUnix.Process.RedirectToPipe | src/capture.rs:148-175 | for every set of failing calls: succeeds iff neither move fails, aborts iff the first slot had moved, the second did not and the first did not move back; otherwise the table is as before; the writer is consumed |
| CaptureUnix.Process.Restore | src/capture.rs:182-194 | both slots are attempted; the exact table for every set of failing calls |
| CaptureUnix.Process.Begin | src/capture.rs:482-530 | the outcome for every set of failing calls; an abort takes two failures, a single failing move only fails the redirect; where nothing is captured and nothing aborts, the table is as it was iff neither the pipe after a snapshot nor the spawn after a redirect was what failed |
| CaptureUnix.Process.End | src/capture.rs:540-585 | aborts iff a restoring call fails; otherwise the slots are restored, the snapshot closed, and the drain ends exactly when neither a child nor another descriptor holds the pipe |
| CaptureUnix.Process.Drop | src/capture.rs:588-630 | a no-op after end, otherwise the same restore, aborting iff a restoring call fails |
| CaptureUnix.Process.Cycle | src/capture.rs:482-585 | captures iff no call of begin fails; then aborts iff a restoring call fails, and otherwise drains and leaves the table exactly as it was |
| CaptureUnix.PipeFailureLeaks | src/capture.rs:501-501 | on every table, begin with a failing pipe ends so, without an abort, with two descriptors more than before |
| CaptureUnix.SpawnFailureLeavesRedirected | src/capture.rs:520-523 | on every table, begin with a failing spawn ends so, without an abort, with both slots on a pipe nobody had |
| CaptureUnix.SlotsOnly | src/capture.rs:556-580 | after the restore the pipe is unreferenced if and only if only the two slots referred to it |
| CaptureWindows.Process.Save | src/capture.rs:233-258 | both descriptors are duplicated or nothing is left; the handle values are noted |
| CaptureWindows.Process.FourClones | src/capture.rs:270-276 | four clones replace the writer or nothing of it is left |
| CaptureWindows.Process.ToDescriptors | src/capture.rs:283-300 | two handles become descriptors or both are closed |
| CaptureWindows.Process.Undo | src/capture.rs:381-405 | undoes exactly the steps taken, and aborts iff undoing one of them fails |
| CaptureWindows.Process.Commit | src/capture.rs:310-358 | all four slots move iff none of the four calls fails; aborts iff one fails and an earlier one cannot be undone; otherwise all four are as before |
| CaptureWindows.Process.RedirectToPipe | src/capture.rs:269-366 | for every set of failing calls: the four slots move, backed by open handles, iff no acquiring or moving call fails; aborts iff a slot had moved, a later one did not and one did not move back; otherwise handles, descriptors and slots are as before |
| CaptureWindows.Process.Restore | src/capture.rs:413-431 | all four are attempted; the exact slots for every set of failing calls |
| CaptureWindows.SingleFailures | src/capture.rs:269-431 | one failing call of the redirect or the restore fails just that, no other single call does, and which failing undos abort |
| CaptureWindows.Process.Begin | src/capture.rs:482-530 | the outcome for every set of failing calls, and where nothing is captured and nothing aborts, the tables are as they were iff neither the pipe nor the spawn was what failed |
| CaptureWindows.Process.End | src/capture.rs:540-585 | aborts iff a restoring call fails; otherwise all four slots restored, live writers and snapshot closed, and the drain ends exactly when nothing else holds the pipe |
| CaptureWindows.Process.Drop | src/capture.rs:588-630 | a no-op after end, otherwise slots, descriptors, snapshot and live writers as after end |
| CaptureWindows.Process.Cycle | src/capture.rs:482-585 | captures iff no call of begin fails; then aborts iff a restoring call fails, and otherwise drains and leaves handles, descriptors and slots exactly as they were |
| CaptureWindows.PipeFailureLeaks | src/capture.rs:501-501 | on all tables, begin with a failing pipe ends so, without an abort, with two C runtime descriptors more than before |
| CaptureWindows.SpawnFailureDangles | src/capture.rs:520-523 | on all tables, begin with a failing spawn ends so, without an abort, with both Win32 slots holding closed handles |

## Left out

- Database.Connection.Attempt: the admission transaction stores a test's labels as a set, so a label listed twice is one row; no question the program asks can tell.
- Tables.SqlMeaning: the generated WHERE fragment is a syntax tree, not its text; quoting is safe because label names are identifiers.
- Database.Connection.Migrate: a failing COMMIT, which rolls back and panics like a failing row, is not an input of its own.
- Groups.Classify: the union-find is union by rank with plain walking; the library's path halving, which changes no answer, is not modelled.
- Grouping.BuildGroups: the hash is any function; freedom from collisions is a hypothesis only where the result needs it.
- FixtureWalk.WalkAll: a dependency that is not registered is skipped, as in a release build; the debug assertion about it is not modelled.
- NearestTags.Validate: version components are unbounded, so the wrap of a component at 2^64 is not modelled.
- CaptureWindows.Process.RedirectToPipe: a C runtime descriptor has a reference of its own; that a process usually starts with descriptors 1 and 2 owning the very handles in the Win32 slots, that `_dup2` closes the handle it replaces, and that the runtime also sets the Win32 slot then, are not modelled.
- CaptureWindows.Process.Cycle: the same sharing of handles between descriptors and slots is not modelled.
- CaptureUnix.Process.End: a false result stands for a join that blocks, because something still holds the pipe; the bytes the drain collects are not modelled.
- CaptureWindows.Process.End: as on Unix, a false result stands for a join that blocks.
- CaptureUnix.Process.Begin: a failed system call is taken to change nothing, and no call is made twice, so one set of failing calls covers a capture.
- FixtureStore.TestStore.Get: whether a fixture's setup fails is decided by its name, so a fixture set up twice in one request fails both times or neither.
- FixtureStore.ProcessStore.Publish: a value whose own destructor panics while the lock is held, and the poisoned mutex after it, are not modelled.
- Windows recording of companion identities by path, the final-path loop, and the split check of the init lock are not modelled; the protocol follows the Unix recording.
- Error texts, backoff times, debug output and the classification of failures for messages do not affect what is proved.
- WAL negotiation, SQLite internals and the reading of SQLite's private descriptors are foreign code.
- Directory selection, temporary-directory, environment and working-directory fixtures, command line handling, asynchronous runtime set-up, metadata files and configuration output would add only easy members.
- Type-erased fixture values and their casts are unsafe memory representation.
