# A model of the SSH commander core, with proofs

The project models the parts of the repository where a wrong step loses a
connection, a row, a statement or a trusted key, and proves what those parts
promise. Each module follows one part of the source:

- `Text`, `SqlLexer`, `SqlWindows`, `SqlSplit`: the SQL script lexer and the
  splitter. Text is a sequence of UTF-8 bytes. The lexical grammar is the
  code's own, written as recursive functions; the loops are methods proved
  against it. `SqlWindows` relates lexing a script to lexing a stretch of it.
- `SqlEdit`, `SqlCasts`, `SqlReadBack`, `ShellQuote`, `Decimal`: generated SQL
  and quoting, against readers that undo it and against the lexer above.
  `SqlCasts` reads the brackets and commas of a statement over the lexer's
  elements, `SqlReadBack` its table, columns and values.
- `PgServer`, `PgExec`, `PgCursor`, `PgEdits`: the cursor protocol. The server
  is a small contract (no transaction, open with cursors at positions,
  aborted); every choice it has is an argument, and the session records how
  each transaction ended. `PgExec` and `PgCursor` hold the calls as
  methods on a client and a connection object, each equal to a function.
  `PgEdits` follows the edits of a connection into the transactions on record.
- `PoolState`, `PgPool`, `PoolRuns`, `PoolCounts`, `PoolSafety`, `PoolBooks`,
  `PoolSerial`, `PoolTimes`, `PoolExamples`: the connection pool. `PoolState` has one
  function per stretch of code under a lock, `PgPool` the same as methods on
  the pool's fields, and `PoolRuns` a step relation in which every call stops
  between any two such stretches and all calls interleave freely. The
  remaining modules prove invariants of all reachable states.
- `Lines`, `KnownHosts`, `HostKeys`, `TrustOnFirstUse`: the known-hosts file,
  the store that caches it, and the handshake's decision over whole runs.
- `LineStream`: the splitter of streamed command output.
- `PtyRegistry`, `ConnectionManager`, `ManagerRuns`: the manager's lifecycle.
- `Basics`, `Wrappers`: a minimum, facts about sequences, options and results.

## What the proofs found

Where the code does not have a property that its documentation or its
callers would expect, the model keeps the code as it is. For each such place a
lemma gives an input or a run that shows it, and another says, for all inputs
or runs, exactly when it happens.

1. `top_level_semicolons` slices a `str` at every byte of a dollar-quoted
   body, so a body with a non-ASCII character panics it
   (`NonAsciiBodyPanics`). `TopLevelSemicolons` panics if and only if the text
   has such a body.
2. The emptiness test knows four white-space bytes, `trim` all of Unicode's.
   A script ending in `;` and a form feed is split into its statement as
   preamble and an empty main statement (`SplitMayYieldNothing`); with a comment
   behind the form feed the main statement is that comment
   (`SplitMayYieldAComment`). What follows the last semicolon is split off
   exactly if it is real text once trimmed, or trimming strips a byte that is
   in no comment and not one of the four; in the second case alone there is no
   main statement (`TailSplitsIff`).
3. The outcome of `CLOSE; COMMIT` after a short first page is ignored
   (exec.rs:488). If it is interrupted, and only then, an aborted transaction
   stays behind with no cursor on record, and nothing the pool does repairs it
   (`StrandedExample`, `ExecuteAgreesIff`, `StrandedStays`, `IdleStranded`;
   over runs of the pool `RunsAgreeIff`).
4. Two calls leasing for one new session overwrite each other's lease; the
   displaced slot stays counted for good (`LeasesCanCollide`). A run loses
   slots exactly if some call of it records a lease for a session that has one
   (`OrphansIffOverwritten`); with the calls of each session made one after
   another no call does (`SerialNeverOverwrites`, `NoSlotIsLost`).
5. `shutdown` sets the counter to zero first and empties the side table later.
   What calls in flight put back is not counted (`ShutdownUndercounts`); what
   they counted in between is counted and then dropped (`ShutdownOvercounts`).
   Of all the steps of all calls only shutdown's two can put the counter wrong:
   the first does unless nothing is in flight, nothing was lost and there is no
   side connection, the second unless there is no side connection
   (`KeepsConservedIff`; over runs `ConservedThroughoutIff`). Run back to back
   they leave it right exactly if nothing is in flight and nothing was lost
   (`ShutdownAtOnceIff`). On any run the counter is off by the sum of what its
   steps put it off (`DriftIsTotalShift`).
6. Eviction pins the entries released longest ago, not the youngest, since it
   walks the list from the old end (`EvictionPinsTheOldest`;
   `EvictionPolicy` has what is kept and what is dropped for every list).
7. A call that releases a session overtaking another call of that session can
   leave a connection with an open cursor in the idle list
   (`IdleWithCursor`). The idle connections have no cursors on a run exactly
   if no execute leaves one on an idle connection and no release puts one
   there (`WindowBareIff`, `BareThroughoutIff`); with the calls of each session
   one after another neither happens (`SerialNeverLeavesCursor`).
8. A disconnect that reports an error leaves an id unregistered whose last
   published status is Connected (`FailedDisconnectMisleads`); that happens
   exactly if one does (`FaithfulIff`), and no later call mends it
   (`RunsAreFaithfulIff`). No client in the repository reports
   one; a desktop client elsewhere could.
9. PTY generations start over after a purge, so a late close can take down a
   session of the reconnected client (`LateCloseHitsAnother`,
   `CloseHitsItsOwnIff`).
10. A port-22 host spelled `[h]:2222` shares the entry of port 2222 of `h`
    (`BracketsCollide`, `SharedKeyIff`). A host the file format takes for a
    comment is forgotten on restart (`CommentHostForgets`, `TrustLastsIff`,
    `RunsStayInStepIff`). Two overlapping checks of a new host can both
    accept, with different keys (`OverlappingChecksBothAccept`): they do
    exactly if each looks the host up before the other records its key, and
    otherwise the later one is told of a mismatch (`OverlappingChecksIff`).
11. A line of standard output that starts with `!` looks like standard error
    to a receiver of the stream (`MarkMisleads`, `MarkTellsIff`).
12. The type validator is there to refuse what could end the cast it is spliced
    into (edit.rs:281-282), and does not look at how brackets and commas stand.
    It accepts `i(`, `i),(j` and `i,j` (`TypesCanEndTheirCast`); an insert puts
    the type behind its cast as it is (`OneValue`), so the second begins
    another row. A type stays in its cast, in whatever statement, exactly if
    its brackets outside quotes balance and none of its commas is outside them
    (`CastHoldsIff`). A name with arguments, such as
    `numeric(10,2)`, does (`ArgumentsHold`).
13. An edit made while a cursor is open runs in the cursor's transaction. It is
    acknowledged, and undone if a later fetch or edit on the connection fails
    (`EditIsLost`). It is committed exactly if no cursor was open, or the next
    to close the cursor commits with nothing failing before (`CommittedIff`).

## Model

| member | source | states |
|---|---|---|
| `SqlLexer.DollarQuoteDelimiterAt` | crates/pg/src/exec.rs:211-232 | the loop returns the opening delimiter the grammar reads at `start`, or nothing |
| `SqlLexer.DelimiterIff` | crates/pg/src/exec.rs:211-232 | a dollar quote opens exactly where a tag, nothing or a letter or underscore with letters, digits and underscores behind it, stands between two dollar signs |
| `SqlLexer.QuoteEnds` | crates/pg/src/exec.rs:170-187 | a quoted text ends behind its first quote that is not one of two in a row, or with the script |
| `SqlLexer.CommentEnds` | crates/pg/src/exec.rs:188-198 | a line comment ends behind its first line feed, a block comment behind its first closing mark, whatever it holds, or with the script |
| `SqlLexer.DollarQuoteEnds` | crates/pg/src/exec.rs:199-204 | a dollar-quoted text ends behind the first place where its delimiter stands again, or with the script |
| `SqlLexer.TopLevelSemicolons` | crates/pg/src/exec.rs:133-209 | the six-state loop returns exactly the positions of `;` elements in the grammar's reading; it panics if and only if a dollar-quoted body holds a non-ASCII byte |
| `SqlLexer.RoundKeeps` | crates/pg/src/exec.rs:147-207 | one round of the loop, from any state, keeps the positions still owed, or reaches a byte at which the slice panics |
| `SqlLexer.NonAsciiBodyPanics` | crates/pg/src/exec.rs:195-206 | a text, one dollar-quoted letter outside ASCII, for which the lexer panics |
| `SqlWindows.SemicolonsAscend` | crates/pg/src/exec.rs:146-208 | positions strictly increase, lie in the text and are `;` bytes |
| `SqlWindows.SemicolonsWindow` | crates/pg/src/exec.rs:133-209 | lexing a stretch that starts between elements finds the script's semicolons in that stretch, shifted, and no others |
| `SqlSplit.LexingRestartsAtSemicolons` | crates/pg/src/exec.rs:100-129 | for each semicolon found, lexing what follows finds the later ones and lexing up to it finds the earlier ones: the lexer has no memory across statements |
| `SqlSplit.IsEffectivelyEmpty` | crates/pg/src/exec.rs:237-276 | the second lexer's loop accepts exactly blank bytes and comments of the first one's grammar |
| `SqlSplit.BlankBytes` | crates/pg/src/exec.rs:246-249 | the bytes passed over by themselves are space, tab, line feed and carriage return |
| `SqlSplit.EmptyHasNoSemicolons` | crates/pg/src/exec.rs:237-276 | the two lexers agree: what the second takes for empty holds no semicolon for the first |
| `SqlSplit.MultiStatementIff` | crates/pg/src/exec.rs:97-101 | a script is multi-statement exactly with two semicolons or more, or one followed by real text |
| `SqlSplit.CheckMultiStatement` | crates/pg/src/exec.rs:97-101 | the search over the positions answers that question, or panics exactly when the lexer does |
| `SqlSplit.SplitIff` | crates/pg/src/exec.rs:113-131 | a split is returned exactly when real text follows the last semicolon; `main` then holds no semicolon, trimmed or not, the defensive test never refuses, and the script is multi-statement |
| `SqlSplit.MultiWithoutSplitIff` | crates/pg/src/exec.rs:391-407 | the bulk path is taken exactly for two or more semicolons with nothing real after the last |
| `SqlSplit.CheckSplit` | crates/pg/src/exec.rs:113-131 | the splitter's code computes that split; lexing `main` again panics only where the script did |
| `SqlSplit.SplitKeepsScript` | crates/pg/src/exec.rs:113-131 | the statements of the preamble followed by `main` are the statements of the script, in order |
| `SqlSplit.SplitMayYieldNothing` | crates/pg/src/exec.rs:115-123 | a script whose split has an empty main statement |
| `SqlSplit.SplitMayYieldAComment` | crates/pg/src/exec.rs:115-123 | a script whose split has a comment for its main statement |
| `SqlSplit.TailSplitsIff` | crates/pg/src/exec.rs:115-123 | for every tail behind a last semicolon: it is split off exactly if it is real text once trimmed, or trimming strips a byte in no comment that is none of the four blanks; the main statement is the trimmed tail |
| `SqlSplit.EmptyIff` | crates/pg/src/exec.rs:237-276 | a text passes the emptiness test exactly if the trimmed text does and trimming strips no such byte |
| `SqlSplit.WhiteTailSplitsIff` | crates/pg/src/exec.rs:115-123 | with white space alone behind the last semicolon there is a split, with an empty main statement, exactly when some byte of it is not one of the four the emptiness test knows |
| `SqlSplit.SplitYieldsRealText` | crates/pg/src/exec.rs:115-123 | when trimming strips only the four bytes the emptiness test knows, the main statement is real |
| `SqlEdit.ReadQuoteIdent` | crates/pg/src/edit.rs:271-273 | a reader of double-quoted identifiers (section 4.1.1 of the PostgreSQL manual) reads a quoted name back, and the text after it, for all names |
| `SqlEdit.ValidateTypeExpression` | crates/pg/src/edit.rs:283-318 | the loop accepts exactly the trimmed, nonempty texts over the allowed bytes whose quotes are closed |
| `SqlEdit.CheckedTypeIff` | crates/pg/src/edit.rs:283-318 | a type is accepted exactly if, trimmed, it is not empty, has letters, digits and nine other characters only and an even number of quotation marks; the answer is the trimmed text |
| `SqlEdit.CheckedTypeIsInert` | crates/pg/src/edit.rs:283-318 | behind an accepted type, whatever follows, the lexer is outside every quote and comment and has met no semicolon; brackets and commas are `CastHoldsIff` |
| `SqlEdit.UpdateIsSingle` | crates/pg/src/edit.rs:64-96 | every update built is one statement to the lexer, for all names; it is refused exactly for a bad type |
| `SqlEdit.InsertIsSingle` | crates/pg/src/edit.rs:141-198 | the same of every insert, with any inputs and returned columns |
| `SqlEdit.DeleteIsSingle` | crates/pg/src/edit.rs:256-260 | the same of every delete |
| `SqlEdit.NamesReadBack` | crates/pg/src/edit.rs:64-96 | every name in a statement built reads back, at its place, as the name put there |
| `SqlReadBack.UpdateReadsBack` | crates/pg/src/edit.rs:64-96 | an update is read back as its schema, table and column; the first parameter becomes the value, as the accepted type, and the second picks the row |
| `SqlReadBack.InsertReadsBack` | crates/pg/src/edit.rs:141-198 | an insert is read back as its schema and table; the `k`th column listed is that of the `k`th input, the `k`th value is the `k`th parameter as that input's accepted type, and the `k`th column returned is the `k`th asked for, for all names |
| `SqlReadBack.InsertDefaultsReadsBack` | crates/pg/src/edit.rs:141-198 | the same of an insert without inputs, which takes the defaults |
| `SqlReadBack.DeleteReadsBack` | crates/pg/src/edit.rs:256-260 | a delete is read back as its schema and table, with the rows of its one parameter |
| `SqlCasts.CastHoldsIff` | crates/pg/src/edit.rs:275-282 | at each cast of each statement built, and whatever is open around it: reading the type closes nothing from before and leaves nothing open exactly if the type's brackets outside its quotes balance, and puts no comma beside the cast exactly if, besides, none of its commas is outside its brackets |
| `SqlCasts.ArgumentsHold` | crates/pg/src/edit.rs:279-281 | a type of a name and arguments in brackets stays in its cast, for every name and arguments without brackets and quotes of their own |
| `SqlCasts.TypesCanEndTheirCast` | crates/pg/src/edit.rs:283-318 | three accepted types: one leaves a bracket open, one closes the one around it, one goes on behind a comma |
| `SqlCasts.OneValue` | crates/pg/src/edit.rs:141-198 | the values of an insert of one column, for each accepted type: the type stands behind its cast as it is |
| `SqlCasts.UpdateMarks` | crates/pg/src/edit.rs:64-96 | an update has exactly the brackets and commas of its type, so it keeps its shape exactly with its type |
| `SqlCasts.InsertHasAValueEach` | crates/pg/src/edit.rs:141-198 | with types that stay in their casts, an insert has one value for each column between `VALUES (` and `)`, for all names, inputs and returned columns |
| `ShellQuote.Quote` | crates/core/src/ssh/shell.rs:11-23 | the loop prints the quoted word |
| `ShellQuote.ReadQuoted` | crates/core/src/ssh/shell.rs:8-23 | a POSIX word reader (section 2.2 of the Shell Command Language) reads a quoted string as one word equal to it, without expansion |
| `ShellQuote.ReadCommandLine` | crates/core/src/ssh/shell.rs:3-6 | a line of quoted arguments is read as exactly those arguments |
| `PgExec.CollectRows` | crates/pg/src/exec.rs:553-575 | the loop over a reply yields its rows in order and its last completion count |
| `PgExec.CollectedFetchReply` | crates/pg/src/exec.rs:472-487 | a FETCH reply is drained into the rows sent and their number |
| `PgExec.CollectBulk` | crates/pg/src/exec.rs:292-344 | the loop over a script's reply computes the collecting function |
| `PgExec.BulkKeepsLastResult` | crates/pg/src/exec.rs:296-344 | a bulk run returns the first page of the last row-returning statement, whatever came before it |
| `PgExec.BulkCountsLast` | crates/pg/src/exec.rs:331-334 | and with the last count of the reply |
| `PgExec.FirstCompletionIs` | crates/pg/src/exec.rs:434-439 | a statement without columns is answered with the first count of its reply |
| `PgExec.OpenQuery` | crates/pg/src/exec.rs:357-517 | the call drives the server as the function of the same shape says, on every error branch; its recursion ends after one level because a split-off statement never splits |
| `PgCursor.PooledConnection.Execute` | crates/pg/src/lib.rs:438-443 | the old cursor is taken first, and a failed open leaves none on record |
| `PgCursor.PooledConnection.FetchPage` | crates/pg/src/lib.rs:462-475 | only the cursor on record is fetched from; any other id is refused and nothing changes |
| `PgCursor.PooledConnection.CloseQuery` | crates/pg/src/lib.rs:544-556 | a no-op unless the id is that of the cursor on record |
| `PgCursor.PooledConnection.CloseActive` | crates/pg/src/lib.rs:584-590 | the cursor is closed and its transaction committed, and rolled back if that fails; the session's record of how transactions end tells the two apart |
| `PgCursor.ExecuteAgreesIff` | crates/pg/src/exec.rs:367-516 | an execute keeps cursor and transaction in agreement, unless it ended short and its CLOSE was interrupted; in that case exactly, the connection is stranded |
| `PgCursor.OthersAgree` | crates/pg/src/exec.rs:520-548 | fetching, closing and statements keep agreement on every outcome; after closing there is no cursor and no transaction |
| `PgCursor.ClosingEnds` | crates/pg/src/lib.rs:584-590 | closing the cursor on record ends its transaction, committed exactly if it was not aborted and the server accepts the COMMIT |
| `PgCursor.FetchRefusedIff` | crates/pg/src/lib.rs:462-475 | a fetch is refused exactly for an id that is not on record, and nothing happens |
| `PgCursor.StrandedStays` | crates/pg/src/exec.rs:487-499 | a stranded connection stays so under every operation, and every request on it fails |
| `PgCursor.StrandedExample` | crates/pg/src/exec.rs:487-499 | a concrete call that strands a connection |
| `PgCursor.ExecuteOpens` | crates/pg/src/exec.rs:450-516 | a cursor stays open, and its id is returned, exactly when the text is one that takes a cursor, the server lets it open and the result fills the first page; it is then positioned after that page, which was returned |
| `PgCursor.ExecuteEndsShort` | crates/pg/src/exec.rs:487-499 | a shorter result is returned whole and without a cursor |
| `PgCursor.ExecuteSucceedsIff` | crates/pg/src/exec.rs:367-516 | a call panics for its text alone; otherwise it succeeds exactly if each step it comes to does, and fails with a driver error |
| `PgCursor.RefusedDeclareRerunsIff` | crates/pg/src/exec.rs:451-466 | behind a refused DECLARE the main statement is run directly exactly if the refusal was a syntax error, and answers the rows of that reply without a cursor; otherwise the call fails and the statement was not run |
| `PgCursor.DirectRunAnswers` | crates/pg/src/exec.rs:420-448 | a statement without columns is run once, directly, after the preamble |
| `PgCursor.BulkScriptAnswers` | crates/pg/src/exec.rs:391-407 | a script with nothing to page through is run as a whole, once |
| `PgCursor.BulkAnswersItsRows` | crates/pg/src/exec.rs:292-344 | what is run in bulk answers the first page of the rows that came last, with their width, and the count that came last |
| `PgCursor.ExecuteEnds` | crates/pg/src/exec.rs:367-516 | how the transactions of a call end, in order: the previous cursor's first, then the call's own |
| `PgCursor.FetchContinues` | crates/pg/src/exec.rs:520-532 | a page is the next `count` rows; "no more" implies the result is exhausted |
| `PgCursor.PaginationIsLossless` | crates/pg/src/exec.rs:450-531 | for results of every length, those shorter than a page included: first page and later pages joined are the result, each row once and in order, in floor(n/p)+1 FETCHes |
| `PgCursor.ExecuteRunsTheScript` | crates/pg/src/exec.rs:391-407 | split or not, a successful call runs the script's statements once each and in order, and a failed one a beginning of them |
| `PgEdits.CommittedIff` | crates/pg/src/lib.rs:483-590 | on every run of a connection, by the record of how its transactions ended: an acknowledged edit is committed by the end exactly if no cursor was open when it was made, or the next to close the cursor commits and no fetch and no edit on the connection failed before |
| `PgEdits.EditIsLost` | crates/pg/src/lib.rs:483-505 | a run with an acknowledged edit that is not committed |
| `PgPool.PgPool.EvictIdleEntries` | crates/pg/src/lib.rs:726-736 | the keep-or-drop loop is the eviction function, slots included |
| `PgPool.PgPool.constructor` | crates/pg/src/lib.rs:242-285 | the defaults and overrides of the configuration; the first connection is idle and counted |
| `PgPool.PgPool.TakeUnusedSecondary` | crates/pg/src/lib.rs:759-782 | exactly the aged side connections nobody else holds leave the table, and exactly those are returned |
| `PgPool.PgPool.GiveBackSlots` | crates/pg/src/lib.rs:788-793 | one slot is given back per connection |
| `PgPool.PgPool.LeaseForSession` | crates/pg/src/lib.rs:633-688 | without interruption: the session's lease, else the youngest idle connection, else a new one if there is room; a failed open leaves no trace |
| `PgPool.PgPool.BrowserConnectionFor` | crates/pg/src/lib.rs:363-414 | the same for side connections, by database |
| `PgPool.PgPool.ReleaseSession` | crates/pg/src/lib.rs:578-598 | the lease goes to the end of the idle list |
| `PgPool.PgPool.Evict` | crates/pg/src/lib.rs:712-804 | idle eviction, then side eviction, with the slots of both given back |
| `PgPool.PgPool.Shutdown` | crates/pg/src/lib.rs:601-625 | empties every table, zeroes the counter and closes exactly the connections that were in a table |
| `PgPool.ReleasedAreReused` | crates/pg/src/lib.rs:578-652 | connections released one after another are handed, last one first, to the next sessions that lease, and the idle list is as it was |
| `PgPool.OverridesCount` | crates/pg/src/lib.rs:251-269 | every override given is what the pool goes by, zero connections excepted, and the defaults are five, 300 seconds and one |
| `PgPool.LeaseFailsIff` | crates/pg/src/lib.rs:633-702 | leasing fails exactly if a connection has to be opened and the maximum is reached or it does not open, and then changes nothing |
| `PgPool.BrowseFailsIff` | crates/pg/src/lib.rs:363-414 | the same of another database; on success its entry is in the table, with the time of this call |
| `PoolState.EvictionPolicy` | crates/pg/src/lib.rs:712-737 | with `a` aged entries, which come first, eviction leaves `idle[..min(a, min_idle)] + idle[a..]`, at least `min(len, min_idle)` entries, and lowers the counter by the number dropped |
| `PoolState.EvictionInNumbers` | crates/pg/src/lib.rs:726-736 | the entry at place `i` of a list in order of release is dropped exactly if its release is the idle timeout ago or longer and `i` is the floor or more; the others stay, in order |
| `PoolState.SideEvictionInNumbers` | crates/pg/src/lib.rs:759-782 | a side connection goes exactly if its last use is that long ago and nobody holds it |
| `PoolState.EvictionIsIdempotent` | crates/pg/src/lib.rs:712-737 | a second eviction at the same moment changes nothing |
| `PoolRuns.WindowPlaced` | crates/pg/src/lib.rs:363-817 | every step of every call keeps each connection in one place |
| `PoolCounts.WindowDrift` | crates/pg/src/lib.rs:363-817 | how far every step of every call moves the counter from what the tables, the calls in flight and the lost connections hold: by nothing, but for the two steps of shutdown and a subtraction that would pass zero |
| `PoolCounts.KeepsConservedIff` | crates/pg/src/lib.rs:363-817 | a step of any call, shutdown begun or not, keeps a right counter right, unless it is one of shutdown's two at a moment when something is left over |
| `PoolCounts.DrainConservesIff` | crates/pg/src/lib.rs:601-613 | the first step of shutdown leaves the counter right, whatever it was before, exactly when nothing is in flight, nothing was lost and there is no side connection |
| `PoolCounts.ShutdownConservesIff` | crates/pg/src/lib.rs:601-625 | both steps with nothing in between leave it right exactly when nothing is in flight and nothing was lost |
| `PoolCounts.WindowCounted` | crates/pg/src/lib.rs:363-817 | every step keeps the counter within the maximum and, before shutdown, conserved |
| `PoolSafety.SlotsAreConserved` | crates/pg/src/lib.rs:363-804 | under every interleaving before shutdown the counter is idle + leased + secondary + slots in flight + orphans; when no call runs, nothing is in flight, so no failed open leaks a slot |
| `PoolSafety.NeverTooMany` | crates/pg/src/lib.rs:695-702 | the counter never passes the maximum, shutdown included; before shutdown neither do the tables |
| `PoolSafety.DriftIsTotalShift` | crates/pg/src/lib.rs:363-817 | on every run the counter is off by the sum of what its steps put it off |
| `PoolSafety.ConservedThroughoutIff` | crates/pg/src/lib.rs:601-625 | the counter is right after every step of a run, shutdown included, exactly if no step of shutdown in it comes at such a moment |
| `PoolSafety.ShutdownAtOnceIff` | crates/pg/src/lib.rs:601-625 | at any point of any run, shutdown without interruption leaves the counter right exactly when nothing is in flight and nothing was lost |
| `PoolSafety.NothingSaturates` | crates/pg/src/lib.rs:677-678 | before shutdown no saturating subtraction saturates |
| `PoolSafety.OneOwner` | crates/pg/src/lib.rs:190-200 | in every state idle entries, leases, side connections, connections a call is moving and orphans are pairwise distinct |
| `PoolSafety.LeaseTakesYoungest` | crates/pg/src/lib.rs:645-652 | on every run the idle list is in order of release, so leasing takes the connection released last |
| `PoolSafety.EvictionOnRuns` | crates/pg/src/lib.rs:712-737 | eviction has its form, its floor, its effect on the counter and its idempotence at any point of any run before shutdown |
| `PoolSafety.SideInUseStays` | crates/pg/src/lib.rs:765-770 | until shutdown a side connection in use by a call is never evicted |
| `PoolTimes.IdleWaits` | crates/pg/src/lib.rs:712-737 | on every run, with releases read off the run: an eviction takes the connection at place `k` exactly if it was released the idle timeout or longer before the eviction began, and the floor stands before it |
| `PoolTimes.SideWaits` | crates/pg/src/lib.rs:363-414 | on every run, with uses read off the run: an eviction takes a side connection exactly if its database was last browsed that long before, and no call holds it |
| `PoolBooks.PagesBelongToTheirQuery` | crates/pg/src/lib.rs:452-475 | under every interleaving, releases and new leases included, a page returned for a cursor id is the next stretch of the result of the execute call that returned that id, and "no more" means all of it was handed out |
| `PoolBooks.CursorsAreUnique` | crates/pg/src/exec.rs:450 | no two execute calls return the same cursor |
| `PoolBooks.EveryConnectionAgrees` | crates/pg/src/lib.rs:202-214 | on every run every connection's cursor and transaction agree, or it is stranded |
| `PoolSerial.OrphansIffOverwritten` | crates/pg/src/lib.rs:690-693 | a run loses no connection exactly if no call of it records a lease for a session that has one |
| `PoolSerial.SerialNeverOverwrites` | crates/pg/src/lib.rs:690-693 | if the calls of each session come one after another (introspection of the pool's own database belongs to the session `_browser`), no call does that |
| `PoolSerial.NoSlotIsLost` | crates/pg/src/lib.rs:690-693 | then, with no call running, the counter is what the tables hold |
| `PoolSerial.WindowBareIff` | crates/pg/src/lib.rs:432-598 | if no idle connection has a cursor, then none has one after a step exactly unless the step is an execute that leaves a cursor on an idle connection or a release of one that has a cursor |
| `PoolSerial.BareThroughoutIff` | crates/pg/src/lib.rs:432-598 | on a run idle connections never have cursors exactly if it has no such step |
| `PoolSerial.SerialNeverLeavesCursor` | crates/pg/src/lib.rs:432-598 | with the calls of each session one after another it has none |
| `PoolSerial.IdleIsClean` | crates/pg/src/lib.rs:578-598 | then every idle connection has no cursor, and no transaction unless stranded |
| `PoolSerial.RunsAgreeIff` | crates/pg/src/exec.rs:487-499 | after a run cursor and transaction of every connection agree exactly if no execute of the run ended short with its CLOSE interrupted |
| `PoolSerial.GentleRunsAgree` | crates/pg/src/exec.rs:487-499 | so they do on every run in which the server interrupts no final CLOSE, whatever else it does |
| `PoolSerial.IdleIsIdle` | crates/pg/src/lib.rs:578-598 | with the calls of each session one after another and no such execute, an idle connection has neither cursor nor transaction |
| `PoolExamples.LeaseUninterrupted` | crates/pg/src/lib.rs:633-688 | the steps of a lease call with nothing in between come to what the pool object's method does |
| `PoolExamples.BrowseUninterrupted` | crates/pg/src/lib.rs:363-414 | the same of a call that browses another database |
| `PoolExamples.FetchNeedsALease` | crates/pg/src/lib.rs:462-475 | fetching and closing a query are done on the session's lease or not at all; they never open or take a connection |
| `PoolExamples.UsingIsTheCall` | crates/pg/src/lib.rs:432-475 | under its lease a call to execute, fetch or close does to the connection, and answers, what the connection object does, and changes nothing else |
| `PoolExamples.EditAnswers` | crates/pg/src/lib.rs:483-537 | an edit is acknowledged exactly if the server runs it, and never in an aborted transaction; one that fails aborts the transaction it is in; the cursor on record stays |
| `PoolExamples.LeasesCanCollide` | crates/pg/src/lib.rs:690-693 | a run that ends with two slots counted and one connection |
| `PoolExamples.ShutdownUndercounts` | crates/pg/src/lib.rs:601-610 | a run that ends with an idle connection and a counter of zero |
| `PoolExamples.ShutdownOvercounts` | crates/pg/src/lib.rs:601-625 | a run that ends with a counter of one and no connection anywhere |
| `PoolExamples.EvictionPinsTheOldest` | crates/pg/src/lib.rs:712-737 | two aged entries, of which eviction keeps the one released first |
| `PoolExamples.IdleWithCursor` | crates/pg/src/lib.rs:432-450 | a run that puts a connection with an open cursor in the idle list |
| `PoolExamples.IdleStranded` | crates/pg/src/lib.rs:578-598 | a run with one call at a time that puts a stranded connection in the idle list |
| `KnownHosts.Load` | crates/core/src/ssh/host_keys.rs:180-190 | the loop over the lines reads the map the file's text stands for |
| `KnownHosts.Render` | crates/core/src/ssh/host_keys.rs:200-211 | the loop over the sorted keys prints the file's text |
| `KnownHosts.RoundTripIff` | crates/core/src/ssh/host_keys.rs:169-216 | a map is read back from what was written for it exactly when it is well-formed |
| `KnownHosts.ParseIsWellFormed` | crates/core/src/ssh/host_keys.rs:180-190 | whatever the file holds, the map read is well-formed |
| `KnownHosts.LoadWriteLoad` | crates/core/src/ssh/host_keys.rs:169-216 | reading, writing and reading again gives what was read first |
| `KnownHosts.AppendedLine` | crates/core/src/ssh/host_keys.rs:180-190 | a line appended to any file: an entry takes the place of an earlier one for its host, and a comment, a single word or nothing is passed over |
| `KnownHosts.TextIsCanonical` | crates/core/src/ssh/host_keys.rs:202-211 | the text written depends on the map alone, not on the order a hash map lists its keys in |
| `KnownHosts.SortIsOrdered` | crates/core/src/ssh/host_keys.rs:203 | the keys are written in order |
| `HostKeys.SharedKeyIff` | crates/core/src/ssh/host_keys.rs:161-167 | two endpoints share an entry exactly when one is a port-22 host spelled like the other's entry |
| `HostKeys.MakeKeyIsInjective` | crates/core/src/ssh/host_keys.rs:159-167 | endpoints have entries of their own if no port-22 host starts with a bracket |
| `HostKeys.BracketsCollide` | crates/core/src/ssh/host_keys.rs:161-167 | two endpoints that share an entry |
| `HostKeys.HostKeyStore.Verify` | crates/core/src/ssh/host_keys.rs:88-116 | the verdict against the cache, loaded on first use; a read error is an error, a missing file an empty store |
| `HostKeys.HostKeyStore.Trust` | crates/core/src/ssh/host_keys.rs:120-135 | the cache changes only if the file was written |
| `HostKeys.HostKeyStore.Forget` | crates/core/src/ssh/host_keys.rs:142-157 | the entry leaves file and cache together, or neither |
| `TrustOnFirstUse.Client.CheckServerKey` | crates/core/src/ssh/mod.rs:247-333 | the handshake's answer and failure slot for every verdict and fault |
| `TrustOnFirstUse.CheckEffect` | crates/core/src/ssh/mod.rs:247-333 | for every endpoint, key and fault, with the map in effect being the cache, or the parsed file before it is loaded: a key is accepted exactly when the map can be had and holds it for the endpoint, or holds none and the file could be written; the map changes in that entry only, and every refusal leaves its reason |
| `TrustOnFirstUse.ForgetEffect` | crates/core/src/ssh/host_keys.rs:142-157 | forgetting removes the entry, and only it, and says so, exactly if there is one and the file can be written; every other answer leaves the store as it was and says why |
| `TrustOnFirstUse.TrustLastsIff` | crates/core/src/ssh/host_keys.rs:129-134 | a key just trusted is read back from the file exactly when the format can hold host and key |
| `TrustOnFirstUse.StaysInStepIff` | crates/core/src/ssh/host_keys.rs:88-157 | a check, forget or restart keeps the loaded cache equal to the parsed file exactly unless it accepts a new host or key the format cannot hold |
| `TrustOnFirstUse.RunsStayInStepIff` | crates/core/src/ssh/host_keys.rs:88-157 | on a run they are equal throughout exactly if no event of it does that |
| `TrustOnFirstUse.LastingRunsRestartInStep` | crates/core/src/ssh/host_keys.rs:88-157 | such a run has cache and file equal at each of its restarts |
| `TrustOnFirstUse.AcceptedStays` | crates/core/src/ssh/host_keys.rs:120-157 | where each restart of a run finds cache and file equal, an accepted key, of any host, stays in effect until its entry is forgotten, and is in the file whenever cache and file are equal |
| `TrustOnFirstUse.FirstKeyStays` | crates/core/src/ssh/mod.rs:247-333 | over every such run of checks, forgets, restarts and failing reads and writes, whatever hosts and keys it names, once a key was accepted for an entry no other is until it is forgotten; without a restart there is no condition |
| `TrustOnFirstUse.CommentHostForgets` | crates/core/src/ssh/host_keys.rs:182-184 | a host for which a restart makes any key acceptable again |
| `TrustOnFirstUse.OverlappingChecksIff` | crates/core/src/ssh/mod.rs:251-275 | two checks of an endpoint not on file, with two keys and no faults, their two steps (in a row they are the check: `AdvanceTwiceIsCheck`) taken in any order: both accept exactly if each verifies before the other trusts; otherwise the one that came first accepts and the other is refused, with a mismatch of the two keys |
| `TrustOnFirstUse.OverlappingChecksBothAccept` | crates/core/src/ssh/mod.rs:251-275 | such an order, in which two keys are accepted |
| `LineStream.Drain` | crates/core/src/ssh/mod.rs:880-887 | the inner loop sends the complete lines of a buffer, trimmed and marked, until the receiver is gone; if it is not, the remainder is left |
| `LineStream.Stream` | crates/core/src/ssh/mod.rs:865-914 | the outer loop: a receiver that drops after any number of sends gets that beginning of what feeding the messages comes to, with the remainders flushed at the end of the channel and not flushed on a cancellation, whenever it is noticed |
| `LineStream.GotIsAPrefix` | crates/core/src/ssh/mod.rs:865-914 | whenever the receiver drops and the cancellation is noticed, the lines of each stream that arrive are the first lines of that stream's text |
| `LineStream.LinesAreThoseOfTheText` | crates/core/src/ssh/mod.rs:865-914 | the lines sent for a stream are those of everything received on it, whatever the division into messages and the other stream's traffic |
| `LineStream.LinesLoseTheirEndsOnly` | crates/core/src/ssh/mod.rs:880-905 | the lines sent for a stream are the stretches of its text between line feeds, in order, each without the carriage returns and line feeds behind it and with everything else |
| `LineStream.CancelledSendsWholeLines` | crates/core/src/ssh/mod.rs:869-887 | of a cancelled stream the lines closed by then were sent, and the open one is not |
| `LineStream.ChunksDoNotMatter` | crates/core/src/ssh/mod.rs:865-914 | two divisions of the same text send the same lines |
| `LineStream.PiecesJoin` | crates/core/src/ssh/mod.rs:880-882 | the pieces a text is cut into are the text |
| `LineStream.MarkTellsIff` | crates/core/src/ssh/mod.rs:841-843 | a receiver that goes by the mark takes every line sent for what it is exactly when no line of the text received on standard output starts with the mark |
| `LineStream.MarkMisleads` | crates/core/src/ssh/mod.rs:841-843 | a message for which it does not |
| `PtyRegistry.Ptys.Insert` | crates/core/src/ssh/pty_registry.rs:45-57 | the generation grows by one and is returned |
| `PtyRegistry.Ptys.Remove` | crates/core/src/ssh/pty_registry.rs:75-93 | a close for another generation changes nothing; a missing counter counts as zero |
| `PtyRegistry.Ptys.Purge` | crates/core/src/ssh/pty_registry.rs:98-107 | session cancelled, counter gone |
| `ConnectionManager.Connections.DisconnectManagedConnection` | crates/core/src/connection_manager.rs:405-444 | an SSH connection's PTY state is purged first, and an error keeps the event back |
| `ConnectionManager.Connections.ReplaceManagedConnection` | crates/core/src/connection_manager.rs:453-477 | the previous connection goes first; if its disconnect fails nothing is registered |
| `ConnectionManager.Connections.TakeConnectionIfKind` | crates/core/src/connection_manager.rs:486-506 | a connection of another kind stays |
| `ConnectionManager.Connections.CloseConnection` | crates/core/src/connection_manager.rs:522-531 | taking and disconnecting in one call, for every kind |
| `ConnectionManager.Connections.StartPtyConnection` | crates/core/src/connection_manager.rs:540-564 | only on SSH; the old session is cancelled even if no new one can be made |
| `ManagerRuns.FaithfulIff` | crates/core/src/connection_manager.rs:405-531 | a call keeps events and registry in accord exactly when no disconnect it makes reports an error |
| `ManagerRuns.FailedDisconnectMisleads` | crates/core/src/connection_manager.rs:405-444 | a run after which an id is unregistered and its last event is Connected |
| `ManagerRuns.SmoothRunsAreFaithful` | crates/core/src/connection_manager.rs:405-531 | on every run without such an error each id's events alternate from Connected on, and the last one is Connected exactly while the id is registered |
| `ManagerRuns.RunsAreFaithfulIff` | crates/core/src/connection_manager.rs:405-531 | on a run they do for every id exactly if no disconnect of it reported an error: what one broke no later call mends |
| `ManagerRuns.CallRegisters` | crates/core/src/connection_manager.rs:453-531 | what every call leaves registered, kinds included |
| `ManagerRuns.CloseAnswers` | crates/core/src/connection_manager.rs:486-531 | a close of another kind is refused and one of an unknown id succeeds, neither doing anything; only a client other than Postgres can fail |
| `ManagerRuns.StartedIsClosedByItsGeneration` | crates/core/src/connection_manager.rs:540-631 | a close with the generation that starting answered takes the session down, and one with any other does nothing |
| `ManagerRuns.StartAnswers` | crates/core/src/connection_manager.rs:540-564 | a session starts exactly on SSH with a shell; without a shell the previous session is gone |
| `ManagerRuns.PtysAreOnSsh` | crates/core/src/connection_manager.rs:540-564 | on every run an id with a PTY session is registered, as SSH |
| `ManagerRuns.SupersededAreCancelled` | crates/core/src/ssh/pty_registry.rs:30-107 | of all sessions ever started, exactly those in the table are not cancelled |
| `ManagerRuns.CloseHitsItsOwnIff` | crates/core/src/ssh/pty_registry.rs:71-93 | a session taken down by a close with a generation is the one the generation was given for, exactly when no purge came in between |
| `ManagerRuns.LateCloseHitsAnother` | crates/core/src/ssh/pty_registry.rs:98-107 | a run in which a close of an old session takes down a new one |

## Left out

- Sockets, TLS and the libraries behind them: only outcomes (opened or not, error, rows, count) are modelled, as arguments.
- Dropping a future in mid-await and `Drop` for the pool: a call in `PoolRuns` always goes on to its next step, or never takes it.
- Words in a type: that a type is one type name is not part of the model, so a type that ends its cast with a word, such as `integer FROM t`, holds together in `SqlCasts`.
- User SQL with transaction control: the server contract takes user statements to hold none, and a ROLLBACK on a live wire to succeed.
- `FETCH FORWARD 0`, which the server answers by fetching the current row again: the contract says zero rows; pagination is stated for positive page sizes.
- PgExec.CollectRows: a row is copied whole and not cell by cell up to the column count, because every row of a Postgres reply has the cells its description announces.
- PgExec.CollectBulk: a row is copied whole, as above, and of the columns only their number is kept.
- Edits of several connections of the pool in one ledger: `PgEdits` follows one connection, and of what is undone with a transaction only the edits.
- Cursor ids are numbers that never repeat instead of random UUIDs.
- Connections aborted by eviction or shutdown: a call still holding one goes on against the server contract, where every request may fail.
- The pool's cancel requests: they appear as failing statements and interrupted CLOSEs.
- Column metadata other than the number of columns.
- Full UTF-8: `Text` accepts overlong and surrogate encodings too, so statements about all its texts cover all of Rust's.
- Pending connects and their cancellation tokens (`pending_connections`): a create is one call with an outcome.
- Steps inside `PtyRegistry::remove` and `replace_managed_connection`, between which the source lets its lock go: calls of the manager are made one after another.
- Wrap-around of 64-bit PTY generations: counters are unbounded.
- A write of the known-hosts file that fails half-way: a failed write leaves the file as it was. Creating its directory is part of the write.
- Fingerprints: a mismatch reports the two keys themselves.
- Chunks of a streamed command that end inside a character. A cancellation is noticed between messages, a receiver drops between sends.
- Overlapping checks with faults or of more than two connections; in runs, checks come one after another.
- `validate_pid`, `validate_signal`, introspection queries, configuration and redaction, key loading, SFTP, FTP, desktop clients, tunnels, exporters and list parsers: plumbing, or easy claims.
