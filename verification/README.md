# Verified model of the Trino ODBC driver's hard core

This project models the parts of the driver whose correctness spans several
calls, several threads or two parallel implementations, and proves what they
promise. It is a model: every property below is about the Dafny text, which
follows the Rust code branch by branch, including its edge cases.

`dafny verify dfyconfig.toml` checks everything.

## What is modelled

**Transactions** (`TransactionFlags`, `Coordinator`, `Connection`,
`TransactionRuns`, `Atomicity`, `RefusedCommits`). The connection is a class over shared mutable state: the
commit mode, the abort flag, the epoch and the id it holds. The coordinator is a
server that buffers writes per transaction, aborts on any statement error,
refuses to commit what it aborted, and may answer into a broken wire: every
round trip is delivered, or its request is lost, or its reply is. Each published
entry carries the number of its transaction and a tag that says whether the
reply about it arrived, the wire log records what was granted, and the
application's picture of the database is built from nothing but its own calls
and their outcomes. The main results compare the two over every run, say what
is published of each transaction, and read the reasons for a refused commit off
the history of calls.

**Paging** (`Paging`, `PagingRuns`, `Statement`). A statement buffers one page
of a finite chain and is proved, loop by loop, against functions on its cursor;
the functions are then proved to refine a flat sequence of rows with one ending
(exhausted, killed, failed). Pages may be empty, lack metadata, carry an error or
be lost.

**Cancelling** (`CancelRace`). One thread executing, fetching and closing and
any number of cancelling threads, as a transition system whose steps are single
accesses to the shared slot, the shared flag or the coordinator. Claims are about
the event log of every schedule.

**Escape rewriting** (`EscapeLexer`, `EscapeArguments`, `EscapeWholes`,
`Truncation`, `ScalarFn`, `SqlText`, `TruncateText`, `ScalarText`, `ScalarMeaning`). The
argument splitter's index loops are proved against an automaton that looks at
nothing but the next character; splitting is the inverse of joining; rewriting is shown to be compositional
exactly when it is; and every emitted call is scanned, parsed and evaluated by a
reader that does not know how it was emitted, and its value is shown to be the
one ODBC gives the function.

**Value conversion** (`Text`, `Temporal`, `TemporalText`, `Fractions`,
`ValueConversion`, `WireValues`). Fractions of seconds, zone shifts, the texts
the coordinator writes and what each is delivered as, and the two parallel
recursions over nested types.

**Type signatures, catalog filters, parameter description** (`TypeSignature`,
`CatalogFilter`, `CatalogClause`, `DescribeParam`). Readers for the emitted SQL,
written independently of the code that emits it, read back what was meant.

## Where the code is narrower than its comments

Each of these is a property that is false as the comments state it. The project
proves a concrete failing input and the exact condition, or the exact behaviour.

- `src/backend.rs:1924-1939` says that whatever the commit did, the transaction
  is gone. When the COMMIT is lost the id stays held while the mode is
  recorded as autocommit; the next statement is reported successful and never
  published (`LostCommitStrandsAutocommit`). In autocommit mode a successful
  write is published iff no id is held (`AutocommitPublishesIffNothingHeld`).
- `src/backend/execute.rs:550-570` promises HY008 from every later fetch. That is
  so iff the statement's own cancel flag is set; after a kill by somebody else
  HY008 is reported once and reads as the end of the result set afterwards
  (`KilledThenFetched`).
- `src/backend.rs:1885-1891` sets out to never misreport a commit, and 25S03 to
  confirm that the transaction did not complete. After a COMMIT whose reply was
  lost, a noted failure and a second commit answer 25S03 for writes that are
  published (`LostReplyThenRolledBack`). What is published of the transaction is
  everything iff such a COMMIT was granted, else nothing (`RollbackDiscardsIff`);
  a caller whose previous end call did not answer an error can rely on 25S03
  (`RollbackDiscards`).
- The abort flag is meant to keep a COMMIT from being refused. It is refused,
  and the session stays bound to the transaction until a rollback, iff no note
  of a failure stands and one of four things has happened since the transaction
  began (`RefusalHasFourCauses`, `EndTranFreesIff`): a failure that was never
  noted, as of a PREPARE (`src/backend/describe_param.rs:162-168`) or of a page
  read while draining (`src/backend/execute.rs:785-800`); a noted failure whose
  note was cleared by an end call that got no answer; a COMMIT that was carried
  out, or a ROLLBACK that was, with its reply lost (`UnnotedAbortRefusesCommit`,
  `LostEndRefusesCommit`, `LostAnswerRefusesCommit`).
- `src/escape_dialect.rs:353-397` multiplies the value expression by the scale
  without parenthesising it. The result is right for all operands iff the digits
  are zero or the expression has no top-level `+` or `-` (`TruncateIsRightIff`,
  `EmittedTruncatesIff`, `HalfPlusHalf`).
- `src/escape_dialect.rs:136-192` trims arguments, which may remove the newline
  that ends a line comment; the emitted call then swallows its own closing
  parenthesis (`LengthOfCommentIsOpen`, `RewriteIsIntactIff`).
- `src/type_conversion.rs:742-748` takes the digits after the first point for the
  fraction, while the parsers take the first nine characters behind the seconds'
  point. A warning is never spurious; without one the delivered value is exact
  iff the text is legible: those nine characters, padded with zeros, are digits,
  or the fragment's leading digits are zeros and it is not a signed number; where
  the parser sees no fragment, the nine places after any stray point hold zeros
  only (`LeafIsExact`, `DiscardsIffInexact`, `StrayLetterIsSilent`).
- `src/backend/metadata.rs:39-71` unescapes a pattern without wildcards by
  removing the escape only before `%` and `_`, so a doubled escape character is
  taken for two (`DoubledEscapeIsTakenLiterally`, `FilterIsRightIff`).
- `src/backend/describe_param.rs:78-89` indexes the sorted rows, which is the
  parameter's position iff no position is missing (`AlignedIffComplete`,
  `GapMisdescribes`).

## Model

| member | source | states |
|---|---|---|
| `TransactionFlags.TransactionState.SetAutocommit` | src/backend.rs:875-878 | records the mode and nothing else; the registers still are what the whole history says |
| `TransactionFlags.TransactionState.NoteStatementError` | src/backend.rs:896-913 | sets the abort flag in manual-commit mode only; the registers still are what the whole history says |
| `TransactionFlags.TransactionState.Begun` | src/backend.rs:915-918 | clears the abort flag and nothing else |
| `TransactionFlags.TransactionState.Ended` | src/backend.rs:925-929 | clears the abort flag and moves to the next epoch, wrapping at 2^64 |
| `TransactionFlags.DoomedStep` | src/backend.rs:868-934 | the abort flag's one-step update computes the history property "a failure was noted in manual-commit mode and nothing has begun or ended since" |
| `TransactionFlags.EndsGrow` | src/backend.rs:920-934 | of two histories, one extending the other, the longer has ended more transactions iff one ended in between |
| `TransactionFlags.OutlivedIffEnded` | src/backend.rs:920-934 | an epoch recorded earlier is reported as outlived iff a transaction ended since, over every history with fewer than 2^64 ends in between |
| `Coordinator.Client.Request` | src/backend.rs:979-998 | one round trip against the coordinator, which may lose the request or the reply |
| `Connection.Connection.EnsureTransaction` | src/backend.rs:979-998 | opens a transaction only in manual-commit mode with none held, records it as begun, and lets it start unaborted; a failure opens and records nothing |
| `Connection.Connection.ExecDirect` | src/backend/execute.rs:129-160 | a statement runs only once its transaction could be opened, and its failure, but not the opening's, is recorded against that transaction |
| `Connection.Connection.EndTran` | src/backend.rs:1873-1922 | the new world and the answer for all four cases: nothing open, rollback, commit, and a commit of an aborted transaction turned into a rollback answered 25S03; an end is recorded when an id was held, and a stale note is cleared when none was |
| `Connection.Connection.SetAutocommit` | src/backend.rs:1940-1949 | switching on commits and ends what is open first; the recorded mode is the requested one whatever the commit did |
| `Connection.Connection.Disconnect` | src/backend.rs:1836-1848 | an open transaction is rolled back; nothing is sent otherwise |
| `TransactionRuns.StepKeepsConsistent` | src/backend.rs:1873-1949 | every call keeps the application's believed and pending writes equal to the acknowledged published and buffered ones |
| `TransactionRuns.SettleStep` | src/backend.rs:1873-1922 | whatever the link does, an end call keeps the application's picture consistent with the server; one answered 25S03 publishes nothing itself, and any answer but an error leaves no transaction open and the session free |
| `TransactionRuns.BelievedIsPublished` | src/backend.rs:1873-1949 | over every guarded run the application believes exactly the published writes whose replies arrived, in order, and is right about the whole database iff no such reply was lost |
| `TransactionRuns.NoReplyLostMeansAllTold` | src/backend.rs:979-991 | in a run that loses no reply, every published and buffered entry was acknowledged and no transaction was orphaned |
| `TransactionRuns.LostReplyIsPermanent` | src/backend.rs:1873-1922 | once a reply about a published write is lost, the picture is short of the database for the rest of every run |
| `TransactionRuns.RunOnlyPublishes` | src/backend.rs:1873-1949 | over every run, what is published stays published, in order |
| `TransactionRuns.AutocommitPublishesIffNothingHeld` | src/backend.rs:1924-1949 | in autocommit mode a statement reported successful has published its writes iff no transaction id was held |
| `TransactionRuns.LostCommitStrandsAutocommit` | src/backend.rs:1940-1949 | a run of four calls that shows the guard is needed: a lost COMMIT strands a later autocommit write |
| `TransactionRuns.FlagIsExact` | src/backend.rs:838-934 | if no round trip is lost and every server abort is noted, the flag of an open transaction says exactly whether the server aborted it |
| `TransactionRuns.NotedEndTranFrees` | src/backend.rs:1873-1922 | then every end frees the session, a commit answers 25S03 iff the server had aborted, a successful commit publishes exactly the buffered writes, and no new transaction is born aborted |
| `TransactionRuns.NeverNested` | src/backend.rs:979-991 | over every run and whatever the network does, START TRANSACTION is never sent while an id is held, COMMIT and ROLLBACK never while none is, and an open transaction is never forgotten |
| `TransactionRuns.EpochCountsEnds` | src/backend.rs:1897 | over every run the epoch is the number of COMMITs and ROLLBACKs sent, modulo 2^64 |
| `TransactionRuns.DisconnectLeavesNothingOpen` | src/backend.rs:1836-1848 | every run that ends in a disconnect over a working link leaves no nameable transaction open, and no orphan either unless a reply was lost |
| `Atomicity.WholeOrNotAtAll` | src/backend.rs:1873-1922 | over every run each transaction is published whole, in order, iff a COMMIT of it was granted, and not at all otherwise |
| `Atomicity.RollbackDiscardsIff` | src/backend.rs:1882-1921 | when an end call is answered 25S03, or a rollback succeeds, nothing of the transaction is published, unless an earlier COMMIT of it was granted with its reply lost; then everything is |
| `Atomicity.RollbackDiscards` | src/backend.rs:1882-1921 | so it is reliable for a caller whose previous end call, if any, did not answer an error |
| `Atomicity.LostReplyThenRolledBack` | src/backend.rs:1882-1921 | a run in which 25S03 is answered for a write that is published |
| `RefusedCommits.EndTranFreesIff` | src/backend.rs:1873-1922 | over every run and with a working link, a commit is refused, and the session stays bound, iff the history since the transaction began has spoiled it and no note of a failure stands; it is 25S03 iff a note stands, and otherwise publishes what was buffered; a rollback always frees the session |
| `RefusedCommits.RefusalHasFourCauses` | src/backend.rs:1873-1922 | the refusal has exactly four causes in that history: a failure never noted, a note cleared by an unanswered end call, a lost reply to a COMMIT, a lost reply to a ROLLBACK |
| `RefusedCommits.HistoryTells` | src/backend.rs:838-934 | over every run, while an id is held, the calls, their answers and the wire alone determine the abort flag and whether the server would commit |
| `RefusedCommits.UnnotedAbortRefusesCommit` | src/backend/describe_param.rs:162-168 | a failed PREPARE inside a transaction is not noted, and the following commit is refused |
| `RefusedCommits.LostEndRefusesCommit` | src/backend.rs:1882-1897 | a noted failure, a commit that never arrived, and the next commit is refused |
| `RefusedCommits.LostAnswerRefusesCommit` | src/backend.rs:1882-1903 | a commit or rollback carried out unheard, and the next commit is refused, with the write published or not |
| `Statement.PageClient.GetNext` | src/backend/execute.rs:655-673 | one page request, logged, answered with the page and the URI of the next |
| `Statement.CancelState.BeginQuery` | src/backend.rs:1055-1063 | names the new query and clears the flag |
| `Statement.CancelState.Cancel` | src/backend/execute.rs:431-481 | takes the id, stores the flag before and whatever the DELETE answers, and does nothing without an id |
| `Statement.ConvertRows` | src/backend/execute.rs:37-61 | the nested loops compute the converted rows and exactly the set of cells that lost digits |
| `Statement.TrinoStatement.EndPageFetch` | src/backend/execute.rs:540-584 | discards every row; a kill is HY008, anything else marks the result set failed |
| `Statement.TrinoStatement.MapClientError` | src/backend/execute.rs:520-532 | a failed request is noted against the transaction |
| `Statement.TrinoStatement.LoadPage` | src/backend/execute.rs:630-702 | one page request either replaces the buffer with the page's converted rows or ends the fetch and is noted |
| `Statement.TrinoStatement.Fetch` | src/backend/execute.rs:590-706 | the new cursor, the answer, the pages requested and whether a failure was noted, against the specification function; with its cancel flag set it answers HY008 and requests nothing, with the flag clear it does so only on the word of a page just requested; a missing client is never met |
| `Statement.TrinoStatement.ReadOn` | src/backend/execute.rs:600-706 | the loop over empty pages terminates and computes what the recursive specification says |
| `Statement.TrinoStatement.GetData` | src/backend/execute.rs:708-736 | the cell under the cursor, the three error cases, and the warning flag |
| `Statement.TrinoStatement.TakeValueWarning` | src/backend/execute.rs:738-740 | hands the warning over once |
| `Statement.TrinoStatement.DrainFrom` | src/backend/execute.rs:776-812 | the drain loop requests what the specification says and stops at the first lost request, which is noted |
| `Statement.TrinoStatement.CloseCursor` | src/backend/execute.rs:776-831 | requests the whole remaining chain up to a lost request, unless the flag is set or a transaction has ended since the result set was opened, and then nothing; leaves a reusable empty cursor |
| `Statement.TrinoStatement.DiedIffTransactionEnded` | src/backend/execute.rs:495-499 | the epoch comparison says that the result set died iff a transaction ended after it was opened, with fewer than 2^64 ends in between |
| `Statement.TrinoStatement.Drop` | src/backend/execute.rs:833-856 | closes if and only if there is a next page |
| `Statement.CancelThenFetch` | src/backend/execute.rs:431-481 | a cancel that finds an id makes the next fetch answer HY008 without a request, whether or not the DELETE worked |
| `Statement.ExecDirect` | src/backend/execute.rs:129-320 | polls for metadata; the statement returned holds the first described page, the id is published once the first page answered, errors are noted |
| `Statement.Handle.Execute` | src/backend/execute.rs:366-404 | the old result set is drained only after the new query opened; if it does not, the old one is untouched, row for row; the abort flag afterwards counts a refused opening and a failed drain |
| `PagingRuns.FetchingReadsTheStream` | src/backend/execute.rs:590-706 | for every chain and every n, the n-th fetch stands on the n-th row of the flat result set, or answers as that result set ends: NoData for ever, 24000 for ever, or HY008 once |
| `PagingRuns.StreamIsThePages` | src/backend/execute.rs:655-702 | the stream of every chain is the rows of the pages before the first one that was lost, carries an error or cannot be decoded, ended by that page's trouble, request before error before data |
| `PagingRuns.SubmittedReadsThePages` | src/backend/execute.rs:129-706 | for every submitted query the n-th fetch stands on the conversion of the n-th row of those pages, then answers and notes the trouble once, and repeats NoData or 24000 |
| `PagingRuns.StoppedFetch` | src/backend/execute.rs:609-622 | with the cancel flag set a fetch answers HY008 and requests nothing, whatever is buffered |
| `PagingRuns.KilledByAPage` | src/backend/execute.rs:655-668 | with the flag clear HY008 is answered only when the last page requested was killed |
| `PagingRuns.AdvanceTakesNext` | src/backend/execute.rs:600-706 | one fetch of a live cursor takes the next owed row and leaves the rest owed, or reports the ending |
| `PagingRuns.LoadKeepsOwed` | src/backend/execute.rs:655-702 | loading a page moves rows from the chain to the buffer without losing, adding or reordering any |
| `PagingRuns.KilledThenFetched` | src/backend/execute.rs:571-629 | after a kill ended the stream, the next fetch answers HY008 again iff the own cancel flag is set, else NoData |
| `PagingRuns.GetDataReadsTheRow` | src/backend/execute.rs:708-736 | a read gives the row's value at that column and arms the warning iff that cell lost digits |
| `PagingRuns.OwedIsRaw` | src/backend/execute.rs:590-706 | what a result set owes is the rows its pages sent, one for one and in order, up to the first page that cannot be had |
| `PagingRuns.WireCellDelivered` | src/backend/execute.rs:129-740 | for every submitted query, after the n-th fetch column c is the conversion of that cell of the n-th row sent; a warning means it lost digits, and without one it is exact iff the cell's text is legible |
| `PagingRuns.AdvanceIsSound` | src/backend/execute.rs:600-706 | keeps the cursor inside the batch and every truncated cell inside its row; pages are requested consecutively from the next one on |
| `PagingRuns.DrainInOrder` | src/backend/execute.rs:776-812 | a drain requests a consecutive run of pages, the whole rest of the chain iff no request is lost |
| `PagingRuns.CloseRequests` | src/backend/execute.rs:776-831 | a successful close of a live result set has requested the whole remaining chain, a cancelled or outlived one nothing; either way the handle is empty and reusable |
| `PagingRuns.DropRequests` | src/backend/execute.rs:833-856 | dropping a live statement with pages left requests the whole chain, any other nothing |
| `PagingRuns.EveryPageOnce` | src/backend/execute.rs:590-856 | over every sequence of fetches, reads, closes and drops the requested pages are the chain's first ones, each once, in order |
| `PagingRuns.OpenInOrder` | src/backend/execute.rs:176-201 | polling for metadata requests the chain from its first page up to the one it stops at |
| `PagingRuns.RefusalIsTrouble` | src/backend/execute.rs:176-215 | a refused opening is the trouble of the last page polled, after pages without metadata and without error |
| `PagingRuns.OpenedIsInOrder` | src/backend/execute.rs:176-320 | a freshly opened statement continues that order and owes exactly the rows from the first described page on |
| `PagingRuns.AbandonedIsUnreadable` | src/backend/execute.rs:534-629 | after a failed or cancelled fetch a read is refused, and after a failure every fetch answers 24000 without a request until the cursor is closed |
| `CancelRace.EveryScheduleIsSafe` | src/backend/execute.rs:431-481 | the invariant holds after every schedule of one executing thread and any number of cancellers |
| `CancelRace.OneDeletePerQuery` | src/backend/execute.rs:431-481 | no published query id is deleted twice, and only after its flag was stored |
| `CancelRace.OneStepAfterCancel` | src/backend/execute.rs:590-706 | after the flag is stored there is at most one more page request or at most one more row, never both |
| `CancelRace.LatePageIsNeverDelivered` | src/backend/execute.rs:655-706 | no row of a page that arrives after the flag was stored is delivered |
| `CancelRace.LateFetchIsRefused` | src/backend/execute.rs:590-629 | every fetch begun afterwards answers HY008, or 24000 if a request had failed otherwise, whatever the DELETE answers |
| `CancelRace.LateCloseDrainsNothing` | src/backend/execute.rs:776-800 | a close begun afterwards requests no page |
| `EscapeLexer.SkipQuoted` | src/escape_dialect.rs:153-167 | the quote loop with doubled quotes follows the automaton to the closing quote or the end |
| `EscapeLexer.SkipLineComment` | src/escape_dialect.rs:168-171 | the line-comment loop follows the automaton to the newline or the end |
| `EscapeLexer.SkipBlockComment` | src/escape_dialect.rs:172-177 | the block-comment loop with its two-character lookahead follows the automaton, past the end included |
| `EscapeLexer.SplitArgs` | src/escape_dialect.rs:136-192 | for every string, unterminated ones included, terminates and returns the trimmed pieces between the commas the automaton reads in code at depth zero |
| `EscapeArguments.SplitLosesNothing` | src/escape_dialect.rs:136-192 | the untrimmed pieces joined by commas are the text, for every text |
| `EscapeArguments.SplitUndoesJoin` | src/escape_dialect.rs:136-192 | splitting the comma-join of whole arguments gives the arguments back |
| `EscapeArguments.SplitOfTrimmedJoin` | src/escape_dialect.rs:136-192 | and with trimming, the trimmed arguments |
| `EscapeArguments.ClosedIffPiecesWhole` | src/escape_dialect.rs:136-192 | a text is lexically closed iff every piece it is cut into is one whole argument |
| `EscapeArguments.TrimmedIsWholeIff` | src/escape_dialect.rs:184-191 | a whole argument stays whole under trimming iff it does not come to end in a line comment |
| `EscapeArguments.TrimCanOpenAComment` | src/escape_dialect.rs:184-191 | a whole argument that trimming leaves inside a line comment |
| `EscapeArguments.RunDeeper` | src/escape_dialect.rs:178-188 | a text that never closes more than it opens reads alike at every depth and is never cut inside parentheses |
| `EscapeWholes.QuotedIsWhole` | src/escape_dialect.rs:153-167 | a literal or delimited identifier is one argument, whatever it holds |
| `EscapeWholes.LineCommentIsWhole` | src/escape_dialect.rs:168-171 | a line comment with its newline is one argument, whatever it says |
| `EscapeWholes.BlockCommentIsWhole` | src/escape_dialect.rs:172-177 | a block comment is one argument, whatever it says before it ends |
| `EscapeWholes.ParenthesesAreWhole` | src/escape_dialect.rs:178-188 | anything closed is one argument between parentheses, its commas included |
| `EscapeWholes.CommaCuts` | src/escape_dialect.rs:183-186 | two arguments are cut apart at the comma between them |
| `ScalarFn.RewriteScalarFn` | src/escape_dialect.rs:205-351 | the text emitted for every function, or none where the call is left alone |
| `ScalarMeaning.CallIsItsArguments` | src/escape_dialect.rs:205-208 | the call of any whole arguments is rewritten by its name in any case and its arguments without surrounding white space |
| `ScalarMeaning.LocateFinds` | src/escape_dialect.rs:211-217 | the emitted LOCATE evaluates to the one-based place of the first occurrence of its first argument in its second, nought if there is none |
| `ScalarMeaning.LengthCounts` | src/escape_dialect.rs:219-238 | the emitted LENGTH evaluates to the number of characters without trailing blanks, other white space counted |
| `ScalarMeaning.TrimsTakeBlanks` | src/escape_dialect.rs:239-240 | the emitted LTRIM and RTRIM take the blanks, and nothing else, off the right end |
| `ScalarMeaning.IntervalsAreCounted` | src/escape_dialect.rs:258-269 | for every interval of fixed length TIMESTAMPADD moves its timestamp by that many, and TIMESTAMPDIFF counts the whole ones from its first to its second |
| `ScalarMeaning.DiffUndoesAdd` | src/escape_dialect.rs:258-269 | TIMESTAMPDIFF to what TIMESTAMPADD made of a timestamp gives back the number added |
| `ScalarMeaning.IntervalReads` | src/escape_dialect.rs:258-269 | for every interval, calendar ones included, the emitted call names the unit and passes both arguments in order |
| `ScalarMeaning.UnitIsNamed` | src/escape_dialect.rs:73-90 | the unit is the keyword without its prefix, for exactly eight keywords, in any case |
| `ScalarMeaning.DayCountsFromSunday` | src/escape_dialect.rs:319-325 | the emitted DAYOFWEEK counts from Sunday where ISO counts from Monday |
| `ScalarMeaning.ConvertCasts` | src/escape_dialect.rs:271-285 | the emitted CONVERT casts its value to the type the keyword is for |
| `ScalarMeaning.TargetIsFor` | src/escape_dialect.rs:108-127 | the keywords each target type is for, exactly |
| `ScalarMeaning.KeywordsAreBare` | src/escape_dialect.rs:242-256 | a function without arguments becomes its keyword, with any it is left alone |
| `ScalarMeaning.RandDropsItsSeed` | src/escape_dialect.rs:289-305 | RAND with a seed becomes the generator without one |
| `ScalarMeaning.OthersAreLeftAlone` | src/escape_dialect.rs:205-351 | a call is rewritten iff its function is known, with the right number of arguments and a known interval or type |
| `ScalarFn.RewriteIsTemplate` | src/escape_dialect.rs:205-351 | every emitted text is a fixed template that enters parentheses before each pasted argument, leaves them all, and pastes only arguments of the call |
| `ScalarFn.RewriteIsIntactIff` | src/escape_dialect.rs:205-351 | for every closed argument text, what is emitted is one closed argument with every pasted argument followed by code, iff none of the arguments at the positions the function pastes ends in a line comment |
| `ScalarFn.RewriteNests` | src/escape_dialect.rs:205-351 | an intact rewrite is cut out whole as an argument of an enclosing call, whatever whole arguments stand beside it |
| `ScalarFn.LengthOfCommentIsOpen` | src/escape_dialect.rs:205-351 | a closed argument ending in a line comment whose rewrite never closes |
| `Truncation.TruncateIsRightIff` | src/escape_dialect.rs:353-397 | the emitted expression denotes the truncation for all operand values iff the digits are zero or the value has no top-level addition or subtraction |
| `Truncation.TermIsTruncated` | src/escape_dialect.rs:353-397 | for a product of any length and any literal digit count, each of the four forms denotes the multiple of 10^-d nearest toward zero |
| `Truncation.SumIsNotTruncated` | src/escape_dialect.rs:353-397 | for every sum and every non-zero digit count there are operands the emitted expression gets wrong |
| `Truncation.TruncationIsUnique` | src/escape_dialect.rs:353-383 | truncation toward zero to a scale is one value, so "right" is well defined |
| `Truncation.LiteralScaleFits` | src/escape_dialect.rs:384-397 | every literal scale the rewrite writes out fits a signed 64-bit integer |
| `Truncation.FoldedIffItFits` | src/escape_dialect.rs:353-397 | a literal count is written out as a scale iff the scale fits a signed 64-bit integer |
| `Truncation.HalfPlusHalf` | src/escape_dialect.rs:384-397 | a concrete sum that is truncated wrongly |
| `TruncateText.EmittedIsDenoted` | src/escape_dialect.rs:384-397 | scanned and evaluated as SQL, the emitted text in each of the four forms is worth what `Denoted` says, for every chain of operands |
| `TruncateText.EmittedTruncatesIff` | src/escape_dialect.rs:353-397 | TRUNCATE is rewritten to a text that evaluates to the truncation of its first argument for all operand values iff the digits are zero or the argument has no top-level addition or subtraction |
| `Temporal.LeadingIsFloor` | src/type_conversion.rs:688-698 | padding or cutting digits to k places is the floor of the fraction times 10^k, exact iff only zeros are cut |
| `Temporal.NanosAreFloor` | src/type_conversion.rs:688-698 | the nanoseconds parsed are the floor of the exact fraction times 10^9 for every digit text |
| `Temporal.ShiftsCompose` | src/type_conversion.rs:856-879 | shifts modulo a day add up, and shifting back undoes a shift |
| `Temporal.ShiftReadingIsShift` | src/type_conversion.rs:856-879 | a shifted clock is in range and congruent to the reading; it is declined exactly when an intermediate overflows |
| `Temporal.DeliveryKeepsInstant` | src/type_conversion.rs:803-879 | for every offset text and session offset, a delivered time has hour below 24 and minute below 60 and is the same instant as the source |
| `Temporal.ClockIsDelivered` | src/type_conversion.rs:803-879 | a clock reading with an offset within a day is always delivered |
| `Temporal.TimeAndTimestampAgree` | src/type_conversion.rs:803-1107 | the time and timestamp parsers, written separately, deliver the same time of day for the same clock and numeric offset, whatever the date and the calendar |
| `Temporal.SessionOffsetIsSmall` | src/type_conversion.rs:953-969 | every session offset set by text is within the range the delivery lemmas need |
| `TemporalText.SessionOffsetRead` | src/type_conversion.rs:953-969 | a session offset reads back as its signed minutes |
| `Temporal.WireTimeDelivered` | src/type_conversion.rs:803-879 | every well-formed wire time with a numeric offset, whatever its leading zeros and fraction digits, is delivered as the one time of day that shows the same instant at the session's offset |
| `TemporalText.NamedTimeDelivered` | src/type_conversion.rs:806-822 | a time with a named zone counts as UTC and is shifted by the session's offset alone |
| `TemporalText.WireDateRead` | src/type_conversion.rs:663-680 | a date reads back as its own year, month and day, and a leading minus as a negative year |
| `TemporalText.WireTimestampRead` | src/type_conversion.rs:900-930 | a timestamp reads as its date's and its clock's own numbers |
| `TemporalText.TimeEndsAtSpace` | src/type_conversion.rs:768-771 | what follows a time after a space is not read |
| `TemporalText.WireStampDelivered` | src/type_conversion.rs:1025-1095 | a timestamp with a numeric offset is shown on the day and at the time of its own instant at the session's offset, or stays text if the year cannot be carried |
| `TemporalText.NamedStampDelivered` | src/type_conversion.rs:1062-1080 | with a named zone the offset is the zone's at that local time, and the value stays text where there is none |
| `TemporalText.OwnZoneIsIdentity` | src/type_conversion.rs:1025-1095 | delivered in its own zone a timestamp shows its own date and clock |
| `TemporalText.HourAlone` | src/type_conversion.rs:835-843 | an hour alone is an offset of that many hours in both parsers |
| `TemporalText.UnreadableMinutes` | src/type_conversion.rs:1101-1107 | unreadable offset minutes make the time parser decline and count as none in the timestamp parser |
| `WireValues.PlainTimesDelivered` | src/type_conversion.rs:768-930 | a time and a timestamp are delivered with the very numbers they are written with |
| `WireValues.ZonedTimestampDelivered` | src/type_conversion.rs:1025-1095 | a zoned timestamp is delivered on the day and at the time its instant shows in the session, or as its text |
| `WireValues.CarriedThrough` | src/type_conversion.rs:1146-1368 | what is not a temporal value is carried through unchanged at every level of nesting, in place and in order; only surplus fields of a row are dropped |
| `Fractions.LegibleIffSame` | src/type_conversion.rs:688-757 | the parser and the scan read the same nanoseconds of a fragment iff its characters make it legible, for every fragment |
| `ValueConversion.LeafIsExact` | src/type_conversion.rs:713-757 | for every leaf that parses: a warning is never spurious, without one the delivered nanoseconds are exact iff the text is legible, and the warning tells the truth iff it is legible or shows the parser no fraction and the scan a digit past the ninth |
| `ValueConversion.DigitsOnlyIsLegible` | src/type_conversion.rs:688-757 | a leaf whose fraction is digits, with no point elsewhere, is legible |
| `ValueConversion.StrayLetterIsSilent` | src/type_conversion.rs:688-698 | a letter in the fraction voids the parsed nanoseconds while no warning is given |
| `ValueConversion.WireTimeWarns` | src/type_conversion.rs:713-757 | every well-formed wire time with an offset parses, is legible, and draws the warning iff a non-zero digit stands past the ninth |
| `ValueConversion.DiscardsIffInexact` | src/type_conversion.rs:713-1368 | through every nesting of option, array, map, row and tuple whose leaves parse: a warning means some delivered leaf is inexact, and without one every leaf is exact iff every leaf's text is legible |
| `CatalogFilter.HasOdbcWildcards` | src/backend/metadata.rs:39-54 | the index loop finds an unescaped wildcard iff there is one |
| `CatalogFilter.PushFilter` | src/backend/metadata.rs:63-71 | appends exactly one rendered condition |
| `CatalogFilter.FilterIsRightIff` | src/backend/metadata.rs:39-71 | for every pattern, the condition is accepted and holds of exactly the names the ODBC pattern matches, iff the pattern's escapes are translatable |
| `CatalogFilter.WellEscapedIsRight` | src/backend/metadata.rs:39-71 | so it is right whenever each escape stands before a wildcard |
| `CatalogFilter.DoubledEscapeIsTakenLiterally` | src/backend/metadata.rs:63-71 | the shortest pattern it is wrong for |
| `CatalogFilter.TwoPassesAreOne` | src/backend/metadata.rs:63-71 | unescaping one wildcard after the other equals one left-to-right pass |
| `CatalogFilter.DoublingCommutes` | src/backend/metadata.rs:63-107 | quote doubling and unescaping commute |
| `CatalogFilter.DoublingKeepsWild` | src/backend/metadata.rs:39-71 | quote doubling neither makes nor hides a wildcard |
| `CatalogClause.QuotedIsOneToken` | src/backend/metadata.rs:63-71 | a literal with doubled quotes is lexed as one token and decodes to the value, for every value |
| `CatalogClause.ReadsRendered` | src/backend/metadata.rs:63-71 | a rendered condition reads back as itself, whatever its literal contains |
| `CatalogClause.ClauseReadsBack` | src/backend/metadata.rs:158-206 | the whole WHERE clause reads back as the list of conditions |
| `CatalogClause.BuildTablesWhereClause` | src/backend/metadata.rs:158-180 | read back and evaluated, the clause selects exactly the rows whose catalog, schema and table pass their arguments, where an absent, empty or `%` argument passes all |
| `CatalogClause.BuildColumnsWhereClause` | src/backend/metadata.rs:182-206 | the same with the column's name |
| `CatalogClause.ClauseSelectsMatches` | src/backend/metadata.rs:158-206 | read back and evaluated, the clause selects a row iff its names match every argument's ODBC pattern |
| `CatalogClause.FromAndWhereAgree` | src/backend/metadata.rs:94-107 | the FROM reference is qualified iff the catalog argument becomes an equality, and with the very name compared |
| `CatalogClause.QualifierReadsBack` | src/backend/metadata.rs:94-107 | the delimited identifier decodes to the qualifying catalog's name, for every name |
| `CatalogClause.ReferenceReadsBack` | src/backend/metadata.rs:94-107 | the reference reads back as the given table of `information_schema`, in the catalog the argument names if it names one |
| `TypeSignature.ReadsWhatStripRemoves` | src/type_conversion.rs:510-570 | for every accepted signature with a parenthesis, the text the parameter parsers read is exactly the text stripping removed |
| `TypeSignature.CharacterReadsBack` | src/type_conversion.rs:104-129 | printing then reading a varchar or a char recovers its variant and its length as the column size, for all in-range lengths |
| `TypeSignature.NameReadsBack` | src/type_conversion.rs:104-129 | every type's name reads back as that type, in any case and with any space around it |
| `TypeSignature.AliasReadsBack` | src/type_conversion.rs:104-129 | the other accepted names read back as the types they stand for |
| `TypeSignature.BareReadsBack` | src/type_conversion.rs:574-628 | without an argument a temporal type has scale 3 and the column size for it, a parametric type neither, any other its fixed size |
| `TypeSignature.LargeScaleIsDefault` | src/type_conversion.rs:574-580 | a scale beyond sixteen bits is taken for none |
| `TypeSignature.DecimalReadsBack` | src/type_conversion.rs:540-628 | printing then reading a decimal recovers its variant, precision and scale |
| `TypeSignature.TemporalReadsBack` | src/type_conversion.rs:574-628 | a time or timestamp, zoned or not, keeps the suffix behind its argument; the argument reads back as the scale, and the column size is the clock's characters plus the point and the digits |
| `TypeSignature.TimestampReadsBack` | src/type_conversion.rs:574-628 | a zoned timestamp reads back with its variant, its scale and a column size of 20 + s, 19 without digits |
| `DescribeParam.StripTrailingSemicolons` | src/backend/execute.rs:110-116 | strips semicolons and white space off the end, nothing else, until neither is left there |
| `DescribeParam.AlignedIffComplete` | src/backend/describe_param.rs:78-89 | element n is position n for every n, whatever the row order, iff no position is missing |
| `DescribeParam.ElementDescribesPosition` | src/backend/describe_param.rs:78-89 | then element n is the descriptor of the row that said n |
| `DescribeParam.SortIsStable` | src/backend/describe_param.rs:87 | rows that claim one position keep their order |
| `DescribeParam.GapMisdescribes` | src/backend/describe_param.rs:78-89 | with a gap the missing position is described by its successor |
| `DescribeParam.RowsAreRead` | src/backend/describe_param.rs:78-86 | a row with a position and a type name is kept as that, whatever follows; every other row is left out |
| `DescribeParam.FreshAnswers` | src/backend/describe_param.rs:97-159 | parameter n + 1 is answered with the row that says n when no position is missing, nothing past the last or for nought, and a refusal is an error inside a transaction only |
| `DescribeParam.Describer.DescribeParam` | src/backend/describe_param.rs:97-159 | the answer is the one a fresh round trip gives, and the cache stays what the server says |
| `DescribeParam.CacheIsTransparent` | src/backend/describe_param.rs:97-159 | over every run of calls against a fixed server, caching changes no answer |

## Left out

- The HTTP client, TLS, OAuth, runtimes, logging, timers, page statistics and the link-liveness flag: the environment answers every request as a parameter says.
- The SQLSTATE mapping tables, `resolve_auth`, timeouts, capability hooks, `remap_scalar_fn`, `interpolate_params`, `connect_params`, `info` and setup: tables and plumbing with nothing to prove beyond reading them.
- Named time zones and daylight saving: a zone's offset is an abstract function of name and local time, and the session's zone is a fixed offset in whole minutes; calendar arithmetic is an abstract pair of functions.
- Overflow of the 64-bit arithmetic inside the calendar library for absurd numeric offsets.
- Unicode case folding: type names and function names fold ASCII letters only; the keyword tables contain no others.
- UTF-8 byte offsets in `split_args`: positions count characters, so the offset table that maps one to the other is not there.
- The column sizes the core crate knows for types without an argument are a parameter of `TypeNamePrecision`, and what it makes of a negative scale is not modelled.
- Base64, floating point, decimals and the text rendering of JSON: such values are carried through as they are.
- Poisoned locks; a poisoned mutex is recovered by the source and has no counterpart here.
- The memory order of the atomics: a step reads or writes one shared cell and steps interleave.
- A cancel during metadata polling or after a drain has begun: neither loop checks the flag, so nothing is claimed to stop them.
- An error carried by a page read during a drain is ignored, as in the source; only a lost request fails the close.
- A ROLLBACK naming an id the server has already finished is taken to be granted.
- The DESCRIBE INPUT and DEALLOCATE requests after a PREPARE: they share its fate as far as the transaction is concerned.
- DiscardsIffInexact: says nothing of a value with a leaf that does not parse, which is delivered as its own text.
- IntervalsAreCounted: the value of an interval in months, quarters or years depends on the calendar; for those only the emitted call is stated (`IntervalReads`).
- ConvertCasts: what the coordinator's casts and `random()` yield is not modelled, only that they are what is emitted.
- EmittedIsDenoted: pasted arguments are chains of operands known by their values; only the template around them is scanned character by character.
- LateFetchIsRefused: nothing is claimed about the fetch already under way when the flag is stored beyond `OneStepAfterCancel` and `LatePageIsNeverDelivered`.
- FetchingReadsTheStream: the fetches run without a cancel in between, which `CancelRace` treats instead.
- The library's stable sort is a function; what is proved about its result is order and content.
- Wire failures during DESCRIBE INPUT: the parameter cache is proved against a server that answers the same statement the same way every time.
- Row-to-struct copying in the catalog functions, the empty catalog functions and the table privileges query.
