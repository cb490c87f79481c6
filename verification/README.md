# RadixDB: verified models of the scheduler, the logical dump and the server's recovery protocols

RadixDB is a database engine with a server, a command line client and a logical dump format. This
project models the parts of it whose correctness depends on what happens over many steps: crashes,
retries, partial writes, concurrent workers and resumed runs. Each part is a small set of Dafny
modules; the proofs need no module outside this directory.

- **Job scheduler** (`Schedule`, `JobProtocol`, `JobClaims`, `JobSlots`, `JobLedger`, `JobService`,
  `JobRetention`, `Decimal`). One statement or transaction of one worker is one step, so a list of
  actions is any interleaving of any number of workers with any clocks and crashes. `JobLedger` is the
  same code over mutable relations for all jobs, proved to be a run of the protocol; `JobService` says
  in terms of the stored rows alone what servicing one job does.
- **Logical dump** (`SqlLexer`, `SqlTokens`, `SqlComments`, `TextLiteral`, `DumpStatement`,
  `DumpInsert`, `DumpReader`, `DumpRows`, `DumpTable`, `Utf8`, `DumpStream`, `DumpCounts`, `DumpImport`,
  `DumpRoundTrip`, `DumpSoundness`, `Publication`, `PublicationCalls`). From the bytes of a stream to the
  statements handed to the database and back, with the real lexer deciding where a statement ends, an
  independent reader of the exported statements, and the publication of an imported database under
  crashes and foreign writers.
- **View order** (`ViewGraph`, `ViewOrder`, `ViewNames`). The order in which an export writes views.
- **Calendar** (`CivilDate`). The closed-form date arithmetic of both build scripts.
- **Sessions** (`Sessions`). Permits, the session registry and shutdown of the TCP server.
- **Command line** (`StorageReset`, `ResultWindow`). The reset transaction and the result window.
- **Wire columns** (`ExternalColumn`). Compaction and slicing of external columns.
- **Verification runner** (`VerificationRun`, `VerificationProgress`). The crash-safe, resumable pre-release runner.

## Where the code differs from what one would expect

The models follow the code. These are the places where a natural property fails; each is stated as
a lemma with a concrete or general witness, and next to it the exact condition under which it holds.

- `quote_text` doubles quotes and leaves backslashes alone, but the lexer treats a backslash in a
  string as an escape and the parser replaces `\n`, `\t`, `\r`, `\'` and `\\`. A text value survives
  export and import if and only if it has no NUL, every backslash in it is inert and its literal is
  within 8 MiB (`TextLiteral.TextRoundTrip`, `TextLiteral.BackslashCounterexamples`). Written with the
  parser's own escapes, every text without a NUL would (`TextLiteral.EscapedTextRoundTrip`).
- A finite floating point value is written by `to_string`, which gives digits only for one without a
  fraction, and the parser takes digits for an integer literal of 64 bits. Such a value is read back if
  and only if it has a fraction or its digits fit (`DumpReader.FloatReadsExactly`); two to the power 63 is
  exported and refused (`DumpReader.LargeFloatIsRefused`).
- A number whose exponent has no digits is no error token; its message stays pending and turns the next
  quoted name, text or comment into one. So a statement of tokens is complete if and only if it ends with a
  semicolon and no quoted token follows such a number (`SqlTokens.TokensDecide`).
- The exporter checks the 256 MiB statement budget before it appends the two-byte terminator, the
  importer after. A dump of framed statements imports if and only if each statement with its terminator
  is within the budget, the database takes each, and counts and fingerprint match
  (`DumpRoundTrip.ImportDecides`, for a table's rows `DumpTable.TableRoundTrip`); for every table of 33
  columns there is a row that is exported and that every import refuses
  (`DumpTable.ExportedButNotImportable`).
- Coalescing subtracts the stored slot from the clock with a plain subtraction. When that wraps, the job is
  moved backwards along its grid or errs, exactly as `Schedule.CoalescingWraps` says.
- A claim compares the coalesced slot with the stored one. An interval job is claimed exactly while
  the clock is inside its stored slot's own interval (`JobSlots.ClaimWindow`). Polling, however often,
  does not help a job that is one whole interval behind: with clocks that do not go back its row and
  log stay the same if and only if no exhaustion or reset that was pending stores another slot
  (`JobSlots.MissedSlotStarvesTheJob`). Under one scheduler thread, or with prompt updates, none does
  (`JobSlots.UndisturbedJobStarves`); with two workers a late reset can
  (`JobSlots.LateResetEndsStarvation`, concretely `JobSlots.LateResetIsReached`).
  Comparing with the loaded slot would repair it without losing any claim theorem, in every
  interleaving (`JobSlots.LoadedSlotVariantClaimsEveryDueJob`, `JobSlots.VariantRunKeepsInv`).
- `finalize_exhausted` and `reset_state` update the row by job id without comparing it with the one
  they decided on. With two workers one (slot, attempt) pair can be claimed twice, by a late
  exhaustion (`JobSlots.PausedExhaustionRepeatsAClaim`) or, without any exhaustion, by a second reset
  (`JobSlots.RacingResetsRepeatAClaim`, concretely `JobSlots.RacingResetsAreReached`). A step keeps the
  protocol invariant if and only if the slot such an update stores is later than the newest claim's
  (`JobProtocol.StepKeepsInv`), and any other one makes a repeated or earlier claim possible
  (`JobSlots.DisorderBreaksTheOrder`). The condition holds of the deployed single scheduler thread with
  crashes (`JobClaims.OneWorkerIsUndisturbed`) and of any number of workers when deciding to exhaust or
  to reset and doing so is one step (`JobClaims.PromptUpdatesAreOrdered`).
- For a one-time job every exhaustion keeps claims in order, yet one that was decided before the fifth
  attempt succeeded turns the completed job into a failed one
  (`JobSlots.PausedExhaustionFailsACompletedJob`), which every one-time job can reach
  (`JobSlots.PausedExhaustionIsReached`). A complete or failed row always stays one
  of the two, and it changes if and only if such a late exhaustion is carried out (`JobClaims.TerminalForever`).
- A definition change that reuses a slot can leave an open history row with the same slot, attempt
  and key; finishing the new attempt then changes nothing (`JobClaims.ReusedSlotBlocksFinalization`).
  `JobClaims.FinalizationIsExact` gives the exact condition.
- An error ends the whole cycle. A job whose interval fits 64 unsigned but not 64 signed bits gets no
  row and errs in every cycle, so no job listed after it is ever serviced
  (`JobLedger.Ledger.RunLoop`, `JobLedger.UnusableJobEndsTheCycle`). A job gets its turn if and only if
  no earlier one erred and the server was not cancelled (`JobLedger.TurnComesExactlyWithoutError`).
- Pruning deletes at most 256 rows per pass, so more than 256 crashed attempts between two passes
  leave more than 256 rows (`JobRetention.PruningBoundsHistory`).
- A storage reset whose inspection of a member fails returns at once, without rollback, and leaves
  the members it has moved in quarantine (`StorageReset.FailedInspectionStrandsAMember`,
  `StorageReset.StrandedMember`). It is all or nothing if and only if no call fails, or the first
  failing call is the creation or an inspection before any member was moved, or it is another call and
  every inspection and rename of the rollback succeeds (`StorageReset.CleanExactlyWhenRecoverable`).
  The error of such a failed inspection names none of the members left in quarantine; a rollback's error
  names all of them. So the caller is told of every member left behind if and only if the first failing
  call is no inspection after a move (`StorageReset.LeftIsReported`).
- `next_attempt` sees only three-digit directories, so the thousand-and-first attempt of a stage
  cannot start (`VerificationRun.AttemptsAreConsecutive`).

## Model

| member | source | states |
|---|---|---|
| `Schedule.CoalescedIsLatestDueSlot` | src/server/job_scheduler.rs:379-392 | The coalesced slot exists, lies on the job's grid, is not after now, is the latest such slot, and its overflow check never fires |
| `Schedule.CoalescingKeepsSlot` | src/server/job_scheduler.rs:379-392 | Coalescing returns the stored slot if and only if less than one interval has passed |
| `Schedule.CoalescingWraps` | src/server/job_scheduler.rs:379-392 | When the subtraction wraps, the coalesced slot is the first on the grid less than 2^64 nanoseconds before now, which is not after the stored one, or an error if and only if that is below the 64-bit range |
| `JobProtocol.StepKeepsInv` | src/server/job_scheduler.rs:229-359 | A step of any worker, or a crash, keeps the protocol invariant if and only if it is no exhaustion or reset that stores a slot not later than the newest claim |
| `JobProtocol.ExhaustionIsExact` | src/server/job_scheduler.rs:602-624 | Exhaustion keeps the invariant if and only if the next slot is later than the newest claim, so always for one-time jobs |
| `JobProtocol.ResetIsExact` | src/server/job_scheduler.rs:447-463 | A version reset keeps the invariant if and only if nothing was claimed yet or the interval job's new slot is later than the newest claim |
| `JobProtocol.RunKeepsInv` | src/server/job_scheduler.rs:229-359 | In every interleaving of any number of workers the invariant holds at every point if and only if every step is so ordered |
| `JobProtocol.InitialHasInv` | src/server/job_scheduler.rs:229-261 | Any ledger whose row belongs to another definition version, or that has no row, is a valid start |
| `JobProtocol.ClaimIsNewest` | src/server/job_scheduler.rs:466-513 | A claim that commits is later in (slot, attempt) than every claim of this definition version |
| `JobClaims.ClaimsStrictlyIncrease` | src/server/job_scheduler.rs:466-513 | In every reachable state claims strictly increase in (slot, attempt), so no pair is claimed twice |
| `JobClaims.ClaimWaitsForLease` | src/server/job_scheduler.rs:273-303 | A claim over a running row commits only after that very claim's lease ended on the claimer's clock |
| `JobClaims.FinalizationIsExact` | src/server/job_scheduler.rs:515-682 | Finishing commits if and only if the worker holds the row, no open twin exists and the next slot fits; it gives the row its exact next slot, attempt, status, retry time and key, closes the newest history row and changes nothing else, or changes nothing at all |
| `JobClaims.RunningRowOwnsNewestEntry` | src/server/job_scheduler.rs:503-513 | A running row has an open history row that is the job's newest and is never pruned |
| `JobClaims.SupersededHolderIsPowerless` | src/server/job_scheduler.rs:627-682 | A worker whose claim was taken over changes neither relation |
| `JobClaims.ReusedSlotBlocksFinalization` | src/server/job_scheduler.rs:627-682 | A concrete run in which a reused slot keeps a successful attempt from being finalized |
| `JobClaims.FiveClaimsPerSlot` | src/server/job_scheduler.rs:263-303 | One slot gets at most five claims, all with the key of that slot |
| `JobClaims.FiveClaimsPerOneTimeJob` | src/server/job_scheduler.rs:368-405 | A one-time job is claimed at most five times per definition version |
| `JobClaims.TerminalForever` | src/server/job_scheduler.rs:515-624 | A complete or failed row stays one of the two and unclaimed for the rest of its version, and its row changes if and only if a pending exhaustion hits a completed job |
| `JobClaims.KeysIdentifySlots` | src/server/job_scheduler.rs:263-303 | Different slots have different idempotency keys |
| `JobClaims.OneWorkerIsUndisturbed` | src/server/job_scheduler.rs:64-108 | Every run of one scheduler thread that may crash anywhere finds the rows it decided on and is ordered |
| `JobClaims.PromptUpdatesAreOrdered` | src/server/job_scheduler.rs:239-303 | Every interleaving of any number of workers is ordered if each decision to exhaust or reset is directly followed by that worker's update or crash |
| `JobClaims.PromptRunsAreReachable` | src/server/job_scheduler.rs:239-303 | So whatever such a run from the start of a version reaches satisfies the claim theorems |
| `JobSlots.ClaimWindow` | src/server/job_scheduler.rs:273-303 | A cycle claims an uncontended waiting job if and only if stored slot <= now < stored slot + interval, and otherwise changes nothing |
| `JobSlots.MissedSlotStarvesTheJob` | src/server/job_scheduler.rs:379-392 | With clocks that do not go back, a job a whole interval behind keeps its row and gets no claim at every point of a run if and only if no pending exhaustion or reset stores another slot |
| `JobSlots.UndisturbedJobStarves` | src/server/job_scheduler.rs:379-392 | So it starves in every run whose updates find the row they decided on, as with one scheduler thread |
| `JobSlots.LateResetEndsStarvation` | src/server/job_scheduler.rs:447-463 | For every interval job of a new version, a reset decided before the job fell behind and carried out late is ordered, moves the slot and lets it be claimed |
| `JobSlots.LateResetIsReached` | src/server/job_scheduler.rs:447-463 | A concrete start from which that happens |
| `JobSlots.LoadedSlotVariantClaimsEveryDueJob` | src/server/job_scheduler.rs:475-502 | Comparing the loaded slot instead would claim exactly the due jobs, at the latest due slot, later than every earlier claim |
| `JobSlots.LoadedSlotClaimKeepsInv` | src/server/job_scheduler.rs:475-502 | In any world, whatever happened since the row was loaded, that claim keeps the invariant |
| `JobSlots.VariantRunKeepsInv` | src/server/job_scheduler.rs:475-502 | With that claim every ordered interleaving of any number of workers keeps the invariant |
| `JobSlots.PausedExhaustionRepeatsAClaim` | src/server/job_scheduler.rs:602-624 | From every state with a running fifth attempt, two workers can claim one pair twice |
| `JobSlots.RacingResetsRepeatAClaim` | src/server/job_scheduler.rs:241-251 | From every state in which a due one-time job's row belongs to another version, two workers can claim its slot twice without any exhaustion |
| `JobSlots.RacingResetsAreReached` | src/server/job_scheduler.rs:447-463 | A concrete start from which that happens |
| `JobSlots.DisorderBreaksTheOrder` | src/server/job_scheduler.rs:447-624 | After any unordered exhaustion or reset, a worker that polls at the stored slot claims a pair not later than the newest claim |
| `JobSlots.PausedExhaustionFailsACompletedJob` | src/server/job_scheduler.rs:602-624 | An exhaustion decided before the fifth attempt succeeded turns the completed one-time job into a failed one |
| `JobSlots.CrashesReachEveryAttempt` | src/server/job_scheduler.rs:263-303 | Each attempt up to the fifth of any job's first slot is reached by one crashing thread, with as many claims, so the bound of five is tight |
| `JobSlots.FifthAttemptOfAnIntervalJob` | src/server/job_scheduler.rs:263-303 | Every interval job reaches a state with a running fifth attempt, from which a pair can be claimed twice |
| `JobSlots.FifthAttemptOfAOneTimeJob` | src/server/job_scheduler.rs:263-303 | Every one-time job reaches a state in which its fifth attempt is executing after five claims, with one open history row |
| `JobSlots.PausedExhaustionIsReached` | src/server/job_scheduler.rs:602-624 | So every one-time job has a reachable completed state that a pending exhaustion turns into a failed one |
| `JobLedger.Ledger.InsertState` | src/server/job_scheduler.rs:430-445 | Inserts the fresh row and leaves the other jobs alone |
| `JobLedger.Ledger.ResetState` | src/server/job_scheduler.rs:447-463 | Replaces the row by a fresh one of the new version and leaves the other jobs alone |
| `JobLedger.Ledger.ClaimAttempt` | src/server/job_scheduler.rs:466-513 | Refines the protocol's claim transaction on this job's share, others unchanged; an overflowing lease is an error |
| `JobLedger.Ledger.FinalizeAttempt` | src/server/job_scheduler.rs:627-682 | Refines the protocol's finalization, both relations or neither |
| `JobLedger.Ledger.Finish` | src/server/job_scheduler.rs:515-600 | Refines success, retry and final failure |
| `JobLedger.Ledger.FinalizeExhausted` | src/server/job_scheduler.rs:602-624 | Refines the unconditional exhaustion update; an overflowing next slot is an error |
| `JobLedger.Ledger.PruneHistory` | src/server/job_scheduler.rs:684-703 | The deletion loop removes exactly the selected rows of this job |
| `JobLedger.PruneIsARun` | src/server/job_scheduler.rs:684-703 | That loop is a run of the protocol's single deletions |
| `JobLedger.Ledger.ServiceJob` | src/server/job_scheduler.rs:229-359 | The job's row and history and the outcome, errors included, are a function of those rows, the clock and the execution's result, which `JobService` describes without it, and are reached by a run of one protocol worker; other jobs keep theirs |
| `JobService.RunsExactly` | src/server/job_scheduler.rs:229-359 | Servicing reports success (failure) if and only if an attempt was due, its lease fits, no open twin and no overflow prevents finalizing and the execution succeeded (failed); then slot, attempt, status, retry time and key of the row are those stated, the new history row is closed with its times and outcome, and the history has the pruned size |
| `JobService.NoClaim` | src/server/job_scheduler.rs:263-303 | Without a claim the history stays and the row is the loaded one, or, all five attempts used up, one of the next slot or a failed one; it errs if and only if a lease or slot overflows |
| `JobService.InterruptedKeepsTheClaim` | src/server/job_scheduler.rs:627-682 | A claimed attempt that cannot be finalized keeps the running row and its open history row |
| `JobService.StartsOrErrs` | src/server/job_scheduler.rs:229-261 | Servicing starts from the stored row, a reset one or a fresh one, or errs and changes nothing |
| `JobService.OneTimeJobCompletes` | src/server/job_scheduler.rs:515-541 | A due one-time job that succeeds ends as complete, with a closed history row |
| `JobLedger.Ledger.RunCycle` | src/server/job_scheduler.rs:173-202 | Each job that gets its turn ends with exactly the rows and outcome of being serviced on the rows the cycle found; turns go on to the end, the first error or a cancellation; all other jobs keep their rows; the counters are those of the outcomes; for each job the cycle is a run of one protocol worker |
| `JobLedger.TurnComesExactlyWithoutError` | src/server/job_scheduler.rs:185-200 | A job gets its turn if and only if no earlier turn was an error and the server was not cancelled up to then |
| `JobLedger.UnusableJobEndsTheCycle` | src/server/job_scheduler.rs:368-377 | A job whose interval does not fit 64 signed bits errs at its turn, leaves its rows alone and is the last one serviced |
| `JobLedger.Ledger.RunLoop` | src/server/job_scheduler.rs:64-108 | Over any cycles in which such a job is listed before another, the other's row and history never change, and every cycle that is not cancelled errs |
| `JobRetention.PruningBoundsHistory` | src/server/job_scheduler.rs:684-703 | The exact size of the history after a pass, and only older rows are deleted |
| `ViewGraph.OrderedGraphHasNoCycle` | src/sql_dump.rs:484-529 | A graph with a topological order has no cycle |
| `ViewGraph.StuckSetHasCycle` | src/sql_dump.rs:525-527 | Names that all wait for each other lie on or lead to a real cycle |
| `ViewOrder.SizesDetectDuplicates` | src/sql_dump.rs:485-491 | Comparing the index's size with the list's detects exactly the duplicate lower-cased names |
| `ViewOrder.CountDependencies` | src/sql_dump.rs:492-505 | The in-degree and dependents tables describe exactly the graph restricted to the given views |
| `ViewOrder.Release` | src/sql_dump.rs:513-523 | Releasing a view leaves counters and ready set as the definition over the done set demands |
| `ViewOrder.Kahn` | src/sql_dump.rs:506-524 | The loop ends with nothing ready and an order that no topological order beats |
| `ViewOrder.OrderedViews` | src/sql_dump.rs:484-529 | Duplicate error, cycle error or the views as a permutation in the least topological order, each exactly when its reason holds, over the graph of lower-cased names that `ViewNames` relates to the views |
| `ViewOrder.SucceedsExactlyWhenAcyclic` | src/sql_dump.rs:484-529 | An order is returned if and only if names are distinct and the graph is acyclic; a cycle is reported if and only if there is one |
| `ViewOrder.AnswerIgnoresInputOrder` | src/sql_dump.rs:485-524 | The answer depends only on the set of views, not on the order they are listed in |
| `ViewNames.LowerFolds` | src/sql_dump.rs:485-499 | Two names are equal after lower-casing if and only if they agree letter by letter up to the case of A to Z |
| `ViewNames.LessIsCodePointOrder` | src/sql_dump.rs:506-512 | The order of names is that of their code points, a proper prefix first |
| `ViewNames.EdgesAreDependencies` | src/sql_dump.rs:492-505 | Between two views there is an edge if and only if one lists the name of the other, whatever its case |
| `ViewNames.CyclesAreCycles` | src/sql_dump.rs:525-527 | The graph has a cycle if and only if some views depend on each other in a circle |
| `ViewNames.AnswerInViewTerms` | src/sql_dump.rs:484-529 | In terms of the views: an error if and only if two names differ at most in case, or else a circle exists; otherwise a permutation with each view after those it depends on, the first of all such lists |
| `CivilDate.YearOfEraFound` | build.rs:66-72 | The closed-form year of era is the one whose days contain the given day |
| `CivilDate.CivilSuccessor` | build.rs:58-82 | Every computed date is valid and day n + 1 is the calendar successor of day n |
| `CivilDate.ClosedFormCountsDays` | build.rs:58-82 | The closed form equals day-by-day counting from 1970-01-01, for every day count |
| `CivilDate.StampsAreExact` | crates/radixdb-functions/build.rs:32-55 | Both copies agree, the stamp is valid, and date and time of day add up to the seconds given |
| `CivilDate.RenderedStampReadsBack` | build.rs:58-82 | Up to the year 9999 every field can be read back from the 20-character text |
| `SqlLexer.StatementComplete` | src/sql_dump.rs:909-927 | The token loop answers what scanning token by token answers; `SqlTokens` and `SqlComments` say what that is of a text's tokens and comments |
| `SqlTokens.TokenLexes` | crates/radixdb-sql/src/lexer/mod.rs:70-244 | Each word, quoted name, text, number, parameter, operator of one to three characters and mark, before a space or the end, is read as exactly that one token |
| `SqlTokens.TokensDecide` | src/sql_dump.rs:909-927 | A text of any such tokens is complete if and only if the last is a semicolon and no quoted token follows a number without the digits of its exponent |
| `SqlTokens.StrayIsIncomplete` | crates/radixdb-sql/src/lexer/mod.rs:70-214 | A character that starts no token, anywhere among tokens, makes the statement incomplete whatever follows |
| `SqlComments.BalancedCommentCloses` | crates/radixdb-sql/src/lexer/trivia.rs:47-88 | A block comment ends exactly where its openings and closings balance |
| `SqlComments.CommentsChangeNothing` | src/sql_dump.rs:909-927 | With blanks and comments anywhere between tokens, a statement is complete if and only if its last token is a semicolon |
| `SqlComments.TrailingCommentsChangeNothing` | src/sql_dump.rs:909-927 | Blanks and comments behind a statement never change whether it is complete |
| `SqlComments.OpenCommentIsIncomplete` | crates/radixdb-sql/src/lexer/trivia.rs:47-88 | A block comment that is still open makes the statement incomplete |
| `SqlComments.CommentExamples` | src/cli/tests.rs:158-159 | The two statements of the repository's own test, with a commented and a real terminator |
| `TextLiteral.QuotedTextLexesBack` | crates/radixdb-sql/src/lexer/literal.rs:73-223 | The lexer reads a quoted value back to exactly its end if and only if the value is lexically safe |
| `TextLiteral.TextRoundTrip` | src/sql_dump.rs:118-120 | A text value is read back as itself if and only if it has no NUL, inert backslashes only and its literal is within 8388608 bytes, one quote not counted where the lexer copies |
| `TextLiteral.EscapedTextRoundTrip` | crates/radixdb-sql/src/expressions.rs:338-394 | Spelled with the five escapes of the parser, every text without a NUL is read back, if and only if the literal is within the limit |
| `TextLiteral.BackslashCounterexamples` | crates/radixdb-sql/src/expressions.rs:338-394 | Concrete values that are altered, or swallow what follows |
| `DumpStatement.LexAtom` | crates/radixdb-sql/src/lexer/mod.rs:70-214 | Lexing steps exactly over each word, number, string, quoted name, mark and blank of a rendered statement |
| `DumpStatement.CutStatement` | src/sql_dump.rs:909-927 | A rendered statement cut after any inner line feed is incomplete |
| `DumpStatement.RenderedStatementIsFramed` | src/sql_dump.rs:1064-1110 | No line feed, semicolon or trailer-like text inside quotes is taken for a boundary or trailer |
| `DumpRows.AppendRow` | src/sql_dump.rs:687-713 | The row's text, or failure exactly when its width is not the descriptor's, a value cannot be rendered or the values exceed the statement budget |
| `DumpRows.WriteTableRows` | src/sql_dump.rs:715-773 | All rows, in order, in non-empty batches of at most 256 rows, multi-row batches within 4 MiB, every split forced, exact counts; failure exactly on a row too big for a statement |
| `DumpInsert.ValueSpells` | src/sql_dump.rs:614-685 | Every rendered value, external ones included, is a sequence of well-formed tokens; which value they denote is `DumpReader.ValueReadsBack` |
| `DumpInsert.InsertIsFramed` | src/sql_dump.rs:715-773 | An exported INSERT is framed whatever its values contain, if its text is lexically safe |
| `DumpReader.ValueReadsBack` | src/sql_dump.rs:614-685 | A reader that follows the parser reads the text of every readable value, of each kind, as that value |
| `DumpReader.FloatReadsExactly` | crates/radixdb-sql/src/expressions.rs:283-297 | A finite floating point value is read back if and only if it has a fraction or its digits fit 64 bits, and is refused otherwise |
| `DumpReader.LargeFloatIsRefused` | crates/radixdb-sql/src/expressions.rs:283-297 | Two to the power 63 is a value that is exported and refused |
| `DumpReader.InsertReadsBack` | crates/radixdb-sql/src/statements/dml.rs:29-348 | An exported INSERT is read as its table, its columns in order and its rows, value by value |
| `DumpTable.ExportedTableFrames` | src/sql_dump.rs:715-773 | A table's exported text is exactly its batches, each framed for the importer |
| `DumpTable.ExportedRowsReadBack` | src/sql_dump.rs:715-773 | However the rows were cut into batches, reading the batches gives exactly the rows of the table, in order |
| `DumpTable.TableRoundTrip` | src/sql_dump.rs:715-773 | From a table's rows to the imported database: the dump that holds the exported batches imports back exactly if every batch leaves two bytes of the budget for its terminator, the other statements fit, and the database takes all and ends with the stated counts and fingerprint; it is rejected otherwise |
| `DumpTable.ExportedButNotImportable` | src/sql_dump.rs:744-766 | For every table of 33 columns there is a lexically safe row whose statement the exporter writes and that every import of every dump with it rejects, whatever the database |
| `Utf8.DecodesBack` | src/sql_dump.rs:895-907 | Decoding the encoding of any text gives it back |
| `Utf8.EncodesBack` | src/sql_dump.rs:895-907 | Bytes that decode are the encoding of their text, so hashing raw bytes and hashing text agree |
| `DumpStream.DigestWriter.WriteAll` | src/sql_dump.rs:577-612 | For every pattern of short writes the hashed bytes are the written bytes, all of them on success, and it fails only if the output does |
| `DumpStream.ReadLine` | src/sql_dump.rs:864-893 | For every chunking of the buffer the same line is read, lines are refused exactly over the budget, and it fails only if the input does |
| `DumpStream.LinesDecode` | src/sql_dump.rs:864-907 | The byte lines of an encoded text are the encodings of its text lines |
| `DumpCounts.ParseExpectedCounts` | src/sql_dump.rs:979-1017 | The field loop computes the specified parse, including every rejection |
| `DumpCounts.CountsRoundTrip` | src/sql_dump.rs:848-854 | The counts line an export writes is read back as the same counts |
| `DumpCounts.CountsAreExact` | src/sql_dump.rs:979-1017 | A line states the counts if and only if it is the prefix, three fields that name tables, rows and statements once each, in any order, with decimal values of 64 bits, and a line feed |
| `DumpCounts.FieldsSplit` | src/sql_dump.rs:985-995 | A space, tab, line feed, form feed or carriage return anywhere separates the fields before it from those after it |
| `DumpCounts.FieldsOfRun` | src/sql_dump.rs:985-995 | A text without such a blank is one field, and the empty text has none |
| `DumpImport.EngineAbsorbs` | src/sql_dump.rs:1064-1110 | The import loop absorbs a framed statement line by line and executes it after its last line |
| `DumpImport.RoundsOfStatements` | src/sql_dump.rs:1064-1110 | A list of framed statements is executed in order, each exactly once |
| `DumpImport.AcceptedExactly` | src/sql_dump.rs:1090-1110 | Framed statements are all absorbed if and only if each fits the budget and the database takes each in turn |
| `DumpImport.OneRefusedFails` | src/sql_dump.rs:1090-1110 | One framed statement anywhere that is over the budget or that the database does not take makes the whole import fail, whatever follows |
| `DumpRoundTrip.ExportDump` | src/sql_dump.rs:776-862 | The encoded dump is written and flushed with a footer that holds the digest of the bytes the writer hashed, unless the output fails |
| `DumpRoundTrip.ImportDump` | src/sql_dump.rs:1038-1163 | The outcome is a function of the bytes alone, raw lines hashed, however they are buffered, unless the input fails |
| `DumpRoundTrip.ExportImportRoundTrip` | src/sql_dump.rs:1038-1163 | Importing an exported dump recovers exactly its statements, counts, digest and fingerprint |
| `DumpRoundTrip.ImportDecides` | src/sql_dump.rs:1064-1163 | A dump of framed statements imports back if and only if each fits the import budget, the database takes each, and its counts and fingerprint are those stated; otherwise it is rejected |
| `DumpRoundTrip.ImportCoversEveryByte` | src/sql_dump.rs:1112-1140 | An import that succeeds has hashed exactly the bytes before the last line, and that line is a footer that holds this hash |
| `DumpSoundness.ImportIsSound` | src/sql_dump.rs:1038-1163 | An import that succeeds read three header lines with the fingerprint the database ended with, then exactly the executed statements, each taken in its turn, and one counts line with what they add up to, and a footer |
| `Publication.StepKeepsInv` | src/sql_dump.rs:1320-1373 | Every call, line read, failure, crash and foreign step keeps the staging database equal to what the import has executed and the target untouched or verified |
| `Publication.TargetIsUntouchedOrVerified` | src/sql_dump.rs:1320-1373 | In every run the target is as the others left it or holds a closed database that ran exactly a verified dump |
| `Publication.OwnStepsReplaceNothing` | src/sql_dump.rs:1191-1211 | The importer never changes an existing target, touches no third name and creates the target only by publishing a verified database |
| `Publication.SuccessMeansPublished` | src/sql_dump.rs:1364-1372 | A successful return means some publication step put the verified database at a free target |
| `PublicationCalls.SuccessMeansEveryCallSucceeded` | src/sql_dump.rs:1320-1373 | A successful return means that the nine calls, from inspecting the target to syncing its parent, were made in order and none failed, whatever others did |
| `PublicationCalls.ReturnedImportLeaves` | src/sql_dump.rs:1320-1373 | In a directory of its own the call that ends an import decides what is there: nothing new, the staging database exactly where its removal, sync or publication failed, or the target, with success exactly if the parent was synced |
| `Publication.FaultFreeImportPublishes` | src/sql_dump.rs:1320-1373 | Without faults and other processes a dump that imports is published, closed, and success is returned |
| `Publication.PublishedDatabaseIsTheExportedOne` | src/sql_dump.rs:1320-1373 | End to end with an exported dump: the target is as others left it or ran exactly the exported statements |
| `Sessions.ServerRuntime.AcquireConnection` | src/server/tcp_server.rs:180-194 | A permit is taken exactly when one is left |
| `Sessions.ServerRuntime.RegisterSession` | src/server/tcp_server.rs:196-221 | A fresh id that replaces no session, or an error that gives the permit back |
| `Sessions.ServerRuntime.ShutdownSessions` | src/server/tcp_server.rs:223-239 | Every registered session is cancelled even if streams fail to close; the lowest id's failure is reported |
| `Sessions.ServerRuntime.FinalPass` | src/server/tcp_server.rs:634-636 | After the pass behind the accept loop every registered session is cancelled, and the lowest id's failure is reported |
| `Sessions.ServerRuntime.PanicPass` | src/server/tcp_server.rs:616-624 | A panicked worker cancels every registered session before it leaves |
| `Sessions.ServerRuntime.DropRegistration` | src/server/tcp_server.rs:159-165 | Exactly this session leaves the registry, while its permit is still held |
| `Sessions.ServerRuntime.DropPermit` | src/server/tcp_server.rs:167-178 | Exactly one permit is given back |
| `Sessions.ServerRuntime.RunSteps` | src/server/tcp_server.rs:561-649 | Every interleaving leads exactly where taking its enabled steps in turn leads, with registered sessions <= permits = counter <= limit; after the final pass every session still served is cancelled |
| `Sessions.ShutdownIsBounded` | src/server/tcp_server.rs:561-649 | After the final pass, in any order, the steps taken and the work left never exceed the work the workers had then, none is added and no cancellation is taken back |
| `Sessions.ServerRuntime.StuckMeansDrained` | src/server/tcp_server.rs:561-649 | After the final pass only a server with no worker, permit or registration has no step left |
| `StorageReset.Directory.Rollback` | src/cli/mod.rs:1071-1117 | Exactly the reported members stay behind, and the report is the one the failing calls determine |
| `StorageReset.Directory.Reset` | src/cli/mod.rs:1060-1170 | What is told and what is left in quarantine are determined by the names and the failing calls; it commits with every member gone, every other name unchanged and, if no call failed, nothing in quarantine, or changes nothing but moving the members left; it is all or nothing if and only if the faults are recoverable; every member that is gone is reported if and only if no inspection failed after a move |
| `StorageReset.LeftIsReported` | src/cli/mod.rs:1131-1150 | What is left is what is reported if and only if the first failing call is no inspection after a move; otherwise nothing is reported although something is left |
| `StorageReset.FirstFaultDecides` | src/cli/mod.rs:1131-1150 | The first failing call alone decides how a reset ends: committed, refused, left without rollback or rolled back |
| `StorageReset.UndoIsComplete` | src/cli/mod.rs:1071-1117 | A rollback leaves nothing behind if and only if none of its inspections and renames fails |
| `StorageReset.CleanExactlyWhenRecoverable` | src/cli/mod.rs:1060-1150 | No member is left behind by a failed reset if and only if the first failing call and those after it meet the stated condition |
| `StorageReset.FailedInspectionStrandsAMember` | src/cli/mod.rs:1131-1135 | With the first member present, a failure of the second inspection leaves the first in quarantine, without rollback |
| `StorageReset.StrandedMember` | src/cli/mod.rs:1037-1046 | The same of an actual reset of a storage generation: CONTROL.0 ends in quarantine and the error names no member |
| `ResultWindow.CollectRows` | src/cli/mod.rs:84-133 | The streaming buffers hold exactly the head and tail window, or all rows without a limit; failure exactly on an unreadable row or beyond the budget |
| `ResultWindow.DescriptionIsTrue` | src/cli/mod.rs:1812-1845 | Head, tail and omitted counts describe exactly the split of the rows behind the window |
| `ExternalColumn.Compact` | src/server/value_codec.rs:212-249 | Every row keeps its bytes whatever gaps, overlaps or order the ranges have, offsets rise from 0 to the data's length; failure exactly on a malformed row or beyond 32-bit offsets |
| `ExternalColumn.SliceRows` | src/server/value_codec.rs:255-269 | Slicing commutes with row access and keeps the column well formed |
| `ExternalColumn.SlicesRebuild` | src/server/value_codec.rs:255-269 | However a column is cut into consecutive slices, joining them gives it back |
| `VerificationRun.SealedValidates` | scripts/prerelease_verification.py:991-1013 | What stage execution records is what stage validation accepts; what that is, file by file, is `VerificationRun.SealedListsEveryFile` and `VerificationRun.CheckIsExact` |
| `VerificationRun.SealedListsEveryFile` | scripts/prerelease_verification.py:1086-1154 | The boundary of an attempt lists exactly the other files of that attempt with their hashes, and the record holds the hash of the boundary |
| `VerificationRun.CheckIsExact` | scripts/prerelease_verification.py:991-1013 | A recorded stage is passed over if and only if its boundary is there with the recorded hash and fingerprint and every file it lists is there with the listed hash; otherwise the run ends as failed |
| `VerificationRun.ChangedFileIsCaught` | scripts/prerelease_verification.py:991-1013 | Changing or removing any listed file makes the next check end the run as failed |
| `VerificationRun.AttemptsAreConsecutive` | scripts/prerelease_verification.py:1016-1025 | Attempts are numbered one after the other up to 1000, and none after that can start |
| `VerificationRun.RunKeepsInv` | scripts/prerelease_verification.py:1231-1343 | Over any steps, crashes, resumes and tampering the recorded stages are a growing prefix of the plan, and passed means all are recorded |
| `VerificationRun.RecordedIsNeverExecutedAgain` | scripts/prerelease_verification.py:1321-1330 | No later step of any run executes a recorded stage |
| `VerificationRun.RunnerHasCovered` | scripts/prerelease_verification.py:1321-1330 | In every history since the directory did not exist, a working runner was started by some action with exactly the plan and fingerprint of the manifest, has not stopped since, and has itself checked the files of, or saved, the record of every stage it is past |
| `VerificationRun.PassedMeansCoveredInThatRun` | scripts/prerelease_verification.py:1280-1343 | If an action turns the status to passed, the run it belongs to has checked boundary, fingerprint and files of, or saved, the record of every stage of the plan, and every stage has its record |
| `VerificationRun.UntamperedRecordsValidate` | scripts/prerelease_verification.py:991-1013 | Unless files are tampered with, every resume accepts every record |
| `VerificationRun.StartsExactly` | scripts/prerelease_verification.py:1231-1277 | A runner starts if and only if the directory is new, or its manifest is the given plan and fingerprint; it starts at the first stage with what is recorded |
| `VerificationProgress.EnterIsExact` | scripts/prerelease_verification.py:1016-1025 | A stage without a record is entered with the next attempt number, or the run ends as failed after a thousand |
| `VerificationProgress.EndIsReported` | scripts/prerelease_verification.py:1300-1343 | However a runner stops, unless it crashes, the report says passed exactly if it reached the end of the plan, and failed or interrupted otherwise |
| `VerificationProgress.RecordedMeansSucceeded` | scripts/prerelease_verification.py:1086-1154 | A record is only ever made of a new attempt of the first unrecorded stage that the same runner entered, stayed in and left with success |
| `VerificationProgress.ResumedRunPasses` | scripts/prerelease_verification.py:1280-1343 | Wherever a run without tampering was interrupted, resuming it checks each record, executes each other stage once and passes, unless a stage has used up its attempts |

## Left out

- SQL parsing and execution, MVCC, the WAL, storage and indexes: the database is a parameter of the
  import (whether it accepts a statement, and its resulting schema fingerprint).
- SHA-256, the schema fingerprint, Unicode classes and the clock are parameters.
- Job procedures: what executing one reports is a parameter; `finalize_failure` texts and runtime
  counters are not modelled.
- Schedule.CoalescedIsLatestDueSlot: requires that now minus the stored slot fits 64 bits; beyond
  that the release build wraps around, which `Schedule.CoalescingWraps` describes.
- JobClaims.ClaimsStrictlyIncrease: speaks of runs whose exhaustions and resets store slots later than
  the newest claim, the exact condition, because it is false without (see `JobSlots.DisorderBreaksTheOrder`).
- JobLedger.Ledger.RunLoop: is about one database; the registry of databases, sleeping and the stop flag
  are not modelled.
- JobSlots.MissedSlotStarvesTheJob: speaks of clock readings past the missed interval and within 64 bits
  of the stored slot.
- JobSlots.VariantRunKeepsInv: speaks of clock readings within 64 bits of the stored slot, as the
  coalesced slot wraps around beyond.
- DumpReader.ValueReadsBack: the reader follows the parser on the statements an export writes, not on all of
  SQL; converting the literal of a cast, or an integer literal in a floating column, is the database's.
- DumpTable.TableRoundTrip: the statements before and after the table's rows are any framed ones; the
  printing of DDL statements is not modelled. Whether the database takes a statement, and the counts and
  fingerprint it then reports, are parameters.
- StorageReset.Directory.Reset: requires that quarantine names are distinct and not in use, as the process
  id and the time in them are meant to ensure, and that no other process writes to the directory.
- Publication.StepKeepsInv: the staging name is taken to be free and left alone by others, as its UUID
  is meant to ensure; the export's publication by a plain rename is not modelled.
- Sessions.ServerRuntime.RunSteps: panics are taken to unwind; the release profile aborts instead.
  Sockets, TLS and the peer monitor threads are not modelled.
- VerificationRun.RunKeepsInv: the runner's loop is a state machine on values, so that a crash can fall
  between any two of its steps; external evidence directories and command output are not modelled, and
  the status interrupted is one with failed.
- Rendering of DDL statements (`render_*`), plugin requirements, scalar value conversions,
  configuration, launcher and version checks: case tables that would add only easy members.
- `CliBatchSession`, command line presentation, benchmarks, examples and the other scripts.
