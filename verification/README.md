# Ledger verification

A Dafny model of the parts of the DLB trust platform that keep records: the notarization
chaincode, the resync and seeding of the remote general ledger, the balance download, the
ledger analytics, the offline cache of the mobile app and the wallet postings of an ACH
disbursement. Each part is modelled as the code does it, branch by branch, and its
promises are proved for all inputs, all runs and all interleavings.
`dafny verify dfyconfig.toml` checks everything.

Stateful code is modelled by classes and methods; each method is proved equal to a function
on values, and the promises are lemmas about those functions. What a function takes from a
constant, a text or a code of the source is also stated apart from it, in literals.

| file | part |
|---|---|
| `Lex.dfy`, `Decimal.dfy`, `CompositeKey.dfy` | string order, `%09d`, composite keys and range scans |
| `Notary.dfy` | the chaincode's entry points over the key/value store |
| `NotaryBook.dfy`, `NotaryGuarantees.dfy` | what the store means, and what an auditor may rely on |
| `NotaryMvcc.dfy` | concurrent endorsement and commit |
| `RemoteGl.dfy`, `Comments.dfy` | the remote ledger with its client's cache and circuit breaker, and the comments of its lines |
| `Reversals.dfy`, `LedgerSweeps.dfy` | what many reversals come to, and the loops that make them |
| `CircuitBreaker.dfy`, `Extremes.dfy` | how far refusals let a loop get, and the most a choice of transactions comes to |
| `Resync.dfy`, `ResyncRuns.dfy`, `ResyncLiterals.dfy` | steps 2 and 6 of the resync, what they reverse, and both in the route's own codes and texts |
| `ResyncGuarantees.dfy`, `TrueBalance.dfy` | the balance step 6 leaves, as it measures it and over all lines |
| `LostReplies.dfy`, `LostInPass.dfy` | that balance when replies get lost, in step 6 and in the step 2 before it |
| `DoubleEntry.dfy`, `ResyncFixpoint.dfy`, `Convergence.dfy` | equal debits and credits, when a second pass is idle, and how repeated passes settle |
| `GlSeeding.dfy`, `SeededCharts.dfy`, `SeededCorrection.dfy` | seeding accounts and mappings, account type by account type, and step 6 on a seeded ledger |
| `Csv.dfy` | the CSV printer and a reader for section 2 of RFC 4180 |
| `Seqs.dfy`, `Sums.dfy`, `Analytics.dfy`, `AnalyticsByRow.dfy` | lists without repetition, sums in either order, wallet flows, orphans, groupings, also row by row |
| `LedgerQuery.dfy`, `Paging.dfy` | filters and pages, and when pages tile a list |
| `OfflineCache.dfy` | the service worker's cache under interleaving |
| `Disbursement.dfy` | wallet postings and their log |

## What does not hold as it stands

* A history is returned oldest first only below a billion versions; from there on only its
  order is wrong (`HistoryInOrderIff`, `HistoryComplete`, `HistoriesOfAnyLength`).
* The client counts the ledger's refusals as failures and stops sending after three in a row
  (server/integrations/fineract/fineractClient.js:36-57, 139), while the sweeps call for a
  transaction once per line. So even with every call answered, the stale sweep is complete exactly
  when no transaction first comes up after three repeated ones in a row, and otherwise leaves some
  standing (`Step2Complete`, `StaleSweep`); three such calls also keep step 6 from running. A stale
  transaction of two debits and two credits before another is enough: `staleReversed` is 1 and the
  next pass changes the ledger (`FourLinesCutShort`).
* Equal debit and credit totals alone do not survive step 2, even when no call fails
  (`TotalAloneIsLost`). Whatever the replies, step 2 keeps them iff every duplicate and stale
  transaction balances by itself; step 6 iff it stays within its tolerance or every old
  correction balances by itself; both iff the former holds, and the latter too unless nothing
  step 2 can reverse brings the account out of tolerance (`Step2KeepsTotalIff`,
  `Step6KeepsTotalIff`, `RunKeepsTotalIff`).
* With every call answered, step 6 misses its target exactly when the ledger needs a correction
  and either codes 1100 and 3000 lead to one remote account or the old corrections open the
  circuit breaker, as one correction of four lines does (`CorrectionMeetsExpected`,
  `OneAccountStaysShort`, `FourLinesOpenBreaker`).
* A second pass is not idle exactly in three cases: the stale sweep was cut short; grouping threw
  and two spared transactions share a comment; or step 6 did not settle, for one account behind
  both codes or because the circuit breaker opened (`SecondRunIdleIff`, `SettlesUntripped`,
  `OneAccountNeverSettles`). Repeated passes, each begun with the circuit breaker at rest, do settle:
  as many of them as there were duplicate and stale transactions leave none of these
  (`PassesTidy`), and as many more as there were corrections, and two, end in passes that change
  nothing, unless one account stands behind both codes and is still short (`PassesSettle`).
* A comment such as "constructor" or "__proto__" makes the duplicate clean-up throw before it
  reverses anything (server/integrations/accounting/dataBridge.js:1219-1226, `InheritedNameHides`).
* An overstated bond account is left as it is, though the answer says "already correct"
  (server/routes/admin.js:570), exactly when it was out of tolerance and is too high without its
  old corrections as well (`OverstatementStays`).
* A reversal whose reply is lost leaves the old listing cached, and step 6 measures what is no
  longer there (`LostReversalsMislead`). The reply may be lost in step 6 or before it, so the exact
  conditions are on the ledger and on the listing cached when step 6 begins. Whatever the replies, a
  completed step 6 leaves the account at most 1 too low iff for both of them: where it shows the
  account within tolerance, the ledger is not more than 1 short; where it does not, the old
  corrections it calls for that raise the account come to no more than the account can lose
  (`FloorWhateverRepliesIff`). A posted correction is exact iff each of the two either shows the account
  not more than 1 short, or shows what the ledger does with no reversible correction touching the
  account (`ExactWhateverRepliesIff`). For a whole pass the same conditions are told from the ledger
  before it, for everything step 2 can have reversed and every listing it can have left cached
  (`RunFloorIff`, `RunExactIff`). Two small failures: an account 50 too high with one correction of 100 can
  end 50 too low and be reported as correct (`OverstatedEndsShort`); one manual entry of 100, where
  100 is expected, can be reversed unnoticed in step 2 and be reported within tolerance
  (`StaleEntryMisses`). Seeding rules out one account behind both codes, but not lost replies
  (`SeededCorrectionMeetsExpected`, `SeededWhateverReplies`, `SeededPass`).
* On a ledger that compensates reversals, the balance over all lines ends off by what was reversed
  (`TrueBalanceAfter`, `CorrectionCountedTwice`).
* One complete seeding run makes a mapping exact iff it saw the account listed or found no row of
  its code older than the account; two complete runs always do (`OneRunExactIff`,
  `StaleRowSurvivesFirstRun`, `SeedingConverges`).
* Pages may repeat a row iff a page ends between two rows of one creation time (`PagesTileIff`,
  `TiesMayRepeat`).
* Because the cache write is not awaited, an older page can overwrite a newer one for good
  (`StaleOverwrite`). In whatever state the worker is, the latest ok answer to a page is sure to end
  up cached iff at most one use of the page is outstanding and writes under way, or else the cache,
  carry that answer (`NeverStaleIff`). So a new fetch is safe iff nothing is outstanding for the page
  and the cache is up to date (`FetchSafeIff`), an install iff no answer is outstanding and every
  response being written is the one it got (`InstallSafeIff`).
* Both INSERT statements of a disbursement have seven placeholders and are run with eight values
  (server/routes/ach.js:178-193, 202-216). A driver that refuses them leaves only the debit
  (`StrictDriverDrains`); balances are conserved exactly when the debit's INSERT is taken and
  the beneficiary exists (`ConservedIff`).

## Model

| member | source | states |
|---|---|---|
| `Decimal.ReadFormatted` | chaincode/trustnotary/main.go:41 | Reading a `%09d` rendering back as a decimal number gives the version, for every integer |
| `Decimal.FormatInjective` | chaincode/trustnotary/main.go:41 | Two versions render alike only if they are equal |
| `Decimal.FormatMonotone` | chaincode/trustnotary/main.go:41 | Below 10^9 the renderings sort as strings the way the versions sort as numbers |
| `Decimal.FormatIsNineDigits` | chaincode/trustnotary/main.go:41 | Below 10^9 the rendering is nine decimal digits |
| `Decimal.FormatWrapsAtBillion` | chaincode/trustnotary/main.go:41 | The bound is tight: version 10^9 sorts before 999,999,999 |
| `CompositeKey.KeyInjective` | chaincode/trustnotary/main.go:36-42 | Composite keys of one arity with valid components are equal only if all components are |
| `CompositeKey.NamespacesApart` | chaincode/trustnotary/main.go:33-42 | A key of one object type is never a prefix of a key of another, whatever the arities |
| `CompositeKey.ScanIsPrefix` | chaincode/trustnotary/main.go:139 | The half-open key range of a partial-key query holds exactly the keys that continue the partial key (U+10FFFF aside) |
| `CompositeKey.ScanSelectsByLeadingParts` | chaincode/trustnotary/main.go:139 | A longer composite key lies in the range iff its leading components are those asked for |
| `Lex.SortedUnique` | chaincode/trustnotary/main.go:136-156 | A strict order leaves one way to list a collection, so a scan's order is determined |
| `Notary.Stub.NotarizeRecord` | chaincode/trustnotary/main.go:48-110 | Response, read set and write set are those of the pure simulation, in every branch: missing input, wrong length, bad key, bad JSON, same digest, new version |
| `Notary.Stub.AppendVersion` | chaincode/trustnotary/main.go:83-109 | The latest record and the history entry of a new version get the same bytes; a bad history key leaves the first write buffered and errs |
| `Notary.Stub.GetRecordHistory` | chaincode/trustnotary/main.go:138-163 | The result is the decoding of the entries a partial-key scan finds, or the error |
| `Notary.Stub.CollectVersions` | chaincode/trustnotary/main.go:145-156 | The iterator loop decodes every entry in scan order and errs on the first that does not decode |
| `Notary.RecordKeyOf` | chaincode/trustnotary/main.go:36-38 | A record key exists iff both components are valid, and is then the name of the record's latest cell |
| `Notary.HistoryKeyOf` | chaincode/trustnotary/main.go:40-42 | For a valid record the key of a version never errs and is the name of that version's cell |
| `Notary.NameInjective` | chaincode/trustnotary/main.go:33-42 | No two cells share a key: not two records, not two versions, not a latest record and a version |
| `Notary.ScanIsolation` | chaincode/trustnotary/main.go:139 | A history scan sees the versions of its own record and nothing else |
| `NotaryBook.SimulateFromBook` | chaincode/trustnotary/main.go:49-109 | On every state the invariant describes a call succeeds iff it is well-formed, appends version n+1 iff its digest is new, and otherwise returns the latest entry and writes nothing |
| `NotaryBook.NotarizeRefines` | chaincode/trustnotary/main.go:48-110 | One call turns a store that represents a book into a store that represents the book with that entry appended |
| `NotaryBook.NotarizeKeepsWellFormed` | chaincode/trustnotary/main.go:66-76 | Versions stay exactly 1..n, neighbouring digests differ, digests have length 64 |
| `NotaryBook.RunRefines` | chaincode/trustnotary/main.go:48-110 | After any run the store holds every cell as the book has it and no other key |
| `NotaryBook.HistoryCollapsesSubmissions` | chaincode/trustnotary/main.go:72-91 | A record's history is its accepted submissions with consecutive duplicates collapsed, each entry keeping metadata, transaction id and time of the first of its block |
| `NotaryBook.EntriesKeep` | chaincode/trustnotary/main.go:83-91 | Every entry holds its submission field by field, under its version |
| `NotaryBook.ScanSeesVersions` | chaincode/trustnotary/main.go:139-156 | A scan finds exactly the version keys of the record asked for |
| `NotaryBook.VersionKeysSorted` | chaincode/trustnotary/main.go:40-42 | Below 10^9 versions the keys of a history are in string order oldest first |
| `NotaryGuarantees.LatestIsLastEntry` | chaincode/trustnotary/main.go:115-134 | After any run GetRecord answers history entry n, and "never notarized" iff n = 0 |
| `NotaryGuarantees.TakenIff` | chaincode/trustnotary/main.go:48-59 | After any run a call with an ASCII digest succeeds iff that has 64 characters and record type and id are nonempty and free of U+0000 and U+10FFFF; one that is refused writes nothing |
| `NotaryGuarantees.RefusalSays` | chaincode/trustnotary/main.go:49-54 | On any store a call that lacks a part, or has a digest of another length, is refused with the text for it |
| `NotaryGuarantees.ByteLengthOfOne` | chaincode/trustnotary/main.go:52 | The length that is compared with 64 counts one to four bytes for a character, by its range |
| `NotaryGuarantees.TakenWrites` | chaincode/trustnotary/main.go:33-109 | After any run a successful call either repeats the latest digest, writes nothing and answers that entry, or writes its seven fields, under the next version, to the record's key and to that version's key, both given as texts, and to no other |
| `NotaryGuarantees.HistoryInOrderIff` | chaincode/trustnotary/main.go:136-162 | GetRecordHistory returns the history oldest first iff it has fewer than 10^9 versions |
| `NotaryGuarantees.HistoriesOfAnyLength` | chaincode/trustnotary/main.go:72-91 | Two digests submitted by turns make a history of any length, so both cases occur: the reader returns it oldest first iff it has fewer than 10^9 versions |
| `NotaryGuarantees.HistoryIsCollapsedSubmissions` | chaincode/trustnotary/main.go:48-110 | After any run over any mix of records GetRecordHistory returns exactly the collapsed submissions, iff they are fewer than 10^9 |
| `NotaryGuarantees.HistoryComplete` | chaincode/trustnotary/main.go:138-162 | With no bound at all, the entries returned are exactly those of the record; only their order can suffer |
| `NotaryGuarantees.OtherRecordsUnchanged` | chaincode/trustnotary/main.go:56-58 | On any store a call leaves what GetRecord and GetRecordHistory return for every other record unchanged |
| `NotaryGuarantees.HistoryCellsImmutable` | chaincode/trustnotary/main.go:97-107 | In every reachable state no call writes an existing history key, of any record |
| `NotaryGuarantees.HistoryOnlyGrows` | chaincode/trustnotary/main.go:44-47 | Continuing a run only extends a history |
| `NotaryMvcc.SimulateReadsRecordKey` | chaincode/trustnotary/main.go:61-64 | A successful simulation reads the record key alone and depends on the store through it alone |
| `NotaryMvcc.Serializable` | chaincode/trustnotary/main.go:61-107 | Every interleaving of endorsements and commits leaves the store that running the committed calls one after another in commit order gives |
| `NotaryMvcc.ConcurrentHistory` | chaincode/trustnotary/main.go:61-107 | After every interleaving a history is the committed submissions collapsed: no version is lost or duplicated |
| `NotaryMvcc.FirstCommitterWins` | chaincode/trustnotary/main.go:61-64 | Of two transactions that could both commit, the first blocks the second iff both are about one record and the first adds a version |
| `NotaryMvcc.BlindCommitsLoseAVersion` | chaincode/trustnotary/main.go:97-107 | Without the read of the record key two first notarizations of a record would overwrite version 1 and lose an entry |
| `RemoteGl.Fineract.Admit` | server/integrations/fineract/fineractClient.js:36-49 | A call is sent iff fewer than three failures in a row are on record, or the record has been reset since |
| `RemoteGl.Fineract.ReverseJournalEntry` | server/integrations/fineract/fineractClient.js:483-487 | A reversal that takes effect marks the whole transaction and appends compensating lines if the ledger does so; only a successful reply clears the cached listing and the failure count, every other reply, a refusal too, adds a failure, and an open circuit breaker sends nothing |
| `RemoteGl.Fineract.PostJournalEntry` | server/integrations/fineract/fineractClient.js:346-366 | A posting adds one debit and one credit line of a new transaction, also when its reply is lost; only a successful reply clears the cached listing and the failure count, and an open circuit breaker sends nothing |
| `RemoteGl.Fineract.GetJournalEntries` | server/integrations/fineract/fineractClient.js:173-220 | A listing comes from a fresh cache past the circuit breaker, else from the network unless it is open, else from a stale cache, else fails; it fails once or, retried, twice, but not past the threshold |
| `RemoteGl.ChangeIs` | server/integrations/fineract/fineractClient.js:36-57 | A change is sent iff fewer than three failures in a row count against it; it takes effect unless it is down, is reported done iff its reply arrives, and only then clears cache and failures; otherwise it counts as a failure if it was sent |
| `RemoteGl.RefusalIs` | server/integrations/fineract/fineractClient.js:50-57 | A refused reversal changes nothing and counts as a failure if it was sent |
| `RemoteGl.ListIs` | server/integrations/fineract/fineractClient.js:173-220 | What a listing shows, keeps cached and counts as failures, for every age of the cache, reply and count |
| `RemoteGl.ReverseKeepsTotalIff` | server/routes/admin.js:484-490 | A reversal keeps total debits minus total credits iff the transaction reversed is balanced |
| `RemoteGl.ReverseKeepsBalanced` | server/routes/admin.js:484-490 | Balance per transaction survives every reversal |
| `RemoteGl.BalancedTotal` | server/routes/admin.js:524-532 | Balance per transaction makes total debits equal total credits over unreversed lines |
| `RemoteGl.NetAfterPost` | server/routes/admin.js:561-567 | A posting adds its amount to the debited account and takes it from the credited one, and nothing if they are the same |
| `Comments.CorrectionIsKept` | server/routes/admin.js:485 | The comment step 6 posts is kept by the stale sweep and found again by the next correction |
| `Comments.ReversalIsKept` | server/routes/admin.js:485 | A comment that announces a reversal is neither stale nor a correction |
| `Comments.TrimIs` | server/routes/admin.js:483 | Trimming takes off exactly the white space around a text, listed character by character |
| `LedgerSweeps.WhereKeeps` | server/routes/admin.js:481-491 | What every reversal keeps, a sweep over a snapshot keeps, whichever calls fail or get lost |
| `Reversals.UndoStatus` | server/routes/admin.js:481-491 | After any reversals exactly those transactions are gone, and the others keep their comments |
| `Reversals.UndoNet` | server/routes/admin.js:524-532 | They change the sum over all unreversed lines, and over every account's, by the part of the transactions reversed, twice if the ledger compensates |
| `Reversals.UndoTargets` | server/routes/admin.js:482-485 | They leave the chosen lines of the other transactions to be chosen, and add none |
| `Reversals.UndoCovers` | server/integrations/accounting/dataBridge.js:1218-1244 | No comment is shared afterwards iff of every two transactions that shared one, one was reversed |
| `LedgerSweeps.LoopUndoes` | server/routes/admin.js:481-491 | Whichever calls fail or get lost, a loop reverses some of the transactions it calls for, each once, and clears the cache or leaves it |
| `CircuitBreaker.OpensIff` | server/integrations/fineract/fineractClient.js:39-56 | The failure count reaches its threshold iff three refusals came in a row, and till then every transaction that could be reversed has been |
| `CircuitBreaker.ReachesAllIff` | server/integrations/fineract/fineractClient.js:91-96 | A loop gets to all it could reverse iff none of them first comes up after three refusals in a row |
| `LedgerSweeps.LoopComplete` | server/routes/admin.js:481-491 | When every call that is sent is answered, it reverses all the ledger does not refuse iff no such transaction first comes up after three refusals in a row, and leaves the circuit breaker open iff there were three |
| `LedgerSweeps.SweepCounts` | server/routes/admin.js:480-491 | The sweep visits lines, yet as long as no reply is lost it counts the transactions it reverses |
| `Resync.CleanupDuplicates` | server/integrations/accounting/dataBridge.js:1198-1250 | The clean-up calls for the duplicates of its listing in order, or for nothing when the listing fails or grouping throws |
| `Resync.DuplicatesCover` | server/integrations/accounting/dataBridge.js:1208-1244 | Unless grouping throws, of any two unreversed transactions with the same comment at least one is called for |
| `Resync.DuplicatesAre` | server/integrations/accounting/dataBridge.js:1218-1244 | A transaction is called for iff grouping does not throw and an earlier one has the same non-empty comment |
| `Resync.NoVictims` | server/integrations/accounting/dataBridge.js:1229-1244 | Where no comment is shared nothing is chosen |
| `Resync.ReverseChosen` | server/routes/admin.js:481-491 | The loop with its swallowed failures does what the recursive sweep does to ledger and counter |
| `ResyncLiterals.StaleSweepIs` | server/routes/admin.js:481-491 | Under any replies the sweep calls for the transaction of every unreversed line whose trimmed comment is nonempty and begins with neither "Trust JE " nor "Reversal entry", and counts what succeeds |
| `ResyncLiterals.CalledForIff` | server/routes/admin.js:481-487 | It calls for a transaction iff the listing has such a line of it |
| `ResyncLiterals.KeptKindsAreSpared` | server/routes/admin.js:474-493 | Whatever the replies, step 2 leaves every transaction without such a line as it was, unless it is a duplicate |
| `ResyncLiterals.OthersAreReversed` | server/routes/admin.js:474-493 | With every call that is sent answered and the sweep not cut short, step 2 reverses a transaction iff it is a duplicate or has such a line |
| `ResyncLiterals.ThrowsIff` | server/integrations/accounting/dataBridge.js:1219-1226 | Grouping throws iff an unreversed transaction's comment is one of the twelve names listed |
| `Resync.Step2` | server/routes/admin.js:474-493 | Step 2 is clean-up, fresh listing and stale sweep; a failed listing reports nothing |
| `ResyncRuns.Step2Undoes` | server/routes/admin.js:474-493 | Whichever calls fail or get lost, step 2 reverses duplicates and stale transactions only, also when it reads a cached listing |
| `ResyncRuns.CleanupComplete` | server/integrations/accounting/dataBridge.js:1229-1244 | On a sound ledger the clean-up calls for every duplicate once, is never refused and leaves the circuit breaker closed |
| `ResyncRuns.SweepReaches` | server/routes/admin.js:478-492 | On any ledger the stale sweep reverses, and counts, what a loop over its lines can get to |
| `ResyncRuns.Step2Complete` | server/routes/admin.js:474-492 | When every call that is sent is answered, step 2 on a sound ledger reverses every duplicate, and every stale transaction iff none first comes up after three repeated ones in a row; staleReversed counts the distinct stale ones reversed that are not duplicates |
| `ResyncRuns.StaleSweep` | server/routes/admin.js:478-492 | Then every unreversed comment is empty or begins "Trust JE " or "Reversal entry" iff the sweep was not cut short, every other transaction still stands, and no comment is shared iff none of those left shared one, as always unless grouping threw |
| `Resync.Measure` | server/routes/admin.js:525-532 | The measuring loop computes debits minus credits over the unreversed lines of the account |
| `Resync.Step6` | server/routes/admin.js:508-576 | Step 6 takes the same branch, makes the same calls and reports the same outcome as its function |
| `ResyncLiterals.CorrectionDebitsBonds` | server/routes/admin.js:516-567 | With every call that is sent answered and accounts a behind 1100 and b behind 3000: a correction of d is posted iff a is more than 1 off and more than 1 short without its old corrections; a then ends at its expected value, b falls by d, and every other account is as reversing the old corrections leaves it |
| `ResyncLiterals.CorrectionLines` | server/routes/admin.js:561-567 | Whatever the replies and the cache, what a corrected step 6 posts is one debit of a and one credit of b, of one amount above 1, with the comment spelled out |
| `ResyncLiterals.CorrectionLoopIs` | server/routes/admin.js:538-545 | The loop over old corrections calls for the transaction of every unreversed line whose trimmed comment begins "Trust JE balance-correction:" |
| `ResyncLiterals.NetOfMore` | server/routes/admin.js:524-532 | One more line counts for an account as a debit, against it as a credit, and not at all if it is reversed or of another account |
| `ResyncLiterals.UnmappedIsReported` | server/routes/admin.js:516-520 | Without an account behind 1100 or 3000 nothing is done, and that is reported |
| `ResyncGuarantees.CorrectionMeetsExpected` | server/routes/admin.js:534-573 | When every call that is sent is answered, step 6 posts iff the ledger needs a correction and its old ones do not open the circuit breaker; the balance ends at most 1 below the expected value, and exact after a posting, unless a correction is needed and both codes lead to one account or the circuit breaker opens |
| `ResyncGuarantees.OverstatementStays` | server/routes/admin.js:558-571 | The balance ends more than 1 too high iff it was out of tolerance and is too high without the old corrections reversed, and this is reported as already correct unless the circuit breaker opened |
| `ResyncGuarantees.OneCorrectionStands` | server/routes/admin.js:538-567 | Past the tolerance exactly one correction stands if one was needed, and none otherwise; with the circuit breaker open those the loop did not get to |
| `ResyncGuarantees.OneAccountStaysShort` | server/routes/admin.js:516-567 | With both codes on one account the empty ledger gets a correction and stays short |
| `ResyncGuarantees.FailuresAreHarmless` | server/routes/admin.js:537-573 | Between distinct accounts, whichever calls fail, a completed step 6 ends at most 1 below its target and exact after a correction, as long as no reply is lost |
| `LostReplies.FloorWhateverRepliesIff` | server/routes/admin.js:537-573 | Whatever listing is cached, under every reply pattern, lost replies included, a completed step 6 between two accounts ends at most 1 below its target iff, of the ledger and of the cached listing: shown within tolerance, the ledger is at most 1 short; shown otherwise, the corrections called for that raise the account come to no more than it can lose |
| `LostReplies.ExactWhateverRepliesIff` | server/routes/admin.js:537-568 | Whatever listing is cached, a posted correction is exact under every reply pattern iff the ledger and the cached listing each show the account at most 1 short, or as it is with no reversible correction touching it |
| `LostReplies.LostReversalsMislead` | server/integrations/fineract/fineractClient.js:483-487 | Shown any listing, and with the replies to reversing any choice of its corrections lost, step 6 measures that listing again and ends off by what those reversals took off and by what the listing had wrong |
| `LostReplies.OverstatedEndsShort` | server/routes/admin.js:558-571 | The failing side: 50 too high with one correction of 100 whose reversal goes unnoticed, reported as already correct and 50 too low |
| `LostInPass.Step2Hides` | server/integrations/fineract/fineractClient.js:483-487 | Step 2 can reverse any part of the duplicates and stale transactions and leave cached a listing that shows none of it reversed |
| `LostInPass.ShownAfterStep2` | server/routes/admin.js:474-493 | Whatever step 2 reversed, a listing shown after it shows all of that reversed, nothing of it, or the part the clean-up did |
| `LostInPass.RunFloorIff` | server/routes/admin.js:474-573 | A completed pass of steps 2 and 6 ends at most 1 below its target under every reply pattern iff the account bears it for every choice of what step 2 reverses and of which part a listing shows; told from the ledger before the pass |
| `LostInPass.RunExactIff` | server/routes/admin.js:474-568 | A correction posted by a pass is exact under every reply pattern iff for every such choice the listing shows the account at most 1 short, or as it is with no correction left that touches it |
| `LostInPass.StaleEntryMisses` | server/routes/admin.js:478-573 | The failing side: one manual entry of 100 reversed unnoticed; with 100 expected step 6 reports it within tolerance, with 300 it posts 200, and the account is short by the reversal |
| `DoubleEntry.Step2Takes` | server/routes/admin.js:474-493 | Any part of the duplicates and stale transactions can be exactly what step 2 reverses, by a reply pattern given outright |
| `Extremes.Between` | server/routes/admin.js:524-532 | What any choice of transactions comes to lies between those that lower and those that raise the account |
| `DoubleEntry.Step2KeepsTotalIff` | server/routes/admin.js:474-493 | Step 2 keeps debits minus credits under every reply pattern iff each duplicate and stale transaction it could reverse balances by itself |
| `DoubleEntry.Step6KeepsTotalIff` | server/routes/admin.js:508-576 | Step 6 keeps debits minus credits under every reply pattern iff it lacks a mapping, is within tolerance, or each correction it could reverse balances by itself |
| `DoubleEntry.DoubleEntryKept` | server/routes/admin.js:474-576 | Whichever calls fail or get lost in steps 2 and 6, debits minus credits stay the same if the transactions the two could reverse balance by themselves; others need not |
| `DoubleEntry.RunKeepsTotalIff` | server/routes/admin.js:474-576 | Both steps keep debits minus credits under every reply pattern iff what step 2 could reverse balances and so do the corrections, unless a mapping is missing or no choice of what step 2 could reverse brings the account out of tolerance |
| `DoubleEntry.TotalAloneIsLost` | server/routes/admin.js:478-491 | A stale and a trust entry that balance each other only: step 2 loses the balance though no call fails |
| `DoubleEntry.StaysBalanced` | server/routes/admin.js:474-576 | Balance in every transaction survives both steps, whatever the replies and whatever was cached |
| `TrueBalance.TrueBalanceAfter` | server/integrations/fineract/fineractClient.js:545-551 | On a ledger that compensates, where step 6 leaves the balance over all lines; a posting makes it exact iff it was below the measured one by just the old corrections reversed |
| `TrueBalance.CorrectionCountedTwice` | server/integrations/fineract/fineractClient.js:545-551 | Without earlier reversals it ends too high by the old corrections |
| `ResyncFixpoint.FirstPass` | server/routes/admin.js:474-576 | A pass in which every call that is sent is answered leaves something stale iff its sweep was cut short, and a shared comment iff two transactions it spared shared one |
| `ResyncFixpoint.Step6Again` | server/routes/admin.js:508-576 | On what it left, step 6 does nothing iff it was within tolerance, or posted between two accounts, or posted nothing and left the account not short and too high only without old corrections |
| `ResyncFixpoint.SecondRunIdleIff` | server/routes/admin.js:474-576 | With every call that is sent answered, a second pass, begun with the circuit breaker at rest, changes nothing iff the first's stale sweep was not cut short, grouping did not throw with two spared transactions sharing a comment, and step 6 settled; all read off the ledger before the first pass |
| `ResyncFixpoint.PassIdleIff` | server/routes/admin.js:474-576 | A pass changes nothing iff there is no duplicate or stale transaction and step 6 finds the account within tolerance, or not short with no old correction standing |
| `ResyncFixpoint.SettlesUntripped` | server/routes/admin.js:508-576 | With no three refusals in a row, step 6 settles unless it posts with both codes on one account |
| `ResyncFixpoint.FourLinesCutShort` | server/routes/admin.js:481-491 | A stale transaction of two debits and two credits before another: staleReversed is 1, and the second pass changes the ledger |
| `ResyncFixpoint.FourLinesOpenBreaker` | server/routes/admin.js:538-576 | One correction of two debits and two credits: its reversal opens the circuit breaker, nothing is posted, the account stays short, and the second pass changes the ledger |
| `Convergence.PassesTidy` | server/routes/admin.js:474-493 | From a sound ledger, with every call sent answered and each pass begun with the circuit breaker at rest, as many passes as there were duplicate and stale transactions (at most the unreversed ones), or more, leave no stale transaction, no shared comment and nothing for step 2 to reverse |
| `Convergence.PassesSettle` | server/routes/admin.js:474-576 | After as many more passes as there were corrections, and two, a pass changes nothing iff not both codes lead to one account that is still more than 1 short |
| `ResyncFixpoint.OneAccountNeverSettles` | server/routes/admin.js:516-567 | With both codes on one account and an empty ledger the second pass is not idle |
| `ResyncFixpoint.InheritedNameHides` | server/integrations/accounting/dataBridge.js:1219-1226 | Two trust entries with one comment beside a "constructor": the second pass is not idle |
| `ResyncGuarantees.GoodNotesExist` | server/routes/admin.js:485 | Reversal comments as assumed of the remote ledger exist, with and without compensating lines |
| `GlSeeding.SeedJob.SeedAccount` | server/routes/admin.js:338-383 | One iteration makes the same calls in the same order, and stops where a call fails |
| `GlSeeding.SeedJob.Loop` | server/routes/admin.js:333-383 | The loop over the chart of accounts, with its two counters, is the recursive loop |
| `GlSeeding.SeedJob.Run` | server/routes/admin.js:318-389 | A run is health check, listing, chart and loop; the first failure aborts it where it stands |
| `GlSeeding.RowsInserted` | server/routes/admin.js:346-352 | The conditional insert adds the first row of a code and touches no other code and no other mapping type |
| `GlSeeding.RowsUpdated` | server/routes/admin.js:353-356 | The update sets the id in every row of a code, keeps their number, and touches no other row |
| `GlSeeding.SeedOneEvolves` | server/routes/admin.js:338-383 | Past an account of known type the code has an account and a row, and exact rows if it was listed; an account is added iff "created" is counted |
| `GlSeeding.RunEvolves` | server/routes/admin.js:318-389 | A run, aborted or not, removes nothing and spoils no exact mapping; a complete one reports exactly the accounts it added |
| `GlSeeding.NoneCreatedAfterComplete` | server/routes/admin.js:323-373 | After a complete run no later one creates an account, and a later complete one makes every mapping exact |
| `GlSeeding.SeedingConverges` | server/routes/admin.js:323-383 | Once two runs were complete, whatever ran around them, every trust account of known type has its account, every row of its code holds that id, and there is one such row unless there were more before |
| `GlSeeding.OneRunExactIff` | server/routes/admin.js:338-383 | With rows older than any id still to be given out: iff it saw the account listed or found no row of its code |
| `GlSeeding.StaleRowSurvivesFirstRun` | server/routes/admin.js:376-382 | The failing side on the smallest table |
| `SeededCharts.RunMirrors` | server/routes/admin.js:316-366 | Every account a run adds, aborted or not, has the code and name of a trust account and its type, 1 for asset, 2 for liability, 3 for equity, 4 for income, 5 for expense |
| `SeededCharts.FiveTypesPresent` | server/routes/admin.js:333-383 | Past one complete run every trust account of those five types has a remote account and a trust_journal row |
| `SeededCharts.FiveTypesExact` | server/routes/admin.js:333-383 | Past two complete runs, whatever ran around them, all its trust_journal rows hold the id of its account |
| `SeededCharts.OtherTypesLeftAlone` | server/routes/admin.js:360-361 | A code that is not listed and that no trust account of the five types has gets neither account nor row |
| `SeededCharts.AttemptIs` | server/routes/admin.js:363-382 | A call is known to have succeeded iff its reply arrives, and takes effect unless it was down |
| `SeededCharts.OpeningCalls` | server/routes/admin.js:318-331 | A run gets to its loop iff health check, listing and chart succeed; until then it changes nothing |
| `SeededCharts.NewAccountRow` | server/routes/admin.js:363-382 | An account is created under a new id, and described in its row, if it is the first of its code, by its name and type |
| `SeededCharts.ListedRowsSay` | server/routes/admin.js:338-357 | Past a listed account all rows of its code hold its id and name it |
| `GlSeeding.ExactIsMapped` | server/routes/admin.js:510-517 | In whatever order the rows come, an exact code maps to the id of its account |
| `SeededCorrection.SeededCorrectionMeetsExpected` | server/routes/admin.js:508-576 | On a seeded ledger with distinct ids step 6 always finds its mappings, and as long as no reply is lost a completed one meets its target |
| `SeededCorrection.SeededWhateverReplies` | server/routes/admin.js:508-576 | With lost replies, whatever listing is cached, it meets its target, and its corrections are exact, under the two exact conditions for distinct accounts |
| `SeededCorrection.SeededPass` | server/routes/admin.js:474-576 | So does a whole pass of steps 2 and 6, under the two conditions told from the ledger before it |
| `SeededCorrection.Step6OnRows` | server/routes/admin.js:508-576 | The mapping is the loop over the rows of the query, and step 6 runs on it |
| `Csv.ReadField` | server/routes/accounting.js:170-173 | A printed field reads back as itself, whatever it contains |
| `Csv.ParsePrinted` | server/routes/accounting.js:174-178 | Any printed table of non-empty rows reads back exactly |
| `Csv.DownloadRoundTrip` | server/routes/accounting.js:169-178 | The download reads back as the header and one record per account, seven fields each |
| `Csv.HeaderRow` | server/routes/accounting.js:169 | The first record read back is the seven header texts |
| `Csv.QuotedIff` | server/routes/accounting.js:170-173 | A field is quoted iff it has a quote, a comma or a line break |
| `Csv.ColumnsMatchHeaders` | server/routes/accounting.js:169-177 | The record of an account shows its seven values in the order of the headers, a missing one as nothing |
| `Csv.DownloadInjective` | server/routes/accounting.js:169-178 | Two downloads are the same text iff they show the same values |
| `Sums.Exchange` | server/routes/analytics.js:233-250 | Summing wallet by wallet and summing row by row agree |
| `Sums.PartitionSum` | server/routes/analytics.js:312-350 | Sums over groups with distinct keys that cover the rows add up to the sum over the rows |
| `Analytics.ReceivedMinusSent` | server/routes/analytics.js:233-280 | Over wallets with distinct ids, received minus sent is what came from nowhere minus what went nowhere, corrected by orphaned ends; in cents and in counts |
| `AnalyticsByRow.LinePerWallet` | server/routes/analytics.js:229-277 | Every wallet has its line, in the order of the table, and without transactions it shows zeros |
| `AnalyticsByRow.OneMoreTransaction` | server/routes/analytics.js:233-250 | One more transaction adds 1 and its absolute cents to what its target received and its source sent, if its status is "completed", and changes no other wallet |
| `AnalyticsByRow.OrphanCounts` | server/routes/analytics.js:744-754 | The two counts are the numbers of rows that name a source, or a target, no wallet has |
| `Analytics.OrphanCountIs` | server/routes/analytics.js:744-754 | The outer join counts every transaction that names a missing wallet once |
| `Analytics.FlowsReconcile` | server/routes/analytics.js:233-280 | If the data-quality route reports no orphans, received minus sent is the one-ended amounts, and zero when every completed transaction has both ends |
| `Analytics.CountsTwice` | server/routes/analytics.js:275-277 | Without orphans and with both ends present, the wallets' transaction counts add up to twice the number of completed transactions |
| `Analytics.GroupingPartitions` | server/routes/analytics.js:312-350 | Counts, absolute amounts and nets of a grouping add up to those of the filtered list |
| `Analytics.GroupingsAgree` | server/routes/analytics.js:312-408 | Category, method and month counts each sum to total_count, category and method totals agree, monthly nets sum to the signed amounts |
| `AnalyticsByRow.SumOfMore` | server/routes/analytics.js:312-349 | The sums of the three groupings below grow by one row's part at a time, from zero |
| `AnalyticsByRow.CategoryGroup` | server/routes/analytics.js:312-325 | The group of a category counts and adds up the rows with that category |
| `AnalyticsByRow.MethodGroup` | server/routes/analytics.js:327-336 | The group of a payment method counts and adds up the rows with that method |
| `AnalyticsByRow.MonthGroup` | server/routes/analytics.js:339-349 | The group of a month counts the rows whose time begins with its seven characters, and adds up their positive and their negative amounts apart |
| `LedgerQuery.BuildWhere` | server/routes/analytics.js:301-310 | Pushing conditions and parameters in turn yields the numbered clause |
| `LedgerQuery.WhereMeansFilters` | server/routes/analytics.js:301-310 | For every choice of filters the clause selects exactly the rows meeting the filters given, also with LIMIT and OFFSET appended, which the next two numbers bind |
| `LedgerQuery.NewestFirst` | server/routes/analytics.js:366 | No row of a listing is newer than one before it |
| `LedgerQuery.ListingUnique` | server/routes/analytics.js:353-368 | With distinct creation times the listing is determined |
| `LedgerQuery.PagesTile` | server/routes/analytics.js:353-368 | With distinct creation times n pages, each a query of its own, hold exactly the first n * limit rows in order |
| `Paging.PagesTileIff` | server/routes/analytics.js:353-368 | Pages that cover the list tile it, whatever listing each query produces, iff no page ends between two rows of one creation time |
| `Paging.TiesMayRepeat` | server/routes/analytics.js:366-367 | Two rows of one time on pages of one: the same row twice and the other never |
| `OfflineCache.ServiceWorker.OnFetch` | public/dapp/mobile-service-worker.js:26-35 | The handler takes over exactly the GET requests of the origin whose path is precached |
| `OfflineCache.ShellIsTakenOver` | public/dapp/mobile-service-worker.js:1-29 | What is taken over is exactly a GET of the origin for one of the five paths listed |
| `OfflineCache.InstallAsks` | public/dapp/mobile-service-worker.js:1-13 | An install asks for those paths, in order, and writes the responses only if all five came back ok |
| `OfflineCache.ActivateKeeps` | public/dapp/mobile-service-worker.js:15-22 | Activation keeps exactly the caches named "dlbtrust-mobile-v3" |
| `OfflineCache.WriteGoesTo` | public/dapp/mobile-service-worker.js:40 | A write goes to the cache of that name, created if need be, and to no other |
| `OfflineCache.OldestAnswers` | public/dapp/mobile-service-worker.js:44 | An offline page comes from the oldest cache that has it |
| `OfflineCache.ServiceWorker.OnResponse` | public/dapp/mobile-service-worker.js:37-43 | An answer is passed on; an ok one also starts a write that is not awaited |
| `OfflineCache.RunKeepsSafe` | public/dapp/mobile-service-worker.js:11-45 | In every interleaving whatever is cached, being written or answered offline is a response the network gave as ok to that very request |
| `OfflineCache.OthersUntouched` | public/dapp/mobile-service-worker.js:26-29 | A request the worker does not take over is never answered from a cache and never changes one |
| `OfflineCache.DisciplinedStaysFresh` | public/dapp/mobile-service-worker.js:36-44 | Whatever other requests do, a request used one at a time has its latest ok answer cached once its write is done |
| `OfflineCache.OfflineAnswerIsNewest` | public/dapp/mobile-service-worker.js:36-44 | Under that discipline and without older caches an offline page is the newest response the network ever gave |
| `OfflineCache.StaleOverwrite` | public/dapp/mobile-service-worker.js:36-44 | Two fetches one after the other, whose writes complete in the other order, leave the older response cached for good |
| `OfflineCache.NeverStaleIff` | public/dapp/mobile-service-worker.js:11-45 | In any state whose contents were earned, the latest ok answer to a page ends up cached, however all outstanding answers and writes finish, iff it is awaited at most once, not while it is written, every write of it under way carries the latest ok answer, and with none under way the cache does |
| `OfflineCache.FetchSafeIff` | public/dapp/mobile-service-worker.js:30-45 | After a new fetch of a page it does iff, when it began, no answer or write for the page was outstanding and the cache held the latest ok answer |
| `OfflineCache.InstallSafeIff` | public/dapp/mobile-service-worker.js:11-17 | After a complete install it does iff no answer for the page is outstanding and every response being written for it is the one the install got |
| `Disbursement.Database.Disburse` | server/routes/ach.js:162-223 | Wallets and rows end as the posting function says, including where an exception is swallowed |
| `Disbursement.TrustIsDebited` | server/routes/ach.js:166-193 | The first wallet whose role is "trust_entity" loses the cents, and no other wallet changes unless the beneficiary is credited; the row logged, if it is taken, says so |
| `Disbursement.BeneficiaryIsCredited` | server/routes/ach.js:166-217 | With that row taken the beneficiary's wallet gains the cents, every other wallet stays as it is, and the two rows say so |
| `Disbursement.NoTrustNoPosting` | server/routes/ach.js:168 | Without such a wallet a posting changes nothing |
| `Disbursement.PostMoves` | server/routes/ach.js:166-217 | One posting takes the cents from the trust's wallet and adds them to the beneficiary's, changes no other balance, and nets to zero when they are one wallet |
| `Disbursement.ConservedIff` | server/routes/ach.js:166-217 | Over any run the sum of all balances is unchanged iff every disbursement of more than zero cents has its debit logged and an existing beneficiary |
| `Disbursement.ChainAdjacent` | server/routes/ach.js:178-216 | In a chained log one row's balance_after is the balance_before of the wallet's next row |
| `Disbursement.LogExplainsBalances` | server/routes/ach.js:166-217 | With all rows taken, every wallet's rows chain from its first balance to its present one and add up to the difference |
| `Disbursement.LogRecordsPostings` | server/routes/ach.js:178-216 | With all rows taken and existing beneficiaries, the log is exactly the disbursements made, in order, two rows each, each naming the other wallet |
| `Disbursement.StrictDriverDrains` | server/routes/ach.js:178-222 | A driver that refuses eight values for seven placeholders drains the trust's wallet, credits nobody and leaves no row |

## Assumptions

* Fabric: state is read in ascending key order, partial-key scans cover a half-open key range,
  composite keys reject U+0000 and U+10FFFF, a transaction commits iff the keys it read are
  unchanged. Timestamps and transaction ids are inputs. Strings are valid Unicode.
* JSON: encoding and decoding are abstract functions that undo each other.
* The remote ledger: a transaction is reversed as a whole and once only; a reversal may append
  compensating lines with a trimmed comment that begins "Reversal entry" and names the
  transaction; all entries fit one page. Every call may succeed, fail, or take effect although
  the caller sees a failure, a cached listing may be fresh, stale or expired, and the circuit
  breaker may have been reset, by time or by another request, at any call. Where a theorem says that
  every call sent is answered, it is not reset in between: a pass takes its calls within half
  a minute of each other, as it does once calls are rejected unsent. A listing
  cached when step 6 begins is of an earlier ledger: it has no correction the ledger does not know.
  Where a theorem says so, a listing cached when a step or a pass begins is up to date: nothing but
  this client posted since, and no reply was lost since. Comments
  and transaction ids do not look like array indices, so objects keyed by them keep insertion
  order. It refuses a second account with the same code. The account listing may be a cached,
  shorter one.
* PostgreSQL: the meaning of WHERE, LEFT JOIN, GROUP BY, ORDER BY, LIMIT and OFFSET is the one
  written out in `Analytics.dfy` and `LedgerQuery.dfy`; all queries of one request see the
  same rows. Amounts are integer cents and never NULL. Listed rows carry their primary key.
* The Cache API: `match` looks through the caches oldest first, `addAll` and `put` take effect
  at once or not at all.
* SQLite: ids of wallets are unique; an UPDATE that finds its row succeeds. The wallet id of a
  disbursement is given, as the route checks before (server/routes/ach.js:88-92).
* The table of trust accounts holds the five account types only (server/scripts/migrate-docs-accounting.sql:104-106),
  so no type is named like an inherited property.

## Left out

- Notary.Stub.NotarizeRecord: versions are unbounded integers, so the overflow of Go's `int` at 2^63 is not modelled; errors of the stub other than a rejected key are not modelled.
- Notary.Stub.GetRecordHistory: the final JSON encoding of the list of versions is left out, and a query returns all results however many there are.
- Resync.Step6: money is `real` instead of floating point, the expected face value is a parameter, and the posting date and office are left out.
- Resync.CleanupDuplicates: the error list and the count of reversals it returns are left out.
- RemoteGl.Fineract.GetJournalEntries: which errors are retried is left to the reply, which says whether the listing failed once or twice.
- RemoteGl.Fineract.Admit: failures of other requests, which share the circuit breaker, appear as failing replies.
- ResyncRuns.Step2Complete: needs a ledger that refuses no duplicate, as a sound one does; for any other, `CleanupReaches` and `SweepReaches` give each half.
- LostInPass.RunFloorIff: the pass begins with nothing cached or with an up-to-date listing; for any other cached listing `FloorWhateverRepliesIff` covers step 6.
- LostInPass.RunExactIff: likewise, and `ExactWhateverRepliesIff` covers step 6.
- GlSeeding.SeedJob.Run: the circuit breaker only decides which reply a call gets, so it is left to the replies; `updated_at`, the account's usage and the detailed result list are left out; the three reads before the loop only succeed or fail.
- Csv.DownloadRoundTrip: account values arrive as text or are missing, so JavaScript's rendering of numbers is left out; a carriage return is data to the reader.
- Analytics.WalletBreakdown: the last activity date and the copied wallet columns are left out.
- Analytics.GroupingsAgree: dollars, averages, first and last dates and the order of the groups are left out.
- LedgerQuery.BuildWhere: parsing of limit and offset is left out; they are natural numbers.
- OfflineCache.ServiceWorker.OnFetch: the HTTP cache mode of `mobile.html`, the `Vary` header, `skipWaiting` and `clients.claim` are left out.
- Disbursement.Database.Disburse: validation, the transfer itself, and the description, reference, status and time of a row are left out.
- Steps 1, 3, 4 and 5 of the resync, and the administrative log: they work through engines not described by these routes, so the cache and the circuit breaker pass from step 2 to step 6 as step 2 leaves them.
- The engines under `server/integrations` other than the duplicate clean-up, and the thin routes over them.
- HTTP, authentication, rate limits, start-up, the user interfaces and PDF generation.
- The next business day, the role classifier and the percentage scores: they would only add easy members.
