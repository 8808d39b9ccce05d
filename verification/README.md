# Verification of the accounting backend's core logic

This Dafny 4.11 project models the parts of the accounting backend whose correctness is hardest to
see from the code, and proves what they promise for every input, every run or every reachable state.
`dafny verify dfyconfig.toml` checks all of it.

| files | part |
|---|---|
| `SqlLexer`, `SqlPieces`, `SqlSplitter`, `SqlNormalForm`, `Migrations` | the SQL statement splitter of the migration tool, and its crash-and-resume runner |
| `Ledger`, `LedgerMeaning`, `LedgerStore`, `LedgerRuns`, `LedgerConservation`, `LedgerIntegrity`, `LedgerInterleaving` | transactions, accounts and categories; balances as an incrementally kept index; serial and interleaved runs |
| `Import`, `ImportMeaning`, `ImportTheorems`, `ImportOverlap`, `ImportMoney` | preview and import of rows, duplicate handling, idempotence, overlapping imports |
| `LoginLimiter`, `LoginProtocol` | the pruned failure map against the full history; the check-then-act login protocol |
| `TokenRevocation` | token windows, revocation entries, the middleware |
| `Grouping`, `Reports`, `BalanceTrend`, `Months`, `Gregorian`, `Budgets`, `ReportMeaning` | report queries, period tables, running balances, month ranges, the civil calendar, budgets, what they show of the transactions |
| `ReportKeys`, `ReportCache` | cache keys, the read-through cache and its invalidation |
| `Money`, `MoneyTexts` | cents, floating-point amounts and the texts that write them |
| `Percent`, `PercentTexts`, `ContentDisposition`, `DispositionParser`, `HeaderTexts`, `DispositionRoundTrip` | file names in download headers, printed in Go and parsed in TypeScript |
| `JsonFields` | the duplicate-field check over JSON tokens |
| `Pagination` | listing by pages and the links between them |
| `Common`, `Text`, `Decimal`, `Clock` | shared helpers |

Code that updates state in place is modelled by methods with loops and by classes whose methods are
tied to specification functions; the theorems are about those functions. Concurrency is modelled by
runs of atomic steps. Rounding is a function on reals with the error bound of IEEE doubles. What the
program takes from outside (clock readings, failing writes, interruptions, case folding, printing of
times, the meaning of SQL statements, verified token claims) is a parameter over which the theorems quantify.
The modules named `Meaning`, `Pieces` and `Texts` say what the specification functions come to without them.

Referential integrity holds without any condition: the code reads and checks outside the transactions that
write, and the foreign keys of the schema refuse exactly what would break it (`RefusedExactly`,
`EveryRunKeeps`). Six other promises turned out not to hold unconditionally. Each is proved with its exact
condition, next to a concrete run or input for which it fails:

- Balances: an update or delete reads its row before its transaction. `CommitConserves` says exactly
  when the commit conserves; `DoubleDeleteDrifts` shows the failure.
- Importing twice: the in-file key is coarser than the comparison with the ledger, a zero time is replaced
  by now, and rows are looked up before the transaction that writes. `ReimportAddsNothing` says exactly when
  a second import adds nothing, `OverlapAddsNothing` when an overlapping one does; `OverlapStoresAgain`
  and `RowsApart` show the failure.
- Revoked tokens: a request parses its token before it asks the store. `AcceptedExactly` says when a
  revoked token passes; `StraddlingRequest` shows it.
- Cached reports: imports do not invalidate, keys drop fractions of a second, and a fill can overlap a
  write and its invalidation. `FreshExactly` says exactly when a served report is fresh whatever its
  sections compute; `ImportGoesUnseen`, `FractionsCollide` and `FillRacesWrite` show the failures, and
  `ServedIsFresh` what excludes all three.
- Exact cents: `ExactUnderEveryRounding` says exactly which amounts the error bound of doubles keeps
  acceptable, `ExactOnDoubles` which ones the doubles themselves accept; `ExactFailsAbove` gives one that
  they refuse.
- Months of a range: each end is read in its own zone. `EndMonthListed` and `MonthsCover` say exactly when
  the end's month and when every time's month is listed; `NothingListed` gives a range without any.

The documentation says that only amounts with more than two decimals are refused; the code also refuses
some large amounts with two decimals, and the model follows the code.

## Model

| member | source | states |
|---|---|---|
| SqlLexer.NextTokenWellFormed | backend/cmd/dbmigrate/main.go:195-257 | Each lexeme has the shape of its kind: a line comment up to its newline, a block comment up to the first `*/`, a quotation in which every inner quote is doubled, a dollar body up to the first repetition of its tag; only an unclosed one lacks its terminator |
| SqlLexer.LexConserves | backend/cmd/dbmigrate/main.go:188-266 | The lexemes spell exactly the input, all are well formed, and only the last can be unclosed: no byte is lost and at most one quoting mode is active |
| SqlLexer.SplitGroups | backend/cmd/dbmigrate/main.go:188-266 | Statements are the lexemes grouped between top-level semicolons with every comment turned into one space: bytes are emitted, dropped as comment, or consumed as a top-level `;` |
| SqlLexer.DollarTagText | backend/cmd/dbmigrate/main.go:283-295 | A recognised dollar tag is a prefix of the text, runs from dollar sign to dollar sign and holds only letters, digits and underscores between |
| SqlSplitter.SkipLineComment | backend/cmd/dbmigrate/main.go:268-273 | Returns the index of the newline that ends the comment, or the end of the text |
| SqlSplitter.SkipBlockComment | backend/cmd/dbmigrate/main.go:275-281 | Returns the index of the comment's last byte, or the end of the text for an unclosed comment |
| SqlSplitter.DollarQuote | backend/cmd/dbmigrate/main.go:283-295 | Finds the tag at a dollar sign exactly when there is a well-formed one, also the empty one `$$` |
| SqlSplitter.SkipComment | backend/cmd/dbmigrate/main.go:196-205 | Jumping over a comment leaves the same statements to come as one space in its place |
| SqlSplitter.ReadDollar | backend/cmd/dbmigrate/main.go:216-225 | Inside a dollar quotation the closing tag leaves the mode and any other byte is kept, without changing what the rest of the text will give |
| SqlSplitter.ReadByte | backend/cmd/dbmigrate/main.go:227-259 | One step of the byte switch: quote flags flip except at a doubled quote, both flags are never set together, and a semicolon ends the statement exactly outside both |
| SqlSplitter.SplitSQLStatements | backend/cmd/dbmigrate/main.go:188-266 | The index-jumping scanner with its two flags, tag and buffer returns exactly what the token grammar says, for every input |
| SqlPieces.StartsDollarExactly | backend/cmd/dbmigrate/main.go:283-295 | A dollar quotation starts exactly where some text begins with a dollar sign, letters, digits and underscores or nothing, and a dollar sign |
| SqlPieces.PieceReads | backend/cmd/dbmigrate/main.go:195-257 | A comment, quotation with doubled quotes, dollar body, semicolon or other character, written in front of any text that it does not run into, is read as exactly itself |
| SqlPieces.SplitSpelling | backend/cmd/dbmigrate/main.go:188-266 | Splitting what such pieces spell gives the statements between the semicolons, comments become a space, bodies are never cut, blank statements are dropped |
| SqlPieces.EveryTextIsSpelled | backend/cmd/dbmigrate/main.go:188-266 | Every text is spelled by such pieces, so this says what splitting does for all inputs |
| Text.TrimMeans | backend/cmd/dbmigrate/main.go:248-264 | Trimming takes spaces, tabs and line ends off both ends, and leaves none there |
| SqlNormalForm.SplitComposes | backend/cmd/dbmigrate/main.go:188-266 | split(a;b) = split(a) + split(b) for all b if and only if a ends outside quotes and comments |
| SqlNormalForm.RawClean | backend/cmd/dbmigrate/main.go:196-205 | The text of a statement, with comments replaced by spaces, never contains a new comment or a top-level semicolon, and is closed when a semicolon ends it |
| SqlNormalForm.TrimLeftKeeps | backend/cmd/dbmigrate/main.go:248-264 | Trimming on the left keeps a comment-free text comment-free and a closed one closed |
| SqlNormalForm.TrimRightKeeps | backend/cmd/dbmigrate/main.go:248-264 | Trimming on the right keeps a comment-free text comment-free and a closed one closed, also inside unclosed quotations and dollar bodies |
| SqlNormalForm.SplitNormal | backend/cmd/dbmigrate/main.go:188-266 | Every result is a normal form: trimmed, non-empty, comment-free statements, all but the last closed |
| SqlNormalForm.SplitIdempotent | backend/cmd/dbmigrate/main.go:188-266 | Every returned statement is trimmed, non-empty and splits to exactly itself, and splitting the `;`-join of the result gives the result again |
| SqlNormalForm.SplitImage | backend/cmd/dbmigrate/main.go:188-266 | A list of statements is the result of splitting some text if and only if it is a normal form |
| Migrations.VersionInjective | backend/cmd/dbmigrate/main.go:113-115 | Different *.sql file names have different versions |
| Migrations.VersionNames | backend/cmd/dbmigrate/main.go:113-115 | The version of a *.sql file is its name without that ending |
| Migrations.ListingDistinct | backend/cmd/dbmigrate/main.go:97-116 | The sorted directory listing has no version twice |
| Migrations.Migrator.Apply | backend/cmd/dbmigrate/main.go:128-140 | One file: all its statements and its version record, or, when a statement fails, the state before; objects that exist already are passed over |
| Migrations.Migrator.RunMigrations | backend/cmd/dbmigrate/main.go:97-146 | The loop over the files, interrupted anywhere, ends in the specified state, success and sent statements, and executes what it says it does |
| Migrations.RunRecords | backend/cmd/dbmigrate/main.go:119-143 | Recorded versions are only ever added, each once, and a successful run records every file |
| Migrations.RunMeans | backend/cmd/dbmigrate/main.go:97-146 | A run takes the data step by step through the statements of the unrecorded files up to some file, in order, each statement working or meeting an existing object; records and data are those of these files alone, whether it succeeds with all, is interrupted, or fails at the first statement of the next file that breaks; what is sent are exactly those statements, and the failing file's up to the one that breaks |
| Migrations.InterruptedRunsResume | backend/cmd/dbmigrate/main.go:97-146 | After any number of interrupted runs one uninterrupted run ends in the same database, record and outcome as a single uninterrupted run |
| Migrations.RunsKeepPrefix | backend/cmd/dbmigrate/main.go:97-146 | On a fresh database the record is a prefix of the sorted file list after every sequence of interrupted runs |
| Migrations.RunAfterSuccess | backend/cmd/dbmigrate/main.go:119-127 | A run after a successful one changes nothing and sends no statement |
| LedgerStore.Store.CreateWithDB | backend/internal/modules/transactions/service.go:140-177 | Inserts the row and moves its account's balance, with the source's error order; two writes |
| LedgerStore.Store.Create | backend/internal/modules/transactions/service.go:79-95 | Row and balance change together or not at all, wherever a write fails; its effect is one operation of the serial runs |
| LedgerStore.Store.CreateManyWithDB | backend/internal/modules/transactions/service.go:127-137 | Creates all requests in order, or reports an error |
| LedgerStore.Store.CreateMany | backend/internal/modules/transactions/service.go:98-124 | One transaction for the batch: everything or nothing; its effect is one operation of the serial runs |
| LedgerStore.Store.CommitUpdate | backend/internal/modules/transactions/service.go:214-224 | The transaction of an update: the effect that was read is reverted, the new one applied, the row saved, or all of it undone, also when a foreign key refuses the row |
| LedgerStore.Store.CommitDelete | backend/internal/modules/transactions/service.go:238-245 | The transaction of a delete: the effect that was read is reverted and the row removed, or both undone |
| LedgerStore.Store.Update | backend/internal/modules/transactions/service.go:180-229 | Read, check and commit of an update with nothing in between; its effect is one operation of the serial runs |
| LedgerStore.Store.Delete | backend/internal/modules/transactions/service.go:232-249 | Read and commit of a delete with nothing in between; its effect is one operation of the serial runs |
| LedgerStore.Store.FindOrCreateCategoryWithDB | backend/internal/store/store.go:280-313 | The user's own category of that name, else the system one, else a new one; an empty name is an error |
| LedgerStore.Store.FindOrCreateAccountWithDB | backend/internal/store/store.go:319-339 | The user's account of that name (a default for an empty one), else a new one with balance 0 |
| LedgerStore.Store.AddAccount | backend/internal/modules/accounts/service.go:34-53 | A new account with the given balance, or the source's error; its effect is one operation of the serial runs |
| LedgerStore.Store.UpdateAccount | backend/internal/modules/accounts/service.go:56-79 | Reads the row and writes all of it back with the given balance; its effect is one operation of the serial runs |
| LedgerStore.Store.RemoveAccount | backend/internal/modules/accounts/service.go:82-96 | Removes an account that no transaction of its owner uses; its effect is one operation of the serial runs |
| LedgerStore.Store.AddCategory | backend/internal/modules/categories/service.go:35-50 | A new category of the user; its effect is one operation of the serial runs |
| LedgerStore.Store.ChangeCategory | backend/internal/modules/categories/service.go:52-73 | Changes name and type of an own category, also of one in use; its effect is one operation of the serial runs |
| LedgerStore.Store.RemoveCategory | backend/internal/modules/categories/service.go:75-97 | Removes an own category that no transaction uses; its effect is one operation of the serial runs |
| LedgerMeaning.CreateMeans | backend/internal/modules/transactions/service.go:140-177 | A transaction is created exactly when its request keeps the rules, the first broken one being reported; the row holds what was asked for and every account gains what it is worth there |
| LedgerMeaning.UpdateMeans | backend/internal/modules/transactions/service.go:180-229 | An update, also one committed later, writes type, exact cents, category, account, note, tags, time and source that were asked for, keeps owner and all other rows, and moves each account by the new worth less the old |
| LedgerMeaning.DeleteMeans | backend/internal/modules/transactions/service.go:232-249 | A delete removes the user's row alone and takes back what it was worth |
| LedgerMeaning.CreateAccountMeans | backend/internal/modules/accounts/service.go:34-53 | The account has the user, the trimmed name, the type or "custom", and exactly the balance that was asked for |
| LedgerMeaning.UpdateAccountMeans | backend/internal/modules/accounts/service.go:56-79 | The balance is what was asked for, name and type where given, else the old ones |
| LedgerMeaning.DeleteAccountMeans | backend/internal/modules/accounts/service.go:82-96 | An account goes when it is the user's and unused; deleting none is no error |
| LedgerMeaning.CreateCategoryMeans | backend/internal/modules/categories/service.go:35-50 | The category is the user's own with the trimmed name and the normalised type |
| LedgerMeaning.UpdateCategoryMeans | backend/internal/modules/categories/service.go:52-73 | Name and type change where given, of an own category only |
| LedgerMeaning.DeleteCategoryMeans | backend/internal/modules/categories/service.go:75-97 | An own category goes when it is unused |
| LedgerMeaning.FindCategoryMeans | backend/internal/store/store.go:250-278 | A name finds the user's own category of that type with the least key, else the system's, else none |
| LedgerMeaning.FindAccountMeans | backend/internal/store/store.go:319-330 | A name, or the default for a blank one, finds the user's account with the least key |
| LedgerConservation.CreateConserves | backend/internal/modules/transactions/service.go:140-177 | Creating a transaction keeps every account's balance less the signed sum of its stored transactions |
| LedgerConservation.CreateManyConserves | backend/internal/modules/transactions/service.go:127-137 | So does a batch |
| LedgerConservation.CommitShifts | backend/internal/modules/transactions/service.go:180-249 | An update or delete commit shifts each account's balance less its signed sum by exactly the stored row's signed amount there minus the snapshot's; a refused one by nothing |
| LedgerConservation.CommitConserves | backend/internal/modules/transactions/service.go:180-249 | A commit conserves every balance if and only if it is refused or the stored row still has the effect that was read |
| LedgerConservation.NextDrift | backend/internal/modules/transactions/service.go:79-249 | Of all events - creates, batches, reads, commits, account and category edits, failed transactions - only a stale commit or writing the account's row moves that difference |
| LedgerConservation.RunDrift | backend/internal/modules/transactions/service.go:79-249 | Over every run of interleaved reads and commits, an account's balance less its signed sum is its base plus the shifts of the stale commits |
| LedgerConservation.RunConserves | backend/internal/modules/transactions/service.go:79-249 | While snapshots are current at commit and nobody writes the account's row, its balance changes by exactly the change of its signed sum |
| LedgerConservation.DoubleDeleteDrifts | backend/internal/modules/transactions/service.go:232-249 | Two deletes that both read the row before either commits revert it twice: the exact drift of the interleaving |
| LedgerIntegrity.PerformKeeps | backend/internal/modules/transactions/service.go:139-310 | Every operation keeps referential integrity: positive cents, type exactly income or expense, the owner's existing account, an existing category that is system or the owner's |
| LedgerIntegrity.RunKeeps | backend/internal/modules/transactions/service.go:139-310 | Every state of every serial run from an intact database is intact |
| LedgerIntegrity.SeededRunKeeps | backend/internal/store/store.go:193-219 | In particular from the seeded database |
| LedgerIntegrity.RemoveAccountKeeps | backend/internal/modules/accounts/service.go:82-96 | Deleting an account leaves no transaction without its account: counting the caller's transactions finds every reference, so that the foreign key never has to refuse |
| LedgerIntegrity.RemoveCategoryKeeps | backend/internal/modules/categories/service.go:75-97 | The same for deleting a category |
| LedgerIntegrity.EditCategoryKeeps | backend/internal/modules/categories/service.go:52-73 | Editing a category, even its type, keeps integrity |
| LedgerIntegrity.RefusedExactly | backend/migrations/mysql/0001_initial_schema.sql:65-66 | The foreign keys refuse exactly the commits whose writes would break integrity, whatever happened since their reads |
| LedgerIntegrity.CommitKeeps | backend/internal/modules/transactions/service.go:214-245 | So every commit keeps integrity, amounts, types and owners included |
| LedgerIntegrity.AccountRefusedExactly | backend/migrations/mysql/0001_initial_schema.sql:66 | Taking an account out of its table breaks integrity if and only if the foreign key refuses it |
| LedgerIntegrity.CategoryRefusedExactly | backend/migrations/mysql/0001_initial_schema.sql:65 | Taking a category out of its table breaks integrity if and only if the foreign key refuses it |
| LedgerIntegrity.StaleUpdateRefused | backend/internal/modules/transactions/service.go:180-229 | An update whose target account is deleted between its read and its commit is refused and leaves the database as it is, where its writes would have broken integrity |
| LedgerRuns.NextSound | backend/internal/modules/transactions/service.go:79-249 | Under any interleaving no key is handed out twice, and every key that a request in flight holds was handed out |
| LedgerInterleaving.NextKeeps | backend/internal/modules/transactions/service.go:79-249 | Every event keeps integrity with any requests in flight, and keeps what they have read fit to be written |
| LedgerInterleaving.InterleavedRunKeeps | backend/internal/modules/transactions/service.go:79-249 | So does every run of interleaved reads, commits, edits and removals |
| LedgerInterleaving.EveryRunKeeps | backend/internal/store/store.go:193-219 | In particular every state of every interleaved run from an intact or the seeded database is intact, without any condition |
| LedgerInterleaving.PerformIsRun | backend/internal/modules/transactions/service.go:79-249 | Each operation of the serial runs does what its events do when nothing runs between them |
| Import.CountDataRows | backend/internal/modules/dataio/parser.go:218-226 | Counts the rows that are not empty |
| Import.Importer.PreviewRows | backend/internal/modules/dataio/service.go:67-105 | The preview loop gives every row the specified verdict, counts them and keeps the first rows as a sample |
| Import.Importer.Collect | backend/internal/modules/dataio/service.go:219-250 | The import's first loop gives every row the specified verdict and collects exactly the records to store, in order |
| Import.Importer.WriteBatch | backend/internal/modules/dataio/service.go:252-286 | The batch is written as a whole or not at all, and fails exactly when a name or a request is refused or a write fails |
| Import.Importer.ImportRows | backend/internal/modules/dataio/service.go:219-287 | Totals and ledger after an import: the whole batch or the unchanged ledger |
| ImportTheorems.VerdictsUnique | backend/internal/modules/dataio/service.go:67-105 | Rows and ledger determine every verdict, so preview and import judge each row alike |
| ImportTheorems.PreviewAgrees | backend/internal/modules/dataio/service.go:67-287 | Equal totals, skipped = duplicates, and on commit failed = failed and success = valid - duplicates; in every outcome, rollback included, total = success + failed + skipped |
| ImportTheorems.RepeatMeaning | backend/internal/modules/dataio/service.go:234-249 | A row is a repetition of row j if and only if j is an earlier kept row with the same key; a row already in the ledger is never repeated by a later one |
| ImportTheorems.RepeatsExactly | backend/internal/modules/dataio/service.go:347-357 | Row k repeats row j if and only if j is an earlier kept row whose record has the same second, type, cents, category and account up to case and space, note and tags |
| ImportMeaning.RecordMeans | backend/internal/modules/dataio/parser.go:185-216 | A row is a record when its cells are a time, a type and a positive amount, else the first of these is reported; the record holds the cells, with the default names for blank ones |
| ImportMeaning.TagsJoined | backend/internal/modules/dataio/service.go:392-404 | The tags of a text are those before a comma, then those after it |
| ImportMeaning.TagsSingle | backend/internal/modules/dataio/service.go:392-404 | Without a comma a text is one trimmed tag, or none |
| ImportMeaning.DuplicateMeans | backend/internal/modules/dataio/service.go:360-389 | The ledger has a record when the user has a transaction of the same time, type, cents, note and tags, with the category and account that the names find |
| ImportMeaning.VerdictMeans | backend/internal/modules/dataio/service.go:219-250 | Exactly which rows are blank, bad and why, already in the ledger, or kept |
| ImportMeaning.UnskippedMeans | backend/internal/modules/dataio/service.go:219-250 | Without skipping, every record is kept |
| ImportMeaning.ResultMeans | backend/internal/modules/dataio/service.go:219-287 | The totals count exactly these rows, and after a rollback every record as failed |
| ImportMeaning.PreviewMeans | backend/internal/modules/dataio/service.go:67-105 | The sample is the first twenty rows that are not blank, by line, and the preview says whether there are more |
| ImportMeaning.KeptRecords | backend/internal/modules/dataio/service.go:225-250 | The records handed to the batch are those of the kept rows, in the order of the file |
| ImportMeaning.BatchMeans | backend/internal/modules/dataio/service.go:252-286 | The batch stores each record as the user's transaction of its type, cents, time, note and tags, from source import, in the category and on the account of its names |
| ImportTheorems.StoredMeaning | backend/internal/modules/dataio/service.go:360-389 | A row that repeats nothing is skipped exactly when the ledger holds the record |
| ImportTheorems.StableCategory | backend/internal/store/store.go:250-313 | Find-or-create never changes a category lookup that already succeeds |
| ImportTheorems.StableAccount | backend/internal/store/store.go:319-339 | Nor an account lookup |
| ImportTheorems.CreateManyStores | backend/internal/modules/transactions/service.go:127-177 | A batch stores one row for each request, in order, with a zero time replaced by now, and touches no other row |
| ImportTheorems.DuplicatesAfter | backend/internal/modules/dataio/service.go:360-389 | After the batch the ledger holds a record if and only if it did before or a stored record is the same entry |
| ImportTheorems.ReimportAddsNothing | backend/internal/modules/dataio/service.go:219-389 | Importing the same rows again stores nothing if and only if each record was in the ledger before or is, in exact names and time, a stored one with a non-zero time |
| ImportTheorems.ImportTwice | backend/internal/modules/dataio/service.go:219-389 | Then the second import leaves the ledger as it is, with success 0 and the first run's successes skipped |
| ImportOverlap.AddsNothing | backend/internal/modules/dataio/service.go:234-249 | Every row being looked up at a moment of its own, an import adds nothing if and only if the ledger had each record when that record was looked up |
| ImportOverlap.OverlapAddsNothing | backend/internal/modules/dataio/service.go:219-286 | When another import of the same rows commits after c rows were looked up, an import adds nothing if and only if the ledger had the records of the first c rows before, and each of the others was there or is the same entry as a stored one; c = 0 is importing twice |
| ImportOverlap.OverlapStoresAgain | backend/internal/modules/dataio/service.go:252-286 | However many imports commit, each stores every record it found fresh in a row that stays, also one stored since by another |
| ImportOverlap.RowsApart | backend/internal/modules/dataio/service.go:252-286 | The rows that two imports store are different rows: the record is there twice |
| ImportTheorems.DecidedRepeatable | backend/internal/modules/dataio/service.go:347-357 | It suffices that rows with equal in-file keys have identical names and times and that times are not zero |
| ImportTheorems.BatchKeepsIntegrity | backend/internal/modules/dataio/service.go:252-286 | A committed import keeps referential integrity |
| ImportMeaning.BatchSucceeds | backend/internal/modules/dataio/service.go:252-286 | A batch succeeds if and only if every record alone has a type, a category and an amount in exact positive cents; names and empty notes never refuse it |
| ImportMeaning.JobStates | backend/internal/modules/dataio/service.go:122-202 | A job is queued with the number of rows that count, runs with it, and ends with the figures of its run, completed exactly without a failed row |
| ImportMeaning.DataRowsAre | backend/internal/modules/dataio/parser.go:218-230 | The rows that count are those with a cell that is not blank, each once |
| ImportTheorems.JobReportsRun | backend/internal/modules/dataio/service.go:168-202 | A finished job carries the run's totals, which add up, and has failed exactly when a row failed |
| ImportMoney.ConversionsAgree | backend/internal/shared/money/money.go:12-25 | The exact conversion returns what the plain one returns, or refuses: what the import theorems assume of the conversions holds of the real ones |
| ImportMoney.ImportedCentsSurvive | backend/internal/modules/dataio/service.go:266-277 | The cents read from a row are the cents the ledger stores and the duplicate key holds, for every amount the exact conversion keeps: up to the bound of its exact condition, and whole units up to 2^50 cents |
| LoginLimiter.Limiter.PruneExpired | backend/internal/modules/auth/rate_limiter.go:105-111 | Removes exactly the entries whose window is over |
| LoginLimiter.Limiter.Allow | backend/internal/modules/auth/rate_limiter.go:34-48 | The pruned map answers as the reference fold over the full, never pruned history of failures and successes |
| LoginLimiter.Limiter.RetryAfter | backend/internal/modules/auth/rate_limiter.go:51-71 | Answers the reference's waiting time, positive exactly for blocked keys |
| LoginLimiter.Limiter.RecordFailure | backend/internal/modules/auth/rate_limiter.go:74-91 | Keeps map and history in agreement: counts in the open window or opens a new one |
| LoginLimiter.Limiter.RecordSuccess | backend/internal/modules/auth/rate_limiter.go:94-102 | Keeps map and history in agreement: clears the key |
| LoginLimiter.CountedMeaning | backend/internal/modules/auth/rate_limiter.go:74-91 | What the reference counts is real: a window opened by a failure, and the number of the key's failures since, all inside it and with no success between |
| LoginLimiter.NothingCounted | backend/internal/modules/auth/rate_limiter.go:94-102 | Nothing is counted exactly when the key has no failure since its last success |
| LoginLimiter.BlockEndsOnTime | backend/internal/modules/auth/rate_limiter.go:51-71 | A key told to wait r stays blocked at every time before now + r and is allowed from now + r on, whatever other keys do and however many of its own late failures come in; only a success ends it earlier |
| LoginLimiter.SuccessClears | backend/internal/modules/auth/rate_limiter.go:94-102 | A success clears its key and changes no other key's answer |
| LoginLimiter.NewFromConfig | backend/internal/modules/auth/handler.go:249-254 | No limiter exactly when a setting is not positive |
| LoginLimiter.KeySeparates | backend/internal/modules/auth/rate_limiter.go:114-116 | Two attempts share a counter exactly when address and name agree up to surrounding space and case |
| LoginProtocol.Login | backend/internal/modules/auth/handler.go:66-95 | One login: refused exactly when the history says so and then nothing is counted; otherwise wrong name and wrong password count one failure, success clears, server errors count nothing; without a limiter nothing is refused |
| LoginProtocol.RunsAreBounded | backend/internal/modules/auth/handler.go:66-95 | Under every interleaving of the locked steps, failures recorded in a window plus attempts still in flight stay within maxFailures + N - 1 |
| LoginProtocol.FailuresBounded | backend/internal/modules/auth/handler.go:66-95 | So no window ever holds more than maxFailures + N - 1 failures when at most N attempts with one key are in flight |
| LoginProtocol.BoundReached | backend/internal/modules/auth/handler.go:66-95 | Some run reaches that number, so no smaller bound holds |
| TokenRevocation.NewTokenWindow | backend/internal/middleware/auth.go:76-111 | A new token stands for its user from its making until its last whole second and the leeway are over, and for nobody later |
| TokenRevocation.ParseTokenExactly | backend/internal/middleware/auth.go:96-111 | A token stands for a user if and only if its claims are right, their subject is the number of that user, and the time lies inside the window stretched by the leeway |
| TokenRevocation.ValidBearerTokenValue | backend/internal/middleware/auth.go:245-269 | The two-flag scan accepts exactly texts of at most 4096 characters that are token characters followed by padding |
| TokenRevocation.RunsKeepCovered | backend/internal/modules/auth/token_revoker.go:37-45 | Through every run the entry of a revoked token lasts at least until its expiry plus leeway, other revocations and repeated ones included |
| TokenRevocation.RevokeMeans | backend/internal/modules/auth/handler.go:211-235 | When a revocation is done, refused or failed, and the one entry it writes, for what is left of the window |
| TokenRevocation.RevokedStaysOut | backend/internal/modules/auth/handler.go:211-235 | After a successful revocation with the store up, in every run, no request with the token is accepted that asks the store before the window ends, or that parses the token after |
| TokenRevocation.AcceptedExactly | backend/internal/middleware/auth.go:169-214 | After a revocation and in every run, repeated revocations included, a request with the token is accepted if and only if it parsed inside the window, the store answered, and it asked after the entry that the last revocation set had ended |
| TokenRevocation.StraddlingRequest | backend/internal/middleware/auth.go:188-208 | That gap between parsing and asking is real: a token of the service, revoked in time, is accepted two nanoseconds after its window's last |
| TokenRevocation.OthersUnaffected | backend/internal/modules/auth/token_revoker.go:37-45 | Revoking other tokens never changes a token's acceptance |
| TokenRevocation.UnrevokedStaysIn | backend/internal/middleware/auth.go:194-207 | From an empty store, after any run that does not revoke it, a token is accepted exactly while it parses, unless the store is asked and does not answer |
| TokenRevocation.DisabledPromisesNothing | backend/internal/modules/auth/token_revoker.go:29-45 | Without a store a revocation changes nothing |
| TokenRevocation.Gate.RequireAuth | backend/internal/middleware/auth.go:169-214 | Goes on exactly for one well-formed header with a current token that has no lasting entry; each of the other answers has its exact condition |
| TokenRevocation.Gate.RevokeToken | backend/internal/modules/auth/handler.go:211-235 | Without a revoker it succeeds at once; otherwise it refuses a token that does not parse and writes an entry for what is left of its window |
| TokenRevocation.Gate.Logout | backend/internal/modules/auth/handler.go:129-147 | Reports success exactly when the revocation is done |
| TokenRevocation.Gate.Refresh | backend/internal/modules/auth/handler.go:108-127 | Hands out a new token exactly for a known user whose old token's revocation is done and when making the new one succeeds |
| Decimal.DigitsRead | backend/internal/middleware/auth.go:84-86 | A printed number is digits without a needless zero and reads back as itself |
| Decimal.PaddedNumber | backend/internal/middleware/auth.go:102-108 | Digits stand for a positive number if and only if they are it, with zeros before it |
| Grouping.GroupingConserves | backend/internal/modules/reports/service.go:498-504 | Any result of GROUP BY keeps the sum and count of every condition on the grouping columns |
| Grouping.SpreadAll | backend/internal/modules/reports/service.go:498-504 | Classes that cover a condition, each taken once, add up to the whole of it |
| Reports.QueryReads | backend/internal/modules/reports/service.go:121-131 | A report reads, once each and by key, exactly the user's transactions between its times, both included, of its category and account where it names them |
| Reports.SummaryTableRows | backend/internal/modules/reports/service.go:492-543 | One row for each period with data, in order, with exactly that period's income, expense, balance and count |
| ReportMeaning.SumsCount | backend/internal/modules/reports/service.go:500 | A sum starts at nothing and takes each transaction that satisfies its condition once, with its cents, and no other |
| ReportMeaning.TableLists | backend/internal/modules/reports/service.go:492-543 | The rows of a table are in order, and a period has one if and only if one of the transactions lies in it |
| ReportMeaning.TableRowMeans | backend/internal/modules/reports/service.go:509-538 | A row shows its period's income, its other amounts, their difference and the number of transactions, said of the transactions alone |
| ReportMeaning.TrendLists | backend/internal/modules/reports/service.go:259-303 | The points of the trend are in order, and a period has one if and only if one of the transactions lies in it |
| ReportMeaning.TrendPointMeans | backend/internal/modules/reports/service.go:277-302 | A point shows its period's income and its other amounts, said of the transactions alone |
| Reports.Trend | backend/internal/modules/reports/service.go:259-303 | One point for each period with data, in order, with its income and expense: overwriting is as good as adding, since a period and type have one row |
| Reports.SumIncomeExpense | backend/internal/modules/reports/service.go:133-155 | The sums of the selected income and of everything else |
| Reports.RowsConserve | backend/internal/modules/reports/service.go:492-543 | Day, week and month rows all add up to the selected transactions' income, expense and number, whatever the periods |
| Reports.MonthsAreDays | backend/internal/modules/reports/service.go:459-467 | Each month row's income, expense, balance and count are the sums of its own day rows |
| BalanceTrend.NetByPair | backend/internal/modules/reports/service.go:363-374 | One key for each period and account, with its net amount |
| BalanceTrend.Accumulate | backend/internal/modules/reports/service.go:382-394 | Over keys sorted by account and period the running map gives each account's signed sum up to that period |
| BalanceTrend.RunningIsBalance | backend/internal/modules/reports/service.go:376-394 | An account's keys so far in that order are exactly those up to the current period, so the running sum is the balance |
| BalanceTrend.AccountBalanceTrend | backend/internal/modules/reports/service.go:337-404 | For the transactions that the join with the accounts finds: exactly one point for each period and account with data, by period then account, with net and balance as signed sums of that account's transactions in and up to the period |
| ReportMeaning.BalancesList | backend/internal/modules/reports/service.go:337-404 | The points are by period and then account, and there is one for a period and an account if and only if the account is in the table and has a transaction in the period |
| ReportMeaning.BalancePointMeans | backend/internal/modules/reports/service.go:363-403 | A point shows its account's name, what the account's transactions of the period add to it and what those up to the period add, expenses alone counting against it |
| BalanceTrend.LastsAddUp | backend/internal/modules/reports/service.go:382-403 | The accounts' last balances sum to the signed sum of all rows |
| BalanceTrend.LastsAreJoined | backend/internal/modules/reports/service.go:346-357 | Without it, to that of the transactions whose account exists |
| BalanceTrend.LastsAreNetIncome | backend/internal/modules/reports/service.go:337-404 | In a database with referential integrity, as every reachable one has, they sum to the report's total income less its total expense |
| BalanceTrend.LastMeetsAccount | backend/internal/modules/reports/service.go:337-404 | A report that leaves out nothing of an account ends at the account's stored balance less its drift |
| Months.MonthsInRange | backend/internal/modules/reports/service.go:687-699 | Terminates with every month from that of the start to the last once, in order, and nothing for a reversed range, each end read in its own zone |
| Gregorian.DaysAdd | backend/internal/modules/reports/service.go:691-697 | The first of a month is followed by the first of the next after 28 to 31 days, leap years by the rule of 4, 100 and 400 |
| Gregorian.CivilFollows | backend/internal/modules/reports/service.go:691-697 | The civil calendar, every time in exactly its own month, is one of those for which the months of a range are proved |
| Months.EndMonthListed | backend/internal/modules/reports/service.go:687-699 | The month of the end is listed if and only if the end's zone is not further east than the start's and the month is not before the start's, each read in its own zone |
| Months.MonthsCover | backend/internal/modules/reports/service.go:687-699 | Every time of the range, read in the start's zone, has its month listed if and only if the end shows one month in both zones and its zone is not further east, or its zone is further east and shows a later month |
| Months.NothingListed | backend/internal/modules/reports/service.go:687-699 | A range of half an hour, begun half an hour into a month at +08:00 and ended at +00:00, lists no month |
| Budgets.ExpenseByMonthCategory | backend/internal/modules/reports/service.go:645-675 | Every entry holds its category's expenses of the month, entry 0 the month's, and every listed month has an entry |
| Budgets.EntryZeroIsSum | backend/internal/modules/reports/service.go:660-674 | Entry 0 of a month equals the sum of all its category entries and the month's total |
| Budgets.EntryMeaning | backend/internal/modules/reports/service.go:431-438 | The entry a budget reads is the sum of exactly the expenses of its month and category, or of the whole month for category 0 |
| Budgets.EntriesConserve | backend/internal/modules/reports/service.go:645-699 | Over the months listed for a range that they cover, as any in one zone, the entries 0 add up to the report's whole expense |
| Budgets.BudgetExecution | backend/internal/modules/reports/service.go:406-457 | One line for each budget, in order, with its own expenses, what remains and their share |
| ReportMeaning.LineMeans | backend/internal/modules/reports/service.go:431-455 | A line shows the expenses of the budget's month in its category, or in all for category 0, what they leave of the budget, and their share of it, 0 for a budget of nothing |
| ReportKeys.PrefixOwn | backend/internal/cache/redis.go:170-173 | A user's prefix begins exactly that user's keys |
| ReportKeys.KeyDecides | backend/internal/cache/redis.go:175-178 | Two requests share a key if and only if user, filters and trend are equal and their times are printed alike: they differ at most below the second |
| ReportKeys.WholeSecondsDecide | backend/internal/modules/reports/service.go:712-718 | On whole seconds a key stands for one request |
| ReportKeys.KeySpells | backend/internal/cache/redis.go:170-178 | What a key spells: user, times, and the filters unless there are none and the trend is monthly |
| ReportKeys.NormaliseMeans | backend/internal/modules/reports/service.go:701-710 | Which spellings mean daily and weekly; all others mean monthly |
| ReportKeys.NormaliseAgain | backend/internal/modules/reports/service.go:701-718 | The key normalises a trend that the report has normalised already, and nothing changes |
| ReportCache.ServedIsRecent | backend/internal/modules/reports/service.go:27-119 | However fills, writes and invalidations interleave and whether or not deletions succeed, each section of a served report is what the rows committed at some moment gave, less than two minutes plus the fill's own duration ago |
| ReportCache.FreshExactly | backend/internal/modules/reports/service.go:27-119 | In every possible run a served section is fresh, whatever function of rows and request the sections compute, if and only if its entry was filled for this very request and the user's rows are still what they were when it was read |
| ReportCache.FreshWithSections | backend/internal/modules/reports/service.go:27-119 | For given sections it is fresh if and only if they compute the same from what the entry was filled with and from the rows and request of now |
| ReportCache.TellingIsFresh | backend/internal/modules/reports/service.go:27-119 | For one section whose text tells rows and request apart, freshness has that same condition |
| ReportCache.UnwrittenIsFresh | backend/internal/modules/reports/service.go:27-119 | It does, in every possible run, if the entry is the request's own and the user has not written since it was read |
| ReportCache.ServedIsFresh | backend/internal/modules/reports/service.go:27-119 | When no write of a user commits during a fill of the user, the user's writes have been invalidated completely and ranges are whole seconds, a served report equals a fresh computation, whenever reports were asked for, and whatever other users do |
| ReportCache.FillRacesWrite | backend/internal/modules/reports/service.go:27-119 | Otherwise the race of a read-through cache is real: what was read before a write is stored after its invalidation and stays stale for two minutes |
| ReportCache.OthersKeepEntries | backend/internal/modules/transactions/cache.go:22-37 | One user's invalidation, complete or not, keeps every entry of every other user |
| ReportCache.ImportGoesUnseen | backend/internal/modules/dataio/service.go:252-286 | A write without invalidation, as every import's, leaves a report stale for up to two minutes |
| ReportCache.FractionsCollide | backend/internal/cache/redis.go:175-178 | Two ranges that differ only below the second share an entry and the wrong report is served |
| ReportCache.Redis.DeleteByPrefix | backend/internal/cache/redis.go:132-159 | Success means no key with the prefix is left; keys without it always stay; failure deletes nothing else; an empty prefix is refused |
| ReportCache.Redis.InvalidateUser | backend/internal/modules/transactions/cache.go:22-37 | Does to the entries exactly what the invalidation step of the runs does, complete or broken off |
| ReportCache.Redis.Summary | backend/internal/modules/reports/service.go:27-119 | Serves what the runs would serve; otherwise answers with what was computed and changes the entries exactly as the finishing step of the runs does, stored or lost, or as the abandoning step when computing failed |
| Money.CentsRoundTrip | backend/internal/shared/money/money.go:12-14 | ToCents(FromCents(c)) = c for every c from -2^50 to 2^50 |
| Money.RoundMeans | backend/internal/shared/money/money.go:12-14 | Rounding gives a nearest whole number, of two the one further from zero |
| Money.ExactRoundTrip | backend/internal/shared/money/money.go:17-25 | ToCentsExact(FromCents(c)) is c for 0 <= c <= 4,503,600 (9,007,200 with fused multiply-add) and for whole units up to 2^50 cents; negative amounts are refused |
| Money.ExactUnderEveryRounding | backend/internal/shared/money/money.go:17-25 | The exact condition: of all c from 0 to 2^50, these and no others are accepted under every rounding with the error bound of doubles |
| Money.TextRoundTrip | backend/internal/shared/money/money.go:33-48 | ParseCents(FormatCents(c)) is c for the same amounts, and negative ones are refused |
| MoneyTexts.AmountParses | backend/internal/shared/money/money.go:38-48 | Whatever the sign, the digits, the point and the space around them, a text is taken for the double nearest to the number it writes |
| MoneyTexts.WholeCentsParse | backend/internal/shared/money/money.go:38-48 | A text that writes whole cents, in any such way, gives these cents for every amount that is kept |
| MoneyTexts.ThousandthsRefused | backend/internal/shared/money/money.go:38-48 | One that writes thousandths which are not whole cents is refused |
| MoneyTexts.OtherTexts | backend/internal/shared/money/money.go:38-48 | All other texts are left to the platform's other spellings of numbers, or refused |
| Money.FormatExact | backend/internal/shared/money/money.go:33-35 | FormatCents prints exactly the sign, the units and the two digits of the cents for every c from -2^50 to 2^50 |
| Money.ThirdDecimalRefused | backend/internal/shared/money/money.go:17-25 | An amount with a third decimal up to 2^47 cents is refused instead of being rounded |
| Money.ExactFailsAbove | backend/internal/shared/money/money.go:17-25 | With IEEE doubles themselves 131072.14 is refused although it has two decimals, while ToCents is right |
| Money.ExactOnDoubles | backend/internal/shared/money/money.go:17-25 | On the grid of IEEE doubles, unfused, every amount up to 2^23 = 8,388,608 cents is accepted, and from there to 2^50 exactly those that multiplying by a hundred brings back without error |
| Money.TextOnDoubles | backend/internal/shared/money/money.go:33-48 | The same for printed amounts |
| ContentDisposition.AsciiFilenameFallback | backend/internal/modules/dataio/export.go:81-103 | The builder loop and the checks after it give the specified fallback |
| ContentDisposition.StemHasAlphanumeric | backend/internal/modules/dataio/export.go:114-125 | Whether the name before its last dot holds a letter or digit |
| ContentDisposition.FilenameExtension | backend/internal/modules/dataio/export.go:127-139 | The last dot and what follows, if it is inside the name and only letters and digits follow |
| ContentDisposition.FallbackSafe | backend/internal/modules/dataio/export.go:81-103 | For every name the fallback is non-empty, over letters, digits, `.`, `_` and `-`, and does not begin with `.`, `_` or `-` |
| ContentDisposition.FallbackKeeps | backend/internal/modules/dataio/export.go:81-103 | A name that is such a name already is kept as it is |
| ContentDisposition.FallbackExactly | backend/internal/modules/dataio/export.go:81-139 | Exactly what the fallback is for every name: underlined and without what leads it, or "download" with a plain ending when no letter or digit comes before the ending |
| Percent.Utf8Spells | backend/internal/modules/dataio/export.go:77-79 | The UTF-8 octets of every character are the shortest form and decode to it |
| Percent.EscapeDecodes | web/shared/api/client.ts:367-373 | decodeURIComponent of the path-escaped text is the text, for every text |
| PercentTexts.Utf8Exactly | web/shared/api/client.ts:367-373 | Octets decode to a character if and only if they are its UTF-8 form |
| PercentTexts.DecodesExactly | web/shared/api/client.ts:367-373 | A text decodes to another if and only if it spells it with characters as they are and escaped UTF-8 octets in either case |
| PercentTexts.EscapesExactly | backend/internal/modules/dataio/export.go:77-79 | Escaping leaves exactly the characters of a path segment and writes the octets of all others with upper-case digits |
| DispositionParser.SplitHeaderParameters | web/shared/api/client.ts:310-339 | The scan with its quote and escape flags cuts exactly at semicolons outside quotations |
| DispositionParser.PiecesConserve | web/shared/api/client.ts:310-339 | Nothing is lost or moved: for every header, the pieces joined by semicolons are the header |
| DispositionParser.UnquoteHeaderValue | web/shared/api/client.ts:341-353 | Removes the quotes and each backslash that protects a character |
| DispositionParser.ContentDispositionParams | web/shared/api/client.ts:296-308 | Enters each key=value part under its lower-case key, the last one winning |
| HeaderTexts.ParamsMean | web/shared/api/client.ts:296-353 | For every header written as a type and parameters, with any white space, quotes and protected characters, the client reads exactly the parameters, names in small letters, the last of each |
| HeaderTexts.NameMeans | web/shared/api/client.ts:283-294 | It takes the extended name, if that is UTF-8 or untagged and decodes to one, else the plain name, else none |
| DispositionParser.HeaderPieces | web/shared/api/client.ts:310-339 | A header of that form has exactly three pieces, whatever quiet texts it carries |
| DispositionRoundTrip.FilenameArrives | web/shared/api/client.ts:283-294 | For every non-empty file name the client reads from the printed header exactly that name; for the empty one "download" (section 4.3 of RFC 6266, section 3.2 of RFC 5987) |
| DispositionRoundTrip.FallbackArrives | web/shared/api/client.ts:296-308 | The plain parameter carries the fallback, a safe name |
| JsonFields.WalkValue | backend/internal/httputil/response.go:217-271 | On the tokens of a value and any tokens after it, the walk leaves exactly those after it if all names are distinct, and fails otherwise |
| JsonFields.WalkedValue | backend/internal/httputil/response.go:217-271 | Whatever the walk passes over is the tokens of a value with distinct names |
| JsonFields.AcceptedExactly | backend/internal/httputil/response.go:204-215 | Of all token streams exactly those of one value in which no object at any depth names a field twice are accepted (section 4 of RFC 8259) |
| JsonFields.RejectDuplicatesInValue | backend/internal/httputil/response.go:217-271 | The recursive walker over the mutable decoder terminates and does exactly that walk |
| JsonFields.RejectDuplicateFields | backend/internal/httputil/response.go:204-215 | The whole check accepts a body exactly when it is one value with distinct names |
| Pagination.OneOrder | backend/internal/modules/transactions/service.go:67-71 | The order by time and id leaves no choice: every query of the same rows lists them alike |
| Pagination.NewestFirst | backend/internal/modules/transactions/service.go:67-71 | Along a listing times never increase, and ids decrease among rows of one time |
| Pagination.PagesSuffice | backend/internal/httputil/response.go:307-308 | The number of pages holds all rows with none to spare; for no rows it is one, or none for pages of one row |
| Pagination.PaginationLinks | backend/internal/httputil/response.go:307-338 | The links, in order |
| Pagination.PageMeans | backend/internal/modules/transactions/dto.go:56 | Page 1 without a page, otherwise exactly the positive numbers that 63 bits hold, in digits with or without a plus sign |
| Pagination.PageSizeMeans | backend/internal/modules/transactions/dto.go:57 | 20 rows without a size, otherwise exactly the numbers from 1 to 200 |
| Pagination.LinkTargets | backend/internal/httputil/response.go:313-337 | Which links there are, if and only if: no link leads outside the pages, and "prev" leads back from one page past the end |
| Pagination.TargetAsks | backend/internal/httputil/response.go:318-324 | A link's query asks for its page and size and keeps every parameter but the sensitive ones |
| Pagination.FollowVisitsRest | backend/internal/httputil/response.go:327-335 | From any page on, following "next" visits the remaining rows once each, in order |
| Pagination.FollowVisitsAll | backend/internal/modules/transactions/service.go:30-76 | From the first page on, following "next" visits every row exactly once, in order |

## Left out

- Foreign code: GORM, SQL drivers, Redis, JWT signing, bcrypt, the CSV and XLSX libraries. Tables are maps with fresh ids, a database transaction is a copy that is restored on failure, Redis is a map with end times, a token is a text with verified claims.
- MySQL's implicit commit on DDL and PostgreSQL's aborted transactions: a migration file is taken as atomic and a statement as a function of the database.
- Concurrent migration runners, and the creation of the schema_migrations table.
- Unicode white space, case folding beyond a parameter, and case-insensitive database collations: texts are compared exactly.
- Overflow of 64-bit balances, sums, offsets and ids: integers are unbounded, except where the code itself checks a bound.
- The users table: rows are not checked against it, and users are never removed.
- Gaps that a rolled-back insert leaves in id sequences, and the truncation of stored times by the database.
- Category type equal to transaction type as a run invariant: editing a category may change the type of one in use.
- Daily and monthly snapshot tables as true period totals: a partial range overwrites them.
- Time zones other than fixed offsets, and the printed names of periods: a period is an abstract number per time, for months of a range that of the civil calendar.
- Names in budget lines, category and account breakdowns and the category trend: the same grouping with fewer columns.
- Rounding of an entry's lifetime to whole milliseconds by the Redis client: a revocation entry lasts exactly as long as computed.
- Usability of a refreshed token within the second of its making, since tokens carry no unique id.
- Parsing of the Authorization header around the token: a parameter of the middleware; the token's own characters are modelled.
- Amounts whose hundredfold overflows a double, and NaN arithmetic: infinities and NaN are refused as in the code.
- Malformed JSON: the decoder's token stream then ends early, and which error is reported is not modelled.
- JSON escapes, number syntax and the depth limit of the decoder: a token is what the decoder delivers.
- Characters outside ASCII in `trim` and `toLowerCase` of the header parser, which never occur in printed headers.
- Repeated query parameters, which the handler refuses before listing.
- Config loading, CORS, metrics, health probes, the keyword parser, generated clients and all user interface code.
- Import.Importer.PreviewRows: takes the verdicts of the rows as a ghost argument, which `AllJudged` shows to exist and `VerdictsUnique` to be unique, so that the loop does not unfold their definition.
- Import.Importer.ImportRows: takes the verdicts as a ghost argument for the same reason.
- SqlSplitter.ReadByte: the scanner's byte switch is a method of its own, as are its comment and dollar branches; the source has them inline in one loop.
- Migrations.Migrator.RunMigrations: an interruption falls between two files; one inside a file's transaction has the same effect on the state, and its statements are not listed as sent.
- TokenRevocation.RevokedStaysOut: a request that parses before the window ends and asks after is not excluded, because it can be accepted; other tokens are assumed to have other digests.
- ReportCache.Redis.DeleteByPrefix: a scan that deletes keys is one step of the runs; the keys it must find are those present throughout.
- Pagination.FollowVisitsAll: rows do not change while the client follows the links.
- Money.ExactOnDoubles: platforms that fuse the multiplication and the subtraction; for those `ExactUnderEveryRounding` gives the condition that the error bound implies.
