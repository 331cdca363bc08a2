# Robot Money operations scripts: a verified model

This project models the repository's operational scripts in Dafny and proves what they promise.

**The migrate run** (`backend/scripts/migrate-run.ts`, `backend/scripts/migrate-journal.ts`) is the main part.
A database is a ledger of filenames with times, an optional identity table, an optional manifest, and
whether its grants are the snapshot's. A run reads it, passes its gates, and then commits one fenced
transaction after another: the out-of-order identity-first pass, the other pending files in filename order,
and last the grants with the manifest. It can be killed between any two commits, and lose its lock anywhere.
`Filenames`, `MigrateTarget` and `MigrateRun` are the data and the specification of a run; `BaselineGap` is
the gap check; `MigrateStates` and `MigrateProgress` are the states runs leave and how a later run reads them;
`MigrateTheorems` is about whole runs and any number of killed ones, `MigrateOutcomes` about exactly when a run
refuses, stops and commits; `MigrateRunners` is a step relation for any number of runners at once. `MigrateJournal` is the journal's class, and `MigrateCommand` the run and the
command around it as imperative code on a database object and a journal object.

**The other parts**: `HtmlText` and `HtmlReader` (the page reader), `RiskPage` and `RiskFindings` (the page's check of itself, and what it
names), `ReleaseDates`, `Changelog` and `ChangelogOutcomes` (dating the pending release), `TokenFees` (fee rounding, words, months),
`ProdInit` (rotating the members' keys), `ContributionGate` (who may change what, and the diff scanner),
`TwinSchedule` (the accelerated grid), `DriftDiagnosis` and `DriftCause` (putting computed observations in, and
what that says of a drift). `StringOrder`, `TextLines`, `Digits` and `Wrappers` are what they share.

`dafny verify dfyconfig.toml` checks everything.

## How the model reads the source

- A migration filename is its rank in filename order relative to 0081, which is 0. SQL's order of names and
  the string order are taken to be the same.
- What the run learns from outside is a parameter (`Faults`): whether the session is the owner, the
  post-state check, which files lack a header or fail, whether the catalog matches, at which boundary the
  lock is lost, after which commit the process is killed.
- A checkout is valid when its snapshot's list is its migrations directory, 0081 included, and every listed
  baseline is a part of it that sorts below 0081 (`loadSnapshot` cross-checks the list).
- A ledger row carries the server's time at its transaction's start (`backend/src/db/migrate.ts:44`), and every
  commit moves that clock on. In one run a transaction starts after the previous one committed. With many
  runners a transaction starts before it has the fence, so the fence alone does not put the times in order; they
  are, since only a runner whose steps were read or reached after the last commit can commit next
  (`MigrateRunners.CommitBegun`, `TimesFollowCommits`).
- A runner's gates and its plan are two separate reads in `MigrateRunners`, with other runners' commits
  possible in between; what else a plan reads can only refuse it.
- Page text is UTF-16 code units. The markup pattern and the page's regular expressions are taken at the
  level of what they match; character references, diff lines, name-status lines, dates and words are modelled
  character by character.

## What the proofs found

- `readIdentityPassRemainder` answers nothing when 0081 is the only row, so a run killed right after the pass
  from a baseline that lists no file would be refused as a gap (`MigrateStates.RecoveredUnlessAlone`). Every
  listed baseline has files; the convergence theorems say so in `Supported`.
- `disagreements` does not look at repeats: a record may list one category twice, if its index row does too
  (`RiskPage.RepeatsAreNotSeen`).
- Joined with commas, no name and one empty name look alike (`StringOrder.JoinTellsApart`).
- Names on the object prototype (`&constructor;`, `&toString;` and five more) are not refused as unknown
  references: the function's text takes their place (`HtmlText.UnknownNamesThrow`).
- A merge takes the pending Improvements and Fixes before their links are dated, so one that links a pending
  entry makes a merge refuse a block a new month would take (exactly when:
  `Changelog.TraceIffMergedLineLinks`; that it happens: `LinkedLineRefusesTheMerge`).
- A release of Also lines alone, as a new month, makes a month without entries, and a later stamp of a day in
  the older month can then put that month on the page twice (exactly when: `Changelog.KeepsOrder` and
  `DuplicatesAMonth`; that they happen, on pages and days given: `AlsoOnlyThenTwice`, `SuchDays`).
- An added line that begins with `++` shifts the line numbers of its hunk's later reports, and one that begins
  with `++ b/` moves what its file adds below it to the file it seems to name. So a governed document's plan
  line can go unreported, and the gate pass it (exactly when: `ContributionGate.FileExact` for a file and
  `ScanIsExact` for a diff, whose every plan line must satisfy `LineRight`; that they happen:
  `ShiftsTheNumber`, `HiddenPlanLine`, `NamedFileIsReported`, at the names and lines of `SuchDocument` and
  `SuchLine`).
- A card of a day after the as-of day is not met by its substitution (exactly when:
  `DriftDiagnosis.NothingDiffersAgain`; that it happens: `LaterCardIsNotMet`).
- A lost lock is journaled as `failed`, not `refused`: its message does not begin with "Refusing"
  (`MigrateCommand.EndingExact`).

## Model

| member | source | states |
|---|---|---|
| BaselineGap.NoProblems | backend/scripts/migrate-run.ts:667-706 | For every accepted state, or none: the check passes exactly when every recorded file is embodied, no unrecorded embodied file is out of band, and recorded plus pending is the snapshot's set. |
| BaselineGap.ProblemsExact | backend/scripts/migrate-run.ts:686-699 | Every problem there is is named, as what it is, and nothing else is: foreign rows, then files skipped below a recorded one, then foreign pending files, then files that are nowhere. |
| BaselineGap.ExactForPrefixes | backend/scripts/migrate-run.ts:667-706 | With no accepted state it passes if and only if the ledger is a filename-order prefix of the snapshot's list and the pending files are exactly the rest. |
| BaselineGap.ExactBeforePass | backend/scripts/migrate-run.ts:644-647 | On a ledger equal to a baseline it passes exactly when the pending files are what the snapshot has besides that baseline, wherever they sort. |
| BaselineGap.NeverRanExact | backend/scripts/migrate-run.ts:679-683 | For every accepted state and file: below 0081, not the baseline's, and above everything applied since. |
| BaselineGap.OutOfBandAfterPass | backend/scripts/migrate-run.ts:679-688 | After a pass a file is out of band exactly when it sorts below one applied after 0081. |
| BaselineGap.ExactAfterPass | backend/scripts/migrate-run.ts:648-664 | After a pass it passes if and only if the files applied after 0081 are a prefix of (snapshot minus baseline minus 0081) and pending supplies the rest. |
| MigrateTarget.GatesAdmit | backend/scripts/migrate-run.ts:1031-1119 | The gates refuse nothing exactly for: an operator's remote run under a policy on a database with no identity table whose ledger is exactly a listed baseline's (the two identity-first passes); an operator's remote prod run on a `production` row; any other run with a policy on a `rehearsal` row. |
| MigrateTarget.PassIsOffered | backend/scripts/migrate-run.ts:1140-1170 | A pre-identity state is read exactly for such a run and database, never for the smoke flag, a local run or one without a policy; it is the database's own ledger and a baseline with that very list. |
| MigrateTarget.ReasonsExact | backend/scripts/migrate-run.ts:1031-1119 | Every reason a refusal names, from who asks, under which policy, over which connection, and the identity; in order, each once. |
| MigrateTarget.ManifestStateExact | backend/src/db/schema-manifest.ts:978-1013 | How manifest and ledger stand to each other, name by name. |
| MigrateTarget.IdentityReadExact | backend/scripts/migrate-run.ts:1382-1406 | What the one-row table is read as: its one kind, no row, no table, unreadable, or ambiguous with its count. |
| MigrateTarget.RemainderExact | backend/scripts/migrate-run.ts:1294-1325 | Exactly when a pass's remainder is read, on any database, and what it is. |
| MigrateTarget.MatchSupportedRelease | backend/src/db/supported-releases.ts:207-216 | A match has the ledger's exact name set; no match means no listed baseline has it. |
| MigrateRun.FirstHeaderless | backend/scripts/migrate-run.ts:488-492 | None exactly when every pending file has its header; otherwise a pending file without one. |
| MigrateOutcomes.RunFromExact | backend/scripts/migrate-run.ts:494-559 | For every transaction function, database and list of steps: a run ends as it does exactly at the first of a kill, no step left, a boundary that is not proven, and a transaction that fails; the steps before it committed, each on a proven lock, on what the ones before it left. |
| MigrateOutcomes.CommitsAreProven | backend/scripts/migrate-run.ts:576-579 | Every transaction commits after the lock was proven for it. |
| MigrateOutcomes.RunStopsAtTheLostLock | backend/scripts/migrate-run.ts:527-579 | A run whose lock is lost at a boundary commits only what comes before it and stops there, naming it, unless a refusal, a failure or a kill stops it earlier; lost at the start, it commits nothing. |
| MigrateOutcomes.PlanExact | backend/scripts/migrate-run.ts:427-492 | A run gets to its first transaction exactly when it passes all eleven tests (owner session, gates, confirmation, ledger, post-state, manifest format, manifest, files on disk, 0081 pending, gap, headers) and is refused for the first it does not pass. |
| MigrateOutcomes.PlanHas | backend/scripts/migrate-run.ts:446-469 | What a plan holds: the pass's state, whether there is a manifest, and, for a run that is no pass and has none, what an earlier pass left. |
| MigrateOutcomes.PendingExact | backend/scripts/migrate-run.ts:446-458 | Pending are exactly the files on disk that are not recorded. |
| MigrateOutcomes.RefusalCarries | backend/scripts/migrate-run.ts:436-492 | A refusal carries the gates' reasons, the gap's problems, or the first pending file without a header. |
| MigrateOutcomes.EnrollExact | backend/scripts/migrate-run.ts:1268-1280 | Production is written only under prod, a rehearsal only under another policy and, on a remote target, acknowledged. |
| MigrateOutcomes.PassExact | backend/scripts/migrate-run.ts:1254-1283 | The pass commits exactly on the confirmed state, re-read under its fence; then 0081's row is recorded, the identity row is its policy's, and nothing else has changed. |
| MigrateOutcomes.ApplyExact | backend/scripts/migrate-run.ts:527-537 | A file commits exactly when its statements go through and its name is not recorded; then its row is the only new one, with its transaction's time. |
| MigrateOutcomes.PublishExact | backend/scripts/migrate-run.ts:543-559 | A publish over a manifest always commits, a first one exactly when ledger and snapshot list the same files and the live catalog is the snapshot's; a refusal names every file on one side only. |
| MigrateOutcomes.NoManifestOverAnotherCatalog | backend/scripts/migrate-run.ts:716-732 | For every checkout, options and confirmation: on a database without a manifest, no run publishes one while the live catalog differs. |
| MigrateOutcomes.CatalogStopsTheRun | backend/scripts/migrate-run.ts:716-732 | From any stage without a manifest, a run that nothing else stops commits every other step and ends at the catalog, no filename differing. |
| MigrateOutcomes.OnlyTheOfferedPassCommits | backend/scripts/migrate-run.ts:497-522 | On any database: the identity-first pass is committed only by an operator's remote run under a policy that was offered it and confirmed the ledger it found. |
| MigrateStates.ReadsBaseline | backend/scripts/migrate-run.ts:1163-1170 | Before the pass, the pre-identity read gives back the baseline's own name and list, and there is no manifest. |
| MigrateStates.MatchesItself | backend/src/db/supported-releases.ts:207-216 | A baseline's list matches that baseline and none listed before it. |
| MigrateStates.SidesAt | backend/scripts/migrate-run.ts:1311-1323 | In every state a pass leaves, the rows timed before 0081's are exactly the baseline, those after it exactly the files applied since, and no row shares its time. |
| MigrateStates.RecoversPassState | backend/scripts/migrate-run.ts:1309-1324 | At every kill point after the pass, the remainder read is exactly the baseline it started from and exactly the files applied since. |
| MigrateStates.RecoveredUnlessAlone | backend/scripts/migrate-run.ts:1309-1324 | For any listed baseline, empty or not: the one state a pass leaves that is read as no remainder is 0081 alone. |
| MigrateStates.OneTransactionIsNoPass | backend/scripts/migrate-run.ts:1300-1320 | A ledger whose rows share one time is never read as a pass's remainder. |
| MigrateStates.RemainderMeans | backend/scripts/migrate-run.ts:1309-1324 | Whatever the database, a remainder read is a listed baseline, 0081 and the other rows, and together they are the ledger. |
| MigrateStates.NeverAGap | backend/scripts/migrate-run.ts:474-482 | No state a killed run leaves has a gap problem, with the accepted state the run reads there. |
| MigrateStates.PassesIffPrefix | backend/scripts/migrate-run.ts:667-706 | A database that reads as a pass's remainder passes the gap check exactly when what was applied after 0081 is where some run, in filename order, would have stopped. |
| MigrateProgress.PlansAt | backend/scripts/migrate-run.ts:446-469 | A plan made at a stage holds exactly that stage's remaining steps; it takes the pass exactly when none has committed, and only under the policy the identity row names. |
| MigrateProgress.PlanNeverRefusesTheState | backend/scripts/migrate-run.ts:422-492 | At every stage a plan is refused only for the session, the gates, the confirmation, the post-state or a header. |
| MigrateProgress.WholeList | backend/scripts/migrate-run.ts:547-549 | With every later file applied the ledger is the snapshot's list. |
| MigrateProgress.PassAt | backend/scripts/migrate-run.ts:1258-1282 | The identity-first transaction moves a baseline to the state right after 0081, its row and its ledger row together. |
| MigrateProgress.PassOnce | backend/scripts/migrate-run.ts:1259-1266 | Once a pass has committed, no pass commits again. |
| MigrateProgress.ApplyAt | backend/scripts/migrate-run.ts:527-537 | A later file commits only as the next one of its stage; one already recorded conflicts with its own row. |
| MigrateProgress.PublishAt | backend/scripts/migrate-run.ts:543-559 | The publish leaves the ledger as it is, with the manifest over the snapshot's list and its grants. |
| MigrateTheorems.RefusalCommitsNothing | backend/scripts/migrate-run.ts:427-492 | For any database: a refusal for the first lock proof, the session, the gates, the confirmation, a blank or moved state, the resume plan, the gap or a header commits nothing. |
| MigrateTheorems.HeaderlessCommitsNothing | backend/scripts/migrate-run.ts:484-492 | One pending file without its header, wherever it stands in the list, stops the run before its first commit. |
| MigrateTheorems.ManifestIsTheLedger | backend/scripts/migrate-run.ts:539-559 | For any database: every manifest a run publishes is over exactly the ledger it commits on, with the snapshot's grants; a run that did not publish left the manifest alone. |
| MigrateTheorems.GapMakesListRedundant | backend/scripts/migrate-run.ts:471-482 | For any database: once the gap check passed, a first manifest's comparison that fails has no filename difference, only the catalog's, and no manifest is written. |
| MigrateTheorems.RunKeeps | backend/scripts/migrate-run.ts:422-571 | Whatever goes wrong, a run from a known stage leaves exactly the stage its commit count says, having committed a prefix of that stage's steps. |
| MigrateTheorems.RunAllKeeps | backend/scripts/migrate-run.ts:422-571 | After any finite sequence of runs, killed, refused or failed anywhere, the database is at one of these stages. |
| MigrateTheorems.NextRunIsNoGap | backend/scripts/migrate-run.ts:667-706 | Crash convergence: after any such sequence, the next run is never refused as a gap, nor for anything the ledger or manifest say. |
| MigrateTheorems.CrashConvergence | backend/scripts/migrate-run.ts:422-571 | Crash convergence: an undisturbed next run that the gates admit ends with ledger = snapshot list, one identity row, and the manifest over that list with the snapshot's grants. |
| MigrateTheorems.RunGoes | backend/scripts/migrate-run.ts:527-537 | An undisturbed run commits all its steps, or exactly those before its kill. |
| MigrateTheorems.AcceptedIffKilledRunLeavesIt | backend/scripts/migrate-run.ts:667-706 | The accepted ledgers after a pass are exactly those some run, killed right after one of its commits, leaves. |
| MigrateTheorems.IdentityIsAtomic | backend/scripts/migrate-run.ts:1254-1283 | In every state runs from a baseline leave, 0081 is recorded exactly when exactly one readable identity row exists. |
| MigrateTheorems.RowIsThePolicys | backend/scripts/migrate-run.ts:500-522 | No run changes a row it finds; the run that writes one writes `production` under prod and `rehearsal` under stage, and none with RM_ENV unset does. |
| MigrateRunners.EveryMoveKeeps | backend/src/db/target-lock.ts:923-1024 | The invariant of any number of runners with a session lock, one fence and separate gate, plan, proof and commit steps: every move keeps it, at the same stage or a later one. |
| MigrateRunners.CommitAt | backend/scripts/migrate-run.ts:527-537 | Whatever plan it comes from, stale or not, the transaction a runner commits is the database's next one, or a publish. |
| MigrateRunners.PlanHolds | backend/scripts/migrate-run.ts:446-482 | A plan made after other runs' commits since its gates still holds steps good at the stage it is made on. |
| MigrateRunners.TransactionsNeverOverlap | backend/src/db/target-lock.ts:923-960 | Over every interleaving, lock connections dying at any point: two mutating transactions never overlap, and each holds the fence. |
| MigrateRunners.OneCommitAfterLosingTheLock | backend/scripts/migrate-run.ts:576-579 | Over every interleaving: a runner commits at most one further transaction after its lock dies. |
| MigrateRunners.OneLateCommitHappens | backend/scripts/migrate-run.ts:576-579 | The bound is reached: on any supported baseline's database some interleaving commits a transaction of a runner whose lock died while another runner holds the lock. |
| MigrateRunners.CommitBegun | backend/src/db/target-lock.ts:930-939 | A row carries the time its transaction began, before it had the fence; whatever began when, a transaction that then commits began after every row it commits on, and commits the stage's next step. |
| MigrateRunners.TimesFollowCommits | backend/scripts/migrate-run.ts:1302-1323 | Over every interleaving: the recorded times are in the order the transactions committed in, all runners together, and after every row of the baseline, so the remainder's two sides are the sides of the pass. |
| MigrateRunners.NothingCommitsTwice | backend/scripts/migrate-run.ts:530-534 | Over every interleaving: the ledger's transactions of all runners together are a prefix of one run's, so no file's row and no pass commits twice. |
| MigrateRunners.RowNeverChanges | backend/scripts/migrate-run.ts:500-522 | Over every interleaving: an identity row, once written, is never changed. |
| MigrateRunners.ConvergesAfterAnyInterleaving | backend/scripts/migrate-run.ts:422-571 | After every interleaving, an undisturbed run that the gates admit ends with list, row, manifest and grants. |
| MigrateRunners.RunnersLeaveWhatKillsLeave | backend/scripts/migrate-run.ts:422-571 | Over every interleaving: the database is at a stage killed runs leave, a later run plans on it, and a manifest is there only over the whole list. |
| MigrateJournal.EveryJournalIsValid | backend/scripts/migrate-journal.ts:101-158 | After every history of calls: only the last phase can be in progress, all before it committed, a phase has no end exactly while in progress, a close ends the last one with its outcome, and "(between phases)" stands only where no phase began. |
| MigrateJournal.BeginSays | backend/scripts/migrate-journal.ts:117-128 | Beginning a phase ends the one in progress as committed and adds the new one, in progress; nothing else changes. |
| MigrateJournal.CloseSays | backend/scripts/migrate-journal.ts:135-146 | Closing ends the phase in progress as the run ended, each ending by its own status, with the reason, and keeps the receipt; the phases before it stay. |
| MigrateJournal.AtMostOneStarted | backend/scripts/migrate-journal.ts:105-109 | At most one phase is started, it is the last, and the journal is open. |
| MigrateJournal.ClosedIsClosed | backend/scripts/migrate-journal.ts:117-136 | Once closed, begin and close change nothing; a target can still be set. |
| MigrateJournal.JournalIsTheHistory | backend/scripts/migrate-journal.ts:117-146 | The phases written are exactly those begun before the first close, in order; a failed close with none begun writes the one "(between phases)" record. |
| MigrateJournal.MigrateJournal.Open | backend/scripts/migrate-journal.ts:91-99 | A new journal: no target, no phase, no outcome. |
| MigrateJournal.MigrateJournal.SetTarget | backend/scripts/migrate-journal.ts:111-114 | The target is set, and nothing else changes. |
| MigrateJournal.MigrateJournal.Begin | backend/scripts/migrate-journal.ts:117-128 | The new file is the specified one for this call and clock. |
| MigrateJournal.MigrateJournal.Close | backend/scripts/migrate-journal.ts:135-146 | The new file is the specified one for this close and clock. |
| MigrateJournal.MigrateJournal.CloseOnExit | backend/scripts/migrate-journal.ts:150-152 | The close of a process that exits: interrupted, without a receipt. |
| MigrateCommand.Target.Step | backend/scripts/migrate-run.ts:527-537 | One boundary: the phase is journaled, then the lock proven, then the one transaction commits whole or not at all. |
| MigrateCommand.Target.ApplyAndPublish | backend/scripts/migrate-run.ts:524-559 | The apply loop commits what the specification of the run commits, stops where it stops, and journals each attempted transaction's phase. |
| MigrateCommand.Target.RunMigrate | backend/scripts/migrate-run.ts:422-571 | The run's database, commits and refusal are the specification's, and the journal gained exactly the run's phases. |
| MigrateCommand.RunStopsInItsLastPhase | backend/scripts/migrate-run.ts:573-579 | The journaled run: `migrate: start`, one phase per committed transaction in order, then the phase it stopped in, which is the failing transaction's own or the one whose lock proof failed. |
| MigrateCommand.RunPhasesExact | backend/scripts/migrate-run.ts:494-559 | The phases of a run: `migrate: start`, the pass when it takes it, each other pending file in filename order, the publish; as far as it got, and all when nothing stopped it. |
| MigrateCommand.OpeningExact | backend/scripts/migrate-run.ts:1553-1638 | Plan, lock, gates, reconciliation, owner and confirmation begin in this order, whatever ends them; the first that ends the command is the last that begins. |
| MigrateCommand.OpensExact | backend/scripts/migrate-run.ts:1553-1638 | The run is made exactly when no phase before it fails and the gates refuse nothing. |
| MigrateCommand.GatesEndIt | backend/scripts/migrate-run.ts:1553-1638 | Refusing gates end the command in their phase, before anybody's password or confirmation is asked for. |
| MigrateCommand.FailureEndsIt | backend/scripts/migrate-run.ts:1553-1671 | A phase that fails ends the command in it, refused or failed as its message says. |
| MigrateCommand.EndingExact | backend/scripts/migrate-run.ts:1640-1677 | Closed as succeeded only with the receipt, as interrupted (or left open) only by a kill, and as failed only where the message does not say it refuses. |
| MigrateCommand.BeginInTurn | backend/scripts/migrate-run.ts:1553-1638 | The phases before the run are begun in order, and the first that ends the command closes the journal. |
| MigrateCommand.MigrateCommand | backend/scripts/migrate-run.ts:1515-1677 | The command's commits are the run's on the state the confirmation named, and the journal it leaves holds every phase begun, ended as the command ended. |
| HtmlText.DecodesWhatIsSpelt | scripts/build-smart-contract-risks-data.ts:50-57 | However a text mixes plain units and references, decoding gives what its parts stand for, and fails as its leftmost meaningless reference does. |
| HtmlText.ReferenceExact | scripts/build-smart-contract-risks-data.ts:51-51 | A string opens with a reference exactly when it opens with an ampersand, a text of one of the three forms and a semicolon. |
| HtmlText.ClassesExact | scripts/build-smart-contract-risks-data.ts:51-51 | Which units are digits, letters and hexadecimal digits, in either case. |
| HtmlText.HexValueExact | scripts/build-smart-contract-risks-data.ts:52-52 | A hexadecimal digit is worth its place among the sixteen, in either case. |
| HtmlText.CodePointExact | scripts/build-smart-contract-risks-data.ts:52-52 | One unit is its own code point, a surrogate pair reads back as the code point above U+FFFF, and above U+10FFFF there is none. |
| HtmlText.NamedExact | scripts/build-smart-contract-risks-data.ts:43-48 | Which names are in the table. |
| HtmlText.MarkupNames | scripts/build-smart-contract-risks-data.ts:43-48 | What the four names of markup stand for; `QuoteNames`, `MoreQuoteNames`, `ArrowNames` and `SignNames` give the other fourteen. |
| HtmlText.InheritedExact | scripts/build-smart-contract-risks-data.ts:53-54 | Which other names the lookup finds, on the object's prototype. |
| HtmlText.InheritedText | scripts/build-smart-contract-risks-data.ts:53-54 | What takes their place: the function's text. |
| HtmlText.EscapeRoundTrip | scripts/build-smart-contract-risks-data.ts:50-57 | Decoding an escaped string returns it, for every string of UTF-16 units. |
| HtmlText.NumericRoundTrip | scripts/build-smart-contract-risks-data.ts:52-52 | A decimal or hexadecimal reference to any code point decodes to it, as a surrogate pair above U+FFFF. |
| HtmlText.UnknownNamesThrow | scripts/build-smart-contract-risks-data.ts:53-54 | A letters-only reference throws exactly when its name is neither in the table nor inherited from the object's prototype. |
| HtmlReader.ParseHtml | scripts/build-smart-contract-risks-data.ts:59-86 | The loop over the matches is the specified parser, errors included. |
| HtmlReader.ContentParses | scripts/build-smart-contract-risks-data.ts:65-81 | Balanced content parses, from any stack, to exactly what it stands for, and leaves the stack otherwise as it was. |
| HtmlReader.StepDerives | scripts/build-smart-contract-risks-data.ts:65-81 | Each step the parser takes extends a derivation of the grammar by exactly its token. |
| HtmlReader.ParsesIffBalanced | scripts/build-smart-contract-risks-data.ts:59-86 | The parser accepts a source with these children if and only if its tokens are balanced content that stands for them. |
| HtmlReader.SetAttrExact | scripts/build-smart-contract-risks-data.ts:78-78 | Assigning an attribute changes what is held under that name and under no other. |
| HtmlReader.SetAttrOrder | scripts/build-smart-contract-risks-data.ts:78-78 | A name the element has keeps its place, and a new one comes last. |
| HtmlReader.MismatchExact | scripts/build-smart-contract-risks-data.ts:69-73 | A close tag fails exactly when it does not name the innermost open element, and the error names both. |
| HtmlReader.FirstErrorThrown | scripts/build-smart-contract-risks-data.ts:65-81 | The error thrown is that of the first token whose step fails. |
| HtmlReader.LoneTag | scripts/build-smart-contract-risks-data.ts:59-86 | A lone tag is an element exactly when its name, in either case, is a void element's, and otherwise unclosed. |
| HtmlReader.VoidExact | scripts/build-smart-contract-risks-data.ts:42-42 | The thirteen void names. |
| HtmlReader.PrintRoundTrip | scripts/build-smart-contract-risks-data.ts:59-86 | Printing a tree (lower-case tags, childless void elements, distinct attribute names, no empty or adjacent texts, no blank last text) and parsing it gives it back. |
| HtmlReader.TokensReadBack | scripts/build-smart-contract-risks-data.ts:66-67 | Separable tokens are the tokens of the source they are written to. |
| RiskPage.Disagreements | scripts/build-smart-contract-risks-data.ts:314-362 | The loops push exactly the specified problems, in order. |
| RiskFindings.ProblemsExact | scripts/build-smart-contract-risks-data.ts:314-362 | On any page: every disagreement there is is named, as what it is and of the row, record, category or chip it is about, and no other is; in the order of the check's parts. |
| RiskFindings.IndexOfExact | scripts/build-smart-contract-risks-data.ts:357-358 | The first place of a name, or -1. |
| RiskFindings.FindCaseExact | scripts/build-smart-contract-risks-data.ts:330-330 | The first record with the id, if there is one. |
| RiskFindings.FindRowExact | scripts/build-smart-contract-risks-data.ts:342-343 | The first row with the id, if there is one. |
| RiskPage.NoProblemIffAgrees | scripts/build-smart-contract-risks-data.ts:314-362 | On plain names the check is exact: no problem if and only if the page agrees with itself, every pair of rows and every citation included. |
| RiskPage.FiledIffCited | scripts/build-smart-contract-risks-data.ts:351-355 | Then "filed under" and "cites" are one relation, each pair cited once. |
| RiskPage.MonthsExact | scripts/build-smart-contract-risks-data.ts:325-328 | Comparing neighbours finds nothing exactly when the months never increase, for every pair. |
| RiskPage.CitedExact | scripts/build-smart-contract-risks-data.ts:351-355 | A category draws no problem exactly when it cites each record filed under it once and nothing else. |
| RiskPage.RowsExact | scripts/build-smart-contract-risks-data.ts:329-350 | With the ids in step, rows and records draw no problem exactly when each row is its record's projection, keyed by what it says. |
| RiskPage.OrderExact | scripts/build-smart-contract-risks-data.ts:356-360 | No record is out of the page's order exactly when its categories' places never decrease. |
| RiskPage.RepeatsAreNotSeen | scripts/build-smart-contract-risks-data.ts:342-360 | The check does not look at repeats: on any page that agrees with itself any record, with its row, may list any of its categories twice, and still no problem is found. |
| RiskPage.OneRecordAgrees | scripts/build-smart-contract-risks-data.ts:314-362 | There are such pages: one record, its category and its row agree, whatever their names. |
| RiskPage.Build | scripts/build-smart-contract-risks-data.ts:367-393 | Written exactly when the page agrees with itself: the data as read, and the projected index with its names and paths; else refused with the problems. |
| RiskPage.IndexExact | scripts/build-smart-contract-risks-data.ts:371-379 | On any page: the index's own path and data path, and each record and category of the page, in page order, field for field. |
| RiskPage.IndexIsThePage | scripts/build-smart-contract-risks-data.ts:371-379 | The written index is the rows, field for field and in order, newest first for every pair, no id twice. |
| StringOrder.JoinTellsApart | scripts/build-smart-contract-risks-data.ts:318-360 | Comma joining tells comma-free lists apart except the empty list and the list of one empty string. |
| StringOrder.JoinIsInjective | scripts/build-smart-contract-risks-data.ts:341-354 | Lists of non-empty comma-free names join alike only when equal. |
| StringOrder.SameSort | scripts/build-smart-contract-risks-data.ts:353-354 | Two lists sort alike exactly when they are permutations of each other. |
| ReleaseDates.AcceptsCalendarDays | scripts/changelog-stamp.ts:58-67 | Accepted: exactly the strings of the shape that name a calendar day of the year 100 or later (a year below 100 reads back as 19xx and is refused). |
| ReleaseDates.RollsAway | scripts/changelog-stamp.ts:62-63 | A day out of its month's range always reads back in another month. |
| ReleaseDates.RollKeepsTheDay | scripts/changelog-stamp.ts:62-63 | A day that runs over ends on a day of the calendar with the same number, counted independently of the months' lengths. |
| ReleaseDates.UtcExact | scripts/changelog-stamp.ts:62-63 | The fields read back are a calendar day with the day number of the numbers given. |
| ReleaseDates.IsoOrderIsCalendarOrder | scripts/changelog-stamp.ts:120-125 | Comparing two accepted dates as strings compares them as days. |
| ReleaseDates.SameLabel | scripts/changelog-stamp.ts:163-167 | Two days have one month heading exactly when they are in one month of one year. |
| Changelog.StampChangelog | scripts/changelog-stamp.ts:112-225 | The step-by-step stamp is the specified one, and says whether it merged. |
| Changelog.Conserves | scripts/changelog-stamp.ts:147-224 | In both shapes: the entries are the pending ones, dated, on top of the old ones in order; so are the lines of every label; later months are unchanged. |
| Changelog.NoLooseLines | scripts/changelog-stamp.ts:145-150 | With no line outside the two lists, the first Improvements and Fixes lists are all the lines the block has. |
| Changelog.Prepends | scripts/changelog-stamp.ts:89-100 | Placing items puts them on top of their label's lines, in a list made if missing, and touches no other label's. |
| ChangelogOutcomes.StampExact | scripts/changelog-stamp.ts:112-229 | A stamp goes through exactly when it passes its ten tests, in order (a day, a block, balanced markers, one block, nothing dated later, no line outside the two lists, something pending, a labelled list to join, a place for one, a heading to rename) and leaves nothing pending; and it is refused for the first it does not pass. |
| ChangelogOutcomes.LooseLinesExact | scripts/changelog-stamp.ts:139-150 | The count it compares finds exactly the lines outside the first Improvements and the first Fixes list. |
| ChangelogOutcomes.NewListGoes | scripts/changelog-stamp.ts:89-100 | A missing Improvements list is made above every list, a missing Fixes list below. |
| ChangelogOutcomes.MergeTitle | scripts/changelog-stamp.ts:169-213 | A merge keeps the month's name and its Also block's title; where there was no block, one is made only for lines. |
| ChangelogOutcomes.AnchorReadsBack | scripts/changelog-stamp.ts:134-134 | A dated anchor is the day, a hyphen and the slug, and reads back; every other anchor stays as it is. |
| ChangelogOutcomes.SlugExact | scripts/changelog-stamp.ts:134-134 | Which slugs can be dated. |
| ChangelogOutcomes.TitleNamesTheMonth | scripts/changelog-stamp.ts:69-69 | An Also block's title is its month heading's name, without the year. |
| ChangelogOutcomes.StampsOnce | scripts/changelog-stamp.ts:131-136 | Dating an entry dates what is pending in it and leaves the rest; dating it again, for any day, changes nothing. |
| ChangelogOutcomes.MonthTraceExact | scripts/changelog-stamp.ts:236-241 | A month says pending exactly where an entry is undated or an anchor or a link is still a `next-` one. |
| ChangelogOutcomes.TraceExact | scripts/changelog-stamp.ts:142-241 | On any page, a placed block leaves a trace exactly when there was one outside it, a closing marker too many, an anchor in it whose slug cannot be dated, or, where it merged, a line that links a pending entry. |
| Changelog.SecondStampRefuses | scripts/changelog-stamp.ts:236-241 | A stamped page has no pending trace, so a second stamp, for any day, refuses. |
| Changelog.KeepsOrder | scripts/changelog-stamp.ts:120-125 | From a log in order and a block of pending entries, a stamp that goes through keeps the log in order if and only if the block has an entry or the first month is the day's own; in order, no month stands twice. |
| Changelog.AlsoOnlyThenTwice | scripts/changelog-stamp.ts:164-224 | It does fail: from an ordered log, a release of Also lines alone leaves a month without entries, and a second release on that page, of a day in the older month, puts that month on it twice; both stamps go through. |
| Changelog.DuplicatesAMonth | scripts/changelog-stamp.ts:164-167 | A stamp leaves a month twice exactly when the day's month is on the page below another. |
| Changelog.TraceIffMergedLineLinks | scripts/changelog-stamp.ts:142-213 | A placed block leaves a trace exactly when it merged and a pending Also line links a pending entry: those lines are captured before their links are dated. |
| Changelog.LinkedLineRefusesTheMerge | scripts/changelog-stamp.ts:142-213 | It does happen: one Also line that links a pending entry is refused when it merges, and stamped as a new month. |
| Changelog.NewestIsNewest | scripts/changelog-stamp.ts:120-125 | The bound is not before any dated entry. |
| TokenFees.QuotientExact | scripts/token-fees.ts:164-175 | Division is towards zero: the rest has the sign of what was divided. |
| TokenFees.Pending | scripts/token-fees.ts:160-175 | The two accumulators are the specified sums of floors, for both currencies. |
| TokenFees.ReportedIsClose | scripts/token-fees.ts:164-175 | Reported minus actual claimable lies between -n and n - 1 base units for n wallets, for totals of any size. |
| TokenFees.ReportedIsBounded | scripts/token-fees.ts:164-178 | Reported never exceeds the floor of our share of everything earned, collected or not, and is never negative. |
| TokenFees.BothEndsReached | scripts/token-fees.ts:164-175 | Both ends of the bound are reached for every number of wallets below a WAD. |
| TokenFees.WordOfNumber | scripts/token-fees.ts:81-83 | An address and its bare digits pack to the same 64-digit word. |
| TokenFees.HexDigitExact | scripts/token-fees.ts:82-82 | A digit is worth its place among the sixteen, in either case. |
| TokenFees.AddrExact | scripts/token-fees.ts:144-146 | An address is `0x`, zeros up to forty digits, and the number's digits, and is that number. |
| TokenFees.StripExact | scripts/token-fees.ts:81-83 | A leading `0x` is taken off, and nothing else is. |
| TokenFees.WordsReadBack | scripts/token-fees.ts:82-82 | Words written one after the other read back as the numbers written. |
| TokenFees.LaunchBeneficiaries | scripts/token-fees.ts:144-146 | The loop reads the specified addresses, or stops at a missing place. |
| TokenFees.BeneficiariesReadBack | scripts/token-fees.ts:143-146 | Decoding an encoded beneficiary list gives each address, in order, wherever the list starts. |
| TokenFees.Months | scripts/token-fees.ts:187-195 | One bucket for each month with a day, in calendar order, with exactly its days and volume; the buckets' volumes add up to the days'. |
| ProdInit.RosterNamesEachOnce | scripts/prod-init.ts:314-319 | A loaded file's roster names every entry once, agents then judges. |
| ProdInit.LoadsExact | scripts/lib/swarm/credential-file.ts:412-434 | A file loads exactly when its names are its entries', each once, and no two entries have one member, one public key or one bearer. |
| ProdInit.WriteExact | scripts/lib/swarm/credential-file.ts:886-912 | A bearer is written exactly when it is not blank, the file loads, it has the entry, and no other entry has that bearer. |
| ProdInit.SetBearerSays | scripts/lib/swarm/credential-file.ts:892-894 | A new bearer changes that entry's bearer and nothing else. |
| ProdInit.GatesInTurn | scripts/prod-init.ts:213-406 | Every gate is taken, once, in its turn: policy, instance, reader, the target's read, its identity, the operator's token, the credential file's path, its loading, its names, the address, the confirmed target, and last the lock. |
| ProdInit.OneClosedGateRefuses | scripts/prod-init.ts:213-406 | Whatever gate is closed, the command is refused at it or at one before it; when it alone is closed, exactly at it. |
| ProdInit.GateExact | scripts/prod-init.ts:213-406 | The file's two gates are open exactly when it loads and, then, has an entry; every other one as the environment decides. |
| ProdInit.Host.Rebind | scripts/prod-init.ts:476-482 | One entry: the failure is the specified one (no lock, no bearer, not written); the server rotated as its answer says; the file changed only on success, in that one bearer. |
| ProdInit.Host.WriteBearer | scripts/lib/swarm/credential-file.ts:886-912 | Written whole or not at all, and refused when blank, unknown, or when the file before or after would not load. |
| ProdInit.Host.RebindMembers | scripts/prod-init.ts:400-519 | It is refused at the first closed gate, with nothing changed; otherwise every gate was open, the lock is released, a receipt is written, and the rebind ended as specified, at the first entry that fails. |
| ProdInit.Host.Loop | scripts/prod-init.ts:473-484 | Rebound is the roster up to the first entry that fails, whose failure is the one named; the file changed for exactly the rebound, and the server rotated them and the failed entry's member only if the API got to it. |
| ProdInit.RebindLeaves | scripts/prod-init.ts:473-484 | Every rebound entry holds the server's bearer for its member; every other entry and member is untouched, but the member the loop stopped at. |
| ProdInit.CompletedIsInStep | scripts/prod-init.ts:473-484 | A completed rebind leaves every entry in step with the server. |
| TextLines.TrimExact | scripts/check-contribution.ts:255-257 | White space at both ends is taken off, and nothing else. |
| TextLines.SpacesAre | scripts/check-contribution.ts:128-129 | The twenty-five characters that `trim()` and a pattern's white-space class take. |
| TextLines.LowerExact | scripts/check-contribution.ts:92-92 | The twenty-six capital letters are lower-cased, and no other character is changed. |
| TextLines.EndsExact | scripts/check-contribution.ts:135-141 | A string starts with its head and ends with its tail, whatever else it has, nothing included. |
| ContributionGate.GovernedExact | scripts/check-contribution.ts:135-141 | Governed are exactly the Markdown documents under docs, but those under docs/code-review, with either slash. |
| ContributionGate.TaskItemExact | scripts/check-contribution.ts:128-129 | The step-by-step reading of a task item accepts exactly the lines the pattern matches, part by part. |
| ContributionGate.PlanLineExact | scripts/check-contribution.ts:266-271 | A reported line is exactly such a line without the remark that lets it through, wherever in it the remark would stand. |
| ContributionGate.NewStartExact | scripts/check-contribution.ts:260-264 | For any header text: the number after its first plus sign that has one, and 0 when there is none. |
| ContributionGate.ScanDiff | scripts/check-contribution.ts:250-280 | The loop is the specified scanner over the diff's lines. |
| ContributionGate.ScanAttributes | scripts/check-contribution.ts:250-280 | For every zero-context diff, whatever its added lines: what is reported are the plan lines under the file the last name-like line says, each numbered short by the "++" lines before it in its hunk. |
| ContributionGate.FileExact | scripts/check-contribution.ts:250-280 | What a file is attributed are its governed plan lines with their new-file numbers if and only if each of its plan lines is right: in a governed document the scanner still holds that document and no earlier line of the hunk begins with "++"; elsewhere it holds nothing governed. |
| ContributionGate.ScanIsExact | scripts/check-contribution.ts:250-280 | For every zero-context diff: the reports of every leading part of it are exactly the governed plan lines with their new-file numbers, if and only if every plan line of every file is right; and a diff with every line right is reported exactly. |
| ContributionGate.OneFileExact | scripts/check-contribution.ts:250-280 | A diff of one file is reported exactly if and only if its lines are right. |
| ContributionGate.ScanIsExactWithoutNames | scripts/check-contribution.ts:259-276 | With no added line that looks like a name, a whole diff is reported exactly if and only if no plan line follows a "++" line of its hunk. |
| ContributionGate.ScanReportsThePlanLines | scripts/check-contribution.ts:250-280 | In particular whenever no added line begins with "++". |
| ContributionGate.ShiftsTheNumber | scripts/check-contribution.ts:259-276 | It does fail: for any governed document and plan line, a hunk that first adds a "++" line is a diff the gate can be given, and the line's reported number is one too low. |
| ContributionGate.HiddenPlanLine | scripts/check-contribution.ts:255-271 | A plan line added to a governed document after a line that looks like another document's name is not reported at all, in a diff the gate can be given. |
| ContributionGate.NamedFileIsReported | scripts/check-contribution.ts:255-271 | A plan line added to a document that is not governed, after a line that looks like a governed one's name, is reported in the named one, in a diff the gate can be given. |
| ContributionGate.WrongFilesCoincide | scripts/check-contribution.ts:250-280 | Why the whole-diff statement goes over leading parts: two files, neither with its lines right, whose reports together are exact. |
| ContributionGate.LinesCountFromZero | scripts/check-contribution.ts:250-276 | Before any hunk header, lines count from 0. |
| ContributionGate.StartIsRead | scripts/check-contribution.ts:260-264 | A hunk header's new start is read back, for every number. |
| ContributionGate.ClassifyChanges | scripts/check-contribution.ts:205-229 | The loop gives the specified operations. |
| ContributionGate.PartsExact | scripts/check-contribution.ts:205-229 | For a line of any fields: exactly which creates, edits and deletes it stands for; other statuses and missing paths stand for none. |
| ContributionGate.TextIsRead | scripts/check-contribution.ts:205-229 | Reading a name-status text gives each change's operations in order; a rename is a delete and a create. |
| ContributionGate.OpsGiveTheHead | scripts/check-contribution.ts:205-229 | For any list of changes, from git or not: the operations in order give the head's paths exactly when every created path's last operation is its create. |
| ContributionGate.GitDiffGivesTheHead | scripts/check-contribution.ts:205-229 | For every diff git writes of two trees (added and renamed-to paths only in the head, deleted and renamed-from ones only in the base, no path of one tree alone left out), the operations in order turn the base's paths into the head's. |
| ContributionGate.ParsePolicy | scripts/check-contribution.ts:66-94 | The map holds for each login, lower-cased, the last grant written for it, and nothing for comment keys. |
| ContributionGate.IsPermitted | scripts/check-contribution.ts:120-126 | True exactly when an effective glob matches. |
| ContributionGate.PermittedByTheBase | scripts/check-contribution.ts:101-126 | Permission comes from what the policy last says of the login, in any case, or of everyone; without a grant it is denied. |
| ContributionGate.PermittedExact | scripts/check-contribution.ts:101-126 | For every policy, user and path: a create is permitted exactly when a glob of the create or the all list of the login's or everyone's grant matches; so are an edit and a delete, by their own lists. |
| ContributionGate.OtherGrantsPermitNothing | scripts/check-contribution.ts:109-115 | Grants of the other operations alone permit nothing, whatever their globs match. |
| ContributionGate.FoundExact | scripts/check-contribution.ts:201-290 | Nothing is found exactly when every operation is permitted and no line is reported; in a diff whose lines are right, no line is reported exactly when no governed plan line is added. |
| ContributionGate.Gate | scripts/check-contribution.ts:201-290 | The violations are the operations that are not permitted, in order, and then the reported plan lines; for every diff whose lines are right, there is none exactly when every operation is permitted and no governed plan line is added. |
| TwinSchedule.ClosesAreNearest | scripts/twin-accelerate.ts:76-80 | The i-th of n subjects first closes at the whole millisecond nearest (i + 1) epochs / n from now, a half going up. |
| TwinSchedule.ClosesAreTheGrid | scripts/twin-accelerate.ts:76-80 | Subject i's k-th later close is the grid's (i + 1 + k n)-th. |
| TwinSchedule.GridIsTheCloses | scripts/twin-accelerate.ts:76-80 | Every grid point is one subject's close in one epoch. |
| TwinSchedule.GridSpacing | scripts/twin-accelerate.ts:76-80 | Neighbouring closes are the floor or the ceiling of epoch / n apart, the wrap included. |
| TwinSchedule.EveryRoundIsAnEpoch | scripts/twin-accelerate.ts:76-80 | Any n gaps in a row add up to one epoch, so exactly epoch mod n of them are the longer. |
| TwinSchedule.OneCloseEach | scripts/twin-accelerate.ts:19-21 | Every half-open interval of one epoch holds exactly one close of each subject. |
| TwinSchedule.RetimedOnce | scripts/twin-accelerate.ts:82-86 | One update keeps every window's history: only earlier, only collecting, only to its own subject's close. |
| TwinSchedule.Twin.Accelerate | scripts/twin-accelerate.ts:147-164 | Wherever it stops, no window moved later, only planned subjects' collecting windows moved, and exactly the subjects it got to are anchored at their close. |
| DriftDiagnosis.FindLast | backend/scripts/composite-drift-diagnosis.ts:73-77 | The loop finds the specified last observation. |
| DriftDiagnosis.LastIsLatest | backend/scripts/composite-drift-diagnosis.ts:73-77 | Sorted or not: found exactly when a row is on or before the day, and then it is the last of the latest date. |
| DriftDiagnosis.SortsById | backend/scripts/composite-drift-diagnosis.ts:118-118 | The sorted cards are in id order and a permutation of the unsorted. |
| DriftDiagnosis.FindDiffering | backend/scripts/composite-drift-diagnosis.ts:111-118 | The cards that differ, in id order, none lost or doubled. |
| DriftDiagnosis.Diagnose | backend/scripts/composite-drift-diagnosis.ts:111-145 | The two loops give the differing cards and the inputs with all of them put in. |
| DriftDiagnosis.LastAfterSubstitution | backend/scripts/composite-drift-diagnosis.ts:80-84 | With its card in, a series ends with it if the card's day is up to the as-of day, and as before otherwise. |
| DriftDiagnosis.EveryCardIsMet | backend/scripts/composite-drift-diagnosis.ts:143-146 | After the all-at-once substitution every series with an observation by the as-of day ends with its card's. |
| DriftDiagnosis.OthersAreUntouched | backend/scripts/composite-drift-diagnosis.ts:80-84 | A series without a differing card is as it was. |
| DriftDiagnosis.OrderIsIrrelevant | backend/scripts/composite-drift-diagnosis.ts:143-146 | The order of the substitutions does not matter. |
| DriftDiagnosis.LaterCardIsNotMet | backend/scripts/composite-drift-diagnosis.ts:80-84 | It does fail for a card of a later day: such a series differs again. |
| DriftCause.ScanVersions | backend/scripts/composite-drift-diagnosis.ts:121-141 | The pass over the stored versions finds, for each wanted observation, the last that holds the replayed one and the one of least id that holds the computed one. |
| DriftCause.LastVersionIsLast | backend/scripts/composite-drift-diagnosis.ts:133-134 | None exactly when no version holds it; otherwise the last that does. |
| DriftCause.LeastVersionIsLeast | backend/scripts/composite-drift-diagnosis.ts:135-139 | None exactly when no version holds it; otherwise one of least id that does. |
| DriftCause.DiagnoseRun | backend/scripts/composite-drift-diagnosis.ts:111-160 | From the inputs and the published cards on, the diagnosis is the specified one. |
| DriftCause.FailsWithoutAVersion | backend/scripts/composite-drift-diagnosis.ts:146-147 | It fails exactly when some differing series' replayed observation is in no stored version. |
| DriftCause.CauseExact | backend/scripts/composite-drift-diagnosis.ts:157-160 | The series are the differing cards, in order, each with the observation replayed, a stored version of it and its own effect; published plus delta, and the substituted composite plus effect, are the replayed composite, over exact reals; the cause is the handoff exactly when the run predates the fix, the computed inputs give the published composite back, some series differs, and every replayed side was committed after the start. |
| DriftCause.OneSeriesIsTheEffect | backend/scripts/composite-drift-diagnosis.ts:153-158 | When one series alone differs, its own effect is the whole effect. |
| DriftDiagnosis.NothingDiffersAgain | backend/scripts/composite-drift-diagnosis.ts:111-146 | Diagnosing again finds nothing if and only if every card that differed is of a day up to the as-of day. |

## Left out

- `MigrateTarget.Checkout`: the on-disk list and the snapshot's are one list; the seam that reads migrations from
  elsewhere is not modelled.
- The catalog comparison is one bit; the grants' SQL is whether the privileges are the snapshot's; compat
  columns, headers' contents and the manifest's hash are not modelled beyond valid or not.
- `MigrateRunners.Next`: the manifest, remainder and gap reads of one plan are one instant (a torn read can only
  refuse), and waiting for a lock has no time-out.
- `MigrateCommand.MigrateCommand`: the lock taken, the ledger reconciliation, the owner's login, the
  confirmation and the receipt's write are a parameter that says which phase stops, if any; `bun smoke --migrate`,
  which keeps no journal of its own, is not modelled; reasons are not the messages' texts.
- `MigrateJournal.MigrateJournal.Begin`: the file's writes and renames are not modelled, only its contents.
- `HtmlReader.ParseHtml`: the token pattern's own matching is taken as given, from its matches on. A stacked
  element is added to its parent when it closes, not when it opens, so the sharing of one node between stack and
  parent is not modelled (an unclosed element throws either way).
- `HtmlReader.SetAttr`: attribute names that are array indices are kept in insertion order; the source's object
  lists them first.
- `HtmlText.FindInherited`: the text of an inherited function is the one JavaScriptCore prints.
- `readPage`, `readCase` and `findAll`: straight reads of a parsed page; the check starts from what they read.
- `RiskPage.Build`: the two files' contents, not their text.
- `RiskPage.RowProblems`: numbers are exact, and `firstUsd` is a field of the row.
- `Changelog.StampChangelog`: the patterns that find blocks, lists and headings in the text, white space, dividers
  and heading markup; a page is its sections, entries and lists.
- `stampSitemap`: one replacement.
- `TokenFees.Months`: volumes are exact reals, and the month of a time is any function that keeps time order.
- `TokenFees.Reported`: prices, the monthly estimate's shares and the printed report are floating point and
  not modelled; `last` is taken at most the running total, as the locker keeps it.
- `ProdInit.Host.RebindMembers`: only rebind-members of the four commands; the gates that read the
  environment are a set that says which pass; releasing the lock does not fail.
- `ContributionGate.FileDiff`: a path git quotes is not modelled (its header line is not read as a name at all).
- `ContributionGate.ParsePolicy`: it starts from the parsed members, with globs that are strings.
- `ContributionGate.GitDiffGivesTheHead`: type changes, which the diff leaves out, change no path.
- `ContributionGate.Gate`: an unset author and a missing base ref end the script before the gate.
- `TextLines.LowerAscii`: letters outside ASCII are not lower-cased.
- `TwinSchedule.Round`: exact rationals; the source's doubles agree at these sizes.
- The scheduler's restart, health wait and receipt of `twin:accelerate`.
- `DriftCause.DiagnoseRun`: the copy's tables, the published payload's hash and the compute code are not part of
  this model: the inputs, the cards and the composite are parameters, and numbers are exact. A version is
  looked up by series and date as a pair, where the source joins them with a bar.
