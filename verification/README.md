# Postgame pipeline and archive tools: a Dafny model

The repository's college football postgame pipeline has two halves. `scripts/cfb_postgame_queue.py` is a durable
discovery and lease queue: polls of official statuses are merged, a worker leases a final game, and a finished lease
records a verified version or a failure. `scripts/cfb_postgame_rehearsal.py` is a versioned ledger: every accepted
payload becomes an immutable version, a pointer selects the current one, two team cards are rebuilt, three notices go to
an outbox, and snapshots answer what was known at a cutoff. Around them stand the archive tools: a resumable range
download, a splitter of SQL exports, a foreign-key import planner, a tar packer, an SQL printer with the tuple counter
that checks it, a rolling feature builder, and the roster windows behind the ledger's membership test.

The project models all of these. Every operation that updates tables, files or local variables step by step is a method
(`Queue`, `Ledger` and `Output` are classes), proved against a function that says what the call does to the state; the
theorems are about those functions, over every input or every run.

| files | what they hold |
|---|---|
| `clock_text.dfy`, `text.dfy` | the clock texts the queue compares, and text order |
| `queue_table.dfy`, `queue.dfy`, `queue_runs.dfy`, `queue_polls.dfy`, `queue_stale.dfy`, `queue_late_finish.dfy`, `queue_facts.dfy` | the queue: one call, the class, leases over whole runs, convergence of polls, writes between the read and the transaction of a poll or a finish, and each call by the columns of its rows |
| `games.dfy`, `aggregates.dfy`, `cards.dfy` | payload validation, order-free aggregation, team cards |
| `ledger_store.dfy`, `ledger.dfy`, `ledger_runs.dfy`, `ledger_history.dfy`, `ledger_snapshots.dfy` | the ledger: one call, the class, card coherence, version history, snapshots |
| `ledger_facts.dfy`, `entry_facts.dfy`, `card_facts.dfy`, `snapshot_facts.dfy` | the ledger by the fields of payloads and versions: what is accepted, what cards and snapshots say |
| `conservation.dfy`, `sums.dfy` | double counting over a season's cards |
| `download.dfy`, `download_runs.dfy` | the download, and histories of crashes and damaged files |
| `packing.dfy`, `partition.dfy`, `blocks.dfy`, `sql_batches.dfy` | greedy packing and its three users |
| `sql_text.dfy`, `sql_read.dfy` | the SQL printer, the tuple counter, and reading printed rows back |
| `dependency_plan.dfy` | layered import order |
| `rolling.dfy`, `rolling_facts.dfy` | rolling features without leakage, and what a row says |
| `windows.dfy`, `window_facts.dfy` | roster windows, and the same by the timing table |
| `runs.dfy`, `minimum.dfy`, `sorting.dfy`, `names.dfy`, `sequences.dfy`, `bytes.dfy`, `directories.dfy`, `wrappers.dfy` | induction over runs, first elements of an order, insertion sort, sorted names, and small shared types |

The `_facts` files state what the functions that specify the calls mean, without naming their helpers: conditions and
stored values are spelled out by fields, and totals are sums over sets of games.

Conventions. A digest is taken to be injective, so content stands for its own id. Claim tokens are fresh where a lemma
says `FreshTokens`. A transaction is one step that applies fully or not at all. Clocks are integers, and no lemma assumes
that the clocks of successive calls rise unless it says so; `ClockText` justifies comparing the stored texts that way.
Metrics are real numbers.

## What the proofs found

- Between any two consecutive grants of a game the lease excludes the second, whatever the clocks do. For grants
  further apart this fails if a worker's clock is behind: after a second grant past the first expiry and a finish, a
  third claim may read a clock from before that expiry and be granted. `OvertakenExactlyWhen` says for which three claims this
  can happen, and `LeaseExclusionAnyPair` that it is the only way.
- A verified version never becomes null, but `finish` with an empty version and a failure state stores the empty text:
  the branch treats it as no version and `COALESCE` as a value (scripts/cfb_postgame_queue.py:73-79).
  `VerifiedLostExactlyWhen` says by which calls a verification is lost, and `EmptyVersionErasesVerification` is a run from
  a new queue that ends in one.
- `reconcile` says that repeated final polls do not defeat a lease or erase failure state
  (scripts/cfb_postgame_queue.py:45). It reads its rows before its transaction opens, and writes in between break this:
  `PollDefeatsLease` and `PollUndoesQuarantine` are runs from a new queue. A lease survives exactly when the game was
  already being validated when its row was read (`LeaseSurvivesExactlyWhen`).
- The same gap breaks the order of observations. A stale write takes a row back to an older observation exactly when a
  newer poll was written between the read and the write (`MovesBackExactlyWhen`, and the run `OlderPollWrittenLast`), so
  with two pollers `LatestWins` fails, and a final game can become unclaimable again (`OlderPollHidesFinal`). A batch that
  one step would refuse is written all the same (`RefusedBatchWrittenRun`). `BatchSerialExactlyWhen` and
  `OnePollSerialExactlyWhen` say when the stale write does what one step would; it does if every polled game was left
  alone in between (`QuietIsSerial`).
- `finish` selects its row before its transaction opens, too. A grant is finished a second time exactly when the second
  call reads before the first one writes (`FinishedAgainExactlyWhen`); in `TwoFinishesOneGrant` the second version
  replaces the first without being marked as a correction. In `UnfinalGameVerified` a game that is no longer final is
  closed as verified.
- The last part of a split export may exceed the bound by trailing blank text, because the rest is appended without the
  check (scripts/cfb-d1-import-partition.py:34). All parts keep the bound exactly when the last group of statements
  leaves room for the rest (`PartsAreWholeStatements`).
- A table with a foreign key to `sqlite_sequence` is accepted and imported before that parent
  (scripts/cfb-d1-dependency-plan.py:33-38); for every other key the parent comes strictly first.
- The tuple counter takes a column whose name starts with `VALUES` for the keyword and then refuses the statement;
  it agrees with the printer exactly when no column does.
- Roster windows of a resolved player partition the season even when first games lie outside it. They stay inside the season
  exactly when the second start is not before it and the last not after it; the first start does not matter.
- For given metric columns the rolling builder leaks nothing. But the column list is the union over all records, later
  ones included (scripts/cfb-sdv-advanced-rolling-backtest.py:39), so a later game that names a new metric makes every
  earlier row longer: `LaterGameGrowsRow` is such an input. `LeaksExactlyByNames` says that a game's named features depend on
  later games exactly through the set of metric names, `SharedColumnsAgree` that the columns present either way keep their
  values, and `LateColumnIsEmpty` that a column only later games carry holds no value.

## Model

| member | source | states |
|---|---|---|
| ClockText.DaysBeforeYearFormula | scripts/cfb_postgame_queue.py:6 | the instants behind the texts count days by the Gregorian calendar, in closed form |
| ClockText.TextOrderIsTimeOrder | scripts/cfb_postgame_queue.py:6 | comparing two stored clock texts byte by byte compares the instants, though a fraction is six digits long or absent; equal texts are equal instants |
| PostgameQueue.Queue.Reconcile | scripts/cfb_postgame_queue.py:15-52 | the two loops of `reconcile`: the answer is the admission of the batch and the table is the upsert of the admitted polls, or unchanged |
| PostgameQueue.Queue.Claim | scripts/cfb_postgame_queue.py:53-66 | grants the first eligible game in (due, id) order, changes that row's state, lease and attempts only, and rejects an unbounded lease |
| PostgameQueue.Queue.Finish | scripts/cfb_postgame_queue.py:67-79 | accepts exactly the live token of a final leased game before expiry and closes the row; every refusal changes nothing |
| QueueTable.ClaimDetermined | scripts/cfb_postgame_queue.py:59-62 | the row the ordered query returns is unique, so claim's effect is a function of the table |
| QueueRuns.LeaseExclusion | scripts/cfb_postgame_queue.py:53-79 | between consecutive grants of a game the first was finished or had expired at the second's clock, in every run and for any clocks |
| QueueRuns.LeaseExclusionAnyPair | scripts/cfb_postgame_queue.py:53-79 | the same for any two grants of a game when no claim reads a clock from before an expiry that an earlier claim had reached |
| QueueRuns.OvertakenExactlyWhen | scripts/cfb_postgame_queue.py:53-79 | three claims can end with the third granted inside the first's unfinished lease exactly when the third's clock is behind an expiry the second's had reached |
| QueueRuns.RevokedForGood | scripts/cfb_postgame_queue.py:71-72 | a grant whose token is no longer live can never finish, whatever follows |
| QueueRuns.UnfinalRevokes | scripts/cfb_postgame_queue.py:41-51 | a poll that un-finals a leased game ends that grant for good, even if the game becomes final again |
| QueueRuns.FinishOnce | scripts/cfb_postgame_queue.py:67-79 | no token finishes twice |
| QueueRuns.FinishNeedsLatestGrant | scripts/cfb_postgame_queue.py:71-72 | a successful finish carries the latest grant's token before its expiry, with the game final ever since the grant |
| QueueRuns.AttemptsCountGrants | scripts/cfb_postgame_queue.py:63 | `attempts` is the number of grants of the game in the run |
| QueueRuns.VerifiedStep | scripts/cfb_postgame_queue.py:40-51 | only a successful finish with a version changes the verified version; rows are never deleted |
| QueueRuns.VerifiedNeverNull | scripts/cfb_postgame_queue.py:78-79 | a verified version stays non-null in every later state |
| QueueRuns.VerifiedLostExactlyWhen | scripts/cfb_postgame_queue.py:69-79 | a verification becomes empty exactly by a finish with an empty version, a failure state, a bounded delay and the live lease |
| QueueRuns.EmptyVersionErasesVerification | scripts/cfb_postgame_queue.py:69-79 | a run from a new queue, for any version, that verifies it and then erases it |
| QueueRuns.ReachableSound | scripts/cfb_postgame_queue.py:40-79 | every reachable row: non-final games are idle, reversed verified results are quarantined, final games wait claimable or are quarantined |
| QueueRuns.FinalGameNotLost | scripts/cfb_postgame_queue.py:59-62 | in every reachable state a final, unquarantined game is eligible exactly from the later of due time and lease expiry on; no other game ever is |
| QueueRuns.DrainGrantsAllOnce | scripts/cfb_postgame_queue.py:59-65 | at a fixed clock repeated claims return every eligible game once, in (due, id) order, and then nothing |
| QueuePolls.AdmittedExactlyWhen | scripts/cfb_postgame_queue.py:19-39 | a batch is admitted exactly when its games are distinct and every poll passes on its own; the polls written are exactly the ones taken |
| QueuePolls.InvalidBatchChangesNothing | scripts/cfb_postgame_queue.py:17-39 | one invalid poll anywhere in a batch leaves the whole table as it was |
| QueuePolls.BatchTwice | scripts/cfb_postgame_queue.py:37-51 | applying a batch again, at the same or a later clock, is accepted and changes nothing |
| QueuePolls.LatestWins | scripts/cfb_postgame_queue.py:37-51 | after any run each row shows the status and time of the latest observation it was told |
| QueuePolls.SameNewsSameStatus | scripts/cfb_postgame_queue.py:37-51 | two runs told the same polls of a game agree on its status and identity |
| QueuePolls.ConsistentAdmitted | scripts/cfb_postgame_queue.py:19-39 | in a run with consistent identities and no same-time conflict every batch is admitted |
| QueuePolls.OrderAndBatchingIrrelevant | scripts/cfb_postgame_queue.py:15-52 | consistent runs offering the same polls in any order and batching end with the same games, statuses and observation times |
| QueueFacts.AdmittedByFields | scripts/cfb_postgame_queue.py:19-39 | a batch is admitted exactly when its games are distinct and every poll has evidence, two listed teams, and, if one is FBS, an official status that agrees with the row; taken are the FBS polls not older than their row |
| QueueFacts.PolledRowByFields | scripts/cfb_postgame_queue.py:41-51 | every column of a polled game's row after an admitted batch, for new, final, reversed and repeated polls |
| QueueFacts.OtherGamesByFields | scripts/cfb_postgame_queue.py:40-51 | games that are not polled keep their rows |
| QueueFacts.NewGameQueuedExactlyWhen | scripts/cfb_postgame_queue.py:26-31 | a poll in order of a new game makes a row exactly when one of the two listings is FBS |
| QueueFacts.QueuedExactlyWhen | scripts/cfb_postgame_queue.py:26-51 | after any run a game has a row exactly when an admitted batch held a poll of it with a team listed FBS |
| QueueFacts.ClaimByFields | scripts/cfb_postgame_queue.py:53-66 | the answer and the whole effect of a claim: the granted game waits, and every other waiting game is due later, or at the same time with a greater id |
| QueueFacts.DrainByFields | scripts/cfb_postgame_queue.py:59-65 | repeated claims at one clock grant exactly the waiting games, once each, earliest due time first, then by id |
| QueueFacts.FinalGameWaits | scripts/cfb_postgame_queue.py:59-62 | in every reachable state a final game waits for a claim from its due time and the end of its lease on, unless it is quarantined |
| QueueFacts.FinishByFields | scripts/cfb_postgame_queue.py:67-79 | exactly when a finish is accepted, and every column it then stores |
| QueueStale.FreshReconcile | scripts/cfb_postgame_queue.py:15-52 | reading and writing apart, with nothing in between, is the reconcile of the class |
| QueueStale.LeaseSurvivesExactlyWhen | scripts/cfb_postgame_queue.py:35-51 | a lease that is live at the write survives exactly when the poll is final and the row was read as final and being validated |
| QueueStale.QuarantineSurvivesExactlyWhen | scripts/cfb_postgame_queue.py:35-51 | a game quarantined at the write stays so exactly when it was read as quarantined, or the poll reverses a result read as verified |
| QueueStale.OnePollSerialExactlyWhen | scripts/cfb_postgame_queue.py:35-51 | one poll, of any status, is stored as by a single step exactly when no newer and no conflicting observation was stored meanwhile and the old and the new row lead to the same state and due time |
| QueueStale.BatchSerialExactlyWhen | scripts/cfb_postgame_queue.py:35-51 | a batch admitted at the read and by a single step leaves the same table exactly when that holds for every poll taken |
| QueueStale.RefusedBatchWritten | scripts/cfb_postgame_queue.py:17-51 | a batch that a single step refuses changes nothing exactly when it finds every row as it would leave it |
| QueueStale.RefusedBatchWrittenRun | scripts/cfb_postgame_queue.py:17-51 | a run where a batch is written, for a game nobody touched, that a single step refuses because of another game |
| QueueStale.QuietIsSerial | scripts/cfb_postgame_queue.py:35-51 | if no call in between grants, finishes or polls any polled game, the whole call does what a single step would |
| QueueStale.MovesBackExactlyWhen | scripts/cfb_postgame_queue.py:37-51 | a row goes back to an older observation exactly when a newer poll of it was written between the read and the write |
| QueueStale.OlderPollWrittenLast | scripts/cfb_postgame_queue.py:37-51 | a run where a row's observation goes back, which a single step prevents |
| QueueStale.OlderPollHidesFinal | scripts/cfb_postgame_queue.py:37-51 | a run where an older poll makes an eligible final game ineligible at every clock |
| QueueStale.PollDefeatsLease | scripts/cfb_postgame_queue.py:44-51 | a run where a repeated final poll ends a lease that a single step would leave alone |
| QueueStale.PollUndoesQuarantine | scripts/cfb_postgame_queue.py:44-51 | a run where a repeated final poll makes a quarantined game eligible |
| QueueStale.GrantInBetween | scripts/cfb_postgame_queue.py:44-51 | a lease granted between read and write is lost unless the game was being validated when read |
| QueueStale.QuarantineInBetween | scripts/cfb_postgame_queue.py:44-51 | a quarantine made between read and write is undone and the game is eligible again |
| QueueLateFinish.PromptFinish | scripts/cfb_postgame_queue.py:67-79 | reading and writing apart, with nothing in between, is the finish of the class |
| QueueLateFinish.HonouredExactlyBetween | scripts/cfb_postgame_queue.py:71-72 | a finished grant's token passes the lease test exactly on rows read after the grant and before the finish was written, at a clock before the expiry |
| QueueLateFinish.FinishedAgainExactlyWhen | scripts/cfb_postgame_queue.py:70-79 | a finished grant is finished again exactly by a call that read in that time |
| QueueLateFinish.LateFinishSerialExactlyWhen | scripts/cfb_postgame_queue.py:70-79 | a late finish does what a single step would exactly when the lease still stands at the write, or the row was closed with the same columns |
| QueueLateFinish.TwoFinishesOneGrant | scripts/cfb_postgame_queue.py:70-79 | a run where one grant is finished twice and the second version is not marked as a correction |
| QueueLateFinish.UnfinalGameVerified | scripts/cfb_postgame_queue.py:70-79 | a run where a game that is no longer final is closed as verified |
| Games.Validate | scripts/cfb_postgame_rehearsal.py:106-157 | a payload is accepted exactly when its header and chronology are sound, both teams are identified, reconciled with the score, complete, with sound members and metrics, and one is FBS; partial answers mean an incomplete team |
| LedgerFacts.AcceptedByFields | scripts/cfb_postgame_rehearsal.py:106-157 | a payload is accepted exactly when its fields are in order: home team with the home score, away team with the away score, identities, completeness, members, the four attempt pairs, one FBS team |
| LedgerFacts.PartialByFields | scripts/cfb_postgame_rehearsal.py:123-133 | a payload is partial exactly when the first team that is not in order is declared incomplete |
| LedgerFacts.ProcessByFields | scripts/cfb_postgame_rehearsal.py:185-232 | in every reachable state: a payload is returned exactly when in order and either current or news of its match, and committed exactly when news, with the version, pointer and three notices spelled out |
| LedgerFacts.JobsByFields | scripts/cfb_postgame_rehearsal.py:193-236 | the state, attempts and failure of the game's job after every outcome; other jobs are kept |
| LedgerFacts.EveryVersionWasPlain | scripts/cfb_postgame_rehearsal.py:195-215 | every stored version in every run was in order when it was committed |
| LedgerFacts.FirstPayloadCommitted | scripts/cfb_postgame_rehearsal.py:185-232 | from a new ledger a payload in order is returned and current |
| LedgerFacts.DiscoverByFields | scripts/cfb_postgame_rehearsal.py:94-104 | the whole effect of a discovery, by status and by the job's state |
| EntryFacts.AggregateTells | scripts/cfb_postgame_rehearsal.py:58-75 | entries over games are counts, sums and means over the games that report the key, and ratios of sums over the games that report both sides |
| Aggregates.AggregateOrderFree | scripts/cfb_postgame_rehearsal.py:58-75 | every count, total, mean and paired ratio depends on the multiset of records only |
| Aggregates.MissingIsNotZero | scripts/cfb_postgame_rehearsal.py:62-74 | a record anywhere among the others that does not report a metric changes neither its count, total and mean nor any ratio it is part of |
| CardFacts.CurrentCardsTell | scripts/cfb_postgame_rehearsal.py:163-183 | in every reachable state there is a card for exactly the teams and seasons with current games: wins, losses and ties count the games in which the team with that id scored more, fewer or as many points, offense and defense are its own and the other team's metrics, rolling5 the five latest games, and players' rows and versions those of its games |
| CardFacts.MarginByPoints | scripts/cfb_postgame_rehearsal.py:170-173 | the sign of the margin says which of the two teams, by id, scored more |
| Cards.OtherCardsUntouched | scripts/cfb_postgame_rehearsal.py:163-183 | a commit of a match-preserving version changes no card of another team or season |
| Cards.TwoCardsSuffice | scripts/cfb_postgame_rehearsal.py:210-224 | replacing the two participants' cards equals recomputing every card |
| PostgameLedger.Ledger.Process | scripts/cfb_postgame_rehearsal.py:185-236 | evidence and a job note first, then validation, re-poll, replay and correction checks, then the transaction or its rollback: the new store and the answer are those of the specification |
| PostgameLedger.Ledger.Transaction | scripts/cfb_postgame_rehearsal.py:213-229 | all of version, pointer, cards and notices, or none of them if either card update fails |
| PostgameLedger.Ledger.Discover | scripts/cfb_postgame_rehearsal.py:94-104 | an unknown status writes nothing, and a reconciled game is not regressed |
| PostgameLedger.Ledger.Scan | scripts/cfb_postgame_rehearsal.py:242-248 | the scan loop selects the latest visible version of each game |
| PostgameLedger.Ledger.Snapshot | scripts/cfb_postgame_rehearsal.py:238-266 | stores and returns the snapshot of the versions at the cutoff, or refuses a cutoff not before kickoff |
| PostgameLedger.AnyOrderWillDo | scripts/cfb_postgame_rehearsal.py:254-262 | a team's snapshot state is the same whatever order the games are found in |
| LedgerRuns.OnlyCommitsCount | scripts/cfb_postgame_rehearsal.py:185-236 | a raising call, at whatever point, or a re-poll of identical content changes raw evidence and jobs only |
| LedgerRuns.OtherJobsUntouched | scripts/cfb_postgame_rehearsal.py:88-92 | and of the jobs only the called game's |
| LedgerRuns.HeadIsGreatest | scripts/cfb_postgame_rehearsal.py:206-217 | the pointer of a game is a stored version and none of its versions was observed later |
| LedgerRuns.CommitCoherent | scripts/cfb_postgame_rehearsal.py:196-229 | a commit keeps cards, pointers, card versions and outbox coherent with the history |
| LedgerRuns.ReachableCoherent | scripts/cfb_postgame_rehearsal.py:163-229 | in every reachable state every current card equals the full recomputation, though each commit rebuilds two |
| LedgerHistory.AppendOnly | scripts/cfb_postgame_rehearsal.py:214-215 | earlier version lists are prefixes of later ones |
| LedgerHistory.PointerForward | scripts/cfb_postgame_rehearsal.py:205-217 | a game's pointer never disappears and only moves to strictly later observations |
| LedgerHistory.SupersededForGood | scripts/cfb_postgame_rehearsal.py:203-217 | a version once superseded is never current again, whatever evidence is replayed |
| LedgerHistory.DistinctObservations | scripts/cfb_postgame_rehearsal.py:206-208 | versions of one game are distinct and observed at strictly rising times |
| LedgerHistory.EvidenceKept | scripts/cfb_postgame_rehearsal.py:189-192 | every stored version's evidence is in the raw table |
| LedgerHistory.OutboxExactlyOnce | scripts/cfb_postgame_rehearsal.py:227-229 | in every run the outbox holds each of the three notices of each version once and nothing else |
| LedgerHistory.CardListsGames | scripts/cfb_postgame_rehearsal.py:164-182 | a card lists exactly its team's current games of the season |
| LedgerHistory.HealthClean | scripts/cfb_postgame_rehearsal.py:268-286 | `health` finds no missing and no stale card in any reachable state |
| LedgerSnapshots.CandidatesAreLatest | scripts/cfb_postgame_rehearsal.py:241-248 | the candidate of a game is its latest version visible at the cutoff, and none means none is visible |
| SnapshotFacts.BoardAtTells | scripts/cfb_postgame_rehearsal.py:241-248 | in every reachable state a game with a version that is observed after the game, stored and observed by the cutoff and begun before it is selected, with the one of these observed last |
| SnapshotFacts.BoardAtOnlyTells | scripts/cfb_postgame_rehearsal.py:241-248 | and nothing else is selected: every game selected has such a version |
| SnapshotFacts.SnapshotVersionsTell | scripts/cfb_postgame_rehearsal.py:249-251 | a snapshot's versions are exactly these, of its season and of one of its teams |
| SnapshotFacts.SnapshotTells | scripts/cfb_postgame_rehearsal.py:249-262 | its team states add up the selected games of the season by team id |
| SnapshotFacts.TakenByFields | scripts/cfb_postgame_rehearsal.py:238-266 | a snapshot is refused exactly when the cutoff is not before kickoff, else kept and returned |
| SnapshotFacts.StaleByFields | scripts/cfb_postgame_rehearsal.py:268-285 | `health` reports exactly the current games one of whose two teams has no card that lists them |
| LedgerSnapshots.SnapshotStable | scripts/cfb_postgame_rehearsal.py:238-266 | a snapshot's body is unchanged by any later calls whose commit clocks are after the cutoff |
| LedgerSnapshots.SnapshotAgreesWithCards | scripts/cfb_postgame_rehearsal.py:241-262 | when the cutoff sees all versions, the snapshot picks the current pointers and its team states equal the current cards |
| Conservation.EachGameFromBothSides | scripts/cfb_postgame_rehearsal.py:163-183 | any per-side quantity summed over a season's cards equals the sum over its games of both sides |
| Conservation.SeasonConserved | scripts/cfb_postgame_rehearsal.py:58-75 | in every reachable state, per season: wins equal losses, ties are even, card games are twice the games, and each additive metric's offense total equals its defense total |
| Download.Output.Download | scripts/archive_checked_download.py:32-92 | the run's writes, in order, and its answer are those of the specification, for any server and any read sizes |
| Download.FetchRange | scripts/archive_checked_download.py:63-77 | a range is accepted exactly on status 206, the requested Content-Range and a body of exactly its length, however the reads are cut |
| DownloadRuns.RangesTile | scripts/archive_checked_download.py:61-62 | the ranges of a chunk cover it without gap, overlap or excess |
| DownloadRuns.FetchIsSource | scripts/archive_checked_download.py:60-77 | what a chunk's ranges deliver is that stretch of the source |
| DownloadRuns.RunSafe | scripts/archive_checked_download.py:41-92 | every write of a run keeps the manifest truthful and every entry's part in place |
| DownloadRuns.EveryCrashIsSafe | scripts/archive_checked_download.py:41-92 | after any attempts crashed at any write, each manifest entry names a complete correct chunk |
| DownloadRuns.ResumeGivesSource | scripts/archive_checked_download.py:41-92 | after any history of crashes and damaged parts, a download that returns leaves parts whose concatenation is the source |
| DownloadRuns.ReturnsExactlyWhen | scripts/archive_checked_download.py:34-92 | a download returns exactly when the job matches, the recorded parts are intact and every remaining range is accepted |
| DownloadRuns.PerfectDownload | scripts/archive_checked_download.py:32-92 | a new download of any source from a server that answers every range in full returns and leaves the source |
| DownloadRuns.RefusedByFields | scripts/archive_checked_download.py:34-46 | unusable arguments and another job are refused before anything is written; otherwise the first write is the job's manifest |
| DownloadRuns.ProgressKept | scripts/archive_checked_download.py:41-46 | nothing replaces a job on disk or drops a recorded chunk |
| Packing.PackGroups | scripts/storage-pack-blocks.py:4-10 | greedy groups hold all items once, in order, each group within the bound or a single item |
| Packing.PackOptimal | scripts/storage-pack-blocks.py:4-10 | no order-preserving grouping within the bound has fewer groups |
| Blocks.Group | scripts/storage-pack-blocks.py:3-10 | the grouping loop over regular files is the greedy packing at eight mebibytes |
| Blocks.BlocksLosslessAndOptimal | scripts/storage-pack-blocks.py:3-10 | every file in one block, in order; only a single oversize file exceeds the limit; no fewer blocks are possible |
| Blocks.FilesTell | scripts/storage-pack-blocks.py:5-6 | what is packed are the regular files, each as often as listed |
| Blocks.FilesInOrder | scripts/storage-pack-blocks.py:5-6 | and in the listed order |
| Partition.Partition | scripts/cfb-d1-import-partition.py:9-36 | the line loop with its flushes computes the specified parts or the specified refusal |
| Partition.ScanCutsSource | scripts/cfb-d1-import-partition.py:22-32 | the statements and the rest are the source, each statement complete, free of transactions and within the bound |
| Partition.StatementsAreShortest | scripts/cfb-d1-import-partition.py:22-32 | cuts fall at line ends only: each statement is a run of whole lines of which no shorter run is complete, and no run of the rest is |
| Partition.SplitsExactlyWhen | scripts/cfb-d1-import-partition.py:12-36 | a source is split exactly when the bound is qualified, the bytes are expected, and the lines can be cut into complete statements within the bound, none of them a transaction, and a blank rest |
| Partition.PartsLossless | scripts/cfb-d1-import-partition.py:31-36 | the parts concatenate to the source, byte for byte |
| Partition.PartsAreWholeStatements | scripts/cfb-d1-import-partition.py:31-35 | parts are groups of whole statements with the blank rest in the last one, and all are within the bound exactly when the last group leaves room for the rest |
| Partition.PartsOptimal | scripts/cfb-d1-import-partition.py:31-35 | no order-preserving split of whole statements within the bound uses fewer parts |
| Partition.TrailingBlankLineExceedsBound | scripts/cfb-d1-import-partition.py:33-35 | a source whose last part is one byte over the bound |
| DependencyPlan.Qualify | scripts/cfb-d1-dependency-plan.py:16-38 | the planner's loops compute the specified order or refusal |
| DependencyPlan.GraphIsKeys | scripts/cfb-d1-dependency-plan.py:24-29 | the edges are exactly the declared keys, refused exactly on an unknown parent |
| DependencyPlan.LayerIsLongestChain | scripts/cfb-d1-dependency-plan.py:33-37 | the round in which a table is peeled off is the length of its longest foreign-key chain |
| DependencyPlan.RefusesExactlyCycles | scripts/cfb-d1-dependency-plan.py:34-36 | tables get stuck exactly when the user tables have a cycle, self-references included |
| DependencyPlan.AcceptedOrder | scripts/cfb-d1-dependency-plan.py:33-38 | an accepted order lists every table once, sqlite_sequence last, and a parent before its child exactly when it is not sqlite_sequence |
| DependencyPlan.AcceptedByLayer | scripts/cfb-d1-dependency-plan.py:33-37 | user tables are ordered by layer, and by name within a layer |
| DependencyPlan.AcceptsExactlyWhen | scripts/cfb-d1-dependency-plan.py:16-38 | the planner accepts exactly when the counts cover the tables, every parent is a table and there is no cycle |
| DependencyPlan.SequenceParentComesLast | scripts/cfb-d1-dependency-plan.py:33-38 | a plan whose child precedes its parent sqlite_sequence |
| SqlText.TupleCount | scripts/cfb-existing-backup-verify.py:11-27 | the index loop computes the count of the text after the first keyword, or refuses |
| SqlText.ReadTuples | scripts/cfb-existing-backup-verify.py:15-25 | printed tuples are counted one by one whatever their texts hold, and leave depth and quoting as they were |
| SqlText.PrintedTuplesAreCounted | scripts/cfb-existing-backup-verify.py:11-27 | the counter returns the number of rows of every printed statement exactly when no column name starts with the keyword, and refuses it otherwise |
| SqlRead.CellRead | scripts/prepare-market-rehearsal.py:12-15 | a printed cell reads back as itself, with its quotes, commas and parentheses |
| SqlRead.RowsRead | scripts/prepare-market-rehearsal.py:12-21 | printed rows read back as they were, whatever their texts hold |
| SqlBatches.StatementReadsBack | scripts/prepare-market-rehearsal.py:18-26 | what follows a statement's prefix reads back as the statement's rows |
| SqlBatches.Print | scripts/prepare-market-rehearsal.py:17-26 | the batching loop prints the greedy packing of a chunk's rows, or stops at a row that is too large |
| SqlBatches.Prepare | scripts/prepare-market-rehearsal.py:16-28 | one file per twenty rows up to the first chunk with a row that is too large |
| SqlBatches.ChunksCoverRows | scripts/prepare-market-rehearsal.py:16-17 | the chunks carry every row once, in order |
| SqlBatches.StatementsCarryRows | scripts/prepare-market-rehearsal.py:18-26 | a file's statements carry its rows once, in order, each under 85,000 bytes with exactly the tuples the verifier counts, and no fewer statements are possible |
| SqlBatches.PreparedFilesCarryRows | scripts/prepare-market-rehearsal.py:16-28 | the statements of all files together carry every row once, in order, each under the limit and counted exactly |
| Rolling.MakeRetroRows | scripts/cfb-sdv-advanced-rolling-backtest.py:33-97 | the columns are the sorted metric names of all records, and the single kickoff-batched pass gives every game the row of the direct definition over the whole list |
| Rolling.HistoryGivesSample | scripts/cfb-sdv-advanced-rolling-backtest.py:65-69 | the history kept so far yields the last five games of the season before kickoff, else of the season before, of the complete list |
| RollingFacts.BuiltRowTells | scripts/cfb-sdv-advanced-rolling-backtest.py:65-91 | a row's margin, total and counts, and in each half the mean of each column over the team's five latest games of the season before kickoff, else of the season before |
| RollingFacts.SampleTells | scripts/cfb-sdv-advanced-rolling-backtest.py:65-69 | the sample is made of exactly these games, in order |
| RollingFacts.ColumnsTell | scripts/cfb-sdv-advanced-rolling-backtest.py:39 | the columns are the metric names of all records, once each, in text order |
| Rolling.NoLeakage | scripts/cfb-sdv-advanced-rolling-backtest.py:65-97 | for the same given columns, a game's features are equal for any two inputs, in any order, that agree on the games before its kickoff |
| Rolling.LeaksExactlyByNames | scripts/cfb-sdv-advanced-rolling-backtest.py:39-97 | with the computed columns, two inputs that agree before the kickoff give a game the same named features exactly when they have the same set of metric names |
| Rolling.SharedColumnsAgree | scripts/cfb-sdv-advanced-rolling-backtest.py:39-97 | a column both inputs have holds the same values, wherever it stands |
| Rolling.LateColumnIsEmpty | scripts/cfb-sdv-advanced-rolling-backtest.py:71-73 | a column that only games at or after the kickoff carry is missing in both halves of the row |
| Rolling.NewNamesGrowRows | scripts/cfb-sdv-advanced-rolling-backtest.py:39-97 | one more game makes every row longer by two values for each metric name it introduces |
| Rolling.LaterGameGrowsRow | scripts/cfb-sdv-advanced-rolling-backtest.py:39 | an input where a later game gives an earlier game's row two more values |
| Windows.BuildWindows | scripts/cfb-player-directory-build.py:164-206 | the grouping and window loops fill the table with each player's windows, and nothing else |
| WindowFacts.ResolvedByTiming | scripts/cfb-player-directory-build.py:177-190 | a player is resolved exactly when listed once, or with known and different starts throughout |
| WindowFacts.WindowsByTiming | scripts/cfb-player-directory-build.py:164-206 | the table holds a window for exactly the listed slots, from the slot's start, or the season's if none of the player's is earlier, to the next start, or the season's end |
| Windows.SeasonPartitioned | scripts/cfb-player-directory-build.py:199-206 | every instant of the season lies in exactly one of the ordered windows, wherever the first games lie |
| Windows.WithinExactlyWhen | scripts/cfb-player-directory-build.py:199-206 | no window reaches outside the season exactly when the second start is not before it and the last not after it |
| Windows.OneTeamAtATime | scripts/cfb-player-directory-build.py:177-206 | a resolved player is on exactly one team at every instant of the season |
| Windows.AtMostOneExactlyWhen | scripts/cfb-player-directory-build.py:178-206 | a player is never on two teams at once exactly when resolved or listed for one team only |
| Windows.UnresolvedWindows | scripts/cfb-player-directory-build.py:188-198 | unresolved players' windows are the whole season and marked so; resolved players' never are |
| Windows.LedgerAcceptsOneTeam | scripts/cfb_postgame_rehearsal.py:134-145 | with such windows as memberships, two accepted payloads of one season and game time cannot list the player on different teams |

## Left out

- SQLite, HTTP, gzip, file systems and fsync: only the contracts stated above remain (atomic transaction, atomic rename, a response accepted or refused, failure at any point). The temporary files of the download are never read again and are not modelled.
- SHA-256, JSON encoding and uuid generation: injective or fresh by convention; a file's checksum stands for its bytes.
- Concurrent connections: each call is one step, except that `QueueStale` and `QueueLateFinish` let any calls happen between the read and the transaction of one `reconcile` or `finish`. `claim` reads inside its transaction. Runs in which several calls are split at once are not covered.
- A payload with a non-finite number: the program raises while encoding it, before anything is written (scripts/cfb_postgame_rehearsal.py:14, 189); here it is kept as evidence like any payload and refused by validation.
- Malformed input texts: clocks that do not parse, missing dictionary keys and the exceptions they raise. Absence that the code tests for is modelled.
- Floating point: metrics and means are reals, so rounding, infinities and the order of summation do not matter here.
- Retrieval clocks of a payload are instants, so two ways to write one instant coincide in them; the game clock keeps its text, which corrections compare.
- Job error messages and failure states: enumerations; an empty failure state passed to `finish` with a version counts as none. `Queue.health` and the counts in the ledger's `health` are read-only summaries.
- Rows of an older ledger whose commit clock is null (scripts/cfb_postgame_rehearsal.py:83-86); a new ledger has none.
- The snapshot's list of versions is a set here; the program sorts it by digest.
- Reports' status and integrity checks, and the manifests the splitter and planner write around their result.
- QueueRuns.LeaseExclusionAnyPair: needs claim clocks without such a relapse; `OvertakenExactlyWhen` shows that it does not hold for every clock.
- SqlText.TupleCount: identifiers and white space are ASCII, and every character counts as one byte; the regular expression engine's Unicode case folding is not modelled.
- The statement loop of the backup verifier and its row reconciliation; the select text and the fixed column count of the market rehearsal.
- Partition.Partition: `sqlite3.complete_statement`, comment stripping and the transaction test are arbitrary predicates of the text.
- SqlRead.RowsRead: the text of a number holds neither commas, quotes nor parentheses and is not NULL, as `repr` prints it.
- Rolling.MakeRetroRows: takes validated pairs of records; the checks that pair records into games and the model fitting after it are not modelled.
- Rolling.NoLeakage: is for given columns; `LeaksExactlyByNames` says exactly how far it holds for the columns the program computes.
- Windows.BuildWindows: starts are instants from a timing table; how the table is taken from game rosters, the identity of provisional players and the confidence values are not modelled.
- Provider acquisition, storage runners, statistical models and the web application.
