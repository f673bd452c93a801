# Ryu Research: verified models

Dafny models of the parts of Ryu where a mistake would be silent: the campaign store of the Research
engine and the workspaces bound to it, the sealing of stored content, the sandbox's system-call filter,
and three byte-level readers. Each model keeps the branches, constants and error conditions of the code
it cites; the theorems are about every input, every run and every interleaving the models allow.
`dafny verify dfyconfig.toml` checks the whole project.

**The campaign store** (`Scores`, `Campaigns`, `CampaignInvariants`, `CampaignRuns`, `CampaignFacts`,
`CampaignLaws`, `CampaignStore`, `Documents`, `CampaignWitness`). Campaigns, attempts and proposal leases
are three tables; every transaction is a function on them, and `CampaignStore.Store` is the object that
updates them in place and is proved against those functions. `CampaignLaws` says of the tables alone whom
each operation refuses and what it leaves. The invariants hold in every reachable store. `StatusRace` and `HistoryLock`
split the operations whose reads happen outside their transaction: the history lock makes every
interleaving equivalent to one step; `set_campaign_status` has no such lock, and the module proves
exactly what that can break. `HistoryCache` is the protocol between the stamps of the writers and the
refreshes of `history.jsonl`, and `Documents` shows which changes of a document are stamped: all of them
while operations are whole, and all but one kind of recovery after a late status update.

**Workspaces** (`Ledger`, `Workspace`, `WorkspaceFacts`, `WorkspaceLaws`, `WorkspaceRuns`, `WorkspaceWitness`, `LogTail`,
`ProcessTree`). One attempt from the tree check to the ledger row, with racing writers and a flag for
each step that can fail, both finish transactions included; and whole runs of attempts, keep-or-reset
requests in two halves, ledger appends, other store operations, late status updates, and crashes whose
recovery may or may not reset the workspace. The history of commits is the list of kept attempts; the
theorems say exactly when it stays so.

**Sealing** (`Bits`, `ChaCha20`, `Poly1305`, `Aead`, `Rfc8439`, `Sealing`, `Migration`, `MigrationFacts`,
`SealedStore`, `SealedPass`, `SealedWitness`). The pure-Python cipher against RFC 8439, the framings,
and, over an ideal cipher, a store that any number of processes open through key arrival, rotation,
batch-wise migration and crashes.

**Three machines** (`Seccomp`, `ModelStream`, `Chunked`).

What the proofs found, each with its exact condition and a run or an input that reaches it:

- a status change that races with a start can leave a campaign closed for good (`StatusRace.CrashSticksExactly`, `CampaignWitness.StuckIsReachable`);
- a refresh that reads between a writer's stamp and its commit can hide a change from startup (`HistoryCache.MissedExactly`, `HistoryCache.MissedIsReachable`);
- a start that marks an attempt interrupted whose campaign was given a terminal status late changes the document without a stamp, and if it is cut or fails before the refresh, later starts miss the change (`Documents.StaleRestartStampsExactly`, `HistoryCache.CutRecoveryMissedExactly`, `CampaignWitness.UnstampedIsReachable`, `HistoryCache.CutRecoveryIsReachable`);
- a reset request that read the newest decision before an attempt was finished, and gets the lock after it was kept, drops the winner's commit (`WorkspaceRuns.SpineThroughoutExactly`, `WorkspaceWitness.StaleResetDropsWinner`);
- an error of both finishes, of the refresh after the committed one or of the reset leaves a rejected attempt's commit at HEAD, and when only the runner's finish fails a winning run is recorded as a crash (`WorkspaceFacts.RunKeepsSpineExactly`, `WorkspaceFacts.RecordedExactly`, `WorkspaceWitness.StrandedIsReachable`);
- crash recovery resets a commit whether or not the attempt made one (`WorkspaceFacts.CrashKeepsSpineExactly`, `WorkspaceWitness.CrashDropsWinner`);
- a recovery whose reset fails or is cut short leaves the interrupted attempt's commit at HEAD, and no later start tries again (`WorkspaceFacts.RecoveryIsNotRetried`, `WorkspaceWitness.UnrepairedIsReachable`);
- a file made while an attempt runs survives the reset of a rejected attempt (`WorkspaceFacts.RejectedRestores`, `WorkspaceWitness.NewFileSurvivesReset`);
- each chunked decoder accepts bodies that the other refuses (`Chunked.RustAlsoTakesExactly`, `Chunked.PythonAlsoTakesExactly`, `Chunked.EachAcceptsMore`);
- a ledger append for a commit with a tab is not recognised as a duplicate (`Ledger.AppendTwiceExactly`);
- a process that opened a store without a key before any key was recorded goes on writing plaintext after another process has sealed it (`SealedStore.KeylessOverwritesSealedExactly`, `SealedWitness.KeylessOverwritesSealed`);
- a resumed migration does not look at rows before its cursor: a retired store can record the current key over a value that does not open (`SealedPass.RetiredRecordsCurrentExactly`, `SealedWitness.UnreadableLeftBehind`), and a rotation during the first migration leaves values under the old key (`MigrationFacts.PassSettlesColumnExactly`, `SealedPass.RecordedKeySufficesExactly`, `SealedWitness.FirstKeyForgotten`).

Where code and documentation differ the code is followed: an attempt whose command exits with 0 is `ok`
even when no metric was parsed, although the documentation says that `ok` means a parsed metric.

## Model

| member | source | states |
|---|---|---|
| CampaignStore.Store.Create | sidecar/ryu_research/campaigns.py:904-960 | create or re-describe a campaign in place; an existing one keeps its policy, status, winner and, when none is given, its improvement run; refusals change nothing; the invariants are kept |
| CampaignStore.Store.Propose | sidecar/ryu_research/campaigns.py:1489-1546 | the loop over stored leases returns the newest identical one or appends a new unconsumed one; a digest that is not the current one is refused; the invariants are kept |
| CampaignStore.Store.Analyze | sidecar/ryu_research/campaigns.py:1382-1429 | a compatibility analysis is appended that can never authorise an attempt; the invariants are kept |
| CampaignStore.Store.Start | sidecar/ryu_research/campaigns.py:1104-1211 | in-place start: new running attempt, lease consumed by it, campaign running, or an error and no change; the invariants are kept |
| CampaignStore.Store.Finish | sidecar/ryu_research/campaigns.py:1238-1312 | in-place finish with winner decision and stop policy; the invariants are kept for every final status |
| CampaignStore.Store.CheckStatus | sidecar/ryu_research/campaigns.py:1072-1083 | what is read before the transaction begins: the refusals of the operation, from the tables of that moment |
| CampaignStore.Store.UpdateStatus | sidecar/ryu_research/campaigns.py:1084-1093 | the transaction: the update lands on whatever the tables have become since, and keeps all that no race can break |
| CampaignStore.Store.SetCampaignStatus | sidecar/ryu_research/campaigns.py:1071-1097 | check and update with nothing in between are the manual status change as one step; refused while an attempt is named; the invariants are kept |
| CampaignStore.Store.UpdateAttemptDescription | sidecar/ryu_research/campaigns.py:1327-1361 | the row-by-row loop fills exactly the empty descriptions of a commit and stamps exactly their campaigns |
| CampaignStore.Store.ImportLegacy | sidecar/ryu_research/campaigns.py:460-519 | the importer loop over one ledger ends in the attempts, winner and best attempt that the fold of its scores defines |
| CampaignStore.Store.InitializeStore | sidecar/ryu_research/campaigns.py:548-590 | import and crash recovery leave a sound store with no attempt running |
| CampaignLaws.CanonicalExactly | sidecar/ryu_research/campaigns.py:746-754 | two campaigns have the same canonical history if and only if they have the same experiment, goal, improvement run and policy and the same attempts, whatever proposals those consumed |
| CampaignLaws.EntriesAreItsAttempts | sidecar/ryu_research/campaigns.py:810-812 | the entries of a history are exactly the attempts of its campaign, in the order of their ids |
| CampaignLaws.ProposesExactly | sidecar/ryu_research/campaigns.py:1489-1495 | a proposal is accepted if and only if it has the evidence of its kind and names the digest of the history as it is now; a stale or missing digest is refused, and a refusal changes nothing |
| CampaignLaws.ProposedAs | sidecar/ryu_research/campaigns.py:1501-1540 | an accepted proposal is a row with what was proposed, for that history, new and unconsumed or found; besides it only the stamp of the campaign changes |
| CampaignLaws.RecordsAs | sidecar/ryu_research/campaigns.py:1382-1429 | a compatibility analysis is a new row for the history as it is now, of the kind that nothing accepts and without evidence; besides it only the stamp of the campaign changes |
| CampaignLaws.StartsExactly | sidecar/ryu_research/campaigns.py:1104-1165 | a start is accepted if and only if nothing runs, the campaign is open and the proposal named is its own, unconsumed, of the present digest and count, and of the kind that the length of the history demands: verified with its evidence from the threshold on, freeform with a hypothesis below; a refusal changes nothing |
| CampaignLaws.StartedAs | sidecar/ryu_research/campaigns.py:1156-1204 | an accepted start is a row with the next number, the hypothesis it is bound to (the verified recommendation, or the one supplied) and the approved tree; it consumes its proposal and occupies its campaign, and nothing else changes |
| CampaignLaws.FinishesExactly | sidecar/ryu_research/campaigns.py:1248-1295 | a finished attempt is kept if and only if it was ok with a score and there was no best score or this one is better by more than min_delta + 1e-12: lower when the metric is minimized, higher when it is maximized; it is then the best attempt, and otherwise the best one stays |
| CampaignLaws.FinishedAs | sidecar/ryu_research/campaigns.py:1267-1295 | a finish records the report, with the elapsed time at least zero, frees the campaign and changes nothing else |
| CampaignLaws.StopsExactly | sidecar/ryu_research/experiments.py:71-108 | when a finish closes its campaign, with which reason and status: the best score reached the target, else the last max_failures attempts all failed, else it has its max_attempts, else none of the last patience ones was kept; failed only for the second |
| CampaignLaws.RestatesExactly | sidecar/ryu_research/campaigns.py:1071-1097 | a status is set if and only if it is not running and the campaign is there and names no attempt; closing dates it and gives the manual reason, opening takes both away |
| CampaignLaws.RecoversExactly | sidecar/ryu_research/campaigns.py:574-585 | recovery rejects exactly the running attempts, opens exactly the running campaigns and keeps the rest of every row |
| CampaignLaws.DescribesExactly | sidecar/ryu_research/campaigns.py:1327-1361 | describing a commit fills the empty descriptions of its attempts, never overwrites one and stamps exactly their campaigns |
| CampaignLaws.CreatesExactly | sidecar/ryu_research/campaigns.py:904-960 | a campaign is created or described anew if and only if threshold, improvement run and policy are legal; a new one is open and empty, a known one keeps all that its attempts made of it |
| CampaignLaws.ImportsAs | sidecar/ryu_research/campaigns.py:460-519 | an unknown legacy workspace becomes an open campaign with one finished attempt per ledger row, in order; a known one is left alone |
| CampaignInvariants.CreatePreserves | sidecar/ryu_research/campaigns.py:904-960 | creating keeps every invariant, a new campaign included |
| CampaignInvariants.ProposePreserves | sidecar/ryu_research/campaigns.py:1489-1546 | a new lease keeps every invariant |
| CampaignInvariants.StartPreserves | sidecar/ryu_research/campaigns.py:1104-1211 | starting keeps one running attempt, ordinals, the lease pairing and the winners |
| CampaignInvariants.DescribePreserves | sidecar/ryu_research/campaigns.py:1327-1361 | filling descriptions touches neither ordinals, leases, decisions nor winners |
| CampaignRuns.FinishPreserves | sidecar/ryu_research/campaigns.py:1238-1312 | finishing keeps the invariants: the decision is the one the score earned against all earlier attempts, and the winner is again the fold |
| CampaignRuns.FinishPreservesExactly | sidecar/ryu_research/campaigns.py:1275-1283 | a finish leaves a sound store if and only if the reported status is not "running" |
| CampaignRuns.StartupPreserves | sidecar/ryu_research/campaigns.py:568-590 | importing any ledgers and recovering from a crash keeps the invariants |
| CampaignRuns.ReachableInv | sidecar/ryu_research/campaigns.py:904-1546 | for every sequence of transactions from the empty store: at most one attempt runs across all campaigns, a campaign is running exactly when its current attempt is that one, ordinals count, consumed leases and attempts are paired one to one with after = ordinal - 1, and every winner is the fold of its scores |
| CampaignRuns.ProposalIsFresh | sidecar/ryu_research/campaigns.py:1497-1535 | a lease returned by create_proposal, new or found, is unconsumed and of the requested campaign and kind |
| CampaignRuns.FreshProposalStarts | sidecar/ryu_research/campaigns.py:1129-1165 | a fresh lease of the required kind is accepted by start_attempt whenever the store is idle and the campaign open |
| CampaignFacts.ProposeIsIdempotent | sidecar/ryu_research/campaigns.py:1501-1516 | making the same proposal again at any later time returns the same lease and changes nothing |
| CampaignFacts.ConsumedForever | sidecar/ryu_research/campaigns.py:1188-1194 | whatever happens later, a consumed lease stays consumed by the same attempt |
| CampaignFacts.EachProposalStartsOnce | sidecar/ryu_research/campaigns.py:1104-1211 | over a whole run no two starts succeed with the same lease |
| CampaignFacts.CurrentIsNewest | sidecar/ryu_research/campaigns.py:819-829 | the current proposal is the newest one that a start could consume, and there is none exactly when no proposal could be |
| CampaignFacts.StartableExactly | sidecar/ryu_research/campaigns.py:1129-1165 | an idle, open campaign can start an attempt if and only if its history state names a current proposal |
| CampaignFacts.BudgetIsWithinBounds | sidecar/ryu_research/campaigns.py:287-298 | the budget of a started attempt lies within its policy and is the one asked for, or the policy default, when that does |
| CampaignFacts.AnalysisNeverAuthorises | sidecar/ryu_research/campaigns.py:1382-1392 | whatever status and text record_analysis was given and whatever happens later, no start succeeds with what it returned |
| CampaignFacts.OrdinalsAreOneToN | sidecar/ryu_research/campaigns.py:1169-1184 | the attempts of a campaign carry the ordinals 1, 2, ..., n in the order they were made |
| CampaignFacts.WinnerIsUnbeaten | sidecar/ryu_research/campaigns.py:1261-1295 | no successful score lies below the best one by more than min_delta + 1e-12 when the metric is minimized, or above it when it is maximized; the best attempt is the newest kept one and has that score |
| CampaignFacts.DecisionsAreEarned | sidecar/ryu_research/campaigns.py:1263-1268 | all decisions and the best score of a campaign are the left fold of score_improved over its attempts in order |
| CampaignFacts.KeptAttemptsImprove | sidecar/ryu_research/experiments.py:40-57 | k > 1 kept attempts put the best score more than (k - 1) * (min_delta + 1e-12) below the first one when the metric is minimized, above it when it is maximized |
| CampaignFacts.ImportMatchesLive | sidecar/ryu_research/campaigns.py:466-513 | the same outcomes earn the same decisions, the same best score and a best attempt with the same number, whether they were run live or imported from a ledger |
| CampaignFacts.AttemptsAreBounded | sidecar/ryu_research/experiments.py:97-98 | with early_stop_max_attempts = m > 0 a created campaign has at most m attempts plus one for every crash recovery and manual reopen, in every run |
| StatusRace.UndisturbedIsAtomic | sidecar/ryu_research/campaigns.py:1074-1093 | the unlocked check and the later update are one step when nothing happens in between |
| StatusRace.RacyReachableCore | sidecar/ryu_research/campaigns.py:1071-1097 | with status updates landing at any later moment, still at most one attempt runs, ordinals count, leases are consumed once and winners are the fold |
| StatusRace.RacyAttemptsAreBounded | sidecar/ryu_research/experiments.py:97-98 | with late status updates anywhere, the attempt limit still bounds every run, counting each late update to active with the recoveries and reopens |
| StatusRace.LateIsSoundExactly | sidecar/ryu_research/campaigns.py:1076-1093 | a late status update leaves status and running attempt in agreement if and only if the campaign names no attempt at the moment it lands |
| StatusRace.FinishErasesLate | sidecar/ryu_research/campaigns.py:1287-1295 | finishing the attempt gives the very store it would have given without the late update: the requested status is lost |
| StatusRace.CrashSticksExactly | sidecar/ryu_research/campaigns.py:575-585 | a crash before that finish leaves the campaign naming an attempt that no longer runs if and only if the late status was terminal |
| StatusRace.StuckRefuses | sidecar/ryu_research/campaigns.py:1082-1083 | such a campaign refuses every start and every change of status |
| StatusRace.StuckForever | sidecar/ryu_research/campaigns.py:548-590 | and no sequence of operations, restarts included, ever frees it |
| CampaignWitness.StuckIsReachable | sidecar/ryu_research/campaigns.py:1071-1097 | create, propose, check, start, complete late, crash: a run from the empty store ends in such a campaign |
| CampaignWitness.UnstampedIsReachable | sidecar/ryu_research/campaigns.py:574-585 | the same run from the document's side: the restart changes the document without a stamp, and the restart after it reports nothing |
| Documents.DocumentChangesAreStamped | sidecar/ryu_research/campaigns.py:757-774 | in any store, an event that changes anything a campaign's document shows stamps the campaign with its own time, or is a restart that finds an attempt of a campaign running whose status is another one |
| Documents.StaleRestartStampsExactly | sidecar/ryu_research/campaigns.py:574-585 | a restart that finds an attempt running changes its campaign's document, and stamps the campaign if and only if its status is running; the restart after that one reports nothing of it |
| Documents.WholeChangesAreStamped | sidecar/ryu_research/campaigns.py:757-774 | in a store of whole transactions every change of a document is stamped, without exception |
| Documents.LateChangesAreStamped | sidecar/ryu_research/campaigns.py:1084-1093 | a late status update stamps the campaign whose document it changes |
| Documents.DocumentTellsApart | sidecar/ryu_research/campaigns.py:757-774 | equal documents mean equal name, experiment, goal, status, winner, policy and stop reason and equal rows of attempts and analyses |
| HistoryLock.CurrentIsAtomic | sidecar/ryu_research/campaigns.py:1104-1211 | a transaction that acts on the current history state is the indivisible operation |
| HistoryLock.CommitsLandExactly | sidecar/ryu_research/campaigns.py:847-860 | what another connection commits lands and is seen as a new version, exactly while the writer does not hold the write lock |
| HistoryLock.LockedStateIsCurrent | sidecar/ryu_research/campaigns.py:847-860 | in every interleaving with committing connections, reads torn over three SELECTs included, the state held under the write lock is that of the locked database |
| HistoryLock.WriterIsAtomic | sidecar/ryu_research/campaigns.py:847-860 | every step of a writer leaves the database alone or is the whole indivisible operation on the database of that moment, result and refusals included |
| HistoryLock.LeaseMatchesDigest | sidecar/ryu_research/campaigns.py:1143-1147 | a lease is created or consumed only with the digest and attempt count its campaign has at that moment |
| HistoryLock.AcceptedDigestIsCurrent | sidecar/ryu_research/campaigns.py:1489-1495 | whatever other connections commit meanwhile, a proposal is accepted only if the digest its proposer supplied is that of the campaign at the moment of the transaction, and a start only if its lease has that digest |
| HistoryCache.StalenessIsNoticedExactly | sidecar/ryu_research/campaigns.py:629-649 | in every run in which no refresh reads while an older-stamped write is uncommitted and no start is cut or gives up between an unstamped recovery and its refresh: after a crash at any point the next start refreshes a history file that is not the document, if and only if the crashed start did not hold such a recovery (or the file is missing or unsealed anyway) |
| HistoryCache.PromptIsGuarded | sidecar/ryu_research/campaigns.py:863-901 | runs whose writers commit in the step in which they take their stamp, recoveries among them, are all of that kind |
| HistoryCache.StartupRestores | sidecar/ryu_research/campaigns.py:592-627 | after a crash at such a point, a start that can read the campaign leaves the file equal to the document, as its recovery made it, even when recording the refresh fails |
| HistoryCache.UnopenedIsNoticedExactly | sidecar/ryu_research/campaigns.py:617-627 | a start that skips a campaign it cannot read leaves work that the next start sees if and only if the recovery was stamped or there was something to see before it |
| HistoryCache.DoneIsRememberedExactly | sidecar/ryu_research/campaigns.py:883-901 | a refresh that a start completes and records is not done again by the next one, unless the document was stamped in the moment of the refresh; one that was not recorded is |
| HistoryCache.MissedExactly | sidecar/ryu_research/campaigns.py:863-887 | when a refresh reads between a stamp and its commit and a crash follows, startup misses the change if and only if the stamp is older than the refresh |
| HistoryCache.MissedIsReachable | sidecar/ryu_research/campaigns.py:863-887 | a run from a store never refreshed that ends with a stale file which startup does not notice |
| HistoryCache.CutRecoveryMissedExactly | sidecar/ryu_research/campaigns.py:574-600 | a recovery that changes the document of a current file and is cut before the refresh is missed by the next start if and only if it took no stamp and nothing else was left to do |
| HistoryCache.CutRecoveryIsReachable | sidecar/ryu_research/campaigns.py:574-600 | a run from a store never refreshed that ends so |
| Ledger.RowRoundTrip | sidecar/ryu_research/workspaces.py:933-946 | splitting a stored row gives back the cells that were written |
| Ledger.CellKeepsTheRest | sidecar/ryu_research/workspaces.py:985-986 | a cell loses only its tabs and line feeds, which become spaces |
| Ledger.AppendKeepsAtMostOne | sidecar/ryu_research/workspaces.py:978-996 | appending keeps at most one row per non-empty commit, for every commit without tab or line feed |
| Ledger.AppendIsIdempotent | sidecar/ryu_research/workspaces.py:978-983 | repeating an append for such a commit changes nothing |
| Ledger.AppendTwiceExactly | sidecar/ryu_research/workspaces.py:985-990 | two appends for a commit not yet recorded leave one row if and only if it holds no tab or line feed |
| Workspace.Repository.ResetPreservingLedger | sidecar/ryu_research/workspaces.py:864-875 | in place: one commit back with its files, beside the files HEAD did not track, and the ledger as it was; nothing when there is no parent |
| Workspace.Repository.AppendLedgerLocked | sidecar/ryu_research/workspaces.py:963-996 | in place: the search loop finds a duplicate or a row is added, and the description of the attempt is filled |
| Workspace.Repository.SettleAttempt | sidecar/ryu_research/workspaces.py:785-797 | in place: finish, then reset if rejected, and what is left when the refresh after the finish or the reset fails |
| Workspace.Repository.HandleError | sidecar/ryu_research/workspaces.py:825-840 | in place: the error handler finishes the attempt as crashed and takes its commit away, unless its own finish fails too |
| Workspace.Repository.RunBoundAttempt | sidecar/ryu_research/workspaces.py:623-676 | in place, the whole attempt under every combination of racing writers and failing steps, the finish of the runner and of its error handler among them; the invariants of the store are kept |
| WorkspaceFacts.SpineMeansHeadIsWinner | sidecar/ryu_research/workspaces.py:785-797 | a history of kept attempts has the winner at HEAD, with the tree the winner was approved with, and one commit if nothing was kept |
| WorkspaceFacts.RunKeepsSpineExactly | sidecar/ryu_research/workspaces.py:678-840 | whatever races and fails, an attempt leaves the history of kept attempts if and only if it does not strand its commit: it did not win, and no finish was committed or the refresh after it or the reset failed |
| WorkspaceFacts.RecordedExactly | sidecar/ryu_research/workspaces.py:785-838 | the store records the report of the finish that was committed, and the attempt is kept if and only if that was the experiment's own and it wins: when only the runner's finish fails, a win is recorded as a crash |
| WorkspaceLaws.AttemptSays | sidecar/ryu_research/workspaces.py:678-840 | the row of an attempt says the status, score, memory, log tail and commit of the experiment if it ran and its finish is committed, kept if and only if its score is better in the direction of the metric; else a crash without a score, if the error handler's finish is; else that it still runs |
| WorkspaceLaws.EndsExactly | sidecar/ryu_research/workspaces.py:623-840 | an attempt is refused, with nothing changed, unless it is for the approved tree, can be confined and is started; it ends with its decision if every later step succeeds, and with an error otherwise |
| WorkspaceLaws.LedgerSays | sidecar/ryu_research/workspaces.py:785-822 | an attempt that ends with a decision leaves the ledger of the last writer and, unless a row is there for its commit, one of five cells: commit, score, memory, status, and the description, or else the hypothesis, or else the decision |
| WorkspaceLaws.LatestExactly | sidecar/ryu_research/workspaces.py:910-914 | the newest decision is that of the campaign's last attempt |
| WorkspaceFacts.RejectedRestores | sidecar/ryu_research/workspaces.py:796-806 | a rejected attempt restores the commits and every file of HEAD; exactly the files made after its own commit stay beside them, so the files are those of HEAD if and only if there are none; the ledger keeps what it held and at most its own row |
| WorkspaceFacts.KeptAdvances | sidecar/ryu_research/workspaces.py:697-710 | a kept attempt adds exactly one commit, whose tree is the approved one, and its row names that commit |
| WorkspaceFacts.StartsOnlyApproved | sidecar/ryu_research/workspaces.py:638-643 | an attempt starts only for exactly the contents it was approved for; otherwise no lease is consumed and nothing changes |
| WorkspaceFacts.CrashKeepsSpineExactly | sidecar/ryu_research/workspaces.py:891-899 | the start after a crash leaves the history of kept attempts: between commit and finish if and only if its reset is done; before the commit if and only if it is not done or nothing was ever kept; between finish and reset if and only if the attempt was kept, or no finish was committed and the reset is done |
| WorkspaceFacts.RestartKeepsSpineExactly | sidecar/ryu_research/workspaces.py:891-899 | a restart that finds an attempt left running takes a commit away if its reset is done, and the history survives if and only if it is not done or there is none to take |
| WorkspaceFacts.RecoveryIsNotRetried | sidecar/ryu_research/server.py:573-574 | a reset that was not done at the first start is never done by a later one |
| WorkspaceFacts.GitActionKeepsSpineExactly | sidecar/ryu_research/workspaces.py:902-930 | a legacy keep or reset changes the history if and only if it read no final decision, asks for a reset and there is a commit to drop |
| WorkspaceFacts.FreshGitActionIsHarmless | sidecar/ryu_research/workspaces.py:902-930 | read while no attempt of the campaign runs and acted on at once, it changes nothing |
| WorkspaceRuns.BeginEndIsRun | sidecar/ryu_research/workspaces.py:623-676 | the two halves of an attempt with nothing in between are the whole of it |
| WorkspaceRuns.InitialIsSound | sidecar/ryu_research/workspaces.py:277-325 | a new workspace is where runs begin |
| WorkspaceRuns.MoveKeepsSound | sidecar/ryu_research/workspaces.py:623-996 | every move keeps the store sound, whatever races, fails or crashes, late status updates included |
| WorkspaceRuns.MoveKeepsSpineExactly | sidecar/ryu_research/workspaces.py:623-996 | one move keeps the history of kept attempts if and only if it is harmless |
| WorkspaceRuns.SpineThroughoutExactly | sidecar/ryu_research/workspaces.py:623-996 | the history of kept attempts survives a whole run if and only if no attempt strands its commit, no reset acts on a decision read before it was final while there is a commit to drop, and no recovery takes away a commit that is not the crashed attempt's, leaves a rejected one or fails to take away the one it should |
| WorkspaceRuns.WorkspaceAgrees | sidecar/ryu_research/workspaces.py:623-996 | after every such run, crashes and late resets included, HEAD is the winner with its approved tree, or the initial commit |
| WorkspaceRuns.LedgerOnlyGrows | sidecar/ryu_research/workspaces.py:949-996 | in every run, harmless or not, the ledger at any moment is a prefix of the ledger later, and no commit has two rows |
| WorkspaceWitness.StaleResetDropsWinner | sidecar/ryu_research/workspaces.py:910-929 | a run from a new workspace in which a reset that read no decision drops the winner's commit |
| WorkspaceWitness.StrandedIsReachable | sidecar/ryu_research/workspaces.py:823-840 | runs in which a rejected commit stays at HEAD, because both finishes or the refresh failed |
| WorkspaceWitness.CrashDropsWinner | sidecar/ryu_research/workspaces.py:891-899 | a run in which a crash before the second attempt's commit makes recovery drop the first one's |
| WorkspaceWitness.UnrepairedIsReachable | sidecar/ryu_research/workspaces.py:891-899 | a run in which recovery's reset is not done: the interrupted attempt's commit stays at HEAD, after every further start too |
| WorkspaceWitness.NewFileSurvivesReset | sidecar/ryu_research/workspaces.py:864-875 | a run in which a file made while an attempt ran is still there after its reset |
| LogTail.BoundedTextBuffer.constructor | sidecar/ryu_research/workspaces.py:115-119 | an empty buffer holding at least one character |
| LogTail.BoundedTextBuffer.Append | sidecar/ryu_research/workspaces.py:121-141 | after every append the chunks are exactly the tail of everything written and the length is their sum; the trimming loop terminates |
| LogTail.BoundedTextBuffer.Text | sidecar/ryu_research/workspaces.py:143-145 | the last min(total, max) characters of everything appended |
| LogTail.TailOfTail | sidecar/ryu_research/workspaces.py:121-141 | trimming early never loses what the final tail shows |
| LogTail.AppendAll | sidecar/ryu_research/workspaces.py:112-145 | for any sequence of appends the text is the tail of their concatenation |
| ProcessTree.TableExactly | sidecar/ryu_research/workspaces.py:440-449 | a process is in the table if and only if a readable line names it; the last such line gives its parent and its size, at least zero |
| ProcessTree.Descendants | sidecar/ryu_research/workspaces.py:451-458 | the changed loop terminates with exactly the pids that a chain of parent links connects to the root, in any row order and with cycles |
| ProcessTree.ClosureIsDescendants | sidecar/ryu_research/workspaces.py:451-458 | a set of descendants closed under children is all of them |
| ProcessTree.RssSumTake | sidecar/ryu_research/workspaces.py:459-459 | the sum does not depend on the order of the set |
| ProcessTree.ProcessTreeRssKb | sidecar/ryu_research/workspaces.py:427-459 | the total is the resident size of the root and its descendants that are in the table, and nothing else |
| Scores.BestIsUnbeaten | sidecar/ryu_research/experiments.py:40-57 | no score of a history lies below its fold by more than the threshold when the metric is minimized, or above it when it is maximized |
| Scores.BestIsLastWin | sidecar/ryu_research/experiments.py:40-57 | the fold is the score of the last winning attempt |
| Scores.WinsAddUp | sidecar/ryu_research/experiments.py:40-57 | k wins put the fold at least (k - 1) thresholds with margin below the first score when the metric is minimized, above it when it is maximized |
| Scores.WinnersImprove | sidecar/ryu_research/experiments.py:53-57 | strictly more than that, and so more than (k - 1) * min_delta, for k > 1 |
| Scores.TrailingIsUnique | sidecar/ryu_research/experiments.py:90-105 | the count of unmarked outcomes at the end is determined |
| Scores.EvaluateStop | sidecar/ryu_research/experiments.py:71-108 | both backward loops compute the longest suffix without success and without winner, with target, failures, limit and patience in that order |
| Aead.LengthPrefixedInjective | sidecar/ryu_research/ryu_content_seal.py:137-138 | the framing is uniquely decodable |
| Aead.PlacesAreSeparated | sidecar/ryu_research/ryu_content_seal.py:276-280 | two places share their associated data if and only if store, purpose and all labelled ids are equal |
| Aead.MacInputInjective | sidecar/ryu_research/ryu_content_seal.py:228-237 | the authenticated input determines the associated data and the ciphertext |
| Aead.XorStreamIsBytewise | sidecar/ryu_research/ryu_content_seal.py:205-210 | the xor of two little-endian numbers is the bytewise xor of section 2.4 of RFC 8439 |
| Aead.XorStreamInverts | sidecar/ryu_research/ryu_content_seal.py:205-210 | applying the stream twice gives the data back |
| Aead.OpensExactlyWhatWasSealed | sidecar/ryu_research/ryu_content_seal.py:240-260 | a value opens to a plaintext if and only if it is that plaintext sealed under the same key, nonce and associated data |
| Aead.SealsWithOneStream | sidecar/ryu_research/ryu_content_seal.py:228-245 | the seal in terms of one keystream from block zero: its first 32 bytes key the tag, and the text is combined with what follows the first block |
| Aead.PlaceIsFramedAs | sidecar/ryu_research/ryu_content_seal.py:276-280 | the parts of the associated data are the format label, the store and the purpose under their names, and then the name and the value of every id, in order |
| Aead.LengthsAndPadding | sidecar/ryu_research/ryu_content_seal.py:224-237 | lengths are eight bytes in the two byte orders, and padding is zeros |
| Rfc8439.StateIsLaidOut | sidecar/ryu_research/ryu_content_seal.py:141-156 | as bytes the initial state is the text "expand 32-byte k", the key, the 32-bit counter and the nonce |
| Rfc8439.RoundsByIndex | sidecar/ryu_research/ryu_content_seal.py:158-190 | a double round is the quarter rounds on the four columns and the four diagonals, by the indices of section 2.3 of RFC 8439 |
| Rfc8439.QuarterVector | sidecar/ryu_research/ryu_content_seal.py:158-165 | the quarter round on the test vector of section 2.1.1 |
| Rfc8439.ModulusIs | sidecar/ryu_research/ryu_content_seal.py:213-221 | the modulus is 2^130 - 5, and tags are taken modulo 2^128 |
| Rfc8439.EmptyTag | sidecar/ryu_research/ryu_content_seal.py:213-221 | the tag of the empty message is the second half of the key |
| Rfc8439.OneBlockTag | sidecar/ryu_research/ryu_content_seal.py:213-221 | the tag of a message of at most one block in closed form |
| ChaCha20.KeystreamAt | sidecar/ryu_research/ryu_content_seal.py:141-198 | byte i is byte i mod 64 of the block function of section 2.3 of RFC 8439 at counter + i div 64, wrapping at 32 bits |
| ChaCha20.KeystreamPrefix | sidecar/ryu_research/ryu_content_seal.py:198-202 | a shorter keystream is a prefix of a longer one |
| ChaCha20.AddMasked | sidecar/ryu_research/ryu_content_seal.py:158-190 | the masked unbounded sum is addition of 32-bit words |
| ChaCha20.ShiftOr | sidecar/ryu_research/ryu_content_seal.py:158-190 | the masked shift pair joined by or is the rotation of a 32-bit word |
| ChaCha20.TwentyRounds | sidecar/ryu_research/ryu_content_seal.py:157-190 | the unrolled loop on sixteen local variables is ten double rounds |
| ChaCha20.ChaCha20Keystream | sidecar/ryu_research/ryu_content_seal.py:141-198 | the method computes the consecutive blocks of section 2.4, cut to length |
| Poly1305.HornerIsPolynomial | sidecar/ryu_research/ryu_content_seal.py:218-220 | the loop with reduction at every step is the polynomial of section 2.5 of RFC 8439 modulo 2^130 - 5 |
| Poly1305.AccumulateContinues | sidecar/ryu_research/ryu_content_seal.py:218-220 | on a ++ b, with a in whole blocks, the loop continues from the accumulator of a |
| Poly1305.ClampMask | sidecar/ryu_research/ryu_content_seal.py:214-214 | the integer mask clears exactly the bits the standard names |
| Poly1305.Poly1305Tag | sidecar/ryu_research/ryu_content_seal.py:213-221 | the method computes the tag of section 2.5 |
| Sealing.WriteReadsBack | sidecar/ryu_research/ryu_content_seal.py:792-819 | whatever a process stores it reads back, in every key state |
| Sealing.VersionedExactly | sidecar/ryu_research/ryu_content_seal.py:88-88 | a text reads as an envelope if and only if it is "encb:v", a number and a colon, and then anything |
| Sealing.KeyStateExactly | sidecar/ryu_research/ryu_content_seal.py:552-566 | the key state, and that a process has a cipher if and only if it has a root key and holds the recorded one, if any |
| Migration.StoreSeal.constructor | sidecar/ryu_research/ryu_content_seal.py:706-726 | the counters start at zero and a store sealed under a retired key is to be rescanned |
| Migration.StoreSeal.MigrateOne | sidecar/ryu_research/ryu_content_seal.py:842-879 | the batch loop over one column terminates, and its batches are invisible: all rows past the cursor are resealed and counted |
| Migration.StoreSeal.Migrate | sidecar/ryu_research/ryu_content_seal.py:821-896 | the whole pass, and the key it records: the retired one is kept if and only if a retired store has an unreadable row among those looked at |
| MigrationFacts.ResealSettles | sidecar/ryu_research/ryu_content_seal.py:862-874 | resealing one row leaves it sealed under the current key, empty or unreadable, with the same text |
| MigrationFacts.ResealsExactly | sidecar/ryu_research/ryu_content_seal.py:857-872 | a text in the clear and one under any key held are sealed anew under the current key at the row's place; empty values, texts that read as envelopes and envelopes of other places or keys stay |
| MigrationFacts.SkipsExactly | sidecar/ryu_research/ryu_content_seal.py:830-841 | a pass leaves a column alone if and only if it is marked sealed, no retired key is left to look for and every text in it is empty or begins like an envelope |
| MigrationFacts.PassesExactly | sidecar/ryu_research/ryu_content_seal.py:842-879 | a pass that looks at a column treats exactly the rows whose keys lie behind the saved cursor and marks the column sealed under the current key |
| MigrationFacts.UnreadableExactly | sidecar/ryu_research/ryu_content_seal.py:861-865 | a value counts as unreadable if and only if it is a text that reads as an envelope, or an envelope of another place or under a key not held |
| MigrationFacts.CountsAreNumbers | sidecar/ryu_research/ryu_content_seal.py:861-873 | the two counters are the numbers of unreadable and of resealed rows |
| MigrationFacts.PassSettles | sidecar/ryu_research/ryu_content_seal.py:842-879 | a pass settles every row from the cursor on, keeps those before it, keeps every text, and counts the unreadable ones |
| MigrationFacts.FullPassSettlesAll | sidecar/ryu_research/ryu_content_seal.py:842-879 | from a null cursor every non-empty value ends sealed under the current key or counted unreadable |
| MigrationFacts.SecondPassIsIdle | sidecar/ryu_research/ryu_content_seal.py:830-841 | a second pass reseals nothing and changes no row |
| MigrationFacts.NothingUnreadableExactly | sidecar/ryu_research/ryu_content_seal.py:842-879 | a pass that scans every column counts nothing unreadable if and only if no row from the saved cursors on is |
| MigrationFacts.PassSettlesColumnExactly | sidecar/ryu_research/ryu_content_seal.py:830-879 | a pass leaves a whole column settled if and only if the rows it does not look at, all of a skipped column and those before a saved cursor, were settled |
| MigrationFacts.SkippedHidesPlaintextExactly | sidecar/ryu_research/ryu_content_seal.py:975-986 | a column taken for sealed holds no plaintext if and only if none of its texts begins like an envelope without being one of any version |
| MigrationFacts.RacedBatchKeepsValues | sidecar/ryu_research/ryu_content_seal.py:861-873 | whatever was written between fetch and update, new envelopes of the same text under the same key included, a batch replaces no value that it did not read and leaves every value readable as it was |
| MigrationFacts.UndisturbedBatchIsStep | sidecar/ryu_research/ryu_content_seal.py:848-879 | with nothing written since, the fetched batch is the step of the pass |
| SealedStore.OpenKeeps | sidecar/ryu_research/ryu_content_seal.py:728-758 | opening with any legal keys keeps every cell faithful to what was written |
| SealedStore.AdvanceKeeps | sidecar/ryu_research/ryu_content_seal.py:842-896 | so does every transaction of the migration, with other writers in between |
| SealedStore.WriteKeeps | sidecar/ryu_research/ryu_content_seal.py:792-806 | so does every write, sealed, plain or refused |
| SealedStore.KeyedWritesExactly | sidecar/ryu_research/ryu_content_seal.py:792-806 | a process that seals stores an empty text as it is and any other as an envelope under its current key, bound to the cell's place, and changes nothing else |
| SealedStore.LockedOutWritesNothing | sidecar/ryu_research/ryu_content_seal.py:780-791 | in every run a process whose root key the store does not accept writes nothing and migrates nothing |
| SealedStore.SealedStaysExactly | sidecar/ryu_research/ryu_content_seal.py:792-896 | once no cell shows a text, a move makes one do so if and only if it is the plaintext of an older build or of a process without a key that may write |
| SealedStore.SealedThroughoutExactly | sidecar/ryu_research/ryu_content_seal.py:792-896 | and so for the rest of every run, at every moment |
| SealedStore.PlayKeeps | sidecar/ryu_research/ryu_content_seal.py:704-896 | so does every run |
| SealedStore.OpensExactly | sidecar/ryu_research/ryu_content_seal.py:341-374 | in every run of any number of processes with any keys, a cell opens to the value last written if and only if it is not sealed or the process holds its key, and never to anything else |
| SealedStore.HolderIsNeverLockedOut | sidecar/ryu_research/ryu_content_seal.py:552-567 | in every run, a process with a root key that holds all keys used so far is in a key state in which it seals and opens: the key the store records is one of them |
| SealedStore.EveryCellOpens | sidecar/ryu_research/ryu_content_seal.py:341-355 | so the store refines the map of what was last written for every process with a root key that holds all keys used so far, over any writes, restarts, rotations and crashes between batches |
| SealedStore.OpenedAtIs | sidecar/ryu_research/ryu_content_seal.py:728-758 | a process keeps the keys and the key state that it opened the store with |
| SealedStore.KeylessWritesExactly | sidecar/ryu_research/ryu_content_seal.py:780-806 | a process without a key writes plaintext if and only if nothing was recorded when it opened the store, whatever others have sealed since, and the text is no envelope |
| SealedStore.KeylessOverwritesSealedExactly | sidecar/ryu_research/ryu_content_seal.py:780-806 | and it changes a sealed cell under exactly that condition |
| SealedStore.KeylessLeavesSealedAlone | sidecar/ryu_research/ryu_content_seal.py:552-557 | a process that finds a sealed cell when it opens the store without a key never changes the store |
| SealedWitness.KeylessOverwritesSealed | sidecar/ryu_research/ryu_content_seal.py:780-806 | a run in which another process seals the store behind a keyless one, which then overwrites the sealed cell with plaintext |
| SealedPass.ColumnPass | sidecar/ryu_research/ryu_content_seal.py:846-879 | fetch by fetch and transaction by transaction, an undisturbed process ends each column as the pass over it does |
| SealedPass.UndisturbedOpenIsPass | sidecar/ryu_research/ryu_content_seal.py:728-896 | opening a store with a key ends after finitely many transactions with the columns, the unreadable count and the recorded key of one whole pass |
| SealedPass.RetiredRecordsCurrentExactly | sidecar/ryu_research/ryu_content_seal.py:880-896 | a store sealed under a retired key records the current one after a pass if and only if no row from the saved cursors on is unreadable, and keeps the retired one otherwise |
| SealedPass.UninterruptedRecordsCurrentExactly | sidecar/ryu_research/ryu_content_seal.py:880-896 | from null cursors that is: if and only if every value opens |
| SealedPass.RecordedKeySufficesExactly | sidecar/ryu_research/ryu_content_seal.py:880-896 | a process with a root key that holds all keys used opens the store sealing, and after its undisturbed pass the store records its current key, and every cell opens with that key alone if and only if the cells the pass did not look at did |
| SealedPass.RetiredRecordIsSafeExactly | sidecar/ryu_research/ryu_content_seal.py:880-896 | from null cursors a retired store records the current key if and only if every cell then opens with that key alone, whatever keys the process lacks |
| SealedWitness.FirstKeyForgotten | sidecar/ryu_research/ryu_content_seal.py:558-559 | a run in which the first migration is cut, the key rotated and the new key recorded over a cell still under the old one |
| SealedWitness.UnreadableLeftBehind | sidecar/ryu_research/ryu_content_seal.py:880-896 | a run in which a cut and resumed migration records the current key over a cell that does not open |
| Seccomp.FirstDenial | sidecar/ryu_research/sandbox.py:725-736 | the error of the first entry for a system call, and none exactly when there is no entry |
| Seccomp.FilterDecides | sidecar/ryu_research/sandbox.py:715-753 | for every architecture, denial list, family list and (arch, nr, arg0) the emitted program reaches a RET and returns the first-match decision |
| Seccomp.FilterIsWellFormedExactly | sidecar/ryu_research/sandbox.py:715-753 | for any lists the program only jumps forward and in range, with jumps of 8 bits, and ends in a RET; it has at most 4096 instructions if and only if the lists are short enough |
| Seccomp.ErrnoJoins | sidecar/ryu_research/sandbox.py:734-735 | an errno below 2^16 is joined to the verdict as it is |
| Seccomp.DenialsTable | sidecar/ryu_research/sandbox.py:725-731 | the five denied calls and their errors |
| Seccomp.FilterIsDocumented | sidecar/ryu_research/sandbox.py:694-710 | the filter for the built-in lists is the table of the documentation, for every system call on either architecture, with and without network |
| Seccomp.EmitFilter | sidecar/ryu_research/sandbox.py:715-753 | the emitting loops produce that program for any lists |
| Seccomp.SeccompProgram | sidecar/ryu_research/sandbox.py:693-753 | the generator emits a well-formed program that decides every call as documented, and refuses exactly the machines it does not know |
| Seccomp.X86Program | sidecar/ryu_research/sandbox.py:693-753 | the filter for x86_64 without network, instruction by instruction |
| Seccomp.Aarch64Program | sidecar/ryu_research/sandbox.py:693-753 | the filter for aarch64 without network, instruction by instruction |
| Seccomp.NetworkAddsTwoFamilies | sidecar/ryu_research/sandbox.py:711-717 | network lets the sockets of IPv4 and IPv6 pass and changes nothing else |
| ModelStream.FindBoundary | crates/core/app-events/src/lib.rs:566-568 | the first blank line, and none exactly when there is none |
| ModelStream.ItemsAreAConversation | crates/core/app-events/src/lib.rs:351-382 | every completed stream is text deltas and then exactly one terminal item |
| ModelStream.FirstDataIs | crates/core/app-events/src/lib.rs:576-579 | the data of a frame is what stands on its first line that begins with data:, trimmed, whatever comes before and after |
| ModelStream.ParsesExactly | crates/core/app-events/src/lib.rs:570-602 | what a frame is read as, from its first data line: the end mark, an event, a provider error, nothing, or an error that ends the stream |
| ModelStream.FramesAreDelivered | crates/core/app-events/src/lib.rs:351-382 | a sender that frames deltas, frames that say nothing, and a last event gets across exactly the deltas in order and that event, whatever follows |
| ModelStream.BoundaryIsStable | crates/core/app-events/src/lib.rs:566-568 | more bytes never move a boundary that was found |
| ModelStream.DeliveredIsFinal | crates/core/app-events/src/lib.rs:351-382 | what was delivered is never taken back when more bytes arrive |
| ModelStream.DrainFrames | crates/core/app-events/src/lib.rs:362-377 | the inner loop takes out every complete frame and no more |
| ModelStream.Stream | crates/core/app-events/src/lib.rs:351-386 | the items depend only on the concatenated bytes and on how the response ended, not on how it was cut |
| Chunked.Dechunk | crates/core/sidecar-runtime/src/handoff.rs:336-356 | the loop computes what the recursive decoder defines, errors included |
| Chunked.RustInvertsCoding | crates/core/sidecar-runtime/src/handoff.rs:336-356 | decoding any coding, in any spelling of the sizes and with extensions, gives the concatenation of its chunks |
| Chunked.RequestHandler.ReadChunkedBody | sidecar/ryu_research/server.py:193-223 | the loop reads the body its input codes, never holds more than the limit, leaves the next request unread and closes only after an oversized body |
| Chunked.PythonInvertsCoding | sidecar/ryu_research/server.py:199-223 | every coding within the limit, trailers included, decodes to its chunks and leaves exactly the next request |
| Chunked.OversizedIsRefused | sidecar/ryu_research/server.py:210-218 | a coding of a body of more than 2 MiB is refused as too large, whatever follows |
| Chunked.LongLineIsRefused | sidecar/ryu_research/server.py:199-203 | a size line of more than 4096 bytes is refused |
| Chunked.HexDigitExactly | sidecar/ryu_research/server.py:203-207 | the sixteen digits in either case, and nothing else |
| Chunked.PyReads | sidecar/ryu_research/server.py:203-207 | a size may have a sign, 0x, and groups of digits with one underscore between them; its value is that of the digits, negative after a minus |
| Chunked.PyRefuses | sidecar/ryu_research/server.py:203-207 | no number is read from no digits or with an underscore at the end, beside another or first |
| Chunked.SameSize | sidecar/ryu_research/server.py:203-208 | a size both decoders accept is the same number to both |
| Chunked.DecodersAgree | crates/core/sidecar-runtime/src/handoff.rs:336-356 | whenever both decoders accept an input they read the same body |
| Chunked.RustAlsoTakesExactly | crates/core/sidecar-runtime/src/handoff.rs:341-347 | of the inputs that Python accepts Rust accepts exactly those whose size lines are UTF-8 and whose sizes are digits after at most a plus sign, with no minus, `0x` or underscore |
| Chunked.PythonAlsoTakesExactly | sidecar/ryu_research/server.py:199-223 | of the inputs that Rust accepts Python accepts exactly those with size lines of at most 4096 bytes, no bare line feed and only ASCII beside the size, a line end after each chunk and a body within the limit |
| Chunked.EachAcceptsMore | sidecar/ryu_research/server.py:219-221 | an input that only Rust accepts, for want of a line end after its chunk, and one that only Python accepts, for a size written 0x0 |

## Left out

- Transactions: SQL text, busy timeouts and storage errors; a write that fails is rolled back and changes nothing. Foreign keys and column defaults are part of the tables' types.
- Row ids: an id is the row's position in its table. Rows are never deleted by the modelled code.
- Owner scopes and their predicates, listing and projections: single-branch facts.
- `_backfill_policy_snapshots` and schema migration: a campaign has the policy it was created or imported with.
- CampaignRuns.ReachableInv: takes every operation as one transaction, which `HistoryLock` justifies for proposals, analyses and starts; with `set_campaign_status` split in two the clause that a campaign is running exactly when it names its running attempt fails exactly as `StatusRace.LateIsSoundExactly` says, and everything else still holds (`StatusRace.RacyReachableCore`).
- CampaignFacts.AttemptsAreBounded: the crash recoveries and manual reopens are counted, as the code only promises that form; `StatusRace.RacyAttemptsAreBounded` is the form with late status updates.
- HistoryCache.StalenessIsNoticedExactly: assumes the guard; without it the property fails exactly as `HistoryCache.MissedExactly` and `HistoryCache.CutRecoveryMissedExactly` say. Taking the stamp before the transaction, as creating a campaign and changing its status do, is covered. A start is taken to recover the store while nothing else of the engine is in flight.
- Scores are reals and a score that is absent, NaN or infinite is `None`; rounding is not modelled. Policies are those the experiment configuration accepts.
- JSON rendering, SHA-256, UTF-8 decoding (except that ASCII stands for itself), the metric regex and git's hashes are left open as function parameters.
- Timestamps, run outcomes and the behaviour of other processes are parameters; the clock of `HistoryCache` does not run backwards.
- Sealing inside campaign rows: the campaign model stores plain text; `SealedStore` models the cells.
- WorkspaceRuns.WorkspaceAgrees: a campaign imported from a ledger has no such history to begin with; nobody but the engine makes commits.
- WorkspaceRuns.LedgerOnlyGrows: other writers are assumed to leave the ledger alone while an attempt runs; the engine never lets its clients write it.
- WorkspaceFacts.CrashKeepsSpineExactly: crashes at the three points between the steps of an attempt; a crash in the middle of one git command is git's own affair, and so are files that were staged and not committed. Reading the name of HEAD is taken to succeed.
- git, `ps`, process groups and timeouts themselves; files a workspace ignores are not part of its tree. The ledger's row text is what sealing keeps; splitting plaintext ledgers into lines is not part of this model.
- The `cryptography` package path of the cipher: only the pure-Python path is modelled.
- Sealing: an envelope is a value that opens under its key at its place and nowhere else; it carries no nonce, so the rows whose swap fails because they were sealed anew with the same text are any set (`missed`) of a migration step; a key is identified with its check value. HKDF, subciphers, byte sealing, blind indexes and key capture from the environment are left out, and so is a store opened without a key source.
- SealedStore.EveryCellOpens: legacy plaintext, and plaintext of an older build, that already reads as an envelope of some version does not open and is excluded; a missing row counts as a null cell; the digits of an envelope version are ASCII, where the regex also takes other decimal digits.
- Order keys are integers; text keys are only compared.
- Zero-filling of free pages, VACUUM and free-space checks depend on the storage engine.
- Seccomp: installing the filter, Landlock rules and path policies depend on the host.
- ModelStream: the HTTP exchange before the first byte; a UTF-8 or JSON error is one outcome each.
- Chunked: the Content-Length branch and the JSON parse after it. A size within two of the largest machine word, which overflows in the Rust decoder, is a separate error outcome.
- Experiment execution, HTTP routing, MCP, app events other than the model stream, and the training scripts.
