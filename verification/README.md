# What the wallet's hardest code promises, proved

A Dafny 4.11 model of the parts of the wallet where a mistake costs money or
shows somebody a wrong figure, with proofs over every input, every run or every
crash point. `dafny verify dfyconfig.toml` checks all of it.

The files follow the program:

| part | files |
|---|---|
| holding one node's coins against another's | `Chain`, `Corroborate`, `CorroborateTheorems` |
| the guard every spend passes | `Text`, `TextTheorems`, `Network`, `Node`, `Permit`, `NodeManager`, `SpendRuns`, `NodeRuns` |
| records of money in flight | `FileStore`, `Pending`, `PendingRuns`, `PendingHistory`, `PendingRecords`, `Registration`, `RegistrationRuns`, `Launch`, `Params` |
| history scanning and the activity list | `HistoryPage`, `HistoryPaging`, `Rows` |
| choosing what a shield spends | `Sorting`, `Shield` |
| the balance chart | `Series`, `Lttb`, `LttbTheorems`, `LttbGeometry`, `Plot`, `PlotTheorems`, `PlotAxes`, `ChartTheorems` |
| prices and valuation | `Market`, `MarketTheorems`, `MarketRoutes`, `MarketPrices`, `Valuation` |
| a drafted currency and its definition | `Currency`, `CurrencyTheorems`, `DraftProblems` |

Code that works by changing things is a class or a method with a loop, proved
against a function of its inputs or its old state; the theorems are about that
function. What the world decides (a node's answers, where a write stops, how
text reads as a number) is a parameter, so each theorem holds whatever it does.

## Where the code and its comments part

Each of these is a lemma: the exact condition under which the promise holds, or
an input where it does not.

- **An honest node can be accused.** Reading the tip before the coins protects
  new coins only. A coin both nodes had indexed, spent in a block that arrived
  between the reads, is held against the primary
  (`SpendBetweenTheReadsIsAccused`); `HonestPairVerdict` gives the condition
  for every pair of honest nodes. Nothing in the shipped wallet calls this
  comparison (crates/pecu-chain/src/corroborate.rs:3-23): the fault waits for
  whoever attaches it again.
- **A primary that repeats the second source's hash is believed about its
  chain**: the name of one shared block is all it is asked, so with heights
  that excuse what is missing it is only out of step (`OutOfStepExactlyWhen`).
- **A resend can lose the payment it resends.** A commit whose write failed
  stays in memory, and a resend reads memory (`ResendOfAnUnsavedCommitIsLost`).
  A resend is safe exactly when the running process read its record from the
  file or held it at a write that returned Ok (`ResendIsSoundExactlyWhenSaved`).
- **A file that cannot be read is replaced, not kept.** Opening takes a failed
  read or parse for an empty ledger, no reservation or no launch, and the next
  write that reaches its rename puts its own content in the file's place
  (`TornFileIsKeptExactlyWhen`). Payments, salts and decisions already sent can
  be lost so (`BlindCommitLosesAPayment`, `BlindReserveLosesASalt`,
  `BlindBeginReplaces`); `WriteKeepsOwedExactlyWhen` and
  `SaltStaysExactlyWhenSpared` say exactly which writes keep them. The recovery
  theorems are over the runs in which such a blind process replaces nothing owed.
- **A pending record's id can come back** after its record was forgotten and
  the wallet restarted (`AnIdComesRoundAgain`, exact condition in
  `RestartKeepsNumberingExactlyWhen`).
- **Loading older history can skip a block.** A page that ran out of requests
  names the first block it did not look at; asking from one below steps over it
  (`APaymentIsSteppedOver`), and the list ends up claiming to be complete.
  Asking from the named block itself, as the comment has it, leaves no gap and
  repeats each block a page ended on (`PagingAsDescribedRepeatsExactly`).
- **The last riser runs past the last reading** by its corner radius
  (`StairsAreRightward`).
- **The series holds the balance just before each transaction**, at that
  transaction's time (`ReadingsStepForward`).
- **The chart and the figure above it can come through different pools**: the
  figure falls through to two hops when the first direct pool has no price, the
  chart does not (`ChartAndFigureDisagree`), and a chart can stand under no
  figure at all (`ChartWithoutAFigure`). `ChartFollowsTheFigureExactlyWhen` is
  the exact condition.
- **The reference pool may be one whose launch was refunded**
  (`ReferenceMayBeRefunded`): it is only asked to have started. It is sure to
  be a venue exactly when every pool that could be the reference is one
  (`ReferenceIsAVenueExactlyWhen`).
- **Ready is not the same as buildable.** Totals are added in 64 bits, and
  in a build without overflow checks they wrap: a basket of enormous weights
  can be called ready and have no definition (`ReadyBasketWithNoDefinition`,
  exact condition in `WeightsFitExactlyWhenTheirTotalDoes`). With overflow
  checks on the same input panics instead.
- **A basket can hold one currency twice**, spelled as two kinds of address
  with the same twenty bytes (`OneCurrencyTwice`); that is the only way
  (`ReservesAreDifferentExactlyWhen`), so reserves all of one kind of address
  are different currencies (`ReservesAreDifferentCurrencies`).
- **A launch whose name landed can become unresumable**: the step is written
  best-effort, and after a restart only the written step counts
  (`ALandedNameIsForgotten`, exact condition in `DecisionIsRecovered`).
- **Downloaded parameters are renamed without a sync.** Wherever the process
  dies, what is under the real name is what it was or whole
  (`RealNameIsOldOrWhole`). Across a power cut it is sure to be exactly when
  the download did not get as far as replacing it
  (`WholeAcrossPowerCutsExactlyWhen`); the hash taken at load is what catches it.
- **The filled area leans at its right edge** when the last riser is drawn with
  a corner: the line stops past the last reading and the area closes under it
  (`AreaIsClosedOnTheCanvas`).

## Model

| member | source | states |
|---|---|---|
| Chain.UnspentExactlyUntilSpent | crates/pecu-chain/src/corroborate.rs:387-457 | over a chain as a fold of blocks, an output is in the UTXO set from its block until the first block that spends it, and at no other height |
| Chain.NotUnspentBeforeCreated | crates/pecu-chain/src/corroborate.rs:394-412 | no node behind the block that creates a coin can list it |
| CorroborateTheorems.MissingExactlyWhen | crates/pecu-chain/src/corroborate.rs:405-421 | an honest second source lacks an honestly offered coin exactly when the coin is newer than its answer or was spent between the two answers |
| CorroborateTheorems.HonestPairVerdict | crates/pecu-chain/src/corroborate.rs:387-457 | for every chain and every pair of honest nodes at any four moments, the verdict is Agreed, OutOfStep or Diverged, and Diverged exactly when some coin is past the lag or was spent between the reads |
| CorroborateTheorems.HonestPairNeverAccused | crates/pecu-chain/src/corroborate.rs:516-554 | within the lag, and with no offered coin spent between the reads, two honest nodes are never called diverged |
| CorroborateTheorems.StillPairNeverAccused | crates/pecu-chain/src/corroborate.rs:516-554 | two nodes each answering at one height and within the lag are never called diverged |
| CorroborateTheorems.FarAheadIsAccused | crates/pecu-chain/src/corroborate.rs:516-554 | past the lag a single coin is enough for Diverged, so the bound is tight |
| CorroborateTheorems.SpendBetweenTheReadsIsAccused | crates/pecu-chain/src/corroborate.rs:398-412 | two honest nodes at one height, one spend between the reads, and the verdict is Diverged |
| CorroborateTheorems.AnotherChainIsNeverExcused | crates/pecu-chain/src/corroborate.rs:423-457 | for any coins, heights and tip, a primary whose block at the lower tip is not the second source's is Diverged if one coin is missing and Agreed only if none is, whatever it says of other heights |
| CorroborateTheorems.AgreedExactlyWhenAllAreHeld | crates/pecu-chain/src/corroborate.rs:394-421 | on a non-empty offer, Agreed if and only if the second source answered both reads and holds every offered outpoint |
| CorroborateTheorems.OutOfStepExactlyWhen | crates/pecu-chain/src/corroborate.rs:413-457 | OutOfStep if and only if something is missing, every missing coin is excused by heights, and the two nodes name the lower tip's block alike |
| CorroborateTheorems.OutOfStepNeedsOneBlock | crates/pecu-chain/src/corroborate.rs:491-554 | OutOfStep implies both nodes named one block at the lower tip, and no coin above the primary's own tip was excused |
| CorroborateTheorems.VerdictCarries | crates/pecu-chain/src/corroborate.rs:405-457 | every verdict counts the coins held, and carries, in the order offered, the missing coins or those no height excuses, and both tips |
| CorroborateTheorems.SilenceIsNotDisagreement | crates/pecu-chain/src/corroborate.rs:394-404 | a second source that does not answer gives Unavailable, never Diverged, and a refusal that says it was silent |
| CorroborateTheorems.AgreedIsTheIntersection | crates/pecu-chain/src/corroborate.rs:560-571 | setting aside what is missing leaves exactly the outpoints both nodes list |
| CorroborateTheorems.FundingIsTheAgreedSet | crates/pecu-core/src/send.rs:787-884 | whenever funding is allowed, the allowed set is the intersection of the two nodes' lists, whichever verdict granted it |
| CorroborateTheorems.FundingIsGrantedExactlyWhen | crates/pecu-core/src/send.rs:787-836 | funding is granted if and only if the primary answers and the verdict is Agreed, or OutOfStep with some coin held by both |
| CorroborateTheorems.FundingIsRefusedFor | crates/pecu-core/src/send.rs:828-884 | a refusal names which source is ahead, counts what is withheld or unexplained, or says who was silent |
| CorroborateTheorems.FilterIsPiecewise | crates/pecu-chain/src/corroborate.rs:640-650 | filtering distributes over concatenation, so it neither reorders nor repeats |
| CorroborateTheorems.BuilderSeesOnlyCorroborated | crates/pecu-chain/src/corroborate.rs:640-650 | whatever the primary answers later, at the funding address the builder sees exactly the coins both had listed, and elsewhere exactly what was answered |
| Network.ReadingIsStable | crates/pecu-chain/src/network.rs:139-170 | a chain name read, spelled back and read again is the same chain |
| Network.CanonicalIsStable | crates/pecu-chain/src/network.rs:139-157 | the canonical spelling matches the name whatever its case, is a shipped one or the name itself, and is its own canonical spelling |
| NodeRuns.ReadingKeepsTheName | crates/pecu-chain/src/network.rs:139-170 | a chain is spelled as the name read, but for case; mainnet and testnet are read from their own exact names and no others |
| Network.OnlyVrsctestIsUnguarded | crates/pecu-chain/src/network.rs:283-287 | the only chain name that escapes the real-money guard is VRSCTEST, exactly |
| Node.BackoffDoublesToTheCeiling | crates/pecu-chain/src/node.rs:254-262 | for every failure count the capped shift equals doubling up to the ceiling |
| NodeRuns.CountIsSinceTheLastAnswer | crates/pecu-chain/src/node.rs:182-237 | after any history a node's count is the failures since it last answered, and it waits exactly the delay they earn, or not at all |
| NodeRuns.WaitsAreBetween | crates/pecu-chain/src/node.rs:254-263 | the shortest wait is five seconds, the longest five minutes, from the seventh failure on |
| NodeRuns.IdentifiedExactlyWhen | crates/pecu-chain/src/node.rs:182-205 | a node naming a chain with a pinned id is identified if and only if it reports that id |
| NodeRuns.AnswerIsJudged | crates/pecu-chain/src/node.rs:182-217 | each status an answer can give, exactly when |
| NodeRuns.FailureIsJudged | crates/pecu-chain/src/node.rs:223-237 | a failure is a method not served or a node out of reach, and leaves what the node had said |
| Node.Node.RecordSuccess | crates/pecu-chain/src/node.rs:182-217 | a probe's answer sets status, network and tip as specified, and clears the failures |
| Node.Node.RecordFailure | crates/pecu-chain/src/node.rs:223-237 | a failure counts up, sets the status, and leaves network and tip as they were |
| NodeManager.NodeManager.RecordAnswer | crates/pecu-chain/src/node.rs:381-383 | an answer changes the one node it is about and no other |
| NodeManager.NodeManager.SetActive | crates/pecu-chain/src/node.rs:385-397 | selecting succeeds exactly when the manager has the node, and changes only which is active |
| NodeManager.NodeManager.SetActiveByUrl | crates/pecu-chain/src/node.rs:404-424 | selects the first node at the same endpoint, or nothing |
| NodeRuns.TidyTakesTheSlashes | crates/pecu-chain/src/node.rs:299-308 | endpoints are compared without the slashes they end with, and nothing else is taken off |
| NodeManager.NodeManager.SetRequested | crates/pecu-chain/src/node.rs:438-445 | changing chain takes back the opt-in; asking for the same chain does not |
| NodeManager.NodeManager.SetAllowSpending | crates/pecu-chain/src/node.rs:469-478 | the opt-in goes on only for the chain's own non-empty name typed, in any case |
| TextTheorems.EqualButForCaseExactlyWhen | crates/pecu-chain/src/node.rs:469-478 | what is typed matches a name if and only if it is the same letter for letter, but for case |
| TextTheorems.TrimTakesTheSpaces | crates/pecu-chain/src/node.rs:469-478 | trimming takes all spaces from both ends and nothing else |
| NodeManager.NodeManager.SpendPermit | crates/pecu-chain/src/node.rs:488-494 | the permit is what the gate says of the active node, the requested chain and the opt-in |
| SpendRuns.PermitExactlyWhenEntitled | crates/pecu-chain/src/permit.rs:193-251 | over every run, a permit is minted if and only if the active node's last word was a caught-up answer bearing out the requested chain at the permit's tip and, off the faucet chain, that chain's own name was typed and nothing since took it back |
| NodeRuns.RefusedExactlyWhen | crates/pecu-chain/src/permit.rs:193-251 | each refusal of a spend is given exactly when it is the reason |
| SpendRuns.ActiveIsTheChosen | crates/pecu-chain/src/node.rs:359-424 | after any history the active node is the one last chosen: the first shipped, or the last listed one selected by id or endpoint |
| SpendRuns.RecordReflectsLastWord | crates/pecu-chain/src/node.rs:182-237 | after any history a node's record is its last word: nothing but an answer can put it online |
| SpendRuns.AllowedMeansArmed | crates/pecu-chain/src/node.rs:438-478 | the opt-in is on if and only if an arm for the present chain still stands |
| SpendRuns.SwitchingChainDisarms | crates/pecu-chain/src/node.rs:438-445 | after a switch or a rebuild, no permit for real money exists |
| FileStore.Store.ReplaceWith | crates/pecu-core/src/pending.rs:204-222 | create, write, sync, rename, stopping at any step: the disk is the specified function of the old disk |
| FileStore.ReplaceIsAtomic | crates/pecu-core/src/pending.rs:204-222 | wherever it stops, and whatever a power cut then tears, the real file is entirely old or entirely new; new if it returned Ok, old if it failed |
| FileStore.AtomicAcrossPowerCutsExactlyWhen | crates/pecu-core/src/pending.rs:204-222 | a replace, synced or not and stopped anywhere, leaves the real file entirely old or entirely new after every power cut if and only if it synced or stopped before the rename |
| FileStore.RenamingUnsyncedCanLoseBoth | crates/pecu-core/src/params.rs:276-301 | without the sync a rename can leave neither the old content nor the new |
| Pending.Ledger.Open | crates/pecu-core/src/pending.rs:75-94 | the records are the file's, or none if it cannot be read or parsed, and the next id is above all of them |
| Pending.Ledger.Commit | crates/pecu-core/src/pending.rs:105-128 | the record is appended under the next id, then written; it stays in memory whatever the write did |
| Pending.Ledger.SetState | crates/pecu-core/src/pending.rs:132-141 | one record's state changes, nothing else |
| Pending.Ledger.NoteCheck | crates/pecu-core/src/pending.rs:157-164 | one record's count rises, saturating, nothing else |
| Pending.Ledger.ForgetConfirmed | crates/pecu-core/src/pending.rs:145-150 | the records left are the unconfirmed ones, in order |
| PendingRecords.StateReachesItsRecord | crates/pecu-core/src/pending.rs:132-141 | a state is set on the record held under the id, and nothing else of it or of any other changes |
| PendingRecords.ChecksAreCounted | crates/pecu-core/src/pending.rs:157-164 | `n` checks raise one record's count by `n`, to the ceiling, and touch nothing else |
| PendingRecords.ForgettingIsPiecewise | crates/pecu-core/src/pending.rs:145-150 | what is left keeps its order |
| PendingRecords.NoFileForNothing | crates/pecu-core/src/pending.rs:204-212 | a ledger that never held anything never makes a file |
| PendingHistory.OnlyDroppedRecordsLeave | crates/pecu-core/src/pending.rs:75-164 | over every run, between any two moments, a record on file stays on file with the same payment and no fewer checks, unless its payment was confirmed and forgotten, or was on a file that could not be read, in between or by the process then running |
| PendingHistory.OnlyCommittedRecordsAppear | crates/pecu-core/src/pending.rs:75-164 | over every run, every record on file or in memory comes of one held earlier or of a payment committed since |
| PendingHistory.FileIsInMemory | crates/pecu-core/src/pending.rs:75-164 | over every run, a running process holds everything on file but what it has itself forgotten or could not read |
| PendingRuns.StepIsSound | crates/pecu-core/src/pending.rs:105-164 | every step but a resend off record or a blind replacement keeps ids distinct and below the next one, and every owed payment on disk, and in the memory of a process that read it |
| PendingRuns.EveryOwedPaymentIsRecovered | crates/pecu-core/src/pending.rs:75-128 | over every run of writes stopped anywhere, deaths, power cuts and opens that may fail to read, in which resends are of records on file and a process that could not read replaces nothing owed, reading the file recovers the exact bytes of every payment broadcast and not confirmed and forgotten |
| PendingRuns.WriteKeepsOwedExactlyWhen | crates/pecu-core/src/pending.rs:105-222 | whatever the process knows of the file, a write keeps every owed payment on it if and only if it stops before the rename, has nothing to write, or its memory with what it commits holds them all |
| PendingRuns.BlindCommitLosesAPayment | crates/pecu-core/src/pending.rs:75-128 | commit and send, end, open unread, commit: the first payment is on no file |
| PendingRuns.TornFileIsKeptExactlyWhen | crates/pecu-core/src/pending.rs:70-94 | a file that cannot be parsed stays, through a write, if and only if the write stops before the rename |
| PendingRuns.LandedWriteIsRestored | crates/pecu-core/src/pending.rs:75-94 | after a write that landed, opening brings back exactly the records in memory |
| PendingRuns.RestartKeepsNumberingExactlyWhen | crates/pecu-core/src/pending.rs:85-93 | numbering goes on where it stopped if and only if the newest record is still held |
| PendingHistory.AnIdComesRoundAgain | crates/pecu-core/src/pending.rs:85-93 | pay, confirm, forget, restart, pay: both payments are record 1 |
| PendingHistory.ResendIsSoundExactlyWhenSaved | crates/pecu-core/src/lib.rs:3427-3457 | over every run, a resend keeps the guarantee if and only if its record was read by this process's open or held at a write that returned Ok; for a process that could not read, if and only if the very payment is on that file |
| PendingRuns.ResendAfterLandedWriteIsSafe | crates/pecu-core/src/lib.rs:3427-3457 | refusing resends until the last write has landed is enough, over every run |
| PendingRuns.ResendOfAnUnsavedCommitIsLost | crates/pecu-core/src/lib.rs:3427-3457 | a run in which a resent payment is recovered by nothing |
| Registration.Reservation.Reserve | crates/pecu-core/src/registration.rs:120-138 | the salt is in memory and written before Ok is returned |
| Registration.Reservation.MarkCommitted | crates/pecu-core/src/registration.rs:142-150 | only the step of the record changes |
| Registration.Reservation.Update | crates/pecu-core/src/registration.rs:152-166 | only the pending part of the record changes |
| Registration.Reservation.Finish | crates/pecu-core/src/registration.rs:168-175 | no record remains, and the file goes if the removal does |
| RegistrationRuns.FinishedIsNotFound | crates/pecu-core/src/registration.rs:168-175 | once finished with and removed, a registration is not found again |
| RegistrationRuns.BroadcastSaltIsRecovered | crates/pecu-core/src/registration.rs:83-197 | over every run, opens that fail to read included, in which a process that could not read spares the salt, reading the file recovers the salt of a broadcast commitment until it is finished with, even when later updates fail |
| RegistrationRuns.SaltStaysExactlyWhenSpared | crates/pecu-core/src/registration.rs:120-197 | whatever the process knows of the file, a write or removal leaves a broadcast salt on it if and only if it stops before the rename, has nothing to write or remove, or carries the same salt |
| RegistrationRuns.BlindReserveLosesASalt | crates/pecu-core/src/registration.rs:75-138 | reserve and send, end, open unread, reserve: the first salt is gone |
| RegistrationRuns.ReservingOverASalt | crates/pecu-core/src/registration.rs:106-138 | reserving over a broadcast salt keeps it exactly when it is the same salt or the rename was not reached, so the caller's guard is needed |
| Launch.Intent.Begin | crates/pecu-core/src/launch.rs:142-152 | the decision is in memory as typed, awaiting its identity, and the write is best-effort |
| Launch.Intent.IdentityExists | crates/pecu-core/src/launch.rs:155-162 | only the step changes |
| Launch.DecisionIsRecovered | crates/pecu-core/src/launch.rs:100-194 | over every run in which a process that could not read leaves the file alone, a decision once written, by either write, is recovered as typed until finished with; what is recovered says the name exists exactly when a write made after the report landed |
| Launch.BlindBeginReplaces | crates/pecu-core/src/launch.rs:94-152 | a written decision, an open that cannot read it, another begun: the first is gone |
| Launch.ALandedNameIsForgotten | crates/pecu-core/src/launch.rs:155-162 | a run after which a name reported to exist is waited for again |
| Params.Download | crates/pecu-core/src/params.rs:235-301 | whatever goes wrong and wherever the process dies, the real name is replaced exactly when the rename is passed, by exactly the first bytes of the right number; it reports success exactly then, if it lives; progress rises to the whole |
| Params.Receive | crates/pecu-core/src/params.rs:254-287 | the reading loop comes through exactly when nothing it meets where it stands goes wrong, with as many bytes as were sent and wanted |
| Params.RealNameIsOldOrWhole | crates/pecu-core/src/params.rs:195-202 | against the process dying anywhere, what is under the real name is what it was or whole |
| Params.WholeAcrossPowerCutsExactlyWhen | crates/pecu-core/src/params.rs:195-202 | a download is a replace without the sync: after every power cut the real name is entirely old or entirely new if and only if the download did not replace it |
| Params.Fetch | crates/pecu-core/src/params.rs:203-232 | succeeds exactly when the directory can be made and each file is there or comes down whole; a file already there is left alone; reported progress never falls and ends at the total |
| HistoryPage.HistoryPage | crates/pecu-core/src/portfolio.rs:264-326 | at most 24 requests, over contiguous windows with no bound below 1; the result is the specified page, or the error of the last request |
| HistoryPage.PageIsExact | crates/pecu-core/src/portfolio.rs:264-326 | a page holds exactly the chain's entries from the lowest block looked at up to `before`, oldest first |
| HistoryPage.ListIsCompleteExactlyWhen | crates/pecu-core/src/lib.rs:2228-2281 | after any number of pages, the list is the chain's own with no gap or repeat if and only if every block stepped over was empty |
| HistoryPaging.LoadingReachesTheStart | crates/pecu-core/src/lib.rs:2228-2281 | loading older reaches the start in no more presses than there are blocks |
| HistoryPaging.EmptyPageReaches | crates/pecu-core/src/portfolio.rs:264-326 | over an empty stretch one page reaches 34,550,024 blocks down, eight doubled windows and sixteen at the ceiling, and stops there or at the start |
| HistoryPaging.PagingAsDescribedRepeatsExactly | crates/pecu-core/src/portfolio.rs:255-326 | paging from `scanned_to` itself, after any number of pages, leaves no gap and holds twice exactly the blocks one page ended on and the next began with |
| HistoryPage.APaymentIsSteppedOver | crates/pecu-core/src/lib.rs:2244-2281 | a chain whose list claims to be complete and lacks a payment |
| Rows.RowsFrom | crates/pecu-core/src/portfolio.rs:559-593 | the list is newest first, of one kind, with a heading exactly on each row that is first or starts a day |
| Rows.RowsAreTheEntries | crates/pecu-core/src/portfolio.rs:559-593 | every entry for "all" and for "payment", none for any other kind; row i is the i-th newest entry, worded for now, headed with its day exactly where that is first or differs from the entry above |
| Rows.Restamp | crates/pecu-core/src/portfolio.rs:653-666 | in place, the rows become the reworded, reheaded rows |
| Rows.RestampingIsRebuilding | crates/pecu-core/src/portfolio.rs:653-666 | restamping a list cached at any time equals building it anew, for every history, kind and pair of times |
| Rows.PagesJoinExactlyBetweenDays | crates/pecu-core/src/portfolio.rs:559-593 | two pages listed apart and put together are the whole list exactly when a day ends between them or one shows nothing |
| Sorting.SortSorts | crates/pecu-core/src/shield.rs:164-166 | the sort is an ordered permutation |
| Sorting.SortIsStable | crates/pecu-chart/src/series.rs:60-66 | elements of equal key keep their order |
| Shield.Plan | crates/pecu-core/src/shield.rs:139-221 | each refusal exactly where the code gives it; on success inputs total amount, fee and change, and change is nothing or at least the relay fee |
| Shield.Gather | crates/pecu-core/src/shield.rs:170-187 | the gathered inputs are the shortest covering prefix, or all of them when they fall short; the overflow refusal happens only past u64 |
| Shield.FewestInputs | crates/pecu-core/src/shield.rs:162-187 | no selection of the offered outputs with fewer inputs covers the need |
| Shield.LargestOfItsSize | crates/pecu-core/src/shield.rs:162-187 | among selections of its size the plan's is worth the most |
| Shield.SelectedAreOffered | crates/pecu-core/src/shield.rs:162-187 | what is spent was offered, each output at most as often as listed |
| Shield.ShortestCoverIsUnique | crates/pecu-core/src/shield.rs:170-187 | there is only one shortest cover |
| Shield.ShortageIsOfTheListedCoins | crates/pecu-core/src/shield.rs:189-200 | the shortage is of the listed outputs, whatever their order |
| Series.FromDeltas | crates/pecu-chart/src/series.rs:36-68 | the loop, reversal and sort yield the specified series |
| Series.WalkTelescopes | crates/pecu-chart/src/series.rs:45-57 | reading i is the balance now less every later delta if and only if all those balances fit an i64 |
| Series.SaturatingIsTheNearest | crates/pecu-chart/src/series.rs:50-57 | a saturated difference is the nearest i64 to the true one |
| Series.SeriesIsSortedReadings | crates/pecu-chart/src/series.rs:59-68 | for any times the series is a time-sorted permutation of the readings, equal times in chain order |
| Series.SeriesIsTheReadings | crates/pecu-chart/src/series.rs:36-68 | with nondecreasing times up to now and no saturation, it is the readings and then the balance now |
| Series.SeriesIsAsLong | crates/pecu-chart/src/series.rs:36-43 | no series of no transactions, and otherwise one point more than there are |
| Series.SeriesEndsNow | crates/pecu-chart/src/series.rs:45-68 | with no transaction later than now the last point is the balance now |
| Series.ReadingsStepForward | crates/pecu-chart/src/series.rs:50-57 | each reading is the balance just before its transaction, which leads to the next |
| Lttb.CutsTile | crates/pecu-chart/src/lttb.rs:36-45 | the bucket ranges tile the interior with no gap, overlap or empty bucket, and every slice is in bounds |
| Lttb.BucketOf | crates/pecu-chart/src/lttb.rs:36-45 | every interior position is in exactly one bucket |
| LttbGeometry.BucketsAreEven | crates/pecu-chart/src/lttb.rs:36-45 | each bucket holds the interior's share of points, or one more |
| LttbGeometry.ThirdCornerIsTheNextBucket | crates/pecu-chart/src/lttb.rs:42-57 | the third corner is taken from the whole next bucket, or the last point |
| LttbGeometry.AreaIsBaseTimesHeight | crates/pecu-chart/src/lttb.rs:78-94 | an area is the time from the previous point to the next centre, times the candidate's height over the straight line between them |
| LttbGeometry.AreaIsNothingOnTheLine | crates/pecu-chart/src/lttb.rs:78-94 | it is nothing if and only if the candidate is on that line |
| LttbGeometry.AreaIsTheShoelace | crates/pecu-chart/src/lttb.rs:78-94 | it is twice the triangle's area by the standard formula, so which corner is which makes no difference |
| LttbGeometry.AreaIgnoresOrder | crates/pecu-chart/src/lttb.rs:78-94 | exchanging corners leaves an area as it is |
| LttbGeometry.AreaIgnoresPlace | crates/pecu-chart/src/lttb.rs:78-94 | so does moving all three together |
| LttbGeometry.CentreBalances | crates/pecu-chart/src/lttb.rs:101-110 | as many times the centre as there are points is the sum of their times, and of their values |
| Lttb.Pick | crates/pecu-chart/src/lttb.rs:78-94 | the first point of largest triangle area in the bucket |
| Lttb.Downsample | crates/pecu-chart/src/lttb.rs:26-63 | short or tiny thresholds change nothing; otherwise one point of largest area is kept from each bucket, with both ends, exactly `threshold` in all |
| LttbTheorems.ThinningKeepsOrder | crates/pecu-chart/src/lttb.rs:26-63 | kept positions strictly increase |
| LttbTheorems.KeptAreThePoints | crates/pecu-chart/src/lttb.rs:26-63 | what is kept is what stands at the kept positions, both ends among them |
| LttbTheorems.SpikeSurvives | crates/pecu-chart/src/lttb.rs:26-94 | a single spike in a flat series survives for every position and every threshold |
| Plot.Staircase | crates/pecu-chart/src/plot.rs:215-251 | the loop draws the specified treads |
| PlotAxes.CornersAreAsWideAsFit | crates/pecu-chart/src/plot.rs:228-236 | a corner is the widest that keeps to half of each run beside it, of the rise, and to the width asked for |
| PlotAxes.RiserStandsAtItsReading | crates/pecu-chart/src/plot.rs:228-247 | a drawn riser stands at its reading, level to within a corner on either side, each piece leaving the way the one before it came |
| PlotTheorems.TheLineNeverDoublesBack | crates/pecu-chart/src/plot.rs:215-251 | along the whole line, curves included, a later point of the stroke is never further left |
| PlotTheorems.StairsAreRightward | crates/pecu-chart/src/plot.rs:228-247 | every command moves right, and the end overshoots the last x by that riser's radius, at most the corner |
| PlotTheorems.GridLineIsAligned | crates/pecu-chart/src/plot.rs:222-247 | with levels that are whole multiples of `f32::EPSILON`, as those the chart computes are, no rise is lost and every straight piece is horizontal or vertical |
| PlotTheorems.AlignedExactlyWhen | crates/pecu-chart/src/plot.rs:222-247 | over the reals, every straight piece is horizontal or vertical if and only if no rise below the threshold, other than zero, is followed by a reading further right |
| PlotTheorems.RisersStayBetweenLevels | crates/pecu-chart/src/plot.rs:228-247 | on the whole line, every point of what a reading adds, curves included, lies between the level before it and its own, unless the rise before it was lost |
| PlotTheorems.LineStaysInside | crates/pecu-chart/src/plot.rs:215-251 | levels that hold every reading hold every point of the line, whatever the rises |
| PlotTheorems.XsRiseInsideTheBox | crates/pecu-chart/src/plot.rs:125-182 | later readings are never further left, and all are inside the plot |
| PlotTheorems.XsSeparateTimes | crates/pecu-chart/src/plot.rs:279-290 | inside the window the order of xs is exactly the order of times |
| PlotAxes.XsAreProportional | crates/pecu-chart/src/plot.rs:140-150 | a time is drawn as far across as it is into the window |
| PlotAxes.YsAreProportional | crates/pecu-chart/src/plot.rs:152-163 | a level stands as far above the baseline as its value is above the least |
| PlotAxes.EndsOfTheScale | crates/pecu-chart/src/plot.rs:152-163 | the least is drawn on the baseline and the most at the top |
| PlotAxes.MoreIsHigher | crates/pecu-chart/src/plot.rs:152-163 | one level is drawn no lower than another if and only if its value is no less |
| PlotAxes.BoxIsTheViewportLessItsPadding | crates/pecu-chart/src/plot.rs:46-57 | where there is room, the plot is the viewport less its padding on all four sides |
| PlotTheorems.PointerPicksTheGoverningReading | crates/pecu-chart/src/plot.rs:306-316 | inside the window the reading picked is the last at or before the instant under the pointer, even with readings dated after now; at the right edge it is the last of all |
| PlotTheorems.TimeUnderItsOwnX | crates/pecu-chart/src/plot.rs:323-340 | the time read back under a drawn time is that time |
| PlotAxes.TimeUnderIsTheNearest | crates/pecu-chart/src/plot.rs:323-340 | the instant under a pointer is the nearest second to its share of the window, and the window's end beyond it |
| Plot.StepAt | crates/pecu-chart/src/plot.rs:306-316 | the last index at or left of the pointer, zero if none |
| Plot.Build | crates/pecu-chart/src/lib.rs:72-76 | the plot returned is the drawing, over the window from the first reading to now, of a thinning of the points |
| PlotAxes.BuiltPlotShowsItsReadings | crates/pecu-chart/src/lib.rs:72-76 | the plot built carries the kept readings' values and times, their least and most, and the window; unless flat, more is drawn higher, exactly |
| PlotAxes.PlotIsOfItsReadings | crates/pecu-chart/src/plot.rs:125-204 | nothing is drawn of nothing; of one reading or of no time the last; of anything else all of them |
| PlotAxes.SteadyIsHalfwayUp | crates/pecu-chart/src/plot.rs:152-204 | what did not move is drawn halfway up, and one reading right across with nothing filled in |
| ChartTheorems.ChartStaysInItsBox | crates/pecu-chart/src/lib.rs:72-76 | reconstruct, thin, draw: whatever the blocks' clocks said, the plot's xs are nondecreasing, its readings are in the box, and every point of its line is on the canvas, past the right edge by at most the corner |
| ChartTheorems.AreaIsClosedOnTheCanvas | crates/pecu-chart/src/plot.rs:259-265 | the filled area is the line and three edges, every point on the canvas; its first edge is upright if and only if the last riser was not drawn or has no corner |
| MarketTheorems.SeriesIsAnAsOfJoin | crates/pecu-core/src/market.rs:705-762 | the two-hop series pairs increasing pool readings each with the latest usable reference reading at or before it; every other reading had no price, no reference yet, or a product that does not fit |
| MarketTheorems.HopIsTheLatest | crates/pecu-core/src/market.rs:735-753 | the entry found in the ordered map is the latest usable reading in whatever order they were published, the last published of several at one instant |
| MarketTheorems.SeriesKeepsTheReadingsOrder | crates/pecu-core/src/market.rs:705-762 | a series is in time order whenever its pool's readings are, by either route |
| MarketTheorems.ChangeComparesTheWindowsEnds | crates/pecu-core/src/market.rs:771-789 | on a time-ordered series the change is the growth from the oldest reading inside the window to the newest, and is given exactly when the window's start does not overflow, the two are apart and the older is positive |
| MarketTheorems.PricesAgreeWithinAPool | crates/pecu-core/src/market.rs:278-312 | a price is given exactly when both sides have one; through the pool's own currency it equals the direct price, and there and back is one |
| MarketTheorems.PastPricesAgreeWithinAPool | crates/pecu-core/src/market.rs:214-227 | the same at every past reading |
| MarketPrices.PriceIsTheReservesRatio | crates/pecu-core/src/market.rs:278-312 | a price times the target's published units is the quote's, and the pool's own currency is worth the quote's units; there is one if and only if both are published above nothing |
| MarketPrices.PastPriceIsTheReadingsRatio | crates/pecu-core/src/market.rs:214-227 | the same off a past reading's recorded prices |
| MarketPrices.FigureIsTheReservesRatio | crates/pecu-core/src/market.rs:521-571 | a figure is one pool's ratio, or one pool's in the chain's currency times the reference's |
| MarketPrices.FigureComesThrough | crates/pecu-core/src/market.rs:536-571 | it comes through the first listed pool for the quote if that has a price, else through the first for the chain that is not the reference |
| MarketPrices.ChartComesThrough | crates/pecu-core/src/market.rs:815-836 | a chart is drawn from the first listed pool for the quote, else through the reference from the first for the chain that is not it, else not at all |
| MarketPrices.ListedAreThoseThatMayPrice | crates/pecu-core/src/market.rs:252-276 | the pools ranked for a currency are exactly those begun, not refunded, with a supply, that hold some of it or are it |
| MarketPrices.ReferenceExactlyWhen | crates/pecu-core/src/market.rs:501-512 | the reference is a begun pool that prices the chain's currency, and there is one if and only if there is such a pool |
| MarketPrices.SatsAreTheNearest | crates/pecu-core/src/market.rs:879-891 | a price in satoshis is the nearest, and withheld exactly when negative or past the ceiling |
| MarketPrices.DirectSeriesIsTheReadings | crates/pecu-core/src/market.rs:711-722 | a direct series is one point for each reading with a price that fits, in order, each what the reserves then gave |
| MarketPrices.HoppedPointIsBothRatios | crates/pecu-core/src/market.rs:747-760 | a two-hop point is the pool's ratio at its reading times the reference's at the reading in force, in satoshis |
| MarketPrices.HoldingIsWorthTheReservesRatio | crates/pecu-core/src/market.rs:592-597 | a holding is worth its share of that ratio, to the rounding |
| MarketRoutes.ChartFollowsTheFigureExactlyWhen | crates/pecu-core/src/market.rs:521-585 | the chart and the figure come through the same pools, or there is neither, if and only if the currency is the quote itself, there is no route or the charted pool has a price now |
| MarketRoutes.QuoteCurrencyIsChartedWhereListed | crates/pecu-core/src/market.rs:521-533 | the quote currency's chart and figure are both from the first pool listed for it |
| MarketRoutes.ChartAndFigureDisagree | crates/pecu-core/src/market.rs:810-836 | three pools for which the chart is drawn from one and the figure comes through the other two |
| MarketRoutes.ChartWithoutAFigure | crates/pecu-core/src/market.rs:810-836 | a pool for which there is a chart and no figure |
| MarketRoutes.RoutesRunThroughVenues | crates/pecu-core/src/market.rs:481-512 | the charted pool is a venue holding the currency, and never its own reference; the reference has started and has a price |
| MarketRoutes.ReferenceMayBeRefunded | crates/pecu-core/src/market.rs:501-512 | a book that charts through a reference whose launch was refunded |
| MarketRoutes.ReferenceIsAVenueExactlyWhen | crates/pecu-core/src/market.rs:501-512 | however depth ranks them, the reference is a venue if and only if every pool it could be taken from is one |
| Valuation.ValueIsTheNearestSatoshi | crates/pecu-core/src/market.rs:592-597 | the wide product never overflows, the value is within half a satoshi of held × price, and it is withheld exactly when the nearest satoshi passes i64 |
| Valuation.MoreIsNeverWorthLess | crates/pecu-core/src/market.rs:592-597 | valuation is monotone in the holding |
| Valuation.PartsAddUpToASatoshi | crates/pecu-core/src/market.rs:592-597 | valuation is additive to within one satoshi |
| Valuation.QuoteIsWorthItself | crates/pecu-core/src/market.rs:521-533 | the quote currency is worth itself, satoshi for satoshi |
| Valuation.ValueAgainstTheTruePrice | crates/pecu-core/src/market.rs:570-597 | against the unrounded price the value is out by at most half a satoshi per unit held (three halves at the last price that fits), and half a satoshi more |
| Valuation.ValueHoldings | crates/pecu-core/src/market.rs:611-626 | in place, every row is repriced from the one book |
| Valuation.EveryRowShowsItsWorth | crates/pecu-core/src/market.rs:611-626 | a row shows what its amount is worth in this book, or that it is not known, and what it is a row of does not change |
| Valuation.NoFigureOutlivesItsBook | crates/pecu-core/src/market.rs:599-626 | no figure of an earlier book survives, and a row that cannot be priced says so |
| Valuation.FloorIsTheShareUntilItSaturates | crates/pecu-core/src/convert.rs:286-293 | the floor never exceeds 970 per mille of the estimate, and is exactly that rounded down if and only if the product stays below the last whole thousand of u64 |
| Valuation.FloorIsMonotone | crates/pecu-core/src/convert.rs:286-293 | raising an estimate never lowers its floor, and past saturation the floor stays where it is |
| Currency.CheckBasket | crates/pecu-core/src/currency.rs:395-439 | the loop finds the specified problems in order, the total reported only when nothing else blocks |
| Currency.CheckToken | crates/pecu-core/src/currency.rs:454-486 | the same for a token |
| DraftProblems.ReserveProblemsAreNamed | crates/pecu-core/src/currency.rs:402-429 | an unnamed reserve, one named twice and one of no weight are each reported exactly when there is one |
| DraftProblems.BasketProblemsAreNamed | crates/pecu-core/src/currency.rs:395-439 | no reserves is reported exactly then; wrong weights exactly when nothing else is wrong and they do not come to one |
| DraftProblems.TokenProblemsAreNamed | crates/pecu-core/src/currency.rs:454-474 | reserves on a token, a supply of nothing for ever, and one left for later are each reported exactly when so |
| DraftProblems.AllocationProblemsAreNamed | crates/pecu-core/src/currency.rs:476-486 | an allocation to nobody and one of nothing are each reported exactly when there is one |
| DraftProblems.StartProblemsAreNamed | crates/pecu-core/src/currency.rs:488-507 | a start that is needed, far or past the last height is reported exactly when so |
| DraftProblems.NftProblemsAreNamed | crates/pecu-core/src/currency.rs:441-452 | an NFT always warns, and is stopped by reserves or a second holder |
| Currency.BuildDefinition | crates/pecu-core/src/currency.rs:945-1050 | the definition built entry by entry, or the first refusal met, is the specified one |
| CurrencyTheorems.DecisionsAreRecorded | crates/pecu-core/src/currency.rs:945-1050 | a definition is mintable, a basket or one of a kind exactly as the draft is; an NFT goes to its one holder; what is not a basket has no currencies, weights or initial supply |
| CurrencyTheorems.RefusalIsTheFirst | crates/pecu-core/src/currency.rs:992-1003 | a refusal is for the first allocation that cannot be used |
| CurrencyTheorems.RefusalsSayWhy | crates/pecu-core/src/currency.rs:992-1032 | each refusal of an allocation or a reserve is given exactly when it is the first thing wrong with it |
| CurrencyTheorems.ReserveRefusedIsTheFirst | crates/pecu-core/src/currency.rs:1009-1032 | or for the first reserve that cannot |
| CurrencyTheorems.ReadyExactlyWhen | crates/pecu-core/src/currency.rs:320-507 | a draft is ready if and only if its identity, its kind's own rules and its start stand, said without the list of problems |
| CurrencyTheorems.StartIsAsTyped | crates/pecu-core/src/currency.rs:556-565 | a ready draft starts after the tip, as many blocks on as were typed |
| CurrencyTheorems.ReadyBuildsExactlyWhen | crates/pecu-core/src/currency.rs:945-1050 | exactly what a ready draft still needs before it has a definition |
| CurrencyTheorems.BasketIsAsShown | crates/pecu-core/src/currency.rs:945-1050 | a ready basket's definition has a currency and positive weight for each reserve in order, from distinct strings, and declares the supply shown; the weights sum to one coin if and only if their true total fits 64 bits, as it does up to 2^32 reserves |
| CurrencyTheorems.WeightsFitExactlyWhenTheirTotalDoes | crates/pecu-core/src/currency.rs:402-438 | a ready basket's true total fits 64 bits if and only if it is one coin, and then every weight fits an i32; up to 2^32 reserves, weights that fit have a total that does |
| CurrencyTheorems.ReadyBasketWithNoDefinition | crates/pecu-core/src/currency.rs:1024-1031 | for any three address spellings, a basket called ready whose weights do not fit |
| CurrencyTheorems.PaidOutIsShownExactlyWhen | crates/pecu-core/src/currency.rs:542-547 | each preallocation pays its recipient its typed amount, and together they are the supply shown if and only if it fits 64 bits |
| CurrencyTheorems.FixedTokenHasASupply | crates/pecu-core/src/currency.rs:454-486 | a ready token that cannot be minted pays something out, and never nothing to somebody |
| CurrencyTheorems.ReservesAreDifferentExactlyWhen | crates/pecu-core/src/currency.rs:1006-1023 | a ready basket's currency ids are distinct if and only if no two reserves are addresses of different kinds with the same bytes |
| CurrencyTheorems.OneCurrencyTwice | crates/pecu-core/src/currency.rs:1006-1023 | for any two spellings that carry the same bytes, a ready basket whose definition names one currency twice |
| CurrencyTheorems.ReservesAreDifferentCurrencies | crates/pecu-core/src/currency.rs:408-419 | reserves all written as one kind of address are different currencies |

## Left out

- Text on screen: amounts, dates, notes and SVG numbers to two decimals. A path is its commands over reals, a row's wording is a parameter.
- Floating point: prices and coordinates are reals, so NaN, infinities and rounding do not occur; the checks for them are absent. A level drawn by the chart is an `f32` of at least the top padding, two or more, so it is a multiple of `f32::EPSILON`: the case `GridLineIsAligned` is about. `Pool::depth` only ranks pools and is a parameter of the book.
- Text parsing: numbers, addresses and names read through shared total functions; trimming and case folding are ASCII only.
- Integer widths of heights, counts and ids, except where a sum or product can wrap or saturate.
- Networking, clocks, latencies, labels, file permissions and JSON layout: a node is a reader whose reads may fail, and parsing what was serialised gives it back.
- The crash model is the process dying between any two steps and a power cut tearing whatever was not synced, with rename atomic and durable; a disk that loses synced data is not modelled.
- Signing, proving and broadcasting in `shield.rs`, `convert.rs`, `currency.rs` and `identity.rs`: calls into a foreign SDK.
- `convert.rs` beyond the floor: its checks are a chain of refusals with no state.
- `currency.rs` beyond draft and definition: the bar, the picker's choices, the preview and the cost split only render these figures. Labels in refusals are dropped.
- `market.rs` beyond series, quote and value: the markets table, venues and pooled totals are filters and sorts of the same prices.
- `portfolio.rs` beyond history and rows: `read`, `merge` and `add` sum what the SDK returns; how a row words its direction and amount is kept as text.
- `params.rs` beyond fetching: the search over directories takes the first with both files.
- `pending.rs`: the recheck schedule and the list of unresolved records are one-line tables.
- Registration.Reservation.Update: that a polled registration keeps its salt is the SDK's behaviour, and is assumed of it in runs.
- Launch.Intent.Begin: the draft is carried whole, not field by field.
- CurrencyTheorems.BasketIsAsShown: that the weights sum to one coin is unconditional up to 2^32 reserves; past that the true total could wrap though every weight fits.
- Shield.Plan: the relay fee and the funding read are parameters; change folding is modelled, the transaction is not.
