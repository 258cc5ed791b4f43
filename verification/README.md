# Verified models of Clash Orbit

Clash Orbit is a desktop client for a proxy core: a Rust backend that keeps configuration layers
and profiles, and a web frontend that shows live data from the core.  This project models the
parts where order, sharing or history matter, and proves what they promise.  `dafny verify
dfyconfig.toml` checks everything.

| files | what they model |
|---|---|
| `DraftCell`, `DraftProtocol`, `DraftTheorems` | one configuration layer: a committed snapshot and a draft behind counted pointers, the asynchronous optimistic update and its permit; any number of tasks, readers and editors, one atomic step at a time, on a heap whose freed addresses may be reused |
| `DraftTransaction`, `TransactionProtocol`, `TransactionProgress`, `TransactionOutsiders` | transactions that claim several layers and commit or roll back, as objects and as an interleaved protocol, that none is ever stuck, and what outside steps on claimed layers do to them |
| `SelectedNodes`, `SelectedNodesTheorems` | the plan that reconciles saved node selections with what the core has loaded |
| `RestoreProtocol`, `RestoreTheorems`, `RestoreEffects`, `RestoreRounds`, `RestoreAlone`, `RestoreProgress`, `RestoreOnLayer` | background workers that carry out such plans while the user goes on choosing: what they write and what they leave, that they make the selections planned, that they end, and that their commits are those of the layer |
| `ProfileList`, `ProfileListTheorems`, `ProfileLife` | loading, appending, deleting, reordering and switching in the profile list |
| `ProfileSwitch` | committing a profile switch while other updates run |
| `ProxyChain`, `ProxyChainTheorems`, `ProxyChainRoutes` | writing an ordered proxy chain as links and reading it back |
| `TrafficSampler`, `TrafficSamplerTheorems` | the bounded, compacting traffic history |
| `ConnectionHistory`, `ConnectionTheorems` | the connection table with structural sharing and bounded history |
| `MutateQueue`, `MutateTheorems` | commands that run one at a time for each identity |
| `MemberBinding` | finding a group member again after a reload |

Where the source changes state in place, a class or a loop with the same branches is proved
equal to a function on values, and the theorems are about runs of those functions.  `Exec` and
`Run` range over all finite runs; a `Step` or `Event` carries the inputs the program does not
control (which task moves, whether a request succeeds, what the core reports, what the clock reads).

## Findings

Promises that do not hold as one might read them. Each has its exact condition, for all inputs,
and a concrete input at which it fails.

- `crates/clash-orbit-draft/src/lib.rs:173-181`: a claim on a layer stops only other claims.
  `apply`, `edit_draft`, `discard` and `with_data_modify` do not look at it, so isolation rests on
  callers. Exactly when a transaction still gives back what it promised is
  `TransactionOutsiders.RollbackAfterInterference`, `CommitAfterInterference`,
  `DeliveredAfterAnyInterference` and `FinishAfterInterference`; `DiscardLosesTheStagedValue` and
  `ApplyOutlivesTheRollback` are runs in which it does not.
- `src-tauri/src/config/runtime.rs:72-84` and `src-tauri/src/cmd/runtime.rs:55-64`: a chain of
  strings that repeats a name, with every name from there on present, is written as a loop of
  links, and reading it back never ends. A name that no proxy has breaks the loop
  (`ProxyChainTheorems.ReadableExactlyWhenDistinct`, `ThereAndBackNeverEnds`,
  `AbsentNameBreaksTheLoop`). The rebuild compares names as YAML values and the walk as strings,
  so names that are not strings read alike, and a chain without a repeat can loop too
  (`ProxyChainRoutes.ReadableExactlyWhenRouteEnds`, `ReadApartIsReadable`, `NumbersNeverEnd`).
- `src-tauri/src/config/profiles.rs:340-373`: a deletion repairs `current` only if it was missing
  or is deleted by its own uid. If it named nothing before, or is named by a helper slot of the
  deleted profile, it names nothing afterwards, unless another item has that uid, though profiles
  may remain (`ProfileLife.CurrentAfterDeletion`; with distinct uids, in terms of the slots,
  `ProfileListTheorems.DeletionLeavesACurrent`; `ProfileLife.DanglingCurrentStays`); the loader,
  `src-tauri/src/config/profiles.rs:101-145`, takes it as it comes.
- `src-tauri/src/config/profiles.rs:819-832`: an earlier record of a group goes on counting as
  unsettled, while only the last is acted on (`src-tauri/src/config/profiles.rs:512-519`). So a
  last record that names another node, or none, can keep it unsettled
  (`SelectedNodesTheorems.SettlesExactlyWhen`, `ShadowedRecordNeverSettles`). Two complete records
  that disagree are never settled together, and a startup restore of such a list ends only by
  being superseded, past its deadline or out of looks
  (`SelectedNodesTheorems.ConflictNeverSettles`, `TwoRecordsNeverSettle`,
  `RestoreProgress.ConflictRunsOut`).
- `src-tauri/src/config/profiles.rs:731-746` and `src-tauri/src/config/profiles.rs:512-519`:
  recording a choice edits a group's first record, a restore acts on its last
  (`SelectedNodesTheorems.RecordedChoiceIsRestored`, `RecordedChoiceIsKept`,
  `RecordedChoiceIsLost`). Such lists come in from the file,
  `src-tauri/src/config/profiles.rs:101-145`, and with an edited item,
  `src-tauri/src/config/profiles.rs:250`.
- `src/hooks/use-connection-data.ts:177-198`: if payloads name identities more than once, the
  closed history can come to hold more than 500 (`ConnectionTheorems.HistoryKeepsTheLast`,
  `TwiceTheSameOverflows`).

A hazard that a guard keeps away: an empty helper slot,
`src-tauri/src/config/profiles.rs:341-363`, is looked up like a filled one and would match an item
without a uid (`ProfileListTheorems.DeletionSparesAnonymous`,
`ProfileLife.UnguardedSlotTakesABystander`). The loader and `append_item` see to it that no list
the program holds has such an item (`ProfileLife.EveryItemIsNamed`, `EmptySlotsAreHarmless`).

## Model

| member | source | states |
|---|---|---|
| DraftTheorems.PermitIsSafe | crates/clash-orbit-draft/src/lib.rs:24-29 | In every reachable state at most one task holds the modify permit, and while a task is parked or about to park the permit is held, a releaser has still to notify, a notification is stored, or a woken task has still to retry: no wake-up is lost. |
| DraftTheorems.WokenInOrder | crates/clash-orbit-draft/src/lib.rs:127-143 | First come, first served: in any run the tasks waiting before it, followed by those that park in it, are those woken in it, followed by those waiting behind it, in that order. |
| DraftTheorems.SomeTaskCanRun | crates/clash-orbit-draft/src/lib.rs:127-143 | While any call is unfinished, some task can take a step, whatever address the allocator offers. |
| DraftTheorems.OnlyWaitingBlocks | crates/clash-orbit-draft/src/lib.rs:95-143 | No task ever follows a dangling pointer: a task is unable to step exactly when it is parked or done. |
| DraftTheorems.QuiescentMeansDone | crates/clash-orbit-draft/src/lib.rs:119-143 | If nobody can move, every call has returned, the permit is free and nobody waits. |
| DraftTheorems.WorkIsBounded | crates/clash-orbit-draft/src/lib.rs:127-143 | Under every schedule `n` calls take at most `10 * n` steps between them, so with progress every call returns. |
| DraftTheorems.ModifyIsSerialisable | crates/clash-orbit-draft/src/lib.rs:95-116 | The committed value is the result of a serial history in which each successful `with_data_modify` is its edit applied to the value committed immediately before; a task is in the history exactly if it reports success, and once. |
| DraftTheorems.PointerEqualityMeansNoCommit | crates/clash-orbit-draft/src/lib.rs:107-113 | Although freed addresses are reused, the pointer comparison holds exactly if no commit happened since the read, and then the committed value is the one read. |
| DraftTheorems.OutcomeIsExact | crates/clash-orbit-draft/src/lib.rs:107-116 | A call fails with the edit's own error exactly if the edit fails, with the optimistic-lock error exactly if some `apply` committed a draft since the read, and otherwise succeeds; every failure leaves the committed value alone. |
| DraftTheorems.SnapshotsNeverChange | crates/clash-orbit-draft/src/lib.rs:49-61 | A value obtained from `data_arc` or `latest_arc` does not change while it is held, whatever runs meanwhile. |
| DraftTheorems.StagingIsInvisible | crates/clash-orbit-draft/src/lib.rs:63-91 | However `edit_draft`, `discard`, reads and drops run, `data_arc` afterwards hands out a pointer to the same committed cell with the same value, draft or no draft. |
| DraftTheorems.ReadersGetWhatIsThere | crates/clash-orbit-draft/src/lib.rs:49-61 | In every reachable state `data_arc` hands out the committed cell with its value and `latest_arc` the draft's, or the committed one if there is no draft; nothing but one count and the list of readers changes. |
| DraftTheorems.EditCopiesExactlyIfShared | crates/clash-orbit-draft/src/lib.rs:63-75 | In every reachable state `edit_draft` edits the draft where it is exactly if no reader holds it, and otherwise, or without a draft, in a cell of its own. |
| DraftTheorems.DraftNeverAliases | crates/clash-orbit-draft/src/lib.rs:69-73 | In every reachable state the draft's cell is not the committed one. |
| DraftTheorems.CopyOnWriteRefinesValues | crates/clash-orbit-draft/src/lib.rs:51-91 | Seen by value, each step on counted cells does what the plain two-slot layer without sharing does. |
| DraftProtocol.CountsKept | crates/clash-orbit-draft/src/lib.rs:65-83 | Every step keeps each cell's reference count equal to the number of slots, readers and tasks that hold it. |
| DraftProtocol.WakeupKept | crates/clash-orbit-draft/src/lib.rs:127-143 | Every step keeps the wake-up invariant. |
| DraftProtocol.InvKept | crates/clash-orbit-draft/src/lib.rs:37-143 | Every atomic step of any task, reader or editor keeps the whole invariant of the layer. |
| DraftCell.Draft.DataArc | crates/clash-orbit-draft/src/lib.rs:51-54 | The object takes the step of the model: a counted pointer to the committed cell. |
| DraftCell.Draft.LatestArc | crates/clash-orbit-draft/src/lib.rs:58-61 | A counted pointer to the draft if there is one, else to the committed cell. |
| DraftCell.Draft.EditDraft | crates/clash-orbit-draft/src/lib.rs:65-75 | Copy on write: an unshared draft is edited where it is, a shared cell is copied first; committed data and every other cell stay. |
| DraftCell.Draft.Apply | crates/clash-orbit-draft/src/lib.rs:79-84 | Commits and clears the draft, or does nothing without one. |
| DraftCell.Draft.Discard | crates/clash-orbit-draft/src/lib.rs:88-91 | Clears the draft and releases its cell. |
| DraftCell.Draft.CompareAndReplace | crates/clash-orbit-draft/src/lib.rs:107-116 | Replaces the committed cell exactly if it is still the original one, and otherwise changes nothing. |
| DraftTheorems.PermitGoesToOne | crates/clash-orbit-draft/src/lib.rs:119-125 | In every reachable state an attempt on the permit wins exactly if no task holds it; the winner is then its only holder, and a loser has changed nothing. |
| DraftCell.Draft.NotifyOne | crates/clash-orbit-draft/src/lib.rs:24-29 | Wakes the longest waiter, or stores one permit. |
| DraftTransaction.Transaction.Begin | crates/clash-orbit-draft/src/lib.rs:219-235 | Succeeds exactly if the layers are distinct and all unclaimed; otherwise names the first layer that stopped it and leaves every claim flag as it was. |
| DraftTransaction.Transaction.Commit | crates/clash-orbit-draft/src/lib.rs:238-243 | Every layer gets its draft as committed value, no draft and no claim, also if a layer is listed twice. |
| DraftTransaction.Transaction.Rollback | crates/clash-orbit-draft/src/lib.rs:246-248 | Every layer keeps its committed value and loses draft and claim. |
| DraftTransaction.Transaction.Drop | crates/clash-orbit-draft/src/lib.rs:251-260 | Discards unless committed, and releases, layer by layer. |
| TransactionProtocol.ClaimsAreExclusive | crates/clash-orbit-draft/src/lib.rs:159-187 | Over any interleaving of single layer operations a claim flag is set exactly while one beginning, live or finishing transaction owns the layer; owners are unique; refused and ended transactions own nothing. |
| TransactionProtocol.CommitDeliversEveryDraft | crates/clash-orbit-draft/src/lib.rs:237-243 | If only owners touch claimed layers, a committed transaction gives back every layer with the draft it had at the call, whatever runs between. |
| TransactionProtocol.RollbackRestoresEveryLayer | crates/clash-orbit-draft/src/lib.rs:245-260 | Under the same discipline any other ending gives back every layer with the committed value it had when claimed, and no draft. |
| TransactionProtocol.RepeatedLayerIsRefused | crates/clash-orbit-draft/src/lib.rs:219-230 | A transaction that lists a layer twice never becomes live, in any run. |
| TransactionProgress.ClaimSucceedsExactlyIfFree | crates/clash-orbit-draft/src/lib.rs:219-222 | In every reachable state a claim succeeds exactly if no transaction owns the layer; otherwise no layer is touched and the transaction begins to give back what it has. |
| TransactionProgress.RefusalNamesTheTakenLayer | crates/clash-orbit-draft/src/lib.rs:223-229 | After a failed claim, whatever runs meanwhile, the transaction is giving back or has been refused, and a refusal names the layer whose claim failed. |
| TransactionProgress.TransactionsAreNeverStuck | crates/clash-orbit-draft/src/lib.rs:217-260 | Whatever others do, a transaction that is neither live nor over can take its next step, a live one can be committed and rolled back, and one over `n` layers takes at most `4 * n + 5` steps of its own. |
| TransactionOutsiders.FateAlong | crates/clash-orbit-draft/src/lib.rs:237-260 | What a finishing transaction will give back in each slot is fixed in every run in which only owners touch claimed layers. |
| TransactionOutsiders.RollbackAfterInterference | crates/clash-orbit-draft/src/lib.rs:173-181 | An outside step on a live transaction's layer, then any owner's steps, then rollback: the layer comes back as it was when claimed if and only if the step was an edit, a discard, an apply with nothing new to install, or a replacement by the same value. |
| TransactionOutsiders.CommitAfterInterference | crates/clash-orbit-draft/src/lib.rs:237-243 | An outside step and then commit: the layer is delivered with the value staged before the step if and only if the step left that value the latest. |
| TransactionOutsiders.DeliveredAfterAnyInterference | crates/clash-orbit-draft/src/lib.rs:173-181 | Any number of outside steps on a live transaction's layer, between any steps of the owner and of others: commit and rollback give back exactly what those and the owner's edits make of the layer, in order. |
| TransactionOutsiders.FinishAfterInterference | crates/clash-orbit-draft/src/lib.rs:237-260 | An outside step while the transaction is applying or giving back: the layer comes back as promised if and only if the step is harmless for what is still to be done to it (apply, discard or only release). |
| TransactionOutsiders.DiscardLosesTheStagedValue | crates/clash-orbit-draft/src/lib.rs:88-91 | A run: 7 is staged over 0, the draft is discarded from outside, the commit succeeds and delivers 0. |
| TransactionOutsiders.ApplyOutlivesTheRollback | crates/clash-orbit-draft/src/lib.rs:79-84 | A run: 7 is staged over 0, the draft is applied from outside, and the rollback leaves 7 committed. |
| SelectedNodes.UniqueSelected | src-tauri/src/config/profiles.rs:512-519 | The backward scan keeps exactly the last record of each named group, in order. |
| SelectedNodes.ReconcileOne | src-tauri/src/config/profiles.rs:521-592 | Each branch for one record adds what the specification says to the plan: the record that replaces it, the activation and the repair count. |
| SelectedNodes.ReconcileSelectedNodes | src-tauri/src/config/profiles.rs:502-595 | The loop builds the specified plan; the lemmas below say what that plan is worth. |
| SelectedNodes.SelectedNodesNeedConfirmation | src-tauri/src/config/profiles.rs:487-500 | True exactly if some complete record's group is missing or unloaded, or lacks its node. |
| SelectedNodes.RemoveSelectedNode | src-tauri/src/config/profiles.rs:754-758 | Keeps exactly the other groups' records, and reports whether any was removed. |
| SelectedNodesTheorems.PlanIsOrdered | src-tauri/src/config/profiles.rs:512-519 | The plan has each group once, in the order of the groups' last records. |
| SelectedNodesTheorems.RepairCountIsExact | src-tauri/src/config/profiles.rs:519-594 | `repaired_count` is zero if and only if the plan's list is the input list. |
| SelectedNodesTheorems.PruningNeedsTwoWitnesses | src-tauri/src/config/profiles.rs:526-592 | A complete last record survives unchanged if and only if none of these holds: its group is absent from both snapshots, both loaded member lists of its selectable group lack its node, or its loaded group is not selectable and points elsewhere or nowhere useful. |
| SelectedNodesTheorems.ActivationsAreMinimal | src-tauri/src/config/profiles.rs:563-569 | Every activation names a loaded selectable group, a member of it and a node it is not on, each group at most once; and no needed activation is missing. |
| SelectedNodesTheorems.WhatBecomesOfARecord | src-tauri/src/config/profiles.rs:521-592 | In terms of the core's answers alone, for the last record of each group: it goes if it names no node, stays if nothing speaks against it, and otherwise becomes the member the group is on or, if it is on none, goes; its node is selected exactly if it is a member of a selectable group that is elsewhere. |
| SelectedNodesTheorems.ReconcileConverges | src-tauri/src/config/profiles.rs:502-595 | After the plan's activations, reconciling the plan's own list with the same earlier snapshot gives the same list, no activations and no repairs. |
| SelectedNodesTheorems.UnneededConfirmation | src-tauri/src/config/profiles.rs:934-960 | If no record needs confirmation, no second snapshot could have led to another plan. |
| SelectedNodesTheorems.SettlesExactlyWhen | src-tauri/src/config/profiles.rs:819-832 | For any records, complete or not, and any state of the core: one round of activations settles everything if and only if each complete record's group is there and its last record has it moved onto that node, or it need not be moved and is there already. |
| SelectedNodesTheorems.ShadowedRecordNeverSettles | src-tauri/src/config/profiles.rs:512-519 | A complete record shadowed by a later one of its group without a node: nothing conflicts, nothing needs confirmation, nothing is activated, and it stays unsettled. |
| SelectedNodesTheorems.ConflictNeverSettles | src-tauri/src/config/profiles.rs:819-832 | Two complete records that disagree about a group leave something unsettled, wherever the groups are. |
| SelectedNodesTheorems.TwoRecordsNeverSettle | src-tauri/src/config/profiles.rs:819-832 | A two-record list that no state of the core settles. |
| RestoreProgress.ConflictRunsOut | src-tauri/src/config/profiles.rs:835-889 | In every run in which a restore that is settling such a list ends, the step that ends it is one at which it had been superseded, a look came after the deadline, or all its looks were taken. |
| SelectedNodesTheorems.RecordedChoiceIsRestored | src-tauri/src/config/profiles.rs:715-752 | For any records and snapshots: exactly when the plan computed from the edited records puts the group on the chosen node, and exactly when carrying the plan out leaves the group there; recording edits the group's first record, the plan acts on its last. |
| SelectedNodesTheorems.RecordedChoiceIsKept | src-tauri/src/config/profiles.rs:715-752 | Exactly when the plan keeps the choice on record: the last record is the choice and not condemned, or it is condemned and the group is on the chosen node. |
| SelectedNodesTheorems.RecordedChoiceIsLost | src-tauri/src/config/profiles.rs:731-746 | A two-record list where `c` is chosen and recorded, and the restore puts the group on `b`. |
| SelectedNodesTheorems.ForgottenIsNotRestored | src-tauri/src/config/profiles.rs:760-783 | A forgotten group is in no later plan. |
| RestoreTheorems.RestoreNeverOverwrites | src-tauri/src/config/profiles.rs:785-816 | In every run of restores, recorded and forgotten choices and other commits, a written-back list replaced exactly the list its plan was computed from, for the profile then current. |
| RestoreEffects.WriteBackTouchesOneProfile | src-tauri/src/config/profiles.rs:785-816 | A write-back keeps `current`, the number of items and every other item, and of the profile's item everything but the records, which become the plan's; before it the item held the records the plan was computed from. |
| RestoreRounds.RepairsComeFromSnapshots | src-tauri/src/config/profiles.rs:911-962 | The plan written back was made, in that run, from the first snapshot this worker got if no record needed confirmation in it, and otherwise from the first and the second. |
| RestoreTheorems.RepairsAreCommits | src-tauri/src/config/profiles.rs:700-713 | The record of write-backs is true: it grows only with the commit it describes, and no worker changes the list without it. |
| RestoreTheorems.WorkersNeverOverlap | src-tauri/src/config/profiles.rs:1015-1030 | At most one restore worker is under way. |
| RestoreTheorems.StaleWorkersStandDown | src-tauri/src/config/profiles.rs:644-674 | The counter a worker keeps of selections it started after being superseded is at most one, zero while it is current, and once it is one the worker is waiting for the answer or on its way out. |
| RestoreRounds.OneStaleSelectionAtMost | src-tauri/src/config/profiles.rs:644-674 | Counted over the steps of any run, a worker starts at most one selection after it has been superseded, and none as long as it is current. |
| RestoreRounds.RemainingIsTheRest | src-tauri/src/config/profiles.rs:633-642 | What remains of a plan is, in the plan's order, exactly the activations not already made. |
| RestoreRounds.RoundDoesItsPlan | src-tauri/src/config/profiles.rs:633-674 | In any run, a worker that has begun a round, has left it, and is still current, has started in between, first and in the plan's order, exactly the plan's activations that had not been made. |
| RestoreRounds.NewerThingsSupersede | src-tauri/src/config/profiles.rs:597-601 | In every reachable state a committed choice and a superseding end the currency of every restore, and a new restore that of all but itself. |
| RestoreAlone.UndisturbedRestore | src-tauri/src/config/profiles.rs:902-983 | A restore after a profile switch that nobody disturbs makes the first plan's selections and what the second adds, ends, and leaves the final plan's records in the current profile, and everything else as it was. |
| RestoreProgress.SupersededWorkersEnd | src-tauri/src/config/profiles.rs:902-983 | In every run a superseded worker takes at most three more steps of its own. |
| RestoreProgress.WorkIsBounded | src-tauri/src/config/profiles.rs:835-983 | In every run a worker that loads `n` records takes at most `132 n + 140` steps. |
| RestoreProgress.OnlyWaitingBlocks | src-tauri/src/config/profiles.rs:1022-1030 | A worker is held up only by the worker before it or by the permit. |
| RestoreProgress.RestoresAreNeverStuck | src-tauri/src/config/profiles.rs:1015-1066 | While a worker is unfinished, some worker or clerk can take a step. |
| RestoreOnLayer.LayerIsTheMachine | crates/clash-orbit-draft/src/lib.rs:95-116 | Every step on the counted-pointer layer is a move of a machine with a value, a number of commits and a busy flag, where an update succeeds exactly if no commit came since its read. |
| RestoreOnLayer.RestoreIsTheMachine | src-tauri/src/config/profiles.rs:700-713 | Every reachable step of the restore protocol is a move of the same machine, so its commit counter stands for the pointer comparison. |
| RestoreTheorems.ChoicesAreSerialised | src-tauri/src/config/profiles.rs:716-752 | A choice is committed, and supersedes the restores, exactly if nothing was committed since it read and it changes something; then it is applied to the list committed immediately before, and otherwise the list stays as it was. |
| RestoreEffects.ChooseChanges | src-tauri/src/config/profiles.rs:716-783 | Recording or forgetting keeps `current`, the number of items and every other item; in the current profile the group's first record gets the node or a new record is put last, or all the group's records and no others go. |
| RestoreEffects.WritesExactlyIfNew | src-tauri/src/config/profiles.rs:719-737 | A choice writes nothing exactly if no listed profile is current, the group's first record already has the node, or no record is of the group to be forgotten. |
| ProfileList.IProfiles.PatchConfig | src-tauri/src/config/profiles.rs:152-165 | Switches to the patch's profile exactly if it is listed; a missing list becomes an empty one. |
| ProfileList.IProfiles.MoveItem | src-tauri/src/config/profiles.rs:220-234 | The in-place move of the specification, by last occurrences; nothing changes if either uid is missing. |
| ProfileList.IProfiles.TakeItemFile | src-tauri/src/config/profiles.rs:96-99 | Removes the first item with the uid and returns its file. |
| ProfileList.IProfiles.PlanDeleteItem | src-tauri/src/config/profiles.rs:339-377 | The in-place deletion of the specification, or the error without any change. |
| ProfileListTheorems.DeletionIsSound | src-tauri/src/config/profiles.rs:339-363 | With distinct uids, exactly the profile and the items its helper slots name go, survivors keep their order, and the returned files are exactly the ones no longer referenced. |
| ProfileListTheorems.WhatADeletionLeaves | src-tauri/src/config/profiles.rs:339-377 | With distinct uids, written out: the items kept, in order, are those with another uid than the profile's and its five helper slots'; the answer says whether nothing or the deleted profile was current; if so the first remote or local item left becomes current, and otherwise `current` stays. |
| ProfileListTheorems.UnknownIsRefused | src-tauri/src/config/profiles.rs:341-341 | A deletion fails exactly if no item has the uid. |
| ProfileListTheorems.DeletionLeavesACurrent | src-tauri/src/config/profiles.rs:339-377 | For any list with distinct uids: after a deletion `current` names a remote or local profile if and only if, where another is picked, one survives, and otherwise if it did before and no helper slot of the deleted profile names it; picking none means none survives. |
| ProfileLife.CurrentAfterDeletion | src-tauri/src/config/profiles.rs:339-377 | On any list the program can hold, repeated uids included: after a deletion `current` names a remote or local profile if and only if what is left has one, or, where none is picked, has one under that uid. |
| ProfileLife.DanglingCurrentStays | src-tauri/src/config/profiles.rs:340-373 | A life: a file whose `current` names nothing is loaded, one of its two profiles is deleted, and `current` still names nothing. |
| ProfileList.IProfiles.Load | src-tauri/src/config/profiles.rs:101-145 | The loader gives every item without a uid one and remote items without options empty ones, leaves every other field as it is, and takes `current` as it comes. |
| ProfileList.IProfiles.AppendItem | src-tauri/src/config/profiles.rs:183-218 | An item without a uid is refused; another is put behind the list there is, and becomes current if nothing was and it is remote or local. |
| ProfileLife.EveryItemIsNamed | src-tauri/src/config/profiles.rs:101-145 | Over any life of loading, appending, editing, switching, moving and deleting, every item has a uid, whatever the files loaded say. |
| ProfileListTheorems.FilesConserved | src-tauri/src/config/profiles.rs:355-363 | For any list and any uids, files still referenced and files returned make up the files before, with multiplicity. |
| ProfileListTheorems.DeletionSparesAnonymous | src-tauri/src/config/profiles.rs:341-363 | The hazard: on an arbitrary list, items without a uid are left alone if and only if there are none, the profile has no options, or all five helper slots are filled. |
| ProfileLife.EmptySlotsAreHarmless | src-tauri/src/config/profiles.rs:341-363 | The guard: over any life of the running program a deletion takes exactly what the uid and the filled slots take. |
| ProfileLife.UnguardedSlotTakesABystander | src-tauri/src/config/profiles.rs:341-363 | A two-item list, which no life reaches, on which an empty slot takes an item without a uid. |
| ProfileListTheorems.ReorderMovesOne | src-tauri/src/config/profiles.rs:225-231 | Reordering is a permutation that puts the moved item at the target's old index and keeps the order of the rest. |
| ProfileListTheorems.ReorderUndoes | src-tauri/src/config/profiles.rs:225-231 | Moving the same profile onto whichever took its old place restores the list. |
| ProfileSwitch.SwitchLosesNothing | src-tauri/src/cmd/profile.rs:223-238 | For any interleaving with other updates, a switch to a target that has returned made one update, and one order of all successful updates, that one among them, yields the committed list; no update is lost or counted twice. |
| ProfileSwitch.NoDraftIsLeftBehind | src-tauri/src/cmd/profile.rs:223-227 | In every run in which nobody else edits the draft, the layer has a draft only while a switch is being validated; otherwise the latest list is the committed one. |
| ProfileSwitch.ValidatesTheSwitch | src-tauri/src/cmd/profile.rs:328-332 | Under the same condition, whatever is committed meanwhile, as long as a switch is being validated the draft is the list committed when it was staged, with its target current if listed; it is there unless someone else discards it. |
| ProfileSwitch.BusyExactlyIfActive | src-tauri/src/cmd/profile.rs:319-325 | A request is turned away exactly if a switch is under way, and changes no list. |
| ProfileSwitch.SwitchChangesOnlyCurrent | src-tauri/src/cmd/profile.rs:229-237 | The switch's one commit leaves every item of the list committed just before and makes the target current exactly if it is still listed. |
| ProfileSwitch.SwitchesAreExclusive | src-tauri/src/cmd/profile.rs:319-325 | Two switches never run at once, and the flag is set exactly while one does. |
| ProxyChain.Runtime.UpdateProxyChainConfig | src-tauri/src/config/runtime.rs:55-85 | The object's `proxies` become the rebuilt ones and nothing else of the configuration changes. |
| ProxyChainTheorems.LinkWrites | src-tauri/src/config/runtime.rs:75-83 | A proxy's link after linking is the predecessor of its last mention in the chain, and unchanged if it has none after the first place. |
| ProxyChainTheorems.RebuildChangesOnlyLinks | src-tauri/src/config/runtime.rs:62-84 | A rebuild changes nothing but `dialer-proxy` fields. |
| ProxyChainTheorems.LaterRebuildOverrides | src-tauri/src/config/runtime.rs:62-70 | A rebuild leaves no trace of an earlier one. |
| ProxyChain.FollowLinks | src-tauri/src/cmd/runtime.rs:52-64 | The unbounded loop ends for a readable exit and collects exactly the proxies on the walk, with the name it ends at. |
| ProxyChain.ProxyChainFrom | src-tauri/src/cmd/runtime.rs:41-86 | Reading back returns the walk with the proxy it ends at, entry first, exit last. |
| ProxyChainTheorems.WalkEndsExactlyWhen | src-tauri/src/cmd/runtime.rs:55-64 | From any exit in any configuration the loop ends if and only if it ends within as many steps as there are proxies. |
| ProxyChainTheorems.ChainRoundTrips | src-tauri/src/cmd/runtime.rs:51-74 | For a duplicate-free chain whose members are all present, reading back from the last name ends and returns exactly the chain's proxies in chain order (nothing for a chain of one). |
| ProxyChainTheorems.LastPartRoundTrips | src-tauri/src/cmd/runtime.rs:51-74 | For every chain of string names that can be read back at all: reading back returns the proxies behind the last name that no proxy has, all of them and in chain order, or the whole chain if all are present. |
| ProxyChainTheorems.ReadableExactlyWhenDistinct | src-tauri/src/config/runtime.rs:72-84 | For any proxies and any chain of string names, reading back ends if and only if no name repeats behind the last name that no proxy has (in the whole chain, if all are present). |
| ProxyChainTheorems.ThereAndBackNeverEnds | src-tauri/src/cmd/runtime.rs:55-64 | Two proxies chained `a`, `b`, `a`: reading back never ends. |
| ProxyChainTheorems.AbsentNameBreaksTheLoop | src-tauri/src/cmd/runtime.rs:55-64 | The same repeat around a name that no proxy has: reading back ends. |
| ProxyChainRoutes.WalkTakesRoute | src-tauri/src/cmd/runtime.rs:52-64 | For chains of any YAML values: the walk takes, step for step, the route given by the proxies' names and the chain alone, on which all names that are not strings read alike. |
| ProxyChainRoutes.ReadableExactlyWhenRouteEnds | src-tauri/src/cmd/runtime.rs:51-64 | For any proxies, any chain of values and any exit, reading back ends if and only if that route ends within as many steps as there are proxies. |
| ProxyChainRoutes.ReadApartIsReadable | src-tauri/src/cmd/runtime.rs:51-64 | A chain of values no two of which read alike can be read back. |
| ProxyChainRoutes.NumbersNeverEnd | src-tauri/src/cmd/runtime.rs:56-57 | Three proxies, two of them named by numbers, chained without a repeat: reading back never ends. |
| TrafficSampler.TrafficDataSampler.AddDataPoint | src/utils/traffic-sampler.ts:59-95 | The in-place loops and compactions do what the specification on values does. |
| TrafficSampler.TrafficDataSampler.CompressData | src/utils/traffic-sampler.ts:97-115 | The queue becomes one averaged block, or nothing happens if it is empty. |
| TrafficSamplerTheorems.BlocksAverageTheirPoints | src/utils/traffic-sampler.ts:77-113 | Over any run the points added since the last clear fall into consecutive parts and the queue; each block has the number, the average rates and the average time of one part, each part is as long as the ratio asks for, and the queue is shorter. |
| TrafficSampler.TrafficDataSampler.GetDataForTimeRange | src/utils/traffic-sampler.ts:117-156 | The scanning and filtering loops return what the specification returns; `RecentQueryIsExact` and `LongQueryIsMerged` say what that is without it. |
| TrafficSamplerTheorems.StatsCountTheWindows | src/utils/traffic-sampler.ts:158-168 | What the statistics count: after any timely run that ends with a point, the live parts whose sizes are reported are exactly the points and the blocks since the last clear that are newer than the window's number of milliseconds ago. |
| TrafficSampler.TrafficDataSampler.Clear | src/utils/traffic-sampler.ts:170-176 | Back to the empty sampler. |
| TrafficSamplerTheorems.CostIsAmortised | src/utils/traffic-sampler.ts:62-94 | Over any run, elements copied by compaction and head advances are each at most the points pushed, and each buffer is at most its live part plus the larger of that and 512 (256 for blocks). |
| TrafficSamplerTheorems.HistoryIsInvisible | src/utils/traffic-sampler.ts:59-95 | The bookkeeping the cost claim is stated over changes nothing of the sampler. |
| TrafficSamplerTheorems.TotalsAreConserved | src/utils/traffic-sampler.ts:97-115 | Weighted by their samples, all blocks plus the queue add up to all points added since the last clear, up and down. |
| TrafficSamplerTheorems.BlocksAreOrdered | src/utils/traffic-sampler.ts:100-113 | With points and clock in order, block timestamps never decrease and none is newer than the newest point. |
| TrafficSamplerTheorems.RecentQueryIsExact | src/utils/traffic-sampler.ts:117-132 | A query within the raw window returns the end of the points added since the last clear, namely all that are newer than so many milliseconds ago, in spite of trimming and compaction. |
| TrafficSamplerTheorems.LongQueryIsMerged | src/utils/traffic-sampler.ts:134-155 | A query longer than the raw window, however long, is ordered by time and holds each point as often as there are kept blocks with its values and time between the cutoff and the raw window, and kept raw points equal to it and newer than the cutoff; up to the compressed window only blocks older than the cutoff have been given up. |
| TrafficSamplerTheorems.SortIsStable | src/utils/traffic-sampler.ts:153-155 | The final sort keeps points of one time in the order they came in. |
| ConnectionHistory.NormalizeMetadata | src/hooks/use-connection-data.ts:70-88 | The previous object is returned exactly if all ten fields read the same; otherwise a new one with missing fields filled in. |
| ConnectionHistory.NormalizeChains | src/hooks/use-connection-data.ts:90-101 | The names are the received ones, and the previous object is kept exactly if they are equal. |
| ConnectionHistory.NormalizeConnection | src/hooks/use-connection-data.ts:103-144 | Sharing cannot be seen: the row shows what rebuilding would show, and is the previous object exactly if rebuilding would have changed nothing. |
| ConnectionHistory.MergeConnectionSnapshot | src/hooks/use-connection-data.ts:146-206 | For any payload, duplicates included, the merge shows what the plain merge that rebuilds every row shows, and a row is an object from before exactly if that changes nothing. |
| ConnectionHistory.ConnectionStore.Flush | src/hooks/use-connection-data.ts:214-232 | The module's state becomes the merge of the payload with it. |
| ConnectionHistory.ConnectionStore.ClearClosedConnectionData | src/hooks/use-connection-data.ts:406-413 | Only the history is emptied, rows and totals stay, and a change is reported exactly if it was not empty. |
| ConnectionTheorems.HistoryKeepsTheLast | src/hooks/use-connection-data.ts:177-198 | For any payload and table, one merge leaves the last 500 of the old history and the closures, and no more than 500, if and only if all of them fit or no identity was twice among those that have gone. |
| ConnectionTheorems.TwiceTheSameOverflows | src/hooks/use-connection-data.ts:177-198 | A run of two snapshots, 501 rows of one identity and then none, after which the history holds more than 500. |
| ConnectionTheorems.HistoryIsTheLastClosures | src/hooks/use-connection-data.ts:146-206 | With distinct ids in each snapshot, after any run of merges and clears the history is exactly the last 500 closures since the last clear, in closing order. |
| ConnectionTheorems.MergeSplits | src/hooks/use-connection-data.ts:158-198 | A merge splits the rows before, as they were and in order, into those received again and those gone, with multiplicity. |
| ConnectionTheorems.TableShowsWhatWasReceived | src/hooks/use-connection-data.ts:103-144 | For any payload and table: the two totals and each row's fields are the received ones or their defaults, and the first row of an identity shows as its speeds the differences to the identity's last row before, any other row none. |
| ConnectionTheorems.NothingIsLostOrDuplicated | src/hooks/use-connection-data.ts:158-198 | Over any run with distinct ids, each identity has opened exactly as often as it is now active or has closed. |
| ConnectionTheorems.RowShowsTheDifference | src/hooks/use-connection-data.ts:109-112 | A row shows the difference to the row before, and no speed if there was none. |
| ConnectionTheorems.SpeedsTelescope | src/hooks/use-connection-data.ts:109-112 | While a connection stays in every snapshot, the speeds shown for it add up to its last totals minus its first, for both directions. |
| MutateQueue.InFlight.Enter | src/services/mutate.ts:33-39 | Takes the promise found under the identity and leaves the caller's own. |
| MutateQueue.InFlight.Leave | src/services/mutate.ts:60-63 | Removes the entry exactly if it is still the caller's own. |
| MutateQueue.InvKept | src/services/mutate.ts:29-64 | Every step keeps the links between calls, the order within an identity and the meaning of the map. |
| MutateTheorems.CommandsRunOneByOne | src/services/mutate.ts:29-64 | Over all interleavings the log of one identity is that of running its commands one after another in request order, whatever their outcomes. |
| MutateTheorems.EarlierCallsHaveSettled | src/services/mutate.ts:34-40 | In every reachable state, once a call has begun every earlier call of its identity has settled. |
| MutateTheorems.EntryExactlyWhileUnsettled | src/services/mutate.ts:34-39 | The map has an entry for an identity exactly while a call with it is unsettled, and it is the last one's. |
| MutateTheorems.QueueIsNeverStuck | src/services/mutate.ts:40-40 | While a call is unsettled, some call of its identity can take a step. |
| MutateTheorems.WorkIsBounded | src/services/mutate.ts:42-63 | A run has at most four steps for each call, so a run that goes on settles them all. |
| MutateTheorems.IdentitiesAreIndependent | src/services/mutate.ts:29-64 | Whether a call can move depends on its own identity's queue alone, and a step leaves every other queue as it was. |
| MutateTheorems.EachIdentityIsItsOwnQueue | src/services/mutate.ts:29-64 | Over any run, each identity is served as a first-come first-served queue would serve it if the others did not exist. |
| MemberBinding.SameSource | src/types/proxy-view.ts:229-236 | The field-by-field comparison is equality of sources. |
| MemberBinding.ToMemberOccurrenceBinding | src/types/proxy-view.ts:247-271 | The counting loop computes the specified binding, or nothing for an index that is out of range or cannot be chosen. |
| MemberBinding.RebindMemberOccurrence | src/types/proxy-view.ts:273-291 | Returns a place the binding names with the member there, and nothing only if it names none. |
| MemberBinding.RebindingFindsTheIndex | src/types/proxy-view.ts:247-291 | The binding taken at an index that can be chosen names that index and no other. |
| MemberBinding.BindingRecoversTheName | src/types/proxy-view.ts:247-291 | On any list a binding names an index if and only if it is the binding taken there. |
| MemberBinding.RebindingSucceedsExactlyWhen | src/types/proxy-view.ts:273-291 | Rebinding succeeds if and only if the list has more matching members than the binding's occurrence. |
| MemberBinding.LaterMembersDoNotMatter | src/types/proxy-view.ts:273-291 | Whatever changes behind a bound member, the binding still names it where it is. |
| MemberBinding.OthersDoNotMatter | src/types/proxy-view.ts:273-291 | Members that do not match may come and go in front: the binding names the same member, where it has moved. |

## Left out

- Files, YAML text, network, tray, notices, logging and refresh signals: steps that touch them may
  fail at any time in the protocols, and have no other effect there.
- Cancellation of a waiting `with_data_modify` future and panics inside an edit closure; `Notify` is
  modelled by its documented rule (wake one waiter, else store one permit).
- Memory orderings: atomics and mutex sections are single steps.
- The failed-switch path (`restore_previous_profile`), which applies a draft; `ProfileSwitch` covers
  the path on which the core accepts the configuration, and forbids `apply` by others.
- ProfileSwitch.NoDraftIsLeftBehind: supposes that nobody but the switches edits the draft, since a
  draft someone else stages is in the layer whether or not a switch is under way.
- ProfileSwitch.ValidatesTheSwitch: the same.
- TransactionProtocol.CommitDeliversEveryDraft: assumes that only a layer's owner touches it while
  it is claimed, which the code asks of its callers and does not check; the exact consequence of
  breaking this is `TransactionOutsiders.CommitAfterInterference`.
- TransactionProtocol.RollbackRestoresEveryLayer: the same assumption; the exact consequence is
  `TransactionOutsiders.RollbackAfterInterference`.
- Two or more outside steps once a transaction is applying or giving back its layers:
  `TransactionOutsiders.FinishAfterInterference` follows one.
- ProxyChainTheorems.ChainRoundTrips: is, like `LastPartRoundTrips`, about chains of string names;
  with other names the walk can miss members that are there, or never end (`ProxyChainRoutes`).
- Layers of different value types in one transaction: all layers of a model run share one type.
- The wrap-around of the 64-bit restore generation, which is an unbounded counter here.
- ProxyChain.FollowLinks: asks that the walk ends, since the source's loop has no bound and a method
  must return; exactly when it ends is `ProxyChainTheorems.WalkEndsExactlyWhen`.
- ProxyChain.ProxyChainFrom: the same; the errors for a missing configuration or `proxies` list are
  not modelled.
- Waiting times: how long a retry waits and when a deadline passes is an input of each step.
- The first-pass signal of a startup restore, and the tray update after a worker.
- YAML mappings: key order, keys that are not strings, and tagged values.
- Floating point: the sampler's numbers are reals, the connection totals integers.
- Freedom from double counting in the sampler's long query, which does not hold: block averages
  straddle the cutoff and raw points are trimmed only when one is added.
- What editing a profile item does to its fields other than the uid and the records, the file
  names it validates, and the home page and automatic update defaults the loader fills in.
- Throttling and reconnection of the connection stream, and listeners of the table.
- `rebindNode`, group resolution and the other lookups over a proxy view: single passes without
  state.
