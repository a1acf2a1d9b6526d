# Verified model of claude-status

claude-status shows what every Claude Code session on a desktop is doing. A hook, run by Claude
Code on each of its events, keeps one row per session and an append-only audit log. A daemon folds
the niri compositor's event stream into a topology, aggregates the rows per workspace, and renames
workspaces so that the bar shows a glyph. A recap replays the audit log into active time, work and
wait timelines and window totals. A tile cache feeds a button deck. An installer merges a hook into
a settings tree and a marked block into a shell startup file.

This project models those cores in Dafny and proves what they promise. Code that changes things
step by step is a class or a method with loops, proved against a specification function; the
theorems are about those functions. The pieces, by file:

| files | what they model |
|---|---|
| `Grammar` | the workspace-name grammar, decay levels, the hook transition table |
| `Niri`, `NiriHistory`, `Slots`, `Aggregate` | the compositor model folded from events and what it holds after any of them, the bounded slot table, per-workspace aggregation |
| `Compositor`, `Reconcile`, `ReconcileProofs`, `Refinement` | the compositor as a second state, one reconcile, and its refinement of the compositor |
| `Convergence`, `Decay`, `Actor`, `ActorRuns`, `Daemon` | many reconciles, the actor's whole runs, and the imperative daemon |
| `Handover`, `Reaper` | the snapshot hand-over between two goroutines, and the absence counter |
| `Store`, `Hook`, `Lifecycle`, `Situation`, `RowFields`, `Journal`, `AuditLog` | the tables, the hook, what rows, links and log mean in terms of the events, and the replay of the log |
| `Glyphs` | from the hook's events to the name on the bar |
| `Intervals`, `Summary`, `Recap`, `RecapTotals`, `RecapOrder` | interval unions, heartbeats, timelines, the digest, its totals, and what it makes of the order of its events |
| `Tile` | tile payloads, the cache and the live form |
| `HookTree`, `ZshBlock` | installing into, and removing from, the settings tree and the startup file |
| `Wrappers`, `Collections`, `Sorting`, `Text`, `Rows` | shared types and the standard-library operations the code uses |

## How the parts meet

*Reconcile.* `DaemonProcess.Daemon` has the fields and loops of the daemon. Each of its methods is
proved equal to a function on `Reconciler.State` or `Actor.ActorState`. Whether an action on the
compositor succeeds is an arbitrary function of how many were sent before it, so every theorem holds
for every pattern of failures. The order in which a Go map is iterated is a parameter (for methods: a
ghost result), so every theorem holds for every order. `Compositor.Perform` gives the three actions
the meaning documented beside the actuator: an index means a workspace of the focused output only, a
name means a workspace anywhere, and a failed action changes nothing.

*Invariants.* Three are kept apart. The weak one (`ReconcileProofs.Weak`: the used set is exactly
the range of an injective map into 1..20, and slot holders are managed) holds in every reachable
state. The clean one (`Refinement.Clean`: managed workspaces and slot holders coincide and each
managed name shows its workspace's slot) holds in every reachable state of a run whose first snapshot
shows slots that are distinct and in range, whatever the environment does and whichever actions fail
(`Actor.RunStaysClean`); `Actor.AdoptionCleanIff` says that this is exactly when adoption establishes it,
and `Refinement.ReconcileHeals` that one reconcile without failures restores it from any weak state.
The linked one (`Refinement.Linked`: clean, and model, managed names and compositor agree) is about the
compositor and needs the assumptions below.

*Replay.* One hook invocation, one silent deletion by the daemon, and one title row are each one
atomic step. `Hook.ReplayRecoversState` joins hook, store and recap: the state the recap
reconstructs from the log is the state in the row.

*Meaning.* What the parts hold after a run is told from the steps of the run alone, without the
functions that computed it: the model of the compositor in `NiriHistory`, what the actor was told in
`Actor.Told`, every field of a session row in `Lifecycle`, `Situation` and `RowFields`, the links in
`Situation`, the log and what the recap replays from it in `Journal`. `Glyphs.BarMeaning` joins them:
what the hook was called with decides the name the compositor shows.

*Windows.* The recap's loops are proved against a declarative digest (`Recap.IsDigest`), and active
time is proved to be the number of milliseconds at which some session is active.

## Assumptions

- The compositor changes together with the event that reports it; there is no window in which an
  action is sent against a topology the daemon has not yet been told of.
- For the theorems about a cooperating environment (`Actor.Cooperates`) and those stated with `Linked`:
  after adoption the environment never gives a name of the grammar to an unmanaged workspace and never
  renames a managed one; `idx` is unique per output; a workspace snapshot shows a focused workspace,
  on the focused output; an activation is of a known workspace; and the slots shown by the first
  snapshot are distinct and in range. What is stated with `Clean` needs only the last of these;
  what is stated with `Weak`, `Books`, `NothingForgotten` or about `Decay` needs none.
- Workspace and window ids are not reused. Session ids are unique in a snapshot (they are the primary
  key of the sessions table).
- Times are unbounded integers in milliseconds (the mean is in nanoseconds, as the code's duration
  division yields it); thresholds and ages are whole milliseconds or coarser, so nothing is rounded
  differently. Overflow of a 64-bit duration is not modelled; a decimal group that does not
  fit a 64-bit int is, because `ParseName` rejects it.
- A string is a Go string, that is its bytes: each char stands for one byte, and a non-ASCII literal
  is written as the bytes of its encoding.
- Inserts succeed: the hook ignores a failed audit or link insert, and then log, links and row can differ.

## Where code and comments disagree

- `internal/state/state.go:107-110` says the slot of a parsed name is in 1..MaxSlots by construction. The
  pattern accepts any digits, and a level on a non-idle name: `Grammar.ParseNameIsWiderThanEncode`.
  Hence the branch marked as one that should not happen, `internal/daemon/daemon.go:549-554`, can be
  reached: `Actor.ManagedWithoutSlot`.
- `internal/install/shell.go:31-35` says the block ends up present exactly once. It does exactly when
  the text showed no begin marker, or a block was found in it and no begin marker after that block:
  `ZshBlock.ApplyShowsOnceIff`. Two inputs on which it does not: two blocks, which an install leaves
  (`ZshBlock.TwoBlocksStay`), and a begin marker without an end marker (`ZshBlock.DanglingMarker`), after
  which a second install also swallows the text between (`ZshBlock.ApplyIdempotentIff`).
- `internal/install/shell.go:49-52` says a round trip restores the text up to a single trailing newline. All
  trailing newlines but one are lost, so it does exactly when there are at most two of them, or at most
  one when there is nothing else: `ZshBlock.StripUndoesApply`; three are an input (`ZshBlock.NewlinesLost`).
- `internal/install/install.go:337-339` and `371-374` say that elements of an unexpected shape are left
  alone and that an event key goes only when the removal emptied it. A removal also drops an event
  whose array was empty before, and gives every group that has no hooks array an empty one
  (`HookTree.RemovalCoerces`; `HookTree.RemoveEventFixes` says exactly which values it leaves as they
  were). A merge replaces a hooks value that is not an object, an event that is not an array, and, in
  the group it uses, hooks that are not an array (`HookTree.MergeReplaces`; `HookTree.MergeKeepsIff` says
  exactly when it leaves all there is alone). The comment at `internal/install/install.go:443-444` admits the last two.
- `internal/install/install.go:20-22` says that matching on the marker keeps re-runs idempotent whatever
  the binary path was. The path is free text: when the command does not bear the marker and some event
  has no hook of ours yet, a re-run appends again, and no uninstall takes the hook out.
  `HookTree.MergeIdempotentIff` and `HookTree.UninstallUndoesInstall` give the exact conditions,
  `HookTree.UnmarkedCommand` is such a command.
- `internal/recap/recap.go:171` says the events may come in any order. Which sessions are detailed, and which
  projects are cut off, can depend on it when active times tie across the cut:
  `RecapOrder.OmittedProjectsDepend` is such an input, `RecapOrder.DetailedIndependentIff` the exact
  condition.
- `internal/tile/tile.go:74-77` and `103` say that a session in prompt is never dropped from a tile. Two are
  kept and a third is dropped (`Tile.ThirdPromptHidden`); `Tile.MostSalientShown` says how many of each rank
  are shown. That some tile shows prompt when some session does, which the alert needs, holds
  (`Tile.PromptIsShown`).

## Model

| member | source | states |
|---|---|---|
| Grammar.ParseEncode | internal/state/state.go:93-137 | parsing an encoded name gives back status, slot and, for idle, level, for every slot and level an int holds |
| Grammar.NamesWritten | internal/state/state.go:64-105 | the names written for slot 3, one per status: cw3, cp3, cs3, ci3l2 |
| Grammar.ParseNameAccepts | internal/state/state.go:64-137 | ParseName accepts exactly the strings of the pattern whose converted digit groups fit an int |
| Grammar.ParseNameIsWiderThanEncode | internal/state/state.go:107-137 | four names the daemon never writes that are accepted, with the values read |
| Grammar.DecayLevel | internal/state/state.go:148-167 | a level at most 6, above exactly the thresholds that the elapsed time has reached |
| Grammar.DecayTable | internal/state/state.go:139-167 | the thresholds are 1, 4, 10, 20, 35 and 60 minutes |
| Grammar.DecayMonotone | internal/state/state.go:148-167 | more elapsed time never gives a brighter level |
| Niri.UnreportedIsNoOp | internal/niri/model.go:44-96 | an event reported as no change leaves the topology exactly as it was |
| Niri.Model.ApplyEvent | internal/niri/model.go:50-96 | the new topology is a fold of the event, for some iteration order, and the result says whether it can have changed; the rows of NiriHistory say what folding amounts to |
| NiriHistory.WindowMeaning | internal/niri/model.go:61-77 | after any list of events and recorded names: a window is in the model if and only if the last window list, opening or closing about its id shows it, with that event's record |
| NiriHistory.SpaceMeaning | internal/niri/model.go:52-59 | the workspaces are those of the last workspace list, at the index and on the output shown there |
| NiriHistory.FocusMeaning | internal/niri/model.go:80-91 | a workspace is focused if and only if the last workspace list or focused activation says so |
| NiriHistory.FocusedOutputMeaning | internal/niri/model.go:98-105 | the focused output is that of a focused workspace, and stays what it was while none is focused |
| NiriHistory.NameMeaning | internal/niri/model.go:145-154 | a workspace bears the name recorded last, if no workspace list came since, and else the one that list shows |
| Niri.Model.MarkFocused | internal/niri/model.go:80-91 | the loop over the map, in any order, leaves the focus flag on the activated workspace alone, on whichever output |
| Niri.Model.RefreshFocusedOutput | internal/niri/model.go:98-105 | the focused output is that of some focused workspace, or stays when none is |
| Niri.Model.SetName | internal/niri/model.go:145-154 | only the name of that workspace changes, and nothing when it is unknown |
| SlotTable.AssignConsistent | internal/daemon/reconcile.go:207-219 | assigning keeps the map injective into 1..20 with its range equal to the used set, and moves no other holder; a holder keeps its slot, and a new one gets the lowest that is free |
| SlotTable.FreeConsistent | internal/daemon/reconcile.go:222-227 | freeing keeps consistency and removes exactly one holder |
| SlotTable.AdoptConsistent | internal/daemon/reconcile.go:234-250 | adopting any slot, taken or out of range included, keeps consistency |
| SlotTable.FreeUndoesAssign | internal/daemon/reconcile.go:207-227 | a rolled-back bootstrap leaves the table exactly as it was |
| SlotTable.AssignFailsWhenFull | internal/daemon/reconcile.go:200-219 | assignment fails if and only if 20 other workspaces hold slots |
| SlotTable.HolderCount | internal/daemon/reconcile.go:192-219 | holders and used slots are equally many, at most 20 |
| SlotTable.LowestFree | internal/daemon/reconcile.go:207-219 | the least slot from a start that is not used, and none exactly when all are |
| SlotTable.SlotAllocator.AssignSlot | internal/daemon/reconcile.go:207-219 | the in-place form does what the table function says, result and both fields |
| SlotTable.SlotAllocator.FreeSlot | internal/daemon/reconcile.go:222-227 | the in-place form does what the table function says |
| SlotTable.SlotAllocator.AdoptSlot | internal/daemon/reconcile.go:234-250 | the in-place form does what the table function says |
| Aggregation.Aggregate | internal/daemon/reconcile.go:122-186 | the one pass equals the declarative form: per workspace with a session, working over prompt over shell over idle, and the idle level is the least of its idle sessions' own levels, missing talk time counting as dimmest |
| Aggregation.AskedMeaning | internal/daemon/reconcile.go:110-186 | on the stored rows: a workspace is wanted if and only if some row's known window is on it; it shows working if some such row stores "working", else prompt, else shell if one does, and else idle, at a level that counts the thresholds for which every row on it has been silent, or never talked |
| Aggregation.AggregateOrderInvariant | internal/daemon/reconcile.go:122-186 | the declarative form has one solution, the same for any reordering or repetition of the rows |
| Aggregation.ConcludeAsks | internal/daemon/reconcile.go:160-184 | keeping only the latest talk time gives the brightest level, because decay is monotone |
| Aggregation.AllIdleFades | internal/daemon/reconcile.go:122-186 | a workspace whose sessions are all idle stays idle and only fades as the clock advances |
| Compositor.PerformHit | internal/niri/model.go:9-18 | an action that denotes one workspace renames that one if it succeeds, and nothing if it fails |
| ReconcileProofs.ReconcileWeak | internal/daemon/daemon.go:501-589 | slot table consistency and holders-are-managed survive every reconcile, whatever fails |
| ReconcileProofs.ReconcileFate | internal/daemon/daemon.go:501-589 | the bookkeeping of each workspace after a reconcile, by whether it is wanted, known, managed, on the focused output, and whether its action failed |
| ReconcileProofs.DoneAfterFaultFree | internal/daemon/daemon.go:501-589 | after a reconcile without failures no workspace has anything left to do |
| ReconcileProofs.ReconcileIdempotent | internal/daemon/daemon.go:546-567 | a second reconcile on the same inputs sends nothing and changes nothing, also under slot exhaustion and with vanished wanted workspaces |
| Refinement.ReconcileRefines | internal/daemon/daemon.go:501-589 | from agreement, under any failures, every action hits exactly the workspace meant, the compositor keeps its shape, and model, managed names and compositor agree again with clean slots |
| Refinement.ReconcileNames | internal/daemon/daemon.go:501-589 | the compositor name of every workspace afterwards: the encoded name, nothing, or the name it had, by case |
| Refinement.CleanNamesDistinct | internal/daemon/reconcile.go:188-196 | with clean slots managed names are pairwise distinct |
| Refinement.NameHits | internal/daemon/daemon.go:518-562 | a managed name denotes its workspace and no other |
| Refinement.IndexHits | internal/daemon/daemon.go:564-587 | an index reference to a workspace of the focused output denotes it and no other |
| Refinement.ReconcileClean | internal/daemon/daemon.go:501-589 | slots and managed names go on telling the same story through any failures, whatever the compositor shows |
| Refinement.ReconcileHeals | internal/daemon/daemon.go:546-555 | from any weak state, a reconcile without failures that wants at most 20 workspaces, all existing, leaves slots and names clean: a workspace managed without a slot heals |
| Refinement.AggregateLevelsOk | internal/daemon/reconcile.go:176-184 | every level asked for is one the grammar's table has |
| Convergence.RunSettles | internal/daemon/daemon.go:538-588 | over rounds with changing focus and failures, each wanted workspace whose output had a fault-free round is named for good |
| Convergence.Converges | internal/daemon/daemon.go:538-588 | with at most 20 workspaces managed or wanted, once each relevant output has held focus in a fault-free round, all names are right on the compositor and no later reconcile sends anything, whichever output has focus |
| Decay.FadingIsCheap | internal/daemon/daemon.go:556-567 | over any run, whatever else happens, a workspace that only fades causes at most seven actions, one per level: renames only if it was managed when the run began, and otherwise one bootstrap and at most six renames |
| Decay.AgingSessionsAreCheap | internal/state/state.go:139-167 | the same bound from the sessions, managed or not at the start: idle sessions that only age, under any clock that does not go back |
| Decay.ReconcileMoves | internal/daemon/daemon.go:538-588 | one reconcile sends at most one successful action about a wanted workspace, only if its name changes, and by index only if it was not managed |
| Decay.ReconcileCalledFor | internal/daemon/daemon.go:516-587 | every action a reconcile sends, whatever the compositor shows and whatever fails, is one its starting state calls for: a wanted workspace is renamed from the name it is managed under, if that differs, or else named by its index on the focused output; an unwanted one has its managed name taken away |
| Actor.AdoptionCleanIff | internal/daemon/daemon.go:263-275 | after adoption in any order the weak invariant holds; slots and names agree if and only if the slots shown were in range and distinct |
| Actor.ManagedWithoutSlot | internal/daemon/daemon.go:549-554 | a first snapshot after which a managed workspace has no slot |
| Actor.RunBooks | internal/daemon/daemon.go:180-275 | in every state of every run the weak invariant holds, and before adoption nothing is managed, known or sent |
| Actor.RunStaysClean | internal/daemon/reconcile.go:188-256 | in every state of every run whose first snapshot shows distinct slots in range, managed workspaces and slot holders coincide and each managed name shows its workspace's slot, with no assumption on the environment |
| Actor.RunNamesDistinct | internal/daemon/daemon.go:116-125 | in those states no two managed names are equal |
| Actor.RunForgetsNothing | internal/daemon/daemon.go:180-261 | in every state of every run: the sessions are the payload of the last snapshot and windows, workspaces and focus are as the events heard say; when not dirty, the last reconcile asked for the aggregate of that payload, and if it had no failure nothing is left to do |
| Actor.DirtyMeaning | internal/daemon/daemon.go:194-249 | the timer is armed if and only if a snapshot, a tick, or an event that is not a no-op came since the last reconcile |
| Actor.RunStaysLinked | internal/daemon/daemon.go:180-275 | with a cooperating environment, in every state after adoption the strong invariant holds and every action of the next reconcile hits the workspace meant |
| Actor.NamesNeverCollide | internal/daemon/daemon.go:116-168 | in every such state a workspace shows a name of the grammar if and only if it is managed, and no two show the same slot |
| Actor.QuiescentNames | internal/daemon/daemon.go:180-261 | a quiescent actor after a reconcile without failures: the compositor shows what the sessions of the last snapshot asked for at that reconcile's clock, on the windows heard of |
| ActorRuns.ActorConverges | internal/daemon/daemon.go:180-249 | in a run of the actor that from some step on wants the same and leaves the workspaces in place, once every relevant output held focus during a reconcile without failures, all names are right on the compositor and no further reconcile that wants the same sends or changes anything |
| ActorRuns.ActorFadingIsCheap | internal/daemon/daemon.go:180-249 | whatever the actor does, a workspace that from some step after adoption on only fades causes at most seven actions, renames only if it was managed at that step, and otherwise one bootstrap and at most six renames |
| ActorRuns.ActorAgingIsCheap | internal/daemon/daemon.go:236-246 | the same bound when the reconciles from then on see the same idle sessions of the workspace and a clock that does not go back |
| DaemonProcess.SortedWorkspaceIds | internal/daemon/reconcile.go:258-267 | every key once, ascending |
| DaemonProcess.Daemon.constructor | internal/daemon/daemon.go:116-168 | starts in the initial actor state |
| DaemonProcess.Daemon.MarkDirty | internal/daemon/daemon.go:196-207 | arms the timer only on the step from clean to dirty |
| DaemonProcess.Daemon.OnEvent | internal/daemon/daemon.go:217-261 | one event: fold, adopt on the first workspace snapshot only, mark dirty only if reported |
| DaemonProcess.Daemon.OnSnapshot | internal/daemon/daemon.go:232-234 | the sessions are the snapshot received, nothing else changes but dirty and the timer, and dirty holds |
| DaemonProcess.Daemon.OnTick | internal/daemon/daemon.go:236-242 | a tick keeps exactly the rows whose window is null or known, whose terminal is null or alive and whose session is not declared dead, as they are; without a list every count starts anew; and the actor is dirty |
| DaemonProcess.Daemon.OnTimer | internal/daemon/daemon.go:244-246 | the timer clears dirty and runs one reconcile |
| DaemonProcess.Daemon.AdoptExistingNames | internal/daemon/daemon.go:263-275 | the loop is adoption in some order of the workspaces |
| DaemonProcess.Daemon.Reconcile | internal/daemon/daemon.go:501-589 | the two loops with their deletes, writes, rollback and suppression are the reconcile function on the aggregate of the sessions, pass 2 in ascending order |
| DaemonProcess.Daemon.ClearUnwanted | internal/daemon/daemon.go:516-536 | pass 1 over the managed map in any order |
| DaemonProcess.Daemon.ClearWorkspace | internal/daemon/daemon.go:518-536 | pass 1 on one workspace |
| DaemonProcess.Daemon.NameWorkspace | internal/daemon/daemon.go:539-588 | pass 2 on one workspace |
| Handover.StepGood | internal/daemon/daemon.go:294-324 | the protocol invariant survives every step of either side |
| Handover.HandoverSafe | internal/daemon/daemon.go:294-324 | in every interleaving the inner send never drops a snapshot, received ones are strictly newer each time, and an idle poller's newest snapshot is buffered or received unless cancelled |
| Reaper.MissCounter.FirstPartyDead | internal/daemon/gc.go:94-129 | counts, clears and prunes the counter as one tick of the specification, with the ids it declares dead |
| Reaper.CounterIsTrailingRun | internal/daemon/gc.go:73-129 | after any history the counter of an id is the length of its trailing run of absences, with no entry when that is zero |
| Reaper.DeadIffThreeInARow | internal/daemon/gc.go:12-129 | an id is declared dead if and only if it was absent on the last three ticks in a row |
| Reaper.SweptMeaning | internal/daemon/gc.go:53-71 | a row survives a history of sweeps if and only if at each its window was null or known, its terminal null or alive, and its session had not just been absent for three ticks in a row |
| Reaper.RemoteSurvives | internal/daemon/gc.go:60-102 | a row with neither window nor terminal survives every history of sweeps |
| Reaper.Gc | internal/daemon/daemon.go:351-374 | a row stays, as it is, if and only if its window is null or known, its terminal is null or alive, and its session was not declared dead; the deleted rows are counted and nothing is logged |
| Store.Database.Upsert | internal/db/db.go:386-414 | one row replaced or added, created time kept, log untouched |
| Store.Database.Delete | internal/db/db.go:462-467 | one row removed, log untouched |
| Store.Database.InsertEvent | internal/db/db.go:160-169 | one row appended to the log, rows untouched |
| Store.Database.LinkSessionRepo | internal/db/db.go:562-577 | one link made, or its branch refreshed with the time it was first seen kept; rows and log untouched |
| Store.Database.ReapDead | internal/db/db.go:474-489 | exactly the rows the predicate marks are removed, and counted |
| Hook.Run | internal/hook/hook.go:79-222 | one invocation is one hook step on the three tables, on every path |
| Hook.Apply | internal/hook/hook.go:137-221 | the path that builds the next row by successive assignments, logs it and stores it; the rows of Lifecycle, Situation, RowFields and Journal say what that row and that log entry hold |
| Hook.RunReplayable | internal/hook/hook.go:101-221 | in every state of every run each row's state is what its session's log rows say |
| Hook.ReplayRecoversState | internal/recap/recap.go:304-316 | under a clock that does not go back, the state the recap replays from the log is the state in the row, and it is never shell |
| Hook.LogIsSorted | internal/recap/recap.go:191-195 | such a log is already in the order the recap sorts it into |
| Lifecycle.PromptEntry | internal/hook/hook.go:182-201 | prompt is entered exactly by a permission notification while working, never from idle and never by a session's first event |
| Glyphs.GlyphMeaning | internal/daemon/reconcile.go:110-186 | the aggregate of the rows a run of the hook left: a workspace is wanted if and only if some session was found there; it shows working if one is in mid-turn and not waiting, else prompt if one asked for permission in this turn and work has not gone on since, else idle, fading by the talk of all sessions there |
| Glyphs.BarMeaning | internal/daemon/daemon.go:501-589 | a quiescent actor whose last snapshot was of those rows: each workspace within reach bears on the compositor the name those events ask for, and one without a session bears none of the grammar |
| Lifecycle.RowMeaning | internal/state/state.go:180-222 | over any run: a row exists exactly while something made it appear since it was dropped; it is working in mid-turn, prompt when permission was asked for and work has not gone on since, idle otherwise |
| Lifecycle.FadesSinceLastTalk | internal/hook/hook.go:149-154 | over any run: a row's talk time is that of the latest talk event since the row was last dropped, and null exactly when there is none |
| Lifecycle.HookMoves | internal/hook/hook.go:101-221 | what one invocation does to existence, state and talk time of any session's row, its own or not |
| Situation.PlaceMeaning | internal/hook/hook.go:156-180 | over any run: the window, the terminal and the repository of a row are those of the latest SessionStart that found one since the row appeared, or else of the first event that found one, and null exactly when there is none |
| Situation.LinkMeaning | internal/hook/hook.go:167-180 | over any run: a session is linked to a repository if and only if some event found it there when asked, whatever ended the session since; the link bears the time of the first such event and the branch of the last |
| Situation.HeldIsLinked | internal/db/db.go:82-94 | the repository a row holds is always linked to the session, so it outlives the row |
| RowFields.FieldsMeaning | internal/hook/hook.go:119-201 | over any run: directory and event time of a row are those of the last event of the table for its session, its last sign of life that of the last invocation of any kind, its creation that of the event it came from, and its notification kind says whether permission was asked for in mid-turn since |
| Journal.LogMeaning | internal/hook/hook.go:104-221 | over any run: the log is one row per invocation with a session and one per title step, in order; each bears its step's clock, session and event, the window held after it, "unchanged" if and only if a row existed and its state did not move, "deleted" or "ignored" where due, and message and match for notifications only |
| Journal.ReplayTold | internal/recap/recap.go:313-330 | under a clock that does not go back, the mode the recap replays is that of the last step that put the session into one, and the turns, prompts and questions it counts are those of the run |
| AuditLog.EffectiveMeaning | internal/recap/recap.go:313-316 | the replayed state is what the last row that names one of the four states says |
| Intervals.Merge | internal/recap/recap.go:423-441 | for any input a sorted list with gaps between its members that covers exactly the same points; the canonical one when no interval is empty or inverted |
| Intervals.MergedUnique | internal/recap/recap.go:423-441 | there is only one such list, so the result does not depend on the order or grouping of the input |
| Intervals.UnionDur | internal/recap/recap.go:414-420 | the number of milliseconds covered, unless an interval is inverted, and then at most that |
| Intervals.DisjointMeasure | internal/recap/recap.go:414-420 | lengths of disjoint intervals add up to the size of their union exactly when none is inverted |
| Intervals.MeasureInWindow | internal/recap/recap.go:335-344 | intervals inside a window cover no more than the window |
| Intervals.TopStreaks | internal/recap/recap.go:445-468 | for any input the components of what is covered inside the window, longest first, cut to n |
| Intervals.StreaksAddUp | internal/recap/recap.go:445-468 | uncut, the streaks add up to the number of milliseconds covered |
| SessionSummary.BeatsPointwise | internal/recap/recap.go:304-349 | a millisecond is active exactly when the last event at or before it left the session working and is at most five minutes back, inside the window |
| SessionSummary.BeatsShape | internal/recap/recap.go:330-345 | heartbeats come ascending, proper and with disjoint interiors |
| SessionSummary.ActiveIsBounded | internal/recap/recap.go:304-349 | active time is the plain sum of the heartbeats, and at most five minutes per event in working state, however long a session stays frozen |
| SessionSummary.TimelineShape | internal/recap/recap.go:359-391 | spans are proper, ordered and disjoint, and touching spans differ in kind |
| SessionSummary.TimelinePointwise | internal/recap/recap.go:359-411 | at each millisecond the coalescing fold shows the mode after the last event at or before it, and nothing before a SessionEnd, after the last event or past the window |
| SessionSummary.ModeMeaning | internal/recap/recap.go:393-411 | the mode is what the last event that asks for one asks for, neutral ones aside, and waiting for the user before any |
| SessionSummary.TimelineConserves | internal/recap/recap.go:359-391 | working, waiting for the user and waiting for permission are the attributed gaps, and together at most last minus first event |
| SessionSummary.TimelineCounts | internal/recap/recap.go:359-391 | working, waiting for the user and waiting for permission are the numbers of milliseconds at which the timeline shows them |
| SessionSummary.SummaryMeaning | internal/recap/recap.go:304-335 | the topic is the last window title that is not empty; the session starts with its first event and ends with its last |
| SessionSummary.Summarize | internal/recap/recap.go:304-349 | the one pass gives the summary and the heartbeats of the specification |
| SessionSummary.BuildTimeline | internal/recap/recap.go:359-391 | the loop that lengthens its last span in place gives the timeline and its three sums |
| Recap.GroupEvents | internal/recap/recap.go:179-195 | sessions in first-seen order, each with its window events stably sorted by time |
| Recap.Describe | internal/recap/recap.go:201-226 | a session's title, ask, arc, branch, directory and project from its transcript, overlaid by the stored repository |
| Recap.DescribedMeaning | internal/recap/recap.go:201-226 | topic, ask and arc come from the transcript, a topic only for lack of a window title; directory and branch from the stored repository and else from the transcript; the project is named by the remote, else the root, and without a repository by the transcript's directory |
| Recap.RepoDecidesProject | internal/recap/recap.go:211-226 | sessions of one stored repository share project and directory, whatever their transcripts say |
| Recap.CollectRows | internal/recap/recap.go:197-235 | the substantial sessions, described, with their heartbeats |
| Recap.AddUp | internal/recap/recap.go:237-265 | counts, sums, extremes, mean and union of the rows |
| Recap.RollUp | internal/recap/recap.go:239-273 | one entry per project with the sums and the directories of its rows, most active first |
| Recap.DirsInMembers | internal/recap/recap.go:259-261 | a project's directories are exactly the non-empty ones of its sessions, each once |
| Recap.RankSessions | internal/recap/recap.go:275-288 | the most active sessions and how many sessions and projects are cut off |
| Recap.RankStreaks | internal/recap/recap.go:290-292 | the five longest streaks over all sessions |
| Recap.Build | internal/recap/recap.go:176-298 | the whole pass gives a digest of the window as the declarative form has it, with its bounds |
| RecapTotals.ActiveTotals | internal/recap/recap.go:73-92 | least at most mean at most longest session; longest session at most the union, the union at most the sum and at most the window |
| RecapTotals.ActiveIsPointwise | internal/recap/recap.go:237-265 | the active total is the number of milliseconds of the window at which some session is active |
| RecapTotals.TotalsConserve | internal/recap/recap.go:176-298 | projects share out exactly the active time and the sessions; the detailed sessions and the omitted ones are together all rows, and no omitted one was more active than a detailed one |
| RecapTotals.DigestDetermined | internal/recap/recap.go:237-298 | two digests of the same rows and covered time, in any order, agree on every total but the order of its project names, on the roll-ups but the order of directories, on the lengths of the streaks, on the number of sessions cut off and on the active times down the ranking; without a tie across the cut also on which sessions are detailed and how many projects are cut off |
| RecapOrder.RowOrderReached | internal/recap/recap.go:176-195 | every order of a window's rows is that of some order of its events that keeps same-session ties of one millisecond |
| RecapOrder.DetailedIndependentIff | internal/recap/recap.go:171-288 | which sessions are detailed and which projects are cut off is the same for every order of the events that keeps same-session ties if and only if active time drops across the cut |
| RecapTotals.WindowRowsDistinct | internal/recap/recap.go:197-235 | the rows of a window are distinct |
| RecapTotals.WindowRowsMeaning | internal/recap/recap.go:227-235 | a session of the window has a row if and only if it was active, ended a turn, asked a question or got a prompt |
| RecapTotals.CountsConserve | internal/recap/recap.go:237-265 | turns, prompts and questions of the totals are those of all events of the window |
| RecapTotals.TotalsAddUp | internal/recap/recap.go:237-265 | one more row adds its own figures to the totals |
| RecapTotals.ProjectsMeaning | internal/recap/recap.go:266-273 | the projects of a digest are those of its rows, each once, the most active first, and the totals name them in that order |
| RecapTotals.FiveStreaks | internal/recap/recap.go:290-292 | the streaks are the longest components of the covered time, five at most |
| RecapOrder.OmittedProjectsDepend | internal/recap/recap.go:275-288 | three events of equally active sessions in two projects whose order decides whether one or two projects are cut off |
| RecapTotals.OrderInvariant | internal/recap/recap.go:171-195 | the same events in any order that keeps same-session ties of one millisecond give the same rows and cover the same time, so what `DigestDetermined` says of two digests holds of theirs |
| Tile.KeyInjective | internal/tile/tile.go:80-82 | two desktops never share a cache key, for any output name and any int index |
| Tile.PayloadFor | internal/tile/tile.go:147-205 | the payload is one the declarative form allows |
| Tile.PayloadFields | internal/tile/tile.go:92-205 | index and focus of the desktop; no app fields with a session or without a window, the window of the least id with windows only, and one empty tile with neither |
| Tile.TileMeaning | internal/tile/tile.go:120-132 | a tile shows the last element of the directory, the title of the session's window, and when idle the decay level and the minutes or hours since it talked |
| Tile.PayloadUnique | internal/tile/tile.go:134-205 | there is exactly one, whatever order windows and sessions come in |
| Tile.PromptIsShown | internal/tile/tile.go:74-118 | when a session of the desktop is in prompt, the first tile shown is in prompt, so the alert fires |
| Tile.MostSalientFirst | internal/tile/tile.go:102-118 | the first tile shows the most salient state on the desktop: prompt before working before shell before idle |
| Tile.LeftmostFirst | internal/tile/tile.go:157-171 | among sessions in one state the one in the window of the least id comes first |
| Tile.MostSalientShown | internal/tile/tile.go:74-118 | the tiles are the most salient sessions: down to every rank there are as many as the desktop has, or two when it has more |
| Tile.ThirdPromptHidden | internal/tile/tile.go:74-118 | of three sessions in prompt two are shown |
| Tile.BuildAll | internal/tile/tile.go:466-489 | the cache has an entry exactly for each key of a workspace, each a payload of what is on it |
| Tile.BuildLive | internal/tile/tile.go:637-680 | the live query's payload for one output and index, with a failing query as one that finds nothing |
| Tile.CacheAgreesWithLive | internal/tile/tile.go:466-489 | looking a desktop up in the cache gives what the live query computes from the same windows and sessions, in whatever order each side sees them, for known and unknown desktops |
| Tile.CachesAgree | internal/tile/tile.go:466-489 | two caches of the same windows and sessions in different orders are equal |
| HookTree.MergeEvent | internal/install/install.go:349-366 | the groups of one event after the merge, and whether our hook was there |
| HookTree.MergeList | internal/install/install.go:345-369 | all events in turn, with the two report lists exact and in order |
| HookTree.ThoseMembers | internal/install/install.go:342-344 | the two report lists share out the events |
| HookTree.MergeHooks | internal/install/install.go:345-369 | the merged tree, also when hooks is absent or not an object |
| HookTree.InstalledTree | internal/install/install.go:345-369 | into empty settings a merge writes, under each event, one group that matches everything with our command |
| HookTree.EventsAreKnown | internal/install/install.go:25-35 | the events installed are exactly those the hook knows |
| HookTree.ShapesRead | internal/install/install.go:467-503 | a group matches everything without a matcher, with a null one or an empty one; a hook is ours if its command bears the marker |
| HookTree.RemoveGroups | internal/install/install.go:388-416 | the groups of one event after the removal, and whether one held our hook |
| HookTree.RemoveHooks | internal/install/install.go:375-430 | the tree after the removal, with exactly the events that held our hook, each once, sorted |
| HookTree.MergeIdempotentIff | internal/install/install.go:20-23 | merging again, with any command, changes nothing exactly when the first command bears the marker or every event had our hook before |
| HookTree.MergeGroupsFixes | internal/install/install.go:349-366 | a merge leaves an event's groups as they are exactly when our hook is there |
| HookTree.MergeReplaces | internal/install/install.go:434-451 | three inputs: a hooks value that is not an object, an event that is not an array, and the hooks of the group used when they are not an array are replaced |
| HookTree.MergeKeepsIff | internal/install/install.go:337-369 | a merge only extends what was there if and only if hooks is absent or null, or an object in which each listed event is absent or null, or an array whose first group that matches everything, if there is one, has no hooks, null, or an array of them |
| HookTree.RemovalCoerces | internal/install/install.go:388-422 | an event that was empty before is dropped and a group without hooks gets an empty array |
| HookTree.MergeKeepsForeign | internal/install/install.go:345-369 | every group but the first that matches everything stays where it was, and that one keeps its fields and its hooks in order before ours; only without one a group is added |
| HookTree.MergeKeepsRest | internal/install/install.go:345-369 | the other settings and the events not listed do not change |
| HookTree.RemoveEventFixes | internal/install/install.go:381-422 | a removal leaves an event's value as it was if and only if it is not an array, or is a non-empty one whose object groups all have a hooks array without our marker |
| HookTree.UninstallUndoesInstall | internal/install/install.go:345-430 | for any command, removal after merge gives back the settings if and only if the command bears the marker, and hooks is absent, or is a non-empty object whose listed events are arrays, with no empty array, each group with a hooks array without our marker, and the group the hook went into not empty |
| HookTree.UnmarkedCommand | internal/install/install.go:20-62 | a command without the marker on empty settings: a second install changes them again, and an uninstall does not give them back |
| ZshBlock.BlockWellMarked | internal/install/shell.go:18-30 | the block's markers are one line each and its body never shows the end marker, if the binary path does not |
| ZshBlock.StripUndoesApply | internal/install/shell.go:31-67 | on text without a begin marker, uninstall after install gives the text with its trailing newlines normalized to one, or nothing: the text itself, and the text up to one newline, exactly under a condition on their number |
| ZshBlock.StripKeeps | internal/install/shell.go:49-67 | of a text with a block the text before it, its trailing newlines made one, and the text after it, without its leading ones, stay |
| ZshBlock.NewlinesLost | internal/install/shell.go:49-67 | of three trailing newlines one comes back |
| ZshBlock.UpgradeThenStrip | internal/install/shell.go:36-67 | upgrading a block in place does not change what an uninstall leaves |
| ZshBlock.ApplyShowsOnceIff | internal/install/shell.go:31-47 | after an install the begin marker shows exactly once if and only if it showed not at all, or a block was found and no begin marker after it |
| ZshBlock.BlockBeginsOnce | internal/install/shell.go:25-30 | the block shows the begin marker at its start only, if the binary path does not show it |
| ZshBlock.TwoBlocksStay | internal/install/shell.go:36-40 | two blocks stay two: the install changes nothing, and no marker dangles |
| ZshBlock.DanglingMarker | internal/install/shell.go:41-47 | a begin marker alone: the install shows a second one, and the next install changes the text again |
| ZshBlock.ApplyIdempotentIff | internal/install/shell.go:31-47 | installing twice is installing once if and only if no begin marker dangles |
| ZshBlock.PutKeeps | internal/install/shell.go:36-40 | replacing a block keeps the text before and after it |
| ZshBlock.PutReplaces | internal/install/shell.go:36-86 | the new block is found again exactly where the old one was |
| ZshBlock.PutFresh | internal/install/shell.go:41-86 | an appended block is found again after the separator, at the end |
| ZshBlock.DanglingRange | internal/install/shell.go:72-86 | after a dangling begin marker the range found next starts at that marker and runs to the end |

## Left out

- First-party state: `firstPartyState` and `overlayFirstParty` (`internal/daemon/reconcile.go:43-90`); snapshots enter the daemon with states already overlaid, and `Glyphs` is about snapshots of the table as it is.
- SQLite, write-ahead logging and transactions: tables are a map and a sequence with atomic operations, so a crash between the hook's reads and writes is not modelled.
- `EventsBetween`: the window arrives as a list in any order; the order of equal timestamps is not fixed by the query, which is why `RecapTotals.OrderInvariant` is stated up to such ties.
- RecapTotals.DigestDetermined: with a tie across the cut it promises neither the detailed sessions nor the number of projects cut off, because both depend on the order.
- The `niri msg` processes, JSON decoding and stream scanning: the model starts from decoded events.
- Process walking, git, transcripts and file reads: what they find is an input (window, terminal, repository, the set of live processes, transcript content); the repos table is one too, a resolved repository being the id its registration gave.
- Message patterns: whether a notification asks for permission is an input; lower-casing and substring search over the pattern list are easy.
- Title rows: the daemon's title capture is not modelled; title rows appear only as steps of a run, with any content.
- DaemonProcess.Daemon.OnTick: does not rewrite the tile cache (`internal/daemon/daemon.go:381-419`), whose content `Tile.BuildAll` gives.
- DaemonProcess.Daemon.OnEvent: does not rewrite the tile cache when a workspace is activated.
- DaemonProcess.Daemon.Reconcile: neither rewrites the tile cache nor records title changes, which its first lines do without touching what the reconcile reads.
- Tile writing and its throttling, the watch loop, icons and labels: the last two are uninterpreted functions of the application id.
- Recap.Build: carries no git enrichment (remote, commits), which the recap command adds afterwards; the transcript lookup and the repository lookup made from the links are inputs, and the last element of a path is an uninterpreted function.
- Rendering of the digest, and resume lines.
- HookTree.MergeHooks: a value for the nested settings, because a decoded tree shares no nodes; update in place of its maps and arrays is not captured.
- ZshBlock.StripUndoesApply: the two flags that say whether a block was replaced or removed are left out; they are `FindBlock` having found one.
- Convergence.Converges: needs at most 20 managed or wanted workspaces; beyond that the slot table can be full, and `SlotTable.AssignFailsWhenFull` says exactly when.
- Decay.FadingIsCheap: counts successful actions; a failing one is retried by every reconcile and has no bound.
- A foreign name on a wanted workspace of the focused output is overwritten by the index bootstrap (`internal/daemon/daemon.go:569-587`), so no theorem says that such names survive.
- That glyph and tile pick the same session: their precedences differ by design.
- Doctor, resume, transcript and remote normalization: formatting and filtering that would only add easy members.
