# The recorder's history, modelled

kube-time-machine records the declarative state of a cluster: an agent keeps the current objects in a
buffer, flushes the buffer to a local store as full snapshots and deltas, and deletes what has left the
retention window. The command line rebuilds any recorded state, shows the timeline of one resource, and
rolls one resource back. This project models that pipeline and proves what its users rely on: whatever
fails and whenever the process stops, a retained snapshot rebuilds to exactly what was captured.

`dafny verify dfyconfig.toml` checks the whole project.

## How the pieces fit

- `Delta`, `Wire`, `Times`, `Sorting`, `Text`: snapshots, deltas, their serialised form, snapshot IDs, and
  the orders and texts under them.
- `Files`: the directory tree as a value, and a disk whose every operation may fail. A ghost trace holds
  the tree after every single filesystem operation; a crash can leave any entry of that trace.
- `Store`, `StoreLaws`: the store's procedures over that disk, each tied to relations that say what a
  completed, a failed and an interrupted call leave behind, and laws about those relations.
- `History`, `Runs`, `Promises`: whole runs. A run is any sequence of buffer changes, flushes that succeed,
  fail or are cut short, collection passes any of whose deletions fail or are cut short, restarts,
  interrupted restarts, and losses of the index file. `Runs.Inv` holds at every point; `Promises` says what
  that means for whoever opens the store.
- `Visible`: the states of the disk inside the steps of a run. Each is where a run ends that was cut short
  there, so all promises hold for it.
- `Agent`, `Collection`, `Retention`, `Cadence`, `Burst`: the buffer and the snapshotter as classes whose
  methods take exactly the steps of such runs and show no disk state that the run does not, what a
  collection pass leaves, and the counters. A snapshotter is valid when some run has led to it.
- `Reconstruct`, `Blame`: the readers, against reference definitions. `Timelines` says for which lists
  blame is right, and `Readers` puts the readers beside a working agent.
- `Hazards`, `Orphans`, `Losses`: what happens where a promise or an assumption ends, with runs that lead
  there.
- `Rollback`, `Prompt`, `Sanitise`: the rollback protocol, as a log of what passes between the command, a
  server with other writers, and the user; what counts as a yes; and what is stripped
  from an object before it is recorded.

Ghost bookkeeping of a run: `h` is every attempt ever made with what it captured; `floor` is the time of
the newest collection anchor; `live` are the IDs that must be available; `gone` are the IDs whose deletion
is final; `stranded` are the IDs that a deletion left listed without their directory; `tidy` says that the
index file was never lost.

## Assumptions

- One writer, and a clock that is ahead of every earlier attempt by at least a millisecond
  (`Runs.ClockAhead`). Reconstruction follows PrevID links and does not need the clock; collection, blame
  and the ID of the next flush do.
- The agent opens the store, and so repairs it, before it takes the writer lock
  (`cmd/agent/main.go:81-87`); that no other writer is at work then is part of the same assumption.
- Writing one JSON file, renaming a directory and creating a directory are single steps. A write that
  reports failure has left the old file in place; `Hazards.PutWithHalfFailedIndexWrite` goes through a put
  whose index write takes effect all the same. Removing a tree takes one step per file, in any order.
- Reading a file that is present succeeds, or fails the whole open; a missing `snapshots/` or `.deleting/`
  directory is an empty one. When the index is rebuilt, a directory that is complete is read as complete.
- A reader that opens the store beside the agent may find `index.json` and `.deleting/` at two moments; one
  that has to rebuild the list scans `snapshots/` at a single moment.
- A call to the API server that reports an error has not taken effect; a timeout behind which the write went
  through is ruled out in `Rollback`.
- A process restarts with the same configured cadence or another; the buffer is then filled anew.
- Times are civil UTC fields on an order-preserving scale; the cutoff of a pass is a parameter.
- Go compares strings by bytes, which on valid UTF-8 is the order of code points used here.

## Where the code and its documents part

- `docs/adr/0004-rebuildable-index.md:43` says that startup repairs a crash between the metadata write and
  the index write. It does so exactly when the index file is missing or unreadable
  (`Hazards.FinishedDirIsListedExactlyWhenIndexIsLost`); from every run with a readable index file the next
  flush can be cut short so that its finished snapshot is missed (`Hazards.FinishedSnapshotIsMissed`).
- A deletion whose index write and whose restoring rename both fail leaves a listed entry with its only
  copy in the tombstone. The next collection pass deletes it again and discards that tombstone first: the
  entry stays listed without data (`StoreLaws.DeleteAgainAfterFailedRestore`, `StoreLaws.LostEntryStays`).
  Blame does not notice when it is a delta that leaves out the kind asked for: it reports rows for a history
  of which one state is gone (`Losses.LostDeltaMisleadsBlame`; `Losses.RunToCollectableDelta` leads there).
  A deletion keeps the data of an entry that stays listed, under every failure, exactly when the directory
  is under `snapshots/` at the call (`StoreLaws.DeleteKeepsDataExactlyWhen`). Over whole runs every listed
  entry loads exactly when it was not stranded so (`Promises.AnyOpenIsSound`), and entries are stranded
  exactly when some restore failed (`Promises.NothingIsStrandedExactlyWhen`).
- An orphan directory of a failed put is listed once the index file is lost and rebuilt, and blame then
  reports a change that the recorded history does not contain (`Orphans.RebuiltSiblingMisleadsBlame`;
  `Orphans.OrphanRun` leads there). After a collection that deleted a full snapshot but not its deltas,
  blame reports rows for states that cannot be rebuilt. While the index file was never lost, blame is right
  for every resource exactly when the list is in order, a full snapshot first and each delta behind the entry
  it is relative to, and every entry can be read (`Timelines.BlameIsRightExactlyInOrder`). Those two are enough
  also when the index was lost (`Timelines.InOrderAndReadableIsRight`). On any list,
  `Blame.RightExactlyWhenInStep` says when blame is right.
- The comment at `internal/cli/rollback.go:337` takes anything that starts with y for a yes. The code takes y
  and yes, in capitals or not, between white space, and nothing else (`Prompt.ConfirmsExactlyYes`);
  `Prompt.StartingWithYIsNotEnough` is a reply on which they differ.
- The comment at `internal/agent/snapshot.go:210-213` has collection follow full flushes; it runs before
  every flush attempt, and `Agent.Snapshotter.DoFlush` does the same.
- A failed flush silences the burst counter (`TODO.md:17-19`): `Burst.FailedFlushSilencesCounter` is one
  change that nothing announces any more. The counter covers the unsaved changes exactly when the last flush
  succeeded or had nothing stale to save (`Burst.CounterCoversUnsavedExactlyWhen`).

## Model

| member | source | states |
|---|---|---|
| Promises.ListedSnapshotsRebuild | internal/agent/snapshot.go:125-162 | At every point of every run, each snapshot the writer lists at or after the newest anchor rebuilds to the buffer captured for it, and no ID ever rebuilds to anything else |
| Promises.FlushedStateComesBack | internal/agent/snapshot.go:125-162 | The state of a successful flush comes back at every later point before an anchor passes it, and an open store lists it |
| Promises.AnyOpenIsSound | internal/storage/local.go:169-300 | Opened between any two filesystem operations, with the index intact or lost, the store lists all that must be available and no staged or final deletion; every listed entry loads with its original record exactly when no failed restore stranded it, and from the anchor on it rebuilds to what was captured |
| Promises.NothingIsStrandedExactlyWhen | internal/storage/local.go:427-436 | Entries are listed without their directory exactly when some deletion could neither go through nor be undone |
| Promises.RecordingStarts | internal/agent/snapshot.go:125-162 | Runs exist: from an unused store, any state can be recorded as the first full snapshot, is listed, and comes back |
| Promises.PutIsListedUntilDeleted | internal/storage/local.go:307-351 | A snapshot whose flush succeeded is listed by every open and loads as written, below the anchor too, until a step of the run is a deletion of it |
| Promises.LiveUntilDeleted | internal/agent/snapshot.go:262-271 | Only a deletion of an ID ends the promise that it is available |
| Promises.DeletedStaysDeleted | internal/storage/local.go:389-448 | A final deletion is never listed, loaded or resurrected by a rebuild |
| Promises.StagedDeletionIsFinal | internal/storage/local.go:204-246 | A deletion found staged when the store opens is final, even if that open is cut short |
| Visible.SeenIsTheEndOfARun | internal/storage/local.go:463-520 | Every state of the disk inside a step, also one that goes through, is where a run ends that was cut short there |
| Readers.SeenIsFaithful | internal/cli/reconstruct.go:36-63 | All disk states that can be seen during a run, between any two filesystem operations, agree with its one history |
| Readers.ReconstructBeside | internal/cli/reconstruct.go:25-65 | Beside the working agent, whatever disk states it comes across, a reconstruction returns the captured state or an error |
| Readers.BlameBeside | internal/cli/blame.go:134-193 | Beside the working agent, the index, the staged deletions and the entries each read at whatever moment, a pass that succeeds over a list in order reports the timeline of the captured states |
| Readers.ArchiveRebuilds | internal/cli/reconstruct.go:57-64 | Replaying the whole records of a history gives the captured state of every attempt |
| Promises.ChainFollowsCadence | internal/cli/reconstruct.go:36-63 | Rebuilding successful flush number n reads exactly n mod fullEvery + 1 records, so never more than fullEvery |
| Promises.CadenceHolds | internal/agent/snapshot.go:132-161 | Full and delta counts add up, full ones are the ceiling of n over fullEvery, and a delta's predecessor is listed and loads to the previous state |
| Promises.NeverWrong | internal/cli/reconstruct.go:25-65 | A reconstruction that succeeds returns what was captured, over as many records as the chain is deep |
| Promises.AvailableRebuilds | internal/cli/reconstruct.go:36-63 | From the anchor on every chain is closed: predecessors are available and lead to the captured state |
| Promises.RunGrows | internal/agent/snapshot.go:235-271 | History only grows, anchors only move forward, deletions stay, and what is at or after the anchor stays available |
| Timelines.TidyListIsWellFormed | internal/agent/snapshot.go:148-160 | While no index file was lost and the list starts at the anchor or later, each listed delta follows the entry it is relative to, and its kinds cover what it touches |
| Timelines.BlameIsRightExactlyInOrder | internal/cli/blame.go:134-193 | While the index file was never lost, blame over what any open lists is right for every resource if and only if the list starts at a full snapshot, each delta is behind the entry it is relative to, and every entry can be read |
| Timelines.InOrderAndReadableIsRight | internal/cli/blame.go:134-193 | In every run, index lost or not, a list in order whose entries can all be read gives the right timeline of every resource |
| Losses.LostDeltaIsSkipped | internal/cli/blame.go:159-162 | When the one unreadable entry is a delta that leaves out the target's kind, the pass succeeds although a listed state cannot be rebuilt |
| Losses.LostDeltaMisleadsBlame | internal/storage/local.go:417-436 | From every run with nothing staged, a delta that collection is about to delete can be lost by two failing deletions: every open lists the same as before, and blame reports rows for a history that cannot be rebuilt |
| Losses.RunToCollectableDelta | internal/agent/snapshot.go:235-271 | Such runs exist: full flush, delta, full flush, and a pass that takes the second full snapshot as its anchor |
| Runs.StepKeepsInv | internal/agent/snapshot.go:235-271 | Every step of the system keeps the invariant of the history, the disk, the list and the flush position |
| Runs.FlushedKeepsInv | internal/agent/snapshot.go:125-162 | A successful flush keeps it |
| Runs.FlushCrashedKeepsInv | internal/storage/local.go:463-490 | So does a flush stopped after any filesystem operation |
| Runs.DeletedKeepsInv | internal/storage/local.go:398-447 | So does a deletion, successful or failed at any step |
| Runs.DeleteCrashedKeepsInv | internal/storage/local.go:420-447 | So does a deletion stopped after any filesystem operation |
| Runs.ReopenedKeepsInv | internal/storage/local.go:73-82 | So does a restart, from an index file or a rebuilt list |
| Agent.Start | cmd/agent/main.go:81-102 | Opening the store and putting a snapshotter over it is a restart of the run, or an interrupted one; the snapshotter is valid and keeps the configured cadence and retention, brought up to one and zero |
| Agent.Snapshotter.constructor | internal/agent/snapshot.go:76-90 | A new snapshotter over a reopened store starts with a full turn and keeps the history of the run so far; a cadence below one counts as one |
| Agent.Snapshotter.Flush | internal/agent/snapshot.go:125-162 | A flush is a successful, or a failed, flush step of a run; every intermediate disk state lies in the window of its put; without faults it succeeds |
| Agent.Snapshotter.Gc | internal/agent/snapshot.go:235-280 | A pass settles on the last full snapshot not after the cutoff and tries to delete every entry before it, oldest first, whatever became of the others, every disk state seen in that run; it keeps everything from its anchor on, listed and on disk; there are at most as many superseded entries left over as faults happened |
| Agent.Snapshotter.DoFlush | internal/agent/snapshot.go:310-323 | Drain, then collect, then flush, as one run that ends in a flush step and in which every intermediate disk state is seen; the buffer sees a drain, then a capture, then the outcome; leftovers of the pass cost faults |
| Burst.WholeFlush | internal/agent/snapshot.go:310-323 | Drain, capture and outcome, in that order, between two other flushes are proper events; the counter restarts, and what was captured is what is saved, or the last save stays |
| Agent.FindAnchor | internal/agent/snapshot.go:248-253 | The last full snapshot not after the cutoff, or none |
| Collection.LeftoversAreBeforeAnchor | internal/agent/snapshot.go:248-271 | Every listed entry that an eligible full snapshot supersedes lies before the anchor, so no more are left over than are left before it |
| Agent.Buffer.Upsert | internal/agent/buffer.go:44-49 | One key changes, and the change is counted |
| Agent.Buffer.Delete | internal/agent/buffer.go:52-57 | One key goes, and a change is counted even when it was absent |
| Agent.Buffer.DrainChanges | internal/agent/buffer.go:69-75 | Returns the count and resets it, leaving the contents |
| Agent.Buffer.TakeSnapshot | internal/agent/buffer.go:84-92 | A copy equal to the contents |
| Burst.CounterMissesNothing | internal/agent/buffer.go:61-92 | For every interleaving with the drain-then-capture flush, outside that window the counter is at least the number of uncaptured changes, and zero means the last capture is accurate |
| Burst.CounterCoversUnsavedExactlyWhen | internal/agent/snapshot.go:310-323 | Outside a flush the counter is at least the number of unsaved changes if and only if the last flush succeeded or had nothing stale to save; then zero means the last save is accurate |
| Burst.FailedFlushSilencesCounter | TODO.md:17-19 | One change and a failed flush: the counter is zero and the change is not saved |
| Cadence.CeilStep | internal/agent/snapshot.go:132-161 | The number of full snapshots grows exactly on a full turn |
| Retention.OnlyOldSnapshotsGo | internal/agent/snapshot.go:262-271 | A pass drops only snapshots strictly older than the cutoff, and never the flush position |
| Retention.WindowKeepsItsSnapshots | internal/agent/snapshot.go:216-230 | For every time in the window, the last snapshot not after it is the same before and after, whichever deletions fail |
| Retention.WindowKeepsItsStates | internal/agent/snapshot.go:216-230 | And it rebuilds, or fails to, as before, also when the cutoff lies behind an earlier anchor; from the newest anchor on it is the captured state |
| Retention.WalkAbove | internal/cli/reconstruct.go:30-56 | Above a full snapshot the walk is the same on two disks that agree from it on |
| Retention.AnchorsMoveForwardExactlyWhen | internal/agent/snapshot.go:248-253 | The anchor a pass finds is not before the newest one if and only if its cutoff is not; with such a cutoff, once there was an anchor, one is found |
| Retention.SweptLeavesSuffix | internal/agent/snapshot.go:262-271 | A pass in which nothing failed leaves exactly the entries from its anchor on |
| Retention.NaiveTimelineAfterPass | internal/cli/blame.go:147-191 | Whatever failed in a pass and whatever is left below earlier anchors: the entries from its anchor on have the old timeline after the anchor, behind a CREATED row for what is present there |
| Retention.CollectionCommutesWithBlame | internal/cli/blame.go:134-193 | From what a pass without faults promises, over a list in order whose entries can all be read: blame's rows after the pass are a CREATED row at the anchor, exactly when the resource is present there, then its old rows after the anchor |
| Reconstruct.Reconstruct | internal/cli/reconstruct.go:25-65 | On a quiescent store it computes the reference state; beside a writer it returns what was captured for the ID, or an error |
| Reconstruct.WalkBack | internal/cli/reconstruct.go:30-56 | Terminates on any store, and finds the chain of records the PrevID links name, or the reference error |
| Reconstruct.Replay | internal/cli/reconstruct.go:57-64 | Applies the deltas oldest first onto the full snapshot |
| Reconstruct.Get | internal/storage/local.go:355-384 | Both file reads may see different states of the disk; what comes back was on it, in that order; an ID that is no plain name is refused |
| Reconstruct.ReadIsGenuine | internal/storage/local.go:355-384 | On disks of one history, both halves of a read belong to the one record of that ID |
| Reconstruct.ChainIsCaptured | internal/cli/reconstruct.go:36-63 | A chain read across any interleaving with the writer replays to the captured state |
| Reconstruct.StateAtIsTotal | internal/cli/reconstruct.go:25-65 | On any store, corrupt or not, it succeeds exactly when the links lead through distinct readable records to a full snapshot, and otherwise names a missing record, an empty PrevID or a cycle, truthfully |
| Reconstruct.StateAtDelta | internal/cli/reconstruct.go:57-64 | The state at a delta is its predecessor's state patched, and exists exactly when that one does |
| Blame.ComputeBlame | internal/cli/blame.go:134-193 | Computes the single pass, which on a well-formed history is the naive timeline, one row for each point at which the resource differs, saying how; beside a writer, a pass that succeeds is the pass over the whole records of the history |
| Blame.RowTellsOfChange | internal/cli/blame.go:176-187 | At a point there is a row exactly when the resource differs from the point before: CREATED with the new state when only here, REMOVED with the old state when only there, MODIFIED with the new state when in both |
| Blame.NaiveTellsChanges | internal/cli/blame.go:134-193 | The naive timeline is one such row for each point of change, in order, and no other |
| Blame.PassTracksStates | internal/cli/blame.go:147-191 | While deltas are in step, rows and last seen state are right, and the running state is right on the target's kind |
| Blame.RefinesNaive | internal/cli/blame.go:134-193 | On a well-formed history the pass with its kind skip emits exactly the rows of rebuilding every snapshot and comparing neighbours |
| Blame.RightExactlyWhenInStep | internal/cli/blame.go:147-191 | Over entries that load, the pass is right for every resource if and only if every listed state can be rebuilt and every delta leads there from the state listed before it |
| Blame.RefinesNaiveExactlyFromFull | internal/cli/blame.go:147-191 | With the predecessor of the first entry collected, it is right if and only if the list starts at a full snapshot |
| Blame.TimelineAfterCollection | internal/cli/blame.go:147-191 | Dropping the points before one of them restricts the timeline to later rows, after a CREATED row for what is present there |
| Timelines.KindsCoverTouched | internal/storage/local.go:702-714 | The kinds recorded for a delta contain the kind of every key it touches |
| Store.NewLocal | internal/storage/local.go:73-82 | Opening for writing lists the index or the rebuilt directories without staged deletions, clears the tombstones, and never leaves a state that lists differently; without faults the list is in the index file, unless it was rebuilt from nothing |
| Store.OpenForRead | internal/storage/local.go:98-107 | Opening for reading shows what a repaired store would list and changes nothing |
| Store.Local.LoadIndex | internal/storage/local.go:169-197 | Goes by a readable index, else rebuilds, then settles the staged deletions |
| Store.Local.RebuildIndex | internal/storage/local.go:254-300 | The list is exactly the complete, rightly named directories by time, then name; without faults a writer persists it, unless it is empty |
| Store.Local.ReconcileDeletions | internal/storage/local.go:204-246 | Drops the staged entries, persists the list before the first tombstone goes, and clears all tombstones |
| Store.Local.WriteSnapshot | internal/storage/local.go:463-490 | The whole directory, or nothing but remains that are a part of it; a taken ID is refused |
| Store.Local.AppendIndex | internal/storage/local.go:500-520 | Memory and index file gain the entry in time order together, or neither does |
| Store.Local.PutFull | internal/storage/local.go:307-328 | Done, failed or refused; every intermediate disk state lists the entry only when its directory is whole; in a put that goes through the metadata comes after the payload; one that fails through a single failing step leaves the disk as it was |
| Store.Local.PutDelta | internal/storage/local.go:331-351 | The same for a delta with its predecessor and the kinds it touches |
| Store.Local.Delete | internal/storage/local.go:389-448 | Until the index write the snapshot is whole in one place or the other; then it is out of the list and out of the snapshots directory; a success leaves no tombstone; an entry that a single failing step leaves listed is back in place; refused on a read-only store and for an ID that is no plain name |
| Store.SortedByTimeThenName | internal/storage/local.go:254-300 | Scanning by name and sorting stably by time orders by time, then name |
| StoreLaws.ListingIsUnique | internal/storage/local.go:98-107 | All opens of one disk state list the same: the read-only view is the repaired one |
| StoreLaws.OpenKeepsListing | internal/storage/local.go:204-246 | A crash anywhere inside an open changes nothing of what the next open lists |
| StoreLaws.ReopenIsIdempotent | internal/storage/local.go:73-82 | Opening for writing twice lists the same as once |
| StoreLaws.RebuildListsCompleteDirs | internal/storage/local.go:254-300 | A rebuilt list is exactly the complete, name-matching directories minus tombstones, in time order |
| Hazards.RebuiltListLoads | internal/storage/local.go:269-280 | On any disk, unreadable files included, a rebuilt list holds exactly the snapshots that load under their own name, apart from staged deletions |
| StoreLaws.AppendedIsOrdered | internal/storage/local.go:500-520 | The list after a put holds the old entries and the new one, strictly ascending |
| StoreLaws.PutKeepsIndexExactlyWhen | internal/storage/local.go:307-351 | Whatever fails, a put leaves memory equal to the index file and every listed directory untouched; the list stays ascending and free of repeats if and only if the put failed or no entry had its time or ID |
| StoreLaws.DeleteKeepsIndex | internal/storage/local.go:398-447 | So does a deletion |
| StoreLaws.CollidingPutIsRefused | internal/storage/local.go:468-472 | A put in a taken millisecond leaves store and list unchanged |
| StoreLaws.FailedDeleteKeepsData | internal/storage/local.go:398-447 | An entry that stays listed keeps its whole directory, if that was under the snapshots directory at the call |
| StoreLaws.DeleteAgainAfterFailedRestore | internal/storage/local.go:417-425 | Deleting an entry whose restore failed discards its only copy and still reports an error |
| StoreLaws.LostEntryStays | internal/storage/local.go:417-425 | From then on the entry is listed by every open and can never be deleted or loaded |
| StoreLaws.DeleteKeepsDataExactlyWhen | internal/storage/local.go:417-436 | All outcomes of a deletion keep the data of a listed entry if and only if its directory is under the snapshots directory at the call |
| StoreLaws.IndexOrderIsIdOrder | internal/storage/local.go:509-511 | A list with distinct IDs is ordered the same way by ID and by timestamp |
| Times.IdsEmbedTimeOrder | internal/storage/local.go:522-528 | IDs sort as text exactly as times sort by millisecond, and are equal exactly within one millisecond |
| Times.IdIsPlain | internal/storage/local.go:492-498 | IDs made from times pass the check on path elements |
| Times.PlainStaysInDirectory | internal/storage/local.go:492-498 | An ID passes the check if and only if its path leads to the entry of that very name inside the snapshots directory |
| Times.IdTellsTime | internal/storage/local.go:522-528 | The civil fields down to the millisecond can be read back from an ID |
| Times.RankIsTimeOrder | internal/storage/local.go:522-528 | The number scale carries the order of the civil fields |
| Delta.Compute | internal/delta/delta.go:45-66 | The difference in three parts: new keys added, changed ones modified, missing ones removed, each with its present state |
| Delta.Apply | internal/delta/delta.go:71-86 | Builds the patched snapshot |
| Delta.PatchUndoesDiff | internal/delta/delta.go:41-44 | Applying a computed delta to the old snapshot gives the new one |
| Delta.DiffIsMinimal | internal/delta/delta.go:45-66 | The parts are disjoint, and a key appears exactly when its state differs |
| Delta.DiffTellsThePartsApart | internal/delta/delta.go:51-64 | Added is exactly what is only in the new snapshot, removed what is only in the old one, modified what is in both and differs; states are the new ones |
| Delta.PatchAt | internal/delta/delta.go:71-86 | For any delta, also one whose parts overlap: modifications win over additions, and these over removals |
| Delta.PatchIsLocal | internal/delta/delta.go:71-86 | A delta changes nothing outside the keys it touches |
| Delta.ReplayReachesLastState | internal/delta/delta.go:71-86 | Replaying a chain of computed deltas of any length gives the last state |
| Delta.FilterByNamespace | internal/cli/diff.go:72-80 | Keeps exactly the keys of the namespace, with their states |
| Delta.FilterCommutesWithDiff | internal/cli/diff.go:60-65 | Filtering both snapshots first gives the filtered difference |
| Wire.KeyLessIsStrictTotalOrder | internal/storage/local.go:677-685 | The key order is a strict total order |
| Wire.KeysAreGrouped | internal/storage/local.go:677-685 | A sorted list goes by kind, within a kind by namespace, within a namespace by name |
| Sorting.StrLessIsLexicographic | internal/storage/local.go:677-685 | Texts compare by the first character that differs, a prefix coming first |
| Wire.SnapshotToWire | internal/storage/local.go:621-628 | The sorted list of the snapshot's entries, from which decoding gets the snapshot back |
| Wire.DeltaToWire | internal/storage/local.go:638-653 | Likewise for deltas |
| Wire.DecodeUndoesEncode | internal/storage/local.go:630-636 | Decoding the list of a map gives the map, for every map |
| Wire.LastEntryCounts | internal/storage/local.go:630-636 | Of several entries for one key the last one counts |
| Wire.DeltaRoundTrip | internal/storage/local.go:655-671 | Decoding a serialised delta gives the delta |
| Wire.DeltaEncodingIsCanonical | internal/storage/local.go:638-653 | Serialised deltas are equal exactly when the deltas are, whatever order the maps were visited in |
| Wire.EncodeUndoesDecode | internal/storage/local.go:621-636 | Reading a strictly sorted list and writing it again is the identity |
| Wire.SortedKinds | internal/storage/local.go:691-727 | The sorted kinds of exactly the given keys |
| Orphans.RebuiltSiblingMisleadsBlame | internal/storage/local.go:345-349 | A disk with an orphan delta and no index file is listed with the orphan, and blame invents a resource that is never reported removed |
| Orphans.OrphanRun | internal/storage/local.go:345-349 | A run leads to that disk: full flush, failed flush whose directory stays, delta, loss of the index file |
| Hazards.PutWithHalfFailedIndexWrite | internal/storage/local.go:558-562 | A put whose index write takes effect and reports failure: the list in memory is the old one, the index file names the entry, its directory is being removed |
| Hazards.HalfFailedPutDanglesUnlessWhole | internal/storage/local.go:558-562 | The next open lists the entry; it can be read if and only if the clean-up removed nothing of it |
| Hazards.FinishedDirIsListedExactlyWhenIndexIsLost | docs/adr/0004-rebuildable-index.md:43 | A finished directory that no readable index names is listed by the next open if and only if the index file is missing or unreadable |
| Hazards.FinishedSnapshotIsMissed | docs/adr/0004-rebuildable-index.md:43 | From every run with a readable index file the next flush can be cut short so that its finished snapshot is missed by every open |
| Rollback.RollBack | internal/cli/rollback.go:126-196 | What passes is one read, then for an object found (or a creation allowed) one preview of it, one question unless it was answered beforehand, and at most one write, which names the version previewed; a missing object, an abort, a payload that cannot be decoded or a conflict writes nothing; left alone, an agreed rollback takes effect |
| Rollback.WritesWhatWasShown | internal/cli/rollback.go:147-196 | In every such exchange nothing is read after the question; a write is the last event and follows the consent at once; it replaces exactly the object shown, and leaves exactly the payload shown |
| Rollback.UpdateFrom | internal/cli/rollback.go:147-195 | An update is previewed, needs consent, and replaces the previewed version or nothing |
| Prompt.ConfirmsExactlyYes | internal/cli/rollback.go:336-349 | A reply confirms if and only if it is y or yes, in capitals or not, between white space |
| Prompt.StartingWithYIsNotEnough | internal/cli/rollback.go:336-349 | A reply that starts with y and is refused |
| Rollback.CreateFrom | internal/cli/rollback.go:252-277 | A creation is previewed, needs consent, and replaces nothing |
| Rollback.Manifest.StripServerOwned | internal/cli/rollback.go:355-362 | Clears every server-owned field and keeps what the user declared |
| Sanitise.ExtractManagers | internal/agent/marshal.go:158-174 | The sorted distinct non-empty manager names |
| Sanitise.NoteTellsManagersExactlyWhen | internal/agent/marshal.go:148-152 | Splitting the note at its commas gives the managers' names back if and only if none of them holds a comma |
| Text.SplitUndoesJoin | internal/agent/marshal.go:148-152 | Splitting at commas undoes joining with commas |
| Sanitise.ObjectMeta.SanitiseMeta | internal/agent/marshal.go:139-153 | Version, managed fields, generation and noise annotations go, the managers are noted, the rest stays |
| Sanitise.ObjectMeta.SanitiseUnstructuredMeta | internal/agent/dynamic_informers.go:244-274 | The same on the dynamic path |
| Sanitise.IsNoiseAnnotationKey | internal/agent/dynamic_informers.go:279-289 | A key is noise exactly when it is a known key or has a known prefix |
| Sanitise.PathsAgree | internal/agent/dynamic_informers.go:240-274 | The typed and the dynamic path yield the same object, nil and empty annotations taken as one |
| Sanitise.SanitisingIsIdempotent | internal/agent/marshal.go:139-153 | Sanitising again changes nothing, on either path |
| Sanitise.SanitiseAlikeExactlyWhenSameIntent | internal/agent/marshal.go:122-138 | Two objects sanitise alike, on either path, if and only if body, managers' note and annotations other than noise agree |
| Sanitise.NoiseIsNotRecorded | internal/agent/marshal.go:122-138 | Objects that differ in version, generation, noise annotations, or order and repetition of managed fields give no delta entry |

## Left out

- Readers.BlameBeside: a pass that fails because an entry was deleted under it reports an error, about which nothing more is said.
- Store.NewLocal: the creation of the root directory and of `snapshots/`, whose absence reads as empty.
- Store.Local.RebuildIndex: a read error on a single directory, which skips that directory in the code.
- Agent.Snapshotter.Flush: the health flags and the log.
- Agent.Snapshotter.DoFlush: the ticker, the poll of the burst counter and the context; a flush may happen at any time.
- Rollback.RollBack: Deployments and ConfigMaps share one model, since their procedures differ in types only; the API server's validation of content, and the rendering of the preview, which the code also checks for errors.
- Sanitise.ObjectMeta.SanitiseMeta: the removal of the status block, which works on encoded JSON.
- Sanitise.NoiseIsNotRecorded: the JSON encoder is a parameter that sees nil and empty annotations alike.
- Temporary files, fsync of file contents, JSON and base64, and Go's calendar conversion.
- The writer lock, file permissions, and locks inside the process: one writer is an assumption.
- Informers, caches, the health server, kubeconfig and command-line plumbing, and all rendering.
- Parsing of resource names and keys, and configuration checks: single-branch facts.
