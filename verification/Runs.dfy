/**
 Whole runs of the recorder: buffer changes, flushes, collection, crashes between any two filesystem
 operations, restarts, and loss of the index file. One invariant carries the promise of the history.
 */
module Runs {
  import opened Sorting
  import opened Times
  import opened D = Delta
  import opened Files
  import opened Store
  import opened History
  import Cadence
  import StoreLaws

  /**
   The disk, the writer's memory while it is `up`, and the ghost bookkeeping: the history, the time of
   the newest collection anchor, the IDs that must be available, the IDs whose deletion is final, the IDs
   that a deletion left listed without their directory, and whether the index file was never lost.
   */
  datatype Sys = Sys(
    fs: Fs, up: bool, list: seq<Meta>, buf: Snapshot,
    prevState: Snapshot, prevID: Id, flushNum: nat, flushFull: nat, flushDelta: nat, fullEvery: nat,
    h: History, floor: int, live: set<Id>, gone: set<Id>, stranded: set<Id>, tidy: bool)

  // ---- steps ----------------------------------------------------------------------

  ghost predicate Mutated(a: Sys, b: Sys)
  {
    a.up && b == a.(buf := b.buf)
  }

  ghost predicate Stopped(a: Sys, b: Sys)
  {
    a.up && b == a.(up := false)
  }

  /** The clock is ahead of every earlier attempt by at least one millisecond. */
  ghost predicate ClockAhead(h: History, t: Time)
  {
    ValidTime(t) && forall id :: id in h ==> Millis(h[id].time) < Millis(t)
  }

  predicate FullTurn(a: Sys)
    requires a.fullEvery > 0
  {
    a.flushNum % a.fullEvery == 0
  }

  /** The record the next flush writes: a full one at its turn in the cadence, else a delta. */
  ghost predicate NextRecord(a: Sys, t: Time, rec: Record)
  {
    && a.up && a.fullEvery > 0 && ClockAhead(a.h, t)
    && if FullTurn(a) then FullRecord(rec, t, a.buf) else DeltaRecord(rec, t, a.prevID, Diff(a.prevState, a.buf))
  }

  function Tried(a: Sys, t: Time, rec: Record): History
  {
    var depth := if rec.payload.DeltaPayload? && a.prevID in a.h then a.h[a.prevID].depth + 1 else 1;
    a.h[rec.meta.id := Attempt(rec, a.buf, t, depth)]
  }

  ghost predicate Flushed(a: Sys, t: Time, rec: Record, b: Sys)
  {
    && NextRecord(a, t, rec)
    && PutDone(a.fs, a.list, rec, b.fs, b.list)
    && b == a.(fs := b.fs, list := b.list, h := Tried(a, t, rec), live := a.live + {rec.meta.id},
               prevState := a.buf, prevID := rec.meta.id, flushNum := a.flushNum + 1,
               flushFull := if FullTurn(a) then a.flushFull + 1 else a.flushFull,
               flushDelta := if FullTurn(a) then a.flushDelta else a.flushDelta + 1)
  }

  ghost predicate FlushFailed(a: Sys, t: Time, rec: Record, b: Sys)
  {
    && NextRecord(a, t, rec)
    && PutFailed(a.fs, a.list, rec, b.fs, a.list)
    && b == a.(fs := b.fs, h := Tried(a, t, rec))
  }

  ghost predicate FlushCrashed(a: Sys, t: Time, rec: Record, b: Sys)
  {
    && NextRecord(a, t, rec)
    && PutWindow(a.fs, a.list, rec, b.fs)
    && b == a.(fs := b.fs, up := false, h := Tried(a, t, rec))
  }

  function Max(x: int, y: int): int
  {
    if x < y then y else x
  }

  /** A collection settles on a listed full snapshot as its anchor. */
  ghost predicate Anchored(a: Sys, m: Meta, b: Sys)
  {
    a.up && m in a.list && m.kind.FullKind? && b == a.(floor := Max(a.floor, m.ts))
  }

  ghost predicate Collectable(a: Sys, id: Id)
  {
    a.up && exists m :: m in a.list && m.id == id && m.ts < a.floor
  }

  ghost predicate Deleted(a: Sys, id: Id, ok: bool, b: Sys)
  {
    && Collectable(a, id)
    && DeleteOutcome(a.fs, a.list, id, b.fs, b.list, ok)
    && b == a.(fs := b.fs, list := b.list, live := a.live - {id},
               gone := if b.list != a.list then a.gone + {id} else a.gone,
               stranded := if id in Ids(b.list) && id !in b.fs.snapshots then a.stranded + {id} else a.stranded)
  }

  ghost predicate DeleteCrashed(a: Sys, id: Id, b: Sys)
  {
    && Collectable(a, id)
    && DeleteWindow(a.fs, a.list, id, b.fs)
    && b == a.(fs := b.fs, up := false, live := a.live - {id},
               gone := if id in b.fs.deleting || DeleteCommitted(a.list, id, b.fs) then a.gone + {id} else a.gone)
  }

  ghost predicate IndexLost(a: Sys, b: Sys)
  {
    !b.fs.index.Data? && b == a.(fs := a.fs.(index := b.fs.index), tidy := false)
  }

  function ListedFrom(list: seq<Meta>, floor: int): set<Id>
  {
    set m | m in list && m.ts >= floor :: m.id
  }

  ghost predicate Reopened(a: Sys, base: seq<Meta>, b: Sys)
  {
    && !a.up && b.up && b.fullEvery > 0
    && OpenDone(a.fs, base, b.fs, b.list)
    && b == Sys(b.fs, true, b.list, b.buf, map[], "", 0, 0, 0, b.fullEvery,
                a.h, a.floor, a.live + ListedFrom(b.list, a.floor), a.gone + a.fs.deleting.Keys, a.stranded, a.tidy)
  }

  ghost predicate OpenInterrupted(a: Sys, base: seq<Meta>, b: Sys)
  {
    && !a.up && Base(a.fs, base) && OpenWindow(a.fs, base, b.fs)
    && b == a.(fs := b.fs, gone := a.gone + a.fs.deleting.Keys)
  }

  ghost predicate Step(a: Sys, b: Sys)
  {
    || Mutated(a, b) || Stopped(a, b) || IndexLost(a, b)
    || (exists t, rec :: Flushed(a, t, rec, b))
    || (exists t, rec :: FlushFailed(a, t, rec, b))
    || (exists t, rec :: FlushCrashed(a, t, rec, b))
    || (exists m :: Anchored(a, m, b))
    || (exists id, ok :: Deleted(a, id, ok, b))
    || (exists id :: DeleteCrashed(a, id, b))
    || (exists base :: Reopened(a, base, b))
    || (exists base :: OpenInterrupted(a, base, b))
  }

  ghost predicate Init(s: Sys)
  {
    && s.fs == EMPTY_FS && !s.up && s.h == map[] && s.floor == 0
    && s.live == {} && s.gone == {} && s.stranded == {} && s.tidy
  }

  ghost predicate IsRun(run: seq<Sys>)
  {
    run != [] && forall i {:trigger StepAt(run, i)} :: 0 <= i < |run| - 1 ==> StepAt(run, i)
  }

  ghost predicate StepAt(run: seq<Sys>, i: int)
    requires 0 <= i < |run| - 1
  {
    Step(run[i], run[i + 1])
  }

  // ---- the invariant -----------------------------------------------------------------

  /** `floor` is where an available full snapshot sits, and predecessors at or above it are available. */
  ghost predicate HistoryOk(h: History, floor: int, live: set<Id>)
  {
    && Genuine(h) && DistinctTimes(h) && NoFullBetween(h)
    && (forall id :: id in h ==> Ts(h, id) >= 0)
    && FloorOk(h, floor, live)
    && live <= h.Keys
    && (forall d {:trigger h[d].rec.meta.prev} | d in h && h[d].rec.payload.DeltaPayload?
                   && h[d].rec.meta.prev in h && Ts(h, h[d].rec.meta.prev) >= floor
          :: h[d].rec.meta.prev in live)
  }

  /** What an index file may hold: every entry is whole on disk, unless staged or stranded. */
  ghost predicate IndexOk(l: seq<Meta>, fs: Fs, h: History, live: set<Id>, gone: set<Id>, stranded: set<Id>)
  {
    && Listed(l, h) && live <= Ids(l)
    && (forall m :: m in l && m.id !in fs.deleting && m.id !in stranded ==> Complete(fs, h, m.id))
    && (forall m :: m in l && m.id in gone ==> m.id in fs.deleting)
  }

  /** What any disk state must satisfy, whenever the writer stops. */
  ghost predicate DiskOk(fs: Fs, h: History, live: set<Id>, gone: set<Id>, stranded: set<Id>)
  {
    && Faithful(fs, h)
    && fs.snapshots.Keys !! fs.deleting.Keys
    && (forall id :: id in live ==> Complete(fs, h, id))
    && gone !! fs.snapshots.Keys && gone <= h.Keys && stranded !! fs.snapshots.Keys && stranded <= h.Keys
    && (fs.index.Data? ==> IndexOk(fs.index.value, fs, h, live, gone, stranded))
  }

  /** The writer's list, the data behind it, and its agreement with the index file. */
  ghost predicate ListOk(s: Sys)
  {
    && Listed(s.list, s.h) && s.live <= Ids(s.list)
    && (forall m :: m in s.list && m.ts >= s.floor ==> m.id in s.live)
    && (forall m :: m in s.list && m.id !in s.stranded ==> Complete(s.fs, s.h, m.id))
    && (forall m :: m in s.list ==> m.id !in s.gone)
    && (s.fs.index.Data? ==> s.fs.index.value == s.list)
  }

  ghost predicate LastFullIsBefore(h: History, id: Id)
  {
    id in h && forall f :: f in h && h[f].rec.payload.FullPayload? ==> Ts(h, f) <= Ts(h, id)
  }

  ghost predicate CountsOk(s: Sys)
    requires s.fullEvery > 0
  {
    && s.flushFull + s.flushDelta == s.flushNum
    && s.flushFull == (s.flushNum + s.fullEvery - 1) / s.fullEvery
  }

  /** The snapshotter's position: the last listed snapshot, its state, and the cadence so far. */
  ghost predicate CursorOk(s: Sys)
  {
    && s.fullEvery > 0 && CountsOk(s)
    && (s.flushNum > 0 ==>
          && s.list != [] && s.list[|s.list| - 1].id == s.prevID && s.list[|s.list| - 1].ts >= s.floor
          && s.prevID in s.h && s.h[s.prevID].captured == s.prevState
          && s.h[s.prevID].depth == (s.flushNum - 1) % s.fullEvery + 1)
    && (!FullTurn(s) ==> LastFullIsBefore(s.h, s.prevID))
  }

  /** Nothing is listed between a delta and its predecessor. */
  ghost predicate NoListedBetween(l: seq<Meta>, h: History)
  {
    forall d, m :: d in l && m in l && d.kind.DeltaKind? && d.prev in h ==> !(Ts(h, d.prev) < m.ts < d.ts)
  }

  /** A predecessor that is still on disk is listed. */
  ghost predicate PredecessorsListed(l: seq<Meta>, fs: Fs, h: History)
  {
    forall d {:trigger h[d].rec.meta.prev} ::
      d in h && h[d].rec.payload.DeltaPayload? && h[d].rec.meta.prev in fs.snapshots ==>
        h[d].rec.meta.prev in Ids(l)
  }

  ghost predicate InSequence(l: seq<Meta>, fs: Fs, h: History)
  {
    NoListedBetween(l, h) && PredecessorsListed(l, fs, h)
  }

  /** While the index file was never lost, lists follow the order in which snapshots were written. */
  ghost predicate TidyOk(s: Sys)
  {
    && (s.up ==> InSequence(s.list, s.fs, s.h))
    && (s.fs.index.Data? ==> InSequence(s.fs.index.value, s.fs, s.h))
    && (!s.fs.index.Data? ==> forall id :: id in s.h ==> s.h[id].rec.payload.FullPayload?)
    && (s.up && s.flushNum > 0 ==> s.fs.index.Data?)
  }

  ghost predicate Inv(s: Sys)
  {
    && HistoryOk(s.h, s.floor, s.live)
    && DiskOk(s.fs, s.h, s.live, s.gone, s.stranded)
    && (forall id :: id in s.stranded && id in s.h ==> Ts(s.h, id) < s.floor)
    && (s.up ==> ListOk(s) && CursorOk(s))
    && (s.tidy ==> TidyOk(s))
  }

  // ---- an attempt is added to the history ------------------------------------------------

  ghost predicate Extends(h: History, h': History)
  {
    forall id :: id in h ==> id in h' && h'[id] == h[id]
  }

  lemma NewAttemptIsLast(h: History, t: Time, id: Id)
    requires Genuine(h) && ClockAhead(h, t)
    requires id in h
    ensures id != IdFromTime(t) && Ts(h, id) < Rank(t)
  {
    assert GenuineAttempt(h, id);
    IdsEmbedTimeOrder(h[id].time, t);
    RankIsTimeOrder(h[id].time, t);
    RankIsTimeOrder(t, t);
  }

  lemma AttemptStaysGenuine(h: History, h': History, id: Id)
    requires Extends(h, h') && id in h && GenuineAttempt(h, id)
    ensures GenuineAttempt(h', id)
  {
  }

  lemma RankIsNat(t: Time)
    requires ValidTime(t)
    ensures Rank(t) >= 0
  {
  }

  lemma FreshAttempt(h: History, t: Time)
    requires Genuine(h) && ClockAhead(h, t)
    ensures IdFromTime(t) !in h && Rank(t) >= 0 && forall x :: x in h ==> Ts(h, x) < Rank(t)
  {
    RankIsNat(t);
    forall x | x in h ensures x != IdFromTime(t) && Ts(h, x) < Rank(t) { NewAttemptIsLast(h, t, x); }
  }

  /** Off the full turn, the last listed snapshot is the predecessor, and it is available. */
  lemma PredecessorIsAvailable(a: Sys)
    requires ListOk(a) && CursorOk(a) && !FullTurn(a)
    ensures a.flushNum > 0 && a.prevID in a.live && a.prevID in a.h && a.h[a.prevID].captured == a.prevState
    ensures a.h[a.prevID].depth + 1 == a.flushNum % a.fullEvery + 1
    ensures Ts(a.h, a.prevID) >= a.floor
  {
    Cadence.ModStep(a.flushNum, a.fullEvery);
    var last := a.list[|a.list| - 1];
    assert last in a.list && last.id == a.prevID;
  }

  /** The new record is genuine: it leads from the predecessor's captured state to the buffer. */
  lemma NextRecordIsGenuine(a: Sys, t: Time, rec: Record)
    requires Genuine(a.h) && ListOk(a) && CursorOk(a) && NextRecord(a, t, rec)
    ensures GenuineAttempt(Tried(a, t, rec), rec.meta.id)
    ensures Tried(a, t, rec)[rec.meta.id].depth == a.flushNum % a.fullEvery + 1
    ensures FullTurn(a) <==> rec.payload.FullPayload?
  {
    FreshAttempt(a.h, t);
    if !FullTurn(a) {
      PredecessorIsAvailable(a);
      PatchUndoesDiff(a.prevState, a.buf);
    }
  }

  /** `h'` is `h` and one attempt later than all of it. */
  ghost predicate OneMore(h: History, h': History, id: Id)
  {
    && id !in h && id in h' && h' == h[id := h'[id]]
    && GenuineAttempt(h', id)
    && forall x :: x in h ==> Ts(h, x) < Ts(h', id)
  }

  lemma OneMoreIsGenuine(h: History, h': History, id: Id)
    requires Genuine(h) && OneMore(h, h', id)
    ensures Genuine(h') && Extends(h, h')
  {
    forall x | x in h' ensures GenuineAttempt(h', x) {
      if x != id { assert GenuineAttempt(h, x); AttemptStaysGenuine(h, h', x); }
    }
  }

  lemma OneMoreKeepsOrder(h: History, h': History, id: Id)
    requires Genuine(h) && DistinctTimes(h) && NoFullBetween(h) && OneMore(h, h', id)
    requires h'[id].rec.payload.DeltaPayload? ==> LastFullIsBefore(h, h'[id].rec.meta.prev)
    ensures DistinctTimes(h') && NoFullBetween(h')
  {
    assert forall x :: x in h ==> Ts(h', x) == Ts(h, x);
    forall d, f | d in h' && h'[d].rec.payload.DeltaPayload? && h'[d].rec.meta.prev in h'
               && f in h' && h'[f].rec.payload.FullPayload?
      ensures !(Ts(h', h'[d].rec.meta.prev) < Ts(h', f) < Ts(h', d))
    {
      if d != id { assert GenuineAttempt(h, d); }
    }
  }

  lemma OneMoreKeepsPredecessors(h: History, h': History, id: Id, floor: int, live: set<Id>)
    requires Genuine(h) && OneMore(h, h', id)
    requires h'[id].rec.payload.DeltaPayload? ==> h'[id].rec.meta.prev in live
    requires forall d {:trigger h[d].rec.meta.prev} | d in h && h[d].rec.payload.DeltaPayload?
                        && h[d].rec.meta.prev in h && Ts(h, h[d].rec.meta.prev) >= floor
               :: h[d].rec.meta.prev in live
    ensures forall d {:trigger h'[d].rec.meta.prev} | d in h' && h'[d].rec.payload.DeltaPayload?
                       && h'[d].rec.meta.prev in h' && Ts(h', h'[d].rec.meta.prev) >= floor
              :: h'[d].rec.meta.prev in live
  {
    forall d | d in h' && h'[d].rec.payload.DeltaPayload?
               && h'[d].rec.meta.prev in h' && Ts(h', h'[d].rec.meta.prev) >= floor
      ensures h'[d].rec.meta.prev in live
    {
      if d != id { assert GenuineAttempt(h, d); }
    }
  }

  /** `floor` is zero, or where an available full snapshot sits. */
  ghost predicate FloorOk(h: History, floor: int, live: set<Id>)
  {
    floor == 0 || exists f :: f in live && f in h && h[f].rec.payload.FullPayload? && Ts(h, f) == floor
  }

  lemma OneMoreKeepsFloor(h: History, h': History, id: Id, floor: int, live: set<Id>)
    requires OneMore(h, h', id) && FloorOk(h, floor, live)
    ensures FloorOk(h', floor, live)
  {
    if floor != 0 {
      var f :| f in live && f in h && h[f].rec.payload.FullPayload? && Ts(h, f) == floor;
      assert f in h' && h'[f] == h[f];
    }
  }

  lemma OneMoreKeepsClosure(h: History, h': History, id: Id, floor: int, live: set<Id>)
    requires HistoryOk(h, floor, live) && OneMore(h, h', id)
    requires h'[id].rec.payload.DeltaPayload? ==>
               h'[id].rec.meta.prev in live && LastFullIsBefore(h, h'[id].rec.meta.prev)
    requires Ts(h', id) >= 0
    ensures HistoryOk(h', floor, live)
  {
    OneMoreIsGenuine(h, h', id);
    OneMoreKeepsOrder(h, h', id);
    OneMoreKeepsPredecessors(h, h', id, floor, live);
    OneMoreKeepsFloor(h, h', id, floor, live);
  }

  /** Whether or not it succeeds, an attempt at the next record keeps the history in order. */
  lemma HistoryGrows(a: Sys, t: Time, rec: Record)
    requires HistoryOk(a.h, a.floor, a.live) && ListOk(a) && CursorOk(a) && NextRecord(a, t, rec)
    ensures HistoryOk(Tried(a, t, rec), a.floor, a.live)
    ensures OneMore(a.h, Tried(a, t, rec), rec.meta.id) && Extends(a.h, Tried(a, t, rec))
  {
    FreshAttempt(a.h, t);
    NextRecordIsGenuine(a, t, rec);
    OneMoreIsGenuine(a.h, Tried(a, t, rec), rec.meta.id);
    if !FullTurn(a) { PredecessorIsAvailable(a); }
    OneMoreKeepsClosure(a.h, Tried(a, t, rec), rec.meta.id, a.floor, a.live);
  }

  // ---- every state of the disk during a put ---------------------------------------------------

  lemma ListedGrows(l: seq<Meta>, h: History, h': History)
    requires Listed(l, h) && Extends(h, h')
    ensures Listed(l, h')
  {
  }

  /** Entries of a list end at the last attempt, so a later one goes to the end. */
  lemma AppendedAtEnd(l: seq<Meta>, h: History, h': History, id: Id)
    requires Genuine(h) && Listed(l, h) && OneMore(h, h', id)
    ensures var m := h'[id].rec.meta;
            Appended(l, m) == l + [m] && Listed(l + [m], h') && m.id == id
  {
    var m := h'[id].rec.meta;
    assert GenuineAttempt(h', id);
    forall x | x in l ensures x.ts < m.ts { assert Ts(h, x.id) < Ts(h', id); }
    StoreLaws.AppendedIsOrdered(l, m);
  }

  /** A put touches no directory but its own. */
  lemma PutWindowKeepsDirs(a: Fs, list: seq<Meta>, rec: Record, s: Fs)
    requires PutWindow(a, list, rec, s) && rec.meta.id !in a.snapshots
    ensures forall id :: id in a.snapshots ==> id in s.snapshots && s.snapshots[id] == a.snapshots[id]
    ensures forall id :: id in s.snapshots ==> id in a.snapshots || id == rec.meta.id
    ensures rec.meta.id in s.snapshots ==> Within(s.snapshots[rec.meta.id], WholeDir(rec))
    ensures s.deleting == a.deleting
  {
  }

  lemma PutKeepsComplete(a: Fs, s: Fs, h: History, h': History)
    requires Extends(h, h')
    requires forall id :: id in a.snapshots ==> id in s.snapshots && s.snapshots[id] == a.snapshots[id]
    ensures forall id :: id in h && Complete(a, h, id) ==> Complete(s, h', id)
  {
  }

  lemma PutKeepsFaithful(a: Fs, s: Fs, h: History, h': History, id: Id)
    requires Faithful(a, h) && Extends(h, h') && id in h'
    requires forall x :: x in a.snapshots ==> x in s.snapshots && s.snapshots[x] == a.snapshots[x]
    requires forall x :: x in s.snapshots ==> x in a.snapshots || x == id
    requires id !in a.snapshots && (id in s.snapshots ==> Within(s.snapshots[id], WholeDir(h'[id].rec)))
    requires s.deleting == a.deleting
    ensures Faithful(s, h')
  {
  }

  lemma PutWindowIsFaithful(a: Fs, list: seq<Meta>, rec: Record, s: Fs, h: History, h': History)
    requires Genuine(h) && Faithful(a, h) && OneMore(h, h', rec.meta.id) && h'[rec.meta.id].rec == rec
    requires PutWindow(a, list, rec, s)
    ensures Faithful(s, h') && rec.meta.id !in a.snapshots
    ensures forall id :: id in h && Complete(a, h, id) ==> Complete(s, h', id)
    ensures s.snapshots.Keys <= a.snapshots.Keys + {rec.meta.id}
  {
    assert rec.meta.id !in a.snapshots;
    OneMoreIsGenuine(h, h', rec.meta.id);
    PutWindowKeepsDirs(a, list, rec, s);
    PutKeepsComplete(a, s, h, h');
    PutKeepsFaithful(a, s, h, h', rec.meta.id);
  }

  lemma AppendedKeepsIds(list: seq<Meta>, m: Meta, live: set<Id>)
    requires live <= Ids(list)
    ensures live <= Ids(list + [m])
  {
    forall id | id in live ensures id in Ids(list + [m]) {
      var x :| x in list && x.id == id;
      assert x in list + [m];
    }
  }

  /** The index file after the new entry went in. */
  lemma AppendedIndexIsOk(list: seq<Meta>, rec: Record, s: Fs, h: History, h': History,
                          live: set<Id>, gone: set<Id>, stranded: set<Id>)
    requires Genuine(h) && OneMore(h, h', rec.meta.id) && h'[rec.meta.id].rec == rec && gone <= h.Keys
    requires Listed(list, h) && live <= Ids(list) && (forall m :: m in list ==> m.id !in gone)
    requires forall m :: m in list && m.id !in stranded ==> Complete(s, h', m.id)
    requires rec.meta.id in s.snapshots && s.snapshots[rec.meta.id] == WholeDir(rec)
    ensures Appended(list, rec.meta) == list + [rec.meta]
    ensures IndexOk(list + [rec.meta], s, h', live, gone, stranded)
  {
    AppendedAtEnd(list, h, h', rec.meta.id);
    AppendedKeepsIds(list, rec.meta, live);
  }

  lemma IndexStaysOk(l: seq<Meta>, a: Fs, s: Fs, h: History, h': History,
                     live: set<Id>, gone: set<Id>, stranded: set<Id>)
    requires IndexOk(l, a, h, live, gone, stranded) && Extends(h, h') && s.deleting == a.deleting
    requires forall id :: id in h && Complete(a, h, id) ==> Complete(s, h', id)
    ensures IndexOk(l, s, h', live, gone, stranded)
  {
    ListedGrows(l, h, h');
  }

  lemma PutWindowKeepsDisk(a: Fs, list: seq<Meta>, rec: Record, s: Fs, h: History, h': History,
                           live: set<Id>, gone: set<Id>, stranded: set<Id>)
    requires Genuine(h) && OneMore(h, h', rec.meta.id) && h'[rec.meta.id].rec == rec
    requires DiskOk(a, h, live, gone, stranded) && Extends(h, h')
    requires Listed(list, h) && live <= Ids(list) && (forall m :: m in list ==> m.id !in gone)
    requires forall m :: m in list && m.id !in stranded ==> Complete(a, h, m.id)
    requires PutWindow(a, list, rec, s)
    ensures DiskOk(s, h', live, gone, stranded)
  {
    PutWindowIsFaithful(a, list, rec, s, h, h');
    if s.index == a.index {
      if s.index.Data? { IndexStaysOk(s.index.value, a, s, h, h', live, gone, stranded); }
    } else {
      AppendedIndexIsOk(list, rec, s, h, h', live, gone, stranded);
    }
  }

  // ---- flushes keep the invariant ---------------------------------------------------------------

  lemma NothingListedBetweenGrows(l: seq<Meta>, h: History, h': History)
    requires NoListedBetween(l, h) && Listed(l, h) && Genuine(h) && Extends(h, h')
    ensures NoListedBetween(l, h')
  {
    forall d | d in l && d.kind.DeltaKind? ensures d.prev in h {
      assert GenuineAttempt(h, d.id);
    }
  }

  lemma LastIsLatest(l: seq<Meta>, m: Meta)
    requires StrictlySorted(TsLess, l) && m in l
    ensures m.ts <= l[|l| - 1].ts
  {
    var i :| 0 <= i < |l| && l[i] == m;
    TsMonotone(l, i, |l| - 1);
  }

  /** The predecessor of the next record is the last entry, so nothing is listed in between. */
  lemma NothingListedBetweenAppended(l: seq<Meta>, h: History, h': History, id: Id)
    requires NoListedBetween(l, h) && Listed(l, h) && Genuine(h) && Extends(h, h') && OneMore(h, h', id)
    requires h'[id].rec.payload.DeltaPayload? ==> l != [] && l[|l| - 1].id == h'[id].rec.meta.prev
    ensures NoListedBetween(l + [h'[id].rec.meta], h')
  {
    var m', l' := h'[id].rec.meta, l + [h'[id].rec.meta];
    NothingListedBetweenGrows(l, h, h');
    assert GenuineAttempt(h', id);
    forall m | m in l ensures m.ts < m'.ts { assert Ts(h, m.id) < Ts(h', id); }
    forall d, m | d in l' && m in l' && d.kind.DeltaKind? && d.prev in h'
      ensures !(Ts(h', d.prev) < m.ts < d.ts)
    {
      if m in l && d == m' { LastIsLatest(l, m); }
    }
  }

  /** An attempt adds at most its own directory, and its predecessor is listed. */
  lemma PredecessorsListedGrow(l: seq<Meta>, l': seq<Meta>, a: Fs, s: Fs, h: History, h': History, id: Id)
    requires PredecessorsListed(l, a, h) && Genuine(h) && OneMore(h, h', id)
    requires s.snapshots.Keys <= a.snapshots.Keys + {id} && Ids(l) <= Ids(l')
    requires h'[id].rec.payload.DeltaPayload? ==> h'[id].rec.meta.prev in Ids(l)
    ensures PredecessorsListed(l', s, h')
  {
    forall d | d in h' && h'[d].rec.payload.DeltaPayload? && h'[d].rec.meta.prev in s.snapshots
      ensures h'[d].rec.meta.prev in Ids(l')
    {
      if d != id { assert GenuineAttempt(h, d); }
    }
  }

  /** A list that stays as it is stays in sequence. */
  lemma AttemptKeepsSequence(l: seq<Meta>, a: Fs, s: Fs, h: History, h': History, id: Id)
    requires InSequence(l, a, h) && Listed(l, h) && Genuine(h) && Extends(h, h') && OneMore(h, h', id)
    requires s.snapshots.Keys <= a.snapshots.Keys + {id}
    requires h'[id].rec.payload.DeltaPayload? ==> h'[id].rec.meta.prev in Ids(l)
    ensures InSequence(l, s, h')
  {
    NothingListedBetweenGrows(l, h, h');
    PredecessorsListedGrow(l, l, a, s, h, h', id);
  }

  /** So does one that gains the new entry. */
  lemma AppendedKeepsSequence(l: seq<Meta>, a: Fs, s: Fs, h: History, h': History, id: Id)
    requires InSequence(l, a, h) && Listed(l, h) && Genuine(h) && Extends(h, h') && OneMore(h, h', id)
    requires s.snapshots.Keys <= a.snapshots.Keys + {id}
    requires h'[id].rec.payload.DeltaPayload? ==> l != [] && l[|l| - 1].id == h'[id].rec.meta.prev
    ensures InSequence(l + [h'[id].rec.meta], s, h')
  {
    var m := h'[id].rec.meta;
    NothingListedBetweenAppended(l, h, h', id);
    AppendedKeepsIds(l, m, Ids(l));
    if l != [] { assert l[|l| - 1] in l; }
    PredecessorsListedGrow(l, l + [m], a, s, h, h', id);
  }

  /** What the invariant lets us say about the next attempt, made or not. */
  ghost predicate Attempted(a: Sys, rec: Record, h': History)
  {
    var id := rec.meta.id;
    && a.fullEvery > 0
    && OneMore(a.h, h', id) && Extends(a.h, h')
    && h'[id].rec == rec && h'[id].captured == a.buf && h'[id].depth == a.flushNum % a.fullEvery + 1
    && rec.meta.ts >= a.floor
    && if FullTurn(a) then rec.payload.FullPayload?
       else rec.payload.DeltaPayload? && a.flushNum > 0 && rec.meta.prev == a.prevID && a.prevID in a.live
  }

  lemma NextRecordIsAttempted(a: Sys, t: Time, rec: Record)
    requires HistoryOk(a.h, a.floor, a.live) && ListOk(a) && CursorOk(a) && NextRecord(a, t, rec)
    ensures Attempted(a, rec, Tried(a, t, rec))
    ensures HistoryOk(Tried(a, t, rec), a.floor, a.live)
  {
    HistoryGrows(a, t, rec);
    FreshAttempt(a.h, t);
    NextRecordIsGenuine(a, t, rec);
    FloorIsReached(a.h, Tried(a, t, rec), rec.meta.id, a.floor, a.live);
    if !FullTurn(a) { PredecessorIsAvailable(a); }
  }

  lemma FloorIsReached(h: History, h': History, id: Id, floor: int, live: set<Id>)
    requires HistoryOk(h, floor, live) && OneMore(h, h', id) && Ts(h', id) >= 0
    ensures Ts(h', id) >= floor
  {
    if floor != 0 {
      var f :| f in live && f in h && h[f].rec.payload.FullPayload? && Ts(h, f) == floor;
      assert Ts(h, f) < Ts(h', id);
    }
  }

  /** The list, and the availability of its entries, after a put that succeeded. */
  lemma PutDoneKeepsList(a: Sys, rec: Record, b: Sys)
    requires ListOk(a) && rec.meta.id !in a.gone && Extends(a.h, b.h)
    requires forall id :: id in a.h && Complete(a.fs, a.h, id) ==> Complete(b.fs, b.h, id)
    requires Complete(b.fs, b.h, rec.meta.id) && Listed(b.list, b.h)
    requires b.list == a.list + [rec.meta] && b.fs.index == Data(b.list)
    requires b.live == a.live + {rec.meta.id} && b.floor == a.floor && b.gone == a.gone && b.stranded == a.stranded
    ensures ListOk(b)
  {
    AppendedKeepsIds(a.list, rec.meta, a.live);
    assert rec.meta in b.list;
  }

  lemma MoreLiveKeepsDisk(fs: Fs, h: History, live: set<Id>, live': set<Id>, gone: set<Id>, stranded: set<Id>)
    requires DiskOk(fs, h, live, gone, stranded)
    requires forall id :: id in live' ==> Complete(fs, h, id)
    requires fs.index.Data? ==> live' <= Ids(fs.index.value)
    ensures DiskOk(fs, h, live', gone, stranded)
  {
  }

  lemma PutDoneKeepsDisk(a: Sys, rec: Record, s: Fs, h': History)
    requires Genuine(a.h) && ListOk(a) && DiskOk(a.fs, a.h, a.live, a.gone, a.stranded)
    requires OneMore(a.h, h', rec.meta.id) && Extends(a.h, h') && h'[rec.meta.id].rec == rec
    requires PutWindow(a.fs, a.list, rec, s) && s.index == Data(a.list + [rec.meta]) && Complete(s, h', rec.meta.id)
    ensures DiskOk(s, h', a.live + {rec.meta.id}, a.gone, a.stranded)
    ensures forall id :: id in a.h && Complete(a.fs, a.h, id) ==> Complete(s, h', id)
  {
    PutWindowIsFaithful(a.fs, a.list, rec, s, a.h, h');
    PutWindowKeepsDisk(a.fs, a.list, rec, s, a.h, h', a.live, a.gone, a.stranded);
    AppendedKeepsIds(a.list, rec.meta, a.live);
    assert rec.meta in a.list + [rec.meta];
    MoreLiveKeepsDisk(s, h', a.live, a.live + {rec.meta.id}, a.gone, a.stranded);
  }

  lemma PutDoneIsInWindow(a: Fs, list: seq<Meta>, rec: Record, b: Fs, list': seq<Meta>)
    requires PutDone(a, list, rec, b, list')
    ensures PutWindow(a, list, rec, b) && b.index == Data(Appended(list, rec.meta))
    ensures rec.meta.id in b.snapshots && b.snapshots[rec.meta.id] == WholeDir(rec)
  {
  }

  lemma FlushedKeepsCursor(a: Sys, rec: Record, b: Sys)
    requires a.fullEvery > 0 && CountsOk(a) && Attempted(a, rec, b.h)
    requires b.list == a.list + [rec.meta] && b.floor == a.floor
    requires b.fullEvery == a.fullEvery && b.flushNum == a.flushNum + 1
    requires b.prevID == rec.meta.id && b.prevState == a.buf
    requires b.flushFull == (if FullTurn(a) then a.flushFull + 1 else a.flushFull)
    requires b.flushDelta == (if FullTurn(a) then a.flushDelta else a.flushDelta + 1)
    ensures CursorOk(b)
  {
    Cadence.CeilStep(a.flushNum, a.fullEvery);
    var id := rec.meta.id;
    assert b.list[|b.list| - 1] == rec.meta;
    forall f | f in b.h && b.h[f].rec.payload.FullPayload? ensures Ts(b.h, f) <= Ts(b.h, id) {
      if f != id { assert Ts(a.h, f) < Ts(b.h, id); }
    }
  }

  lemma FlushedKeepsTidy(a: Sys, rec: Record, b: Sys)
    requires Genuine(a.h) && ListOk(a) && CursorOk(a) && TidyOk(a) && a.up && Attempted(a, rec, b.h)
    requires b.list == a.list + [rec.meta] && b.fs.index == Data(b.list)
    requires b.fs.snapshots.Keys <= a.fs.snapshots.Keys + {rec.meta.id}
    ensures TidyOk(b)
  {
    AppendedKeepsSequence(a.list, a.fs, b.fs, a.h, b.h, rec.meta.id);
  }

  /** What a stop can find of strandings: they lie below the anchor. */
  lemma StrandedStaysBelow(h: History, h': History, floor: int, stranded: set<Id>)
    requires Extends(h, h') && stranded <= h.Keys && forall id :: id in stranded && id in h ==> Ts(h, id) < floor
    ensures forall id :: id in stranded && id in h' ==> Ts(h', id) < floor
  {
  }

  lemma FlushedKeepsDiskAndList(a: Sys, t: Time, rec: Record, b: Sys)
    requires Genuine(a.h) && ListOk(a) && DiskOk(a.fs, a.h, a.live, a.gone, a.stranded)
    requires Attempted(a, rec, b.h) && Flushed(a, t, rec, b)
    ensures b.list == a.list + [rec.meta] && ListOk(b) && DiskOk(b.fs, b.h, b.live, b.gone, b.stranded)
  {
    AppendedAtEnd(a.list, a.h, b.h, rec.meta.id);
    PutDoneIsInWindow(a.fs, a.list, rec, b.fs, b.list);
    PutDoneKeepsDisk(a, rec, b.fs, b.h);
    PutDoneKeepsList(a, rec, b);
  }

  lemma FlushedKeepsInv(a: Sys, t: Time, rec: Record, b: Sys)
    requires Inv(a) && Flushed(a, t, rec, b)
    ensures Inv(b)
  {
    NextRecordIsAttempted(a, t, rec);
    FlushedKeepsDiskAndList(a, t, rec, b);
    assert HistoryOk(b.h, b.floor, b.live) by { FlushedKeepsHistory(a.h, b.h, a.floor, a.live, rec.meta.id); }
    assert CursorOk(b) by { FlushedKeepsCursor(a, rec, b); }
    if a.tidy { FlushedKeepsTidy(a, rec, b); }
    StrandedStaysBelow(a.h, b.h, a.floor, a.stranded);
  }

  lemma FlushedKeepsHistory(h: History, h': History, floor: int, live: set<Id>, id: Id)
    requires HistoryOk(h', floor, live) && id in h'
    ensures HistoryOk(h', floor, live + {id})
  {
  }

  lemma PrevIsListed(a: Sys, rec: Record, h': History)
    requires ListOk(a) && CursorOk(a) && Attempted(a, rec, h') && rec.payload.DeltaPayload?
    ensures a.list != [] && a.list[|a.list| - 1].id == rec.meta.prev && rec.meta.prev in Ids(a.list)
  {
    assert a.list[|a.list| - 1] in a.list;
  }

  /** The next record is one more, and its predecessor is the last entry. */
  ghost predicate Follows(l: seq<Meta>, h: History, h': History, id: Id)
  {
    && OneMore(h, h', id) && Extends(h, h')
    && (h'[id].rec.payload.DeltaPayload? ==> l != [] && l[|l| - 1].id == h'[id].rec.meta.prev)
  }

  lemma AttemptFollows(a: Sys, rec: Record, h': History)
    requires ListOk(a) && CursorOk(a) && Attempted(a, rec, h')
    ensures Follows(a.list, a.h, h', rec.meta.id) && h'[rec.meta.id].rec == rec
  {
    if rec.payload.DeltaPayload? { PrevIsListed(a, rec, h'); }
  }

  lemma ListInSequenceAfterAttempt(l: seq<Meta>, a: Fs, s: Fs, h: History, h': History, id: Id)
    requires InSequence(l, a, h) && Listed(l, h) && Genuine(h) && Follows(l, h, h', id)
    requires s.snapshots.Keys <= a.snapshots.Keys + {id}
    ensures InSequence(l, s, h') && InSequence(l + [h'[id].rec.meta], s, h')
  {
    if l != [] { assert l[|l| - 1] in l; }
    AttemptKeepsSequence(l, a, s, h, h', id);
    AppendedKeepsSequence(l, a, s, h, h', id);
  }

  /** Without an index file nothing but full snapshots has been tried. */
  lemma OnlyFullsAfterAttempt(a: Sys, rec: Record, h': History)
    requires a.fullEvery > 0 && a.flushNum == 0 && Attempted(a, rec, h')
    requires forall id :: id in a.h ==> a.h[id].rec.payload.FullPayload?
    ensures forall id :: id in h' ==> h'[id].rec.payload.FullPayload?
  {
    assert FullTurn(a);
  }

  /** An attempt that did not complete, while the writer goes on or not. */
  lemma AttemptKeepsTidy(a: Sys, rec: Record, b: Sys)
    requires Genuine(a.h) && ListOk(a) && CursorOk(a) && TidyOk(a) && a.up && Attempted(a, rec, b.h)
    requires b.fs.index == a.fs.index || b.fs.index == Data(a.list + [rec.meta])
    requires b.fs.snapshots.Keys <= a.fs.snapshots.Keys + {rec.meta.id}
    requires b.up ==> b.list == a.list && b.flushNum == a.flushNum && b.fs.index == a.fs.index
    ensures TidyOk(b)
  {
    AttemptFollows(a, rec, b.h);
    ListInSequenceAfterAttempt(a.list, a.fs, b.fs, a.h, b.h, rec.meta.id);
    if !b.fs.index.Data? { OnlyFullsAfterAttempt(a, rec, b.h); }
  }

  /** The position is kept by an attempt that failed, since the cadence slot is tried again. */
  lemma AttemptKeepsCursor(a: Sys, b: Sys)
    requires CursorOk(a) && Extends(a.h, b.h) && b == a.(fs := b.fs, h := b.h)
    requires !FullTurn(a) ==> forall f :: f in b.h && b.h[f].rec.payload.FullPayload? ==> f in a.h
    ensures CursorOk(b)
  {
  }

  lemma DeltaTurnAddsNoFull(a: Sys, rec: Record, h': History)
    requires Attempted(a, rec, h') && !FullTurn(a)
    ensures forall f :: f in h' && h'[f].rec.payload.FullPayload? ==> f in a.h
  {
  }

  /** The disk after an attempt that did not complete. */
  lemma AttemptKeepsDisk(a: Sys, rec: Record, s: Fs, h': History)
    requires Genuine(a.h) && ListOk(a) && DiskOk(a.fs, a.h, a.live, a.gone, a.stranded)
    requires Attempted(a, rec, h') && PutWindow(a.fs, a.list, rec, s)
    ensures DiskOk(s, h', a.live, a.gone, a.stranded)
    ensures s.snapshots.Keys <= a.fs.snapshots.Keys + {rec.meta.id}
    ensures forall id :: id in a.h && Complete(a.fs, a.h, id) ==> Complete(s, h', id)
    ensures Appended(a.list, rec.meta) == a.list + [rec.meta]
  {
    AppendedAtEnd(a.list, a.h, h', rec.meta.id);
    PutWindowIsFaithful(a.fs, a.list, rec, s, a.h, h');
    PutWindowKeepsDisk(a.fs, a.list, rec, s, a.h, h', a.live, a.gone, a.stranded);
  }

  lemma AttemptKeepsList(a: Sys, b: Sys)
    requires ListOk(a) && Extends(a.h, b.h) && b == a.(fs := b.fs, h := b.h) && b.fs.index == a.fs.index
    requires forall id :: id in a.h && Complete(a.fs, a.h, id) ==> Complete(b.fs, b.h, id)
    ensures ListOk(b)
  {
    ListedGrows(a.list, a.h, b.h);
  }

  lemma FlushFailedKeepsInv(a: Sys, t: Time, rec: Record, b: Sys)
    requires Inv(a) && FlushFailed(a, t, rec, b)
    ensures Inv(b)
  {
    NextRecordIsAttempted(a, t, rec);
    AttemptKeepsDisk(a, rec, b.fs, b.h);
    AttemptKeepsList(a, b);
    assert CursorOk(b) by {
      if !FullTurn(a) { DeltaTurnAddsNoFull(a, rec, b.h); }
      AttemptKeepsCursor(a, b);
    }
    if a.tidy { AttemptKeepsTidy(a, rec, b); }
    StrandedStaysBelow(a.h, b.h, a.floor, a.stranded);
  }

  /** An interrupted flush: only the history, one directory, and perhaps the index file have changed. */
  lemma FlushCrashedKeepsInv(a: Sys, t: Time, rec: Record, b: Sys)
    requires Inv(a) && FlushCrashed(a, t, rec, b)
    ensures Inv(b)
  {
    NextRecordIsAttempted(a, t, rec);
    AttemptKeepsDisk(a, rec, b.fs, b.h);
    if a.tidy { AttemptKeepsTidy(a, rec, b); }
    StrandedStaysBelow(a.h, b.h, a.floor, a.stranded);
  }

  // ---- collection keeps the invariant -----------------------------------------------------------------

  lemma AnchorIsFloor(a: Sys, m: Meta, floor': int)
    requires HistoryOk(a.h, a.floor, a.live) && ListOk(a) && m in a.list && m.kind.FullKind?
    requires floor' == Max(a.floor, m.ts)
    ensures HistoryOk(a.h, floor', a.live)
  {
    assert GenuineAttempt(a.h, m.id) && Ts(a.h, m.id) == m.ts;
  }

  lemma AnchoredKeepsCursor(a: Sys, m: Meta, b: Sys)
    requires CursorOk(a) && Listed(a.list, a.h) && Anchored(a, m, b)
    ensures CursorOk(b)
  {
    var i :| 0 <= i < |a.list| && a.list[i] == m;
    TsMonotone(a.list, i, |a.list| - 1);
  }

  lemma AnchoredKeepsInv(a: Sys, m: Meta, b: Sys)
    requires Inv(a) && Anchored(a, m, b)
    ensures Inv(b)
  {
    AnchorIsFloor(a, m, b.floor);
    AnchoredKeepsCursor(a, m, b);
  }

  lemma DeleteWindowIsFaithful(a: Fs, list: seq<Meta>, id: Id, s: Fs, h: History)
    requires Faithful(a, h) && a.snapshots.Keys !! a.deleting.Keys && DeleteWindow(a, list, id, s)
    ensures Faithful(s, h) && s.snapshots.Keys !! s.deleting.Keys
    ensures s.snapshots.Keys <= a.snapshots.Keys
    ensures forall x :: x != id && Complete(a, h, x) ==> Complete(s, h, x)
  {
  }

  lemma WithoutListed(l: seq<Meta>, h: History, id: Id)
    requires Listed(l, h)
    ensures Listed(Without(l, {id}), h)
  {
    WithoutSorted(TsLess, l, {id});
  }

  /** An index file that still lists the entry being deleted. */
  lemma DeleteKeepsIndexFile(a: Fs, list: seq<Meta>, id: Id, s: Fs, h: History,
                             live: set<Id>, gone: set<Id>, gone': set<Id>, stranded: set<Id>)
    requires IndexOk(list, a, h, live, gone, stranded) && DeleteWindow(a, list, id, s)
    requires forall x :: x != id && Complete(a, h, x) ==> Complete(s, h, x)
    requires (forall m :: m in list ==> m.id !in gone)
    requires forall m :: m in list && m.id !in stranded ==> Complete(a, h, m.id)
    requires id in Ids(list) && !DeleteCommitted(list, id, s)
    requires gone' == gone || (gone' == gone + {id} && id in s.deleting)
    ensures IndexOk(list, s, h, live - {id}, gone', stranded)
  {
  }

  /** The index file once the entry is out. */
  lemma CommittedIndexIsOk(a: Fs, list: seq<Meta>, id: Id, s: Fs, h: History,
                           live: set<Id>, gone: set<Id>, gone': set<Id>, stranded: set<Id>)
    requires Listed(list, h) && live <= Ids(list) && DeleteCommitted(list, id, s)
    requires forall x :: x != id && Complete(a, h, x) ==> Complete(s, h, x)
    requires (forall m :: m in list ==> m.id !in gone)
    requires forall m :: m in list && m.id !in stranded ==> Complete(a, h, m.id)
    requires gone' <= gone + {id}
    ensures IndexOk(Without(list, {id}), s, h, live - {id}, gone', stranded)
  {
    WithoutListed(list, h, id);
    WithoutKeepsIds(list, id, live);
  }

  lemma WithoutKeepsIds(list: seq<Meta>, id: Id, live: set<Id>)
    requires live <= Ids(list)
    ensures live - {id} <= Ids(Without(list, {id}))
  {
    forall x | x in live - {id} ensures x in Ids(Without(list, {id})) {
      var m :| m in list && m.id == x;
      assert m in Without(list, {id});
    }
  }

  lemma DeleteWindowKeepsDisk(a: Fs, list: seq<Meta>, id: Id, s: Fs, h: History,
                              live: set<Id>, gone: set<Id>, gone': set<Id>, stranded: set<Id>)
    requires DiskOk(a, h, live, gone, stranded) && DeleteWindow(a, list, id, s)
    requires Listed(list, h) && live <= Ids(list) && (forall m :: m in list ==> m.id !in gone)
    requires forall m :: m in list && m.id !in stranded ==> Complete(a, h, m.id)
    requires a.index.Data? ==> a.index.value == list
    requires id in h && id in Ids(list)
    requires gone' == gone || (gone' == gone + {id} && (id in s.deleting || DeleteCommitted(list, id, s)))
    ensures DiskOk(s, h, live - {id}, gone', stranded)
  {
    DeleteWindowIsFaithful(a, list, id, s, h);
    if DeleteCommitted(list, id, s) {
      CommittedIndexIsOk(a, list, id, s, h, live, gone, gone', stranded);
    } else if s.index.Data? {
      DeleteKeepsIndexFile(a, list, id, s, h, live, gone, gone', stranded);
    }
  }

  /** An entry that stays listed without its directory is stranded. */
  lemma StrandingKeepsDisk(fs: Fs, h: History, live: set<Id>, gone: set<Id>, stranded: set<Id>, id: Id)
    requires DiskOk(fs, h, live, gone, stranded) && id !in fs.snapshots && id in h
    ensures DiskOk(fs, h, live, gone, stranded + {id})
  {
  }

  lemma CollectableIsOld(a: Sys, id: Id)
    requires Collectable(a, id) && ListOk(a)
    ensures id in a.h && Ts(a.h, id) < a.floor && id in Ids(a.list)
    ensures CursorOk(a) && a.flushNum > 0 ==> id != a.prevID
  {
    var m :| m in a.list && m.id == id && m.ts < a.floor;
    if CursorOk(a) && a.flushNum > 0 {
      var last := a.list[|a.list| - 1];
      assert last in a.list;
    }
  }

  lemma {:induction false} WithoutKeepsLast(l: seq<Meta>, id: Id)
    requires l != [] && l[|l| - 1].id != id
    ensures Without(l, {id}) != [] && Without(l, {id})[|Without(l, {id})| - 1] == l[|l| - 1]
  {
  }

  /** Entries other than the one deleted keep their data; that one keeps it, or is stranded. */
  lemma DeletedKeepsList(a: Sys, id: Id, ok: bool, b: Sys)
    requires ListOk(a) && DiskOk(a.fs, a.h, a.live, a.gone, a.stranded) && Deleted(a, id, ok, b)
    requires id in a.h && Ts(a.h, id) < a.floor
    ensures ListOk(b)
  {
    DeleteWindowIsFaithful(a.fs, a.list, id, b.fs, a.h);
    if b.list == a.list {
      KeptEntryIsWhole(a, id, ok, b);
    } else {
      WithoutListed(a.list, a.h, id);
      WithoutKeepsIds(a.list, id, a.live);
    }
  }

  lemma KeptEntryIsWhole(a: Sys, id: Id, ok: bool, b: Sys)
    requires ListOk(a) && Deleted(a, id, ok, b) && b.list == a.list && id in Ids(a.list)
    requires forall x :: x != id && Complete(a.fs, a.h, x) ==> Complete(b.fs, b.h, x)
    ensures forall m :: m in b.list && m.id !in b.stranded ==> Complete(b.fs, b.h, m.id)
  {
    forall m | m in b.list && m.id !in b.stranded ensures Complete(b.fs, b.h, m.id) {
      assert Complete(a.fs, a.h, m.id);
    }
  }

  lemma DeletedKeepsCursor(a: Sys, id: Id, b: Sys)
    requires CursorOk(a) && b == a.(fs := b.fs, list := b.list, live := b.live, gone := b.gone, stranded := b.stranded)
    requires b.list == a.list || b.list == Without(a.list, {id})
    requires a.flushNum > 0 ==> id != a.prevID
    ensures CursorOk(b)
  {
    if a.flushNum > 0 { WithoutKeepsLast(a.list, id); }
  }

  lemma FewerDirsKeepSequence(l: seq<Meta>, a: Fs, s: Fs, h: History)
    requires InSequence(l, a, h) && s.snapshots.Keys <= a.snapshots.Keys
    ensures InSequence(l, s, h)
  {
  }

  lemma WithoutKeepsSequence(l: seq<Meta>, a: Fs, s: Fs, h: History, id: Id)
    requires InSequence(l, a, h) && s.snapshots.Keys <= a.snapshots.Keys && id !in s.snapshots
    ensures InSequence(Without(l, {id}), s, h)
  {
    WithoutKeepsIds(l, id, Ids(l));
  }

  lemma DeleteKeepsTidy(a: Sys, id: Id, b: Sys)
    requires TidyOk(a) && a.up && ListOk(a) && DeleteWindow(a.fs, a.list, id, b.fs)
    requires b.h == a.h && b.fs.snapshots.Keys <= a.fs.snapshots.Keys
    requires b.up ==> b.list == a.list || (b.list == Without(a.list, {id}) && id !in b.fs.snapshots)
    requires b.up ==> b.flushNum == a.flushNum
    ensures TidyOk(b)
  {
    FewerDirsKeepSequence(a.list, a.fs, b.fs, a.h);
    if id !in b.fs.snapshots { WithoutKeepsSequence(a.list, a.fs, b.fs, a.h, id); }
  }

  lemma DeletedKeepsDisk(a: Sys, id: Id, ok: bool, b: Sys)
    requires DiskOk(a.fs, a.h, a.live, a.gone, a.stranded) && ListOk(a) && Deleted(a, id, ok, b)
    requires id in a.h && id in Ids(a.list)
    ensures DiskOk(b.fs, b.h, b.live, b.gone, b.stranded)
    ensures b.fs.snapshots.Keys <= a.fs.snapshots.Keys
  {
    DeleteWindowIsFaithful(a.fs, a.list, id, b.fs, a.h);
    DeleteWindowKeepsDisk(a.fs, a.list, id, b.fs, a.h, a.live, a.gone, b.gone, a.stranded);
    if b.stranded != a.stranded { StrandingKeepsDisk(b.fs, b.h, b.live, b.gone, a.stranded, id); }
  }

  lemma DeletedStrandsBelow(a: Sys, id: Id, ok: bool, b: Sys)
    requires Deleted(a, id, ok, b) && id in a.h && Ts(a.h, id) < a.floor
    requires forall x :: x in a.stranded && x in a.h ==> Ts(a.h, x) < a.floor
    ensures forall x :: x in b.stranded && x in b.h ==> Ts(b.h, x) < b.floor
  {
  }

  lemma DeletedKeepsInv(a: Sys, id: Id, ok: bool, b: Sys)
    requires Inv(a) && Deleted(a, id, ok, b)
    ensures Inv(b)
  {
    CollectableIsOld(a, id);
    assert HistoryOk(b.h, b.floor, b.live) by { DeletedKeepsHistory(a.h, a.floor, a.live, id); }
    assert DiskOk(b.fs, b.h, b.live, b.gone, b.stranded) by { DeletedKeepsDisk(a, id, ok, b); }
    assert ListOk(b) by { DeletedKeepsList(a, id, ok, b); }
    assert CursorOk(b) by { DeletedKeepsCursor(a, id, b); }
    DeletedStrandsBelow(a, id, ok, b);
    if a.tidy { DeletedKeepsTidy(a, id, ok, b); }
  }

  lemma DeletedKeepsTidy(a: Sys, id: Id, ok: bool, b: Sys)
    requires TidyOk(a) && ListOk(a) && DiskOk(a.fs, a.h, a.live, a.gone, a.stranded) && Deleted(a, id, ok, b)
    ensures TidyOk(b)
  {
    DeleteWindowIsFaithful(a.fs, a.list, id, b.fs, a.h);
    DeleteKeepsTidy(a, id, b);
  }

  lemma DeletedKeepsHistory(h: History, floor: int, live: set<Id>, id: Id)
    requires HistoryOk(h, floor, live) && id in h && Ts(h, id) < floor
    ensures HistoryOk(h, floor, live - {id})
  {
  }

  lemma DeleteCrashedKeepsInv(a: Sys, id: Id, b: Sys)
    requires Inv(a) && DeleteCrashed(a, id, b)
    ensures Inv(b)
  {
    CollectableIsOld(a, id);
    DeleteWindowIsFaithful(a.fs, a.list, id, b.fs, a.h);
    DeleteWindowKeepsDisk(a.fs, a.list, id, b.fs, a.h, a.live, a.gone, b.gone, a.stranded);
    DeletedKeepsHistory(a.h, a.floor, a.live, id);
    if a.tidy { DeleteKeepsTidy(a, id, b); }
  }

  // ---- opening keeps the invariant -----------------------------------------------------------------------

  /** On a faithful disk a complete directory is the whole record. */
  lemma CompleteDirIsWhole(fs: Fs, h: History, id: Id)
    requires Genuine(h) && Faithful(fs, h) && id in fs.snapshots && CompleteDir(fs.snapshots[id], id)
    ensures Complete(fs, h, id) && fs.snapshots[id].meta.value == h[id].rec.meta
  {
    assert GenuineAttempt(h, id);
  }

  lemma WholeIsCompleteDir(fs: Fs, h: History, id: Id)
    requires Genuine(h) && Complete(fs, h, id)
    ensures CompleteDir(fs.snapshots[id], id) && fs.snapshots[id].meta.value == h[id].rec.meta
  {
    assert GenuineAttempt(h, id);
  }

  lemma RebuiltEntryIsWhole(fs: Fs, base: seq<Meta>, h: History, m: Meta)
    requires Genuine(h) && Faithful(fs, h) && Rebuilt(fs.snapshots, base) && m in base
    ensures m.id in h && m == h[m.id].rec.meta && Complete(fs, h, m.id) && Ts(h, m.id) == m.ts
  {
    CompleteDirIsWhole(fs, h, m.id);
  }

  lemma RebuiltIsListed(fs: Fs, base: seq<Meta>, h: History)
    requires Genuine(h) && DistinctTimes(h) && Faithful(fs, h) && Rebuilt(fs.snapshots, base)
    ensures Listed(base, h) && forall m :: m in base ==> Complete(fs, h, m.id)
  {
    forall m | m in base ensures m.id in h && m == h[m.id].rec.meta && Complete(fs, h, m.id) && Ts(h, m.id) == m.ts {
      RebuiltEntryIsWhole(fs, base, h, m);
    }
    forall i, j | 0 <= i < j < |base| ensures TsLess(base[i], base[j]) {
      assert TsIdLess(base[i], base[j]) && base[i] in base && base[j] in base;
      StrLessIrreflexive(base[i].id);
    }
  }

  lemma WholeIsRebuilt(fs: Fs, base: seq<Meta>, h: History, live: set<Id>)
    requires Genuine(h) && Rebuilt(fs.snapshots, base) && forall id :: id in live ==> Complete(fs, h, id)
    ensures live <= Ids(base)
  {
    forall id | id in live ensures id in Ids(base) {
      WholeIsCompleteDir(fs, h, id);
      assert fs.snapshots[id].meta.value in base;
    }
  }

  /** What an open starts from is as good as an index file. */
  lemma BaseIsOk(fs: Fs, base: seq<Meta>, h: History, live: set<Id>, gone: set<Id>, stranded: set<Id>)
    requires Genuine(h) && DistinctTimes(h) && DiskOk(fs, h, live, gone, stranded) && Base(fs, base)
    ensures IndexOk(base, fs, h, live, gone, stranded)
  {
    if !fs.index.Data? {
      RebuiltIsListed(fs, base, h);
      WholeIsRebuilt(fs, base, h, live);
    }
  }

  lemma OpenWindowIsFaithful(a: Fs, base: seq<Meta>, s: Fs, h: History)
    requires Faithful(a, h) && OpenWindow(a, base, s)
    ensures Faithful(s, h) && s.deleting.Keys <= a.deleting.Keys && s.snapshots == a.snapshots
  {
  }

  /** The entries an open keeps. */
  ghost predicate Kept(l: seq<Meta>, fs: Fs, h: History, live: set<Id>, gone: set<Id>, stranded: set<Id>)
  {
    && Listed(l, h) && live <= Ids(l)
    && (forall m :: m in l ==> m.id !in gone && m.id !in fs.deleting)
    && (forall m :: m in l && m.id !in stranded ==> Complete(fs, h, m.id))
  }

  lemma WithoutStaged(l: seq<Meta>, fs: Fs, h: History, live: set<Id>, gone: set<Id>, stranded: set<Id>)
    requires DiskOk(fs, h, live, gone, stranded) && IndexOk(l, fs, h, live, gone, stranded)
    ensures Kept(Without(l, fs.deleting.Keys), fs, h, live, gone, stranded)
  {
    var kept := Without(l, fs.deleting.Keys);
    WithoutSorted(TsLess, l, fs.deleting.Keys);
    forall id | id in live ensures id in Ids(kept) {
      assert Complete(fs, h, id);
      var m :| m in l && m.id == id;
      assert m in kept;
    }
  }

  /** Any state of the disk during an open; staged deletions have become final. */
  lemma OpenWindowKeepsDisk(a: Fs, base: seq<Meta>, s: Fs, h: History, live: set<Id>, gone: set<Id>, stranded: set<Id>)
    requires Genuine(h) && DistinctTimes(h) && DiskOk(a, h, live, gone, stranded)
    requires Base(a, base) && OpenWindow(a, base, s)
    ensures DiskOk(s, h, live, gone + a.deleting.Keys, stranded)
  {
    OpenWindowIsFaithful(a, base, s, h);
    BaseIsOk(a, base, h, live, gone, stranded);
    WithoutStaged(base, a, h, live, gone, stranded);
    if s.index.Data? {
      if s.index.value == Without(base, a.deleting.Keys) {
      } else {
        assert s.index.value == base && s.deleting == a.deleting;
      }
    }
  }

  lemma ReopenedKeepsList(a: Sys, base: seq<Meta>, b: Sys)
    requires Genuine(a.h) && DistinctTimes(a.h) && DiskOk(a.fs, a.h, a.live, a.gone, a.stranded) && Reopened(a, base, b)
    requires DiskOk(b.fs, b.h, a.live, b.gone, b.stranded)
    requires a.live <= a.h.Keys && forall id :: id in a.stranded && id in a.h ==> Ts(a.h, id) < a.floor
    ensures ListOk(b) && b.live <= b.h.Keys && DiskOk(b.fs, b.h, b.live, b.gone, b.stranded)
  {
    BaseIsOk(a.fs, base, a.h, a.live, a.gone, a.stranded);
    WithoutStaged(base, a.fs, a.h, a.live, a.gone, a.stranded);
    forall id | id in b.live ensures Complete(b.fs, b.h, id) && id in Ids(b.list) {
      if id !in a.live { var m :| m in b.list && m.ts >= b.floor && m.id == id; }
    }
    MoreLiveKeepsDisk(b.fs, b.h, a.live, b.live, b.gone, b.stranded);
  }

  lemma FullHistoryIsInSequence(l: seq<Meta>, fs: Fs, h: History)
    requires Genuine(h) && Listed(l, h) && forall id :: id in h ==> h[id].rec.payload.FullPayload?
    ensures InSequence(l, fs, h)
  {
    forall d | d in l ensures d.kind.FullKind? { assert GenuineAttempt(h, d.id); }
  }

  lemma WithoutStagedInSequence(l: seq<Meta>, a: Fs, s: Fs, h: History)
    requires InSequence(l, a, h) && s.snapshots == a.snapshots && a.snapshots.Keys !! a.deleting.Keys
    ensures InSequence(l, s, h) && InSequence(Without(l, a.deleting.Keys), s, h)
  {
    forall id | id in s.snapshots && id in Ids(l) ensures id in Ids(Without(l, a.deleting.Keys)) {
      var m :| m in l && m.id == id;
      assert m in Without(l, a.deleting.Keys);
    }
  }

  lemma OpenKeepsTidy(a: Sys, base: seq<Meta>, b: Sys)
    requires Genuine(a.h) && DistinctTimes(a.h) && DiskOk(a.fs, a.h, a.live, a.gone, a.stranded) && TidyOk(a)
    requires Base(a.fs, base) && OpenWindow(a.fs, base, b.fs)
    requires b.h == a.h
    requires b.up ==> b.list == Without(base, a.fs.deleting.Keys) && b.flushNum == 0
    ensures TidyOk(b)
  {
    BaseIsOk(a.fs, base, a.h, a.live, a.gone, a.stranded);
    if !a.fs.index.Data? { FullHistoryIsInSequence(base, a.fs, a.h); }
    WithoutStagedInSequence(base, a.fs, b.fs, a.h);
  }

  lemma ReopenedCursor(b: Sys)
    requires b.fullEvery > 0 && b.flushNum == b.flushFull == b.flushDelta == 0
    ensures CursorOk(b)
  {
    Cadence.CeilOfNothing(b.fullEvery);
  }

  lemma MoreLiveKeepsHistory(h: History, floor: int, live: set<Id>, live': set<Id>)
    requires HistoryOk(h, floor, live) && live <= live' <= h.Keys
    ensures HistoryOk(h, floor, live')
  {
  }

  lemma ReopenedKeepsInv(a: Sys, base: seq<Meta>, b: Sys)
    requires Inv(a) && Reopened(a, base, b)
    ensures Inv(b)
  {
    OpenWindowKeepsDisk(a.fs, base, b.fs, a.h, a.live, a.gone, a.stranded);
    ReopenedKeepsList(a, base, b);
    MoreLiveKeepsHistory(a.h, a.floor, a.live, b.live);
    if a.tidy { OpenKeepsTidy(a, base, b); }
    ReopenedCursor(b);
  }

  lemma OpenInterruptedKeepsInv(a: Sys, base: seq<Meta>, b: Sys)
    requires Inv(a) && OpenInterrupted(a, base, b)
    ensures Inv(b)
  {
    OpenWindowKeepsDisk(a.fs, base, b.fs, a.h, a.live, a.gone, a.stranded);
    if a.tidy { OpenKeepsTidy(a, base, b); }
  }

  // ---- all steps, all runs ---------------------------------------------------------------------------------

  lemma SameCursor(a: Sys, b: Sys)
    requires CursorOk(a) && b == a.(fs := b.fs, buf := b.buf, tidy := b.tidy)
    ensures CursorOk(b)
  {
  }

  lemma SameList(a: Sys, b: Sys)
    requires ListOk(a) && b == a.(fs := b.fs, buf := b.buf, tidy := b.tidy)
    requires b.fs == a.fs || (b.fs == a.fs.(index := b.fs.index) && !b.fs.index.Data?)
    ensures ListOk(b)
  {
  }

  lemma SameTidy(a: Sys, b: Sys)
    requires TidyOk(a) && b == a.(up := b.up, buf := b.buf) && (b.up ==> a.up)
    ensures TidyOk(b)
  {
  }

  lemma LostIndexKeepsDisk(fs: Fs, index: File<seq<Meta>>, h: History, live: set<Id>, gone: set<Id>, stranded: set<Id>)
    requires DiskOk(fs, h, live, gone, stranded) && !index.Data?
    ensures DiskOk(fs.(index := index), h, live, gone, stranded)
  {
  }

  lemma IndexLostKeepsInv(a: Sys, b: Sys)
    requires Inv(a) && IndexLost(a, b)
    ensures Inv(b)
  {
    LostIndexKeepsDisk(a.fs, b.fs.index, a.h, a.live, a.gone, a.stranded);
    if a.up { SameList(a, b); SameCursor(a, b); }
  }

  lemma MutatedKeepsInv(a: Sys, b: Sys)
    requires Inv(a) && (Mutated(a, b) || Stopped(a, b))
    ensures Inv(b)
  {
    if b.up { SameList(a, b); SameCursor(a, b); }
    if a.tidy { SameTidy(a, b); }
  }

  lemma FlushKeepsInv(a: Sys, b: Sys, t: Time, rec: Record)
    requires Inv(a) && (Flushed(a, t, rec, b) || FlushFailed(a, t, rec, b) || FlushCrashed(a, t, rec, b))
    ensures Inv(b)
  {
    if Flushed(a, t, rec, b) {
      FlushedKeepsInv(a, t, rec, b);
    } else if FlushFailed(a, t, rec, b) {
      FlushFailedKeepsInv(a, t, rec, b);
    } else {
      FlushCrashedKeepsInv(a, t, rec, b);
    }
  }

  /** Every step keeps the invariant. */
  lemma StepKeepsInv(a: Sys, b: Sys)
    requires Inv(a) && Step(a, b)
    ensures Inv(b)
  {
    if Mutated(a, b) || Stopped(a, b) {
      MutatedKeepsInv(a, b);
    } else if IndexLost(a, b) {
      IndexLostKeepsInv(a, b);
    } else if t, rec :| Flushed(a, t, rec, b) || FlushFailed(a, t, rec, b) || FlushCrashed(a, t, rec, b) {
      FlushKeepsInv(a, b, t, rec);
    } else if m :| Anchored(a, m, b) {
      AnchoredKeepsInv(a, m, b);
    } else if id, ok :| Deleted(a, id, ok, b) {
      DeletedKeepsInv(a, id, ok, b);
    } else if id :| DeleteCrashed(a, id, b) {
      DeleteCrashedKeepsInv(a, id, b);
    } else if base :| Reopened(a, base, b) {
      ReopenedKeepsInv(a, base, b);
    } else {
      var base :| OpenInterrupted(a, base, b);
      OpenInterruptedKeepsInv(a, base, b);
    }
  }

  lemma InitHolds(s: Sys)
    requires Init(s)
    ensures Inv(s)
  {
  }

  /** The invariant holds at every point of every run from an empty store. */
  lemma {:induction false} RunKeepsInv(run: seq<Sys>, i: nat)
    requires IsRun(run) && Init(run[0]) && i < |run|
    ensures Inv(run[i])
  {
    if i == 0 {
      InitHolds(run[0]);
    } else {
      RunKeepsInv(run, i - 1);
      assert StepAt(run, i - 1);
      StepKeepsInv(run[i - 1], run[i]);
    }
  }

  // ---- where runs lead -------------------------------------------------------------------------------------

  ghost predicate LeadsTo(run: seq<Sys>, s: Sys)
  {
    IsRun(run) && Init(run[0]) && run[|run| - 1] == s
  }

  ghost predicate Reachable(s: Sys)
  {
    exists run :: LeadsTo(run, s)
  }

  lemma ReachableKeepsInv(s: Sys)
    requires Reachable(s)
    ensures Inv(s)
  {
    var run :| LeadsTo(run, s);
    RunKeepsInv(run, |run| - 1);
  }

  lemma PrefixIsRun(run: seq<Sys>, k: nat)
    requires IsRun(run) && k < |run|
    ensures IsRun(run[..k + 1])
  {
    var start := run[..k + 1];
    forall i | 0 <= i < |start| - 1 ensures StepAt(start, i) { assert StepAt(run, i); }
  }

  lemma OneMoreStep(run: seq<Sys>, c: Sys)
    requires IsRun(run) && Step(run[|run| - 1], c)
    ensures IsRun(run + [c])
  {
    forall i | 0 <= i < |run| ensures StepAt(run + [c], i) {
      if i < |run| - 1 { assert StepAt(run, i); }
    }
  }

  lemma StepReaches(a: Sys, b: Sys)
    requires Reachable(a) && Step(a, b)
    ensures Reachable(b)
  {
    var run :| LeadsTo(run, a);
    OneMoreStep(run, b);
    assert LeadsTo(run + [b], b);
  }

  lemma {:induction false} RunReaches(run: seq<Sys>, i: nat)
    requires IsRun(run) && Reachable(run[0]) && i < |run|
    ensures Reachable(run[i])
  {
    if i > 0 {
      RunReaches(run, i - 1);
      assert StepAt(run, i - 1);
      StepReaches(run[i - 1], run[i]);
    }
  }
}
