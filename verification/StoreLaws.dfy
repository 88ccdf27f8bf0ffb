/** What the store's operations keep, and the one sequence of failures they do not survive. */
module StoreLaws {
  import opened Sorting
  import opened Times
  import opened Files
  import opened Store

  // ---- opening ------------------------------------------------------------------

  lemma RebuiltIsUnique(snapshots: map<Id, Dir>, x: seq<Meta>, y: seq<Meta>)
    requires Rebuilt(snapshots, x) && Rebuilt(snapshots, y)
    ensures x == y
  {
    TsOrders();
    StrictlySortedUnique(TsIdLess, x, y);
  }

  /** All opens of one disk state list the same snapshots: the read-only view is the repaired one. */
  lemma ListingIsUnique(fs: Fs, x: seq<Meta>, y: seq<Meta>)
    requires Listing(fs, x) && Listing(fs, y)
    ensures x == y
  {
    var base1 :| Base(fs, base1) && x == Without(base1, fs.deleting.Keys);
    var base2 :| Base(fs, base2) && y == Without(base2, fs.deleting.Keys);
    if !fs.index.Data? { RebuiltIsUnique(fs.snapshots, base1, base2); }
  }

  /** A crash anywhere inside an open changes nothing of what the next open lists. */
  lemma OpenKeepsListing(a: Fs, base: seq<Meta>, s: Fs, list: seq<Meta>)
    requires Base(a, base) && OpenWindow(a, base, s)
    ensures Listing(s, list) <==> list == Without(base, a.deleting.Keys)
  {
    var kept := Without(base, a.deleting.Keys);
    assert Ids(kept) !! s.deleting.Keys;
    WithoutNothing(kept, s.deleting.Keys);
    if s.index.Data? {
      assert Base(s, s.index.value);
    } else {
      assert Base(s, base);
    }
    assert Listing(s, kept);
    if Listing(s, list) { ListingIsUnique(s, list, kept); }
  }

  /** Opening for writing twice lists the same as opening once. */
  lemma ReopenIsIdempotent(a: Fs, base: seq<Meta>, b: Fs, list: seq<Meta>, again: seq<Meta>)
    requires OpenDone(a, base, b, list)
    ensures Listing(a, list)
    ensures Listing(b, again) <==> again == list
  {
    OpenKeepsListing(a, base, b, again);
  }

  /** A rebuilt list is the complete, rightly named directories without the staged deletions, in time order. */
  lemma RebuildListsCompleteDirs(fs: Fs, list: seq<Meta>)
    requires !fs.index.Data? && Listing(fs, list)
    ensures StrictlySorted(TsIdLess, list)
    ensures forall m :: m in list <==>
              && m.id in fs.snapshots && CompleteDir(fs.snapshots[m.id], m.id) && fs.snapshots[m.id].meta == Data(m)
              && m.id !in fs.deleting
  {
    var base :| Base(fs, base) && list == Without(base, fs.deleting.Keys);
    WithoutSorted(TsIdLess, base, fs.deleting.Keys);
    forall m: Meta | m.id in fs.snapshots && CompleteDir(fs.snapshots[m.id], m.id) && fs.snapshots[m.id].meta == Data(m)
      ensures m in base {}
  }

  // ---- the index ------------------------------------------------------------------

  predicate IdDiffers(a: Meta, b: Meta)
  {
    a.id != b.id
  }

  /** Ascending and free of repeats, on disk as in memory. */
  ghost predicate IndexAgrees(fs: Fs, list: seq<Meta>)
  {
    && fs.index == Data(list)
    && StrictlySorted(TsLess, list)
    && StrictlySorted(IdDiffers, list)
  }

  /** The list after a put: the old entries and the new one, in strict time order. */
  lemma AppendedIsOrdered(list: seq<Meta>, meta: Meta)
    requires StrictlySorted(TsLess, list) && forall m :: m in list ==> m.ts != meta.ts
    ensures StrictlySorted(TsLess, Appended(list, meta))
    ensures forall m :: m in Appended(list, meta) <==> m in list || m == meta
    ensures (forall m :: m in list ==> m.ts < meta.ts) ==> Appended(list, meta) == list + [meta]
  {
    TsOrders();
    var r := list + [meta];
    forall i, j | 0 <= i < j < |r| ensures TsLess(r[i], r[j]) || TsLess(r[j], r[i]) {
      assert r[i] in list;
      assert j < |list| ==> r[j] in list;
    }
    SortBySorts(TsLess, r);
    if forall m :: m in list ==> m.ts < meta.ts {
      forall i, j | 0 <= i < j < |r| ensures TsLess(r[i], r[j]) { assert r[i] in list; }
      SortByFixesSorted(TsLess, r);
    }
  }

  /** No entry has the time or the ID of `m`. */
  ghost predicate SlotIsFree(list: seq<Meta>, m: Meta)
  {
    forall x :: x in list ==> x.ts != m.ts && x.id != m.id
  }

  lemma FreeSlotKeepsOrder(list: seq<Meta>, m: Meta)
    requires StrictlySorted(TsLess, list) && StrictlySorted(IdDiffers, list) && SlotIsFree(list, m)
    ensures StrictlySorted(TsLess, Appended(list, m)) && StrictlySorted(IdDiffers, Appended(list, m))
  {
    AppendedIsOrdered(list, m);
    var r := Appended(list, m);
    forall i, j | 0 <= i < j < |r| ensures IdDiffers(r[i], r[j]) {
      assert r[i].ts < r[j].ts && r[i] in r && r[j] in r;
      if r[i] in list && r[j] in list { DistinctEntriesDiffer(list, r[i], r[j]); }
    }
  }

  lemma DistinctEntriesDiffer(list: seq<Meta>, x: Meta, y: Meta)
    requires StrictlySorted(IdDiffers, list) && x in list && y in list && x != y
    ensures x.id != y.id
  {
    var i :| 0 <= i < |list| && list[i] == x;
    var j :| 0 <= j < |list| && list[j] == y;
    assert IdDiffers(list[if i < j then i else j], list[if i < j then j else i]);
  }

  lemma {:induction false} InsertedTieShows(list: seq<Meta>, m: Meta, x: Meta)
    requires x in list && x.ts == m.ts
    ensures !StrictlySorted(TsLess, Insert(TsLess, list, m))
  {
    var r, last := Insert(TsLess, list, m), list[|list| - 1];
    if TsLess(m, last) {
      var init := list[..|list| - 1];
      assert list == init + [last];
      InsertedTieShows(init, m, x);
      var sub := Insert(TsLess, init, m);
      var i, j :| 0 <= i < j < |sub| && !TsLess(sub[i], sub[j]);
      assert r[i] == sub[i] && r[j] == sub[j];
    } else {
      var i :| 0 <= i < |list| && list[i] == x;
      assert r[i] == x && r[|list|] == m && !TsLess(r[i], r[|list|]);
    }
  }

  lemma TakenSlotBreaksOrder(list: seq<Meta>, m: Meta)
    requires StrictlySorted(TsLess, list) && !SlotIsFree(list, m)
    ensures !(StrictlySorted(TsLess, Appended(list, m)) && StrictlySorted(IdDiffers, Appended(list, m)))
  {
    var x :| x in list && (x.ts == m.ts || x.id == m.id);
    TsOrders();
    if x.ts == m.ts {
      SortByFixesSorted(TsLess, list);
      assert (list + [m])[..|list|] == list;
      InsertedTieShows(list, m, x);
    } else if StrictlySorted(IdDiffers, Appended(list, m)) {
      SortBySorts(TsLess, list + [m]);
      assert x in list + [m] && m in list + [m];
      DistinctEntriesDiffer(Appended(list, m), x, m);
    }
  }

  /**
   Whatever fails, a put leaves memory and index file equal and every listed directory as it was. The list
   stays ascending and free of repeats exactly when the put failed, or no entry had its time or its ID.
   */
  lemma PutKeepsIndexExactlyWhen(a: Fs, list: seq<Meta>, rec: Record, b: Fs, list': seq<Meta>)
    requires IndexAgrees(a, list)
    requires PutDone(a, list, rec, b, list') || PutFailed(a, list, rec, b, list')
    ensures b.index == Data(list')
    ensures forall m :: m in list && m.id in a.snapshots ==>
                          m.id in b.snapshots && b.snapshots[m.id] == a.snapshots[m.id]
    ensures IndexAgrees(b, list') <==> PutFailed(a, list, rec, b, list') || SlotIsFree(list, rec.meta)
  {
    if PutDone(a, list, rec, b, list') {
      TsOrders();
      SortBySorts(TsLess, list + [rec.meta]);
      assert !PutFailed(a, list, rec, b, list');
      if SlotIsFree(list, rec.meta) {
        FreeSlotKeepsOrder(list, rec.meta);
      } else {
        TakenSlotBreaksOrder(list, rec.meta);
      }
    }
  }

  lemma DeleteKeepsIndex(a: Fs, list: seq<Meta>, id: Id, b: Fs, list': seq<Meta>, ok: bool)
    requires IndexAgrees(a, list) && DeleteOutcome(a, list, id, b, list', ok)
    ensures IndexAgrees(b, list')
  {
    WithoutSorted(TsLess, list, {id});
    WithoutSorted(IdDiffers, list, {id});
  }

  /** An ID that a directory already carries is refused, and the store is left as it was. */
  lemma CollidingPutIsRefused(a: Fs, list: seq<Meta>, rec: Record, b: Fs, list': seq<Meta>)
    requires rec.meta.id in a.snapshots
    requires PutDone(a, list, rec, b, list') || PutFailed(a, list, rec, b, list')
    ensures b == a && list' == list
  {
  }

  /** Distinct IDs made from times sort by text as their entries sort by timestamp. */
  lemma IndexOrderIsIdOrder(list: seq<Meta>, times: seq<Time>)
    requires |times| == |list|
    requires forall i :: 0 <= i < |list| ==>
               ValidTime(times[i]) && list[i].id == IdFromTime(times[i]) && list[i].ts == Rank(times[i])
    requires forall i, j :: 0 <= i < j < |list| ==> list[i].id != list[j].id
    ensures StrictlySorted(TsLess, list) <==>
              forall i, j :: 0 <= i < j < |list| ==> StrLess(list[i].id, list[j].id)
  {
    forall i, j | 0 <= i < j < |list| ensures TsLess(list[i], list[j]) <==> StrLess(list[i].id, list[j].id) {
      IdsEmbedTimeOrder(times[i], times[j]);
      RankIsTimeOrder(times[i], times[j]);
      RankIsTimeOrder(times[j], times[i]);
    }
  }

  // ---- the data behind a listed entry ------------------------------------------------

  /** Directory `d` of `id` is whole, under `snapshots/` or under `.deleting/`. */
  ghost predicate Housed(fs: Fs, id: Id, d: Dir)
  {
    (id in fs.snapshots && fs.snapshots[id] == d) || (id in fs.deleting && fs.deleting[id] == d)
  }

  /**
   As long as an entry stays listed, a deletion that fails at any point keeps its directory whole,
   provided the directory was under `snapshots/` when the deletion began.
   */
  lemma FailedDeleteKeepsData(a: Fs, list: seq<Meta>, id: Id, b: Fs, list': seq<Meta>, ok: bool, x: Id, d: Dir)
    requires DeleteOutcome(a, list, id, b, list', ok)
    requires a.index.Data? ==> a.index.value == list
    requires x in Ids(list') && Housed(a, x, d)
    requires x == id ==> id in a.snapshots && a.snapshots[id] == d
    ensures Housed(b, x, d)
  {
    WithoutNothing(list, {id});
    assert x == id ==> x !in Ids(Without(list, {id}));
  }

  /**
   When a failed deletion could not put the directory back, the entry is listed and its only copy is the
   tombstone. Deleting it again first discards that tombstone: with no further failure the call still
   reports an error, the entry stays listed, and its data is gone.
   */
  method DeleteAgainAfterFailedRestore(l: Local, id: Id) returns (ok: bool)
    requires !l.readOnly && PlainId(id) && id in Ids(l.index) && id !in l.disk.fs.snapshots && id in l.disk.fs.deleting
    modifies l, l.disk
    ensures !ok && l.index == old(l.index)
    ensures l.disk.faults == old(l.disk.faults) ==> id !in l.disk.fs.snapshots && id !in l.disk.fs.deleting
  {
    ok := l.Delete(id);
  }

  /** From then on the entry can never be deleted or loaded, and reopening keeps listing it. */
  lemma LostEntryStays(a: Fs, list: seq<Meta>, id: Id, b: Fs, list': seq<Meta>, ok: bool)
    requires id in Ids(list) && id !in a.snapshots && id !in a.deleting
    requires a.index == Data(list) && DeleteOutcome(a, list, id, b, list', ok)
    ensures !ok && list' == list && id !in b.snapshots && id !in b.deleting
    ensures forall again :: Listing(b, again) ==> id in Ids(again)
  {
    assert b.index == Data(list);
    forall again | Listing(b, again) ensures id in Ids(again) {
      var base :| Base(b, base) && again == Without(base, b.deleting.Keys);
      var m :| m in list && m.id == id;
      assert m in again;
    }
  }

  /**
   Whatever fails in a deletion, an entry that stays listed keeps its data: this is so exactly when its
   directory is under `snapshots/` when the call is made.
   */
  lemma DeleteKeepsDataExactlyWhen(a: Fs, list: seq<Meta>, id: Id, d: Dir)
    requires a.index == Data(list) && id in Ids(list)
    requires Housed(a, id, d) && a.snapshots.Keys !! a.deleting.Keys
    ensures (forall b, list', ok :: DeleteOutcome(a, list, id, b, list', ok) && id in Ids(list') ==> Housed(b, id, d))
            <==> id in a.snapshots
  {
    if id in a.snapshots {
      forall b, list', ok | DeleteOutcome(a, list, id, b, list', ok) && id in Ids(list') ensures Housed(b, id, d) {
        FailedDeleteKeepsData(a, list, id, b, list', ok, id, d);
      }
    } else {
      var lost := a.(deleting := a.deleting - {id});
      assert DeleteOutcome(a, list, id, lost, list, false) && !Housed(lost, id, d);
    }
  }
}
