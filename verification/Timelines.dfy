/** What the order of the list means for the timelines that blame reports. */
module Timelines {
  import opened Sorting
  import opened Times
  import opened D = Delta
  import opened Wire
  import opened Files
  import opened Store
  import opened History
  import opened Reconstruct
  import opened Runs
  import opened Promises
  import Blame

  lemma NeighboursByTime(l: seq<Meta>, i: nat, j: nat)
    requires StrictlySorted(TsLess, l) && i < |l| && j < |l| && l[j].ts < l[i].ts
    requires forall m :: m in l ==> !(l[j].ts < m.ts < l[i].ts)
    ensures j + 1 == i
  {
    TsMonotone(l, i, j);
    TsMonotone(l, j, i - 1);
    TsMonotone(l, i - 1, i);
    assert l[i - 1] in l;
  }

  lemma DeltaComesLater(h: History, id: Id)
    requires id in h && GenuineAttempt(h, id) && h[id].rec.payload.DeltaPayload?
    ensures h[id].rec.meta.prev in h && Ts(h, h[id].rec.meta.prev) < Ts(h, id) && h[id].rec.meta.kind.DeltaKind?
  {
  }

  /** With nothing listed in between, a predecessor that is listed is the entry before. */
  lemma ListedPredecessorIsPrevious(l: seq<Meta>, h: History, i: nat)
    requires Genuine(h) && Listed(l, h) && NoListedBetween(l, h)
    requires i < |l| && h[l[i].id].rec.payload.DeltaPayload? && l[i].prev in Ids(l)
    ensures i > 0 && l[i - 1].id == l[i].prev
  {
    assert l[i] in l && GenuineAttempt(h, l[i].id);
    DeltaComesLater(h, l[i].id);
    var p :| p in l && p.id == l[i].prev;
    var j :| 0 <= j < |l| && l[j] == p;
    NeighboursByTime(l, i, j);
  }

  /** The recorded kinds of a delta cover every key it touches. */
  lemma KindsCoverTouched(h: History, id: Id)
    requires Genuine(h) && id in h && h[id].rec.payload.DeltaPayload?
    ensures forall k :: k in Touched(WireToDelta(h[id].rec.payload.delta)) ==>
                          KindsContain(h[id].rec.meta.kinds, k.kind)
  {
    assert GenuineAttempt(h, id);
    var d, kinds := WireToDelta(h[id].rec.payload.delta), h[id].rec.meta.kinds;
    assert KindsCover(kinds, Touched(d));
    forall k | k in Touched(d) ensures KindsContain(kinds, k.kind) {
      assert k.kind in KindsOf(Touched(d));
      assert k.kind in kinds;
    }
  }

  /** A complete entry loads as listed. */
  lemma CompleteLoadsAsListed(fs: Fs, h: History, m: Meta)
    requires Genuine(h) && Complete(fs, h, m.id) && m == h[m.id].rec.meta
    ensures Blame.LoadsAsListed(fs, m) && (m.kind.DeltaKind? <==> h[m.id].rec.payload.DeltaPayload?)
  {
    CompleteReads(fs, h, m.id);
    assert GenuineAttempt(h, m.id);
    if h[m.id].rec.payload.DeltaPayload? { KindsCoverTouched(h, m.id); }
  }

  lemma EntryIsInPlace(fs: Fs, l: seq<Meta>, h: History, floor: int, live: set<Id>, i: nat)
    requires HistoryOk(h, floor, live) && Listed(l, h) && live <= Ids(l) && NoListedBetween(l, h)
    requires i < |l| && l[i].ts >= floor && Complete(fs, h, l[i].id)
    ensures Blame.InPlace(fs, l, i) && (i == 0 ==> l[0].kind.FullKind?)
  {
    assert l[i] in l;
    CompleteLoadsAsListed(fs, h, l[i]);
    if h[l[i].id].rec.payload.DeltaPayload? {
      PredecessorAboveFloor(h, floor, live, l[i].id);
      ListedPredecessorIsPrevious(l, h, i);
    }
  }

  /** In a tidy store whose list starts at the anchor or later, the list is a well-formed history. */
  lemma TidyListIsWellFormed(s: Sys)
    requires HistoryOk(s.h, s.floor, s.live) && ListOk(s) && NoListedBetween(s.list, s.h)
    requires forall id :: id in s.live ==> Complete(s.fs, s.h, id)
    requires forall m :: m in s.list ==> m.ts >= s.floor
    ensures Blame.WellFormed(s.fs, s.list)
  {
    forall i | 0 <= i < |s.list| ensures Blame.InPlace(s.fs, s.list, i) {
      assert s.list[i] in s.list;
      EntryIsInPlace(s.fs, s.list, s.h, s.floor, s.live, i);
    }
    if s.list != [] {
      assert s.list[0] in s.list;
      EntryIsInPlace(s.fs, s.list, s.h, s.floor, s.live, 0);
    }
  }

  lemma OpenedListIsInSequence(s: Sys, list: seq<Meta>)
    requires Inv(s) && s.tidy && Listing(s.fs, list)
    ensures InSequence(list, s.fs, s.h)
  {
    var base :| Base(s.fs, base) && list == Without(base, s.fs.deleting.Keys);
    BaseIsOk(s.fs, base, s.h, s.live, s.gone, s.stranded);
    if !s.fs.index.Data? { FullHistoryIsInSequence(base, s.fs, s.h); }
    WithoutStagedInSequence(base, s.fs, s.fs, s.h);
  }

  /** A delta whose predecessor is not the entry before it cannot be rebuilt any more. */
  lemma OutOfPlaceIsLost(fs: Fs, l: seq<Meta>, h: History, i: nat)
    requires Genuine(h) && Listed(l, h) && InSequence(l, fs, h)
    requires i < |l| && Complete(fs, h, l[i].id) && l[i].kind.DeltaKind?
    requires i > 0 ==> l[i].prev != l[i - 1].id
    ensures StateAt(fs, l[i].id).Err?
  {
    var m := l[i];
    assert m in l;
    CompleteReads(fs, h, m.id);
    assert GenuineAttempt(h, m.id);
    assert GenuineAttempt(h, m.prev);
    if m.prev in fs.snapshots { ListedPredecessorIsPrevious(l, h, i); }
    assert Read(fs, fs, m.prev).Err?;
    StateAtDelta(fs, m.id);
  }

  /** Some delta is not behind its predecessor. */
  lemma OutOfOrderSomewhere(fs: Fs, l: seq<Meta>, h: History) returns (i: nat)
    requires Genuine(h) && Listed(l, h) && !Blame.InOrder(l)
    ensures i < |l| && l[i].kind.DeltaKind? && (i > 0 ==> l[i].prev != l[i - 1].id)
  {
    i := 0;
    if l[0].kind.FullKind? {
      var k, j :| 0 <= k < j < |l| && j == k + 1 && l[j].kind.DeltaKind? && l[j].prev != l[k].id;
      i := j;
    } else {
      assert l[0] in l && GenuineAttempt(h, l[0].id);
    }
  }

  lemma OutOfOrderIsLost(fs: Fs, l: seq<Meta>, h: History)
    requires Genuine(h) && Listed(l, h) && InSequence(l, fs, h) && !Blame.InOrder(l)
    requires forall m :: m in l ==> Complete(fs, h, m.id)
    ensures Blame.Points(fs, l).Err?
  {
    var i := OutOfOrderSomewhere(fs, l, h);
    assert l[i] in l;
    OutOfPlaceIsLost(fs, l, h, i);
    Blame.NaiveNeedsEveryState(fs, l, i);
  }

  /** Listed entries that can all be read are whole. */
  lemma ReadableIsComplete(s: Sys, list: seq<Meta>)
    requires Inv(s) && Kept(list, s.fs, s.h, s.live, s.gone, s.stranded)
    requires Blame.AllReadable(s.fs, list)
    ensures forall m :: m in list ==> Complete(s.fs, s.h, m.id)
  {
    EntriesLoad(s, list);
  }

  lemma CompleteListLoads(fs: Fs, l: seq<Meta>, h: History)
    requires Genuine(h) && Listed(l, h) && forall m :: m in l ==> Complete(fs, h, m.id)
    ensures Blame.AllLoad(fs, l)
  {
    forall m | m in l ensures Blame.LoadsAsListed(fs, m) { CompleteLoadsAsListed(fs, h, m); }
  }

  /** A list in order, all of whose entries are whole, gives the right timeline of everything. */
  lemma InOrderIsRight(fs: Fs, l: seq<Meta>, h: History, target: Key)
    requires Genuine(h) && Listed(l, h) && Blame.InOrder(l) && forall m :: m in l ==> Complete(fs, h, m.id)
    ensures Blame.PassIsRight(fs, l, target) && Blame.Points(fs, l).Ok?
  {
    CompleteListLoads(fs, l, h);
    Blame.InOrderIsWellFormed(fs, l);
    Blame.WellFormedIsInStep(fs, l);
    Blame.PassTracksStates(fs, l, target);
    Blame.RefinesNaive(fs, l, target);
  }

  lemma OpenedListIsComplete(run: seq<Sys>, i: nat, list: seq<Meta>)
    requires IsRun(run) && Init(run[0]) && i < |run| && Listing(run[i].fs, list)
    requires Blame.AllReadable(run[i].fs, list)
    ensures Genuine(run[i].h) && Listed(list, run[i].h)
    ensures forall m :: m in list ==> Complete(run[i].fs, run[i].h, m.id)
  {
    RunKeepsInv(run, i);
    OpenedListIsSound(run[i], list);
    ReadableIsComplete(run[i], list);
  }

  /** Index lost or not: over a list in order whose entries can all be read, blame is right. */
  lemma InOrderAndReadableIsRight(run: seq<Sys>, i: nat, list: seq<Meta>, target: Key)
    requires IsRun(run) && Init(run[0]) && i < |run| && Listing(run[i].fs, list)
    requires Blame.InOrder(list) && Blame.AllReadable(run[i].fs, list)
    ensures Blame.PassIsRight(run[i].fs, list, target)
  {
    OpenedListIsComplete(run, i, list);
    InOrderIsRight(run[i].fs, list, run[i].h, target);
  }

  /** An entry that cannot be read has no state, so the naive timeline does not exist. */
  lemma UnreadableIsNotRight(fs: Fs, l: seq<Meta>, m: Meta, target: Key)
    requires m in l && Read(fs, fs, m.id).Err?
    ensures !Blame.PassIsRight(fs, l, target)
  {
    var i :| 0 <= i < |l| && l[i] == m;
    assert StateAt(fs, m.id).Err?;
    Blame.NaiveNeedsEveryState(fs, l, i);
  }

  lemma OutOfOrderIsNotRight(run: seq<Sys>, i: nat, list: seq<Meta>, target: Key)
    requires IsRun(run) && Init(run[0]) && i < |run| && run[i].tidy && Listing(run[i].fs, list)
    requires Blame.AllReadable(run[i].fs, list) && !Blame.InOrder(list)
    ensures !Blame.PassIsRight(run[i].fs, list, target)
  {
    OpenedListIsComplete(run, i, list);
    TidyListInSequence(run, i, list);
    OutOfOrderIsLost(run[i].fs, list, run[i].h);
  }

  lemma TidyListInSequence(run: seq<Sys>, i: nat, list: seq<Meta>)
    requires IsRun(run) && Init(run[0]) && i < |run| && run[i].tidy && Listing(run[i].fs, list)
    ensures InSequence(list, run[i].fs, run[i].h)
  {
    RunKeepsInv(run, i);
    OpenedListIsInSequence(run[i], list);
  }

  /**
   While the index file was never lost, blame over what any open lists, deletions failed or not, is right
   for every resource exactly when the list is in order, a full snapshot first and each delta behind the
   entry it is relative to, and every entry can be read. A reader can check both beforehand.
   */
  lemma BlameIsRightExactlyInOrder(run: seq<Sys>, i: nat, list: seq<Meta>)
    requires IsRun(run) && Init(run[0]) && i < |run| && run[i].tidy && Listing(run[i].fs, list)
    ensures (forall target :: Blame.PassIsRight(run[i].fs, list, target))
            <==> Blame.InOrder(list) && Blame.AllReadable(run[i].fs, list)
  {
    var someKey := Key("", "", "");
    if !Blame.AllReadable(run[i].fs, list) {
      var m :| m in list && Read(run[i].fs, run[i].fs, m.id).Err?;
      UnreadableIsNotRight(run[i].fs, list, m, someKey);
    } else if !Blame.InOrder(list) {
      OutOfOrderIsNotRight(run, i, list, someKey);
    } else {
      forall target ensures Blame.PassIsRight(run[i].fs, list, target) {
        InOrderAndReadableIsRight(run, i, list, target);
      }
    }
  }
}
