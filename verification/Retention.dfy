/** What a collection pass leaves of the history, and of everybody's view of it. */
module Retention {
  import opened Sorting
  import opened Times
  import opened D = Delta
  import opened Files
  import opened Store
  import opened History
  import opened Reconstruct
  import opened Runs
  import opened Promises
  import opened Timelines
  import opened Collection
  import Blame

  /** `m` is the last snapshot listed not after `t`. */
  ghost predicate LastAt(l: seq<Meta>, t: int, m: Meta)
  {
    m in l && m.ts <= t && forall x :: x in l && x.ts <= t ==> x.ts <= m.ts
  }

  /** A pass drops only snapshots strictly older than the cutoff, and never the flush position. */
  lemma OnlyOldSnapshotsGo(a: Sys, b: Sys, cutoff: int, m: Meta)
    requires Inv(a) && Inv(b) && Collected(a, b, cutoff) && m in a.list && m !in b.list
    ensures m.ts < cutoff
    ensures a.flushNum > 0 ==> m.id != a.prevID && a.prevID in b.live
  {
    if a.flushNum > 0 {
      var last := b.list[|b.list| - 1];
      assert last in b.list && last in a.list && last.id == a.prevID;
    }
  }

  /** For every time in the retention window, the last snapshot not after it is the same as before. */
  lemma WindowKeepsItsSnapshots(a: Sys, b: Sys, cutoff: int, t: int, m: Meta)
    requires CollectedBefore(a, b, cutoff) && t >= cutoff
    ensures LastAt(a.list, t, m) <==> LastAt(b.list, t, m)
  {
    if b.list != a.list {
      var anchor :| IsAnchor(a.list, cutoff, anchor) && CollectedFrom(a, b, anchor);
      assert anchor in b.list;
    }
  }

  /** The last snapshot of the window lies at or after the newest anchor. */
  lemma WindowIsAboveFloor(s: Sys, t: int, m: Meta)
    requires HistoryOk(s.h, s.floor, s.live) && ListOk(s) && LastAt(s.list, t, m) && t >= s.floor
    ensures m.ts >= s.floor && m.id in s.live && m.id in s.h && m == s.h[m.id].rec.meta
  {
    assert Ts(s.h, m.id) >= 0;
    if s.floor != 0 {
      var f :| f in s.live && f in s.h && s.h[f].rec.payload.FullPayload? && Ts(s.h, f) == s.floor;
      var x :| x in s.list && x.id == f;
      assert x.ts == s.floor;
    }
  }

  lemma LiveRebuilds(s: Sys, id: Id)
    requires Inv(s) && id in s.live && id in s.h && Ts(s.h, id) >= s.floor
    ensures StateAt(s.fs, id) == Ok(s.h[id].captured)
  {
    AvailableRebuilds(s.fs, s.h, s.floor, s.live, id);
  }

  /** Above a full snapshot, chains never leave what two disks have in common. */
  lemma {:induction false} WalkAbove(f1: Fs, f2: Fs, h: History, anchor: Id, id: Id, visited: set<Id>)
    requires Genuine(h) && DistinctTimes(h) && NoFullBetween(h) && Faithful(f1, h) && Faithful(f2, h)
    requires anchor in h && h[anchor].rec.payload.FullPayload? && UntouchedFrom(h, Ts(h, anchor), f1, f2)
    requires id in h && Ts(h, id) >= Ts(h, anchor)
    ensures Walk(f1, id, visited) == Walk(f2, id, visited)
    decreases Ts(h, id) - Ts(h, anchor)
  {
    if id !in visited && Read(f1, f1, id).Ok? {
      ReadIsGenuine(f1, f1, h, id);
      var l := Read(f1, f1, id).value;
      if l.LoadedDelta? && l.meta.prev != "" {
        PredecessorAbove(h, anchor, id);
        WalkAbove(f1, f2, h, anchor, l.meta.prev, visited + {id});
      }
    }
  }

  lemma PredecessorAbove(h: History, anchor: Id, d: Id)
    requires Genuine(h) && DistinctTimes(h) && NoFullBetween(h)
    requires anchor in h && h[anchor].rec.payload.FullPayload?
    requires d in h && h[d].rec.payload.DeltaPayload? && Ts(h, d) >= Ts(h, anchor)
    ensures h[d].rec.meta.prev in h && Ts(h, anchor) <= Ts(h, h[d].rec.meta.prev) < Ts(h, d)
  {
    assert GenuineAttempt(h, d) && d != anchor;
  }

  lemma StateAbove(f1: Fs, f2: Fs, h: History, anchor: Id, id: Id)
    requires Genuine(h) && DistinctTimes(h) && NoFullBetween(h) && Faithful(f1, h) && Faithful(f2, h)
    requires anchor in h && h[anchor].rec.payload.FullPayload? && UntouchedFrom(h, Ts(h, anchor), f1, f2)
    requires id in h && Ts(h, id) >= Ts(h, anchor)
    ensures StateAt(f1, id) == StateAt(f2, id)
  {
    WalkAbove(f1, f2, h, anchor, id, {});
  }

  lemma PassKeepsState(a: Sys, b: Sys, anchor: Meta, m: Meta)
    requires Inv(a) && a.up && Inv(b) && b.h == a.h && CollectedFrom(a, b, anchor)
    requires anchor in a.list && anchor.kind.FullKind? && m in a.list && m.ts >= anchor.ts
    ensures StateAt(a.fs, m.id) == StateAt(b.fs, m.id)
  {
    assert GenuineAttempt(a.h, anchor.id);
    StateAbove(a.fs, b.fs, a.h, anchor.id, m.id);
  }

  /** And its state rebuilds as before, or fails as before; after the newest anchor it is the one captured. */
  lemma WindowKeepsItsStates(a: Sys, b: Sys, cutoff: int, t: int, m: Meta)
    requires Inv(a) && Inv(b) && Collected(a, b, cutoff) && cutoff <= t && LastAt(a.list, t, m)
    ensures LastAt(b.list, t, m)
    ensures StateAt(a.fs, m.id) == StateAt(b.fs, m.id)
    ensures t >= a.floor ==> m.id in a.h && StateAt(a.fs, m.id) == Ok(a.h[m.id].captured)
  {
    WindowKeepsItsSnapshots(a, b, cutoff, t, m);
    if b.fs != a.fs || b.list != a.list {
      var anchor :| IsAnchor(a.list, cutoff, anchor) && CollectedFrom(a, b, anchor);
      PassKeepsState(a, b, anchor, m);
    }
    if t >= a.floor {
      WindowIsAboveFloor(a, t, m);
      LiveRebuilds(a, m.id);
    }
  }

  lemma FullRecordsSayFull(h: History, id: Id)
    requires Genuine(h) && id in h && h[id].rec.payload.FullPayload?
    ensures h[id].rec.meta.kind.FullKind?
  {
    assert GenuineAttempt(h, id);
  }

  lemma LastFullIsNotBefore(l: seq<Meta>, cutoff: int, anchor: int, x: Meta)
    requires StrictlySorted(TsLess, l) && -1 <= anchor < |l|
    requires forall i :: anchor < i < |l| ==> !(l[i].kind.FullKind? && l[i].ts <= cutoff)
    requires x in l && x.kind.FullKind? && x.ts <= cutoff
    ensures anchor >= 0 && l[anchor].ts >= x.ts
  {
    var i :| 0 <= i < |l| && l[i] == x;
    TsMonotone(l, i, anchor);
  }

  /** The anchor a pass picks is not before the newest one exactly when the cutoff is not. */
  lemma AnchorsMoveForwardExactlyWhen(s: Sys, cutoff: int, anchor: int)
    requires HistoryOk(s.h, s.floor, s.live) && ListOk(s)
    requires -1 <= anchor < |s.list|
    requires anchor >= 0 ==> s.list[anchor].kind.FullKind? && s.list[anchor].ts <= cutoff
    requires forall i :: anchor < i < |s.list| ==> !(s.list[i].kind.FullKind? && s.list[i].ts <= cutoff)
    ensures 0 < s.floor <= cutoff ==> anchor >= 0
    ensures anchor >= 0 ==> (s.list[anchor].ts >= s.floor <==> s.floor <= cutoff)
  {
    if 0 < s.floor <= cutoff {
      var x := FloorIsListed(s.h, s.floor, s.live, s.list);
      LastFullIsNotBefore(s.list, cutoff, anchor, x);
    } else if anchor >= 0 && s.floor <= cutoff {
      assert s.list[anchor] in s.list;
      FloorIsNat(s.h, s.floor, s.live);
    }
  }

  lemma FloorIsNat(h: History, floor: int, live: set<Id>)
    requires HistoryOk(h, floor, live)
    ensures floor >= 0 && forall id :: id in h ==> Ts(h, id) >= 0
  {
  }

  lemma FloorIsListed(h: History, floor: int, live: set<Id>, l: seq<Meta>) returns (x: Meta)
    requires HistoryOk(h, floor, live) && floor != 0 && live <= Ids(l) && Listed(l, h)
    ensures x in l && x.kind.FullKind? && x.ts == floor
  {
    var f :| f in live && f in h && h[f].rec.payload.FullPayload? && Ts(h, f) == floor;
    FullRecordsSayFull(h, f);
    x :| x in l && x.id == f;
  }

  // ---- collection and blame ---------------------------------------------------------------

  /** The naive timeline's points are the captured states. */
  function Captured(l: seq<Meta>, h: History): seq<Blame.Point>
    requires forall m :: m in l ==> m.id in h
  {
    seq(|l|, i requires 0 <= i < |l| => assert l[i] in l; Blame.Point(l[i].ts, l[i].id, h[l[i].id].captured))
  }

  lemma {:induction false} PointsAreCaptured(fs: Fs, l: seq<Meta>, h: History)
    requires forall m :: m in l ==> m.id in h && StateAt(fs, m.id) == Ok(h[m.id].captured)
    ensures Blame.Points(fs, l) == Ok(Captured(l, h))
  {
    if l != [] {
      var init, m := l[..|l| - 1], l[|l| - 1];
      PointsAreCaptured(fs, init, h);
      assert m in l;
      assert Captured(l, h) == Captured(init, h) + [Blame.Point(m.ts, m.id, h[m.id].captured)];
    }
  }

  /** A pass in which nothing failed leaves exactly the entries from its anchor on. */
  lemma SweptLeavesSuffix(a: Sys, b: Sys, cutoff: int, k: nat)
    requires StrictlySorted(TsLess, a.list) && StrictlySorted(TsLess, b.list) && k < |a.list|
    requires a.list[k].kind.FullKind? && a.list[k].ts <= cutoff
    requires forall i :: k < i < |a.list| ==> !(a.list[i].kind.FullKind? && a.list[i].ts <= cutoff)
    requires forall m :: m in a.list ==> m.id in a.fs.snapshots
    requires CollectedBefore(a, b, cutoff) && Swept(a.list, b.list, a.fs.snapshots, cutoff)
    ensures b.list == a.list[k..]
  {
    TsOrders();
    var kept := a.list[k..];
    forall m | m in kept ensures m in b.list { SuffixIsKept(a, b, cutoff, k, m); }
    forall m | m in b.list ensures m in kept {
      var i :| 0 <= i < |a.list| && a.list[i] == m;
      TsMonotone(a.list, i, k);
      assert a.list[k] in a.list;
      assert i >= k && kept[i - k] == m;
    }
    StrictlySortedUnique(TsLess, b.list, kept);
  }

  lemma SuffixIsKept(a: Sys, b: Sys, cutoff: int, k: nat, m: Meta)
    requires StrictlySorted(TsLess, a.list) && k < |a.list|
    requires forall i :: k < i < |a.list| ==> !(a.list[i].kind.FullKind? && a.list[i].ts <= cutoff)
    requires CollectedBefore(a, b, cutoff) && m in a.list[k..]
    ensures m in b.list
  {
    var j :| 0 <= j < |a.list[k..]| && a.list[k..][j] == m;
    assert a.list[k + j] == m;
    if b.list != a.list {
      var x :| IsAnchor(a.list, cutoff, x) && CollectedFrom(a, b, x);
      LastFullIsNotBefore(a.list, cutoff, k, x);
      TsMonotone(a.list, k, k + j);
    }
  }

  lemma CapturedSuffix(l: seq<Meta>, k: nat, h: History)
    requires k <= |l| && forall m :: m in l ==> m.id in h
    ensures Captured(l[k..], h) == Captured(l, h)[k..]
  {
  }

  lemma CapturedAscends(l: seq<Meta>, h: History)
    requires StrictlySorted(TsLess, l) && forall m :: m in l ==> m.id in h
    ensures Blame.Ascending(Captured(l, h))
  {
    var ps := Captured(l, h);
    forall i, j | 0 <= i < j < |ps| ensures ps[i].ts < ps[j].ts { assert TsLess(l[i], l[j]); }
  }

  lemma TimelineOfSuffix(before: Fs, after: Fs, l: seq<Meta>, k: nat, h: History, target: Key)
    requires StrictlySorted(TsLess, l) && k < |l|
    requires forall m :: m in l ==> m.id in h && StateAt(before, m.id) == Ok(h[m.id].captured)
    requires forall m :: m in l[k..] ==> StateAt(after, m.id) == Ok(h[m.id].captured)
    ensures var m := l[k];
            && m.id in h
            && var earlier, later := Blame.Naive(before, l, target), Blame.Naive(after, l[k..], target);
               var s := h[m.id].captured;
            && earlier.Ok? && later.Ok?
            && later.value ==
                 (if target in s then [Blame.Row(m.ts, Blame.Created, s[target], m.id)] else [])
                 + Blame.RowsAfter(earlier.value, m.ts)
  {
    PointsAreCaptured(before, l, h);
    PointsAreCaptured(after, l[k..], h);
    CapturedSuffix(l, k, h);
    CapturedAscends(l, h);
    assert l[k] in l;
    Blame.TimelineAfterCollection(Captured(l, h), k, target);
  }

  /** Where the naive timeline exists, every state is the captured one. */
  lemma NaiveStatesAreCaptured(fs: Fs, l: seq<Meta>, h: History)
    requires Genuine(h) && Faithful(fs, h) && Blame.Points(fs, l).Ok?
    ensures forall m :: m in l ==> m.id in h && StateAt(fs, m.id) == Ok(h[m.id].captured)
  {
    forall m | m in l ensures m.id in h && StateAt(fs, m.id) == Ok(h[m.id].captured) {
      var i :| 0 <= i < |l| && l[i] == m;
      if StateAt(fs, m.id).Err? { Blame.NaiveNeedsEveryState(fs, l, i); }
      NeverWrong(fs, h, m.id);
    }
  }

  /** The timeline after the point where `m` stands, behind a CREATED row for what is present there. */
  function TimelineFrom(m: Meta, s: Snapshot, rows: seq<Blame.Row>, target: Key): seq<Blame.Row>
  {
    (if target in s then [Blame.Row(m.ts, Blame.Created, s[target], m.id)] else []) + Blame.RowsAfter(rows, m.ts)
  }

  lemma InSuffixIsNotBefore(l: seq<Meta>, k: nat, m: Meta)
    requires StrictlySorted(TsLess, l) && k < |l| && m in l[k..]
    ensures m in l && m.ts >= l[k].ts
  {
    var i :| 0 <= i < |l[k..]| && l[k..][i] == m;
    assert l[k + i] == m;
    TsMonotone(l, k, k + i);
  }

  lemma ListIsByTime(s: Sys)
    requires Inv(s) && s.up
    ensures StrictlySorted(TsLess, s.list)
  {
  }

  lemma SuffixStatesStay(a: Sys, b: Sys, k: nat)
    requires Inv(a) && a.up && Inv(b) && b.h == a.h && k < |a.list| && a.list[k].kind.FullKind?
    requires CollectedFrom(a, b, a.list[k])
    ensures forall m :: m in a.list[k..] ==> StateAt(a.fs, m.id) == StateAt(b.fs, m.id)
  {
    ListIsByTime(a);
    assert a.list[k] in a.list;
    forall m | m in a.list[k..] ensures StateAt(a.fs, m.id) == StateAt(b.fs, m.id) {
      InSuffixIsNotBefore(a.list, k, m);
      PassKeepsState(a, b, a.list[k], m);
    }
  }

  /** Whatever is left below the newest anchor: what a pass keeps from its anchor on has the old timeline. */
  lemma NaiveTimelineAfterPass(a: Sys, b: Sys, k: nat, target: Key)
    requires Inv(a) && a.up && Inv(b) && b.h == a.h && k < |a.list| && a.list[k].kind.FullKind?
    requires CollectedFrom(a, b, a.list[k])
    requires Blame.Naive(a.fs, a.list, target).Ok?
    ensures a.list[k].id in a.h
    ensures Blame.Naive(b.fs, a.list[k..], target)
            == Ok(TimelineFrom(a.list[k], a.h[a.list[k].id].captured, Blame.Naive(a.fs, a.list, target).value, target))
  {
    assert a.list[k] in a.list;
    NaiveStatesAreCaptured(a.fs, a.list, a.h);
    SuffixStatesStay(a, b, k);
    assert forall m :: m in a.list[k..] ==> m in a.list;
    TimelineOfSuffix(a.fs, b.fs, a.list, k, a.h, target);
  }

  // ---- from the contract of a pass to the rows that blame reports ----------------------------------

  lemma PassKeepsFromAnchor(a: Sys, b: Sys, cutoff: int, k: nat)
    requires StrictlySorted(TsLess, a.list) && AnchorAt(a.list, cutoff, k)
    requires CollectedBefore(a, b, cutoff)
    ensures CollectedFrom(a, b, a.list[k])
  {
    if !(b.list == a.list && b.fs == a.fs) {
      var x :| IsAnchor(a.list, cutoff, x) && CollectedFrom(a, b, x);
      LastFullIsNotBefore(a.list, cutoff, k, x);
      assert a.list[k] in a.list && x.ts == a.list[k].ts;
    }
  }

  lemma SuffixIsInOrder(l: seq<Meta>, k: nat)
    requires Blame.InOrder(l) && k < |l| && l[k].kind.FullKind?
    ensures Blame.InOrder(l[k..])
  {
    var r := l[k..];
    forall i, j | 0 <= i < j < |r| && j == i + 1 && r[j].kind.DeltaKind? ensures r[j].prev == r[i].id {
      assert r[i] == l[k + i] && r[j] == l[k + j];
    }
  }

  lemma SuffixStaysComplete(a: Sys, b: Sys, k: nat)
    requires k < |a.list| && Listed(a.list, a.h) && CollectedFrom(a, b, a.list[k]) && b.h == a.h
    requires forall m :: m in a.list ==> Complete(a.fs, a.h, m.id)
    ensures forall m :: m in a.list[k..] ==> Complete(b.fs, b.h, m.id)
  {
    forall m | m in a.list[k..] ensures Complete(b.fs, b.h, m.id) { InSuffixIsNotBefore(a.list, k, m); }
  }

  lemma WriterListIsComplete(s: Sys)
    requires Inv(s) && s.up && Blame.AllReadable(s.fs, s.list)
    ensures Listed(s.list, s.h) && forall m :: m in s.list ==> Complete(s.fs, s.h, m.id)
  {
    forall m | m in s.list ensures Complete(s.fs, s.h, m.id) {
      assert m.id in s.fs.snapshots;
    }
  }

  /** Before the pass: the single pass of blame is the naive timeline, and every state is the captured one. */
  lemma BlameBeforePass(a: Sys, target: Key)
    requires Inv(a) && a.up && Blame.InOrder(a.list) && Blame.AllReadable(a.fs, a.list)
    ensures Blame.PassIsRight(a.fs, a.list, target)
  {
    WriterListIsComplete(a);
    InOrderIsRight(a.fs, a.list, a.h, target);
  }

  /** After it: the rest of the list is in order, and blame over it is the naive timeline. */
  lemma BlameAfterPass(a: Sys, b: Sys, k: nat, target: Key)
    requires Inv(a) && a.up && Blame.InOrder(a.list) && Blame.AllReadable(a.fs, a.list)
    requires k < |a.list| && a.list[k].kind.FullKind? && CollectedFrom(a, b, a.list[k]) && b.h == a.h
    ensures Blame.PassIsRight(b.fs, a.list[k..], target)
  {
    WriterListIsComplete(a);
    SuffixIsInOrder(a.list, k);
    SuffixStaysComplete(a, b, k);
    SuffixIsListed(a.list, k, a.h);
    InOrderIsRight(b.fs, a.list[k..], b.h, target);
  }

  lemma SuffixIsListed(l: seq<Meta>, k: nat, h: History)
    requires Listed(l, h) && k <= |l|
    ensures Listed(l[k..], h)
  {
    var r := l[k..];
    forall i, j | 0 <= i < j < |r| ensures TsLess(r[i], r[j]) { TsMonotone(l, k + i, k + j); }
  }

  lemma CleanPassLeavesSuffix(a: Sys, b: Sys, cutoff: int, k: nat)
    requires Inv(a) && a.up && Inv(b) && b.up && Blame.AllReadable(a.fs, a.list) && AnchorAt(a.list, cutoff, k)
    requires CollectedBefore(a, b, cutoff) && Swept(a.list, b.list, a.fs.snapshots, cutoff)
    ensures b.list == a.list[k..]
  {
    WriterListIsComplete(a);
    SweptLeavesSuffix(a, b, cutoff, k);
  }

  /**
   Collection commutes with blame. From what a pass without faults promises, over a list in order whose
   entries can all be read: what `blame` reports of any resource after the pass is a CREATED row at the
   anchor, exactly when the resource is present there, and then its old rows after the anchor.
   */
  lemma CollectionCommutesWithBlame(a: Sys, b: Sys, cutoff: int, k: nat, target: Key)
    requires Inv(a) && Inv(b) && Collected(a, b, cutoff) && Swept(a.list, b.list, a.fs.snapshots, cutoff)
    requires AnchorAt(a.list, cutoff, k) && Blame.InOrder(a.list) && Blame.AllReadable(a.fs, a.list)
    ensures a.list[k].id in a.h && Blame.Fold(a.fs, a.list, target).Ok?
    ensures Blame.RowsOf(Blame.Fold(b.fs, b.list, target))
            == Ok(TimelineFrom(a.list[k], a.h[a.list[k].id].captured,
                               Blame.Fold(a.fs, a.list, target).value.rows, target))
  {
    CleanPassLeavesSuffix(a, b, cutoff, k);
    PassKeepsFromAnchor(a, b, cutoff, k);
    BlameBeforePass(a, target);
    BlameAfterPass(a, b, k, target);
    NaiveTimelineAfterPass(a, b, k, target);
  }
}
