/** What a collection pass may do to the list and to the disk. */
module Collection {
  import opened Sorting
  import opened Times
  import opened Files
  import opened Store
  import opened History
  import opened Runs
  import StoreLaws

  /** The last full snapshot listed at or before the cutoff. */
  ghost predicate IsAnchor(l: seq<Meta>, cutoff: int, m: Meta)
  {
    && m in l && m.kind.FullKind? && m.ts <= cutoff
    && forall x :: x in l && x.kind.FullKind? && x.ts <= cutoff ==> x.ts <= m.ts
  }

  /** The two disks hold the same directories for every attempt at or after `from`. */
  ghost predicate UntouchedFrom(h: History, from: int, a: Fs, b: Fs)
  {
    forall id :: id in h && Ts(h, id) >= from ==>
                   && (id in a.snapshots <==> id in b.snapshots)
                   && (id in a.snapshots && id in b.snapshots ==> a.snapshots[id] == b.snapshots[id])
  }

  ghost predicate CollectedFrom(a: Sys, b: Sys, anchor: Meta)
  {
    && (forall m :: m in b.list ==> m in a.list)
    && (forall m :: m in a.list && m.ts >= anchor.ts ==> m in b.list)
    && UntouchedFrom(a.h, anchor.ts, a.fs, b.fs)
  }

  /** The pass did nothing, or kept everything from its anchor on, listed and on disk. */
  ghost predicate CollectedBefore(a: Sys, b: Sys, cutoff: int)
  {
    || (b.list == a.list && b.fs == a.fs)
    || exists anchor :: IsAnchor(a.list, cutoff, anchor) && CollectedFrom(a, b, anchor)
  }

  /** Collection leaves the flush position and the history alone. */
  ghost predicate SamePosition(a: Sys, b: Sys)
  {
    b == a.(fs := b.fs, list := b.list, floor := b.floor, live := b.live, gone := b.gone, stranded := b.stranded)
  }

  /** Before and after a pass, whichever deletions failed. */
  ghost predicate Collected(a: Sys, b: Sys, cutoff: int)
  {
    && a.up && SamePosition(a, b) && a.floor <= b.floor <= Max(a.floor, cutoff)
    && CollectedBefore(a, b, cutoff)
  }

  /** Every entry older than some full snapshot at or before the cutoff, and still on disk, is dropped. */
  ghost predicate Swept(list: seq<Meta>, list': seq<Meta>, snapshots: map<Id, Dir>, cutoff: int)
  {
    forall m, f :: m in list && f in list && f.kind.FullKind? && f.ts <= cutoff && m.ts < f.ts && m.id in snapshots
                   ==> m !in list'
  }

  /** Entry `k` is the anchor of a pass with this cutoff. */
  ghost predicate AnchorAt(l: seq<Meta>, cutoff: int, k: nat)
  {
    && k < |l| && l[k].kind.FullKind? && l[k].ts <= cutoff
    && forall i :: k < i < |l| ==> !(l[i].kind.FullKind? && l[i].ts <= cutoff)
  }

  // ---- what may be left over ------------------------------------------------------

  /** Older than some full snapshot listed at or before the cutoff. */
  ghost predicate Superseded(list: seq<Meta>, m: Meta, cutoff: int)
  {
    exists f :: f in list && f.kind.FullKind? && f.ts <= cutoff && m.ts < f.ts
  }

  /** The superseded entries that were on disk and are still listed. */
  ghost function Leftovers(list: seq<Meta>, list': seq<Meta>, snapshots: map<Id, Dir>, cutoff: int): set<Meta>
  {
    set m | m in list && m in list' && m.id in snapshots && Superseded(list, m, cutoff)
  }

  lemma NoLeftoversIsSwept(list: seq<Meta>, list': seq<Meta>, snapshots: map<Id, Dir>, cutoff: int)
    requires |Leftovers(list, list', snapshots, cutoff)| == 0
    ensures Swept(list, list', snapshots, cutoff)
  {
    forall m, f | m in list && f in list && f.kind.FullKind? && f.ts <= cutoff && m.ts < f.ts && m.id in snapshots
      ensures m !in list'
    {
      assert Superseded(list, m, cutoff);
      assert m !in Leftovers(list, list', snapshots, cutoff);
    }
  }

  /** The entries before `i` that were on disk (`was`) and are still listed. */
  ghost function LeftBefore(metas: seq<Meta>, i: int, left: seq<Meta>, was: set<Id>): set<Meta>
    requires i <= |metas|
  {
    set j | 0 <= j < i && metas[j].id in was && metas[j] in left :: metas[j]
  }

  lemma LeftoversAreBeforeAnchor(metas: seq<Meta>, anchor: int, cutoff: int, left: seq<Meta>, snapshots: map<Id, Dir>)
    requires StrictlySorted(TsLess, metas) && -1 <= anchor < |metas|
    requires forall i :: anchor < i < |metas| ==> !(metas[i].kind.FullKind? && metas[i].ts <= cutoff)
    ensures Leftovers(metas, left, snapshots, cutoff) <= LeftBefore(metas, anchor, left, snapshots.Keys)
    ensures |Leftovers(metas, left, snapshots, cutoff)| <= |LeftBefore(metas, anchor, left, snapshots.Keys)|
  {
    var some, all := Leftovers(metas, left, snapshots, cutoff), LeftBefore(metas, anchor, left, snapshots.Keys);
    forall m | m in some ensures m in all {
      var f :| f in metas && f.kind.FullKind? && f.ts <= cutoff && m.ts < f.ts;
      var i :| 0 <= i < |metas| && metas[i] == m;
      var j :| 0 <= j < |metas| && metas[j] == f;
      TsMonotone(metas, j, i);
    }
    SubsetIsSmaller(some, all);
  }

  lemma {:induction false} SubsetIsSmaller(x: set<Meta>, y: set<Meta>)
    requires x <= y
    ensures |x| <= |y|
    decreases |x|
  {
    if x != {} {
      var m :| m in x;
      SubsetIsSmaller(x - {m}, y - {m});
    }
  }

  // ---- the loop ----------------------------------------------------------------

  ghost predicate TriesDeletion(a: Sys, id: Id, b: Sys)
  {
    exists ok :: Deleted(a, id, ok, b)
  }

  /** Step `from + j` of the run tries to delete entry `j`. */
  ghost predicate TriedAt(run: seq<Sys>, from: nat, metas: seq<Meta>, j: int)
    requires 0 <= j < |metas| && from + j + 1 < |run|
  {
    TriesDeletion(run[from + j], metas[j].id, run[from + j + 1])
  }

  /** From state number `from` on, the run tries to delete the first `n` entries one by one, oldest first. */
  ghost predicate DeletesInOrder(run: seq<Sys>, from: nat, metas: seq<Meta>, n: nat)
    requires n <= |metas|
  {
    from + n < |run| && forall j {:trigger TriedAt(run, from, metas, j)} :: 0 <= j < n ==> TriedAt(run, from, metas, j)
  }

  lemma OneMoreDeletion(run: seq<Sys>, from: nat, metas: seq<Meta>, n: nat, b: Sys)
    requires n < |metas| && |run| == from + n + 1 && DeletesInOrder(run, from, metas, n)
    requires TriesDeletion(run[|run| - 1], metas[n].id, b)
    ensures DeletesInOrder(run + [b], from, metas, n + 1)
  {
    var more := run + [b];
    forall j | 0 <= j < n + 1 ensures TriedAt(more, from, metas, j) {
      if j < n { assert TriedAt(run, from, metas, j); }
    }
  }

  /** A whole pass: nothing without an anchor, else the anchor is settled on and everything before it is tried. */
  ghost predicate IsPass(run: seq<Sys>, cutoff: int)
  {
    run != [] &&
    if |run| == 1 then forall m :: m in run[0].list ==> !(m.kind.FullKind? && m.ts <= cutoff)
    else
      var list, anchor := run[0].list, |run| - 2;
      AnchorAt(list, cutoff, anchor) && Anchored(run[0], list[anchor], run[1]) && DeletesInOrder(run, 1, list, anchor)
  }

  /**
   The pass has come to entry `i`: the later entries are still listed and their directories untouched; each
   earlier one that was on disk (`was`) and is still listed has cost one of the `faults`.
   */
  ghost predicate Progress(metas: seq<Meta>, i: nat, left: seq<Meta>, was: set<Id>, now: set<Id>, faults: int)
    requires i <= |metas|
  {
    && (forall x :: x in left ==> x in metas)
    && (forall j :: i <= j < |metas| ==> metas[j] in left && (metas[j].id in now <==> metas[j].id in was))
    && |LeftBefore(metas, i, left, was)| <= faults
  }

  lemma ProgressGoesOn(metas: seq<Meta>, i: nat, left: seq<Meta>, left': seq<Meta>,
                       was: set<Id>, now: set<Id>, now': set<Id>, faults: int, faults': int)
    requires i < |metas| && StrictlySorted(StoreLaws.IdDiffers, metas)
    requires Progress(metas, i, left, was, now, faults) && faults <= faults'
    requires forall x :: x in left' ==> x in left
    requires forall x :: x in left && x.id != metas[i].id ==> x in left'
    requires forall x :: x != metas[i].id ==> (x in now' <==> x in now)
    requires faults' == faults && metas[i].id in now ==> metas[i] !in left'
    ensures Progress(metas, i + 1, left', was, now', faults')
  {
    forall j | i + 1 <= j < |metas| ensures metas[j] in left' && (metas[j].id in now' <==> metas[j].id in was) {
      assert StoreLaws.IdDiffers(metas[i], metas[j]);
    }
    LeftGrowsByFault(metas, i, left, left', was);
  }

  lemma LeftGrowsByFault(metas: seq<Meta>, i: nat, left: seq<Meta>, left': seq<Meta>, was: set<Id>)
    requires i < |metas| && forall x :: x in left' ==> x in left
    ensures var before, after := LeftBefore(metas, i, left, was), LeftBefore(metas, i + 1, left', was);
            |after| <= if metas[i].id in was && metas[i] in left' then |before| + 1 else |before|
  {
    var before, after := LeftBefore(metas, i, left, was), LeftBefore(metas, i + 1, left', was);
    if metas[i].id in was && metas[i] in left' {
      assert after <= before + {metas[i]};
      SubsetIsSmaller(after, before + {metas[i]});
    } else {
      SubsetIsSmaller(after, before);
    }
  }

  lemma ListIsDistinct(l: seq<Meta>, h: History)
    requires Listed(l, h)
    ensures StrictlySorted(StoreLaws.IdDiffers, l)
  {
    forall i, j | 0 <= i < j < |l| ensures StoreLaws.IdDiffers(l[i], l[j]) {
      assert TsLess(l[i], l[j]) && l[i] in l && l[j] in l;
    }
  }

  /** Deleting an older entry touches nothing at or after the anchor. */
  lemma UntouchedGoesOn(h: History, from: int, a: Fs, b: Fs, c: Fs, id: Id)
    requires UntouchedFrom(h, from, a, b) && SameExcept(b.snapshots, c.snapshots, id)
    requires id in h && Ts(h, id) < from
    ensures UntouchedFrom(h, from, a, c)
  {
  }

  lemma AnchorIsLastFull(metas: seq<Meta>, anchor: nat, cutoff: int)
    requires StrictlySorted(TsLess, metas)
    requires anchor < |metas| && metas[anchor].kind.FullKind? && metas[anchor].ts <= cutoff
    requires forall i :: anchor < i < |metas| ==> !(metas[i].kind.FullKind? && metas[i].ts <= cutoff)
    ensures IsAnchor(metas, cutoff, metas[anchor])
  {
    forall x | x in metas && x.kind.FullKind? && x.ts <= cutoff ensures x.ts <= metas[anchor].ts {
      var i :| 0 <= i < |metas| && metas[i] == x;
      TsMonotone(metas, i, anchor);
    }
  }

  lemma LaterEntriesAreKept(metas: seq<Meta>, anchor: nat, left: seq<Meta>)
    requires StrictlySorted(TsLess, metas) && anchor < |metas|
    requires forall j :: anchor <= j < |metas| ==> metas[j] in left
    ensures forall m :: m in metas && m.ts >= metas[anchor].ts ==> m in left
  {
    forall m | m in metas && m.ts >= metas[anchor].ts ensures m in left {
      var i :| 0 <= i < |metas| && metas[i] == m;
      TsMonotone(metas, i, anchor);
    }
  }

  /** What the pass leaves once everything before its anchor has been tried. */
  lemma PassIsCollection(a: Sys, b: Sys, anchor: nat, cutoff: int)
    requires StrictlySorted(TsLess, a.list)
    requires anchor < |a.list| && a.list[anchor].kind.FullKind? && a.list[anchor].ts <= cutoff
    requires forall i :: anchor < i < |a.list| ==> !(a.list[i].kind.FullKind? && a.list[i].ts <= cutoff)
    requires forall j :: anchor <= j < |a.list| ==> a.list[j] in b.list
    requires forall m :: m in b.list ==> m in a.list
    requires UntouchedFrom(a.h, a.list[anchor].ts, a.fs, b.fs)
    ensures CollectedBefore(a, b, cutoff)
  {
    AnchorIsLastFull(a.list, anchor, cutoff);
    LaterEntriesAreKept(a.list, anchor, b.list);
    assert CollectedFrom(a, b, a.list[anchor]);
  }
}
