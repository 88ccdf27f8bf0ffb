/**
 The ghost history of a recorder: for every snapshot ID ever attempted, the record that was meant to
 be written and the buffer contents it was captured from. Nothing in it is ever changed or forgotten.
 */
module History {
  import Sorting
  import opened Times
  import opened D = Delta
  import opened Wire
  import opened Files
  import opened Store

  datatype Attempt = Attempt(rec: Record, captured: Snapshot, time: Time, depth: nat)

  type History = map<Id, Attempt>

  function Ts(h: History, id: Id): int
    requires id in h
  {
    h[id].rec.meta.ts
  }

  /** A full record holds what was captured; a delta record leads to it from an earlier attempt. */
  ghost predicate GenuineAttempt(h: History, id: Id)
    requires id in h
  {
    var x := h[id];
    && ValidTime(x.time) && x.rec.meta.id == id
    && if x.rec.payload.FullPayload? then FullRecord(x.rec, x.time, x.captured) && x.depth == 1
       else
         var d, prev := WireToDelta(x.rec.payload.delta), x.rec.meta.prev;
         && DeltaRecord(x.rec, x.time, prev, d)
         && prev in h && Ts(h, prev) < Ts(h, id)
         && Patch(h[prev].captured, d) == x.captured
         && x.depth == h[prev].depth + 1
  }

  /** No full snapshot was attempted between a delta and the snapshot it is relative to. */
  ghost predicate NoFullBetween(h: History)
  {
    forall d, f {:trigger h[d].rec.meta.prev, h[f].rec.payload} ::
                d in h && h[d].rec.payload.DeltaPayload? && h[d].rec.meta.prev in h
                && f in h && h[f].rec.payload.FullPayload?
                ==> !(Ts(h, h[d].rec.meta.prev) < Ts(h, f) < Ts(h, d))
  }

  ghost predicate Genuine(h: History)
  {
    forall id {:trigger GenuineAttempt(h, id)} :: id in h ==> GenuineAttempt(h, id)
  }

  ghost predicate DistinctTimes(h: History)
  {
    forall x, y :: x in h && y in h && x != y ==> Ts(h, x) != Ts(h, y)
  }

  /** Every file on the disk is the one the history says, wherever its directory is. */
  ghost predicate Faithful(fs: Fs, h: History)
  {
    && (forall id :: id in fs.snapshots ==> id in h && Within(fs.snapshots[id], WholeDir(h[id].rec)))
    && (forall id :: id in fs.deleting ==> id in h && Within(fs.deleting[id], WholeDir(h[id].rec)))
  }

  ghost predicate Complete(fs: Fs, h: History, id: Id)
  {
    id in h && id in fs.snapshots && fs.snapshots[id] == WholeDir(h[id].rec)
  }

  /** `list` holds distinct attempts in strictly ascending time order, with their own metadata. */
  ghost predicate Listed(list: seq<Meta>, h: History)
  {
    && Sorting.StrictlySorted(TsLess, list)
    && forall m :: m in list ==> m.id in h && m == h[m.id].rec.meta
  }
}
