/** Commands that read the store without a lock, while the agent goes on writing to it. */
module Readers {
  import opened Times
  import opened D = Delta
  import opened Files
  import opened Store
  import opened History
  import opened Reconstruct
  import opened Runs
  import opened Visible
  import opened Promises
  import opened Timelines
  import Blame

  lemma StaysFaithful(fs: Fs, h: History, h': History)
    requires Faithful(fs, h) && Extends(h, h')
    ensures Faithful(fs, h')
  {
  }

  lemma EndIsFaithful(run: seq<Sys>, i: nat)
    requires IsRun(run) && Init(run[0]) && i < |run|
    ensures Genuine(run[i].h) && Faithful(run[i].fs, run[i].h)
  {
    RunKeepsInv(run, i);
  }

  lemma LaterExtends(run: seq<Sys>, i: nat, j: nat)
    requires IsRun(run) && Init(run[0]) && i <= j < |run|
    ensures Extends(run[i].h, run[j].h)
  {
    RunGrows(run, i, j);
  }

  /**
   All states of the disk that can be seen during a run, also those between the filesystem operations of
   a step that goes through, tell one story: that of the last history.
   */
  lemma SeenIsFaithful(run: seq<Sys>, fs: Fs)
    requires IsRun(run) && Init(run[0]) && Seen(run, fs)
    ensures Genuine(run[|run| - 1].h) && Faithful(fs, run[|run| - 1].h)
  {
    var ended, k := SeenIsTheEndOfARun(run, fs);
    EndIsFaithful(ended, |ended| - 1);
    EndIsFaithful(run, |run| - 1);
    LaterExtends(run, k, |run| - 1);
    StaysFaithful(fs, run[k].h, run[|run| - 1].h);
  }

  lemma AllSeenAreFaithful(run: seq<Sys>, timeline: seq<Fs>)
    requires IsRun(run) && Init(run[0]) && timeline != [] && forall fs :: fs in timeline ==> Seen(run, fs)
    ensures Genuine(run[|run| - 1].h) && forall fs :: fs in timeline ==> Faithful(fs, run[|run| - 1].h)
  {
    EndIsFaithful(run, |run| - 1);
    forall fs | fs in timeline ensures Faithful(fs, run[|run| - 1].h) { SeenIsFaithful(run, fs); }
  }

  /**
   Reconstruction beside the agent: whatever states of the disk it comes across during a run, it returns
   the state captured for the ID, or an error.
   */
  method ReconstructBeside(ghost run: seq<Sys>, timeline: seq<Fs>, id: Id) returns (r: Result<Snapshot>)
    requires IsRun(run) && Init(run[0]) && timeline != [] && forall fs :: fs in timeline ==> Seen(run, fs)
    ensures r.Ok? ==> id in run[|run| - 1].h && r.value == run[|run| - 1].h[id].captured
    ensures |timeline| == 1 ==> r == StateAt(timeline[0], id)
  {
    AllSeenAreFaithful(run, timeline);
    r := Reconstruct.Reconstruct(timeline, id);
  }

  // ---- blame ---------------------------------------------------------------------------

  /** A reader that finds its index at one moment and the staged deletions at another. */
  lemma SeenListIsListed(run: seq<Sys>, indexAt: Fs, base: seq<Meta>, staged: set<Id>)
    requires IsRun(run) && Init(run[0]) && Seen(run, indexAt) && Base(indexAt, base)
    ensures Listed(Without(base, staged), run[|run| - 1].h)
  {
    var ended, k := SeenIsTheEndOfARun(run, indexAt);
    BaseIsListed(ended, base);
    LaterExtends(run, k, |run| - 1);
    ListedGrows(base, run[k].h, run[|run| - 1].h);
    WithoutSorted(TsLess, base, staged);
  }

  lemma BaseIsListed(run: seq<Sys>, base: seq<Meta>)
    requires IsRun(run) && Init(run[0]) && Base(run[|run| - 1].fs, base)
    ensures Listed(base, run[|run| - 1].h)
  {
    RunKeepsInv(run, |run| - 1);
    var s := run[|run| - 1];
    BaseIsOk(s.fs, base, s.h, s.live, s.gone, s.stranded);
  }

  /** On the archive every attempt rebuilds to what was captured. */
  lemma {:induction false} ArchiveRebuilds(h: History, id: Id)
    requires Genuine(h) && id in h && forall x :: x in h ==> Ts(h, x) >= 0
    ensures StateAt(Blame.Archive(h), id) == Ok(h[id].captured)
    decreases Ts(h, id)
  {
    var fs := Blame.Archive(h);
    assert GenuineAttempt(h, id) && Complete(fs, h, id);
    CompleteReads(fs, h, id);
    LinkIsCaptured(h, id);
    if h[id].rec.payload.FullPayload? {
      StateAtFull(fs, id);
    } else {
      var prev := h[id].rec.meta.prev;
      ArchiveRebuilds(h, prev);
      assert GenuineAttempt(h, prev);
      StateAtDelta(fs, id);
    }
  }

  lemma ArchiveIsInOrder(h: History, list: seq<Meta>, target: Key)
    requires Genuine(h) && Listed(list, h) && Blame.InOrder(list)
    ensures Blame.PassIsRight(Blame.Archive(h), list, target)
  {
    var fs := Blame.Archive(h);
    assert forall m :: m in list ==> Complete(fs, h, m.id);
    InOrderIsRight(fs, list, h, target);
  }

  /**
   Blame beside the agent. The list was read without a lock: the index at one moment of the run, the
   staged deletions at another. A pass over it that succeeds, if the list is in order, reports the
   timeline of the captured states, whatever the agent writes or deletes meanwhile.
   */
  method BlameBeside(ghost run: seq<Sys>, ghost indexAt: Fs, ghost base: seq<Meta>, ghost staged: set<Id>,
                     timeline: seq<Fs>, list: seq<Meta>, target: Key)
    returns (r: Result<seq<Blame.Row>>)
    requires IsRun(run) && Init(run[0]) && timeline != [] && forall fs :: fs in timeline ==> Seen(run, fs)
    requires Seen(run, indexAt) && Base(indexAt, base) && list == Without(base, staged)
    ensures r.Ok? && Blame.InOrder(list) ==> r == Blame.Naive(Blame.Archive(run[|run| - 1].h), list, target)
  {
    ghost var h := run[|run| - 1].h;
    AllSeenAreFaithful(run, timeline);
    SeenListIsListed(run, indexAt, base, staged);
    r := Blame.ComputeBlame(timeline, list, target);
    assert Blame.OneStory(timeline, h);
    if r.Ok? && Blame.InOrder(list) { ArchiveIsInOrder(h, list, target); }
  }
}
