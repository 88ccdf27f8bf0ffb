/** The disk states that others can see, and that a crash can leave, while a run goes on. */
module Visible {
  import opened Times
  import opened Files
  import opened Store
  import opened Runs

  ghost predicate WhileFlushing(a: Sys, t: Time, rec: Record, b: Sys, fs: Fs)
  {
    && (Flushed(a, t, rec, b) || FlushFailed(a, t, rec, b) || FlushCrashed(a, t, rec, b))
    && PutWindow(a.fs, a.list, rec, fs)
  }

  ghost predicate WhileDeleting(a: Sys, id: Id, ok: bool, b: Sys, fs: Fs)
  {
    (Deleted(a, id, ok, b) || DeleteCrashed(a, id, b)) && DeleteWindow(a.fs, a.list, id, fs)
  }

  ghost predicate WhileOpening(a: Sys, base: seq<Meta>, b: Sys, fs: Fs)
  {
    (Reopened(a, base, b) || OpenInterrupted(a, base, b)) && OpenWindow(a.fs, base, fs)
  }

  /** `fs` is a state of the disk before, after, or between the filesystem operations of a step. */
  ghost predicate During(a: Sys, b: Sys, fs: Fs)
  {
    || fs == a.fs || fs == b.fs
    || (exists t, rec :: WhileFlushing(a, t, rec, b, fs))
    || (exists id, ok :: WhileDeleting(a, id, ok, b, fs))
    || (exists base :: WhileOpening(a, base, b, fs))
  }

  ghost predicate SeenAt(run: seq<Sys>, k: nat, fs: Fs)
    requires k < |run|
  {
    run[k].fs == fs || (k + 1 < |run| && During(run[k], run[k + 1], fs))
  }

  ghost predicate Seen(run: seq<Sys>, fs: Fs)
  {
    exists k: nat :: k < |run| && SeenAt(run, k, fs)
  }

  // ---- longer runs see more ----------------------------------------------------

  lemma SeenInLonger(run: seq<Sys>, run': seq<Sys>)
    requires run <= run'
    ensures forall fs :: Seen(run, fs) ==> Seen(run', fs)
  {
    forall fs | Seen(run, fs) ensures Seen(run', fs) {
      var k: nat :| k < |run| && SeenAt(run, k, fs);
      assert run'[k] == run[k] && (k + 1 < |run| ==> run'[k + 1] == run[k + 1]);
      assert SeenAt(run', k, fs);
    }
  }

  lemma LastStepIsSeen(run: seq<Sys>, b: Sys, fs: Fs)
    requires run != [] && During(run[|run| - 1], b, fs)
    ensures Seen(run + [b], fs)
  {
    assert SeenAt(run + [b], |run| - 1, fs);
  }

  lemma FlushIsSeen(run: seq<Sys>, t: Time, rec: Record, b: Sys)
    requires run != [] && (Flushed(run[|run| - 1], t, rec, b) || FlushFailed(run[|run| - 1], t, rec, b))
    ensures forall fs :: PutWindow(run[|run| - 1].fs, run[|run| - 1].list, rec, fs) ==> Seen(run + [b], fs)
  {
    var a := run[|run| - 1];
    forall fs | PutWindow(a.fs, a.list, rec, fs) ensures Seen(run + [b], fs) {
      assert WhileFlushing(a, t, rec, b, fs);
      LastStepIsSeen(run, b, fs);
    }
  }

  lemma DeletionIsSeen(run: seq<Sys>, id: Id, ok: bool, b: Sys)
    requires run != [] && Deleted(run[|run| - 1], id, ok, b)
    ensures forall fs :: DeleteWindow(run[|run| - 1].fs, run[|run| - 1].list, id, fs) ==> Seen(run + [b], fs)
  {
    var a := run[|run| - 1];
    forall fs | DeleteWindow(a.fs, a.list, id, fs) ensures Seen(run + [b], fs) {
      assert WhileDeleting(a, id, ok, b, fs);
      LastStepIsSeen(run, b, fs);
    }
  }

  lemma OpenIsSeen(a: Sys, base: seq<Meta>, b: Sys)
    requires Reopened(a, base, b) || OpenInterrupted(a, base, b)
    ensures forall fs :: OpenWindow(a.fs, base, fs) ==> Seen([a, b], fs)
  {
    forall fs | OpenWindow(a.fs, base, fs) ensures Seen([a, b], fs) {
      assert WhileOpening(a, base, b, fs);
      assert SeenAt([a, b], 0, fs);
    }
  }

  // ---- what is seen can be what a crash leaves --------------------------------------

  lemma CrashWhileFlushing(a: Sys, t: Time, rec: Record, b: Sys, fs: Fs) returns (c: Sys)
    requires WhileFlushing(a, t, rec, b, fs)
    ensures FlushCrashed(a, t, rec, c) && c.fs == fs && c.h == b.h
  {
    c := a.(fs := fs, up := false, h := Tried(a, t, rec));
  }

  lemma CrashWhileDeleting(a: Sys, id: Id, ok: bool, b: Sys, fs: Fs) returns (c: Sys)
    requires WhileDeleting(a, id, ok, b, fs)
    ensures DeleteCrashed(a, id, c) && c.fs == fs && c.h == b.h
  {
    c := a.(fs := fs, up := false, live := a.live - {id},
            gone := if id in fs.deleting || DeleteCommitted(a.list, id, fs) then a.gone + {id} else a.gone);
  }

  lemma CrashWhileOpening(a: Sys, base: seq<Meta>, b: Sys, fs: Fs) returns (c: Sys)
    requires WhileOpening(a, base, b, fs)
    ensures OpenInterrupted(a, base, c) && c.fs == fs && c.h == b.h
  {
    c := a.(fs := fs, gone := a.gone + a.fs.deleting.Keys);
  }

  /** Any state seen inside a step is one that a step cut short leaves. */
  lemma CrashInside(a: Sys, b: Sys, fs: Fs) returns (c: Sys)
    requires During(a, b, fs) && fs != a.fs && fs != b.fs
    ensures Step(a, c) && c.fs == fs && !c.up && c.h == b.h
  {
    if t, rec :| WhileFlushing(a, t, rec, b, fs) {
      c := CrashWhileFlushing(a, t, rec, b, fs);
    } else if id, ok :| WhileDeleting(a, id, ok, b, fs) {
      c := CrashWhileDeleting(a, id, ok, b, fs);
    } else {
      var base :| WhileOpening(a, base, b, fs);
      c := CrashWhileOpening(a, base, b, fs);
    }
  }

  lemma EndsInside(run: seq<Sys>, k: nat, fs: Fs) returns (run': seq<Sys>)
    requires IsRun(run) && k + 1 < |run| && During(run[k], run[k + 1], fs) && fs != run[k].fs && fs != run[k + 1].fs
    ensures IsRun(run') && run'[0] == run[0] && run'[|run'| - 1].fs == fs && run'[|run'| - 1].h == run[k + 1].h
  {
    PrefixIsRun(run, k);
    var c := CrashInside(run[k], run[k + 1], fs);
    OneMoreStep(run[..k + 1], c);
    run' := run[..k + 1] + [c];
  }

  /** So every promise about the end of a run holds for every state of the disk that anybody sees. */
  lemma SeenIsTheEndOfARun(run: seq<Sys>, fs: Fs) returns (run': seq<Sys>, k: nat)
    requires IsRun(run) && Seen(run, fs)
    ensures IsRun(run') && run'[0] == run[0] && run'[|run'| - 1].fs == fs
    ensures k < |run| && run'[|run'| - 1].h == run[k].h
  {
    k :| k < |run| && SeenAt(run, k, fs);
    if run[k].fs == fs {
      PrefixIsRun(run, k);
      run' := run[..k + 1];
    } else if run[k + 1].fs == fs {
      k := k + 1;
      PrefixIsRun(run, k);
      run' := run[..k + 1];
    } else {
      run' := EndsInside(run, k, fs);
      k := k + 1;
    }
  }
}
