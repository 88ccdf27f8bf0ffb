/** The burst counter against the flush that drains it first, captures the buffer later, and may not persist it. */
module Burst {
  import opened D = Delta

  /** The buffered state and the counter of changes. */
  datatype Buffered = Buffered(state: Snapshot, pending: nat)

  /** A flush drains the counter, later captures the buffer, and later still settles whether it was saved. */
  datatype Event = Upserted(key: Key, state: State) | Removed(key: Key) | Drained | Captured | Settled(ok: bool)

  /**
   The buffer, what was last captured and what was last persisted, with the number of changes made since
   the buffer looked like each; `stale` is the number of unsaved changes when the counter was last drained;
   `failed` says that the last flush did not persist what it captured.
   */
  datatype Window = Window(buf: Buffered, captured: Snapshot, since: nat, persisted: Snapshot, unsaved: nat,
                           stale: nat, draining: bool, saving: bool, failed: bool)
  {
    /** No flush is under way. */
    predicate Idle()
    {
      !draining && !saving
    }
  }

  const START := Window(Buffered(map[], 0), map[], 0, map[], 0, 0, false, false, false)

  function Change(w: Window, state: Snapshot): Window
  {
    w.(buf := Buffered(state, w.buf.pending + 1), since := w.since + 1, unsaved := w.unsaved + 1)
  }

  function Apply(w: Window, e: Event): Window
  {
    match e
    case Upserted(k, s) => Change(w, w.buf.state[k := s])
    case Removed(k) => Change(w, w.buf.state - {k})
    case Drained => w.(buf := Buffered(w.buf.state, 0), stale := w.unsaved, draining := true)
    case Captured => w.(captured := w.buf.state, since := 0, draining := false, saving := true)
    case Settled(ok) =>
      if ok then w.(persisted := w.captured, unsaved := w.since, saving := false, failed := false)
      else w.(saving := false, failed := true)
  }

  function Play(events: seq<Event>): Window
  {
    if events == [] then START else Apply(Play(events[..|events| - 1]), events[|events| - 1])
  }

  predicate Allowed(w: Window, e: Event)
  {
    && (e.Drained? ==> w.Idle())
    && (e.Captured? ==> w.draining)
    && (e.Settled? ==> w.saving)
  }

  /** Flushes do not overlap, and go from drain to capture to outcome. Informers act at any moment. */
  predicate Proper(events: seq<Event>)
  {
    events == [] ||
    (Proper(events[..|events| - 1]) && Allowed(Play(events[..|events| - 1]), events[|events| - 1]))
  }

  lemma OneMoreEvent(events: seq<Event>, e: Event)
    ensures Play(events + [e]) == Apply(Play(events), e)
    ensures Proper(events + [e]) <==> Proper(events) && Allowed(Play(events), e)
  {
    assert (events + [e])[..|events|] == events;
  }

  /** A whole flush between two others. */
  lemma WholeFlush(events: seq<Event>, ok: bool)
    requires Proper(events) && Play(events).Idle()
    ensures var all := events + [Drained] + [Captured] + [Settled(ok)];
            var before, after := Play(events), Play(all);
            && Proper(all) && after.Idle() && after.buf == Buffered(before.buf.state, 0)
            && after.captured == before.buf.state && (ok ==> after.persisted == before.buf.state)
            && (!ok ==> after.persisted == before.persisted)
  {
    OneMoreEvent(events, Drained);
    OneMoreEvent(events + [Drained], Captured);
    OneMoreEvent(events + [Drained] + [Captured], Settled(ok));
  }

  predicate MissesNothing(w: Window)
  {
    (w.since == 0 ==> w.captured == w.buf.state) && (!w.draining ==> w.buf.pending >= w.since)
  }

  lemma StillMissesNothing(w: Window, e: Event)
    requires MissesNothing(w)
    ensures MissesNothing(Apply(w, e))
  {
    match e
    case Upserted(k, s) =>
    case Removed(k) =>
    case Drained =>
    case Captured =>
    case Settled(ok) =>
  }

  /**
   For every interleaving: unless a flush is between drain and capture, the counter is at least the
   number of changes not yet captured; so a zero counter means the last capture is still accurate.
   */
  lemma {:induction false} CounterMissesNothing(events: seq<Event>)
    ensures var w := Play(events);
            MissesNothing(w) && (!w.draining && w.buf.pending == 0 ==> w.captured == w.buf.state)
  {
    if events != [] {
      CounterMissesNothing(events[..|events| - 1]);
      StillMissesNothing(Play(events[..|events| - 1]), events[|events| - 1]);
    }
  }

  /** During a flush, and after one that failed, the counter lacks exactly the changes that were stale. */
  predicate LacksStale(w: Window)
  {
    && !(w.draining && w.saving)
    && (!w.Idle() || w.failed ==> w.buf.pending + w.stale == w.unsaved)
    && (w.Idle() && !w.failed ==> w.buf.pending >= w.unsaved)
    && (w.unsaved == 0 ==> w.persisted == w.buf.state)
  }

  lemma StillLacksStale(w: Window, e: Event)
    requires LacksStale(w) && Allowed(w, e) && MissesNothing(w)
    ensures LacksStale(Apply(w, e))
  {
    match e
    case Upserted(k, s) =>
    case Removed(k) =>
    case Drained =>
    case Captured =>
    case Settled(ok) =>
  }

  lemma {:induction false} CounterLacksStale(events: seq<Event>)
    requires Proper(events)
    ensures LacksStale(Play(events))
  {
    if events != [] {
      var before := events[..|events| - 1];
      CounterMissesNothing(before);
      CounterLacksStale(before);
      StillLacksStale(Play(before), events[|events| - 1]);
    }
  }

  /**
   Outside a flush, the counter covers the changes that are not persisted exactly when the last flush
   succeeded or had nothing stale to save; then a zero counter means the last save is still accurate.
   */
  lemma CounterCoversUnsavedExactlyWhen(events: seq<Event>)
    requires Proper(events) && Play(events).Idle()
    ensures var w := Play(events);
            && (w.buf.pending >= w.unsaved <==> !w.failed || w.stale == 0)
            && (w.buf.pending == 0 && (!w.failed || w.stale == 0) ==> w.persisted == w.buf.state)
  {
    CounterLacksStale(events);
  }

  /** One change, then a flush that fails: the counter is zero, and the change is nowhere but in the buffer. */
  lemma FailedFlushSilencesCounter(key: Key, state: State)
    ensures var events := [Upserted(key, state), Drained, Captured, Settled(false)];
            var w := Play(events);
            && Proper(events) && w.Idle()
            && w.buf.pending == 0 && w.unsaved == 1 && w.captured == w.buf.state && w.persisted != w.buf.state
  {
    var none: seq<Event> := [];
    OneMoreEvent(none, Upserted(key, state));
    WholeFlush(none + [Upserted(key, state)], false);
    assert none + [Upserted(key, state)] + [Drained] + [Captured] + [Settled(false)]
        == [Upserted(key, state), Drained, Captured, Settled(false)];
    FailedFlushKeepsCount(none + [Upserted(key, state)]);
    assert key in map[key := state];
  }

  lemma FailedFlushKeepsCount(events: seq<Event>)
    requires Proper(events) && Play(events).Idle()
    ensures Play(events + [Drained] + [Captured] + [Settled(false)]).unsaved == Play(events).unsaved
  {
    OneMoreEvent(events, Drained);
    OneMoreEvent(events + [Drained], Captured);
    OneMoreEvent(events + [Drained] + [Captured], Settled(false));
  }
}
