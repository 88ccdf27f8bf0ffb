/** Rolling one resource back: get, preview, confirm, and update with the previewed ResourceVersion. */
module Rollback {
  import opened Store
  import opened Prompt

  type Content = seq<char>

  /** A live object. Each write to the server gives the object a fresh, non-zero ResourceVersion. */
  datatype Stored = Stored(rv: nat, uid: nat, content: Content)

  /** Object metadata and declared content as decoded from a snapshot payload. Zero and "" mean unset. */
  datatype Decoded = Decoded(rv: nat, uid: nat, created: int, generation: nat, managers: seq<string>,
                             selfLink: string, content: Content)

  class Manifest {
    var rv: nat
    var uid: nat
    var created: int
    var generation: nat
    var managers: seq<string>
    var selfLink: string
    var content: Content

    constructor (d: Decoded)
      ensures content == d.content
    {
      rv, uid, created, generation, managers, selfLink, content :=
        d.rv, d.uid, d.created, d.generation, d.managers, d.selfLink, d.content;
    }

    /** Clears what the server owns, and leaves what the user declared. */
    method StripServerOwned()
      modifies this
      ensures rv == 0 && uid == 0 && created == 0 && generation == 0 && managers == [] && selfLink == ""
      ensures content == old(content)
    {
      rv, uid, created, generation, managers, selfLink := 0, 0, 0, 0, [], "";
    }
  }

  datatype GetResult = Found(live: Stored) | NotFound | GetFailed
  datatype UpdateResult = Updated | Conflict | UpdateFailed
  datatype Write = Write(before: Option<Stored>, after: Stored)

  /** What the user is shown: the live object, if there is one, against the payload it would be replaced by. */
  datatype Preview = PreviewUpdate(live: Stored, payload: Option<Decoded>) | PreviewCreate(payload: Option<Decoded>)

  /** What passes between the command, the API server and the user; a call that was refused sends no write. */
  datatype Event = Got(answer: GetResult) | Shown(preview: Preview) | Asked(reply: string) | Sent(write: Option<Write>)

  /** All of that in the order in which it happens. */
  class Log {
    ghost var events: seq<Event>

    constructor ()
      ensures events == []
    {
      events := [];
    }
  }

  class Terminal {
    const log: Log

    constructor (log: Log)
      ensures this.log == log
    {
      this.log := log;
    }

    /** Whatever the user types. */
    method ReadLine() returns (line: string)
      modifies log
      ensures log.events == old(log.events) + [Asked(line)]
    {
      line := *;
      log.events := log.events + [Asked(line)];
    }

    /** Prints the preview in any case, and asks unless `autoYes`. */
    method ShowAndConfirm(preview: Preview, autoYes: bool) returns (yes: bool)
      modifies log
      ensures old(log.events) <= log.events
      ensures Answered(log.events[|old(log.events)|..], preview, autoYes, yes)
    {
      log.events := log.events + [Shown(preview)];
      if autoYes { return true; }
      var line := ReadLine();
      yes := Confirms(line);
    }
  }

  /** The preview was shown; with `autoYes` that is all, else one question was put, and `yes` is its answer. */
  predicate Answered(events: seq<Event>, preview: Preview, autoYes: bool, yes: bool)
  {
    if autoYes then yes && events == [Shown(preview)]
    else |events| == 2 && events[0] == Shown(preview) && events[1].Asked? && (yes <==> Confirms(events[1].reply))
  }

  /**
   The API server for one resource name. Other clients may write any number of times before each of our
   calls takes effect. `versions` remembers which object each ResourceVersion stood for, `others` counts
   everybody else's writes, `faults` the calls refused for other reasons.
   */
  class ApiServer {
    const log: Log
    var live: Option<Stored>
    var lastRV: nat
    var lastUID: nat
    ghost var versions: map<nat, Stored>
    ghost var others: nat
    ghost var faults: nat

    ghost predicate Valid()
      reads this
    {
      && (forall v :: v in versions ==> 0 < v <= lastRV && versions[v].rv == v)
      && (live.Some? ==> live.value.rv in versions && versions[live.value.rv] == live.value)
      && (live.Some? ==> 0 < live.value.uid <= lastUID)
    }

    twostate predicate Later()
      reads this
    {
      && (forall v :: v in old(versions) ==> v in versions && versions[v] == old(versions)[v])
      && others >= old(others) && faults >= old(faults)
    }

    constructor (log: Log)
      ensures this.log == log && Valid() && live == None
    {
      this.log := log;
      live, lastRV, lastUID := None, 0, 0;
      versions, others, faults := map[], 0, 0;
    }

    method Store(uid: nat, content: Content)
      requires Valid() && 0 < uid <= lastUID
      modifies this`live, this`lastRV, this`versions
      ensures Valid()
      ensures live.Some? && live.value == Stored(old(lastRV) + 1, uid, content)
      ensures lastRV == old(lastRV) + 1 && versions == old(versions)[lastRV := live.value]
    {
      lastRV := lastRV + 1;
      live := Some(Stored(lastRV, uid, content));
      versions := versions[lastRV := live.value];
    }

    /** Other clients create, update and delete at will. */
    method Others()
      requires Valid()
      modifies this`live, this`lastRV, this`lastUID, this`versions, this`others
      ensures Valid() && Later()
      ensures others == old(others) ==> live == old(live)
    {
      var n: nat := *;
      while n > 0
        invariant Valid() && Later()
        invariant others == old(others) ==> live == old(live)
      {
        var erase: bool := *;
        var text: Content := *;
        if erase {
          live := None;
        } else if live.Some? {
          Store(live.value.uid, text);
        } else {
          lastUID := lastUID + 1;
          Store(lastUID, text);
        }
        others := others + 1;
        n := n - 1;
      }
    }

    method Get() returns (r: GetResult)
      requires Valid()
      modifies this, log
      ensures Valid() && Later()
      ensures r.Found? ==> live == Some(r.live) && r.live.rv in versions && versions[r.live.rv] == r.live
      ensures r.NotFound? ==> live == None
      ensures faults == old(faults) ==> !r.GetFailed?
      ensures others == old(others) ==> live == old(live)
      ensures log.events == old(log.events) + [Got(r)]
    {
      Others();
      var up: bool := *;
      if !up {
        r, faults := GetFailed, faults + 1;
      } else {
        r := if live.Some? then Found(live.value) else NotFound;
      }
      log.events := log.events + [Got(r)];
    }

    /**
     Optimistic locking: an update that names a version takes effect only on that version, and one that
     names an identity only on that identity. An update that names no version replaces whatever is there.
     */
    method Update(m: Manifest) returns (r: UpdateResult, ghost before: Option<Stored>)
      requires Valid()
      modifies this, log
      ensures Valid() && Later()
      ensures r.Updated? ==>
                && before.Some? && (m.rv != 0 ==> m.rv in versions && before == Some(versions[m.rv]))
                && live.Some? && live.value.content == m.content && live.value.rv !in old(versions)
      ensures others == old(others) && faults == old(faults) ==>
                (old(live).Some? && m.rv == old(live).value.rv && m.uid == 0 ==> r.Updated?)
      ensures others == old(others) && !r.Updated? ==> live == old(live)
      ensures log.events == old(log.events) + [Sent(if r.Updated? then Some(Write(before, live.value)) else None)]
    {
      Others();
      before := live;
      var up: bool := *;
      if live.None? {
        r := UpdateFailed;
      } else if (m.rv != 0 && m.rv != live.value.rv) || (m.uid != 0 && m.uid != live.value.uid) {
        r := Conflict;
      } else if !up {
        r, faults := UpdateFailed, faults + 1;
      } else {
        Store(live.value.uid, m.content);
        r := Updated;
      }
      log.events := log.events + [Sent(if r.Updated? then Some(Write(before, live.value)) else None)];
    }

    /** Refused when the object exists, or when the manifest carries a ResourceVersion. */
    method Create(m: Manifest) returns (ok: bool)
      requires Valid()
      modifies this, log
      ensures Valid() && Later()
      ensures ok ==> live.Some? && live.value.content == m.content
      ensures others == old(others) && faults == old(faults) && old(live).None? && m.rv == 0 ==> ok
      ensures others == old(others) && !ok ==> live == old(live)
      ensures log.events == old(log.events) + [Sent(if ok then Some(Write(None, live.value)) else None)]
    {
      Others();
      var up: bool := *;
      ok := live.None? && m.rv == 0 && up;
      if live.None? && m.rv == 0 && !up { faults := faults + 1; }
      if ok {
        lastUID := lastUID + 1;
        Store(lastUID, m.content);
      }
      log.events := log.events + [Sent(if ok then Some(Write(None, live.value)) else None)];
    }
  }

  datatype Outcome = Applied | Created | Aborted | Gone | Rejected | Failed

  // ---- the protocol ---------------------------------------------------------------

  /** From the preview on: shown once, asked once unless `autoYes`, and then at most one write, over `before`. */
  predicate FromPreview(events: seq<Event>, preview: Preview, before: Option<Stored>, payload: Option<Decoded>,
                        autoYes: bool, r: Outcome)
  {
    var n := if autoYes then 1 else 2;
    && |events| >= n && events[0] == Shown(preview) && (!autoYes ==> events[1].Asked?)
    && if !autoYes && !Confirms(events[1].reply) then r.Aborted? && |events| == n
       else if payload.None? then r.Failed? && |events| == n
       else
         && |events| == n + 1 && events[n].Sent?
         && match events[n].write
            case Some(w) =>
              && w.before == before && w.after.content == payload.value.content
              && r == if before.Some? then Applied else Created
            case None => r.Failed? || (before.Some? && r.Rejected?)
  }

  /** A whole rollback: one read, and what follows from its answer. */
  predicate Protocol(events: seq<Event>, payload: Option<Decoded>, autoYes: bool, allowCreate: bool, r: Outcome)
  {
    && events != [] && events[0].Got?
    && match events[0].answer
       case GetFailed => r.Failed? && |events| == 1
       case NotFound =>
         if !allowCreate then r.Gone? && |events| == 1
         else FromPreview(events[1..], PreviewCreate(payload), None, payload, autoYes, r)
       case Found(live) => FromPreview(events[1..], PreviewUpdate(live, payload), Some(live), payload, autoYes, r)
  }

  /** The user agreed to `preview` before event `k`, or had agreed beforehand and saw it before. */
  predicate AgreedBefore(events: seq<Event>, k: nat, preview: Preview, autoYes: bool)
    requires k <= |events|
  {
    if autoYes then k >= 1 && events[k - 1] == Shown(preview)
    else k >= 2 && events[k - 2] == Shown(preview) && events[k - 1].Asked? && Confirms(events[k - 1].reply)
  }

  /**
   Informed consent. Nothing is read after the first event, so nothing after the question; a write, if there
   is one, is the last event; it comes right after the consent, and what it replaces and what it leaves are
   what was shown.
   */
  lemma WritesWhatWasShown(events: seq<Event>, payload: Option<Decoded>, autoYes: bool, allowCreate: bool, r: Outcome)
    requires Protocol(events, payload, autoYes, allowCreate, r)
    ensures forall i :: 0 < i < |events| ==> !events[i].Got?
    ensures forall i, j :: 0 <= i < j < |events| ==>
              !(events[i].Asked? && events[j].Asked?) && !(events[i].Shown? && events[j].Shown?) && !events[i].Sent?
    ensures r.Applied? || r.Created? <==> exists w :: Sent(Some(w)) in events
    ensures forall k, w :: 0 <= k < |events| && events[k] == Sent(Some(w)) ==>
              && payload.Some? && w.after.content == payload.value.content
              && AgreedBefore(events, k, if w.before.Some? then PreviewUpdate(w.before.value, payload)
                                         else PreviewCreate(payload), autoYes)
              && (w.before.None? ==> allowCreate) && (r.Applied? <==> w.before.Some?)
  {
    var rest := events[1..];
    forall i | 0 < i < |events| ensures events[i] == rest[i - 1] {}
    if r.Applied? || r.Created? { assert rest[|rest| - 1] in events; }
  }

  /**
   Rolls the resource back to `payload`, which is `None` when it cannot be decoded. What passed is a run of
   the protocol; left alone, the server does what the user agreed to, whatever server-owned fields the
   payload carries.
   */
  method RollBack(server: ApiServer, user: Terminal, payload: Option<Decoded>, autoYes: bool, allowCreate: bool)
    returns (r: Outcome)
    requires server.Valid() && server.log == user.log
    modifies server, server.log
    ensures server.Valid() && old(server.log.events) <= server.log.events
    ensures Protocol(server.log.events[|old(server.log.events)|..], payload, autoYes, allowCreate, r)
    ensures r.Applied? || r.Created? ==> server.live.Some? && server.live.value.content == payload.value.content
    ensures server.others == old(server.others) && !(r.Applied? || r.Created?) ==> server.live == old(server.live)
    ensures server.others == old(server.others) && server.faults == old(server.faults) && payload.Some? ==>
              if old(server.live).Some? then r.Applied? || r.Aborted?
              else if allowCreate then r.Created? || r.Aborted? else r.Gone?
  {
    ghost var start := server.log.events;
    var got := server.Get();
    match got {
      case GetFailed => r := Failed;
      case NotFound =>
        if !allowCreate { return Gone; }
        r := CreateFrom(server, user, payload, autoYes);
      case Found(live) =>
        r := UpdateFrom(server, user, live, payload, autoYes);
    }
    SameTail(start, [Got(got)], server.log.events);
  }

  lemma SameTail(start: seq<Event>, head: seq<Event>, all: seq<Event>)
    requires start + head <= all
    ensures start <= all && all[|start|..] == head + all[|start + head|..]
  {
  }

  /** Preview, consent, and an update of the version that was previewed. */
  method UpdateFrom(server: ApiServer, user: Terminal, live: Stored, payload: Option<Decoded>, autoYes: bool)
    returns (r: Outcome)
    requires server.Valid() && server.log == user.log && live.rv in server.versions && server.versions[live.rv] == live
    modifies server, server.log
    ensures server.Valid() && server.Later() && old(server.log.events) <= server.log.events
    ensures FromPreview(server.log.events[|old(server.log.events)|..], PreviewUpdate(live, payload), Some(live),
                        payload, autoYes, r)
    ensures r.Applied? ==> server.live.Some? && server.live.value.content == payload.value.content
    ensures server.others == old(server.others) && !r.Applied? ==> server.live == old(server.live)
    ensures (server.others == old(server.others) && server.faults == old(server.faults)
             && old(server.live) == Some(live) && payload.Some?) ==>
              r.Applied? || r.Aborted?
  {
    var previewRV := live.rv;
    var yes := user.ShowAndConfirm(PreviewUpdate(live, payload), autoYes);
    if !yes { return Aborted; }
    if payload.None? { return Failed; }
    var target := new Manifest(payload.value);
    target.StripServerOwned();
    target.rv := previewRV;
    var updated, before := server.Update(target);
    r := if updated.Updated? then Applied else if updated.Conflict? then Rejected else Failed;
  }

  /** Creating a missing object; the server refuses if it is there after all. */
  method CreateFrom(server: ApiServer, user: Terminal, payload: Option<Decoded>, autoYes: bool) returns (r: Outcome)
    requires server.Valid() && server.log == user.log
    modifies server, server.log
    ensures server.Valid() && server.Later() && old(server.log.events) <= server.log.events
    ensures FromPreview(server.log.events[|old(server.log.events)|..], PreviewCreate(payload), None,
                        payload, autoYes, r)
    ensures r.Created? ==> server.live.Some? && server.live.value.content == payload.value.content
    ensures server.others == old(server.others) && !r.Created? ==> server.live == old(server.live)
    ensures (server.others == old(server.others) && server.faults == old(server.faults)
             && old(server.live).None? && payload.Some?) ==>
              r.Created? || r.Aborted?
  {
    var yes := user.ShowAndConfirm(PreviewCreate(payload), autoYes);
    if !yes { return Aborted; }
    if payload.None? { return Failed; }
    var m := new Manifest(payload.value);
    m.StripServerOwned();
    var ok := server.Create(m);
    r := if ok then Created else Failed;
  }
}
