/**
 The hotel-state task: roster changes send a dirty signal into a channel of eight, and one worker
 turns any number of signals into one rebuilt snapshot for the beacon.
 */
module RosterSignal {
  import opened Wrappers

  const CAPACITY: nat := 8

  /** The three lists of the payload, in the order the worker reads them. */
  datatype Component = Guests | Agents | Models {
    function Place(): (r: nat) {
      match this case Guests => 1 case Agents => 2 case Models => 3
    }
  }

  datatype Triple<T> = Triple(guests: T, agents: T, models: T) {
    function At(c: Component): T {
      match c case Guests => guests case Agents => agents case Models => models
    }

    function With(c: Component, v: T): (r: Triple<T>)
      ensures r.At(c) == v
      ensures forall d :: d != c ==> r.At(d) == At(d)
    {
      match c
      case Guests => this.(guests := v)
      case Agents => this.(agents := v)
      case Models => this.(models := v)
    }
  }

  /** A stored row; only a model profile's node matters to what is published. */
  datatype Row = Row(nodeId: string, content: string)

  type Tables = Triple<seq<Row>>

  function Own(rows: seq<Row>, nodeId: string): seq<Row> {
    if rows == [] then []
    else if rows[0].nodeId == nodeId then [rows[0]] + Own(rows[1..], nodeId)
    else Own(rows[1..], nodeId)
  }

  /** Exactly the rows of that node are kept, as often as they are stored. */
  lemma {:induction false} OwnKeepsIff(rows: seq<Row>, nodeId: string, row: Row)
    ensures multiset(Own(rows, nodeId))[row] == if row.nodeId == nodeId then multiset(rows)[row] else 0
  {
    if rows != [] {
      OwnKeepsIff(rows[1..], nodeId, row);
      assert rows == [rows[0]] + rows[1..];
    }
  }

  /** And they keep their order. */
  lemma {:induction false} OwnConcat(a: seq<Row>, b: seq<Row>, nodeId: string)
    ensures Own(a + b, nodeId) == Own(a, nodeId) + Own(b, nodeId)
  {
    if a == [] {
      assert a + b == b;
    } else {
      assert (a + b)[0] == a[0] && (a + b)[1..] == a[1..] + b;
      OwnConcat(a[1..], b, nodeId);
    }
  }

  /** What a successful read of one list contributes to the payload. */
  function View(tables: Tables, nodeId: string, c: Component): seq<Row> {
    if c == Models then Own(tables.models, nodeId) else tables.At(c)
  }

  function Payload(tables: Tables, nodeId: string): Triple<seq<Row>> {
    Triple(View(tables, nodeId, Guests), View(tables, nodeId, Agents), View(tables, nodeId, Models))
  }

  /** A failed read is published as an empty list. */
  function ReadOr(tables: Tables, nodeId: string, c: Component, ok: bool): seq<Row> {
    if ok then View(tables, nodeId, c) else []
  }

  // ---------------------------------------------------------------------------------------------
  // Senders and worker, step by step
  // ---------------------------------------------------------------------------------------------

  datatype Phase = Waiting | Draining | Reading(next: Component) | Publishing {
    /** The worker has taken a signal and has yet to read `c`. */
    predicate Before(c: Component) {
      Draining? || (Reading? && next.Place() <= c.Place())
    }
  }

  /**
   `owed`: senders that changed the roster and are about to signal. `draft`: the payload being built,
   or the one last built. `ok`: whether each list's last read succeeded. `unannounced`: lists changed
   by someone who sends no signal, and not read since.
   */
  datatype World = World(
    nodeId: string,
    tables: Tables,
    owed: nat,
    queued: nat,
    phase: Phase,
    draft: Triple<seq<Row>>,
    ok: Triple<bool>,
    unannounced: Triple<bool>,
    published: Option<Triple<seq<Row>>>)

  datatype Step =
    | Change(tables: Tables, signals: bool)
    | Send
    | Receive
    | Drain
    | Read(succeeds: bool)
    | Publish

  /** The worker's own first signal is owed before anything else happens. */
  function Start(nodeId: string, tables: Tables): World {
    World(nodeId, tables, 1, 0, Waiting, Triple([], [], []),
          Triple(true, true, true), Triple(false, false, false), None)
  }

  function TrySend(queued: nat): nat {
    if queued < CAPACITY then queued + 1 else queued
  }

  /** A step that is not enabled changes nothing. */
  function Next(w: World, s: Step): World {
    match s
    case Change(t, signals) =>
      var changed := Triple(t.guests != w.tables.guests, t.agents != w.tables.agents, t.models != w.tables.models);
      if signals then w.(tables := t, owed := w.owed + 1)
      else
        w.(tables := t,
           unannounced := Triple(
             w.unannounced.guests || changed.guests,
             w.unannounced.agents || changed.agents,
             w.unannounced.models || changed.models))
    case Send => if w.owed == 0 then w else w.(owed := w.owed - 1, queued := TrySend(w.queued))
    case Receive => if w.phase != Waiting || w.queued == 0 then w else w.(queued := w.queued - 1, phase := Draining)
    case Drain =>
      if w.phase != Draining then w
      else if w.queued == 0 then w.(phase := Reading(Guests))
      else w.(queued := w.queued - 1)
    case Read(succeeds) =>
      if !w.phase.Reading? then w
      else
        var c := w.phase.next;
        w.(draft := w.draft.With(c, ReadOr(w.tables, w.nodeId, c, succeeds)),
           ok := w.ok.With(c, succeeds),
           unannounced := w.unannounced.With(c, false),
           phase := match c case Guests => Reading(Agents) case Agents => Reading(Models) case Models => Publishing)
    case Publish => if w.phase != Publishing then w else w.(published := Some(w.draft), phase := Waiting)
  }

  function Run(w: World, steps: seq<Step>): World
    decreases |steps|
  {
    if steps == [] then w else Run(Next(w, steps[0]), steps[1..])
  }

  // ---------------------------------------------------------------------------------------------
  // No announced change is missed
  // ---------------------------------------------------------------------------------------------

  predicate SignalPending(w: World) {
    w.owed > 0 || w.queued > 0
  }

  /** A list read successfully and stale since will be read again, unless nobody announced the change. */
  predicate Tracked(w: World, c: Component) {
    && (!w.ok.At(c) ==> w.draft.At(c) == [])
    && (w.ok.At(c) && w.draft.At(c) != View(w.tables, w.nodeId, c) ==>
          w.unannounced.At(c) || SignalPending(w) || w.phase.Before(c))
  }

  predicate Inv(w: World) {
    && Tracked(w, Guests) && Tracked(w, Agents) && Tracked(w, Models)
    && w.queued <= CAPACITY
    && (w.phase == Waiting ==> w.published == Some(w.draft) || (w.published == None && SignalPending(w)))
  }

  lemma NextKeepsTracked(w: World, s: Step, c: Component)
    requires Tracked(w, c)
    ensures Tracked(Next(w, s), c)
  {
    if s.Change? && !s.signals && !w.unannounced.At(c) && s.tables.At(c) == w.tables.At(c) {
      assert View(s.tables, w.nodeId, c) == View(w.tables, w.nodeId, c);
    }
  }

  lemma {:induction false} RunKeepsInv(w: World, steps: seq<Step>)
    requires Inv(w)
    ensures Inv(Run(w, steps))
    decreases |steps|
  {
    if steps != [] {
      forall c ensures Tracked(w, c) ==> Tracked(Next(w, steps[0]), c) {
        if Tracked(w, c) {
          NextKeepsTracked(w, steps[0], c);
        }
      }
      RunKeepsInv(Next(w, steps[0]), steps[1..]);
    }
  }

  predicate Quiet(w: World) {
    w.phase == Waiting && !SignalPending(w)
  }

  /**
   Over every interleaving from start-up: once the worker waits with no signal in flight, each list it
   last read successfully is published as it now stands, unless it was changed without a signal; each
   list it failed to read is published empty.
   */
  lemma NoAnnouncedChangeIsMissed(nodeId: string, tables: Tables, steps: seq<Step>, c: Component)
    ensures var w := Run(Start(nodeId, tables), steps);
      Quiet(w) ==>
        && w.published.Some?
        && (!w.ok.At(c) ==> w.published.value.At(c) == [])
        && (w.ok.At(c) && !w.unannounced.At(c) ==> w.published.value.At(c) == View(w.tables, w.nodeId, c))
  {
    RunKeepsInv(Start(nodeId, tables), steps);
  }

  predicate AllAnnounced(steps: seq<Step>) {
    forall s :: s in steps && s.Change? ==> s.signals
  }

  lemma {:induction false} AnnouncedRunsLeaveNothingUnannounced(w: World, steps: seq<Step>)
    requires AllAnnounced(steps) && w.unannounced == Triple(false, false, false)
    ensures Run(w, steps).unannounced == Triple(false, false, false)
    decreases |steps|
  {
    if steps != [] {
      assert steps[0] in steps;
      AnnouncedRunsLeaveNothingUnannounced(Next(w, steps[0]), steps[1..]);
    }
  }

  /**
   When every change is announced, a quiet worker has published the roster exactly as it stands if and
   only if each list was read successfully or is empty anyway.
   */
  lemma QuietIsCurrentIff(nodeId: string, tables: Tables, steps: seq<Step>)
    requires AllAnnounced(steps)
    ensures var w := Run(Start(nodeId, tables), steps);
      Quiet(w) ==>
        (w.published == Some(Payload(w.tables, w.nodeId)) <==>
           forall c: Component :: w.ok.At(c) || View(w.tables, w.nodeId, c) == [])
  {
    var w := Run(Start(nodeId, tables), steps);
    AnnouncedRunsLeaveNothingUnannounced(Start(nodeId, tables), steps);
    NoAnnouncedChangeIsMissed(nodeId, tables, steps, Guests);
    NoAnnouncedChangeIsMissed(nodeId, tables, steps, Agents);
    NoAnnouncedChangeIsMissed(nodeId, tables, steps, Models);
    if Quiet(w) {
      var p, full := w.published.value, Payload(w.tables, w.nodeId);
      assert p == full <==> p.At(Guests) == full.guests && p.At(Agents) == full.agents && p.At(Models) == full.models;
      assert (forall c: Component :: w.ok.At(c) || View(w.tables, w.nodeId, c) == []) <==>
             && (w.ok.At(Guests) || full.guests == [])
             && (w.ok.At(Agents) || full.agents == [])
             && (w.ok.At(Models) || full.models == []);
    }
  }

  predicate Current(w: World) {
    w.published == Some(Payload(w.tables, w.nodeId))
  }

  predicate WorkerOnly(steps: seq<Step>) {
    forall s :: s in steps ==> !s.Change?
  }

  /** A quiet worker does nothing until somebody signals. */
  lemma {:induction false} QuietStays(w: World, steps: seq<Step>)
    requires Quiet(w) && WorkerOnly(steps)
    ensures Run(w, steps) == w
    decreases |steps|
  {
    if steps != [] {
      assert steps[0] in steps;
      QuietStays(Next(w, steps[0]), steps[1..]);
    }
  }

  /**
   From a quiet and current world, a change without a signal is missed, however long the worker runs
   on, if and only if it changes what one of the lists shows.
   */
  lemma SilentChangeIsMissedIff(w: World, t: Tables, steps: seq<Step>)
    requires Quiet(w) && Current(w) && WorkerOnly(steps)
    ensures var v := Run(w, [Change(t, false)] + steps);
      && Quiet(v) && v.tables == t && v.published == w.published
      && (!Current(v) <==> exists c: Component :: View(t, w.nodeId, c) != View(w.tables, w.nodeId, c))
  {
    var all := [Change(t, false)] + steps;
    assert all[1..] == steps;
    QuietStays(Next(w, all[0]), steps);
    var before, after := Payload(w.tables, w.nodeId), Payload(t, w.nodeId);
    assert before == after <==> (before.At(Guests) == after.At(Guests) && before.At(Agents) == after.At(Agents)
                                 && before.At(Models) == after.At(Models));
    forall c: Component ensures before.At(c) == View(w.tables, w.nodeId, c) && after.At(c) == View(t, w.nodeId, c) {
    }
  }

  /** A change nobody announces stays unpublished: the worker is quiet and the snapshot is stale. */
  lemma SilentChangeIsMissed(nodeId: string, row: Row)
    ensures var w := Run(Start(nodeId, Triple([], [], [])),
                         [Send, Receive, Drain, Read(true), Read(true), Read(true), Publish,
                          Change(Triple([], [row], []), false)]);
      Quiet(w) && w.published == Some(Triple([], [], [])) && Payload(w.tables, nodeId) == Triple([], [row], [])
  {
    var none: Tables := Triple([], [], []);
    var w0 := Start(nodeId, none);
    var w1 := Next(Next(Next(w0, Send), Receive), Drain);
    var w2 := Next(Next(Next(w1, Read(true)), Read(true)), Read(true));
    var w3 := Next(Next(w2, Publish), Change(Triple([], [row], []), false));
    var late := [Publish, Change(Triple([], [row], []), false)];
    var mid := [Read(true), Read(true), Read(true)] + late;
    RunOfThree(w0, Send, Receive, Drain, mid);
    RunOfThree(w1, Read(true), Read(true), Read(true), late);
    assert late[1..] == [late[1]] && [late[1]][1..] == [];
    assert Run(w2, late) == Run(Next(w2, Publish), [late[1]]) == Run(w3, []);
    assert [Send, Receive, Drain] + mid ==
           [Send, Receive, Drain, Read(true), Read(true), Read(true), Publish, Change(Triple([], [row], []), false)];
  }

  lemma RunOfThree(w: World, a: Step, b: Step, c: Step, rest: seq<Step>)
    ensures Run(w, [a, b, c] + rest) == Run(Next(Next(Next(w, a), b), c), rest)
  {
    var all := [a, b, c] + rest;
    assert all[1..] == [b, c] + rest && ([b, c] + rest)[1..] == [c] + rest && ([c] + rest)[1..] == rest;
    assert Run(w, all) == Run(Next(w, a), [b, c] + rest);
    assert Run(Next(w, a), [b, c] + rest) == Run(Next(Next(w, a), b), [c] + rest);
  }

  // ---------------------------------------------------------------------------------------------
  // The worker catches up
  // ---------------------------------------------------------------------------------------------

  function Rank(phase: Phase): (r: nat) {
    match phase
    case Waiting => 0
    case Publishing => 1
    case Reading(c) => 5 - c.Place()
    case Draining => 5
  }

  /** Senders finish, then the worker goes on while it can, every read succeeding. */
  function CatchUp(w: World): (steps: seq<Step>)
    ensures forall s :: s in steps ==> !s.Change? && (s.Read? ==> s.succeeds)
    decreases w.owed, w.queued, Rank(w.phase)
  {
    if w.owed > 0 then [Send] + CatchUp(Next(w, Send))
    else
      match w.phase
      case Waiting => if w.queued == 0 then [] else [Receive] + CatchUp(Next(w, Receive))
      case Draining => [Drain] + CatchUp(Next(w, Drain))
      case Reading(_) => [Read(true)] + CatchUp(Next(w, Read(true)))
      case Publishing => [Publish] + CatchUp(Next(w, Publish))
  }

  predicate Due(w: World, c: Component) {
    SignalPending(w) || w.phase.Before(c)
  }

  lemma {:induction false} CatchUpEndsQuiet(w: World, c: Component)
    ensures var v := Run(w, CatchUp(w));
      && Quiet(v) && v.tables == w.tables && v.nodeId == w.nodeId
      && v.ok.At(c) == (w.ok.At(c) || Due(w, c))
      && v.unannounced.At(c) == (w.unannounced.At(c) && !Due(w, c))
    decreases w.owed, w.queued, Rank(w.phase)
  {
    var steps := CatchUp(w);
    if steps != [] {
      var w' := Next(w, steps[0]);
      assert steps[1..] == CatchUp(w');
      CatchUpEndsQuiet(w', c);
    }
  }

  lemma {:induction false} RunConcat(w: World, a: seq<Step>, b: seq<Step>)
    ensures Run(w, a + b) == Run(Run(w, a), b)
    decreases |a|
  {
    if a == [] {
      assert a + b == b;
    } else {
      assert (a + b)[1..] == a[1..] + b;
      RunConcat(Next(w, a[0]), a[1..], b);
    }
  }

  /**
   From wherever an announced run has led, if nothing more changes and reads succeed, the worker comes
   to rest, and every list that is due, or whose last read succeeded, is then published as it stands.
   */
  lemma WorkerCatchesUp(nodeId: string, tables: Tables, steps: seq<Step>, c: Component)
    requires AllAnnounced(steps)
    ensures var w := Run(Start(nodeId, tables), steps); var v := Run(w, CatchUp(w));
      && Quiet(v) && v.published.Some?
      && (Due(w, c) || w.ok.At(c) ==> v.published.value.At(c) == View(w.tables, w.nodeId, c))
  {
    var start := Start(nodeId, tables);
    var w := Run(start, steps);
    CatchUpEndsQuiet(w, c);
    RunConcat(start, steps, CatchUp(w));
    NoAnnouncedChangeIsMissed(nodeId, tables, steps + CatchUp(w), c);
    AnnouncedRunsLeaveNothingUnannounced(start, steps);
    var v := Run(w, CatchUp(w));
    assert v == Run(start, steps + CatchUp(w));
    assert !w.unannounced.At(c) && !v.unannounced.At(c);
  }

  // ---------------------------------------------------------------------------------------------
  // The worker's loop body, undisturbed
  // ---------------------------------------------------------------------------------------------

  class HotelState {
    var queued: nat
    var published: Option<Triple<seq<Row>>>

    constructor ()
      ensures queued == 0 && published == None
    {
      queued, published := 0, None;
    }

    method Signal()
      modifies this`queued
      ensures queued == TrySend(old(queued))
      ensures queued == if old(queued) >= 8 then old(queued) else old(queued) + 1
    {
      if queued < CAPACITY {
        queued := queued + 1;
      }
    }

    /** Takes one signal, drains the rest, reads the three lists and overwrites the snapshot. */
    method Refresh(tables: Tables, nodeId: string, ok: Triple<bool>) returns (handled: bool)
      modifies this
      ensures handled == (old(queued) > 0)
      ensures !handled ==> queued == old(queued) && published == old(published)
      ensures handled ==>
                && queued == 0 && published.Some?
                && (forall c: Component :: published.value.At(c) == ReadOr(tables, nodeId, c, ok.At(c)))
                && published.value.guests == (if ok.guests then tables.guests else [])
                && published.value.agents == (if ok.agents then tables.agents else [])
                && published.value.models == (if ok.models then Own(tables.models, nodeId) else [])
    {
      if queued == 0 {
        return false;
      }
      queued := queued - 1;
      while queued > 0
      {
        queued := queued - 1;
      }
      var guests := if ok.guests then tables.guests else [];
      var agents := if ok.agents then tables.agents else [];
      var models: seq<Row> := [];
      if ok.models {
        var i := 0;
        while i < |tables.models|
          invariant 0 <= i <= |tables.models|
          invariant models + Own(tables.models[i..], nodeId) == Own(tables.models, nodeId)
        {
          if tables.models[i].nodeId == nodeId {
            models := models + [tables.models[i]];
          }
          i := i + 1;
        }
      }
      published := Some(Triple(guests, agents, models));
      return true;
    }
  }

  function Drains(n: nat): (steps: seq<Step>) {
    if n == 0 then [Drain] else [Drain] + Drains(n - 1)
  }

  /** The steps one undisturbed pass of the loop is made of. */
  function Pass(queued: nat, ok: Triple<bool>): seq<Step>
    requires queued > 0
  {
    [Receive] + Drains(queued - 1) + [Read(ok.guests), Read(ok.agents), Read(ok.models)] + [Publish]
  }

  lemma {:induction false} DrainsEmptyTheChannel(w: World)
    requires w.phase == Draining
    ensures Run(w, Drains(w.queued)) == w.(queued := 0, phase := Reading(Guests))
    decreases w.queued
  {
    var steps := Drains(w.queued);
    if w.queued > 0 {
      assert steps[1..] == Drains(w.queued - 1);
      DrainsEmptyTheChannel(Next(w, Drain));
    } else {
      assert steps[1..] == [];
    }
  }

  /** The loop body is the protocol: what `Refresh` leaves is what its steps leave. */
  lemma PassIsARun(w: World, ok: Triple<bool>)
    requires w.phase == Waiting && w.queued > 0
    ensures var v := Run(w, Pass(w.queued, ok));
      && v.phase == Waiting && v.queued == 0 && v.owed == w.owed && v.tables == w.tables && v.ok == ok
      && v.published == Some(Triple(
                               ReadOr(w.tables, w.nodeId, Guests, ok.guests),
                               ReadOr(w.tables, w.nodeId, Agents, ok.agents),
                               ReadOr(w.tables, w.nodeId, Models, ok.models)))
  {
    var w1 := Next(w, Receive);
    var w2 := w1.(queued := 0, phase := Reading(Guests));
    var three := [Read(ok.guests), Read(ok.agents), Read(ok.models)];
    RunConcat(w, [Receive] + Drains(w.queued - 1) + three, [Publish]);
    RunConcat(w, [Receive] + Drains(w.queued - 1), three);
    RunConcat(w, [Receive], Drains(w.queued - 1));
    assert Run(w, [Receive]) == w1;
    DrainsEmptyTheChannel(w1);
    RunOfThree(w2, three[0], three[1], three[2], []);
    assert three == [three[0], three[1], three[2]] + [];
  }
}
