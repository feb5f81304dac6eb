/**
 The durable event ledger of the hotel daemon: the `mesh_events` table, the `mesh_cursors` table,
 and the single writer thread that serialises every command against them.

 Each storage call may fail; a failed call changes nothing. The `log` of a store is a history
 variable: every row the table ever held, by sequence number.
 */
module Ledger {
  import opened Wrappers

  type NodeId = string

  datatype Event = Event(id: string, target: Option<NodeId>, body: string)

  datatype Cursor = Cursor(lastAcked: nat, updatedAt: nat)

  /** What the two tables hold. `lastSeq` is the AUTOINCREMENT high-water mark. */
  datatype Store = Store(
    rows: map<nat, Event>,
    lastSeq: nat,
    log: map<nat, Event>,
    cursors: map<NodeId, Cursor>)

  datatype Command =
    | AppendLocal(event: Event)
    | CommitInboundBatch(events: seq<Event>)
    | ProcessAck(consumer: NodeId, acked: nat)

  /** Which storage calls of one command fail; `appends` is indexed by the event of a batch. */
  datatype Faults = Faults(appends: seq<bool>, advance: bool, vacuum: bool)

  datatype Job = Job(command: Command, faults: Faults, now: nat)

  // ---------------------------------------------------------------------------------------------
  // The storage calls, as functions on tables
  // ---------------------------------------------------------------------------------------------

  predicate AppendFails(faults: Faults, i: nat) {
    i < |faults.appends| && faults.appends[i]
  }

  ghost predicate IsStored(rows: map<nat, Event>, id: string) {
    exists s :: s in rows && rows[s].id == id
  }

  ghost function SeqOf(rows: map<nat, Event>, id: string): nat
    requires IsStored(rows, id)
  {
    var s :| s in rows && rows[s].id == id;
    s
  }

  /** INSERT with a UNIQUE event id: a duplicate id yields the seq of the row already there. */
  ghost function Append(st: Store, event: Event, fails: bool): (Store, Option<nat>) {
    if fails then (st, None)
    else if IsStored(st.rows, event.id) then (st, Some(SeqOf(st.rows, event.id)))
    else
      var seqNo := st.lastSeq + 1;
      (st.(rows := st.rows[seqNo := event], lastSeq := seqNo, log := st.log[seqNo := event]), Some(seqNo))
  }

  predicate Delivered(event: Event, seqNo: nat, node: NodeId, maxSeq: nat) {
    event.target == Some(node) && seqNo <= maxSeq
  }

  function DeleteDelivered(rows: map<nat, Event>, node: NodeId, maxSeq: nat): map<nat, Event> {
    map s | s in rows && !Delivered(rows[s], s, node, maxSeq) :: rows[s]
  }

  function LastAcked(cursors: map<NodeId, Cursor>, node: NodeId): nat {
    if node in cursors then cursors[node].lastAcked else 0
  }

  function Max(a: nat, b: nat): nat {
    if a < b then b else a
  }

  function Advance(cursors: map<NodeId, Cursor>, node: NodeId, acked: nat, now: nat): map<NodeId, Cursor> {
    cursors[node := Cursor(Max(LastAcked(cursors, node), acked), now)]
  }

  // ---------------------------------------------------------------------------------------------
  // The writer's commands, as functions on stores
  // ---------------------------------------------------------------------------------------------

  /** Appends `events[i..]`, carrying the highest local seq assigned so far. */
  ghost function AppendBatch(st: Store, events: seq<Event>, faults: Faults, i: nat, localMax: nat): (Store, nat)
    requires i <= |events|
    decreases |events| - i
  {
    if i == |events| then (st, localMax)
    else
      var (st', stored) := Append(st, events[i], AppendFails(faults, i));
      AppendBatch(st', events, faults, i + 1, if stored.Some? then Max(localMax, stored.value) else localMax)
  }

  /** Same-hotel and broadcast events are delivered inline and never stored. */
  predicate IsRemote(local: NodeId, event: Event) {
    event.target.Some? && event.target.value != local
  }

  ghost function Step(local: NodeId, st: Store, job: Job): Store {
    match job.command
    case AppendLocal(event) =>
      if IsRemote(local, event) then Append(st, event, AppendFails(job.faults, 0)).0 else st
    case CommitInboundBatch(events) =>
      var (st', localMax) := AppendBatch(st, events, job.faults, 0, 0);
      if localMax > 0 && !job.faults.vacuum then st'.(rows := DeleteDelivered(st'.rows, local, localMax)) else st'
    case ProcessAck(consumer, acked) =>
      if job.faults.advance then st
      else
        var st' := st.(cursors := Advance(st.cursors, consumer, acked, job.now));
        if job.faults.vacuum then st' else st'.(rows := DeleteDelivered(st'.rows, consumer, acked))
  }

  ghost function Run(local: NodeId, st: Store, jobs: seq<Job>): Store
    decreases |jobs|
  {
    if jobs == [] then st else Step(local, Run(local, st, jobs[..|jobs| - 1]), jobs[|jobs| - 1])
  }

  // ---------------------------------------------------------------------------------------------
  // The imperative form: two tables and the writer thread
  // ---------------------------------------------------------------------------------------------

  ghost predicate UniqueIds(rows: map<nat, Event>) {
    forall s, t :: s in rows && t in rows && rows[s].id == rows[t].id ==> s == t
  }

  class EventStorage {
    var rows: map<nat, Event>
    var lastSeq: nat
    ghost var log: map<nat, Event>

    constructor ()
      ensures Valid() && rows == map[] && lastSeq == 0 && log == map[]
    {
      rows, lastSeq, log := map[], 0, map[];
    }

    ghost predicate Valid()
      reads this
    {
      UniqueIds(rows) && forall s :: s in rows ==> s <= lastSeq
    }

    method AppendEvent(event: Event, fails: bool) returns (stored: Option<nat>)
      requires Valid()
      modifies this
      ensures Valid()
      ensures forall cursors :: (Store(rows, lastSeq, log, cursors), stored)
                             == Append(old(Store(rows, lastSeq, log, cursors)), event, fails)
    {
      if fails {
        return None;
      }
      var clashes := set s | s in rows && rows[s].id == event.id;
      if s :| s in clashes {
        return Some(s);
      }
      assert forall s :: s in rows && rows[s].id == event.id ==> s in clashes;
      lastSeq := lastSeq + 1;
      rows := rows[lastSeq := event];
      log := log[lastSeq := event];
      return Some(lastSeq);
    }

    method DeleteDeliveredEvents(node: NodeId, maxSeq: nat, fails: bool)
      modifies this`rows
      ensures old(Valid()) ==> Valid()
      ensures rows == if fails then old(rows) else DeleteDelivered(old(rows), node, maxSeq)
    {
      if !fails {
        rows := DeleteDelivered(rows, node, maxSeq);
      }
    }

    /**
     The dispatcher's query: the lowest unacknowledged rows for a node, broadcasts included,
     in ascending order and at most `limit` of them.
     */
    method QueryUnackedEvents(node: NodeId, cursor: nat, limit: nat) returns (found: seq<nat>)
      requires Valid()
      ensures |found| <= limit
      ensures forall i, j :: 0 <= i < j < |found| ==> found[i] < found[j]
      ensures forall s :: s in found ==> s in Pending(rows, node, cursor)
      ensures forall s :: s in Pending(rows, node, cursor) ==>
                s in found || (|found| == limit && forall t :: t in found ==> t < s)
    {
      found := [];
      var s := cursor + 1;
      while s <= lastSeq && |found| < limit
        invariant cursor < s
        invariant |found| <= limit
        invariant forall i, j :: 0 <= i < j < |found| ==> found[i] < found[j]
        invariant forall i :: 0 <= i < |found| ==> found[i] < s && found[i] in Pending(rows, node, cursor)
        invariant forall t :: t in Pending(rows, node, cursor) && t < s ==> t in found
      {
        if s in rows && (rows[s].target == None || rows[s].target == Some(node)) {
          found := found + [s];
        }
        s := s + 1;
      }
    }
  }

  ghost function Pending(rows: map<nat, Event>, node: NodeId, cursor: nat): set<nat> {
    set s | s in rows && s > cursor && (rows[s].target == None || rows[s].target == Some(node))
  }

  class CursorTracker {
    var cursors: map<NodeId, Cursor>

    constructor ()
      ensures cursors == map[]
    {
      cursors := map[];
    }

    /** A failing read counts as no row. */
    method GetCursor(node: NodeId, fails: bool) returns (acked: nat)
      ensures acked == if fails then 0 else LastAcked(cursors, node)
    {
      acked := if !fails && node in cursors then cursors[node].lastAcked else 0;
    }

    method AdvanceCursor(node: NodeId, acked: nat, now: nat, fails: bool) returns (ok: bool)
      modifies this
      ensures ok == !fails
      ensures cursors == if fails then old(cursors) else Advance(old(cursors), node, acked, now)
      ensures ok ==> node in cursors && cursors[node].updatedAt == now
      ensures forall n :: n != node && n in old(cursors) ==> n in cursors && cursors[n] == old(cursors)[n]
    {
      if fails {
        return false;
      }
      if node in cursors {
        var kept := cursors[node].lastAcked;
        cursors := cursors[node := Cursor(if kept < acked then acked else kept, now)];
      } else {
        cursors := cursors[node := Cursor(acked, now)];
      }
      return true;
    }
  }

  class LedgerWriter {
    const ledger: EventStorage
    const tracker: CursorTracker
    const localNode: NodeId

    constructor (ledger: EventStorage, tracker: CursorTracker, localNode: NodeId)
      ensures this.ledger == ledger && this.tracker == tracker && this.localNode == localNode
    {
      this.ledger, this.tracker, this.localNode := ledger, tracker, localNode;
    }

    ghost function Contents(): Store
      reads ledger, tracker
    {
      Store(ledger.rows, ledger.lastSeq, ledger.log, tracker.cursors)
    }

    /** One turn of the writer thread's receive loop. */
    method Handle(job: Job)
      requires ledger.Valid()
      modifies ledger, tracker
      ensures ledger.Valid()
      ensures Contents() == Step(localNode, old(Contents()), job)
    {
      match job.command
      case AppendLocal(event) =>
        if event.target.Some? && event.target.value != localNode {
          var _ := ledger.AppendEvent(event, AppendFails(job.faults, 0));
        }
      case CommitInboundBatch(events) =>
        CommitBatch(events, job.faults);
      case ProcessAck(consumer, acked) =>
        var ok := tracker.AdvanceCursor(consumer, acked, job.now, job.faults.advance);
        if ok {
          ledger.DeleteDeliveredEvents(consumer, acked, job.faults.vacuum);
        }
    }

    method CommitBatch(events: seq<Event>, faults: Faults)
      requires ledger.Valid()
      modifies ledger
      ensures ledger.Valid()
      ensures Contents() == Step(localNode, old(Contents()), Job(CommitInboundBatch(events), faults, 0))
    {
      var localMax := 0;
      var i := 0;
      ghost var before := Contents();
      while i < |events|
        invariant 0 <= i <= |events|
        invariant ledger.Valid()
        invariant tracker.cursors == old(tracker.cursors)
        invariant AppendBatch(Contents(), events, faults, i, localMax) == AppendBatch(before, events, faults, 0, 0)
      {
        ghost var here := Contents();
        var stored := ledger.AppendEvent(events[i], AppendFails(faults, i));
        assert (Contents(), stored) == Append(here, events[i], AppendFails(faults, i));
        if stored.Some? && stored.value > localMax {
          localMax := stored.value;
        }
        i := i + 1;
      }
      if localMax > 0 {
        ledger.DeleteDeliveredEvents(localNode, localMax, faults.vacuum);
      }
    }
  }
}
