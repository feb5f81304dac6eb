/** What every run of the ledger writer keeps, whatever fails and in whatever order acks arrive. */
module LedgerSafety {
  import opened Wrappers
  import opened Ledger

  // ---------------------------------------------------------------------------------------------
  // No row leaves the ledger unacknowledged
  // ---------------------------------------------------------------------------------------------

  /** A row that is gone was addressed to this node, or to a node whose cursor has passed it. */
  ghost predicate Released(local: NodeId, st: Store, s: nat)
    requires s in st.log
  {
    var target := st.log[s].target;
    target.Some? && (target.value == local || s <= LastAcked(st.cursors, target.value))
  }

  ghost predicate Inv(local: NodeId, st: Store) {
    && (forall s :: s in st.log <==> 1 <= s <= st.lastSeq)
    && (forall s :: s in st.rows ==> s in st.log && st.rows[s] == st.log[s])
    && UniqueIds(st.rows)
    && (forall s :: s in st.log && s !in st.rows ==> Released(local, st, s))
  }

  const EMPTY: Store := Store(map[], 0, map[], map[])

  /** What time only adds to: the log and the cursors grow, and a removed row never returns. */
  ghost predicate Extends(st: Store, st': Store) {
    && st.lastSeq <= st'.lastSeq
    && (forall s :: s in st.log ==> s in st'.log && st'.log[s] == st.log[s])
    && (forall s :: s in st.log && s !in st.rows ==> s !in st'.rows)
    && (forall n :: LastAcked(st.cursors, n) <= LastAcked(st'.cursors, n))
  }

  lemma AppendKeepsInv(local: NodeId, st: Store, event: Event, fails: bool)
    requires Inv(local, st)
    ensures Inv(local, Append(st, event, fails).0) && Extends(st, Append(st, event, fails).0)
    ensures Append(st, event, fails).0.cursors == st.cursors
    ensures forall s :: s in st.rows ==> s in Append(st, event, fails).0.rows
  {
    var (st', stored) := Append(st, event, fails);
    forall s | s in st'.log && s !in st'.rows ensures Released(local, st', s) {
      assert s in st.log && s !in st.rows;
    }
  }

  lemma {:induction false} AppendBatchKeepsInv(
      local: NodeId, st: Store, events: seq<Event>, faults: Faults, i: nat, localMax: nat)
    requires Inv(local, st) && i <= |events|
    ensures var st' := AppendBatch(st, events, faults, i, localMax).0;
      Inv(local, st') && Extends(st, st') && st'.cursors == st.cursors && (forall s :: s in st.rows ==> s in st'.rows)
    decreases |events| - i
  {
    if i < |events| {
      var (st', stored) := Append(st, events[i], AppendFails(faults, i));
      AppendKeepsInv(local, st, events[i], AppendFails(faults, i));
      AppendBatchKeepsInv(local, st', events, faults, i + 1,
                          if stored.Some? then Max(localMax, stored.value) else localMax);
    }
  }

  lemma VacuumKeepsInv(local: NodeId, st: Store, node: NodeId, maxSeq: nat)
    requires Inv(local, st) && (node == local || maxSeq <= LastAcked(st.cursors, node))
    ensures var st' := st.(rows := DeleteDelivered(st.rows, node, maxSeq)); Inv(local, st') && Extends(st, st')
  {
    var st' := st.(rows := DeleteDelivered(st.rows, node, maxSeq));
    forall s | s in st'.log && s !in st'.rows ensures Released(local, st', s) {
      if s !in st.rows {
        assert Released(local, st, s);
      }
    }
  }

  lemma AdvanceKeepsInv(local: NodeId, st: Store, node: NodeId, acked: nat, now: nat)
    requires Inv(local, st)
    ensures var st' := st.(cursors := Advance(st.cursors, node, acked, now));
      Inv(local, st') && Extends(st, st') && acked <= LastAcked(st'.cursors, node)
  {
    var st' := st.(cursors := Advance(st.cursors, node, acked, now));
    forall s | s in st'.log && s !in st'.rows ensures Released(local, st', s) {
      assert Released(local, st, s);
    }
  }

  lemma StepKeepsInv(local: NodeId, st: Store, job: Job)
    requires Inv(local, st)
    ensures Inv(local, Step(local, st, job)) && Extends(st, Step(local, st, job))
  {
    match job.command
    case AppendLocal(event) => AppendKeepsInv(local, st, event, AppendFails(job.faults, 0));
    case CommitInboundBatch(events) =>
      var (mid, top) := AppendBatch(st, events, job.faults, 0, 0);
      AppendBatchKeepsInv(local, st, events, job.faults, 0, 0);
      VacuumKeepsInv(local, mid, local, top);
    case ProcessAck(consumer, acked) =>
      AdvanceKeepsInv(local, st, consumer, acked, job.now);
      VacuumKeepsInv(local, st.(cursors := Advance(st.cursors, consumer, acked, job.now)), consumer, acked);
  }

  /**
   The outbox guarantee: over every run, with any storage call failing, the log is the numbers
   1..lastSeq, surviving rows are unaltered, and a row is gone only if it was addressed to this
   node or its target's cursor has reached it. Broadcast rows are never removed.
   */
  lemma {:induction false} RunKeepsInv(local: NodeId, st: Store, jobs: seq<Job>)
    requires Inv(local, st)
    ensures Inv(local, Run(local, st, jobs)) && Extends(st, Run(local, st, jobs))
    decreases |jobs|
  {
    if jobs != [] {
      var before := jobs[..|jobs| - 1];
      RunKeepsInv(local, st, before);
      StepKeepsInv(local, Run(local, st, before), jobs[|jobs| - 1]);
    }
  }

  lemma NoUnackedEventIsLost(local: NodeId, jobs: seq<Job>, s: nat)
    ensures var st := Run(local, EMPTY, jobs);
      s in st.log && s !in st.rows ==> Released(local, st, s)
  {
    RunKeepsInv(local, EMPTY, jobs);
  }

  // ---------------------------------------------------------------------------------------------
  // Inbound batches
  // ---------------------------------------------------------------------------------------------

  ghost predicate StoredUpTo(rows: map<nat, Event>, id: string, top: nat) {
    exists s :: s in rows && rows[s].id == id && 1 <= s <= top
  }

  lemma AppendStoresId(local: NodeId, st: Store, event: Event, fails: bool)
    requires Inv(local, st)
    ensures var (st', stored) := Append(st, event, fails);
      && (stored.None? <==> fails)
      && (stored.Some? ==> StoredUpTo(st'.rows, event.id, stored.value))
  {
    var (st', stored) := Append(st, event, fails);
    assert stored.Some? ==> stored.value in st'.rows && st'.rows[stored.value].id == event.id;
  }

  lemma StoredStays(local: NodeId, st: Store, st': Store, id: string, top: nat)
    requires Inv(local, st) && Inv(local, st') && Extends(st, st')
    requires forall s :: s in st.rows ==> s in st'.rows
    requires StoredUpTo(st.rows, id, top)
    ensures StoredUpTo(st'.rows, id, top)
  {
    var s :| s in st.rows && st.rows[s].id == id && 1 <= s <= top;
    assert s in st'.rows && st'.rows[s] == st'.log[s] == st.log[s];
  }

  /**
   Every id of a batch whose append does not fail is stored, at or below the highest seq the batch
   reports, whatever fails before or after it.
   */
  lemma {:induction false} BatchStoresEveryId(
      local: NodeId, st: Store, events: seq<Event>, faults: Faults, i: nat, localMax: nat, k: nat)
    requires Inv(local, st) && i <= |events| && k < |events|
    requires !AppendFails(faults, k)
    requires k < i ==> StoredUpTo(st.rows, events[k].id, localMax)
    ensures var (st', top) := AppendBatch(st, events, faults, i, localMax);
      top >= localMax && StoredUpTo(st'.rows, events[k].id, top)
    decreases |events| - i
  {
    if i < |events| {
      var (st', stored) := Append(st, events[i], AppendFails(faults, i));
      AppendKeepsInv(local, st, events[i], AppendFails(faults, i));
      AppendStoresId(local, st, events[i], AppendFails(faults, i));
      if k < i {
        StoredStays(local, st, st', events[k].id, localMax);
      }
      var localMax' := if stored.Some? then Max(localMax, stored.value) else localMax;
      BatchStoresEveryId(local, st', events, faults, i + 1, localMax', k);
    }
  }

  /** Rows a batch adds are events of the batch. */
  lemma {:induction false} BatchAddsItsEvents(
      local: NodeId, st: Store, events: seq<Event>, faults: Faults, i: nat, localMax: nat, s: nat)
    requires Inv(local, st) && i <= |events|
    requires s !in st.rows && s in AppendBatch(st, events, faults, i, localMax).0.rows
    ensures AppendBatch(st, events, faults, i, localMax).0.rows[s] in events
    decreases |events| - i
  {
    if i < |events| {
      var (st', stored) := Append(st, events[i], AppendFails(faults, i));
      var localMax' := if stored.Some? then Max(localMax, stored.value) else localMax;
      AppendKeepsInv(local, st, events[i], AppendFails(faults, i));
      if s in st'.rows {
        AppendBatchKeepsInv(local, st', events, faults, i + 1, localMax');
      } else {
        BatchAddsItsEvents(local, st', events, faults, i + 1, localMax', s);
      }
    }
  }

  /**
   A fault-free inbound batch leaves nothing addressed to this node under any id of the batch,
   keeps every remote and broadcast row that was there, and stores each relayed event of the batch.
   */
  lemma InboundVacuum(local: NodeId, st: Store, events: seq<Event>, job: Job)
    requires Inv(local, st) && job.command == CommitInboundBatch(events)
    requires !job.faults.vacuum && forall k :: 0 <= k < |events| ==> !AppendFails(job.faults, k)
    ensures var st' := Step(local, st, job);
      && (forall s :: s in st.rows && st.rows[s].target != Some(local) ==> s in st'.rows && st'.rows[s] == st.rows[s])
      && (forall s, k :: s in st'.rows && 0 <= k < |events| && st'.rows[s].id == events[k].id ==>
            st'.rows[s].target != Some(local))
      && (forall k :: 0 <= k < |events| && Relayed(local, st, events, events[k].id) ==>
            IsStored(st'.rows, events[k].id))
  {
    var (mid, top) := AppendBatch(st, events, job.faults, 0, 0);
    AppendBatchKeepsInv(local, st, events, job.faults, 0, 0);
    var st' := Step(local, st, job);
    forall k | 0 <= k < |events| ensures StoredUpTo(mid.rows, events[k].id, top) && top > 0 {
      BatchStoresEveryId(local, st, events, job.faults, 0, 0, k);
    }
    forall s, k | s in st'.rows && 0 <= k < |events| && st'.rows[s].id == events[k].id
      ensures st'.rows[s].target != Some(local)
    {
      assert StoredUpTo(mid.rows, events[k].id, top);
    }
    forall k | 0 <= k < |events| && Relayed(local, st, events, events[k].id)
      ensures IsStored(st'.rows, events[k].id)
    {
      var t :| t in mid.rows && mid.rows[t].id == events[k].id && 1 <= t <= top;
      if t !in st.rows {
        BatchAddsItsEvents(local, st, events, job.faults, 0, 0, t);
      }
      assert t in st'.rows;
    }
  }

  /** No stored row and no event of the batch with this id is addressed to this node. */
  ghost predicate Relayed(local: NodeId, st: Store, events: seq<Event>, id: string) {
    && (forall s :: s in st.rows && st.rows[s].id == id ==> st.rows[s].target != Some(local))
    && (forall k :: 0 <= k < |events| && events[k].id == id ==> events[k].target != Some(local))
  }

  // ---------------------------------------------------------------------------------------------
  // Cursors and acknowledgements
  // ---------------------------------------------------------------------------------------------

  predicate Acks(job: Job, node: NodeId, acked: nat) {
    job.command == ProcessAck(node, acked) && !job.faults.advance
  }

  lemma {:induction false} BatchKeepsCursors(st: Store, events: seq<Event>, faults: Faults, i: nat, localMax: nat)
    requires i <= |events|
    ensures AppendBatch(st, events, faults, i, localMax).0.cursors == st.cursors
    decreases |events| - i
  {
    if i < |events| {
      var (st', stored) := Append(st, events[i], AppendFails(faults, i));
      BatchKeepsCursors(st', events, faults, i + 1, if stored.Some? then Max(localMax, stored.value) else localMax);
    }
  }

  /** A cursor is the highest ack recorded for its node, whatever else ran and in whatever order. */
  lemma {:induction false} CursorIsHighestAck(local: NodeId, st: Store, jobs: seq<Job>, node: NodeId)
    ensures var c := LastAcked(Run(local, st, jobs).cursors, node);
      && c >= LastAcked(st.cursors, node)
      && (forall j, a :: j in jobs && Acks(j, node, a) ==> c >= a)
      && (c == LastAcked(st.cursors, node) || exists j :: j in jobs && Acks(j, node, c))
    decreases |jobs|
  {
    if jobs != [] {
      var before, last := jobs[..|jobs| - 1], jobs[|jobs| - 1];
      CursorIsHighestAck(local, st, before, node);
      var mid := Run(local, st, before);
      if last.command.CommitInboundBatch? {
        BatchKeepsCursors(mid, last.command.events, last.faults, 0, 0);
      }
      assert jobs == before + [last];
      var c := LastAcked(Run(local, st, jobs).cursors, node);
      if c != LastAcked(mid.cursors, node) {
        assert last in jobs && Acks(last, node, c);
      } else if c != LastAcked(st.cursors, node) {
        var j :| j in before && Acks(j, node, c);
        assert j in jobs;
      }
    }
  }

  predicate Clears(job: Job, s: nat, event: Event) {
    && job.command.ProcessAck?
    && !job.faults.advance && !job.faults.vacuum
    && Delivered(event, s, job.command.consumer, job.command.acked)
  }

  predicate OnlyAcks(jobs: seq<Job>) {
    forall j :: j in jobs ==> j.command.ProcessAck?
  }

  /** The rows an ack-only run leaves are exactly those no successful ack of the run covers. */
  lemma {:induction false} AcksLeaveUncovered(local: NodeId, st: Store, jobs: seq<Job>)
    requires OnlyAcks(jobs)
    ensures var rows := Run(local, st, jobs).rows;
      && (forall s :: s in rows <==> s in st.rows && !exists j :: j in jobs && Clears(j, s, st.rows[s]))
      && (forall s :: s in rows ==> rows[s] == st.rows[s])
    decreases |jobs|
  {
    if jobs != [] {
      var before, last := jobs[..|jobs| - 1], jobs[|jobs| - 1];
      assert jobs == before + [last];
      assert forall j :: j in jobs <==> j in before || j == last;
      AcksLeaveUncovered(local, st, before);
      var mid := Run(local, st, before).rows;
      var rows := Run(local, st, jobs).rows;
      forall s | s in st.rows
        ensures s in rows <==> !exists j :: j in jobs && Clears(j, s, st.rows[s])
      {
        assert s in rows <==> s in mid && !Clears(last, s, st.rows[s]);
      }
    }
  }

  /**
   Acks commute: reordering or repeating the same acks, each with its own faults, leaves the same
   cursors and the same surviving rows.
   */
  lemma AckOrderIsIrrelevant(local: NodeId, st: Store, jobs: seq<Job>, jobs': seq<Job>, node: NodeId)
    requires OnlyAcks(jobs)
    requires forall j :: j in jobs <==> j in jobs'
    ensures Run(local, st, jobs).rows == Run(local, st, jobs').rows
    ensures LastAcked(Run(local, st, jobs).cursors, node) == LastAcked(Run(local, st, jobs').cursors, node)
  {
    AcksLeaveUncovered(local, st, jobs);
    AcksLeaveUncovered(local, st, jobs');
    CursorIsHighestAck(local, st, jobs, node);
    CursorIsHighestAck(local, st, jobs', node);
    forall s ensures s in Run(local, st, jobs).rows <==> s in Run(local, st, jobs').rows {
    }
  }

  // ---------------------------------------------------------------------------------------------
  // What the dispatcher can see
  // ---------------------------------------------------------------------------------------------

  /** An event for this hotel, or for nobody in particular, leaves no trace, whatever fails. */
  lemma LocalAppendIsSkipped(local: NodeId, st: Store, event: Event, faults: Faults, now: nat)
    requires event.target in {None, Some(local)}
    ensures Step(local, st, Job(AppendLocal(event), faults, now)) == st
  {
  }

  /** Exactly a new event for another node, whose append does not fail, makes the ledger grow. */
  lemma LedgerGrowsIff(local: NodeId, st: Store, event: Event, faults: Faults, now: nat)
    ensures var st' := Step(local, st, Job(AppendLocal(event), faults, now));
      (st' != st <==> event.target !in {None, Some(local)} && !AppendFails(faults, 0) && !IsStored(st.rows, event.id))
      && (st' != st ==> st'.rows == st.rows[st.lastSeq + 1 := event] && st'.cursors == st.cursors)
  {
    var st' := Step(local, st, Job(AppendLocal(event), faults, now));
    if event.target in {None, Some(local)} {
      LocalAppendIsSkipped(local, st, event, faults, now);
    } else {
      assert st' == Append(st, event, AppendFails(faults, 0)).0;
      assert st'.lastSeq == st.lastSeq + 1 <==> !AppendFails(faults, 0) && !IsStored(st.rows, event.id);
    }
  }

  /** A newly stored event is visible to the dispatcher exactly when no ack ran ahead of the ledger. */
  lemma AppendedIsPending(local: NodeId, st: Store, event: Event, job: Job)
    requires Inv(local, st) && event.target.Some? && event.target.value != local && !IsStored(st.rows, event.id)
    requires job.command == AppendLocal(event) && !AppendFails(job.faults, 0)
    ensures var st' := Step(local, st, job);
      && st'.lastSeq == st.lastSeq + 1
      && st'.rows == st.rows[st'.lastSeq := event]
      && (st'.lastSeq in Pending(st'.rows, event.target.value, LastAcked(st'.cursors, event.target.value))
          <==> LastAcked(st.cursors, event.target.value) <= st.lastSeq)
  {
  }

  /** An append that succeeds yields a seq above all earlier ones exactly when the event id was new. */
  lemma AppendRisesIff(local: NodeId, st: Store, event: Event, seqNo: nat)
    requires Inv(local, st) && Append(st, event, false).1 == Some(seqNo)
    ensures seqNo > st.lastSeq <==> !IsStored(st.rows, event.id)
    ensures seqNo in Append(st, event, false).0.rows && Append(st, event, false).0.rows[seqNo].id == event.id
  {
    if IsStored(st.rows, event.id) {
      assert seqNo in st.rows && seqNo in st.log;
    }
  }

  ghost predicate CursorsWithinLog(st: Store) {
    forall n :: LastAcked(st.cursors, n) <= st.lastSeq
  }

  /** Every ack of the run names a seq that existed when the ack was processed, or was not recorded. */
  ghost predicate HonestAcks(local: NodeId, st: Store, jobs: seq<Job>)
    decreases |jobs|
  {
    jobs != [] ==>
      var before, last := jobs[..|jobs| - 1], jobs[|jobs| - 1];
      && HonestAcks(local, st, before)
      && (last.command.ProcessAck? && !last.faults.advance ==> last.command.acked <= Run(local, st, before).lastSeq)
  }

  lemma {:induction false} HonestAcksKeepCursorsWithinLog(local: NodeId, st: Store, jobs: seq<Job>)
    requires Inv(local, st) && CursorsWithinLog(st) && HonestAcks(local, st, jobs)
    ensures CursorsWithinLog(Run(local, st, jobs))
    decreases |jobs|
  {
    if jobs != [] {
      var before, last := jobs[..|jobs| - 1], jobs[|jobs| - 1];
      HonestAcksKeepCursorsWithinLog(local, st, before);
      RunKeepsInv(local, st, before);
      var mid := Run(local, st, before);
      StepKeepsInv(local, mid, last);
      if last.command.CommitInboundBatch? {
        BatchKeepsCursors(mid, last.command.events, last.faults, 0, 0);
      }
    }
  }

  /** An ack ahead of the ledger hides the next event from the dispatcher although it stays stored. */
  lemma AckAheadStrandsAnEvent(local: NodeId, node: NodeId, event: Event)
    requires node != local && event.target == Some(node)
    ensures var ok := Faults([], false, false);
      var st := Run(local, EMPTY, [Job(ProcessAck(node, 1), ok, 0), Job(AppendLocal(event), ok, 0)]);
      1 in st.rows && 1 !in Pending(st.rows, node, LastAcked(st.cursors, node))
  {
    var ok := Faults([], false, false);
    var ack, append := Job(ProcessAck(node, 1), ok, 0), Job(AppendLocal(event), ok, 0);
    assert [ack, append][..1] == [ack] && [ack][..0] == [];
    var acked := Run(local, EMPTY, [ack]);
    assert acked == Step(local, Run(local, EMPTY, [ack][..0]), ack);
    assert !IsStored(acked.rows, event.id);
    assert Run(local, EMPTY, [ack, append]) == Step(local, acked, append);
  }

  /**
   Local commands store events for other nodes only: in a run without inbound batches neither a
   broadcast nor an event for this hotel is ever stored, so (`BroadcastsAreNeverPending`) no broadcast
   of this hotel is ever pending for a peer.
   */
  lemma {:induction false} BroadcastsAreNotStored(local: NodeId, jobs: seq<Job>)
    requires forall j :: j in jobs ==> !j.command.CommitInboundBatch?
    ensures AllRemote(local, Run(local, EMPTY, jobs).log)
    decreases |jobs|
  {
    if jobs != [] {
      var before, last := jobs[..|jobs| - 1], jobs[|jobs| - 1];
      assert last in jobs && forall j :: j in before ==> j in jobs;
      BroadcastsAreNotStored(local, before);
      StepStoresRemoteOnly(local, Run(local, EMPTY, before), last);
    }
  }

  /** Everything ever stored was addressed to another node. */
  ghost predicate AllRemote(local: NodeId, log: map<nat, Event>) {
    forall s :: s in log ==> log[s].target.Some? && log[s].target.value != local
  }

  lemma StepStoresRemoteOnly(local: NodeId, st: Store, job: Job)
    requires !job.command.CommitInboundBatch? && AllRemote(local, st.log)
    ensures AllRemote(local, Step(local, st, job).log)
  {
    match job.command
    case AppendLocal(event) =>
      var log := Step(local, st, job).log;
      assert log == st.log || (IsRemote(local, event) && log == st.log[st.lastSeq + 1 := event]);
    case ProcessAck(_, _) =>
      assert Step(local, st, job).log == st.log;
  }

  lemma BroadcastsAreNeverPending(local: NodeId, jobs: seq<Job>, node: NodeId, cursor: nat, s: nat)
    requires forall j :: j in jobs ==> !j.command.CommitInboundBatch?
    requires s in Pending(Run(local, EMPTY, jobs).rows, node, cursor)
    ensures Run(local, EMPTY, jobs).rows[s].target == Some(node)
  {
    BroadcastsAreNotStored(local, jobs);
    RunKeepsInv(local, EMPTY, jobs);
  }
}
