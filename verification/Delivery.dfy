/**
 One sender's ledger, its dispatcher, and one peer, joined by a network that loses, delays,
 repeats and reorders messages. The dispatcher sends every row in a message of its own and the
 peer acknowledges the seq of the row it got, while the writer treats an ack as covering all
 lower seqs. So delivery rests on the peer receiving rows in order, and this module says exactly how.
 */
module Delivery {
  import opened Wrappers
  import opened Ledger
  import opened LedgerSafety

  /** `sent`, `got` and `acks` only grow: what was ever put on the wire may arrive at any time. */
  datatype Link = Link(st: Store, sent: set<nat>, got: set<nat>, acks: set<nat>)

  datatype LinkStep = Write(job: Job) | Dispatch(s: nat) | Receive(s: nat)

  datatype Ends = Ends(local: NodeId, peer: NodeId)

  /** Rows the dispatcher's query returns for the peer: its own, and relayed broadcasts. */
  ghost predicate ForPeer(ends: Ends, st: Store, s: nat) {
    s in st.log && st.log[s].target in {None, Some(ends.peer)}
  }

  /** Acks of the peer come from the peer; a row is sent only if the query once returned it. */
  ghost predicate Enabled(ends: Ends, link: Link, step: LinkStep) {
    match step
    case Write(job) =>
      job.command.ProcessAck? && job.command.consumer == ends.peer ==> job.command.acked in link.acks
    case Dispatch(s) => ForPeer(ends, link.st, s)
    case Receive(s) => s in link.sent
  }

  ghost function Next(ends: Ends, link: Link, step: LinkStep): Link {
    match step
    case Write(job) => link.(st := Step(ends.local, link.st, job))
    case Dispatch(s) => link.(sent := link.sent + {s})
    case Receive(s) => link.(got := link.got + {s}, acks := link.acks + {s})
  }

  /** Every earlier row for the peer has arrived before this one. */
  ghost predicate InOrder(ends: Ends, link: Link, s: nat) {
    forall t: nat :: ForPeer(ends, link.st, t) && t < s ==> t in link.got
  }

  /** Every row for the peer has arrived, or the query will still return it. */
  ghost predicate NothingLost(ends: Ends, link: Link) {
    forall s :: ForPeer(ends, link.st, s) && s !in link.got ==>
      s in Pending(link.st.rows, ends.peer, LastAcked(link.st.cursors, ends.peer))
  }

  ghost predicate Covered(ends: Ends, link: Link) {
    forall a, s :: a in link.acks && ForPeer(ends, link.st, s) && s <= a ==> s in link.got
  }

  ghost predicate LinkInv(ends: Ends, link: Link) {
    && ends.local != ends.peer
    && Inv(ends.local, link.st)
    && (forall s :: s in link.sent ==> s in link.st.log)
    && link.acks == link.got <= link.sent
    && (LastAcked(link.st.cursors, ends.peer) == 0 || LastAcked(link.st.cursors, ends.peer) in link.acks)
  }

  lemma NextKeepsLinkInv(ends: Ends, link: Link, step: LinkStep)
    requires LinkInv(ends, link) && Enabled(ends, link, step)
    ensures LinkInv(ends, Next(ends, link, step))
    ensures Covered(ends, link) && (step.Receive? ==> InOrder(ends, link, step.s)) ==>
              Covered(ends, Next(ends, link, step))
  {
    if step.Write? {
      StepKeepsInv(ends.local, link.st, step.job);
      if step.job.command.CommitInboundBatch? {
        BatchKeepsCursors(link.st, step.job.command.events, step.job.faults, 0, 0);
      }
      var link' := Next(ends, link, step);
      forall a, s | Covered(ends, link) && a in link'.acks && ForPeer(ends, link'.st, s) && s <= a
        ensures s in link'.got
      {
        assert a in link.st.log;
        assert s in link.st.log && link'.st.log[s] == link.st.log[s];
      }
    }
  }

  /** An event whose row is gone, or hidden below the cursor, has arrived. */
  lemma CoveredLosesNothing(ends: Ends, link: Link)
    requires LinkInv(ends, link) && Covered(ends, link)
    ensures NothingLost(ends, link)
    ensures forall s :: ForPeer(ends, link.st, s) && s !in link.st.rows ==> s in link.got
  {
    forall s | ForPeer(ends, link.st, s) && s !in link.st.rows ensures s in link.got {
      assert Released(ends.local, link.st, s);
    }
  }

  ghost function RunLink(ends: Ends, link: Link, steps: seq<LinkStep>): Link
    decreases |steps|
  {
    if steps == [] then link
    else Next(ends, RunLink(ends, link, steps[..|steps| - 1]), steps[|steps| - 1])
  }

  /** Every step of the run is possible when it happens, and messages arrive in order. */
  ghost predicate OrderedRun(ends: Ends, link: Link, steps: seq<LinkStep>)
    decreases |steps|
  {
    steps != [] ==>
      var before, last := steps[..|steps| - 1], steps[|steps| - 1];
      var mid := RunLink(ends, link, before);
      && OrderedRun(ends, link, before)
      && Enabled(ends, mid, last)
      && (last.Receive? ==> InOrder(ends, mid, last.s))
  }

  /**
   While the peer receives in order, every event addressed to it, and every relayed broadcast, either has
   arrived or is still pending for the dispatcher, whatever storage calls fail and however often messages are lost,
   repeated or delayed.
   */
  lemma {:induction false} OrderedRunsDeliver(ends: Ends, link: Link, steps: seq<LinkStep>)
    requires LinkInv(ends, link) && Covered(ends, link) && OrderedRun(ends, link, steps)
    ensures var end := RunLink(ends, link, steps);
      LinkInv(ends, end) && Covered(ends, end) && NothingLost(ends, end)
    decreases |steps|
  {
    if steps != [] {
      var before := steps[..|steps| - 1];
      OrderedRunsDeliver(ends, link, before);
      NextKeepsLinkInv(ends, RunLink(ends, link, before), steps[|steps| - 1]);
    }
    CoveredLosesNothing(ends, RunLink(ends, link, steps));
  }

  function AckJob(ends: Ends, a: nat, now: nat): Job {
    Job(ProcessAck(ends.peer, a), Faults([], false, false), now)
  }

  /**
   Order is exactly what is needed: after a message arrives, every ack the peer can have sent may
   be processed without losing an event if and only if the message arrived in order.
   */
  lemma AcksAreSafeIffInOrder(ends: Ends, link: Link, s: nat, now: nat)
    requires LinkInv(ends, link) && Covered(ends, link) && s in link.sent
    ensures var link' := Next(ends, link, Receive(s));
      (forall a :: a in link'.acks ==> NothingLost(ends, Next(ends, link', Write(AckJob(ends, a, now)))))
      <==> InOrder(ends, link, s)
  {
    var link' := Next(ends, link, Receive(s));
    NextKeepsLinkInv(ends, link, Receive(s));
    if InOrder(ends, link, s) {
      forall a | a in link'.acks ensures NothingLost(ends, Next(ends, link', Write(AckJob(ends, a, now)))) {
        NextKeepsLinkInv(ends, link', Write(AckJob(ends, a, now)));
        CoveredLosesNothing(ends, Next(ends, link', Write(AckJob(ends, a, now))));
      }
    } else {
      var t: nat :| ForPeer(ends, link.st, t) && t < s && t !in link.got;
      var end := Next(ends, link', Write(AckJob(ends, s, now)));
      assert s in link'.acks;
      assert ForPeer(ends, end.st, t) && t !in end.got && LastAcked(end.st.cursors, ends.peer) >= s;
    }
  }

  /** The smallest loss: two events, the first message lost, the second one acknowledged. */
  lemma GapLosesAnEvent(ends: Ends, first: Event, second: Event)
    requires ends.local != ends.peer && first.id != second.id
    requires first.target == second.target == Some(ends.peer)
    ensures var ok := Faults([], false, false);
      var start := Link(EMPTY, {}, {}, {});
      var a := Next(ends, start, Write(Job(AppendLocal(first), ok, 0)));
      var b := Next(ends, a, Write(Job(AppendLocal(second), ok, 0)));
      var c := Next(ends, Next(ends, b, Dispatch(1)), Dispatch(2));
      var d := Next(ends, c, Receive(2));
      var e := Next(ends, d, Write(AckJob(ends, 2, 0)));
      && Enabled(ends, b, Dispatch(1)) && Enabled(ends, b, Dispatch(2)) && Enabled(ends, c, Receive(2))
      && Enabled(ends, d, Write(AckJob(ends, 2, 0)))
      && e.st.log[1] == first && e.st.rows == map[] && 1 !in e.got
  {
    var ok := Faults([], false, false);
    var start := Link(EMPTY, {}, {}, {});
    var a := Next(ends, start, Write(Job(AppendLocal(first), ok, 0)));
    assert a.st.rows == map[1 := first];
    assert !IsStored(a.st.rows, second.id);
    var b := Next(ends, a, Write(Job(AppendLocal(second), ok, 0)));
    assert b.st.rows == map[1 := first, 2 := second] && b.st.log == b.st.rows;
  }
}
