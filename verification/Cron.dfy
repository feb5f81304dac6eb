/**
 Mesh cron: a hotel's own ticker, its peers' `CronFired` broadcasts and synced records drive one job
 record. The ticker reads a due record, delivers, and only then writes the record it read back, advanced.
 `next_fire_after` is a parameter; where a result needs it, it is strictly later than its argument.
 */
module Cron {
  import opened Wrappers

  type NextFire = (string, nat) -> Option<nat>

  datatype CronJob = CronJob(
    id: string,
    schedule: string,
    enabled: bool,
    lastFired: Option<nat>,
    nextFireAt: nat)

  type Jobs = map<string, CronJob>

  /** The stored records, and the ones the ticker has read and not written back yet. */
  datatype World = World(jobs: Jobs, reading: Jobs)

  /** Storage reads and writes of a step may fail; a failure leaves the job as it was. */
  datatype CronStep =
    | Fired(jobId: string, epoch: nat, fails: bool)
    | Read(jobId: string, now: nat, offset: nat)
    | Write(jobId: string, fails: bool)
    | Sync(jobId: string, record: Option<CronJob>, fails: bool)

  /** A peer's broadcast applies only to the epoch this hotel is still waiting for. */
  function AfterBroadcast(job: CronJob, epoch: nat, next: NextFire): Option<CronJob> {
    if job.lastFired == Some(epoch) then None
    else if job.nextFireAt != epoch then None
    else
      match next(job.schedule, epoch)
      case None => None
      case Some(n) => Some(job.(lastFired := Some(epoch), nextFireAt := n))
  }

  /** The ticker's own advance; a schedule with no future occurrence disables the job. */
  function Advanced(job: CronJob, next: NextFire): CronJob {
    match next(job.schedule, job.nextFireAt)
    case None => job.(lastFired := Some(job.nextFireAt), enabled := false)
    case Some(n) => job.(lastFired := Some(job.nextFireAt), nextFireAt := n)
  }

  predicate Due(job: CronJob, now: nat, offset: nat) {
    job.enabled && job.nextFireAt + offset <= now
  }

  /** The epoch a step records as fired, with the record it writes, if it fires one. */
  function Firing(w: World, step: CronStep, next: NextFire): Option<(nat, CronJob)> {
    match step
    case Fired(id, epoch, fails) =>
      if id !in w.jobs || fails then None
      else
        var job := AfterBroadcast(w.jobs[id], epoch, next);
        if job.None? then None else Some((epoch, job.value))
    case Write(id, fails) =>
      if id !in w.reading || fails then None
      else Some((w.reading[id].nextFireAt, Advanced(w.reading[id], next)))
    case _ => None
  }

  function Step(w: World, step: CronStep, next: NextFire): World {
    match step
    case Fired(id, _, _) =>
      var firing := Firing(w, step, next);
      if firing.None? then w else w.(jobs := w.jobs[id := firing.value.1])
    case Read(id, now, offset) =>
      if id in w.jobs && Due(w.jobs[id], now, offset) then w.(reading := w.reading[id := w.jobs[id]]) else w
    case Write(id, _) =>
      var firing := Firing(w, step, next);
      World(if firing.None? then w.jobs else w.jobs[id := firing.value.1], w.reading - {id})
    case Sync(id, record, fails) =>
      if fails then w
      else if record.Some? then w.(jobs := w.jobs[id := record.value])
      else w.(jobs := w.jobs - {id})
  }

  function Run(w: World, steps: seq<CronStep>, next: NextFire): World
    decreases |steps|
  {
    if steps == [] then w else Step(Run(w, steps[..|steps| - 1], next), steps[|steps| - 1], next)
  }

  class CronStore {
    var jobs: Jobs
    var reading: Jobs

    constructor (jobs: Jobs)
      ensures this.jobs == jobs && reading == map[]
    {
      this.jobs, reading := jobs, map[];
    }

    function Contents(): World
      reads this
    {
      World(jobs, reading)
    }

    method HandleCronFiredBroadcast(jobId: string, epoch: nat, next: NextFire, readFails: bool, writeFails: bool)
      modifies this
      ensures Contents() == Step(old(Contents()), Fired(jobId, epoch, readFails || writeFails), next)
    {
      if readFails || jobId !in jobs {
        return;
      }
      var job := jobs[jobId];
      if job.lastFired == Some(epoch) {
        return;
      }
      if job.nextFireAt != epoch {
        return;
      }
      var n := next(job.schedule, epoch);
      if n.None? {
        return;
      }
      if !writeFails {
        jobs := jobs[jobId := job.(lastFired := Some(epoch), nextFireAt := n.value)];
      }
    }

    /** The due list as the ticker takes it, for one job. */
    method ReadDue(jobId: string, now: nat, offset: nat, next: NextFire)
      modifies this
      ensures Contents() == Step(old(Contents()), Read(jobId, now, offset), next)
    {
      if jobId in jobs && jobs[jobId].enabled && jobs[jobId].nextFireAt + offset <= now {
        reading := reading[jobId := jobs[jobId]];
      }
    }

    /** The end of a fire: the record read is written back, unless the write, or the fire, failed. */
    method AdvanceSchedule(jobId: string, next: NextFire, fails: bool)
      requires jobId in reading
      modifies this
      ensures Contents() == Step(old(Contents()), Write(jobId, fails), next)
    {
      var job := reading[jobId];
      var n := next(job.schedule, job.nextFireAt);
      var updated := job.(lastFired := Some(job.nextFireAt));
      if n.None? {
        updated := updated.(enabled := false);
      } else {
        updated := updated.(nextFireAt := n.value);
      }
      if !fails {
        jobs := jobs[jobId := updated];
      }
      reading := reading - {jobId};
    }

    /** A peer's `CronJobSync`: the record is taken over, or dropped, as it comes. */
    method HandleCronJobSync(job: Option<CronJob>, removed: string, next: NextFire, fails: bool)
      modifies this
      ensures Contents() == Step(old(Contents()), Sync(if job.Some? then job.value.id else removed, job, fails), next)
      ensures reading == old(reading)
      ensures jobs == if fails then old(jobs)
                      else if job.Some? then old(jobs)[job.value.id := job.value]
                      else old(jobs) - {removed}
    {
      if fails {
        return;
      }
      if job.Some? {
        jobs := jobs[job.value.id := job.value];
      } else {
        jobs := jobs - {removed};
      }
    }
  }

  // ---------------------------------------------------------------------------------------------
  // The epochs of a run
  // ---------------------------------------------------------------------------------------------

  ghost predicate StrictlyLater(next: NextFire) {
    forall s, t :: next(s, t).Some? ==> next(s, t).value > t
  }

  /** The epochs fired so far, after one more step. */
  ghost function AndThen(epochs: seq<nat>, firing: Option<(nat, CronJob)>): seq<nat> {
    if firing.Some? then epochs + [firing.value.0] else epochs
  }

  /** The epochs of one job that a run fired, in order, whether by broadcast or by its own ticker. */
  ghost function Applied(w: World, steps: seq<CronStep>, next: NextFire, id: string): seq<nat>
    decreases |steps|
  {
    if steps == [] then []
    else
      var before, last := steps[..|steps| - 1], steps[|steps| - 1];
      AndThen(Applied(w, before, next, id), if last.jobId == id then Firing(Run(w, before, next), last, next) else None)
  }

  predicate Unsynced(steps: seq<CronStep>, id: string) {
    forall s :: s in steps && s.Sync? ==> s.jobId != id
  }

  /** The stored record still waits for the epoch the ticker read. */
  predicate WriteIsFresh(w: World, step: CronStep) {
    step.Write? && !step.fails && step.jobId in w.reading && step.jobId in w.jobs ==>
      w.jobs[step.jobId].nextFireAt == w.reading[step.jobId].nextFireAt
  }

  /** Every write of the ticker for this job finds the next fire time it read. */
  ghost predicate Guarded(w: World, steps: seq<CronStep>, next: NextFire, id: string)
    decreases |steps|
  {
    steps != [] ==>
      var before, last := steps[..|steps| - 1], steps[|steps| - 1];
      && Guarded(w, before, next, id)
      && (last.jobId == id ==> WriteIsFresh(Run(w, before, next), last))
  }

  /** Waiting for an epoch after the last one, or exhausted. */
  ghost predicate Pristine(job: CronJob) {
    job.lastFired.Some? ==> job.lastFired.value < job.nextFireAt
  }

  ghost predicate Settled(job: CronJob) {
    Pristine(job) || (job.lastFired == Some(job.nextFireAt) && !job.enabled)
  }

  ghost predicate Rising(epochs: seq<nat>) {
    forall i, j :: 0 <= i < j < |epochs| ==> epochs[i] < epochs[j]
  }

  /** An epoch is behind a job: below its next fire time, or the last one of an ended schedule. */
  ghost predicate Passed(w: World, id: string, epoch: nat)
    requires id in w.jobs
  {
    var job := w.jobs[id];
    epoch < job.nextFireAt
    || (epoch == job.nextFireAt && job.lastFired == Some(epoch) && !job.enabled && id !in w.reading)
  }

  lemma UnsyncedPrefix(steps: seq<CronStep>, id: string)
    requires steps != [] && Unsynced(steps, id)
    ensures Unsynced(steps[..|steps| - 1], id)
    ensures var last := steps[|steps| - 1]; last.Sync? ==> last.jobId != id
  {
  }

  /** These epochs rise from `start`, and the job is past all of them. */
  ghost predicate RisenTo(w: World, id: string, start: nat, epochs: seq<nat>) {
    && id in w.jobs && Settled(w.jobs[id]) && start <= w.jobs[id].nextFireAt
    && Rising(epochs)
    && (forall e :: e in epochs ==> start <= e && Passed(w, id, e))
  }

  lemma RisingAppend(epochs: seq<nat>, e: nat)
    requires Rising(epochs) && forall x :: x in epochs ==> x < e
    ensures Rising(epochs + [e])
  {
    var all := epochs + [e];
    forall i, j | 0 <= i < j < |all| ensures all[i] < all[j] {
      assert all[i] in epochs && (j < |epochs| ==> all[j] == epochs[j]);
    }
  }

  lemma StepKeepsRisen(w: World, step: CronStep, next: NextFire, id: string, start: nat, epochs: seq<nat>)
    requires StrictlyLater(next) && RisenTo(w, id, start, epochs)
    requires step.jobId == id ==> !step.Sync? && WriteIsFresh(w, step)
    ensures var firing := if step.jobId == id then Firing(w, step, next) else None;
      RisenTo(Step(w, step, next), id, start, AndThen(epochs, firing))
  {
    if step.jobId == id && Firing(w, step, next).Some? {
      var e := w.jobs[id].nextFireAt;
      assert Firing(w, step, next).value.0 == e;
      RisingAppend(epochs, e);
    }
  }

  /**
   From any moment on, without syncs and with guarded writes, the epochs fired rise from the one
   waited for, the next fire time never goes back, and every epoch fired is passed.
   */
  lemma {:induction false} EpochsRise(w: World, steps: seq<CronStep>, next: NextFire, id: string)
    requires StrictlyLater(next) && id in w.jobs && Settled(w.jobs[id])
    requires Unsynced(steps, id) && Guarded(w, steps, next, id)
    ensures RisenTo(Run(w, steps, next), id, w.jobs[id].nextFireAt, Applied(w, steps, next, id))
    decreases |steps|
  {
    if steps != [] {
      var before, last := steps[..|steps| - 1], steps[|steps| - 1];
      UnsyncedPrefix(steps, id);
      EpochsRise(w, before, next, id);
      StepKeepsRisen(
        Run(w, before, next), last, next, id, w.jobs[id].nextFireAt, Applied(w, before, next, id));
    }
  }

  /** What the ticker has in flight is what is stored, or was fired since; and the job is enabled. */
  lemma {:induction false} InFlight(w: World, steps: seq<CronStep>, next: NextFire, id: string)
    requires id in w.jobs && id !in w.reading && Unsynced(steps, id)
    ensures var after := Run(w, steps, next);
      && id in after.jobs
      && (id in after.reading ==>
            after.reading[id].nextFireAt == after.jobs[id].nextFireAt
            || after.reading[id].nextFireAt in Applied(w, steps, next, id))
    decreases |steps|
  {
    if steps != [] {
      UnsyncedPrefix(steps, id);
      InFlight(w, steps[..|steps| - 1], next, id);
    }
  }

  /**
   When the ticker is about to write, its write fires an epoch already fired if and only if the stored
   next fire time is no longer the one it read.
   */
  lemma WriteRepeatsIff(w: World, steps: seq<CronStep>, next: NextFire, id: string)
    requires StrictlyLater(next) && id in w.jobs && Settled(w.jobs[id]) && id !in w.reading
    requires Unsynced(steps, id) && Guarded(w, steps, next, id)
    requires id in Run(w, steps, next).reading
    ensures var mid := Run(w, steps, next);
      && id in mid.jobs
      && (mid.reading[id].nextFireAt in Applied(w, steps, next, id)
          <==> mid.reading[id].nextFireAt != mid.jobs[id].nextFireAt)
  {
    EpochsRise(w, steps, next, id);
    InFlight(w, steps, next, id);
  }

  /**
   Over every run without syncs, with any loss, repetition, reordering and failure: no epoch is fired
   twice if and only if every write of the ticker found the next fire time it had read.
   */
  lemma {:induction false} FiredOnceIffGuarded(w: World, steps: seq<CronStep>, next: NextFire, id: string)
    requires StrictlyLater(next) && id in w.jobs && Settled(w.jobs[id]) && id !in w.reading
    requires Unsynced(steps, id)
    ensures Distinct(Applied(w, steps, next, id)) <==> Guarded(w, steps, next, id)
    decreases |steps|
  {
    if steps != [] {
      var before, last := steps[..|steps| - 1], steps[|steps| - 1];
      UnsyncedPrefix(steps, id);
      FiredOnceIffGuarded(w, before, next, id);
      var xs, mid := Applied(w, before, next, id), Run(w, before, next);
      InFlight(w, before, next, id);
      if Guarded(w, steps, next, id) {
        EpochsRise(w, steps, next, id);
      } else if !Guarded(w, before, next, id) {
        MoreKeepsRepeats(xs, Applied(w, steps, next, id));
      } else {
        assert mid.reading[id].nextFireAt in xs;
        assert Applied(w, steps, next, id) == xs + [mid.reading[id].nextFireAt];
        RepeatAtEnd(xs, mid.reading[id].nextFireAt);
      }
    }
  }

  ghost predicate Distinct(epochs: seq<nat>) {
    forall i, j :: 0 <= i < j < |epochs| ==> epochs[i] != epochs[j]
  }

  lemma MoreKeepsRepeats(xs: seq<nat>, ys: seq<nat>)
    requires xs <= ys && !Distinct(xs)
    ensures !Distinct(ys)
  {
    var i, j :| 0 <= i < j < |xs| && xs[i] == xs[j];
    assert ys[i] == ys[j];
  }

  lemma RepeatAtEnd(xs: seq<nat>, e: nat)
    requires e in xs
    ensures !Distinct(xs + [e])
  {
    var i :| 0 <= i < |xs| && xs[i] == e;
    assert (xs + [e])[i] == (xs + [e])[|xs|];
  }

  // ---------------------------------------------------------------------------------------------
  // Every guarded run walks the schedule
  // ---------------------------------------------------------------------------------------------

  /** `epochs` starts at `start` and each one is the next occurrence after the one before. */
  ghost predicate IsChain(epochs: seq<nat>, start: nat, schedule: string, next: NextFire) {
    && (epochs != [] ==> epochs[0] == start)
    && (forall i :: 0 <= i < |epochs| - 1 ==> next(schedule, epochs[i]) == Some(epochs[i + 1]))
  }

  /** Where a job stands once it has fired these epochs. */
  ghost predicate StandsAfter(job: CronJob, start: CronJob, epochs: seq<nat>, next: NextFire) {
    && job.id == start.id && job.schedule == start.schedule
    && IsChain(epochs, start.nextFireAt, start.schedule, next)
    && (epochs == [] ==> job == start)
    && (epochs != [] ==>
          var last := epochs[|epochs| - 1];
          && job.lastFired == Some(last)
          && ((next(job.schedule, last) == Some(job.nextFireAt) && job.enabled == start.enabled)
              || (next(job.schedule, last) == None && job.nextFireAt == last && !job.enabled)))
  }

  /** A record in flight that is still fresh is the stored record itself, and the job is enabled. */
  ghost predicate ReadIsCurrent(w: World, id: string)
    requires id in w.jobs
  {
    id in w.reading ==>
      w.jobs[id].enabled && (w.reading[id] == w.jobs[id] || w.reading[id].nextFireAt < w.jobs[id].nextFireAt)
  }

  /**
   However broadcasts are lost, repeated and reordered, and however they fall between the ticker's
   reads and guarded writes, the epochs a job fires are a contiguous prefix of its schedule, and it
   stays enabled or disabled as it was until the schedule ends.
   */
  lemma {:induction false} RunsFollowTheSchedule(w: World, steps: seq<CronStep>, next: NextFire, id: string)
    requires StrictlyLater(next) && id in w.jobs && Pristine(w.jobs[id]) && ReadIsCurrent(w, id)
    requires Unsynced(steps, id) && Guarded(w, steps, next, id)
    ensures var after := Run(w, steps, next);
      && id in after.jobs && ReadIsCurrent(after, id)
      && StandsAfter(after.jobs[id], w.jobs[id], Applied(w, steps, next, id), next)
    decreases |steps|
  {
    if steps != [] {
      var before, last := steps[..|steps| - 1], steps[|steps| - 1];
      UnsyncedPrefix(steps, id);
      RunsFollowTheSchedule(w, before, next, id);
      StepFollowsTheSchedule(Run(w, before, next), last, next, id, w.jobs[id], Applied(w, before, next, id));
    }
  }

  lemma StepFollowsTheSchedule(
      w: World, step: CronStep, next: NextFire, id: string, start: CronJob, epochs: seq<nat>)
    requires StrictlyLater(next) && id in w.jobs && ReadIsCurrent(w, id) && StandsAfter(w.jobs[id], start, epochs, next)
    requires step.jobId == id ==> !step.Sync? && WriteIsFresh(w, step)
    ensures var after, firing := Step(w, step, next), if step.jobId == id then Firing(w, step, next) else None;
      && id in after.jobs && ReadIsCurrent(after, id)
      && StandsAfter(after.jobs[id], start, AndThen(epochs, firing), next)
  {
    if step.jobId == id && Firing(w, step, next).Some? {
      assert Firing(w, step, next).value.0 == w.jobs[id].nextFireAt;
    }
  }

  lemma {:induction false} ChainsRise(epochs: seq<nat>, start: nat, schedule: string, next: NextFire, i: nat, j: nat)
    requires StrictlyLater(next) && IsChain(epochs, start, schedule, next) && i <= j < |epochs|
    ensures start <= epochs[i] <= epochs[j] && (i < j ==> epochs[i] < epochs[j])
    decreases j
  {
    if j > 0 {
      assert next(schedule, epochs[j - 1]) == Some(epochs[j]);
      ChainsRise(epochs, start, schedule, next, if i < j then i else j - 1, j - 1);
    }
  }

  lemma {:induction false} ChainsAgree(
      xs: seq<nat>, ys: seq<nat>, start: nat, schedule: string, next: NextFire, i: nat)
    requires IsChain(xs, start, schedule, next) && IsChain(ys, start, schedule, next)
    requires i < |xs| && i < |ys|
    ensures xs[i] == ys[i]
  {
    if i > 0 {
      ChainsAgree(xs, ys, start, schedule, next, i - 1);
      assert next(schedule, xs[i - 1]) == Some(xs[i]);
      assert next(schedule, ys[i - 1]) == Some(ys[i]);
    }
  }

  /** Two histories of one record: the shorter one's epochs are the first of the longer one's. */
  lemma PrefixesAgree(xs: seq<nat>, ys: seq<nat>, start: nat, schedule: string, next: NextFire)
    requires IsChain(xs, start, schedule, next) && IsChain(ys, start, schedule, next) && |xs| <= |ys|
    ensures xs == ys[..|xs|]
  {
    forall i | 0 <= i < |xs| ensures xs[i] == ys[i] {
      ChainsAgree(xs, ys, start, schedule, next, i);
    }
  }

  /** Two hotels with the same record to start from, and histories without syncs and stale writes. */
  ghost predicate SameStart(
      w: World, steps: seq<CronStep>, w': World, steps': seq<CronStep>, next: NextFire, id: string)
  {
    && StrictlyLater(next)
    && id in w.jobs && id in w'.jobs && w.jobs[id] == w'.jobs[id] && Pristine(w.jobs[id])
    && id !in w.reading && id !in w'.reading
    && Unsynced(steps, id) && Guarded(w, steps, next, id)
    && Unsynced(steps', id) && Guarded(w', steps', next, id)
  }

  /**
   Hotels that start from the same record never disagree about the schedule: one has fired a prefix
   of what the other has, and as many fired epochs mean the same pending epoch.
   */
  lemma HotelsConverge(w: World, steps: seq<CronStep>, w': World, steps': seq<CronStep>, next: NextFire, id: string)
    requires SameStart(w, steps, w', steps', next, id)
    ensures var xs, ys := Applied(w, steps, next, id), Applied(w', steps', next, id);
      var here, there := Run(w, steps, next).jobs, Run(w', steps', next).jobs;
      && (|xs| <= |ys| ==> xs == ys[..|xs|])
      && id in here && id in there
      && (|xs| == |ys| ==>
            here[id].nextFireAt == there[id].nextFireAt && here[id].lastFired == there[id].lastFired)
  {
    RunsFollowTheSchedule(w, steps, next, id);
    RunsFollowTheSchedule(w', steps', next, id);
    var xs, ys := Applied(w, steps, next, id), Applied(w', steps', next, id);
    if |xs| <= |ys| {
      PrefixesAgree(xs, ys, w.jobs[id].nextFireAt, w.jobs[id].schedule, next);
    }
  }

  // ---------------------------------------------------------------------------------------------
  // When the ticker fires
  // ---------------------------------------------------------------------------------------------

  /** The ticker takes up exactly an enabled job whose time, at this hotel's offset, has come; nothing is written. */
  lemma ReadTakesIff(w: World, id: string, now: nat, offset: nat, next: NextFire)
    requires id !in w.reading
    ensures var after := Step(w, Read(id, now, offset), next);
      && after.jobs == w.jobs
      && (id in after.reading <==> id in w.jobs && w.jobs[id].enabled && now >= offset + w.jobs[id].nextFireAt)
      && (id in after.reading ==> after.reading[id] == w.jobs[id])
  {
  }

  /**
   A broadcast fires exactly the epoch this hotel waits for, enabled or not, unless it was the last one
   fired already or the schedule ends with it; nothing but the two times changes.
   */
  lemma BroadcastAppliesIff(w: World, id: string, epoch: nat, next: NextFire)
    requires id in w.jobs
    ensures var job, after := w.jobs[id], Step(w, Fired(id, epoch, false), next);
      && (after != w <==> job.nextFireAt == epoch && job.lastFired != Some(epoch) && next(job.schedule, epoch).Some?)
      && (after != w ==>
            after == w.(jobs := w.jobs[id := CronJob(
              job.id, job.schedule, job.enabled, Some(epoch), next(job.schedule, epoch).value)]))
  {
    assert w.jobs[id].lastFired != Some(epoch) ==>
        forall n :: w.jobs[id := w.jobs[id].(lastFired := Some(epoch), nextFireAt := n)][id] != w.jobs[id];
  }

  /** A write fires the epoch read, whatever is stored; only the end of the schedule disables the job. */
  lemma WriteKeepsEnabledIff(w: World, id: string, next: NextFire)
    requires id in w.reading
    ensures var job, after := w.reading[id], Step(w, Write(id, false), next);
      && id in after.jobs && id !in after.reading
      && after.jobs[id].lastFired == Some(job.nextFireAt)
      && (after.jobs[id].enabled <==> job.enabled && next(job.schedule, job.nextFireAt).Some?)
      && after.jobs[id].nextFireAt
         == (match next(job.schedule, job.nextFireAt) case Some(n) => n case None => job.nextFireAt)
  {
  }

  /** Some read of this job came at or after this epoch plus the hotel's offset. */
  ghost predicate WasDue(steps: seq<CronStep>, id: string, epoch: nat) {
    exists s :: s in steps && s.Read? && s.jobId == id && s.now >= epoch + s.offset
  }

  lemma WasDueLater(before: seq<CronStep>, steps: seq<CronStep>, id: string, epoch: nat)
    requires WasDue(before, id, epoch) && forall s :: s in before ==> s in steps
    ensures WasDue(steps, id, epoch)
  {
  }

  /** Over every run, whatever else happens in it, the ticker fires no epoch before its time. */
  lemma {:induction false} NotBeforeItsTime(w: World, steps: seq<CronStep>, next: NextFire, id: string)
    requires id !in w.reading
    ensures var after := Run(w, steps, next);
      id in after.reading ==> WasDue(steps, id, after.reading[id].nextFireAt)
    decreases |steps|
  {
    if steps != [] {
      var before, last := steps[..|steps| - 1], steps[|steps| - 1];
      assert steps == before + [last];
      NotBeforeItsTime(w, before, next, id);
      var mid, after := Run(w, before, next), Run(w, steps, next);
      if id in after.reading {
        if id in mid.reading && after.reading[id] == mid.reading[id] {
          WasDueLater(before, steps, id, after.reading[id].nextFireAt);
        } else {
          assert last in steps && last.Read? && last.jobId == id;
        }
      }
    }
  }

  // ---------------------------------------------------------------------------------------------
  // What a stale write undoes
  // ---------------------------------------------------------------------------------------------

  predicate OnlyBroadcasts(steps: seq<CronStep>) {
    forall s :: s in steps ==> s.Fired?
  }

  lemma {:induction false} BroadcastsNeverExhaust(w: World, steps: seq<CronStep>, next: NextFire, id: string)
    requires StrictlyLater(next) && id in w.jobs && Pristine(w.jobs[id]) && OnlyBroadcasts(steps)
    ensures var after := Run(w, steps, next);
      && id in after.jobs && Pristine(after.jobs[id]) && after.jobs[id].enabled == w.jobs[id].enabled
      && after.reading == w.reading && Guarded(w, steps, next, id)
    decreases |steps|
  {
    if steps != [] {
      assert forall s :: s in steps[..|steps| - 1] ==> s in steps;
      assert steps[|steps| - 1] in steps;
      BroadcastsNeverExhaust(w, steps[..|steps| - 1], next, id);
    }
  }

  /**
   A record the ticker has just read, and broadcasts until it writes: the write puts the next fire
   time back if and only if they applied more than the epoch being fired.
   */
  lemma StaleWriteRewindsIff(w: World, steps: seq<CronStep>, next: NextFire, id: string)
    requires StrictlyLater(next) && id in w.jobs && Pristine(w.jobs[id]) && OnlyBroadcasts(steps)
    requires id in w.reading && w.reading[id] == w.jobs[id] && w.jobs[id].enabled
    requires next(w.jobs[id].schedule, w.jobs[id].nextFireAt).Some?
    ensures var mid := Run(w, steps, next); var after := Step(mid, Write(id, false), next);
      && id in mid.jobs && id in after.jobs
      && (after.jobs[id].nextFireAt < mid.jobs[id].nextFireAt <==> |Applied(w, steps, next, id)| >= 2)
  {
    BroadcastsNeverExhaust(w, steps, next, id);
    RunsFollowTheSchedule(w, steps, next, id);
    var epochs := Applied(w, steps, next, id);
    if |epochs| >= 2 {
      ChainsRise(epochs, w.jobs[id].nextFireAt, w.jobs[id].schedule, next, 1, |epochs| - 1);
      assert next(w.jobs[id].schedule, epochs[0]) == Some(epochs[1]);
    }
  }

  /** One broadcast while the ticker delivers is enough: the epoch is fired twice. */
  lemma BroadcastDuringDeliveryRepeats(w: World, next: NextFire, id: string)
    requires id in w.jobs && w.jobs[id].enabled && Pristine(w.jobs[id])
    requires next(w.jobs[id].schedule, w.jobs[id].nextFireAt).Some?
    ensures var e := w.jobs[id].nextFireAt;
      Applied(w, [Read(id, e, 0), Fired(id, e, false), Write(id, false)], next, id) == [e, e]
  {
    var e := w.jobs[id].nextFireAt;
    var steps := [Read(id, e, 0), Fired(id, e, false), Write(id, false)];
    assert steps[..2][..1][..0] == [] && steps[..2][..1] == steps[..1];
    var w1 := w.(reading := w.reading[id := w.jobs[id]]);
    assert Run(w, steps[..1], next) == Step(Run(w, steps[..1][..0], next), steps[0], next) == w1;
    assert Applied(w, steps[..1], next, id) == [];
    assert Applied(w, steps[..2], next, id) == [e];
    assert Run(w, steps[..2], next) == Step(w1, steps[1], next);
  }

  // ---------------------------------------------------------------------------------------------
  // When a peer's record may be adopted
  // ---------------------------------------------------------------------------------------------

  /** A job nothing but a sync brings back: disabled at the end of its schedule. */
  predicate Dead(job: CronJob, next: NextFire) {
    !job.enabled && next(job.schedule, job.nextFireAt) == None
  }

  lemma {:induction false} DeadStays(w: World, steps: seq<CronStep>, next: NextFire, id: string)
    requires id in w.jobs && Dead(w.jobs[id], next) && id !in w.reading && Unsynced(steps, id)
    ensures var after := Run(w, steps, next);
      id in after.jobs && after.jobs[id] == w.jobs[id] && id !in after.reading && Applied(w, steps, next, id) == []
    decreases |steps|
  {
    if steps != [] {
      UnsyncedPrefix(steps, id);
      DeadStays(w, steps[..|steps| - 1], next, id);
    }
  }

  lemma {:induction false} AppliedConcat(w: World, a: seq<CronStep>, b: seq<CronStep>, next: NextFire, id: string)
    ensures Run(w, a + b, next) == Run(Run(w, a, next), b, next)
    ensures Applied(w, a + b, next, id) == Applied(w, a, next, id) + Applied(Run(w, a, next), b, next, id)
    decreases |b|
  {
    if b == [] {
      assert a + b == a;
    } else {
      var before, last := b[..|b| - 1], b[|b| - 1];
      assert (a + b)[..|a + b| - 1] == a + before && (a + b)[|a + b| - 1] == last;
      AppliedConcat(w, a, before, next, id);
    }
  }

  /** A longer history of the same record goes on where this one stands. */
  lemma NextInChain(job: CronJob, start: CronJob, xs: seq<nat>, ys: seq<nat>, next: NextFire)
    requires StandsAfter(job, start, xs, next) && IsChain(ys, start.nextFireAt, start.schedule, next) && |xs| < |ys|
    ensures ys[|xs|] == job.nextFireAt
  {
    PrefixesAgree(xs, ys, start.nextFireAt, start.schedule, next);
    if xs != [] {
      assert next(start.schedule, ys[|xs| - 1]) == Some(ys[|xs|]);
    }
  }

  /**
   A hotel waits for an epoch the other one has fired exactly when that is at or below the other's last
   epoch; unless the other's schedule has ended, exactly when it is below the other's next one.
   */
  lemma WaitsForFiredIff(here: CronJob, there: CronJob, start: CronJob, xs: seq<nat>, ys: seq<nat>, next: NextFire)
    requires StrictlyLater(next) && Pristine(start)
    requires StandsAfter(here, start, xs, next) && StandsAfter(there, start, ys, next)
    ensures there.nextFireAt in xs <==> here.lastFired.Some? && there.nextFireAt <= here.lastFired.value
    ensures here.lastFired != Some(here.nextFireAt) ==>
              (there.nextFireAt in xs <==> there.nextFireAt < here.nextFireAt)
  {
    var first, schedule := start.nextFireAt, start.schedule;
    forall i | 0 <= i < |xs| ensures xs[i] <= xs[|xs| - 1] {
      ChainsRise(xs, first, schedule, next, i, |xs| - 1);
    }
    if ys != [] {
      ChainsRise(ys, first, schedule, next, 0, |ys| - 1);
    }
    if |ys| < |xs| {
      NextInChain(there, start, ys, xs, next);
    } else {
      PrefixesAgree(xs, ys, first, schedule, next);
      if |xs| < |ys| {
        NextInChain(here, start, xs, ys, next);
        ChainsRise(ys, first, schedule, next, |xs|, |ys| - 1);
      }
      if xs != [] {
        ChainsRise(ys, first, schedule, next, |xs| - 1, |ys| - 1);
      }
    }
  }

  /** Some orderly continuation after adopting this record fires an epoch a second time. */
  ghost predicate Repeatable(w: World, steps: seq<CronStep>, record: CronJob, next: NextFire, id: string) {
    exists more :: RepeatsAfter(w, steps + [Sync(id, Some(record), false)], more, next, id)
  }

  ghost predicate RepeatsAfter(w: World, steps: seq<CronStep>, more: seq<CronStep>, next: NextFire, id: string) {
    && Unsynced(more, id) && Guarded(Run(w, steps, next), more, next, id)
    && !Distinct(Applied(w, steps + more, next, id))
  }

  /** Adopting this record makes the job wait for an epoch at or below its last one, and able to fire it. */
  predicate GoesBack(here: CronJob, there: CronJob, next: NextFire) {
    here.lastFired.Some? && there.nextFireAt <= here.lastFired.value && !Dead(there, next)
  }

  lemma AdoptionRuns(w: World, steps: seq<CronStep>, record: CronJob, more: seq<CronStep>, next: NextFire, id: string)
    ensures var synced := steps + [Sync(id, Some(record), false)];
      var here := Run(w, steps, next);
      && Run(w, synced, next) == here.(jobs := here.jobs[id := record])
      && Applied(w, synced + more, next, id)
         == Applied(w, steps, next, id) + Applied(Run(w, synced, next), more, next, id)
  {
    var synced := steps + [Sync(id, Some(record), false)];
    assert synced[..|synced| - 1] == steps;
    AppliedConcat(w, synced, more, next, id);
  }

  lemma RisingConcat(xs: seq<nat>, zs: seq<nat>)
    requires Rising(xs) && Rising(zs) && forall x, z :: x in xs && z in zs ==> x < z
    ensures Distinct(xs + zs)
  {
    var all := xs + zs;
    forall i, j | 0 <= i < j < |all| ensures all[i] != all[j] {
      assert i < |xs| ==> all[i] in xs;
      assert |xs| <= j ==> all[j] in zs;
    }
  }

  /** An end of schedule the hotel has already fired leaves the ticker with nothing in flight. */
  lemma FiredDeadIsNotInFlight(
      here: World, id: string, there: CronJob, start: CronJob, xs: seq<nat>, next: NextFire)
    requires id in here.jobs && ReadIsCurrent(here, id) && StandsAfter(here.jobs[id], start, xs, next)
    requires there.schedule == start.schedule && Dead(there, next) && there.nextFireAt in xs
    ensures id !in here.reading
  {
    var i :| 0 <= i < |xs| && xs[i] == there.nextFireAt;
    if i < |xs| - 1 {
      assert next(start.schedule, xs[i]) == Some(xs[i + 1]);
    }
  }

  lemma OnlyBackRepeats(
      w: World, steps: seq<CronStep>, w': World, steps': seq<CronStep>, more: seq<CronStep>, next: NextFire, id: string)
    requires SameStart(w, steps, w', steps', next, id)
    requires id in Run(w, steps, next).jobs && id in Run(w', steps', next).jobs
    requires var there := Run(w', steps', next).jobs[id];
      RepeatsAfter(w, steps + [Sync(id, Some(there), false)], more, next, id)
    ensures GoesBack(Run(w, steps, next).jobs[id], Run(w', steps', next).jobs[id], next)
  {
    var here, there := Run(w, steps, next), Run(w', steps', next).jobs[id];
    var start, xs := w.jobs[id], Applied(w, steps, next, id);
    RunsFollowTheSchedule(w, steps, next, id);
    RunsFollowTheSchedule(w', steps', next, id);
    EpochsRise(w, steps, next, id);
    EpochsRise(w', steps', next, id);
    AdoptionRuns(w, steps, there, more, next, id);
    var adopted := here.(jobs := here.jobs[id := there]);
    var zs := Applied(adopted, more, next, id);
    WaitsForFiredIff(here.jobs[id], there, start, xs, Applied(w', steps', next, id), next);
    if there.nextFireAt in xs && Dead(there, next) {
      FiredDeadIsNotInFlight(here, id, there, start, xs, next);
      DeadStays(adopted, more, next, id);
      RisingConcat(xs, zs);
    } else if there.nextFireAt !in xs {
      EpochsRise(adopted, more, next, id);
      forall x, z | x in xs && z in zs ensures x < z {
        var i :| 0 <= i < |xs| && xs[i] == x;
        ChainsRise(xs, start.nextFireAt, start.schedule, next, i, |xs| - 1);
      }
      RisingConcat(xs, zs);
    }
  }

  /** A waiting record fires its epoch again: by one broadcast, or by the ticker at the end of the schedule. */
  lemma FireAgain(w: World, id: string, next: NextFire) returns (more: seq<CronStep>)
    requires id in w.jobs && !Dead(w.jobs[id], next)
    requires w.jobs[id].lastFired == Some(w.jobs[id].nextFireAt) ==>
      next(w.jobs[id].schedule, w.jobs[id].nextFireAt).None?
    ensures Unsynced(more, id) && Guarded(w, more, next, id) && Applied(w, more, next, id) == [w.jobs[id].nextFireAt]
  {
    var job := w.jobs[id];
    if next(job.schedule, job.nextFireAt).Some? {
      more := [Fired(id, job.nextFireAt, false)];
      assert more[..0] == [] && Run(w, more[..0], next) == w;
    } else {
      more := [Read(id, job.nextFireAt, 0), Write(id, false)];
      var first := more[..1];
      assert first == [more[0]] && first[..0] == [] && Run(w, first[..0], next) == w;
      assert Run(w, first, next) == w.(reading := w.reading[id := job]);
      assert Applied(w, first, next, id) == [] && Guarded(w, first, next, id);
      assert more[..|more| - 1] == first;
    }
  }

  /**
   Two hotels that started from one record: after adopting the other's record some orderly
   continuation fires an epoch twice if and only if that record waits for an epoch at or below the
   last one fired here and is not at its end. Both can be read off the two records beforehand.
   */
  lemma SyncRepeatsIff(w: World, steps: seq<CronStep>, w': World, steps': seq<CronStep>, next: NextFire, id: string)
    requires SameStart(w, steps, w', steps', next, id)
    ensures var here, there := Run(w, steps, next).jobs, Run(w', steps', next).jobs;
      && id in here && id in there
      && (Repeatable(w, steps, there[id], next, id) <==> GoesBack(here[id], there[id], next))
  {
    RunsFollowTheSchedule(w, steps, next, id);
    RunsFollowTheSchedule(w', steps', next, id);
    var here, there := Run(w, steps, next), Run(w', steps', next).jobs[id];
    var synced := steps + [Sync(id, Some(there), false)];
    if Repeatable(w, steps, there, next, id) {
      var more :| RepeatsAfter(w, synced, more, next, id);
      OnlyBackRepeats(w, steps, w', steps', more, next, id);
    }
    if GoesBack(here.jobs[id], there, next) {
      var xs := Applied(w, steps, next, id);
      WaitsForFiredIff(here.jobs[id], there, w.jobs[id], xs, Applied(w', steps', next, id), next);
      var more := FireAgain(here.(jobs := here.jobs[id := there]), id, next);
      AdoptionRuns(w, steps, there, more, next, id);
      RepeatAtEnd(xs, there.nextFireAt);
      assert RepeatsAfter(w, synced, more, next, id);
    }
  }
}
