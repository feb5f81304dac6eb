/**
 The replay guard over whole runs: authenticated packets offered any number of times, sweeps at any
 time, database failures anywhere, and a clock that never goes back.
 */
module ReplayGuard {
  import opened Wrappers
  import opened Bytes
  import opened MeshAuth

  /** `Offer` is a packet whose signature is good; only the window and the nonce decide. */
  datatype GuardStep =
    | Offer(id: seq<byte>, timestamp: nat, now: nat, fails: bool)
    | Sweep(now: nat, fails: bool)

  predicate InWindow(timestamp: nat, now: nat) {
    now - 300 <= timestamp <= now + 60
  }

  predicate Accepts(nonces: Nonces, step: GuardStep) {
    step.Offer? && InWindow(step.timestamp, step.now) && step.id !in nonces && !step.fails
  }

  function Next(nonces: Nonces, step: GuardStep): Nonces {
    match step
    case Offer(id, timestamp, now, fails) => if Accepts(nonces, step) then nonces[id := now] else nonces
    case Sweep(now, fails) => if fails then nonces else Swept(nonces, now)
  }

  /** The table after the first `k` steps. */
  function After(nonces: Nonces, steps: seq<GuardStep>, k: nat): Nonces
    requires k <= |steps|
  {
    if k == 0 then nonces else Next(After(nonces, steps, k - 1), steps[k - 1])
  }

  ghost predicate ClockMovesForward(steps: seq<GuardStep>) {
    forall i, j :: 0 <= i <= j < |steps| ==> steps[i].now <= steps[j].now
  }

  predicate AcceptedAt(nonces: Nonces, steps: seq<GuardStep>, i: nat) {
    i < |steps| && Accepts(After(nonces, steps, i), steps[i])
  }

  /** `Offer` and `Next` are what `Validate` and the nonce table do with a well-signed packet. */
  lemma AdmitIsOffer(mac: Mac, psk: seq<byte>, p: Packet, now: nat, nonces: Nonces, fails: bool)
    requires Ideal(mac, psk) && WellFormed(p)
    ensures Accepts(nonces, Offer(p.msgId, p.timestamp, now, fails))
            <==> Validate(mac, psk, p, Sign(mac, psk, p), now) == None && p.msgId !in nonces && !fails
  {
    SignatureBindsPacketAndTime(mac, psk, p, p, now);
  }

  /** An accepted id stays in the table until more than 300 s have passed. */
  lemma {:induction false} Remembered(nonces: Nonces, steps: seq<GuardStep>, i: nat, k: nat)
    requires ClockMovesForward(steps) && AcceptedAt(nonces, steps, i) && i < k <= |steps|
    ensures var table := After(nonces, steps, k);
      (steps[i].id in table && table[steps[i].id] >= steps[i].now) || steps[k - 1].now > steps[i].now + 300
    decreases k
  {
    if k > i + 1 {
      Remembered(nonces, steps, i, k - 1);
      assert steps[k - 2].now <= steps[k - 1].now && steps[i].now <= steps[k - 1].now;
    }
  }

  /** Two acceptances of one id are more than 300 s apart, and the second is dated after the first. */
  lemma AcceptancesAreFarApart(nonces: Nonces, steps: seq<GuardStep>, i: nat, j: nat)
    requires ClockMovesForward(steps) && i < j
    requires AcceptedAt(nonces, steps, i) && AcceptedAt(nonces, steps, j) && steps[i].id == steps[j].id
    ensures steps[j].now > steps[i].now + 300
    ensures steps[j].timestamp > steps[i].now
  {
    Remembered(nonces, steps, i, j);
    assert steps[j - 1].now <= steps[j].now;
  }

  /** A packet not dated after its first acceptance is never accepted again. */
  lemma NoReplayOfPastPackets(nonces: Nonces, steps: seq<GuardStep>, i: nat, j: nat)
    requires ClockMovesForward(steps) && i < j
    requires AcceptedAt(nonces, steps, i) && j < |steps| && steps[j].Offer?
    requires steps[j].id == steps[i].id && steps[j].timestamp == steps[i].timestamp <= steps[i].now
    ensures !AcceptedAt(nonces, steps, j)
  {
    if AcceptedAt(nonces, steps, j) {
      AcceptancesAreFarApart(nonces, steps, i, j);
    }
  }

  /** No packet is accepted three times. */
  lemma NeverThreeAcceptances(nonces: Nonces, steps: seq<GuardStep>, i: nat, j: nat, k: nat)
    requires ClockMovesForward(steps) && i < j < k < |steps| && steps[k].Offer?
    requires AcceptedAt(nonces, steps, i) && AcceptedAt(nonces, steps, j)
    requires steps[i].id == steps[j].id == steps[k].id
    requires steps[i].timestamp == steps[k].timestamp
    ensures !AcceptedAt(nonces, steps, k)
  {
    if AcceptedAt(nonces, steps, k) {
      AcceptancesAreFarApart(nonces, steps, i, j);
      AcceptancesAreFarApart(nonces, steps, j, k);
    }
  }

  /** Some continuation of a first acceptance accepts the same packet again. */
  ghost predicate Replayable(nonces: Nonces, first: GuardStep)
    requires first.Offer?
  {
    exists steps: seq<GuardStep>, j: nat ::
      && 0 < j < |steps| && steps[0] == first && ClockMovesForward(steps)
      && steps[j] == first.(now := steps[j].now, fails := steps[j].fails)
      && AcceptedAt(nonces, steps, j)
  }

  /** The window leaks exactly the packets dated after the clock that first accepted them. */
  lemma ReplayableIffFutureDated(nonces: Nonces, first: GuardStep)
    requires Accepts(nonces, first)
    ensures Replayable(nonces, first) <==> first.timestamp > first.now
  {
    if Replayable(nonces, first) {
      var steps: seq<GuardStep>, j: nat :|
        && 0 < j < |steps| && steps[0] == first && ClockMovesForward(steps)
        && steps[j] == first.(now := steps[j].now, fails := steps[j].fails)
        && AcceptedAt(nonces, steps, j);
      assert AcceptedAt(nonces, steps, 0);
      AcceptancesAreFarApart(nonces, steps, 0, j);
    }
    if first.timestamp > first.now {
      var later := first.now + 301;
      var again := first.(now := later);
      var steps := [first, Sweep(later, false), again];
      assert After(nonces, steps, 1) == nonces[first.id := first.now];
      assert After(nonces, steps, 2) == Swept(nonces[first.id := first.now], later);
      assert AcceptedAt(nonces, steps, 2);
      assert steps[2] == first.(now := steps[2].now, fails := steps[2].fails);
    }
  }
}
