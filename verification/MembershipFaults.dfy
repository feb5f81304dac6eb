/**
 Membership over runs in which any storage call may fail at any time, and other handlers write any
 config key but an invite: how many hotels one invite can let in.
 */
module MembershipFaults {
  import opened Wrappers
  import opened Graph
  import opened Membership
  import opened MembershipRuns

  datatype AnyStep =
    | Offer(nonce: string, localHotel: string, now: nat, ttl: nat, fails: bool)
    | Try(request: JoinRequest, now: nat, faults: Faults)
    | Other(key: string, value: Value)

  /** A join that got as far as the hotel record, and whether its invite was then marked. */
  datatype Attempt = Attempt(nonce: string, hotelName: string, at: nat, marked: bool)

  datatype Trace = Trace(mesh: Mesh, joins: seq<Attempt>, issued: map<string, nat>)

  predicate Joins(v: Verdict, f: Faults) {
    v.Admissible? && !f.writePin && !f.writeAuth && !f.writeHotel
  }

  ghost predicate Possible(t: Trace, step: AnyStep) {
    match step
    case Offer(nonce, _, _, _, _) => nonce !in t.issued
    case Try(_, _, _) => true
    case Other(key, _) => forall s :: key != PendingKey(s)
  }

  function After(t: Trace, step: AnyStep, crypto: Crypto): Trace {
    match step
    case Offer(nonce, localHotel, now, ttl, fails) =>
      t.(mesh := if fails then t.mesh else Invite(t.mesh, nonce, localHotel, now, ttl),
         issued := t.issued[nonce := now + ttl])
    case Try(r, now, f) =>
      t.(mesh := Accept(t.mesh, r, now, crypto, f),
         joins := if Joins(Vet(t.mesh, r, now, crypto, f), f)
                  then t.joins + [Attempt(r.nonce, r.hotel.name, now, !f.writeAccepted)] else t.joins)
    case Other(key, value) => t.(mesh := t.mesh.(config := t.mesh.config[key := value]))
  }

  ghost predicate SameInvite(c: Config, c': Config, nonce: string) {
    (PendingKey(nonce) in c <==> PendingKey(nonce) in c')
    && (PendingKey(nonce) in c ==> c'[PendingKey(nonce)] == c[PendingKey(nonce)])
  }

  /** Whatever fails, an acceptance touches its own invite only: drops it expired, or marks it after a join. */
  lemma AcceptOnInvites(mesh: Mesh, r: JoinRequest, now: nat, crypto: Crypto, f: Faults, nonce: string)
    ensures var v, c := Vet(mesh, r, now, crypto, f), Accept(mesh, r, now, crypto, f).config;
      if nonce == r.nonce && v.Expired? && !f.dropExpired then
        PendingKey(nonce) !in c && !IsAccepted(mesh.config, nonce)
      else if nonce == r.nonce && Joins(v, f) && !f.writeAccepted then IsAccepted(c, nonce) && !IsOpen(c, nonce)
      else SameInvite(mesh.config, c, nonce)
  {
    KeyFamiliesAreDisjoint(nonce, r.hotel.name);
    KeyFamiliesAreDisjoint(nonce, r.hotel.nodeId);
    KeyFamiliesAreDisjoint(nonce, r.nonce);
  }

  /** A join found its invite open, with time left. */
  lemma JoinFindsOpen(mesh: Mesh, r: JoinRequest, now: nat, crypto: Crypto, f: Faults)
    requires Vet(mesh, r, now, crypto, f).Admissible?
    ensures IsOpen(mesh.config, r.nonce) && OrElse(mesh.config[PendingKey(r.nonce)].asDoc.value.expiresAt, 0) >= now
  {
  }

  ghost predicate InvitesIssued(t: Trace) {
    forall n :: PendingKey(n) in t.mesh.config ==>
      n in t.issued
      && (IsOpen(t.mesh.config, n) ==> t.mesh.config[PendingKey(n)].asDoc.value.expiresAt == Some(t.issued[n]))
  }

  /** A marked join's invite stays accepted, and it was the last join on that invite. */
  ghost predicate MarkedIsLast(t: Trace) {
    && (forall e :: e in t.joins ==> e.nonce in t.issued && e.at <= t.issued[e.nonce])
    && (forall e :: e in t.joins && e.marked ==> IsAccepted(t.mesh.config, e.nonce))
    && (forall i, j :: 0 <= i < j < |t.joins| && t.joins[i].nonce == t.joins[j].nonce ==> !t.joins[i].marked)
  }

  /** Writing one invite that was never issued before, as it was issued, disturbs no other. */
  lemma FreshInviteKeeps(t: Trace, t': Trace, nonce: string)
    requires InvitesIssued(t) && MarkedIsLast(t) && nonce !in t.issued
    requires t'.joins == t.joins && forall n :: n in t.issued ==> n in t'.issued && t'.issued[n] == t.issued[n]
    requires forall n :: n != nonce ==> SameInvite(t.mesh.config, t'.mesh.config, n)
    requires PendingKey(nonce) in t'.mesh.config ==> nonce in t'.issued
    requires IsOpen(t'.mesh.config, nonce) ==>
      t'.mesh.config[PendingKey(nonce)].asDoc.value.expiresAt == Some(t'.issued[nonce])
    ensures InvitesIssued(t') && MarkedIsLast(t')
  {
    forall n | PendingKey(n) in t'.mesh.config && n != nonce
      ensures n in t'.issued
      ensures IsOpen(t'.mesh.config, n) ==>
                t'.mesh.config[PendingKey(n)].asDoc.value.expiresAt == Some(t'.issued[n])
    {
      assert SameInvite(t.mesh.config, t'.mesh.config, n);
    }
    forall e | e in t.joins && e.marked ensures IsAccepted(t'.mesh.config, e.nonce) {
      assert SameInvite(t.mesh.config, t'.mesh.config, e.nonce);
    }
  }

  lemma OfferKeeps(t: Trace, step: AnyStep, crypto: Crypto)
    requires InvitesIssued(t) && MarkedIsLast(t) && step.Offer? && Possible(t, step)
    ensures InvitesIssued(After(t, step, crypto)) && MarkedIsLast(After(t, step, crypto))
  {
    forall n | n != step.nonce ensures SameInvite(t.mesh.config, After(t, step, crypto).mesh.config, n) {
      KeyFamiliesAreDisjoint(n, step.nonce);
    }
    FreshInviteKeeps(t, After(t, step, crypto), step.nonce);
  }

  lemma OtherKeeps(t: Trace, step: AnyStep, crypto: Crypto)
    requires InvitesIssued(t) && MarkedIsLast(t) && step.Other? && Possible(t, step)
    ensures InvitesIssued(After(t, step, crypto)) && MarkedIsLast(After(t, step, crypto))
  {
    forall n ensures SameInvite(t.mesh.config, After(t, step, crypto).mesh.config, n) {
    }
  }

  /** A trace in which no invite opens or is unmarked, and at most one open invite gains a join. */
  ghost predicate Advances(t: Trace, t': Trace) {
    && t'.issued == t.issued
    && (forall n :: PendingKey(n) in t'.mesh.config ==> PendingKey(n) in t.mesh.config)
    && (forall n :: IsOpen(t'.mesh.config, n) ==>
          IsOpen(t.mesh.config, n) && t'.mesh.config[PendingKey(n)] == t.mesh.config[PendingKey(n)])
    && (forall n :: IsAccepted(t.mesh.config, n) ==> IsAccepted(t'.mesh.config, n))
    && (t'.joins == t.joins
        || (t'.joins != [] && t'.joins[..|t'.joins| - 1] == t.joins && JoinedOpen(t, t', t'.joins[|t'.joins| - 1])))
  }

  ghost predicate JoinedOpen(t: Trace, t': Trace, e: Attempt) {
    && IsOpen(t.mesh.config, e.nonce)
    && OrElse(t.mesh.config[PendingKey(e.nonce)].asDoc.value.expiresAt, 0) >= e.at
    && (e.marked ==> IsAccepted(t'.mesh.config, e.nonce))
  }

  lemma TryAdvances(t: Trace, step: AnyStep, crypto: Crypto)
    requires step.Try?
    ensures Advances(t, After(t, step, crypto))
  {
    var r, f, v := step.request, step.faults, Vet(t.mesh, step.request, step.now, crypto, step.faults);
    var c := After(t, step, crypto).mesh.config;
    if v.Admissible? {
      JoinFindsOpen(t.mesh, r, step.now, crypto, f);
    }
    forall n
      ensures IsAccepted(t.mesh.config, n) ==> IsAccepted(c, n)
      ensures PendingKey(n) in c ==> PendingKey(n) in t.mesh.config
      ensures IsOpen(c, n) ==> IsOpen(t.mesh.config, n) && c[PendingKey(n)] == t.mesh.config[PendingKey(n)]
      ensures n == r.nonce && Joins(v, f) && !f.writeAccepted ==> IsAccepted(c, n)
    {
      AcceptOnInvites(t.mesh, r, step.now, crypto, f, n);
    }
  }

  lemma AdvanceKeepsIssued(t: Trace, t': Trace)
    requires InvitesIssued(t) && Advances(t, t')
    ensures InvitesIssued(t')
  {
  }

  /** A join of an open invite follows unmarked joins only. */
  lemma OpenMeansUnmarked(t: Trace, nonce: string)
    requires MarkedIsLast(t) && IsOpen(t.mesh.config, nonce)
    ensures forall i :: 0 <= i < |t.joins| && t.joins[i].nonce == nonce ==> !t.joins[i].marked
  {
    forall i | 0 <= i < |t.joins| && t.joins[i].nonce == nonce ensures !t.joins[i].marked {
      assert t.joins[i] in t.joins;
    }
  }

  lemma AdvanceKeepsMarked(t: Trace, t': Trace)
    requires InvitesIssued(t) && MarkedIsLast(t) && Advances(t, t')
    ensures MarkedIsLast(t')
  {
    if t'.joins != t.joins {
      var last := |t.joins|;
      var e := t'.joins[last];
      assert t'.joins == t.joins + [e] && JoinedOpen(t, t', e);
      OpenMeansUnmarked(t, e.nonce);
      assert e.nonce in t.issued && e.at <= t.issued[e.nonce];
      forall i, j | 0 <= i < j <= last && t'.joins[i].nonce == t'.joins[j].nonce ensures !t'.joins[i].marked {
        assert t'.joins[i] == t.joins[i];
        if j < last {
          assert t'.joins[j] == t.joins[j];
        }
      }
      forall d | d in t'.joins ensures d == e || d in t.joins {
      }
    }
  }

  ghost function Run(t: Trace, steps: seq<AnyStep>, crypto: Crypto): Trace
    decreases |steps|
  {
    if steps == [] then t else After(Run(t, steps[..|steps| - 1], crypto), steps[|steps| - 1], crypto)
  }

  ghost predicate PossibleRun(t: Trace, steps: seq<AnyStep>, crypto: Crypto)
    decreases |steps|
  {
    steps != [] ==>
      var before := steps[..|steps| - 1];
      PossibleRun(t, before, crypto) && Possible(Run(t, before, crypto), steps[|steps| - 1])
  }

  /**
   Over every run, whatever fails in it: a join comes before its invite expires, and when two joins
   share an invite, the earlier one's last write failed. So a marked invite admits nobody again.
   */
  lemma {:induction false} OneJoinPerInviteUnlessUnmarked(t: Trace, steps: seq<AnyStep>, crypto: Crypto)
    requires InvitesIssued(t) && MarkedIsLast(t) && PossibleRun(t, steps, crypto)
    ensures InvitesIssued(Run(t, steps, crypto)) && MarkedIsLast(Run(t, steps, crypto))
    decreases |steps|
  {
    if steps != [] {
      var before, last := steps[..|steps| - 1], steps[|steps| - 1];
      OneJoinPerInviteUnlessUnmarked(t, before, crypto);
      var mid := Run(t, before, crypto);
      match last
      case Offer(_, _, _, _, _) => OfferKeeps(mid, last, crypto);
      case Try(_, _, _) =>
        TryAdvances(mid, last, crypto);
        AdvanceKeepsIssued(mid, After(mid, last, crypto));
        AdvanceKeepsMarked(mid, After(mid, last, crypto));
      case Other(_, _) => OtherKeeps(mid, last, crypto);
    }
  }
}
