/**
 Reseeding of orchestrator roles from the mesh config: operator settings are kept unless the config
 supplies new ones.
 */
module RoleSeed {
  import opened Wrappers

  /** A turn-loop configuration; its content does not matter here. */
  datatype TurnLoop = TurnLoop(json: string)

  const DEFAULT_TURN_LOOP: TurnLoop := TurnLoop("{}")
  const DEFAULT_POLICY: string := "standard"
  const MANIFEST: string := "orchestrator manifest"

  predicate IsValidPolicy(policy: string) {
    policy in ["unrestricted", "standard", "strict"]
  }

  datatype Role = Role(
    agentId: string,
    guestId: string,
    toolset: string,
    addendum: Option<string>,
    manifest: Option<string>,
    policy: string,
    isAdmin: bool,
    configured: bool,
    ttlSeconds: Option<nat>,
    turnLoop: TurnLoop,
    homeNode: Option<string>)

  datatype Profile = Profile(agentId: string, isAdmin: bool, turnLoop: Option<TurnLoop>, policy: Option<string>)

  /** Orchestrator roles by agent. */
  type Roles = map<string, Role>

  datatype Fault = Fault(read: bool, write: bool)

  function Existing(roles: Roles, agentId: string): Option<Role> {
    if agentId in roles then Some(roles[agentId]) else None
  }

  function Resolved(existing: Option<Role>, p: Profile): Role {
    var turnLoop :=
      if p.turnLoop.Some? then p.turnLoop.value
      else if existing.Some? then existing.value.turnLoop else DEFAULT_TURN_LOOP;
    var policy :=
      if p.policy.Some? && IsValidPolicy(p.policy.value) then p.policy.value
      else if existing.Some? then existing.value.policy else DEFAULT_POLICY;
    var addendum := if existing.Some? then existing.value.addendum else None;
    Role(p.agentId, p.agentId + ":orchestrator", "orchestrator", addendum, Some(MANIFEST), policy, p.isAdmin,
         true, None, turnLoop, None)
  }

  /** A failed read counts as no stored role. */
  function SeedOne(roles: Roles, p: Profile, readFails: bool): Roles {
    roles[p.agentId := Resolved(if readFails then None else Existing(roles, p.agentId), p)]
  }

  /** A failed write ends the reseed with an error; profiles before it stay applied. */
  function SeedFrom(roles: Roles, profiles: seq<Profile>, faults: seq<Fault>, i: nat): (Roles, bool)
    requires i <= |profiles| == |faults|
    decreases |profiles| - i
  {
    if i == |profiles| then (roles, true)
    else if faults[i].write then (roles, false)
    else SeedFrom(SeedOne(roles, profiles[i], faults[i].read), profiles, faults, i + 1)
  }

  class RoleStore {
    var roles: Roles

    constructor (roles: Roles)
      ensures this.roles == roles
    {
      this.roles := roles;
    }

    method SeedOrchestratorRoles(profiles: seq<Profile>, faults: seq<Fault>) returns (ok: bool)
      requires |profiles| == |faults|
      modifies this
      ensures (roles, ok) == SeedFrom(old(roles), profiles, faults, 0)
    {
      var i := 0;
      while i < |profiles|
        invariant 0 <= i <= |profiles|
        invariant SeedFrom(roles, profiles, faults, i) == SeedFrom(old(roles), profiles, faults, 0)
      {
        var p := profiles[i];
        var existing := None;
        if !faults[i].read && p.agentId in roles {
          existing := Some(roles[p.agentId]);
        }
        var turnLoop := DEFAULT_TURN_LOOP;
        if p.turnLoop.Some? {
          turnLoop := p.turnLoop.value;
        } else if existing.Some? {
          turnLoop := existing.value.turnLoop;
        }
        var policy := DEFAULT_POLICY;
        if p.policy.Some? && IsValidPolicy(p.policy.value) {
          policy := p.policy.value;
        } else if existing.Some? {
          policy := existing.value.policy;
        }
        var addendum := if existing.Some? then existing.value.addendum else None;
        if faults[i].write {
          return false;
        }
        roles := roles[p.agentId := Role(
          p.agentId, p.agentId + ":orchestrator", "orchestrator", addendum, Some(MANIFEST), policy, p.isAdmin,
          true, None, turnLoop, None)];
        i := i + 1;
      }
      return true;
    }
  }

  // ---------------------------------------------------------------------------------------------
  // What any history of reseeds leaves
  // ---------------------------------------------------------------------------------------------

  /** All profiles applied so far, reseed after reseed, each read having succeeded. */
  function Seeded(roles: Roles, applied: seq<Profile>): Roles
    decreases |applied|
  {
    if applied == [] then roles
    else SeedOne(Seeded(roles, applied[..|applied| - 1]), applied[|applied| - 1], false)
  }

  lemma {:induction false} SeededCons(roles: Roles, p: Profile, rest: seq<Profile>)
    ensures Seeded(roles, [p] + rest) == Seeded(SeedOne(roles, p, false), rest)
    decreases |rest|
  {
    var all := [p] + rest;
    SeededSnoc(roles, all);
    if rest == [] {
      assert all[..|all| - 1] == [];
    } else {
      var before := rest[..|rest| - 1];
      assert all[..|all| - 1] == [p] + before;
      SeededCons(roles, p, before);
      SeededSnoc(SeedOne(roles, p, false), rest);
    }
  }

  lemma SeededSnoc(roles: Roles, applied: seq<Profile>)
    requires applied != []
    ensures Seeded(roles, applied) == SeedOne(Seeded(roles, applied[..|applied| - 1]), applied[|applied| - 1], false)
  {
  }

  /** The profiles from `i` on that a reseed gets to before a write fails. */
  function Applied(profiles: seq<Profile>, faults: seq<Fault>, i: nat): (r: seq<Profile>)
    requires i <= |profiles| == |faults|
    ensures i + |r| <= |profiles| && r == profiles[i..i + |r|]
    ensures i + |r| < |profiles| ==> faults[i + |r|].write
    ensures forall k :: i <= k < i + |r| ==> !faults[k].write
    decreases |profiles| - i
  {
    if i == |profiles| || faults[i].write then [] else [profiles[i]] + Applied(profiles, faults, i + 1)
  }

  /** A reseed with successful reads applies the profiles before its first failed write. */
  lemma {:induction false} ReseedApplies(roles: Roles, profiles: seq<Profile>, faults: seq<Fault>, i: nat)
    requires i <= |profiles| == |faults|
    requires forall k :: 0 <= k < |faults| ==> !faults[k].read
    ensures var r := Applied(profiles, faults, i);
      SeedFrom(roles, profiles, faults, i) == (Seeded(roles, r), i + |r| == |profiles|)
    decreases |profiles| - i
  {
    if i < |profiles| && !faults[i].write {
      var rest := Applied(profiles, faults, i + 1);
      ReseedApplies(SeedOne(roles, profiles[i], false), profiles, faults, i + 1);
      SeededCons(roles, profiles[i], rest);
    }
  }

  /** One profile that says of an agent what a whole history says: the last valid word on each field. */
  function Merged(applied: seq<Profile>, agentId: string): Option<Profile>
    decreases |applied|
  {
    if applied == [] then None
    else
      var earlier, p := Merged(applied[..|applied| - 1], agentId), applied[|applied| - 1];
      if p.agentId != agentId then earlier
      else
        Some(Profile(
          agentId, p.isAdmin,
          if p.turnLoop.Some? then p.turnLoop else if earlier.Some? then earlier.value.turnLoop else None,
          if p.policy.Some? && IsValidPolicy(p.policy.value) then p.policy
          else if earlier.Some? then earlier.value.policy else None))
  }

  /** A history of reseeds acts on each agent as one reseed with the merged profile. */
  lemma {:induction false} HistoryIsOneReseed(roles: Roles, applied: seq<Profile>, agentId: string)
    ensures var stored, merged := Existing(roles, agentId), Merged(applied, agentId);
      Existing(Seeded(roles, applied), agentId) == if merged.None? then stored else Some(Resolved(stored, merged.value))
    ensures var merged := Merged(applied, agentId);
      merged.Some? && merged.value.policy.Some? ==> IsValidPolicy(merged.value.policy.value)
    decreases |applied|
  {
    if applied != [] {
      HistoryIsOneReseed(roles, applied[..|applied| - 1], agentId);
    }
  }

  predicate SetsPolicy(p: Profile, agentId: string) {
    p.agentId == agentId && p.policy.Some? && IsValidPolicy(p.policy.value)
  }

  predicate SetsTurnLoop(p: Profile, agentId: string) {
    p.agentId == agentId && p.turnLoop.Some?
  }

  ghost predicate LastPolicyAt(applied: seq<Profile>, agentId: string, i: nat) {
    i < |applied| && SetsPolicy(applied[i], agentId)
    && forall j :: i < j < |applied| ==> !SetsPolicy(applied[j], agentId)
  }

  ghost predicate LastTurnLoopAt(applied: seq<Profile>, agentId: string, i: nat) {
    i < |applied| && SetsTurnLoop(applied[i], agentId)
    && forall j :: i < j < |applied| ==> !SetsTurnLoop(applied[j], agentId)
  }

  lemma {:induction false} MergedPolicyIsLast(applied: seq<Profile>, agentId: string, i: nat)
    requires LastPolicyAt(applied, agentId, i)
    ensures Merged(applied, agentId).Some? && Merged(applied, agentId).value.policy == applied[i].policy
    decreases |applied|
  {
    if i < |applied| - 1 {
      assert applied[..|applied| - 1][i] == applied[i];
      MergedPolicyIsLast(applied[..|applied| - 1], agentId, i);
      assert !SetsPolicy(applied[|applied| - 1], agentId);
    }
  }

  lemma {:induction false} MergedTurnLoopIsLast(applied: seq<Profile>, agentId: string, i: nat)
    requires LastTurnLoopAt(applied, agentId, i)
    ensures Merged(applied, agentId).Some? && Merged(applied, agentId).value.turnLoop == applied[i].turnLoop
    decreases |applied|
  {
    if i < |applied| - 1 {
      assert applied[..|applied| - 1][i] == applied[i];
      MergedTurnLoopIsLast(applied[..|applied| - 1], agentId, i);
      assert !SetsTurnLoop(applied[|applied| - 1], agentId);
    }
  }

  lemma {:induction false} MergedIfNamed(applied: seq<Profile>, agentId: string)
    ensures Merged(applied, agentId).Some? <==> exists p :: p in applied && p.agentId == agentId
    decreases |applied|
  {
    if applied != [] {
      var before, last := applied[..|applied| - 1], applied[|applied| - 1];
      assert applied == before + [last] && last in applied;
      MergedIfNamed(before, agentId);
    }
  }

  lemma {:induction false} MergedOfPolicySilence(applied: seq<Profile>, agentId: string)
    requires forall p :: p in applied ==> !SetsPolicy(p, agentId)
    ensures var m := Merged(applied, agentId); m.Some? ==> m.value.policy == None
    decreases |applied|
  {
    if applied != [] {
      var before, last := applied[..|applied| - 1], applied[|applied| - 1];
      assert last in applied;
      MergedOfPolicySilence(before, agentId);
    }
  }

  lemma {:induction false} MergedOfTurnLoopSilence(applied: seq<Profile>, agentId: string)
    requires forall p :: p in applied ==> !SetsTurnLoop(p, agentId)
    ensures var m := Merged(applied, agentId); m.Some? ==> m.value.turnLoop == None
    decreases |applied|
  {
    if applied != [] {
      var before, last := applied[..|applied| - 1], applied[|applied| - 1];
      assert last in applied;
      MergedOfTurnLoopSilence(before, agentId);
    }
  }

  /** After any history of reseeds, an agent has the last valid policy supplied for it. */
  lemma LastPolicyWins(roles: Roles, applied: seq<Profile>, agentId: string, i: nat)
    requires LastPolicyAt(applied, agentId, i)
    ensures var after := Existing(Seeded(roles, applied), agentId);
      after.Some? && Some(after.value.policy) == applied[i].policy
  {
    HistoryIsOneReseed(roles, applied, agentId);
    MergedPolicyIsLast(applied, agentId, i);
  }

  /** With none supplied, an agent the history names keeps its stored policy, or has "standard". */
  lemma StoredPolicyStays(roles: Roles, applied: seq<Profile>, agentId: string)
    requires exists p :: p in applied && p.agentId == agentId
    requires forall p :: p in applied ==> !SetsPolicy(p, agentId)
    ensures var after, stored := Existing(Seeded(roles, applied), agentId), Existing(roles, agentId);
      after.Some? && after.value.policy == if stored.Some? then stored.value.policy else "standard"
  {
    HistoryIsOneReseed(roles, applied, agentId);
    MergedIfNamed(applied, agentId);
    MergedOfPolicySilence(applied, agentId);
  }

  /** Likewise for the turn loop: the last one supplied wins. */
  lemma LastTurnLoopWins(roles: Roles, applied: seq<Profile>, agentId: string, i: nat)
    requires LastTurnLoopAt(applied, agentId, i)
    ensures var after := Existing(Seeded(roles, applied), agentId);
      after.Some? && Some(after.value.turnLoop) == applied[i].turnLoop
  {
    HistoryIsOneReseed(roles, applied, agentId);
    MergedTurnLoopIsLast(applied, agentId, i);
  }

  lemma StoredTurnLoopStays(roles: Roles, applied: seq<Profile>, agentId: string)
    requires exists p :: p in applied && p.agentId == agentId
    requires forall p :: p in applied ==> !SetsTurnLoop(p, agentId)
    ensures var after, stored := Existing(Seeded(roles, applied), agentId), Existing(roles, agentId);
      after.Some? && after.value.turnLoop == if stored.Some? then stored.value.turnLoop else DEFAULT_TURN_LOOP
  {
    HistoryIsOneReseed(roles, applied, agentId);
    MergedIfNamed(applied, agentId);
    MergedOfTurnLoopSilence(applied, agentId);
  }

  /** No history changes an addendum; what it does not name, it leaves alone; what it names, it homes locally. */
  lemma AddendumNeverChanges(roles: Roles, applied: seq<Profile>, agentId: string)
    ensures var after, stored := Existing(Seeded(roles, applied), agentId), Existing(roles, agentId);
      if exists p :: p in applied && p.agentId == agentId then
        && after.Some? && after.value.homeNode == None
        && after.value.addendum == if stored.Some? then stored.value.addendum else None
      else after == stored
  {
    HistoryIsOneReseed(roles, applied, agentId);
    MergedIfNamed(applied, agentId);
  }

  lemma {:induction false} MergedAdminIsLast(applied: seq<Profile>, agentId: string, i: nat)
    requires LastNamedAt(applied, agentId, i)
    ensures Merged(applied, agentId).Some? && Merged(applied, agentId).value.isAdmin == applied[i].isAdmin
    ensures Merged(applied, agentId).value.agentId == agentId
    decreases |applied|
  {
    if i < |applied| - 1 {
      assert applied[..|applied| - 1][i] == applied[i];
      MergedAdminIsLast(applied[..|applied| - 1], agentId, i);
      assert applied[|applied| - 1].agentId != agentId;
    }
  }

  ghost predicate LastNamedAt(applied: seq<Profile>, agentId: string, i: nat) {
    i < |applied| && applied[i].agentId == agentId && forall j :: i < j < |applied| ==> applied[j].agentId != agentId
  }

  /**
   Everything else about a named agent's role is institutional: the last profile naming it decides
   whether it is admin, and identity, toolset, manifest, readiness and lifetime are the fixed ones.
   */
  lemma RestIsInstitutional(roles: Roles, applied: seq<Profile>, agentId: string, i: nat)
    requires LastNamedAt(applied, agentId, i)
    ensures var after := Seeded(roles, applied);
      && agentId in after
      && after[agentId].agentId == agentId && after[agentId].isAdmin == applied[i].isAdmin
      && after[agentId].guestId == agentId + ":orchestrator" && after[agentId].toolset == "orchestrator"
      && after[agentId].manifest == Some(MANIFEST) && after[agentId].configured
      && after[agentId].ttlSeconds == None && after[agentId].homeNode == None
  {
    HistoryIsOneReseed(roles, applied, agentId);
    MergedAdminIsLast(applied, agentId, i);
    assert Existing(Seeded(roles, applied), agentId).Some?;
  }

  /** Applying a list of profiles twice is applying it once, even if it names an agent repeatedly. */
  lemma ReseedIsIdempotent(roles: Roles, applied: seq<Profile>)
    ensures Seeded(Seeded(roles, applied), applied) == Seeded(roles, applied)
  {
    var once := Seeded(roles, applied);
    var twice := Seeded(once, applied);
    forall a ensures Existing(twice, a) == Existing(once, a) {
      HistoryIsOneReseed(roles, applied, a);
      HistoryIsOneReseed(once, applied, a);
    }
    forall a ensures a in twice <==> a in once {
      assert Existing(twice, a) == Existing(once, a);
    }
    forall a | a in twice ensures twice[a] == once[a] {
      assert Existing(twice, a) == Existing(once, a);
    }
  }

  /**
   A failed read costs the stored settings: the outcome is the one a successful read would give
   exactly when there was no stored role, or everything it kept was default or supplied anew.
   */
  lemma FailedReadIsHarmlessIff(roles: Roles, p: Profile)
    ensures SeedOne(roles, p, true) == SeedOne(roles, p, false) <==>
              p.agentId !in roles
              || (roles[p.agentId].addendum == None
                  && (p.turnLoop.Some? || roles[p.agentId].turnLoop == DEFAULT_TURN_LOOP)
                  && (SetsPolicy(p, p.agentId) || roles[p.agentId].policy == "standard"))
  {
    assert SeedOne(roles, p, true)[p.agentId] == Resolved(None, p);
    assert SeedOne(roles, p, false)[p.agentId] == Resolved(Existing(roles, p.agentId), p);
  }
}
