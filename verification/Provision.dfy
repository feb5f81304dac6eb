/**
 Provisioning of memory vaults: a loop that mints a token per unregistered vault, seals it and
 registers it. A run makes its fallible calls one by one and may stop at any of them; `calls` is the
 number of calls that still succeed.
 */
module Provision {
  import opened Wrappers
  import opened Graph
  import opened Vault

  /** `minted` counts the tokens the memory server ever issued per vault. */
  datatype Site = Site(
    registry: seq<Entry>,
    secrets: Secrets,
    remote: set<string>,
    minted: map<string, nat>,
    calls: nat)

  /** The token one mint request returns, and the randomness its sealing draws on. */
  datatype Grant = Grant(token: string, mint: Mint)

  const SECRET_KIND := "muninn_vault_token"

  function TokenInput(token: string): SecretInput {
    SecretInput(SECRET_KIND, "hotel", ["hotel"], ["hotel"], token)
  }

  function TokenRef(grant: Grant): string {
    SecretRef(SECRET_KIND, grant.mint.uuid)
  }

  function MintCount(site: Site, name: string): nat {
    if name in site.minted then site.minted[name] else 0
  }

  function Spend(site: Site): Site
    requires site.calls > 0
  {
    site.(calls := site.calls - 1)
  }

  function Created(site: Site, name: string): Site
    requires site.calls > 0
  {
    Spend(site).(remote := site.remote + {name})
  }

  function Minted(site: Site, name: string): Site
    requires site.calls > 0
  {
    Spend(site).(minted := site.minted[name := MintCount(site, name) + 1])
  }

  function WithToken(site: Site, grant: Grant, cipher: Cipher): Site
    requires site.calls > 0
  {
    Spend(site).(secrets := Stored(site.secrets, TokenInput(grant.token), grant.mint, cipher))
  }

  function WithEntry(site: Site, name: string, grant: Grant): Site
    requires site.calls > 0
  {
    Spend(site).(registry := UpsertEntry(site.registry, Entry(name, TokenRef(grant))))
  }

  /** Minting, reading the answer, sealing, registering, and the plasticity request, in that order. */
  function Enrol(site: Site, name: string, grant: Grant, cipher: Cipher): (Site, bool) {
    if site.calls == 0 then (site, false)
    else
      var a := Minted(site, name);
      if a.calls == 0 then (a, false)
      else
        var b := Spend(a);
        if b.calls == 0 then (b, false)
        else
          var c := WithToken(b, grant, cipher);
          if c.calls == 0 then (c, false)
          else
            var d := WithEntry(c, name, grant);
            if d.calls == 0 then (d, false) else (Spend(d), true)
  }

  /** One vault of the loop; `existing` is the list fetched when the run began. */
  function ProvisionOne(site: Site, name: string, existing: set<string>, grant: Grant, cipher: Cipher): (Site, bool) {
    if site.calls == 0 then (site, false)
    else
      var read := Spend(site);
      if Registered(read.registry, name) then (read, true)
      else if name in existing then Enrol(read, name, grant, cipher)
      else if read.calls == 0 then (read, false)
      else Enrol(Created(read, name), name, grant, cipher)
  }

  function ProvisionFrom(
      site: Site, names: seq<string>, existing: set<string>, grants: seq<Grant>, cipher: Cipher, i: nat): (Site, bool)
    requires i <= |names| == |grants|
    decreases |names| - i
  {
    if i == |names| then (site, true)
    else
      var (site', ok) := ProvisionOne(site, names[i], existing, grants[i], cipher);
      if !ok then (site', false) else ProvisionFrom(site', names, existing, grants, cipher, i + 1)
  }

  /** A whole run: nothing for an empty list, else log in, list the vaults, and loop. */
  function ProvisionAll(site: Site, names: seq<string>, grants: seq<Grant>, cipher: Cipher): (Site, bool)
    requires |names| == |grants|
  {
    if names == [] then (site, true)
    else if site.calls < 2 then (site.(calls := 0), false)
    else ProvisionFrom(site.(calls := site.calls - 2), names, site.remote, grants, cipher, 0)
  }

  class Provisioner {
    var registry: seq<Entry>
    var secrets: Secrets
    var remote: set<string>
    var minted: map<string, nat>
    var calls: nat

    constructor (site: Site)
      ensures Contents() == site
    {
      registry, secrets, remote, minted, calls := site.registry, site.secrets, site.remote, site.minted, site.calls;
    }

    function Contents(): Site
      reads this
    {
      Site(registry, secrets, remote, minted, calls)
    }

    /** One fallible call: it either goes through, leaving one call fewer, or stops the run. */
    method Call() returns (ok: bool)
      modifies this`calls
      ensures ok <==> old(calls) > 0
      ensures calls == if ok then old(calls) - 1 else old(calls)
    {
      ok := calls > 0;
      if ok {
        calls := calls - 1;
      }
    }

    method EnrolVault(name: string, grant: Grant, cipher: Cipher) returns (ok: bool)
      modifies this
      ensures (Contents(), ok) == Enrol(old(Contents()), name, grant, cipher)
    {
      ok := Call();
      if !ok {
        return;
      }
      minted := minted[name := (if name in minted then minted[name] else 0) + 1];
      ok := Call();
      if !ok {
        return;
      }
      ok := Call();
      if !ok {
        return;
      }
      secrets := Stored(secrets, TokenInput(grant.token), grant.mint, cipher);
      ok := Call();
      if !ok {
        return;
      }
      registry := UpsertEntry(registry, Entry(name, TokenRef(grant)));
      ok := Call();
    }

    /** The body of the loop: skip a registered vault, else create it if need be and enrol it. */
    method ProvisionVault(name: string, existing: set<string>, grant: Grant, cipher: Cipher) returns (ok: bool)
      modifies this
      ensures (Contents(), ok) == ProvisionOne(old(Contents()), name, existing, grant, cipher)
    {
      ok := Call();
      if !ok {
        return;
      }
      RegisteredMeansFound(registry, name);
      if Lookup(registry, name).Some? {
        return;
      }
      if name !in existing {
        ok := Call();
        if !ok {
          return;
        }
        remote := remote + {name};
      }
      ok := EnrolVault(name, grant, cipher);
    }

    method ProvisionEach(names: seq<string>, existing: set<string>, grants: seq<Grant>, cipher: Cipher)
      returns (ok: bool)
      requires |names| == |grants|
      modifies this
      ensures (Contents(), ok) == ProvisionFrom(old(Contents()), names, existing, grants, cipher, 0)
    {
      ghost var all := ProvisionFrom(Contents(), names, existing, grants, cipher, 0);
      var i := 0;
      while i < |names|
        invariant 0 <= i <= |names|
        invariant ProvisionFrom(Contents(), names, existing, grants, cipher, i) == all
      {
        ok := ProvisionVault(names[i], existing, grants[i], cipher);
        if !ok {
          return;
        }
        i := i + 1;
      }
      return true;
    }

    method ProvisionMuninnVaults(names: seq<string>, grants: seq<Grant>, cipher: Cipher) returns (ok: bool)
      requires |names| == |grants|
      modifies this
      ensures (Contents(), ok) == ProvisionAll(old(Contents()), names, grants, cipher)
    {
      if names == [] {
        return true;
      }
      ok := Call();
      if !ok {
        return;
      }
      ok := Call();
      if !ok {
        return;
      }
      ok := ProvisionEach(names, remote, grants, cipher);
    }
  }

  // ---------------------------------------------------------------------------------------------
  // Convergence over repeated, partly failed runs
  // ---------------------------------------------------------------------------------------------

  const HOTEL: Access := Access("hotel", "hotel")

  /** The vault is registered to a secret the hotel can open. */
  ghost predicate Served(site: Site, name: string, cipher: Cipher) {
    var ref := Lookup(site.registry, name);
    ref.Some? && Resolve(site.secrets, ref.value, HOTEL, cipher).Success?
    && Resolve(site.secrets, ref.value, HOTEL, cipher).value.Some?
  }

  /** Minted refs name no stored secret and no registry entry, and differ from each other. */
  ghost predicate FreshGrants(site: Site, grants: seq<Grant>, i: nat) {
    && (forall k :: i <= k < |grants| ==> FreshGrant(site, grants[k]))
    && (forall k, l :: i <= k < l < |grants| ==> TokenRef(grants[k]) != TokenRef(grants[l]))
  }

  ghost predicate FreshGrant(site: Site, grant: Grant) {
    TokenRef(grant) !in site.secrets && forall n :: Lookup(site.registry, n) != Some(TokenRef(grant))
  }

  /**
   What part of a run does to one vault: a registered vault keeps its entry and gets no token; any
   other gets at most one token, and exactly one if the part registers it.
   */
  ghost predicate Touches(site: Site, site': Site, name: string) {
    var before, after := Lookup(site.registry, name), Lookup(site'.registry, name);
    && (before.Some? ==> after == before && MintCount(site', name) == MintCount(site, name))
    && MintCount(site, name) <= MintCount(site', name) <= MintCount(site, name) + 1
    && (before.None? && after.Some? ==> MintCount(site', name) == MintCount(site, name) + 1)
  }

  lemma EnrolTouches(site: Site, name: string, grant: Grant, cipher: Cipher, other: string)
    requires Lookup(site.registry, name).None?
    ensures var (site', ok) := Enrol(site, name, grant, cipher);
      && Touches(site, site', other)
      && (other != name ==> MintCount(site', other) == MintCount(site, other)
                            && Lookup(site'.registry, other) == Lookup(site.registry, other))
      && (ok ==> Lookup(site'.registry, name) == Some(TokenRef(grant)))
  {
    LookupAfterUpsert(site.registry, Entry(name, TokenRef(grant)), other);
    LookupAfterUpsert(site.registry, Entry(name, TokenRef(grant)), name);
  }

  lemma ProvisionOneTouches(
      site: Site, name: string, existing: set<string>, grant: Grant, cipher: Cipher, other: string)
    ensures var (site', ok) := ProvisionOne(site, name, existing, grant, cipher);
      && Touches(site, site', other)
      && (other != name ==> MintCount(site', other) == MintCount(site, other)
                            && Lookup(site'.registry, other) == Lookup(site.registry, other))
      && (ok ==> Lookup(site'.registry, name).Some?)
  {
    RegisteredMeansFound(site.registry, name);
    if site.calls > 0 && !Registered(site.registry, name) {
      var read := Spend(site);
      if name in existing {
        EnrolTouches(read, name, grant, cipher, other);
      } else if read.calls > 0 {
        EnrolTouches(Created(read, name), name, grant, cipher, other);
      }
    }
  }

  lemma {:induction false} ProvisionFromTouches(
      site: Site, names: seq<string>, existing: set<string>, grants: seq<Grant>, cipher: Cipher, i: nat, name: string)
    requires i <= |names| == |grants|
    ensures var (site', ok) := ProvisionFrom(site, names, existing, grants, cipher, i);
      && Touches(site, site', name)
      && (name !in names[i..] ==> MintCount(site', name) == MintCount(site, name)
                                  && Lookup(site'.registry, name) == Lookup(site.registry, name))
      && (ok && name in names[i..] ==> Lookup(site'.registry, name).Some?)
    decreases |names| - i
  {
    if i < |names| {
      assert names[i..] == [names[i]] + names[i + 1..];
      var one := ProvisionOne(site, names[i], existing, grants[i], cipher);
      ProvisionOneTouches(site, names[i], existing, grants[i], cipher, name);
      if one.1 {
        ProvisionFromTouches(one.0, names, existing, grants, cipher, i + 1, name);
      }
    }
  }

  /**
   One run, stopped anywhere: a vault already registered is left alone; a repeated name is minted at
   most once; and a run that succeeds has minted each new name exactly once and registered them all.
   */
  lemma RunMintsOnce(site: Site, names: seq<string>, grants: seq<Grant>, cipher: Cipher, name: string)
    requires |names| == |grants|
    ensures var (site', ok) := ProvisionAll(site, names, grants, cipher);
      && Touches(site, site', name)
      && (ok && name in names ==> Lookup(site'.registry, name).Some?)
      && (ok ==>
            var needed := if name in names && Lookup(site.registry, name).None? then 1 else 0;
            MintCount(site', name) == MintCount(site, name) + needed)
  {
    if names != [] && site.calls >= 2 {
      var begun := site.(calls := site.calls - 2);
      ProvisionFromTouches(begun, names, site.remote, grants, cipher, 0, name);
      assert names[0..] == names;
    }
  }

  /** Part of a run leaves a registered vault as served, or as unserved, as it was, and serves what it registers. */
  ghost predicate KeepsService(site: Site, site': Site, name: string, cipher: Cipher) {
    var before, after := Lookup(site.registry, name), Lookup(site'.registry, name);
    && (before.Some? ==> after == before && (Served(site', name, cipher) <==> Served(site, name, cipher)))
    && (before.None? && after.Some? ==> Served(site', name, cipher))
  }

  /** Secrets and registry refs grow by this grant's ref at most. */
  ghost predicate AddsOnly(site: Site, site': Site, grant: Grant) {
    && (forall r :: r in site'.secrets ==> r in site.secrets || r == TokenRef(grant))
    && (forall n :: Lookup(site'.registry, n) in {Lookup(site.registry, n), Some(TokenRef(grant))})
  }

  lemma EnrolKeepsService(site: Site, name: string, grant: Grant, cipher: Cipher, other: string)
    requires Sound(cipher) && FreshGrant(site, grant) && Lookup(site.registry, name).None?
    ensures var site' := Enrol(site, name, grant, cipher).0;
      KeepsService(site, site', other, cipher) && AddsOnly(site, site', grant)
  {
    var site' := Enrol(site, name, grant, cipher).0;
    StoredResolves(site.secrets, TokenInput(grant.token), grant.mint, cipher, "", HOTEL);
    forall n ensures Lookup(UpsertEntry(site.registry, Entry(name, TokenRef(grant))), n)
                  == if n == name then Some(TokenRef(grant)) else Lookup(site.registry, n)
    {
      LookupAfterUpsert(site.registry, Entry(name, TokenRef(grant)), n);
    }
  }

  lemma ProvisionOneKeepsService(
      site: Site, name: string, existing: set<string>, grant: Grant, cipher: Cipher, other: string)
    requires Sound(cipher) && FreshGrant(site, grant)
    ensures var site' := ProvisionOne(site, name, existing, grant, cipher).0;
      KeepsService(site, site', other, cipher) && AddsOnly(site, site', grant)
  {
    RegisteredMeansFound(site.registry, name);
    if site.calls > 0 && !Registered(site.registry, name) {
      var read := Spend(site);
      if name in existing {
        EnrolKeepsService(read, name, grant, cipher, other);
      } else if read.calls > 0 {
        EnrolKeepsService(Created(read, name), name, grant, cipher, other);
      }
    }
  }

  lemma FreshAfterOne(site: Site, site': Site, grants: seq<Grant>, i: nat)
    requires i < |grants| && FreshGrants(site, grants, i) && AddsOnly(site, site', grants[i])
    ensures FreshGrants(site', grants, i + 1)
  {
    forall k | i + 1 <= k < |grants| ensures FreshGrant(site', grants[k]) {
      assert FreshGrant(site, grants[k]) && TokenRef(grants[k]) != TokenRef(grants[i]);
    }
  }

  lemma {:induction false} ProvisionFromKeepsService(
      site: Site, names: seq<string>, existing: set<string>, grants: seq<Grant>, cipher: Cipher, i: nat, name: string)
    requires i <= |names| == |grants| && Sound(cipher) && FreshGrants(site, grants, i)
    ensures KeepsService(site, ProvisionFrom(site, names, existing, grants, cipher, i).0, name, cipher)
    decreases |names| - i
  {
    if i < |names| {
      var one := ProvisionOne(site, names[i], existing, grants[i], cipher);
      ProvisionOneKeepsService(site, names[i], existing, grants[i], cipher, name);
      if one.1 {
        FreshAfterOne(site, one.0, grants, i);
        ProvisionFromKeepsService(one.0, names, existing, grants, cipher, i + 1, name);
      }
    }
  }

  /** The calls left say nothing about service. */
  lemma CallsAreIrrelevant(site: Site, calls: nat, grants: seq<Grant>, name: string, cipher: Cipher)
    ensures KeepsService(site, site.(calls := calls), name, cipher)
    ensures FreshGrants(site, grants, 0) ==> FreshGrants(site.(calls := calls), grants, 0)
  {
    forall k | FreshGrants(site, grants, 0) && 0 <= k < |grants| ensures FreshGrant(site.(calls := calls), grants[k]) {
      assert FreshGrant(site, grants[k]);
    }
  }

  lemma KeepsServiceTransitive(a: Site, b: Site, c: Site, name: string, cipher: Cipher)
    requires KeepsService(a, b, name, cipher) && KeepsService(b, c, name, cipher)
    ensures KeepsService(a, c, name, cipher)
  {
  }

  lemma RunKeepsService(site: Site, names: seq<string>, grants: seq<Grant>, cipher: Cipher, name: string)
    requires |names| == |grants| && Sound(cipher) && FreshGrants(site, grants, 0)
    ensures KeepsService(site, ProvisionAll(site, names, grants, cipher).0, name, cipher)
  {
    if names != [] {
      var begun := site.(calls := if site.calls < 2 then 0 else site.calls - 2);
      CallsAreIrrelevant(site, begun.calls, grants, name, cipher);
      if site.calls >= 2 {
        ProvisionFromKeepsService(begun, names, site.remote, grants, cipher, 0, name);
        KeepsServiceTransitive(
          site, begun, ProvisionFrom(begun, names, site.remote, grants, cipher, 0).0, name, cipher);
      }
    }
  }

  /** Enrolling takes five calls: mint, read the answer, seal, register, and the plasticity request. */
  lemma EnrolCompletesIff(site: Site, name: string, grant: Grant, cipher: Cipher)
    ensures var (site', ok) := Enrol(site, name, grant, cipher);
      && (ok <==> site.calls >= 5)
      && site'.calls == if ok then site.calls - 5 else 0
  {
  }

  /** A pass takes one call for a registered vault, six for one the server has, and seven for any other. */
  lemma ProvisionOneCompletesIff(site: Site, name: string, existing: set<string>, grant: Grant, cipher: Cipher)
    ensures var (site', ok) := ProvisionOne(site, name, existing, grant, cipher);
      var cost := if Lookup(site.registry, name).Some? then 1 else if name in existing then 6 else 7;
      && (ok <==> site.calls >= cost)
      && site'.calls == if ok then site.calls - cost else 0
  {
    RegisteredMeansFound(site.registry, name);
    if site.calls > 0 && !Registered(site.registry, name) {
      var read := Spend(site);
      if name in existing {
        EnrolCompletesIff(read, name, grant, cipher);
      } else if read.calls > 0 {
        EnrolCompletesIff(Created(read, name), name, grant, cipher);
      }
    }
  }

  // ---------------------------------------------------------------------------------------------
  // What a new vault is registered to
  // ---------------------------------------------------------------------------------------------

  /** The vault is registered to the ref of this grant, which opens to its token, for the hotel and nobody else. */
  ghost predicate Holds(site: Site, name: string, grant: Grant, cipher: Cipher) {
    && Lookup(site.registry, name) == Some(TokenRef(grant))
    && (forall access: Access ::
          var r := Resolve(site.secrets, TokenRef(grant), access, cipher);
          if access.role == "hotel" && access.guest == "hotel" then r == Success(Some(grant.token)) else r.Failure?)
  }

  lemma EnrolHolds(site: Site, name: string, grant: Grant, cipher: Cipher)
    requires Sound(cipher) && Enrol(site, name, grant, cipher).1
    ensures Holds(Enrol(site, name, grant, cipher).0, name, grant, cipher)
    ensures Enrol(site, name, grant, cipher).0.remote == site.remote
  {
    LookupAfterUpsert(site.registry, Entry(name, TokenRef(grant)), name);
    forall access: Access
      ensures var r := Resolve(Enrol(site, name, grant, cipher).0.secrets, TokenRef(grant), access, cipher);
        if access.role == "hotel" && access.guest == "hotel" then r == Success(Some(grant.token)) else r.Failure?
    {
      StoredResolves(site.secrets, TokenInput(grant.token), grant.mint, cipher, "", access);
    }
  }

  /** A pass that goes through: a new vault is created if the list lacked it, and holds this grant's token. */
  lemma ProvisionOneHolds(site: Site, name: string, existing: set<string>, grant: Grant, cipher: Cipher)
    requires Sound(cipher) && ProvisionOne(site, name, existing, grant, cipher).1
    ensures var site' := ProvisionOne(site, name, existing, grant, cipher).0;
      && (Lookup(site.registry, name).None? ==> Holds(site', name, grant, cipher))
      && site'.remote == site.remote + if Lookup(site.registry, name).None? && name !in existing then {name} else {}
  {
    RegisteredMeansFound(site.registry, name);
    if !Registered(site.registry, name) {
      var read := Spend(site);
      EnrolHolds(if name in existing then read else Created(read, name), name, grant, cipher);
    }
  }

  /** Later passes of the run leave what a vault holds alone. */
  lemma {:induction false} ProvisionFromLeavesHeld(
      site: Site, names: seq<string>, existing: set<string>, grants: seq<Grant>, cipher: Cipher, i: nat,
      name: string, grant: Grant)
    requires i <= |names| == |grants| && Holds(site, name, grant, cipher)
    requires forall k :: i <= k < |grants| ==> TokenRef(grants[k]) != TokenRef(grant)
    ensures Holds(ProvisionFrom(site, names, existing, grants, cipher, i).0, name, grant, cipher)
    decreases |names| - i
  {
    if i < |names| {
      var one := ProvisionOne(site, names[i], existing, grants[i], cipher);
      ProvisionOneTouches(site, names[i], existing, grants[i], cipher, name);
      assert Resolve(site.secrets, TokenRef(grant), HOTEL, cipher) == Success(Some(grant.token));
      ProvisionOneKeepsSecret(site, names[i], existing, grants[i], cipher, TokenRef(grant));
      if one.1 {
        ProvisionFromLeavesHeld(one.0, names, existing, grants, cipher, i + 1, name, grant);
      }
    }
  }

  lemma ProvisionOneKeepsSecret(
      site: Site, name: string, existing: set<string>, grant: Grant, cipher: Cipher, ref: string)
    requires ref in site.secrets && ref != TokenRef(grant)
    ensures var site' := ProvisionOne(site, name, existing, grant, cipher).0;
      ref in site'.secrets && site'.secrets[ref] == site.secrets[ref]
  {
  }

  /** The grant of a name's first occurrence from `i` on. */
  function FirstOccurrence(names: seq<string>, i: nat, name: string): (k: nat)
    requires i <= |names| && name in names[i..]
    ensures i <= k < |names| && names[k] == name && forall j :: i <= j < k ==> names[j] != name
    decreases |names| - i
  {
    if names[i] == name then i else FirstOccurrence(names, i + 1, name)
  }

  lemma {:induction false} ProvisionFromHolds(
      site: Site, names: seq<string>, existing: set<string>, grants: seq<Grant>, cipher: Cipher, i: nat, name: string)
    requires Sound(cipher) && i <= |names| == |grants| && ProvisionFrom(site, names, existing, grants, cipher, i).1
    requires forall k, l :: i <= k < l < |grants| ==> TokenRef(grants[k]) != TokenRef(grants[l])
    requires name in names[i..] && Lookup(site.registry, name).None?
    ensures var site' := ProvisionFrom(site, names, existing, grants, cipher, i).0;
      && Holds(site', name, grants[FirstOccurrence(names, i, name)], cipher)
      && (name in existing || name in site'.remote)
    decreases |names| - i
  {
    var one := ProvisionOne(site, names[i], existing, grants[i], cipher);
    ProvisionOneHolds(site, names[i], existing, grants[i], cipher);
    ProvisionOneTouches(site, names[i], existing, grants[i], cipher, name);
    if names[i] == name {
      ProvisionFromLeavesHeld(one.0, names, existing, grants, cipher, i + 1, name, grants[i]);
      RemoteOnlyGrows(one.0, names, existing, grants, cipher, i + 1);
    } else {
      assert names[i..] == [names[i]] + names[i + 1..];
      ProvisionFromHolds(one.0, names, existing, grants, cipher, i + 1, name);
    }
  }

  lemma {:induction false} RemoteOnlyGrows(
      site: Site, names: seq<string>, existing: set<string>, grants: seq<Grant>, cipher: Cipher, i: nat)
    requires i <= |names| == |grants|
    ensures var remote := ProvisionFrom(site, names, existing, grants, cipher, i).0.remote;
      && site.remote <= remote
      && (forall n :: n in remote && n !in site.remote ==>
            n in names[i..] && n !in existing && Lookup(site.registry, n).None?)
    decreases |names| - i
  {
    if i < |names| {
      assert names[i..] == [names[i]] + names[i + 1..];
      var one := ProvisionOne(site, names[i], existing, grants[i], cipher);
      RegisteredMeansFound(site.registry, names[i]);
      if one.1 {
        RemoteOnlyGrows(one.0, names, existing, grants, cipher, i + 1);
        forall n ensures Lookup(one.0.registry, n).None? ==> Lookup(site.registry, n).None? {
          ProvisionOneTouches(site, names[i], existing, grants[i], cipher, n);
        }
      }
    }
  }

  /**
   A whole run that succeeds: every requested name that was unregistered is registered to a ref that
   opens, for the hotel only, to the token minted at the name's first occurrence, and the vault exists
   on the memory server.
   */
  lemma SuccessHoldsTheToken(site: Site, names: seq<string>, grants: seq<Grant>, cipher: Cipher, name: string)
    requires |names| == |grants| && Sound(cipher) && ProvisionAll(site, names, grants, cipher).1
    requires forall k, l :: 0 <= k < l < |grants| ==> TokenRef(grants[k]) != TokenRef(grants[l])
    requires name in names && Lookup(site.registry, name).None?
    ensures var site' := ProvisionAll(site, names, grants, cipher).0;
      && name in names[0..]
      && Holds(site', name, grants[FirstOccurrence(names, 0, name)], cipher)
      && name in site'.remote
  {
    assert names[0..] == names;
    var begun := site.(calls := site.calls - 2);
    ProvisionFromHolds(begun, names, site.remote, grants, cipher, 0, name);
    RemoteOnlyGrows(begun, names, site.remote, grants, cipher, 0);
  }

  datatype Request = Request(names: seq<string>, grants: seq<Grant>, calls: nat)

  function Runs(site: Site, requests: seq<Request>, cipher: Cipher): (Site, bool)
    requires forall r :: r in requests ==> |r.names| == |r.grants|
    decreases |requests|
  {
    if requests == [] then (site, true)
    else
      var last := requests[|requests| - 1];
      var before := Runs(site, requests[..|requests| - 1], cipher).0;
      ProvisionAll(before.(calls := last.calls), last.names, last.grants, cipher)
  }

  ghost predicate FreshRuns(site: Site, requests: seq<Request>, cipher: Cipher)
    requires forall r :: r in requests ==> |r.names| == |r.grants|
    decreases |requests|
  {
    requests != [] ==>
      var before := requests[..|requests| - 1];
      FreshRuns(site, before, cipher)
      && FreshGrants(Runs(site, before, cipher).0, requests[|requests| - 1].grants, 0)
  }

  /**
   Over any history of stopped runs, and whatever else the registry holds: a vault registered at the
   start is served at the end exactly if it was then, and one registered on the way is served.
   */
  lemma {:induction false} RunsKeepService(site: Site, requests: seq<Request>, cipher: Cipher, name: string)
    requires forall r :: r in requests ==> |r.names| == |r.grants|
    requires Sound(cipher) && FreshRuns(site, requests, cipher)
    ensures KeepsService(site, Runs(site, requests, cipher).0, name, cipher)
    decreases |requests|
  {
    if requests != [] {
      var last := requests[|requests| - 1];
      RunsKeepService(site, requests[..|requests| - 1], cipher, name);
      var before := Runs(site, requests[..|requests| - 1], cipher).0;
      var ready := before.(calls := last.calls);
      CallsAreIrrelevant(before, last.calls, last.grants, name, cipher);
      KeepsServiceTransitive(site, before, ready, name, cipher);
      RunKeepsService(ready, last.names, last.grants, cipher, name);
      KeepsServiceTransitive(
        site, ready, ProvisionAll(ready, last.names, last.grants, cipher).0, name, cipher);
    }
  }

  /** Once registered, a vault is never minted for or re-registered by any later run, stopped or not. */
  lemma {:induction false} RegisteredForGood(site: Site, requests: seq<Request>, cipher: Cipher, name: string)
    requires forall r :: r in requests ==> |r.names| == |r.grants|
    requires Lookup(site.registry, name).Some?
    ensures var end := Runs(site, requests, cipher).0;
      && Lookup(end.registry, name) == Lookup(site.registry, name)
      && MintCount(end, name) == MintCount(site, name)
    decreases |requests|
  {
    if requests != [] {
      var last := requests[|requests| - 1];
      RegisteredForGood(site, requests[..|requests| - 1], cipher, name);
      var before := Runs(site, requests[..|requests| - 1], cipher).0;
      RunMintsOnce(before.(calls := last.calls), last.names, last.grants, cipher, name);
    }
  }

  /**
   After any history of stopped runs, a run that succeeds leaves a name it asked for served if and only
   if the name was unregistered at the start or served already: a registered ref is never checked.
   */
  lemma SuccessServesIff(site: Site, requests: seq<Request>, cipher: Cipher, name: string)
    requires forall r :: r in requests ==> |r.names| == |r.grants|
    requires Sound(cipher) && FreshRuns(site, requests, cipher)
    requires requests != [] && Runs(site, requests, cipher).1 && name in requests[|requests| - 1].names
    ensures Served(Runs(site, requests, cipher).0, name, cipher)
            <==> Lookup(site.registry, name).None? || Served(site, name, cipher)
  {
    RunsKeepService(site, requests, cipher, name);
    var last := requests[|requests| - 1];
    var before := Runs(site, requests[..|requests| - 1], cipher).0;
    RunMintsOnce(before.(calls := last.calls), last.names, last.grants, cipher, name);
  }
}
