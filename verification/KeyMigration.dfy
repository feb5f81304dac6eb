/**
 The migration of plaintext provider API keys from config into the vault. A run makes its writes one
 by one and may stop before any of them; `budget` is the number of writes that still succeed.
 */
module KeyMigration {
  import opened Wrappers
  import opened Graph
  import opened Vault

  datatype ProviderKeySpec = ProviderKeySpec(
    vaultName: string,
    refKey: string,
    legacyKey: string,
    allowedRoles: seq<string>)

  const PROVIDER_KEY_SPECS: seq<ProviderKeySpec> := [
    ProviderKeySpec("anthropic_api_key", "anthropic_api_key_ref", "anthropic_api_key", ["model", "model.anthropic"]),
    ProviderKeySpec("gemini_api_key", "gemini_api_key_ref", "gemini_api_key", ["model", "model.gemini"]),
    ProviderKeySpec(
      "openrouter_api_key", "openrouter_api_key_ref", "openrouter_api_key", ["model", "model.openrouter"]),
    ProviderKeySpec("openai_api_key", "openai_api_key_ref", "openai_api_key", ["model", "model.openai"]),
    ProviderKeySpec("elevenlabs_api_key", "elevenlabs_api_key_ref", "elevenlabs_api_key", ["model", "model.elevenlabs"])
  ]

  datatype Store = Store(config: Config, secrets: Secrets, registry: seq<Entry>, budget: nat)

  function KeyInput(spec: ProviderKeySpec, plaintext: string): SecretInput {
    SecretInput(spec.vaultName, "hotel", spec.allowedRoles, [], plaintext)
  }

  function NewRef(spec: ProviderKeySpec, mint: Mint): string {
    SecretRef(spec.vaultName, mint.uuid)
  }

  function WithSecret(st: Store, spec: ProviderKeySpec, plaintext: string, mint: Mint, cipher: Cipher): Store
    requires st.budget > 0
  {
    st.(secrets := Stored(st.secrets, KeyInput(spec, plaintext), mint, cipher), budget := st.budget - 1)
  }

  function WithEntry(st: Store, entry: Entry): Store
    requires st.budget > 0
  {
    st.(registry := UpsertEntry(st.registry, entry), budget := st.budget - 1)
  }

  function WithConfig(st: Store, key: string, value: string): Store
    requires st.budget > 0
  {
    st.(config := st.config[key := JsonString(value)], budget := st.budget - 1)
  }

  function WithoutConfig(st: Store, key: string): Store
    requires st.budget > 0
  {
    st.(config := st.config - {key}, budget := st.budget - 1)
  }

  /** One provider: the store it leaves, and whether it migrated, or None when a write stopped it. */
  function MigrateOne(st: Store, spec: ProviderKeySpec, mint: Mint, cipher: Cipher): (Store, Option<bool>) {
    match ReadString(st.config, spec.legacyKey)
    case None => (st, Some(false))
    case Some(plaintext) =>
      if ReadString(st.config, spec.refKey).Some? then
        if st.budget == 0 then (st, None) else (WithoutConfig(st, spec.legacyKey), Some(true))
      else if st.budget == 0 then (st, None)
      else
        var kept := WithSecret(st, spec, plaintext, mint, cipher);
        if kept.budget == 0 then (kept, None)
        else
          var registered := WithEntry(kept, Entry(spec.vaultName, NewRef(spec, mint)));
          if registered.budget == 0 then (registered, None)
          else
            var linked := WithConfig(registered, spec.refKey, NewRef(spec, mint));
            if linked.budget == 0 then (linked, None) else (WithoutConfig(linked, spec.legacyKey), Some(true))
  }

  /** Providers `i..`, with the count so far; a stopped provider ends the run. */
  function MigrateFrom(
      st: Store, specs: seq<ProviderKeySpec>, mints: seq<Mint>, cipher: Cipher, i: nat, count: nat)
    : (Store, Option<nat>)
    requires i <= |specs| == |mints|
    decreases |specs| - i
  {
    if i == |specs| then (st, Some(count))
    else
      var (st', migrated) := MigrateOne(st, specs[i], mints[i], cipher);
      if migrated.None? then (st', None)
      else MigrateFrom(st', specs, mints, cipher, i + 1, if migrated.value then count + 1 else count)
  }

  /** The graph store during a run. */
  class GraphStore {
    var config: Config
    var secrets: Secrets
    var registry: seq<Entry>
    var budget: nat

    constructor (st: Store)
      ensures Contents() == st
    {
      config, secrets, registry, budget := st.config, st.secrets, st.registry, st.budget;
    }

    function Contents(): Store
      reads this
    {
      Store(config, secrets, registry, budget)
    }

    method UpsertSecret(record: SecretRecord) returns (ok: bool)
      modifies this
      ensures ok <==> old(budget) > 0
      ensures Contents() == if ok then old(Contents()).(
                secrets := old(secrets)[record.secretRef := record], budget := old(budget) - 1) else old(Contents())
    {
      ok := budget > 0;
      if ok {
        secrets, budget := secrets[record.secretRef := record], budget - 1;
      }
    }

    /** Reads the whole registry, replaces or appends the entry in place, writes it back. */
    method UpsertVaultRegistryEntry(entry: Entry) returns (ok: bool)
      modifies this
      ensures ok <==> old(budget) > 0
      ensures Contents() == if ok then WithEntry(old(Contents()), entry) else old(Contents())
    {
      var entries := registry;
      var pos := 0;
      while pos < |entries| && entries[pos].vaultName != entry.vaultName
        invariant 0 <= pos <= |entries|
        invariant forall k :: 0 <= k < pos ==> entries[k].vaultName != entry.vaultName
      {
        pos := pos + 1;
      }
      UpsertAt(entries, entry, pos);
      entries := if pos < |entries| then entries[pos := entry] else entries + [entry];
      ok := budget > 0;
      if ok {
        registry, budget := entries, budget - 1;
      }
    }

    method SetConfigValue(key: string, value: string) returns (ok: bool)
      modifies this
      ensures ok <==> old(budget) > 0
      ensures Contents() == if ok then WithConfig(old(Contents()), key, value) else old(Contents())
    {
      ok := budget > 0;
      if ok {
        config, budget := config[key := JsonString(value)], budget - 1;
      }
    }

    method RemoveConfigValue(key: string) returns (ok: bool)
      modifies this
      ensures ok <==> old(budget) > 0
      ensures Contents() == if ok then WithoutConfig(old(Contents()), key) else old(Contents())
    {
      ok := budget > 0;
      if ok {
        config, budget := config - {key}, budget - 1;
      }
    }

    method MigrateProviderApiKey(spec: ProviderKeySpec, mint: Mint, cipher: Cipher) returns (migrated: Option<bool>)
      modifies this
      ensures (Contents(), migrated) == MigrateOne(old(Contents()), spec, mint, cipher)
    {
      var plaintext := ReadString(config, spec.legacyKey);
      if plaintext.None? {
        return Some(false);
      }
      var ok;
      if ReadString(config, spec.refKey).Some? {
        ok := RemoveConfigValue(spec.legacyKey);
        return if ok then Some(true) else None;
      }
      ok := UpsertSecret(Sealed(KeyInput(spec, plaintext.value), mint, cipher));
      if !ok {
        return None;
      }
      ok := UpsertVaultRegistryEntry(Entry(spec.vaultName, NewRef(spec, mint)));
      if !ok {
        return None;
      }
      ok := SetConfigValue(spec.refKey, NewRef(spec, mint));
      if !ok {
        return None;
      }
      ok := RemoveConfigValue(spec.legacyKey);
      return if ok then Some(true) else None;
    }

    method MigrateProviderApiKeys(specs: seq<ProviderKeySpec>, mints: seq<Mint>, cipher: Cipher)
      returns (migrated: Option<nat>)
      requires |specs| == |mints|
      modifies this
      ensures (Contents(), migrated) == MigrateFrom(old(Contents()), specs, mints, cipher, 0, 0)
    {
      var count := 0;
      var i := 0;
      while i < |specs|
        invariant 0 <= i <= |specs|
        invariant MigrateFrom(Contents(), specs, mints, cipher, i, count)
               == MigrateFrom(old(Contents()), specs, mints, cipher, 0, 0)
      {
        var one := MigrateProviderApiKey(specs[i], mints[i], cipher);
        if one.None? {
          return None;
        }
        if one.value {
          count := count + 1;
        }
        i := i + 1;
      }
      return Some(count);
    }
  }

  // ---------------------------------------------------------------------------------------------
  // No key is lost at any crash point
  // ---------------------------------------------------------------------------------------------

  /** Legacy and ref entries of all providers are different config keys. */
  ghost predicate DistinctKeys(specs: seq<ProviderKeySpec>) {
    forall i, j :: 0 <= i < |specs| && 0 <= j < |specs| ==>
      && specs[i].legacyKey != specs[j].refKey
      && (i != j ==> specs[i].legacyKey != specs[j].legacyKey && specs[i].refKey != specs[j].refKey)
  }

  lemma ProviderKeysAreDistinct()
    ensures DistinctKeys(PROVIDER_KEY_SPECS)
  {
    assert "anthropic_api_key"[0] == 'a' && "gemini_api_key"[0] == 'g' && "elevenlabs_api_key"[0] == 'e';
    assert "openrouter_api_key"[4] == 'r' && "openai_api_key"[4] == 'a';
    assert "anthropic_api_key_ref"[0] == 'a' && "gemini_api_key_ref"[0] == 'g' && "elevenlabs_api_key_ref"[0] == 'e';
    assert "openrouter_api_key_ref"[4] == 'r' && "openai_api_key_ref"[4] == 'a';
  }

  /** A ref that decrypts for a reader. */
  predicate Opens(secrets: Secrets, secretRef: string, access: Access, cipher: Cipher) {
    var r := Resolve(secrets, secretRef, access, cipher);
    r.Success? && r.value.Some?
  }

  /** The provider's key can be had, from the legacy entry or through the stored ref. */
  predicate HasKey(st: Store, spec: ProviderKeySpec, access: Access, cipher: Cipher) {
    var ref := ReadString(st.config, spec.refKey);
    ReadString(st.config, spec.legacyKey).Some? || (ref.Some? && Opens(st.secrets, ref.value, access, cipher))
  }

  /** The stored ref opens to this very plaintext. */
  predicate Holds(st: Store, spec: ProviderKeySpec, plaintext: string, access: Access, cipher: Cipher) {
    var ref := ReadString(st.config, spec.refKey);
    ref.Some? && Resolve(st.secrets, ref.value, access, cipher) == Success(Some(plaintext))
  }

  /**
   How far one provider has come from where it started: a stored ref never changes, a missing one
   appears only once it opens to the legacy key, and only then may the legacy entry go.
   */
  ghost predicate Progress(start: Store, st: Store, spec: ProviderKeySpec, access: Access, cipher: Cipher) {
    var legacy, legacy' := ReadString(start.config, spec.legacyKey), ReadString(st.config, spec.legacyKey);
    var ref, ref' := ReadString(start.config, spec.refKey), ReadString(st.config, spec.refKey);
    && (legacy' == legacy || legacy' == None)
    && (forall r :: r in start.secrets ==> r in st.secrets && st.secrets[r] == start.secrets[r])
    && (ref.Some? || legacy == None ==> ref' == ref)
    && (ref == None && legacy.Some? ==>
          (ref' == None && legacy' == legacy) || Holds(st, spec, legacy.value, access, cipher))
  }

  /** A minted ref is new to the store and reads back as it was written. */
  ghost predicate FreshMint(st: Store, spec: ProviderKeySpec, mint: Mint) {
    NewRef(spec, mint) !in st.secrets && Trim(NewRef(spec, mint)) == NewRef(spec, mint)
  }

  ghost predicate FreshMints(st: Store, specs: seq<ProviderKeySpec>, mints: seq<Mint>, i: nat)
    requires |specs| == |mints|
  {
    && (forall k :: i <= k < |specs| ==> FreshMint(st, specs[k], mints[k]))
    && (forall k, l :: i <= k < l < |specs| ==> NewRef(specs[k], mints[k]) != NewRef(specs[l], mints[l]))
  }

  /** Progress survives any write that keeps old secrets and leaves the provider's two entries alone. */
  lemma ProgressFrame(start: Store, st: Store, st': Store, spec: ProviderKeySpec, access: Access, cipher: Cipher)
    requires Progress(start, st, spec, access, cipher)
    requires forall r :: r in st.secrets ==> r in st'.secrets && st'.secrets[r] == st.secrets[r]
    requires ReadString(st'.config, spec.refKey) == ReadString(st.config, spec.refKey)
    requires ReadString(st'.config, spec.legacyKey) == ReadString(st.config, spec.legacyKey)
    ensures Progress(start, st', spec, access, cipher)
  {
  }

  predicate SeparateKeys(spec: ProviderKeySpec, other: ProviderKeySpec) {
    && spec.legacyKey != other.legacyKey && spec.legacyKey != other.refKey
    && spec.refKey != other.legacyKey && spec.refKey != other.refKey
  }

  /** A migration step writes no config key but its two. */
  lemma MigrateOneKeepsConfig(st: Store, spec: ProviderKeySpec, mint: Mint, cipher: Cipher, key: string)
    requires key != spec.legacyKey && key != spec.refKey
    ensures ReadString(MigrateOne(st, spec, mint, cipher).0.config, key) == ReadString(st.config, key)
  {
  }

  /** It writes at most one secret, under its own new ref. */
  lemma MigrateOneKeepsSecrets(st: Store, spec: ProviderKeySpec, mint: Mint, cipher: Cipher)
    ensures var st' := MigrateOne(st, spec, mint, cipher).0;
      && (forall r :: r in st'.secrets ==> r in st.secrets || r == NewRef(spec, mint))
      && (forall r :: r in st.secrets && r != NewRef(spec, mint) ==>
            r in st'.secrets && st'.secrets[r] == st.secrets[r])
  {
  }

  lemma FreshAfterOne(st: Store, specs: seq<ProviderKeySpec>, mints: seq<Mint>, cipher: Cipher, i: nat)
    requires i < |specs| == |mints| && FreshMints(st, specs, mints, i)
    ensures FreshMints(MigrateOne(st, specs[i], mints[i], cipher).0, specs, mints, i + 1)
  {
    MigrateOneKeepsSecrets(st, specs[i], mints[i], cipher);
    var st' := MigrateOne(st, specs[i], mints[i], cipher).0;
    forall k | i + 1 <= k < |specs| ensures FreshMint(st', specs[k], mints[k]) {
      assert NewRef(specs[k], mints[k]) !in st.secrets && FreshMint(st, specs[k], mints[k]);
      assert NewRef(specs[k], mints[k]) != NewRef(specs[i], mints[i]);
    }
  }

  lemma MigrateOneLeavesOthers(
      start: Store, st: Store, spec: ProviderKeySpec, mint: Mint, cipher: Cipher, other: ProviderKeySpec,
      access: Access)
    requires FreshMint(st, spec, mint) && SeparateKeys(spec, other)
    requires Progress(start, st, other, access, cipher)
    ensures Progress(start, MigrateOne(st, spec, mint, cipher).0, other, access, cipher)
  {
    MigrateOneKeepsConfig(st, spec, mint, cipher, other.legacyKey);
    MigrateOneKeepsConfig(st, spec, mint, cipher, other.refKey);
    MigrateOneKeepsSecrets(st, spec, mint, cipher);
    ProgressFrame(start, st, MigrateOne(st, spec, mint, cipher).0, other, access, cipher);
  }

  lemma MigrateOneProgresses(start: Store, st: Store, spec: ProviderKeySpec, mint: Mint, cipher: Cipher, access: Access)
    requires Sound(cipher) && FreshMint(st, spec, mint) && spec.legacyKey != spec.refKey
    requires access.role in spec.allowedRoles
    requires Progress(start, st, spec, access, cipher)
    ensures var (st', migrated) := MigrateOne(st, spec, mint, cipher);
      && Progress(start, st', spec, access, cipher)
      && (migrated.Some? ==> ReadString(st'.config, spec.legacyKey) == None)
  {
    var legacy := ReadString(st.config, spec.legacyKey);
    if legacy.Some? && ReadString(st.config, spec.refKey) == None {
      NewRefHolds(st, spec, legacy.value, mint, cipher, access);
    }
  }

  /** Once the ref entry is written, with or without the legacy entry, it opens to the sealed key. */
  lemma NewRefHolds(st: Store, spec: ProviderKeySpec, plaintext: string, mint: Mint, cipher: Cipher, access: Access)
    requires Sound(cipher) && FreshMint(st, spec, mint) && spec.legacyKey != spec.refKey
    requires access.role in spec.allowedRoles
    ensures var secrets := Stored(st.secrets, KeyInput(spec, plaintext), mint, cipher);
      var config := st.config[spec.refKey := JsonString(NewRef(spec, mint))];
      && ReadString(config, spec.refKey) == Some(NewRef(spec, mint))
      && ReadString(config - {spec.legacyKey}, spec.refKey) == Some(NewRef(spec, mint))
      && Resolve(secrets, NewRef(spec, mint), access, cipher) == Success(Some(plaintext))
  {
    StoredResolves(st.secrets, KeyInput(spec, plaintext), mint, cipher, "", access);
    ReadBack(st.config, spec.refKey, NewRef(spec, mint));
  }

  /** A run that has reached provider `i`, seen from provider `k`. */
  ghost predicate Midway(
      start: Store, st: Store, specs: seq<ProviderKeySpec>, mints: seq<Mint>, cipher: Cipher, i: nat, k: nat,
      access: Access)
    requires i <= |specs| == |mints| && k < |specs|
  {
    && FreshMints(st, specs, mints, i)
    && Progress(start, st, specs[k], access, cipher)
    && (k < i ==> ReadString(st.config, specs[k].legacyKey) == None)
  }

  lemma StepProgresses(
      start: Store, st: Store, specs: seq<ProviderKeySpec>, mints: seq<Mint>, cipher: Cipher, i: nat, k: nat,
      access: Access)
    requires Sound(cipher) && i < |specs| == |mints| && k < |specs| && DistinctKeys(specs)
    requires access.role in specs[k].allowedRoles
    requires Midway(start, st, specs, mints, cipher, i, k, access)
    ensures var (st', migrated) := MigrateOne(st, specs[i], mints[i], cipher);
      && Progress(start, st', specs[k], access, cipher)
      && (migrated.Some? ==> Midway(start, st', specs, mints, cipher, i + 1, k, access))
  {
    FreshAfterOne(st, specs, mints, cipher, i);
    assert FreshMint(st, specs[i], mints[i]);
    if k == i {
      MigrateOneProgresses(start, st, specs[i], mints[i], cipher, access);
    } else {
      MigrateOneKeepsConfig(st, specs[i], mints[i], cipher, specs[k].legacyKey);
      MigrateOneLeavesOthers(start, st, specs[i], mints[i], cipher, specs[k], access);
    }
  }

  lemma {:induction false} MigrateFromProgresses(
      start: Store, st: Store, specs: seq<ProviderKeySpec>, mints: seq<Mint>, cipher: Cipher, i: nat, count: nat,
      k: nat, access: Access)
    requires Sound(cipher) && i <= |specs| == |mints| && k < |specs| && DistinctKeys(specs)
    requires access.role in specs[k].allowedRoles
    requires Midway(start, st, specs, mints, cipher, i, k, access)
    ensures var r := MigrateFrom(st, specs, mints, cipher, i, count);
      && Progress(start, r.0, specs[k], access, cipher)
      && (r.1.Some? ==> ReadString(r.0.config, specs[k].legacyKey) == None)
    decreases |specs| - i
  {
    if i < |specs| {
      StepProgresses(start, st, specs, mints, cipher, i, k, access);
      var one := MigrateOne(st, specs[i], mints[i], cipher);
      if one.1.Some? {
        MigrateFromProgresses(
          start, one.0, specs, mints, cipher, i + 1, if one.1.value then count + 1 else count, k, access);
      }
    }
  }

  /** A provider without a legacy entry costs no write, one with a stored ref one, and any other four. */
  lemma MigrateOneCompletesIff(st: Store, spec: ProviderKeySpec, mint: Mint, cipher: Cipher)
    ensures var (st', migrated) := MigrateOne(st, spec, mint, cipher);
      var legacy, ref := ReadString(st.config, spec.legacyKey), ReadString(st.config, spec.refKey);
      var cost := if legacy == None then 0 else if ref.Some? then 1 else 4;
      && (migrated.Some? <==> st.budget >= cost)
      && (migrated.Some? ==> migrated.value == legacy.Some?)
      && st'.budget == if migrated.Some? then st.budget - cost else 0
  {
  }

  lemma {:induction false} EnoughBudgetCompletes(
      st: Store, specs: seq<ProviderKeySpec>, mints: seq<Mint>, cipher: Cipher, i: nat, count: nat)
    requires i <= |specs| == |mints| && st.budget >= 4 * (|specs| - i)
    ensures MigrateFrom(st, specs, mints, cipher, i, count).1.Some?
    decreases |specs| - i
  {
    if i < |specs| {
      var (st', migrated) := MigrateOne(st, specs[i], mints[i], cipher);
      EnoughBudgetCompletes(st', specs, mints, cipher, i + 1, if migrated == Some(true) then count + 1 else count);
    }
  }

  /** How many providers from `i` on still have a non-blank legacy entry. */
  function LegacyCount(config: Config, specs: seq<ProviderKeySpec>, i: nat): nat
    requires i <= |specs|
    decreases |specs| - i
  {
    if i == |specs| then 0
    else (if ReadString(config, specs[i].legacyKey).Some? then 1 else 0) + LegacyCount(config, specs, i + 1)
  }

  lemma {:induction false} LegacyCountFrame(config: Config, config': Config, specs: seq<ProviderKeySpec>, i: nat)
    requires i <= |specs|
    requires forall k :: i <= k < |specs| ==>
      ReadString(config', specs[k].legacyKey) == ReadString(config, specs[k].legacyKey)
    ensures LegacyCount(config', specs, i) == LegacyCount(config, specs, i)
    decreases |specs| - i
  {
    if i < |specs| {
      LegacyCountFrame(config, config', specs, i + 1);
    }
  }

  /** A completed run reports how many legacy entries there were, migrated or merely removed. */
  lemma {:induction false} CompletedRunCounts(
      st: Store, specs: seq<ProviderKeySpec>, mints: seq<Mint>, cipher: Cipher, i: nat, count: nat)
    requires i <= |specs| == |mints| && DistinctKeys(specs)
    ensures var done := MigrateFrom(st, specs, mints, cipher, i, count).1;
      done.Some? ==> done.value == count + LegacyCount(st.config, specs, i)
    decreases |specs| - i
  {
    if i < |specs| {
      var one := MigrateOne(st, specs[i], mints[i], cipher);
      if one.1.Some? {
        CompletedRunCounts(one.0, specs, mints, cipher, i + 1, if one.1.value then count + 1 else count);
        forall k | i + 1 <= k < |specs|
          ensures ReadString(one.0.config, specs[k].legacyKey) == ReadString(st.config, specs[k].legacyKey)
        {
          MigrateOneKeepsConfig(st, specs[i], mints[i], cipher, specs[k].legacyKey);
        }
        LegacyCountFrame(st.config, one.0.config, specs, i + 1);
      }
    }
  }

  /** One run after another, each with its own budget; any of them may stop at any write. */
  datatype Attempt = Attempt(mints: seq<Mint>, budget: nat)

  function Attempts(st: Store, specs: seq<ProviderKeySpec>, attempts: seq<Attempt>, cipher: Cipher): Store
    requires forall a :: a in attempts ==> |a.mints| == |specs|
    decreases |attempts|
  {
    if attempts == [] then st
    else
      var before, last := Attempts(st, specs, attempts[..|attempts| - 1], cipher), attempts[|attempts| - 1];
      MigrateFrom(before.(budget := last.budget), specs, last.mints, cipher, 0, 0).0
  }

  ghost predicate FreshAttempts(st: Store, specs: seq<ProviderKeySpec>, attempts: seq<Attempt>, cipher: Cipher)
    requires forall a :: a in attempts ==> |a.mints| == |specs|
    decreases |attempts|
  {
    attempts != [] ==>
      var before, last := attempts[..|attempts| - 1], attempts[|attempts| - 1];
      FreshAttempts(st, specs, before, cipher) && FreshMints(Attempts(st, specs, before, cipher), specs, last.mints, 0)
  }

  lemma {:induction false} AttemptsProgress(
      st: Store, specs: seq<ProviderKeySpec>, attempts: seq<Attempt>, cipher: Cipher, k: nat, access: Access)
    requires Sound(cipher) && DistinctKeys(specs) && k < |specs| && access.role in specs[k].allowedRoles
    requires forall a :: a in attempts ==> |a.mints| == |specs|
    requires FreshAttempts(st, specs, attempts, cipher)
    ensures Progress(st, Attempts(st, specs, attempts, cipher), specs[k], access, cipher)
    decreases |attempts|
  {
    if attempts != [] {
      var last := attempts[|attempts| - 1];
      AttemptsProgress(st, specs, attempts[..|attempts| - 1], cipher, k, access);
      var before := Attempts(st, specs, attempts[..|attempts| - 1], cipher);
      ProgressFrame(st, before, before.(budget := last.budget), specs[k], access, cipher);
      MigrateFromProgresses(st, before.(budget := last.budget), specs, last.mints, cipher, 0, 0, k, access);
    }
  }

  /** At every crash point of every run, a key that could be had at the start still can be. */
  lemma KeySurvivesEveryCrash(
      st: Store, specs: seq<ProviderKeySpec>, attempts: seq<Attempt>, cipher: Cipher, k: nat, access: Access)
    requires Sound(cipher) && DistinctKeys(specs) && k < |specs| && access.role in specs[k].allowedRoles
    requires forall a :: a in attempts ==> |a.mints| == |specs|
    requires FreshAttempts(st, specs, attempts, cipher)
    requires var ref := ReadString(st.config, specs[k].refKey);
      if ref.Some? then Opens(st.secrets, ref.value, access, cipher)
      else ReadString(st.config, specs[k].legacyKey).Some?
    ensures HasKey(Attempts(st, specs, attempts, cipher), specs[k], access, cipher)
  {
    AttemptsProgress(st, specs, attempts, cipher, k, access);
  }

  /**
   After any number of stopped runs, one run with enough writes finishes the migration: no non-blank
   legacy entry is left, an existing ref is untouched, and a new ref opens to the trimmed legacy key.
   */
  lemma RerunsConverge(
      st: Store, specs: seq<ProviderKeySpec>, attempts: seq<Attempt>, cipher: Cipher, k: nat, access: Access)
    requires Sound(cipher) && DistinctKeys(specs) && k < |specs| && access.role in specs[k].allowedRoles
    requires forall a :: a in attempts ==> |a.mints| == |specs|
    requires FreshAttempts(st, specs, attempts, cipher)
    requires attempts != [] && attempts[|attempts| - 1].budget >= 4 * |specs|
    ensures var end := Attempts(st, specs, attempts, cipher);
      var legacy, ref := ReadString(st.config, specs[k].legacyKey), ReadString(st.config, specs[k].refKey);
      && ReadString(end.config, specs[k].legacyKey) == None
      && (ref.Some? || legacy == None ==> ReadString(end.config, specs[k].refKey) == ref)
      && (ref == None && legacy.Some? ==> Holds(end, specs[k], legacy.value, access, cipher))
  {
    var last := attempts[|attempts| - 1];
    var before := Attempts(st, specs, attempts[..|attempts| - 1], cipher);
    AttemptsProgress(st, specs, attempts[..|attempts| - 1], cipher, k, access);
    ProgressFrame(st, before, before.(budget := last.budget), specs[k], access, cipher);
    MigrateFromProgresses(st, before.(budget := last.budget), specs, last.mints, cipher, 0, 0, k, access);
    EnoughBudgetCompletes(before.(budget := last.budget), specs, last.mints, cipher, 0, 0);
  }

  /** Once no legacy entry is left, a run changes nothing and reports zero. */
  lemma {:induction false} MigratedIsFinal(
      st: Store, specs: seq<ProviderKeySpec>, mints: seq<Mint>, cipher: Cipher, i: nat, count: nat)
    requires i <= |specs| == |mints|
    requires forall k :: 0 <= k < |specs| ==> ReadString(st.config, specs[k].legacyKey) == None
    ensures MigrateFrom(st, specs, mints, cipher, i, count) == (st, Some(count))
    decreases |specs| - i
  {
    if i < |specs| {
      MigratedIsFinal(st, specs, mints, cipher, i + 1, count);
    }
  }

  /**
   The key survives every crash point exactly when no ref was stored or the stored ref opens: the
   migration trusts a stored ref without resolving it.
   */
  lemma KeySurvivesIff(st: Store, spec: ProviderKeySpec, mint: Mint, cipher: Cipher, access: Access)
    requires Sound(cipher) && FreshMint(st, spec, mint) && spec.legacyKey != spec.refKey
    requires access.role in spec.allowedRoles && ReadString(st.config, spec.legacyKey).Some?
    ensures var ref := ReadString(st.config, spec.refKey);
      (forall n: nat :: HasKey(MigrateOne(st.(budget := n), spec, mint, cipher).0, spec, access, cipher))
      <==> ref == None || Opens(st.secrets, ref.value, access, cipher)
  {
    var ref := ReadString(st.config, spec.refKey);
    forall n: nat | ref == None || Opens(st.secrets, ref.value, access, cipher)
      ensures HasKey(MigrateOne(st.(budget := n), spec, mint, cipher).0, spec, access, cipher)
    {
      MigrateOneProgresses(st, st.(budget := n), spec, mint, cipher, access);
    }
    if ref.Some? && !Opens(st.secrets, ref.value, access, cipher) {
      assert !HasKey(MigrateOne(st.(budget := 1), spec, mint, cipher).0, spec, access, cipher);
    }
  }

  // ---------------------------------------------------------------------------------------------
  // What a migrated key is registered as, and who may read it
  // ---------------------------------------------------------------------------------------------

  /** A ref that appeared since the start is the one the vault registry has for the provider. */
  ghost predicate Linked(start: Store, st: Store, spec: ProviderKeySpec) {
    var ref := ReadString(st.config, spec.refKey);
    ReadString(start.config, spec.refKey) == None && ref.Some? ==> Lookup(st.registry, spec.vaultName) == ref
  }

  ghost predicate DistinctVaults(specs: seq<ProviderKeySpec>) {
    forall i, j :: 0 <= i < j < |specs| ==> specs[i].vaultName != specs[j].vaultName
  }

  lemma ProviderVaultsAreDistinct()
    ensures DistinctVaults(PROVIDER_KEY_SPECS)
  {
    assert "anthropic_api_key"[0] == 'a' && "gemini_api_key"[0] == 'g' && "elevenlabs_api_key"[0] == 'e';
    assert "openrouter_api_key"[4] == 'r' && "openai_api_key"[4] == 'a';
  }

  /** It changes the registry for its own vault name only. */
  lemma MigrateOneKeepsRegistry(st: Store, spec: ProviderKeySpec, mint: Mint, cipher: Cipher, name: string)
    requires name != spec.vaultName
    ensures Lookup(MigrateOne(st, spec, mint, cipher).0.registry, name) == Lookup(st.registry, name)
  {
    LookupAfterUpsert(st.registry, Entry(spec.vaultName, NewRef(spec, mint)), name);
  }

  lemma MigrateOneLinks(start: Store, st: Store, spec: ProviderKeySpec, mint: Mint, cipher: Cipher)
    requires Linked(start, st, spec) && FreshMint(st, spec, mint) && spec.legacyKey != spec.refKey
    ensures Linked(start, MigrateOne(st, spec, mint, cipher).0, spec)
  {
    LookupAfterUpsert(st.registry, Entry(spec.vaultName, NewRef(spec, mint)), spec.vaultName);
    ReadBack(st.config, spec.refKey, if NewRef(spec, mint) != [] then NewRef(spec, mint) else "-");
  }

  lemma StepLinks(
      start: Store, st: Store, specs: seq<ProviderKeySpec>, mints: seq<Mint>, cipher: Cipher, i: nat, k: nat)
    requires i < |specs| == |mints| && k < |specs| && DistinctKeys(specs) && DistinctVaults(specs)
    requires FreshMints(st, specs, mints, i) && Linked(start, st, specs[k])
    ensures var st' := MigrateOne(st, specs[i], mints[i], cipher).0;
      Linked(start, st', specs[k]) && FreshMints(st', specs, mints, i + 1)
  {
    FreshAfterOne(st, specs, mints, cipher, i);
    assert FreshMint(st, specs[i], mints[i]);
    if k == i {
      MigrateOneLinks(start, st, specs[i], mints[i], cipher);
    } else {
      MigrateOneKeepsConfig(st, specs[i], mints[i], cipher, specs[k].refKey);
      MigrateOneKeepsRegistry(st, specs[i], mints[i], cipher, specs[k].vaultName);
    }
  }

  lemma {:induction false} MigrateFromLinks(
      start: Store, st: Store, specs: seq<ProviderKeySpec>, mints: seq<Mint>, cipher: Cipher, i: nat, count: nat,
      k: nat)
    requires i <= |specs| == |mints| && k < |specs| && DistinctKeys(specs) && DistinctVaults(specs)
    requires FreshMints(st, specs, mints, i) && Linked(start, st, specs[k])
    ensures Linked(start, MigrateFrom(st, specs, mints, cipher, i, count).0, specs[k])
    decreases |specs| - i
  {
    if i < |specs| {
      StepLinks(start, st, specs, mints, cipher, i, k);
      var one := MigrateOne(st, specs[i], mints[i], cipher);
      if one.1.Some? {
        MigrateFromLinks(start, one.0, specs, mints, cipher, i + 1, if one.1.value then count + 1 else count, k);
      }
    }
  }

  /** At every crash point of every run, a ref the migration stored is in the vault registry under its vault name. */
  lemma {:induction false} MigratedRefIsRegistered(
      st: Store, specs: seq<ProviderKeySpec>, attempts: seq<Attempt>, cipher: Cipher, k: nat)
    requires DistinctKeys(specs) && DistinctVaults(specs) && k < |specs|
    requires forall a :: a in attempts ==> |a.mints| == |specs|
    requires FreshAttempts(st, specs, attempts, cipher)
    ensures Linked(st, Attempts(st, specs, attempts, cipher), specs[k])
    decreases |attempts|
  {
    if attempts != [] {
      var last := attempts[|attempts| - 1];
      MigratedRefIsRegistered(st, specs, attempts[..|attempts| - 1], cipher, k);
      var before := Attempts(st, specs, attempts[..|attempts| - 1], cipher);
      assert FreshMints(before, specs, last.mints, 0) ==>
          FreshMints(before.(budget := last.budget), specs, last.mints, 0) by {
        forall j | FreshMints(before, specs, last.mints, 0) && 0 <= j < |specs|
          ensures FreshMint(before.(budget := last.budget), specs[j], last.mints[j])
        {
          assert FreshMint(before, specs[j], last.mints[j]);
        }
      }
      MigrateFromLinks(st, before.(budget := last.budget), specs, last.mints, cipher, 0, 0, k);
    }
  }

  /** A migrated key is sealed for the roles of its provider and nobody else, and for any guest. */
  lemma MigratedKeyAdmits(st: Store, spec: ProviderKeySpec, mint: Mint, cipher: Cipher, access: Access)
    requires Sound(cipher) && FreshMint(st, spec, mint) && spec.legacyKey != spec.refKey && spec.allowedRoles != []
    requires ReadString(st.config, spec.legacyKey).Some? && ReadString(st.config, spec.refKey) == None
    requires st.budget >= 4
    ensures var st' := MigrateOne(st, spec, mint, cipher).0;
      && ReadString(st'.config, spec.refKey) == Some(NewRef(spec, mint))
      && (Resolve(st'.secrets, NewRef(spec, mint), access, cipher).Success? <==> access.role in spec.allowedRoles)
  {
    var plaintext := ReadString(st.config, spec.legacyKey).value;
    StoredResolves(st.secrets, KeyInput(spec, plaintext), mint, cipher, "", access);
    ReadBack(st.config, spec.refKey, NewRef(spec, mint));
  }
}
