/**
 Mesh membership over whole runs: invites created under fresh nonces, joins whose writes succeed, and
 unrelated config writes in between. Reads, and the removal of an expired invite, may still fail.
 */
module MembershipRuns {
  import opened Wrappers
  import opened Graph
  import opened Membership

  datatype MeshStep =
    | Create(nonce: string, localHotel: string, now: nat, ttl: nat)
    | Join(request: JoinRequest, now: nat, faults: Faults)
    | Elsewhere(key: string, value: Value)

  datatype Admission = Admission(nonce: string, hotel: Hotel, publicKey: string, sessionKey: string, at: nat)

  /** The store, every admission in order, and the expiry of every invite ever created. */
  datatype History = History(mesh: Mesh, admissions: seq<Admission>, issued: map<string, nat>)

  predicate WritesSucceed(f: Faults) {
    !f.writePin && !f.writeAuth && !f.writeHotel && !f.writeAccepted
  }

  ghost predicate Foreign(key: string) {
    forall s :: key != PendingKey(s) && key != PinKey(s) && key != AuthKey(s)
  }

  ghost predicate Enabled(h: History, step: MeshStep) {
    match step
    case Create(nonce, _, _, _) => nonce !in h.issued
    case Join(_, _, f) => WritesSucceed(f)
    case Elsewhere(key, _) => Foreign(key)
  }

  ghost function Next(h: History, step: MeshStep, crypto: Crypto): History {
    match step
    case Create(nonce, localHotel, now, ttl) =>
      h.(mesh := Invite(h.mesh, nonce, localHotel, now, ttl), issued := h.issued[nonce := now + ttl])
    case Join(r, now, f) =>
      var v := Vet(h.mesh, r, now, crypto, f);
      h.(mesh := Accept(h.mesh, r, now, crypto, f),
         admissions := if v.Admissible?
                       then h.admissions + [Admission(r.nonce, r.hotel, r.publicKey, v.sessionKey, now)]
                       else h.admissions)
    case Elsewhere(key, value) => h.(mesh := h.mesh.(config := h.mesh.config[key := value]))
  }

  /** The latest admission of a node, and of a hotel. */
  ghost function LastOn(admissions: seq<Admission>, nodeId: string): Option<Admission> {
    if admissions == [] then None
    else
      var last := admissions[|admissions| - 1];
      if last.hotel.nodeId == nodeId then Some(last) else LastOn(admissions[..|admissions| - 1], nodeId)
  }

  ghost function LastOf(admissions: seq<Admission>, name: string): Option<Admission> {
    if admissions == [] then None
    else
      var last := admissions[|admissions| - 1];
      if last.hotel.name == name then Some(last) else LastOf(admissions[..|admissions| - 1], name)
  }

  predicate IsOpen(config: Config, nonce: string) {
    PendingKey(nonce) in config && config[PendingKey(nonce)].asDoc.Some?
    && config[PendingKey(nonce)].asDoc.value.status == Some("pending")
  }

  predicate IsAccepted(config: Config, nonce: string) {
    PendingKey(nonce) in config && config[PendingKey(nonce)].asDoc.Some?
    && config[PendingKey(nonce)].asDoc.value.status == Some("accepted")
  }

  // ---------------------------------------------------------------------------------------------
  // The invariant
  // ---------------------------------------------------------------------------------------------

  /** Only issued nonces have invites, and an open invite carries the expiry it was issued with. */
  ghost predicate InvitesKnown(h: History) {
    forall n :: PendingKey(n) in h.mesh.config ==>
      n in h.issued
      && (IsOpen(h.mesh.config, n) ==> h.mesh.config[PendingKey(n)].asDoc.value.expiresAt == Some(h.issued[n]))
  }

  /** An invite admitted at most one hotel, before it expired, and is marked accepted. */
  ghost predicate InvitesSpentOnce(h: History) {
    && (forall i, j :: 0 <= i < j < |h.admissions| ==> h.admissions[i].nonce != h.admissions[j].nonce)
    && (forall a :: a in h.admissions ==>
          a.nonce in h.issued && a.at <= h.issued[a.nonce] && IsAccepted(h.mesh.config, a.nonce))
  }

  /** Every admitted hotel's key is still pinned. */
  ghost predicate PinsHold(h: History) {
    forall a :: a in h.admissions ==> ReadString(h.mesh.config, PinKey(a.hotel.name)) == Some(a.publicKey)
  }

  /** A node's auth key, and a hotel's record, are those of its latest admission. */
  ghost predicate LatestHolds(h: History) {
    && (forall n :: LastOn(h.admissions, n).Some? ==>
          ReadString(h.mesh.config, AuthKey(n)) == Some(LastOn(h.admissions, n).value.sessionKey))
    && (forall n :: LastOf(h.admissions, n).Some? ==>
          n in h.mesh.hotels && h.mesh.hotels[n] == LastOf(h.admissions, n).value.hotel)
  }

  ghost predicate Inv(h: History) {
    InvitesKnown(h) && InvitesSpentOnce(h) && PinsHold(h) && LatestHolds(h)
  }

  // ---------------------------------------------------------------------------------------------
  // What a config write leaves alone
  // ---------------------------------------------------------------------------------------------

  /** Two configs that agree on everything the invariant reads, except one invite. */
  ghost predicate AgreeExcept(c: Config, c': Config, nonce: string) {
    && (forall n :: n != nonce ==>
          && (PendingKey(n) in c <==> PendingKey(n) in c')
          && (PendingKey(n) in c ==> c'[PendingKey(n)] == c[PendingKey(n)]))
    && (forall n :: ReadString(c', PinKey(n)) == ReadString(c, PinKey(n)))
    && (forall n :: ReadString(c', AuthKey(n)) == ReadString(c, AuthKey(n)))
  }

  lemma PendingWriteAgrees(c: Config, nonce: string, value: Value)
    ensures AgreeExcept(c, c[PendingKey(nonce) := value], nonce)
    ensures AgreeExcept(c, c - {PendingKey(nonce)}, nonce)
  {
    forall n ensures PendingKey(nonce) == PendingKey(n) ==> n == nonce
      ensures PendingKey(nonce) != PinKey(n) && PendingKey(nonce) != AuthKey(n)
    {
      KeyFamiliesAreDisjoint(nonce, n);
    }
  }

  lemma AgreementKeepsInv(h: History, h': History, nonce: string)
    requires Inv(h) && AgreeExcept(h.mesh.config, h'.mesh.config, nonce)
    requires h'.mesh.hotels == h.mesh.hotels && h'.admissions == h.admissions
    requires forall n :: n in h.issued ==> n in h'.issued && h'.issued[n] == h.issued[n]
    requires PendingKey(nonce) in h'.mesh.config ==> nonce in h'.issued
    requires IsOpen(h'.mesh.config, nonce) ==>
      h'.mesh.config[PendingKey(nonce)].asDoc.value.expiresAt == Some(h'.issued[nonce])
    requires IsAccepted(h.mesh.config, nonce) ==> IsAccepted(h'.mesh.config, nonce)
    ensures Inv(h')
  {
    assert InvitesKnown(h') by {
      forall n | PendingKey(n) in h'.mesh.config && n != nonce
        ensures n in h'.issued
        ensures IsOpen(h'.mesh.config, n) ==> h'.mesh.config[PendingKey(n)].asDoc.value.expiresAt == Some(h'.issued[n])
      {
        assert PendingKey(n) in h.mesh.config && h'.mesh.config[PendingKey(n)] == h.mesh.config[PendingKey(n)];
      }
    }
    assert InvitesSpentOnce(h') by {
      forall a | a in h.admissions ensures IsAccepted(h'.mesh.config, a.nonce) {
        assert IsAccepted(h.mesh.config, a.nonce);
      }
    }
    assert PinsHold(h');
    assert LatestHolds(h');
  }

  lemma CreateKeepsInv(h: History, step: MeshStep, crypto: Crypto)
    requires Inv(h) && step.Create? && Enabled(h, step)
    ensures Inv(Next(h, step, crypto))
  {
    PendingWriteAgrees(h.mesh.config, step.nonce, PendingDoc(step.localHotel, step.now, step.ttl));
    AgreementKeepsInv(h, Next(h, step, crypto), step.nonce);
  }

  lemma ForeignWriteAgrees(c: Config, key: string, value: Value, nonce: string)
    requires Foreign(key)
    ensures AgreeExcept(c, c[key := value], nonce)
    ensures PendingKey(nonce) in c <==> PendingKey(nonce) in c[key := value]
    ensures PendingKey(nonce) in c ==> c[key := value][PendingKey(nonce)] == c[PendingKey(nonce)]
  {
  }

  lemma ElsewhereKeepsInv(h: History, step: MeshStep, crypto: Crypto)
    requires Inv(h) && step.Elsewhere? && Enabled(h, step)
    ensures Inv(Next(h, step, crypto))
  {
    ForeignWriteAgrees(h.mesh.config, step.key, step.value, "");
    AgreementKeepsInv(h, Next(h, step, crypto), "");
  }

  /** What the four writes of an admission leave in the config. */
  ghost predicate Admitted(c: Config, c': Config, a: Admission) {
    && (forall n :: ReadString(c', PinKey(n))
                 == if n == a.hotel.name then Some(a.publicKey) else ReadString(c, PinKey(n)))
    && (forall n :: ReadString(c', AuthKey(n))
                 == if n == a.hotel.nodeId then Some(a.sessionKey) else ReadString(c, AuthKey(n)))
    && IsAccepted(c', a.nonce)
    && (forall n :: n != a.nonce ==>
          && (PendingKey(n) in c <==> PendingKey(n) in c')
          && (PendingKey(n) in c ==> c'[PendingKey(n)] == c[PendingKey(n)]))
  }

  lemma AdmissionWrites(c: Config, r: JoinRequest, v: Verdict, now: nat)
    requires v.Admissible? && Trim(r.publicKey) == r.publicKey != [] && Trim(v.sessionKey) == v.sessionKey != []
    ensures var pinned := c[PinKey(r.hotel.name) := JsonString(r.publicKey)];
      var keyed := pinned[AuthKey(r.hotel.nodeId) := JsonString(v.sessionKey)];
      var c' := keyed[PendingKey(r.nonce) := AcceptedDoc(r, v)];
      Admitted(c, c', Admission(r.nonce, r.hotel, r.publicKey, v.sessionKey, now))
  {
    var pin, auth, pending := PinKey(r.hotel.name), AuthKey(r.hotel.nodeId), PendingKey(r.nonce);
    KeyFamiliesAreDisjoint(r.nonce, r.hotel.name);
    KeyFamiliesAreDisjoint(r.nonce, r.hotel.nodeId);
    KeyFamiliesAreDisjoint(r.hotel.name, r.hotel.nodeId);
    forall n ensures PinKey(n) != auth && PinKey(n) != pending && (PinKey(n) == pin ==> n == r.hotel.name) {
      KeyFamiliesAreDisjoint(n, r.hotel.nodeId);
      KeyFamiliesAreDisjoint(r.nonce, n);
      KeyFamiliesAreDisjoint(n, r.hotel.name);
    }
    forall n ensures AuthKey(n) != pin && AuthKey(n) != pending && (AuthKey(n) == auth ==> n == r.hotel.nodeId) {
      KeyFamiliesAreDisjoint(r.hotel.name, n);
      KeyFamiliesAreDisjoint(r.nonce, n);
      KeyFamiliesAreDisjoint(n, r.hotel.nodeId);
    }
    forall n ensures PendingKey(n) != pin && PendingKey(n) != auth && (PendingKey(n) == pending ==> n == r.nonce) {
      KeyFamiliesAreDisjoint(n, r.hotel.name);
      KeyFamiliesAreDisjoint(n, r.hotel.nodeId);
      KeyFamiliesAreDisjoint(n, r.nonce);
    }
    ThreeWrites(c, pin, JsonString(r.publicKey), auth, JsonString(v.sessionKey), pending, AcceptedDoc(r, v));
  }

  lemma ThreeWrites(c: Config, p: string, x: Value, q: string, y: Value, s: string, z: Value)
    requires p != q && p != s && q != s
    ensures var c' := c[p := x][q := y][s := z];
      && p in c' && c'[p] == x && q in c' && c'[q] == y && s in c' && c'[s] == z
      && (forall k :: k != p && k != q && k != s ==> (k in c <==> k in c') && ReadString(c', k) == ReadString(c, k))
      && (forall k :: k != p && k != q && k != s && k in c ==> c'[k] == c[k])
  {
  }

  /** An admissible join is signed, complete, and found an open, unexpired invite and no other key pinned. */
  lemma AdmissibleMeans(mesh: Mesh, r: JoinRequest, now: nat, crypto: Crypto, f: Faults)
    requires Sound(crypto) && Vet(mesh, r, now, crypto, f).Admissible?
    ensures crypto.verify(r) && crypto.fingerprintOf(r.publicKey) == Some(r.fingerprint)
    ensures !Blank(r.hotel.name) && !Blank(r.hotel.nodeId) && !Blank(r.hotel.meshHost)
    ensures IsOpen(mesh.config, r.nonce)
    ensures OrElse(mesh.config[PendingKey(r.nonce)].asDoc.value.expiresAt, 0) >= now
    ensures ReadString(mesh.config, PinKey(r.hotel.name)) in {None, Some(r.publicKey)}
    ensures Trim(r.publicKey) == r.publicKey != []
    ensures var k := Vet(mesh, r, now, crypto, f).sessionKey; Trim(k) == k != []
  {
  }

  /** An admission that found its invite open, seen without the writes that made it. */
  ghost predicate AdmissionStep(h: History, h': History, a: Admission) {
    && Admitted(h.mesh.config, h'.mesh.config, a)
    && IsOpen(h.mesh.config, a.nonce)
    && OrElse(h.mesh.config[PendingKey(a.nonce)].asDoc.value.expiresAt, 0) >= a.at
    && ReadString(h.mesh.config, PinKey(a.hotel.name)) in {None, Some(a.publicKey)}
    && h'.mesh.hotels == h.mesh.hotels[a.hotel.name := a.hotel]
    && h'.admissions == h.admissions + [a] && h'.issued == h.issued
  }

  lemma JoinIsAdmissionStep(h: History, step: MeshStep, crypto: Crypto) returns (a: Admission)
    requires step.Join? && Enabled(h, step) && Sound(crypto)
    requires Vet(h.mesh, step.request, step.now, crypto, step.faults).Admissible?
    ensures AdmissionStep(h, Next(h, step, crypto), a)
  {
    var r, v := step.request, Vet(h.mesh, step.request, step.now, crypto, step.faults);
    a := Admission(r.nonce, r.hotel, r.publicKey, v.sessionKey, step.now);
    AdmissibleMeans(h.mesh, r, step.now, crypto, step.faults);
    AdmissionWrites(h.mesh.config, r, v, step.now);
  }

  lemma AdmissionKeepsInvites(h: History, h': History, a: Admission)
    requires InvitesKnown(h) && InvitesSpentOnce(h) && AdmissionStep(h, h', a)
    ensures InvitesKnown(h') && InvitesSpentOnce(h')
  {
    assert a.nonce in h.issued && a.at <= h.issued[a.nonce];
    assert !IsOpen(h'.mesh.config, a.nonce);
    forall b | b in h.admissions ensures b.nonce != a.nonce && IsAccepted(h'.mesh.config, b.nonce) {
      assert IsAccepted(h.mesh.config, b.nonce);
    }
  }

  lemma AdmissionKeepsPins(h: History, h': History, a: Admission)
    requires PinsHold(h) && AdmissionStep(h, h', a)
    ensures PinsHold(h')
  {
    forall b | b in h'.admissions ensures ReadString(h'.mesh.config, PinKey(b.hotel.name)) == Some(b.publicKey) {
      if b in h.admissions {
        assert ReadString(h.mesh.config, PinKey(b.hotel.name)) == Some(b.publicKey);
      }
    }
  }

  lemma AdmissionKeepsLatest(h: History, h': History, a: Admission)
    requires LatestHolds(h) && AdmissionStep(h, h', a)
    ensures LatestHolds(h')
  {
    assert h'.admissions[..|h'.admissions| - 1] == h.admissions;
    forall n ensures LastOn(h'.admissions, n) == if n == a.hotel.nodeId then Some(a) else LastOn(h.admissions, n)
      ensures LastOf(h'.admissions, n) == if n == a.hotel.name then Some(a) else LastOf(h.admissions, n)
    {
    }
  }

  lemma AdmissionKeepsInv(h: History, step: MeshStep, crypto: Crypto)
    requires Inv(h) && step.Join? && Enabled(h, step) && Sound(crypto)
    requires Vet(h.mesh, step.request, step.now, crypto, step.faults).Admissible?
    ensures Inv(Next(h, step, crypto))
  {
    var a := JoinIsAdmissionStep(h, step, crypto);
    AdmissionKeepsInvites(h, Next(h, step, crypto), a);
    AdmissionKeepsPins(h, Next(h, step, crypto), a);
    AdmissionKeepsLatest(h, Next(h, step, crypto), a);
  }

  lemma ExpiryKeepsInv(h: History, step: MeshStep, crypto: Crypto)
    requires Inv(h) && step.Join? && Vet(h.mesh, step.request, step.now, crypto, step.faults).Expired?
    ensures Inv(Next(h, step, crypto))
  {
    ExpiredIsOpen(h.mesh, step.request, step.now, crypto, step.faults);
    if !step.faults.dropExpired {
      PendingWriteAgrees(h.mesh.config, step.request.nonce, JsonString(""));
      AgreementKeepsInv(h, Next(h, step, crypto), step.request.nonce);
    }
  }

  lemma NextKeepsInv(h: History, step: MeshStep, crypto: Crypto)
    requires Inv(h) && Enabled(h, step) && Sound(crypto)
    ensures Inv(Next(h, step, crypto))
  {
    match step
    case Create(_, _, _, _) => CreateKeepsInv(h, step, crypto);
    case Elsewhere(_, _) => ElsewhereKeepsInv(h, step, crypto);
    case Join(r, now, f) =>
      match Vet(h.mesh, r, now, crypto, f)
      case Rejected =>
      case Expired => ExpiryKeepsInv(h, step, crypto);
      case Admissible(_, _, _) => AdmissionKeepsInv(h, step, crypto);
  }

  lemma ExpiredIsOpen(mesh: Mesh, r: JoinRequest, now: nat, crypto: Crypto, f: Faults)
    requires Vet(mesh, r, now, crypto, f).Expired?
    ensures IsOpen(mesh.config, r.nonce)
  {
  }

  // ---------------------------------------------------------------------------------------------
  // Runs
  // ---------------------------------------------------------------------------------------------

  ghost function Run(h: History, steps: seq<MeshStep>, crypto: Crypto): History
    decreases |steps|
  {
    if steps == [] then h else Next(Run(h, steps[..|steps| - 1], crypto), steps[|steps| - 1], crypto)
  }

  ghost predicate ValidRun(h: History, steps: seq<MeshStep>, crypto: Crypto)
    decreases |steps|
  {
    steps != [] ==>
      var before := steps[..|steps| - 1];
      ValidRun(h, before, crypto) && Enabled(Run(h, before, crypto), steps[|steps| - 1])
  }

  /**
   Every run keeps the invariant: an invite admits at most one hotel and none after its expiry, an
   admitted hotel's key stays pinned, and its node has the auth key of that node's latest admission.
   */
  lemma {:induction false} RunsKeepInv(h: History, steps: seq<MeshStep>, crypto: Crypto)
    requires Inv(h) && Sound(crypto) && ValidRun(h, steps, crypto)
    ensures Inv(Run(h, steps, crypto))
    decreases |steps|
  {
    if steps != [] {
      RunsKeepInv(h, steps[..|steps| - 1], crypto);
      NextKeepsInv(Run(h, steps[..|steps| - 1], crypto), steps[|steps| - 1], crypto);
    }
  }

  /** What never comes back: an issued invite that is no longer open, and a pin that was ever set. */
  ghost predicate Irreversible(h: History, h': History) {
    && h.admissions <= h'.admissions
    && (forall n :: n in h.issued ==> n in h'.issued && h'.issued[n] == h.issued[n])
    && (forall n :: n in h.issued && !IsOpen(h.mesh.config, n) ==> !IsOpen(h'.mesh.config, n))
    && (forall n :: IsAccepted(h.mesh.config, n) ==> IsAccepted(h'.mesh.config, n))
    && (forall n :: ReadString(h.mesh.config, PinKey(n)).Some? ==>
          ReadString(h'.mesh.config, PinKey(n)) == ReadString(h.mesh.config, PinKey(n)))
  }

  lemma AgreementIsIrreversible(h: History, h': History, nonce: string)
    requires AgreeExcept(h.mesh.config, h'.mesh.config, nonce) && h'.admissions == h.admissions
    requires forall n :: n in h.issued ==> n in h'.issued && h'.issued[n] == h.issued[n]
    requires (nonce in h.issued && !IsOpen(h.mesh.config, nonce)) || IsAccepted(h.mesh.config, nonce) ==>
      PendingKey(nonce) in h.mesh.config && PendingKey(nonce) in h'.mesh.config
      && h'.mesh.config[PendingKey(nonce)] == h.mesh.config[PendingKey(nonce)]
    ensures Irreversible(h, h')
  {
  }

  lemma AdmissionIsIrreversible(h: History, h': History, a: Admission)
    requires AdmissionStep(h, h', a)
    ensures Irreversible(h, h')
  {
  }

  lemma NextIsIrreversible(h: History, step: MeshStep, crypto: Crypto)
    requires Inv(h) && Enabled(h, step) && Sound(crypto)
    ensures Irreversible(h, Next(h, step, crypto))
  {
    match step
    case Create(nonce, localHotel, now, ttl) =>
      PendingWriteAgrees(h.mesh.config, nonce, PendingDoc(localHotel, now, ttl));
      AgreementIsIrreversible(h, Next(h, step, crypto), nonce);
    case Elsewhere(key, value) =>
      forall n {
        ForeignWriteAgrees(h.mesh.config, key, value, n);
      }
    case Join(r, now, f) =>
      match Vet(h.mesh, r, now, crypto, f)
      case Rejected =>
      case Expired =>
        ExpiredIsOpen(h.mesh, r, now, crypto, f);
        if !f.dropExpired {
          PendingWriteAgrees(h.mesh.config, r.nonce, JsonString(""));
          AgreementIsIrreversible(h, Next(h, step, crypto), r.nonce);
        }
      case Admissible(_, _, _) =>
        var a := JoinIsAdmissionStep(h, step, crypto);
        AdmissionIsIrreversible(h, Next(h, step, crypto), a);
  }

  lemma {:induction false} RunsAreIrreversible(h: History, steps: seq<MeshStep>, crypto: Crypto)
    requires Inv(h) && Sound(crypto) && ValidRun(h, steps, crypto)
    ensures Irreversible(h, Run(h, steps, crypto))
    decreases |steps|
  {
    if steps != [] {
      var before := steps[..|steps| - 1];
      RunsKeepInv(h, before, crypto);
      RunsAreIrreversible(h, before, crypto);
      NextIsIrreversible(Run(h, before, crypto), steps[|steps| - 1], crypto);
    }
  }

  lemma {:induction false} AdmittedHasRecord(admissions: seq<Admission>, a: Admission)
    requires a in admissions
    ensures LastOf(admissions, a.hotel.name).Some? && LastOf(admissions, a.hotel.name).value in admissions
    ensures LastOf(admissions, a.hotel.name).value.hotel.name == a.hotel.name
    ensures LastOn(admissions, a.hotel.nodeId).Some?
  {
    var rest := admissions[..|admissions| - 1];
    assert admissions == rest + [admissions[|admissions| - 1]];
    if a in rest {
      AdmittedHasRecord(rest, a);
    }
  }

  /** Every hotel admitted in a run is on record, with its key pinned and an auth key for its current node. */
  lemma AdmittedHotelsAreReachable(h: History, steps: seq<MeshStep>, crypto: Crypto)
    requires Inv(h) && Sound(crypto) && ValidRun(h, steps, crypto)
    ensures var end := Run(h, steps, crypto);
      forall a :: a in end.admissions ==>
        && a.hotel.name in end.mesh.hotels
        && ReadString(end.mesh.config, PinKey(a.hotel.name)) == Some(a.publicKey)
        && ReadString(end.mesh.config, AuthKey(end.mesh.hotels[a.hotel.name].nodeId)).Some?
  {
    RunsKeepInv(h, steps, crypto);
    var end := Run(h, steps, crypto);
    forall a | a in end.admissions
      ensures a.hotel.name in end.mesh.hotels
      ensures ReadString(end.mesh.config, AuthKey(end.mesh.hotels[a.hotel.name].nodeId)).Some?
    {
      AdmittedIsReachable(end, a);
    }
  }

  lemma AdmittedIsReachable(h: History, a: Admission)
    requires LatestHolds(h) && a in h.admissions
    ensures a.hotel.name in h.mesh.hotels
    ensures ReadString(h.mesh.config, AuthKey(h.mesh.hotels[a.hotel.name].nodeId)).Some?
  {
    AdmittedHasRecord(h.admissions, a);
    AdmittedHasRecord(h.admissions, LastOf(h.admissions, a.hotel.name).value);
  }

  /**
   What the next join does to the auth key of a hotel on record: it is replaced exactly when the
   joiner names that hotel's node id and derives another key. A node id is not pinned to a hotel.
   */
  lemma JoinReplacesAuthKeyIff(mesh: Mesh, r: JoinRequest, now: nat, crypto: Crypto, f: Faults, name: string)
    requires Sound(crypto) && WritesSucceed(f) && Vet(mesh, r, now, crypto, f).Admissible?
    requires name in mesh.hotels && name != r.hotel.name
    ensures var after, nodeId := Accept(mesh, r, now, crypto, f), mesh.hotels[name].nodeId;
      && name in after.hotels && after.hotels[name] == mesh.hotels[name]
      && (ReadString(after.config, AuthKey(nodeId)) != ReadString(mesh.config, AuthKey(nodeId))
          <==> r.hotel.nodeId == nodeId
               && ReadString(mesh.config, AuthKey(nodeId)) != Some(Vet(mesh, r, now, crypto, f).sessionKey))
  {
    AdmissibleMeans(mesh, r, now, crypto, f);
    AdmissionWrites(mesh.config, r, Vet(mesh, r, now, crypto, f), now);
  }

  /** A join on another invite, admissible before this one, still is after it, with the same keys. */
  lemma OtherInviteStaysAdmissible(
      mesh: Mesh, r: JoinRequest, now: nat, f: Faults, s: JoinRequest, later: nat, g: Faults, crypto: Crypto)
    requires WritesSucceed(f) && Vet(mesh, r, now, crypto, f).Admissible? && Vet(mesh, s, later, crypto, g).Admissible?
    requires r.nonce != s.nonce && r.hotel.name != s.hotel.name
    ensures Vet(Accept(mesh, r, now, crypto, f), s, later, crypto, g) == Vet(mesh, s, later, crypto, g)
  {
    var v := Vet(mesh, r, now, crypto, f);
    JoinLeavesVerdict(mesh, r, v, s, later, g, crypto);
    JoinedLeaves(mesh, r, v, s.nonce, s.hotel.name, "");
    MarkLeavesVerdict(Joined(mesh, r, v), r, v, s, later, g, crypto);
  }

  lemma MarkLeavesVerdict(
      mesh: Mesh, r: JoinRequest, v: Verdict, s: JoinRequest, later: nat, g: Faults, crypto: Crypto)
    requires v.Admissible? && s.nonce != r.nonce && PendingKey(s.nonce) in mesh.config
    ensures Vet(Marked(mesh, r, v), s, later, crypto, g) == Vet(mesh, s, later, crypto, g)
  {
    KeyFamiliesAreDisjoint(r.nonce, s.nonce);
    KeyFamiliesAreDisjoint(r.nonce, s.hotel.name);
    forall h ensures PendingKey(r.nonce) != PrivateRefKey(h) {
      KeyFamiliesAreDisjoint(r.nonce, h);
    }
    VetDependsOn(mesh, Marked(mesh, r, v), s, later, crypto, g);
  }

  /**
   A hotel that joined may join again under its own key: on another open invite its request fares
   exactly as it would have before, key and all.
   */
  lemma RejoinStaysAdmissible(
      mesh: Mesh, r: JoinRequest, now: nat, f: Faults, s: JoinRequest, later: nat, g: Faults, crypto: Crypto)
    requires Sound(crypto) && WritesSucceed(f)
    requires Vet(mesh, r, now, crypto, f).Admissible? && Vet(mesh, s, later, crypto, g).Admissible?
    requires r.nonce != s.nonce && r.hotel.name == s.hotel.name && r.publicKey == s.publicKey
    ensures Vet(Accept(mesh, r, now, crypto, f), s, later, crypto, g) == Vet(mesh, s, later, crypto, g)
  {
    var v := Vet(mesh, r, now, crypto, f);
    var joined := Joined(mesh, r, v);
    AdmissibleMeans(mesh, r, now, crypto, f);
    JoinPinsAndLeaves(mesh, r, v, s.nonce);
    OwnPinPasses(mesh, joined, s, later, crypto, g);
    MarkLeavesVerdict(joined, r, v, s, later, g, crypto);
  }

  /** What a join writes, seen from another invite: the hotel's own pin, and nothing of the invite or identities. */
  lemma JoinPinsAndLeaves(mesh: Mesh, r: JoinRequest, v: Verdict, nonce: string)
    requires v.Admissible? && Trim(r.publicKey) == r.publicKey != []
    ensures var after := Joined(mesh, r, v).config;
      && ReadString(after, PinKey(r.hotel.name)) == Some(r.publicKey)
      && (forall h :: ReadString(after, PrivateRefKey(h)) == ReadString(mesh.config, PrivateRefKey(h)))
      && (PendingKey(nonce) in mesh.config ==>
            PendingKey(nonce) in after && after[PendingKey(nonce)] == mesh.config[PendingKey(nonce)])
  {
    KeyFamiliesAreDisjoint(nonce, r.hotel.name);
    KeyFamiliesAreDisjoint(nonce, r.hotel.nodeId);
    KeyFamiliesAreDisjoint(r.hotel.name, r.hotel.nodeId);
    forall h ensures PinKey(r.hotel.name) != PrivateRefKey(h) && AuthKey(r.hotel.nodeId) != PrivateRefKey(h) {
      KeyFamiliesAreDisjoint(r.hotel.name, h);
      KeyFamiliesAreDisjoint(r.hotel.nodeId, h);
    }
  }

  /** A pin that is the joiner's own key counts for as little as no pin. */
  lemma OwnPinPasses(mesh: Mesh, mesh': Mesh, s: JoinRequest, now: nat, crypto: Crypto, f: Faults)
    requires Vet(mesh, s, now, crypto, f).Admissible?
    requires ReadString(mesh'.config, PinKey(s.hotel.name)) == Some(s.publicKey)
    requires PendingKey(s.nonce) in mesh.config && PendingKey(s.nonce) in mesh'.config
    requires mesh'.config[PendingKey(s.nonce)] == mesh.config[PendingKey(s.nonce)]
    requires forall h :: ReadString(mesh'.config, PrivateRefKey(h)) == ReadString(mesh.config, PrivateRefKey(h))
    ensures Vet(mesh', s, now, crypto, f) == Vet(mesh, s, now, crypto, f)
  {
  }

  /** Two hotels with one node id, each on an invite of its own: both stay on record, the second one's key wins. */
  lemma SecondHotelTakesNode(
      h: History, r: JoinRequest, now: nat, f: Faults, s: JoinRequest, later: nat, g: Faults, crypto: Crypto)
    requires Sound(crypto) && WritesSucceed(f) && WritesSucceed(g)
    requires Vet(h.mesh, r, now, crypto, f).Admissible? && Vet(h.mesh, s, later, crypto, g).Admissible?
    requires r.nonce != s.nonce && r.hotel.name != s.hotel.name && r.hotel.nodeId == s.hotel.nodeId
    ensures var end := Next(Next(h, Join(r, now, f), crypto), Join(s, later, g), crypto).mesh;
      && r.hotel.name in end.hotels && end.hotels[r.hotel.name] == r.hotel
      && s.hotel.name in end.hotels && end.hotels[s.hotel.name] == s.hotel
      && ReadString(end.config, AuthKey(r.hotel.nodeId)) == Some(Vet(h.mesh, s, later, crypto, g).sessionKey)
  {
    var mid := Accept(h.mesh, r, now, crypto, f);
    OtherInviteStaysAdmissible(h.mesh, r, now, f, s, later, g, crypto);
    AdmissibleMeans(mid, s, later, crypto, g);
    AdmissionWrites(mid.config, s, Vet(mid, s, later, crypto, g), later);
  }

  /** A complete join of an unpinned hotel on an open invite of hotel "h" passes the checks. */
  lemma CompleteJoinPasses(mesh: Mesh, r: JoinRequest, crypto: Crypto, f: Faults)
    requires !f.readInvite && !f.readPin && !f.readIdentity
    requires crypto.verify(r) && crypto.fingerprintOf(r.publicKey) == Some(r.fingerprint)
    requires !Blank(r.hotel.name) && !Blank(r.hotel.nodeId) && !Blank(r.hotel.meshHost) && !Blank("h")
    requires PendingKey(r.nonce) in mesh.config && mesh.config[PendingKey(r.nonce)] == PendingDoc("h", 0, 0)
    requires PinKey(r.hotel.name) !in mesh.config
    requires ReadString(mesh.config, PrivateRefKey("h")) == Some("k") && crypto.resolveSecret("k") == Some("k")
    requires crypto.derive(r.nonce, "k", r.transportKey).Some?
    ensures Vet(mesh, r, 0, crypto, f).Admissible?
    ensures Vet(mesh, r, 0, crypto, f).sessionKey == crypto.derive(r.nonce, "k", r.transportKey).value
  {
  }

  lemma TrimOne(c: char)
    requires !IsSpace(c)
    ensures Trim([c]) == [c]
  {
  }

  /** Stub cryptography for the witness below: one public key, and a session key of its own for invite "a". */
  lemma StubCrypto() returns (crypto: Crypto)
    ensures Sound(crypto) && crypto.fingerprintOf("k") == crypto.resolveSecret("k") == Some("k")
    ensures forall r: JoinRequest :: r.publicKey == "k" ==> crypto.verify(r)
    ensures forall n, p, t :: crypto.derive(n, p, t) == Some(if n == "a" then "x" else "y")
  {
    crypto := Crypto(
      (q: JoinRequest) => q.publicKey == "k",
      (k: string) => Some(k),
      (secretRef: string) => Some(secretRef),
      (n: string, p: string, t: string) => Some(if n == "a" then "x" else "y"));
    TrimOne('k');
    TrimOne('x');
    TrimOne('y');
  }

  /** A mesh whose hotel "h" has an identity and in which nobody has joined. */
  ghost predicate IdentityOnly(h: History) {
    && Inv(h) && h.admissions == []
    && ReadString(h.mesh.config, PrivateRefKey("h")) == Some("k")
    && forall n :: PinKey(n) !in h.mesh.config
  }

  ghost predicate Invited(h: History, nonce: string) {
    PendingKey(nonce) in h.mesh.config && h.mesh.config[PendingKey(nonce)] == PendingDoc("h", 0, 0)
  }

  lemma NobodyInvited(h: History)
    requires h.admissions == [] && forall n :: PendingKey(n) !in h.mesh.config
    ensures Inv(h)
  {
  }

  lemma IdentityAlone() returns (h: History)
    ensures IdentityOnly(h) && h.issued == map[]
  {
    var key := PrivateRefKey("h");
    var config: Config := map[key := JsonString("k")];
    h := History(Mesh(config, map[]), [], map[]);
    forall n ensures PendingKey(n) != key && PinKey(n) != key {
      KeyFamiliesAreDisjoint(n, "h");
    }
    NobodyInvited(h);
    TrimOne('k');
    ReadBack(map[], key, "k");
    assert config == map[][key := JsonString("k")];
  }

  lemma InviteAnother(h: History, nonce: string, crypto: Crypto) returns (h': History)
    requires IdentityOnly(h) && nonce !in h.issued
    ensures IdentityOnly(h') && Invited(h', nonce) && h'.issued == h.issued[nonce := 0]
    ensures forall n :: n != nonce && Invited(h, n) ==> Invited(h', n)
  {
    h' := Next(h, Create(nonce, "h", 0, 0), crypto);
    CreateKeepsInv(h, Create(nonce, "h", 0, 0), crypto);
    KeyFamiliesAreDisjoint(nonce, "h");
    forall n ensures PinKey(n) !in h'.mesh.config
      ensures n != nonce && Invited(h, n) ==> Invited(h', n)
    {
      KeyFamiliesAreDisjoint(nonce, n);
    }
  }

  /** Such a pair of joins exists, with different keys, after nothing but the creation of two invites. */
  lemma NodeTakeoverHappens(f: Faults)
    returns (h: History, r: JoinRequest, s: JoinRequest, crypto: Crypto)
    requires !f.readInvite && !f.readPin && !f.readIdentity
    ensures Sound(crypto) && Inv(h) && h.admissions == []
    ensures r.nonce != s.nonce && r.hotel.name != s.hotel.name && r.hotel.nodeId == s.hotel.nodeId
    ensures var v, w := Vet(h.mesh, r, 0, crypto, f), Vet(h.mesh, s, 0, crypto, f);
      v.Admissible? && w.Admissible? && v.sessionKey != w.sessionKey
  {
    crypto := StubCrypto();
    h := IdentityAlone();
    h := InviteAnother(h, "a", crypto);
    h := InviteAnother(h, "b", crypto);
    r := JoinRequest("a", Hotel("a", "n", "m", 0, 0, 0), "k", "k", "", "");
    s := JoinRequest("b", Hotel("b", "n", "m", 0, 0, 0), "k", "k", "", "");
    TrimOne('a');
    TrimOne('b');
    TrimOne('h');
    TrimOne('m');
    TrimOne('n');
    CompleteJoinPasses(h.mesh, r, crypto, f);
    CompleteJoinPasses(h.mesh, s, crypto, f);
  }
}
