/**
 Acceptance of a remote hotel into the mesh: a pending invite is checked, the joiner's key is pinned,
 and four writes admit it, with compensating removals when one of them fails. Signature checks, key
 agreement and secret resolution are parameters.
 */
module Membership {
  import opened Wrappers
  import opened Graph

  // ---------------------------------------------------------------------------------------------
  // Config keys
  // ---------------------------------------------------------------------------------------------

  function PendingKey(nonce: string): string {
    "mesh_pending_invite:" + nonce
  }

  function PinKey(hotelName: string): string {
    "mesh_member_public_key:" + hotelName
  }

  function AuthKey(nodeId: string): string {
    "mesh_auth_key:" + nodeId
  }

  function PrivateRefKey(hotelName: string): string {
    "mesh_transport_private_key_ref:" + hotelName
  }

  /** The four families of keys never meet, and each is injective. */
  lemma KeyFamiliesAreDisjoint(a: string, b: string)
    ensures PendingKey(a) != PinKey(b) && PendingKey(a) != AuthKey(b) && PendingKey(a) != PrivateRefKey(b)
    ensures PinKey(a) != AuthKey(b) && PinKey(a) != PrivateRefKey(b) && AuthKey(a) != PrivateRefKey(b)
    ensures PendingKey(a) == PendingKey(b) ==> a == b
    ensures PinKey(a) == PinKey(b) ==> a == b
    ensures AuthKey(a) == AuthKey(b) ==> a == b
    ensures PrivateRefKey(a) == PrivateRefKey(b) ==> a == b
  {
    assert PendingKey(a)[5] == 'p' && PinKey(a)[5] == 'm' && AuthKey(a)[5] == 'a';
    assert PendingKey(b)[5] == 'p' && PinKey(b)[5] == 'm' && AuthKey(b)[5] == 'a' && PrivateRefKey(b)[5] == 't';
    assert PendingKey(a)[|"mesh_pending_invite:"|..] == a && PendingKey(b)[|"mesh_pending_invite:"|..] == b;
    assert PinKey(a)[|"mesh_member_public_key:"|..] == a && PinKey(b)[|"mesh_member_public_key:"|..] == b;
    assert AuthKey(a)[|"mesh_auth_key:"|..] == a && AuthKey(b)[|"mesh_auth_key:"|..] == b;
    assert PrivateRefKey(a)[|"mesh_transport_private_key_ref:"|..] == a;
    assert PrivateRefKey(b)[|"mesh_transport_private_key_ref:"|..] == b;
  }

  // ---------------------------------------------------------------------------------------------
  // The join request and the checks on it
  // ---------------------------------------------------------------------------------------------

  datatype Hotel = Hotel(
    name: string, nodeId: string, meshHost: string, meshPort: nat, blobPort: nat, executionPort: nat)

  datatype JoinRequest = JoinRequest(
    nonce: string, hotel: Hotel, publicKey: string, fingerprint: string, transportKey: string, signature: string)

  datatype Mesh = Mesh(config: Config, hotels: map<string, Hotel>)

  datatype Crypto = Crypto(
    verify: JoinRequest -> bool,
    fingerprintOf: string -> Option<string>,
    resolveSecret: string -> Option<string>,
    derive: (string, string, string) -> Option<string>)

  /** A verified key is a decodable 32-byte key and a session key is hex: neither is blank or padded. */
  ghost predicate Sound(crypto: Crypto) {
    && (forall r :: crypto.verify(r) ==> r.publicKey != [] && Trim(r.publicKey) == r.publicKey)
    && (forall n, p, t :: crypto.derive(n, p, t).Some? ==>
          crypto.derive(n, p, t).value != [] && Trim(crypto.derive(n, p, t).value) == crypto.derive(n, p, t).value)
  }

  /** Which storage calls of one acceptance fail. A failed call changes nothing. */
  datatype Faults = Faults(
    readInvite: bool, dropExpired: bool, readPin: bool, readIdentity: bool,
    writePin: bool, writeAuth: bool, writeHotel: bool, writeAccepted: bool,
    undoPin: bool, undoAuth: bool)

  datatype Verdict = Rejected | Expired | Admissible(sessionKey: string, createdAt: nat, expiresAt: nat)

  function OrElse<T>(o: Option<T>, default: T): T {
    if o.Some? then o.value else default
  }

  predicate Blank(s: string) {
    Trim(s) == []
  }

  /** Everything the handler checks before its first write, in its order. */
  function Vet(mesh: Mesh, r: JoinRequest, now: nat, crypto: Crypto, f: Faults): Verdict {
    if !crypto.verify(r) then Rejected
    else if Blank(r.hotel.name) || Blank(r.hotel.nodeId) || Blank(r.hotel.meshHost) then Rejected
    else if f.readInvite || PendingKey(r.nonce) !in mesh.config then Rejected
    else if mesh.config[PendingKey(r.nonce)].asDoc.None? then Rejected
    else VetInvite(mesh, mesh.config[PendingKey(r.nonce)].asDoc.value, r, now, crypto, f)
  }

  function VetInvite(mesh: Mesh, invite: Doc, r: JoinRequest, now: nat, crypto: Crypto, f: Faults): Verdict {
    if invite.status != Some("pending") then Rejected
    else if OrElse(invite.expiresAt, 0) < now then Expired
    else if crypto.fingerprintOf(r.publicKey) != Some(r.fingerprint) then Rejected
    else if f.readPin then Rejected
    else if ReadString(mesh.config, PinKey(r.hotel.name)).Some?
         && ReadString(mesh.config, PinKey(r.hotel.name)).value != r.publicKey then Rejected
    else if invite.hotelName.None? || Blank(invite.hotelName.value) || f.readIdentity then Rejected
    else
      var secretRef := ReadString(mesh.config, PrivateRefKey(invite.hotelName.value));
      var privateKey := if secretRef.Some? then crypto.resolveSecret(secretRef.value) else None;
      var sessionKey := if privateKey.Some? then crypto.derive(r.nonce, privateKey.value, r.transportKey) else None;
      if sessionKey.None? then Rejected
      else Admissible(sessionKey.value, OrElse(invite.createdAt, now), OrElse(invite.expiresAt, 0))
  }

  // ---------------------------------------------------------------------------------------------
  // The writes
  // ---------------------------------------------------------------------------------------------

  function AcceptedDoc(r: JoinRequest, v: Verdict): Value
    requires v.Admissible?
  {
    JsonDoc(Doc(Some(r.hotel.name), Some(v.createdAt), Some(v.expiresAt), Some("accepted")))
  }

  /** Both keys and the hotel record are in; the invite is not marked yet. */
  function Joined(mesh: Mesh, r: JoinRequest, v: Verdict): Mesh
    requires v.Admissible?
  {
    var pinned := mesh.config[PinKey(r.hotel.name) := JsonString(r.publicKey)];
    Mesh(pinned[AuthKey(r.hotel.nodeId) := JsonString(v.sessionKey)], mesh.hotels[r.hotel.name := r.hotel])
  }

  function Marked(mesh: Mesh, r: JoinRequest, v: Verdict): Mesh
    requires v.Admissible?
  {
    mesh.(config := mesh.config[PendingKey(r.nonce) := AcceptedDoc(r, v)])
  }

  function Admit(mesh: Mesh, r: JoinRequest, v: Verdict, f: Faults): Mesh
    requires v.Admissible?
  {
    if f.writePin then mesh
    else
      var pinned := mesh.config[PinKey(r.hotel.name) := JsonString(r.publicKey)];
      if f.writeAuth then mesh.(config := if f.undoPin then pinned else pinned - {PinKey(r.hotel.name)})
      else
        var keyed := pinned[AuthKey(r.hotel.nodeId) := JsonString(v.sessionKey)];
        if f.writeHotel then
          var unpinned := if f.undoPin then keyed else keyed - {PinKey(r.hotel.name)};
          mesh.(config := if f.undoAuth then unpinned else unpinned - {AuthKey(r.hotel.nodeId)})
        else if f.writeAccepted then Joined(mesh, r, v)
        else Marked(Joined(mesh, r, v), r, v)
  }

  function Accept(mesh: Mesh, r: JoinRequest, now: nat, crypto: Crypto, f: Faults): Mesh {
    match Vet(mesh, r, now, crypto, f)
    case Rejected => mesh
    case Expired => if f.dropExpired then mesh else mesh.(config := mesh.config - {PendingKey(r.nonce)})
    case Admissible(_, _, _) => Admit(mesh, r, Vet(mesh, r, now, crypto, f), f)
  }

  class GraphDomain {
    var config: Config
    var hotels: map<string, Hotel>

    constructor (mesh: Mesh)
      ensures Contents() == mesh
    {
      config, hotels := mesh.config, mesh.hotels;
    }

    function Contents(): Mesh
      reads this
    {
      Mesh(config, hotels)
    }

    method SetConfigValue(key: string, value: Value, fails: bool) returns (ok: bool)
      modifies this`config
      ensures ok == !fails
      ensures config == if fails then old(config) else old(config)[key := value]
    {
      ok := !fails;
      if ok {
        config := config[key := value];
      }
    }

    method RemoveConfigValue(key: string, fails: bool)
      modifies this`config
      ensures config == if fails then old(config) else old(config) - {key}
    {
      if !fails {
        config := config - {key};
      }
    }

    method UpsertHotel(hotel: Hotel, fails: bool) returns (ok: bool)
      modifies this`hotels
      ensures ok == !fails
      ensures hotels == if fails then old(hotels) else old(hotels)[hotel.name := hotel]
    {
      ok := !fails;
      if ok {
        hotels := hotels[hotel.name := hotel];
      }
    }

    method HandleMeshMembershipAccept(r: JoinRequest, now: nat, crypto: Crypto, f: Faults)
      modifies this
      ensures Contents() == Accept(old(Contents()), r, now, crypto, f)
    {
      var v := Vet(Contents(), r, now, crypto, f);
      if v.Rejected? {
        return;
      }
      var pendingKey := PendingKey(r.nonce);
      if v.Expired? {
        RemoveConfigValue(pendingKey, f.dropExpired);
        return;
      }
      var pinKey := PinKey(r.hotel.name);
      var ok := SetConfigValue(pinKey, JsonString(r.publicKey), f.writePin);
      if !ok {
        return;
      }
      var authKey := AuthKey(r.hotel.nodeId);
      ok := SetConfigValue(authKey, JsonString(v.sessionKey), f.writeAuth);
      if !ok {
        RemoveConfigValue(pinKey, f.undoPin);
        return;
      }
      ok := UpsertHotel(r.hotel, f.writeHotel);
      if !ok {
        RemoveConfigValue(pinKey, f.undoPin);
        RemoveConfigValue(authKey, f.undoAuth);
        return;
      }
      ok := SetConfigValue(pendingKey, AcceptedDoc(r, v), f.writeAccepted);
    }

    /** The invite side: records a pending invite under a fresh nonce. */
    method CreateMeshInvite(nonce: string, localHotel: string, now: nat, ttl: nat, fails: bool) returns (ok: bool)
      modifies this`config
      ensures ok == !fails
      ensures Contents() == if fails then old(Contents()) else Invite(old(Contents()), nonce, localHotel, now, ttl)
      ensures ok ==> config == old(config)[PendingKey(nonce) := JsonDoc(
                Doc(Some(localHotel), Some(now), Some(now + ttl), Some("pending")))]
    {
      ok := SetConfigValue(PendingKey(nonce), PendingDoc(localHotel, now, ttl), fails);
    }
  }

  function PendingDoc(localHotel: string, now: nat, ttl: nat): Value {
    JsonDoc(Doc(Some(localHotel), Some(now), Some(now + ttl), Some("pending")))
  }

  function Invite(mesh: Mesh, nonce: string, localHotel: string, now: nat, ttl: nat): Mesh {
    mesh.(config := mesh.config[PendingKey(nonce) := PendingDoc(localHotel, now, ttl)])
  }

  // ---------------------------------------------------------------------------------------------
  // One acceptance is all or nothing
  // ---------------------------------------------------------------------------------------------

  /**
   For a hotel without a pin on a node without an auth key, whichever writes fail, as long as the
   removals that run succeed: the store is unchanged, or only an expired invite is gone, or the hotel
   is fully admitted, and then the invite is marked unless exactly the last write failed.
   */
  lemma AcceptIsAtomic(mesh: Mesh, r: JoinRequest, now: nat, crypto: Crypto, f: Faults)
    requires PinKey(r.hotel.name) !in mesh.config && AuthKey(r.hotel.nodeId) !in mesh.config
    requires !f.undoPin && !f.undoAuth
    ensures var v, after := Vet(mesh, r, now, crypto, f), Accept(mesh, r, now, crypto, f);
      match v
      case Rejected => after == mesh
      case Expired => after == if f.dropExpired then mesh else mesh.(config := mesh.config - {PendingKey(r.nonce)})
      case Admissible(_, _, _) =>
        if f.writePin || f.writeAuth || f.writeHotel then after == mesh
        else if f.writeAccepted then after == Joined(mesh, r, v)
        else after == Marked(Joined(mesh, r, v), r, v)
  {
    var pinned := mesh.config[PinKey(r.hotel.name) := JsonString(r.publicKey)];
    assert pinned - {PinKey(r.hotel.name)} == mesh.config;
    match Vet(mesh, r, now, crypto, f)
    case Rejected =>
    case Expired =>
    case Admissible(sessionKey, _, _) =>
      KeyFamiliesAreDisjoint(r.hotel.name, r.hotel.nodeId);
      var keyed := pinned[AuthKey(r.hotel.nodeId) := JsonString(sessionKey)];
      assert keyed - {PinKey(r.hotel.name)} - {AuthKey(r.hotel.nodeId)} == mesh.config;
  }

  /**
   The removals do not bring earlier values back: a failed auth or hotel write leaves the store as it
   was exactly when the hotel had no pin and, if the auth key was written, the node had none either.
   */
  lemma FailureRestoresIff(mesh: Mesh, r: JoinRequest, v: Verdict, f: Faults)
    requires v.Admissible? && !f.writePin && (f.writeAuth || f.writeHotel) && !f.undoPin && !f.undoAuth
    ensures Admit(mesh, r, v, f) == mesh
            <==> PinKey(r.hotel.name) !in mesh.config && (f.writeAuth || AuthKey(r.hotel.nodeId) !in mesh.config)
  {
    KeyFamiliesAreDisjoint(r.hotel.name, r.hotel.nodeId);
    var pinned := mesh.config[PinKey(r.hotel.name) := JsonString(r.publicKey)];
    var keyed := pinned[AuthKey(r.hotel.nodeId) := JsonString(v.sessionKey)];
    if PinKey(r.hotel.name) !in mesh.config {
      assert pinned - {PinKey(r.hotel.name)} == mesh.config;
      if AuthKey(r.hotel.nodeId) !in mesh.config {
        assert keyed - {PinKey(r.hotel.name)} - {AuthKey(r.hotel.nodeId)} == mesh.config;
      }
    }
    assert PinKey(r.hotel.name) !in Admit(mesh, r, v, f).config;
    assert !f.writeAuth ==> AuthKey(r.hotel.nodeId) !in Admit(mesh, r, v, f).config;
  }

  /** Removals that fail leave the key they were to remove, newly written; the hotel record is not there yet. */
  lemma FailureLeaves(mesh: Mesh, r: JoinRequest, v: Verdict, f: Faults, nonce: string)
    requires v.Admissible? && !f.writePin && (f.writeAuth || f.writeHotel)
    ensures var after, pin, auth := Admit(mesh, r, v, f), PinKey(r.hotel.name), AuthKey(r.hotel.nodeId);
      && after.hotels == mesh.hotels
      && (pin in after.config <==> f.undoPin) && (f.undoPin ==> after.config[pin] == JsonString(r.publicKey))
      && (!f.writeAuth ==> (auth in after.config <==> f.undoAuth))
      && (!f.writeAuth && f.undoAuth ==> after.config[auth] == JsonString(v.sessionKey))
      && (f.writeAuth ==> (auth in after.config <==> auth in mesh.config))
      && (PendingKey(nonce) in after.config <==> PendingKey(nonce) in mesh.config)
  {
    KeyFamiliesAreDisjoint(r.hotel.name, r.hotel.nodeId);
    KeyFamiliesAreDisjoint(nonce, r.hotel.name);
    KeyFamiliesAreDisjoint(nonce, r.hotel.nodeId);
  }

  /** The invite an admissible join names, if it has one that parses. */
  function InviteOf(mesh: Mesh, nonce: string): Option<Doc> {
    if PendingKey(nonce) in mesh.config then mesh.config[PendingKey(nonce)].asDoc else None
  }

  /** The hotel that issued an invite can be reached for the transport key it shares with the joiner. */
  predicate Derives(mesh: Mesh, localHotel: string, r: JoinRequest, crypto: Crypto, sessionKey: string) {
    var secretRef := ReadString(mesh.config, PrivateRefKey(localHotel));
    secretRef.Some?
    && var privateKey := crypto.resolveSecret(secretRef.value);
    privateKey.Some? && crypto.derive(r.nonce, privateKey.value, r.transportKey) == Some(sessionKey)
  }

  /**
   Who passes the checks, whatever the order they come in: a signed and complete request with its own
   key's fingerprint, on an open invite that lasts to this second, from a hotel without a pin or with
   this very key pinned, when the inviter's identity yields the session key.
   */
  lemma AdmissibleIff(mesh: Mesh, r: JoinRequest, now: nat, crypto: Crypto, f: Faults, sessionKey: string)
    ensures var v, invite, pin :=
              Vet(mesh, r, now, crypto, f), InviteOf(mesh, r.nonce), ReadString(mesh.config, PinKey(r.hotel.name));
      (v.Admissible? && v.sessionKey == sessionKey)
      <==> && !f.readInvite && !f.readPin && !f.readIdentity
           && crypto.verify(r) && crypto.fingerprintOf(r.publicKey) == Some(r.fingerprint)
           && (forall s :: s in {r.hotel.name, r.hotel.nodeId, r.hotel.meshHost} ==> !Blank(s))
           && invite.Some? && invite.value.status == Some("pending")
           && now <= (if invite.value.expiresAt.Some? then invite.value.expiresAt.value else 0)
           && pin in {None, Some(r.publicKey)}
           && invite.value.hotelName.Some? && !Blank(invite.value.hotelName.value)
           && Derives(mesh, invite.value.hotelName.value, r, crypto, sessionKey)
  {
    assert Blank(r.hotel.name) || Blank(r.hotel.nodeId) || Blank(r.hotel.meshHost)
      <==> exists s :: s in {r.hotel.name, r.hotel.nodeId, r.hotel.meshHost} && Blank(s);
  }

  /** An invite is found expired exactly when a signed and complete request names it past its last second. */
  lemma ExpiredIff(mesh: Mesh, r: JoinRequest, now: nat, crypto: Crypto, f: Faults)
    ensures var invite := InviteOf(mesh, r.nonce);
      Vet(mesh, r, now, crypto, f).Expired?
      <==> && !f.readInvite && crypto.verify(r)
           && (forall s :: s in {r.hotel.name, r.hotel.nodeId, r.hotel.meshHost} ==> !Blank(s))
           && invite.Some? && invite.value.status == Some("pending")
           && now > (if invite.value.expiresAt.Some? then invite.value.expiresAt.value else 0)
  {
    assert Blank(r.hotel.name) || Blank(r.hotel.nodeId) || Blank(r.hotel.meshHost)
      <==> exists s :: s in {r.hotel.name, r.hotel.nodeId, r.hotel.meshHost} && Blank(s);
  }

  /** An accepted invite keeps the times of the invite it was, and names the hotel it let in. */
  lemma AcceptedInviteIs(mesh: Mesh, r: JoinRequest, now: nat, crypto: Crypto, f: Faults)
    requires Vet(mesh, r, now, crypto, f).Admissible?
    requires !f.writePin && !f.writeAuth && !f.writeHotel && !f.writeAccepted
    ensures var before, after := InviteOf(mesh, r.nonce), InviteOf(Accept(mesh, r, now, crypto, f), r.nonce);
      && before.Some? && after.Some?
      && after.value.status == Some("accepted") && after.value.hotelName == Some(r.hotel.name)
      && after.value.createdAt == (if before.value.createdAt.Some? then before.value.createdAt else Some(now))
      && after.value.expiresAt == (if before.value.expiresAt.Some? then before.value.expiresAt else Some(0))
  {
  }

  /** The checks read the invite, the pin and the inviter's identity, and nothing else. */
  lemma VetDependsOn(mesh: Mesh, mesh': Mesh, r: JoinRequest, now: nat, crypto: Crypto, f: Faults)
    requires PendingKey(r.nonce) in mesh.config && PendingKey(r.nonce) in mesh'.config
    requires mesh'.config[PendingKey(r.nonce)] == mesh.config[PendingKey(r.nonce)]
    requires ReadString(mesh'.config, PinKey(r.hotel.name)) == ReadString(mesh.config, PinKey(r.hotel.name))
    requires forall h :: ReadString(mesh'.config, PrivateRefKey(h)) == ReadString(mesh.config, PrivateRefKey(h))
    ensures Vet(mesh', r, now, crypto, f) == Vet(mesh, r, now, crypto, f)
  {
  }

  lemma JoinedLeaves(mesh: Mesh, r: JoinRequest, v: Verdict, nonce: string, hotelName: string, localHotel: string)
    requires v.Admissible? && hotelName != r.hotel.name
    ensures var after := Joined(mesh, r, v).config;
      && (PendingKey(nonce) in mesh.config ==>
            PendingKey(nonce) in after && after[PendingKey(nonce)] == mesh.config[PendingKey(nonce)])
      && ReadString(after, PinKey(hotelName)) == ReadString(mesh.config, PinKey(hotelName))
      && ReadString(after, PrivateRefKey(localHotel)) == ReadString(mesh.config, PrivateRefKey(localHotel))
  {
    KeyFamiliesAreDisjoint(nonce, r.hotel.name);
    KeyFamiliesAreDisjoint(nonce, r.hotel.nodeId);
    KeyFamiliesAreDisjoint(hotelName, r.hotel.name);
    KeyFamiliesAreDisjoint(hotelName, r.hotel.nodeId);
    KeyFamiliesAreDisjoint(r.hotel.name, localHotel);
    KeyFamiliesAreDisjoint(r.hotel.nodeId, localHotel);
  }

  /**
   After one hotel joined, another hotel's join on the same invite, whenever it comes and whatever
   fails in it, passes exactly when the first one's last write failed.
   */
  lemma InviteStaysOpenIff(
      mesh: Mesh, r: JoinRequest, now: nat, f: Faults, s: JoinRequest, later: nat, g: Faults, crypto: Crypto)
    requires Vet(mesh, r, now, crypto, f).Admissible? && Vet(mesh, s, later, crypto, g).Admissible?
    requires s.nonce == r.nonce && s.hotel.name != r.hotel.name
    requires !f.writePin && !f.writeAuth && !f.writeHotel
    ensures Vet(Accept(mesh, r, now, crypto, f), s, later, crypto, g).Admissible? <==> f.writeAccepted
  {
    var v := Vet(mesh, r, now, crypto, f);
    JoinLeavesVerdict(mesh, r, v, s, later, g, crypto);
  }

  /** What a join writes before it marks its invite does not bear on another hotel's join. */
  lemma JoinLeavesVerdict(
      mesh: Mesh, r: JoinRequest, v: Verdict, s: JoinRequest, later: nat, g: Faults, crypto: Crypto)
    requires v.Admissible? && s.hotel.name != r.hotel.name && PendingKey(s.nonce) in mesh.config
    ensures Vet(Joined(mesh, r, v), s, later, crypto, g) == Vet(mesh, s, later, crypto, g)
  {
    forall h
      ensures ReadString(Joined(mesh, r, v).config, PrivateRefKey(h)) == ReadString(mesh.config, PrivateRefKey(h))
    {
      JoinedLeaves(mesh, r, v, s.nonce, s.hotel.name, h);
    }
    JoinedLeaves(mesh, r, v, s.nonce, s.hotel.name, "");
    VetDependsOn(mesh, Joined(mesh, r, v), s, later, crypto, g);
  }
}
