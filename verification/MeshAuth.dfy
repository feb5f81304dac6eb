/**
 Packet authentication and the replay guard of the mesh: a time window, a MAC over a fixed layout,
 and a table of nonces with a sweeper.

 The clock is an input and only moves forward. The MAC is a parameter.
 */
module MeshAuth {
  import opened Wrappers
  import opened Bytes

  const REPLAY_WINDOW_SECS: nat := 300
  const FUTURE_SECS: nat := 60

  type Mac = (seq<byte>, seq<byte>) -> seq<byte>

  datatype Packet = Packet(msgId: seq<byte>, seqNo: nat, timestamp: nat, payload: seq<byte>)

  /** A UUID has 16 bytes; the sequence number and the timestamp are 64-bit. */
  predicate WellFormed(p: Packet) {
    |p.msgId| == 16 && p.seqNo < Pow256(8) && p.timestamp < Pow256(8)
  }

  datatype AuthError = FromTheFuture | OutsideWindow | BadSignature | Replay | Database

  function MacInput(p: Packet): seq<byte> {
    p.msgId + BigEndian(p.seqNo, 8) + BigEndian(p.timestamp, 8) + p.payload
  }

  /** Recovers a packet from the bytes that were authenticated. */
  function Decode(bs: seq<byte>): Packet
    requires |bs| >= 32
  {
    Packet(bs[..16], FromBigEndian(bs[16..24]), FromBigEndian(bs[24..32]), bs[32..])
  }

  lemma MacInputDecodes(p: Packet)
    requires WellFormed(p)
    ensures Decode(MacInput(p)) == p
    ensures var bs := MacInput(p);
      && |bs| == 32 + |p.payload|
      && (forall k :: 0 <= k < 16 ==> bs[k] == p.msgId[k])
      && FromBigEndian(bs[16..24]) == p.seqNo && FromBigEndian(bs[24..32]) == p.timestamp
      && (forall k :: 0 <= k < |p.payload| ==> bs[32 + k] == p.payload[k])
  {
    var bs := MacInput(p);
    DecodeEncode(p.seqNo, 8);
    DecodeEncode(p.timestamp, 8);
    assert bs[..16] == p.msgId && bs[16..24] == BigEndian(p.seqNo, 8);
    assert bs[24..32] == BigEndian(p.timestamp, 8) && bs[32..] == p.payload;
  }

  /** Every string of at least 32 bytes is the MAC input of exactly one well-formed packet. */
  lemma DecodesToWellFormed(bs: seq<byte>)
    requires |bs| >= 32
    ensures WellFormed(Decode(bs)) && MacInput(Decode(bs)) == bs
  {
    EncodeDecode(bs[16..24]);
    EncodeDecode(bs[24..32]);
    assert bs == bs[..16] + bs[16..24] + bs[24..32] + bs[32..];
  }

  lemma MacInputIsInjective(p: Packet, q: Packet)
    requires WellFormed(p) && WellFormed(q) && MacInput(p) == MacInput(q)
    ensures p == q
  {
    MacInputDecodes(p);
    MacInputDecodes(q);
  }

  function Sign(mac: Mac, psk: seq<byte>, p: Packet): seq<byte> {
    mac(psk, MacInput(p))
  }

  function Validate(mac: Mac, psk: seq<byte>, p: Packet, tag: seq<byte>, now: nat): Option<AuthError> {
    if p.timestamp > now + FUTURE_SECS then Some(FromTheFuture)
    else if now > p.timestamp && now - p.timestamp > REPLAY_WINDOW_SECS then Some(OutsideWindow)
    else if mac(psk, MacInput(p)) != tag then Some(BadSignature)
    else None
  }

  /** An ideal MAC gives different inputs different tags under one key. */
  ghost predicate Ideal(mac: Mac, psk: seq<byte>) {
    forall x, y :: mac(psk, x) == mac(psk, y) ==> x == y
  }

  /**
   Under an ideal MAC a tag made for one packet validates another exactly when they are the same
   packet and its timestamp lies in the window around the clock.
   */
  lemma SignatureBindsPacketAndTime(mac: Mac, psk: seq<byte>, signed: Packet, shown: Packet, now: nat)
    requires Ideal(mac, psk) && WellFormed(signed) && WellFormed(shown)
    ensures Validate(mac, psk, shown, Sign(mac, psk, signed), now) == None
            <==> shown == signed && now - 300 <= shown.timestamp <= now + 60
  {
    if MacInput(shown) == MacInput(signed) {
      MacInputIsInjective(shown, signed);
    }
  }

  /** The dispatcher signs the 64-bit seq of an event, but its message carries the low 32 bits only. */
  function OnWire(p: Packet): Packet {
    p.(seqNo := p.seqNo % 0x1_0000_0000)
  }

  /** So a dispatched event validates at its peer exactly while the ledger's seqs fit in 32 bits. */
  lemma DispatchedValidatesIff(mac: Mac, psk: seq<byte>, p: Packet, now: nat)
    requires Ideal(mac, psk) && WellFormed(p)
    ensures Validate(mac, psk, OnWire(p), Sign(mac, psk, p), now) == None
            <==> p.seqNo < 0x1_0000_0000 && now - 300 <= p.timestamp <= now + 60
  {
    assert p.seqNo % 0x1_0000_0000 <= p.seqNo;
    SignatureBindsPacketAndTime(mac, psk, p, OnWire(p), now);
  }

  // ---------------------------------------------------------------------------------------------
  // The nonce table
  // ---------------------------------------------------------------------------------------------

  type Nonces = map<seq<byte>, nat>

  function Threshold(now: nat): nat {
    if now < REPLAY_WINDOW_SECS then 0 else now - REPLAY_WINDOW_SECS
  }

  function Swept(nonces: Nonces, now: nat): Nonces {
    map id | id in nonces && nonces[id] >= Threshold(now) :: nonces[id]
  }

  class NonceTracker {
    var nonces: Nonces

    constructor ()
      ensures nonces == map[]
    {
      nonces := map[];
    }

    method AssertAndRecordNonce(id: seq<byte>, now: nat, fails: bool) returns (error: Option<AuthError>)
      modifies this
      ensures error == (if fails then Some(Database) else if id in old(nonces) then Some(Replay) else None)
      ensures nonces == if error == None then old(nonces)[id := now] else old(nonces)
    {
      if fails {
        return Some(Database);
      }
      if id in nonces {
        return Some(Replay);
      }
      nonces := nonces[id := now];
      return None;
    }

    method CleanExpiredNonces(now: nat, fails: bool)
      modifies this
      ensures nonces == if fails then old(nonces) else Swept(old(nonces), now)
    {
      if !fails {
        nonces := Swept(nonces, now);
      }
    }

    /** Validation and recording of one packet, under one reading of the clock. */
    method Admit(mac: Mac, psk: seq<byte>, p: Packet, tag: seq<byte>, now: nat, fails: bool)
      returns (error: Option<AuthError>)
      modifies this
      ensures error == None
              <==> Validate(mac, psk, p, tag, now) == None && p.msgId !in old(nonces) && !fails
      ensures nonces == if error == None then old(nonces)[p.msgId := now] else old(nonces)
    {
      error := Validate(mac, psk, p, tag, now);
      if error == None {
        error := AssertAndRecordNonce(p.msgId, now, fails);
      }
    }
  }
}
