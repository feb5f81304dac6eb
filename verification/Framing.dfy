/**
 Length-prefixed framing over a stream socket: a 32-bit big-endian length, then the payload.
 The socket hands out bytes in chunks of its own choosing.
 */
module Framing {
  import opened Bytes

  const FRAME_LIMIT: nat := 0x1_0000_0000

  datatype Received = Payload(data: seq<byte>) | SocketClosed | ClosedMidFrame

  function Frame(payload: seq<byte>): seq<byte> {
    BigEndian(|payload|, 4) + payload
  }

  function Frames(payloads: seq<seq<byte>>): seq<byte> {
    if payloads == [] then [] else Frame(payloads[0]) + Frames(payloads[1..])
  }

  /** What one read makes of everything the peer will ever send, and how many bytes it takes. */
  function Parse(stream: seq<byte>): (Received, nat) {
    if |stream| < 4 then (SocketClosed, |stream|)
    else
      var length := FromBigEndian(stream[..4]);
      if |stream| < 4 + length then (ClosedMidFrame, |stream|) else (Payload(stream[4..4 + length]), 4 + length)
  }

  class Socket {
    /** Bytes the peer sent that have not been received; when there are none the peer has closed. */
    var incoming: seq<byte>
    var outgoing: seq<byte>

    constructor (incoming: seq<byte>)
      ensures this.incoming == incoming && outgoing == []
    {
      this.incoming, outgoing := incoming, [];
    }

    /** Between one byte and `n` bytes, or none at all once the stream has ended. */
    method Recv(n: nat) returns (chunk: seq<byte>)
      requires n > 0
      modifies this`incoming
      ensures |chunk| <= n && old(incoming) == chunk + incoming
      ensures chunk == [] <==> old(incoming) == []
    {
      if incoming == [] {
        return [];
      }
      var k :| 1 <= k <= n && k <= |incoming|;
      chunk := incoming[..k];
      incoming := incoming[k..];
    }

    method SendAll(data: seq<byte>)
      modifies this`outgoing
      ensures outgoing == old(outgoing) + data
    {
      outgoing := outgoing + data;
    }
  }

  /** A payload whose length does not fit in 32 bits is refused before anything is written. */
  method SendFrame(sock: Socket, data: seq<byte>) returns (ok: bool)
    modifies sock`outgoing
    ensures ok <==> |data| < FRAME_LIMIT
    ensures sock.outgoing == old(sock.outgoing) + if ok then Frame(data) else []
  {
    ok := |data| < FRAME_LIMIT;
    if ok {
      sock.SendAll(BigEndian(|data|, 4) + data);
    }
  }

  /** A stream with a whole prefix is parsed by comparing what follows with the length the prefix gives. */
  lemma ParseAfterPrefix(rawLen: seq<byte>, body: seq<byte>)
    requires |rawLen| == 4
    ensures var stream, length := rawLen + body, FromBigEndian(rawLen);
      && Parse(stream)
         == (if |body| < length then (ClosedMidFrame, |stream|) else (Payload(body[..length]), 4 + length))
      && (|body| >= length ==> stream[4 + length..] == body[length..])
  {
    var stream := rawLen + body;
    assert stream[..4] == rawLen && stream[4..] == body;
    assert |body| >= FromBigEndian(rawLen) ==> stream[4..4 + FromBigEndian(rawLen)] == body[..FromBigEndian(rawLen)];
  }

  method RecvFrame(sock: Socket) returns (received: Received)
    modifies sock`incoming
    ensures var (expected, taken) := Parse(old(sock.incoming));
      received == expected && taken <= |old(sock.incoming)| && sock.incoming == old(sock.incoming)[taken..]
  {
    ghost var stream := sock.incoming;
    var rawLen := [];
    while |rawLen| < 4
      invariant |rawLen| <= 4 && stream == rawLen + sock.incoming
    {
      ghost var left := sock.incoming;
      var chunk := sock.Recv(4 - |rawLen|);
      if chunk == [] {
        assert stream == rawLen;
        return SocketClosed;
      }
      assert rawLen + left == (rawLen + chunk) + sock.incoming;
      rawLen := rawLen + chunk;
    }
    var length := FromBigEndian(rawLen);
    ghost var body := sock.incoming;
    ParseAfterPrefix(rawLen, body);
    var data := [];
    while |data| < length
      invariant |data| <= length && body == data + sock.incoming
    {
      ghost var left := sock.incoming;
      var chunk := sock.Recv(length - |data|);
      if chunk == [] {
        assert body == data;
        return ClosedMidFrame;
      }
      assert data + left == (data + chunk) + sock.incoming;
      data := data + chunk;
    }
    assert body[..length] == data && body[length..] == sock.incoming;
    return Payload(data);
  }

  lemma FrameParses(payload: seq<byte>, rest: seq<byte>)
    requires |payload| < FRAME_LIMIT
    ensures Parse(Frame(payload) + rest) == (Payload(payload), |Frame(payload)|)
  {
    assert Pow256(4) == FRAME_LIMIT by {
      assert Pow256(2) == 256 * Pow256(1) && Pow256(3) == 256 * Pow256(2);
    }
    DecodeEncode(|payload|, 4);
    var stream := Frame(payload) + rest;
    assert stream[..4] == BigEndian(|payload|, 4);
    assert stream[4..4 + |payload|] == payload;
  }

  /** A read that returns a payload consumed exactly the frame of that payload. */
  lemma ParsedIsFramed(stream: seq<byte>)
    requires Parse(stream).0.Payload?
    ensures var (received, taken) := Parse(stream);
      taken <= |stream| && stream[..taken] == Frame(received.data)
  {
    EncodeDecode(stream[..4]);
    var (received, taken) := Parse(stream);
    assert stream[..taken] == stream[..4] + received.data;
  }

  /** A stream that ends inside a frame raises; it never yields a short payload. */
  lemma TruncatedFrameRaises(payload: seq<byte>, cut: nat)
    requires |payload| < FRAME_LIMIT && cut < |Frame(payload)|
    ensures Parse(Frame(payload)[..cut]) == (if cut < 4 then SocketClosed else ClosedMidFrame, cut)
  {
    FrameParses(payload, []);
    assert Frame(payload) + [] == Frame(payload);
    if cut >= 4 {
      assert Frame(payload)[..cut][..4] == Frame(payload)[..4];
    }
  }

  /** Framed lists of payloads are told apart by their bytes alone. */
  lemma {:induction false} FramesAreInjective(ps: seq<seq<byte>>, qs: seq<seq<byte>>)
    requires forall p :: p in ps ==> |p| < FRAME_LIMIT
    requires forall q :: q in qs ==> |q| < FRAME_LIMIT
    requires Frames(ps) == Frames(qs)
    ensures ps == qs
  {
    if ps != [] && qs != [] {
      FrameParses(ps[0], Frames(ps[1..]));
      FrameParses(qs[0], Frames(qs[1..]));
      assert Frames(ps)[|Frame(ps[0])|..] == Frames(ps[1..]);
      assert Frames(qs)[|Frame(qs[0])|..] == Frames(qs[1..]);
      FramesAreInjective(ps[1..], qs[1..]);
      assert ps == [ps[0]] + ps[1..] && qs == [qs[0]] + qs[1..];
    }
  }

  lemma NextFrame(sent: seq<seq<byte>>, n: nat, rest: seq<byte>)
    requires n < |sent| && |sent[n]| < FRAME_LIMIT
    ensures var stream := Frames(sent[n..]) + rest;
      && Parse(stream) == (Payload(sent[n]), |Frame(sent[n])|)
      && |Frame(sent[n])| <= |stream| && stream[|Frame(sent[n])|..] == Frames(sent[n + 1..]) + rest
  {
    assert sent[n..][1..] == sent[n + 1..];
    FrameParses(sent[n], Frames(sent[n + 1..]) + rest);
    assert Frames(sent[n..]) + rest == Frame(sent[n]) + (Frames(sent[n + 1..]) + rest);
  }

  /** However the stream is chunked, reading as many frames as were sent yields the payloads in order. */
  method RecvFrames(sock: Socket, count: nat, ghost sent: seq<seq<byte>>, ghost rest: seq<byte>)
    returns (payloads: seq<seq<byte>>)
    requires count == |sent| && forall p :: p in sent ==> |p| < FRAME_LIMIT
    requires sock.incoming == Frames(sent) + rest
    modifies sock`incoming
    ensures payloads == sent && sock.incoming == rest
  {
    payloads := [];
    while |payloads| < count
      invariant |payloads| <= count && payloads == sent[..|payloads|]
      invariant sock.incoming == Frames(sent[|payloads|..]) + rest
    {
      ghost var n, stream := |payloads|, sock.incoming;
      NextFrame(sent, n, rest);
      var received := RecvFrame(sock);
      assert received == Payload(sent[n]) && sock.incoming == stream[|Frame(sent[n])|..];
      assert sent[..n + 1] == sent[..n] + [sent[n]];
      payloads := payloads + [received.data];
    }
    assert sent[..count] == sent && Frames(sent[count..]) == [];
  }
}
