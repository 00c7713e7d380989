/** The pub/sub wire: the envelope around a frame and the naming of channels
    (src/redis_rooms.rs:98-168, 253-261). */
module Envelope {
  import opened Prelude
  import opened Codec
  import Utf8

  const VERSION: byte := 1
  const KIND_TEXT: byte := 0
  const KIND_BINARY: byte := 1
  const HEADER_LEN := 18

  type NodeId = id: seq<byte> | |id| == 16 witness seq(16, _ => 0)

  /** `version(1) | node_id(16) | kind(1) | payload`. */
  function Encode(nodeId: NodeId, frame: Frame): seq<byte> {
    [VERSION] + nodeId + [if frame.Text? then KIND_TEXT else KIND_BINARY] + frame.AsBytes()
  }

  function Decode(bytes: seq<byte>): Result<(NodeId, Frame), WsError> {
    if |bytes| < HEADER_LEN || bytes[0] != VERSION then Err(InvalidMessage)
    else
      var nodeId: NodeId := bytes[1..17];
      var payload := bytes[HEADER_LEN..];
      if bytes[17] == KIND_TEXT then
        match Utf8.Decode(payload)
        case Some(s) => Ok((nodeId, Text(s)))
        case None => Err(InvalidMessage)
      else if bytes[17] == KIND_BINARY then Ok((nodeId, Binary(payload)))
      else Err(InvalidMessage)
  }

  method EncodeEnvelope(nodeId: NodeId, frame: Frame) returns (out: seq<byte>)
    ensures out == Encode(nodeId, frame)
  {
    out := [VERSION];
    out := out + nodeId;
    out := out + [if frame.Text? then KIND_TEXT else KIND_BINARY];
    out := out + frame.AsBytes();
  }

  lemma DecodeEncode(nodeId: NodeId, frame: Frame)
    ensures Decode(Encode(nodeId, frame)) == Ok((nodeId, frame))
  {
    var e := Encode(nodeId, frame);
    assert e[0] == VERSION && e[1..17] == nodeId && e[HEADER_LEN..] == frame.AsBytes();
    if frame.Text? { Utf8.DecodeEncode(frame.text); }
  }

  lemma EncodeDecode(bytes: seq<byte>)
    requires Decode(bytes).Ok?
    ensures Encode(Decode(bytes).value.0, Decode(bytes).value.1) == bytes
  {
    var payload := bytes[HEADER_LEN..];
    assert Decode(bytes).value.1.AsBytes() == payload by {
      if bytes[17] == KIND_TEXT { Utf8.EncodeDecode(payload); }
    }
    Reassemble(bytes);
  }

  lemma Reassemble(bytes: seq<byte>)
    requires |bytes| >= HEADER_LEN
    ensures [bytes[0]] + bytes[1..17] + [bytes[17]] + bytes[HEADER_LEN..] == bytes
  {
  }

  /** Envelopes and pairs of a node id and a frame are in bijection: bytes
      decode to a pair exactly when they are its encoding. */
  lemma DecodesIffEncodes(bytes: seq<byte>, nodeId: NodeId, frame: Frame)
    ensures Decode(bytes) == Ok((nodeId, frame)) <==> bytes == Encode(nodeId, frame)
  {
    DecodeEncode(nodeId, frame);
    if Decode(bytes).Ok? { EncodeDecode(bytes); }
  }

  /** What fails closed is exactly: too short, another version, an unknown
      kind, or a text payload that is not UTF-8. */
  lemma FailsClosed(bytes: seq<byte>)
    ensures Decode(bytes).Err? <==>
              || |bytes| < HEADER_LEN
              || bytes[0] != VERSION
              || bytes[17] > KIND_BINARY
              || (bytes[17] == KIND_TEXT && forall s :: Utf8.Encode(s) != bytes[HEADER_LEN..])
  {
    if |bytes| >= HEADER_LEN {
      var payload := bytes[HEADER_LEN..];
      if Utf8.Decode(payload).Some? {
        Utf8.EncodeDecode(payload);
      } else {
        forall s ensures Utf8.Encode(s) != payload { Utf8.DecodeEncode(s); }
      }
    }
  }

  /** Where everything stands on the wire: the version, which is one, then the
      publisher in 16 octets, then a zero for text or a one for binary, and
      from octet 18 on the payload. */
  lemma EnvelopeLayout(nodeId: NodeId, frame: Frame)
    ensures var e := Encode(nodeId, frame);
            && |e| == 18 + |frame.AsBytes()|
            && e[0] == 1 && e[1..17] == nodeId && e[17] == (if frame.Text? then 0 else 1)
            && e[18..] == frame.AsBytes()
  {
  }

  function ChannelName(prefix: string, roomId: string): string {
    prefix + roomId
  }

  function RoomIdFromChannel(prefix: string, channel: string): Option<string> {
    if prefix <= channel then Some(channel[|prefix|..]) else None
  }

  /** A channel carries a room id under a prefix exactly when it is that
      room's channel; so under one prefix no two rooms share a channel. */
  lemma ChannelNamesRoundTrip(prefix: string, channel: string, roomId: string)
    ensures RoomIdFromChannel(prefix, channel) == Some(roomId) <==> channel == ChannelName(prefix, roomId)
  {
    assert ChannelName(prefix, roomId)[|prefix|..] == roomId;
  }

  /** Two prefixes can name a common channel exactly when one begins the other. */
  lemma PrefixesThatMeet(p: string, q: string)
    ensures (exists a, b :: ChannelName(p, a) == ChannelName(q, b)) <==> p <= q || q <= p
  {
    forall a, b | ChannelName(p, a) == ChannelName(q, b) ensures p <= q || q <= p {
      var c := ChannelName(p, a);
      assert p == c[..|p|] && q == c[..|q|];
      if |p| <= |q| { assert p == q[..|p|]; } else { assert q == p[..|q|]; }
    }
    if p <= q {
      assert ChannelName(p, q[|p|..]) == ChannelName(q, "");
    } else if q <= p {
      assert ChannelName(p, "") == ChannelName(q, p[|q|..]);
    }
  }

  /** What a node takes from one message on the bus: the room it names under
      the node's prefix and the frame of another node, if any. */
  function Accept(prefix: string, nodeId: NodeId, channel: string, payload: seq<byte>): Option<(string, Frame)> {
    match RoomIdFromChannel(prefix, channel)
    case None => None
    case Some(roomId) =>
      match Decode(payload)
      case Err(_) => None
      case Ok((publisher, frame)) => if publisher == nodeId then None else Some((roomId, frame))
  }
}
