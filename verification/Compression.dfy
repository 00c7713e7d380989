/** The application-layer compression envelope (src/compression.rs). DEFLATE
    itself (RFC 1951) is a parameter, of which only losslessness is used. */
module Compression {
  import opened Prelude
  import opened Codec
  import Utf8

  const FLAG_COMPRESSED: byte := 1
  const FLAG_TEXT: byte := 2
  /** All defined flag bits set; a larger byte has an unknown one. */
  const FLAG_KNOWN: byte := 3

  /** `usize` and `u64` have this many values. */
  const TWO_64 := 0x1_0000_0000_0000_0000

  /** A decoder's whole output for some input: the bytes it can produce, and
      whether it then ends cleanly or fails. */
  datatype Inflated = Inflated(output: seq<byte>, clean: bool)

  datatype Deflate = Deflate(encode: (nat, seq<byte>) -> seq<byte>, decode: seq<byte> -> Inflated) {

    /** Inflating what was deflated, at any defined level, gives it back. */
    ghost predicate Lossless() {
      forall level: nat, data: seq<byte> {:trigger encode(level, data)} ::
        level <= 9 ==> decode(encode(level, data)) == Inflated(data, true)
    }
  }

  datatype Config = Config(level: nat, minSize: nat, maxSize: nat) {

    ghost predicate Valid() {
      level <= 9 && minSize < TWO_64 && maxSize < TWO_64
    }
  }

  /** One `read` of a decoder that offers at most `offer` bytes at a time, but
      some as long as it has any: at most `want`, none only at the end. */
  function ReadSize(available: nat, offer: nat, want: nat): (n: nat)
    ensures n <= available && n <= want
    ensures n == 0 <==> available == 0 || want == 0
  {
    var most := if offer == 0 then 1 else offer;
    var n := if most < want then most else want;
    if n < available then n else available
  }

  /** `read_to_end` through `take(limit)`: reads in whatever chunks the decoder
      offers until the limit, the end, or an error. `taken` counts the bytes
      drawn from the decoder. */
  method ReadToEnd(stream: Inflated, offers: seq<nat>, limit: nat)
    returns (r: Result<seq<byte>, WsError>, taken: nat)
    ensures taken <= limit && taken <= |stream.output|
    ensures r == if |stream.output| >= limit then Ok(stream.output[..limit])
                 else if stream.clean then Ok(stream.output) else Err(WsError.Compression)
  {
    var out: seq<byte> := [];
    var k := 0;
    while |out| < limit
      invariant |out| <= limit && |out| <= |stream.output| && out == stream.output[..|out|]
      decreases limit - |out|
    {
      var offer := if k < |offers| then offers[k] else limit;
      var n := ReadSize(|stream.output| - |out|, offer, limit - |out|);
      if n == 0 {
        assert out == stream.output;
        return if stream.clean then Ok(out) else Err(WsError.Compression), |out|;
      }
      out := out + stream.output[|out|..|out| + n];
      k := k + 1;
    }
    return Ok(out), |out|;
  }

  /** The outcome of decoding a payload envelope, without the chunks: unknown
      flags and corrupt streams are refused, too large a payload too. The cap
      plus one wraps around at the largest `max_size`. */
  function Decompressed(d: Deflate, c: Config, enveloped: seq<byte>): Result<seq<byte>, WsError> {
    if enveloped == [] || enveloped[0] > FLAG_KNOWN then Err(WsError.Compression)
    else
      var body := enveloped[1..];
      if enveloped[0] % 2 == 0 then
        if |body| > c.maxSize then Err(PayloadTooLarge) else Ok(body)
      else
        var whole := d.decode(body);
        if c.maxSize + 1 == TWO_64 then Ok([])
        else if |whole.output| > c.maxSize then Err(PayloadTooLarge)
        else if !whole.clean then Err(WsError.Compression)
        else Ok(whole.output)
  }

  /** Whether the writer stores the deflated form. */
  predicate Shrinks(d: Deflate, c: Config, data: seq<byte>) {
    |data| >= c.minSize && |d.encode(c.level, data)| < |data|
  }

  class FrameCompressor {
    const deflate: Deflate
    const config: Config

    constructor (deflate: Deflate, config: Config)
      ensures this.deflate == deflate && this.config == config
    {
      this.deflate, this.config := deflate, config;
    }

    /** The payload envelope: one flag byte, then the deflated payload if that
        is shorter and the payload not below the minimum, else the payload. */
    method Compress(data: seq<byte>) returns (out: seq<byte>)
      ensures if |data| < config.minSize || |deflate.encode(config.level, data)| >= |data|
              then out == [0] + data
              else out == [1] + deflate.encode(config.level, data)
    {
      var flags: byte := 0;
      var body := data;
      if |data| >= config.minSize {
        var compressed := deflate.encode(config.level, data);
        if |compressed| < |data| {
          flags := FLAG_COMPRESSED;
          body := compressed;
        }
      }
      out := [flags];
      out := out + body;
    }

    /** Whatever chunks the inflater hands out, the result is that of inflating
        everything and then checking the size, and at most one byte more than
        the cap is ever drawn. */
    method Decompress(enveloped: seq<byte>, offers: seq<nat>) returns (r: Result<seq<byte>, WsError>, taken: nat)
      requires config.Valid()
      ensures r == Decompressed(deflate, config, enveloped)
      ensures r.Ok? ==> |r.value| <= config.maxSize
      ensures taken <= config.maxSize + 1
    {
      if enveloped == [] { return Err(WsError.Compression), 0; }
      var flags, body := enveloped[0], enveloped[1..];
      if flags > FLAG_KNOWN { return Err(WsError.Compression), 0; }
      if flags % 2 == 0 {
        return if |body| > config.maxSize then Err(PayloadTooLarge) else Ok(body), 0;
      }
      var limit := (config.maxSize + 1) % TWO_64;
      r, taken := ReadToEnd(deflate.decode(body), offers, limit);
      if r.Ok? && |r.value| > config.maxSize { r := Err(PayloadTooLarge); }
    }

    /** The frame envelope: a second flag byte before the payload's own. */
    method CompressFrame(frame: Frame) returns (wire: Frame)
      ensures wire == Binary(Wire(deflate, config, frame))
    {
      var flags: byte := 0;
      if frame.Text? { flags := FLAG_TEXT; }
      var payload := Compress(frame.AsBytes());
      var out := [flags];
      out := out + payload;
      wire := Binary(out);
    }

    method DecompressFrame(frame: Frame, offers: seq<nat>) returns (r: Result<Frame, WsError>)
      requires config.Valid()
      ensures r == Restored(deflate, config, frame)
    {
      var bytes := frame.AsBytes();
      if bytes == [] { return Err(WsError.Compression); }
      var flags := bytes[0];
      if flags > FLAG_KNOWN { return Err(WsError.Compression); }
      var payload, _ := Decompress(bytes[1..], offers);
      match payload
      case Err(e) => return Err(e);
      case Ok(p) =>
        if flags >= FLAG_TEXT {
          var s := Utf8.Decode(p);
          match s
          case None => return Err(WsError.Compression);
          case Some(text) => return Ok(Text(text));
        }
        return Ok(Binary(p));
    }
  }

  /** The bytes `CompressFrame` puts on the wire. */
  function Wire(d: Deflate, c: Config, frame: Frame): seq<byte> {
    var data := frame.AsBytes();
    [if frame.Text? then FLAG_TEXT else 0]
    + if Shrinks(d, c, data) then [FLAG_COMPRESSED] + d.encode(c.level, data) else [0] + data
  }

  /** What `DecompressFrame` makes of a frame: the outer flags tell the kind,
      the rest is a payload envelope. */
  function Restored(d: Deflate, c: Config, frame: Frame): Result<Frame, WsError> {
    var bytes := frame.AsBytes();
    if bytes == [] || bytes[0] > FLAG_KNOWN then Err(WsError.Compression)
    else
      match Decompressed(d, c, bytes[1..])
      case Err(e) => Err(e)
      case Ok(p) =>
        if bytes[0] >= FLAG_TEXT then
          match Utf8.Decode(p)
          case None => Err(WsError.Compression)
          case Some(s) => Ok(Text(s))
        else Ok(Binary(p))
  }

  lemma PayloadComesBack(d: Deflate, w: Config, r: Config, data: seq<byte>)
    requires d.Lossless() && w.Valid() && r.Valid()
    ensures var envelope := if Shrinks(d, w, data) then [FLAG_COMPRESSED] + d.encode(w.level, data) else [0] + data;
            Decompressed(d, r, envelope)
            == if Shrinks(d, w, data) && r.maxSize + 1 == TWO_64 then Ok([])
               else if |data| > r.maxSize then Err(PayloadTooLarge) else Ok(data)
  {
    var e := d.encode(w.level, data);
    assert d.decode(e) == Inflated(data, true);
    assert ([FLAG_COMPRESSED] + e)[1..] == e && ([0] + data)[1..] == data;
  }

  /** Any reader undoes any writer: it gives back the same frame, kind and
      bytes, exactly when the payload is within the reader's cap and the cap
      plus one has not wrapped around on a compressed payload. Otherwise the
      payload is refused as too large, or, after the wrap, read as empty. */
  lemma FrameRoundTrip(d: Deflate, w: Config, r: Config, frame: Frame)
    requires d.Lossless() && w.Valid() && r.Valid()
    ensures var back := Restored(d, r, Binary(Wire(d, w, frame)));
            var wrapped := Shrinks(d, w, frame.AsBytes()) && r.maxSize + 1 == TWO_64;
            && (back == Ok(frame) <==> frame.Len() <= r.maxSize && !wrapped)
            && (frame.Len() > r.maxSize && !wrapped ==> back == Err(PayloadTooLarge))
            && (wrapped ==> back == Ok(if frame.Text? then Text("") else Binary([])))
  {
    var data, wire := frame.AsBytes(), Wire(d, w, frame);
    PayloadComesBack(d, w, r, data);
    assert wire[1..] == if Shrinks(d, w, data) then [FLAG_COMPRESSED] + d.encode(w.level, data) else [0] + data;
    if frame.Text? {
      Utf8.DecodeEncode(frame.text);
      assert Utf8.Decode([]) == Some("");
      assert data == [] ==> frame.text == "" by { EmptyText(frame.text); }
    }
  }

  /** A lossless encoder that shortens one payload and lengthens the rest. */
  function Sample(): Deflate {
    Deflate((level, data) => if data == [7, 7] then [0] else [1] + data,
            body => if body == [0] then Inflated([7, 7], true)
                    else if body != [] && body[0] == 1 then Inflated(body[1..], true)
                    else Inflated([], false))
  }

  /** So the exception is met: two bytes, deflated to one and read back under
      the largest cap, come back as none. */
  lemma WrappedCapExample()
    ensures Sample().Lossless()
    ensures var c := Config(6, 0, TWO_64 - 1);
            && c.Valid() && Shrinks(Sample(), c, [7, 7])
            && Restored(Sample(), c, Binary(Wire(Sample(), c, Binary([7, 7])))) == Ok(Binary([]))
  {
  }

  lemma EmptyText(s: string)
    ensures Utf8.Encode(s) == [] <==> s == ""
  {
  }

  /** What the writer puts on the wire: the kind, whether the payload is
      deflated, and the payload in that form. It is deflated exactly when it is
      not below the minimum size and deflating shortens it. */
  lemma WireLayout(d: Deflate, c: Config, frame: Frame)
    ensures var data, wire := frame.AsBytes(), Wire(d, c, frame);
            var deflated := d.encode(c.level, data);
            && |wire| >= 2
            && wire[0] == (if frame.Text? then 2 else 0)
            && (if |data| < c.minSize || |deflated| >= |data|
                then wire[1] == 0 && wire[2..] == data
                else wire[1] == 1 && wire[2..] == deflated)
  {
  }

  /** Which envelopes are read, and as what: an empty one or an unknown flag
      never; a stored payload as it is; a deflated one if its stream ends
      cleanly, or, when the cap plus one wraps around, as empty unread; and
      nothing beyond the cap. */
  lemma ReadIff(d: Deflate, c: Config, enveloped: seq<byte>, data: seq<byte>)
    requires c.Valid()
    ensures Decompressed(d, c, enveloped) == Ok(data) <==>
              && |enveloped| >= 1 && enveloped[0] in {0, 1, 2, 3} && |data| <= c.maxSize
              && (if enveloped[0] in {0, 2} then enveloped[1..] == data
                  else if c.maxSize + 1 == TWO_64 then data == []
                  else d.decode(enveloped[1..]) == Inflated(data, true))
  {
  }

  /** And of the refusals, too large is what goes beyond the cap, clean or not;
      everything else is corrupt. */
  lemma RefusedIff(d: Deflate, c: Config, enveloped: seq<byte>)
    requires c.Valid()
    ensures Decompressed(d, c, enveloped) == Err(PayloadTooLarge) <==>
              && |enveloped| >= 1 && enveloped[0] in {0, 1, 2, 3}
              && (if enveloped[0] in {0, 2} then |enveloped| - 1 > c.maxSize
                  else c.maxSize + 1 != TWO_64 && |d.decode(enveloped[1..]).output| > c.maxSize)
    ensures var r := Decompressed(d, c, enveloped);
            r.Err? ==> r.error == PayloadTooLarge || r.error == WsError.Compression
  {
  }

  /** A wire is read as a frame exactly when its first flag byte is known, the
      rest is read as a payload, and a payload flagged as text is UTF-8. */
  lemma RestoredIff(d: Deflate, c: Config, wire: seq<byte>, frame: Frame)
    requires c.Valid()
    ensures Restored(d, c, Binary(wire)) == Ok(frame) <==>
              && |wire| >= 1 && wire[0] in {0, 1, 2, 3}
              && (frame.Text? <==> wire[0] in {2, 3})
              && Decompressed(d, c, wire[1..]) == Ok(frame.AsBytes())
    ensures Restored(d, c, Binary(wire)) == Err(PayloadTooLarge) <==>
              && |wire| >= 1 && wire[0] in {0, 1, 2, 3}
              && Decompressed(d, c, wire[1..]) == Err(PayloadTooLarge)
    ensures var r := Restored(d, c, Binary(wire));
            r.Err? ==> r.error == PayloadTooLarge || r.error == WsError.Compression
  {
    if frame.Text? { Utf8.DecodeEncode(frame.text); }
    var r := Decompressed(d, c, if wire == [] then [] else wire[1..]);
    if r.Ok? && Utf8.Decode(r.value).Some? { Utf8.EncodeDecode(r.value); }
  }

  /** The wire form never exceeds the payload by more than its two flag bytes. */
  lemma WireNeverGrows(d: Deflate, c: Config, frame: Frame)
    ensures |Wire(d, c, frame)| <= frame.Len() + 2
    ensures Shrinks(d, c, frame.AsBytes()) <==> |Wire(d, c, frame)| < frame.Len() + 2
  {
  }

  /** Decoding fails closed: no byte string with an unknown flag bit in either
      flag byte, or without both, yields a frame, nor text that is not UTF-8. */
  lemma OnlyKnownEnvelopes(d: Deflate, c: Config, bytes: seq<byte>)
    requires Restored(d, c, Binary(bytes)).Ok? && c.Valid()
    ensures |bytes| >= 2 && bytes[0] <= FLAG_KNOWN && bytes[1] <= FLAG_KNOWN
    ensures var frame := Restored(d, c, Binary(bytes)).value;
            && frame.Len() <= c.maxSize
            && (frame.Text? <==> bytes[0] >= FLAG_TEXT)
  {
    var p := Decompressed(d, c, bytes[1..]).value;
    if bytes[0] >= FLAG_TEXT { Utf8.EncodeDecode(p); }
  }

  /** Envelopes are not unique: the outer compressed bit and the inner text bit
      are accepted and ignored. */
  lemma IgnoredBits(d: Deflate, c: Config, outer: byte, inner: byte, body: seq<byte>)
    requires outer <= FLAG_KNOWN && inner <= FLAG_KNOWN
    ensures Restored(d, c, Binary([outer, inner] + body))
            == Restored(d, c, Binary([if outer >= 2 then 2 else 0, inner % 2] + body))
  {
    var a, b: seq<byte> := [outer, inner] + body, [if outer >= 2 then 2 else 0, inner % 2] + body;
    assert a[1..][1..] == body && b[1..][1..] == body;
  }
}
