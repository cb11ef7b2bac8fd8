/**
 Choosing a codec by payload size, carrying the choice in the packet's flag bits, and undoing
 it at the receiver. The codecs themselves are parameters.
 */
module Compression {
  import opened Bytes
  import opened Sequences

  type Payload = seq<byte>

  /** LZ4 always produces an output; Zstd may report an error. */
  datatype Codecs = Codecs(
    lz4: Payload -> Payload,
    unlz4: Payload -> Option<Payload>,
    zstd: Payload -> Option<Payload>,
    unzstd: Payload -> Option<Payload>)

  ghost predicate Lossless(c: Codecs) {
    && (forall data :: c.unlz4(c.lz4(data)) == Some(data))
    && (forall data :: c.zstd(data).Some? ==> c.unzstd(c.zstd(data).value) == Some(data))
  }

  datatype Codec = Raw | LZ4 | ZSTD

  const FLAG_COMPRESS_LZ4: bv32 := 0x01
  const FLAG_COMPRESS_ZSTD: bv32 := 0x02
  const FLAG_UNRELIABLE: bv32 := 0x04
  const FLAG_HAS_CHECKSUM: bv32 := 0x08
  const FLAG_LITTLE_ENDIAN: bv32 := 0x10
  const FLAG_DUPLEX: bv32 := 0x20
  const FLAG_SIGNED: bv32 := 0x40

  function FlagsToCodec(flags: bv32): Codec {
    if flags & FLAG_COMPRESS_ZSTD != 0 then ZSTD
    else if flags & FLAG_COMPRESS_LZ4 != 0 then LZ4
    else Raw
  }

  function SelectCodec(data: Payload): Codec {
    if |data| <= 63 then Raw else if |data| <= 255 then LZ4 else ZSTD
  }

  datatype Policy = Auto | Never | Always

  /**
   The flags and body to send, or None when Zstd fails. `likely` is the compressibility probe
   consulted under the automatic policy.
   */
  function CompressForPacket(
      c: Codecs, likely: Payload -> bool, data: Payload, policy: Policy): Option<(bv32, Payload)>
  {
    if policy.Never? then Some((0, data)) else
      match SelectCodec(data)
      case Raw => Some((0, data))
      case LZ4 =>
        var compressed := c.lz4(data);
        Some(if |compressed| < |data| then (FLAG_COMPRESS_LZ4, compressed) else (0, data))
      case ZSTD =>
        if policy.Auto? && !likely(data) then Some((0, data)) else
          match c.zstd(data)
          case None => None
          case Some(compressed) =>
            Some(if |compressed| < |data| then (FLAG_COMPRESS_ZSTD, compressed) else (0, data))
  }

  function DecompressPayload(c: Codecs, flags: bv32, data: Payload): Option<Payload> {
    match FlagsToCodec(flags)
    case Raw => Some(data)
    case LZ4 => c.unlz4(data)
    case ZSTD => c.unzstd(data)
  }

  // ----- Flag bits -----

  /** The flags a compressor can emit. */
  predicate CodecFlags(flags: bv32) {
    flags == 0 || flags == FLAG_COMPRESS_LZ4 || flags == FLAG_COMPRESS_ZSTD
  }

  lemma CodecBitsAreIndependent(flags: bv32, extra: bv32)
    requires extra & (FLAG_COMPRESS_LZ4 | FLAG_COMPRESS_ZSTD) == 0
    ensures FlagsToCodec(flags | extra) == FlagsToCodec(flags)
  {
    assert (flags | extra) & 0x01 == flags & 0x01;
    assert (flags | extra) & 0x02 == flags & 0x02;
  }

  /** Extra flags are harmless for every emitted codec exactly when they avoid the two codec bits. */
  lemma HarmlessFlagsExactly(extra: bv32)
    ensures (forall flags :: CodecFlags(flags) ==> FlagsToCodec(flags | extra) == FlagsToCodec(flags)) <==>
      extra & 0x03 == 0
  {
    if extra & (FLAG_COMPRESS_LZ4 | FLAG_COMPRESS_ZSTD) == 0 {
      forall flags: bv32 ensures FlagsToCodec(flags | extra) == FlagsToCodec(flags) {
        CodecBitsAreIndependent(flags, extra);
      }
    } else {
      var none: bv32 := 0;
      assert none | extra == extra;
      assert CodecFlags(none) && FlagsToCodec(none) == Raw;
      assert extra & 0x02 == 0 ==> extra & 0x01 != 0;
      assert FlagsToCodec(none | extra) != Raw;
    }
  }

  lemma OtherFlagsAreHarmless(extra: bv32)
    requires extra & !(FLAG_UNRELIABLE | FLAG_HAS_CHECKSUM | FLAG_LITTLE_ENDIAN | FLAG_DUPLEX | FLAG_SIGNED) == 0
    ensures extra & 0x03 == 0
    ensures FLAG_UNRELIABLE | FLAG_HAS_CHECKSUM | FLAG_LITTLE_ENDIAN | FLAG_DUPLEX | FLAG_SIGNED == 0x7C
  {}

  /** The body is the payload itself or a shorter encoding of it, flagged as such. */
  ghost predicate IsEncodingOf(c: Codecs, flags: bv32, body: Payload, data: Payload) {
    (flags == 0 && body == data) ||
    (|body| < |data| && ((flags == FLAG_COMPRESS_LZ4 && body == c.lz4(data)) ||
                         (flags == FLAG_COMPRESS_ZSTD && c.zstd(data) == Some(body))))
  }

  lemma EncodingDecodes(c: Codecs, flags: bv32, extra: bv32, body: Payload, data: Payload)
    requires Lossless(c) && IsEncodingOf(c, flags, body, data)
    requires extra & (FLAG_COMPRESS_LZ4 | FLAG_COMPRESS_ZSTD) == 0
    ensures DecompressPayload(c, flags | extra, body) == Some(data)
  {
    CodecBitsAreIndependent(flags, extra);
  }

  lemma CompressEncodes(c: Codecs, likely: Payload -> bool, data: Payload, policy: Policy)
    ensures match CompressForPacket(c, likely, data, policy)
      case None => c.zstd(data).None?
      case Some((flags, body)) => IsEncodingOf(c, flags, body, data)
  {}

  /**
   Which codec is used: none below 64 bytes or under the policy Never, LZ4 from 64 to 255, Zstd
   from 256, and that only if the policy is Always or the probe is for it; and the output of
   either only if it is shorter.
   */
  lemma CodecChosenExactly(c: Codecs, likely: Payload -> bool, data: Payload, policy: Policy)
    ensures var sent := CompressForPacket(c, likely, data, policy);
      if policy == Never || |data| < 64 then sent == Some((0, data))
      else if |data| < 256 then
        sent == Some(if |c.lz4(data)| < |data| then (0x01, c.lz4(data)) else (0, data))
      else if policy == Auto && !likely(data) then sent == Some((0, data))
      else
        match c.zstd(data)
        case None => sent == None
        case Some(z) => sent == Some(if |z| < |data| then (0x02, z) else (0, data))
  {}

  /** What the receiver makes of the packet, whatever other flags were set on it. */
  ghost predicate Restores(c: Codecs, sent: (bv32, Payload), extra: bv32, data: Payload) {
    |sent.1| <= |data| && DecompressPayload(c, sent.0 | extra, sent.1) == Some(data)
  }

  /**
   Compression is transparent: under any policy, decompressing what was emitted, with any
   further flags that avoid the codec bits, returns the payload, and the body never grows.
   */
  lemma CompressionIsTransparent(c: Codecs, likely: Payload -> bool, data: Payload, policy: Policy, extra: bv32)
    requires Lossless(c) && extra & (FLAG_COMPRESS_LZ4 | FLAG_COMPRESS_ZSTD) == 0
    ensures CompressForPacket(c, likely, data, policy).None? ==> c.zstd(data).None?
    ensures CompressForPacket(c, likely, data, policy).Some? ==>
      Restores(c, CompressForPacket(c, likely, data, policy).value, extra, data)
  {
    CompressEncodes(c, likely, data, policy);
    if CompressForPacket(c, likely, data, policy).Some? {
      var sent := CompressForPacket(c, likely, data, policy).value;
      EncodingDecodes(c, sent.0, extra, sent.1, data);
    }
  }

  /** What any payload decompresses to: the Zstd bit goes before the LZ4 bit, and without either it is as it is. */
  lemma PayloadDecodesExactly(c: Codecs, flags: bv32, data: Payload)
    ensures DecompressPayload(c, flags, data) ==
      if flags & 0x02 != 0 then c.unzstd(data) else if flags & 0x01 != 0 then c.unlz4(data) else Some(data)
  {}

  // ----- The codec-prefixed form and the Python packets built on it -----

  function CompressBytes(c: Codecs, data: Payload): Option<Payload> {
    match SelectCodec(data)
    case Raw => Some([0] + data)
    case LZ4 => Some([1] + c.lz4(data))
    case ZSTD => match c.zstd(data) case None => None case Some(z) => Some([2] + z)
  }

  function DecompressBytes(c: Codecs, data: Payload): Option<Payload> {
    if data == [] then Some([])
    else if data[0] == 0 then Some(data[1..])
    else if data[0] == 1 then c.unlz4(data[1..])
    else if data[0] == 2 then c.unzstd(data[1..])
    else None
  }

  lemma PrefixedRoundTrip(c: Codecs, data: Payload)
    requires Lossless(c) && CompressBytes(c, data).Some?
    ensures DecompressBytes(c, CompressBytes(c, data).value) == Some(data)
  {
    var out := CompressBytes(c, data).value;
    match SelectCodec(data) {
      case Raw => assert out[1..] == data;
      case LZ4 => assert out[1..] == c.lz4(data);
      case ZSTD => assert out[1..] == c.zstd(data).value;
    }
  }

  /** What any prefixed input decompresses to: an empty one to nothing, one of an unknown codec to an error. */
  lemma PrefixedDecodesExactly(c: Codecs, codec: byte, body: Payload)
    ensures DecompressBytes(c, []) == Some([])
    ensures DecompressBytes(c, [codec] + body) ==
      if codec == 0 then Some(body)
      else if codec == 1 then c.unlz4(body)
      else if codec == 2 then c.unzstd(body)
      else None
  {
    assert ([codec] + body)[1..] == body;
  }

  const COMPRESSED: bv32 := 0x0001
  const CODEC_LZ4: bv32 := 0x0080
  const CODEC_ZSTD: bv32 := 0x0100

  /** Compressing a packet's payload; `native` says whether the codecs are installed. */
  function PacketCompress(c: Codecs, native: bool, payload: Payload, flags: bv32): Option<(Payload, bv32)> {
    if !native || |payload| < 64 then Some((payload, flags)) else
      match CompressBytes(c, payload)
      case None => None
      case Some(compressed) =>
        if |compressed| >= |payload| then Some((payload, flags))
        else if compressed[0] == 1 then Some((compressed[1..], flags | CODEC_LZ4))
        else if compressed[0] == 2 then Some((compressed[1..], flags | CODEC_ZSTD))
        else Some((payload, flags))
  }

  /** Undoing it; without the codecs installed a compressed payload is passed through as it is. */
  function PacketDecompress(
      c: Codecs, inflate: Payload -> Option<Payload>, native: bool, payload: Payload, flags: bv32): Option<Payload>
  {
    if flags & CODEC_LZ4 != 0 then (if native then DecompressBytes(c, [1] + payload) else Some(payload))
    else if flags & CODEC_ZSTD != 0 then (if native then DecompressBytes(c, [2] + payload) else Some(payload))
    else if flags & COMPRESSED != 0 then inflate(payload)
    else Some(payload)
  }

  const PACKET_CODEC_BITS: bv32 := COMPRESSED | CODEC_LZ4 | CODEC_ZSTD

  lemma PacketFlagBits(flags: bv32)
    requires flags & PACKET_CODEC_BITS == 0
    ensures flags & COMPRESSED == 0 && flags & CODEC_LZ4 == 0 && flags & CODEC_ZSTD == 0
    ensures (flags | CODEC_LZ4) & CODEC_LZ4 != 0
    ensures (flags | CODEC_ZSTD) & CODEC_LZ4 == 0 && (flags | CODEC_ZSTD) & CODEC_ZSTD != 0
    ensures (flags | CODEC_LZ4) & PACKET_CODEC_BITS != 0 && (flags | CODEC_ZSTD) & PACKET_CODEC_BITS != 0
  {}

  /** What is sent is the payload under its own flags, or a shorter body flagged with its codec. */
  lemma PacketCompressEncodes(c: Codecs, native: bool, payload: Payload, flags: bv32)
    ensures match PacketCompress(c, native, payload, flags)
      case None => native && |payload| > 255 && c.zstd(payload).None?
      case Some((body, sent)) =>
        (body == payload && sent == flags) ||
        (native && |body| < |payload| &&
         ((sent == flags | CODEC_LZ4 && body == c.lz4(payload)) ||
          (sent == flags | CODEC_ZSTD && c.zstd(payload) == Some(body))))
  {
    if native && CompressBytes(c, payload).Some? {
      var out := CompressBytes(c, payload).value;
      assert out == [out[0]] + out[1..];
    }
  }

  /**
   What any packet decompresses to: the LZ4 bit goes before the Zstd bit and that before the older
   zlib bit, and without the codecs the first two pass the payload through.
   */
  lemma PacketDecodesExactly(
      c: Codecs, inflate: Payload -> Option<Payload>, native: bool, payload: Payload, flags: bv32)
    ensures PacketDecompress(c, inflate, native, payload, flags) ==
      if flags & 0x0180 != 0 && !native then Some(payload)
      else if flags & 0x0080 != 0 then c.unlz4(payload)
      else if flags & 0x0100 != 0 then c.unzstd(payload)
      else if flags & 0x0001 != 0 then inflate(payload)
      else Some(payload)
  {
    PrefixedDecodesExactly(c, 1, payload);
    PrefixedDecodesExactly(c, 2, payload);
    assert flags & 0x0180 != 0 <==> flags & 0x0080 != 0 || flags & 0x0100 != 0;
  }

  /** Which codec a packet gets: none without the codecs or below 64 bytes, LZ4 to 255, Zstd from 256. */
  lemma PacketCodecChosenExactly(c: Codecs, native: bool, payload: Payload, flags: bv32)
    ensures var sent := PacketCompress(c, native, payload, flags);
      if !native || |payload| < 64 then sent == Some((payload, flags))
      else if |payload| < 256 then
        sent == Some(if |c.lz4(payload)| + 1 < |payload| then (c.lz4(payload), flags | 0x80) else (payload, flags))
      else
        match c.zstd(payload)
        case None => sent == None
        case Some(z) => sent == Some(if |z| + 1 < |payload| then (z, flags | 0x100) else (payload, flags))
  {
    if native && CompressBytes(c, payload).Some? {
      var out := CompressBytes(c, payload).value;
      assert out == [out[0]] + out[1..];
    }
  }

  /**
   A packet whose own flags avoid the codec bits comes back as it was exactly when the receiver
   has the codecs whenever the sender has, or the packet went out uncompressed. It never grows,
   and it is not sent only when Zstd fails.
   */
  lemma PacketCompressionIsTransparent(
      c: Codecs, inflate: Payload -> Option<Payload>, sender: bool, receiver: bool, payload: Payload, flags: bv32)
    requires Lossless(c) && flags & PACKET_CODEC_BITS == 0
    ensures match PacketCompress(c, sender, payload, flags)
      case None => sender && |payload| > 255 && c.zstd(payload).None?
      case Some((body, sent)) =>
        |body| <= |payload| &&
        (PacketDecompress(c, inflate, receiver, body, sent) == Some(payload) <==>
          (sender ==> receiver) || sent & PACKET_CODEC_BITS == 0)
  {
    PacketFlagBits(flags);
    PacketCompressEncodes(c, sender, payload, flags);
    if PacketCompress(c, sender, payload, flags).Some? {
      var (body, sent) := PacketCompress(c, sender, payload, flags).value;
      PrefixedDecodesExactly(c, 1, body);
      PrefixedDecodesExactly(c, 2, body);
    }
  }

  /** Whatever lossless codecs both sides have installed or lack, what is sent under these flags comes back. */
  ghost predicate SafePacketFlags(flags: bv32) {
    forall c: Codecs, inflate: Payload -> Option<Payload>, native: bool, payload: Payload
      :: Lossless(c) ==> PacketRestored(c, inflate, native, payload, flags)
  }

  ghost predicate PacketRestored(
      c: Codecs, inflate: Payload -> Option<Payload>, native: bool, payload: Payload, flags: bv32)
  {
    match PacketCompress(c, native, payload, flags)
    case None => true
    case Some((body, sent)) => PacketDecompress(c, inflate, native, body, sent) == Some(payload)
  }

  /** Codecs that prefix one byte, and so decode no empty input. */
  function PrefixCodecs(): Codecs {
    Codecs(
      data => [0] + data, data => if data == [] then None else Some(data[1..]),
      data => Some([0] + data), data => if data == [] then None else Some(data[1..]))
  }

  lemma PrefixCodecsAreLossless()
    ensures Lossless(PrefixCodecs())
  {
    assert forall data: Payload :: ([0] + data)[1..] == data;
  }

  lemma EmptyPacketLost(inflate: Payload -> Option<Payload>, flags: bv32)
    requires flags & PACKET_CODEC_BITS != 0 && inflate([]) == None
    ensures !PacketRestored(PrefixCodecs(), inflate, true, [], flags)
  {
    PrefixedDecodesExactly(PrefixCodecs(), 1, []);
    PrefixedDecodesExactly(PrefixCodecs(), 2, []);
    assert flags & CODEC_LZ4 == 0 && flags & CODEC_ZSTD == 0 ==> flags & COMPRESSED != 0;
  }

  /** The caller's flags are safe exactly when they avoid the codec bits. */
  lemma SafePacketFlagsExactly(flags: bv32)
    ensures SafePacketFlags(flags) <==> flags & PACKET_CODEC_BITS == 0
  {
    if flags & PACKET_CODEC_BITS == 0 {
      forall c: Codecs, inflate: Payload -> Option<Payload>, native: bool, payload: Payload | Lossless(c)
        ensures PacketRestored(c, inflate, native, payload, flags)
      {
        PacketCompressionIsTransparent(c, inflate, native, native, payload, flags);
      }
    } else {
      PrefixCodecsAreLossless();
      EmptyPacketLost(data => None, flags);
    }
  }
}
