/**
 Long-lived duplex streams: an opening frame behind the protocol magic, then one
 length-prefixed packet per message, compressed and flagged. The packet encoding and the
 codecs are parameters; the bytes on the stream are not.
 */
module DuplexStream {
  import opened Bytes
  import opened Compression
  import opened Sequences

  const PROTO_MAGIC: seq<byte> := [0x4E, 0x43, 0x4F, 0x4E, 0x01]
  const PROTO_VERSION := 1
  const MAX_STREAM_SIZE := 100 * 1024 * 1024

  datatype Packet = Packet(version: nat, flags: bv32, channel: string, timestamp: nat, payload: Payload)

  /** The foreign parts: packet encoding, codecs and the compressibility probe. */
  datatype Library = Library(
    encode: Packet -> seq<byte>,
    decode: seq<byte> -> Option<Packet>,
    codecs: Codecs,
    likely: Payload -> bool)

  /** A packet behind its length, which is cut to 32 bits. */
  function WirePacket(lib: Library, p: Packet): seq<byte> {
    ToBE32(|lib.encode(p)| % TWO_32) + lib.encode(p)
  }

  function OpeningPacket(name: string, now: nat): Packet {
    Packet(PROTO_VERSION, FLAG_DUPLEX, name, now, [])
  }

  function OpeningBytes(lib: Library, name: string, now: nat): seq<byte> {
    PROTO_MAGIC + WirePacket(lib, OpeningPacket(name, now))
  }

  datatype Message = Message(now: nat, data: Payload)

  function MessagePacket(lib: Library, name: string, m: Message): Option<Packet> {
    match CompressForPacket(lib.codecs, lib.likely, m.data, Auto)
    case None => None
    case Some((flags, body)) => Some(Packet(PROTO_VERSION, flags | FLAG_DUPLEX, name, m.now, body))
  }

  datatype ReadResult = End | Error | Got(packet: Packet)

  /** Reading one packet from what the peer wrote before it finished the stream. */
  function ReadFramed(lib: Library, stream: seq<byte>, maxSize: nat): (seq<byte>, ReadResult) {
    if |stream| < 4 then ([], End) else
      var length := FromBE32(stream[..4]);
      if length == 0 then (stream[4..], End)
      else if length > maxSize then (stream[4..], Error)
      else if |stream| < 4 + length then ([], Error)
      else
        (stream[4 + length..],
         match lib.decode(stream[4..4 + length])
         case None => Error
         case Some(p) => if p.version != PROTO_VERSION then Error else Got(p))
  }

  /** The acceptor's side of opening: the channel name and what is left to read. */
  function Accept(lib: Library, stream: seq<byte>): Option<(string, seq<byte>)> {
    if |stream| < |PROTO_MAGIC| || stream[..|PROTO_MAGIC|] != PROTO_MAGIC then None else
      var (rest, result) := ReadFramed(lib, stream[|PROTO_MAGIC|..], MAX_STREAM_SIZE);
      if result.Got? && result.packet.flags & FLAG_DUPLEX != 0 then Some((result.packet.channel, rest)) else None
  }

  datatype Received = Closed | Failed | Data(data: Payload)

  function Receive(lib: Library, stream: seq<byte>): (seq<byte>, Received) {
    var (rest, result) := ReadFramed(lib, stream, MAX_STREAM_SIZE);
    (rest, match result
           case End => Closed
           case Error => Failed
           case Got(p) =>
             match DecompressPayload(lib.codecs, p.flags, p.payload)
             case None => Failed
             case Some(data) => Data(data))
  }

  class ConduitDuplexStream {
    const lib: Library
    const name: string
    var written: seq<byte>
    var unread: seq<byte>

    constructor (lib: Library, name: string, unread: seq<byte>)
      ensures this.lib == lib && this.name == name && written == [] && this.unread == unread
    {
      this.lib, this.name := lib, name;
      written, this.unread := [], unread;
    }

    method SendData(data: Payload, now: nat) returns (ok: bool)
      modifies this`written
      ensures ok == MessagePacket(lib, name, Message(now, data)).Some?
      ensures written == if ok then old(written) + WirePacket(lib, MessagePacket(lib, name, Message(now, data)).value)
                         else old(written)
    {
      var compressed := CompressForPacket(lib.codecs, lib.likely, data, Auto);
      if compressed.None? { return false; }
      var (flags, body) := compressed.value;
      var packet := Packet(PROTO_VERSION, flags | FLAG_DUPLEX, name, now, body);
      var encoded := lib.encode(packet);
      ghost var before := written;
      written := written + ToBE32(|encoded| % TWO_32);
      written := written + encoded;
      assert written == before + WirePacket(lib, packet);
      return true;
    }

    method RecvData() returns (received: Received)
      modifies this`unread
      ensures (unread, received) == Receive(lib, old(unread))
    {
      var (rest, result) := ReadFramed(lib, unread, MAX_STREAM_SIZE);
      unread := rest;
      match result {
        case End => return Closed;
        case Error => return Failed;
        case Got(packet) =>
          var data := DecompressPayload(lib.codecs, packet.flags, packet.payload);
          return if data.None? then Failed else Data(data.value);
      }
    }
  }

  // ----- Round trip -----

  ghost predicate Faithful(lib: Library) {
    Lossless(lib.codecs) && forall p :: lib.decode(lib.encode(p)) == Some(p)
  }

  /** The packet's encoding is neither empty nor longer than a receiver accepts. */
  predicate Transmissible(lib: Library, p: Packet) {
    0 < |lib.encode(p)| <= MAX_STREAM_SIZE
  }

  predicate Sendable(lib: Library, name: string, m: Message) {
    MessagePacket(lib, name, m).Some? && Transmissible(lib, MessagePacket(lib, name, m).value)
  }

  ghost predicate AllSendable(lib: Library, name: string, msgs: seq<Message>) {
    forall m :: m in msgs ==> Sendable(lib, name, m)
  }

  /**
   What is refused: without a whole length prefix, or with length 0, the stream has ended; a length
   over the limit, a packet cut short, one that does not decode and one of another version are errors.
   */
  lemma ReadRefusesExactly(lib: Library, stream: seq<byte>, maxSize: nat)
    ensures var length := if |stream| < 4 then 0 else FromBE32(stream[..4]);
      var body := if |stream| < 4 + length then [] else stream[4..4 + length];
      var (rest, result) := ReadFramed(lib, stream, maxSize);
      && (result == End <==> length == 0)
      && (result.Got? <==>
            0 < length <= maxSize && |stream| >= 4 + length && lib.decode(body).Some? &&
            lib.decode(body).value.version == 1)
      && (result.Got? ==> rest == stream[4 + length..] && lib.decode(body) == Some(result.packet))
      && |rest| <= |stream|
  {}

  /**
   What a stream is accepted on: the five bytes of the magic, then a packet of at most 100 MiB with
   the duplex flag, whose channel name it takes.
   */
  lemma AcceptsExactly(lib: Library, stream: seq<byte>)
    ensures Accept(lib, stream).Some? <==>
      && |stream| >= 5 && stream[..5] == [0x4E, 0x43, 0x4F, 0x4E, 0x01]
      && var read := ReadFramed(lib, stream[5..], 104_857_600).1; read.Got? && read.packet.flags & 0x20 != 0
    ensures Accept(lib, stream).Some? ==>
      var (rest, read) := ReadFramed(lib, stream[5..], 104_857_600);
      Accept(lib, stream) == Some((read.packet.channel, rest))
  {}

  /** A receiver sees the end only where the stream ended, and data only if a packet was read and decompressed. */
  lemma ReceivesExactly(lib: Library, stream: seq<byte>)
    ensures var (rest, result) := ReadFramed(lib, stream, 104_857_600);
      var data :=
        if result.Got? then DecompressPayload(lib.codecs, result.packet.flags, result.packet.payload) else None;
      && Receive(lib, stream).0 == rest
      && (Receive(lib, stream).1 == Closed <==> result == End)
      && (forall d :: Receive(lib, stream).1 == Data(d) <==> data == Some(d))
  {}

  /** A packet is written behind its length, cut to 32 bits, the most significant byte first. */
  lemma WrittenExactly(lib: Library, p: Packet)
    ensures var f := WirePacket(lib, p);
      && |f| == 4 + |lib.encode(p)| && f[4..] == lib.encode(p)
      && ((f[0] as int * 256 + f[1] as int) * 256 + f[2] as int) * 256 + f[3] as int
         == |lib.encode(p)| % 0x1_0000_0000
  {
    BE32RoundTrip(|lib.encode(p)| % TWO_32);
    BigEndian(ToBE32(|lib.encode(p)| % TWO_32));
  }

  /** The opening is the magic and a packet with version 1, the duplex flag, the name, the time and no payload. */
  lemma OpeningCarries(lib: Library, name: string, now: nat)
    ensures OpeningBytes(lib, name, now) ==
      [0x4E, 0x43, 0x4F, 0x4E, 0x01] + WirePacket(lib, Packet(1, 0x20, name, now, []))
  {}

  /** A message travels under version 1, the duplex flag, the stream's name and the current time. */
  lemma MessagePacketCarries(lib: Library, name: string, m: Message)
    ensures var sent := CompressForPacket(lib.codecs, lib.likely, m.data, Auto);
      MessagePacket(lib, name, m) ==
        if sent.None? then None else Some(Packet(1, sent.value.0 | 0x20, name, m.now, sent.value.1))
  {}

  lemma PrefixedParts(prefix: seq<byte>, body: seq<byte>, rest: seq<byte>)
    requires |prefix| == 4
    ensures var stream := prefix + body + rest;
      |stream| == 4 + |body| + |rest| && stream[..4] == prefix &&
      stream[4..4 + |body|] == body && stream[4 + |body|..] == rest
  {}

  lemma PrefixedIsRead(lib: Library, prefix: seq<byte>, body: seq<byte>, rest: seq<byte>, maxSize: nat, p: Packet)
    requires |prefix| == 4 && FromBE32(prefix) == |body| && 0 < |body| <= maxSize
    requires lib.decode(body) == Some(p) && p.version == PROTO_VERSION
    ensures ReadFramed(lib, prefix + body + rest, maxSize) == (rest, Got(p))
  {
    PrefixedParts(prefix, body, rest);
  }

  /** The length in front of a packet that is not cut reads as its length. */
  lemma WireParts(lib: Library, p: Packet) returns (prefix: seq<byte>)
    requires |lib.encode(p)| < TWO_32
    ensures WirePacket(lib, p) == prefix + lib.encode(p)
    ensures |prefix| == 4 && FromBE32(prefix) == |lib.encode(p)|
  {
    prefix := ToBE32(|lib.encode(p)|);
    BE32RoundTrip(|lib.encode(p)|);
  }

  lemma PacketIsRead(lib: Library, p: Packet, rest: seq<byte>)
    requires Faithful(lib) && Transmissible(lib, p) && p.version == PROTO_VERSION
    ensures ReadFramed(lib, WirePacket(lib, p) + rest, MAX_STREAM_SIZE) == (rest, Got(p))
  {
    var prefix := WireParts(lib, p);
    PrefixedIsRead(lib, prefix, lib.encode(p), rest, MAX_STREAM_SIZE, p);
  }

  function MessageBytes(lib: Library, name: string, m: Message): seq<byte>
    requires Sendable(lib, name, m)
  {
    WirePacket(lib, MessagePacket(lib, name, m).value)
  }

  lemma MessageIsReceived(lib: Library, name: string, m: Message, rest: seq<byte>)
    requires Faithful(lib) && Sendable(lib, name, m)
    ensures Receive(lib, MessageBytes(lib, name, m) + rest) == (rest, Data(m.data))
  {
    CompressionIsTransparent(lib.codecs, lib.likely, m.data, Auto, FLAG_DUPLEX);
    PacketIsRead(lib, MessagePacket(lib, name, m).value, rest);
  }

  /** The bytes of the messages, one after the other. */
  function Written(lib: Library, name: string, msgs: seq<Message>): seq<byte>
    requires forall m :: m in msgs ==> Sendable(lib, name, m)
  {
    if msgs == [] then [] else MessageBytes(lib, name, msgs[0]) + Written(lib, name, msgs[1..])
  }

  datatype Ending = CleanEnd | BrokenEnd

  /** Receiving until the stream ends or an error stops it. */
  function ReceiveAll(lib: Library, stream: seq<byte>): (seq<Payload>, Ending)
    decreases |stream|
  {
    var (rest, received) := Receive(lib, stream);
    match received
    case Closed => ([], CleanEnd)
    case Failed => ([], BrokenEnd)
    case Data(data) =>
      var (later, ending) := ReceiveAll(lib, rest);
      ([data] + later, ending)
  }

  function Payloads(msgs: seq<Message>): seq<Payload> {
    seq(|msgs|, i requires 0 <= i < |msgs| => msgs[i].data)
  }

  lemma FirstIsReceived(lib: Library, name: string, m: Message, rest: seq<byte>)
    requires Faithful(lib) && Sendable(lib, name, m)
    ensures ReceiveAll(lib, MessageBytes(lib, name, m) + rest) ==
      ([m.data] + ReceiveAll(lib, rest).0, ReceiveAll(lib, rest).1)
  {
    MessageIsReceived(lib, name, m, rest);
  }

  /** How many whole messages the first n bytes hold, and how many bytes follow them. */
  function Cut(lib: Library, name: string, msgs: seq<Message>, n: nat): (nat, nat)
    requires forall m :: m in msgs ==> Sendable(lib, name, m)
    decreases msgs
  {
    if msgs == [] || n < |MessageBytes(lib, name, msgs[0])| then (0, n) else
      var (whole, over) := Cut(lib, name, msgs[1..], n - |MessageBytes(lib, name, msgs[0])|);
      (whole + 1, over)
  }

  lemma PartialMessage(lib: Library, name: string, m: Message, rest: seq<byte>, n: nat)
    requires Sendable(lib, name, m) && n < |MessageBytes(lib, name, m)|
    ensures ReceiveAll(lib, (MessageBytes(lib, name, m) + rest)[..n]) == ([], if n < 4 then CleanEnd else BrokenEnd)
  {
    var p := MessagePacket(lib, name, m).value;
    var stream := (MessageBytes(lib, name, m) + rest)[..n];
    if n >= 4 {
      BE32RoundTrip(|lib.encode(p)|);
      assert stream[..4] == ToBE32(|lib.encode(p)|);
    }
  }

  /** What a receiver gets when the stream stops after n bytes. */
  ghost predicate ReceivesCut(lib: Library, name: string, msgs: seq<Message>, n: nat)
    requires (forall m :: m in msgs ==> Sendable(lib, name, m)) && n <= |Written(lib, name, msgs)|
  {
    var (whole, over) := Cut(lib, name, msgs, n);
    whole <= |msgs| &&
    ReceiveAll(lib, Written(lib, name, msgs)[..n]) ==
      (Payloads(msgs[..whole]), if over < 4 then CleanEnd else BrokenEnd)
  }

  lemma CutInFirst(lib: Library, name: string, msgs: seq<Message>, n: nat)
    requires AllSendable(lib, name, msgs) && n <= |Written(lib, name, msgs)|
    requires msgs == [] || n < |MessageBytes(lib, name, msgs[0])|
    ensures ReceivesCut(lib, name, msgs, n)
  {
    assert Payloads(msgs[..0]) == [];
    if msgs == [] {
      assert Receive(lib, Written(lib, name, msgs)[..n]) == ([], Closed);
    } else {
      PartialMessage(lib, name, msgs[0], Written(lib, name, msgs[1..]), n);
    }
  }

  lemma CutLater(lib: Library, name: string, msgs: seq<Message>, n: nat)
    requires Faithful(lib) && AllSendable(lib, name, msgs) && msgs != []
    requires |MessageBytes(lib, name, msgs[0])| <= n <= |Written(lib, name, msgs)|
    requires ReceivesCut(lib, name, msgs[1..], n - |MessageBytes(lib, name, msgs[0])|)
    ensures ReceivesCut(lib, name, msgs, n)
  {
    var first, rest := MessageBytes(lib, name, msgs[0]), Written(lib, name, msgs[1..]);
    var m := n - |first|;
    CutBehind(first, rest, n);
    FirstIsReceived(lib, name, msgs[0], rest[..m]);
    PayloadsCons(msgs, Cut(lib, name, msgs[1..], m).0);
  }

  lemma CutBehind(first: seq<byte>, rest: seq<byte>, n: nat)
    requires |first| <= n <= |first| + |rest|
    ensures (first + rest)[..n] == first + rest[..n - |first|]
  {}

  lemma PayloadsCons(msgs: seq<Message>, n: nat)
    requires msgs != [] && n <= |msgs[1..]|
    ensures Payloads(msgs[..n + 1]) == [msgs[0].data] + Payloads(msgs[1..][..n])
  {}

  /**
   If the stream stops after any number of bytes, the receiver gets exactly the messages that
   were written in full, in order; it sees a clean end if the stream stopped between messages
   or within a length prefix, and an error if it stopped within a packet.
   */
  lemma {:induction false} TruncatedStream(lib: Library, name: string, msgs: seq<Message>, n: nat)
    requires Faithful(lib) && AllSendable(lib, name, msgs) && n <= |Written(lib, name, msgs)|
    ensures ReceivesCut(lib, name, msgs, n)
    decreases msgs
  {
    if msgs == [] || n < |MessageBytes(lib, name, msgs[0])| {
      CutInFirst(lib, name, msgs, n);
    } else {
      TruncatedStream(lib, name, msgs[1..], n - |MessageBytes(lib, name, msgs[0])|);
      CutLater(lib, name, msgs, n);
    }
  }

  lemma {:induction false} CutAll(lib: Library, name: string, msgs: seq<Message>)
    requires AllSendable(lib, name, msgs)
    ensures Cut(lib, name, msgs, |Written(lib, name, msgs)|) == (|msgs|, 0)
  {
    if msgs == [] {
    } else {
      CutAll(lib, name, msgs[1..]);
    }
  }

  /**
   What the opener writes is accepted under the same channel name, and every message sent is
   received unchanged and in order, followed by the end of the stream.
   */
  lemma DuplexRoundTrip(lib: Library, name: string, openedAt: nat, msgs: seq<Message>)
    requires Faithful(lib) && AllSendable(lib, name, msgs) && Transmissible(lib, OpeningPacket(name, openedAt))
    ensures var stream := OpeningBytes(lib, name, openedAt) + Written(lib, name, msgs);
      && Accept(lib, stream) == Some((name, Written(lib, name, msgs)))
      && ReceiveAll(lib, Written(lib, name, msgs)) == (Payloads(msgs), CleanEnd)
  {
    var opening, body := OpeningPacket(name, openedAt), Written(lib, name, msgs);
    var stream := OpeningBytes(lib, name, openedAt) + body;
    assert stream[..|PROTO_MAGIC|] == PROTO_MAGIC;
    assert stream[|PROTO_MAGIC|..] == WirePacket(lib, opening) + body;
    PacketIsRead(lib, opening, body);
    TruncatedStream(lib, name, msgs, |body|);
    CutAll(lib, name, msgs);
    assert body[..|body|] == body && msgs[..|msgs|] == msgs;
  }
}
