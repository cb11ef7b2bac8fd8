/**
 Reading the mapped address out of a STUN response: a walk over type-length-value attributes
 padded to four bytes (section 15 of RFC 5389) and the XOR decoding of the address found
 (section 15.2).
 */
module Stun {
  import opened Bytes
  import opened Sequences

  type Octets = seq<byte>
  type TransactionId = t: Octets | |t| == 12 witness seq(12, i => 0)
  type Word = w: int | 0 <= w < 0x1_0000

  datatype Address = V4(ip: Octets, port: Word) | V6(ip: Octets, port: Word)

  const HEADER_SIZE := 20
  const XOR_MAPPED_ADDRESS: Word := 0x0020
  const MAGIC_COOKIE: Octets := [0x21, 0x12, 0xA4, 0x42]
  const PORT_MASK: Word := 0x2112

  function ToWord(hi: byte, lo: byte): Word {
    hi as int * 256 + lo as int
  }

  function XorByte(a: byte, b: byte): byte {
    ByteAndWordSizes();
    Xor(8, a, b)
  }

  function XorWord(a: Word, b: Word): Word {
    ByteAndWordSizes();
    Xor(16, a, b)
  }

  function Padding(n: nat): nat {
    if n % 4 != 0 then 4 - n % 4 else 0
  }

  /** Bytewise exclusive or with a mask at least as long. */
  function XorBytes(a: Octets, mask: Octets): (r: Octets)
    requires |a| <= |mask|
    ensures |r| == |a|
  {
    seq(|a|, i requires 0 <= i < |a| => XorByte(a[i], mask[i]))
  }

  /** The value of an address attribute that the parser can use. */
  predicate Usable(kind: Word, value: Octets) {
    kind == XOR_MAPPED_ADDRESS && |value| >= 8 && (value[1] == 1 || (value[1] == 2 && |value| >= 20))
  }

  function DecodeAddress(txid: TransactionId, value: Octets): Address
    requires Usable(XOR_MAPPED_ADDRESS, value)
  {
    var port := XorWord(ToWord(value[2], value[3]), PORT_MASK);
    if value[1] == 1 then V4(XorBytes(value[4..8], MAGIC_COOKIE), port)
    else V6(XorBytes(value[4..20], MAGIC_COOKIE + txid), port)
  }

  /** What one attribute contributes: the address, if it holds a usable one. */
  function Read(txid: TransactionId, kind: Word, value: Octets): Option<Address>
  {
    if Usable(kind, value) then Some(DecodeAddress(txid, value)) else None
  }

  function Reader(txid: TransactionId): (Word, Octets) -> Option<Address> {
    (kind: Word, value: Octets) => Read(txid, kind, value)
  }

  /** The walk over the attributes of `msg` from position idx, until one of them yields something. */
  function Scan<T>(read: (Word, Octets) -> Option<T>, msg: Octets, idx: nat): Option<T>
    decreases |msg| - idx
  {
    if idx + 4 > |msg| then None else
      var length := ToWord(msg[idx + 2], msg[idx + 3]);
      if idx + 4 + length > |msg| then None else
        var found := read(ToWord(msg[idx], msg[idx + 1]), msg[idx + 4..idx + 4 + length]);
        if found.Some? then found else Scan(read, msg, idx + 4 + length + Padding(length))
  }

  /** The loop over the bytes received; `read` is what it does with one attribute. */
  method ScanLoop<T>(buf: Octets, read: (Word, Octets) -> Option<T>) returns (found: Option<T>)
    ensures found == Scan(read, buf, HEADER_SIZE)
  {
    found := None;
    var idx := HEADER_SIZE;
    while idx + 4 <= |buf|
      invariant found == None && Scan(read, buf, idx) == Scan(read, buf, HEADER_SIZE)
      decreases |buf| - idx
    {
      var kind := ToWord(buf[idx], buf[idx + 1]);
      var length := ToWord(buf[idx + 2], buf[idx + 3]);
      idx := idx + 4;
      if idx + length > |buf| { break; }
      found := read(kind, buf[idx..idx + length]);
      if found.Some? { break; }
      idx := idx + length + (if length % 4 != 0 then 4 - length % 4 else 0);
    }
  }

  method ParseResponse(buf: Octets, txid: TransactionId) returns (mapped: Option<Address>)
    ensures mapped == Scan(Reader(txid), buf, HEADER_SIZE)
  {
    mapped := ScanLoop(buf, Reader(txid));
  }

  // ----- Printing -----

  function High(w: Word): byte {
    w / 256
  }

  function Low(w: Word): byte {
    w % 256
  }

  /** An attribute with the padding bytes that follow it, whatever they hold. */
  datatype Attribute = Attribute(kind: Word, value: Octets, padding: Octets)

  predicate WellFormed(a: Attribute) {
    |a.value| < 0x1_0000 && |a.padding| == Padding(|a.value|)
  }

  function Print(a: Attribute): Octets
    requires WellFormed(a)
  {
    [High(a.kind), Low(a.kind), High(|a.value|), Low(|a.value|)] + a.value + a.padding
  }

  function PrintAll(attrs: seq<Attribute>): Octets
    requires forall a :: a in attrs ==> WellFormed(a)
  {
    if attrs == [] then [] else Print(attrs[0]) + PrintAll(attrs[1..])
  }

  /** What the first attribute that yields something yields. */
  function FirstFound<T>(read: (Word, Octets) -> Option<T>, attrs: seq<Attribute>): Option<T> {
    if attrs == [] then None else
      var found := read(attrs[0].kind, attrs[0].value);
      if found.Some? then found else FirstFound(read, attrs[1..])
  }

  lemma WordRoundTrip(w: Word)
    ensures ToWord(High(w), Low(w)) == w
  {}

  /** Where the parts of an attribute lie in a message that has it behind `before`. */
  lemma PrintedParts(before: Octets, head: Octets, value: Octets, rest: Octets)
    requires |head| == 4
    ensures var msg, idx := before + (head + value + rest), |before|;
      && |msg| == idx + 4 + |value| + |rest|
      && msg[idx] == head[0] && msg[idx + 1] == head[1] && msg[idx + 2] == head[2] && msg[idx + 3] == head[3]
      && msg[idx + 4..idx + 4 + |value|] == value
  {}

  lemma ScanUnfold<T>(read: (Word, Octets) -> Option<T>, msg: Octets, idx: nat, kind: Word, value: Octets)
    requires |msg| >= idx + 4 + |value| && msg[idx + 4..idx + 4 + |value|] == value
    requires ToWord(msg[idx], msg[idx + 1]) == kind && ToWord(msg[idx + 2], msg[idx + 3]) == |value|
    ensures Scan(read, msg, idx) ==
      if read(kind, value).Some? then read(kind, value) else Scan(read, msg, idx + 4 + |value| + Padding(|value|))
  {}

  lemma ScanPast<T>(
      read: (Word, Octets) -> Option<T>, before: Octets,
      kind: Word, head: Octets, value: Octets, padding: Octets, rest: Octets)
    requires |head| == 4 && ToWord(head[0], head[1]) == kind && ToWord(head[2], head[3]) == |value|
    requires |padding| == Padding(|value|)
    ensures var msg := before + (head + value + padding) + rest;
      Scan(read, msg, |before|) ==
        if read(kind, value).Some? then read(kind, value) else Scan(read, msg, |before + (head + value + padding)|)
  {
    var msg := before + (head + value + padding) + rest;
    assert msg == before + (head + value + (padding + rest));
    PrintedParts(before, head, value, padding + rest);
    ScanUnfold(read, msg, |before|, kind, value);
  }

  lemma ScanPrinted<T>(read: (Word, Octets) -> Option<T>, before: Octets, a: Attribute, rest: Octets)
    requires WellFormed(a)
    ensures var found := read(a.kind, a.value);
      Scan(read, before + Print(a) + rest, |before|) ==
        if found.Some? then found else Scan(read, before + Print(a) + rest, |before + Print(a)|)
  {
    WordRoundTrip(a.kind);
    WordRoundTrip(|a.value|);
    ScanPast(read, before, a.kind, [High(a.kind), Low(a.kind), High(|a.value|), Low(|a.value|)],
             a.value, a.padding, rest);
  }

  /**
   Parsing undoes printing: behind anything, the walk over any printed attributes finds what the
   first attribute that yields something yields, or nothing if there is none.
   */
  lemma {:induction false} ScanFindsFirst<T>(read: (Word, Octets) -> Option<T>, before: Octets, attrs: seq<Attribute>)
    requires forall a :: a in attrs ==> WellFormed(a)
    ensures Scan(read, before + PrintAll(attrs), |before|) == FirstFound(read, attrs)
    decreases attrs
  {
    if attrs == [] {
    } else {
      var rest := PrintAll(attrs[1..]);
      assert before + PrintAll(attrs) == before + Print(attrs[0]) + rest;
      ScanPrinted(read, before, attrs[0], rest);
      ScanFindsFirst(read, before + Print(attrs[0]), attrs[1..]);
    }
  }

  // ----- The address -----

  predicate WellFormedAddress(addr: Address) {
    |addr.ip| == if addr.V4? then 4 else 16
  }

  /** The attribute value a server prints for an address. */
  function EncodeAddress(txid: TransactionId, addr: Address): Octets
    requires WellFormedAddress(addr)
  {
    var port := XorWord(addr.port, PORT_MASK);
    [0, if addr.V4? then 1 else 2, High(port), Low(port)] +
    XorBytes(addr.ip, MaskFor(txid, addr))
  }

  function MaskFor(txid: TransactionId, addr: Address): Octets {
    if addr.V4? then MAGIC_COOKIE else MAGIC_COOKIE + txid
  }

  lemma XorBytesTwice(a: Octets, mask: Octets)
    requires |a| <= |mask|
    ensures XorBytes(XorBytes(a, mask), mask) == a
  {
    ByteAndWordSizes();
    forall i | 0 <= i < |a| ensures XorByte(XorByte(a[i], mask[i]), mask[i]) == a[i] {
      XorTwice(8, a[i], mask[i]);
    }
  }

  lemma PortRoundTrip(port: Word)
    ensures var sent := XorWord(port, PORT_MASK); XorWord(ToWord(High(sent), Low(sent)), PORT_MASK) == port
  {
    ByteAndWordSizes();
    WordRoundTrip(XorWord(port, PORT_MASK));
    XorTwice(16, port, PORT_MASK);
  }

  lemma EncodedParts(txid: TransactionId, addr: Address)
    requires WellFormedAddress(addr)
    ensures var value, port := EncodeAddress(txid, addr), XorWord(addr.port, PORT_MASK);
      && |value| == 4 + |addr.ip| && value[1] == (if addr.V4? then 1 else 2)
      && value[2] == High(port) && value[3] == Low(port)
      && value[4..4 + |addr.ip|] == XorBytes(addr.ip, MaskFor(txid, addr))
  {}

  lemma AddressRoundTrip(txid: TransactionId, addr: Address)
    requires WellFormedAddress(addr)
    ensures Read(txid, XOR_MAPPED_ADDRESS, EncodeAddress(txid, addr)) == Some(addr)
  {
    EncodedParts(txid, addr);
    XorBytesTwice(addr.ip, MaskFor(txid, addr));
    PortRoundTrip(addr.port);
  }

  lemma {:induction false} SkipUnusable(txid: TransactionId, skipped: seq<Attribute>, rest: seq<Attribute>)
    requires forall a :: a in skipped ==> !Usable(a.kind, a.value)
    ensures FirstFound(Reader(txid), skipped + rest) == FirstFound(Reader(txid), rest)
  {
    if skipped == [] {
      assert skipped + rest == rest;
    } else {
      assert (skipped + rest)[1..] == skipped[1..] + rest;
      SkipUnusable(txid, skipped[1..], rest);
    }
  }

  // ----- What is read, bit by bit -----

  /** Bytes are the exclusive or of others with a mask. */
  ghost predicate IsMasked(out: Octets, value: Octets, mask: Octets) {
    && |out| == |value| <= |mask|
    && forall k, i :: 0 <= k < |out| && 0 <= i < 8 ==>
         Bit(i, out[k]) == if Bit(i, value[k]) != Bit(i, mask[k]) then 1 else 0
  }

  lemma XorBytesMasks(value: Octets, mask: Octets)
    requires |value| <= |mask|
    ensures IsMasked(XorBytes(value, mask), value, mask)
  {
    ByteAndWordSizes();
    forall k, i | 0 <= k < |value| && 0 <= i < 8
      ensures Bit(i, XorBytes(value, mask)[k]) == if Bit(i, value[k]) != Bit(i, mask[k]) then 1 else 0
    {
      XorBits(8, value[k], mask[k], i);
    }
  }

  /**
   What an attribute yields, without the printer. It yields an address exactly if its type is
   0x0020, it has at least 8 bytes, and its family is 1, or 2 with at least 20 bytes. The port is
   the big-endian word behind the family with the bits of 0x2112 flipped, and the address the 4 or
   16 bytes behind that with the bits of the magic cookie and the transaction id flipped.
   */
  lemma ReadsExactly(txid: TransactionId, kind: Word, value: Octets)
    ensures Read(txid, kind, value).Some? <==>
      kind == 0x0020 && |value| >= 8 && (value[1] == 1 || (value[1] == 2 && |value| >= 20))
    ensures Read(txid, kind, value).Some? ==>
      var addr := Read(txid, kind, value).value;
      && (addr.V4? <==> value[1] == 1)
      && (addr.V4? ==> IsMasked(addr.ip, value[4..8], [0x21, 0x12, 0xA4, 0x42]))
      && (addr.V6? ==> IsMasked(addr.ip, value[4..20], [0x21, 0x12, 0xA4, 0x42] + txid))
      && (forall i :: 0 <= i < 16 ==>
            Bit(i, addr.port) == if Bit(i, value[2] as int * 256 + value[3] as int) != Bit(i, 0x2112) then 1 else 0)
  {
    if Usable(kind, value) {
      if value[1] == 1 {
        XorBytesMasks(value[4..8], MAGIC_COOKIE);
      } else {
        XorBytesMasks(value[4..20], MAGIC_COOKIE + txid);
      }
      ByteAndWordSizes();
      forall i | 0 <= i < 16
        ensures Bit(i, DecodeAddress(txid, value).port)
             == if Bit(i, value[2] as int * 256 + value[3] as int) != Bit(i, 0x2112) then 1 else 0
      {
        XorBits(16, ToWord(value[2], value[3]), PORT_MASK, i);
      }
    }
  }

  /** Padding is the least that brings a length to a multiple of four. */
  lemma PaddingAligns(n: nat)
    ensures Padding(n) < 4 && (n + Padding(n)) % 4 == 0
  {}

  function MappedAttribute(txid: TransactionId, addr: Address): (a: Attribute)
    requires WellFormedAddress(addr)
    ensures WellFormed(a)
  {
    Attribute(XOR_MAPPED_ADDRESS, EncodeAddress(txid, addr), [])
  }

  /**
   Behind any 20-byte header, a response yields exactly the address and port that its first
   usable attribute was printed from, whatever attributes surround it.
   */
  lemma ResponseRoundTrip(
      txid: TransactionId, header: Octets, skipped: seq<Attribute>, addr: Address, later: seq<Attribute>)
    requires |header| == HEADER_SIZE && WellFormedAddress(addr)
    requires forall a :: a in skipped ==> WellFormed(a) && !Usable(a.kind, a.value)
    requires forall a :: a in later ==> WellFormed(a)
    ensures var attrs := skipped + ([MappedAttribute(txid, addr)] + later);
      (forall a :: a in attrs ==> WellFormed(a)) &&
      Scan(Reader(txid), header + PrintAll(attrs), HEADER_SIZE) == Some(addr)
  {
    var rest := [MappedAttribute(txid, addr)] + later;
    AddressRoundTrip(txid, addr);
    SkipUnusable(txid, skipped, rest);
    ScanFindsFirst(Reader(txid), header, skipped + rest);
  }
}
