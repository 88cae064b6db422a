/**
 uTP packets on the wire (BEP 29): a fixed header, a chain of extensions and the payload.

 Each extension names the type of the one behind it and gives the length of its payload in one byte. A payload of
 256 bytes or more is therefore cut short in that byte, which is the one way in which a chain that was written
 is read back as something else.
 */
module UtpPacket {
  import opened Results
  import opened Arithmetic
  import opened UtpSeq
  import opened UtpSack

  const HEADER_SIZE: nat := 20
  const EXTENSION_HEADER_SIZE: nat := 2
  const BITS_LENGTH: nat := 8

  datatype Extension = SelectiveAck(base: nat, bitmask: seq<Octet>) | ExtensionBits(bits: seq<Octet>)

  function Payload(e: Extension): seq<Octet> {
    if e.SelectiveAck? then e.bitmask else e.bits
  }

  function TypeOf(e: Extension): nat {
    if e.SelectiveAck? then 1 else 2
  }

  datatype Packet = Packet(kind: nat, version: nat, extension: nat, connId: nat, timestamp: nat, difference: nat,
                           windowSize: nat, seqNr: nat, ackNr: nat,
                           extensions: seq<Extension>, data: Option<seq<Octet>>)

  datatype Error = TooShort | TruncatedHeader | TruncatedPayload | BadBitmask | BadBits

  // ---- Numbers of fixed width, most significant byte first; too large values wrap ----

  /** The low eight binary digits of a number. */
  function U8(x: nat): Octet {
    var x1 := x / 2;
    var x2 := x1 / 2;
    var x3 := x2 / 2;
    var x4 := x3 / 2;
    var x5 := x4 / 2;
    var x6 := x5 / 2;
    var x7 := x6 / 2;
    FromBits(x % 2 == 1, x1 % 2 == 1, x2 % 2 == 1, x3 % 2 == 1, x4 % 2 == 1, x5 % 2 == 1, x6 % 2 == 1, x7 % 2 == 1)
  }

  function FromBits(b0: bool, b1: bool, b2: bool, b3: bool, b4: bool, b5: bool, b6: bool, b7: bool): Octet {
    (if b0 then 0x01 else 0) | (if b1 then 0x02 else 0) | (if b2 then 0x04 else 0) | (if b3 then 0x08 else 0)
    | (if b4 then 0x10 else 0) | (if b5 then 0x20 else 0) | (if b6 then 0x40 else 0) | (if b7 then 0x80 else 0)
  }

  function U16(x: nat): (r: seq<Octet>)
    ensures |r| == 2
  {
    [U8(x / 256), U8(x)]
  }

  function U32(x: nat): (r: seq<Octet>)
    ensures |r| == 4
  {
    U16(x / 0x1_0000) + U16(x)
  }

  function Get8(b: Octet): (r: nat)
    ensures r < 256
  {
    Weights(b & 0x01 != 0, b & 0x02 != 0, b & 0x04 != 0, b & 0x08 != 0,
            b & 0x10 != 0, b & 0x20 != 0, b & 0x40 != 0, b & 0x80 != 0)
  }

  function Get16(b: seq<Octet>): (r: nat)
    requires |b| == 2
    ensures r < 0x1_0000
  {
    Get8(b[0]) * 256 + Get8(b[1])
  }

  function Get32(b: seq<Octet>): (r: nat)
    requires |b| == 4
    ensures r < 0x1_0000_0000
  {
    Get16(b[..2]) * 0x1_0000 + Get16(b[2..])
  }

  function Weights(b0: bool, b1: bool, b2: bool, b3: bool, b4: bool, b5: bool, b6: bool, b7: bool): nat {
    (if b0 then 1 else 0) + (if b1 then 2 else 0) + (if b2 then 4 else 0) + (if b3 then 8 else 0)
    + (if b4 then 16 else 0) + (if b5 then 32 else 0) + (if b6 then 64 else 0) + (if b7 then 128 else 0)
  }

  lemma Get8OfBits(b0: bool, b1: bool, b2: bool, b3: bool, b4: bool, b5: bool, b6: bool, b7: bool)
    ensures Get8(FromBits(b0, b1, b2, b3, b4, b5, b6, b7)) == Weights(b0, b1, b2, b3, b4, b5, b6, b7)
  {
    hide FromBits;
    BitsOfByte(b0, b1, b2, b3, b4, b5, b6, b7);
  }

  /** One digit more: the rest of the division by 2 and twice the rest of the quotient. */
  function Horner(bit: bool, rest: nat): nat {
    (if bit then 1 else 0) + 2 * rest
  }

  lemma LastBit(x: nat, m: nat)
    requires m > 0
    ensures x % (2 * m) == Horner(x % 2 == 1, x / 2 % m)
  {
    LastDigit(x, m);
  }

  lemma HornerIsWeights(b0: bool, b1: bool, b2: bool, b3: bool, b4: bool, b5: bool, b6: bool, b7: bool)
    ensures Horner(b0, Horner(b1, Horner(b2, Horner(b3, Horner(b4, Horner(b5, Horner(b6, Horner(b7, 0)))))))) ==
      Weights(b0, b1, b2, b3, b4, b5, b6, b7)
  {
  }

  lemma Get8OfU8(x: nat)
    ensures Get8(U8(x)) == x % 256
  {
    hide FromBits, Get8, Weights, Horner;
    var x1 := x / 2;
    var x2 := x1 / 2;
    var x3 := x2 / 2;
    var x4 := x3 / 2;
    var x5 := x4 / 2;
    var x6 := x5 / 2;
    var x7 := x6 / 2;
    Get8OfBits(x % 2 == 1, x1 % 2 == 1, x2 % 2 == 1, x3 % 2 == 1, x4 % 2 == 1, x5 % 2 == 1, x6 % 2 == 1, x7 % 2 == 1);
    HornerIsWeights(x % 2 == 1, x1 % 2 == 1, x2 % 2 == 1, x3 % 2 == 1, x4 % 2 == 1, x5 % 2 == 1, x6 % 2 == 1, x7 % 2 == 1);
    LastBit(x, 128);
    LastBit(x1, 64);
    LastBit(x2, 32);
    LastBit(x3, 16);
    LastBit(x4, 8);
    LastBit(x5, 4);
    LastBit(x6, 2);
    LastBit(x7, 1);
    assert x7 / 2 % 1 == 0;
  }

  lemma LastDigit(x: nat, m: nat)
    requires m > 0
    ensures x % (2 * m) == x % 2 + 2 * (x / 2 % m)
  {
    DivMod(x / 2, m);
    var q, r := x / 2 / m, x / 2 % m;
    assert x == 2 * (x / 2) + x % 2 && q * (2 * m) == 2 * (q * m);
    DivIs(x, q, 2 * r + x % 2, 2 * m);
  }

  lemma BitsOfByte(b0: bool, b1: bool, b2: bool, b3: bool, b4: bool, b5: bool, b6: bool, b7: bool)
    ensures var b := FromBits(b0, b1, b2, b3, b4, b5, b6, b7);
      && (b & 0x01 != 0 <==> b0) && (b & 0x02 != 0 <==> b1) && (b & 0x04 != 0 <==> b2) && (b & 0x08 != 0 <==> b3)
      && (b & 0x10 != 0 <==> b4) && (b & 0x20 != 0 <==> b5) && (b & 0x40 != 0 <==> b6) && (b & 0x80 != 0 <==> b7)
  {
  }

  lemma Get16OfU16(x: nat)
    ensures Get16(U16(x)) == x % 0x1_0000
  {
    hide U8, Get8;
    Get8OfU8(x / 256);
    Get8OfU8(x);
    TwoBytes(x);
  }

  lemma TwoBytes(x: nat)
    ensures x / 256 % 256 * 256 + x % 256 == x % 0x1_0000
  {
    var high := x / 256;
    assert x == 0x1_0000 * (high / 256) + (high % 256 * 256 + x % 256);
  }

  lemma Get32OfU32(x: nat)
    ensures Get32(U32(x)) == x % 0x1_0000_0000
  {
    hide U16, Get16;
    Get16OfU16(x / 0x1_0000);
    Get16OfU16(x);
    assert U32(x)[..2] == U16(x / 0x1_0000) && U32(x)[2..] == U16(x);
  }

  // ---- Writing ----

  /** The type of the extension at position `i`, 0 behind the last. */
  function TypeAt(extensions: seq<Extension>, i: nat): nat {
    if i < |extensions| then TypeOf(extensions[i]) else 0
  }

  /** Each extension names the type of the one behind it. */
  function EncodeChain(extensions: seq<Extension>): seq<Octet> {
    if extensions == [] then []
    else
      [U8(TypeAt(extensions, 1)), U8(|Payload(extensions[0])|)] + Payload(extensions[0]) + EncodeChain(extensions[1..])
  }

  function EncodeHeader(p: Packet): (r: seq<Octet>)
    ensures |r| == HEADER_SIZE
  {
    [U8(p.kind * 16 + p.version), U8(p.extension)] + U16(p.connId) + U32(p.timestamp) + U32(p.difference)
    + U32(p.windowSize) + U16(p.seqNr) + U16(p.ackNr)
  }

  function DataOf(p: Packet): seq<Octet> {
    if p.data.Some? then p.data.value else []
  }

  function Encode(p: Packet): seq<Octet> {
    EncodeHeader(p) + EncodeChain(p.extensions) + DataOf(p)
  }

  // ---- Reading ----

  /** One extension, nothing for an unknown type, or an error. */
  function ReadExtension(kind: nat, payload: seq<Octet>, ackNr: nat): Result<seq<Extension>, Error> {
    if kind == 1 then
      if |payload| % 4 != 0 then Failure(BadBitmask) else Success([SelectiveAck(ackNr, payload)])
    else if kind == 2 then
      if |payload| != BITS_LENGTH then Failure(BadBits) else Success([ExtensionBits(payload)])
    else Success([])
  }

  datatype Chain = Chain(extensions: seq<Extension>, rest: seq<Octet>)

  /** Reads extensions from the front of `bytes`, the first of the given type, up to one that names type 0. */
  function DecodeChain(bytes: seq<Octet>, kind: nat, ackNr: nat): Result<Chain, Error>
    decreases |bytes|
  {
    if kind == 0 then Success(Chain([], bytes))
    else if |bytes| < EXTENSION_HEADER_SIZE then Failure(TruncatedHeader)
    else
      var end := EXTENSION_HEADER_SIZE + Get8(bytes[1]);
      if end > |bytes| then Failure(TruncatedPayload)
      else
        var first := ReadExtension(kind, bytes[EXTENSION_HEADER_SIZE..end], ackNr);
        if first.Failure? then Failure(first.error)
        else
          var rest := DecodeChain(bytes[end..], Get8(bytes[0]), ackNr);
          if rest.Failure? then rest else Success(Chain(first.value + rest.value.extensions, rest.value.rest))
  }

  function DecodeHeader(b: seq<Octet>): Packet
    requires |b| >= HEADER_SIZE
  {
    Packet(Get8(b[0]) / 16, Get8(b[0]) % 16, Get8(b[1]), Get16(b[2..4]), Get32(b[4..8]), Get32(b[8..12]),
           Get32(b[12..16]), Get16(b[16..18]), Get16(b[18..20]), [], None)
  }

  function Decode(bytes: seq<Octet>): Result<Packet, Error> {
    if |bytes| < HEADER_SIZE then Failure(TooShort)
    else
      var header := DecodeHeader(bytes);
      var chain := DecodeChain(bytes[HEADER_SIZE..], header.extension, header.ackNr);
      if chain.Failure? then Failure(chain.error)
      else
        Success(header.(extensions := chain.value.extensions,
                        data := if chain.value.rest == [] then None else Some(chain.value.rest)))
  }

  // ---- The round trip ----

  predicate ExtensionOk(e: Extension, ackNr: nat) {
    if e.SelectiveAck? then e.base == ackNr && |e.bitmask| % 4 == 0 else |e.bits| == BITS_LENGTH
  }

  /** What a connection hands over for sending: fields in range, a first type that matches the chain, no empty data. */
  predicate WellFormed(p: Packet) {
    && p.kind < 16 && p.version < 16 && p.connId < 0x1_0000 && p.seqNr < 0x1_0000 && p.ackNr < 0x1_0000
    && p.timestamp < 0x1_0000_0000 && p.difference < 0x1_0000_0000 && p.windowSize < 0x1_0000_0000
    && p.extension == TypeAt(p.extensions, 0)
    && (forall e <- p.extensions :: ExtensionOk(e, p.ackNr))
    && p.data != Some([])
  }

  predicate LengthsFit(extensions: seq<Extension>) {
    forall e <- extensions :: |Payload(e)| <= 255
  }

  lemma HeaderFields(p: Packet, behind: seq<Octet>)
    requires WellFormed(p)
    ensures DecodeHeader(EncodeHeader(p) + behind) == p.(extensions := [], data := None)
    ensures (EncodeHeader(p) + behind)[HEADER_SIZE..] == behind
  {
    hide U8, U16, U32, Get8, Get16, Get32;
    Get8OfU8(p.kind * 16 + p.version);
    Get8OfU8(p.extension);
    Get16OfU16(p.connId);
    Get32OfU32(p.timestamp);
    Get32OfU32(p.difference);
    Get32OfU32(p.windowSize);
    Get16OfU16(p.seqNr);
    Get16OfU16(p.ackNr);
    HeaderSlices(p, behind);
  }

  lemma HeaderSlices(p: Packet, behind: seq<Octet>)
    ensures var b := EncodeHeader(p) + behind;
      && b[0] == U8(p.kind * 16 + p.version) && b[1] == U8(p.extension) && b[2..4] == U16(p.connId)
      && b[4..8] == U32(p.timestamp) && b[8..12] == U32(p.difference) && b[12..16] == U32(p.windowSize)
      && b[16..18] == U16(p.seqNr) && b[18..20] == U16(p.ackNr) && b[20..] == behind
  {
    hide U8, U16, U32;
  }

  /** The fields of the first extension of a chain, the length modulo 256. */
  lemma FirstFields(extensions: seq<Extension>, data: seq<Octet>)
    requires extensions != []
    ensures var bytes, n := EncodeChain(extensions) + data, |Payload(extensions[0])|;
      && |bytes| >= 2 + n && Get8(bytes[0]) == TypeAt(extensions, 1) && Get8(bytes[1]) == n % 256
      && bytes[2..2 + n] == Payload(extensions[0]) && bytes[2 + n..] == EncodeChain(extensions[1..]) + data
  {
    hide U8, Get8, Payload, TypeAt;
    var payload := Payload(extensions[0]);
    Get8OfU8(TypeAt(extensions, 1));
    Get8OfU8(|payload|);
    Slices(U8(TypeAt(extensions, 1)), U8(|payload|), payload, EncodeChain(extensions[1..]), data);
    TypesAreBytes(extensions, 1);
  }

  lemma TypesAreBytes(extensions: seq<Extension>, i: nat)
    ensures TypeAt(extensions, i) < 256
  {
  }

  lemma Slices(a: Octet, b: Octet, payload: seq<Octet>, chain: seq<Octet>, data: seq<Octet>)
    ensures var bytes := [a, b] + payload + chain + data;
      && bytes[0] == a && bytes[1] == b && bytes[2..2 + |payload|] == payload && bytes[2 + |payload|..] == chain + data
  {
  }

  lemma ReadsBack(e: Extension, ackNr: nat)
    requires ExtensionOk(e, ackNr)
    ensures ReadExtension(TypeOf(e), Payload(e), ackNr) == Success([e])
  {
  }

  lemma ChainStep(extensions: seq<Extension>, data: seq<Octet>, ackNr: nat)
    requires extensions != [] && |Payload(extensions[0])| <= 255 && ExtensionOk(extensions[0], ackNr)
    ensures DecodeChain(EncodeChain(extensions) + data, TypeOf(extensions[0]), ackNr) ==
      var rest := DecodeChain(EncodeChain(extensions[1..]) + data, TypeAt(extensions, 1), ackNr);
      if rest.Failure? then rest else Success(Chain([extensions[0]] + rest.value.extensions, rest.value.rest))
  {
    hide EncodeChain, Get8, ReadExtension, Payload, ExtensionOk, TypeAt;
    FirstFields(extensions, data);
    ReadsBack(extensions[0], ackNr);
  }

  /** With a longer payload the length byte wraps, and what is read back differs. */
  lemma TooLongDiffers(extensions: seq<Extension>, data: seq<Octet>, ackNr: nat)
    requires extensions != [] && |Payload(extensions[0])| > 255
    ensures var read := DecodeChain(EncodeChain(extensions) + data, TypeOf(extensions[0]), ackNr);
      read.Success? ==> read.value.extensions != [] && read.value.extensions[0] != extensions[0]
  {
    hide EncodeChain, Get8, ReadExtension, Payload, TypeAt;
    FirstFields(extensions, data);
    var bytes := EncodeChain(extensions) + data;
    var end := EXTENSION_HEADER_SIZE + Get8(bytes[1]);
    ReadsShort(TypeOf(extensions[0]), bytes[EXTENSION_HEADER_SIZE..end], ackNr);
  }

  lemma ReadsShort(kind: nat, payload: seq<Octet>, ackNr: nat)
    requires 1 <= kind <= 2 && |payload| <= 255
    ensures var first := ReadExtension(kind, payload, ackNr);
      first.Success? ==> |first.value| == 1 && |Payload(first.value[0])| <= 255
  {
  }

  lemma {:induction false} ChainRoundTrip(extensions: seq<Extension>, data: seq<Octet>, ackNr: nat)
    requires forall e <- extensions :: ExtensionOk(e, ackNr)
    ensures DecodeChain(EncodeChain(extensions) + data, TypeAt(extensions, 0), ackNr) == Success(Chain(extensions, data)) <==>
      LengthsFit(extensions)
  {
    if extensions == [] {
      assert EncodeChain(extensions) + data == data;
    } else {
      var rest := extensions[1..];
      assert extensions == [extensions[0]] + rest;
      ChainRoundTrip(rest, data, ackNr);
      assert TypeAt(rest, 0) == TypeAt(extensions, 1);
      if |Payload(extensions[0])| <= 255 {
        ChainStep(extensions, data, ackNr);
      } else {
        TooLongDiffers(extensions, data, ackNr);
      }
    }
  }

  /** A packet survives encoding and decoding exactly when every extension payload has at most 255 bytes. */
  lemma PacketRoundTrip(p: Packet)
    requires WellFormed(p)
    ensures Decode(Encode(p)) == Success(p) <==> LengthsFit(p.extensions)
  {
    hide DecodeHeader, EncodeHeader, EncodeChain, DecodeChain, ExtensionOk;
    var behind := EncodeChain(p.extensions) + DataOf(p);
    assert Encode(p) == EncodeHeader(p) + behind;
    HeaderFields(p, behind);
    ChainRoundTrip(p.extensions, DataOf(p), p.ackNr);
  }

  /** A selective acknowledgement anywhere in a chain of short extensions arrives with its mask unchanged. */
  lemma SackSurvives(p: Packet, i: nat, mask: seq<Octet>)
    requires WellFormed(p) && LengthsFit(p.extensions)
    requires i < |p.extensions| && p.extensions[i] == SelectiveAck(p.ackNr, mask)
    ensures var q := Decode(Encode(p));
      && q.Success? && i < |q.value.extensions| && q.value.extensions[i].SelectiveAck?
      && Received(q.value.extensions[i].bitmask, q.value.extensions[i].base) == Received(mask, p.ackNr)
      && Missing(q.value.extensions[i].bitmask, q.value.extensions[i].base) == Missing(mask, p.ackNr)
  {
    hide WellFormed, LengthsFit, Encode, Decode, Received, Missing;
    PacketRoundTrip(p);
  }

  // ---- From received numbers to the numbers read at the other end ----

  /** The packet is read, its extension `i` is still an acknowledgement, and it names exactly the given numbers. */
  ghost predicate Acknowledges(read: Result<Packet, Error>, i: nat, seqNrs: seq<nat>) {
    && read.Success? && i < |read.value.extensions| && read.value.extensions[i].SelectiveAck?
    && var e := read.value.extensions[i];
    && (forall s: nat :: s < MODULUS ==> (s in Received(e.bitmask, e.base) <==> s in seqNrs))
    && (forall s: nat :: s < MODULUS ==> (s in Missing(e.bitmask, e.base) <==>
          s == Add(e.base, 1) || (Diff(s, Add(e.base, 2)) < 8 * |e.bitmask| && s !in seqNrs)))
  }

  /**
   The numbers that were received out of order, put into a mask, sent in extension `i` of a packet and read
   there, are the same numbers, the missing ones being the rest of the range, exactly when none of them is 2016 or
   more ahead; the mask may be any that creation makes.
   */
  lemma SackRoundTrip(p: Packet, i: nat, mask: seq<Octet>, seqNrs: seq<nat>)
    requires WellFormed(p) && i < |p.extensions| && p.extensions[i] == SelectiveAck(p.ackNr, mask)
    requires forall j :: 0 <= j < |p.extensions| && j != i ==> |Payload(p.extensions[j])| <= 255
    requires forall s <- seqNrs :: s < MODULUS
    requires MarksExactly(mask, p.ackNr, seqNrs) && Fits(mask, p.ackNr, seqNrs)
    ensures Acknowledges(Decode(Encode(p)), i, seqNrs) <==> forall s <- seqNrs :: Diff(s, Add(p.ackNr, 2)) < 2016
  {
    hide WellFormed, Encode, Decode, Received, Missing, MarksExactly, Fits, Diff, Add;
    MaskFitsLengthByte(mask, p.ackNr, seqNrs);
    if |mask| <= 255 {
      PacketRoundTrip(p);
      forall s: nat | s < MODULUS
        ensures s in Received(mask, p.ackNr) <==> s in seqNrs
        ensures s in Missing(mask, p.ackNr) <==>
          s == Add(p.ackNr, 1) || (Diff(s, Add(p.ackNr, 2)) < 8 * |mask| && s !in seqNrs)
      {
        MaskKeepsReceived(mask, p.ackNr, seqNrs, s);
      }
    } else {
      var far := FarNumber(mask, p.ackNr, seqNrs);
      CutMaskArrives(p, i, mask);
      var read := Decode(Encode(p));
      if read.Success? {
        ShortMaskMisses(read.value.extensions[i].bitmask, p.ackNr, far);
      }
    }
  }

  /** A long mask has been made for some number that is far ahead. */
  lemma FarNumber(mask: seq<Octet>, ack: nat, seqNrs: seq<nat>) returns (s: nat)
    requires Fits(mask, ack, seqNrs) && |mask| > 255
    ensures s in seqNrs && Diff(s, Add(ack, 2)) >= 2016
  {
    hide Diff, Add;
    s :| s in seqNrs && 8 * (|mask| - 4) <= Diff(s, Add(ack, 2));
  }

  lemma ShortMaskMisses(mask: seq<Octet>, ack: nat, s: nat)
    requires |mask| <= 252 && s < MODULUS && Diff(s, Add(ack, 2)) >= 2016
    ensures s !in Received(mask, ack)
  {
    hide Diff, Add, Numbers, Marked;
    NumbersAre(mask, ack, 0, true, s);
  }

  /** The length byte of a long mask is its length modulo 256, so that at most 252 bytes of it are read. */
  lemma CutMaskArrives(p: Packet, i: nat, mask: seq<Octet>)
    requires WellFormed(p) && i < |p.extensions| && p.extensions[i] == SelectiveAck(p.ackNr, mask) && |mask| > 255
    requires forall j :: 0 <= j < |p.extensions| && j != i ==> |Payload(p.extensions[j])| <= 255
    ensures var read := Decode(Encode(p));
      read.Success? ==> i < |read.value.extensions| && IsCut(read.value.extensions[i], p.ackNr)
  {
    hide DecodeHeader, EncodeHeader, EncodeChain, DecodeChain, ExtensionOk, IsCut;
    var behind := EncodeChain(p.extensions) + DataOf(p);
    assert Encode(p) == EncodeHeader(p) + behind;
    HeaderFields(p, behind);
    ChainIsCut(p.extensions, DataOf(p), p.ackNr, i);
  }

  predicate IsCut(e: Extension, ackNr: nat) {
    e.SelectiveAck? && e.base == ackNr && |e.bitmask| <= 252
  }

  lemma {:induction false} ChainIsCut(extensions: seq<Extension>, data: seq<Octet>, ackNr: nat, i: nat)
    requires i < |extensions| && extensions[i].SelectiveAck? && |extensions[i].bitmask| > 255
    requires forall e <- extensions :: ExtensionOk(e, ackNr)
    requires forall j :: 0 <= j < |extensions| && j != i ==> |Payload(extensions[j])| <= 255
    ensures var read := DecodeChain(EncodeChain(extensions) + data, TypeAt(extensions, 0), ackNr);
      read.Success? ==> i < |read.value.extensions| && IsCut(read.value.extensions[i], ackNr)
    decreases i
  {
    hide EncodeChain, DecodeChain, IsCut;
    if i == 0 {
      FirstIsCut(extensions, data, ackNr);
    } else {
      var rest := extensions[1..];
      assert forall j :: 0 <= j < |rest| ==> rest[j] == extensions[j + 1];
      ChainIsCut(rest, data, ackNr, i - 1);
      ChainStep(extensions, data, ackNr);
      assert TypeAt(rest, 0) == TypeAt(extensions, 1);
    }
  }

  lemma FirstIsCut(extensions: seq<Extension>, data: seq<Octet>, ackNr: nat)
    requires extensions != [] && extensions[0].SelectiveAck? && |extensions[0].bitmask| > 255 && ExtensionOk(extensions[0], ackNr)
    ensures var read := DecodeChain(EncodeChain(extensions) + data, TypeAt(extensions, 0), ackNr);
      read.Success? ==> read.value.extensions != [] && IsCut(read.value.extensions[0], ackNr)
  {
    hide EncodeChain, Get8;
    FirstFields(extensions, data);
    CutLength(|extensions[0].bitmask|);
  }

  lemma CutLength(n: nat)
    requires n % 4 == 0
    ensures n % 256 <= 252
  {
  }

  // ---- The loops ----

  function ChainLength(extensions: seq<Extension>): nat {
    if extensions == [] then 0
    else EXTENSION_HEADER_SIZE + |Payload(extensions[0])| + ChainLength(extensions[1..])
  }

  lemma {:induction false} ChainLengthIs(extensions: seq<Extension>)
    ensures |EncodeChain(extensions)| == ChainLength(extensions)
  {
    if extensions == [] {
    } else {
      ChainLengthIs(extensions[1..]);
    }
  }

  method PutBytes(buffer: array<Octet>, offset: nat, bytes: seq<Octet>) returns (next: nat)
    requires offset + |bytes| <= buffer.Length
    modifies buffer
    ensures next == offset + |bytes| && buffer[..next] == old(buffer[..offset]) + bytes
  {
    for i := 0 to |bytes|
      invariant buffer[..offset + i] == old(buffer[..offset]) + bytes[..i]
    {
      buffer[offset + i] := bytes[i];
    }
    assert bytes[..|bytes|] == bytes;
    next := offset + |bytes|;
  }

  method PutHeader(buffer: array<Octet>, p: Packet)
    requires HEADER_SIZE <= buffer.Length
    modifies buffer
    ensures buffer[..HEADER_SIZE] == EncodeHeader(p)
  {
    hide U8, U16, U32;
    var offset := PutBytes(buffer, 0, [U8(p.kind * 16 + p.version), U8(p.extension)]);
    offset := PutBytes(buffer, offset, U16(p.connId));
    offset := PutBytes(buffer, offset, U32(p.timestamp));
    offset := PutBytes(buffer, offset, U32(p.difference));
    offset := PutBytes(buffer, offset, U32(p.windowSize));
    offset := PutBytes(buffer, offset, U16(p.seqNr));
    offset := PutBytes(buffer, offset, U16(p.ackNr));
  }

  function OneExtension(e: Extension, nextType: nat): (r: seq<Octet>)
    ensures |r| == EXTENSION_HEADER_SIZE + |Payload(e)|
  {
    [U8(nextType), U8(|Payload(e)|)] + Payload(e)
  }

  lemma ChainParts(extensions: seq<Extension>, i: nat)
    requires i < |extensions|
    ensures EncodeChain(extensions[i..]) ==
      OneExtension(extensions[i], TypeAt(extensions, i + 1)) + EncodeChain(extensions[i + 1..])
    ensures ChainLength(extensions[i..]) ==
      |OneExtension(extensions[i], TypeAt(extensions, i + 1))| + ChainLength(extensions[i + 1..])
  {
    hide U8, Payload;
    var left := extensions[i..];
    assert left[1..] == extensions[i + 1..] && TypeAt(left, 1) == TypeAt(extensions, i + 1);
  }

  lemma NoChain()
    ensures EncodeChain([]) == [] && ChainLength([]) == 0
  {
  }

  method PutExtension(buffer: array<Octet>, offset: nat, e: Extension, nextType: nat) returns (next: nat)
    requires offset + |OneExtension(e, nextType)| <= buffer.Length
    modifies buffer
    ensures next == offset + |OneExtension(e, nextType)|
    ensures buffer[..next] == old(buffer[..offset]) + OneExtension(e, nextType)
  {
    hide U8, Payload;
    var payload := Payload(e);
    next := PutBytes(buffer, offset, [U8(nextType), U8(|payload|)]);
    next := PutBytes(buffer, next, payload);
  }

  method ToBytes(p: Packet) returns (buffer: array<Octet>)
    ensures fresh(buffer) && buffer[..] == Encode(p)
  {
    hide EncodeHeader, U8, Payload, OneExtension, EncodeChain, ChainLength, DataOf;
    ChainLengthIs(p.extensions);
    NoChain();
    buffer := new Octet[HEADER_SIZE + ChainLength(p.extensions) + |DataOf(p)|](_ => 0);
    PutHeader(buffer, p);
    var offset := HEADER_SIZE;
    assert p.extensions[0..] == p.extensions;
    for i := 0 to |p.extensions|
      invariant HEADER_SIZE <= offset && offset + ChainLength(p.extensions[i..]) + |DataOf(p)| == buffer.Length
      invariant buffer[..offset] + EncodeChain(p.extensions[i..]) == EncodeHeader(p) + EncodeChain(p.extensions)
    {
      ChainParts(p.extensions, i);
      offset := PutExtension(buffer, offset, p.extensions[i], TypeAt(p.extensions, i + 1));
    }
    assert p.extensions[|p.extensions|..] == [];
    assert buffer[..offset] == EncodeHeader(p) + EncodeChain(p.extensions);
    offset := PutBytes(buffer, offset, DataOf(p));
    assert buffer[..offset] == buffer[..];
  }

  /** Splitting off one extension at an offset. */
  lemma ChainAt(bytes: seq<Octet>, offset: nat, kind: nat, ackNr: nat)
    requires kind > 0 && offset + EXTENSION_HEADER_SIZE <= |bytes|
    ensures var end := offset + EXTENSION_HEADER_SIZE + Get8(bytes[offset + 1]);
      DecodeChain(bytes[offset..], kind, ackNr) ==
      if end > |bytes| then Failure(TruncatedPayload)
      else
        var read := ReadExtension(kind, bytes[offset + EXTENSION_HEADER_SIZE..end], ackNr);
        if read.Failure? then Failure(read.error)
        else Behind(read.value, DecodeChain(bytes[end..], Get8(bytes[offset]), ackNr))
  {
    hide Get8, ReadExtension;
    var rest, end := bytes[offset..], offset + EXTENSION_HEADER_SIZE + Get8(bytes[offset + 1]);
    assert rest[0] == bytes[offset] && rest[1] == bytes[offset + 1];
    if end <= |bytes| {
      assert rest[EXTENSION_HEADER_SIZE..end - offset] == bytes[offset + EXTENSION_HEADER_SIZE..end];
      assert rest[end - offset..] == bytes[end..];
    }
  }

  lemma ChainEnds(bytes: seq<Octet>, offset: nat, kind: nat, ackNr: nat)
    requires offset <= |bytes|
    ensures kind == 0 ==> DecodeChain(bytes[offset..], kind, ackNr) == Success(Chain([], bytes[offset..]))
    ensures kind > 0 && offset + EXTENSION_HEADER_SIZE > |bytes| ==>
      DecodeChain(bytes[offset..], kind, ackNr) == Failure(TruncatedHeader)
  {
    hide Get8, ReadExtension;
  }

  method FromBytes(bytes: seq<Octet>) returns (r: Result<Packet, Error>)
    ensures r == Decode(bytes)
  {
    hide Get8, Get16, Get32, ReadExtension, DecodeChain, DecodeHeader;
    if |bytes| < HEADER_SIZE {
      return Failure(TooShort);
    }
    var packet := DecodeHeader(bytes);
    var extensionType, offset := packet.extension, HEADER_SIZE;
    var extensions: seq<Extension> := [];
    ghost var whole := DecodeChain(bytes[HEADER_SIZE..], packet.extension, packet.ackNr);
    BehindNothing(whole);
    while extensionType > 0
      invariant HEADER_SIZE <= offset <= |bytes|
      invariant whole == Behind(extensions, DecodeChain(bytes[offset..], extensionType, packet.ackNr))
      decreases |bytes| - offset
    {
      ChainEnds(bytes, offset, extensionType, packet.ackNr);
      if offset + EXTENSION_HEADER_SIZE > |bytes| {
        return Failure(TruncatedHeader);
      }
      ChainAt(bytes, offset, extensionType, packet.ackNr);
      var nextExtensionType := Get8(bytes[offset]);
      var extensionEnd := offset + EXTENSION_HEADER_SIZE + Get8(bytes[offset + 1]);
      if extensionEnd > |bytes| {
        return Failure(TruncatedPayload);
      }
      var payload := bytes[offset + EXTENSION_HEADER_SIZE..extensionEnd];
      var read := ReadExtension(extensionType, payload, packet.ackNr);
      if read.Failure? {
        return Failure(read.error);
      }
      BehindTwice(extensions, read.value, DecodeChain(bytes[extensionEnd..], nextExtensionType, packet.ackNr));
      extensions := extensions + read.value;
      offset := extensionEnd;
      extensionType := nextExtensionType;
    }
    ChainEnds(bytes, offset, extensionType, packet.ackNr);
    assert extensions + [] == extensions;
    packet := packet.(extensions := extensions, data := if offset < |bytes| then Some(bytes[offset..]) else None);
    r := Success(packet);
  }

  ghost function Behind(extensions: seq<Extension>, rest: Result<Chain, Error>): Result<Chain, Error> {
    if rest.Failure? then rest else Success(Chain(extensions + rest.value.extensions, rest.value.rest))
  }

  lemma BehindNothing(rest: Result<Chain, Error>)
    ensures Behind([], rest) == rest
  {
    if rest.Success? {
      assert [] + rest.value.extensions == rest.value.extensions;
    }
  }

  lemma BehindTwice(a: seq<Extension>, b: seq<Extension>, rest: Result<Chain, Error>)
    ensures Behind(a, Behind(b, rest)) == Behind(a + b, rest)
  {
    if rest.Success? {
      assert a + (b + rest.value.extensions) == a + b + rest.value.extensions;
    }
  }
}
