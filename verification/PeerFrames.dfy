/**
 The frames in which peer-wire messages travel (BEP 3, BEP 6, BEP 10, BEP 52): a length in four bytes, a message id and
 a body. Reading is exactly the inverse of writing, on single frames and on streams of them; the session modules speak
 of messages only, and what they check before a message is sent or after it has arrived is what lets it through here.
 */
module PeerFrames {
  import opened Results
  import opened ByteStrings
  import opened PeerSession

  const HASH_LENGTH: nat := 32

  /** The fields that correlate the hash messages of BEP 52. */
  datatype HashKey = HashKey(root: Bytes, baseLayer: nat, index: nat, length: nat, proofLayers: nat)

  datatype Frame =
    | Plain(message: Message)
    | HashRequest(key: HashKey)
    | Hashes(key: HashKey, hashes: Bytes)
    | HashReject(key: HashKey)

  datatype FrameError = MissingPrefix | WrongPrefix | MissingId | WrongLength | EmptyBlock | WrongKey

  // ---- Numbers, most significant byte first ----

  function LowByte(n: nat): Byte {
    n % 256
  }

  function U16(n: nat): (r: Bytes)
    ensures |r| == 2
  {
    [LowByte(n / 256), LowByte(n)]
  }

  function U32(n: nat): (r: Bytes)
    ensures |r| == 4
  {
    U16(n / 0x1_0000) + U16(n)
  }

  function Get16(b: Bytes): (r: nat)
    requires |b| == 2
    ensures r <= 0xFFFF
  {
    var high: nat, low: nat := b[0], b[1];
    256 * high + low
  }

  function Get32(b: Bytes): (r: nat)
    requires |b| == 4
    ensures r <= MAX_UINT32
  {
    0x1_0000 * Get16(b[..2]) + Get16(b[2..])
  }

  lemma Get16OfU16(n: nat)
    ensures Get16(U16(n)) == n % 0x1_0000
  {
    assert n == 0x1_0000 * (n / 256 / 256) + (256 * (n / 256 % 256) + n % 256);
  }

  lemma U16OfGet16(b: Bytes)
    requires |b| == 2
    ensures U16(Get16(b)) == b
  {
  }

  lemma Get32OfU32(n: nat)
    ensures n <= MAX_UINT32 ==> Get32(U32(n)) == n
  {
    hide U16, Get16;
    Get16OfU16(n / 0x1_0000);
    Get16OfU16(n);
    assert U32(n)[..2] == U16(n / 0x1_0000) && U32(n)[2..] == U16(n);
  }

  lemma LowParts(n: nat)
    ensures n % 256 == n % 0x1_0000 % 256 && n / 256 % 256 == n % 0x1_0000 / 256
  {
    var q, r := n / 0x1_0000, n % 0x1_0000;
    assert n == 256 * (256 * q + r / 256) + r % 256;
    assert n / 256 == 256 * q + r / 256;
  }

  lemma U16IsLow(n: nat, m: nat)
    requires n % 0x1_0000 == m % 0x1_0000
    ensures U16(n) == U16(m)
  {
    LowParts(n);
    LowParts(m);
  }

  lemma U32OfGet32(b: Bytes)
    requires |b| == 4
    ensures U32(Get32(b)) == b
  {
    hide U16, Get16;
    var high, low := Get16(b[..2]), Get16(b[2..]);
    U16OfGet16(b[..2]);
    U16OfGet16(b[2..]);
    assert Get32(b) / 0x1_0000 == high && Get32(b) % 0x1_0000 == low;
    U16IsLow(Get32(b), low);
    assert b == b[..2] + b[2..];
  }

  // ---- Writing ----

  function MessageId(f: Frame): Byte
    requires f != Plain(KeepAlive)
  {
    match f
    case HashRequest(_) => 21
    case Hashes(_, _) => 22
    case HashReject(_) => 23
    case Plain(m) =>
      match m
      case Choke => 0
      case Unchoke => 1
      case Interested => 2
      case NotInterested => 3
      case Have(_) => 4
      case Bitfield(_) => 5
      case Request(_) => 6
      case Piece(_, _, _) => 7
      case Cancel(_) => 8
      case Port(_) => 9
      case SuggestPiece(_) => 13
      case HaveAll => 14
      case HaveNone => 15
      case RejectRequest(_) => 16
      case AllowedFast(_) => 17
      case Extended(_, _) => 20
      case Unknown(id, _) => id
  }

  function BlockBody(block: Block): Bytes {
    U32(block.piece) + U32(block.begin) + U32(block.length)
  }

  function KeyBody(key: HashKey): Bytes {
    key.root + U32(key.baseLayer) + U32(key.index) + U32(key.length) + U32(key.proofLayers)
  }

  function MessageBody(m: Message): Bytes {
    match m
    case Have(piece) => U32(piece)
    case SuggestPiece(piece) => U32(piece)
    case AllowedFast(piece) => U32(piece)
    case Request(block) => BlockBody(block)
    case Cancel(block) => BlockBody(block)
    case RejectRequest(block) => BlockBody(block)
    case Bitfield(bits) => bits
    case Piece(piece, begin, data) => U32(piece) + U32(begin) + data
    case Port(port) => U16(port)
    case Extended(id, payload) => [id] + payload
    case Unknown(_, payload) => payload
    case _ => []
  }

  function Body(f: Frame): Bytes {
    match f
    case Plain(m) => MessageBody(m)
    case HashRequest(key) => KeyBody(key)
    case Hashes(key, hashes) => KeyBody(key) + hashes
    case HashReject(key) => KeyBody(key)
  }

  predicate ValidLength(length: nat) {
    length == 2 || length == 4 || length == 8 || length == 16 || length == 32 || length == 64 || length == 128
    || length == 256 || length == 512
  }

  predicate ValidKey(key: HashKey) {
    && |key.root| == HASH_LENGTH && key.baseLayer <= MAX_UINT32 && key.index <= MAX_UINT32 && key.proofLayers <= MAX_UINT32
    && ValidLength(key.length) && key.index % key.length == 0
  }

  predicate ValidBlock(block: Block) {
    FitsUint32(block) && block.length > 0
  }

  /** The fields that the encoder takes; it throws on all others. */
  predicate Writable(f: Frame) {
    match f
    case Plain(m) => Encodable(m) && (m.Request? || m.Cancel? || m.RejectRequest? ==> m.block.length > 0)
    case HashRequest(key) => ValidKey(key)
    case Hashes(key, hashes) => ValidKey(key) && |hashes| >= HASH_LENGTH && |hashes| % HASH_LENGTH == 0
    case HashReject(key) => ValidKey(key)
  }

  /** What the length prefix counts. */
  function Payload(f: Frame): Bytes {
    if f == Plain(KeepAlive) then [] else [MessageId(f)] + Body(f)
  }

  function Encode(f: Frame): Option<Bytes> {
    if Writable(f) then Some(U32(|Payload(f)|) + Payload(f)) else None
  }

  // ---- Reading ----

  /** Messages without a body. */
  function Bare(id: Byte): Message {
    if id == 0 then Choke
    else if id == 1 then Unchoke
    else if id == 2 then Interested
    else if id == 3 then NotInterested
    else if id == 14 then HaveAll
    else HaveNone
  }

  function DecodeBare(id: Byte, body: Bytes): Result<Frame, FrameError> {
    if body != [] then Failure(WrongLength) else Success(Plain(Bare(id)))
  }

  function DecodeIndex(id: Byte, body: Bytes): Result<Frame, FrameError> {
    if |body| != 4 then Failure(WrongLength)
    else
      var piece := Get32(body);
      Success(Plain(if id == 4 then Have(piece) else if id == 13 then SuggestPiece(piece) else AllowedFast(piece)))
  }

  function DecodeBlock(id: Byte, body: Bytes): Result<Frame, FrameError> {
    if |body| != 12 then Failure(WrongLength)
    else
      var block := Block(Get32(body[..4]), Get32(body[4..8]), Get32(body[8..]));
      if block.length == 0 then Failure(EmptyBlock)
      else Success(Plain(if id == 6 then Request(block) else if id == 8 then Cancel(block) else RejectRequest(block)))
  }

  function DecodePiece(body: Bytes): Result<Frame, FrameError> {
    if |body| < 8 then Failure(WrongLength) else Success(Plain(Piece(Get32(body[..4]), Get32(body[4..8]), body[8..])))
  }

  function DecodeKey(body: Bytes): Result<HashKey, FrameError> {
    if |body| != 48 then Failure(WrongLength)
    else
      var key := HashKey(body[..32], Get32(body[32..36]), Get32(body[36..40]), Get32(body[40..44]), Get32(body[44..]));
      if ValidKey(key) then Success(key) else Failure(WrongKey)
  }

  function DecodeHash(id: Byte, body: Bytes): Result<Frame, FrameError> {
    if id == 22 then
      if |body| < 80 || (|body| - 48) % HASH_LENGTH != 0 then Failure(WrongLength)
      else
        var key :- DecodeKey(body[..48]);
        Success(Hashes(key, body[48..]))
    else
      var key :- DecodeKey(body);
      Success(if id == 21 then HashRequest(key) else HashReject(key))
  }

  function DecodeOther(id: Byte, body: Bytes): Result<Frame, FrameError> {
    if id == 5 then Success(Plain(Bitfield(body)))
    else if id == 9 then if |body| != 2 then Failure(WrongLength) else Success(Plain(Port(Get16(body))))
    else if id == 20 then if body == [] then Failure(WrongLength) else Success(Plain(Extended(body[0], body[1..])))
    else Success(Plain(Unknown(id, body)))
  }

  predicate IsBare(id: Byte) {
    id <= 3 || id == 14 || id == 15
  }

  predicate IsIndex(id: Byte) {
    id == 4 || id == 13 || id == 17
  }

  predicate IsBlock(id: Byte) {
    id == 6 || id == 8 || id == 16
  }

  predicate IsHash(id: Byte) {
    21 <= id <= 23
  }

  function DecodePayload(payload: Bytes): Result<Frame, FrameError> {
    if payload == [] then Failure(MissingId)
    else
      var id, body := payload[0], payload[1..];
      if IsBare(id) then DecodeBare(id, body)
      else if IsIndex(id) then DecodeIndex(id, body)
      else if IsBlock(id) then DecodeBlock(id, body)
      else if id == 7 then DecodePiece(body)
      else if IsHash(id) then DecodeHash(id, body)
      else DecodeOther(id, body)
  }

  function Decode(frame: Bytes): Result<Frame, FrameError> {
    if |frame| < 4 then Failure(MissingPrefix)
    else if Get32(frame[..4]) != |frame| - 4 then Failure(WrongPrefix)
    else if |frame| == 4 then Success(Plain(KeepAlive))
    else DecodePayload(frame[4..])
  }

  // ---- Reading is the inverse of writing ----

  /** A message of unknown kind whose id is that of a known one. */
  predicate Shadows(f: Frame) {
    f.Plain? && f.message.Unknown? && (f.message.id <= 9 || 13 <= f.message.id <= 17 || 20 <= f.message.id <= 23)
  }

  lemma BlocksAreInverse(block: Block, body: Bytes)
    ensures FitsUint32(block) && body == BlockBody(block) ==>
      |body| == 12 && block == Block(Get32(body[..4]), Get32(body[4..8]), Get32(body[8..]))
    ensures |body| == 12 && block == Block(Get32(body[..4]), Get32(body[4..8]), Get32(body[8..])) ==>
      body == BlockBody(block) && FitsUint32(block)
  {
    hide U32, Get32;
    Get32OfU32(block.piece);
    Get32OfU32(block.begin);
    Get32OfU32(block.length);
    if body == BlockBody(block) {
      assert body[..4] == U32(block.piece) && body[4..8] == U32(block.begin) && body[8..] == U32(block.length);
    }
    if |body| == 12 {
      U32OfGet32(body[..4]);
      U32OfGet32(body[4..8]);
      U32OfGet32(body[8..]);
      assert body == body[..4] + body[4..8] + body[8..];
    }
  }

  lemma PiecesAreInverse(piece: nat, begin: nat, data: Bytes, body: Bytes)
    ensures piece <= MAX_UINT32 && begin <= MAX_UINT32 && body == U32(piece) + U32(begin) + data ==>
      |body| >= 8 && piece == Get32(body[..4]) && begin == Get32(body[4..8]) && data == body[8..]
    ensures |body| >= 8 && piece == Get32(body[..4]) && begin == Get32(body[4..8]) && data == body[8..] ==>
      body == U32(piece) + U32(begin) + data
  {
    hide U32, Get32;
    Get32OfU32(piece);
    Get32OfU32(begin);
    if body == U32(piece) + U32(begin) + data {
      assert body[..4] == U32(piece) && body[4..8] == U32(begin);
    }
    if |body| >= 8 {
      U32OfGet32(body[..4]);
      U32OfGet32(body[4..8]);
      assert body == body[..4] + body[4..8] + body[8..];
    }
  }

  lemma KeysAreInverse(key: HashKey, body: Bytes)
    ensures DecodeKey(body) == Success(key) <==> ValidKey(key) && body == KeyBody(key)
  {
    hide U32, Get32, ValidLength;
    Get32OfU32(key.baseLayer);
    Get32OfU32(key.index);
    Get32OfU32(key.length);
    Get32OfU32(key.proofLayers);
    ValidLengthFits(key.length);
    if |key.root| == HASH_LENGTH && body == KeyBody(key) {
      assert body[..32] == key.root && body[32..36] == U32(key.baseLayer) && body[36..40] == U32(key.index);
      assert body[40..44] == U32(key.length) && body[44..] == U32(key.proofLayers);
    }
    if |body| == 48 {
      U32OfGet32(body[32..36]);
      U32OfGet32(body[36..40]);
      U32OfGet32(body[40..44]);
      U32OfGet32(body[44..]);
      assert body == body[..32] + body[32..36] + body[36..40] + body[40..44] + body[44..];
    }
  }

  lemma ValidLengthFits(length: nat)
    ensures ValidLength(length) ==> 2 <= length <= MAX_UINT32
  {
  }

  lemma HashesAreInverse(f: Frame, id: Byte, body: Bytes)
    requires IsHash(id)
    ensures DecodeHash(id, body) == Success(f) <==>
      (f.HashRequest? || f.Hashes? || f.HashReject?) && Writable(f) && MessageId(f) == id && Body(f) == body
  {
    hide DecodeKey, KeyBody, ValidKey, Encodable;
    if f.Hashes? {
      KeyLength(f.key);
      if |body| >= 48 {
        KeysAreInverse(f.key, body[..48]);
        assert body == body[..48] + body[48..];
      }
    } else if f.HashRequest? || f.HashReject? {
      KeysAreInverse(f.key, body);
    }
  }

  lemma KeyLength(key: HashKey)
    ensures ValidKey(key) ==> |KeyBody(key)| == 48
  {
  }

  /** The frames whose bodies hold blocks, pieces or numbers. */
  lemma FieldsAreInverse(f: Frame, id: Byte, body: Bytes)
    requires IsIndex(id) || IsBlock(id) || id == 7
    ensures DecodePayload([id] + body) == Success(f) <==>
      f.Plain? && f != Plain(KeepAlive) && !f.message.Unknown? && Writable(f) && MessageId(f) == id && Body(f) == body
  {
    hide U32, Get32, ValidLength;
    assert ([id] + body)[1..] == body;
    if IsIndex(id) {
      if |body| == 4 {
        U32OfGet32(body);
      }
      if f.Plain? && (f.message.Have? || f.message.SuggestPiece? || f.message.AllowedFast?) {
        Get32OfU32(f.message.piece);
      }
    } else if IsBlock(id) {
      if f.Plain? && (f.message.Request? || f.message.Cancel? || f.message.RejectRequest?) {
        BlocksAreInverse(f.message.block, body);
      }
      hide BlockBody;
    } else {
      if f.Plain? && f.message.Piece? {
        PiecesAreInverse(f.message.piece, f.message.begin, f.message.data, body);
      }
    }
  }

  lemma OthersAreInverse(f: Frame, id: Byte, body: Bytes)
    requires !IsBare(id) && !IsIndex(id) && !IsBlock(id) && !IsHash(id) && id != 7
    ensures DecodeOther(id, body) == Success(f) <==>
      f.Plain? && f != Plain(KeepAlive) && !Shadows(f) && Writable(f) && MessageId(f) == id && Body(f) == body
  {
    hide U32, BlockBody, KeyBody, U16, Get16;
    if |body| == 2 {
      U16OfGet16(body);
    }
    if f.Plain? && f.message.Port? {
      Get16OfU16(f.message.port);
    }
    if body != [] {
      assert body == [body[0]] + body[1..];
    }
  }

  lemma BareAreInverse(f: Frame, id: Byte, body: Bytes)
    requires IsBare(id)
    ensures DecodeBare(id, body) == Success(f) <==>
      f.Plain? && f != Plain(KeepAlive) && !f.message.Unknown? && Writable(f) && MessageId(f) == id && Body(f) == body
  {
    hide U32, BlockBody, KeyBody, U16;
  }

  lemma PayloadsAreInverse(payload: Bytes, f: Frame)
    requires payload != []
    ensures DecodePayload(payload) == Success(f) <==> f != Plain(KeepAlive) && Writable(f) && !Shadows(f) && Payload(f) == payload
  {
    hide DecodeBare, DecodeIndex, DecodeBlock, DecodePiece, DecodeHash, DecodeOther, Writable, Body, MessageId;
    var id, body := payload[0], payload[1..];
    assert payload == [id] + body;
    if IsBare(id) {
      BareAreInverse(f, id, body);
    } else if IsIndex(id) || IsBlock(id) || id == 7 {
      FieldsAreInverse(f, id, body);
    } else if IsHash(id) {
      HashesAreInverse(f, id, body);
    } else {
      OthersAreInverse(f, id, body);
    }
    if f != Plain(KeepAlive) {
      IdsDiffer(f);
    }
    assert f != Plain(KeepAlive) ==> (Payload(f) == payload <==> MessageId(f) == id && Body(f) == body);
  }

  lemma IdsDiffer(f: Frame)
    requires f != Plain(KeepAlive)
    ensures IsHash(MessageId(f)) ==> !f.Plain? || Shadows(f)
    ensures !f.Plain? ==> IsHash(MessageId(f))
    ensures Shadows(f) <==>
      f.Plain? && f.message.Unknown? && (IsBare(MessageId(f)) || IsIndex(MessageId(f)) || IsBlock(MessageId(f)) || IsHash(MessageId(f))
                                         || MessageId(f) in {5, 7, 9, 20})
  {
  }

  /** Reading accepts exactly what writing produces, messages with a stolen id apart. */
  lemma FramesAreInverse(bytes: Bytes, f: Frame)
    ensures Decode(bytes) == Success(f) <==> Encode(f) == Some(bytes) && !Shadows(f) && |bytes| - 4 <= MAX_UINT32
  {
    hide DecodePayload, Writable, Payload, U32, Get32, Shadows;
    FrameParts(bytes, f);
    if |bytes| >= 4 {
      U32OfGet32(bytes[..4]);
      Get32OfU32(|bytes| - 4);
      if |bytes| > 4 {
        PayloadsAreInverse(bytes[4..], f);
      }
    }
  }

  lemma FrameParts(bytes: Bytes, f: Frame)
    ensures U32(|Payload(f)|) + Payload(f) == bytes <==>
      |bytes| >= 4 && bytes[4..] == Payload(f) && bytes[..4] == U32(|bytes| - 4)
    ensures Payload(f) == [] <==> f == Plain(KeepAlive)
    ensures Writable(Plain(KeepAlive)) && !Shadows(Plain(KeepAlive))
  {
    hide U32, Body, MessageId;
    if |bytes| >= 4 {
      assert bytes == bytes[..4] + bytes[4..];
    }
  }

  // ---- Streams of frames ----

  /** Nothing more, the middle of a frame, a frame longer than the limit, or one that does not decode. */
  datatype End = Clean | CutShort | Oversized | Malformed(error: FrameError)

  datatype Reading = Reading(frames: seq<Frame>, end: End)

  /** Frame after frame, until the bytes end or cannot be read. */
  function ReadAll(data: Bytes, limit: nat): Reading
    decreases |data|
  {
    if data == [] then Reading([], Clean)
    else if |data| < 4 then Reading([], CutShort)
    else
      var length := Get32(data[..4]);
      if length > limit then Reading([], Oversized)
      else if |data| < 4 + length then Reading([], CutShort)
      else
        var first := Decode(data[..4 + length]);
        if first.Failure? then Reading([], Malformed(first.error))
        else
          var rest := ReadAll(data[4 + length..], limit);
          Reading([first.value] + rest.frames, rest.end)
  }

  /** Frames that are read back as what they are, by a reader with this limit. */
  predicate Travels(f: Frame, limit: nat) {
    Writable(f) && !Shadows(f) && |Payload(f)| <= limit && |Payload(f)| <= MAX_UINT32
  }

  function FrameBytes(f: Frame): Bytes {
    U32(|Payload(f)|) + Payload(f)
  }

  function WriteAll(frames: seq<Frame>): Bytes {
    if frames == [] then [] else FrameBytes(frames[0]) + WriteAll(frames[1..])
  }

  lemma FirstIsRead(f: Frame, behind: Bytes, limit: nat)
    requires Travels(f, limit)
    ensures ReadAll(FrameBytes(f) + behind, limit) ==
      Reading([f] + ReadAll(behind, limit).frames, ReadAll(behind, limit).end)
  {
    hide U32, Get32, Payload, Writable, Shadows, Decode;
    var data, n := FrameBytes(f) + behind, |Payload(f)|;
    Get32OfU32(n);
    FramesAreInverse(FrameBytes(f), f);
    assert data[..4] == U32(n) && data[..4 + n] == FrameBytes(f) && data[4 + n..] == behind;
  }

  /** Whatever follows them, frames written one after the other are read as those frames. */
  lemma {:induction false} StreamIsRead(frames: seq<Frame>, behind: Bytes, limit: nat)
    requires forall f <- frames :: Travels(f, limit)
    ensures ReadAll(WriteAll(frames) + behind, limit) ==
      Reading(frames + ReadAll(behind, limit).frames, ReadAll(behind, limit).end)
  {
    hide ReadAll, Travels, FrameBytes;
    if frames == [] {
      assert WriteAll(frames) + behind == behind;
    } else {
      assert WriteAll(frames) + behind == FrameBytes(frames[0]) + (WriteAll(frames[1..]) + behind);
      FirstIsRead(frames[0], WriteAll(frames[1..]) + behind, limit);
      StreamIsRead(frames[1..], behind, limit);
    }
  }

  /** What is read stands there: the frames, written again, are what the stream begins with, and all of it when it ends cleanly. */
  lemma {:induction false} OnlyWrittenIsRead(data: Bytes, limit: nat)
    ensures var reading := ReadAll(data, limit);
      && (forall f <- reading.frames :: Travels(f, limit))
      && WriteAll(reading.frames) <= data
      && (reading.end == Clean <==> WriteAll(reading.frames) == data)
    decreases |data|
  {
    hide Decode, U32, Get32, Payload, Writable, Shadows;
    if |data| >= 4 {
      var length := Get32(data[..4]);
      if length <= limit && |data| >= 4 + length {
        var bytes, rest := data[..4 + length], data[4 + length..];
        assert data == bytes + rest;
        if Decode(bytes).Success? {
          FramesAreInverse(bytes, Decode(bytes).value);
          OnlyWrittenIsRead(rest, limit);
        }
      }
    }
  }

  // ---- The session's checks ----

  /** The length that counts against the limits is the one in the frame's prefix. */
  lemma FrameLengthIs(m: Message)
    ensures |Payload(Plain(m))| == FrameLength(m)
  {
    hide U32, U16;
  }

  /** A message that passes the checks of a send has a frame, of the length that counts against the limit. */
  lemma SentHasFrame(w: Wire, m: Message)
    requires CheckOutgoing(w, m).None? && CheckFrame(w.config, m).None?
    ensures Encode(Plain(m)).Some? && |Encode(Plain(m)).value| == 4 + FrameLength(m)
    ensures FrameLength(m) <= w.config.maxMessageLength
  {
    hide U32, Negotiated, InOrder, ActualLength, BitsFit;
  }

  /** A message that was read from a frame fits its fields, and has the length of that frame. */
  lemma ReadFitsFrame(bytes: Bytes, m: Message)
    requires Decode(bytes) == Success(Plain(m))
    ensures Encodable(m) && FrameLength(m) == |bytes| - 4
  {
    hide Decode, U32, Shadows;
    FramesAreInverse(bytes, Plain(m));
  }

  /** So what one side may send, the other reads, within its limit, as the message that was sent, unless its id is stolen. */
  lemma SentIsRead(w: Wire, m: Message, limit: nat)
    requires CheckOutgoing(w, m).None? && CheckFrame(w.config, m).None? && w.config.maxMessageLength <= limit
    requires FrameLength(m) <= MAX_UINT32
    ensures Encode(Plain(m)).Some?
    ensures ReadAll(Encode(Plain(m)).value, limit) == Reading([Plain(m)], Clean) <==> !Shadows(Plain(m))
  {
    hide CheckOutgoing, CheckFrame, Encodable, ReadAll, U32, Shadows, Payload;
    SentHasFrame(w, m);
    assert FrameBytes(Plain(m)) + [] == Encode(Plain(m)).value;
    if !Shadows(Plain(m)) {
      FirstIsRead(Plain(m), [], limit);
      NothingToRead(limit);
    } else {
      OnlyWrittenIsRead(Encode(Plain(m)).value, limit);
      var reading := ReadAll(Encode(Plain(m)).value, limit);
      assert reading.frames != [] ==> Travels(reading.frames[0], limit);
    }
  }

  lemma NothingToRead(limit: nat)
    ensures ReadAll([], limit) == Reading([], Clean)
  {
  }

  // ---- The published numbers ----

  predicate HasFrame(m: Message, bytes: Bytes) {
    Encode(Plain(m)).Some? && Encode(Plain(m)).value == bytes
  }

  lemma SmallNumbers(n: nat)
    ensures n < 256 ==> U32(n) == [0, 0, 0, n]
    ensures U32(0x01020304) == [1, 2, 3, 4] && U16(6881) == [0x1A, 0xE1]
    ensures U32(0x4000) == [0, 0, 0x40, 0] && U32(0x2000) == [0, 0, 0x20, 0]
  {
  }

  /** The frames of BEP 3, BEP 6 and BEP 10, byte by byte. */
  lemma BareFrames()
    ensures HasFrame(KeepAlive, [0, 0, 0, 0])
    ensures HasFrame(Choke, [0, 0, 0, 1, 0]) && HasFrame(Unchoke, [0, 0, 0, 1, 1])
    ensures HasFrame(Interested, [0, 0, 0, 1, 2]) && HasFrame(NotInterested, [0, 0, 0, 1, 3])
    ensures HasFrame(HaveAll, [0, 0, 0, 1, 14]) && HasFrame(HaveNone, [0, 0, 0, 1, 15])
  {
    hide HasFrame;
    KeepAliveFrame();
    BareFrame(Choke, 0);
    BareFrame(Unchoke, 1);
    BareFrame(Interested, 2);
    BareFrame(NotInterested, 3);
    BareFrame(HaveAll, 14);
    BareFrame(HaveNone, 15);
  }

  lemma BareFrame(m: Message, id: Byte)
    requires m.Choke? || m.Unchoke? || m.Interested? || m.NotInterested? || m.HaveAll? || m.HaveNone?
    requires MessageId(Plain(m)) == id
    ensures HasFrame(m, [0, 0, 0, 1, id])
  {
    hide U32, BlockBody, KeyBody;
    SmallNumbers(1);
  }

  lemma KeepAliveFrame()
    ensures HasFrame(KeepAlive, [0, 0, 0, 0])
  {
    hide U32, BlockBody, KeyBody;
    SmallNumbers(0);
  }

  lemma IndexFrames()
    ensures HasFrame(Have(0x01020304), [0, 0, 0, 5, 4, 1, 2, 3, 4])
    ensures HasFrame(SuggestPiece(0x01020304), [0, 0, 0, 5, 13, 1, 2, 3, 4])
    ensures HasFrame(AllowedFast(0x01020304), [0, 0, 0, 5, 17, 1, 2, 3, 4])
    ensures HasFrame(Port(6881), [0, 0, 0, 3, 9, 0x1A, 0xE1])
  {
    hide U16, U32, BlockBody, KeyBody;
    SmallNumbers(3);
    SmallNumbers(5);
  }

  lemma BlockFields()
    ensures BlockBody(Block(1, 0x4000, 0x2000)) == [0, 0, 0, 1, 0, 0, 0x40, 0, 0, 0, 0x20, 0]
  {
    hide U32;
    SmallNumbers(1);
  }

  lemma BlockLength(block: Block)
    ensures |BlockBody(block)| == 12
  {
  }

  lemma BlockFrames(block: Block)
    requires ValidBlock(block)
    ensures HasFrame(Request(block), [0, 0, 0, 13, 6] + BlockBody(block))
    ensures HasFrame(Cancel(block), [0, 0, 0, 13, 8] + BlockBody(block))
    ensures HasFrame(RejectRequest(block), [0, 0, 0, 13, 16] + BlockBody(block))
  {
    hide HasFrame;
    BlockFrame(Request(block), 6);
    BlockFrame(Cancel(block), 8);
    BlockFrame(RejectRequest(block), 16);
  }

  lemma BlockFrame(m: Message, id: Byte)
    requires (m.Request? || m.Cancel? || m.RejectRequest?) && ValidBlock(m.block) && MessageId(Plain(m)) == id
    ensures HasFrame(m, [0, 0, 0, 13, id] + BlockBody(m.block))
  {
    hide U32, BlockBody, KeyBody;
    SmallNumbers(13);
    BlockLength(m.block);
  }

  lemma DataFrames()
    ensures HasFrame(Bitfield([0xC0]), [0, 0, 0, 2, 5, 0xC0])
    ensures HasFrame(Piece(1, 0x4000, [9, 8]), [0, 0, 0, 11, 7, 0, 0, 0, 1, 0, 0, 0x40, 0, 9, 8])
    ensures HasFrame(Extended(3, [100, 101]), [0, 0, 0, 4, 20, 3, 100, 101])
  {
    hide U16, U32, BlockBody, KeyBody;
    SmallNumbers(1);
    SmallNumbers(2);
    SmallNumbers(4);
    SmallNumbers(11);
  }

  /** The key of the hash messages (BEP 52) has a place of its own for each field. */
  lemma KeyFields(root: Bytes)
    requires |root| == HASH_LENGTH
    ensures ValidKey(HashKey(root, 1, 4, 2, 3))
    ensures KeyBody(HashKey(root, 1, 4, 2, 3)) == root + [0, 0, 0, 1, 0, 0, 0, 4, 0, 0, 0, 2, 0, 0, 0, 3]
  {
    hide U32;
    SmallNumbers(1);
    SmallNumbers(2);
    SmallNumbers(3);
    SmallNumbers(4);
  }

  lemma HashFrames(key: HashKey)
    requires ValidKey(key)
    ensures Encode(HashRequest(key)).Some? && Encode(HashRequest(key)).value == [0, 0, 0, 49, 21] + KeyBody(key)
    ensures Encode(HashReject(key)).Some? && Encode(HashReject(key)).value == [0, 0, 0, 49, 23] + KeyBody(key)
  {
    hide U32, KeyBody, ValidKey;
    KeyLength(key);
    SmallNumbers(49);
  }

  lemma HashesFrame(key: HashKey, hash: Bytes)
    requires ValidKey(key) && |hash| == HASH_LENGTH
    ensures Encode(Hashes(key, hash)).Some? && Encode(Hashes(key, hash)).value == [0, 0, 0, 81, 22] + KeyBody(key) + hash
  {
    hide U32, KeyBody, ValidKey;
    KeyLength(key);
    SmallNumbers(81);
  }
}
