/**
 Which messages a peer-wire session lets through: a message that was read is taken in, and one that is to be sent gets
 its place in the write queue, exactly when it has a frame, is one that both sides know, comes in its time and speaks of
 bytes and pieces that the torrent has.
 */
module PeerChecks {
  import opened Results
  import opened ByteStrings
  import opened Arithmetic
  import opened PeerSession
  import F = PeerFrames
  import H = PeerHistory
  import I = PeerInterleaving

  // ---- Bytes and pieces of the torrent ----

  /** What the constructor of a session insists on where it is given the sizes of the torrent. */
  predicate Consistent(config: Config) {
    && (config.pieceLength.Some? ==> config.pieceLength.value > 0)
    && (config.pieceLength.Some? && config.totalLength.Some? && config.pieceCount.Some? && config.pieceLengths.None? ==>
          config.pieceCount.value == (config.totalLength.value + config.pieceLength.value - 1) / config.pieceLength.value)
    && (config.pieceLengths.Some? && config.pieceCount.Some? ==> config.pieceCount.value == |config.pieceLengths.value|)
  }

  predicate PieceExists(config: Config, piece: nat) {
    piece <= MAX_UINT32 && (config.pieceCount.Some? ==> piece < config.pieceCount.value)
  }

  /** Byte `k` of a piece: within its own length where that is known, else within the torrent. */
  predicate ByteExists(config: Config, piece: nat, k: nat) {
    if config.pieceLength.None? then true
    else if config.pieceLengths.Some? && piece < |config.pieceLengths.value| then k < config.pieceLengths.value[piece]
    else
      && k < config.pieceLength.value
      && (config.pieceLengths.None? && config.totalLength.Some? && config.pieceCount.Some? ==>
            piece * config.pieceLength.value + k < config.totalLength.value)
  }

  /** A block of at least one byte and at most the limit, all of whose bytes the piece has. */
  ghost predicate BlockExists(config: Config, block: Block) {
    && PieceExists(config, block.piece) && block.begin <= MAX_UINT32 && 1 <= block.length <= config.maxBlockLength
    && forall k: nat :: block.begin <= k < block.begin + block.length ==> ByteExists(config, block.piece, k)
  }

  lemma LastPieceEnds(total: nat, length: nat, count: nat, piece: nat, k: nat)
    requires length > 0 && count == (total + length - 1) / length && piece < count
    ensures piece < count - 1 && k < length ==> piece * length + k < total
    ensures piece == count - 1 ==> 0 < total - piece * length <= length
  {
    DivMod(total + length - 1, length);
    var r := (total + length - 1) % length;
    MultiplesAdd(count - 1, 1, length);
    if piece < count - 1 {
      MultiplesAdd(piece, 1, length);
      MultiplesAdd(piece + 1, count - 1 - (piece + 1), length);
    }
  }

  /** Where a block has to end is where the bytes of its piece end. */
  lemma ExtentIs(config: Config, piece: nat, k: nat)
    requires Consistent(config) && config.pieceLength.Some? && PieceExists(config, piece)
    ensures ByteExists(config, piece, k) <==> k < ActualLength(config, piece)
  {
    if config.pieceLengths.None? && config.totalLength.Some? && config.pieceCount.Some? {
      var total, length, count := config.totalLength.value, config.pieceLength.value, config.pieceCount.value;
      LastPieceEnds(total, length, count, piece, k);
    }
  }

  lemma BlockFitsExactly(config: Config, block: Block)
    requires Consistent(config)
    ensures BlockFits(config, block) <==> BlockExists(config, block)
  {
    hide ByteExists, Consistent, ActualLength;
    if PieceFits(config, block.piece) && config.pieceLength.Some? {
      forall k: nat ensures ByteExists(config, block.piece, k) <==> k < ActualLength(config, block.piece) {
        ExtentIs(config, block.piece, k);
      }
      if block.length >= 1 && BlockExists(config, block) {
        assert ByteExists(config, block.piece, block.begin + block.length - 1);
      }
    } else if config.pieceLength.None? {
      forall k: nat ensures ByteExists(config, block.piece, k) {
        AnyByte(config, block.piece, k);
      }
    }
  }

  lemma AnyByte(config: Config, piece: nat, k: nat)
    requires config.pieceLength.None?
    ensures ByteExists(config, piece, k)
  {
  }

  // ---- Bitfields ----

  /** Binary digit `k` of a number is 1. */
  predicate Digit(b: nat, k: nat) {
    b / Pow2(k) % 2 == 1
  }

  /** Bit `i` of a bitfield, the highest bit of a byte first. */
  predicate Has(bits: Bytes, i: nat)
    requires i < 8 * |bits|
  {
    Digit(bits[i / 8], 7 - i % 8)
  }

  /** A bit for each piece, in no more bytes than that takes, and none set for pieces that do not exist. */
  ghost predicate BitsExist(config: Config, bits: Bytes) {
    config.pieceCount.Some? ==>
      var count := config.pieceCount.value;
      count <= 8 * |bits| < count + 8 && forall i :: count <= i < 8 * |bits| ==> !Has(bits, i)
  }

  lemma HalvesDivide(b: nat, m: nat)
    requires m > 0
    ensures b / (2 * m) == b / 2 / m
  {
    DivMod(b / 2, m);
    var q, r := b / 2 / m, b / 2 % m;
    assert q * (2 * m) == 2 * (q * m);
    DivIs(b, q, 2 * r + b % 2, 2 * m);
  }

  lemma DigitOfHalf(b: nat, k: nat)
    ensures Digit(b, k + 1) <==> Digit(b / 2, k)
    ensures Digit(b, 0) <==> b % 2 == 1
  {
    HalvesDivide(b, Pow2(k));
  }

  /** A multiple of 2^n has its last n binary digits clear, and no other number has. */
  lemma {:induction false} LowDigits(b: nat, n: nat)
    ensures b % Pow2(n) == 0 <==> forall k: nat :: k < n ==> !Digit(b, k)
  {
    if n == 0 {
    } else {
      LowDigits(b / 2, n - 1);
      LastOfHalves(b, Pow2(n - 1));
      HalfDigits(b, n - 1);
    }
  }

  lemma HalfDigits(b: nat, n: nat)
    ensures (forall k: nat :: k < n + 1 ==> !Digit(b, k)) <==> b % 2 == 0 && forall k: nat :: k < n ==> !Digit(b / 2, k)
  {
    hide Digit;
    forall k: nat ensures (Digit(b, k + 1) <==> Digit(b / 2, k)) && (Digit(b, 0) <==> b % 2 == 1) {
      DigitOfHalf(b, k);
    }
    DigitOfHalf(b, 0);
    if b % 2 == 0 && forall k: nat :: k < n ==> !Digit(b / 2, k) {
      forall k: nat | k < n + 1 ensures !Digit(b, k) {
        if k > 0 {
          assert !Digit(b / 2, k - 1);
          DigitOfHalf(b, k - 1);
        }
      }
    }
    if forall k: nat :: k < n + 1 ==> !Digit(b, k) {
      forall k: nat | k < n ensures !Digit(b / 2, k) {
        assert !Digit(b, k + 1);
      }
    }
  }

  lemma LastOfHalves(b: nat, m: nat)
    requires m > 0
    ensures b % (2 * m) == 0 <==> b % 2 == 0 && b / 2 % m == 0
  {
    DivMod(b / 2, m);
    var q, r := b / 2 / m, b / 2 % m;
    assert b == 2 * (b / 2) + b % 2 && q * (2 * m) == 2 * (q * m);
    DivIs(b, q, 2 * r + b % 2, 2 * m);
  }

  lemma BitsFitExactly(config: Config, bits: Bytes)
    ensures BitsFit(config, bits) <==> BitsExist(config, bits)
  {
    if config.pieceCount.Some? {
      var count := config.pieceCount.value;
      assert |bits| == (count + 7) / 8 <==> count <= 8 * |bits| < count + 8;
      if |bits| == (count + 7) / 8 && count % 8 != 0 {
        SpareBits(bits, count);
      }
    }
  }

  lemma SparePositions(bytes: nat, count: nat, i: nat, k: nat)
    requires bytes == (count + 7) / 8 && count % 8 != 0
    ensures count <= i < 8 * bytes ==> i / 8 == bytes - 1 && 7 - i % 8 < 8 - count % 8
    ensures k < 8 - count % 8 ==>
      var j := 8 * bytes - 1 - k; count <= j < 8 * bytes && j / 8 == bytes - 1 && 7 - j % 8 == k
  {
  }

  lemma SpareBits(bits: Bytes, count: nat)
    requires |bits| == (count + 7) / 8 && count % 8 != 0
    ensures bits[|bits| - 1] % Pow2(8 - count % 8) == 0 <==> forall i :: count <= i < 8 * |bits| ==> !Has(bits, i)
  {
    hide Pow2, Digit;
    var last, n := bits[|bits| - 1], 8 - count % 8;
    LowDigits(last, n);
    if forall i :: count <= i < 8 * |bits| ==> !Has(bits, i) {
      forall k: nat | k < n ensures !Digit(last, k) {
        SparePositions(|bits|, count, 0, k);
        assert !Has(bits, 8 * |bits| - 1 - k);
      }
    }
    forall i: nat | count <= i < 8 * |bits| ensures (forall k: nat :: k < n ==> !Digit(last, k)) ==> !Has(bits, i) {
      SparePositions(|bits|, count, i, 0);
    }
  }

  // ---- What a message speaks of, what both sides know, and when it may come ----

  ghost predicate SpeaksOfTorrent(config: Config, m: Message) {
    match m
    case Bitfield(bits) => BitsExist(config, bits)
    case Have(piece) => PieceExists(config, piece)
    case SuggestPiece(piece) => PieceExists(config, piece)
    case AllowedFast(piece) => PieceExists(config, piece)
    case Request(block) => BlockExists(config, block)
    case Cancel(block) => BlockExists(config, block)
    case RejectRequest(block) => BlockExists(config, block)
    case Piece(piece, begin, data) => BlockExists(config, Block(piece, begin, |data|))
    case _ => true
  }

  lemma InBoundsExactly(config: Config, m: Message)
    requires Consistent(config)
    ensures InBounds(config, m) <==> SpeaksOfTorrent(config, m)
  {
    hide BlockFits, BlockExists, BitsFit, BitsExist, Consistent;
    match m
    case Bitfield(bits) => BitsFitExactly(config, bits);
    case Request(block) => BlockFitsExactly(config, block);
    case Cancel(block) => BlockFitsExactly(config, block);
    case RejectRequest(block) => BlockFitsExactly(config, block);
    case Piece(piece, begin, data) => BlockFitsExactly(config, Block(piece, begin, |data|));
    case _ =>
  }

  /** By its id on the wire: 13 to 17 belong to the Fast extension, 20 to the extension protocol, 9 to the DHT. */
  predicate BothKnow(config: Config, m: Message) {
    m.KeepAlive? || m.Unknown? ||
    var id := F.MessageId(F.Plain(m));
    && (13 <= id <= 17 ==> Fast in config.negotiated)
    && (id == 20 ==> ExtensionProtocol in config.negotiated)
    && (id == 9 ==> Dht in config.negotiated)
  }

  lemma NegotiatedExactly(config: Config, m: Message)
    ensures Negotiated(config, m) <==> BothKnow(config, m)
  {
  }

  /** A frame of a length within the limit. */
  predicate HasFrame(config: Config, m: Message) {
    F.Encode(F.Plain(m)).Some? && |F.Encode(F.Plain(m)).value| - 4 <= config.maxMessageLength
  }

  lemma FramesExactly(config: Config, m: Message)
    ensures HasFrame(config, m) && InBounds(config, m) <==>
      Encodable(m) && FrameLength(m) <= config.maxMessageLength && InBounds(config, m)
  {
    hide BitsFit, ActualLength, F.U32, F.U16;
  }

  /**
   An availability declaration comes before all but keepalive and extended messages; with Fast, and only then, it is
   also due before them. `before` are the messages of the same direction so far.
   */
  ghost predicate InTime(config: Config, m: Message, before: set<Message>) {
    H.Ends(m) ==>
      if H.Announces(m) then forall b <- before :: !H.Ends(b)
      else Fast in config.negotiated ==> exists b <- before :: H.Ends(b)
  }

  lemma InTimeExactly(config: Config, m: Message, open: bool, declared: bool, before: set<Message>)
    requires open <==> forall b <- before :: !H.Ends(b)
    requires declared <==> exists b <- before :: H.Announces(b)
    ensures InOrder(config, m, open, declared) <==> InTime(config, m, before)
  {
    assert forall b: Message :: H.Announces(b) ==> H.Ends(b);
  }

  // ---- Messages read ----

  function TakenBefore(log: seq<H.Act>): set<Message> {
    set a <- log | a.Took? :: a.message
  }

  function WrittenBefore(log: seq<H.Act>): set<Message> {
    set a <- log | a.Wrote? :: a.message
  }

  lemma OrderFollows(w: Wire, log: seq<H.Act>, m: Message)
    requires H.LocalFollows(w, log) && H.RemoteFollows(w, log)
    ensures InOrder(w.config, m, w.remoteOpen, w.remoteDeclared) <==> InTime(w.config, m, TakenBefore(log))
    ensures InOrder(w.config, m, w.localOpen, w.localDeclared) <==> InTime(w.config, m, WrittenBefore(log))
  {
    hide InOrder, InTime, H.Chokes, H.ChokedByPeer, H.Wants, H.WantedByPeer;
    InTimeExactly(w.config, m, w.remoteOpen, w.remoteDeclared, TakenBefore(log));
    InTimeExactly(w.config, m, w.localOpen, w.localDeclared, WrittenBefore(log));
  }

  /** What the checks of an incoming message come to. */
  lemma IncomingExactly(w: Wire, log: seq<H.Act>, m: Message)
    requires Consistent(w.config) && H.LocalFollows(w, log) && H.RemoteFollows(w, log)
    ensures CheckIncoming(w, m).None? <==>
      && HasFrame(w.config, m) && BothKnow(w.config, m) && InTime(w.config, m, TakenBefore(log)) && SpeaksOfTorrent(w.config, m)
      && (m.Request? ==> |w.peerRequests| < w.config.maxPending)
  {
    hide Consistent, H.LocalFollows, H.RemoteFollows, HasFrame, BothKnow, InTime, SpeaksOfTorrent;
    hide Encodable, FrameLength, Negotiated, InOrder, InBounds;
    FramesExactly(w.config, m);
    NegotiatedExactly(w.config, m);
    InBoundsExactly(w.config, m);
    OrderFollows(w, log, m);
  }

  /**
   In every state a session can reach, a message that has been read is taken in exactly when it has a frame within the
   limit, is one both sides know, comes in its time and speaks of what the torrent has, and a request also when there
   is room for it. Any other message closes the session.
   */
  lemma AcceptedExactly(config: Config, maxQueued: nat, events: seq<I.Event>, m: Message)
    requires Consistent(config) && I.Run(I.Begin(config, maxQueued), events).reading.MessageRead?
    ensures var s, log := I.Run(I.Begin(config, maxQueued), events), H.History(I.Begin(config, maxQueued), events);
      if && HasFrame(config, m) && BothKnow(config, m) && InTime(config, m, TakenBefore(log)) && SpeaksOfTorrent(config, m)
         && (m.Request? ==> |s.wire.peerRequests| < config.maxPending)
      then H.Taken(s, I.EndRead(m)) == [H.Took(m)]
      else H.Taken(s, I.EndRead(m)) == [] && I.Step(s, I.EndRead(m)).wire.state == Closed
  {
    hide I.Run, H.History, Consistent, H.LocalFollows, H.RemoteFollows, H.RequestsFollow, HasFrame, BothKnow, InTime, SpeaksOfTorrent;
    hide CheckIncoming, Terminate;
    var since := H.HistoryTells(config, maxQueued, events);
    var s, log := I.Run(I.Begin(config, maxQueued), events), H.History(I.Begin(config, maxQueued), events);
    IncomingExactly(s.wire, log, m);
    if CheckIncoming(s.wire, m).Some? {
      H.TerminatingKeeps(s.wire, CheckIncoming(s.wire, m).value);
    }
  }

  // ---- Messages sent ----

  /** An answer, where answers count, is to a request that is held. */
  predicate AnswersHeld(w: Wire, m: Message) {
    (m.Piece? || m.RejectRequest?) && (Fast in w.config.negotiated || V2 in w.config.negotiated) ==> Answered(m) in w.peerRequests
  }

  lemma OutgoingExactly(w: Wire, log: seq<H.Act>, m: Message)
    requires Consistent(w.config) && H.LocalFollows(w, log) && H.RemoteFollows(w, log)
    ensures CheckOutgoing(w, m).None? && CheckFrame(w.config, m).None? <==>
      && w.state == Connected
      && HasFrame(w.config, m) && BothKnow(w.config, m) && InTime(w.config, m, WrittenBefore(log)) && SpeaksOfTorrent(w.config, m)
      && AnswersHeld(w, m)
  {
    hide Consistent, H.LocalFollows, H.RemoteFollows, HasFrame, BothKnow, InTime, SpeaksOfTorrent;
    hide Encodable, FrameLength, Negotiated, InOrder, InBounds;
    FramesExactly(w.config, m);
    NegotiatedExactly(w.config, m);
    InBoundsExactly(w.config, m);
    OrderFollows(w, log, m);
  }

  /** The write queue counts the bytes of the frames in it, and 68 for a handshake. */
  lemma {:induction false} QueueCounts(writes: seq<I.Write>, w: I.Write)
    ensures I.QueuedBytes([]) == 0 && I.QueuedBytes(writes + [w]) == I.QueuedBytes(writes) + I.QueuedBytes([w])
    ensures w.HandshakeFrame? ==> I.QueuedBytes([w]) == 68
    ensures w.Frame? && F.Encode(F.Plain(w.message)).Some? ==> I.QueuedBytes([w]) == |F.Encode(F.Plain(w.message)).value|
  {
    hide F.U32, F.Payload, FrameLength, F.Writable;
    assert [w][1..] == [];
    if w.Frame? {
      F.FrameLengthIs(w.message);
    }
    if writes == [] {
      assert writes + [w] == [w];
    } else {
      assert (writes + [w])[1..] == writes[1..] + [w];
      QueueCounts(writes[1..], w);
    }
  }

  /** There is room for one more request, and none for the same block waits. */
  predicate RoomFor(w: Wire, block: Block) {
    |w.pending| < w.config.maxPending && forall e <- w.pending :: e.block != block
  }

  /**
   In every state a session can reach, a message handed over for sending gets its place behind the writes that wait
   exactly when the session is connected, the message passes the same four tests, an answer is to a request that is
   held, a request is new and within the limit, and the queue has room for its bytes. Otherwise nothing changes.
   */
  lemma QueuedExactly(config: Config, maxQueued: nat, events: seq<I.Event>, m: Message)
    requires Consistent(config)
    ensures var s, log := I.Run(I.Begin(config, maxQueued), events), H.History(I.Begin(config, maxQueued), events);
      var t := I.Step(s, I.StartSend(m));
      if && s.wire.state == Connected && HasFrame(config, m) && BothKnow(config, m) && InTime(config, m, WrittenBefore(log))
         && SpeaksOfTorrent(config, m) && AnswersHeld(s.wire, m) && (m.Request? ==> RoomFor(s.wire, m.block))
         && I.QueuedBytes(s.writes) + |F.Encode(F.Plain(m)).value| <= s.maxQueued
      then t.writes == s.writes + [I.Frame(m, I.ByCall)]
           && t.wire == if m.Request? then s.wire.(pending := s.wire.pending + [Entry(m.block, None)]) else s.wire
      else t == s
  {
    hide I.Run, H.History, Consistent, H.LocalFollows, H.RemoteFollows, H.RequestsFollow, BothKnow, InTime, SpeaksOfTorrent;
    hide CheckOutgoing, CheckFrame, FrameLength, AnswersHeld, F.Encode, Find, I.QueuedBytes;
    var since := H.HistoryTells(config, maxQueued, events);
    var s, log := I.Run(I.Begin(config, maxQueued), events), H.History(I.Begin(config, maxQueued), events);
    OutgoingExactly(s.wire, log, m);
    if CheckOutgoing(s.wire, m).None? && CheckFrame(s.wire.config, m).None? {
      F.SentHasFrame(s.wire, m);
    }
    if m.Request? {
      FindsNone(s.wire.pending, m.block);
    }
  }

  /**
   A request with a promise is turned down at once when the torrent has no such block, the same one waits or too many do.
   Else its promise is issued, and its frame gets its place exactly when it may be sent; if not, the call fails.
   */
  lemma RequestedExactly(config: Config, maxQueued: nat, events: seq<I.Event>, block: Block)
    requires Consistent(config)
    ensures var s, log := I.Run(I.Begin(config, maxQueued), events), H.History(I.Begin(config, maxQueued), events);
      var t, m := I.Step(s, I.StartRequest(block)), Request(block);
      if !BlockExists(config, block) || !RoomFor(s.wire, block) then t == s
      else
        && t.wire == s.wire.(pending := s.wire.pending + [Entry(block, Some(|s.wire.issued|))], issued := s.wire.issued + [block])
        && if && s.wire.state == Connected && HasFrame(config, m) && InTime(config, m, WrittenBefore(log))
              && I.QueuedBytes(s.writes) + |F.Encode(F.Plain(m)).value| <= s.maxQueued
           then t.writes == s.writes + [I.Frame(m, I.ByPromise)] && t.failedCalls == s.failedCalls
           else t.writes == s.writes && |t.failedCalls| == |s.failedCalls| + 1 && t.failedCalls[|s.failedCalls|].block == block
  {
    hide I.Run, H.History, Consistent, H.LocalFollows, H.RemoteFollows, H.RequestsFollow, InTime, BlockExists;
    hide CheckOutgoing, CheckFrame, FrameLength, F.Encode, Find, I.QueuedBytes, BlockFits;
    var since := H.HistoryTells(config, maxQueued, events);
    var s, log := I.Run(I.Begin(config, maxQueued), events), H.History(I.Begin(config, maxQueued), events);
    var m := Request(block);
    var asked := I.Asked(s.wire, block);
    BlockFitsExactly(config, block);
    FindsNone(s.wire.pending, block);
    AskedFollows(s.wire, asked, log);
    OutgoingExactly(asked, log, m);
    if CheckOutgoing(asked, m).None? && CheckFrame(asked.config, m).None? {
      F.SentHasFrame(asked, m);
    }
  }

  lemma AskedFollows(w: Wire, v: Wire, log: seq<H.Act>)
    requires H.LocalFollows(w, log) && H.RemoteFollows(w, log) && H.SameFlags(w, v)
    ensures H.LocalFollows(v, log) && H.RemoteFollows(v, log)
  {
    hide H.Chokes, H.ChokedByPeer, H.Wants, H.WantedByPeer;
  }

  lemma {:induction false} FindsNone(pending: seq<Entry>, block: Block)
    ensures Find(pending, block).None? <==> forall e <- pending :: e.block != block
  {
    if pending == [] {
    } else {
      FindsNone(pending[1..], block);
      assert forall e <- pending :: e == pending[0] || e in pending[1..];
      assert forall e <- pending[1..] :: e in pending;
    }
  }
}
