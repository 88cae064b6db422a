/**
 One endpoint of a peer-wire connection: what it checks before it sends or accepts a message,
 and how each operation changes its request maps, its flags and its promises.
 */
module PeerSession {
  import opened Results
  import opened ByteStrings
  import opened Arithmetic

  const MAX_UINT32 := 0xFFFF_FFFF

  datatype Extension = ExtensionProtocol | Fast | Dht | V2

  /** The coordinates that identify a block request. */
  datatype Block = Block(piece: nat, begin: nat, length: nat)

  datatype Message =
    | KeepAlive
    | Choke
    | Unchoke
    | Interested
    | NotInterested
    | Have(piece: nat)
    | Bitfield(bits: Bytes)
    | Request(block: Block)
    | Piece(piece: nat, begin: nat, data: Bytes)
    | Cancel(block: Block)
    | Port(port: nat)
    | SuggestPiece(piece: nat)
    | HaveAll
    | HaveNone
    | RejectRequest(block: Block)
    | AllowedFast(piece: nat)
    | Extended(id: Byte, payload: Bytes)
    | Unknown(id: Byte, payload: Bytes)

  /** The request that a piece or a reject answers. */
  function Answered(m: Message): Block
    requires m.Piece? || m.RejectRequest?
  {
    if m.Piece? then Block(m.piece, m.begin, |m.data|) else m.block
  }

  /** Both ends' settings that matter here; `negotiated` holds what both handshakes advertise. */
  datatype Config = Config(negotiated: set<Extension>, pieceCount: Option<nat>, pieceLength: Option<nat>,
                           totalLength: Option<nat>, pieceLengths: Option<seq<nat>>,
                           maxBlockLength: nat, maxMessageLength: nat, maxPending: nat) {

    /** BEP 52 takes over the request and reject correlation of BEP 6. */
    predicate RejectSemantics() {
      Fast in negotiated || V2 in negotiated
    }
  }

  datatype State = Handshaking | Connected | Closed

  datatype Failure =
    | NotConnected
    | NotNegotiated
    | OutOfOrder
    | OutOfBounds
    | NotReceived
    | AlreadyPending
    | TooManyPending
    | Unencodable
    | TooLong
    | TooManyRequests
    | UnsolicitedPiece
    | NeverSent
    | Cancelled
    | Choked
    | Rejected
    | TimedOut
    | Aborted
    | Ended
    | QueueFull
    | Mismatched

  datatype Outcome = Delivered(data: Bytes) | Failed(reason: Failure)

  /** A request awaiting its answer; one sent without a promise has no ticket. */
  datatype Entry = Entry(block: Block, ticket: Option<nat>)

  /** A call of a promise's resolve or reject function. */
  datatype Settlement = Settlement(ticket: nat, outcome: Outcome)

  /**
   The fields of a session. The request maps are lists in insertion order. `issued` lists the requests for
   which a promise was created, by ticket, and `settled` every settling call made so far.
   */
  datatype Wire = Wire(config: Config, state: State,
                       localChoking: bool, localInterested: bool, remoteChoking: bool, remoteInterested: bool,
                       localAllowedFast: set<nat>, remoteAllowedFast: set<nat>,
                       pending: seq<Entry>, peerRequests: seq<Block>,
                       localOpen: bool, localDeclared: bool, remoteOpen: bool, remoteDeclared: bool,
                       issued: seq<Block>, settled: seq<Settlement>)

  function Fresh(config: Config): Wire {
    Wire(config, Handshaking, true, false, true, false, {}, {}, [], [], true, false, true, false, [], [])
  }

  // ---- The request maps ----

  function Find(pending: seq<Entry>, block: Block): Option<Entry> {
    if pending == [] then None
    else if pending[0].block == block then Some(pending[0])
    else Find(pending[1..], block)
  }

  function Without(pending: seq<Entry>, block: Block): seq<Entry> {
    if pending == [] then []
    else if pending[0].block == block then pending[1..]
    else [pending[0]] + Without(pending[1..], block)
  }

  function Dropped(blocks: seq<Block>, block: Block): seq<Block> {
    if blocks == [] then []
    else if blocks[0] == block then blocks[1..]
    else [blocks[0]] + Dropped(blocks[1..], block)
  }

  function Blocks(pending: seq<Entry>): seq<Block> {
    if pending == [] then [] else [pending[0].block] + Blocks(pending[1..])
  }

  function Settlements(entry: Option<Entry>, outcome: Outcome): seq<Settlement> {
    if entry.Some? && entry.value.ticket.Some? then [Settlement(entry.value.ticket.value, outcome)] else []
  }

  /** Removes the entry of a request, if there is one, and settles its promise, if it has one. */
  function Settle(w: Wire, block: Block, outcome: Outcome): (r: Wire)
    ensures r == w.(pending := r.pending, settled := r.settled)
  {
    w.(pending := Without(w.pending, block), settled := w.settled + Settlements(Find(w.pending, block), outcome))
  }

  function SettleAll(w: Wire, blocks: seq<Block>, outcome: Outcome): Wire
    decreases |blocks|
  {
    if blocks == [] then w else SettleAll(Settle(w, blocks[0], outcome), blocks[1..], outcome)
  }

  function Terminate(w: Wire, reason: Failure): Wire {
    if w.state == Closed then w
    else SettleAll(w.(state := Closed), Blocks(w.pending), Failed(reason)).(peerRequests := [])
  }

  // ---- Checks shared by both directions ----

  predicate Negotiated(config: Config, m: Message) {
    match m
    case SuggestPiece(_) => Fast in config.negotiated
    case HaveAll => Fast in config.negotiated
    case HaveNone => Fast in config.negotiated
    case RejectRequest(_) => Fast in config.negotiated
    case AllowedFast(_) => Fast in config.negotiated
    case Extended(_, _) => ExtensionProtocol in config.negotiated
    case Port(_) => Dht in config.negotiated
    case _ => true
  }

  predicate Declares(m: Message) {
    m.Bitfield? || m.HaveAll? || m.HaveNone?
  }

  /** Keepalives and extended messages stand outside the availability order. */
  predicate Unordered(m: Message) {
    m.KeepAlive? || m.Extended?
  }

  predicate InOrder(config: Config, m: Message, available: bool, declared: bool) {
    Unordered(m) ||
    if Declares(m) then available && !declared else !(Fast in config.negotiated && available && !declared)
  }

  predicate PieceFits(config: Config, piece: nat) {
    piece <= MAX_UINT32 && (config.pieceCount.Some? ==> piece < config.pieceCount.value)
  }

  function ActualLength(config: Config, piece: nat): int
    requires config.pieceLength.Some?
  {
    if config.pieceLengths.Some? then
      if piece < |config.pieceLengths.value| then config.pieceLengths.value[piece] else config.pieceLength.value
    else if config.totalLength.Some? && config.pieceCount.Some? && piece == config.pieceCount.value - 1 then
      config.totalLength.value - piece * config.pieceLength.value
    else config.pieceLength.value
  }

  predicate BlockFits(config: Config, block: Block) {
    && PieceFits(config, block.piece)
    && 1 <= block.length <= config.maxBlockLength
    && block.begin <= MAX_UINT32
    && (config.pieceLength.Some? ==> block.begin + block.length <= ActualLength(config, block.piece))
  }

  /** The right number of bytes, and no bit set behind the last piece. */
  predicate BitsFit(config: Config, bits: Bytes) {
    config.pieceCount.Some? ==>
      var count := config.pieceCount.value;
      |bits| == (count + 7) / 8 && (count % 8 != 0 ==> bits[|bits| - 1] % Pow2(8 - count % 8) == 0)
  }

  predicate InBounds(config: Config, m: Message) {
    match m
    case Bitfield(bits) => BitsFit(config, bits)
    case Have(piece) => PieceFits(config, piece)
    case SuggestPiece(piece) => PieceFits(config, piece)
    case AllowedFast(piece) => PieceFits(config, piece)
    case Request(block) => BlockFits(config, block)
    case Cancel(block) => BlockFits(config, block)
    case RejectRequest(block) => BlockFits(config, block)
    case Piece(piece, begin, data) => BlockFits(config, Block(piece, begin, |data|))
    case _ => true
  }

  /** The fields fit the fixed-width integers of the frame. */
  predicate Encodable(m: Message) {
    match m
    case Request(block) => FitsUint32(block)
    case Cancel(block) => FitsUint32(block)
    case RejectRequest(block) => FitsUint32(block)
    case Piece(piece, begin, _) => piece <= MAX_UINT32 && begin <= MAX_UINT32
    case Have(piece) => piece <= MAX_UINT32
    case SuggestPiece(piece) => piece <= MAX_UINT32
    case AllowedFast(piece) => piece <= MAX_UINT32
    case Port(port) => port <= 0xFFFF
    case _ => true
  }

  predicate FitsUint32(block: Block) {
    block.piece <= MAX_UINT32 && block.begin <= MAX_UINT32 && block.length <= MAX_UINT32
  }

  /** The number in the length prefix of the frame. */
  function FrameLength(m: Message): nat {
    match m
    case KeepAlive => 0
    case Have(_) => 5
    case SuggestPiece(_) => 5
    case AllowedFast(_) => 5
    case Bitfield(bits) => 1 + |bits|
    case Request(_) => 13
    case Cancel(_) => 13
    case RejectRequest(_) => 13
    case Piece(_, _, data) => 9 + |data|
    case Port(_) => 3
    case Extended(_, payload) => 2 + |payload|
    case Unknown(_, payload) => 1 + |payload|
    case _ => 1
  }

  // ---- Sending ----

  /** What sending returns: the new session, the messages written, and the error thrown, if any. */
  datatype Sent = Sent(wire: Wire, messages: seq<Message>, failure: Option<Failure>)

  function CheckOutgoing(w: Wire, m: Message): Option<Failure> {
    if w.state != Connected then Some(NotConnected)
    else if !Negotiated(w.config, m) then Some(NotNegotiated)
    else if !InOrder(w.config, m, w.localOpen, w.localDeclared) then Some(OutOfOrder)
    else if !InBounds(w.config, m) then Some(OutOfBounds)
    else if w.config.RejectSemantics() && (m.Piece? || m.RejectRequest?) && Answered(m) !in w.peerRequests then
      Some(NotReceived)
    else None
  }

  function CheckFrame(config: Config, m: Message): Option<Failure> {
    if !Encodable(m) then Some(Unencodable)
    else if FrameLength(m) > config.maxMessageLength then Some(TooLong)
    else None
  }

  /** A written message takes its place in this side's availability order. */
  function CommitLocal(w: Wire, m: Message): (r: Wire)
    ensures r == w.(localOpen := r.localOpen, localDeclared := r.localDeclared)
  {
    if Unordered(m) then w else w.(localOpen := false, localDeclared := w.localDeclared || Declares(m))
  }

  /** A written message that concerns no request changes flags only. */
  function LocalFlags(w: Wire, m: Message): (r: Wire)
    ensures r == w.(localChoking := r.localChoking, localInterested := r.localInterested, localAllowedFast := r.localAllowedFast)
    ensures w.localAllowedFast <= r.localAllowedFast && (r.localChoking ==> w.localChoking || m.Choke?)
  {
    if m.Choke? || m.Unchoke? then w.(localChoking := m.Choke?)
    else if m.Interested? || m.NotInterested? then w.(localInterested := m.Interested?)
    else if m.AllowedFast? then w.(localAllowedFast := w.localAllowedFast + {m.piece})
    else w
  }

  /** The state change of a message that was written. */
  function ApplyLocal(w: Wire, m: Message): Wire {
    if m.Piece? || m.RejectRequest? then w.(peerRequests := Dropped(w.peerRequests, Answered(m)))
    else if m.Cancel? then
      if w.config.RejectSemantics() then w else Settle(w, m.block, Failed(Cancelled))
    else LocalFlags(w, m)
  }

  /** One frame, without the rejects that a choke brings about. `tracked` is off when the caller already tracks it. */
  function SendOne(w: Wire, m: Message, tracked: bool): Sent {
    var refused := CheckOutgoing(w, m);
    if refused.Some? then Sent(w, [], refused)
    else if tracked && m.Request? && Find(w.pending, m.block).Some? then Sent(w, [], Some(AlreadyPending))
    else if tracked && m.Request? && |w.pending| >= w.config.maxPending then Sent(w, [], Some(TooManyPending))
    else if CheckFrame(w.config, m).Some? then Sent(w, [], CheckFrame(w.config, m))
    else
      var before := if tracked && m.Request? then w.(pending := w.pending + [Entry(m.block, None)]) else w;
      Sent(ApplyLocal(CommitLocal(before, m), m), [m], None)
  }

  /** Rejects the given requests in order, except those for pieces in the allowed-fast set. */
  function RejectAll(w: Wire, requests: seq<Block>): Sent
    decreases |requests|
  {
    if requests == [] then Sent(w, [], None)
    else if Fast in w.config.negotiated && requests[0].piece in w.localAllowedFast then RejectAll(w, requests[1..])
    else
      var first := SendOne(w, RejectRequest(requests[0]), true);
      if first.failure.Some? then first
      else
        var rest := RejectAll(first.wire, requests[1..]);
        rest.(messages := first.messages + rest.messages)
  }

  function Send(w: Wire, m: Message, tracked: bool): Sent {
    var one := SendOne(w, m, tracked);
    if one.failure.Some? || !m.Choke? || !w.config.RejectSemantics() then one
    else
      var rejects := RejectAll(one.wire, one.wire.peerRequests);
      rejects.(messages := one.messages + rejects.messages)
  }

  /** A request whose promise settles with the block or with an error. */
  function RequestBlock(w: Wire, block: Block): Sent {
    if !BlockFits(w.config, block) then Sent(w, [], Some(OutOfBounds))
    else if Find(w.pending, block).Some? then Sent(w, [], Some(AlreadyPending))
    else if |w.pending| >= w.config.maxPending then Sent(w, [], Some(TooManyPending))
    else
      var entry := Entry(block, Some(|w.issued|));
      var sent := Send(w.(pending := w.pending + [entry], issued := w.issued + [block]), Request(block), false);
      if sent.failure.None? then sent
      else sent.(wire := Settle(sent.wire, block, Failed(sent.failure.value)))
  }

  // ---- Receiving ----

  function CheckIncoming(w: Wire, m: Message): Option<Failure> {
    if FrameLength(m) > w.config.maxMessageLength then Some(TooLong)
    else if !Encodable(m) then Some(Unencodable)
    else if !Negotiated(w.config, m) then Some(NotNegotiated)
    else if !InOrder(w.config, m, w.remoteOpen, w.remoteDeclared) then Some(OutOfOrder)
    else if !InBounds(w.config, m) then Some(OutOfBounds)
    else if m.Request? && |w.peerRequests| >= w.config.maxPending then Some(TooManyRequests)
    else None
  }

  /** A request that arrives while choking is refused at once unless its piece is allowed fast. */
  predicate RefusesAtOnce(w: Wire, block: Block) {
    && w.localChoking && w.config.RejectSemantics()
    && !(Fast in w.config.negotiated && block.piece in w.localAllowedFast)
  }

  function Accept(w: Wire, block: Block): (r: Wire)
    ensures r == w.(peerRequests := r.peerRequests)
  {
    if block in w.peerRequests then w else w.(peerRequests := w.peerRequests + [block])
  }

  /** An accepted message takes its place in the peer's availability order. */
  function CommitRemote(w: Wire, m: Message): (r: Wire)
    ensures r == w.(remoteOpen := r.remoteOpen, remoteDeclared := r.remoteDeclared)
  {
    if Unordered(m) then w else w.(remoteOpen := false, remoteDeclared := w.remoteDeclared || Declares(m))
  }

  function ApplyRequest(w: Wire, block: Block): Sent {
    if RefusesAtOnce(w, block) then Send(w, RejectRequest(block), true) else Sent(Accept(w, block), [], None)
  }

  /** Without reject semantics a choke drops every request, silently for the peer. */
  function ApplyChoke(w: Wire): Wire {
    var choked := w.(remoteChoking := true);
    if w.config.RejectSemantics() then choked else SettleAll(choked, Blocks(w.pending), Failed(Choked))
  }

  /** A piece or a reject settles the request it answers. */
  function ApplyAnswer(w: Wire, m: Message): Sent
    requires m.Piece? || m.RejectRequest?
  {
    if Find(w.pending, Answered(m)).None? && (m.RejectRequest? || w.config.RejectSemantics()) then
      Sent(w, [], Some(if m.Piece? then UnsolicitedPiece else NeverSent))
    else Sent(Settle(w, Answered(m), if m.Piece? then Delivered(m.data) else Failed(Rejected)), [], None)
  }

  function RemoteFlags(w: Wire, m: Message): (r: Wire)
    ensures r == w.(remoteChoking := r.remoteChoking, remoteInterested := r.remoteInterested,
                    remoteAllowedFast := r.remoteAllowedFast)
  {
    if m.Unchoke? then w.(remoteChoking := false)
    else if m.Interested? || m.NotInterested? then w.(remoteInterested := m.Interested?)
    else if m.AllowedFast? then w.(remoteAllowedFast := w.remoteAllowedFast + {m.piece})
    else w
  }

  /** The state change of a message that passed its checks; an error thrown here ends the session. */
  function ApplyRemote(w: Wire, m: Message): Sent {
    if m.Request? then ApplyRequest(w, m.block)
    else if m.Piece? || m.RejectRequest? then ApplyAnswer(w, m)
    else if m.Choke? then Sent(ApplyChoke(w), [], None)
    else if m.Cancel? then
      Sent(if w.config.RejectSemantics() then w else w.(peerRequests := Dropped(w.peerRequests, m.block)), [], None)
    else Sent(RemoteFlags(w, m), [], None)
  }

  function Receive(w: Wire, m: Message): Sent {
    if w.state != Connected then Sent(w, [], Some(NotConnected))
    else if CheckIncoming(w, m).Some? then Sent(Terminate(w, CheckIncoming(w, m).value), [], CheckIncoming(w, m))
    else
      var applied := ApplyRemote(CommitRemote(w, m), m);
      if applied.failure.None? then applied
      else applied.(wire := Terminate(applied.wire, applied.failure.value))
  }
}
