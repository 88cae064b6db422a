/**
 Metadata exchange (BEP 9): an endpoint that serves and correlates blocks, and a download by a pool
 of workers whose requests and replies may be interleaved and reordered in any way.
 */
module MetadataExchange {
  import opened Results
  import opened ByteStrings
  import opened InfoLocator
  import opened MetadataMessages

  const UT_METADATA_BLOCK_LENGTH: nat := 16 * 1024

  function BlockCount(size: nat): nat {
    (size + UT_METADATA_BLOCK_LENGTH - 1) / UT_METADATA_BLOCK_LENGTH
  }

  function Min(a: int, b: int): int {
    if a < b then a else b
  }

  function BlockOf(metadata: Bytes, piece: nat): Bytes
    requires piece < BlockCount(|metadata|)
  {
    metadata[piece * UT_METADATA_BLOCK_LENGTH..Min(|metadata|, (piece + 1) * UT_METADATA_BLOCK_LENGTH)]
  }

  // ---- One endpoint ----

  datatype Outcome = Resolved(block: Bytes) | Rejected | SizeChanged | SizeInvalid | BlockInvalid

  datatype Reaction = Ignore | Answer(payload: Bytes) | Settle(piece: nat, outcome: Outcome)

  /** What the endpoint answers to a request for `piece`. */
  function Serve(metadata: Option<Bytes>, piece: nat): Bytes {
    if metadata.None? || !IsSafe(piece) || piece * UT_METADATA_BLOCK_LENGTH >= |metadata.value| then Header(2, piece, None)
    else Header(1, piece, Some(|metadata.value|)) + BlockOf(metadata.value, piece)
  }

  function OutcomeOf(message: Message, peerSize: Option<nat>, maxSize: nat): Outcome
    requires !message.Request?
  {
    if message.Reject? then Rejected
    else if peerSize.Some? && message.totalSize != peerSize.value then SizeChanged
    else if message.totalSize < 1 || message.totalSize > maxSize then SizeInvalid
    else
      var expected := Min(UT_METADATA_BLOCK_LENGTH, message.totalSize - message.piece * UT_METADATA_BLOCK_LENGTH);
      if expected < 1 || |message.block| != expected then BlockInvalid else Resolved(message.block)
  }

  function React(metadata: Option<Bytes>, pending: set<nat>, peerSize: Option<nat>, maxSize: nat, message: Message): Reaction {
    if message.Request? then Answer(Serve(metadata, message.piece))
    else if message.piece !in pending then Ignore
    else Settle(message.piece, OutcomeOf(message, peerSize, maxSize))
  }

  class UtMetadata {
    const maxMetadataSize: nat
    var metadata: Option<Bytes>
    var peerMetadataSize: Option<nat>
    var pending: set<nat>

    constructor (maxMetadataSize: nat)
      ensures this.maxMetadataSize == maxMetadataSize
      ensures metadata == None && peerMetadataSize == None && pending == {}
    {
      this.maxMetadataSize := maxMetadataSize;
      metadata, peerMetadataSize, pending := None, None, {};
    }

    /** Serves a request, or settles the pending block that a data or reject message is about. */
    method OnMessage(payload: Bytes, number: Numeral) returns (r: Result<Reaction, MessageError>)
      modifies this
      ensures metadata == old(metadata)
      ensures var message := DecodeMessage(payload, number);
        if message.Failure? then r == Failure(message.error) && pending == old(pending) && peerMetadataSize == old(peerMetadataSize)
        else
          var reaction := React(old(metadata), old(pending), old(peerMetadataSize), maxMetadataSize, message.value);
          && r == Success(reaction)
          && pending == (if reaction.Settle? then old(pending) - {reaction.piece} else old(pending))
          && peerMetadataSize ==
               if old(peerMetadataSize).None? && reaction.Settle? && (reaction.outcome.Resolved? || reaction.outcome.BlockInvalid?)
               then Some(message.value.totalSize) else old(peerMetadataSize)
    {
      hide DecodeMessage;
      var decoded := DecodeMessage(payload, number);
      if decoded.Failure? {
        return Failure(decoded.error);
      }
      var message := decoded.value;
      if message.Request? {
        return Success(Answer(Serve(metadata, message.piece)));
      }
      if message.piece !in pending {
        return Success(Ignore);
      }
      pending := pending - {message.piece};
      if message.Reject? {
        return Success(Settle(message.piece, Rejected));
      }
      if peerMetadataSize.Some? && message.totalSize != peerMetadataSize.value {
        return Success(Settle(message.piece, SizeChanged));
      }
      if message.totalSize < 1 || message.totalSize > maxMetadataSize {
        return Success(Settle(message.piece, SizeInvalid));
      }
      if peerMetadataSize.None? {
        peerMetadataSize := Some(message.totalSize);
      }
      var expected := Min(UT_METADATA_BLOCK_LENGTH, message.totalSize - message.piece * UT_METADATA_BLOCK_LENGTH);
      if expected < 1 || |message.block| != expected {
        return Success(Settle(message.piece, BlockInvalid));
      }
      return Success(Settle(message.piece, Resolved(message.block)));
    }
  }

  // ---- The worker pool against an honest server ----

  datatype Worker = Ready | Waiting(piece: nat) | Holding(piece: nat, block: Bytes) | Finished

  /**
   A download in progress. The channels are multisets of messages: any of them may be the next to
   arrive. `requested` logs the pieces asked for, `failed` whether a block was settled with an error.
   */
  datatype Download = Download(
    workers: seq<Worker>,
    nextPiece: nat,
    blocks: seq<Option<Bytes>>,
    pending: set<nat>,
    toServer: multiset<Message>,
    toClient: multiset<Message>,
    requested: seq<nat>,
    failed: bool)

  function Start(size: nat, maxOutstanding: nat): Download {
    Download(seq(Min(maxOutstanding, BlockCount(size)), _ => Ready), 0, seq(BlockCount(size), _ => None),
             {}, multiset{}, multiset{}, [], false)
  }

  ghost predicate CanStore(s: Download, w: nat) {
    w < |s.workers| && s.workers[w].Holding? && s.workers[w].piece < |s.blocks|
  }

  /** A worker stores the block it holds, and is ready for the next piece. */
  function Store(s: Download, w: nat): Download
    requires CanStore(s, w)
  {
    s.(workers := s.workers[w := Ready], blocks := s.blocks[s.workers[w].piece := Some(s.workers[w].block)])
  }

  ghost predicate CanTake(s: Download, w: nat) {
    w < |s.workers| && s.workers[w].Ready?
  }

  /** A ready worker takes the next piece and requests it, or finishes when there is none. */
  function Take(s: Download, w: nat): Download
    requires CanTake(s, w)
  {
    var piece := s.nextPiece;
    if piece >= |s.blocks| then
      s.(workers := s.workers[w := Finished], nextPiece := piece + 1)
    else
      s.(workers := s.workers[w := Waiting(piece)], nextPiece := piece + 1,
         pending := s.pending + {piece}, failed := s.failed || piece in s.pending,
         toServer := s.toServer + multiset{Request(piece)}, requested := s.requested + [piece])
  }

  /** What an endpoint that holds `metadata` makes of a message: the decoded form of its answer. */
  function Reply(metadata: Bytes, message: Message): Option<Message> {
    if !message.Request? then None
    else if message.piece >= BlockCount(|metadata|) then Some(Reject(message.piece))
    else Some(Data(message.piece, |metadata|, BlockOf(metadata, message.piece)))
  }

  /** The bytes an endpoint answers with decode to `Reply`. */
  lemma ServeSendsReply(metadata: Bytes, piece: nat, number: Numeral)
    requires ReadsDigits(number) && IsSafe(|metadata|) && IsSafe(piece)
    ensures DecodeMessage(Header(0, piece, None), number) == Success(Request(piece))
    ensures DecodeMessage(Serve(Some(metadata), piece), number) == Success(Reply(metadata, Request(piece)).value)
  {
    hide Header, DecodeMessage, ReadsDigits;
    if piece < BlockCount(|metadata|) {
      MessagesRoundTrip(piece, |metadata|, BlockOf(metadata, piece), number);
    } else {
      MessagesRoundTrip(piece, |metadata|, [], number);
    }
  }

  ghost predicate ServeStep(s: Download, s': Download, metadata: Bytes, message: Message) {
    && message in s.toServer
    && Reply(metadata, message).Some?
    && s' == s.(toServer := s.toServer - multiset{message}, toClient := s.toClient + multiset{Reply(metadata, message).value})
  }

  /** The client takes one message; the worker that waits for the settled piece is resumed with it. */
  ghost predicate DeliverStep(s: Download, s': Download, metadata: Bytes, maxSize: nat, message: Message, w: nat) {
    && message in s.toClient
    && var reaction := React(None, s.pending, Some(|metadata|), maxSize, message);
    && var rest := s.(toClient := s.toClient - multiset{message});
    match reaction
    case Settle(piece, Resolved(block)) =>
      && w < |s.workers| && s.workers[w] == Waiting(piece)
      && s' == rest.(pending := s.pending - {piece}, workers := s.workers[w := Holding(piece, block)])
    case Settle(piece, _) => s' == rest.(pending := s.pending - {piece}, failed := true)
    case _ => s' == rest
  }

  ghost predicate Step(s: Download, s': Download, metadata: Bytes, maxSize: nat) {
    || (exists w :: CanStore(s, w) && s' == Store(s, w))
    || (exists w :: CanTake(s, w) && s' == Take(s, w))
    || (exists message :: ServeStep(s, s', metadata, message))
    || (exists message, w :: DeliverStep(s, s', metadata, maxSize, message, w))
  }

  ghost predicate IsRun(run: seq<Download>, metadata: Bytes, maxOutstanding: nat, maxSize: nat) {
    && run != [] && run[0] == Start(|metadata|, maxOutstanding)
    && forall i :: 0 <= i < |run| - 1 ==> Step(run[i], run[i + 1], metadata, maxSize)
  }

  // ---- What every step keeps ----

  function BlockMessage(metadata: Bytes, piece: nat): Message
    requires piece < BlockCount(|metadata|)
  {
    Data(piece, |metadata|, BlockOf(metadata, piece))
  }

  ghost predicate WorkerOk(s: Download, metadata: Bytes, w: nat)
    requires w < |s.workers| && |s.blocks| == BlockCount(|metadata|)
  {
    match s.workers[w]
    case Waiting(piece) => piece in s.pending
    case Holding(piece, block) =>
      && piece < |s.blocks| && piece < s.nextPiece && piece !in s.pending
      && s.blocks[piece] == None && block == BlockOf(metadata, piece)
    case Ready => true
    case Finished => s.nextPiece >= |s.blocks|
  }

  /** A pending piece has one worker, and one message under way, which is its request or its block. */
  ghost predicate PendingOk(s: Download, metadata: Bytes, p: nat)
    requires |s.blocks| == BlockCount(|metadata|)
  {
    && p < |s.blocks| && p < s.nextPiece && s.blocks[p] == None
    && Waiting(p) in s.workers
    && s.toServer[Request(p)] + s.toClient[BlockMessage(metadata, p)] == 1
  }

  /** A piece taken is stored, pending or held; a piece not yet taken is not stored. */
  ghost predicate PieceOk(s: Download, metadata: Bytes, p: nat)
    requires p < |s.blocks| == BlockCount(|metadata|)
  {
    if p >= s.nextPiece then s.blocks[p] == None
    else
      || s.blocks[p] == Some(BlockOf(metadata, p))
      || p in s.pending
      || Holding(p, BlockOf(metadata, p)) in s.workers
  }

  /** No two workers have the same piece. */
  ghost predicate Exclusive(workers: seq<Worker>) {
    forall v, w :: 0 <= v < w < |workers| && (workers[v].Waiting? || workers[v].Holding?) && (workers[w].Waiting? || workers[w].Holding?) ==>
      workers[v].piece != workers[w].piece
  }

  ghost predicate Shape(s: Download, metadata: Bytes, maxOutstanding: nat) {
    && |s.blocks| == BlockCount(|metadata|) && |s.workers| <= maxOutstanding && !s.failed
    && s.requested == seq(Min(s.nextPiece, |s.blocks|), i => i)
    && Exclusive(s.workers)
    && (forall m :: m in s.toServer ==> m.Request? && m.piece in s.pending)
    && (forall m :: m in s.toClient ==> m.Data? && m.piece in s.pending && m.piece < |s.blocks| && m == BlockMessage(metadata, m.piece))
  }

  ghost predicate Invariant(s: Download, metadata: Bytes, maxOutstanding: nat) {
    && Shape(s, metadata, maxOutstanding)
    && (forall w :: 0 <= w < |s.workers| ==> WorkerOk(s, metadata, w))
    && (forall p :: p in s.pending ==> PendingOk(s, metadata, p))
    && (forall p :: 0 <= p < |s.blocks| ==> PieceOk(s, metadata, p))
  }

  lemma StartIsInvariant(metadata: Bytes, maxOutstanding: nat)
    ensures Invariant(Start(|metadata|, maxOutstanding), metadata, maxOutstanding)
  {
  }

  lemma StoreKeeps(s: Download, metadata: Bytes, maxOutstanding: nat, w: nat)
    requires Invariant(s, metadata, maxOutstanding) && CanStore(s, w)
    ensures Invariant(Store(s, w), metadata, maxOutstanding)
  {
    hide BlockOf;
    var t, piece := Store(s, w), s.workers[w].piece;
    assert WorkerOk(s, metadata, w);
    forall v | 0 <= v < |t.workers| ensures WorkerOk(t, metadata, v) {
      assert WorkerOk(s, metadata, v);
    }
    forall p | p in t.pending ensures PendingOk(t, metadata, p) {
      StillIn(s.workers, w, Ready, Waiting(p));
    }
    forall p | 0 <= p < |t.blocks| ensures PieceOk(t, metadata, p) {
      assert PieceOk(s, metadata, p);
      if p != piece && Holding(p, BlockOf(metadata, p)) in s.workers {
        StillIn(s.workers, w, Ready, Holding(p, BlockOf(metadata, p)));
      }
    }
  }

  lemma StillIn(workers: seq<Worker>, w: nat, replacement: Worker, worker: Worker)
    requires w < |workers| && worker in workers && workers[w] != worker
    ensures worker in workers[w := replacement]
  {
    var v :| 0 <= v < |workers| && workers[v] == worker;
    assert workers[w := replacement][v] == worker;
  }

  lemma TakeKeepsShape(s: Download, metadata: Bytes, maxOutstanding: nat, w: nat)
    requires Invariant(s, metadata, maxOutstanding) && CanTake(s, w)
    ensures Shape(Take(s, w), metadata, maxOutstanding)
    ensures s.nextPiece !in s.pending
    ensures forall v :: 0 <= v < |s.workers| && (s.workers[v].Waiting? || s.workers[v].Holding?) ==>
      s.workers[v].piece != s.nextPiece
  {
    hide BlockMessage, PieceOk;
    assert s.nextPiece in s.pending ==> PendingOk(s, metadata, s.nextPiece);
    forall v | 0 <= v < |s.workers| && (s.workers[v].Waiting? || s.workers[v].Holding?)
      ensures s.workers[v].piece != s.nextPiece
    {
      assert WorkerOk(s, metadata, v);
      assert s.workers[v].Waiting? ==> PendingOk(s, metadata, s.workers[v].piece);
    }
  }

  lemma TakeKeeps(s: Download, metadata: Bytes, maxOutstanding: nat, w: nat)
    requires Invariant(s, metadata, maxOutstanding) && CanTake(s, w)
    ensures Invariant(Take(s, w), metadata, maxOutstanding)
  {
    hide BlockOf, Exclusive;
    var t, piece := Take(s, w), s.nextPiece;
    TakeKeepsShape(s, metadata, maxOutstanding, w);
    assert Request(piece) !in s.toServer;
    assert piece < |s.blocks| ==> t.workers[w] == Waiting(piece) && BlockMessage(metadata, piece) !in s.toClient;
    forall v | 0 <= v < |s.workers| ensures WorkerOk(t, metadata, v) {
      assert WorkerOk(s, metadata, v);
    }
    forall p | p in t.pending ensures PendingOk(t, metadata, p) {
      if p in s.pending {
        assert PendingOk(s, metadata, p);
        StillIn(s.workers, w, t.workers[w], Waiting(p));
      } else {
        assert PieceOk(s, metadata, p);
      }
    }
    forall p | 0 <= p < |t.blocks| ensures PieceOk(t, metadata, p) {
      assert PieceOk(s, metadata, p);
      if Holding(p, BlockOf(metadata, p)) in s.workers {
        StillIn(s.workers, w, t.workers[w], Holding(p, BlockOf(metadata, p)));
      }
    }
  }

  lemma ServeKeeps(s: Download, s': Download, metadata: Bytes, maxOutstanding: nat, message: Message)
    requires Invariant(s, metadata, maxOutstanding) && ServeStep(s, s', metadata, message)
    ensures Invariant(s', metadata, maxOutstanding)
  {
    hide BlockOf;
    var piece := message.piece;
    assert PendingOk(s, metadata, piece);
    forall v | 0 <= v < |s'.workers| ensures WorkerOk(s', metadata, v) {
      assert WorkerOk(s, metadata, v);
    }
    forall p | p in s'.pending ensures PendingOk(s', metadata, p) {
      assert PendingOk(s, metadata, p);
    }
    forall p | 0 <= p < |s'.blocks| ensures PieceOk(s', metadata, p) {
      assert PieceOk(s, metadata, p);
    }
  }

  lemma ReactsWithBlock(pending: set<nat>, metadata: Bytes, maxSize: nat, piece: nat)
    requires 1 <= |metadata| <= maxSize && piece < BlockCount(|metadata|) && piece in pending
    ensures React(None, pending, Some(|metadata|), maxSize, BlockMessage(metadata, piece)) ==
      Settle(piece, Resolved(BlockOf(metadata, piece)))
  {
  }

  /** Delivery takes the one message about a pending piece, and its worker holds the right block. */
  lemma DeliverMeans(s: Download, s': Download, metadata: Bytes, maxOutstanding: nat, maxSize: nat, message: Message, w: nat)
    requires 1 <= |metadata| <= maxSize
    requires Invariant(s, metadata, maxOutstanding) && DeliverStep(s, s', metadata, maxSize, message, w)
    ensures message.Data? && message.piece < |s.blocks| == BlockCount(|metadata|) && PendingOk(s, metadata, message.piece) && message in s.toClient
    ensures message == BlockMessage(metadata, message.piece)
    ensures w < |s.workers| && s.workers[w] == Waiting(message.piece)
    ensures s' == s.(toClient := s.toClient - multiset{message}, pending := s.pending - {message.piece},
                     workers := s.workers[w := Holding(message.piece, BlockOf(metadata, message.piece))])
  {
    hide BlockOf, React, PieceOk, WorkerOk, Exclusive;
    ReactsWithBlock(s.pending, metadata, maxSize, message.piece);
  }

  /** The channels hold nothing else about a piece whose block is on its way. */
  lemma NothingElse(s: Download, metadata: Bytes, maxOutstanding: nat, piece: nat)
    requires Shape(s, metadata, maxOutstanding) && PendingOk(s, metadata, piece) && BlockMessage(metadata, piece) in s.toClient
    ensures forall m :: m in s.toServer ==> m.piece != piece
    ensures forall m :: m in s.toClient - multiset{BlockMessage(metadata, piece)} ==> m in s.toClient && m.piece != piece
  {
    hide BlockOf, Exclusive;
    var message := BlockMessage(metadata, piece);
    forall m | m in s.toServer ensures m.piece != piece {
      assert m == Request(m.piece);
    }
    forall m | m in s.toClient - multiset{message} ensures m in s.toClient && m.piece != piece {
      assert (s.toClient - multiset{message})[m] <= s.toClient[m];
    }
  }

  lemma HoldingKeepsExclusive(workers: seq<Worker>, w: nat, piece: nat, block: Bytes)
    requires Exclusive(workers) && w < |workers| && workers[w] == Waiting(piece)
    ensures Exclusive(workers[w := Holding(piece, block)])
  {
  }

  lemma DeliverKeepsShape(s: Download, s': Download, metadata: Bytes, maxOutstanding: nat, maxSize: nat, message: Message, w: nat)
    requires 1 <= |metadata| <= maxSize
    requires Invariant(s, metadata, maxOutstanding) && DeliverStep(s, s', metadata, maxSize, message, w)
    ensures Shape(s', metadata, maxOutstanding)
  {
    hide BlockOf, DeliverStep, PieceOk, WorkerOk, PendingOk, Exclusive, BlockMessage;
    DeliverMeans(s, s', metadata, maxOutstanding, maxSize, message, w);
    NothingElse(s, metadata, maxOutstanding, message.piece);
    HoldingKeepsExclusive(s.workers, w, message.piece, BlockOf(metadata, message.piece));
  }

  lemma DeliverKeeps(s: Download, s': Download, metadata: Bytes, maxOutstanding: nat, maxSize: nat, message: Message, w: nat)
    requires 1 <= |metadata| <= maxSize
    requires Invariant(s, metadata, maxOutstanding) && DeliverStep(s, s', metadata, maxSize, message, w)
    ensures Invariant(s', metadata, maxOutstanding)
  {
    hide BlockOf, DeliverStep;
    DeliverMeans(s, s', metadata, maxOutstanding, maxSize, message, w);
    DeliverKeepsShape(s, s', metadata, maxOutstanding, maxSize, message, w);
    var piece := message.piece;
    var held := Holding(piece, BlockOf(metadata, piece));
    assert s'.workers[w] == held;
    forall v | 0 <= v < |s'.workers| ensures WorkerOk(s', metadata, v) {
      assert WorkerOk(s, metadata, v);
    }
    hide WorkerOk, Shape, Exclusive;
    forall p | p in s'.pending ensures PendingOk(s', metadata, p) {
      assert PendingOk(s, metadata, p);
      StillIn(s.workers, w, held, Waiting(p));
    }
    forall p | 0 <= p < |s'.blocks| ensures PieceOk(s', metadata, p) {
      assert PieceOk(s, metadata, p);
      if Holding(p, BlockOf(metadata, p)) in s.workers {
        StillIn(s.workers, w, held, Holding(p, BlockOf(metadata, p)));
      }
    }
  }

  lemma {:induction false} RunsKeepInvariant(run: seq<Download>, metadata: Bytes, maxOutstanding: nat, maxSize: nat)
    requires 1 <= |metadata| <= maxSize && IsRun(run, metadata, maxOutstanding, maxSize)
    ensures Invariant(run[|run| - 1], metadata, maxOutstanding)
  {
    hide Invariant, Start, CanStore, CanTake, Store, Take, ServeStep, DeliverStep;
    if |run| == 1 {
      StartIsInvariant(metadata, maxOutstanding);
    } else {
      var before := run[..|run| - 1];
      var s, s' := before[|before| - 1], run[|run| - 1];
      RunsKeepInvariant(before, metadata, maxOutstanding, maxSize);
      assert Step(s, s', metadata, maxSize);
      if w :| CanStore(s, w) && s' == Store(s, w) {
        StoreKeeps(s, metadata, maxOutstanding, w);
      } else if w :| CanTake(s, w) && s' == Take(s, w) {
        TakeKeeps(s, metadata, maxOutstanding, w);
      } else if message :| ServeStep(s, s', metadata, message) {
        ServeKeeps(s, s', metadata, maxOutstanding, message);
      } else {
        var message, w :| DeliverStep(s, s', metadata, maxSize, message, w);
        DeliverKeeps(s, s', metadata, maxOutstanding, maxSize, message, w);
      }
    }
  }

  // ---- The download is lossless ----

  function Assembled(blocks: seq<Option<Bytes>>): Bytes {
    if blocks == [] then []
    else Assembled(blocks[..|blocks| - 1]) + match blocks[|blocks| - 1] case None => [] case Some(block) => block
  }

  lemma {:induction false} AllBlocksMakeTheWhole(metadata: Bytes, blocks: seq<Option<Bytes>>)
    requires |blocks| <= BlockCount(|metadata|)
    requires forall p :: 0 <= p < |blocks| ==> blocks[p] == Some(BlockOf(metadata, p))
    ensures Assembled(blocks) == metadata[..Min(|metadata|, |blocks| * UT_METADATA_BLOCK_LENGTH)]
  {
    if blocks == [] {
    } else {
      var n := |blocks| - 1;
      AllBlocksMakeTheWhole(metadata, blocks[..n]);
      assert Min(|metadata|, n * UT_METADATA_BLOCK_LENGTH) == n * UT_METADATA_BLOCK_LENGTH;
      var m := Min(|metadata|, (n + 1) * UT_METADATA_BLOCK_LENGTH);
      assert metadata[..n * UT_METADATA_BLOCK_LENGTH] + metadata[n * UT_METADATA_BLOCK_LENGTH..m] == metadata[..m];
    }
  }

  lemma PendingIsBounded(s: Download, metadata: Bytes, maxOutstanding: nat)
    requires Invariant(s, metadata, maxOutstanding)
    ensures |s.pending| <= |s.workers| <= maxOutstanding
  {
    assert forall p :: p in s.pending ==> PendingOk(s, metadata, p);
    WaitersBound(s.pending, s.workers);
  }

  lemma {:induction false} WaitersBound(pending: set<nat>, workers: seq<Worker>)
    requires forall p :: p in pending ==> Waiting(p) in workers
    ensures |pending| <= |workers|
  {
    if workers == [] {
      if p :| p in pending { assert Waiting(p) in workers; }
    } else {
      var rest := if workers[0].Waiting? then pending - {workers[0].piece} else pending;
      forall p | p in rest ensures Waiting(p) in workers[1..] {
        var w :| 0 <= w < |workers| && workers[w] == Waiting(p);
        assert workers[1..][w - 1] == Waiting(p);
      }
      WaitersBound(rest, workers[1..]);
    }
  }

  /**
   In every reachable state no request has failed, each piece has been requested at most once and in
   order, and at most `maxOutstanding` requests are pending; once every worker has finished, each
   piece was requested exactly once and the blocks assemble to the served metadata.
   */
  lemma DownloadIsLossless(run: seq<Download>, metadata: Bytes, maxOutstanding: nat, maxSize: nat)
    requires 1 <= |metadata| <= maxSize && 1 <= maxOutstanding && IsRun(run, metadata, maxOutstanding, maxSize)
    ensures var s := run[|run| - 1];
      && !s.failed && |s.pending| <= maxOutstanding
      && s.requested == seq(|s.requested|, i => i) && |s.requested| <= BlockCount(|metadata|)
      && ((forall w :: 0 <= w < |s.workers| ==> s.workers[w].Finished?) ==>
            |s.requested| == BlockCount(|metadata|) && Assembled(s.blocks) == metadata)
  {
    hide BlockOf, Step, Assembled;
    var s := run[|run| - 1];
    RunsKeepInvariant(run, metadata, maxOutstanding, maxSize);
    PendingIsBounded(s, metadata, maxOutstanding);
    RunsKeepWorkers(run, metadata, maxOutstanding, maxSize);
    if forall w :: 0 <= w < |s.workers| ==> s.workers[w].Finished? {
      assert WorkerOk(s, metadata, 0);
      assert forall p :: p in s.pending ==> PendingOk(s, metadata, p);
      forall p | 0 <= p < |s.blocks| ensures s.blocks[p] == Some(BlockOf(metadata, p)) {
        assert PieceOk(s, metadata, p);
        assert p !in s.pending;
      }
      AllBlocksMakeTheWhole(metadata, s.blocks);
      assert metadata[..|metadata|] == metadata;
    }
  }

  lemma {:induction false} RunsKeepWorkers(run: seq<Download>, metadata: Bytes, maxOutstanding: nat, maxSize: nat)
    requires IsRun(run, metadata, maxOutstanding, maxSize)
    ensures |run[|run| - 1].workers| == Min(maxOutstanding, BlockCount(|metadata|))
  {
    hide Step;
    if |run| <= 1 {
    } else {
      var before := run[..|run| - 1];
      RunsKeepWorkers(before, metadata, maxOutstanding, maxSize);
      StepKeepsWorkers(before[|before| - 1], run[|run| - 1], metadata, maxSize);
    }
  }

  lemma StepKeepsWorkers(s: Download, s': Download, metadata: Bytes, maxSize: nat)
    requires Step(s, s', metadata, maxSize)
    ensures |s'.workers| == |s.workers|
  {
    hide Reply, DeliverStep;
    if message, w :| DeliverStep(s, s', metadata, maxSize, message, w) {
      DeliveryKeepsWorkers(s, s', metadata, maxSize, message, w);
    }
  }

  lemma DeliveryKeepsWorkers(s: Download, s': Download, metadata: Bytes, maxSize: nat, message: Message, w: nat)
    requires DeliverStep(s, s', metadata, maxSize, message, w)
    ensures |s'.workers| == |s.workers|
  {
    hide React;
  }

  ghost predicate CanGoOn(s: Download, metadata: Bytes, maxSize: nat) {
    exists s' :: Step(s, s', metadata, maxSize)
  }

  /** Until every worker has finished some step is possible: the pool never deadlocks. */
  lemma DownloadNeverStalls(s: Download, metadata: Bytes, maxOutstanding: nat, maxSize: nat, w: nat)
    requires 1 <= |metadata| <= maxSize && Invariant(s, metadata, maxOutstanding)
    requires w < |s.workers| && !s.workers[w].Finished?
    ensures CanGoOn(s, metadata, maxSize)
  {
    assert WorkerOk(s, metadata, w);
    match s.workers[w]
    case Ready =>
      assert CanTake(s, w) && Step(s, Take(s, w), metadata, maxSize);
    case Holding(_, _) =>
      assert CanStore(s, w) && Step(s, Store(s, w), metadata, maxSize);
    case Waiting(piece) =>
      assert PendingOk(s, metadata, piece);
      if Request(piece) in s.toServer {
        var s' := s.(toServer := s.toServer - multiset{Request(piece)},
                     toClient := s.toClient + multiset{BlockMessage(metadata, piece)});
        assert ServeStep(s, s', metadata, Request(piece));
        assert Step(s, s', metadata, maxSize);
      } else {
        ReactsWithBlock(s.pending, metadata, maxSize, piece);
        var message := BlockMessage(metadata, piece);
        var s' := s.(toClient := s.toClient - multiset{message}, pending := s.pending - {piece},
                     workers := s.workers[w := Holding(piece, message.block)]);
        assert DeliverStep(s, s', metadata, maxSize, message, w);
        assert Step(s, s', metadata, maxSize);
      }
  }

  // ---- The download ends ----

  function CountHolding(workers: seq<Worker>): nat {
    if workers == [] then 0 else (if workers[0].Holding? then 1 else 0) + CountHolding(workers[1..])
  }

  function CountUnfinished(workers: seq<Worker>): nat {
    if workers == [] then 0 else (if workers[0].Finished? then 0 else 1) + CountUnfinished(workers[1..])
  }

  /**
   The steps that can still come: a piece must be taken, served, delivered and stored, and each worker finishes
   once. A piece not yet taken is 4 steps away from being stored, a request 3, a block under way 2, one held 1.
   */
  function StepsLeft(s: Download): nat {
    4 * (if s.nextPiece < |s.blocks| then |s.blocks| - s.nextPiece else 0)
    + 3 * |s.toServer| + 2 * |s.toClient| + CountHolding(s.workers) + CountUnfinished(s.workers)
  }

  lemma {:induction false} CountsAfter(workers: seq<Worker>, w: nat, worker: Worker)
    requires w < |workers|
    ensures CountHolding(workers[w := worker]) + (if workers[w].Holding? then 1 else 0) ==
      CountHolding(workers) + (if worker.Holding? then 1 else 0)
    ensures CountUnfinished(workers[w := worker]) + (if workers[w].Finished? then 0 else 1) ==
      CountUnfinished(workers) + (if worker.Finished? then 0 else 1)
  {
    var after := workers[w := worker];
    if w == 0 {
      assert after[1..] == workers[1..];
    } else {
      CountsAfter(workers[1..], w - 1, worker);
      assert after[1..] == workers[1..][w - 1 := worker];
    }
  }

  lemma StoreCounts(s: Download, w: nat)
    requires CanStore(s, w)
    ensures StepsLeft(Store(s, w)) == StepsLeft(s) - 1
  {
    hide CountHolding, CountUnfinished;
    CountsAfter(s.workers, w, Ready);
  }

  lemma TakeCounts(s: Download, w: nat)
    requires CanTake(s, w)
    ensures StepsLeft(Take(s, w)) == StepsLeft(s) - 1
  {
    hide CountHolding, CountUnfinished;
    CountsAfter(s.workers, w, Take(s, w).workers[w]);
  }

  lemma ServeCounts(s: Download, s': Download, metadata: Bytes, message: Message)
    requires ServeStep(s, s', metadata, message)
    ensures StepsLeft(s') == StepsLeft(s) - 1
  {
    hide CountHolding, CountUnfinished, Reply;
  }

  lemma DeliverCounts(s: Download, s': Download, metadata: Bytes, maxOutstanding: nat, maxSize: nat, message: Message, w: nat)
    requires 1 <= |metadata| <= maxSize
    requires Invariant(s, metadata, maxOutstanding) && DeliverStep(s, s', metadata, maxSize, message, w)
    ensures StepsLeft(s') == StepsLeft(s) - 1
  {
    hide Invariant, DeliverStep, CountHolding, CountUnfinished, BlockOf, BlockMessage, PendingOk;
    DeliverMeans(s, s', metadata, maxOutstanding, maxSize, message, w);
    CountsAfter(s.workers, w, Holding(message.piece, BlockOf(metadata, message.piece)));
  }

  lemma StepCounts(s: Download, s': Download, metadata: Bytes, maxOutstanding: nat, maxSize: nat)
    requires 1 <= |metadata| <= maxSize && Invariant(s, metadata, maxOutstanding) && Step(s, s', metadata, maxSize)
    ensures StepsLeft(s') == StepsLeft(s) - 1
  {
    hide Invariant, StepsLeft, CanStore, CanTake, Store, Take, ServeStep, DeliverStep;
    if w :| CanStore(s, w) && s' == Store(s, w) {
      StoreCounts(s, w);
    } else if w :| CanTake(s, w) && s' == Take(s, w) {
      TakeCounts(s, w);
    } else if message :| ServeStep(s, s', metadata, message) {
      ServeCounts(s, s', metadata, message);
    } else {
      var message, w :| DeliverStep(s, s', metadata, maxSize, message, w);
      DeliverCounts(s, s', metadata, maxOutstanding, maxSize, message, w);
    }
  }

  lemma {:induction false} ReadyCounts(workers: seq<Worker>)
    requires forall w :: 0 <= w < |workers| ==> workers[w].Ready?
    ensures CountHolding(workers) == 0 && CountUnfinished(workers) == |workers|
  {
    if workers == [] {
    } else {
      ReadyCounts(workers[1..]);
    }
  }

  lemma {:induction false} FinishedCounts(workers: seq<Worker>)
    requires CountUnfinished(workers) == 0
    ensures forall w :: 0 <= w < |workers| ==> workers[w].Finished?
  {
    if workers == [] {
    } else {
      FinishedCounts(workers[1..]);
    }
  }

  /**
   Every run takes the same number of steps to its end, whatever the interleaving: four for each block and one
   for each worker.
   */
  lemma {:induction false} DownloadEnds(run: seq<Download>, metadata: Bytes, maxOutstanding: nat, maxSize: nat)
    requires 1 <= |metadata| <= maxSize && IsRun(run, metadata, maxOutstanding, maxSize)
    ensures var n := BlockCount(|metadata|);
      |run| - 1 + StepsLeft(run[|run| - 1]) == 4 * n + Min(maxOutstanding, n)
  {
    hide Step, StepsLeft, Invariant, Start;
    if |run| == 1 {
      StartCounts(|metadata|, maxOutstanding);
    } else {
      var before := run[..|run| - 1];
      DownloadEnds(before, metadata, maxOutstanding, maxSize);
      RunsKeepInvariant(before, metadata, maxOutstanding, maxSize);
      StepCounts(before[|before| - 1], run[|run| - 1], metadata, maxOutstanding, maxSize);
    }
  }

  lemma StartCounts(size: nat, maxOutstanding: nat)
    ensures StepsLeft(Start(size, maxOutstanding)) == 4 * BlockCount(size) + Min(maxOutstanding, BlockCount(size))
  {
    hide CountHolding, CountUnfinished;
    ReadyCounts(Start(size, maxOutstanding).workers);
  }

  /** A run that cannot go on, or that has taken all its steps, holds exactly the served metadata. */
  lemma DownloadCompletes(run: seq<Download>, metadata: Bytes, maxOutstanding: nat, maxSize: nat)
    requires 1 <= |metadata| <= maxSize && 1 <= maxOutstanding && IsRun(run, metadata, maxOutstanding, maxSize)
    requires var n := BlockCount(|metadata|);
      !CanGoOn(run[|run| - 1], metadata, maxSize) || |run| - 1 == 4 * n + Min(maxOutstanding, n)
    ensures Assembled(run[|run| - 1].blocks) == metadata
  {
    hide Step, Assembled, Invariant, CanGoOn;
    var s := run[|run| - 1];
    RunsKeepInvariant(run, metadata, maxOutstanding, maxSize);
    DownloadEnds(run, metadata, maxOutstanding, maxSize);
    if CanGoOn(s, metadata, maxSize) {
      FinishedCounts(s.workers);
    } else {
      forall w | 0 <= w < |s.workers| ensures s.workers[w].Finished? {
        if !s.workers[w].Finished? {
          DownloadNeverStalls(s, metadata, maxOutstanding, maxSize, w);
        }
      }
    }
    DownloadIsLossless(run, metadata, maxOutstanding, maxSize);
  }

  /** `fetch` copies the blocks one behind the other into a buffer of the advertised size. */
  method Assemble(blocks: seq<Option<Bytes>>, size: nat) returns (metadata: array<Byte>)
    requires forall p :: 0 <= p < |blocks| ==> blocks[p].Some?
    requires |Assembled(blocks)| == size
    ensures metadata[..] == Assembled(blocks)
  {
    metadata := new Byte[size](_ => 0);
    var offset := 0;
    assert blocks[..|blocks|] == blocks;
    for i := 0 to |blocks|
      invariant offset == |Assembled(blocks[..i])| <= size
      invariant metadata[..offset] == Assembled(blocks[..i])
    {
      var block := blocks[i].value;
      assert blocks[..i + 1][..i] == blocks[..i];
      AssembledGrows(blocks, i + 1);
      CopyInto(metadata, offset, block);
      offset := offset + |block|;
    }
  }

  lemma {:induction false} AssembledGrows(blocks: seq<Option<Bytes>>, i: nat)
    requires i <= |blocks|
    ensures |Assembled(blocks[..i])| <= |Assembled(blocks)|
  {
    if i < |blocks| {
      AssembledGrows(blocks[..|blocks| - 1], i);
      assert blocks[..|blocks| - 1][..i] == blocks[..i];
    } else {
      assert blocks[..i] == blocks;
    }
  }
}
