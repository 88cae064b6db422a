/** What an endpoint accepts from a peer that may send anything, and that what it accepts fills the metadata exactly. */
module MetadataPeers {
  import opened Results
  import opened ByteStrings
  import opened MetadataMessages
  import opened MetadataExchange

  const LENGTH: nat := 16384

  /**
   A data message resolves its block exactly when the total size is the one known so far and within the limit, the piece
   is one of metadata of that size, and the block is as long as that piece of it; the block is resolved as it came.
   */
  lemma ResolvedExactly(message: Message, peerSize: Option<nat>, maxSize: nat, metadata: Bytes)
    requires message.Data? && |metadata| == message.totalSize
    ensures var outcome := OutcomeOf(message, peerSize, maxSize);
      && (outcome.Resolved? <==>
            && (peerSize.Some? ==> peerSize.value == |metadata|) && 1 <= |metadata| <= maxSize
            && message.piece * LENGTH < |metadata| && |message.block| == |BlockOf(metadata, message.piece)|)
      && (outcome.Resolved? ==> outcome.block == message.block)
  {
  }

  /** A reject, and data that does not fit, end the wait with the matching error. */
  lemma FailsExactly(message: Message, peerSize: Option<nat>, maxSize: nat)
    requires !message.Request?
    ensures OutcomeOf(message, peerSize, maxSize) == Rejected <==> message.Reject?
    ensures OutcomeOf(message, peerSize, maxSize) == SizeChanged <==>
      message.Data? && peerSize.Some? && message.totalSize != peerSize.value
    ensures OutcomeOf(message, peerSize, maxSize) == SizeInvalid <==>
      message.Data? && (peerSize.Some? ==> message.totalSize == peerSize.value) && !(1 <= message.totalSize <= maxSize)
  {
  }

  /** How many bytes the first `n` pieces of metadata of this size have. */
  function Span(size: nat, n: nat): nat {
    if n * LENGTH < size then n * LENGTH else size
  }

  lemma OnePieceMore(size: nat, n: nat)
    requires n * LENGTH < size
    ensures Span(size, n + 1) == Span(size, n) + Min(LENGTH, size - n * LENGTH)
  {
  }

  lemma LastPieceEnds(size: nat)
    ensures Span(size, BlockCount(size)) == size
    ensures forall p: nat :: p < BlockCount(size) ==> p * LENGTH < size
  {
  }

  lemma {:induction false} BlocksAddUp(blocks: seq<Option<Bytes>>, messages: seq<Message>, size: nat, maxSize: nat)
    requires |blocks| == |messages| <= BlockCount(size)
    requires forall p :: 0 <= p < |messages| ==> messages[p].Data? && messages[p].piece == p
    requires forall p :: 0 <= p < |messages| ==>
      OutcomeOf(messages[p], Some(size), maxSize).Resolved? && blocks[p] == Some(OutcomeOf(messages[p], Some(size), maxSize).block)
    ensures |Assembled(blocks)| == Span(size, |blocks|)
  {
    if blocks == [] {
    } else {
      var n := |blocks| - 1;
      BlocksAddUp(blocks[..n], messages[..n], size, maxSize);
      LastPieceEnds(size);
      OnePieceMore(size, n);
      assert OutcomeOf(messages[n], Some(size), maxSize).Resolved?;
    }
  }

  /**
   Whatever a peer sends: once it has settled on a size, the blocks it got resolved for all pieces make up exactly that
   many bytes, so that putting them together fills the buffer and never overruns it.
   */
  lemma AcceptedBlocksFill(blocks: seq<Option<Bytes>>, messages: seq<Message>, size: nat, maxSize: nat)
    requires |blocks| == |messages| == BlockCount(size)
    requires forall p :: 0 <= p < |messages| ==> messages[p].Data? && messages[p].piece == p
    requires forall p :: 0 <= p < |messages| ==>
      OutcomeOf(messages[p], Some(size), maxSize).Resolved? && blocks[p] == Some(OutcomeOf(messages[p], Some(size), maxSize).block)
    ensures |Assembled(blocks)| == size
  {
    hide OutcomeOf, Assembled;
    BlocksAddUp(blocks, messages, size, maxSize);
    LastPieceEnds(size);
  }
}
