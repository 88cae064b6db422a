/**
 The metadata download of MetadataExchange over bytes: what travels is encoded messages, and each side decodes what
 arrives. Every run over bytes is mirrored step by step by a run over messages, so it loses nothing either.
 */
module MetadataBytes {
  import opened Results
  import opened ByteStrings
  import opened InfoLocator
  import opened MetadataMessages
  import opened MetadataExchange

  /** The pool of workers, whose channels of messages stay empty here, between two channels of payloads. */
  datatype Exchange = Exchange(pool: Download, toServer: multiset<Bytes>, toClient: multiset<Bytes>)

  function Begin(size: nat, maxOutstanding: nat): Exchange {
    Exchange(Start(size, maxOutstanding), multiset{}, multiset{})
  }

  /** A ready worker takes the next piece and sends the bytes of its request. */
  function TakeAndSend(e: Exchange, w: nat): Exchange
    requires CanTake(e.pool, w)
  {
    var piece := e.pool.nextPiece;
    var sent := if piece < |e.pool.blocks| then multiset{Header(0, piece, None)} else multiset{};
    Exchange(Take(e.pool, w).(toServer := e.pool.toServer), e.toServer + sent, e.toClient)
  }

  /** The server decodes a payload and answers it in bytes. */
  function ServeBytes(e: Exchange, metadata: Bytes, maxSize: nat, number: Numeral, payload: Bytes): Exchange {
    var rest := e.(toServer := e.toServer - multiset{payload});
    match DecodeMessage(payload, number)
    case Failure(_) => rest.(pool := e.pool.(failed := true))
    case Success(message) =>
      match React(Some(metadata), {}, None, maxSize, message)
      case Answer(bytes) => rest.(toClient := e.toClient + multiset{bytes})
      case _ => rest
  }

  /** The client decodes a payload; the worker that waits for the settled piece is resumed with its block. */
  ghost predicate DeliverBytes(e: Exchange, e': Exchange, metadata: Bytes, maxSize: nat, number: Numeral, payload: Bytes, w: nat) {
    && payload in e.toClient
    && var rest := e.(toClient := e.toClient - multiset{payload});
    match DecodeMessage(payload, number)
    case Failure(_) => e' == rest.(pool := e.pool.(failed := true))
    case Success(message) =>
      match React(None, e.pool.pending, Some(|metadata|), maxSize, message)
      case Settle(piece, Resolved(block)) =>
        && w < |e.pool.workers| && e.pool.workers[w] == Waiting(piece)
        && e' == rest.(pool := e.pool.(pending := e.pool.pending - {piece}, workers := e.pool.workers[w := Holding(piece, block)]))
      case Settle(piece, _) => e' == rest.(pool := e.pool.(pending := e.pool.pending - {piece}, failed := true))
      case _ => e' == rest
  }

  ghost predicate StepBytes(e: Exchange, e': Exchange, metadata: Bytes, maxSize: nat, number: Numeral) {
    || (exists w :: CanStore(e.pool, w) && e' == e.(pool := Store(e.pool, w)))
    || (exists w :: CanTake(e.pool, w) && e' == TakeAndSend(e, w))
    || (exists payload :: payload in e.toServer && e' == ServeBytes(e, metadata, maxSize, number, payload))
    || (exists payload, w :: DeliverBytes(e, e', metadata, maxSize, number, payload, w))
  }

  ghost predicate IsRunOfBytes(run: seq<Exchange>, metadata: Bytes, maxOutstanding: nat, maxSize: nat, number: Numeral) {
    && run != [] && run[0] == Begin(|metadata|, maxOutstanding)
    && forall i :: 0 <= i < |run| - 1 ==> StepBytes(run[i], run[i + 1], metadata, maxSize, number)
  }

  // ---- Payloads carry messages ----

  function Wire(m: Message): Bytes {
    match m
    case Request(piece) => Header(0, piece, None)
    case Data(piece, totalSize, block) => Header(1, piece, Some(totalSize)) + block
    case Reject(piece) => Header(2, piece, None)
  }

  predicate Safe(m: Message) {
    IsSafe(m.piece) && (m.Data? ==> IsSafe(m.totalSize))
  }

  lemma WireDecodes(m: Message, number: Numeral)
    requires Safe(m) && ReadsDigits(number)
    ensures DecodeMessage(Wire(m), number) == Success(m)
  {
    hide Header, DecodeMessage, ReadsDigits;
    match m
    case Data(piece, totalSize, block) => MessagesRoundTrip(piece, totalSize, block, number);
    case _ => MessagesRoundTrip(m.piece, 0, [], number);
  }

  lemma WireIsInjective(a: Message, b: Message, number: Numeral)
    requires Safe(a) && Safe(b) && ReadsDigits(number) && Wire(a) == Wire(b)
    ensures a == b
  {
    hide Wire, DecodeMessage, Safe, ReadsDigits;
    WireDecodes(a, number);
    WireDecodes(b, number);
  }

  /** The payloads are exactly the encodings of the messages. */
  ghost predicate Carries(payloads: multiset<Bytes>, messages: multiset<Message>) {
    && (forall m :: m in messages ==> Safe(m) && payloads[Wire(m)] == messages[m])
    && (forall b :: b in payloads ==> IsWireOf(b, messages))
  }

  ghost predicate IsWireOf(b: Bytes, messages: multiset<Message>) {
    exists m :: m in messages && Wire(m) == b
  }

  lemma CarriesMore(payloads: multiset<Bytes>, messages: multiset<Message>, m: Message, number: Numeral)
    requires Carries(payloads, messages) && Safe(m) && ReadsDigits(number)
    ensures Carries(payloads + multiset{Wire(m)}, messages + multiset{m})
  {
    hide Wire, Safe, ReadsDigits;
    var more, all := payloads + multiset{Wire(m)}, messages + multiset{m};
    forall n | n in all ensures Safe(n) && more[Wire(n)] == all[n] {
      if n != m && Wire(n) == Wire(m) {
        WireIsInjective(n, m, number);
      }
      if n == m && m !in messages && Wire(m) in payloads {
        var o :| o in messages && Wire(o) == Wire(m);
        WireIsInjective(o, m, number);
      }
    }
    forall b | b in more ensures IsWireOf(b, all) {
      if b in payloads {
        var n :| n in messages && Wire(n) == b;
        assert n in all;
      } else {
        assert m in all && Wire(m) == b;
      }
    }
  }

  lemma CarriesLess(payloads: multiset<Bytes>, messages: multiset<Message>, m: Message, number: Numeral)
    requires Carries(payloads, messages) && m in messages && ReadsDigits(number)
    ensures Carries(payloads - multiset{Wire(m)}, messages - multiset{m})
  {
    hide Wire, Safe, ReadsDigits;
    var fewer, left := payloads - multiset{Wire(m)}, messages - multiset{m};
    forall n | n in left ensures Safe(n) && fewer[Wire(n)] == left[n] {
      if n != m && Wire(n) == Wire(m) {
        WireIsInjective(n, m, number);
      }
    }
    forall b | b in fewer ensures IsWireOf(b, left) {
      var n :| n in messages && Wire(n) == b;
      assert n != m || messages[m] > 1;
      assert n in left;
    }
  }

  // ---- Runs over bytes are mirrored by runs over messages ----

  /** The same state, its payloads being those of the messages. */
  ghost predicate Mirrors(e: Exchange, s: Download) {
    && s == e.pool.(toServer := s.toServer, toClient := s.toClient)
    && Carries(e.toServer, s.toServer) && Carries(e.toClient, s.toClient)
  }

  lemma StoreIsMirrored(e: Exchange, s: Download, metadata: Bytes, maxSize: nat, w: nat)
    requires Mirrors(e, s) && CanStore(e.pool, w)
    ensures CanStore(s, w) && Step(s, Store(s, w), metadata, maxSize) && Mirrors(e.(pool := Store(e.pool, w)), Store(s, w))
  {
    hide Carries, ServeStep, DeliverStep;
  }

  lemma TakeIsMirrored(e: Exchange, s: Download, metadata: Bytes, maxSize: nat, number: Numeral, w: nat)
    requires Mirrors(e, s) && CanTake(e.pool, w) && IsSafe(|metadata|) && |e.pool.blocks| == BlockCount(|metadata|)
    requires ReadsDigits(number)
    ensures CanTake(s, w) && Step(s, Take(s, w), metadata, maxSize) && Mirrors(TakeAndSend(e, w), Take(s, w))
  {
    hide Carries, ServeStep, DeliverStep, ReadsDigits, Header;
    var piece := s.nextPiece;
    if piece < |s.blocks| {
      PieceIsSafe(metadata, piece);
      CarriesMore(e.toServer, s.toServer, Request(piece), number);
    } else {
      assert e.toServer + multiset{} == e.toServer;
    }
  }

  lemma PieceIsSafe(metadata: Bytes, piece: nat)
    requires IsSafe(|metadata|) && piece < BlockCount(|metadata|)
    ensures IsSafe(piece) && Safe(Request(piece)) && Safe(BlockMessage(metadata, piece))
  {
  }

  lemma ServeIsMirrored(e: Exchange, s: Download, metadata: Bytes, maxOutstanding: nat, maxSize: nat, number: Numeral, payload: Bytes)
    requires Mirrors(e, s) && payload in e.toServer && Invariant(s, metadata, maxOutstanding)
    requires IsSafe(|metadata|) && ReadsDigits(number)
    ensures exists s' :: Step(s, s', metadata, maxSize) && Mirrors(ServeBytes(e, metadata, maxSize, number, payload), s')
  {
    hide Carries, DeliverStep, ReadsDigits, Header, DecodeMessage, Invariant, BlockOf;
    var m := CarriedMessage(e.toServer, s.toServer, payload);
    RequestsAreKnown(s, metadata, maxOutstanding, m);
    var reply := BlockMessage(metadata, m.piece);
    PieceIsSafe(metadata, m.piece);
    WireDecodes(m, number);
    CarriesLess(e.toServer, s.toServer, m, number);
    CarriesMore(e.toClient, s.toClient, reply, number);
    ServesBlock(metadata, m.piece);
    var s' := s.(toServer := s.toServer - multiset{m}, toClient := s.toClient + multiset{reply});
    assert ServeStep(s, s', metadata, m);
    assert Step(s, s', metadata, maxSize) && Mirrors(ServeBytes(e, metadata, maxSize, number, payload), s');
  }

  lemma CarriedMessage(payloads: multiset<Bytes>, messages: multiset<Message>, b: Bytes) returns (m: Message)
    requires Carries(payloads, messages) && b in payloads
    ensures m in messages && Wire(m) == b && Safe(m)
  {
    assert IsWireOf(b, messages);
    m :| m in messages && Wire(m) == b;
  }

  lemma RequestsAreKnown(s: Download, metadata: Bytes, maxOutstanding: nat, m: Message)
    requires Invariant(s, metadata, maxOutstanding) && m in s.toServer
    ensures m.Request? && m.piece < BlockCount(|metadata|)
  {
    assert PendingOk(s, metadata, m.piece);
  }

  lemma ServesBlock(metadata: Bytes, piece: nat)
    requires piece < BlockCount(|metadata|) && IsSafe(|metadata|)
    ensures Serve(Some(metadata), piece) == Wire(BlockMessage(metadata, piece))
    ensures Reply(metadata, Request(piece)) == Some(BlockMessage(metadata, piece))
  {
    hide Header, BlockOf;
  }

  lemma DeliverIsMirrored(e: Exchange, e': Exchange, s: Download, metadata: Bytes, maxOutstanding: nat, maxSize: nat,
                          number: Numeral, payload: Bytes, w: nat)
    requires Mirrors(e, s) && DeliverBytes(e, e', metadata, maxSize, number, payload, w) && Invariant(s, metadata, maxOutstanding)
    requires IsSafe(|metadata|) && ReadsDigits(number)
    ensures exists s' :: Step(s, s', metadata, maxSize) && Mirrors(e', s')
  {
    hide Carries, ReadsDigits, Header, DecodeMessage, Invariant, BlockOf, React, ServeStep, Wire;
    var m := CarriedMessage(e.toClient, s.toClient, payload);
    WireDecodes(m, number);
    CarriesLess(e.toClient, s.toClient, m, number);
    var s' := e'.pool.(toServer := s.toServer, toClient := s.toClient - multiset{m});
    assert DeliverStep(s, s', metadata, maxSize, m, w);
    assert Step(s, s', metadata, maxSize) && Mirrors(e', s');
  }

  lemma StepIsMirrored(e: Exchange, e': Exchange, s: Download, metadata: Bytes, maxOutstanding: nat, maxSize: nat, number: Numeral)
      returns (s': Download)
    requires Mirrors(e, s) && StepBytes(e, e', metadata, maxSize, number) && Invariant(s, metadata, maxOutstanding)
    requires IsSafe(|metadata|) && ReadsDigits(number)
    ensures Step(s, s', metadata, maxSize) && Mirrors(e', s')
  {
    hide Mirrors, Invariant, Step, CanStore, CanTake, Store, TakeAndSend, ServeBytes, DeliverBytes, ReadsDigits, IsSafe;
    if w :| CanStore(e.pool, w) && e' == e.(pool := Store(e.pool, w)) {
      StoreIsMirrored(e, s, metadata, maxSize, w);
      s' := Store(s, w);
    } else if w :| CanTake(e.pool, w) && e' == TakeAndSend(e, w) {
      BlocksAre(e, s, metadata, maxOutstanding);
      TakeIsMirrored(e, s, metadata, maxSize, number, w);
      s' := Take(s, w);
    } else if payload :| payload in e.toServer && e' == ServeBytes(e, metadata, maxSize, number, payload) {
      ServeIsMirrored(e, s, metadata, maxOutstanding, maxSize, number, payload);
      s' :| Step(s, s', metadata, maxSize) && Mirrors(e', s');
    } else {
      var payload, w :| DeliverBytes(e, e', metadata, maxSize, number, payload, w);
      DeliverIsMirrored(e, e', s, metadata, maxOutstanding, maxSize, number, payload, w);
      s' :| Step(s, s', metadata, maxSize) && Mirrors(e', s');
    }
  }

  lemma BlocksAre(e: Exchange, s: Download, metadata: Bytes, maxOutstanding: nat)
    requires Mirrors(e, s) && Invariant(s, metadata, maxOutstanding)
    ensures |e.pool.blocks| == BlockCount(|metadata|)
  {
  }

  lemma {:induction false} RunIsMirrored(run: seq<Exchange>, metadata: Bytes, maxOutstanding: nat, maxSize: nat, number: Numeral)
      returns (messages: seq<Download>)
    requires 1 <= |metadata| <= maxSize && IsSafe(|metadata|) && ReadsDigits(number)
    requires IsRunOfBytes(run, metadata, maxOutstanding, maxSize, number)
    ensures IsRun(messages, metadata, maxOutstanding, maxSize) && |messages| == |run|
    ensures Mirrors(run[|run| - 1], messages[|messages| - 1])
  {
    hide Step, StepBytes, Invariant, Start, ReadsDigits, IsSafe;
    if |run| == 1 {
      messages := [Start(|metadata|, maxOutstanding)];
      BeginMirrors(|metadata|, maxOutstanding);
    } else {
      var n := |run| - 1;
      var before := RunIsMirrored(run[..n], metadata, maxOutstanding, maxSize, number);
      RunsKeepInvariant(before, metadata, maxOutstanding, maxSize);
      assert run[..n][n - 1] == run[n - 1] && StepBytes(run[n - 1], run[n - 1 + 1], metadata, maxSize, number);
      var s' := StepIsMirrored(run[n - 1], run[n], before[n - 1], metadata, maxOutstanding, maxSize, number);
      messages := before + [s'];
    }
  }

  lemma BeginMirrors(size: nat, maxOutstanding: nat)
    ensures Mirrors(Begin(size, maxOutstanding), Start(size, maxOutstanding))
  {
  }

  // ---- What follows for the bytes ----

  /** The payload decodes to a request of a pending piece. */
  ghost predicate IsRequest(b: Bytes, pending: set<nat>, number: Numeral) {
    exists p :: p in pending && DecodeMessage(b, number) == Success(Request(p))
  }

  /** The payload decodes to the block of a pending piece. */
  ghost predicate IsBlock(b: Bytes, pending: set<nat>, metadata: Bytes, number: Numeral) {
    exists p :: p in pending && p < BlockCount(|metadata|) && DecodeMessage(b, number) == Success(BlockMessage(metadata, p))
  }

  /** Whatever is under way decodes to what was meant, and the finished download is the metadata that was served. */
  lemma BytesAreLossless(run: seq<Exchange>, metadata: Bytes, maxOutstanding: nat, maxSize: nat, number: Numeral)
    requires 1 <= |metadata| <= maxSize && 1 <= maxOutstanding && IsSafe(|metadata|) && ReadsDigits(number)
    requires IsRunOfBytes(run, metadata, maxOutstanding, maxSize, number)
    ensures var e := run[|run| - 1];
      && (forall b :: b in e.toServer ==> IsRequest(b, e.pool.pending, number))
      && (forall b :: b in e.toClient ==> IsBlock(b, e.pool.pending, metadata, number))
      && !e.pool.failed && |e.pool.pending| <= maxOutstanding
      && e.pool.requested == seq(|e.pool.requested|, i => i) && |e.pool.requested| <= BlockCount(|metadata|)
      && ((forall w :: 0 <= w < |e.pool.workers| ==> e.pool.workers[w].Finished?) ==>
            |e.pool.requested| == BlockCount(|metadata|) && Assembled(e.pool.blocks) == metadata)
  {
    hide StepBytes, Step, Invariant, Assembled, DecodeMessage, ReadsDigits, IsSafe, Carries, BlockMessage, IsRunOfBytes, IsRun;
    var messages := RunIsMirrored(run, metadata, maxOutstanding, maxSize, number);
    var e, s := Last(run), Last(messages);
    RunsKeepInvariant(messages, metadata, maxOutstanding, maxSize);
    DownloadIsLossless(messages, metadata, maxOutstanding, maxSize);
    forall b | b in e.toServer ensures IsRequest(b, e.pool.pending, number) {
      var m := CarriedMessage(e.toServer, s.toServer, b);
      WireDecodes(m, number);
      UnderWay(s, metadata, maxOutstanding, m);
    }
    forall b | b in e.toClient ensures IsBlock(b, e.pool.pending, metadata, number) {
      var m := CarriedMessage(e.toClient, s.toClient, b);
      WireDecodes(m, number);
      UnderWay(s, metadata, maxOutstanding, m);
    }
  }

  function Last<T>(run: seq<T>): T
    requires run != []
  {
    run[|run| - 1]
  }

  lemma UnderWay(s: Download, metadata: Bytes, maxOutstanding: nat, m: Message)
    requires Invariant(s, metadata, maxOutstanding) && (m in s.toServer || m in s.toClient)
    ensures m.piece in s.pending && m.piece < BlockCount(|metadata|)
    ensures m in s.toServer ==> m == Request(m.piece)
    ensures m in s.toClient ==> m == BlockMessage(metadata, m.piece)
  {
    hide BlockOf;
    assert PendingOk(s, metadata, m.piece);
  }

  ghost predicate CanGoOnInBytes(e: Exchange, metadata: Bytes, maxSize: nat, number: Numeral) {
    exists e' :: StepBytes(e, e', metadata, maxSize, number)
  }

  /** What can go on over messages can go on over bytes. */
  lemma BytesGoOn(e: Exchange, s: Download, metadata: Bytes, maxOutstanding: nat, maxSize: nat, number: Numeral)
    requires 1 <= |metadata| <= maxSize && IsSafe(|metadata|) && ReadsDigits(number)
    requires Mirrors(e, s) && Invariant(s, metadata, maxOutstanding) && CanGoOn(s, metadata, maxSize)
    ensures CanGoOnInBytes(e, metadata, maxSize, number)
  {
    hide Invariant, ServeStep, DeliverStep, ReadsDigits, IsSafe, Carries, ServeBytes, DeliverBytes, Take, Store, TakeAndSend;
    var s' :| Step(s, s', metadata, maxSize);
    if w :| CanStore(s, w) && s' == Store(s, w) {
      assert StepBytes(e, e.(pool := Store(e.pool, w)), metadata, maxSize, number);
    } else if w :| CanTake(s, w) && s' == Take(s, w) {
      assert StepBytes(e, TakeAndSend(e, w), metadata, maxSize, number);
    } else if m :| ServeStep(s, s', metadata, m) {
      ServeStepTakes(s, s', metadata, m);
      IsCarried(e.toServer, s.toServer, m);
      assert StepBytes(e, ServeBytes(e, metadata, maxSize, number, Wire(m)), metadata, maxSize, number);
    } else {
      var m, w :| DeliverStep(s, s', metadata, maxSize, m, w);
      DeliverMeans(s, s', metadata, maxOutstanding, maxSize, m, w);
      UnderWay(s, metadata, maxOutstanding, m);
      BytesDeliver(e, s, metadata, maxSize, number, m, w);
    }
  }

  lemma ServeStepTakes(s: Download, s': Download, metadata: Bytes, m: Message)
    requires ServeStep(s, s', metadata, m)
    ensures m in s.toServer
  {
  }

  lemma IsCarried(payloads: multiset<Bytes>, messages: multiset<Message>, m: Message)
    requires Carries(payloads, messages) && m in messages
    ensures Wire(m) in payloads && Safe(m)
  {
  }

  lemma BytesDeliver(e: Exchange, s: Download, metadata: Bytes, maxSize: nat, number: Numeral, m: Message, w: nat)
    requires 1 <= |metadata| <= maxSize && ReadsDigits(number) && Mirrors(e, s) && m in s.toClient
    requires m.piece < BlockCount(|metadata|) && m == BlockMessage(metadata, m.piece) && m.piece in s.pending
    requires w < |s.workers| && s.workers[w] == Waiting(m.piece)
    ensures CanGoOnInBytes(e, metadata, maxSize, number)
  {
    hide Carries, ReadsDigits, Header, DecodeMessage, BlockOf, React, Wire, BlockMessage;
    IsCarried(e.toClient, s.toClient, m);
    WireDecodes(m, number);
    ReactsWithBlock(s.pending, metadata, maxSize, m.piece);
    var e' := e.(toClient := e.toClient - multiset{Wire(m)},
                 pool := e.pool.(pending := e.pool.pending - {m.piece},
                                 workers := e.pool.workers[w := Holding(m.piece, BlockOf(metadata, m.piece))]));
    assert DeliverBytes(e, e', metadata, maxSize, number, Wire(m), w);
    assert StepBytes(e, e', metadata, maxSize, number);
  }

  /** A run over bytes that cannot go on, or that has taken all its steps, holds exactly the served metadata. */
  lemma BytesComplete(run: seq<Exchange>, metadata: Bytes, maxOutstanding: nat, maxSize: nat, number: Numeral)
    requires 1 <= |metadata| <= maxSize && 1 <= maxOutstanding && IsSafe(|metadata|) && ReadsDigits(number)
    requires IsRunOfBytes(run, metadata, maxOutstanding, maxSize, number)
    requires var n := BlockCount(|metadata|);
      !CanGoOnInBytes(run[|run| - 1], metadata, maxSize, number) || |run| - 1 == 4 * n + Min(maxOutstanding, n)
    ensures Assembled(run[|run| - 1].pool.blocks) == metadata
  {
    hide StepBytes, Step, Invariant, Assembled, ReadsDigits, IsSafe, Carries, CanGoOn, CanGoOnInBytes, IsRunOfBytes, IsRun;
    var messages := RunIsMirrored(run, metadata, maxOutstanding, maxSize, number);
    var e, s := Last(run), Last(messages);
    RunsKeepInvariant(messages, metadata, maxOutstanding, maxSize);
    if CanGoOn(s, metadata, maxSize) {
      BytesGoOn(e, s, metadata, maxOutstanding, maxSize, number);
    }
    DownloadCompletes(messages, metadata, maxOutstanding, maxSize);
  }
}
