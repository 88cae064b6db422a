/**
 Two endpoints over two ordered channels, under the reject semantics of BEP 6: the requests one side
 waits for are exactly those under way to the other side, those held there, and those whose answer is under way.

 Each direction keeps its own books: what the requester awaits, what the channel carries, and what the
 answerer holds. Sending moves requests and answers from an endpoint to a channel, and receiving moves them on,
 so that a step of either endpoint moves entries and never makes or loses one. From this it follows that no
 piece is unsolicited and no reject is for a request that was never sent. Any order of
 writes, requests, receptions and closures on either side is a schedule; a send is one step, and no timeout
 and no abort occurs.
 */
module PeerPair {
  import opened Results
  import opened ByteStrings
  import opened PeerSession
  import opened PeerRuns

  datatype Pair = Pair(left: Wire, right: Wire, toRight: seq<Message>, toLeft: seq<Message>)

  datatype Action = Write(message: Message) | Ask(block: Block) | End(reason: Failure) | Take

  function Mirror(p: Pair): Pair {
    Pair(p.right, p.left, p.toLeft, p.toRight)
  }

  /** A step of the left endpoint; a message is read only from the front of its channel. */
  function LeftStep(p: Pair, a: Action): Pair {
    match a
    case Write(m) =>
      var sent := Send(p.left, m, true);
      p.(left := sent.wire, toRight := p.toRight + sent.messages)
    case Ask(block) =>
      var sent := RequestBlock(p.left, block);
      p.(left := sent.wire, toRight := p.toRight + sent.messages)
    case End(reason) => p.(left := Terminate(p.left, reason))
    case Take =>
      if p.toLeft == [] then p
      else
        var read := Receive(p.left, p.toLeft[0]);
        Pair(read.wire, p.right, p.toRight + read.messages, p.toLeft[1..])
  }

  datatype Turn = Turn(byLeft: bool, action: Action)

  function PairRun(p: Pair, turns: seq<Turn>): Pair
    decreases |turns|
  {
    if turns == [] then p
    else
      var next := if turns[0].byLeft then LeftStep(p, turns[0].action)
                  else Mirror(LeftStep(Mirror(p), turns[0].action));
      PairRun(next, turns[1..])
  }

  function Start(left: Config, right: Config): Pair {
    Pair(Fresh(left).(state := Connected), Fresh(right).(state := Connected), [], [])
  }

  // ---- What the channels carry ----

  function Requests(messages: seq<Message>): multiset<Block> {
    if messages == [] then multiset{}
    else (if messages[0].Request? then multiset{messages[0].block} else multiset{}) + Requests(messages[1..])
  }

  function Answers(messages: seq<Message>): multiset<Block> {
    if messages == [] then multiset{}
    else
      (if messages[0].Piece? || messages[0].RejectRequest? then multiset{Answered(messages[0])} else multiset{})
      + Answers(messages[1..])
  }

  function Waiting(w: Wire): multiset<Block> {
    multiset(Blocks(w.pending))
  }

  ghost predicate Distinct(blocks: multiset<Block>) {
    forall b :: blocks[b] <= 1
  }

  /** The requests of `r` to `s`, with `out` leading from `r` to `s` and `back` from `s` to `r`. */
  ghost predicate Correlated(r: Wire, s: Wire, out: seq<Message>, back: seq<Message>) {
    && Distinct(Waiting(r))
    && (r.state == Connected && s.state == Connected ==>
          Waiting(r) == Requests(out) + multiset(s.peerRequests) + Answers(back))
    && (r.state == Connected ==> Answers(back) <= Waiting(r))
    && (s.state == Connected ==> |s.peerRequests| + |Requests(out)| <= r.config.maxPending)
  }

  ghost predicate Linked(p: Pair) {
    && p.left.config.negotiated == p.right.config.negotiated && p.left.config.RejectSemantics()
    && Sound(p.left) && Sound(p.right)
    && Correlated(p.left, p.right, p.toRight, p.toLeft)
    && Correlated(p.right, p.left, p.toLeft, p.toRight)
  }

  lemma {:induction false} CarriedJoin(a: seq<Message>, b: seq<Message>)
    ensures Requests(a + b) == Requests(a) + Requests(b)
    ensures Answers(a + b) == Answers(a) + Answers(b)
  {
    if a == [] {
      assert a + b == b;
    } else {
      assert (a + b)[1..] == a[1..] + b;
      CarriedJoin(a[1..], b);
    }
  }

  lemma CarriedByOne(m: Message)
    ensures Requests([m]) == if m.Request? then multiset{m.block} else multiset{}
    ensures Answers([m]) == if m.Piece? || m.RejectRequest? then multiset{Answered(m)} else multiset{}
  {
    assert [m][1..] == [];
  }

  lemma {:induction false} FindIsWaiting(pending: seq<Entry>, block: Block)
    ensures |Blocks(pending)| == |pending|
    ensures Find(pending, block).Some? <==> block in multiset(Blocks(pending))
    ensures multiset(Blocks(Without(pending, block))) == multiset(Blocks(pending)) - multiset{block}
  {
    hide Blocks;
    if pending == [] {
      NoBlocks();
    } else {
      FindIsWaiting(pending[1..], block);
      BlocksMore(pending[0], pending[1..]);
      assert pending == [pending[0]] + pending[1..];
      if pending[0].block != block {
        BlocksMore(pending[0], Without(pending[1..], block));
      }
    }
  }

  lemma NoBlocks()
    ensures Blocks([]) == []
  {
  }

  lemma BlocksMore(entry: Entry, rest: seq<Entry>)
    ensures multiset(Blocks([entry] + rest)) == multiset{entry.block} + multiset(Blocks(rest))
    ensures |Blocks([entry] + rest)| == 1 + |Blocks(rest)|
  {
    assert ([entry] + rest)[1..] == rest;
  }

  lemma {:induction false} BlocksAppend(pending: seq<Entry>, entry: Entry)
    ensures Blocks(pending + [entry]) == Blocks(pending) + [entry.block]
  {
    if pending == [] {
      assert pending + [entry] == [entry] && [entry][1..] == [];
    } else {
      BlocksAppend(pending[1..], entry);
      assert (pending + [entry])[1..] == pending[1..] + [entry];
    }
  }

  // ---- What sending does to the books ----

  /** Requests written are awaited, except those awaited already; answers written come from the peer's requests. */
  ghost predicate Moves(w: Wire, sent: Sent, awaited: multiset<Block>) {
    && sent.wire.config == w.config && sent.wire.state == w.state
    && Waiting(sent.wire) + awaited == Waiting(w) + Requests(sent.messages)
    && multiset(w.peerRequests) == multiset(sent.wire.peerRequests) + Answers(sent.messages)
    && (sent.messages != [] ==> w.state == Connected)
    && (Distinct(Waiting(w)) ==> Distinct(Waiting(sent.wire)))
  }

  lemma ApplyLocalMoves(w: Wire, m: Message)
    requires w.config.RejectSemantics()
    requires m.Piece? || m.RejectRequest? ==> Answered(m) in w.peerRequests
    ensures var after := ApplyLocal(w, m);
      && after.config == w.config && after.state == w.state && after.pending == w.pending
      && multiset(w.peerRequests) == multiset(after.peerRequests) + Answers([m])
  {
    hide Dropped, Answers, Settle, LocalFlags;
    CarriedByOne(m);
    if m.Piece? || m.RejectRequest? {
      DroppedIsShorter(w.peerRequests, Answered(m));
      TakesOne(multiset(w.peerRequests), Answered(m));
    }
  }

  lemma Chain(a: multiset<Block>, b: multiset<Block>, c: multiset<Block>, p: multiset<Block>, q: multiset<Block>, x: multiset<Block>)
    requires b + x == a + p && c + multiset{} == b + q
    ensures c + x == a + (p + q)
  {
    assert c == c + multiset{};
    assert b + q + x == b + x + q;
    assert a + p + q == a + (p + q);
  }

  lemma MovesThen(w: Wire, first: Sent, rest: Sent, awaited: multiset<Block>)
    requires Moves(w, first, awaited) && Moves(first.wire, rest, multiset{})
    ensures Moves(w, rest.(messages := first.messages + rest.messages), awaited)
  {
    CarriedJoin(first.messages, rest.messages);
    Chain(Waiting(w), Waiting(first.wire), Waiting(rest.wire), Requests(first.messages), Requests(rest.messages), awaited);
    var held, next, last := multiset(w.peerRequests), multiset(first.wire.peerRequests), multiset(rest.wire.peerRequests);
    assert last + Answers(rest.messages) + Answers(first.messages) == last + (Answers(first.messages) + Answers(rest.messages));
    hide Requests, Answers, Waiting, Distinct;
  }

  lemma TrackMoves(w: Wire, block: Block)
    requires Find(w.pending, block).None?
    ensures var after := w.(pending := w.pending + [Entry(block, None)]);
      Waiting(after) == Waiting(w) + multiset{block} && (Distinct(Waiting(w)) ==> Distinct(Waiting(after)))
  {
    BlocksAppend(w.pending, Entry(block, None));
    FindIsWaiting(w.pending, block);
    hide Blocks, Find;
  }

  lemma WrittenMoves(w: Wire, before: Wire, m: Message, tracked: bool)
    requires w.config.RejectSemantics() && w.state == Connected
    requires before == if tracked && m.Request? then w.(pending := w.pending + [Entry(m.block, None)]) else w
    requires m.Piece? || m.RejectRequest? ==> Answered(m) in w.peerRequests
    requires tracked && m.Request? ==> Find(w.pending, m.block).None?
    ensures Moves(w, Sent(ApplyLocal(CommitLocal(before, m), m), [m], None), if tracked then multiset{} else Requests([m]))
  {
    var committed := CommitLocal(before, m);
    hide ApplyLocal, CommitLocal, Blocks, Find;
    ApplyLocalMoves(committed, m);
    assert Waiting(committed) == Waiting(before);
    CarriedByOne(m);
    if tracked && m.Request? {
      TrackMoves(w, m.block);
    }
    hide Requests, Answers, Waiting, Distinct;
    var after := ApplyLocal(committed, m);
    assert Waiting(after) == Waiting(before);
    assert Waiting(w) + multiset{} == Waiting(w);
  }

  lemma SendOneMoves(w: Wire, m: Message, tracked: bool)
    requires w.config.RejectSemantics()
    ensures Moves(w, SendOne(w, m, tracked), if tracked then multiset{} else Requests(SendOne(w, m, tracked).messages))
  {
    var sent := SendOne(w, m, tracked);
    hide ApplyLocal, CommitLocal, Find;
    if sent.failure.None? {
      var before := if tracked && m.Request? then w.(pending := w.pending + [Entry(m.block, None)]) else w;
      assert sent == Sent(ApplyLocal(CommitLocal(before, m), m), [m], None);
      assert m.Piece? || m.RejectRequest? ==> Answered(m) in w.peerRequests;
      assert w.state == Connected;
      hide Moves, SendOne;
      WrittenMoves(w, before, m, tracked);
    } else {
      assert sent.wire == w && sent.messages == [];
    }
  }

  lemma {:induction false} RejectAllMoves(w: Wire, requests: seq<Block>)
    requires w.config.RejectSemantics()
    ensures Moves(w, RejectAll(w, requests), multiset{})
    decreases |requests|
  {
    if requests == [] {
    } else if Fast in w.config.negotiated && requests[0].piece in w.localAllowedFast {
      hide Moves;
      RejectAllMoves(w, requests[1..]);
    } else {
      var first := SendOne(w, RejectRequest(requests[0]), true);
      SendOneMoves(w, RejectRequest(requests[0]), true);
      assert first.wire.config == w.config;
      hide SendOne, Moves;
      RejectAllMoves(first.wire, requests[1..]);
      MovesThen(w, first, RejectAll(first.wire, requests[1..]), multiset{});
    }
  }

  lemma OnlyRequestsAsk(w: Wire, m: Message, tracked: bool)
    ensures !m.Request? ==> Requests(SendOne(w, m, tracked).messages) == multiset{}
  {
    hide Find, CheckOutgoing, CheckFrame, ApplyLocal, CommitLocal;
  }

  lemma MovesKeepConfig(w: Wire, sent: Sent, awaited: multiset<Block>)
    requires Moves(w, sent, awaited)
    ensures sent.wire.config == w.config
  {
    hide Requests, Answers, Waiting, Distinct;
  }

  lemma SendMoves(w: Wire, m: Message, tracked: bool)
    requires w.config.RejectSemantics()
    ensures Moves(w, Send(w, m, tracked), if tracked || !m.Request? then multiset{} else Requests(Send(w, m, tracked).messages))
  {
    hide SendOne, Moves, Requests, RejectAll;
    var one := SendOne(w, m, tracked);
    SendOneMoves(w, m, tracked);
    OnlyRequestsAsk(w, m, tracked);
    MovesKeepConfig(w, one, if tracked then multiset{} else Requests(one.messages));
    if one.failure.None? && m.Choke? {
      RejectAllMoves(one.wire, one.wire.peerRequests);
      MovesThen(w, one, RejectAll(one.wire, one.wire.peerRequests), multiset{});
    }
  }

  lemma AskMoves(w: Wire, block: Block, sent: Sent)
    requires Find(w.pending, block).None?
    requires Moves(w.(pending := w.pending + [Entry(block, Some(|w.issued|))], issued := w.issued + [block]), sent, multiset{block})
    requires sent.messages == [Request(block)]
    ensures Moves(w, sent, multiset{})
  {
    var asked := w.(pending := w.pending + [Entry(block, Some(|w.issued|))], issued := w.issued + [block]);
    BlocksAppend(w.pending, Entry(block, Some(|w.issued|)));
    FindIsWaiting(w.pending, block);
    CarriedByOne(Request(block));
    assert Waiting(asked) == Waiting(w) + multiset{block};
    assert Distinct(Waiting(w)) ==> Distinct(Waiting(asked));
    hide Blocks, Find, Requests, Waiting, Distinct, Answers;
    Cancels(Waiting(sent.wire), Waiting(w) + multiset{block}, multiset{block});
    assert Waiting(sent.wire) + multiset{} == Waiting(sent.wire);
  }

  lemma Cancels(a: multiset<Block>, b: multiset<Block>, x: multiset<Block>)
    requires a + x == b + x
    ensures a == b
  {
    forall k ensures a[k] == b[k] {
      assert (a + x)[k] == a[k] + x[k] && (b + x)[k] == b[k] + x[k];
    }
  }

  lemma RefusedMoves(w: Wire, block: Block, failure: Failure)
    requires Find(w.pending, block).None?
    ensures var asked := w.(pending := w.pending + [Entry(block, Some(|w.issued|))], issued := w.issued + [block]);
      Moves(w, Sent(Settle(asked, block, Failed(failure)), [], Some(failure)), multiset{})
  {
    var asked := w.(pending := w.pending + [Entry(block, Some(|w.issued|))], issued := w.issued + [block]);
    WithoutLast(w.pending, Entry(block, Some(|w.issued|)));
    var refused := Settle(asked, block, Failed(failure));
    assert refused == w.(issued := refused.issued, settled := refused.settled);
    hide Find, Without, Settle, Moves;
    NothingMoves(w, refused, Some(failure));
  }

  lemma RequestBlockMoves(w: Wire, block: Block)
    requires w.config.RejectSemantics()
    ensures Moves(w, RequestBlock(w, block), multiset{})
  {
    var asked := w.(pending := w.pending + [Entry(block, Some(|w.issued|))], issued := w.issued + [block]);
    var sent := Send(asked, Request(block), false);
    RequestsOnlyConnected(asked, block);
    assert sent.messages == if sent.failure.None? then [Request(block)] else [];
    hide Send, BlockFits, Moves, Find, Settle;
    if !BlockFits(w.config, block) || Find(w.pending, block).Some? || |w.pending| >= w.config.maxPending {
      NothingMoves(w, w, RequestBlock(w, block).failure);
    } else if sent.failure.None? {
      SendMoves(asked, Request(block), false);
      CarriedByOne(Request(block));
      AskMoves(w, block, sent);
    } else {
      RefusedMoves(w, block, sent.failure.value);
    }
  }

  lemma NothingMoves(w: Wire, v: Wire, failure: Option<Failure>)
    requires v == w.(issued := v.issued, settled := v.settled)
    ensures Moves(w, Sent(v, [], failure), multiset{})
  {
  }

  // ---- What receiving does to the books ----

  /** An answer is taken off the awaited requests; a request joins the peer's requests. */
  ghost predicate Reads(w: Wire, m: Message, got: Sent) {
    && got.wire.config == w.config && Requests(got.messages) == multiset{}
    && (got.wire.state == Connected ==> w.state == Connected && Waiting(w) == Waiting(got.wire) + Answers([m]))
    && (got.wire.state != Connected ==> got.messages == [])
    && (got.wire.state == Connected && !(m.Request? && m.block in w.peerRequests) ==>
          multiset(w.peerRequests) + Requests([m]) == multiset(got.wire.peerRequests) + Answers(got.messages))
    && (got.wire.state == Connected ==> |got.wire.peerRequests| <= |w.peerRequests| + |Requests([m])|)
    && (Distinct(Waiting(w)) ==> Distinct(Waiting(got.wire)))
  }

  lemma TakesOne(a: multiset<Block>, key: Block)
    requires key in a
    ensures a == a - multiset{key} + multiset{key} && (Distinct(a) ==> Distinct(a - multiset{key}))
  {
  }

  lemma TakenReads(w: Wire, m: Message, v: Wire)
    requires m.Piece? || m.RejectRequest?
    requires Answered(m) in Waiting(w) && Waiting(v) == Waiting(w) - multiset{Answered(m)}
    requires w.state == Connected == v.state && v.config == w.config && v.peerRequests == w.peerRequests
    ensures Reads(w, m, Sent(v, [], None))
  {
    CarriedByOne(m);
    hide Waiting, Distinct;
    TakesOne(Waiting(w), Answered(m));
  }

  lemma AnswerReads(w: Wire, m: Message)
    requires w.state == Connected && w.config.RejectSemantics() && (m.Piece? || m.RejectRequest?)
    requires ApplyAnswer(w, m).failure.None?
    ensures Reads(w, m, ApplyAnswer(w, m))
  {
    hide Reads, Without, Find, Blocks, Settle;
    var outcome := if m.Piece? then Delivered(m.data) else Failed(Rejected);
    FindIsWaiting(w.pending, Answered(m));
    SettleTakes(w, Answered(m), outcome);
    TakenReads(w, m, Settle(w, Answered(m), outcome));
  }

  lemma RefusalSent(w: Wire, block: Block)
    requires w.config.RejectSemantics() && Send(w, RejectRequest(block), true).failure.None?
    ensures Send(w, RejectRequest(block), true).messages == [RejectRequest(block)] && block in w.peerRequests
  {
  }

  lemma RefusalReads(w: Wire, block: Block)
    requires w.state == Connected && w.config.RejectSemantics()
    requires Send(w, RejectRequest(block), true).failure.None?
    ensures Reads(w, Request(block), Send(w, RejectRequest(block), true))
  {
    hide Send, Requests, Answers, Waiting, Distinct;
    var sent := Send(w, RejectRequest(block), true);
    RefusalSent(w, block);
    SendMoves(w, RejectRequest(block), true);
    CarriedByOne(RejectRequest(block));
    CarriedByOne(Request(block));
    assert Waiting(sent.wire) + multiset{} == Waiting(sent.wire) && Waiting(w) + multiset{} == Waiting(w);
    assert |multiset(w.peerRequests)| == |multiset(sent.wire.peerRequests)| + 1;
  }

  lemma AcceptReads(w: Wire, block: Block)
    requires w.state == Connected
    ensures Reads(w, Request(block), Sent(Accept(w, block), [], None))
  {
    CarriedByOne(Request(block));
  }

  lemma OtherReads(w: Wire, m: Message, v: Wire)
    requires w.state == Connected && !m.Piece? && !m.RejectRequest? && !m.Request?
    requires v.config == w.config && v.state == w.state && v.pending == w.pending && v.peerRequests == w.peerRequests
    ensures Reads(w, m, Sent(v, [], None))
  {
    hide Distinct;
    CarriedByOne(m);
  }

  lemma ApplyRequestReads(w: Wire, block: Block)
    requires w.state == Connected && w.config.RejectSemantics() && ApplyRequest(w, block).failure.None?
    ensures Reads(w, Request(block), ApplyRequest(w, block))
  {
    hide Reads, Send, Accept;
    if RefusesAtOnce(w, block) {
      RefusalReads(w, block);
    } else {
      AcceptReads(w, block);
    }
  }

  lemma ApplyRemoteReads(w: Wire, m: Message)
    requires w.state == Connected && w.config.RejectSemantics() && ApplyRemote(w, m).failure.None?
    ensures Reads(w, m, ApplyRemote(w, m))
  {
    hide Reads, ApplyRequest, ApplyAnswer, RemoteFlags;
    if m.Piece? || m.RejectRequest? {
      AnswerReads(w, m);
    } else if m.Request? {
      ApplyRequestReads(w, m.block);
    } else {
      OtherReads(w, m, ApplyRemote(w, m).wire);
    }
  }

  lemma TerminatedReads(w: Wire, v: Wire, m: Message, reason: Failure)
    requires Sound(v) && v.config == w.config
    ensures Reads(w, m, Sent(Terminate(v, reason), [], Some(reason)))
  {
    TerminateIsSound(v, reason);
    TerminateKeepsRemote(v, reason);
    hide Terminate, Accounts;
  }

  lemma ReceiveReads(w: Wire, m: Message)
    requires Sound(w) && w.config.RejectSemantics()
    ensures w.state == Connected ==> Reads(w, m, Receive(w, m))
    ensures w.state != Connected ==> Receive(w, m) == Sent(w, [], Some(NotConnected))
  {
    if w.state == Connected {
      var committed := CommitRemote(w, m);
      assert Sound(committed);
      assert CheckIncoming(w, m).None? && m.Request? ==> |w.peerRequests| < w.config.maxPending;
      hide Terminate, CommitRemote, CheckIncoming, Reads, ApplyRemote, Sound;
      if CheckIncoming(w, m).Some? {
        TerminatedReads(w, w, m, CheckIncoming(w, m).value);
      } else {
        var applied := ApplyRemote(committed, m);
        if applied.failure.None? {
          ApplyRemoteReads(committed, m);
          CommittedReads(w, committed, m, applied);
        } else {
          ApplyRemoteIsSound(committed, m);
          ApplyRemoteKeepsRemote(committed, m);
          FailureWritesNothing(committed, m);
          TerminatedReads(w, applied.wire, m, applied.failure.value);
        }
      }
    }
  }

  lemma CommittedReads(w: Wire, v: Wire, m: Message, got: Sent)
    requires v == w.(remoteOpen := v.remoteOpen, remoteDeclared := v.remoteDeclared)
    requires Reads(v, m, got)
    ensures Reads(w, m, got)
  {
    hide Requests, Answers, Blocks;
  }

  lemma FailureWritesNothing(w: Wire, m: Message)
    requires ApplyRemote(w, m).failure.Some?
    ensures ApplyRemote(w, m).messages == []
  {
    hide ApplyChoke, RemoteFlags, Find, Settle, Dropped, SendOne, RejectAll;
    if m.Request? {
      RefusedWritesNothing(w, m.block);
    }
  }

  lemma RefusedWritesNothing(w: Wire, block: Block)
    ensures var sent := Send(w, RejectRequest(block), true); sent.failure.Some? ==> sent.messages == []
  {
  }

  // ---- Each step keeps both directions correlated ----

  lemma RequesterSends(r: Wire, s: Wire, out: seq<Message>, back: seq<Message>, sent: Sent)
    requires Correlated(r, s, out, back) && Moves(r, sent, multiset{})
    requires |sent.wire.pending| <= sent.wire.config.maxPending
    ensures Correlated(sent.wire, s, out + sent.messages, back)
  {
    hide Requests, Answers, Waiting, Distinct;
    CarriedJoin(out, sent.messages);
    WaitingSize(sent.wire);
    NothingCarried();
    assert Waiting(sent.wire) + multiset{} == Waiting(sent.wire);
    var held, answers := multiset(s.peerRequests), Answers(back);
    if r.state == Connected && s.state == Connected {
      assert Waiting(sent.wire) == Requests(out) + Requests(sent.messages) + held + answers;
      assert |Waiting(sent.wire)| == |Requests(out + sent.messages)| + |held| + |answers|;
    }
  }

  lemma WaitingSize(w: Wire)
    ensures |Waiting(w)| == |w.pending|
  {
    hide Blocks;
    FindIsWaiting(w.pending, Block(0, 0, 0));
  }

  lemma NothingCarried()
    ensures Requests([]) == multiset{} && Answers([]) == multiset{}
  {
  }

  lemma Exchange(w: multiset<Block>, rest: multiset<Block>, first: multiset<Block>, held: multiset<Block>,
                 next: multiset<Block>, given: multiset<Block>, answers: multiset<Block>)
    requires w == first + rest + held + answers && held + first == next + given
    ensures w == rest + next + (answers + given) && answers + given <= w
  {
    assert w == rest + (held + first) + answers;
    assert rest + (next + given) + answers == rest + next + (answers + given);
  }

  lemma AnswererSends(r: Wire, s: Wire, out: seq<Message>, back: seq<Message>, sent: Sent)
    requires Correlated(r, s, out, back) && Moves(s, sent, multiset{})
    ensures Correlated(r, sent.wire, out, back + sent.messages)
  {
    CarriedJoin(back, sent.messages);
    assert sent.messages == [] ==> back + sent.messages == back;
    hide Requests, Answers, Waiting, Distinct;
    var held, left := multiset(s.peerRequests), multiset(sent.wire.peerRequests);
    assert |held| == |left| + |Answers(sent.messages)|;
    if r.state == Connected && s.state == Connected {
      assert multiset{} + Requests(out) == Requests(out) && held + multiset{} == held;
      Exchange(Waiting(r), Requests(out), multiset{}, held, left, Answers(sent.messages), Answers(back));
    }
  }

  lemma CarriedPop(messages: seq<Message>)
    requires messages != []
    ensures Requests(messages) == Requests([messages[0]]) + Requests(messages[1..])
    ensures Answers(messages) == Answers([messages[0]]) + Answers(messages[1..])
  {
    CarriedByOne(messages[0]);
  }

  lemma RequesterReads(r: Wire, s: Wire, out: seq<Message>, back: seq<Message>, got: Sent)
    requires Correlated(r, s, out, back) && back != [] && Reads(r, back[0], got)
    ensures Correlated(got.wire, s, out + got.messages, back[1..])
  {
    hide Requests, Answers, Waiting, Distinct;
    CarriedJoin(out, got.messages);
    CarriedPop(back);
    var first, rest := Answers([back[0]]), Answers(back[1..]);
    assert Requests(out + got.messages) == Requests(out);
    if got.wire.state == Connected {
      assert first + rest <= Waiting(got.wire) + first;
      SubCancels(rest, Waiting(got.wire), first);
      if s.state == Connected {
        assert Waiting(got.wire) + first == Requests(out) + multiset(s.peerRequests) + rest + first;
        Cancels(Waiting(got.wire), Requests(out) + multiset(s.peerRequests) + rest, first);
      }
    }
  }

  lemma SubCancels(a: multiset<Block>, b: multiset<Block>, x: multiset<Block>)
    requires x + a <= b + x
    ensures a <= b
  {
    forall k ensures a[k] <= b[k] {
      assert (x + a)[k] == a[k] + x[k] && (b + x)[k] == b[k] + x[k];
    }
  }

  /** A request under way to the answerer is not yet among the requests it holds. */
  lemma RequestIsNew(r: Wire, s: Wire, out: seq<Message>, back: seq<Message>)
    requires Correlated(r, s, out, back) && out != [] && out[0].Request?
    requires r.state == Connected && s.state == Connected
    ensures out[0].block !in s.peerRequests
  {
    CarriedPop(out);
    CarriedByOne(out[0]);
    var b := out[0].block;
    hide Requests, Answers, Waiting;
    assert Requests(out)[b] >= 1;
    assert Waiting(r)[b] <= 1;
    assert multiset(s.peerRequests)[b] == 0;
  }

  lemma AnswererReads(r: Wire, s: Wire, out: seq<Message>, back: seq<Message>, got: Sent)
    requires Correlated(r, s, out, back) && out != [] && s.state == Connected && Reads(s, out[0], got)
    ensures Correlated(r, got.wire, out[1..], back + got.messages)
  {
    CarriedJoin(back, got.messages);
    CarriedPop(out);
    if r.state == Connected && out[0].Request? {
      RequestIsNew(r, s, out, back);
    }
    hide Requests, Answers, Waiting, Distinct;
    var held, next := multiset(s.peerRequests), multiset(got.wire.peerRequests);
    var first, rest := Requests([out[0]]), Requests(out[1..]);
    if got.wire.state == Connected {
      assert |Requests(out)| == |first| + |rest|;
      if r.state == Connected {
        Exchange(Waiting(r), rest, first, held, next, Answers(got.messages), Answers(back));
      }
    } else {
      assert back + got.messages == back;
    }
  }

  lemma RequesterEnds(r: Wire, s: Wire, out: seq<Message>, back: seq<Message>, v: Wire)
    requires Correlated(r, s, out, back) && v.state == Closed && v.pending == [] && v.config == r.config
    ensures Correlated(v, s, out, back)
  {
    hide Requests, Answers;
  }

  lemma AnswererEnds(r: Wire, s: Wire, out: seq<Message>, back: seq<Message>, v: Wire)
    requires Correlated(r, s, out, back) && v.state == Closed
    ensures Correlated(r, v, out, back)
  {
    hide Requests, Answers, Waiting;
  }

  // ---- Every run ----

  lemma LeftWrites(p: Pair, sent: Sent)
    requires Linked(p) && Moves(p.left, sent, multiset{}) && Sound(sent.wire)
    ensures Linked(p.(left := sent.wire, toRight := p.toRight + sent.messages))
  {
    assert |sent.wire.pending| <= sent.wire.config.maxPending;
    assert sent.wire.config == p.left.config;
    hide Moves, Correlated, Sound;
    RequesterSends(p.left, p.right, p.toRight, p.toLeft, sent);
    AnswererSends(p.right, p.left, p.toLeft, p.toRight, sent);
  }

  lemma LeftReads(p: Pair, got: Sent)
    requires Linked(p) && p.toLeft != [] && p.left.state == Connected && Reads(p.left, p.toLeft[0], got) && Sound(got.wire)
    ensures Linked(Pair(got.wire, p.right, p.toRight + got.messages, p.toLeft[1..]))
  {
    assert got.wire.config == p.left.config;
    hide Reads, Correlated, Sound;
    RequesterReads(p.left, p.right, p.toRight, p.toLeft, got);
    AnswererReads(p.right, p.left, p.toLeft, p.toRight, got);
  }

  /** Messages that reach an endpoint that is not connected are thrown away. */
  lemma Discard(p: Pair)
    requires Linked(p) && p.left.state != Connected && p.toLeft != []
    ensures Linked(p.(toLeft := p.toLeft[1..]))
  {
    assert Correlated(p.left, p.right, p.toRight, p.toLeft[1..]);
    assert Correlated(p.right, p.left, p.toLeft[1..], p.toRight);
    hide Correlated, Sound;
  }

  lemma LinkedLeft(p: Pair)
    requires Linked(p)
    ensures Sound(p.left) && p.left.config.RejectSemantics()
  {
    hide Sound, Correlated;
  }

  lemma LeftStepLinks(p: Pair, a: Action)
    requires Linked(p)
    ensures Linked(LeftStep(p, a))
  {
    hide Linked, Sound, Moves, Reads, Send, RequestBlock, Receive, Terminate;
    LinkedLeft(p);
    match a
    case Write(m) =>
      SendMoves(p.left, m, true);
      SendIsSound(p.left, m, true);
      LeftWrites(p, Send(p.left, m, true));
    case Ask(block) =>
      RequestBlockMoves(p.left, block);
      RequestBlockIsSound(p.left, block);
      LeftWrites(p, RequestBlock(p.left, block));
    case End(reason) =>
      LeftEnds(p, reason);
    case Take =>
      if p.toLeft != [] {
        ReceiveReads(p.left, p.toLeft[0]);
        ReceiveIsSound(p.left, p.toLeft[0]);
        if p.left.state == Connected {
          LeftReads(p, Receive(p.left, p.toLeft[0]));
        } else {
          Discard(p);
          assert p.toRight + [] == p.toRight;
        }
      }
  }

  lemma LeftEnds(p: Pair, reason: Failure)
    requires Linked(p)
    ensures Linked(p.(left := Terminate(p.left, reason)))
  {
    TerminateIsSound(p.left, reason);
    TerminateKeepsRemote(p.left, reason);
    var v := Terminate(p.left, reason);
    assert v.pending == [];
    hide Terminate, Sound, Correlated;
    RequesterEnds(p.left, p.right, p.toRight, p.toLeft, v);
    AnswererEnds(p.right, p.left, p.toLeft, p.toRight, v);
  }

  lemma {:induction false} PairRunLinks(p: Pair, turns: seq<Turn>)
    requires Linked(p)
    ensures Linked(PairRun(p, turns))
    decreases |turns|
  {
    if turns == [] {
    } else {
      assert Linked(Mirror(p));
      hide LeftStep, Correlated, Sound;
      if turns[0].byLeft {
        LeftStepLinks(p, turns[0].action);
        PairRunLinks(LeftStep(p, turns[0].action), turns[1..]);
      } else {
        LeftStepLinks(Mirror(p), turns[0].action);
        PairRunLinks(Mirror(LeftStep(Mirror(p), turns[0].action)), turns[1..]);
      }
    }
  }

  /** The errors by which an endpoint accuses its peer of answering or asking what it may not. */
  lemma NoAccusation(p: Pair)
    requires Linked(p) && p.toLeft != []
    ensures var failure := Receive(p.left, p.toLeft[0]).failure;
      && failure != Some(UnsolicitedPiece) && failure != Some(NeverSent)
      && (p.right.config.maxPending <= p.left.config.maxPending ==> failure != Some(TooManyRequests))
  {
    var m := p.toLeft[0];
    CarriedPop(p.toLeft);
    CarriedByOne(m);
    if p.left.state == Connected {
      assert m.Piece? || m.RejectRequest? ==> Answered(m) in Waiting(p.left);
      assert m.Request? ==> |Requests([m])| == 1 && |p.left.peerRequests| < p.right.config.maxPending;
      FailuresOfReceive(p.left, m);
      if m.Piece? || m.RejectRequest? {
        FindIsWaiting(p.left.pending, Answered(m));
      }
    }
    hide Receive, Linked, Find, Blocks;
  }

  lemma FailuresOfSend(w: Wire, block: Block)
    ensures Send(w, RejectRequest(block), true).failure !in {Some(UnsolicitedPiece), Some(NeverSent), Some(TooManyRequests)}
  {
  }

  lemma FailuresOfRequest(w: Wire, block: Block)
    ensures ApplyRequest(w, block).failure !in {Some(UnsolicitedPiece), Some(NeverSent), Some(TooManyRequests)}
  {
    hide Send, Accept;
    FailuresOfSend(w, block);
  }

  lemma FailuresOfApply(w: Wire, m: Message)
    ensures var failure := ApplyRemote(w, m).failure;
      && (failure == Some(UnsolicitedPiece) ==> m.Piece? && Find(w.pending, Answered(m)).None?)
      && (failure == Some(NeverSent) ==> m.RejectRequest? && Find(w.pending, Answered(m)).None?)
      && failure != Some(TooManyRequests)
  {
    hide ApplyRequest, ApplyChoke, RemoteFlags, Find, Settle, Dropped;
    if m.Request? {
      FailuresOfRequest(w, m.block);
    }
  }

  lemma FailuresOfReceive(w: Wire, m: Message)
    ensures var failure := Receive(w, m).failure;
      && (failure == Some(UnsolicitedPiece) ==> m.Piece? && Find(w.pending, Answered(m)).None?)
      && (failure == Some(NeverSent) ==> m.RejectRequest? && Find(w.pending, Answered(m)).None?)
      && (failure == Some(TooManyRequests) ==> m.Request? && |w.peerRequests| >= w.config.maxPending)
  {
    FailuresOfApply(CommitRemote(w, m), m);
    var checked := CheckIncoming(w, m);
    assert checked !in {Some(UnsolicitedPiece), Some(NeverSent)};
    assert checked == Some(TooManyRequests) ==> m.Request? && |w.peerRequests| >= w.config.maxPending;
    hide CheckIncoming, ApplyRemote, CommitRemote, Find, Terminate;
  }

  /**
   In every state two connected endpoints can reach, in both directions: the requests waited for are, as
   multisets, those under way, those the peer holds and those whose answer is under way; and reading the next
   message never raises an unsolicited piece, an unsent reject or, with a limit at least the peer's, a limit error.
   */
  lemma RequestsStayCorrelated(left: Config, right: Config, turns: seq<Turn>)
    requires left.negotiated == right.negotiated && left.RejectSemantics()
    ensures var p := PairRun(Start(left, right), turns);
      && (p.left.state == Connected && p.right.state == Connected ==>
            && Waiting(p.left) == Requests(p.toRight) + multiset(p.right.peerRequests) + Answers(p.toLeft)
            && Waiting(p.right) == Requests(p.toLeft) + multiset(p.left.peerRequests) + Answers(p.toRight))
      && Distinct(Waiting(p.left)) && Distinct(Waiting(p.right))
      && (p.toLeft != [] ==>
            var failure := Receive(p.left, p.toLeft[0]).failure;
            && failure != Some(UnsolicitedPiece) && failure != Some(NeverSent)
            && (right.maxPending <= left.maxPending ==> failure != Some(TooManyRequests)))
      && (p.toRight != [] ==>
            var failure := Receive(p.right, p.toRight[0]).failure;
            && failure != Some(UnsolicitedPiece) && failure != Some(NeverSent)
            && (left.maxPending <= right.maxPending ==> failure != Some(TooManyRequests)))
  {
    var start := Start(left, right);
    var p := PairRun(start, turns);
    assert Waiting(start.left) == multiset{} && Waiting(start.right) == multiset{};
    assert Linked(start);
    PairRunLinks(start, turns);
    PairRunKeepsConfigs(start, turns);
    assert Linked(Mirror(p));
    hide PairRun, Receive, Requests, Answers, Sound, Waiting, Distinct;
    if p.toLeft != [] {
      NoAccusation(p);
    }
    if p.toRight != [] {
      NoAccusation(Mirror(p));
    }
  }

  lemma LeftStepKeepsConfigs(p: Pair, a: Action)
    ensures LeftStep(p, a).left.config == p.left.config && LeftStep(p, a).right == p.right
  {
    hide Send, RequestBlock, Receive, Terminate, Accepts, CommitRemote;
    match a
    case Write(m) => SendKeepsRemote(p.left, m, true);
    case Ask(block) => RequestBlockKeepsRemote(p.left, block);
    case End(reason) => TerminateKeepsRemote(p.left, reason);
    case Take =>
      if p.toLeft != [] {
        StepKeepsRemote(p.left, Deliver(p.toLeft[0]));
      }
  }

  lemma {:induction false} PairRunKeepsConfigs(p: Pair, turns: seq<Turn>)
    ensures PairRun(p, turns).left.config == p.left.config && PairRun(p, turns).right.config == p.right.config
    decreases |turns|
  {
    hide LeftStep;
    if turns == [] {
    } else {
      if turns[0].byLeft {
        LeftStepKeepsConfigs(p, turns[0].action);
        PairRunKeepsConfigs(LeftStep(p, turns[0].action), turns[1..]);
      } else {
        LeftStepKeepsConfigs(Mirror(p), turns[0].action);
        PairRunKeepsConfigs(Mirror(LeftStep(Mirror(p), turns[0].action)), turns[1..]);
      }
    }
  }

  /** Once nothing is under way, each side waits for exactly the requests the other side holds. */
  lemma QuietEndpointsAgree(left: Config, right: Config, turns: seq<Turn>)
    requires left.negotiated == right.negotiated && left.RejectSemantics()
    ensures var p := PairRun(Start(left, right), turns);
      p.toRight == [] && p.toLeft == [] && p.left.state == Connected && p.right.state == Connected ==>
        Waiting(p.left) == multiset(p.right.peerRequests) && Waiting(p.right) == multiset(p.left.peerRequests)
  {
    RequestsStayCorrelated(left, right, turns);
    hide PairRun, Receive, Waiting, Distinct;
  }

  lemma UnsolicitedFails(w: Wire, m: Message)
    requires w.config.RejectSemantics() && m.Piece? && Find(w.pending, Answered(m)).None?
    ensures ApplyRemote(w, m) == Sent(w, [], Some(UnsolicitedPiece))
  {
    hide Find, Settle;
  }

  lemma ExpiredIsGone(w: Wire, block: Block)
    requires Distinct(Waiting(w))
    ensures Find(Without(w.pending, block), block).None?
  {
    FindIsWaiting(w.pending, block);
    FindIsWaiting(Without(w.pending, block), block);
    hide Find, Without, Blocks;
  }

  /**
   Why timeouts are left out above: an answer that passes every check, but comes after its request expired, ends
   the session exactly when reject semantics are in force; otherwise it is taken and changes no request.
   */
  lemma LateAnswerEndsSession(w: Wire, block: Block, data: Bytes)
    requires w.state == Connected && Distinct(Waiting(w)) && |data| == block.length
    requires CheckIncoming(w, Piece(block.piece, block.begin, data)).None?
    ensures var expired := Settle(w, block, Failed(TimedOut));
      var late := Receive(expired, Piece(block.piece, block.begin, data));
      && late.failure == (if w.config.RejectSemantics() then Some(UnsolicitedPiece) else None)
      && (late.wire.state == Closed <==> w.config.RejectSemantics())
      && (!w.config.RejectSemantics() ==> late.wire.pending == expired.pending && late.wire.settled == expired.settled)
  {
    hide Find, Without, Blocks, Settle, CheckIncoming, Terminate, Waiting, Distinct;
    var expired, m := Settle(w, block, Failed(TimedOut)), Piece(block.piece, block.begin, data);
    ExpiredKeeps(w, block, m);
    ExpiredIsGone(w, block);
    var committed := CommitRemote(expired, m);
    if w.config.RejectSemantics() {
      UnsolicitedFails(committed, m);
      TerminatedIsClosed(committed, Some(UnsolicitedPiece));
    } else {
      NothingToSettle(committed, block, Delivered(data));
    }
  }

  lemma ExpiredKeeps(w: Wire, block: Block, m: Message)
    requires m.Piece?
    ensures var expired := Settle(w, block, Failed(TimedOut));
      && expired.pending == Without(w.pending, block) && expired.config == w.config && expired.state == w.state
      && CheckIncoming(expired, m) == CheckIncoming(w, m)
  {
    hide Find, Without;
  }

  lemma {:induction false} NothingToSettle(w: Wire, block: Block, outcome: Outcome)
    requires Find(w.pending, block).None?
    ensures Settle(w, block, outcome) == w
  {
    NotThere(w.pending, block);
    assert w.settled + [] == w.settled;
  }

  lemma {:induction false} NotThere(pending: seq<Entry>, block: Block)
    requires Find(pending, block).None?
    ensures Without(pending, block) == pending
  {
    if pending == [] {
    } else {
      NotThere(pending[1..], block);
      assert pending == [pending[0]] + pending[1..];
    }
  }

  lemma TerminatedIsClosed(w: Wire, reason: Option<Failure>)
    ensures reason.Some? ==> Terminate(w, reason.value).state == Closed
  {
    if reason.Some? {
      SettleAllState(w.(state := Closed), Blocks(w.pending), Failed(reason.value));
    }
  }

  lemma {:induction false} SettleAllState(w: Wire, blocks: seq<Block>, outcome: Outcome)
    ensures SettleAll(w, blocks, outcome).state == w.state
    decreases |blocks|
  {
    if blocks == [] {
    } else {
      SettleAllState(Settle(w, blocks[0], outcome), blocks[1..], outcome);
    }
  }
}
