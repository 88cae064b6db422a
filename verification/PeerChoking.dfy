/**
 Choking under the Fast extension, and requests that arrive while choking.

 A choke under Fast answers with a reject each request it holds that is not allowed fast. In every reachable
 state the requests held are therefore distinct and answerable, and while the session chokes they are all
 allowed fast. A request that arrives meanwhile and is not allowed fast is never held, so the
 reject meant for it fails the check on outgoing messages and the session closes instead. Each operation is one step
 here; PeerOverlaps lets them overlap.
 */
module PeerChoking {
  import opened Results
  import opened PeerSession
  import opened PeerRuns

  /** A reject of this request passes every check on its bounds and its frame. */
  predicate Rejectable(config: Config, block: Block) {
    BlockFits(config, block) && FitsUint32(block) && 13 <= config.maxMessageLength
  }

  predicate Distinct(blocks: seq<Block>) {
    forall i, j :: 0 <= i < j < |blocks| ==> blocks[i] != blocks[j]
  }

  /** The requests held are distinct and answerable, and while choking under Fast all are allowed fast. */
  predicate Tidy(w: Wire) {
    && Distinct(w.peerRequests)
    && (forall b <- w.peerRequests :: Rejectable(w.config, b))
    && (Fast in w.config.negotiated && w.localChoking ==> forall b <- w.peerRequests :: b.piece in w.localAllowedFast)
  }

  function AllowedFastOnly(blocks: seq<Block>, allowed: set<nat>): seq<Block> {
    if blocks == [] then []
    else (if blocks[0].piece in allowed then [blocks[0]] else []) + AllowedFastOnly(blocks[1..], allowed)
  }

  function RejectsOf(blocks: seq<Block>, allowed: set<nat>): seq<Message> {
    if blocks == [] then []
    else (if blocks[0].piece in allowed then [] else [RejectRequest(blocks[0])]) + RejectsOf(blocks[1..], allowed)
  }

  lemma {:induction false} DropMiddle(before: seq<Block>, block: Block, behind: seq<Block>)
    requires block !in before
    ensures Dropped(before + [block] + behind, block) == before + behind
  {
    var all := before + [block] + behind;
    if before == [] {
      assert all[1..] == behind;
    } else {
      assert all[1..] == before[1..] + [block] + behind;
      DropMiddle(before[1..], block, behind);
    }
  }

  lemma RejectSucceeds(w: Wire, before: seq<Block>, block: Block, behind: seq<Block>)
    requires w.state == Connected && Fast in w.config.negotiated && !w.localOpen && Rejectable(w.config, block)
    requires w.peerRequests == before + [block] + behind && block !in before
    ensures SendOne(w, RejectRequest(block), true) ==
      Sent(w.(peerRequests := before + behind), [RejectRequest(block)], None)
  {
    DropMiddle(before, block, behind);
    assert w.peerRequests[|before|] == block;
    hide BlockFits, Dropped;
  }

  lemma {:induction false} RejectAllSucceeds(w: Wire, before: seq<Block>, requests: seq<Block>)
    requires w.state == Connected && Fast in w.config.negotiated && !w.localOpen
    requires w.peerRequests == before + requests && Distinct(before + requests)
    requires forall b <- requests :: Rejectable(w.config, b)
    ensures RejectAll(w, requests) ==
      Sent(w.(peerRequests := before + AllowedFastOnly(requests, w.localAllowedFast)),
           RejectsOf(requests, w.localAllowedFast), None)
    decreases |requests|
  {
    hide SendOne, Rejectable, Distinct;
    if requests == [] {
      assert before + requests == before && before + AllowedFastOnly(requests, w.localAllowedFast) == before;
    } else {
      var block, rest := requests[0], requests[1..];
      assert before + requests == before + [block] + rest;
      if block.piece in w.localAllowedFast {
        RejectAllSucceeds(w, before + [block], rest);
        assert before + [block] + AllowedFastOnly(rest, w.localAllowedFast) == before + AllowedFastOnly(requests, w.localAllowedFast);
      } else {
        DistinctWithout(before, block, rest);
        RejectSucceeds(w, before, block, rest);
        RejectAllSucceeds(w.(peerRequests := before + rest), before, rest);
        assert before + AllowedFastOnly(rest, w.localAllowedFast) == before + AllowedFastOnly(requests, w.localAllowedFast);
      }
    }
  }

  lemma DistinctWithout(before: seq<Block>, block: Block, behind: seq<Block>)
    requires Distinct(before + [block] + behind)
    ensures Distinct(before + behind) && block !in before
  {
    var all, less := before + [block] + behind, before + behind;
    assert all[|before|] == block;
    forall i | 0 <= i < |before| ensures before[i] != block {
      assert all[i] == before[i];
    }
    forall i, j | 0 <= i < j < |less| ensures less[i] != less[j] {
      var i', j' := if i < |before| then i else i + 1, if j < |before| then j else j + 1;
      assert less[i] == all[i'] && less[j] == all[j'];
    }
  }

  lemma {:induction false} AllowedAreSome(blocks: seq<Block>, allowed: set<nat>)
    requires Distinct(blocks)
    ensures Distinct(AllowedFastOnly(blocks, allowed))
    ensures forall b <- AllowedFastOnly(blocks, allowed) :: b in blocks && b.piece in allowed
  {
    if blocks == [] {
    } else {
      AllowedAreSome(blocks[1..], allowed);
      assert blocks[0] !in blocks[1..];
    }
  }

  /**
   With the Fast extension a choke that is written is followed by a reject, in order of arrival, for every
   request held whose piece is not allowed fast; exactly the others stay, and nothing else changes.
   */
  lemma ChokeRejectsTheRest(w: Wire)
    requires Tidy(w) && Fast in w.config.negotiated && CheckOutgoing(w, Choke).None? && w.config.maxMessageLength >= 1
    ensures Send(w, Choke, true) ==
      Sent(w.(localChoking := true, localOpen := false,
              peerRequests := AllowedFastOnly(w.peerRequests, w.localAllowedFast)),
           [Choke] + RejectsOf(w.peerRequests, w.localAllowedFast), None)
  {
    var choked := w.(localChoking := true, localOpen := false);
    assert SendOne(w, Choke, true) == Sent(choked, [Choke], None);
    assert [] + w.peerRequests == w.peerRequests;
    hide SendOne, Rejectable;
    RejectAllSucceeds(choked, [], w.peerRequests);
    assert [] + AllowedFastOnly(w.peerRequests, w.localAllowedFast) == AllowedFastOnly(w.peerRequests, w.localAllowedFast);
  }

  /** Without the Fast extension a choke under BEP 52 is written, but the first reject it owes fails. */
  lemma ChokeWithoutFast(w: Wire)
    requires V2 in w.config.negotiated && Fast !in w.config.negotiated
    requires CheckOutgoing(w, Choke).None? && CheckFrame(w.config, Choke).None?
    ensures Send(w, Choke, true) ==
      Sent(w.(localChoking := true, localOpen := false), [Choke], if w.peerRequests == [] then None else Some(NotNegotiated))
  {
    var choked := w.(localChoking := true, localOpen := false);
    assert SendOne(w, Choke, true) == Sent(choked, [Choke], None);
    if w.peerRequests != [] {
      assert SendOne(choked, RejectRequest(w.peerRequests[0]), true) == Sent(choked, [], Some(NotNegotiated));
    }
  }

  /**
   In every reachable state a choke that can be written, and with which no other operation overlaps, fails exactly
   when it owes a reject that needs the Fast extension. TurnFailsExactly in PeerOverlaps is about chokes that overlap.
   */
  lemma ChokeFailsExactly(config: Config, events: seq<Event>)
    requires var w := Run(Fresh(config), events); CheckOutgoing(w, Choke).None? && CheckFrame(config, Choke).None?
    ensures var w := Run(Fresh(config), events);
      Send(w, Choke, true).failure.Some? <==>
        w.peerRequests != [] && V2 in config.negotiated && Fast !in config.negotiated
  {
    hide Run, Send, Tidy;
    FreshIsTidy(config);
    var w := Run(Fresh(config), events);
    RunIsTidy(Fresh(config), events);
    RunKeepsConfig(Fresh(config), events);
    if Fast in config.negotiated {
      ChokeRejectsTheRest(w);
    } else if V2 in config.negotiated {
      ChokeWithoutFast(w);
    } else {
      PlainChokeSucceeds(w);
    }
  }

  lemma FreshIsTidy(config: Config)
    ensures Tidy(Fresh(config))
  {
  }

  lemma PlainChokeSucceeds(w: Wire)
    requires !w.config.RejectSemantics() && CheckOutgoing(w, Choke).None? && CheckFrame(w.config, Choke).None?
    ensures Send(w, Choke, true).failure.None?
  {
  }

  /** It does happen: a session that negotiated BEP 52 alone, unchoked, holding one request. */
  lemma ChokeMayFail(config: Config)
    requires config.negotiated == {V2} && config.pieceCount.None? && config.pieceLength.None?
    requires config.maxPending >= 1 && config.maxBlockLength >= 1 && config.maxMessageLength >= 13
    ensures var w := Run(Fresh(config), [HandshakeDone, SendMessage(Unchoke), Deliver(Request(Block(0, 0, 1)))]);
      w.peerRequests == [Block(0, 0, 1)] && CheckOutgoing(w, Choke).None? && Send(w, Choke, true).failure == Some(NotNegotiated)
  {
    hide Step, Send, CheckOutgoing;
    var request := Deliver(Request(Block(0, 0, 1)));
    var unchoked := Fresh(config).(state := Connected, localChoking := false, localOpen := false);
    var w := unchoked.(remoteOpen := false, peerRequests := [Block(0, 0, 1)]);
    UnchokedAtOnce(config);
    HoldsFirst(unchoked, Block(0, 0, 1));
    RunOfThree(Fresh(config), HandshakeDone, SendMessage(Unchoke), request);
    ChokeIsSendable(w);
    ChokeWithoutFast(w);
  }

  lemma UnchokedAtOnce(config: Config)
    requires config.negotiated == {V2} && config.maxMessageLength >= 1
    ensures Step(Step(Fresh(config), HandshakeDone), SendMessage(Unchoke)) ==
      Fresh(config).(state := Connected, localChoking := false, localOpen := false)
  {
  }

  lemma HoldsFirst(w: Wire, block: Block)
    requires w.state == Connected && !w.localChoking && w.peerRequests == [] && CheckIncoming(w, Request(block)).None?
    ensures Step(w, Deliver(Request(block))) == w.(remoteOpen := false, peerRequests := [block])
  {
  }

  lemma ChokeIsSendable(w: Wire)
    requires w.state == Connected && Fast !in w.config.negotiated && w.config.maxMessageLength >= 1
    ensures CheckOutgoing(w, Choke).None? && CheckFrame(w.config, Choke).None?
  {
  }

  lemma RunOfThree(w: Wire, a: Event, b: Event, c: Event)
    ensures Run(w, [a, b, c]) == Step(Step(Step(w, a), b), c)
  {
    hide Step;
    assert [a, b, c][1..] == [b, c] && [b, c][1..] == [c] && [c][1..] == [];
    var v := Step(Step(w, a), b);
    assert Run(v, [c]) == Run(Step(v, c), []) == Step(v, c);
    assert Run(w, [a, b, c]) == Run(Step(w, a), [b, c]) == Run(v, [c]);
  }

  // ---- Every run is tidy ----

  /** Requests only leave, the allowed-fast set only grows, and choking does not begin. */
  predicate Eases(w: Wire, v: Wire) {
    && v.config == w.config && w.localAllowedFast <= v.localAllowedFast && (v.localChoking ==> w.localChoking)
    && (Distinct(w.peerRequests) ==> Distinct(v.peerRequests)) && forall b <- v.peerRequests :: b in w.peerRequests
  }

  lemma EasedIsTidy(w: Wire, v: Wire)
    requires Tidy(w) && Eases(w, v)
    ensures Tidy(v)
  {
    hide Distinct, Rejectable;
  }

  lemma {:induction false} DroppedEases(blocks: seq<Block>, block: Block)
    ensures forall b <- Dropped(blocks, block) :: b in blocks
    ensures Distinct(blocks) ==> Distinct(Dropped(blocks, block))
  {
    if blocks == [] {
    } else {
      DroppedEases(blocks[1..], block);
      if Distinct(blocks) {
        assert blocks[0] !in blocks[1..];
      }
    }
  }

  lemma ApplyLocalEases(w: Wire, m: Message)
    requires !m.Choke?
    ensures Eases(w, ApplyLocal(w, m))
  {
    hide Settle, Dropped, Distinct, LocalFlags;
    if m.Piece? || m.RejectRequest? {
      DroppedEases(w.peerRequests, Answered(m));
    }
  }

  lemma SendOneEases(w: Wire, m: Message, tracked: bool)
    requires !m.Choke?
    ensures Eases(w, SendOne(w, m, tracked).wire)
  {
    hide Eases, ApplyLocal, CommitLocal, SendOne;
    PeerRuns.SendOneApplies(w, m, tracked);
    var before := if tracked && m.Request? then w.(pending := w.pending + [Entry(m.block, None)]) else w;
    SameEases(w, w);
    SameEases(w, before);
    CommitLocalEases(before, m);
    ApplyLocalEases(CommitLocal(before, m), m);
    EasesOn(w, before, CommitLocal(before, m));
    EasesOn(w, CommitLocal(before, m), ApplyLocal(CommitLocal(before, m), m));
  }

  lemma SameEases(w: Wire, v: Wire)
    requires v.config == w.config && v.localAllowedFast == w.localAllowedFast && v.localChoking == w.localChoking
    requires v.peerRequests == w.peerRequests
    ensures Eases(w, v)
  {
    hide Distinct;
  }

  lemma CommitLocalEases(w: Wire, m: Message)
    ensures Eases(w, CommitLocal(w, m))
  {
    hide Distinct;
  }

  lemma EasesOn(w: Wire, u: Wire, v: Wire)
    requires Eases(w, u) && Eases(u, v)
    ensures Eases(w, v)
  {
    hide Distinct;
  }

  lemma {:induction false} RejectAllEases(w: Wire, requests: seq<Block>)
    ensures Eases(w, RejectAll(w, requests).wire)
    decreases |requests|
  {
    hide SendOne, Distinct;
    if requests == [] {
    } else if Fast in w.config.negotiated && requests[0].piece in w.localAllowedFast {
      RejectAllEases(w, requests[1..]);
    } else {
      SendOneEases(w, RejectRequest(requests[0]), true);
      RejectAllEases(SendOne(w, RejectRequest(requests[0]), true).wire, requests[1..]);
    }
  }

  lemma FastChokeIsTidy(w: Wire)
    requires Tidy(w) && Fast in w.config.negotiated && SendOne(w, Choke, true).failure.None?
    ensures Tidy(Send(w, Choke, true).wire)
  {
    assert CheckOutgoing(w, Choke).None? && w.config.maxMessageLength >= 1;
    hide SendOne, RejectAll, Send, AllowedFastOnly, Rejectable, CheckOutgoing, Distinct;
    ChokeRejectsTheRest(w);
    AllowedAreSome(w.peerRequests, w.localAllowedFast);
  }

  lemma PlainChokeIsTidy(w: Wire)
    requires Tidy(w) && Fast !in w.config.negotiated && SendOne(w, Choke, true).failure.None?
    ensures Tidy(Send(w, Choke, true).wire)
  {
    var one := SendOne(w, Choke, true).wire;
    assert Tidy(one);
    hide Tidy, Eases, SendOne, RejectAll;
    RejectAllEases(one, one.peerRequests);
    EasedIsTidy(one, RejectAll(one, one.peerRequests).wire);
  }

  lemma SendIsTidy(w: Wire, m: Message, tracked: bool)
    requires Tidy(w)
    ensures Tidy(Send(w, m, tracked).wire)
  {
    var one := SendOne(w, m, tracked);
    assert one.failure.Some? ==> one.wire == w;
    assert m.Choke? ==> one == SendOne(w, Choke, true);
    hide Tidy, Eases, SendOne;
    if !m.Choke? {
      SendOneEases(w, m, tracked);
      EasedIsTidy(w, one.wire);
    } else if one.failure.None? {
      hide RejectAll;
      if Fast in w.config.negotiated {
        FastChokeIsTidy(w);
      } else {
        PlainChokeIsTidy(w);
      }
    }
  }

  lemma RequestBlockIsTidy(w: Wire, block: Block)
    requires Tidy(w)
    ensures Tidy(RequestBlock(w, block).wire)
  {
    var asked := w.(pending := w.pending + [Entry(block, Some(|w.issued|))], issued := w.issued + [block]);
    assert Tidy(asked);
    SendIsTidy(asked, Request(block), false);
    hide Send, Rejectable, Distinct, Find, Without, BlockFits;
  }

  lemma {:induction false} SettleAllIsTidy(w: Wire, blocks: seq<Block>, outcome: Outcome)
    requires Tidy(w)
    ensures Tidy(SettleAll(w, blocks, outcome))
    decreases |blocks|
  {
    hide Rejectable, Distinct, Find, Without;
    if blocks == [] {
    } else {
      SettleAllIsTidy(Settle(w, blocks[0], outcome), blocks[1..], outcome);
    }
  }

  lemma TerminateIsTidy(w: Wire, reason: Failure)
    requires Tidy(w)
    ensures Tidy(Terminate(w, reason))
  {
  }

  lemma AcceptIsTidy(w: Wire, block: Block)
    requires Tidy(w) && Rejectable(w.config, block)
    requires Fast in w.config.negotiated && w.localChoking ==> block.piece in w.localAllowedFast
    ensures Tidy(Accept(w, block))
  {
    hide Rejectable;
  }

  lemma ApplyRequestIsTidy(w: Wire, block: Block)
    requires Tidy(w) && Rejectable(w.config, block)
    ensures Tidy(ApplyRequest(w, block).wire)
  {
    assert !RefusesAtOnce(w, block) && Fast in w.config.negotiated && w.localChoking ==> block.piece in w.localAllowedFast;
    hide Tidy, Send, Accept, Rejectable;
    if RefusesAtOnce(w, block) {
      SendIsTidy(w, RejectRequest(block), true);
    } else {
      AcceptIsTidy(w, block);
    }
  }

  lemma ChokedIsTidy(w: Wire)
    requires Tidy(w)
    ensures Tidy(ApplyChoke(w))
  {
    hide Rejectable, Distinct, SettleAll;
    SettleAllIsTidy(w.(remoteChoking := true), Blocks(w.pending), Failed(Choked));
  }

  lemma AnsweredIsTidy(w: Wire, m: Message)
    requires Tidy(w) && (m.Piece? || m.RejectRequest?)
    ensures Tidy(ApplyAnswer(w, m).wire)
  {
    hide Rejectable, Distinct, Find, Settle;
  }

  lemma ApplyRemoteIsTidy(w: Wire, m: Message)
    requires Tidy(w) && (m.Request? ==> Rejectable(w.config, m.block))
    ensures Tidy(ApplyRemote(w, m).wire)
  {
    hide Rejectable, Distinct, ApplyRequest, ApplyAnswer, ApplyChoke, RemoteFlags, Dropped;
    if m.Request? {
      ApplyRequestIsTidy(w, m.block);
    } else if m.Choke? {
      ChokedIsTidy(w);
    } else if m.Piece? || m.RejectRequest? {
      AnsweredIsTidy(w, m);
    } else if m.Cancel? {
      DroppedEases(w.peerRequests, m.block);
    }
  }

  lemma ReceiveIsTidy(w: Wire, m: Message)
    requires Tidy(w)
    ensures Tidy(Receive(w, m).wire)
  {
    assert CheckIncoming(w, m).None? && m.Request? ==> Rejectable(w.config, m.block);
    assert Tidy(CommitRemote(w, m));
    hide Tidy, ApplyRemote, CheckIncoming, CommitRemote, Terminate, Rejectable;
    if w.state == Connected {
      if CheckIncoming(w, m).Some? {
        TerminateIsTidy(w, CheckIncoming(w, m).value);
      } else {
        ApplyRemoteIsTidy(CommitRemote(w, m), m);
        var applied := ApplyRemote(CommitRemote(w, m), m);
        if applied.failure.Some? {
          TerminateIsTidy(applied.wire, applied.failure.value);
        }
      }
    }
  }

  lemma StepIsTidy(w: Wire, e: Event)
    requires Tidy(w)
    ensures Tidy(Step(w, e))
  {
    hide Distinct, Rejectable, Terminate, Send, RequestBlock, Receive, Find, Without;
    match e
    case HandshakeDone =>
    case SendMessage(m) => SendIsTidy(w, m, true);
    case RequestPromise(block) => RequestBlockIsTidy(w, block);
    case Deliver(m) => ReceiveIsTidy(w, m);
    case Expire(block, reason) =>
    case Close(reason) => TerminateIsTidy(w, reason);
  }

  lemma {:induction false} RunIsTidy(w: Wire, events: seq<Event>)
    requires Tidy(w)
    ensures Tidy(Run(w, events))
    decreases |events|
  {
    hide Step, Tidy;
    if events == [] {
    } else {
      StepIsTidy(w, events[0]);
      RunIsTidy(Step(w, events[0]), events[1..]);
    }
  }

  // ---- Requests that arrive while choking ----

  lemma RefusalFails(w: Wire, block: Block)
    requires Tidy(w) && w.state == Connected && RefusesAtOnce(w, block)
    ensures Send(w, RejectRequest(block), true).failure.Some?
  {
    hide Rejectable, Distinct;
  }

  /**
   In every reachable state an acceptable request is admitted, or else, when this side is choking and the piece
   is not allowed fast, the attempt to reject it fails and closes the session: no reject is ever written. Operations
   do not overlap here; RefusalFailsExactly in PeerOverlaps says what else can happen while a choke is under way.
   */
  lemma RequestWhileChoking(config: Config, events: seq<Event>, block: Block)
    requires Accepts(Run(Fresh(config), events), Request(block))
    ensures var w := Run(Fresh(config), events);
      var got := Receive(w, Request(block));
      && got.messages == []
      && (got.failure.Some? <==> RefusesAtOnce(w, block))
      && (got.failure.None? ==> block in got.wire.peerRequests)
      && (got.failure.Some? ==> got.wire.state == Closed)
  {
    var w := Run(Fresh(config), events);
    RunIsTidy(Fresh(config), events);
    RunIsSound(Fresh(config), events);
    AcceptableRequest(w, block);
  }

  /** It does happen: right after the handshake, with Fast, a peer that has nothing asks for a block. */
  lemma RequestMayBeRefused(config: Config)
    requires config.negotiated == {Fast} && config.pieceCount.None? && config.pieceLength.None?
    requires config.maxPending >= 1 && config.maxBlockLength >= 1 && config.maxMessageLength >= 13
    ensures var w := Run(Fresh(config), [HandshakeDone, Deliver(HaveNone)]);
      Accepts(w, Request(Block(0, 0, 1))) && RefusesAtOnce(w, Block(0, 0, 1))
  {
    var events := [HandshakeDone, Deliver(HaveNone)];
    var w1 := Step(Fresh(config), events[0]);
    var w2 := Step(w1, events[1]);
    assert events[1..][0] == events[1] && events[1..][1..] == [];
  }

  lemma AcceptableRequest(w: Wire, block: Block)
    requires Tidy(w) && Sound(w) && Accepts(w, Request(block))
    ensures var got := Receive(w, Request(block));
      && got.messages == []
      && (got.failure.Some? <==> RefusesAtOnce(w, block))
      && (got.failure.None? ==> block in got.wire.peerRequests)
      && (got.failure.Some? ==> got.wire.state == Closed)
  {
    var committed := CommitRemote(w, Request(block));
    assert Tidy(committed) && Sound(committed) && RefusesAtOnce(committed, block) == RefusesAtOnce(w, block);
    assert committed.state == Connected && |committed.peerRequests| < committed.config.maxPending by {
      assert CheckIncoming(w, Request(block)).None?;
    }
    hide Tidy, Sound, ApplyRemote, CommitRemote, CheckIncoming, Terminate;
    if RefusesAtOnce(w, block) {
      RefusalFails(committed, block);
      RefusalWritesNothing(committed, block);
      RequestIsSound(committed, block);
      var applied := ApplyRequest(committed, block);
      hide Send;
      TerminateIsSound(applied.wire, applied.failure.value);
    }
  }

  lemma RefusalWritesNothing(w: Wire, block: Block)
    requires Send(w, RejectRequest(block), true).failure.Some?
    ensures Send(w, RejectRequest(block), true).messages == []
  {
  }
}
