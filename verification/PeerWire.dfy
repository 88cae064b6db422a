/** The peer-wire session object: mutable fields whose every method performs one operation of PeerSession. */
module PeerWires {
  import opened Results
  import opened PeerSession

  /** The result of sending more messages behind those already sent. */
  ghost function Behind(messages: seq<Message>, sent: Sent): Sent {
    sent.(messages := messages + sent.messages)
  }

  lemma BehindTwice(a: seq<Message>, b: seq<Message>, sent: Sent)
    ensures Behind(a, Behind(b, sent)) == Behind(a + b, sent)
  {
    assert a + (b + sent.messages) == a + b + sent.messages;
  }

  class PeerWire {
    const config: Config
    var state: State
    var localChoking: bool
    var localInterested: bool
    var remoteChoking: bool
    var remoteInterested: bool
    var localAllowedFast: set<nat>
    var remoteAllowedFast: set<nat>
    var pendingRequests: seq<Entry>
    var peerRequests: seq<Block>
    var localAvailabilityOpen: bool
    var localAvailabilityDeclared: bool
    var remoteAvailabilityOpen: bool
    var remoteAvailabilityDeclared: bool
    /** The promises handed out and the settling calls made on them. */
    var issued: seq<Block>
    var settled: seq<Settlement>

    function View(): Wire
      reads this
    {
      Wire(config, state, localChoking, localInterested, remoteChoking, remoteInterested, localAllowedFast,
           remoteAllowedFast, pendingRequests, peerRequests, localAvailabilityOpen, localAvailabilityDeclared,
           remoteAvailabilityOpen, remoteAvailabilityDeclared, issued, settled)
    }

    constructor (config: Config)
      ensures View() == Fresh(config)
    {
      this.config := config;
      state := Handshaking;
      localChoking, localInterested, remoteChoking, remoteInterested := true, false, true, false;
      localAllowedFast, remoteAllowedFast := {}, {};
      pendingRequests, peerRequests := [], [];
      localAvailabilityOpen, localAvailabilityDeclared := true, false;
      remoteAvailabilityOpen, remoteAvailabilityDeclared := true, false;
      issued, settled := [], [];
    }

    // ---- Pending request lifecycle ----

    method RemoveBlockRequest(block: Block, outcome: Outcome)
      modifies this`pendingRequests, this`settled
      ensures View() == Settle(old(View()), block, outcome)
    {
      var entry := Find(pendingRequests, block);
      pendingRequests := Without(pendingRequests, block);
      if entry.Some? && entry.value.ticket.Some? {
        settled := settled + [Settlement(entry.value.ticket.value, outcome)];
      }
    }

    method RemoveAll(blocks: seq<Block>, outcome: Outcome)
      modifies this`pendingRequests, this`settled
      ensures View() == SettleAll(old(View()), blocks, outcome)
    {
      hide Settle;
      ghost var before := View();
      assert blocks[0..] == blocks;
      for k := 0 to |blocks|
        invariant SettleAll(View(), blocks[k..], outcome) == SettleAll(before, blocks, outcome)
      {
        assert blocks[k..][0] == blocks[k] && blocks[k..][1..] == blocks[k + 1..];
        RemoveBlockRequest(blocks[k], outcome);
      }
    }

    method Terminate(reason: Failure)
      modifies this`state, this`pendingRequests, this`settled, this`peerRequests
      ensures View() == PeerSession.Terminate(old(View()), reason)
    {
      if state == Closed {
        return;
      }
      hide SettleAll;
      state := Closed;
      RemoveAll(Blocks(pendingRequests), Failed(reason));
      peerRequests := [];
    }

    // ---- Sending ----

    method CommitLocalAvailability(m: Message)
      modifies this`localAvailabilityOpen, this`localAvailabilityDeclared
      ensures View() == CommitLocal(old(View()), m)
    {
      if !Unordered(m) {
        localAvailabilityDeclared := localAvailabilityDeclared || Declares(m);
        localAvailabilityOpen := false;
      }
    }

    method ApplyLocalFlags(m: Message)
      modifies this`localChoking, this`localInterested, this`localAllowedFast
      ensures View() == LocalFlags(old(View()), m)
    {
      if m.Choke? || m.Unchoke? {
        localChoking := m.Choke?;
      } else if m.Interested? || m.NotInterested? {
        localInterested := m.Interested?;
      } else if m.AllowedFast? {
        localAllowedFast := localAllowedFast + {m.piece};
      }
    }

    method ApplyLocalState(m: Message)
      modifies this`localChoking, this`localInterested, this`localAllowedFast
      modifies this`peerRequests, this`pendingRequests, this`settled
      ensures View() == ApplyLocal(old(View()), m)
    {
      hide Settle, Dropped, LocalFlags;
      if m.Piece? || m.RejectRequest? {
        peerRequests := Dropped(peerRequests, Answered(m));
      } else if m.Cancel? {
        if !config.RejectSemantics() {
          RemoveBlockRequest(m.block, Failed(Cancelled));
        }
      } else {
        ApplyLocalFlags(m);
      }
    }

    method SendMessage(m: Message, trackRequests: bool) returns (messages: seq<Message>, failure: Option<Failure>)
      modifies this`localAvailabilityOpen, this`localAvailabilityDeclared, this`localChoking, this`localInterested
      modifies this`localAllowedFast, this`peerRequests, this`pendingRequests, this`settled
      ensures SendOne(old(View()), m, trackRequests) == Sent(View(), messages, failure)
    {
      hide CheckOutgoing, ApplyLocal, CommitLocal;
      messages := [];
      failure := CheckOutgoing(View(), m);
      if failure.Some? {
        return;
      }
      var tracked := trackRequests && m.Request?;
      if tracked {
        if Find(pendingRequests, m.block).Some? {
          failure := Some(AlreadyPending);
          return;
        }
        if |pendingRequests| >= config.maxPending {
          failure := Some(TooManyPending);
          return;
        }
      }
      failure := CheckFrame(config, m);
      if failure.Some? {
        return;
      }
      if tracked {
        pendingRequests := pendingRequests + [Entry(m.block, None)];
      }
      messages := [m];
      CommitLocalAvailability(m);
      ApplyLocalState(m);
    }

    method RejectPeerRequests() returns (messages: seq<Message>, failure: Option<Failure>)
      modifies this`localAvailabilityOpen, this`localAvailabilityDeclared, this`localChoking, this`localInterested
      modifies this`localAllowedFast, this`peerRequests, this`pendingRequests, this`settled
      ensures RejectAll(old(View()), old(peerRequests)) == Sent(View(), messages, failure)
    {
      hide SendOne;
      messages, failure := [], None;
      var requests := peerRequests;
      ghost var whole := RejectAll(View(), requests);
      assert requests[0..] == requests;
      var k := 0;
      while k < |requests| && failure.None?
        invariant 0 <= k <= |requests|
        invariant failure.None? ==> whole == Behind(messages, RejectAll(View(), requests[k..]))
        invariant failure.Some? ==> whole == Sent(View(), messages, failure)
        decreases |requests| - k, failure.None?
      {
        var request := requests[k];
        assert requests[k..][0] == request && requests[k..][1..] == requests[k + 1..];
        k := k + 1;
        if !(Fast in config.negotiated && request.piece in localAllowedFast) {
          ghost var before, now := messages, View();
          var sent;
          sent, failure := SendMessage(RejectRequest(request), true);
          messages := messages + sent;
          BehindTwice(before, sent, RejectAll(View(), requests[k..]));
        }
      }
    }

    method Send(m: Message, trackRequests: bool) returns (messages: seq<Message>, failure: Option<Failure>)
      modifies this`localAvailabilityOpen, this`localAvailabilityDeclared, this`localChoking, this`localInterested
      modifies this`localAllowedFast, this`peerRequests, this`pendingRequests, this`settled
      ensures PeerSession.Send(old(View()), m, trackRequests) == Sent(View(), messages, failure)
    {
      hide SendOne, RejectAll;
      messages, failure := SendMessage(m, trackRequests);
      if failure.None? && m.Choke? && config.RejectSemantics() {
        var rejects;
        rejects, failure := RejectPeerRequests();
        messages := messages + rejects;
      }
    }

    method RequestBlock(block: Block) returns (messages: seq<Message>, failure: Option<Failure>)
      modifies this
      ensures PeerSession.RequestBlock(old(View()), block) == Sent(View(), messages, failure)
    {
      hide PeerSession.Send, Settle, Find, BlockFits;
      messages := [];
      if !BlockFits(config, block) {
        failure := Some(OutOfBounds);
        return;
      }
      if Find(pendingRequests, block).Some? {
        failure := Some(AlreadyPending);
        return;
      }
      if |pendingRequests| >= config.maxPending {
        failure := Some(TooManyPending);
        return;
      }
      pendingRequests := pendingRequests + [Entry(block, Some(|issued|))];
      issued := issued + [block];
      messages, failure := Send(Request(block), false);
      if failure.Some? {
        RemoveBlockRequest(block, Failed(failure.value));
      }
    }

    // ---- Receiving ----

    method ApplyPeerRequest(block: Block) returns (messages: seq<Message>, failure: Option<Failure>)
      modifies this
      ensures ApplyRequest(old(View()), block) == Sent(View(), messages, failure)
    {
      hide PeerSession.Send;
      messages, failure := [], None;
      if localChoking && config.RejectSemantics() && !(Fast in config.negotiated && block.piece in localAllowedFast) {
        messages, failure := Send(RejectRequest(block), true);
      } else if block !in peerRequests {
        peerRequests := peerRequests + [block];
      }
    }

    method ApplyAnswer(m: Message) returns (failure: Option<Failure>)
      requires m.Piece? || m.RejectRequest?
      modifies this`pendingRequests, this`settled
      ensures PeerSession.ApplyAnswer(old(View()), m) == Sent(View(), [], failure)
    {
      hide Settle, Find;
      failure := None;
      var pending := Find(pendingRequests, Answered(m));
      if m.RejectRequest? {
        if pending.None? {
          failure := Some(NeverSent);
        } else {
          RemoveBlockRequest(m.block, Failed(Rejected));
        }
      } else if pending.None? && config.RejectSemantics() {
        failure := Some(UnsolicitedPiece);
      } else {
        RemoveBlockRequest(Answered(m), Delivered(m.data));
      }
    }

    method ApplyRemoteFlags(m: Message)
      requires !m.Choke?
      modifies this`remoteChoking, this`remoteInterested, this`remoteAllowedFast
      ensures View() == RemoteFlags(old(View()), m)
    {
      if m.Unchoke? {
        remoteChoking := false;
      } else if m.Interested? || m.NotInterested? {
        remoteInterested := m.Interested?;
      } else if m.AllowedFast? {
        remoteAllowedFast := remoteAllowedFast + {m.piece};
      }
    }

    method ApplyChoke()
      modifies this`remoteChoking, this`pendingRequests, this`settled
      ensures View() == PeerSession.ApplyChoke(old(View()))
    {
      hide SettleAll;
      remoteChoking := true;
      if !config.RejectSemantics() {
        RemoveAll(Blocks(pendingRequests), Failed(Choked));
      }
    }

    method ApplyRemoteState(m: Message) returns (messages: seq<Message>, failure: Option<Failure>)
      modifies this
      ensures ApplyRemote(old(View()), m) == Sent(View(), messages, failure)
    {
      hide ApplyRequest, PeerSession.ApplyAnswer, PeerSession.ApplyChoke, RemoteFlags, Dropped;
      messages, failure := [], None;
      if m.Piece? || m.RejectRequest? {
        failure := ApplyAnswer(m);
      } else if m.Request? {
        messages, failure := ApplyPeerRequest(m.block);
      } else if m.Choke? {
        ApplyChoke();
      } else if m.Cancel? {
        if !config.RejectSemantics() {
          peerRequests := Dropped(peerRequests, m.block);
        }
      } else {
        ApplyRemoteFlags(m);
      }
    }

    method CommitRemoteAvailability(m: Message)
      modifies this`remoteAvailabilityDeclared, this`remoteAvailabilityOpen
      ensures View() == CommitRemote(old(View()), m)
    {
      if !Unordered(m) {
        remoteAvailabilityDeclared := remoteAvailabilityDeclared || Declares(m);
        remoteAvailabilityOpen := false;
      }
    }

    /** Applies one message read from the transport. */
    method ReadMessage(m: Message) returns (messages: seq<Message>, failure: Option<Failure>)
      modifies this
      ensures Receive(old(View()), m) == Sent(View(), messages, failure)
    {
      hide PeerSession.Terminate, ApplyRemote, CheckIncoming, CommitRemote;
      messages := [];
      if state != Connected {
        failure := Some(NotConnected);
        return;
      }
      failure := CheckIncoming(View(), m);
      if failure.Some? {
        Terminate(failure.value);
        return;
      }
      CommitRemoteAvailability(m);
      messages, failure := ApplyRemoteState(m);
      if failure.Some? {
        Terminate(failure.value);
      }
    }
  }
}
