/**
 Chokes and refusals when operations overlap.

 A choke owes its rejects to the requests held when it was written, and writes them one by one. What happens between two
 of them may answer a request of the snapshot before its turn, and its reject fails then. In the same way a request that
 is asked again while its reject is still owed can be refused with a reject that is written.
 */
module PeerOverlaps {
  import opened Results
  import opened PeerSession
  import PeerRuns
  import opened PeerChoking
  import opened PeerInterleaving

  /** Every request held or owed a reject could be rejected, and this side's availability slot is over once it has choked. */
  predicate Answerable(s: Session) {
    && (forall b <- s.wire.peerRequests :: Rejectable(s.wire.config, b))
    && (forall loop <- s.loops :: Owes(s.wire.config, loop))
    && (s.loops != [] ==> !s.wire.localOpen)
  }

  predicate Owes(config: Config, loop: Loop) {
    loop.Rejecting? ==> forall b <- loop.rest :: Rejectable(config, b)
  }

  // ---- What a step does to the requests held and to the chokes ----

  predicate Takes(s: Session, e: Event, block: Block) {
    e.EndRead? && e.message == Request(block) && Rejectable(s.wire.config, block)
  }

  /** The request held leaves in this step: its answer has been written, or the session closes. */
  predicate Releases(s: Session, e: Event, block: Block) {
    || (e.WriteDone? && s.writes != [] && s.writeError.None? && s.writes[0].Frame?
        && Answers(s.writes[0].message, block))
    || (s.wire.state != Closed && Step(s, e).wire.state == Closed)
  }

  predicate Answers(m: Message, block: Block) {
    (m.Piece? || m.RejectRequest?) && Answered(m) == block
  }

  /** Requests only leave, none but one that is answered unless the session closes; the other settings stay. */
  predicate Keeps(w: Wire, v: Wire, answered: Option<Block>) {
    && v.config == w.config && (v.localOpen ==> w.localOpen)
    && (forall b <- v.peerRequests :: b in w.peerRequests)
    && forall b <- w.peerRequests :: b in v.peerRequests || answered == Some(b) || (w.state != Closed && v.state == Closed)
  }

  lemma {:induction false} DroppedKeeps(blocks: seq<Block>, block: Block)
    ensures forall b <- Dropped(blocks, block) :: b in blocks
    ensures forall b <- blocks :: b == block || b in Dropped(blocks, block)
  {
    if blocks == [] {
    } else {
      DroppedKeeps(blocks[1..], block);
    }
  }

  lemma NothingLeaves(w: Wire, v: Wire)
    requires v.config == w.config && v.localOpen == w.localOpen && v.peerRequests == w.peerRequests
    ensures Keeps(w, v, None)
  {
  }

  lemma SettleKeeps(w: Wire, block: Block, outcome: Outcome)
    ensures Keeps(w, Settle(w, block, outcome), None)
  {
    hide Find, Without;
  }

  lemma {:induction false} SettleAllKeepsAll(w: Wire, blocks: seq<Block>, outcome: Outcome)
    ensures var v := SettleAll(w, blocks, outcome);
      v.config == w.config && v.localOpen == w.localOpen && v.peerRequests == w.peerRequests && v.state == w.state
    decreases |blocks|
  {
    hide Find, Without;
    if blocks == [] {
    } else {
      SettleAllKeepsAll(Settle(w, blocks[0], outcome), blocks[1..], outcome);
    }
  }

  lemma ClosingKeeps(w: Wire, reason: Failure)
    ensures Keeps(w, Terminate(w, reason), None)
  {
    hide SettleAll, Blocks;
    SettleAllKeepsAll(w.(state := Closed), Blocks(w.pending), Failed(reason));
  }

  lemma LandingKeeps(w: Wire, m: Message)
    ensures var v := ApplyLocal(CommitLocal(w, m), m);
      Keeps(w, v, if m.Piece? || m.RejectRequest? then Some(Answered(m)) else None) && (m.Choke? ==> !v.localOpen)
  {
    hide Settle, LocalFlags, Dropped, CommitLocal;
    var before := CommitLocal(w, m);
    CommitKeeps(w, m);
    if m.Piece? || m.RejectRequest? {
      DroppedKeeps(before.peerRequests, Answered(m));
    } else if m.Cancel? {
      SettleKeepsFields(before, m.block, Failed(Cancelled));
    } else {
      FlagsKeepFields(before, m);
    }
  }

  lemma CommitKeeps(w: Wire, m: Message)
    ensures var v := CommitLocal(w, m);
      v.config == w.config && v.peerRequests == w.peerRequests && v.state == w.state && (v.localOpen ==> w.localOpen) && (m.Choke? ==> !v.localOpen)
  {
  }

  lemma SettleKeepsFields(w: Wire, block: Block, outcome: Outcome)
    ensures var v := Settle(w, block, outcome);
      v.config == w.config && v.localOpen == w.localOpen && v.peerRequests == w.peerRequests && v.state == w.state
  {
    hide Find, Without;
  }

  lemma FlagsKeepFields(w: Wire, m: Message)
    ensures var v := LocalFlags(w, m);
      v.config == w.config && v.localOpen == w.localOpen && v.peerRequests == w.peerRequests && v.state == w.state
  {
  }

  lemma CommitRemoteKeeps(w: Wire, m: Message)
    ensures var v := CommitRemote(w, m);
      v.config == w.config && v.peerRequests == w.peerRequests && v.state == w.state && v.localOpen == w.localOpen && v.localChoking == w.localChoking
    ensures CommitRemote(w, m).localAllowedFast == w.localAllowedFast && CommitRemote(w, m).localDeclared == w.localDeclared
  {
  }

  /** A message other than a request releases nothing under reject semantics. */
  lemma RemoteKeeps(w: Wire, m: Message)
    requires w.config.RejectSemantics() && !m.Request?
    ensures Keeps(w, ApplyRemote(w, m).wire, None)
  {
    hide ApplyAnswer, ApplyChoke, RemoteFlags, Keeps;
    if m.Piece? || m.RejectRequest? {
      AnswerKeepsFields(w, m);
      NothingLeaves(w, ApplyAnswer(w, m).wire);
    } else if m.Choke? {
      ChokeKeepsFields(w);
      NothingLeaves(w, ApplyChoke(w));
    } else if m.Cancel? {
      NothingLeaves(w, w);
    } else {
      RemoteFlagsKeepFields(w, m);
      NothingLeaves(w, RemoteFlags(w, m));
    }
  }

  lemma AnswerKeepsFields(w: Wire, m: Message)
    requires m.Piece? || m.RejectRequest?
    ensures var v := ApplyAnswer(w, m).wire; v.config == w.config && v.localOpen == w.localOpen && v.peerRequests == w.peerRequests
  {
    hide Settle, Find;
  }

  lemma ChokeKeepsFields(w: Wire)
    ensures var v := ApplyChoke(w); v.config == w.config && v.localOpen == w.localOpen && v.peerRequests == w.peerRequests
  {
    hide SettleAll, Blocks;
    SettleAllKeepsAll(w.(remoteChoking := true), Blocks(w.pending), Failed(Choked));
  }

  lemma RemoteFlagsKeepFields(w: Wire, m: Message)
    ensures var v := RemoteFlags(w, m); v.config == w.config && v.localOpen == w.localOpen && v.peerRequests == w.peerRequests
  {
  }

  /** A request that passes the checks can be rejected, and is the only one that is added. */
  lemma RequestAdds(w: Wire, block: Block)
    requires CheckIncoming(w, Request(block)).None?
    ensures Rejectable(w.config, block)
    ensures var v := Accept(w, block); v.config == w.config && v.localOpen == w.localOpen && v.state == w.state
    ensures forall b :: b in Accept(w, block).peerRequests <==> b in w.peerRequests || b == block
  {
    hide BlockFits;
  }

  /** What one step does to the requests held: it takes in one that was asked, or releases one, or all. */
  predicate HeldStep(s: Session, e: Event) {
    var t := Step(s, e);
    && t.wire.config == s.wire.config && (t.wire.localOpen ==> s.wire.localOpen)
    && (forall b <- t.wire.peerRequests :: b in s.wire.peerRequests || Takes(s, e, b))
    && forall b <- s.wire.peerRequests :: b in t.wire.peerRequests || Releases(s, e, b)
  }

  lemma KeepsIsHeldStep(s: Session, e: Event, answered: Option<Block>)
    requires Keeps(s.wire, Step(s, e).wire, answered)
    requires answered.Some? ==> forall b <- s.wire.peerRequests :: answered == Some(b) ==> Releases(s, e, b)
    ensures HeldStep(s, e)
  {
    hide Step;
  }

  lemma ReadIsHeldStep(s: Session, m: Message)
    requires s.wire.config.RejectSemantics()
    ensures HeldStep(s, EndRead(m))
  {
    hide CheckIncoming, CommitRemote, ApplyRemote, Terminate, Admit, RefusesAtOnce, Keeps;
    if s.reading.MessageRead? {
      CommitRemoteKeeps(s.wire, m);
      var committed := CommitRemote(s.wire, m);
      if CheckIncoming(s.wire, m).Some? {
        ClosingKeeps(s.wire, CheckIncoming(s.wire, m).value);
        KeepsIsHeldStep(s, EndRead(m), None);
      } else if m.Request? {
        RequestStep(s, m.block);
      } else {
        RemoteKeeps(committed, m);
        KeepsOn(s.wire, committed, ApplyRemote(committed, m).wire);
        KeepsIsHeldStep(s, EndRead(m), None);
      }
    } else {
      NothingLeaves(s.wire, s.wire);
      KeepsIsHeldStep(s, EndRead(m), None);
    }
  }

  lemma KeepsOn(w: Wire, u: Wire, v: Wire)
    requires u.config == w.config && u.peerRequests == w.peerRequests && u.state == w.state && u.localOpen == w.localOpen
    requires Keeps(u, v, None)
    ensures Keeps(w, v, None)
  {
  }

  lemma RequestStep(s: Session, block: Block)
    requires s.reading.MessageRead? && CheckIncoming(s.wire, Request(block)).None?
    ensures HeldStep(s, EndRead(Request(block)))
  {
    hide CheckIncoming, CommitRemote, Accept, Admit, RefusesAtOnce, Rejectable, Send;
    var m := Request(block);
    CommitRemoteKeeps(s.wire, m);
    RequestAdds(s.wire, block);
    AcceptAdds(CommitRemote(s.wire, m), block);
  }

  lemma AcceptAdds(w: Wire, block: Block)
    ensures var v := Accept(w, block); v.config == w.config && v.localOpen == w.localOpen && v.state == w.state
    ensures forall b :: b in Accept(w, block).peerRequests <==> b in w.peerRequests || b == block
  {
  }

  lemma WriteIsHeldStep(s: Session)
    ensures HeldStep(s, WriteDone)
  {
    hide ApplyLocal, CommitLocal, Keeps, Resumed;
    if s.writes != [] && s.writeError.None? && s.writes[0].Frame? {
      var m := s.writes[0].message;
      LandingKeeps(s.wire, m);
      KeepsIsHeldStep(s, WriteDone, if m.Piece? || m.RejectRequest? then Some(Answered(m)) else None);
    } else {
      NothingLeaves(s.wire, Step(s, WriteDone).wire);
      KeepsIsHeldStep(s, WriteDone, None);
    }
  }

  lemma StepIsHeldStep(s: Session, e: Event)
    requires s.wire.config.RejectSemantics()
    ensures HeldStep(s, e)
  {
    if e.EndRead? {
      ReadIsHeldStep(s, e.message);
    } else if e.WriteDone? {
      WriteIsHeldStep(s);
    } else {
      OtherStepKeeps(s, e);
      KeepsIsHeldStep(s, e, None);
    }
  }

  lemma OtherStepKeeps(s: Session, e: Event)
    requires !e.EndRead? && !e.WriteDone?
    ensures Keeps(s.wire, Step(s, e).wire, None)
  {
    hide *;
    if e.StartSend? || e.StartRequest? || e.NextReject? || e.CallFails? || e.Expires? {
      CallKeeps(s, e);
    } else {
      TransportKeeps(s, e);
    }
  }

  lemma CallKeeps(s: Session, e: Event)
    requires e.StartSend? || e.StartRequest? || e.NextReject? || e.CallFails? || e.Expires?
    ensures Keeps(s.wire, Step(s, e).wire, None)
  {
    hide Keeps, Terminate, Settle, Admit, QueuedBytes, Find, BlockFits, Halted, WriteEnds, WriteLands, ReadEnds;
    hide StartHandshake, ReadReports, WriteErrs;
    NothingLeaves(s.wire, s.wire);
    match e
    case StartSend(m) => NothingLeaves(s.wire, Tracked(s.wire, m));
    case StartRequest(block) => NothingLeaves(s.wire, Asked(s.wire, block));
    case CallFails =>
      if s.failedCalls != [] {
        SettleKeeps(s.wire, s.failedCalls[0].block, Failed(s.failedCalls[0].reason));
      }
    case Expires(block, reason) => SettleKeeps(s.wire, block, Failed(reason));
    case _ =>
  }

  lemma TransportKeeps(s: Session, e: Event)
    requires !e.EndRead? && !e.WriteDone?
    requires !(e.StartSend? || e.StartRequest? || e.NextReject? || e.CallFails? || e.Expires?)
    ensures Keeps(s.wire, Step(s, e).wire, None)
  {
    hide Keeps, Terminate, Settle, Admit, QueuedBytes, Find, BlockFits, Halted, WriteEnds, WriteLands, ReadEnds;
    hide SendStarts, RequestStarts, ChokeGoesOn, CallReports;
    NothingLeaves(s.wire, s.wire);
    match e
    case EndHandshakeRead(accepted) =>
      ClosingKeeps(s.wire, Mismatched);
      NothingLeaves(s.wire, s.wire.(state := Connected));
    case WriteBreaks(reason) => ClosingKeeps(s.wire, reason);
    case WriteFails => LossKeeps(s);
    case EndOfStream => ClosingKeeps(s.wire, Ended);
    case ReadCloses =>
      if s.failedReads != [] {
        ClosingKeeps(s.wire, s.failedReads[0]);
      }
    case CloseCall(reason) => ClosingKeeps(s.wire, reason);
    case _ =>
  }

  lemma LossKeeps(s: Session)
    ensures Keeps(s.wire, WriteEnds(s).wire, None)
  {
    hide Keeps, Settle, Halted;
    NothingLeaves(s.wire, s.wire);
    if s.writes != [] && s.writeError.Some? && s.writes[0].Frame? && s.writes[0].message.Request? {
      SettleKeeps(s.wire, s.writes[0].message.block, Failed(s.writeError.value));
    }
  }

  // ---- Chokes owe only what was held ----

  /** The chokes of a session after a step: each owes no more than before, and a new one owes what is held. */
  predicate LoopStep(s: Session, t: Session) {
    && |s.loops| <= |t.loops|
    && (forall c :: 0 <= c < |s.loops| && t.loops[c].Rejecting? ==>
          s.loops[c].Rejecting? && forall b <- t.loops[c].rest :: b in s.loops[c].rest)
    && (forall c :: |s.loops| <= c < |t.loops| && t.loops[c].Rejecting? ==> forall b <- t.loops[c].rest :: b in t.wire.peerRequests)
    && (|s.loops| < |t.loops| ==> !t.wire.localOpen)
  }

  lemma SameLoops(s: Session, t: Session)
    requires t.loops == s.loops
    ensures LoopStep(s, t)
  {
  }

  lemma LandingLoops(s: Session)
    ensures LoopStep(s, WriteLands(s))
  {
    hide ApplyLocal, CommitLocal, Keeps;
    if s.writes != [] && s.writeError.None? && s.writes[0].Frame? {
      LandingKeeps(s.wire, s.writes[0].message);
    }
  }

  lemma TurnLoops(s: Session, c: nat)
    ensures LoopStep(s, ChokeGoesOn(s, c))
  {
    hide Admit;
  }

  lemma OtherStepsKeepLoops(s: Session, e: Event)
    requires !e.WriteDone? && !e.WriteFails? && !e.NextReject?
    ensures Step(s, e).loops == s.loops
  {
    hide Terminate, Settle, Admit, QueuedBytes, Find, BlockFits, WriteLands, WriteEnds, ChokeGoesOn, CheckIncoming;
    hide CommitRemote, ApplyRemote, RefusesAtOnce, Tracked;
  }

  lemma StepIs(s: Session, e: Event)
    ensures e.WriteDone? ==> Step(s, e) == WriteLands(s)
    ensures e.WriteFails? ==> Step(s, e) == WriteEnds(s)
    ensures e.NextReject? ==> Step(s, e) == ChokeGoesOn(s, e.loop)
  {
    hide WriteLands, WriteEnds, ChokeGoesOn;
  }

  lemma StepLoops(s: Session, e: Event)
    ensures LoopStep(s, Step(s, e))
  {
    hide *;
    StepIs(s, e);
    match e
    case WriteDone => LandingLoops(s);
    case WriteFails => LossLoops(s);
    case NextReject(c) => TurnLoops(s, c);
    case _ =>
      OtherStepsKeepLoops(s, e);
      SameLoops(s, Step(s, e));
  }

  lemma LossLoops(s: Session)
    ensures LoopStep(s, WriteEnds(s))
  {
    hide Settle;
  }

  lemma StepStaysAnswerable(s: Session, e: Event)
    requires Answerable(s) && s.wire.config.RejectSemantics()
    ensures Answerable(Step(s, e)) && Step(s, e).wire.config == s.wire.config
  {
    hide Step, Rejectable, Releases;
    StepIsHeldStep(s, e);
    StepLoops(s, e);
    var t := Step(s, e);
    forall loop <- t.loops ensures Owes(t.wire.config, loop) {
      var c :| 0 <= c < |t.loops| && t.loops[c] == loop;
      if c < |s.loops| && loop.Rejecting? {
        assert Owes(s.wire.config, s.loops[c]);
      }
    }
  }

  lemma {:induction false} RunStaysAnswerable(s: Session, events: seq<Event>)
    requires Answerable(s) && s.wire.config.RejectSemantics()
    ensures Answerable(Run(s, events)) && Run(s, events).wire.config == s.wire.config
    decreases |events|
  {
    hide Answerable, Step;
    if events == [] {
    } else {
      StepStaysAnswerable(s, events[0]);
      RunStaysAnswerable(Step(s, events[0]), events[1..]);
    }
  }

  // ---- When a choke fails ----

  /** The choke is about to reject the first request of what it still owes. */
  predicate IsTurn(s: Session, c: nat) {
    && c < |s.loops| && s.loops[c].Rejecting? && !s.loops[c].waiting && s.loops[c].rest != []
    && !(Fast in s.wire.config.negotiated && s.loops[c].rest[0].piece in s.wire.localAllowedFast)
  }

  const REJECT_BYTES: nat := 17

  /** Why a reject of this request cannot be sent now, if it cannot. */
  function Hindrance(s: Session, block: Block): Option<Failure> {
    if s.wire.state != Connected then Some(NotConnected)
    else if Fast !in s.wire.config.negotiated then Some(NotNegotiated)
    else if s.wire.localOpen && !s.wire.localDeclared then Some(OutOfOrder)
    else if block !in s.wire.peerRequests then Some(NotReceived)
    else if QueuedBytes(s.writes) + REJECT_BYTES > s.maxQueued then Some(QueueFull)
    else None
  }

  lemma RejectIsHindered(s: Session, block: Block)
    requires Rejectable(s.wire.config, block) && s.wire.config.RejectSemantics()
    ensures Admit(s, RejectRequest(block), true) == Hindrance(s, block)
  {
    hide QueuedBytes, BlockFits, Find;
  }

  /** At a request's turn the choke fails exactly when something hinders the reject, and else the reject is under way. */
  lemma TurnFailsExactly(config: Config, maxQueued: nat, before: seq<Event>, c: nat)
    requires config.RejectSemantics() && IsTurn(Run(Begin(config, maxQueued), before), c)
    ensures var s := Run(Begin(config, maxQueued), before);
      var block, t := s.loops[c].rest[0], Step(s, NextReject(c));
      if Hindrance(s, block).Some? then t == s.(loops := s.loops[c := Broken(Hindrance(s, block).value)])
      else t == s.(loops := s.loops[c := Rejecting(s.loops[c].rest[1..], true)],
                   writes := s.writes + [Frame(RejectRequest(block), ByChoke(c))])
  {
    hide Run, Admit, Hindrance, Rejectable;
    BeginIsAnswerable(config, maxQueued);
    RunStaysAnswerable(Begin(config, maxQueued), before);
    var s := Run(Begin(config, maxQueued), before);
    assert Owes(config, s.loops[c]);
    RejectIsHindered(s, s.loops[c].rest[0]);
  }

  lemma BeginIsAnswerable(config: Config, maxQueued: nat)
    ensures Answerable(Begin(config, maxQueued)) && Begin(config, maxQueued).wire.config == config
  {
  }

  lemma TurnBreaks(s: Session, c: nat, turn: nat)
    requires c < |s.loops| && s.loops[c].Rejecting?
    ensures var t := ChokeGoesOn(s, turn); c < |t.loops| && (t.loops[c].Broken? ==> turn == c && IsTurn(s, c))
  {
    hide Admit;
  }

  lemma LandingBreaksNone(s: Session, c: nat)
    requires c < |s.loops| && s.loops[c].Rejecting?
    ensures c < |WriteLands(s).loops| && !WriteLands(s).loops[c].Broken?
  {
    hide ApplyLocal, CommitLocal;
  }

  lemma LossBreaks(s: Session, c: nat)
    requires c < |s.loops| && s.loops[c].Rejecting?
    ensures c < |WriteEnds(s).loops|
    ensures WriteEnds(s).loops[c].Broken? ==> s.writes != [] && s.writes[0].Frame? && s.writes[0].origin == ByChoke(c)
  {
    hide Settle;
  }

  /** A choke fails only at a turn, or when the write of one of its rejects is lost. */
  lemma FailsOnlyAtTurn(s: Session, e: Event, c: nat)
    requires c < |s.loops| && s.loops[c].Rejecting?
    ensures c < |Step(s, e).loops|
    ensures Step(s, e).loops[c].Broken? ==>
      || (e == NextReject(c) && IsTurn(s, c))
      || (e.WriteFails? && s.writes != [] && s.writes[0].Frame? && s.writes[0].origin == ByChoke(c))
  {
    hide *;
    StepIs(s, e);
    if e.WriteDone? {
      LandingBreaksNone(s, c);
    } else if e.WriteFails? {
      LossBreaks(s, c);
    } else if e.NextReject? {
      TurnBreaks(s, c, e.loop);
    } else {
      OtherStepsKeepLoops(s, e);
    }
  }

  /** In one of these events the request leaves: its answer is written, or the session closes. */
  predicate ReleasedIn(s: Session, events: seq<Event>, block: Block)
    decreases |events|
  {
    events != [] && (Releases(s, events[0], block) || ReleasedIn(Step(s, events[0]), events[1..], block))
  }

  lemma {:induction false} OnlyAnswersRelease(s: Session, events: seq<Event>, block: Block)
    requires s.wire.config.RejectSemantics() && block in s.wire.peerRequests && block !in Run(s, events).wire.peerRequests
    ensures ReleasedIn(s, events, block)
    decreases |events|
  {
    hide Step, Takes, Releases;
    if events == [] {
      assert false;
    } else {
      StepIsHeldStep(s, events[0]);
      if block in Step(s, events[0]).wire.peerRequests {
        OnlyAnswersRelease(Step(s, events[0]), events[1..], block);
      }
    }
  }

  lemma {:induction false} OwesOnlySnapshot(s: Session, events: seq<Event>, c: nat, snapshot: seq<Block>)
    requires c < |s.loops| && (s.loops[c].Rejecting? ==> forall b <- s.loops[c].rest :: b in snapshot)
    ensures c < |Run(s, events).loops|
    ensures var loop := Run(s, events).loops[c]; loop.Rejecting? ==> forall b <- loop.rest :: b in snapshot
    decreases |events|
  {
    hide Step;
    if events == [] {
    } else {
      StepLoops(s, events[0]);
      OwesOnlySnapshot(Step(s, events[0]), events[1..], c, snapshot);
    }
  }

  /**
   A choke under Fast that fails at a request's turn, in a connected session with room in the queue, fails because the
   request has been answered since the choke took its snapshot, or the session was closed and reopened in between.
   */
  lemma FailsOnlyForAnswered(s: Session, events: seq<Event>, c: nat)
    requires s.wire.config.RejectSemantics() && Fast in s.wire.config.negotiated
    requires c < |s.loops| && s.loops[c] == Rejecting(s.wire.peerRequests, false)
    requires IsTurn(Run(s, events), c)
    ensures var t := Run(s, events);
      Hindrance(t, t.loops[c].rest[0]) == Some(NotReceived) ==> ReleasedIn(s, events, t.loops[c].rest[0])
  {
    hide Run, ReleasedIn;
    OwesOnlySnapshot(s, events, c, s.wire.peerRequests);
    var block := Run(s, events).loops[c].rest[0];
    if block !in Run(s, events).wire.peerRequests {
      OnlyAnswersRelease(s, events, block);
    }
  }

  // ---- Refusals ----

  /**
   A request that is refused at once: its reject is sent exactly when nothing hinders it, which takes that the same
   request is still held, as it is while a choke still owes it a reject; else the read fails.
   */
  lemma RefusalFailsExactly(config: Config, maxQueued: nat, before: seq<Event>, block: Block)
    requires config.RejectSemantics()
    requires var s := Run(Begin(config, maxQueued), before);
      s.reading.MessageRead? && CheckIncoming(s.wire, Request(block)).None? && RefusesAtOnce(s.wire, block)
    ensures var s := Run(Begin(config, maxQueued), before);
      var t := Step(s, EndRead(Request(block)));
      && t.wire.peerRequests == s.wire.peerRequests
      && if Hindrance(s, block).Some? then t.failedReads == s.failedReads + [Hindrance(s, block).value] && t.writes == s.writes
         else t.failedReads == s.failedReads && t.writes == s.writes + [Frame(RejectRequest(block), ByRefusal)]
  {
    hide Run, Admit, Rejectable, CheckIncoming, CommitRemote, RefusesAtOnce, Answerable;
    BeginIsAnswerable(config, maxQueued);
    RunStaysAnswerable(Begin(config, maxQueued), before);
    var s := Run(Begin(config, maxQueued), before);
    var committed := s.(reading := NoRead, wire := CommitRemote(s.wire, Request(block)));
    CommitRemoteKeeps(s.wire, Request(block));
    RequestAdds(s.wire, block);
    CommitKeepsRefusal(s.wire, Request(block));
    RejectIsHindered(committed, block);
  }

  // ---- By example ----

  ghost predicate Reachable(config: Config, maxQueued: nat, s: Session) {
    exists events :: Run(Begin(config, maxQueued), events) == s
  }

  lemma {:induction false} RunJoin(s: Session, a: seq<Event>, b: seq<Event>)
    ensures Run(s, a + b) == Run(Run(s, a), b)
    decreases |a|
  {
    hide Step;
    if a == [] {
      assert a + b == b;
    } else {
      RunJoin(Step(s, a[0]), a[1..], b);
      assert (a + b)[1..] == a[1..] + b;
    }
  }

  lemma StepIsReachable(config: Config, maxQueued: nat, s: Session, e: Event)
    requires Reachable(config, maxQueued, s)
    ensures Reachable(config, maxQueued, Step(s, e))
  {
    hide Run, Step;
    var events :| Run(Begin(config, maxQueued), events) == s;
    RunJoin(Begin(config, maxQueued), events, [e]);
    RunOfOne(s, e);
    assert Run(Begin(config, maxQueued), events + [e]) == Step(s, e);
  }

  lemma TwoStepsAreReachable(config: Config, maxQueued: nat, s: Session, a: Event, b: Event)
    requires Reachable(config, maxQueued, s)
    ensures Reachable(config, maxQueued, Step(Step(s, a), b))
  {
    hide Reachable, Step;
    StepIsReachable(config, maxQueued, s, a);
    StepIsReachable(config, maxQueued, Step(s, a), b);
  }

  /** Settings under which blocks of one byte can be asked for and rejected. */
  predicate Roomy(config: Config, maxQueued: nat) {
    && config.negotiated == {Fast} && config.pieceCount.None? && config.pieceLength.None?
    && config.maxBlockLength >= 1 && config.maxMessageLength >= 13 && config.maxPending >= 2 && maxQueued >= 100
  }

  lemma WrittenAlone(s: Session, m: Message)
    requires s.writes == [] && s.writeError.None? && Admit(s, m, true).None? && !m.Request? && !m.Choke?
    ensures Step(Step(s, StartSend(m)), WriteDone) == s.(wire := ApplyLocal(CommitLocal(s.wire, m), m))
  {
    hide Admit, ApplyLocal, CommitLocal;
    assert [] + [Frame(m, ByCall)] == [Frame(m, ByCall)] && [Frame(m, ByCall)][1..] == [];
  }

  lemma TakenIn(s: Session, m: Message)
    requires s.wire.state == Connected && s.reading.NoRead? && CheckIncoming(s.wire, m).None?
    requires m.HaveNone? || (m.Request? && !RefusesAtOnce(s.wire, m.block))
    ensures var w := CommitRemote(s.wire, m);
      Step(Step(s, StartRead), EndRead(m)) == s.(wire := if m.Request? then Accept(w, m.block) else w)
  {
    hide CheckIncoming, CommitRemote, RefusesAtOnce, Accept, Send;
    if m.Request? {
      CommitKeepsRefusal(s.wire, m);
    }
    assert s.failedReads + [] == s.failedReads;
  }

  /** The session after both handshakes, with the availability declared on both sides and this side not choking. */
  function Ready(config: Config, held: seq<Block>): Wire {
    Fresh(config).(state := Connected, localChoking := false, localOpen := false, localDeclared := true,
                   remoteOpen := false, remoteDeclared := true, peerRequests := held)
  }

  lemma HandshakesDone(config: Config, maxQueued: nat)
    requires maxQueued >= 100
    ensures var b := Begin(config, maxQueued);
      Step(Step(Step(Step(b, StartHandshakeWrite), StartHandshakeRead), EndHandshakeRead(true)), WriteDone) ==
      b.(wire := b.wire.(state := Connected), sent := true, received := true)
  {
    assert [] + [HandshakeFrame] == [HandshakeFrame] && [HandshakeFrame][1..] == [];
  }

  lemma DeclaredAndOpen(s: Session)
    requires Roomy(s.wire.config, s.maxQueued) && s.writes == [] && s.writeError.None? && s.reading.NoRead?
    requires s.wire == Fresh(s.wire.config).(state := Connected)
    ensures var a := Step(Step(s, StartSend(HaveNone)), WriteDone);
      var b := Step(Step(a, StartSend(Unchoke)), WriteDone);
      Step(Step(b, StartRead), EndRead(HaveNone)) == s.(wire := Ready(s.wire.config, []))
  {
    hide Step;
    var w := s.wire;
    WrittenAlone(s, HaveNone);
    var a := w.(localOpen := false, localDeclared := true);
    assert ApplyLocal(CommitLocal(w, HaveNone), HaveNone) == a;
    WrittenAlone(s.(wire := a), Unchoke);
    var b := a.(localChoking := false);
    assert ApplyLocal(CommitLocal(a, Unchoke), Unchoke) == b;
    TakenIn(s.(wire := b), HaveNone);
    assert CommitRemote(b, HaveNone) == Ready(w.config, []);
  }

  lemma TakesTwo(s: Session)
    requires Roomy(s.wire.config, s.maxQueued) && s.reading.NoRead? && s.wire == Ready(s.wire.config, [])
    ensures var a := Step(Step(s, StartRead), EndRead(Request(Block(0, 0, 1))));
      Step(Step(a, StartRead), EndRead(Request(Block(1, 0, 1)))) == s.(wire := Ready(s.wire.config, [Block(0, 0, 1), Block(1, 0, 1)]))
  {
    hide Step;
    var config := s.wire.config;
    var first, second := Block(0, 0, 1), Block(1, 0, 1);
    TakenIn(s, Request(first));
    assert Accept(CommitRemote(s.wire, Request(first)), first) == Ready(config, [first]);
    TakenIn(s.(wire := Ready(config, [first])), Request(second));
    assert [first] + [second] == [first, second];
    assert Accept(CommitRemote(Ready(config, [first]), Request(second)), second) == Ready(config, [first, second]);
  }

  /** With two requests held, a choke is started and then the answer to the second one; both are written, then one reject. */
  lemma AnsweredMeanwhile(s: Session)
    requires Roomy(s.wire.config, s.maxQueued) && s.writes == [] && s.writeError.None? && s.loops == []
    requires s.wire == Ready(s.wire.config, [Block(0, 0, 1), Block(1, 0, 1)])
    ensures var a := Step(Step(s, StartSend(Choke)), StartSend(Piece(1, 0, [0])));
      var b := Step(Step(a, WriteDone), NextReject(0));
      var c := Step(Step(b, WriteDone), WriteDone);
      Step(c, NextReject(0)).loops == [Broken(NotReceived)]
  {
    hide Step;
    var first, second, piece := Block(0, 0, 1), Block(1, 0, 1), Piece(1, 0, [0]);
    var w := s.wire;
    BothStart(s);
    var a := s.(writes := [Frame(Choke, ByCall), Frame(piece, ByCall)]);
    var choked := w.(localChoking := true);
    ChokeLands(a, choked);
    var b := a.(wire := choked, writes := [Frame(piece, ByCall), Frame(RejectRequest(first), ByChoke(0))],
                loops := [Rejecting([second], true)]);
    AnswersLand(b);
    var c := b.(wire := choked.(peerRequests := []), writes := [], loops := [Rejecting([second], false)]);
    LastTurnFails(c, second);
  }

  lemma BothStart(s: Session)
    requires Roomy(s.wire.config, s.maxQueued) && s.writes == [] && s.wire == Ready(s.wire.config, [Block(0, 0, 1), Block(1, 0, 1)])
    ensures Step(Step(s, StartSend(Choke)), StartSend(Piece(1, 0, [0]))) ==
      s.(writes := [Frame(Choke, ByCall), Frame(Piece(1, 0, [0]), ByCall)])
  {
    hide Admit, Roomy, Ready;
    var piece := Piece(1, 0, [0]);
    assert [] + [Frame(Choke, ByCall)] == [Frame(Choke, ByCall)];
    assert [Frame(Choke, ByCall)] + [Frame(piece, ByCall)] == [Frame(Choke, ByCall), Frame(piece, ByCall)];
    ChokeAdmitted(s);
    PieceAdmitted(s.(writes := [Frame(Choke, ByCall)]));
  }

  lemma ChokeAdmitted(s: Session)
    requires Roomy(s.wire.config, s.maxQueued) && s.writes == [] && s.wire == Ready(s.wire.config, [Block(0, 0, 1), Block(1, 0, 1)])
    ensures Admit(s, Choke, true).None?
  {
  }

  lemma PieceAdmitted(s: Session)
    requires Roomy(s.wire.config, s.maxQueued) && s.writes == [Frame(Choke, ByCall)]
    requires s.wire == Ready(s.wire.config, [Block(0, 0, 1), Block(1, 0, 1)])
    ensures Admit(s, Piece(1, 0, [0]), true).None?
  {
    assert [Frame(Choke, ByCall)][1..] == [];
    assert s.wire.peerRequests[1] == Answered(Piece(1, 0, [0]));
  }

  lemma ChokeLands(a: Session, choked: Wire)
    requires Roomy(a.wire.config, a.maxQueued) && a.wire == Ready(a.wire.config, [Block(0, 0, 1), Block(1, 0, 1)])
    requires a.writes == [Frame(Choke, ByCall), Frame(Piece(1, 0, [0]), ByCall)] && a.writeError.None? && a.loops == []
    requires choked == a.wire.(localChoking := true)
    ensures Step(Step(a, WriteDone), NextReject(0)) ==
      a.(wire := choked, writes := [Frame(Piece(1, 0, [0]), ByCall), Frame(RejectRequest(Block(0, 0, 1)), ByChoke(0))],
         loops := [Rejecting([Block(1, 0, 1)], true)])
  {
    var first, second, rest := Block(0, 0, 1), Block(1, 0, 1), [Frame(Piece(1, 0, [0]), ByCall)];
    assert a.writes[1..] == rest && rest[1..] == [];
    assert ApplyLocal(CommitLocal(a.wire, Choke), Choke) == choked;
    var landed := a.(wire := choked, writes := rest, loops := [Rejecting([first, second], false)]);
    assert [] + [Rejecting([first, second], false)] == [Rejecting([first, second], false)];
    assert Step(a, WriteDone) == landed;
    hide Step, Admit;
    assert choked.peerRequests[0] == first;
    RejectIsHindered(landed, first);
    assert [first, second][1..] == [second];
    RejectStarts(landed, rest, first, second);
  }

  lemma RejectStarts(s: Session, rest: seq<Write>, first: Block, second: Block)
    requires s.writes == rest && s.loops == [Rejecting([first, second], false)] && first.piece !in s.wire.localAllowedFast
    requires Admit(s, RejectRequest(first), true).None?
    ensures Step(s, NextReject(0)) ==
      s.(writes := rest + [Frame(RejectRequest(first), ByChoke(0))], loops := [Rejecting([second], true)])
  {
    hide Admit;
    assert [first, second][1..] == [second];
  }

  lemma AnswersLand(b: Session)
    requires b.wire.peerRequests == [Block(0, 0, 1), Block(1, 0, 1)] && !b.wire.localOpen && b.writeError.None?
    requires b.writes == [Frame(Piece(1, 0, [0]), ByCall), Frame(RejectRequest(Block(0, 0, 1)), ByChoke(0))]
    requires b.loops == [Rejecting([Block(1, 0, 1)], true)]
    ensures Step(Step(b, WriteDone), WriteDone) ==
      b.(wire := b.wire.(peerRequests := []), writes := [], loops := [Rejecting([Block(1, 0, 1)], false)])
  {
    hide Step;
    var first, second, piece := Block(0, 0, 1), Block(1, 0, 1), Piece(1, 0, [0]);
    var rest := [Frame(RejectRequest(first), ByChoke(0))];
    assert b.writes[1..] == rest && rest[1..] == [];
    DropsTwo(first, second);
    AnswerLands(b, piece, ByCall);
    AnswerLands(b.(wire := b.wire.(peerRequests := [first]), writes := rest), RejectRequest(first), ByChoke(0));
  }

  lemma DropsTwo(first: Block, second: Block)
    requires first != second
    ensures Dropped([first, second], second) == [first] && Dropped([first], first) == []
  {
    assert [first, second][1..] == [second] && [second][1..] == [] && [first][1..] == [];
    assert Dropped([second], second) == [];
  }

  lemma AnswerLands(s: Session, m: Message, origin: Origin)
    requires (m.Piece? || m.RejectRequest?) && !s.wire.localOpen && s.writeError.None?
    requires s.writes != [] && s.writes[0] == Frame(m, origin)
    ensures Step(s, WriteDone) ==
      s.(wire := s.wire.(peerRequests := Dropped(s.wire.peerRequests, Answered(m))), writes := s.writes[1..],
         loops := if origin.ByChoke? then Resumed(s.loops, origin.loop) else s.loops)
  {
    hide Dropped, Resumed;
    assert CommitLocal(s.wire, m) == s.wire;
  }

  lemma LastTurnFails(c: Session, block: Block)
    requires c.wire.state == Connected && c.wire.config.negotiated == {Fast} && Rejectable(c.wire.config, block)
    requires !c.wire.localOpen && c.wire.peerRequests == [] && block.piece !in c.wire.localAllowedFast
    requires c.loops == [Rejecting([block], false)]
    ensures Step(c, NextReject(0)).loops == [Broken(NotReceived)]
  {
    hide Admit;
    RejectIsHindered(c, block);
  }

  /** It does happen under Fast: some run leads to a choke that has failed because a request was answered before its turn. */
  lemma OverlappedChokeMayFail(config: Config, maxQueued: nat)
    requires Roomy(config, maxQueued)
    ensures exists s :: Reachable(config, maxQueued, s) && s.loops == [Broken(NotReceived)]
  {
    hide Reachable, Step, Roomy;
    var begin := Begin(config, maxQueued);
    BeginIsReachable(config, maxQueued);
    TwoStepsAreReachable(config, maxQueued, begin, StartHandshakeWrite, StartHandshakeRead);
    TwoStepsAreReachable(config, maxQueued, Step(Step(begin, StartHandshakeWrite), StartHandshakeRead), EndHandshakeRead(true), WriteDone);
    RoomyIs(config, maxQueued);
    HandshakesDone(config, maxQueued);
    var s := begin.(wire := begin.wire.(state := Connected), sent := true, received := true);
    var a := Step(Step(s, StartSend(HaveNone)), WriteDone);
    TwoStepsAreReachable(config, maxQueued, s, StartSend(HaveNone), WriteDone);
    var b := Step(Step(a, StartSend(Unchoke)), WriteDone);
    TwoStepsAreReachable(config, maxQueued, a, StartSend(Unchoke), WriteDone);
    TwoStepsAreReachable(config, maxQueued, b, StartRead, EndRead(HaveNone));
    DeclaredAndOpen(s);
    var ready := s.(wire := Ready(config, []));
    TwoStepsAreReachable(config, maxQueued, ready, StartRead, EndRead(Request(Block(0, 0, 1))));
    var one := Step(Step(ready, StartRead), EndRead(Request(Block(0, 0, 1))));
    TwoStepsAreReachable(config, maxQueued, one, StartRead, EndRead(Request(Block(1, 0, 1))));
    TakesTwo(ready);
    ChokesTwo(config, maxQueued, s.(wire := Ready(config, [Block(0, 0, 1), Block(1, 0, 1)])));
  }

  lemma ChokesTwo(config: Config, maxQueued: nat, s: Session)
    requires Reachable(config, maxQueued, s) && Roomy(s.wire.config, s.maxQueued)
    requires s.writes == [] && s.writeError.None? && s.loops == []
    requires s.wire == Ready(s.wire.config, [Block(0, 0, 1), Block(1, 0, 1)])
    ensures exists t :: Reachable(config, maxQueued, t) && t.loops == [Broken(NotReceived)]
  {
    hide Reachable, Step, Roomy;
    var piece := Piece(1, 0, [0]);
    TwoStepsAreReachable(config, maxQueued, s, StartSend(Choke), StartSend(piece));
    var a := Step(Step(s, StartSend(Choke)), StartSend(piece));
    TwoStepsAreReachable(config, maxQueued, a, WriteDone, NextReject(0));
    var b := Step(Step(a, WriteDone), NextReject(0));
    TwoStepsAreReachable(config, maxQueued, b, WriteDone, WriteDone);
    var c := Step(Step(b, WriteDone), WriteDone);
    StepIsReachable(config, maxQueued, c, NextReject(0));
    AnsweredMeanwhile(s);
  }

  lemma BeginIsReachable(config: Config, maxQueued: nat)
    ensures Reachable(config, maxQueued, Begin(config, maxQueued))
  {
    assert Run(Begin(config, maxQueued), []) == Begin(config, maxQueued);
  }

  lemma RoomyIs(config: Config, maxQueued: nat)
    requires Roomy(config, maxQueued)
    ensures maxQueued >= 100
  {
  }
}
