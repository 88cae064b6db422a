/**
 One endpoint whose operations overlap. Every await is the end of a step: a handshake is under way until its frame is
 written or its bytes are read, a message until it is written or read, a choke until its rejects are. Writes complete
 in the order of the calls; apart from that any step may come next, closing included, and what is under way when the
 session closes goes on to its end.
 */
module PeerInterleaving {
  import opened Results
  import opened PeerSession
  import opened PeerRuns

  /** Who waits for a write: a plain send, a request with a promise, a choke with rejects to write, or a read that refuses. */
  datatype Origin = ByCall | ByPromise | ByChoke(loop: nat) | ByRefusal

  datatype Write = HandshakeFrame | Frame(message: Message, origin: Origin)

  datatype Reading = NoRead | HandshakeRead | MessageRead

  /** The rejects a choke owes: the rest of its snapshot, and whether one of them is being written. */
  datatype Loop = Rejecting(rest: seq<Block>, waiting: bool) | Finished | Broken(reason: Failure)

  datatype FailedCall = FailedCall(block: Block, reason: Failure)

  /**
   A session with all that is under way: the two handshake flags, the read, the queue of writes with the error of its
   first one, the chokes, and the calls and reads that have failed and are about to say so.
   */
  datatype Session = Session(wire: Wire, maxQueued: nat, sent: bool, received: bool, reading: Reading,
                             writes: seq<Write>, writeError: Option<Failure>, loops: seq<Loop>,
                             failedCalls: seq<FailedCall>, failedReads: seq<Failure>)

  function Begin(config: Config, maxQueued: nat): Session {
    Session(Fresh(config), maxQueued, false, false, NoRead, [], None, [], [], [])
  }

  datatype Event =
    | StartHandshakeWrite
    | StartHandshakeRead
    | EndHandshakeRead(accepted: bool)
    | StartSend(message: Message)
    | StartRequest(block: Block)
    | WriteDone
    | WriteBreaks(reason: Failure)
    | WriteFails
    | StartRead
    | EndRead(message: Message)
    | EndOfStream
    | ReadFails
    | ReadCloses
    | NextReject(loop: nat)
    | CallFails
    | Expires(block: Block, reason: Failure)
    | CloseCall(reason: Failure)

  const HANDSHAKE_LENGTH: nat := 68

  function FrameBytes(w: Write): nat {
    if w.HandshakeFrame? then HANDSHAKE_LENGTH else 4 + FrameLength(w.message)
  }

  function QueuedBytes(writes: seq<Write>): nat {
    if writes == [] then 0 else FrameBytes(writes[0]) + QueuedBytes(writes[1..])
  }

  /** The checks of a send that come before its first await. */
  function Admit(s: Session, m: Message, tracked: bool): Option<Failure> {
    if CheckOutgoing(s.wire, m).Some? then CheckOutgoing(s.wire, m)
    else if tracked && m.Request? && Find(s.wire.pending, m.block).Some? then Some(AlreadyPending)
    else if tracked && m.Request? && |s.wire.pending| >= s.wire.config.maxPending then Some(TooManyPending)
    else if CheckFrame(s.wire.config, m).Some? then CheckFrame(s.wire.config, m)
    else if QueuedBytes(s.writes) + 4 + FrameLength(m) > s.maxQueued then Some(QueueFull)
    else None
  }

  /** Both handshakes done: the session is connected, whatever it was. */
  function Connect(s: Session): Session {
    if s.sent && s.received then s.(wire := s.wire.(state := Connected)) else s
  }

  function StartHandshake(s: Session): Session {
    if s.wire.state == Closed || s.sent || QueuedBytes(s.writes) + HANDSHAKE_LENGTH > s.maxQueued then s
    else s.(sent := true, writes := s.writes + [HandshakeFrame])
  }

  function Tracked(w: Wire, m: Message): Wire {
    if m.Request? then w.(pending := w.pending + [Entry(m.block, None)]) else w
  }

  function SendStarts(s: Session, m: Message): Session {
    if Admit(s, m, true).Some? then s
    else s.(wire := Tracked(s.wire, m), writes := s.writes + [Frame(m, ByCall)])
  }

  function Asked(w: Wire, block: Block): Wire {
    w.(pending := w.pending + [Entry(block, Some(|w.issued|))], issued := w.issued + [block])
  }

  function RequestStarts(s: Session, block: Block): Session {
    if !BlockFits(s.wire.config, block) || Find(s.wire.pending, block).Some? || |s.wire.pending| >= s.wire.config.maxPending then s
    else
      var asked := s.(wire := Asked(s.wire, block));
      var refused := Admit(asked, Request(block), false);
      if refused.Some? then asked.(failedCalls := s.failedCalls + [FailedCall(block, refused.value)])
      else asked.(writes := s.writes + [Frame(Request(block), ByPromise)])
  }

  function Resumed(loops: seq<Loop>, c: nat): seq<Loop> {
    if c < |loops| && loops[c].Rejecting? then loops[c := loops[c].(waiting := false)] else loops
  }

  function Halted(loops: seq<Loop>, c: nat, reason: Failure): seq<Loop> {
    if c < |loops| && loops[c].Rejecting? then loops[c := Broken(reason)] else loops
  }

  /** A frame has been written: its state change is made, and a choke takes its snapshot. */
  function Landed(s: Session, m: Message, origin: Origin): Session {
    var wire := ApplyLocal(CommitLocal(s.wire, m), m);
    var loops := if origin.ByChoke? then Resumed(s.loops, origin.loop) else s.loops;
    s.(wire := wire, loops := if m.Choke? && wire.config.RejectSemantics() then loops + [Rejecting(wire.peerRequests, false)] else loops)
  }

  function WriteLands(s: Session): Session {
    if s.writes == [] || s.writeError.Some? then s
    else
      var rest := s.(writes := s.writes[1..]);
      match s.writes[0]
      case HandshakeFrame => Connect(rest)
      case Frame(m, origin) => Landed(rest, m, origin)
  }

  /** An error of the transport closes the session first; the call that waits for the write fails afterwards. */
  function WriteErrs(s: Session, reason: Failure): Session {
    if s.writes == [] || s.writeError.Some? then s
    else s.(wire := Terminate(s.wire, reason), writeError := Some(reason))
  }

  function Lost(s: Session, m: Message, origin: Origin, reason: Failure): Session {
    match origin
    case ByCall => if m.Request? then s.(wire := Settle(s.wire, m.block, Failed(reason))) else s
    case ByPromise => if m.Request? then s.(failedCalls := s.failedCalls + [FailedCall(m.block, reason)]) else s
    case ByChoke(c) => s.(loops := Halted(s.loops, c, reason))
    case ByRefusal => s
  }

  function WriteEnds(s: Session): Session {
    if s.writes == [] || s.writeError.None? then s
    else
      var rest := s.(writes := s.writes[1..], writeError := None);
      match s.writes[0]
      case HandshakeFrame => rest.(sent := false)
      case Frame(m, origin) => Lost(rest, m, origin, s.writeError.value)
  }

  /** A message that was refused at once starts a reject; the read fails when that cannot be sent. */
  function Refused(s: Session, block: Block): Session {
    var refused := Admit(s, RejectRequest(block), true);
    if refused.Some? then s.(failedReads := s.failedReads + [refused.value])
    else s.(writes := s.writes + [Frame(RejectRequest(block), ByRefusal)])
  }

  /** A message has been read, in whatever state the session is by now. */
  function ReadEnds(s: Session, m: Message): Session {
    if !s.reading.MessageRead? then s
    else
      var done := s.(reading := NoRead);
      if CheckIncoming(s.wire, m).Some? then done.(wire := Terminate(s.wire, CheckIncoming(s.wire, m).value))
      else
        var committed := done.(wire := CommitRemote(s.wire, m));
        if m.Request? && RefusesAtOnce(committed.wire, m.block) then Refused(committed, m.block)
        else
          var applied := ApplyRemote(committed.wire, m);
          committed.(wire := applied.wire,
                     failedReads := s.failedReads + if applied.failure.Some? then [applied.failure.value] else [])
  }

  /** A read that failed for breaking the protocol closes the session; other failures are the caller's. */
  function ReadReports(s: Session): Session {
    if s.failedReads == [] then s
    else
      var rest := s.(failedReads := s.failedReads[1..]);
      if s.failedReads[0] in {NotConnected, QueueFull} then rest
      else rest.(wire := Terminate(s.wire, s.failedReads[0]))
  }

  /** The next request of a choke's snapshot: passed over when allowed fast, else its reject starts or the choke fails. */
  function ChokeGoesOn(s: Session, c: nat): Session {
    if c >= |s.loops| || !s.loops[c].Rejecting? || s.loops[c].waiting then s
    else
      var rest := s.loops[c].rest;
      if rest == [] then s.(loops := s.loops[c := Finished])
      else if Fast in s.wire.config.negotiated && rest[0].piece in s.wire.localAllowedFast then
        s.(loops := s.loops[c := Rejecting(rest[1..], false)])
      else
        var refused := Admit(s, RejectRequest(rest[0]), true);
        if refused.Some? then s.(loops := s.loops[c := Broken(refused.value)])
        else
          s.(loops := s.loops[c := Rejecting(rest[1..], true)], writes := s.writes + [Frame(RejectRequest(rest[0]), ByChoke(c))])
  }

  function CallReports(s: Session): Session {
    if s.failedCalls == [] then s
    else
      s.(wire := Settle(s.wire, s.failedCalls[0].block, Failed(s.failedCalls[0].reason)), failedCalls := s.failedCalls[1..])
  }

  function Step(s: Session, e: Event): Session {
    match e
    case StartHandshakeWrite => StartHandshake(s)
    case StartHandshakeRead =>
      if s.wire.state == Closed || s.received || !s.reading.NoRead? then s else s.(reading := HandshakeRead)
    case EndHandshakeRead(accepted) =>
      if !s.reading.HandshakeRead? then s
      else if accepted then Connect(s.(reading := NoRead, received := true))
      else s.(reading := NoRead, wire := Terminate(s.wire, Mismatched))
    case StartSend(m) => SendStarts(s, m)
    case StartRequest(block) => RequestStarts(s, block)
    case WriteDone => WriteLands(s)
    case WriteBreaks(reason) => WriteErrs(s, reason)
    case WriteFails => WriteEnds(s)
    case StartRead => if s.wire.state != Connected || !s.reading.NoRead? then s else s.(reading := MessageRead)
    case EndRead(m) => ReadEnds(s, m)
    case EndOfStream => if s.reading.NoRead? then s else s.(reading := NoRead, wire := Terminate(s.wire, Ended))
    case ReadFails => s.(reading := NoRead)
    case ReadCloses => ReadReports(s)
    case NextReject(c) => ChokeGoesOn(s, c)
    case CallFails => CallReports(s)
    case Expires(block, reason) => s.(wire := Settle(s.wire, block, Failed(reason)))
    case CloseCall(reason) => s.(wire := Terminate(s.wire, reason))
  }

  function Run(s: Session, events: seq<Event>): Session
    decreases |events|
  {
    if events == [] then s else Run(Step(s, events[0]), events[1..])
  }

  // ---- Every promise settles exactly once ----

  /** As if the session were connected: what is kept about promises and limits does not depend on the state. */
  function Open(w: Wire): Wire {
    w.(state := Connected)
  }

  /** The accounts of promises, and the limits of both maps. */
  predicate Balanced(w: Wire) {
    && Accounts(w.pending, w.settled, w.issued)
    && |w.pending| <= w.config.maxPending && |w.peerRequests| <= w.config.maxPending
  }

  /** The pending requests are the entries of a map: no two have the same key. */
  predicate NoTwins(pending: seq<Entry>) {
    forall i, j :: 0 <= i < j < |pending| ==> pending[i].block != pending[j].block
  }

  predicate IsFailing(calls: seq<FailedCall>, block: Block) {
    exists c <- calls :: c.block == block
  }

  predicate AllFailing(pending: seq<Entry>, calls: seq<FailedCall>) {
    forall e <- pending :: IsFailing(calls, e.block)
  }

  predicate Books(s: Session) {
    && Balanced(s.wire) && NoTwins(s.wire.pending)
    && (s.wire.state == Closed ==> AllFailing(s.wire.pending, s.failedCalls))
  }

  /** Entries only leave, and nothing else of the accounts is lost. */
  predicate Lessens(w: Wire, v: Wire) {
    && Balanced(v) && (forall e <- v.pending :: e in w.pending) && (NoTwins(w.pending) ==> NoTwins(v.pending))
  }

  lemma OpenIsSound(w: Wire)
    ensures Balanced(w) <==> Sound(Open(w))
  {
    hide Accounts;
  }

  lemma LessensKeepsBooks(s: Session, t: Session)
    requires Books(s) && Lessens(s.wire, t.wire) && t.failedCalls == s.failedCalls
    requires t.wire.state == Closed ==> s.wire.state == Closed || t.wire.pending == []
    ensures Books(t)
  {
    hide Balanced, NoTwins, IsFailing;
  }

  lemma {:induction false} WithoutIsLess(pending: seq<Entry>, block: Block)
    ensures forall e <- Without(pending, block) :: e in pending
    ensures NoTwins(pending) ==> NoTwins(Without(pending, block)) && forall e <- Without(pending, block) :: e.block != block
  {
    if pending == [] {
    } else {
      var rest := Without(pending[1..], block);
      WithoutIsLess(pending[1..], block);
      assert pending == [pending[0]] + pending[1..];
      if NoTwins(pending) {
        assert forall e <- pending[1..] :: e.block != pending[0].block;
        assert pending[0].block != block ==> forall i :: 0 <= i < |rest| ==> rest[i] in pending[1..];
      }
    }
  }

  lemma SettleLessens(w: Wire, block: Block, outcome: Outcome)
    requires Balanced(w) && (outcome.Delivered? ==> |outcome.data| == block.length)
    ensures Lessens(w, Settle(w, block, outcome))
    ensures NoTwins(w.pending) ==> forall e <- Settle(w, block, outcome).pending :: e.block != block
  {
    hide Accounts, NoTwins, Find, Without;
    SettleKeepsAccounts(w, block, outcome);
    WithoutIsLess(w.pending, block);
    SettleTakes(w, block, outcome);
  }

  lemma ClosingLessens(w: Wire, reason: Failure)
    requires Balanced(w)
    ensures Terminate(w, reason).state == Closed
    ensures if w.state == Closed then Terminate(w, reason) == w else Lessens(w, Terminate(w, reason)) && Terminate(w, reason).pending == []
  {
    hide Accounts, SettleAll;
    SettleAllEmpties(w.(state := Closed), Failed(reason));
  }

  lemma {:induction false} SettleAllOpen(w: Wire, blocks: seq<Block>, outcome: Outcome)
    ensures SettleAll(Open(w), blocks, outcome) == Open(SettleAll(w, blocks, outcome))
    decreases |blocks|
  {
    hide Find, Without;
    if blocks == [] {
    } else {
      SettleAllOpen(Settle(w, blocks[0], outcome), blocks[1..], outcome);
    }
  }

  lemma {:induction false} SettleAllIsLess(w: Wire, blocks: seq<Block>, outcome: Outcome)
    ensures forall e <- SettleAll(w, blocks, outcome).pending :: e in w.pending
    ensures NoTwins(w.pending) ==> NoTwins(SettleAll(w, blocks, outcome).pending)
    decreases |blocks|
  {
    hide NoTwins, Settle;
    if blocks == [] {
    } else {
      WithoutIsLess(w.pending, blocks[0]);
      SettleTakes(w, blocks[0], outcome);
      SettleAllIsLess(Settle(w, blocks[0], outcome), blocks[1..], outcome);
    }
  }

  // A written message.

  lemma SettleOpen(w: Wire, block: Block, outcome: Outcome)
    ensures Settle(Open(w), block, outcome) == Open(Settle(w, block, outcome))
  {
    hide Find, Without;
  }

  lemma FlagsOpen(w: Wire, m: Message)
    ensures LocalFlags(Open(w), m) == Open(LocalFlags(w, m))
  {
    hide Open;
    FlagFieldsOpen(w, m.Choke?, m.Interested?, if m.AllowedFast? then {m.piece} else {});
  }

  lemma FlagFieldsOpen(w: Wire, choking: bool, interested: bool, allowed: set<nat>)
    ensures Open(w).(localChoking := choking) == Open(w.(localChoking := choking))
    ensures Open(w).(localInterested := interested) == Open(w.(localInterested := interested))
    ensures Open(w).(localAllowedFast := w.localAllowedFast + allowed) == Open(w.(localAllowedFast := w.localAllowedFast + allowed))
    ensures Open(w).(remoteChoking := choking) == Open(w.(remoteChoking := choking))
    ensures Open(w).(remoteInterested := interested) == Open(w.(remoteInterested := interested))
    ensures Open(w).(remoteAllowedFast := w.remoteAllowedFast + allowed) == Open(w.(remoteAllowedFast := w.remoteAllowedFast + allowed))
    ensures Open(w).localAllowedFast == w.localAllowedFast && Open(w).remoteAllowedFast == w.remoteAllowedFast
  {
    hide *;
    LocalFieldsOpen(w, choking, interested, w.localAllowedFast + allowed);
    RemoteFieldsOpen(w, choking, interested, w.remoteAllowedFast + allowed);
  }

  lemma LocalFieldsOpen(w: Wire, choking: bool, interested: bool, allowed: set<nat>)
    ensures Open(w).(localChoking := choking) == Open(w.(localChoking := choking))
    ensures Open(w).(localInterested := interested) == Open(w.(localInterested := interested))
    ensures Open(w).(localAllowedFast := allowed) == Open(w.(localAllowedFast := allowed))
    ensures Open(w).localAllowedFast == w.localAllowedFast
  {
  }

  lemma RemoteFieldsOpen(w: Wire, choking: bool, interested: bool, allowed: set<nat>)
    ensures Open(w).(remoteChoking := choking) == Open(w.(remoteChoking := choking))
    ensures Open(w).(remoteInterested := interested) == Open(w.(remoteInterested := interested))
    ensures Open(w).(remoteAllowedFast := allowed) == Open(w.(remoteAllowedFast := allowed))
    ensures Open(w).remoteAllowedFast == w.remoteAllowedFast
  {
  }

  lemma CommitLocalOpen(w: Wire, m: Message)
    ensures CommitLocal(Open(w), m) == Open(CommitLocal(w, m))
    ensures CommitLocal(w, m).pending == w.pending && CommitLocal(w, m).state == w.state
  {
  }

  lemma LocalOpen(w: Wire, m: Message)
    ensures ApplyLocal(Open(w), m) == Open(ApplyLocal(w, m))
  {
    hide Settle, Dropped, LocalFlags, Open;
    ConfigOpen(w);
    if m.Piece? || m.RejectRequest? {
      HeldOpen(w, Dropped(w.peerRequests, Answered(m)));
    } else if m.Cancel? {
      SettleOpen(w, m.block, Failed(Cancelled));
    } else {
      FlagsOpen(w, m);
    }
  }

  lemma ConfigOpen(w: Wire)
    ensures Open(w).config == w.config && Open(w).peerRequests == w.peerRequests && Open(w).pending == w.pending
  {
  }

  lemma HeldOpen(w: Wire, held: seq<Block>)
    ensures Open(w).(peerRequests := held) == Open(w.(peerRequests := held))
  {
  }

  lemma LocalIsLess(w: Wire, m: Message)
    ensures forall e <- ApplyLocal(w, m).pending :: e in w.pending
    ensures NoTwins(w.pending) ==> NoTwins(ApplyLocal(w, m).pending)
    ensures ApplyLocal(w, m).state == w.state
  {
    hide NoTwins, Settle, Dropped, LocalFlags;
    if m.Piece? || m.RejectRequest? {
    } else if m.Cancel? {
      WithoutIsLess(w.pending, m.block);
      SettleTakes(w, m.block, Failed(Cancelled));
    } else {
      assert ApplyLocal(w, m) == LocalFlags(w, m);
    }
  }

  lemma CommitLocalIsBalanced(w: Wire, m: Message)
    requires Balanced(w)
    ensures Balanced(CommitLocal(w, m))
  {
    hide Accounts;
  }

  lemma WrittenLessens(w: Wire, m: Message)
    requires Balanced(w)
    ensures var v := ApplyLocal(CommitLocal(w, m), m); Lessens(w, v) && v.state == w.state
  {
    hide Balanced, ApplyLocal, CommitLocal, NoTwins, Sound;
    var before := CommitLocal(w, m);
    CommitLocalIsBalanced(w, m);
    CommitLocalOpen(w, m);
    LocalOpen(before, m);
    LocalIsLess(before, m);
    OpenIsSound(before);
    ApplyLocalIsSound(Open(before), m);
    OpenIsSound(ApplyLocal(before, m));
  }

  // A message that was read.

  lemma RemoteOpen(w: Wire, m: Message)
    requires m.Request? ==> !RefusesAtOnce(w, m.block)
    ensures ApplyRemote(Open(w), m).wire == Open(ApplyRemote(w, m).wire)
  {
    hide Settle, Find, Dropped, Open, Send, RefusesAtOnce, Accept, ApplyChoke, RemoteFlags;
    ConfigOpen(w);
    RefusalOpen(w);
    if m.Request? {
      AcceptOpen(w, m.block);
    } else if m.Piece? || m.RejectRequest? {
      SettleOpen(w, Answered(m), if m.Piece? then Delivered(m.data) else Failed(Rejected));
    } else if m.Choke? {
      ChokeOpen(w);
    } else if m.Cancel? {
      HeldOpen(w, Dropped(w.peerRequests, m.block));
    } else {
      RemoteFlagsOpen(w, m);
    }
  }

  lemma RefusalOpen(w: Wire)
    ensures forall block :: RefusesAtOnce(Open(w), block) == RefusesAtOnce(w, block)
  {
  }

  lemma AcceptOpen(w: Wire, block: Block)
    ensures Accept(Open(w), block) == Open(Accept(w, block))
  {
  }

  lemma RemoteFlagsOpen(w: Wire, m: Message)
    ensures RemoteFlags(Open(w), m) == Open(RemoteFlags(w, m))
  {
    hide Open;
    FlagFieldsOpen(w, false, m.Interested?, if m.AllowedFast? then {m.piece} else {});
  }

  lemma ChokeOpen(w: Wire)
    ensures ApplyChoke(Open(w)) == Open(ApplyChoke(w))
  {
    hide SettleAll, Blocks;
    SettleAllOpen(w.(remoteChoking := true), Blocks(w.pending), Failed(Choked));
  }

  lemma RemoteIsLess(w: Wire, m: Message)
    requires m.Request? ==> !RefusesAtOnce(w, m.block)
    ensures var v := ApplyRemote(w, m).wire;
      && (forall e <- v.pending :: e in w.pending) && (NoTwins(w.pending) ==> NoTwins(v.pending)) && v.state == w.state
  {
    hide NoTwins, Settle, Dropped, RemoteFlags, Accept, SettleAll, Blocks, Find;
    if m.Piece? || m.RejectRequest? {
      WithoutIsLess(w.pending, Answered(m));
      SettleTakes(w, Answered(m), if m.Piece? then Delivered(m.data) else Failed(Rejected));
    } else if m.Choke? {
      SettleAllIsLess(w.(remoteChoking := true), Blocks(w.pending), Failed(Choked));
      SettleAllKeepsState(w.(remoteChoking := true), Blocks(w.pending), Failed(Choked));
    }
  }

  lemma {:induction false} SettleAllKeepsState(w: Wire, blocks: seq<Block>, outcome: Outcome)
    ensures SettleAll(w, blocks, outcome).state == w.state
    decreases |blocks|
  {
    hide Find, Without;
    if blocks == [] {
    } else {
      SettleAllKeepsState(Settle(w, blocks[0], outcome), blocks[1..], outcome);
    }
  }

  lemma ReadLessens(w: Wire, m: Message)
    requires Balanced(w) && CheckIncoming(w, m).None? && (m.Request? ==> !RefusesAtOnce(CommitRemote(w, m), m.block))
    ensures var v := ApplyRemote(CommitRemote(w, m), m).wire; Lessens(w, v) && v.state == w.state
  {
    hide Balanced, Sound, ApplyRemote, CheckIncoming, NoTwins, RefusesAtOnce;
    var committed := CommitRemote(w, m);
    CommitRemoteIsBalanced(w, m);
    if m.Request? {
      RequestHasRoom(w, m);
      SameHeld(w, m);
    }
    OpenIsSound(committed);
    ApplyRemoteIsSound(Open(committed), m);
    RemoteOpen(committed, m);
    RemoteIsLess(committed, m);
    OpenIsSound(ApplyRemote(committed, m).wire);
  }

  lemma CommitRemoteIsBalanced(w: Wire, m: Message)
    requires Balanced(w)
    ensures Balanced(CommitRemote(w, m)) && CommitRemote(w, m).state == w.state
  {
    hide Accounts;
  }

  lemma RequestHasRoom(w: Wire, m: Message)
    requires CheckIncoming(w, m).None? && m.Request?
    ensures |w.peerRequests| < w.config.maxPending
  {
  }

  // New entries.

  lemma {:induction false} FindNone(pending: seq<Entry>, block: Block)
    ensures Find(pending, block).None? <==> forall e <- pending :: e.block != block
  {
    if pending == [] {
    } else {
      FindNone(pending[1..], block);
      assert pending == [pending[0]] + pending[1..];
    }
  }

  lemma OneMoreEntry(pending: seq<Entry>, entry: Entry)
    requires NoTwins(pending) && Find(pending, entry.block).None?
    ensures NoTwins(pending + [entry])
  {
    hide Find;
    FindNone(pending, entry.block);
  }

  lemma OnlyConnectedAdmits(s: Session, m: Message, tracked: bool)
    requires Admit(s, m, tracked).None?
    ensures s.wire.state == Connected
    ensures tracked && m.Request? ==> Find(s.wire.pending, m.block).None? && |s.wire.pending| < s.wire.config.maxPending
  {
    hide InOrder, InBounds, Negotiated, Find, QueuedBytes;
  }

  lemma SendKeepsBooks(s: Session, m: Message)
    requires Books(s)
    ensures Books(SendStarts(s, m))
  {
    hide Accounts, NoTwins, Admit, Find;
    if Admit(s, m, true).None? {
      OnlyConnectedAdmits(s, m, true);
      if m.Request? {
        TrackKeepsAccounts(s.wire.pending, s.wire.settled, s.wire.issued, m.block);
        OneMoreEntry(s.wire.pending, Entry(m.block, None));
      }
    }
  }

  lemma RequestKeepsBooks(s: Session, block: Block)
    requires Books(s)
    ensures Books(RequestStarts(s, block))
  {
    hide Accounts, NoTwins, Admit, Find, BlockFits, AllFailing;
    var w := s.wire;
    if BlockFits(w.config, block) && Find(w.pending, block).None? && |w.pending| < w.config.maxPending {
      AskKeepsAccounts(w.pending, w.settled, w.issued, block);
      OneMoreEntry(w.pending, Entry(block, Some(|w.issued|)));
      var refused := Admit(s.(wire := Asked(w, block)), Request(block), false);
      if refused.Some? {
        if w.state == Closed {
          OneMoreFails(w.pending, s.failedCalls, Entry(block, Some(|w.issued|)), FailedCall(block, refused.value));
        }
      } else {
        OnlyConnectedAdmits(s.(wire := Asked(w, block)), Request(block), false);
      }
    }
  }

  lemma OneMoreFails(pending: seq<Entry>, calls: seq<FailedCall>, entry: Entry, call: FailedCall)
    requires AllFailing(pending, calls) && call.block == entry.block
    ensures AllFailing(pending + [entry], calls + [call])
  {
    MoreCallsFail(pending, calls, call);
    assert call in calls + [call];
  }

  lemma MoreCallsFail(pending: seq<Entry>, calls: seq<FailedCall>, call: FailedCall)
    requires AllFailing(pending, calls)
    ensures AllFailing(pending, calls + [call])
  {
    forall e <- pending ensures IsFailing(calls + [call], e.block) {
      var c :| c in calls && c.block == e.block;
      assert c in calls + [call];
    }
  }

  lemma ReportKeepsBooks(s: Session)
    requires Books(s)
    ensures Books(CallReports(s))
  {
    hide Balanced, NoTwins, IsFailing, Settle;
    if s.failedCalls != [] {
      var first := s.failedCalls[0];
      SettleLessens(s.wire, first.block, Failed(first.reason));
      var t := CallReports(s);
      forall e <- t.wire.pending | s.wire.state == Closed ensures IsFailing(t.failedCalls, e.block) {
        assert IsFailing(s.failedCalls, e.block);
        RestIsFailing(s.failedCalls, e.block);
      }
    }
  }

  lemma RestIsFailing(calls: seq<FailedCall>, block: Block)
    requires IsFailing(calls, block) && calls != [] && calls[0].block != block
    ensures IsFailing(calls[1..], block)
  {
    var i :| 0 <= i < |calls| && calls[i].block == block;
    assert calls[1..][i - 1] == calls[i];
  }

  lemma ClosingKeepsBooks(s: Session, reason: Failure, t: Session)
    requires Books(s) && t.wire == Terminate(s.wire, reason) && t.failedCalls == s.failedCalls
    ensures Books(t)
  {
    hide Balanced, NoTwins, Terminate, AllFailing;
    ClosingLessens(s.wire, reason);
    if s.wire.state != Closed {
      LessensKeepsBooks(s, t);
    }
  }

  lemma ConnectKeepsBooks(s: Session)
    requires Books(s)
    ensures Books(Connect(s))
  {
    hide Accounts, NoTwins;
  }

  lemma WriteKeepsBooks(s: Session)
    requires Books(s)
    ensures Books(WriteLands(s))
  {
    hide Balanced, NoTwins, ApplyLocal, CommitLocal, AllFailing;
    if s.writes != [] && s.writeError.None? {
      var rest := s.(writes := s.writes[1..]);
      match s.writes[0]
      case HandshakeFrame => ConnectKeepsBooks(rest);
      case Frame(m, origin) =>
        WrittenLessens(rest.wire, m);
        LessensKeepsBooks(rest, Landed(rest, m, origin));
    }
  }

  lemma LossKeepsBooks(s: Session)
    requires Books(s)
    ensures Books(WriteEnds(s))
  {
    hide Balanced, NoTwins, Settle, AllFailing;
    if s.writes != [] && s.writeError.Some? && s.writes[0].Frame? {
      var m, origin, reason := s.writes[0].message, s.writes[0].origin, s.writeError.value;
      var rest := s.(writes := s.writes[1..], writeError := None);
      match origin
      case ByCall =>
        if m.Request? {
          SettleLessens(rest.wire, m.block, Failed(reason));
          LessensKeepsBooks(rest, WriteEnds(s));
        }
      case ByPromise =>
        if m.Request? && s.wire.state == Closed {
          MoreCallsFail(s.wire.pending, s.failedCalls, FailedCall(m.block, reason));
        }
      case _ =>
    }
  }

  lemma ReadKeepsBooks(s: Session, m: Message)
    requires Books(s)
    ensures Books(ReadEnds(s, m))
  {
    hide Balanced, NoTwins, ApplyRemote, CheckIncoming, CommitRemote, RefusesAtOnce, Admit, AllFailing, Terminate;
    if s.reading.MessageRead? {
      if CheckIncoming(s.wire, m).Some? {
        ClosingKeepsBooks(s, CheckIncoming(s.wire, m).value, ReadEnds(s, m));
      } else {
        var committed := CommitRemote(s.wire, m);
        CommitRemoteIsBalanced(s.wire, m);
        SamePending(s.wire, m);
        if m.Request? && RefusesAtOnce(committed, m.block) {
          LessensKeepsBooks(s, ReadEnds(s, m));
        } else {
          ReadLessens(s.wire, m);
          LessensKeepsBooks(s, ReadEnds(s, m));
        }
      }
    }
  }

  lemma SameHeld(w: Wire, m: Message)
    ensures CommitRemote(w, m).peerRequests == w.peerRequests && CommitRemote(w, m).config == w.config
  {
  }

  lemma SamePending(w: Wire, m: Message)
    ensures CommitRemote(w, m).pending == w.pending
  {
  }

  lemma StepKeepsBooks(s: Session, e: Event)
    requires Books(s)
    ensures Books(Step(s, e))
  {
    hide Balanced, NoTwins, AllFailing, SendStarts, RequestStarts, WriteLands, WriteEnds, ReadEnds, Terminate, Settle, CallReports;
    hide Connect, Admit, QueuedBytes;
    match e
    case EndHandshakeRead(accepted) =>
      if s.reading.HandshakeRead? {
        if accepted {
          ConnectKeepsBooks(s.(reading := NoRead, received := true));
        } else {
          ClosingKeepsBooks(s, Mismatched, Step(s, e));
        }
      }
    case StartSend(m) => SendKeepsBooks(s, m);
    case StartRequest(block) => RequestKeepsBooks(s, block);
    case WriteDone => WriteKeepsBooks(s);
    case WriteBreaks(reason) =>
      if s.writes != [] && s.writeError.None? {
        ClosingKeepsBooks(s, reason, Step(s, e));
      }
    case WriteFails => LossKeepsBooks(s);
    case EndRead(m) => ReadKeepsBooks(s, m);
    case EndOfStream =>
      if !s.reading.NoRead? {
        ClosingKeepsBooks(s, Ended, Step(s, e));
      }
    case ReadCloses =>
      if s.failedReads != [] && s.failedReads[0] !in {NotConnected, QueueFull} {
        ClosingKeepsBooks(s, s.failedReads[0], Step(s, e));
      }
    case CallFails => ReportKeepsBooks(s);
    case Expires(block, reason) =>
      SettleLessens(s.wire, block, Failed(reason));
      LessensKeepsBooks(s, Step(s, e));
    case CloseCall(reason) => ClosingKeepsBooks(s, reason, Step(s, e));
    case _ =>
  }

  lemma {:induction false} RunKeepsBooks(s: Session, events: seq<Event>)
    requires Books(s)
    ensures Books(Run(s, events))
    decreases |events|
  {
    hide Books, Step;
    if events == [] {
    } else {
      StepKeepsBooks(s, events[0]);
      RunKeepsBooks(Step(s, events[0]), events[1..]);
    }
  }

  lemma BeginIsKept(config: Config, maxQueued: nat)
    ensures Books(Begin(config, maxQueued)) && Halves(Begin(config, maxQueued))
  {
  }

  /**
   Over every interleaving: each promise either still waits or was settled by exactly one call, a delivery has the
   length its request asked for, both request maps stay within the limit, and a closed session leaves no promise
   waiting but those of calls that have failed and are about to reject them.
   */
  lemma PromisesSettleOnceOverlapping(config: Config, maxQueued: nat, events: seq<Event>, ticket: nat)
    ensures var s := Run(Begin(config, maxQueued), events);
      && Tickets(s.wire.pending)[ticket] + SettledTickets(s.wire.settled)[ticket] == (if ticket < |s.wire.issued| then 1 else 0)
      && |s.wire.pending| <= s.wire.config.maxPending && |s.wire.peerRequests| <= s.wire.config.maxPending
      && (forall x <- s.wire.settled :: Honours(x, s.wire.issued))
      && (s.wire.state == Closed ==> AllFailing(s.wire.pending, s.failedCalls))
  {
    hide Run, Upto, SettledTickets, Tickets, AllFailing, NoTwins, Halves;
    BeginIsKept(config, maxQueued);
    RunKeepsBooks(Begin(config, maxQueued), events);
    UptoCounts(|Run(Begin(config, maxQueued), events).wire.issued|, ticket);
  }

  // ---- When a closed session stays closed ----

  function HandshakeFrames(writes: seq<Write>): nat {
    if writes == [] then 0 else (if writes[0].HandshakeFrame? then 1 else 0) + HandshakeFrames(writes[1..])
  }

  /** There is one handshake frame at most, and while there is one the handshake counts as sent. */
  predicate Halves(s: Session) {
    HandshakeFrames(s.writes) <= if s.sent then 1 else 0
  }

  /** The writes that may still succeed: the first one no longer does once the transport has reported its error. */
  function Alive(s: Session): seq<Write> {
    if s.writeError.Some? && s.writes != [] then s.writes[1..] else s.writes
  }

  /** A half of the handshake is under way that can still complete, with the other half done or itself counted as done. */
  predicate CanReopen(s: Session) {
    || (s.received && HandshakeFrames(Alive(s)) > 0)
    || (s.sent && s.reading.HandshakeRead?)
  }

  lemma {:induction false} FramesJoin(a: seq<Write>, b: seq<Write>)
    ensures HandshakeFrames(a + b) == HandshakeFrames(a) + HandshakeFrames(b)
  {
    if a == [] {
      assert a + b == b;
    } else {
      assert (a + b)[1..] == a[1..] + b;
      FramesJoin(a[1..], b);
    }
  }

  /** A frame of a message is added at the end of the queue. */
  lemma OneMoreFrame(writes: seq<Write>, w: Write)
    ensures HandshakeFrames(writes + [w]) == HandshakeFrames(writes) + if w.HandshakeFrame? then 1 else 0
  {
    FramesJoin(writes, [w]);
    assert [w][1..] == [];
  }

  lemma SentKeepsHalves(s: Session, t: Session, w: Write)
    requires Halves(s) && t.sent == s.sent && w.Frame? && (t.writes == s.writes || t.writes == s.writes + [w])
    ensures Halves(t)
  {
    OneMoreFrame(s.writes, w);
  }

  lemma StepKeepsHalves(s: Session, e: Event)
    requires Halves(s)
    ensures Halves(Step(s, e))
  {
    hide Terminate, Settle, Admit, QueuedBytes, ApplyRemote, ApplyLocal, CommitLocal, CommitRemote, CheckIncoming, RefusesAtOnce;
    hide Find, BlockFits, Tracked, Asked, Resumed, Halted, ReadEnds, ChokeGoesOn;
    match e
    case StartHandshakeWrite => OneMoreFrame(s.writes, HandshakeFrame);
    case StartSend(m) => SentKeepsHalves(s, Step(s, e), Frame(m, ByCall));
    case StartRequest(block) => SentKeepsHalves(s, Step(s, e), Frame(Request(block), ByPromise));
    case EndRead(m) => ReadKeepsHalves(s, m);
    case NextReject(c) => ChokeKeepsHalves(s, c);
    case _ =>
  }

  lemma ReadKeepsHalves(s: Session, m: Message)
    requires Halves(s)
    ensures Halves(ReadEnds(s, m))
  {
    hide Terminate, Admit, ApplyRemote, CommitRemote, CheckIncoming, RefusesAtOnce, HandshakeFrames;
    OneMoreFrame(s.writes, Frame(if m.Request? then RejectRequest(m.block) else m, ByRefusal));
  }

  lemma ChokeKeepsHalves(s: Session, c: nat)
    requires Halves(s)
    ensures Halves(ChokeGoesOn(s, c))
  {
    hide Admit, HandshakeFrames;
    if c < |s.loops| && s.loops[c].Rejecting? && s.loops[c].rest != [] {
      OneMoreFrame(s.writes, Frame(RejectRequest(s.loops[c].rest[0]), ByChoke(c)));
    }
  }

  lemma {:induction false} RunKeepsHalves(s: Session, events: seq<Event>)
    requires Halves(s)
    ensures Halves(Run(s, events))
    decreases |events|
  {
    hide Halves, Step;
    if events == [] {
    } else {
      StepKeepsHalves(s, events[0]);
      RunKeepsHalves(Step(s, events[0]), events[1..]);
    }
  }

  /** Closed, with no half under way that could reopen it. */
  predicate ClosedForGood(s: Session) {
    s.wire.state == Closed && Halves(s) && !CanReopen(s)
  }

  /** A closed session admits nothing, so that no write is added. */
  lemma ClosedAdmitsNothing(s: Session, m: Message, tracked: bool)
    requires s.wire.state == Closed
    ensures Admit(s, m, tracked) == Some(NotConnected)
  {
  }

  lemma SettleKeepsState(w: Wire, block: Block, outcome: Outcome)
    ensures Settle(w, block, outcome).state == w.state && Settle(w, block, outcome).peerRequests == w.peerRequests
  {
  }

  lemma TerminatedAlready(w: Wire, reason: Failure)
    requires w.state == Closed
    ensures Terminate(w, reason) == w
  {
  }

  lemma LandingKeepsState(w: Wire, m: Message)
    ensures ApplyLocal(CommitLocal(w, m), m).state == w.state
  {
    hide ApplyLocal, CommitLocal;
    CommitLocalOpen(w, m);
    LocalIsLess(CommitLocal(w, m), m);
  }

  lemma ReadingKeepsState(w: Wire, m: Message)
    requires m.Request? ==> !RefusesAtOnce(CommitRemote(w, m), m.block)
    ensures ApplyRemote(CommitRemote(w, m), m).wire.state == w.state
  {
    hide ApplyRemote, RefusesAtOnce, NoTwins;
    RemoteIsLess(CommitRemote(w, m), m);
  }

  lemma StepStaysClosed(s: Session, e: Event)
    requires ClosedForGood(s)
    ensures ClosedForGood(Step(s, e))
  {
    StepKeepsHalves(s, e);
    ClosedStep(s, e);
  }

  lemma ClosedStep(s: Session, e: Event)
    requires ClosedForGood(s)
    ensures Step(s, e).wire.state == Closed && !CanReopen(Step(s, e))
  {
    hide Terminate, Settle, Admit, QueuedBytes, ApplyRemote, ApplyLocal, CommitLocal, CommitRemote, CheckIncoming, RefusesAtOnce;
    hide Find, BlockFits, Tracked, Resumed, Halted, WriteLands, WriteEnds, ReadEnds;
    match e
    case EndHandshakeRead(_) => TerminatedAlready(s.wire, Mismatched);
    case StartSend(m) => ClosedAdmitsNothing(s, m, true);
    case StartRequest(block) => ClosedAdmitsNothing(s.(wire := Asked(s.wire, block)), Request(block), false);
    case WriteDone => ClosedWrite(s);
    case WriteBreaks(reason) => TerminatedAlready(s.wire, reason);
    case WriteFails => ClosedWrite(s);
    case EndRead(m) => ClosedRead(s, m);
    case EndOfStream => TerminatedAlready(s.wire, Ended);
    case ReadCloses =>
      if s.failedReads != [] {
        TerminatedAlready(s.wire, s.failedReads[0]);
      }
    case NextReject(c) =>
      if c < |s.loops| && s.loops[c].Rejecting? && s.loops[c].rest != [] {
        ClosedAdmitsNothing(s, RejectRequest(s.loops[c].rest[0]), true);
      }
    case CallFails =>
      if s.failedCalls != [] {
        SettleKeepsState(s.wire, s.failedCalls[0].block, Failed(s.failedCalls[0].reason));
      }
    case Expires(block, reason) => SettleKeepsState(s.wire, block, Failed(reason));
    case CloseCall(reason) => TerminatedAlready(s.wire, reason);
    case _ =>
  }

  lemma ClosedWrite(s: Session)
    requires ClosedForGood(s)
    ensures WriteLands(s).wire.state == Closed && !CanReopen(WriteLands(s))
    ensures WriteEnds(s).wire.state == Closed && !CanReopen(WriteEnds(s))
  {
    hide Settle, ApplyLocal, CommitLocal, Resumed, Halted;
    if s.writes != [] && s.writes[0].Frame? {
      LandingKeepsState(s.wire, s.writes[0].message);
      LossKeepsState(s);
    }
  }

  /** A closed session may still take in a message that was being read, but it starts nothing. */
  lemma ClosedRead(s: Session, m: Message)
    requires s.wire.state == Closed
    ensures var t := ReadEnds(s, m);
      && t.wire.state == Closed && t.sent == s.sent && t.received == s.received && t.writes == s.writes && t.writeError == s.writeError
      && (t.reading == s.reading || t.reading == NoRead)
  {
    hide Terminate, Admit, ApplyRemote, CommitRemote, CheckIncoming, RefusesAtOnce;
    CommitRemoteKeepsState(s.wire, m);
    if s.reading.MessageRead? {
      if CheckIncoming(s.wire, m).Some? {
        TerminatedAlready(s.wire, CheckIncoming(s.wire, m).value);
      } else if m.Request? && RefusesAtOnce(CommitRemote(s.wire, m), m.block) {
        ClosedAdmitsNothing(s.(reading := NoRead, wire := CommitRemote(s.wire, m)), RejectRequest(m.block), true);
      } else {
        ReadingKeepsState(s.wire, m);
      }
    }
  }

  lemma CommitRemoteKeepsState(w: Wire, m: Message)
    ensures CommitRemote(w, m).state == w.state
  {
  }

  lemma {:induction false} StaysClosed(s: Session, events: seq<Event>)
    requires ClosedForGood(s)
    ensures ClosedForGood(Run(s, events))
    decreases |events|
  {
    hide ClosedForGood, Step;
    if events == [] {
    } else {
      StepStaysClosed(s, events[0]);
      StaysClosed(Step(s, events[0]), events[1..]);
    }
  }

  /** The writes before the handshake frame are completed one by one, and it is written. */
  lemma {:induction false} DrainToHandshake(s: Session) returns (events: seq<Event>)
    requires s.wire.state == Closed && Halves(s) && s.sent && s.received && HandshakeFrames(Alive(s)) > 0
    ensures Run(s, events).wire.state == Connected
    decreases |s.writes|
  {
    hide Terminate, Settle, ApplyLocal, CommitLocal, Halted, Resumed;
    var e := if s.writeError.Some? then WriteFails else WriteDone;
    var next := Step(s, e);
    StepKeepsHalves(s, e);
    if s.writes[0].Frame? {
      LandingKeepsState(s.wire, s.writes[0].message);
      LossKeepsState(s);
      var rest := DrainToHandshake(next);
      events := [e] + rest;
      assert events[1..] == rest;
    } else {
      assert s.writeError.None? ==> next.wire.state == Connected;
      if s.writeError.Some? {
        assert false;
      }
      events := [e];
      assert events[1..] == [];
      assert Run(next, []) == next;
    }
  }

  lemma LossKeepsState(s: Session)
    ensures WriteEnds(s).wire.state == s.wire.state
  {
  }

  /** A closed session stays closed, whatever comes, exactly when no half of the handshake can complete any more. */
  lemma ReopensExactly(config: Config, maxQueued: nat, before: seq<Event>)
    requires Run(Begin(config, maxQueued), before).wire.state == Closed
    ensures var s := Run(Begin(config, maxQueued), before);
      (exists events :: Run(s, events).wire.state != Closed) <==> CanReopen(s)
  {
    hide Books, Run, Step;
    var s := Run(Begin(config, maxQueued), before);
    BeginIsKept(config, maxQueued);
    RunKeepsHalves(Begin(config, maxQueued), before);
    if CanReopen(s) {
      var events := Reopening(s);
      assert Run(s, events).wire.state != Closed;
    } else {
      forall events ensures Run(s, events).wire.state == Closed {
        StaysClosed(s, events);
      }
    }
  }

  lemma Reopening(s: Session) returns (events: seq<Event>)
    requires s.wire.state == Closed && Halves(s) && CanReopen(s)
    ensures Run(s, events).wire.state == Connected
  {
    if s.sent && s.reading.HandshakeRead? {
      events := [EndHandshakeRead(true)];
      RunOfOne(s, EndHandshakeRead(true));
    } else {
      AliveIsPart(s);
      events := DrainToHandshake(s);
    }
  }

  lemma AliveIsPart(s: Session)
    ensures HandshakeFrames(Alive(s)) <= HandshakeFrames(s.writes)
  {
  }

  lemma RunOfOne(s: Session, e: Event)
    ensures Run(s, [e]) == Step(s, e)
  {
    hide Step;
    assert [e][1..] == [];
  }

  lemma RunOfTwo(s: Session, a: Event, rest: seq<Event>)
    ensures Run(s, [a] + rest) == Run(Step(s, a), rest)
  {
    hide Step;
    assert ([a] + rest)[1..] == rest;
  }

  /** It does happen, even after the session has been connected: the handshake was read while it was being written. */
  lemma MayReopen(config: Config)
    ensures var s := Run(Begin(config, HANDSHAKE_LENGTH), [StartHandshakeWrite, StartHandshakeRead, EndHandshakeRead(true)]);
      && s.wire.state == Connected
      && Step(s, CloseCall(Ended)).wire.state == Closed
      && Run(s, [CloseCall(Ended), WriteDone]).wire.state == Connected
  {
    hide Run, Step;
    var a := Begin(config, HANDSHAKE_LENGTH);
    var b := a.(sent := true, writes := [HandshakeFrame]);
    var c := b.(reading := HandshakeRead);
    var d := b.(received := true, wire := a.wire.(state := Connected));
    FirstSteps(config, a, b, c, d);
    RunOfTwo(a, StartHandshakeWrite, [StartHandshakeRead, EndHandshakeRead(true)]);
    RunOfTwo(b, StartHandshakeRead, [EndHandshakeRead(true)]);
    RunOfOne(c, EndHandshakeRead(true));
    assert [StartHandshakeWrite] + [StartHandshakeRead, EndHandshakeRead(true)] == [StartHandshakeWrite, StartHandshakeRead, EndHandshakeRead(true)];
    assert [StartHandshakeRead] + [EndHandshakeRead(true)] == [StartHandshakeRead, EndHandshakeRead(true)];
    RunOfTwo(d, CloseCall(Ended), [WriteDone]);
    assert [CloseCall(Ended)] + [WriteDone] == [CloseCall(Ended), WriteDone];
    RunOfOne(Step(d, CloseCall(Ended)), WriteDone);
    ClosedThenWritten(d);
  }

  lemma FirstSteps(config: Config, a: Session, b: Session, c: Session, d: Session)
    requires a == Begin(config, HANDSHAKE_LENGTH) && b == a.(sent := true, writes := [HandshakeFrame])
    requires c == b.(reading := HandshakeRead) && d == b.(received := true, wire := a.wire.(state := Connected))
    ensures Step(a, StartHandshakeWrite) == b && Step(b, StartHandshakeRead) == c && Step(c, EndHandshakeRead(true)) == d
  {
  }

  lemma ClosedThenWritten(s: Session)
    requires s.wire.state == Connected && s.sent && s.received && s.writes == [HandshakeFrame] && s.writeError.None?
    ensures Step(s, CloseCall(Ended)).wire.state == Closed && Step(Step(s, CloseCall(Ended)), WriteDone).wire.state == Connected
  {
    hide SettleAll;
    SettleAllKeepsState(s.wire.(state := Closed), Blocks(s.wire.pending), Failed(Ended));
  }

  // ---- When the request map of a closed session stays empty ----

  /** What decides whether a request is taken in: the settings, the availability order, the choking and the requests held. */
  predicate SameView(w: Wire, v: Wire) {
    && SameRemote(w, v) && v.peerRequests == w.peerRequests
    && v.localChoking == w.localChoking && v.localAllowedFast == w.localAllowedFast
  }

  /** Once this frame is written the block is not refused. */
  predicate Helps(s: Session, w: Write, block: Block) {
    w.Frame? && (w.message == Unchoke || (Fast in s.wire.config.negotiated && w.message == AllowedFast(block.piece)))
  }

  /**
   A request for this block would be taken in if it were read now, or once a message that unchokes or allows the piece
   has been written.
   */
  predicate Admissible(s: Session, block: Block) {
    && CheckIncoming(s.wire, Request(block)).None?
    && (!RefusesAtOnce(s.wire, block) || exists w <- Alive(s) :: Helps(s, w, block))
  }

  /** Nothing is held, and nothing that is under way can change that. */
  ghost predicate EmptyForGood(s: Session) {
    ClosedForGood(s) && s.wire.peerRequests == [] && (s.reading.MessageRead? ==> forall block :: !Admissible(s, block))
  }

  lemma SameViewAdmits(w: Wire, v: Wire, block: Block)
    requires SameView(w, v)
    ensures CheckIncoming(v, Request(block)) == CheckIncoming(w, Request(block)) && RefusesAtOnce(v, block) == RefusesAtOnce(w, block)
  {
    hide InBounds, Encodable;
  }

  lemma NotMoreAdmissible(s: Session, t: Session)
    requires EmptyForGood(s) && ClosedForGood(t) && SameView(s.wire, t.wire)
    requires t.reading == NoRead || (t.reading == s.reading && forall w <- Alive(t) :: w in Alive(s))
    ensures EmptyForGood(t)
  {
    hide ClosedForGood, CheckIncoming, RefusesAtOnce, Alive, SameView;
    SameViewHeld(s.wire, t.wire);
    forall block | t.reading.MessageRead? ensures !Admissible(t, block) {
      SameViewAdmits(s.wire, t.wire, block);
      assert !Admissible(s, block);
    }
  }

  lemma SameViewHeld(w: Wire, v: Wire)
    requires SameView(w, v)
    ensures v.peerRequests == w.peerRequests && v.config == w.config
  {
  }

  lemma SettleSameView(w: Wire, block: Block, outcome: Outcome)
    ensures SameView(w, Settle(w, block, outcome))
  {
    hide Find, Without;
  }

  /** What a message that has been written changes of the view. */
  lemma LandedView(w: Wire, m: Message)
    requires w.peerRequests == []
    ensures var v := ApplyLocal(CommitLocal(w, m), m);
      && SameRemote(w, v) && v.peerRequests == []
      && v.localChoking == (if m.Choke? then true else if m.Unchoke? then false else w.localChoking)
      && v.localAllowedFast == w.localAllowedFast + if m.AllowedFast? then {m.piece} else {}
  {
    hide Settle, LocalFlags, CommitLocal, SameView, SameRemote;
    var before := CommitLocal(w, m);
    CommitLocalView(w, m);
    SameViewIs(w, before);
    if m.Piece? || m.RejectRequest? {
      AnswerView(before, Answered(m));
      SameViewIs(before, ApplyLocal(before, m));
    } else if m.Cancel? {
      SettleSameView(before, m.block, Failed(Cancelled));
      SameViewAsBefore(before);
      SameViewIs(before, ApplyLocal(before, m));
    } else {
      FlagsView(before, m);
    }
  }

  lemma SameViewIs(w: Wire, v: Wire)
    requires SameView(w, v)
    ensures forall u :: SameRemote(v, u) ==> SameRemote(w, u)
    ensures SameRemote(w, v) && v.peerRequests == w.peerRequests && v.localChoking == w.localChoking
    ensures v.localAllowedFast == w.localAllowedFast && v.config == w.config
  {
  }

  lemma AnswerView(w: Wire, block: Block)
    requires w.peerRequests == []
    ensures SameView(w, w.(peerRequests := Dropped(w.peerRequests, block)))
  {
  }

  lemma CommitLocalView(w: Wire, m: Message)
    ensures SameView(w, CommitLocal(w, m))
  {
  }

  lemma FlagsView(w: Wire, m: Message)
    ensures var v := LocalFlags(w, m);
      && SameRemote(w, v) && v.peerRequests == w.peerRequests
      && v.localChoking == (if m.Choke? then true else if m.Unchoke? then false else w.localChoking)
      && v.localAllowedFast == w.localAllowedFast + if m.AllowedFast? then {m.piece} else {}
  {
  }

  lemma LandingAdmitsNoMore(s: Session, block: Block)
    requires s.wire.peerRequests == [] && s.writeError.None? && s.writes != [] && s.writes[0].Frame?
    requires Admissible(WriteLands(s), block)
    ensures Admissible(s, block)
  {
    hide ApplyLocal, CommitLocal, CheckIncoming, Resumed;
    var m, t := s.writes[0].message, WriteLands(s);
    LandedView(s.wire, m);
    assert s.writes[0] in Alive(s) && Alive(t) == s.writes[1..];
    var same := t.wire.(localChoking := s.wire.localChoking, localAllowedFast := s.wire.localAllowedFast);
    SameViewAdmits(s.wire, same, block);
    CheckIgnoresChoking(t.wire, s.wire.localChoking, s.wire.localAllowedFast, block);
    if RefusesAtOnce(s.wire, block) {
      if RefusesAtOnce(t.wire, block) {
        var w :| w in Alive(t) && Helps(t, w, block);
        assert w in Alive(s) && Helps(s, w, block);
      } else {
        assert Helps(s, s.writes[0], block);
      }
    }
  }

  lemma CheckIgnoresChoking(w: Wire, choking: bool, allowed: set<nat>, block: Block)
    ensures CheckIncoming(w.(localChoking := choking, localAllowedFast := allowed), Request(block)) == CheckIncoming(w, Request(block))
  {
    hide InBounds, Encodable;
  }

  lemma LandingKeepsEmpty(s: Session)
    requires EmptyForGood(s) && ClosedForGood(WriteLands(s))
    ensures EmptyForGood(WriteLands(s))
  {
    hide ClosedForGood, Admissible, ApplyLocal, CommitLocal, Alive;
    if s.writes != [] && s.writeError.None? {
      if s.writes[0].HandshakeFrame? {
        StillClosed(s);
        AliveAfterLanding(s);
        NotMoreAdmissible(s, WriteLands(s));
      } else {
        LandedView(s.wire, s.writes[0].message);
        forall block | s.reading.MessageRead? ensures !Admissible(WriteLands(s), block) {
          if Admissible(WriteLands(s), block) {
            LandingAdmitsNoMore(s, block);
          }
        }
      }
    }
  }

  lemma StillClosed(s: Session)
    requires ClosedForGood(s) && s.writes != [] && s.writes[0].HandshakeFrame? && s.writeError.None?
    ensures WriteLands(s) == s.(writes := s.writes[1..])
  {
  }

  lemma AliveAfterLanding(s: Session)
    requires s.writes != []
    ensures s.writeError.None? ==> forall w <- Alive(s.(writes := s.writes[1..])) :: w in Alive(s)
    ensures forall reason :: forall w <- Alive(s.(writeError := Some(reason))) :: w in Alive(s) || s.writeError.Some?
  {
  }

  lemma ReadKeepsEmpty(s: Session, m: Message)
    requires EmptyForGood(s) && ClosedForGood(ReadEnds(s, m))
    ensures EmptyForGood(ReadEnds(s, m))
  {
    hide ClosedForGood, CheckIncoming, ApplyRemote, Admit, Terminate, RefusesAtOnce, CommitRemote;
    if s.reading.MessageRead? {
      IsClosed(s);
      if CheckIncoming(s.wire, m).Some? {
        TerminatedAlready(s.wire, CheckIncoming(s.wire, m).value);
      } else {
        var committed := CommitRemote(s.wire, m);
        SameHeld(s.wire, m);
        CommitRemoteKeepsState(s.wire, m);
        if m.Request? {
          assert !Admissible(s, m.block);
          CommitKeepsRefusal(s.wire, m);
          ClosedAdmitsNothing(s.(reading := NoRead, wire := committed), RejectRequest(m.block), true);
        } else {
          OnlyRequestsAreHeld(committed, m);
        }
      }
    }
  }

  lemma IsClosed(s: Session)
    requires ClosedForGood(s)
    ensures s.wire.state == Closed
  {
  }

  lemma CommitKeepsRefusal(w: Wire, m: Message)
    requires m.Request?
    ensures RefusesAtOnce(CommitRemote(w, m), m.block) == RefusesAtOnce(w, m.block)
  {
  }

  lemma OnlyRequestsAreHeld(w: Wire, m: Message)
    requires !m.Request? && w.peerRequests == []
    ensures ApplyRemote(w, m).wire.peerRequests == []
  {
    hide ApplyAnswer, ApplyChoke, RemoteFlags;
    if m.Piece? || m.RejectRequest? {
      AnswerKeepsHeld(w, m);
    } else if m.Choke? {
      ChokeKeepsHeld(w);
    } else if !m.Cancel? {
      RemoteFlagsKeepHeld(w, m);
    }
  }

  lemma RemoteFlagsKeepHeld(w: Wire, m: Message)
    ensures RemoteFlags(w, m).peerRequests == w.peerRequests
  {
  }

  lemma AnswerKeepsHeld(w: Wire, m: Message)
    requires m.Piece? || m.RejectRequest?
    ensures ApplyAnswer(w, m).wire.peerRequests == w.peerRequests
  {
    hide Settle, Find;
  }

  lemma ChokeKeepsHeld(w: Wire)
    ensures ApplyChoke(w).peerRequests == w.peerRequests
  {
    hide SettleAll, Blocks;
    SettleAllKeepsHeld(w.(remoteChoking := true), Blocks(w.pending), Failed(Choked));
  }

  lemma {:induction false} SettleAllKeepsHeld(w: Wire, blocks: seq<Block>, outcome: Outcome)
    ensures SettleAll(w, blocks, outcome).peerRequests == w.peerRequests
    decreases |blocks|
  {
    hide Find, Without;
    if blocks == [] {
    } else {
      SettleAllKeepsHeld(Settle(w, blocks[0], outcome), blocks[1..], outcome);
    }
  }

  lemma StepKeepsEmpty(s: Session, e: Event)
    requires EmptyForGood(s)
    ensures EmptyForGood(Step(s, e))
  {
    hide *;
    IsEmpty(s);
    StepStaysClosed(s, e);
    ReadAndWriteSteps(s, e);
    if e.WriteDone? {
      LandingKeepsEmpty(s);
    } else if e.EndRead? {
      ReadKeepsEmpty(s, e.message);
    } else {
      StepKeepsView(s, e);
      NotMoreAdmissible(s, Step(s, e));
    }
  }

  lemma ReadAndWriteSteps(s: Session, e: Event)
    ensures e.WriteDone? ==> Step(s, e) == WriteLands(s)
    ensures e.EndRead? ==> Step(s, e) == ReadEnds(s, e.message)
  {
    hide WriteLands, ReadEnds;
  }

  lemma IsEmpty(s: Session)
    requires EmptyForGood(s)
    ensures ClosedForGood(s) && s.wire.peerRequests == []
  {
  }

  lemma SameViewAsBefore(w: Wire)
    ensures SameView(w, w)
  {
  }

  lemma AskedSameView(w: Wire, block: Block)
    ensures SameView(w, Asked(w, block))
  {
  }

  lemma StepKeepsView(s: Session, e: Event)
    requires ClosedForGood(s) && !e.WriteDone? && !e.EndRead?
    ensures SameView(s.wire, Step(s, e).wire)
    ensures Step(s, e).reading == NoRead || Step(s, e).reading == s.reading
    ensures forall w <- Alive(Step(s, e)) :: w in Alive(s)
  {
    hide *;
    if e.StartSend? || e.StartRequest? || e.NextReject? || e.StartHandshakeWrite? || e.StartHandshakeRead? || e.StartRead? {
      StartKeepsView(s, e);
    } else {
      EndKeepsView(s, e);
    }
  }

  lemma StartKeepsView(s: Session, e: Event)
    requires ClosedForGood(s)
    requires e.StartSend? || e.StartRequest? || e.NextReject? || e.StartHandshakeWrite? || e.StartHandshakeRead? || e.StartRead?
    ensures SameView(s.wire, Step(s, e).wire)
    ensures Step(s, e).reading == NoRead || Step(s, e).reading == s.reading
    ensures forall w <- Alive(Step(s, e)) :: w in Alive(s)
  {
    hide Terminate, Settle, Admit, QueuedBytes, Find, BlockFits, Tracked, Asked, WriteLands, WriteEnds, ReadEnds, SameView, HandshakeFrames;
    hide ReadReports, CallReports, WriteErrs;
    SameViewAsBefore(s.wire);
    match e
    case StartSend(m) => ClosedAdmitsNothing(s, m, true);
    case StartRequest(block) =>
      AskedSameView(s.wire, block);
      AskedKeepsState(s.wire, block);
      ClosedAdmitsNothing(s.(wire := Asked(s.wire, block)), Request(block), false);
    case NextReject(c) =>
      if c < |s.loops| && s.loops[c].Rejecting? && s.loops[c].rest != [] {
        ClosedAdmitsNothing(s, RejectRequest(s.loops[c].rest[0]), true);
      }
    case _ =>
  }

  lemma EndKeepsView(s: Session, e: Event)
    requires ClosedForGood(s) && !e.WriteDone? && !e.EndRead?
    requires !(e.StartSend? || e.StartRequest? || e.NextReject? || e.StartHandshakeWrite? || e.StartHandshakeRead? || e.StartRead?)
    ensures SameView(s.wire, Step(s, e).wire)
    ensures Step(s, e).reading == NoRead || Step(s, e).reading == s.reading
    ensures forall w <- Alive(Step(s, e)) :: w in Alive(s)
  {
    hide Terminate, Settle, Admit, QueuedBytes, Find, BlockFits, Tracked, Asked, WriteLands, WriteEnds, ReadEnds, SameView, HandshakeFrames;
    hide StartHandshake, SendStarts, RequestStarts, ChokeGoesOn;
    SameViewAsBefore(s.wire);
    match e
    case EndHandshakeRead(_) => TerminatedAlready(s.wire, Mismatched);
    case WriteBreaks(reason) => TerminatedAlready(s.wire, reason);
    case WriteFails => LossKeepsView(s);
    case EndOfStream => TerminatedAlready(s.wire, Ended);
    case ReadCloses =>
      if s.failedReads != [] {
        TerminatedAlready(s.wire, s.failedReads[0]);
      }
    case CallFails =>
      if s.failedCalls != [] {
        SettleSameView(s.wire, s.failedCalls[0].block, Failed(s.failedCalls[0].reason));
      }
    case Expires(block, reason) => SettleSameView(s.wire, block, Failed(reason));
    case CloseCall(reason) => TerminatedAlready(s.wire, reason);
    case _ =>
  }

  lemma LossKeepsView(s: Session)
    ensures SameView(s.wire, WriteEnds(s).wire) && WriteEnds(s).reading == s.reading
    ensures forall w <- Alive(WriteEnds(s)) :: w in Alive(s)
  {
    hide Settle, Halted, SameView;
    SameViewAsBefore(s.wire);
    if s.writes != [] && s.writeError.Some? && s.writes[0].Frame? && s.writes[0].message.Request? {
      SettleSameView(s.wire, s.writes[0].message.block, Failed(s.writeError.value));
    }
  }

  lemma AskedKeepsState(w: Wire, block: Block)
    ensures Asked(w, block).state == w.state
  {
  }

  lemma {:induction false} RunKeepsEmpty(s: Session, events: seq<Event>)
    requires EmptyForGood(s)
    ensures EmptyForGood(Run(s, events))
    decreases |events|
  {
    hide EmptyForGood, Step;
    if events == [] {
    } else {
      StepKeepsEmpty(s, events[0]);
      RunKeepsEmpty(Step(s, events[0]), events[1..]);
    }
  }

  /** The writes before the one that admits the block are lost one by one; then the request is read. */
  lemma {:induction false} AdmitsLate(s: Session, block: Block) returns (events: seq<Event>)
    requires s.wire.state == Closed && s.wire.peerRequests == [] && s.reading.MessageRead? && Admissible(s, block)
    ensures Run(s, events).wire.peerRequests != []
    decreases |s.writes|, if s.writeError.None? then 1 else 0
  {
    hide Run, Terminate, CheckIncoming, RefusesAtOnce, ApplyLocal, CommitLocal, Settle;
    var e;
    if !RefusesAtOnce(s.wire, block) {
      e := EndRead(Request(block));
      TakesLate(s, block);
      RunOfOne(s, e);
      return [e];
    } else if s.writeError.Some? {
      e := WriteFails;
      LossAdmits(s, block);
    } else if s.writes != [] && Helps(s, s.writes[0], block) {
      e := WriteDone;
      LandingAdmits(s, block);
    } else {
      e := WriteBreaks(Aborted);
      TerminatedAlready(s.wire, Aborted);
      assert Step(s, e) == s.(writeError := Some(Aborted));
      BreakingAdmits(s, block);
    }
    var rest := AdmitsLate(Step(s, e), block);
    events := [e] + rest;
    RunOfTwo(s, e, rest);
  }

  lemma TakesLate(s: Session, block: Block)
    requires s.reading.MessageRead? && CheckIncoming(s.wire, Request(block)).None? && !RefusesAtOnce(s.wire, block)
    ensures ReadEnds(s, Request(block)).wire.peerRequests != []
  {
    hide CheckIncoming, RefusesAtOnce;
    CommitKeepsRefusal(s.wire, Request(block));
  }

  lemma LossAdmits(s: Session, block: Block)
    requires Admissible(s, block) && RefusesAtOnce(s.wire, block) && s.writeError.Some?
    ensures s.writes != [] && |WriteEnds(s).writes| < |s.writes| && Admissible(WriteEnds(s), block)
    ensures WriteEnds(s).wire.state == s.wire.state && WriteEnds(s).wire.peerRequests == s.wire.peerRequests
    ensures WriteEnds(s).reading == s.reading
  {
    hide CheckIncoming, RefusesAtOnce, Settle, Halted, SameView;
    LossKeepsState(s);
    LossKeepsView(s);
    var t := WriteEnds(s);
    SameViewAdmits(s.wire, t.wire, block);
    SameViewHeld(s.wire, t.wire);
    assert Alive(t) == Alive(s);
  }

  lemma LandingAdmits(s: Session, block: Block)
    requires Admissible(s, block) && s.writeError.None? && s.writes != [] && s.wire.peerRequests == []
    requires Helps(s, s.writes[0], block)
    ensures Admissible(WriteLands(s), block) && WriteLands(s).wire.peerRequests == [] && |WriteLands(s).writes| < |s.writes|
    ensures WriteLands(s).wire.state == s.wire.state && WriteLands(s).reading == s.reading
  {
    hide ApplyLocal, CommitLocal, CheckIncoming, Resumed;
    var m, t := s.writes[0].message, WriteLands(s);
    LandedView(s.wire, m);
    LandingKeepsState(s.wire, m);
    var same := t.wire.(localChoking := s.wire.localChoking, localAllowedFast := s.wire.localAllowedFast);
    SameViewAdmits(s.wire, same, block);
    CheckIgnoresChoking(t.wire, s.wire.localChoking, s.wire.localAllowedFast, block);
    assert Alive(t) == s.writes[1..];
  }

  lemma BreakingAdmits(s: Session, block: Block)
    requires Admissible(s, block) && RefusesAtOnce(s.wire, block) && s.writeError.None?
    ensures s.writes != []
    ensures Helps(s, s.writes[0], block) || Admissible(s.(writeError := Some(Aborted)), block)
  {
    hide CheckIncoming, RefusesAtOnce;
    var w :| w in Alive(s) && Helps(s, w, block);
    var t := s.(writeError := Some(Aborted));
    assert s.writes == [s.writes[0]] + s.writes[1..];
    if w != s.writes[0] {
      assert w in Alive(t) && Helps(t, w, block);
    }
  }

  /**
   The request map of a closed session that stays closed remains empty, whatever comes, exactly when no message is
   being read, or no request could be taken in from one.
   */
  lemma ClosedMapStaysEmptyExactly(config: Config, maxQueued: nat, before: seq<Event>)
    requires var s := Run(Begin(config, maxQueued), before);
      s.wire.state == Closed && !CanReopen(s) && s.wire.peerRequests == []
    ensures var s := Run(Begin(config, maxQueued), before);
      (exists events :: Run(s, events).wire.peerRequests != []) <==> s.reading.MessageRead? && exists block :: Admissible(s, block)
  {
    hide Run, Step, Admissible, CanReopen, Halves;
    var s := Run(Begin(config, maxQueued), before);
    BeginIsKept(config, maxQueued);
    RunKeepsHalves(Begin(config, maxQueued), before);
    if block :| s.reading.MessageRead? && Admissible(s, block) {
      var events := AdmitsLate(s, block);
      assert Run(s, events).wire.peerRequests != [];
    } else {
      forall events ensures Run(s, events).wire.peerRequests == [] {
        RunKeepsEmpty(s, events);
      }
    }
  }

  /** It does happen: a request whose bytes had arrived before the close is held afterwards. */
  lemma MayHoldLate(s: Session, block: Block)
    requires s.wire.state == Connected && s.reading.NoRead? && s.wire.peerRequests == []
    requires CheckIncoming(s.wire, Request(block)).None? && !RefusesAtOnce(s.wire, block)
    ensures var closed := Run(s, [StartRead, CloseCall(Ended)]);
      && closed.wire.state == Closed && closed.wire.peerRequests == []
      && Run(s, [StartRead, CloseCall(Ended), EndRead(Request(block))]).wire.peerRequests != []
  {
    hide Run, CheckIncoming, RefusesAtOnce;
    var reading := s.(reading := MessageRead);
    var closed := reading.(wire := Terminate(s.wire, Ended));
    assert Step(s, StartRead) == reading && Step(reading, CloseCall(Ended)) == closed;
    assert [StartRead] + [CloseCall(Ended)] == [StartRead, CloseCall(Ended)];
    assert [StartRead] + [CloseCall(Ended), EndRead(Request(block))] == [StartRead, CloseCall(Ended), EndRead(Request(block))];
    assert [CloseCall(Ended)] + [EndRead(Request(block))] == [CloseCall(Ended), EndRead(Request(block))];
    RunOfTwo(s, StartRead, [CloseCall(Ended)]);
    RunOfOne(reading, CloseCall(Ended));
    RunOfTwo(s, StartRead, [CloseCall(Ended), EndRead(Request(block))]);
    RunOfTwo(reading, CloseCall(Ended), [EndRead(Request(block))]);
    RunOfOne(closed, EndRead(Request(block)));
    ClosingSameView(s.wire, Ended);
    SameViewAdmits(s.wire, closed.wire, block);
    TakesLate(closed, block);
  }

  lemma ClosingSameView(w: Wire, reason: Failure)
    requires w.state != Closed && w.peerRequests == []
    ensures Terminate(w, reason).state == Closed && SameView(w, Terminate(w, reason))
  {
    hide SettleAll, Blocks;
    SettleAllKeepsState(w.(state := Closed), Blocks(w.pending), Failed(reason));
    SettleAllSameView(w.(state := Closed), Blocks(w.pending), Failed(reason));
  }

  lemma {:induction false} SettleAllSameView(w: Wire, blocks: seq<Block>, outcome: Outcome)
    ensures SameView(w, SettleAll(w, blocks, outcome))
    decreases |blocks|
  {
    hide Settle;
    if blocks == [] {
    } else {
      SettleSameView(w, blocks[0], outcome);
      SettleAllSameView(Settle(w, blocks[0], outcome), blocks[1..], outcome);
    }
  }

  // ---- Operations that do not overlap are single steps ----

  /** A send that starts with nothing else to write, and is written before anything else happens. */
  lemma SendAlone(s: Session, m: Message)
    requires s.writes == [] && s.writeError.None? && QueuedBytes([]) + 4 + FrameLength(m) <= s.maxQueued
    ensures var one, t := SendOne(s.wire, m, true), Run(s, [StartSend(m), WriteDone]);
      && t.wire == one.wire && t.writes == []
      && (one.failure.Some? <==> Admit(s, m, true).Some?)
  {
    hide Run, Step, SendOne, Admit;
    RunOfTwo(s, StartSend(m), [WriteDone]);
    assert [StartSend(m)] + [WriteDone] == [StartSend(m), WriteDone];
    RunOfOne(Step(s, StartSend(m)), WriteDone);
    SendsOne(s, m);
    StartsAlone(s, m);
  }

  lemma SendsOne(s: Session, m: Message)
    requires s.writes == [] && QueuedBytes([]) + 4 + FrameLength(m) <= s.maxQueued
    ensures var one := SendOne(s.wire, m, true);
      && (one.failure.Some? <==> Admit(s, m, true).Some?)
      && one.wire == if one.failure.Some? then s.wire else ApplyLocal(CommitLocal(Tracked(s.wire, m), m), m)
  {
    hide CheckOutgoing, CheckFrame, Find, ApplyLocal, CommitLocal;
  }

  lemma StartsAlone(s: Session, m: Message)
    requires s.writes == [] && s.writeError.None?
    ensures var t := Step(Step(s, StartSend(m)), WriteDone);
      && t.writes == []
      && t.wire == if Admit(s, m, true).Some? then s.wire else ApplyLocal(CommitLocal(Tracked(s.wire, m), m), m)
  {
    hide Admit, ApplyLocal, CommitLocal, Tracked;
    assert [] + [Frame(m, ByCall)] == [Frame(m, ByCall)] && [Frame(m, ByCall)][1..] == [];
  }

  /** A read that ends in a connected session and reports a breach of the protocol at once; no request is refused. */
  lemma ReadAlone(s: Session, m: Message)
    requires s.wire.state == Connected && s.reading.MessageRead? && s.failedReads == []
    requires m.Request? ==> !RefusesAtOnce(CommitRemote(s.wire, m), m.block)
    ensures Run(s, [EndRead(m), ReadCloses]).wire == Receive(s.wire, m).wire
  {
    hide Run, Step, Receive, RefusesAtOnce, CommitRemote;
    RunOfTwo(s, EndRead(m), [ReadCloses]);
    assert [EndRead(m)] + [ReadCloses] == [EndRead(m), ReadCloses];
    RunOfOne(Step(s, EndRead(m)), ReadCloses);
    EndsAlone(s, m);
  }

  lemma EndsAlone(s: Session, m: Message)
    requires s.wire.state == Connected && s.reading.MessageRead? && s.failedReads == []
    requires m.Request? ==> !RefusesAtOnce(CommitRemote(s.wire, m), m.block)
    ensures Step(Step(s, EndRead(m)), ReadCloses).wire == Receive(s.wire, m).wire
  {
    hide CheckIncoming, CommitRemote, Terminate, RefusesAtOnce, ApplyRemote, Admit;
    BreachesClose(CommitRemote(s.wire, m), m);
  }

  lemma BreachesClose(w: Wire, m: Message)
    requires m.Request? ==> !RefusesAtOnce(w, m.block)
    ensures ApplyRemote(w, m).failure.Some? ==> ApplyRemote(w, m).failure.value !in {NotConnected, QueueFull}
  {
    hide Find, Settle, Send;
  }
}
