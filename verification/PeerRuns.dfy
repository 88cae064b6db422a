/**
 What holds of one endpoint over every run, whatever its peer sends and its caller does, when each operation is one
 step: it has ended before the next begins. PeerInterleaving lets operations overlap.

 The accounts of a session list the promises that wait and those that were settled, by which outcome; every
 step keeps them, both request maps stay within their limit, and a closed session has nothing left that waits.
 From the accepted messages alone, in the order they came, it follows where an availability declaration may
 stand: at most one is accepted, and with Fast it comes before all but keepalive and extended messages.
 */
module PeerRuns {
  import opened Results
  import opened PeerSession

  /** Timers and abort signals are steps that may be taken at any time. */
  datatype Event =
    | HandshakeDone
    | SendMessage(message: Message)
    | RequestPromise(block: Block)
    | Deliver(message: Message)
    | Expire(block: Block, reason: Failure)
    | Close(reason: Failure)

  /** Both handshake halves count as one step here, which a closed session does not take. */
  function Step(w: Wire, e: Event): Wire {
    match e
    case HandshakeDone => if w.state == Handshaking then w.(state := Connected) else w
    case SendMessage(m) => Send(w, m, true).wire
    case RequestPromise(block) => RequestBlock(w, block).wire
    case Deliver(m) => Receive(w, m).wire
    case Expire(block, reason) => Settle(w, block, Failed(reason))
    case Close(reason) => Terminate(w, reason)
  }

  function Run(w: Wire, events: seq<Event>): Wire
    decreases |events|
  {
    if events == [] then w else Run(Step(w, events[0]), events[1..])
  }

  // ---- Every promise settles exactly once ----

  function TicketOf(entry: Entry): multiset<nat> {
    if entry.ticket.Some? then multiset{entry.ticket.value} else multiset{}
  }

  function Tickets(pending: seq<Entry>): multiset<nat> {
    if pending == [] then multiset{} else TicketOf(pending[0]) + Tickets(pending[1..])
  }

  function SettledTickets(settled: seq<Settlement>): multiset<nat> {
    if settled == [] then multiset{} else multiset{settled[0].ticket} + SettledTickets(settled[1..])
  }

  /** One each of the first `n` tickets. */
  function Upto(n: nat): multiset<nat> {
    if n == 0 then multiset{} else Upto(n - 1) + multiset{n - 1}
  }

  /** A settlement that delivers data delivers as many bytes as its request asked for. */
  predicate Honours(s: Settlement, issued: seq<Block>) {
    s.ticket < |issued| && (s.outcome.Delivered? ==> |s.outcome.data| == issued[s.ticket].length)
  }

  predicate Belongs(entry: Entry, issued: seq<Block>) {
    entry.ticket.Some? ==> entry.ticket.value < |issued| && issued[entry.ticket.value] == entry.block
  }

  predicate Accounts(pending: seq<Entry>, settled: seq<Settlement>, issued: seq<Block>) {
    && Tickets(pending) + SettledTickets(settled) == Upto(|issued|)
    && (forall e <- pending :: Belongs(e, issued))
    && (forall s <- settled :: Honours(s, issued))
  }

  predicate Sound(w: Wire) {
    && Accounts(w.pending, w.settled, w.issued)
    && |w.pending| <= w.config.maxPending && |w.peerRequests| <= w.config.maxPending
    && (w.state == Closed ==> w.pending == [] && w.peerRequests == [])
  }

  lemma {:induction false} TicketsJoin(a: seq<Entry>, b: seq<Entry>)
    ensures Tickets(a + b) == Tickets(a) + Tickets(b)
  {
    if a == [] {
      assert a + b == b;
    } else {
      assert (a + b)[1..] == a[1..] + b;
      TicketsJoin(a[1..], b);
    }
  }

  lemma {:induction false} SettledJoin(a: seq<Settlement>, b: seq<Settlement>)
    ensures SettledTickets(a + b) == SettledTickets(a) + SettledTickets(b)
  {
    if a == [] {
      assert a + b == b;
    } else {
      assert (a + b)[1..] == a[1..] + b;
      SettledJoin(a[1..], b);
    }
  }

  lemma {:induction false} WithoutOne(pending: seq<Entry>, block: Block)
    ensures forall e <- Without(pending, block) :: e in pending
    ensures var found := Find(pending, block);
      if found.None? then Without(pending, block) == pending
      else
        && found.value in pending && found.value.block == block && |Without(pending, block)| == |pending| - 1
        && Tickets(pending) == Tickets(Without(pending, block)) + TicketOf(found.value)
  {
    if pending != [] && pending[0].block != block {
      WithoutOne(pending[1..], block);
      var rest := Without(pending[1..], block);
      assert ([pending[0]] + rest)[1..] == rest;
      assert Find(pending, block).None? ==> Without(pending, block) == pending;
    }
  }

  lemma OneSettles(pending: seq<Entry>, settled: seq<Settlement>, block: Block, outcome: Outcome)
    ensures var made := Settlements(Find(pending, block), outcome);
      Tickets(Without(pending, block)) + SettledTickets(settled + made) == Tickets(pending) + SettledTickets(settled)
  {
    var found := Find(pending, block);
    var made := Settlements(found, outcome);
    SettledJoin(settled, made);
    if made != [] {
      assert made[1..] == [];
    }
    assert SettledTickets(made) == if found.Some? then TicketOf(found.value) else multiset{};
    hide SettledTickets, Find, Without, Tickets, Settlements;
    WithoutOne(pending, block);
  }

  lemma SettleKeepsAccounts(w: Wire, block: Block, outcome: Outcome)
    requires Accounts(w.pending, w.settled, w.issued) && (outcome.Delivered? ==> |outcome.data| == block.length)
    ensures var after := Settle(w, block, outcome);
      && after == w.(pending := after.pending, settled := after.settled) && |after.pending| <= |w.pending|
      && Accounts(after.pending, after.settled, after.issued)
  {
    hide Find, Without, Tickets, SettledTickets, Upto;
    WithoutOne(w.pending, block);
    OneSettles(w.pending, w.settled, block, outcome);
    var found := Find(w.pending, block);
    forall s <- Settlements(found, outcome) ensures Honours(s, w.issued) {
      assert Belongs(found.value, w.issued);
    }
  }

  lemma {:induction false} SettleAllEmpties(w: Wire, outcome: Outcome)
    requires Accounts(w.pending, w.settled, w.issued) && outcome.Failed?
    ensures var after := SettleAll(w, Blocks(w.pending), outcome);
      after == w.(pending := [], settled := after.settled) && Accounts([], after.settled, w.issued)
    decreases |w.pending|
  {
    hide Accounts;
    var blocks := Blocks(w.pending);
    if w.pending == [] {
    } else {
      SettleKeepsAccounts(w, blocks[0], outcome);
      var next := Settle(w, blocks[0], outcome);
      assert next.pending == w.pending[1..] && blocks[1..] == Blocks(next.pending);
      SettleAllEmpties(next, outcome);
    }
  }

  lemma TerminateIsSound(w: Wire, reason: Failure)
    requires Sound(w)
    ensures Sound(Terminate(w, reason)) && Terminate(w, reason).state == Closed
    ensures w.state == Closed ==> Terminate(w, reason) == w
  {
    hide Accounts, SettleAll;
    SettleAllEmpties(w.(state := Closed), Failed(reason));
  }

  lemma {:induction false} DroppedIsShorter(blocks: seq<Block>, block: Block)
    ensures |Dropped(blocks, block)| == if block in blocks then |blocks| - 1 else |blocks|
    ensures multiset(Dropped(blocks, block)) == multiset(blocks) - multiset{block}
  {
    if blocks == [] {
    } else {
      assert blocks == [blocks[0]] + blocks[1..];
      if blocks[0] != block {
        DroppedIsShorter(blocks[1..], block);
      }
    }
  }

  lemma ApplyLocalIsSound(w: Wire, m: Message)
    requires Sound(w) && w.state == Connected
    ensures Sound(ApplyLocal(w, m)) && ApplyLocal(w, m).state == Connected
  {
    hide Accounts, Settle, Dropped, LocalFlags;
    if m.Piece? || m.RejectRequest? {
      DroppedIsShorter(w.peerRequests, Answered(m));
    } else if m.Cancel? {
      SettleKeepsAccounts(w, m.block, Failed(Cancelled));
    }
  }

  lemma SendOneIsSound(w: Wire, m: Message, tracked: bool)
    requires Sound(w)
    ensures var sent := SendOne(w, m, tracked);
      Sound(sent.wire) && sent.wire.state == w.state && (sent.failure.Some? ==> sent.wire == w)
  {
    hide ApplyLocal, CommitLocal, Accounts;
    if SendOne(w, m, tracked).failure.None? {
      if tracked && m.Request? {
        TrackKeepsAccounts(w.pending, w.settled, w.issued, m.block);
        ApplyLocalIsSound(CommitLocal(w.(pending := w.pending + [Entry(m.block, None)]), m), m);
      } else {
        ApplyLocalIsSound(CommitLocal(w, m), m);
      }
    }
  }

  lemma TrackKeepsAccounts(pending: seq<Entry>, settled: seq<Settlement>, issued: seq<Block>, block: Block)
    requires Accounts(pending, settled, issued)
    ensures Accounts(pending + [Entry(block, None)], settled, issued)
  {
    TicketsOfOne(Entry(block, None));
    TicketsJoin(pending, [Entry(block, None)]);
  }

  lemma AskKeepsAccounts(pending: seq<Entry>, settled: seq<Settlement>, issued: seq<Block>, block: Block)
    requires Accounts(pending, settled, issued)
    ensures Accounts(pending + [Entry(block, Some(|issued|))], settled, issued + [block])
  {
    hide Tickets, SettledTickets, Upto;
    var entry := Entry(block, Some(|issued|));
    TicketsOfOne(entry);
    TicketsJoin(pending, [entry]);
    UptoNext(|issued|);
    assert Tickets(pending + [entry]) + SettledTickets(settled) == Tickets(pending) + SettledTickets(settled) + multiset{|issued|};
  }

  lemma UptoNext(n: nat)
    ensures Upto(n + 1) == Upto(n) + multiset{n}
  {
  }

  lemma TicketsOfOne(entry: Entry)
    ensures Tickets([entry]) == TicketOf(entry)
  {
    assert [entry][1..] == [];
  }

  lemma {:induction false} RejectAllIsSound(w: Wire, requests: seq<Block>)
    requires Sound(w)
    ensures Sound(RejectAll(w, requests).wire) && RejectAll(w, requests).wire.state == w.state
    decreases |requests|
  {
    hide Sound, SendOne;
    if requests == [] {
    } else if Fast in w.config.negotiated && requests[0].piece in w.localAllowedFast {
      RejectAllIsSound(w, requests[1..]);
    } else {
      SendOneIsSound(w, RejectRequest(requests[0]), true);
      RejectAllIsSound(SendOne(w, RejectRequest(requests[0]), true).wire, requests[1..]);
    }
  }

  lemma SendIsSound(w: Wire, m: Message, tracked: bool)
    requires Sound(w)
    ensures Sound(Send(w, m, tracked).wire) && Send(w, m, tracked).wire.state == w.state
  {
    hide Sound, SendOne, RejectAll;
    SendOneIsSound(w, m, tracked);
    var one := SendOne(w, m, tracked).wire;
    RejectAllIsSound(one, one.peerRequests);
  }

  lemma RefusedRequestIsSound(w: Wire, block: Block, reason: Failure)
    requires Sound(w) && Find(w.pending, block).None?
    ensures var asked := w.(pending := w.pending + [Entry(block, Some(|w.issued|))], issued := w.issued + [block]);
      Sound(Settle(asked, block, Failed(reason))) && Settle(asked, block, Failed(reason)).state == w.state
  {
    hide Accounts, Find, Without, Settle;
    var entry := Entry(block, Some(|w.issued|));
    var asked := w.(pending := w.pending + [entry], issued := w.issued + [block]);
    AskKeepsAccounts(w.pending, w.settled, w.issued, block);
    SettleKeepsAccounts(asked, block, Failed(reason));
    WithoutLast(w.pending, entry);
    SettleTakes(asked, block, Failed(reason));
  }

  lemma SettleTakes(w: Wire, block: Block, outcome: Outcome)
    ensures Settle(w, block, outcome).pending == Without(w.pending, block)
  {
  }

  lemma AskedIsSound(w: Wire, block: Block)
    requires Sound(w) && w.state == Connected && |w.pending| < w.config.maxPending
    ensures Sound(w.(pending := w.pending + [Entry(block, Some(|w.issued|))], issued := w.issued + [block]))
  {
    hide Accounts;
    AskKeepsAccounts(w.pending, w.settled, w.issued, block);
  }

  lemma RequestsOnlyConnected(w: Wire, block: Block)
    ensures var sent := Send(w, Request(block), false);
      if sent.failure.None? then w.state == Connected else sent.wire == w
  {
  }

  lemma RequestBlockIsSound(w: Wire, block: Block)
    requires Sound(w)
    ensures Sound(RequestBlock(w, block).wire) && RequestBlock(w, block).wire.state == w.state
  {
    hide Sound, Send, Settle, BlockFits, Find;
    var asked := w.(pending := w.pending + [Entry(block, Some(|w.issued|))], issued := w.issued + [block]);
    var sent := Send(asked, Request(block), false);
    RequestsOnlyConnected(asked, block);
    if BlockFits(w.config, block) && Find(w.pending, block).None? && |w.pending| < w.config.maxPending {
      if sent.failure.None? {
        AskedIsSound(w, block);
        SendIsSound(asked, Request(block), false);
      } else {
        RefusedRequestIsSound(w, block, sent.failure.value);
      }
    }
  }

  lemma {:induction false} WithoutLast(pending: seq<Entry>, entry: Entry)
    requires Find(pending, entry.block).None?
    ensures Without(pending + [entry], entry.block) == pending
  {
    if pending != [] {
      assert (pending + [entry])[1..] == pending[1..] + [entry];
      WithoutLast(pending[1..], entry);
    } else {
      assert [entry][1..] == [];
    }
  }

  lemma ChokeIsSound(w: Wire)
    requires Sound(w) && w.state == Connected
    ensures Sound(ApplyChoke(w)) && ApplyChoke(w).state == Connected
  {
    hide Accounts, SettleAll, Blocks;
    SettleAllEmpties(w.(remoteChoking := true), Failed(Choked));
  }

  lemma AnswerIsSound(w: Wire, m: Message)
    requires Sound(w) && w.state == Connected && (m.Piece? || m.RejectRequest?)
    ensures Sound(ApplyAnswer(w, m).wire) && ApplyAnswer(w, m).wire.state == Connected
  {
    hide Accounts, Find, Settle;
    SettleKeepsAccounts(w, Answered(m), if m.Piece? then Delivered(m.data) else Failed(Rejected));
  }

  lemma RequestIsSound(w: Wire, block: Block)
    requires Sound(w) && w.state == Connected && |w.peerRequests| < w.config.maxPending
    ensures Sound(ApplyRequest(w, block).wire) && ApplyRequest(w, block).wire.state == Connected
  {
    hide Accounts, Send;
    if RefusesAtOnce(w, block) {
      SendIsSound(w, RejectRequest(block), true);
    }
  }

  lemma ApplyRemoteIsSound(w: Wire, m: Message)
    requires Sound(w) && w.state == Connected && (m.Request? ==> |w.peerRequests| < w.config.maxPending)
    ensures Sound(ApplyRemote(w, m).wire) && ApplyRemote(w, m).wire.state == Connected
  {
    hide *;
    ApplyRemoteIs(w, m);
    if m.Choke? {
      ChokeIsSound(w);
    } else if m.Request? {
      RequestIsSound(w, m.block);
    } else if m.Piece? || m.RejectRequest? {
      AnswerIsSound(w, m);
    } else if m.Cancel? {
      FewerRequestsAreSound(w, m.block);
    } else {
      RemoteFlagsKeep(w, m);
      FlagsAreSound(w, RemoteFlags(w, m));
    }
  }

  lemma ApplyRemoteIs(w: Wire, m: Message)
    ensures m.Request? ==> ApplyRemote(w, m) == ApplyRequest(w, m.block)
    ensures m.Piece? || m.RejectRequest? ==> ApplyRemote(w, m) == ApplyAnswer(w, m)
    ensures m.Choke? ==> ApplyRemote(w, m).wire == ApplyChoke(w)
    ensures m.Cancel? ==>
      ApplyRemote(w, m).wire == w || ApplyRemote(w, m).wire == w.(peerRequests := Dropped(w.peerRequests, m.block))
    ensures !m.Request? && !m.Piece? && !m.RejectRequest? && !m.Choke? && !m.Cancel? ==> ApplyRemote(w, m).wire == RemoteFlags(w, m)
  {
    hide ApplyRequest, ApplyAnswer, ApplyChoke, RemoteFlags, Dropped;
  }

  lemma RemoteFlagsKeep(w: Wire, m: Message)
    ensures var v := RemoteFlags(w, m);
      && v.config == w.config && v.state == w.state && v.pending == w.pending && v.peerRequests == w.peerRequests
      && v.issued == w.issued && v.settled == w.settled
  {
  }

  lemma FewerRequestsAreSound(w: Wire, block: Block)
    requires Sound(w)
    ensures Sound(w.(peerRequests := Dropped(w.peerRequests, block)))
  {
    hide Accounts, Dropped;
    DroppedIsShorter(w.peerRequests, block);
  }

  /** Soundness does not depend on the flags. */
  lemma FlagsAreSound(w: Wire, v: Wire)
    requires Sound(w) && v.config == w.config && v.state == w.state
    requires v.pending == w.pending && v.peerRequests == w.peerRequests && v.issued == w.issued && v.settled == w.settled
    ensures Sound(v)
  {
    hide Accounts;
  }

  lemma ReceiveIsSound(w: Wire, m: Message)
    requires Sound(w)
    ensures Sound(Receive(w, m).wire)
    ensures w.state == Closed ==> Receive(w, m).wire == w
  {
    var refused := CheckIncoming(w, m);
    assert refused.None? && m.Request? ==> |w.peerRequests| < w.config.maxPending;
    var committed := CommitRemote(w, m);
    assert Sound(committed);
    hide Sound, Terminate, ApplyRemote, CheckIncoming, CommitRemote;
    if w.state == Connected {
      if refused.Some? {
        TerminateIsSound(w, refused.value);
      } else {
        ApplyRemoteIsSound(committed, m);
        var applied := ApplyRemote(committed, m);
        if applied.failure.Some? {
          TerminateIsSound(applied.wire, applied.failure.value);
        }
      }
    }
  }

  lemma StepIsSound(w: Wire, e: Event)
    requires Sound(w)
    ensures Sound(Step(w, e))
    ensures w.state == Closed ==> Step(w, e).state == Closed
  {
    hide Accounts, Terminate, Send, RequestBlock, Receive, Settle;
    match e
    case HandshakeDone =>
    case SendMessage(m) => SendIsSound(w, m, true);
    case RequestPromise(block) => RequestBlockIsSound(w, block);
    case Deliver(m) => ReceiveIsSound(w, m);
    case Expire(block, reason) => SettleKeepsAccounts(w, block, Failed(reason));
    case Close(reason) => TerminateIsSound(w, reason);
  }

  lemma {:induction false} RunIsSound(w: Wire, events: seq<Event>)
    requires Sound(w)
    ensures Sound(Run(w, events))
    ensures w.state == Closed ==> Run(w, events).state == Closed
    decreases |events|
  {
    hide Step, Sound;
    if events == [] {
    } else {
      StepIsSound(w, events[0]);
      RunIsSound(Step(w, events[0]), events[1..]);
    }
  }

  // ---- What only accepted messages change ----

  /** The same settings and the same view of the peer's availability order. */
  predicate SameRemote(w: Wire, v: Wire) {
    v.config == w.config && v.remoteOpen == w.remoteOpen && v.remoteDeclared == w.remoteDeclared
  }

  lemma {:induction false} SettleAllKeepsRemote(w: Wire, blocks: seq<Block>, outcome: Outcome)
    ensures SameRemote(w, SettleAll(w, blocks, outcome))
    decreases |blocks|
  {
    if blocks == [] {
    } else {
      SettleAllKeepsRemote(Settle(w, blocks[0], outcome), blocks[1..], outcome);
    }
  }

  lemma TerminateKeepsRemote(w: Wire, reason: Failure)
    ensures SameRemote(w, Terminate(w, reason))
  {
    SettleAllKeepsRemote(w.(state := Closed), Blocks(w.pending), Failed(reason));
  }

  lemma ApplyLocalKeepsRemote(w: Wire, m: Message)
    ensures SameRemote(w, ApplyLocal(w, m))
  {
    hide Settle, Dropped, LocalFlags;
    if m.Piece? || m.RejectRequest? {
    } else if m.Cancel? {
    } else {
      assert ApplyLocal(w, m) == LocalFlags(w, m);
    }
  }

  lemma SendOneApplies(w: Wire, m: Message, tracked: bool)
    ensures var before := if tracked && m.Request? then w.(pending := w.pending + [Entry(m.block, None)]) else w;
      SendOne(w, m, tracked).wire == w || SendOne(w, m, tracked).wire == ApplyLocal(CommitLocal(before, m), m)
  {
    hide ApplyLocal, CommitLocal, CheckOutgoing, CheckFrame, Find;
  }

  lemma SendOneKeepsRemote(w: Wire, m: Message, tracked: bool)
    ensures SameRemote(w, SendOne(w, m, tracked).wire)
  {
    hide SendOne, ApplyLocal, CommitLocal;
    SendOneApplies(w, m, tracked);
    var before := if tracked && m.Request? then w.(pending := w.pending + [Entry(m.block, None)]) else w;
    CommitLocalKeepsRemote(before, m);
    ApplyLocalKeepsRemote(CommitLocal(before, m), m);
  }

  lemma CommitLocalKeepsRemote(w: Wire, m: Message)
    ensures SameRemote(w, CommitLocal(w, m))
  {
  }

  lemma {:induction false} RejectAllKeepsRemote(w: Wire, requests: seq<Block>)
    ensures SameRemote(w, RejectAll(w, requests).wire)
    decreases |requests|
  {
    hide SendOne;
    if requests == [] {
    } else if Fast in w.config.negotiated && requests[0].piece in w.localAllowedFast {
      RejectAllKeepsRemote(w, requests[1..]);
    } else {
      SendOneKeepsRemote(w, RejectRequest(requests[0]), true);
      RejectAllKeepsRemote(SendOne(w, RejectRequest(requests[0]), true).wire, requests[1..]);
    }
  }

  lemma SendKeepsRemote(w: Wire, m: Message, tracked: bool)
    ensures SameRemote(w, Send(w, m, tracked).wire)
  {
    hide SendOne, RejectAll;
    SendOneKeepsRemote(w, m, tracked);
    var one := SendOne(w, m, tracked).wire;
    RejectAllKeepsRemote(one, one.peerRequests);
  }

  lemma RequestBlockKeepsRemote(w: Wire, block: Block)
    ensures SameRemote(w, RequestBlock(w, block).wire)
  {
    hide Send, Settle, Find, BlockFits;
    var asked := w.(pending := w.pending + [Entry(block, Some(|w.issued|))], issued := w.issued + [block]);
    var sent := Send(asked, Request(block), false);
    SendKeepsRemote(asked, Request(block), false);
    if sent.failure.Some? {
      SettleKeepsRemote(sent.wire, block, Failed(sent.failure.value));
    }
  }

  lemma SettleKeepsRemote(w: Wire, block: Block, outcome: Outcome)
    ensures SameRemote(w, Settle(w, block, outcome))
  {
    hide Find, Without;
  }

  lemma AcceptKeepsRemote(w: Wire, block: Block)
    ensures SameRemote(w, Accept(w, block))
  {
    hide Accept;
  }

  lemma ApplyRequestKeepsRemote(w: Wire, block: Block)
    ensures SameRemote(w, ApplyRequest(w, block).wire)
  {
    hide Send, RefusesAtOnce, Accept;
    SendKeepsRemote(w, RejectRequest(block), true);
    AcceptKeepsRemote(w, block);
  }

  lemma ChokeKeepsRemote(w: Wire)
    ensures SameRemote(w, ApplyChoke(w))
  {
    hide SettleAll, Blocks;
    SettleAllKeepsRemote(w.(remoteChoking := true), Blocks(w.pending), Failed(Choked));
  }

  lemma AnswerKeepsRemote(w: Wire, m: Message)
    requires m.Piece? || m.RejectRequest?
    ensures SameRemote(w, ApplyAnswer(w, m).wire)
  {
    hide Find, Settle, Answered;
  }

  lemma ApplyRemoteKeepsRemote(w: Wire, m: Message)
    ensures SameRemote(w, ApplyRemote(w, m).wire)
  {
    hide ApplyRequest, ApplyAnswer, ApplyChoke, RemoteFlags, Dropped;
    if m.Request? {
      ApplyRequestKeepsRemote(w, m.block);
    } else if m.Choke? {
      ChokeKeepsRemote(w);
    } else if m.Piece? || m.RejectRequest? {
      AnswerKeepsRemote(w, m);
    }
  }

  /** Accepted: the session is connected and the message passes every check made before it is applied. */
  predicate Accepts(w: Wire, m: Message) {
    w.state == Connected && CheckIncoming(w, m).None?
  }

  lemma StepKeepsRemote(w: Wire, e: Event)
    ensures SameRemote(if e.Deliver? && Accepts(w, e.message) then CommitRemote(w, e.message) else w, Step(w, e))
  {
    hide Send, RequestBlock, Terminate, ApplyRemote, CheckIncoming, CommitRemote, Find, Without;
    match e
    case SendMessage(m) => SendKeepsRemote(w, m, true);
    case RequestPromise(block) => RequestBlockKeepsRemote(w, block);
    case Deliver(m) =>
      if w.state == Connected {
        if CheckIncoming(w, m).Some? {
          TerminateKeepsRemote(w, CheckIncoming(w, m).value);
        } else {
          var applied := ApplyRemote(CommitRemote(w, m), m);
          ApplyRemoteKeepsRemote(CommitRemote(w, m), m);
          if applied.failure.Some? {
            TerminateKeepsRemote(applied.wire, applied.failure.value);
          }
        }
      }
    case Close(reason) => TerminateKeepsRemote(w, reason);
    case _ =>
  }

  lemma {:induction false} RunKeepsConfig(w: Wire, events: seq<Event>)
    ensures Run(w, events).config == w.config
    decreases |events|
  {
    hide Step, Accepts;
    if events == [] {
    } else {
      StepKeepsRemote(w, events[0]);
      RunKeepsConfig(Step(w, events[0]), events[1..]);
    }
  }

  lemma {:induction false} UptoCounts(n: nat, t: nat)
    ensures Upto(n)[t] == if t < n then 1 else 0
  {
    if n == 0 {
    } else {
      UptoCounts(n - 1, t);
    }
  }

  /**
   Over every run of whole operations: each promise either still waits or was settled by exactly one call, a
   delivery has the length its request asked for, both request maps stay within the limit, and a closed session
   stays closed and leaves no promise waiting. With operations under way at the close the last part holds on
   conditions only: see ReopensExactly and ClosedMapStaysEmptyExactly in PeerInterleaving.
   */
  lemma PromisesSettleOnce(config: Config, events: seq<Event>, more: seq<Event>, ticket: nat)
    ensures var w := Run(Fresh(config), events);
      && Tickets(w.pending)[ticket] + SettledTickets(w.settled)[ticket] == (if ticket < |w.issued| then 1 else 0)
      && |w.pending| <= config.maxPending && |w.peerRequests| <= config.maxPending
      && (forall s <- w.settled :: Honours(s, w.issued))
      && (w.state == Closed ==>
            && w.pending == [] && w.peerRequests == [] && Run(w, more).state == Closed
            && SettledTickets(w.settled)[ticket] == if ticket < |w.issued| then 1 else 0)
  {
    assert Sound(Fresh(config));
    var w := Run(Fresh(config), events);
    RunIsSound(Fresh(config), events);
    assert Sound(w) && Accounts(w.pending, w.settled, w.issued);
    assert w.config == config by { RunKeepsConfig(Fresh(config), events); }
    assert w.pending == [] ==> Tickets(w.pending) == multiset{};
    UptoCounts(|w.issued|, ticket);
    RunIsSound(w, more);
    hide Run, Upto, SettledTickets, Tickets;
  }

  // ---- The availability order of accepted messages ----

  /** The messages a run accepts, in order. */
  function Accepted(w: Wire, events: seq<Event>): seq<Message>
    decreases |events|
  {
    if events == [] then []
    else
      (if events[0].Deliver? && Accepts(w, events[0].message) then [events[0].message] else [])
      + Accepted(Step(w, events[0]), events[1..])
  }

  function Ordered(messages: seq<Message>): seq<Message> {
    if messages == [] then []
    else if Unordered(messages[|messages| - 1]) then Ordered(messages[..|messages| - 1])
    else Ordered(messages[..|messages| - 1]) + [messages[|messages| - 1]]
  }

  /**
   Leaving out keepalives and extended messages, a declaration of availability stands only in the
   first place, and with the Fast extension it does stand there.
   */
  predicate AvailabilityFirst(config: Config, messages: seq<Message>) {
    var ordered := Ordered(messages);
    && (forall i :: 1 <= i < |ordered| ==> !Declares(ordered[i]))
    && (Fast in config.negotiated && ordered != [] ==> Declares(ordered[0]))
  }

  /** The two flags remember just enough of the messages accepted so far. */
  predicate Remembers(w: Wire, messages: seq<Message>) {
    var ordered := Ordered(messages);
    && AvailabilityFirst(w.config, messages)
    && (w.remoteOpen <==> ordered == [])
    && (w.remoteDeclared <==> ordered != [] && Declares(ordered[0]))
  }

  /** The check of the availability order is exact. */
  lemma OrderCheckIsExact(w: Wire, messages: seq<Message>, m: Message)
    requires Remembers(w, messages)
    ensures InOrder(w.config, m, w.remoteOpen, w.remoteDeclared) <==> AvailabilityFirst(w.config, messages + [m])
    ensures InOrder(w.config, m, w.remoteOpen, w.remoteDeclared) ==> Remembers(CommitRemote(w, m), messages + [m])
  {
    var longer := messages + [m];
    assert longer[..|longer| - 1] == messages;
    assert Ordered(longer) == if Unordered(m) then Ordered(messages) else Ordered(messages) + [m];
    hide Ordered;
    if !Unordered(m) {
      assert Ordered(longer)[|Ordered(messages)|] == m;
    }
  }

  lemma StepRemembers(w: Wire, before: seq<Message>, e: Event) returns (first: seq<Message>)
    requires Remembers(w, before)
    ensures first == if e.Deliver? && Accepts(w, e.message) then [e.message] else []
    ensures Remembers(Step(w, e), before + first)
  {
    first := if e.Deliver? && Accepts(w, e.message) then [e.message] else [];
    StepKeepsRemote(w, e);
    assert first != [] ==> InOrder(w.config, e.message, w.remoteOpen, w.remoteDeclared);
    hide Step, Accepts, AvailabilityFirst, Ordered, CommitRemote, InOrder;
    if first != [] {
      OrderCheckIsExact(w, before, e.message);
    } else {
      assert before + first == before;
    }
  }

  lemma RememberedIsOrdered(w: Wire, messages: seq<Message>)
    requires Remembers(w, messages)
    ensures AvailabilityFirst(w.config, messages)
  {
  }

  lemma {:induction false} RunRemembers(w: Wire, before: seq<Message>, events: seq<Event>)
    requires Remembers(w, before)
    ensures AvailabilityFirst(w.config, before + Accepted(w, events))
    decreases |events|
  {
    hide Step, Accepts, Remembers, AvailabilityFirst;
    if events == [] {
      assert before + Accepted(w, events) == before;
      RememberedIsOrdered(w, before);
    } else {
      var first := StepRemembers(w, before, events[0]);
      var next := Step(w, events[0]);
      RunRemembers(next, before + first, events[1..]);
      assert before + Accepted(w, events) == before + first + Accepted(next, events[1..]);
      StepKeepsRemote(w, events[0]);
    }
  }

  lemma AvailabilityComesFirst(config: Config, events: seq<Event>)
    ensures AvailabilityFirst(config, Accepted(Fresh(config), events))
  {
    RunRemembers(Fresh(config), [], events);
    assert [] + Accepted(Fresh(config), events) == Accepted(Fresh(config), events);
  }
}
