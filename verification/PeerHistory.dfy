/**
 What the flags and the held requests of a peer-wire session say about its past: over every run with overlapping
 operations they follow from the messages written and taken in so far, and from the ends of the session, alone.
 */
module PeerHistory {
  import opened Results
  import opened PeerSession
  import I = PeerInterleaving

  // ---- What has happened ----

  /** A message was written to its end, a message that was read passed its checks, or the session was closed. */
  datatype Act = Wrote(message: Message) | Took(message: Message) | Closing

  function Written(s: I.Session, e: I.Event): seq<Act> {
    if e.WriteDone? && s.writes != [] && s.writeError.None? && s.writes[0].Frame? then [Wrote(s.writes[0].message)] else []
  }

  function Taken(s: I.Session, e: I.Event): seq<Act> {
    if e.EndRead? && s.reading.MessageRead? && CheckIncoming(s.wire, e.message).None? then [Took(e.message)] else []
  }

  function Acts(s: I.Session, e: I.Event): seq<Act> {
    Written(s, e) + Taken(s, e) + if s.wire.state != Closed && I.Step(s, e).wire.state == Closed then [Closing] else []
  }

  function History(s: I.Session, events: seq<I.Event>): seq<Act>
    decreases |events|
  {
    if events == [] then [] else Acts(s, events[0]) + History(I.Step(s, events[0]), events[1..])
  }

  // ---- What follows from it ----

  /** Choking is how a session begins, and what it is unless an unchoke came last. */
  ghost predicate Chokes(log: seq<Act>) {
    forall i :: 0 <= i < |log| && log[i] == Wrote(Unchoke) ==> exists j :: i < j < |log| && log[j] == Wrote(Choke)
  }

  ghost predicate ChokedByPeer(log: seq<Act>) {
    forall i :: 0 <= i < |log| && log[i] == Took(Unchoke) ==> exists j :: i < j < |log| && log[j] == Took(Choke)
  }

  ghost predicate Wants(log: seq<Act>) {
    exists i :: 0 <= i < |log| && log[i] == Wrote(Interested) && forall j :: i < j < |log| ==> log[j] != Wrote(NotInterested)
  }

  ghost predicate WantedByPeer(log: seq<Act>) {
    exists i :: 0 <= i < |log| && log[i] == Took(Interested) && forall j :: i < j < |log| ==> log[j] != Took(NotInterested)
  }

  /** A message that ends the time in which the availability may be declared, and one that declares it. */
  predicate Ends(m: Message) {
    !m.KeepAlive? && !m.Extended?
  }

  predicate Announces(m: Message) {
    m.Bitfield? || m.HaveAll? || m.HaveNone?
  }

  ghost predicate LocalFollows(w: Wire, log: seq<Act>) {
    && (w.localChoking <==> Chokes(log))
    && (w.localInterested <==> Wants(log))
    && (forall piece: nat :: piece in w.localAllowedFast <==> Wrote(AllowedFast(piece)) in log)
    && (w.localOpen <==> forall a <- log :: a.Wrote? ==> !Ends(a.message))
    && (w.localDeclared <==> exists a <- log :: a.Wrote? && Announces(a.message))
  }

  ghost predicate RemoteFollows(w: Wire, log: seq<Act>) {
    && (w.remoteChoking <==> ChokedByPeer(log))
    && (w.remoteInterested <==> WantedByPeer(log))
    && (forall piece: nat :: piece in w.remoteAllowedFast <==> Took(AllowedFast(piece)) in log)
    && (w.remoteOpen <==> forall a <- log :: a.Took? ==> !Ends(a.message))
    && (w.remoteDeclared <==> exists a <- log :: a.Took? && Announces(a.message))
  }

  /** A request is refused at once while choking with reject semantics, unless its piece is allowed fast. */
  ghost predicate Refuses(config: Config, log: seq<Act>, block: Block) {
    && Chokes(log) && (Fast in config.negotiated || V2 in config.negotiated)
    && !(Fast in config.negotiated && Wrote(AllowedFast(block.piece)) in log)
  }

  /** What takes a request off the list: its answer is written, it is cancelled where that counts, or the session closes. */
  predicate Releases(config: Config, a: Act, block: Block) {
    || a == Wrote(RejectRequest(block))
    || (a.Wrote? && a.message.Piece? && Block(a.message.piece, a.message.begin, |a.message.data|) == block)
    || (a == Took(Cancel(block)) && Fast !in config.negotiated && V2 !in config.negotiated)
    || a == Closing
  }

  /** The request came in at `i`, was not refused, was not on the list yet, and nothing has taken it off since. */
  ghost predicate HeldSince(config: Config, log: seq<Act>, block: Block, i: nat)
    decreases |log|, 0
  {
    && i < |log| && log[i] == Took(Request(block)) && !Refuses(config, log[..i], block)
    && NotHeld(config, log[..i], block)
    && forall j :: i < j < |log| ==> !Releases(config, log[j], block)
  }

  ghost predicate NotHeld(config: Config, log: seq<Act>, block: Block)
    decreases |log|, 1
  {
    forall k: nat :: k < |log| ==> !HeldSince(config, log, block, k)
  }

  /** The list is complete, and in the order in which its requests came in. */
  ghost predicate RequestsFollow(config: Config, requests: seq<Block>, log: seq<Act>, since: seq<nat>) {
    && |since| == |requests|
    && (forall j, k :: 0 <= j < k < |requests| ==> requests[j] != requests[k])
    && (forall j, k :: 0 <= j < k < |since| ==> since[j] < since[k])
    && (forall k :: 0 <= k < |since| ==> HeldSince(config, log, requests[k], since[k]))
    && forall block, i: nat :: HeldSince(config, log, block, i) ==> block in requests
  }

  // ---- One act more ----

  lemma NextChoke(log: seq<Act>, a: Act)
    ensures Chokes(log + [a]) <==> a == Wrote(Choke) || (a != Wrote(Unchoke) && Chokes(log))
  {
    var more := log + [a];
    if Chokes(more) {
      forall i | 0 <= i < |log| && log[i] == Wrote(Unchoke)
        ensures a != Wrote(Choke) ==> exists j :: i < j < |log| && log[j] == Wrote(Choke)
      {
        assert more[i] == Wrote(Unchoke);
        var j :| i < j < |more| && more[j] == Wrote(Choke);
        assert j < |log| ==> log[j] == Wrote(Choke);
      }
      assert more[|log|] == a;
    } else {
      var i :| 0 <= i < |more| && more[i] == Wrote(Unchoke) && forall j :: i < j < |more| ==> more[j] != Wrote(Choke);
      if i < |log| {
        assert log[i] == Wrote(Unchoke) && more[|log|] == a;
        forall j | i < j < |log| ensures log[j] != Wrote(Choke) {
          assert more[j] == log[j];
        }
      }
    }
  }

  lemma NextChokeByPeer(log: seq<Act>, a: Act)
    ensures ChokedByPeer(log + [a]) <==> a == Took(Choke) || (a != Took(Unchoke) && ChokedByPeer(log))
  {
    var more := log + [a];
    if ChokedByPeer(more) {
      forall i | 0 <= i < |log| && log[i] == Took(Unchoke)
        ensures a != Took(Choke) ==> exists j :: i < j < |log| && log[j] == Took(Choke)
      {
        assert more[i] == Took(Unchoke);
        var j :| i < j < |more| && more[j] == Took(Choke);
        assert j < |log| ==> log[j] == Took(Choke);
      }
      assert more[|log|] == a;
    } else {
      var i :| 0 <= i < |more| && more[i] == Took(Unchoke) && forall j :: i < j < |more| ==> more[j] != Took(Choke);
      if i < |log| {
        assert log[i] == Took(Unchoke) && more[|log|] == a;
        forall j | i < j < |log| ensures log[j] != Took(Choke) {
          assert more[j] == log[j];
        }
      }
    }
  }

  lemma NextWant(log: seq<Act>, a: Act)
    ensures Wants(log + [a]) <==> a == Wrote(Interested) || (a != Wrote(NotInterested) && Wants(log))
  {
    var more := log + [a];
    assert more[|log|] == a;
    if Wants(more) {
      var i :| 0 <= i < |more| && more[i] == Wrote(Interested) && forall j :: i < j < |more| ==> more[j] != Wrote(NotInterested);
      if i < |log| {
        assert log[i] == Wrote(Interested);
        forall j | i < j < |log| ensures log[j] != Wrote(NotInterested) {
          assert more[j] == log[j];
        }
      }
    } else if Wants(log) {
      var i :| 0 <= i < |log| && log[i] == Wrote(Interested) && forall j :: i < j < |log| ==> log[j] != Wrote(NotInterested);
      assert more[i] == Wrote(Interested);
    }
  }

  lemma NextWantByPeer(log: seq<Act>, a: Act)
    ensures WantedByPeer(log + [a]) <==> a == Took(Interested) || (a != Took(NotInterested) && WantedByPeer(log))
  {
    var more := log + [a];
    assert more[|log|] == a;
    if WantedByPeer(more) {
      var i :| 0 <= i < |more| && more[i] == Took(Interested) && forall j :: i < j < |more| ==> more[j] != Took(NotInterested);
      if i < |log| {
        assert log[i] == Took(Interested);
        forall j | i < j < |log| ensures log[j] != Took(NotInterested) {
          assert more[j] == log[j];
        }
      }
    } else if WantedByPeer(log) {
      var i :| 0 <= i < |log| && log[i] == Took(Interested) && forall j :: i < j < |log| ==> log[j] != Took(NotInterested);
      assert more[i] == Took(Interested);
    }
  }

  lemma InMore(log: seq<Act>, a: Act, b: Act)
    ensures b in log + [a] <==> b in log || b == a
  {
  }

  /** How one act moves this side's flags, and the peer's. */
  ghost predicate LocalMoves(w: Wire, v: Wire, a: Act) {
    && (v.localChoking <==> a == Wrote(Choke) || (a != Wrote(Unchoke) && w.localChoking))
    && (v.localInterested <==> a == Wrote(Interested) || (a != Wrote(NotInterested) && w.localInterested))
    && v.localAllowedFast == w.localAllowedFast + (if a.Wrote? && a.message.AllowedFast? then {a.message.piece} else {})
    && (v.localOpen <==> w.localOpen && !(a.Wrote? && Ends(a.message)))
    && (v.localDeclared <==> w.localDeclared || (a.Wrote? && Announces(a.message)))
  }

  ghost predicate RemoteMoves(w: Wire, v: Wire, a: Act) {
    && (v.remoteChoking <==> a == Took(Choke) || (a != Took(Unchoke) && w.remoteChoking))
    && (v.remoteInterested <==> a == Took(Interested) || (a != Took(NotInterested) && w.remoteInterested))
    && v.remoteAllowedFast == w.remoteAllowedFast + (if a.Took? && a.message.AllowedFast? then {a.message.piece} else {})
    && (v.remoteOpen <==> w.remoteOpen && !(a.Took? && Ends(a.message)))
    && (v.remoteDeclared <==> w.remoteDeclared || (a.Took? && Announces(a.message)))
  }

  lemma LocalGoesOn(w: Wire, v: Wire, log: seq<Act>, a: Act)
    requires LocalFollows(w, log) && LocalMoves(w, v, a)
    ensures LocalFollows(v, log + [a])
  {
    hide Chokes, Wants, Ends, Announces;
    NextChoke(log, a);
    NextWant(log, a);
    forall b ensures b in log + [a] <==> b in log || b == a {
      InMore(log, a, b);
    }
  }

  lemma RemoteGoesOn(w: Wire, v: Wire, log: seq<Act>, a: Act)
    requires RemoteFollows(w, log) && RemoteMoves(w, v, a)
    ensures RemoteFollows(v, log + [a])
  {
    hide ChokedByPeer, WantedByPeer, Ends, Announces;
    NextChokeByPeer(log, a);
    NextWantByPeer(log, a);
    forall b ensures b in log + [a] <==> b in log || b == a {
      InMore(log, a, b);
    }
  }

  // ---- The requests, one act more ----

  lemma HeldNext(config: Config, log: seq<Act>, a: Act, block: Block, i: nat)
    ensures HeldSince(config, log + [a], block, i) <==>
      if i < |log| then HeldSince(config, log, block, i) && !Releases(config, a, block)
      else
        && i == |log| && a == Took(Request(block)) && !Refuses(config, log, block)
        && NotHeld(config, log, block)
  {
    hide Refuses, Releases, NotHeld;
    var more := log + [a];
    if i < |log| {
      assert more[..i] == log[..i] && more[i] == log[i] && more[|log|] == a;
      assert forall j :: i < j < |log| ==> more[j] == log[j];
    } else if i == |log| {
      assert more[..i] == log && more[i] == a;
    }
  }

  lemma {:induction false} DroppedIs(blocks: seq<Block>, block: Block) returns (k: nat)
    ensures k <= |blocks| && (k < |blocks| ==> blocks[k] == block) && forall j :: 0 <= j < k ==> blocks[j] != block
    ensures Dropped(blocks, block) == if k < |blocks| then blocks[..k] + blocks[k + 1..] else blocks
  {
    if blocks == [] || blocks[0] == block {
      k := 0;
    } else {
      k := DroppedIs(blocks[1..], block);
      k := k + 1;
      assert blocks == [blocks[0]] + blocks[1..];
    }
  }

  /** No act takes a request of the list off, and none comes in. */
  lemma ListStays(config: Config, requests: seq<Block>, log: seq<Act>, since: seq<nat>, a: Act)
    requires RequestsFollow(config, requests, log, since)
    requires forall b :: b in requests ==> !Releases(config, a, b)
    requires forall b, i: nat :: HeldSince(config, log + [a], b, i) ==> i < |log|
    ensures RequestsFollow(config, requests, log + [a], since)
  {
    hide HeldSince, Releases;
    InLog(config, requests, log, since);
    forall k | 0 <= k < |since| ensures HeldSince(config, log + [a], requests[k], since[k]) {
      HeldNext(config, log, a, requests[k], since[k]);
    }
    forall b, i: nat | HeldSince(config, log + [a], b, i) ensures b in requests {
      HeldNext(config, log, a, b, i);
    }
  }

  /** One request of the list is taken off. */
  lemma ListLoses(config: Config, requests: seq<Block>, log: seq<Act>, since: seq<nat>, a: Act, k: nat)
    requires RequestsFollow(config, requests, log, since) && k < |requests|
    requires forall b :: b in requests ==> (Releases(config, a, b) <==> b == requests[k])
    requires forall b, i: nat :: HeldSince(config, log + [a], b, i) ==> i < |log|
    ensures RequestsFollow(config, requests[..k] + requests[k + 1..], log + [a], since[..k] + since[k + 1..])
  {
    hide HeldSince, Releases;
    InLog(config, requests, log, since);
    OneLess(requests, since, k);
    var left, after := requests[..k] + requests[k + 1..], since[..k] + since[k + 1..];
    forall j | 0 <= j < |left| ensures HeldSince(config, log + [a], left[j], after[j]) {
      var i :| 0 <= i < |requests| && left[j] == requests[i] && after[j] == since[i];
      HeldNext(config, log, a, requests[i], since[i]);
    }
    forall b, i: nat | HeldSince(config, log + [a], b, i) ensures b in left {
      HeldNext(config, log, a, b, i);
    }
  }

  /** An act that brings in no request and takes off at most the given one. */
  lemma ListShrinks(config: Config, requests: seq<Block>, log: seq<Act>, since: seq<nat>, a: Act, block: Block, gone: bool)
    returns (after: seq<nat>)
    requires RequestsFollow(config, requests, log, since)
    requires forall b :: b in requests ==> (Releases(config, a, b) <==> gone && b == block)
    requires forall b, i: nat :: HeldSince(config, log + [a], b, i) ==> i < |log|
    ensures RequestsFollow(config, if gone then Dropped(requests, block) else requests, log + [a], after)
  {
    hide HeldSince, Releases, Dropped, RequestsFollow;
    InLog(config, requests, log, since);
    after := since;
    if gone {
      var k := DroppedIs(requests, block);
      if k < |requests| {
        after := since[..k] + since[k + 1..];
        ListLoses(config, requests, log, since, a, k);
      } else {
        ListStays(config, requests, log, since, a);
      }
    } else {
      ListStays(config, requests, log, since, a);
    }
  }

  lemma InLog(config: Config, requests: seq<Block>, log: seq<Act>, since: seq<nat>)
    requires RequestsFollow(config, requests, log, since)
    ensures |since| == |requests| && forall k :: 0 <= k < |since| ==> since[k] < |log|
  {
  }

  lemma OneLess(requests: seq<Block>, since: seq<nat>, k: nat)
    requires |since| == |requests| && k < |requests|
    requires forall i, j :: 0 <= i < j < |requests| ==> requests[i] != requests[j] && since[i] < since[j]
    ensures var left, after := requests[..k] + requests[k + 1..], since[..k] + since[k + 1..];
      && (forall i, j :: 0 <= i < j < |left| ==> left[i] != left[j] && after[i] < after[j])
      && (forall i :: 0 <= i < |left| ==> left[i] != requests[k] && exists j :: 0 <= j < |requests| && left[i] == requests[j] && after[i] == since[j])
      && forall b :: b in left <==> b in requests && b != requests[k]
  {
    var left, after := requests[..k] + requests[k + 1..], since[..k] + since[k + 1..];
    forall i | 0 <= i < |left| ensures exists j :: 0 <= j < |requests| && left[i] == requests[j] && after[i] == since[j] {
      var j := if i < k then i else i + 1;
      assert left[i] == requests[j] && after[i] == since[j];
    }
    forall b | b in requests && b != requests[k] ensures b in left {
      var j :| 0 <= j < |requests| && requests[j] == b;
      assert left[if j < k then j else j - 1] == b;
    }
  }

  lemma ListEmpties(config: Config, log: seq<Act>)
    ensures RequestsFollow(config, [], log + [Closing], [])
  {
    hide HeldSince;
    forall b, i: nat ensures !HeldSince(config, log + [Closing], b, i) {
      HeldNext(config, log, Closing, b, i);
    }
  }

  /** A request that is not refused goes to the end of the list unless it is on it. */
  lemma ListGrows(config: Config, requests: seq<Block>, log: seq<Act>, since: seq<nat>, block: Block) returns (after: seq<nat>)
    requires RequestsFollow(config, requests, log, since) && !Refuses(config, log, block)
    ensures RequestsFollow(config, if block in requests then requests else requests + [block], log + [Took(Request(block))], after)
  {
    hide HeldSince, Refuses;
    var a := Took(Request(block));
    forall b, i: nat ensures HeldSince(config, log + [a], b, i) <==>
      if i < |log| then HeldSince(config, log, b, i)
      else i == |log| && b == block && NotHeld(config, log, block)
    {
      HeldNext(config, log, a, b, i);
    }
    InLog(config, requests, log, since);
    if block in requests {
      var k :| 0 <= k < |requests| && requests[k] == block;
      assert HeldSince(config, log, block, since[k]);
      after := since;
    } else {
      after := since + [|log|];
      assert NotHeld(config, log, block);
    }
  }

  // ---- Steps ----

  lemma {:induction false} SettlingAllKeeps(w: Wire, blocks: seq<Block>, outcome: Outcome)
    ensures var v := SettleAll(w, blocks, outcome); v == w.(pending := v.pending, settled := v.settled)
    decreases |blocks|
  {
    hide Find, Without;
    if blocks == [] {
    } else {
      SettlingAllKeeps(Settle(w, blocks[0], outcome), blocks[1..], outcome);
    }
  }

  predicate SameLocal(w: Wire, v: Wire) {
    && v.localChoking == w.localChoking && v.localInterested == w.localInterested && v.localAllowedFast == w.localAllowedFast
    && v.localOpen == w.localOpen && v.localDeclared == w.localDeclared
  }

  predicate SameRemote(w: Wire, v: Wire) {
    && v.remoteChoking == w.remoteChoking && v.remoteInterested == w.remoteInterested
    && v.remoteAllowedFast == w.remoteAllowedFast && v.remoteOpen == w.remoteOpen && v.remoteDeclared == w.remoteDeclared
  }

  predicate SameFlags(w: Wire, v: Wire) {
    v.config == w.config && SameLocal(w, v) && SameRemote(w, v)
  }

  /** Nothing but promises, the state, and the list of requests when the session closes. */
  predicate Quiet(w: Wire, v: Wire) {
    && SameFlags(w, v)
    && v.peerRequests == if w.state != Closed && v.state == Closed then [] else w.peerRequests
  }

  lemma TerminatingKeeps(w: Wire, reason: Failure)
    ensures var v := Terminate(w, reason);
      && v == w.(state := Closed, pending := v.pending, settled := v.settled, peerRequests := v.peerRequests)
      && v.peerRequests == if w.state != Closed then [] else w.peerRequests
  {
    hide SettleAll, Blocks;
    if w.state == Closed {
      assert Terminate(w, reason) == w;
    } else {
      var all := SettleAll(w.(state := Closed), Blocks(w.pending), Failed(reason));
      SettlingAllKeeps(w.(state := Closed), Blocks(w.pending), Failed(reason));
      assert Terminate(w, reason) == all.(peerRequests := []);
    }
  }

  lemma TerminatingIsQuiet(w: Wire, reason: Failure)
    ensures Quiet(w, Terminate(w, reason))
  {
    hide Terminate;
    TerminatingKeeps(w, reason);
  }

  lemma SettlingIsQuiet(w: Wire, block: Block, outcome: Outcome)
    ensures Quiet(w, Settle(w, block, outcome)) && Quiet(w, w)
  {
    hide Find, Without;
  }

  lemma AskingIsQuiet(s: I.Session, e: I.Event)
    requires e.StartSend? || e.StartRequest?
    ensures Quiet(s.wire, I.Step(s, e).wire)
  {
    hide I.Admit, Find, BlockFits;
    if e.StartSend? {
      assert I.Step(s, e) == I.SendStarts(s, e.message);
    } else {
      assert I.Step(s, e) == I.RequestStarts(s, e.block);
    }
  }

  lemma LosingIsQuiet(s: I.Session)
    ensures Quiet(s.wire, I.WriteEnds(s).wire) && Quiet(s.wire, I.CallReports(s).wire)
  {
    hide Quiet, Settle, I.Halted;
    SettlingIsQuiet(s.wire, Block(0, 0, 0), Rejected());
    if s.writes != [] && s.writeError.Some? && s.writes[0].Frame? && s.writes[0].message.Request? {
      SettlingIsQuiet(s.wire, s.writes[0].message.block, Failed(s.writeError.value));
    }
    if s.failedCalls != [] {
      SettlingIsQuiet(s.wire, s.failedCalls[0].block, Failed(s.failedCalls[0].reason));
    }
  }

  function Rejected(): Outcome {
    Failed(Failure.Rejected)
  }

  lemma OtherStepsAreQuiet(s: I.Session, e: I.Event)
    requires !e.StartSend? && !e.StartRequest? && !e.WriteDone? && !e.EndRead? && !e.StartHandshakeRead? && !e.EndHandshakeRead?
    ensures Quiet(s.wire, I.Step(s, e).wire)
  {
    hide Quiet, Settle, Terminate, I.WriteEnds, I.CallReports, I.Admit, I.WriteLands, I.ReadEnds, I.SendStarts, I.RequestStarts;
    LosingIsQuiet(s);
    SettlingIsQuiet(s.wire, Block(0, 0, 0), Rejected());
    match e
    case Expires(block, reason) => SettlingIsQuiet(s.wire, block, Failed(reason));
    case CloseCall(reason) => TerminatingIsQuiet(s.wire, reason);
    case WriteBreaks(reason) => TerminatingIsQuiet(s.wire, reason);
    case EndOfStream => TerminatingIsQuiet(s.wire, PeerSession.Ended);
    case ReadCloses =>
      if s.failedReads != [] {
        TerminatingIsQuiet(s.wire, s.failedReads[0]);
      }
    case _ =>
  }

  lemma HandshakesAreQuiet(s: I.Session, e: I.Event)
    requires e.StartHandshakeRead? || e.EndHandshakeRead?
    ensures Quiet(s.wire, I.Step(s, e).wire)
  {
    hide Terminate;
    SettlingIsQuiet(s.wire, Block(0, 0, 0), Rejected());
    TerminatingIsQuiet(s.wire, Mismatched);
    ConnectingKeeps(s, e);
  }

  /** A handshake half that ends may connect the session, closes it, or changes nothing. */
  lemma ConnectingKeeps(s: I.Session, e: I.Event)
    requires e.StartHandshakeRead? || e.EndHandshakeRead?
    ensures var v := I.Step(s, e).wire; v == s.wire || v == s.wire.(state := Connected) || v == Terminate(s.wire, Mismatched)
  {
    hide Terminate;
  }

  lemma FailedReadIsQuiet(s: I.Session, m: Message)
    requires !s.reading.MessageRead? || CheckIncoming(s.wire, m).Some?
    ensures Quiet(s.wire, I.ReadEnds(s, m).wire)
  {
    hide Quiet, Terminate, CheckIncoming;
    SettlingIsQuiet(s.wire, Block(0, 0, 0), Rejected());
    if CheckIncoming(s.wire, m).Some? {
      TerminatingIsQuiet(s.wire, CheckIncoming(s.wire, m).value);
    }
  }

  lemma UnwrittenIsQuiet(s: I.Session)
    requires s.writes == [] || s.writeError.Some? || s.writes[0].HandshakeFrame?
    ensures Quiet(s.wire, I.WriteLands(s).wire)
  {
    hide I.Landed;
  }

  lemma StepIsQuiet(s: I.Session, e: I.Event)
    requires Written(s, e) == [] && Taken(s, e) == []
    ensures Quiet(s.wire, I.Step(s, e).wire)
  {
    hide Quiet, I.ReadEnds, I.WriteLands, I.WriteEnds, I.SendStarts, I.RequestStarts, I.CallReports, I.ChokeGoesOn, I.Connect;
    hide Terminate, Settle, CheckIncoming, I.StartHandshake, I.WriteErrs, I.ReadReports;
    if e.StartSend? || e.StartRequest? {
      AskingIsQuiet(s, e);
    } else if e.StartHandshakeRead? || e.EndHandshakeRead? {
      HandshakesAreQuiet(s, e);
    } else if e.WriteDone? {
      UnwrittenIsQuiet(s);
    } else if e.EndRead? {
      FailedReadIsQuiet(s, e.message);
    } else {
      OtherStepsAreQuiet(s, e);
    }
  }

  predicate Answers(m: Message) {
    m.Piece? || m.RejectRequest?
  }

  /** All that a written message changes besides promises. */
  ghost predicate Landed(w: Wire, v: Wire, m: Message) {
    && LocalMoves(w, v, Wrote(m)) && RemoteMoves(w, v, Wrote(m)) && v.config == w.config && v.state == w.state
    && v.peerRequests == if Answers(m) then Dropped(w.peerRequests, Answered(m)) else w.peerRequests
  }

  lemma WrittenMoves(w: Wire, m: Message)
    ensures Landed(w, ApplyLocal(CommitLocal(w, m), m), m)
  {
    hide Landed, CommitLocal, ApplyLocal, LocalFlags, Settle, Dropped;
    var u := CommitLocal(w, m);
    WritingMoves(w, m);
    WritingIs(u, m);
    if Answers(m) {
      AnswerLands(w, u, m);
    } else if m.Cancel? {
      SettledFlags(u, m.block, Failed(Cancelled));
      CancelLands(w, u, ApplyLocal(u, m), m);
    } else {
      FlagMoves(u, m);
      FlagsLand(w, u, LocalFlags(u, m), m);
    }
  }

  lemma WritingIs(w: Wire, m: Message)
    ensures Answers(m) ==> ApplyLocal(w, m) == w.(peerRequests := Dropped(w.peerRequests, Answered(m)))
    ensures m.Cancel? ==> ApplyLocal(w, m) == w || ApplyLocal(w, m) == Settle(w, m.block, Failed(Cancelled))
    ensures !Answers(m) && !m.Cancel? ==> ApplyLocal(w, m) == LocalFlags(w, m)
  {
    hide LocalFlags, Settle, Dropped;
  }

  lemma SettledFlags(w: Wire, block: Block, outcome: Outcome)
    ensures var v := Settle(w, block, outcome); SameFlags(w, v) && v.state == w.state && v.peerRequests == w.peerRequests
  {
    hide Find, Without, Settlements;
  }

  lemma AnswerLands(w: Wire, u: Wire, m: Message)
    requires Answers(m) && Committed(w, u, m)
    ensures Landed(w, u.(peerRequests := Dropped(u.peerRequests, Answered(m))), m)
  {
    hide Dropped;
  }

  lemma CancelLands(w: Wire, u: Wire, v: Wire, m: Message)
    requires m.Cancel? && Committed(w, u, m) && SameFlags(u, v) && v.state == u.state && v.peerRequests == u.peerRequests
    ensures Landed(w, v, m)
  {
  }

  lemma FlagsLand(w: Wire, u: Wire, v: Wire, m: Message)
    requires !Answers(m) && !m.Cancel? && Committed(w, u, m) && Flagged(u, v, m)
    ensures Landed(w, v, m)
  {
  }

  predicate Committed(w: Wire, u: Wire, m: Message) {
    && (u.localOpen <==> w.localOpen && !Ends(m)) && (u.localDeclared <==> w.localDeclared || Announces(m))
    && u.localChoking == w.localChoking && u.localInterested == w.localInterested && u.localAllowedFast == w.localAllowedFast
    && SameRemote(w, u) && u.config == w.config && u.state == w.state && u.peerRequests == w.peerRequests
  }

  lemma WritingMoves(w: Wire, m: Message)
    ensures Committed(w, CommitLocal(w, m), m)
  {
  }

  predicate Flagged(w: Wire, v: Wire, m: Message) {
    && (v.localChoking <==> m.Choke? || (!m.Unchoke? && w.localChoking))
    && (v.localInterested <==> m.Interested? || (!m.NotInterested? && w.localInterested))
    && v.localAllowedFast == w.localAllowedFast + (if m.AllowedFast? then {m.piece} else {})
    && v.localOpen == w.localOpen && v.localDeclared == w.localDeclared
    && SameRemote(w, v) && v.config == w.config && v.state == w.state && v.peerRequests == w.peerRequests
  }

  lemma FlagMoves(w: Wire, m: Message)
    ensures Flagged(w, LocalFlags(w, m), m)
  {
    hide Flagged;
    if m.Choke? || m.Unchoke? {
      ChokingMoves(w, m);
    } else if m.Interested? || m.NotInterested? {
      InterestMoves(w, m);
    } else {
      AllowanceMoves(w, m);
    }
  }

  lemma ChokingMoves(w: Wire, m: Message)
    requires m.Choke? || m.Unchoke?
    ensures Flagged(w, w.(localChoking := m.Choke?), m)
  {
  }

  lemma InterestMoves(w: Wire, m: Message)
    requires m.Interested? || m.NotInterested?
    ensures Flagged(w, w.(localInterested := m.Interested?), m)
  {
  }

  lemma AllowanceMoves(w: Wire, m: Message)
    requires !m.Choke? && !m.Unchoke? && !m.Interested? && !m.NotInterested?
    ensures Flagged(w, if m.AllowedFast? then w.(localAllowedFast := w.localAllowedFast + {m.piece}) else w, m)
  {
  }

  /** What taking in a message does to the list of requests. */
  function ListAfter(w: Wire, m: Message): seq<Block> {
    if m.Request? then
      if RefusesAtOnce(w, m.block) || m.block in w.peerRequests then w.peerRequests else w.peerRequests + [m.block]
    else if m.Cancel? && !w.config.RejectSemantics() then Dropped(w.peerRequests, m.block)
    else w.peerRequests
  }

  /** All that an accepted message changes besides promises and the availability order. */
  predicate Applied(w: Wire, v: Wire, m: Message) {
    && SameLocal(w, v) && v.remoteOpen == w.remoteOpen && v.remoteDeclared == w.remoteDeclared
    && v.config == w.config && v.state == w.state
    && (v.remoteChoking <==> m.Choke? || (!m.Unchoke? && w.remoteChoking))
    && (v.remoteInterested <==> m.Interested? || (!m.NotInterested? && w.remoteInterested))
    && v.remoteAllowedFast == w.remoteAllowedFast + (if m.AllowedFast? then {m.piece} else {})
    && v.peerRequests == ListAfter(w, m)
  }

  lemma ApplyingIs(w: Wire, m: Message)
    ensures var v := ApplyRemote(w, m).wire;
      && (m.Request? && !RefusesAtOnce(w, m.block) ==> v == Accept(w, m.block))
      && (Answers(m) ==> v == w || exists outcome :: v == Settle(w, Answered(m), outcome))
      && (m.Choke? ==> v == ApplyChoke(w))
      && (m.Cancel? ==> v == w.(peerRequests := ListAfter(w, m)))
      && (!m.Request? && !Answers(m) && !m.Choke? && !m.Cancel? ==> v == RemoteFlags(w, m))
  {
    hide Accept, RefusesAtOnce, RemoteFlags, Settle, ApplyChoke, Dropped;
  }

  lemma ApplyingMoves(w: Wire, m: Message)
    requires m.Request? ==> !RefusesAtOnce(w, m.block)
    ensures Applied(w, ApplyRemote(w, m).wire, m)
  {
    hide Applied, ApplyRemote, Accept, RefusesAtOnce, RemoteFlags, Settle, ApplyChoke, ListAfter;
    ApplyingIs(w, m);
    var v := ApplyRemote(w, m).wire;
    if m.Request? {
      AcceptApplied(w, m);
    } else if Answers(m) {
      if v != w {
        var outcome :| v == Settle(w, Answered(m), outcome);
        SettledFlags(w, Answered(m), outcome);
      }
      AnswerApplied(w, v, m);
    } else if m.Choke? {
      ChokeApplied(w, m);
    } else if m.Cancel? {
      CancelApplied(w, m);
    } else {
      FlagsApplied(w, m);
    }
  }

  lemma AcceptApplied(w: Wire, m: Message)
    requires m.Request? && !RefusesAtOnce(w, m.block)
    ensures Applied(w, Accept(w, m.block), m)
  {
    hide RefusesAtOnce;
  }

  lemma AnswerApplied(w: Wire, v: Wire, m: Message)
    requires Answers(m) && SameFlags(w, v) && v.state == w.state && v.peerRequests == w.peerRequests
    ensures Applied(w, v, m)
  {
  }

  lemma ChokeApplied(w: Wire, m: Message)
    requires m.Choke?
    ensures Applied(w, ApplyChoke(w), m)
  {
    hide SettleAll, Blocks;
    SettlingAllKeeps(w.(remoteChoking := true), Blocks(w.pending), Failed(Choked));
  }

  lemma CancelApplied(w: Wire, m: Message)
    requires m.Cancel?
    ensures Applied(w, w.(peerRequests := ListAfter(w, m)), m)
  {
    hide ListAfter;
  }

  lemma FlagsApplied(w: Wire, m: Message)
    requires !m.Request? && !Answers(m) && !m.Choke? && !m.Cancel?
    ensures Applied(w, RemoteFlags(w, m), m)
  {
    hide Dropped;
    if m.Unchoke? {
    } else if m.Interested? || m.NotInterested? {
    } else {
    }
  }

  predicate TakenUp(w: Wire, u: Wire, m: Message) {
    && (u.remoteOpen <==> w.remoteOpen && !Ends(m)) && (u.remoteDeclared <==> w.remoteDeclared || Announces(m))
    && u.remoteChoking == w.remoteChoking && u.remoteInterested == w.remoteInterested && u.remoteAllowedFast == w.remoteAllowedFast
    && SameLocal(w, u) && u.config == w.config && u.state == w.state && u.peerRequests == w.peerRequests
  }

  lemma CommittingMoves(w: Wire, m: Message)
    ensures TakenUp(w, CommitRemote(w, m), m)
  {
  }

  lemma SameRefusal(w: Wire, u: Wire, m: Message)
    requires TakenUp(w, u, m)
    ensures ListAfter(u, m) == ListAfter(w, m) && (m.Request? ==> (RefusesAtOnce(u, m.block) <==> RefusesAtOnce(w, m.block)))
  {
    hide Dropped;
  }

  /** All that taking in a message changes besides promises. */
  ghost predicate Moves(w: Wire, v: Wire, m: Message) {
    && LocalMoves(w, v, Took(m)) && RemoteMoves(w, v, Took(m)) && v.config == w.config && v.state == w.state
    && v.peerRequests == ListAfter(w, m)
  }

  lemma RefusedMoves(w: Wire, u: Wire, m: Message)
    requires TakenUp(w, u, m) && m.Request? && RefusesAtOnce(w, m.block)
    ensures Moves(w, u, m)
  {
    hide RefusesAtOnce, Dropped;
  }

  lemma AppliedMoves(w: Wire, u: Wire, v: Wire, m: Message)
    requires TakenUp(w, u, m) && Applied(u, v, m)
    ensures Moves(w, v, m)
  {
    hide ListAfter;
    SameRefusal(w, u, m);
  }

  lemma TakenMoves(s: I.Session, m: Message)
    requires s.reading.MessageRead? && CheckIncoming(s.wire, m).None?
    ensures Moves(s.wire, I.ReadEnds(s, m).wire, m)
  {
    hide ApplyRemote, RefusesAtOnce, ListAfter, CommitRemote, I.ReadEnds, TakenUp, Applied, Moves;
    var committed := CommitRemote(s.wire, m);
    CommittingMoves(s.wire, m);
    SameRefusal(s.wire, committed, m);
    ReadingIs(s, m);
    if m.Request? && RefusesAtOnce(committed, m.block) {
      RefusedMoves(s.wire, committed, m);
    } else {
      ApplyingMoves(committed, m);
      AppliedMoves(s.wire, committed, ApplyRemote(committed, m).wire, m);
    }
  }

  lemma ReadingIs(s: I.Session, m: Message)
    requires s.reading.MessageRead? && CheckIncoming(s.wire, m).None?
    ensures var u := CommitRemote(s.wire, m);
      I.ReadEnds(s, m).wire == if m.Request? && RefusesAtOnce(u, m.block) then u else ApplyRemote(u, m).wire
  {
    hide CheckIncoming, ApplyRemote, RefusesAtOnce, I.Admit, CommitRemote;
  }

  // ---- Runs ----

  ghost predicate Follows(w: Wire, log: seq<Act>, since: seq<nat>) {
    LocalFollows(w, log) && RemoteFollows(w, log) && RequestsFollow(w.config, w.peerRequests, log, since)
  }

  lemma QuietFollows(w: Wire, v: Wire, log: seq<Act>, since: seq<nat>) returns (after: seq<nat>)
    requires Follows(w, log, since) && Quiet(w, v)
    ensures Follows(v, log + (if w.state != Closed && v.state == Closed then [Closing] else []), after)
  {
    hide Chokes, ChokedByPeer, Wants, WantedByPeer, RequestsFollow;
    if w.state != Closed && v.state == Closed {
      hide LocalFollows, RemoteFollows;
      after := [];
      LocalGoesOn(w, v, log, Closing);
      RemoteGoesOn(w, v, log, Closing);
      ListEmpties(w.config, log);
    } else {
      after := since;
      assert log + [] == log;
    }
  }

  lemma RefusalIs(w: Wire, log: seq<Act>, block: Block)
    requires LocalFollows(w, log)
    ensures RefusesAtOnce(w, block) <==> Refuses(w.config, log, block)
  {
    hide Chokes, Wants;
  }

  /** An act that is no request brings in none. */
  lemma NoneComesIn(config: Config, log: seq<Act>, a: Act)
    requires a.Took? ==> !a.message.Request? || Refuses(config, log, a.message.block)
    ensures forall b, i: nat :: HeldSince(config, log + [a], b, i) ==> i < |log|
  {
    hide HeldSince, Refuses;
    forall b, i: nat ensures HeldSince(config, log + [a], b, i) ==> i < |log| {
      HeldNext(config, log, a, b, i);
    }
  }

  lemma WrittenFollows(w: Wire, m: Message, log: seq<Act>, since: seq<nat>) returns (after: seq<nat>)
    requires Follows(w, log, since)
    ensures Follows(ApplyLocal(CommitLocal(w, m), m), log + [Wrote(m)], after)
  {
    hide ApplyLocal, CommitLocal, LocalFollows, RemoteFollows, RequestsFollow, LocalMoves, RemoteMoves, Refuses, HeldSince;
    WrittenMoves(w, m);
    LocalGoesOn(w, ApplyLocal(CommitLocal(w, m), m), log, Wrote(m));
    RemoteGoesOn(w, ApplyLocal(CommitLocal(w, m), m), log, Wrote(m));
    NoneComesIn(w.config, log, Wrote(m));
    var block := if Answers(m) then Answered(m) else Block(0, 0, 0);
    after := ListShrinks(w.config, w.peerRequests, log, since, Wrote(m), block, Answers(m));
  }

  lemma TakenFollows(s: I.Session, m: Message, log: seq<Act>, since: seq<nat>) returns (after: seq<nat>)
    requires s.reading.MessageRead? && CheckIncoming(s.wire, m).None? && Follows(s.wire, log, since)
    ensures Follows(I.ReadEnds(s, m).wire, log + [Took(m)], after)
  {
    hide I.ReadEnds, CheckIncoming, LocalFollows, RemoteFollows, RequestsFollow, LocalMoves, RemoteMoves, Refuses, HeldSince, RefusesAtOnce;
    var w := s.wire;
    TakenMoves(s, m);
    LocalGoesOn(w, I.ReadEnds(s, m).wire, log, Took(m));
    RemoteGoesOn(w, I.ReadEnds(s, m).wire, log, Took(m));
    if m.Request? {
      RefusalIs(w, log, m.block);
    }
    if m.Request? && !RefusesAtOnce(w, m.block) {
      after := ListGrows(w.config, w.peerRequests, log, since, m.block);
    } else {
      NoneComesIn(w.config, log, Took(m));
      var gone := m.Cancel? && !w.config.RejectSemantics();
      after := ListShrinks(w.config, w.peerRequests, log, since, Took(m), if m.Cancel? then m.block else Block(0, 0, 0), gone);
    }
  }

  lemma StepIs(s: I.Session, e: I.Event)
    ensures Written(s, e) != [] ==>
      var m := s.writes[0].message;
      I.Step(s, e).wire == ApplyLocal(CommitLocal(s.wire, m), m) && Acts(s, e) == [Wrote(m)]
    ensures Taken(s, e) != [] ==> I.Step(s, e) == I.ReadEnds(s, e.message) && Acts(s, e) == [Took(e.message)]
    ensures Written(s, e) == [] && Taken(s, e) == [] ==>
      Acts(s, e) == if s.wire.state != Closed && I.Step(s, e).wire.state == Closed then [Closing] else []
  {
    hide ApplyLocal, CommitLocal, I.ReadEnds, CheckIncoming, LocalMoves, RemoteMoves, ListAfter;
    if Written(s, e) != [] {
      assert I.Step(s, e) == I.WriteLands(s);
      WrittenMoves(s.wire, s.writes[0].message);
    } else if Taken(s, e) != [] {
      assert I.Step(s, e) == I.ReadEnds(s, e.message);
      TakenMoves(s, e.message);
    }
  }

  lemma StepFollows(s: I.Session, e: I.Event, log: seq<Act>, since: seq<nat>) returns (after: seq<nat>)
    requires Follows(s.wire, log, since)
    ensures Follows(I.Step(s, e).wire, log + Acts(s, e), after)
  {
    hide I.Step, I.ReadEnds, ApplyLocal, CommitLocal, Follows, Acts, CheckIncoming, Quiet;
    StepIs(s, e);
    if Written(s, e) != [] {
      after := WrittenFollows(s.wire, s.writes[0].message, log, since);
    } else if Taken(s, e) != [] {
      after := TakenFollows(s, e.message, log, since);
    } else {
      StepIsQuiet(s, e);
      after := QuietFollows(s.wire, I.Step(s, e).wire, log, since);
    }
  }

  lemma StepKeepsConfig(s: I.Session, e: I.Event)
    ensures I.Step(s, e).wire.config == s.wire.config
  {
    hide I.Step, I.ReadEnds, ApplyLocal, CommitLocal, Acts, CheckIncoming, LocalMoves, RemoteMoves, SameLocal, SameRemote;
    StepIs(s, e);
    if Written(s, e) != [] {
      WrittenMoves(s.wire, s.writes[0].message);
    } else if Taken(s, e) != [] {
      TakenMoves(s, e.message);
    } else {
      StepIsQuiet(s, e);
    }
  }

  lemma {:induction false} RunKeepsConfig(s: I.Session, events: seq<I.Event>)
    ensures I.Run(s, events).wire.config == s.wire.config
    decreases |events|
  {
    hide I.Step;
    if events == [] {
    } else {
      StepKeepsConfig(s, events[0]);
      RunKeepsConfig(I.Step(s, events[0]), events[1..]);
    }
  }

  lemma {:induction false} RunFollows(s: I.Session, events: seq<I.Event>, log: seq<Act>, since: seq<nat>) returns (after: seq<nat>)
    requires Follows(s.wire, log, since)
    ensures Follows(I.Run(s, events).wire, log + History(s, events), after)
    decreases |events|
  {
    hide I.Step, Follows, Acts;
    if events == [] {
      assert log + [] == log;
      after := since;
    } else {
      var e, rest := events[0], events[1..];
      var next := StepFollows(s, e, log, since);
      after := RunFollows(I.Step(s, e), rest, log + Acts(s, e), next);
      assert log + Acts(s, e) + History(I.Step(s, e), rest) == log + History(s, events);
    }
  }

  /**
   In every state a session can reach, its flags are those that the last message about each of them set, the pieces
   allowed fast are those of the messages that allowed them, the availability order stands where the messages written
   and taken in put it, and the requests held are, in the order in which they came, those taken in without being
   refused and not released since.
   */
  lemma HistoryTells(config: Config, maxQueued: nat, events: seq<I.Event>) returns (since: seq<nat>)
    ensures var w, log := I.Run(I.Begin(config, maxQueued), events).wire, History(I.Begin(config, maxQueued), events);
      && w.config == config
      && LocalFollows(w, log) && RemoteFollows(w, log) && RequestsFollow(config, w.peerRequests, log, since)
  {
    hide I.Run, History;
    var start := I.Begin(config, maxQueued);
    RunKeepsConfig(start, events);
    since := RunFollows(start, events, [], []);
    assert [] + History(start, events) == History(start, events);
  }
}
