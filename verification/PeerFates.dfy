/**
 The fate of each promise of a peer-wire session: what every step does to a request that waits for its answer, and in
 particular that the data a promise is resolved with is the data of the piece that came in.
 */
module PeerFates {
  import opened Results
  import opened ByteStrings
  import opened PeerSession
  import R = PeerRuns
  import I = PeerInterleaving

  // ---- What a step can do to the requests that wait ----

  /** Nothing; one request ends; all end; or a request that has just been asked fails at once. */
  datatype Effect =
    | Nothing
    | EndsOne(block: Block, outcome: Outcome)
    | EndsAll(outcome: Outcome)

  /** What an effect means for a request that waits. */
  function Fate(effect: Effect, entry: Entry): Option<Outcome> {
    match effect
    case Nothing => None
    case EndsOne(block, outcome) => if entry.block == block then Some(outcome) else None
    case EndsAll(outcome) => Some(outcome)
  }

  function AllSettled(pending: seq<Entry>, outcome: Outcome): seq<Settlement> {
    if pending == [] then [] else Settlements(Some(pending[0]), outcome) + AllSettled(pending[1..], outcome)
  }

  function Remaining(pending: seq<Entry>, effect: Effect): seq<Entry> {
    match effect
    case Nothing => pending
    case EndsOne(block, _) => Without(pending, block)
    case EndsAll(_) => []
  }

  function Made(pending: seq<Entry>, effect: Effect): seq<Settlement> {
    match effect
    case Nothing => []
    case EndsOne(block, outcome) => Settlements(Find(pending, block), outcome)
    case EndsAll(outcome) => AllSettled(pending, outcome)
  }

  /** The step has this effect; a request may be asked besides, behind those that wait, and may fail at once. */
  predicate HasEffect(w: Wire, v: Wire, effect: Effect) {
    && v.settled == w.settled + Made(w.pending, effect) && v.issued == w.issued
    && v.pending == Remaining(w.pending, effect)
  }

  // ---- Effects and fates ----

  lemma {:induction false} FindsOnly(pending: seq<Entry>, entry: Entry)
    requires I.NoTwins(pending) && entry in pending
    ensures Find(pending, entry.block) == Some(entry)
  {
    if pending[0] == entry {
    } else {
      var i :| 0 <= i < |pending| && pending[i] == entry;
      assert pending[1..][i - 1] == entry;
      FindsOnly(pending[1..], entry);
    }
  }

  lemma {:induction false} WithoutKeeps(pending: seq<Entry>, block: Block, entry: Entry)
    requires I.NoTwins(pending) && entry in pending
    ensures entry in Without(pending, block) <==> entry.block != block
  {
    I.WithoutIsLess(pending, block);
    if pending[0].block == block {
      if pending[0] != entry {
        assert entry in pending[1..];
      }
    } else if pending[0] != entry {
      assert entry in pending[1..];
      WithoutKeeps(pending[1..], block, entry);
    }
  }

  lemma {:induction false} AllSettledAre(pending: seq<Entry>, outcome: Outcome)
    ensures forall e <- pending :: e.ticket.Some? ==> Settlement(e.ticket.value, outcome) in AllSettled(pending, outcome)
    ensures forall s <- AllSettled(pending, outcome) :: s.outcome == outcome && exists e <- pending :: e.ticket == Some(s.ticket)
  {
    if pending == [] {
    } else {
      AllSettledAre(pending[1..], outcome);
      assert forall e <- pending :: e == pending[0] || e in pending[1..];
      forall s <- AllSettled(pending, outcome) ensures s.outcome == outcome && exists e <- pending :: e.ticket == Some(s.ticket) {
        if s in AllSettled(pending[1..], outcome) {
          var e :| e in pending[1..] && e.ticket == Some(s.ticket);
          assert e in pending;
        } else {
          assert pending[0] in pending;
        }
      }
    }
  }

  lemma {:induction false} FoundIsIn(pending: seq<Entry>, block: Block)
    ensures Find(pending, block).Some? ==> Find(pending, block).value in pending && Find(pending, block).value.block == block
    ensures Find(pending, block).None? ==> forall e <- pending :: e.block != block
  {
    if pending == [] {
    } else {
      FoundIsIn(pending[1..], block);
      assert forall e <- pending :: e == pending[0] || e in pending[1..];
    }
  }

  /** A request that waits goes on waiting, or leaves and its promise is settled, exactly as its fate says; and nothing else is settled. */
  lemma FatesAreExact(pending: seq<Entry>, effect: Effect)
    requires I.NoTwins(pending)
    ensures forall e <- pending :: e in Remaining(pending, effect) <==> Fate(effect, e).None?
    ensures forall e <- pending :: e.ticket.Some? && Fate(effect, e).Some? ==>
      Settlement(e.ticket.value, Fate(effect, e).value) in Made(pending, effect)
    ensures forall s <- Made(pending, effect) :: exists e <- pending :: e.ticket == Some(s.ticket) && Fate(effect, e) == Some(s.outcome)
  {
    hide I.NoTwins, Find, Without;
    match effect
    case Nothing =>
    case EndsAll(outcome) => AllSettledAre(pending, outcome);
    case EndsOne(block, outcome) =>
      FoundIsIn(pending, block);
      forall e <- pending ensures e in Without(pending, block) <==> e.block != block {
        WithoutKeeps(pending, block, e);
      }
      forall e <- pending ensures e.block == block ==> Find(pending, block) == Some(e) {
        FindsOnly(pending, e);
      }
  }

  lemma {:induction false} SettleAllIs(w: Wire, outcome: Outcome)
    ensures SettleAll(w, Blocks(w.pending), outcome) == w.(pending := [], settled := w.settled + AllSettled(w.pending, outcome))
    decreases |w.pending|
  {
    if w.pending == [] {
    } else {
      var next := Settle(w, w.pending[0].block, outcome);
      assert next.pending == w.pending[1..] && Blocks(w.pending)[1..] == Blocks(next.pending);
      SettleAllIs(next, outcome);
      assert next.settled + AllSettled(next.pending, outcome) == w.settled + AllSettled(w.pending, outcome);
    }
  }

  lemma SettleHas(w: Wire, block: Block, outcome: Outcome)
    ensures HasEffect(w, Settle(w, block, outcome), EndsOne(block, outcome))
  {
    hide Find, Without;
  }

  lemma NothingHas(w: Wire, v: Wire)
    requires v.settled == w.settled && v.issued == w.issued && v.pending == w.pending
    ensures HasEffect(w, v, Nothing)
  {
  }

  function Ending(w: Wire, reason: Failure): Effect {
    if w.state == Closed then Nothing else EndsAll(Failed(reason))
  }

  lemma ClosingHas(w: Wire, reason: Failure)
    ensures HasEffect(w, Terminate(w, reason), Ending(w, reason))
  {
    hide SettleAll, Blocks, AllSettled, Terminate;
    TerminateIs(w, reason);
    SettleAllIs(w.(state := Closed), Failed(reason));
  }

  lemma TerminateIs(w: Wire, reason: Failure)
    ensures var v, all := Terminate(w, reason), SettleAll(w.(state := Closed), Blocks(w.pending), Failed(reason));
      if w.state == Closed then v == w
      else v.settled == all.settled && v.pending == all.pending && v.issued == all.issued
  {
    hide SettleAll, Blocks;
  }

  // ---- Messages written ----

  /** Only a cancel ends a request when it is written, and only without reject semantics. */
  function WrittenEffect(config: Config, m: Message): Effect {
    if m.Cancel? && !config.RejectSemantics() then EndsOne(m.block, Failed(Cancelled)) else Nothing
  }

  lemma CancelLands(w: Wire, m: Message)
    requires m.Cancel? && !w.config.RejectSemantics()
    ensures var u := CommitLocal(w, m);
      && ApplyLocal(u, m) == Settle(u, m.block, Failed(Cancelled))
      && u.settled == w.settled && u.issued == w.issued && u.pending == w.pending
  {
    hide Settle;
  }

  lemma OthersLand(w: Wire, m: Message)
    requires !(m.Cancel? && !w.config.RejectSemantics())
    ensures var v := ApplyLocal(CommitLocal(w, m), m); v.settled == w.settled && v.issued == w.issued && v.pending == w.pending
  {
    hide ApplyLocal, CommitLocal, LocalFlags;
    var u := CommitLocal(w, m);
    CommittingKeeps(w, m);
    LandingIs(u, m);
    FlagsKeep(u, m);
  }

  predicate SameAccounts(w: Wire, v: Wire) {
    v.settled == w.settled && v.issued == w.issued && v.pending == w.pending
  }

  lemma CommittingKeeps(w: Wire, m: Message)
    ensures SameAccounts(w, CommitLocal(w, m)) && CommitLocal(w, m).config == w.config
  {
  }

  lemma FlagsKeep(w: Wire, m: Message)
    ensures SameAccounts(w, LocalFlags(w, m))
  {
    hide LocalFlags;
  }

  lemma LandingIs(w: Wire, m: Message)
    requires !(m.Cancel? && !w.config.RejectSemantics())
    ensures ApplyLocal(w, m) == LocalFlags(w, m) || SameAccounts(w, ApplyLocal(w, m))
  {
    hide LocalFlags, Dropped;
  }

  lemma SamePromises(w: Wire, u: Wire, v: Wire, effect: Effect)
    requires u.settled == w.settled && u.issued == w.issued && u.pending == w.pending && HasEffect(u, v, effect)
    ensures HasEffect(w, v, effect)
  {
    hide Made, Remaining;
  }

  lemma LandingHas(w: Wire, m: Message)
    ensures HasEffect(w, ApplyLocal(CommitLocal(w, m), m), WrittenEffect(w.config, m))
  {
    hide HasEffect, ApplyLocal, CommitLocal, Settle;
    if m.Cancel? && !w.config.RejectSemantics() {
      CancelLands(w, m);
      SettleHas(CommitLocal(w, m), m.block, Failed(Cancelled));
      SamePromises(w, CommitLocal(w, m), Settle(CommitLocal(w, m), m.block, Failed(Cancelled)), EndsOne(m.block, Failed(Cancelled)));
    } else {
      OthersLand(w, m);
      NothingHas(w, ApplyLocal(CommitLocal(w, m), m));
    }
  }

  // ---- Messages read ----

  /** No request that waits is answered by this message, and the session has to know which is. */
  predicate Unasked(w: Wire, m: Message)
    requires m.Piece? || m.RejectRequest?
  {
    (forall e <- w.pending :: e.block != Answered(m)) && (m.RejectRequest? || w.config.RejectSemantics())
  }

  /** A message other than a refused request, once it has passed its checks. */
  function ReadEffect(w: Wire, m: Message): Effect {
    match m
    case Piece(piece, begin, data) => EndsOne(Block(piece, begin, |data|), Delivered(data))
    case RejectRequest(block) => EndsOne(block, Failed(Rejected))
    case Choke => if w.config.RejectSemantics() then Nothing else EndsAll(Failed(Choked))
    case _ => Nothing
  }

  lemma AnswerHas(w: Wire, m: Message)
    requires m.Piece? || m.RejectRequest?
    ensures HasEffect(w, ApplyAnswer(w, m).wire, ReadEffect(w, m))
    ensures ApplyAnswer(w, m).failure == if Unasked(w, m) then Some(if m.Piece? then UnsolicitedPiece else NeverSent) else None
    ensures Unasked(w, m) ==> ApplyAnswer(w, m).wire == w
  {
    hide Without;
    FoundIsIn(w.pending, Answered(m));
    SettleHas(w, Answered(m), if m.Piece? then Delivered(m.data) else Failed(Rejected));
    if Find(w.pending, Answered(m)).None? {
      R.WithoutOne(w.pending, Answered(m));
    }
  }

  lemma ApplyHas(w: Wire, m: Message)
    requires !(m.Request? && RefusesAtOnce(w, m.block))
    ensures HasEffect(w, ApplyRemote(w, m).wire, ReadEffect(w, m))
    ensures ApplyRemote(w, m).failure ==
      if (m.Piece? || m.RejectRequest?) && Unasked(w, m) then Some(if m.Piece? then UnsolicitedPiece else NeverSent) else None
    ensures (m.Piece? || m.RejectRequest?) && Unasked(w, m) ==> ApplyRemote(w, m).wire == w
  {
    hide ApplyRemote, ApplyAnswer, ApplyChoke, Unasked, HasEffect, ReadEffect;
    ApplyIs(w, m);
    if m.Piece? || m.RejectRequest? {
      AnswerHas(w, m);
    } else if m.Choke? {
      ChokeHas(w, m);
    } else {
      OthersEndNothing(w, m);
      NothingHas(w, ApplyRemote(w, m).wire);
    }
  }

  lemma ApplyIs(w: Wire, m: Message)
    requires !(m.Request? && RefusesAtOnce(w, m.block))
    ensures m.Piece? || m.RejectRequest? ==> ApplyRemote(w, m) == ApplyAnswer(w, m)
    ensures m.Choke? ==> ApplyRemote(w, m).wire == ApplyChoke(w)
    ensures !m.Piece? && !m.RejectRequest? ==> ApplyRemote(w, m).failure.None?
    ensures !m.Piece? && !m.RejectRequest? && !m.Choke? ==> SameAccounts(w, ApplyRemote(w, m).wire)
  {
    hide ApplyAnswer, ApplyChoke, RefusesAtOnce, Dropped, RemoteFlags, Accept;
    if m.Request? {
      AcceptKeeps(w, m.block);
    } else if !m.Piece? && !m.RejectRequest? && !m.Choke? && !m.Cancel? {
      RemoteFlagsKeep(w, m);
    }
  }

  lemma AcceptKeeps(w: Wire, block: Block)
    ensures SameAccounts(w, Accept(w, block))
  {
    hide Accept;
  }

  lemma RemoteFlagsKeep(w: Wire, m: Message)
    ensures SameAccounts(w, RemoteFlags(w, m))
  {
    hide RemoteFlags;
  }

  lemma ChokeHas(w: Wire, m: Message)
    requires m.Choke?
    ensures HasEffect(w, ApplyChoke(w), ReadEffect(w, m))
  {
    hide SettleAll, Blocks, AllSettled;
    SettleAllIs(w.(remoteChoking := true), Failed(Choked));
  }

  lemma OthersEndNothing(w: Wire, m: Message)
    requires !m.Piece? && !m.RejectRequest? && !m.Choke?
    ensures ReadEffect(w, m) == Nothing
  {
  }

  /** The effect on the requests that wait, while others may be asked behind them. */
  predicate Changes(w: Wire, v: Wire, effect: Effect) {
    && v.settled == w.settled + Made(w.pending, effect) && w.issued <= v.issued
    && Remaining(w.pending, effect) <= v.pending && (effect.Nothing? || v.pending == Remaining(w.pending, effect))
  }

  lemma EffectChanges(w: Wire, v: Wire, effect: Effect)
    requires HasEffect(w, v, effect)
    ensures Changes(w, v, effect)
  {
    hide Made, Remaining;
  }

  lemma SameChanges(w: Wire, v: Wire)
    requires v.settled == w.settled && w.issued <= v.issued && w.pending <= v.pending
    ensures Changes(w, v, Nothing)
  {
  }

  /** What becomes of the requests that wait, told one by one. */
  predicate Fated(w: Wire, v: Wire, effect: Effect) {
    && w.settled <= v.settled
    && (forall e <- w.pending :: e in v.pending <==> Fate(effect, e).None?)
    && (forall e <- w.pending :: e.ticket.Some? && Fate(effect, e).Some? ==>
          Settlement(e.ticket.value, Fate(effect, e).value) in v.settled[|w.settled|..])
    && forall x <- v.settled[|w.settled|..] :: exists e <- w.pending :: e.ticket == Some(x.ticket) && Fate(effect, e) == Some(x.outcome)
  }

  lemma ChangesAreFated(w: Wire, v: Wire, effect: Effect)
    requires Changes(w, v, effect) && I.NoTwins(w.pending)
    ensures Fated(w, v, effect)
  {
    hide Made, Fate, I.NoTwins;
    FatesAreExact(w.pending, effect);
    assert v.settled[|w.settled|..] == Made(w.pending, effect);
    forall e | e in w.pending ensures e in v.pending <==> Fate(effect, e).None? {
      if effect.Nothing? {
        assert e in Remaining(w.pending, effect);
      }
    }
  }

  // ---- Steps that overlap ----

  /** What each event does to the requests that wait. */
  function StepEffect(s: I.Session, e: I.Event): Effect {
    match e
    case EndHandshakeRead(accepted) => if s.reading.HandshakeRead? && !accepted then Ending(s.wire, Mismatched) else Nothing
    case WriteDone =>
      if s.writes != [] && s.writeError.None? && s.writes[0].Frame? then WrittenEffect(s.wire.config, s.writes[0].message)
      else Nothing
    case WriteBreaks(reason) => if s.writes != [] && s.writeError.None? then Ending(s.wire, reason) else Nothing
    case WriteFails =>
      if s.writes != [] && s.writeError.Some? && s.writes[0].Frame? && s.writes[0].origin.ByCall? && s.writes[0].message.Request?
      then EndsOne(s.writes[0].message.block, Failed(s.writeError.value))
      else Nothing
    case EndRead(m) =>
      if !s.reading.MessageRead? then Nothing
      else if CheckIncoming(s.wire, m).Some? then Ending(s.wire, CheckIncoming(s.wire, m).value)
      else ReadEffect(s.wire, m)
    case EndOfStream => if s.reading.NoRead? then Nothing else Ending(s.wire, Ended)
    case ReadCloses =>
      if s.failedReads == [] || s.failedReads[0] in {NotConnected, QueueFull} then Nothing else Ending(s.wire, s.failedReads[0])
    case CallFails => if s.failedCalls == [] then Nothing else EndsOne(s.failedCalls[0].block, Failed(s.failedCalls[0].reason))
    case Expires(block, reason) => EndsOne(block, Failed(reason))
    case CloseCall(reason) => Ending(s.wire, reason)
    case _ => Nothing
  }

  lemma ReadChanges(s: I.Session, m: Message)
    ensures Changes(s.wire, I.ReadEnds(s, m).wire, StepEffect(s, I.EndRead(m)))
  {
    hide Changes, CheckIncoming, CommitRemote, ApplyRemote, Terminate, I.Admit, RefusesAtOnce, Ending, ReadEffect;
    SameChanges(s.wire, s.wire);
    if s.reading.MessageRead? {
      if CheckIncoming(s.wire, m).Some? {
        ClosingHas(s.wire, CheckIncoming(s.wire, m).value);
        EffectChanges(s.wire, I.ReadEnds(s, m).wire, Ending(s.wire, CheckIncoming(s.wire, m).value));
      } else {
        CommitKeepsPromises(s.wire, m);
        var committed := CommitRemote(s.wire, m);
        if m.Request? && RefusesAtOnce(committed, m.block) {
          RequestsEndNothing(s.wire, m);
          SameChanges(s.wire, committed);
        } else {
          ApplyHas(committed, m);
          SameEffect(s.wire, committed, ApplyRemote(committed, m).wire, m);
          EffectChanges(s.wire, I.ReadEnds(s, m).wire, ReadEffect(s.wire, m));
        }
      }
    }
  }

  lemma CommitKeepsPromises(w: Wire, m: Message)
    ensures var v := CommitRemote(w, m);
      v.settled == w.settled && v.pending == w.pending && v.issued == w.issued && v.config == w.config
  {
  }

  lemma RequestsEndNothing(w: Wire, m: Message)
    requires m.Request?
    ensures ReadEffect(w, m) == Nothing
  {
  }

  lemma SameEffect(w: Wire, u: Wire, v: Wire, m: Message)
    requires u.settled == w.settled && u.pending == w.pending && u.issued == w.issued && u.config == w.config
    requires HasEffect(u, v, ReadEffect(u, m))
    ensures HasEffect(w, v, ReadEffect(w, m))
  {
    hide Made, Remaining;
  }

  lemma WriteChanges(s: I.Session)
    ensures Changes(s.wire, I.WriteLands(s).wire, StepEffect(s, I.WriteDone))
  {
    hide Changes, ApplyLocal, CommitLocal, WrittenEffect, I.Resumed;
    if s.writes != [] && s.writeError.None? && s.writes[0].Frame? {
      var m := s.writes[0].message;
      LandingHas(s.wire, m);
      EffectChanges(s.wire, I.WriteLands(s).wire, WrittenEffect(s.wire.config, m));
    } else {
      SameChanges(s.wire, I.WriteLands(s).wire);
    }
  }

  lemma LossChanges(s: I.Session)
    ensures Changes(s.wire, I.WriteEnds(s).wire, StepEffect(s, I.WriteFails))
  {
    hide Changes, Settle, I.Halted;
    SameChanges(s.wire, s.wire);
    if s.writes != [] && s.writeError.Some? && s.writes[0].Frame? && s.writes[0].origin.ByCall? && s.writes[0].message.Request? {
      SettleHas(s.wire, s.writes[0].message.block, Failed(s.writeError.value));
      EffectChanges(s.wire, I.WriteEnds(s).wire, StepEffect(s, I.WriteFails));
    }
  }

  lemma StartIs(s: I.Session, e: I.Event)
    requires e.StartSend? || e.StartRequest? || e.NextReject?
    ensures StepEffect(s, e) == Nothing
    ensures var v := I.Step(s, e).wire;
      v == s.wire || (e.StartSend? && v == I.Tracked(s.wire, e.message)) || (e.StartRequest? && v == I.Asked(s.wire, e.block))
  {
    hide I.Admit, Find, BlockFits, I.Tracked, I.Asked;
  }

  lemma StartChanges(s: I.Session, e: I.Event)
    requires e.StartSend? || e.StartRequest? || e.NextReject?
    ensures Changes(s.wire, I.Step(s, e).wire, StepEffect(s, e))
  {
    hide Changes, I.Step, StepEffect;
    StartIs(s, e);
    SameChanges(s.wire, s.wire);
    if e.StartSend? {
      SameChanges(s.wire, I.Tracked(s.wire, e.message));
    } else if e.StartRequest? {
      SameChanges(s.wire, I.Asked(s.wire, e.block));
    }
  }

  lemma ReportChanges(s: I.Session, e: I.Event)
    requires e.CallFails? || e.Expires?
    ensures Changes(s.wire, I.Step(s, e).wire, StepEffect(s, e))
  {
    hide Changes, Settle;
    SameChanges(s.wire, s.wire);
    if e.Expires? {
      SettleHas(s.wire, e.block, Failed(e.reason));
      EffectChanges(s.wire, I.Step(s, e).wire, StepEffect(s, e));
    } else if s.failedCalls != [] {
      SettleHas(s.wire, s.failedCalls[0].block, Failed(s.failedCalls[0].reason));
      EffectChanges(s.wire, I.Step(s, e).wire, StepEffect(s, e));
    }
  }

  lemma EndChanges(s: I.Session, e: I.Event, reason: Failure)
    requires I.Step(s, e).wire == Terminate(s.wire, reason) && StepEffect(s, e) == Ending(s.wire, reason)
    ensures Changes(s.wire, I.Step(s, e).wire, StepEffect(s, e))
  {
    hide Changes, Terminate, I.Step, StepEffect;
    ClosingHas(s.wire, reason);
    EffectChanges(s.wire, I.Step(s, e).wire, Ending(s.wire, reason));
  }

  /** What other steps do to the session: nothing that counts here, or they close it. */
  datatype Closure = Stays | Closes(reason: Failure)

  function ClosureOf(s: I.Session, e: I.Event): Closure {
    match e
    case EndHandshakeRead(accepted) => if s.reading.HandshakeRead? && !accepted then Closes(Mismatched) else Stays
    case WriteBreaks(reason) => if s.writes != [] && s.writeError.None? then Closes(reason) else Stays
    case EndOfStream => if s.reading.NoRead? then Stays else Closes(Ended)
    case ReadCloses =>
      if s.failedReads == [] || s.failedReads[0] in {NotConnected, QueueFull} then Stays else Closes(s.failedReads[0])
    case CloseCall(reason) => Closes(reason)
    case _ => Stays
  }

  predicate IsTransport(e: I.Event) {
    !e.EndRead? && !e.WriteDone? && !e.WriteFails?
    && !(e.StartSend? || e.StartRequest? || e.NextReject? || e.CallFails? || e.Expires?)
  }

  lemma TransportEffect(s: I.Session, e: I.Event)
    requires IsTransport(e)
    ensures StepEffect(s, e) == match ClosureOf(s, e) { case Stays => Nothing case Closes(reason) => Ending(s.wire, reason) }
  {
    hide Ending;
  }

  lemma TransportCloses(s: I.Session, e: I.Event)
    requires IsTransport(e) && ClosureOf(s, e).Closes?
    ensures I.Step(s, e).wire == Terminate(s.wire, ClosureOf(s, e).reason)
  {
    hide Terminate, StepEffect, I.QueuedBytes;
  }

  lemma TransportStays(s: I.Session, e: I.Event)
    requires IsTransport(e) && ClosureOf(s, e).Stays?
    ensures var w, v := s.wire, I.Step(s, e).wire; v.settled == w.settled && v.issued == w.issued && v.pending == w.pending
  {
    hide Terminate, StepEffect, I.QueuedBytes;
  }

  lemma TransportChanges(s: I.Session, e: I.Event)
    requires !e.EndRead? && !e.WriteDone? && !e.WriteFails?
    requires !(e.StartSend? || e.StartRequest? || e.NextReject? || e.CallFails? || e.Expires?)
    ensures Changes(s.wire, I.Step(s, e).wire, StepEffect(s, e))
  {
    hide Changes, Terminate, Ending, I.Step, StepEffect, ClosureOf;
    TransportEffect(s, e);
    if ClosureOf(s, e).Closes? {
      TransportCloses(s, e);
      EndChanges(s, e, ClosureOf(s, e).reason);
    } else {
      TransportStays(s, e);
      SameChanges(s.wire, I.Step(s, e).wire);
    }
  }

  lemma StepIs(s: I.Session, e: I.Event)
    ensures e.EndRead? ==> I.Step(s, e) == I.ReadEnds(s, e.message)
    ensures e.WriteDone? ==> I.Step(s, e) == I.WriteLands(s)
    ensures e.WriteFails? ==> I.Step(s, e) == I.WriteEnds(s)
  {
    hide I.ReadEnds, I.WriteLands, I.WriteEnds;
  }

  lemma StepChanges(s: I.Session, e: I.Event)
    ensures Changes(s.wire, I.Step(s, e).wire, StepEffect(s, e))
  {
    hide *;
    StepIs(s, e);
    if e.EndRead? {
      ReadChanges(s, e.message);
    } else if e.WriteDone? {
      WriteChanges(s);
    } else if e.WriteFails? {
      LossChanges(s);
    } else if e.StartSend? || e.StartRequest? || e.NextReject? {
      StartChanges(s, e);
    } else if e.CallFails? || e.Expires? {
      ReportChanges(s, e);
    } else {
      TransportChanges(s, e);
    }
  }

  /** Every reachable session keeps its books. */
  lemma ReachableKeepsBooks(config: Config, maxQueued: nat, before: seq<I.Event>)
    ensures I.Books(I.Run(I.Begin(config, maxQueued), before))
  {
    hide I.Run, I.Books;
    I.BeginIsKept(config, maxQueued);
    I.RunKeepsBooks(I.Begin(config, maxQueued), before);
  }

  lemma BooksMean(s: I.Session)
    requires I.Books(s)
    ensures I.NoTwins(s.wire.pending) && forall e <- s.wire.pending :: R.Belongs(e, s.wire.issued)
  {
  }

  /**
   Over every interleaving, each step does to each request that waits exactly what its fate is: it goes on waiting, or
   leaves and has its promise settled so; and a step settles no other promise.
   */
  lemma FatesOverlapping(config: Config, maxQueued: nat, before: seq<I.Event>, e: I.Event)
    ensures var s := I.Run(I.Begin(config, maxQueued), before);
      Fated(s.wire, I.Step(s, e).wire, StepEffect(s, e))
  {
    hide I.Run, I.Step, I.Books, StepEffect, Changes, Fated, I.NoTwins;
    ReachableKeepsBooks(config, maxQueued, before);
    var s := I.Run(I.Begin(config, maxQueued), before);
    BooksMean(s);
    StepChanges(s, e);
    ChangesAreFated(s.wire, I.Step(s, e).wire, StepEffect(s, e));
  }

  /** A promise is resolved only with the data of a piece that is just read, for the very block that was asked for. */
  lemma DeliveredIsRead(config: Config, maxQueued: nat, before: seq<I.Event>, e: I.Event, i: nat)
    requires var s := I.Run(I.Begin(config, maxQueued), before);
      && |s.wire.settled| <= i < |I.Step(s, e).wire.settled| && I.Step(s, e).wire.settled[i].outcome.Delivered?
    ensures var s := I.Run(I.Begin(config, maxQueued), before);
      var made := I.Step(s, e).wire.settled[i];
      && e.EndRead? && s.reading.MessageRead? && CheckIncoming(s.wire, e.message).None?
      && e.message.Piece? && made.outcome == Delivered(e.message.data) && made.ticket < |s.wire.issued|
      && s.wire.issued[made.ticket] == Block(e.message.piece, e.message.begin, |e.message.data|)
  {
    hide I.Run, I.Step, I.Books, CheckIncoming, I.NoTwins;
    ReachableKeepsBooks(config, maxQueued, before);
    FatesOverlapping(config, maxQueued, before, e);
    var s := I.Run(I.Begin(config, maxQueued), before);
    var made := I.Step(s, e).wire.settled[i];
    assert made == I.Step(s, e).wire.settled[|s.wire.settled|..][i - |s.wire.settled|];
    BooksMean(s);
    var entry :| entry in s.wire.pending && entry.ticket == Some(made.ticket) && Fate(StepEffect(s, e), entry) == Some(made.outcome);
    assert R.Belongs(entry, s.wire.issued);
  }

  /** Conversely, a piece that passes its checks and answers a promise resolves that promise with its data, and does nothing else. */
  lemma PieceDelivers(config: Config, maxQueued: nat, before: seq<I.Event>, piece: nat, begin: nat, data: Bytes, ticket: nat)
    requires var s := I.Run(I.Begin(config, maxQueued), before);
      && s.reading.MessageRead? && CheckIncoming(s.wire, Piece(piece, begin, data)).None?
      && Entry(Block(piece, begin, |data|), Some(ticket)) in s.wire.pending
    ensures var s := I.Run(I.Begin(config, maxQueued), before);
      I.Step(s, I.EndRead(Piece(piece, begin, data))).wire.settled == s.wire.settled + [Settlement(ticket, Delivered(data))]
  {
    hide I.Run, I.Step, I.Books, CheckIncoming, I.NoTwins, Find, Without;
    ReachableKeepsBooks(config, maxQueued, before);
    var s := I.Run(I.Begin(config, maxQueued), before);
    BooksMean(s);
    StepChanges(s, I.EndRead(Piece(piece, begin, data)));
    FindsOnly(s.wire.pending, Entry(Block(piece, begin, |data|), Some(ticket)));
  }

  // ---- Whole operations ----

  /** What each event does to the requests that wait, when operations do not overlap. */
  function WholeEffect(w: Wire, e: R.Event): Effect {
    match e
    case SendMessage(m) => if SendOne(w, m, true).failure.None? then WrittenEffect(w.config, m) else Nothing
    case Deliver(m) =>
      if w.state != Connected then Nothing
      else if CheckIncoming(w, m).Some? then EndsAll(Failed(CheckIncoming(w, m).value))
      else if m.Request? && RefusesAtOnce(w, m.block) then
        var refused := SendOne(CommitRemote(w, m), RejectRequest(m.block), true).failure;
        if refused.Some? then EndsAll(Failed(refused.value)) else Nothing
      else if (m.Piece? || m.RejectRequest?) && Unasked(w, m) then
        EndsAll(Failed(if m.Piece? then UnsolicitedPiece else NeverSent))
      else ReadEffect(w, m)
    case Expire(block, reason) => EndsOne(block, Failed(reason))
    case Close(reason) => Ending(w, reason)
    case _ => Nothing
  }

  lemma SendOneChanges(w: Wire, m: Message, tracked: bool)
    ensures Changes(w, SendOne(w, m, tracked).wire, if SendOne(w, m, tracked).failure.None? then WrittenEffect(w.config, m) else Nothing)
    ensures SendOne(w, m, tracked).wire.config == w.config
  {
    hide Changes, ApplyLocal, CommitLocal, CheckOutgoing, CheckFrame, Find, WrittenEffect;
    SameChanges(w, w);
    if SendOne(w, m, tracked).failure.None? {
      var before := if tracked && m.Request? then w.(pending := w.pending + [Entry(m.block, None)]) else w;
      R.SendOneKeepsRemote(w, m, tracked);
      LandingHas(before, m);
      var v := SendOne(w, m, tracked).wire;
      if m.Request? {
        RequestsWriteNothing(w.config, m);
        NothingMeans(before, v);
        SameChanges(w, v);
      } else {
        EffectChanges(w, v, WrittenEffect(w.config, m));
      }
    }
  }

  lemma RequestsWriteNothing(config: Config, m: Message)
    requires m.Request? || m.RejectRequest?
    ensures WrittenEffect(config, m) == Nothing
  {
  }

  lemma NothingMeans(w: Wire, v: Wire)
    requires HasEffect(w, v, Nothing)
    ensures v.settled == w.settled && v.issued == w.issued && v.pending == w.pending
  {
  }

  lemma ChangesNothing(w: Wire, v: Wire)
    requires Changes(w, v, Nothing)
    ensures v.settled == w.settled && w.issued <= v.issued && w.pending <= v.pending
  {
  }

  lemma {:induction false} RejectAllChanges(w: Wire, requests: seq<Block>)
    ensures Changes(w, RejectAll(w, requests).wire, Nothing)
    decreases |requests|
  {
    hide Changes, SendOne;
    if requests == [] {
      SameChanges(w, w);
    } else if Fast in w.config.negotiated && requests[0].piece in w.localAllowedFast {
      RejectAllChanges(w, requests[1..]);
    } else {
      var m := RejectRequest(requests[0]);
      var first := SendOne(w, m, true);
      SendOneChanges(w, m, true);
      RequestsWriteNothing(w.config, m);
      RejectAllChanges(first.wire, requests[1..]);
      ChangesNothing(w, first.wire);
      ChangesNothing(first.wire, RejectAll(first.wire, requests[1..]).wire);
      SameChanges(w, RejectAll(w, requests).wire);
    }
  }

  lemma SendChanges(w: Wire, m: Message, tracked: bool)
    ensures Changes(w, Send(w, m, tracked).wire, if SendOne(w, m, tracked).failure.None? then WrittenEffect(w.config, m) else Nothing)
  {
    hide Changes, SendOne, RejectAll;
    var one := SendOne(w, m, tracked);
    SendOneChanges(w, m, tracked);
    if one.failure.None? && m.Choke? && w.config.RejectSemantics() {
      RejectAllChanges(one.wire, one.wire.peerRequests);
      ChangesNothing(w, one.wire);
      ChangesNothing(one.wire, Send(w, m, tracked).wire);
      SameChanges(w, Send(w, m, tracked).wire);
    }
  }

  /** Asking leaves those that wait alone; when it fails at once, only its own promise is settled. */
  lemma AskChanges(w: Wire, block: Block)
    ensures var v := RequestBlock(w, block).wire;
      var failure := RequestBlock(w, block).failure;
      && (failure.None? || v.issued == w.issued ==> Changes(w, v, Nothing))
      && (failure.Some? && v.issued != w.issued ==>
            && v.pending == w.pending && v.issued == w.issued + [block]
            && v.settled == w.settled + [Settlement(|w.issued|, Failed(failure.value))])
  {
    hide Changes, Send, BlockFits, Find, Settle;
    SameChanges(w, w);
    if BlockFits(w.config, block) && Find(w.pending, block).None? && |w.pending| < w.config.maxPending {
      var entry := Entry(block, Some(|w.issued|));
      var asked := w.(pending := w.pending + [entry], issued := w.issued + [block]);
      var sent := Send(asked, Request(block), false);
      SendChanges(asked, Request(block), false);
      RequestsWriteNothing(asked.config, Request(block));
      ChangesNothing(asked, sent.wire);
      if sent.failure.None? {
        SameChanges(w, sent.wire);
      } else {
        R.RequestsOnlyConnected(asked, block);
        SettleHas(asked, block, Failed(sent.failure.value));
        LastIsSettled(w.pending, entry);
        R.WithoutLast(w.pending, entry);
      }
    }
  }

  lemma {:induction false} LastIsSettled(pending: seq<Entry>, entry: Entry)
    requires Find(pending, entry.block).None?
    ensures Find(pending + [entry], entry.block) == Some(entry)
  {
    if pending == [] {
    } else {
      assert (pending + [entry])[1..] == pending[1..] + [entry];
      LastIsSettled(pending[1..], entry);
    }
  }

  lemma FailedReadChanges(w: Wire, u: Wire, reason: Failure)
    requires w.state == Connected && u.state == Connected
    requires u.settled == w.settled && u.pending == w.pending && u.issued == w.issued
    ensures Changes(w, Terminate(u, reason), EndsAll(Failed(reason)))
  {
    hide Terminate, AllSettled;
    ClosingHas(u, reason);
  }

  lemma DeliverChanges(w: Wire, m: Message)
    ensures Changes(w, Receive(w, m).wire, WholeEffect(w, R.Deliver(m)))
  {
    hide Changes, CheckIncoming, CommitRemote, ApplyRemote, Terminate, RefusesAtOnce, ReadEffect, SendOne, Unasked;
    SameChanges(w, w);
    if w.state == Connected {
      if CheckIncoming(w, m).Some? {
        FailedReadChanges(w, w, CheckIncoming(w, m).value);
      } else {
        CommitKeepsPromises(w, m);
        CommitKeepsRefusing(w, m);
        var committed := CommitRemote(w, m);
        if m.Request? && RefusesAtOnce(w, m.block) {
          RefusalChanges(w, m);
        } else {
          ApplyHas(committed, m);
          UnaskedSame(w, committed, m);
          if (m.Piece? || m.RejectRequest?) && Unasked(w, m) {
            FailedReadChanges(w, committed, if m.Piece? then UnsolicitedPiece else NeverSent);
          } else {
            SameEffect(w, committed, ApplyRemote(committed, m).wire, m);
            EffectChanges(w, ApplyRemote(committed, m).wire, ReadEffect(w, m));
          }
        }
      }
    }
  }

  lemma CommitKeepsRefusing(w: Wire, m: Message)
    ensures CommitRemote(w, m).state == w.state
    ensures m.Request? ==> (RefusesAtOnce(CommitRemote(w, m), m.block) <==> RefusesAtOnce(w, m.block))
  {
  }

  lemma UnaskedSame(w: Wire, u: Wire, m: Message)
    requires u.pending == w.pending && u.config == w.config
    ensures m.Piece? || m.RejectRequest? ==> (Unasked(u, m) <==> Unasked(w, m))
  {
  }

  lemma RefusalChanges(w: Wire, m: Message)
    requires w.state == Connected && CheckIncoming(w, m).None? && m.Request? && RefusesAtOnce(w, m.block)
    ensures Changes(w, Receive(w, m).wire, WholeEffect(w, R.Deliver(m)))
  {
    hide Changes, CheckIncoming, CommitRemote, Terminate, RefusesAtOnce, SendOne;
    CommitKeepsPromises(w, m);
    CommitKeepsRefusing(w, m);
    var committed, reject := CommitRemote(w, m), RejectRequest(m.block);
    var one := SendOne(committed, reject, true);
    SendOneChanges(committed, reject, true);
    RequestsWriteNothing(committed.config, reject);
    ChangesNothing(committed, one.wire);
    FailedSendKeeps(committed, reject);
    if one.failure.Some? {
      FailedReadChanges(w, committed, one.failure.value);
    } else {
      SameChanges(w, one.wire);
    }
  }

  lemma FailedSendKeeps(w: Wire, m: Message)
    ensures SendOne(w, m, true).failure.Some? ==> SendOne(w, m, true).wire == w
  {
    hide CheckOutgoing, CheckFrame, Find, ApplyLocal, CommitLocal;
  }

  // ---- In a run of whole operations too, the requests that wait are the entries of a map ----

  lemma EffectHasNoTwins(w: Wire, v: Wire, effect: Effect)
    requires HasEffect(w, v, effect) && I.NoTwins(w.pending)
    ensures I.NoTwins(v.pending)
  {
    hide Without, Made;
    if effect.EndsOne? {
      I.WithoutIsLess(w.pending, effect.block);
    }
  }

  lemma OneMoreHasNoTwins(pending: seq<Entry>, entry: Entry)
    requires I.NoTwins(pending) && Find(pending, entry.block).None?
    ensures I.NoTwins(pending + [entry])
  {
    FoundIsIn(pending, entry.block);
    assert forall i :: 0 <= i < |pending| ==> pending[i] in pending;
  }

  lemma SendOneHasNoTwins(w: Wire, m: Message, tracked: bool)
    requires I.NoTwins(w.pending)
    ensures I.NoTwins(SendOne(w, m, tracked).wire.pending)
  {
    hide I.NoTwins, ApplyLocal, CommitLocal, CheckOutgoing, CheckFrame, Find, WrittenEffect;
    if SendOne(w, m, tracked).failure.None? {
      var before := if tracked && m.Request? then w.(pending := w.pending + [Entry(m.block, None)]) else w;
      if tracked && m.Request? {
        OneMoreHasNoTwins(w.pending, Entry(m.block, None));
      }
      LandingHas(before, m);
      EffectHasNoTwins(before, SendOne(w, m, tracked).wire, WrittenEffect(before.config, m));
    }
  }

  lemma {:induction false} RejectAllHasNoTwins(w: Wire, requests: seq<Block>)
    requires I.NoTwins(w.pending)
    ensures I.NoTwins(RejectAll(w, requests).wire.pending)
    decreases |requests|
  {
    hide I.NoTwins, SendOne;
    if requests == [] {
    } else if Fast in w.config.negotiated && requests[0].piece in w.localAllowedFast {
      RejectAllHasNoTwins(w, requests[1..]);
    } else {
      SendOneHasNoTwins(w, RejectRequest(requests[0]), true);
      RejectAllHasNoTwins(SendOne(w, RejectRequest(requests[0]), true).wire, requests[1..]);
    }
  }

  lemma SendHasNoTwins(w: Wire, m: Message, tracked: bool)
    requires I.NoTwins(w.pending)
    ensures I.NoTwins(Send(w, m, tracked).wire.pending)
  {
    hide I.NoTwins, SendOne, RejectAll;
    SendOneHasNoTwins(w, m, tracked);
    var one := SendOne(w, m, tracked).wire;
    RejectAllHasNoTwins(one, one.peerRequests);
  }

  lemma AskHasNoTwins(w: Wire, block: Block)
    requires I.NoTwins(w.pending)
    ensures I.NoTwins(RequestBlock(w, block).wire.pending)
  {
    hide I.NoTwins, Send, BlockFits, Find, Settle;
    if BlockFits(w.config, block) && Find(w.pending, block).None? && |w.pending| < w.config.maxPending {
      var entry := Entry(block, Some(|w.issued|));
      var asked := w.(pending := w.pending + [entry], issued := w.issued + [block]);
      var sent := Send(asked, Request(block), false);
      OneMoreHasNoTwins(w.pending, entry);
      SendHasNoTwins(asked, Request(block), false);
      if sent.failure.Some? {
        SettleHas(sent.wire, block, Failed(sent.failure.value));
        EffectHasNoTwins(sent.wire, RequestBlock(w, block).wire, EndsOne(block, Failed(sent.failure.value)));
      }
    }
  }

  lemma ClosedHasNoTwins(w: Wire, reason: Failure)
    requires I.NoTwins(w.pending)
    ensures I.NoTwins(Terminate(w, reason).pending)
  {
    hide I.NoTwins, Terminate, Ending;
    ClosingHas(w, reason);
    EffectHasNoTwins(w, Terminate(w, reason), Ending(w, reason));
  }

  lemma ReceiveHasNoTwins(w: Wire, m: Message)
    requires I.NoTwins(w.pending)
    ensures I.NoTwins(Receive(w, m).wire.pending)
  {
    hide I.NoTwins, CheckIncoming, CommitRemote, ApplyRemote, Terminate, RefusesAtOnce, ReadEffect;
    if w.state == Connected {
      if CheckIncoming(w, m).Some? {
        ClosedHasNoTwins(w, CheckIncoming(w, m).value);
      } else {
        CommitKeepsPromises(w, m);
        var committed := CommitRemote(w, m);
        var applied := ApplyRemote(committed, m);
        if m.Request? && RefusesAtOnce(committed, m.block) {
          RefusedIs(committed, m);
          SendHasNoTwins(committed, RejectRequest(m.block), true);
        } else {
          ApplyHas(committed, m);
          EffectHasNoTwins(committed, applied.wire, ReadEffect(committed, m));
        }
        if applied.failure.Some? {
          ClosedHasNoTwins(applied.wire, applied.failure.value);
        }
      }
    }
  }

  lemma RefusedIs(w: Wire, m: Message)
    requires m.Request? && RefusesAtOnce(w, m.block)
    ensures ApplyRemote(w, m) == Send(w, RejectRequest(m.block), true)
  {
    hide Send;
  }

  lemma WholeStepHasNoTwins(w: Wire, e: R.Event)
    requires I.NoTwins(w.pending)
    ensures I.NoTwins(R.Step(w, e).pending)
  {
    hide I.NoTwins, Receive, Send, RequestBlock, Settle, Terminate;
    match e
    case HandshakeDone =>
    case SendMessage(m) => SendHasNoTwins(w, m, true);
    case RequestPromise(block) => AskHasNoTwins(w, block);
    case Deliver(m) => ReceiveHasNoTwins(w, m);
    case Expire(block, reason) =>
      SettleHas(w, block, Failed(reason));
      EffectHasNoTwins(w, R.Step(w, e), EndsOne(block, Failed(reason)));
    case Close(reason) => ClosedHasNoTwins(w, reason);
  }

  lemma {:induction false} WholeRunHasNoTwins(w: Wire, events: seq<R.Event>)
    requires I.NoTwins(w.pending)
    ensures I.NoTwins(R.Run(w, events).pending)
    decreases |events|
  {
    hide I.NoTwins, R.Step;
    if events == [] {
    } else {
      WholeStepHasNoTwins(w, events[0]);
      WholeRunHasNoTwins(R.Step(w, events[0]), events[1..]);
    }
  }

  lemma WholeStepChanges(w: Wire, e: R.Event)
    requires !e.RequestPromise?
    ensures Changes(w, R.Step(w, e), WholeEffect(w, e))
  {
    hide Changes, Receive, Send, SendOne, Settle, Terminate, CheckIncoming, Unasked, ReadEffect, Ending, WrittenEffect;
    match e
    case HandshakeDone => SameChanges(w, R.Step(w, e));
    case SendMessage(m) => SendChanges(w, m, true);
    case Deliver(m) => DeliverChanges(w, m);
    case Expire(block, reason) =>
      SettleHas(w, block, Failed(reason));
      EffectChanges(w, R.Step(w, e), EndsOne(block, Failed(reason)));
    case Close(reason) =>
      ClosingHas(w, reason);
      EffectChanges(w, R.Step(w, e), Ending(w, reason));
  }

  lemma FreshIsSound(config: Config)
    ensures R.Sound(Fresh(config)) && I.NoTwins(Fresh(config).pending)
  {
  }

  lemma ReachableIsSound(config: Config, before: seq<R.Event>)
    ensures var w := R.Run(Fresh(config), before);
      I.NoTwins(w.pending) && forall e <- w.pending :: R.Belongs(e, w.issued)
  {
    hide R.Run, R.Sound, I.NoTwins;
    FreshIsSound(config);
    R.RunIsSound(Fresh(config), before);
    WholeRunHasNoTwins(Fresh(config), before);
    SoundMeans(R.Run(Fresh(config), before));
  }

  lemma SoundMeans(w: Wire)
    requires R.Sound(w)
    ensures forall e <- w.pending :: R.Belongs(e, w.issued)
  {
  }

  /** The same over every run of whole operations; a request that fails when it is asked settles its own promise only. */
  lemma FatesOfWhole(config: Config, before: seq<R.Event>, e: R.Event)
    ensures var w := R.Run(Fresh(config), before);
      var v := R.Step(w, e);
      if e.RequestPromise? && v.issued != w.issued && RequestBlock(w, e.block).failure.Some? then
        v.pending == w.pending && v.settled == w.settled + [Settlement(|w.issued|, Failed(RequestBlock(w, e.block).failure.value))]
      else Fated(w, v, WholeEffect(w, e))
  {
    hide R.Run, R.Step, WholeEffect, Changes, Fated, I.NoTwins, RequestBlock;
    ReachableIsSound(config, before);
    var w := R.Run(Fresh(config), before);
    if e.RequestPromise? {
      AskIs(w, e.block);
      AskChanges(w, e.block);
      if RequestBlock(w, e.block).failure.None? || R.Step(w, e).issued == w.issued {
        ChangesAreFated(w, R.Step(w, e), WholeEffect(w, e));
      }
    } else {
      WholeStepChanges(w, e);
      ChangesAreFated(w, R.Step(w, e), WholeEffect(w, e));
    }
  }

  lemma AskIs(w: Wire, block: Block)
    ensures R.Step(w, R.RequestPromise(block)) == RequestBlock(w, block).wire
    ensures WholeEffect(w, R.RequestPromise(block)) == Nothing
  {
    hide RequestBlock;
  }

  /** A promise is resolved only with the data of the piece delivered, for the very block that was asked for. */
  lemma DeliveredIsReceived(config: Config, before: seq<R.Event>, e: R.Event, i: nat)
    requires var w := R.Run(Fresh(config), before);
      |w.settled| <= i < |R.Step(w, e).settled| && R.Step(w, e).settled[i].outcome.Delivered?
    ensures var w := R.Run(Fresh(config), before);
      var made := R.Step(w, e).settled[i];
      && e.Deliver? && R.Accepts(w, e.message) && e.message.Piece?
      && made.outcome == Delivered(e.message.data) && made.ticket < |w.issued|
      && w.issued[made.ticket] == Block(e.message.piece, e.message.begin, |e.message.data|)
  {
    hide R.Run, R.Step, CheckIncoming, I.NoTwins, SendOne, RequestBlock, Unasked;
    ReachableIsSound(config, before);
    FatesOfWhole(config, before, e);
    var w := R.Run(Fresh(config), before);
    var made := R.Step(w, e).settled[i];
    assert made == R.Step(w, e).settled[|w.settled|..][i - |w.settled|];
    var entry :| entry in w.pending && entry.ticket == Some(made.ticket) && Fate(WholeEffect(w, e), entry) == Some(made.outcome);
    assert R.Belongs(entry, w.issued);
  }

  /** Conversely, a piece that is accepted and answers a promise resolves that promise with its data, and no other. */
  lemma PieceIsDelivered(config: Config, before: seq<R.Event>, piece: nat, begin: nat, data: Bytes, ticket: nat)
    requires var w := R.Run(Fresh(config), before);
      R.Accepts(w, Piece(piece, begin, data)) && Entry(Block(piece, begin, |data|), Some(ticket)) in w.pending
    ensures var w := R.Run(Fresh(config), before);
      R.Step(w, R.Deliver(Piece(piece, begin, data))).settled == w.settled + [Settlement(ticket, Delivered(data))]
  {
    hide R.Run, R.Step, CheckIncoming, I.NoTwins, Find, Without, SendOne;
    ReachableIsSound(config, before);
    var w := R.Run(Fresh(config), before);
    WholeStepChanges(w, R.Deliver(Piece(piece, begin, data)));
    FindsOnly(w.pending, Entry(Block(piece, begin, |data|), Some(ticket)));
  }
}
