/** What becomes of the promises of the send window's setters: which are resolved and which rejected, in each step. */
module UtpSetters {
  import opened Results
  import opened UtpSeq
  import opened UtpSendWindow

  /** The settling calls for these setters, in order. */
  function Marks<V>(setters: seq<Setter<V>>, resolved: bool): seq<Settlement> {
    seq(|setters|, i requires 0 <= i < |setters| => Settlement(setters[i].ticket, resolved))
  }

  /** The first `n` setters that waited are resolved, and the others go on waiting. */
  ghost predicate Moved<V>(m: Blocking<V>, r: Blocking<V>, n: nat) {
    && n <= |m.waiting| && r.waiting == m.waiting[n..] && r.issued == m.issued
    && r.settled == m.settled + Marks(m.waiting[..n], true)
  }

  lemma NoneMoved<V>(m: Blocking<V>, r: Blocking<V>)
    requires r.waiting == m.waiting && r.settled == m.settled && r.issued == m.issued
    ensures Moved(m, r, 0)
  {
  }

  lemma MovedTwice<V>(m: Blocking<V>, r: Blocking<V>, q: Blocking<V>, a: nat, b: nat)
    requires Moved(m, r, a) && Moved(r, q, b)
    ensures Moved(m, q, a + b)
  {
    var first, next := m.waiting[..a], r.waiting[..b];
    SlicesJoin(m.waiting, a, b);
    MarksJoin(first, next, true);
  }

  lemma SlicesJoin<V>(waiting: seq<Setter<V>>, a: nat, b: nat)
    requires a + b <= |waiting|
    ensures waiting[..a + b] == waiting[..a] + waiting[a..][..b] && waiting[a..][b..] == waiting[a + b..]
  {
  }

  lemma MarksJoin<V>(first: seq<Setter<V>>, next: seq<Setter<V>>, resolved: bool)
    ensures Marks(first + next, resolved) == Marks(first, resolved) + Marks(next, resolved)
  {
  }

  lemma {:induction false} AdmitMoves<V>(m: Blocking<V>) returns (n: nat)
    ensures Moved(m, Admit(m), n)
    decreases |m.waiting|
  {
    n := 0;
    if m.waiting != [] && |m.entries| < m.capacity {
      var first := m.waiting[0];
      var next := m.(entries := m.entries[first.key := first.value], waiting := m.waiting[1..],
                     settled := m.settled + [Settlement(first.ticket, true)]);
      assert Marks(m.waiting[..1], true) == [Settlement(first.ticket, true)];
      n := AdmitMoves(next);
      hide Admit;
      MovedTwice(m, next, Admit(next), 1, n);
      n := n + 1;
    }
  }

  lemma AdmitMovesSame<V>(m: Blocking<V>, r: Blocking<V>) returns (n: nat)
    requires r.waiting == m.waiting && r.settled == m.settled && r.issued == m.issued
    ensures Moved(m, Admit(r), n)
  {
    hide Admit;
    n := AdmitMoves(r);
  }

  lemma {:induction false} DeleteAllMoves<V>(m: Blocking<V>, keys: seq<nat>) returns (n: nat)
    ensures Moved(m, DeleteAll(m, keys), n)
    decreases |keys|
  {
    hide Admit, Moved;
    NoneMoved(m, m);
    n := 0;
    if keys != [] {
      var a := 0;
      if keys[0] in m.entries {
        a := AdmitMovesSame(m, m.(entries := m.entries - {keys[0]}));
      }
      var b := DeleteAllMoves(Delete(m, keys[0]), keys[1..]);
      MovedTwice(m, Delete(m, keys[0]), DeleteAll(m, keys), a, b);
      n := a + b;
    }
  }

  lemma {:induction false} RejectionsAreMarks<V>(waiting: seq<Setter<V>>)
    ensures Rejections(waiting) == Marks(waiting, false)
  {
    if waiting != [] {
      RejectionsAreMarks(waiting[1..]);
    }
  }

  /** The setters that wait, and behind them the one whose call is this step. */
  function Queue<V>(w: Window<V>, e: Event<V>): seq<Setter<V>> {
    w.packets.waiting + if e.Submit? && !w.failed then [Setter(e.key, e.value, w.packets.issued)] else []
  }

  /** Some first setters of the queue are let in, and the others fail with the window or go on waiting. */
  ghost predicate SettersEnd<V>(w: Window<V>, e: Event<V>, v: Window<V>, n: nat) {
    var queue, fails := Queue(w, e), !w.failed && v.failed;
    && n <= |queue|
    && v.packets.settled == w.packets.settled + Marks(queue[..n], true) + (if fails then Marks(queue[n..], false) else [])
    && v.packets.waiting == (if fails then [] else queue[n..])
    && v.packets.issued == w.packets.issued + (if e.Submit? && !w.failed then 1 else 0)
  }

  lemma MovedEnds<V>(w: Window<V>, e: Event<V>, v: Window<V>, n: nat)
    requires !(e.Submit? && !w.failed) && v.failed == w.failed && Moved(w.packets, v.packets, n)
    ensures SettersEnd(w, e, v, n)
  {
    assert Queue(w, e) == w.packets.waiting;
  }

  lemma FailingEnds<V>(w: Window<V>, e: Event<V>, u: Window<V>, v: Window<V>, n: nat)
    requires !e.Submit? && !w.failed && v.failed && Moved(w.packets, u.packets, n)
    requires v.packets.settled == u.packets.settled + Rejections(u.packets.waiting) && v.packets.waiting == []
    requires v.packets.issued == u.packets.issued
    ensures SettersEnd(w, e, v, n)
  {
    RejectionsAreMarks(u.packets.waiting);
    assert Queue(w, e) == w.packets.waiting;
  }

  lemma SubmitEnds<V>(w: Window<V>, key: nat, value: V) returns (n: nat)
    requires Sound(w)
    ensures SettersEnd(w, Submit(key, value), Step(w, Submit(key, value)), n)
    ensures Step(w, Submit(key, value)).packets.entries == if n == 1 then w.packets.entries[key := value] else w.packets.entries
    ensures n == if !w.failed && |w.packets.entries| < w.packets.capacity then 1 else 0
  {
    hide Tickets, Upto, WaitingTickets;
    var setter := Setter(key, value, w.packets.issued);
    n := if !w.failed && |w.packets.entries| < w.packets.capacity then 1 else 0;
    assert Marks([setter], true) == [Settlement(setter.ticket, true)];
  }

  lemma AckEnds<V>(w: Window<V>, ackNr: nat, remoteBytes: nat, sack: seq<nat>, order: seq<nat>, congestion: int, mtu: nat)
    returns (n: nat)
    requires mtu > 0
    ensures Moved(w.packets, HandleAck(w, ackNr, remoteBytes, sack, order, congestion, mtu).packets, n)
  {
    hide Moved, Admit, DeleteAll, WindowSize, Latest, Acked;
    var acked := Acked(Latest(w.latestAck, ackNr), order);
    var selective := DeleteAll(w.packets, sack);
    var cumulative := DeleteAll(selective, acked);
    var a := DeleteAllMoves(w.packets, sack);
    var b := DeleteAllMoves(selective, acked);
    MovedTwice(w.packets, selective, cumulative, a, b);
    var size := WindowSize(Some(remoteBytes), congestion, mtu);
    var c := AdmitMovesSame(cumulative, cumulative.(capacity := size));
    MovedTwice(w.packets, cumulative, UpdateCapacity(cumulative, size), a + b, c);
    n := a + b + c;
  }

  lemma LossEnds<V>(w: Window<V>, key: nat, congestion: int, mtu: nat) returns (n: nat)
    requires mtu > 0
    ensures SettersEnd(w, GiveUp(key, congestion, mtu), Loss(w, key, congestion, mtu), n)
  {
    hide Moved, Admit, WindowSize, SettersEnd, Outcomes;
    var e := GiveUp(key, congestion, mtu);
    var v := Loss(w, key, congestion, mtu);
    n := 0;
    if key in w.packets.entries {
      var m := w.packets;
      var size := WindowSize(w.remoteBytes, congestion, mtu);
      var shrunk := UpdateCapacity(m, size);
      var a := AdmitMovesSame(m, m.(capacity := size));
      var b := 0;
      NoneMoved(shrunk, shrunk);
      if key in shrunk.entries {
        b := AdmitMovesSame(shrunk, shrunk.(entries := shrunk.entries - {key}));
      }
      n := a + b;
      MovedTwice(m, shrunk, Delete(shrunk, key), a, b);
      var u := ApplyWindowSize(w, congestion, mtu).(packets := Delete(shrunk, key));
      assert v == Fail(u);
      if w.failed {
        MovedEnds(w, e, v, n);
      } else {
        FailingEnds(w, e, u, v, n);
      }
    } else {
      NoneMoved(w.packets, w.packets);
      MovedEnds(w, e, v, 0);
    }
  }

  lemma ResetEnds<V>(w: Window<V>, withError: bool) returns (n: nat)
    requires Sound(w)
    ensures SettersEnd(w, ResetCall(withError), Reset(w, withError), n)
  {
    hide Moved, Admit, SettersEnd, Outcomes, Orderly;
    var e, v, m := ResetCall(withError), Reset(w, withError), w.packets;
    if withError && !w.failed {
      NoneMoved(m, m);
      AbortedStays(m);
      FailingEnds(w, e, w, v, 0);
      n := 0;
    } else if withError {
      n := AdmitMovesSame(m, m.(capacity := MIN_WINDOW));
      MovedEnds(w, e, v, n);
    } else {
      var a := AdmitMovesSame(m, m.(entries := map[]));
      var b := AdmitMovesSame(Clear(m), Clear(m).(capacity := MIN_WINDOW));
      MovedTwice(m, Clear(m), v.packets, a, b);
      n := a + b;
      MovedEnds(w, e, v, n);
    }
  }

  lemma AbortedStays<V>(m: Blocking<V>)
    ensures UpdateCapacity(Abort(m), MIN_WINDOW) == Abort(m).(capacity := MIN_WINDOW)
  {
  }

  /**
   In every step the setters that are let in are the first of the queue and their promises are resolved in order; if
   the window fails in the step, the promises of all others are rejected in order, else they go on waiting.
   */
  lemma SettersEndInTurn<V>(w: Window<V>, e: Event<V>) returns (n: nat)
    requires Sound(w) && Possible(e)
    ensures SettersEnd(w, e, Step(w, e), n)
  {
    hide Moved, SettersEnd, Sound, HandleAck, Loss, Reset, Outcomes;
    NoneMoved(w.packets, w.packets);
    match e
    case Submit(key, value) => n := SubmitEnds(w, key, value);
    case FlushCall => MovedEnds(w, e, Step(w, e), 0); n := 0;
    case Ack(ackNr, remoteBytes, sack, order, congestion, mtu) =>
      n := AckEnds(w, ackNr, remoteBytes, sack, order, congestion, mtu);
      AckKeepsFailed(w, ackNr, remoteBytes, sack, order, congestion, mtu);
      MovedEnds(w, e, Step(w, e), n);
    case GiveUp(key, congestion, mtu) => n := LossEnds(w, key, congestion, mtu);
    case AbortCall =>
      n := 0;
      if w.failed {
        MovedEnds(w, e, Step(w, e), 0);
      } else {
        FailingEnds(w, e, w, Step(w, e), 0);
      }
    case ResetCall(withError) => n := ResetEnds(w, withError);
  }

  lemma AckKeepsFailed<V>(w: Window<V>, ackNr: nat, remoteBytes: nat, sack: seq<nat>, order: seq<nat>, congestion: int, mtu: nat)
    requires mtu > 0
    ensures HandleAck(w, ackNr, remoteBytes, sack, order, congestion, mtu).failed == w.failed
  {
  }
}
