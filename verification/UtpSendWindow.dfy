/** The send window of uTP: a map that makes setters wait while it is full, acknowledgements, and flush. */
module UtpSendWindow {
  import opened Results
  import opened UtpSeq

  // ---- The blocking map ----

  datatype Setter<V> = Setter(key: nat, value: V, ticket: nat)

  datatype Settlement = Settlement(ticket: nat, resolved: bool)

  /** Promises are numbered in the order of the calls; `settled` lists the settling calls made so far. */
  datatype Blocking<V> = Blocking(entries: map<nat, V>, capacity: nat, waiting: seq<Setter<V>>,
                                  settled: seq<Settlement>, issued: nat)

  /** Lets waiting setters in, the first come first, as long as there is room. */
  function Admit<V>(m: Blocking<V>): (r: Blocking<V>)
    ensures r.waiting != [] ==> |r.entries| >= r.capacity
    ensures r.capacity == m.capacity && r.issued == m.issued
    decreases |m.waiting|
  {
    if m.waiting == [] || |m.entries| >= m.capacity then m
    else
      var first := m.waiting[0];
      Admit(m.(entries := m.entries[first.key := first.value], waiting := m.waiting[1..],
               settled := m.settled + [Settlement(first.ticket, true)]))
  }

  function Set<V>(m: Blocking<V>, key: nat, value: V): Blocking<V> {
    if |m.entries| < m.capacity then
      Admit(m.(entries := m.entries[key := value], settled := m.settled + [Settlement(m.issued, true)],
               issued := m.issued + 1))
    else m.(waiting := m.waiting + [Setter(key, value, m.issued)], issued := m.issued + 1)
  }

  function Delete<V>(m: Blocking<V>, key: nat): Blocking<V> {
    if key in m.entries then Admit(m.(entries := m.entries - {key})) else m
  }

  function Clear<V>(m: Blocking<V>): Blocking<V> {
    Admit(m.(entries := map[]))
  }

  function Rejections<V>(waiting: seq<Setter<V>>): seq<Settlement> {
    if waiting == [] then [] else [Settlement(waiting[0].ticket, false)] + Rejections(waiting[1..])
  }

  function Abort<V>(m: Blocking<V>): Blocking<V> {
    m.(entries := map[], waiting := [], settled := m.settled + Rejections(m.waiting))
  }

  function UpdateCapacity<V>(m: Blocking<V>, capacity: nat): Blocking<V> {
    Admit(m.(capacity := capacity))
  }

  function Tickets(settled: seq<Settlement>): seq<nat> {
    if settled == [] then [] else Tickets(settled[..|settled| - 1]) + [settled[|settled| - 1].ticket]
  }

  function WaitingTickets<V>(waiting: seq<Setter<V>>): seq<nat> {
    if waiting == [] then [] else [waiting[0].ticket] + WaitingTickets(waiting[1..])
  }

  function Upto(n: nat): seq<nat> {
    if n == 0 then [] else Upto(n - 1) + [n - 1]
  }

  /**
   Settled and waiting promises together are all promises in the order of the calls: each is settled at most
   once, and in turn. A setter waits only while the map is full.
   */
  predicate Orderly<V>(m: Blocking<V>) {
    && Tickets(m.settled) + WaitingTickets(m.waiting) == Upto(m.issued)
    && (m.waiting != [] ==> |m.entries| >= m.capacity)
  }

  lemma {:induction false} TicketsJoin(a: seq<Settlement>, b: seq<Settlement>)
    ensures Tickets(a + b) == Tickets(a) + Tickets(b)
  {
    if b == [] {
      assert a + b == a;
    } else {
      assert (a + b)[..|a + b| - 1] == a + b[..|b| - 1];
      TicketsJoin(a, b[..|b| - 1]);
    }
  }

  lemma {:induction false} WaitingJoin<V>(a: seq<Setter<V>>, b: Setter<V>)
    ensures WaitingTickets(a + [b]) == WaitingTickets(a) + [b.ticket]
  {
    if a == [] {
      assert a + [b] == [b] && [b][1..] == [];
    } else {
      assert (a + [b])[1..] == a[1..] + [b];
      WaitingJoin(a[1..], b);
    }
  }

  lemma OneTicket(settled: seq<Settlement>, s: Settlement)
    ensures Tickets(settled + [s]) == Tickets(settled) + [s.ticket]
  {
    assert (settled + [s])[..|settled|] == settled;
  }

  lemma {:induction false} AdmitIsOrderly<V>(m: Blocking<V>)
    requires Tickets(m.settled) + WaitingTickets(m.waiting) == Upto(m.issued)
    ensures Orderly(Admit(m))
    decreases |m.waiting|
  {
    hide Upto, Tickets;
    if m.waiting != [] && |m.entries| < m.capacity {
      var first := m.waiting[0];
      OneTicket(m.settled, Settlement(first.ticket, true));
      var next := m.(entries := m.entries[first.key := first.value], waiting := m.waiting[1..],
                     settled := m.settled + [Settlement(first.ticket, true)]);
      assert Tickets(m.settled) + [first.ticket] + WaitingTickets(next.waiting) == Upto(m.issued);
      AdmitIsOrderly(next);
    }
  }

  lemma SetIsOrderly<V>(m: Blocking<V>, key: nat, value: V)
    requires Orderly(m)
    ensures Orderly(Set(m, key, value))
  {
    hide Tickets, WaitingTickets, Admit;
    UptoNext(m.issued);
    if |m.entries| < m.capacity {
      OneTicket(m.settled, Settlement(m.issued, true));
      NoneWaiting(m);
      AdmitIsOrderly(m.(entries := m.entries[key := value], settled := m.settled + [Settlement(m.issued, true)],
                        issued := m.issued + 1));
    } else {
      WaitingJoin(m.waiting, Setter(key, value, m.issued));
    }
  }

  lemma UptoNext(n: nat)
    ensures Upto(n + 1) == Upto(n) + [n]
  {
  }

  lemma NoneWaiting<V>(m: Blocking<V>)
    requires Orderly(m) && |m.entries| < m.capacity
    ensures m.waiting == [] && Tickets(m.settled) == Upto(m.issued) && WaitingTickets(m.waiting) == []
  {
  }

  lemma {:induction false} RejectionTickets<V>(waiting: seq<Setter<V>>)
    ensures Tickets(Rejections(waiting)) == WaitingTickets(waiting)
  {
    if waiting == [] {
    } else {
      RejectionTickets(waiting[1..]);
      TicketsJoin([Settlement(waiting[0].ticket, false)], Rejections(waiting[1..]));
      OneTicket([], Settlement(waiting[0].ticket, false));
      assert [] + [Settlement(waiting[0].ticket, false)] == [Settlement(waiting[0].ticket, false)];
    }
  }

  lemma AbortIsOrderly<V>(m: Blocking<V>)
    requires Orderly(m)
    ensures Orderly(Abort(m)) && Abort(m).entries == map[] && Abort(m).waiting == []
  {
    hide Upto, Tickets;
    TicketsJoin(m.settled, Rejections(m.waiting));
    RejectionTickets(m.waiting);
  }

  lemma DeleteIsOrderly<V>(m: Blocking<V>, key: nat)
    requires Orderly(m)
    ensures Orderly(Delete(m, key)) && Delete(m, key).capacity == m.capacity
  {
    hide Tickets, Upto, WaitingTickets;
    AdmitIsOrderly(m.(entries := m.entries - {key}));
  }

  lemma UpdateIsOrderly<V>(m: Blocking<V>, capacity: nat)
    requires Orderly(m)
    ensures Orderly(UpdateCapacity(m, capacity)) && UpdateCapacity(m, capacity).capacity == capacity
  {
    hide Tickets, Upto, WaitingTickets;
    AdmitIsOrderly(m.(capacity := capacity));
  }

  lemma ClearIsOrderly<V>(m: Blocking<V>)
    requires Orderly(m)
    ensures Orderly(Clear(m)) && Clear(m).capacity == m.capacity
  {
    hide Tickets, Upto, WaitingTickets;
    AdmitIsOrderly(m.(entries := map[]));
  }

  /** Setters are never kept waiting in front of an empty map, and clearing lets one in. */
  lemma ClearLetsIn<V>(m: Blocking<V>)
    requires m.capacity >= 1
    ensures Clear(m).entries == map[] <==> m.waiting == []
  {
    if m.waiting != [] {
      var first := m.waiting[0];
      AdmitGrows(m.(entries := map[first.key := first.value], waiting := m.waiting[1..],
                    settled := m.settled + [Settlement(first.ticket, true)]));
      assert map[][first.key := first.value] == map[first.key := first.value];
    }
  }

  lemma {:induction false} AdmitGrows<V>(m: Blocking<V>)
    ensures m.entries.Keys <= Admit(m).entries.Keys
    decreases |m.waiting|
  {
    if m.waiting != [] && |m.entries| < m.capacity {
      var first := m.waiting[0];
      AdmitGrows(m.(entries := m.entries[first.key := first.value], waiting := m.waiting[1..],
                    settled := m.settled + [Settlement(first.ticket, true)]));
    }
  }

  // ---- The send window ----

  const MIN_WINDOW: nat := 4
  const MAX_WINDOW: nat := 64

  /** `failed` is set for good by the first delivery error. */
  datatype Window<V> = Window(packets: Blocking<V>, latestAck: Option<nat>, remoteBytes: Option<nat>, failed: bool,
                              flushWaiting: seq<nat>, flushSettled: seq<Settlement>, flushIssued: nat)

  function Initial<V>(): Window<V> {
    Window(Blocking(map[], MIN_WINDOW, [], [], 0), None, None, false, [], [], 0)
  }

  /** The congestion window within its bounds, and no more packets than the peer has room for, one at least. */
  function WindowSize(remoteBytes: Option<nat>, congestion: int, mtu: nat): (size: nat)
    requires mtu > 0
    ensures 1 <= size <= MAX_WINDOW
  {
    var least := if congestion < MAX_WINDOW then congestion else MAX_WINDOW;
    var bounded := if least < MIN_WINDOW then MIN_WINDOW else least;
    if remoteBytes.None? then bounded
    else
      var remote := if remoteBytes.value / mtu < 1 then 1 else remoteBytes.value / mtu;
      if remote < bounded then remote else bounded
  }

  function ApplyWindowSize<V>(w: Window<V>, congestion: int, mtu: nat): Window<V>
    requires mtu > 0
  {
    w.(packets := UpdateCapacity(w.packets, WindowSize(w.remoteBytes, congestion, mtu)))
  }

  function Outcomes(tickets: seq<nat>, resolved: bool): seq<Settlement> {
    if tickets == [] then []
    else Outcomes(tickets[..|tickets| - 1], resolved) + [Settlement(tickets[|tickets| - 1], resolved)]
  }

  function Fail<V>(w: Window<V>): Window<V> {
    if w.failed then w
    else
      w.(failed := true, packets := Abort(w.packets), flushWaiting := [],
         flushSettled := w.flushSettled + Outcomes(w.flushWaiting, false))
  }

  function ResolveFlushIfIdle<V>(w: Window<V>): Window<V> {
    if w.packets.entries != map[] || w.failed then w
    else w.(flushWaiting := [], flushSettled := w.flushSettled + Outcomes(w.flushWaiting, true))
  }

  function Flush<V>(w: Window<V>): Window<V> {
    var next := w.(flushIssued := w.flushIssued + 1);
    if w.failed then next.(flushSettled := w.flushSettled + [Settlement(w.flushIssued, false)])
    else if w.packets.entries == map[] then next.(flushSettled := w.flushSettled + [Settlement(w.flushIssued, true)])
    else next.(flushWaiting := w.flushWaiting + [w.flushIssued])
  }

  function DeleteAll<V>(m: Blocking<V>, keys: seq<nat>): Blocking<V>
    decreases |keys|
  {
    if keys == [] then m else DeleteAll(Delete(m, keys[0]), keys[1..])
  }

  function Acked(latest: nat, keys: seq<nat>): seq<nat> {
    if keys == [] then [] else (if Ge(latest, keys[0]) then [keys[0]] else []) + Acked(latest, keys[1..])
  }

  function Latest(latestAck: Option<nat>, ackNr: nat): nat {
    if latestAck.None? || Gt(ackNr, latestAck.value) then ackNr else latestAck.value
  }

  /** `order` lists the keys left after the selective acknowledgement, in the order the map holds them. */
  function HandleAck<V>(w: Window<V>, ackNr: nat, remoteBytes: nat, sack: seq<nat>, order: seq<nat>,
                        congestion: int, mtu: nat): Window<V>
    requires mtu > 0
  {
    var latest := Latest(w.latestAck, ackNr);
    var selective := DeleteAll(w.packets, sack);
    var cumulative := DeleteAll(selective, Acked(latest, order));
    ResolveFlushIfIdle(
      ApplyWindowSize(w.(packets := cumulative, latestAck := Some(latest), remoteBytes := Some(remoteBytes)), congestion, mtu))
  }

  /** A packet was sent again as often as allowed: the window shrinks, and everything waiting fails. */
  function Loss<V>(w: Window<V>, key: nat, congestion: int, mtu: nat): Window<V>
    requires mtu > 0
  {
    if key !in w.packets.entries then w
    else
      var shrunk := ApplyWindowSize(w, congestion, mtu);
      Fail(shrunk.(packets := Delete(shrunk.packets, key)))
  }

  function Reset<V>(w: Window<V>, withError: bool): Window<V> {
    var cleared := if withError then Fail(w) else w.(packets := Clear(w.packets));
    cleared.(latestAck := None, remoteBytes := None, packets := UpdateCapacity(cleared.packets, MIN_WINDOW))
  }

  datatype Event<V> =
    | Submit(key: nat, value: V)
    | FlushCall
    | Ack(ackNr: nat, remoteBytes: nat, sack: seq<nat>, order: seq<nat>, congestion: int, mtu: nat)
    | GiveUp(key: nat, congestion: int, mtu: nat)
    | AbortCall
    | ResetCall(withError: bool)

  predicate Possible<V>(e: Event<V>) {
    (e.Ack? || e.GiveUp?) ==> e.mtu > 0
  }

  function Step<V>(w: Window<V>, e: Event<V>): Window<V>
    requires Possible(e)
  {
    match e
    case Submit(key, value) => if w.failed then w else w.(packets := Set(w.packets, key, value))
    case FlushCall => Flush(w)
    case Ack(ackNr, remoteBytes, sack, order, congestion, mtu) => HandleAck(w, ackNr, remoteBytes, sack, order, congestion, mtu)
    case GiveUp(key, congestion, mtu) => Loss(w, key, congestion, mtu)
    case AbortCall => Fail(w)
    case ResetCall(withError) => Reset(w, withError)
  }

  /** No wakeup is lost: a flush waits only while packets are in the window and nothing has failed. */
  predicate Sound<V>(w: Window<V>) {
    && Orderly(w.packets) && w.packets.capacity >= 1
    && Tickets(w.flushSettled) + w.flushWaiting == Upto(w.flushIssued)
    && (w.flushWaiting != [] ==> w.packets.entries != map[] && !w.failed)
    && (w.failed ==> w.packets.entries == map[] && w.packets.waiting == [])
  }

  lemma {:induction false} OutcomeTickets(tickets: seq<nat>, resolved: bool)
    ensures Tickets(Outcomes(tickets, resolved)) == tickets
    ensures forall s <- Outcomes(tickets, resolved) :: s.resolved == resolved
  {
    if tickets == [] {
    } else {
      var front := tickets[..|tickets| - 1];
      OutcomeTickets(front, resolved);
      OneTicket(Outcomes(front, resolved), Settlement(tickets[|tickets| - 1], resolved));
      assert tickets == front + [tickets[|tickets| - 1]];
    }
  }

  lemma AllSettled(settled: seq<Settlement>, waiting: seq<nat>, resolved: bool)
    ensures Tickets(settled + Outcomes(waiting, resolved)) + [] == Tickets(settled) + waiting
  {
    TicketsJoin(settled, Outcomes(waiting, resolved));
    OutcomeTickets(waiting, resolved);
  }

  lemma FailIsSound<V>(w: Window<V>)
    requires Orderly(w.packets) && w.packets.capacity >= 1
    requires Tickets(w.flushSettled) + w.flushWaiting == Upto(w.flushIssued)
    requires w.failed ==> w.packets.entries == map[] && w.packets.waiting == [] && w.flushWaiting == []
    ensures Sound(Fail(w)) && Fail(w).failed
  {
    hide Tickets, Upto, Orderly, Outcomes;
    AllSettled(w.flushSettled, w.flushWaiting, false);
    if !w.failed {
      AbortIsOrderly(w.packets);
    }
  }

  lemma FlushIsSound<V>(w: Window<V>)
    requires Sound(w)
    ensures Sound(Flush(w))
  {
    hide Tickets, Upto, Orderly;
    UptoNext(w.flushIssued);
    OneTicket(w.flushSettled, Settlement(w.flushIssued, false));
    OneTicket(w.flushSettled, Settlement(w.flushIssued, true));
  }

  lemma {:induction false} DeleteAllIsOrderly<V>(m: Blocking<V>, keys: seq<nat>)
    requires Orderly(m)
    ensures Orderly(DeleteAll(m, keys)) && DeleteAll(m, keys).capacity == m.capacity
    ensures m.entries == map[] && m.waiting == [] ==> DeleteAll(m, keys) == m
    decreases |keys|
  {
    hide Orderly, Admit;
    if keys == [] {
    } else {
      DeleteIsOrderly(m, keys[0]);
      DeleteAllIsOrderly(Delete(m, keys[0]), keys[1..]);
    }
  }

  lemma UpdateEmpty<V>(m: Blocking<V>, capacity: nat)
    requires m.waiting == []
    ensures UpdateCapacity(m, capacity) == m.(capacity := capacity)
  {
  }

  lemma AckIsSound<V>(w: Window<V>, ackNr: nat, remoteBytes: nat, sack: seq<nat>, order: seq<nat>, congestion: int, mtu: nat)
    requires Sound(w) && mtu > 0
    ensures Sound(HandleAck(w, ackNr, remoteBytes, sack, order, congestion, mtu))
  {
    hide Tickets, Upto, Orderly, Outcomes, UpdateCapacity, DeleteAll, Acked, Latest, WindowSize;
    var latest := Latest(w.latestAck, ackNr);
    DeleteAllIsOrderly(w.packets, sack);
    var selective := DeleteAll(w.packets, sack);
    DeleteAllIsOrderly(selective, Acked(latest, order));
    var cumulative := DeleteAll(selective, Acked(latest, order));
    var size := WindowSize(Some(remoteBytes), congestion, mtu);
    UpdateIsOrderly(cumulative, size);
    if w.failed {
      UpdateEmpty(cumulative, size);
    }
    AllSettled(w.flushSettled, w.flushWaiting, true);
  }

  lemma LossIsSound<V>(w: Window<V>, key: nat, congestion: int, mtu: nat)
    requires Sound(w) && mtu > 0
    ensures Sound(Loss(w, key, congestion, mtu))
  {
    hide Tickets, Upto, Orderly, Fail, Admit;
    if key in w.packets.entries {
      var shrunk := ApplyWindowSize(w, congestion, mtu);
      UpdateIsOrderly(w.packets, WindowSize(w.remoteBytes, congestion, mtu));
      DeleteIsOrderly(shrunk.packets, key);
      FailIsSound(shrunk.(packets := Delete(shrunk.packets, key)));
    }
  }

  /** A clean reset is the one operation that can leave a flush waiting on nothing: exactly when no setter waits. */
  lemma ResetKeepsFlush<V>(w: Window<V>)
    requires Sound(w)
    ensures Sound(Reset(w, false)) <==> w.flushWaiting == [] || w.packets.waiting != []
  {
    hide Tickets, Upto, Orderly, Admit;
    ClearIsOrderly(w.packets);
    ClearLetsIn(w.packets);
    var cleared := Clear(w.packets);
    UpdateIsOrderly(cleared, MIN_WINDOW);
    UpdateGrows(cleared, MIN_WINDOW);
    if w.packets.waiting == [] {
      ClearEmpty(w.packets);
      UpdateEmpty(cleared, MIN_WINDOW);
    }
  }

  lemma UpdateGrows<V>(m: Blocking<V>, capacity: nat)
    ensures m.entries != map[] ==> UpdateCapacity(m, capacity).entries != map[]
  {
    AdmitGrows(m.(capacity := capacity));
    if m.entries != map[] {
      var k :| k in m.entries.Keys;
      assert k in UpdateCapacity(m, capacity).entries.Keys;
    }
  }

  lemma ClearEmpty<V>(m: Blocking<V>)
    requires m.waiting == []
    ensures Clear(m) == m.(entries := map[])
  {
  }

  lemma ErrorResetIsSound<V>(w: Window<V>)
    requires Sound(w)
    ensures Sound(Reset(w, true))
  {
    hide Tickets, Upto, Orderly, Fail, UpdateCapacity;
    FailIsSound(w);
    UpdateIsOrderly(Fail(w).packets, MIN_WINDOW);
    UpdateEmpty(Fail(w).packets, MIN_WINDOW);
  }

  /** A clean reset while a flush waits and no setter does. */
  predicate StrandsFlush<V>(w: Window<V>, e: Event<V>) {
    e == ResetCall(false) && w.flushWaiting != [] && w.packets.waiting == []
  }

  lemma StepIsSound<V>(w: Window<V>, e: Event<V>)
    requires Sound(w) && Possible(e)
    ensures Sound(Step(w, e)) <==> !StrandsFlush(w, e)
  {
    hide HandleAck, Loss, Fail, Flush, Reset, Orderly, Tickets, Upto;
    match e
    case Submit(key, value) =>
      if !w.failed {
        SetIsOrderly(w.packets, key, value);
        SetGrows(w.packets, key, value);
      }
    case FlushCall => FlushIsSound(w);
    case Ack(ackNr, remoteBytes, sack, order, congestion, mtu) => AckIsSound(w, ackNr, remoteBytes, sack, order, congestion, mtu);
    case GiveUp(key, congestion, mtu) => LossIsSound(w, key, congestion, mtu);
    case AbortCall => FailIsSound(w);
    case ResetCall(withError) =>
      if withError {
        ErrorResetIsSound(w);
      } else {
        ResetKeepsFlush(w);
      }
  }

  lemma SetGrows<V>(m: Blocking<V>, key: nat, value: V)
    requires m.capacity >= 1
    ensures Set(m, key, value).entries != map[] && Set(m, key, value).capacity == m.capacity
  {
    if |m.entries| < m.capacity {
      var next := m.(entries := m.entries[key := value], settled := m.settled + [Settlement(m.issued, true)], issued := m.issued + 1);
      AdmitGrows(next);
      assert key in next.entries.Keys;
    }
  }

  function Run<V>(w: Window<V>, events: seq<Event<V>>): Window<V>
    requires forall k :: 0 <= k < |events| ==> Possible(events[k])
    decreases |events|
  {
    if events == [] then w else Run(Step(w, events[0]), events[1..])
  }

  predicate NeverStrands<V>(w: Window<V>, events: seq<Event<V>>)
    requires forall k :: 0 <= k < |events| ==> Possible(events[k])
    decreases |events|
  {
    events == [] || (!StrandsFlush(w, events[0]) && NeverStrands(Step(w, events[0]), events[1..]))
  }

  lemma {:induction false} RunIsSound<V>(w: Window<V>, events: seq<Event<V>>)
    requires Sound(w) && forall k :: 0 <= k < |events| ==> Possible(events[k])
    requires NeverStrands(w, events)
    ensures Sound(Run(w, events))
    decreases |events|
  {
    hide Sound, Step;
    if events == [] {
    } else {
      StepIsSound(w, events[0]);
      RunIsSound(Step(w, events[0]), events[1..]);
    }
  }

  /**
   Over every run without such a reset: setters wait only in front of a full window of at least one packet, setters
   and flushes are settled at most once and in turn, and a flush waits only while packets are in the window and
   nothing has failed.
   */
  lemma NoLostWakeups<V>(events: seq<Event<V>>)
    requires forall k :: 0 <= k < |events| ==> Possible(events[k])
    requires NeverStrands(Initial(), events)
    ensures var w := Run(Initial(), events);
      && (w.packets.waiting != [] ==> |w.packets.entries| >= w.packets.capacity >= 1)
      && Tickets(w.packets.settled) + WaitingTickets(w.packets.waiting) == Upto(w.packets.issued)
      && Tickets(w.flushSettled) + w.flushWaiting == Upto(w.flushIssued)
      && (w.flushWaiting != [] ==> w.packets.entries != map[] && !w.failed)
      && (w.failed ==> w.packets.waiting == [] && w.flushWaiting == [])
  {
    hide Run, Tickets, WaitingTickets, NeverStrands;
    InitialIsSound<V>();
    RunIsSound(Initial(), events);
  }

  lemma InitialIsSound<V>()
    ensures Sound(Initial<V>())
  {
  }

  lemma {:induction false} ErrorResetsNeverStrand<V>(w: Window<V>, events: seq<Event<V>>)
    requires forall k :: 0 <= k < |events| ==> Possible(events[k]) && events[k] != ResetCall(false)
    ensures NeverStrands(w, events)
    decreases |events|
  {
    hide Step;
    if events == [] {
    } else {
      assert events[0] != ResetCall(false);
      ErrorResetsNeverStrand(Step(w, events[0]), events[1..]);
    }
  }

  /** The connection resets with an error only, so all its runs are such runs. */
  lemma ConnectionLosesNoWakeups<V>(events: seq<Event<V>>)
    requires forall k :: 0 <= k < |events| ==> Possible(events[k]) && events[k] != ResetCall(false)
    ensures var w := Run(Initial(), events);
      && (w.packets.waiting != [] ==> |w.packets.entries| >= w.packets.capacity >= 1)
      && Tickets(w.packets.settled) + WaitingTickets(w.packets.waiting) == Upto(w.packets.issued)
      && Tickets(w.flushSettled) + w.flushWaiting == Upto(w.flushIssued)
      && (w.flushWaiting != [] ==> w.packets.entries != map[] && !w.failed)
      && (w.failed ==> w.packets.waiting == [] && w.flushWaiting == [])
  {
    hide Run, Tickets, WaitingTickets, NeverStrands, Step;
    ErrorResetsNeverStrand(Initial(), events);
    NoLostWakeups(events);
  }

  /** A clean reset, which only a caller of the send window itself can make, does strand a flush: no packet is left. */
  lemma CleanResetStrands<V>(value: V)
    ensures var w := Run(Initial(), [Submit(1, value), FlushCall, ResetCall(false)]);
      && w.flushWaiting == [0] && w.packets.entries == map[] && w.packets.waiting == [] && !w.failed
      && !NeverStrands(Initial(), [Submit(1, value), FlushCall, ResetCall(false)])
  {
    hide Step;
    var start: Window<V> := Initial();
    var packets := start.packets.(entries := map[1 := value], settled := [Settlement(0, true)], issued := 1);
    var one := start.(packets := packets);
    SubmitOne(value);
    assert 1 in one.packets.entries;
    var flushing := one.(flushWaiting := [0], flushIssued := 1);
    FlushOne(one);
    var cleared := flushing.(packets := packets.(entries := map[]));
    ResetOne(flushing);
    var events := [Submit(1, value), FlushCall, ResetCall(false)];
    assert events[1..] == [FlushCall, ResetCall(false)] && events[1..][1..] == [ResetCall(false)];
    RunOfThree(start, events);
    assert StrandsFlush(flushing, ResetCall(false));
  }

  lemma RunOfThree<V>(w: Window<V>, events: seq<Event<V>>)
    requires |events| == 3 && forall k :: 0 <= k < 3 ==> Possible(events[k])
    ensures Run(w, events) == Step(Step(Step(w, events[0]), events[1]), events[2])
    ensures NeverStrands(w, events) ==> !StrandsFlush(Step(Step(w, events[0]), events[1]), events[2])
  {
    hide Step, StrandsFlush;
    var second, third := events[1..], events[1..][1..];
    assert second[0] == events[1] && third[0] == events[2] && third[1..] == [];
    var one := Step(w, events[0]);
    var two := Step(one, events[1]);
    assert Run(two, third) == Run(Step(two, events[2]), third[1..]) == Step(two, events[2]);
    assert Run(one, second) == Run(two, third);
    assert NeverStrands(w, events) ==> NeverStrands(one, second);
    assert NeverStrands(one, second) ==> NeverStrands(two, third);
  }

  lemma SubmitOne<V>(value: V)
    ensures var start: Window<V> := Initial();
      Step(start, Submit(1, value)) ==
      start.(packets := start.packets.(entries := map[1 := value], settled := [Settlement(0, true)], issued := 1))
  {
    assert [] + [Settlement(0, true)] == [Settlement(0, true)];
  }

  lemma FlushOne<V>(w: Window<V>)
    requires w.packets.entries != map[] && !w.failed && w.flushWaiting == [] && w.flushIssued == 0
    ensures Step(w, FlushCall) == w.(flushWaiting := [0], flushIssued := 1)
  {
    assert [] + [0] == [0];
  }

  lemma ResetOne<V>(w: Window<V>)
    requires w.packets.waiting == [] && w.packets.capacity == MIN_WINDOW
    ensures Step(w, ResetCall(false)) == w.(latestAck := None, remoteBytes := None, packets := w.packets.(entries := map[]))
  {
  }

  /** Whenever a step resolves a flush, nothing is in flight and nothing waits to be. */
  lemma ResolvedFlushMeansIdle<V>(w: Window<V>, e: Event<V>)
    requires Sound(w) && Possible(e)
    ensures |Step(w, e).flushSettled| >= |w.flushSettled|
    ensures (exists i :: |w.flushSettled| <= i < |Step(w, e).flushSettled| && Step(w, e).flushSettled[i].resolved) ==>
      Step(w, e).packets.entries == map[] && Step(w, e).packets.waiting == []
  {
    hide Tickets, Upto, WindowSize, Admit, DeleteAll, Acked, Latest;
    OutcomeTickets(w.flushWaiting, false);
    OutcomeTickets(w.flushWaiting, true);
    if e.Ack? {
      StepIsSound(w, e);
    }
  }
}
