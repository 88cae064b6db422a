/**
 What an acknowledgement takes out of the send window of uTP, and what a resolved flush promises: every packet that was
 in the window when flush was called has been acknowledged.
 */
module UtpDelivery {
  import opened Results
  import opened UtpSeq
  import opened UtpSendWindow

  // ---- Keys that leave, and setters that are let in ----

  /** The packets in the window and the setters that wait for room. */
  datatype Lot<V> = Lot(entries: map<nat, V>, waiting: seq<Setter<V>>)

  function LotOf<V>(m: Blocking<V>): Lot<V> {
    Lot(m.entries, m.waiting)
  }

  /** The first `n` setters come in, in order. */
  function LetIn<V>(l: Lot<V>, n: nat): Lot<V>
    decreases n
  {
    if n == 0 || l.waiting == [] then l
    else LetIn(Lot(l.entries[l.waiting[0].key := l.waiting[0].value], l.waiting[1..]), n - 1)
  }

  /** The entries without the given keys. */
  function Left<V>(entries: map<nat, V>, keys: seq<nat>): map<nat, V> {
    map k | k in entries && k !in keys :: entries[k]
  }

  function Without<V>(l: Lot<V>, keys: seq<nat>): Lot<V> {
    Lot(Left(l.entries, keys), l.waiting)
  }

  /** The setters' keys are new and differ. */
  predicate AllNew<V>(l: Lot<V>) {
    && (forall i :: 0 <= i < |l.waiting| ==> l.waiting[i].key !in l.entries)
    && forall i, j :: 0 <= i < j < |l.waiting| ==> l.waiting[i].key != l.waiting[j].key
  }

  predicate NoneOf<V>(waiting: seq<Setter<V>>, keys: seq<nat>) {
    forall i :: 0 <= i < |waiting| ==> waiting[i].key !in keys
  }

  /** As many setters as there is room for. */
  function Room(waiting: nat, capacity: nat, taken: nat): (n: nat)
    ensures n <= waiting
  {
    if taken >= capacity then 0 else if capacity - taken < waiting then capacity - taken else waiting
  }

  lemma {:induction false} LetInKeeps<V>(l: Lot<V>, n: nat, keys: seq<nat>)
    requires AllNew(l) && n <= |l.waiting|
    ensures AllNew(LetIn(l, n)) && (NoneOf(l.waiting, keys) ==> NoneOf(LetIn(l, n).waiting, keys))
    ensures |LetIn(l, n).entries| == |l.entries| + n && |LetIn(l, n).waiting| == |l.waiting| - n
    ensures forall k <- l.entries :: k in LetIn(l, n).entries
    decreases n
  {
    if n > 0 {
      var next := Lot(l.entries[l.waiting[0].key := l.waiting[0].value], l.waiting[1..]);
      assert next.entries.Keys == l.entries.Keys + {l.waiting[0].key};
      LetInKeeps(next, n - 1, keys);
    }
  }

  lemma {:induction false} LetInTwice<V>(l: Lot<V>, a: nat, b: nat)
    requires a <= |l.waiting|
    ensures LetIn(LetIn(l, a), b) == LetIn(l, a + b)
    decreases a
  {
    if a > 0 {
      LetInTwice(Lot(l.entries[l.waiting[0].key := l.waiting[0].value], l.waiting[1..]), a - 1, b);
    }
  }

  lemma {:induction false} WithoutAfter<V>(l: Lot<V>, keys: seq<nat>, n: nat)
    requires NoneOf(l.waiting, keys)
    ensures Without(LetIn(l, n), keys) == LetIn(Without(l, keys), n)
    decreases n
  {
    if n == 0 || l.waiting == [] {
    } else {
      var next := Lot(l.entries[l.waiting[0].key := l.waiting[0].value], l.waiting[1..]);
      assert Left(next.entries, keys) == Left(l.entries, keys)[l.waiting[0].key := l.waiting[0].value];
      WithoutAfter(next, keys, n - 1);
    }
  }

  lemma {:induction false} AdmitTakes<V>(m: Blocking<V>)
    requires AllNew(LotOf(m))
    ensures LotOf(Admit(m)) == LetIn(LotOf(m), Room(|m.waiting|, m.capacity, |m.entries|))
    decreases |m.waiting|
  {
    if m.waiting == [] || |m.entries| >= m.capacity {
    } else {
      var first := m.waiting[0];
      var next := m.(entries := m.entries[first.key := first.value], waiting := m.waiting[1..],
                     settled := m.settled + [Settlement(first.ticket, true)]);
      assert next.entries.Keys == m.entries.Keys + {first.key};
      AdmitTakes(next);
    }
  }

  lemma FewerIsNew<V>(l: Lot<V>, fewer: map<nat, V>)
    requires AllNew(l) && fewer.Keys <= l.entries.Keys
    ensures AllNew(Lot(fewer, l.waiting))
  {
  }

  predicate FullIfWaiting<V>(m: Blocking<V>) {
    m.waiting != [] ==> |m.entries| >= m.capacity
  }

  lemma DeleteOne<V>(m: Blocking<V>, key: nat)
    requires FullIfWaiting(m) && AllNew(LotOf(m))
    ensures var without := Without(LotOf(m), [key]);
      var after := Delete(m, key);
      && LotOf(after) == LetIn(without, Room(|m.waiting|, m.capacity, |without.entries|))
      && after.capacity == m.capacity && FullIfWaiting(after)
  {
    hide AllNew, Admit;
    var without := Left(m.entries, [key]);
    LeftIsLess(m.entries, [key]);
    if key in m.entries {
      assert m.entries - {key} == without;
      FewerIsNew(LotOf(m), without);
      AdmitTakes(m.(entries := without));
    } else {
      assert without == m.entries;
    }
  }

  lemma LeftIsLess<V>(entries: map<nat, V>, keys: seq<nat>)
    ensures Left(entries, keys).Keys <= entries.Keys && |Left(entries, keys)| <= |entries|
  {
    SubsetSize(Left(entries, keys).Keys, entries.Keys);
  }

  lemma SubsetSize(a: set<nat>, b: set<nat>)
    requires a <= b
    ensures |a| <= |b|
  {
    assert b == a + (b - a);
  }

  lemma LeftOfNone<V>(entries: map<nat, V>)
    ensures Left(entries, []) == entries
  {
  }

  lemma LeftTwice<V>(entries: map<nat, V>, keys: seq<nat>)
    requires keys != []
    ensures Left(entries, keys) == Left(Left(entries, [keys[0]]), keys[1..])
  {
    assert forall k :: k in keys <==> k == keys[0] || k in keys[1..];
  }

  lemma NoneOfParts<V>(waiting: seq<Setter<V>>, keys: seq<nat>)
    requires NoneOf(waiting, keys) && keys != []
    ensures NoneOf(waiting, keys[1..])
  {
  }

  /**
   Deleting keys one by one leaves the entries without them, and lets in as many setters, in order, as there is room
   for then.
   */
  lemma {:induction false} DeleteAllTakes<V>(m: Blocking<V>, keys: seq<nat>)
    requires FullIfWaiting(m) && AllNew(LotOf(m)) && NoneOf(m.waiting, keys)
    ensures var without := Without(LotOf(m), keys);
      var after := DeleteAll(m, keys);
      && LotOf(after) == LetIn(without, Room(|m.waiting|, m.capacity, |without.entries|))
      && after.capacity == m.capacity && FullIfWaiting(after)
    decreases |keys|
  {
    hide AllNew, NoneOf, LetIn, Left, Delete;
    if keys == [] {
      LeftOfNone(m.entries);
      LetInNone(LotOf(m));
    } else {
      var rest, next := keys[1..], Delete(m, keys[0]);
      DeleteOne(m, keys[0]);
      NoneOfParts(m.waiting, keys);
      LeftTwice(m.entries, keys);
      LeftIsLess(m.entries, [keys[0]]);
      var without := Without(LotOf(m), [keys[0]]);
      var n := Room(|m.waiting|, m.capacity, |without.entries|);
      FewerIsNew(LotOf(m), without.entries);
      LetInKeeps(without, n, rest);
      DeleteAllTakes(next, rest);
      WithoutAfter(without, rest, n);
      LeftIsLess(without.entries, rest);
      var left := Without(without, rest);
      FewerIsNew(without, left.entries);
      LetInKeeps(left, n, rest);
      LetInTwice(left, n, Room(|next.waiting|, m.capacity, |Left(next.entries, rest)|));
    }
  }

  lemma LetInNone<V>(l: Lot<V>)
    ensures LetIn(l, 0) == l
  {
  }

  // ---- One acknowledgement ----

  /** The latest of two acknowledgements in the space of 16-bit numbers: the new one, when it is ahead by less than half. */
  function Ahead(latestAck: Option<nat>, ackNr: nat): nat {
    if latestAck.None? || 0 < (ackNr - latestAck.value) % 0x1_0000 < 0x8000 then ackNr else latestAck.value
  }

  /** Acknowledged by number, or selectively: not beyond the latest acknowledgement, or named in the list. */
  predicate IsAcked(latest: nat, sack: seq<nat>, key: nat) {
    key in sack || (latest - key) % 0x1_0000 < 0x8000
  }

  /** The packets that an acknowledgement leaves in the window. */
  function Unacked<V>(entries: map<nat, V>, latest: nat, sack: seq<nat>): map<nat, V> {
    map k | k in entries && !IsAcked(latest, sack, k) :: entries[k]
  }

  /** `order` lists exactly the packets that are in the window behind the selective part. */
  ghost predicate Lists<V>(order: seq<nat>, m: Blocking<V>, sack: seq<nat>) {
    forall k :: k in order <==> k in DeleteAll(m, sack).entries
  }

  lemma LatestIsAhead(latestAck: Option<nat>, ackNr: nat)
    requires ackNr < 0x1_0000 && (latestAck.Some? ==> latestAck.value < 0x1_0000)
    ensures Latest(latestAck, ackNr) == Ahead(latestAck, ackNr)
  {
  }

  lemma {:induction false} AckedAre(latest: nat, keys: seq<nat>)
    ensures forall k :: k in Acked(latest, keys) <==> k in keys && (latest - k) % 0x1_0000 < 0x8000
  {
    if keys == [] {
    } else {
      AckedAre(latest, keys[1..]);
      AckedFirst(latest, keys[0]);
      assert forall k :: k in keys <==> k == keys[0] || k in keys[1..];
    }
  }

  lemma AckedFirst(latest: nat, key: nat)
    ensures Ge(latest, key) <==> (latest - key) % 0x1_0000 < 0x8000
  {
  }

  lemma AckParts<V>(w: Window<V>, ackNr: nat, remoteBytes: nat, sack: seq<nat>, order: seq<nat>, congestion: int, mtu: nat)
    requires mtu > 0
    ensures var after := HandleAck(w, ackNr, remoteBytes, sack, order, congestion, mtu);
      var latest := Latest(w.latestAck, ackNr);
      && after.packets == UpdateCapacity(DeleteAll(DeleteAll(w.packets, sack), Acked(latest, order)),
                                         WindowSize(Some(remoteBytes), congestion, mtu))
      && after.latestAck == Some(latest) && after.failed == w.failed && after.flushIssued == w.flushIssued
      && (if after.packets.entries != map[] || w.failed
          then after.flushWaiting == w.flushWaiting && after.flushSettled == w.flushSettled
          else after.flushWaiting == [] && after.flushSettled == w.flushSettled + Outcomes(w.flushWaiting, true))
  {
    hide DeleteAll, Acked, Latest, WindowSize, UpdateCapacity, Outcomes;
  }

  lemma NotNamed<V>(setters: seq<Setter<V>>, latest: nat, sack: seq<nat>, order: seq<nat>)
    requires forall i :: 0 <= i < |setters| ==> !IsAcked(latest, sack, setters[i].key)
    ensures NoneOf(setters, sack) && NoneOf(setters, Acked(latest, order))
  {
    hide Acked;
    AckedAre(latest, order);
  }

  lemma KeptIs<V>(l: Lot<V>, n: nat, latest: nat, sack: seq<nat>, order: seq<nat>)
    requires AllNew(Without(l, sack)) && n <= |l.waiting| && NoneOf(l.waiting, Acked(latest, order))
    requires forall k :: k in order <==> k in LetIn(Without(l, sack), n).entries
    ensures Without(LetIn(Without(l, sack), n), Acked(latest, order)) == LetIn(Lot(Unacked(l.entries, latest, sack), l.waiting), n)
  {
    hide Acked;
    var first := Without(l, sack);
    AckedAre(latest, order);
    WithoutAfter(first, Acked(latest, order), n);
    LetInKeeps(first, n, []);
    assert Left(first.entries, Acked(latest, order)) == Unacked(l.entries, latest, sack);
  }

  lemma KeptIsLess<V>(entries: map<nat, V>, latest: nat, sack: seq<nat>)
    ensures Unacked(entries, latest, sack).Keys <= Left(entries, sack).Keys <= entries.Keys
    ensures |Unacked(entries, latest, sack)| <= |Left(entries, sack)|
  {
    SubsetSize(Unacked(entries, latest, sack).Keys, Left(entries, sack).Keys);
  }

  /** The two deletions together, with the setters that come in between them. */
  lemma BothDeletions<V>(m: Blocking<V>, latest: nat, sack: seq<nat>, order: seq<nat>)
    requires FullIfWaiting(m) && AllNew(LotOf(m)) && NoneOf(m.waiting, sack) && NoneOf(m.waiting, Acked(latest, order))
    requires Lists(order, m, sack)
    ensures var kept := Lot(Unacked(m.entries, latest, sack), m.waiting);
      var after := DeleteAll(DeleteAll(m, sack), Acked(latest, order));
      && LotOf(after) == LetIn(kept, Room(|m.waiting|, m.capacity, |kept.entries|)) && AllNew(kept)
      && after.capacity == m.capacity && FullIfWaiting(after)
  {
    hide AllNew, NoneOf, LetIn, Left, DeleteAll, Acked, Unacked;
    var keys, first := Acked(latest, order), Without(LotOf(m), sack);
    var a := Room(|m.waiting|, m.capacity, |first.entries|);
    DeleteAllTakes(m, sack);
    LeftIsLess(m.entries, sack);
    FewerIsNew(LotOf(m), first.entries);
    LetInKeeps(first, a, keys);
    var selective := DeleteAll(m, sack);
    DeleteAllTakes(selective, keys);
    KeptIs(LotOf(m), a, latest, sack, order);
    var kept := Lot(Unacked(m.entries, latest, sack), m.waiting);
    KeptIsLess(m.entries, latest, sack);
    FewerIsNew(LotOf(m), kept.entries);
    LetInKeeps(kept, a, keys);
    LetInTwice(kept, a, Room(|selective.waiting|, m.capacity, |Left(selective.entries, keys)|));
  }

  lemma GrowTakes<V>(m: Blocking<V>, capacity: nat)
    requires AllNew(LotOf(m))
    ensures LotOf(UpdateCapacity(m, capacity)) == LetIn(LotOf(m), Room(|m.waiting|, capacity, |m.entries|))
  {
    hide AllNew, Admit;
    AdmitTakes(m.(capacity := capacity));
  }

  /**
   An acknowledgement leaves in the window exactly the packets that it names neither by number nor selectively, and
   behind them as many waiting setters, in order, as there is room for; the setters' numbers are new, and nothing is
   acknowledged that was not yet sent.
   */
  lemma AckTakesExactly<V>(w: Window<V>, ackNr: nat, remoteBytes: nat, sack: seq<nat>, order: seq<nat>, congestion: int, mtu: nat)
    requires Sound(w) && mtu > 0 && ackNr < 0x1_0000 && (w.latestAck.Some? ==> w.latestAck.value < 0x1_0000)
    requires Lists(order, w.packets, sack) && AllNew(LotOf(w.packets))
    requires forall i :: 0 <= i < |w.packets.waiting| ==> !IsAcked(Ahead(w.latestAck, ackNr), sack, w.packets.waiting[i].key)
    ensures var after := HandleAck(w, ackNr, remoteBytes, sack, order, congestion, mtu);
      var latest, size := Ahead(w.latestAck, ackNr), WindowSize(Some(remoteBytes), congestion, mtu);
      var kept := Lot(Unacked(w.packets.entries, latest, sack), w.packets.waiting);
      && after.latestAck == Some(latest)
      && LotOf(after.packets) ==
           LetIn(kept, Room(|kept.waiting|, if size > w.packets.capacity then size else w.packets.capacity, |kept.entries|))
  {
    hide AllNew, NoneOf, LetIn, Left, DeleteAll, Acked, Unacked, IsAcked, Latest, WindowSize, UpdateCapacity, HandleAck, Tickets, Upto;
    var m, latest, size := w.packets, Ahead(w.latestAck, ackNr), WindowSize(Some(remoteBytes), congestion, mtu);
    LatestIsAhead(w.latestAck, ackNr);
    AckParts(w, ackNr, remoteBytes, sack, order, congestion, mtu);
    NotNamed(m.waiting, latest, sack, order);
    BothDeletions(m, latest, sack, order);
    var kept := Lot(Unacked(m.entries, latest, sack), m.waiting);
    var n := Room(|m.waiting|, m.capacity, |kept.entries|);
    LetInKeeps(kept, n, []);
    var deleted := DeleteAll(DeleteAll(m, sack), Acked(latest, order));
    GrowTakes(deleted, size);
    LetInTwice(kept, n, Room(|deleted.waiting|, size, |deleted.entries|));
  }

  /** With no setter waiting, what is left is the old window without what was acknowledged, by number or selectively. */
  lemma AckLeaves<V>(w: Window<V>, ackNr: nat, remoteBytes: nat, sack: seq<nat>, order: seq<nat>, congestion: int, mtu: nat)
    requires Sound(w) && mtu > 0 && ackNr < 0x1_0000 && (w.latestAck.Some? ==> w.latestAck.value < 0x1_0000)
    requires w.packets.waiting == [] && forall k :: k in order <==> k in w.packets.entries && k !in sack
    ensures var after := HandleAck(w, ackNr, remoteBytes, sack, order, congestion, mtu);
      var latest := Ahead(w.latestAck, ackNr);
      && after.latestAck == Some(latest) && after.packets.waiting == []
      && after.packets.entries ==
           map k | k in w.packets.entries && k !in sack && (latest - k) % 0x1_0000 >= 0x8000 :: w.packets.entries[k]
  {
    hide LetIn, DeleteAll, Latest, WindowSize, HandleAck, Tickets, Upto;
    DeleteAllTakes(w.packets, sack);
    NothingToLetIn(Without(LotOf(w.packets), sack), 0);
    AckTakesExactly(w, ackNr, remoteBytes, sack, order, congestion, mtu);
    NothingToLetIn(Lot(Unacked(w.packets.entries, Ahead(w.latestAck, ackNr), sack), []), 0);
  }

  lemma NothingToLetIn<V>(l: Lot<V>, n: nat)
    requires l.waiting == []
    ensures LetIn(l, n) == l
  {
  }

  /** An acknowledgement of everything in flight, with no setter waiting, resolves every flush that waits, in turn; one that leaves a packet resolves none. */
  lemma FullAckResolves<V>(w: Window<V>, ackNr: nat, remoteBytes: nat, sack: seq<nat>, order: seq<nat>, congestion: int, mtu: nat)
    requires Sound(w) && mtu > 0 && ackNr < 0x1_0000 && (w.latestAck.Some? ==> w.latestAck.value < 0x1_0000)
    requires w.packets.waiting == [] && forall k :: k in order <==> k in w.packets.entries && k !in sack
    ensures var after := HandleAck(w, ackNr, remoteBytes, sack, order, congestion, mtu);
      var before, now, tickets := w.flushSettled, after.flushSettled, w.flushWaiting;
      if forall k <- w.packets.entries :: IsAcked(Ahead(w.latestAck, ackNr), sack, k)
      then after.flushWaiting == [] && |now| == |before| + |tickets| && before <= now
        && forall i :: 0 <= i < |tickets| ==> now[|before| + i] == Settlement(tickets[i], true)
      else after.flushWaiting == tickets && now == before
  {
    hide DeleteAll, Latest, WindowSize, HandleAck, Tickets, Upto, Acked, UpdateCapacity, Outcomes;
    AckLeaves(w, ackNr, remoteBytes, sack, order, congestion, mtu);
    AckParts(w, ackNr, remoteBytes, sack, order, congestion, mtu);
    OutcomesAre(w.flushWaiting, true);
    OutcomesAre([], true);
    var latest := Ahead(w.latestAck, ackNr);
    if k :| k in w.packets.entries && !IsAcked(latest, sack, k) {
      assert k in HandleAck(w, ackNr, remoteBytes, sack, order, congestion, mtu).packets.entries;
    }
  }

  lemma {:induction false} OutcomesAre(tickets: seq<nat>, resolved: bool)
    ensures |Outcomes(tickets, resolved)| == |tickets|
    ensures forall i :: 0 <= i < |tickets| ==> Outcomes(tickets, resolved)[i] == Settlement(tickets[i], resolved)
  {
    if tickets == [] {
    } else {
      OutcomesAre(tickets[..|tickets| - 1], resolved);
    }
  }

  // ---- The capacity ----

  /** The window is the largest within the congestion window, 4 and 64 that the peer has room for, or one packet. */
  lemma WindowSizeIsLargest(remoteBytes: Option<nat>, congestion: int, mtu: nat)
    requires mtu > 0
    ensures var size := WindowSize(remoteBytes, congestion, mtu);
      var limit := if congestion < 4 then 4 else if congestion > 64 then 64 else congestion;
      && 1 <= size <= limit
      && (remoteBytes.Some? && size > 1 ==> size * mtu <= remoteBytes.value)
      && (size < limit ==> remoteBytes.Some? && (size + 1) * mtu > remoteBytes.value)
  {
    if remoteBytes.Some? {
      var q := remoteBytes.value / mtu;
      assert q * mtu <= remoteBytes.value < (q + 1) * mtu;
      var size := WindowSize(remoteBytes, congestion, mtu);
      if size > 1 {
        Monotone(size, q, mtu);
      }
    }
  }

  lemma Monotone(a: nat, b: nat, m: nat)
    ensures a <= b ==> a * m <= b * m
  {
  }

  // ---- What a resolved flush promises ----

  predicate InSpace(latestAck: Option<nat>) {
    latestAck.Some? ==> latestAck.value < 0x1_0000
  }

  /** What a connection does: acknowledgements carry 16-bit numbers, and a reset has an error. */
  predicate Usual<V>(e: Event<V>) {
    (e.Ack? ==> e.ackNr < 0x1_0000) && !(e.ResetCall? && !e.withError)
  }

  /** The event acknowledges the packet, by number or selectively. */
  predicate Acks<V>(w: Window<V>, e: Event<V>, key: nat) {
    e.Ack? && IsAcked(Ahead(w.latestAck, e.ackNr), e.sack, key)
  }

  predicate AckedDuring<V>(w: Window<V>, events: seq<Event<V>>, key: nat)
    requires forall i :: 0 <= i < |events| ==> Possible(events[i]) && Usual(events[i])
    decreases |events|
  {
    events != [] && (Acks(w, events[0], key) || AckedDuring(Step(w, events[0]), events[1..], key))
  }

  lemma {:induction false} DeleteAllKeeps<V>(m: Blocking<V>, keys: seq<nat>, key: nat)
    requires key in m.entries && key !in keys
    ensures key in DeleteAll(m, keys).entries
    decreases |keys|
  {
    hide Admit;
    if keys == [] {
    } else {
      DeleteKeeps(m, keys[0], key);
      DeleteAllKeeps(Delete(m, keys[0]), keys[1..], key);
    }
  }

  lemma DeleteKeeps<V>(m: Blocking<V>, other: nat, key: nat)
    requires key in m.entries && key != other
    ensures key in Delete(m, other).entries
  {
    AdmitGrows(m.(entries := m.entries - {other}));
    assert key in (m.entries - {other}).Keys;
  }

  lemma AckKeeps<V>(w: Window<V>, ackNr: nat, remoteBytes: nat, sack: seq<nat>, order: seq<nat>, congestion: int, mtu: nat, key: nat)
    requires mtu > 0 && ackNr < 0x1_0000 && InSpace(w.latestAck) && key in w.packets.entries
    requires !IsAcked(Ahead(w.latestAck, ackNr), sack, key)
    ensures key in HandleAck(w, ackNr, remoteBytes, sack, order, congestion, mtu).packets.entries
  {
    hide DeleteAll, Latest, WindowSize, HandleAck, Acked, Admit;
    AckParts(w, ackNr, remoteBytes, sack, order, congestion, mtu);
    LatestIsAhead(w.latestAck, ackNr);
    var latest := Ahead(w.latestAck, ackNr);
    AckedAre(latest, order);
    DeleteAllKeeps(w.packets, sack, key);
    var selective := DeleteAll(w.packets, sack);
    DeleteAllKeeps(selective, Acked(latest, order), key);
    var cumulative := DeleteAll(selective, Acked(latest, order));
    AdmitGrows(cumulative.(capacity := WindowSize(Some(remoteBytes), congestion, mtu)));
    assert key in cumulative.entries.Keys;
  }

  /** A packet leaves the window only when it is acknowledged, or when the window fails. */
  lemma LeavesOnlyAcked<V>(w: Window<V>, e: Event<V>, key: nat)
    requires Possible(e) && Usual(e) && InSpace(w.latestAck) && key in w.packets.entries && key !in Step(w, e).packets.entries
    ensures Acks(w, e, key) || Step(w, e).failed
  {
    hide HandleAck, Loss, Fail, Reset, Set, IsAcked, Ahead;
    match e
    case Submit(other, value) => SetKeeps(w.packets, other, value, key);
    case FlushCall =>
    case Ack(ackNr, remoteBytes, sack, order, congestion, mtu) =>
      if !Acks(w, e, key) {
        AckKeeps(w, ackNr, remoteBytes, sack, order, congestion, mtu, key);
      }
    case GiveUp(other, congestion, mtu) => LossFails(w, other, congestion, mtu);
    case AbortCall => FailFails(w);
    case ResetCall(_) => ResetFails(w);
  }

  lemma SetKeeps<V>(m: Blocking<V>, other: nat, value: V, key: nat)
    requires key in m.entries
    ensures key in Set(m, other, value).entries
  {
    hide Admit;
    var next := m.(entries := m.entries[other := value], settled := m.settled + [Settlement(m.issued, true)],
                   issued := m.issued + 1);
    AdmitGrows(next);
    assert key in next.entries.Keys;
  }

  lemma FailFails<V>(w: Window<V>)
    ensures Fail(w).failed && Fail(w).latestAck == w.latestAck && Fail(w).flushIssued == w.flushIssued
    ensures if w.failed then Fail(w) == w
            else Fail(w).flushWaiting == [] && Fail(w).flushSettled == w.flushSettled + Outcomes(w.flushWaiting, false)
  {
    hide Outcomes;
  }

  lemma LossFails<V>(w: Window<V>, key: nat, congestion: int, mtu: nat)
    requires mtu > 0
    ensures if key !in w.packets.entries then Loss(w, key, congestion, mtu) == w
            else Loss(w, key, congestion, mtu).failed && Loss(w, key, congestion, mtu).latestAck == w.latestAck
    ensures key in w.packets.entries && !w.failed ==>
      var after := Loss(w, key, congestion, mtu);
      after.flushWaiting == [] && after.flushSettled == w.flushSettled + Outcomes(w.flushWaiting, false)
    ensures key in w.packets.entries && w.failed ==>
      var after := Loss(w, key, congestion, mtu); after.flushWaiting == w.flushWaiting && after.flushSettled == w.flushSettled
  {
    hide Outcomes, Fail, Delete, UpdateCapacity, WindowSize;
    if key in w.packets.entries {
      var shrunk := ApplyWindowSize(w, congestion, mtu);
      FailFails(shrunk.(packets := Delete(shrunk.packets, key)));
    }
  }

  lemma ResetFails<V>(w: Window<V>)
    ensures Reset(w, true).failed && Reset(w, true).latestAck == None
    ensures var after := Reset(w, true);
      if w.failed then after.flushWaiting == w.flushWaiting && after.flushSettled == w.flushSettled
      else after.flushWaiting == [] && after.flushSettled == w.flushSettled + Outcomes(w.flushWaiting, false)
  {
    hide Outcomes, Fail, UpdateCapacity;
    FailFails(w);
  }

  /** The window fails exactly when a packet in it is given up, or when it is aborted or reset; it never recovers. */
  lemma FailsExactly<V>(w: Window<V>, e: Event<V>)
    requires Possible(e) && Usual(e)
    ensures Step(w, e).failed <==>
      w.failed || e.AbortCall? || e.ResetCall? || (e.GiveUp? && e.key in w.packets.entries)
  {
    hide HandleAck, Loss, Fail, Reset, Set;
    match e
    case Ack(ackNr, remoteBytes, sack, order, congestion, mtu) => AckParts(w, ackNr, remoteBytes, sack, order, congestion, mtu);
    case GiveUp(key, congestion, mtu) => LossFails(w, key, congestion, mtu);
    case AbortCall => FailFails(w);
    case ResetCall(_) => ResetFails(w);
    case _ =>
  }

  /** What a step does to the flushes: all that wait are rejected when the window fails, resolved when it is emptied, and wait on otherwise. */
  predicate FlushStep<V>(w: Window<V>, e: Event<V>)
    requires Possible(e)
  {
    var v := Step(w, e);
    var others := v.flushSettled == w.flushSettled && v.flushWaiting == w.flushWaiting;
    if e.FlushCall? then
      if w.failed then v.flushSettled == w.flushSettled + [Settlement(w.flushIssued, false)] && v.flushWaiting == w.flushWaiting
      else if w.packets.entries == map[] then
        v.flushSettled == w.flushSettled + [Settlement(w.flushIssued, true)] && v.flushWaiting == w.flushWaiting
      else v.flushSettled == w.flushSettled && v.flushWaiting == w.flushWaiting + [w.flushIssued]
    else if w.failed then others
    else if v.failed then v.flushSettled == w.flushSettled + Outcomes(w.flushWaiting, false) && v.flushWaiting == []
    else if e.Ack? && v.packets.entries == map[] then
      v.flushSettled == w.flushSettled + Outcomes(w.flushWaiting, true) && v.flushWaiting == []
    else others
  }

  lemma StepIsFlushStep<V>(w: Window<V>, e: Event<V>)
    requires Possible(e) && Usual(e)
    ensures FlushStep(w, e) && (InSpace(w.latestAck) ==> InSpace(Step(w, e).latestAck))
  {
    hide HandleAck, Loss, Fail, Reset, Set, Outcomes, Latest;
    FailsExactly(w, e);
    match e
    case Ack(ackNr, remoteBytes, sack, order, congestion, mtu) =>
      AckParts(w, ackNr, remoteBytes, sack, order, congestion, mtu);
      LatestIsOne(w.latestAck, ackNr);
    case GiveUp(key, congestion, mtu) => LossFails(w, key, congestion, mtu);
    case AbortCall => FailFails(w);
    case ResetCall(_) => ResetFails(w);
    case _ =>
  }

  lemma LatestIsOne(latestAck: Option<nat>, ackNr: nat)
    ensures Latest(latestAck, ackNr) == ackNr || (latestAck.Some? && Latest(latestAck, ackNr) == latestAck.value)
  {
  }

  // ---- Tickets are settled once ----

  lemma {:induction false} UptoDiffers(n: nat)
    ensures |Upto(n)| == n && forall i :: 0 <= i < n ==> Upto(n)[i] == i
  {
    if n > 0 {
      UptoDiffers(n - 1);
    }
  }

  lemma {:induction false} TicketAt(settled: seq<Settlement>, i: nat)
    requires i < |settled|
    ensures |Tickets(settled)| == |settled| && Tickets(settled)[i] == settled[i].ticket
  {
    var n := |settled| - 1;
    if i < n {
      TicketAt(settled[..n], i);
    } else if n > 0 {
      TicketAt(settled[..n], 0);
    } else {
      assert settled[..0] == [];
    }
  }

  lemma SettledAlone(settled: seq<Settlement>, waiting: seq<nat>, issued: nat, i: nat, j: nat)
    requires Tickets(settled) + waiting == Upto(issued)
    requires i < j < |settled| || (i < |settled| <= j < |settled| + |waiting|)
    ensures settled[i].ticket != if j < |settled| then settled[j].ticket else waiting[j - |settled|]
  {
    UptoDiffers(issued);
    TicketAt(settled, i);
    var all := Tickets(settled) + waiting;
    assert all[i] == settled[i].ticket;
    if j < |settled| {
      TicketAt(settled, j);
      assert all[j] == settled[j].ticket;
    } else {
      assert all[j] == waiting[j - |settled|];
    }
    assert Upto(issued)[i] == i && Upto(issued)[j] == j;
  }

  /** A flush that waits has not been settled, and one that was rejected has not been resolved. */
  lemma SettledOnce<V>(w: Window<V>, ticket: nat)
    requires Sound(w) && (ticket in w.flushWaiting || Settlement(ticket, false) in w.flushSettled)
    ensures Settlement(ticket, true) !in w.flushSettled
  {
    hide Tickets, Upto, Orderly;
    if Settlement(ticket, true) in w.flushSettled {
      var i :| 0 <= i < |w.flushSettled| && w.flushSettled[i] == Settlement(ticket, true);
      if ticket in w.flushWaiting {
        var j :| 0 <= j < |w.flushWaiting| && w.flushWaiting[j] == ticket;
        SettledAlone(w.flushSettled, w.flushWaiting, w.flushIssued, i, |w.flushSettled| + j);
      } else {
        var j :| 0 <= j < |w.flushSettled| && w.flushSettled[j] == Settlement(ticket, false);
        if i < j {
          SettledAlone(w.flushSettled, w.flushWaiting, w.flushIssued, i, j);
        } else {
          SettledAlone(w.flushSettled, w.flushWaiting, w.flushIssued, j, i);
        }
      }
    }
  }

  lemma UsualIsSound<V>(w: Window<V>, e: Event<V>)
    requires Sound(w) && Possible(e) && Usual(e)
    ensures Sound(Step(w, e))
  {
    hide Sound, Step;
    StepIsSound(w, e);
  }

  lemma {:induction false} RejectedStays<V>(w: Window<V>, events: seq<Event<V>>, ticket: nat)
    requires Sound(w) && Settlement(ticket, false) in w.flushSettled
    requires forall i :: 0 <= i < |events| ==> Possible(events[i]) && Usual(events[i])
    ensures Settlement(ticket, true) !in Run(w, events).flushSettled
    decreases |events|
  {
    hide Sound, Step, Outcomes;
    if events == [] {
      SettledOnce(w, ticket);
    } else {
      UsualIsSound(w, events[0]);
      StepIsFlushStep(w, events[0]);
      assert Settlement(ticket, false) in Step(w, events[0]).flushSettled;
      RejectedStays(Step(w, events[0]), events[1..], ticket);
    }
  }

  lemma {:induction false} WaitingIsDelivered<V>(w: Window<V>, events: seq<Event<V>>, ticket: nat, key: nat)
    requires Sound(w) && InSpace(w.latestAck) && forall i :: 0 <= i < |events| ==> Possible(events[i]) && Usual(events[i])
    requires ticket in w.flushWaiting && key in w.packets.entries
    ensures Settlement(ticket, true) in Run(w, events).flushSettled ==> AckedDuring(w, events, key)
    decreases |events|
  {
    hide Sound, Step, Outcomes, Acks;
    if events == [] {
      SettledOnce(w, ticket);
    } else {
      var v := Step(w, events[0]);
      UsualIsSound(w, events[0]);
      StepIsFlushStep(w, events[0]);
      WaitsHealthy(w, v);
      if v.failed {
        FailsExactly(w, events[0]);
        RejectedNow(w.flushWaiting, ticket);
        RejectedStays(v, events[1..], ticket);
      } else if key in v.packets.entries {
        WaitingIsDelivered(v, events[1..], ticket, key);
      } else {
        LeavesOnlyAcked(w, events[0], key);
      }
    }
  }

  lemma WaitsHealthy<V>(w: Window<V>, v: Window<V>)
    requires Sound(w)
    ensures w.flushWaiting != [] ==> !w.failed
  {
  }

  lemma RejectedNow(tickets: seq<nat>, ticket: nat)
    requires ticket in tickets
    ensures Settlement(ticket, false) in Outcomes(tickets, false)
  {
    OutcomesAre(tickets, false);
    var i :| 0 <= i < |tickets| && tickets[i] == ticket;
    assert Outcomes(tickets, false)[i] == Settlement(ticket, false);
  }

  lemma {:induction false} UsualRun<V>(w: Window<V>, events: seq<Event<V>>)
    requires Sound(w) && InSpace(w.latestAck) && forall i :: 0 <= i < |events| ==> Possible(events[i]) && Usual(events[i])
    ensures Sound(Run(w, events)) && InSpace(Run(w, events).latestAck)
    decreases |events|
  {
    hide Sound, Step;
    if events == [] {
    } else {
      UsualIsSound(w, events[0]);
      StepIsFlushStep(w, events[0]);
      UsualRun(Step(w, events[0]), events[1..]);
    }
  }

  /**
   Over every run of a connection: when a flush has been resolved, every packet that was in the window at its call has
   been acknowledged since, by number or selectively.
   */
  lemma FlushMeansDelivered<V>(before: seq<Event<V>>, behind: seq<Event<V>>, key: nat)
    requires forall i :: 0 <= i < |before| ==> Possible(before[i]) && Usual(before[i])
    requires forall i :: 0 <= i < |behind| ==> Possible(behind[i]) && Usual(behind[i])
    ensures var w := Run(Initial(), before);
      var v := Step(w, FlushCall);
      key in w.packets.entries && Settlement(w.flushIssued, true) in Run(v, behind).flushSettled ==> AckedDuring(v, behind, key)
  {
    hide Sound, Run, Step, AckedDuring;
    InitialIsSound<V>();
    UsualRun(Initial(), before);
    var w := Run(Initial(), before);
    if key in w.packets.entries {
      UsualIsSound(w, FlushCall);
      StepIsFlushStep(w, FlushCall);
      FlushKeepsWindow(w);
      NotFailed(w, key);
      WaitingIsDelivered(Step(w, FlushCall), behind, w.flushIssued, key);
    }
  }

  lemma FlushKeepsWindow<V>(w: Window<V>)
    ensures Step(w, FlushCall).packets == w.packets && Step(w, FlushCall).latestAck == w.latestAck
  {
  }

  lemma NotFailed<V>(w: Window<V>, key: nat)
    requires Sound(w) && key in w.packets.entries
    ensures !w.failed && w.packets.entries != map[]
  {
  }
}
