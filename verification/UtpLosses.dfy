/**
 What a uTP receiver loses and what it keeps: packets that could never fit the receive buffer are acknowledged and their
 data is dropped, and of the packets that wait in the queue only the one with the least number may be pushed out.
 */
module UtpLosses {
  import opened Results
  import opened ByteStrings
  import opened UtpSeq
  import opened UtpReceiver

  // ---- Packets that do not fit the buffer ----

  function Cut(data: ByteStrings.Bytes, maxBytes: nat): ByteStrings.Bytes {
    if |data| > maxBytes then [] else data
  }

  function CutPacket(p: Packet, maxBytes: nat): Packet {
    p.(data := Cut(p.data, maxBytes))
  }

  /** The stream without the data that does not fit. */
  function CutStream(s: Stream, maxBytes: nat): Stream {
    s.(data := seq(|s.data|, i requires 0 <= i < |s.data| => Cut(s.data[i], maxBytes)))
  }

  function CutQueue(queue: map<nat, Packet>, maxBytes: nat): map<nat, Packet> {
    map k | k in queue :: CutPacket(queue[k], maxBytes)
  }

  function CutReceiver(r: Receiver, maxBytes: nat): Receiver {
    r.(queue := CutQueue(r.queue, maxBytes))
  }

  lemma PacketIsCut(s: Stream, i: nat, maxBytes: nat)
    requires 1 <= i <= s.Last()
    ensures CutStream(s, maxBytes).Last() == s.Last()
    ensures CutStream(s, maxBytes).PacketAt(i) == CutPacket(s.PacketAt(i), maxBytes)
  {
  }

  lemma SameSize<T, U>(a: map<nat, T>, b: map<nat, U>)
    requires a.Keys == b.Keys
    ensures |a| == |b|
  {
    assert |a| == |a.Keys| && |b| == |b.Keys|;
  }

  lemma {:induction false} ProcessIsCut(r: Receiver, maxBytes: nat)
    ensures Process(CutReceiver(r, maxBytes), maxBytes) == CutReceiver(Process(r, maxBytes), maxBytes)
    decreases |r.queue|
  {
    var next := Add(r.ack, 1);
    if next in r.queue {
      var after := TakeNext(r, maxBytes);
      assert r.queue.Keys == after.queue.Keys + {next};
      assert TakeNext(CutReceiver(r, maxBytes), maxBytes) == CutReceiver(after, maxBytes) by {
        assert CutQueue(r.queue, maxBytes) - {next} == CutQueue(r.queue - {next}, maxBytes);
        assert r.received + [] == r.received;
      }
      ProcessIsCut(after, maxBytes);
    }
  }

  lemma EnqueuedIsCut(queue: map<nat, Packet>, capacity: nat, p: Packet, maxBytes: nat)
    ensures Enqueued(CutQueue(queue, maxBytes), capacity, p.seqNr, CutPacket(p, maxBytes)) ==
      CutQueue(Enqueued(queue, capacity, p.seqNr, p), maxBytes)
  {
    var cut := CutQueue(queue, maxBytes);
    SameSize(queue, cut);
    if queue != map[] {
      LeastIsUnique(cut, Least(queue));
    }
  }

  lemma HandleIsCut(r: Receiver, p: Packet, capacity: nat, maxBytes: nat)
    ensures Handle(CutReceiver(r, maxBytes), CutPacket(p, maxBytes), capacity, maxBytes) ==
      CutReceiver(Handle(r, p, capacity, maxBytes), maxBytes)
  {
    hide Enqueued, Process, CutPacket, CutQueue;
    CutKeeps(r, p, maxBytes);
    if !Ignored(r, p) {
      var noted := NoteFin(r, p);
      SizeIsKept(noted.queue, maxBytes);
      ProcessIsCut(noted, maxBytes);
      var ready := if |noted.queue| >= capacity then Process(noted, maxBytes) else noted;
      EnqueuedIsCut(ready.queue, capacity, p, maxBytes);
      ProcessIsCut(ready.(queue := Enqueued(ready.queue, capacity, p.seqNr, p)), maxBytes);
    }
  }

  lemma SizeIsKept(queue: map<nat, Packet>, maxBytes: nat)
    ensures |CutQueue(queue, maxBytes)| == |queue|
  {
    SameSize(queue, CutQueue(queue, maxBytes));
  }

  lemma CutKeeps(r: Receiver, p: Packet, maxBytes: nat)
    ensures var cut := CutPacket(p, maxBytes); cut.seqNr == p.seqNr && cut.fin == p.fin
  {
  }

  lemma {:induction false} RunIsCut(r: Receiver, s: Stream, arrivals: seq<nat>, capacity: nat, maxBytes: nat)
    requires InStream(s, arrivals)
    ensures InStream(CutStream(s, maxBytes), arrivals)
    ensures Run(CutReceiver(r, maxBytes), CutStream(s, maxBytes), arrivals, capacity, maxBytes) ==
      CutReceiver(Run(r, s, arrivals, capacity, maxBytes), maxBytes)
    ensures AllArrive(CutReceiver(r, maxBytes), CutStream(s, maxBytes), arrivals, capacity, maxBytes) <==>
      AllArrive(r, s, arrivals, capacity, maxBytes)
    decreases |arrivals|
  {
    hide Handle, CutPacket, CutQueue, Stream.PacketAt;
    if arrivals == [] {
    } else {
      PacketIsCut(s, arrivals[0], maxBytes);
      HandleIsCut(r, s.PacketAt(arrivals[0]), capacity, maxBytes);
      assert forall k :: 1 <= k < |arrivals| ==> arrivals[k] == arrivals[1..][k - 1];
      RunIsCut(Handle(r, s.PacketAt(arrivals[0]), capacity, maxBytes), s, arrivals[1..], capacity, maxBytes);
    }
  }

  lemma CutFits(s: Stream, maxBytes: nat)
    ensures Fits(CutStream(s, maxBytes), maxBytes) && CutStream(s, maxBytes).Last() == s.Last()
  {
  }

  lemma NothingToCut(s: Stream, maxBytes: nat)
    ensures CutReceiver(Start(s.base), maxBytes) == Start(CutStream(s, maxBytes).base)
  {
  }

  /** Without a packet too large the bytes are all there, and with one some are missing. */
  lemma {:induction false} CutBytes(s: Stream, n: nat, maxBytes: nat)
    requires n <= s.Last()
    ensures CutStream(s, maxBytes).Last() == s.Last()
    ensures var kept := CutStream(s, maxBytes).Bytes(n);
      if forall i :: 0 <= i < n && i < |s.data| ==> |s.data[i]| <= maxBytes then kept == s.Bytes(n) else |kept| < |s.Bytes(n)|
  {
    hide CutStream;
    CutFits(s, maxBytes);
    if n == 0 {
    } else {
      CutBytes(s, n - 1, maxBytes);
      PacketIsCut(s, n, maxBytes);
      assert n <= |s.data| ==> s.PacketAt(n).data == s.data[n - 1];
    }
  }

  lemma ArrivalsAreInStream(r: Receiver, s: Stream, arrivals: seq<nat>, capacity: nat, maxBytes: nat)
    requires AllArrive(r, s, arrivals, capacity, maxBytes)
    ensures InStream(s, arrivals)
    decreases |arrivals|
  {
    if arrivals != [] {
      ArrivalsAreInStream(Handle(r, s.PacketAt(arrivals[0]), capacity, maxBytes), s, arrivals[1..], capacity, maxBytes);
      assert forall k :: 1 <= k < |arrivals| ==> arrivals[k] == arrivals[1..][k - 1];
    }
  }

  /**
   For streams with packets of any size: what is received are the bytes of the packets passed on that fit the buffer.
   These are all their bytes exactly when none is too large; so a stream whose end has been reported was received
   whole exactly when every packet fits.
   */
  lemma OversizedIsLost(s: Stream, arrivals: seq<nat>, capacity: nat, maxBytes: nat)
    requires AllArrive(Start(s.base), s, arrivals, capacity, maxBytes)
    ensures InStream(s, arrivals) && CutStream(s, maxBytes).Last() == s.Last()
    ensures var r := Run(Start(s.base), s, arrivals, capacity, maxBytes);
      && r.passed <= s.Last() && r.received == CutStream(s, maxBytes).Bytes(r.passed)
      && (r.received == s.Bytes(r.passed) <==> forall i :: 0 <= i < r.passed && i < |s.data| ==> |s.data[i]| <= maxBytes)
      && (r.eof <==> r.passed == s.Last())
      && (r.eof ==> (r.received == s.Bytes(s.Last()) <==> forall d <- s.data :: |d| <= maxBytes))
  {
    hide Run, AllArrive, Stream.Bytes, Fits, CutReceiver, CutStream, Start;
    ArrivalsAreInStream(Start(s.base), s, arrivals, capacity, maxBytes);
    RunIsCut(Start(s.base), s, arrivals, capacity, maxBytes);
    NothingToCut(s, maxBytes);
    CutFits(s, maxBytes);
    ReceivedIsPrefix(CutStream(s, maxBytes), arrivals, capacity, maxBytes);
    var r := Run(Start(s.base), s, arrivals, capacity, maxBytes);
    CutReceives(r, maxBytes);
    CutBytes(s, r.passed, maxBytes);
    if r.eof {
      AllOfData(s, maxBytes);
    }
  }

  lemma CutReceives(r: Receiver, maxBytes: nat)
    ensures var cut := CutReceiver(r, maxBytes); cut.passed == r.passed && cut.received == r.received && cut.eof == r.eof
  {
  }

  lemma AllOfData(s: Stream, maxBytes: nat)
    ensures (forall i :: 0 <= i < s.Last() && i < |s.data| ==> |s.data[i]| <= maxBytes) <==> forall d <- s.data :: |d| <= maxBytes
  {
  }

  // ---- Packets that wait ----

  /** A full queue gives up its least number for a new one, and nothing else. */
  lemma QueueGivesUpLeast(queue: map<nat, Packet>, capacity: nat, p: Packet, k: nat)
    ensures var after := Enqueued(queue, capacity, p.seqNr, p);
      && p.seqNr in after && after[p.seqNr] == p
      && (k != p.seqNr ==>
            (k in after <==> k in queue && !(|queue| >= capacity && p.seqNr !in queue && forall j <- queue :: k <= j)))
      && (k != p.seqNr && k in after ==> after[k] == queue[k])
  {
  }

  /** The number is one of those passed on between the two states. */
  ghost predicate PassedOn(r: Receiver, after: Receiver, k: nat) {
    exists j :: 1 <= j <= after.passed - r.passed && k == Add(r.ack, j)
  }

  lemma AddMore(a: nat, j: nat)
    ensures Add(Add(a, 1), j) == Add(a, j + 1)
  {
  }

  /** Processing takes out of the queue exactly the numbers it passes on. */
  lemma {:induction false} ProcessTakes(r: Receiver, maxBytes: nat, k: nat)
    ensures var after := Process(r, maxBytes);
      && after.passed >= r.passed
      && (k in after.queue <==> k in r.queue && !PassedOn(r, after, k))
      && (k in after.queue ==> after.queue[k] == r.queue[k])
    decreases |r.queue|
  {
    hide Add, Write;
    var next := Add(r.ack, 1);
    if next in r.queue {
      var taken := TakeNext(r, maxBytes);
      assert r.queue.Keys == taken.queue.Keys + {next};
      ProcessTakes(taken, maxBytes, k);
      var after := Process(r, maxBytes);
      forall j: nat ensures Add(taken.ack, j) == Add(r.ack, j + 1) {
        AddMore(r.ack, j);
      }
      if PassedOn(taken, after, k) {
        var j :| 1 <= j <= after.passed - taken.passed && k == Add(taken.ack, j);
        assert k == Add(r.ack, j + 1);
      }
      if PassedOn(r, after, k) && k != next {
        var j :| 1 <= j <= after.passed - r.passed && k == Add(r.ack, j);
        assert k == Add(taken.ack, j - 1);
      }
    }
  }

  /**
   When a packet arrives, every other packet that waits goes on waiting, just so, unless it is passed on, or the queue
   is full, the number new and its own the least. The arriving packet is passed on or waits.
   */
  lemma WaitsUntilDue(r: Receiver, p: Packet, capacity: nat, maxBytes: nat, k: nat)
    requires Settled(r) && !Ignored(r, p)
    ensures var after := Handle(r, p, capacity, maxBytes);
      && after.passed >= r.passed
      && (p.seqNr in after.queue || PassedOn(r, after, p.seqNr)) && (p.seqNr in after.queue ==> after.queue[p.seqNr] == p)
      && (k != p.seqNr ==>
            (k in after.queue <==>
               && k in r.queue && !PassedOn(r, after, k)
               && !(|r.queue| >= capacity && p.seqNr !in r.queue && forall j <- r.queue :: k <= j)))
      && (k != p.seqNr && k in after.queue ==> after.queue[k] == r.queue[k])
  {
    hide Enqueued, Process, Add;
    var noted := NoteFin(r, p);
    NothingToProcess(noted, maxBytes);
    var queued := noted.(queue := Enqueued(noted.queue, capacity, p.seqNr, p));
    QueueGivesUpLeast(r.queue, capacity, p, k);
    ProcessTakes(queued, maxBytes, k);
    ProcessTakes(queued, maxBytes, p.seqNr);
  }
}
