/** In-order reassembly of a uTP stream from packets that are lost, repeated, reordered or evicted (BEP 29). */
module UtpReceiver {
  import opened Results
  import opened ByteStrings
  import opened UtpSeq

  datatype Packet = Packet(seqNr: nat, fin: bool, data: Bytes)

  // ---- The bounded queue, keyed by sequence number ----

  ghost predicate IsLeast<T>(items: map<nat, T>, key: nat) {
    key in items && forall k <- items :: key <= k
  }

  lemma {:induction false} FindLeast(keys: set<nat>) returns (least: nat)
    requires keys != {}
    ensures least in keys && forall k <- keys :: least <= k
    decreases |keys|
  {
    var k :| k in keys;
    var others := keys - {k};
    assert keys == others + {k};
    if others == {} {
      least := k;
    } else {
      least := FindLeast(others);
      least := if k < least then k else least;
    }
  }

  lemma LeastExists<T>(items: map<nat, T>)
    requires items != map[]
    ensures exists key <- items :: IsLeast(items, key)
  {
    var key := FindLeast(items.Keys);
    assert IsLeast(items, key);
  }

  ghost function Least<T>(items: map<nat, T>): (key: nat)
    requires items != map[]
    ensures IsLeast(items, key)
  {
    LeastExists(items);
    var key :| IsLeast(items, key);
    key
  }

  /** A new key pushes the numerically least one out of a full queue. */
  ghost function Enqueued<T>(items: map<nat, T>, capacity: nat, key: nat, item: T): map<nat, T> {
    if key in items || |items| < capacity || items == map[] then items[key := item]
    else (items - {Least(items)})[key := item]
  }

  class CircularQueue<T> {
    const capacity: nat
    var items: map<nat, T>
    var oldestKey: Option<nat>

    ghost predicate Valid()
      reads this
    {
      if oldestKey.None? then items == map[] else IsLeast(items, oldestKey.value)
    }

    constructor (capacity: nat)
      ensures Valid() && items == map[] && this.capacity == capacity
    {
      this.capacity, items, oldestKey := capacity, map[], None;
    }

    method UpdateOldestKey()
      modifies this`oldestKey
      ensures Valid()
    {
      if items == map[] {
        oldestKey := None;
        return;
      }
      var keys := items.Keys;
      var least :| least in keys;
      keys := keys - {least};
      while keys != {}
        invariant keys <= items.Keys && least in items && forall k <- items :: k in keys || least <= k
        decreases keys
      {
        var k :| k in keys;
        least := if k < least then k else least;
        keys := keys - {k};
      }
      oldestKey := Some(least);
    }

    method Enqueue(key: nat, item: T)
      requires Valid()
      modifies this
      ensures Valid() && items == Enqueued(old(items), capacity, key, item)
    {
      if key in items {
        items := items[key := item];
        return;
      }
      if |items| >= capacity && oldestKey.Some? {
        LeastIsUnique(items, oldestKey.value);
        items := items - {oldestKey.value};
      }
      items := items[key := item];
      UpdateOldestKey();
    }

    method DequeueByKey(key: nat) returns (item: Option<T>)
      requires Valid()
      modifies this
      ensures Valid() && items == old(items) - {key}
      ensures item == if key in old(items) then Some(old(items)[key]) else None
    {
      if key !in items {
        assert items == items - {key};
        return None;
      }
      item := Some(items[key]);
      items := items - {key};
      if oldestKey == Some(key) {
        UpdateOldestKey();
      }
    }
  }

  lemma LeastIsUnique<T>(items: map<nat, T>, key: nat)
    requires IsLeast(items, key)
    ensures items != map[] && Least(items) == key
  {
  }

  // ---- The receiver ----

  /** `passed` counts the packets passed on in order; of it the connection keeps only the wrapped number `ack`. */
  datatype Receiver = Receiver(ack: nat, queue: map<nat, Packet>, fin: Option<nat>, received: Bytes, eof: bool, passed: nat)

  /** The buffer takes a packet's data, except when it could never hold it. */
  function Write(received: Bytes, p: Packet, maxBytes: nat): Bytes {
    if p.fin || |p.data| > maxBytes then received else received + p.data
  }

  function TakeNext(r: Receiver, maxBytes: nat): Receiver
    requires Add(r.ack, 1) in r.queue
  {
    var next := Add(r.ack, 1);
    r.(ack := next, queue := r.queue - {next}, received := Write(r.received, r.queue[next], maxBytes), passed := r.passed + 1)
  }

  /** Takes packets out of the queue as long as the next one in order is there. */
  function Process(r: Receiver, maxBytes: nat): Receiver
    decreases |r.queue|
  {
    var next := Add(r.ack, 1);
    if next !in r.queue then r
    else
      Process(TakeNext(r, maxBytes), maxBytes)
  }

  predicate Ignored(r: Receiver, p: Packet) {
    p.seqNr == r.ack || (r.fin.Some? && Gt(p.seqNr, r.fin.value))
  }

  function NoteFin(r: Receiver, p: Packet): Receiver {
    if p.fin then r.(fin := Some(p.seqNr)) else r
  }

  function NoteEof(r: Receiver): Receiver {
    if r.fin == Some(r.ack) then r.(eof := true) else r
  }

  ghost function Handle(r: Receiver, p: Packet, capacity: nat, maxBytes: nat): Receiver {
    if Ignored(r, p) then r
    else
      var noted := NoteFin(r, p);
      var ready := if |noted.queue| >= capacity then Process(noted, maxBytes) else noted;
      NoteEof(Process(ready.(queue := Enqueued(ready.queue, capacity, p.seqNr, p)), maxBytes))
  }

  // ---- The stream that is sent ----

  /** Packet `i`, counted from 1, carries the i-th piece of data; the FIN is the packet behind the last. */
  datatype Stream = Stream(base: nat, data: seq<Bytes>) {
    function Last(): nat {
      |data| + 1
    }

    function PacketAt(i: nat): Packet
      requires 1 <= i <= Last()
    {
      Packet(Add(base, i), i == Last(), if i == Last() then [] else data[i - 1])
    }

    /** The bytes of the first `n` packets. */
    function Bytes(n: nat): ByteStrings.Bytes
      requires n <= Last()
    {
      if n == 0 then [] else Bytes(n - 1) + PacketAt(n).data
    }
  }

  /** Up to packet `acked` everything has been received in order; the queue holds only packets of the window ahead. */
  ghost predicate Follows(r: Receiver, s: Stream, acked: nat) {
    && r.passed == acked <= s.Last() && r.ack == Add(s.base, acked)
    && r.received == s.Bytes(acked)
    && (forall k <- r.queue :: Queued(r, s, acked, k))
    && (r.fin.Some? ==> r.fin.value == Add(s.base, s.Last()) && s.Last() < acked + MODULUS)
    && (acked == s.Last() ==> r.fin.Some?)
  }

  ghost predicate Queued(r: Receiver, s: Stream, acked: nat, k: nat)
    requires k in r.queue
  {
    var i := acked + Diff(k, r.ack);
    k < MODULUS && acked < i <= s.Last() && r.queue[k] == s.PacketAt(i) && (r.queue[k].fin ==> r.fin.Some?)
  }

  /** The buffer is large enough for every packet. */
  predicate Fits(s: Stream, maxBytes: nat) {
    forall d <- s.data :: |d| <= maxBytes
  }

  lemma SameIndex(base: nat, acked: nat, i: nat)
    requires acked <= i < acked + MODULUS
    ensures Diff(Add(base, i), Add(base, acked)) == i - acked
    ensures Add(base, i) == Add(base, acked) <==> i == acked
  {
  }

  lemma NextIndex(base: nat, acked: nat)
    ensures Add(Add(base, acked), 1) == Add(base, acked + 1)
  {
  }

  /** Moving the acknowledgement ahead by one keeps the index of every other key. */
  lemma IndexStays(k: nat, ack: nat)
    requires k < MODULUS && ack < MODULUS && Diff(k, ack) >= 1
    ensures k != Add(ack, 1) ==> Diff(k, Add(ack, 1)) == Diff(k, ack) - 1 && Diff(k, ack) > 1
    ensures k == Add(ack, 1) <==> Diff(k, ack) == 1
  {
  }

  lemma ProcessStep(r: Receiver, s: Stream, acked: nat, maxBytes: nat)
    requires Follows(r, s, acked) && Fits(s, maxBytes) && Add(r.ack, 1) in r.queue
    ensures Follows(TakeNext(r, maxBytes), s, acked + 1)
  {
    hide Add, Diff, Queued;
    NextIndex(s.base, acked);
    NextIsQueued(r, s, acked);
    var after := TakeNext(r, maxBytes);
    forall k <- after.queue ensures Queued(after, s, acked + 1, k) {
      StaysQueued(r, s, acked, k, maxBytes);
    }
  }

  lemma NextIsQueued(r: Receiver, s: Stream, acked: nat)
    requires Follows(r, s, acked) && Add(r.ack, 1) in r.queue
    ensures acked < s.Last() && r.queue[Add(r.ack, 1)] == s.PacketAt(acked + 1)
    ensures acked + 1 == s.Last() ==> r.fin.Some?
  {
    hide Add, Diff;
    assert Queued(r, s, acked, Add(r.ack, 1));
    IndexStays(Add(r.ack, 1), r.ack);
  }

  lemma StaysQueued(r: Receiver, s: Stream, acked: nat, k: nat, maxBytes: nat)
    requires Follows(r, s, acked) && Add(r.ack, 1) in r.queue && k in r.queue && k != Add(r.ack, 1)
    ensures Queued(TakeNext(r, maxBytes), s, acked + 1, k)
  {
    hide Add, Diff;
    assert Queued(r, s, acked, k);
    IndexStays(k, r.ack);
  }

  lemma {:induction false} ProcessFollows(r: Receiver, s: Stream, acked: nat, maxBytes: nat) returns (now: nat)
    requires Follows(r, s, acked) && Fits(s, maxBytes)
    ensures now >= acked && Follows(Process(r, maxBytes), s, now)
    ensures Process(r, maxBytes).fin == r.fin && Process(r, maxBytes).eof == r.eof
    ensures Add(Process(r, maxBytes).ack, 1) !in Process(r, maxBytes).queue
    ensures Add(r.ack, 1) in r.queue ==> now > acked
    decreases |r.queue|
  {
    hide Follows, Fits, Write, Add;
    var next := Add(r.ack, 1);
    if next in r.queue {
      ProcessStep(r, s, acked, maxBytes);
      var after := TakeNext(r, maxBytes);
      assert |after.queue| < |r.queue| by {
        assert r.queue.Keys == after.queue.Keys + {next};
      }
      now := ProcessFollows(after, s, acked + 1, maxBytes);
    } else {
      now := acked;
    }
  }

  lemma EnqueueFollows(r: Receiver, s: Stream, acked: nat, i: nat, capacity: nat)
    requires Follows(r, s, acked) && acked < i < acked + MODULUS && i <= s.Last()
    requires s.PacketAt(i).fin ==> r.fin.Some?
    ensures Follows(r.(queue := Enqueued(r.queue, capacity, s.PacketAt(i).seqNr, s.PacketAt(i))), s, acked)
    ensures s.PacketAt(i).seqNr in Enqueued(r.queue, capacity, s.PacketAt(i).seqNr, s.PacketAt(i))
  {
    hide Add, Diff;
    SameIndex(s.base, acked, i);
    InSpace(s.base, i);
    var p := s.PacketAt(i);
    var after := r.(queue := Enqueued(r.queue, capacity, p.seqNr, p));
    forall k <- after.queue ensures Queued(after, s, acked, k) {
      if k != p.seqNr {
        assert Queued(r, s, acked, k);
      }
    }
  }

  lemma InSpace(base: nat, i: nat)
    ensures Add(base, i) < MODULUS
  {
  }

  lemma NoteFinFollows(r: Receiver, s: Stream, acked: nat, i: nat)
    requires Follows(r, s, acked) && acked < i < acked + MODULUS && i <= s.Last()
    ensures Follows(NoteFin(r, s.PacketAt(i)), s, acked) && (s.PacketAt(i).fin ==> NoteFin(r, s.PacketAt(i)).fin.Some?)
  {
    hide Add, Diff;
    var after := NoteFin(r, s.PacketAt(i));
    forall k <- after.queue ensures Queued(after, s, acked, k) {
      assert Queued(r, s, acked, k);
    }
  }

  /** What arrives: a packet not yet acknowledged within one turn of the sequence numbers, or the last one again. */
  predicate Arrives(s: Stream, acked: nat, i: nat) {
    1 <= i <= s.Last() && acked <= i < acked + MODULUS
  }

  /** The end of the stream has been reported only when the FIN itself has been reached. */
  predicate EofIsLast(r: Receiver, s: Stream, acked: nat) {
    r.eof ==> acked == s.Last()
  }

  lemma NoteEofFollows(r: Receiver, s: Stream, acked: nat)
    requires Follows(r, s, acked) && EofIsLast(r, s, acked)
    ensures Follows(NoteEof(r), s, acked) && EofIsLast(NoteEof(r), s, acked)
    ensures acked == s.Last() ==> NoteEof(r).eof
  {
    hide Add, Diff;
    var after := NoteEof(r);
    forall k <- after.queue ensures Queued(after, s, acked, k) {
      assert Queued(r, s, acked, k);
    }
    if r.fin == Some(r.ack) {
      SameIndex(s.base, acked, s.Last());
    }
  }

  /** Nothing that could be passed on is held back. */
  predicate Settled(r: Receiver) {
    Add(r.ack, 1) !in r.queue
  }

  /** The FIN, once it has arrived, is at most half the sequence space ahead. */
  predicate FinIsNear(r: Receiver, s: Stream, acked: nat) {
    r.fin.Some? ==> s.Last() <= acked + HALF
  }

  lemma HandleFollows(r: Receiver, s: Stream, acked: nat, i: nat, capacity: nat, maxBytes: nat) returns (now: nat)
    requires Follows(r, s, acked) && EofIsLast(r, s, acked) && Settled(r) && Fits(s, maxBytes) && Arrives(s, acked, i)
    ensures now >= acked
    ensures var after := Handle(r, s.PacketAt(i), capacity, maxBytes);
      && Follows(after, s, now) && EofIsLast(after, s, now) && Settled(after)
      && (now == s.Last() && acked < now ==> after.eof)
    ensures i == acked + 1 && FinIsNear(r, s, acked) ==> now >= i
  {
    hide Follows, Enqueued, Fits, Queued, Add, NoteEof, Process;
    var p := s.PacketAt(i);
    now := acked;
    if Ignored(r, p) {
      NextIsNotIgnored(r, s, acked, i);
    } else {
      IgnoresRepeat(r, s, acked, i);
      NoteFinFollows(r, s, acked, i);
      var noted := NoteFin(r, p);
      NothingToProcess(noted, maxBytes);
      EnqueueFollows(noted, s, acked, i, capacity);
      var queued := noted.(queue := Enqueued(noted.queue, capacity, p.seqNr, p));
      now := ProcessFollows(queued, s, acked, maxBytes);
      NextKey(r, s, acked);
      NoteEofFollows(Process(queued, maxBytes), s, now);
      EofKeeps(Process(queued, maxBytes));
    }
  }

  lemma NothingToProcess(r: Receiver, maxBytes: nat)
    requires Settled(r)
    ensures Process(r, maxBytes) == r
  {
  }

  lemma EofKeeps(r: Receiver)
    ensures NoteEof(r).ack == r.ack && NoteEof(r).queue == r.queue
  {
  }

  lemma NextKey(r: Receiver, s: Stream, acked: nat)
    requires Follows(r, s, acked)
    ensures Add(r.ack, 1) == Add(s.base, acked + 1)
  {
    NextIndex(s.base, acked);
  }

  lemma NextIsNotIgnored(r: Receiver, s: Stream, acked: nat, i: nat)
    requires Follows(r, s, acked) && Arrives(s, acked, i) && Ignored(r, s.PacketAt(i))
    ensures !(i == acked + 1 && FinIsNear(r, s, acked))
  {
    hide Add, Gt;
    if i == acked + 1 && FinIsNear(r, s, acked) {
      NextDiffers(s.base, acked);
      if r.fin.Some? {
        NotBeyond(s.base, acked, s.Last());
      }
    }
  }

  lemma NextDiffers(base: nat, acked: nat)
    ensures Add(base, acked + 1) != Add(base, acked)
  {
  }

  lemma NotBeyond(base: nat, acked: nat, last: nat)
    requires acked < last <= acked + HALF
    ensures !Gt(Add(base, acked + 1), Add(base, last))
  {
    Wraps(acked + 1 - last);
    assert (Add(base, acked + 1) - Add(base, last)) % MODULUS == (acked + 1 - last) % MODULUS;
  }

  lemma IgnoresRepeat(r: Receiver, s: Stream, acked: nat, i: nat)
    requires Follows(r, s, acked) && Arrives(s, acked, i) && !Ignored(r, s.PacketAt(i))
    ensures acked < i
  {
  }

  // ---- Every run ----

  function Start(base: nat): Receiver {
    Receiver(Add(base, 0), map[], None, [], false, 0)
  }

  predicate InStream(s: Stream, arrivals: seq<nat>) {
    forall k :: 0 <= k < |arrivals| ==> 1 <= arrivals[k] <= s.Last()
  }

  ghost function Run(r: Receiver, s: Stream, arrivals: seq<nat>, capacity: nat, maxBytes: nat): Receiver
    requires InStream(s, arrivals)
    decreases |arrivals|
  {
    if arrivals == [] then r
    else Run(Handle(r, s.PacketAt(arrivals[0]), capacity, maxBytes), s, arrivals[1..], capacity, maxBytes)
  }

  /** Each packet arrives within the window that is open at the time; any may be lost, repeated or overtaken. */
  ghost predicate AllArrive(r: Receiver, s: Stream, arrivals: seq<nat>, capacity: nat, maxBytes: nat)
    decreases |arrivals|
  {
    arrivals == [] ||
    (Arrives(s, r.passed, arrivals[0])
     && AllArrive(Handle(r, s.PacketAt(arrivals[0]), capacity, maxBytes), s, arrivals[1..], capacity, maxBytes))
  }

  ghost predicate Sound(r: Receiver, s: Stream) {
    Follows(r, s, r.passed) && EofIsLast(r, s, r.passed) && Settled(r) && (r.passed == s.Last() ==> r.eof)
  }

  lemma HandleIsSound(r: Receiver, s: Stream, i: nat, capacity: nat, maxBytes: nat)
    requires Sound(r, s) && Fits(s, maxBytes) && Arrives(s, r.passed, i)
    ensures Sound(Handle(r, s.PacketAt(i), capacity, maxBytes), s)
    ensures Handle(r, s.PacketAt(i), capacity, maxBytes).passed >= r.passed
    ensures i == r.passed + 1 && FinIsNear(r, s, r.passed) ==> Handle(r, s.PacketAt(i), capacity, maxBytes).passed >= i
  {
    hide Handle, Settled, Fits, Queued, Add;
    var now := HandleFollows(r, s, r.passed, i, capacity, maxBytes);
    FollowsCounts(Handle(r, s.PacketAt(i), capacity, maxBytes), s, now);
    if now == r.passed == s.Last() {
      EofStays(r, s.PacketAt(i), capacity, maxBytes);
    }
  }

  lemma FollowsCounts(r: Receiver, s: Stream, acked: nat)
    requires Follows(r, s, acked)
    ensures r.passed == acked
  {
  }

  lemma {:induction false} ProcessKeepsEof(r: Receiver, maxBytes: nat)
    ensures Process(r, maxBytes).eof == r.eof
    decreases |r.queue|
  {
    if Add(r.ack, 1) !in r.queue {
    } else {
      var after := TakeNext(r, maxBytes);
      assert r.queue.Keys == after.queue.Keys + {after.ack};
      ProcessKeepsEof(after, maxBytes);
    }
  }

  lemma EofStays(r: Receiver, p: Packet, capacity: nat, maxBytes: nat)
    ensures r.eof ==> Handle(r, p, capacity, maxBytes).eof
  {
    hide Process, Enqueued;
    var noted := NoteFin(r, p);
    ProcessKeepsEof(noted, maxBytes);
    var ready := if |noted.queue| >= capacity then Process(noted, maxBytes) else noted;
    ProcessKeepsEof(ready.(queue := Enqueued(ready.queue, capacity, p.seqNr, p)), maxBytes);
  }

  lemma {:induction false} RunIsSound(r: Receiver, s: Stream, arrivals: seq<nat>, capacity: nat, maxBytes: nat)
    requires Sound(r, s) && Fits(s, maxBytes) && AllArrive(r, s, arrivals, capacity, maxBytes)
    ensures InStream(s, arrivals) && Sound(Run(r, s, arrivals, capacity, maxBytes), s)
    decreases |arrivals|
  {
    hide Sound, Fits, Handle;
    if arrivals == [] {
    } else {
      HandleIsSound(r, s, arrivals[0], capacity, maxBytes);
      RunIsSound(Handle(r, s.PacketAt(arrivals[0]), capacity, maxBytes), s, arrivals[1..], capacity, maxBytes);
      assert forall k :: 1 <= k < |arrivals| ==> arrivals[k] == arrivals[1..][k - 1];
    }
  }

  lemma {:induction false} BytesArePrefix(s: Stream, n: nat, m: nat)
    requires n <= m <= s.Last()
    ensures s.Bytes(n) <= s.Bytes(m)
  {
    if n >= m {
    } else {
      BytesArePrefix(s, n, m - 1);
    }
  }

  /**
   Whatever is lost, repeated, overtaken or evicted: the bytes passed on are those of the packets in order so far,
   a prefix of what was sent, and the end of the stream is reported exactly when all of it has been passed on. Here
   nothing arrives again once it is older than the last packet acknowledged; UtpDuplicates lifts that.
   */
  lemma ReceivedIsPrefix(s: Stream, arrivals: seq<nat>, capacity: nat, maxBytes: nat)
    requires Fits(s, maxBytes) && AllArrive(Start(s.base), s, arrivals, capacity, maxBytes)
    ensures InStream(s, arrivals)
    ensures var r := Run(Start(s.base), s, arrivals, capacity, maxBytes);
      && r.passed <= s.Last() && r.received == s.Bytes(r.passed) && r.received <= s.Bytes(s.Last())
      && (r.eof <==> r.passed == s.Last()) && (r.eof ==> r.received == s.Bytes(s.Last()))
  {
    hide Run, AllArrive, Add, Queued;
    assert Sound(Start(s.base), s);
    RunIsSound(Start(s.base), s, arrivals, capacity, maxBytes);
    var r := Run(Start(s.base), s, arrivals, capacity, maxBytes);
    BytesArePrefix(s, r.passed, s.Last());
  }

  // ---- The next packet is passed on at once ----

  /** Each packet arrives at most half the sequence space ahead of what has been passed on. */
  ghost predicate AllNear(r: Receiver, s: Stream, arrivals: seq<nat>, capacity: nat, maxBytes: nat)
    decreases |arrivals|
  {
    arrivals == [] ||
    (1 <= arrivals[0] <= s.Last() && r.passed <= arrivals[0] <= r.passed + HALF
     && AllNear(Handle(r, s.PacketAt(arrivals[0]), capacity, maxBytes), s, arrivals[1..], capacity, maxBytes))
  }

  lemma {:induction false} ProcessKeepsFin(r: Receiver, maxBytes: nat)
    ensures Process(r, maxBytes).fin == r.fin && r.received <= Process(r, maxBytes).received
    decreases |r.queue|
  {
    if Add(r.ack, 1) !in r.queue {
    } else {
      var after := TakeNext(r, maxBytes);
      assert r.queue.Keys == after.queue.Keys + {after.ack};
      ProcessKeepsFin(after, maxBytes);
    }
  }

  /** A FIN that is known after an arrival was known before, or has just arrived. */
  lemma FinComesOnce(r: Receiver, p: Packet, capacity: nat, maxBytes: nat)
    ensures Handle(r, p, capacity, maxBytes).fin.Some? ==> r.fin.Some? || p.fin
  {
    hide Process, Enqueued;
    var noted := NoteFin(r, p);
    ProcessKeepsFin(noted, maxBytes);
    var ready := if |noted.queue| >= capacity then Process(noted, maxBytes) else noted;
    ProcessKeepsFin(ready.(queue := Enqueued(ready.queue, capacity, p.seqNr, p)), maxBytes);
  }

  lemma NearArrives(r: Receiver, s: Stream, i: nat)
    requires 1 <= i <= s.Last() && r.passed <= i <= r.passed + HALF
    ensures Arrives(s, r.passed, i)
  {
  }

  lemma {:induction false} RunStaysNear(r: Receiver, s: Stream, arrivals: seq<nat>, capacity: nat, maxBytes: nat)
    requires Sound(r, s) && FinIsNear(r, s, r.passed) && Fits(s, maxBytes) && AllNear(r, s, arrivals, capacity, maxBytes)
    ensures InStream(s, arrivals)
    ensures var after := Run(r, s, arrivals, capacity, maxBytes);
      Sound(after, s) && FinIsNear(after, s, after.passed)
    decreases |arrivals|
  {
    hide Sound, Fits, Handle, Arrives;
    if arrivals == [] {
    } else {
      NearArrives(r, s, arrivals[0]);
      HandleIsSound(r, s, arrivals[0], capacity, maxBytes);
      FinComesOnce(r, s.PacketAt(arrivals[0]), capacity, maxBytes);
      RunStaysNear(Handle(r, s.PacketAt(arrivals[0]), capacity, maxBytes), s, arrivals[1..], capacity, maxBytes);
      assert forall k :: 1 <= k < |arrivals| ==> arrivals[k] == arrivals[1..][k - 1];
    }
  }

  /** After every such run the arrival of the next packet in order passes it on at once, whatever was lost before. */
  lemma NextIsPassedOn(s: Stream, arrivals: seq<nat>, capacity: nat, maxBytes: nat)
    requires Fits(s, maxBytes) && AllNear(Start(s.base), s, arrivals, capacity, maxBytes)
    ensures InStream(s, arrivals)
    ensures var r := Run(Start(s.base), s, arrivals, capacity, maxBytes);
      r.passed < s.Last() ==> Handle(r, s.PacketAt(r.passed + 1), capacity, maxBytes).passed > r.passed
  {
    hide Run, AllNear, Add, Queued, Handle;
    assert Sound(Start(s.base), s);
    RunStaysNear(Start(s.base), s, arrivals, capacity, maxBytes);
    var r := Run(Start(s.base), s, arrivals, capacity, maxBytes);
    if r.passed < s.Last() {
      HandleIsSound(r, s, r.passed + 1, capacity, maxBytes);
    }
  }

  // ---- Old duplicates ----

  /**
   What an old duplicate does on its arrival: of those less than 2^16 behind, exactly one that lags by 2^16 - 1 and is
   not ignored is received at once, as it is taken for the next packet. The others stay in the queue, where they can be
   mistaken later; UtpDuplicates follows them over whole runs.
   */
  lemma OldDuplicateIsMistaken(r: Receiver, s: Stream, acked: nat, i: nat, capacity: nat, maxBytes: nat)
    requires Follows(r, s, acked) && Settled(r) && Fits(s, maxBytes)
    requires 1 <= i < acked < i + MODULUS && s.data[i - 1] != []
    ensures var p := s.PacketAt(i);
      Handle(r, p, capacity, maxBytes).received != r.received <==> acked == i + MODULUS - 1 && !Ignored(r, p)
  {
    hide Enqueued, Process, Add, Follows;
    DuplicateIndex(r, s, acked, i);
    var p := s.PacketAt(i);
    if !Ignored(r, p) {
      NothingToProcess(r, maxBytes);
      var queued := r.(queue := Enqueued(r.queue, capacity, p.seqNr, p));
      EnqueuedHolds(r.queue, capacity, p.seqNr, p);
      if p.seqNr == Add(r.ack, 1) {
        TakenIsReceived(queued, p, maxBytes);
      } else {
        NothingToProcess(queued, maxBytes);
      }
    }
  }

  /** A stream of more than 2^16 packets of one byte. */
  function LongStream(): Stream {
    Stream(0, seq(MODULUS, _ => [0]))
  }

  /** It does happen: with 2^16 packets passed on in order and nothing queued, packet 1 once more is received again. */
  lemma OldDuplicateExample()
    ensures var s := LongStream();
      var r := Receiver(Add(0, MODULUS), map[], None, s.Bytes(MODULUS), false, MODULUS);
      Follows(r, s, MODULUS) && Settled(r) && Handle(r, s.PacketAt(1), 1, 1).received != r.received
  {
    hide Handle, Add, Stream.Bytes;
    var s := LongStream();
    var r := Receiver(Add(0, MODULUS), map[], None, s.Bytes(MODULUS), false, MODULUS);
    NextIndex(0, MODULUS);
    NextDiffers(0, MODULUS);
    WrapsToNext(0, MODULUS, 1);
    OldDuplicateIsMistaken(r, s, MODULUS, 1, 1, 1);
  }

  lemma EnqueuedHolds<T>(items: map<nat, T>, capacity: nat, key: nat, item: T)
    ensures var after := Enqueued(items, capacity, key, item);
      && key in after && after[key] == item
      && forall k <- after :: k == key || k in items
  {
  }

  lemma DuplicateIndex(r: Receiver, s: Stream, acked: nat, i: nat)
    requires Follows(r, s, acked) && 1 <= i < acked < i + MODULUS
    ensures i < s.Last() && s.PacketAt(i) == Packet(Add(s.base, i), false, s.data[i - 1])
    ensures Add(s.base, i) == Add(r.ack, 1) <==> acked == i + MODULUS - 1
  {
    hide Add;
    NextIndex(s.base, acked);
    if acked == i + MODULUS - 1 {
      WrapsToNext(s.base, acked, i);
    } else {
      SameIndex(s.base, i, acked + 1);
    }
  }

  lemma TakenIsReceived(r: Receiver, p: Packet, maxBytes: nat)
    requires Add(r.ack, 1) in r.queue && r.queue[Add(r.ack, 1)] == p && !p.fin && p.data != [] && |p.data| <= maxBytes
    ensures Process(r, maxBytes).received != r.received
  {
    hide Add;
    ProcessKeepsFin(TakeNext(r, maxBytes), maxBytes);
    assert Process(r, maxBytes) == Process(TakeNext(r, maxBytes), maxBytes);
  }

  lemma WrapsToNext(base: nat, acked: nat, i: nat)
    requires acked == i + MODULUS - 1
    ensures Add(base, i) == Add(Add(base, acked), 1)
  {
  }

  // ---- The connection object ----

  class UtpConn {
    var acknowledgementNumber: nat
    const recvPacketQueue: CircularQueue<Packet>
    var remoteFin: Option<nat>
    /** What has been written to the receive buffer so far, and whether its end has been signalled. */
    var received: Bytes
    var drained: bool
    const maxBytes: nat
    ghost var passed: nat

    ghost predicate Valid()
      reads recvPacketQueue
    {
      recvPacketQueue.Valid()
    }

    ghost function View(): Receiver
      reads this, recvPacketQueue
    {
      Receiver(acknowledgementNumber, recvPacketQueue.items, remoteFin, received, drained, passed)
    }

    constructor (base: nat, capacity: nat, maxBytes: nat)
      ensures Valid() && View() == Start(base) && fresh(recvPacketQueue)
      ensures recvPacketQueue.capacity == capacity && this.maxBytes == maxBytes
    {
      acknowledgementNumber := Add(base, 0);
      recvPacketQueue := new CircularQueue(capacity);
      remoteFin, received, drained, passed := None, [], false, 0;
      this.maxBytes := maxBytes;
    }

    method ProcessReceivedPackets()
      requires Valid()
      modifies this, recvPacketQueue
      ensures Valid() && View() == Process(old(View()), maxBytes)
    {
      hide Add, Write;
      var more := true;
      while more
        invariant Valid() && Process(View(), maxBytes) == old(Process(View(), maxBytes))
        invariant !more ==> Add(acknowledgementNumber, 1) !in recvPacketQueue.items
        decreases |recvPacketQueue.items|, more
      {
        ghost var before := View();
        var next := Add(acknowledgementNumber, 1);
        var packet := recvPacketQueue.DequeueByKey(next);
        if packet.None? {
          assert recvPacketQueue.items == before.queue;
          more := false;
        } else {
          FewerItems(before.queue, next);
          acknowledgementNumber := next;
          passed := passed + 1;
          received := Write(received, packet.value, maxBytes);
          assert View() == TakeNext(before, maxBytes);
        }
      }
    }

    method HandleAtConnected(p: Packet) returns (handled: bool)
      requires Valid()
      modifies this, recvPacketQueue
      ensures Valid() && View() == Handle(old(View()), p, recvPacketQueue.capacity, maxBytes)
      ensures handled <==> !Ignored(old(View()), p)
    {
      hide Process, Enqueued, Gt;
      if p.seqNr == acknowledgementNumber {
        return false;
      }
      if remoteFin.Some? && Gt(p.seqNr, remoteFin.value) {
        return false;
      }
      if p.fin {
        remoteFin := Some(p.seqNr);
      }
      if |recvPacketQueue.items| >= recvPacketQueue.capacity {
        ProcessReceivedPackets();
      }
      recvPacketQueue.Enqueue(p.seqNr, p);
      ProcessReceivedPackets();
      if remoteFin == Some(acknowledgementNumber) {
        drained := true;
      }
      handled := true;
    }
  }

  lemma FewerItems<T>(items: map<nat, T>, key: nat)
    requires key in items
    ensures |items - {key}| < |items|
  {
    assert items.Keys == (items - {key}).Keys + {key};
  }
}
