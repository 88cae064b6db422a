/**
 Old duplicates of uTP packets: the receiver of UtpReceiver with nothing known of what arrives but that it was sent.

 A packet is queued under its sequence number whatever its age. A duplicate that is a whole turn of the sequence numbers
 behind when its number is next is taken for the packet of that place, unless it was overwritten or pushed out before.
 */
module UtpDuplicates {
  import opened Results
  import opened ByteStrings
  import opened UtpSeq
  import opened UtpReceiver

  /** A receiver with, for each queued key, the index of the packet it came from, and the indices taken so far. */
  datatype Traced = Traced(r: Receiver, from: map<nat, nat>, taken: seq<nat>)

  predicate SameKeys(t: Traced) {
    t.from.Keys == t.r.queue.Keys
  }

  function TakeTraced(t: Traced, maxBytes: nat): Traced
    requires SameKeys(t) && Add(t.r.ack, 1) in t.from
  {
    var next := Add(t.r.ack, 1);
    Traced(TakeNext(t.r, maxBytes), t.from - {next}, t.taken + [t.from[next]])
  }

  function ProcessTraced(t: Traced, maxBytes: nat): (u: Traced)
    requires SameKeys(t)
    ensures SameKeys(u) && u.r == Process(t.r, maxBytes)
    decreases |t.r.queue|
  {
    var next := Add(t.r.ack, 1);
    if next !in t.from then t
    else
      FewerItems(t.r.queue, next);
      ProcessTraced(TakeTraced(t, maxBytes), maxBytes)
  }

  ghost function Put(t: Traced, s: Stream, i: nat, capacity: nat): (u: Traced)
    requires 1 <= i <= s.Last() && SameKeys(t)
    ensures SameKeys(u)
  {
    var p := s.PacketAt(i);
    LeastOfSameKeys(t.from, t.r.queue);
    t.(r := t.r.(queue := Enqueued(t.r.queue, capacity, p.seqNr, p)), from := Enqueued(t.from, capacity, p.seqNr, i))
  }

  lemma LeastOfSameKeys<S, T>(a: map<nat, S>, b: map<nat, T>)
    requires a.Keys == b.Keys
    ensures |a| == |b| && (a == map[] <==> b == map[])
    ensures a != map[] ==> Least(a) == Least(b)
  {
    assert |a| == |a.Keys| && |b| == |b.Keys|;
    if a != map[] {
      var k :| k in a;
      assert k in b.Keys;
      assert IsLeast(b, Least(b)) && IsLeast(a, Least(a));
      assert Least(a) in b.Keys && Least(b) in a.Keys;
    }
  }

  ghost function HandleTraced(t: Traced, s: Stream, i: nat, capacity: nat, maxBytes: nat): (u: Traced)
    requires 1 <= i <= s.Last() && SameKeys(t)
    ensures SameKeys(u) && u.r == Handle(t.r, s.PacketAt(i), capacity, maxBytes)
  {
    var p := s.PacketAt(i);
    if Ignored(t.r, p) then t
    else
      var noted := t.(r := NoteFin(t.r, p));
      var ready := if |noted.r.queue| >= capacity then ProcessTraced(noted, maxBytes) else noted;
      var done := ProcessTraced(Put(ready, s, i, capacity), maxBytes);
      done.(r := NoteEof(done.r))
  }

  function Begin(base: nat): Traced {
    Traced(Start(base), map[], [])
  }

  ghost function Trace(t: Traced, s: Stream, arrivals: seq<nat>, capacity: nat, maxBytes: nat): (u: Traced)
    requires InStream(s, arrivals) && SameKeys(t)
    ensures SameKeys(u) && u.r == Run(t.r, s, arrivals, capacity, maxBytes)
    decreases |arrivals|
  {
    if arrivals == [] then t
    else Trace(HandleTraced(t, s, arrivals[0], capacity, maxBytes), s, arrivals[1..], capacity, maxBytes)
  }

  // ---- When the order breaks ----

  /** The packets were taken in the order in which they were sent. */
  predicate InOrder(taken: seq<nat>) {
    forall n :: 0 <= n < |taken| ==> taken[n] == n + 1
  }

  /** All numbers up to that of packet `n` are queued, and the last of them holds another packet than that. */
  ghost predicate LurksAt(base: nat, from: map<nat, nat>, passed: nat, n: nat)
    requires passed < n
  {
    && (forall m: nat :: passed < m <= n ==> Add(base, m) in from)
    && from[Add(base, n)] != n
  }

  ghost predicate Lurks(base: nat, from: map<nat, nat>, passed: nat) {
    exists n: nat :: passed < n <= passed + MODULUS && LurksAt(base, from, passed, n)
  }

  /** The arrival makes a packet due that is queued in another's place, and neither overwrites it nor pushes it out. */
  ghost predicate Disturbs(t: Traced, s: Stream, i: nat, capacity: nat)
    requires 1 <= i <= s.Last()
  {
    && !Ignored(t.r, s.PacketAt(i))
    && Lurks(s.base, Enqueued(t.from, capacity, s.PacketAt(i).seqNr, i), t.r.passed)
  }

  ghost predicate Undisturbed(t: Traced, s: Stream, arrivals: seq<nat>, capacity: nat, maxBytes: nat)
    requires InStream(s, arrivals) && SameKeys(t)
    decreases |arrivals|
  {
    arrivals == [] ||
    (!Disturbs(t, s, arrivals[0], capacity)
     && Undisturbed(HandleTraced(t, s, arrivals[0], capacity, maxBytes), s, arrivals[1..], capacity, maxBytes))
  }

  // ---- What every run keeps ----

  /** The bytes of the packets taken. */
  function BytesOf(s: Stream, taken: seq<nat>): ByteStrings.Bytes
    requires InStream(s, taken)
  {
    if taken == [] then [] else BytesOf(s, taken[..|taken| - 1]) + s.PacketAt(taken[|taken| - 1]).data
  }

  predicate Comes(t: Traced, s: Stream, k: nat)
    requires SameKeys(t) && k in t.from
  {
    && 1 <= t.from[k] <= s.Last() && k == Add(s.base, t.from[k])
    && t.r.queue[k] == s.PacketAt(t.from[k]) && (t.from[k] == s.Last() ==> t.r.fin.Some?)
  }

  predicate Congruent(s: Stream, taken: seq<nat>) {
    forall n :: 0 <= n < |taken| ==> Add(s.base, taken[n]) == Add(s.base, n + 1)
  }

  ghost predicate Traces(t: Traced, s: Stream) {
    && SameKeys(t) && |t.taken| == t.r.passed && t.r.ack == Add(s.base, t.r.passed)
    && InStream(s, t.taken) && Congruent(s, t.taken) && t.r.received == BytesOf(s, t.taken)
    && (forall k <- t.from :: Comes(t, s, k))
    && (t.r.fin.Some? ==> t.r.fin.value == Add(s.base, s.Last()))
    && (s.Last() in t.taken ==> t.r.fin.Some?)
  }

  lemma TakeTraces(t: Traced, s: Stream, maxBytes: nat)
    requires Traces(t, s) && Fits(s, maxBytes) && Add(t.r.ack, 1) in t.from
    ensures Traces(TakeTraced(t, maxBytes), s)
  {
    hide Add, BytesOf;
    NextIndex(s.base, t.r.passed);
    var next := Add(t.r.ack, 1);
    assert Comes(t, s, next);
    var u := TakeTraced(t, maxBytes);
    assert u.taken[..|u.taken| - 1] == t.taken;
    BytesOfMore(s, t.taken, t.from[next]);
    forall k <- u.from ensures Comes(u, s, k) {
      assert Comes(t, s, k);
    }
  }

  lemma BytesOfMore(s: Stream, taken: seq<nat>, i: nat)
    requires InStream(s, taken) && 1 <= i <= s.Last()
    ensures InStream(s, taken + [i]) && BytesOf(s, taken + [i]) == BytesOf(s, taken) + s.PacketAt(i).data
  {
    assert (taken + [i])[..|taken|] == taken;
  }

  lemma TakeOrder(t: Traced, maxBytes: nat)
    requires SameKeys(t) && Add(t.r.ack, 1) in t.from && |t.taken| == t.r.passed
    ensures InOrder(TakeTraced(t, maxBytes).taken) <==> InOrder(t.taken) && t.from[Add(t.r.ack, 1)] == t.r.passed + 1
  {
    hide Add;
    var u := TakeTraced(t, maxBytes);
    assert forall n :: 0 <= n < |t.taken| ==> u.taken[n] == t.taken[n];
    assert u.taken[|t.taken|] == t.from[Add(t.r.ack, 1)];
  }

  lemma OtherKeys(base: nat, m: int, n: int)
    requires m != n && -MODULUS < m - n < MODULUS
    ensures Add(base, m) != Add(base, n)
  {
  }

  /** Taking the next packet leaves the others that lurk where they are. */
  lemma TakeLurks(base: nat, from: map<nat, nat>, passed: nat)
    requires Add(base, passed + 1) in from
    ensures Lurks(base, from, passed) <==>
      from[Add(base, passed + 1)] != passed + 1 || Lurks(base, from - {Add(base, passed + 1)}, passed + 1)
  {
    hide Add;
    var next := Add(base, passed + 1);
    var rest := from - {next};
    if from[next] != passed + 1 {
      assert LurksAt(base, from, passed, passed + 1);
    }
    if Lurks(base, rest, passed + 1) {
      var n: nat :| passed + 1 < n <= passed + 1 + MODULUS && LurksAt(base, rest, passed + 1, n);
      if n == passed + 1 + MODULUS {
        Turn(base, passed + 1);
        assert false;
      }
      forall m: nat | passed < m <= n ensures Add(base, m) in from {
        if m > passed + 1 {
          assert Add(base, m) in rest;
        }
      }
      assert LurksAt(base, from, passed, n);
    }
    if Lurks(base, from, passed) && from[next] == passed + 1 {
      var n: nat :| passed < n <= passed + MODULUS && LurksAt(base, from, passed, n);
      forall m: nat | passed + 1 < m <= n ensures Add(base, m) in rest {
        OtherKeys(base, m, passed + 1);
      }
      assert LurksAt(base, rest, passed + 1, n);
    }
  }

  lemma Turn(base: nat, n: int)
    ensures Add(base, n + MODULUS) == Add(base, n)
  {
  }

  lemma NoneLurks(base: nat, from: map<nat, nat>, passed: nat)
    requires Add(base, passed + 1) !in from
    ensures !Lurks(base, from, passed)
  {
    hide Add;
    forall n: nat | passed < n <= passed + MODULUS ensures !LurksAt(base, from, passed, n) {
      assert !(passed < passed + 1 <= n && Add(base, passed + 1) in from);
    }
  }

  lemma {:induction false} ProcessTraces(t: Traced, s: Stream, maxBytes: nat)
    requires Traces(t, s) && Fits(s, maxBytes)
    ensures var u := ProcessTraced(t, maxBytes);
      Traces(u, s) && (InOrder(u.taken) <==> InOrder(t.taken) && !Lurks(s.base, t.from, t.r.passed))
    ensures Settled(ProcessTraced(t, maxBytes).r) && t.r.passed <= ProcessTraced(t, maxBytes).r.passed
    ensures ProcessTraced(t, maxBytes).r.fin == t.r.fin && ProcessTraced(t, maxBytes).r.eof == t.r.eof
    decreases |t.r.queue|
  {
    hide Add, Fits, InOrder, Lurks, BytesOf, Comes, Congruent, InStream;
    NextIndex(s.base, t.r.passed);
    var next := Add(t.r.ack, 1);
    if next !in t.from {
      NoneLurks(s.base, t.from, t.r.passed);
    } else {
      TakeTraces(t, s, maxBytes);
      TakeOrder(t, maxBytes);
      TakeLurks(s.base, t.from, t.r.passed);
      FewerItems(t.r.queue, next);
      ProcessTraces(TakeTraced(t, maxBytes), s, maxBytes);
    }
  }

  lemma PutTraces(t: Traced, s: Stream, i: nat, capacity: nat)
    requires Traces(t, s) && 1 <= i <= s.Last() && (i == s.Last() ==> t.r.fin.Some?)
    ensures Traces(Put(t, s, i, capacity), s)
  {
    hide Add, BytesOf, Congruent, InStream, Enqueued;
    var p, u := s.PacketAt(i), Put(t, s, i, capacity);
    EnqueuedFrom(t.r.queue, capacity, p.seqNr, p);
    EnqueuedFrom(t.from, capacity, p.seqNr, i);
    forall k <- u.from ensures Comes(u, s, k) {
      if k != p.seqNr {
        assert Comes(t, s, k);
      }
    }
  }

  lemma EnqueuedFrom<T>(items: map<nat, T>, capacity: nat, key: nat, item: T)
    ensures var after := Enqueued(items, capacity, key, item);
      key in after && after[key] == item && forall k <- after :: k == key || (k in items && after[k] == items[k])
  {
  }

  lemma NotedTraces(t: Traced, s: Stream, i: nat)
    requires Traces(t, s) && 1 <= i <= s.Last()
    ensures var u := t.(r := NoteFin(t.r, s.PacketAt(i))); Traces(u, s) && (i == s.Last() ==> u.r.fin.Some?)
  {
    hide Add, BytesOf, Congruent, InStream;
    var u := t.(r := NoteFin(t.r, s.PacketAt(i)));
    forall k <- u.from ensures Comes(u, s, k) {
      assert Comes(t, s, k);
    }
  }

  lemma EofTraces(t: Traced, s: Stream)
    requires Traces(t, s)
    ensures Traces(t.(r := NoteEof(t.r)), s)
  {
    hide Add, BytesOf, Congruent, InStream;
    var u := t.(r := NoteEof(t.r));
    forall k <- u.from ensures Comes(u, s, k) {
      assert Comes(t, s, k);
    }
  }

  /** One arrival, whatever its age: it keeps the order exactly when it does not make a misplaced packet due. */
  lemma HandleTraces(t: Traced, s: Stream, i: nat, capacity: nat, maxBytes: nat)
    requires Traces(t, s) && Settled(t.r) && Fits(s, maxBytes) && 1 <= i <= s.Last()
    ensures var u := HandleTraced(t, s, i, capacity, maxBytes);
      && Traces(u, s) && Settled(u.r) && t.r.passed <= u.r.passed
      && (InOrder(u.taken) <==> InOrder(t.taken) && !Disturbs(t, s, i, capacity))
  {
    hide Traces, Fits, InOrder, Lurks, Add, Enqueued, NoteEof, NoteFin, ProcessTraced;
    var p := s.PacketAt(i);
    if !Ignored(t.r, p) {
      var noted := t.(r := NoteFin(t.r, p));
      NotedTraces(t, s, i);
      NotedKeeps(t.r, p);
      TracesKeys(t, s);
      NothingTraced(noted, maxBytes);
      PutTraces(noted, s, i, capacity);
      var put := Put(noted, s, i, capacity);
      ProcessTraces(put, s, maxBytes);
      EofTraces(ProcessTraced(put, maxBytes), s);
      EofKeeps(ProcessTraced(put, maxBytes).r);
      EofKeepsPassed(ProcessTraced(put, maxBytes).r);
    }
  }

  lemma TracesKeys(t: Traced, s: Stream)
    requires Traces(t, s)
    ensures SameKeys(t)
  {
  }

  lemma NotedKeeps(r: Receiver, p: Packet)
    ensures NoteFin(r, p) == r.(fin := NoteFin(r, p).fin)
  {
  }

  lemma EofKeepsPassed(r: Receiver)
    ensures NoteEof(r) == r.(eof := NoteEof(r).eof)
  {
  }

  lemma NothingTraced(t: Traced, maxBytes: nat)
    requires SameKeys(t) && Settled(t.r)
    ensures ProcessTraced(t, maxBytes) == t
  {
  }

  lemma BeginTraces(s: Stream)
    ensures Traces(Begin(s.base), s) && Settled(Begin(s.base).r) && InOrder(Begin(s.base).taken)
  {
  }

  lemma {:induction false} TraceBreaks(t: Traced, s: Stream, arrivals: seq<nat>, capacity: nat, maxBytes: nat)
    requires Traces(t, s) && Settled(t.r) && Fits(s, maxBytes) && InStream(s, arrivals)
    ensures var u := Trace(t, s, arrivals, capacity, maxBytes);
      && Traces(u, s) && Settled(u.r)
      && (InOrder(u.taken) <==> InOrder(t.taken) && Undisturbed(t, s, arrivals, capacity, maxBytes))
    decreases |arrivals|
  {
    hide Settled, Fits, InOrder, HandleTraced, Disturbs, BytesOf, Congruent, Comes, Add;
    if arrivals == [] {
    } else {
      HandleTraces(t, s, arrivals[0], capacity, maxBytes);
      TraceBreaks(HandleTraced(t, s, arrivals[0], capacity, maxBytes), s, arrivals[1..], capacity, maxBytes);
    }
  }

  /**
   For whatever arrives of what was sent: the packets are passed on in order exactly when no arrival makes a packet
   due that is queued in another's place.
   */
  lemma OrderBreaksExactly(s: Stream, arrivals: seq<nat>, capacity: nat, maxBytes: nat)
    requires Fits(s, maxBytes) && InStream(s, arrivals)
    ensures var t := Trace(Begin(s.base), s, arrivals, capacity, maxBytes);
      && t.r == Run(Start(s.base), s, arrivals, capacity, maxBytes)
      && InStream(s, t.taken) && |t.taken| == t.r.passed && t.r.received == BytesOf(s, t.taken)
      && (InOrder(t.taken) <==> Undisturbed(Begin(s.base), s, arrivals, capacity, maxBytes))
  {
    hide Trace, Undisturbed, BytesOf, Congruent, Comes, Add;
    BeginTraces(s);
    TraceBreaks(Begin(s.base), s, arrivals, capacity, maxBytes);
  }

  // ---- In order is a prefix ----

  lemma {:induction false} InOrderBytes(s: Stream, taken: seq<nat>)
    requires InStream(s, taken) && InOrder(taken)
    ensures |taken| <= s.Last() && BytesOf(s, taken) == s.Bytes(|taken|)
  {
    if taken == [] {
    } else {
      var before := taken[..|taken| - 1];
      assert taken[|taken| - 1] == |taken|;
      InOrderBytes(s, before);
    }
  }

  /** No packet arrives a whole turn of the sequence numbers early, as senders keep their window below that. */
  ghost predicate WithinTurn(r: Receiver, s: Stream, arrivals: seq<nat>, capacity: nat, maxBytes: nat)
    decreases |arrivals|
  {
    arrivals == [] ||
    (1 <= arrivals[0] <= s.Last() && arrivals[0] < r.passed + MODULUS
     && WithinTurn(Handle(r, s.PacketAt(arrivals[0]), capacity, maxBytes), s, arrivals[1..], capacity, maxBytes))
  }

  lemma {:induction false} WithinTurnIsInStream(r: Receiver, s: Stream, arrivals: seq<nat>, capacity: nat, maxBytes: nat)
    requires WithinTurn(r, s, arrivals, capacity, maxBytes)
    ensures InStream(s, arrivals)
    decreases |arrivals|
  {
    hide Handle;
    if arrivals == [] {
    } else {
      WithinTurnIsInStream(Handle(r, s.PacketAt(arrivals[0]), capacity, maxBytes), s, arrivals[1..], capacity, maxBytes);
      assert forall k :: 1 <= k < |arrivals| ==> arrivals[k] == arrivals[1..][k - 1];
    }
  }

  /** A known FIN is less than a turn ahead, and the end has been reported exactly when it has been passed on. */
  predicate Ends(t: Traced, s: Stream) {
    && (t.r.fin.Some? ==> s.Last() < t.r.passed + MODULUS)
    && (t.r.eof <==> t.r.passed == s.Last())
  }

  lemma HandleEnds(t: Traced, s: Stream, i: nat, capacity: nat, maxBytes: nat)
    requires Traces(t, s) && Settled(t.r) && Fits(s, maxBytes) && 1 <= i <= s.Last() && i < t.r.passed + MODULUS
    requires Ends(t, s) && InOrder(HandleTraced(t, s, i, capacity, maxBytes).taken)
    ensures Ends(HandleTraced(t, s, i, capacity, maxBytes), s)
  {
    hide Traces, Settled, Fits, InOrder, Add, Put, ProcessTraced, Gt;
    var p := s.PacketAt(i);
    TracesKeys(t, s);
    if !Ignored(t.r, p) {
      var noted := t.(r := NoteFin(t.r, p));
      NotedTraces(t, s, i);
      NotedSettled(t.r, p);
      NothingTraced(noted, maxBytes);
      PutTraces(noted, s, i, capacity);
      var done := ProcessTraced(Put(noted, s, i, capacity), maxBytes);
      PutKeeps(noted, s, i, capacity);
      ProcessTraces(Put(noted, s, i, capacity), s, maxBytes);
      InOrderEnds(done, s);
    }
  }

  lemma NotedSettled(r: Receiver, p: Packet)
    requires Settled(r)
    ensures Settled(NoteFin(r, p))
  {
  }

  lemma PutKeeps(t: Traced, s: Stream, i: nat, capacity: nat)
    requires SameKeys(t) && 1 <= i <= s.Last()
    ensures var u := Put(t, s, i, capacity);
      u.r == t.r.(queue := u.r.queue) && u.taken == t.taken && u.from == Enqueued(t.from, capacity, s.PacketAt(i).seqNr, i)
  {
    hide Enqueued;
  }

  /** When the packets were taken in order, a FIN less than a turn ahead has been reached exactly when all are passed on. */
  lemma InOrderEnds(t: Traced, s: Stream)
    requires Traces(t, s) && InOrder(t.taken) && (t.r.fin.Some? ==> s.Last() < t.r.passed + MODULUS)
    ensures t.r.passed <= s.Last() && (t.r.fin == Some(t.r.ack) <==> t.r.passed == s.Last())
  {
    hide Add, Comes, Congruent;
    InOrderBytes(s, t.taken);
    if t.r.passed == s.Last() {
      assert t.taken[s.Last() - 1] == s.Last();
    } else if t.r.fin.Some? {
      OtherKeys(s.base, t.r.passed, s.Last());
    }
  }

  lemma {:induction false} TraceEnds(t: Traced, s: Stream, arrivals: seq<nat>, capacity: nat, maxBytes: nat)
    requires Traces(t, s) && Settled(t.r) && Fits(s, maxBytes) && InStream(s, arrivals)
    requires Ends(t, s) && InOrder(t.taken) && Undisturbed(t, s, arrivals, capacity, maxBytes)
    requires WithinTurn(t.r, s, arrivals, capacity, maxBytes)
    ensures Ends(Trace(t, s, arrivals, capacity, maxBytes), s)
    decreases |arrivals|
  {
    hide Settled, Fits, InOrder, HandleTraced, Handle, Disturbs, BytesOf, Congruent, Comes, Add, Ends;
    if arrivals == [] {
    } else {
      HandleTraces(t, s, arrivals[0], capacity, maxBytes);
      HandleEnds(t, s, arrivals[0], capacity, maxBytes);
      TraceEnds(HandleTraced(t, s, arrivals[0], capacity, maxBytes), s, arrivals[1..], capacity, maxBytes);
    }
  }

  /** In a run that is not disturbed the bytes passed on are those of the packets in order, and so a prefix of the stream. */
  lemma PrefixWhileUndisturbed(s: Stream, arrivals: seq<nat>, capacity: nat, maxBytes: nat)
    requires Fits(s, maxBytes) && InStream(s, arrivals) && Undisturbed(Begin(s.base), s, arrivals, capacity, maxBytes)
    ensures var r := Run(Start(s.base), s, arrivals, capacity, maxBytes);
      && r.passed <= s.Last() && r.received == s.Bytes(r.passed) && r.received <= s.Bytes(s.Last())
      && (WithinTurn(Start(s.base), s, arrivals, capacity, maxBytes) ==> (r.eof <==> r.passed == s.Last()))
  {
    hide Trace, Undisturbed, BytesOf, InOrder, Add, Run, WithinTurn, Traces, Fits, InStream;
    OrderBreaksExactly(s, arrivals, capacity, maxBytes);
    var t := Trace(Begin(s.base), s, arrivals, capacity, maxBytes);
    InOrderBytes(s, t.taken);
    BytesArePrefix(s, t.r.passed, s.Last());
    if WithinTurn(Start(s.base), s, arrivals, capacity, maxBytes) {
      BeginTraces(s);
      TraceEnds(Begin(s.base), s, arrivals, capacity, maxBytes);
    }
  }

  // ---- Arrivals within the window ----

  /** Only packets of the window ahead are queued. */
  predicate InWindow(t: Traced) {
    forall k <- t.from :: t.r.passed < t.from[k] < t.r.passed + MODULUS
  }

  lemma TakeStaysInWindow(t: Traced, s: Stream, maxBytes: nat)
    requires Traces(t, s) && InWindow(t) && Add(t.r.ack, 1) in t.from
    ensures InWindow(TakeTraced(t, maxBytes))
  {
    hide Add, BytesOf, Congruent, InStream;
    NextIndex(s.base, t.r.passed);
    var u := TakeTraced(t, maxBytes);
    forall k <- u.from ensures u.r.passed < u.from[k] < u.r.passed + MODULUS {
      assert Comes(t, s, k);
    }
  }

  lemma {:induction false} ProcessStaysInWindow(t: Traced, s: Stream, maxBytes: nat)
    requires Traces(t, s) && Fits(s, maxBytes) && InWindow(t)
    ensures InWindow(ProcessTraced(t, maxBytes))
    decreases |t.r.queue|
  {
    hide Add, Fits, BytesOf, Congruent, InStream, InWindow, Traces;
    TracesKeys(t, s);
    var next := Add(t.r.ack, 1);
    if next !in t.from {
    } else {
      TakeTraces(t, s, maxBytes);
      FewerItems(t.r.queue, next);
      TakeStaysInWindow(t, s, maxBytes);
      ProcessStaysInWindow(TakeTraced(t, maxBytes), s, maxBytes);
    }
  }

  /** In the window each number stands for one packet, so nothing is in another's place. */
  lemma WindowHidesNothing(t: Traced, s: Stream)
    requires Traces(t, s) && InWindow(t)
    ensures !Lurks(s.base, t.from, t.r.passed)
  {
    hide Add, BytesOf, Congruent, InStream;
    forall n: nat | t.r.passed < n <= t.r.passed + MODULUS ensures !LurksAt(s.base, t.from, t.r.passed, n) {
      if LurksAt(s.base, t.from, t.r.passed, n) {
        assert Comes(t, s, Add(s.base, n));
        OtherKeys(s.base, t.from[Add(s.base, n)], n);
        assert false;
      }
    }
  }

  lemma HandleStaysInWindow(t: Traced, s: Stream, i: nat, capacity: nat, maxBytes: nat)
    requires Traces(t, s) && Settled(t.r) && Fits(s, maxBytes) && Arrives(s, t.r.passed, i) && InWindow(t)
    ensures InWindow(HandleTraced(t, s, i, capacity, maxBytes)) && !Disturbs(t, s, i, capacity)
  {
    hide Traces, Settled, Fits, Add, Put, ProcessTraced, Gt, Enqueued, Lurks;
    var p := s.PacketAt(i);
    TracesKeys(t, s);
    AckIs(t, s);
    if !Ignored(t.r, p) {
      var noted := t.(r := NoteFin(t.r, p));
      NotedTraces(t, s, i);
      NotedSettled(t.r, p);
      NothingTraced(noted, maxBytes);
      PutTraces(noted, s, i, capacity);
      PutKeeps(noted, s, i, capacity);
      EnqueuedFrom(t.from, capacity, p.seqNr, i);
      WindowHidesNothing(Put(noted, s, i, capacity), s);
      ProcessStaysInWindow(Put(noted, s, i, capacity), s, maxBytes);
    }
  }

  lemma AckIs(t: Traced, s: Stream)
    requires Traces(t, s)
    ensures t.r.ack == Add(s.base, t.r.passed)
  {
  }

  lemma {:induction false} WindowIsUndisturbed(t: Traced, s: Stream, arrivals: seq<nat>, capacity: nat, maxBytes: nat)
    requires Traces(t, s) && Settled(t.r) && Fits(s, maxBytes) && InWindow(t) && InStream(s, arrivals)
    requires AllArrive(t.r, s, arrivals, capacity, maxBytes)
    ensures Undisturbed(t, s, arrivals, capacity, maxBytes) && WithinTurn(t.r, s, arrivals, capacity, maxBytes)
    decreases |arrivals|
  {
    hide Settled, Fits, InOrder, HandleTraced, Handle, Disturbs, BytesOf, Congruent, Comes, Add, InWindow;
    if arrivals == [] {
    } else {
      HandleTraces(t, s, arrivals[0], capacity, maxBytes);
      HandleStaysInWindow(t, s, arrivals[0], capacity, maxBytes);
      WindowIsUndisturbed(HandleTraced(t, s, arrivals[0], capacity, maxBytes), s, arrivals[1..], capacity, maxBytes);
    }
  }

  /** The runs of ReceivedIsPrefix, in which nothing older than the last acknowledgement arrives, are such runs. */
  lemma WindowRunsAreUndisturbed(s: Stream, arrivals: seq<nat>, capacity: nat, maxBytes: nat)
    requires Fits(s, maxBytes) && AllArrive(Start(s.base), s, arrivals, capacity, maxBytes)
    ensures InStream(s, arrivals) && Undisturbed(Begin(s.base), s, arrivals, capacity, maxBytes)
    ensures WithinTurn(Start(s.base), s, arrivals, capacity, maxBytes)
  {
    hide AllArrive, Undisturbed, WithinTurn, Fits, Add;
    ReceivedIsPrefix(s, arrivals, capacity, maxBytes);
    BeginTraces(s);
    WindowIsUndisturbed(Begin(s.base), s, arrivals, capacity, maxBytes);
  }

  // ---- Short streams ----

  lemma {:induction false} ShortIsInOrder(s: Stream, taken: seq<nat>)
    requires s.Last() < MODULUS && InStream(s, taken) && Congruent(s, taken)
    ensures InOrder(taken) && |taken| <= s.Last()
  {
    hide Add;
    if taken == [] {
    } else {
      var n := |taken| - 1;
      ShortIsInOrder(s, taken[..n]);
      if taken[n] != n + 1 {
        OtherKeys(s.base, taken[n], n + 1);
      }
    }
  }

  lemma {:induction false} ShortIsWithinTurn(r: Receiver, s: Stream, arrivals: seq<nat>, capacity: nat, maxBytes: nat)
    requires s.Last() < MODULUS && InStream(s, arrivals)
    ensures WithinTurn(r, s, arrivals, capacity, maxBytes)
    decreases |arrivals|
  {
    hide Handle;
    if arrivals == [] {
    } else {
      ShortIsWithinTurn(Handle(r, s.PacketAt(arrivals[0]), capacity, maxBytes), s, arrivals[1..], capacity, maxBytes);
    }
  }

  /** A stream of fewer than 2^16 packets survives old duplicates of any age, with any loss, reordering and eviction. */
  lemma ShortStreamsAreSafe(s: Stream, arrivals: seq<nat>, capacity: nat, maxBytes: nat)
    requires s.Last() < MODULUS && Fits(s, maxBytes) && InStream(s, arrivals)
    ensures Undisturbed(Begin(s.base), s, arrivals, capacity, maxBytes)
    ensures var r := Run(Start(s.base), s, arrivals, capacity, maxBytes);
      && r.passed <= s.Last() && r.received == s.Bytes(r.passed) && r.received <= s.Bytes(s.Last())
      && (r.eof <==> r.passed == s.Last())
  {
    hide Trace, Undisturbed, BytesOf, InOrder, Add, Run, WithinTurn, Fits, InStream, Comes;
    BeginTraces(s);
    TraceBreaks(Begin(s.base), s, arrivals, capacity, maxBytes);
    ShortIsInOrder(s, Trace(Begin(s.base), s, arrivals, capacity, maxBytes).taken);
    ShortIsWithinTurn(Start(s.base), s, arrivals, capacity, maxBytes);
    PrefixWhileUndisturbed(s, arrivals, capacity, maxBytes);
  }

  // ---- Longer streams: when the bytes break ----

  /** No packet is empty, and of two packets with the same number neither begins the other. */
  predicate Distinguishable(s: Stream) {
    && (forall d <- s.data :: d != [])
    && forall a, b :: 0 <= a < b < |s.data| && (b - a) % MODULUS == 0 ==> !(s.data[a] <= s.data[b]) && !(s.data[b] <= s.data[a])
  }

  /** What is queued or was taken is at most as new as its place. */
  predicate Lags(t: Traced) {
    && (forall k <- t.from :: t.from[k] < t.r.passed + MODULUS)
    && forall n :: 0 <= n < |t.taken| ==> t.taken[n] <= n + 1
  }

  lemma Behind(base: nat, i: int, n: int)
    requires i < n + MODULUS && Add(base, i) == Add(base, n)
    ensures i <= n && (n - i) % MODULUS == 0
  {
  }

  lemma TakeLags(t: Traced, s: Stream, maxBytes: nat)
    requires Traces(t, s) && Lags(t) && Add(t.r.ack, 1) in t.from
    ensures Lags(TakeTraced(t, maxBytes))
  {
    hide Add, BytesOf, Congruent, InStream;
    NextIndex(s.base, t.r.passed);
    var next := Add(t.r.ack, 1);
    assert Comes(t, s, next);
    Behind(s.base, t.from[next], t.r.passed + 1);
  }

  lemma {:induction false} ProcessLags(t: Traced, s: Stream, maxBytes: nat)
    requires Traces(t, s) && Fits(s, maxBytes) && Lags(t)
    ensures Lags(ProcessTraced(t, maxBytes))
    decreases |t.r.queue|
  {
    hide Add, Fits, BytesOf, Congruent, InStream, Lags, Traces;
    TracesKeys(t, s);
    var next := Add(t.r.ack, 1);
    if next !in t.from {
    } else {
      TakeTraces(t, s, maxBytes);
      FewerItems(t.r.queue, next);
      TakeLags(t, s, maxBytes);
      ProcessLags(TakeTraced(t, maxBytes), s, maxBytes);
    }
  }

  lemma HandleLags(t: Traced, s: Stream, i: nat, capacity: nat, maxBytes: nat)
    requires Traces(t, s) && Settled(t.r) && Fits(s, maxBytes) && 1 <= i <= s.Last() && i < t.r.passed + MODULUS && Lags(t)
    ensures Lags(HandleTraced(t, s, i, capacity, maxBytes))
  {
    hide Traces, Settled, Fits, Add, Put, ProcessTraced, Gt, Enqueued;
    var p := s.PacketAt(i);
    TracesKeys(t, s);
    if !Ignored(t.r, p) {
      var noted := t.(r := NoteFin(t.r, p));
      NotedTraces(t, s, i);
      NotedSettled(t.r, p);
      NothingTraced(noted, maxBytes);
      PutTraces(noted, s, i, capacity);
      PutKeeps(noted, s, i, capacity);
      EnqueuedFrom(t.from, capacity, p.seqNr, i);
      ProcessLags(Put(noted, s, i, capacity), s, maxBytes);
    }
  }

  lemma {:induction false} TraceLags(t: Traced, s: Stream, arrivals: seq<nat>, capacity: nat, maxBytes: nat)
    requires Traces(t, s) && Settled(t.r) && Fits(s, maxBytes) && Lags(t)
    requires InStream(s, arrivals) && WithinTurn(t.r, s, arrivals, capacity, maxBytes)
    ensures Lags(Trace(t, s, arrivals, capacity, maxBytes))
    decreases |arrivals|
  {
    hide Settled, Fits, InOrder, HandleTraced, Handle, Disturbs, BytesOf, Congruent, Comes, Add, Lags;
    if arrivals == [] {
    } else {
      HandleTraces(t, s, arrivals[0], capacity, maxBytes);
      HandleLags(t, s, arrivals[0], capacity, maxBytes);
      TraceLags(HandleTraced(t, s, arrivals[0], capacity, maxBytes), s, arrivals[1..], capacity, maxBytes);
    }
  }

  /** The first packet out of order shows in the bytes, whatever comes behind it. */
  lemma {:induction false} BreakShows(s: Stream, taken: seq<nat>)
    requires Distinguishable(s) && InStream(s, taken) && Congruent(s, taken)
    requires (forall n :: 0 <= n < |taken| ==> taken[n] <= n + 1) && !InOrder(taken)
    ensures !(BytesOf(s, taken) <= s.Bytes(s.Last()))
  {
    hide Add, Distinguishable;
    var n := |taken| - 1;
    var before := taken[..n];
    assert forall k :: 0 <= k < n ==> before[k] == taken[k];
    if InOrder(before) {
      InOrderBytes(s, before);
      Behind(s.base, taken[n], n + 1);
      MistakenShows(s, n, taken[n]);
    } else {
      BreakShows(s, before);
    }
  }

  lemma EndsWith(s: Stream, n: nat)
    requires n <= s.Last() <= n + 1
    ensures |s.Bytes(s.Last())| == |s.Bytes(n)|
  {
    if n + 1 == s.Last() {
      assert s.Bytes(n + 1) == s.Bytes(n) + s.PacketAt(n + 1).data;
    }
  }

  lemma MistakenShows(s: Stream, n: nat, i: nat)
    requires Distinguishable(s) && n <= s.Last() && 1 <= i <= n && (n + 1 - i) % MODULUS == 0
    ensures !(s.Bytes(n) + s.PacketAt(i).data <= s.Bytes(s.Last()))
  {
    hide Add, Distinguishable;
    assert i < s.Last();
    if n + 1 < s.Last() {
      ToldApart(s, i, n + 1);
      BytesArePrefix(s, n + 1, s.Last());
      if s.Bytes(n) + s.PacketAt(i).data <= s.Bytes(s.Last()) {
        OneBeginsOther(s.Bytes(n), s.data[i - 1], s.data[n], s.Bytes(s.Last()));
        assert false;
      }
    } else {
      NotEmpty(s, i);
      EndsWith(s, n);
    }
  }

  lemma ToldApart(s: Stream, i: nat, n: nat)
    requires Distinguishable(s) && 1 <= i < n < s.Last() && (n - i) % MODULUS == 0
    ensures !(s.data[i - 1] <= s.data[n - 1]) && !(s.data[n - 1] <= s.data[i - 1])
  {
    assert ((n - 1) - (i - 1)) % MODULUS == 0;
  }

  lemma NotEmpty(s: Stream, i: nat)
    requires Distinguishable(s) && 1 <= i < s.Last()
    ensures s.PacketAt(i).data != []
  {
    assert s.data[i - 1] in s.data;
  }

  /** Of two strings that follow the same prefix of one text, one begins the other. */
  lemma OneBeginsOther(prefix: ByteStrings.Bytes, a: ByteStrings.Bytes, b: ByteStrings.Bytes, all: ByteStrings.Bytes)
    requires prefix + a <= all && prefix + b <= all
    ensures a <= b || b <= a
  {
    var n := |prefix|;
    assert a == (prefix + a)[n..] && b == (prefix + b)[n..];
    assert a == all[n..n + |a|] && b == all[n..n + |b|];
  }

  /**
   For a stream of any length whose packets can be told apart, of which none arrives a turn early: the bytes passed on
   are a prefix of the stream exactly when no old duplicate is still queued when its number is next.
   */
  lemma PrefixBreaksExactly(s: Stream, arrivals: seq<nat>, capacity: nat, maxBytes: nat)
    requires Fits(s, maxBytes) && Distinguishable(s) && WithinTurn(Start(s.base), s, arrivals, capacity, maxBytes)
    ensures InStream(s, arrivals)
    ensures Run(Start(s.base), s, arrivals, capacity, maxBytes).received <= s.Bytes(s.Last()) <==>
      Undisturbed(Begin(s.base), s, arrivals, capacity, maxBytes)
  {
    hide Trace, Undisturbed, BytesOf, InOrder, Add, Run, WithinTurn, Fits, InStream, Comes, Congruent, Distinguishable;
    WithinTurnIsInStream(Start(s.base), s, arrivals, capacity, maxBytes);
    BeginTraces(s);
    TraceBreaks(Begin(s.base), s, arrivals, capacity, maxBytes);
    TraceLags(Begin(s.base), s, arrivals, capacity, maxBytes);
    var t := Trace(Begin(s.base), s, arrivals, capacity, maxBytes);
    if InOrder(t.taken) {
      PrefixWhileUndisturbed(s, arrivals, capacity, maxBytes);
    } else {
      BreakShows(s, t.taken);
    }
  }

  // ---- Longer streams do break ----

  function Firsts(n: nat): seq<nat> {
    if n == 0 then [] else Firsts(n - 1) + [n]
  }

  lemma {:induction false} FirstsAre(s: Stream, n: nat)
    requires n <= s.Last()
    ensures InStream(s, Firsts(n))
  {
    if n == 0 {
    } else {
      FirstsAre(s, n - 1);
    }
  }

  lemma Parts(s: Stream, a: seq<nat>, b: seq<nat>)
    requires InStream(s, a) && InStream(s, b)
    ensures InStream(s, a + b)
    ensures a != [] ==> 1 <= a[0] <= s.Last() && InStream(s, a[1..]) && (a + b)[0] == a[0] && (a + b)[1..] == a[1..] + b
  {
    if a != [] {
      assert (a + b)[1..] == a[1..] + b;
    }
  }

  lemma {:induction false} TraceJoin(t: Traced, s: Stream, a: seq<nat>, b: seq<nat>, capacity: nat, maxBytes: nat)
    requires SameKeys(t) && InStream(s, a) && InStream(s, b)
    ensures InStream(s, a + b)
    ensures Trace(t, s, a + b, capacity, maxBytes) == Trace(Trace(t, s, a, capacity, maxBytes), s, b, capacity, maxBytes)
    decreases |a|
  {
    hide HandleTraced, Handle, Run, InStream;
    Parts(s, a, b);
    if a == [] {
      assert a + b == b;
    } else {
      TraceJoin(HandleTraced(t, s, a[0], capacity, maxBytes), s, a[1..], b, capacity, maxBytes);
    }
  }

  lemma {:induction false} UndisturbedJoin(t: Traced, s: Stream, a: seq<nat>, b: seq<nat>, capacity: nat, maxBytes: nat)
    requires SameKeys(t) && InStream(s, a) && InStream(s, b)
    ensures InStream(s, a + b)
    ensures Undisturbed(t, s, a + b, capacity, maxBytes) <==>
      Undisturbed(t, s, a, capacity, maxBytes) && Undisturbed(Trace(t, s, a, capacity, maxBytes), s, b, capacity, maxBytes)
    decreases |a|
  {
    hide HandleTraced, Handle, Run, Disturbs, InStream;
    Parts(s, a, b);
    if a == [] {
      assert a + b == b;
    } else {
      UndisturbedJoin(HandleTraced(t, s, a[0], capacity, maxBytes), s, a[1..], b, capacity, maxBytes);
    }
  }

  lemma {:induction false} WithinTurnJoin(r: Receiver, s: Stream, a: seq<nat>, b: seq<nat>, capacity: nat, maxBytes: nat)
    requires InStream(s, a) && InStream(s, b)
    ensures WithinTurn(r, s, a + b, capacity, maxBytes) <==>
      WithinTurn(r, s, a, capacity, maxBytes) && WithinTurn(Run(r, s, a, capacity, maxBytes), s, b, capacity, maxBytes)
    decreases |a|
  {
    hide Handle, InStream;
    Parts(s, a, b);
    if a == [] {
      assert a + b == b;
    } else {
      WithinTurnJoin(Handle(r, s.PacketAt(a[0]), capacity, maxBytes), s, a[1..], b, capacity, maxBytes);
    }
  }

  /** The receiver when the first `n` packets have arrived in order. */
  function AfterFirsts(s: Stream, n: nat): Traced
    requires n <= s.Last()
  {
    Traced(Receiver(Add(s.base, n), map[], None, s.Bytes(n), false, n), map[], Firsts(n))
  }

  lemma NextInOrder(s: Stream, n: nat, capacity: nat, maxBytes: nat)
    requires n + 1 < s.Last() && Fits(s, maxBytes) && capacity >= 1
    ensures HandleTraced(AfterFirsts(s, n), s, n + 1, capacity, maxBytes) == AfterFirsts(s, n + 1)
  {
    hide Add, Process;
    var t, p := AfterFirsts(s, n), s.PacketAt(n + 1);
    NextIndex(s.base, n);
    OtherKeys(s.base, n, n + 1);
    NextIndex(s.base, n + 1);
    OtherKeys(s.base, n + 1, n + 2);
    var put := Put(t, s, n + 1, capacity);
    assert put.from == map[p.seqNr := n + 1] && put.r.queue == map[p.seqNr := p];
    var u := TakeTraced(put, maxBytes);
    assert u.from == map[] && u.r.queue == map[];
    assert u == AfterFirsts(s, n + 1);
    NothingTraced(u, maxBytes);
    assert ProcessTraced(put, maxBytes) == ProcessTraced(u, maxBytes);
  }

  lemma TraceOfNone(t: Traced, s: Stream, capacity: nat, maxBytes: nat)
    requires SameKeys(t)
    ensures InStream(s, []) && Trace(t, s, [], capacity, maxBytes) == t && WithinTurn(t.r, s, [], capacity, maxBytes)
  {
  }

  lemma OneArrival(t: Traced, s: Stream, i: nat, capacity: nat, maxBytes: nat)
    requires SameKeys(t) && 1 <= i <= s.Last()
    ensures InStream(s, [i]) && Trace(t, s, [i], capacity, maxBytes) == HandleTraced(t, s, i, capacity, maxBytes)
    ensures WithinTurn(t.r, s, [i], capacity, maxBytes) <==> i < t.r.passed + MODULUS
    ensures Undisturbed(t, s, [i], capacity, maxBytes) <==> !Disturbs(t, s, i, capacity)
  {
    hide HandleTraced, Handle, Disturbs;
  }

  lemma {:induction false} FirstsPass(s: Stream, n: nat, capacity: nat, maxBytes: nat)
    requires n < s.Last() && Fits(s, maxBytes) && capacity >= 1
    ensures InStream(s, Firsts(n)) && Trace(Begin(s.base), s, Firsts(n), capacity, maxBytes) == AfterFirsts(s, n)
    ensures WithinTurn(Start(s.base), s, Firsts(n), capacity, maxBytes)
  {
    hide HandleTraced, Handle, Add, Fits, Trace, WithinTurn, Run, InStream, Undisturbed;
    TraceOfNone(Begin(s.base), s, capacity, maxBytes);
    FirstsAre(s, n);
    if n == 0 {
    } else {
      FirstsPass(s, n - 1, capacity, maxBytes);
      NextInOrder(s, n - 1, capacity, maxBytes);
      OneArrival(AfterFirsts(s, n - 1), s, n, capacity, maxBytes);
      TraceJoin(Begin(s.base), s, Firsts(n - 1), [n], capacity, maxBytes);
      WithinTurnJoin(Start(s.base), s, Firsts(n - 1), [n], capacity, maxBytes);
    }
  }

  /** The first packet once more, just before a turn is complete: it is queued, and nothing is passed on. */
  lemma DuplicateIsQueued(s: Stream, n: nat, capacity: nat, maxBytes: nat)
    requires n == MODULUS - 1 && n < s.Last() && capacity >= 1
    ensures var t := AfterFirsts(s, n);
      var u := HandleTraced(t, s, 1, capacity, maxBytes);
      u == t.(r := t.r.(queue := map[Add(s.base, 1) := s.PacketAt(1)]), from := map[Add(s.base, 1) := 1])
  {
    hide Add, Process, Stream.Bytes;
    var t := AfterFirsts(s, n);
    NextIndex(s.base, n);
    OtherKeys(s.base, n, 1);
    OtherKeys(s.base, n + 1, 1);
    var put := Put(t, s, 1, capacity);
    assert put.from == map[Add(s.base, 1) := 1] && put.r.queue == map[Add(s.base, 1) := s.PacketAt(1)];
    NothingTraced(put, maxBytes);
  }

  /** The next packet in order then makes it due. */
  lemma NextDisturbs(s: Stream, n: nat, t: Traced, capacity: nat)
    requires n == MODULUS - 1 && n < s.Last() && capacity >= 2
    requires t.from == map[Add(s.base, 1) := 1] && t.r.ack == Add(s.base, n) && t.r.fin.None? && t.r.passed == n
    ensures Disturbs(t, s, n + 1, capacity)
  {
    hide Add;
    OtherKeys(s.base, n, n + 1);
    OtherKeys(s.base, n + 1, 1);
    Turn(s.base, 1);
    var from := Enqueued(t.from, capacity, Add(s.base, n + 1), n + 1);
    assert |t.from| == 1;
    assert from == map[Add(s.base, 1) := 1, Add(s.base, n + 1) := n + 1];
    assert LurksAt(s.base, from, n, n + 2);
  }

  function Replayed(n: nat): seq<nat> {
    Firsts(n) + [1] + [n + 1]
  }

  /**
   In every longer stream it can happen with a queue of two: 65535 packets in order, the first one again, which changes
   nothing that was received, and then packet 65536, behind which the first one is received once more.
   */
  lemma LongStreamsBreak(s: Stream, capacity: nat, maxBytes: nat)
    requires s.Last() >= MODULUS && Fits(s, maxBytes) && capacity >= 2
    ensures var arrivals := Replayed(MODULUS - 1);
      && InStream(s, arrivals) && WithinTurn(Start(s.base), s, arrivals, capacity, maxBytes)
      && !Undisturbed(Begin(s.base), s, arrivals, capacity, maxBytes)
  {
    LongStreamBreaks(s, MODULUS - 1, capacity, maxBytes);
  }

  lemma LongStreamBreaks(s: Stream, n: nat, capacity: nat, maxBytes: nat)
    requires n == MODULUS - 1 && n < s.Last() && Fits(s, maxBytes) && capacity >= 2
    ensures InStream(s, Replayed(n)) && WithinTurn(Start(s.base), s, Replayed(n), capacity, maxBytes)
    ensures !Undisturbed(Begin(s.base), s, Replayed(n), capacity, maxBytes)
  {
    hide HandleTraced, Handle, Add, Fits, Trace, Undisturbed, WithinTurn, InStream, Disturbs, Firsts, Stream.Bytes;
    var t := AfterFirsts(s, n);
    FirstsPass(s, n, capacity, maxBytes);
    DuplicateIsQueued(s, n, capacity, maxBytes);
    var u := HandleTraced(t, s, 1, capacity, maxBytes);
    OneArrival(t, s, 1, capacity, maxBytes);
    OneArrival(u, s, n + 1, capacity, maxBytes);
    TraceJoin(Begin(s.base), s, Firsts(n), [1], capacity, maxBytes);
    WithinTurnJoin(Start(s.base), s, Firsts(n), [1], capacity, maxBytes);
    WithinTurnJoin(Start(s.base), s, Firsts(n) + [1], [n + 1], capacity, maxBytes);
    UndisturbedJoin(Begin(s.base), s, Firsts(n) + [1], [n + 1], capacity, maxBytes);
    NextDisturbs(s, n, u, capacity);
  }

  lemma LongStreamIs()
    ensures var s := LongStream();
      s.base == 0 && s.Last() >= MODULUS && Fits(s, 1) && Distinguishable(s)
  {
  }

  /** An instance, with a queue of four: what has been received in the end is no longer a prefix of what was sent. */
  lemma DuplicateBreaksPrefix()
    ensures var s := LongStream();
      && InStream(s, Replayed(MODULUS - 1)) && WithinTurn(Start(0), s, Replayed(MODULUS - 1), 4, 1)
      && !(Run(Start(0), s, Replayed(MODULUS - 1), 4, 1).received <= s.Bytes(s.Last()))
  {
    hide InStream, WithinTurn, Run, Fits, Distinguishable, Add, Stream.Bytes, Undisturbed, Replayed, LongStream;
    LongStreamIs();
    LongStreamsBreak(LongStream(), 4, 1);
    PrefixBreaksExactly(LongStream(), Replayed(MODULUS - 1), 4, 1);
  }

  /** So for streams whose packets can be told apart, whatever is repeated is harmless exactly below 2^16 packets. */
  lemma HarmlessExactlyWhenShort(s: Stream, capacity: nat, maxBytes: nat)
    requires Fits(s, maxBytes) && Distinguishable(s) && capacity >= 2
    ensures s.Last() < MODULUS <==>
      forall arrivals :: InStream(s, arrivals) && WithinTurn(Start(s.base), s, arrivals, capacity, maxBytes) ==>
        Run(Start(s.base), s, arrivals, capacity, maxBytes).received <= s.Bytes(s.Last())
  {
    hide InStream, WithinTurn, Run, Fits, Distinguishable, Add, Stream.Bytes, Undisturbed, Replayed;
    if s.Last() < MODULUS {
      forall arrivals | InStream(s, arrivals) && WithinTurn(Start(s.base), s, arrivals, capacity, maxBytes)
        ensures Run(Start(s.base), s, arrivals, capacity, maxBytes).received <= s.Bytes(s.Last())
      {
        ShortStreamsAreSafe(s, arrivals, capacity, maxBytes);
      }
    } else {
      LongStreamsBreak(s, capacity, maxBytes);
      PrefixBreaksExactly(s, Replayed(MODULUS - 1), capacity, maxBytes);
    }
  }
}
