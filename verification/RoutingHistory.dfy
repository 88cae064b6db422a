/** The routing table over its history: which node is probed, what each event stores, and since when. */
module RoutingHistory {
  import opened Results
  import opened Arithmetic
  import opened IdSpace
  import opened RoutingTable

  /** The state after the first `n` events. */
  function At(ranges: seq<Range>, events: seq<Event>, n: nat): (s: State)
    requires n <= |events|
    ensures Paired(s.table)
  {
    if n == 0 then Initial(ranges) else
      var before := At(ranges, events, n - 1);
      StepPairs(before, events[n - 1]);
      Step(before, events[n - 1])
  }

  lemma StepPairs(s: State, e: Event)
    requires Paired(s.table)
    ensures Paired(Step(s, e).table)
  {
  }

  predicate Held(t: Table, id: nat) {
    exists k, i :: 0 <= k < |t.contents| && 0 <= i < |t.contents[k]| && t.contents[k][i].id == id
  }

  /** The number of the last of the first `n` events at which the id came into the table, counted from 1; 0 if none. */
  function Since(ranges: seq<Range>, events: seq<Event>, n: nat, id: nat): (r: nat)
    requires n <= |events|
    ensures r <= n
  {
    if n == 0 then 0
    else if Held(At(ranges, events, n).table, id) && !Held(At(ranges, events, n - 1).table, id) then n
    else Since(ranges, events, n - 1, id)
  }

  // ---- What a step does to one bucket ----

  /** The index in the old bucket of what stands at `j` once the entry at `out` has left; `out` is the length if none has. */
  function Source(j: nat, out: nat): nat {
    if j < out then j else j + 1
  }

  /** At most one node comes to the front, and at most one leaves; the ids of the others keep their order. */
  predicate Shifts(before: seq<Node>, after: seq<Node>, front: Option<Node>, out: nat) {
    var lead := if front.Some? then 1 else 0;
    && out <= |before| && |after| == lead + |before| - (if out < |before| then 1 else 0)
    && (front.Some? ==> after[0] == front.value)
    && forall j :: 0 <= j < |after| - lead ==> after[j + lead].id == before[Source(j, out)].id
  }

  lemma SameShifts(nodes: seq<Node>)
    ensures Shifts(nodes, nodes, None, |nodes|)
  {
  }

  lemma AddShifts(nodes: seq<Node>, node: Node) returns (front: Option<Node>)
    requires |nodes| <= BUCKET_CAPACITY
    ensures Shifts(nodes, Add(nodes, node), front, |nodes|)
    ensures front == if Find(nodes, node.id).None? && |nodes| < BUCKET_CAPACITY then Some(node) else None
  {
    RenewKeepsIds(nodes, node);
    front := if Find(nodes, node.id).None? && |nodes| < BUCKET_CAPACITY then Some(node) else None;
  }

  lemma RemoveShifts(nodes: seq<Node>, id: nat) returns (out: nat)
    ensures Shifts(nodes, Remove(nodes, id), None, out)
    ensures out < |nodes| <==> Find(nodes, id).Some?
    ensures out < |nodes| ==> nodes[out].id == id
  {
    hide Remove, Find;
    out := RemoveIs(nodes, id);
  }

  lemma ReplaceShifts(nodes: seq<Node>, stale: Node, replacement: Node) returns (out: nat)
    requires |nodes| <= BUCKET_CAPACITY && Replaces(nodes, stale, replacement)
    ensures Shifts(nodes, Replace(nodes, stale, replacement), Some(replacement), out)
    ensures out < |nodes| && nodes[out].id == stale.id
  {
    hide Remove, Find;
    out := RemoveShifts(nodes, stale.id);
    RemovedStays(nodes, stale.id, replacement.id);
  }

  lemma RemovedStays(nodes: seq<Node>, id: nat, other: nat)
    requires Find(nodes, id).Some? && Find(nodes, other).None?
    ensures |Remove(nodes, id)| == |nodes| - 1 && Find(Remove(nodes, id), other).None?
  {
    RemovedIsSmaller(nodes, id, other);
  }

  // ---- Where an id can be ----

  lemma HeldIsStored(t: Table, id: nat)
    ensures Held(t, id) <==> Stores(t, id)
  {
    hide Find;
    if Held(t, id) {
      var k, i :| 0 <= k < |t.contents| && 0 <= i < |t.contents[k]| && t.contents[k][i].id == id;
      FindIsMember(t.contents[k], id);
      assert t.contents[k][i] in t.contents[k];
    }
    if Stores(t, id) {
      var k :| 0 <= k < |t.contents| && Find(t.contents[k], id).Some?;
      FindIsMember(t.contents[k], id);
      var m := Find(t.contents[k], id).value;
      var i :| 0 <= i < |t.contents[k]| && t.contents[k][i] == m;
    }
  }

  lemma HomeIs(t: Table, id: nat, k: nat)
    requires InPlace(t) && k < |t.ranges| && t.ranges[k].Contains(id)
    ensures Home(t.ranges, id) == k
  {
    hide Home, Range.Contains, Stocked;
    assert Home(t.ranges, id) <= |t.ranges|;
  }

  /** An id that is held is in its home bucket. */
  lemma HeldAtHome(t: Table, id: nat)
    requires InPlace(t)
    ensures Held(t, id) <==> Home(t.ranges, id) < |t.ranges| && Find(t.contents[Home(t.ranges, id)], id).Some?
  {
    hide Find, Home, Range.Contains, Disjoint;
    HeldIsStored(t, id);
    if Stores(t, id) {
      var k :| 0 <= k < |t.contents| && Find(t.contents[k], id).Some?;
      FindIsMember(t.contents[k], id);
      assert Stocked(t.contents[k], t.ranges[k]);
      HomeIs(t, id, k);
    }
  }

  // ---- What a step does to each bucket ----

  lemma StepShifts(s: State, e: Event, k: nat) returns (front: Option<Node>, out: nat)
    requires InPlace(s.table) && k < |s.table.contents|
    ensures Shifts(s.table.contents[k], Step(s, e).table.contents[k], front, out)
    ensures front.Some? ==> !Held(s.table, front.value.id)
  {
    hide Find, Home, Add, Remove, Replace, Shifts, Disjoint, Held;
    var t := s.table;
    front, out := None, |t.contents[k]|;
    SameShifts(t.contents[k]);
    assert Stocked(t.contents[k], t.ranges[k]);
    match e
    case Consider(node) =>
      if Stores(t, node.id) || Candidate(t, node).None? {
        if Home(t.ranges, node.id) == k {
          front := AddShifts(t.contents[k], node);
          HeldAtHome(t, node.id);
        }
      }
    case ProbeEnds(index, reachable) =>
      if index < |s.probes| && !reachable {
        var probe := s.probes[index];
        HeldAtHome(t, probe.node.id);
        if Home(t.ranges, probe.node.id) == k {
          if Replaces(t.contents[k], probe.candidate, probe.node) {
            out := ReplaceShifts(t.contents[k], probe.candidate, probe.node);
            front := Some(probe.node);
          } else {
            ReplaceKeeps(t.contents[k], probe.candidate, probe.node);
          }
        }
      }
    case Drop(node) =>
      if Home(t.ranges, node.id) == k {
        out := RemoveShifts(t.contents[k], node.id);
      }
  }

  lemma ReplaceKeeps(nodes: seq<Node>, stale: Node, replacement: Node)
    requires !Replaces(nodes, stale, replacement)
    ensures Replace(nodes, stale, replacement) == nodes
  {
  }

  // ---- Buckets are ordered by age ----

  ghost predicate ByAge(ranges: seq<Range>, events: seq<Event>, n: nat)
    requires n <= |events|
  {
    forall k, i, j :: 0 <= k < |At(ranges, events, n).table.contents| && 0 <= i < j < |At(ranges, events, n).table.contents[k]| ==>
      Since(ranges, events, n, At(ranges, events, n).table.contents[k][i].id) >
      Since(ranges, events, n, At(ranges, events, n).table.contents[k][j].id)
  }

  lemma {:induction false} AtIsInPlace(ranges: seq<Range>, events: seq<Event>, n: nat)
    requires Disjoint(ranges) && n <= |events|
    ensures InPlace(At(ranges, events, n).table) && At(ranges, events, n).table.ranges == ranges
  {
    hide Disjoint, Step;
    if n == 0 {
    } else {
      AtIsInPlace(ranges, events, n - 1);
      StepStaysInPlace(At(ranges, events, n - 1), events[n - 1]);
    }
  }

  /** Behind the one that comes in, a bucket holds ids that were held before, so their numbers stay. */
  lemma StayersKeepNumbers(ranges: seq<Range>, events: seq<Event>, n: nat, id: nat)
    requires n < |events| && Held(At(ranges, events, n).table, id)
    ensures Since(ranges, events, n + 1, id) == Since(ranges, events, n, id)
  {
    hide At, Held;
  }

  lemma NewcomersAreNew(ranges: seq<Range>, events: seq<Event>, n: nat, id: nat)
    requires n < |events| && !Held(At(ranges, events, n).table, id) && Held(At(ranges, events, n + 1).table, id)
    ensures Since(ranges, events, n + 1, id) == n + 1
  {
    hide At, Held;
  }

  lemma NodeIsHeld(t: Table, k: nat, i: nat)
    requires k < |t.contents| && i < |t.contents[k]|
    ensures Held(t, t.contents[k][i].id)
  {
  }

  lemma PairStaysByAge(ranges: seq<Range>, events: seq<Event>, n: nat, k: nat, i: nat, j: nat)
    requires Disjoint(ranges) && n < |events| && ByAge(ranges, events, n)
    requires k < |At(ranges, events, n + 1).table.contents| && i < j < |At(ranges, events, n + 1).table.contents[k]|
    ensures var nodes := At(ranges, events, n + 1).table.contents[k];
      Since(ranges, events, n + 1, nodes[i].id) > Since(ranges, events, n + 1, nodes[j].id)
  {
    hide Since, Held, Step, Disjoint, At;
    AtIsInPlace(ranges, events, n);
    AtIsInPlace(ranges, events, n + 1);
    NextIsStep(ranges, events, n);
    var s := At(ranges, events, n);
    var before, nodes := s.table.contents[k], At(ranges, events, n + 1).table.contents[k];
    var front, out := StepShifts(s, events[n], k);
    var lead := if front.Some? then 1 else 0;
    var oldJ := Source(j - lead, out);
    assert nodes[j].id == before[oldJ].id;
    NodeIsHeld(s.table, k, oldJ);
    StayersKeepNumbers(ranges, events, n, nodes[j].id);
    if i < lead {
      NodeIsHeld(At(ranges, events, n + 1).table, k, i);
      NewcomersAreNew(ranges, events, n, nodes[i].id);
      assert Since(ranges, events, n, nodes[j].id) <= n;
    } else {
      var oldI := Source(i - lead, out);
      assert nodes[i].id == before[oldI].id && oldI < oldJ;
      NodeIsHeld(s.table, k, oldI);
      StayersKeepNumbers(ranges, events, n, nodes[i].id);
    }
  }

  lemma NextIsStep(ranges: seq<Range>, events: seq<Event>, n: nat)
    requires n < |events|
    ensures At(ranges, events, n + 1) == Step(At(ranges, events, n), events[n])
  {
    hide Step;
  }

  /** Over every run the nodes of a bucket stand in descending order of the events at which they came in. */
  lemma {:induction false} BucketsAreByAge(ranges: seq<Range>, events: seq<Event>, n: nat)
    requires Disjoint(ranges) && n <= |events|
    ensures ByAge(ranges, events, n)
  {
    hide Since, Disjoint, Step;
    if n == 0 {
    } else {
      BucketsAreByAge(ranges, events, n - 1);
      hide At;
      forall k, i, j | 0 <= k < |At(ranges, events, n).table.contents| && 0 <= i < j < |At(ranges, events, n).table.contents[k]|
        ensures Since(ranges, events, n, At(ranges, events, n).table.contents[k][i].id) >
                Since(ranges, events, n, At(ranges, events, n).table.contents[k][j].id)
      {
        PairStaysByAge(ranges, events, n - 1, k, i, j);
      }
    }
  }

  // ---- Whom a probe asks ----

  /** The bucket of the node's range is full, does not hold it, and the candidate is the one that came in first. */
  ghost predicate AsksTheOldest(ranges: seq<Range>, events: seq<Event>, n: nat, k: nat, probe: Probe)
    requires n <= |events|
  {
    var t := At(ranges, events, n).table;
    && k < |t.ranges| && k < |t.contents| && t.ranges[k].Contains(probe.node.id) && |t.contents[k]| == BUCKET_CAPACITY
    && probe.candidate in t.contents[k]
    && forall m <- t.contents[k] :: m.id != probe.node.id
         && (m == probe.candidate || Since(ranges, events, n, m.id) > Since(ranges, events, n, probe.candidate.id))
  }

  /** The node is not held, and the bucket of its range is full. */
  ghost predicate Crowded(t: Table, node: Node) {
    !Held(t, node.id) && exists k: nat :: HasRange(t, k, node.id) && |t.contents[k]| == BUCKET_CAPACITY
  }

  predicate HasRange(t: Table, k: nat, id: nat) {
    k < |t.ranges| && k < |t.contents| && t.ranges[k].Contains(id)
  }

  /**
   Over every run: considering a node starts a probe exactly when the node is not held and the bucket of its range is
   full, and the probe asks the node of that bucket that came into the table first.
   */
  lemma ProbesAskTheOldest(ranges: seq<Range>, events: seq<Event>, n: nat, node: Node)
    requires Disjoint(ranges) && n <= |events|
    ensures var s := At(ranges, events, n);
      var after := Step(s, Consider(node));
      if !Crowded(s.table, node) then after.probes == s.probes
      else
        && after.table == s.table && |after.probes| == |s.probes| + 1 && s.probes <= after.probes
        && after.probes[|s.probes|].node == node
        && exists k: nat :: AsksTheOldest(ranges, events, n, k, after.probes[|s.probes|])
  {
    hide Since, Find, Home, TableAdd, Disjoint;
    AtIsInPlace(ranges, events, n);
    BucketsAreByAge(ranges, events, n);
    hide At;
    var t := At(ranges, events, n).table;
    var k := Home(t.ranges, node.id);
    HeldIsStored(t, node.id);
    HeldAtHome(t, node.id);
    if k < |t.ranges| {
      assert Stocked(t.contents[k], t.ranges[k]);
      FindIsMember(t.contents[k], node.id);
    }
    assert k < |t.ranges| && |t.contents[k]| == BUCKET_CAPACITY ==> HasRange(t, k, node.id);
    if Crowded(t, node) {
      var l: nat :| HasRange(t, l, node.id) && |t.contents[l]| == BUCKET_CAPACITY;
      HomeIs(t, node.id, l);
      LastIsOldest(ranges, events, n, k, node);
    }
  }

  lemma LastIsOldest(ranges: seq<Range>, events: seq<Event>, n: nat, k: nat, node: Node)
    requires n <= |events| && ByAge(ranges, events, n)
    requires var t := At(ranges, events, n).table;
      && k < |t.ranges| && k < |t.contents| && t.ranges[k].Contains(node.id) && |t.contents[k]| == BUCKET_CAPACITY
      && forall m <- t.contents[k] :: m.id != node.id
    ensures var nodes := At(ranges, events, n).table.contents[k];
      AsksTheOldest(ranges, events, n, k, Probe(nodes[|nodes| - 1], node))
  {
    hide At, Since;
    var nodes := At(ranges, events, n).table.contents[k];
    var last := |nodes| - 1;
    forall m | m in nodes
      ensures m == nodes[last] || Since(ranges, events, n, m.id) > Since(ranges, events, n, nodes[last].id)
    {
      var i :| 0 <= i < |nodes| && nodes[i] == m;
    }
  }

  // ---- What is held after each event ----

  /** There is a bucket for the id that is not full. */
  ghost predicate HasRoom(t: Table, id: nat) {
    exists k: nat :: HasRange(t, k, id) && |t.contents[k]| < BUCKET_CAPACITY
  }

  /** Candidate and node of every probe under way belong to the same bucket. */
  ghost predicate ProbesShareRange(s: State) {
    forall p <- s.probes :: exists k: nat :: HasRange(s.table, k, p.candidate.id) && HasRange(s.table, k, p.node.id)
  }

  lemma StepSharesRange(s: State, e: Event)
    requires InPlace(s.table) && ProbesShareRange(s)
    ensures ProbesShareRange(Step(s, e))
  {
    hide Find, Home, TableAdd, TableRemove, TableReplace, Disjoint, HasRange;
    StepStaysInPlace(s, e);
    var after := Step(s, e);
    forall p | p in after.probes
      ensures exists k: nat :: HasRange(after.table, k, p.candidate.id) && HasRange(after.table, k, p.node.id)
    {
      if p in s.probes {
        var k: nat :| HasRange(s.table, k, p.candidate.id) && HasRange(s.table, k, p.node.id);
        SameRanges(s.table, after.table, k, p.candidate.id);
        SameRanges(s.table, after.table, k, p.node.id);
      } else {
        CandidateSharesRange(s.table, e.node);
        assert p == Probe(Candidate(s.table, e.node).value, e.node) && after.table == s.table;
      }
    }
  }

  lemma SameRanges(t: Table, u: Table, k: nat, id: nat)
    requires u.ranges == t.ranges && |u.contents| == |t.contents|
    ensures HasRange(u, k, id) <==> HasRange(t, k, id)
  {
  }

  lemma CandidateSharesRange(t: Table, node: Node)
    requires InPlace(t) && Candidate(t, node).Some?
    ensures exists k: nat :: HasRange(t, k, Candidate(t, node).value.id) && HasRange(t, k, node.id)
  {
    hide Find, Disjoint, Range.Contains;
    var k := Home(t.ranges, node.id);
    assert Stocked(t.contents[k], t.ranges[k]);
    assert Candidate(t, node).value in t.contents[k];
    assert HasRange(t, k, Candidate(t, node).value.id) && HasRange(t, k, node.id);
  }

  lemma {:induction false} AtSharesRange(ranges: seq<Range>, events: seq<Event>, n: nat)
    requires Disjoint(ranges) && n <= |events|
    ensures ProbesShareRange(At(ranges, events, n))
  {
    hide Disjoint, Step, HasRange;
    if n == 0 {
    } else {
      AtIsInPlace(ranges, events, n - 1);
      AtSharesRange(ranges, events, n - 1);
      StepSharesRange(At(ranges, events, n - 1), events[n - 1]);
    }
  }

  /** The node comes in: there is room for it, or a probe of the node whose place it takes has failed. */
  ghost predicate ComesIn(s: State, e: Event, id: nat) {
    && !Held(s.table, id)
    && match e
       case Consider(node) => node.id == id && HasRoom(s.table, id)
       case ProbeEnds(index, reachable) =>
         !reachable && index < |s.probes| && s.probes[index].node.id == id && Held(s.table, s.probes[index].candidate.id)
       case Drop(_) => false
  }

  /** The node leaves: it is dropped, or its probe has failed and the node that waited is not held yet. */
  ghost predicate GoesOut(s: State, e: Event, id: nat) {
    match e
    case Consider(_) => false
    case ProbeEnds(index, reachable) =>
      !reachable && index < |s.probes| && s.probes[index].candidate.id == id && !Held(s.table, s.probes[index].node.id)
    case Drop(node) => node.id == id
  }

  lemma BucketHolds(t: Table, id: nat)
    requires InPlace(t)
    ensures Held(t, id) <==> Home(t.ranges, id) < |t.ranges| && exists m <- t.contents[Home(t.ranges, id)] :: m.id == id
  {
    hide Find, Home, Disjoint;
    HeldAtHome(t, id);
    if Home(t.ranges, id) < |t.ranges| {
      FindIsMember(t.contents[Home(t.ranges, id)], id);
    }
  }

  lemma {:induction false} AddHolds(nodes: seq<Node>, node: Node, id: nat)
    ensures (exists m <- Add(nodes, node) :: m.id == id) <==>
      (exists m <- nodes :: m.id == id) || (id == node.id && |nodes| < BUCKET_CAPACITY)
  {
    hide Renew, Find;
    FindIsMember(nodes, node.id);
    RenewKeepsIds(nodes, node);
    var after := Add(nodes, node);
    if Find(nodes, node.id).Some? {
      if m :| m in nodes && m.id == id {
        var i :| 0 <= i < |nodes| && nodes[i] == m;
        assert after[i] in after && after[i].id == id;
      }
      if m :| m in after && m.id == id {
        var i :| 0 <= i < |after| && after[i] == m;
        assert nodes[i] in nodes && nodes[i].id == id;
      }
    }
  }

  lemma SetHolds(t: Table, k: nat, nodes: seq<Node>, id: nat)
    requires InPlace(t) && k < |t.ranges| && InPlace(SetBucket(t, k, nodes))
    ensures Held(SetBucket(t, k, nodes), id) <==>
      if Home(t.ranges, id) == k then exists m <- nodes :: m.id == id else Held(t, id)
  {
    hide Home, Disjoint, Stocked;
    BucketHolds(t, id);
    BucketHolds(SetBucket(t, k, nodes), id);
  }

  lemma RoomIsHome(t: Table, id: nat)
    requires InPlace(t)
    ensures HasRoom(t, id) <==> Home(t.ranges, id) < |t.ranges| && |t.contents[Home(t.ranges, id)]| < BUCKET_CAPACITY
  {
    hide Disjoint, Stocked, Home;
    var k := Home(t.ranges, id);
    assert k < |t.ranges| ==> HasRange(t, k, id);
    if HasRoom(t, id) {
      var l: nat :| HasRange(t, l, id) && |t.contents[l]| < BUCKET_CAPACITY;
      HomeIs(t, id, l);
    }
  }

  lemma ConsiderHolds(s: State, node: Node, id: nat)
    requires InPlace(s.table)
    ensures Held(Step(s, Consider(node)).table, id) <==> Held(s.table, id) || ComesIn(s, Consider(node), id)
  {
    hide Home, Disjoint, Find, Stocked, HasRoom, Add;
    StepStaysInPlace(s, Consider(node));
    var t, k := s.table, Home(s.table.ranges, node.id);
    HeldIsStored(t, node.id);
    RoomIsHome(t, node.id);
    BucketHolds(t, node.id);
    BucketHolds(t, id);
    if k < |t.ranges| {
      AddHolds(t.contents[k], node, id);
      HeldAtHome(t, node.id);
      if Stores(t, node.id) || Candidate(t, node).None? {
        SetHolds(t, k, Add(t.contents[k], node), id);
      }
    }
  }

  lemma DropHolds(s: State, node: Node, id: nat)
    requires InPlace(s.table)
    ensures Held(Step(s, Drop(node)).table, id) <==> Held(s.table, id) && id != node.id
  {
    hide Home, Disjoint, Find, Remove;
    StepStaysInPlace(s, Drop(node));
    var t, k := s.table, Home(s.table.ranges, node.id);
    BucketHolds(t, id);
    if k < |t.ranges| {
      assert Stocked(t.contents[k], t.ranges[k]);
      RemoveTakesOne(t.contents[k], node.id, t.ranges[k]);
      SetHolds(t, k, Remove(t.contents[k], node.id), id);
    }
  }

  lemma ProbeHolds(s: State, index: nat, reachable: bool, id: nat)
    requires InPlace(s.table) && ProbesShareRange(s)
    ensures var e := ProbeEnds(index, reachable);
      Held(Step(s, e).table, id) <==>
        ComesIn(s, e, id) || (Held(s.table, id) && !GoesOut(s, e, id))
  {
    hide Home, Disjoint, Find, Replace;
    StepStaysInPlace(s, ProbeEnds(index, reachable));
    var t := s.table;
    if index < |s.probes| && !reachable {
      var p := s.probes[index];
      var k: nat :| HasRange(t, k, p.candidate.id) && HasRange(t, k, p.node.id);
      HomeIs(t, p.candidate.id, k);
      HomeIs(t, p.node.id, k);
      HeldAtHome(t, p.candidate.id);
      HeldAtHome(t, p.node.id);
      assert Stocked(t.contents[k], t.ranges[k]);
      ReplaceStocks(t.contents[k], p.candidate, p.node, t.ranges[k]);
      SetHolds(t, k, Replace(t.contents[k], p.candidate, p.node), id);
      BucketHolds(t, id);
      ReplacedIds(t.contents[k], p, id);
    }
  }

  lemma ReplacedIds(nodes: seq<Node>, p: Probe, id: nat)
    requires var after := Replace(nodes, p.candidate, p.node);
      if Replaces(nodes, p.candidate, p.node)
      then forall n :: n in after <==> n == p.node || (n in nodes && n.id != p.candidate.id)
      else after == nodes
    ensures (exists m <- Replace(nodes, p.candidate, p.node) :: m.id == id) <==>
      if Replaces(nodes, p.candidate, p.node)
      then id == p.node.id || (id != p.candidate.id && exists m <- nodes :: m.id == id)
      else exists m <- nodes :: m.id == id
  {
    hide Replace, Find;
    var after := Replace(nodes, p.candidate, p.node);
    if Replaces(nodes, p.candidate, p.node) {
      assert p.node in after;
    }
  }

  /**
   Over every run: an id is held after an event exactly when it comes in with it, or was held before and does not go
   out with it. An id comes in when its node is considered while there is room, or in the place of a node that is still
   there and has not answered its probe; it goes out when it is dropped, or gives its place to such a node.
   */
  lemma HeldExactly(ranges: seq<Range>, events: seq<Event>, n: nat, id: nat)
    requires Disjoint(ranges) && n < |events|
    ensures var s := At(ranges, events, n);
      Held(At(ranges, events, n + 1).table, id) <==>
        ComesIn(s, events[n], id) || (Held(s.table, id) && !GoesOut(s, events[n], id))
  {
    hide Held, Step, Disjoint, At, HasRoom, ProbesShareRange;
    AtIsInPlace(ranges, events, n);
    AtSharesRange(ranges, events, n);
    NextIsStep(ranges, events, n);
    var s := At(ranges, events, n);
    match events[n]
    case Consider(node) => ConsiderHolds(s, node, id);
    case ProbeEnds(index, reachable) => ProbeHolds(s, index, reachable, id);
    case Drop(node) => DropHolds(s, node, id);
  }

  // ---- Contact data ----

  predicate Contains(t: Table, node: Node) {
    exists k :: 0 <= k < |t.contents| && node in t.contents[k]
  }

  lemma {:induction false} RenewMembers(nodes: seq<Node>, node: Node)
    ensures forall m <- Renew(nodes, node) :: m in nodes || m == node
    ensures (exists m <- nodes :: m.id == node.id) ==> node in Renew(nodes, node)
  {
    if nodes != [] && nodes[0].id != node.id {
      RenewMembers(nodes[1..], node);
      assert nodes == [nodes[0]] + nodes[1..];
    }
  }

  lemma AddMembers(nodes: seq<Node>, node: Node)
    ensures forall m <- Add(nodes, node) :: m in nodes || m == node
    ensures (exists m <- Add(nodes, node) :: m.id == node.id) ==> node in Add(nodes, node)
  {
    hide Renew, Find;
    FindIsMember(nodes, node.id);
    RenewMembers(nodes, node);
  }

  lemma ReplaceMembers(nodes: seq<Node>, stale: Node, replacement: Node)
    ensures forall m <- Replace(nodes, stale, replacement) :: m in nodes || m == replacement
  {
    hide Add, Remove, Find;
    AddMembers(Remove(nodes, stale.id), replacement);
    var i := RemoveIs(nodes, stale.id);
  }

  lemma RemoveMembers(nodes: seq<Node>, id: nat)
    ensures forall m <- Remove(nodes, id) :: m in nodes
  {
    hide Remove, Find;
    var i := RemoveIs(nodes, id);
  }

  /** The node that an event may put into the table. */
  function Incoming(s: State, e: Event): Option<Node> {
    match e
    case Consider(node) => Some(node)
    case ProbeEnds(index, _) => if index < |s.probes| then Some(s.probes[index].node) else None
    case Drop(_) => None
  }

  /** Whatever stands in a table was there before, just so, or is the node of this event; a node considered is stored as it is, if its id is held. */
  lemma ContactsAreLatest(s: State, e: Event, k: nat, m: Node)
    requires InPlace(s.table) && k < |s.table.contents|
    ensures var after := Step(s, e).table;
      && k < |after.contents|
      && (m in after.contents[k] ==> m in s.table.contents[k] || Incoming(s, e) == Some(m))
      && (e.Consider? && Held(after, e.node.id) ==> Contains(after, e.node))
  {
    hide Add, Remove, Replace, Find, Disjoint, Held, Home;
    StepStaysInPlace(s, e);
    var t := s.table;
    match e
    case Consider(node) =>
      AddMembers(t.contents[k], node);
      HeldIsStored(t, node.id);
      ConsiderIsStored(s, node);
    case ProbeEnds(index, _) =>
      if index < |s.probes| {
        ReplaceMembers(t.contents[k], s.probes[index].candidate, s.probes[index].node);
      }
    case Drop(node) => RemoveMembers(t.contents[k], node.id);
  }

  lemma ConsiderIsStored(s: State, node: Node)
    requires InPlace(s.table) && InPlace(Step(s, Consider(node)).table)
    ensures var after := Step(s, Consider(node)).table; Held(after, node.id) ==> Contains(after, node)
  {
    hide Add, Find, Disjoint, Home, Stocked;
    var t, after := s.table, Step(s, Consider(node)).table;
    var k := Home(t.ranges, node.id);
    HeldIsStored(t, node.id);
    BucketHolds(after, node.id);
    if Held(after, node.id) {
      AddMembers(t.contents[k], node);
      if Stores(t, node.id) || Candidate(t, node).None? {
        assert after.contents[k] == Add(t.contents[k], node) && node in after.contents[k];
      }
    }
  }

  // ---- What the operations report ----

  lemma FilledHolds(t: Table, k: nat, nodes: seq<Node>, id: nat)
    requires InPlace(t) && k < |t.ranges| && k == Home(t.ranges, id) && Stocked(nodes, t.ranges[k])
    ensures Held(SetBucket(t, k, nodes), id) <==> exists m <- nodes :: m.id == id
  {
    hide Home, Disjoint, Find, Held, Stocked;
    SetInPlace(t, k, nodes);
    BucketHolds(SetBucket(t, k, nodes), id);
  }

  /** Adding a node reports true exactly when its id was not held and now is. */
  lemma AddReports(t: Table, node: Node)
    requires InPlace(t)
    ensures Gains(t, node) <==> !Held(t, node.id) && Held(TableAdd(t, node), node.id)
  {
    hide Home, Disjoint, Find, Add, Held, Stocked;
    var k := Home(t.ranges, node.id);
    BucketHolds(t, node.id);
    if k < |t.ranges| {
      assert Stocked(t.contents[k], t.ranges[k]);
      FindIsMember(t.contents[k], node.id);
      AddStocks(t.contents[k], node, t.ranges[k]);
      AddHolds(t.contents[k], node, node.id);
      FilledHolds(t, k, Add(t.contents[k], node), node.id);
    }
  }

  /** Replacing a node reports true exactly when the new id was not held and now is. */
  lemma ReplaceReports(t: Table, stale: Node, replacement: Node)
    requires InPlace(t)
    ensures CanReplace(t, stale, replacement) <==> !Held(t, replacement.id) && Held(TableReplace(t, stale, replacement), replacement.id)
  {
    hide Home, Disjoint, Find, Replace, Held, Stocked;
    var k := Home(t.ranges, replacement.id);
    BucketHolds(t, replacement.id);
    if k < |t.ranges| {
      var nodes := t.contents[k];
      assert Stocked(nodes, t.ranges[k]);
      FindIsMember(nodes, replacement.id);
      ReplaceStocks(nodes, stale, replacement, t.ranges[k]);
      FilledHolds(t, k, Replace(nodes, stale, replacement), replacement.id);
      if Replaces(nodes, stale, replacement) {
        assert replacement in Replace(nodes, stale, replacement);
      }
    }
  }
}
