/** The iterative lookup of peers (BEP 5): rounds of queries to the nearest nodes not asked yet. */
module NodeLookup {
  import opened IdSpace

  datatype Node = Node(id: Id, addr: string, port: nat)

  datatype Peer = Peer(addr: string, port: nat)

  datatype Response = Response(nodes: seq<Node>, peers: seq<Peer>)

  /** What the network does in one round: known nodes, answers by id, and whether the time has run out before it. */
  datatype Round = Round(known: seq<Node>, answers: map<Id, Response>, timeUp: bool)

  type Candidates = map<Id, Node>

  // ---- The order by distance ----

  lemma {:induction false} DistanceIsInjective(a: Id, b: Id, target: Id)
    requires |a| == |b| == |target| && Distance(a, target) == Distance(b, target)
    ensures a == b
  {
    if a == [] {
    } else {
      DistanceSplits(a, target);
      DistanceSplits(b, target);
      DistanceIsInjective(a[1..], b[1..], target[1..]);
      assert a == [a[0]] + a[1..] && b == [b[0]] + b[1..];
    }
  }

  predicate Sized(nodes: seq<Node>, width: nat) {
    forall n <- nodes :: |n.id| == width
  }

  predicate Keyed(candidates: Candidates, width: nat) {
    forall id <- candidates :: candidates[id].id == id && |id| == width
  }

  predicate Ascending(nodes: seq<Node>, target: Id)
    requires Sized(nodes, |target|)
  {
    forall i, j :: 0 <= i < j < |nodes| ==> Distance(nodes[i].id, target) < Distance(nodes[j].id, target)
  }

  predicate Includes(nodes: seq<Node>, id: Id) {
    exists n <- nodes :: n.id == id
  }

  /** The batch holds, nearest first, the candidates not asked yet that are nearest, as many as allowed. */
  predicate IsNearest(batch: seq<Node>, candidates: Candidates, asked: set<Id>, target: Id, limit: nat)
    requires Keyed(candidates, |target|)
  {
    && |batch| <= limit && Sized(batch, |target|) && Ascending(batch, target)
    && (forall n <- batch :: n.id in candidates && candidates[n.id] == n && n.id !in asked)
    && (forall id <- candidates :: id !in asked && !Includes(batch, id) ==>
          |batch| == limit && forall n <- batch :: Distance(n.id, target) < Distance(id, target))
  }

  /** A node nearer than a member of the batch, and behind an equal prefix, would be in the batch. */
  lemma NoneNearer(a: seq<Node>, b: seq<Node>, candidates: Candidates, asked: set<Id>, target: Id, limit: nat, i: nat)
    requires Keyed(candidates, |target|)
    requires IsNearest(a, candidates, asked, target, limit) && IsNearest(b, candidates, asked, target, limit)
    requires i < |a| && i < |b| && a[..i] == b[..i]
    ensures Distance(a[i].id, target) >= Distance(b[i].id, target)
  {
    hide Distance, Ascending, Includes;
    assert a[i] in a && b[i] in b;
    if Distance(a[i].id, target) < Distance(b[i].id, target) {
      NotIncluded(a, b, target, i);
      assert false;
    }
  }

  /** A node nearer than member `i`, and behind the same nodes as that, is no member. */
  lemma NotIncluded(a: seq<Node>, b: seq<Node>, target: Id, i: nat)
    requires Sized(a, |target|) && Sized(b, |target|) && Ascending(a, target) && Ascending(b, target)
    requires i < |a| && i < |b| && a[..i] == b[..i]
    ensures |a[i].id| == |b[i].id| == |target|
    ensures Distance(a[i].id, target) < Distance(b[i].id, target) ==> !Includes(b, a[i].id)
  {
    hide Distance;
    assert a[i] in a && b[i] in b;
    forall n <- b | Distance(a[i].id, target) < Distance(b[i].id, target) ensures n.id != a[i].id {
      var j :| 0 <= j < |b| && b[j] == n;
      if j < i {
        assert a[j] == a[..i][j] == b[..i][j] == b[j];
      }
    }
  }

  /** Members of batches over the same candidates are the same node when they are equally far. */
  lemma EquallyFarIsSame(a: seq<Node>, b: seq<Node>, candidates: Candidates, asked: set<Id>, target: Id, limit: nat, i: nat)
    requires Keyed(candidates, |target|)
    requires IsNearest(a, candidates, asked, target, limit) && IsNearest(b, candidates, asked, target, limit)
    requires i < |a| && i < |b|
    ensures |a[i].id| == |b[i].id| == |target|
    ensures Distance(a[i].id, target) == Distance(b[i].id, target) ==> a[i] == b[i]
  {
    hide Distance, Ascending;
    assert a[i] in a && b[i] in b;
    if Distance(a[i].id, target) == Distance(b[i].id, target) {
      DistanceIsInjective(a[i].id, b[i].id, target);
    }
  }

  lemma {:induction false} PrefixAgrees(a: seq<Node>, b: seq<Node>, candidates: Candidates, asked: set<Id>, target: Id, limit: nat, i: nat)
    requires Keyed(candidates, |target|)
    requires IsNearest(a, candidates, asked, target, limit) && IsNearest(b, candidates, asked, target, limit)
    requires i <= |a| && i <= |b|
    ensures a[..i] == b[..i]
  {
    hide *;
    if i == 0 {
    } else {
      PrefixAgrees(a, b, candidates, asked, target, limit, i - 1);
      EquallyFarIsSame(a, b, candidates, asked, target, limit, i - 1);
      NoneNearer(a, b, candidates, asked, target, limit, i - 1);
      NoneNearer(b, a, candidates, asked, target, limit, i - 1);
      assert a[..i] == a[..i - 1] + [a[i - 1]] && b[..i] == b[..i - 1] + [b[i - 1]];
    }
  }

  lemma NotLonger(a: seq<Node>, b: seq<Node>, candidates: Candidates, asked: set<Id>, target: Id, limit: nat)
    requires Keyed(candidates, |target|)
    requires IsNearest(a, candidates, asked, target, limit) && IsNearest(b, candidates, asked, target, limit)
    ensures |a| >= |b|
  {
    hide Distance;
    if |a| < |b| {
      PrefixAgrees(a, b, candidates, asked, target, limit, |a|);
      var y := b[|a|];
      assert y in b;
      forall n <- a ensures n.id != y.id {
        var j :| 0 <= j < |a| && a[j] == n;
        assert a[j] == a[..|a|][j] == b[..|a|][j] == b[j];
      }
      assert false;
    }
  }

  /** The order is total, so the batch does not depend on the order in which candidates were found. */
  lemma NearestIsUnique(a: seq<Node>, b: seq<Node>, candidates: Candidates, asked: set<Id>, target: Id, limit: nat)
    requires Keyed(candidates, |target|)
    requires IsNearest(a, candidates, asked, target, limit) && IsNearest(b, candidates, asked, target, limit)
    ensures a == b
  {
    hide IsNearest;
    NotLonger(a, b, candidates, asked, target, limit);
    NotLonger(b, a, candidates, asked, target, limit);
    PrefixAgrees(a, b, candidates, asked, target, limit, |a|);
    assert a[..|a|] == a && b[..|b|] == b;
  }

  // ---- Choosing a batch ----

  function Insert(node: Node, sorted: seq<Node>, target: Id): seq<Node>
    requires Sized(sorted, |target|) && |node.id| == |target|
  {
    if sorted == [] || Distance(node.id, target) < Distance(sorted[0].id, target) then [node] + sorted
    else [sorted[0]] + Insert(node, sorted[1..], target)
  }

  lemma {:induction false} InsertAdds(node: Node, sorted: seq<Node>, target: Id)
    requires Sized(sorted, |target|) && |node.id| == |target|
    ensures forall n :: n in Insert(node, sorted, target) <==> n == node || n in sorted
  {
    hide Distance;
    if sorted == [] {
    } else {
      InsertAdds(node, sorted[1..], target);
      assert sorted == [sorted[0]] + sorted[1..];
    }
  }

  lemma {:induction false} InsertSorts(node: Node, sorted: seq<Node>, target: Id)
    requires Sized(sorted, |target|) && |node.id| == |target| && Ascending(sorted, target)
    requires forall i :: 0 <= i < |sorted| ==> sorted[i].id != node.id
    ensures forall n :: n in Insert(node, sorted, target) <==> n == node || n in sorted
    ensures Sized(Insert(node, sorted, target), |target|) && Ascending(Insert(node, sorted, target), target)
  {
    hide Distance;
    InsertAdds(node, sorted, target);
    if sorted != [] && Distance(node.id, target) >= Distance(sorted[0].id, target) {
      if Distance(node.id, target) == Distance(sorted[0].id, target) {
        DistanceIsInjective(node.id, sorted[0].id, target);
      }
      InsertSorts(node, sorted[1..], target);
      var rest := Insert(node, sorted[1..], target);
      forall j | 0 <= j < |rest| ensures Distance(sorted[0].id, target) < Distance(rest[j].id, target) {
        assert rest[j] in rest;
      }
    }
  }

  /** All candidates not asked yet, nearest first. */
  method SortUnasked(candidates: Candidates, asked: set<Id>, target: Id) returns (sorted: seq<Node>)
    requires Keyed(candidates, |target|)
    ensures Sized(sorted, |target|) && Ascending(sorted, target)
    ensures forall n :: n in sorted <==> n.id in candidates && candidates[n.id] == n && n.id !in asked
  {
    hide Distance, Insert;
    sorted := [];
    var left := candidates.Keys - asked;
    while left != {}
      invariant left <= candidates.Keys - asked && Sized(sorted, |target|) && Ascending(sorted, target)
      invariant forall n :: n in sorted <==>
                              n.id in candidates && candidates[n.id] == n && n.id !in asked && n.id !in left
      decreases left
    {
      var id :| id in left;
      forall i | 0 <= i < |sorted| ensures sorted[i].id != id {
        assert sorted[i] in sorted;
      }
      InsertSorts(candidates[id], sorted, target);
      sorted := Insert(candidates[id], sorted, target);
      left := left - {id};
    }
  }

  method ChooseBatch(candidates: Candidates, asked: set<Id>, target: Id, limit: nat) returns (batch: seq<Node>)
    requires Keyed(candidates, |target|)
    ensures IsNearest(batch, candidates, asked, target, limit)
    ensures batch == [] && limit > 0 ==> candidates.Keys <= asked
  {
    hide Distance;
    var sorted := SortUnasked(candidates, asked, target);
    batch := if |sorted| < limit then sorted else sorted[..limit];
    forall id <- candidates | id !in asked && !Includes(batch, id)
      ensures |batch| == limit && forall n <- batch :: Distance(n.id, target) < Distance(id, target)
    {
      assert candidates[id] in sorted;
      forall i | 0 <= i < |batch| ensures batch[i].id != id {
        assert batch[i] in batch;
      }
      var j :| 0 <= j < |sorted| && sorted[j] == candidates[id];
      assert j >= |batch|;
    }
    forall id <- candidates | id !in asked ensures sorted != [] {
      assert candidates[id] in sorted;
    }
  }

  // ---- The rounds ----

  /** Candidates are kept by id; the local node never becomes one. */
  function AddCandidates(candidates: Candidates, nodes: seq<Node>, local: Id): Candidates
    decreases |nodes|
  {
    if nodes == [] then candidates
    else if nodes[0].id == local then AddCandidates(candidates, nodes[1..], local)
    else AddCandidates(candidates[nodes[0].id := nodes[0]], nodes[1..], local)
  }

  lemma {:induction false} AddKeepsKeyed(candidates: Candidates, nodes: seq<Node>, local: Id, width: nat)
    requires Keyed(candidates, width) && Sized(nodes, width) && local !in candidates
    ensures Keyed(AddCandidates(candidates, nodes, local), width) && local !in AddCandidates(candidates, nodes, local)
    decreases |nodes|
  {
    if nodes == [] {
    } else {
      assert nodes[0] in nodes && Sized(nodes[1..], width);
      AddKeepsKeyed(if nodes[0].id == local then candidates else candidates[nodes[0].id := nodes[0]], nodes[1..], local, width);
    }
  }

  /** New peers of one answer are taken until there are enough; one is taken even if there were enough before. */
  function AddPeers(peers: seq<Peer>, found: seq<Peer>, maxPeers: nat): seq<Peer>
    decreases |found|
  {
    if found == [] then peers
    else if found[0] in peers then AddPeers(peers, found[1..], maxPeers)
    else
      var more := peers + [found[0]];
      if |more| >= maxPeers then more else AddPeers(more, found[1..], maxPeers)
  }

  predicate AllDifferent<T(==)>(s: seq<T>) {
    forall i, j :: 0 <= i < j < |s| ==> s[i] != s[j]
  }

  lemma {:induction false} AddPeersBound(peers: seq<Peer>, found: seq<Peer>, maxPeers: nat)
    requires AllDifferent(peers)
    ensures AllDifferent(AddPeers(peers, found, maxPeers)) && peers <= AddPeers(peers, found, maxPeers)
    ensures |AddPeers(peers, found, maxPeers)| <= if |peers| < maxPeers then maxPeers else |peers| + 1
    decreases |found|
  {
    if found == [] {
    } else {
      if found[0] in peers {
        AddPeersBound(peers, found[1..], maxPeers);
      } else if |peers + [found[0]]| < maxPeers {
        AddPeersBound(peers + [found[0]], found[1..], maxPeers);
      }
    }
  }

  function IdsOf(nodes: seq<Node>): set<Id> {
    set n <- nodes :: n.id
  }

  lemma {:induction false} BatchIdsDiffer(batch: seq<Node>, target: Id)
    requires Sized(batch, |target|) && Ascending(batch, target)
    ensures |IdsOf(batch)| == |batch|
  {
    hide Distance, IdsOf;
    if batch == [] {
      NoIds();
    } else {
      var front, last := batch[..|batch| - 1], batch[|batch| - 1];
      BatchIdsDiffer(front, target);
      assert batch == front + [last];
      OneMoreId(front, last);
      forall i | 0 <= i < |front| ensures front[i].id != last.id {
        assert batch[i] == front[i];
      }
    }
  }

  lemma NoIds()
    ensures IdsOf([]) == {}
  {
  }

  lemma OneMoreId(nodes: seq<Node>, last: Node)
    ensures (forall i :: 0 <= i < |nodes| ==> nodes[i].id != last.id) ==> |IdsOf(nodes + [last])| == |IdsOf(nodes)| + 1
  {
    IdsJoin(nodes, [last]);
    assert IdsOf([last]) == {last.id};
  }

  lemma IdsJoin(a: seq<Node>, b: seq<Node>)
    ensures IdsOf(a + b) == IdsOf(a) + IdsOf(b)
  {
    forall id | id in IdsOf(a) + IdsOf(b) ensures id in IdsOf(a + b) {
      if id in IdsOf(a) {
        var n :| n in a && n.id == id;
        assert n in a + b;
      } else {
        var n :| n in b && n.id == id;
        assert n in a + b;
      }
    }
  }

  lemma DisjointSizes(a: set<Id>, b: set<Id>)
    requires a !! b
    ensures |a + b| == |a| + |b|
  {
  }

  lemma BatchIsNew(batch: seq<Node>, candidates: Candidates, asked: set<Id>, local: Id, target: Id, limit: nat)
    requires Keyed(candidates, |target|) && local !in candidates && IsNearest(batch, candidates, asked, target, limit)
    ensures |IdsOf(batch)| == |batch| <= limit && asked !! IdsOf(batch) && local !in IdsOf(batch)
  {
    hide Distance, Ascending;
    BatchIdsDiffer(batch, target);
  }

  // ---- What a lookup is asked for, and what it learns ----

  /**
   A lookup: the local id, the target, the nodes known at the start, what the network does in each round, and the
   three limits.
   */
  datatype Search = Search(local: Id, target: Id, first: seq<Node>, round: nat -> Round,
                           concurrency: nat, maxQueries: nat, maxPeers: nat)
  {
    ghost predicate Valid() {
      && |local| == |target| && Sized(first, |target|) && concurrency >= 1 && maxQueries >= 1 && maxPeers >= 1
      && forall k: nat :: RoundSized(round(k), |target|)
    }
  }

  predicate RoundSized(r: Round, width: nat) {
    Sized(r.known, width) && forall id <- r.answers :: Sized(r.answers[id].nodes, width)
  }

  /** The candidates after the answers of a batch, in order; a node without an answer is passed over. */
  function CandidatesAfter(batch: seq<Node>, answers: map<Id, Response>, before: Candidates, local: Id): Candidates {
    if batch == [] then before
    else
      var candidates := CandidatesAfter(batch[..|batch| - 1], answers, before, local);
      var id := batch[|batch| - 1].id;
      if id in answers then AddCandidates(candidates, answers[id].nodes, local) else candidates
  }

  /** The peers after the answers of a batch. */
  function PeersAfter(batch: seq<Node>, answers: map<Id, Response>, before: seq<Peer>, maxPeers: nat): seq<Peer> {
    if batch == [] then before
    else
      var peers := PeersAfter(batch[..|batch| - 1], answers, before, maxPeers);
      var id := batch[|batch| - 1].id;
      if id in answers then AddPeers(peers, answers[id].peers, maxPeers) else peers
  }

  /** How many nodes of a batch answered. */
  function Answering(batch: seq<Node>, answers: map<Id, Response>): nat {
    if batch == [] then 0
    else Answering(batch[..|batch| - 1], answers) + if batch[|batch| - 1].id in answers then 1 else 0
  }

  // A run of a lookup is the sequence of its batches; everything else follows from it.

  /** The nodes asked, in order. */
  function Asked(batches: seq<seq<Node>>): seq<Node> {
    if batches == [] then [] else Asked(batches[..|batches| - 1]) + batches[|batches| - 1]
  }

  /** The candidates learned from the nodes known at the start and from all that was known and answered since. */
  function Learned(s: Search, batches: seq<seq<Node>>): Candidates
    decreases |batches|, 0
  {
    if batches == [] then AddCandidates(map[], s.first, s.local)
    else
      var k := |batches| - 1;
      CandidatesAfter(batches[k], s.round(k).answers, Offered(s, batches[..k]), s.local)
  }

  /** The candidates from which the next batch is chosen: the nodes known by then are added first. */
  function Offered(s: Search, batches: seq<seq<Node>>): Candidates
    decreases |batches|, 1
  {
    AddCandidates(Learned(s, batches), s.round(|batches|).known, s.local)
  }

  function Found(s: Search, batches: seq<seq<Node>>): seq<Peer> {
    if batches == [] then []
    else
      var k := |batches| - 1;
      PeersAfter(batches[k], s.round(k).answers, Found(s, batches[..k]), s.maxPeers)
  }

  function Answered(s: Search, batches: seq<seq<Node>>): nat {
    if batches == [] then 0
    else
      var k := |batches| - 1;
      Answered(s, batches[..k]) + Answering(batches[k], s.round(k).answers)
  }

  /** The guard of the loop: neither limit is reached and the time is not up. */
  predicate GoesOn(s: Search, batches: seq<seq<Node>>) {
    |IdsOf(Asked(batches))| < s.maxQueries && |Found(s, batches)| < s.maxPeers && !s.round(|batches|).timeUp
  }

  /** How many nodes a round may ask when some were asked before. */
  function Limit(s: Search, asked: set<Id>): nat
    requires |asked| < s.maxQueries
  {
    var left := s.maxQueries - |asked|;
    if s.concurrency < left then s.concurrency else left
  }

  /** The batch is what the lookup asks next: the nearest of the candidates not asked before, and not none. */
  predicate IsNext(s: Search, batches: seq<seq<Node>>, batch: seq<Node>) {
    && GoesOn(s, batches) && batch != []
    && Keyed(Offered(s, batches), |s.target|)
    && IsNearest(batch, Offered(s, batches), IdsOf(Asked(batches)), s.target, Limit(s, IdsOf(Asked(batches))))
  }

  predicate IsRun(s: Search, batches: seq<seq<Node>>) {
    forall k :: 0 <= k < |batches| ==> IsNext(s, batches[..k], batches[k])
  }

  /** The run is over: the loop stops, or nobody is left to ask. */
  predicate IsOver(s: Search, batches: seq<seq<Node>>) {
    GoesOn(s, batches) ==> Offered(s, batches).Keys <= IdsOf(Asked(batches))
  }

  /** What the lookup knows when it is over. */
  function LearnedAtEnd(s: Search, batches: seq<seq<Node>>): Candidates {
    if GoesOn(s, batches) then Offered(s, batches) else Learned(s, batches)
  }

  lemma RunParts(s: Search, batches: seq<seq<Node>>)
    requires IsRun(s, batches) && batches != []
    ensures IsRun(s, batches[..|batches| - 1]) && IsNext(s, batches[..|batches| - 1], batches[|batches| - 1])
  {
    hide IsNext;
    var front := batches[..|batches| - 1];
    assert forall k :: 0 <= k < |front| ==> front[..k] == batches[..k] && front[k] == batches[k];
  }

  lemma RunGrows(s: Search, batches: seq<seq<Node>>, batch: seq<Node>)
    requires IsRun(s, batches) && IsNext(s, batches, batch)
    ensures IsRun(s, batches + [batch])
  {
    hide IsNext;
    var more := batches + [batch];
    assert forall k :: 0 <= k < |batches| ==> more[..k] == batches[..k] && more[k] == batches[k];
    assert more[..|batches|] == batches;
  }

  // ---- What is learned is keyed by id, and the local node is never learned ----

  lemma NothingKeyed(local: Id, width: nat)
    ensures Keyed(map[], width) && forall c: Candidates :: c == map[] ==> local !in c
  {
  }

  lemma SizedParts(r: Round, width: nat)
    requires RoundSized(r, width)
    ensures Sized(r.known, width) && forall id <- r.answers :: Sized(r.answers[id].nodes, width)
  {
  }

  lemma {:induction false} AfterKeepsKeyed(batch: seq<Node>, answers: map<Id, Response>, before: Candidates, local: Id, width: nat)
    requires Keyed(before, width) && local !in before && forall id <- answers :: Sized(answers[id].nodes, width)
    ensures Keyed(CandidatesAfter(batch, answers, before, local), width)
    ensures local !in CandidatesAfter(batch, answers, before, local)
  {
    hide Keyed, Sized, AddCandidates;
    if batch == [] {
    } else {
      var front, id := batch[..|batch| - 1], batch[|batch| - 1].id;
      AfterKeepsKeyed(front, answers, before, local, width);
      if id in answers {
        AddKeepsKeyed(CandidatesAfter(front, answers, before, local), answers[id].nodes, local, width);
      }
    }
  }

  lemma {:induction false} LearnedIsKeyed(s: Search, batches: seq<seq<Node>>)
    requires s.Valid()
    ensures Keyed(Learned(s, batches), |s.target|) && s.local !in Learned(s, batches)
    ensures Keyed(Offered(s, batches), |s.target|) && s.local !in Offered(s, batches)
    decreases |batches|
  {
    hide Keyed, Sized, AddCandidates, CandidatesAfter, RoundSized;
    if batches == [] {
      NothingKeyed(s.local, |s.target|);
      AddKeepsKeyed(map[], s.first, s.local, |s.target|);
    } else {
      var k := |batches| - 1;
      LearnedIsKeyed(s, batches[..k]);
      SizedParts(s.round(k), |s.target|);
      AfterKeepsKeyed(batches[k], s.round(k).answers, Offered(s, batches[..k]), s.local, |s.target|);
    }
    SizedParts(s.round(|batches|), |s.target|);
    AddKeepsKeyed(Learned(s, batches), s.round(|batches|).known, s.local, |s.target|);
  }

  // ---- Every run ----

  lemma NothingAsked(s: Search)
    ensures Asked([]) == [] && IdsOf([]) == {} && IsRun(s, []) && Found(s, []) == [] && Answered(s, []) == 0
  {
  }

  lemma AskedGrows(batches: seq<seq<Node>>, batch: seq<Node>)
    ensures Asked(batches + [batch]) == Asked(batches) + batch
    ensures IdsOf(Asked(batches + [batch])) == IdsOf(Asked(batches)) + IdsOf(batch)
  {
    assert (batches + [batch])[..|batches|] == batches;
    IdsJoin(Asked(batches), batch);
  }

  /** All the nodes asked are different, there are at most `maxQueries` of them, and the local node is none of them. */
  lemma {:induction false} AskedAreDifferent(s: Search, batches: seq<seq<Node>>)
    requires s.Valid() && IsRun(s, batches)
    ensures |IdsOf(Asked(batches))| == |Asked(batches)| <= s.maxQueries
    ensures s.local !in IdsOf(Asked(batches)) && |batches| <= |Asked(batches)|
  {
    hide IsRun, IsNearest, Keyed, IdsOf, Offered, Search.Valid, Found;
    if batches == [] {
      NothingAsked(s);
    } else {
      var front, batch := batches[..|batches| - 1], batches[|batches| - 1];
      RunParts(s, batches);
      AskedAreDifferent(s, front);
      LearnedIsKeyed(s, front);
      BatchIsNew(batch, Offered(s, front), IdsOf(Asked(front)), s.local, s.target, Limit(s, IdsOf(Asked(front))));
      IdsJoin(Asked(front), batch);
      DisjointSizes(IdsOf(Asked(front)), IdsOf(batch));
    }
  }

  lemma {:induction false} PeersAfterBound(batch: seq<Node>, answers: map<Id, Response>, before: seq<Peer>, maxPeers: nat)
    requires AllDifferent(before) && |before| < maxPeers
    ensures AllDifferent(PeersAfter(batch, answers, before, maxPeers))
    ensures |PeersAfter(batch, answers, before, maxPeers)| <= if batch == [] then maxPeers - 1 else maxPeers + |batch| - 1
  {
    hide AllDifferent, AddPeers;
    if batch == [] {
    } else {
      var front, id := batch[..|batch| - 1], batch[|batch| - 1].id;
      PeersAfterBound(front, answers, before, maxPeers);
      if id in answers {
        AddPeersBound(PeersAfter(front, answers, before, maxPeers), answers[id].peers, maxPeers);
      }
    }
  }

  /** The peers found are different, and the last batch may bring fewer than `concurrency` beyond the limit. */
  lemma FoundIsBounded(s: Search, batches: seq<seq<Node>>)
    requires s.Valid() && IsRun(s, batches)
    ensures AllDifferent(Found(s, batches)) && |Found(s, batches)| <= s.maxPeers + s.concurrency - 1
  {
    hide IsRun, IsNearest, Keyed, IdsOf, Offered, Asked, AllDifferent, PeersAfter;
    if batches == [] {
      NoPeers();
    } else {
      var front, batch := batches[..|batches| - 1], batches[|batches| - 1];
      RunParts(s, batches);
      FoundIsBounded(s, front);
      PeersAfterBound(batch, s.round(|front|).answers, Found(s, front), s.maxPeers);
      BatchIsShort(batch, Offered(s, front), IdsOf(Asked(front)), s.target, Limit(s, IdsOf(Asked(front))));
    }
  }

  lemma NoPeers()
    ensures AllDifferent<Peer>([])
  {
  }

  lemma BatchIsShort(batch: seq<Node>, candidates: Candidates, asked: set<Id>, target: Id, limit: nat)
    requires Keyed(candidates, |target|) && IsNearest(batch, candidates, asked, target, limit)
    ensures |batch| <= limit
  {
  }

  /** A run that goes on is not over. */
  lemma NextIsNotOver(s: Search, batches: seq<seq<Node>>, batch: seq<Node>)
    requires IsNext(s, batches, batch)
    ensures !IsOver(s, batches)
  {
    hide Offered, Asked, IdsOf, Found, Ascending, Distance;
    assert batch[0] in batch;
  }

  lemma {:induction false} RunsAgree(s: Search, a: seq<seq<Node>>, b: seq<seq<Node>>, k: nat)
    requires IsRun(s, a) && IsRun(s, b) && k <= |a| && k <= |b|
    ensures a[..k] == b[..k]
  {
    hide IsNearest, Keyed, Offered, GoesOn, Limit;
    if k == 0 {
    } else {
      RunsAgree(s, a, b, k - 1);
      assert IsNext(s, a[..k - 1], a[k - 1]) && IsNext(s, b[..k - 1], b[k - 1]);
      NextIsUnique(s, a[..k - 1], a[k - 1], b[k - 1]);
      assert a[..k] == a[..k - 1] + [a[k - 1]] && b[..k] == b[..k - 1] + [b[k - 1]];
    }
  }

  lemma NextIsUnique(s: Search, batches: seq<seq<Node>>, a: seq<Node>, b: seq<Node>)
    requires IsNext(s, batches, a) && IsNext(s, batches, b)
    ensures a == b
  {
    hide IsNearest, Keyed, Offered, Asked, IdsOf, Found;
    NearestIsUnique(a, b, Offered(s, batches), IdsOf(Asked(batches)), s.target, Limit(s, IdsOf(Asked(batches))));
  }

  /** What the network does decides the whole lookup: there is one complete run. */
  lemma LookupIsDetermined(s: Search, a: seq<seq<Node>>, b: seq<seq<Node>>)
    requires IsRun(s, a) && IsOver(s, a) && IsRun(s, b) && IsOver(s, b)
    ensures a == b
  {
    hide IsNext, IsOver;
    var k := if |a| < |b| then |a| else |b|;
    RunsAgree(s, a, b, k);
    assert a[..|a|] == a && b[..|b|] == b;
    if |a| < |b| {
      NextIsNotOver(s, b[..k], b[k]);
    } else if |b| < |a| {
      NextIsNotOver(s, a[..k], a[k]);
    }
  }

  // ---- Nothing is lost ----

  /** Some node asked in this batch answered with this node. */
  predicate Tells(batch: seq<Node>, answers: map<Id, Response>, id: Id) {
    exists n <- batch :: n.id in answers && Includes(answers[n.id].nodes, id)
  }

  /** The node was known when round `k` began, or told in it. */
  predicate ToldIn(s: Search, batches: seq<seq<Node>>, k: nat, id: Id)
    requires k < |batches|
  {
    Includes(s.round(k).known, id) || Tells(batches[k], s.round(k).answers, id)
  }

  lemma IncludesSplits(nodes: seq<Node>, id: Id)
    requires nodes != []
    ensures Includes(nodes, id) <==> nodes[0].id == id || Includes(nodes[1..], id)
  {
    if Includes(nodes, id) {
      var i :| 0 <= i < |nodes| && nodes[i].id == id;
      assert i > 0 ==> nodes[1..][i - 1] == nodes[i];
    } else {
      assert nodes[0] in nodes && forall n <- nodes[1..] :: n in nodes;
    }
  }

  lemma {:induction false} AddedAre(candidates: Candidates, nodes: seq<Node>, local: Id, id: Id)
    ensures id in AddCandidates(candidates, nodes, local) <==> id in candidates || (id != local && Includes(nodes, id))
    decreases |nodes|
  {
    hide Includes;
    if nodes == [] {
      NothingIncluded(id);
    } else {
      IncludesSplits(nodes, id);
      AddedAre(if nodes[0].id == local then candidates else candidates[nodes[0].id := nodes[0]], nodes[1..], local, id);
    }
  }

  lemma NothingIncluded(id: Id)
    ensures !Includes([], id)
  {
  }

  lemma TellsSplits(batch: seq<Node>, answers: map<Id, Response>, id: Id)
    requires batch != []
    ensures var k := |batch| - 1;
      Tells(batch, answers, id) <==>
        Tells(batch[..k], answers, id) || (batch[k].id in answers && Includes(answers[batch[k].id].nodes, id))
  {
    hide Includes;
    assert batch == batch[..|batch| - 1] + [batch[|batch| - 1]];
    assert forall n <- batch :: n in batch[..|batch| - 1] || n == batch[|batch| - 1];
  }

  lemma {:induction false} AfterAre(batch: seq<Node>, answers: map<Id, Response>, before: Candidates, local: Id, id: Id)
    ensures id in CandidatesAfter(batch, answers, before, local) <==> id in before || (id != local && Tells(batch, answers, id))
  {
    hide AddCandidates, Tells, Includes;
    if batch == [] {
      NothingTold(answers, id);
    } else {
      var front, last := batch[..|batch| - 1], batch[|batch| - 1].id;
      AfterAre(front, answers, before, local, id);
      TellsSplits(batch, answers, id);
      if last in answers {
        AddedAre(CandidatesAfter(front, answers, before, local), answers[last].nodes, local, id);
      }
    }
  }

  lemma NothingTold(answers: map<Id, Response>, id: Id)
    ensures !Tells([], answers, id)
  {
  }

  lemma ToldSplits(s: Search, batches: seq<seq<Node>>, id: Id)
    requires batches != []
    ensures var k := |batches| - 1;
      (exists j :: 0 <= j < |batches| && ToldIn(s, batches, j, id)) <==>
        (exists j :: 0 <= j < k && ToldIn(s, batches[..k], j, id))
        || Includes(s.round(k).known, id) || Tells(batches[k], s.round(k).answers, id)
  {
    hide Includes, Tells;
    var k := |batches| - 1;
    assert forall j :: 0 <= j < k ==> (ToldIn(s, batches, j, id) <==> ToldIn(s, batches[..k], j, id));
    assert ToldIn(s, batches, k, id) <==> Includes(s.round(k).known, id) || Tells(batches[k], s.round(k).answers, id);
  }

  /** The candidates learned are exactly the nodes known at the start, known in a round, or told by a node asked. */
  lemma {:induction false} LearnedAreTold(s: Search, batches: seq<seq<Node>>, id: Id)
    ensures id in Learned(s, batches) <==>
      id != s.local && (Includes(s.first, id) || exists k :: 0 <= k < |batches| && ToldIn(s, batches, k, id))
    decreases |batches|
  {
    hide AddCandidates, CandidatesAfter, Includes, Tells;
    if batches == [] {
      AddedAre(map[], s.first, s.local, id);
    } else {
      var k := |batches| - 1;
      LearnedAreTold(s, batches[..k], id);
      AddedAre(Learned(s, batches[..k]), s.round(k).known, s.local, id);
      AfterAre(batches[k], s.round(k).answers, Offered(s, batches[..k]), s.local, id);
      ToldSplits(s, batches, id);
    }
  }

  lemma {:induction false} PeersAre(peers: seq<Peer>, found: seq<Peer>, maxPeers: nat, p: Peer)
    ensures p in AddPeers(peers, found, maxPeers) ==> p in peers || p in found
    ensures |AddPeers(peers, found, maxPeers)| < maxPeers && (p in peers || p in found) ==> p in AddPeers(peers, found, maxPeers)
    ensures |peers| <= |AddPeers(peers, found, maxPeers)|
    decreases |found|
  {
    if found == [] {
    } else {
      assert found == [found[0]] + found[1..];
      PeersAre(if found[0] in peers then peers else peers + [found[0]], found[1..], maxPeers, p);
    }
  }

  /** Some node asked in this batch answered with this peer. */
  predicate Gives(batch: seq<Node>, answers: map<Id, Response>, p: Peer) {
    exists n <- batch :: n.id in answers && p in answers[n.id].peers
  }

  lemma GivesSplits(batch: seq<Node>, answers: map<Id, Response>, p: Peer)
    requires batch != []
    ensures var k := |batch| - 1;
      Gives(batch, answers, p) <==> Gives(batch[..k], answers, p) || (batch[k].id in answers && p in answers[batch[k].id].peers)
  {
    assert batch == batch[..|batch| - 1] + [batch[|batch| - 1]];
    assert forall n <- batch :: n in batch[..|batch| - 1] || n == batch[|batch| - 1];
  }

  lemma {:induction false} PeersAfterAre(batch: seq<Node>, answers: map<Id, Response>, before: seq<Peer>, maxPeers: nat, p: Peer)
    ensures var peers := PeersAfter(batch, answers, before, maxPeers);
      && (p in peers ==> p in before || Gives(batch, answers, p))
      && (|peers| < maxPeers && (p in before || Gives(batch, answers, p)) ==> p in peers)
      && |before| <= |peers|
  {
    hide AddPeers, Gives;
    if batch == [] {
      NothingGiven(answers, p);
    } else {
      var front, last := batch[..|batch| - 1], batch[|batch| - 1].id;
      PeersAfterAre(front, answers, before, maxPeers, p);
      GivesSplits(batch, answers, p);
      if last in answers {
        PeersAre(PeersAfter(front, answers, before, maxPeers), answers[last].peers, maxPeers, p);
      }
    }
  }

  lemma NothingGiven(answers: map<Id, Response>, p: Peer)
    ensures !Gives([], answers, p)
  {
  }

  /** Only peers that a node asked answered with are found, and all of them unless the limit is reached. */
  lemma {:induction false} FoundAreGiven(s: Search, batches: seq<seq<Node>>, p: Peer)
    ensures p in Found(s, batches) ==> exists k :: 0 <= k < |batches| && Gives(batches[k], s.round(k).answers, p)
    ensures |Found(s, batches)| < s.maxPeers && (exists k :: 0 <= k < |batches| && Gives(batches[k], s.round(k).answers, p)) ==>
      p in Found(s, batches)
  {
    hide PeersAfter, Gives;
    if batches == [] {
    } else {
      var k := |batches| - 1;
      FoundAreGiven(s, batches[..k], p);
      PeersAfterAre(batches[k], s.round(k).answers, Found(s, batches[..k]), s.maxPeers, p);
      assert forall j :: 0 <= j < k ==> batches[..k][j] == batches[j];
    }
  }

  // ---- The loops ----

  method TakeAnswers(batch: seq<Node>, answers: map<Id, Response>, before: Candidates, found: seq<Peer>, local: Id, maxPeers: nat)
    returns (candidates: Candidates, peers: seq<Peer>, answering: nat)
    ensures candidates == CandidatesAfter(batch, answers, before, local)
    ensures peers == PeersAfter(batch, answers, found, maxPeers)
    ensures answering == Answering(batch, answers)
  {
    hide AddCandidates, AddPeers;
    candidates, peers, answering := before, found, 0;
    for i := 0 to |batch|
      invariant candidates == CandidatesAfter(batch[..i], answers, before, local)
      invariant peers == PeersAfter(batch[..i], answers, found, maxPeers)
      invariant answering == Answering(batch[..i], answers)
    {
      assert batch[..i + 1][..i] == batch[..i];
      if batch[i].id in answers {
        var answer := answers[batch[i].id];
        answering := answering + 1;
        candidates := AddCandidates(candidates, answer.nodes, local);
        peers := AddPeers(peers, answer.peers, maxPeers);
      }
    }
    assert batch[..|batch|] == batch;
  }

  lemma NearestIsNext(s: Search, batches: seq<seq<Node>>, batch: seq<Node>)
    requires GoesOn(s, batches) && batch != [] && Keyed(Offered(s, batches), |s.target|)
    requires IsNearest(batch, Offered(s, batches), IdsOf(Asked(batches)), s.target, Limit(s, IdsOf(Asked(batches))))
    ensures IsNext(s, batches, batch)
  {
  }

  /** The bookkeeping of one more batch. */
  lemma NextBatch(s: Search, batches: seq<seq<Node>>, batch: seq<Node>)
    requires s.Valid() && IsRun(s, batches) && IsNext(s, batches, batch)
    ensures var k, more := |batches|, batches + [batch];
      && IsRun(s, more) && k < |Asked(more)| == |IdsOf(Asked(more))| <= s.maxQueries
      && IdsOf(Asked(more)) == IdsOf(Asked(batches)) + IdsOf(batch)
      && Learned(s, more) == CandidatesAfter(batch, s.round(k).answers, Offered(s, batches), s.local)
      && Found(s, more) == PeersAfter(batch, s.round(k).answers, Found(s, batches), s.maxPeers)
      && Answered(s, more) == Answered(s, batches) + Answering(batch, s.round(k).answers)
  {
    hide IsNext, IsRun, IsNearest, Keyed, IdsOf, Offered, CandidatesAfter, PeersAfter, Answering;
    assert (batches + [batch])[..|batches|] == batches;
    RunGrows(s, batches, batch);
    AskedGrows(batches, batch);
    AskedAreDifferent(s, batches + [batch]);
  }

  datatype Result = Result(peers: seq<Peer>, queriedNodes: nat, respondingNodes: nat, timedOut: bool, exhausted: bool)

  /**
   The lookup ends, and what it returns is what its one complete run found: each batch is the nearest candidates
   not asked yet among all that was learned by then, and it stops early only when there are enough peers, the time
   is up, or nobody is left to ask. `late` tells whether the time is up when the loop has ended.
   */
  method GetPeers(s: Search, late: bool) returns (result: Result, ghost batches: seq<seq<Node>>)
    requires s.Valid()
    ensures IsRun(s, batches) && IsOver(s, batches)
    ensures result.peers == Found(s, batches) && AllDifferent(result.peers) && |result.peers| <= s.maxPeers + s.concurrency - 1
    ensures result.queriedNodes == |Asked(batches)| <= s.maxQueries && result.respondingNodes == Answered(s, batches)
    ensures result.timedOut == (s.round(|batches|).timeUp || late)
    ensures result.exhausted <==> !result.timedOut && LearnedAtEnd(s, batches).Keys <= IdsOf(Asked(batches))
  {
    hide IsNext, IsNearest, Keyed, IdsOf, Asked, AddCandidates, CandidatesAfter, PeersAfter, RoundSized, AllDifferent;
    var candidates := AddCandidates(map[], s.first, s.local);
    var asked: set<Id> := {};
    var peers: seq<Peer> := [];
    var responding: nat := 0;
    batches := [];
    NothingAsked(s);
    var r: nat := 0;
    var stopped := false;
    while !stopped && |asked| < s.maxQueries && |peers| < s.maxPeers && !s.round(r).timeUp
      invariant r == |batches| <= |asked| <= s.maxQueries && asked == IdsOf(Asked(batches)) && |asked| == |Asked(batches)|
      invariant IsRun(s, batches) && peers == Found(s, batches) && responding == Answered(s, batches)
      invariant candidates == if stopped then Offered(s, batches) else Learned(s, batches)
      invariant stopped ==> GoesOn(s, batches) && IsOver(s, batches)
      decreases s.maxQueries - r, !stopped
    {
      candidates := AddCandidates(candidates, s.round(r).known, s.local);
      LearnedIsKeyed(s, batches);
      var batch := ChooseBatch(candidates, asked, s.target, Limit(s, asked));
      if batch == [] {
        stopped := true;
      } else {
        NearestIsNext(s, batches, batch);
        NextBatch(s, batches, batch);
        asked := asked + IdsOf(batch);
        var answering;
        candidates, peers, answering := TakeAnswers(batch, s.round(r).answers, candidates, peers, s.local, s.maxPeers);
        responding := responding + answering;
        batches := batches + [batch];
        r := r + 1;
      }
    }
    FoundIsBounded(s, batches);
    var timedOut := s.round(r).timeUp || late;
    result := Result(peers, |asked|, responding, timedOut, !timedOut && candidates.Keys <= asked);
  }
}
