/**
 What a lookup of peers has to show for its rounds: when a round may begin and the lookup may end, how many nodes have
 answered, whose contact data it keeps, and in which order the peers were found.
 */
module LookupHistory {
  import opened IdSpace
  import opened NodeLookup

  // ---- When rounds begin and when the lookup ends ----

  /** A round begins only in time, while fewer nodes than allowed were asked and fewer peers than wanted found. */
  lemma RoundsAreDue(s: Search, batches: seq<seq<Node>>, k: nat)
    requires s.Valid() && IsRun(s, batches) && k < |batches|
    ensures !s.round(k).timeUp && |Asked(batches[..k])| < s.maxQueries && |Found(s, batches[..k])| < s.maxPeers
    ensures 1 <= |batches[k]| <= s.concurrency && |Asked(batches[..k])| + |batches[k]| <= s.maxQueries
  {
    hide IsNearest, Keyed, IdsOf, Offered, Found, Asked, Search.Valid;
    var front := batches[..k];
    assert forall j :: 0 <= j < k ==> front[..j] == batches[..j] && front[j] == batches[j];
    AskedAreDifferent(s, front);
    LearnedIsKeyed(s, front);
    BatchIsShort(batches[k], Offered(s, front), IdsOf(Asked(front)), s.target, Limit(s, IdsOf(Asked(front))));
  }

  /** Every candidate has been asked. */
  predicate NobodyLeft(s: Search, batches: seq<seq<Node>>) {
    forall id <- Offered(s, batches) :: exists n <- Asked(batches) :: n.id == id
  }

  lemma NobodyLeftIs(s: Search, batches: seq<seq<Node>>)
    ensures NobodyLeft(s, batches) <==> Offered(s, batches).Keys <= IdsOf(Asked(batches))
  {
    hide Offered, Asked, IdsOf;
    AskedIds(Asked(batches));
    assert Offered(s, batches).Keys <= IdsOf(Asked(batches)) <==> forall id <- Offered(s, batches) :: id in IdsOf(Asked(batches));
  }

  /** A lookup is over exactly when as many nodes as allowed were asked, enough peers found, the time up, or nobody is left. */
  lemma OverExactly(s: Search, batches: seq<seq<Node>>)
    requires s.Valid() && IsRun(s, batches)
    ensures IsOver(s, batches) <==>
      |Asked(batches)| == s.maxQueries || |Found(s, batches)| >= s.maxPeers || s.round(|batches|).timeUp || NobodyLeft(s, batches)
  {
    hide IsRun, Offered, Found, Asked, Search.Valid, IdsOf, NobodyLeft;
    AskedAreDifferent(s, batches);
    NobodyLeftIs(s, batches);
  }

  lemma AskedIds(nodes: seq<Node>)
    ensures forall id :: id in IdsOf(nodes) <==> exists n <- nodes :: n.id == id
  {
  }

  // ---- How many nodes have answered ----

  function AnsweringIds(batch: seq<Node>, answers: map<Id, Response>): set<Id> {
    set n <- batch | n.id in answers :: n.id
  }

  lemma {:induction false} AnsweringCounts(batch: seq<Node>, answers: map<Id, Response>)
    requires forall i, j :: 0 <= i < j < |batch| ==> batch[i].id != batch[j].id
    ensures Answering(batch, answers) == |AnsweringIds(batch, answers)|
  {
    if batch == [] {
    } else {
      var front, last := batch[..|batch| - 1], batch[|batch| - 1];
      AnsweringCounts(front, answers);
      assert batch == front + [last];
      OneMoreAnswers(front, last, answers);
    }
  }

  lemma OneMoreAnswers(front: seq<Node>, last: Node, answers: map<Id, Response>)
    requires forall i :: 0 <= i < |front| ==> front[i].id != last.id
    ensures last.id !in AnsweringIds(front, answers)
    ensures AnsweringIds(front + [last], answers) == AnsweringIds(front, answers) + if last.id in answers then {last.id} else {}
  {
    var batch := front + [last];
    assert forall n <- batch :: n in front || n == last;
    assert forall n <- front :: n in batch;
    assert last in batch;
  }

  /** The nodes that answered in the round in which they were asked. */
  function AnsweredIds(s: Search, batches: seq<seq<Node>>): set<Id> {
    set k, n | 0 <= k < |batches| && n in batches[k] && n.id in s.round(k).answers :: n.id
  }

  lemma AnsweredGrows(s: Search, batches: seq<seq<Node>>)
    requires batches != []
    ensures var k := |batches| - 1;
      AnsweredIds(s, batches) == AnsweredIds(s, batches[..k]) + AnsweringIds(batches[k], s.round(k).answers)
  {
    var k := |batches| - 1;
    var front := batches[..k];
    forall id ensures id in AnsweredIds(s, batches) <==> id in AnsweredIds(s, front) + AnsweringIds(batches[k], s.round(k).answers) {
      if id in AnsweredIds(s, batches) {
        var j, n: Node :| 0 <= j < |batches| && n in batches[j] && n.id in s.round(j).answers && n.id == id;
        assert j < k ==> n in front[j];
      }
      if id in AnsweredIds(s, front) {
        var j, n: Node :| 0 <= j < |front| && n in front[j] && n.id in s.round(j).answers && n.id == id;
        assert n in batches[j];
      }
    }
  }

  lemma {:induction false} AnsweredWereAsked(s: Search, batches: seq<seq<Node>>)
    ensures AnsweredIds(s, batches) <= IdsOf(Asked(batches))
  {
    hide AnsweredIds;
    if batches == [] {
      NobodyAnswered(s);
    } else {
      var k := |batches| - 1;
      AnsweredWereAsked(s, batches[..k]);
      AnsweredGrows(s, batches);
      IdsJoin(Asked(batches[..k]), batches[k]);
    }
  }

  lemma NobodyAnswered(s: Search)
    ensures AnsweredIds(s, []) == {}
  {
  }

  lemma BatchDiffers(batch: seq<Node>, candidates: Candidates, asked: set<Id>, target: Id, limit: nat)
    requires Keyed(candidates, |target|) && IsNearest(batch, candidates, asked, target, limit)
    ensures forall i, j :: 0 <= i < j < |batch| ==> batch[i].id != batch[j].id
  {
    hide Distance, Includes;
  }

  /** The number reported is the number of different nodes that answered. */
  lemma {:induction false} AnsweredCounts(s: Search, batches: seq<seq<Node>>)
    requires s.Valid() && IsRun(s, batches)
    ensures Answered(s, batches) == |AnsweredIds(s, batches)|
  {
    hide IsRun, IsNearest, Keyed, IdsOf, Offered, Search.Valid, Found, Answering, AnsweringIds, AnsweredIds, Asked;
    if batches == [] {
      NobodyAnswered(s);
    } else {
      var k := |batches| - 1;
      var front, batch, answers := batches[..k], batches[k], s.round(k).answers;
      RunParts(s, batches);
      AnsweredCounts(s, front);
      AnsweredWereAsked(s, front);
      LearnedIsKeyed(s, front);
      var limit := Limit(s, IdsOf(Asked(front)));
      BatchIsNew(batch, Offered(s, front), IdsOf(Asked(front)), s.local, s.target, limit);
      BatchDiffers(batch, Offered(s, front), IdsOf(Asked(front)), s.target, limit);
      AnsweringCounts(batch, answers);
      AnsweredGrows(s, batches);
      AnsweringAreAsked(batch, answers);
      DisjointSizes(AnsweredIds(s, front), AnsweringIds(batch, answers));
    }
  }

  lemma AnsweringAreAsked(batch: seq<Node>, answers: map<Id, Response>)
    ensures AnsweringIds(batch, answers) <= IdsOf(batch)
  {
  }

  // ---- Whose contact data is kept ----

  /** The nodes that the answers of a batch tell, in order. */
  function Told(batch: seq<Node>, answers: map<Id, Response>): seq<Node> {
    if batch == [] then []
    else
      var last := batch[|batch| - 1].id;
      Told(batch[..|batch| - 1], answers) + if last in answers then answers[last].nodes else []
  }

  /** All nodes that the lookup has heard of, in order, however often. */
  function Heard(s: Search, batches: seq<seq<Node>>): seq<Node> {
    if batches == [] then s.first
    else
      var k := |batches| - 1;
      Heard(s, batches[..k]) + s.round(k).known + Told(batches[k], s.round(k).answers)
  }

  lemma {:induction false} AddJoins(candidates: Candidates, a: seq<Node>, b: seq<Node>, local: Id)
    ensures AddCandidates(candidates, a + b, local) == AddCandidates(AddCandidates(candidates, a, local), b, local)
    decreases |a|
  {
    if a == [] {
      assert a + b == b;
    } else {
      assert (a + b)[1..] == a[1..] + b;
      AddJoins(if a[0].id == local then candidates else candidates[a[0].id := a[0]], a[1..], b, local);
    }
  }

  lemma {:induction false} AfterIs(batch: seq<Node>, answers: map<Id, Response>, before: Candidates, local: Id)
    ensures CandidatesAfter(batch, answers, before, local) == AddCandidates(before, Told(batch, answers), local)
  {
    hide AddCandidates;
    if batch == [] {
      NothingAdded(before, local);
    } else {
      var front, last := batch[..|batch| - 1], batch[|batch| - 1].id;
      AfterIs(front, answers, before, local);
      AddJoins(before, Told(front, answers), if last in answers then answers[last].nodes else [], local);
      NothingAdded(CandidatesAfter(front, answers, before, local), local);
    }
  }

  lemma NothingAdded(candidates: Candidates, local: Id)
    ensures AddCandidates(candidates, [], local) == candidates
  {
  }

  lemma {:induction false} LearnedIs(s: Search, batches: seq<seq<Node>>)
    ensures Learned(s, batches) == AddCandidates(map[], Heard(s, batches), s.local)
  {
    hide AddCandidates, CandidatesAfter;
    if batches == [] {
    } else {
      var k := |batches| - 1;
      LearnedIs(s, batches[..k]);
      AddJoins(map[], Heard(s, batches[..k]), s.round(k).known, s.local);
      AfterIs(batches[k], s.round(k).answers, Offered(s, batches[..k]), s.local);
      AddJoins(map[], Heard(s, batches[..k]) + s.round(k).known, Told(batches[k], s.round(k).answers), s.local);
    }
  }

  /** The last node with this id. */
  ghost predicate IsLast(nodes: seq<Node>, i: nat, id: Id) {
    i < |nodes| && nodes[i].id == id && forall j :: i < j < |nodes| ==> nodes[j].id != id
  }

  lemma LastInTail(nodes: seq<Node>, i: nat, id: Id)
    requires nodes != [] && IsLast(nodes[1..], i, id)
    ensures IsLast(nodes, i + 1, id) && nodes[i + 1] == nodes[1..][i]
  {
    forall j | i + 1 < j < |nodes| ensures nodes[j].id != id {
      assert nodes[1..][j - 1] == nodes[j];
    }
  }

  lemma {:induction false} LastWins(candidates: Candidates, nodes: seq<Node>, local: Id, id: Id)
    requires local !in candidates
    ensures var after := AddCandidates(candidates, nodes, local);
      id in after ==>
        || (exists i: nat :: IsLast(nodes, i, id) && nodes[i] == after[id])
        || (id in candidates && after[id] == candidates[id] && forall j :: 0 <= j < |nodes| ==> nodes[j].id != id)
    decreases |nodes|
  {
    if nodes != [] && id in AddCandidates(candidates, nodes, local) {
      var next := if nodes[0].id == local then candidates else candidates[nodes[0].id := nodes[0]];
      LastWins(next, nodes[1..], local, id);
      hide IsLast, AddCandidates;
      var after := AddCandidates(next, nodes[1..], local);
      if i: nat :| IsLast(nodes[1..], i, id) && nodes[1..][i] == after[id] {
        LastInTail(nodes, i, id);
      } else {
        FirstIsLast(nodes, id);
      }
    }
  }

  lemma FirstIsLast(nodes: seq<Node>, id: Id)
    requires nodes != [] && forall j :: 0 <= j < |nodes| - 1 ==> nodes[1..][j].id != id
    ensures nodes[0].id == id ==> IsLast(nodes, 0, id)
    ensures nodes[0].id != id ==> forall j :: 0 <= j < |nodes| ==> nodes[j].id != id
  {
    assert forall j :: 0 < j < |nodes| ==> nodes[j] == nodes[1..][j - 1];
  }

  /** A candidate stands with the contact data with which it was heard of last. */
  lemma CandidatesAreLatest(s: Search, batches: seq<seq<Node>>, id: Id) returns (i: nat)
    requires id in Learned(s, batches)
    ensures IsLast(Heard(s, batches), i, id) && Heard(s, batches)[i] == Learned(s, batches)[id]
  {
    hide AddCandidates, Heard, Learned;
    LearnedIs(s, batches);
    var heard := Heard(s, batches);
    LastWins(map[], heard, s.local, id);
    i :| IsLast(heard, i, id) && heard[i] == Learned(s, batches)[id];
  }

  /** What was heard of by the end: the nodes known to a round that finds nobody to ask count, too. */
  function HeardAtEnd(s: Search, batches: seq<seq<Node>>): seq<Node> {
    Heard(s, batches)
    + if |Asked(batches)| < s.maxQueries && |Found(s, batches)| < s.maxPeers && !s.round(|batches|).timeUp
      then s.round(|batches|).known else []
  }

  /** A lookup is reported as exhausted, when the time is not up, exactly when all nodes heard of were asked, the local one apart. */
  lemma ExhaustedExactly(s: Search, batches: seq<seq<Node>>)
    requires s.Valid() && IsRun(s, batches)
    ensures LearnedAtEnd(s, batches).Keys <= IdsOf(Asked(batches)) <==>
      forall n <- HeardAtEnd(s, batches) :: n.id != s.local ==> exists m <- Asked(batches) :: m.id == n.id
  {
    hide IsRun, Asked, Search.Valid, AddCandidates, Heard, Learned, Found, IdsOf;
    AskedAreDifferent(s, batches);
    AskedIds(Asked(batches));
    LearnedIs(s, batches);
    AddJoins(map[], Heard(s, batches), s.round(|batches|).known, s.local);
    var heard, learned, asked := HeardAtEnd(s, batches), LearnedAtEnd(s, batches), IdsOf(Asked(batches));
    assert Heard(s, batches) + [] == Heard(s, batches);
    assert learned == AddCandidates(map[], heard, s.local);
    forall id ensures id in learned <==> id != s.local && exists n <- heard :: n.id == id {
      AddedAre(map[], heard, s.local, id);
    }
    if learned.Keys <= asked {
      forall n <- heard | n.id != s.local ensures exists m <- Asked(batches) :: m.id == n.id {
        assert n.id in learned;
      }
    }
  }

  // ---- The order of the peers ----

  /** The peers that the answers of a batch give, in order. */
  function GivenBy(batch: seq<Node>, answers: map<Id, Response>): seq<Peer> {
    if batch == [] then []
    else
      var last := batch[|batch| - 1].id;
      GivenBy(batch[..|batch| - 1], answers) + if last in answers then answers[last].peers else []
  }

  /** All peers that were given, in order, however often. */
  function Given(s: Search, batches: seq<seq<Node>>): seq<Peer> {
    if batches == [] then []
    else
      var k := |batches| - 1;
      Given(s, batches[..k]) + GivenBy(batches[k], s.round(k).answers)
  }

  /** The peers stand in the list at these places, in the same order. */
  predicate StandAt(peers: seq<Peer>, given: seq<Peer>, at: seq<nat>) {
    && |at| == |peers| && (forall i :: 0 <= i < |at| ==> at[i] < |given| && given[at[i]] == peers[i])
    && forall i, j :: 0 <= i < j < |at| ==> at[i] < at[j]
  }

  lemma StandBefore(peers: seq<Peer>, given: seq<Peer>, more: seq<Peer>, at: seq<nat>)
    requires StandAt(peers, given, at)
    ensures StandAt(peers, given + more, at)
  {
  }

  lemma {:induction false} AddStand(peers: seq<Peer>, given: seq<Peer>, found: seq<Peer>, maxPeers: nat, at: seq<nat>) returns (places: seq<nat>)
    requires StandAt(peers, given, at)
    ensures StandAt(AddPeers(peers, found, maxPeers), given + found, places)
    decreases |found|
  {
    hide StandAt;
    if found == [] {
      assert given + found == given;
      places := at;
    } else {
      var next := given + [found[0]];
      assert next + found[1..] == given + found;
      if found[0] in peers {
        StandBefore(peers, given, [found[0]], at);
        places := AddStand(peers, next, found[1..], maxPeers, at);
      } else {
        OneMoreStands(peers, given, found[0], at);
        if |peers| + 1 >= maxPeers {
          places := at + [|given|];
          StandBefore(peers + [found[0]], next, found[1..], places);
        } else {
          places := AddStand(peers + [found[0]], next, found[1..], maxPeers, at + [|given|]);
        }
      }
    }
  }

  lemma OneMoreStands(peers: seq<Peer>, given: seq<Peer>, peer: Peer, at: seq<nat>)
    requires StandAt(peers, given, at)
    ensures StandAt(peers + [peer], given + [peer], at + [|given|])
  {
  }

  lemma {:induction false} AfterStand(batch: seq<Node>, answers: map<Id, Response>, before: seq<Peer>, given: seq<Peer>, maxPeers: nat, at: seq<nat>)
    returns (places: seq<nat>)
    requires StandAt(before, given, at)
    ensures StandAt(PeersAfter(batch, answers, before, maxPeers), given + GivenBy(batch, answers), places)
  {
    hide StandAt, AddPeers;
    if batch == [] {
      assert given + GivenBy(batch, answers) == given;
      places := at;
    } else {
      var front, last := batch[..|batch| - 1], batch[|batch| - 1].id;
      places := AfterStand(front, answers, before, given, maxPeers, at);
      var so := given + GivenBy(front, answers);
      if last in answers {
        places := AddStand(PeersAfter(front, answers, before, maxPeers), so, answers[last].peers, maxPeers, places);
        assert so + answers[last].peers == given + GivenBy(batch, answers);
      } else {
        assert so == given + GivenBy(batch, answers);
      }
    }
  }

  /** The peers found stand in the order in which they were given. */
  lemma {:induction false} FoundInOrder(s: Search, batches: seq<seq<Node>>) returns (at: seq<nat>)
    ensures StandAt(Found(s, batches), Given(s, batches), at)
  {
    hide PeersAfter, GivenBy;
    if batches == [] {
      at := [];
    } else {
      hide StandAt;
      var k := |batches| - 1;
      at := FoundInOrder(s, batches[..k]);
      at := AfterStand(batches[k], s.round(k).answers, Found(s, batches[..k]), Given(s, batches[..k]), s.maxPeers, at);
    }
  }
}
