/** The k-buckets of the routing table, and the insertion of nodes with a probe before replacement (BEP 5). */
module RoutingTable {
  import opened Results
  import opened Arithmetic
  import opened IdSpace

  const BUCKET_CAPACITY: nat := 8

  datatype Node = Node(id: nat, addr: string, port: nat)

  // ---- One bucket: a list of nodes, the most recent first ----

  function Find(nodes: seq<Node>, id: nat): Option<Node> {
    if nodes == [] then None else if nodes[0].id == id then Some(nodes[0]) else Find(nodes[1..], id)
  }

  /** The contact data of the node with this id, if there is one, is renewed in place. */
  function Renew(nodes: seq<Node>, node: Node): seq<Node> {
    if nodes == [] then []
    else if nodes[0].id == node.id then [node] + nodes[1..]
    else [nodes[0]] + Renew(nodes[1..], node)
  }

  function Remove(nodes: seq<Node>, id: nat): seq<Node> {
    if nodes == [] then [] else if nodes[0].id == id then nodes[1..] else [nodes[0]] + Remove(nodes[1..], id)
  }

  function Add(nodes: seq<Node>, node: Node): seq<Node> {
    if Find(nodes, node.id).Some? then Renew(nodes, node)
    else if |nodes| >= BUCKET_CAPACITY then nodes
    else [node] + nodes
  }

  predicate Replaces(nodes: seq<Node>, stale: Node, replacement: Node) {
    Find(nodes, stale.id).Some? && Find(nodes, replacement.id).None?
  }

  function Replace(nodes: seq<Node>, stale: Node, replacement: Node): seq<Node> {
    if Replaces(nodes, stale, replacement) then Add(Remove(nodes, stale.id), replacement) else nodes
  }

  /** Distinct ids, all in the range, and no more than fit. */
  predicate Stocked(nodes: seq<Node>, range: Range) {
    && |nodes| <= BUCKET_CAPACITY
    && (forall n <- nodes :: range.Contains(n.id))
    && forall i, j :: 0 <= i < j < |nodes| ==> nodes[i].id != nodes[j].id
  }

  lemma {:induction false} FindIsMember(nodes: seq<Node>, id: nat)
    ensures Find(nodes, id).Some? <==> exists n <- nodes :: n.id == id
    ensures Find(nodes, id).Some? ==> Find(nodes, id).value in nodes && Find(nodes, id).value.id == id
  {
    if nodes == [] {
    } else {
      FindIsMember(nodes[1..], id);
      assert nodes == [nodes[0]] + nodes[1..];
    }
  }

  lemma {:induction false} RenewKeepsIds(nodes: seq<Node>, node: Node)
    ensures |Renew(nodes, node)| == |nodes|
    ensures forall i :: 0 <= i < |nodes| ==> Renew(nodes, node)[i].id == nodes[i].id
  {
    if nodes != [] && nodes[0].id != node.id {
      RenewKeepsIds(nodes[1..], node);
    }
  }

  /** Removing takes out the first node with that id, if there is one. */
  lemma {:induction false} RemoveIs(nodes: seq<Node>, id: nat) returns (i: nat)
    ensures i <= |nodes| && (i < |nodes| ==> nodes[i].id == id) && forall j :: 0 <= j < i ==> nodes[j].id != id
    ensures Find(nodes, id).Some? <==> i < |nodes|
    ensures Remove(nodes, id) == if i < |nodes| then nodes[..i] + nodes[i + 1..] else nodes
  {
    if nodes == [] || nodes[0].id == id {
      i := 0;
    } else {
      i := RemoveIs(nodes[1..], id);
      i := i + 1;
      assert nodes == [nodes[0]] + nodes[1..];
    }
  }

  lemma RemoveTakesOne(nodes: seq<Node>, id: nat, range: Range)
    requires Stocked(nodes, range)
    ensures Stocked(Remove(nodes, id), range)
    ensures |Remove(nodes, id)| == if Find(nodes, id).Some? then |nodes| - 1 else |nodes|
    ensures forall n :: n in Remove(nodes, id) <==> n in nodes && n.id != id
  {
    hide Find, Remove, Range.Contains;
    var i := RemoveIs(nodes, id);
    if i < |nodes| {
      WithoutOne(nodes, i);
    }
  }

  lemma WithoutOne(nodes: seq<Node>, i: nat)
    requires i < |nodes| && forall j, k :: 0 <= j < k < |nodes| ==> nodes[j].id != nodes[k].id
    ensures var left := nodes[..i] + nodes[i + 1..];
      && (forall j, k :: 0 <= j < k < |left| ==> left[j].id != left[k].id)
      && forall n :: n in left <==> n in nodes && n.id != nodes[i].id
  {
    var left := nodes[..i] + nodes[i + 1..];
    forall n | n in nodes && n.id != nodes[i].id ensures n in left {
      var j :| 0 <= j < |nodes| && nodes[j] == n;
      assert left[if j < i then j else j - 1] == n;
    }
  }

  lemma AddStocks(nodes: seq<Node>, node: Node, range: Range)
    requires Stocked(nodes, range) && range.Contains(node.id)
    ensures Stocked(Add(nodes, node), range)
    ensures forall n <- nodes :: exists m <- Add(nodes, node) :: m.id == n.id
  {
    FindIsMember(nodes, node.id);
    if Find(nodes, node.id).Some? {
      RenewKeepsIds(nodes, node);
      forall n <- nodes ensures exists m <- Add(nodes, node) :: m.id == n.id {
        var i :| 0 <= i < |nodes| && nodes[i] == n;
        assert Renew(nodes, node)[i] in Renew(nodes, node);
      }
      forall m <- Renew(nodes, node) ensures range.Contains(m.id) {
        var i :| 0 <= i < |nodes| && Renew(nodes, node)[i] == m;
        assert nodes[i] in nodes;
      }
    } else if |nodes| < BUCKET_CAPACITY {
      forall n <- nodes ensures exists m <- Add(nodes, node) :: m.id == n.id {
        assert n in Add(nodes, node);
      }
    }
  }

  /** A replacement takes the stale node's place: it is in, the stale node is out, every other node stays. */
  lemma ReplaceStocks(nodes: seq<Node>, stale: Node, replacement: Node, range: Range)
    requires Stocked(nodes, range) && range.Contains(replacement.id)
    ensures Stocked(Replace(nodes, stale, replacement), range)
    ensures var after := Replace(nodes, stale, replacement);
      if Replaces(nodes, stale, replacement)
      then forall n :: n in after <==> n == replacement || (n in nodes && n.id != stale.id)
      else after == nodes
  {
    if Replaces(nodes, stale, replacement) {
      RemoveTakesOne(nodes, stale.id, range);
      var left := Remove(nodes, stale.id);
      FindIsMember(left, replacement.id);
      FindIsMember(nodes, replacement.id);
      assert Find(left, replacement.id).None?;
      AddStocks(left, replacement, range);
    }
  }

  // ---- The table ----

  datatype Table = Table(ranges: seq<Range>, contents: seq<seq<Node>>)

  /** The first bucket whose range holds the id, or the number of buckets. */
  function Home(ranges: seq<Range>, id: nat): (k: nat)
    ensures k <= |ranges| && (k < |ranges| ==> ranges[k].Contains(id))
    ensures k == |ranges| ==> forall j :: 0 <= j < |ranges| ==> !ranges[j].Contains(id)
  {
    if ranges == [] then 0 else if ranges[0].Contains(id) then 0 else 1 + Home(ranges[1..], id)
  }

  predicate Paired(t: Table) {
    |t.ranges| == |t.contents|
  }

  function SetBucket(t: Table, k: nat, nodes: seq<Node>): Table
    requires Paired(t) && k < |t.ranges|
    ensures Paired(SetBucket(t, k, nodes))
  {
    t.(contents := t.contents[k := nodes])
  }

  function TableAdd(t: Table, node: Node): Table
    requires Paired(t)
  {
    var k := Home(t.ranges, node.id);
    if k < |t.ranges| then SetBucket(t, k, Add(t.contents[k], node)) else t
  }

  function TableRemove(t: Table, node: Node): Table
    requires Paired(t)
  {
    var k := Home(t.ranges, node.id);
    if k < |t.ranges| then SetBucket(t, k, Remove(t.contents[k], node.id)) else t
  }

  function TableReplace(t: Table, stale: Node, replacement: Node): Table
    requires Paired(t)
  {
    var k := Home(t.ranges, replacement.id);
    if k < |t.ranges| then SetBucket(t, k, Replace(t.contents[k], stale, replacement)) else t
  }

  /** The least recent node of the full bucket that a new node would go to. */
  function Candidate(t: Table, node: Node): Option<Node>
    requires Paired(t)
  {
    var k := Home(t.ranges, node.id);
    if k == |t.ranges| || Find(t.contents[k], node.id).Some? || |t.contents[k]| < BUCKET_CAPACITY then None
    else Some(t.contents[k][|t.contents[k]| - 1])
  }

  /** There is room for a node not yet stored. */
  predicate Gains(t: Table, node: Node)
    requires Paired(t)
  {
    var k := Home(t.ranges, node.id);
    k < |t.ranges| && Find(t.contents[k], node.id).None? && |t.contents[k]| < BUCKET_CAPACITY
  }

  predicate CanReplace(t: Table, stale: Node, replacement: Node)
    requires Paired(t)
  {
    var k := Home(t.ranges, replacement.id);
    k < |t.ranges| && Replaces(t.contents[k], stale, replacement)
  }

  predicate NotOverfull(t: Table) {
    forall nodes <- t.contents :: |nodes| <= BUCKET_CAPACITY
  }

  predicate Stores(t: Table, id: nat) {
    exists k :: 0 <= k < |t.contents| && Find(t.contents[k], id).Some?
  }

  /** Each node sits in the bucket of its range, ids are distinct in a bucket, no bucket is overfull. */
  ghost predicate InPlace(t: Table) {
    Paired(t) && Disjoint(t.ranges) && forall k :: 0 <= k < |t.ranges| ==> Stocked(t.contents[k], t.ranges[k])
  }

  // ---- Insertions under way ----

  /** A node waits for the answer of the bucket's least recent node. */
  datatype Probe = Probe(candidate: Node, node: Node)

  datatype State = State(table: Table, probes: seq<Probe>)

  datatype Event = Consider(node: Node) | ProbeEnds(index: nat, reachable: bool) | Drop(node: Node)

  function Step(s: State, e: Event): State
    requires Paired(s.table)
  {
    match e
    case Consider(node) =>
      if Stores(s.table, node.id) || Candidate(s.table, node).None? then s.(table := TableAdd(s.table, node))
      else s.(probes := s.probes + [Probe(Candidate(s.table, node).value, node)])
    case ProbeEnds(index, reachable) =>
      if index >= |s.probes| then s
      else
        var probe := s.probes[index];
        State(if reachable then s.table else TableReplace(s.table, probe.candidate, probe.node),
              s.probes[..index] + s.probes[index + 1..])
    case Drop(node) => s.(table := TableRemove(s.table, node))
  }

  function Run(s: State, events: seq<Event>): State
    requires Paired(s.table)
    decreases |events|
  {
    if events == [] then s else Run(Step(s, events[0]), events[1..])
  }

  function Initial(ranges: seq<Range>): State {
    State(Table(ranges, seq(|ranges|, _ => [])), [])
  }

  lemma SetInPlace(t: Table, k: nat, nodes: seq<Node>)
    requires InPlace(t) && k < |t.ranges| && Stocked(nodes, t.ranges[k])
    ensures InPlace(SetBucket(t, k, nodes))
  {
    hide Stocked, Disjoint;
  }

  lemma StepStaysInPlace(s: State, e: Event)
    requires InPlace(s.table)
    ensures InPlace(Step(s, e).table) && Step(s, e).table.ranges == s.table.ranges
  {
    hide Stocked, Disjoint, Add, Remove, Replace, Find;
    var t := s.table;
    match e
    case Consider(node) =>
      var k := Home(t.ranges, node.id);
      if k < |t.ranges| {
        AddStocks(t.contents[k], node, t.ranges[k]);
        SetInPlace(t, k, Add(t.contents[k], node));
      }
    case ProbeEnds(index, reachable) =>
      if index < |s.probes| {
        var probe := s.probes[index];
        var k := Home(t.ranges, probe.node.id);
        if k < |t.ranges| {
          ReplaceStocks(t.contents[k], probe.candidate, probe.node, t.ranges[k]);
          SetInPlace(t, k, Replace(t.contents[k], probe.candidate, probe.node));
        }
      }
    case Drop(node) =>
      var k := Home(t.ranges, node.id);
      if k < |t.ranges| {
        RemoveTakesOne(t.contents[k], node.id, t.ranges[k]);
        SetInPlace(t, k, Remove(t.contents[k], node.id));
      }
  }

  lemma {:induction false} RunStaysInPlace(s: State, events: seq<Event>)
    requires InPlace(s.table)
    ensures InPlace(Run(s, events).table) && Run(s, events).table.ranges == s.table.ranges
    decreases |events|
  {
    hide Step, Disjoint;
    if events == [] {
    } else {
      StepStaysInPlace(s, events[0]);
      RunStaysInPlace(Step(s, events[0]), events[1..]);
    }
  }

  /**
   After every interleaving of insertions, probe results and removals over the buckets of a local id: each stored
   node is in the one bucket whose range holds its id, ids are distinct over the whole table, no bucket is overfull
   and the local id is not stored.
   */
  lemma TableStaysInPlace(local: Id, events: seq<Event>, k: nat, i: nat, l: nat, j: nat)
    ensures var ranges := GenerateBuckets(Value(local), 0, Pow2(|local|) - 1);
      ranges.Some? &&
      var t := Run(Initial(ranges.value), events).table;
      && t.ranges == ranges.value && |t.ranges| == |local| && |t.contents| == |local|
      && (k < |local| ==> |t.contents[k]| <= BUCKET_CAPACITY)
      && (k < |local| && i < |t.contents[k]| ==>
            var node := t.contents[k][i];
            && t.ranges[k].Contains(node.id) && OnlyRange(t.ranges, node.id, k) && node.id != Value(local)
            && (l < |local| && j < |t.contents[l]| && t.contents[l][j].id == node.id ==> l == k && j == i))
  {
    BucketsFollowTheMetric(local);
    RangesAreDisjoint(local);
    hide GenerateBuckets, Run, Value, Pow2, Home, Distance, InShell, InOneRange;
    var ranges := GenerateBuckets(Value(local), 0, Pow2(|local|) - 1).value;
    var start := Initial(ranges);
    assert InPlace(start.table);
    RunStaysInPlace(start, events);
    var t := Run(start, events).table;
    if k < |local| && i < |t.contents[k]| {
      assert Stocked(t.contents[k], t.ranges[k]);
      assert t.contents[k][i] in t.contents[k];
      if l < |local| && j < |t.contents[l]| && t.contents[l][j].id == t.contents[k][i].id {
        assert Stocked(t.contents[l], t.ranges[l]);
        assert t.contents[l][j] in t.contents[l];
      }
    }
  }

  /**
   A step takes an id out of the table only by dropping it, or after a failed probe of the node with that id, and
   then the node that waited for the probe is stored instead.
   */
  lemma LostOnlyAfterFailedProbe(s: State, e: Event, id: nat)
    requires InPlace(s.table) && Stores(s.table, id) && !Stores(Step(s, e).table, id)
    ensures !e.Consider?
    ensures e.ProbeEnds? ==>
      && e.index < |s.probes| && !e.reachable && s.probes[e.index].candidate.id == id
      && Stores(Step(s, e).table, s.probes[e.index].node.id)
    ensures e.Drop? ==> e.node.id == id
  {
    hide Stocked, Disjoint, Add, Remove, Replace, Find;
    var t, after := s.table, Step(s, e).table;
    var was :| 0 <= was < |t.contents| && Find(t.contents[was], id).Some?;
    FindIsMember(t.contents[was], id);
    FindIsMember(after.contents[was], id);
    assert t.contents[was] != after.contents[was] && was < |t.ranges|;
    match e
    case Consider(node) => AddStocks(t.contents[was], node, t.ranges[was]);
    case ProbeEnds(index, reachable) =>
      var probe := s.probes[index];
      ReplaceStocks(t.contents[was], probe.candidate, probe.node, t.ranges[was]);
      FindIsMember(after.contents[was], probe.node.id);
    case Drop(node) => RemoveTakesOne(t.contents[was], node.id, t.ranges[was]);
  }

  // ---- The objects ----

  class Bucket {
    const range: Range
    /** The most recent first. */
    var nodes: seq<Node>

    constructor (range: Range)
      ensures this.range == range && nodes == []
    {
      this.range := range;
      nodes := [];
    }

    method IndexOf(id: nat) returns (i: nat)
      ensures i <= |nodes| && (i < |nodes| ==> nodes[i].id == id) && forall j :: 0 <= j < i ==> nodes[j].id != id
    {
      i := 0;
      while i < |nodes| && nodes[i].id != id
        invariant i <= |nodes| && forall j :: 0 <= j < i ==> nodes[j].id != id
      {
        i := i + 1;
      }
    }

    method AddNode(node: Node) returns (added: bool)
      modifies this
      ensures nodes == Add(old(nodes), node)
      ensures added <==> Find(old(nodes), node.id).None? && |old(nodes)| < BUCKET_CAPACITY
    {
      var i := IndexOf(node.id);
      AtIndex(nodes, node, i);
      if i < |nodes| {
        nodes := nodes[i := node];
        return false;
      }
      added := |nodes| < BUCKET_CAPACITY;
      if added {
        nodes := [node] + nodes;
      }
    }

    method RemoveNode(node: Node) returns (removed: bool)
      modifies this
      ensures nodes == Remove(old(nodes), node.id) && (removed <==> Find(old(nodes), node.id).Some?)
    {
      var i := IndexOf(node.id);
      AtIndex(nodes, node, i);
      removed := i < |nodes|;
      if removed {
        nodes := nodes[..i] + nodes[i + 1..];
      }
    }

    method ReplaceNode(stale: Node, replacement: Node) returns (replaced: bool)
      modifies this
      ensures nodes == Replace(old(nodes), stale, replacement)
      ensures |old(nodes)| <= BUCKET_CAPACITY ==> (replaced <==> Replaces(old(nodes), stale, replacement))
    {
      var i := IndexOf(stale.id);
      AtIndex(nodes, stale, i);
      if i == |nodes| {
        return false;
      }
      i := IndexOf(replacement.id);
      AtIndex(nodes, replacement, i);
      if i < |nodes| {
        return false;
      }
      ghost var before := nodes;
      var removed := RemoveNode(stale);
      replaced := AddNode(replacement);
      RemovedIsSmaller(before, stale.id, replacement.id);
    }
  }

  lemma {:induction false} AtIndex(nodes: seq<Node>, node: Node, i: nat)
    requires i <= |nodes| && (i < |nodes| ==> nodes[i].id == node.id)
    requires forall j :: 0 <= j < i ==> nodes[j].id != node.id
    ensures Find(nodes, node.id).Some? <==> i < |nodes|
    ensures i < |nodes| ==> Renew(nodes, node) == nodes[i := node] && Remove(nodes, node.id) == nodes[..i] + nodes[i + 1..]
    ensures i == |nodes| ==> Remove(nodes, node.id) == nodes
  {
    if nodes != [] && i > 0 {
      AtIndex(nodes[1..], node, i - 1);
    }
  }

  lemma {:induction false} RemovedIsSmaller(nodes: seq<Node>, id: nat, other: nat)
    requires Find(nodes, id).Some? && Find(nodes, other).None?
    ensures |Remove(nodes, id)| == |nodes| - 1 && Find(Remove(nodes, id), other).None?
  {
    if nodes[0].id != id {
      RemovedIsSmaller(nodes[1..], id, other);
    }
  }

  class KBuckets {
    const buckets: seq<Bucket>

    /** An empty bucket for each range. */
    constructor (ranges: seq<Range>)
      ensures Valid() && View() == Initial(ranges).table && forall b <- buckets :: fresh(b)
    {
      var made: seq<Bucket> := [];
      for i := 0 to |ranges|
        invariant |made| == i && forall j :: 0 <= j < i ==> fresh(made[j]) && made[j].range == ranges[j] && made[j].nodes == []
        invariant forall j, k :: 0 <= j < k < i ==> made[j] != made[k]
      {
        var bucket := new Bucket(ranges[i]);
        made := made + [bucket];
      }
      buckets := made;
    }

    ghost predicate Valid() {
      forall i, j :: 0 <= i < j < |buckets| ==> buckets[i] != buckets[j]
    }

    ghost function View(): (t: Table)
      reads buckets
      ensures Paired(t)
    {
      Table(seq(|buckets|, i requires 0 <= i < |buckets| => buckets[i].range),
            seq(|buckets|, i requires 0 <= i < |buckets| reads buckets => buckets[i].nodes))
    }

    method HomeOf(id: nat) returns (k: nat)
      ensures k == Home(View().ranges, id) && k <= |buckets|
    {
      ghost var ranges := View().ranges;
      k := 0;
      while k < |buckets| && !buckets[k].range.Contains(id)
        invariant k <= |buckets| && Home(ranges, id) == k + Home(ranges[k..], id)
      {
        k := k + 1;
      }
    }

    method AddNode(node: Node) returns (added: bool)
      requires Valid()
      modifies buckets
      ensures View() == TableAdd(old(View()), node) && (added <==> Gains(old(View()), node))
    {
      var k := HomeOf(node.id);
      if k == |buckets| {
        return false;
      }
      added := buckets[k].AddNode(node);
    }

    method ReplacementCandidate(node: Node) returns (candidate: Option<Node>)
      ensures candidate == Candidate(View(), node)
    {
      var k := HomeOf(node.id);
      if k == |buckets| {
        return None;
      }
      var i := buckets[k].IndexOf(node.id);
      AtIndex(buckets[k].nodes, Node(node.id, "", 0), i);
      if i < |buckets[k].nodes| || |buckets[k].nodes| < BUCKET_CAPACITY {
        return None;
      }
      candidate := Some(buckets[k].nodes[|buckets[k].nodes| - 1]);
    }

    method FindNode(id: nat) returns (found: bool)
      ensures found <==> Stores(View(), id)
    {
      ghost var contents := View().contents;
      for k := 0 to |buckets|
        invariant forall j :: 0 <= j < k ==> Find(contents[j], id).None?
      {
        var i := buckets[k].IndexOf(id);
        AtIndex(buckets[k].nodes, Node(id, "", 0), i);
        assert contents[k] == buckets[k].nodes;
        if i < |buckets[k].nodes| {
          return true;
        }
      }
      return false;
    }

    /** The part before the probe; a returned probe is to be followed by FinishProbe with its result. */
    method ConsiderNode(node: Node) returns (probe: Option<Probe>, kept: bool)
      requires Valid()
      modifies buckets
      ensures Step(State(old(View()), []), Consider(node)) ==
        State(View(), if probe.Some? then [probe.value] else [])
      ensures probe.None? ==> (kept <==> Stores(old(View()), node.id) || Gains(old(View()), node))
    {
      probe, kept := None, false;
      var known := FindNode(node.id);
      if known {
        var added := AddNode(node);
        return None, true;
      }
      var candidate := ReplacementCandidate(node);
      if candidate.None? {
        kept := AddNode(node);
      } else {
        probe := Some(Probe(candidate.value, node));
      }
    }

    method FinishProbe(probe: Probe, reachable: bool) returns (replaced: bool)
      requires Valid()
      modifies buckets
      ensures Step(State(old(View()), [probe]), ProbeEnds(0, reachable)) == State(View(), [])
      ensures NotOverfull(old(View())) ==>
        (replaced <==> !reachable && CanReplace(old(View()), probe.candidate, probe.node))
    {
      replaced := false;
      if !reachable {
        replaced := ReplaceNode(probe.candidate, probe.node);
      }
    }

    method ReplaceNode(stale: Node, replacement: Node) returns (replaced: bool)
      requires Valid()
      modifies buckets
      ensures View() == TableReplace(old(View()), stale, replacement)
      ensures NotOverfull(old(View())) ==> (replaced <==> CanReplace(old(View()), stale, replacement))
    {
      var k := HomeOf(replacement.id);
      if k == |buckets| {
        return false;
      }
      replaced := buckets[k].ReplaceNode(stale, replacement);
    }

    method RemoveNode(node: Node)
      requires Valid()
      modifies buckets
      ensures View() == TableRemove(old(View()), node)
    {
      var k := HomeOf(node.id);
      if k < |buckets| {
        var removed := buckets[k].RemoveNode(node);
      }
    }
  }
}
