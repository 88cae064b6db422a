/** The tracker's least-recently-used cache: a doubly linked list and a map that refine a recency-ordered sequence. */
module LruCache {
  import opened Results

  datatype Entry<T> = Entry(key: string, value: T)

  // ---- The cache as a sequence, the most recently used entry first ----

  function IndexOf<T>(entries: seq<Entry<T>>, key: string): (i: nat)
    ensures i <= |entries| && (i < |entries| ==> entries[i].key == key)
    ensures forall j :: 0 <= j < i ==> entries[j].key != key
  {
    if entries == [] || entries[0].key == key then 0 else 1 + IndexOf(entries[1..], key)
  }

  predicate Has<T>(entries: seq<Entry<T>>, key: string) {
    IndexOf(entries, key) < |entries|
  }

  function DropAt<T>(entries: seq<T>, i: nat): seq<T>
    requires i < |entries|
  {
    entries[..i] + entries[i + 1..]
  }

  function Touched<T>(entries: seq<Entry<T>>, key: string): seq<Entry<T>> {
    var i := IndexOf(entries, key);
    if i < |entries| then [entries[i]] + DropAt(entries, i) else entries
  }

  function Removed<T>(entries: seq<Entry<T>>, key: string): seq<Entry<T>> {
    var i := IndexOf(entries, key);
    if i < |entries| then DropAt(entries, i) else entries
  }

  /** A full cache loses its last entry before a new one comes in. */
  function Evicted<T>(entries: seq<Entry<T>>, capacity: nat): seq<Entry<T>> {
    if |entries| >= capacity && entries != [] then entries[..|entries| - 1] else entries
  }

  function Stored<T>(entries: seq<Entry<T>>, capacity: nat, key: string, value: T): seq<Entry<T>> {
    if Has(entries, key) then [Entry(key, value)] + Removed(entries, key)
    else [Entry(key, value)] + Evicted(entries, capacity)
  }

  predicate DistinctKeys<T>(entries: seq<Entry<T>>) {
    forall i, j :: 0 <= i < j < |entries| ==> entries[i].key != entries[j].key
  }

  // ---- Every run ----

  datatype Op<T> = Put(key: string, value: T) | Get(key: string) | Remove(key: string) | Clear

  function Apply<T>(entries: seq<Entry<T>>, capacity: nat, op: Op<T>): seq<Entry<T>> {
    match op
    case Put(key, value) => Stored(entries, capacity, key, value)
    case Get(key) => Touched(entries, key)
    case Remove(key) => Removed(entries, key)
    case Clear => []
  }

  /** The sequence after the first `n` operations. */
  function After<T>(ops: seq<Op<T>>, capacity: nat, n: nat): seq<Entry<T>>
    requires n <= |ops|
  {
    if n == 0 then [] else Apply(After(ops, capacity, n - 1), capacity, ops[n - 1])
  }

  /** Operation number `n` writes the key or finds it in the cache. */
  predicate Uses<T>(ops: seq<Op<T>>, capacity: nat, n: nat, key: string)
    requires n < |ops|
  {
    (ops[n].Put? && ops[n].key == key) || (ops[n].Get? && ops[n].key == key && Has(After(ops, capacity, n), key))
  }

  /** One more than the number of the last of the first `n` operations that used the key; 0 if none did. */
  function LastUse<T>(ops: seq<Op<T>>, capacity: nat, n: nat, key: string): (r: nat)
    requires n <= |ops|
    ensures r <= n
  {
    if n == 0 then 0 else if Uses(ops, capacity, n - 1, key) then n else LastUse(ops, capacity, n - 1, key)
  }

  function Ranks<T>(ops: seq<Op<T>>, capacity: nat, n: nat): string -> nat
    requires n <= |ops|
  {
    key => LastUse(ops, capacity, n, key)
  }

  /** The ranks of the keys go down. */
  predicate Descending<T>(entries: seq<Entry<T>>, rank: string -> nat) {
    forall i, j :: 0 <= i < j < |entries| ==> rank(entries[i].key) > rank(entries[j].key)
  }

  lemma DropKeeps<T>(entries: seq<Entry<T>>, i: nat, rank: string -> nat)
    requires Descending(entries, rank) && i < |entries|
    ensures Descending(DropAt(entries, i), rank)
    ensures forall j :: 0 <= j < |entries| - 1 ==> DropAt(entries, i)[j] == entries[if j < i then j else j + 1]
  {
  }

  lemma FrontKeeps<T>(first: Entry<T>, rest: seq<Entry<T>>, rank: string -> nat, next: string -> nat, n: nat)
    requires Descending(rest, rank)
    requires forall j :: 0 <= j < |rest| ==> rest[j].key != first.key && rank(rest[j].key) <= n
    requires next(first.key) == n + 1 && forall key :: key != first.key ==> next(key) == rank(key)
    ensures Descending([first] + rest, next)
  {
  }

  lemma SameRanks<T>(entries: seq<Entry<T>>, rank: string -> nat, next: string -> nat)
    requires Descending(entries, rank) && forall key :: next(key) == rank(key)
    ensures Descending(entries, next)
  {
  }

  lemma {:induction false} RankAfter<T>(ops: seq<Op<T>>, capacity: nat, n: nat, key: string)
    requires n < |ops|
    ensures Ranks(ops, capacity, n)(key) <= n
    ensures Ranks(ops, capacity, n + 1)(key) == if Uses(ops, capacity, n, key) then n + 1 else Ranks(ops, capacity, n)(key)
  {
  }

  lemma DescendingKeysDiffer<T>(entries: seq<Entry<T>>, rank: string -> nat)
    requires Descending(entries, rank)
    ensures DistinctKeys(entries)
  {
  }

  lemma RanksAfter<T>(ops: seq<Op<T>>, capacity: nat, n: nat)
    requires n < |ops|
    ensures forall key :: Ranks(ops, capacity, n)(key) <= n
    ensures forall key :: Ranks(ops, capacity, n + 1)(key) ==
                          if Uses(ops, capacity, n, key) then n + 1 else Ranks(ops, capacity, n)(key)
  {
    forall key ensures Ranks(ops, capacity, n)(key) <= n
      && Ranks(ops, capacity, n + 1)(key) == if Uses(ops, capacity, n, key) then n + 1 else Ranks(ops, capacity, n)(key) {
      RankAfter(ops, capacity, n, key);
    }
  }

  lemma HitStep<T>(before: seq<Entry<T>>, capacity: nat, op: Op<T>, i: nat, rank: string -> nat, next: string -> nat, n: nat)
    requires !op.Clear? && i == IndexOf(before, op.key) && i < |before| && Descending(before, rank)
    requires forall key :: rank(key) <= n
    requires forall key :: next(key) == if !op.Remove? && key == op.key then n + 1 else rank(key)
    ensures Descending(Apply(before, capacity, op), next)
  {
    hide Descending;
    DescendingKeysDiffer(before, rank);
    DropKeeps(before, i, rank);
    if op.Remove? {
      SameRanks(DropAt(before, i), rank, next);
    } else {
      FrontKeeps(if op.Put? then Entry(op.key, op.value) else before[i], DropAt(before, i), rank, next, n);
    }
  }

  lemma MissStep<T>(before: seq<Entry<T>>, capacity: nat, op: Op<T>, rank: string -> nat, next: string -> nat, n: nat)
    requires !op.Clear? && !Has(before, op.key) && Descending(before, rank)
    requires forall key :: rank(key) <= n
    requires forall key :: next(key) == if op.Put? && key == op.key then n + 1 else rank(key)
    ensures Descending(Apply(before, capacity, op), next)
  {
    hide Descending;
    if op.Put? {
      var rest := Evicted(before, capacity);
      if rest != before {
        DropKeeps(before, |before| - 1, rank);
        assert rest == DropAt(before, |before| - 1);
      }
      FrontKeeps(Entry(op.key, op.value), rest, rank, next, n);
    } else {
      SameRanks(before, rank, next);
    }
  }

  lemma RecencyStep<T>(ops: seq<Op<T>>, capacity: nat, n: nat)
    requires n < |ops| && Descending(After(ops, capacity, n), Ranks(ops, capacity, n))
    ensures Descending(After(ops, capacity, n + 1), Ranks(ops, capacity, n + 1))
  {
    hide LastUse, Descending, Ranks, Apply;
    var before, op := After(ops, capacity, n), ops[n];
    var rank, next := Ranks(ops, capacity, n), Ranks(ops, capacity, n + 1);
    RanksAfter(ops, capacity, n);
    forall key ensures next(key) ==
        if (op.Put? && key == op.key) || (op.Get? && key == op.key && Has(before, key)) then n + 1 else rank(key) {
      RankAfter(ops, capacity, n, key);
    }
    if op.Clear? {
      NothingDescends<T>(next);
      Cleared(before, capacity);
    } else if Has(before, op.key) {
      HitStep(before, capacity, op, IndexOf(before, op.key), rank, next, n);
    } else {
      MissStep(before, capacity, op, rank, next, n);
    }
  }

  lemma Cleared<T>(entries: seq<Entry<T>>, capacity: nat)
    ensures Apply(entries, capacity, Clear) == []
  {
  }

  lemma NothingDescends<T>(rank: string -> nat)
    ensures Descending<T>([], rank)
  {
  }

  lemma SizeStep<T>(entries: seq<Entry<T>>, capacity: nat, op: Op<T>)
    requires |entries| <= if capacity == 0 then 1 else capacity
    ensures |Apply(entries, capacity, op)| <= if capacity == 0 then 1 else capacity
  {
  }

  /**
   Over every run the entries are distinct, ordered by last use and never more than fit, one at least; so an
   eviction, which takes the last entry, takes the key used the longest ago.
   */
  lemma {:induction false} RunsAreByRecency<T>(ops: seq<Op<T>>, capacity: nat, n: nat)
    requires n <= |ops|
    ensures var entries := After(ops, capacity, n);
      && (forall i, j :: 0 <= i < j < |entries| ==>
            LastUse(ops, capacity, n, entries[i].key) > LastUse(ops, capacity, n, entries[j].key))
      && DistinctKeys(entries)
      && |entries| <= if capacity == 0 then 1 else capacity
  {
    RunDescends(ops, capacity, n);
    DescendingKeysDiffer(After(ops, capacity, n), Ranks(ops, capacity, n));
  }

  lemma {:induction false} RunDescends<T>(ops: seq<Op<T>>, capacity: nat, n: nat)
    requires n <= |ops|
    ensures Descending(After(ops, capacity, n), Ranks(ops, capacity, n))
    ensures |After(ops, capacity, n)| <= if capacity == 0 then 1 else capacity
  {
    hide Ranks, Descending, Apply;
    if n == 0 {
      NothingDescends<T>(Ranks(ops, capacity, n));
    } else {
      RunDescends(ops, capacity, n - 1);
      RecencyStep(ops, capacity, n - 1);
      SizeStep(After(ops, capacity, n - 1), capacity, ops[n - 1]);
    }
  }

  // ---- The linked list ----

  class Node<T> {
    const key: string
    var value: T
    var prev: Node?<T>
    var next: Node?<T>

    constructor (key: string, value: T)
      ensures this.key == key && this.value == value && prev == null && next == null
    {
      this.key, this.value, prev, next := key, value, null, null;
    }
  }

  ghost predicate Distinct<T>(nodes: seq<Node<T>>) {
    forall i, j :: 0 <= i < j < |nodes| ==> nodes[i] != nodes[j]
  }

  ghost predicate LinkedAt<T>(nodes: seq<Node<T>>, i: nat)
    requires i < |nodes|
    reads nodes[i]
  {
    && nodes[i].prev == (if i == 0 then null else nodes[i - 1])
    && nodes[i].next == (if i == |nodes| - 1 then null else nodes[i + 1])
  }

  /** The nodes in list order, linked both ways, with nothing before the first and nothing behind the last. */
  ghost predicate Linked<T>(nodes: seq<Node<T>>)
    reads nodes
  {
    Distinct(nodes) && forall i :: 0 <= i < |nodes| ==> LinkedAt(nodes, i)
  }

  /** The map leads from exactly the keys of the nodes to these nodes. */
  ghost predicate Indexed<T>(index: map<string, Node<T>>, nodes: seq<Node<T>>) {
    && (forall key <- index :: index[key].key == key && index[key] in nodes)
    && (forall n <- nodes :: n.key in index && index[n.key] == n)
  }

  lemma UpdatedDrop<U>(s: seq<U>, i: nat, x: U)
    requires i < |s|
    ensures s[i := x][i] == x && DropAt(s[i := x], i) == DropAt(s, i)
  {
  }

  lemma LastDropped<U>(s: seq<U>)
    requires s != []
    ensures DropAt(s, |s| - 1) == s[..|s| - 1]
  {
  }

  lemma FrontDrops<U>(s: seq<U>)
    requires s != []
    ensures [s[0]] + DropAt(s, 0) == s
  {
  }

  lemma DropMembers<U>(s: seq<U>, i: nat)
    requires i < |s|
    ensures forall x <- DropAt(s, i) :: x in s
  {
  }

  lemma NotLeft<T>(nodes: seq<Node<T>>, i: nat)
    requires Linked(nodes) && i < |nodes|
    ensures nodes[i] !in DropAt(nodes, i)
  {
    var left := DropAt(nodes, i);
    forall k | 0 <= k < |left| ensures left[k] != nodes[i] {
      assert left[k] == nodes[if k < i then k else k + 1];
    }
  }

  lemma IndexedMoved<T>(index: map<string, Node<T>>, nodes: seq<Node<T>>, i: nat)
    requires Indexed(index, nodes) && i < |nodes|
    ensures Indexed(index, [nodes[i]] + DropAt(nodes, i)) && |DropAt(nodes, i)| == |nodes| - 1
  {
    var moved := [nodes[i]] + DropAt(nodes, i);
    forall n <- nodes ensures n in moved {
      var k :| 0 <= k < |nodes| && nodes[k] == n;
      assert k != i ==> DropAt(nodes, i)[if k < i then k else k - 1] == n;
    }
  }

  lemma IndexedDropped<T>(index: map<string, Node<T>>, nodes: seq<Node<T>>, i: nat)
    requires Indexed(index, nodes) && Linked(nodes) && i < |nodes|
    ensures nodes[i].key in index && Indexed(index - {nodes[i].key}, DropAt(nodes, i)) && |DropAt(nodes, i)| == |nodes| - 1
    ensures forall n <- DropAt(nodes, i) :: n in nodes
  {
    var left := DropAt(nodes, i);
    assert nodes[i] in nodes;
    forall k | 0 <= k < |left| ensures left[k] in nodes && left[k] != nodes[i] {
      assert left[k] == nodes[if k < i then k else k + 1];
    }
    forall n <- nodes | n != nodes[i] ensures n in left {
      var k :| 0 <= k < |nodes| && nodes[k] == n;
      assert left[if k < i then k else k - 1] == n;
    }
  }

  lemma IndexedAdded<T>(index: map<string, Node<T>>, nodes: seq<Node<T>>, node: Node<T>)
    requires Indexed(index, nodes) && node.key !in index
    ensures Indexed(index[node.key := node], [node] + nodes)
  {
  }

  ghost function EntriesOf<T>(nodes: seq<Node<T>>): (r: seq<Entry<T>>)
    reads nodes
    ensures |r| == |nodes| && forall i :: 0 <= i < |nodes| ==> r[i] == Entry(nodes[i].key, nodes[i].value)
  {
    seq(|nodes|, i requires 0 <= i < |nodes| reads nodes => Entry(nodes[i].key, nodes[i].value))
  }

  class LRUCache<T> {
    var index: map<string, Node<T>>
    var head: Node?<T>
    var tail: Node?<T>
    const capacity: nat
    var size: nat
    ghost var nodes: seq<Node<T>>

    ghost predicate ListValid()
      reads this`head, this`tail, this`nodes, nodes
    {
      && Linked(nodes)
      && head == (if nodes == [] then null else nodes[0])
      && tail == (if nodes == [] then null else nodes[|nodes| - 1])
    }

    ghost predicate Valid()
      reads this, nodes
    {
      ListValid() && Indexed(index, nodes) && size == |nodes|
    }

    ghost function View(): seq<Entry<T>>
      reads this`nodes, nodes
    {
      EntriesOf(nodes)
    }

    constructor (capacity: nat)
      ensures Valid() && View() == [] && this.capacity == capacity
    {
      this.capacity := capacity;
      index, head, tail, size, nodes := map[], null, null, 0, [];
    }

    method Link(node: Node<T>)
      requires ListValid() && node !in nodes
      modifies this`head, this`tail, this`nodes, node`prev, node`next, nodes
      ensures ListValid() && nodes == [node] + old(nodes)
      ensures node.value == old(node.value)
      ensures forall i :: 0 <= i < |old(nodes)| ==> old(nodes)[i].value == old(nodes[i].value)
    {
      node.prev := null;
      node.next := head;
      if head != null {
        head.prev := node;
      }
      head := node;
      if tail == null {
        tail := node;
      }
      nodes := [node] + nodes;
      forall k | 0 <= k < |nodes| ensures LinkedAt(nodes, k) {
        if k > 0 {
          assert old(LinkedAt(nodes, k - 1));
        }
      }
    }

    method AddToFront(node: Node<T>)
      requires ListValid() && node !in nodes
      modifies this`head, this`tail, this`nodes, node`prev, node`next, nodes
      ensures ListValid() && nodes == [node] + old(nodes)
      ensures View() == [Entry(node.key, node.value)] + old(View())
    {
      hide Linked, ListValid;
      Link(node);
    }

    method Unlink(node: Node<T>, ghost i: nat)
      requires ListValid() && i < |nodes| && nodes[i] == node
      modifies this`head, this`tail, this`nodes, nodes
      ensures ListValid() && nodes == DropAt(old(nodes), i)
      ensures forall n <- old(nodes) :: n.value == old(n.value)
    {
      assert LinkedAt(nodes, i);
      if node.prev != null {
        assert LinkedAt(nodes, i - 1);
        node.prev.next := node.next;
      } else {
        head := node.next;
      }
      if node.next != null {
        node.next.prev := node.prev;
      } else {
        tail := node.prev;
      }
      node.prev := null;
      node.next := null;
      nodes := DropAt(nodes, i);
      forall k | 0 <= k < |nodes| ensures LinkedAt(nodes, k) {
        var was := if k < i then k else k + 1;
        assert nodes[k] == old(nodes)[was] && old(LinkedAt(nodes, was));
      }
    }

    /** Takes the node at position `i` out of the list. */
    method RemoveNode(node: Node<T>, ghost i: nat)
      requires ListValid() && i < |nodes| && nodes[i] == node
      modifies this`head, this`tail, this`nodes, nodes
      ensures ListValid() && nodes == DropAt(old(nodes), i) && node !in nodes && node.value == old(node.value)
      ensures View() == DropAt(old(View()), i)
    {
      NotLeft(nodes, i);
      ghost var before, was := View(), nodes;
      Unlink(node, i);
      assert node in was;
      forall k | 0 <= k < |nodes| ensures View()[k] == DropAt(before, i)[k] {
        var j := if k < i then k else k + 1;
        assert nodes[k] == was[j] && was[j] in was;
      }
    }

    method MoveToFront(node: Node<T>, ghost i: nat)
      requires ListValid() && i < |nodes| && nodes[i] == node
      modifies this`head, this`tail, this`nodes, nodes
      ensures ListValid() && nodes == [node] + DropAt(old(nodes), i) && node.value == old(node.value)
      ensures View() == [old(View())[i]] + DropAt(old(View()), i)
    {
      hide Linked, ListValid, EntriesOf;
      ViewAt(i);
      if node == head {
        HeadIsFirst(node, i);
        FrontDrops(nodes);
        FrontDrops(View());
        return;
      }
      ghost var was := nodes;
      DropMembers(was, i);
      RemoveNode(node, i);
      assert node in was && forall n <- nodes :: n in was;
      AddToFront(node);
    }

    lemma HeadIsFirst(node: Node<T>, i: nat)
      requires ListValid() && i < |nodes| && nodes[i] == node == head
      ensures i == 0
    {
    }

    lemma ViewAt(i: nat)
      requires i < |nodes|
      ensures |View()| == |nodes| && View()[i] == Entry(nodes[i].key, nodes[i].value)
    {
    }

    /** The position of a key's node, and that it is the position of the key in the sequence. */
    lemma Position(key: string) returns (i: nat)
      requires Valid() && key in index
      ensures i < |nodes| && nodes[i] == index[key] && i == IndexOf(View(), key)
    {
      i :| 0 <= i < |nodes| && nodes[i] == index[key];
      var entries := View();
      var first := IndexOf(entries, key);
      assert first <= i;
      assert nodes[first] in nodes;
    }

    lemma Absent(key: string)
      requires Valid() && key !in index
      ensures !Has(View(), key)
    {
      forall i | 0 <= i < |nodes| ensures View()[i].key != key {
        assert nodes[i] in nodes;
      }
    }

    method Get(key: string) returns (value: Option<T>)
      requires Valid()
      modifies this`head, this`tail, this`nodes, nodes
      ensures Valid() && View() == Touched(old(View()), key)
      ensures var i := IndexOf(old(View()), key);
        value == if i < |old(View())| then Some(old(View())[i].value) else None
    {
      hide Linked, Indexed, IndexOf;
      if key !in index {
        Absent(key);
        return None;
      }
      var node := index[key];
      ghost var i := Position(key);
      IndexedMoved(index, nodes, i);
      MoveToFront(node, i);
      value := Some(node.value);
    }

    /** Takes the node at position `i` out of the list and its key out of the map. */
    method RemoveEntry(node: Node<T>, ghost i: nat)
      requires Valid() && i < |nodes| && nodes[i] == node
      modifies this`index, this`head, this`tail, this`size, this`nodes, nodes
      ensures Valid() && View() == DropAt(old(View()), i) && nodes == DropAt(old(nodes), i)
      ensures index.Keys <= old(index.Keys)
    {
      hide Linked, Indexed, ListValid, EntriesOf, DropAt;
      Parts(i);
      IndexedDropped(index, nodes, i);
      RemoveNode(node, i);
      index := index - {node.key};
      size := size - 1;
    }

    lemma Parts(i: nat)
      requires Valid() && i < |nodes|
      ensures Linked(nodes) && head != null && tail == nodes[|nodes| - 1]
    {
    }

    method Evict()
      requires Valid()
      modifies this`index, this`head, this`tail, this`size, this`nodes, nodes
      ensures Valid() && index.Keys <= old(index.Keys)
      ensures nodes == if old(nodes) == [] then [] else old(nodes)[..|old(nodes)| - 1]
      ensures View() == if old(View()) == [] then [] else old(View())[..|old(View())| - 1]
    {
      hide Linked, Indexed;
      if tail == null {
        return;
      }
      LastDropped(View());
      LastDropped(nodes);
      RemoveEntry(tail, |nodes| - 1);
    }

    method Renew(node: Node<T>, ghost i: nat, value: T)
      requires Valid() && i < |nodes| && nodes[i] == node
      modifies node`value
      ensures Valid() && View() == old(View())[i := Entry(node.key, value)]
    {
      node.value := value;
      forall k | 0 <= k < |nodes| ensures LinkedAt(nodes, k) {
        assert old(LinkedAt(nodes, k));
      }
    }

    method Update(node: Node<T>, ghost i: nat, value: T)
      requires Valid() && i < |nodes| && nodes[i] == node
      modifies this`head, this`tail, this`nodes, nodes
      ensures Valid() && View() == [Entry(node.key, value)] + DropAt(old(View()), i)
    {
      hide Linked, Indexed, ListValid, DropAt;
      ghost var before := View();
      Renew(node, i, value);
      IndexedMoved(index, nodes, i);
      UpdatedDrop(before, i, Entry(node.key, value));
      MoveToFront(node, i);
    }

    method Insert(node: Node<T>)
      requires Valid() && node !in nodes && node.key !in index
      modifies this`index, this`head, this`tail, this`size, this`nodes, node`prev, node`next, nodes
      ensures Valid() && View() == [Entry(node.key, node.value)] + old(View())
    {
      hide Linked, Indexed, ListValid, EntriesOf;
      IndexedAdded(index, nodes, node);
      AddToFront(node);
      index := index[node.key := node];
      size := size + 1;
    }

    method Put(key: string, value: T)
      requires Valid()
      modifies this, nodes
      ensures Valid() && View() == Stored(old(View()), capacity, key, value)
    {
      hide Linked, Indexed, IndexOf, ListValid, EntriesOf;
      if key in index {
        ghost var i := Position(key);
        Update(index[key], i, value);
        return;
      }
      Absent(key);
      SizeOfView();
      var node := new Node(key, value);
      if size >= capacity {
        Evict();
      }
      Insert(node);
    }

    lemma SizeOfView()
      requires Valid()
      ensures |View()| == |nodes| == size
    {
    }

    method Remove(key: string) returns (removed: bool)
      requires Valid()
      modifies this, nodes
      ensures Valid() && View() == Removed(old(View()), key) && (removed <==> Has(old(View()), key))
    {
      hide Linked, Indexed, IndexOf;
      if key !in index {
        Absent(key);
        return false;
      }
      var node := index[key];
      ghost var i := Position(key);
      RemoveEntry(node, i);
      removed := true;
    }

    method HasKey(key: string) returns (r: bool)
      requires Valid()
      ensures r <==> Has(View(), key)
    {
      r := key in index;
      if r {
        ghost var i := Position(key);
      } else {
        Absent(key);
      }
    }

    method Clear()
      requires Valid()
      modifies this
      ensures Valid() && View() == []
    {
      index, head, tail, size, nodes := map[], null, null, 0, [];
    }

    /** Walks the list from its head. */
    method Entries() returns (entries: seq<Entry<T>>)
      requires Valid()
      ensures entries == View()
    {
      entries := [];
      var current := head;
      ghost var i := 0;
      while current != null
        invariant i <= |nodes| && current == (if i < |nodes| then nodes[i] else null)
        invariant entries == View()[..i]
        decreases |nodes| - i
      {
        assert LinkedAt(nodes, i);
        entries := entries + [Entry(current.key, current.value)];
        current := current.next;
        i := i + 1;
      }
    }
  }
}
