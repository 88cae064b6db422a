/** What the tracker's cache holds after a run, told by its operations alone: which keys, and with which values. */
module LruHistory {
  import opened Results
  import opened LruCache

  predicate Holds<T>(entries: seq<Entry<T>>, key: string) {
    exists i :: 0 <= i < |entries| && entries[i].key == key
  }

  /** The value of the last of the first `n` operations that put the key. */
  function LastPut<T>(ops: seq<Op<T>>, n: nat, key: string): Option<T>
    requires n <= |ops|
  {
    if n == 0 then None
    else if ops[n - 1].Put? && ops[n - 1].key == key then Some(ops[n - 1].value)
    else LastPut(ops, n - 1, key)
  }

  /** The values that a cache may hold: each entry has the one that was put last for its key. */
  predicate Current<T(==)>(entries: seq<Entry<T>>, ops: seq<Op<T>>, n: nat)
    requires n <= |ops|
  {
    forall i :: 0 <= i < |entries| ==> LastPut(ops, n, entries[i].key) == Some(entries[i].value)
  }

  /** Each entry of the new sequence is in the old one. */
  predicate Within<T(==)>(entries: seq<Entry<T>>, before: seq<Entry<T>>) {
    forall i :: 0 <= i < |entries| ==> entries[i] in before
  }

  lemma TouchedIsWithin<T>(entries: seq<Entry<T>>, key: string)
    ensures Within(Touched(entries, key), entries)
  {
  }

  lemma RemovedIsWithin<T>(entries: seq<Entry<T>>, key: string)
    requires DistinctKeys(entries)
    ensures Within(Removed(entries, key), entries) && !Holds(Removed(entries, key), key)
    ensures forall other :: other != key && Holds(entries, other) ==> Holds(Removed(entries, key), other)
  {
    var i, left := IndexOf(entries, key), Removed(entries, key);
    if i < |entries| {
      forall k | 0 <= k < |left| ensures left[k] in entries && left[k].key != key {
        assert left[k] == entries[if k < i then k else k + 1];
      }
      forall other | other != key && Holds(entries, other) ensures Holds(left, other) {
        var j :| 0 <= j < |entries| && entries[j].key == other;
        assert left[if j < i then j else j - 1].key == other;
      }
    }
  }

  lemma EvictedIsWithin<T>(entries: seq<Entry<T>>, capacity: nat)
    ensures Within(Evicted(entries, capacity), entries)
  {
  }

  lemma WithinIsCurrent<T>(entries: seq<Entry<T>>, before: seq<Entry<T>>, ops: seq<Op<T>>, n: nat)
    requires n < |ops| && Current(before, ops, n) && Within(entries, before)
    requires ops[n].Put? ==> forall i :: 0 <= i < |entries| ==> entries[i].key != ops[n].key
    ensures Current(entries, ops, n + 1)
  {
    forall i | 0 <= i < |entries| ensures LastPut(ops, n + 1, entries[i].key) == Some(entries[i].value) {
      var j :| 0 <= j < |before| && before[j] == entries[i];
    }
  }

  lemma StoredIsCurrent<T>(before: seq<Entry<T>>, capacity: nat, ops: seq<Op<T>>, n: nat)
    requires n < |ops| && Current(before, ops, n) && DistinctKeys(before) && ops[n].Put?
    ensures Current(Stored(before, capacity, ops[n].key, ops[n].value), ops, n + 1)
  {
    hide Removed, Evicted, Within;
    var key := ops[n].key;
    var rest := if Has(before, key) then Removed(before, key) else Evicted(before, capacity);
    RemovedIsWithin(before, key);
    EvictedIsWithin(before, capacity);
    if !Has(before, key) {
      NotAmong(rest, before, key);
    }
    WithinIsCurrent(rest, before, ops, n);
    assert Stored(before, capacity, key, ops[n].value) == [Entry(key, ops[n].value)] + rest;
  }

  lemma NotAmong<T>(entries: seq<Entry<T>>, before: seq<Entry<T>>, key: string)
    requires Within(entries, before) && !Has(before, key)
    ensures forall i :: 0 <= i < |entries| ==> entries[i].key != key
  {
  }

  /** Over every run the value held for a key is that of the last put of that key. */
  lemma {:induction false} ValuesAreLastPut<T>(ops: seq<Op<T>>, capacity: nat, n: nat)
    requires n <= |ops|
    ensures forall i :: 0 <= i < |After(ops, capacity, n)| ==>
      LastPut(ops, n, After(ops, capacity, n)[i].key) == Some(After(ops, capacity, n)[i].value)
  {
    hide Touched, Removed, Stored, Within;
    if n == 0 {
    } else {
      ValuesAreLastPut(ops, capacity, n - 1);
      RunsAreByRecency(ops, capacity, n - 1);
      var before, op := After(ops, capacity, n - 1), ops[n - 1];
      match op
      case Put(key, value) => StoredIsCurrent(before, capacity, ops, n - 1);
      case Get(key) =>
        TouchedIsWithin(before, key);
        WithinIsCurrent(Touched(before, key), before, ops, n - 1);
      case Remove(key) =>
        RemovedIsWithin(before, key);
        WithinIsCurrent(Removed(before, key), before, ops, n - 1);
      case Clear =>
    }
  }

  // ---- Which keys stay ----

  /** A cache has room for its capacity, and for one entry at least. */
  function Limit(capacity: nat): nat {
    if capacity == 0 then 1 else capacity
  }

  /** The key is in the cache, and was used the longest ago of all that are. */
  predicate IsOldest<T>(ops: seq<Op<T>>, capacity: nat, n: nat, key: string)
    requires n <= |ops|
  {
    var entries := After(ops, capacity, n);
    && Holds(entries, key)
    && forall i :: 0 <= i < |entries| && entries[i].key != key ==>
         LastUse(ops, capacity, n, entries[i].key) > LastUse(ops, capacity, n, key)
  }

  /** Operation `n` pushes the key out: a key that is not in the full cache is put, and this one is the oldest. */
  predicate PushesOut<T>(ops: seq<Op<T>>, capacity: nat, n: nat, key: string)
    requires n < |ops|
  {
    && ops[n].Put? && !Holds(After(ops, capacity, n), ops[n].key)
    && |After(ops, capacity, n)| == Limit(capacity) && IsOldest(ops, capacity, n, key)
  }

  lemma HasIsHolds<T>(entries: seq<Entry<T>>, key: string)
    ensures Has(entries, key) <==> Holds(entries, key)
  {
    if Has(entries, key) {
      assert entries[IndexOf(entries, key)].key == key;
    }
  }

  lemma TouchedHolds<T>(entries: seq<Entry<T>>, key: string, other: string)
    ensures Holds(Touched(entries, key), other) <==> Holds(entries, other)
  {
    var i, touched := IndexOf(entries, key), Touched(entries, key);
    if i < |entries| {
      if Holds(entries, other) {
        var j :| 0 <= j < |entries| && entries[j].key == other;
        assert touched[if j == i then 0 else if j < i then j + 1 else j].key == other;
      }
      if Holds(touched, other) {
        var j :| 0 <= j < |touched| && touched[j].key == other;
        assert entries[if j == 0 then i else if j <= i then j - 1 else j].key == other;
      }
    }
  }

  lemma HoldsParts<T>(entries: seq<Entry<T>>, key: string)
    requires Holds(entries, key)
    ensures Holds(entries[..|entries| - 1], key) || entries[|entries| - 1].key == key
  {
    var i :| 0 <= i < |entries| && entries[i].key == key;
    if i < |entries| - 1 {
      assert entries[..|entries| - 1][i].key == key;
    }
  }

  lemma EvictedHolds<T>(ops: seq<Op<T>>, capacity: nat, n: nat, key: string)
    requires n < |ops| && ops[n].Put? && !Holds(After(ops, capacity, n), ops[n].key)
    ensures Holds(Evicted(After(ops, capacity, n), capacity), key) <==>
      Holds(After(ops, capacity, n), key) && !PushesOut(ops, capacity, n, key)
  {
    hide After, LastUse;
    RunsAreByRecency(ops, capacity, n);
    var entries := After(ops, capacity, n);
    if |entries| >= capacity && entries != [] {
      var last := |entries| - 1;
      var left := entries[..last];
      assert Evicted(entries, capacity) == left && |entries| == Limit(capacity);
      if Holds(left, key) {
        var i :| 0 <= i < |left| && left[i].key == key;
        assert entries[i].key == key;
        if entries[last].key != key {
          assert LastUse(ops, capacity, n, entries[i].key) > LastUse(ops, capacity, n, entries[last].key);
        }
      } else if Holds(entries, key) {
        HoldsParts(entries, key);
        assert IsOldest(ops, capacity, n, key);
      }
    }
  }

  lemma StoredHolds<T>(ops: seq<Op<T>>, capacity: nat, n: nat, key: string)
    requires n < |ops| && ops[n].Put?
    ensures var before := After(ops, capacity, n);
      Holds(Stored(before, capacity, ops[n].key, ops[n].value), key) <==>
        key == ops[n].key || (Holds(before, key) && !PushesOut(ops, capacity, n, key))
  {
    hide After, LastUse, Removed, Evicted, PushesOut, IsOldest;
    var before, put := After(ops, capacity, n), ops[n].key;
    RunsAreByRecency(ops, capacity, n);
    HasIsHolds(before, put);
    var rest := if Has(before, put) then Removed(before, put) else Evicted(before, capacity);
    RemovedIsWithin(before, put);
    if Has(before, put) {
      NoPush(ops, capacity, n, key);
      WithinHolds(rest, before, key);
    } else {
      EvictedHolds(ops, capacity, n, key);
    }
    FrontHolds(Entry(put, ops[n].value), rest, key);
  }

  lemma NoPush<T>(ops: seq<Op<T>>, capacity: nat, n: nat, key: string)
    requires n < |ops| && ops[n].Put? && Holds(After(ops, capacity, n), ops[n].key)
    ensures !PushesOut(ops, capacity, n, key)
  {
  }

  lemma WithinHolds<T>(entries: seq<Entry<T>>, before: seq<Entry<T>>, key: string)
    requires Within(entries, before)
    ensures Holds(entries, key) ==> Holds(before, key)
  {
    if i :| 0 <= i < |entries| && entries[i].key == key {
      var j :| 0 <= j < |before| && before[j] == entries[i];
    }
  }

  lemma FrontHolds<T>(first: Entry<T>, rest: seq<Entry<T>>, key: string)
    ensures Holds([first] + rest, key) <==> first.key == key || Holds(rest, key)
  {
    var all := [first] + rest;
    assert all[0] == first;
    if Holds(rest, key) {
      var i :| 0 <= i < |rest| && rest[i].key == key;
      assert all[i + 1].key == key;
    }
    if Holds(all, key) {
      var i :| 0 <= i < |all| && all[i].key == key;
      assert i > 0 ==> rest[i - 1].key == key;
    }
  }

  /**
   Over every run: a key is in the cache after an operation exactly when the operation put it, or it was there before
   and was neither removed, nor cleared, nor pushed out as the oldest of a full cache by a new key.
   */
  lemma KeysStayExactly<T>(ops: seq<Op<T>>, capacity: nat, n: nat, key: string)
    requires n < |ops|
    ensures Holds(After(ops, capacity, n + 1), key) <==>
      || (ops[n].Put? && ops[n].key == key)
      || (Holds(After(ops, capacity, n), key) && ops[n] != Remove(key) && !ops[n].Clear? && !PushesOut(ops, capacity, n, key))
  {
    hide Holds, Touched, Removed, Stored, Within, PushesOut;
    var before, op := After(ops, capacity, n), ops[n];
    RunsAreByRecency(ops, capacity, n);
    PushesNeedPut(ops, capacity, n, key);
    match op
    case Put(other, value) => StoredHolds(ops, capacity, n, key);
    case Get(other) => TouchedHolds(before, other, key);
    case Remove(other) =>
      RemovedIsWithin(before, other);
      WithinHolds(Removed(before, other), before, key);
    case Clear => NothingHolds<T>(key);
  }

  lemma PushesNeedPut<T>(ops: seq<Op<T>>, capacity: nat, n: nat, key: string)
    requires n < |ops|
    ensures PushesOut(ops, capacity, n, key) ==> ops[n].Put?
  {
  }

  lemma NothingHolds<T>(key: string)
    ensures !Holds<T>([], key)
  {
  }
}
