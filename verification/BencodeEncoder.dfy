/** The canonical encoder: sorted keys, written through a buffer that doubles when it is full. */
module BencodeEncoder {
  import opened ByteStrings
  import opened BencodeTree

  // ---- Canonical form ----

  /** `entry` goes before the first entry whose key is not smaller: the sort is stable. */
  function Insert(entry: Entry, entries: seq<Entry>): (r: seq<Entry>)
    ensures multiset(r) == multiset{entry} + multiset(entries)
  {
    if entries == [] then [entry]
    else
      assert entries == [entries[0]] + entries[1..];
      if Less(entries[0].key, entry.key) then [entries[0]] + Insert(entry, entries[1..])
      else [entry] + entries
  }

  function SortEntries(entries: seq<Entry>): (r: seq<Entry>)
    ensures multiset(r) == multiset(entries)
  {
    if entries == [] then []
    else
      assert entries == [entries[0]] + entries[1..];
      Insert(entries[0], SortEntries(entries[1..]))
  }

  /** The same value with every dictionary sorted by raw key bytes. */
  function Canonical(v: Value): Value
    decreases v, 1
  {
    match v
    case Int(n, _) => Int(n, false)
    case Str(b) => Str(b)
    case List(items) => List(CanonicalItems(items))
    case Dict(entries) => Dict(SortEntries(CanonicalEntries(entries)))
  }

  function CanonicalItems(items: seq<Value>): seq<Value>
    decreases items, 0
  {
    if items == [] then [] else [Canonical(items[0])] + CanonicalItems(items[1..])
  }

  function CanonicalEntries(entries: seq<Entry>): seq<Entry>
    decreases entries, 0
  {
    if entries == [] then []
    else [Entry(entries[0].key, Canonical(entries[0].value))] + CanonicalEntries(entries[1..])
  }

  predicate DistinctKeys(entries: seq<Entry>) {
    forall i, j :: 0 <= i < j < |entries| ==> entries[i].key != entries[j].key
  }

  /** The encoder accepts safe integers and dictionaries whose keys differ as bytes. */
  predicate Encodable(v: Value)
    decreases v, 1
  {
    match v
    case Int(n, _) => IsSafe(n)
    case Str(_) => true
    case List(items) => ItemsEncodable(items)
    case Dict(entries) => DistinctKeys(entries) && EntriesEncodable(entries)
  }

  predicate ItemsEncodable(items: seq<Value>)
    decreases items, 0
  {
    items == [] || (Encodable(items[0]) && ItemsEncodable(items[1..]))
  }

  predicate EntriesEncodable(entries: seq<Entry>)
    decreases entries, 0
  {
    entries == [] || (Encodable(entries[0].value) && EntriesEncodable(entries[1..]))
  }

  // ---- Sorting ----

  predicate Ascending(entries: seq<Entry>) {
    forall i :: 0 < i < |entries| ==> !Less(entries[i].key, entries[i - 1].key)
  }

  lemma {:induction false} InsertAscends(entry: Entry, entries: seq<Entry>)
    requires Ascending(entries)
    ensures Ascending(Insert(entry, entries))
    ensures var r := Insert(entry, entries); r[0] == entry || (entries != [] && r[0] == entries[0])
  {
    if entries == [] {
    } else {
      var r := Insert(entry, entries);
      LessTotal(entries[0].key, entry.key);
      if Less(entries[0].key, entry.key) {
        var tail := entries[1..];
        assert forall i :: 0 <= i < |tail| ==> tail[i] == entries[i + 1];
        InsertAscends(entry, tail);
        var rest := Insert(entry, tail);
        forall i | 0 < i < |r| ensures !Less(r[i].key, r[i - 1].key) {
          assert r[i] == rest[i - 1] && (i > 1 ==> r[i - 1] == rest[i - 2]);
        }
      } else {
        forall i | 0 < i < |r| ensures !Less(r[i].key, r[i - 1].key) {
          assert r[i] == entries[i - 1] && (i > 1 ==> r[i - 1] == entries[i - 2]);
        }
      }
    }
  }

  lemma {:induction false} SortAscends(entries: seq<Entry>)
    ensures Ascending(SortEntries(entries))
  {
    if entries == [] {
    } else {
      SortAscends(entries[1..]);
      InsertAscends(entries[0], SortEntries(entries[1..]));
    }
  }

  lemma {:induction false} SortOfAscending(entries: seq<Entry>)
    requires Ascending(entries)
    ensures SortEntries(entries) == entries
  {
    if entries == [] {
    } else {
      var tail := entries[1..];
      assert forall i :: 0 <= i < |tail| ==> tail[i] == entries[i + 1];
      SortOfAscending(tail);
      assert tail != [] ==> tail[0] == entries[1];
      assert entries == [entries[0]] + tail;
    }
  }

  /** The keys of a dictionary, each as often as it occurs. */
  ghost function KeyBag(entries: seq<Entry>): multiset<Bytes> {
    if entries == [] then multiset{} else multiset{entries[0].key} + KeyBag(entries[1..])
  }

  lemma {:induction false} KeyBagMember(entries: seq<Entry>, key: Bytes)
    ensures key in KeyBag(entries) <==> exists i :: 0 <= i < |entries| && entries[i].key == key
  {
    if entries == [] {
    } else {
      var tail := entries[1..];
      KeyBagMember(tail, key);
      if i :| 0 < i < |entries| && entries[i].key == key {
        assert tail[i - 1].key == key;
      }
    }
  }

  lemma DistinctHeadTail(entries: seq<Entry>)
    requires entries != []
    ensures DistinctKeys(entries) <==> DistinctKeys(entries[1..]) && entries[0].key !in KeyBag(entries[1..])
  {
    var tail := entries[1..];
    assert forall i :: 0 <= i < |tail| ==> tail[i] == entries[i + 1];
    KeyBagMember(tail, entries[0].key);
    if DistinctKeys(tail) && entries[0].key !in KeyBag(tail) {
      forall i, j | 0 <= i < j < |entries| ensures entries[i].key != entries[j].key {
        assert entries[j] == tail[j - 1] && (i > 0 ==> entries[i] == tail[i - 1]);
      }
    }
  }

  ghost predicate AtMostOnce(bag: multiset<Bytes>) {
    forall key :: bag[key] <= 1
  }

  lemma AtMostOnceAdd(rest: multiset<Bytes>, head: Bytes)
    ensures AtMostOnce(multiset{head} + rest) <==> AtMostOnce(rest) && head !in rest
  {
    var bag := multiset{head} + rest;
    assert forall key :: bag[key] == rest[key] + if key == head then 1 else 0;
    if AtMostOnce(bag) {
      assert bag[head] <= 1 && forall key :: rest[key] <= bag[key];
    }
  }

  lemma {:induction false} DistinctKeyBag(entries: seq<Entry>)
    ensures DistinctKeys(entries) <==> AtMostOnce(KeyBag(entries))
  {
    if entries == [] {
    } else {
      DistinctHeadTail(entries);
      DistinctKeyBag(entries[1..]);
      AtMostOnceAdd(KeyBag(entries[1..]), entries[0].key);
    }
  }

  lemma {:induction false} SortKeepsKeys(entries: seq<Entry>)
    ensures DistinctKeys(SortEntries(entries)) <==> DistinctKeys(entries)
  {
    SortKeyBag(entries);
    DistinctKeyBag(entries);
    DistinctKeyBag(SortEntries(entries));
  }

  lemma {:induction false} SortKeyBag(entries: seq<Entry>)
    ensures KeyBag(SortEntries(entries)) == KeyBag(entries)
  {
    if entries == [] {
    } else {
      SortKeyBag(entries[1..]);
      InsertKeyBag(entries[0], SortEntries(entries[1..]));
    }
  }

  lemma {:induction false} InsertKeyBag(entry: Entry, entries: seq<Entry>)
    ensures KeyBag(Insert(entry, entries)) == multiset{entry.key} + KeyBag(entries)
  {
    if entries == [] {
    } else {
      InsertKeyBag(entry, entries[1..]);
      var r := Insert(entry, entries);
      assert r[1..] == if Less(entries[0].key, entry.key) then Insert(entry, entries[1..]) else entries;
    }
  }

  lemma {:induction false} SortCommutes(entries: seq<Entry>)
    ensures SortEntries(CanonicalEntries(entries)) == CanonicalEntries(SortEntries(entries))
  {
    if entries == [] {
    } else {
      SortCommutes(entries[1..]);
      InsertCommutes(entries[0], SortEntries(entries[1..]));
    }
  }

  lemma {:induction false} InsertCommutes(entry: Entry, entries: seq<Entry>)
    ensures Insert(Entry(entry.key, Canonical(entry.value)), CanonicalEntries(entries)) ==
            CanonicalEntries(Insert(entry, entries))
  {
    hide Canonical;
    if entries == [] {
    } else {
      InsertCommutes(entry, entries[1..]);
      var c, r := CanonicalEntries(entries), Insert(entry, entries);
      assert c[0].key == entries[0].key && c[1..] == CanonicalEntries(entries[1..]);
      assert r[1..] == if Less(entries[0].key, entry.key) then Insert(entry, entries[1..]) else entries;
    }
  }

  lemma {:induction false} EncodableMembers(entries: seq<Entry>)
    ensures EntriesEncodable(entries) <==> forall e :: e in multiset(entries) ==> Encodable(e.value)
  {
    hide Encodable;
    if entries == [] {
    } else {
      EncodableMembers(entries[1..]);
      assert entries == [entries[0]] + entries[1..];
    }
  }

  // ---- The byte writer ----

  class ByteWriter {
    var buffer: array<Byte>
    var length: nat

    ghost predicate Valid()
      reads this
    {
      length <= buffer.Length && buffer.Length > 0
    }

    ghost function Contents(): Bytes
      requires Valid()
      reads this, buffer
    {
      buffer[..length]
    }

    constructor ()
      ensures Valid() && fresh(buffer) && Contents() == []
    {
      buffer := new Byte[1024](_ => 0);
      length := 0;
    }

    method Write(chunk: Bytes)
      requires Valid()
      modifies this, buffer
      ensures Valid() && (buffer == old(buffer) || fresh(buffer))
      ensures Contents() == old(Contents()) + chunk
    {
      var required := length + |chunk|;
      if required > buffer.Length {
        var capacity := buffer.Length;
        while capacity < required
          invariant capacity >= buffer.Length > 0
        {
          capacity := capacity * 2;
        }
        var next := new Byte[capacity](_ => 0);
        forall i | 0 <= i < buffer.Length {
          next[i] := buffer[i];
        }
        buffer := next;
      }
      forall i | 0 <= i < |chunk| {
        buffer[length + i] := chunk[i];
      }
      length := required;
    }

    method Finish() returns (r: Bytes)
      requires Valid()
      ensures r == Contents()
    {
      r := buffer[..length];
    }
  }

  // ---- The encoder ----

  lemma {:induction false} PrintItemsAppend(items: seq<Value>, item: Value)
    ensures PrintItems(items + [item]) == PrintItems(items) + Print(item)
  {
    hide Print;
    if items == [] {
      assert [] + [item] == [item];
      assert PrintItems([item]) == Print(item) + PrintItems([]);
    } else {
      PrintItemsAppend(items[1..], item);
      assert (items + [item])[1..] == items[1..] + [item];
    }
  }

  lemma {:induction false} PrintEntriesAppend(entries: seq<Entry>, entry: Entry)
    ensures PrintEntries(entries + [entry]) == PrintEntries(entries) + (PrintStr(entry.key) + Print(entry.value))
  {
    hide Print, PrintStr;
    if entries == [] {
      assert [] + [entry] == [entry];
      assert PrintEntries([entry]) == PrintStr(entry.key) + Print(entry.value) + PrintEntries([]);
    } else {
      PrintEntriesAppend(entries[1..], entry);
      assert (entries + [entry])[1..] == entries[1..] + [entry];
    }
  }

  lemma {:induction false} CanonicalItemsAppend(items: seq<Value>, item: Value)
    ensures CanonicalItems(items + [item]) == CanonicalItems(items) + [Canonical(item)]
    ensures ItemsEncodable(items + [item]) <==> ItemsEncodable(items) && Encodable(item)
  {
    hide Canonical, Encodable;
    if items == [] {
      assert [] + [item] == [item];
    } else {
      CanonicalItemsAppend(items[1..], item);
      assert (items + [item])[1..] == items[1..] + [item];
    }
  }

  lemma {:induction false} CanonicalEntriesAppend(entries: seq<Entry>, entry: Entry)
    ensures CanonicalEntries(entries + [entry]) == CanonicalEntries(entries) + [Entry(entry.key, Canonical(entry.value))]
    ensures EntriesEncodable(entries + [entry]) <==> EntriesEncodable(entries) && Encodable(entry.value)
  {
    hide Canonical, Encodable;
    if entries == [] {
      assert [] + [entry] == [entry];
    } else {
      CanonicalEntriesAppend(entries[1..], entry);
      assert (entries + [entry])[1..] == entries[1..] + [entry];
    }
  }

  /** Appends the encoding of `v`, or reports that `v` cannot be encoded. */
  method EncodeValue(v: Value, out: ByteWriter) returns (ok: bool)
    requires out.Valid()
    modifies out, out.buffer
    ensures out.Valid() && (out.buffer == old(out.buffer) || fresh(out.buffer))
    ensures ok <==> Encodable(v)
    ensures ok ==> out.Contents() == old(out.Contents()) + Print(Canonical(v))
    decreases v, 2
  {
    match v
    case Int(n, _) =>
      if !IsSafe(n) {
        return false;
      }
      out.Write(PrintInt(n, false));
      return true;
    case Str(b) =>
      EncodeBytes(b, out);
      return true;
    case List(items) =>
      ok := EncodeList(items, out);
    case Dict(entries) =>
      ok := EncodeDict(entries, out);
  }

  method EncodeBytes(b: Bytes, out: ByteWriter)
    requires out.Valid()
    modifies out, out.buffer
    ensures out.Valid() && (out.buffer == old(out.buffer) || fresh(out.buffer))
    ensures out.Contents() == old(out.Contents()) + PrintStr(b)
  {
    out.Write(Digits(|b|) + [COLON]);
    out.Write(b);
  }

  method EncodeList(items: seq<Value>, out: ByteWriter) returns (ok: bool)
    requires out.Valid()
    modifies out, out.buffer
    ensures out.Valid() && (out.buffer == old(out.buffer) || fresh(out.buffer))
    ensures ok <==> ItemsEncodable(items)
    ensures ok ==> out.Contents() == old(out.Contents()) + Print(List(CanonicalItems(items)))
    decreases items, 0
  {
    hide Print, Canonical, Encodable;
    ghost var before := out.Contents();
    out.Write([TOKEN_LIST]);
    assert items[..0] == [];
    for i := 0 to |items|
      invariant out.Valid() && (out.buffer == old(out.buffer) || fresh(out.buffer))
      invariant ItemsEncodable(items[..i])
      invariant out.Contents() == before + [TOKEN_LIST] + PrintItems(CanonicalItems(items[..i]))
    {
      assert items[..i + 1] == items[..i] + [items[i]];
      CanonicalItemsAppend(items[..i], items[i]);
      PrintItemsAppend(CanonicalItems(items[..i]), Canonical(items[i]));
      var encoded := EncodeValue(items[i], out);
      if !encoded {
        if ItemsEncodable(items) {
          ItemsEncodablePrefix(items, i + 1);
        }
        return false;
      }
    }
    assert items[..|items|] == items;
    out.Write([TOKEN_END]);
    PrintList(CanonicalItems(items));
    return true;
  }

  lemma PrintList(items: seq<Value>)
    ensures Print(List(items)) == [TOKEN_LIST] + PrintItems(items) + [TOKEN_END]
  {
  }

  lemma {:induction false} ItemsEncodablePrefix(items: seq<Value>, k: nat)
    requires k <= |items| && ItemsEncodable(items)
    ensures ItemsEncodable(items[..k])
  {
    hide Encodable;
    if k == 0 {
    } else {
      ItemsEncodablePrefix(items[1..], k - 1);
      assert items[..k][1..] == items[1..][..k - 1];
    }
  }

  method EncodeDict(entries: seq<Entry>, out: ByteWriter) returns (ok: bool)
    requires out.Valid()
    modifies out, out.buffer
    ensures out.Valid() && (out.buffer == old(out.buffer) || fresh(out.buffer))
    ensures ok <==> DistinctKeys(entries) && EntriesEncodable(entries)
    ensures ok ==> out.Contents() == old(out.Contents()) + Print(Canonical(Dict(entries)))
    decreases entries, 1
  {
    hide Print, Canonical, Encodable, Insert, SortEntries, DistinctKeys, PrintEntries, CanonicalEntries, EntriesEncodable;
    ghost var before := out.Contents();
    var sorted := SortEntries(entries);
    SortAscends(entries);
    SortKeepsKeys(entries);
    EncodableMembers(entries);
    assert forall e :: e in sorted ==> e in multiset(sorted);
    assert forall e :: e in entries ==> e in multiset(entries);
    SortCommutes(entries);
    PrintDict(entries);
    out.Write([TOKEN_DICT]);
    forall i | 0 <= i < |sorted| ensures sorted[i] in entries {
      assert sorted[i] in multiset(sorted) && sorted[i] in multiset(entries);
    }
    ok := EncodeSorted(sorted, entries, out);
    if ok {
      out.Write([TOKEN_END]);
      Extend(before, [TOKEN_DICT], PrintEntries(CanonicalEntries(sorted)), [TOKEN_END]);
      assert [TOKEN_DICT] + (PrintEntries(CanonicalEntries(sorted)) + [TOKEN_END]) == Print(Canonical(Dict(entries)));
    }
  }

  lemma PrintPrefixGrows(entries: seq<Entry>, i: nat)
    requires i < |entries|
    ensures PrintEntries(CanonicalEntries(entries[..i + 1])) ==
      PrintEntries(CanonicalEntries(entries[..i])) + (PrintStr(entries[i].key) + Print(Canonical(entries[i].value)))
  {
    hide Print, PrintStr, Canonical, PrintEntries, CanonicalEntries;
    assert entries[..i + 1] == entries[..i] + [entries[i]];
    CanonicalEntriesAppend(entries[..i], entries[i]);
    PrintEntriesAppend(CanonicalEntries(entries[..i]), Entry(entries[i].key, Canonical(entries[i].value)));
  }

  lemma EqualNeighbours(entries: seq<Entry>, i: nat)
    requires 0 < i < |entries| && entries[i - 1].key == entries[i].key
    ensures !DistinctKeys(entries)
  {
  }

  lemma NothingPrinted()
    ensures PrintEntries(CanonicalEntries([])) == []
  {
  }

  /** Appends the entries in order, or reports equal neighbours or a value that cannot be encoded. */
  method EncodeSorted(sorted: seq<Entry>, ghost entries: seq<Entry>, out: ByteWriter) returns (ok: bool)
    requires out.Valid() && Ascending(sorted) && forall e :: e in sorted ==> e in entries
    modifies out, out.buffer
    ensures out.Valid() && (out.buffer == old(out.buffer) || fresh(out.buffer))
    ensures ok <==> DistinctKeys(sorted) && forall j :: 0 <= j < |sorted| ==> Encodable(sorted[j].value)
    ensures ok ==> out.Contents() == old(out.Contents()) + PrintEntries(CanonicalEntries(sorted))
    decreases entries, 0
  {
    hide Print, PrintStr, Canonical, Encodable, PrintEntries, CanonicalEntries, Less, Ascending, DistinctKeys;
    ghost var before := out.Contents();
    NothingPrinted();
    assert sorted[..0] == [];
    for i := 0 to |sorted|
      invariant out.Valid() && (out.buffer == old(out.buffer) || fresh(out.buffer))
      invariant forall j :: 0 <= j < i ==> Encodable(sorted[j].value)
      invariant forall j :: 0 < j < i ==> sorted[j].key != sorted[j - 1].key
      invariant out.Contents() == before + PrintEntries(CanonicalEntries(sorted[..i]))
    {
      if i > 0 {
        var order := CompareBytes(sorted[i - 1].key, sorted[i].key);
        if order == 0 {
          EqualNeighbours(sorted, i);
          return false;
        }
      }
      var entry := sorted[i];
      assert entry in entries;
      EncodeBytes(entry.key, out);
      var encoded := EncodeValue(entry.value, out);
      if !encoded {
        return false;
      }
      PrintPrefixGrows(sorted, i);
      Extend(before, PrintEntries(CanonicalEntries(sorted[..i])), PrintStr(entry.key), Print(Canonical(entry.value)));
    }
    assert sorted[..|sorted|] == sorted;
    AscendingDistinct(sorted);
    return true;
  }

  lemma Extend(a: Bytes, b: Bytes, c: Bytes, d: Bytes)
    ensures a + b + c + d == a + (b + (c + d))
  {
  }

  lemma PrintDict(entries: seq<Entry>)
    ensures Print(Canonical(Dict(entries))) ==
            [TOKEN_DICT] + (PrintEntries(SortEntries(CanonicalEntries(entries))) + [TOKEN_END])
  {
  }

  lemma AscendingDistinct(entries: seq<Entry>)
    requires Ascending(entries) && forall j :: 0 < j < |entries| ==> entries[j].key != entries[j - 1].key
    ensures DistinctKeys(entries)
    ensures forall i, j :: 0 <= i < j < |entries| ==> Less(entries[i].key, entries[j].key)
  {
    forall i, j | 0 <= i < j < |entries| ensures Less(entries[i].key, entries[j].key) && entries[i].key != entries[j].key {
      AscendingLess(entries, i, j);
      LessTotal(entries[i].key, entries[j].key);
    }
  }

  lemma {:induction false} AscendingLess(entries: seq<Entry>, i: nat, j: nat)
    requires Ascending(entries) && forall k :: 0 < k < |entries| ==> entries[k].key != entries[k - 1].key
    requires i < j < |entries|
    ensures Less(entries[i].key, entries[j].key)
  {
    LessTotal(entries[j - 1].key, entries[j].key);
    if i < j - 1 {
      AscendingLess(entries, i, j - 1);
      LessTransitive(entries[i].key, entries[j - 1].key, entries[j].key);
    }
  }

  method Encode(v: Value) returns (ok: bool, bytes: Bytes)
    ensures ok <==> Encodable(v)
    ensures ok ==> bytes == Print(Canonical(v))
  {
    var writer := new ByteWriter();
    ok := EncodeValue(v, writer);
    bytes := writer.Finish();
    assert [] + Print(Canonical(v)) == Print(Canonical(v));
  }
}
