/** Strict decoding and canonical encoding are inverse, exactly where text decoding drops no byte order mark. */
module BencodeLaws {
  import opened Results
  import opened ByteStrings
  import opened BencodeTree
  import opened BencodeDecoder
  import opened BencodeLanguage
  import opened BencodeEncoder

  // ---- Canonical form ----

  predicate InCanonicalForm(v: Value)
    decreases v, 1
  {
    match v
    case Int(n, bom) => IsSafe(n) && !bom
    case Str(_) => true
    case List(items) => ItemsInCanonicalForm(items)
    case Dict(entries) => KeysOk(entries, false) && EntriesInCanonicalForm(entries)
  }

  predicate ItemsInCanonicalForm(items: seq<Value>)
    decreases items, 0
  {
    items == [] || (InCanonicalForm(items[0]) && ItemsInCanonicalForm(items[1..]))
  }

  predicate EntriesInCanonicalForm(entries: seq<Entry>)
    decreases entries, 0
  {
    entries == [] || (InCanonicalForm(entries[0].value) && EntriesInCanonicalForm(entries[1..]))
  }

  lemma {:induction false} EncodableBecomesCanonical(v: Value)
    requires Encodable(v)
    ensures InCanonicalForm(Canonical(v))
    decreases v, 1
  {
    match v
    case Int(_, _) =>
    case Str(_) =>
    case List(items) => ItemsBecomeCanonical(items);
    case Dict(entries) =>
      EntriesBecomeCanonical(entries);
      DictBecomesCanonical(entries);
  }

  lemma DictBecomesCanonical(entries: seq<Entry>)
    requires DistinctKeys(entries) && EntriesInCanonicalForm(CanonicalEntries(entries))
    requires |CanonicalEntries(entries)| == |entries|
    requires forall i :: 0 <= i < |entries| ==> CanonicalEntries(entries)[i].key == entries[i].key
    ensures InCanonicalForm(Canonical(Dict(entries)))
  {
    hide EntriesInCanonicalForm, CanonicalEntries, Less;
    SortKeepsForm(CanonicalEntries(entries));
    SortAscends(CanonicalEntries(entries));
    SortKeepsKeys(CanonicalEntries(entries));
  }

  lemma {:induction false} ItemsBecomeCanonical(items: seq<Value>)
    requires ItemsEncodable(items)
    ensures ItemsInCanonicalForm(CanonicalItems(items))
    decreases items, 0
  {
    if items == [] {
    } else {
      EncodableBecomesCanonical(items[0]);
      ItemsBecomeCanonical(items[1..]);
      assert CanonicalItems(items)[1..] == CanonicalItems(items[1..]);
    }
  }

  lemma {:induction false} EntriesBecomeCanonical(entries: seq<Entry>)
    requires EntriesEncodable(entries)
    ensures EntriesInCanonicalForm(CanonicalEntries(entries)) && |CanonicalEntries(entries)| == |entries|
    ensures forall i :: 0 <= i < |entries| ==> CanonicalEntries(entries)[i].key == entries[i].key
    decreases entries, 0
  {
    if entries == [] {
    } else {
      EncodableBecomesCanonical(entries[0].value);
      EntriesBecomeCanonical(entries[1..]);
      assert CanonicalEntries(entries)[1..] == CanonicalEntries(entries[1..]);
    }
  }

  lemma {:induction false} SortKeepsForm(entries: seq<Entry>)
    ensures EntriesInCanonicalForm(SortEntries(entries)) <==> EntriesInCanonicalForm(entries)
    ensures BomFreeEntries(SortEntries(entries)) <==> BomFreeEntries(entries)
    ensures forall d :: EntriesNestWithin(SortEntries(entries), d) <==> EntriesNestWithin(entries, d)
  {
    hide InCanonicalForm, BomFree, NestsWithin, Insert, DecodeText;
    if entries == [] {
    } else {
      SortKeepsForm(entries[1..]);
      InsertKeepsForm(entries[0], SortEntries(entries[1..]));
    }
  }

  lemma {:induction false} InsertKeepsForm(entry: Entry, entries: seq<Entry>)
    ensures EntriesInCanonicalForm(Insert(entry, entries)) <==>
      InCanonicalForm(entry.value) && EntriesInCanonicalForm(entries)
    ensures BomFreeEntries(Insert(entry, entries)) <==>
      DecodeText(entry.key) == entry.key && BomFree(entry.value) && BomFreeEntries(entries)
    ensures forall d :: EntriesNestWithin(Insert(entry, entries), d) <==>
      NestsWithin(entry.value, d) && EntriesNestWithin(entries, d)
  {
    hide InCanonicalForm, BomFree, NestsWithin, DecodeText;
    var r := Insert(entry, entries);
    if entries != [] && Less(entries[0].key, entry.key) {
      InsertKeepsForm(entry, entries[1..]);
      assert r[1..] == Insert(entry, entries[1..]);
    } else {
      assert r[1..] == entries;
    }
  }

  lemma {:induction false} CanonicalFixpoint(v: Value)
    requires InCanonicalForm(v)
    ensures Canonical(v) == v && Encodable(v) && Unmarked(v)
    decreases v, 1
  {
    match v
    case Int(_, _) =>
    case Str(_) =>
    case List(items) => ItemsFixpoint(items);
    case Dict(entries) =>
      EntriesFixpoint(entries);
      SortOfAscending(entries);
  }

  lemma {:induction false} ItemsFixpoint(items: seq<Value>)
    requires ItemsInCanonicalForm(items)
    ensures CanonicalItems(items) == items && ItemsEncodable(items) && UnmarkedItems(items)
    decreases items, 0
  {
    if items == [] {
    } else {
      CanonicalFixpoint(items[0]);
      ItemsFixpoint(items[1..]);
    }
  }

  lemma {:induction false} EntriesFixpoint(entries: seq<Entry>)
    requires EntriesInCanonicalForm(entries)
    ensures CanonicalEntries(entries) == entries && EntriesEncodable(entries) && UnmarkedEntries(entries)
    decreases entries, 0
  {
    if entries == [] {
    } else {
      CanonicalFixpoint(entries[0].value);
      EntriesFixpoint(entries[1..]);
    }
  }

  lemma {:induction false} CanonicalKeeps(v: Value)
    ensures BomFree(Canonical(v)) <==> BomFree(v)
    ensures forall d :: NestsWithin(Canonical(v), d) <==> NestsWithin(v, d)
    decreases v, 1
  {
    match v
    case Int(_, _) =>
    case Str(_) =>
    case List(items) =>
      ItemsKeep(items);
    case Dict(entries) =>
      EntriesKeep(entries);
      SortKeepsForm(CanonicalEntries(entries));
  }

  lemma {:induction false} ItemsKeep(items: seq<Value>)
    ensures BomFreeItems(CanonicalItems(items)) <==> BomFreeItems(items)
    ensures forall d :: ItemsNestWithin(CanonicalItems(items), d) <==> ItemsNestWithin(items, d)
    decreases items, 0
  {
    hide BomFree, NestsWithin, Canonical;
    if items == [] {
    } else {
      CanonicalKeeps(items[0]);
      ItemsKeep(items[1..]);
      assert CanonicalItems(items)[1..] == CanonicalItems(items[1..]);
    }
  }

  lemma {:induction false} EntriesKeep(entries: seq<Entry>)
    ensures BomFreeEntries(CanonicalEntries(entries)) <==> BomFreeEntries(entries)
    ensures forall d :: EntriesNestWithin(CanonicalEntries(entries), d) <==> EntriesNestWithin(entries, d)
    decreases entries, 0
  {
    hide BomFree, NestsWithin, Canonical, DecodeText;
    if entries == [] {
    } else {
      CanonicalKeeps(entries[0].value);
      EntriesKeep(entries[1..]);
      assert CanonicalEntries(entries)[1..] == CanonicalEntries(entries[1..]);
    }
  }

  // ---- From canonical form to what the decoder demands, and back ----

  lemma {:induction false} FormIsWellFormed(v: Value)
    requires InCanonicalForm(v) && BomFree(v) && |Print(v)| <= MAX_SAFE_INTEGER
    ensures WellFormed(v, false)
    decreases v, 1
  {
    match v
    case Int(_, _) =>
    case Str(_) =>
    case List(items) => ItemsAreWellFormed(items);
    case Dict(entries) =>
      EntriesAreWellFormed(entries);
      EntriesFixpoint(entries);
      TextOfEntriesFixpoint(entries);
  }

  lemma {:induction false} ItemsAreWellFormed(items: seq<Value>)
    requires ItemsInCanonicalForm(items) && BomFreeItems(items) && |PrintItems(items)| <= MAX_SAFE_INTEGER
    ensures ItemsWellFormed(items, false)
    decreases items, 0
  {
    hide Print, WellFormed, InCanonicalForm, BomFree;
    if items == [] {
    } else {
      FormIsWellFormed(items[0]);
      ItemsAreWellFormed(items[1..]);
    }
  }

  lemma {:induction false} EntriesAreWellFormed(entries: seq<Entry>)
    requires EntriesInCanonicalForm(entries) && BomFreeEntries(entries) && |PrintEntries(entries)| <= MAX_SAFE_INTEGER
    ensures EntriesWellFormed(entries, false)
    decreases entries, 0
  {
    hide Print, WellFormed, InCanonicalForm, BomFree, DecodeText;
    if entries == [] {
    } else {
      FormIsWellFormed(entries[0].value);
      EntriesAreWellFormed(entries[1..]);
    }
  }

  lemma {:induction false} TextIsInForm(v: Value)
    requires WellFormed(v, false)
    ensures InCanonicalForm(TextOf(v))
    decreases v, 1
  {
    match v
    case Int(_, _) =>
    case Str(_) =>
    case List(items) => ItemsTextInForm(items);
    case Dict(entries) => EntriesTextInForm(entries);
  }

  lemma {:induction false} ItemsTextInForm(items: seq<Value>)
    requires ItemsWellFormed(items, false)
    ensures ItemsInCanonicalForm(TextOfItems(items))
    decreases items, 0
  {
    if items == [] {
    } else {
      TextIsInForm(items[0]);
      ItemsTextInForm(items[1..]);
      assert TextOfItems(items)[1..] == TextOfItems(items[1..]);
    }
  }

  lemma {:induction false} EntriesTextInForm(entries: seq<Entry>)
    requires EntriesWellFormed(entries, false)
    ensures EntriesInCanonicalForm(TextOfEntries(entries))
    decreases entries, 0
  {
    if entries == [] {
    } else {
      TextIsInForm(entries[0].value);
      EntriesTextInForm(entries[1..]);
      assert TextOfEntries(entries)[1..] == TextOfEntries(entries[1..]);
    }
  }

  // ---- The laws ----

  /**
   Decoding an encoded value gives the value back, its dictionaries sorted, exactly when the value
   nests no deeper than the limit and no string of it is led by a mark that text decoding drops.
   */
  lemma EncodeThenDecode(v: Value, maxBytes: int, maxDepth: int)
    requires Encodable(v) && |Print(Canonical(v))| <= maxBytes <= MAX_SAFE_INTEGER && 0 <= maxDepth <= MAX_SAFE_INTEGER
    ensures DecodeResult(Print(Canonical(v)), maxBytes, maxDepth, false) == Success(Canonical(v)) <==>
      BomFree(v) && NestsWithin(v, maxDepth + 1)
  {
    hide Print, TextOf, WellFormed, NestsWithin, BomFree, Unmarked, DecodeResult, Canonical, InCanonicalForm;
    var c := Canonical(v);
    var bytes := Print(c);
    EncodableBecomesCanonical(v);
    CanonicalFixpoint(c);
    CanonicalKeeps(v);
    TextOfFixpoint(c);
    DecodesIffPrinted(bytes, c, maxBytes, maxDepth, false);
    if BomFree(v) && NestsWithin(v, maxDepth + 1) {
      FormIsWellFormed(c);
    } else if DecodeResult(bytes, maxBytes, maxDepth, false) == Success(c) {
      var t :| bytes == Print(t) && WellFormed(t, false) && NestsWithin(t, maxDepth + 1) && TextOf(t) == c;
      assert bytes + [] == bytes;
      PrintPrefixFree(t, c, [], []);
    }
  }

  /**
   Whatever strict decoding accepts is a printed tree, and only one; the value it yields is
   canonical; and encoding that value gives the input back exactly when no token of the input is
   led by a mark that the decoder drops.
   */
  lemma DecodeThenEncode(data: Bytes, maxBytes: int, maxDepth: int) returns (t: Value)
    requires DecodeResult(data, maxBytes, maxDepth, false).Success?
    ensures data == Print(t) && forall u :: data == Print(u) ==> u == t
    ensures var w := DecodeResult(data, maxBytes, maxDepth, false).value;
      w == TextOf(t) && Encodable(w) && Canonical(w) == w && (Print(w) == data <==> BomFree(t) && Unmarked(t))
  {
    hide Print, TextOf, WellFormed, NestsWithin, BomFree, Unmarked, Canonical, InCanonicalForm, Encodable, ParseValue;
    var w := DecodeResult(data, maxBytes, maxDepth, false).value;
    DecodesIffPrinted(data, w, maxBytes, maxDepth, false);
    t :| data == Print(t) && WellFormed(t, false) && NestsWithin(t, maxDepth + 1) && TextOf(t) == w;
    forall u | data == Print(u) ensures u == t {
      assert data + [] == data;
      PrintPrefixFree(u, t, [], []);
    }
    TextIsInForm(t);
    CanonicalFixpoint(w);
    TextOfFixpoint(t);
  }

  /** Input without any byte order mark: strict decoding accepts canonical encodings only. */
  lemma MarkFreeInputIsCanonical(data: Bytes, maxBytes: int, maxDepth: int)
    requires DecodeResult(data, maxBytes, maxDepth, false).Success?
    requires forall k: nat :: !At(data, k, BOM)
    ensures data == Print(DecodeResult(data, maxBytes, maxDepth, false).value)
  {
    hide Print, BomFree, Unmarked, DecodeResult, Canonical, Encodable;
    var t := DecodeThenEncode(data, maxBytes, maxDepth);
    if !(BomFree(t) && Unmarked(t)) {
      var k := MarkIn(t);
      assert false;
    }
  }

  lemma {:induction false} MarkIn(v: Value) returns (k: nat)
    requires !(BomFree(v) && Unmarked(v))
    ensures At(Print(v), k, BOM)
    decreases v, 1
  {
    match v
    case Int(n, _) =>
      k := 1;
      assert Print(v) == [TOKEN_INT] + (BOM + (IntDigits(n) + [TOKEN_END]));
      AtWithin([TOKEN_INT], BOM, IntDigits(n) + [TOKEN_END]);
    case Str(b) => k := MarkInString(b);
    case List(items) =>
      k := MarkInItems(items);
      AtMove([TOKEN_LIST], PrintItems(items), [TOKEN_END], k, BOM);
      k := k + 1;
    case Dict(entries) =>
      k := MarkInEntries(entries);
      AtMove([TOKEN_DICT], PrintEntries(entries), [TOKEN_END], k, BOM);
      k := k + 1;
  }

  lemma AtWithin(a: Bytes, s: Bytes, b: Bytes)
    ensures At(a + (s + b), |a|, s)
  {
  }

  lemma AtMove(a: Bytes, body: Bytes, b: Bytes, k: nat, s: Bytes)
    requires At(body, k, s)
    ensures At(a + body + b, |a| + k, s)
  {
    var all := a + body + b;
    forall i | 0 <= i < |s| ensures s[i] == all[|a| + k + i] {
      assert all[|a| + (k + i)] == body[k + i];
    }
  }

  lemma MarkInString(b: Bytes) returns (k: nat)
    requires DecodeText(b) != b
    ensures At(PrintStr(b), k, BOM)
  {
    k := |Digits(|b|) + [COLON]|;
    assert b == BOM + b[3..];
    AtWithin(Digits(|b|) + [COLON], BOM, b[3..]);
  }

  lemma {:induction false} MarkInItems(items: seq<Value>) returns (k: nat)
    requires !(BomFreeItems(items) && UnmarkedItems(items))
    ensures At(PrintItems(items), k, BOM)
    decreases items, 0
  {
    var first, rest := Print(items[0]), PrintItems(items[1..]);
    if BomFree(items[0]) && Unmarked(items[0]) {
      k := MarkInItems(items[1..]);
      AtMove(first, rest, [], k, BOM);
      k := |first| + k;
    } else {
      k := MarkIn(items[0]);
      AtMove([], first, rest, k, BOM);
    }
    assert [] + first + rest == first + rest + [] == PrintItems(items);
  }

  lemma {:induction false} MarkInEntries(entries: seq<Entry>) returns (k: nat)
    requires !(BomFreeEntries(entries) && UnmarkedEntries(entries))
    ensures At(PrintEntries(entries), k, BOM)
    decreases entries, 0
  {
    hide Print, PrintStr, At, BomFree, Unmarked, DecodeText;
    var key, value, rest := PrintStr(entries[0].key), Print(entries[0].value), PrintEntries(entries[1..]);
    if DecodeText(entries[0].key) != entries[0].key {
      k := MarkInString(entries[0].key);
      AtMove([], key, value + rest, k, BOM);
    } else if BomFree(entries[0].value) && Unmarked(entries[0].value) {
      k := MarkInEntries(entries[1..]);
      AtMove(key + value, rest, [], k, BOM);
      k := |key + value| + k;
    } else {
      k := MarkIn(entries[0].value);
      AtMove(key, value, rest, k, BOM);
      k := |key| + k;
    }
    assert [] + key + (value + rest) == key + value + rest + [] == PrintEntries(entries);
  }

  /** Input that is accepted and yet is not canonical: an integer led by a mark. */
  lemma MarkedIntegerIsAccepted()
    ensures var data := [TOKEN_INT] + BOM + [0x35, TOKEN_END];
      DecodeResult(data, |data|, 0, false) == Success(Int(5, false)) && Print(Int(5, false)) != data
  {
    var data := [TOKEN_INT] + BOM + [0x35, TOKEN_END];
    assert Digits(5) == [0x35];
    assert data == Print(Int(5, true));
    assert WellFormed(Int(5, true), false) && NestsWithin(Int(5, true), 1);
    DecodesIffPrinted(data, Int(5, false), |data|, 0, false);
  }

  /** A mark in a printed tree stands behind at least two bytes, or at least one more byte follows it. */
  lemma MarkNeedsFive(v: Value, k: nat)
    requires At(Print(v), k, BOM)
    ensures |Print(v)| >= 5
  {
    hide Print;
    var bytes := Print(v);
    assert bytes[k] == BOM[0] && bytes[k + 2] == BOM[2];
    PrintFirstByte(v);
    FirstByteIsPlain(v);
    PrintLastBytes(v);
  }

  lemma FirstByteIsPlain(v: Value)
    ensures Print(v) != [] && Print(v)[0] != 0xEF
  {
    hide Print;
    PrintFirstByte(v);
  }

  /** A printed tree ends in `e`, or is a string and has a digit or the colon in second place. */
  lemma PrintLastBytes(v: Value)
    ensures |Print(v)| >= 2
    ensures Print(v)[|Print(v)| - 1] == TOKEN_END || IsDigit(Print(v)[1]) || Print(v)[1] == COLON
  {
    hide PrintItems, PrintEntries, IntBody;
    match v
    case Int(_, _) =>
    case Str(b) => assert (Digits(|b|) + [COLON] + b)[1] == (Digits(|b|) + [COLON])[1];
    case List(_) =>
    case Dict(_) =>
  }

  /**
   The shortest input that is accepted and yet is not canonical is a string of nothing but a mark: it has five
   bytes, and whatever is accepted of fewer bytes is the encoding of its value.
   */
  lemma ShortestNotCanonical()
    ensures var data := [0x33, COLON] + BOM;
      |data| == 5 && DecodeResult(data, |data|, 0, false) == Success(Str([])) && Print(Str([])) != data
    ensures forall data, maxBytes, maxDepth | |data| < 5 && DecodeResult(data, maxBytes, maxDepth, false).Success? ::
      data == Print(DecodeResult(data, maxBytes, maxDepth, false).value)
  {
    MarkedStringIsAccepted();
    forall data, maxBytes, maxDepth | |data| < 5 && DecodeResult(data, maxBytes, maxDepth, false).Success?
      ensures data == Print(DecodeResult(data, maxBytes, maxDepth, false).value)
    {
      ShortIsCanonical(data, maxBytes, maxDepth);
    }
  }

  lemma MarkedStringIsAccepted()
    ensures var data := [0x33, COLON] + BOM;
      DecodeResult(data, |data|, 0, false) == Success(Str([])) && Print(Str([])) != data
  {
    hide DecodeResult;
    var data := [0x33, COLON] + BOM;
    assert Digits(3) == [0x33] && [0x33] + [COLON] + BOM == data;
    assert data == Print(Str(BOM)) && TextOf(Str(BOM)) == Str([]);
    DecodesIffPrinted(data, Str([]), |data|, 0, false);
  }

  lemma ShortIsCanonical(data: Bytes, maxBytes: int, maxDepth: int)
    requires |data| < 5 && DecodeResult(data, maxBytes, maxDepth, false).Success?
    ensures data == Print(DecodeResult(data, maxBytes, maxDepth, false).value)
  {
    hide Print, DecodeResult, BomFree, Unmarked, Canonical, Encodable;
    var t := DecodeThenEncode(data, maxBytes, maxDepth);
    if !(BomFree(t) && Unmarked(t)) {
      var k := MarkIn(t);
      MarkNeedsFive(t, k);
    }
  }

  /** No encoding is a proper prefix of another, and equal encodings come from equal values. */
  lemma EncodingsArePrefixFree(v: Value, w: Value, x: Bytes, y: Bytes)
    requires Print(Canonical(v)) + x == Print(Canonical(w)) + y
    ensures Canonical(v) == Canonical(w) && x == y
  {
    PrintPrefixFree(Canonical(v), Canonical(w), x, y);
  }
}
