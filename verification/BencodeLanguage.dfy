/**
 The language of the strict decoder: it accepts exactly the printed well-formed trees, and yields
 their text. From this follow the laws that connect decoding with encoding.
 */
module BencodeLanguage {
  import opened Results
  import opened ByteStrings
  import opened BencodeTree
  import opened BencodeDecoder

  /** Keys are distinct, and in raw byte order unless unsorted keys are tolerated. */
  predicate KeysOk(entries: seq<Entry>, allowUnsorted: bool) {
    && (forall i, j :: 0 <= i < j < |entries| ==> entries[i].key != entries[j].key)
    && (allowUnsorted || forall i :: 0 < i < |entries| ==> !Less(entries[i].key, entries[i - 1].key))
  }

  /** What the decoder demands of a tree: safe numbers, and keys in order once they are text. */
  predicate WellFormed(v: Value, allowUnsorted: bool)
    decreases v, 1
  {
    match v
    case Int(n, _) => IsSafe(n)
    case Str(b) => |b| <= MAX_SAFE_INTEGER
    case List(items) => ItemsWellFormed(items, allowUnsorted)
    case Dict(entries) => KeysOk(TextOfEntries(entries), allowUnsorted) && EntriesWellFormed(entries, allowUnsorted)
  }

  predicate ItemsWellFormed(items: seq<Value>, allowUnsorted: bool)
    decreases items, 0
  {
    items == [] || (WellFormed(items[0], allowUnsorted) && ItemsWellFormed(items[1..], allowUnsorted))
  }

  predicate EntriesWellFormed(entries: seq<Entry>, allowUnsorted: bool)
    decreases entries, 0
  {
    entries == [] ||
    (|entries[0].key| <= MAX_SAFE_INTEGER && WellFormed(entries[0].value, allowUnsorted)
     && EntriesWellFormed(entries[1..], allowUnsorted))
  }

  lemma KeysOkSteps(entries: seq<Entry>, entry: Entry, allowUnsorted: bool)
    requires KeysOk(entries, allowUnsorted) && KeyFault(entries, entry.key, allowUnsorted) == None
    ensures KeysOk(entries + [entry], allowUnsorted)
  {
    var grown := entries + [entry];
    forall i, j | 0 <= i < j < |grown| ensures grown[i].key != grown[j].key {
      if j == |entries| {
        assert !HasKey(entries, entry.key) && entries[i] == grown[i];
      }
    }
    if !allowUnsorted {
      forall i | 0 < i < |grown| ensures !Less(grown[i].key, grown[i - 1].key) {
        assert grown[i - 1] == entries[i - 1];
      }
    }
  }

  lemma KeysOkNext(before: seq<Entry>, entry: Entry, rest: seq<Entry>, allowUnsorted: bool)
    requires KeysOk(before + ([entry] + rest), allowUnsorted)
    ensures KeyFault(before, entry.key, allowUnsorted) == None
  {
    var all := before + ([entry] + rest);
    assert all[|before|] == entry;
    forall i | 0 <= i < |before| ensures before[i].key != entry.key {
      assert all[i] == before[i];
    }
    if before != [] {
      assert all[|before| - 1] == before[|before| - 1];
    }
  }

  // ---- Scalars ----

  lemma IntegerTextPrinted(n: int, bom: bool)
    ensures IntegerText(IntBody(n, bom)) == IntDigits(n) && TOKEN_END !in IntBody(n, bom)
    ensures IsCanonicalInteger(IntDigits(n)) && IntegerOf(IntDigits(n)) == n
  {
    var digits := IntDigits(n);
    if bom {
      assert (BOM + digits)[..3] == BOM && (BOM + digits)[3..] == digits;
    } else {
      assert BOM[0] == 0xEF != digits[0];
    }
    assert n < 0 ==> digits[0] == 0x2d && digits[1..] == Digits(-n);
  }

  lemma IntegerTextAccepted(raw: Bytes)
    requires IsCanonicalInteger(IntegerText(raw))
    ensures raw == IntBody(IntegerOf(IntegerText(raw)), HasBom(raw))
  {
    hide IsCanonicalInteger, IntegerOf, IntDigits;
    var text := IntegerText(raw);
    assert HasBom(raw) ==> raw == BOM + text;
    TextIsDigits(text);
  }

  lemma TextIsDigits(text: Bytes)
    requires IsCanonicalInteger(text)
    ensures text == IntDigits(IntegerOf(text))
  {
    hide NatOf, Digits, AllDigits;
    if text[0] == 0x2d {
      DigitsOfNat(text[1..]);
      assert text == [0x2d] + text[1..];
    } else {
      DigitsOfNat(text);
    }
  }

  lemma IntegerParsed(data: Bytes, offset: nat, body: Bytes)
    requires At(data, offset, body + [TOKEN_END]) && TOKEN_END !in body
    requires IsCanonicalInteger(IntegerText(body)) && IsSafe(IntegerOf(IntegerText(body)))
    ensures ParseInteger(data, offset) ==
      Success(Parsed(Int(IntegerOf(IntegerText(body)), false), offset + |body| + 1))
  {
    hide At, IndexOf, IsCanonicalInteger, IntegerText, IntegerOf;
    AtSplit(data, offset, body, [TOKEN_END]);
    IndexOfAfter(data, offset, body, TOKEN_END);
  }

  lemma IntegerPrinted(data: Bytes, offset: nat, n: int, bom: bool)
    requires At(data, offset, PrintInt(n, bom)) && IsSafe(n)
    ensures ParseInteger(data, offset + 1) == Success(Parsed(Int(n, false), offset + |PrintInt(n, bom)|))
  {
    var body := IntBody(n, bom);
    BodyAt(data, offset, TOKEN_INT, body);
    IntegerTextPrinted(n, bom);
    IntegerParsed(data, offset + 1, body);
  }

  lemma IntegerSlice(data: Bytes, offset: nat) returns (raw: Bytes)
    requires ParseInteger(data, offset).Success?
    ensures IsCanonicalInteger(IntegerText(raw)) && IsSafe(IntegerOf(IntegerText(raw)))
    ensures At(data, offset, raw + [TOKEN_END])
    ensures ParseInteger(data, offset) ==
      Success(Parsed(Int(IntegerOf(IntegerText(raw)), false), offset + |raw| + 1))
  {
    hide IsCanonicalInteger, IntegerOf, IntegerText, IsSafe, At;
    var end := IndexOf(data, TOKEN_END, offset).value;
    raw := data[offset..end];
    AtSlice(data, offset, raw);
    EndAt(data, end);
    AtJoin(data, offset, raw, [TOKEN_END]);
  }

  lemma IntegerAccepted(data: Bytes, offset: nat) returns (bom: bool)
    requires offset < |data| && data[offset] == TOKEN_INT && ParseInteger(data, offset + 1).Success?
    ensures var p := ParseInteger(data, offset + 1).value;
      && p.value.Int? && !p.value.bom && IsSafe(p.value.n)
      && At(data, offset, PrintInt(p.value.n, bom)) && p.next == offset + |PrintInt(p.value.n, bom)|
  {
    hide ParseInteger, IsCanonicalInteger, IntegerOf;
    var raw := IntegerSlice(data, offset + 1);
    bom := HasBom(raw);
    IntegerTextAccepted(raw);
    BodyAt(data, offset, TOKEN_INT, raw);
  }

  lemma StringPrinted(data: Bytes, offset: nat, b: Bytes)
    requires At(data, offset, PrintStr(b)) && |b| <= MAX_SAFE_INTEGER
    ensures ParseString(data, offset) == Success(RawString(b, offset + |PrintStr(b)|))
  {
    hide At, NatOf, IndexOf;
    var digits := Digits(|b|);
    AtSplit(data, offset, digits + [COLON], b);
    assert COLON !in digits;
    AtSplit(data, offset, digits, [COLON]);
    IndexOfAfter(data, offset, digits, COLON);
    AtSlice(data, offset + |PrintStr(b)| - |b|, b);
  }

  lemma StringAccepted(data: Bytes, offset: nat)
    requires ParseString(data, offset).Success?
    ensures var p := ParseString(data, offset).value;
      && At(data, offset, PrintStr(p.bytes)) && p.next == offset + |PrintStr(p.bytes)|
      && |p.bytes| <= MAX_SAFE_INTEGER
  {
    var p := ParseString(data, offset).value;
    var colon := IndexOf(data, COLON, offset).value;
    var rawLength := data[offset..colon];
    DigitsOfNat(rawLength);
    assert data[offset..p.next] == rawLength + [COLON] + p.bytes;
    AtSlice(data, offset, PrintStr(p.bytes));
  }

  // ---- Every printed well-formed tree is accepted, unless it nests too deep ----

  lemma PrintedStart(data: Bytes, offset: nat, v: Value)
    requires At(data, offset, Print(v))
    ensures offset < |data| && data[offset] == Print(v)[0] && data[offset] != TOKEN_END
    ensures v.Int? <==> data[offset] == TOKEN_INT
    ensures v.Str? <==> IsDigit(data[offset])
    ensures v.List? <==> data[offset] == TOKEN_LIST
    ensures v.Dict? <==> data[offset] == TOKEN_DICT
  {
    PrintFirstByte(v);
    assert Print(v)[0] == data[offset];
  }

  lemma {:induction false} PrintedParses(data: Bytes, offset: nat, level: nat, opts: Options, v: Value)
    requires At(data, offset, Print(v)) && WellFormed(v, opts.allowUnsorted)
    ensures ParseValue(data, offset, level, opts) ==
      if NestsWithin(v, opts.maxDepth + 1 - level) then Success(Parsed(TextOf(v), offset + |Print(v)|))
      else Failure(TooDeep)
    decreases v, 1
  {
    hide ParseInteger, ParseString, ParseItems, ParseEntries, PrintItems, PrintEntries, PrintInt, PrintStr, At;
    hide ItemsWellFormed, EntriesWellFormed, KeysOk, ItemsNestWithin, EntriesNestWithin, TextOfItems, TextOfEntries;
    PrintedStart(data, offset, v);
    match v
    case Int(n, bom) => IntegerPrinted(data, offset, n, bom);
    case Str(b) => StringPrinted(data, offset, b);
    case List(items) =>
      if level <= opts.maxDepth {
        BodyAt(data, offset, TOKEN_LIST, PrintItems(items));
        PrintedItemsParse(data, offset + 1, level + 1, opts, [], items);
        assert [] + TextOfItems(items) == TextOfItems(items);
      }
    case Dict(entries) =>
      if level <= opts.maxDepth {
        BodyAt(data, offset, TOKEN_DICT, PrintEntries(entries));
        assert [] + TextOfEntries(entries) == TextOfEntries(entries);
        PrintedEntriesParse(data, offset + 1, level + 1, opts, [], entries);
      }
  }

  lemma BodyAt(data: Bytes, offset: nat, head: Byte, body: Bytes)
    ensures At(data, offset, [head] + body + [TOKEN_END]) <==>
      offset < |data| && data[offset] == head && At(data, offset + 1, body + [TOKEN_END])
  {
    var rest := body + [TOKEN_END];
    assert [head] + body + [TOKEN_END] == [head] + rest;
    if At(data, offset, [head] + rest) {
      AtSplit(data, offset, [head], rest);
      assert [head][0] == data[offset];
    }
    if offset < |data| && data[offset] == head && At(data, offset + 1, rest) {
      AtJoin(data, offset, [head], rest);
    }
  }

  /** A printed list body: its end, or one item and the rest. */
  lemma ItemsAt(data: Bytes, offset: nat, items: seq<Value>)
    requires At(data, offset, PrintItems(items) + [TOKEN_END])
    ensures offset < |data| && (items == [] <==> data[offset] == TOKEN_END)
    ensures items != [] ==>
      && At(data, offset, Print(items[0]))
      && At(data, offset + |Print(items[0])|, PrintItems(items[1..]) + [TOKEN_END])
      && |PrintItems(items)| == |Print(items[0])| + |PrintItems(items[1..])|
  {
    if items == [] {
      assert ([] + [TOKEN_END])[0] == data[offset];
    } else {
      var first, rest := Print(items[0]), PrintItems(items[1..]);
      assert first + rest + [TOKEN_END] == first + (rest + [TOKEN_END]);
      AtSplit(data, offset, first, rest + [TOKEN_END]);
      PrintFirstByte(items[0]);
      assert first[0] == data[offset];
    }
  }

  lemma {:induction false} PrintedItemsParse(data: Bytes, offset: nat, level: nat, opts: Options, before: seq<Value>, items: seq<Value>)
    requires At(data, offset, PrintItems(items) + [TOKEN_END]) && ItemsWellFormed(items, opts.allowUnsorted)
    ensures ParseItems(data, offset, level, opts, before) ==
      if ItemsNestWithin(items, opts.maxDepth + 1 - level)
      then Success(Parsed(List(before + TextOfItems(items)), offset + |PrintItems(items)| + 1))
      else Failure(TooDeep)
    decreases items, 0
  {
    hide ParseValue, Print, At, TextOf, WellFormed, NestsWithin;
    ItemsAt(data, offset, items);
    if items == [] {
      assert before + TextOfItems(items) == before;
    } else {
      var next, text := offset + |Print(items[0])|, TextOf(items[0]);
      PrintedParses(data, offset, level, opts, items[0]);
      PrintedItemsParse(data, next, level, opts, before + [text], items[1..]);
      assert before + [text] + TextOfItems(items[1..]) == before + TextOfItems(items);
    }
  }

  /** A printed dictionary body: its end, or one key, its value and the rest. */
  lemma EntriesAt(data: Bytes, offset: nat, entries: seq<Entry>)
    requires At(data, offset, PrintEntries(entries) + [TOKEN_END])
    ensures offset < |data| && (entries == [] <==> data[offset] == TOKEN_END)
    ensures entries != [] ==>
      var key, value := PrintStr(entries[0].key), Print(entries[0].value);
      && At(data, offset, key) && At(data, offset + |key|, value)
      && At(data, offset + |key| + |value|, PrintEntries(entries[1..]) + [TOKEN_END])
      && |PrintEntries(entries)| == |key| + |value| + |PrintEntries(entries[1..])|
  {
    if entries == [] {
      assert ([] + [TOKEN_END])[0] == data[offset];
    } else {
      var key, value, rest := PrintStr(entries[0].key), Print(entries[0].value), PrintEntries(entries[1..]);
      Regroup(key, value, rest, [TOKEN_END]);
      AtSplit(data, offset, key, value + (rest + [TOKEN_END]));
      AtSplit(data, offset + |key|, value, rest + [TOKEN_END]);
      assert key[0] == data[offset] && key[0] == Digits(|entries[0].key|)[0];
    }
  }

  lemma {:induction false} PrintedEntriesParse(data: Bytes, offset: nat, level: nat, opts: Options, before: seq<Entry>, entries: seq<Entry>)
    requires At(data, offset, PrintEntries(entries) + [TOKEN_END]) && EntriesWellFormed(entries, opts.allowUnsorted)
    requires KeysOk(before + TextOfEntries(entries), opts.allowUnsorted)
    ensures ParseEntries(data, offset, level, opts, before) ==
      if EntriesNestWithin(entries, opts.maxDepth + 1 - level)
      then Success(Parsed(Dict(before + TextOfEntries(entries)), offset + |PrintEntries(entries)| + 1))
      else Failure(TooDeep)
    decreases entries, 0
  {
    hide ParseValue, ParseString, KeyFault, KeysOk, Print, PrintStr, At, TextOf, DecodeText, WellFormed, NestsWithin;
    EntriesAt(data, offset, entries);
    if entries == [] {
      assert before + TextOfEntries(entries) == before;
    } else {
      var key, value := entries[0].key, entries[0].value;
      var text := Entry(DecodeText(key), TextOf(value));
      StringPrinted(data, offset, key);
      KeysOkNext(before, text, TextOfEntries(entries[1..]), opts.allowUnsorted);
      var after := offset + |PrintStr(key)|;
      PrintedParses(data, after, level, opts, value);
      assert before + [text] + TextOfEntries(entries[1..]) == before + TextOfEntries(entries);
      PrintedEntriesParse(data, after + |Print(value)|, level, opts, before + [text], entries[1..]);
    }
  }

  // ---- Whatever is accepted is a printed well-formed tree ----

  lemma {:induction false} AcceptedIsPrinted(data: Bytes, offset: nat, level: nat, opts: Options) returns (v: Value)
    requires ParseValue(data, offset, level, opts).Success?
    ensures var p := ParseValue(data, offset, level, opts).value;
      && At(data, offset, Print(v)) && p.next == offset + |Print(v)| && p.value == TextOf(v)
    ensures WellFormed(v, opts.allowUnsorted) && NestsWithin(v, opts.maxDepth + 1 - level)
    decreases |data| - offset, 0
  {
    hide ParseInteger, ParseString, ParseItems, ParseEntries, PrintItems, PrintEntries, PrintInt, PrintStr, At;
    hide ItemsWellFormed, EntriesWellFormed, ItemsNestWithin, EntriesNestWithin, TextOfItems, TextOfEntries;
    var p := ParseValue(data, offset, level, opts).value;
    var token := data[offset];
    if token == TOKEN_INT {
      var bom := IntegerAccepted(data, offset);
      v := Int(p.value.n, bom);
    } else if IsDigit(token) {
      StringAccepted(data, offset);
      v := Str(ParseString(data, offset).value.bytes);
    } else if token == TOKEN_LIST {
      var items := AcceptedItems(data, offset + 1, level + 1, opts, []);
      v := List(items);
      BodyAt(data, offset, TOKEN_LIST, PrintItems(items));
      assert [] + TextOfItems(items) == TextOfItems(items);
    } else {
      var entries := AcceptedEntries(data, offset + 1, level + 1, opts, []);
      v := Dict(entries);
      BodyAt(data, offset, TOKEN_DICT, PrintEntries(entries));
      assert [] + TextOfEntries(entries) == TextOfEntries(entries);
    }
  }

  lemma EndAt(data: Bytes, offset: nat)
    requires offset < |data| && data[offset] == TOKEN_END
    ensures At(data, offset, [TOKEN_END])
  {
  }

  lemma {:induction false} AcceptedItems(data: Bytes, offset: nat, level: nat, opts: Options, before: seq<Value>)
    returns (items: seq<Value>)
    requires ParseItems(data, offset, level, opts, before).Success?
    ensures var p := ParseItems(data, offset, level, opts, before).value;
      && At(data, offset, PrintItems(items) + [TOKEN_END]) && p.next == offset + |PrintItems(items)| + 1
      && p.value == List(before + TextOfItems(items))
    ensures ItemsWellFormed(items, opts.allowUnsorted) && ItemsNestWithin(items, opts.maxDepth + 1 - level)
    decreases |data| - offset, 1
  {
    hide ParseValue, Print, At, TextOf, WellFormed, NestsWithin;
    if data[offset] == TOKEN_END {
      items := [];
      EndAt(data, offset);
      assert PrintItems(items) + [TOKEN_END] == [TOKEN_END];
      assert before + TextOfItems(items) == before;
    } else {
      var first := AcceptedIsPrinted(data, offset, level, opts);
      var next := ParseValue(data, offset, level, opts).value.next;
      var rest := AcceptedItems(data, next, level, opts, before + [TextOf(first)]);
      items := [first] + rest;
      assert items[1..] == rest;
      AtJoin(data, offset, Print(first), PrintItems(rest) + [TOKEN_END]);
      assert PrintItems(items) + [TOKEN_END] == Print(first) + (PrintItems(rest) + [TOKEN_END]);
      assert before + [TextOf(first)] + TextOfItems(rest) == before + TextOfItems(items);
    }
  }

  lemma {:induction false} AcceptedEntries(data: Bytes, offset: nat, level: nat, opts: Options, before: seq<Entry>)
    returns (entries: seq<Entry>)
    requires ParseEntries(data, offset, level, opts, before).Success? && KeysOk(before, opts.allowUnsorted)
    ensures var p := ParseEntries(data, offset, level, opts, before).value;
      && At(data, offset, PrintEntries(entries) + [TOKEN_END]) && p.next == offset + |PrintEntries(entries)| + 1
      && p.value == Dict(before + TextOfEntries(entries))
    ensures KeysOk(before + TextOfEntries(entries), opts.allowUnsorted)
    ensures EntriesWellFormed(entries, opts.allowUnsorted) && EntriesNestWithin(entries, opts.maxDepth + 1 - level)
    decreases |data| - offset, 1
  {
    hide ParseValue, ParseString, KeyFault, KeysOk, Print, PrintStr, At, TextOf, DecodeText, WellFormed, NestsWithin;
    if data[offset] == TOKEN_END {
      entries := [];
      EndAt(data, offset);
      assert PrintEntries(entries) + [TOKEN_END] == [TOKEN_END];
      assert before + TextOfEntries(entries) == before;
    } else {
      StringAccepted(data, offset);
      var raw := ParseString(data, offset).value;
      var value := AcceptedIsPrinted(data, raw.next, level, opts);
      var next := ParseValue(data, raw.next, level, opts).value.next;
      var text := Entry(DecodeText(raw.bytes), TextOf(value));
      KeysOkSteps(before, text, opts.allowUnsorted);
      var rest := AcceptedEntries(data, next, level, opts, before + [text]);
      entries := [Entry(raw.bytes, value)] + rest;
      assert entries[1..] == rest;
      EntryJoin(data, offset, raw.bytes, value, rest);
      assert before + [text] + TextOfEntries(rest) == before + TextOfEntries(entries);
    }
  }

  lemma EntryJoin(data: Bytes, offset: nat, key: Bytes, value: Value, rest: seq<Entry>)
    requires At(data, offset, PrintStr(key)) && At(data, offset + |PrintStr(key)|, Print(value))
    requires At(data, offset + |PrintStr(key)| + |Print(value)|, PrintEntries(rest) + [TOKEN_END])
    ensures At(data, offset, PrintEntries([Entry(key, value)] + rest) + [TOKEN_END])
    ensures |PrintEntries([Entry(key, value)] + rest)| == |PrintStr(key)| + |Print(value)| + |PrintEntries(rest)|
  {
    var entries := [Entry(key, value)] + rest;
    assert entries[1..] == rest;
    Regroup(PrintStr(key), Print(value), PrintEntries(rest), [TOKEN_END]);
    AtJoin(data, offset + |PrintStr(key)|, Print(value), PrintEntries(rest) + [TOKEN_END]);
    AtJoin(data, offset, PrintStr(key), Print(value) + (PrintEntries(rest) + [TOKEN_END]));
  }

  // ---- The language of the decoder ----

  /** The input decodes to `w` exactly when it is a printed well-formed tree, nested within the limit, whose text is `w`. */
  lemma DecodesIffPrinted(data: Bytes, w: Value, maxBytes: int, maxDepth: int, allowUnsorted: bool)
    requires 0 <= maxBytes <= MAX_SAFE_INTEGER && 0 <= maxDepth <= MAX_SAFE_INTEGER && |data| <= maxBytes
    ensures DecodeResult(data, maxBytes, maxDepth, allowUnsorted) == Success(w) <==>
      exists v :: data == Print(v) && WellFormed(v, allowUnsorted) && NestsWithin(v, maxDepth + 1) && TextOf(v) == w
  {
    hide ParseValue, Print, TextOf, WellFormed, NestsWithin;
    var opts := Options(maxDepth, allowUnsorted);
    if DecodeResult(data, maxBytes, maxDepth, allowUnsorted) == Success(w) {
      var v := AcceptedIsPrinted(data, 0, 0, opts);
      AtSlice(data, 0, Print(v));
      assert data[0..|data|] == data;
    }
    if v :| data == Print(v) && WellFormed(v, allowUnsorted) && NestsWithin(v, maxDepth + 1) && TextOf(v) == w {
      PrintedParses(data, 0, 0, opts, v);
    }
  }
}
