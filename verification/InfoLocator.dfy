/**
 The exact-byte locator of the `info` dictionary: a scanner that is independent of the decoder and
 must agree with it on where every value ends.
 */
module InfoLocator {
  import opened Results
  import opened ByteStrings
  import opened BencodeTree
  import opened BencodeDecoder
  import opened BencodeLanguage

  datatype LocatorError =
    | InvalidBencode(cause: DecodeError)
    | UnexpectedEndOfData
    | NestingTooDeep
    | InvalidMarker
    | InvalidStringLength
    | RootNotDictionary
    | InfoNotDictionary
    | MissingInfo

  /** The nesting the scanner accepts, and the default nesting limit of the decoder. */
  const MAX_SCAN_DEPTH: nat := 256
  const DEFAULT_MAX_DEPTH: nat := 1000

  const INFO_KEY: Bytes := [0x69, 0x6e, 0x66, 0x6f]

  /**
   The number a piece of text converts to, if it is a safe integer. What the conversion makes of
   text other than canonical digits is left open.
   */
  type Numeral = Bytes -> Option<int>

  ghost predicate ReadsDigits(number: Numeral) {
    forall s :: IsCanonicalNat(s) && IsSafe(NatOf(s)) ==> number(s) == Some(NatOf(s))
  }

  // ---- The scanner ----

  function ReadString(data: Bytes, offset: nat, number: Numeral): (r: Result<RawString, LocatorError>)
    ensures r.Success? ==> offset < r.value.next <= |data|
  {
    match IndexOf(data, COLON, offset)
    case None => Failure(UnexpectedEndOfData)
    case Some(colon) =>
      match number(data[offset..colon])
      case None => Failure(InvalidStringLength)
      case Some(length) =>
        if length < 0 || colon + 1 + length > |data| then Failure(InvalidStringLength)
        else Success(RawString(data[colon + 1..colon + 1 + length], colon + 1 + length))
  }

  /** Where the value at `offset` ends. */
  function Skip(data: Bytes, offset: nat, depth: nat, number: Numeral): (r: Result<nat, LocatorError>)
    ensures r.Success? ==> offset < r.value <= |data|
    decreases |data| - offset, 0
  {
    if depth > MAX_SCAN_DEPTH then Failure(NestingTooDeep)
    else if offset >= |data| then Failure(UnexpectedEndOfData)
    else
      var marker := data[offset];
      if IsDigit(marker) then
        var raw :- ReadString(data, offset, number);
        Success(raw.next)
      else if marker == TOKEN_INT then
        match IndexOf(data, TOKEN_END, offset + 1)
        case None => Failure(UnexpectedEndOfData)
        case Some(end) => Success(end + 1)
      else if marker == TOKEN_LIST then SkipItems(data, offset + 1, depth + 1, number)
      else if marker == TOKEN_DICT then SkipEntries(data, offset + 1, depth + 1, number)
      else Failure(InvalidMarker)
  }

  function SkipItems(data: Bytes, offset: nat, depth: nat, number: Numeral): (r: Result<nat, LocatorError>)
    ensures r.Success? ==> offset < r.value <= |data|
    decreases |data| - offset, 1
  {
    if offset >= |data| then Failure(UnexpectedEndOfData)
    else if data[offset] == TOKEN_END then Success(offset + 1)
    else
      var next :- Skip(data, offset, depth, number);
      SkipItems(data, next, depth, number)
  }

  function SkipEntries(data: Bytes, offset: nat, depth: nat, number: Numeral): (r: Result<nat, LocatorError>)
    ensures r.Success? ==> offset < r.value <= |data|
    decreases |data| - offset, 1
  {
    if offset >= |data| then Failure(UnexpectedEndOfData)
    else if data[offset] == TOKEN_END then Success(offset + 1)
    else
      var raw :- ReadString(data, offset, number);
      var next :- Skip(data, raw.next, depth, number);
      SkipEntries(data, next, depth, number)
  }

  method ReadByteString(data: Bytes, start: nat, number: Numeral) returns (r: Result<RawString, LocatorError>)
    ensures r == ReadString(data, start, number)
  {
    var cursor := start;
    while cursor < |data| && data[cursor] != COLON
      invariant cursor >= start && IndexOf(data, COLON, cursor) == IndexOf(data, COLON, start)
      invariant start <= |data| ==> cursor <= |data|
    {
      cursor := cursor + 1;
    }
    if cursor >= |data| {
      return Failure(UnexpectedEndOfData);
    }
    var length := number(data[start..cursor]);
    if length.None? || length.value < 0 || cursor + 1 + length.value > |data| {
      return Failure(InvalidStringLength);
    }
    var end := cursor + 1 + length.value;
    return Success(RawString(data[cursor + 1..end], end));
  }

  method SkipValue(data: Bytes, start: nat, depth: nat, number: Numeral) returns (r: Result<nat, LocatorError>)
    ensures r == Skip(data, start, depth, number)
    decreases |data| - start
  {
    if depth > MAX_SCAN_DEPTH {
      return Failure(NestingTooDeep);
    }
    if start >= |data| {
      return Failure(UnexpectedEndOfData);
    }
    var marker, cursor := data[start], start;
    if IsDigit(marker) {
      var raw := ReadByteString(data, cursor, number);
      return if raw.Failure? then Failure(raw.error) else Success(raw.value.next);
    } else if marker == TOKEN_INT {
      cursor := cursor + 1;
      while cursor < |data| && data[cursor] != TOKEN_END
        invariant start < cursor <= |data| && IndexOf(data, TOKEN_END, cursor) == IndexOf(data, TOKEN_END, start + 1)
      {
        cursor := cursor + 1;
      }
      return if cursor < |data| then Success(cursor + 1) else Failure(UnexpectedEndOfData);
    } else if marker == TOKEN_LIST {
      cursor := cursor + 1;
      while cursor < |data| && data[cursor] != TOKEN_END
        invariant start < cursor <= |data|
        invariant SkipItems(data, cursor, depth + 1, number) == SkipItems(data, start + 1, depth + 1, number)
      {
        var next := SkipValue(data, cursor, depth + 1, number);
        if next.Failure? {
          return next;
        }
        cursor := next.value;
      }
      return if cursor < |data| then Success(cursor + 1) else Failure(UnexpectedEndOfData);
    } else if marker == TOKEN_DICT {
      cursor := cursor + 1;
      while cursor < |data| && data[cursor] != TOKEN_END
        invariant start < cursor <= |data|
        invariant SkipEntries(data, cursor, depth + 1, number) == SkipEntries(data, start + 1, depth + 1, number)
      {
        var key := ReadByteString(data, cursor, number);
        if key.Failure? {
          return Failure(key.error);
        }
        var next := SkipValue(data, key.value.next, depth + 1, number);
        if next.Failure? {
          return next;
        }
        cursor := next.value;
      }
      return if cursor < |data| then Success(cursor + 1) else Failure(UnexpectedEndOfData);
    }
    return Failure(InvalidMarker);
  }

  // ---- Locating the info dictionary ----

  /** The scan of the root entries from `offset` on, `found` being the slice located so far. */
  function FindInfo(data: Bytes, offset: nat, number: Numeral, found: Option<Bytes>): Result<Bytes, LocatorError>
    decreases |data| - offset
  {
    if offset >= |data| then Failure(UnexpectedEndOfData)
    else if data[offset] == TOKEN_END then
      match found
      case None => Failure(MissingInfo)
      case Some(slice) => Success(slice)
    else
      var key :- ReadString(data, offset, number);
      var next :- Skip(data, key.next, 1, number);
      if key.bytes == INFO_KEY then
        if data[key.next] != TOKEN_DICT then Failure(InfoNotDictionary)
        else FindInfo(data, next, number, Some(data[key.next..next]))
      else FindInfo(data, next, number, found)
  }

  function InfoBytes(data: Bytes, number: Numeral): Result<Bytes, LocatorError> {
    match DecodeResult(data, |data|, DEFAULT_MAX_DEPTH, false)
    case Failure(cause) => Failure(InvalidBencode(cause))
    case Success(_) =>
      if data == [] then Failure(UnexpectedEndOfData)
      else if data[0] != TOKEN_DICT then Failure(RootNotDictionary)
      else FindInfo(data, 1, number, None)
  }

  /** Extracts the exact bytes of the `info` dictionary from complete metainfo. */
  method ExtractInfo(data: Bytes, number: Numeral) returns (r: Result<Bytes, LocatorError>)
    ensures r == InfoBytes(data, number)
  {
    var decoded := Decode(data, |data|, DEFAULT_MAX_DEPTH, false);
    if decoded.Failure? {
      return Failure(InvalidBencode(decoded.error));
    }
    if data == [] {
      return Failure(UnexpectedEndOfData);
    }
    if data[0] != TOKEN_DICT {
      return Failure(RootNotDictionary);
    }
    var cursor: nat, found: Option<Bytes> := 1, None;
    while cursor < |data| && data[cursor] != TOKEN_END
      invariant 1 <= cursor <= |data|
      invariant FindInfo(data, cursor, number, found) == FindInfo(data, 1, number, None)
    {
      var key := ReadByteString(data, cursor, number);
      if key.Failure? {
        return Failure(key.error);
      }
      var next := SkipValue(data, key.value.next, 1, number);
      if next.Failure? {
        return Failure(next.error);
      }
      if key.value.bytes == INFO_KEY {
        if data[key.value.next] != TOKEN_DICT {
          return Failure(InfoNotDictionary);
        }
        found := Some(data[key.value.next..next.value]);
      }
      cursor := next.value;
    }
    if cursor >= |data| {
      return Failure(UnexpectedEndOfData);
    }
    return if found.None? then Failure(MissingInfo) else Success(found.value);
  }

  // ---- The scanner agrees with the decoder on where a value ends ----

  lemma NoColonInDigits(n: nat)
    ensures COLON !in Digits(n)
  {
    var digits := Digits(n);
    assert forall i :: 0 <= i < |digits| ==> IsDigit(digits[i]);
  }

  lemma ReadsPrinted(data: Bytes, offset: nat, b: Bytes, number: Numeral)
    requires At(data, offset, PrintStr(b)) && |b| <= MAX_SAFE_INTEGER && ReadsDigits(number)
    ensures ReadString(data, offset, number) == Success(RawString(b, offset + |PrintStr(b)|))
  {
    hide NatOf, At, IndexOf, Digits;
    var digits := Digits(|b|);
    AtSplit(data, offset, digits + [COLON], b);
    NoColonInDigits(|b|);
    AtSplit(data, offset, digits, [COLON]);
    IndexOfAfter(data, offset, digits, COLON);
    AtSlice(data, offset + |PrintStr(b)| - |b|, b);
  }

  lemma IntegerEnds(data: Bytes, offset: nat, n: int, bom: bool)
    requires At(data, offset, PrintInt(n, bom))
    ensures IndexOf(data, TOKEN_END, offset + 1) == Some(offset + |PrintInt(n, bom)| - 1)
  {
    hide At, IndexOf, IntBody, IsCanonicalInteger, IntegerText, IntegerOf;
    var body := IntBody(n, bom);
    BodyAt(data, offset, TOKEN_INT, body);
    IntegerTextPrinted(n, bom);
    AtSplit(data, offset + 1, body, [TOKEN_END]);
    IndexOfAfter(data, offset + 1, body, TOKEN_END);
  }

  lemma {:induction false} ScannerAgrees(data: Bytes, offset: nat, depth: nat, v: Value, number: Numeral, u: bool)
    requires At(data, offset, Print(v)) && WellFormed(v, u) && ReadsDigits(number)
    ensures Skip(data, offset, depth, number) ==
      if LiesWithin(v, MAX_SCAN_DEPTH - depth) then Success(offset + |Print(v)|) else Failure(NestingTooDeep)
    decreases v, 1
  {
    hide ReadString, SkipItems, SkipEntries, PrintItems, PrintEntries, PrintInt, PrintStr, At, ReadsDigits, IndexOf;
    hide ItemsWellFormed, EntriesWellFormed, KeysOk, ItemsLieWithin, EntriesLieWithin, TextOfEntries;
    PrintedStart(data, offset, v);
    if depth <= MAX_SCAN_DEPTH {
      match v
      case Int(n, bom) => IntegerEnds(data, offset, n, bom);
      case Str(b) => ReadsPrinted(data, offset, b, number);
      case List(items) =>
        BodyAt(data, offset, TOKEN_LIST, PrintItems(items));
        ScannerAgreesOnItems(data, offset + 1, depth + 1, items, number, u);
      case Dict(entries) =>
        BodyAt(data, offset, TOKEN_DICT, PrintEntries(entries));
        ScannerAgreesOnEntries(data, offset + 1, depth + 1, entries, number, u);
    }
  }

  lemma {:induction false} ScannerAgreesOnItems(data: Bytes, offset: nat, depth: nat, items: seq<Value>, number: Numeral, u: bool)
    requires At(data, offset, PrintItems(items) + [TOKEN_END]) && ItemsWellFormed(items, u) && ReadsDigits(number)
    ensures SkipItems(data, offset, depth, number) ==
      if ItemsLieWithin(items, MAX_SCAN_DEPTH - depth) then Success(offset + |PrintItems(items)| + 1)
      else Failure(NestingTooDeep)
    decreases items, 0
  {
    hide Skip, Print, At, WellFormed, LiesWithin, ReadsDigits;
    ItemsAt(data, offset, items);
    if items == [] {
    } else {
      ScannerAgrees(data, offset, depth, items[0], number, u);
      ScannerAgreesOnItems(data, offset + |Print(items[0])|, depth, items[1..], number, u);
    }
  }

  lemma {:induction false} ScannerAgreesOnEntries(data: Bytes, offset: nat, depth: nat, entries: seq<Entry>, number: Numeral, u: bool)
    requires At(data, offset, PrintEntries(entries) + [TOKEN_END]) && EntriesWellFormed(entries, u) && ReadsDigits(number)
    ensures SkipEntries(data, offset, depth, number) ==
      if EntriesLieWithin(entries, MAX_SCAN_DEPTH - depth) then Success(offset + |PrintEntries(entries)| + 1)
      else Failure(NestingTooDeep)
    decreases entries, 0
  {
    hide Skip, ReadString, Print, PrintStr, At, WellFormed, LiesWithin, ReadsDigits;
    EntriesAt(data, offset, entries);
    if entries == [] {
    } else {
      var after := offset + |PrintStr(entries[0].key)|;
      ReadsPrinted(data, offset, entries[0].key, number);
      ScannerAgrees(data, after, depth, entries[0].value, number, u);
      ScannerAgreesOnEntries(data, after + |Print(entries[0].value)|, depth, entries[1..], number, u);
    }
  }

  // ---- The located slice is the info value ----

  /** `value` is the entry of the raw key `info`. */
  ghost predicate IsInfo(entries: seq<Entry>, value: Value) {
    exists i :: 0 <= i < |entries| && entries[i] == Entry(INFO_KEY, value)
  }

  /** The slice found is the last info value, given that all values lie within the limit and every info value is a dictionary. */
  lemma {:induction false} FindsInfo(data: Bytes, offset: nat, entries: seq<Entry>, number: Numeral, found: Option<Bytes>)
    requires At(data, offset, PrintEntries(entries) + [TOKEN_END]) && EntriesWellFormed(entries, false) && ReadsDigits(number)
    requires forall i, j :: 0 <= i < j < |entries| ==> entries[i].key != entries[j].key
    requires found.Some? ==> !HasKey(entries, INFO_KEY)
    ensures FindInfo(data, offset, number, found).Success? <==>
      && EntriesLieWithin(entries, MAX_SCAN_DEPTH - 1)
      && (found.Some? || exists value :: IsInfo(entries, value) && value.Dict?)
    ensures FindInfo(data, offset, number, found).Success? ==>
      forall value :: IsInfo(entries, value) ==> FindInfo(data, offset, number, found).value == Print(value)
    ensures FindInfo(data, offset, number, found).Success? && found.Some? ==>
      FindInfo(data, offset, number, found) == Success(found.value)
    decreases entries
  {
    hide Skip, ReadString, Print, PrintStr, At, WellFormed, LiesWithin, ReadsDigits;
    EntriesAt(data, offset, entries);
    if entries == [] {
    } else {
      var key, value, rest := entries[0].key, entries[0].value, entries[1..];
      var after := offset + |PrintStr(key)|;
      var next := after + |Print(value)|;
      ReadsPrinted(data, offset, key, number);
      PrintedStart(data, after, value);
      ScannerAgrees(data, after, 1, value, number, false);
      AtSlice(data, after, Print(value));
      IsInfoStep(entries);
      var now := if key == INFO_KEY then Some(data[after..next]) else found;
      assert forall i :: 0 <= i < |rest| ==> rest[i] == entries[i + 1];
      FindsInfo(data, next, rest, number, now);
    }
  }

  lemma IsInfoStep(entries: seq<Entry>)
    requires entries != []
    ensures forall value :: IsInfo(entries, value) <==> entries[0] == Entry(INFO_KEY, value) || IsInfo(entries[1..], value)
    ensures HasKey(entries, INFO_KEY) <==> entries[0].key == INFO_KEY || HasKey(entries[1..], INFO_KEY)
    ensures HasKey(entries, INFO_KEY) <==> exists value :: IsInfo(entries, value)
    ensures HasKey(entries[1..], INFO_KEY) <==> exists value :: IsInfo(entries[1..], value)
  {
    var rest := entries[1..];
    forall value ensures IsInfo(entries, value) <==> entries[0] == Entry(INFO_KEY, value) || IsInfo(rest, value) {
      if i :| 0 < i < |entries| && entries[i] == Entry(INFO_KEY, value) { assert rest[i - 1] == Entry(INFO_KEY, value); }
      if i :| 0 <= i < |rest| && rest[i] == Entry(INFO_KEY, value) { assert entries[i + 1] == Entry(INFO_KEY, value); }
    }
    KeyHasValue(entries);
    KeyHasValue(rest);
  }

  lemma KeyHasValue(entries: seq<Entry>)
    ensures HasKey(entries, INFO_KEY) <==> exists value :: IsInfo(entries, value)
  {
    if i :| 0 <= i < |entries| && entries[i].key == INFO_KEY {
      assert IsInfo(entries, entries[i].value);
    }
  }
}
