/** The messages of metadata exchange (BEP 9): a bencoded header, and raw bytes appended to it. */
module MetadataMessages {
  import opened Results
  import opened ByteStrings
  import opened BencodeTree
  import opened BencodeDecoder
  import opened BencodeLanguage
  import opened BencodeEncoder
  import opened InfoLocator

  datatype ScanError =
    | TruncatedHeader
    | TruncatedInteger
    | TruncatedContainer
    | TruncatedHeaderString
    | InvalidHeaderLength
    | InvalidHeaderMarker

  const MAX_HEADER_DEPTH: nat := 32

  // ---- Locating the end of the header ----

  /** Where the value at `start` ends; the keys of a dictionary are scanned like values. */
  function Scan(data: Bytes, start: nat, depth: nat, number: Numeral): (r: Result<nat, ScanError>)
    ensures r.Success? ==> start < r.value <= |data|
    decreases |data| - start, 0
  {
    if depth > MAX_HEADER_DEPTH || start >= |data| then Failure(TruncatedHeader)
    else
      var marker := data[start];
      if marker == TOKEN_INT then
        match IndexOf(data, TOKEN_END, start + 1)
        case None => Failure(TruncatedInteger)
        case Some(end) => Success(end + 1)
      else if marker == TOKEN_LIST || marker == TOKEN_DICT then ScanBody(data, start + 1, depth + 1, number)
      else if IsDigit(marker) then
        match IndexOf(data, COLON, start)
        case None => Failure(TruncatedHeaderString)
        case Some(colon) =>
          match number(data[start..colon])
          case None => Failure(InvalidHeaderLength)
          case Some(length) =>
            if length < 0 || colon + 1 + length > |data| then Failure(InvalidHeaderLength)
            else Success(colon + 1 + length)
      else Failure(InvalidHeaderMarker)
  }

  function ScanBody(data: Bytes, offset: nat, depth: nat, number: Numeral): (r: Result<nat, ScanError>)
    ensures r.Success? ==> offset < r.value <= |data|
    decreases |data| - offset, 1
  {
    if offset >= |data| then Failure(TruncatedContainer)
    else if data[offset] == TOKEN_END then Success(offset + 1)
    else
      var next :- Scan(data, offset, depth, number);
      ScanBody(data, next, depth, number)
  }

  method BencodePrefixLength(data: Bytes, number: Numeral) returns (r: Result<nat, ScanError>)
    ensures r == Scan(data, 0, 0, number)
  {
    r := ScanFrom(data, 0, 0, number);
  }

  method ScanFrom(data: Bytes, start: nat, depth: nat, number: Numeral) returns (r: Result<nat, ScanError>)
    ensures r == Scan(data, start, depth, number)
    decreases |data| - start
  {
    if depth > MAX_HEADER_DEPTH || start >= |data| {
      return Failure(TruncatedHeader);
    }
    var marker := data[start];
    if marker == TOKEN_INT {
      var end := IndexOf(data, TOKEN_END, start + 1);
      return if end.None? then Failure(TruncatedInteger) else Success(end.value + 1);
    }
    if marker == TOKEN_LIST || marker == TOKEN_DICT {
      var offset := start + 1;
      while offset < |data| && data[offset] != TOKEN_END
        invariant start < offset <= |data|
        invariant ScanBody(data, offset, depth + 1, number) == ScanBody(data, start + 1, depth + 1, number)
      {
        var next := ScanFrom(data, offset, depth + 1, number);
        if next.Failure? {
          return next;
        }
        offset := next.value;
      }
      return if offset >= |data| then Failure(TruncatedContainer) else Success(offset + 1);
    }
    if IsDigit(marker) {
      var colon := start;
      while colon < |data| && data[colon] != COLON
        invariant start <= colon <= |data| && IndexOf(data, COLON, colon) == IndexOf(data, COLON, start)
      {
        colon := colon + 1;
      }
      if colon >= |data| {
        return Failure(TruncatedHeaderString);
      }
      var length := number(data[start..colon]);
      if length.None? || length.value < 0 || colon + 1 + length.value > |data| {
        return Failure(InvalidHeaderLength);
      }
      return Success(colon + 1 + length.value);
    }
    return Failure(InvalidHeaderMarker);
  }

  // ---- The prefix scan finds exactly the first value, whatever follows ----

  lemma ScansString(data: Bytes, offset: nat, depth: nat, b: Bytes, number: Numeral)
    requires At(data, offset, PrintStr(b)) && |b| <= MAX_SAFE_INTEGER && ReadsDigits(number)
    requires depth <= MAX_HEADER_DEPTH
    ensures Scan(data, offset, depth, number) == Success(offset + |PrintStr(b)|)
  {
    hide NatOf, At, IndexOf, ScanBody;
    var digits := Digits(|b|);
    AtSplit(data, offset, digits + [COLON], b);
    assert COLON !in digits;
    AtSplit(data, offset, digits, [COLON]);
    IndexOfAfter(data, offset, digits, COLON);
    assert data[offset] == data[offset..offset + |digits|][0] == digits[0];
  }

  lemma {:induction false} ScansPrinted(data: Bytes, offset: nat, depth: nat, v: Value, number: Numeral, u: bool)
    requires At(data, offset, Print(v)) && WellFormed(v, u) && ReadsDigits(number)
    ensures Scan(data, offset, depth, number) ==
      if LiesWithin(v, MAX_HEADER_DEPTH - depth) then Success(offset + |Print(v)|) else Failure(TruncatedHeader)
    decreases v, 1
  {
    hide ScanBody, PrintItems, PrintEntries, PrintInt, PrintStr, At, ReadsDigits, IndexOf;
    hide ItemsWellFormed, EntriesWellFormed, KeysOk, ItemsLieWithin, EntriesLieWithin, TextOfEntries;
    PrintedStart(data, offset, v);
    if depth <= MAX_HEADER_DEPTH {
      match v
      case Int(n, bom) => IntegerEnds(data, offset, n, bom);
      case Str(b) => ScansString(data, offset, depth, b, number);
      case List(items) =>
        BodyAt(data, offset, TOKEN_LIST, PrintItems(items));
        ScansItems(data, offset + 1, depth + 1, items, number, u);
      case Dict(entries) =>
        BodyAt(data, offset, TOKEN_DICT, PrintEntries(entries));
        ScansEntries(data, offset + 1, depth + 1, entries, number, u);
    }
  }

  lemma {:induction false} ScansItems(data: Bytes, offset: nat, depth: nat, items: seq<Value>, number: Numeral, u: bool)
    requires At(data, offset, PrintItems(items) + [TOKEN_END]) && ItemsWellFormed(items, u) && ReadsDigits(number)
    ensures ScanBody(data, offset, depth, number) ==
      if ItemsLieWithin(items, MAX_HEADER_DEPTH - depth) then Success(offset + |PrintItems(items)| + 1)
      else Failure(TruncatedHeader)
    decreases items, 0
  {
    hide Scan, Print, At, WellFormed, LiesWithin, ReadsDigits;
    ItemsAt(data, offset, items);
    if items == [] {
    } else {
      ScansPrinted(data, offset, depth, items[0], number, u);
      ScansItems(data, offset + |Print(items[0])|, depth, items[1..], number, u);
    }
  }

  lemma {:induction false} ScansEntries(data: Bytes, offset: nat, depth: nat, entries: seq<Entry>, number: Numeral, u: bool)
    requires At(data, offset, PrintEntries(entries) + [TOKEN_END]) && EntriesWellFormed(entries, u) && ReadsDigits(number)
    ensures ScanBody(data, offset, depth, number) ==
      if EntriesLieWithin(entries, MAX_HEADER_DEPTH - depth) then Success(offset + |PrintEntries(entries)| + 1)
      else Failure(TruncatedHeader)
    decreases entries, 0
  {
    hide Print, PrintStr, At, WellFormed, ReadsDigits, Scan;
    EntriesAt(data, offset, entries);
    if entries == [] {
    } else {
      var key, value := entries[0].key, entries[0].value;
      var after := offset + |PrintStr(key)|;
      ScansPrinted(data, after, depth, value, number, u);
      ScansEntries(data, after + |Print(value)|, depth, entries[1..], number, u);
      PrintedStart(data, after, value);
      if depth <= MAX_HEADER_DEPTH {
        ScansString(data, offset, depth, key, number);
        BodyStep(data, offset, depth, number);
        BodyStep(data, after, depth, number);
      } else {
        BodyStep(data, offset, depth, number);
        assert !LiesWithin(value, MAX_HEADER_DEPTH - depth);
      }
    }
  }

  lemma BodyStep(data: Bytes, offset: nat, depth: nat, number: Numeral)
    requires offset < |data| && data[offset] != TOKEN_END
    ensures ScanBody(data, offset, depth, number) ==
      match Scan(data, offset, depth, number) {
        case Failure(error) => Failure(error)
        case Success(next) => ScanBody(data, next, depth, number)
      }
    ensures depth > MAX_HEADER_DEPTH ==> Scan(data, offset, depth, number) == Failure(TruncatedHeader)
  {
  }

  /** A canonical value within the depth limit, followed by any bytes: the prefix is exactly the value. */
  lemma PrefixIsTheValue(v: Value, rest: Bytes, number: Numeral, u: bool)
    requires WellFormed(v, u) && ReadsDigits(number)
    ensures Scan(Print(v) + rest, 0, 0, number) ==
      if LiesWithin(v, MAX_HEADER_DEPTH) then Success(|Print(v)|) else Failure(TruncatedHeader)
  {
    hide Scan, Print, WellFormed, LiesWithin, ReadsDigits;
    ScansPrinted(Print(v) + rest, 0, 0, v, number, u);
  }

  // ---- Message headers ----

  datatype Message =
    | Request(piece: nat)
    | Data(piece: nat, totalSize: nat, block: Bytes)
    | Reject(piece: nat)

  datatype MessageError =
    | BadPrefix(scan: ScanError)
    | BadHeader(decode: DecodeError)
    | HeaderNotDictionary
    | MissingInteger(key: Bytes)
    | UnknownType

  const TYPE_KEY: Bytes := [0x6d, 0x73, 0x67, 0x5f, 0x74, 0x79, 0x70, 0x65]
  const PIECE_KEY: Bytes := [0x70, 0x69, 0x65, 0x63, 0x65]
  const TOTAL_KEY: Bytes := [0x74, 0x6f, 0x74, 0x61, 0x6c, 0x5f, 0x73, 0x69, 0x7a, 0x65]

  const MAX_HEADER_BYTES: nat := 64 * 1024
  const HEADER_DECODE_DEPTH: nat := 16

  function HeaderTree(kind: nat, piece: nat, totalSize: Option<nat>): Value {
    Dict([Entry(TYPE_KEY, Int(kind, false)), Entry(PIECE_KEY, Int(piece, false))]
         + match totalSize case None => [] case Some(n) => [Entry(TOTAL_KEY, Int(n, false))])
  }

  /** The bytes of a header, which `encodeMetadataHeader` produces for safe numbers. */
  function Header(kind: nat, piece: nat, totalSize: Option<nat>): Bytes {
    Print(HeaderTree(kind, piece, totalSize))
  }

  /** The non-negative integer under `key`. */
  function RequiredInteger(entries: seq<Entry>, key: Bytes): Result<nat, MessageError> {
    if entries == [] then Failure(MissingInteger(key))
    else if entries[0].key == key then
      if entries[0].value.Int? && entries[0].value.n >= 0 then Success(entries[0].value.n)
      else Failure(MissingInteger(key))
    else RequiredInteger(entries[1..], key)
  }

  function DecodeMessage(payload: Bytes, number: Numeral): Result<Message, MessageError> {
    match Scan(payload, 0, 0, number)
    case Failure(error) => Failure(BadPrefix(error))
    case Success(length) =>
      match DecodeResult(payload[..length], MAX_HEADER_BYTES, HEADER_DECODE_DEPTH, false)
      case Failure(error) => Failure(BadHeader(error))
      case Success(value) =>
        if !value.Dict? then Failure(HeaderNotDictionary)
        else
          var kind :- RequiredInteger(value.entries, TYPE_KEY);
          var piece :- RequiredInteger(value.entries, PIECE_KEY);
          if kind == 0 then Success(Request(piece))
          else if kind == 2 then Success(Reject(piece))
          else if kind != 1 then Failure(UnknownType)
          else
            var totalSize :- RequiredInteger(value.entries, TOTAL_KEY);
            Success(Data(piece, totalSize, payload[length..]))
  }

  method EncodeHeader(kind: nat, piece: nat, totalSize: Option<nat>) returns (ok: bool, bytes: Bytes)
    ensures ok <==> IsSafe(kind) && IsSafe(piece) && (totalSize.Some? ==> IsSafe(totalSize.value))
    ensures ok ==> bytes == Header(kind, piece, totalSize)
  {
    var tree := HeaderTree(kind, piece, totalSize);
    HeaderIsCanonical(kind, piece, totalSize);
    ok, bytes := Encode(tree);
  }

  function Pow10(k: nat): nat {
    if k == 0 then 1 else 10 * Pow10(k - 1)
  }

  lemma {:induction false} DigitsBound(n: nat, k: nat)
    requires k >= 1 && n < Pow10(k)
    ensures |Digits(n)| <= k
  {
    if n < 10 {
    } else {
      DigitsBound(n / 10, k - 1);
    }
  }

  lemma SafeDigits(n: nat)
    requires IsSafe(n)
    ensures |Digits(n)| <= 16
  {
    assert Pow10(4) == 10000;
    assert Pow10(8) == 10000 * Pow10(4);
    assert Pow10(12) == 10000 * Pow10(8);
    assert Pow10(16) == 10000 * Pow10(12);
    DigitsBound(n, 16);
  }

  lemma HeaderKeysOk(entries: seq<Entry>)
    requires 2 <= |entries| <= 3 && entries[0].key == TYPE_KEY && entries[1].key == PIECE_KEY
    requires |entries| == 3 ==> entries[2].key == TOTAL_KEY
    ensures KeysOk(entries, false) && DistinctKeys(entries) && Ascending(entries)
  {
    LessByFirst(TYPE_KEY, PIECE_KEY);
    LessByFirst(PIECE_KEY, TOTAL_KEY);
    LessTotal(TYPE_KEY, PIECE_KEY);
    LessTotal(PIECE_KEY, TOTAL_KEY);
    hide Less;
    assert TYPE_KEY[0] == 0x6d && PIECE_KEY[0] == 0x70 && TOTAL_KEY[0] == 0x74;
  }

  lemma LessByFirst(a: Bytes, b: Bytes)
    requires a != [] && b != [] && a[0] < b[0]
    ensures Less(a, b)
  {
  }

  /** Entries of numbers under keys that text decoding leaves alone need no conversion of any kind. */
  lemma {:induction false} NumberEntries(entries: seq<Entry>)
    requires forall e :: e in entries ==> e.value.Int? && !e.value.bom && e.key != [] && e.key[0] != 0xEF
    ensures CanonicalEntries(entries) == entries && BomFreeEntries(entries) && UnmarkedEntries(entries)
    ensures EntriesEncodable(entries) <==> forall e :: e in entries ==> IsSafe(e.value.n)
    ensures EntriesWellFormed(entries, false) <==>
      forall e :: e in entries ==> |e.key| <= MAX_SAFE_INTEGER && IsSafe(e.value.n)
    ensures forall d :: d >= 0 ==> EntriesNestWithin(entries, d) && EntriesLieWithin(entries, d)
  {
    hide DecodeText, EntriesNestWithin, EntriesLieWithin;
    if entries == [] {
    } else {
      UnmarkedIsText(entries[0].key);
      NumberEntries(entries[1..]);
      assert entries == [entries[0]] + entries[1..];
    }
    forall d | d >= 0 ensures EntriesNestWithin(entries, d) && EntriesLieWithin(entries, d) {
      NumbersNest(entries, d);
    }
  }

  lemma {:induction false} NumbersNest(entries: seq<Entry>, d: int)
    requires d >= 0 && forall e :: e in entries ==> e.value.Int?
    ensures EntriesNestWithin(entries, d) && EntriesLieWithin(entries, d)
  {
    if entries == [] {
    } else {
      NumbersNest(entries[1..], d);
    }
  }

  lemma HeaderEntries(kind: nat, piece: nat, totalSize: Option<nat>)
    ensures var entries := HeaderTree(kind, piece, totalSize).entries;
      && CanonicalEntries(entries) == entries && TextOfEntries(entries) == entries
      && KeysOk(entries, false) && DistinctKeys(entries) && Ascending(entries)
      && (forall d :: d >= 0 ==> EntriesNestWithin(entries, d) && EntriesLieWithin(entries, d))
      && (EntriesEncodable(entries) <==> IsSafe(kind) && IsSafe(piece) && (totalSize.Some? ==> IsSafe(totalSize.value)))
      && (EntriesWellFormed(entries, false) <==> EntriesEncodable(entries))
  {
    hide CanonicalEntries, TextOfEntries, KeysOk, DistinctKeys, Ascending, EntriesEncodable, EntriesWellFormed;
    hide EntriesNestWithin, EntriesLieWithin, BomFreeEntries, UnmarkedEntries;
    var entries := HeaderTree(kind, piece, totalSize).entries;
    HeaderKeysOk(entries);
    assert entries[0] == Entry(TYPE_KEY, Int(kind, false)) && entries[1] == Entry(PIECE_KEY, Int(piece, false));
    assert totalSize.Some? ==> entries[2] == Entry(TOTAL_KEY, Int(totalSize.value, false));
    NumberEntries(entries);
    TextOfEntriesFixpoint(entries);
  }

  lemma HeaderIsCanonical(kind: nat, piece: nat, totalSize: Option<nat>)
    ensures Canonical(HeaderTree(kind, piece, totalSize)) == HeaderTree(kind, piece, totalSize)
    ensures Encodable(HeaderTree(kind, piece, totalSize)) <==>
      IsSafe(kind) && IsSafe(piece) && (totalSize.Some? ==> IsSafe(totalSize.value))
  {
    HeaderEntries(kind, piece, totalSize);
    hide CanonicalEntries, KeysOk, DistinctKeys, EntriesEncodable;
    SortOfAscending(HeaderTree(kind, piece, totalSize).entries);
  }

  lemma HeaderShape(kind: nat, piece: nat, totalSize: Option<nat>)
    requires IsSafe(kind) && IsSafe(piece) && (totalSize.Some? ==> IsSafe(totalSize.value))
    ensures var tree := HeaderTree(kind, piece, totalSize);
      && WellFormed(tree, false) && TextOf(tree) == tree
      && NestsWithin(tree, HEADER_DECODE_DEPTH + 1) && LiesWithin(tree, MAX_HEADER_DEPTH)
  {
    hide KeysOk, TextOfEntries, CanonicalEntries, DistinctKeys, Ascending;
    hide EntriesWellFormed, EntriesNestWithin, EntriesLieWithin, EntriesEncodable;
    HeaderEntries(kind, piece, totalSize);
  }

  /** A header decodes to its own tree, and the prefix scan finds its end before any appended bytes. */
  lemma HeaderDecodes(kind: nat, piece: nat, totalSize: Option<nat>, rest: Bytes, number: Numeral)
    requires IsSafe(kind) && IsSafe(piece) && (totalSize.Some? ==> IsSafe(totalSize.value)) && ReadsDigits(number)
    ensures var header := Header(kind, piece, totalSize);
      && Scan(header + rest, 0, 0, number) == Success(|header|)
      && DecodeResult(header, MAX_HEADER_BYTES, HEADER_DECODE_DEPTH, false) == Success(HeaderTree(kind, piece, totalSize))
  {
    hide Scan, DecodeResult, HeaderTree, Print, ReadsDigits, WellFormed, NestsWithin, LiesWithin, TextOf;
    var tree, header := HeaderTree(kind, piece, totalSize), Header(kind, piece, totalSize);
    HeaderShape(kind, piece, totalSize);
    HeaderIsShort(kind, piece, totalSize);
    PrefixIsTheValue(tree, rest, number, false);
    DecodesIffPrinted(header, tree, MAX_HEADER_BYTES, HEADER_DECODE_DEPTH, false);
  }

  lemma HeaderIsShort(kind: nat, piece: nat, totalSize: Option<nat>)
    requires IsSafe(kind) && IsSafe(piece) && (totalSize.Some? ==> IsSafe(totalSize.value))
    ensures |Header(kind, piece, totalSize)| <= MAX_HEADER_BYTES
  {
    var entries := HeaderTree(kind, piece, totalSize).entries;
    EntryIsShort(entries[0]);
    EntryIsShort(entries[1]);
    if totalSize.Some? {
      EntryIsShort(entries[2]);
    }
    hide PrintStr, Print;
    assert |PrintEntries(entries)| <= 3 * 48 by {
      assert |PrintEntries(entries[1..][1..])| <= 48 by {
        if totalSize.Some? {
          assert entries[1..][1..] == [entries[2]];
          assert entries[1..][1..][1..] == [];
        } else {
          assert entries[1..][1..] == [];
        }
      }
      assert entries[1..][0] == entries[1];
    }
    PrintDictLength(entries);
  }

  lemma EntryIsShort(entry: Entry)
    requires |entry.key| <= 10 && entry.value.Int? && !entry.value.bom && entry.value.n >= 0 && IsSafe(entry.value.n)
    ensures |PrintStr(entry.key)| + |Print(entry.value)| <= 48
  {
    SafeDigits(entry.value.n);
    SafeDigits(|entry.key|);
  }

  lemma PrintDictLength(entries: seq<Entry>)
    ensures |Print(Dict(entries))| == |PrintEntries(entries)| + 2
  {
  }

  /** The three kinds of message, whatever block is appended, come back from their bytes. */
  lemma MessagesRoundTrip(piece: nat, totalSize: nat, block: Bytes, number: Numeral)
    requires IsSafe(piece) && IsSafe(totalSize) && ReadsDigits(number)
    ensures DecodeMessage(Header(0, piece, None), number) == Success(Request(piece))
    ensures DecodeMessage(Header(2, piece, None), number) == Success(Reject(piece))
    ensures DecodeMessage(Header(1, piece, Some(totalSize)) + block, number) == Success(Data(piece, totalSize, block))
  {
    HeaderMessage(0, piece, None, [], number);
    HeaderMessage(2, piece, None, [], number);
    HeaderMessage(1, piece, Some(totalSize), block, number);
    hide Header, DecodeMessage;
    assert Header(0, piece, None) + [] == Header(0, piece, None);
    assert Header(2, piece, None) + [] == Header(2, piece, None);
  }

  lemma HeaderMessage(kind: nat, piece: nat, totalSize: Option<nat>, rest: Bytes, number: Numeral)
    requires IsSafe(piece) && (totalSize.Some? ==> IsSafe(totalSize.value)) && ReadsDigits(number)
    requires kind <= 2 && (kind == 1 ==> totalSize.Some?)
    ensures DecodeMessage(Header(kind, piece, totalSize) + rest, number) == Success(
      if kind == 0 then Request(piece) else if kind == 2 then Reject(piece) else Data(piece, totalSize.value, rest))
  {
    HeaderDecodes(kind, piece, totalSize, rest, number);
    HeaderFields(kind, piece, totalSize);
    hide Header, HeaderTree, Scan, DecodeResult, RequiredInteger;
    var header := Header(kind, piece, totalSize);
    assert (header + rest)[..|header|] == header && (header + rest)[|header|..] == rest;
  }

  lemma HeaderFields(kind: nat, piece: nat, totalSize: Option<nat>)
    ensures HeaderTree(kind, piece, totalSize).Dict?
    ensures RequiredInteger(HeaderTree(kind, piece, totalSize).entries, TYPE_KEY) == Success(kind)
    ensures RequiredInteger(HeaderTree(kind, piece, totalSize).entries, PIECE_KEY) == Success(piece)
    ensures totalSize.Some? ==>
      RequiredInteger(HeaderTree(kind, piece, totalSize).entries, TOTAL_KEY) == Success(totalSize.value)
  {
    var entries := HeaderTree(kind, piece, totalSize).entries;
    assert entries[1..][0] == entries[1];
    assert TYPE_KEY[0] == 0x6d && PIECE_KEY[0] == 0x70 && TOTAL_KEY[0] == 0x74;
    if totalSize.Some? {
      assert entries[1..][1..][0] == entries[2];
      assert RequiredInteger(entries[1..][1..], TOTAL_KEY) == Success(totalSize.value);
      assert RequiredInteger(entries[1..], TOTAL_KEY) == RequiredInteger(entries[1..][1..], TOTAL_KEY);
    }
  }
}
