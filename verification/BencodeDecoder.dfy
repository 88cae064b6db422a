/**
 The strict bencode decoder: the explicit-stack machine of the implementation, proved equal to a
 recursive-descent parser, errors and offsets included.
 */
module BencodeDecoder {
  import opened Results
  import opened ByteStrings
  import opened BencodeTree

  datatype DecodeError =
    | BadMaxBytes
    | BadMaxDepth
    | InputTooLarge
    | TrailingData
    | UnexpectedEnd
    | UnexpectedToken
    | TooDeep
    | ValueWithoutKey
    | DuplicateKey
    | UnsortedKeys
    | UnterminatedInteger
    | InvalidInteger
    | UnsafeInteger
    | MissingColon
    | InvalidLength
    | LengthLeadingZero
    | UnsafeLength
    | TruncatedString

  /** The limits in force: `maxDepth` and the tolerance for unsorted keys. */
  datatype Options = Options(maxDepth: nat, allowUnsorted: bool)

  datatype Parsed = Parsed(value: Value, next: nat)

  datatype RawString = RawString(bytes: Bytes, next: nat)

  // ---- Scalars ----

  /** The digits and sign between the opening byte and the end of an integer, a leading mark dropped. */
  function IntegerText(raw: Bytes): Bytes {
    if HasBom(raw) then raw[3..] else raw
  }

  predicate IsCanonicalInteger(text: Bytes) {
    if text != [] && text[0] == 0x2d then IsCanonicalNat(text[1..]) && text[1..] != [0x30]
    else IsCanonicalNat(text)
  }

  function IntegerOf(text: Bytes): int
    requires IsCanonicalInteger(text)
  {
    var magnitude: int := NatOf(if text[0] == 0x2d then text[1..] else text);
    if text[0] == 0x2d then -magnitude else magnitude
  }

  function ParseInteger(data: Bytes, offset: nat): (r: Result<Parsed, DecodeError>)
    ensures r.Success? ==> offset < r.value.next <= |data|
  {
    match IndexOf(data, TOKEN_END, offset)
    case None => Failure(UnterminatedInteger)
    case Some(end) =>
      var text := IntegerText(data[offset..end]);
      if !IsCanonicalInteger(text) then Failure(InvalidInteger)
      else if !IsSafe(IntegerOf(text)) then Failure(UnsafeInteger)
      else Success(Parsed(Int(IntegerOf(text), false), end + 1))
  }

  function ParseString(data: Bytes, offset: nat): (r: Result<RawString, DecodeError>)
    ensures r.Success? ==> offset < r.value.next <= |data|
  {
    match IndexOf(data, COLON, offset)
    case None => Failure(MissingColon)
    case Some(colon) =>
      var rawLength := data[offset..colon];
      if rawLength == [] || !AllDigits(rawLength) then Failure(InvalidLength)
      else if |rawLength| > 1 && rawLength[0] == 0x30 then Failure(LengthLeadingZero)
      else if !IsSafe(NatOf(rawLength)) then Failure(UnsafeLength)
      else
        var end := colon + 1 + NatOf(rawLength);
        if end > |data| then Failure(TruncatedString)
        else Success(RawString(data[colon + 1..end], end))
  }

  // ---- The recursive-descent parser ----

  predicate HasKey(entries: seq<Entry>, key: Bytes) {
    exists i :: 0 <= i < |entries| && entries[i].key == key
  }

  /** The rule that rejects `key` after the entries already read, if any does. */
  function KeyFault(entries: seq<Entry>, key: Bytes, allowUnsorted: bool): Option<DecodeError> {
    if HasKey(entries, key) then Some(DuplicateKey)
    else if !allowUnsorted && entries != [] && Less(key, entries[|entries| - 1].key) then Some(UnsortedKeys)
    else None
  }

  /** The value that starts at `offset` when `level` containers are open. */
  function ParseValue(data: Bytes, offset: nat, level: nat, opts: Options): (r: Result<Parsed, DecodeError>)
    ensures r.Success? ==> offset < r.value.next <= |data|
    decreases |data| - offset, 0
  {
    if offset >= |data| then Failure(UnexpectedEnd)
    else
      var token := data[offset];
      if token == TOKEN_INT then ParseInteger(data, offset + 1)
      else if IsDigit(token) then
        var raw :- ParseString(data, offset);
        Success(Parsed(Str(DecodeText(raw.bytes)), raw.next))
      else if token == TOKEN_LIST || token == TOKEN_DICT then
        if level > opts.maxDepth then Failure(TooDeep)
        else if token == TOKEN_LIST then ParseItems(data, offset + 1, level + 1, opts, [])
        else ParseEntries(data, offset + 1, level + 1, opts, [])
      else Failure(UnexpectedToken)
  }

  /** The rest of a list whose first items are `items`. */
  function ParseItems(data: Bytes, offset: nat, level: nat, opts: Options, items: seq<Value>): (r: Result<Parsed, DecodeError>)
    ensures r.Success? ==> offset < r.value.next <= |data|
    decreases |data| - offset, 1
  {
    if offset >= |data| then Failure(UnexpectedEnd)
    else if data[offset] == TOKEN_END then Success(Parsed(List(items), offset + 1))
    else
      var item :- ParseValue(data, offset, level, opts);
      ParseItems(data, item.next, level, opts, items + [item.value])
  }

  /** The rest of a dictionary whose first entries are `entries`. */
  function ParseEntries(data: Bytes, offset: nat, level: nat, opts: Options, entries: seq<Entry>): (r: Result<Parsed, DecodeError>)
    ensures r.Success? ==> offset < r.value.next <= |data|
    decreases |data| - offset, 1
  {
    if offset >= |data| then Failure(UnexpectedEnd)
    else if data[offset] == TOKEN_END then Success(Parsed(Dict(entries), offset + 1))
    else
      var raw :- ParseString(data, offset);
      var key := DecodeText(raw.bytes);
      match KeyFault(entries, key, opts.allowUnsorted)
      case Some(fault) => Failure(fault)
      case None =>
        var item :- ParseValue(data, raw.next, level, opts);
        ParseEntries(data, item.next, level, opts, entries + [Entry(key, item.value)])
  }

  // ---- The stack machine ----

  datatype Frame =
    | ListFrame(items: seq<Value>)
    | DictFrame(entries: seq<Entry>, seen: set<Bytes>, previous: Option<Bytes>, pending: Option<Bytes>)

  /** The keys a dictionary frame has seen are those of its entries and the pending one. */
  ghost predicate FrameValid(frame: Frame) {
    match frame
    case ListFrame(_) => true
    case DictFrame(entries, seen, previous, None) =>
      && (forall key :: key in seen <==> HasKey(entries, key))
      && previous == if entries == [] then None else Some(entries[|entries| - 1].key)
    case DictFrame(entries, seen, previous, Some(pending)) =>
      && (forall key :: key in seen <==> HasKey(entries, key) || key == pending)
      && previous == Some(pending)
  }

  ghost predicate StackValid(stack: seq<Frame>) {
    forall i :: 0 <= i < |stack| ==> FrameValid(stack[i])
  }

  /** What parsing yields once the value `r` has been handed to the open frames. */
  ghost function Resume(data: Bytes, stack: seq<Frame>, opts: Options, r: Result<Parsed, DecodeError>): Result<Parsed, DecodeError>
    decreases |stack|
  {
    if r.Failure? || stack == [] then r
    else
      var below, level := stack[..|stack| - 1], |stack|;
      match stack[level - 1]
      case ListFrame(items) =>
        Resume(data, below, opts, ParseItems(data, r.value.next, level, opts, items + [r.value.value]))
      case DictFrame(entries, _, _, Some(key)) =>
        Resume(data, below, opts, ParseEntries(data, r.value.next, level, opts, entries + [Entry(key, r.value.value)]))
      case DictFrame(_, _, _, None) => Failure(ValueWithoutKey)
  }

  /** What parsing yields when the next byte is read at `offset`. */
  ghost function Proceed(data: Bytes, stack: seq<Frame>, opts: Options, offset: nat): Result<Parsed, DecodeError> {
    if stack == [] then ParseValue(data, offset, 0, opts)
    else
      var below, level := stack[..|stack| - 1], |stack|;
      match stack[level - 1]
      case ListFrame(items) => Resume(data, below, opts, ParseItems(data, offset, level, opts, items))
      case DictFrame(entries, _, _, None) => Resume(data, below, opts, ParseEntries(data, offset, level, opts, entries))
      case DictFrame(_, _, _, Some(_)) => Resume(data, stack, opts, ParseValue(data, offset, level, opts))
  }

  /** A frame that awaits a value reads it next; the frame's own rest follows in `Resume`. */
  lemma ProceedReadsValue(data: Bytes, stack: seq<Frame>, opts: Options, offset: nat)
    requires offset < |data|
    requires stack != [] ==>
      var top := stack[|stack| - 1];
      (top.ListFrame? && data[offset] != TOKEN_END) || (top.DictFrame? && top.pending.Some?)
    ensures Proceed(data, stack, opts, offset) == Resume(data, stack, opts, ParseValue(data, offset, |stack|, opts))
  {
    if stack != [] && stack[|stack| - 1].ListFrame? && ParseValue(data, offset, |stack|, opts).Failure? {
      ResumeFailure(data, stack[..|stack| - 1], opts, ParseValue(data, offset, |stack|, opts).error);
    }
  }

  lemma ResumeFailure(data: Bytes, stack: seq<Frame>, opts: Options, error: DecodeError)
    ensures Resume(data, stack, opts, Failure(error)) == Failure(error)
  {
  }

  /** A completed value goes into the top frame. */
  method HandOver(data: Bytes, stack: seq<Frame>, opts: Options, value: Value, offset: nat)
    returns (r: Result<seq<Frame>, DecodeError>)
    requires stack != [] && StackValid(stack)
    ensures r.Failure? ==> Resume(data, stack, opts, Success(Parsed(value, offset))) == Failure(r.error)
    ensures r.Success? ==> StackValid(r.value)
    ensures r.Success? ==>
      Proceed(data, r.value, opts, offset) == Resume(data, stack, opts, Success(Parsed(value, offset)))
  {
    var below, frame := stack[..|stack| - 1], stack[|stack| - 1];
    match frame {
      case ListFrame(items) =>
        frame := ListFrame(items + [value]);
      case DictFrame(entries, seen, previous, Some(key)) =>
        HasKeyAppend(entries, Entry(key, value));
        frame := DictFrame(entries + [Entry(key, value)], seen, previous, None);
      case DictFrame(_, _, _, None) =>
        return Failure(ValueWithoutKey);
    }
    assert (below + [frame])[..|below|] == below;
    return Success(below + [frame]);
  }

  lemma HasKeyAppend(entries: seq<Entry>, entry: Entry)
    ensures forall key :: HasKey(entries + [entry], key) <==> HasKey(entries, key) || key == entry.key
  {
    var grown := entries + [entry];
    assert grown[|entries|].key == entry.key;
    forall key | HasKey(entries, key) ensures HasKey(grown, key) {
      var i :| 0 <= i < |entries| && entries[i].key == key;
      assert grown[i].key == key;
    }
  }

  /** The next key of the dictionary on top of the stack becomes its pending key. */
  method ReadKey(data: Bytes, stack: seq<Frame>, opts: Options, offset: nat)
    returns (r: Result<(seq<Frame>, nat), DecodeError>)
    requires StackValid(stack) && offset < |data| && data[offset] != TOKEN_END
    requires stack != [] && stack[|stack| - 1].DictFrame? && stack[|stack| - 1].pending.None?
    ensures r.Failure? ==> Proceed(data, stack, opts, offset) == Failure(r.error)
    ensures r.Success? ==> StackValid(r.value.0) && offset < r.value.1 <= |data|
    ensures r.Success? ==> Proceed(data, r.value.0, opts, r.value.1) == Proceed(data, stack, opts, offset)
  {
    var below, frame := stack[..|stack| - 1], stack[|stack| - 1];
    var raw := ParseString(data, offset);
    if raw.Failure? {
      ResumeFailure(data, below, opts, raw.error);
      return Failure(raw.error);
    }
    var key, next := DecodeText(raw.value.bytes), raw.value.next;
    var fault := None;
    if key in frame.seen {
      fault := Some(DuplicateKey);
    } else if !opts.allowUnsorted && frame.previous.Some? {
      var order := CompareBytes(frame.previous.value, key);
      fault := if order > 0 then Some(UnsortedKeys) else None;
    }
    assert fault == KeyFault(frame.entries, key, opts.allowUnsorted);
    if fault.Some? {
      ResumeFailure(data, below, opts, fault.value);
      return Failure(fault.value);
    }
    ghost var item := ParseValue(data, next, |stack|, opts);
    if item.Failure? {
      ResumeFailure(data, below, opts, item.error);
    }
    frame := DictFrame(frame.entries, frame.seen + {key}, Some(key), Some(key));
    assert (below + [frame])[..|below|] == below;
    return Success((below + [frame], next));
  }

  /** The value, or the opening of the container, that starts at `offset`. */
  method ReadToken(data: Bytes, stack: seq<Frame>, opts: Options, offset: nat)
    returns (r: Result<(seq<Frame>, Option<Value>, nat), DecodeError>)
    requires StackValid(stack) && offset < |data|
    requires stack != [] ==>
      var top := stack[|stack| - 1];
      (top.ListFrame? && data[offset] != TOKEN_END) || (top.DictFrame? && top.pending.Some?)
    ensures r.Failure? ==> Proceed(data, stack, opts, offset) == Failure(r.error)
    ensures r.Success? ==> StackValid(r.value.0) && offset < r.value.2 <= |data|
    ensures r.Success? && r.value.1.None? ==>
      Proceed(data, r.value.0, opts, r.value.2) == Proceed(data, stack, opts, offset)
    ensures r.Success? && r.value.1.Some? ==>
      Resume(data, r.value.0, opts, Success(Parsed(r.value.1.value, r.value.2))) == Proceed(data, stack, opts, offset)
  {
    ProceedReadsValue(data, stack, opts, offset);
    ghost var parsed := ParseValue(data, offset, |stack|, opts);
    if parsed.Failure? {
      ResumeFailure(data, stack, opts, parsed.error);
    }
    var token := data[offset];
    if token == TOKEN_INT {
      var p := ParseInteger(data, offset + 1);
      if p.Failure? {
        return Failure(p.error);
      }
      return Success((stack, Some(p.value.value), p.value.next));
    } else if IsDigit(token) {
      var raw := ParseString(data, offset);
      if raw.Failure? {
        return Failure(raw.error);
      }
      return Success((stack, Some(Str(DecodeText(raw.value.bytes))), raw.value.next));
    } else if token == TOKEN_LIST || token == TOKEN_DICT {
      if |stack| > opts.maxDepth {
        return Failure(TooDeep);
      }
      var container := if token == TOKEN_LIST then ListFrame([]) else DictFrame([], {}, None, None);
      assert (stack + [container])[..|stack|] == stack;
      return Success((stack + [container], None, offset + 1));
    }
    return Failure(UnexpectedToken);
  }

  method DecodeOne(data: Bytes, opts: Options) returns (r: Result<Parsed, DecodeError>)
    ensures r == ParseValue(data, 0, 0, opts)
  {
    var stack: seq<Frame>, offset: nat, current: Option<Value> := [], 0, None;
    ghost var goal := ParseValue(data, 0, 0, opts);
    while true
      invariant StackValid(stack) && offset <= |data|
      invariant current.None? ==> Proceed(data, stack, opts, offset) == goal
      invariant current.Some? ==> Resume(data, stack, opts, Success(Parsed(current.value, offset))) == goal
      decreases |data| - offset, if current.Some? then 1 else 0
    {
      if current.Some? {
        if stack == [] {
          return Success(Parsed(current.value, offset));
        }
        var handed := HandOver(data, stack, opts, current.value, offset);
        if handed.Failure? {
          return Failure(handed.error);
        }
        stack, current := handed.value, None;
        continue;
      }
      if offset >= |data| {
        ProceedAtEnd(data, stack, opts, offset);
        return Failure(UnexpectedEnd);
      }
      if stack != [] && data[offset] == TOKEN_END {
        var frame := stack[|stack| - 1];
        if frame.ListFrame? {
          stack, offset, current := stack[..|stack| - 1], offset + 1, Some(List(frame.items));
          continue;
        }
        if frame.pending.None? {
          stack, offset, current := stack[..|stack| - 1], offset + 1, Some(Dict(frame.entries));
          continue;
        }
      }
      if stack != [] && stack[|stack| - 1].DictFrame? && stack[|stack| - 1].pending.None? {
        var keyed := ReadKey(data, stack, opts, offset);
        if keyed.Failure? {
          return Failure(keyed.error);
        }
        stack, offset := keyed.value.0, keyed.value.1;
        continue;
      }
      var read := ReadToken(data, stack, opts, offset);
      if read.Failure? {
        return Failure(read.error);
      }
      stack, current, offset := read.value.0, read.value.1, read.value.2;
    }
  }

  lemma ProceedAtEnd(data: Bytes, stack: seq<Frame>, opts: Options, offset: nat)
    requires offset >= |data|
    ensures Proceed(data, stack, opts, offset) == Failure(UnexpectedEnd)
  {
    if stack != [] {
      ResumeFailure(data, stack[..|stack| - 1], opts, UnexpectedEnd);
      ResumeFailure(data, stack, opts, UnexpectedEnd);
    }
  }

  /** `decode`: the limits are checked first, then one value must fill the whole input. */
  function DecodeResult(data: Bytes, maxBytes: int, maxDepth: int, allowUnsorted: bool): Result<Value, DecodeError> {
    if !(0 <= maxBytes <= MAX_SAFE_INTEGER) then Failure(BadMaxBytes)
    else if !(0 <= maxDepth <= MAX_SAFE_INTEGER) then Failure(BadMaxDepth)
    else if |data| > maxBytes then Failure(InputTooLarge)
    else
      var p :- ParseValue(data, 0, 0, Options(maxDepth, allowUnsorted));
      if p.next != |data| then Failure(TrailingData) else Success(p.value)
  }

  method Decode(data: Bytes, maxBytes: int, maxDepth: int, allowUnsorted: bool) returns (r: Result<Value, DecodeError>)
    ensures r == DecodeResult(data, maxBytes, maxDepth, allowUnsorted)
  {
    if !(0 <= maxBytes <= MAX_SAFE_INTEGER) {
      return Failure(BadMaxBytes);
    }
    if !(0 <= maxDepth <= MAX_SAFE_INTEGER) {
      return Failure(BadMaxDepth);
    }
    if |data| > maxBytes {
      return Failure(InputTooLarge);
    }
    var p := DecodeOne(data, Options(maxDepth, allowUnsorted));
    if p.Failure? {
      return Failure(p.error);
    }
    if p.value.next != |data| {
      return Failure(TrailingData);
    }
    return Success(p.value.value);
  }
}
