/** Bencoded values as they stand on the wire. */
module BencodeTree {
  import opened ByteStrings

  /**
   What a run of bytes says before text decoding: raw keys and strings, and for each integer whether
   a byte order mark stands before its digits. The programming interface knows values without such marks.
   */
  datatype Value =
    | Int(n: int, bom: bool)
    | Str(bytes: Bytes)
    | List(items: seq<Value>)
    | Dict(entries: seq<Entry>)

  datatype Entry = Entry(key: Bytes, value: Value)

  const TOKEN_INT: Byte := 0x69
  const TOKEN_LIST: Byte := 0x6c
  const TOKEN_DICT: Byte := 0x64
  const TOKEN_END: Byte := 0x65
  const COLON: Byte := 0x3a

  // ---- Concrete syntax ----

  function IntBody(n: int, bom: bool): Bytes {
    if bom then BOM + IntDigits(n) else IntDigits(n)
  }

  function PrintInt(n: int, bom: bool): Bytes {
    [TOKEN_INT] + IntBody(n, bom) + [TOKEN_END]
  }

  function PrintStr(b: Bytes): Bytes {
    Digits(|b|) + [COLON] + b
  }

  function Print(v: Value): Bytes
    decreases v, 1
  {
    match v
    case Int(n, bom) => PrintInt(n, bom)
    case Str(b) => PrintStr(b)
    case List(items) => [TOKEN_LIST] + PrintItems(items) + [TOKEN_END]
    case Dict(entries) => [TOKEN_DICT] + PrintEntries(entries) + [TOKEN_END]
  }

  function PrintItems(items: seq<Value>): Bytes
    decreases items, 0
  {
    if items == [] then [] else Print(items[0]) + PrintItems(items[1..])
  }

  function PrintEntries(entries: seq<Entry>): Bytes
    decreases entries, 0
  {
    if entries == [] then []
    else PrintStr(entries[0].key) + Print(entries[0].value) + PrintEntries(entries[1..])
  }

  lemma PrintFirstByte(v: Value)
    ensures Print(v) != []
    ensures v.Int? <==> Print(v)[0] == TOKEN_INT
    ensures v.Str? <==> IsDigit(Print(v)[0])
    ensures v.List? <==> Print(v)[0] == TOKEN_LIST
    ensures v.Dict? <==> Print(v)[0] == TOKEN_DICT
    ensures Print(v)[0] != TOKEN_END
  {
  }

  // ---- Printing is injective, and no printed tree is a prefix of another ----

  /** What follows the opening byte of a list, or of a dictionary, when `x` follows its end. */
  ghost function ItemsThen(items: seq<Value>, x: Bytes): Bytes {
    PrintItems(items) + ([TOKEN_END] + x)
  }

  ghost function EntriesThen(entries: seq<Entry>, x: Bytes): Bytes {
    PrintEntries(entries) + ([TOKEN_END] + x)
  }

  lemma {:induction false} PrintPrefixFree(v: Value, w: Value, x: Bytes, y: Bytes)
    requires Print(v) + x == Print(w) + y
    ensures v == w && x == y
    decreases v, 1
  {
    PrintFirstByte(v);
    PrintFirstByte(w);
    assert (Print(v) + x)[0] == Print(v)[0] && (Print(w) + y)[0] == Print(w)[0];
    match v
    case Int(n, bom) => IntPrefixFree(n, bom, w.n, w.bom, x, y);
    case Str(b) => StrPrefixFree(b, w.bytes, x, y);
    case List(items) =>
      Enclosed(TOKEN_LIST, PrintItems(items), x);
      Enclosed(TOKEN_LIST, PrintItems(w.items), y);
      DropHead(TOKEN_LIST, ItemsThen(items, x), ItemsThen(w.items, y));
      ItemsPrefixFree(items, w.items, x, y);
    case Dict(entries) =>
      Enclosed(TOKEN_DICT, PrintEntries(entries), x);
      Enclosed(TOKEN_DICT, PrintEntries(w.entries), y);
      DropHead(TOKEN_DICT, EntriesThen(entries, x), EntriesThen(w.entries, y));
      EntriesPrefixFree(entries, w.entries, x, y);
  }

  lemma Enclosed(c: Byte, body: Bytes, x: Bytes)
    ensures [c] + body + [TOKEN_END] + x == [c] + (body + ([TOKEN_END] + x))
  {
  }

  lemma DropHead(c: Byte, x: Bytes, y: Bytes)
    requires [c] + x == [c] + y
    ensures x == y
  {
    assert x == ([c] + x)[1..] && y == ([c] + y)[1..];
  }

  lemma Regroup(a: Bytes, b: Bytes, c: Bytes, d: Bytes)
    ensures a + b + c + d == a + (b + (c + d))
  {
  }

  lemma HeadThen(c: Byte, a: Bytes, b: Bytes)
    ensures [c] + a + b == [c] + (a + b)
  {
  }

  lemma SignShows(n: int, x: Bytes)
    ensures IntDigits(n) + x != [] && ((IntDigits(n) + x)[0] == 0x2d <==> n < 0)
  {
    hide Digits;
    assert IntDigits(n) != [] && (IntDigits(n) + x)[0] == IntDigits(n)[0];
  }

  lemma IntDigitsPrefixFree(n: int, m: int, x: Bytes, y: Bytes)
    requires IntDigits(n) + ([TOKEN_END] + x) == IntDigits(m) + ([TOKEN_END] + y)
    ensures n == m && x == y
  {
    hide Digits, NatOf, IsCanonicalNat, AllDigits;
    var endX, endY := [TOKEN_END] + x, [TOKEN_END] + y;
    SignShows(n, endX);
    SignShows(m, endY);
    if n < 0 {
      HeadThen(0x2d, Digits(-n), endX);
      HeadThen(0x2d, Digits(-m), endY);
      DropHead(0x2d, Digits(-n) + endX, Digits(-m) + endY);
      DigitsPrefix(-n, -m, TOKEN_END, x, y);
    } else {
      DigitsPrefix(n, m, TOKEN_END, x, y);
    }
  }

  lemma IntPrefixFree(n: int, b: bool, m: int, c: bool, x: Bytes, y: Bytes)
    requires PrintInt(n, b) + x == PrintInt(m, c) + y
    ensures n == m && b == c && x == y
  {
    var endX, endY := [TOKEN_END] + x, [TOKEN_END] + y;
    var s, t := IntBody(n, b) + endX, IntBody(m, c) + endY;
    Enclosed(TOKEN_INT, IntBody(n, b), x);
    Enclosed(TOKEN_INT, IntBody(m, c), y);
    DropHead(TOKEN_INT, s, t);
    assert s[0] == IntBody(n, b)[0] && t[0] == IntBody(m, c)[0];
    assert b == c;
    if b {
      MarkShift(IntDigits(n), endX);
      MarkShift(IntDigits(m), endY);
    }
    IntDigitsPrefixFree(n, m, x, y);
  }

  lemma MarkShift(digits: Bytes, end: Bytes)
    ensures (BOM + digits + end)[3..] == digits + end
  {
  }

  lemma StrPrefixFree(b: Bytes, c: Bytes, x: Bytes, y: Bytes)
    requires PrintStr(b) + x == PrintStr(c) + y
    ensures b == c && x == y
  {
    assert PrintStr(b) + x == Digits(|b|) + ([COLON] + (b + x));
    assert PrintStr(c) + y == Digits(|c|) + ([COLON] + (c + y));
    DigitsPrefix(|b|, |c|, COLON, b + x, c + y);
    assert b == (b + x)[..|b|] && c == (c + y)[..|c|];
    assert x == (b + x)[|b|..] && y == (c + y)[|c|..];
  }

  lemma ItemsThenStep(items: seq<Value>, x: Bytes)
    ensures ItemsThen(items, x) != []
    ensures items == [] <==> ItemsThen(items, x)[0] == TOKEN_END
    ensures items == [] ==> ItemsThen(items, x) == [TOKEN_END] + x
    ensures items != [] ==> ItemsThen(items, x) == Print(items[0]) + ItemsThen(items[1..], x)
  {
    if items != [] {
      PrintFirstByte(items[0]);
      assert ItemsThen(items, x) == Print(items[0]) + ItemsThen(items[1..], x);
      assert ItemsThen(items, x)[0] == Print(items[0])[0];
    }
  }

  lemma {:induction false} ItemsPrefixFree(a: seq<Value>, b: seq<Value>, x: Bytes, y: Bytes)
    requires ItemsThen(a, x) == ItemsThen(b, y)
    ensures a == b && x == y
    decreases a, 0
  {
    ItemsThenStep(a, x);
    ItemsThenStep(b, y);
    if a != [] {
      PrintPrefixFree(a[0], b[0], ItemsThen(a[1..], x), ItemsThen(b[1..], y));
      ItemsPrefixFree(a[1..], b[1..], x, y);
      assert a == [a[0]] + a[1..] && b == [b[0]] + b[1..];
    } else {
      DropHead(TOKEN_END, x, y);
    }
  }

  lemma EntriesThenStep(entries: seq<Entry>, x: Bytes)
    ensures EntriesThen(entries, x) != []
    ensures entries == [] <==> EntriesThen(entries, x)[0] == TOKEN_END
    ensures entries == [] ==> EntriesThen(entries, x) == [TOKEN_END] + x
    ensures entries != [] ==>
      EntriesThen(entries, x) == PrintStr(entries[0].key) + (Print(entries[0].value) + EntriesThen(entries[1..], x))
  {
    if entries != [] {
      var key := entries[0].key;
      Regroup(PrintStr(key), Print(entries[0].value), PrintEntries(entries[1..]), [TOKEN_END] + x);
      assert EntriesThen(entries, x)[0] == PrintStr(key)[0] == Digits(|key|)[0];
    }
  }

  lemma {:induction false} EntriesPrefixFree(a: seq<Entry>, b: seq<Entry>, x: Bytes, y: Bytes)
    requires EntriesThen(a, x) == EntriesThen(b, y)
    ensures a == b && x == y
    decreases a, 0
  {
    EntriesThenStep(a, x);
    EntriesThenStep(b, y);
    if a != [] {
      var restA, restB := EntriesThen(a[1..], x), EntriesThen(b[1..], y);
      StrPrefixFree(a[0].key, b[0].key, Print(a[0].value) + restA, Print(b[0].value) + restB);
      PrintPrefixFree(a[0].value, b[0].value, restA, restB);
      EntriesPrefixFree(a[1..], b[1..], x, y);
      assert a == [a[0]] + a[1..] && b == [b[0]] + b[1..];
    } else {
      DropHead(TOKEN_END, x, y);
    }
  }

  // ---- What text decoding makes of a tree ----

  /** The value a tree decodes to: marks before integers vanish, strings and keys are text decoded. */
  function TextOf(v: Value): Value
    decreases v, 1
  {
    match v
    case Int(n, _) => Int(n, false)
    case Str(b) => Str(DecodeText(b))
    case List(items) => List(TextOfItems(items))
    case Dict(entries) => Dict(TextOfEntries(entries))
  }

  function TextOfItems(items: seq<Value>): seq<Value>
    decreases items, 0
  {
    if items == [] then [] else [TextOf(items[0])] + TextOfItems(items[1..])
  }

  function TextOfEntries(entries: seq<Entry>): seq<Entry>
    decreases entries, 0
  {
    if entries == [] then []
    else [Entry(DecodeText(entries[0].key), TextOf(entries[0].value))] + TextOfEntries(entries[1..])
  }

  /** No string or key is led by a byte order mark that text decoding drops. */
  predicate BomFree(v: Value)
    decreases v, 1
  {
    match v
    case Int(_, _) => true
    case Str(b) => DecodeText(b) == b
    case List(items) => BomFreeItems(items)
    case Dict(entries) => BomFreeEntries(entries)
  }

  predicate BomFreeItems(items: seq<Value>)
    decreases items, 0
  {
    items == [] || (BomFree(items[0]) && BomFreeItems(items[1..]))
  }

  predicate BomFreeEntries(entries: seq<Entry>)
    decreases entries, 0
  {
    entries == [] ||
    (DecodeText(entries[0].key) == entries[0].key && BomFree(entries[0].value) && BomFreeEntries(entries[1..]))
  }

  /** No integer is led by a byte order mark: a value of the programming interface. */
  predicate Unmarked(v: Value)
    decreases v, 1
  {
    match v
    case Int(_, bom) => !bom
    case Str(_) => true
    case List(items) => UnmarkedItems(items)
    case Dict(entries) => UnmarkedEntries(entries)
  }

  predicate UnmarkedItems(items: seq<Value>)
    decreases items, 0
  {
    items == [] || (Unmarked(items[0]) && UnmarkedItems(items[1..]))
  }

  predicate UnmarkedEntries(entries: seq<Entry>)
    decreases entries, 0
  {
    entries == [] || (Unmarked(entries[0].value) && UnmarkedEntries(entries[1..]))
  }

  lemma {:induction false} TextOfFixpoint(v: Value)
    ensures TextOf(v) == v <==> BomFree(v) && Unmarked(v)
    ensures Unmarked(TextOf(v))
    decreases v, 1
  {
    match v
    case Int(_, _) =>
    case Str(_) =>
    case List(items) => TextOfItemsFixpoint(items);
    case Dict(entries) => TextOfEntriesFixpoint(entries);
  }

  lemma {:induction false} TextOfItemsFixpoint(items: seq<Value>)
    ensures TextOfItems(items) == items <==> BomFreeItems(items) && UnmarkedItems(items)
    ensures UnmarkedItems(TextOfItems(items)) && |TextOfItems(items)| == |items|
    decreases items, 0
  {
    if items == [] {
    } else {
      TextOfFixpoint(items[0]);
      TextOfItemsFixpoint(items[1..]);
      HeadTail(TextOf(items[0]), TextOfItems(items[1..]), items);
    }
  }

  lemma {:induction false} TextOfEntriesFixpoint(entries: seq<Entry>)
    ensures TextOfEntries(entries) == entries <==> BomFreeEntries(entries) && UnmarkedEntries(entries)
    ensures UnmarkedEntries(TextOfEntries(entries)) && |TextOfEntries(entries)| == |entries|
    decreases entries, 0
  {
    if entries == [] {
    } else {
      TextOfFixpoint(entries[0].value);
      TextOfEntriesFixpoint(entries[1..]);
      HeadTail(Entry(DecodeText(entries[0].key), TextOf(entries[0].value)), TextOfEntries(entries[1..]), entries);
    }
  }

  lemma HeadTail<T>(head: T, tail: seq<T>, s: seq<T>)
    requires s != []
    ensures [head] + tail == s <==> head == s[0] && tail == s[1..]
    ensures ([head] + tail)[0] == head && ([head] + tail)[1..] == tail
  {
    assert s == [s[0]] + s[1..];
  }

  // ---- Nesting ----

  /** At most `d` lists and dictionaries enclose one another. */
  predicate NestsWithin(v: Value, d: int)
    decreases v, 1
  {
    match v
    case Int(_, _) => true
    case Str(_) => true
    case List(items) => d >= 1 && ItemsNestWithin(items, d - 1)
    case Dict(entries) => d >= 1 && EntriesNestWithin(entries, d - 1)
  }

  predicate ItemsNestWithin(items: seq<Value>, d: int)
    decreases items, 0
  {
    items == [] || (NestsWithin(items[0], d) && ItemsNestWithin(items[1..], d))
  }

  predicate EntriesNestWithin(entries: seq<Entry>, d: int)
    decreases entries, 0
  {
    entries == [] || (NestsWithin(entries[0].value, d) && EntriesNestWithin(entries[1..], d))
  }

  /** Every value, scalars included, lies at most `d` levels below the top. */
  predicate LiesWithin(v: Value, d: int)
    decreases v, 1
  {
    d >= 0 &&
    match v
    case Int(_, _) => true
    case Str(_) => true
    case List(items) => ItemsLieWithin(items, d - 1)
    case Dict(entries) => EntriesLieWithin(entries, d - 1)
  }

  predicate ItemsLieWithin(items: seq<Value>, d: int)
    decreases items, 0
  {
    items == [] || (LiesWithin(items[0], d) && ItemsLieWithin(items[1..], d))
  }

  predicate EntriesLieWithin(entries: seq<Entry>, d: int)
    decreases entries, 0
  {
    entries == [] || (LiesWithin(entries[0].value, d) && EntriesLieWithin(entries[1..], d))
  }

  lemma {:induction false} NestingBoundsDepth(v: Value, d: nat)
    requires NestsWithin(v, d)
    ensures LiesWithin(v, d)
    decreases v, 1
  {
    match v
    case Int(_, _) =>
    case Str(_) =>
    case List(items) => ItemsNestingBounds(items, d - 1);
    case Dict(entries) => EntriesNestingBounds(entries, d - 1);
  }

  lemma {:induction false} ItemsNestingBounds(items: seq<Value>, d: nat)
    requires ItemsNestWithin(items, d)
    ensures ItemsLieWithin(items, d)
    decreases items, 0
  {
    if items == [] {
    } else {
      NestingBoundsDepth(items[0], d);
      ItemsNestingBounds(items[1..], d);
    }
  }

  lemma {:induction false} EntriesNestingBounds(entries: seq<Entry>, d: nat)
    requires EntriesNestWithin(entries, d)
    ensures EntriesLieWithin(entries, d)
    decreases entries, 0
  {
    if entries == [] {
    } else {
      NestingBoundsDepth(entries[0].value, d);
      EntriesNestingBounds(entries[1..], d);
    }
  }

  lemma {:induction false} DepthBoundsNesting(v: Value, d: nat, e: int)
    requires LiesWithin(v, d) && e >= d + 1
    ensures NestsWithin(v, e)
    decreases v, 1
  {
    match v
    case Int(_, _) =>
    case Str(_) =>
    case List(items) => if items != [] { ItemsDepthBounds(items, d, e); }
    case Dict(entries) => if entries != [] { EntriesDepthBounds(entries, d, e); }
  }

  lemma {:induction false} ItemsDepthBounds(items: seq<Value>, d: nat, e: int)
    requires ItemsLieWithin(items, d - 1) && e >= d + 1
    ensures ItemsNestWithin(items, e - 1)
    decreases items, 0
  {
    if items == [] {
    } else {
      DepthBoundsNesting(items[0], d - 1, e - 1);
      ItemsDepthBounds(items[1..], d, e);
    }
  }

  lemma {:induction false} EntriesDepthBounds(entries: seq<Entry>, d: nat, e: int)
    requires EntriesLieWithin(entries, d - 1) && e >= d + 1
    ensures EntriesNestWithin(entries, e - 1)
    decreases entries, 0
  {
    if entries == [] {
    } else {
      DepthBoundsNesting(entries[0].value, d - 1, e - 1);
      EntriesDepthBounds(entries[1..], d, e);
    }
  }
}
