/**
 The bytes of the formats, spelt out: what the round trips of the other modules leave open because both directions could
 agree on other bytes is fixed here by the texts and numbers that stand in the specifications.
 */
module WireFormats {
  import opened Results
  import opened Arithmetic
  import opened ByteStrings
  import opened BencodeTree
  import M = MetadataMessages
  import W = MetainfoWrapping
  import E = BencodeEncoder
  import L = InfoLocator
  import Merkle
  import P = UtpPacket
  import S = UtpSack

  // ---- Bencode ----

  function Pow10(k: nat): (r: nat)
    ensures r >= 1
  {
    if k == 0 then 1 else 10 * Pow10(k - 1)
  }

  lemma TenthsDivide(n: nat, m: nat)
    requires m > 0
    ensures n / (10 * m) == n / 10 / m
  {
    var q, r := n / 10 / m, n / 10 % m;
    DivMod(n / 10, m);
    assert q * (10 * m) == 10 * (q * m);
    DivIs(n, q, 10 * r + n % 10, 10 * m);
  }

  /** A number is written in decimal, the last digit for the units, and begins with its highest digit. */
  lemma {:induction false} DigitsAreDecimal(n: nat, k: nat)
    ensures k < |Digits(n)| ==> Digits(n)[|Digits(n)| - 1 - k] == 0x30 + n / Pow10(k) % 10
    ensures n < Pow10(|Digits(n)|) && (n > 0 ==> Pow10(|Digits(n)| - 1) <= n)
  {
    if n < 10 {
      assert Pow10(0) == 1 && Pow10(1) == 10;
    } else {
      var front := Digits(n / 10);
      DigitsAreDecimal(n / 10, if k > 0 then k - 1 else 0);
      if k > 0 {
        TenthsDivide(n, Pow10(k - 1));
      }
    }
  }

  lemma ShortNumbers()
    ensures forall n: nat :: n < 10 ==> Digits(n) == [0x30 + n]
    ensures Digits(10) == [0x31, 0x30] && Digits(12) == [0x31, 0x32] && Digits(13) == [0x31, 0x33] && IntDigits(-12) == [0x2d, 0x31, 0x32]
  {
  }

  /** A number, a string and a list: i-12e, 2:a:, l2:a:i0ee. */
  lemma PrintedList()
    ensures Print(Int(-12, false)) == [0x69, 0x2d, 0x31, 0x32, 0x65]
    ensures Print(Str([0x61, 0x3a])) == [0x32, 0x3a, 0x61, 0x3a]
    ensures Print(List([Str([0x61, 0x3a]), Int(0, false)])) == [0x6c, 0x32, 0x3a, 0x61, 0x3a, 0x69, 0x30, 0x65, 0x65]
  {
    hide Digits, IntDigits;
    ShortNumbers();
    IntDigitsOfZero();
    var text, zero := Str([0x61, 0x3a]), Int(0, false);
    assert Print(text) == [0x32, 0x3a, 0x61, 0x3a];
    assert Print(zero) == [0x69, 0x30, 0x65];
    assert [text, zero][1..] == [zero] && [zero][1..] == [];
    assert PrintItems([zero]) == [0x69, 0x30, 0x65];
    assert PrintItems([text, zero]) == [0x32, 0x3a, 0x61, 0x3a] + [0x69, 0x30, 0x65];
  }

  lemma ShortKeys()
    ensures PrintStr([0x63, 0x6f, 0x77]) == [0x33, 0x3a, 0x63, 0x6f, 0x77] && PrintStr([0x73, 0x70, 0x61, 0x6d]) == [0x34, 0x3a, 0x73, 0x70, 0x61, 0x6d]
  {
    hide Digits;
    ShortNumbers();
  }

  /** A dictionary: d3:cowi-12e4:spaml2:a:i0eee. */
  lemma PrintedDictionary()
    ensures Print(Dict([Entry([0x63, 0x6f, 0x77], Int(-12, false)), Entry([0x73, 0x70, 0x61, 0x6d], List([Str([0x61, 0x3a]), Int(0, false)]))])) ==
      [0x64, 0x33, 0x3a, 0x63, 0x6f, 0x77, 0x69, 0x2d, 0x31, 0x32, 0x65, 0x34, 0x3a, 0x73, 0x70, 0x61, 0x6d, 0x6c, 0x32, 0x3a, 0x61, 0x3a, 0x69, 0x30, 0x65, 0x65, 0x65]
  {
    hide Digits, IntDigits, PrintInt, PrintItems, PrintStr;
    ShortKeys();
    PrintedList();
    var number, list := Int(-12, false), List([Str([0x61, 0x3a]), Int(0, false)]);
    var cow, spam := Entry([0x63, 0x6f, 0x77], number), Entry([0x73, 0x70, 0x61, 0x6d], list);
    assert [cow, spam][1..] == [spam] && [spam][1..] == [];
    assert PrintEntries([spam]) == [0x34, 0x3a, 0x73, 0x70, 0x61, 0x6d] + [0x6c, 0x32, 0x3a, 0x61, 0x3a, 0x69, 0x30, 0x65, 0x65];
    assert PrintEntries([cow, spam]) == [0x33, 0x3a, 0x63, 0x6f, 0x77] + [0x69, 0x2d, 0x31, 0x32, 0x65] + ([0x34, 0x3a, 0x73, 0x70, 0x61, 0x6d] + [0x6c, 0x32, 0x3a, 0x61, 0x3a, 0x69, 0x30, 0x65, 0x65]);
  }

  lemma IntDigitsOfZero()
    ensures IntDigits(0) == [0x30]
  {
  }

  // ---- Metadata exchange (BEP 9) ----

  /** The text of an entry: the key's length, a colon, the key, i, the number, e. */
  function EntryText(key: Bytes, n: nat): Bytes {
    Digits(|key|) + [0x3a] + key + [0x69] + Digits(n) + [0x65]
  }

  lemma EntryFirst(key: Bytes, n: nat, rest: seq<Entry>)
    ensures PrintEntries([Entry(key, Int(n, false))] + rest) == EntryText(key, n) + PrintEntries(rest)
  {
    hide Digits;
    assert ([Entry(key, Int(n, false))] + rest)[1..] == rest;
    assert IntDigits(n) == Digits(n);
  }

  lemma TypeEntry(n: nat)
    ensures EntryText(M.TYPE_KEY, n) == [0x38, 0x3a, 0x6d, 0x73, 0x67, 0x5f, 0x74, 0x79, 0x70, 0x65, 0x69] + Digits(n) + [0x65]
  {
    hide Digits;
    ShortNumbers();
    assert Digits(8) + [0x3a] + M.TYPE_KEY + [0x69] == [0x38, 0x3a, 0x6d, 0x73, 0x67, 0x5f, 0x74, 0x79, 0x70, 0x65, 0x69];
  }

  lemma PieceEntry(n: nat)
    ensures EntryText(M.PIECE_KEY, n) == [0x35, 0x3a, 0x70, 0x69, 0x65, 0x63, 0x65, 0x69] + Digits(n) + [0x65]
  {
    hide Digits;
    ShortNumbers();
    assert Digits(5) + [0x3a] + M.PIECE_KEY + [0x69] == [0x35, 0x3a, 0x70, 0x69, 0x65, 0x63, 0x65, 0x69];
  }

  lemma TotalEntry(n: nat)
    ensures EntryText(M.TOTAL_KEY, n) == [0x31, 0x30, 0x3a, 0x74, 0x6f, 0x74, 0x61, 0x6c, 0x5f, 0x73, 0x69, 0x7a, 0x65, 0x69] + Digits(n) + [0x65]
  {
    hide Digits;
    ShortNumbers();
    assert Digits(10) + [0x3a] + M.TOTAL_KEY + [0x69] == [0x31, 0x30, 0x3a, 0x74, 0x6f, 0x74, 0x61, 0x6c, 0x5f, 0x73, 0x69, 0x7a, 0x65, 0x69];
  }

  /** A header: d, 8:msg_typei, the type, e, 5:piecei, the piece, e, then e. */
  lemma HeaderBytes(kind: nat, piece: nat)
    ensures M.Header(kind, piece, None) ==
      [0x64] + ([0x38, 0x3a, 0x6d, 0x73, 0x67, 0x5f, 0x74, 0x79, 0x70, 0x65, 0x69] + Digits(kind) + [0x65])
      + ([0x35, 0x3a, 0x70, 0x69, 0x65, 0x63, 0x65, 0x69] + Digits(piece) + [0x65]) + [0x65]
  {
    hide Digits, PrintEntries, EntryText;
    TypeEntry(kind);
    PieceEntry(piece);
    var second := [Entry(M.PIECE_KEY, Int(piece, false))];
    EntryFirst(M.TYPE_KEY, kind, second);
    EntryFirst(M.PIECE_KEY, piece, []);
    assert second == second + [];
    HeaderTreeIs(kind, piece, 0);
    PrintedParts([Entry(M.TYPE_KEY, Int(kind, false))] + second, []);
    FlatEntries(EntryText(M.TYPE_KEY, kind), EntryText(M.PIECE_KEY, piece), []);
  }

  /** The header of a block has 10:total_sizei, the total size, e before the last e. */
  lemma BlockHeaderBytes(kind: nat, piece: nat, total: nat)
    ensures M.Header(kind, piece, Some(total)) ==
      [0x64] + ([0x38, 0x3a, 0x6d, 0x73, 0x67, 0x5f, 0x74, 0x79, 0x70, 0x65, 0x69] + Digits(kind) + [0x65])
      + ([0x35, 0x3a, 0x70, 0x69, 0x65, 0x63, 0x65, 0x69] + Digits(piece) + [0x65])
      + ([0x31, 0x30, 0x3a, 0x74, 0x6f, 0x74, 0x61, 0x6c, 0x5f, 0x73, 0x69, 0x7a, 0x65, 0x69] + Digits(total) + [0x65]) + [0x65]
  {
    hide Digits, PrintEntries, EntryText;
    TypeEntry(kind);
    PieceEntry(piece);
    TotalEntry(total);
    var third := [Entry(M.TOTAL_KEY, Int(total, false))];
    var second := [Entry(M.PIECE_KEY, Int(piece, false))] + third;
    EntryFirst(M.TYPE_KEY, kind, second);
    EntryFirst(M.PIECE_KEY, piece, third);
    EntryFirst(M.TOTAL_KEY, total, []);
    assert third == third + [];
    HeaderTreeIs(kind, piece, total);
    PrintedParts([Entry(M.TYPE_KEY, Int(kind, false))] + second, []);
    FlatEntries(EntryText(M.TYPE_KEY, kind), EntryText(M.PIECE_KEY, piece), EntryText(M.TOTAL_KEY, total));
  }

  lemma HeaderTreeIs(kind: nat, piece: nat, total: nat)
    ensures var first, second, third := Entry(M.TYPE_KEY, Int(kind, false)), Entry(M.PIECE_KEY, Int(piece, false)), Entry(M.TOTAL_KEY, Int(total, false));
      && M.Header(kind, piece, None) == Print(Dict([first] + [second]))
      && M.Header(kind, piece, Some(total)) == Print(Dict([first] + ([second] + [third])))
  {
    hide Print;
    var first, second, third := Entry(M.TYPE_KEY, Int(kind, false)), Entry(M.PIECE_KEY, Int(piece, false)), Entry(M.TOTAL_KEY, Int(total, false));
    assert [first] + [second] == [first, second] + [];
    assert [first] + ([second] + [third]) == [first, second] + [third];
  }

  lemma FlatEntries(t: Bytes, p: Bytes, l: Bytes)
    ensures [0x64] + (t + (p + [])) + [0x65] == [0x64] + t + p + [0x65]
    ensures [0x64] + (t + (p + (l + []))) + [0x65] == [0x64] + t + p + l + [0x65]
  {
  }

  // ---- Metainfo ----

  lemma FieldFirst(key: Bytes, value: Value, rest: seq<Entry>)
    ensures PrintEntries([Entry(key, value)] + rest) == PrintStr(key) + Print(value) + PrintEntries(rest)
  {
    hide Print, PrintStr;
    assert ([Entry(key, value)] + rest)[1..] == rest;
  }

  lemma OuterKeys()
    ensures PrintStr(W.ANNOUNCE_KEY) == [0x38, 0x3a, 0x61, 0x6e, 0x6e, 0x6f, 0x75, 0x6e, 0x63, 0x65]
    ensures PrintStr(W.ANNOUNCE_LIST_KEY) == [0x31, 0x33, 0x3a, 0x61, 0x6e, 0x6e, 0x6f, 0x75, 0x6e, 0x63, 0x65, 0x2d, 0x6c, 0x69, 0x73, 0x74]
    ensures PrintStr(L.INFO_KEY) == [0x34, 0x3a, 0x69, 0x6e, 0x66, 0x6f]
    ensures PrintStr(W.PIECE_LAYERS_KEY) == [0x31, 0x32, 0x3a, 0x70, 0x69, 0x65, 0x63, 0x65, 0x20, 0x6c, 0x61, 0x79, 0x65, 0x72, 0x73]
  {
    hide Digits;
    ShortNumbers();
  }


  /** An outer field, or nothing where none is given. */
  function OuterField(key: Bytes, value: Option<Value>): Bytes {
    if value.None? then [] else PrintStr(key) + Print(value.value)
  }

  function Given(key: Bytes, value: Option<Value>): seq<Entry> {
    if value.None? then [] else [Entry(key, value.value)]
  }

  lemma GivenFirst(key: Bytes, value: Option<Value>, rest: seq<Entry>)
    ensures PrintEntries(Given(key, value) + rest) == OuterField(key, value) + PrintEntries(rest)
  {
    hide Print, PrintStr, PrintEntries;
    if value.None? {
      assert Given(key, value) + rest == rest;
    } else {
      FieldFirst(key, value.value, rest);
    }
  }

  /** The values of the three optional fields. */
  function AnnounceValue(options: W.WrapOptions): Option<Value> {
    if options.announce.None? then None else Some(Str(options.announce.value))
  }

  function TiersValue(options: W.WrapOptions): Option<Value> {
    if options.announceList.None? then None else Some(List(W.Tiers(options.announceList.value)))
  }

  function LayersValue(options: W.WrapOptions): Option<Value> {
    if options.pieceLayers.None? then None
    else Some(E.Canonical(Dict(W.LayerEntries(W.Merged(options.pieceLayers.value)))))
  }

  /** A d, then the announce address, the tiers, the info dictionary and the layers under their keys, then an e. */
  lemma WrappedBytes(info: Value, options: W.WrapOptions)
    ensures Print(W.Wrapped(info, options)) ==
      [0x64] + OuterField(W.ANNOUNCE_KEY, AnnounceValue(options)) + OuterField(W.ANNOUNCE_LIST_KEY, TiersValue(options))
      + (PrintStr(L.INFO_KEY) + Print(info)) + OuterField(W.PIECE_LAYERS_KEY, LayersValue(options)) + [0x65]
  {
    hide Print, PrintStr, PrintEntries, OuterField, Given;
    WrappedIs(info, options);
    var after := Given(W.PIECE_LAYERS_KEY, LayersValue(options)) + [];
    var middle := Given(L.INFO_KEY, Some(info)) + after;
    var listed := Given(W.ANNOUNCE_LIST_KEY, TiersValue(options)) + middle;
    GivenFirst(W.PIECE_LAYERS_KEY, LayersValue(options), []);
    GivenFirst(L.INFO_KEY, Some(info), after);
    GivenFirst(W.ANNOUNCE_LIST_KEY, TiersValue(options), middle);
    GivenFirst(W.ANNOUNCE_KEY, AnnounceValue(options), listed);
    var all := Given(W.ANNOUNCE_KEY, AnnounceValue(options)) + listed;
    PrintedParts(all, []);
    InfoField(info);
    FlatFields(OuterField(W.ANNOUNCE_KEY, AnnounceValue(options)), OuterField(W.ANNOUNCE_LIST_KEY, TiersValue(options)),
               PrintStr(L.INFO_KEY) + Print(info), OuterField(W.PIECE_LAYERS_KEY, LayersValue(options)));
  }

  lemma InfoField(info: Value)
    ensures OuterField(L.INFO_KEY, Some(info)) == PrintStr(L.INFO_KEY) + Print(info)
  {
  }

  lemma FlatFields(a: Bytes, b: Bytes, c: Bytes, d: Bytes)
    ensures [0x64] + (a + (b + (c + (d + [])))) + [0x65] == [0x64] + a + b + c + d + [0x65]
  {
  }

  lemma WrappedIs(info: Value, options: W.WrapOptions)
    ensures W.Wrapped(info, options) ==
      Dict(Given(W.ANNOUNCE_KEY, AnnounceValue(options)) + (Given(W.ANNOUNCE_LIST_KEY, TiersValue(options))
           + (Given(L.INFO_KEY, Some(info)) + (Given(W.PIECE_LAYERS_KEY, LayersValue(options)) + []))))
  {
    hide E.Canonical, W.Merged, W.LayerEntries, W.Tiers;
  }

  lemma PrintedParts(entries: seq<Entry>, text: Bytes)
    ensures Print(Dict(entries)) == [0x64] + PrintEntries(entries) + [0x65]
    ensures Print(Str(text)) == PrintStr(text) && PrintEntries([]) == []
  {
    hide PrintStr;
  }

  /** The tiers are lists of the addresses, all in the given order; a layer's root is the key of its hashes. */
  lemma {:induction false} ListsKeepOrder(tiers: seq<seq<Bytes>>, layers: seq<W.Layer>, i: nat)
    ensures |W.Tiers(tiers)| == |tiers| && (i < |tiers| ==> W.Tiers(tiers)[i] == List(W.Urls(tiers[i])))
    ensures |W.LayerEntries(layers)| == |layers|
    ensures i < |layers| ==> W.LayerEntries(layers)[i] == Entry(layers[i].root, Str(layers[i].hashes))
    decreases |tiers| + |layers|
  {
    if tiers != [] || layers != [] {
      ListsKeepOrder(if tiers == [] then [] else tiers[1..], if layers == [] then [] else layers[1..], if i == 0 then 0 else i - 1);
    }
  }

  lemma {:induction false} UrlsKeepOrder(urls: seq<Bytes>, i: nat)
    ensures |W.Urls(urls)| == |urls| && (i < |urls| ==> W.Urls(urls)[i] == Str(urls[i]))
  {
    if urls != [] {
      UrlsKeepOrder(urls[1..], if i == 0 then 0 else i - 1);
    }
  }

  // ---- The Merkle tree of a file (BEP 52) ----

  /** Three blocks: the fourth leaf is 32 zero bytes, and the left node of each pair is hashed first. */
  lemma ThreeBlocks(hash: Merkle.PairHash, a: Merkle.Hash, b: Merkle.Hash, c: Merkle.Hash, zeros: Merkle.Hash)
    requires |zeros| == 32 && forall i :: 0 <= i < 32 ==> zeros[i] == 0
    ensures Merkle.FileRoot(hash, [a, b, c]) == hash(hash(a, b), hash(c, zeros))
  {
    assert zeros == Merkle.ZeroLeaf();
    CeilLog2Unique(3, 2);
    var leaves := [a, b, c, zeros];
    assert Merkle.Padded([a, b, c], 4) == leaves;
    assert Pow2(0) == 1 && Pow2(1) == 2 && Pow2(2) == 4;
    assert leaves[..2] == [a, b] && leaves[2..] == [c, zeros];
    Merkle.PairOfTwo(hash, [a, b]);
    Merkle.PairOfTwo(hash, [c, zeros]);
  }

  /** A piece layer is read as its consecutive 32 bytes, in order. */
  lemma {:induction false} LayerSlices(bytes: Bytes, i: nat)
    requires |bytes| % 32 == 0
    ensures |Merkle.Split(bytes)| == |bytes| / 32
    ensures i < |bytes| / 32 ==> Merkle.Split(bytes)[i] == bytes[32 * i..32 * i + 32]
  {
    if bytes == [] {
    } else {
      LayerSlices(bytes[32..], if i > 0 then i - 1 else 0);
      if i > 0 && i < |bytes| / 32 {
        assert bytes[32..][32 * (i - 1)..32 * (i - 1) + 32] == bytes[32 * i..32 * i + 32];
      }
    }
  }

  // ---- uTP (BEP 29) ----

  /** A byte of a uTP packet is read by the binary weights of its bits. */
  lemma ByteValues()
    ensures P.Get8(0x00) == 0 && P.Get8(0x01) == 1 && P.Get8(0x02) == 2 && P.Get8(0x04) == 4 && P.Get8(0x08) == 8
    ensures P.Get8(0x10) == 16 && P.Get8(0x20) == 32 && P.Get8(0x40) == 64 && P.Get8(0x80) == 128 && P.Get8(0xFF) == 255
    ensures P.Get8(0x21) == 33
  {
  }

  /** Numbers of two bytes, the most significant first. */
  lemma TwoBytes(n: nat)
    requires n < 0x1_0000
    ensures P.Get8(P.U16(n)[0]) == n / 256 && P.Get8(P.U16(n)[1]) == n % 256
  {
    hide P.U8, P.Get8;
    P.Get8OfU8(n / 256);
    P.Get8OfU8(n);
  }

  /** Numbers of four bytes, the most significant first. */
  lemma FourBytes(n: nat)
    requires n < 0x1_0000_0000
    ensures var b := P.U32(n);
      && P.Get8(b[0]) == n / 0x100_0000 && P.Get8(b[1]) == n / 0x1_0000 % 256
      && P.Get8(b[2]) == n / 0x100 % 256 && P.Get8(b[3]) == n % 256
  {
    hide P.U8, P.Get8;
    P.Get8OfU8(n / 0x1_0000 / 256);
    P.Get8OfU8(n / 0x1_0000);
    P.Get8OfU8(n / 256);
    P.Get8OfU8(n);
  }

  /** An extension: the type of the one behind it, the length, the payload; type 1 acknowledges selectively, 2 holds bits. */
  lemma ChainBytes(ack: nat, mask: seq<S.Octet>, bits: seq<S.Octet>)
    ensures var chain := P.EncodeChain([P.SelectiveAck(ack, mask), P.ExtensionBits(bits)]);
      chain == [P.U8(2), P.U8(|mask|)] + mask + [P.U8(0), P.U8(|bits|)] + bits
    ensures P.TypeAt([P.SelectiveAck(ack, mask), P.ExtensionBits(bits)], 0) == 1
  {
    hide P.U8;
    var first, second := P.SelectiveAck(ack, mask), P.ExtensionBits(bits);
    assert [first, second][1..] == [second] && [second][1..] == [];
    assert P.EncodeChain([second]) == [P.U8(0), P.U8(|bits|)] + bits;
    assert P.TypeAt([first, second], 1) == 2;
  }

  /** Of a mask's bits the lowest of the first byte stands for the second number behind the acknowledged one. */
  lemma MaskBits(b: S.Octet)
    ensures (S.Bit(b, 0) <==> b & 0x01 != 0) && (S.Bit(b, 1) <==> b & 0x02 != 0) && (S.Bit(b, 2) <==> b & 0x04 != 0)
    ensures (S.Bit(b, 3) <==> b & 0x08 != 0) && (S.Bit(b, 4) <==> b & 0x10 != 0) && (S.Bit(b, 5) <==> b & 0x20 != 0)
    ensures (S.Bit(b, 6) <==> b & 0x40 != 0) && (S.Bit(b, 7) <==> b & 0x80 != 0)
  {
  }

  /** Of a mask 01 80 00 00 the bits 0 and 15 are set. */
  lemma MaskExample(i: nat)
    ensures i < 32 ==> (S.Marked([0x01, 0x80, 0x00, 0x00], i) <==> i == 0 || i == 15)
  {
    MaskBits(0x01);
    MaskBits(0x80);
    MaskBits(0x00);
  }
}
