/** Wrapping an exact `info` dictionary in complete metainfo, and getting the same bytes back. */
module MetainfoWrapping {
  import opened Results
  import opened ByteStrings
  import opened BencodeTree
  import opened BencodeDecoder
  import opened BencodeLanguage
  import opened BencodeEncoder
  import opened InfoLocator

  // ---- The locator against the decoder ----

  /**
   On every input the strict decoder accepts, extraction succeeds exactly when the root is a
   dictionary with a raw key `info` of dictionary value and no root value lies too deep; the slice
   is the printed info value, and decoding the slice yields what the root's entry decodes to.
   */
  lemma ExtractionAgreesWithDecoder(data: Bytes, number: Numeral) returns (t: Value)
    requires DecodeResult(data, |data|, DEFAULT_MAX_DEPTH, false).Success? && ReadsDigits(number)
    ensures data == Print(t) && DecodeResult(data, |data|, DEFAULT_MAX_DEPTH, false) == Success(TextOf(t))
    ensures InfoBytes(data, number).Success? <==>
      && t.Dict? && EntriesLieWithin(t.entries, MAX_SCAN_DEPTH - 1)
      && exists value :: IsInfo(t.entries, value) && value.Dict?
    ensures InfoBytes(data, number).Success? ==>
      forall value :: IsInfo(t.entries, value) ==>
        var slice := InfoBytes(data, number).value;
        && slice == Print(value)
        && DecodeResult(slice, |slice|, DEFAULT_MAX_DEPTH, false) == Success(TextOf(value))
        && TextOf(t).Dict? && Entry(INFO_KEY, TextOf(value)) in TextOf(t).entries
  {
    hide Print, TextOf, WellFormed, NestsWithin, DecodeResult, FindInfo, ReadsDigits, At;
    var w := DecodeResult(data, |data|, DEFAULT_MAX_DEPTH, false).value;
    InputIsSafe(data);
    DecodesIffPrinted(data, w, |data|, DEFAULT_MAX_DEPTH, false);
    t :| data == Print(t) && WellFormed(t, false) && NestsWithin(t, DEFAULT_MAX_DEPTH + 1) && TextOf(t) == w;
    AtSlice(data, 0, data);
    PrintedStart(data, 0, t);
    if t.Dict? {
      RootScan(data, t.entries, number);
      forall value | IsInfo(t.entries, value)
        ensures DecodeResult(Print(value), |Print(value)|, DEFAULT_MAX_DEPTH, false) == Success(TextOf(value))
        ensures TextOf(t).Dict? && Entry(INFO_KEY, TextOf(value)) in TextOf(t).entries
      {
        InfoDecodes(data, t.entries, value);
      }
    }
  }

  lemma InfoDecodes(data: Bytes, entries: seq<Entry>, value: Value)
    requires data == Print(Dict(entries)) && |data| <= MAX_SAFE_INTEGER && IsInfo(entries, value)
    requires WellFormed(Dict(entries), false) && NestsWithin(Dict(entries), DEFAULT_MAX_DEPTH + 1)
    ensures DecodeResult(Print(value), |Print(value)|, DEFAULT_MAX_DEPTH, false) == Success(TextOf(value))
    ensures TextOf(Dict(entries)).Dict? && Entry(INFO_KEY, TextOf(value)) in TextOf(Dict(entries)).entries
  {
    hide DecodeResult, KeysOk;
    var i :| 0 <= i < |entries| && entries[i] == Entry(INFO_KEY, value);
    MemberIsWithin(entries, i, DEFAULT_MAX_DEPTH);
    NestingBoundsDepth(value, DEFAULT_MAX_DEPTH);
    DepthBoundsNesting(value, DEFAULT_MAX_DEPTH, DEFAULT_MAX_DEPTH + 1);
    TextMember(entries, i);
    DecodesIffPrinted(Print(value), TextOf(value), |Print(value)|, DEFAULT_MAX_DEPTH, false);
  }

  lemma InputIsSafe(data: Bytes)
    requires DecodeResult(data, |data|, DEFAULT_MAX_DEPTH, false).Success?
    ensures |data| <= MAX_SAFE_INTEGER
  {
  }

  lemma RootScan(data: Bytes, entries: seq<Entry>, number: Numeral)
    requires data == Print(Dict(entries)) && WellFormed(Dict(entries), false) && ReadsDigits(number)
    requires DecodeResult(data, |data|, DEFAULT_MAX_DEPTH, false).Success?
    ensures InfoBytes(data, number).Success? <==>
      EntriesLieWithin(entries, MAX_SCAN_DEPTH - 1) && exists value :: IsInfo(entries, value) && value.Dict?
    ensures InfoBytes(data, number).Success? ==>
      forall value :: IsInfo(entries, value) ==> InfoBytes(data, number).value == Print(value)
  {
    hide FindInfo, ReadsDigits, DecodeResult, KeysOk, EntriesWellFormed, EntriesLieWithin, PrintEntries;
    AtSlice(data, 0, data);
    BodyAt(data, 0, TOKEN_DICT, PrintEntries(entries));
    RawKeysDiffer(entries);
    FindsInfo(data, 1, entries, number, None);
  }

  lemma RawKeysDiffer(entries: seq<Entry>)
    requires KeysOk(TextOfEntries(entries), false)
    ensures forall i, j :: 0 <= i < j < |entries| ==> entries[i].key != entries[j].key
  {
    forall i, j | 0 <= i < j < |entries| ensures entries[i].key != entries[j].key {
      TextMember(entries, i);
      TextMember(entries, j);
    }
  }

  lemma {:induction false} TextMember(entries: seq<Entry>, i: nat)
    requires i < |entries|
    ensures |TextOfEntries(entries)| == |entries|
    ensures TextOfEntries(entries)[i] == Entry(DecodeText(entries[i].key), TextOf(entries[i].value))
    ensures DecodeText(INFO_KEY) == INFO_KEY
  {
    hide TextOf;
    TextOfEntriesFixpoint(entries);
    if i == 0 {
    } else {
      TextMember(entries[1..], i - 1);
    }
  }

  lemma {:induction false} MemberIsWithin(entries: seq<Entry>, i: nat, d: int)
    requires i < |entries| && EntriesWellFormed(entries, false) && EntriesNestWithin(entries, d)
    ensures WellFormed(entries[i].value, false) && NestsWithin(entries[i].value, d)
    ensures |Print(entries[i].value)| <= |PrintEntries(entries)|
  {
    hide WellFormed, NestsWithin, Print;
    if i == 0 {
    } else {
      MemberIsWithin(entries[1..], i - 1, d);
    }
  }

  // ---- Wrapping ----

  /** A root is an array, and two roots with the same bytes may still be two arrays: `identity` tells which one it is. */
  datatype Layer = Layer(identity: nat, root: Bytes, hashes: Bytes)

  datatype WrapOptions = WrapOptions(
    announce: Option<Bytes>,
    announceList: Option<seq<seq<Bytes>>>,
    pieceLayers: Option<seq<Layer>>)

  datatype WrapError = InvalidInfo(cause: DecodeError) | InfoIsNoDictionary | DuplicateLayerRoot

  datatype Field = Field(key: Bytes, value: Bytes)

  const ANNOUNCE_KEY: Bytes := [0x61, 0x6e, 0x6e, 0x6f, 0x75, 0x6e, 0x63, 0x65]
  const ANNOUNCE_LIST_KEY: Bytes := ANNOUNCE_KEY + [0x2d, 0x6c, 0x69, 0x73, 0x74]
  const PIECE_LAYERS_KEY: Bytes := [0x70, 0x69, 0x65, 0x63, 0x65, 0x20, 0x6c, 0x61, 0x79, 0x65, 0x72, 0x73]

  function Tiers(tiers: seq<seq<Bytes>>): seq<Value> {
    if tiers == [] then [] else [List(Urls(tiers[0]))] + Tiers(tiers[1..])
  }

  function Urls(urls: seq<Bytes>): seq<Value> {
    if urls == [] then [] else [Str(urls[0])] + Urls(urls[1..])
  }

  function LayerEntries(layers: seq<Layer>): seq<Entry> {
    if layers == [] then [] else [Entry(layers[0].root, Str(layers[0].hashes))] + LayerEntries(layers[1..])
  }

  /** A map keyed by objects: the same object given again keeps its place and replaces the hashes. */
  function SetLayer(layers: seq<Layer>, layer: Layer): seq<Layer> {
    if layers == [] then [layer]
    else if layers[0].identity == layer.identity then [layers[0].(hashes := layer.hashes)] + layers[1..]
    else [layers[0]] + SetLayer(layers[1..], layer)
  }

  function Merged(layers: seq<Layer>): seq<Layer> {
    if layers == [] then [] else SetLayer(Merged(layers[..|layers| - 1]), layers[|layers| - 1])
  }

  method MergeLayers(layers: seq<Layer>) returns (merged: seq<Layer>)
    ensures merged == Merged(layers)
  {
    merged := [];
    for i := 0 to |layers|
      invariant merged == Merged(layers[..i])
    {
      assert layers[..i + 1][..i] == layers[..i];
      merged := SetLayer(merged, layers[i]);
    }
    assert layers[..|layers|] == layers;
  }

  /** The outer fields other than `info`, as trees. */
  function BeforeInfo(options: WrapOptions): seq<Entry> {
    (match options.announce case None => [] case Some(url) => [Entry(ANNOUNCE_KEY, Str(url))]) +
    (match options.announceList case None => [] case Some(tiers) => [Entry(ANNOUNCE_LIST_KEY, List(Tiers(tiers)))])
  }

  function AfterInfo(options: WrapOptions): seq<Entry> {
    match options.pieceLayers
    case None => []
    case Some(layers) => [Entry(PIECE_LAYERS_KEY, Canonical(Dict(LayerEntries(Merged(layers)))))]
  }

  /** The complete metainfo around the tree of an info dictionary, its keys in order. */
  function Wrapped(info: Value, options: WrapOptions): Value {
    Dict(BeforeInfo(options) + [Entry(INFO_KEY, info)] + AfterInfo(options))
  }

  function SortFields(fields: seq<Field>): seq<Field> {
    if fields == [] then [] else InsertField(fields[0], SortFields(fields[1..]))
  }

  function InsertField(field: Field, fields: seq<Field>): seq<Field> {
    if fields == [] then [field]
    else if Less(fields[0].key, field.key) then [fields[0]] + InsertField(field, fields[1..])
    else [field] + fields
  }

  function FieldBytes(fields: seq<Field>): Bytes {
    if fields == [] then [] else PrintStr(fields[0].key) + fields[0].value + FieldBytes(fields[1..])
  }

  function PrintedFields(entries: seq<Entry>): seq<Field> {
    if entries == [] then [] else [Field(entries[0].key, Print(entries[0].value))] + PrintedFields(entries[1..])
  }

  lemma {:induction false} FieldBytesArePrinted(entries: seq<Entry>)
    ensures FieldBytes(PrintedFields(entries)) == PrintEntries(entries)
  {
    hide Print;
    if entries == [] {
    } else {
      FieldBytesArePrinted(entries[1..]);
      assert PrintedFields(entries)[1..] == PrintedFields(entries[1..]);
    }
  }

  lemma {:induction false} FieldBytesAppend(fields: seq<Field>, field: Field)
    ensures FieldBytes(fields + [field]) == FieldBytes(fields) + (PrintStr(field.key) + field.value)
  {
    hide PrintStr;
    if fields == [] {
      assert [] + [field] == [field];
      assert FieldBytes([field]) == PrintStr(field.key) + field.value + FieldBytes([]);
    } else {
      FieldBytesAppend(fields[1..], field);
      assert (fields + [field])[1..] == fields[1..] + [field];
    }
  }

  lemma LessAt(a: Bytes, b: Bytes, k: nat)
    requires k <= |a| && k < |b| && a[..k] == b[..k] && (k == |a| || a[k] < b[k])
    ensures Less(a, b)
  {
    if k == 0 {
    } else {
      assert a[0] == a[..k][0] == b[..k][0] == b[0];
      assert a[1..][..k - 1] == a[..k][1..] && b[1..][..k - 1] == b[..k][1..];
      LessAt(a[1..], b[1..], k - 1);
    }
  }

  lemma OuterKeysAscend()
    ensures Less(ANNOUNCE_KEY, ANNOUNCE_LIST_KEY) && Less(ANNOUNCE_LIST_KEY, INFO_KEY) && Less(INFO_KEY, PIECE_LAYERS_KEY)
    ensures Less(ANNOUNCE_KEY, INFO_KEY)
    ensures !Less(INFO_KEY, ANNOUNCE_KEY) && !Less(ANNOUNCE_LIST_KEY, ANNOUNCE_KEY) && !Less(INFO_KEY, ANNOUNCE_LIST_KEY)
    ensures !Less(PIECE_LAYERS_KEY, INFO_KEY) && !Less(PIECE_LAYERS_KEY, ANNOUNCE_KEY) && !Less(PIECE_LAYERS_KEY, ANNOUNCE_LIST_KEY)
    ensures Less(ANNOUNCE_KEY, PIECE_LAYERS_KEY) && Less(ANNOUNCE_LIST_KEY, PIECE_LAYERS_KEY)
  {
    LessAt(ANNOUNCE_KEY, ANNOUNCE_LIST_KEY, 8);
    LessAt(ANNOUNCE_LIST_KEY, INFO_KEY, 0);
    LessAt(ANNOUNCE_KEY, INFO_KEY, 0);
    LessAt(INFO_KEY, PIECE_LAYERS_KEY, 0);
    LessAt(ANNOUNCE_KEY, PIECE_LAYERS_KEY, 0);
    LessAt(ANNOUNCE_LIST_KEY, PIECE_LAYERS_KEY, 0);
    LessTotal(ANNOUNCE_KEY, ANNOUNCE_LIST_KEY);
    LessTotal(ANNOUNCE_LIST_KEY, INFO_KEY);
    LessTotal(ANNOUNCE_KEY, INFO_KEY);
    LessTotal(INFO_KEY, PIECE_LAYERS_KEY);
    LessTotal(ANNOUNCE_KEY, PIECE_LAYERS_KEY);
    LessTotal(ANNOUNCE_LIST_KEY, PIECE_LAYERS_KEY);
  }

  // ---- The values of the outer fields can be encoded as they are ----

  lemma {:induction false} UrlsAreCanonical(urls: seq<Bytes>)
    ensures CanonicalItems(Urls(urls)) == Urls(urls) && ItemsEncodable(Urls(urls))
  {
    if urls == [] {
    } else {
      UrlsAreCanonical(urls[1..]);
      assert Urls(urls)[1..] == Urls(urls[1..]);
    }
  }

  lemma {:induction false} TiersAreCanonical(tiers: seq<seq<Bytes>>)
    ensures CanonicalItems(Tiers(tiers)) == Tiers(tiers) && ItemsEncodable(Tiers(tiers))
  {
    if tiers == [] {
    } else {
      UrlsAreCanonical(tiers[0]);
      TiersAreCanonical(tiers[1..]);
      assert Tiers(tiers)[1..] == Tiers(tiers[1..]);
    }
  }

  lemma {:induction false} LayersAreEncodable(layers: seq<Layer>)
    ensures EntriesEncodable(LayerEntries(layers))
  {
    if layers == [] {
    } else {
      LayersAreEncodable(layers[1..]);
      assert LayerEntries(layers)[1..] == LayerEntries(layers[1..]);
    }
  }

  /** What wrapping demands of its options: no two arrays of the same root bytes. */
  predicate Wrappable(options: WrapOptions) {
    options.pieceLayers.Some? ==> DistinctKeys(LayerEntries(Merged(options.pieceLayers.value)))
  }

  // ---- Roots given several times ----

  /** An array has one content. */
  predicate OneRootEach(layers: seq<Layer>) {
    forall x, y :: x in layers && y in layers && x.identity == y.identity ==> x.root == y.root
  }

  predicate DistinctObjects(layers: seq<Layer>) {
    forall i, j :: 0 <= i < j < |layers| ==> layers[i].identity != layers[j].identity
  }

  /** The root given at `k` is not given again behind it. */
  predicate IsLast(layers: seq<Layer>, k: nat) {
    k < |layers| && forall j :: k < j < |layers| ==> layers[j].identity != layers[k].identity
  }

  lemma {:induction false} SetLayerHolds(layers: seq<Layer>, layer: Layer)
    requires DistinctObjects(layers) && forall l <- layers :: l.identity == layer.identity ==> l.root == layer.root
    ensures forall m :: m in SetLayer(layers, layer) <==> m == layer || (m in layers && m.identity != layer.identity)
    ensures DistinctObjects(SetLayer(layers, layer))
  {
    if layers == [] {
    } else {
      var rest := layers[1..];
      assert forall m :: m in layers <==> m == layers[0] || m in rest;
      SetLayerHolds(rest, layer);
      if layers[0].identity == layer.identity {
        assert layers[0].(hashes := layer.hashes) == layer;
        assert SetLayer(layers, layer) == [layer] + rest;
      } else {
        assert SetLayer(layers, layer) == [layers[0]] + SetLayer(rest, layer);
      }
    }
  }

  /** This is what was given last for its root. */
  ghost predicate GivenLast(layers: seq<Layer>, m: Layer) {
    exists k: nat :: IsLast(layers, k) && layers[k] == m
  }

  lemma GivenLastMore(before: seq<Layer>, layer: Layer, m: Layer)
    ensures GivenLast(before + [layer], m) <==> m == layer || (GivenLast(before, m) && m.identity != layer.identity)
  {
    var n, layers := |before|, before + [layer];
    assert IsLast(layers, n) && layers[n] == layer;
    if GivenLast(layers, m) && m != layer {
      var k: nat :| IsLast(layers, k) && layers[k] == m;
      assert k < n && layers[n].identity != m.identity;
      assert forall j :: k < j < n ==> layers[j] == before[j];
      assert IsLast(before, k) && before[k] == m;
    }
    if GivenLast(before, m) && m.identity != layer.identity {
      var k: nat :| IsLast(before, k) && before[k] == m;
      assert forall j :: k < j < n ==> layers[j] == before[j];
      assert IsLast(layers, k) && layers[k] == m;
    }
  }

  /** The merged layers have different roots by identity, each with the hashes that were given for it last. */
  lemma {:induction false} MergedHoldsLast(layers: seq<Layer>)
    requires OneRootEach(layers)
    ensures DistinctObjects(Merged(layers))
    ensures forall m :: m in Merged(layers) <==> GivenLast(layers, m)
  {
    hide GivenLast, DistinctObjects, SetLayer;
    if layers == [] {
      NothingGiven();
    } else {
      var n := |layers| - 1;
      var before, layer := layers[..n], layers[n];
      assert layers == before + [layer];
      MergedHoldsLast(before);
      forall m | m in Merged(before) ensures m in before {
        GivenIsMember(before, m);
      }
      SetLayerHolds(Merged(before), layer);
      forall m ensures m in Merged(layers) <==> GivenLast(layers, m) {
        GivenLastMore(before, layer, m);
      }
    }
  }

  lemma NothingGiven()
    ensures Merged([]) == [] && DistinctObjects([]) && forall m :: !GivenLast([], m)
  {
  }

  lemma GivenIsMember(layers: seq<Layer>, m: Layer)
    requires GivenLast(layers, m)
    ensures m in layers
  {
  }

  /** Wrapping fails exactly when two different arrays of the same bytes are given as roots. */
  lemma WrappableExactly(options: WrapOptions)
    requires options.pieceLayers.Some? ==> OneRootEach(options.pieceLayers.value)
    ensures Wrappable(options) <==> options.pieceLayers.Some? ==>
      forall x, y :: x in options.pieceLayers.value && y in options.pieceLayers.value && x.root == y.root ==> x.identity == y.identity
  {
    if options.pieceLayers.Some? {
      var layers := options.pieceLayers.value;
      MergedHoldsLast(layers);
      RootsDiffer(Merged(layers));
      forall x, y | Wrappable(options) && x in layers && y in layers && x.root == y.root ensures x.identity == y.identity {
        var k := LastOf(layers, x);
        var l := LastOf(layers, y);
        assert GivenLast(layers, layers[k]) && GivenLast(layers, layers[l]);
      }
      forall x, y | x in Merged(layers) && y in Merged(layers) && x.identity != y.identity && x.root == y.root
        ensures exists a, b :: a in layers && b in layers && a.root == b.root && a.identity != b.identity
      {
        assert x in layers && y in layers;
      }
    }
  }

  lemma {:induction false} LastOf(layers: seq<Layer>, l: Layer) returns (k: nat)
    requires l in layers
    ensures IsLast(layers, k) && layers[k].identity == l.identity
  {
    var n := |layers| - 1;
    if layers[n].identity == l.identity {
      k := n;
    } else {
      var before := layers[..n];
      assert l in before;
      k := LastOf(before, l);
      assert forall j :: k < j < n ==> layers[j] == before[j];
    }
  }

  lemma RootsDiffer(layers: seq<Layer>)
    requires DistinctObjects(layers)
    ensures DistinctKeys(LayerEntries(layers)) <==>
      forall x, y :: x in layers && y in layers && x.identity != y.identity ==> x.root != y.root
  {
    EntriesOfLayers(layers);
    var entries := LayerEntries(layers);
    if DistinctKeys(entries) {
      forall x, y | x in layers && y in layers && x.identity != y.identity ensures x.root != y.root {
        var i :| 0 <= i < |layers| && layers[i] == x;
        var j :| 0 <= j < |layers| && layers[j] == y;
        assert entries[i].key == x.root && entries[j].key == y.root;
      }
    }
  }

  lemma {:induction false} EntriesOfLayers(layers: seq<Layer>)
    ensures |LayerEntries(layers)| == |layers|
    ensures forall i :: 0 <= i < |layers| ==> LayerEntries(layers)[i].key == layers[i].root
  {
    if layers == [] {
    } else {
      EntriesOfLayers(layers[1..]);
    }
  }

  method WrapFields(info: Bytes, options: WrapOptions) returns (fields: seq<Field>, ok: bool)
    ensures ok <==> Wrappable(options)
    ensures ok ==> fields == PrintedFields(BeforeInfo(options)) + [Field(INFO_KEY, info)] + PrintedFields(AfterInfo(options))
  {
    hide Print, Canonical, Encodable, PrintedFields;
    fields, ok := [Field(INFO_KEY, info)], true;
    ghost var a: seq<Field>, l: seq<Field>, p: seq<Field> := [], [], [];
    if options.announce.Some? {
      var url := Str(options.announce.value);
      ScalarIsCanonical(url);
      var encoded, bytes := Encode(url);
      fields := fields + [Field(ANNOUNCE_KEY, bytes)];
      a := [Field(ANNOUNCE_KEY, Print(url))];
    }
    if options.announceList.Some? {
      var tiers := List(Tiers(options.announceList.value));
      TierListIsCanonical(options.announceList.value);
      var encoded, bytes := Encode(tiers);
      fields := fields + [Field(ANNOUNCE_LIST_KEY, bytes)];
      l := [Field(ANNOUNCE_LIST_KEY, Print(tiers))];
    }
    if options.pieceLayers.Some? {
      var merged := MergeLayers(options.pieceLayers.value);
      var layers := Dict(LayerEntries(merged));
      LayersEncodable(merged);
      var encoded, bytes := Encode(layers);
      if !encoded {
        return [], false;
      }
      fields := fields + [Field(PIECE_LAYERS_KEY, bytes)];
      p := [Field(PIECE_LAYERS_KEY, Print(Canonical(layers)))];
    }
    PrintedBefore(options);
    PrintedAfter(options);
    SortFour(Field(INFO_KEY, info), a, l, p);
    assert fields == [Field(INFO_KEY, info)] + (a + (l + p));
    fields := SortFields(fields);
  }

  lemma ScalarIsCanonical(v: Value)
    requires v.Str?
    ensures Canonical(v) == v && Encodable(v)
  {
  }

  lemma TierListIsCanonical(tiers: seq<seq<Bytes>>)
    ensures Canonical(List(Tiers(tiers))) == List(Tiers(tiers)) && Encodable(List(Tiers(tiers)))
  {
    TiersAreCanonical(tiers);
  }

  lemma LayersEncodable(layers: seq<Layer>)
    ensures Encodable(Dict(LayerEntries(layers))) <==> DistinctKeys(LayerEntries(layers))
  {
    LayersAreEncodable(layers);
  }

  lemma PrintedBefore(options: WrapOptions)
    ensures PrintedFields(BeforeInfo(options)) ==
      (if options.announce.Some? then [Field(ANNOUNCE_KEY, Print(Str(options.announce.value)))] else [])
      + (if options.announceList.Some? then [Field(ANNOUNCE_LIST_KEY, Print(List(Tiers(options.announceList.value))))] else [])
  {
    hide Print;
    var a: seq<Entry> := if options.announce.Some? then [Entry(ANNOUNCE_KEY, Str(options.announce.value))] else [];
    var l: seq<Entry> := if options.announceList.Some? then [Entry(ANNOUNCE_LIST_KEY, List(Tiers(options.announceList.value)))] else [];
    PrintedFieldsJoin(a, l);
  }

  lemma PrintedAfter(options: WrapOptions)
    ensures PrintedFields(AfterInfo(options)) ==
      if options.pieceLayers.Some?
      then [Field(PIECE_LAYERS_KEY, Print(Canonical(Dict(LayerEntries(Merged(options.pieceLayers.value))))))] else []
  {
    hide Print, Canonical;
  }

  /** Sorting moves the field of `info`, pushed first, behind the announce fields. */
  lemma SortFour(i: Field, a: seq<Field>, l: seq<Field>, p: seq<Field>)
    requires i.key == INFO_KEY && |a| <= 1 && |l| <= 1 && |p| <= 1
    requires a != [] ==> a[0].key == ANNOUNCE_KEY
    requires l != [] ==> l[0].key == ANNOUNCE_LIST_KEY
    requires p != [] ==> p[0].key == PIECE_LAYERS_KEY
    ensures SortFields([i] + (a + (l + p))) == a + l + [i] + p
  {
    OuterKeysAscend();
    hide Less;
    assert p + [] == p;
    SortFront(p, []);
    SortFront(l, p);
    SortFront(a, l + p);
    var rest := a + (l + p);
    assert ([i] + rest)[1..] == rest;
    InsertPast(i, a, l + p);
    InsertPast(i, l, p);
    assert InsertField(i, p) == [i] + p;
    hide SortFields, InsertField;
    RegroupFields(a, l, [i], p);
  }

  lemma RegroupFields(a: seq<Field>, b: seq<Field>, c: seq<Field>, d: seq<Field>)
    ensures a + (b + (c + d)) == a + b + c + d && b + (c + d) == b + c + d
  {
  }

  lemma SortFront(x: seq<Field>, rest: seq<Field>)
    requires |x| <= 1 && SortFields(rest) == rest
    requires x != [] && rest != [] ==> !Less(rest[0].key, x[0].key)
    ensures SortFields(x + rest) == x + rest
  {
    hide Less;
    if x == [] {
      assert x + rest == rest;
    } else {
      assert x == [x[0]] && (x + rest)[1..] == rest;
    }
  }

  lemma InsertPast(i: Field, x: seq<Field>, rest: seq<Field>)
    requires |x| <= 1 && (x != [] ==> Less(x[0].key, i.key))
    ensures InsertField(i, x + rest) == x + InsertField(i, rest)
  {
    hide Less;
    if x == [] {
      assert x + rest == rest;
    } else {
      assert x == [x[0]] && (x + rest)[1..] == rest;
    }
  }

  /** Wraps an exact `info` dictionary; the bytes are inserted verbatim. */
  method WrapInfo(info: Bytes, options: WrapOptions) returns (r: Result<Bytes, WrapError>)
    ensures var decoded := DecodeResult(info, |info|, DEFAULT_MAX_DEPTH, false);
      if decoded.Failure? then r == Failure(InvalidInfo(decoded.error))
      else if !decoded.value.Dict? then r == Failure(InfoIsNoDictionary)
      else if !Wrappable(options) then r == Failure(DuplicateLayerRoot)
      else r.Success? && forall t :: Print(t) == info ==> r.value == Print(Wrapped(t, options))
  {
    var decoded := Decode(info, |info|, DEFAULT_MAX_DEPTH, false);
    if decoded.Failure? {
      return Failure(InvalidInfo(decoded.error));
    }
    if !decoded.value.Dict? {
      return Failure(InfoIsNoDictionary);
    }
    hide DecodeResult, Print, Wrappable;
    var fields, ok := WrapFields(info, options);
    if !ok {
      return Failure(DuplicateLayerRoot);
    }
    var output := JoinFields(fields);
    forall t | Print(t) == info ensures output[..] == Print(Wrapped(t, options)) {
      WrappedIsJoined(t, options);
    }
    return Success(output[..]);
  }

  lemma WrappedIsJoined(t: Value, options: WrapOptions)
    ensures Print(Wrapped(t, options)) == [TOKEN_DICT]
      + FieldBytes(PrintedFields(BeforeInfo(options)) + [Field(INFO_KEY, Print(t))] + PrintedFields(AfterInfo(options)))
      + [TOKEN_END]
  {
    hide FieldBytes, PrintEntries, PrintedFields;
    var before, after := BeforeInfo(options), AfterInfo(options);
    FieldBytesArePrinted(before + [Entry(INFO_KEY, t)] + after);
    PrintedFieldsJoin(before, [Entry(INFO_KEY, t)]);
    PrintedFieldsJoin(before + [Entry(INFO_KEY, t)], after);
    PrintedSingle(Entry(INFO_KEY, t));
  }

  lemma PrintedSingle(entry: Entry)
    ensures PrintedFields([entry]) == [Field(entry.key, Print(entry.value))]
  {
  }

  lemma {:induction false} PrintedFieldsJoin(a: seq<Entry>, b: seq<Entry>)
    ensures PrintedFields(a + b) == PrintedFields(a) + PrintedFields(b)
  {
    hide Print;
    if a == [] {
      assert a + b == b;
    } else {
      PrintedFieldsJoin(a[1..], b);
      assert (a + b)[1..] == a[1..] + b;
      RegroupFields([], [Field(a[0].key, Print(a[0].value))], PrintedFields(a[1..]), PrintedFields(b));
    }
  }

  /** Each field gives two chunks, its printed key and its value. */
  function Chunks(fields: seq<Field>): seq<Bytes> {
    if fields == [] then []
    else
      var last := fields[|fields| - 1];
      Chunks(fields[..|fields| - 1]) + [PrintStr(last.key), last.value]
  }

  function Joined(chunks: seq<Bytes>): Bytes {
    if chunks == [] then [] else Joined(chunks[..|chunks| - 1]) + chunks[|chunks| - 1]
  }

  lemma JoinedGrows(chunks: seq<Bytes>, chunk: Bytes)
    ensures Joined(chunks + [chunk]) == Joined(chunks) + chunk
  {
    assert (chunks + [chunk])[..|chunks|] == chunks;
  }

  lemma {:induction false} ChunksAreFields(fields: seq<Field>)
    ensures Joined(Chunks(fields)) == FieldBytes(fields)
  {
    hide PrintStr, Joined;
    if fields == [] {
      NothingJoined();
    } else {
      var front, last := fields[..|fields| - 1], fields[|fields| - 1];
      ChunksAreFields(front);
      JoinedGrows(Chunks(front), PrintStr(last.key));
      JoinedGrows(Chunks(front) + [PrintStr(last.key)], last.value);
      assert Chunks(fields) == Chunks(front) + [PrintStr(last.key)] + [last.value];
      FieldBytesAppend(front, last);
      assert fields == front + [last];
    }
  }

  lemma NothingJoined()
    ensures Joined([]) == []
  {
  }

  /** The chunks one behind the other, between the marks of a dictionary, in a buffer of just their length. */
  method JoinFields(fields: seq<Field>) returns (output: array<Byte>)
    ensures output[..] == [TOKEN_DICT] + FieldBytes(fields) + [TOKEN_END]
  {
    hide PrintStr, Joined, Chunks, FieldBytes;
    var chunks := Chunks(fields);
    var length := TotalLength(chunks);
    output := new Byte[length + 2](_ => 0);
    output[0] := TOKEN_DICT;
    var offset := 1;
    NothingJoined();
    assert chunks[..0] == [];
    for i := 0 to |chunks|
      invariant offset == 1 + |Joined(chunks[..i])| <= length + 1 && output[..offset] == [TOKEN_DICT] + Joined(chunks[..i])
    {
      assert chunks[..i + 1] == chunks[..i] + [chunks[i]];
      JoinedGrows(chunks[..i], chunks[i]);
      JoinedIsLonger(chunks, i + 1);
      CopyInto(output, offset, chunks[i]);
      offset := offset + |chunks[i]|;
    }
    assert chunks[..|chunks|] == chunks;
    ChunksAreFields(fields);
    output[offset] := TOKEN_END;
  }

  method TotalLength(chunks: seq<Bytes>) returns (length: nat)
    ensures length == |Joined(chunks)|
  {
    hide Joined;
    length := 0;
    NothingJoined();
    assert chunks[..0] == [];
    for i := 0 to |chunks|
      invariant length == |Joined(chunks[..i])|
    {
      assert chunks[..i + 1] == chunks[..i] + [chunks[i]];
      JoinedGrows(chunks[..i], chunks[i]);
      length := length + |chunks[i]|;
    }
    assert chunks[..|chunks|] == chunks;
  }

  lemma {:induction false} JoinedIsLonger(chunks: seq<Bytes>, i: nat)
    requires i <= |chunks|
    ensures |Joined(chunks[..i])| <= |Joined(chunks)|
  {
    if i == |chunks| {
      assert chunks[..i] == chunks;
    } else {
      JoinedIsLonger(chunks[..|chunks| - 1], i);
      assert chunks[..|chunks| - 1][..i] == chunks[..i];
    }
  }

  // ---- Wrapping and extracting are inverse ----

  /** The roots of the piece layers stay in order once text decoding has dropped leading marks. */
  predicate LayerKeysOk(options: WrapOptions) {
    options.pieceLayers.Some? ==>
      KeysOk(TextOfEntries(SortEntries(CanonicalEntries(LayerEntries(Merged(options.pieceLayers.value))))), false)
  }

  lemma {:induction false} EntriesJoin(a: seq<Entry>, b: seq<Entry>)
    ensures EntriesWellFormed(a + b, false) <==> EntriesWellFormed(a, false) && EntriesWellFormed(b, false)
    ensures forall d :: EntriesNestWithin(a + b, d) <==> EntriesNestWithin(a, d) && EntriesNestWithin(b, d)
    ensures forall d :: EntriesLieWithin(a + b, d) <==> EntriesLieWithin(a, d) && EntriesLieWithin(b, d)
    ensures |PrintEntries(a + b)| == |PrintEntries(a)| + |PrintEntries(b)|
  {
    hide WellFormed, NestsWithin, LiesWithin, Print;
    if a == [] {
      assert a + b == b;
    } else {
      EntriesJoin(a[1..], b);
      assert (a + b)[1..] == a[1..] + b;
    }
  }

  lemma {:induction false} UrlsAreWellFormed(urls: seq<Bytes>)
    requires |PrintItems(Urls(urls))| <= MAX_SAFE_INTEGER
    ensures ItemsWellFormed(Urls(urls), false)
    ensures forall d :: d >= 0 ==> ItemsNestWithin(Urls(urls), d) && ItemsLieWithin(Urls(urls), d)
  {
    hide ItemsNestWithin, ItemsLieWithin;
    if urls == [] {
    } else {
      assert Urls(urls)[1..] == Urls(urls[1..]);
      UrlsAreWellFormed(urls[1..]);
    }
    forall d | d >= 0 ensures ItemsNestWithin(Urls(urls), d) && ItemsLieWithin(Urls(urls), d) {
      UrlsNest(urls, d);
    }
  }

  lemma {:induction false} UrlsNest(urls: seq<Bytes>, d: int)
    requires d >= 0
    ensures ItemsNestWithin(Urls(urls), d) && ItemsLieWithin(Urls(urls), d)
  {
    if urls == [] {
    } else {
      assert Urls(urls)[1..] == Urls(urls[1..]);
      UrlsNest(urls[1..], d);
    }
  }

  lemma {:induction false} TiersAreWellFormed(tiers: seq<seq<Bytes>>)
    requires |PrintItems(Tiers(tiers))| <= MAX_SAFE_INTEGER
    ensures ItemsWellFormed(Tiers(tiers), false)
    ensures forall d :: d >= 1 ==> ItemsNestWithin(Tiers(tiers), d) && ItemsLieWithin(Tiers(tiers), d)
  {
    hide ItemsNestWithin, ItemsLieWithin;
    if tiers == [] {
    } else {
      assert Tiers(tiers)[1..] == Tiers(tiers[1..]);
      TiersAreWellFormed(tiers[1..]);
      UrlsAreWellFormed(tiers[0]);
    }
    forall d | d >= 1 ensures ItemsNestWithin(Tiers(tiers), d) && ItemsLieWithin(Tiers(tiers), d) {
      TiersNest(tiers, d);
    }
  }

  lemma {:induction false} TiersNest(tiers: seq<seq<Bytes>>, d: int)
    requires d >= 1
    ensures ItemsNestWithin(Tiers(tiers), d) && ItemsLieWithin(Tiers(tiers), d)
  {
    if tiers == [] {
    } else {
      assert Tiers(tiers)[1..] == Tiers(tiers[1..]);
      TiersNest(tiers[1..], d);
      UrlsNest(tiers[0], d - 1);
    }
  }

  predicate StringValued(entries: seq<Entry>) {
    entries == [] || (entries[0].value.Str? && StringValued(entries[1..]))
  }

  lemma {:induction false} LayersAreStrings(layers: seq<Layer>)
    ensures StringValued(SortEntries(CanonicalEntries(LayerEntries(layers))))
  {
    if layers == [] {
    } else {
      LayersAreStrings(layers[1..]);
      var entries := LayerEntries(layers);
      assert entries[1..] == LayerEntries(layers[1..]);
      var canonical := CanonicalEntries(entries);
      assert canonical[1..] == CanonicalEntries(entries[1..]);
      assert canonical[0].value == Canonical(entries[0].value) == entries[0].value;
      InsertKeepsStrings(canonical[0], SortEntries(canonical[1..]));
    }
  }

  lemma {:induction false} InsertKeepsStrings(entry: Entry, entries: seq<Entry>)
    requires entry.value.Str? && StringValued(entries)
    ensures StringValued(Insert(entry, entries))
  {
    var r := Insert(entry, entries);
    if entries != [] && Less(entries[0].key, entry.key) {
      InsertKeepsStrings(entry, entries[1..]);
      assert r[1..] == Insert(entry, entries[1..]);
    } else {
      assert r[1..] == entries;
    }
  }

  lemma {:induction false} StringsAreWellFormed(entries: seq<Entry>)
    requires StringValued(entries) && |PrintEntries(entries)| <= MAX_SAFE_INTEGER
    ensures EntriesWellFormed(entries, false)
    ensures forall d :: d >= 0 ==> EntriesNestWithin(entries, d) && EntriesLieWithin(entries, d)
  {
    hide EntriesNestWithin, EntriesLieWithin;
    if entries == [] {
    } else {
      StringsAreWellFormed(entries[1..]);
    }
    forall d | d >= 0 ensures EntriesNestWithin(entries, d) && EntriesLieWithin(entries, d) {
      StringsNest(entries, d);
    }
  }

  lemma {:induction false} StringsNest(entries: seq<Entry>, d: int)
    requires StringValued(entries) && d >= 0
    ensures EntriesNestWithin(entries, d) && EntriesLieWithin(entries, d)
  {
    if entries == [] {
    } else {
      StringsNest(entries[1..], d);
    }
  }

  lemma BeforeInfoIsWellFormed(options: WrapOptions)
    requires |PrintEntries(BeforeInfo(options))| <= MAX_SAFE_INTEGER
    ensures EntriesWellFormed(BeforeInfo(options), false)
    ensures forall d :: d >= 2 ==> EntriesNestWithin(BeforeInfo(options), d) && EntriesLieWithin(BeforeInfo(options), d)
  {
    var a: seq<Entry> := if options.announce.Some? then [Entry(ANNOUNCE_KEY, Str(options.announce.value))] else [];
    var l: seq<Entry> := if options.announceList.Some? then [Entry(ANNOUNCE_LIST_KEY, List(Tiers(options.announceList.value)))] else [];
    EntriesJoin(a, l);
    if options.announceList.Some? {
      SinglePrinted(l[0]);
      TiersAreWellFormed(options.announceList.value);
      SingleEntry(l[0]);
      forall d | d >= 2 ensures NestsWithin(l[0].value, d) && LiesWithin(l[0].value, d) {
        assert ItemsNestWithin(Tiers(options.announceList.value), d - 1);
        assert ItemsLieWithin(Tiers(options.announceList.value), d - 1);
      }
    }
    if options.announce.Some? {
      SinglePrinted(a[0]);
      SingleEntry(a[0]);
    }
  }

  lemma SinglePrinted(entry: Entry)
    ensures PrintEntries([entry]) == PrintStr(entry.key) + Print(entry.value)
  {
    assert [entry][1..] == [];
  }

  lemma SingleEntry(entry: Entry)
    ensures EntriesWellFormed([entry], false) <==> |entry.key| <= MAX_SAFE_INTEGER && WellFormed(entry.value, false)
    ensures forall d :: EntriesNestWithin([entry], d) <==> NestsWithin(entry.value, d)
    ensures forall d :: EntriesLieWithin([entry], d) <==> LiesWithin(entry.value, d)
  {
    hide WellFormed, NestsWithin, LiesWithin;
  }

  lemma AfterInfoIsWellFormed(options: WrapOptions)
    requires |PrintEntries(AfterInfo(options))| <= MAX_SAFE_INTEGER
    ensures EntriesWellFormed(AfterInfo(options), false) <==> LayerKeysOk(options)
    ensures forall d :: d >= 2 ==> EntriesNestWithin(AfterInfo(options), d) && EntriesLieWithin(AfterInfo(options), d)
  {
    if options.pieceLayers.Some? {
      var layers := SortEntries(CanonicalEntries(LayerEntries(Merged(options.pieceLayers.value))));
      assert AfterInfo(options) == [Entry(PIECE_LAYERS_KEY, Dict(layers))];
      SinglePrinted(AfterInfo(options)[0]);
      LayersAreStrings(Merged(options.pieceLayers.value));
      StringsAreWellFormed(layers);
      SingleEntry(AfterInfo(options)[0]);
      forall d | d >= 2 ensures NestsWithin(Dict(layers), d) && LiesWithin(Dict(layers), d) {
        assert EntriesNestWithin(layers, d - 1) && EntriesLieWithin(layers, d - 1);
      }
    }
  }

  predicate IsOuterKey(key: Bytes) {
    key == ANNOUNCE_KEY || key == ANNOUNCE_LIST_KEY || key == INFO_KEY || key == PIECE_LAYERS_KEY
  }

  function Rank(key: Bytes): nat
    requires IsOuterKey(key)
  {
    if key == ANNOUNCE_KEY then 0 else if key == ANNOUNCE_LIST_KEY then 1 else if key == INFO_KEY then 2 else 3
  }

  lemma RankIsOrder(a: Bytes, b: Bytes)
    requires IsOuterKey(a) && IsOuterKey(b) && Rank(a) < Rank(b)
    ensures a != b && !Less(b, a)
  {
    OuterKeysAscend();
  }

  lemma OuterKeyIsText(key: Bytes)
    requires IsOuterKey(key)
    ensures DecodeText(key) == key
  {
    hide DecodeText;
    assert ANNOUNCE_LIST_KEY[0] == ANNOUNCE_KEY[0];
    assert key != [] && key[0] != 0xEF;
    UnmarkedIsText(key);
  }

  lemma WrappedRanks(info: Value, options: WrapOptions)
    ensures var entries := Wrapped(info, options).entries;
      && (forall i :: 0 <= i < |entries| ==> IsOuterKey(entries[i].key))
      && (forall i, j :: 0 <= i < j < |entries| ==> Rank(entries[i].key) < Rank(entries[j].key))
  {
  }

  lemma WrappedKeysOk(info: Value, options: WrapOptions)
    ensures KeysOk(TextOfEntries(Wrapped(info, options).entries), false)
  {
    WrappedRanks(info, options);
    hide BeforeInfo, AfterInfo, Less, TextOfEntries, IsOuterKey, Rank, DecodeText;
    var entries := Wrapped(info, options).entries;
    var texts := TextOfEntries(entries);
    TextOfEntriesFixpoint(entries);
    forall i | 0 <= i < |entries| ensures texts[i].key == entries[i].key {
      TextMember(entries, i);
      OuterKeyIsText(entries[i].key);
    }
    forall i, j | 0 <= i < j < |entries|
      ensures entries[i].key != entries[j].key && !Less(entries[j].key, entries[i].key)
    {
      RankIsOrder(entries[i].key, entries[j].key);
    }
  }

  lemma WrappedIsWellFormed(info: Value, options: WrapOptions)
    requires WellFormed(info, false) && |Print(Wrapped(info, options))| <= MAX_SAFE_INTEGER
    ensures WellFormed(Wrapped(info, options), false) <==> LayerKeysOk(options)
    ensures forall d :: d >= 2 ==>
      (EntriesNestWithin(Wrapped(info, options).entries, d) <==> NestsWithin(info, d)) &&
      (EntriesLieWithin(Wrapped(info, options).entries, d) <==> LiesWithin(info, d))
  {
    WrappedKeysOk(info, options);
    var before, after, middle := BeforeInfo(options), AfterInfo(options), [Entry(INFO_KEY, info)];
    assert Wrapped(info, options).entries == before + middle + after;
    assert |PrintEntries(before + middle + after)| <= MAX_SAFE_INTEGER;
    hide WellFormed, NestsWithin, LiesWithin, Print, PrintEntries, LayerKeysOk, BeforeInfo, AfterInfo;
    EntriesJoin(before + middle, after);
    EntriesJoin(before, middle);
    SingleEntry(middle[0]);
    BeforeInfoIsWellFormed(options);
    AfterInfoIsWellFormed(options);
    WellFormedDict(before + middle + after);
  }

  lemma WellFormedDict(entries: seq<Entry>)
    ensures WellFormed(Dict(entries), false) <==> KeysOk(TextOfEntries(entries), false) && EntriesWellFormed(entries, false)
    ensures forall d :: NestsWithin(Dict(entries), d) <==> d >= 1 && EntriesNestWithin(entries, d - 1)
  {
  }

  /**
   Metainfo wrapped around an info dictionary is accepted by the strict decoder, and extraction
   gives the info bytes back, for every choice of outer fields, exactly as far as the info
   dictionary nests within the limits and the layer roots keep their order as text.
   */
  lemma WrapThenExtract(info: Bytes, options: WrapOptions, number: Numeral) returns (t: Value)
    requires DecodeResult(info, |info|, DEFAULT_MAX_DEPTH, false).Success?
    requires DecodeResult(info, |info|, DEFAULT_MAX_DEPTH, false).value.Dict?
    requires ReadsDigits(number)
    ensures Print(t) == info && t.Dict?
    ensures var wrapped := Print(Wrapped(t, options));
      |wrapped| <= MAX_SAFE_INTEGER ==>
        && (DecodeResult(wrapped, |wrapped|, DEFAULT_MAX_DEPTH, false).Success? <==>
              LayerKeysOk(options) && NestsWithin(t, DEFAULT_MAX_DEPTH))
        && (InfoBytes(wrapped, number) == Success(info) <==>
              LayerKeysOk(options) && LiesWithin(t, MAX_SCAN_DEPTH - 1))
  {
    hide Print, TextOf, WellFormed, NestsWithin, LiesWithin, DecodeResult, InfoBytes, LayerKeysOk, ReadsDigits, BeforeInfo, AfterInfo;
    var w := DecodeResult(info, |info|, DEFAULT_MAX_DEPTH, false).value;
    InputIsSafe(info);
    DecodesIffPrinted(info, w, |info|, DEFAULT_MAX_DEPTH, false);
    t :| info == Print(t) && WellFormed(t, false) && NestsWithin(t, DEFAULT_MAX_DEPTH + 1) && TextOf(t) == w;
    TextKeepsKind(t);
    var wrapped := Print(Wrapped(t, options));
    if |wrapped| <= MAX_SAFE_INTEGER {
      WrappedIsWellFormed(t, options);
      WrappedDecodes(t, options);
      if LiesWithin(t, MAX_SCAN_DEPTH - 1) {
        DepthBoundsNesting(t, MAX_SCAN_DEPTH - 1, DEFAULT_MAX_DEPTH);
      }
      if DecodeResult(wrapped, |wrapped|, DEFAULT_MAX_DEPTH, false).Success? {
        var root := ExtractionAgreesWithDecoder(wrapped, number);
        assert wrapped + [] == wrapped;
        PrintPrefixFree(root, Wrapped(t, options), [], []);
        var i := |BeforeInfo(options)|;
        assert root.entries[i] == Entry(INFO_KEY, t);
        assert IsInfo(root.entries, t);
      } else {
        NoInfoWithoutDecoding(wrapped, number);
      }
    }
  }

  lemma TextKeepsKind(t: Value)
    ensures TextOf(t).Dict? <==> t.Dict?
  {
  }

  lemma NoInfoWithoutDecoding(data: Bytes, number: Numeral)
    requires DecodeResult(data, |data|, DEFAULT_MAX_DEPTH, false).Failure?
    ensures InfoBytes(data, number).Failure?
  {
  }

  lemma WrappedDecodes(t: Value, options: WrapOptions)
    requires WellFormed(t, false) && |Print(Wrapped(t, options))| <= MAX_SAFE_INTEGER
    ensures var wrapped := Print(Wrapped(t, options));
      DecodeResult(wrapped, |wrapped|, DEFAULT_MAX_DEPTH, false).Success? <==>
        LayerKeysOk(options) && NestsWithin(t, DEFAULT_MAX_DEPTH)
  {
    hide Print, TextOf, WellFormed, NestsWithin, DecodeResult, LayerKeysOk, BeforeInfo, AfterInfo;
    var root := Wrapped(t, options);
    var wrapped := Print(root);
    WrappedIsWellFormed(t, options);
    WellFormedDict(root.entries);
    DecodesIffPrinted(wrapped, TextOf(root), |wrapped|, DEFAULT_MAX_DEPTH, false);
    if DecodeResult(wrapped, |wrapped|, DEFAULT_MAX_DEPTH, false).Success? {
      var w := DecodeResult(wrapped, |wrapped|, DEFAULT_MAX_DEPTH, false).value;
      DecodesIffPrinted(wrapped, w, |wrapped|, DEFAULT_MAX_DEPTH, false);
      var v :| wrapped == Print(v) && WellFormed(v, false) && NestsWithin(v, DEFAULT_MAX_DEPTH + 1) && TextOf(v) == w;
      assert wrapped + [] == wrapped;
      PrintPrefixFree(v, root, [], []);
    }
  }

  // ---- The two failing families, by example ----

  /** A dictionary of `n` dictionaries inside one another, each under the empty key. */
  function Nested(n: nat): Value {
    if n == 0 then Dict([]) else Dict([Entry([], Nested(n - 1))])
  }

  lemma {:induction false} NestedDepth(n: nat, d: int)
    ensures NestsWithin(Nested(n), d) <==> d >= n + 1
    ensures LiesWithin(Nested(n), d) <==> d >= n
    ensures WellFormed(Nested(n), false) && |Print(Nested(n))| == 4 * n + 2
  {
    hide NestsWithin, LiesWithin, WellFormed, Print;
    if n == 0 {
      EmptyDict(d);
    } else {
      NestedDepth(n - 1, d - 1);
      DictOfOne(Nested(n - 1), d);
    }
  }

  lemma EmptyDict(d: int)
    ensures (NestsWithin(Dict([]), d) <==> d >= 1) && (LiesWithin(Dict([]), d) <==> d >= 0)
    ensures WellFormed(Dict([]), false) && |Print(Dict([]))| == 2
  {
  }

  lemma DictOfOne(v: Value, d: int)
    ensures var w := Dict([Entry([], v)]);
      && (NestsWithin(w, d) <==> d >= 1 && NestsWithin(v, d - 1))
      && (LiesWithin(w, d) <==> d >= 0 && LiesWithin(v, d - 1))
      && (WellFormed(w, false) <==> WellFormed(v, false))
      && |Print(w)| == |Print(v)| + 4
  {
    hide Print;
    var entries := [Entry([], v)];
    SingleEntry(entries[0]);
    SinglePrinted(entries[0]);
    OneKeyIsOk(entries);
    DictLies(entries, d);
  }

  lemma DictLies(entries: seq<Entry>, d: int)
    ensures NestsWithin(Dict(entries), d) <==> d >= 1 && EntriesNestWithin(entries, d - 1)
    ensures LiesWithin(Dict(entries), d) <==> d >= 0 && EntriesLieWithin(entries, d - 1)
    ensures Print(Dict(entries)) == [TOKEN_DICT] + PrintEntries(entries) + [TOKEN_END]
    ensures |PrintStr([])| == 2
  {
    assert Digits(0) == [0x30];
  }

  lemma OneKeyIsOk(entries: seq<Entry>)
    requires |entries| == 1
    ensures KeysOk(TextOfEntries(entries), false)
  {
    TextOfEntriesFixpoint(entries);
  }

  /**
   An info dictionary that nests 257 deep is accepted, wrapped and accepted again, but cannot be extracted; one
   that nests 1001 deep is accepted, but wrapped it is refused.
   */
  lemma WrappedTooDeep(n: nat, number: Numeral)
    requires n == MAX_SCAN_DEPTH || n == DEFAULT_MAX_DEPTH
    requires ReadsDigits(number)
    ensures var info, plain := Print(Nested(n)), WrapOptions(None, None, None);
      var wrapped := Print(Wrapped(Nested(n), plain));
      && DecodeResult(info, |info|, DEFAULT_MAX_DEPTH, false) == Success(TextOf(Nested(n))) && TextOf(Nested(n)).Dict?
      && (DecodeResult(wrapped, |wrapped|, DEFAULT_MAX_DEPTH, false).Success? <==> n == MAX_SCAN_DEPTH)
      && InfoBytes(wrapped, number) != Success(info)
  {
    hide Print, TextOf, DecodeResult, InfoBytes, NestsWithin, LiesWithin, WellFormed, Nested, ReadsDigits;
    var v, plain := Nested(n), WrapOptions(None, None, None);
    var info := Print(v);
    NestedDepth(n, DEFAULT_MAX_DEPTH + 1);
    NestedDepth(n, DEFAULT_MAX_DEPTH);
    NestedDepth(n, MAX_SCAN_DEPTH - 1);
    DecodesIffPrinted(info, TextOf(v), |info|, DEFAULT_MAX_DEPTH, false);
    NestedIsDict(n);
    PlainIsShort(v);
    var t := WrapThenExtract(info, plain, number);
    assert info + [] == info;
    PrintPrefixFree(t, v, [], []);
  }

  lemma NestedIsDict(n: nat)
    ensures TextOf(Nested(n)).Dict?
  {
  }

  lemma PlainIsShort(v: Value)
    ensures |Print(Wrapped(v, WrapOptions(None, None, None)))| == |Print(v)| + 8
    ensures LayerKeysOk(WrapOptions(None, None, None))
  {
    hide Print;
    var entry := Entry(INFO_KEY, v);
    assert Wrapped(v, WrapOptions(None, None, None)) == Dict([entry]);
    SinglePrinted(entry);
    DictLies([entry], 0);
    assert Digits(4) == [0x34];
  }

  function Filled(b: Byte, n: nat): (r: Bytes)
    ensures |r| == n && forall i :: 0 <= i < n ==> r[i] == b
  {
    if n == 0 then [] else [b] + Filled(b, n - 1)
  }

  /** Two roots of 32 bytes, the second led by a byte order mark. */
  function MarkedRoots(): WrapOptions {
    WrapOptions(None, None, Some([Layer(0, Filled(0x63, 32), []), Layer(1, BOM + Filled(0x62, 29), [])]))
  }

  /**
   Two layers in raw order whose roots change places as text, since one is led by a mark that text decoding drops:
   wrapping succeeds around any info dictionary, and what it makes is refused by the decoder and by the locator.
   */
  lemma MarkedLayerRoots(info: Bytes, t: Value, number: Numeral)
    requires DecodeResult(info, |info|, DEFAULT_MAX_DEPTH, false).Success?
    requires DecodeResult(info, |info|, DEFAULT_MAX_DEPTH, false).value.Dict?
    requires info == Print(t) && ReadsDigits(number)
    ensures Wrappable(MarkedRoots())
    ensures var wrapped := Print(Wrapped(t, MarkedRoots()));
      |wrapped| <= MAX_SAFE_INTEGER ==>
        DecodeResult(wrapped, |wrapped|, DEFAULT_MAX_DEPTH, false).Failure? && InfoBytes(wrapped, number).Failure?
  {
    hide Print, DecodeResult, InfoBytes, ReadsDigits, Wrappable, LayerKeysOk, Wrapped, MarkedRoots;
    MarkedRootsTurn();
    var u := WrapThenExtract(info, MarkedRoots(), number);
    assert info + [] == info;
    PrintPrefixFree(t, u, [], []);
    var wrapped := Print(Wrapped(t, MarkedRoots()));
    if |wrapped| <= MAX_SAFE_INTEGER {
      NoInfoWithoutDecoding(wrapped, number);
    }
  }

  lemma MarkedRootsTurn()
    ensures Wrappable(MarkedRoots()) && !LayerKeysOk(MarkedRoots())
  {
    hide Less, DecodeText, DistinctKeys, SortEntries, CanonicalEntries, LayerEntries, TextOfEntries, Merged;
    var a, b := Entry(Filled(0x63, 32), Str([])), Entry(BOM + Filled(0x62, 29), Str([]));
    MergedTwo(Layer(0, a.key, []), Layer(1, b.key, []));
    LayersOfTwo(Layer(0, a.key, []), Layer(1, b.key, []));
    MarkedKeysTurn(a.key, b.key);
    SortTwo(a, b);
    TextOfTwo(a, b);
    TwoAreDistinct(a, b);
    var texts := TextOfEntries([a, b]);
    assert Less(texts[1].key, texts[0].key);
  }

  lemma MergedTwo(x: Layer, y: Layer)
    requires x.identity != y.identity
    ensures Merged([x, y]) == [x, y]
  {
    assert [x, y][..1] == [x] && [x][..0] == [] && [x][1..] == [];
    assert Merged([x]) == SetLayer(Merged([]), x) == [x];
    assert SetLayer([x], y) == [x] + SetLayer([], y);
  }

  /** Raw order and the order as text disagree on these two roots. */
  lemma MarkedKeysTurn(a: Bytes, b: Bytes)
    requires a == Filled(0x63, 32) && b == BOM + Filled(0x62, 29)
    ensures a != b && Less(a, b) && DecodeText(a) == a && Less(DecodeText(b), DecodeText(a))
  {
    var rest := Filled(0x62, 29);
    assert b[..3] == BOM && b[3..] == rest;
    assert b[0] == 0xEF && b[1] == 0xBB && b[2] == 0xBF;
    AsciiIsText(rest);
    UnmarkedIsText(a);
    LessAt(a, b, 0);
    LessAt(rest, a, 0);
  }

  lemma {:induction false} AsciiIsText(b: Bytes)
    requires forall i :: 0 <= i < |b| ==> b[i] < 0x80
    ensures ValidUtf8(b)
  {
    if b == [] {
    } else {
      AsciiIsText(b[1..]);
    }
  }

  lemma LayersOfTwo(x: Layer, y: Layer)
    ensures LayerEntries([x, y]) == [Entry(x.root, Str(x.hashes)), Entry(y.root, Str(y.hashes))]
  {
    assert [x, y][1..] == [y] && [y][1..] == [];
    assert LayerEntries([y]) == [Entry(y.root, Str(y.hashes))] + LayerEntries([]);
  }

  lemma TwoAreDistinct(a: Entry, b: Entry)
    ensures DistinctKeys([a, b]) <==> a.key != b.key
  {
    assert [a, b][0] == a && [a, b][1] == b;
  }

  lemma SortTwo(a: Entry, b: Entry)
    requires a.value.Str? && b.value.Str? && Less(a.key, b.key)
    ensures SortEntries(CanonicalEntries([a, b])) == [a, b]
  {
    hide Less;
    assert [a, b][1..] == [b] && [b][1..] == [];
    LessTotal(a.key, b.key);
    assert CanonicalEntries([b]) == [b] && CanonicalEntries([a, b]) == [a, b];
    assert SortEntries([b]) == [b] && SortEntries([a, b]) == Insert(a, [b]);
  }

  lemma TextOfTwo(a: Entry, b: Entry)
    ensures TextOfEntries([a, b]) == [Entry(DecodeText(a.key), TextOf(a.value)), Entry(DecodeText(b.key), TextOf(b.value))]
  {
    hide TextOf, DecodeText;
    assert [a, b][1..] == [b] && [b][1..] == [];
    assert TextOfEntries([b]) == [Entry(DecodeText(b.key), TextOf(b.value))] + TextOfEntries([]);
  }
}
