/** File trees of version 2 torrents (BEP 52), padded version 1 layouts (BEP 47) and their agreement. */
module FileLayout {
  import opened Results
  import opened ByteStrings
  import opened Merkle
  import opened Arithmetic

  const MAX_FILE_TREE_DEPTH: nat := 256
  const MAX_FILE_COUNT: nat := 1_000_000

  type Path = seq<string>

  datatype Properties = Properties(length: int, piecesRoot: Option<Bytes>, attr: Option<string>)

  /** A node of a decoded file tree: a dictionary in its order, the properties of a file, or anything else. */
  datatype Node = Dictionary(entries: seq<Named>) | FileProperties(properties: Properties) | NoDictionary

  datatype Named = Named(name: string, node: Node)

  datatype Found = Found(path: Path, properties: Properties)

  datatype FileEntry = FileEntry(path: Path, properties: Properties, pieceStart: nat, pieceCount: nat)

  predicate IsSafeComponent(name: string) {
    name != "" && name != "." && name != ".." && '/' !in name && '\\' !in name && '\0' !in name
  }

  predicate IsTerminal(entries: seq<Named>) {
    exists i :: 0 <= i < |entries| && entries[i].name == ""
  }

  /** What the only entry of a terminal dictionary yields. */
  function TerminalFile(entries: seq<Named>, path: Path): Option<seq<Found>> {
    if path == [] || |entries| != 1 || !entries[0].node.FileProperties? then None
    else
      var properties := entries[0].node.properties;
      if properties.length < 0 || !IsSafe(properties.length) then None else Some([Found(path, properties)])
  }

  function Join(a: Option<seq<Found>>, b: Option<seq<Found>>): Option<seq<Found>> {
    if a.Some? && b.Some? then Some(a.value + b.value) else None
  }

  /** The files of a tree in pre-order, if the tree is valid. */
  function Files(node: Node, path: Path, depth: nat): Option<seq<Found>>
    decreases node, 1
  {
    if depth > MAX_FILE_TREE_DEPTH || !node.Dictionary? || node.entries == [] then None
    else if IsTerminal(node.entries) then TerminalFile(node.entries, path)
    else FilesOf(node.entries, path, depth)
  }

  function FilesOf(entries: seq<Named>, path: Path, depth: nat): Option<seq<Found>>
    decreases entries, 0
  {
    if entries == [] then Some([])
    else if !IsSafeComponent(entries[0].name) || entries[0].node.NoDictionary? then None
    else Join(Files(entries[0].node, path + [entries[0].name], depth + 1), FilesOf(entries[1..], path, depth))
  }

  function PieceCount(length: int, pieceLength: nat): nat
    requires length >= 0 && pieceLength > 0
  {
    (length + pieceLength - 1) / pieceLength
  }

  predicate ValidLengths(found: seq<Found>) {
    forall i :: 0 <= i < |found| ==> found[i].properties.length >= 0
  }

  function TotalPieces(found: seq<Found>, pieceLength: nat): nat
    requires pieceLength > 0 && ValidLengths(found)
  {
    if found == [] then 0
    else TotalPieces(found[..|found| - 1], pieceLength) + PieceCount(found[|found| - 1].properties.length, pieceLength)
  }

  /** Files placed one behind the other: each starts at the piece where its predecessors end. */
  function Placed(found: seq<Found>, pieceLength: nat): (r: seq<FileEntry>)
    requires pieceLength > 0 && ValidLengths(found)
    ensures |r| == |found|
  {
    if found == [] then []
    else
      var front, last := found[..|found| - 1], found[|found| - 1];
      Placed(front, pieceLength) +
      [FileEntry(last.path, last.properties, TotalPieces(front, pieceLength), PieceCount(last.properties.length, pieceLength))]
  }

  /** The valid result: a safe piece length, a valid tree, and no more than the permitted number of files. */
  function Flattened(root: Node, pieceLength: nat): Option<seq<Found>> {
    if !(IsSafe(pieceLength) && pieceLength >= BLOCK_LENGTH && Pow2(CeilLog2(pieceLength)) == pieceLength) then None
    else
      match Files(root, [], 0)
      case None => None
      case Some(found) => if |found| == 0 || |found| > MAX_FILE_COUNT then None else Some(found)
  }

  lemma {:induction false} FilesHaveLengths(node: Node, path: Path, depth: nat)
    ensures Files(node, path, depth).Some? ==> ValidLengths(Files(node, path, depth).value)
    decreases node, 1
  {
    if node.Dictionary? {
      FilesOfHaveLengths(node.entries, path, depth);
    }
  }

  lemma {:induction false} FilesOfHaveLengths(entries: seq<Named>, path: Path, depth: nat)
    ensures FilesOf(entries, path, depth).Some? ==> ValidLengths(FilesOf(entries, path, depth).value)
    decreases entries, 0
  {
    if entries == [] {
    } else {
      FilesHaveLengths(entries[0].node, path + [entries[0].name], depth + 1);
      FilesOfHaveLengths(entries[1..], path, depth);
    }
  }

  // ---- The stack walk ----

  datatype Item = Item(node: Node, path: Path, depth: nat)

  function Size(node: Node): nat
    decreases node, 1
  {
    if node.Dictionary? then 1 + SizeOf(node.entries) else 1
  }

  function SizeOf(entries: seq<Named>): nat
    decreases entries, 0
  {
    if entries == [] then 0 else Size(entries[0].node) + SizeOf(entries[1..])
  }

  function StackSize(stack: seq<Item>): nat {
    if stack == [] then 0 else StackSize(stack[..|stack| - 1]) + Size(stack[|stack| - 1].node)
  }

  /** The files still to come: those of the top of the stack first. */
  ghost function Pending(stack: seq<Item>): Option<seq<Found>> {
    if stack == [] then Some([])
    else
      var top := stack[|stack| - 1];
      Join(Files(top.node, top.path, top.depth), Pending(stack[..|stack| - 1]))
  }

  lemma TopIsPending(stack: seq<Item>)
    requires stack != []
    ensures var top, below := stack[|stack| - 1], stack[..|stack| - 1];
      && Pending(stack) == Join(Files(top.node, top.path, top.depth), Pending(below))
      && StackSize(stack) == StackSize(below) + Size(top.node)
  {
    hide Files, Size, Join;
  }

  lemma NothingPending()
    ensures Pending([]) == Some([]) && StackSize([]) == 0
  {
  }

  lemma RootIsPending(root: Node)
    ensures Join(Some([]), Pending([Item(root, [], 0)])) == Files(root, [], 0)
  {
    hide Files;
    assert [Item(root, [], 0)][..0] == [];
    assert Pending([]) == Some([]);
    if Files(root, [], 0).Some? {
      assert Files(root, [], 0).value + [] == Files(root, [], 0).value;
      assert [] + Files(root, [], 0).value == Files(root, [], 0).value;
    }
  }

  lemma VisitNode(node: Node, path: Path, depth: nat)
    ensures depth > MAX_FILE_TREE_DEPTH || !node.Dictionary? || node.entries == [] ==> Files(node, path, depth) == None
    ensures depth <= MAX_FILE_TREE_DEPTH && node.Dictionary? && node.entries != [] ==>
      && Files(node, path, depth) ==
           (if IsTerminal(node.entries) then TerminalFile(node.entries, path) else FilesOf(node.entries, path, depth))
      && Size(node) == 1 + SizeOf(node.entries)
    ensures Size(node) >= 1
  {
    hide IsTerminal, TerminalFile, FilesOf, SizeOf;
  }

  /** An invalid node anywhere makes the whole tree invalid. */
  lemma NoneSpreads(found: seq<Found>, rest: Option<seq<Found>>)
    ensures Join(Some(found), Join(None, rest)) == None
  {
  }

  lemma FoundIsPlaced(found: seq<Found>, file: Found, pieceLength: nat)
    requires pieceLength > 0 && ValidLengths(found) && file.properties.length >= 0
    ensures ValidLengths(found + [file])
    ensures var count := PieceCount(file.properties.length, pieceLength);
      && Placed(found + [file], pieceLength) ==
           Placed(found, pieceLength) + [FileEntry(file.path, file.properties, TotalPieces(found, pieceLength), count)]
      && TotalPieces(found + [file], pieceLength) == TotalPieces(found, pieceLength) + count
  {
    hide PieceCount;
    assert (found + [file])[..|found|] == found;
  }

  lemma AllFound(found: seq<Found>)
    ensures Join(Some(found), Some([])) == Some(found)
  {
    assert found + [] == found;
  }

  lemma TooMany(root: Node, pieceLength: nat, found: seq<Found>, rest: Option<seq<Found>>)
    requires Join(Some(found), rest) == Files(root, [], 0) && |found| > MAX_FILE_COUNT
    ensures Flattened(root, pieceLength) == None
  {
    hide Files, Pow2, CeilLog2;
  }

  lemma FlattenedFrom(root: Node, pieceLength: nat)
    ensures Files(root, [], 0) == None ==> Flattened(root, pieceLength) == None
    ensures !root.Dictionary? ==> Files(root, [], 0) == None
  {
    hide FilesOf, Pow2, CeilLog2, IsTerminal;
  }

  method FlattenV2Files(root: Node, pieceLength: nat) returns (r: Option<seq<FileEntry>>)
    ensures r.Some? <==> Flattened(root, pieceLength).Some?
    ensures r.Some? ==> ValidLengths(Flattened(root, pieceLength).value)
    ensures r.Some? ==> r.value == Placed(Flattened(root, pieceLength).value, pieceLength)
  {
    hide Pow2, CeilLog2, PieceCount, Files, FilesOf, Pending, StackSize, Size, SizeOf, Placed, TotalPieces, Join, IsTerminal, ValidLengths;
    if !(IsSafe(pieceLength) && pieceLength >= BLOCK_LENGTH && Pow2(CeilLog2(pieceLength)) == pieceLength) {
      return None;
    }
    FlattenedFrom(root, pieceLength);
    if !root.Dictionary? {
      return None;
    }
    var stack := [Item(root, [], 0)];
    var files: seq<FileEntry>, pieceStart: nat := [], 0;
    ghost var found: seq<Found> := [];
    RootIsPending(root);
    NothingPlaced(pieceLength);
    while stack != []
      invariant Join(Some(found), Pending(stack)) == Files(root, [], 0)
      invariant ValidLengths(found) && |found| <= MAX_FILE_COUNT
      invariant files == Placed(found, pieceLength) && pieceStart == TotalPieces(found, pieceLength)
      decreases StackSize(stack)
    {
      TopIsPending(stack);
      var current := stack[|stack| - 1];
      ghost var below := stack[..|stack| - 1];
      stack := stack[..|stack| - 1];
      VisitNode(current.node, current.path, current.depth);
      NoneSpreads(found, Pending(below));
      if current.depth > MAX_FILE_TREE_DEPTH || !current.node.Dictionary? {
        return None;
      }
      var entries := current.node.entries;
      if entries == [] {
        return None;
      }
      if IsTerminal(entries) {
        if current.path == [] || |entries| != 1 || !entries[0].node.FileProperties? {
          return None;
        }
        var properties := entries[0].node.properties;
        if properties.length < 0 || !IsSafe(properties.length) {
          return None;
        }
        var pieceCount := PieceCount(properties.length, pieceLength);
        files := files + [FileEntry(current.path, properties, pieceStart, pieceCount)];
        pieceStart := pieceStart + pieceCount;
        FoundIsPlaced(found, Found(current.path, properties), pieceLength);
        found := Append(found, Found(current.path, properties), Pending(stack));
        if |files| > MAX_FILE_COUNT {
          TooMany(root, pieceLength, found, Pending(stack));
          return None;
        }
      } else {
        var pushed := PushChildren(stack, entries, current.path, current.depth);
        if pushed.None? {
          return None;
        }
        stack := pushed.value;
      }
    }
    NothingPending();
    AllFound(found);
    if |files| == 0 {
      return None;
    }
    return Some(files);
  }

  lemma NothingPlaced(pieceLength: nat)
    requires pieceLength > 0
    ensures ValidLengths([]) && Placed([], pieceLength) == [] && TotalPieces([], pieceLength) == 0
  {
  }

  ghost function Append(found: seq<Found>, file: Found, rest: Option<seq<Found>>): (r: seq<Found>)
    ensures r == found + [file] && r[..|r| - 1] == found
    ensures Join(Some(r), rest) == Join(Some(found), Join(Some([file]), rest))
  {
    if rest.Some? then assert found + [file] + rest.value == found + ([file] + rest.value); found + [file]
    else found + [file]
  }

  lemma JoinAssociates(a: Option<seq<Found>>, b: Option<seq<Found>>, c: Option<seq<Found>>)
    ensures Join(a, Join(b, c)) == Join(Join(a, b), c)
  {
    if a.Some? && b.Some? && c.Some? {
      assert a.value + (b.value + c.value) == a.value + b.value + c.value;
    }
  }

  /** Children go onto the stack in reverse, so that the first comes off first. */
  method PushChildren(below: seq<Item>, entries: seq<Named>, path: Path, depth: nat) returns (r: Option<seq<Item>>)
    ensures r.None? ==> FilesOf(entries, path, depth) == None
    ensures r.Some? ==> Pending(r.value) == Join(FilesOf(entries, path, depth), Pending(below))
    ensures r.Some? ==> StackSize(r.value) == StackSize(below) + SizeOf(entries)
  {
    hide Files, Size;
    var stack := below;
    var index := |entries|;
    assert entries[|entries|..] == [];
    if Pending(below).Some? { assert [] + Pending(below).value == Pending(below).value; }
    while index > 0
      invariant 0 <= index <= |entries|
      invariant Pending(stack) == Join(FilesOf(entries[index..], path, depth), Pending(below))
      invariant StackSize(stack) == StackSize(below) + SizeOf(entries[index..])
    {
      index := index - 1;
      var child := entries[index];
      assert entries[index..][0] == child && entries[index..][1..] == entries[index + 1..];
      if !IsSafeComponent(child.name) || child.node.NoDictionary? {
        FilesOfSuffix(entries, index, path, depth);
        return None;
      }
      var item := Item(child.node, path + [child.name], depth + 1);
      assert (stack + [item])[..|stack|] == stack;
      JoinAssociates(Files(item.node, item.path, item.depth), FilesOf(entries[index + 1..], path, depth), Pending(below));
      stack := stack + [item];
    }
    assert entries[0..] == entries;
    return Some(stack);
  }

  lemma {:induction false} FilesOfSuffix(entries: seq<Named>, k: nat, path: Path, depth: nat)
    requires k <= |entries| && FilesOf(entries[k..], path, depth) == None
    ensures FilesOf(entries, path, depth) == None
  {
    hide Files;
    if k > 0 {
      assert entries[1..][k - 1..] == entries[k..];
      FilesOfSuffix(entries[1..], k - 1, path, depth);
    } else {
      assert entries[0..] == entries;
    }
  }

  lemma PieceCountBounds(length: int, pieceLength: nat)
    requires length >= 0 && pieceLength > 0
    ensures (PieceCount(length, pieceLength) - 1) * pieceLength < length <= PieceCount(length, pieceLength) * pieceLength
  {
    var x: nat := length + pieceLength - 1;
    DivMod(x, pieceLength);
    var q := x / pieceLength;
    assert (q - 1) * pieceLength == q * pieceLength - pieceLength;
  }

  /** Consecutive files occupy consecutive piece ranges, from piece zero on. */
  lemma {:induction false} RangesAreContiguous(found: seq<Found>, pieceLength: nat, i: nat)
    requires pieceLength > 0 && ValidLengths(found) && i < |found|
    ensures var files := Placed(found, pieceLength);
      && files[i].path == found[i].path && files[i].properties == found[i].properties
      && files[i].pieceStart == (if i == 0 then 0 else files[i - 1].pieceStart + files[i - 1].pieceCount)
      && (files[i].pieceCount - 1) * pieceLength < found[i].properties.length <= files[i].pieceCount * pieceLength
  {
    hide PieceCount;
    var n := |found|;
    var front := found[..n - 1];
    PieceCountBounds(found[i].properties.length, pieceLength);
    if i < n - 1 {
      RangesAreContiguous(front, pieceLength, i);
    } else if n >= 2 {
      var before := front[..n - 2];
      assert Placed(found, pieceLength)[n - 2] == Placed(front, pieceLength)[n - 2];
    }
  }

  // ---- Padded layouts ----

  /** An entry of a version 1 file list: a real file, or padding. */
  datatype PieceFile = Real(path: Path, length: nat) | Padding(length: nat)

  /** The layout of the files from index `i` on, `offset` being the position in the current piece. */
  function LayoutFrom(found: seq<Found>, pieceSize: nat, i: nat, offset: nat): seq<PieceFile>
    requires pieceSize > 0 && i <= |found| && ValidLengths(found) && offset < pieceSize
    decreases |found| - i
  {
    if i == |found| then []
    else
      var length := found[i].properties.length;
      var file := Real(found[i].path, length);
      if length > 0 && offset > 0 then
        [Padding(pieceSize - offset), file] + LayoutFrom(found, pieceSize, i + 1, length % pieceSize)
      else [file] + LayoutFrom(found, pieceSize, i + 1, (offset + length) % pieceSize)
  }

  method BuildPieceFiles(found: seq<Found>, pieceSize: nat) returns (layout: seq<PieceFile>)
    requires pieceSize > 0 && ValidLengths(found)
    ensures layout == LayoutFrom(found, pieceSize, 0, 0)
  {
    hide LayoutFrom;
    layout := [];
    var pieceOffset: nat := 0;
    for index := 0 to |found|
      invariant pieceOffset < pieceSize
      invariant layout + LayoutFrom(found, pieceSize, index, pieceOffset) == LayoutFrom(found, pieceSize, 0, 0)
    {
      var length := found[index].properties.length;
      LayoutStep(found, pieceSize, index, pieceOffset);
      ghost var before := layout;
      if length > 0 && pieceOffset > 0 {
        layout := layout + [Padding(pieceSize - pieceOffset)];
        pieceOffset := 0;
      }
      ghost var file := [Real(found[index].path, length)];
      ghost var rest := LayoutFrom(found, pieceSize, index + 1, (pieceOffset + length) % pieceSize);
      RegroupLayout(before, layout[|before|..], file, rest);
      layout := layout + [Real(found[index].path, length)];
      pieceOffset := (pieceOffset + length) % pieceSize;
    }
    NothingLeft(found, pieceSize, pieceOffset);
  }

  lemma RegroupLayout(a: seq<PieceFile>, b: seq<PieceFile>, c: seq<PieceFile>, d: seq<PieceFile>)
    ensures a + b + c + d == a + (b + (c + d)) && a + (c + d) == a + c + d
  {
  }

  lemma NothingLeft(found: seq<Found>, pieceSize: nat, offset: nat)
    requires pieceSize > 0 && ValidLengths(found) && offset < pieceSize
    ensures LayoutFrom(found, pieceSize, |found|, offset) == []
  {
  }

  lemma LayoutStep(found: seq<Found>, pieceSize: nat, i: nat, offset: nat)
    requires pieceSize > 0 && i < |found| && ValidLengths(found) && offset < pieceSize
    ensures var length := found[i].properties.length;
      LayoutFrom(found, pieceSize, i, offset) ==
      if length > 0 && offset > 0
      then [Padding(pieceSize - offset)] + ([Real(found[i].path, length)] + LayoutFrom(found, pieceSize, i + 1, length % pieceSize))
      else [Real(found[i].path, length)] + LayoutFrom(found, pieceSize, i + 1, (offset + length) % pieceSize)
  {
  }

  function RealCount(layout: seq<PieceFile>): nat {
    if layout == [] then 0 else (if layout[0].Real? then 1 else 0) + RealCount(layout[1..])
  }

  /** The byte offset at which the real file number `k` of a layout begins (the end, if there is none). */
  function RealOffset(layout: seq<PieceFile>, k: nat): nat {
    if layout == [] then 0
    else if layout[0].Padding? then layout[0].length + RealOffset(layout[1..], k)
    else if k == 0 then 0
    else layout[0].length + RealOffset(layout[1..], k - 1)
  }

  /** The real files of a layout, in order. */
  function Reals(layout: seq<PieceFile>): (r: seq<PieceFile>)
    ensures |r| == RealCount(layout) && forall file <- r :: file.Real?
  {
    if layout == [] then []
    else if layout[0].Real? then [layout[0]] + Reals(layout[1..])
    else Reals(layout[1..])
  }

  /** What a hybrid torrent demands: the same files in both lists, each but the first at the start of a piece. */
  predicate LayoutMatches(layout: seq<PieceFile>, found: seq<Found>, pieceLength: nat)
    requires pieceLength > 0
  {
    && |Reals(layout)| == |found|
    && forall k :: 0 <= k < |found| ==>
         && Reals(layout)[k].length == found[k].properties.length && Reals(layout)[k].path == found[k].path
         && (k > 0 ==> RealOffset(layout, k) % pieceLength == 0)
  }

  /** The check of the real files from a given position on: alignment, then length and path. */
  predicate AgreesFrom(layout: seq<PieceFile>, found: seq<Found>, pieceLength: nat, offset: nat, seen: nat)
    requires pieceLength > 0 && seen + RealCount(layout) == |found|
  {
    layout == [] ||
    if layout[0].Padding? then AgreesFrom(layout[1..], found, pieceLength, offset + layout[0].length, seen)
    else
      && (offset % pieceLength == 0 || seen == 0)
      && layout[0].length == found[seen].properties.length && layout[0].path == found[seen].path
      && AgreesFrom(layout[1..], found, pieceLength, offset + layout[0].length, seen + 1)
  }

  /** Real file `k` of this part of a layout passes the check, `offset` bytes and `seen` real files behind the start. */
  predicate FileMatches(layout: seq<PieceFile>, found: seq<Found>, pieceLength: nat, offset: nat, seen: nat, k: nat)
    requires pieceLength > 0 && seen + RealCount(layout) == |found| && k < |Reals(layout)|
  {
    && Reals(layout)[k].length == found[seen + k].properties.length && Reals(layout)[k].path == found[seen + k].path
    && (seen + k > 0 ==> (offset + RealOffset(layout, k)) % pieceLength == 0)
  }

  lemma {:induction false} AgreesIsAllMatch(layout: seq<PieceFile>, found: seq<Found>, pieceLength: nat, offset: nat, seen: nat)
    requires pieceLength > 0 && seen + RealCount(layout) == |found|
    ensures AgreesFrom(layout, found, pieceLength, offset, seen) <==>
      forall k :: 0 <= k < |Reals(layout)| ==> FileMatches(layout, found, pieceLength, offset, seen, k)
  {
    hide FileMatches;
    if layout == [] {
    } else {
      var more := offset + layout[0].length;
      if layout[0].Padding? {
        AgreesIsAllMatch(layout[1..], found, pieceLength, more, seen);
        forall k | 0 <= k < |Reals(layout)|
          ensures FileMatches(layout, found, pieceLength, offset, seen, k) <==> FileMatches(layout[1..], found, pieceLength, more, seen, k)
        {
          PastPadding(layout, found, pieceLength, offset, seen, k);
        }
      } else {
        AgreesIsAllMatch(layout[1..], found, pieceLength, more, seen + 1);
        FirstMatches(layout, found, pieceLength, offset, seen);
        forall k {:trigger FileMatches(layout[1..], found, pieceLength, more, seen + 1, k)} | 0 <= k < |Reals(layout[1..])|
          ensures FileMatches(layout, found, pieceLength, offset, seen, k + 1) <==> FileMatches(layout[1..], found, pieceLength, more, seen + 1, k)
        {
          PastReal(layout, found, pieceLength, offset, seen, k);
        }
        forall k | 0 < k < |Reals(layout)|
          ensures FileMatches(layout, found, pieceLength, offset, seen, k) <==> FileMatches(layout[1..], found, pieceLength, more, seen + 1, k - 1)
        {
          PastReal(layout, found, pieceLength, offset, seen, k - 1);
        }
      }
    }
  }

  lemma PastPadding(layout: seq<PieceFile>, found: seq<Found>, pieceLength: nat, offset: nat, seen: nat, k: nat)
    requires pieceLength > 0 && seen + RealCount(layout) == |found| && layout != [] && layout[0].Padding? && k < |Reals(layout)|
    ensures FileMatches(layout, found, pieceLength, offset, seen, k) <==>
      FileMatches(layout[1..], found, pieceLength, offset + layout[0].length, seen, k)
  {
  }

  lemma FirstMatches(layout: seq<PieceFile>, found: seq<Found>, pieceLength: nat, offset: nat, seen: nat)
    requires pieceLength > 0 && seen + RealCount(layout) == |found| && layout != [] && layout[0].Real?
    ensures FileMatches(layout, found, pieceLength, offset, seen, 0) <==>
      && (offset % pieceLength == 0 || seen == 0)
      && layout[0].length == found[seen].properties.length && layout[0].path == found[seen].path
  {
  }

  lemma PastReal(layout: seq<PieceFile>, found: seq<Found>, pieceLength: nat, offset: nat, seen: nat, k: nat)
    requires pieceLength > 0 && seen + RealCount(layout) == |found| && layout != [] && layout[0].Real? && k < |Reals(layout[1..])|
    ensures FileMatches(layout, found, pieceLength, offset, seen, k + 1) <==>
      FileMatches(layout[1..], found, pieceLength, offset + layout[0].length, seen + 1, k)
  {
    hide Reals, RealOffset, RealCount;
    RestOfReals(layout, k);
    assert offset + RealOffset(layout, k + 1) == (offset + layout[0].length) + RealOffset(layout[1..], k);
  }

  lemma RestOfReals(layout: seq<PieceFile>, k: nat)
    requires layout != [] && layout[0].Real? && k < |Reals(layout[1..])|
    ensures Reals(layout) == [layout[0]] + Reals(layout[1..]) && RealCount(layout) == 1 + RealCount(layout[1..])
    ensures RealOffset(layout, k + 1) == layout[0].length + RealOffset(layout[1..], k)
  {
  }

  lemma AgreesWhenMatching(layout: seq<PieceFile>, found: seq<Found>, pieceLength: nat)
    requires pieceLength > 0
    ensures LayoutMatches(layout, found, pieceLength) <==>
      RealCount(layout) == |found| && AgreesFrom(layout, found, pieceLength, 0, 0)
  {
    hide AgreesFrom, Reals, RealCount, RealOffset;
    if RealCount(layout) == |found| {
      AgreesIsAllMatch(layout, found, pieceLength, 0, 0);
      forall k | 0 <= k < |found|
        ensures FileMatches(layout, found, pieceLength, 0, 0, k) <==>
          && Reals(layout)[k].length == found[k].properties.length && Reals(layout)[k].path == found[k].path
          && (k > 0 ==> RealOffset(layout, k) % pieceLength == 0)
      {
      }
    }
  }

  method ValidateHybridLayout(layout: seq<PieceFile>, found: seq<Found>, pieceLength: nat) returns (ok: bool)
    requires pieceLength > 0
    ensures ok <==> LayoutMatches(layout, found, pieceLength)
  {
    if RealCount(layout) != |found| {
      return false;
    }
    hide LayoutMatches;
    AgreesWhenMatching(layout, found, pieceLength);
    var offset, seen := 0, 0;
    assert layout[0..] == layout;
    for k := 0 to |layout|
      invariant offset >= 0 && 0 <= seen && seen + RealCount(layout[k..]) == |found|
      invariant AgreesFrom(layout[k..], found, pieceLength, offset, seen) == AgreesFrom(layout, found, pieceLength, 0, 0)
    {
      var file := layout[k];
      assert layout[k..][0] == file && layout[k..][1..] == layout[k + 1..];
      if file.Real? {
        if offset % pieceLength != 0 && seen > 0 {
          return false;
        }
        if file.length != found[seen].properties.length || file.path != found[seen].path {
          return false;
        }
        seen := seen + 1;
      }
      offset := offset + file.length;
    }
    return true;
  }

  // ---- When a padded layout is accepted ----

  /** The last non-empty file of those before index `i`, if any, fills whole pieces. */
  predicate TailAligned(found: seq<Found>, pieceSize: nat, i: nat)
    requires pieceSize > 0 && i <= |found|
  {
    i == 0 ||
    if found[i - 1].properties.length != 0 then found[i - 1].properties.length % pieceSize == 0
    else TailAligned(found, pieceSize, i - 1)
  }

  /** Every empty file but a first one follows, skipping empty files, a file that fills whole pieces. */
  predicate EmptyFilesAligned(found: seq<Found>, pieceSize: nat)
    requires pieceSize > 0
  {
    forall i :: 1 <= i < |found| && found[i].properties.length == 0 ==> TailAligned(found, pieceSize, i)
  }

  predicate EmptyFilesAlignedFrom(found: seq<Found>, pieceSize: nat, k: nat)
    requires pieceSize > 0
  {
    forall i :: 1 <= i && k <= i < |found| && found[i].properties.length == 0 ==> TailAligned(found, pieceSize, i)
  }

  lemma {:induction false} LayoutAgreesFrom(found: seq<Found>, pieceSize: nat, i: nat, total: nat)
    requires pieceSize > 0 && i <= |found| && ValidLengths(found)
    requires i == 0 ==> total == 0
    requires total % pieceSize == 0 <==> TailAligned(found, pieceSize, i)
    ensures RealCount(LayoutFrom(found, pieceSize, i, total % pieceSize)) == |found| - i
    ensures AgreesFrom(LayoutFrom(found, pieceSize, i, total % pieceSize), found, pieceSize, total, i) <==>
      EmptyFilesAlignedFrom(found, pieceSize, i)
    decreases |found| - i
  {
    hide RealCount, AgreesFrom, LayoutFrom, TailAligned;
    if i == |found| {
      NoLayout(found, pieceSize, total % pieceSize, total);
    } else {
      var length := found[i].properties.length;
      var file, offset := Real(found[i].path, length), total % pieceSize;
      var start := if length > 0 && offset > 0 then total + (pieceSize - offset) else total;
      StartIsAligned(found, pieceSize, i, total, start);
      LayoutAgreesFrom(found, pieceSize, i + 1, start + length);
      var rest := LayoutFrom(found, pieceSize, i + 1, (start + length) % pieceSize);
      AgreesStep(file, rest, found, pieceSize, start, i);
      LayoutIs(found, pieceSize, i, total, start);
      if length > 0 && offset > 0 {
        PaddingAgrees(pieceSize - offset, [file] + rest, found, pieceSize, total, i);
      }
      AlignedFrom(found, pieceSize, i);
    }
  }

  lemma NoLayout(found: seq<Found>, pieceSize: nat, offset: nat, total: nat)
    requires pieceSize > 0 && offset < pieceSize && ValidLengths(found)
    ensures RealCount(LayoutFrom(found, pieceSize, |found|, offset)) == 0
    ensures AgreesFrom(LayoutFrom(found, pieceSize, |found|, offset), found, pieceSize, total, |found|)
    ensures EmptyFilesAlignedFrom(found, pieceSize, |found|)
  {
  }

  /** Where a file starts, and that what lies behind it is aligned exactly when its tail is. */
  lemma StartIsAligned(found: seq<Found>, pieceSize: nat, i: nat, total: nat, start: nat)
    requires pieceSize > 0 && i < |found| && ValidLengths(found)
    requires start == if found[i].properties.length > 0 && total % pieceSize > 0 then total + (pieceSize - total % pieceSize) else total
    requires total % pieceSize == 0 <==> TailAligned(found, pieceSize, i)
    ensures (start + found[i].properties.length) % pieceSize == 0 <==> TailAligned(found, pieceSize, i + 1)
    ensures start % pieceSize == 0 || (found[i].properties.length == 0 && start == total)
  {
    var length: nat := found[i].properties.length;
    PadsUp(total, pieceSize);
    ModAdds(start, length, pieceSize);
  }

  lemma LayoutIs(found: seq<Found>, pieceSize: nat, i: nat, total: nat, start: nat)
    requires pieceSize > 0 && i < |found| && ValidLengths(found)
    requires start == if found[i].properties.length > 0 && total % pieceSize > 0 then total + (pieceSize - total % pieceSize) else total
    ensures var length, offset := found[i].properties.length, total % pieceSize;
      var rest := [Real(found[i].path, length)] + LayoutFrom(found, pieceSize, i + 1, (start + length) % pieceSize);
      LayoutFrom(found, pieceSize, i, offset) ==
      if length > 0 && offset > 0 then [Padding(pieceSize - offset)] + rest else rest
  {
    hide LayoutFrom;
    var length: nat := found[i].properties.length;
    LayoutStep(found, pieceSize, i, total % pieceSize);
    PadsUp(total, pieceSize);
    ModAdds(start, length, pieceSize);
  }

  lemma PaddingAgrees(padding: nat, layout: seq<PieceFile>, found: seq<Found>, pieceSize: nat, offset: nat, seen: nat)
    requires pieceSize > 0 && seen + RealCount(layout) == |found|
    ensures RealCount([Padding(padding)] + layout) == RealCount(layout)
    ensures AgreesFrom([Padding(padding)] + layout, found, pieceSize, offset, seen) <==>
      AgreesFrom(layout, found, pieceSize, offset + padding, seen)
  {
    assert ([Padding(padding)] + layout)[1..] == layout;
  }

  lemma AlignedFrom(found: seq<Found>, pieceSize: nat, i: nat)
    requires pieceSize > 0 && i < |found|
    ensures EmptyFilesAlignedFrom(found, pieceSize, i) <==>
      (i >= 1 && found[i].properties.length == 0 ==> TailAligned(found, pieceSize, i)) && EmptyFilesAlignedFrom(found, pieceSize, i + 1)
  {
    hide TailAligned;
  }

  lemma AgreesStep(file: PieceFile, rest: seq<PieceFile>, found: seq<Found>, pieceSize: nat, offset: nat, seen: nat)
    requires pieceSize > 0 && file.Real? && seen + 1 + RealCount(rest) == |found|
    ensures RealCount([file] + rest) == 1 + RealCount(rest)
    ensures AgreesFrom([file] + rest, found, pieceSize, offset, seen) <==>
      && (offset % pieceSize == 0 || seen == 0)
      && file.length == found[seen].properties.length && file.path == found[seen].path
      && AgreesFrom(rest, found, pieceSize, offset + file.length, seen + 1)
  {
    assert ([file] + rest)[1..] == rest;
  }

  /**
   The padded version 1 layout of any list of files is accepted against the version 2 file list
   exactly when no empty file after the first stands where the data before it ends inside a piece.
   */
  lemma PaddedLayoutIsAccepted(found: seq<Found>, pieceSize: nat)
    requires pieceSize > 0 && ValidLengths(found)
    ensures LayoutMatches(LayoutFrom(found, pieceSize, 0, 0), found, pieceSize) <==> EmptyFilesAligned(found, pieceSize)
    ensures (forall i :: 0 <= i < |found| ==> found[i].properties.length > 0) ==>
      LayoutMatches(LayoutFrom(found, pieceSize, 0, 0), found, pieceSize)
  {
    hide LayoutMatches, LayoutFrom, AgreesFrom;
    LayoutAgreesFrom(found, pieceSize, 0, 0);
    AgreesWhenMatching(LayoutFrom(found, pieceSize, 0, 0), found, pieceSize);
  }

  /** An empty file behind a file that ends inside a piece: the builder's own layout is rejected. */
  lemma EmptyFileMayBeRejected()
    ensures var found := [Found(["a"], Properties(1, None, None)), Found(["b"], Properties(0, None, None))];
      !LayoutMatches(LayoutFrom(found, BLOCK_LENGTH, 0, 0), found, BLOCK_LENGTH)
  {
    var found := [Found(["a"], Properties(1, None, None)), Found(["b"], Properties(0, None, None))];
    PaddedLayoutIsAccepted(found, BLOCK_LENGTH);
    assert found[1].properties.length == 0 && !TailAligned(found, BLOCK_LENGTH, 1);
  }

  // ---- Version 1 offsets are version 2 piece starts ----

  /** Where real file `k` begins, seen past an optional padding and one file. */
  lemma OffsetStep(padded: bool, padding: nat, file: PieceFile, rest: seq<PieceFile>, k: nat)
    requires file.Real?
    ensures var layout := (if padded then [Padding(padding)] + ([file] + rest) else [file] + rest);
      RealOffset(layout, k) ==
        (if padded then padding else 0) + if k == 0 then 0 else file.length + RealOffset(rest, k - 1)
  {
    var inner := [file] + rest;
    assert inner[1..] == rest;
    if padded {
      assert ([Padding(padding)] + inner)[1..] == inner;
    }
  }

  /** File `i` begins at `start`; the rest of the layout is the layout of the files behind it. */
  lemma StepFrom(found: seq<Found>, pieceSize: nat, i: nat, total: nat, k: nat) returns (start: nat)
    requires pieceSize > 0 && i + k < |found| && ValidLengths(found)
    ensures start == if found[i].properties.length > 0 && total % pieceSize > 0 then total + (pieceSize - total % pieceSize) else total
    ensures found[i].properties.length > 0 ==> start == (total + pieceSize - 1) / pieceSize * pieceSize
    ensures k == 0 ==> total + RealOffset(LayoutFrom(found, pieceSize, i, total % pieceSize), k) == start
    ensures k > 0 ==>
        var length := found[i].properties.length;
        total + RealOffset(LayoutFrom(found, pieceSize, i, total % pieceSize), k) ==
        start + length + RealOffset(LayoutFrom(found, pieceSize, i + 1, (start + length) % pieceSize), k - 1)
  {
    hide RealOffset, LayoutFrom;
    var length, offset := found[i].properties.length, total % pieceSize;
    var padded := length > 0 && offset > 0;
    start := if padded then total + (pieceSize - offset) else total;
    LayoutStep(found, pieceSize, i, offset);
    PadsUp(total, pieceSize);
    ModAdds(start, length, pieceSize);
    var rest := LayoutFrom(found, pieceSize, i + 1, (start + length) % pieceSize);
    OffsetStep(padded, if padded then pieceSize - offset else 0, Real(found[i].path, length), rest, k);
  }

  /** The pieces of the first `i` files are those that `total` bytes of layout reach into. */
  predicate PiecesReach(found: seq<Found>, pieceSize: nat, i: nat, total: nat)
    requires pieceSize > 0 && i <= |found| && ValidLengths(found)
  {
    TotalPieces(found[..i], pieceSize) == (total + pieceSize - 1) / pieceSize
  }

  /** File `k` begins, in the layout from file `i` on behind `total` bytes, where its piece range begins. */
  predicate OffsetMatches(found: seq<Found>, pieceSize: nat, i: nat, total: nat, k: nat)
    requires pieceSize > 0 && i <= k < |found| && ValidLengths(found)
  {
    total + RealOffset(LayoutFrom(found, pieceSize, i, total % pieceSize), k - i) ==
    TotalPieces(found[..k], pieceSize) * pieceSize
  }

  lemma {:induction false} OffsetIsPieceStart(found: seq<Found>, pieceSize: nat, i: nat, total: nat, k: nat)
    requires pieceSize > 0 && i <= k < |found| && ValidLengths(found) && found[k].properties.length > 0
    requires PiecesReach(found, pieceSize, i, total)
    ensures OffsetMatches(found, pieceSize, i, total, k)
    decreases k - i
  {
    hide RealOffset, LayoutFrom, TotalPieces;
    var start := StepFrom(found, pieceSize, i, total, k - i);
    if i >= k {
    } else {
      var length: nat := found[i].properties.length;
      hide PiecesReach;
      NextTotal(found, pieceSize, i, total, start, length);
      OffsetIsPieceStart(found, pieceSize, i + 1, start + length, k);
    }
  }

  lemma NextTotal(found: seq<Found>, pieceSize: nat, i: nat, total: nat, start: nat, length: nat)
    requires pieceSize > 0 && i < |found| && ValidLengths(found) && length == found[i].properties.length
    requires PiecesReach(found, pieceSize, i, total)
    requires start == if length > 0 && total % pieceSize > 0 then total + (pieceSize - total % pieceSize) else total
    ensures PiecesReach(found, pieceSize, i + 1, start + length)
  {
    PadsUp(total, pieceSize);
    assert found[..i + 1][..i] == found[..i];
    if length > 0 {
      CeilAdds(TotalPieces(found[..i], pieceSize), length, pieceSize);
    } else {
      DivIs(pieceSize - 1, 0, pieceSize - 1, pieceSize);
    }
  }

  /** Each non-empty file begins in the padded layout where its version 2 piece range begins. */
  lemma OffsetsMatchPieceStarts(found: seq<Found>, pieceSize: nat, k: nat)
    requires pieceSize > 0 && ValidLengths(found) && k < |found| && found[k].properties.length > 0
    ensures RealOffset(LayoutFrom(found, pieceSize, 0, 0), k) == Placed(found, pieceSize)[k].pieceStart * pieceSize
  {
    assert found[..0] == [];
    DivIs(pieceSize - 1, 0, pieceSize - 1, pieceSize);
    OffsetIsPieceStart(found, pieceSize, 0, 0, k);
    StartIsTotal(found, pieceSize, k);
  }

  lemma {:induction false} StartIsTotal(found: seq<Found>, pieceLength: nat, k: nat)
    requires pieceLength > 0 && ValidLengths(found) && k < |found|
    ensures Placed(found, pieceLength)[k].pieceStart == TotalPieces(found[..k], pieceLength)
  {
    var front := found[..|found| - 1];
    if k >= |front| {
    } else {
      StartIsTotal(front, pieceLength, k);
      assert front[..k] == found[..k];
    }
  }
}
