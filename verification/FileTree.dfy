/**
 What the walk over a version 2 file tree finds, said of the places in the tree: the tree is valid exactly when every
 node that names lead to is, and the files are those the names lead to, in the order of their places, none left out.
 The padded layout of any list of files holds just these files, and no more padding than it needs.
 */
module FileTree {
  import opened Results
  import opened ByteStrings
  import opened FileLayout
  import opened Arithmetic
  import Merkle

  // ---- Places ----

  /** The entry numbers that lead from the root to a node. */
  type Place = seq<nat>

  function NodeAt(node: Node, place: Place): Option<Node> {
    if place == [] then Some(node)
    else if node.Dictionary? && place[0] < |node.entries| then NodeAt(node.entries[place[0]].node, place[1..])
    else None
  }

  /** The names on the way to a place. */
  function NamesAt(node: Node, place: Place): (names: Path)
    requires NodeAt(node, place).Some?
    ensures |names| == |place|
  {
    if place == [] then [] else [node.entries[place[0]].name] + NamesAt(node.entries[place[0]].node, place[1..])
  }

  /** A place that names lead to; the entry without a name holds a file's properties and counts as none. */
  predicate Reached(node: Node, place: Place) {
    NodeAt(node, place).Some? && "" !in NamesAt(node, place)
  }

  /** A dictionary that stands for a file: its one entry has no name and holds the properties. */
  predicate IsFile(node: Node) {
    && node.Dictionary? && |node.entries| == 1 && node.entries[0].name == "" && node.entries[0].node.FileProperties?
    && 0 <= node.entries[0].node.properties.length <= MAX_SAFE_INTEGER
  }

  predicate HasNoName(node: Node) {
    node.Dictionary? && exists e <- node.entries :: e.name == ""
  }

  /** A file other than the root, or a directory with entries that all have proper names; and not too deep. */
  predicate NodeOk(node: Node, depth: nat) {
    && depth <= 256 && node.Dictionary? && node.entries != []
    && if HasNoName(node) then depth > 0 && IsFile(node) else forall e <- node.entries :: IsSafeComponent(e.name)
  }

  predicate PlaceOk(node: Node, place: Place, depth: nat) {
    Reached(node, place) ==> NodeOk(NodeAt(node, place).value, depth + |place|)
  }

  ghost predicate ValidFrom(node: Node, depth: nat) {
    forall place: Place :: PlaceOk(node, place, depth)
  }

  lemma TerminalIs(node: Node)
    requires node.Dictionary?
    ensures IsTerminal(node.entries) <==> HasNoName(node)
  {
    if HasNoName(node) {
      var e :| e in node.entries && e.name == "";
      var i :| 0 <= i < |node.entries| && node.entries[i] == e;
    }
  }

  /** Reaching a place goes by its first entry. */
  lemma FirstStep(node: Node, place: Place)
    requires place != []
    ensures Reached(node, place) <==>
      && node.Dictionary? && place[0] < |node.entries| && node.entries[place[0]].name != ""
      && Reached(node.entries[place[0]].node, place[1..])
    ensures Reached(node, place) ==> NodeAt(node, place) == NodeAt(node.entries[place[0]].node, place[1..])
  {
  }

  lemma OkBelow(node: Node, i: nat, place: Place, depth: nat)
    requires node.Dictionary? && i < |node.entries|
    ensures node.entries[i].name != "" ==> (PlaceOk(node, [i] + place, depth) <==> PlaceOk(node.entries[i].node, place, depth + 1))
    ensures node.entries[i].name == "" ==> PlaceOk(node, [i] + place, depth)
  {
    hide NodeOk;
    FirstStep(node, [i] + place);
    assert ([i] + place)[1..] == place;
  }

  lemma OkElsewhere(node: Node, place: Place, depth: nat)
    requires place != [] && !(node.Dictionary? && place[0] < |node.entries|)
    ensures PlaceOk(node, place, depth)
  {
  }

  lemma ValidParts(node: Node, depth: nat)
    ensures ValidFrom(node, depth) <==>
      && NodeOk(node, depth)
      && (node.Dictionary? && !HasNoName(node) ==> forall i :: 0 <= i < |node.entries| ==> ValidFrom(node.entries[i].node, depth + 1))
  {
    hide NodeOk, HasNoName, PlaceOk;
    var here: Place := [];
    RootOk(node, depth);
    if ValidFrom(node, depth) {
      assert PlaceOk(node, here, depth);
      if node.Dictionary? && !HasNoName(node) {
        forall i | 0 <= i < |node.entries| ensures ValidFrom(node.entries[i].node, depth + 1) {
          NameIsThere(node, i);
          var child, deeper := node.entries[i].node, depth + 1;
          forall place: Place ensures PlaceOk(child, place, deeper) {
            OkBelow(node, i, place, depth);
          }
        }
      }
    }
    if NodeOk(node, depth) && (node.Dictionary? && !HasNoName(node) ==> forall i :: 0 <= i < |node.entries| ==> ValidFrom(node.entries[i].node, depth + 1)) {
      forall place: Place ensures PlaceOk(node, place, depth) {
        if place == [] {
        } else if node.Dictionary? && place[0] < |node.entries| {
          var i := place[0];
          OkBelow(node, i, place[1..], depth);
          assert [i] + place[1..] == place;
          if HasNoName(node) {
            OnlyNames(node, depth);
          } else {
            NameIsThere(node, i);
            assert ValidFrom(node.entries[i].node, depth + 1);
          }
        } else {
          OkElsewhere(node, place, depth);
        }
      }
    }
  }

  lemma RootOk(node: Node, depth: nat)
    ensures PlaceOk(node, [], depth) <==> NodeOk(node, depth)
  {
    hide NodeOk;
  }

  lemma NameIsThere(node: Node, i: nat)
    requires node.Dictionary? && i < |node.entries|
    ensures !HasNoName(node) ==> node.entries[i].name != ""
  {
  }

  /** In a proper file nothing but the properties is below, and no name leads there. */
  lemma OnlyNames(node: Node, depth: nat)
    requires NodeOk(node, depth) && HasNoName(node)
    ensures forall i :: 0 <= i < |node.entries| ==> node.entries[i].name == ""
  {
  }

  // ---- Validity ----

  lemma {:induction false} FilesAreValid(node: Node, path: Path, depth: nat)
    requires |path| == depth
    ensures Files(node, path, depth).Some? <==> ValidFrom(node, depth)
    decreases node, 1
  {
    hide ValidFrom, IsTerminal;
    ValidParts(node, depth);
    if depth <= 256 && node.Dictionary? && node.entries != [] {
      TerminalIs(node);
      if HasNoName(node) {
        FileIs(node, path);
      } else {
        EntriesAreValid(node.entries, path, depth);
        NamesAreSafe(node.entries);
      }
    }
  }

  lemma FileIs(node: Node, path: Path)
    requires HasNoName(node)
    ensures TerminalFile(node.entries, path).Some? <==> path != [] && IsFile(node)
  {
  }

  lemma NamesAreSafe(entries: seq<Named>)
    ensures (forall e <- entries :: IsSafeComponent(e.name)) <==> forall i :: 0 <= i < |entries| ==> IsSafeComponent(entries[i].name)
  {
  }

  lemma {:induction false} EntriesAreValid(entries: seq<Named>, path: Path, depth: nat)
    requires |path| == depth
    ensures FilesOf(entries, path, depth).Some? <==>
      forall i :: 0 <= i < |entries| ==> IsSafeComponent(entries[i].name) && ValidFrom(entries[i].node, depth + 1)
    decreases entries, 0
  {
    hide ValidFrom, IsSafeComponent, Files;
    if entries == [] {
    } else {
      FilesAreValid(entries[0].node, path + [entries[0].name], depth + 1);
      EntriesAreValid(entries[1..], path, depth);
      NoDictionaryIsInvalid(entries[0].node, depth + 1);
      assert forall i :: 1 <= i < |entries| ==> entries[i] == entries[1..][i - 1];
      assert forall i :: 0 <= i < |entries| - 1 ==> entries[1..][i] == entries[i + 1];
    }
  }

  lemma NoDictionaryIsInvalid(node: Node, depth: nat)
    ensures node.NoDictionary? ==> !ValidFrom(node, depth)
  {
    hide ValidFrom;
    ValidParts(node, depth);
  }

  /** A tree is valid exactly when every node that names lead to is, the root included. */
  lemma TreeIsValidExactly(root: Node)
    ensures Files(root, [], 0).Some? <==>
      forall place: Place :: Reached(root, place) ==> NodeOk(NodeAt(root, place).value, |place|)
  {
    hide Files, NodeOk, NodeAt, NamesAt;
    FilesAreValid(root, [], 0);
    assert forall place: Place :: PlaceOk(root, place, 0) <==> (Reached(root, place) ==> NodeOk(NodeAt(root, place).value, |place|));
  }

  lemma Powers()
    ensures Pow2(14) == 16384 && Pow2(53) == MAX_SAFE_INTEGER + 1
  {
    assert Pow2(10) == 1024;
    assert Pow2(20) == 1024 * 1024;
    assert Pow2(30) == 1024 * 1024 * 1024;
    assert Pow2(40) == 1024 * 1024 * 1024 * 1024;
    assert Pow2(50) == 1024 * 1024 * 1024 * 1024 * 1024;
  }

  /** A piece length is accepted exactly when it is one of the powers of two from 2^14 to 2^52. */
  lemma PieceLengthsAre(pieceLength: nat)
    ensures IsSafe(pieceLength) && pieceLength >= Merkle.BLOCK_LENGTH && Pow2(CeilLog2(pieceLength)) == pieceLength <==>
      exists k: nat :: 14 <= k <= 52 && pieceLength == Pow2(k)
  {
    Powers();
    hide Pow2;
    var c := CeilLog2(pieceLength);
    if IsSafe(pieceLength) && pieceLength >= Merkle.BLOCK_LENGTH && Pow2(c) == pieceLength {
      if c < 14 {
        Pow2Less(c, 14);
      } else if c >= 53 {
        Pow2Monotone(53, c);
      }
      assert 14 <= c <= 52;
    }
    if k: nat :| 14 <= k <= 52 && pieceLength == Pow2(k) {
      Pow2Monotone(14, k);
      Pow2Less(k, 53);
      Pow2Less(k - 1, k);
      CeilLog2Unique(pieceLength, k);
    }
  }

  lemma Pow2Less(a: nat, b: nat)
    requires a < b
    ensures Pow2(a) < Pow2(b)
  {
    Pow2Monotone(a + 1, b);
  }

  /**
   A tree is flattened exactly when the piece length is such a power, the tree is valid and it has from one to a million
   files; the files are then those of the walk.
   */
  lemma FlattenedExactly(root: Node, pieceLength: nat)
    ensures Flattened(root, pieceLength).Some? <==>
      && (exists k: nat :: 14 <= k <= 52 && pieceLength == Pow2(k))
      && Files(root, [], 0).Some? && 1 <= |Files(root, [], 0).value| <= 1_000_000
    ensures Flattened(root, pieceLength).Some? ==> Flattened(root, pieceLength) == Files(root, [], 0)
  {
    hide Files, Pow2, CeilLog2;
    PieceLengthsAre(pieceLength);
  }

  // ---- The files and their order ----

  /** The place comes first in the order of a walk that goes into the first entry first. */
  ghost predicate Before(p: Place, q: Place) {
    exists k :: 0 <= k < |p| && k < |q| && p[..k] == q[..k] && p[k] < q[k]
  }

  predicate FileAt(node: Node, place: Place) {
    Reached(node, place) && IsFile(NodeAt(node, place).value)
  }

  function FoundAt(node: Node, path: Path, place: Place): Found
    requires FileAt(node, place)
  {
    Found(path + NamesAt(node, place), NodeAt(node, place).value.entries[0].node.properties)
  }

  /** The files stand at these places. */
  ghost predicate StandAt(found: seq<Found>, node: Node, path: Path, places: seq<Place>) {
    |places| == |found| && forall i :: 0 <= i < |found| ==> FileAt(node, places[i]) && found[i] == FoundAt(node, path, places[i])
  }

  ghost predicate InOrder(places: seq<Place>) {
    forall i, j :: 0 <= i < j < |places| ==> Before(places[i], places[j])
  }

  predicate StartFrom(places: seq<Place>, from: nat) {
    forall p <- places :: p != [] ==> p[0] >= from
  }

  ghost predicate Complete(node: Node, from: nat, places: seq<Place>) {
    forall p :: FileAt(node, p) && (p == [] || p[0] >= from) ==> p in places
  }

  /** These are the files at places whose first entry is number `from` or a later one, in the order of their places. */
  ghost predicate Lists(found: seq<Found>, node: Node, path: Path, from: nat, places: seq<Place>) {
    StandAt(found, node, path, places) && InOrder(places) && StartFrom(places, from) && Complete(node, from, places)
  }

  lemma FileBelow(node: Node, i: nat, place: Place, path: Path)
    requires node.Dictionary? && i < |node.entries| && node.entries[i].name != ""
    ensures FileAt(node, [i] + place) <==> FileAt(node.entries[i].node, place)
    ensures FileAt(node, [i] + place) ==>
      FoundAt(node, path, [i] + place) == FoundAt(node.entries[i].node, path + [node.entries[i].name], place)
  {
    hide IsFile;
    FirstStep(node, [i] + place);
    assert ([i] + place)[1..] == place;
    if Reached(node, [i] + place) {
      assert path + NamesAt(node, [i] + place) == path + [node.entries[i].name] + NamesAt(node.entries[i].node, place);
    }
  }

  lemma BeforeBelow(i: nat, p: Place, q: Place)
    requires Before(p, q)
    ensures Before([i] + p, [i] + q)
  {
    var k :| 0 <= k < |p| && k < |q| && p[..k] == q[..k] && p[k] < q[k];
    assert ([i] + p)[..k + 1] == [i] + p[..k] && ([i] + q)[..k + 1] == [i] + q[..k];
    assert ([i] + p)[k + 1] < ([i] + q)[k + 1];
  }

  lemma BeforeAcross(i: nat, p: Place, q: Place)
    requires q != [] && i < q[0]
    ensures Before([i] + p, q)
  {
    assert ([i] + p)[..0] == q[..0];
  }

  function Below(i: nat, places: seq<Place>): (r: seq<Place>)
    ensures |r| == |places| && forall j :: 0 <= j < |places| ==> r[j] == [i] + places[j]
  {
    seq(|places|, j requires 0 <= j < |places| => [i] + places[j])
  }

  lemma StandJoined(node: Node, path: Path, i: nat, first: seq<Found>, below: seq<Place>, rest: seq<Found>, behind: seq<Place>)
    requires node.Dictionary? && i < |node.entries| && node.entries[i].name != ""
    requires StandAt(first, node.entries[i].node, path + [node.entries[i].name], below) && StandAt(rest, node, path, behind)
    ensures StandAt(first + rest, node, path, Below(i, below) + behind)
  {
    hide FileAt, FoundAt;
    var places := Below(i, below) + behind;
    forall j | 0 <= j < |first| ensures FileAt(node, places[j]) && first[j] == FoundAt(node, path, places[j]) {
      FileBelow(node, i, below[j], path);
    }
  }

  lemma OrderJoined(i: nat, below: seq<Place>, behind: seq<Place>)
    requires InOrder(below) && InOrder(behind) && StartFrom(behind, i + 1) && [] !in behind
    ensures InOrder(Below(i, below) + behind) && StartFrom(Below(i, below) + behind, i)
  {
    hide Before;
    var places := Below(i, below) + behind;
    forall j, k | 0 <= j < k < |places| ensures Before(places[j], places[k]) {
      if k < |below| {
        BeforeBelow(i, below[j], below[k]);
      } else {
        assert places[k] in behind;
        if j < |below| {
          BeforeAcross(i, below[j], places[k]);
        }
      }
    }
    forall p <- places ensures p != [] ==> p[0] >= i {
      var j :| 0 <= j < |places| && places[j] == p;
      if j >= |below| {
        assert p in behind;
      }
    }
  }

  lemma CompleteJoined(node: Node, path: Path, i: nat, below: seq<Place>, behind: seq<Place>)
    requires node.Dictionary? && i < |node.entries| && node.entries[i].name != "" && !IsFile(node)
    requires Complete(node.entries[i].node, 0, below) && Complete(node, i + 1, behind)
    ensures Complete(node, i, Below(i, below) + behind)
  {
    hide FileAt, FoundAt;
    var places := Below(i, below) + behind;
    forall p | FileAt(node, p) && (p == [] || p[0] >= i) ensures p in places {
      NotHere(node, [p]);
      assert p in [p];
      if p[0] == i {
        assert p == [i] + p[1..];
        FileBelow(node, i, p[1..], path);
        var j :| 0 <= j < |below| && below[j] == p[1..];
        assert places[j] == p;
      } else {
        assert p in behind;
      }
    }
  }

  /** The files below one entry, and then those of the entries behind it. */
  lemma ListsJoin(node: Node, path: Path, i: nat, first: seq<Found>, below: seq<Place>, rest: seq<Found>, behind: seq<Place>)
    requires node.Dictionary? && i < |node.entries| && node.entries[i].name != "" && !IsFile(node)
    requires Lists(first, node.entries[i].node, path + [node.entries[i].name], 0, below)
    requires Lists(rest, node, path, i + 1, behind)
    ensures Lists(first + rest, node, path, i, Below(i, below) + behind)
  {
    hide FileAt, FoundAt, InOrder, StartFrom, Complete;
    NotHere(node, behind);
    forall p <- behind ensures p != [] {
      var j :| 0 <= j < |behind| && behind[j] == p;
      assert FileAt(node, behind[j]);
    }
    StandJoined(node, path, i, first, below, rest, behind);
    OrderJoined(i, below, behind);
    CompleteJoined(node, path, i, below, behind);
  }

  lemma NotHere(node: Node, places: seq<Place>)
    requires !IsFile(node)
    ensures forall place <- places :: FileAt(node, place) ==> place != []
  {
  }

  lemma {:induction false} WalkLists(node: Node, path: Path, depth: nat) returns (places: seq<Place>)
    requires Files(node, path, depth).Some?
    ensures Lists(Files(node, path, depth).value, node, path, 0, places)
    decreases node, |EntriesOf(node)| + 1
  {
    hide Lists, FilesOf, TerminalFile;
    TerminalIs(node);
    if HasNoName(node) {
      FileIs(node, path);
      places := [[]];
      OneFile(node, path);
    } else {
      assert node.entries[0..] == node.entries;
      places := SuffixLists(node, path, depth, 0);
    }
  }

  function EntriesOf(node: Node): seq<Named> {
    if node.Dictionary? then node.entries else []
  }

  lemma OneFile(node: Node, path: Path)
    requires HasNoName(node) && TerminalFile(node.entries, path).Some?
    ensures Lists(TerminalFile(node.entries, path).value, node, path, 0, [[]])
  {
    FileIs(node, path);
    assert path + [] == path;
    forall place | FileAt(node, place) ensures place == [] {
      if place != [] {
        FirstStep(node, place);
      }
    }
  }

  lemma {:induction false} SuffixLists(node: Node, path: Path, depth: nat, i: nat) returns (places: seq<Place>)
    requires node.Dictionary? && !HasNoName(node) && i <= |node.entries| && FilesOf(node.entries[i..], path, depth).Some?
    ensures Lists(FilesOf(node.entries[i..], path, depth).value, node, path, i, places)
    decreases node, |node.entries| - i
  {
    hide Lists, Files;
    if i == |node.entries| {
      places := [];
      NothingBehind(node, path);
    } else {
      NameIsThere(node, i);
      var entry := node.entries[i];
      assert node.entries[i..][0] == entry && node.entries[i..][1..] == node.entries[i + 1..];
      var below := WalkLists(entry.node, path + [entry.name], depth + 1);
      var behind := SuffixLists(node, path, depth, i + 1);
      NoFile(node);
      ListsJoin(node, path, i, Files(entry.node, path + [entry.name], depth + 1).value, below,
                FilesOf(node.entries[i + 1..], path, depth).value, behind);
      places := Below(i, below) + behind;
    }
  }

  lemma NoFile(node: Node)
    requires !HasNoName(node)
    ensures !IsFile(node)
  {
  }

  lemma NothingBehind(node: Node, path: Path)
    requires node.Dictionary? && !HasNoName(node)
    ensures Lists([], node, path, |node.entries|, [])
  {
    NoFile(node);
  }

  /** The walk finds exactly the files that names lead to, with the names on the way as their paths, in the order of their places. */
  lemma WalkFindsFiles(root: Node) returns (places: seq<Place>)
    requires Files(root, [], 0).Some?
    ensures var found := Files(root, [], 0).value;
      && |places| == |found|
      && (forall i :: 0 <= i < |found| ==>
            FileAt(root, places[i]) && found[i].path == NamesAt(root, places[i])
            && found[i].properties == NodeAt(root, places[i]).value.entries[0].node.properties)
      && (forall i, j :: 0 <= i < j < |places| ==> Before(places[i], places[j]))
      && forall place :: FileAt(root, place) ==> place in places
  {
    hide Files, Before, IsFile;
    places := WalkLists(root, [], 0);
    forall i | 0 <= i < |places| ensures Files(root, [], 0).value[i].path == NamesAt(root, places[i]) {
      assert FileAt(root, places[i]);
      assert [] + NamesAt(root, places[i]) == NamesAt(root, places[i]);
    }
  }

  // ---- Padded layouts ----

  /** The real files of a padded layout are the files of the list, in order. */
  lemma {:induction false} LayoutHoldsFiles(found: seq<Found>, pieceSize: nat, i: nat, offset: nat, k: nat)
    requires pieceSize > 0 && i <= |found| && ValidLengths(found) && offset < pieceSize
    ensures var reals := Reals(LayoutFrom(found, pieceSize, i, offset));
      && |reals| == |found| - i
      && (k < |reals| ==> reals[k] == Real(found[i + k].path, found[i + k].properties.length))
    decreases |found| - i
  {
    hide LayoutFrom;
    if i == |found| {
      NothingLeft(found, pieceSize, offset);
    } else {
      LayoutStep(found, pieceSize, i, offset);
      var length: nat := found[i].properties.length;
      var padded := length > 0 && offset > 0;
      var next := if padded then length % pieceSize else (offset + length) % pieceSize;
      var rest := LayoutFrom(found, pieceSize, i + 1, next);
      LayoutHoldsFiles(found, pieceSize, i + 1, next, if k > 0 then k - 1 else 0);
      RealFirst(Real(found[i].path, length), rest);
      PaddingFirst(pieceSize - offset, [Real(found[i].path, length)] + rest);
    }
  }

  lemma RealFirst(file: PieceFile, rest: seq<PieceFile>)
    requires file.Real?
    ensures Reals([file] + rest) == [file] + Reals(rest)
  {
    assert ([file] + rest)[1..] == rest;
  }

  lemma PaddingFirst(length: nat, rest: seq<PieceFile>)
    ensures Reals([Padding(length)] + rest) == Reals(rest)
  {
    assert ([Padding(length)] + rest)[1..] == rest;
  }

  /** Where entry `j` of a layout begins. */
  function StartOf(layout: seq<PieceFile>, j: nat): nat
    requires j <= |layout|
  {
    if j == 0 then 0 else layout[0].length + StartOf(layout[1..], j - 1)
  }

  /** Padding stands only before a file that is not empty, begins inside a piece, and goes to its end. */
  predicate PadsAt(layout: seq<PieceFile>, before: nat, pieceSize: nat, j: nat)
    requires pieceSize > 0 && j < |layout| && layout[j].Padding?
  {
    && j + 1 < |layout| && layout[j + 1].Real? && layout[j + 1].length > 0
    && (before + StartOf(layout, j)) % pieceSize + layout[j].length == pieceSize
    && layout[j].length < pieceSize
  }

  lemma PadsBehind(layout: seq<PieceFile>, before: nat, pieceSize: nat, j: nat)
    requires pieceSize > 0 && 0 < j < |layout| && layout[j].Padding?
    ensures PadsAt(layout, before, pieceSize, j) <==> PadsAt(layout[1..], before + layout[0].length, pieceSize, j - 1)
  {
    assert StartOf(layout, j) == layout[0].length + StartOf(layout[1..], j - 1);
  }

  /** No padding is more than it takes: in the whole layout, `before` is 0. */
  lemma {:induction false} PaddingIsLeast(found: seq<Found>, pieceSize: nat, i: nat, before: nat, j: nat)
    requires pieceSize > 0 && i <= |found| && ValidLengths(found)
    ensures var layout := LayoutFrom(found, pieceSize, i, before % pieceSize);
      j < |layout| && layout[j].Padding? ==> PadsAt(layout, before, pieceSize, j)
    decreases |found| - i
  {
    hide LayoutFrom, PadsAt;
    var offset := before % pieceSize;
    var layout := LayoutFrom(found, pieceSize, i, offset);
    if i == |found| {
      NothingLeft(found, pieceSize, offset);
    } else {
      LayoutStep(found, pieceSize, i, offset);
      var length: nat := found[i].properties.length;
      var file := Real(found[i].path, length);
      if length > 0 && offset > 0 {
        var rest := LayoutFrom(found, pieceSize, i + 1, length % pieceSize);
        var start := before + (pieceSize - offset);
        PadsUp(before, pieceSize);
        ModAdds(start, length, pieceSize);
        assert layout[1..] == [file] + rest && layout[1..][1..] == rest;
        if j == 0 {
          FirstPads(layout, before, pieceSize);
        } else if j >= 2 && j < |layout| && layout[j].Padding? {
          PaddingIsLeast(found, pieceSize, i + 1, start + length, j - 2);
          PadsBehind(layout[1..], start, pieceSize, j - 1);
          PadsBehind(layout, before, pieceSize, j);
        }
      } else {
        ModAdds(before, length, pieceSize);
        assert layout[1..] == LayoutFrom(found, pieceSize, i + 1, (before + length) % pieceSize);
        if j >= 1 && j < |layout| && layout[j].Padding? {
          PaddingIsLeast(found, pieceSize, i + 1, before + length, j - 1);
          PadsBehind(layout, before, pieceSize, j);
        }
      }
    }
  }

  lemma FirstPads(layout: seq<PieceFile>, before: nat, pieceSize: nat)
    requires pieceSize > 0 && |layout| >= 2 && layout[1].Real? && layout[1].length > 0
    requires before % pieceSize > 0 && layout[0] == Padding(pieceSize - before % pieceSize)
    ensures PadsAt(layout, before, pieceSize, 0)
  {
  }
}
