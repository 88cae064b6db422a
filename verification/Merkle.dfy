/** The Merkle root of a file computed level by level from its piece layer (BEP 52). */
module Merkle {
  import opened ByteStrings
  import opened Arithmetic

  type Hash = Bytes
  type PairHash = (Hash, Hash) -> Hash

  const HASH_LENGTH: nat := 32
  const BLOCK_LENGTH: nat := 16 * 1024

  /** The leaf that stands for an absent block. */
  function ZeroLeaf(): Hash {
    seq(HASH_LENGTH, _ => 0)
  }

  // ---- The recursive root ----

  /** The root of a perfect tree of height `h` over its leaves. */
  function Root(hash: PairHash, h: nat, leaves: seq<Hash>): Hash
    requires |leaves| == Pow2(h)
  {
    if h == 0 then leaves[0]
    else
      var half := Pow2(h - 1);
      hash(Root(hash, h - 1, leaves[..half]), Root(hash, h - 1, leaves[half..]))
  }

  /** The leaves, followed by zero leaves up to `n`. */
  function Padded(leaves: seq<Hash>, n: nat): (r: seq<Hash>)
    requires |leaves| <= n
    ensures |r| == n
  {
    leaves + seq(n - |leaves|, _ => ZeroLeaf())
  }

  /** The root BEP 52 gives a non-empty file: its block hashes, padded with zero leaves to a power of two. */
  function FileRoot(hash: PairHash, blocks: seq<Hash>): Hash
    requires blocks != []
  {
    CeilLog2IsLeast(|blocks|);
    Root(hash, CeilLog2(|blocks|), Padded(blocks, Pow2(CeilLog2(|blocks|))))
  }

  /** The roots of the pieces of 2^b blocks each, the last one padded with zero leaves. */
  function PieceLayer(hash: PairHash, b: nat, blocks: seq<Hash>): (r: seq<Hash>)
    requires blocks != []
    ensures r != []
  {
    if |blocks| <= Pow2(b) then [Root(hash, b, Padded(blocks, Pow2(b)))]
    else [Root(hash, b, blocks[..Pow2(b)])] + PieceLayer(hash, b, blocks[Pow2(b)..])
  }

  // ---- One level up ----

  function PairUp(hash: PairHash, nodes: seq<Hash>): seq<Hash>
    requires |nodes| % 2 == 0
  {
    seq(|nodes| / 2, i requires 0 <= i < |nodes| / 2 => hash(nodes[2 * i], nodes[2 * i + 1]))
  }

  lemma PairOfTwo(hash: PairHash, nodes: seq<Hash>)
    requires |nodes| == 2
    ensures PairUp(hash, nodes) == [hash(nodes[0], nodes[1])] && Root(hash, 1, nodes) == hash(nodes[0], nodes[1])
  {
    assert Root(hash, 0, nodes[..1]) == nodes[0] && Root(hash, 0, nodes[1..]) == nodes[1];
  }

  lemma {:induction false} PairUpKeepsRoot(hash: PairHash, h: nat, nodes: seq<Hash>)
    requires |nodes| == Pow2(h + 1)
    ensures |PairUp(hash, nodes)| == Pow2(h) && Root(hash, h, PairUp(hash, nodes)) == Root(hash, h + 1, nodes)
  {
    hide PairUp;
    var up, half := PairUp(hash, nodes), Pow2(h);
    if h == 0 {
      PairOfTwo(hash, nodes);
    } else {
      var quarter := Pow2(h - 1);
      PairUpHalves(hash, nodes, quarter);
      PairUpKeepsRoot(hash, h - 1, nodes[..half]);
      PairUpKeepsRoot(hash, h - 1, nodes[half..]);
    }
  }

  lemma PairUpHalves(hash: PairHash, nodes: seq<Hash>, quarter: nat)
    requires |nodes| == 4 * quarter
    ensures |PairUp(hash, nodes)| == 2 * quarter
    ensures PairUp(hash, nodes)[..quarter] == PairUp(hash, nodes[..2 * quarter])
    ensures PairUp(hash, nodes)[quarter..] == PairUp(hash, nodes[2 * quarter..])
  {
  }

  function ZeroRoot(hash: PairHash, h: nat): Hash {
    if h == 0 then ZeroLeaf() else hash(ZeroRoot(hash, h - 1), ZeroRoot(hash, h - 1))
  }

  lemma {:induction false} RootOfZeros(hash: PairHash, h: nat, leaves: seq<Hash>)
    requires |leaves| == Pow2(h) && forall i :: 0 <= i < |leaves| ==> leaves[i] == ZeroLeaf()
    ensures Root(hash, h, leaves) == ZeroRoot(hash, h)
  {
    if h == 0 {
    } else {
      RootOfZeros(hash, h - 1, leaves[..Pow2(h - 1)]);
      RootOfZeros(hash, h - 1, leaves[Pow2(h - 1)..]);
    }
  }

  // ---- Subtrees compose ----

  /** `nodes` are the roots of the consecutive groups of 2^b leaves. */
  ghost predicate IsLayer(hash: PairHash, b: nat, leaves: seq<Hash>, nodes: seq<Hash>) {
    if nodes == [] then leaves == []
    else
      && |leaves| >= Pow2(b) && nodes[0] == Root(hash, b, leaves[..Pow2(b)])
      && IsLayer(hash, b, leaves[Pow2(b)..], nodes[1..])
  }

  lemma {:induction false} SplitLayer(hash: PairHash, b: nat, leaves: seq<Hash>, nodes: seq<Hash>, k: nat) returns (m: nat)
    requires IsLayer(hash, b, leaves, nodes) && k <= |nodes|
    ensures m <= |leaves| && IsLayer(hash, b, leaves[..m], nodes[..k]) && IsLayer(hash, b, leaves[m..], nodes[k..])
  {
    hide Root, Pow2;
    if k == 0 {
      m := 0;
      assert leaves[0..] == leaves && nodes[0..] == nodes;
    } else {
      var p := Pow2(b);
      m := SplitLayer(hash, b, leaves[p..], nodes[1..], k - 1);
      SlicesOfSlices(leaves, p, m);
      SlicesOfSlices(nodes, 1, k - 1);
      m := p + m;
    }
  }

  lemma SlicesOfSlices(s: seq<Hash>, p: nat, m: nat)
    requires p + m <= |s|
    ensures s[p..][..m] == s[..p + m][p..] && s[p..][m..] == s[p + m..] && s[..p + m][..p] == s[..p]
  {
  }

  lemma LayerOfOne(hash: PairHash, b: nat, leaves: seq<Hash>, nodes: seq<Hash>)
    requires |nodes| == 1 && IsLayer(hash, b, leaves, nodes)
    ensures |leaves| == Pow2(b) && nodes[0] == Root(hash, b, leaves)
  {
    hide Root, Pow2;
    assert nodes[1..] == [];
    assert leaves[..Pow2(b)] == leaves;
  }

  lemma {:induction false} RootOfLayer(hash: PairHash, a: nat, b: nat, leaves: seq<Hash>, nodes: seq<Hash>)
    requires |nodes| == Pow2(a) && IsLayer(hash, b, leaves, nodes)
    ensures |leaves| == Pow2(a + b) && Root(hash, a, nodes) == Root(hash, a + b, leaves)
  {
    hide IsLayer;
    if a == 0 {
      LayerOfOne(hash, b, leaves, nodes);
    } else {
      var half := Pow2(a - 1);
      var m := SplitLayer(hash, b, leaves, nodes, half);
      RootOfLayer(hash, a - 1, b, leaves[..m], nodes[..half]);
      RootOfLayer(hash, a - 1, b, leaves[m..], nodes[half..]);
    }
  }

  function ZeroLeaves(n: nat): (r: seq<Hash>)
    ensures |r| == n && forall i :: 0 <= i < n ==> r[i] == ZeroLeaf()
  {
    seq(n, _ => ZeroLeaf())
  }

  lemma {:induction false} ZeroLayer(hash: PairHash, b: nat, nodes: seq<Hash>) returns (n: nat)
    requires forall i :: 0 <= i < |nodes| ==> nodes[i] == ZeroRoot(hash, b)
    ensures IsLayer(hash, b, ZeroLeaves(n), nodes)
  {
    if nodes == [] {
      n := 0;
    } else {
      n := ZeroLayer(hash, b, nodes[1..]);
      var p := Pow2(b);
      RootOfZeros(hash, b, ZeroLeaves(p));
      assert ZeroLeaves(p + n)[..p] == ZeroLeaves(p) && ZeroLeaves(p + n)[p..] == ZeroLeaves(n);
      n := p + n;
    }
  }

  /** A piece layer followed by zero subtrees is the layer of the blocks followed by zero leaves. */
  lemma {:induction false} PaddedLayer(hash: PairHash, b: nat, blocks: seq<Hash>, zeros: seq<Hash>) returns (n: nat)
    requires blocks != [] && forall i :: 0 <= i < |zeros| ==> zeros[i] == ZeroRoot(hash, b)
    ensures IsLayer(hash, b, blocks + ZeroLeaves(n), PieceLayer(hash, b, blocks) + zeros)
  {
    hide Root;
    var p, layer := Pow2(b), PieceLayer(hash, b, blocks);
    if |blocks| <= p {
      var rest := ZeroLayer(hash, b, zeros);
      n := p - |blocks| + rest;
      var leaves := blocks + ZeroLeaves(n);
      assert leaves[..p] == Padded(blocks, p) && leaves[p..] == ZeroLeaves(rest);
      assert (layer + zeros)[1..] == zeros;
    } else {
      n := PaddedLayer(hash, b, blocks[p..], zeros);
      var leaves := blocks + ZeroLeaves(n);
      assert leaves[..p] == blocks[..p] && leaves[p..] == blocks[p..] + ZeroLeaves(n);
      assert (layer + zeros)[1..] == PieceLayer(hash, b, blocks[p..]) + zeros;
    }
  }

  lemma {:induction false} LayerSize(hash: PairHash, b: nat, blocks: seq<Hash>)
    requires blocks != []
    ensures (|PieceLayer(hash, b, blocks)| - 1) * Pow2(b) < |blocks|
  {
    hide Root;
    var p, n := Pow2(b), |PieceLayer(hash, b, blocks)|;
    if |blocks| <= p {
    } else {
      LayerSize(hash, b, blocks[p..]);
      assert (n - 1) * p == (n - 2) * p + p;
    }
  }

  /** The height of the padded tree is that of BEP 52 when there is more than one piece. */
  lemma HeightIsLeast(hash: PairHash, b: nat, blocks: seq<Hash>)
    requires blocks != [] && |PieceLayer(hash, b, blocks)| >= 2
    requires |blocks| <= Pow2(CeilLog2(|PieceLayer(hash, b, blocks)|) + b)
    ensures CeilLog2(|blocks|) == CeilLog2(|PieceLayer(hash, b, blocks)|) + b
  {
    hide PieceLayer;
    var pieces := |PieceLayer(hash, b, blocks)|;
    var a := CeilLog2(pieces);
    CeilLog2IsLeast(pieces);
    LayerSize(hash, b, blocks);
    Pow2Sum(a - 1, b);
    ProductGrows(Pow2(a - 1), pieces - 1, Pow2(b));
    CeilLog2Unique(|blocks|, a + b);
  }

  lemma ProductGrows(x: nat, y: nat, z: nat)
    requires x <= y
    ensures x * z <= y * z
  {
  }

  // ---- The computation ----

  /** The consecutive 32-byte hashes of a piece layer. */
  function Split(bytes: Bytes): seq<Hash>
    requires |bytes| % HASH_LENGTH == 0
  {
    if bytes == [] then [] else [bytes[..HASH_LENGTH]] + Split(bytes[HASH_LENGTH..])
  }

  method SplitHashes(bytes: Bytes) returns (hashes: seq<Hash>)
    requires |bytes| % HASH_LENGTH == 0
    ensures hashes == Split(bytes)
  {
    hashes := [];
    var offset := 0;
    while offset < |bytes|
      invariant offset % HASH_LENGTH == 0 && 0 <= offset <= |bytes|
      invariant hashes + Split(bytes[offset..]) == Split(bytes)
    {
      assert bytes[offset..][..HASH_LENGTH] == bytes[offset..offset + HASH_LENGTH];
      assert bytes[offset..][HASH_LENGTH..] == bytes[offset + HASH_LENGTH..];
      hashes := hashes + [bytes[offset..offset + HASH_LENGTH]];
      offset := offset + HASH_LENGTH;
    }
  }

  method LevelUp(hash: PairHash, nodes: seq<Hash>) returns (next: seq<Hash>)
    requires |nodes| % 2 == 0
    ensures next == PairUp(hash, nodes)
  {
    next := [];
    var index := 0;
    while index < |nodes|
      invariant index % 2 == 0 && 0 <= index <= |nodes| && |next| == index / 2
      invariant next == PairUp(hash, nodes)[..index / 2]
    {
      next := next + [hash(nodes[index], nodes[index + 1])];
      index := index + 2;
    }
  }

  /** The padding node: the zero leaf doubled from the block size up to the piece size. */
  method ZeroNode(hash: PairHash, pieceLength: nat, ghost b: nat) returns (zero: Hash)
    requires pieceLength == BLOCK_LENGTH * Pow2(b)
    ensures zero == ZeroRoot(hash, b)
  {
    zero := ZeroLeaf();
    var size := BLOCK_LENGTH;
    ghost var level: nat := 0;
    while size < pieceLength
      invariant level <= b && size == BLOCK_LENGTH * Pow2(level) && zero == ZeroRoot(hash, level)
      decreases b - level
    {
      zero := hash(zero, zero);
      size := size * 2;
      level := level + 1;
    }
    if level < b {
      Pow2Monotone(level + 1, b);
    }
  }

  /**
   The root computed from a piece layer. When the layer holds the piece roots of a file's blocks,
   the result is the root of the block tree padded with zero leaves; for a file of more than one
   piece, the only kind that has a layer, that is the root BEP 52 defines.
   */
  method MerkleRootFromPieceLayer(hash: PairHash, hashes: Bytes, pieceLength: nat, ghost b: nat, ghost blocks: seq<Hash>)
    returns (root: Hash)
    requires |hashes| % HASH_LENGTH == 0 && pieceLength == BLOCK_LENGTH * Pow2(b)
    requires blocks != [] && Split(hashes) == PieceLayer(hash, b, blocks)
    ensures var height := CeilLog2(|PieceLayer(hash, b, blocks)|) + b;
      |blocks| <= Pow2(height) && root == Root(hash, height, Padded(blocks, Pow2(height)))
    ensures |PieceLayer(hash, b, blocks)| >= 2 ==> root == FileRoot(hash, blocks)
  {
    hide PieceLayer, Split, IsLayer, Pow2, CeilLog2, ZeroRoot;
    var nodes := SplitHashes(hashes);
    ghost var layer, a := nodes, CeilLog2(|nodes|);
    var target := Pow2(CeilLog2(|nodes|));
    CeilLog2IsLeast(|nodes|);
    var zero := ZeroNode(hash, pieceLength, b);
    ghost var zeros: seq<Hash> := [];
    while |nodes| < target
      invariant |nodes| <= target && nodes == layer + zeros
      invariant forall i :: 0 <= i < |zeros| ==> zeros[i] == ZeroRoot(hash, b)
    {
      nodes := nodes + [zero];
      zeros := zeros + [zero];
    }
    ghost var n := PaddedLayer(hash, b, blocks, zeros);
    ghost var leaves := blocks + ZeroLeaves(n);
    RootOfLayer(hash, a, b, leaves, nodes);
    assert leaves == Padded(blocks, Pow2(a + b));
    root := Collapse(hash, nodes, a);
    if |layer| >= 2 {
      HeightIsLeast(hash, b, blocks);
    }
  }

  /** Pairing level by level until one node is left computes the root. */
  method Collapse(hash: PairHash, level: seq<Hash>, ghost a: nat) returns (root: Hash)
    requires |level| == Pow2(a)
    ensures root == Root(hash, a, level)
  {
    hide PairUp;
    var nodes := level;
    ghost var h: nat := a;
    while |nodes| > 1
      invariant h <= a && |nodes| == Pow2(h) && Root(hash, h, nodes) == Root(hash, a, level)
      decreases h
    {
      PairUpKeepsRoot(hash, h - 1, nodes);
      nodes := LevelUp(hash, nodes);
      h := h - 1;
    }
    root := nodes[0];
  }
}
