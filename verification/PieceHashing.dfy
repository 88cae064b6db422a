/**
 Hashing a stream of data piece by piece, however it is cut into chunks.

 Whatever was supplied so far is a run of whole pieces, whose digests are kept, and the start of one more piece,
 which the hasher of SHA-1 holds. The order and the sizes of the chunks leave no trace in the digests, and zero bytes
 that are only counted give the digests that the same bytes supplied in full would give.
 */
module PieceHashing {
  import opened Sha1

  const HASH_CHUNK_SIZE: nat := 1024 * 1024

  /** The digests, one behind the other, of consecutive slices of `size` bytes; the last one may be shorter. */
  function PieceDigests(data: seq<Octet>, size: nat): seq<Octet>
    requires size > 0
    decreases |data|
  {
    if data == [] then []
    else if |data| <= size then Hash(data)
    else Hash(data[..size]) + PieceDigests(data[size..], size)
  }

  predicate WholePieces(data: seq<Octet>, size: nat)
    requires size > 0
    decreases |data|
  {
    data == [] || (|data| >= size && WholePieces(data[size..], size))
  }

  function Concat(digests: seq<seq<Octet>>): seq<Octet> {
    if digests == [] then [] else Concat(digests[..|digests| - 1]) + digests[|digests| - 1]
  }

  lemma {:induction false} DigestsJoin(a: seq<Octet>, b: seq<Octet>, size: nat)
    requires size > 0 && WholePieces(a, size)
    ensures PieceDigests(a + b, size) == PieceDigests(a, size) + PieceDigests(b, size)
    ensures |b| == size ==> WholePieces(a + b, size)
    decreases |a|
  {
    hide Hash;
    if a == [] {
      assert a + b == b;
      assert |b| == size ==> b[size..] == [];
    } else {
      var first, rest := a[..size], a[size..];
      DigestsJoin(rest, b, size);
      assert (a + b)[..size] == first && (a + b)[size..] == rest + b;
      if rest == [] {
        assert a == first && rest + b == b;
      }
      if a + b == first {
        assert b == [] && a + b == a;
      }
    }
  }

  lemma {:induction false} ZerosJoin(a: nat, b: nat)
    ensures Zeros(a) + Zeros(b) == Zeros(a + b)
  {
    if b > 0 {
      ZerosJoin(a, b - 1);
      assert Zeros(a) + Zeros(b) == Zeros(a) + Zeros(b - 1) + [0];
    } else {
      assert Zeros(a) + [] == Zeros(a);
    }
  }

  class PieceHasher {
    const pieceSize: nat
    const hasher: Sha1Hasher
    var digests: seq<seq<Octet>>
    var pieceOffset: nat
    /** All data taken so far, and how much of it belongs to finished pieces. */
    ghost var total: seq<Octet>
    ghost var done: nat

    ghost predicate Valid()
      reads this, hasher, hasher.state, hasher.pending
    {
      && pieceSize > 0 && hasher.Valid() && done <= |total|
      && hasher.message == total[done..] && pieceOffset == |total| - done < pieceSize
      && WholePieces(total[..done], pieceSize) && Concat(digests) == PieceDigests(total[..done], pieceSize)
    }

    constructor (pieceSize: nat)
      requires pieceSize > 0
      ensures Valid() && total == [] && this.pieceSize == pieceSize && fresh(hasher)
    {
      this.pieceSize := pieceSize;
      hasher := new Sha1Hasher();
      digests, pieceOffset, total, done := [], 0, [], 0;
    }

    method FinishPiece()
      requires pieceSize > 0 && hasher.Valid()
      modifies this, hasher, hasher.state, hasher.pending, hasher.words
      ensures hasher.Valid() && hasher.message == [] && pieceOffset == 0
      ensures digests == old(digests) + [Hash(old(hasher.message))] && total == old(total) && done == old(done)
    {
      hide *;
      var digest := hasher.Digest();
      digests := digests + [digest];
      hasher.Reset();
      pieceOffset := 0;
    }

    /** Takes data that does not go past the end of the piece. */
    method Take(data: seq<Octet>)
      requires Valid() && pieceOffset + |data| <= pieceSize
      modifies this, hasher, hasher.state, hasher.pending, hasher.words
      ensures Valid() && total == old(total) + data
    {
      hide Hash, PieceDigests, WholePieces, Concat, Sha1Hasher.Valid;
      hasher.Update(data);
      pieceOffset := pieceOffset + |data|;
      ghost var finished, piece := total[..done], total[done..] + data;
      total := total + data;
      assert total[..done] == finished && total[done..] == piece;
      if pieceOffset == pieceSize {
        FinishPiece();
        OneMore(finished, piece, digests[..|digests| - 1]);
        assert total == finished + piece;
        assert total[..|total|] == total && total[|total|..] == [];
        done := |total|;
      }
    }

    lemma OneMore(finished: seq<Octet>, piece: seq<Octet>, before: seq<seq<Octet>>)
      requires pieceSize > 0 && WholePieces(finished, pieceSize) && |piece| == pieceSize
      requires Concat(before) == PieceDigests(finished, pieceSize)
      ensures WholePieces(finished + piece, pieceSize)
      ensures Concat(before + [Hash(piece)]) == PieceDigests(finished + piece, pieceSize)
    {
      hide Hash;
      DigestsJoin(finished, piece, pieceSize);
      assert (before + [Hash(piece)])[..|before|] == before;
    }

    method Update(data: seq<Octet>)
      requires Valid()
      modifies this, hasher, hasher.state, hasher.pending, hasher.words
      ensures Valid() && total == old(total) + data
    {
      hide Hash, PieceDigests, WholePieces, Concat, Sha1Hasher.Valid;
      var offset := 0;
      ghost var before := total;
      while offset < |data|
        invariant offset <= |data| && Valid() && total == before + data[..offset]
      {
        var length := if pieceSize - pieceOffset < |data| - offset then pieceSize - pieceOffset else |data| - offset;
        Take(data[offset..offset + length]);
        assert data[..offset] + data[offset..offset + length] == data[..offset + length];
        offset := offset + length;
      }
      assert data[..|data|] == data;
    }

    method UpdateZeros(length: nat)
      requires Valid()
      modifies this, hasher, hasher.state, hasher.pending, hasher.words
      ensures Valid() && total == old(total) + Zeros(length)
    {
      hide Hash, PieceDigests, WholePieces, Concat, Zeros, PieceHasher.Valid;
      var remaining := length;
      ghost var before := total;
      NoZeros();
      while remaining > 0
        invariant 0 <= remaining <= length && Valid() && total == before + Zeros(length - remaining)
      {
        var count := if remaining < HASH_CHUNK_SIZE then remaining else HASH_CHUNK_SIZE;
        ghost var zeros := Zeros(length - remaining);
        Update(Zeros(count));
        ZerosJoin(length - remaining, count);
        assert before + zeros + Zeros(count) == before + (zeros + Zeros(count));
        remaining := remaining - count;
      }
    }

    /** The digests of all pieces, with the last one as long as the data reaches. */
    method Digest() returns (result: seq<Octet>)
      requires Valid()
      modifies this, hasher, hasher.state, hasher.pending, hasher.words
      ensures result == PieceDigests(old(total), pieceSize)
    {
      hide Hash, WholePieces, Sha1Hasher.Valid;
      ghost var finished, last := total[..done], total[done..];
      assert total == finished + last;
      DigestsJoin(finished, last, pieceSize);
      if pieceOffset > 0 {
        FinishPiece();
        assert digests[..|digests| - 1] == old(digests);
      }
      result := Concat(digests);
    }
  }

  lemma NoZeros()
    ensures Zeros(0) == []
  {
  }

  lemma HashLength(message: seq<Octet>)
    ensures |Hash(message)| == 20
  {
    hide Fold, Padding, WordBytes;
  }

  lemma NextStart(i: nat, size: nat)
    requires i > 0
    ensures i * size == (i - 1) * size + size
  {
  }

  /** Slice `i` of the data, which only the end of the data cuts short. */
  function Piece(data: seq<Octet>, size: nat, i: nat): seq<Octet>
    requires i * size < |data|
  {
    var start := i * size;
    data[start..if start + size <= |data| then start + size else |data|]
  }

  lemma PieceBehind(data: seq<Octet>, size: nat, i: nat)
    requires 0 < i && i * size < |data|
    ensures size <= |data| && (i - 1) * size < |data| - size && Piece(data[size..], size, i - 1) == Piece(data, size, i)
  {
    NextStart(i, size);
  }

  /** The digest of piece `i` takes bytes 20 i to 20 i + 19 of the result. */
  lemma {:induction false} DigestOfPiece(data: seq<Octet>, size: nat, i: nat)
    requires size > 0 && i * size < |data|
    ensures var digests := PieceDigests(data, size);
      20 * i + 20 <= |digests| && digests[20 * i..20 * i + 20] == Hash(Piece(data, size, i))
    decreases i
  {
    hide Hash, Piece;
    if i == 0 {
      FirstPiece(data, size);
      HashLength(Piece(data, size, 0));
    } else {
      PieceBehind(data, size, i);
      HashLength(data[..size]);
      DigestOfPiece(data[size..], size, i - 1);
      SliceBehind(Hash(data[..size]), PieceDigests(data[size..], size), 20 * (i - 1), 20);
    }
  }

  lemma FirstPiece(data: seq<Octet>, size: nat)
    requires data != []
    ensures 0 * size == 0 && Piece(data, size, 0) == if |data| <= size then data else data[..size]
  {
  }

  lemma SliceBehind(a: seq<Octet>, b: seq<Octet>, k: nat, n: nat)
    requires k + n <= |b|
    ensures (a + b)[|a| + k..|a| + k + n] == b[k..k + n]
  {
  }

  /** There are as many digests as pieces, and nothing else. */
  lemma {:induction false} DigestCount(data: seq<Octet>, size: nat) returns (pieces: nat)
    requires size > 0
    ensures |PieceDigests(data, size)| == 20 * pieces
    ensures |data| <= pieces * size && (pieces > 0 ==> (pieces - 1) * size < |data|)
    decreases |data|
  {
    hide Hash;
    if data == [] {
      pieces := 0;
    } else if |data| <= size {
      pieces := 1;
      HashLength(data);
    } else {
      HashLength(data[..size]);
      pieces := DigestCount(data[size..], size);
      pieces := pieces + 1;
      NextStart(pieces, size);
      if pieces > 1 {
        NextStart(pieces - 1, size);
      }
    }
  }
}
