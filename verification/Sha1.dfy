/** SHA-1 as FIPS 180-4 defines it, the incremental hasher that computes it, and the piece hasher built on that. */
module Sha1 {

  type Octet = bv8
  type Word = bv32

  const BLOCK_BYTES: nat := 64

  // ---- The compression function, in the notation of FIPS 180-4 sections 4.1.1, 4.2.1 and 6.1.2 ----

  function RotateLeft(x: Word, n: nat): Word
    requires 0 < n < 32
  {
    (x << n) | (x >> (32 - n))
  }

  function Ch(x: Word, y: Word, z: Word): Word {
    (x & y) ^ (!x & z)
  }

  function Parity(x: Word, y: Word, z: Word): Word {
    x ^ y ^ z
  }

  function Maj(x: Word, y: Word, z: Word): Word {
    (x & y) ^ (x & z) ^ (y & z)
  }

  function F(t: nat, x: Word, y: Word, z: Word): Word {
    if t < 20 then Ch(x, y, z) else if t < 40 then Parity(x, y, z) else if t < 60 then Maj(x, y, z) else Parity(x, y, z)
  }

  function K(t: nat): Word {
    if t < 20 then 0x5a827999 else if t < 40 then 0x6ed9eba1 else if t < 60 then 0x8f1bbcdc else 0xca62c1d6
  }

  /** Four bytes, most significant first. */
  function ToWord(a: Octet, b: Octet, c: Octet, d: Octet): Word {
    ((a as Word) << 24) | ((b as Word) << 16) | ((c as Word) << 8) | (d as Word)
  }

  function BlockWords(block: seq<Octet>, n: nat): (r: seq<Word>)
    requires |block| == BLOCK_BYTES && n <= 16
    ensures |r| == n
  {
    if n == 0 then []
    else BlockWords(block, n - 1) + [ToWord(block[4 * n - 4], block[4 * n - 3], block[4 * n - 2], block[4 * n - 1])]
  }

  /** A later word of the schedule, from four words before it. */
  function Mixed(a: Word, b: Word, c: Word, d: Word): Word {
    RotateLeft(a ^ b ^ c ^ d, 1)
  }

  /** The first `n` words of the message schedule. */
  function Schedule(block: seq<Octet>, n: nat): (r: seq<Word>)
    requires |block| == BLOCK_BYTES && 16 <= n <= 80
    ensures |r| == n
  {
    if n == 16 then BlockWords(block, 16)
    else
      var w := Schedule(block, n - 1);
      w + [Mixed(w[n - 4], w[n - 9], w[n - 15], w[n - 17])]
  }

  lemma FirstWords(block: seq<Octet>)
    requires |block| == BLOCK_BYTES
    ensures BlockWords(block, 0) == [] && Schedule(block, 16) == BlockWords(block, 16)
  {
  }

  lemma NextBlockWord(block: seq<Octet>, i: nat)
    requires |block| == BLOCK_BYTES && i < 16
    ensures BlockWords(block, i + 1) ==
      BlockWords(block, i) + [ToWord(block[4 * i], block[4 * i + 1], block[4 * i + 2], block[4 * i + 3])]
  {
    hide ToWord;
  }

  lemma NextWord(block: seq<Octet>, i: nat)
    requires |block| == BLOCK_BYTES && 16 <= i < 80
    ensures var w := Schedule(block, i);
      Schedule(block, i + 1) == w + [Mixed(w[i - 3], w[i - 8], w[i - 14], w[i - 16])]
  {
    hide Mixed, BlockWords;
  }

  datatype State = State(a: Word, b: Word, c: Word, d: Word, e: Word)

  function Initial(): State {
    State(0x67452301, 0xefcdab89, 0x98badcfe, 0x10325476, 0xc3d2e1f0)
  }

  /** Addition modulo 2^32. */
  function Sum(a: Word, b: Word, c: Word, d: Word, e: Word): Word {
    a + b + c + d + e
  }

  function Round(s: State, t: nat, w: Word): State {
    State(Sum(RotateLeft(s.a, 5), F(t, s.b, s.c, s.d), s.e, K(t), w), s.a, RotateLeft(s.b, 30), s.c, s.d)
  }

  function Rounds(s: State, words: seq<Word>): State {
    if words == [] then s else Round(Rounds(s, words[..|words| - 1]), |words| - 1, words[|words| - 1])
  }

  function Plus(s: State, t: State): State {
    State(s.a + t.a, s.b + t.b, s.c + t.c, s.d + t.d, s.e + t.e)
  }

  function Compress(s: State, block: seq<Octet>): State
    requires |block| == BLOCK_BYTES
  {
    Plus(s, Rounds(s, Schedule(block, 80)))
  }

  // ---- Padding and the hash of a whole message, sections 5.1.1 and 6.1 ----

  function Zeros(n: nat): (r: seq<Octet>)
    ensures |r| == n
  {
    if n == 0 then [] else Zeros(n - 1) + [0]
  }

  /** The low `k` bytes of a number, most significant first. */
  function BigEndian(x: nat, k: nat): (r: seq<Octet>)
    ensures |r| == k
  {
    if k == 0 then [] else BigEndian(x / 256, k - 1) + [(x % 256) as Octet]
  }

  /** The fewest zero bytes that make message, marker, zeros and length fill whole blocks. */
  function ZeroCount(length: nat): (z: nat)
    ensures z < BLOCK_BYTES && (length + 1 + z + 8) % BLOCK_BYTES == 0
  {
    (119 - length % BLOCK_BYTES) % BLOCK_BYTES
  }

  /** The message length in bits stands in the last eight bytes, modulo 2^64. */
  function Padding(length: nat): seq<Octet> {
    [0x80] + Zeros(ZeroCount(length)) + BigEndian(8 * length % 0x1_0000_0000_0000_0000, 8)
  }

  function Fold(s: State, bytes: seq<Octet>): State
    requires |bytes| % BLOCK_BYTES == 0
    decreases |bytes|
  {
    if bytes == [] then s else Fold(Compress(s, bytes[..BLOCK_BYTES]), bytes[BLOCK_BYTES..])
  }

  lemma FoldNothing(s: State)
    ensures Fold(s, []) == s
  {
  }

  function Output(s: State): seq<Octet> {
    WordBytes(s.a) + WordBytes(s.b) + WordBytes(s.c) + WordBytes(s.d) + WordBytes(s.e)
  }

  function WordBytes(w: Word): (r: seq<Octet>)
    ensures |r| == 4
  {
    [((w >> 24) & 0xFF) as Octet, ((w >> 16) & 0xFF) as Octet, ((w >> 8) & 0xFF) as Octet, (w & 0xFF) as Octet]
  }

  function Hash(message: seq<Octet>): seq<Octet> {
    PaddedLength(|message|);
    Output(Fold(Initial(), message + Padding(|message|)))
  }

  lemma PaddedLength(length: nat)
    ensures (length + |Padding(length)|) % BLOCK_BYTES == 0
  {
  }

  lemma {:induction false} FoldJoin(s: State, a: seq<Octet>, b: seq<Octet>)
    requires |a| % BLOCK_BYTES == 0 && |b| % BLOCK_BYTES == 0
    ensures |a + b| % BLOCK_BYTES == 0 && Fold(s, a + b) == Fold(Fold(s, a), b)
    decreases |a|
  {
    hide Compress;
    if a == [] {
      assert a + b == b;
    } else {
      var first, rest := a[..BLOCK_BYTES], a[BLOCK_BYTES..];
      assert (a + b)[..BLOCK_BYTES] == first && (a + b)[BLOCK_BYTES..] == rest + b;
      FoldJoin(Compress(s, first), rest, b);
    }
  }

  lemma FoldOne(s: State, block: seq<Octet>)
    requires |block| == BLOCK_BYTES
    ensures Fold(s, block) == Compress(s, block)
  {
    hide Compress;
    assert block[..BLOCK_BYTES] == block && block[BLOCK_BYTES..] == [];
  }

  // ---- The bit tricks of the implementation ----

  // The hasher computes two of the functions with `or` in the place of `exclusive or`.

  function ChooseWithOr(x: Word, y: Word, z: Word): Word {
    (x & y) | (!x & z)
  }

  function MajorityWithOr(x: Word, y: Word, z: Word): Word {
    (x & y) | (x & z) | (y & z)
  }

  lemma ChooseByOr(x: Word, y: Word, z: Word)
    ensures ChooseWithOr(x, y, z) == Ch(x, y, z)
  {
    assert (x & y) | (!x & z) == (x & y) ^ (!x & z);
  }

  lemma MajorityByOr(x: Word, y: Word, z: Word)
    ensures MajorityWithOr(x, y, z) == Maj(x, y, z)
  {
    assert (x & y) | (x & z) | (y & z) == (x & y) ^ (x & z) ^ (y & z);
  }

  // ---- The incremental hasher ----

  class Sha1Hasher {
    const state: array<Word>
    const pending: array<Octet>
    const words: array<Word>
    var pendingLength: nat
    var bytesHashed: nat
    /** Everything supplied since the start or the last reset. */
    ghost var message: seq<Octet>

    ghost predicate Ready() {
      state.Length == 5 && pending.Length == BLOCK_BYTES && words.Length == 80 && state != words
    }

    /** The first `done` bytes are folded into the state, the next ones are pending. */
    ghost predicate Holds(total: seq<Octet>, done: nat)
      requires Ready()
      reads this`pendingLength, state, pending
    {
      && done % BLOCK_BYTES == 0 && pendingLength < BLOCK_BYTES && done + pendingLength <= |total|
      && Current(state) == Fold(Initial(), total[..done])
      && pending[..pendingLength] == total[done..done + pendingLength]
    }

    ghost predicate Valid()
      reads this, state, pending
    {
      Ready() && bytesHashed == |message| && |message| >= pendingLength && Holds(message, |message| - pendingLength)
    }

    constructor ()
      ensures Valid() && message == [] && fresh(state) && fresh(pending) && fresh(words)
    {
      hide Fold;
      FoldNothing(Initial());
      state := new Word[5];
      pending := new Octet[BLOCK_BYTES](_ => 0);
      words := new Word[80](_ => 0);
      pendingLength, bytesHashed, message := 0, 0, [];
      new;
      state[0], state[1], state[2], state[3], state[4] := 0x67452301, 0xefcdab89, 0x98badcfe, 0x10325476, 0xc3d2e1f0;
    }

    method ExpandWords(block: seq<Octet>)
      requires |block| == BLOCK_BYTES && words.Length == 80
      modifies words
      ensures words[..] == Schedule(block, 80)
    {
      hide ToWord, Mixed, BlockWords, Schedule;
      FirstWords(block);
      for i := 0 to 16
        invariant words[..i] == BlockWords(block, i)
      {
        NextBlockWord(block, i);
        words[i] := ToWord(block[4 * i], block[4 * i + 1], block[4 * i + 2], block[4 * i + 3]);
        assert words[..i + 1] == words[..i] + [words[i]];
      }
      for i := 16 to 80
        invariant words[..i] == Schedule(block, i)
      {
        NextWord(block, i);
        ghost var before := words[..i];
        assert before[i - 3] == words[i - 3] && before[i - 8] == words[i - 8];
        assert before[i - 14] == words[i - 14] && before[i - 16] == words[i - 16];
        words[i] := Mixed(words[i - 3], words[i - 8], words[i - 14], words[i - 16]);
        assert words[..i + 1] == before + [words[i]];
      }
      assert words[..80] == words[..];
    }

    method MixWords(start: State) returns (mixed: State)
      requires words.Length == 80
      ensures mixed == Rounds(start, words[..])
    {
      hide Rounds, F, Sum, RotateLeft;
      var a, b, c, d, e := start.a, start.b, start.c, start.d, start.e;
      NoRounds(start, words[..]);
      for i := 0 to 80
        invariant State(a, b, c, d, e) == Rounds(start, words[..i])
      {
        var f := Select(i, b, c, d);
        var k: Word := if i < 20 then 0x5a827999 else if i < 40 then 0x6ed9eba1 else if i < 60 then 0x8f1bbcdc else 0xca62c1d6;
        var temp := Sum(RotateBy5(a), f, e, k, words[i]);
        RoundStep(start, words[..], i);
        assert words[..][..i] == words[..i] && words[..][..i + 1] == words[..i + 1];
        e := d;
        d := c;
        c := RotateBy30(b);
        b := a;
        a := temp;
      }
      assert words[..80] == words[..];
      mixed := State(a, b, c, d, e);
    }

    method ProcessBlock(block: seq<Octet>, target: array<Word>)
      requires |block| == BLOCK_BYTES && words.Length == 80 && target.Length == 5 && target != words
      modifies words, target
      ensures Current(target) == Compress(old(Current(target)), block)
    {
      hide Rounds, Schedule, Plus;
      ExpandWords(block);
      var start := State(target[0], target[1], target[2], target[3], target[4]);
      var mixed := MixWords(start);
      var sum := Plus(start, mixed);
      target[0], target[1], target[2], target[3], target[4] := sum.a, sum.b, sum.c, sum.d, sum.e;
    }

    method AppendPending(data: seq<Octet>)
      requires Ready() && pendingLength + |data| <= BLOCK_BYTES
      modifies this`pendingLength, pending
      ensures pendingLength == old(pendingLength) + |data|
      ensures pending[..pendingLength] == old(pending[..pendingLength]) + data
    {
      forall i | 0 <= i < |data| {
        pending[pendingLength + i] := data[i];
      }
      pendingLength := pendingLength + |data|;
    }

    /** Fills the pending block first; `offset` is how much of the data that took. */
    method FillPending(data: seq<Octet>, ghost total: seq<Octet>, ghost done: nat) returns (offset: nat, ghost next: nat)
      requires Ready() && Holds(total, done) && total == total[..done + pendingLength] + data && pendingLength > 0
      modifies this`pendingLength, state, pending, words
      ensures Holds(total, next) && offset <= |data| && next + pendingLength + |data| - offset == |total|
      ensures pendingLength > 0 ==> offset == |data|
    {
      hide Fold, Compress;
      var copied := if BLOCK_BYTES - pendingLength < |data| then BLOCK_BYTES - pendingLength else |data|;
      Extends(total, data, done, pendingLength, copied);
      AppendPending(data[..copied]);
      offset, next := copied, done;
      if pendingLength == BLOCK_BYTES {
        assert pending[..] == pending[..pendingLength];
        FoldNext(Initial(), total, done);
        ProcessBlock(pending[..], state);
        pendingLength := 0;
        next := done + BLOCK_BYTES;
      }
    }

    method ProcessWhole(data: seq<Octet>, start: nat, ghost total: seq<Octet>, ghost done: nat) returns (offset: nat, ghost next: nat)
      requires Ready() && Holds(total, done) && pendingLength == 0
      requires start <= |data| && done + |data| - start == |total| && data[start..] == total[done..]
      modifies state, words
      ensures Holds(total, next) && offset <= |data| < offset + BLOCK_BYTES
      ensures next + |data| - offset == |total| && data[offset..] == total[next..]
    {
      hide Fold, Compress;
      offset, next := start, done;
      while offset + BLOCK_BYTES <= |data|
        invariant offset <= |data| && next + |data| - offset == |total| && data[offset..] == total[next..]
        invariant Holds(total, next)
      {
        Advance(data, offset, total, next);
        FoldNext(Initial(), total, next);
        ProcessBlock(data[offset..offset + BLOCK_BYTES], state);
        offset := offset + BLOCK_BYTES;
        next := next + BLOCK_BYTES;
      }
    }

    method KeepRest(rest: seq<Octet>, ghost total: seq<Octet>, ghost done: nat)
      requires Ready() && Holds(total, done) && pendingLength == 0 && |rest| < BLOCK_BYTES && rest == total[done..]
      modifies this`pendingLength, pending
      ensures Holds(total, done) && pendingLength == |rest|
    {
      hide Fold;
      forall k | 0 <= k < |rest| {
        pending[k] := rest[k];
      }
      pendingLength := |rest|;
    }

    method Update(data: seq<Octet>)
      requires Valid()
      modifies this, state, pending, words
      ensures Valid() && message == old(message) + data
    {
      hide Fold, Compress, Sha1Hasher.Holds;
      ghost var total := message + data;
      ghost var done := |message| - pendingLength;
      HoldsMore(data);
      bytesHashed := bytesHashed + |data|;
      message := total;
      var offset := 0;
      if pendingLength > 0 {
        offset, done := FillPending(data, total, done);
      }
      if pendingLength == 0 {
        assert data[offset..] == total[done..];
        offset, done := ProcessWhole(data, offset, total, done);
        KeepRest(data[offset..], total, done);
      }
    }

    lemma HoldsMore(data: seq<Octet>)
      requires Valid()
      ensures Holds(message + data, |message| - pendingLength)
    {
      hide Fold;
      var done := |message| - pendingLength;
      Extends(message + data, data, done, pendingLength, 0);
      assert (message + data)[..done] == message[..done];
    }

    method CopyState() returns (copy: array<Word>)
      requires state.Length == 5
      ensures fresh(copy) && copy.Length == 5 && Current(copy) == Current(state)
    {
      copy := new Word[5];
      copy[0], copy[1], copy[2], copy[3], copy[4] := state[0], state[1], state[2], state[3], state[4];
    }

    /** Leaves the message as it is: more can be supplied afterwards. */
    method Digest() returns (digest: seq<Octet>)
      requires Valid()
      modifies words
      ensures Valid() && digest == Hash(message)
    {
      hide Fold, Compress, Padding, Output, Hash;
      var blockLength := if pendingLength < 56 then 64 else 128;
      var finalBlock := FinalBlock(blockLength);
      ghost var full := |message| - pendingLength;
      var copy := CopyState();
      PaddedSplit(message, full, finalBlock);
      assert finalBlock[..blockLength] == finalBlock;
      ProcessBlock(finalBlock[..64], copy);
      if blockLength == 128 {
        ProcessBlock(finalBlock[64..], copy);
      }
      digest := Output(Current(copy));
    }

    /** The pending bytes and the marker in front of zeros. */
    method MarkedBlock() returns (block: array<Octet>)
      requires Valid()
      ensures fresh(block) && block.Length == 128 && block[..pendingLength + 1] == pending[..pendingLength] + [0x80]
      ensures forall j :: pendingLength < j < 128 ==> block[j] == 0
    {
      hide Fold, Compress;
      block := new Octet[128](_ => 0);
      for i := 0 to pendingLength
        invariant block[..i] == pending[..i] && forall j :: i <= j < 128 ==> block[j] == 0
      {
        block[i] := pending[i];
      }
      block[pendingLength] := 0x80;
    }

    /** The pending bytes, the marker, zeros and the message length in bits. */
    method FinalBlock(blockLength: nat) returns (bytes: seq<Octet>)
      requires Valid() && blockLength == if pendingLength < 56 then 64 else 128
      ensures bytes == pending[..pendingLength] + Padding(|message|) && |bytes| == blockLength
    {
      hide Fold, Compress, BigEndian, Zeros;
      var block := MarkedBlock();
      ghost var zeros := ZeroCount(|message|);
      ZerosFit(|message|, pendingLength, blockLength);
      assert block[..blockLength - 8] == block[..pendingLength + 1] + block[pendingLength + 1..blockLength - 8];
      assert |block[pendingLength + 1..blockLength - 8]| == blockLength - 8 - (pendingLength + 1) == zeros;
      OnlyZeros(block[pendingLength + 1..blockLength - 8], zeros);
      WriteLength(block, blockLength, bytesHashed * 8 % 0x1_0000_0000_0000_0000);
      bytes := block[..blockLength];
    }

    method Reset()
      requires Valid()
      modifies this, state
      ensures Valid() && message == []
    {
      hide Fold;
      FoldNothing(Initial());
      state[0], state[1], state[2], state[3], state[4] := 0x67452301, 0xefcdab89, 0x98badcfe, 0x10325476, 0xc3d2e1f0;
      pendingLength, bytesHashed, message := 0, 0, [];
    }
  }

  /** Writes the eight bytes of the length from the last one backwards. */
  method WriteLength(block: array<Octet>, end: nat, length: nat)
    requires 8 <= end <= block.Length
    modifies block
    ensures block[..end] == old(block[..end - 8]) + BigEndian(length, 8)
  {
    var bitLength := length;
    for i := 0 to 8
      invariant block[..end - 8] == old(block[..end - 8]) && bitLength >= 0
      invariant BigEndian(length, 8) == BigEndian(bitLength, 8 - i) + block[end - i..end]
    {
      ghost var behind := block[end - i..end];
      block[end - 1 - i] := (bitLength % 256) as Octet;
      assert block[end - 1 - i..end] == [(bitLength % 256) as Octet] + behind;
      bitLength := bitLength / 256;
    }
    assert block[..end] == block[..end - 8] + block[end - 8..end];
  }

  method Select(i: nat, x: Word, y: Word, z: Word) returns (f: Word)
    ensures f == F(i, x, y, z)
  {
    hide Ch, Maj, Parity, ChooseWithOr, MajorityWithOr;
    ChooseByOr(x, y, z);
    MajorityByOr(x, y, z);
    f := if i < 20 then ChooseWithOr(x, y, z)
         else if i < 40 then Parity(x, y, z)
         else if i < 60 then MajorityWithOr(x, y, z)
         else Parity(x, y, z);
  }

  function RotateBy5(x: Word): (r: Word)
    ensures r == RotateLeft(x, 5)
  {
    (x << 5) | (x >> 27)
  }

  function RotateBy30(x: Word): (r: Word)
    ensures r == RotateLeft(x, 30)
  {
    (x << 30) | (x >> 2)
  }

  lemma FoldNext(s: State, total: seq<Octet>, done: nat)
    requires done % BLOCK_BYTES == 0 && done + BLOCK_BYTES <= |total|
    ensures (done + BLOCK_BYTES) % BLOCK_BYTES == 0
    ensures Fold(s, total[..done + BLOCK_BYTES]) == Compress(Fold(s, total[..done]), total[done..done + BLOCK_BYTES])
  {
    hide Compress, Fold;
    var block := total[done..done + BLOCK_BYTES];
    FoldJoin(s, total[..done], block);
    FoldOne(Fold(s, total[..done]), block);
    assert total[..done] + block == total[..done + BLOCK_BYTES];
  }

  lemma Extends(total: seq<Octet>, data: seq<Octet>, done: nat, taken: nat, copied: nat)
    requires done + taken <= |total| && total == total[..done + taken] + data && copied <= |data|
    ensures total[done..done + taken] + data[..copied] == total[done..done + taken + copied]
  {
  }

  lemma Advance(data: seq<Octet>, offset: nat, total: seq<Octet>, done: nat)
    requires offset + BLOCK_BYTES <= |data| && done <= |total| && data[offset..] == total[done..]
    ensures done + BLOCK_BYTES <= |total|
    ensures data[offset..offset + BLOCK_BYTES] == total[done..done + BLOCK_BYTES]
    ensures data[offset + BLOCK_BYTES..] == total[done + BLOCK_BYTES..]
  {
    assert data[offset..offset + BLOCK_BYTES] == data[offset..][..BLOCK_BYTES];
    assert data[offset + BLOCK_BYTES..] == data[offset..][BLOCK_BYTES..];
  }

  lemma ZerosFit(length: nat, rest: nat, blockLength: nat)
    requires rest < BLOCK_BYTES && rest <= length && (length - rest) % BLOCK_BYTES == 0
    requires blockLength == if rest < 56 then 64 else 128
    ensures rest + 1 + ZeroCount(length) == blockLength - 8
  {
  }

  lemma OnlyZeros(s: seq<Octet>, n: nat)
    requires |s| == n && forall i :: 0 <= i < n ==> s[i] == 0
    ensures s == Zeros(n)
  {
    ZerosAreZero(n);
  }

  lemma {:induction false} ZerosAreZero(n: nat)
    ensures forall i :: 0 <= i < n ==> Zeros(n)[i] == 0
  {
    if n == 0 {
    } else {
      ZerosAreZero(n - 1);
    }
  }

  /** Hashing the padded message is going on from the full blocks with the final ones. */
  lemma PaddedSplit(message: seq<Octet>, full: nat, final: seq<Octet>)
    requires full <= |message| && full % BLOCK_BYTES == 0 && (|final| == 64 || |final| == 128)
    requires final == message[full..] + Padding(|message|)
    ensures var s := Fold(Initial(), message[..full]);
      Hash(message) == Output(if |final| == 64 then Compress(s, final) else Compress(Compress(s, final[..64]), final[64..]))
  {
    hide Fold, Compress, Padding, Output;
    var s := Fold(Initial(), message[..full]);
    PaddedLength(|message|);
    assert message + Padding(|message|) == message[..full] + final;
    FoldJoin(Initial(), message[..full], final);
    if |final| == 64 {
      FoldOne(s, final);
    } else {
      assert final == final[..64] + final[64..];
      FoldJoin(s, final[..64], final[64..]);
      FoldOne(s, final[..64]);
      FoldOne(Compress(s, final[..64]), final[64..]);
    }
  }

  lemma NoRounds(s: State, words: seq<Word>)
    ensures Rounds(s, words[..0]) == s
  {
  }

  function Current(state: array<Word>): State
    requires state.Length == 5
    reads state
  {
    State(state[0], state[1], state[2], state[3], state[4])
  }

  lemma RoundStep(s: State, words: seq<Word>, i: nat)
    requires i < |words|
    ensures Rounds(s, words[..i + 1]) == Round(Rounds(s, words[..i]), i, words[i])
  {
    hide Round;
    assert words[..i + 1][..i] == words[..i];
  }
}
