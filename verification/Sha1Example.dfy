/** SHA-1 on the example of its standard, and its message schedule bit by bit. */
module Sha1Example {
  import opened Sha1
  import opened Arithmetic

  // ---- The message schedule by bits ----

  /** Bit `i` of a word, counted from the lowest. */
  predicate Bit(x: Word, i: Word)
    requires i < 32
  {
    (x >> i) & 1 == 1
  }

  lemma RotatedByOne(x: Word)
    ensures RotateLeft(x, 1) == (x << 1) | (x >> 31)
  {
    var n: nat := 1;
    assert x << n == x << 1;
    assert x >> (32 - n) == x >> 31;
  }

  lemma BitOfRotation(x: Word, rotated: Word, i: Word, j: Word)
    requires i < 32 && j < 32 && j == (i + 31) % 32 && rotated == (x << 1) | (x >> 31)
    ensures Bit(rotated, i) <==> Bit(x, j)
  {
  }

  lemma BitsUnderXor(a: Word, b: Word, c: Word, d: Word, j: Word)
    requires j < 32
    ensures ((a ^ b ^ c ^ d) >> j) & 1 == 1 <==>
      ((((a >> j) & 1 == 1) != ((b >> j) & 1 == 1)) != ((c >> j) & 1 == 1)) != ((d >> j) & 1 == 1)
  {
  }

  lemma BitOfXor(a: Word, b: Word, c: Word, d: Word, x: Word, j: Word)
    requires j < 32 && x == a ^ b ^ c ^ d
    ensures Bit(x, j) <==> ((Bit(a, j) != Bit(b, j)) != Bit(c, j)) != Bit(d, j)
  {
    BitsUnderXor(a, b, c, d, j);
  }

  lemma BitOfMixed(a: Word, b: Word, c: Word, d: Word, i: Word, j: Word)
    requires i < 32 && j < 32 && j == (i + 31) % 32
    ensures Bit(Mixed(a, b, c, d), i) <==> ((Bit(a, j) != Bit(b, j)) != Bit(c, j)) != Bit(d, j)
  {
    hide RotateLeft, Bit;
    var x := a ^ b ^ c ^ d;
    RotatedByOne(x);
    BitOfRotation(x, RotateLeft(x, 1), i, j);
    BitOfXor(a, b, c, d, x, j);
  }

  /** A prefix of the schedule is the schedule of that length. */
  lemma {:induction false} ScheduleIsPrefix(block: seq<Octet>, n: nat, m: nat)
    requires |block| == BLOCK_BYTES && 16 <= n <= m <= 80
    ensures Schedule(block, m)[..n] == Schedule(block, n)
  {
    hide Mixed, BlockWords;
    if n < m {
      ScheduleIsPrefix(block, n, m - 1);
      NextWord(block, m - 1);
      assert Schedule(block, m)[..m - 1] == Schedule(block, m - 1);
      assert Schedule(block, m)[..n] == Schedule(block, m)[..m - 1][..n];
    }
  }

  lemma MixedAt(block: seq<Octet>, t: nat)
    requires |block| == BLOCK_BYTES && 16 <= t < 80
    ensures var w := Schedule(block, 80); w[t] == Mixed(w[t - 3], w[t - 8], w[t - 14], w[t - 16])
  {
    hide Mixed, Schedule;
    var w := Schedule(block, 80);
    NextWord(block, t);
    ScheduleIsPrefix(block, t, 80);
    ScheduleIsPrefix(block, t + 1, 80);
    assert w[t] == w[..t + 1][t];
    assert w[..t][t - 3] == w[t - 3] && w[..t][t - 8] == w[t - 8] && w[..t][t - 14] == w[t - 14] && w[..t][t - 16] == w[t - 16];
  }

  /**
   In the words that the hasher expands, each bit of a later word is the exclusive or of the next lower bit, the
   lowest coming from the highest, of the words 3, 8, 14 and 16 places before.
   */
  lemma ScheduleBits(block: seq<Octet>, t: nat, i: Word, j: Word)
    requires |block| == BLOCK_BYTES && 16 <= t < 80 && i < 32 && j < 32 && j == (i + 31) % 32
    ensures var w := Schedule(block, 80);
      Bit(w[t], i) <==> ((Bit(w[t - 3], j) != Bit(w[t - 8], j)) != Bit(w[t - 14], j)) != Bit(w[t - 16], j)
  {
    hide *;
    var w := Schedule(block, 80);
    MixedAt(block, t);
    BitOfMixed(w[t - 3], w[t - 8], w[t - 14], w[t - 16], i, j);
  }

  /** The first sixteen words are the block, four bytes each, the most significant first. */
  lemma {:induction false} BlockWordAt(block: seq<Octet>, n: nat, t: nat)
    requires |block| == BLOCK_BYTES && t < n <= 16
    ensures BlockWords(block, n)[t] == ToWord(block[4 * t], block[4 * t + 1], block[4 * t + 2], block[4 * t + 3])
  {
    hide ToWord;
    if t < n - 1 {
      BlockWordAt(block, n - 1, t);
    }
  }

  lemma FirstWordAt(block: seq<Octet>, t: nat)
    requires |block| == BLOCK_BYTES && t < 16
    ensures Schedule(block, 80)[t] == ToWord(block[4 * t], block[4 * t + 1], block[4 * t + 2], block[4 * t + 3])
  {
    hide ToWord, BlockWords, Schedule;
    BlockWordAt(block, 16, t);
    FirstWords(block);
    ScheduleIsPrefix(block, 16, 80);
    assert Schedule(block, 80)[t] == Schedule(block, 80)[..16][t];
  }

  // ---- The length in the last block ----

  function Pow256(k: nat): (p: nat)
    ensures p > 0
  {
    if k == 0 then 1 else 256 * Pow256(k - 1)
  }

  /** Each byte is the digit of its place, the most significant first. */
  lemma {:induction false} BigEndianAt(x: nat, k: nat, j: nat)
    requires j < k
    ensures BigEndian(x, k)[j] == (x / Pow256(k - 1 - j) % 256) as Octet
  {
    if j < k - 1 {
      BigEndianAt(x / 256, k - 1, j);
      DivideTwice(x, Pow256(k - 2 - j));
    }
  }

  lemma DivideTwice(x: nat, n: nat)
    requires n > 0
    ensures x / 256 / n == x / (256 * n)
  {
    var high := x / 256;
    var q, r := high / n, high % n;
    DivMod(high, n);
    assert x == 256 * (q * n + r) + x % 256 == q * (256 * n) + (r * 256 + x % 256);
    DivIs(x, q, r * 256 + x % 256, 256 * n);
  }

  // ---- The digest of "abc" ----

  const ABC: seq<Octet> := [0x61, 0x62, 0x63]

  // The rows of its message schedule, eight words each.

  predicate Row0(w: seq<Word>)
    requires |w| == 80
  {
    && w[0] == 0x61626380 && w[1] == 0x00000000 && w[2] == 0x00000000 && w[3] == 0x00000000
    && w[4] == 0x00000000 && w[5] == 0x00000000 && w[6] == 0x00000000 && w[7] == 0x00000000
  }

  predicate Row1(w: seq<Word>)
    requires |w| == 80
  {
    && w[8] == 0x00000000 && w[9] == 0x00000000 && w[10] == 0x00000000 && w[11] == 0x00000000
    && w[12] == 0x00000000 && w[13] == 0x00000000 && w[14] == 0x00000000 && w[15] == 0x00000018
  }

  predicate Row2(w: seq<Word>)
    requires |w| == 80
  {
    && w[16] == 0xc2c4c700 && w[17] == 0x00000000 && w[18] == 0x00000030 && w[19] == 0x85898e01
    && w[20] == 0x00000000 && w[21] == 0x00000060 && w[22] == 0x0b131c03 && w[23] == 0x00000030
  }

  predicate Row3(w: seq<Word>)
    requires |w| == 80
  {
    && w[24] == 0x85898ec1 && w[25] == 0x16263806 && w[26] == 0x00000000 && w[27] == 0x00000180
    && w[28] == 0x2c4c700c && w[29] == 0x000000f0 && w[30] == 0x93afb507 && w[31] == 0x5898e048
  }

  predicate Row4(w: seq<Word>)
    requires |w| == 80
  {
    && w[32] == 0x8e9a9202 && w[33] == 0x00000600 && w[34] == 0xb131c0f0 && w[35] == 0x16263bc6
    && w[36] == 0x4ebed41e && w[37] == 0x626380a1 && w[38] == 0x16263806 && w[39] == 0x000018c0
  }

  predicate Row5(w: seq<Word>)
    requires |w| == 80
  {
    && w[40] == 0xd2e138c4 && w[41] == 0x00000f00 && w[42] == 0x3afb5079 && w[43] == 0x898e04e5
    && w[44] == 0xe2ba3c2b && w[45] == 0x000060c0 && w[46] == 0x053a37cd && w[47] == 0x74458547
  }

  predicate Row6(w: seq<Word>)
    requires |w| == 80
  {
    && w[48] == 0xda9415ed && w[49] == 0x26380a16 && w[50] == 0x626383a1 && w[51] == 0x4ebf54de
    && w[52] == 0x3835b44b && w[53] == 0x0000f600 && w[54] == 0x1e84c7a3 && w[55] == 0x98e04d98
  }

  predicate Row7(w: seq<Word>)
    requires |w| == 80
  {
    && w[56] == 0x651d16a0 && w[57] == 0x62658ca1 && w[58] == 0x458544d6 && w[59] == 0x44584cb7
    && w[60] == 0x7ba06619 && w[61] == 0x6380aea2 && w[62] == 0x0ae55269 && w[63] == 0x627b49a1
  }

  predicate Row8(w: seq<Word>)
    requires |w| == 80
  {
    && w[64] == 0x7cd45c9d && w[65] == 0x000f0000 && w[66] == 0xfb50753a && w[67] == 0xec6765e8
    && w[68] == 0xba3c2be2 && w[69] == 0x0060c000 && w[70] == 0x3a37cd05 && w[71] == 0x458546f4
  }

  predicate Row9(w: seq<Word>)
    requires |w| == 80
  {
    && w[72] == 0xb8599dd6 && w[73] == 0x380a1a26 && w[74] == 0x01e02203 && w[75] == 0xe7cc3456
    && w[76] == 0xe6e60b69 && w[77] == 0x00f60a00 && w[78] == 0x5795ef4f && w[79] == 0x822e0879
  }

  /** Each word from the seventeenth on is mixed from those before it. */
  predicate Follows(w: seq<Word>)
    requires |w| == 80
  {
    forall t :: 16 <= t < 80 ==> IsMixed(w, t)
  }

  predicate IsMixed(w: seq<Word>, t: nat)
    requires 16 <= t < |w|
  {
    w[t] == Mixed(w[t - 3], w[t - 8], w[t - 14], w[t - 16])
  }

  lemma MixedFrom(w: seq<Word>, t: nat, a: Word, b: Word, c: Word, d: Word)
    requires |w| == 80 && 16 <= t < 80 && Follows(w)
    requires w[t - 3] == a && w[t - 8] == b && w[t - 14] == c && w[t - 16] == d
    ensures w[t] == Mixed(a, b, c, d)
  {
    hide Mixed;
    assert IsMixed(w, t);
  }

  lemma Makes2(w: seq<Word>)
    requires |w| == 80 && Follows(w) && Row0(w) && Row1(w)
    ensures Row2(w)
  {
    hide Follows;
    MixedFrom(w, 16, 0x00000000, 0x00000000, 0x00000000, 0x61626380);
    MixedFrom(w, 17, 0x00000000, 0x00000000, 0x00000000, 0x00000000);
    MixedFrom(w, 18, 0x00000018, 0x00000000, 0x00000000, 0x00000000);
    MixedFrom(w, 19, 0xc2c4c700, 0x00000000, 0x00000000, 0x00000000);
    MixedFrom(w, 20, 0x00000000, 0x00000000, 0x00000000, 0x00000000);
    MixedFrom(w, 21, 0x00000030, 0x00000000, 0x00000000, 0x00000000);
    MixedFrom(w, 22, 0x85898e01, 0x00000000, 0x00000000, 0x00000000);
    MixedFrom(w, 23, 0x00000000, 0x00000018, 0x00000000, 0x00000000);
  }

  lemma Makes3(w: seq<Word>)
    requires |w| == 80 && Follows(w) && Row1(w) && Row2(w)
    ensures Row3(w)
  {
    hide Follows;
    MixedFrom(w, 24, 0x00000060, 0xc2c4c700, 0x00000000, 0x00000000);
    MixedFrom(w, 25, 0x0b131c03, 0x00000000, 0x00000000, 0x00000000);
    MixedFrom(w, 26, 0x00000030, 0x00000030, 0x00000000, 0x00000000);
    MixedFrom(w, 27, 0x85898ec1, 0x85898e01, 0x00000000, 0x00000000);
    MixedFrom(w, 28, 0x16263806, 0x00000000, 0x00000000, 0x00000000);
    MixedFrom(w, 29, 0x00000000, 0x00000060, 0x00000018, 0x00000000);
    MixedFrom(w, 30, 0x00000180, 0x0b131c03, 0xc2c4c700, 0x00000000);
    MixedFrom(w, 31, 0x2c4c700c, 0x00000030, 0x00000000, 0x00000018);
  }

  lemma Makes4(w: seq<Word>)
    requires |w| == 80 && Follows(w) && Row2(w) && Row3(w)
    ensures Row4(w)
  {
    hide Follows;
    MixedFrom(w, 32, 0x000000f0, 0x85898ec1, 0x00000030, 0xc2c4c700);
    MixedFrom(w, 33, 0x93afb507, 0x16263806, 0x85898e01, 0x00000000);
    MixedFrom(w, 34, 0x5898e048, 0x00000000, 0x00000000, 0x00000030);
    MixedFrom(w, 35, 0x8e9a9202, 0x00000180, 0x00000060, 0x85898e01);
    MixedFrom(w, 36, 0x00000600, 0x2c4c700c, 0x0b131c03, 0x00000000);
    MixedFrom(w, 37, 0xb131c0f0, 0x000000f0, 0x00000030, 0x00000060);
    MixedFrom(w, 38, 0x16263bc6, 0x93afb507, 0x85898ec1, 0x0b131c03);
    MixedFrom(w, 39, 0x4ebed41e, 0x5898e048, 0x16263806, 0x00000030);
  }

  lemma Makes5(w: seq<Word>)
    requires |w| == 80 && Follows(w) && Row3(w) && Row4(w)
    ensures Row5(w)
  {
    hide Follows;
    MixedFrom(w, 40, 0x626380a1, 0x8e9a9202, 0x00000000, 0x85898ec1);
    MixedFrom(w, 41, 0x16263806, 0x00000600, 0x00000180, 0x16263806);
    MixedFrom(w, 42, 0x000018c0, 0xb131c0f0, 0x2c4c700c, 0x00000000);
    MixedFrom(w, 43, 0xd2e138c4, 0x16263bc6, 0x000000f0, 0x00000180);
    MixedFrom(w, 44, 0x00000f00, 0x4ebed41e, 0x93afb507, 0x2c4c700c);
    MixedFrom(w, 45, 0x3afb5079, 0x626380a1, 0x5898e048, 0x000000f0);
    MixedFrom(w, 46, 0x898e04e5, 0x16263806, 0x8e9a9202, 0x93afb507);
    MixedFrom(w, 47, 0xe2ba3c2b, 0x000018c0, 0x00000600, 0x5898e048);
  }

  lemma Makes6(w: seq<Word>)
    requires |w| == 80 && Follows(w) && Row4(w) && Row5(w)
    ensures Row6(w)
  {
    hide Follows;
    MixedFrom(w, 48, 0x000060c0, 0xd2e138c4, 0xb131c0f0, 0x8e9a9202);
    MixedFrom(w, 49, 0x053a37cd, 0x00000f00, 0x16263bc6, 0x00000600);
    MixedFrom(w, 50, 0x74458547, 0x3afb5079, 0x4ebed41e, 0xb131c0f0);
    MixedFrom(w, 51, 0xda9415ed, 0x898e04e5, 0x626380a1, 0x16263bc6);
    MixedFrom(w, 52, 0x26380a16, 0xe2ba3c2b, 0x16263806, 0x4ebed41e);
    MixedFrom(w, 53, 0x626383a1, 0x000060c0, 0x000018c0, 0x626380a1);
    MixedFrom(w, 54, 0x4ebf54de, 0x053a37cd, 0xd2e138c4, 0x16263806);
    MixedFrom(w, 55, 0x3835b44b, 0x74458547, 0x00000f00, 0x000018c0);
  }

  lemma Makes7(w: seq<Word>)
    requires |w| == 80 && Follows(w) && Row5(w) && Row6(w)
    ensures Row7(w)
  {
    hide Follows;
    MixedFrom(w, 56, 0x0000f600, 0xda9415ed, 0x3afb5079, 0xd2e138c4);
    MixedFrom(w, 57, 0x1e84c7a3, 0x26380a16, 0x898e04e5, 0x00000f00);
    MixedFrom(w, 58, 0x98e04d98, 0x626383a1, 0xe2ba3c2b, 0x3afb5079);
    MixedFrom(w, 59, 0x651d16a0, 0x4ebf54de, 0x000060c0, 0x898e04e5);
    MixedFrom(w, 60, 0x62658ca1, 0x3835b44b, 0x053a37cd, 0xe2ba3c2b);
    MixedFrom(w, 61, 0x458544d6, 0x0000f600, 0x74458547, 0x000060c0);
    MixedFrom(w, 62, 0x44584cb7, 0x1e84c7a3, 0xda9415ed, 0x053a37cd);
    MixedFrom(w, 63, 0x7ba06619, 0x98e04d98, 0x26380a16, 0x74458547);
  }

  lemma Makes8(w: seq<Word>)
    requires |w| == 80 && Follows(w) && Row6(w) && Row7(w)
    ensures Row8(w)
  {
    hide Follows;
    MixedFrom(w, 64, 0x6380aea2, 0x651d16a0, 0x626383a1, 0xda9415ed);
    MixedFrom(w, 65, 0x0ae55269, 0x62658ca1, 0x4ebf54de, 0x26380a16);
    MixedFrom(w, 66, 0x627b49a1, 0x458544d6, 0x3835b44b, 0x626383a1);
    MixedFrom(w, 67, 0x7cd45c9d, 0x44584cb7, 0x0000f600, 0x4ebf54de);
    MixedFrom(w, 68, 0x000f0000, 0x7ba06619, 0x1e84c7a3, 0x3835b44b);
    MixedFrom(w, 69, 0xfb50753a, 0x6380aea2, 0x98e04d98, 0x0000f600);
    MixedFrom(w, 70, 0xec6765e8, 0x0ae55269, 0x651d16a0, 0x1e84c7a3);
    MixedFrom(w, 71, 0xba3c2be2, 0x627b49a1, 0x62658ca1, 0x98e04d98);
  }

  lemma Makes9(w: seq<Word>)
    requires |w| == 80 && Follows(w) && Row7(w) && Row8(w)
    ensures Row9(w)
  {
    hide Follows;
    MixedFrom(w, 72, 0x0060c000, 0x7cd45c9d, 0x458544d6, 0x651d16a0);
    MixedFrom(w, 73, 0x3a37cd05, 0x000f0000, 0x44584cb7, 0x62658ca1);
    MixedFrom(w, 74, 0x458546f4, 0xfb50753a, 0x7ba06619, 0x458544d6);
    MixedFrom(w, 75, 0xb8599dd6, 0xec6765e8, 0x6380aea2, 0x44584cb7);
    MixedFrom(w, 76, 0x380a1a26, 0xba3c2be2, 0x0ae55269, 0x7ba06619);
    MixedFrom(w, 77, 0x01e02203, 0x0060c000, 0x627b49a1, 0x6380aea2);
    MixedFrom(w, 78, 0xe7cc3456, 0x3a37cd05, 0x7cd45c9d, 0x0ae55269);
    MixedFrom(w, 79, 0xe6e60b69, 0x458546f4, 0x000f0000, 0x627b49a1);
  }

  lemma Next(w: seq<Word>, t: nat, s: State, word: Word, after: State)
    requires |w| == 80 && t < 80 && w[t] == word && Rounds(Initial(), w[..t]) == s && Round(s, t, word) == after
    ensures Rounds(Initial(), w[..t + 1]) == after
  {
    hide Round;
    RoundStep(Initial(), w, t);
  }

  // The working variables after every eight rounds.

  lemma Rounds0(w: seq<Word>)
    requires |w| == 80 && Row0(w)
    requires Rounds(Initial(), w[..0]) == State(0x67452301, 0xefcdab89, 0x98badcfe, 0x10325476, 0xc3d2e1f0)
    ensures Rounds(Initial(), w[..8]) == State(0x9e8c07d4, 0x993e30c1, 0x0ff1f290, 0xb3f52677, 0xf3763846)
  {
    hide Rounds;
    Next(w, 0, State(0x67452301, 0xefcdab89, 0x98badcfe, 0x10325476, 0xc3d2e1f0), 0x61626380,
         State(0x0116fc33, 0x67452301, 0x7bf36ae2, 0x98badcfe, 0x10325476));
    Next(w, 1, State(0x0116fc33, 0x67452301, 0x7bf36ae2, 0x98badcfe, 0x10325476), 0x00000000,
         State(0x8990536d, 0x0116fc33, 0x59d148c0, 0x7bf36ae2, 0x98badcfe));
    Next(w, 2, State(0x8990536d, 0x0116fc33, 0x59d148c0, 0x7bf36ae2, 0x98badcfe), 0x00000000,
         State(0xa1390f08, 0x8990536d, 0xc045bf0c, 0x59d148c0, 0x7bf36ae2));
    Next(w, 3, State(0xa1390f08, 0x8990536d, 0xc045bf0c, 0x59d148c0, 0x7bf36ae2), 0x00000000,
         State(0xcdd8e11b, 0xa1390f08, 0x626414db, 0xc045bf0c, 0x59d148c0));
    Next(w, 4, State(0xcdd8e11b, 0xa1390f08, 0x626414db, 0xc045bf0c, 0x59d148c0), 0x00000000,
         State(0xcfd499de, 0xcdd8e11b, 0x284e43c2, 0x626414db, 0xc045bf0c));
    Next(w, 5, State(0xcfd499de, 0xcdd8e11b, 0x284e43c2, 0x626414db, 0xc045bf0c), 0x00000000,
         State(0x3fc7ca40, 0xcfd499de, 0xf3763846, 0x284e43c2, 0x626414db));
    Next(w, 6, State(0x3fc7ca40, 0xcfd499de, 0xf3763846, 0x284e43c2, 0x626414db), 0x00000000,
         State(0x993e30c1, 0x3fc7ca40, 0xb3f52677, 0xf3763846, 0x284e43c2));
    Next(w, 7, State(0x993e30c1, 0x3fc7ca40, 0xb3f52677, 0xf3763846, 0x284e43c2), 0x00000000,
         State(0x9e8c07d4, 0x993e30c1, 0x0ff1f290, 0xb3f52677, 0xf3763846));
  }

  lemma Rounds1(w: seq<Word>)
    requires |w| == 80 && Row1(w)
    requires Rounds(Initial(), w[..8]) == State(0x9e8c07d4, 0x993e30c1, 0x0ff1f290, 0xb3f52677, 0xf3763846)
    ensures Rounds(Initial(), w[..16]) == State(0x20bdd62f, 0x196bee77, 0x644a3da5, 0x1181ed99, 0x18c623f9)
  {
    hide Rounds;
    Next(w, 8, State(0x9e8c07d4, 0x993e30c1, 0x0ff1f290, 0xb3f52677, 0xf3763846), 0x00000000,
         State(0x4b6ae328, 0x9e8c07d4, 0x664f8c30, 0x0ff1f290, 0xb3f52677));
    Next(w, 9, State(0x4b6ae328, 0x9e8c07d4, 0x664f8c30, 0x0ff1f290, 0xb3f52677), 0x00000000,
         State(0x8351f929, 0x4b6ae328, 0x27a301f5, 0x664f8c30, 0x0ff1f290));
    Next(w, 10, State(0x8351f929, 0x4b6ae328, 0x27a301f5, 0x664f8c30, 0x0ff1f290), 0x00000000,
         State(0xfbda9e89, 0x8351f929, 0x12dab8ca, 0x27a301f5, 0x664f8c30));
    Next(w, 11, State(0xfbda9e89, 0x8351f929, 0x12dab8ca, 0x27a301f5, 0x664f8c30), 0x00000000,
         State(0x63188fe4, 0xfbda9e89, 0x60d47e4a, 0x12dab8ca, 0x27a301f5));
    Next(w, 12, State(0x63188fe4, 0xfbda9e89, 0x60d47e4a, 0x12dab8ca, 0x27a301f5), 0x00000000,
         State(0x4607b664, 0x63188fe4, 0x7ef6a7a2, 0x60d47e4a, 0x12dab8ca));
    Next(w, 13, State(0x4607b664, 0x63188fe4, 0x7ef6a7a2, 0x60d47e4a, 0x12dab8ca), 0x00000000,
         State(0x9128f695, 0x4607b664, 0x18c623f9, 0x7ef6a7a2, 0x60d47e4a));
    Next(w, 14, State(0x9128f695, 0x4607b664, 0x18c623f9, 0x7ef6a7a2, 0x60d47e4a), 0x00000000,
         State(0x196bee77, 0x9128f695, 0x1181ed99, 0x18c623f9, 0x7ef6a7a2));
    Next(w, 15, State(0x196bee77, 0x9128f695, 0x1181ed99, 0x18c623f9, 0x7ef6a7a2), 0x00000018,
         State(0x20bdd62f, 0x196bee77, 0x644a3da5, 0x1181ed99, 0x18c623f9));
  }

  lemma Rounds2(w: seq<Word>)
    requires |w| == 80 && Row2(w)
    requires Rounds(Initial(), w[..16]) == State(0x20bdd62f, 0x196bee77, 0x644a3da5, 0x1181ed99, 0x18c623f9)
    ensures Rounds(Initial(), w[..24]) == State(0xd541f12d, 0x21283486, 0x0ce88eff, 0x868dec32, 0x7f67875f)
  {
    hide Rounds;
    Next(w, 16, State(0x20bdd62f, 0x196bee77, 0x644a3da5, 0x1181ed99, 0x18c623f9), 0xc2c4c700,
         State(0x4e925823, 0x20bdd62f, 0xc65afb9d, 0x644a3da5, 0x1181ed99));
    Next(w, 17, State(0x4e925823, 0x20bdd62f, 0xc65afb9d, 0x644a3da5, 0x1181ed99), 0x00000000,
         State(0x82aa6728, 0x4e925823, 0xc82f758b, 0xc65afb9d, 0x644a3da5));
    Next(w, 18, State(0x82aa6728, 0x4e925823, 0xc82f758b, 0xc65afb9d, 0x644a3da5), 0x00000030,
         State(0xdc64901d, 0x82aa6728, 0xd3a49608, 0xc82f758b, 0xc65afb9d));
    Next(w, 19, State(0xdc64901d, 0x82aa6728, 0xd3a49608, 0xc82f758b, 0xc65afb9d), 0x85898e01,
         State(0xfd9e1d7d, 0xdc64901d, 0x20aa99ca, 0xd3a49608, 0xc82f758b));
    Next(w, 20, State(0xfd9e1d7d, 0xdc64901d, 0x20aa99ca, 0xd3a49608, 0xc82f758b), 0x00000000,
         State(0x1a37b0ca, 0xfd9e1d7d, 0x77192407, 0x20aa99ca, 0xd3a49608));
    Next(w, 21, State(0x1a37b0ca, 0xfd9e1d7d, 0x77192407, 0x20aa99ca, 0xd3a49608), 0x00000060,
         State(0x33a23bfc, 0x1a37b0ca, 0x7f67875f, 0x77192407, 0x20aa99ca));
    Next(w, 22, State(0x33a23bfc, 0x1a37b0ca, 0x7f67875f, 0x77192407, 0x20aa99ca), 0x0b131c03,
         State(0x21283486, 0x33a23bfc, 0x868dec32, 0x7f67875f, 0x77192407));
    Next(w, 23, State(0x21283486, 0x33a23bfc, 0x868dec32, 0x7f67875f, 0x77192407), 0x00000030,
         State(0xd541f12d, 0x21283486, 0x0ce88eff, 0x868dec32, 0x7f67875f));
  }

  lemma Rounds3(w: seq<Word>)
    requires |w| == 80 && Row3(w)
    requires Rounds(Initial(), w[..24]) == State(0xd541f12d, 0x21283486, 0x0ce88eff, 0x868dec32, 0x7f67875f)
    ensures Rounds(Initial(), w[..32]) == State(0x3b845d33, 0x1267b407, 0x717eebd7, 0xa0dc2d4b, 0xd2aa1365)
  {
    hide Rounds;
    Next(w, 24, State(0xd541f12d, 0x21283486, 0x0ce88eff, 0x868dec32, 0x7f67875f), 0x85898ec1,
         State(0xc7567dc6, 0xd541f12d, 0x884a0d21, 0x0ce88eff, 0x868dec32));
    Next(w, 25, State(0xc7567dc6, 0xd541f12d, 0x884a0d21, 0x0ce88eff, 0x868dec32), 0x16263806,
         State(0x48413ba4, 0xc7567dc6, 0x75507c4b, 0x884a0d21, 0x0ce88eff));
    Next(w, 26, State(0x48413ba4, 0xc7567dc6, 0x75507c4b, 0x884a0d21, 0x0ce88eff), 0x00000000,
         State(0xbe35fbd5, 0x48413ba4, 0xb1d59f71, 0x75507c4b, 0x884a0d21));
    Next(w, 27, State(0xbe35fbd5, 0x48413ba4, 0xb1d59f71, 0x75507c4b, 0x884a0d21), 0x00000180,
         State(0x4aa84d97, 0xbe35fbd5, 0x12104ee9, 0xb1d59f71, 0x75507c4b));
    Next(w, 28, State(0x4aa84d97, 0xbe35fbd5, 0x12104ee9, 0xb1d59f71, 0x75507c4b), 0x2c4c700c,
         State(0x8370b52e, 0x4aa84d97, 0x6f8d7ef5, 0x12104ee9, 0xb1d59f71));
    Next(w, 29, State(0x8370b52e, 0x4aa84d97, 0x6f8d7ef5, 0x12104ee9, 0xb1d59f71), 0x000000f0,
         State(0xc5fbaf5d, 0x8370b52e, 0xd2aa1365, 0x6f8d7ef5, 0x12104ee9));
    Next(w, 30, State(0xc5fbaf5d, 0x8370b52e, 0xd2aa1365, 0x6f8d7ef5, 0x12104ee9), 0x93afb507,
         State(0x1267b407, 0xc5fbaf5d, 0xa0dc2d4b, 0xd2aa1365, 0x6f8d7ef5));
    Next(w, 31, State(0x1267b407, 0xc5fbaf5d, 0xa0dc2d4b, 0xd2aa1365, 0x6f8d7ef5), 0x5898e048,
         State(0x3b845d33, 0x1267b407, 0x717eebd7, 0xa0dc2d4b, 0xd2aa1365));
  }

  lemma Rounds4(w: seq<Word>)
    requires |w| == 80 && Row4(w)
    requires Rounds(Initial(), w[..32]) == State(0x3b845d33, 0x1267b407, 0x717eebd7, 0xa0dc2d4b, 0xd2aa1365)
    ensures Rounds(Initial(), w[..40]) == State(0x32de1cba, 0x4c986405, 0xf718e5cf, 0x03d447f6, 0xf72eec32)
  {
    hide Rounds;
    Next(w, 32, State(0x3b845d33, 0x1267b407, 0x717eebd7, 0xa0dc2d4b, 0xd2aa1365), 0x8e9a9202,
         State(0x046faa0a, 0x3b845d33, 0xc499ed01, 0x717eebd7, 0xa0dc2d4b));
    Next(w, 33, State(0x046faa0a, 0x3b845d33, 0xc499ed01, 0x717eebd7, 0xa0dc2d4b), 0x00000600,
         State(0x2c0ebc11, 0x046faa0a, 0xcee1174c, 0xc499ed01, 0x717eebd7));
    Next(w, 34, State(0x2c0ebc11, 0x046faa0a, 0xcee1174c, 0xc499ed01, 0x717eebd7), 0xb131c0f0,
         State(0x21796ad4, 0x2c0ebc11, 0x811bea82, 0xcee1174c, 0xc499ed01));
    Next(w, 35, State(0x21796ad4, 0x2c0ebc11, 0x811bea82, 0xcee1174c, 0xc499ed01), 0x16263bc6,
         State(0xdcbbb0cb, 0x21796ad4, 0x4b03af04, 0x811bea82, 0xcee1174c));
    Next(w, 36, State(0xdcbbb0cb, 0x21796ad4, 0x4b03af04, 0x811bea82, 0xcee1174c), 0x4ebed41e,
         State(0x0f511fd8, 0xdcbbb0cb, 0x085e5ab5, 0x4b03af04, 0x811bea82));
    Next(w, 37, State(0x0f511fd8, 0xdcbbb0cb, 0x085e5ab5, 0x4b03af04, 0x811bea82), 0x626380a1,
         State(0xdc63973f, 0x0f511fd8, 0xf72eec32, 0x085e5ab5, 0x4b03af04));
    Next(w, 38, State(0xdc63973f, 0x0f511fd8, 0xf72eec32, 0x085e5ab5, 0x4b03af04), 0x16263806,
         State(0x4c986405, 0xdc63973f, 0x03d447f6, 0xf72eec32, 0x085e5ab5));
    Next(w, 39, State(0x4c986405, 0xdc63973f, 0x03d447f6, 0xf72eec32, 0x085e5ab5), 0x000018c0,
         State(0x32de1cba, 0x4c986405, 0xf718e5cf, 0x03d447f6, 0xf72eec32));
  }

  lemma Rounds5(w: seq<Word>)
    requires |w| == 80 && Row5(w)
    requires Rounds(Initial(), w[..40]) == State(0x32de1cba, 0x4c986405, 0xf718e5cf, 0x03d447f6, 0xf72eec32)
    ensures Rounds(Initial(), w[..48]) == State(0xbead02ca, 0xa01b846c, 0x8714787c, 0x503ca382, 0xfb86c6ab)
  {
    hide Rounds;
    Next(w, 40, State(0x32de1cba, 0x4c986405, 0xf718e5cf, 0x03d447f6, 0xf72eec32), 0xd2e138c4,
         State(0xfc87dedf, 0x32de1cba, 0x53261901, 0xf718e5cf, 0x03d447f6));
    Next(w, 41, State(0xfc87dedf, 0x32de1cba, 0x53261901, 0xf718e5cf, 0x03d447f6), 0x00000f00,
         State(0x970a0d5c, 0xfc87dedf, 0x8cb7872e, 0x53261901, 0xf718e5cf));
    Next(w, 42, State(0x970a0d5c, 0xfc87dedf, 0x8cb7872e, 0x53261901, 0xf718e5cf), 0x3afb5079,
         State(0x7f193dc5, 0x970a0d5c, 0xff21f7b7, 0x8cb7872e, 0x53261901));
    Next(w, 43, State(0x7f193dc5, 0x970a0d5c, 0xff21f7b7, 0x8cb7872e, 0x53261901), 0x898e04e5,
         State(0xee1b1aaf, 0x7f193dc5, 0x25c28357, 0xff21f7b7, 0x8cb7872e));
    Next(w, 44, State(0xee1b1aaf, 0x7f193dc5, 0x25c28357, 0xff21f7b7, 0x8cb7872e), 0xe2ba3c2b,
         State(0x40f28e09, 0xee1b1aaf, 0x5fc64f71, 0x25c28357, 0xff21f7b7));
    Next(w, 45, State(0x40f28e09, 0xee1b1aaf, 0x5fc64f71, 0x25c28357, 0xff21f7b7), 0x000060c0,
         State(0x1c51e1f2, 0x40f28e09, 0xfb86c6ab, 0x5fc64f71, 0x25c28357));
    Next(w, 46, State(0x1c51e1f2, 0x40f28e09, 0xfb86c6ab, 0x5fc64f71, 0x25c28357), 0x053a37cd,
         State(0xa01b846c, 0x1c51e1f2, 0x503ca382, 0xfb86c6ab, 0x5fc64f71));
    Next(w, 47, State(0xa01b846c, 0x1c51e1f2, 0x503ca382, 0xfb86c6ab, 0x5fc64f71), 0x74458547,
         State(0xbead02ca, 0xa01b846c, 0x8714787c, 0x503ca382, 0xfb86c6ab));
  }

  lemma Rounds6(w: seq<Word>)
    requires |w| == 80 && Row6(w)
    requires Rounds(Initial(), w[..48]) == State(0xbead02ca, 0xa01b846c, 0x8714787c, 0x503ca382, 0xfb86c6ab)
    ensures Rounds(Initial(), w[..56]) == State(0x5e6456af, 0x7b71f76d, 0x09fa7c76, 0x792410db, 0x8e11eb59)
  {
    hide Rounds;
    Next(w, 48, State(0xbead02ca, 0xa01b846c, 0x8714787c, 0x503ca382, 0xfb86c6ab), 0xda9415ed,
         State(0xbaf39337, 0xbead02ca, 0x2806e11b, 0x8714787c, 0x503ca382));
    Next(w, 49, State(0xbaf39337, 0xbead02ca, 0x2806e11b, 0x8714787c, 0x503ca382), 0x26380a16,
         State(0x120731c5, 0xbaf39337, 0xafab40b2, 0x2806e11b, 0x8714787c));
    Next(w, 50, State(0x120731c5, 0xbaf39337, 0xafab40b2, 0x2806e11b, 0x8714787c), 0x626383a1,
         State(0x641db2ce, 0x120731c5, 0xeebce4cd, 0xafab40b2, 0x2806e11b));
    Next(w, 51, State(0x641db2ce, 0x120731c5, 0xeebce4cd, 0xafab40b2, 0x2806e11b), 0x4ebf54de,
         State(0x3847ad66, 0x641db2ce, 0x4481cc71, 0xeebce4cd, 0xafab40b2));
    Next(w, 52, State(0x3847ad66, 0x641db2ce, 0x4481cc71, 0xeebce4cd, 0xafab40b2), 0x3835b44b,
         State(0xe490436d, 0x3847ad66, 0x99076cb3, 0x4481cc71, 0xeebce4cd));
    Next(w, 53, State(0xe490436d, 0x3847ad66, 0x99076cb3, 0x4481cc71, 0xeebce4cd), 0x0000f600,
         State(0x27e9f1d8, 0xe490436d, 0x8e11eb59, 0x99076cb3, 0x4481cc71));
    Next(w, 54, State(0x27e9f1d8, 0xe490436d, 0x8e11eb59, 0x99076cb3, 0x4481cc71), 0x1e84c7a3,
         State(0x7b71f76d, 0x27e9f1d8, 0x792410db, 0x8e11eb59, 0x99076cb3));
    Next(w, 55, State(0x7b71f76d, 0x27e9f1d8, 0x792410db, 0x8e11eb59, 0x99076cb3), 0x98e04d98,
         State(0x5e6456af, 0x7b71f76d, 0x09fa7c76, 0x792410db, 0x8e11eb59));
  }

  lemma Rounds7(w: seq<Word>)
    requires |w| == 80 && Row7(w)
    requires Rounds(Initial(), w[..56]) == State(0x5e6456af, 0x7b71f76d, 0x09fa7c76, 0x792410db, 0x8e11eb59)
    ensures Rounds(Initial(), w[..64]) == State(0x6b61c9e1, 0xb66c020b, 0x9523272c, 0xf5d5b051, 0x8fd4b796)
  {
    hide Rounds;
    Next(w, 56, State(0x5e6456af, 0x7b71f76d, 0x09fa7c76, 0x792410db, 0x8e11eb59), 0x651d16a0,
         State(0xc846093f, 0x5e6456af, 0x5edc7ddb, 0x09fa7c76, 0x792410db));
    Next(w, 57, State(0xc846093f, 0x5e6456af, 0x5edc7ddb, 0x09fa7c76, 0x792410db), 0x62658ca1,
         State(0xd262ff50, 0xc846093f, 0xd79915ab, 0x5edc7ddb, 0x09fa7c76));
    Next(w, 58, State(0xd262ff50, 0xc846093f, 0xd79915ab, 0x5edc7ddb, 0x09fa7c76), 0x458544d6,
         State(0x09d785fd, 0xd262ff50, 0xf211824f, 0xd79915ab, 0x5edc7ddb));
    Next(w, 59, State(0x09d785fd, 0xd262ff50, 0xf211824f, 0xd79915ab, 0x5edc7ddb), 0x44584cb7,
         State(0x3f52de5a, 0x09d785fd, 0x3498bfd4, 0xf211824f, 0xd79915ab));
    Next(w, 60, State(0x3f52de5a, 0x09d785fd, 0x3498bfd4, 0xf211824f, 0xd79915ab), 0x7ba06619,
         State(0xd756c147, 0x3f52de5a, 0x4275e17f, 0x3498bfd4, 0xf211824f));
    Next(w, 61, State(0xd756c147, 0x3f52de5a, 0x4275e17f, 0x3498bfd4, 0xf211824f), 0x6380aea2,
         State(0x548c9cb2, 0xd756c147, 0x8fd4b796, 0x4275e17f, 0x3498bfd4));
    Next(w, 62, State(0x548c9cb2, 0xd756c147, 0x8fd4b796, 0x4275e17f, 0x3498bfd4), 0x0ae55269,
         State(0xb66c020b, 0x548c9cb2, 0xf5d5b051, 0x8fd4b796, 0x4275e17f));
    Next(w, 63, State(0xb66c020b, 0x548c9cb2, 0xf5d5b051, 0x8fd4b796, 0x4275e17f), 0x627b49a1,
         State(0x6b61c9e1, 0xb66c020b, 0x9523272c, 0xf5d5b051, 0x8fd4b796));
  }

  lemma Rounds8(w: seq<Word>)
    requires |w| == 80 && Row8(w)
    requires Rounds(Initial(), w[..64]) == State(0x6b61c9e1, 0xb66c020b, 0x9523272c, 0xf5d5b051, 0x8fd4b796)
    ensures Rounds(Initial(), w[..72]) == State(0x39859de7, 0xc199f8c7, 0x8fc96230, 0x125c24f0, 0xde37534a)
  {
    hide Rounds;
    Next(w, 64, State(0x6b61c9e1, 0xb66c020b, 0x9523272c, 0xf5d5b051, 0x8fd4b796), 0x7cd45c9d,
         State(0x19dfa7ac, 0x6b61c9e1, 0xed9b0082, 0x9523272c, 0xf5d5b051));
    Next(w, 65, State(0x19dfa7ac, 0x6b61c9e1, 0xed9b0082, 0x9523272c, 0xf5d5b051), 0x000f0000,
         State(0x101655f9, 0x19dfa7ac, 0x5ad87278, 0xed9b0082, 0x9523272c));
    Next(w, 66, State(0x101655f9, 0x19dfa7ac, 0x5ad87278, 0xed9b0082, 0x9523272c), 0xfb50753a,
         State(0x0c3df2b4, 0x101655f9, 0x0677e9eb, 0x5ad87278, 0xed9b0082));
    Next(w, 67, State(0x0c3df2b4, 0x101655f9, 0x0677e9eb, 0x5ad87278, 0xed9b0082), 0xec6765e8,
         State(0x78dd4d2b, 0x0c3df2b4, 0x4405957e, 0x0677e9eb, 0x5ad87278));
    Next(w, 68, State(0x78dd4d2b, 0x0c3df2b4, 0x4405957e, 0x0677e9eb, 0x5ad87278), 0xba3c2be2,
         State(0x497093c0, 0x78dd4d2b, 0x030f7cad, 0x4405957e, 0x0677e9eb));
    Next(w, 69, State(0x497093c0, 0x78dd4d2b, 0x030f7cad, 0x4405957e, 0x0677e9eb), 0x0060c000,
         State(0x3f2588c2, 0x497093c0, 0xde37534a, 0x030f7cad, 0x4405957e));
    Next(w, 70, State(0x3f2588c2, 0x497093c0, 0xde37534a, 0x030f7cad, 0x4405957e), 0x3a37cd05,
         State(0xc199f8c7, 0x3f2588c2, 0x125c24f0, 0xde37534a, 0x030f7cad));
    Next(w, 71, State(0xc199f8c7, 0x3f2588c2, 0x125c24f0, 0xde37534a, 0x030f7cad), 0x458546f4,
         State(0x39859de7, 0xc199f8c7, 0x8fc96230, 0x125c24f0, 0xde37534a));
  }

  lemma Rounds9(w: seq<Word>)
    requires |w| == 80 && Row9(w)
    requires Rounds(Initial(), w[..72]) == State(0x39859de7, 0xc199f8c7, 0x8fc96230, 0x125c24f0, 0xde37534a)
    ensures Rounds(Initial(), w[..80]) == State(0x42541b35, 0x5738d5e1, 0x21834873, 0x681e6df6, 0xd8fdf6ad)
  {
    hide Rounds;
    Next(w, 72, State(0x39859de7, 0xc199f8c7, 0x8fc96230, 0x125c24f0, 0xde37534a), 0xb8599dd6,
         State(0xedb42de4, 0x39859de7, 0xf0667e31, 0x8fc96230, 0x125c24f0));
    Next(w, 73, State(0xedb42de4, 0x39859de7, 0xf0667e31, 0x8fc96230, 0x125c24f0), 0x380a1a26,
         State(0x11793f6f, 0xedb42de4, 0xce616779, 0xf0667e31, 0x8fc96230));
    Next(w, 74, State(0x11793f6f, 0xedb42de4, 0xce616779, 0xf0667e31, 0x8fc96230), 0x01e02203,
         State(0x5ee76897, 0x11793f6f, 0x3b6d0b79, 0xce616779, 0xf0667e31));
    Next(w, 75, State(0x5ee76897, 0x11793f6f, 0x3b6d0b79, 0xce616779, 0xf0667e31), 0xe7cc3456,
         State(0x63f7dab7, 0x5ee76897, 0xc45e4fdb, 0x3b6d0b79, 0xce616779));
    Next(w, 76, State(0x63f7dab7, 0x5ee76897, 0xc45e4fdb, 0x3b6d0b79, 0xce616779), 0xe6e60b69,
         State(0xa079b7d9, 0x63f7dab7, 0xd7b9da25, 0xc45e4fdb, 0x3b6d0b79));
    Next(w, 77, State(0xa079b7d9, 0x63f7dab7, 0xd7b9da25, 0xc45e4fdb, 0x3b6d0b79), 0x00f60a00,
         State(0x860d21cc, 0xa079b7d9, 0xd8fdf6ad, 0xd7b9da25, 0xc45e4fdb));
    Next(w, 78, State(0x860d21cc, 0xa079b7d9, 0xd8fdf6ad, 0xd7b9da25, 0xc45e4fdb), 0x5795ef4f,
         State(0x5738d5e1, 0x860d21cc, 0x681e6df6, 0xd8fdf6ad, 0xd7b9da25));
    Next(w, 79, State(0x5738d5e1, 0x860d21cc, 0x681e6df6, 0xd8fdf6ad, 0xd7b9da25), 0x822e0879,
         State(0x42541b35, 0x5738d5e1, 0x21834873, 0x681e6df6, 0xd8fdf6ad));
  }

  // ---- The padded message and the digest ----

  lemma {:induction false} NumberZero(k: nat)
    ensures BigEndian(0, k) == Zeros(k)
  {
    if k > 0 {
      NumberZero(k - 1);
    }
  }

  lemma SmallNumber(x: nat, k: nat)
    requires x < 256
    ensures BigEndian(x, k + 1) == Zeros(k) + [x as Octet]
  {
    NumberZero(k);
    assert x / 256 == 0 && x % 256 == x;
  }

  /** The message, the marker, zeros and the length of 24 bits fill one block. */
  lemma AbcPadded()
    ensures var block := ABC + Padding(3);
      && |block| == 64 && block[0] == 0x61 && block[1] == 0x62 && block[2] == 0x63 && block[3] == 0x80 && block[63] == 24
      && forall i :: 4 <= i < 63 ==> block[i] == 0
  {
    hide Zeros, BigEndian;
    assert ZeroCount(3) == 52;
    SmallNumber(24, 7);
    ZerosAreZero(52);
    ZerosAreZero(7);
  }

  lemma WordsOfAbc()
    ensures ToWord(0x61, 0x62, 0x63, 0x80) == 0x61626380 && ToWord(0, 0, 0, 0) == 0 && ToWord(0, 0, 0, 24) == 0x18
  {
  }

  lemma AbcWordAt(block: seq<Octet>, t: nat)
    requires block == ABC + Padding(3) && |block| == 64 && t < 16
    ensures Schedule(block, 80)[t] == if t == 0 then 0x61626380 else if t == 15 then 0x18 else 0
  {
    hide ToWord, Schedule, Padding;
    AbcPadded();
    WordsOfAbc();
    FirstWordAt(block, t);
  }

  lemma AbcFirstRows(block: seq<Octet>)
    requires block == ABC + Padding(3) && |block| == 64
    ensures Row0(Schedule(block, 80)) && Row1(Schedule(block, 80))
  {
    hide Schedule, Padding;
    AbcWordAt(block, 0);
    AbcWordAt(block, 1);
    AbcWordAt(block, 2);
    AbcWordAt(block, 3);
    AbcWordAt(block, 4);
    AbcWordAt(block, 5);
    AbcWordAt(block, 6);
    AbcWordAt(block, 7);
    AbcWordAt(block, 8);
    AbcWordAt(block, 9);
    AbcWordAt(block, 10);
    AbcWordAt(block, 11);
    AbcWordAt(block, 12);
    AbcWordAt(block, 13);
    AbcWordAt(block, 14);
    AbcWordAt(block, 15);
  }

  lemma AllMixed(block: seq<Octet>)
    requires |block| == BLOCK_BYTES
    ensures Follows(Schedule(block, 80))
  {
    hide Schedule, Mixed;
    forall t: nat | 16 <= t < 80 ensures IsMixed(Schedule(block, 80), t) {
      MixedAt(block, t);
    }
  }

  lemma AbcRows(w: seq<Word>)
    requires |w| == 80 && Follows(w) && Row0(w) && Row1(w)
    ensures Row2(w)
    ensures Row3(w)
    ensures Row4(w)
    ensures Row5(w)
    ensures Row6(w)
    ensures Row7(w)
    ensures Row8(w)
    ensures Row9(w)
  {
    hide *;
    Makes2(w);
    Makes3(w);
    Makes4(w);
    Makes5(w);
    Makes6(w);
    Makes7(w);
    Makes8(w);
    Makes9(w);
  }

  lemma AbcRounds(w: seq<Word>)
    requires |w| == 80 && Follows(w) && Row0(w) && Row1(w)
    ensures Rounds(Initial(), w) == State(0x42541b35, 0x5738d5e1, 0x21834873, 0x681e6df6, 0xd8fdf6ad)
  {
    hide Follows, Rounds, Row0, Row1, Row2, Row3, Row4, Row5, Row6, Row7, Row8, Row9;
    AbcRows(w);
    NoRounds(Initial(), w);
    assert w[..80] == w;
    Rounds0(w);
    Rounds1(w);
    Rounds2(w);
    Rounds3(w);
    Rounds4(w);
    Rounds5(w);
    Rounds6(w);
    Rounds7(w);
    Rounds8(w);
    Rounds9(w);
  }

  lemma AbcSums()
    ensures Plus(Initial(), State(0x42541b35, 0x5738d5e1, 0x21834873, 0x681e6df6, 0xd8fdf6ad)) ==
      State(0xa9993e36, 0x4706816a, 0xba3e2571, 0x7850c26c, 0x9cd0d89d)
  {
  }

  lemma AbcBytes()
    ensures Output(State(0xa9993e36, 0x4706816a, 0xba3e2571, 0x7850c26c, 0x9cd0d89d)) ==
      [0xa9, 0x99, 0x3e, 0x36, 0x47, 0x06, 0x81, 0x6a, 0xba, 0x3e,
       0x25, 0x71, 0x78, 0x50, 0xc2, 0x6c, 0x9c, 0xd0, 0xd8, 0x9d]
  {
    assert WordBytes(0xa9993e36) == [0xa9, 0x99, 0x3e, 0x36];
    assert WordBytes(0x4706816a) == [0x47, 0x06, 0x81, 0x6a];
    assert WordBytes(0xba3e2571) == [0xba, 0x3e, 0x25, 0x71];
    assert WordBytes(0x7850c26c) == [0x78, 0x50, 0xc2, 0x6c];
    assert WordBytes(0x9cd0d89d) == [0x9c, 0xd0, 0xd8, 0x9d];
  }

  /** The digest of "abc" that the standard publishes. */
  lemma AbcDigest()
    ensures Hash(ABC) ==
      [0xa9, 0x99, 0x3e, 0x36, 0x47, 0x06, 0x81, 0x6a, 0xba, 0x3e,
       0x25, 0x71, 0x78, 0x50, 0xc2, 0x6c, 0x9c, 0xd0, 0xd8, 0x9d]
  {
    hide Schedule, Rounds, Padding, Output, Plus, Follows, Row0, Row1, Fold;
    var block := ABC + Padding(3);
    AbcPadded();
    AbcFirstRows(block);
    AllMixed(block);
    AbcRounds(Schedule(block, 80));
    AbcSums();
    AbcBytes();
    FoldOne(Initial(), block);
  }
}
