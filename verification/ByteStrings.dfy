/** Byte strings, canonical decimal numbers, the raw byte order and the text decoding the codecs share. */
module ByteStrings {
  import opened Results

  type Byte = x: int | 0 <= x < 256
  type Bytes = seq<Byte>

  /** 2^53 - 1, the largest integer a JavaScript number holds exactly. */
  const MAX_SAFE_INTEGER := 0x1F_FFFF_FFFF_FFFF

  // ---- Searching and slicing ----

  function IndexOf(data: Bytes, b: Byte, start: nat): (r: Option<nat>)
    ensures r.None? <==> forall i :: start <= i < |data| ==> data[i] != b
    ensures r.Some? ==> start <= r.value < |data| && data[r.value] == b
    ensures r.Some? ==> forall i :: start <= i < r.value ==> data[i] != b
    decreases |data| - start
  {
    if start >= |data| then None
    else if data[start] == b then Some(start)
    else IndexOf(data, b, start + 1)
  }

  /** `s` stands in `data` at `offset`. */
  ghost predicate At(data: Bytes, offset: nat, s: Bytes) {
    offset + |s| <= |data| && forall i :: 0 <= i < |s| ==> s[i] == data[offset + i]
  }

  lemma AtSplit(data: Bytes, offset: nat, a: Bytes, b: Bytes)
    requires At(data, offset, a + b)
    ensures At(data, offset, a) && At(data, offset + |a|, b)
  {
    var s := a + b;
    forall i | 0 <= i < |a| ensures a[i] == data[offset + i] {
      assert s[i] == a[i];
    }
    forall i | 0 <= i < |b| ensures b[i] == data[offset + |a| + i] {
      assert s[|a| + i] == b[i];
    }
  }

  lemma AtJoin(data: Bytes, offset: nat, a: Bytes, b: Bytes)
    requires At(data, offset, a) && At(data, offset + |a|, b)
    ensures At(data, offset, a + b)
  {
    var s := a + b;
    forall i | 0 <= i < |s| ensures s[i] == data[offset + i] {
      assert s[i] == if i < |a| then a[i] else b[i - |a|];
    }
  }

  lemma AtSlice(data: Bytes, offset: nat, s: Bytes)
    requires offset + |s| <= |data|
    ensures At(data, offset, s) <==> data[offset..offset + |s|] == s
  {
  }

  lemma IndexOfAfter(data: Bytes, offset: nat, s: Bytes, b: Byte)
    requires At(data, offset, s) && At(data, offset + |s|, [b]) && b !in s
    ensures IndexOf(data, b, offset) == Some(offset + |s|) && data[offset..offset + |s|] == s
  {
    AtSlice(data, offset, s);
    assert [b][0] == data[offset + |s|];
    forall i | offset <= i < offset + |s| ensures data[i] != b {
      assert s[i - offset] == data[i];
    }
  }

  /** Sets the bytes of a buffer from an offset on. */
  method CopyInto(buffer: array<Byte>, offset: nat, bytes: Bytes)
    requires offset + |bytes| <= buffer.Length
    modifies buffer
    ensures buffer[..offset + |bytes|] == old(buffer[..offset]) + bytes
  {
    forall k | 0 <= k < |bytes| {
      buffer[offset + k] := bytes[k];
    }
  }

  // ---- Decimal numbers ----

  predicate IsDigit(b: Byte) {
    0x30 <= b <= 0x39
  }

  predicate AllDigits(s: Bytes) {
    forall i :: 0 <= i < |s| ==> IsDigit(s[i])
  }

  /** Digits without a superfluous leading zero. */
  predicate IsCanonicalNat(s: Bytes) {
    s != [] && AllDigits(s) && (|s| > 1 ==> s[0] != 0x30)
  }

  function NatOf(s: Bytes): nat
    requires AllDigits(s)
  {
    if s == [] then 0 else NatOf(s[..|s| - 1]) * 10 + (s[|s| - 1] - 0x30)
  }

  function Digits(n: nat): (s: Bytes)
    ensures IsCanonicalNat(s) && NatOf(s) == n
    ensures s == [0x30] <==> n == 0
  {
    if n < 10 then [0x30 + n]
    else
      var front := Digits(n / 10);
      var s := front + [0x30 + n % 10];
      assert s[..|s| - 1] == front;
      s
  }

  lemma {:induction false} DigitsOfNat(s: Bytes)
    requires IsCanonicalNat(s)
    ensures Digits(NatOf(s)) == s
    ensures |s| > 1 ==> NatOf(s) >= 10
    ensures NatOf(s) == 0 ==> s == [0x30]
  {
    var front, last := s[..|s| - 1], s[|s| - 1];
    assert s == front + [last];
    if |s| > 1 {
      DigitsOfNat(front);
      assert front != [0x30];
      assert NatOf(s) / 10 == NatOf(front) && NatOf(s) % 10 == last - 0x30;
    } else {
      assert front == [];
    }
  }

  /** Two canonical numbers that agree up to the first byte that is no digit are equal. */
  lemma DigitsPrefix(n: nat, m: nat, c: Byte, x: Bytes, y: Bytes)
    requires !IsDigit(c)
    requires Digits(n) + ([c] + x) == Digits(m) + ([c] + y)
    ensures n == m && x == y
  {
    var a, b := Digits(n), Digits(m);
    var s, t := a + ([c] + x), b + ([c] + y);
    assert forall i :: 0 <= i < |a| ==> s[i] == a[i];
    assert forall i :: 0 <= i < |b| ==> t[i] == b[i];
    assert t[|a|] == c && s[|b|] == c;
    assert |a| == |b|;
    assert a == s[..|a|] == t[..|b|] == b;
    assert x == s[|a| + 1..] == t[|b| + 1..] == y;
    assert NatOf(a) == n && NatOf(b) == m;
  }

  function IntDigits(n: int): Bytes {
    if n < 0 then [0x2d] + Digits(-n) else Digits(n)
  }

  predicate IsSafe(n: int) {
    -MAX_SAFE_INTEGER <= n <= MAX_SAFE_INTEGER
  }

  // ---- Raw byte order ----

  /** Lexicographic order on raw bytes, a proper prefix first. */
  predicate Less(a: Bytes, b: Bytes) {
    if b == [] then false
    else if a == [] then true
    else a[0] < b[0] || (a[0] == b[0] && Less(a[1..], b[1..]))
  }

  lemma {:induction false} LessTotal(a: Bytes, b: Bytes)
    ensures a == b || Less(a, b) || Less(b, a)
    ensures !(Less(a, b) && Less(b, a)) && !Less(a, a)
  {
    if a != [] && b != [] {
      LessTotal(a[1..], b[1..]);
      LessTotal(a[1..], a[1..]);
      assert a == [a[0]] + a[1..] && b == [b[0]] + b[1..];
    } else if a != [] {
      LessTotal(a[1..], a[1..]);
    }
  }

  lemma {:induction false} LessTransitive(a: Bytes, b: Bytes, c: Bytes)
    requires Less(a, b) && Less(b, c)
    ensures Less(a, c)
  {
    if a != [] && a[0] == b[0] == c[0] {
      LessTransitive(a[1..], b[1..], c[1..]);
    }
  }

  /** The sign of the result is the raw byte order. */
  method CompareBytes(a: Bytes, b: Bytes) returns (r: int)
    ensures r < 0 <==> Less(a, b)
    ensures r > 0 <==> Less(b, a)
    ensures r == 0 <==> a == b
  {
    LessTotal(a, b);
    var length := if |a| < |b| then |a| else |b|;
    for i := 0 to length
      invariant a[..i] == b[..i]
      invariant Less(a, b) == Less(a[i..], b[i..])
      invariant Less(b, a) == Less(b[i..], a[i..])
    {
      if a[i] != b[i] {
        var x: int, y: int := a[i], b[i];
        return x - y;
      }
      assert a[i..][1..] == a[i + 1..] && b[i..][1..] == b[i + 1..];
    }
    if |a| == |b| {
      assert a[..length] == a && b[..length] == b;
    }
    return |a| - |b|;
  }

  // ---- Text decoding ----

  /** The UTF-8 byte order mark. */
  const BOM: Bytes := [0xEF, 0xBB, 0xBF]

  predicate HasBom(b: Bytes) {
    |b| >= 3 && b[..3] == BOM
  }

  predicate IsContinuation(b: Byte) {
    0x80 <= b <= 0xBF
  }

  /** Well-formed UTF-8 as a fatal decoder checks it (The Unicode Standard, table 3-7). */
  predicate ValidUtf8(b: Bytes) {
    if b == [] then true
    else if b[0] < 0x80 then ValidUtf8(b[1..])
    else if 0xC2 <= b[0] <= 0xDF then
      |b| >= 2 && IsContinuation(b[1]) && ValidUtf8(b[2..])
    else if 0xE0 <= b[0] <= 0xEF then
      && |b| >= 3 && IsContinuation(b[1]) && IsContinuation(b[2])
      && (b[0] == 0xE0 ==> b[1] >= 0xA0)
      && (b[0] == 0xED ==> b[1] <= 0x9F)
      && ValidUtf8(b[3..])
    else if 0xF0 <= b[0] <= 0xF4 then
      && |b| >= 4 && IsContinuation(b[1]) && IsContinuation(b[2]) && IsContinuation(b[3])
      && (b[0] == 0xF0 ==> b[1] >= 0x90)
      && (b[0] == 0xF4 ==> b[1] <= 0x8F)
      && ValidUtf8(b[4..])
    else false
  }

  /** The bytes of a decoded byte string: text decoding drops one leading byte order mark. */
  function DecodeText(b: Bytes): Bytes {
    if HasBom(b) && ValidUtf8(b) then b[3..] else b
  }

  lemma UnmarkedIsText(b: Bytes)
    requires b != [] && b[0] != 0xEF
    ensures DecodeText(b) == b
  {
    assert BOM[0] == 0xEF;
    assert |b| >= 3 ==> b[..3][0] == b[0];
  }
}
