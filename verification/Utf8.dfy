/**
 The check of text before its mark is dropped: the bytes that pass are exactly the UTF-8 encodings of sequences of
 Unicode scalar values, and what is dropped is the encoding of the byte order mark.
 */
module Utf8 {
  import opened Results
  import opened ByteStrings

  /** A Unicode scalar value: a code point that is no surrogate. */
  predicate IsScalar(c: nat) {
    c <= 0x10FFFF && !(0xD800 <= c <= 0xDFFF)
  }

  /** Six bits to each byte behind the first, the highest first, in as few bytes as they fit (RFC 3629, section 3). */
  function Encode(c: nat): (r: Bytes)
    requires IsScalar(c)
    ensures 1 <= |r| <= 4
  {
    if c < 0x80 then [c]
    else if c < 0x800 then [0xC0 + c / 0x40, 0x80 + c % 0x40]
    else if c < 0x1_0000 then [0xE0 + c / 0x1000, 0x80 + c / 0x40 % 0x40, 0x80 + c % 0x40]
    else [0xF0 + c / 0x4_0000, 0x80 + c / 0x1000 % 0x40, 0x80 + c / 0x40 % 0x40, 0x80 + c % 0x40]
  }

  predicate AllScalars(text: seq<nat>) {
    forall c <- text :: IsScalar(c)
  }

  function EncodeAll(text: seq<nat>): Bytes
    requires AllScalars(text)
  {
    if text == [] then [] else Encode(text[0]) + EncodeAll(text[1..])
  }

  /** An encoded value at the front passes the check, and the check goes on behind it. */
  lemma EncodedPasses(c: nat, rest: Bytes)
    requires IsScalar(c)
    ensures ValidUtf8(Encode(c) + rest) <==> ValidUtf8(rest)
  {
    var b := Encode(c) + rest;
    assert b[|Encode(c)|..] == rest;
    if c < 0x80 {
    } else if c < 0x800 {
    } else if c < 0x1_0000 {
      ThreeBytes(c);
    } else {
      FourBytes(c);
    }
  }

  lemma ThreeBytes(c: nat)
    requires IsScalar(c) && 0x800 <= c < 0x1_0000
    ensures c / 0x1000 == 0 ==> c / 0x40 % 0x40 >= 0x20
    ensures c / 0x1000 == 0xD ==> c / 0x40 % 0x40 < 0x20
    ensures c / 0x1000 < 0x10
  {
  }

  lemma FourBytes(c: nat)
    requires IsScalar(c) && c >= 0x1_0000
    ensures c / 0x4_0000 == 0 ==> c / 0x1000 % 0x40 >= 0x10
    ensures c / 0x4_0000 == 4 ==> c / 0x1000 % 0x40 < 0x10
    ensures c / 0x4_0000 <= 4
  {
  }

  /** What passes the check begins with an encoded value. */
  lemma PassesIsEncoded(b: Bytes) returns (c: nat)
    requires b != [] && ValidUtf8(b)
    ensures IsScalar(c) && |Encode(c)| <= |b| && b == Encode(c) + b[|Encode(c)|..] && ValidUtf8(b[|Encode(c)|..])
  {
    var x: nat := b[0];
    if x < 0x80 {
      c := x;
    } else if x <= 0xDF {
      c := Two(b);
    } else if x <= 0xEF {
      c := Three(b);
    } else {
      c := Four(b);
    }
  }

  lemma Two(b: Bytes) returns (c: nat)
    requires |b| >= 2 && 0xC2 <= b[0] <= 0xDF && IsContinuation(b[1])
    ensures IsScalar(c) && Encode(c) == b[..2]
  {
    var x: nat, y: nat := b[0], b[1];
    c := (x - 0xC0) * 0x40 + (y - 0x80);
    assert c / 0x40 == x - 0xC0 && c % 0x40 == y - 0x80;
  }

  lemma Three(b: Bytes) returns (c: nat)
    requires |b| >= 3 && 0xE0 <= b[0] <= 0xEF && IsContinuation(b[1]) && IsContinuation(b[2])
    requires (b[0] == 0xE0 ==> b[1] >= 0xA0) && (b[0] == 0xED ==> b[1] <= 0x9F)
    ensures IsScalar(c) && Encode(c) == b[..3]
  {
    var x: nat, y: nat, z: nat := b[0], b[1], b[2];
    c := (x - 0xE0) * 0x1000 + (y - 0x80) * 0x40 + (z - 0x80);
    assert c / 0x40 == (x - 0xE0) * 0x40 + (y - 0x80) && c % 0x40 == z - 0x80;
    assert c / 0x1000 == x - 0xE0 && c / 0x40 % 0x40 == y - 0x80;
  }

  lemma Four(b: Bytes) returns (c: nat)
    requires |b| >= 4 && 0xF0 <= b[0] <= 0xF4 && IsContinuation(b[1]) && IsContinuation(b[2]) && IsContinuation(b[3])
    requires (b[0] == 0xF0 ==> b[1] >= 0x90) && (b[0] == 0xF4 ==> b[1] <= 0x8F)
    ensures IsScalar(c) && Encode(c) == b[..4]
  {
    var x: nat, y: nat, z: nat, w: nat := b[0], b[1], b[2], b[3];
    c := (x - 0xF0) * 0x4_0000 + (y - 0x80) * 0x1000 + (z - 0x80) * 0x40 + (w - 0x80);
    assert c / 0x40 == (x - 0xF0) * 0x1000 + (y - 0x80) * 0x40 + (z - 0x80) && c % 0x40 == w - 0x80;
    assert c / 0x1000 == (x - 0xF0) * 0x40 + (y - 0x80) && c / 0x40 % 0x40 == z - 0x80;
    assert c / 0x4_0000 == x - 0xF0 && c / 0x1000 % 0x40 == y - 0x80;
  }

  lemma {:induction false} EncodedIsValid(text: seq<nat>)
    requires AllScalars(text)
    ensures ValidUtf8(EncodeAll(text))
  {
    hide Encode, ValidUtf8;
    if text == [] {
      NothingIsValid();
    } else {
      EncodedIsValid(text[1..]);
      EncodedPasses(text[0], EncodeAll(text[1..]));
    }
  }

  lemma NothingIsValid()
    ensures ValidUtf8([])
  {
  }

  lemma {:induction false} ValidIsEncoded(b: Bytes) returns (text: seq<nat>)
    requires ValidUtf8(b)
    ensures AllScalars(text) && EncodeAll(text) == b
    decreases |b|
  {
    hide Encode, ValidUtf8;
    if b == [] {
      text := [];
    } else {
      var c := PassesIsEncoded(b);
      var rest := ValidIsEncoded(b[|Encode(c)|..]);
      text := [c] + rest;
      assert text[1..] == rest;
    }
  }

  /** The bytes that pass the check are exactly the encodings of sequences of scalar values. */
  lemma ValidIffEncoded(b: Bytes)
    ensures ValidUtf8(b) <==> exists text :: AllScalars(text) && EncodeAll(text) == b
  {
    hide EncodeAll, ValidUtf8;
    if ValidUtf8(b) {
      var text := ValidIsEncoded(b);
    }
    if text :| AllScalars(text) && EncodeAll(text) == b {
      EncodedIsValid(text);
    }
  }

  /** Decoding drops a byte order mark, U+FEFF, from the front of text, and changes nothing else. */
  lemma DecodingDropsMark(text: seq<nat>, b: Bytes)
    requires AllScalars(text)
    ensures DecodeText(Encode(0xFEFF) + EncodeAll(text)) == EncodeAll(text)
    ensures DecodeText(b) != b ==> b == Encode(0xFEFF) + DecodeText(b)
  {
    hide ValidUtf8, EncodeAll;
    var mark: Bytes := Encode(0xFEFF);
    assert mark == BOM;
    EncodedIsValid(text);
    EncodedPasses(0xFEFF, EncodeAll(text));
    assert (mark + EncodeAll(text))[..3] == BOM && (mark + EncodeAll(text))[3..] == EncodeAll(text);
    if DecodeText(b) != b {
      assert b == b[..3] + b[3..];
    }
  }
}
