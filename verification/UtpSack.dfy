/** Selective acknowledgements of uTP (BEP 29): a bit mask of the packets received beyond the next expected one. */
module UtpSack {
  import opened Results
  import opened UtpSeq

  type Octet = bv8

  const MIN_BITMASK_LENGTH: nat := 4

  predicate Bit(b: Octet, p: nat)
    requires p < 8
  {
    b & ((1 as Octet) << p) != 0
  }

  function SetBit(b: Octet, p: nat): Octet
    requires p < 8
  {
    b | ((1 as Octet) << p)
  }

  lemma SetBitSets(b: Octet, p: nat, q: nat)
    requires p < 8 && q < 8
    ensures Bit(SetBit(b, p), q) <==> p == q || Bit(b, q)
  {
  }

  /** Bit `i` of the mask stands for sequence number base + 2 + i; the lowest bit of a byte comes first. */
  predicate Marked(mask: seq<Octet>, i: nat)
    requires i < 8 * |mask|
  {
    Bit(mask[i / 8], i % 8)
  }

  // ---- Sorting by the distance from the first number ----

  function Insert(s: nat, sorted: seq<nat>, first: nat): seq<nat> {
    if sorted == [] || Diff(s, first) < Diff(sorted[0], first) then [s] + sorted
    else [sorted[0]] + Insert(s, sorted[1..], first)
  }

  function SortByDistance(seqNrs: seq<nat>, first: nat): seq<nat> {
    if seqNrs == [] then [] else Insert(seqNrs[|seqNrs| - 1], SortByDistance(seqNrs[..|seqNrs| - 1], first), first)
  }

  predicate Ascending(s: seq<nat>, first: nat) {
    forall i, j :: 0 <= i < j < |s| ==> Diff(s[i], first) <= Diff(s[j], first)
  }

  lemma {:induction false} InsertKeeps(s: nat, sorted: seq<nat>, first: nat)
    ensures multiset(Insert(s, sorted, first)) == multiset(sorted) + multiset{s}
  {
    hide Diff;
    if sorted == [] {
    } else {
      InsertKeeps(s, sorted[1..], first);
      HeadCounts(sorted);
    }
  }

  lemma HeadCounts(s: seq<nat>)
    requires s != []
    ensures multiset(s) == multiset{s[0]} + multiset(s[1..])
  {
    assert s == [s[0]] + s[1..];
  }

  lemma {:induction false} InsertMembers(s: nat, sorted: seq<nat>, first: nat)
    ensures forall x <- Insert(s, sorted, first) :: x == s || x in sorted
  {
    hide Diff;
    if sorted == [] {
    } else {
      InsertMembers(s, sorted[1..], first);
    }
  }

  lemma {:induction false} InsertSorts(s: nat, sorted: seq<nat>, first: nat)
    requires Ascending(sorted, first)
    ensures Ascending(Insert(s, sorted, first), first)
  {
    hide Diff;
    if sorted != [] && Diff(sorted[0], first) <= Diff(s, first) {
      var tail := sorted[1..];
      InsertSorts(s, tail, first);
      InsertMembers(s, tail, first);
      var rest := Insert(s, tail, first);
      forall j | 0 <= j < |rest| ensures Diff(sorted[0], first) <= Diff(rest[j], first) {
        assert rest[j] in rest;
      }
    }
  }

  lemma {:induction false} SortSorts(seqNrs: seq<nat>, first: nat)
    ensures Ascending(SortByDistance(seqNrs, first), first)
    ensures multiset(SortByDistance(seqNrs, first)) == multiset(seqNrs)
    ensures |SortByDistance(seqNrs, first)| == |seqNrs|
  {
    hide Insert, Ascending;
    if seqNrs == [] {
      NothingAscends(first);
    } else {
      var front, last := seqNrs[..|seqNrs| - 1], seqNrs[|seqNrs| - 1];
      SortSorts(front, first);
      InsertSorts(last, SortByDistance(front, first), first);
      InsertKeeps(last, SortByDistance(front, first), first);
      assert seqNrs == front + [last];
      var sorted := SortByDistance(seqNrs, first);
      assert |multiset(sorted)| == |sorted| && |multiset(seqNrs)| == |seqNrs|;
    }
  }

  lemma NothingAscends(first: nat)
    ensures Ascending([], first)
  {
  }

  // ---- Creating the mask ----

  /** Whole groups of four bytes, enough for a bit at the given distance. */
  function MaskLength(distance: nat): (n: nat)
    ensures n % 4 == 0 && n >= 4 && distance < 8 * n
    ensures n > 4 ==> 8 * (n - 4) <= distance
  {
    var bytes := (distance + 1 + 7) / 8;
    var rounded := (bytes + 3) / 4 * 4;
    if rounded < MIN_BITMASK_LENGTH then MIN_BITMASK_LENGTH else rounded
  }

  /** The mask has the bits of exactly those numbers that count as ahead of the next expected one. */
  ghost predicate MarksExactly(mask: seq<Octet>, ack: nat, seqNrs: seq<nat>) {
    forall i :: 0 <= i < 8 * |mask| ==>
      (Marked(mask, i) <==> i < HALF && exists s <- seqNrs :: Diff(s, Add(ack, 2)) == i)
  }

  /** All distances are below the mask's number of bits, and the mask is no longer than that needs. */
  ghost predicate Fits(mask: seq<Octet>, ack: nat, seqNrs: seq<nat>) {
    && |mask| % 4 == 0 && |mask| >= 4
    && (forall s <- seqNrs :: Diff(s, Add(ack, 2)) < 8 * |mask|)
    && (|mask| > 4 ==> exists s <- seqNrs :: 8 * (|mask| - 4) <= Diff(s, Add(ack, 2)))
  }

  /** Sets the bit of every number that counts as ahead. */
  method MarkAll(bits: array<Octet>, seqNrs: seq<nat>, first: nat)
    requires forall s <- seqNrs :: s < MODULUS && Diff(s, first) < 8 * bits.Length
    requires first < MODULUS && forall i :: 0 <= i < 8 * bits.Length ==> !Marked(bits[..], i)
    modifies bits
    ensures forall i :: 0 <= i < 8 * bits.Length ==>
                          (Marked(bits[..], i) <==> i < HALF && exists s <- seqNrs :: Diff(s, first) == i)
  {
    hide Bit, SetBit, Diff, Marked, Ge;
    for k := 0 to |seqNrs|
      invariant forall i :: 0 <= i < 8 * bits.Length ==>
                              (Marked(bits[..], i) <==> i < HALF && exists s <- seqNrs[..k] :: Diff(s, first) == i)
    {
      ghost var before := bits[..];
      var s := seqNrs[k];
      var i := Diff(s, first);
      IsAhead(s, first);
      if Ge(s, first) {
        if i < 8 * bits.Length {
          bits[i / 8] := SetBit(bits[i / 8], i % 8);
          OneMoreMarked(before, i, bits[..]);
        }
      }
      assert seqNrs[..k + 1] == seqNrs[..k] + [s];
    }
    assert seqNrs[..|seqNrs|] == seqNrs;
  }

  method Create(ack: nat, seqNrs: seq<nat>) returns (mask: Option<seq<Octet>>)
    requires forall s <- seqNrs :: s < MODULUS
    ensures mask.None? <==> seqNrs == []
    ensures mask.Some? ==> MarksExactly(mask.value, ack, seqNrs) && Fits(mask.value, ack, seqNrs)
  {
    hide Bit, Diff, Marked, Add, SortByDistance;
    if seqNrs == [] {
      return None;
    }
    var first := Add(ack, 2);
    var sorted := SortByDistance(seqNrs, first);
    SortSorts(seqNrs, first);
    SameMembers(sorted, seqNrs);
    var last := sorted[|sorted| - 1];
    assert last in sorted;
    var bits := new Octet[MaskLength(Diff(last, first))](_ => 0);
    FarthestFits(sorted, first);
    NothingMarked(bits[..]);
    MarkAll(bits, sorted, first);
    mask := Some(bits[..]);
  }

  lemma SameMembers(a: seq<nat>, b: seq<nat>)
    requires multiset(a) == multiset(b)
    ensures forall s :: s in a <==> s in b
  {
    forall s ensures s in a <==> s in b {
      assert s in a <==> s in multiset(a);
      assert s in b <==> s in multiset(b);
    }
  }

  lemma FarthestFits(sorted: seq<nat>, first: nat)
    requires sorted != [] && Ascending(sorted, first)
    ensures forall s <- sorted :: Diff(s, first) <= Diff(sorted[|sorted| - 1], first)
  {
    hide Diff;
  }

  lemma IsAhead(s: nat, first: nat)
    requires s < MODULUS && first < MODULUS
    ensures Ge(s, first) <==> Diff(s, first) < HALF
  {
  }

  lemma NothingMarked(mask: seq<Octet>)
    requires forall k :: 0 <= k < |mask| ==> mask[k] == 0
    ensures forall i :: 0 <= i < 8 * |mask| ==> !Marked(mask, i)
  {
    forall p: nat | p < 8 ensures !Bit(0, p) {
    }
  }

  lemma OneMoreMarked(before: seq<Octet>, i: nat, after: seq<Octet>)
    requires i < 8 * |before| && after == before[i / 8 := SetBit(before[i / 8], i % 8)]
    ensures forall j :: 0 <= j < 8 * |before| ==> (Marked(after, j) <==> j == i || Marked(before, j))
  {
    hide Bit, SetBit;
    forall j | 0 <= j < 8 * |before| ensures Marked(after, j) <==> j == i || Marked(before, j) {
      if j / 8 == i / 8 {
        SetBitSets(before[i / 8], i % 8, j % 8);
      }
    }
  }

  // ---- Reading the mask ----

  /** The numbers of the bits from `i` on that are set, or that are clear. */
  function Numbers(mask: seq<Octet>, base: nat, i: nat, wanted: bool): seq<nat>
    requires i <= 8 * |mask|
    decreases 8 * |mask| - i
  {
    if i == 8 * |mask| then []
    else (if Marked(mask, i) == wanted then [Add(base, 2 + i)] else []) + Numbers(mask, base, i + 1, wanted)
  }

  function Received(mask: seq<Octet>, base: nat): seq<nat> {
    Numbers(mask, base, 0, true)
  }

  /** A mask is sent only when the next expected packet is missing. */
  function Missing(mask: seq<Octet>, base: nat): seq<nat> {
    [Add(base, 1)] + Numbers(mask, base, 0, false)
  }

  method ReadMask(mask: seq<Octet>, base: nat, wanted: bool) returns (numbers: seq<nat>)
    ensures numbers == Numbers(mask, base, 0, wanted)
  {
    hide Bit, Add, Marked, Numbers;
    numbers := [];
    NumbersEnd(mask, base, wanted);
    var seqNr := Add(base, 2);
    for byteIndex := 0 to |mask|
      invariant seqNr == Add(base, 2 + 8 * byteIndex)
      invariant numbers + Numbers(mask, base, 8 * byteIndex, wanted) == Numbers(mask, base, 0, wanted)
    {
      for bitOffset := 0 to 8
        invariant seqNr == Add(base, 2 + 8 * byteIndex + bitOffset)
        invariant numbers + Numbers(mask, base, 8 * byteIndex + bitOffset, wanted) == Numbers(mask, base, 0, wanted)
      {
        var i := 8 * byteIndex + bitOffset;
        NumbersStep(mask, base, i, wanted);
        MarkedAt(mask, byteIndex, bitOffset);
        if Bit(mask[byteIndex], bitOffset) == wanted {
          numbers := numbers + [seqNr];
        }
        AddOne(base, 2 + i);
        seqNr := Add(seqNr, 1);
      }
    }
  }

  lemma NumbersStep(mask: seq<Octet>, base: nat, i: nat, wanted: bool)
    requires i < 8 * |mask|
    ensures Numbers(mask, base, i, wanted) ==
      (if Marked(mask, i) == wanted then [Add(base, 2 + i)] else []) + Numbers(mask, base, i + 1, wanted)
  {
  }

  lemma NumbersEnd(mask: seq<Octet>, base: nat, wanted: bool)
    ensures Numbers(mask, base, 8 * |mask|, wanted) == []
  {
  }

  lemma MarkedAt(mask: seq<Octet>, byteIndex: nat, bitOffset: nat)
    requires byteIndex < |mask| && bitOffset < 8
    ensures Marked(mask, 8 * byteIndex + bitOffset) == Bit(mask[byteIndex], bitOffset)
  {
    hide Bit;
    var i := 8 * byteIndex + bitOffset;
    assert i / 8 == byteIndex && i % 8 == bitOffset;
  }

  lemma AddOne(base: nat, n: nat)
    ensures Add(Add(base, n), 1) == Add(base, n + 1)
  {
  }

  method GetReceivedSequenceNumbers(mask: seq<Octet>, base: nat) returns (numbers: seq<nat>)
    ensures numbers == Received(mask, base)
  {
    numbers := ReadMask(mask, base, true);
  }

  method GetMissingSequenceNumbers(mask: seq<Octet>, base: nat) returns (numbers: seq<nat>)
    ensures numbers == Missing(mask, base)
  {
    var clear := ReadMask(mask, base, false);
    numbers := [Add(base, 1)] + clear;
  }

  // ---- What survives ----

  lemma {:induction false} NumbersAre(mask: seq<Octet>, base: nat, i: nat, wanted: bool, s: nat)
    requires i <= 8 * |mask| <= MODULUS && s < MODULUS
    ensures s in Numbers(mask, base, i, wanted) <==>
      var d := Diff(s, Add(base, 2)); i <= d < 8 * |mask| && Marked(mask, d) == wanted
    decreases 8 * |mask| - i
  {
    hide Bit, Marked;
    if i == 8 * |mask| {
    } else {
      NumbersAre(mask, base, i + 1, wanted, s);
      FromBase(base, i, s);
      hide Add, Diff;
    }
  }

  lemma FromBase(base: nat, i: nat, s: nat)
    requires i < MODULUS && s < MODULUS
    ensures s == Add(base, 2 + i) <==> Diff(s, Add(base, 2)) == i
  {
  }

  /**
   Reading back a mask gives exactly the numbers that went in and count as ahead, and the missing ones are the next
   expected number and the rest of the mask's range.
   */
  lemma MaskKeepsReceived(mask: seq<Octet>, ack: nat, seqNrs: seq<nat>, s: nat)
    requires MarksExactly(mask, ack, seqNrs) && Fits(mask, ack, seqNrs) && 8 * |mask| <= MODULUS
    requires s < MODULUS && forall t <- seqNrs :: t < MODULUS
    ensures s in Received(mask, ack) <==> s in seqNrs && Diff(s, Add(ack, 2)) < HALF
    ensures s in Missing(mask, ack) <==>
      s == Add(ack, 1) || (Diff(s, Add(ack, 2)) < 8 * |mask| && s !in Received(mask, ack))
    ensures (forall t <- seqNrs :: Diff(t, Add(ack, 2)) < HALF) ==> (s in Received(mask, ack) <==> s in seqNrs)
  {
    hide Bit, Numbers, Marked, Diff, Add;
    NumbersAre(mask, ack, 0, true, s);
    NumbersAre(mask, ack, 0, false, s);
    var d := Diff(s, Add(ack, 2));
    forall t <- seqNrs | Diff(t, Add(ack, 2)) == d ensures t == s {
      SameDistance(s, t, Add(ack, 2));
    }
  }

  lemma SameDistance(s: nat, t: nat, base: nat)
    requires s < MODULUS && t < MODULUS && Diff(s, base) == Diff(t, base)
    ensures s == t
  {
    DiffThenAdd(s, base);
    DiffThenAdd(t, base);
  }

  /** A mask fits the length byte of an extension exactly when no number is 2016 or more ahead. */
  lemma MaskFitsLengthByte(mask: seq<Octet>, ack: nat, seqNrs: seq<nat>)
    requires Fits(mask, ack, seqNrs)
    ensures |mask| <= 255 <==> forall s <- seqNrs :: Diff(s, Add(ack, 2)) < 2016
  {
    hide Diff, Add;
  }
}
