/** Node ids as bit strings, the XOR metric, and the division of the id space into k-bucket ranges. */
module IdSpace {
  import opened Results
  import opened Arithmetic

  /** Most significant bit first. */
  type Id = seq<bool>

  function Value(bits: Id): (r: nat)
    ensures r < Pow2(|bits|)
  {
    if bits == [] then 0 else (if bits[0] then Pow2(|bits| - 1) else 0) + Value(bits[1..])
  }

  function Bits(n: nat, x: nat): (r: Id)
    requires x < Pow2(n)
    ensures |r| == n
  {
    if n == 0 then [] else if x >= Pow2(n - 1) then [true] + Bits(n - 1, x - Pow2(n - 1)) else [false] + Bits(n - 1, x)
  }

  lemma {:induction false} BitsHaveValue(n: nat, x: nat)
    requires x < Pow2(n)
    ensures Value(Bits(n, x)) == x
  {
    if n == 0 {
    } else {
      var rest := if x >= Pow2(n - 1) then x - Pow2(n - 1) else x;
      BitsHaveValue(n - 1, rest);
      assert Bits(n, x)[1..] == Bits(n - 1, rest);
    }
  }

  function Xor(a: Id, b: Id): (r: Id)
    requires |a| == |b|
    ensures |r| == |a|
  {
    if a == [] then [] else [a[0] != b[0]] + Xor(a[1..], b[1..])
  }

  function Distance(a: Id, b: Id): nat
    requires |a| == |b|
  {
    Value(Xor(a, b))
  }

  /** The inclusive range of one bucket. */
  datatype Range = Range(start: nat, end: nat) {
    predicate Contains(x: nat) {
      start <= x <= end
    }
  }

  /** The midpoint as computed with truncating division. */
  function LeftEnd(start: nat, end: nat): nat {
    if start + end == 0 then 0 else (start + end - 1) / 2
  }

  /** The ranges of the buckets around a local id; nothing where the source throws. */
  function GenerateBuckets(local: nat, start: nat, end: nat): Option<seq<Range>>
    decreases end - start
  {
    var left, right := Range(start, LeftEnd(start, end)), Range(LeftEnd(start, end) + 1, end);
    if start == end && start == local then Some([])
    else if left.start > left.end || right.start > right.end then None
    else if left.Contains(local) then
      var rest := GenerateBuckets(local, left.start, left.end);
      if rest.None? then None else Some([right] + rest.value)
    else if right.Contains(local) then
      var rest := GenerateBuckets(local, right.start, right.end);
      if rest.None? then None else Some([left] + rest.value)
    else None
  }

  /** A distance of `n` bits has its leading one at bit `k`, counted from the most significant. */
  predicate InShell(x: nat, n: nat, k: nat)
    requires k < n
  {
    Pow2(n - 1 - k) <= x < Pow2(n - k)
  }

  /** In the ranges for the ids `base + s`, range `k` holds those at a distance in shell `k`. */
  ghost predicate SplitsAround(ranges: seq<Range>, base: nat, local: Id) {
    && |ranges| == |local|
    && (forall k :: 0 <= k < |ranges| ==> base <= ranges[k].start && ranges[k].end < base + Pow2(|local|))
    && forall k, s: Id :: 0 <= k < |ranges| && |s| == |local| ==>
         (ranges[k].Contains(base + Value(s)) <==> InShell(Distance(s, local), |local|, k))
  }

  /** The half that the local id is not in becomes a bucket; the other half is divided further. */
  function OuterHalf(bit: bool, base: nat, half: nat): Range
    requires half > 0
  {
    if bit then Range(base, base + half - 1) else Range(base + half, base + half + half - 1)
  }

  function InnerBase(bit: bool, base: nat, half: nat): nat {
    if bit then base + half else base
  }

  /** The leading bit of two ids decides the leading bit of their distance. */
  lemma DistanceSplits(s: Id, local: Id)
    requires |s| == |local| > 0
    ensures Value(s) == (if s[0] then Pow2(|local| - 1) else 0) + Value(s[1..])
    ensures Distance(s, local) == (if s[0] != local[0] then Pow2(|local| - 1) else 0) + Distance(s[1..], local[1..])
    ensures Distance(s[1..], local[1..]) < Pow2(|local| - 1) && Value(s[1..]) < Pow2(|local| - 1)
  {
    assert Xor(s, local)[1..] == Xor(s[1..], local[1..]);
    hide Pow2;
  }

  lemma ShellsNest(x: nat, n: nat, k: nat, top: bool)
    requires 0 < n && k < n && x < Pow2(n - 1)
    ensures InShell((if top then Pow2(n - 1) else 0) + x, n, k) <==>
      if k == 0 then top else !top && InShell(x, n - 1, k - 1)
  {
    hide Pow2;
    Pow2Doubles(n);
    if k > 0 {
      Pow2Monotone(n - k, n - 1);
    }
  }

  lemma SplitHolds(ranges: seq<Range>, base: nat, local: Id, k: nat, s: Id)
    requires SplitsAround(ranges, base, local) && k < |local| == |s|
    ensures |ranges| == |local|
    ensures ranges[k].Contains(base + Value(s)) <==> InShell(Distance(s, local), |local|, k)
    ensures base <= ranges[k].start && ranges[k].end < base + Pow2(|local|)
  {
    hide Value, Distance, InShell, Pow2;
  }

  /** One more leading bit in front of an id shifts it into the right half and the shells by one. */
  lemma SplitShifts(range: Range, base: nat, half: nat, n: nat, k: nat, local: bool, bit: bool, value: nat, distance: nat)
    requires k < n && half == Pow2(n) && value < half && distance < half
    requires InnerBase(local, base, half) <= range.start && range.end < InnerBase(local, base, half) + half
    requires range.Contains(InnerBase(local, base, half) + value) <==> InShell(distance, n, k)
    ensures range.Contains(base + (if bit then half else 0) + value) <==>
      InShell((if bit != local then half else 0) + distance, n + 1, k + 1)
  {
    hide InShell, Pow2;
    ShellsNest(distance, n + 1, k + 1, bit != local);
  }

  lemma OuterIsShellZero(base: nat, half: nat, n: nat, local: bool, bit: bool, value: nat, distance: nat)
    requires half == Pow2(n) && value < half && distance < half
    ensures OuterHalf(local, base, half).Contains(base + (if bit then half else 0) + value) <==>
      InShell((if bit != local then half else 0) + distance, n + 1, 0)
  {
    hide InShell, Pow2;
    ShellsNest(distance, n + 1, 0, bit != local);
  }

  lemma SplitFirst(base: nat, local: Id, half: nat, s: Id)
    requires 0 < |s| == |local| && half == Pow2(|local| - 1)
    ensures OuterHalf(local[0], base, half).Contains(base + Value(s)) <==> InShell(Distance(s, local), |local|, 0)
  {
    hide *;
    DistanceSplits(s, local);
    OuterIsShellZero(base, half, |local| - 1, local[0], s[0], Value(s[1..]), Distance(s[1..], local[1..]));
  }

  lemma SplitRest(base: nat, local: Id, rest: seq<Range>, half: nat, k: nat, s: Id)
    requires k + 1 < |s| == |local| && half == Pow2(|local| - 1)
    requires SplitsAround(rest, InnerBase(local[0], base, half), local[1..])
    ensures |rest| == |local| - 1
    ensures rest[k].Contains(base + Value(s)) <==> InShell(Distance(s, local), |local|, k + 1)
  {
    hide *;
    SplitHolds(rest, InnerBase(local[0], base, half), local[1..], k, s[1..]);
    DistanceSplits(s, local);
    SplitShifts(rest[k], base, half, |local| - 1, k, local[0], s[0], Value(s[1..]), Distance(s[1..], local[1..]));
  }

  lemma ExtendSplit(base: nat, local: Id, rest: seq<Range>, half: nat)
    requires local != [] && half == Pow2(|local| - 1)
    requires SplitsAround(rest, InnerBase(local[0], base, half), local[1..])
    ensures SplitsAround([OuterHalf(local[0], base, half)] + rest, base, local)
  {
    hide *;
    var outer := OuterHalf(local[0], base, half);
    var ranges := [outer] + rest;
    RestIsInside(base, local, rest, half);
    forall k, s: Id | 0 <= k < |ranges| && |s| == |local|
      ensures ranges[k].Contains(base + Value(s)) <==> InShell(Distance(s, local), |local|, k)
    {
      if k == 0 {
        SplitFirst(base, local, half, s);
      } else {
        SplitRest(base, local, rest, half, k - 1, s);
      }
    }
    SplitsWhen(ranges, base, local);
  }

  /** The ranges of both halves lie inside the whole. */
  lemma RestIsInside(base: nat, local: Id, rest: seq<Range>, half: nat)
    requires local != [] && half == Pow2(|local| - 1)
    requires SplitsAround(rest, InnerBase(local[0], base, half), local[1..])
    ensures |rest| == |local| - 1
    ensures var ranges := [OuterHalf(local[0], base, half)] + rest;
      forall k :: 0 <= k < |ranges| ==> base <= ranges[k].start && ranges[k].end < base + Pow2(|local|)
  {
    hide InShell, Pow2, Value, Distance;
    Pow2Doubles(|local|);
  }

  lemma SplitsWhen(ranges: seq<Range>, base: nat, local: Id)
    requires |ranges| == |local|
    requires forall k :: 0 <= k < |ranges| ==> base <= ranges[k].start && ranges[k].end < base + Pow2(|local|)
    requires forall k, s: Id :: 0 <= k < |ranges| && |s| == |local| ==>
      (ranges[k].Contains(base + Value(s)) <==> InShell(Distance(s, local), |local|, k))
    ensures SplitsAround(ranges, base, local)
  {
    hide InShell, Pow2, Value, Distance, Range.Contains;
  }

  lemma Pow2Doubles(n: nat)
    requires n > 0
    ensures Pow2(n) == Pow2(n - 1) + Pow2(n - 1)
  {
  }

  lemma HalvesOnce(x: nat, base: nat, half: nat, bit: bool)
    requires half > 0 && base <= x < base + half + half && (bit <==> x >= base + half)
    requires GenerateBuckets(x, InnerBase(bit, base, half), InnerBase(bit, base, half) + half - 1).Some?
    ensures GenerateBuckets(x, base, base + half + half - 1) ==
      Some([OuterHalf(bit, base, half)] + GenerateBuckets(x, InnerBase(bit, base, half), InnerBase(bit, base, half) + half - 1).value)
  {
    HalfPoint(base, half);
  }

  lemma HalfPoint(base: nat, half: nat)
    requires half > 0
    ensures LeftEnd(base, base + half + half - 1) == base + half - 1
  {
  }

  lemma LocalIsInside(base: nat, local: Id, half: nat, x: nat)
    requires local != [] && half == Pow2(|local| - 1) && x == base + Value(local)
    ensures InnerBase(local[0], base, half) + Value(local[1..]) == x && Pow2(|local|) == half + half && half > 0
    ensures base <= x < base + half + half && (local[0] <==> x >= base + half)
  {
    hide Pow2, Value, Distance;
    DistanceSplits(local, local);
    Pow2Doubles(|local|);
  }

  lemma NothingToSplit(base: nat, x: nat, end: nat)
    requires x == base + Value([]) && end == base + Pow2(0) - 1
    ensures GenerateBuckets(x, base, end) == Some([]) && SplitsAround([], base, [])
  {
  }

  lemma {:induction false} GeneratesSplit(base: nat, local: Id, x: nat, end: nat)
    requires x == base + Value(local) && end == base + Pow2(|local|) - 1
    ensures GenerateBuckets(x, base, end).Some? && SplitsAround(GenerateBuckets(x, base, end).value, base, local)
    decreases |local|
  {
    hide GenerateBuckets, SplitsAround, Pow2, Value, OuterHalf, InnerBase;
    if local == [] {
      NothingToSplit(base, x, end);
    } else {
      var half := Pow2(|local| - 1);
      var inner := InnerBase(local[0], base, half);
      LocalIsInside(base, local, half, x);
      GeneratesSplit(inner, local[1..], x, inner + half - 1);
      HalvesOnce(x, base, half, local[0]);
      ExtendSplit(base, local, GenerateBuckets(x, inner, inner + half - 1).value, half);
    }
  }

  /** Every positive number below 2^n lies in exactly one shell. */
  lemma OneShell(x: nat, n: nat) returns (k: nat)
    requires 0 < x < Pow2(n)
    ensures k < n && InShell(x, n, k)
    ensures forall j :: 0 <= j < n && InShell(x, n, j) ==> j == k
  {
    hide Pow2;
    k := ShellIndex(x, n);
    forall j | 0 <= j < n && InShell(x, n, j) ensures j == k {
      if j < k {
        Pow2Monotone(n - k, n - 1 - j);
      } else if k < j {
        Pow2Monotone(n - j, n - 1 - k);
      }
    }
  }

  function ShellIndex(x: nat, n: nat): (k: nat)
    requires 0 < x < Pow2(n)
    ensures k < n && InShell(x, n, k)
  {
    if x >= Pow2(n - 1) then 0 else 1 + ShellIndex(x, n - 1)
  }

  lemma {:induction false} XorIsZero(a: Id, b: Id)
    requires |a| == |b|
    ensures Distance(a, b) == 0 <==> a == b
  {
    if a == [] {
    } else {
      XorIsZero(a[1..], b[1..]);
      DistanceSplits(a, b);
      assert a == b <==> a[0] == b[0] && a[1..] == b[1..] by {
        assert a == [a[0]] + a[1..] && b == [b[0]] + b[1..];
      }
    }
  }

  /**
   For every width and local id there are exactly as many buckets as bits, bucket `k` holds exactly the ids whose
   XOR distance to the local id lies in [2^(n-1-k), 2^(n-k)), every other id is in exactly one bucket and the
   local id in none.
   */
  lemma BucketsFollowTheMetric(local: Id)
    ensures var buckets := GenerateBuckets(Value(local), 0, Pow2(|local|) - 1);
      && buckets.Some? && |buckets.value| == |local|
      && (forall k, id: Id :: 0 <= k < |local| && |id| == |local| ==>
            (buckets.value[k].Contains(Value(id)) <==> InShell(Distance(id, local), |local|, k)))
      && (forall id: Id :: |id| == |local| && id != local ==> InOneRange(buckets.value, Value(id)))
      && (forall k :: 0 <= k < |local| ==> !buckets.value[k].Contains(Value(local)))
  {
    hide GenerateBuckets, Xor, Value, Distance, Pow2, InShell;
    var n := |local|;
    GeneratesSplit(0, local, Value(local), Pow2(n) - 1);
    var ranges := GenerateBuckets(Value(local), 0, Pow2(n) - 1).value;
    forall k, id: Id | 0 <= k < n && |id| == n
      ensures ranges[k].Contains(Value(id)) <==> InShell(Distance(id, local), n, k)
    {
      assert 0 + Value(id) == Value(id);
    }
    forall id: Id | |id| == n && id != local ensures InOneRange(ranges, Value(id)) {
      DistanceIsShell(id, local);
      var k := OneShell(Distance(id, local), n);
      assert ranges[k].Contains(Value(id));
    }
    ZeroInNoShell(local);
  }

  lemma DistanceIsShell(id: Id, local: Id)
    requires |id| == |local| && id != local
    ensures 0 < Distance(id, local) < Pow2(|local|)
  {
    XorIsZero(id, local);
  }

  lemma ZeroInNoShell(local: Id)
    ensures forall k :: 0 <= k < |local| ==> !InShell(Distance(local, local), |local|, k)
  {
    XorIsZero(local, local);
  }

  ghost predicate Disjoint(ranges: seq<Range>) {
    forall k, x: nat :: 0 <= k < |ranges| && ranges[k].Contains(x) ==> OnlyRange(ranges, x, k)
  }

  lemma SplitsBelow(ranges: seq<Range>, local: Id, k: nat, x: nat)
    requires SplitsAround(ranges, 0, local) && k < |ranges| && ranges[k].Contains(x)
    ensures x < Pow2(|local|)
  {
    hide Pow2, Value, Distance;
  }

  /** No number at all is in two of the ranges. */
  lemma RangesAreDisjoint(local: Id)
    ensures var ranges := GenerateBuckets(Value(local), 0, Pow2(|local|) - 1);
      ranges.Some? && Disjoint(ranges.value)
  {
    hide GenerateBuckets, Value, Distance, Pow2, Bits, InShell, SplitsAround, OnlyRange;
    BucketsFollowTheMetric(local);
    GeneratesSplit(0, local, Value(local), Pow2(|local|) - 1);
    var ranges := GenerateBuckets(Value(local), 0, Pow2(|local|) - 1).value;
    forall k, x: nat | 0 <= k < |ranges| && ranges[k].Contains(x) ensures OnlyRange(ranges, x, k) {
      SplitsBelow(ranges, local, k, x);
      var id := Bits(|local|, x);
      BitsHaveValue(|local|, x);
      assert id != local;
      OnlyOne(ranges, x, k);
    }
  }

  lemma OnlyOne(ranges: seq<Range>, x: nat, k: nat)
    requires InOneRange(ranges, x) && k < |ranges| && ranges[k].Contains(x)
    ensures OnlyRange(ranges, x, k)
  {
  }

  predicate InOneRange(ranges: seq<Range>, x: nat) {
    exists k :: 0 <= k < |ranges| && ranges[k].Contains(x) && OnlyRange(ranges, x, k)
  }

  predicate OnlyRange(ranges: seq<Range>, x: nat, k: nat) {
    forall j :: 0 <= j < |ranges| && ranges[j].Contains(x) ==> j == k
  }
}
