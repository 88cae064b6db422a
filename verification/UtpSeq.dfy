/** The 16-bit sequence numbers of uTP (BEP 29) and their order across the wrap-around. */
module UtpSeq {

  const MODULUS: int := 0x1_0000
  const HALF: int := 0x8000

  function Add(a: int, n: int): (r: nat)
    ensures r < MODULUS
  {
    (a + n) % MODULUS
  }

  /** How far `a` is ahead of `b`. */
  function Diff(a: int, b: int): (r: nat)
    ensures r < MODULUS
  {
    (a - b) % MODULUS
  }

  predicate Lt(a: int, b: int) {
    a != b && (b - a) % MODULUS < HALF
  }

  predicate Le(a: int, b: int) {
    a == b || Lt(a, b)
  }

  predicate Gt(a: int, b: int) {
    Lt(b, a)
  }

  predicate Ge(a: int, b: int) {
    a == b || Gt(a, b)
  }

  /** The comparisons of two numbers agree with their order before wrapping when they are less than 2^15 apart. */
  lemma OrderAgrees(x: int, y: int)
    requires -HALF < x - y < HALF
    ensures var a, b := x % MODULUS, y % MODULUS;
      && (Lt(a, b) <==> x < y) && (Le(a, b) <==> x <= y) && (Gt(a, b) <==> x > y) && (Ge(a, b) <==> x >= y)
      && (x >= y ==> Diff(a, b) == x - y) && Add(b, x - y) == a
  {
    Wraps(y - x);
    Wraps(x - y);
  }

  lemma Wraps(d: int)
    ensures -HALF < d < 0 ==> d % MODULUS == d + MODULUS
    ensures 0 <= d < MODULUS ==> d % MODULUS == d
  {
  }

  /** Numbers exactly 2^15 apart are not ordered at all, so the bound above is sharp. */
  lemma HalfWayIsUnordered(x: int, y: int)
    requires x - y == HALF
    ensures !Lt(x % MODULUS, y % MODULUS) && !Lt(y % MODULUS, x % MODULUS) && x % MODULUS != y % MODULUS
  {
    Wraps(x - y);
  }

  /** Measuring a distance and moving ahead by it undo each other. */
  lemma DiffThenAdd(s: nat, base: int)
    requires s < MODULUS
    ensures Add(base, Diff(s, base)) == s
  {
  }
}
