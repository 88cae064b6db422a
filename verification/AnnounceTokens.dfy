/** Announce tokens bound to an address (BEP 5) and how long they stay valid under lazily rotated secrets. */
module AnnounceTokens {
  import opened Results

  type Octet = bv8
  type Secret = seq<Octet>
  type Token = seq<Octet>

  /** The token hash, applied to the secret followed by the address. */
  type TokenHash = seq<Octet> -> Token

  /** Times are in any unit; a secret is current from `rotatedAt` on. */
  datatype Manager = Manager(interval: real, rotatedAt: real, current: Secret, previous: Option<Secret>)

  /** Every call looks at the clock; the next secret is used when it is time to rotate. */
  datatype Call = Call(now: real, next: Secret)

  function Rotate(m: Manager, call: Call): Manager {
    var elapsed := call.now - m.rotatedAt;
    if elapsed < m.interval then m
    else Manager(m.interval, call.now, call.next, if elapsed < m.interval * 2.0 then Some(m.current) else None)
  }

  function TokenFor(hash: TokenHash, secret: Secret, address: seq<Octet>): Token {
    hash(secret + address)
  }

  predicate Accepts(m: Manager, hash: TokenHash, token: Token, address: seq<Octet>) {
    token == TokenFor(hash, m.current, address)
    || (m.previous.Some? && token == TokenFor(hash, m.previous.value, address))
  }

  function After(m: Manager, calls: seq<Call>): Manager {
    if calls == [] then m else Rotate(After(m, calls[..|calls| - 1]), calls[|calls| - 1])
  }

  /** The calls come in the order of time, none before `start` and none behind `end`. */
  predicate Between(calls: seq<Call>, start: real, end: real) {
    && (forall i :: 0 <= i < |calls| ==> start <= calls[i].now <= end)
    && forall i, j :: 0 <= i < j < |calls| ==> calls[i].now <= calls[j].now
  }

  /** Just after the call at `issuedAt`, the token's secret is current. */
  predicate IssuedAt(m: Manager, issuedAt: real) {
    m.interval > 0.0 && m.rotatedAt <= issuedAt < m.rotatedAt + m.interval
  }

  predicate StillCurrent(m: Manager, secret: Secret, issuedAt: real) {
    m.current == secret && IssuedAt(m, issuedAt)
  }

  predicate NowPrevious(m: Manager, secret: Secret, issuedAt: real) {
    && m.interval > 0.0 && m.previous == Some(secret)
    && issuedAt < m.rotatedAt < issuedAt + m.interval * 2.0
  }

  lemma {:induction false} EarlyPhases(m: Manager, calls: seq<Call>, issuedAt: real, end: real)
    requires IssuedAt(m, issuedAt) && Between(calls, issuedAt, end) && end < issuedAt + m.interval
    ensures var after := After(m, calls);
      && after.interval == m.interval
      && (StillCurrent(after, m.current, issuedAt) || NowPrevious(after, m.current, issuedAt))
  {
    if calls == [] {
    } else {
      EarlyPhases(m, calls[..|calls| - 1], issuedAt, end);
    }
  }

  /** Less than one interval after it was issued a token is valid, whatever calls came in between. */
  lemma YoungTokenIsValid(m: Manager, calls: seq<Call>, issuedAt: real, now: real, hash: TokenHash, address: seq<Octet>)
    requires IssuedAt(m, issuedAt) && Between(calls, issuedAt, now) && now - issuedAt < m.interval
    ensures Accepts(After(m, calls), hash, TokenFor(hash, m.current, address), address)
  {
    EarlyPhases(m, calls, issuedAt, now);
  }

  /** Secrets are fresh and equally long, so with an injective hash different secrets give different tokens. */
  ghost predicate Separates(hash: TokenHash) {
    forall a, b :: hash(a) == hash(b) ==> a == b
  }

  predicate FreshFor(m: Manager, calls: seq<Call>) {
    && (m.previous.Some? ==> m.previous.value != m.current && |m.previous.value| == |m.current|)
    && forall i :: 0 <= i < |calls| ==> calls[i].next != m.current && |calls[i].next| == |m.current|
  }

  /** Neither secret in use is the given one. */
  predicate Gone(m: Manager, secret: Secret) {
    m.current != secret && m.previous != Some(secret)
  }

  predicate SameLength(m: Manager, n: nat) {
    |m.current| == n && (m.previous.Some? ==> |m.previous.value| == n)
  }

  lemma {:induction false} LatePhases(m: Manager, calls: seq<Call>, issuedAt: real, end: real)
    requires IssuedAt(m, issuedAt) && Between(calls, issuedAt, end) && FreshFor(m, calls)
    ensures var after := After(m, calls);
      && after.interval == m.interval && SameLength(after, |m.current|)
      && (StillCurrent(after, m.current, issuedAt)
          || (NowPrevious(after, m.current, issuedAt) && after.current != m.current)
          || Gone(after, m.current))
    ensures calls != [] && calls[|calls| - 1].now >= issuedAt + m.interval * 3.0 ==> Gone(After(m, calls), m.current)
  {
    if calls == [] {
    } else {
      LatePhases(m, calls[..|calls| - 1], issuedAt, end);
    }
  }

  lemma GoneIsRejected(m: Manager, hash: TokenHash, secret: Secret, address: seq<Octet>)
    requires Separates(hash) && Gone(m, secret) && SameLength(m, |secret|)
    ensures !Accepts(m, hash, TokenFor(hash, secret, address), address)
  {
    Tails(secret, m.current, address, address);
    if m.previous.Some? {
      Tails(secret, m.previous.value, address, address);
    }
  }

  lemma Tails(a: Secret, b: Secret, x: seq<Octet>, y: seq<Octet>)
    requires |a| == |b|
    ensures a + x == b + y <==> a == b && x == y
  {
    if a + x == b + y {
      assert a == (a + x)[..|a|] && b == (b + y)[..|b|];
      assert x == (a + x)[|a|..] && y == (b + y)[|b|..];
    }
  }

  /** Three intervals after it was issued, or later, a token is never valid. */
  lemma OldTokenIsInvalid(m: Manager, calls: seq<Call>, issuedAt: real, hash: TokenHash, address: seq<Octet>)
    requires IssuedAt(m, issuedAt) && calls != [] && FreshFor(m, calls) && Separates(hash)
    requires Between(calls, issuedAt, calls[|calls| - 1].now)
    requires calls[|calls| - 1].now - issuedAt >= m.interval * 3.0
    ensures !Accepts(After(m, calls), hash, TokenFor(hash, m.current, address), address)
  {
    LatePhases(m, calls, issuedAt, calls[|calls| - 1].now);
    GoneIsRejected(After(m, calls), hash, m.current, address);
  }

  /** Both bounds are sharp: a token can outlive any age below three intervals ... */
  lemma TokenMayLiveLong(interval: real, short: real, secrets: seq<Secret>, hash: TokenHash, address: seq<Octet>)
    requires 0.0 < short <= interval && |secrets| == 3
    ensures var m := Manager(interval, 0.0, secrets[0], None);
      var calls := [Call(interval * 2.0 - short, secrets[1]), Call(interval * 3.0 - short * 2.0, secrets[2])];
      IssuedAt(m, 0.0) && Accepts(After(m, calls), hash, TokenFor(hash, secrets[0], address), address)
  {
    var m := Manager(interval, 0.0, secrets[0], None);
    var first, second := Call(interval * 2.0 - short, secrets[1]), Call(interval * 3.0 - short * 2.0, secrets[2]);
    assert [first, second][..1] == [first] && [first][..0] == [];
    assert After(m, [first]) == Rotate(m, first);
    assert After(m, [first, second]) == Rotate(Rotate(m, first), second);
  }

  /** ... and can be invalid at any age above one. */
  lemma TokenMayDieYoung(interval: real, short: real, next: Secret, secret: Secret, hash: TokenHash, address: seq<Octet>)
    requires 0.0 < short < interval && next != secret && |next| == |secret| && Separates(hash)
    ensures var m := Manager(interval, 0.0, secret, None);
      var issuedAt, call := interval - short, Call(interval * 2.0, next);
      && IssuedAt(m, issuedAt) && call.now - issuedAt == interval + short
      && !Accepts(Rotate(m, call), hash, TokenFor(hash, secret, address), address)
  {
    var m := Manager(interval, 0.0, secret, None);
    GoneIsRejected(Rotate(m, Call(interval * 2.0, next)), hash, secret, address);
  }

  /** A token is good for no other address. */
  lemma TokenIsBoundToAddress(m: Manager, hash: TokenHash, secret: Secret, address: seq<Octet>, other: seq<Octet>)
    requires Separates(hash) && SameLength(m, |secret|) && other != address
    ensures !Accepts(m, hash, TokenFor(hash, secret, address), other)
  {
    Tails(secret, m.current, address, other);
    if m.previous.Some? {
      Tails(secret, m.previous.value, address, other);
    }
  }

  // ---- The object ----

  class TokenManager {
    const interval: real
    const hash: TokenHash
    var rotatedAt: real
    var currentSecret: Secret
    var previousSecret: Option<Secret>

    function View(): Manager
      reads this
    {
      Manager(interval, rotatedAt, currentSecret, previousSecret)
    }

    constructor (interval: real, hash: TokenHash, now: real, next: Secret)
      requires interval > 0.0 && |next| >= 16
      ensures View() == Manager(interval, now, next, None) && this.hash == hash
    {
      this.interval, this.hash, rotatedAt, currentSecret, previousSecret := interval, hash, now, next, None;
    }

    method RotateIfNeeded(now: real, next: Secret)
      modifies this
      ensures View() == Rotate(old(View()), Call(now, next))
    {
      var elapsed := now - rotatedAt;
      if elapsed < interval {
        return;
      }
      previousSecret := if elapsed < interval * 2.0 then Some(currentSecret) else None;
      currentSecret := next;
      rotatedAt := now;
    }

    method Issue(address: seq<Octet>, now: real, next: Secret) returns (token: Token)
      modifies this
      ensures View() == Rotate(old(View()), Call(now, next)) && token == TokenFor(hash, currentSecret, address)
      ensures interval > 0.0 && old(rotatedAt) <= now ==> IssuedAt(View(), now)
    {
      RotateIfNeeded(now, next);
      token := TokenFor(hash, currentSecret, address);
    }

    method Validate(token: Token, address: seq<Octet>, now: real, next: Secret) returns (valid: bool)
      modifies this
      ensures View() == Rotate(old(View()), Call(now, next)) && (valid <==> Accepts(View(), hash, token, address))
    {
      RotateIfNeeded(now, next);
      valid := ConstantTimeEqual(token, TokenFor(hash, currentSecret, address));
      if !valid && previousSecret.Some? {
        valid := ConstantTimeEqual(token, TokenFor(hash, previousSecret.value, address));
      }
    }
  }

  /** Looks at every byte of both, whether or not they differ early. */
  method ConstantTimeEqual(left: seq<Octet>, right: seq<Octet>) returns (equal: bool)
    ensures equal <==> left == right
  {
    hide Mix;
    // The exclusive or of the lengths is zero exactly when they are equal.
    var difference: Octet := if |left| == |right| then 0 else 1;
    var length := if |left| < |right| then |right| else |left|;
    for i := 0 to length
      invariant difference == 0 <==> |left| == |right| && forall j :: 0 <= j < i && j < |left| && j < |right| ==> left[j] == right[j]
    {
      var a: Octet := if i < |left| then left[i] else 0;
      var b: Octet := if i < |right| then right[i] else 0;
      difference := Mix(difference, a, b);
    }
    equal := difference == 0;
  }

  function Mix(difference: Octet, a: Octet, b: Octet): (mixed: Octet)
    ensures mixed == 0 <==> difference == 0 && a == b
  {
    difference | (a ^ b)
  }
}
