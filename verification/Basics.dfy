/** What several modules need: an optional value, the source's unsigned 64-bit arithmetic, and
    small functions on numbers. */
module Basics {
  datatype Option<+T> = None | Some(value: T)

  const U64: int := 0x1_0000_0000_0000_0000

  function Wrapped(x: int): (r: nat)
    ensures 0 <= x < 0x1_0000_0000_0000_0000 ==> r == x
    ensures r < 0x1_0000_0000_0000_0000
  {
    x % U64
  }

  function Min(a: nat, b: nat): nat { if a < b then a else b }

  function Max(a: int, b: int): int { if a < b then b else a }

  function One(b: bool): nat { if b then 1 else 0 }

  /** Multiplication under a name, so that a proof can do without its arithmetic. */
  function Times(a: nat, b: nat): nat { a * b }

  lemma TimesAdd(a: nat, b: nat, c: nat)
    ensures Times(a + b, c) == Times(a, c) + Times(b, c)
  {
  }

  lemma TimesMonotone(a: nat, b: nat, c: nat)
    requires a <= b
    ensures Times(a, c) <= Times(b, c)
  {
  }

  lemma TimesFacts(k: nat, b: nat)
    ensures Times(0, b) == 0 && Times(1, b) == b && Times(k + 1, b) == Times(k, b) + b
    ensures k > 0 ==> Times(k, b) == Times(k - 1, b) + b
  {
    TimesAdd(k, 1, b);
    if k > 0 { TimesAdd(k - 1, 1, b); }
  }

  lemma TimesAssociate(a: nat, b: nat, c: nat)
    ensures Times(a, Times(b, c)) == Times(Times(a, b), c)
  {
  }

  lemma TimesPositive(a: nat, b: nat)
    requires a > 0 && b > 0
    ensures Times(a, b) > 0
  {
    TimesMonotone(1, a, b);
  }

  lemma DivMul(a: nat, b: nat, c: nat)
    requires c > 0
    ensures a / c >= b <==> a >= Times(b, c)
    ensures Times(a / c, c) <= a
  {
    if a / c >= b {
      TimesMonotone(b, a / c, c);
    } else {
      TimesMonotone(a / c + 1, b, c);
    }
  }

  lemma ModMul(q: nat, p: nat)
    requires p > 0
    ensures Times(q, p) % p == 0 && Times(q, p) / p == q
  {
    DivMul(Times(q, p), q, p);
    DivMul(Times(q, p), q + 1, p);
    TimesAdd(q, 1, p);
  }

  lemma DivMod(a: nat, b: nat)
    requires b > 0
    ensures Times(a / b, b) + a % b == a && a % b < b
  {
  }

  /** CalculateRequiredLBACount: the LBAs that bytes from an offset inside the first one on take. */
  function RequiredLbas(nrBytes: nat, offset: nat, lbaSize: nat): nat
    requires lbaSize > 0
  {
    (offset + nrBytes + lbaSize - 1) / lbaSize
  }

  /** Rounding up. */
  lemma RequiredIs(nrBytes: nat, offset: nat, lbaSize: nat, n: nat)
    requires lbaSize > 0
    ensures RequiredLbas(nrBytes, offset, lbaSize) <= n <==> offset + nrBytes <= Times(n, lbaSize)
  {
    DivMul(offset + nrBytes + lbaSize - 1, n + 1, lbaSize);
    TimesFacts(n, lbaSize);
  }
}
