/** IPv4 addresses and prefixes, the vocabulary shared by every other module.

    An address is the 32-bit number it stands for.  A `Cidr` is an address with a
    length; a `Prefix` is one whose host bits are all zero, which is what the
    database's cidr columns hold. */
module Net {
  type Addr = a: int | 0 <= a < 0x1_0000_0000

  function Pow2(n: nat): (p: nat)
    ensures p >= 1
  {
    if n == 0 then 1 else 2 * Pow2(n - 1)
  }

  datatype Cidr = Cidr(addr: Addr, bits: nat)
  {
    predicate Masked() {
      bits <= 32 && addr % Pow2(32 - bits) == 0
    }
  }

  type Prefix = c: Cidr | c.Masked() witness Cidr(0, 32)

  /** Number of addresses in a prefix. */
  function Size(p: Prefix): nat {
    Pow2(32 - p.bits)
  }

  predicate Contains(p: Prefix, a: Addr) {
    p.addr <= a < p.addr + Size(p)
  }

  /** The single-address prefix written `a/32`. */
  function Single(a: Addr): (p: Prefix)
    ensures forall x: Addr :: Contains(p, x) <==> x == a
  {
    Cidr(a, 32)
  }

  const EVERYTHING: Prefix := Cidr(0, 0)

  /** Whether some prefix of a list contains the address. */
  predicate Covers(ps: seq<Prefix>, a: Addr) {
    exists p :: p in ps && Contains(p, a)
  }

  /** netip's overlap test: the two prefixes agree on the bits of the shorter one. */
  predicate Overlaps(p: Prefix, q: Prefix) {
    var b := if p.bits <= q.bits then p.bits else q.bits;
    p.addr / Pow2(32 - b) == q.addr / Pow2(32 - b)
  }

  // ---------------------------------------------------------------- powers of two

  lemma {:induction false} Pow2Add(m: nat, n: nat)
    ensures Pow2(m + n) == Pow2(m) * Pow2(n)
  {
    if m > 0 {
      Pow2Add(m - 1, n);
      assert Pow2(m + n) == 2 * Pow2(m - 1 + n);
      assert 2 * (Pow2(m - 1) * Pow2(n)) == (2 * Pow2(m - 1)) * Pow2(n);
    }
  }

  lemma {:induction false} Pow2Monotone(m: nat, n: nat)
    requires m <= n
    ensures Pow2(m) <= Pow2(n)
  {
    if m < n {
      Pow2Monotone(m, n - 1);
    }
  }

  lemma Pow2Values()
    ensures Pow2(8) == 0x100 && Pow2(16) == 0x1_0000 && Pow2(24) == 0x100_0000 && Pow2(32) == 0x1_0000_0000
  {
  }

  // ---------------------------------------------------------------- prefixes

  lemma ProductNonNegative(d: int, m: int)
    requires d >= 0 && m > 0
    ensures d * m >= 0
  {
  }

  lemma Distribute(a: int, b: int, m: int)
    ensures (b - a) * m == b * m - a * m
  {
  }

  lemma ScaleMonotone(a: int, b: int, m: int)
    requires m > 0 && a <= b
    ensures a * m <= b * m
  {
  }

  lemma ScaleStrict(a: int, b: int, m: int)
    requires m > 0 && a * m < b * m
    ensures a < b
  {
  }

  lemma DivMod(x: int, m: int)
    requires m > 0
    ensures x == (x / m) * m + x % m && 0 <= x % m < m
  {
  }

  lemma QuotientUnique(x: int, m: int, k: int)
    requires m > 0 && k * m <= x < k * m + m
    ensures x / m == k
  {
    DivMod(x, m);
    var q := x / m;
    assert (k + 1) * m == k * m + m;
    assert (q + 1) * m == q * m + m;
    ScaleStrict(q, k + 1, m);
    ScaleStrict(k, q + 1, m);
  }

  lemma Regroup(x: int, k: int, q: int, m: int, t: int)
    requires m > 0 && t > 0 && q * t <= x < q * t + t && k * m <= q < k * m + m
    ensures k * (m * t) <= x < k * (m * t) + m * t
  {
    ScaleMonotone(k * m, q, t);
    ScaleMonotone(q + 1, k * m + m, t);
    assert (q + 1) * t == q * t + t;
    assert (k * m) * t == k * (m * t);
    assert (k * m + m) * t == (k * m) * t + m * t;
  }

  lemma QuotientOfQuotient(x: int, m: int, t: int)
    requires m > 0 && t > 0
    ensures m * t > 0 && x / (m * t) == (x / t) / m
  {
    ProductNonNegative(m - 1, t);
    Distribute(1, m, t);
    var q := x / t;
    var k := q / m;
    DivMod(x, t);
    DivMod(q, m);
    Regroup(x, k, q, m, t);
    QuotientUnique(x, m * t, k);
  }

  lemma MultipleBelow(x: int, m: int, n: int)
    requires m > 0 && x % m == 0 && x < n * m
    ensures x + m <= n * m
  {
    var k := x / m;
    DivMod(x, m);
    ScaleStrict(k, n, m);
    ScaleMonotone(k + 1, n, m);
    assert (k + 1) * m == k * m + m;
  }

  /** Membership is agreement on the first `bits` bits. */
  lemma ContainsIffSameTopBits(p: Prefix, a: Addr)
    ensures Contains(p, a) <==> a / Size(p) == p.addr / Size(p)
  {
    var s := Size(p);
    DivMod(p.addr, s);
    DivMod(a, s);
    if Contains(p, a) {
      QuotientUnique(a, s, p.addr / s);
    }
  }

  lemma FitsIn32Bits(p: Prefix)
    ensures p.addr + Size(p) <= 0x1_0000_0000
  {
    Pow2Values();
    Pow2Add(p.bits, 32 - p.bits);
    MultipleBelow(p.addr, Size(p), Pow2(p.bits));
  }

  lemma EverythingContains(a: Addr)
    ensures Contains(EVERYTHING, a)
  {
    Pow2Values();
  }

  /** A prefix of length zero can only be 0.0.0.0/0. */
  lemma ZeroBitsIsEverything(p: Prefix)
    requires p.bits == 0
    ensures p == EVERYTHING
  {
    Pow2Values();
  }

  /** Two prefixes that share an address are nested, the longer inside the shorter. */
  lemma Nested(p: Prefix, q: Prefix, a: Addr, x: Addr)
    requires p.bits <= q.bits && Contains(p, a) && Contains(q, a) && Contains(q, x)
    ensures Contains(p, x)
  {
    var s, t := Size(p), Size(q);
    Pow2Add(q.bits - p.bits, 32 - q.bits);
    var m := Pow2(q.bits - p.bits);
    assert s == m * t;
    ContainsIffSameTopBits(q, a);
    ContainsIffSameTopBits(q, x);
    ContainsIffSameTopBits(p, a);
    ContainsIffSameTopBits(p, x);
    QuotientOfQuotient(a, m, t);
    QuotientOfQuotient(x, m, t);
  }

  lemma OverlapsOrdered(p: Prefix, q: Prefix)
    requires p.bits <= q.bits
    ensures p.addr / Size(p) == q.addr / Size(p) <==> exists a: Addr :: Contains(p, a) && Contains(q, a)
  {
    ContainsIffSameTopBits(p, q.addr);
    assert Contains(q, q.addr);
    if a: Addr :| Contains(p, a) && Contains(q, a) {
      Nested(p, q, a, q.addr);
    }
  }

  /** The overlap test is exact: it holds precisely when some address is in both. */
  lemma OverlapsIffShared(p: Prefix, q: Prefix)
    ensures Overlaps(p, q) <==> exists a: Addr :: Contains(p, a) && Contains(q, a)
  {
    if p.bits <= q.bits {
      OverlapsOrdered(p, q);
    } else {
      OverlapsOrdered(q, p);
      assert (exists a: Addr :: Contains(p, a) && Contains(q, a)) <==> (exists a: Addr :: Contains(q, a) && Contains(p, a));
    }
  }
}
