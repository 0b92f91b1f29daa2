/** The address allocator (internal/store/alloc.go): the broadcast computation on bytes,
    the scan for the lowest free host address, and how many addresses a pool can serve. */
module Alloc {
  import opened Basics
  import opened Net

  // ---------------------------------------------------------------- the broadcast address

  type Byte = b: int | 0 <= b < 0x100

  /** The big-endian value of four bytes. */
  function Value(b: seq<Byte>): int
    requires |b| == 4
  {
    (b[0] as int) * 0x100_0000 + (b[1] as int) * 0x1_0000 + (b[2] as int) * 0x100 + (b[3] as int)
  }

  function As4(a: Addr): (b: seq<Byte>)
    ensures |b| == 4 && Value(b) == a
  {
    var top, low := a / 0x1_0000, a % 0x1_0000;
    [top / 0x100, top % 0x100, low / 0x100, low % 0x100]
  }

  predicate BitSet(x: int, k: nat) {
    x / Pow2(k) % 2 == 1
  }

  lemma EvenQuotientLeavesRoom(x: int, m: int, n: int)
    requires m > 0 && x < 2 * n * m && x / m % 2 == 0
    ensures x + m < 2 * n * m
  {
    var q := x / m;
    DivMod(x, m);
    ScaleStrict(q, 2 * n, m);
    ScaleMonotone(q + 2, 2 * n, m);
    assert (q + 2) * m == q * m + 2 * m;
  }

  lemma ClearBitLeavesRoom(x: Byte, k: nat)
    requires k < 8 && !BitSet(x, k)
    ensures x + Pow2(k) < 0x100
  {
    Pow2Values();
    Pow2Add(8 - k, k);
    EvenQuotientLeavesRoom(x, Pow2(k), Pow2(7 - k));
  }

  /** Setting one bit with an OR. */
  function OrBit(x: Byte, k: nat): Byte
    requires k < 8
  {
    if BitSet(x, k) then x
    else
      ClearBitLeavesRoom(x, k);
      x as int + Pow2(k)
  }

  lemma EvenPlus(a: int, y: int)
    ensures (2 * a + y) % 2 == y % 2
  {
  }

  /** Dividing away the low digits and then by half the base's factor keeps the parity. */
  lemma ParityOfDigit(v: int, h: int, x: int, l: int, t: int, p: int, n: int)
    requires t > 0 && p > 0 && 0 <= l < t && v == (h * (2 * n * p) + x) * t + l
    ensures p * t > 0 && v / (p * t) % 2 == x / p % 2
  {
    QuotientUnique(v, t, h * (2 * n * p) + x);
    QuotientOfQuotient(v, p, t);
    var y := x / p;
    DivMod(x, p);
    assert (h * (2 * n) + y) * p == h * (2 * n * p) + y * p;
    QuotientUnique(h * (2 * n * p) + x, p, h * (2 * n) + y);
    assert h * (2 * n) + y == 2 * (h * n) + y;
    EvenPlus(h * n, y);
  }

  /** Bit `8m + k` of the number is bit `k` of its byte `m` counted from the low end. */
  lemma BitOfByte(v: int, h: nat, x: Byte, l: nat, m: nat, k: nat)
    requires k < 8 && l < Pow2(8 * m) && v == (h * 0x100 + x as int) * Pow2(8 * m) + l
    ensures BitSet(v, 8 * m + k) <==> BitSet(x, k)
  {
    Pow2Values();
    Pow2Add(k, 8 * m);
    Pow2Add(8 - k, k);
    ParityOfDigit(v, h, x, l, Pow2(8 * m), Pow2(k), Pow2(7 - k));
  }

  /** Splits the number at byte `m`: the bytes above it, the byte, the bytes below it. */
  lemma SplitAtByte(b: seq<Byte>, m: nat, y: Byte) returns (h: nat, l: nat)
    requires |b| == 4 && m < 4
    ensures l < Pow2(8 * m)
    ensures Value(b) == (h * 0x100 + b[3 - m] as int) * Pow2(8 * m) + l
    ensures Value(b[3 - m := y]) == Value(b) + (y as int - b[3 - m] as int) * Pow2(8 * m)
  {
    Pow2Values();
    var b0: int, b1: int, b2: int, b3: int := b[0], b[1], b[2], b[3];
    if m == 0 {
      h, l := b0 * 0x1_0000 + b1 * 0x100 + b2, 0;
    } else if m == 1 {
      h, l := b0 * 0x100 + b1, b3;
    } else if m == 2 {
      h, l := b0, b2 * 0x100 + b3;
    } else {
      h, l := 0, b1 * 0x1_0000 + b2 * 0x100 + b3;
    }
  }

  lemma UpdateByte(b: seq<Byte>, m: nat, k: nat)
    requires |b| == 4 && m < 4 && k < 8 && !BitSet(b[3 - m], k)
    ensures Value(b[3 - m := OrBit(b[3 - m], k)]) == Value(b) + Pow2(8 * m + k)
  {
    var d := OrBit(b[3 - m], k) as int - b[3 - m] as int;
    assert d == Pow2(k);
    var _, _ := SplitAtByte(b, m, OrBit(b[3 - m], k));
    Pow2Add(k, 8 * m);
  }

  lemma BitOfValue(b: seq<Byte>, m: nat, k: nat)
    requires |b| == 4 && m < 4 && k < 8
    ensures BitSet(Value(b), 8 * m + k) <==> BitSet(b[3 - m], k)
  {
    var h, l := SplitAtByte(b, m, b[3 - m]);
    BitOfByte(Value(b), h, b[3 - m], l, m, k);
  }

  lemma BelowMultipleIsEven(net: int, p: int, r: int)
    requires p > 0 && r > 0 && r * (2 * p) > 0 && net % (r * (2 * p)) == 0
    ensures (net + p - 1) / p % 2 == 0
  {
    var n := net / (r * (2 * p));
    DivMod(net, r * (2 * p));
    assert n * (r * (2 * p)) == 2 * (n * r) * p;
    QuotientUnique(net + p - 1, p, 2 * (n * r));
    EvenPlus(n * r, 0);
  }

  /** Below the host bits of a masked network every bit is clear, whatever lower bits
      were already filled in. */
  lemma HostBitClear(net: nat, hostBits: nat, i: nat)
    requires i < hostBits && net % Pow2(hostBits) == 0
    ensures !BitSet(net + Pow2(i) - 1, i)
  {
    Pow2Add(hostBits - 1 - i, i + 1);
    BelowMultipleIsEven(net, Pow2(i), Pow2(hostBits - 1 - i));
  }

  /** One round of the fill loop. */
  lemma FillStep(b: seq<Byte>, net: nat, hostBits: nat, i: nat)
    requires |b| == 4 && i < hostBits <= 32 && net % Pow2(hostBits) == 0 && Value(b) == net + Pow2(i) - 1
    ensures Value(b[3 - i / 8 := OrBit(b[3 - i / 8], i % 8)]) == net + Pow2(i + 1) - 1
  {
    HostBitClear(net, hostBits, i);
    BitOfValue(b, i / 8, i % 8);
    UpdateByte(b, i / 8, i % 8);
  }

  function Broadcast(p: Prefix): (a: Addr) {
    FitsIn32Bits(p);
    p.addr + Size(p) - 1
  }

  /** The byte-wise OR loop computes network + 2^(32 - bits) - 1. */
  method LastAddr(p: Prefix) returns (a: Addr)
    ensures a == Broadcast(p)
    ensures Contains(p, a) && forall x: Addr :: Contains(p, x) ==> x <= a
  {
    var start := As4(p.addr);
    var bytes := new Byte[4](i requires 0 <= i < 4 => start[i]);
    assert bytes[..] == start;
    var hostBits := 32 - p.bits;
    for i := 0 to hostBits
      invariant Value(bytes[..]) == p.addr + Pow2(i) - 1
    {
      FillStep(bytes[..], p.addr, hostBits, i);
      var byteIdx := 3 - i / 8;
      ghost var was := bytes[..];
      bytes[byteIdx] := OrBit(bytes[byteIdx], i % 8);
      assert bytes[..] == was[byteIdx := OrBit(was[byteIdx], i % 8)];
    }
    FitsIn32Bits(p);
    a := Value(bytes[..]);
  }

  // ---------------------------------------------------------------- the scan

  /** Addresses the allocator may hand out, before looking at what is taken. */
  predicate IsHost(pool: Prefix, a: Addr) {
    pool.addr < a < Broadcast(pool)
  }

  function FirstFree(pool: Prefix, used: set<Addr>, a: nat): Option<Addr>
    decreases 0x1_0000_0000 - a
  {
    if a >= 0x1_0000_0000 || !Contains(pool, a) then None
    else if a == Broadcast(pool) || a in used then FirstFree(pool, used, a + 1)
    else Some(a)
  }

  function Allocate(pool: Prefix, used: set<Addr>): Option<Addr> {
    FirstFree(pool, used, pool.addr + 1)
  }

  lemma {:induction false} FirstFreeIsLeast(pool: Prefix, used: set<Addr>, a: nat)
    requires pool.addr < a
    ensures var r := FirstFree(pool, used, a);
      if r.Some? then
        IsHost(pool, r.value) && r.value !in used && a <= r.value
        && forall x: Addr :: IsHost(pool, x) && a <= x < r.value ==> x in used
      else forall x: Addr :: IsHost(pool, x) && a <= x ==> x in used
    decreases 0x1_0000_0000 - a
  {
    if a < 0x1_0000_0000 && Contains(pool, a) {
      FirstFreeIsLeast(pool, used, a + 1);
    }
  }

  /** The allocator returns the lowest free host address, and fails exactly when every
      host address is taken. */
  lemma AllocateIsLeast(pool: Prefix, used: set<Addr>)
    ensures var r := Allocate(pool, used);
      if r.Some? then
        IsHost(pool, r.value) && r.value !in used && forall x: Addr :: IsHost(pool, x) && x < r.value ==> x in used
      else forall x: Addr :: IsHost(pool, x) ==> x in used
  {
    FirstFreeIsLeast(pool, used, pool.addr + 1);
  }

  /** The successor of an address; 255.255.255.255 has none. */
  function Next(a: Addr): Option<Addr> {
    if a == 0xFFFF_FFFF then None else Some(a + 1)
  }

  method ScanPool(pool: Prefix, used: set<Addr>) returns (r: Option<Addr>)
    ensures r == Allocate(pool, used)
    ensures r.Some? ==> IsHost(pool, r.value) && r.value !in used
    ensures r.Some? ==> forall x: Addr :: IsHost(pool, x) && x < r.value ==> x in used
    ensures r.None? <==> forall x: Addr :: IsHost(pool, x) ==> x in used
  {
    AllocateIsLeast(pool, used);
    var network := pool.addr;
    var broadcast := LastAddr(pool);
    var a := Next(network);
    while a.Some? && Contains(pool, a.value)
      invariant Allocate(pool, used) == if a.Some? then FirstFree(pool, used, a.value) else None
      decreases if a.Some? then 0x1_0000_0000 - a.value else 0
    {
      if a.value == broadcast || a.value in used {
        a := Next(a.value);
        continue;
      }
      return a;
    }
    return None;
  }

  // ---------------------------------------------------------------- capacity

  predicate StrictlyBetween(lo: Addr, a: Addr, hi: Addr) {
    lo < a < hi
  }

  function Between(lo: Addr, hi: Addr): set<Addr> {
    set a: Addr | 0 <= a < 0x1_0000_0000 && StrictlyBetween(lo, a, hi)
  }

  function Hosts(pool: Prefix): (s: set<Addr>)
    ensures forall a: Addr :: a in s <==> IsHost(pool, a)
  {
    Between(pool.addr, Broadcast(pool))
  }

  /** The addresses taken after `n` allocations in a row, or None if one of them failed. */
  function Serve(pool: Prefix, used: set<Addr>, n: nat): Option<set<Addr>>
    decreases n
  {
    if n == 0 then Some(used)
    else
      var r := Allocate(pool, used);
      if r.None? then None else Serve(pool, used + {r.value}, n - 1)
  }

  lemma {:induction false} ServesWhatIsFree(pool: Prefix, used: set<Addr>, n: nat)
    ensures Serve(pool, used, n).Some? <==> n <= |Hosts(pool) - used|
    decreases n
  {
    if n > 0 {
      AllocateIsLeast(pool, used);
      var r := Allocate(pool, used);
      if r.Some? {
        ServesWhatIsFree(pool, used + {r.value}, n - 1);
        assert Hosts(pool) - (used + {r.value}) == (Hosts(pool) - used) - {r.value};
      } else {
        assert Hosts(pool) - used == {};
      }
    }
  }

  lemma {:induction false} RangeSize(lo: Addr, hi: Addr)
    requires lo < hi
    ensures |Between(lo, hi)| == hi - lo - 1
    decreases hi - lo
  {
    if lo + 1 < hi {
      RangeSize(lo, hi - 1);
      assert Between(lo, hi) == Between(lo, hi - 1) + {hi - 1 as Addr};
    } else {
      assert Between(lo, hi) == {};
    }
  }

  /** With the hub on a host address and nothing deleted, a pool of length at most 30
      serves 2^(32 - bits) - 3 allocations and then fails. */
  lemma PoolCapacity(pool: Prefix, hub: Addr, n: nat)
    requires pool.bits <= 30 && IsHost(pool, hub)
    ensures Serve(pool, {hub}, n).Some? <==> n <= Pow2(32 - pool.bits) - 3
  {
    ServesWhatIsFree(pool, {hub}, n);
    Pow2Add(30 - pool.bits, 2);
    assert Pow2(2) == 4;
    RangeSize(pool.addr, Broadcast(pool));
    assert |Hosts(pool) - {hub}| == |Hosts(pool)| - 1;
  }

  /** Pools of length 31 and 32 have no host address at all. */
  lemma TinyPoolsServeNothing(pool: Prefix, used: set<Addr>)
    requires pool.bits >= 31
    ensures Allocate(pool, used) == None
  {
  }
}
