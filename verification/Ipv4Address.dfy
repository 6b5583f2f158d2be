// IPv4 addresses as 32-bit numbers: classification, netmasks and directed
// broadcast (rust/easytier-core/src/gateway/udp_broadcast.rs).
module Ipv4Address {
  import opened Wrappers
  import opened Arithmetic

  const U32_MAX: nat := 0xFFFF_FFFF

  type Ipv4 = a: nat | a <= 0xFFFF_FFFF

  const BROADCAST: Ipv4 := 0xFFFF_FFFF

  predicate IsMulticast(a: Ipv4) {
    224 <= a / 0x100_0000 <= 239
  }

  predicate IsLoopback(a: Ipv4) {
    a / 0x100_0000 == 127
  }

  predicate ShouldIgnoreInterfaceAddr(a: Ipv4) {
    a == 0 || IsLoopback(a) || IsMulticast(a) || a == BROADCAST
  }

  function Pow2(n: nat): (r: nat)
    ensures r >= 1
  {
    if n == 0 then 1 else 2 * Pow2(n - 1)
  }

  lemma {:induction false} Pow2Monotone(a: nat, b: nat)
    requires a <= b
    ensures Pow2(a) <= Pow2(b)
    decreases b - a
  {
    if a < b {
      Pow2Monotone(a + 1, b);
    }
  }

  lemma {:induction false} Pow2Sum(a: nat, b: nat)
    ensures Pow2(a + b) == Pow2(a) * Pow2(b)
  {
    if a > 0 {
      Pow2Sum(a - 1, b);
    }
  }

  lemma Pow2Of32()
    ensures Pow2(32) == U32_MAX + 1
  {
    assert Pow2(8) == 256;
    Pow2Sum(8, 8);
    Pow2Sum(16, 16);
  }

  // u32::count_ones
  function CountOnes(n: nat): nat {
    if n == 0 then 0 else n % 2 + CountOnes(n / 2)
  }

  // The bitwise or of two numbers.
  function BitOr(a: nat, b: nat): nat
    decreases a + b
  {
    if a == 0 && b == 0 then 0
    else (if a % 2 == 1 || b % 2 == 1 then 1 else 0) + 2 * BitOr(a / 2, b / 2)
  }

  // u32::MAX << (32 - prefix), the mask with `prefix` leading ones.
  function MaskOf(prefix: nat): (r: Ipv4)
    requires prefix <= 32
  {
    Pow2Of32();
    Pow2Monotone(32 - prefix, 32);
    if prefix == 0 then 0 else (U32_MAX * Pow2(32 - prefix)) % (U32_MAX + 1)
  }

  lemma MaskValue(prefix: nat)
    requires prefix <= 32
    ensures Pow2(32 - prefix) <= U32_MAX + 1
    ensures MaskOf(prefix) == U32_MAX + 1 - Pow2(32 - prefix)
  {
    Pow2Of32();
    Pow2Monotone(32 - prefix, 32);
    ShiftedOnes(Pow2(32 - prefix));
  }

  lemma ShiftedOnes(p: nat)
    requires 1 <= p <= 0x1_0000_0000
    ensures (0xFFFF_FFFF * p) % 0x1_0000_0000 == 0x1_0000_0000 - p || p == 0x1_0000_0000
  {
    assert 0xFFFF_FFFF * p == 0x1_0000_0000 * (p - 1) + (0x1_0000_0000 - p);
  }

  function PrefixLenFromNetmask(mask: Ipv4): Option<nat> {
    var prefix := CountOnes(mask);
    if prefix <= 32 && mask == MaskOf(prefix) then Some(prefix) else None
  }

  lemma CountOnesDouble(n: nat)
    ensures CountOnes(2 * n) == CountOnes(n)
  {
    assert (2 * n) / 2 == n && (2 * n) % 2 == 0;
  }

  lemma {:induction false} CountOnesShift(n: nat, k: nat)
    ensures CountOnes(n * Pow2(k)) == CountOnes(n)
  {
    if k > 0 {
      CountOnesShift(n, k - 1);
      CountOnesDouble(n * Pow2(k - 1));
      DoubleProduct(n, Pow2(k - 1));
    }
  }

  lemma DoubleProduct(n: nat, p: nat)
    ensures n * (2 * p) == 2 * (n * p)
  {
  }

  lemma {:induction false} CountOnesOfOnes(k: nat)
    ensures CountOnes(Pow2(k) - 1) == k
  {
    if k > 0 {
      CountOnesOfOnes(k - 1);
      assert Pow2(k) - 1 == 2 * (Pow2(k - 1) - 1) + 1;
    }
  }

  // A netmask parses to `prefix` exactly when it is that many leading ones
  // followed by zeros.
  lemma NetmaskParsesIffContiguous(mask: Ipv4, prefix: nat)
    ensures PrefixLenFromNetmask(mask) == Some(prefix)
       <==> prefix <= 32 && mask == U32_MAX + 1 - Pow2(32 - prefix)
  {
    if prefix <= 32 {
      var k := 32 - prefix;
      MaskValue(prefix);
      Pow2Of32();
      Pow2Sum(prefix, k);
      assert U32_MAX + 1 - Pow2(k) == (Pow2(prefix) - 1) * Pow2(k);
      CountOnesShift(Pow2(prefix) - 1, k);
      CountOnesOfOnes(prefix);
    }
  }

  // addr | !mask
  function DirectedBroadcast(addr: Ipv4, prefix: nat): Option<nat> {
    if prefix > 32 then None else Some(BitOr(addr, U32_MAX - MaskOf(prefix)))
  }

  lemma {:induction false} BitOrZero(a: nat)
    ensures BitOr(a, 0) == a
  {
    if a > 0 {
      BitOrZero(a / 2);
    }
  }

  // The last number of the block of `p` consecutive numbers that `a` is in.
  function BlockEnd(a: nat, p: nat): nat
    requires p >= 1
  {
    a / p * p + p - 1
  }

  // `a` with its `k` low bits set, bit by bit.
  function LowOnes(a: nat, k: nat): nat {
    if k == 0 then a else 1 + 2 * LowOnes(a / 2, k - 1)
  }

  lemma {:induction false} BitOrLowOnes(a: nat, k: nat)
    ensures BitOr(a, Pow2(k) - 1) == LowOnes(a, k)
  {
    if k == 0 {
      BitOrZero(a);
    } else {
      BitOrLowOnes(a / 2, k - 1);
      BitOrStep(a, Pow2(k - 1));
    }
  }

  lemma {:induction false} LowOnesEndBlock(a: nat, k: nat)
    ensures LowOnes(a, k) == BlockEnd(a, Pow2(k))
  {
    if k > 0 {
      LowOnesEndBlock(a / 2, k - 1);
      DoubledBlock(a, Pow2(k - 1));
    }
  }

  lemma DoubledBlock(a: nat, p: nat)
    requires p >= 1
    ensures 1 + 2 * BlockEnd(a / 2, p) == BlockEnd(a, 2 * p)
  {
    DivTwice(a, p);
    var q := a / 2 / p;
    assert q * (2 * p) == 2 * (q * p);
  }

  lemma BitOrStep(a: nat, p: nat)
    requires p >= 1
    ensures BitOr(a, 2 * p - 1) == 1 + 2 * BitOr(a / 2, p - 1)
  {
    var ones := 2 * p - 1;
    assert ones % 2 == 1 && ones / 2 == p - 1;
  }

  lemma DivTwice(a: nat, p: nat)
    requires p >= 1
    ensures a / 2 / p == a / (2 * p)
  {
    var q, r := a / 2 / p, a / 2 % p;
    assert a / 2 == p * q + r;
    var rest := 2 * r + a % 2;
    assert a == (2 * p) * q + rest && 0 <= rest < 2 * p;
    QuotientUnique(a, 2 * p, q, rest);
  }

  lemma QuotientUnique(a: nat, d: nat, q: nat, r: nat)
    requires d >= 1 && a == d * q + r && r < d
    ensures a / d == q
  {
    var q', r' := a / d, a % d;
    assert a == d * q' + r';
    assert d * (q' + 1) == d * q' + d;
    assert d * (q + 1) == d * q + d;
    if q' < q {
      MulMonotone(d, q' + 1, q);
    } else if q < q' {
      MulMonotone(d, q + 1, q');
    }
  }

  // Two addresses are in the same subnet when they agree on the prefix bits.
  predicate SameSubnet(a: Ipv4, b: Ipv4, prefix: nat)
    requires prefix <= 32
  {
    a / Pow2(32 - prefix) == b / Pow2(32 - prefix)
  }

  // The directed broadcast is the largest address of the subnet.
  lemma DirectedBroadcastIsLargest(addr: Ipv4, prefix: nat, other: Ipv4)
    requires prefix <= 32
    ensures DirectedBroadcast(addr, prefix).Some?
    ensures DirectedBroadcast(addr, prefix).value <= U32_MAX
    ensures SameSubnet(DirectedBroadcast(addr, prefix).value, addr, prefix)
    ensures SameSubnet(other, addr, prefix) ==> other <= DirectedBroadcast(addr, prefix).value
  {
    var k := 32 - prefix;
    MaskValue(prefix);
    BitOrLowOnes(addr, k);
    LowOnesEndBlock(addr, k);
    Pow2Of32();
    Pow2Sum(prefix, k);
    LastOfBlock(addr, Pow2(k), Pow2(prefix), other);
  }

  // The last number of a block of `p` consecutive numbers out of `n` blocks.
  lemma LastOfBlock(a: nat, p: nat, n: nat, other: nat)
    requires p >= 1 && a < n * p
    ensures
      var last := BlockEnd(a, p);
      && last < n * p
      && last / p == a / p
      && (other / p == a / p ==> other <= last)
  {
    EndsOwnBlock(a, p);
    EndsLastBlock(a, p, n);
    assert other == p * (other / p) + other % p;
  }

  lemma EndsOwnBlock(a: nat, p: nat)
    requires p >= 1
    ensures BlockEnd(a, p) / p == a / p
    ensures BlockEnd(a, p) == p * (a / p) + (p - 1)
  {
    QuotientUnique(BlockEnd(a, p), p, a / p, p - 1);
  }

  lemma EndsLastBlock(a: nat, p: nat, n: nat)
    requires p >= 1 && a < n * p
    ensures BlockEnd(a, p) < n * p
  {
    var q := a / p;
    assert a == p * q + a % p;
    if q < n {
      MulMonotone(p, q + 1, n);
      assert p * (q + 1) == p * q + p;
    } else {
      MulMonotone(p, n, q);
    }
  }
}
