/** IPv6 address arithmetic on byte strings: container blocks, their hosts and the bridge gateway. */
module IPv6 {
  import opened Wrappers

  type Byte = b: int | 0 <= b < 256
  type Address = a: seq<Byte> | |a| == 16 witness seq(16, _ => 0)

  /** A 64-bit unsigned int; the verifier shows that no operation on one leaves the range. */
  newtype UInt64 = n: int | 0 <= n < 0x1_0000_0000_0000_0000

  const BLOCK_BITS: nat := 112

  // ---- big-endian values ----

  function Pow256(n: nat): (p: nat)
    ensures p > 0
  {
    if n == 0 then 1 else 256 * Pow256(n - 1)
  }

  function FromBytes(s: seq<Byte>): nat {
    if s == [] then 0 else FromBytes(s[..|s| - 1]) * 256 + s[|s| - 1]
  }

  function ToBytes(v: nat, n: nat): (s: seq<Byte>)
    ensures |s| == n
  {
    if n == 0 then [] else ToBytes(v / 256, n - 1) + [v % 256]
  }

  lemma {:induction false} BytesRoundTrip(s: seq<Byte>)
    ensures ToBytes(FromBytes(s), |s|) == s
    ensures FromBytes(s) < Pow256(|s|)
  {
    if s != [] { BytesRoundTrip(s[..|s| - 1]); }
  }

  lemma {:induction false} ValueRoundTrip(v: nat, n: nat)
    requires v < Pow256(n)
    ensures FromBytes(ToBytes(v, n)) == v
  {
    if n > 0 {
      ValueRoundTrip(v / 256, n - 1);
      assert ToBytes(v, n)[..n - 1] == ToBytes(v / 256, n - 1);
    }
  }

  lemma {:induction false} FromBytesConcat(s: seq<Byte>, t: seq<Byte>)
    ensures FromBytes(s + t) == FromBytes(s) * Pow256(|t|) + FromBytes(t)
    decreases |t|
  {
    if t == [] {
      assert s + t == s;
    } else {
      var t' := t[..|t| - 1];
      assert (s + t)[..|s + t| - 1] == s + t';
      FromBytesConcat(s, t');
      assert FromBytes(s) * Pow256(|t'|) * 256 == FromBytes(s) * Pow256(|t|);
    }
  }

  lemma {:induction false} FromBytesUpdate(s: seq<Byte>, i: nat, b: Byte)
    requires i < |s|
    ensures FromBytes(s[i := b]) == FromBytes(s) + (b - s[i]) * Pow256(|s| - 1 - i)
    decreases |s|
  {
    var n := |s| - 1;
    if i < n {
      FromBytesUpdate(s[..n], i, b);
      assert s[i := b][..n] == s[..n][i := b];
      Shuffle(b - s[i], Pow256(n - 1 - i));
    } else {
      assert s[i := b][..n] == s[..n];
    }
  }

  lemma Shuffle(c: int, p: int)
    ensures c * p * 256 == c * (256 * p)
  {
  }

  // ---- addHostOffset ----

  /** addr + k in the low 64 bits, modulo 2^64. */
  function Offset(addr: Address, k: nat): Address {
    addr[..8] + ToBytes((FromBytes(addr[8..]) + k) % Pow256(8), 8)
  }

  lemma CarryStep(x: nat, k: nat, k': nat, b: int, b': int, p: nat)
    requires k' * 256 + b' == k + b
    ensures x + k * p == x + (b' - b) * p + k' * (256 * p)
  {
    assert (k + b) * p == k * p + b * p;
    assert (k' * 256 + b') * p == k' * (256 * p) + b' * p;
    assert (b' - b) * p == b' * p - b * p;
  }

  /** The low 64 bits with a carry k still to be added above the bytes done. */
  function Pending(low: seq<Byte>, k: nat, done: nat): nat
    requires |low| == 8
  {
    FromBytes(low) + k * Pow256(done)
  }

  /** One turn of the loop on byte i of the low half: v & 0xff stays, the rest is carried on. */
  lemma LowBitsStep(low: seq<Byte>, i: nat, k: UInt64, v: UInt64, k': UInt64)
    requires |low| == 8 && i < 8
    requires v == low[i] as UInt64 + k % 0x100 && k' == k / 0x100 + if v > 0xff then 1 else 0
    ensures Pending(low, k as nat, 7 - i) == Pending(low[i := (v % 0x100) as Byte], k' as nat, 8 - i)
  {
    var b := (v % 0x100) as Byte;
    assert k' as nat * 256 + b == k as nat + low[i];
    FromBytesUpdate(low, i, b);
    CarryStep(FromBytes(low), k as nat, k' as nat, low[i], b, Pow256(7 - i));
  }

  /**
   The byte loop with its running carry leaves bytes 0..7 alone and adds k to
   the low 64 bits; neither v nor the incremented carry ever overflows.
   */
  method AddHostOffset(netAddr: Address, offset: UInt64) returns (addr: Address)
    ensures addr == Offset(netAddr, offset as nat)
  {
    var ip := new Byte[16](i requires 0 <= i < 16 => netAddr[i]);
    var i, k := 15, offset;
    ghost var total := Pending(netAddr[8..], offset as nat, 0);
    assert ip[8..] == netAddr[8..];
    while i >= 8 && k > 0
      invariant 7 <= i <= 15
      invariant ip[..8] == netAddr[..8]
      invariant total == Pending(ip[8..], k as nat, 15 - i)
    {
      ghost var was, k0 := ip[8..], k;
      var v: UInt64 := ip[i] as UInt64 + k % 0x100;
      ip[i] := (v % 0x100) as Byte;
      k := k / 0x100;
      if v > 0xff {
        k := k + 1;
      }
      LowBitsStep(was, i - 8, k0, v, k);
      assert ip[8..] == was[i - 8 := (v % 0x100) as Byte];
      i := i - 1;
    }
    addr := ip[..];
    assert addr[8..] == ip[8..] && addr[..8] == ip[..8];
    OffsetDone(netAddr, addr, offset as nat, k as nat, 15 - i);
  }

  /** With no carry left, or all eight bytes done, the address is the sum. */
  lemma OffsetDone(netAddr: Address, addr: Address, offset: nat, k: nat, done: nat)
    requires addr[..8] == netAddr[..8] && done <= 8 && (k == 0 || done == 8)
    requires Pending(netAddr[8..], offset, 0) == Pending(addr[8..], k, done)
    ensures addr == Offset(netAddr, offset)
  {
    assert offset * Pow256(0) == offset;
    BytesRoundTrip(addr[8..]);
    TotalModulo(FromBytes(addr[8..]), k, done, FromBytes(netAddr[8..]) + offset);
    assert addr == addr[..8] + addr[8..];
  }

  lemma TotalModulo(low: nat, k: nat, done: nat, total: nat)
    requires low < Pow256(8) && total == low + k * Pow256(done) && (k == 0 || done == 8)
    ensures total % Pow256(8) == low
  {
    if k > 0 {
      assert (low + k * Pow256(8)) / Pow256(8) == k by { DivideSum(low, k, Pow256(8)); }
    } else {
      assert k * Pow256(done) == 0;
    }
  }

  lemma DivideSum(r: nat, q: nat, d: nat)
    requires r < d
    ensures (r + q * d) / d == q && (r + q * d) % d == r
  {
    var x := r + q * d;
    var e := x / d - q;
    assert x == d * (x / d) + x % d;
    assert e * d == d * (x / d) - q * d;
    assert 0 - d < e * d < d;
    MultipleGrows(e, d);
  }

  lemma MultipleGrows(e: int, d: int)
    requires d > 0
    ensures e >= 1 ==> e * d >= d
    ensures e <= -1 ==> e * d <= -d
  {
    if e >= 1 { assert (e - 1) * d >= 0; }
    if e <= -1 { assert (-e - 1) * d >= 0; }
  }

  /** Setting the last 16 bits of eight bytes that end in zeros adds their value. */
  lemma SetLow16(low: seq<Byte>, k: nat)
    requires |low| == 8 && low[6..] == [0, 0] && k < 0x1_0000
    ensures FromBytes(low[..6] + ToBytes(k, 2)) == FromBytes(low) + k
  {
    var high, zero := low[..6], low[6..];
    assert low == high + zero;
    assert Pow256(2) == 0x1_0000 && FromBytes([0]) == 0 && zero[..1] == [0];
    assert FromBytes(zero) == 0;
    ValueRoundTrip(k, 2);
    FromBytesConcat(high, zero);
    FromBytesConcat(high, ToBytes(k, 2));
  }

  /** An offset below 2^16 from an address whose last 16 bits are zero only sets those bits. */
  lemma SmallOffset(addr: Address, k: nat)
    requires addr[14] == addr[15] == 0 && k < 0x1_0000
    ensures Offset(addr, k) == addr[..14] + ToBytes(k, 2)
    ensures k > 0 ==> Offset(addr, k) != addr
  {
    var low, tail := addr[8..], ToBytes(k, 2);
    assert low[6..] == [0, 0];
    SetLow16(low, k);
    BytesRoundTrip(low[..6] + tail);
    SmallModulo(FromBytes(low[..6] + tail), Pow256(8));
    assert Offset(addr, k) == addr[..8] + (low[..6] + tail);
    assert addr[..8] + (low[..6] + tail) == addr[..14] + tail;
    assert Offset(addr, k)[8..] == low[..6] + tail;
    assert FromBytes(Offset(addr, k)[8..]) == FromBytes(low) + k;
  }

  lemma SmallModulo(v: nat, m: nat)
    requires v < m
    ensures v % m == v
  {
    DivideSum(v, 0, m);
  }

  // ---- prefixes (RFC 4291 section 2.3) ----

  /** x shifted right by n bits. */
  function Shift(x: nat, n: nat): nat {
    if n == 0 then x else Shift(x, n - 1) / 2
  }

  /** Bit j of an address, bit 0 the most significant. */
  function Bit(a: Address, j: nat): int
    requires j < 128
  {
    Shift(a[j / 8], 7 - j % 8) % 2
  }

  /** addr lies in net/ones: their leading ones bits agree. */
  predicate InNetwork(addr: Address, net: Address, ones: nat)
    requires ones <= 128
  {
    forall j :: 0 <= j < ones ==> Bit(addr, j) == Bit(net, j)
  }

  lemma {:induction false} ShiftFromBits(x: Byte, y: Byte, n: nat)
    requires n <= 8 && forall d :: 0 <= d < 8 ==> Shift(x, d) % 2 == Shift(y, d) % 2
    ensures Shift(x, n) == Shift(y, n)
    decreases 8 - n
  {
    if n == 8 {
      ShiftedOut(x);
      ShiftedOut(y);
    } else {
      ShiftFromBits(x, y, n + 1);
      assert Shift(x, n) % 2 == Shift(y, n) % 2;
    }
  }

  lemma ShiftedOut(x: Byte)
    ensures Shift(x, 8) == 0
  {
    assert Shift(x, 1) < 128;
    assert Shift(x, 2) < 64;
    assert Shift(x, 3) < 32;
    assert Shift(x, 4) < 16;
    assert Shift(x, 5) < 8;
    assert Shift(x, 6) < 4;
    assert Shift(x, 7) < 2;
  }

  lemma ByteFromBits(a: Address, b: Address, i: nat)
    requires i < 16 && forall j :: 8 * i <= j < 8 * i + 8 ==> Bit(a, j) == Bit(b, j)
    ensures a[i] == b[i]
  {
    forall d | 0 <= d < 8 ensures Shift(a[i], d) % 2 == Shift(b[i], d) % 2 {
      var j := 8 * i + 7 - d;
      assert j / 8 == i && 7 - j % 8 == d;
      assert Bit(a, j) == Bit(b, j);
    }
    ShiftFromBits(a[i], b[i], 0);
  }

  /** On a whole number of bytes, prefix membership is equality of those bytes. */
  lemma WholeBytes(a: Address, b: Address, n: nat)
    requires n <= 16
    ensures InNetwork(a, b, 8 * n) <==> a[..n] == b[..n]
  {
    if a[..n] == b[..n] {
      forall j: nat | j < 8 * n ensures Bit(a, j) == Bit(b, j) {
        assert a[j / 8] == a[..n][j / 8] == b[..n][j / 8];
      }
    } else if InNetwork(a, b, 8 * n) {
      var i :| 0 <= i < n && a[i] != b[i];
      ByteFromBits(a, b, i);
    }
  }

  /** A configured prefix: at most 80 bits long, host bits cleared. */
  datatype Prefix = Prefix(net: Address, ones: nat)
  {
    ghost predicate Valid() {
      && ones <= 80
      && forall j: nat :: ones <= j < 128 ==> Bit(net, j) == 0
    }
  }

  lemma HostBytesZero(p: Prefix)
    requires p.Valid()
    ensures forall i :: 10 <= i < 16 ==> p.net[i] == 0
  {
    var zero: Address := seq(16, _ => 0);
    forall j: nat | j < 128 ensures Bit(zero, j) == 0 {
      ZeroShift(7 - j % 8);
    }
    forall i: nat | 10 <= i < 16 ensures p.net[i] == 0 {
      ByteFromBits(p.net, zero, i);
    }
  }

  lemma ZeroShift(n: nat)
    ensures Shift(0, n) == 0
  {
  }

  // ---- container blocks ----

  /** The first four bytes of the name's digest. */
  type Hash = h: seq<Byte> | |h| == 4 witness [0, 0, 0, 0]

  const ZERO_HASH: Hash := [0, 0, 0, 0]

  function Block(p: Prefix, h: Hash): Address {
    p.net[..10] + h + p.net[14..]
  }

  function BridgePrefixLen(ones: nat): nat { if ones < 64 then 64 else ones }

  function PrimaryAddress(p: Prefix, h: Hash): Address { Offset(Block(p, h), 1) }

  /** The block is the prefix with the hash in bits 80 to 111, and the primary address its host 1. */
  lemma BlockLayout(p: Prefix, h: Hash)
    requires p.Valid()
    ensures Block(p, h) == p.net[..10] + h + [0, 0]
    ensures PrimaryAddress(p, h) == p.net[..10] + h + [0, 1]
  {
    HostBytesZero(p);
    BlockTail(p, h);
    SmallOffset(Block(p, h), 1);
    assert p.net[14..] == [0, 0];
    assert Pow256(2) == 0x1_0000 && Pow256(1) == 0x100;
    assert ToBytes(1, 1) == [1];
    assert ToBytes(1, 2) == [0, 1];
    assert Block(p, h)[..14] == p.net[..10] + h;
  }

  /** Every address of a container's block is inside the prefix and inside the bridge's clamped network. */
  lemma BlockInsidePrefix(p: Prefix, h: Hash, addr: Address)
    requires p.Valid() && InNetwork(addr, Block(p, h), BLOCK_BITS)
    ensures InNetwork(addr, p.net, p.ones) && InNetwork(addr, p.net, BridgePrefixLen(p.ones))
    ensures BridgePrefixLen(p.ones) >= 64 && BridgePrefixLen(p.ones) >= p.ones
    ensures BridgePrefixLen(p.ones) in {64, p.ones}
  {
    WholeBytes(addr, Block(p, h), 14);
    assert addr[..10] == addr[..14][..10] == Block(p, h)[..14][..10] == p.net[..10];
    WholeBytes(addr, p.net, 10);
  }

  /** Two blocks that share an address are one block, and that takes equal hashes. */
  lemma BlocksEqualOrDisjoint(p: Prefix, h: Hash, h': Hash)
    ensures Block(p, h) == Block(p, h') <==> h == h'
    ensures h != h' ==>
              !exists a: Address :: InNetwork(a, Block(p, h), BLOCK_BITS) && InNetwork(a, Block(p, h'), BLOCK_BITS)
  {
    assert Block(p, h)[10..14] == h && Block(p, h')[10..14] == h';
    forall a: Address | InNetwork(a, Block(p, h), BLOCK_BITS) && InNetwork(a, Block(p, h'), BLOCK_BITS)
        ensures h == h' {
      WholeBytes(a, Block(p, h), 14);
      WholeBytes(a, Block(p, h'), 14);
      assert h == a[..14][10..] == h';
    }
  }

  lemma BlockTail(p: Prefix, h: Hash)
    requires p.Valid()
    ensures Block(p, h)[14] == Block(p, h)[15] == 0
  {
    HostBytesZero(p);
  }

  /** A container's primary address lies in its own block and in no other. */
  lemma PrimaryInOwnBlockOnly(p: Prefix, h: Hash, h': Hash)
    requires p.Valid()
    ensures InNetwork(PrimaryAddress(p, h), Block(p, h'), BLOCK_BITS) <==> h == h'
  {
    BlockTail(p, h);
    SmallOffset(Block(p, h), 1);
    WholeBytes(PrimaryAddress(p, h), Block(p, h'), 14);
    assert PrimaryAddress(p, h)[..14] == Block(p, h)[..14] == p.net[..10] + h;
    assert Block(p, h')[..14] == p.net[..10] + h';
    assert (p.net[..10] + h)[10..] == h && (p.net[..10] + h')[10..] == h';
  }

  /** A gateway candidate net+k lies in a container's block exactly when the block's hash is zero. */
  lemma GatewayInBlock(p: Prefix, h: Hash, k: nat)
    requires p.Valid() && k < 0x1_0000
    ensures InNetwork(Offset(p.net, k), Block(p, h), BLOCK_BITS) <==> h == ZERO_HASH
    ensures InNetwork(Offset(p.net, k), p.net, p.ones)
  {
    HostBytesZero(p);
    SmallOffset(p.net, k);
    var gw := Offset(p.net, k);
    WholeBytes(gw, Block(p, h), 14);
    assert gw[..14] == p.net[..14] == p.net[..10] + ZERO_HASH;
    assert Block(p, h)[..14] == p.net[..10] + h;
    assert (p.net[..10] + h)[10..] == h && (p.net[..10] + ZERO_HASH)[10..] == ZERO_HASH;
    WholeBytes(gw, p.net, 10);
    assert gw[..10] == gw[..14][..10] == p.net[..10];
  }

  /**
   The first free address net+1, net+2, ...; None when all 65535 candidates are
   taken or the host's own addresses cannot be listed.
   */
  method BridgeGateway(p: Prefix, inUse: Option<set<Address>>) returns (gw: Option<Address>)
    ensures gw == LeastFree(p, inUse)
  {
    if inUse.None? {
      return None;
    }
    var k: UInt64 := 1;
    while k < 0x1_0000
      invariant 1 <= k <= 0x1_0000
      invariant forall j :: 1 <= j < k as nat ==> Offset(p.net, j) in inUse.value
    {
      var ip := AddHostOffset(p.net, k);
      if ip !in inUse.value {
        LeastFreeIs(p, inUse.value, k as nat);
        return Some(ip);
      }
      k := k + 1;
    }
    return None;
  }

  ghost predicate FirstFree(p: Prefix, inUse: set<Address>, k: nat) {
    1 <= k < 0x1_0000 && Offset(p.net, k) !in inUse && forall j :: 1 <= j < k ==> Offset(p.net, j) in inUse
  }

  ghost function LeastFree(p: Prefix, inUse: Option<set<Address>>): Option<Address> {
    if inUse.Some? && exists k: nat :: FirstFree(p, inUse.value, k) then
      var k: nat :| FirstFree(p, inUse.value, k);
      Some(Offset(p.net, k))
    else None
  }

  lemma LeastFreeIs(p: Prefix, inUse: set<Address>, k: nat)
    requires FirstFree(p, inUse, k)
    ensures LeastFree(p, Some(inUse)) == Some(Offset(p.net, k))
  {
    forall m: nat | FirstFree(p, inUse, m) ensures m == k {
    }
  }

  /**
   The gateway the bridge gets is in the prefix, is free, and falls into a block
   only if that block's hash is zero.
   */
  lemma GatewaySafe(p: Prefix, inUse: Option<set<Address>>, h: Hash)
    requires p.Valid() && LeastFree(p, inUse).Some?
    ensures var gw := LeastFree(p, inUse).value;
            gw !in inUse.value && InNetwork(gw, p.net, p.ones)
                && (InNetwork(gw, Block(p, h), BLOCK_BITS) <==> h == ZERO_HASH)
  {
    var k: nat :| FirstFree(p, inUse.value, k);
    LeastFreeIs(p, inUse.value, k);
    GatewayInBlock(p, h, k);
  }
}
