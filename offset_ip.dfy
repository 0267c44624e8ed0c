/**
 * ComputeOffsetIP: the address at a given offset inside a subnet.
 *
 * An address is a big-endian byte string, 4 bytes for IPv4 and 16 for IPv6.
 * A subnet is its base address plus a prefix length; its host range is the
 * set of addresses whose first `prefixLen` bits equal the base's. The offset
 * is added to the base byte by byte with a propagated carry.
 */
module OffsetIP {
  import opened Wrappers

  type byte = x: int | 0 <= x < 256

  const IPv4Len: nat := 4
  const IPv6Len: nat := 16

  /** An IP network as CIDR parsing produces it: a 4- or 16-byte base and a prefix no longer than the address. */
  datatype Net = Net(ip: seq<byte>, prefixLen: nat)

  ghost predicate WellFormed(n: Net) {
    (|n.ip| == IPv4Len || |n.ip| == IPv6Len) && n.prefixLen <= 8 * |n.ip|
  }

  type IPNet = n: Net | WellFormed(n) witness Net([0, 0, 0, 0], 0)

  datatype OffsetError = NilSubnet | SubnetTooSmall | BroadcastAddress

  function Pow2(k: nat): (r: nat)
    ensures r >= 1
  {
    if k == 0 then 1 else 2 * Pow2(k - 1)
  }

  /** Value of a big-endian byte string. */
  function ToNat(s: seq<byte>): nat {
    if s == [] then 0 else ToNat(s[..|s| - 1]) * 256 + s[|s| - 1]
  }

  predicate IsIPv4(n: IPNet) {
    |n.ip| == IPv4Len
  }

  /** Number of addresses of the subnet: two to the number of host bits. */
  function HostCount(n: IPNet): (r: nat)
    ensures r >= 1
  {
    Pow2(8 * |n.ip| - n.prefixLen)
  }

  /** The address agrees with the subnet's base on the first `prefixLen` bits. */
  predicate Contains(n: IPNet, addr: seq<byte>) {
    |addr| == |n.ip| && ToNat(addr) / HostCount(n) == ToNat(n.ip) / HostCount(n)
  }

  /** Every host bit of the address is set: the last address of the subnet. */
  predicate IsBroadcast(n: IPNet, addr: seq<byte>) {
    ToNat(addr) % HostCount(n) == HostCount(n) - 1
  }

  /**
   * Adds `carry` to the big-endian address `a`: the last byte takes the sum
   * modulo 256 and the quotient is carried into the bytes before it. Returns
   * the new bytes and the carry that leaves the first byte.
   */
  function AddWithCarry(a: seq<byte>, carry: nat): (r: (seq<byte>, nat))
    ensures |r.0| == |a|
  {
    if a == [] || carry == 0 then (a, carry)
    else
      var sum := a[|a| - 1] + carry;
      var (high, out) := AddWithCarry(a[..|a| - 1], sum / 256);
      (high + [sum % 256], out)
  }

  /**
   * The base address of `subnet` plus `offset`, or an error: when there is no
   * subnet, when the sum leaves the subnet's host range, and, for IPv4, when
   * the sum is the subnet's broadcast address.
   */
  function ComputeOffsetIP(subnet: Option<IPNet>, offset: nat): (r: Result<seq<byte>, OffsetError>)
    ensures r.Ok? ==> subnet.Some? && |r.value| == |subnet.value.ip|
  {
    match subnet
    case None => Err(NilSubnet)
    case Some(n) =>
      var (addr, overflow) := AddWithCarry(n.ip, offset);
      if overflow != 0 || !Contains(n, addr) then Err(SubnetTooSmall)
      else if IsIPv4(n) && IsBroadcast(n, addr) then Err(BroadcastAddress)
      else Ok(addr)
  }

  // ---------------------------------------------------------------------------
  // Arithmetic facts
  // ---------------------------------------------------------------------------

  lemma {:induction false} Pow2Add(a: nat, b: nat)
    ensures Pow2(a + b) == Pow2(a) * Pow2(b)
  {
    if a > 0 {
      Pow2Add(a - 1, b);
      assert Pow2(a + b) == 2 * Pow2(a - 1 + b);
    }
  }

  lemma Pow2Byte(k: nat)
    ensures Pow2(8 * (k + 1)) == Pow2(8 * k) * 256
  {
    Pow2Add(8 * k, 8);
  }

  /** A byte string of length k is worth less than 2^(8k). */
  lemma {:induction false} ToNatBound(s: seq<byte>)
    ensures ToNat(s) < Pow2(8 * |s|)
  {
    if s != [] {
      var p := s[..|s| - 1];
      ToNatBound(p);
      Pow2Byte(|p|);
      assert ToNat(s) == ToNat(p) * 256 + s[|s| - 1];
      assert ToNat(p) * 256 + s[|s| - 1] < (ToNat(p) + 1) * 256;
      assert (ToNat(p) + 1) * 256 <= Pow2(8 * |p|) * 256;
    }
  }

  lemma DivModUnique(a: int, b: int, q: int, r: int)
    requires b > 0 && 0 <= r < b && a == b * q + r
    ensures a / b == q && a % b == r
  {
    var q', r' := a / b, a % b;
    assert a == b * q' + r' && 0 <= r' < b;
    assert b * (q - q') == r' - r;
    if q > q' {
      MulAtLeast(b, q - q');
      assert false;
    } else if q < q' {
      MulAtLeast(b, q' - q);
      assert false;
    }
  }

  lemma MulAtLeast(b: int, k: int)
    requires b > 0 && k >= 1
    ensures b * k >= b
  {
  }

  lemma CarryArith(high: nat, out: nat, p: nat, low: nat, last: nat, carry: nat)
    requires high + out * p == low + (last + carry) / 256
    ensures high * 256 + (last + carry) % 256 + out * (p * 256) == low * 256 + last + carry
  {
    var sum := last + carry;
    assert sum == (sum / 256) * 256 + sum % 256;
    assert out * (p * 256) == (out * p) * 256;
    assert (high + out * p) * 256 == high * 256 + (out * p) * 256;
    assert (low + sum / 256) * 256 == low * 256 + (sum / 256) * 256;
  }

  /** Carry propagation is addition: the new bytes and the carry out together are worth base plus carry. */
  lemma {:induction false} AddWithCarryValue(a: seq<byte>, carry: nat)
    ensures ToNat(AddWithCarry(a, carry).0) + AddWithCarry(a, carry).1 * Pow2(8 * |a|) == ToNat(a) + carry
  {
    if a != [] && carry != 0 {
      var p := a[..|a| - 1];
      var sum := a[|a| - 1] + carry;
      var (high, out) := AddWithCarry(p, sum / 256);
      AddWithCarryValue(p, sum / 256);
      Pow2Byte(|p|);
      var r := AddWithCarry(a, carry);
      assert r.0 == high + [sum % 256] && r.1 == out;
      assert r.0[..|r.0| - 1] == high;
      assert ToNat(r.0) == ToNat(high) * 256 + sum % 256;
      CarryArith(ToNat(high), out, Pow2(8 * |p|), ToNat(p), a[|a| - 1], carry);
      assert ToNat(a) == ToNat(p) * 256 + a[|a| - 1];
    }
  }

  lemma DivLowerBound(x: nat, h: nat, k: nat)
    requires h > 0 && x >= h * k
    ensures x / h >= k
  {
    var q, r := x / h, x % h;
    assert x == h * q + r && r < h;
    if q < k {
      assert h * q + h == h * (q + 1);
      MulMono(h, q + 1, k);
      assert false;
    }
  }

  lemma MulMono(h: nat, a: nat, b: nat)
    requires a <= b
    ensures h * a <= h * b
  {
  }

  // ---------------------------------------------------------------------------
  // What ComputeOffsetIP promises
  // ---------------------------------------------------------------------------

  /** Without a subnet there is an error and no address. */
  lemma ComputeOffsetIPNil(offset: nat)
    ensures ComputeOffsetIP(None, offset) == Err(NilSubnet)
  {
  }

  /** The block of host ranges the base falls into ends within the address width. */
  lemma BlockArith(base: nat, h: nat, p: nat)
    requires h > 0 && base < h * p
    ensures h * (base / h + 1) <= h * p
  {
    var d := base / h;
    assert base == h * d + base % h;
    if d + 1 > p {
      MulMono(h, p, d);
      assert false;
    }
    MulMono(h, d + 1, p);
  }

  lemma InRangeArith(base: nat, offset: nat, h: nat, w: nat, sum: nat, overflow: nat)
    requires h > 0 && sum < w && sum + overflow * w == base + offset
    requires base % h + offset < h && h * (base / h + 1) <= w
    ensures overflow == 0 && sum == base + offset
    ensures sum / h == base / h && sum % h == base % h + offset
  {
    var d := base / h;
    assert base == h * d + base % h;
    assert base + offset < h * d + h == h * (d + 1);
    if overflow != 0 {
      MulMono(w, 1, overflow);
      assert false;
    }
    DivModUnique(sum, h, d, base % h + offset);
  }

  lemma OutOfRangeArith(base: nat, offset: nat, h: nat)
    requires h > 0 && base % h + offset >= h
    ensures (base + offset) / h != base / h
  {
    var d := base / h;
    assert base == h * d + base % h;
    assert h * (d + 1) == h * d + h;
    DivLowerBound(base + offset, h, d + 1);
  }

  lemma BlockFits(n: IPNet)
    ensures HostCount(n) * (ToNat(n.ip) / HostCount(n) + 1) <= Pow2(8 * |n.ip|)
  {
    ToNatBound(n.ip);
    Pow2Add(8 * |n.ip| - n.prefixLen, n.prefixLen);
    BlockArith(ToNat(n.ip), HostCount(n), Pow2(n.prefixLen));
  }

  /** An offset that keeps inside the host range produces no carry out and lands in the subnet. */
  lemma OffsetInRange(n: IPNet, offset: nat)
    requires ToNat(n.ip) % HostCount(n) + offset < HostCount(n)
    ensures var (addr, overflow) := AddWithCarry(n.ip, offset);
            && overflow == 0
            && ToNat(addr) == ToNat(n.ip) + offset
            && Contains(n, addr)
            && (IsBroadcast(n, addr) <==> ToNat(n.ip) % HostCount(n) + offset == HostCount(n) - 1)
  {
    var (addr, overflow) := AddWithCarry(n.ip, offset);
    AddWithCarryValue(n.ip, offset);
    ToNatBound(addr);
    BlockFits(n);
    InRangeArith(ToNat(n.ip), offset, HostCount(n), Pow2(8 * |n.ip|), ToNat(addr), overflow);
  }

  /** An offset that passes the end of the host range either carries out or leaves the subnet. */
  lemma OffsetOutOfRange(n: IPNet, offset: nat)
    requires ToNat(n.ip) % HostCount(n) + offset >= HostCount(n)
    ensures var (addr, overflow) := AddWithCarry(n.ip, offset);
            overflow != 0 || !Contains(n, addr)
  {
    var (addr, overflow) := AddWithCarry(n.ip, offset);
    AddWithCarryValue(n.ip, offset);
    OutOfRangeArith(ToNat(n.ip), offset, HostCount(n));
  }

  /**
   * With a subnet, let h be the base's position inside its host range.
   * The call succeeds exactly when h + offset stays inside the host range
   * and, for IPv4, is not its last address; the result then has the base's
   * length and is worth base + offset. Each failure carries its own error.
   */
  lemma ComputeOffsetIPSpec(n: IPNet, offset: nat)
    ensures var r := ComputeOffsetIP(Some(n), offset);
            var h := ToNat(n.ip) % HostCount(n);
            && (r == Err(SubnetTooSmall) <==> h + offset >= HostCount(n))
            && (r == Err(BroadcastAddress) <==> h + offset == HostCount(n) - 1 && IsIPv4(n))
            && (r.Ok? <==> h + offset < HostCount(n) && !(IsIPv4(n) && h + offset == HostCount(n) - 1))
            && (r.Ok? ==> |r.value| == |n.ip| && ToNat(r.value) == ToNat(n.ip) + offset)
  {
    if ToNat(n.ip) % HostCount(n) + offset < HostCount(n) {
      OffsetInRange(n, offset);
    } else {
      OffsetOutOfRange(n, offset);
    }
  }

  /** For a subnet whose base is its network address, as CIDR parsing returns it. */
  lemma ComputeOffsetIPAligned(n: IPNet, offset: nat)
    requires ToNat(n.ip) % HostCount(n) == 0
    ensures ComputeOffsetIP(Some(n), offset).Ok? <==>
              offset < HostCount(n) - (if IsIPv4(n) then 1 else 0)
  {
    ComputeOffsetIPSpec(n, offset);
  }

  // ---------------------------------------------------------------------------
  // The documented cases
  // ---------------------------------------------------------------------------

  /** Adding to the last byte without leaving it carries nothing into the bytes before. */
  lemma AddNoCarry(a: seq<byte>, k: nat)
    requires a != [] && a[|a| - 1] + k < 256
    ensures AddWithCarry(a, k) == (a[..|a| - 1] + [a[|a| - 1] + k], 0)
  {
    var p := a[..|a| - 1];
    if k == 0 {
      assert a == p + [a[|a| - 1]];
    } else {
      var sum := a[|a| - 1] + k;
      assert sum / 256 == 0 && sum % 256 == sum;
      assert AddWithCarry(p, 0) == (p, 0);
    }
  }

  /** Appending k zero bytes multiplies the value by 2^(8k). */
  lemma {:induction false} ToNatZeros(a: seq<byte>, k: nat)
    ensures ToNat(a + seq(k, i => 0)) == ToNat(a) * Pow2(8 * k)
  {
    if k > 0 {
      var s := a + seq(k, i => 0);
      assert s[..|s| - 1] == a + seq(k - 1, i => 0);
      ToNatZeros(a, k - 1);
      Pow2Byte(k - 1);
      assert ToNat(s) == ToNat(a) * Pow2(8 * (k - 1)) * 256;
    } else {
      assert a + seq(k, i => 0) == a;
    }
  }

  /** 100.64.0.0/13 with offset 10 gives the 4-byte address 100.64.0.10. */
  lemma ExampleIPv4()
    ensures ComputeOffsetIP(Some(Net([100, 64, 0, 0], 13)), 10) == Ok([100, 64, 0, 10])
  {
    var n: IPNet := Net([100, 64, 0, 0], 13);
    Pow2Add(8, 8);
    Pow2Add(16, 3);
    assert HostCount(n) == 524288;
    assert n.ip == [100, 64] + seq(2, i => 0);
    ToNatZeros([100, 64], 2);
    assert [100, 64][..1] == [100];
    assert ToNat([100, 64]) == 25664;
    DivModUnique(ToNat(n.ip), 524288, 3208, 0);
    assert ToNat(n.ip) % HostCount(n) == 0;
    ComputeOffsetIPSpec(n, 10);
    assert ComputeOffsetIP(Some(n), 10).Ok?;
    AddNoCarry(n.ip, 10);
    assert n.ip[..3] == [100, 64, 0];
    assert AddWithCarry(n.ip, 10).0 == [100, 64, 0, 10];
  }

  /** A single leading byte followed by k zero bytes is a multiple of 2^(8k). */
  lemma LeadingByteAligned(x: byte, k: nat)
    ensures ToNat([x] + seq(k, i => 0)) % Pow2(8 * k) == 0
  {
    ToNatZeros([x], k);
    assert ToNat([x]) == x;
    DivModUnique(ToNat([x] + seq(k, i => 0)), Pow2(8 * k), x, 0);
  }

  /** The last byte of an address is its value modulo 256. */
  lemma ToNatLastByte(s: seq<byte>)
    requires s != []
    ensures ToNat(s) % 256 == s[|s| - 1]
  {
    DivModUnique(ToNat(s), 256, ToNat(s[..|s| - 1]), s[|s| - 1]);
  }

  /** fc00:: is the network address of fc00::/8. */
  lemma FC00Aligned()
    ensures ToNat([0xfc, 0, 0, 0, 0, 0, 0, 0, 0, 0, 0, 0, 0, 0, 0, 0]) % Pow2(120) == 0
  {
    var ip: seq<byte> := [0xfc, 0, 0, 0, 0, 0, 0, 0, 0, 0, 0, 0, 0, 0, 0, 0];
    assert ip == [0xfc] + seq(15, i => 0);
    LeadingByteAligned(0xfc, 15);
  }

  /** fc00::/8 with offset 10 gives the 16-byte address fc00::a. */
  lemma ExampleIPv6()
    ensures ComputeOffsetIP(Some(Net([0xfc, 0, 0, 0, 0, 0, 0, 0, 0, 0, 0, 0, 0, 0, 0, 0], 8)), 10)
         == Ok([0xfc, 0, 0, 0, 0, 0, 0, 0, 0, 0, 0, 0, 0, 0, 0, 10])
  {
    var n: IPNet := Net([0xfc, 0, 0, 0, 0, 0, 0, 0, 0, 0, 0, 0, 0, 0, 0, 0], 8);
    assert HostCount(n) == Pow2(120);
    Pow2Add(8, 112);
    FC00Aligned();
    ComputeOffsetIPSpec(n, 10);
    assert ComputeOffsetIP(Some(n), 10).Ok?;
    AddNoCarry(n.ip, 10);
    assert n.ip[..15] == [0xfc, 0, 0, 0, 0, 0, 0, 0, 0, 0, 0, 0, 0, 0, 0];
    assert AddWithCarry(n.ip, 10).0 == [0xfc, 0, 0, 0, 0, 0, 0, 0, 0, 0, 0, 0, 0, 0, 0, 10];
  }

  /** A /32 and a /128 have a single address: offset 10 does not fit. */
  lemma ExampleTooSmall()
    ensures ComputeOffsetIP(Some(Net([100, 64, 0, 0], 32)), 10) == Err(SubnetTooSmall)
    ensures ComputeOffsetIP(Some(Net([0xfc, 0, 0, 0, 0, 0, 0, 0, 0, 0, 0, 0, 0, 0, 0, 0], 128)), 10) == Err(SubnetTooSmall)
  {
    var v4: IPNet := Net([100, 64, 0, 0], 32);
    var v6: IPNet := Net([0xfc, 0, 0, 0, 0, 0, 0, 0, 0, 0, 0, 0, 0, 0, 0, 0], 128);
    assert HostCount(v4) == 1 && HostCount(v6) == 1;
    ComputeOffsetIPSpec(v4, 10);
    ComputeOffsetIPSpec(v6, 10);
  }

  /** 10.0.0.0/24 with offset 255 is that subnet's broadcast address. */
  lemma ExampleBroadcast()
    ensures ComputeOffsetIP(Some(Net([10, 0, 0, 0], 24)), 255) == Err(BroadcastAddress)
  {
    var n: IPNet := Net([10, 0, 0, 0], 24);
    assert Pow2(8) == 256;
    assert HostCount(n) == 256;
    ToNatLastByte(n.ip);
    ComputeOffsetIPSpec(n, 255);
  }
}
