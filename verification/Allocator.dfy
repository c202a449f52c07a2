/** Address arithmetic over bytes and the least-free search
    (internal/repo/ip_alloc.go, internal/config/subnet.go). */
module Allocator {
  import opened Bytes

  const SPACE: int := 0x1_0000_0000

  function Pow2(n: nat): nat {
    if n == 0 then 1 else 2 * Pow2(n - 1)
  }

  /** A parsed CIDR: the address as written and the prefix length. */
  datatype Subnet = Subnet(addr: Addr, bits: nat)

  predicate Proper(s: Subnet) {
    s.bits <= 32
  }

  /** The number of addresses in the subnet. */
  function Size(s: Subnet): (n: nat)
    requires Proper(s)
    ensures n >= 1
  {
    PowPositive(32 - s.bits);
    Pow2(32 - s.bits)
  }

  lemma {:induction false} PowPositive(n: nat)
    ensures Pow2(n) >= 1
  {
    if n > 0 {
      PowPositive(n - 1);
    }
  }

  lemma {:induction false} PowAdd(m: nat, n: nat)
    ensures Pow2(m) * Pow2(n) == Pow2(m + n)
  {
    if m > 0 {
      PowAdd(m - 1, n);
      assert Pow2(m) * Pow2(n) == 2 * (Pow2(m - 1) * Pow2(n));
    }
  }

  /** The masked network address. */
  function Network(s: Subnet): (a: int)
    requires Proper(s)
  {
    s.addr / Size(s) * Size(s)
  }

  predicate Contains(s: Subnet, a: int)
    requires Proper(s)
  {
    a / Size(s) == s.addr / Size(s)
  }

  lemma PowSpace()
    ensures Pow2(32) == SPACE
  {
    assert Pow2(8) == 256;
    PowAdd(8, 8);
    PowAdd(16, 16);
  }

  lemma MulMono(a: int, b: int, n: int)
    requires n >= 0 && a <= b
    ensures a * n <= b * n
  {
  }

  lemma DivUnique(x: int, n: int, q: int)
    requires n > 0 && q * n <= x < (q + 1) * n
    ensures x / n == q
  {
    var d := x / n;
    assert d * n <= x < (d + 1) * n;
    if d < q {
      MulMono(d + 1, q, n);
    } else if d > q {
      MulMono(q + 1, d, n);
    }
  }

  lemma BlockFits(q: int, n: int, blocks: int, i: int)
    requires n > 0 && 0 <= q < blocks && 0 <= i < n
    ensures 0 <= q * n + i < blocks * n && (q * n + i) / n == q
  {
    MulMono(0, q, n);
    MulMono(q + 1, blocks, n);
    assert (q + 1) * n == q * n + n;
    DivUnique(q * n + i, n, q);
  }

  lemma BlockOf(addr: int, n: int, blocks: int)
    requires n > 0 && 0 <= addr < blocks * n
    ensures 0 <= addr / n < blocks
  {
  }

  /** Every offset below the size stays inside the subnet and inside 32 bits:
      the boundary test of the search never fires. */
  lemma OffsetsStayInside(s: Subnet, i: int)
    requires Proper(s) && 0 <= i < Size(s)
    ensures 0 <= Network(s) + i < SPACE && Contains(s, Network(s) + i)
  {
    var n, blocks := Size(s), Pow2(s.bits);
    assert blocks * n == SPACE by {
      PowSpace();
      PowAdd(s.bits, 32 - s.bits);
    }
    BlockOf(s.addr, n, blocks);
    BlockFits(s.addr / n, n, blocks, i);
  }

  /** The subnet has 2^(32 - bits) addresses. */
  lemma SizeIs(s: Subnet)
    requires Proper(s)
    ensures Pow2(s.bits) * Size(s) == 0x1_0000_0000
  {
    PowSpace();
    PowAdd(s.bits, 32 - s.bits);
  }

  /** They form the aligned block around the written address. */
  lemma SubnetIsBlock(s: Subnet)
    requires Proper(s)
    ensures Network(s) % Size(s) == 0 && Network(s) <= s.addr < Network(s) + Size(s)
  {
    BlockAround(s.addr, Size(s));
  }

  lemma BlockAround(a: int, n: int)
    requires n > 0
    ensures a / n * n % n == 0 && a / n * n <= a < a / n * n + n
  {
    Aligned(a / n, n);
    InBlock(a, a / n, n);
  }

  /** An address is in the subnet exactly if it lies in that block. */
  lemma ContainsIff(s: Subnet, a: int)
    requires Proper(s)
    ensures Contains(s, a) <==> Network(s) <= a < Network(s) + Size(s)
  {
    var n := Size(s);
    InBlock(a, s.addr / n, n);
  }

  lemma Aligned(q: int, n: int)
    requires n > 0
    ensures q * n % n == 0
  {
    DivUnique(q * n, n, q);
  }

  lemma InBlock(a: int, q: int, n: int)
    requires n > 0
    ensures a / n == q <==> q * n <= a < q * n + n
  {
    assert (q + 1) * n == q * n + n;
    if q * n <= a < q * n + n {
      DivUnique(a, n, q);
    }
  }

  // ---------- Byte arithmetic ----------

  /** The weight of byte j of a four-byte address; the carry out of byte 0 weighs 2^32. */
  function Weight(j: int): int
    requires -1 <= j <= 3
  {
    if j == 3 then 1 else if j == 2 then 0x100 else if j == 1 then 0x1_0000 else if j == 0 then 0x100_0000 else SPACE
  }

  /** The carry loop: adds n to the big-endian bytes, modulo 2^32. */
  method AddCarry(candidate: array<byte>, n: nat)
    requires candidate.Length == 4
    modifies candidate
    ensures GetAddr(candidate[..], 0) == (GetAddr(old(candidate[..]), 0) + n) % SPACE
  {
    var carry := n;
    var j := 3;
    ghost var start := GetAddr(candidate[..], 0) as int;
    while j >= 0 && carry > 0
      invariant -1 <= j <= 3 && carry >= 0
      invariant GetAddr(candidate[..], 0) as int + carry * Weight(j) == start + n
    {
      var sum := candidate[j] as int + carry;
      CarryStep(candidate[..], j, carry);
      candidate[j] := sum % 0x100;
      carry := sum / 0x100;
      j := j - 1;
    }
    Remainder(start + n, GetAddr(candidate[..], 0), if j == -1 then carry else 0);
  }

  lemma Remainder(x: int, v: int, c: int)
    requires x == v + c * SPACE && 0 <= v < SPACE
    ensures x % SPACE == v
  {
  }

  lemma PutByte(b: seq<byte>, j: nat, v: byte, r: seq<byte>)
    requires |b| == 4 && j < 4 && r == b[j := v]
    ensures GetAddr(r, 0) as int == GetAddr(b, 0) as int + (v as int - b[j] as int) * Weight(j)
  {
  }

  /** Adding into one byte and carrying the rest to the next keeps the total. */
  lemma CarryStep(b: seq<byte>, j: nat, carry: nat)
    requires |b| == 4 && j < 4
    ensures var sum := b[j] as int + carry;
            GetAddr(b[j := sum % 0x100], 0) as int + sum / 0x100 * Weight(j - 1)
            == GetAddr(b, 0) as int + carry * Weight(j)
  {
    var sum := b[j] as int + carry;
    var v, c, w := sum % 0x100, sum / 0x100, Weight(j);
    PutByte(b, j, v, b[j := v]);
    assert Weight(j - 1) == 0x100 * w;
    Regroup(v, b[j], c, carry, w);
  }

  lemma Regroup(v: int, b: int, c: int, carry: int, w: int)
    requires v + 0x100 * c == b + carry
    ensures (v - b) * w + c * (0x100 * w) == carry * w
  {
    assert (v - b) * w + c * (0x100 * w) == (v - b + 0x100 * c) * w;
  }

  /** A byte incremented adds its weight, or wraps and leaves the next byte to be incremented. */
  lemma IncrementStep(b: seq<byte>, j: nat, v: byte)
    requires |b| == 4 && j < 4 && v == (b[j] as int + 1) % 0x100
    ensures GetAddr(b[j := v], 0) as int + (if v == 0 then Weight(j - 1) else 0) == GetAddr(b, 0) as int + Weight(j)
  {
    CarryStep(b, j, 1);
    assert (b[j] as int + 1) / 0x100 == if v == 0 then 1 else 0;
  }

  /** One pass of the increment loop of NthHostIP. */
  method Increment(host: array<byte>)
    requires host.Length == 4
    modifies host
    ensures GetAddr(host[..], 0) as int ==
            if GetAddr(old(host[..]), 0) == SPACE - 1 then 0 else GetAddr(old(host[..]), 0) as int + 1
  {
    var j := 3;
    ghost var start := GetAddr(host[..], 0) as int;
    while j >= 0
      invariant -1 <= j <= 3
      invariant GetAddr(host[..], 0) as int + Weight(j) == start + 1
    {
      var v := (host[j] as int + 1) % 0x100;
      IncrementStep(host[..], j, v);
      host[j] := v;
      if v != 0 {
        return;
      }
      j := j - 1;
    }
  }

  datatype HostResult = Host(addr: Addr) | BadIndex | BadSubnet | NoSuchHost

  /** NthHostIP: counts from the address as written, not from the network address. */
  method NthHostIP(subnet: Option<Subnet>, n: int) returns (r: HostResult)
    requires subnet.Some? ==> Proper(subnet.value)
    ensures if n < 1 then r == BadIndex
            else if subnet.None? then r == BadSubnet
            else
              var a := (subnet.value.addr + n) % SPACE;
              r == if Contains(subnet.value, a) then Host(a) else NoSuchHost
  {
    if n < 1 {
      return BadIndex;
    }
    if subnet.None? {
      return BadSubnet;
    }
    var host := Bytes4(subnet.value.addr);
    for i := 0 to n
      invariant host.Length == 4 && fresh(host)
      invariant GetAddr(host[..], 0) == (subnet.value.addr + i) % SPACE
    {
      Increment(host);
      NextRemainder(subnet.value.addr + i);
    }
    var a := GetAddr(host[..], 0);
    if !Contains(subnet.value, a) {
      return NoSuchHost;
    }
    return Host(a);
  }

  lemma NextRemainder(x: int)
    ensures (x + 1) % SPACE == if x % SPACE == SPACE - 1 then 0 else x % SPACE + 1
  {
  }

  method Bytes4(a: Addr) returns (b: array<byte>)
    ensures fresh(b) && b.Length == 4 && GetAddr(b[..], 0) == a
  {
    var s := PutAddr([0, 0, 0, 0], 0, a);
    b := new byte[4](i requires 0 <= i < 4 => s[i]);
    assert b[..] == s;
  }

  // ---------- The least free address ----------

  /** Offset m of the subnet is used. */
  predicate Taken(s: Subnet, used: set<Addr>, m: int)
    requires Proper(s)
  {
    Network(s) + m in used
  }

  /** The first offset from i on whose address is not used. */
  function FreeFrom(s: Subnet, used: set<Addr>, i: nat): (r: Option<Addr>)
    requires Proper(s)
    decreases Size(s) - i
  {
    if i >= Size(s) then None
    else
      OffsetsStayInside(s, i);
      if Taken(s, used, i) then FreeFrom(s, used, i + 1) else Some(Network(s) + i)
  }

  datatype AllocResult = Allocated(addr: Addr) | BadCIDR | Unavailable

  /** What nextFreeHostInSubnet answers; /31 and /32 have no usable host. */
  function NextFree(s: Subnet, used: set<Addr>): AllocResult
    requires Proper(s)
  {
    if 32 - s.bits < 2 || FreeFrom(s, used, 2).None? then Unavailable else Allocated(FreeFrom(s, used, 2).value)
  }

  lemma {:induction false} FreeFromIsLeast(s: Subnet, used: set<Addr>, i: nat)
    requires Proper(s)
    ensures var r := FreeFrom(s, used, i);
            if r.None? then forall m :: i <= m < Size(s) ==> Taken(s, used, m)
            else
              && i <= r.value - Network(s) < Size(s) && r.value !in used && Contains(s, r.value)
              && forall m :: i <= m < r.value - Network(s) ==> Taken(s, used, m)
    decreases Size(s) - i
  {
    if i < Size(s) {
      OffsetsStayInside(s, i);
      if Taken(s, used, i) {
        FreeFromIsLeast(s, used, i + 1);
      }
    }
  }

  /** Allocation returns the least unused address at offset two or more inside the subnet, and fails
      exactly when the prefix is longer than /30 or every such offset is used. */
  lemma NextFreeMeaning(s: Subnet, used: set<Addr>)
    requires Proper(s)
    ensures NextFree(s, used).Unavailable? <==>
            s.bits >= 31 || forall m :: 2 <= m < Size(s) ==> Taken(s, used, m)
    ensures NextFree(s, used).Allocated? ==>
            var a := NextFree(s, used).addr;
            && Contains(s, a) && a !in used && 2 <= a - Network(s) < Size(s)
            && forall m :: 2 <= m < a - Network(s) ==> Taken(s, used, m)
  {
    FreeFromIsLeast(s, used, 2);
    var r := FreeFrom(s, used, 2);
    if r.Some? {
      assert !Taken(s, used, r.value - Network(s));
    }
    if s.bits >= 31 {
      assert Pow2(0) == 1 && Pow2(1) == 2;
    }
  }

  method NextFreeHostInSubnet(subnet: Option<Subnet>, used: set<Addr>) returns (r: AllocResult)
    requires subnet.Some? ==> Proper(subnet.value)
    ensures r == if subnet.None? then BadCIDR else NextFree(subnet.value, used)
  {
    if subnet.None? {
      return BadCIDR;
    }
    var s := subnet.value;
    if 32 - s.bits < 2 {
      return Unavailable;
    }
    OffsetsStayInside(s, 0);
    var i := 2;
    while i < Size(s)
      invariant 2 <= i && FreeFrom(s, used, i) == FreeFrom(s, used, 2)
    {
      OffsetsStayInside(s, i);
      var a := Candidate(Network(s), i);
      if !Contains(s, a) {
        break;
      }
      if a !in used {
        return Allocated(a);
      }
      i := i + 1;
    }
    return Unavailable;
  }

  /** A copy of the base bytes, moved on by i. */
  method Candidate(base: Addr, i: nat) returns (a: Addr)
    requires base + i < SPACE
    ensures a == base + i
  {
    var candidate := Bytes4(base);
    AddCarry(candidate, i);
    a := GetAddr(candidate[..], 0);
  }
}
