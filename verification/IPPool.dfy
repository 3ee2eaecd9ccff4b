/** Virtual IPv4 addresses handed out by a circular scan in 32-bit arithmetic. */
module IPPools {
  import opened Common


  type U32 = x: int | 0 <= x < TWO_32

  /** uint32 arithmetic. */
  function Wrap(x: int): U32 {
    x % TWO_32
  }

  datatype IPv4 = IPv4(a: Byte, b: Byte, c: Byte, d: Byte)

  function ToUint32(ip: IPv4): U32 {
    ip.a * 0x100_0000 + ip.b * 0x1_0000 + ip.c * 0x100 + ip.d
  }

  function FromUint32(n: U32): IPv4 {
    IPv4(n / 0x100_0000, n / 0x1_0000 % 0x100, n / 0x100 % 0x100, n % 0x100)
  }

  lemma AddressRoundTrip(n: U32)
    ensures ToUint32(FromUint32(n)) == n
  {
    assert n / 0x1_0000 == n / 0x100 / 0x100;
    assert n / 0x100_0000 == n / 0x100 / 0x100 / 0x100;
  }

  lemma NumberRoundTrip(ip: IPv4)
    ensures FromUint32(ToUint32(ip)) == ip
  {
    var n := ToUint32(ip);
    DropByte(ip.a * 0x1_0000 + ip.b * 0x100 + ip.c, ip.d);
    DropTwoBytes(ip.a * 0x100 + ip.b, ip.c * 0x100 + ip.d);
    assert n / 0x100 % 0x100 == ip.c && n / 0x1_0000 % 0x100 == ip.b && n / 0x100_0000 == ip.a;
  }

  lemma DropByte(high: nat, low: Byte)
    ensures (high * 0x100 + low) / 0x100 == high && (high * 0x100 + low) % 0x100 == low
  {
  }

  lemma DropTwoBytes(high: nat, low: nat)
    requires low < 0x1_0000
    ensures (high * 0x1_0000 + low) / 0x1_0000 == high
  {
  }

  /** The first byte counts most: numbers are ordered as addresses are written. */
  lemma AddressOrder(x: IPv4, y: IPv4)
    ensures ToUint32(x) < ToUint32(y) <==>
            x.a < y.a || (x.a == y.a && (x.b < y.b || (x.b == y.b && (x.c < y.c || (x.c == y.c && x.d < y.d)))))
  {
  }

  function Pow2(h: nat): nat {
    if h == 0 then 1 else 2 * Pow2(h - 1)
  }

  lemma {:induction false} Pow2Add(a: nat, b: nat)
    ensures Pow2(a + b) == Pow2(a) * Pow2(b)
  {
    if a > 0 {
      Pow2Add(a - 1, b);
      assert Pow2(a + b) == 2 * Pow2(a - 1 + b);
      MulAssociates(2, Pow2(a - 1), Pow2(b));
    }
  }

  lemma MulAssociates(x: int, y: int, z: int)
    ensures x * (y * z) == (x * y) * z
  {
  }

  lemma {:induction false} Pow2Monotone(a: nat, b: nat)
    requires a <= b
    ensures Pow2(a) <= Pow2(b)
  {
    if a < b {
      Pow2Monotone(a, b - 1);
    }
  }

  /** A network of 2^hostBits addresses starting at an aligned address. */
  datatype Network = Network(prefix: nat, hostBits: nat) {

    predicate Valid() {
      1 <= hostBits <= 31 && prefix < Pow2(32 - hostBits)
    }

    function Size(): nat {
      Pow2(hostBits)
    }

    function Base(): nat {
      prefix * Size()
    }

    /** Both addresses of a /31 are usable (section 2.1 of RFC 3021); otherwise the first and the
        last address of the network are not. */
    function Start(): nat {
      if hostBits == 1 then 0 else 1
    }

    function End(): nat
      requires Valid()
      ensures Start() + 2 <= End() <= Size() <= 0x8000_0000
    {
      SizeBounds();
      if hostBits == 1 then Size() else Size() - 1
    }

    function Hosts(): (n: nat)
      requires Valid()
      ensures 2 <= n <= Size() <= 0x8000_0000
    {
      End() - Start()
    }

    lemma SizeBounds()
      requires Valid()
      ensures 2 <= Size() <= 0x8000_0000
      ensures hostBits >= 2 ==> 4 <= Size()
      ensures hostBits == 1 ==> Size() == 2
    {
      Pow2Monotone(1, hostBits);
      Pow2Monotone(hostBits, 31);
      assert Pow2(31) == 0x8000_0000 by {
        Pow2Values();
      }
      if hostBits >= 2 {
        Pow2Monotone(2, hostBits);
      }
    }

    /** The network ends within the 32-bit address space. */
    lemma FitsAddressSpace()
      requires Valid()
      ensures Base() + Size() <= TWO_32
    {
      Pow2Add(32 - hostBits, hostBits);
      Pow2Values();
      assert (prefix + 1) * Size() <= Pow2(32 - hostBits) * Size() by {
        MulMonotone(prefix + 1, Pow2(32 - hostBits), Size());
      }
      MulStep(prefix, Size());
    }

    /** The i-th usable address. */
    function HostAt(i: nat): IPv4
      requires Valid() && i < Hosts()
    {
      FitsAddressSpace();
      FromUint32(Base() + Start() + i)
    }

    ghost function UsableHosts(): set<IPv4>
      requires Valid()
    {
      set i | 0 <= i < Hosts() :: HostAt(i)
    }

    lemma HostNumber(i: nat)
      requires Valid() && i < Hosts()
      ensures ToUint32(HostAt(i)) == Base() + Start() + i
    {
      FitsAddressSpace();
      AddressRoundTrip(Base() + Start() + i);
    }

    lemma HostsDistinct(i: nat, j: nat)
      requires Valid() && i < Hosts() && j < Hosts() && HostAt(i) == HostAt(j)
      ensures i == j
    {
      HostNumber(i);
      HostNumber(j);
    }

    /** There are exactly Hosts() usable addresses: 2^hostBits - 2, or 2 for a /31. */
    lemma UsableCount()
      requires Valid()
      ensures |UsableHosts()| == Hosts()
      ensures Hosts() == if hostBits == 1 then 2 else Size() - 2
    {
      SizeBounds();
      FirstHosts(Hosts());
    }

    lemma {:induction false} FirstHosts(n: nat)
      requires Valid() && n <= Hosts()
      ensures |set i | 0 <= i < n :: HostAt(i)| == n
    {
      if n > 0 {
        FirstHosts(n - 1);
        var fewer := set i | 0 <= i < n - 1 :: HostAt(i);
        assert (set i | 0 <= i < n :: HostAt(i)) == fewer + {HostAt(n - 1)};
        if HostAt(n - 1) in fewer {
          var i :| 0 <= i < n - 1 && HostAt(i) == HostAt(n - 1);
          HostsDistinct(i, n - 1);
        }
      }
    }

    lemma NumberedHost(ip: IPv4, i: nat)
      requires Valid() && i < Hosts() && ToUint32(ip) == Base() + Start() + i
      ensures HostAt(i) == ip
    {
      NumberRoundTrip(ip);
    }

    /** Usable are exactly the addresses strictly inside the network, or both of a /31. */
    lemma UsableIff(ip: IPv4)
      requires Valid()
      ensures ip in UsableHosts() <==>
              if hostBits == 1 then Base() <= ToUint32(ip) <= Base() + 1
              else Base() < ToUint32(ip) < Base() + Size() - 1
    {
      SizeBounds();
      var i := ToUint32(ip) - Base() - Start();
      if 0 <= i < Hosts() {
        NumberedHost(ip, i);
      }
      if ip in UsableHosts() {
        var k :| 0 <= k < Hosts() && HostAt(k) == ip;
        HostNumber(k);
      }
    }
  }

  /** Position x on a circle of m, for x less than twice around. */
  function Around(x: int, m: int): int {
    if x < m then x else x - m
  }

  lemma AroundIsMod(x: int, m: int)
    requires 0 <= x < 2 * m
    ensures x % m == Around(x, m)
  {
    if x >= m {
      ModOnce(x, m);
    }
  }

  lemma ModOnce(x: int, m: int)
    requires 0 < m <= x < 2 * m
    ensures x % m == x - m
  {
  }

  /** The address i steps around the circle of hosts from an offset. */
  function Scan(net: Network, offset: int, i: nat): IPv4
    requires net.Valid() && net.Start() <= offset < net.End() && i < net.Hosts()
  {
    net.HostAt(Around(offset - net.Start() + i, net.Hosts()))
  }

  /** The offset just after that address. */
  function NextOffset(net: Network, offset: int, i: nat): int
    requires net.Valid() && net.Start() <= offset < net.End() && i < net.Hosts()
  {
    net.Start() + Around(Around(offset - net.Start() + i, net.Hosts()) + 1, net.Hosts())
  }

  /** The scan meets only taken addresses before step i, and a free one there. */
  ghost predicate FirstFree(net: Network, offset: int, taken: set<IPv4>, i: nat)
    requires net.Valid() && net.Start() <= offset < net.End()
  {
    && i < net.Hosts()
    && Scan(net, offset, i) !in taken
    && forall j :: 0 <= j < i ==> Scan(net, offset, j) in taken
  }

  /** The first n steps of the scan meet only taken addresses. */
  ghost predicate AllTaken(net: Network, offset: int, taken: set<IPv4>, n: nat)
    requires net.Valid() && net.Start() <= offset < net.End() && n <= net.Hosts()
  {
    forall j :: 0 <= j < n ==> Scan(net, offset, j) in taken
  }

  /** The uint32 expression for the offset of step i does not overflow: it is the plain circular position. */
  method StepOffset(start: U32, hosts: U32, nextOffset: U32, i: U32) returns (offset: U32)
    requires start <= 1 && 0 < hosts && start + hosts <= 0x8000_0000
    requires start <= nextOffset < start + hosts && i < hosts
    ensures offset == start + Around(nextOffset - start + i, hosts)
  {
    WrapSmall(nextOffset - start);
    WrapSmall(nextOffset - start + i);
    AroundIsMod(nextOffset - start + i, hosts);
    WrapSmall(start + Around(nextOffset - start + i, hosts));
    offset := Wrap(start + Wrap(Wrap(nextOffset - start) + i) % hosts);
  }

  /** Nor does the one for the offset after it. */
  method AfterOffset(start: U32, hosts: U32, offset: U32) returns (next: U32)
    requires start <= 1 && 0 < hosts && start + hosts <= 0x8000_0000 && start <= offset < start + hosts
    ensures next == start + Around(offset - start + 1, hosts) < start + hosts
  {
    WrapSmall(offset - start + 1);
    AroundIsMod(offset - start + 1, hosts);
    WrapSmall(start + Around(offset - start + 1, hosts));
    next := Wrap(start + Wrap(offset - start + 1) % hosts);
  }

  lemma AddressNumber(net: Network, offset: U32)
    requires net.Valid() && net.Start() <= offset < net.End()
    ensures Wrap(Wrap(net.Base()) + offset) == net.Base() + offset
  {
    net.FitsAddressSpace();
    WrapSmall(net.Base());
    WrapSmall(net.Base() + offset);
  }

  lemma ScannedIsUsable(net: Network, nextOffset: U32, i: U32)
    requires net.Valid() && net.Start() <= nextOffset < net.End() && i < net.Hosts()
    ensures Scan(net, nextOffset, i) in net.UsableHosts()
  {
  }

  /** A scan that meets only taken addresses has seen every host. */
  lemma ScanCovers(net: Network, offset: int, taken: set<IPv4>)
    requires net.Valid() && net.Start() <= offset < net.End()
    requires forall j :: 0 <= j < net.Hosts() ==> Scan(net, offset, j) in taken
    ensures net.UsableHosts() <= taken
  {
    forall ip | ip in net.UsableHosts()
      ensures ip in taken
    {
      var k :| 0 <= k < net.Hosts() && net.HostAt(k) == ip;
      var from := offset - net.Start();
      assert Scan(net, offset, if from <= k then k - from else k - from + net.Hosts()) == ip;
    }
  }

  /** The offsets the code derives from the mask in uint32 arithmetic. */
  lemma MaskArithmetic(net: Network)
    requires net.Valid()
    ensures Wrap(net.Size()) == net.Size() && Wrap(net.Size() - 1) == net.Size() - 1
    ensures Wrap(net.End() - net.Start()) == net.Hosts()
  {
    net.SizeBounds();
    WrapSmall(net.Size());
    WrapSmall(net.Size() - 1);
    WrapSmall(net.End() - net.Start());
  }

  lemma Pow2Values()
    ensures Pow2(31) == 0x8000_0000 && Pow2(32) == 0x1_0000_0000
  {
    assert Pow2(4) == 16 && Pow2(7) == 128;
    Pow2Add(4, 4);
    Pow2Add(8, 8);
    Pow2Add(16, 8);
    Pow2Add(24, 7);
    assert Pow2(32) == 2 * Pow2(31);
  }

  /** From the offset after an address, that address comes last. */
  lemma LastInScan(net: Network, offset: int, i: nat, j: nat)
    requires net.Valid() && net.Start() <= offset < net.End() && i < net.Hosts() && j < net.Hosts()
    ensures var next := NextOffset(net, offset, i);
            && net.Start() <= next < net.End()
            && (Scan(net, next, j) == Scan(net, offset, i) <==> j == net.Hosts() - 1)
  {
    var at := Around(offset - net.Start() + i, net.Hosts());
    var other := Around(Around(at + 1, net.Hosts()) + j, net.Hosts());
    if Scan(net, NextOffset(net, offset, i), j) == Scan(net, offset, i) {
      net.HostsDistinct(other, at);
    }
  }

  /** The first free address from there is the one itself exactly if every other host is taken. */
  lemma OnlyOneFree(net: Network, offset: int, i: nat, taken: set<IPv4>, j: nat)
    requires net.Valid() && net.Start() <= offset < net.End() && i < net.Hosts()
    requires Scan(net, offset, i) !in taken
    requires net.Start() <= NextOffset(net, offset, i) < net.End() && FirstFree(net, NextOffset(net, offset, i), taken, j)
    ensures Scan(net, NextOffset(net, offset, i), j) == Scan(net, offset, i) <==>
            net.UsableHosts() <= taken + {Scan(net, offset, i)}
  {
    var next, ip := NextOffset(net, offset, i), Scan(net, offset, i);
    LastInScan(net, offset, i, j);
    if j == net.Hosts() - 1 {
      forall k | 0 <= k < net.Hosts()
        ensures Scan(net, next, k) in taken + {ip}
      {
        LastInScan(net, offset, i, k);
      }
      ScanCovers(net, next, taken + {ip});
    } else {
      ScannedIsUsable(net, next, j);
    }
  }

  class IPPool {
    const network: Network
    var taken: set<IPv4>
    var nextOffset: U32

    ghost predicate Valid()
      reads this
    {
      && network.Valid()
      && network.Start() <= nextOffset < network.End()
      && taken <= network.UsableHosts()
    }

    constructor (net: Network)
      requires net.Valid()
      ensures Valid() && network == net && taken == {} && nextOffset == net.Start()
    {
      network := net;
      taken := {};
      nextOffset := if net.hostBits == 1 then 0 else 1;
    }

    /** The first free address around the circle, or None exactly when every host is taken. */
    method Allocate() returns (r: Option<IPv4>)
      requires Valid()
      modifies this
      ensures Valid()
      ensures r.None? <==> network.UsableHosts() <= old(taken)
      ensures r.None? ==> taken == old(taken) && nextOffset == old(nextOffset)
      ensures r.Some? ==> r.value in network.UsableHosts() && r.value !in old(taken) && taken == old(taken) + {r.value}
      ensures r.Some? ==> exists i ::
                && FirstFree(network, old(nextOffset), old(taken), i)
                && r.value == Scan(network, old(nextOffset), i)
                && nextOffset == NextOffset(network, old(nextOffset), i)
    {
      var total := Wrap(Pow2(network.hostBits));
      MaskArithmetic(network);
      var start := 1;
      var end := Wrap(total - 1);
      if network.hostBits == 1 {
        start := 0;
        end := total;
      }
      var found := FindFree(start, Wrap(end - start));
      if found.None? {
        return None;
      }
      var (ip, next) := found.value;
      taken := taken + {ip};
      nextOffset := next;
      r := Some(ip);
    }

    /** The address at an offset inside the network. */
    method AddressAt(offset: U32) returns (ip: IPv4)
      requires network.Valid() && network.Start() <= offset < network.End()
      ensures ip == network.HostAt(offset - network.Start())
    {
      AddressNumber(network, offset);
      ip := FromUint32(Wrap(Wrap(network.Base()) + offset));
    }

    /** One step of the scan, in the code's uint32 arithmetic: the address and the offset after it. */
    method Probe(start: U32, maxHosts: U32, i: U32) returns (ip: IPv4, next: U32)
      requires network.Valid() && network.Start() <= nextOffset < network.End()
      requires start == network.Start() && maxHosts == network.Hosts() && i < maxHosts
      ensures ip == Scan(network, nextOffset, i) && ip in network.UsableHosts()
      ensures next == NextOffset(network, nextOffset, i) && network.Start() <= next < network.End()
    {
      var offset := StepOffset(start, maxHosts, nextOffset, i);
      ip := AddressAt(offset);
      next := AfterOffset(start, maxHosts, offset);
      ScannedIsUsable(network, nextOffset, i);
    }

    /** The scanning loop of Allocate: the first free address and the offset after it. */
    method FindFree(start: U32, maxHosts: U32) returns (r: Option<(IPv4, U32)>)
      requires network.Valid() && network.Start() <= nextOffset < network.End()
      requires start == network.Start() && maxHosts == network.Hosts()
      ensures r.None? ==> network.UsableHosts() <= taken
      ensures r.Some? ==> r.value.0 in network.UsableHosts() && r.value.0 !in taken
      ensures r.Some? ==> network.Start() <= r.value.1 < network.End()
      ensures r.Some? ==> exists i ::
                && FirstFree(network, nextOffset, taken, i)
                && r.value.0 == Scan(network, nextOffset, i)
                && r.value.1 == NextOffset(network, nextOffset, i)
    {
      var i := 0;
      while i < maxHosts
        invariant 0 <= i <= maxHosts && AllTaken(network, nextOffset, taken, i)
      {
        var ip, next := Probe(start, maxHosts, i);
        if ip !in taken {
          assert FirstFree(network, nextOffset, taken, i);
          return Some((ip, next));
        }
        i := i + 1;
      }
      ScanCovers(network, nextOffset, taken);
      r := None;
    }

    /** An address that is given back is not handed out next while another host is free. */
    method Reissue() returns (first: Option<IPv4>, second: Option<IPv4>)
      requires Valid()
      modifies this
      ensures Valid()
      ensures first.None? <==> network.UsableHosts() <= old(taken)
      ensures first.Some? ==>
                && second.Some? && first.value !in old(taken)
                && (second == first <==> network.UsableHosts() <= old(taken) + {first.value})
    {
      ghost var offset, before := nextOffset, taken;
      first := Allocate();
      if first.None? {
        return first, None;
      }
      ghost var i :| FirstFree(network, offset, before, i) && first.value == Scan(network, offset, i)
                     && nextOffset == NextOffset(network, offset, i);
      Release(first.value);
      assert taken == before;
      second := Allocate();
      ghost var j :| FirstFree(network, NextOffset(network, offset, i), before, j)
                     && second.value == Scan(network, NextOffset(network, offset, i), j);
      OnlyOneFree(network, offset, i, before, j);
    }

    method Release(ip: IPv4)
      requires Valid()
      modifies this
      ensures Valid()
      ensures taken == old(taken) - {ip} && nextOffset == old(nextOffset)
    {
      taken := taken - {ip};
    }
  }

  lemma WrapSmall(x: int)
    requires 0 <= x < TWO_32
    ensures Wrap(x) == x
  {
  }
}
