/** Guest addresses: the DHCP block of each host, the static addresses and the gateway. */
module Addressing {
  import opened Wrappers

  const MIN_DHCP_BLOCK := 8

  function Pow2(n: nat): (p: nat)
    ensures p > 0
  {
    if n == 0 then 1 else 2 * Pow2(n - 1)
  }

  /** A CIDR as written: a 32-bit address and a prefix length. */
  datatype Cidr = Cidr(written: nat, length: nat)

  function Size(c: Cidr): nat
    requires c.length <= 32
  {
    Pow2(32 - c.length)
  }

  function Network(c: Cidr): int
    requires c.length <= 32
  {
    c.written / Size(c) * Size(c)
  }

  function Broadcast(c: Cidr): int
    requires c.length <= 32
  {
    Network(c) + Size(c) - 1
  }

  function Midpoint(c: Cidr): int
    requires c.length <= 32
  {
    Network(c) + Size(c) / 2
  }

  /** First and last address of a host's block. */
  function DhcpRange(c: Cidr, nodes: int, host: int): Result<(int, int)>
    requires c.length <= 32
  {
    if !(0 <= host < nodes) then Raised(OtherError("no DHCP range for host"))
    else
      var block := (Broadcast(c) - Midpoint(c)) / nodes;
      var first := Midpoint(c) + block * host;
      Ok((first, first + if block > 0 then block - 1 else 0))
  }

  /** Looks at host 0 only. */
  function ValidateGuestDhcp(c: Cidr, nodes: int): Result<()>
    requires c.length <= 32
  {
    match DhcpRange(c, nodes, 0)
    case Raised(e) => Raised(e)
    case Ok((first, last)) =>
      if last - first + 1 < MIN_DHCP_BLOCK then Raised(OtherError("subnet too small")) else Ok(())
  }

  function First(c: Cidr, nodes: int, host: int): int
    requires c.length <= 32 && 0 <= host < nodes
  {
    DhcpRange(c, nodes, host).value.0
  }

  function Last(c: Cidr, nodes: int, host: int): int
    requires c.length <= 32 && 0 <= host < nodes
  {
    DhcpRange(c, nodes, host).value.1
  }

  predicate InBlock(c: Cidr, nodes: int, host: int, address: int)
    requires c.length <= 32 && 0 <= host < nodes
  {
    First(c, nodes, host) <= address <= Last(c, nodes, host)
  }

  /** One past the last address any block holds. */
  function BlocksEnd(c: Cidr, nodes: int): int
    requires c.length <= 32 && nodes > 0
  {
    Midpoint(c) + (Broadcast(c) - Midpoint(c)) / nodes * nodes
  }

  /** The network address is the greatest multiple of the subnet's size that is not above the
      address as written. */
  lemma NetworkExact(c: Cidr)
    requires c.length <= 32
    ensures Network(c) <= c.written < Network(c) + Size(c)
    ensures IsMultiple(Network(c), Size(c))
  {
    MultipleBelow(c.written, Size(c));
  }

  ghost predicate IsMultiple(n: int, d: nat) {
    exists k: nat :: n == k * d
  }

  lemma MultipleBelow(n: nat, d: nat)
    requires d > 0
    ensures n / d * d <= n < n / d * d + d && IsMultiple(n / d * d, d)
  {
    var k := n / d;
    assert n == d * k + n % d;
    assert n / d * d == k * d;
  }

  /** Validation of host 0 speaks for every host. */
  lemma ValidationExact(c: Cidr, nodes: int)
    requires c.length <= 32
    ensures ValidateGuestDhcp(c, nodes).Ok?
            <==> nodes > 0 && forall h :: 0 <= h < nodes ==> Last(c, nodes, h) - First(c, nodes, h) + 1 >= 8
    ensures forall h :: DhcpRange(c, nodes, h).Ok? <==> 0 <= h < nodes
  {
    if nodes > 0 && ValidateGuestDhcp(c, nodes).Raised? {
      assert Last(c, nodes, 0) - First(c, nodes, 0) + 1 < MIN_DHCP_BLOCK;
    }
  }

  /** A valid split: equal blocks, in order and disjoint, within the upper half and below the
      broadcast address, which is the subnet's last, leaving fewer addresses over than there
      are hosts. */
  lemma DhcpPartition(c: Cidr, nodes: int)
    requires c.length <= 32 && ValidateGuestDhcp(c, nodes).Ok?
    ensures forall h :: 0 <= h < nodes ==>
              Last(c, nodes, h) - First(c, nodes, h) == Last(c, nodes, 0) - First(c, nodes, 0)
    ensures forall g, h :: 0 <= g < h < nodes ==> Last(c, nodes, g) < First(c, nodes, h)
    ensures forall h :: 0 <= h < nodes ==> Midpoint(c) <= First(c, nodes, h) && Last(c, nodes, h) < BlocksEnd(c, nodes)
    ensures First(c, nodes, 0) == Network(c) + Size(c) / 2
    ensures BlocksEnd(c, nodes) == Last(c, nodes, nodes - 1) + 1
    ensures BlocksEnd(c, nodes) <= Network(c) + Size(c) - 1 < BlocksEnd(c, nodes) + nodes
  {
    var upper := Broadcast(c) - Midpoint(c);
    var block := upper / nodes;
    assert upper == block * nodes + upper % nodes;
    BlocksInOrder(block, nodes);
  }

  lemma BlocksInOrder(block: int, nodes: int)
    requires block >= 0 && nodes > 0
    ensures forall h :: 0 <= h < nodes ==> 0 <= block * h && block * h + block <= block * nodes
    ensures forall g, h :: 0 <= g < h < nodes ==> block * g + block <= block * h
    ensures block * (nodes - 1) + block == block * nodes
  {
    forall h | 0 <= h < nodes ensures 0 <= block * h && block * h + block <= block * nodes {
      Times(block, 0, h);
      Times(block, h + 1, nodes);
    }
    forall g, h | 0 <= g < h < nodes ensures block * g + block <= block * h {
      Times(block, g + 1, h);
    }
    Times(block, nodes, nodes);
  }

  lemma Times(k: int, a: int, b: int)
    requires k >= 0 && a <= b
    ensures k * a <= k * b
    ensures k * a == k * (a - 1) + k
  {
    assert k * (b - a) >= 0;
  }

  /** The blocks cover every address from the midpoint to their end. */
  lemma BlocksCover(c: Cidr, nodes: int, address: int)
    requires c.length <= 32 && ValidateGuestDhcp(c, nodes).Ok?
    ensures (exists h :: 0 <= h < nodes && InBlock(c, nodes, h, address))
            <==> Midpoint(c) <= address < BlocksEnd(c, nodes)
  {
    if Midpoint(c) <= address < BlocksEnd(c, nodes) {
      var h := BlockAt(c, nodes, address);
      assert InBlock(c, nodes, h, address);
    } else {
      DhcpPartition(c, nodes);
    }
  }

  lemma BlockAt(c: Cidr, nodes: int, address: int) returns (h: int)
    requires c.length <= 32 && ValidateGuestDhcp(c, nodes).Ok?
    requires Midpoint(c) <= address < BlocksEnd(c, nodes)
    ensures 0 <= h < nodes && InBlock(c, nodes, h, address)
  {
    var block := (Broadcast(c) - Midpoint(c)) / nodes;
    var offset := address - Midpoint(c);
    QuotientBelow(offset, block, nodes);
    h := offset / block;
  }

  lemma QuotientBelow(offset: int, block: int, nodes: int)
    requires block > 0 && 0 <= offset < block * nodes
    ensures 0 <= offset / block < nodes
    ensures block * (offset / block) <= offset < block * (offset / block) + block
  {
    var q := offset / block;
    assert offset == block * q + offset % block;
    if q >= nodes {
      Times(block, nodes, q);
      assert false;
    }
  }

  // --- static addresses -------------------------------------------------------

  /** First three octets of the address as written, then 10 + index: no address once that is
      more than an octet holds. */
  function StaticIp(c: Cidr, index: nat): Option<int> {
    if 10 + index < 256 then Some(c.written / 256 * 256 + 10 + index) else None
  }

  function GatewayIp(c: Cidr): int {
    c.written / 256 * 256 + 1
  }

  /** Written as a network address ending in .0, a subnet keeps every static address below its
      midpoint inside itself, apart from the gateway and from every other static address, and
      out of every host's DHCP block. */
  lemma StaticAddressesApart(c: Cidr, nodes: int, i: nat, j: nat)
    requires c.length <= 32 && c.written == Network(c) && c.written % 256 == 0
    requires StaticIp(c, i).Some? && 10 + i < Size(c) / 2
    ensures StaticIp(c, i).value == Network(c) + 10 + i < Network(c) + Size(c) - 1
    ensures GatewayIp(c) == Network(c) + 1 && StaticIp(c, i).value != GatewayIp(c)
    ensures forall h :: 0 <= h < nodes ==> !InBlock(c, nodes, h, GatewayIp(c))
    ensures i != j ==> StaticIp(c, i) != StaticIp(c, j)
    ensures forall h :: 0 <= h < nodes ==> !InBlock(c, nodes, h, StaticIp(c, i).value)
  {
    assert StaticIp(c, i).value == Network(c) + 10 + i < Midpoint(c);
    forall h | 0 <= h < nodes ensures First(c, nodes, h) >= Midpoint(c) {
      Times((Broadcast(c) - Midpoint(c)) / nodes, 0, h);
    }
  }

  /** The index has an address, and some host's DHCP server leases it too. */
  ghost predicate StaticClash(c: Cidr, nodes: int, i: nat)
    requires c.length <= 32
  {
    StaticIp(c, i).Some? && exists h :: 0 <= h < nodes && InBlock(c, nodes, h, StaticIp(c, i).value)
  }

  /** In such a subnet that happens exactly when 10 + index is one octet and lies in the stretch
      of the upper half that the blocks take. */
  lemma StaticClashExact(c: Cidr, nodes: int, i: nat)
    requires c.length <= 32 && c.written == Network(c) && c.written % 256 == 0
    requires ValidateGuestDhcp(c, nodes).Ok?
    ensures StaticClash(c, nodes, i)
            <==> 10 + i < 256 && Size(c) / 2 <= 10 + i < BlocksEnd(c, nodes) - Network(c)
  {
    if StaticIp(c, i).Some? {
      assert StaticIp(c, i).value == Network(c) + 10 + i;
      BlocksCover(c, nodes, StaticIp(c, i).value);
    }
  }
}
