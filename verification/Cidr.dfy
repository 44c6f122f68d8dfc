/** Addresses, CIDR blocks and the configuration overlap check of pkg/config/utils.go. */
module Cidr {
  import opened Wrappers

  datatype RawIP = IP(v6: bool, bits: nat)

  /** An address as a value: its family and its bits. A net.IP and its canonical text are one value here. */
  type IP = r: RawIP | r.bits < Pow2(Width(r.v6)) witness IP(false, 0)

  function Width(v6: bool): nat {
    if v6 then 128 else 32
  }

  function Pow2(n: nat): (p: nat)
    ensures p > 0
  {
    if n == 0 then 1 else 2 * Pow2(n - 1)
  }

  datatype RawSubnet = Subnet(v6: bool, base: nat, prefix: nat)

  /** What net.ParseCIDR returns: a network number and a prefix length that fits its family. */
  type Subnet = s: RawSubnet | s.prefix <= Width(s.v6) && s.base < Pow2(Width(s.v6)) witness Subnet(false, 0, 0)

  /** Size of the block: two to the number of host bits. */
  function BlockSize(s: Subnet): (n: nat)
    ensures n > 0
  {
    Pow2(Width(s.v6) - s.prefix)
  }

  /** No host bits are set. */
  predicate Masked(s: Subnet) {
    s.base % BlockSize(s) == 0
  }

  /** net.IPNet.Contains: same family and the same network number once both are masked. */
  predicate Contains(s: Subnet, ip: IP) {
    s.v6 == ip.v6 && ip.bits / BlockSize(s) == s.base / BlockSize(s)
  }

  /** net.ParseCIDR as a function from texts. */
  type CidrParser = string -> Option<Subnet>

  /** What OVN takes as an address constant: a block without host bits. */
  function Constant(block: Option<Subnet>): Option<Subnet> {
    if block.Some? && Masked(block.value) then block else None
  }

  /** The network's own address, the IP field of a net.IPNet. */
  function BaseIP(s: Subnet): IP {
    IP(s.v6, s.base)
  }

  ghost predicate Disjoint(a: Subnet, b: Subnet) {
    !exists ip: IP :: Contains(a, ip) && Contains(b, ip)
  }

  lemma {:induction false} Pow2Split(m: nat, n: nat)
    requires m <= n
    ensures Pow2(n) == Pow2(n - m) * Pow2(m)
  {
    if m == 0 {
    } else {
      Pow2Split(m - 1, n - 1);
      assert Pow2(n) == 2 * (Pow2(n - m) * Pow2(m - 1));
    }
  }

  lemma {:induction false} Bytes()
    ensures Pow2(8) == 0x100 && Pow2(16) == 0x1_0000 && Pow2(24) == 0x100_0000 && Pow2(32) == 0x1_0000_0000
  {
    assert Pow2(8) == 256 by {
      assert Pow2(4) == 16;
    }
    Pow2Split(8, 16);
    Pow2Split(8, 24);
    Pow2Split(8, 32);
  }

  lemma {:induction false} QuotientAndRest(x: nat, d: nat)
    requires d > 0
    ensures x == (x / d) * d + x % d
  {
  }

  lemma {:induction false} Regroup(x: nat, k: nat, d: nat, q: nat, r: nat, q2: nat, r2: nat)
    requires x == q * d + r && r < d && q == q2 * k + r2 && r2 < k
    ensures x == q2 * (k * d) + (r2 * d + r) && r2 * d + r < k * d
  {
    assert (q2 * k + r2) * d == q2 * (k * d) + r2 * d by {
      assert (q2 * k) * d == q2 * (k * d);
    }
    assert r2 * d <= (k - 1) * d && (k - 1) * d == k * d - d;
  }

  lemma {:induction false} DivDiv(x: nat, k: nat, d: nat)
    requires k > 0 && d > 0
    ensures k * d > 0 && x / (k * d) == (x / d) / k
  {
    QuotientAndRest(x, d);
    QuotientAndRest(x / d, k);
    Regroup(x, k, d, x / d, x % d, x / d / k, x / d % k);
    QuotientUnique(x, k * d, x / d / k, (x / d % k) * d + x % d);
  }

  lemma {:induction false} QuotientUnique(x: int, d: int, q: int, r: int)
    requires d > 0 && x == q * d + r && 0 <= r < d
    ensures x / d == q
  {
    var e := x / d - q;
    assert e * d == r - x % d by {
      assert (x / d) * d == x - x % d;
      assert e * d == (x / d) * d - q * d;
    }
    assert e >= 1 ==> e * d >= d;
    assert e <= -1 ==> e * d <= -d;
  }

  /** The larger of two blocks of one family absorbs the smaller as soon as they share one address. */
  lemma {:induction false} SharedAddressNests(a: Subnet, b: Subnet, ip: IP)
    requires a.prefix <= b.prefix
    requires Contains(a, ip) && Contains(b, ip)
    ensures forall other: IP :: Contains(b, other) ==> Contains(a, other)
    ensures Contains(a, BaseIP(b))
  {
    var k, d := Pow2(b.prefix - a.prefix), BlockSize(b);
    Pow2Split(Width(b.v6) - b.prefix, Width(a.v6) - a.prefix);
    assert BlockSize(a) == k * d;
    forall other: IP | Contains(b, other)
      ensures Contains(a, other)
    {
      DivDiv(other.bits, k, d);
      DivDiv(ip.bits, k, d);
    }
    assert Contains(b, BaseIP(b));
  }

  /** CIDR blocks are nested or disjoint (section 3.1 of RFC 4632), so testing the two network
      addresses decides whether any address at all is shared. */
  lemma {:induction false} BaseTestDecidesOverlap(a: Subnet, b: Subnet)
    ensures Disjoint(a, b) <==> !(Contains(a, BaseIP(b)) || Contains(b, BaseIP(a)))
  {
    if Contains(a, BaseIP(b)) {
      assert Contains(b, BaseIP(b));
    }
    if Contains(b, BaseIP(a)) {
      assert Contains(a, BaseIP(a));
    }
    forall ip: IP | Contains(a, ip) && Contains(b, ip)
      ensures Contains(a, BaseIP(b)) || Contains(b, BaseIP(a))
    {
      if a.prefix <= b.prefix {
        SharedAddressNests(a, b, ip);
      } else {
        SharedAddressNests(b, a, ip);
      }
    }
  }
}

module ConfigSubnets {
  import opened Wrappers
  import opened Cidr

  datatype SubnetType = Join | Cluster | Service | Hybrid

  datatype ConfigSubnet = ConfigSubnet(subnetType: SubnetType, subnet: Subnet)

  /** The address families in use, or the error. */
  datatype Families = Families(ipv4: bool, ipv6: bool) | IllegalFamilies

  ghost predicate NoAddressInTwo(subnets: seq<ConfigSubnet>) {
    forall i, j | 0 <= j < i < |subnets| :: Disjoint(subnets[i].subnet, subnets[j].subnet)
  }

  /** KINDS other than join that have a subnet of the given family. */
  ghost predicate HasFamily(subnets: seq<ConfigSubnet>, t: SubnetType, v6: bool) {
    exists i :: 0 <= i < |subnets| && subnets[i].subnetType == t && t != Join && subnets[i].subnet.v6 == v6
  }

  class Registry {
    var subnets: seq<ConfigSubnet>
    var v4: set<SubnetType>
    var v6: set<SubnetType>

    /** The family maps mirror the list. */
    ghost predicate Valid()
      reads this
    {
      && (forall t :: t in v4 <==> HasFamily(subnets, t, false))
      && (forall t :: t in v6 <==> HasFamily(subnets, t, true))
    }

    constructor ()
      ensures Valid() && subnets == []
    {
      subnets, v4, v6 := [], {}, {};
    }

    method Append(subnetType: SubnetType, subnet: Subnet)
      requires Valid()
      modifies this
      ensures Valid()
      ensures subnets == old(subnets) + [ConfigSubnet(subnetType, subnet)]
    {
      ghost var before := subnets;
      subnets := subnets + [ConfigSubnet(subnetType, subnet)];
      if subnetType != Join {
        if subnet.v6 {
          v6 := v6 + {subnetType};
        } else {
          v4 := v4 + {subnetType};
        }
      }
      forall t, six
        ensures HasFamily(subnets, t, six)
            <==> HasFamily(before, t, six) || (t == subnetType && t != Join && subnet.v6 == six)
      {
        if HasFamily(before, t, six) {
          var i :| 0 <= i < |before| && before[i].subnetType == t && t != Join && before[i].subnet.v6 == six;
          assert subnets[i] == before[i];
        }
        assert subnets[|before|] == ConfigSubnet(subnetType, subnet);
      }
    }

    /** Either the registered ranges are pairwise disjoint, or the returned pair shares an address. */
    method CheckForOverlaps() returns (clash: Option<(nat, nat)>)
      ensures clash.None? <==> NoAddressInTwo(subnets)
      ensures clash.Some? ==>
        var (i, j) := clash.value;
        j < i < |subnets| && !Disjoint(subnets[i].subnet, subnets[j].subnet)
    {
      for i := 0 to |subnets|
        invariant forall k, l | 0 <= l < k < i :: Disjoint(subnets[k].subnet, subnets[l].subnet)
      {
        var si := subnets[i];
        for j := 0 to i
          invariant forall l | 0 <= l < j :: Disjoint(si.subnet, subnets[l].subnet)
        {
          var sj := subnets[j];
          BaseTestDecidesOverlap(si.subnet, sj.subnet);
          if Contains(si.subnet, BaseIP(sj.subnet)) || Contains(sj.subnet, BaseIP(si.subnet)) {
            return Some((i, j));
          }
        }
      }
      return None;
    }

    /** Single-stack when no kind uses the other family; dual-stack only when every kind that uses one
        family uses both. */
    method CheckIPFamilies() returns (r: Families)
      requires Valid()
      ensures r == Families(true, false) <==> forall t :: !HasFamily(subnets, t, true)
      ensures r == Families(false, true) <==>
        (exists t :: HasFamily(subnets, t, true)) && forall t :: !HasFamily(subnets, t, false)
      ensures r == Families(true, true) <==>
        && (exists t :: HasFamily(subnets, t, true))
        && (forall t :: HasFamily(subnets, t, true) <==> HasFamily(subnets, t, false))
      ensures r != Families(false, false)
    {
      if v6 == {} {
        return Families(true, false);
      }
      ghost var t :| t in v6;
      assert HasFamily(subnets, t, true);
      if v4 == {} {
        return Families(false, true);
      } else if v4 == v6 {
        return Families(true, true);
      }
      return IllegalFamilies;
    }
  }
}
