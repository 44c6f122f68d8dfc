/** Address pools and the logical switch manager of pkg/ovn/logical_switch_manager.go: allocation over
    several subnets with rollback. */
module Ipam {
  import opened Wrappers
  import opened Cidr

  /** An IP allocator as a value: its range, the addresses it may hand out, those it has handed out. */
  datatype Pool = Pool(cidr: Subnet, usable: set<IP>, used: set<IP>)

  type Pools = seq<Pool>

  /** The pool ReleaseIPs and AllocateIPs pick for an address: the first whose range contains it. */
  function PoolOf(pools: Pools, ip: IP): (r: Option<nat>)
    ensures r.Some? ==> r.value < |pools| && Contains(pools[r.value].cidr, ip)
    ensures r.None? ==> forall i | 0 <= i < |pools| :: !Contains(pools[i].cidr, ip)
    ensures r.Some? ==> forall i | 0 <= i < r.value :: !Contains(pools[i].cidr, ip)
  {
    PoolFrom(pools, ip, 0)
  }

  function PoolFrom(pools: Pools, ip: IP, i: nat): (r: Option<nat>)
    requires i <= |pools|
    ensures r.Some? ==> i <= r.value < |pools| && Contains(pools[r.value].cidr, ip)
    ensures r.None? ==> forall j | i <= j < |pools| :: !Contains(pools[j].cidr, ip)
    ensures r.Some? ==> forall j | i <= j < r.value :: !Contains(pools[j].cidr, ip)
    decreases |pools| - i
  {
    if i == |pools| then None
    else if Contains(pools[i].cidr, ip) then Some(i)
    else PoolFrom(pools, ip, i + 1)
  }

  predicate Free(p: Pool, ip: IP) {
    ip in p.usable && ip !in p.used
  }

  /** Every address that lies in some pool is free there, and no pool is asked twice. */
  ghost predicate CanAllocate(pools: Pools, ips: seq<IP>) {
    && (forall k | 0 <= k < |ips| && PoolOf(pools, ips[k]).Some? :: Free(pools[PoolOf(pools, ips[k]).value], ips[k]))
    && forall k, l | 0 <= k < l < |ips| && PoolOf(pools, ips[k]).Some? ::
         PoolOf(pools, ips[k]) != PoolOf(pools, ips[l])
  }

  /** The addresses of the list that belong to pool i. */
  ghost function PartOf(pools: Pools, ips: seq<IP>, i: nat): set<IP> {
    set k | 0 <= k < |ips| && PoolOf(pools, ips[k]) == Some(i) :: ips[k]
  }

  ghost function With(pools: Pools, ips: seq<IP>): Pools {
    seq(|pools|, i requires 0 <= i < |pools| =>
      pools[i].(used := pools[i].used + PartOf(pools, ips, i)))
  }

  ghost function Without(pools: Pools, ips: seq<IP>): Pools {
    seq(|pools|, i requires 0 <= i < |pools| =>
      pools[i].(used := pools[i].used - PartOf(pools, ips, i)))
  }

  /** One address for each pool, as AllocateNextIPs returns them. */
  ghost predicate NextFree(pools: Pools, ips: seq<IP>) {
    |ips| == |pools| && forall i | 0 <= i < |pools| :: Free(pools[i], ips[i])
  }

  ghost function WithNext(pools: Pools, ips: seq<IP>): Pools
    requires |ips| == |pools|
  {
    seq(|pools|, i requires 0 <= i < |pools| => pools[i].(used := pools[i].used + {ips[i]}))
  }

  /** What is allocated cannot be allocated again, and what is released is free again if it is usable. */
  lemma {:induction false} AllocatedIsTaken(pools: Pools, ips: seq<IP>, k: nat)
    requires k < |ips| && PoolOf(pools, ips[k]).Some?
    ensures var i := PoolOf(pools, ips[k]).value;
            && !Free(With(pools, ips)[i], ips[k])
            && (Free(Without(pools, ips)[i], ips[k]) <==> ips[k] in pools[i].usable)
  {
    assert ips[k] in PartOf(pools, ips, PoolOf(pools, ips[k]).value);
  }

  /** The addresses AllocateNextIPs returned cannot be allocated again. */
  lemma {:induction false} NextIsTaken(pools: Pools, ips: seq<IP>, i: nat)
    requires |ips| == |pools| && i < |pools|
    ensures !Free(WithNext(pools, ips)[i], ips[i]) && forall ip | ip != ips[i] :: Free(WithNext(pools, ips)[i], ip) <==> Free(pools[i], ip)
  {
  }

  lemma {:induction false} SamePools(pools: Pools, other: Pools, ip: IP)
    requires |pools| == |other| && forall i | 0 <= i < |pools| :: pools[i].cidr == other[i].cidr
    ensures PoolOf(pools, ip) == PoolOf(other, ip)
  {
  }

  lemma {:induction false} SamePart(pools: Pools, other: Pools, ips: seq<IP>)
    requires |pools| == |other| && forall i | 0 <= i < |pools| :: pools[i].cidr == other[i].cidr
    ensures forall i :: PartOf(pools, ips, i) == PartOf(other, ips, i)
  {
    forall k | 0 <= k < |ips|
      ensures PoolOf(pools, ips[k]) == PoolOf(other, ips[k])
    {
      SamePools(pools, other, ips[k]);
    }
  }

  /** Releasing what AllocateIPs reserved restores every pool, overlapping ranges or not. */
  lemma {:induction false} ReleaseUndoesAllocate(pools: Pools, ips: seq<IP>)
    requires CanAllocate(pools, ips)
    ensures Without(With(pools, ips), ips) == pools
  {
    SamePart(pools, With(pools, ips), ips);
    forall i | 0 <= i < |pools|
      ensures Without(With(pools, ips), ips)[i] == pools[i]
    {
      assert PartOf(pools, ips, i) !! pools[i].used;
      assert pools[i].used + PartOf(pools, ips, i) - PartOf(pools, ips, i) == pools[i].used;
    }
  }

  /** Releasing what AllocateNextIPs returned restores every pool exactly when each address is looked up
      in the pool it came from. */
  lemma {:induction false} ReleaseUndoesAllocateNextIff(pools: Pools, ips: seq<IP>)
    requires NextFree(pools, ips)
    ensures Without(WithNext(pools, ips), ips) == pools
       <==> forall i | 0 <= i < |pools| :: PoolOf(pools, ips[i]) == Some(i)
  {
    if forall i | 0 <= i < |pools| :: PoolOf(pools, ips[i]) == Some(i) {
      NextRestored(pools, ips);
    }
    forall i | 0 <= i < |pools|
      ensures Without(WithNext(pools, ips), ips)[i] == pools[i] ==> PoolOf(pools, ips[i]) == Some(i)
    {
      NextInPart(pools, ips, i);
    }
  }

  lemma {:induction false} NextInPart(pools: Pools, ips: seq<IP>, i: nat)
    requires NextFree(pools, ips) && i < |pools|
    ensures Without(WithNext(pools, ips), ips)[i] == pools[i] ==> PoolOf(pools, ips[i]) == Some(i)
  {
    var more := WithNext(pools, ips);
    SamePart(pools, more, ips);
    if Without(more, ips)[i] == pools[i] {
      assert ips[i] in PartOf(pools, ips, i);
    }
  }

  lemma {:induction false} NextRestored(pools: Pools, ips: seq<IP>)
    requires NextFree(pools, ips) && forall i | 0 <= i < |pools| :: PoolOf(pools, ips[i]) == Some(i)
    ensures Without(WithNext(pools, ips), ips) == pools
  {
    var more := WithNext(pools, ips);
    SamePart(pools, more, ips);
    forall i | 0 <= i < |pools|
      ensures Without(more, ips)[i] == pools[i]
    {
      assert PartOf(pools, ips, i) == {ips[i]};
      assert pools[i].used + {ips[i]} - {ips[i]} == pools[i].used;
    }
  }

  class Allocator {
    const cidr: Subnet
    const usable: set<IP>
    var used: set<IP>

    constructor (cidr: Subnet, usable: set<IP>)
      ensures Value() == Pool(cidr, usable, {})
    {
      this.cidr, this.usable, used := cidr, usable, {};
    }

    function Value(): Pool
      reads this
    {
      Pool(cidr, usable, used)
    }

    method Allocate(ip: IP) returns (ok: bool)
      modifies this
      ensures ok == old(Free(Value(), ip))
      ensures used == old(used) + (if ok then {ip} else {})
    {
      ok := ip in usable && ip !in used;
      if ok {
        used := used + {ip};
      }
    }

    method AllocateNext() returns (next: Option<IP>)
      modifies this
      ensures next.None? ==> usable <= used
      ensures next.Some? ==> old(Free(Value(), next.value))
      ensures used == old(used) + (if next.Some? then {next.value} else {})
    {
      var left := usable - used;
      if left == {} {
        assert forall ip | ip in usable :: ip in left || ip in used;
        return None;
      }
      var ip :| ip in left;
      used := used + {ip};
      return Some(ip);
    }

    method Release(ip: IP)
      modifies this
      ensures used == old(used) - {ip}
    {
      used := used - {ip};
    }
  }

  // ----- The pools of one switch

  ghost predicate Separate(ipams: seq<Allocator>) {
    forall i, j | 0 <= i < j < |ipams| :: ipams[i] != ipams[j]
  }

  /** The allocators stand for these pools. */
  ghost predicate Are(ipams: seq<Allocator>, pools: Pools)
    reads ipams
  {
    |ipams| == |pools| && forall i | 0 <= i < |ipams| :: ipams[i].Value() == pools[i]
  }

  method AllocateAt(ipams: seq<Allocator>, i: nat, ip: IP, ghost pools: Pools) returns (ok: bool)
    requires Separate(ipams) && Are(ipams, pools) && i < |ipams|
    modifies ipams
    ensures ok == Free(pools[i], ip)
    ensures Are(ipams, if ok then pools[i := pools[i].(used := pools[i].used + {ip})] else pools)
  {
    ok := ipams[i].Allocate(ip);
  }

  method AllocateNextAt(ipams: seq<Allocator>, i: nat, ghost pools: Pools) returns (next: Option<IP>)
    requires Separate(ipams) && Are(ipams, pools) && i < |ipams|
    modifies ipams
    ensures next.None? ==> pools[i].usable <= pools[i].used && Are(ipams, pools)
    ensures next.Some? ==> Free(pools[i], next.value)
                           && Are(ipams, pools[i := pools[i].(used := pools[i].used + {next.value})])
  {
    next := ipams[i].AllocateNext();
  }

  method ReleaseAt(ipams: seq<Allocator>, i: nat, ip: IP, ghost pools: Pools)
    requires Separate(ipams) && Are(ipams, pools) && i < |ipams|
    modifies ipams
    ensures Are(ipams, pools[i := pools[i].(used := pools[i].used - {ip})])
  {
    ipams[i].Release(ip);
  }

  method FindPool(ipams: seq<Allocator>, ip: IP, ghost pools: Pools) returns (i: nat)
    requires Are(ipams, pools)
    ensures PoolOf(pools, ip) == if i < |ipams| then Some(i) else None
  {
    for j := 0 to |ipams|
      invariant forall l | 0 <= l < j :: !Contains(pools[l].cidr, ip)
    {
      if Contains(ipams[j].cidr, ip) {
        return j;
      }
    }
    return |ipams|;
  }

  /** The pools with one address more where this call took one. */
  ghost function Held(before: Pools, taken: map<nat, IP>): Pools {
    seq(|before|, i requires 0 <= i < |before| =>
      before[i].(used := before[i].used + if i in taken then {taken[i]} else {}))
  }

  ghost predicate TakenFree(before: Pools, taken: map<nat, IP>) {
    forall i | i in taken :: i < |before| && Free(before[i], taken[i])
  }

  /** The deferred clean-up: give back exactly what this call took. */
  method RollBack(ipams: seq<Allocator>, taken: map<nat, IP>, ghost before: Pools)
    requires Separate(ipams) && TakenFree(before, taken) && Are(ipams, Held(before, taken))
    modifies ipams
    ensures Are(ipams, before)
  {
    var left := taken;
    while left.Keys != {}
      invariant TakenFree(before, left) && Are(ipams, Held(before, left))
      decreases |left.Keys|
    {
      var i :| i in left.Keys;
      ReleaseAt(ipams, i, left[i], Held(before, left));
      HeldLess(before, left, i);
      left := left - {i};
    }
    HeldNothing(before, left);
  }

  lemma {:induction false} HeldLess(before: Pools, taken: map<nat, IP>, i: nat)
    requires TakenFree(before, taken) && i in taken
    ensures Held(before, taken - {i})
         == Held(before, taken)[i := Held(before, taken)[i].(used := Held(before, taken)[i].used - {taken[i]})]
  {
    assert before[i].used + {taken[i]} - {taken[i]} == before[i].used == before[i].used + {};
  }

  lemma {:induction false} HeldNothing(before: Pools, taken: map<nat, IP>)
    requires taken.Keys == {}
    ensures Held(before, taken) == before
  {
    forall i | 0 <= i < |before|
      ensures Held(before, taken)[i] == before[i]
    {
      assert i !in taken.Keys && before[i].used + {} == before[i].used;
    }
  }

  lemma {:induction false} HeldMore(before: Pools, taken: map<nat, IP>, i: nat, ip: IP)
    requires i < |before| && i !in taken && Free(before[i], ip)
    ensures Held(before, taken)[i] == before[i]
    ensures Held(before, taken[i := ip]) == Held(before, taken)[i := before[i].(used := before[i].used + {ip})]
  {
    assert before[i].used + {} == before[i].used;
  }

  /** What AllocateIPs has taken for the first k addresses: the address of each pool asked so far. */
  ghost predicate TakenFor(before: Pools, ips: seq<IP>, taken: map<nat, IP>) {
    && TakenFree(before, taken)
    && CanAllocate(before, ips)
    && (forall k | 0 <= k < |ips| && PoolOf(before, ips[k]).Some? ::
          PoolOf(before, ips[k]).value in taken && taken[PoolOf(before, ips[k]).value] == ips[k])
    && forall i | i in taken :: Asked(before, ips, i)
  }

  ghost predicate Asked(before: Pools, ips: seq<IP>, i: nat) {
    exists k | 0 <= k < |ips| :: PoolOf(before, ips[k]) == Some(i)
  }

  lemma {:induction false} AskedMore(before: Pools, ips: seq<IP>, ip: IP, i: nat)
    requires Asked(before, ips, i) || PoolOf(before, ip) == Some(i)
    ensures Asked(before, ips + [ip], i)
  {
    var more := ips + [ip];
    if Asked(before, ips, i) {
      var k :| 0 <= k < |ips| && PoolOf(before, ips[k]) == Some(i);
      assert more[k] == ips[k];
    } else {
      assert more[|ips|] == ip;
    }
  }

  lemma {:induction false} TakenMore(before: Pools, ips: seq<IP>, taken: map<nat, IP>, ip: IP)
    requires TakenFor(before, ips, taken)
    ensures match PoolOf(before, ip)
            case None => TakenFor(before, ips + [ip], taken)
            case Some(i) =>
              if i !in taken && Free(before[i], ip) then TakenFor(before, ips + [ip], taken[i := ip])
              else !CanAllocate(before, ips + [ip])
  {
    var more := ips + [ip];
    assert more[|ips|] == ip && forall k | 0 <= k < |ips| :: more[k] == ips[k];
    match PoolOf(before, ip)
    case None => TakenSkip(before, ips, taken, ip);
    case Some(i) =>
      if i in taken {
        var k :| 0 <= k < |ips| && PoolOf(before, ips[k]) == Some(i);
        assert PoolOf(before, more[k]) == PoolOf(before, more[|ips|]);
      } else if Free(before[i], ip) {
        TakenOne(before, ips, taken, ip, i);
      }
  }

  lemma {:induction false} TakenSkip(before: Pools, ips: seq<IP>, taken: map<nat, IP>, ip: IP)
    requires TakenFor(before, ips, taken) && PoolOf(before, ip).None?
    ensures TakenFor(before, ips + [ip], taken)
  {
    forall i | i in taken
      ensures Asked(before, ips + [ip], i)
    {
      AskedMore(before, ips, ip, i);
    }
  }

  lemma {:induction false} TakenOne(before: Pools, ips: seq<IP>, taken: map<nat, IP>, ip: IP, i: nat)
    requires TakenFor(before, ips, taken)
    requires PoolOf(before, ip) == Some(i) && i !in taken && Free(before[i], ip)
    ensures TakenFor(before, ips + [ip], taken[i := ip])
  {
    forall j | j in taken[i := ip]
      ensures Asked(before, ips + [ip], j)
    {
      AskedMore(before, ips, ip, j);
    }
    TakenCanAllocate(before, ips, taken, ip, i);
  }

  lemma {:induction false} TakenCanAllocate(before: Pools, ips: seq<IP>, taken: map<nat, IP>, ip: IP, i: nat)
    requires TakenFor(before, ips, taken)
    requires PoolOf(before, ip) == Some(i) && i !in taken && Free(before[i], ip)
    ensures CanAllocate(before, ips + [ip])
  {
    forall k | 0 <= k < |ips|
      ensures PoolOf(before, ips[k]) != Some(i)
    {
      assert PoolOf(before, ips[k]).Some? ==> PoolOf(before, ips[k]).value in taken;
    }
    AllocateMore(before, ips, ip, i);
  }

  lemma {:induction false} AllocateMore(before: Pools, ips: seq<IP>, ip: IP, i: nat)
    requires CanAllocate(before, ips) && PoolOf(before, ip) == Some(i) && Free(before[i], ip)
    requires forall k | 0 <= k < |ips| :: PoolOf(before, ips[k]) != Some(i)
    ensures CanAllocate(before, ips + [ip])
  {
    var more := ips + [ip];
    forall k, l | 0 <= k < l < |more| && PoolOf(before, more[k]).Some?
      ensures PoolOf(before, more[k]) != PoolOf(before, more[l])
    {
      assert more[k] == ips[k];
      if l < |ips| {
        assert more[l] == ips[l];
      }
    }
  }

  lemma {:induction false} CannotGrow(before: Pools, ips: seq<IP>, k: nat)
    requires k <= |ips| && !CanAllocate(before, ips[..k])
    ensures !CanAllocate(before, ips)
  {
    PrefixCanAllocate(before, ips, k);
  }

  lemma {:induction false} PrefixCanAllocate(before: Pools, ips: seq<IP>, k: nat)
    requires k <= |ips|
    ensures CanAllocate(before, ips) ==> CanAllocate(before, ips[..k])
  {
  }

  lemma {:induction false} TakenAll(before: Pools, ips: seq<IP>, taken: map<nat, IP>)
    requires TakenFor(before, ips, taken)
    ensures Held(before, taken) == With(before, ips)
  {
    forall i | 0 <= i < |before|
      ensures PartOf(before, ips, i) == if i in taken then {taken[i]} else {}
    {
    }
  }

  method AllocateIn(ipams: seq<Allocator>, ips: seq<IP>, ghost before: Pools) returns (err: Error)
    requires Separate(ipams) && Are(ipams, before)
    modifies ipams
    ensures err == NoError <==> CanAllocate(before, ips)
    ensures Are(ipams, if err == NoError then With(before, ips) else before)
  {
    var taken: map<nat, IP> := map[];
    HeldNothing(before, taken);
    for k := 0 to |ips|
      invariant TakenFor(before, ips[..k], taken) && Are(ipams, Held(before, taken))
    {
      var ip := ips[k];
      assert ips[..k + 1] == ips[..k] + [ip];
      TakenMore(before, ips[..k], taken, ip);
      forall p: IP {
        SamePools(before, Held(before, taken), p);
      }
      var i := FindPool(ipams, ip, Held(before, taken));
      if i < |ipams| {
        if i in taken {
          CannotGrow(before, ips, k + 1);
          RollBack(ipams, taken, before);
          return TwicePerPool;
        }
        HeldAt(before, taken, i);
        var ok := AllocateAt(ipams, i, ip, Held(before, taken));
        if !ok {
          CannotGrow(before, ips, k + 1);
          RollBack(ipams, taken, before);
          return Taken;
        }
        HeldMore(before, taken, i, ip);
        taken := taken[i := ip];
      }
    }
    assert ips[..|ips|] == ips;
    TakenAll(before, ips, taken);
    return NoError;
  }

  lemma {:induction false} HeldAt(before: Pools, taken: map<nat, IP>, i: nat)
    requires i < |before| && i !in taken
    ensures Held(before, taken)[i] == before[i]
  {
    assert before[i].used + {} == before[i].used;
  }

  /** AllocateNextIPs over the pools; the rollback is by index. */
  method AllocateNextIn(ipams: seq<Allocator>, ghost before: Pools) returns (r: Option<seq<IP>>)
    requires Separate(ipams) && Are(ipams, before)
    modifies ipams
    ensures r.None? ==> Are(ipams, before) && exists i | 0 <= i < |before| :: before[i].usable <= before[i].used
    ensures r.Some? ==> NextFree(before, r.value) && Are(ipams, WithNext(before, r.value))
  {
    var ips: seq<IP> := [];
    HeldNothing(before, Firsts(ips));
    for i := 0 to |ipams|
      invariant |ips| == i && forall j | 0 <= j < i :: Free(before[j], ips[j])
      invariant Are(ipams, Held(before, Firsts(ips)))
    {
      HeldAt(before, Firsts(ips), i);
      var next := AllocateNextAt(ipams, i, Held(before, Firsts(ips)));
      if next.None? {
        RollBackFirst(ipams, ips, before);
        return None;
      }
      HeldMore(before, Firsts(ips), i, next.value);
      FirstsMore(ips, next.value);
      ips := ips + [next.value];
    }
    assert Held(before, Firsts(ips)) == WithNext(before, ips);
    return Some(ips);
  }

  /** The addresses taken so far, by the index of their pool. */
  ghost function Firsts(ips: seq<IP>): map<nat, IP> {
    map j: nat | j < |ips| :: ips[j]
  }

  lemma {:induction false} FirstsMore(ips: seq<IP>, ip: IP)
    ensures Firsts(ips + [ip]) == Firsts(ips)[|ips| := ip]
  {
  }

  method RollBackFirst(ipams: seq<Allocator>, ips: seq<IP>, ghost before: Pools)
    requires Separate(ipams) && |ips| <= |before| && (forall j | 0 <= j < |ips| :: Free(before[j], ips[j]))
    requires Are(ipams, Held(before, Firsts(ips)))
    modifies ipams
    ensures Are(ipams, before)
  {
    assert LeftFrom(ips, 0) == Firsts(ips);
    for i := 0 to |ips|
      invariant Are(ipams, Held(before, LeftFrom(ips, i)))
    {
      ReleaseAt(ipams, i, ips[i], Held(before, LeftFrom(ips, i)));
      HeldLess(before, LeftFrom(ips, i), i);
      LeftLess(ips, i);
    }
    assert LeftFrom(ips, |ips|).Keys == {};
    HeldNothing(before, LeftFrom(ips, |ips|));
  }

  ghost function LeftFrom(ips: seq<IP>, i: nat): map<nat, IP> {
    map j: nat | i <= j < |ips| :: ips[j]
  }

  lemma {:induction false} LeftLess(ips: seq<IP>, i: nat)
    requires i < |ips|
    ensures LeftFrom(ips, i) - {i} == LeftFrom(ips, i + 1)
  {
  }

  method ReleaseIn(ipams: seq<Allocator>, ips: seq<IP>, ghost before: Pools)
    requires Separate(ipams) && Are(ipams, before)
    modifies ipams
    ensures Are(ipams, Without(before, ips))
  {
    WithoutNothing(before);
    for k := 0 to |ips|
      invariant Are(ipams, Without(before, ips[..k]))
    {
      assert ips[..k + 1] == ips[..k] + [ips[k]];
      WithoutMore(before, ips[..k], ips[k]);
      var i := FindPool(ipams, ips[k], Without(before, ips[..k]));
      if i < |ipams| {
        ReleaseAt(ipams, i, ips[k], Without(before, ips[..k]));
      }
    }
    assert ips[..|ips|] == ips;
  }

  lemma {:induction false} WithoutNothing(before: Pools)
    ensures Without(before, []) == before
  {
    forall i | 0 <= i < |before|
      ensures Without(before, [])[i] == before[i]
    {
      assert before[i].used - {} == before[i].used;
    }
  }

  lemma {:induction false} WithoutMore(before: Pools, ips: seq<IP>, ip: IP)
    ensures var now := Without(before, ips);
            PoolOf(now, ip) == PoolOf(before, ip)
            && Without(before, ips + [ip])
               == match PoolOf(before, ip)
                  case None => now
                  case Some(i) => now[i := now[i].(used := now[i].used - {ip})]
  {
    var now, more := Without(before, ips), Without(before, ips + [ip]);
    SamePools(before, now, ip);
    forall i | 0 <= i < |before|
      ensures more[i] == if PoolOf(before, ip) == Some(i) then now[i].(used := now[i].used - {ip}) else now[i]
    {
      assert PartOf(before, ips + [ip], i)
          == PartOf(before, ips, i) + if PoolOf(before, ip) == Some(i) then {ip} else {} by {
        assert forall k | 0 <= k < |ips| :: (ips + [ip])[k] == ips[k];
        assert (ips + [ip])[|ips|] == ip;
      }
      assert more[i].used == now[i].used - if PoolOf(before, ip) == Some(i) then {ip} else {};
    }
  }

  // ----- The manager

  datatype Error = NoError | CannotAllocate | UnknownSwitch | NoPools | PoolMismatch | TwicePerPool | Taken | Full

  datatype SwitchInfo = SwitchInfo(hostSubnets: seq<Subnet>, ipams: seq<Allocator>)

  class SwitchManager {
    var cache: map<string, SwitchInfo>

    constructor ()
      ensures cache == map[]
    {
      cache := map[];
    }

    /** The allocators of a switch; none when it is not known. */
    function IpamsOf(name: string): seq<Allocator>
      reads this
    {
      if name in cache then cache[name].ipams else []
    }

    /** All or nothing: on any error every pool is as it was. */
    method AllocateIPs(name: string, ips: seq<IP>, ghost before: Pools) returns (err: Error)
      requires Separate(IpamsOf(name)) && Are(IpamsOf(name), before)
      modifies IpamsOf(name)
      ensures err == NoError <==> ips != [] && before != [] && CanAllocate(before, ips)
      ensures Are(IpamsOf(name), if err == NoError then With(before, ips) else before)
    {
      if |ips| == 0 || name !in cache || |cache[name].ipams| == 0 {
        return CannotAllocate;
      }
      err := AllocateIn(cache[name].ipams, ips, before);
    }

    /** One fresh address from every pool, or an error and nothing taken. */
    method AllocateNextIPs(name: string, ghost before: Pools) returns (err: Error, ips: seq<IP>)
      requires Separate(IpamsOf(name)) && Are(IpamsOf(name), before)
      modifies IpamsOf(name)
      ensures err == NoError <==>
                && before != [] && |cache[name].hostSubnets| == |before|
                && forall i | 0 <= i < |before| :: !(before[i].usable <= before[i].used)
      ensures err == NoError ==> NextFree(before, ips) && Are(IpamsOf(name), WithNext(before, ips))
      ensures err != NoError ==> ips == [] && Are(IpamsOf(name), before)
    {
      if name !in cache {
        return UnknownSwitch, [];
      }
      var lsi := cache[name];
      if |lsi.ipams| == 0 {
        return NoPools, [];
      }
      if |lsi.ipams| != |lsi.hostSubnets| {
        return PoolMismatch, [];
      }
      var r := AllocateNextIn(lsi.ipams, before);
      if r.None? {
        return Full, [];
      }
      return NoError, r.value;
    }

    /** A nil list, here an empty one, is released without looking at the switch. */
    method ReleaseIPs(name: string, ips: seq<IP>, ghost before: Pools) returns (err: Error)
      requires Separate(IpamsOf(name)) && Are(IpamsOf(name), before)
      modifies IpamsOf(name)
      ensures Are(IpamsOf(name), if name != "" then Without(before, ips) else before)
      ensures err == NoError <==> ips == [] || name == "" || before != []
    {
      WithoutNothing(before);
      if ips == [] || name == "" {
        return NoError;
      }
      if name !in cache {
        return UnknownSwitch;
      }
      if |cache[name].ipams| == 0 {
        return NoPools;
      }
      ReleaseIn(cache[name].ipams, ips, before);
      return NoError;
    }
  }
}
