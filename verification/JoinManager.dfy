/** The join-switch manager's methods, each run without interruption, over the verified switch manager. */
module JoinManager {
  import opened Wrappers
  import opened Cidr
  import opened Ipam

  const OVN_JOIN_SWITCH := "join"

  class JoinSwitchIPManager {
    const lsm: SwitchManager
    var lrpIPCache: map<string, seq<IP>>

    constructor (lsm: SwitchManager)
      ensures this.lsm == lsm && lrpIPCache == map[]
    {
      this.lsm, lrpIPCache := lsm, map[];
    }

    /** The join switch's allocators stand for these pools. */
    ghost predicate Pooled(pools: Pools)
      reads this, lsm, lsm.IpamsOf(OVN_JOIN_SWITCH)
    {
      Separate(lsm.IpamsOf(OVN_JOIN_SWITCH)) && Are(lsm.IpamsOf(OVN_JOIN_SWITCH), pools)
    }

    /** The join switch has pools, one for each host subnet, and each has a free address. */
    ghost predicate Ready(pools: Pools)
      requires Pooled(pools)
      reads this, lsm, lsm.IpamsOf(OVN_JOIN_SWITCH)
    {
      && pools != [] && |lsm.cache[OVN_JOIN_SWITCH].hostSubnets| == |pools|
      && forall i | 0 <= i < |pools| :: SomeFree(pools[i])
    }

    method GetJoinLRPCacheIPs(nodeName: string) returns (gwLRPIPs: Option<seq<IP>>)
      ensures gwLRPIPs == if nodeName in lrpIPCache then Some(lrpIPCache[nodeName]) else None
    {
      gwLRPIPs := if nodeName in lrpIPCache then Some(lrpIPCache[nodeName]) else None;
    }

    /** An entry is never overwritten. */
    method SetJoinLRPCacheIPs(nodeName: string, gwLRPIPs: seq<IP>) returns (ok: bool)
      modifies this
      ensures ok == (nodeName !in old(lrpIPCache))
      ensures lrpIPCache == if ok then old(lrpIPCache)[nodeName := gwLRPIPs] else old(lrpIPCache)
    {
      if nodeName in lrpIPCache {
        return false;
      }
      lrpIPCache := lrpIPCache[nodeName := gwLRPIPs];
      return true;
    }

    method DelJoinLRPCacheIPs(nodeName: string)
      modifies this
      ensures lrpIPCache == old(lrpIPCache) - {nodeName}
    {
      lrpIPCache := lrpIPCache - {nodeName};
    }

    /** Reserves the given addresses for the node, or leaves cache and pools as they were. */
    method ReserveJoinLRPIPs(nodeName: string, gwLRPIPs: seq<IP>, ghost before: Pools) returns (ok: bool)
      requires Pooled(before)
      modifies this, lsm.IpamsOf(OVN_JOIN_SWITCH)
      ensures ok <==> gwLRPIPs != [] && before != [] && CanAllocate(before, gwLRPIPs) && nodeName !in old(lrpIPCache)
      ensures lrpIPCache == if ok then old(lrpIPCache)[nodeName := gwLRPIPs] else old(lrpIPCache)
      ensures Pooled(if ok then With(before, gwLRPIPs) else before)
    {
      var err := lsm.AllocateIPs(OVN_JOIN_SWITCH, gwLRPIPs, before);
      if err != NoError {
        return false;
      }
      ok := SetJoinLRPCacheIPs(nodeName, gwLRPIPs);
      if !ok {
        var _ := lsm.ReleaseIPs(OVN_JOIN_SWITCH, gwLRPIPs, With(before, gwLRPIPs));
        ReleaseUndoesAllocate(before, gwLRPIPs);
      }
    }

    /** The node's cached addresses, or one fresh address from every pool whenever each has one; an error changes nothing. */
    method EnsureJoinLRPIPs(nodeName: string, ghost before: Pools) returns (ips: Option<seq<IP>>)
      requires Pooled(before)
      modifies this, lsm.IpamsOf(OVN_JOIN_SWITCH)
      ensures ips.Some? <==> nodeName in old(lrpIPCache) || old(Ready(before))
      ensures nodeName in old(lrpIPCache) ==>
                ips == Some(old(lrpIPCache)[nodeName]) && lrpIPCache == old(lrpIPCache) && Pooled(before)
      ensures nodeName !in old(lrpIPCache) && ips.Some? ==>
                NextFree(before, ips.value) && Pooled(WithNext(before, ips.value))
                && lrpIPCache == old(lrpIPCache)[nodeName := ips.value]
      ensures ips.None? ==> lrpIPCache == old(lrpIPCache) && Pooled(before)
    {
      ips := GetJoinLRPCacheIPs(nodeName);
      if ips.Some? {
        return;
      }
      AllHaveFree(before);
      var err, fresh' := lsm.AllocateNextIPs(OVN_JOIN_SWITCH, before);
      if err != NoError {
        return None;
      }
      ips := StoreEnsured(nodeName, fresh', before);
    }

    /** The end of ensure, which others may have overtaken: if the node is cached by now the addresses are lost,
        because the error return clears the list that the deferred release would free. */
    method StoreEnsured(nodeName: string, taken: seq<IP>, ghost before: Pools) returns (ips: Option<seq<IP>>)
      requires |taken| == |before| && Pooled(WithNext(before, taken))
      modifies this, lsm.IpamsOf(OVN_JOIN_SWITCH)
      ensures ips == if nodeName in old(lrpIPCache) then None else Some(taken)
      ensures lrpIPCache == if nodeName in old(lrpIPCache) then old(lrpIPCache) else old(lrpIPCache)[nodeName := taken]
      ensures Pooled(WithNext(before, taken))
    {
      var gwLRPIPs := taken;
      var ok := SetJoinLRPCacheIPs(nodeName, gwLRPIPs);
      if !ok {
        gwLRPIPs := [];
        WithoutNothing(WithNext(before, taken));
        var _ := lsm.ReleaseIPs(OVN_JOIN_SWITCH, gwLRPIPs, WithNext(before, taken));
        return None;
      }
      return Some(gwLRPIPs);
    }

    /** Frees the node's cached addresses and forgets them; without pools there is an error, and they are forgotten too. */
    method ReleaseJoinLRPIPs(nodeName: string, ghost before: Pools) returns (ok: bool)
      requires Pooled(before)
      modifies this, lsm.IpamsOf(OVN_JOIN_SWITCH)
      ensures ok <==> nodeName in old(lrpIPCache) && old(lrpIPCache)[nodeName] != [] ==> before != []
      ensures lrpIPCache == old(lrpIPCache) - {nodeName}
      ensures Pooled(if nodeName in old(lrpIPCache) then Without(before, old(lrpIPCache)[nodeName]) else before)
    {
      ok := true;
      var gwLRPIPs := GetJoinLRPCacheIPs(nodeName);
      if gwLRPIPs.Some? {
        var err := lsm.ReleaseIPs(OVN_JOIN_SWITCH, gwLRPIPs.value, before);
        DelJoinLRPCacheIPs(nodeName);
        ok := err == NoError;
      }
    }

    /** Ensuring and releasing a new node restores pools and cache, if each address is looked up
        in the pool it came from. */
    method EnsureThenRelease(nodeName: string, ghost before: Pools) returns (ips: Option<seq<IP>>)
      requires Pooled(before) && nodeName !in lrpIPCache && FoundInOwnPool(before)
      modifies this, lsm.IpamsOf(OVN_JOIN_SWITCH)
      ensures lrpIPCache == old(lrpIPCache) && Pooled(before)
      ensures ips.Some? <==> old(Ready(before))
      ensures ips.Some? ==> NextFree(before, ips.value)
    {
      ips := EnsureJoinLRPIPs(nodeName, before);
      if ips.Some? {
        ghost var more := WithNext(before, ips.value);
        OwnPoolRestored(before, ips.value);
        assert Without(more, lrpIPCache[nodeName]) == before;
        var _ := ReleaseJoinLRPIPs(nodeName, more);
      }
    }
  }

  ghost predicate SomeFree(p: Pool) {
    exists ip :: Free(p, ip)
  }

  lemma {:induction false} AllHaveFree(pools: Pools)
    ensures (forall i | 0 <= i < |pools| :: !(pools[i].usable <= pools[i].used)) <==> forall i | 0 <= i < |pools| :: SomeFree(pools[i])
  {
    forall i | 0 <= i < |pools|
      ensures !(pools[i].usable <= pools[i].used) <==> SomeFree(pools[i])
    {
      if !(pools[i].usable <= pools[i].used) {
        var ip :| ip in pools[i].usable && ip !in pools[i].used;
        assert Free(pools[i], ip);
      }
    }
  }

  /** Every address a pool may hand out is looked up there. */
  ghost predicate FoundInOwnPool(pools: Pools) {
    forall i, ip | 0 <= i < |pools| && ip in pools[i].usable :: PoolOf(pools, ip) == Some(i)
  }

  lemma {:induction false} OwnPoolRestored(pools: Pools, ips: seq<IP>)
    requires FoundInOwnPool(pools) && NextFree(pools, ips)
    ensures Without(WithNext(pools, ips), ips) == pools
  {
    ReleaseUndoesAllocateNextIff(pools, ips);
  }
}
