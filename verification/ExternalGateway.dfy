/** External gateway routes of pkg/ovn/egressgw.go: a namespace's cache and the routes on the gateway routers. */
module ExternalGateway {
  import opened Cidr

  datatype Route = Route(router: string, pod: IP, gw: IP)

  /** podExternalRoutes: for each pod address, the router of each gateway's route. */
  type Cache = map<IP, map<IP, string>>

  function Entries(cache: Cache): set<Route> {
    set p, g | p in cache && g in cache[p] :: Route(cache[p][g], p, g)
  }

  /** Every cached entry is an installed route of one family, and no pod address maps to an empty map. */
  predicate Sound(cache: Cache, installed: set<Route>) {
    && Entries(cache) <= installed
    && (forall p | p in cache :: cache[p] != map[])
    && (forall p, g | p in cache && g in cache[p] :: p.v6 == g.v6)
  }

  predicate Mirrors(cache: Cache, installed: set<Route>) {
    Sound(cache, installed) && installed == Entries(cache)
  }

  /** A pod address keeps its router while it is cached. */
  predicate KeepsRouter(cache: Cache, pod: IP, router: string) {
    pod in cache ==> forall g | g in cache[pod] :: cache[pod][g] == router
  }

  function Cached(cache: Cache, r: Route): Cache {
    cache[r.pod := (if r.pod in cache then cache[r.pod] else map[])[r.gw := r.router]]
  }

  /** Without the route of this pod and gateway, and without the pod if that was its last. */
  function Dropped(cache: Cache, pod: IP, gw: IP): Cache
    requires pod in cache
  {
    if cache[pod] - {gw} == map[] then cache - {pod} else cache[pod := cache[pod] - {gw}]
  }

  lemma {:induction false} CachedEntries(cache: Cache, r: Route)
    ensures r in Entries(Cached(cache, r))
    ensures forall e :: e in Entries(Cached(cache, r)) <==>
              e == r || (e in Entries(cache) && !(e.pod == r.pod && e.gw == r.gw))
  {
    var t := Cached(cache, r);
    assert r.pod in t && r.gw in t[r.pod];
    forall e
      ensures e in Entries(t) <==> e == r || (e in Entries(cache) && !(e.pod == r.pod && e.gw == r.gw))
    {
      EntryIs(t, e);
      EntryIs(cache, e);
    }
  }

  lemma {:induction false} EntryIs(cache: Cache, e: Route)
    ensures e in Entries(cache) <==> e.pod in cache && e.gw in cache[e.pod] && cache[e.pod][e.gw] == e.router
  {
  }

  lemma {:induction false} DroppedEntries(cache: Cache, pod: IP, gw: IP)
    requires pod in cache
    ensures forall e :: e in Entries(Dropped(cache, pod, gw)) <==> e in Entries(cache) && !(e.pod == pod && e.gw == gw)
  {
    var t := Dropped(cache, pod, gw);
    forall e
      ensures e in Entries(t) <==> e in Entries(cache) && !(e.pod == pod && e.gw == gw)
    {
      EntryIs(t, e);
      EntryIs(cache, e);
      if e in Entries(cache) && e.pod == pod && e.gw != gw {
        assert e.gw in cache[pod] - {gw};
      }
    }
  }

  lemma {:induction false} RemovedEntries(cache: Cache, pod: IP)
    ensures forall e :: e in Entries(cache - {pod}) <==> e in Entries(cache) && e.pod != pod
  {
    forall e
      ensures e in Entries(cache - {pod}) <==> e in Entries(cache) && e.pod != pod
    {
      EntryIs(cache - {pod}, e);
      EntryIs(cache, e);
    }
  }

  // ----- Adding

  lemma {:induction false} AddKeeps(cache: Cache, installed: set<Route>, r: Route)
    requires r.pod.v6 == r.gw.v6
    ensures Sound(cache, installed) ==> Sound(Cached(cache, r), installed + {r}) && Sound(cache, installed + {r})
    ensures Mirrors(cache, installed) && KeepsRouter(cache, r.pod, r.router) ==> Mirrors(Cached(cache, r), installed + {r})
  {
    CachedEntries(cache, r);
    if Mirrors(cache, installed) && KeepsRouter(cache, r.pod, r.router) {
      forall e
        ensures e in installed + {r} <==> e in Entries(Cached(cache, r))
      {
        EntryIs(cache, e);
      }
    }
  }

  /** Caching another router for a pod's gateway leaves the old route behind. */
  lemma {:induction false} AddMirrorsIff(cache: Cache, installed: set<Route>, r: Route)
    requires Mirrors(cache, installed) && r.pod.v6 == r.gw.v6
    ensures Mirrors(Cached(cache, r), installed + {r})
       <==> (r.pod in cache && r.gw in cache[r.pod] ==> cache[r.pod][r.gw] == r.router)
  {
    CachedEntries(cache, r);
    AddKeeps(cache, installed, r);
    if r.pod in cache && r.gw in cache[r.pod] {
      var e := Route(cache[r.pod][r.gw], r.pod, r.gw);
      EntryIs(cache, e);
      assert e in installed;
      if e == r {
        assert forall f :: f in Entries(Cached(cache, r)) <==> f in Entries(cache) by {
          forall f
            ensures f in Entries(Cached(cache, r)) <==> f in Entries(cache)
          {
            EntryIs(cache, f);
          }
        }
      }
    } else {
      forall f
        ensures f in installed + {r} <==> f in Entries(Cached(cache, r))
      {
        EntryIs(cache, f);
      }
    }
  }

  // ----- Deleting one gateway's route of a pod, or all routes of a pod

  lemma {:induction false} DropKeeps(cache: Cache, installed: set<Route>, pod: IP, gw: IP)
    requires pod in cache && gw in cache[pod]
    ensures var r := Route(cache[pod][gw], pod, gw);
            && (Sound(cache, installed) ==> Sound(Dropped(cache, pod, gw), installed - {r}))
            && (Mirrors(cache, installed) ==> Mirrors(Dropped(cache, pod, gw), installed - {r}))
  {
    var r := Route(cache[pod][gw], pod, gw);
    DroppedEntries(cache, pod, gw);
    forall e | e in Entries(cache) && e.pod == pod && e.gw == gw
      ensures e == r
    {
      EntryIs(cache, e);
    }
    EntryIs(cache, r);
  }

  /** The routes of a pod's cached gateways. */
  function PodRoutes(cache: Cache, pod: IP): set<Route>
    requires pod in cache
  {
    set g | g in cache[pod] :: Route(cache[pod][g], pod, g)
  }

  /** deleteGWRoutesForPod on one pod: a single success drops the whole cache entry. */
  function PodDeleted(cache: Cache, pod: IP, failed: set<Route>): Cache
    requires pod in cache
  {
    if PodRoutes(cache, pod) <= failed then cache else cache - {pod}
  }

  lemma {:induction false} PodRoutesAre(cache: Cache, pod: IP, e: Route)
    requires pod in cache
    ensures e in PodRoutes(cache, pod) <==> e in Entries(cache) && e.pod == pod
  {
    EntryIs(cache, e);
  }

  lemma {:induction false} PodDeletedKeeps(cache: Cache, installed: set<Route>, pod: IP, failed: set<Route>)
    requires Sound(cache, installed) && pod in cache
    ensures Sound(PodDeleted(cache, pod, failed), installed - (PodRoutes(cache, pod) - failed))
  {
    RemovedEntries(cache, pod);
    forall e
      ensures e in PodRoutes(cache, pod) <==> e in Entries(cache) && e.pod == pod
    {
      PodRoutesAre(cache, pod, e);
    }
  }

  /** The cache still mirrors the routers if and only if no command for the pod failed or every one did. */
  lemma {:induction false} PodDeletedMirrorsIff(cache: Cache, installed: set<Route>, pod: IP, failed: set<Route>)
    requires Mirrors(cache, installed) && pod in cache && failed <= PodRoutes(cache, pod)
    ensures Mirrors(PodDeleted(cache, pod, failed), installed - (PodRoutes(cache, pod) - failed))
       <==> failed == {} || failed == PodRoutes(cache, pod)
  {
    PodDeletedKeeps(cache, installed, pod, failed);
    RemovedEntries(cache, pod);
    forall e
      ensures e in PodRoutes(cache, pod) <==> e in Entries(cache) && e.pod == pod
    {
      PodRoutesAre(cache, pod, e);
    }
    var left := installed - (PodRoutes(cache, pod) - failed);
    if PodRoutes(cache, pod) <= failed {
      assert left == installed;
    } else if e :| e in failed {
      assert e in left && e !in Entries(cache - {pod});
    }
  }

  // ----- Commands and their failures

  datatype Reply = Ok | Duplicate | Failed

  /** What the commands of one call answer: adding a route, adding the pod's policy, deleting a route. */
  datatype World = World(adds: Route -> Reply, policyFails: IP -> bool, deleteFails: Route -> bool)

  /** A "duplicate nexthop" answer means that the route is there. */
  ghost predicate Truthful(world: World, installed: set<Route>) {
    forall r :: world.adds(r) == Duplicate ==> r in installed
  }

  ghost predicate OnRouters(routes: set<Route>, place: IP -> string) {
    forall r <- routes :: r.router == place(r.pod)
  }

  /** Adding the wanted routes from one state to another: all of them, or some when a command failed. */
  ghost predicate Adds(was: Cache, before: set<Route>, now: Cache, after: set<Route>, wanted: set<Route>, ok: bool, place: IP -> string) {
    && (Sound(was, before) ==> Sound(now, after))
    && before <= after <= before + wanted
    && (OnRouters(Entries(was) + wanted, place) ==>
          && Entries(was) <= Entries(now) <= Entries(was) + wanted
          && (ok ==> Entries(now) == Entries(was) + wanted && after == before + wanted))
  }

  lemma {:induction false} AddsNothing(was: Cache, before: set<Route>, wanted: set<Route>, ok: bool, place: IP -> string)
    requires ok ==> wanted == {}
    ensures Adds(was, before, was, before, wanted, ok, place)
  {
  }

  lemma {:induction false} AddsMore(c0: Cache, i0: set<Route>, c1: Cache, i1: set<Route>, c2: Cache, i2: set<Route>,
                                    first: set<Route>, second: set<Route>, ok: bool, place: IP -> string)
    requires Adds(c0, i0, c1, i1, first, true, place) && Adds(c1, i1, c2, i2, second, ok, place)
    ensures Adds(c0, i0, c2, i2, first + second, ok, place)
  {
    if OnRouters(Entries(c0) + (first + second), place) {
      assert OnRouters(Entries(c0) + first, place);
      assert OnRouters(Entries(c1) + second, place);
    }
  }

  lemma {:induction false} AddsWeaken(c0: Cache, i0: set<Route>, c1: Cache, i1: set<Route>, wanted: set<Route>, place: IP -> string)
    requires Adds(c0, i0, c1, i1, wanted, true, place)
    ensures Adds(c0, i0, c1, i1, wanted, false, place)
  {
  }

  lemma {:induction false} AddsWithin(c0: Cache, i0: set<Route>, c1: Cache, i1: set<Route>, some: set<Route>, all: set<Route>,
                                      place: IP -> string)
    requires Adds(c0, i0, c1, i1, some, false, place) && some <= all
    ensures Adds(c0, i0, c1, i1, all, false, place)
  {
    if OnRouters(Entries(c0) + all, place) {
      assert OnRouters(Entries(c0) + some, place);
    }
  }

  lemma {:induction false} AddsOne(was: Cache, before: set<Route>, r: Route, place: IP -> string)
    requires r.pod.v6 == r.gw.v6
    ensures Adds(was, before, Cached(was, r), before + {r}, {r}, true, place)
    ensures Adds(was, before, was, before + {r}, {r}, false, place)
  {
    AddKeeps(was, before, r);
    CachedEntries(was, r);
    if OnRouters(Entries(was) + {r}, place) {
      forall e
        ensures e in Entries(Cached(was, r)) <==> e in Entries(was) + {r}
      {
        EntryIs(was, e);
      }
    }
  }

  datatype GatewayInfo = GatewayInfo(gws: seq<IP>, bfdEnabled: bool)

  /** A pod: the gateway router of its node, and its addresses. */
  datatype Pod = Pod(router: string, ips: seq<IP>)

  /** The routes one pod address needs. */
  function ForGateways(router: string, ip: IP, gws: seq<IP>): set<Route> {
    set g | g in gws && g.v6 == ip.v6 :: Route(router, ip, g)
  }

  function ForAddresses(router: string, ips: seq<IP>, g: IP): set<Route> {
    set ip | ip in ips && ip.v6 == g.v6 :: Route(router, ip, g)
  }

  function ForPod(pod: Pod, gws: seq<IP>): set<Route> {
    set ip, g | ip in pod.ips && g in gws && ip.v6 == g.v6 :: Route(pod.router, ip, g)
  }

  function ForPods(pods: seq<Pod>, gws: seq<IP>): set<Route> {
    if pods == [] then {} else ForPods(pods[..|pods| - 1], gws) + ForPod(pods[|pods| - 1], gws)
  }

  lemma {:induction false} ForAddressesMore(router: string, ips: seq<IP>, i: nat, g: IP)
    requires i < |ips|
    ensures ForAddresses(router, ips[..i + 1], g)
         == ForAddresses(router, ips[..i], g) + if ips[i].v6 == g.v6 then {Route(router, ips[i], g)} else {}
    ensures ForAddresses(router, ips[..i + 1], g) <= ForAddresses(router, ips, g)
    ensures ips[..|ips|] == ips
  {
  }

  lemma {:induction false} ForGatewaysMore(router: string, ip: IP, gws: seq<IP>, i: nat)
    requires i < |gws|
    ensures ForGateways(router, ip, gws[..i + 1])
         == ForGateways(router, ip, gws[..i]) + if gws[i].v6 == ip.v6 then {Route(router, ip, gws[i])} else {}
    ensures ForGateways(router, ip, gws[..i + 1]) <= ForGateways(router, ip, gws)
    ensures gws[i].v6 == ip.v6 ==> Route(router, ip, gws[i]) in ForGateways(router, ip, gws[..i + 1])
    ensures gws[..|gws|] == gws
  {
  }

  lemma {:induction false} ForPodMore(pod: Pod, gws: seq<IP>, k: nat)
    requires k < |gws|
    ensures ForPod(pod, gws[..k + 1]) == ForPod(pod, gws[..k]) + ForAddresses(pod.router, pod.ips, gws[k])
    ensures ForPod(pod, gws[..k + 1]) <= ForPod(pod, gws)
  {
  }

  lemma {:induction false} ForAddressMore(router: string, ips: seq<IP>, gws: seq<IP>, i: nat)
    requires i < |ips|
    ensures ForPod(Pod(router, ips[..i + 1]), gws) == ForPod(Pod(router, ips[..i]), gws) + ForGateways(router, ips[i], gws)
    ensures ForPod(Pod(router, ips[..i + 1]), gws) <= ForPod(Pod(router, ips), gws)
  {
  }

  lemma {:induction false} ForPodsMore(pods: seq<Pod>, gws: seq<IP>, i: nat)
    requires i < |pods|
    ensures ForPods(pods[..i + 1], gws) == ForPods(pods[..i], gws) + ForPod(pods[i], gws)
    ensures ForPods(pods[..i + 1], gws) <= ForPods(pods, gws)
    decreases |pods| - i
  {
    assert pods[..i + 1][..i] == pods[..i];
    if i + 1 < |pods| {
      ForPodsMore(pods, gws, i + 1);
    } else {
      assert pods[..i + 1] == pods;
    }
  }

  /** All gateways of several infos, in order. */
  function AllGateways(infos: seq<GatewayInfo>): seq<IP> {
    if infos == [] then [] else AllGateways(infos[..|infos| - 1]) + infos[|infos| - 1].gws
  }

  lemma {:induction false} ForInfosMore(router: string, ip: IP, infos: seq<GatewayInfo>, k: nat)
    requires k < |infos|
    ensures ForGateways(router, ip, AllGateways(infos[..k + 1]))
         == ForGateways(router, ip, AllGateways(infos[..k])) + ForGateways(router, ip, infos[k].gws)
    ensures ForGateways(router, ip, AllGateways(infos[..k + 1])) <= ForGateways(router, ip, AllGateways(infos))
    decreases |infos| - k
  {
    assert infos[..k + 1][..k] == infos[..k];
    if k + 1 < |infos| {
      ForInfosMore(router, ip, infos, k + 1);
    } else {
      assert infos[..k + 1] == infos;
    }
  }

  // ----- Runs of deletions

  /** Deleting the given entries, and no others. */
  predicate Deletes(was: Cache, before: set<Route>, now: Cache, after: set<Route>, gone: set<Route>) {
    && (Sound(was, before) ==> Sound(now, after))
    && Entries(now) == Entries(was) - gone && after == before - gone
  }

  lemma {:induction false} DeletesMore(c0: Cache, i0: set<Route>, c1: Cache, i1: set<Route>, c2: Cache, i2: set<Route>,
                                       first: set<Route>, second: set<Route>)
    requires Deletes(c0, i0, c1, i1, first) && Deletes(c1, i1, c2, i2, second)
    ensures Deletes(c0, i0, c2, i2, first + second)
  {
  }

  /** Deletions that fail keep both the route and its entry, so the mirror is kept. */
  lemma {:induction false} DeletesMirror(was: Cache, before: set<Route>, now: Cache, after: set<Route>, gone: set<Route>)
    requires Deletes(was, before, now, after, gone)
    ensures Mirrors(was, before) ==> Mirrors(now, after)
  {
  }

  /** The pods' entries for a gateway whose deletion succeeds. */
  function Going(world: World, cache: Cache, gw: IP, pods: set<IP>): set<Route> {
    set e | e in Entries(cache) && e.gw == gw && e.pod in pods && !world.deleteFails(e)
  }

  /** The same for several gateways and all pods. */
  function GoingAll(world: World, cache: Cache, gws: seq<IP>): set<Route> {
    set e | e in Entries(cache) && e.gw in gws && !world.deleteFails(e)
  }

  function FailedFor(world: World, cache: Cache, pod: IP): set<Route>
    requires pod in cache
  {
    set r | r in PodRoutes(cache, pod) && world.deleteFails(r)
  }

  predicate FailureFree(world: World, cache: Cache) {
    forall e | e in Entries(cache) :: !world.deleteFails(e)
  }

  function EntriesOf(cache: Cache, pods: set<IP>): set<Route> {
    set e | e in Entries(cache) && e.pod in pods
  }

  function Listed(ips: seq<IP>): set<IP> {
    set ip | ip in ips
  }

  lemma {:induction false} ListedMore(ips: seq<IP>, i: nat)
    requires i < |ips|
    ensures Listed(ips[..i + 1]) == Listed(ips[..i]) + {ips[i]}
  {
  }

  /** The routes of these pods whose deletion works. */
  function Succeeding(world: World, cache: Cache, pods: set<IP>): set<Route> {
    set e | e in Entries(cache) && e.pod in pods && !world.deleteFails(e)
  }

  /** The deletion of some route of the pod works. */
  predicate SomeSucceeds(world: World, cache: Cache, pod: IP)
    requires pod in cache
  {
    exists g | g in cache[pod] :: !world.deleteFails(Route(cache[pod][g], pod, g))
  }

  /** Deleting the pods' routes: those whose deletion works go, and with the first that does the pod's cache entry. */
  ghost predicate Clears(world: World, was: Cache, before: set<Route>, now: Cache, after: set<Route>, pods: set<IP>) {
    Sound(now, after) && after == before - Succeeding(world, was, pods) && CacheClears(world, was, now, pods)
  }

  ghost predicate CacheClears(world: World, was: Cache, now: Cache, pods: set<IP>) {
    && (forall p :: p in now <==> p in was && !(p in pods && SomeSucceeds(world, was, p)))
    && forall p | p in now :: now[p] == was[p]
  }

  lemma {:induction false} CacheMore(world: World, c0: Cache, c1: Cache, c2: Cache, first: set<IP>, second: set<IP>)
    requires CacheClears(world, c0, c1, first) && CacheClears(world, c1, c2, second)
    ensures CacheClears(world, c0, c2, first + second)
  {
    assert forall p | p in c1 :: SomeSucceeds(world, c1, p) <==> SomeSucceeds(world, c0, p);
  }

  lemma {:induction false} SucceedingMore(world: World, c0: Cache, c1: Cache, first: set<IP>, second: set<IP>)
    requires CacheClears(world, c0, c1, first)
    ensures Succeeding(world, c0, first + second) == Succeeding(world, c0, first) + Succeeding(world, c1, second)
  {
    forall e
      ensures e in Succeeding(world, c0, first + second) <==> e in Succeeding(world, c0, first) + Succeeding(world, c1, second)
    {
      EntryIs(c0, e);
      EntryIs(c1, e);
    }
  }

  lemma {:induction false} ClearsMore(world: World, c0: Cache, i0: set<Route>, c1: Cache, i1: set<Route>, c2: Cache, i2: set<Route>,
                                      first: set<IP>, second: set<IP>)
    requires Clears(world, c0, i0, c1, i1, first) && Clears(world, c1, i1, c2, i2, second)
    ensures Clears(world, c0, i0, c2, i2, first + second)
  {
    CacheMore(world, c0, c1, c2, first, second);
    SucceedingMore(world, c0, c1, first, second);
    assert i2 == i0 - Succeeding(world, c0, first + second);
  }

  lemma {:induction false} PodDeletedClears(world: World, cache: Cache, installed: set<Route>, pod: IP)
    requires Sound(cache, installed) && pod in cache
    ensures var failed := FailedFor(world, cache, pod);
            Clears(world, cache, installed, PodDeleted(cache, pod, failed), installed - (PodRoutes(cache, pod) - failed), {pod})
  {
    var failed := FailedFor(world, cache, pod);
    PodDeletedKeeps(cache, installed, pod, failed);
    PodSucceeds(world, cache, pod);
    assert CacheClears(world, cache, PodDeleted(cache, pod, failed), {pod});
  }

  lemma {:induction false} PodSucceeds(world: World, cache: Cache, pod: IP)
    requires pod in cache
    ensures PodRoutes(cache, pod) - FailedFor(world, cache, pod) == Succeeding(world, cache, {pod})
    ensures PodRoutes(cache, pod) <= FailedFor(world, cache, pod) <==> !SomeSucceeds(world, cache, pod)
  {
    var failed := FailedFor(world, cache, pod);
    forall e
      ensures e in PodRoutes(cache, pod) - failed <==> e in Succeeding(world, cache, {pod})
    {
      PodRoutesAre(cache, pod, e);
    }
    if g :| g in cache[pod] && !world.deleteFails(Route(cache[pod][g], pod, g)) {
      assert Route(cache[pod][g], pod, g) in PodRoutes(cache, pod) - failed;
    }
  }

  /** Without failures the pods are gone, and exactly their routes. */
  lemma {:induction false} ClearsFree(world: World, was: Cache, before: set<Route>, now: Cache, after: set<Route>, pods: set<IP>)
    requires Clears(world, was, before, now, after, pods) && FailureFree(world, was) && forall p | p in was :: was[p] != map[]
    ensures now == was - pods && after == before - EntriesOf(was, pods)
  {
    assert Succeeding(world, was, pods) == EntriesOf(was, pods);
    forall p | p in was
      ensures SomeSucceeds(world, was, p)
    {
      var g :| g in was[p];
      EntryIs(was, Route(was[p][g], p, g));
    }
  }

  /** Clearing pods keeps the mirror if no command fails. */
  lemma {:induction false} ClearsMirror(world: World, was: Cache, before: set<Route>, now: Cache, after: set<Route>, pods: set<IP>)
    requires Clears(world, was, before, now, after, pods) && FailureFree(world, was)
    ensures Mirrors(was, before) ==> Mirrors(now, after)
  {
    if Mirrors(was, before) {
      ClearsFree(world, was, before, now, after, pods);
      forall e
        ensures e in after <==> e in Entries(now)
      {
        EntryIs(was, e);
        EntryIs(now, e);
      }
    }
  }

  /** What is wanted: a route for each address of each pod to each gateway of its family. */
  lemma {:induction false} WantedIs(pods: seq<Pod>, gws: seq<IP>, r: Route)
    ensures r in ForPods(pods, gws) <==>
              exists i | 0 <= i < |pods| :: r.router == pods[i].router && r.pod in pods[i].ips && r.gw in gws && r.pod.v6 == r.gw.v6
  {
    if pods != [] {
      var before, last := pods[..|pods| - 1], |pods| - 1;
      WantedIs(before, gws, r);
      assert forall i | 0 <= i < last :: before[i] == pods[i];
      assert r in ForPod(pods[last], gws) <==>
        r.router == pods[last].router && r.pod in pods[last].ips && r.gw in gws && r.pod.v6 == r.gw.v6;
    }
  }

  // ----- Runs of all five operations

  /** The operations on a namespace's routes, with what their commands answer. */
  datatype Op =
    | AddForAll(pods: seq<Pod>, gws: seq<IP>, ok: bool)
    | AddForOne(router: string, ips: seq<IP>, infos: seq<GatewayInfo>, ok: bool)
    | DeleteGateways(world: World, gws: seq<IP>)
    | DeletePods(world: World, podIPs: set<IP>)
    | DeleteAll(world: World)

  datatype View = View(cache: Cache, installed: set<Route>)

  function Wanted(op: Op): set<Route> {
    match op
    case AddForAll(pods, gws, _) => ForPods(pods, gws)
    case AddForOne(router, ips, infos, _) => ForPod(Pod(router, ips), AllGateways(infos))
    case _ => {}
  }

  /** What each operation's method promises, from one state to the next. */
  ghost predicate Does(op: Op, v: View, w: View, place: IP -> string) {
    match op
    case AddForAll(_, _, ok) => Adds(v.cache, v.installed, w.cache, w.installed, Wanted(op), ok, place)
    case AddForOne(_, _, _, ok) => Adds(v.cache, v.installed, w.cache, w.installed, Wanted(op), ok, place)
    case DeleteGateways(world, gws) => Deletes(v.cache, v.installed, w.cache, w.installed, GoingAll(world, v.cache, gws))
    case DeletePods(world, pods) => Sound(v.cache, v.installed) ==> Clears(world, v.cache, v.installed, w.cache, w.installed, pods)
    case DeleteAll(world) => Sound(v.cache, v.installed) ==> Clears(world, v.cache, v.installed, w.cache, w.installed, v.cache.Keys)
  }

  /** No command failed: all wanted routes are added, all the pods' routes deleted. */
  predicate Unfailing(op: Op, cache: Cache) {
    match op
    case AddForAll(_, _, ok) => ok
    case AddForOne(_, _, _, ok) => ok || Wanted(op) == {}
    case DeleteGateways(_, _) => true
    case DeletePods(world, _) => FailureFree(world, cache)
    case DeleteAll(world) => FailureFree(world, cache)
  }

  ghost predicate IsRun(views: seq<View>, ops: seq<Op>, place: IP -> string) {
    && |views| == |ops| + 1 && views[0] == View(map[], {})
    && forall k | 0 <= k < |ops| :: Does(ops[k], views[k], views[k + 1], place)
  }

  /** In every run, whatever fails, each cached entry is an installed route and no pod address maps to an empty map. */
  lemma {:induction false} RunsStaySound(views: seq<View>, ops: seq<Op>, place: IP -> string, k: nat)
    requires IsRun(views, ops, place) && k < |views|
    ensures Sound(views[k].cache, views[k].installed)
  {
    if k == 0 {
      EmptyEntries();
    } else {
      RunsStaySound(views, ops, place, k - 1);
      assert Does(ops[k - 1], views[k - 1], views[k - 1 + 1], place);
    }
  }

  lemma {:induction false} EmptyEntries()
    ensures Entries(map[]) == {}
  {
  }

  /** In every run without failures in which pods keep their routers, the cache mirrors the routers throughout. */
  lemma {:induction false} RunsMirror(views: seq<View>, ops: seq<Op>, place: IP -> string, k: nat)
    requires IsRun(views, ops, place) && k < |views|
    requires forall l | 0 <= l < |ops| :: OnRouters(Wanted(ops[l]), place) && Unfailing(ops[l], views[l].cache)
    ensures Mirrors(views[k].cache, views[k].installed) && OnRouters(Entries(views[k].cache), place)
  {
    if k == 0 {
      EmptyEntries();
    } else {
      RunsMirror(views, ops, place, k - 1);
      assert Does(ops[k - 1], views[k - 1], views[k - 1 + 1], place);
      OpMirrors(ops[k - 1], views[k - 1], views[k], place);
    }
  }

  lemma {:induction false} OpMirrors(op: Op, v: View, w: View, place: IP -> string)
    requires Does(op, v, w, place) && OnRouters(Wanted(op), place) && Unfailing(op, v.cache)
    requires Mirrors(v.cache, v.installed) && OnRouters(Entries(v.cache), place)
    ensures Mirrors(w.cache, w.installed) && OnRouters(Entries(w.cache), place)
  {
    match op
    case AddForAll(_, _, _) => assert OnRouters(Entries(v.cache) + Wanted(op), place);
    case AddForOne(_, _, _, _) => assert OnRouters(Entries(v.cache) + Wanted(op), place);
    case DeleteGateways(world, gws) =>
      DeletesMirror(v.cache, v.installed, w.cache, w.installed, GoingAll(world, v.cache, gws));
    case DeletePods(world, pods) => ClearsMirror(world, v.cache, v.installed, w.cache, w.installed, pods);
    case DeleteAll(world) => ClearsMirror(world, v.cache, v.installed, w.cache, w.installed, v.cache.Keys);
  }

  /** The routes to these gateways whose deletion succeeds. */
  function Deleted(world: World, gwToGr: map<IP, string>, pod: IP, gws: set<IP>): set<Route> {
    set g | g in gws && g in gwToGr && !world.deleteFails(Route(gwToGr[g], pod, g)) :: Route(gwToGr[g], pod, g)
  }

  lemma {:induction false} DeletedMore(world: World, gwToGr: map<IP, string>, pod: IP, gws: set<IP>, g: IP)
    requires g in gwToGr
    ensures Deleted(world, gwToGr, pod, gws + {g})
         == (var r := Route(gwToGr[g], pod, g);
             Deleted(world, gwToGr, pod, gws) + if world.deleteFails(r) then {} else {r})
  {
  }

  lemma {:induction false} DeletedAll(world: World, cache: Cache, pod: IP)
    requires pod in cache
    ensures Deleted(world, cache[pod], pod, cache[pod].Keys) == PodRoutes(cache, pod) - FailedFor(world, cache, pod)
  {
  }

  /** No command about these routes fails. */
  ghost predicate Works(world: World, routes: set<Route>) {
    forall r | r in routes :: world.adds(r) != Failed && !world.policyFails(r.pod)
  }

  class NamespaceRoutes {
    var podExternalRoutes: Cache
    var installed: set<Route>
    var routingExternalPodGWs: map<string, GatewayInfo>
    var routingExternalGWs: GatewayInfo

    constructor ()
      ensures podExternalRoutes == map[] && installed == {} && Mirrors(podExternalRoutes, installed)
      ensures routingExternalPodGWs == map[] && routingExternalGWs == GatewayInfo([], false)
    {
      podExternalRoutes, installed := map[], {};
      routingExternalPodGWs, routingExternalGWs := map[], GatewayInfo([], false);
    }

    /** One route: the command, the pod's policy, the cache, in this order. */
    method AddRoute(world: World, r: Route, ghost place: IP -> string) returns (ok: bool)
      requires Truthful(world, installed) && r.pod.v6 == r.gw.v6
      modifies this`podExternalRoutes, this`installed
      ensures ok <==> world.adds(r) != Failed && !world.policyFails(r.pod)
      ensures ok ==> podExternalRoutes == Cached(old(podExternalRoutes), r) && r in installed
      ensures Truthful(world, installed)
      ensures Adds(old(podExternalRoutes), old(installed), podExternalRoutes, installed, {r}, ok, place)
    {
      AddsOne(podExternalRoutes, installed, r, place);
      AddsNothing(podExternalRoutes, installed, {r}, false, place);
      var reply := world.adds(r);
      if reply == Failed {
        return false;
      }
      if reply == Duplicate {
        assert installed == installed + {r};
      }
      installed := installed + {r};
      if world.policyFails(r.pod) {
        return false;
      }
      podExternalRoutes := Cached(podExternalRoutes, r);
      ok := true;
    }

    /** One more route after those added since the given state; a failure ends the additions. */
    method AddNext(world: World, r: Route, ghost c0: Cache, ghost i0: set<Route>, ghost some: set<Route>, ghost all: set<Route>,
                   ghost place: IP -> string) returns (ok: bool)
      requires Truthful(world, installed) && r.pod.v6 == r.gw.v6 && some + {r} <= all
      requires Adds(c0, i0, podExternalRoutes, installed, some, true, place)
      modifies this`podExternalRoutes, this`installed
      ensures Truthful(world, installed)
      ensures Adds(c0, i0, podExternalRoutes, installed, if ok then some + {r} else all, ok, place)
      ensures ok <==> Works(world, {r})
    {
      ghost var c1, i1 := podExternalRoutes, installed;
      ok := AddRoute(world, r, place);
      AddsMore(c0, i0, c1, i1, podExternalRoutes, installed, some, {r}, ok, place);
      if !ok {
        AddsWithin(c0, i0, podExternalRoutes, installed, some + {r}, all, place);
      }
    }

    /** The innermost loop of addGWRoutesForNamespace: one gateway, all addresses of the pod. */
    method AddForAddresses(world: World, router: string, ips: seq<IP>, gw: IP, ghost place: IP -> string) returns (ok: bool)
      requires Truthful(world, installed)
      modifies this`podExternalRoutes, this`installed
      ensures Truthful(world, installed)
      ensures Adds(old(podExternalRoutes), old(installed), podExternalRoutes, installed, ForAddresses(router, ips, gw), ok, place)
      ensures ok <==> Works(world, ForAddresses(router, ips, gw))
    {
      ghost var c0, i0, all := podExternalRoutes, installed, ForAddresses(router, ips, gw);
      ghost var some: set<Route> := {};
      AddsNothing(c0, i0, {}, true, place);
      for i := 0 to |ips|
        invariant Truthful(world, installed)
        invariant some == ForAddresses(router, ips[..i], gw)
        invariant Adds(c0, i0, podExternalRoutes, installed, some, true, place)
        invariant Works(world, some)
      {
        ForAddressesMore(router, ips, i, gw);
        if gw.v6 == ips[i].v6 {
          var one := AddNext(world, Route(router, ips[i], gw), c0, i0, some, all, place);
          if !one {
            return false;
          }
          some := some + {Route(router, ips[i], gw)};
        }
      }
      assert ips[..|ips|] == ips;
      ok := true;
    }

    method AddForPod(world: World, pod: Pod, gws: seq<IP>, ghost place: IP -> string) returns (ok: bool)
      requires Truthful(world, installed)
      modifies this`podExternalRoutes, this`installed
      ensures Truthful(world, installed)
      ensures Adds(old(podExternalRoutes), old(installed), podExternalRoutes, installed, ForPod(pod, gws), ok, place)
      ensures ok <==> Works(world, ForPod(pod, gws))
    {
      ghost var c0, i0 := podExternalRoutes, installed;
      AddsNothing(c0, i0, {}, true, place);
      for k := 0 to |gws|
        invariant Truthful(world, installed)
        invariant Adds(c0, i0, podExternalRoutes, installed, ForPod(pod, gws[..k]), true, place)
        invariant Works(world, ForPod(pod, gws[..k]))
      {
        ForPodMore(pod, gws, k);
        ghost var c1, i1 := podExternalRoutes, installed;
        var one := AddForAddresses(world, pod.router, pod.ips, gws[k], place);
        AddsMore(c0, i0, c1, i1, podExternalRoutes, installed, ForPod(pod, gws[..k]),
                 ForAddresses(pod.router, pod.ips, gws[k]), one, place);
        if !one {
          AddsWithin(c0, i0, podExternalRoutes, installed, ForPod(pod, gws[..k + 1]), ForPod(pod, gws), place);
          return false;
        }
      }
      assert gws[..|gws|] == gws;
      ok := true;
    }

    /** addGWRoutesForNamespace: every gateway for every pod, up to the first failure. */
    method AddGWRoutesForNamespace(world: World, pods: seq<Pod>, egress: GatewayInfo, ghost place: IP -> string) returns (ok: bool)
      requires Truthful(world, installed)
      modifies this`podExternalRoutes, this`installed
      ensures Truthful(world, installed)
      ensures Adds(old(podExternalRoutes), old(installed), podExternalRoutes, installed, ForPods(pods, egress.gws), ok, place)
      ensures ok <==> Works(world, ForPods(pods, egress.gws))
    {
      ghost var c0, i0, gws := podExternalRoutes, installed, egress.gws;
      AddsNothing(c0, i0, {}, true, place);
      for i := 0 to |pods|
        invariant Truthful(world, installed)
        invariant Adds(c0, i0, podExternalRoutes, installed, ForPods(pods[..i], gws), true, place)
        invariant Works(world, ForPods(pods[..i], gws))
      {
        ForPodsMore(pods, gws, i);
        ghost var c1, i1 := podExternalRoutes, installed;
        var one := AddForPod(world, pods[i], egress.gws, place);
        AddsMore(c0, i0, c1, i1, podExternalRoutes, installed, ForPods(pods[..i], gws), ForPod(pods[i], gws), one, place);
        if !one {
          AddsWithin(c0, i0, podExternalRoutes, installed, ForPods(pods[..i + 1], gws), ForPods(pods, gws), place);
          return false;
        }
      }
      assert pods[..|pods|] == pods;
      ok := true;
    }

    /** The gateways of the address's family, in order; how many routes were added. */
    method AddForGateways(world: World, router: string, ip: IP, gws: seq<IP>, ghost place: IP -> string)
        returns (ok: bool, added: nat)
      requires Truthful(world, installed)
      modifies this`podExternalRoutes, this`installed
      ensures Truthful(world, installed)
      ensures Adds(old(podExternalRoutes), old(installed), podExternalRoutes, installed, ForGateways(router, ip, gws), ok, place)
      ensures ok <==> Works(world, ForGateways(router, ip, gws))
      ensures ok ==> (added == 0 <==> ForGateways(router, ip, gws) == {})
    {
      ghost var c0, i0, all := podExternalRoutes, installed, ForGateways(router, ip, gws);
      ghost var some: set<Route> := {};
      AddsNothing(c0, i0, {}, true, place);
      added := 0;
      for i := 0 to |gws|
        invariant Truthful(world, installed)
        invariant some == ForGateways(router, ip, gws[..i]) && (added == 0 <==> some == {})
        invariant Adds(c0, i0, podExternalRoutes, installed, some, true, place)
        invariant Works(world, some)
      {
        ForGatewaysMore(router, ip, gws, i);
        if gws[i].v6 == ip.v6 {
          var one := AddNext(world, Route(router, ip, gws[i]), c0, i0, some, all, place);
          if !one {
            return false, added;
          }
          added, some := added + 1, some + {Route(router, ip, gws[i])};
        }
      }
      assert gws[..|gws|] == gws;
      ok := true;
    }

    method AddForInfos(world: World, router: string, ip: IP, infos: seq<GatewayInfo>, ghost place: IP -> string)
        returns (ok: bool, added: nat)
      requires Truthful(world, installed)
      modifies this`podExternalRoutes, this`installed
      ensures Truthful(world, installed)
      ensures Adds(old(podExternalRoutes), old(installed), podExternalRoutes, installed,
                   ForGateways(router, ip, AllGateways(infos)), ok, place)
      ensures ok <==> Works(world, ForGateways(router, ip, AllGateways(infos)))
      ensures ok ==> (added == 0 <==> ForGateways(router, ip, AllGateways(infos)) == {})
    {
      ghost var c0, i0 := podExternalRoutes, installed;
      AddsNothing(c0, i0, {}, true, place);
      added := 0;
      for k := 0 to |infos|
        invariant Truthful(world, installed)
        invariant Adds(c0, i0, podExternalRoutes, installed, ForGateways(router, ip, AllGateways(infos[..k])), true, place)
        invariant Works(world, ForGateways(router, ip, AllGateways(infos[..k])))
        invariant added == 0 <==> ForGateways(router, ip, AllGateways(infos[..k])) == {}
      {
        ForInfosMore(router, ip, infos, k);
        ghost var c1, i1 := podExternalRoutes, installed;
        var one, n := AddForGateways(world, router, ip, infos[k].gws, place);
        AddsMore(c0, i0, c1, i1, podExternalRoutes, installed, ForGateways(router, ip, AllGateways(infos[..k])),
                 ForGateways(router, ip, infos[k].gws), one, place);
        if !one {
          AddsWithin(c0, i0, podExternalRoutes, installed, ForGateways(router, ip, AllGateways(infos[..k + 1])),
                     ForGateways(router, ip, AllGateways(infos)), place);
          return false, added;
        }
        added := added + n;
      }
      assert infos[..|infos|] == infos;
      ok := true;
    }

    /** addGWRoutesForPod: every gateway for every address of the pod; adding none at all is an error too. */
    method AddGWRoutesForPod(world: World, gateways: seq<GatewayInfo>, podIfAddrs: seq<IP>, router: string, ghost place: IP -> string)
        returns (ok: bool)
      requires Truthful(world, installed)
      modifies this`podExternalRoutes, this`installed
      ensures Truthful(world, installed)
      ensures Adds(old(podExternalRoutes), old(installed), podExternalRoutes, installed,
                   ForPod(Pod(router, podIfAddrs), AllGateways(gateways)), ok, place)
      ensures var wanted := ForPod(Pod(router, podIfAddrs), AllGateways(gateways)); ok <==> wanted != {} && Works(world, wanted)
    {
      ghost var c0, i0, gws := podExternalRoutes, installed, AllGateways(gateways);
      AddsNothing(c0, i0, {}, true, place);
      var routesAdded := 0;
      for i := 0 to |podIfAddrs|
        invariant Truthful(world, installed)
        invariant Adds(c0, i0, podExternalRoutes, installed, ForPod(Pod(router, podIfAddrs[..i]), gws), true, place)
        invariant Works(world, ForPod(Pod(router, podIfAddrs[..i]), gws))
        invariant routesAdded == 0 <==> ForPod(Pod(router, podIfAddrs[..i]), gws) == {}
      {
        ForAddressMore(router, podIfAddrs, gws, i);
        ghost var c1, i1 := podExternalRoutes, installed;
        var one, n := AddForInfos(world, router, podIfAddrs[i], gateways, place);
        AddsMore(c0, i0, c1, i1, podExternalRoutes, installed, ForPod(Pod(router, podIfAddrs[..i]), gws),
                 ForGateways(router, podIfAddrs[i], gws), one, place);
        if !one {
          AddsWithin(c0, i0, podExternalRoutes, installed, ForPod(Pod(router, podIfAddrs[..i + 1]), gws),
                     ForPod(Pod(router, podIfAddrs), gws), place);
          return false;
        }
        routesAdded := routesAdded + n;
      }
      assert podIfAddrs[..|podIfAddrs|] == podIfAddrs;
      ok := routesAdded > 0;
      if !ok {
        AddsWeaken(c0, i0, podExternalRoutes, installed, ForPod(Pod(router, podIfAddrs), gws), place);
      }
    }

    /** One pod's route to a gateway, if it has one; a failure keeps its entry. */
    method DropRoute(world: World, pod: IP, gw: IP)
      modifies this`podExternalRoutes, this`installed
      ensures Deletes(old(podExternalRoutes), old(installed), podExternalRoutes, installed,
                      Going(world, old(podExternalRoutes), gw, {pod}))
      ensures podExternalRoutes.Keys <= old(podExternalRoutes).Keys
    {
      ghost var going := Going(world, podExternalRoutes, gw, {pod});
      if pod !in podExternalRoutes || gw !in podExternalRoutes[pod] {
        assert forall e :: e !in going by {
          forall e
            ensures e !in going
          {
            EntryIs(podExternalRoutes, e);
          }
        }
        return;
      }
      var r := Route(podExternalRoutes[pod][gw], pod, gw);
      forall e
        ensures e in going <==> e == r && !world.deleteFails(r)
      {
        EntryIs(podExternalRoutes, e);
      }
      if !world.deleteFails(r) {
        DropKeeps(podExternalRoutes, installed, pod, gw);
        DroppedEntries(podExternalRoutes, pod, gw);
        forall e | e in Entries(podExternalRoutes) && e.pod == pod && e.gw == gw
          ensures e == r
        {
          EntryIs(podExternalRoutes, e);
        }
        installed := installed - {r};
        podExternalRoutes := Dropped(podExternalRoutes, pod, gw);
      }
    }

    /** One gateway, all pods. */
    method DropGateway(world: World, gw: IP)
      modifies this`podExternalRoutes, this`installed
      ensures Deletes(old(podExternalRoutes), old(installed), podExternalRoutes, installed,
                      Going(world, old(podExternalRoutes), gw, old(podExternalRoutes).Keys))
    {
      ghost var c0, i0 := podExternalRoutes, installed;
      var todo := podExternalRoutes.Keys;
      ghost var done: set<IP> := {};
      while todo != {}
        invariant todo + done == c0.Keys
        invariant Deletes(c0, i0, podExternalRoutes, installed, Going(world, c0, gw, done))
        decreases todo
      {
        var pod :| pod in todo;
        ghost var c1, i1 := podExternalRoutes, installed;
        DropRoute(world, pod, gw);
        DeletesMore(c0, i0, c1, i1, podExternalRoutes, installed, Going(world, c0, gw, done), Going(world, c1, gw, {pod}));
        GoingOne(world, c0, i0, c1, i1, gw, done, pod);
        todo, done := todo - {pod}, done + {pod};
      }
    }

    /** deletePodGWRoutesForNamespace: the routes of a gateway pod's addresses, except those whose deletion fails. */
    method DeletePodGWRoutesForNamespace(world: World, pod: string)
      modifies this`podExternalRoutes, this`installed, this`routingExternalPodGWs
      ensures var found := pod in old(routingExternalPodGWs) && old(routingExternalPodGWs)[pod].gws != [];
              && routingExternalPodGWs == (if found then old(routingExternalPodGWs) - {pod} else old(routingExternalPodGWs))
              && Deletes(old(podExternalRoutes), old(installed), podExternalRoutes, installed,
                         if found then GoingAll(world, old(podExternalRoutes), old(routingExternalPodGWs)[pod].gws) else {})
      ensures pod in old(routingExternalPodGWs) ==>
                forall e | e in Entries(podExternalRoutes) && e.gw in old(routingExternalPodGWs)[pod].gws :: world.deleteFails(e)
    {
      if pod !in routingExternalPodGWs || routingExternalPodGWs[pod].gws == [] {
        return;
      }
      var gws := routingExternalPodGWs[pod].gws;
      ghost var c0, i0 := podExternalRoutes, installed;
      for k := 0 to |gws|
        invariant routingExternalPodGWs == old(routingExternalPodGWs)
        invariant Deletes(c0, i0, podExternalRoutes, installed, GoingAll(world, c0, gws[..k]))
      {
        ghost var c1, i1 := podExternalRoutes, installed;
        DropGateway(world, gws[k]);
        GoingMore(world, c0, i0, c1, i1, gws, k);
        DeletesMore(c0, i0, c1, i1, podExternalRoutes, installed,
                    GoingAll(world, c0, gws[..k]), Going(world, c1, gws[k], c1.Keys));
      }
      assert gws[..|gws|] == gws;
      routingExternalPodGWs := routingExternalPodGWs - {pod};
    }

    /** The loop over a pod's gateways: every success drops the pod's whole cache entry. */
    method DeleteRoutes(world: World, pod: IP, gwToGr: map<IP, string>)
      modifies this`podExternalRoutes, this`installed
      ensures installed == old(installed) - Deleted(world, gwToGr, pod, gwToGr.Keys)
      ensures podExternalRoutes == if Deleted(world, gwToGr, pod, gwToGr.Keys) == {} then old(podExternalRoutes)
                                   else old(podExternalRoutes) - {pod}
    {
      var todo := gwToGr.Keys;
      ghost var done: set<Route>, seen: set<IP> := {}, {};
      while todo != {}
        invariant todo + seen == gwToGr.Keys
        invariant done == Deleted(world, gwToGr, pod, seen)
        invariant installed == old(installed) - done
        invariant podExternalRoutes == if done == {} then old(podExternalRoutes) else old(podExternalRoutes) - {pod}
        decreases todo
      {
        var gw :| gw in todo;
        var r := Route(gwToGr[gw], pod, gw);
        DeletedMore(world, gwToGr, pod, seen, gw);
        todo, seen := todo - {gw}, seen + {gw};
        if !world.deleteFails(r) {
          installed := installed - {r};
          podExternalRoutes := podExternalRoutes - {pod};
          done := done + {r};
        }
      }
    }

    /** All routes of one pod: a single success drops its cache entry. */
    method DeletePodRoutes(world: World, pod: IP)
      requires pod in podExternalRoutes
      modifies this`podExternalRoutes, this`installed
      ensures podExternalRoutes == PodDeleted(old(podExternalRoutes), pod, FailedFor(world, old(podExternalRoutes), pod))
      ensures installed == old(installed) - (PodRoutes(old(podExternalRoutes), pod) - FailedFor(world, old(podExternalRoutes), pod))
    {
      DeletedAll(world, podExternalRoutes, pod);
      NoneLeft(PodRoutes(podExternalRoutes, pod), FailedFor(world, podExternalRoutes, pod));
      DeleteRoutes(world, pod, podExternalRoutes[pod]);
    }

    method ClearPod(world: World, pod: IP)
      requires Sound(podExternalRoutes, installed) && pod in podExternalRoutes
      modifies this`podExternalRoutes, this`installed
      ensures Clears(world, old(podExternalRoutes), old(installed), podExternalRoutes, installed, {pod})
    {
      PodDeletedClears(world, podExternalRoutes, installed, pod);
      DeletePodRoutes(world, pod);
    }

    /** deleteGWRoutesForPod: the early return for an empty inner map is never taken. */
    method DeleteGWRoutesForPod(world: World, podIPs: seq<IP>)
      requires Sound(podExternalRoutes, installed)
      modifies this`podExternalRoutes, this`installed
      ensures Clears(world, old(podExternalRoutes), old(installed), podExternalRoutes, installed, Listed(podIPs))
    {
      ghost var c0, i0 := podExternalRoutes, installed;
      ClearsNothing(world, c0, i0, {});
      for i := 0 to |podIPs|
        invariant Sound(podExternalRoutes, installed)
        invariant Clears(world, c0, i0, podExternalRoutes, installed, Listed(podIPs[..i]))
      {
        var pod := podIPs[i];
        ghost var c1, i1 := podExternalRoutes, installed;
        if pod in podExternalRoutes {
          if podExternalRoutes[pod] == map[] {
            assert false;
          }
          ClearPod(world, pod);
        } else {
          ClearsNothing(world, c1, i1, {pod});
        }
        ClearsMore(world, c0, i0, c1, i1, podExternalRoutes, installed, Listed(podIPs[..i]), {pod});
        ListedMore(podIPs, i);
      }
      assert podIPs[..|podIPs|] == podIPs;
    }

    method ClearNext(world: World, ghost c0: Cache, ghost i0: set<Route>, ghost done: set<IP>, pod: IP)
      requires Clears(world, c0, i0, podExternalRoutes, installed, done)
      modifies this`podExternalRoutes, this`installed
      ensures Clears(world, c0, i0, podExternalRoutes, installed, done + {pod})
    {
      ghost var c1, i1 := podExternalRoutes, installed;
      if pod in podExternalRoutes {
        ClearPod(world, pod);
      } else {
        ClearsNothing(world, c1, i1, {pod});
      }
      ClearsMore(world, c0, i0, c1, i1, podExternalRoutes, installed, done, {pod});
    }

    /** The loop over the cached pods. */
    method ClearAll(world: World)
      requires Sound(podExternalRoutes, installed)
      modifies this`podExternalRoutes, this`installed
      ensures Clears(world, old(podExternalRoutes), old(installed), podExternalRoutes, installed, old(podExternalRoutes).Keys)
    {
      ghost var c0, i0 := podExternalRoutes, installed;
      var todo := podExternalRoutes.Keys;
      ghost var done: set<IP> := {};
      ClearsNothing(world, c0, i0, {});
      while todo != {}
        invariant todo + done == c0.Keys
        invariant Clears(world, c0, i0, podExternalRoutes, installed, done)
        decreases todo
      {
        var pod :| pod in todo;
        ClearNext(world, c0, i0, done, pod);
        todo, done := todo - {pod}, done + {pod};
      }
    }

    /** deleteGWRoutesForNamespace: all pods. */
    method DeleteGWRoutesForNamespace(world: World)
      requires Sound(podExternalRoutes, installed)
      modifies this`podExternalRoutes, this`installed, this`routingExternalGWs
      ensures Clears(world, old(podExternalRoutes), old(installed), podExternalRoutes, installed, old(podExternalRoutes).Keys)
      ensures FailureFree(world, old(podExternalRoutes)) ==>
                podExternalRoutes == map[] && installed == old(installed) - Entries(old(podExternalRoutes))
      ensures routingExternalGWs == GatewayInfo([], false)
    {
      ghost var c0, i0 := podExternalRoutes, installed;
      ClearAll(world);
      if FailureFree(world, c0) {
        ClearsFree(world, c0, i0, podExternalRoutes, installed, c0.Keys);
        assert EntriesOf(c0, c0.Keys) == Entries(c0);
      }
      routingExternalGWs := GatewayInfo([], false);
    }
  }

  lemma {:induction false} ClearsNothing(world: World, cache: Cache, installed: set<Route>, pods: set<IP>)
    requires Sound(cache, installed) && pods !! cache.Keys
    ensures Clears(world, cache, installed, cache, installed, pods)
  {
    forall e
      ensures e !in Succeeding(world, cache, pods)
    {
      EntryIs(cache, e);
    }
  }

  lemma {:induction false} NoneLeft(all: set<Route>, some: set<Route>)
    ensures all - some == {} <==> all <= some
  {
    if all - some == {} {
      forall r | r in all
        ensures r in some
      {
        assert r !in all - some;
      }
    }
  }

  lemma {:induction false} GoingOne(world: World, c0: Cache, i0: set<Route>, c1: Cache, i1: set<Route>, gw: IP, done: set<IP>, pod: IP)
    requires Deletes(c0, i0, c1, i1, Going(world, c0, gw, done))
    ensures Going(world, c0, gw, done + {pod}) == Going(world, c0, gw, done) + Going(world, c1, gw, {pod})
  {
  }

  lemma {:induction false} GoingMore(world: World, c0: Cache, i0: set<Route>, c1: Cache, i1: set<Route>, gws: seq<IP>, k: nat)
    requires k < |gws| && Deletes(c0, i0, c1, i1, GoingAll(world, c0, gws[..k]))
    ensures GoingAll(world, c0, gws[..k + 1]) == GoingAll(world, c0, gws[..k]) + Going(world, c1, gws[k], c1.Keys)
  {
    forall e
      ensures e in GoingAll(world, c0, gws[..k + 1])
         <==> e in GoingAll(world, c0, gws[..k]) + Going(world, c1, gws[k], c1.Keys)
    {
      EntryIs(c1, e);
      assert e.gw in gws[..k + 1] <==> e.gw in gws[..k] || e.gw == gws[k];
    }
  }
}
