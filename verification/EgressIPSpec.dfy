/** What pkg/ovn/egressip.go promises about placing egress addresses on nodes, on values. */
module EgressIPSpec {
  import opened Wrappers
  import opened Cidr

  type NodeName = string

  type V4Subnet = s: Subnet | !s.v6 witness Subnet(false, 0, 0)
  type V6Subnet = s: Subnet | s.v6 witness Subnet(true, 0, 0)

  /** One entry of the allocator; allocations is the set of addresses the node carries. */
  datatype Node = Node(
    v4IP: Option<IP>,
    v6IP: Option<IP>,
    v4Subnet: Option<V4Subnet>,
    v6Subnet: Option<V6Subnet>,
    allocations: set<IP>,
    isReady: bool,
    isReachable: bool,
    isEgressAssignable: bool,
    tainted: bool)

  type Allocator = map<NodeName, Node>

  /** A status item: this address is carried by this node. */
  datatype Item = Item(ip: IP, node: NodeName)

  /** A requested address is None when net.ParseIP rejects its text. */
  type Request = seq<Option<IP>>

  predicate Hosts(n: Node, ip: IP) {
    || (n.v6Subnet.Some? && Contains(n.v6Subnet.value, ip))
    || (n.v4Subnet.Some? && Contains(n.v4Subnet.value, ip))
  }

  predicate Assignable(n: Node) {
    n.isEgressAssignable && n.isReady && n.isReachable
  }

  predicate IsNodeIP(a: Allocator, ip: IP) {
    exists n | n in a :: a[n].v6IP == Some(ip) || a[n].v4IP == Some(ip)
  }

  ghost predicate Allocated(a: Allocator, ip: IP) {
    exists n | n in a :: ip in a[n].allocations
  }

  ghost predicate Untainted(a: Allocator) {
    forall n | n in a :: !a[n].tainted
  }

  ghost predicate NoDuplicates<T(!new)>(s: seq<T>) {
    forall i, j | 0 <= i < j < |s| :: s[i] != s[j]
  }

  /** Every order the unstable sort may produce: the assignable nodes, once each, by load. */
  ghost predicate SortedEgressData(a: Allocator, order: seq<NodeName>) {
    && NoDuplicates(order)
    && (forall n :: n in order <==> n in a && Assignable(a[n]))
    && forall i, j | 0 <= i < j < |order| :: |a[order[i]].allocations| <= |a[order[j]].allocations|
  }

  predicate Uses(items: seq<Item>, n: NodeName) {
    exists i | 0 <= i < |items| :: items[i].node == n
  }

  predicate Places(items: seq<Item>, ip: IP) {
    exists i | 0 <= i < |items| :: items[i].ip == ip
  }

  /** A node of the list that may still take the address for this object. */
  predicate Fits(a: Allocator, n: NodeName, items: seq<Item>, ip: IP) {
    n in a && !a[n].tainted && !Uses(items, n) && Hosts(a[n], ip)
  }

  function FirstFit(a: Allocator, order: seq<NodeName>, items: seq<Item>, ip: IP): (r: Option<NodeName>)
    ensures r.None? ==> forall n | n in order :: !Fits(a, n, items, ip)
    ensures r.Some? ==> r.value in order && Fits(a, r.value, items, ip)
  {
    if order == [] then None
    else if Fits(a, order[0], items, ip) then Some(order[0])
    else FirstFit(a, order[1..], items, ip)
  }

  datatype Stop = Completed | BadText | NodeAddress

  datatype Placement = Placement(items: seq<Item>, stop: Stop)

  /** One round of the loop over the requested addresses. */
  ghost function AssignOne(a: Allocator, order: seq<NodeName>, p: Placement, text: Option<IP>): Placement {
    if p.stop != Completed then p
    else if text.None? then p.(stop := BadText)
    else if IsNodeIP(a, text.value) then p.(stop := NodeAddress)
    else if Allocated(a, text.value) then p
    else
      match FirstFit(a, order, p.items, text.value)
      case None => p
      case Some(n) => p.(items := p.items + [Item(text.value, n)])
  }

  /** The items placed for a whole list of requested addresses. */
  ghost function Assign(a: Allocator, order: seq<NodeName>, req: Request): Placement {
    if req == [] then Placement([], Completed)
    else AssignOne(a, order, Assign(a, order, req[..|req| - 1]), req[|req| - 1])
  }

  datatype AssignError = NoError | NoAssignableNodes | InvalidAddress | AddressOfNode | NoMatchingHost

  /** The error assignEgressIPs returns, and whether it files the object for a retry. */
  function Outcome(order: seq<NodeName>, req: Request, p: Placement): (AssignError, bool) {
    if order == [] then (NoAssignableNodes, true)
    else match p.stop
      case BadText => (InvalidAddress, false)
      case NodeAddress => (AddressOfNode, false)
      case Completed =>
        if p.items == [] then (NoMatchingHost, true)
        else (NoError, |p.items| < |req|)
  }

  ghost function IPsOn(items: seq<Item>, n: NodeName): set<IP> {
    set i | 0 <= i < |items| && items[i].node == n :: items[i].ip
  }

  /** The allocator once the items are recorded on their nodes. */
  ghost function PlaceAll(a: Allocator, items: seq<Item>): Allocator {
    map n | n in a :: a[n].(allocations := a[n].allocations + IPsOn(items, n))
  }

  /** The allocator once the items are removed from their nodes. */
  ghost function ReleaseAll(a: Allocator, items: seq<Item>): Allocator {
    map n | n in a :: a[n].(allocations := a[n].allocations - IPsOn(items, n))
  }

  // ----- What one assignment guarantees

  ghost predicate Requested(req: Request, ip: IP) {
    Some(ip) in req
  }

  /** Every request is placed, carried by some node already, or has no fitting node left. */
  ghost predicate Exhausted(a: Allocator, order: seq<NodeName>, req: Request, items: seq<Item>) {
    forall ip | Requested(req, ip) ::
      Allocated(a, ip) || Places(items, ip) || forall n | n in order :: !Fits(a, n, items, ip)
  }

  ghost predicate SoundItem(a: Allocator, order: seq<NodeName>, req: Request, it: Item) {
    && it.node in order && it.node in a && !a[it.node].tainted && Hosts(a[it.node], it.ip)
    && Requested(req, it.ip) && !Allocated(a, it.ip)
  }

  ghost predicate DistinctNodes(items: seq<Item>) {
    forall i, j | 0 <= i < j < |items| :: items[i].node != items[j].node
  }

  ghost predicate DistinctIPs(items: seq<Item>) {
    forall i, j | 0 <= i < j < |items| :: items[i].ip != items[j].ip
  }

  lemma {:induction false} AssignSound(a: Allocator, order: seq<NodeName>, req: Request)
    ensures var p := Assign(a, order, req);
            && (forall it | it in p.items :: SoundItem(a, order, req, it))
            && DistinctNodes(p.items)
            && (p.stop == Completed ==> Exhausted(a, order, req, p.items))
  {
    if req == [] {
    } else {
      var before := req[..|req| - 1];
      AssignSound(a, order, before);
      assert req == before + [req[|req| - 1]];
      OneSound(a, order, before, req[|req| - 1], Assign(a, order, before));
    }
  }

  lemma {:induction false} OneSound(a: Allocator, order: seq<NodeName>, before: Request, text: Option<IP>, p: Placement)
    requires forall it | it in p.items :: SoundItem(a, order, before, it)
    requires DistinctNodes(p.items) && (p.stop == Completed ==> Exhausted(a, order, before, p.items))
    ensures var q := AssignOne(a, order, p, text);
            && (forall it | it in q.items :: SoundItem(a, order, before + [text], it))
            && DistinctNodes(q.items)
            && (q.stop == Completed ==> Exhausted(a, order, before + [text], q.items))
  {
    var q := AssignOne(a, order, p, text);
    assert forall ip :: Requested(before + [text], ip) <==> Requested(before, ip) || text == Some(ip);
    if |q.items| > |p.items| {
      MoreItems(p.items, q.items[|p.items|]);
    }
  }

  // ----- The same, told from the nodes' fields

  /** Some node has this address for its own. */
  ghost predicate OwnedByNode(a: Allocator, text: Option<IP>) {
    text.Some? && exists n | n in a :: a[n].v4IP == text || a[n].v6IP == text
  }

  /** The pass stops at a node's address if and only if one is requested before any text that does not parse, and at a
      text that does not parse if and only if none is requested before it. */
  lemma {:induction false} StopsIff(a: Allocator, order: seq<NodeName>, req: Request)
    ensures Assign(a, order, req).stop == NodeAddress <==>
              exists k | 0 <= k < |req| :: OwnedByNode(a, req[k]) && forall i | 0 <= i <= k :: req[i].Some?
    ensures Assign(a, order, req).stop == BadText <==>
              exists k | 0 <= k < |req| :: req[k].None? && forall i | 0 <= i < k :: req[i].Some? && !OwnedByNode(a, req[i])
  {
    if req != [] {
      var before, last := req[..|req| - 1], |req| - 1;
      StopsIff(a, order, before);
      assert forall k | 0 <= k < last :: before[k] == req[k];
      if Assign(a, order, before).stop == Completed {
        NothingStopped(a, order, before);
        assert Assign(a, order, req).stop == NodeAddress <==> OwnedByNode(a, req[last]);
      }
    }
  }

  lemma {:induction false} NothingStopped(a: Allocator, order: seq<NodeName>, req: Request)
    requires Assign(a, order, req).stop == Completed
    ensures forall k | 0 <= k < |req| :: req[k].Some? && !OwnedByNode(a, req[k])
  {
    if req != [] {
      var before := req[..|req| - 1];
      NothingStopped(a, order, before);
      assert forall k | 0 <= k < |before| :: before[k] == req[k];
    }
  }

  /** Every placed address lies in a subnet of its family on a ready, reachable, assignable node, no node carried it
      before, and it is no node's own. */
  lemma {:induction false} ItemsInFields(a: Allocator, order: seq<NodeName>, req: Request)
    requires SortedEgressData(a, order)
    ensures forall it | it in Assign(a, order, req).items ::
              && it.node in a && a[it.node].isEgressAssignable && a[it.node].isReady && a[it.node].isReachable
              && (if it.ip.v6 then a[it.node].v6Subnet.Some? && Contains(a[it.node].v6Subnet.value, it.ip)
                  else a[it.node].v4Subnet.Some? && Contains(a[it.node].v4Subnet.value, it.ip))
              && (forall n | n in a :: it.ip !in a[n].allocations)
              && !OwnedByNode(a, Some(it.ip))
  {
    if req != [] {
      var before := req[..|req| - 1];
      ItemsInFields(a, order, before);
    }
  }

  /** A completed pass places nothing if and only if every address requested is carried already, or no ready, reachable,
      assignable node has a subnet that contains it. */
  lemma {:induction false} NothingPlacedIff(a: Allocator, order: seq<NodeName>, req: Request)
    requires Untainted(a) && SortedEgressData(a, order) && Assign(a, order, req).stop == Completed
    ensures Assign(a, order, req).items == [] <==>
              forall k | 0 <= k < |req| && req[k].Some? ::
                || (exists n | n in a :: req[k].value in a[n].allocations)
                || forall n | n in a && a[n].isEgressAssignable && a[n].isReady && a[n].isReachable ::
                     && (a[n].v4Subnet.Some? ==> !Contains(a[n].v4Subnet.value, req[k].value))
                     && (a[n].v6Subnet.Some? ==> !Contains(a[n].v6Subnet.value, req[k].value))
  {
    var items := Assign(a, order, req).items;
    AssignSound(a, order, req);
    if items == [] {
      forall k | 0 <= k < |req| && req[k].Some?
        ensures Allocated(a, req[k].value) || forall n | n in order :: !Hosts(a[n], req[k].value)
      {
        assert Requested(req, req[k].value);
        assert forall n | n in order :: Fits(a, n, items, req[k].value) <==> Hosts(a[n], req[k].value);
      }
    } else {
      assert SoundItem(a, order, req, items[0]);
      var k :| 0 <= k < |req| && req[k] == Some(items[0].ip);
    }
  }

  /** What the caller is told: no assignable node at all, an address that does not parse or is a node's own, whichever
      comes first, or nothing placed; and a retry is filed unless an address was wrong or all were placed. */
  lemma {:induction false} ReportsIff(a: Allocator, order: seq<NodeName>, req: Request)
    requires SortedEgressData(a, order)
    ensures var p := Assign(a, order, req);
            var (err, retry) := Outcome(order, req, p);
            var none := forall n | n in a :: !(a[n].isEgressAssignable && a[n].isReady && a[n].isReachable);
            && (err == NoAssignableNodes <==> none)
            && (!none ==>
                  && (err == AddressOfNode <==>
                        exists k | 0 <= k < |req| :: OwnedByNode(a, req[k]) && forall i | 0 <= i <= k :: req[i].Some?)
                  && (err == InvalidAddress <==>
                        exists k | 0 <= k < |req| :: req[k].None? && forall i | 0 <= i < k :: req[i].Some? && !OwnedByNode(a, req[i]))
                  && (err == NoMatchingHost <==> p.stop == Completed && p.items == []))
            && (retry <==> none || (err != AddressOfNode && err != InvalidAddress && (p.items == [] || |p.items| < |req|)))
  {
    StopsIff(a, order, req);
    if order != [] {
      assert order[0] in order;
    }
  }

  lemma {:induction false} MoreItems(items: seq<Item>, it: Item)
    ensures forall n | Uses(items, n) :: Uses(items + [it], n)
    ensures forall ip | Places(items, ip) :: Places(items + [it], ip)
    ensures Places(items + [it], it.ip)
    ensures DistinctNodes(items) && !Uses(items, it.node) ==> DistinctNodes(items + [it])
  {
    var more := items + [it];
    assert more[|items|] == it && forall i | 0 <= i < |items| :: more[i] == items[i];
  }

  /** Pairwise distinct requested addresses, up to the first text that does not parse. */
  ghost predicate DistinctRequest(req: Request) {
    forall i, j | 0 <= i < j < |req| && ParsedUpTo(req, j) :: req[i] != req[j]
  }

  ghost predicate ParsedUpTo(req: Request, j: nat) {
    j < |req| && forall k | 0 <= k <= j :: req[k].Some?
  }

  lemma {:induction false} DistinctRequestDistinctIPs(a: Allocator, order: seq<NodeName>, req: Request)
    requires DistinctRequest(req)
    ensures DistinctIPs(Assign(a, order, req).items)
  {
    if req == [] {
    } else {
      var before, last := req[..|req| - 1], req[|req| - 1];
      DistinctBefore(req);
      DistinctRequestDistinctIPs(a, order, before);
      var p, q := Assign(a, order, before), Assign(a, order, req);
      if |q.items| > |p.items| {
        NotYetPlaced(a, order, req);
        DistinctMore(p.items, q.items[|p.items|]);
      }
    }
  }

  lemma {:induction false} DistinctBefore(req: Request)
    requires DistinctRequest(req) && req != []
    ensures DistinctRequest(req[..|req| - 1])
  {
    var before := req[..|req| - 1];
    forall i, j | 0 <= i < j < |before| && ParsedUpTo(before, j)
      ensures before[i] != before[j]
    {
      assert ParsedUpTo(req, j);
    }
  }

  lemma {:induction false} DistinctMore(items: seq<Item>, it: Item)
    requires DistinctIPs(items) && !Places(items, it.ip)
    ensures DistinctIPs(items + [it])
  {
  }

  lemma {:induction false} NotYetPlaced(a: Allocator, order: seq<NodeName>, req: Request)
    requires DistinctRequest(req) && req != []
    requires Assign(a, order, req).stop == Completed
    ensures req[|req| - 1].Some?
    ensures !Places(Assign(a, order, req[..|req| - 1]).items, req[|req| - 1].value)
  {
    var before := req[..|req| - 1];
    var items := Assign(a, order, before).items;
    CompletedParsed(a, order, req);
    AssignSound(a, order, before);
    forall i | 0 <= i < |items|
      ensures items[i].ip != req[|req| - 1].value
    {
      assert SoundItem(a, order, before, items[i]);
      var j :| 0 <= j < |before| && before[j] == Some(items[i].ip);
      assert ParsedUpTo(req, |req| - 1);
      assert req[j] != req[|req| - 1];
    }
  }

  lemma {:induction false} CompletedParsed(a: Allocator, order: seq<NodeName>, req: Request)
    requires Assign(a, order, req).stop == Completed
    ensures forall k | 0 <= k < |req| :: req[k].Some?
  {
    if req == [] {
    } else {
      CompletedParsed(a, order, req[..|req| - 1]);
      assert forall k | 0 <= k < |req| - 1 :: req[k] == req[..|req| - 1][k];
    }
  }

  // ----- Half of the best placement

  /** A placement any scheduler could aim for: fresh requested addresses on hosting assignable nodes,
      at most one per node. */
  ghost predicate Feasible(a: Allocator, req: Request, p: map<IP, NodeName>) {
    && (forall ip | ip in p :: Requested(req, ip) && !Allocated(a, ip))
    && (forall ip | ip in p :: p[ip] in a && Assignable(a[p[ip]]) && Hosts(a[p[ip]], ip))
    && forall ip, other | ip in p && other in p && ip != other :: p[ip] != p[other]
  }

  ghost function PlacedIPs(items: seq<Item>): set<IP> {
    set i | 0 <= i < |items| :: items[i].ip
  }

  ghost function UsedNodes(items: seq<Item>): set<NodeName> {
    set i | 0 <= i < |items| :: items[i].node
  }

  lemma {:induction false} PlacedIPsCount(items: seq<Item>)
    ensures |PlacedIPs(items)| <= |items|
    ensures |UsedNodes(items)| <= |items|
  {
    if items == [] {
    } else {
      var before, last := items[..|items| - 1], items[|items| - 1];
      PlacedIPsCount(before);
      assert items == before + [last];
      PlacedMore(before, last);
    }
  }

  lemma {:induction false} PlacedMore(items: seq<Item>, it: Item)
    ensures PlacedIPs(items + [it]) == PlacedIPs(items) + {it.ip}
    ensures UsedNodes(items + [it]) == UsedNodes(items) + {it.node}
  {
    var more := items + [it];
    assert more[|items|] == it && forall i | 0 <= i < |items| :: more[i] == items[i];
  }

  /** An injective map sends a set of keys to at least as many values. */
  lemma {:induction false} InjectiveCount(p: map<IP, NodeName>, keys: set<IP>, values: set<NodeName>)
    requires keys <= p.Keys
    requires forall ip, other | ip in p && other in p && ip != other :: p[ip] != p[other]
    requires forall ip | ip in keys :: p[ip] in values
    ensures |keys| <= |values|
    decreases keys
  {
    if keys == {} {
    } else {
      var ip :| ip in keys;
      InjectiveCount(p, keys - {ip}, values - {p[ip]});
    }
  }

  lemma {:induction false} UnionCount(s: set<IP>, t: set<IP>)
    ensures |s + t| <= |s| + |t|
  {
    assert s + t == s + (t - s);
    assert |s + (t - s)| == |s| + |t - s|;
    SubsetCount(t - s, t);
  }

  lemma {:induction false} SubsetCount(s: set<IP>, t: set<IP>)
    requires s <= t
    ensures |s| <= |t|
  {
    assert t == s + (t - s);
    assert |t| == |s| + |t - s|;
  }

  /** Greedy placement is within a factor of two of every feasible placement. */
  lemma {:induction false} HalfOfBest(a: Allocator, order: seq<NodeName>, req: Request, best: map<IP, NodeName>)
    requires Untainted(a) && SortedEgressData(a, order)
    requires Assign(a, order, req).stop == Completed
    requires Feasible(a, req, best)
    ensures |best| <= 2 * |Assign(a, order, req).items|
  {
    var items := Assign(a, order, req).items;
    AssignSound(a, order, req);
    var placed := set ip | ip in best && ip in PlacedIPs(items);
    var blocked := best.Keys - placed;
    forall ip | ip in blocked
      ensures best[ip] in UsedNodes(items)
    {
      assert Places(items, ip) ==> ip in PlacedIPs(items);
      assert !Fits(a, best[ip], items, ip);
      var i :| 0 <= i < |items| && items[i].node == best[ip];
    }
    InjectiveCount(best, blocked, UsedNodes(items));
    SubsetCount(placed, PlacedIPs(items));
    PlacedIPsCount(items);
    assert best.Keys == placed + blocked;
    UnionCount(placed, blocked);
    assert |best| == |best.Keys|;
  }

  /** The factor is attained: one wide node is taken by the address only the narrow node could spare. */
  lemma {:induction false} FactorTwoIsTight(x: IP, y: IP)
    requires x != y
    ensures exists a, order, best ::
      && Untainted(a) && SortedEgressData(a, order)
      && Assign(a, order, [Some(x), Some(y)]).stop == Completed
      && Feasible(a, [Some(x), Some(y)], best)
      && |best| == 2 * |Assign(a, order, [Some(x), Some(y)]).items| == 2
  {
    var a, order, req := Tight(x), ["wide", "narrow"], [Some(x), Some(y)];
    var best := map[x := "narrow", y := "wide"];
    TightSorted(x);
    TightRun(x, y);
    TightFeasible(x, y);
    assert |best| == 2 && |Assign(a, order, req).items| == 1;
  }

  lemma {:induction false} TightSorted(x: IP)
    ensures Untainted(Tight(x)) && SortedEgressData(Tight(x), ["wide", "narrow"])
  {
    assert "narrow"[0] != "wide"[0];
    TwoNodesSorted(Tight(x), "wide", "narrow");
  }

  lemma {:induction false} TightFeasible(x: IP, y: IP)
    requires x != y
    ensures Feasible(Tight(x), [Some(x), Some(y)], map[x := "narrow", y := "wide"])
    ensures |map[x := "narrow", y := "wide"]| == 2
  {
    var req := [Some(x), Some(y)];
    TightHosts(x, x);
    TightHosts(x, y);
    assert req[0] == Some(x) && req[1] == Some(y);
    assert Requested(req, x) && Requested(req, y);
    assert "narrow"[0] != "wide"[0];
    assert map[x := "narrow", y := "wide"].Keys == {x, y};
  }

  /** Two idle assignable nodes may come back in either order. */
  lemma {:induction false} TwoNodesSorted(a: Allocator, m: NodeName, n: NodeName)
    requires m != n && a.Keys == {m, n}
    requires Assignable(a[m]) && Assignable(a[n]) && a[m].allocations == a[n].allocations == {}
    ensures SortedEgressData(a, [m, n])
  {
    var order := [m, n];
    assert order[0] == m && order[1] == n;
  }

  /** The wide node hosts every address of either family, the narrow one a single address. */
  ghost function Tight(x: IP): Allocator {
    var only4: Option<V4Subnet> := if x.v6 then None else Some(Subnet(false, x.bits, 32));
    var only6: Option<V6Subnet> := if x.v6 then Some(Subnet(true, x.bits, 128)) else None;
    map["wide" := Node(None, None, Some(Subnet(false, 0, 0)), Some(Subnet(true, 0, 0)), {}, true, true, true, false),
        "narrow" := Node(None, None, only4, only6, {}, true, true, true, false)]
  }

  lemma {:induction false} TightHosts(x: IP, other: IP)
    ensures Hosts(Tight(x)["wide"], other)
    ensures Hosts(Tight(x)["narrow"], other) <==> other == x
  {
    SmallQuotient(other.bits, Pow2(Width(other.v6)));
    assert BlockSize(Subnet(other.v6, 0, 0)) == Pow2(Width(other.v6));
    assert BlockSize(Subnet(x.v6, x.bits, Width(x.v6))) == 1;
  }

  lemma {:induction false} TightRun(x: IP, y: IP)
    requires x != y
    ensures Assign(Tight(x), ["wide", "narrow"], [Some(x), Some(y)]) == Placement([Item(x, "wide")], Completed)
  {
    var a, order := Tight(x), ["wide", "narrow"];
    var one: Request, req: Request := [Some(x)], [Some(x), Some(y)];
    var items := [Item(x, "wide")];
    TightHosts(x, x);
    TightHosts(x, y);
    assert !Allocated(a, x) && !Allocated(a, y) && !IsNodeIP(a, x) && !IsNodeIP(a, y);
    assert req[..1] == one && |one[..0]| == 0;
    assert Assign(a, order, one) == Placement(items, Completed);
    assert items[0].node == "wide";
    assert order[1..] == ["narrow"];
    assert FirstFit(a, order, items, y).None?;
  }

  lemma {:induction false} SmallQuotient(n: nat, d: nat)
    requires n < d
    ensures n / d == 0 == 0 / d
  {
  }

  /** "no matching host found" says exactly that nothing could have been placed. */
  lemma {:induction false} NoMatchMeansNoPlacement(a: Allocator, order: seq<NodeName>, req: Request)
    requires Untainted(a) && SortedEgressData(a, order)
    requires order != [] && Assign(a, order, req).stop == Completed
    ensures Outcome(order, req, Assign(a, order, req)).0 == NoMatchingHost
       <==> forall best :: Feasible(a, req, best) ==> best == map[]
  {
    var items := Assign(a, order, req).items;
    AssignSound(a, order, req);
    if items == [] {
      forall best | Feasible(a, req, best)
        ensures best == map[]
      {
        HalfOfBest(a, order, req, best);
      }
    } else {
      var best := map[items[0].ip := items[0].node];
      assert SoundItem(a, order, req, items[0]);
      assert Feasible(a, req, best);
      assert items[0].ip in best;
    }
  }

  // ----- Least loaded

  /** The next item's node carries the least among the hosting assignable nodes this object has not used. */
  ghost predicate LeastLoadedAt(a: Allocator, items: seq<Item>, it: Item) {
    var now := PlaceAll(a, items);
    && it.node in now
    && forall m | m in now && Assignable(now[m]) && Fits(now, m, items, it.ip) ::
         |now[it.node].allocations| <= |now[m].allocations|
  }

  /** Each item sits on a node that was least loaded at the moment it was placed. */
  ghost predicate LeastLoaded(a: Allocator, items: seq<Item>) {
    forall k | 0 <= k < |items| :: LeastLoadedAt(a, items[..k], items[k])
  }

  lemma {:induction false} FirstFitLeast(a: Allocator, order: seq<NodeName>, items: seq<Item>, ip: IP, m: NodeName)
    requires NoDuplicates(order) && (forall n | n in order :: n in a)
    requires forall i, j | 0 <= i < j < |order| :: |a[order[i]].allocations| <= |a[order[j]].allocations|
    requires m in order && Fits(a, m, items, ip)
    ensures var r := FirstFit(a, order, items, ip);
            r.Some? && r.value in a && |a[r.value].allocations| <= |a[m].allocations|
  {
    if !Fits(a, order[0], items, ip) {
      assert forall n | n in order[1..] :: n in order;
      assert m in order[1..];
      FirstFitLeast(a, order[1..], items, ip, m);
    } else {
      var j :| 0 <= j < |order| && order[j] == m;
      assert j == 0 || |a[order[0]].allocations| <= |a[order[j]].allocations|;
    }
  }

  lemma {:induction false} AssignLeastLoaded(a: Allocator, order: seq<NodeName>, req: Request)
    requires SortedEgressData(a, order)
    ensures LeastLoaded(a, Assign(a, order, req).items)
  {
    if req == [] {
    } else {
      var before := req[..|req| - 1];
      AssignLeastLoaded(a, order, before);
      var p, q := Assign(a, order, before).items, Assign(a, order, req).items;
      if |q| > |p| {
        LastLeastLoaded(a, order, req);
        LeastLoadedMore(a, p, q);
      }
    }
  }

  lemma {:induction false} LeastLoadedMore(a: Allocator, p: seq<Item>, q: seq<Item>)
    requires LeastLoaded(a, p) && |q| == |p| + 1 && p == q[..|p|] && LeastLoadedAt(a, p, q[|p|])
    ensures LeastLoaded(a, q)
  {
    forall k | 0 <= k < |q|
      ensures LeastLoadedAt(a, q[..k], q[k])
    {
      if k < |p| {
        assert q[..k] == p[..k] && q[k] == p[k];
      }
    }
  }

  lemma {:induction false} LastLeastLoaded(a: Allocator, order: seq<NodeName>, req: Request)
    requires SortedEgressData(a, order) && req != []
    requires |Assign(a, order, req).items| > |Assign(a, order, req[..|req| - 1]).items|
    ensures var p, q := Assign(a, order, req[..|req| - 1]).items, Assign(a, order, req).items;
            |q| == |p| + 1 && q[..|p|] == p && LeastLoadedAt(a, p, q[|p|])
  {
    var p, q := Assign(a, order, req[..|req| - 1]).items, Assign(a, order, req).items;
    var ip := req[|req| - 1].value;
    var n := FirstFit(a, order, p, ip).value;
    assert q == p + [Item(ip, n)];
    FirstFitLeastNow(a, order, p, ip, n);
  }

  /** The snapshot taken before the loop still shows the load of every node not used since. */
  lemma {:induction false} FirstFitLeastNow(a: Allocator, order: seq<NodeName>, items: seq<Item>, ip: IP, n: NodeName)
    requires SortedEgressData(a, order) && FirstFit(a, order, items, ip) == Some(n)
    ensures var now := PlaceAll(a, items);
            && n in now
            && forall m | m in now && Assignable(now[m]) && Fits(now, m, items, ip) ::
                 |now[n].allocations| <= |now[m].allocations|
  {
    var now := PlaceAll(a, items);
    UnusedUnchanged(a, items, n);
    forall m | m in now && Assignable(now[m]) && Fits(now, m, items, ip)
      ensures |now[n].allocations| <= |now[m].allocations|
    {
      UnusedUnchanged(a, items, m);
      FirstFitLeast(a, order, items, ip, m);
    }
  }

  lemma {:induction false} UnusedUnchanged(a: Allocator, items: seq<Item>, n: NodeName)
    requires n in a && !Uses(items, n)
    ensures PlaceAll(a, items)[n] == a[n]
  {
    assert IPsOn(items, n) == {};
    assert a[n].allocations + {} == a[n].allocations;
  }

  // ----- Release undoes assign

  lemma {:induction false} ReleaseUndoesAssign(a: Allocator, order: seq<NodeName>, req: Request)
    ensures var items := Assign(a, order, req).items;
            ReleaseAll(PlaceAll(a, items), items) == a
  {
    var items := Assign(a, order, req).items;
    AssignSound(a, order, req);
    forall n | n in a
      ensures IPsOn(items, n) !! a[n].allocations
    {
      forall ip | ip in IPsOn(items, n)
        ensures ip !in a[n].allocations
      {
        var i :| 0 <= i < |items| && items[i].node == n && items[i].ip == ip;
        assert SoundItem(a, order, req, items[i]);
      }
    }
    assert forall n | n in a :: a[n].allocations + IPsOn(items, n) - IPsOn(items, n) == a[n].allocations;
  }

  // ----- Why requested addresses must be distinct

  ghost predicate OneNodeEach(a: Allocator) {
    forall m, n, ip | m in a && n in a && ip in a[m].allocations && ip in a[n].allocations :: m == n
  }

  /** An object keeps each address on one node, in every cluster, exactly when its own list is distinct:
      the snapshot of existing allocations is not refreshed between two requests. */
  lemma {:induction false} DistinctIsNecessaryAndSufficient(req: Request)
    ensures DistinctRequest(req) <==>
      forall a, order | OneNodeEach(a) && Untainted(a) && SortedEgressData(a, order) ::
        OneNodeEach(PlaceAll(a, Assign(a, order, req).items))
  {
    if DistinctRequest(req) {
      forall a, order | OneNodeEach(a) && Untainted(a) && SortedEgressData(a, order)
        ensures OneNodeEach(PlaceAll(a, Assign(a, order, req).items))
      {
        PlacedOnce(a, order, req);
      }
    } else {
      var i, j :| 0 <= i < j < |req| && ParsedUpTo(req, j) && req[i] == req[j];
      TwinsCollide(req, i, j);
    }
  }

  lemma {:induction false} TwinsCollide(req: Request, i: nat, j: nat)
    requires i < j < |req| && ParsedUpTo(req, j) && req[i] == req[j]
    ensures var a, order := Twins(req[i].value), ["left", "right"];
            && OneNodeEach(a) && Untainted(a) && SortedEgressData(a, order)
            && !OneNodeEach(PlaceAll(a, Assign(a, order, req).items))
  {
    var ip, order := req[i].value, ["left", "right"];
    var a := Twins(ip);
    TwinsReady(ip);
    TwinsBoth(req, i, j);
    StopKeepsItems(a, order, req, j + 1);
    BothCarry(a, Assign(a, order, req).items, ip, "left", "right");
  }

  lemma {:induction false} TwinsReady(ip: IP)
    ensures var a := Twins(ip);
            OneNodeEach(a) && Untainted(a) && SortedEgressData(a, ["left", "right"]) && "left" != "right"
  {
    assert "left"[0] != "right"[0];
    TwoNodesSorted(Twins(ip), "left", "right");
  }

  lemma {:induction false} TwinsBoth(req: Request, i: nat, j: nat)
    requires i < j < |req| && ParsedUpTo(req, j) && req[i] == req[j]
    ensures var ip := req[i].value;
            Assign(Twins(ip), ["left", "right"], req[..j + 1]).items == [Item(ip, "left"), Item(ip, "right")]
  {
    assert req[..j][i] == req[j];
    TwinsPrefix(req, req[i].value, j + 1);
  }

  lemma {:induction false} BothCarry(a: Allocator, items: seq<Item>, ip: IP, m: NodeName, n: NodeName)
    requires m in a && n in a && m != n && [Item(ip, m), Item(ip, n)] <= items
    ensures !OneNodeEach(PlaceAll(a, items))
  {
    assert items[0] == Item(ip, m) && items[1] == Item(ip, n);
    assert ip in IPsOn(items, m) && ip in IPsOn(items, n);
    var b := PlaceAll(a, items);
    assert ip in b[m].allocations && ip in b[n].allocations;
  }

  lemma {:induction false} PlacedOnce(a: Allocator, order: seq<NodeName>, req: Request)
    requires DistinctRequest(req) && OneNodeEach(a)
    ensures OneNodeEach(PlaceAll(a, Assign(a, order, req).items))
  {
    var items := Assign(a, order, req).items;
    var b := PlaceAll(a, items);
    AssignSound(a, order, req);
    DistinctRequestDistinctIPs(a, order, req);
    forall m, n, ip | m in b && n in b && ip in b[m].allocations && ip in b[n].allocations
      ensures m == n
    {
      if ip in IPsOn(items, m) {
        var i :| 0 <= i < |items| && items[i] == Item(ip, m);
        assert SoundItem(a, order, req, items[i]);
      }
      if ip in IPsOn(items, n) {
        var i :| 0 <= i < |items| && items[i] == Item(ip, n);
        assert SoundItem(a, order, req, items[i]);
      }
    }
  }

  /** Two idle nodes that can host one address and nothing else. */
  ghost function Twins(ip: IP): Allocator {
    var n := if ip.v6
      then Node(None, None, None, Some(Subnet(true, ip.bits, 128)), {}, true, true, true, false)
      else Node(None, None, Some(Subnet(false, ip.bits, 32)), None, {}, true, true, true, false);
    map["left" := n, "right" := n]
  }

  lemma {:induction false} TwinsHost(ip: IP, other: IP, name: NodeName)
    requires name == "left" || name == "right"
    ensures Hosts(Twins(ip)[name], other) <==> other == ip
  {
    assert forall n: nat :: n / 1 == n;
  }

  lemma {:induction false} TwinsFit(ip: IP, items: seq<Item>, x: IP)
    requires items == [] || items == [Item(ip, "left")] || items == [Item(ip, "left"), Item(ip, "right")]
    ensures FirstFit(Twins(ip), ["left", "right"], items, x)
         == if x != ip || |items| == 2 then None else if |items| == 0 then Some("left") else Some("right")
  {
    TwinsHost(ip, x, "left");
    TwinsHost(ip, x, "right");
    var order := ["left", "right"];
    assert order[1..] == ["right"] && "left"[0] != "right"[0];
    if items != [] {
      assert items[0].node == "left";
    }
    if |items| == 2 {
      assert items[1].node == "right";
    }
  }

  lemma {:induction false} TwinsPrefix(req: Request, ip: IP, k: nat)
    requires k <= |req| && forall i | 0 <= i < k :: req[i].Some?
    ensures var p := Assign(Twins(ip), ["left", "right"], req[..k]);
            && p.stop == Completed
            && (p.items == [] || p.items == [Item(ip, "left")] || p.items == [Item(ip, "left"), Item(ip, "right")])
            && (Some(ip) in req[..k] ==> p.items != [])
            && (k > 0 && req[k - 1] == Some(ip) && Some(ip) in req[..k - 1] ==> |p.items| == 2)
  {
    if k > 0 {
      TwinsPrefix(req, ip, k - 1);
      TwinsStep(ip, req[..k - 1], req[k - 1].value);
      assert req[..k] == req[..k - 1] + [req[k - 1]];
    }
  }

  lemma {:induction false} TwinsStep(ip: IP, before: Request, x: IP)
    requires var p := Assign(Twins(ip), ["left", "right"], before);
             p.stop == Completed
             && (p.items == [] || p.items == [Item(ip, "left")] || p.items == [Item(ip, "left"), Item(ip, "right")])
    ensures var p, q := Assign(Twins(ip), ["left", "right"], before), Assign(Twins(ip), ["left", "right"], before + [Some(x)]);
            && q.stop == Completed
            && q.items == if x != ip || |p.items| == 2 then p.items
                          else if p.items == [] then [Item(ip, "left")] else [Item(ip, "left"), Item(ip, "right")]
  {
    var a, req := Twins(ip), before + [Some(x)];
    assert req[..|req| - 1] == before;
    TwinsFit(ip, Assign(a, ["left", "right"], before).items, x);
    assert !Allocated(a, x) && !IsNodeIP(a, x);
  }

  lemma {:induction false} StopKeepsItems(a: Allocator, order: seq<NodeName>, req: Request, k: nat)
    requires k <= |req|
    ensures Assign(a, order, req[..k]).items <= Assign(a, order, req).items
    decreases |req|
  {
    if k == |req| {
      assert req[..k] == req;
    } else {
      StopKeepsItems(a, order, req[..|req| - 1], k);
      assert req[..|req| - 1][..k] == req[..k];
    }
  }
}
