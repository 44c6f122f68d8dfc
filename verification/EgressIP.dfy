/** The allocator of pkg/ovn/egressip.go as it runs: node entries updated in place, taints on copies. */
module EgressIP {
  import opened Wrappers
  import opened Cidr
  import opened EgressIPSpec
  import opened EgressIPRuns
  import opened EgressIPStartup

  class EgressNode {
    const v4IP: Option<IP>
    const v6IP: Option<IP>
    const v4Subnet: Option<V4Subnet>
    const v6Subnet: Option<V6Subnet>
    var allocations: set<IP>
    var isReady: bool
    var isReachable: bool
    var isEgressAssignable: bool
    var tainted: bool

    constructor (v4IP: Option<IP>, v6IP: Option<IP>, v4Subnet: Option<V4Subnet>, v6Subnet: Option<V6Subnet>)
      ensures Value() == Node(v4IP, v6IP, v4Subnet, v6Subnet, {}, false, false, false, false)
    {
      this.v4IP, this.v6IP, this.v4Subnet, this.v6Subnet := v4IP, v6IP, v4Subnet, v6Subnet;
      allocations, isReady, isReachable, isEgressAssignable, tainted := {}, false, false, false, false;
    }

    /** The family of the address picks the subnet to look in. */
    method HostsStatus(ip: IP) returns (ok: bool)
      ensures ok == Hosts(Value(), ip)
    {
      if ip.v6 && v6Subnet.Some? {
        return Contains(v6Subnet.value, ip);
      } else if !ip.v6 && v4Subnet.Some? {
        return Contains(v4Subnet.value, ip);
      }
      return false;
    }

    function Value(): Node
      reads this
    {
      Node(v4IP, v6IP, v4Subnet, v6Subnet, allocations, isReady, isReachable, isEgressAssignable, tainted)
    }
  }

  /** What a node's annotation says: it cannot be read, an address in it does not parse, or its addresses. */
  datatype Annotation =
    | Unreadable
    | BadAddress
    | Addresses(v4IP: Option<IP>, v6IP: Option<IP>, v4Subnet: Option<V4Subnet>, v6Subnet: Option<V6Subnet>)

  function Blank(n: Annotation): Node
    requires n.Addresses?
  {
    Node(n.v4IP, n.v6IP, n.v4Subnet, n.v6Subnet, {}, false, false, false, false)
  }

  /** The struct copies the assignment loop walks over; only the copies are tainted by it. */
  datatype NodeCopy = NodeCopy(name: NodeName, node: Node)

  class EgressIPObject {
    const name: ObjectName
    const request: Request
    var items: seq<Item>

    constructor (name: ObjectName, request: Request)
      ensures this.name == name && this.request == request && items == []
    {
      this.name, this.request, items := name, request, [];
    }
  }

  /** The copies the loop holds after placing items: taken from a, in order, used ones tainted. */
  ghost predicate CopiesMatch(a: Allocator, order: seq<NodeName>, items: seq<Item>, nodes: seq<NodeCopy>) {
    && |nodes| == |order| && NoDuplicates(order)
    && forall i | 0 <= i < |nodes| ::
         && nodes[i].name == order[i] && order[i] in a
         && nodes[i].node == a[order[i]].(tainted := a[order[i]].tainted || Uses(items, order[i]))
  }

  ghost function Names(nodes: seq<NodeCopy>): seq<NodeName> {
    seq(|nodes|, i requires 0 <= i < |nodes| => nodes[i].name)
  }

  /** Stands for sort.Slice: any arrangement by load of the same copies. */
  method SortByLoad(nodes: seq<NodeCopy>) returns (r: seq<NodeCopy>)
    requires NoDuplicates(Names(nodes))
    ensures NoDuplicates(Names(r))
    ensures forall c :: c in r <==> c in nodes
    ensures forall i, j | 0 <= i < j < |r| :: |r[i].node.allocations| <= |r[j].node.allocations|
  {
    r := [];
    for i := 0 to |nodes|
      invariant forall c :: c in r <==> c in nodes[..i]
      invariant LoadSorted(r)
    {
      var c := nodes[i];
      forall k | 0 <= k < |r|
        ensures r[k].name != c.name
      {
        assert r[k] in nodes[..i];
        var l :| 0 <= l < i && nodes[l] == r[k];
        assert Names(nodes)[l] != Names(nodes)[i];
      }
      var j := |r|;
      while j > 0 && |r[j - 1].node.allocations| > |c.node.allocations|
        invariant 0 <= j <= |r|
        invariant forall k | j <= k < |r| :: |c.node.allocations| <= |r[k].node.allocations|
      {
        j := j - 1;
      }
      InsertKeeps(r, j, c);
      InsertAdds(r, j, c);
      r := r[..j] + [c] + r[j..];
      assert nodes[..i + 1] == nodes[..i] + [c];
    }
    assert nodes[..|nodes|] == nodes;
  }

  /** By load, no name twice. */
  ghost predicate LoadSorted(r: seq<NodeCopy>) {
    && (forall k, l | 0 <= k < l < |r| :: r[k].name != r[l].name)
    && forall k, l | 0 <= k < l < |r| :: |r[k].node.allocations| <= |r[l].node.allocations|
  }

  lemma {:induction false} InsertKeeps(r: seq<NodeCopy>, j: nat, c: NodeCopy)
    requires LoadSorted(r) && j <= |r|
    requires forall k | 0 <= k < |r| :: r[k].name != c.name
    requires forall k | j <= k < |r| :: |c.node.allocations| <= |r[k].node.allocations|
    requires j > 0 ==> |r[j - 1].node.allocations| <= |c.node.allocations|
    ensures LoadSorted(r[..j] + [c] + r[j..])
  {
    var t := r[..j] + [c] + r[j..];
    forall k, l | 0 <= k < l < |t|
      ensures t[k].name != t[l].name && |t[k].node.allocations| <= |t[l].node.allocations|
    {
      if k == j {
        assert t[l] == r[l - 1];
      } else if l == j {
        assert t[k] == r[k];
        assert k == j - 1 || |r[k].node.allocations| <= |r[j - 1].node.allocations|;
      } else {
        assert t[k] == r[if k < j then k else k - 1] && t[l] == r[if l < j then l else l - 1];
      }
    }
  }

  lemma {:induction false} InsertAdds(r: seq<NodeCopy>, j: nat, c: NodeCopy)
    requires j <= |r|
    ensures forall d :: d in r[..j] + [c] + r[j..] <==> d in r || d == c
  {
    assert r == r[..j] + r[j..];
  }

  class Controller {
    var allocator: map<NodeName, EgressNode>
    var assignmentRetry: set<ObjectName>

    ghost predicate Valid()
      reads this`allocator
    {
      forall m, n | m in allocator && n in allocator && m != n :: allocator[m] != allocator[n]
    }

    /** The allocator as a value. */
    ghost function Nodes(): Allocator
      reads this`allocator, allocator.Values
    {
      map n | n in allocator :: allocator[n].Value()
    }

    /** The same, entry by entry. */
    ghost predicate Is(b: Allocator)
      reads this`allocator, allocator.Values
    {
      && (forall n :: n in allocator <==> n in b)
      && forall n | n in b :: allocator[n].Value() == b[n]
    }

    lemma {:induction false} IsNodes(b: Allocator)
      ensures Is(b) <==> Nodes() == b
    {
      assert Nodes().Keys == allocator.Keys;
      if Is(b) {
        assert forall n | n in b :: Nodes()[n] == b[n];
      }
    }

    twostate lemma StillNodes()
      requires allocator == old(allocator) && forall n | n in allocator :: allocator[n].Value() == old(allocator[n].Value())
      ensures Nodes() == old(Nodes())
    {
    }

    constructor ()
      ensures Valid() && Nodes() == map[] && assignmentRetry == {}
    {
      allocator, assignmentRetry := map[], {};
    }

    /** Writes one node's mark; every other entry is as it was. */
    method SetTainted(n: NodeName, value: bool, ghost b: Allocator)
      requires Valid() && n in allocator && Is(b)
      modifies allocator.Values
      ensures Valid() && Is(b[n := b[n].(tainted := value)])
    {
      allocator[n].tainted := value;
    }

    /** Writes one node's allocations; every other entry is as it was. */
    method SetAllocations(n: NodeName, value: set<IP>, ghost b: Allocator)
      requires Valid() && n in allocator && Is(b)
      modifies allocator.Values
      ensures Valid() && Is(b[n := b[n].(allocations := value)])
    {
      allocator[n].allocations := value;
    }

    /** A new node with a usable annotation starts without allocations; an address that does not parse is an
        error, and an annotation that cannot be read only keeps the node out. */
    method InitEgressIPAllocator(name: NodeName, annotation: Annotation) returns (ok: bool)
      requires Valid()
      modifies this`allocator
      ensures Valid()
      ensures ok <==> name in old(allocator) || !annotation.BadAddress?
      ensures !annotation.Addresses? ==> Nodes() == old(Nodes())
      ensures annotation.Addresses? ==>
                var blank := Blank(annotation);
                forall objects ::
                  && Enabled(State(old(Nodes()), objects), InitNode(name, blank))
                  && State(Nodes(), objects) == Apply(State(old(Nodes()), objects), InitNode(name, blank))
      ensures annotation.Addresses? && name !in old(allocator) ==>
                && name in Nodes() && var n := Nodes()[name];
                && n.v4IP == annotation.v4IP && n.v6IP == annotation.v6IP
                && n.v4Subnet == annotation.v4Subnet && n.v6Subnet == annotation.v6Subnet
                && n.allocations == {} && !n.isReady && !n.isReachable && !n.isEgressAssignable && !n.tainted
    {
      if name in allocator {
        return true;
      }
      match annotation {
        case Unreadable => return true;
        case BadAddress => return false;
        case Addresses(v4IP, v6IP, v4Subnet, v6Subnet) =>
          var n := new EgressNode(v4IP, v6IP, v4Subnet, v6Subnet);
          allocator := allocator[name := n];
          return true;
      }
    }

    /** Writes one flag of one node; every other entry is as it was. */
    method SetFlagOf(name: NodeName, flag: NodeFlag, value: bool, ghost b: Allocator)
      requires Valid() && name in allocator && Is(b)
      modifies allocator.Values
      ensures Valid() && Is(b[name := WithFlag(b[name], flag, value)])
    {
      match flag {
        case AssignableFlag => allocator[name].isEgressAssignable := value;
        case ReadyFlag => allocator[name].isReady := value;
        case ReachableFlag => allocator[name].isReachable := value;
      }
    }

    /** The flag named gets the value; the node's other fields, the other nodes and unknown names stay as they are. */
    method SetNodeEgressFlag(name: NodeName, flag: NodeFlag, value: bool)
      requires Valid()
      modifies allocator.Values
      ensures Valid() && Nodes().Keys == old(Nodes()).Keys
      ensures forall n | n in old(Nodes()) && n != name :: Nodes()[n] == old(Nodes())[n]
      ensures name in allocator ==>
                var was := old(Nodes())[name];
                Nodes()[name] == match flag
                                 case AssignableFlag => was.(isEgressAssignable := value)
                                 case ReadyFlag => was.(isReady := value)
                                 case ReachableFlag => was.(isReachable := value)
      ensures forall objects ::
                State(Nodes(), objects) == Apply(State(old(Nodes()), objects), SetFlag(name, flag, value))
    {
      ghost var a := Nodes();
      IsNodes(a);
      if name in allocator {
        SetFlagOf(name, flag, value, a);
        IsNodes(a[name := WithFlag(a[name], flag, value)]);
      }
    }

    method IsAnyClusterNodeIP(ip: IP) returns (found: bool)
      ensures found <==> exists n | n in allocator :: allocator[n].v4IP == Some(ip) || allocator[n].v6IP == Some(ip)
      ensures found == IsNodeIP(Nodes(), ip)
    {
      var todo := allocator.Keys;
      while todo != {}
        invariant todo <= allocator.Keys
        invariant forall n | n in allocator && n !in todo ::
                    allocator[n].v6IP != Some(ip) && allocator[n].v4IP != Some(ip)
      {
        var n :| n in todo;
        if allocator[n].v6IP == Some(ip) || allocator[n].v4IP == Some(ip) {
          assert Nodes()[n].v6IP == Some(ip) || Nodes()[n].v4IP == Some(ip);
          return true;
        }
        todo := todo - {n};
      }
      return false;
    }

    method GetSortedEgressData() returns (assignable: seq<NodeCopy>, existing: set<IP>)
      requires Valid()
      ensures SortedEgressData(Nodes(), Names(assignable))
      ensures forall c | c in assignable :: c.name in Nodes() && c.node == Nodes()[c.name]
      ensures forall ip :: ip in existing <==> Allocated(Nodes(), ip)
    {
      assignable, existing := [], {};
      var todo := allocator.Keys;
      while todo != {}
        invariant todo <= allocator.Keys
        invariant forall k, l | 0 <= k < l < |assignable| :: assignable[k].name != assignable[l].name
        invariant forall c | c in assignable :: c.name in allocator && c.name !in todo
        invariant forall c | c in assignable :: c.node == allocator[c.name].Value() && Assignable(c.node)
        invariant forall n | n in allocator && n !in todo && Assignable(allocator[n].Value()) ::
                    NodeCopy(n, allocator[n].Value()) in assignable
        invariant forall ip :: ip in existing <==> exists n | n in allocator && n !in todo :: ip in allocator[n].allocations
      {
        var n :| n in todo;
        var eNode := allocator[n];
        if eNode.isEgressAssignable && eNode.isReady && eNode.isReachable {
          assignable := assignable + [NodeCopy(n, eNode.Value())];
        }
        existing := existing + eNode.allocations;
        todo := todo - {n};
      }
      forall ip
        ensures ip in existing <==> Allocated(Nodes(), ip)
      {
        assert forall n | n in allocator :: Nodes()[n].allocations == allocator[n].allocations;
      }
      ghost var unsorted := assignable;
      assignable := SortByLoad(assignable);
      SortedNames(Nodes(), unsorted, assignable);
    }

    /** The walk over the sorted node copies for one requested address. */
    method TryNodes(ip: IP, nodes: seq<NodeCopy>, existing: set<IP>, items: seq<Item>,
                    ghost a: Allocator, ghost order: seq<NodeName>)
      returns (after: seq<NodeCopy>, more: seq<Item>)
      requires Valid()
      requires CopiesMatch(a, order, items, nodes) && Is(PlaceAll(a, items))
      requires ip in existing <==> Allocated(a, ip)
      modifies allocator.Values
      ensures Valid()
      ensures more == if Allocated(a, ip) then items
                      else match FirstFit(a, order, items, ip)
                           case None => items
                           case Some(n) => items + [Item(ip, n)]
      ensures CopiesMatch(a, order, more, after) && Is(PlaceAll(a, more))
    {
      for i := 0 to |nodes|
        invariant ip in existing ==> i == 0
        invariant FirstFit(a, order, items, ip) == FirstFit(a, order[i..], items, ip)
        invariant Is(PlaceAll(a, items))
      {
        if ip in existing {
          return nodes, items;
        }
        var c := nodes[i];
        FirstFitStep(a, order, items, nodes, i, ip);
        if c.node.tainted {
          continue;
        }
        if (c.node.v6Subnet.Some? && Contains(c.node.v6Subnet.value, ip))
           || (c.node.v4Subnet.Some? && Contains(c.node.v4Subnet.value, ip)) {
          after := nodes[i := c.(node := c.node.(tainted := true))];
          more := items + [Item(ip, c.name)];
          SetAllocations(c.name, allocator[c.name].allocations + {ip}, PlaceAll(a, items));
          OnePlaced(a, items, Item(ip, c.name));
          CopiesAfter(a, order, items, nodes, i, ip);
          return;
        }
      }
      assert order[|nodes|..] == [];
      return nodes, items;
    }

    /** The loop over the requested addresses. */
    method PlaceRequest(request: Request, nodes: seq<NodeCopy>, existing: set<IP>,
                        ghost a: Allocator, ghost order: seq<NodeName>)
      returns (items: seq<Item>, stop: Stop)
      requires Valid() && Is(a) && CopiesMatch(a, order, [], nodes)
      requires forall ip :: ip in existing <==> Allocated(a, ip)
      modifies allocator.Values
      ensures Valid() && Placement(items, stop) == Assign(a, order, request) && Is(PlaceAll(a, items))
    {
      items := [];
      var copies := nodes;
      NothingPlaced(a);
      for k := 0 to |request|
        invariant CopiesMatch(a, order, items, copies) && Is(PlaceAll(a, items))
        invariant Assign(a, order, request[..k]) == Placement(items, Completed)
      {
        var text := request[k];
        assert request[..k + 1][..k] == request[..k];
        AssignStopped(a, order, request, k + 1);
        if text.None? {
          return items, BadText;
        }
        SameNodeIPs(a, items, text.value);
        IsNodes(PlaceAll(a, items));
        var isNode := IsAnyClusterNodeIP(text.value);
        if isNode {
          return items, NodeAddress;
        }
        copies, items := TryNodes(text.value, copies, existing, items, a, order);
      }
      assert request[..|request|] == request;
      return items, Completed;
    }

    /** One assignment under the allocator lock; nothing is tried when no node is assignable. */
    method PlaceObject(request: Request, ghost a: Allocator)
      returns (any: bool, items: seq<Item>, stop: Stop, ghost order: seq<NodeName>)
      requires Valid() && Is(a)
      modifies allocator.Values
      ensures Valid()
      ensures SortedEgressData(a, order) && (any <==> order != [])
      ensures any ==> Placement(items, stop) == Assign(a, order, request)
      ensures !any ==> items == []
      ensures Is(PlaceAll(a, items))
    {
      IsNodes(a);
      var assignable, existing := GetSortedEgressData();
      order := Names(assignable);
      NothingPlaced(a);
      if |assignable| == 0 {
        return false, [], Completed, order;
      }
      CopiesMatchAtStart(a, assignable);
      items, stop := PlaceRequest(request, assignable, existing, a, order);
      any := true;
    }

    /** Places what it can and records it in the status on every exit. */
    method AssignEgressIPs(eIP: EgressIPObject)
      returns (err: AssignError, ghost order: seq<NodeName>, ghost p: Placement)
      requires Valid()
      modifies this`assignmentRetry, allocator.Values, eIP
      ensures Valid()
      ensures SortedEgressData(old(Nodes()), order) && p == Assign(old(Nodes()), order, eIP.request)
      ensures eIP.items == if order == [] then [] else p.items
      ensures Nodes() == PlaceAll(old(Nodes()), eIP.items)
      ensures err == Outcome(order, eIP.request, p).0
      ensures assignmentRetry
           == old(assignmentRetry) + (if Outcome(order, eIP.request, p).1 then {eIP.name} else {})
    {
      ghost var a := Nodes();
      IsNodes(a);
      var any, items, stop, retry;
      any, items, stop, order := PlaceObject(eIP.request, a);
      IsNodes(PlaceAll(a, items));
      p := Assign(a, order, eIP.request);
      err, retry := OutcomeOf(any, |eIP.request|, items, stop);
      label Placed:
      eIP.items := items;
      if retry {
        assignmentRetry := assignmentRetry + {eIP.name};
      }
      StillNodes@Placed();
    }

    /** The early exits report their error only; a missing or partial placement is filed for a retry. */
    method OutcomeOf(any: bool, requested: nat, items: seq<Item>, stop: Stop) returns (err: AssignError, retry: bool)
      ensures (err, retry)
           == if !any then (NoAssignableNodes, true)
              else match stop
                case BadText => (InvalidAddress, false)
                case NodeAddress => (AddressOfNode, false)
                case Completed => if items == [] then (NoMatchingHost, true) else (NoError, |items| < requested)
    {
      if !any {
        return NoAssignableNodes, true;
      }
      match stop {
        case BadText => return InvalidAddress, false;
        case NodeAddress => return AddressOfNode, false;
        case Completed =>
          if |items| == 0 {
            return NoMatchingHost, true;
          }
          return NoError, |items| < requested;
      }
    }

    method ReleaseItem(status: Item, ghost a: map<NodeName, Node>, ghost done: seq<Item>)
      requires Valid() && Is(ReleaseAll(a, done))
      modifies allocator.Values
      ensures Valid() && Is(ReleaseAll(a, done + [status]))
    {
      OneReleased(a, done, status);
      if status.node in allocator {
        SetAllocations(status.node, allocator[status.node].allocations - {status.ip}, ReleaseAll(a, done));
      }
    }

    method ReleaseEgressIPs(eIP: EgressIPObject)
      requires Valid()
      modifies allocator.Values
      ensures Valid()
      ensures Nodes() == ReleaseAll(old(Nodes()), eIP.items)
    {
      ghost var a, items := Nodes(), eIP.items;
      NothingPlaced(a);
      IsNodes(a);
      for i := 0 to |eIP.items|
        invariant eIP.items == items
        invariant Is(ReleaseAll(a, items[..i]))
      {
        assert items[..i + 1] == items[..i] + [eIP.items[i]];
        ReleaseItem(eIP.items[i], a, items[..i]);
      }
      assert items[..|items|] == items;
      IsNodes(ReleaseAll(a, items));
    }

    /** The walk over one recorded status; sound items mark their node. */
    method ScanStatus(entries: seq<StatusEntry>, ghost a: Allocator, ghost marks: set<NodeName>) returns (valid: bool)
      requires Valid() && marks <= a.Keys && Is(Marked(a, marks))
      modifies allocator.Values
      ensures Valid()
      ensures valid <==> Scan(a, marks, entries).0 && entries != []
      ensures Scan(a, marks, entries).1 <= a.Keys && Is(Marked(a, Scan(a, marks, entries).1))
    {
      valid := false;
      ghost var now := marks;
      for j := 0 to |entries|
        invariant valid <==> j > 0
        invariant now <= a.Keys && Is(Marked(a, now))
        invariant Scan(a, marks, entries) == Scan(a, now, entries[j..])
      {
        var e := entries[j];
        assert entries[j..][0] == e && entries[j..][1..] == entries[j + 1..];
        valid := ScanEntry(e, a, now);
        if !valid {
          return;
        }
        now := now + {e.node};
      }
    }

    /** One entry of a status: its node is known and not marked yet, its address parses, is no node's own,
        and lies in the node's subnet; the node is marked. */
    method ScanEntry(e: StatusEntry, ghost a: Allocator, ghost marks: set<NodeName>) returns (valid: bool)
      requires Valid() && marks <= a.Keys && Is(Marked(a, marks))
      modifies allocator.Values
      ensures Valid()
      ensures valid <==> e.node !in marks && EntryHolds(a, e)
      ensures valid ==> e.node in a && Is(Marked(a, marks + {e.node}))
      ensures !valid ==> Is(Marked(a, marks))
    {
      if e.node !in allocator || allocator[e.node].tainted || e.ip.None? {
        return false;
      }
      SameMarkedIPs(a, marks, e.ip.value);
      IsNodes(Marked(a, marks));
      var isNode := IsAnyClusterNodeIP(e.ip.value);
      if isNode {
        return false;
      }
      valid := allocator[e.node].HostsStatus(e.ip.value);
      if valid {
        SetTainted(e.node, true, Marked(a, marks));
        OneMarked(a, marks, e.node, true);
      }
    }

    method ClearTaints(ghost a: Allocator, ghost marks: set<NodeName>)
      requires Valid() && Is(Marked(a, marks))
      modifies allocator.Values
      ensures Valid() && Is(Marked(a, {}))
    {
      var todo := allocator.Keys;
      while todo != {}
        invariant todo <= allocator.Keys
        invariant Is(Marked(a, marks * todo))
      {
        var n :| n in todo;
        SetTainted(n, false, Marked(a, marks * todo));
        OneMarked(a, marks * todo, n, false);
        assert marks * todo - {n} == marks * (todo - {n});
        todo := todo - {n};
      }
    }

    /** Start-up pass: which recorded statuses are kept. The marks are cleared only when the API works. */
    method SyncEgressIPs(rs: seq<Recorded>) returns (verdicts: seq<bool>)
      requires Valid()
      modifies allocator.Values
      ensures Valid()
      ensures var a, marks := old(Nodes()), set n | n in old(Nodes()) && old(Nodes())[n].tainted;
              verdicts == Sync(a, marks, rs).0 && Nodes() == Marked(a, Sync(a, marks, rs).1)
    {
      verdicts := [];
      ghost var a := Nodes();
      ghost var marks := set n | n in a && a[n].tainted;
      assert a == Marked(a, marks);
      IsNodes(a);
      for i := 0 to |rs|
        invariant Sync(a, marks, rs[..i]).0 == verdicts
        invariant Is(Marked(a, Sync(a, marks, rs[..i]).1))
        invariant Sync(a, marks, rs[..i]).1 <= a.Keys
      {
        ghost var start := Sync(a, marks, rs[..i]).1;
        assert rs[..i + 1][..i] == rs[..i];
        var valid := ScanStatus(rs[i].entries, a, start);
        verdicts := verdicts + [valid];
        if !valid && rs[i].api != ApiWorks {
          continue;
        }
        ClearTaints(a, Scan(a, start, rs[i].entries).1);
      }
      assert rs[..|rs|] == rs;
      IsNodes(Marked(a, Sync(a, marks, rs).1));
    }
  }

  // ----- Facts the loops use

  lemma {:induction false} SortedNames(a: Allocator, nodes: seq<NodeCopy>, sorted: seq<NodeCopy>)
    requires forall c :: c in sorted <==> c in nodes
    requires NoDuplicates(Names(sorted))
    requires forall i, j | 0 <= i < j < |sorted| :: |sorted[i].node.allocations| <= |sorted[j].node.allocations|
    requires forall c | c in nodes :: c.name in a && c.node == a[c.name] && Assignable(c.node)
    requires forall n | n in a && Assignable(a[n]) :: NodeCopy(n, a[n]) in nodes
    ensures SortedEgressData(a, Names(sorted))
  {
    var order := Names(sorted);
    forall n
      ensures n in order <==> n in a && Assignable(a[n])
    {
      if n in order {
        var i :| 0 <= i < |order| && order[i] == n;
        assert sorted[i] in nodes;
      }
      if n in a && Assignable(a[n]) {
        var i :| 0 <= i < |sorted| && sorted[i] == NodeCopy(n, a[n]);
        assert order[i] == n;
      }
    }
    forall i, j | 0 <= i < j < |order|
      ensures |a[order[i]].allocations| <= |a[order[j]].allocations|
    {
      assert sorted[i] in nodes && sorted[j] in nodes;
    }
  }

  lemma {:induction false} CopiesMatchAtStart(a: Allocator, nodes: seq<NodeCopy>)
    requires forall c | c in nodes :: c.name in a && c.node == a[c.name]
    requires NoDuplicates(Names(nodes))
    ensures CopiesMatch(a, Names(nodes), [], nodes)
  {
    forall i | 0 <= i < |nodes|
      ensures nodes[i].name in a && nodes[i].node == a[nodes[i].name]
    {
      assert nodes[i] in nodes;
    }
  }

  /** One copy of the walk: either it takes the address or the search goes on behind it. */
  lemma {:induction false} FirstFitStep(a: Allocator, order: seq<NodeName>, items: seq<Item>, nodes: seq<NodeCopy>, i: nat, ip: IP)
    requires CopiesMatch(a, order, items, nodes) && i < |nodes|
    ensures FirstFit(a, order[i..], items, ip)
         == if !nodes[i].node.tainted && Hosts(nodes[i].node, ip)
            then Some(nodes[i].name) else FirstFit(a, order[i + 1..], items, ip)
    ensures nodes[i].name in a
  {
    assert order[i..][0] == nodes[i].name && order[i..][1..] == order[i + 1..];
  }

  lemma {:induction false} CopiesAfter(a: Allocator, order: seq<NodeName>, items: seq<Item>, nodes: seq<NodeCopy>, i: nat, ip: IP)
    requires CopiesMatch(a, order, items, nodes) && i < |nodes|
    ensures var c := nodes[i];
            CopiesMatch(a, order, items + [Item(ip, c.name)], nodes[i := c.(node := c.node.(tainted := true))])
  {
    UsesMore(items, Item(ip, nodes[i].name));
  }

  lemma {:induction false} NothingPlaced(a: Allocator)
    ensures PlaceAll(a, []) == a && ReleaseAll(a, []) == a
  {
    forall n | n in a
      ensures PlaceAll(a, [])[n] == a[n] && ReleaseAll(a, [])[n] == a[n]
    {
      assert a[n].allocations + IPsOn([], n) == a[n].allocations == a[n].allocations - IPsOn([], n);
    }
  }

  lemma {:induction false} IPsOnMore(items: seq<Item>, it: Item, n: NodeName)
    ensures IPsOn(items + [it], n) == IPsOn(items, n) + (if n == it.node then {it.ip} else {})
  {
    var more := items + [it];
    assert forall i | 0 <= i < |items| :: more[i] == items[i];
    forall ip
      ensures ip in IPsOn(more, n) <==> ip in IPsOn(items, n) || (n == it.node && ip == it.ip)
    {
      IPsOnIff(more, n, ip);
      IPsOnIff(items, n, ip);
    }
  }

  lemma {:induction false} OnePlaced(a: Allocator, items: seq<Item>, it: Item)
    requires it.node in a
    ensures var b := PlaceAll(a, items);
            PlaceAll(a, items + [it]) == b[it.node := b[it.node].(allocations := b[it.node].allocations + {it.ip})]
  {
    var b, c := PlaceAll(a, items), PlaceAll(a, items + [it]);
    forall n | n in a
      ensures c[n] == if n == it.node then b[n].(allocations := b[n].allocations + {it.ip}) else b[n]
    {
      IPsOnMore(items, it, n);
      assert c[n].allocations == b[n].allocations + (if n == it.node then {it.ip} else {});
    }
  }

  lemma {:induction false} OneReleased(a: Allocator, items: seq<Item>, it: Item)
    ensures ReleaseAll(a, items + [it])
         == (var b := ReleaseAll(a, items);
             if it.node in b then b[it.node := b[it.node].(allocations := b[it.node].allocations - {it.ip})] else b)
  {
    var b, c := ReleaseAll(a, items), ReleaseAll(a, items + [it]);
    forall n | n in a
      ensures c[n] == if n == it.node then b[n].(allocations := b[n].allocations - {it.ip}) else b[n]
    {
      IPsOnMore(items, it, n);
      assert c[n].allocations == b[n].allocations - (if n == it.node then {it.ip} else {});
    }
  }

  lemma {:induction false} UsesMore(items: seq<Item>, it: Item)
    ensures forall n :: Uses(items + [it], n) <==> Uses(items, n) || n == it.node
  {
    var more := items + [it];
    assert more[|items|] == it && forall i | 0 <= i < |items| :: more[i] == items[i];
  }

  lemma {:induction false} SameNodeIPs(a: Allocator, items: seq<Item>, ip: IP)
    ensures IsNodeIP(PlaceAll(a, items), ip) <==> IsNodeIP(a, ip)
  {
    var b := PlaceAll(a, items);
    assert forall n | n in a :: b[n].v6IP == a[n].v6IP && b[n].v4IP == a[n].v4IP;
  }

  lemma {:induction false} OneMarked(a: Allocator, marks: set<NodeName>, n: NodeName, value: bool)
    requires n in a
    ensures var b := Marked(a, marks);
            b[n := b[n].(tainted := value)] == Marked(a, if value then marks + {n} else marks - {n})
  {
  }

  lemma {:induction false} SameMarkedIPs(a: Allocator, marks: set<NodeName>, ip: IP)
    ensures IsNodeIP(Marked(a, marks), ip) <==> IsNodeIP(a, ip)
  {
    var b := Marked(a, marks);
    assert forall n | n in a :: b[n].v6IP == a[n].v6IP && b[n].v4IP == a[n].v4IP;
  }

  /** Nothing more is placed once the loop has stopped. */
  lemma {:induction false} AssignStopped(a: Allocator, order: seq<NodeName>, req: Request, k: nat)
    requires k <= |req|
    ensures Assign(a, order, req[..k]).stop != Completed ==> Assign(a, order, req) == Assign(a, order, req[..k])
    decreases |req|
  {
    if k == |req| {
      assert req[..k] == req;
    } else {
      AssignStopped(a, order, req[..|req| - 1], k);
      assert req[..|req| - 1][..k] == req[..k];
    }
  }
}
