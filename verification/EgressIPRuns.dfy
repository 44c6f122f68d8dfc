/** Whole runs of the egress address allocator: nodes come, go and change, objects are added, removed
    and reassigned. */
module EgressIPRuns {
  import opened Cidr
  import opened EgressIPSpec

  type ObjectName = string

  datatype Object = Object(request: Request, items: seq<Item>)

  datatype State = State(alloc: Allocator, objects: map<ObjectName, Object>)

  datatype NodeFlag = AssignableFlag | ReadyFlag | ReachableFlag

  datatype Step =
    | InitNode(node: NodeName, blank: Node)
    | DeleteNode(node: NodeName)
    | SetFlag(node: NodeName, flag: NodeFlag, value: bool)
    | AddObject(object: ObjectName, request: Request, order: seq<NodeName>)
    | DeleteObject(object: ObjectName)
    | Reassign(object: ObjectName, order: seq<NodeName>)

  ghost predicate Holds(s: State, o: ObjectName, it: Item) {
    o in s.objects && it in s.objects[o].items
  }

  function WithFlag(n: Node, flag: NodeFlag, value: bool): Node {
    match flag
    case AssignableFlag => n.(isEgressAssignable := value)
    case ReadyFlag => n.(isReady := value)
    case ReachableFlag => n.(isReachable := value)
  }

  /** Record the outcome of one assignment for an object. */
  ghost function AssignTo(s: State, o: ObjectName, request: Request, order: seq<NodeName>): State {
    var items := Assign(s.alloc, order, request).items;
    State(PlaceAll(s.alloc, items), s.objects[o := Object(request, items)])
  }

  /** Release what an object holds and empty its status. */
  ghost function ReleaseFrom(s: State, o: ObjectName): State
    requires o in s.objects
  {
    State(ReleaseAll(s.alloc, s.objects[o].items), s.objects[o := s.objects[o].(items := [])])
  }

  ghost predicate Enabled(s: State, step: Step) {
    match step
    case InitNode(n, blank) => blank.allocations == {} && !blank.tainted
    case DeleteNode(n) => forall o, it | Holds(s, o, it) :: it.node != n
    case SetFlag(n, flag, value) => true
    case AddObject(o, request, order) =>
      o !in s.objects && DistinctRequest(request) && SortedEgressData(s.alloc, order)
    case DeleteObject(o) => o in s.objects
    case Reassign(o, order) => o in s.objects && SortedEgressData(ReleaseFrom(s, o).alloc, order)
  }

  ghost function Apply(s: State, step: Step): State
    requires Enabled(s, step)
  {
    match step
    case InitNode(n, blank) => if n in s.alloc then s else s.(alloc := s.alloc[n := blank])
    case DeleteNode(n) => s.(alloc := s.alloc - {n})
    case SetFlag(n, flag, value) =>
      if n in s.alloc then s.(alloc := s.alloc[n := WithFlag(s.alloc[n], flag, value)]) else s
    case AddObject(o, request, order) => AssignTo(s, o, request, order)
    case DeleteObject(o) => State(ReleaseAll(s.alloc, s.objects[o].items), s.objects - {o})
    case Reassign(o, order) => AssignTo(ReleaseFrom(s, o), o, s.objects[o].request, order)
  }

  /** The allocations are exactly the status items of the live objects, hosted, and each address once. */
  ghost predicate Inv(s: State) {
    && Untainted(s.alloc)
    && (forall o | o in s.objects ::
          && DistinctRequest(s.objects[o].request)
          && DistinctNodes(s.objects[o].items) && DistinctIPs(s.objects[o].items))
    && (forall o, it | Holds(s, o, it) :: it.node in s.alloc && Hosts(s.alloc[it.node], it.ip))
    && (forall n, ip | n in s.alloc :: ip in s.alloc[n].allocations <==> exists o :: Holds(s, o, Item(ip, n)))
    && (forall o, p, x, y | Holds(s, o, x) && Holds(s, p, y) && x.ip == y.ip :: o == p && x == y)
  }

  const EMPTY := State(map[], map[])

  lemma {:induction false} IPsOnIff(items: seq<Item>, n: NodeName, ip: IP)
    ensures ip in IPsOn(items, n) <==> Item(ip, n) in items
  {
  }

  lemma {:induction false} ReleasePreserves(s: State, o: ObjectName)
    requires Inv(s) && o in s.objects
    ensures Inv(ReleaseFrom(s, o))
  {
    var t := ReleaseFrom(s, o);
    forall p, it
      ensures Holds(t, p, it) <==> Holds(s, p, it) && p != o
    {
    }
    forall n, ip | n in t.alloc
      ensures ip in t.alloc[n].allocations <==> exists p :: Holds(t, p, Item(ip, n))
    {
      IPsOnIff(s.objects[o].items, n, ip);
      var it := Item(ip, n);
      if ip in t.alloc[n].allocations {
        var p :| Holds(s, p, it);
        assert Holds(t, p, it);
      }
      if p :| Holds(t, p, it) {
        assert Holds(s, p, it);
        assert !Holds(s, o, it);
      }
    }
  }

  lemma {:induction false} AssignHolds(s: State, o: ObjectName, request: Request, order: seq<NodeName>)
    requires o in s.objects ==> s.objects[o].items == []
    ensures var t, items := AssignTo(s, o, request, order), Assign(s.alloc, order, request).items;
            forall p, it :: Holds(t, p, it) <==> (p != o && Holds(s, p, it)) || (p == o && it in items)
  {
  }

  /** On every node the allocations are what the objects hold there. */
  lemma {:induction false} AssignRecords(s: State, o: ObjectName, request: Request, order: seq<NodeName>)
    requires Inv(s) && (o in s.objects ==> s.objects[o].items == [])
    ensures var t := AssignTo(s, o, request, order);
            forall n, ip | n in t.alloc :: ip in t.alloc[n].allocations <==> exists p :: Holds(t, p, Item(ip, n))
  {
    var t, items := AssignTo(s, o, request, order), Assign(s.alloc, order, request).items;
    AssignHolds(s, o, request, order);
    forall n, ip | n in t.alloc
      ensures ip in t.alloc[n].allocations <==> exists p :: Holds(t, p, Item(ip, n))
    {
      IPsOnIff(items, n, ip);
      if ip in s.alloc[n].allocations {
        var p :| Holds(s, p, Item(ip, n));
        assert Holds(t, p, Item(ip, n));
      } else if Item(ip, n) in items {
        assert Holds(t, o, Item(ip, n));
      }
    }
  }

  /** Every address is held once. */
  lemma {:induction false} AssignOnce(s: State, o: ObjectName, request: Request, order: seq<NodeName>)
    requires Inv(s) && (o in s.objects ==> s.objects[o].items == []) && DistinctRequest(request)
    ensures var t := AssignTo(s, o, request, order);
            forall p, q, x, y | Holds(t, p, x) && Holds(t, q, y) && x.ip == y.ip :: p == q && x == y
  {
    var t := AssignTo(s, o, request, order);
    DistinctRequestDistinctIPs(s.alloc, order, request);
    AssignHolds(s, o, request, order);
    forall p, q, x, y | Holds(t, p, x) && Holds(t, q, y) && x.ip == y.ip
      ensures p == q && x == y
    {
      NewAddressIsFresh(s, order, request, x);
      NewAddressIsFresh(s, order, request, y);
    }
  }

  lemma {:induction false} AssignHosted(s: State, o: ObjectName, request: Request, order: seq<NodeName>)
    requires Inv(s) && (o in s.objects ==> s.objects[o].items == [])
    ensures var t := AssignTo(s, o, request, order);
            forall p, it | Holds(t, p, it) :: it.node in t.alloc && Hosts(t.alloc[it.node], it.ip)
  {
    AssignSound(s.alloc, order, request);
    AssignHolds(s, o, request, order);
    assert forall it | it in Assign(s.alloc, order, request).items :: SoundItem(s.alloc, order, request, it);
  }

  lemma {:induction false} AssignPreserves(s: State, o: ObjectName, request: Request, order: seq<NodeName>)
    requires Inv(s) && (o in s.objects ==> s.objects[o].items == [])
    requires DistinctRequest(request) && SortedEgressData(s.alloc, order)
    ensures Inv(AssignTo(s, o, request, order))
  {
    AssignSound(s.alloc, order, request);
    DistinctRequestDistinctIPs(s.alloc, order, request);
    AssignHosted(s, o, request, order);
    AssignRecords(s, o, request, order);
    AssignOnce(s, o, request, order);
  }

  lemma {:induction false} NewAddressIsFresh(s: State, order: seq<NodeName>, request: Request, it: Item)
    requires Inv(s)
    ensures it in Assign(s.alloc, order, request).items ==>
              forall p, other | Holds(s, p, other) :: other.ip != it.ip
  {
    AssignSound(s.alloc, order, request);
    if it in Assign(s.alloc, order, request).items {
      assert SoundItem(s.alloc, order, request, it);
      forall p, other | Holds(s, p, other)
        ensures other.ip != it.ip
      {
        assert Holds(s, p, Item(other.ip, other.node));
        assert other.ip in s.alloc[other.node].allocations;
      }
    }
  }

  lemma {:induction false} FlagPreserves(s: State, n: NodeName, flag: NodeFlag, value: bool)
    requires Inv(s) && n in s.alloc
    ensures Inv(s.(alloc := s.alloc[n := WithFlag(s.alloc[n], flag, value)]))
  {
    var t := s.(alloc := s.alloc[n := WithFlag(s.alloc[n], flag, value)]);
    assert forall o, it :: Holds(t, o, it) <==> Holds(s, o, it);
  }

  lemma {:induction false} StepPreserves(s: State, step: Step)
    requires Inv(s) && Enabled(s, step)
    ensures Inv(Apply(s, step))
  {
    var t := Apply(s, step);
    match step
    case InitNode(n, blank) =>
      assert forall o, it :: Holds(t, o, it) <==> Holds(s, o, it);
    case DeleteNode(n) =>
      assert forall o, it :: Holds(t, o, it) <==> Holds(s, o, it);
    case SetFlag(n, flag, value) =>
      if n in s.alloc {
        FlagPreserves(s, n, flag, value);
      }
    case AddObject(o, request, order) =>
      AssignPreserves(s, o, request, order);
    case DeleteObject(o) =>
      ReleasePreserves(s, o);
      var r := ReleaseFrom(s, o);
      assert forall p, it :: Holds(t, p, it) <==> Holds(r, p, it);
    case Reassign(o, order) =>
      ReleasePreserves(s, o);
      AssignPreserves(ReleaseFrom(s, o), o, s.objects[o].request, order);
  }

  /** The states a list of steps passes through. */
  ghost predicate IsRun(states: seq<State>, steps: seq<Step>) {
    && |states| == |steps| + 1 && states[0] == EMPTY
    && forall i | 0 <= i < |steps| :: Enabled(states[i], steps[i]) && states[i + 1] == Apply(states[i], steps[i])
  }

  /** A new object gets what an assignment places; a reassigned one what is placed once its old items are released;
      a deleted one leaves nothing behind. */
  lemma {:induction false} StepsPlace(s: State, o: ObjectName, request: Request, order: seq<NodeName>)
    ensures Enabled(s, AddObject(o, request, order)) ==>
              var t := Apply(s, AddObject(o, request, order));
              && o in t.objects && t.objects[o].items == Assign(s.alloc, order, request).items
              && t.alloc == PlaceAll(s.alloc, t.objects[o].items)
    ensures Enabled(s, Reassign(o, order)) ==>
              var t, freed := Apply(s, Reassign(o, order)), ReleaseAll(s.alloc, s.objects[o].items);
              && o in t.objects && t.objects[o].items == Assign(freed, order, s.objects[o].request).items
              && t.alloc == PlaceAll(freed, t.objects[o].items)
    ensures Enabled(s, DeleteObject(o)) ==>
              var t := Apply(s, DeleteObject(o));
              o !in t.objects && forall it | it in s.objects[o].items && it.node in t.alloc :: it.ip !in t.alloc[it.node].allocations
  {
    if Enabled(s, DeleteObject(o)) {
      forall it | it in s.objects[o].items
        ensures it.ip in IPsOn(s.objects[o].items, it.node)
      {
      }
    }
  }


  lemma {:induction false} RunInv(states: seq<State>, steps: seq<Step>)
    requires IsRun(states, steps)
    ensures Inv(states[|steps|])
  {
    if steps == [] {
    } else {
      var k := |steps| - 1;
      RunInv(states[..|states| - 1], steps[..k]);
      StepPreserves(states[k], steps[k]);
    }
  }

  /** In every run: one node per address, hosted there, one address per node and object, and the
      allocator holds the status items of the live objects and nothing else. */
  lemma {:induction false} RunsKeepAllocations(states: seq<State>, steps: seq<Step>)
    requires IsRun(states, steps)
    ensures forall s | s in states ::
              && OneNodeEach(s.alloc)
              && (forall n, ip | n in s.alloc && ip in s.alloc[n].allocations :: Hosts(s.alloc[n], ip))
              && (forall n, ip | n in s.alloc ::
                    ip in s.alloc[n].allocations <==> exists o :: Holds(s, o, Item(ip, n)))
              && (forall o, it | Holds(s, o, it) :: it.node in s.alloc)
              && (forall o | o in s.objects :: DistinctNodes(s.objects[o].items))
  {
    forall i | 0 <= i < |states|
      ensures Inv(states[i])
    {
      var pre := states[..i + 1];
      assert IsRun(pre, steps[..i]);
      RunInv(pre, steps[..i]);
    }
    forall s | s in states
      ensures OneNodeEach(s.alloc)
    {
      forall m, n, ip | m in s.alloc && n in s.alloc && ip in s.alloc[m].allocations && ip in s.alloc[n].allocations
        ensures m == n
      {
        var o :| Holds(s, o, Item(ip, m));
        var p :| Holds(s, p, Item(ip, n));
      }
    }
  }

  // ----- Reassignments the API server interrupts

  /** reassignEgressIP whose status update fails: the object keeps its old items. */
  ghost function ReassignUnrecorded(s: State, o: ObjectName, order: seq<NodeName>): State
    requires o in s.objects
  {
    var r := ReleaseFrom(s, o);
    s.(alloc := AssignTo(r, o, s.objects[o].request, order).alloc)
  }

  /** deleteEgressIP that fails after the release: the status still lists what was given up. */
  ghost function ReleaseUnrecorded(s: State, o: ObjectName): State
    requires o in s.objects
  {
    s.(alloc := ReleaseAll(s.alloc, s.objects[o].items))
  }

  /** A lost status update is harmless exactly when the new assignment repeats the old one. */
  lemma {:induction false} LostUpdateKeepsInvIff(s: State, o: ObjectName, order: seq<NodeName>)
    requires Inv(s) && o in s.objects && SortedEgressData(ReleaseFrom(s, o).alloc, order)
    ensures var renewed := Assign(ReleaseFrom(s, o).alloc, order, s.objects[o].request).items;
            Inv(ReassignUnrecorded(s, o, order)) <==> forall it :: it in renewed <==> it in s.objects[o].items
  {
    var r := ReleaseFrom(s, o);
    var t := AssignTo(r, o, s.objects[o].request, order);
    var u := ReassignUnrecorded(s, o, order);
    var renewed := t.objects[o].items;
    ReleasePreserves(s, o);
    AssignPreserves(r, o, s.objects[o].request, order);
    assert forall p, it :: Holds(u, p, it) <==> Holds(s, p, it);
    assert forall p, it | p != o :: Holds(t, p, it) <==> Holds(s, p, it);
    if Inv(u) {
      forall it
        ensures it in renewed <==> it in s.objects[o].items
      {
        SameItem(s, t, u, o, it);
      }
    }
    if forall it :: it in renewed <==> it in s.objects[o].items {
      assert forall p, it :: Holds(u, p, it) <==> Holds(t, p, it);
    }
  }

  lemma {:induction false} SameItem(s: State, t: State, u: State, o: ObjectName, it: Item)
    requires Inv(s) && Inv(t) && Inv(u) && o in s.objects && o in t.objects
    requires u.alloc == t.alloc && u.objects == s.objects
    requires forall p, x | p != o :: Holds(t, p, x) <==> Holds(s, p, x)
    ensures it in t.objects[o].items <==> it in s.objects[o].items
  {
    assert it == Item(it.ip, it.node);
    if it in t.objects[o].items {
      assert Holds(t, o, it);
      assert it.ip in u.alloc[it.node].allocations;
      var p :| Holds(u, p, it);
      assert p != o ==> Holds(t, p, it);
    }
    if it in s.objects[o].items {
      assert Holds(u, o, it);
      assert it.ip in t.alloc[it.node].allocations;
      var p :| Holds(t, p, it);
      assert Holds(s, o, it) && (p != o ==> Holds(s, p, it));
    }
  }

  /** A deletion that fails half-way keeps the books straight exactly when there was nothing to release. */
  lemma {:induction false} UnrecordedReleaseKeepsInvIff(s: State, o: ObjectName)
    requires Inv(s) && o in s.objects
    ensures Inv(ReleaseUnrecorded(s, o)) <==> s.objects[o].items == []
  {
    var u, items := ReleaseUnrecorded(s, o), s.objects[o].items;
    assert forall p, it :: Holds(u, p, it) <==> Holds(s, p, it);
    if items != [] {
      var it := items[0];
      assert Holds(u, o, Item(it.ip, it.node));
      IPsOnIff(items, it.node, it.ip);
      assert it.ip !in u.alloc[it.node].allocations;
    } else {
      assert forall n | n in s.alloc :: IPsOn(items, n) == {} && s.alloc[n].allocations - {} == s.alloc[n].allocations;
      assert u.alloc == s.alloc;
    }
  }
}
