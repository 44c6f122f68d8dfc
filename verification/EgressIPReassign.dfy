/** A reassignment whose status update is lost: when it repeats the old assignment, told from the nodes,
    the request and the old items before it starts. */
module EgressIPReassign {
  import opened Wrappers
  import opened Cidr
  import opened EgressIPSpec
  import opened EgressIPRuns

  /** The pass stops at a text that does not parse or at a node's own address. */
  ghost predicate Stops(a: Allocator, req: Request) {
    exists k | 0 <= k < |req| :: req[k].None? || IsNodeIP(a, req[k].value)
  }

  /** The address is requested before the pass stops. */
  ghost predicate Asked(a: Allocator, req: Request, ip: IP) {
    exists k | 0 <= k < |req| :: req[k] == Some(ip) && !Stops(a, req[..k + 1])
  }

  /** The first node in load order that hosts the address and is not among the used ones. */
  function FirstFree(a: Allocator, order: seq<NodeName>, used: set<NodeName>, ip: IP): Option<NodeName> {
    if order == [] then None
    else if order[0] in a && !a[order[0]].tainted && order[0] !in used && Hosts(a[order[0]], ip) then Some(order[0])
    else FirstFree(a, order[1..], used, ip)
  }

  /** The nodes the old items use for the addresses asked so far. */
  ghost function UsedFor(a: Allocator, req: Request, items: seq<Item>): set<NodeName> {
    set i | 0 <= i < |items| && Asked(a, req, items[i].ip) :: items[i].node
  }

  /** The old items do with this address what the pass would: its first free node, or none. */
  ghost predicate OldChoice(a: Allocator, order: seq<NodeName>, before: Request, items: seq<Item>, ip: IP) {
    if Allocated(a, ip) then !Places(items, ip)
    else match FirstFree(a, order, UsedFor(a, before, items), ip)
      case None => !Places(items, ip)
      case Some(n) => Item(ip, n) in items
  }

  /** Each address asked has its old choice, and no other address is carried. */
  ghost predicate Repeats(a: Allocator, order: seq<NodeName>, req: Request, items: seq<Item>) {
    && (forall k | 0 <= k < |req| && !Stops(a, req[..k + 1]) :: OldChoice(a, order, req[..k], items, req[k].value))
    && (forall it | it in items :: Asked(a, req, it.ip))
  }

  ghost predicate SameItems(p: seq<Item>, items: seq<Item>) {
    forall it :: it in p <==> it in items
  }

  /** What the pass has placed is the old items' share of the addresses asked so far. */
  ghost predicate SameSoFar(a: Allocator, order: seq<NodeName>, req: Request, items: seq<Item>) {
    forall it :: it in Assign(a, order, req).items <==> it in items && Asked(a, req, it.ip)
  }

  lemma {:induction false} FirstFitIsFirstFree(a: Allocator, order: seq<NodeName>, items: seq<Item>, used: set<NodeName>, ip: IP)
    requires forall n :: n in used <==> Uses(items, n)
    ensures FirstFit(a, order, items, ip) == FirstFree(a, order, used, ip)
  {
    if order != [] {
      FirstFitIsFirstFree(a, order[1..], items, used, ip);
    }
  }

  lemma {:induction false} StopsMore(a: Allocator, before: Request, text: Option<IP>)
    ensures Stops(a, before + [text]) <==> Stops(a, before) || text.None? || IsNodeIP(a, text.value)
  {
    var req := before + [text];
    assert req[|before|] == text && forall k | 0 <= k < |before| :: req[k] == before[k];
  }

  lemma {:induction false} StoppedIsStop(a: Allocator, order: seq<NodeName>, req: Request)
    ensures Assign(a, order, req).stop == Completed <==> !Stops(a, req)
  {
    if req != [] {
      var before, text := req[..|req| - 1], req[|req| - 1];
      StoppedIsStop(a, order, before);
      StopsMore(a, before, text);
      assert req == before + [text];
    }
  }

  lemma {:induction false} AskedMore(a: Allocator, before: Request, text: Option<IP>, ip: IP)
    ensures Asked(a, before + [text], ip) <==> Asked(a, before, ip) || (text == Some(ip) && !Stops(a, before + [text]))
  {
    var req := before + [text];
    assert forall k | 0 <= k < |before| :: req[k] == before[k] && req[..k + 1] == before[..k + 1];
    assert req[..|before| + 1] == req && req[|before|] == text;
    if k :| 0 <= k < |before| && before[k] == Some(ip) && !Stops(a, before[..k + 1]) {
      assert req[k] == Some(ip) && !Stops(a, req[..k + 1]);
    }
  }

  lemma {:induction false} PlacedIsAsked(a: Allocator, order: seq<NodeName>, req: Request, it: Item)
    requires it in Assign(a, order, req).items
    ensures Asked(a, req, it.ip)
  {
    var before, text := req[..|req| - 1], req[|req| - 1];
    assert req == before + [text];
    AskedMore(a, before, text, it.ip);
    StoppedIsStop(a, order, req);
    if it in Assign(a, order, before).items {
      PlacedIsAsked(a, order, before, it);
    }
  }

  /** A distinct request asks for the next address for the first time. */
  lemma {:induction false} NotAskedYet(a: Allocator, before: Request, ip: IP)
    requires DistinctRequest(before + [Some(ip)]) && !Stops(a, before)
    ensures !Asked(a, before, ip)
  {
    var req := before + [Some(ip)];
    assert forall l | 0 <= l < |before| :: req[l] == before[l] && before[l].Some?;
    assert ParsedUpTo(req, |before|);
    forall k | 0 <= k < |before|
      ensures before[k] != Some(ip)
    {
      assert req[k] != req[|before|];
    }
  }

  /** One more address: the pass goes on agreeing with the old items if and only if they made its choice. */
  lemma {:induction false} OneMore(a: Allocator, order: seq<NodeName>, before: Request, items: seq<Item>, ip: IP)
    requires DistinctRequest(before + [Some(ip)]) && DistinctIPs(items) && !Stops(a, before + [Some(ip)])
    requires SameSoFar(a, order, before, items)
    ensures SameSoFar(a, order, before + [Some(ip)], items) <==> OldChoice(a, order, before, items, ip)
  {
    var req := before + [Some(ip)];
    var p, q := Assign(a, order, before), Assign(a, order, req);
    assert req[..|req| - 1] == before;
    StopsMore(a, before, Some(ip));
    StoppedIsStop(a, order, before);
    NotAskedYet(a, before, ip);
    forall x
      ensures Asked(a, req, x) <==> Asked(a, before, x) || x == ip
    {
      AskedMore(a, before, Some(ip), x);
    }
    UsedSoFar(a, order, before, items);
    FirstFitIsFirstFree(a, order, p.items, UsedFor(a, before, items), ip);
    ChoiceIs(a, before, items, p.items, q.items, ip);
  }

  lemma {:induction false} UsedSoFar(a: Allocator, order: seq<NodeName>, before: Request, items: seq<Item>)
    requires SameSoFar(a, order, before, items)
    ensures forall n :: n in UsedFor(a, before, items) <==> Uses(Assign(a, order, before).items, n)
  {
    var p := Assign(a, order, before).items;
    forall n
      ensures n in UsedFor(a, before, items) <==> Uses(p, n)
    {
      if n in UsedFor(a, before, items) {
        var i :| 0 <= i < |items| && Asked(a, before, items[i].ip) && items[i].node == n;
        assert items[i] in p;
      }
      if Uses(p, n) {
        var i :| 0 <= i < |p| && p[i].node == n;
        assert p[i] in items;
      }
    }
  }

  /** Old and new agree on the next address if and only if both carry it alike. */
  lemma {:induction false} ChoiceIs(a: Allocator, before: Request, items: seq<Item>, p: seq<Item>, q: seq<Item>, ip: IP)
    requires DistinctIPs(items) && !Asked(a, before, ip)
    requires forall it :: it in p <==> it in items && Asked(a, before, it.ip)
    requires q == p || (|q| == |p| + 1 && q == p + [Item(ip, q[|p|].node)])
    ensures (forall it :: it in q <==> it in items && (Asked(a, before, it.ip) || it.ip == ip))
       <==> if q == p then !Places(items, ip) else q[|p|] in items
  {
    if q == p {
      if i :| 0 <= i < |items| && items[i].ip == ip {
        assert items[i] !in p;
      }
    } else {
      var one := q[|p|];
      assert forall it :: it in q <==> it in p || it == one;
      assert forall it | it in items && one in items && it.ip == ip :: it == one;
    }
  }

  /** The pass agrees with the old items at each of the first k addresses. */
  ghost predicate AgreesUpTo(a: Allocator, order: seq<NodeName>, req: Request, items: seq<Item>, k: nat)
    requires k <= |req|
  {
    SameSoFar(a, order, req[..k], items) && (k > 0 ==> AgreesUpTo(a, order, req, items, k - 1))
  }

  /** Each of the first k addresses, up to a stop, has its old choice. */
  ghost predicate ChoosesUpTo(a: Allocator, order: seq<NodeName>, req: Request, items: seq<Item>, k: nat)
    requires k <= |req|
  {
    k > 0 ==> (Stops(a, req[..k]) || OldChoice(a, order, req[..k - 1], items, req[k - 1].value))
              && ChoosesUpTo(a, order, req, items, k - 1)
  }

  lemma {:induction false} SoFarIff(a: Allocator, order: seq<NodeName>, req: Request, items: seq<Item>, k: nat)
    requires DistinctRequest(req) && DistinctIPs(items) && k <= |req|
    ensures AgreesUpTo(a, order, req, items, k) <==> ChoosesUpTo(a, order, req, items, k)
  {
    if k == 0 {
      assert req[..0] == [];
    } else {
      SoFarIff(a, order, req, items, k - 1);
      if SameSoFar(a, order, req[..k - 1], items) {
        SoFarStep(a, order, req, items, k - 1);
      }
    }
  }

  lemma {:induction false} ChoosesAll(a: Allocator, order: seq<NodeName>, req: Request, items: seq<Item>, k: nat)
    requires k <= |req|
    ensures ChoosesUpTo(a, order, req, items, k)
       <==> forall l | 0 <= l < k && !Stops(a, req[..l + 1]) :: OldChoice(a, order, req[..l], items, req[l].value)
  {
    if k > 0 {
      ChoosesAll(a, order, req, items, k - 1);
    }
  }

  lemma {:induction false} SoFarStep(a: Allocator, order: seq<NodeName>, req: Request, items: seq<Item>, k: nat)
    requires DistinctRequest(req) && DistinctIPs(items) && k < |req| && SameSoFar(a, order, req[..k], items)
    ensures SameSoFar(a, order, req[..k + 1], items)
       <==> Stops(a, req[..k + 1]) || OldChoice(a, order, req[..k], items, req[k].value)
  {
    var before, text := req[..k], req[k];
    assert req[..k + 1] == before + [text];
    if Stops(a, before + [text]) {
      StoppedAgrees(a, order, before, text, items);
    } else {
      StopsMore(a, before, text);
      DistinctPrefix(req, k + 1);
      OneMore(a, order, before, items, text.value);
    }
  }

  lemma {:induction false} DistinctPrefix(req: Request, k: nat)
    requires DistinctRequest(req) && k <= |req|
    ensures DistinctRequest(req[..k])
  {
    forall i, j | 0 <= i < j < k && ParsedUpTo(req[..k], j)
      ensures req[..k][i] != req[..k][j]
    {
      assert forall l | 0 <= l <= j :: req[l] == req[..k][l];
      assert ParsedUpTo(req, j);
    }
  }

  /** A text at which the pass stops, or has stopped before, changes nothing. */
  lemma {:induction false} StoppedAgrees(a: Allocator, order: seq<NodeName>, before: Request, text: Option<IP>, items: seq<Item>)
    requires Stops(a, before + [text])
    ensures SameSoFar(a, order, before + [text], items) <==> SameSoFar(a, order, before, items)
  {
    var req := before + [text];
    assert req[..|req| - 1] == before;
    StopsMore(a, before, text);
    StoppedIsStop(a, order, before);
    assert Assign(a, order, req).items == Assign(a, order, before).items;
    forall ip
      ensures Asked(a, req, ip) <==> Asked(a, before, ip)
    {
      AskedMore(a, before, text, ip);
    }
  }

  /** What was placed early stays, and what is placed later answers a later address. */
  lemma {:induction false} AgreesBack(a: Allocator, order: seq<NodeName>, req: Request, items: seq<Item>, k: nat)
    requires DistinctRequest(req) && k <= |req| && SameSoFar(a, order, req[..k], items)
    ensures AgreesUpTo(a, order, req, items, k)
  {
    if k > 0 {
      SoFarBack(a, order, req[..k - 1], req[k - 1], items) by {
        assert req[..k - 1] + [req[k - 1]] == req[..k];
        DistinctPrefix(req, k);
      }
      AgreesBack(a, order, req, items, k - 1);
    }
  }

  lemma {:induction false} SoFarBack(a: Allocator, order: seq<NodeName>, before: Request, text: Option<IP>, items: seq<Item>)
    requires DistinctRequest(before + [text]) && SameSoFar(a, order, before + [text], items)
    ensures SameSoFar(a, order, before, items)
  {
    var req := before + [text];
    assert req[..|req| - 1] == before;
    if Stops(a, req) {
      StoppedAgrees(a, order, before, text, items);
    } else {
      StopsMore(a, before, text);
      NotAskedYet(a, before, text.value);
      forall it
        ensures it in Assign(a, order, before).items <==> it in items && Asked(a, before, it.ip)
      {
        AskedMore(a, before, text, it.ip);
        if it in Assign(a, order, before).items {
          PlacedIsAsked(a, order, before, it);
        }
      }
    }
  }

  /** The pass repeats the items if and only if every address asked has its old choice and nothing else is carried. */
  lemma {:induction false} RepeatsIff(a: Allocator, order: seq<NodeName>, req: Request, items: seq<Item>)
    requires DistinctRequest(req) && DistinctIPs(items)
    ensures SameItems(Assign(a, order, req).items, items) <==> Repeats(a, order, req, items)
  {
    SoFarIff(a, order, req, items, |req|);
    ChoosesAll(a, order, req, items, |req|);
    assert req[..|req|] == req;
    if SameItems(Assign(a, order, req).items, items) {
      forall it | it in items
        ensures Asked(a, req, it.ip)
      {
        PlacedIsAsked(a, order, req, it);
      }
      AgreesBack(a, order, req, items, |req|);
    }
  }

  /** A reassignment whose status update is lost keeps the books straight if and only if,
      once the old items are released, every address asked would get its old node again. */
  lemma {:induction false} UnrecordedReassignKeepsInvIff(s: State, o: ObjectName, order: seq<NodeName>)
    requires Inv(s) && o in s.objects && SortedEgressData(ReleaseFrom(s, o).alloc, order)
    ensures Inv(ReassignUnrecorded(s, o, order))
       <==> Repeats(ReleaseFrom(s, o).alloc, order, s.objects[o].request, s.objects[o].items)
  {
    LostUpdateKeepsInvIff(s, o, order);
    RepeatsIff(ReleaseFrom(s, o).alloc, order, s.objects[o].request, s.objects[o].items);
  }

  // ----- A reassignment that moves an address

  /** Two idle hosts of one address, which an object carries on the second. */
  ghost function OnSecond(ip: IP): State {
    var a := Twins(ip);
    State(a["right" := a["right"].(allocations := {ip})], map["e" := Object([Some(ip)], [Item(ip, "right")])])
  }

  lemma {:induction false} OnSecondIsSound(ip: IP)
    ensures Inv(OnSecond(ip))
  {
    var s := OnSecond(ip);
    TwinsReady(ip);
    TwinsHost(ip, ip, "right");
    assert forall o, it :: Holds(s, o, it) <==> o == "e" && it == Item(ip, "right");
    forall n, x | n in s.alloc
      ensures x in s.alloc[n].allocations <==> exists o :: Holds(s, o, Item(x, n))
    {
      if x == ip && n == "right" {
        assert Holds(s, "e", Item(ip, "right"));
      }
    }
  }

  lemma {:induction false} ReleasedIsTwins(ip: IP)
    ensures ReleaseFrom(OnSecond(ip), "e").alloc == Twins(ip)
  {
    var s, a, items := OnSecond(ip), Twins(ip), [Item(ip, "right")];
    assert "left"[0] != "right"[0] && items[0] == Item(ip, "right");
    assert IPsOn(items, "right") == {ip} && IPsOn(items, "left") == {};
    var b := ReleaseAll(s.alloc, items);
    assert b.Keys == a.Keys;
    forall n | n in a
      ensures b[n] == a[n]
    {
      assert n == "left" || n == "right";
      assert {ip} - {ip} == {};
    }
  }

  lemma {:induction false} ChoosesLeft(ip: IP)
    ensures !Repeats(Twins(ip), ["left", "right"], [Some(ip)], [Item(ip, "right")])
  {
    var a, order, req, items := Twins(ip), ["left", "right"], [Some(ip)], [Item(ip, "right")];
    TwinsReady(ip);
    TwinsHost(ip, ip, "left");
    assert req[..0 + 1] == req && !Stops(a, req);
    assert UsedFor(a, req[..0], items) == {};
    assert FirstFree(a, order, {}, ip) == Some("left");
    assert !Allocated(a, ip) && Item(ip, "left") !in items by {
      assert "left"[0] != "right"[0];
    }
    assert !OldChoice(a, order, req[..0], items, req[0].value);
  }

  /** The reassignment can choose the first host although the address was on the second: a lost update then
      leaves the status and the allocations apart. */
  lemma {:induction false} ReassignMayMove(ip: IP)
    ensures exists s, o, order ::
      && Inv(s) && o in s.objects && SortedEgressData(ReleaseFrom(s, o).alloc, order)
      && !Inv(ReassignUnrecorded(s, o, order))
  {
    var s, o, order := OnSecond(ip), "e", ["left", "right"];
    OnSecondIsSound(ip);
    ReleasedIsTwins(ip);
    TwinsReady(ip);
    ChoosesLeft(ip);
    UnrecordedReassignKeepsInvIff(s, o, order);
  }
}
