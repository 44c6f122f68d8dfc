/** Start-up validation of recorded egress IP statuses: which are kept, and which marks an API failure leaves. */
module EgressIPStartup {
  import opened Wrappers
  import opened Cidr
  import opened EgressIPSpec

  /** A recorded status item; its address is None when the text does not parse. */
  datatype StatusEntry = StatusEntry(ip: Option<IP>, node: NodeName)

  datatype ApiResult = ApiWorks | UpdateFails | ListFails

  datatype Recorded = Recorded(entries: seq<StatusEntry>, api: ApiResult)

  predicate EntryHolds(a: Allocator, e: StatusEntry) {
    && e.node in a && e.ip.Some? && !IsNodeIP(a, e.ip.value)
    && if e.ip.value.v6
       then a[e.node].v6Subnet.Some? && Contains(a[e.node].v6Subnet.value, e.ip.value)
       else a[e.node].v4Subnet.Some? && Contains(a[e.node].v4Subnet.value, e.ip.value)
  }

  /** A status worth keeping: not empty, every item sound, no node twice. */
  ghost predicate ValidStatus(a: Allocator, entries: seq<StatusEntry>) {
    && entries != []
    && (forall i | 0 <= i < |entries| :: EntryHolds(a, entries[i]))
    && forall i, j | 0 <= i < j < |entries| :: entries[i].node != entries[j].node
  }

  /** Walk the items until one is refused; also the nodes marked on the way. */
  function Scan(a: Allocator, taints: set<NodeName>, entries: seq<StatusEntry>): (bool, set<NodeName>)
    decreases |entries|
  {
    if entries == [] then (true, taints)
    else if entries[0].node in taints || !EntryHolds(a, entries[0]) then (false, taints)
    else Scan(a, taints + {entries[0].node}, entries[1..])
  }

  /** The status kept for one object, and the marks left behind: an API failure skips the clean-up. */
  function SyncOne(a: Allocator, taints: set<NodeName>, r: Recorded): (bool, set<NodeName>) {
    var (ok, marks) := Scan(a, taints, r.entries);
    var keep := ok && r.entries != [];
    (keep, if !keep && r.api != ApiWorks then marks else {})
  }

  ghost function Sync(a: Allocator, taints: set<NodeName>, rs: seq<Recorded>): (seq<bool>, set<NodeName>) {
    if rs == [] then ([], taints)
    else
      var (verdicts, marks) := Sync(a, taints, rs[..|rs| - 1]);
      var (keep, left) := SyncOne(a, marks, rs[|rs| - 1]);
      (verdicts + [keep], left)
  }

  // ----- What the pass amounts to, for any list and any API results

  /** Entry p of a status and all before it are sound and on different nodes. */
  ghost predicate SoundUpTo(a: Allocator, entries: seq<StatusEntry>, p: nat) {
    && p < |entries| && (forall q | 0 <= q <= p :: EntryHolds(a, entries[q]))
    && forall q, r | 0 <= q < r <= p :: entries[q].node != entries[r].node
  }

  /** The walk over a status reaches entry p and marks its node. */
  ghost predicate ReachesAt(a: Allocator, taints: set<NodeName>, entries: seq<StatusEntry>, p: nat, n: NodeName) {
    SoundUpTo(a, entries, p) && entries[p].node == n && forall q | 0 <= q <= p :: entries[q].node !in taints
  }

  ghost predicate Reaches(a: Allocator, taints: set<NodeName>, entries: seq<StatusEntry>, n: NodeName) {
    exists p: nat :: ReachesAt(a, taints, entries, p, n)
  }

  /** The nodes marked when the turn comes to object i: those on the sound prefixes of the unbroken stretch
      of failed withdrawals just before it. */
  ghost function MarksBefore(a: Allocator, rs: seq<Recorded>, i: nat): set<NodeName>
    requires i <= |rs|
    decreases i, 0
  {
    if i == 0 || rs[i - 1].api == ApiWorks || !Withdrawn(a, rs, i - 1) then {}
    else MarksBefore(a, rs, i - 1) + set n | n in a && Reaches(a, MarksBefore(a, rs, i - 1), rs[i - 1].entries, n)
  }

  /** The status is not valid, or it uses a node that is marked. */
  ghost predicate Withdrawn(a: Allocator, rs: seq<Recorded>, i: nat)
    requires i < |rs|
    decreases i, 1
  {
    !ValidStatus(a, rs[i].entries) || UsesAny(rs[i].entries, MarksBefore(a, rs, i))
  }

  predicate UsesAny(entries: seq<StatusEntry>, nodes: set<NodeName>) {
    exists q | 0 <= q < |entries| :: entries[q].node in nodes
  }

  /** The statuses worth keeping: not empty, each item on a known node with a subnet of the address's family that
      contains it, no address a node's own, no node twice. */
  lemma {:induction false} ValidIff(a: Allocator, entries: seq<StatusEntry>)
    ensures ValidStatus(a, entries) <==>
              && entries != [] && (forall i, j | 0 <= i < j < |entries| :: entries[i].node != entries[j].node)
              && forall i | 0 <= i < |entries| ::
                   && entries[i].node in a && entries[i].ip.Some? && !OwnedByNode(a, entries[i].ip)
                   && var n, ip := a[entries[i].node], entries[i].ip.value;
                      (n.v6Subnet.Some? && Contains(n.v6Subnet.value, ip)) || (n.v4Subnet.Some? && Contains(n.v4Subnet.value, ip))
  {
  }

  function Recording(items: seq<Item>): seq<StatusEntry> {
    seq(|items|, i requires 0 <= i < |items| => StatusEntry(Some(items[i].ip), items[i].node))
  }

  /** What an assignment places, recorded as a status, is worth keeping. */
  lemma {:induction false} AssignedIsValid(a: Allocator, order: seq<NodeName>, req: Request)
    requires SortedEgressData(a, order) && Assign(a, order, req).items != []
    ensures ValidStatus(a, Recording(Assign(a, order, req).items))
  {
    var items := Assign(a, order, req).items;
    var entries := Recording(items);
    AssignSound(a, order, req);
    ItemsInFields(a, order, req);
    forall i | 0 <= i < |entries|
      ensures EntryHolds(a, entries[i])
    {
      assert items[i] in items;
    }
  }

  lemma {:induction false} ScanMeaning(a: Allocator, taints: set<NodeName>, entries: seq<StatusEntry>)
    ensures Scan(a, taints, entries).0 <==>
              && (forall i | 0 <= i < |entries| :: EntryHolds(a, entries[i]) && entries[i].node !in taints)
              && (forall i, j | 0 <= i < j < |entries| :: entries[i].node != entries[j].node)
    decreases |entries|
  {
    if entries == [] {
    } else {
      var rest, marks := entries[1..], taints + {entries[0].node};
      ScanMeaning(a, marks, rest);
      assert forall i | 0 <= i < |rest| :: rest[i] == entries[i + 1];
      assert forall i | 1 <= i < |entries| :: entries[i] == rest[i - 1];
      if Scan(a, taints, entries).0 {
        forall i, j | 0 <= i < j < |entries|
          ensures entries[i].node != entries[j].node
        {
          assert entries[j] == rest[j - 1];
        }
      }
    }
  }

  lemma {:induction false} ScanMarks(a: Allocator, taints: set<NodeName>, entries: seq<StatusEntry>, n: NodeName)
    ensures n in Scan(a, taints, entries).1 <==> n in taints || Reaches(a, taints, entries, n)
    decreases |entries|
  {
    if entries == [] || entries[0].node in taints || !EntryHolds(a, entries[0]) {
      if Reaches(a, taints, entries, n) {
        ReachedIsKnown(a, taints, entries, n);
      }
    } else {
      var first := entries[0].node;
      ScanMarks(a, taints + {first}, entries[1..], n);
      if n == first {
        assert ReachesAt(a, taints, entries, 0, n);
      } else if n in Scan(a, taints, entries).1 && n !in taints {
        ReachesLater(a, taints, entries, n);
      } else if Reaches(a, taints, entries, n) {
        ReachesEarlier(a, taints, entries, n);
      }
    }
  }

  lemma {:induction false} ReachesLater(a: Allocator, taints: set<NodeName>, entries: seq<StatusEntry>, n: NodeName)
    requires entries != [] && entries[0].node !in taints && EntryHolds(a, entries[0])
    requires Reaches(a, taints + {entries[0].node}, entries[1..], n)
    ensures Reaches(a, taints, entries, n)
  {
    var rest := entries[1..];
    var p: nat :| ReachesAt(a, taints + {entries[0].node}, rest, p, n);
    assert forall q | 1 <= q <= p + 1 :: entries[q] == rest[q - 1];
    assert ReachesAt(a, taints, entries, p + 1, n);
  }

  lemma {:induction false} ReachesEarlier(a: Allocator, taints: set<NodeName>, entries: seq<StatusEntry>, n: NodeName)
    requires entries != [] && n != entries[0].node && Reaches(a, taints, entries, n)
    ensures Reaches(a, taints + {entries[0].node}, entries[1..], n)
  {
    var rest := entries[1..];
    var p: nat :| ReachesAt(a, taints, entries, p, n);
    assert p > 0 && forall q | 0 <= q <= p - 1 :: rest[q] == entries[q + 1];
    assert ReachesAt(a, taints + {entries[0].node}, rest, p - 1, n);
  }

  lemma {:induction false} MarksOfPrefix(a: Allocator, rs: seq<Recorded>, k: nat, i: nat)
    requires i <= k <= |rs|
    ensures MarksBefore(a, rs[..k], i) == MarksBefore(a, rs, i)
    decreases i
  {
    if i > 0 {
      MarksOfPrefix(a, rs, k, i - 1);
      assert rs[..k][i - 1] == rs[i - 1];
    }
  }

  lemma {:induction false} ReachedIsKnown(a: Allocator, taints: set<NodeName>, entries: seq<StatusEntry>, n: NodeName)
    requires Reaches(a, taints, entries, n)
    ensures n in a && entries != [] && EntryHolds(a, entries[0]) && entries[0].node !in taints
  {
    var p: nat :| ReachesAt(a, taints, entries, p, n);
    assert EntryHolds(a, entries[p]) && EntryHolds(a, entries[0]);
  }

  /** One object: kept unless withdrawn; the marks grow only if the withdrawal fails. */
  lemma {:induction false} OneObject(a: Allocator, rs: seq<Recorded>, i: nat)
    requires i < |rs|
    ensures SyncOne(a, MarksBefore(a, rs, i), rs[i]) == (!Withdrawn(a, rs, i), MarksBefore(a, rs, i + 1))
  {
    var taints, entries := MarksBefore(a, rs, i), rs[i].entries;
    ScanMeaning(a, taints, entries);
    forall n
      ensures n in Scan(a, taints, entries).1 <==> n in taints || (n in a && Reaches(a, taints, entries, n))
    {
      ScanMarks(a, taints, entries, n);
      if Reaches(a, taints, entries, n) {
        ReachedIsKnown(a, taints, entries, n);
      }
    }
    assert Scan(a, taints, entries).1 == taints + set n | n in a && Reaches(a, taints, entries, n);
    KeptIff(a, taints, entries);
  }

  lemma {:induction false} KeptIff(a: Allocator, taints: set<NodeName>, entries: seq<StatusEntry>)
    ensures Scan(a, taints, entries).0 && entries != [] <==> ValidStatus(a, entries) && !UsesAny(entries, taints)
  {
    ScanMeaning(a, taints, entries);
  }

  /** The verdicts and the marks of the whole pass. */
  lemma {:induction false} PassIs(a: Allocator, rs: seq<Recorded>)
    ensures var (verdicts, marks) := Sync(a, {}, rs);
            && |verdicts| == |rs| && marks == MarksBefore(a, rs, |rs|)
            && forall i | 0 <= i < |rs| :: verdicts[i] <==> !Withdrawn(a, rs, i)
  {
    if rs != [] {
      var before, last := rs[..|rs| - 1], |rs| - 1;
      PassIs(a, before);
      forall i | 0 <= i <= last
        ensures MarksBefore(a, before, i) == MarksBefore(a, rs, i)
      {
        MarksOfPrefix(a, rs, last, i);
      }
      OneObject(a, rs, last);
    }
  }

  /** Marks stay behind if and only if from some object whose status starts with a sound item on,
      every withdrawal fails and there is nothing but withdrawals. */
  lemma {:induction false} MarksRemainIff(a: Allocator, rs: seq<Recorded>)
    ensures Sync(a, {}, rs).1 != {} <==> exists j: nat :: FailsFrom(a, rs, j)
  {
    PassIs(a, rs);
    MarksBeforeIff(a, rs, |rs|);
    assert forall j: nat :: FailsFrom(a, rs, j) <==> FailsBetween(a, rs, j, |rs|);
  }

  ghost predicate FailsFrom(a: Allocator, rs: seq<Recorded>, j: nat) {
    FailsBetween(a, rs, j, |rs|)
  }

  ghost predicate FailsBetween(a: Allocator, rs: seq<Recorded>, j: nat, k: nat) {
    && j < k <= |rs| && rs[j].entries != [] && EntryHolds(a, rs[j].entries[0])
    && forall i | j <= i < k :: rs[i].api != ApiWorks && Withdrawn(a, rs, i)
  }

  lemma {:induction false} MarksBeforeIff(a: Allocator, rs: seq<Recorded>, k: nat)
    requires k <= |rs|
    ensures MarksBefore(a, rs, k) != {} <==> exists j: nat :: FailsBetween(a, rs, j, k)
  {
    if k > 0 {
      MarksBeforeIff(a, rs, k - 1);
      if MarksBefore(a, rs, k) != {} {
        StretchGrows(a, rs, k - 1, k);
      }
      if j: nat :| FailsBetween(a, rs, j, k) {
        if j < k - 1 {
          assert FailsBetween(a, rs, j, k - 1);
        } else {
          FirstIsMarked(a, rs, j);
        }
      }
    }
  }

  lemma {:induction false} StretchGrows(a: Allocator, rs: seq<Recorded>, k: nat, next: nat)
    requires next == k + 1 <= |rs| && MarksBefore(a, rs, next) != {}
    requires MarksBefore(a, rs, k) != {} ==> exists j: nat :: FailsBetween(a, rs, j, k)
    ensures exists j: nat :: FailsBetween(a, rs, j, next)
  {
    if MarksBefore(a, rs, k) != {} {
      var j: nat :| FailsBetween(a, rs, j, k);
      assert FailsBetween(a, rs, j, next);
    } else {
      var n :| n in MarksBefore(a, rs, next);
      ReachedIsKnown(a, {}, rs[k].entries, n);
      assert FailsBetween(a, rs, k, next);
    }
  }

  lemma {:induction false} FirstIsMarked(a: Allocator, rs: seq<Recorded>, j: nat)
    requires FailsBetween(a, rs, j, j + 1)
    ensures MarksBefore(a, rs, j + 1) != {}
  {
    var taints, n := MarksBefore(a, rs, j), rs[j].entries[0].node;
    if taints == {} {
      assert ReachesAt(a, taints, rs[j].entries, 0, n);
      assert n in MarksBefore(a, rs, j + 1);
    }
  }

  /** No valid status uses a node that a failed withdrawal just before it left marked. */
  ghost predicate MarksMissValid(a: Allocator, rs: seq<Recorded>) {
    forall i | 0 <= i < |rs| && ValidStatus(a, rs[i].entries) :: !UsesAny(rs[i].entries, MarksBefore(a, rs, i))
  }

  /** The pass keeps exactly the valid statuses if and only if failed withdrawals mark no node of a valid one. */
  lemma {:induction false} KeepsValidStatusesIff(a: Allocator, rs: seq<Recorded>)
    ensures |Sync(a, {}, rs).0| == |rs|
    ensures (forall i | 0 <= i < |rs| :: Sync(a, {}, rs).0[i] <==> ValidStatus(a, rs[i].entries)) <==> MarksMissValid(a, rs)
  {
    PassIs(a, rs);
    if forall i | 0 <= i < |rs| :: Sync(a, {}, rs).0[i] <==> ValidStatus(a, rs[i].entries) {
      forall i | 0 <= i < |rs| && ValidStatus(a, rs[i].entries)
        ensures !UsesAny(rs[i].entries, MarksBefore(a, rs, i))
      {
        assert Sync(a, {}, rs).0[i];
      }
    }
  }

  /** With a working API server, the start-up pass keeps exactly the valid statuses and leaves no mark. */
  lemma {:induction false} SyncKeepsValidStatuses(a: Allocator, rs: seq<Recorded>)
    requires forall r | r in rs :: r.api == ApiWorks
    ensures var (verdicts, marks) := Sync(a, {}, rs);
            && marks == {} && |verdicts| == |rs|
            && forall i | 0 <= i < |rs| :: verdicts[i] <==> ValidStatus(a, rs[i].entries)
  {
    PassIs(a, rs);
    forall i | 0 <= i <= |rs|
      ensures MarksBefore(a, rs, i) == {}
    {
      if i > 0 {
        assert rs[i - 1] in rs;
      }
    }
    forall i | 0 <= i < |rs|
      ensures !UsesAny(rs[i].entries, MarksBefore(a, rs, i))
    {
    }
  }

  ghost function Marked(a: Allocator, marks: set<NodeName>): Allocator {
    map n | n in a :: a[n].(tainted := n in marks)
  }

  /** One node that can host one IPv4 address and nothing else. */
  ghost function Single(ip: IP): Allocator
    requires !ip.v6
  {
    map["n" := Node(None, None, Some(Subnet(false, ip.bits, 32)), None, {}, true, true, true, false)]
  }

  /** A status with the address on its host, and an item nobody can read: not valid, but its start is sound. */
  function Spoilt(ip: IP): Recorded {
    Recorded([StatusEntry(Some(ip), "n"), StatusEntry(None, "n")], UpdateFails)
  }

  lemma {:induction false} SpoiltMarks(ip: IP, rs: seq<Recorded>)
    requires !ip.v6 && rs != [] && rs[0] == Spoilt(ip)
    ensures EntryHolds(Single(ip), StatusEntry(Some(ip), "n")) && Hosts(Single(ip)["n"], ip)
    ensures Withdrawn(Single(ip), rs, 0) && MarksBefore(Single(ip), rs, 1) == {"n"}
  {
    var a, entries := Single(ip), rs[0].entries;
    var only: V4Subnet := Subnet(false, ip.bits, 32);
    assert BlockSize(only) == 1 && Contains(only, ip) && a["n"].v4Subnet == Some(only);
    assert EntryHolds(a, entries[0]) && !EntryHolds(a, entries[1]);
    assert ReachesAt(a, {}, entries, 0, "n");
    assert MarksBefore(a, rs, 0) == {};
    assert "n" in MarksBefore(a, rs, 1) && a.Keys == {"n"};
  }

  /** A leaked mark makes the pass withdraw a valid status although the API server works again. */
  lemma {:induction false} LeakedMarkWithdrawsValidStatus(ip: IP)
    requires !ip.v6
    ensures exists a, r: Recorded, s: Recorded ::
      s.api == ApiWorks && ValidStatus(a, s.entries) && Sync(a, {}, [r, s]).0 == [false, false]
  {
    var a, r, s := Single(ip), Spoilt(ip), Recorded([StatusEntry(Some(ip), "n")], ApiWorks);
    var rs := [r, s];
    SpoiltMarks(ip, rs);
    PassIs(a, rs);
    assert rs[1] == s && s.entries[0].node in MarksBefore(a, rs, 1);
    assert Withdrawn(a, rs, 1) && ValidStatus(a, s.entries);
    assert Sync(a, {}, rs).0 == [false, false];
  }

  /** A leaked mark matters: the only node could host the address, yet no match is reported. */
  lemma {:induction false} LeakedMarkHidesHost(ip: IP)
    requires !ip.v6
    ensures exists a, r ::
      && Untainted(a) && OneNodeEach(a)
      && var b := Marked(a, Sync(a, {}, [r]).1);
         && SortedEgressData(b, ["n"])
         && Outcome(["n"], [Some(ip)], Assign(b, ["n"], [Some(ip)])) == (NoMatchingHost, true)
         && Feasible(b, [Some(ip)], map[ip := "n"])
  {
    var a, r := Single(ip), Spoilt(ip);
    SpoiltMarks(ip, [r]);
    PassIs(a, [r]);
    MarkedSingleHost(a, {"n"}, ip);
    assert Untainted(a) && OneNodeEach(a);
    assert Marked(a, Sync(a, {}, [r]).1) == Marked(a, {"n"});
  }

  lemma {:induction false} MarkedSingleHost(a: Allocator, marks: set<NodeName>, ip: IP)
    requires a.Keys == {"n"} && "n" in marks && Hosts(a["n"], ip) && a["n"].allocations == {}
    requires Assignable(a["n"]) && a["n"].v4IP.None? && a["n"].v6IP.None?
    ensures var b := Marked(a, marks);
            && SortedEgressData(b, ["n"])
            && Outcome(["n"], [Some(ip)], Assign(b, ["n"], [Some(ip)])) == (NoMatchingHost, true)
            && Feasible(b, [Some(ip)], map[ip := "n"])
  {
    var b, order, req: Request := Marked(a, marks), ["n"], [Some(ip)];
    assert order[0] == "n" && req[0] == Some(ip) && |req[..0]| == 0;
    assert !Allocated(b, ip) && !IsNodeIP(b, ip);
    assert FirstFit(b, order, [], ip).None?;
    assert Assign(b, order, req) == AssignOne(b, order, Placement([], Completed), Some(ip));
  }
}
