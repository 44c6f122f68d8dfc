/** The join-switch address manager of pkg/ovn/logical_switch_manager.go: calls interleave between the allocator
    locks and the cache lock; ensures and reservations of one node may overlap. */
module JoinSwitch {
  import opened Cidr

  type NodeName = string

  /** What a call in flight has done so far. Ensure takes one address per join subnet; Undo gives back what a
      failed call took. */
  datatype Call =
    | Ensure(n: NodeName, held: seq<IP>)
    | Reserve(n: NodeName, ips: seq<IP>, next: nat)
    | Undo(n: NodeName, left: set<IP>)

  /** A release that has freed the first next cached addresses. */
  datatype Release = Release(ips: seq<IP>, next: nat)

  /** The join subnets with the addresses each may hand out; one subnet per address family at most. */
  datatype JoinSubnet = JoinSubnet(cidr: Subnet, usable: set<IP>)

  type Config = seq<JoinSubnet>

  ghost predicate ValidConfig(c: Config) {
    && (forall i, ip | 0 <= i < |c| && ip in c[i].usable :: Contains(c[i].cidr, ip))
    && forall i, j | 0 <= i < j < |c| :: c[i].cidr.v6 != c[j].cidr.v6
  }

  predicate InSubnet(c: Config, ip: IP) {
    exists i | 0 <= i < |c| :: Contains(c[i].cidr, ip)
  }

  predicate Usable(c: Config, ip: IP) {
    exists i | 0 <= i < |c| :: ip in c[i].usable
  }

  /** taken is the union of what the subnet allocators have handed out; leaked records what calls have let go of
      without freeing it. Calls are told apart by number; the releases of one node are serialised. */
  datatype State = State(
    taken: set<IP>,
    cache: map<NodeName, seq<IP>>,
    calls: map<nat, Call>,
    releases: map<NodeName, Release>,
    leaked: set<IP>)

  const START := State({}, map[], map[], map[], {})

  datatype Step =
    | BeginEnsure(id: nat, n: NodeName)
    | EnsureTake(id: nat, ip: IP)
    | EnsureFull(id: nat)
    | EnsureStore(id: nat)
    | BeginReserve(id: nat, n: NodeName, ips: seq<IP>)
    | ReserveTake(id: nat)
    | ReserveStore(id: nat)
    | UndoOne(id: nat, ip: IP)
    | UndoEnd(id: nat)
    | BeginRelease(n: NodeName)
    | FreeOne(n: NodeName)
    | ReleaseEnd(n: NodeName)

  /** The addresses of a list that lie in a join subnet; only those touch an allocator. */
  ghost function Inside(c: Config, ips: seq<IP>): set<IP> {
    set ip | ip in ips && InSubnet(c, ip)
  }

  predicate SameSubnet(c: Config, a: IP, b: IP) {
    exists i | 0 <= i < |c| :: Contains(c[i].cidr, a) && Contains(c[i].cidr, b)
  }

  /** The next address of a reservation that its allocator refuses: used, reserved, or second for its subnet. */
  predicate Refused(c: Config, s: State, ips: seq<IP>, next: nat)
    requires next < |ips|
  {
    InSubnet(c, ips[next]) &&
    (!Usable(c, ips[next]) || ips[next] in s.taken || exists k | 0 <= k < next :: SameSubnet(c, ips[k], ips[next]))
  }

  predicate Ensuring(s: State, id: nat) {
    id in s.calls && s.calls[id].Ensure?
  }

  predicate Reserving(s: State, id: nat) {
    id in s.calls && s.calls[id].Reserve? && s.calls[id].next <= |s.calls[id].ips|
  }

  predicate Freeing(s: State, n: NodeName) {
    n in s.releases && s.releases[n].next <= |s.releases[n].ips|
  }

  ghost predicate Enabled(c: Config, s: State, step: Step) {
    match step
    case BeginEnsure(id, _) => id !in s.calls
    case EnsureTake(id, ip) =>
      Ensuring(s, id) && |s.calls[id].held| < |c| && ip in c[|s.calls[id].held|].usable && ip !in s.taken
    case EnsureFull(id) => Ensuring(s, id) && |s.calls[id].held| < |c| && c[|s.calls[id].held|].usable <= s.taken
    case EnsureStore(id) => Ensuring(s, id) && |s.calls[id].held| == |c|
    case BeginReserve(id, _, ips) => id !in s.calls && ips != [] && c != []
    case ReserveTake(id) => Reserving(s, id) && s.calls[id].next < |s.calls[id].ips|
    case ReserveStore(id) => Reserving(s, id) && s.calls[id].next == |s.calls[id].ips|
    case UndoOne(id, ip) => id in s.calls && s.calls[id].Undo? && ip in s.calls[id].left
    case UndoEnd(id) => id in s.calls && s.calls[id].Undo? && s.calls[id].left == {}
    case BeginRelease(n) => n !in s.releases
    case FreeOne(n) => Freeing(s, n) && s.releases[n].next < |s.releases[n].ips|
    case ReleaseEnd(n) => Freeing(s, n) && s.releases[n].next == |s.releases[n].ips|
  }

  function Elements(ips: seq<IP>): set<IP> {
    set ip | ip in ips
  }

  /** An ensure that finds its node cached when it stores returns nil, so that its deferred release gets a nil list
      and frees nothing. */
  predicate LosesStore(s: State, step: Step) {
    step.EnsureStore? && Ensuring(s, step.id) && s.calls[step.id].n in s.cache
  }

  ghost function Apply(c: Config, s: State, step: Step): State
    requires Enabled(c, s, step)
  {
    match step
    case BeginEnsure(id, n) => if n in s.cache then s else s.(calls := s.calls[id := Ensure(n, [])])
    case EnsureTake(id, ip) =>
      s.(taken := s.taken + {ip}, calls := s.calls[id := Ensure(s.calls[id].n, s.calls[id].held + [ip])])
    case EnsureFull(id) => s.(calls := s.calls[id := Undo(s.calls[id].n, Elements(s.calls[id].held))])
    case EnsureStore(id) =>
      if LosesStore(s, step) then s.(calls := s.calls - {id}, leaked := s.leaked + Elements(s.calls[id].held))
      else s.(cache := s.cache[s.calls[id].n := s.calls[id].held], calls := s.calls - {id})
    case BeginReserve(id, n, ips) => s.(calls := s.calls[id := Reserve(n, ips, 0)])
    case ReserveTake(id) =>
      var call := s.calls[id];
      if Refused(c, s, call.ips, call.next)
      then s.(calls := s.calls[id := Undo(call.n, Inside(c, call.ips[..call.next]))])
      else s.(taken := if InSubnet(c, call.ips[call.next]) then s.taken + {call.ips[call.next]} else s.taken,
              calls := s.calls[id := Reserve(call.n, call.ips, call.next + 1)])
    case ReserveStore(id) =>
      var call := s.calls[id];
      if call.n in s.cache then s.(calls := s.calls[id := Undo(call.n, Inside(c, call.ips))])
      else s.(cache := s.cache[call.n := call.ips], calls := s.calls - {id})
    case UndoOne(id, ip) =>
      s.(taken := s.taken - {ip}, calls := s.calls[id := Undo(s.calls[id].n, s.calls[id].left - {ip})])
    case UndoEnd(id) => s.(calls := s.calls - {id})
    case BeginRelease(n) => if n in s.cache then s.(releases := s.releases[n := Release(s.cache[n], 0)]) else s
    case FreeOne(n) =>
      var r := s.releases[n];
      s.(taken := if InSubnet(c, r.ips[r.next]) then s.taken - {r.ips[r.next]} else s.taken,
         releases := s.releases[n := Release(r.ips, r.next + 1)])
    case ReleaseEnd(n) => s.(cache := s.cache - {n}, releases := s.releases - {n})
  }

  // ----- Who owns what

  ghost predicate DistinctInside(c: Config, ips: seq<IP>) {
    forall k, l | 0 <= k < l < |ips| && InSubnet(c, ips[k]) :: ips[k] != ips[l]
  }

  /** A cache entry, a call in flight, or nobody: leaked addresses. */
  datatype Owner = Entry(n: NodeName) | Caller(id: nat) | Nobody

  /** Cached addresses stand for themselves until a release has freed them. */
  ghost function Owned(c: Config, s: State, o: Owner): set<IP> {
    match o
    case Entry(n) =>
      if Freeing(s, n) then Inside(c, s.releases[n].ips[s.releases[n].next..])
      else if n in s.cache then Inside(c, s.cache[n])
      else {}
    case Caller(id) =>
      if id !in s.calls then {}
      else (match s.calls[id]
            case Ensure(_, held) => Inside(c, held)
            case Reserve(_, ips, next) => if next <= |ips| then Inside(c, ips[..next]) else {}
            case Undo(_, left) => left)
    case Nobody => s.leaked
  }

  ghost predicate CallInv(c: Config, s: State, id: nat) {
    id in s.calls ==>
      match s.calls[id]
      case Ensure(_, held) => |held| <= |c| && forall k | 0 <= k < |held| :: held[k] in c[k].usable
      case Reserve(_, ips, next) => next <= |ips| && DistinctInside(c, ips[..next])
      case Undo(_, _) => true
  }

  ghost predicate EntryInv(c: Config, s: State, n: NodeName) {
    && (n in s.cache ==> DistinctInside(c, s.cache[n]))
    && (n in s.releases ==> Freeing(s, n) && n in s.cache && s.cache[n] == s.releases[n].ips)
  }

  /** The allocators hold exactly the owned addresses, and no address has two owners. */
  ghost predicate OwnInv(c: Config, s: State) {
    && (forall ip :: ip in s.taken <==> exists o :: ip in Owned(c, s, o))
    && forall o, q | o != q :: Owned(c, s, o) !! Owned(c, s, q)
  }

  ghost predicate Inv(c: Config, s: State) {
    OwnInv(c, s) && (forall id :: CallInv(c, s, id)) && forall n :: EntryInv(c, s, n)
  }

  // ----- How ownership moves

  /** All owners but these two keep what they have. */
  ghost predicate OthersKeep(c: Config, s: State, t: State, a: Owner, b: Owner) {
    forall o | o != a && o != b :: Owned(c, t, o) == Owned(c, s, o)
  }

  lemma {:induction false} OwnTaken(c: Config, s: State, t: State, o: Owner, added: set<IP>)
    requires OwnInv(c, s) && OthersKeep(c, s, t, o, o) && added !! s.taken
    requires Owned(c, t, o) == Owned(c, s, o) + added && t.taken == s.taken + added
    ensures OwnInv(c, t)
  {
    forall ip
      ensures ip in t.taken <==> exists q :: ip in Owned(c, t, q)
    {
      if ip in s.taken {
        var q :| ip in Owned(c, s, q);
        assert ip in Owned(c, t, q);
      } else if ip in added {
        assert ip in Owned(c, t, o);
      }
      if q :| ip in Owned(c, t, q) {
        assert ip in Owned(c, s, q) || ip in added;
      }
    }
    forall q, r | q != r
      ensures Owned(c, t, q) !! Owned(c, t, r)
    {
      assert forall x :: x in Owned(c, s, q) ==> x in s.taken;
      assert forall x :: x in Owned(c, s, r) ==> x in s.taken;
    }
  }

  lemma {:induction false} OwnFreed(c: Config, s: State, t: State, o: Owner, removed: set<IP>)
    requires OwnInv(c, s) && OthersKeep(c, s, t, o, o) && removed <= Owned(c, s, o)
    requires Owned(c, t, o) == Owned(c, s, o) - removed && t.taken == s.taken - removed
    ensures OwnInv(c, t)
  {
    forall ip
      ensures ip in t.taken <==> exists q :: ip in Owned(c, t, q)
    {
      if ip in t.taken {
        var q :| ip in Owned(c, s, q);
        assert ip in Owned(c, t, q);
      }
      if q :| ip in Owned(c, t, q) {
        assert ip in Owned(c, s, q) && (q != o ==> ip !in Owned(c, s, o));
      }
    }
    forall q, r | q != r
      ensures Owned(c, t, q) !! Owned(c, t, r)
    {
      assert Owned(c, t, q) <= Owned(c, s, q) && Owned(c, t, r) <= Owned(c, s, r);
    }
  }

  /** One owner hands everything to another that had nothing, or both stay as they are. */
  lemma {:induction false} OwnHanded(c: Config, s: State, t: State, a: Owner, b: Owner)
    requires OwnInv(c, s) && OthersKeep(c, s, t, a, b) && a != b && t.taken == s.taken
    requires Owned(c, t, a) == {} && Owned(c, t, b) == Owned(c, s, b) + Owned(c, s, a)
    ensures OwnInv(c, t)
  {
    forall ip
      ensures ip in t.taken <==> exists q :: ip in Owned(c, t, q)
    {
      if ip in s.taken {
        var q :| ip in Owned(c, s, q);
        assert ip in Owned(c, t, if q == a then b else q);
      }
      if q :| ip in Owned(c, t, q) {
        assert ip in Owned(c, s, q) || ip in Owned(c, s, a);
      }
    }
    forall q, r | q != r
      ensures Owned(c, t, q) !! Owned(c, t, r)
    {
      assert Owned(c, s, q) !! Owned(c, s, r) && Owned(c, s, a) !! Owned(c, s, b);
      assert q != a ==> Owned(c, s, q) !! Owned(c, s, a);
      assert r != a ==> Owned(c, s, r) !! Owned(c, s, a);
    }
  }

  lemma {:induction false} OwnSame(c: Config, s: State, t: State)
    requires OwnInv(c, s) && t.taken == s.taken && forall o :: Owned(c, t, o) == Owned(c, s, o)
    ensures OwnInv(c, t)
  {
    forall ip
      ensures ip in t.taken <==> exists q :: ip in Owned(c, t, q)
    {
      if ip in s.taken {
        var q :| ip in Owned(c, s, q);
        assert ip in Owned(c, t, q);
      }
      if q :| ip in Owned(c, t, q) {
        assert ip in Owned(c, s, q);
      }
    }
  }

  lemma {:induction false} InsideMore(c: Config, ips: seq<IP>, ip: IP)
    ensures Inside(c, ips + [ip]) == Inside(c, ips) + if InSubnet(c, ip) then {ip} else {}
  {
    assert forall x :: x in ips + [ip] <==> x in ips || x == ip;
  }

  lemma {:induction false} InsideUsable(c: Config, held: seq<IP>)
    requires ValidConfig(c) && |held| <= |c| && forall k | 0 <= k < |held| :: held[k] in c[k].usable
    ensures Inside(c, held) == Elements(held) && DistinctInside(c, held)
  {
  }

  // ----- Each step

  lemma {:induction false} CallsStay(c: Config, s: State, step: Step, id: nat)
    requires CallInv(c, s, id) && Enabled(c, s, step)
    ensures CallInv(c, Apply(c, s, step), id)
  {
    if step.ReserveTake? && step.id == id && !Refused(c, s, s.calls[id].ips, s.calls[id].next) {
      TakenDistinct(c, s, id);
    }
  }

  lemma {:induction false} TakenDistinct(c: Config, s: State, id: nat)
    requires CallInv(c, s, id) && Enabled(c, s, ReserveTake(id)) && !Refused(c, s, s.calls[id].ips, s.calls[id].next)
    ensures DistinctInside(c, s.calls[id].ips[..s.calls[id].next + 1])
  {
    var ips, next := s.calls[id].ips, s.calls[id].next;
    assert ips[..next + 1] == ips[..next] + [ips[next]];
    forall k | 0 <= k < next && InSubnet(c, ips[k])
      ensures ips[k] != ips[next]
    {
      if ips[k] == ips[next] {
        assert SameSubnet(c, ips[k], ips[next]);
        assert false;
      }
    }
  }

  lemma {:induction false} EntriesStay(c: Config, s: State, step: Step)
    requires Inv(c, s) && Enabled(c, s, step) && ValidConfig(c)
    ensures forall n :: EntryInv(c, Apply(c, s, step), n)
  {
    forall n
      ensures EntryInv(c, Apply(c, s, step), n)
    {
      assert EntryInv(c, s, n);
      if step.EnsureStore? {
        assert CallInv(c, s, step.id);
        InsideUsable(c, s.calls[step.id].held);
      } else if step.ReserveStore? {
        assert CallInv(c, s, step.id);
        assert s.calls[step.id].ips[..s.calls[step.id].next] == s.calls[step.id].ips;
      }
    }
  }

  lemma {:induction false} EnsureTakeKept(c: Config, s: State, id: nat, ip: IP)
    requires ValidConfig(c) && OwnInv(c, s) && Enabled(c, s, EnsureTake(id, ip))
    ensures OwnInv(c, Apply(c, s, EnsureTake(id, ip)))
  {
    InsideMore(c, s.calls[id].held, ip);
    assert InSubnet(c, ip);
    OwnTaken(c, s, Apply(c, s, EnsureTake(id, ip)), Caller(id), {ip});
  }

  lemma {:induction false} EnsureFullKept(c: Config, s: State, id: nat)
    requires ValidConfig(c) && OwnInv(c, s) && CallInv(c, s, id) && Enabled(c, s, EnsureFull(id))
    ensures OwnInv(c, Apply(c, s, EnsureFull(id)))
  {
    InsideUsable(c, s.calls[id].held);
    OwnSame(c, s, Apply(c, s, EnsureFull(id)));
  }

  lemma {:induction false} EnsureStoreKept(c: Config, s: State, id: nat)
    requires ValidConfig(c) && OwnInv(c, s) && CallInv(c, s, id) && Enabled(c, s, EnsureStore(id)) && EntryInv(c, s, s.calls[id].n)
    ensures OwnInv(c, Apply(c, s, EnsureStore(id)))
  {
    InsideUsable(c, s.calls[id].held);
    OwnHanded(c, s, Apply(c, s, EnsureStore(id)), Caller(id),
              if LosesStore(s, EnsureStore(id)) then Nobody else Entry(s.calls[id].n));
  }

  lemma {:induction false} ReserveTakeKept(c: Config, s: State, id: nat)
    requires Inv(c, s) && Enabled(c, s, ReserveTake(id))
    ensures OwnInv(c, Apply(c, s, ReserveTake(id)))
  {
    var t, ips, next := Apply(c, s, ReserveTake(id)), s.calls[id].ips, s.calls[id].next;
    if Refused(c, s, ips, next) {
      OwnSame(c, s, t);
    } else {
      assert ips[..next + 1] == ips[..next] + [ips[next]];
      InsideMore(c, ips[..next], ips[next]);
      OwnTaken(c, s, t, Caller(id), if InSubnet(c, ips[next]) then {ips[next]} else {});
    }
  }

  lemma {:induction false} ReserveStoreKept(c: Config, s: State, id: nat)
    requires Inv(c, s) && Enabled(c, s, ReserveStore(id))
    ensures OwnInv(c, Apply(c, s, ReserveStore(id)))
  {
    var t, n, ips := Apply(c, s, ReserveStore(id)), s.calls[id].n, s.calls[id].ips;
    assert EntryInv(c, s, n);
    assert ips[..s.calls[id].next] == ips;
    if n in s.cache {
      OwnSame(c, s, t);
    } else {
      OwnHanded(c, s, t, Caller(id), Entry(n));
    }
  }

  lemma {:induction false} FreeOneKept(c: Config, s: State, n: NodeName)
    requires Inv(c, s) && Enabled(c, s, FreeOne(n))
    ensures OwnInv(c, Apply(c, s, FreeOne(n)))
  {
    var t, ips, next := Apply(c, s, FreeOne(n)), s.releases[n].ips, s.releases[n].next;
    var removed := if InSubnet(c, ips[next]) then {ips[next]} else {};
    assert EntryInv(c, s, n);
    assert ips[next..] == [ips[next]] + ips[next + 1..];
    assert Inside(c, ips[next + 1..]) == Inside(c, ips[next..]) - removed;
    OwnFreed(c, s, t, Entry(n), removed);
  }

  /** Steps that start or end a call or a release move no address. */
  lemma {:induction false} QuietKept(c: Config, s: State, step: Step)
    requires Inv(c, s) && Enabled(c, s, step)
    requires step.BeginEnsure? || step.BeginReserve? || step.BeginRelease? || step.UndoEnd? || step.ReleaseEnd?
    ensures OwnInv(c, Apply(c, s, step))
  {
    var t := Apply(c, s, step);
    if step.BeginReserve? {
      assert step.ips[..0] == [];
    } else if step.BeginRelease? && step.n in s.cache {
      assert s.cache[step.n][0..] == s.cache[step.n];
    } else if step.ReleaseEnd? {
      assert EntryInv(c, s, step.n) && s.releases[step.n].ips[s.releases[step.n].next..] == [];
    }
    OwnSame(c, s, t);
  }

  /** Every step of overlapping calls keeps ownership complete, unique and, but for what is leaked, in hand. */
  lemma {:induction false} InvKept(c: Config, s: State, step: Step)
    requires ValidConfig(c) && Inv(c, s) && Enabled(c, s, step)
    ensures Inv(c, Apply(c, s, step))
  {
    forall id
      ensures CallInv(c, Apply(c, s, step), id)
    {
      CallsStay(c, s, step, id);
    }
    EntriesStay(c, s, step);
    match step
    case EnsureTake(id, ip) => EnsureTakeKept(c, s, id, ip);
    case EnsureFull(id) => EnsureFullKept(c, s, id);
    case EnsureStore(id) => EnsureStoreKept(c, s, id);
    case ReserveTake(id) => ReserveTakeKept(c, s, id);
    case ReserveStore(id) => ReserveStoreKept(c, s, id);
    case UndoOne(id, ip) => OwnFreed(c, s, Apply(c, s, step), Caller(id), {ip});
    case FreeOne(n) => FreeOneKept(c, s, n);
    case _ => QuietKept(c, s, step);
  }

  // ----- Runs

  ghost predicate IsRun(c: Config, states: seq<State>, steps: seq<Step>) {
    && |states| == |steps| + 1 && states[0] == START
    && forall i | 0 <= i < |steps| ::
         Enabled(c, states[i], steps[i]) && states[i + 1] == Apply(c, states[i], steps[i])
  }

  lemma {:induction false} RunInv(c: Config, states: seq<State>, steps: seq<Step>, k: nat)
    requires ValidConfig(c) && IsRun(c, states, steps) && k <= |steps|
    ensures Inv(c, states[k])
  {
    if k == 0 {
      assert forall o :: Owned(c, START, o) == {};
    } else {
      RunInv(c, states, steps, k - 1);
      InvKept(c, states[k - 1], steps[k - 1]);
      assert states[k - 1 + 1] == Apply(c, states[k - 1], steps[k - 1]);
    }
  }

  /** At every moment each allocated address has one owner: a cache entry that still stands for it, a call in
      flight, or nobody. */
  lemma {:induction false} RunAllocationsAreOwned(c: Config, states: seq<State>, steps: seq<Step>)
    requires ValidConfig(c) && IsRun(c, states, steps)
    ensures var s := states[|steps|];
            && (forall ip :: ip in s.taken <==> exists o :: ip in Owned(c, s, o))
            && (forall o, q | o != q :: Owned(c, s, o) !! Owned(c, s, q))
  {
    RunInv(c, states, steps, |steps|);
  }

  /** Some step of the first k found its node cached when it stored what an ensure had taken. */
  ghost predicate LostOne(states: seq<State>, steps: seq<Step>, k: nat)
    requires k <= |steps| && k <= |states|
  {
    exists i | 0 <= i < k :: LosesStore(states[i], steps[i])
  }

  /** Addresses leak in a run if and only if an ensure loses the race to store; nothing else in any overlap of calls
      loses an address. */
  lemma {:induction false} RunLeaksIff(c: Config, states: seq<State>, steps: seq<Step>, k: nat)
    requires IsRun(c, states, steps) && k <= |steps|
    ensures states[k].leaked != {} <==> c != [] && LostOne(states, steps, k)
  {
    if k > 0 {
      RunLeaksIff(c, states, steps, k - 1);
      var s, step := states[k - 1], steps[k - 1];
      assert states[k - 1 + 1] == Apply(c, s, step);
      assert LostOne(states, steps, k) <==> LostOne(states, steps, k - 1) || LosesStore(s, step);
      if LosesStore(s, step) && c != [] {
        assert s.calls[step.id].held[0] in Elements(s.calls[step.id].held);
      }
    }
  }

  /** What has leaked stays allocated. */
  lemma {:induction false} LeakedStays(c: Config, states: seq<State>, steps: seq<Step>, i: nat, k: nat)
    requires ValidConfig(c) && IsRun(c, states, steps) && i <= k <= |steps|
    ensures states[i].leaked <= states[k].leaked <= states[k].taken
  {
    RunInv(c, states, steps, k);
    assert states[k].leaked == Owned(c, states[k], Nobody);
    if i < k {
      LeakedStays(c, states, steps, i, k - 1);
      assert states[k - 1 + 1] == Apply(c, states[k - 1], steps[k - 1]);
    }
  }

  /** At most one call for each node. */
  ghost predicate Serial(s: State) {
    forall i, k | i in s.calls && k in s.calls && i != k :: s.calls[i].n != s.calls[k].n
  }

  ghost predicate EnsuresUncached(s: State) {
    forall id | Ensuring(s, id) :: s.calls[id].n !in s.cache
  }

  /** If the calls for each node are serialised, nothing leaks. */
  lemma {:induction false} SerialRunsNeverLeak(c: Config, states: seq<State>, steps: seq<Step>, k: nat)
    requires IsRun(c, states, steps) && k <= |steps| && forall i | 0 <= i < k :: Serial(states[i])
    ensures states[k].leaked == {} && EnsuresUncached(states[k])
  {
    if k > 0 {
      SerialRunsNeverLeak(c, states, steps, k - 1);
      SerialStep(c, states[k - 1], steps[k - 1]);
      assert states[k - 1 + 1] == Apply(c, states[k - 1], steps[k - 1]);
    }
  }

  lemma {:induction false} SerialStep(c: Config, s: State, step: Step)
    requires Enabled(c, s, step) && Serial(s) && EnsuresUncached(s)
    ensures Apply(c, s, step).leaked == s.leaked && EnsuresUncached(Apply(c, s, step))
  {
    var t := Apply(c, s, step);
    forall id | Ensuring(t, id)
      ensures t.calls[id].n !in t.cache
    {
      if step.EnsureStore? || step.ReserveStore? {
        assert id in s.calls && (id != step.id ==> s.calls[id].n != s.calls[step.id].n);
      } else if Ensuring(s, id) {
        assert s.calls[id].n !in s.cache;
      }
    }
  }

  /** Two overlapping ensures of one node, after k steps. */
  function Overlap(n: NodeName, x: IP, y: IP, k: nat): State {
    if k == 0 then START
    else if k == 1 then State({}, map[], map[0 := Ensure(n, [])], map[], {})
    else if k == 2 then State({}, map[], map[0 := Ensure(n, []), 1 := Ensure(n, [])], map[], {})
    else if k == 3 then State({x}, map[], map[0 := Ensure(n, [x]), 1 := Ensure(n, [])], map[], {})
    else if k == 4 then State({x, y}, map[], map[0 := Ensure(n, [x]), 1 := Ensure(n, [y])], map[], {})
    else if k == 5 then State({x, y}, map[n := [x]], map[1 := Ensure(n, [y])], map[], {})
    else State({x, y}, map[n := [x]], map[], map[], {y})
  }

  function OverlapStep(n: NodeName, x: IP, y: IP, k: nat): Step {
    if k == 0 then BeginEnsure(0, n)
    else if k == 1 then BeginEnsure(1, n)
    else if k == 2 then EnsureTake(0, x)
    else if k == 3 then EnsureTake(1, y)
    else if k == 4 then EnsureStore(0)
    else EnsureStore(1)
  }

  ghost predicate Follows(c: Config, s: State, step: Step, t: State) {
    Enabled(c, s, step) && t == Apply(c, s, step)
  }

  lemma {:induction false} OverlapTakes(c: Config, n: NodeName, x: IP, y: IP, k: nat)
    requires |c| == 1 && c[0].usable == {x, y} && x != y && k < 4
    ensures Follows(c, Overlap(n, x, y, k), OverlapStep(n, x, y, k), Overlap(n, x, y, k + 1))
  {
    var s, t := Overlap(n, x, y, k), Apply(c, Overlap(n, x, y, k), OverlapStep(n, x, y, k));
    assert [] + [x] == [x] && [] + [y] == [y];
    assert t.calls == Overlap(n, x, y, k + 1).calls;
  }

  lemma {:induction false} OverlapStores(c: Config, n: NodeName, x: IP, y: IP, k: nat)
    requires |c| == 1 && 4 <= k < 6
    ensures Follows(c, Overlap(n, x, y, k), OverlapStep(n, x, y, k), Overlap(n, x, y, k + 1))
  {
    var t := Apply(c, Overlap(n, x, y, k), OverlapStep(n, x, y, k));
    assert t.calls == Overlap(n, x, y, k + 1).calls;
    assert t.cache == Overlap(n, x, y, k + 1).cache;
  }

  /** Both take an address, one is cached, the other leaks. */
  lemma {:induction false} OverlappingEnsuresLeak(cidr: Subnet, x: IP, y: IP, n: NodeName)
    requires x != y && Contains(cidr, x) && Contains(cidr, y)
    ensures exists states, steps ::
      && IsRun([JoinSubnet(cidr, {x, y})], states, steps)
      && states[|steps|] == State({x, y}, map[n := [x]], map[], map[], {y})
  {
    var c: Config := [JoinSubnet(cidr, {x, y})];
    var states, steps := seq(7, k requires 0 <= k => Overlap(n, x, y, k)), seq(6, k requires 0 <= k => OverlapStep(n, x, y, k));
    forall k | 0 <= k < 6
      ensures Follows(c, states[k], steps[k], states[k + 1])
    {
      if k < 4 {
        OverlapTakes(c, n, x, y, k);
      } else {
        OverlapStores(c, n, x, y, k);
      }
    }
    assert IsRun(c, states, steps);
  }

  /** At rest the allocators hold the cached in-subnet addresses and what has leaked, no two nodes share one, and
      without leaks they hold the cache entries whole exactly when only in-subnet addresses were ever reserved. */
  lemma {:induction false} RestingAllocations(c: Config, states: seq<State>, steps: seq<Step>)
    requires ValidConfig(c) && IsRun(c, states, steps) && states[|steps|].calls == map[] && states[|steps|].releases == map[]
    ensures var s := states[|steps|];
            && (forall ip :: ip in s.taken <==> ip in s.leaked || (InSubnet(c, ip) && exists n :: n in s.cache && ip in s.cache[n]))
            && (forall m, n, ip | m in s.cache && n in s.cache && ip in s.cache[m] && ip in s.cache[n] && InSubnet(c, ip) ::
                  m == n)
            && (s.leaked == {} ==>
                  ((forall ip :: ip in s.taken <==> exists n :: n in s.cache && ip in s.cache[n])
                   <==> forall n, ip | n in s.cache && ip in s.cache[n] :: InSubnet(c, ip)))
  {
    RunInv(c, states, steps, |steps|);
    var s := states[|steps|];
    forall ip
      ensures ip in s.taken <==> ip in s.leaked || (InSubnet(c, ip) && exists n :: n in s.cache && ip in s.cache[n])
    {
      if ip in s.taken {
        var o :| ip in Owned(c, s, o);
        assert o.Entry? ==> o.n in s.cache && ip in s.cache[o.n];
      }
      if n :| n in s.cache && ip in s.cache[n] && InSubnet(c, ip) {
        assert ip in Owned(c, s, Entry(n));
      }
      assert ip in s.leaked ==> ip in Owned(c, s, Nobody);
    }
    forall m, n, ip | m in s.cache && n in s.cache && ip in s.cache[m] && ip in s.cache[n] && InSubnet(c, ip)
      ensures m == n
    {
      assert ip in Owned(c, s, Entry(m)) && ip in Owned(c, s, Entry(n));
    }
  }

  // ----- A reservation and its release

  ghost predicate Path(c: Config, s: State, es: seq<Step>, t: State)
    decreases |es|
  {
    if es == [] then t == s else Enabled(c, s, es[0]) && Path(c, Apply(c, s, es[0]), es[1..], t)
  }

  lemma {:induction false} PathThen(c: Config, s: State, es: seq<Step>, t: State, e: Step)
    requires Path(c, s, es, t) && Enabled(c, t, e)
    ensures Path(c, s, es + [e], Apply(c, t, e))
    decreases |es|
  {
    if es == [] {
      assert es + [e] == [e] && [e][1..] == [];
      assert Path(c, Apply(c, t, e), [], Apply(c, t, e));
    } else {
      PathThen(c, Apply(c, s, es[0]), es[1..], t, e);
      assert (es + [e])[1..] == es[1..] + [e];
    }
  }

  /** No allocator refuses an address of the list, one after the other. */
  ghost predicate Acceptable(c: Config, s: State, ips: seq<IP>) {
    forall k | 0 <= k < |ips| && InSubnet(c, ips[k]) ::
      && Usable(c, ips[k]) && ips[k] !in s.taken && forall l | 0 <= l < k :: !SameSubnet(c, ips[l], ips[k])
  }

  lemma {:induction false} InsideUpTo(c: Config, ips: seq<IP>, k: nat)
    requires k < |ips|
    ensures Inside(c, ips[..k + 1]) == Inside(c, ips[..k]) + if InSubnet(c, ips[k]) then {ips[k]} else {}
  {
    assert ips[..k + 1] == ips[..k] + [ips[k]];
    InsideMore(c, ips[..k], ips[k]);
  }

  /** The first k addresses are taken. */
  lemma {:induction false} ReserveSome(c: Config, s: State, id: nat, n: NodeName, ips: seq<IP>, k: nat) returns (es: seq<Step>, t: State)
    requires id !in s.calls && ips != [] && c != [] && Acceptable(c, s, ips) && k <= |ips|
    ensures Path(c, s, es, t) && t == s.(taken := s.taken + Inside(c, ips[..k]), calls := s.calls[id := Reserve(n, ips, k)])
  {
    if k == 0 {
      es, t := [BeginReserve(id, n, ips)], Apply(c, s, BeginReserve(id, n, ips));
      assert es[1..] == [] && Inside(c, ips[..0]) == {};
    } else {
      var u;
      es, u := ReserveSome(c, s, id, n, ips, k - 1);
      InsideUpTo(c, ips, k - 1);
      var ip := ips[k - 1];
      assert InSubnet(c, ip) ==> ip !in Inside(c, ips[..k - 1]) by {
        assert forall l | 0 <= l < k - 1 && ips[l] == ip && InSubnet(c, ip) :: SameSubnet(c, ips[l], ip);
      }
      assert !Refused(c, u, ips, k - 1);
      PathThen(c, s, es, u, ReserveTake(id));
      es, t := es + [ReserveTake(id)], Apply(c, u, ReserveTake(id));
    }
  }

  lemma {:induction false} FreeSome(c: Config, s: State, n: NodeName, k: nat) returns (es: seq<Step>, t: State)
    requires n in s.cache && n !in s.releases && k <= |s.cache[n]|
    ensures Path(c, s, es, t)
    ensures t == s.(taken := s.taken - Inside(c, s.cache[n][..k]), releases := s.releases[n := Release(s.cache[n], k)])
  {
    if k == 0 {
      es, t := [BeginRelease(n)], Apply(c, s, BeginRelease(n));
      assert es[1..] == [] && Inside(c, s.cache[n][..0]) == {};
    } else {
      var u;
      es, u := FreeSome(c, s, n, k - 1);
      InsideUpTo(c, s.cache[n], k - 1);
      PathThen(c, s, es, u, FreeOne(n));
      es, t := es + [FreeOne(n)], Apply(c, u, FreeOne(n));
    }
  }

  /** Addresses that are free can be reserved for a node that is not cached: they are taken and cached. */
  lemma {:induction false} CanReserve(c: Config, s: State, id: nat, n: NodeName, ips: seq<IP>) returns (es: seq<Step>, t: State)
    requires id !in s.calls && n !in s.cache && ips != [] && c != [] && Acceptable(c, s, ips)
    ensures Path(c, s, es, t) && t == s.(taken := s.taken + Inside(c, ips), cache := s.cache[n := ips])
  {
    var u;
    es, u := ReserveSome(c, s, id, n, ips, |ips|);
    assert ips[..|ips|] == ips;
    PathThen(c, s, es, u, ReserveStore(id));
    es, t := es + [ReserveStore(id)], Apply(c, u, ReserveStore(id));
    assert t.calls == s.calls;
  }

  /** A cached node can be released: its addresses are free again, and it is forgotten. */
  lemma {:induction false} CanRelease(c: Config, s: State, n: NodeName) returns (es: seq<Step>, t: State)
    requires n in s.cache && n !in s.releases
    ensures Path(c, s, es, t) && t == s.(taken := s.taken - Inside(c, s.cache[n]), cache := s.cache - {n})
  {
    var u, ips := s, s.cache[n];
    es, u := FreeSome(c, s, n, |ips|);
    assert ips[..|ips|] == ips;
    PathThen(c, s, es, u, ReleaseEnd(n));
    es, t := es + [ReleaseEnd(n)], Apply(c, u, ReleaseEnd(n));
    assert t.releases == s.releases;
  }
}
