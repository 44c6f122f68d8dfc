/** The port cache of pkg/ovn/port_cache.go: removal takes effect a minute later, by a timer of its own. */
module PortCache {
  import opened Wrappers

  /** time.MINUTE in the clock's unit. */
  const MINUTE: nat := 60000000000

  /** An lpInfo: its identity, and when it expires if it is marked for removal. */
  datatype Info = Info(id: nat, expires: Option<nat>)

  /** A goroutine started by remove; due is set once its time.After has been called. */
  datatype Timer = Timer(port: string, due: Option<nat>)

  /** The cache, the timers by the info that was marked, when each info was marked, and the clock. */
  datatype State = State(cache: map<string, Info>, timers: map<nat, Timer>, marked: map<nat, nat>, next: nat, now: nat)

  datatype Step =
    | Add(port: string)
    | Remove(port: string)
    | Start(id: nat)
    | Fire(id: nat)
    | Pass(time: nat)

  predicate Enabled(s: State, e: Step) {
    match e
    case Start(id) => id in s.timers && s.timers[id].due.None?
    case Fire(id) => id in s.timers && s.timers[id].due.Some? && s.timers[id].due.value <= s.now
    case _ => true
  }

  /** What a firing timer deletes: an entry whose expiry has passed, whoever marked it. */
  predicate Deletes(s: State, port: string) {
    port in s.cache && s.cache[port].expires.Some? && s.now > s.cache[port].expires.value
  }

  predicate Removable(s: State, port: string) {
    port in s.cache && s.cache[port].expires.None?
  }

  function Marked(s: State, port: string): State
    requires Removable(s, port)
  {
    var info := s.cache[port];
    s.(cache := s.cache[port := info.(expires := Some(s.now + MINUTE))],
       timers := s.timers[info.id := Timer(port, None)],
       marked := s.marked[info.id := s.now])
  }

  function Apply(s: State, e: Step): State
    requires Enabled(s, e)
  {
    match e
    case Add(port) => s.(cache := s.cache[port := Info(s.next, None)], next := s.next + 1)
    case Remove(port) => if Removable(s, port) then Marked(s, port) else s
    case Start(id) => s.(timers := s.timers[id := s.timers[id].(due := Some(s.now + MINUTE))])
    case Fire(id) =>
      var port := s.timers[id].port;
      s.(timers := s.timers - {id}, cache := if Deletes(s, port) then s.cache - {port} else s.cache)
    case Pass(t) => s.(now := s.now + t)
  }

  // ----- Safety

  /** Identities are fresh, and an entry is marked by a remove of that same info, a minute before it expires. */
  predicate Inv(s: State) {
    && (forall p | p in s.cache :: s.cache[p].id < s.next)
    && (forall p, q | p in s.cache && q in s.cache && p != q :: s.cache[p].id != s.cache[q].id)
    && (forall id | id in s.timers :: id < s.next && id in s.marked)
    && (forall id | id in s.marked :: id < s.next && s.marked[id] <= s.now)
    && (forall p | p in s.cache ::
          s.cache[p].expires == if s.cache[p].id in s.marked then Some(s.marked[s.cache[p].id] + MINUTE) else None)
    && (forall id | id in s.timers && s.timers[id].due.Some? :: s.timers[id].due.value >= s.marked[id] + MINUTE)
    && (forall p | p in s.cache && s.cache[p].id in s.timers :: s.timers[s.cache[p].id].port == p)
  }

  /** A cached entry that is marked has a pending timer. */
  predicate Timed(s: State) {
    forall p | p in s.cache && s.cache[p].expires.Some? :: s.cache[p].id in s.timers
  }

  lemma {:induction false} StepKeepsInv(s: State, e: Step)
    requires Inv(s) && Enabled(s, e)
    ensures Inv(Apply(s, e))
  {
    match e
    case Add(port) => AddKeepsInv(s, port);
    case Remove(port) =>
      if Removable(s, port) {
        MarkKeepsInv(s, port);
      }
    case Start(id) => StartKeepsInv(s, id);
    case Fire(id) => FireKeepsInv(s, id);
    case Pass(_) =>
  }

  lemma {:induction false} AddKeepsInv(s: State, port: string)
    requires Inv(s)
    ensures Inv(Apply(s, Add(port)))
  {
  }

  lemma {:induction false} StartKeepsInv(s: State, id: nat)
    requires Inv(s) && Enabled(s, Start(id))
    ensures Inv(Apply(s, Start(id)))
  {
  }

  lemma {:induction false} FireKeepsInv(s: State, id: nat)
    requires Inv(s) && Enabled(s, Fire(id))
    ensures Inv(Apply(s, Fire(id)))
  {
  }

  lemma {:induction false} MarkKeepsInv(s: State, port: string)
    requires Inv(s) && Removable(s, port)
    ensures Inv(Marked(s, port))
  {
  }

  ghost predicate Reaches(s: State, es: seq<Step>, t: State)
    decreases |es|
  {
    if es == [] then t == s else Enabled(s, es[0]) && Reaches(Apply(s, es[0]), es[1..], t)
  }

  lemma {:induction false} RunsKeepInv(s: State, es: seq<Step>, t: State)
    requires Inv(s) && Reaches(s, es, t)
    ensures Inv(t)
    decreases |es|
  {
    if es != [] {
      StepKeepsInv(s, es[0]);
      RunsKeepInv(Apply(s, es[0]), es[1..], t);
    }
  }

  const EMPTY: State := State(map[], map[], map[], 0, 0)

  /** Along the run, remove is called for the port while it maps to this info, still unmarked, and more than
      a minute before the given time. */
  ghost predicate RemovedBefore(s: State, es: seq<Step>, port: string, id: nat, time: nat)
    decreases |es|
  {
    && es != [] && Enabled(s, es[0])
    && ((es[0] == Remove(port) && Removable(s, port) && s.cache[port].id == id && s.now + MINUTE < time)
        || RemovedBefore(Apply(s, es[0]), es[1..], port, id, time))
  }

  /** In every run an entry is deleted only by a timer, and only if remove was called on that same info
      more than a minute earlier. */
  lemma {:induction false} RunsDeleteOnlyRemoved(es: seq<Step>, t: State, e: Step, port: string)
    requires Reaches(EMPTY, es, t) && Enabled(t, e) && port in t.cache && port !in Apply(t, e).cache
    ensures e.Fire? && RemovedBefore(EMPTY, es, port, t.cache[port].id, t.now)
  {
    RunsKeepInv(EMPTY, es, t);
    MarkedMeansRemoved(EMPTY, es, t, port, t.now);
  }

  /** An info is cached under one port only. */
  lemma {:induction false} InfoStays(s: State, es: seq<Step>, t: State, port: string)
    requires Inv(s) && Reaches(s, es, t) && port in t.cache && t.cache[port].id < s.next
    ensures port in s.cache && s.cache[port].id == t.cache[port].id
    decreases |es|
  {
    if es != [] {
      StepKeepsInv(s, es[0]);
      InfoStays(Apply(s, es[0]), es[1..], t, port);
    }
  }

  lemma {:induction false} MarkStays(s: State, es: seq<Step>, t: State, id: nat)
    requires Inv(s) && Reaches(s, es, t) && id in s.marked
    ensures id in t.marked && t.marked[id] == s.marked[id]
    decreases |es|
  {
    if es != [] {
      StepKeepsInv(s, es[0]);
      MarkStays(Apply(s, es[0]), es[1..], t, id);
    }
  }

  lemma {:induction false} MarkedMeansRemoved(s: State, es: seq<Step>, t: State, port: string, time: nat)
    requires Inv(s) && Reaches(s, es, t) && port in t.cache
    requires var id := t.cache[port].id; id !in s.marked && id in t.marked && t.marked[id] + MINUTE < time
    ensures RemovedBefore(s, es, port, t.cache[port].id, time)
    decreases |es|
  {
    if es != [] {
      var id, u := t.cache[port].id, Apply(s, es[0]);
      StepKeepsInv(s, es[0]);
      if id in u.marked {
        MarkStays(u, es[1..], t, id);
        InfoStays(u, es[1..], t, port);
      } else {
        MarkedMeansRemoved(u, es[1..], t, port, time);
      }
    }
  }

  /** A port added again is not dropped by the timers of the info it replaces, however late they fire:
      they all fire without touching it. */
  lemma {:induction false} StaleTimersSpareNewPort(s: State, port: string, es: seq<Step>, t: State)
    requires Inv(s) && Reaches(Apply(s, Add(port)), es, t)
    requires forall e <- es :: !(e.Remove? && e.port == port) && !(e.Add? && e.port == port)
    ensures port in t.cache && t.cache[port] == Info(s.next, None)
  {
    StepKeepsInv(s, Add(port));
    UnmarkedStays(Apply(s, Add(port)), port, es, t);
  }

  lemma {:induction false} UnmarkedStays(s: State, port: string, es: seq<Step>, t: State)
    requires Reaches(s, es, t) && Removable(s, port)
    requires forall e <- es :: !(e.Remove? && e.port == port) && !(e.Add? && e.port == port)
    ensures port in t.cache && t.cache[port] == s.cache[port]
    decreases |es|
  {
    if es != [] {
      assert es[0] in es;
      UnmarkedStays(Apply(s, es[0]), port, es[1..], t);
    }
  }

  // ----- Every marked entry goes, with one exception

  /** The firing happens at the very instant its own entry expires: the comparison is strict, the entry stays. */
  predicate TooPrompt(s: State, e: Step) {
    e.Fire? && e.id in s.timers
    && (var port := s.timers[e.id].port;
        port in s.cache && s.cache[port].id == e.id && s.cache[port].expires == Some(s.now))
  }

  /** Marked entries keep a timer in every step but one: a firing at the instant of expiry. */
  lemma {:induction false} StepKeepsTimedIff(s: State, e: Step)
    requires Inv(s) && Timed(s) && Enabled(s, e)
    ensures Timed(Apply(s, e)) <==> !TooPrompt(s, e)
  {
    var t := Apply(s, e);
    if e.Fire? {
      var port := s.timers[e.id].port;
      if port in s.cache && s.cache[port].id == e.id {
        assert s.cache[port].expires == Some(s.marked[e.id] + MINUTE);
        assert s.now >= s.cache[port].expires.value;
        assert !Deletes(s, port) ==> port in t.cache && t.cache[port].id !in t.timers;
      }
    }
  }

  ghost predicate Prompt(s: State, es: seq<Step>)
    decreases |es|
  {
    es != [] && Enabled(s, es[0]) && (TooPrompt(s, es[0]) || Prompt(Apply(s, es[0]), es[1..]))
  }

  /** Marked entries have their timers at every moment of the run. */
  ghost predicate AlwaysTimed(s: State, es: seq<Step>)
    decreases |es|
  {
    Timed(s) && (es != [] && Enabled(s, es[0]) ==> AlwaysTimed(Apply(s, es[0]), es[1..]))
  }

  /** In a run each marked entry has a pending timer throughout if and only if there is no such firing. */
  lemma {:induction false} RunsKeepTimedIff(s: State, es: seq<Step>, t: State)
    requires Inv(s) && Timed(s) && Reaches(s, es, t)
    ensures AlwaysTimed(s, es) <==> !Prompt(s, es)
    ensures AlwaysTimed(s, es) ==> Timed(t)
    decreases |es|
  {
    if es != [] {
      StepKeepsTimedIff(s, es[0]);
      StepKeepsInv(s, es[0]);
      if Timed(Apply(s, es[0])) {
        RunsKeepTimedIff(Apply(s, es[0]), es[1..], t);
      }
    }
  }

  /** A port added, removed, and its timer firing a minute later to the instant: the entry stays, and nothing is
      left to remove it. */
  lemma {:induction false} PromptFiringStrands(port: string)
    ensures exists es, t ::
      && Reaches(EMPTY, es, t) && Prompt(EMPTY, es) && t.timers == map[]
      && port in t.cache && t.cache[port].expires == Some(t.now)
  {
    var es := [Add(port), Remove(port), Start(0), Pass(MINUTE), Fire(0)];
    var s1 := Apply(EMPTY, es[0]);
    var s2 := Apply(s1, es[1]);
    var s3 := Apply(s2, es[2]);
    var s4 := Apply(s3, es[3]);
    var s5 := Apply(s4, es[4]);
    assert es[1..] == [es[1], es[2], es[3], es[4]] && es[1..][1..] == [es[2], es[3], es[4]];
    assert es[1..][1..][1..] == [es[3], es[4]] && es[1..][1..][1..][1..] == [es[4]] && es[1..][1..][1..][1..][1..] == [];
    assert TooPrompt(s4, es[4]);
    assert Reaches(s4, [es[4]], s5) && Prompt(s4, [es[4]]);
    assert Reaches(s3, [es[3], es[4]], s5) && Prompt(s3, [es[3], es[4]]);
    assert Reaches(s2, es[1..][1..], s5) && Prompt(s2, es[1..][1..]);
    assert Reaches(s1, es[1..], s5) && Prompt(s1, es[1..]);
    assert Reaches(EMPTY, es, s5) && Prompt(EMPTY, es);
  }

  predicate Untimed(s: State, port: string) {
    port in s.cache && s.cache[port].expires.Some? && forall id | id in s.timers :: s.timers[id].port != port
  }

  /** After it the entry, if no other timer is for its port, stays until the port is added again:
      whatever time passes, however often remove is called. */
  lemma {:induction false} TooPromptStays(s: State, e: Step, es: seq<Step>, t: State)
    requires Enabled(s, e) && TooPrompt(s, e) && Reaches(Apply(s, e), es, t)
    requires forall id | id in s.timers && id != e.id :: s.timers[id].port != s.timers[e.id].port
    requires forall f <- es :: f != Add(s.timers[e.id].port)
    ensures var port := s.timers[e.id].port;
            port in t.cache && t.cache[port] == s.cache[port]
  {
    StaysUntimed(Apply(s, e), s.timers[e.id].port, es, t);
  }

  lemma {:induction false} UntimedStep(s: State, port: string, e: Step)
    requires Untimed(s, port) && Enabled(s, e) && e != Add(port)
    ensures Untimed(Apply(s, e), port) && Apply(s, e).cache[port] == s.cache[port]
  {
    match e
    case Add(_) =>
    case Remove(_) =>
    case Start(_) =>
    case Fire(id) => assert s.timers[id].port != port;
    case Pass(_) =>
  }

  lemma {:induction false} StaysUntimed(s: State, port: string, es: seq<Step>, t: State)
    requires Reaches(s, es, t) && Untimed(s, port) && forall f <- es :: f != Add(port)
    ensures port in t.cache && t.cache[port] == s.cache[port]
    decreases |es|
  {
    if es != [] {
      assert es[0] in es;
      UntimedStep(s, port, es[0]);
      assert forall f <- es[1..] :: f in es;
      StaysUntimed(Apply(s, es[0]), port, es[1..], t);
    }
  }

  /** A port that is removed goes: once its goroutine has started and more than sixty seconds have passed, its timer
      deletes it. */
  lemma {:induction false} RemovedPortGoes(s: State, port: string, late: nat)
    requires Inv(s) && Removable(s, port) && late > 60_000_000_000
    ensures var id := s.cache[port].id;
            exists t :: Reaches(s, [Remove(port), Start(id), Pass(late), Fire(id)], t) && port !in t.cache
  {
    var id := s.cache[port].id;
    var es := [Remove(port), Start(id), Pass(late), Fire(id)];
    var s1 := Apply(s, es[0]);
    var s2 := Apply(s1, es[1]);
    var s3 := Apply(s2, es[2]);
    var s4 := Apply(s3, es[3]);
    assert es[1..] == [es[1], es[2], es[3]] && es[1..][1..] == [es[2], es[3]];
    assert es[1..][1..][1..] == [es[3]] && es[1..][1..][1..][1..] == [];
    assert Reaches(s3, [es[3]], s4);
    assert Reaches(s2, es[1..][1..], s4);
    assert Reaches(s1, es[1..], s4);
  }

  /** In every run without such a firing, each marked entry has its own pending timer, for its port,
      and that timer fires no earlier than the entry expires. */
  lemma {:induction false} MarkedEntriesArePending(es: seq<Step>, t: State, port: string)
    requires Reaches(EMPTY, es, t) && !Prompt(EMPTY, es)
    requires port in t.cache && t.cache[port].expires.Some?
    ensures var id := t.cache[port].id;
            && id in t.timers && t.timers[id].port == port
            && (t.timers[id].due.Some? ==> t.timers[id].due.value >= t.cache[port].expires.value)
  {
    RunsKeepInv(EMPTY, es, t);
    RunsKeepTimedIff(EMPTY, es, t);
  }

  /** Every goroutine of the run starts later than the instant of the removal that spawned it. */
  ghost predicate StartsLate(s: State, es: seq<Step>)
    decreases |es|
  {
    es != [] && Enabled(s, es[0]) ==>
      && (es[0].Start? && es[0].id in s.marked ==> s.marked[es[0].id] < s.now)
      && StartsLate(Apply(s, es[0]), es[1..])
  }

  predicate DueLate(s: State) {
    forall id | id in s.timers && s.timers[id].due.Some? ::
      id in s.marked && s.timers[id].due.value > s.marked[id] + MINUTE
  }

  /** Such a firing takes a goroutine that started in the very instant of the removal. */
  lemma {:induction false} LateStartsAreNeverTooPrompt(s: State, es: seq<Step>)
    requires Inv(s) && DueLate(s) && StartsLate(s, es)
    ensures !Prompt(s, es)
    decreases |es|
  {
    if es != [] && Enabled(s, es[0]) {
      StepKeepsInv(s, es[0]);
      LateStartsAreNeverTooPrompt(Apply(s, es[0]), es[1..]);
    }
  }

  // ----- The cache

  /** One logical port; expires is set in place when it is marked. */
  class LpInfo {
    const id: nat
    const name: string
    const uuid: string
    const logicalSwitch: string
    var expires: Option<nat>

    constructor (id: nat, logicalSwitch: string, name: string, uuid: string)
      ensures this.id == id && this.name == name && this.uuid == uuid && this.logicalSwitch == logicalSwitch
      ensures expires == None
    {
      this.id, this.logicalSwitch, this.name, this.uuid, expires := id, logicalSwitch, name, uuid, None;
    }
  }

  class PortTable {
    var cache: map<string, LpInfo>
    var timers: map<nat, Timer>
    ghost var marked: map<nat, nat>
    var next: nat
    var now: nat

    constructor ()
      ensures Is(EMPTY) && cache == map[]
    {
      cache, timers, marked, next, now := map[], map[], map[], 0, 0;
    }

    ghost predicate Is(s: State)
      reads this, set p | p in cache :: cache[p]
    {
      && s.timers == timers && s.marked == marked && s.next == next && s.now == now
      && s.cache.Keys == cache.Keys
      && forall p | p in cache :: s.cache[p] == Info(cache[p].id, cache[p].expires)
    }

    method Get(port: string) returns (info: Option<LpInfo>)
      ensures info == if port in cache then Some(cache[port]) else None
    {
      if port in cache {
        return Some(cache[port]);
      }
      return None;
    }

    method Add(logicalSwitch: string, port: string, uuid: string, ghost s: State) returns (info: LpInfo)
      requires Is(s)
      modifies this
      ensures Is(Apply(s, Step.Add(port)))
      ensures fresh(info) && cache == old(cache)[port := info]
      ensures info.name == port && info.uuid == uuid && info.logicalSwitch == logicalSwitch
    {
      info := new LpInfo(next, logicalSwitch, port, uuid);
      cache := cache[port := info];
      next := next + 1;
    }

    /** Marks the entry in place and starts its timer; the entry can still be read. */
    method Remove(port: string, ghost s: State)
      requires Is(s) && Inv(s)
      modifies this, set p | p in cache :: cache[p]
      ensures cache == old(cache) && Is(Apply(s, Step.Remove(port)))
    {
      if port !in cache || cache[port].expires.Some? {
        return;
      }
      var info := cache[port];
      info.expires := Some(now + MINUTE);
      timers := timers[info.id := Timer(port, None)];
      marked := marked[info.id := now];
    }

    method StartTimer(id: nat, ghost s: State)
      requires Is(s) && Enabled(s, Start(id))
      modifies this`timers
      ensures Is(Apply(s, Start(id)))
    {
      timers := timers[id := timers[id].(due := Some(now + MINUTE))];
    }

    /** The timer's goroutine: whatever the port maps to now is looked at, not the info that was marked. */
    method TimerFires(id: nat, ghost s: State)
      requires Is(s) && Enabled(s, Fire(id))
      modifies this`timers, this`cache
      ensures Is(Apply(s, Fire(id)))
    {
      var port := timers[id].port;
      if port in cache && cache[port].expires.Some? {
        if now > cache[port].expires.value {
          cache := cache - {port};
        }
      }
      timers := timers - {id};
    }
  }
}
