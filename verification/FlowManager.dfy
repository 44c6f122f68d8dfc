/** The OpenFlow manager of pkg/node/healthcheck.go: a flow cache, a one-slot channel and the loop that installs. */
module FlowManager {

  type Flows = map<string, seq<string>>

  /** Every line of every entry. */
  function Lines(cache: Flows): set<string> {
    set key, line | key in cache && line in cache[key] :: line
  }

  /** The runner between receiving (or ticking) and replacing the flows. */
  datatype Runner = Idle | Woken

  /** The cache, the channel's token, the threads that changed the cache and have not yet requested a sync,
      the runner, what is on the bridge, and whether the last replacement failed. */
  datatype State = State(cache: Flows, token: bool, owing: set<nat>, runner: Runner, bridge: set<string>, failed: bool)

  datatype Step =
    | Update(thread: nat, key: string, flows: seq<string>)
    | Delete(thread: nat, key: string)
    | Request(thread: nat)
    | Receive
    | Tick
    // a failed replacement leaves anything on the bridge
    | Replace(ok: bool, garbage: set<string>)

  predicate Enabled(s: State, e: Step) {
    match e
    case Receive => s.runner == Idle && s.token
    case Tick => s.runner == Idle
    case Replace(_, _) => s.runner == Woken
    case _ => true
  }

  function Apply(s: State, e: Step): State {
    match e
    case Update(t, key, flows) => s.(cache := s.cache[key := flows], owing := s.owing + {t})
    case Delete(t, key) => s.(cache := s.cache - {key}, owing := s.owing + {t})
    case Request(t) => s.(token := true, owing := s.owing - {t})
    case Receive => s.(token := false, runner := Woken)
    case Tick => s.(runner := Woken)
    case Replace(ok, garbage) =>
      s.(runner := Idle, bridge := if ok then Lines(s.cache) else garbage, failed := !ok)
  }

  predicate Installed(s: State) {
    s.bridge == Lines(s.cache)
  }

  /** Whenever the bridge differs from the cache, something is bound to bring the runner to replace the flows. */
  predicate NoLostWakeUp(s: State) {
    !Installed(s) ==> s.token || s.owing != {} || s.runner == Woken || s.failed
  }

  ghost predicate Reaches(s: State, es: seq<Step>, t: State)
    decreases |es|
  {
    if es == [] then t == s else Enabled(s, es[0]) && Reaches(Apply(s, es[0]), es[1..], t)
  }

  lemma {:induction false} StepKeeps(s: State, e: Step)
    requires NoLostWakeUp(s) && Enabled(s, e)
    ensures NoLostWakeUp(Apply(s, e))
  {
    match e
    case Update(t, _, _) => assert t in Apply(s, e).owing;
    case Delete(t, _) => assert t in Apply(s, e).owing;
    case _ =>
  }

  /** No run of any number of threads, with any failures, loses a wake-up. */
  lemma {:induction false} RunsKeep(s: State, es: seq<Step>, t: State)
    requires NoLostWakeUp(s) && Reaches(s, es, t)
    ensures NoLostWakeUp(t)
    decreases |es|
  {
    if es != [] {
      StepKeeps(s, es[0]);
      RunsKeep(Apply(s, es[0]), es[1..], t);
    }
  }

  /** Nothing is left to do: no token, nobody owes a request, the runner waits and the last replacement worked. */
  predicate Quiet(s: State) {
    !s.token && s.owing == {} && s.runner == Idle && !s.failed
  }

  /** A quiet system shows the cache on the bridge. */
  lemma {:induction false} QuietRunsInstall(s: State, es: seq<Step>, t: State)
    requires NoLostWakeUp(s) && Reaches(s, es, t) && Quiet(t)
    ensures Installed(t)
  {
    RunsKeep(s, es, t);
  }

  lemma {:induction false} ReachesMore(s: State, es: seq<Step>, t: State, e: Step)
    requires Reaches(s, es, t) && Enabled(t, e)
    ensures Reaches(s, es + [e], Apply(t, e))
    decreases |es|
  {
    if es == [] {
      assert es + [e] == [e] && [e][1..] == [];
      assert Reaches(Apply(t, e), [], Apply(t, e));
    } else {
      ReachesMore(Apply(s, es[0]), es[1..], t, e);
      assert (es + [e])[1..] == es[1..] + [e];
    }
  }

  /** The requests that are owed. */
  lemma {:induction false} OwedRequests(s: State) returns (es: seq<Step>, t: State)
    ensures Reaches(s, es, t) && t == s.(owing := {}, token := t.token) && (s.token ==> t.token)
    ensures forall e <- es :: e.Request?
    decreases s.owing
  {
    if s.owing == {} {
      es, t := [], s;
    } else {
      var thread :| thread in s.owing;
      var rest;
      rest, t := OwedRequests(Apply(s, Request(thread)));
      es := [Request(thread)] + rest;
      assert es[1..] == rest;
    }
  }

  /** From every state the requests owed and at most two replacements that work make the system quiet,
      and the cache, which they do not change, is installed. */
  lemma {:induction false} CanSettle(s: State) returns (es: seq<Step>, t: State)
    ensures Reaches(s, es, t) && Quiet(t) && Installed(t) && t.cache == s.cache
  {
    es, t := OwedRequests(s);
    if t.runner == Idle && !t.token {
      ReachesMore(s, es, t, Tick);
      es, t := es + [Tick], Apply(t, Tick);
    }
    if t.runner == Woken {
      ReachesMore(s, es, t, Replace(true, {}));
      es, t := es + [Replace(true, {})], Apply(t, Replace(true, {}));
    }
    if t.token {
      ReachesMore(s, es, t, Receive);
      es, t := es + [Receive], Apply(t, Receive);
      ReachesMore(s, es, t, Replace(true, {}));
      es, t := es + [Replace(true, {})], Apply(t, Replace(true, {}));
    }
  }

  /** Requesting before changing the cache would not do: the sync may run in between. */
  lemma {:induction false} RequestFirstLosesWakeUp(s: State, thread: nat, key: string, flows: seq<string>)
    requires Quiet(s) && Installed(s) && Lines(s.cache[key := flows]) != Lines(s.cache)
    ensures exists t :: Reaches(s, [Request(thread), Receive, Replace(true, {})], t) && Quiet(t)
                        && !Installed(t.(cache := t.cache[key := flows]))
                        && !NoLostWakeUp(t.(cache := t.cache[key := flows]))
  {
    var es := [Request(thread), Receive, Replace(true, {})];
    var s1 := Apply(s, es[0]);
    var s2 := Apply(s1, es[1]);
    var s3 := Apply(s2, es[2]);
    assert es[1..] == [es[1], es[2]] && es[1..][1..] == [es[2]] && es[1..][1..][1..] == [];
    assert Reaches(s2, [es[2]], s3);
    assert Reaches(s1, es[1..], s3);
  }

  // ----- The manager

  class OpenflowManager {
    var flowCache: Flows
    /** The channel has one slot. */
    var flowChan: bool
    var bridge: set<string>
    var failed: bool
    ghost var owing: set<nat>
    var runner: Runner

    constructor ()
      ensures Value() == State(map[], false, {}, Idle, {}, false) && NoLostWakeUp(Value())
    {
      flowCache, flowChan, bridge, failed, runner := map[], false, {}, false, Idle;
      owing := {};
    }

    ghost function Value(): State
      reads this
    {
      State(flowCache, flowChan, owing, runner, bridge, failed)
    }

    method UpdateFlowCacheEntry(ghost thread: nat, key: string, flows: seq<string>)
      modifies this`flowCache, this`owing
      ensures Value() == Apply(old(Value()), Update(thread, key, flows))
    {
      flowCache := flowCache[key := flows];
      owing := owing + {thread};
    }

    method DeleteFlowsByKey(ghost thread: nat, key: string)
      modifies this`flowCache, this`owing
      ensures Value() == Apply(old(Value()), Delete(thread, key))
    {
      flowCache := flowCache - {key};
      owing := owing + {thread};
    }

    /** A send that does not block: a full channel is left as it is. */
    method RequestFlowSync(ghost thread: nat)
      modifies this`flowChan, this`owing
      ensures Value() == Apply(old(Value()), Request(thread))
    {
      if !flowChan {
        flowChan := true;
      }
      owing := owing - {thread};
    }

    /** One turn of the loop's select. A tick first reads the port numbers; without them the turn is over. */
    method Wake(tick: bool, portsRead: bool) returns (woken: bool)
      requires runner == Idle
      modifies this`flowChan, this`runner
      ensures woken == if tick then portsRead else old(flowChan)
      ensures woken ==> Value() == Apply(old(Value()), if tick then Tick else Receive)
      ensures !woken ==> Value() == old(Value())
    {
      if tick {
        if !portsRead {
          return false;
        }
        runner := Woken;
      } else if flowChan {
        flowChan, runner := false, Woken;
      } else {
        return false;
      }
      return true;
    }

    /** The loop over the cache and the replacement. */
    method SyncFlows(ok: bool, garbage: set<string>)
      requires runner == Woken
      modifies this`bridge, this`failed, this`runner
      ensures Value() == Apply(old(Value()), Replace(ok, garbage))
    {
      var flows: seq<string> := [];
      var todo := flowCache.Keys;
      while todo != {}
        invariant todo <= flowCache.Keys
        invariant forall line :: line in flows <==> exists key | key in flowCache && key !in todo :: line in flowCache[key]
      {
        var key :| key in todo;
        flows := flows + flowCache[key];
        todo := todo - {key};
      }
      var installed := set line | line in flows;
      assert installed == Lines(flowCache);
      bridge := if ok then installed else garbage;
      failed := !ok;
      runner := Idle;
    }
  }
}
