/** Which callback a handler gets for each change it is told of: add, update or delete, and with which versions. */
module SharedInformerCallbacks {
  import opened Wrappers
  import opened SharedInformer
  import opened SharedInformerSafety
  import opened SharedInformerConvergence

  predicate Seen(filter: Filter, v: Option<Obj>) {
    v.Some? && filter(v.value)
  }

  /** A change from one version to another, told to a handler that sees at least one of them: an add where the object
      comes into sight, an update with both versions while it is in sight, a delete with the version last seen. */
  predicate Tells(filter: Filter, before: Option<Obj>, after: Option<Obj>, cb: Callback) {
    match cb
    case OnAdd(obj) => !Seen(filter, before) && Seen(filter, after) && after == Some(obj)
    case OnUpdate(prev, obj) => Seen(filter, before) && Seen(filter, after) && before == Some(prev) && after == Some(obj)
    case OnDelete(obj) => Seen(filter, before) && !Seen(filter, after) && before == Some(obj)
  }

  lemma {:induction false} DispatchTells(filter: Filter, e: Event)
    ensures Dispatch(filter, e) == [] <==> !Seen(filter, Before(e)) && !Seen(filter, After(e))
    ensures Dispatch(filter, e) != [] ==> |Dispatch(filter, e)| == 1 && Tells(filter, Before(e), After(e), Dispatch(filter, e)[0])
  {
  }

  // ----- The callbacks about one key

  function About(log: seq<Callback>, k: Key): seq<Callback> {
    if log == [] then []
    else About(log[..|log| - 1], k) + if log[|log| - 1].obj.key == k then [log[|log| - 1]] else []
  }

  lemma {:induction false} AboutConcat(a: seq<Callback>, b: seq<Callback>, k: Key)
    ensures About(a + b, k) == About(a, k) + About(b, k)
  {
    if b == [] {
      assert a + b == a;
    } else {
      AboutConcat(a, b[..|b| - 1], k);
      assert (a + b)[..|a + b| - 1] == a + b[..|b| - 1];
    }
  }

  lemma {:induction false} AboutOne(filter: Filter, e: Event, k: Key)
    requires KeepsKey(e)
    ensures About(Dispatch(filter, e), k) == if e.obj.key == k then Dispatch(filter, e) else []
  {
    var d := Dispatch(filter, e);
    DispatchKey(filter, e);
    if d != [] {
      assert d[..|d| - 1] == [] && d == [d[0]];
    }
  }

  lemma {:induction false} AboutDispatched(filter: Filter, es: seq<Event>, k: Key)
    requires forall e | e in es :: KeepsKey(e)
    ensures About(DispatchAll(filter, es), k) == DispatchAll(filter, For(es, k))
  {
    if es != [] {
      var before, e := es[..|es| - 1], es[|es| - 1];
      AboutDispatched(filter, before, k);
      AboutConcat(DispatchAll(filter, before), Dispatch(filter, e), k);
      AboutOne(filter, e, k);
      if e.obj.key == k {
        DispatchMore(filter, For(before, k), e);
      } else {
        assert For(es, k) == For(before, k);
      }
    }
  }

  // ----- Their places in the history of the key

  /** The version after the first i changes. */
  function VersionAt(changes: seq<Event>, i: nat): Option<Obj>
    requires i <= |changes|
  {
    Result(changes[..i])
  }

  /** The change from version i to the next concerns the handler. */
  predicate Concerns(filter: Filter, changes: seq<Event>, i: nat)
    requires i < |changes|
  {
    Seen(filter, VersionAt(changes, i)) || Seen(filter, VersionAt(changes, i + 1))
  }

  /** The callbacks are about the changes at the given places, in order: all of changes[from..until] that concern the
      handler, each told as what it is. */
  ghost predicate Corresponds(filter: Filter, changes: seq<Event>, from: nat, until: nat, cbs: seq<Callback>, places: seq<nat>) {
    && from <= until <= |changes| && |places| == |cbs|
    && (forall j | 0 <= j < |places| :: from <= places[j] < until)
    && (forall i, j | 0 <= i < j < |places| :: places[i] < places[j])
    && (forall i | from <= i < until :: Concerns(filter, changes, i) <==> i in places)
    && forall j | 0 <= j < |places| :: Tells(filter, VersionAt(changes, places[j]), VersionAt(changes, places[j] + 1), cbs[j])
  }

  lemma {:induction false} VersionsOf(changes: seq<Event>, i: nat)
    requires Chained(changes) && i < |changes|
    ensures VersionAt(changes, i) == Before(changes[i]) && VersionAt(changes, i + 1) == After(changes[i])
  {
    assert changes[..i + 1][i] == changes[i];
    if i > 0 {
      assert changes[..i][i - 1] == changes[i - 1];
    }
  }

  lemma {:induction false} PlacesOf(filter: Filter, changes: seq<Event>, from: nat, until: nat) returns (places: seq<nat>)
    requires Chained(changes) && from <= until <= |changes|
    ensures Corresponds(filter, changes, from, until, DispatchAll(filter, changes[from..until]), places)
    decreases until
  {
    places := [];
    if from < until {
      var before, e := changes[from..until - 1], changes[until - 1];
      places := PlacesOf(filter, changes, from, until - 1);
      assert changes[from..until] == before + [e];
      DispatchMore(filter, before, e);
      VersionsOf(changes, until - 1);
      DispatchTells(filter, e);
      places := NextPlace(filter, changes, from, until - 1, DispatchAll(filter, before), places, Dispatch(filter, e));
    }
  }

  lemma {:induction false} NextPlace(filter: Filter, changes: seq<Event>, from: nat, until: nat, cbs: seq<Callback>, places: seq<nat>,
                                     d: seq<Callback>) returns (more: seq<nat>)
    requires Corresponds(filter, changes, from, until, cbs, places) && until < |changes|
    requires d == [] <==> !Concerns(filter, changes, until)
    requires d != [] ==> |d| == 1 && Tells(filter, VersionAt(changes, until), VersionAt(changes, until + 1), d[0])
    ensures Corresponds(filter, changes, from, until + 1, cbs + d, more)
  {
    if d == [] {
      more := places;
      assert cbs + d == cbs;
    } else {
      more := places + [until];
      assert forall i :: i in more <==> i in places || i == until;
    }
  }

  /** Beside its initial adds, the handler was told of the changes from one place to another, each as what it is. */
  ghost predicate ToldOf(h: Handler, changes: seq<Event>, k: Key, from: nat, until: nat) {
    exists cbs, places ::
      About(h.log, k) == About(Adds(h.inits), k) + cbs && Corresponds(h.filter, changes, from, until, cbs, places)
  }

  lemma {:induction false} HandlerTold(s: State, id: HandlerId, k: Key, from: nat, until: nat)
    requires Inv(s) && id in s.handlers && s.handlers[id].alive
    requires from <= until <= |For(s.history, k)| && For(s.handlers[id].delivered, k) == For(s.history, k)[from..until]
    ensures ToldOf(s.handlers[id], For(s.history, k), k, from, until)
  {
    var h, changes := s.handlers[id], For(s.history, k);
    LogShape(s, id);
    DeliveredKeepsKeys(s, id);
    AboutConcat(Adds(h.inits), DispatchAll(h.filter, h.delivered), k);
    AboutDispatched(h.filter, h.delivered, k);
    assert StoreRight(s.store, s.history, k);
    var places := PlacesOf(h.filter, changes, from, until);
  }

  /** At any moment of any run, a live handler's callbacks about a key are its initial add, if it listed the key, and
      then those of an unbroken stretch of the key's history: an add exactly where the object comes into the filter's
      sight, an update with the version before exactly where it stays in sight, a delete of the version last seen
      exactly where it leaves it. */
  lemma {:induction false} RunTells(states: seq<State>, steps: seq<Step>, id: HandlerId, k: Key)
    requires IsRun(states, steps)
    requires id in states[|steps|].handlers && states[|steps|].handlers[id].alive
    ensures var s := states[|steps|];
            var h := s.handlers[id];
            && h.listed <= |s.history|
            && exists from: nat, until: nat ::
                 from <= |For(s.history[..h.listed], k)| && ToldOf(h, For(s.history, k), k, from, until)
  {
    RunInv(states, steps);
    RunDeliversInOrder(states, steps, id, k);
    var s := states[|steps|];
    var h, changes := s.handlers[id], For(s.history, k);
    var from: nat :| from <= |For(s.history[..h.listed], k)| && Stretch(For(h.delivered, k), changes, from);
    HandlerTold(s, id, k, from, from + |For(h.delivered, k)|);
  }

  /** Once a run has drained its queues, the stretch reaches to the end of the history. */
  lemma {:induction false} DrainedTells(states: seq<State>, steps: seq<Step>, id: HandlerId, k: Key)
    requires IsRun(states, steps) && Drained(states[|steps|])
    requires id in states[|steps|].handlers && states[|steps|].handlers[id].alive
    ensures var s := states[|steps|];
            var h := s.handlers[id];
            && h.listed <= |s.history|
            && exists from: nat ::
                 from <= |For(s.history[..h.listed], k)| && ToldOf(h, For(s.history, k), k, from, |For(s.history, k)|)
  {
    RunInv(states, steps);
    var s := states[|steps|];
    var h, changes := s.handlers[id], For(s.history, k);
    LogShape(s, id);
    DrainedTold(s, id, k);
    SplitAtListing(s.history, h.listed, k);
    var from := |changes| - |For(h.delivered, k)|;
    assert For(h.delivered, k) == changes[from..|changes|];
    HandlerTold(s, id, k, from, |changes|);
  }
}
