/** What every handler of the shared informer has seen, in every run and once the queues are drained. */
module SharedInformerConvergence {
  import opened Wrappers
  import opened SharedInformer
  import opened SharedInformerSafety

  // ----- The last callback about a key

  function LastAbout(log: seq<Callback>, k: Key): Option<Callback> {
    if log == [] then None
    else if log[|log| - 1].obj.key == k then Some(log[|log| - 1])
    else LastAbout(log[..|log| - 1], k)
  }

  /** The same, told from the events about that key. */
  function View(filter: Filter, cb: Option<Callback>, es: seq<Event>): Option<Callback> {
    if es == [] then cb
    else
      var d := Dispatch(filter, es[|es| - 1]);
      if d == [] then View(filter, cb, es[..|es| - 1]) else Some(d[0])
  }

  /** The last callback agrees with the stored version: it carries it, or is a delete or missing when
      there is none the handler may see. */
  ghost predicate Agrees(filter: Filter, cb: Option<Callback>, stored: Option<Obj>) {
    if stored.Some? && filter(stored.value)
    then cb.Some? && !cb.value.OnDelete? && cb.value.obj == stored.value
    else cb.None? || cb.value.OnDelete?
  }

  ghost predicate KeepsKey(e: Event) {
    e.Updated? ==> e.prev.key == e.obj.key
  }

  lemma {:induction false} LastOfDispatched(filter: Filter, log: seq<Callback>, es: seq<Event>, k: Key)
    requires forall e | e in es :: KeepsKey(e)
    ensures LastAbout(log + DispatchAll(filter, es), k) == View(filter, LastAbout(log, k), For(es, k))
  {
    if es == [] {
      assert log + DispatchAll(filter, es) == log;
    } else {
      var before, e := es[..|es| - 1], es[|es| - 1];
      assert es == before + [e];
      LastOfDispatched(filter, log, before, k);
      var log', about := log + DispatchAll(filter, es), For(es, k);
      LastOfOneEvent(filter, log, before, e, k);
      assert log' == log + DispatchAll(filter, before + [e]) && about == For(before + [e], k);
    }
  }

  lemma {:induction false} LastOfOneEvent(filter: Filter, log: seq<Callback>, es: seq<Event>, e: Event, k: Key)
    requires KeepsKey(e)
    requires LastAbout(log + DispatchAll(filter, es), k) == View(filter, LastAbout(log, k), For(es, k))
    ensures LastAbout(log + DispatchAll(filter, es + [e]), k) == View(filter, LastAbout(log, k), For(es + [e], k))
  {
    LogGrows(filter, log, es, e);
    DispatchKey(filter, e);
    LastOfOne(log + DispatchAll(filter, es), Dispatch(filter, e), k);
    ViewGrows(filter, LastAbout(log, k), es, e, k);
  }

  lemma {:induction false} LogGrows(filter: Filter, log: seq<Callback>, es: seq<Event>, e: Event)
    ensures log + DispatchAll(filter, es + [e]) == (log + DispatchAll(filter, es)) + Dispatch(filter, e)
  {
    DispatchMore(filter, es, e);
  }

  lemma {:induction false} ViewGrows(filter: Filter, cb: Option<Callback>, es: seq<Event>, e: Event, k: Key)
    ensures View(filter, cb, For(es + [e], k))
         == if e.obj.key == k && Dispatch(filter, e) != [] then Some(Dispatch(filter, e)[0])
            else View(filter, cb, For(es, k))
  {
    ForMore(es, e, k);
    if e.obj.key == k {
      ViewMore(filter, cb, For(es, k), e);
    } else {
      assert For(es + [e], k) == For(es, k);
    }
  }

  lemma {:induction false} DispatchKey(filter: Filter, e: Event)
    requires KeepsKey(e)
    ensures |Dispatch(filter, e)| <= 1
    ensures Dispatch(filter, e) != [] ==> Dispatch(filter, e)[0].obj.key == e.obj.key
  {
  }

  lemma {:induction false} ViewMore(filter: Filter, cb: Option<Callback>, es: seq<Event>, e: Event)
    ensures View(filter, cb, es + [e])
         == if Dispatch(filter, e) == [] then View(filter, cb, es) else Some(Dispatch(filter, e)[0])
  {
    assert (es + [e])[..|es|] == es;
  }

  lemma {:induction false} LastOfOne(log: seq<Callback>, d: seq<Callback>, k: Key)
    requires |d| <= 1
    ensures LastAbout(log + d, k) == if d != [] && d[0].obj.key == k then Some(d[0]) else LastAbout(log, k)
  {
    if d == [] {
      assert log + d == log;
    } else {
      assert (log + d)[..|log + d| - 1] == log;
    }
  }

  lemma {:induction false} LastOfAdds(objs: seq<Obj>, k: Key)
    ensures match LastAbout(Adds(objs), k)
            case None => forall obj | obj in objs :: obj.key != k
            case Some(cb) => cb.OnAdd? && cb.obj in objs && cb.obj.key == k
  {
    if objs == [] {
    } else {
      var before := objs[..|objs| - 1];
      LastOfAdds(before, k);
      assert Adds(objs)[..|objs| - 1] == Adds(before);
    }
  }

  // ----- Following the versions of one key

  ghost predicate Follows(start: Option<Obj>, es: seq<Event>) {
    && (es != [] ==> Before(es[0]) == start)
    && forall i | 0 < i < |es| :: Before(es[i]) == After(es[i - 1])
  }

  function Finally(start: Option<Obj>, es: seq<Event>): Option<Obj> {
    if es == [] then start else After(es[|es| - 1])
  }

  lemma {:induction false} ViewConcat(filter: Filter, cb: Option<Callback>, a: seq<Event>, b: seq<Event>)
    ensures View(filter, cb, a + b) == View(filter, View(filter, cb, a), b)
  {
    if b == [] {
      assert a + b == a;
    } else {
      ViewConcat(filter, cb, a, b[..|b| - 1]);
      assert (a + b)[..|a + b| - 1] == a + b[..|b| - 1];
    }
  }

  /** Agreement survives every further event. */
  lemma {:induction false} ViewKeepsAgreement(filter: Filter, cb: Option<Callback>, start: Option<Obj>, es: seq<Event>)
    requires Agrees(filter, cb, start) && Follows(start, es)
    ensures Agrees(filter, View(filter, cb, es), Finally(start, es))
  {
    if es == [] {
    } else {
      ViewKeepsAgreement(filter, cb, start, es[..|es| - 1]);
    }
  }

  /** Whatever came first, a version the handler may not see is never left standing. */
  lemma {:induction false} ViewRetracts(filter: Filter, cb: Option<Callback>, start: Option<Obj>, es: seq<Event>)
    requires cb.None? || cb.value.OnDelete?
    requires Follows(start, es)
    ensures var last, view := Finally(start, es), View(filter, cb, es);
            (last.Some? && filter(last.value)) || view.None? || view.value.OnDelete?
  {
    if es == [] {
    } else {
      ViewRetracts(filter, cb, start, es[..|es| - 1]);
    }
  }

  /** Events older than the listing are replayed on top of it and end where the listing was. */
  lemma {:induction false} ViewReplays(filter: Filter, cb: Option<Callback>, es: seq<Event>)
    requires es != [] && Follows(Before(es[0]), es)
    requires Agrees(filter, cb, Finally(None, es))
    ensures Agrees(filter, View(filter, cb, es), Finally(None, es))
  {
    var last := Finally(None, es);
    if !(last.Some? && filter(last.value)) {
      ViewRetracts(filter, cb, Before(es[0]), es);
    }
  }

  // ----- One handler, one key

  ghost predicate Drained(s: State) {
    && s.lock.None? && s.sent == |s.history|
    && (forall q | 0 <= q < |s.queues| :: s.queues[q] == [])
    && forall q | 0 <= q < |s.workers| :: s.workers[q] == Idle
  }

  lemma {:induction false} DeliveredKeepsKeys(s: State, id: HandlerId)
    requires Inv(s) && id in s.handlers && s.handlers[id].alive
    ensures forall e | e in s.handlers[id].delivered :: KeepsKey(e)
  {
    var es := s.handlers[id].delivered;
    forall e | e in es
      ensures KeepsKey(e)
    {
      var k := e.obj.key;
      assert ToldRight(s, id, k);
      InFor(es, e);
      var told := Told(es, s.workers[s.route(k)], s.queues[s.route(k)], Pending(s), id, k);
      assert e in told;
      assert e in For(s.history, k);
      assert StoreRight(s.store, s.history, k);
    }
  }

  lemma {:induction false} InFor(es: seq<Event>, e: Event)
    requires e in es
    ensures e in For(es, e.obj.key)
  {
    if es[|es| - 1] != e {
      InFor(es[..|es| - 1], e);
    }
  }

  /** The initial add about a key agrees with the store as it was listed. */
  lemma {:induction false} InitialAgrees(s: State, id: HandlerId, k: Key)
    requires Inv(s) && id in s.handlers && s.lock.None?
    ensures var h := s.handlers[id];
            h.listed <= |s.history|
            && Agrees(h.filter, LastAbout(Adds(h.inits), k), Result(For(s.history[..h.listed], k)))
  {
    var h := s.handlers[id];
    assert LogRight(s.history, id, h, s.lock);
    LastOfAdds(h.inits, k);
    var was := Result(For(s.history[..h.listed], k));
    ForKeys(s.history[..h.listed], k);
    var cb := LastAbout(Adds(h.inits), k);
    if cb.Some? {
      assert Listed(h, s.history, cb.value.obj);
    } else if was.Some? {
      assert Listed(h, s.history, was.value) <==> was.value in h.inits;
    }
  }

  lemma {:induction false} FollowsPart(es: seq<Event>, i: nat, j: nat)
    requires Chained(es) && i <= j <= |es|
    ensures Follows(if i == 0 then None else After(es[i - 1]), es[i..j])
  {
  }

  /** Once everything is drained, each live handler's last word about a key is the store's. */
  lemma {:induction false} DrainedAgrees(s: State, id: HandlerId, k: Key)
    requires Inv(s) && Drained(s) && id in s.handlers && s.handlers[id].alive
    ensures Agrees(s.handlers[id].filter, LastAbout(s.handlers[id].log, k), Stored(s.store, k))
  {
    var h := s.handlers[id];
    var all, old', new' := For(s.history, k), For(s.history[..h.listed], k), For(s.history[h.listed..], k);
    var got := For(h.delivered, k);
    LogShape(s, id);
    SplitAtListing(s.history, h.listed, k);
    DrainedTold(s, id, k);
    LastOfHandler(s, id, k);
    InitialAgrees(s, id, k);
    assert StoreRight(s.store, s.history, k);
    ReplayThenFollow(h.filter, LastAbout(Adds(h.inits), k), old', new', |all| - |got|);
    assert (old' + new')[|all| - |got|..] == got;
  }

  lemma {:induction false} LastOfHandler(s: State, id: HandlerId, k: Key)
    requires Inv(s) && id in s.handlers && s.handlers[id].alive
    ensures var h := s.handlers[id];
            LastAbout(h.log, k) == View(h.filter, LastAbout(Adds(h.inits), k), For(h.delivered, k))
  {
    var h := s.handlers[id];
    LogShape(s, id);
    DeliveredKeepsKeys(s, id);
    LastOfDispatched(h.filter, Adds(h.inits), h.delivered, k);
  }

  lemma {:induction false} LogShape(s: State, id: HandlerId)
    requires Inv(s) && id in s.handlers
    ensures var h := s.handlers[id];
            h.listed <= |s.history| && h.log == Adds(h.inits) + DispatchAll(h.filter, h.delivered)
  {
    assert LogRight(s.history, id, s.handlers[id], s.lock);
  }

  lemma {:induction false} SplitAtListing(history: seq<Event>, n: nat, k: Key)
    requires n <= |history|
    ensures For(history, k) == For(history[..n], k) + For(history[n..], k)
  {
    assert history[..n] + history[n..] == history;
    ForConcat(history[..n], history[n..], k);
  }

  /** With nothing in flight, what a handler was told is what it was delivered. */
  lemma {:induction false} DrainedTold(s: State, id: HandlerId, k: Key)
    requires Inv(s) && Drained(s) && id in s.handlers && s.handlers[id].alive
    ensures EnoughTold(s.history, s.handlers[id].listed, For(s.handlers[id].delivered, k), k)
  {
    var h, q := s.handlers[id], s.route(k);
    assert ToldRight(s, id, k);
    assert s.workers[q] == Idle && s.queues[q] == [] && Pending(s) == [];
    assert Told(h.delivered, Idle, [], [], id, k) == For(h.delivered, k);
  }

  lemma {:induction false} Tails(old': seq<Event>, new': seq<Event>, from: nat)
    requires from <= |old'|
    ensures var all := old' + new';
            all[from..] == old'[from..] + new' && all[from..|old'|] == old'[from..]
            && all[|old'|..] == new' && all[|old'|..|all|] == new'
  {
  }

  /** From any point before the listing on, the events end in agreement. */
  lemma {:induction false} ReplayThenFollow(filter: Filter, cb: Option<Callback>, old': seq<Event>, new': seq<Event>, from: nat)
    requires Chained(old' + new') && from <= |old'| && Agrees(filter, cb, Result(old'))
    ensures Agrees(filter, View(filter, cb, (old' + new')[from..]), Result(old' + new'))
  {
    var all, replay := old' + new', old'[from..];
    Tails(old', new', from);
    ViewConcat(filter, cb, replay, new');
    if replay != [] {
      FollowsPart(all, from, |old'|);
      ViewReplays(filter, cb, replay);
    }
    FollowsPart(all, |old'|, |all|);
    ViewKeepsAgreement(filter, View(filter, cb, replay), Result(old'), new');
  }

  // ----- Runs

  /** part lies in whole without gaps, starting at from. */
  ghost predicate Stretch(part: seq<Event>, whole: seq<Event>, from: nat) {
    from + |part| <= |whole| && part == whole[from..from + |part|]
  }

  ghost predicate IsRun(states: seq<State>, steps: seq<Step>) {
    && |states| == |steps| + 1 && states[0] == START
    && forall i | 0 <= i < |steps| :: Enabled(states[i], steps[i]) && states[i + 1] == Apply(states[i], steps[i])
  }

  lemma {:induction false} RunInv(states: seq<State>, steps: seq<Step>)
    requires IsRun(states, steps)
    ensures Inv(states[|steps|])
  {
    if steps == [] {
      InvAtStart();
    } else {
      var n := |steps| - 1;
      RunInv(states[..|steps|], steps[..n]);
      InvKept(states[n], steps[n]);
    }
  }

  /** At any moment of any run: a live handler got its initial adds before any queued event, all of them
      once registered, and then an uninterrupted stretch of each key's events, in enqueue order. */
  lemma {:induction false} RunDeliversInOrder(states: seq<State>, steps: seq<Step>, id: HandlerId, k: Key)
    requires IsRun(states, steps)
    requires id in states[|steps|].handlers && states[|steps|].handlers[id].alive
    ensures var s := states[|steps|];
            var h := s.handlers[id];
            && h.listed <= |s.history|
            && h.log == Adds(h.inits) + DispatchAll(h.filter, h.delivered)
            && (h.registered ==> forall obj :: obj in h.inits <==> Listed(h, s.history, obj))
            && (!h.registered ==> h.delivered == [])
            && exists from: nat | from <= |For(s.history[..h.listed], k)| ::
                 Stretch(For(h.delivered, k), For(s.history, k), from)
  {
    RunInv(states, steps);
    var s := states[|steps|];
    var h, q := s.handlers[id], s.route(k);
    assert ToldRight(s, id, k) && LogRight(s.history, id, h, s.lock);
    var told := Told(h.delivered, s.workers[q], s.queues[q], Pending(s), id, k);
    SplitAtListing(s.history, h.listed, k);
    SuffixStretch(For(h.delivered, k), told[|For(h.delivered, k)|..], For(s.history, k));
  }

  lemma {:induction false} SuffixStretch(a: seq<Event>, b: seq<Event>, c: seq<Event>)
    requires Suffix(a + b, c)
    ensures Stretch(a, c, |c| - |a + b|)
  {
    assert a == (a + b)[..|a|];
  }

  /** Whenever a run has drained its queues, every live handler has converged on the store. */
  lemma {:induction false} RunConverges(states: seq<State>, steps: seq<Step>, id: HandlerId, k: Key)
    requires IsRun(states, steps) && Drained(states[|steps|])
    requires id in states[|steps|].handlers && states[|steps|].handlers[id].alive
    ensures var s := states[|steps|];
            Agrees(s.handlers[id].filter, LastAbout(s.handlers[id].log, k), Stored(s.store, k))
  {
    RunInv(states, steps);
    DrainedAgrees(states[|steps|], id, k);
  }
}
