/** Every interleaving of the shared informer keeps its promises to every handler. */
module SharedInformerSafety {
  import opened Wrappers
  import opened SharedInformer

  // ----- Each part of the invariant is kept by each step

  lemma {:induction false} ShapeKept(s: State, step: Step)
    requires Shape(s) && Enabled(s, step)
    ensures Shape(Apply(s, step))
  {
  }

  lemma {:induction false} ForMore(es: seq<Event>, e: Event, k: Key)
    ensures For(es + [e], k) == For(es, k) + if e.obj.key == k then [e] else []
  {
    ForConcat(es, [e], k);
    ForOne(e, k);
  }

  lemma {:induction false} StoreKept(s: State, step: Step)
    requires StoreInv(s) && Enabled(s, step)
    ensures StoreInv(Apply(s, step))
  {
    if step.ChangeStore? {
      forall k
        ensures StoreRight(Changed(s.store, step.e), s.history + [step.e], k)
      {
        assert StoreRight(s.store, s.history, k);
        StoreOnChange(s.store, s.history, step.e, k);
      }
    }
  }

  lemma {:induction false} StoreOnChange(store: map<Key, Obj>, history: seq<Event>, e: Event, k: Key)
    requires StoreRight(store, history, k)
    requires Before(e) == Stored(store, e.obj.key) && (e.Updated? ==> e.prev.key == e.obj.key)
    ensures StoreRight(Changed(store, e), history + [e], k)
  {
    ForMore(history, e, k);
  }

  function About(e: Event, k: Key): seq<Event> {
    if e.obj.key == k then [e] else []
  }

  lemma {:induction false} HeadMoves(e: Event, rest: seq<Event>, k: Key)
    ensures For([e] + rest, k) == About(e, k) + For(rest, k)
  {
    ForConcat([e], rest, k);
    ForOne(e, k);
  }

  lemma {:induction false} SuffixGrows(a: seq<Event>, b: seq<Event>, c: seq<Event>)
    requires Suffix(a, b)
    ensures Suffix(a + c, b + c)
  {
  }

  // ----- How the pieces move; k is any key

  lemma {:induction false} WaitingGrows(queue: seq<Event>, pending: seq<Event>, e: Event, k: Key)
    ensures Waiting(queue, pending + [e], k) == Waiting(queue, pending, k) + About(e, k)
  {
    ForMore(pending, e, k);
  }

  lemma {:induction false} WaitingEnqueues(queue: seq<Event>, e: Event, rest: seq<Event>, k: Key)
    ensures Waiting(queue + [e], rest, k) == Waiting(queue, [e] + rest, k)
    ensures e.obj.key != k ==> Waiting(queue, rest, k) == Waiting(queue, [e] + rest, k)
  {
    HeadMoves(e, rest, k);
    ForMore(queue, e, k);
  }

  lemma {:induction false} WaitingReceived(e: Event, rest: seq<Event>, pending: seq<Event>, k: Key)
    ensures Waiting([e] + rest, pending, k) == About(e, k) + Waiting(rest, pending, k)
  {
    HeadMoves(e, rest, k);
  }

  lemma {:induction false} ToldGrows(delivered: seq<Event>, w: Worker, queue: seq<Event>, pending: seq<Event>,
                  e: Event, id: HandlerId, k: Key)
    ensures Told(delivered, w, queue, pending + [e], id, k)
         == Told(delivered, w, queue, pending, id, k) + About(e, k)
  {
    WaitingGrows(queue, pending, e, k);
  }

  lemma {:induction false} ToldReceived(delivered: seq<Event>, e: Event, rest: seq<Event>, pending: seq<Event>, id: HandlerId, k: Key)
    ensures Told(delivered, Received(e), rest, pending, id, k) == Told(delivered, Idle, [e] + rest, pending, id, k)
  {
    WaitingReceived(e, rest, pending, k);
    assert Owed(Idle, id, k) + Waiting([e] + rest, pending, k) == Owed(Received(e), id, k) + Waiting(rest, pending, k);
  }

  lemma {:induction false} ToldDelivered(delivered: seq<Event>, e: Event, todo: set<HandlerId>, queue: seq<Event>,
                      pending: seq<Event>, id: HandlerId, k: Key)
    requires id in todo
    ensures Told(delivered + [e], Delivering(e, todo - {id}), queue, pending, id, k)
         == Told(delivered, Delivering(e, todo), queue, pending, id, k)
  {
    ForMore(delivered, e, k);
  }

  lemma {:induction false} EnoughGrows(history: seq<Event>, listed: nat, told: seq<Event>, e: Event, k: Key)
    requires EnoughTold(history, listed, told, k)
    ensures EnoughTold(history + [e], listed, told + About(e, k), k)
  {
    ForMore(history, e, k);
    SuffixGrows(told, For(history, k), About(e, k));
    assert (history + [e])[listed..] == history[listed..] + [e];
    ForMore(history[listed..], e, k);
  }

  // ----- The pipeline

  lemma {:induction false} PipelineOnChange(s: State, e: Event, k: Key)
    requires Shape(s) && PipelineRight(s, k) && Enabled(s, ChangeStore(e))
    ensures Shape(Apply(s, ChangeStore(e))) && PipelineRight(Apply(s, ChangeStore(e)), k)
  {
    var t, p := Apply(s, ChangeStore(e)), s.route(k);
    ShapeKept(s, ChangeStore(e));
    assert Pending(t) == Pending(s) + [e];
    WaitingGrows(s.queues[p], Pending(s), e, k);
    ForMore(s.history, e, k);
    var pipe := Pipe(s.workers[p], s.queues[p], Pending(s), k);
    SuffixGrows(pipe, For(s.history, k), About(e, k));
    assert Pipe(t.workers[p], t.queues[p], Pending(t), k) == pipe + About(e, k);
  }

  lemma {:induction false} PipelineOnEnqueue(s: State, k: Key)
    requires Shape(s) && PipelineRight(s, k) && Enabled(s, Enqueue)
    ensures Shape(Apply(s, Enqueue)) && PipelineRight(Apply(s, Enqueue), k)
  {
    var t, p := Apply(s, Enqueue), s.route(k);
    ShapeKept(s, Enqueue);
    assert Pending(s) == [Pending(s)[0]] + Pending(t);
    WaitingEnqueues(s.queues[p], Pending(s)[0], Pending(t), k);
  }

  lemma {:induction false} PipelineOnReceive(s: State, q: nat, k: Key)
    requires Shape(s) && PipelineRight(s, k) && Enabled(s, Receive(q))
    ensures Shape(Apply(s, Receive(q))) && PipelineRight(Apply(s, Receive(q)), k)
  {
    var t, p, e := Apply(s, Receive(q)), s.route(k), s.queues[q][0];
    ShapeKept(s, Receive(q));
    assert s.queues[q] == [e] + t.queues[q] && Pending(t) == Pending(s);
    WaitingReceived(e, t.queues[q], Pending(s), k);
    assert Pipe(t.workers[p], t.queues[p], Pending(t), k) == Pipe(s.workers[p], s.queues[p], Pending(s), k);
  }

  lemma {:induction false} PipelineKept(s: State, step: Step, k: Key)
    requires Shape(s) && PipelineRight(s, k) && Enabled(s, step)
    ensures Shape(Apply(s, step)) && PipelineRight(Apply(s, step), k)
  {
    match step
    case ChangeStore(e) => PipelineOnChange(s, e, k);
    case Enqueue => PipelineOnEnqueue(s, k);
    case Receive(q) => PipelineOnReceive(s, q, k);
    case _ => PipelineAtRest(s, step, k);
  }

  predicate MovesEvents(step: Step) {
    step.ChangeStore? || step.Enqueue? || step.Receive?
  }

  lemma {:induction false} PipelineAtRest(s: State, step: Step, k: Key)
    requires Shape(s) && PipelineRight(s, k) && Enabled(s, step) && !MovesEvents(step)
    ensures Shape(Apply(s, step)) && PipelineRight(Apply(s, step), k)
  {
    var t, p := Apply(s, step), s.route(k);
    ShapeKept(s, step);
    assert t.queues == s.queues && Pending(t) == Pending(s);
    if step.Finish? && step.q == p {
      SuffixTail(Held(s.workers[p], k), Waiting(s.queues[p], Pending(s), k), For(s.history, k));
      assert Held(t.workers[p], k) == [];
      assert Pipe(t.workers[p], t.queues[p], Pending(t), k) == Waiting(s.queues[p], Pending(s), k);
    } else {
      assert Held(t.workers[p], k) == Held(s.workers[p], k);
    }
  }

  lemma {:induction false} SuffixTail(a: seq<Event>, b: seq<Event>, c: seq<Event>)
    requires Suffix(a + b, c)
    ensures Suffix(b, c)
  {
    assert b == (a + b)[|a|..];
  }

  // ----- What a handler is told

  lemma {:induction false} ToldOnBeginAdd(s: State, id: HandlerId, filter: Filter, k: Key)
    requires Shape(s) && PipelineRight(s, k) && Enabled(s, BeginAdd(id, filter))
    ensures Shape(Apply(s, BeginAdd(id, filter))) && ToldRight(Apply(s, BeginAdd(id, filter)), id, k)
  {
    var t, q := Apply(s, BeginAdd(id, filter)), s.route(k);
    ShapeKept(s, BeginAdd(id, filter));
    assert Pending(t) == Pending(s);
    assert Told([], t.workers[q], t.queues[q], Pending(t), id, k)
        == Owed(s.workers[q], id, k) + Waiting(s.queues[q], Pending(s), k);
    assert t.history[|t.history|..] == [];
  }

  lemma {:induction false} ToldOnDeliver(s: State, q: nat, other: HandlerId, id: HandlerId, k: Key)
    requires Shape(s) && id in s.handlers && s.handlers[id].alive && ToldRight(s, id, k)
    requires Enabled(s, Deliver(q, other))
    ensures Shape(Apply(s, Deliver(q, other))) && ToldRight(Apply(s, Deliver(q, other)), id, k)
  {
    var t, p, h, w := Apply(s, Deliver(q, other)), s.route(k), s.handlers[id], s.workers[q];
    ShapeKept(s, Deliver(q, other));
    assert Pending(t) == Pending(s);
    if other == id && p == q {
      ToldDelivered(h.delivered, w.e, w.todo, s.queues[p], Pending(s), id, k);
    } else {
      ForMore(h.delivered, w.e, k);
      assert For(t.handlers[id].delivered, k) == For(h.delivered, k);
      assert Owed(t.workers[p], id, k) == Owed(s.workers[p], id, k);
    }
  }

  lemma {:induction false} ToldOnMove(s: State, step: Step, id: HandlerId, k: Key)
    requires Shape(s) && id in s.handlers && ToldRight(s, id, k)
    requires Enabled(s, step) && MovesEvents(step)
    ensures Shape(Apply(s, step)) && ToldRight(Apply(s, step), id, k)
  {
    var t, p, h := Apply(s, step), s.route(k), s.handlers[id];
    ShapeKept(s, step);
    match step
    case ChangeStore(e) =>
      assert Pending(t) == Pending(s) + [e];
      ToldGrows(h.delivered, s.workers[p], s.queues[p], Pending(s), e, id, k);
      EnoughGrows(s.history, h.listed, Told(h.delivered, s.workers[p], s.queues[p], Pending(s), id, k), e, k);
    case Enqueue =>
      assert Pending(s) == [Pending(s)[0]] + Pending(t);
      WaitingEnqueues(s.queues[p], Pending(s)[0], Pending(t), k);
    case Receive(q) =>
      assert s.queues[q] == [s.queues[q][0]] + t.queues[q] && Pending(t) == Pending(s);
      ToldReceived(h.delivered, s.queues[q][0], t.queues[q], Pending(s), id, k);
  }

  lemma {:induction false} ToldAtRest(s: State, step: Step, id: HandlerId, k: Key)
    requires Shape(s) && id in s.handlers && s.handlers[id].alive && ToldRight(s, id, k)
    requires Enabled(s, step) && !MovesEvents(step) && !step.Deliver?
    ensures Shape(Apply(s, step)) && ToldRight(Apply(s, step), id, k)
  {
    var t, p := Apply(s, step), s.route(k);
    ShapeKept(s, step);
    assert t.queues == s.queues && Pending(t) == Pending(s);
    assert Owed(t.workers[p], id, k) == Owed(s.workers[p], id, k);
  }

  lemma {:induction false} ToldKept(s: State, step: Step, id: HandlerId, k: Key)
    requires Shape(s) && id in s.handlers && s.handlers[id].alive && ToldRight(s, id, k)
    requires Enabled(s, step)
    ensures Shape(Apply(s, step)) && ToldRight(Apply(s, step), id, k)
  {
    if MovesEvents(step) {
      ToldOnMove(s, step, id, k);
    } else if step.Deliver? {
      ToldOnDeliver(s, step.q, step.id, id, k);
    } else {
      ToldAtRest(s, step, id, k);
    }
  }

  // ----- Logs

  lemma {:induction false} ForKeys(es: seq<Event>, k: Key)
    ensures forall e | e in For(es, k) :: e.obj.key == k
  {
    if es == [] {
    } else {
      ForKeys(es[..|es| - 1], k);
    }
  }

  lemma {:induction false} DispatchMore(filter: Filter, es: seq<Event>, e: Event)
    ensures DispatchAll(filter, es + [e]) == DispatchAll(filter, es) + Dispatch(filter, e)
  {
    assert (es + [e])[..|es|] == es;
  }

  lemma {:induction false} LogOnChange(history: seq<Event>, e: Event, id: HandlerId, h: Handler, lock: Option<Registration>)
    requires LogRight(history, id, h, lock)
    ensures LogRight(history + [e], id, h, lock)
  {
    assert (history + [e])[..h.listed] == history[..h.listed];
    assert forall obj :: Listed(h, history + [e], obj) <==> Listed(h, history, obj);
  }

  lemma {:induction false} LogOnBeginAdd(s: State, id: HandlerId, filter: Filter)
    requires StoreInv(s)
    ensures LogRight(s.history, id, Handler(filter, true, false, |s.history|, [], [], []),
                     Some(Registration(id, Listing(s.store, filter))))
  {
    var h := Handler(filter, true, false, |s.history|, [], [], []);
    assert s.history[..h.listed] == s.history;
    forall obj
      ensures Listed(h, s.history, obj) <==> obj in Listing(s.store, filter)
    {
      if obj in Listing(s.store, filter) {
        var k :| k in s.store && filter(s.store[k]) && s.store[k] == obj;
        ForKeys(s.history, k);
        assert StoreRight(s.store, s.history, k);
      }
      assert StoreRight(s.store, s.history, obj.key);
    }
  }

  lemma {:induction false} LogOnInitialAdd(history: seq<Event>, id: HandlerId, h: Handler, r: Registration, obj: Obj)
    requires LogRight(history, id, h, Some(r)) && r.id == id && obj in r.todo && h.delivered == []
    ensures LogRight(history, id, h.(inits := h.inits + [obj], log := h.log + [OnAdd(obj)]),
                     Some(r.(todo := r.todo - {obj})))
  {
    var h', lock, lock' := h.(inits := h.inits + [obj], log := h.log + [OnAdd(obj)]), Some(r),
                           Some(r.(todo := r.todo - {obj}));
    assert Adds(h'.inits) == Adds(h.inits) + [OnAdd(obj)];
    assert StillToAdd(id, lock, obj);
    forall other
      ensures Listed(h', history, other) <==> other in h'.inits || StillToAdd(id, lock', other)
      ensures StillToAdd(id, lock', other) ==> other !in h'.inits
    {
      assert Listed(h', history, other) <==> Listed(h, history, other);
      assert other in h'.inits <==> other in h.inits || other == obj;
      assert StillToAdd(id, lock', other) <==> StillToAdd(id, lock, other) && other != obj;
    }
  }

  lemma {:induction false} LogOnDeliver(history: seq<Event>, id: HandlerId, h: Handler, lock: Option<Registration>, e: Event)
    requires LogRight(history, id, h, lock)
    ensures LogRight(history, id, Notify(h, e), lock)
  {
    DispatchMore(h.filter, h.delivered, e);
    assert forall obj :: Listed(Notify(h, e), history, obj) <==> Listed(h, history, obj);
  }

  lemma {:induction false} LogOnFlags(history: seq<Event>, id: HandlerId, h: Handler, lock: Option<Registration>,
                   alive: bool, registered: bool, lock': Option<Registration>)
    requires LogRight(history, id, h, lock)
    requires forall obj :: StillToAdd(id, lock, obj) <==> StillToAdd(id, lock', obj)
    ensures LogRight(history, id, h.(alive := alive, registered := registered), lock')
  {
    var h' := h.(alive := alive, registered := registered);
    assert forall obj :: Listed(h', history, obj) <==> Listed(h, history, obj);
  }

  lemma {:induction false} LogKept(s: State, step: Step, id: HandlerId)
    requires Inv(s) && Enabled(s, step) && id in Apply(s, step).handlers
    ensures LogRight(Apply(s, step).history, id, Apply(s, step).handlers[id], Apply(s, step).lock)
  {
    var t := Apply(s, step);
    if step.BeginAdd? && step.id == id {
      LogOnBeginAdd(s, id, step.filter);
    } else {
      var h := s.handlers[id];
      assert LogRight(s.history, id, h, s.lock);
      match step
      case ChangeStore(e) => LogOnChange(s.history, e, id, h, s.lock);
      case Deliver(q, other) =>
        if other == id {
          LogOnDeliver(s.history, id, h, s.lock, s.workers[q].e);
        }
      case InitialAdd(obj) =>
        if s.lock.value.id == id {
          LogOnInitialAdd(s.history, id, h, s.lock.value, obj);
        } else {
          LogOnFlags(s.history, id, h, s.lock, h.alive, h.registered, t.lock);
        }
      case _ =>
        LogOnFlags(s.history, id, h, s.lock, t.handlers[id].alive, t.handlers[id].registered, t.lock);
    }
  }

  lemma {:induction false} InvKept(s: State, step: Step)
    requires Inv(s) && Enabled(s, step)
    ensures Inv(Apply(s, step))
  {
    var t := Apply(s, step);
    ShapeKept(s, step);
    StoreKept(s, step);
    forall k
      ensures PipelineRight(t, k)
    {
      assert PipelineRight(s, k);
      PipelineKept(s, step, k);
    }
    forall id, k | id in t.handlers && t.handlers[id].alive
      ensures ToldRight(t, id, k)
    {
      assert PipelineRight(s, k);
      if step.BeginAdd? && step.id == id {
        ToldOnBeginAdd(s, id, step.filter, k);
      } else {
        assert ToldRight(s, id, k);
        ToldKept(s, step, id, k);
      }
    }
    forall id | id in t.handlers
      ensures LogRight(t.history, id, t.handlers[id], t.lock)
    {
      LogKept(s, step, id);
    }
  }
}
