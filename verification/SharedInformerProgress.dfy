/** The shared informer can always drain: registrations end, workers deliver and queues empty by themselves. */
module SharedInformerProgress {
  import opened Wrappers
  import opened SharedInformer
  import opened SharedInformerSafety
  import opened SharedInformerConvergence

  ghost predicate Path(s: State, es: seq<Step>, t: State)
    decreases |es|
  {
    if es == [] then t == s else Enabled(s, es[0]) && Path(Apply(s, es[0]), es[1..], t)
  }

  lemma {:induction false} PathConcat(s: State, es: seq<Step>, t: State, fs: seq<Step>, u: State)
    requires Path(s, es, t) && Path(t, fs, u)
    ensures Path(s, es + fs, u)
    decreases |es|
  {
    if es == [] {
      assert es + fs == fs;
    } else {
      PathConcat(Apply(s, es[0]), es[1..], t, fs, u);
      assert (es + fs)[1..] == es[1..] + fs;
    }
  }

  lemma {:induction false} PathOne(s: State, e: Step)
    requires Enabled(s, e)
    ensures Path(s, [e], Apply(s, e))
  {
    assert [e][1..] == [];
  }

  /** The store and the filters stay, and who is alive. */
  ghost predicate SameWorld(s: State, t: State) {
    && t.store == s.store && t.history == s.history && t.handlers.Keys == s.handlers.Keys
    && forall id | id in s.handlers :: t.handlers[id].alive == s.handlers[id].alive && t.handlers[id].filter == s.handlers[id].filter
  }

  lemma {:induction false} SameWorldThen(s: State, t: State, u: State)
    requires SameWorld(s, t) && SameWorld(t, u)
    ensures SameWorld(s, u)
  {
  }

  // ----- The registration in progress

  lemma {:induction false} NextOfRegistration(s: State) returns (e: Step)
    requires Inv(s) && s.lock.Some?
    ensures Enabled(s, e) && (e == EndAdd || (e.InitialAdd? && e.obj in s.lock.value.todo))
  {
    if obj :| obj in s.lock.value.todo {
      e := InitialAdd(obj);
    } else {
      e := EndAdd;
      assert s.lock.value.todo == {};
    }
  }

  lemma {:induction false} RegistrationStep(s: State, e: Step)
    requires Enabled(s, e) && (e == EndAdd || e.InitialAdd?)
    ensures SameWorld(s, Apply(s, e)) && Apply(s, e).sent == s.sent
    ensures if e == EndAdd then Apply(s, e).lock.None?
            else Apply(s, e).lock.Some? && Apply(s, e).lock.value.todo == s.lock.value.todo - {e.obj}
  {
  }

  lemma {:induction false} EndRegistration(s: State) returns (es: seq<Step>, t: State)
    requires Inv(s)
    ensures Path(s, es, t) && Inv(t) && t.lock.None? && SameWorld(s, t) && t.sent == s.sent
    decreases if s.lock.Some? then |s.lock.value.todo| + 1 else 0
  {
    if s.lock.None? {
      es, t := [], s;
    } else {
      var e := NextOfRegistration(s);
      RegistrationStep(s, e);
      InvKept(s, e);
      PathOne(s, e);
      if e.InitialAdd? {
        LessOne(s.lock.value.todo, e.obj);
      }
      es, t := EndRegistration(Apply(s, e));
      PathConcat(s, [e], Apply(s, e), es, t);
      SameWorldThen(s, Apply(s, e), t);
      es := [e] + es;
    }
  }

  lemma {:induction false} LessOne<T>(a: set<T>, x: T)
    requires x in a
    ensures |a - {x}| < |a|
  {
    assert a == (a - {x}) + {x};
  }

  // ----- One worker

  /** Only the worker of q moved on. */
  ghost predicate OnlyWorker(s: State, t: State, q: nat) {
    && SameWorld(s, t) && t.lock == s.lock && t.sent == s.sent && t.route == s.route && t.queues == s.queues
    && |t.workers| == |s.workers| && forall r | 0 <= r < |s.workers| && r != q :: t.workers[r] == s.workers[r]
  }

  lemma {:induction false} OnlyWorkerThen(s: State, t: State, u: State, q: nat)
    requires OnlyWorker(s, t, q) && OnlyWorker(t, u, q)
    ensures OnlyWorker(s, u, q)
  {
    SameWorldThen(s, t, u);
  }

  function WorkerRank(w: Worker, handlers: nat): nat {
    match w
    case Idle => 0
    case Received(_) => handlers + 2
    case Delivering(_, todo) => |todo| + 1
  }

  lemma {:induction false} NextOfWorker(s: State, q: nat) returns (e: Step)
    requires Inv(s) && s.lock.None? && q < NUM_EVENT_QUEUES && !s.workers[q].Idle?
    ensures Enabled(s, e)
    ensures match s.workers[q]
            case Received(_) => e == TakeSnapshot(q)
            case Delivering(_, todo) => e == Finish(q) || (e.Deliver? && e.q == q && e.id in todo)
  {
    if s.workers[q].Received? {
      e := TakeSnapshot(q);
    } else if id :| id in s.workers[q].todo {
      e := Deliver(q, id);
    } else {
      e := Finish(q);
      assert s.workers[q].todo == {};
    }
  }

  lemma {:induction false} WorkerStep(s: State, q: nat, e: Step)
    requires Enabled(s, e) && q < NUM_EVENT_QUEUES && !s.workers[q].Idle?
    requires e == Finish(q) || e == TakeSnapshot(q) || (e.Deliver? && e.q == q)
    ensures OnlyWorker(s, Apply(s, e), q)
    ensures WorkerRank(Apply(s, e).workers[q], |s.handlers.Keys|) < WorkerRank(s.workers[q], |s.handlers.Keys|)
  {
    if e.TakeSnapshot? {
      SubsetCount((set id | id in s.handlers && s.handlers[id].registered), s.handlers.Keys);
    } else if e.Deliver? {
      LessOne(s.workers[q].todo, e.id);
    }
  }

  lemma {:induction false} SubsetCount<T>(a: set<T>, b: set<T>)
    requires a <= b
    ensures |a| <= |b|
  {
    assert b == a + (b - a);
  }

  lemma {:induction false} FinishWorker(s: State, q: nat) returns (es: seq<Step>, t: State)
    requires Inv(s) && s.lock.None? && q < NUM_EVENT_QUEUES
    ensures Path(s, es, t) && Inv(t) && OnlyWorker(s, t, q) && t.workers[q] == Idle
    decreases WorkerRank(s.workers[q], |s.handlers.Keys|)
  {
    if s.workers[q].Idle? {
      es, t := [], s;
    } else {
      var e := NextOfWorker(s, q);
      WorkerStep(s, q, e);
      InvKept(s, e);
      PathOne(s, e);
      es, t := FinishWorker(Apply(s, e), q);
      PathConcat(s, [e], Apply(s, e), es, t);
      OnlyWorkerThen(s, Apply(s, e), t, q);
      es := [e] + es;
    }
  }

  // ----- One queue

  /** Only the queue and the worker of q moved on. */
  ghost predicate OnlyQueue(s: State, t: State, q: nat) {
    && Inv(t) && t.lock.None? && SameWorld(s, t) && t.sent == s.sent && t.route == s.route
    && |t.workers| == |s.workers| && |t.queues| == |s.queues|
    && forall r | 0 <= r < |s.workers| && r < |s.queues| && r != q :: t.workers[r] == s.workers[r] && t.queues[r] == s.queues[r]
  }

  lemma {:induction false} DrainQueue(s: State, q: nat) returns (es: seq<Step>, t: State)
    requires Inv(s) && s.lock.None? && q < NUM_EVENT_QUEUES
    ensures Path(s, es, t) && OnlyQueue(s, t, q) && t.workers[q] == Idle && t.queues[q] == []
    decreases |s.queues[q]|
  {
    var u;
    es, u := FinishWorker(s, q);
    if u.queues[q] == [] {
      t := u;
    } else {
      var fs;
      InvKept(u, Receive(q));
      PathOne(u, Receive(q));
      PathConcat(s, es, u, [Receive(q)], Apply(u, Receive(q)));
      fs, t := DrainQueue(Apply(u, Receive(q)), q);
      PathConcat(s, es + [Receive(q)], Apply(u, Receive(q)), fs, t);
      es := es + [Receive(q)] + fs;
    }
  }

  lemma {:induction false} DrainQueues(s: State, n: nat) returns (es: seq<Step>, t: State)
    requires Inv(s) && s.lock.None? && n <= NUM_EVENT_QUEUES
    ensures Path(s, es, t) && Inv(t) && t.lock.None? && SameWorld(s, t) && t.sent == s.sent
    ensures forall q | 0 <= q < n :: t.workers[q] == Idle && t.queues[q] == []
  {
    if n == 0 {
      es, t := [], s;
    } else {
      var fs, u;
      es, u := DrainQueues(s, n - 1);
      fs, t := DrainQueue(u, n - 1);
      PathConcat(s, es, u, fs, t);
      es := es + fs;
    }
  }

  // ----- What the store has changed

  /** From every state of every run the informer can drain without further changes of the store; with the handlers
      alive, it has then converged. */
  lemma {:induction false} CanDrain(s: State) returns (es: seq<Step>, t: State)
    requires Inv(s)
    ensures Path(s, es, t) && Drained(t) && SameWorld(s, t)
    ensures forall id, k | id in t.handlers && t.handlers[id].alive ::
              Agrees(t.handlers[id].filter, LastAbout(t.handlers[id].log, k), Stored(s.store, k))
    decreases |s.history| - s.sent
  {
    var u, v, fs;
    es, u := EndRegistration(s);
    fs, v := DrainQueues(u, NUM_EVENT_QUEUES);
    PathConcat(s, es, u, fs, v);
    es := es + fs;
    if v.sent == |v.history| {
      t := v;
      forall id, k | id in t.handlers && t.handlers[id].alive
        ensures Agrees(t.handlers[id].filter, LastAbout(t.handlers[id].log, k), Stored(s.store, k))
      {
        DrainedAgrees(t, id, k);
      }
    } else {
      InvKept(v, Enqueue);
      PathOne(v, Enqueue);
      PathConcat(s, es, v, [Enqueue], Apply(v, Enqueue));
      fs, t := CanDrain(Apply(v, Enqueue));
      PathConcat(s, es + [Enqueue], Apply(v, Enqueue), fs, t);
      es := es + [Enqueue] + fs;
    }
  }

  // ----- Handlers that were removed

  /** A handler that was removed hears nothing any more, whatever happens. */
  lemma {:induction false} RemovedHearNothing(s: State, es: seq<Step>, t: State, id: HandlerId)
    requires Inv(s) && Path(s, es, t) && id in s.handlers && !s.handlers[id].alive
    ensures id in t.handlers && !t.handlers[id].alive && t.handlers[id].log == s.handlers[id].log
    decreases |es|
  {
    if es != [] {
      InvKept(s, es[0]);
      RemovedHearNothing(Apply(s, es[0]), es[1..], t, id);
    }
  }

  /** It leaves the handlers as soon as the write lock is free, and then no event is delivered to it. */
  lemma {:induction false} RemovedLeaves(s: State, id: HandlerId, q: nat)
    requires Inv(s) && s.lock.None? && id in s.handlers && s.handlers[id].alive && q < NUM_EVENT_QUEUES && s.workers[q].Received?
    ensures exists t :: Path(s, [Kill(id), Unregister(id), TakeSnapshot(q)], t)
                        && id in t.handlers && !t.handlers[id].registered
                        && |t.workers| == NUM_EVENT_QUEUES && t.workers[q].Delivering? && id !in t.workers[q].todo
  {
    var es := [Kill(id), Unregister(id), TakeSnapshot(q)];
    var s1 := Apply(s, es[0]);
    var s2 := Apply(s1, es[1]);
    var s3 := Apply(s2, es[2]);
    assert es[1..] == [es[1], es[2]] && es[1..][1..] == [es[2]] && es[1..][1..][1..] == [];
    assert Path(s2, [es[2]], s3);
    assert Path(s1, es[1..], s3);
  }
}
