/** The informer of pkg/factory as an object: its channels, handler map and worker loops, one method for each
    stretch between two lock or channel operations, proved to be the steps of the protocol. */
module InformerObject {
  import opened Wrappers
  import opened SharedInformer
  import opened SharedInformerCallbacks

  /** Write of hash/fnv: one byte after another. */
  method Write(h: nat, bytes: string) returns (sum: nat)
    ensures sum == Fnv32(h, bytes)
  {
    sum := h;
    for i := 0 to |bytes|
      invariant Fnv32(sum, bytes[i..]) == Fnv32(h, bytes)
    {
      var product := sum * 16777619 % 0x1_0000_0000;
      sum := product / 256 * 256 + XorBits(product % 256, bytes[i] as int % 256, 8);
      assert bytes[i..][0] == bytes[i] && bytes[i..][1..] == bytes[i + 1..];
    }
  }

  lemma {:induction false} Fnv32Concat(h: nat, a: string, b: string)
    ensures Fnv32(Fnv32(h, a), b) == Fnv32(h, a + b)
    decreases |a|
  {
    if a == "" {
      assert a + b == b;
    } else {
      var product := h * 16777619 % 0x1_0000_0000;
      Fnv32Concat(product / 256 * 256 + XorBits(product % 256, a[0] as int % 256, 8), a[1..], b);
      assert (a + b)[1..] == a[1..] + b;
    }
  }

  lemma {:induction false} AddsByte(h: nat, c: char, product: nat, low: nat)
    requires product == h * 16777619 % 0x1_0000_0000 && low == XorBits(product % 256, c as int % 256, 8)
    ensures Fnv32(h, [c]) == product / 256 * 256 + low
  {
    assert [c][1..] == "";
  }

  lemma {:induction false} XorStep(a: nat, b: nat, n: nat, x: nat)
    requires XorBits(a / 2, b / 2, n) == x
    ensures XorBits(a, b, n + 1) == 2 * x + if a % 2 == b % 2 then 0 else 1
  {
  }

  lemma {:induction false} XorOfBytes()
    ensures XorBits(0x1f, 0x61, 8) == 0x7e
  {
    XorStep(0, 0, 0, 0);
    XorStep(0, 1, 1, 0);
    XorStep(0, 3, 2, 1);
    XorStep(1, 6, 3, 3);
    XorStep(3, 12, 4, 7);
    XorStep(7, 24, 5, 15);
    XorStep(15, 48, 6, 31);
    XorStep(31, 97, 7, 63);
  }

  /** Two published values of 32-bit FNV-1: of nothing, and of the letter a. */
  lemma {:induction false} Fnv32Known()
    ensures Fnv32(2166136261, "") == 0x811c_9dc5 && Fnv32(2166136261, "a") == 0x050c_5d7e
  {
    XorOfBytes();
    AddsByte(2166136261, 'a', 0x050c_5d1f, 0x7e);
  }

  /** Writing namespace, slash and name in turn hashes the namespaced name. */
  method GetQueueNum(key: Key) returns (q: nat)
    ensures q == QueueOf(key) < NUM_EVENT_QUEUES
  {
    var sum := 2166136261;
    if key.namespace != "" {
      sum := Write(sum, key.namespace);
      Fnv32Concat(2166136261, key.namespace, "/");
      sum := Write(sum, "/");
    }
    ghost var prefix := if key.namespace != "" then key.namespace + "/" else "";
    Fnv32Concat(2166136261, prefix, key.name);
    sum := Write(sum, key.name);
    q := sum % NUM_EVENT_QUEUES;
  }

  class Informer {
    var store: map<Key, Obj>
    var events: seq<seq<Event>>
    var workers: seq<Worker>
    var handlers: map<HandlerId, Handler>
    var lock: Option<Registration>
    var handlerCounter: nat
    /** Every change of the store, and how many of them have been enqueued. */
    var history: seq<Event>
    var sent: nat

    constructor ()
      ensures Value() == START && handlerCounter == 0
    {
      store, handlers, lock, handlerCounter := map[], map[], None, 0;
      history, sent := [], 0;
      events := seq(NUM_EVENT_QUEUES, i => []);
      workers := seq(NUM_EVENT_QUEUES, i => Idle);
    }

    ghost function Value(): State
      reads this
    {
      State(QueueOf, store, history, sent, events, workers, handlers, lock)
    }

    /** enqueueEvent: the event goes to the queue of its object's key; a full queue blocks. */
    method EnqueueEvent()
      requires Enabled(Value(), Enqueue)
      modifies this`events, this`sent
      ensures Value() == Apply(old(Value()), Enqueue)
    {
      var e := history[sent];
      var q := GetQueueNum(e.obj.key);
      events := events[q := events[q] + [e]];
      sent := sent + 1;
    }

    /** processEvents: the worker takes the first event of its queue. */
    method ReceiveEvent(q: nat)
      requires Enabled(Value(), Receive(q))
      modifies this`events, this`workers
      ensures Value() == Apply(old(Value()), Receive(q))
    {
      workers := workers[q := Received(events[q][0])];
      events := events[q := events[q][1..]];
    }

    /** The first half of forEachQueuedHandler: the registered handlers are copied under the read lock. */
    method CopyHandlers(q: nat)
      requires Enabled(Value(), TakeSnapshot(q))
      modifies this`workers
      ensures Value() == Apply(old(Value()), TakeSnapshot(q))
    {
      var curHandlers: set<HandlerId> := {};
      var todo := handlers.Keys;
      while todo != {}
        invariant todo <= handlers.Keys
        invariant curHandlers == set id | id in handlers && id !in todo && handlers[id].registered
      {
        var id :| id in todo;
        if handlers[id].registered {
          curHandlers := curHandlers + {id};
        }
        todo := todo - {id};
      }
      ghost var s := Value();
      assert Apply(s, TakeSnapshot(q)).workers[q].todo == curHandlers;
      workers := workers[q := Delivering(workers[q].e, curHandlers)];
    }

    /** The second half, one handler: a handler that is alive is called through its filter. */
    method Call(q: nat, id: HandlerId)
      requires Enabled(Value(), Deliver(q, id))
      modifies this`workers, this`handlers
      ensures Value() == Apply(old(Value()), Deliver(q, id))
      ensures handlers[id] == old(handlers)[id].(delivered := handlers[id].delivered, log := handlers[id].log)
      ensures var h, e := old(handlers)[id], old(workers)[q].e;
              var told := h.alive && (Seen(h.filter, Before(e)) || Seen(h.filter, After(e)));
              if told then |handlers[id].log| == |h.log| + 1 && handlers[id].log[..|h.log|] == h.log
                           && Tells(h.filter, Before(e), After(e), handlers[id].log[|h.log|])
              else handlers[id].log == h.log
    {
      var e, h := workers[q].e, handlers[id];
      if h.alive {
        var calls: seq<Callback> := [];
        match e {
          case Added(obj) =>
            if h.filter(obj) { calls := [OnAdd(obj)]; }
          case Updated(prev, obj) =>
            var newer, older := h.filter(obj), h.filter(prev);
            if newer && older {
              calls := [OnUpdate(prev, obj)];
            } else if newer {
              calls := [OnAdd(obj)];
            } else if older {
              calls := [OnDelete(prev)];
            }
          case Deleted(obj) =>
            if h.filter(obj) { calls := [OnDelete(obj)]; }
        }
        h := h.(delivered := h.delivered + [e], log := h.log + calls);
      }
      handlers := handlers[id := h];
      workers := workers[q := Delivering(e, workers[q].todo - {id})];
    }

    method FinishEvent(q: nat)
      requires Enabled(Value(), Finish(q))
      modifies this`workers
      ensures Value() == Apply(old(Value()), Finish(q))
    {
      workers := workers[q := Idle];
    }

    /** addHandler up to the initial adds: the write lock is taken, the store is listed through the filter. */
    method ListForHandler(filter: Filter) returns (id: HandlerId)
      requires lock.None? && |events| == |workers| == NUM_EVENT_QUEUES && handlerCounter + 1 !in handlers
      modifies this`handlers, this`lock, this`handlerCounter
      ensures id == handlerCounter == old(handlerCounter) + 1
      ensures Value() == Apply(old(Value()), BeginAdd(id, filter))
    {
      var items: set<Obj> := {};
      var todo := store.Keys;
      while todo != {}
        invariant todo <= store.Keys
        invariant items == set k | k in store && k !in todo && filter(store[k]) :: store[k]
      {
        var k :| k in todo;
        if filter(store[k]) {
          items := items + {store[k]};
        }
        todo := todo - {k};
      }
      assert items == Listing(store, filter);
      handlerCounter := handlerCounter + 1;
      id := handlerCounter;
      handlers := handlers[id := Handler(filter, true, false, |history|, [], [], [])];
      lock := Some(Registration(id, items));
    }

    /** One of the initial adds; they come in no particular order across queues. */
    method AddExisting(obj: Obj)
      requires Enabled(Value(), InitialAdd(obj))
      modifies this`handlers, this`lock
      ensures Value() == Apply(old(Value()), InitialAdd(obj))
    {
      var id := lock.value.id;
      var h := handlers[id];
      handlers := handlers[id := h.(inits := h.inits + [obj], log := h.log + [OnAdd(obj)])];
      lock := Some(Registration(id, lock.value.todo - {obj}));
    }

    /** All initial adds are done: the handler is registered and the lock released. */
    method RegisterHandler()
      requires Enabled(Value(), EndAdd)
      modifies this`handlers, this`lock
      ensures Value() == Apply(old(Value()), EndAdd)
    {
      var id := lock.value.id;
      handlers := handlers[id := handlers[id].(registered := true)];
      lock := None;
    }

    /** removeHandler, on a handler that addHandler has returned: the tombstone is set at once; a second removal
        is refused, whether or not the handler has left the map by then. */
    method KillHandler(id: HandlerId) returns (ok: bool)
      requires id in handlers && (handlers[id].alive ==> handlers[id].registered) && |events| == |workers| == NUM_EVENT_QUEUES
      modifies this`handlers
      ensures ok == old(handlers)[id].alive
      ensures Value() == if ok then Apply(old(Value()), Kill(id)) else old(Value())
    {
      if !handlers[id].alive {
        return false;
      }
      handlers := handlers[id := handlers[id].(alive := false)];
      return true;
    }

    /** The goroutine of removeHandler, once it has the write lock. */
    method DropHandler(id: HandlerId)
      requires Enabled(Value(), Unregister(id))
      modifies this`handlers
      ensures Value() == Apply(old(Value()), Unregister(id))
    {
      handlers := handlers[id := handlers[id].(registered := false)];
    }
  }
}
