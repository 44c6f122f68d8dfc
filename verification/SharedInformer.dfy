/** The shared informer of pkg/factory: sharded event queues, one worker per queue, handlers registered
    under the write lock with emulated initial adds. Each step below is one lock or channel operation. */
module SharedInformer {
  import opened Wrappers

  const NUM_EVENT_QUEUES := 15

  datatype Key = Key(namespace: string, name: string)

  /** One stored version of an object; labels is whatever a selector may look at. */
  datatype Obj = Obj(key: Key, version: nat, labels: string)

  /** What the store told the informer: an add, an update, or a delete carrying the last version. */
  datatype Event =
    | Added(obj: Obj)
    | Updated(prev: Obj, obj: Obj)
    | Deleted(obj: Obj)

  datatype Callback =
    | OnAdd(obj: Obj)
    | OnUpdate(prev: Obj, obj: Obj)
    | OnDelete(obj: Obj)

  type Filter = Obj -> bool

  type HandlerId = nat

  // ----- Sharding: 32-bit FNV-1 over the namespaced name

  /** Bitwise exclusive or of the n low bits. */
  function XorBits(a: nat, b: nat, n: nat): nat {
    if n == 0 then 0
    else (if a % 2 == b % 2 then 0 else 1) + 2 * XorBits(a / 2, b / 2, n - 1)
  }

  function Fnv32(hash: nat, bytes: string): nat
    decreases |bytes|
  {
    if bytes == [] then hash
    else
      var product := hash * 16777619 % 0x1_0000_0000;
      var byte := bytes[0] as int % 256;
      Fnv32(product / 256 * 256 + XorBits(product % 256, byte, 8), bytes[1..])
  }

  function QueueOf(key: Key): (q: nat)
    ensures q < NUM_EVENT_QUEUES
  {
    var prefix := if key.namespace != "" then key.namespace + "/" else "";
    Fnv32(2166136261, prefix + key.name) % NUM_EVENT_QUEUES
  }

  // ----- What an event means to a filtering handler

  function Dispatch(filter: Filter, e: Event): seq<Callback> {
    match e
    case Added(obj) => if filter(obj) then [OnAdd(obj)] else []
    case Updated(prev, obj) =>
      if filter(obj) && filter(prev) then [OnUpdate(prev, obj)]
      else if filter(obj) then [OnAdd(obj)]
      else if filter(prev) then [OnDelete(prev)]
      else []
    case Deleted(obj) => if filter(obj) then [OnDelete(obj)] else []
  }

  function DispatchAll(filter: Filter, es: seq<Event>): seq<Callback> {
    if es == [] then []
    else DispatchAll(filter, es[..|es| - 1]) + Dispatch(filter, es[|es| - 1])
  }

  /** The stored version before and after an event. */
  function Before(e: Event): Option<Obj> {
    match e
    case Added(_) => None
    case Updated(prev, _) => Some(prev)
    case Deleted(obj) => Some(obj)
  }

  function After(e: Event): Option<Obj> {
    if e.Deleted? then None else Some(e.obj)
  }

  function For(es: seq<Event>, k: Key): seq<Event> {
    if es == [] then []
    else For(es[..|es| - 1], k) + if es[|es| - 1].obj.key == k then [es[|es| - 1]] else []
  }

  lemma {:induction false} ForConcat(a: seq<Event>, b: seq<Event>, k: Key)
    ensures For(a + b, k) == For(a, k) + For(b, k)
  {
    if b == [] {
      assert a + b == a;
    } else {
      ForConcat(a, b[..|b| - 1], k);
      assert (a + b)[..|a + b| - 1] == a + b[..|b| - 1];
    }
  }

  lemma {:induction false} ForOne(e: Event, k: Key)
    ensures For([e], k) == if e.obj.key == k then [e] else []
  {
    assert [e][..0] == [];
  }

  /** The stored version after a list of events about one key. */
  function Result(es: seq<Event>): Option<Obj> {
    if es == [] then None else After(es[|es| - 1])
  }

  /** Each event starts from the version the one before it left, and stays with its key. */
  ghost predicate Chained(es: seq<Event>) {
    && (es != [] ==> Before(es[0]) == None)
    && (forall i | 0 < i < |es| :: Before(es[i]) == After(es[i - 1]))
    && forall i | 0 <= i < |es| && es[i].Updated? :: es[i].prev.key == es[i].obj.key
  }

  // ----- State

  datatype Worker =
    | Idle
    | Received(e: Event)
    | Delivering(e: Event, todo: set<HandlerId>)

  /** listed is the length of the history when the store was listed for this handler; delivered are the
      queued events handed to it, log the callbacks its functions received. */
  datatype Handler = Handler(
    filter: Filter,
    alive: bool,
    registered: bool,
    listed: nat,
    inits: seq<Obj>,
    delivered: seq<Event>,
    log: seq<Callback>)

  datatype Registration = Registration(id: HandlerId, todo: set<Obj>)

  /** route is the sharding of keys over queues, fixed for the run. history holds every store change;
      history[sent..] still waits to be enqueued. lock is the holder of the informer's write lock. */
  datatype State = State(
    route: Key -> nat,
    store: map<Key, Obj>,
    history: seq<Event>,
    sent: nat,
    queues: seq<seq<Event>>,
    workers: seq<Worker>,
    handlers: map<HandlerId, Handler>,
    lock: Option<Registration>)

  const QUEUE_CAPACITY := 10

  datatype Step =
    | ChangeStore(e: Event)
    | Enqueue
    | Receive(q: nat)
    | TakeSnapshot(q: nat)
    | Deliver(q: nat, id: HandlerId)
    | Finish(q: nat)
    | BeginAdd(id: HandlerId, filter: Filter)
    | InitialAdd(obj: Obj)
    | EndAdd
    | Kill(id: HandlerId)
    | Unregister(id: HandlerId)

  ghost function StartWith(route: Key -> nat): State {
    State(route, map[], [], 0, seq(NUM_EVENT_QUEUES, i => []), seq(NUM_EVENT_QUEUES, i => Idle), map[], None)
  }

  /** The informer as newQueuedInformer leaves it. */
  ghost const START := StartWith(QueueOf)

  function Stored(store: map<Key, Obj>, k: Key): Option<Obj> {
    if k in store then Some(store[k]) else None
  }

  function Listing(store: map<Key, Obj>, filter: Filter): set<Obj> {
    set k | k in store && filter(store[k]) :: store[k]
  }

  ghost predicate Enabled(s: State, step: Step) {
    && |s.queues| == |s.workers| == NUM_EVENT_QUEUES
    && (forall k :: s.route(k) < NUM_EVENT_QUEUES)
    && match step
       case ChangeStore(e) => Before(e) == Stored(s.store, e.obj.key) && (e.Updated? ==> e.prev.key == e.obj.key)
       case Enqueue => s.sent < |s.history| && |s.queues[s.route(s.history[s.sent].obj.key)]| < QUEUE_CAPACITY
       case Receive(q) => q < NUM_EVENT_QUEUES && s.workers[q] == Idle && s.queues[q] != []
       case TakeSnapshot(q) => q < NUM_EVENT_QUEUES && s.workers[q].Received? && s.lock.None?
       case Deliver(q, id) =>
         q < NUM_EVENT_QUEUES && s.workers[q].Delivering? && id in s.workers[q].todo && id in s.handlers
       case Finish(q) => q < NUM_EVENT_QUEUES && s.workers[q].Delivering? && s.workers[q].todo == {}
       case BeginAdd(id, filter) => s.lock.None? && id !in s.handlers
       case InitialAdd(obj) => s.lock.Some? && obj in s.lock.value.todo && s.lock.value.id in s.handlers
       case EndAdd => s.lock.Some? && s.lock.value.todo == {} && s.lock.value.id in s.handlers
       case Kill(id) => id in s.handlers && s.handlers[id].alive && s.handlers[id].registered
       case Unregister(id) =>
         s.lock.None? && id in s.handlers && !s.handlers[id].alive && s.handlers[id].registered
  }

  function Changed(store: map<Key, Obj>, e: Event): map<Key, Obj> {
    if e.Deleted? then store - {e.obj.key} else store[e.obj.key := e.obj]
  }

  function Notify(h: Handler, e: Event): Handler {
    if h.alive then h.(delivered := h.delivered + [e], log := h.log + Dispatch(h.filter, e)) else h
  }

  ghost function Apply(s: State, step: Step): State
    requires Enabled(s, step)
  {
    match step
    case ChangeStore(e) => s.(store := Changed(s.store, e), history := s.history + [e])
    case Enqueue =>
      var e := s.history[s.sent];
      var q := s.route(e.obj.key);
      s.(sent := s.sent + 1, queues := s.queues[q := s.queues[q] + [e]])
    case Receive(q) =>
      s.(queues := s.queues[q := s.queues[q][1..]], workers := s.workers[q := Received(s.queues[q][0])])
    case TakeSnapshot(q) =>
      var registered := set id | id in s.handlers && s.handlers[id].registered;
      s.(workers := s.workers[q := Delivering(s.workers[q].e, registered)])
    case Deliver(q, id) =>
      s.(workers := s.workers[q := s.workers[q].(todo := s.workers[q].todo - {id})],
         handlers := s.handlers[id := Notify(s.handlers[id], s.workers[q].e)])
    case Finish(q) => s.(workers := s.workers[q := Idle])
    case BeginAdd(id, filter) =>
      s.(handlers := s.handlers[id := Handler(filter, true, false, |s.history|, [], [], [])],
         lock := Some(Registration(id, Listing(s.store, filter))))
    case InitialAdd(obj) =>
      var id := s.lock.value.id;
      var h := s.handlers[id];
      s.(handlers := s.handlers[id := h.(inits := h.inits + [obj], log := h.log + [OnAdd(obj)])],
         lock := Some(s.lock.value.(todo := s.lock.value.todo - {obj})))
    case EndAdd =>
      var id := s.lock.value.id;
      s.(handlers := s.handlers[id := s.handlers[id].(registered := true)], lock := None)
    case Kill(id) => s.(handlers := s.handlers[id := s.handlers[id].(alive := false)])
    case Unregister(id) => s.(handlers := s.handlers[id := s.handlers[id].(registered := false)])
  }

  // ----- Invariant

  /** The event about k that the worker of k's queue holds and still owes to the handler. */
  function Owed(w: Worker, id: HandlerId, k: Key): seq<Event> {
    match w
    case Idle => []
    case Received(e) => if e.obj.key == k then [e] else []
    case Delivering(e, todo) => if e.obj.key == k && id in todo then [e] else []
  }

  /** The event about k that the worker of k's queue holds, owed to anyone or not. */
  function Held(w: Worker, k: Key): seq<Event> {
    if w.Idle? || w.e.obj.key != k then [] else [w.e]
  }

  function Waiting(queue: seq<Event>, pending: seq<Event>, k: Key): seq<Event> {
    For(queue, k) + For(pending, k)
  }

  /** Everything a handler was or will be told about k through the queues. */
  function Told(delivered: seq<Event>, w: Worker, queue: seq<Event>, pending: seq<Event>,
                id: HandlerId, k: Key): seq<Event> {
    For(delivered, k) + (Owed(w, id, k) + Waiting(queue, pending, k))
  }

  /** What the worker holds about k, then what waits. */
  function Pipe(w: Worker, queue: seq<Event>, pending: seq<Event>, k: Key): seq<Event> {
    Held(w, k) + Waiting(queue, pending, k)
  }

  ghost predicate Suffix(a: seq<Event>, b: seq<Event>) {
    |a| <= |b| && a == b[|b| - |a|..]
  }

  ghost predicate Shape(s: State) {
    && |s.queues| == |s.workers| == NUM_EVENT_QUEUES && s.sent <= |s.history|
    && (forall k :: s.route(k) < NUM_EVENT_QUEUES)
    && (forall id | id in s.handlers && s.handlers[id].alive ::
          s.handlers[id].registered || (s.lock.Some? && s.lock.value.id == id))
    && (s.lock.Some? ==>
          && s.lock.value.id in s.handlers
          && s.handlers[s.lock.value.id].alive && !s.handlers[s.lock.value.id].registered
          && s.handlers[s.lock.value.id].delivered == [])
    && (forall q, i | 0 <= q < NUM_EVENT_QUEUES && 0 <= i < |s.queues[q]| :: s.route(s.queues[q][i].obj.key) == q)
    && (forall q | 0 <= q < NUM_EVENT_QUEUES && !s.workers[q].Idle? :: s.route(s.workers[q].e.obj.key) == q)
    && (forall q, id | 0 <= q < NUM_EVENT_QUEUES && s.workers[q].Delivering? && id in s.workers[q].todo ::
          id in s.handlers && (s.handlers[id].alive ==> s.handlers[id].registered))
  }

  /** The store is the outcome of its history, key by key. */
  ghost predicate StoreInv(s: State) {
    forall k :: StoreRight(s.store, s.history, k)
  }

  ghost predicate StoreRight(store: map<Key, Obj>, history: seq<Event>, k: Key) {
    Chained(For(history, k)) && Stored(store, k) == Result(For(history, k))
  }

  function Pending(s: State): seq<Event>
    requires Shape(s)
  {
    s.history[s.sent..]
  }

  /** What is held or waiting about a key is the tail of its history. */
  ghost predicate PipelineRight(s: State, k: Key)
    requires Shape(s)
  {
    var q := s.route(k);
    Suffix(Pipe(s.workers[q], s.queues[q], Pending(s), k), For(s.history, k))
  }

  /** A live handler is told a tail of each key's history that includes all changes since its listing. */
  ghost predicate ToldRight(s: State, id: HandlerId, k: Key)
    requires Shape(s) && id in s.handlers
  {
    var q, h := s.route(k), s.handlers[id];
    EnoughTold(s.history, h.listed, Told(h.delivered, s.workers[q], s.queues[q], Pending(s), id, k), k)
  }

  ghost predicate EnoughTold(history: seq<Event>, listed: nat, told: seq<Event>, k: Key) {
    listed <= |history| && Suffix(told, For(history, k)) && |told| >= |For(history[listed..], k)|
  }

  function Adds(objs: seq<Obj>): seq<Callback> {
    seq(|objs|, i requires 0 <= i < |objs| => OnAdd(objs[i]))
  }

  /** The versions listed for a handler: those of the history it was listed at. */
  ghost predicate Listed(h: Handler, history: seq<Event>, obj: Obj)
    requires h.listed <= |history|
  {
    Result(For(history[..h.listed], obj.key)) == Some(obj) && h.filter(obj)
  }

  /** The log is the initial adds followed by the dispatched events. The initial adds are the listing,
      each version once, except for what a registration in progress has still to hand over. */
  ghost predicate LogRight(history: seq<Event>, id: HandlerId, h: Handler, lock: Option<Registration>) {
    && h.listed <= |history|
    && h.log == Adds(h.inits) + DispatchAll(h.filter, h.delivered)
    && (forall i, j | 0 <= i < j < |h.inits| :: h.inits[i] != h.inits[j])
    && (forall obj :: Listed(h, history, obj) <==> obj in h.inits || StillToAdd(id, lock, obj))
    && (forall obj | StillToAdd(id, lock, obj) :: obj !in h.inits)
  }

  ghost predicate StillToAdd(id: HandlerId, lock: Option<Registration>, obj: Obj) {
    lock.Some? && lock.value.id == id && obj in lock.value.todo
  }

  ghost predicate Inv(s: State) {
    && Shape(s)
    && StoreInv(s)
    && (forall k :: PipelineRight(s, k))
    && (forall id, k | id in s.handlers && s.handlers[id].alive :: ToldRight(s, id, k))
    && forall id | id in s.handlers :: LogRight(s.history, id, s.handlers[id], s.lock)
  }

  lemma {:induction false} InvAtStart()
    ensures Inv(START)
  {
    assert START.history[0..] == [];
    forall k: Key
      ensures PipelineRight(START, k)
    {
      assert START.route(k) == QueueOf(k) < NUM_EVENT_QUEUES;
      assert START.queues[QueueOf(k)] == [];
    }
  }
}
