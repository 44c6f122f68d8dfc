/** The work-queue event handler of pkg/informer: notifications, the client-go queue, the index of
    deleted objects and the sync of one key, each as the steps other goroutines may interleave with. */
module WorkQueue {
  import opened Wrappers

  type Key = string

  datatype Obj = Obj(version: nat, terminating: bool)

  /** One store change of a key: prev is the version it replaces. */
  datatype Change =
    | Put(prev: Option<Obj>, obj: Obj)
    | Del(obj: Obj)

  /** What a handler function was last called with. */
  datatype Call = AddCall(obj: Obj) | DeleteCall(obj: Obj)

  /** A notification still to be handled: the change of this key with this index. */
  datatype Note = Note(key: Key, index: nat)

  const MAX_RETRIES := 3

  /** How far the sync of a key has come; at is the length of the key's history when the store was read. */
  datatype Stage =
    | Got
    | Found(at: nat, obj: Obj)
    | Missing(at: nat)
    | ToDelete(at: nat, obj: Obj)
    | Forgetting(at: nat)
    | Succeeded(at: nat)
    | Failed(at: nat, unindexed: bool)
    | Concluded

  /** The informer's side: its store, every change so far, the notifications not handled yet. indexed tells
      whether the first of them has reached the index of deleted objects. */
  datatype News = News(store: map<Key, Obj>, history: map<Key, seq<Change>>, notes: seq<Note>, indexed: bool)

  /** The rate-limited queue and its workers, by the key they sync. */
  datatype Queue = Queue(
    items: seq<Key>, dirty: set<Key>, processing: map<Key, Stage>, delayed: set<Key>, requeues: map<Key, nat>)

  /** calledAt[k] is the history length the sync behind the last call had read; settled[k] is the one the
      last completed sync answered for; dropped holds the keys whose handler failed too often. */
  datatype Calls = Calls(
    last: map<Key, Call>, calledAt: map<Key, nat>, settled: map<Key, nat>, dropped: set<Key>)

  datatype State = State(news: News, deleted: map<Key, Obj>, q: Queue, calls: Calls)

  const START := State(News(map[], map[], [], false), map[], Queue([], {}, map[], {}, map[]),
                       Calls(map[], map[], map[], {}))

  datatype Step =
    | ChangeStore(k: Key, c: Change)
    | IndexDeleted
    | HandleNote
    | Get
    | Lookup(k: Key)
    | LookupDeleted(k: Key)
    | CallAdd(k: Key, ok: bool)
    | CallDelete(k: Key, ok: bool)
    | ForgetDeleted(k: Key)
    | Conclude(k: Key)
    | Done(k: Key)
    | DelayOver(k: Key)

  type UpdateFilter = (Obj, Obj) -> bool

  function History(n: News, k: Key): seq<Change> {
    if k in n.history then n.history[k] else []
  }

  function Result(h: seq<Change>): Option<Obj> {
    if h == [] || h[|h| - 1].Del? then None else Some(h[|h| - 1].obj)
  }

  function Stored(n: News, k: Key): Option<Obj> {
    if k in n.store then Some(n.store[k]) else None
  }

  /** Whether the callbacks put the key on the queue for this change. */
  predicate Accepted(filter: UpdateFilter, c: Change) {
    match c
    case Del(_) => true
    case Put(None, obj) => !obj.terminating
    case Put(Some(prev), obj) => prev.version != obj.version && filter(prev, obj) && !obj.terminating
  }

  // ----- The informer's side

  function Changing(n: News, k: Key, c: Change): News {
    var store := if c.Del? then n.store - {k} else n.store[k := c.obj];
    News(store, n.history[k := History(n, k) + [c]], n.notes + [Note(k, |History(n, k)|)], n.indexed)
  }

  predicate HasNote(n: News) {
    n.notes != [] && n.notes[0].index < |History(n, n.notes[0].key)|
  }

  /** The change the first waiting notification is about. */
  function Noted(n: News): Change
    requires HasNote(n)
  {
    History(n, n.notes[0].key)[n.notes[0].index]
  }

  function Popped(n: News): News
    requires n.notes != []
  {
    n.(notes := n.notes[1..], indexed := false)
  }

  // ----- The queue

  /** client-go's Add: a dirty key is known already; one being processed waits for Done. */
  function QueueAdd(q: Queue, k: Key): Queue {
    if k in q.dirty then q
    else q.(dirty := q.dirty + {k}, items := if k in q.processing then q.items else q.items + [k])
  }

  function QueueGet(q: Queue): Queue
    requires q.items != []
  {
    var k := q.items[0];
    q.(items := q.items[1..], dirty := q.dirty - {k}, processing := q.processing[k := Got])
  }

  function QueueDone(q: Queue, k: Key): Queue {
    q.(processing := q.processing - {k}, items := if k in q.dirty then q.items + [k] else q.items)
  }

  /** The sync of k moves on to the given stage. */
  function Onto(q: Queue, k: Key, stage: Stage): Queue {
    q.(processing := q.processing[k := stage])
  }

  function Requeues(q: Queue, k: Key): nat {
    if k in q.requeues then q.requeues[k] else 0
  }

  predicate Retries(q: Queue, k: Key, stage: Stage) {
    stage.Failed? && Requeues(q, k) < MAX_RETRIES
  }

  /** After a sync: retry later while retries are left, else forget the failures. */
  function Requeue(q: Queue, k: Key, stage: Stage): Queue {
    if Retries(q, k, stage)
    then q.(requeues := q.requeues[k := Requeues(q, k) + 1], delayed := q.delayed + {k})
    else q.(requeues := q.requeues - {k})
  }

  // ----- The calls

  function Calling(c: Calls, k: Key, call: Call, at: nat): Calls {
    c.(last := c.last[k := call], calledAt := c.calledAt[k := at])
  }

  function Settling(c: Calls, k: Key, at: nat): Calls {
    c.(settled := c.settled[k := at], dropped := c.dropped - {k})
  }

  /** What the end of a sync means: an answer for that point of the history, a retry, or a key given up. */
  function Ending(c: Calls, q: Queue, k: Key, stage: Stage): Calls
    requires stage.Succeeded? || stage.Failed?
  {
    if stage.Succeeded? then Settling(c, k, stage.at)
    else if Retries(q, k, stage) then c
    else if stage.unindexed then Settling(c, k, stage.at)
    else c.(dropped := c.dropped + {k})
  }

  predicate Enabled(s: State, step: Step) {
    match step
    case ChangeStore(k, c) => (if c.Del? then Some(c.obj) else c.prev) == Stored(s.news, k)
    case IndexDeleted => HasNote(s.news) && !s.news.indexed && Noted(s.news).Del?
    case HandleNote => HasNote(s.news) && (Noted(s.news).Del? ==> s.news.indexed)
    case Get => s.q.items != []
    case Lookup(k) => k in s.q.processing && s.q.processing[k] == Got
    case LookupDeleted(k) => k in s.q.processing && s.q.processing[k].Missing?
    case CallAdd(k, ok) => k in s.q.processing && s.q.processing[k].Found?
    case CallDelete(k, ok) => k in s.q.processing && s.q.processing[k].ToDelete?
    case ForgetDeleted(k) => k in s.q.processing && s.q.processing[k].Forgetting?
    case Conclude(k) => k in s.q.processing && (s.q.processing[k].Succeeded? || s.q.processing[k].Failed?)
    case Done(k) => k in s.q.processing && s.q.processing[k] == Concluded
    case DelayOver(k) => k in s.q.delayed
  }

  function Apply(filter: UpdateFilter, s: State, step: Step): State
    requires Enabled(s, step)
  {
    match step
    case ChangeStore(k, c) => s.(news := Changing(s.news, k, c))
    case IndexDeleted =>
      s.(news := s.news.(indexed := true), deleted := s.deleted[s.news.notes[0].key := Noted(s.news).obj])
    case HandleNote =>
      s.(news := Popped(s.news),
         q := if Accepted(filter, Noted(s.news)) then QueueAdd(s.q, s.news.notes[0].key) else s.q)
    case Get => s.(q := QueueGet(s.q))
    case Lookup(k) =>
      var at := |History(s.news, k)|;
      s.(q := Onto(s.q, k, if k in s.news.store then Found(at, s.news.store[k]) else Missing(at)))
    case LookupDeleted(k) =>
      var at := s.q.processing[k].at;
      s.(q := Onto(s.q, k, if k in s.deleted then ToDelete(at, s.deleted[k]) else Failed(at, true)))
    case CallAdd(k, ok) =>
      var at := s.q.processing[k].at;
      s.(calls := Calling(s.calls, k, AddCall(s.q.processing[k].obj), at),
         q := Onto(s.q, k, if ok then Succeeded(at) else Failed(at, false)))
    case CallDelete(k, ok) =>
      var at := s.q.processing[k].at;
      s.(calls := Calling(s.calls, k, DeleteCall(s.q.processing[k].obj), at),
         q := Onto(s.q, k, if ok then Forgetting(at) else Failed(at, false)))
    case ForgetDeleted(k) =>
      s.(deleted := s.deleted - {k}, q := Onto(s.q, k, Succeeded(s.q.processing[k].at)))
    case Conclude(k) =>
      var stage := s.q.processing[k];
      s.(calls := Ending(s.calls, s.q, k, stage), q := Onto(Requeue(s.q, k, stage), k, Concluded))
    case Done(k) => s.(q := QueueDone(s.q, k))
    case DelayOver(k) => s.(q := QueueAdd(s.q.(delayed := s.q.delayed - {k}), k))
  }

  // ----- Invariant

  ghost predicate NoDuplicates(items: seq<Key>) {
    forall i, j | 0 <= i < j < |items| :: items[i] != items[j]
  }

  ghost predicate QueueInv(q: Queue) {
    NoDuplicates(q.items) && forall k :: k in q.items <==> k in q.dirty && k !in q.processing
  }

  /** Indices of the waiting notifications are real. */
  ghost predicate NotesInv(n: News) {
    && (forall m | m in n.notes :: m.index < |History(n, m.key)|)
    && (n.indexed ==> HasNote(n) && Noted(n).Del?)
  }

  /** Every accepted change from position p on is still to be notified, or the key will be synced again. */
  ghost predicate Covered(filter: UpdateFilter, n: News, again: bool, k: Key, p: nat) {
    && p <= |History(n, k)|
    && (again || forall i | p <= i < |History(n, k)| && Accepted(filter, History(n, k)[i]) :: Note(k, i) in n.notes)
  }

  /** The key is known to need another sync. */
  predicate Again(q: Queue, k: Key) {
    k in q.dirty || k in q.delayed
  }

  function Settled(c: Calls, k: Key): nat {
    if k in c.settled then c.settled[k] else 0
  }

  /** The stage of a running sync that has read the store and not concluded. */
  function Running(q: Queue, k: Key): Option<Stage> {
    if k in q.processing && q.processing[k] != Got && q.processing[k] != Concluded
    then Some(q.processing[k]) else None
  }

  ghost predicate CoveredInv(filter: UpdateFilter, n: News, q: Queue, c: Calls, k: Key) {
    && Settled(c, k) <= |History(n, k)|
    && if k in q.processing && q.processing[k] == Got then true
       else match Running(q, k)
            case Some(stage) => Covered(filter, n, Again(q, k), k, stage.at)
            case None => k in c.dropped || Covered(filter, n, Again(q, k), k, Settled(c, k))
  }

  /** Notifications the index of deleted objects has not heard of. */
  function ToIndex(n: News): seq<Note> {
    if n.indexed && n.notes != [] then n.notes[1..] else n.notes
  }

  ghost predicate DeleteAmong(notes: seq<Note>, h: seq<Change>, k: Key) {
    exists i | 0 <= i < |h| && h[i].Del? :: Note(k, i) in notes
  }

  /** The last call says what the first p changes of k amount to; a deletion may still be on its way. */
  ghost predicate MatchAt(n: News, c: Calls, k: Key, p: nat) {
    && p <= |History(n, k)|
    && match Result(History(n, k)[..p])
       case Some(obj) => k in c.last && c.last[k] == AddCall(obj)
       case None => k !in c.last || c.last[k].DeleteCall? || DeleteAmong(n.notes, History(n, k), k)
  }

  ghost predicate MatchInv(n: News, q: Queue, c: Calls, k: Key) {
    if k in q.processing && q.processing[k] == Got then true
    else match Running(q, k)
      case None => k in c.dropped || Again(q, k) || MatchAt(n, c, k, Settled(c, k))
      case Some(stage) =>
        && stage.at <= |History(n, k)|
        && match stage
           case Found(at, obj) => Result(History(n, k)[..at]) == Some(obj)
           case Missing(at) => Result(History(n, k)[..at]) == None
           case ToDelete(at, _) => Result(History(n, k)[..at]) == None
           case Forgetting(at) => Result(History(n, k)[..at]) == None && k in c.last && c.last[k].DeleteCall?
           case Succeeded(at) => k in q.dirty || MatchAt(n, c, k, at)
           case Failed(at, unindexed) => unindexed ==> k in q.dirty || MatchAt(n, c, k, at)
           case _ => true
  }

  /** A deletion after position p is still remembered, or there was none. */
  ghost predicate NotForgotten(n: News, indexed: bool, k: Key, p: nat) {
    && p <= |History(n, k)|
    && (indexed || DeleteAmong(ToIndex(n), History(n, k), k)
        || forall i | p <= i < |History(n, k)| :: !History(n, k)[i].Del?)
  }

  /** What the handler was told to add, or is about to be, is not forgotten before it is deleted. */
  ghost predicate DeletedInv(n: News, indexed: bool, q: Queue, c: Calls, k: Key) {
    && (k in c.last && c.last[k].AddCall? ==>
          && k in c.calledAt && NotForgotten(n, indexed, k, c.calledAt[k])
          && Result(History(n, k)[..c.calledAt[k]]) == Some(c.last[k].obj)
          && (Running(q, k).Some? ==> c.calledAt[k] <= Running(q, k).value.at))
    && (k in q.processing && q.processing[k].Found? ==> NotForgotten(n, indexed, k, q.processing[k].at))
  }

  ghost predicate KeyInv(filter: UpdateFilter, s: State, k: Key) {
    && Stored(s.news, k) == Result(History(s.news, k))
    && CoveredInv(filter, s.news, s.q, s.calls, k)
    && MatchInv(s.news, s.q, s.calls, k)
    && DeletedInv(s.news, k in s.deleted, s.q, s.calls, k)
  }

  ghost predicate Inv(filter: UpdateFilter, s: State) {
    QueueInv(s.q) && NotesInv(s.news) && forall k :: KeyInv(filter, s, k)
  }
}
