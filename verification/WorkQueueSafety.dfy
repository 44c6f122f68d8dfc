/** The work-queue handler is level triggered: whatever races, the last call ends up matching the store. */
module WorkQueueSafety {
  import opened Wrappers
  import opened WorkQueue

  // ----- A step about one key leaves the others alone

  ghost predicate SameQueue(q: Queue, q': Queue, k: Key) {
    && (k in q'.dirty <==> k in q.dirty) && (k in q'.delayed <==> k in q.delayed)
    && (k in q'.processing <==> k in q.processing) && (k in q.processing ==> q'.processing[k] == q.processing[k])
  }

  ghost predicate SameCalls(c: Calls, c': Calls, k: Key) {
    && (k in c'.last <==> k in c.last) && (k in c.last ==> c'.last[k] == c.last[k])
    && (k in c'.calledAt <==> k in c.calledAt) && (k in c.calledAt ==> c'.calledAt[k] == c.calledAt[k])
    && Settled(c', k) == Settled(c, k) && (k in c'.dropped <==> k in c.dropped)
  }

  ghost predicate SameNews(n: News, n': News, k: Key) {
    && History(n', k) == History(n, k) && Stored(n', k) == Stored(n, k)
    && (forall i :: Note(k, i) in n'.notes <==> Note(k, i) in n.notes)
    && (forall i :: Note(k, i) in ToIndex(n') <==> Note(k, i) in ToIndex(n))
  }

  lemma {:induction false} SameKey(filter: UpdateFilter, s: State, t: State, k: Key)
    requires KeyInv(filter, s, k)
    requires SameNews(s.news, t.news, k) && (k in t.deleted <==> k in s.deleted)
    requires SameQueue(s.q, t.q, k) && SameCalls(s.calls, t.calls, k)
    ensures KeyInv(filter, t, k)
  {
    assert DeleteAmong(t.news.notes, History(t.news, k), k) <==> DeleteAmong(s.news.notes, History(s.news, k), k);
    assert forall b, p :: NotForgotten(t.news, b, k, p) <==> NotForgotten(s.news, b, k, p);
    assert forall p :: MatchAt(t.news, t.calls, k, p) <==> MatchAt(s.news, s.calls, k, p);
    assert forall b, p :: Covered(filter, t.news, b, k, p) <==> Covered(filter, s.news, b, k, p);
  }

  // ----- Store changes

  lemma {:induction false} ChangeNotes(n: News, k: Key, c: Change)
    ensures var n' := Changing(n, k, c);
            && (forall m :: m in n'.notes <==> m in n.notes || m == Note(k, |History(n, k)|))
            && (NotesInv(n) ==>
                  forall m :: m in ToIndex(n') <==> m in ToIndex(n) || m == Note(k, |History(n, k)|))
  {
    var n', m := Changing(n, k, c), Note(k, |History(n, k)|);
    assert n'.notes == n.notes + [m];
    assert n.notes != [] ==> n'.notes[1..] == n.notes[1..] + [m];
  }

  lemma {:induction false} ChangeOther(filter: UpdateFilter, s: State, j: Key, c: Change, k: Key)
    requires NotesInv(s.news) && KeyInv(filter, s, k) && k != j
    ensures KeyInv(filter, s.(news := Changing(s.news, j, c)), k)
  {
    ChangeNotes(s.news, j, c);
    SameKey(filter, s, s.(news := Changing(s.news, j, c)), k);
  }

  lemma {:induction false} MoreNews(notes: seq<Note>, notes': seq<Note>, h: seq<Change>, h': seq<Change>, k: Key)
    requires h <= h' && forall n | n in notes :: n in notes'
    ensures DeleteAmong(notes, h, k) ==> DeleteAmong(notes', h', k)
  {
    if DeleteAmong(notes, h, k) {
      var i :| 0 <= i < |h| && h[i].Del? && Note(k, i) in notes;
      assert h'[i] == h[i] && Note(k, i) in notes';
    }
  }

  lemma {:induction false} ChangeKept(filter: UpdateFilter, s: State, k: Key, c: Change)
    requires NotesInv(s.news) && KeyInv(filter, s, k)
    ensures KeyInv(filter, s.(news := Changing(s.news, k, c)), k)
  {
    var n, n' := s.news, Changing(s.news, k, c);
    ChangeNotes(n, k, c);
    var h, h' := History(n, k), History(n', k);
    assert h' == h + [c] && h'[|h|] == c;
    assert forall p | 0 <= p <= |h| :: h'[..p] == h[..p];
    MoreNews(n.notes, n'.notes, h, h', k);
    MoreNews(ToIndex(n), ToIndex(n'), h, h', k);
    assert c.Del? ==> Note(k, |h|) in ToIndex(n') && DeleteAmong(ToIndex(n'), h', k);
    assert forall b, p | NotForgotten(n, b, k, p) :: NotForgotten(n', b, k, p);
    assert forall p | MatchAt(n, s.calls, k, p) :: MatchAt(n', s.calls, k, p);
    assert forall b, p | Covered(filter, n, b, k, p) :: Covered(filter, n', b, k, p);
  }

  // ----- Notifications

  lemma {:induction false} IndexKept(filter: UpdateFilter, s: State, k: Key)
    requires KeyInv(filter, s, k) && Enabled(s, IndexDeleted)
    ensures KeyInv(filter, Apply(filter, s, IndexDeleted), k)
  {
    var t, m := Apply(filter, s, IndexDeleted), s.news.notes[0];
    assert s.news.notes == [m] + s.news.notes[1..];
    if k != m.key {
      SameKey(filter, s, t, k);
    } else {
      assert k in t.deleted;
      assert forall b, p | NotForgotten(s.news, b, k, p) :: NotForgotten(t.news, true, k, p);
      assert forall p :: MatchAt(t.news, t.calls, k, p) <==> MatchAt(s.news, s.calls, k, p);
      assert forall b, p :: Covered(filter, t.news, b, k, p) <==> Covered(filter, s.news, b, k, p);
    }
  }

  lemma {:induction false} PopNotes(n: News)
    requires NotesInv(n) && HasNote(n) && (Noted(n).Del? ==> n.indexed)
    ensures var n' := Popped(n);
            && ToIndex(n') == n'.notes
            && (forall m | m != n.notes[0] :: m in n'.notes <==> m in n.notes)
            && (if n.indexed then ToIndex(n') == ToIndex(n) else ToIndex(n) == n.notes && !Noted(n).Del?)
  {
    assert n.notes == [n.notes[0]] + n.notes[1..];
  }

  lemma {:induction false} PopForgets(n: News, k: Key)
    requires NotesInv(n) && HasNote(n) && (Noted(n).Del? ==> n.indexed)
    ensures forall b, p :: NotForgotten(Popped(n), b, k, p) <==> NotForgotten(n, b, k, p)
    ensures !Noted(n).Del? ==>
              (DeleteAmong(Popped(n).notes, History(n, k), k) <==> DeleteAmong(n.notes, History(n, k), k))
  {
    var h := History(n, k);
    PopNotes(n);
    assert forall i | 0 <= i < |h| && h[i].Del? :: Note(k, i) == n.notes[0] ==> Noted(n).Del?;
    assert DeleteAmong(ToIndex(Popped(n)), h, k) <==> DeleteAmong(ToIndex(n), h, k);
  }

  lemma {:induction false} NoteOther(filter: UpdateFilter, s: State, t: State, k: Key)
    requires NotesInv(s.news) && KeyInv(filter, s, k) && Enabled(s, HandleNote)
    requires k != s.news.notes[0].key
    requires t.news == Popped(s.news) && t.deleted == s.deleted && t.calls == s.calls && SameQueue(s.q, t.q, k)
    ensures KeyInv(filter, t, k)
  {
    PopNotes(s.news);
    SameKey(filter, s, t, k);
  }

  lemma {:induction false} NoteAccepted(filter: UpdateFilter, s: State, t: State, k: Key)
    requires NotesInv(s.news) && KeyInv(filter, s, k) && Enabled(s, HandleNote)
    requires t.news == Popped(s.news) && t.deleted == s.deleted && t.calls == s.calls
    requires t.q.processing == s.q.processing && k in t.q.dirty
    ensures KeyInv(filter, t, k)
  {
    PopForgets(s.news, k);
  }

  lemma {:induction false} NoteRefused(filter: UpdateFilter, s: State, t: State, k: Key)
    requires NotesInv(s.news) && KeyInv(filter, s, k) && Enabled(s, HandleNote) && k == s.news.notes[0].key
    requires !Accepted(filter, Noted(s.news))
    requires t == s.(news := Popped(s.news))
    ensures KeyInv(filter, t, k)
  {
    PopNotes(s.news);
    PopForgets(s.news, k);
    assert forall p :: MatchAt(t.news, t.calls, k, p) <==> MatchAt(s.news, s.calls, k, p);
    assert forall b, p | Covered(filter, s.news, b, k, p) :: Covered(filter, t.news, b, k, p);
  }

  lemma {:induction false} NoteKept(filter: UpdateFilter, s: State, k: Key)
    requires NotesInv(s.news) && KeyInv(filter, s, k) && Enabled(s, HandleNote)
    ensures KeyInv(filter, Apply(filter, s, HandleNote), k)
  {
    var t := Apply(filter, s, HandleNote);
    if k != s.news.notes[0].key {
      NoteOther(filter, s, t, k);
    } else if Accepted(filter, Noted(s.news)) {
      NoteAccepted(filter, s, t, k);
    } else {
      NoteRefused(filter, s, t, k);
    }
  }

  // ----- The queue

  lemma {:induction false} AppendNew(items: seq<Key>, k: Key)
    requires NoDuplicates(items) && k !in items
    ensures NoDuplicates(items + [k]) && forall x :: x in items + [k] <==> x in items || x == k
  {
  }

  lemma {:induction false} DropHead(items: seq<Key>)
    requires NoDuplicates(items) && items != []
    ensures NoDuplicates(items[1..]) && forall x :: x in items[1..] <==> x in items && x != items[0]
  {
    assert items == [items[0]] + items[1..];
  }

  lemma {:induction false} QueueAddKept(q: Queue, k: Key)
    requires QueueInv(q)
    ensures QueueInv(QueueAdd(q, k))
  {
    if k !in q.dirty {
      AppendNew(q.items, k);
    }
  }

  lemma {:induction false} QueueDoneKept(q: Queue, k: Key)
    requires QueueInv(q) && k in q.processing
    ensures QueueInv(QueueDone(q, k))
  {
    if k in q.dirty {
      AppendNew(q.items, k);
    }
  }

  lemma {:induction false} QueueSame(q: Queue, q': Queue)
    requires QueueInv(q) && q'.items == q.items && q'.dirty == q.dirty
    requires forall k :: k in q'.processing <==> k in q.processing
    ensures QueueInv(q')
  {
  }

  lemma {:induction false} QueueKept(filter: UpdateFilter, s: State, step: Step)
    requires QueueInv(s.q) && Enabled(s, step)
    ensures QueueInv(Apply(filter, s, step).q)
  {
    match step
    case HandleNote => QueueAddKept(s.q, s.news.notes[0].key);
    case DelayOver(k) =>
      QueueSame(s.q, s.q.(delayed := s.q.delayed - {k}));
      QueueAddKept(s.q.(delayed := s.q.delayed - {k}), k);
    case Get => DropHead(s.q.items);
    case Done(k) => QueueDoneKept(s.q, k);
    case Conclude(k) => QueueSame(s.q, Onto(Requeue(s.q, k, s.q.processing[k]), k, Concluded));
    case _ => QueueSame(s.q, Apply(filter, s, step).q);
  }

  // ----- Workers

  lemma {:induction false} OtherKept(filter: UpdateFilter, s: State, t: State, k: Key)
    requires KeyInv(filter, s, k) && t.news == s.news && (k in t.deleted <==> k in s.deleted)
    requires SameQueue(s.q, t.q, k) && SameCalls(s.calls, t.calls, k)
    ensures KeyInv(filter, t, k)
  {
    SameKey(filter, s, t, k);
  }

  lemma {:induction false} LookupKept(filter: UpdateFilter, s: State, k: Key)
    requires KeyInv(filter, s, k) && Enabled(s, Lookup(k))
    ensures KeyInv(filter, Apply(filter, s, Lookup(k)), k)
  {
    var h := History(s.news, k);
    assert h[..|h|] == h;
    assert NotForgotten(s.news, k in s.deleted, k, |h|);
  }

  /** A key missing from both indices was not added last, or its deletion is about to be notified. */
  lemma {:induction false} UnindexedMatches(filter: UpdateFilter, s: State, k: Key)
    requires KeyInv(filter, s, k) && k in s.q.processing && s.q.processing[k].Missing? && k !in s.deleted
    ensures MatchAt(s.news, s.calls, k, s.q.processing[k].at)
  {
    var h, at := History(s.news, k), s.q.processing[k].at;
    if k in s.calls.last && s.calls.last[k].AddCall? {
      var p := s.calls.calledAt[k];
      assert h[..p][p - 1] == h[p - 1];
      assert p < at && h[..at][at - 1].Del?;
      assert h[at - 1].Del?;
      assert DeleteAmong(ToIndex(s.news), h, k);
    }
  }

  lemma {:induction false} ConcludeKept(filter: UpdateFilter, s: State, k: Key)
    requires KeyInv(filter, s, k) && Enabled(s, Conclude(k))
    ensures KeyInv(filter, Apply(filter, s, Conclude(k)), k)
  {
    var t, stage := Apply(filter, s, Conclude(k)), s.q.processing[k];
    assert t.news == s.news && t.deleted == s.deleted;
    assert t.calls.last == s.calls.last && t.calls.calledAt == s.calls.calledAt;
    assert t.q.dirty == s.q.dirty;
    if !Retries(s.q, k, stage) && (stage.Succeeded? || stage.unindexed) {
      assert Settled(t.calls, k) == stage.at && t.q.delayed == s.q.delayed;
      assert MatchAt(s.news, s.calls, k, stage.at) ==> MatchAt(t.news, t.calls, k, stage.at);
    }
  }

  lemma {:induction false} SyncKept(filter: UpdateFilter, s: State, step: Step, k: Key)
    requires KeyInv(filter, s, k) && Enabled(s, step)
    requires step == LookupDeleted(k) || step == ForgetDeleted(k) || step == Done(k)
          || step == CallAdd(k, true) || step == CallAdd(k, false)
          || step == CallDelete(k, true) || step == CallDelete(k, false)
    ensures KeyInv(filter, Apply(filter, s, step), k)
  {
    if step == LookupDeleted(k) && k !in s.deleted {
      UnindexedMatches(filter, s, k);
    }
  }

  lemma {:induction false} GetKept(filter: UpdateFilter, s: State, k: Key)
    requires QueueInv(s.q) && KeyInv(filter, s, k) && s.q.items != []
    ensures KeyInv(filter, s.(q := QueueGet(s.q)), k)
  {
    if k != s.q.items[0] {
      OtherKept(filter, s, s.(q := QueueGet(s.q)), k);
    } else {
      assert k in s.q.items;
    }
  }

  lemma {:induction false} DelayKept(filter: UpdateFilter, s: State, j: Key, k: Key)
    requires KeyInv(filter, s, k) && j in s.q.delayed
    ensures KeyInv(filter, s.(q := QueueAdd(s.q.(delayed := s.q.delayed - {j}), j)), k)
  {
    var t := s.(q := QueueAdd(s.q.(delayed := s.q.delayed - {j}), j));
    if k != j {
      OtherKept(filter, s, t, k);
    } else {
      assert k in t.q.dirty && t.q.processing == s.q.processing;
    }
  }

  predicate SyncStep(step: Step) {
    !step.ChangeStore? && !step.IndexDeleted? && !step.HandleNote? && !step.Get? && !step.DelayOver?
  }

  lemma {:induction false} SyncOther(filter: UpdateFilter, s: State, step: Step, k: Key)
    requires KeyInv(filter, s, k) && Enabled(s, step) && SyncStep(step) && step.k != k
    ensures KeyInv(filter, Apply(filter, s, step), k)
  {
    OtherKept(filter, s, Apply(filter, s, step), k);
  }

  lemma {:induction false} SyncSelf(filter: UpdateFilter, s: State, step: Step, k: Key)
    requires KeyInv(filter, s, k) && Enabled(s, step) && SyncStep(step) && step.k == k
    ensures KeyInv(filter, Apply(filter, s, step), k)
  {
    if step.Lookup? {
      LookupKept(filter, s, k);
    } else if step.Conclude? {
      ConcludeKept(filter, s, k);
    } else {
      SyncKept(filter, s, step, k);
    }
  }

  lemma {:induction false} KeyKept(filter: UpdateFilter, s: State, step: Step, k: Key)
    requires QueueInv(s.q) && NotesInv(s.news) && KeyInv(filter, s, k) && Enabled(s, step)
    ensures KeyInv(filter, Apply(filter, s, step), k)
  {
    if SyncStep(step) {
      if step.k == k {
        SyncSelf(filter, s, step, k);
      } else {
        SyncOther(filter, s, step, k);
      }
    } else {
      match step
      case ChangeStore(j, c) =>
        if j == k {
          ChangeKept(filter, s, k, c);
        } else {
          ChangeOther(filter, s, j, c, k);
        }
      case IndexDeleted => IndexKept(filter, s, k);
      case HandleNote => NoteKept(filter, s, k);
      case Get => GetKept(filter, s, k);
      case DelayOver(j) => DelayKept(filter, s, j, k);
    }
  }

  lemma {:induction false} NotesKept(filter: UpdateFilter, s: State, step: Step)
    requires NotesInv(s.news) && Enabled(s, step)
    ensures NotesInv(Apply(filter, s, step).news)
  {
    match step
    case ChangeStore(k, c) => ChangeNotesKept(s.news, k, c);
    case HandleNote => PopNotes(s.news);
    case _ =>
  }

  lemma {:induction false} ChangeNotesKept(n: News, k: Key, c: Change)
    requires NotesInv(n)
    ensures NotesInv(Changing(n, k, c))
  {
    var n' := Changing(n, k, c);
    ChangeNotes(n, k, c);
    assert forall j :: History(n, j) <= History(n', j);
    assert n.indexed ==> n'.notes[0] == n.notes[0];
  }

  lemma {:induction false} InvKept(filter: UpdateFilter, s: State, step: Step)
    requires Inv(filter, s) && Enabled(s, step)
    ensures Inv(filter, Apply(filter, s, step))
  {
    QueueKept(filter, s, step);
    NotesKept(filter, s, step);
    forall k
      ensures KeyInv(filter, Apply(filter, s, step), k)
    {
      assert KeyInv(filter, s, k);
      KeyKept(filter, s, step, k);
    }
  }

  /** A callback about a created object, about an update to a new version that the filter takes, or about a deletion
      leaves its key waiting; objects being deleted, unchanged versions and updates refused do not touch the queue. */
  lemma {:induction false} NoticedIsQueued(filter: UpdateFilter, s: State)
    requires Enabled(s, HandleNote) && QueueInv(s.q)
    ensures var k, c, t := s.news.notes[0].key, Noted(s.news), Apply(filter, s, HandleNote);
            var noticed := c.Del? || (!c.obj.terminating
                                      && (c.prev.None? || (c.prev.value.version != c.obj.version && filter(c.prev.value, c.obj))));
            if noticed then k in t.q.dirty && (k in t.q.items || k in t.q.processing) else t.q == s.q
  {
  }

  // ----- Convergence

  /** The queue is empty, nothing is being synced or waits for a retry, and no callback is pending. */
  ghost predicate Quiescent(s: State) {
    s.q.items == [] && s.q.processing == map[] && s.q.delayed == {} && s.news.notes == []
  }

  ghost predicate IsRun(filter: UpdateFilter, states: seq<State>, steps: seq<Step>) {
    && |states| == |steps| + 1 && states[0] == START
    && forall i | 0 <= i < |steps| ::
         Enabled(states[i], steps[i]) && states[i + 1] == Apply(filter, states[i], steps[i])
  }

  lemma {:induction false} RunInv(filter: UpdateFilter, states: seq<State>, steps: seq<Step>)
    requires IsRun(filter, states, steps)
    ensures Inv(filter, states[|steps|])
  {
    if steps == [] {
    } else {
      var n := |steps| - 1;
      RunInv(filter, states[..|steps|], steps[..n]);
      InvKept(filter, states[n], steps[n]);
    }
  }

  /** A change the callbacks pass over: an object being deleted, an unchanged version, or an update refused. */
  predicate PassedOver(filter: UpdateFilter, c: Change) {
    c.Put? && (c.obj.terminating
               || (c.prev.Some? && (c.prev.value.version == c.obj.version || !filter(c.prev.value, c.obj))))
  }

  /** The last call says what the first p changes amount to, and those after them were passed over. */
  ghost predicate SettledAt(filter: UpdateFilter, s: State, k: Key, p: nat) {
    var h := History(s.news, k);
    && p <= |h|
    && (forall i | p <= i < |h| :: PassedOver(filter, h[i]))
    && match Result(h[..p])
       case Some(obj) => k in s.calls.last && s.calls.last[k] == AddCall(obj)
       case None => k !in s.calls.last || s.calls.last[k].DeleteCall?
  }

  /** At rest, each key whose handler was not given up on has been synced at some point of its history
      after which all changes were passed over, and the last call says what the store held at that point. */
  lemma {:induction false} RunSettles(filter: UpdateFilter, states: seq<State>, steps: seq<Step>, k: Key)
    requires IsRun(filter, states, steps) && Quiescent(states[|steps|])
    requires k !in states[|steps|].calls.dropped
    ensures var s := states[|steps|];
            exists p: nat :: SettledAt(filter, s, k, p)
  {
    RunInv(filter, states, steps);
    var s := states[|steps|];
    assert KeyInv(filter, s, k);
    assert s.q.dirty == {} by {
      forall x
        ensures x !in s.q.dirty
      {
        assert x in s.q.items <==> x in s.q.dirty && x !in s.q.processing;
      }
    }
    assert Covered(filter, s.news, false, k, Settled(s.calls, k)) && MatchAt(s.news, s.calls, k, Settled(s.calls, k));
    assert SettledAt(filter, s, k, Settled(s.calls, k));
  }

  /** If no version was being deleted, and every update brought a new version that the filter took, the last call is
      the store's content: add with the stored version, or delete, or never add. */
  lemma {:induction false} RunConverges(filter: UpdateFilter, states: seq<State>, steps: seq<Step>, k: Key)
    requires IsRun(filter, states, steps) && Quiescent(states[|steps|])
    requires k !in states[|steps|].calls.dropped
    requires forall c | c in History(states[|steps|].news, k) && c.Put? ::
               !c.obj.terminating && (c.prev.Some? ==> c.prev.value.version != c.obj.version && filter(c.prev.value, c.obj))
    ensures var s := states[|steps|];
            if k in s.news.store then k in s.calls.last && s.calls.last[k] == AddCall(s.news.store[k])
            else k !in s.calls.last || s.calls.last[k].DeleteCall?
  {
    RunInv(filter, states, steps);
    RunSettles(filter, states, steps, k);
    var s := states[|steps|];
    var h := History(s.news, k);
    assert KeyInv(filter, s, k);
    var p: nat :| SettledAt(filter, s, k, p);
    assert forall i | 0 <= i < |h| :: h[i] in h;
    assert p == |h| && h[..p] == h;
  }

  /** A key created and never touched again ends with add called for it. */
  lemma {:induction false} RunAddsCreated(filter: UpdateFilter, states: seq<State>, steps: seq<Step>, k: Key, obj: Obj)
    requires IsRun(filter, states, steps) && Quiescent(states[|steps|]) && k !in states[|steps|].calls.dropped
    requires History(states[|steps|].news, k) == [Put(None, obj)] && !obj.terminating
    ensures var calls := states[|steps|].calls; k in calls.last && calls.last[k] == AddCall(obj)
  {
    RunInv(filter, states, steps);
    assert KeyInv(filter, states[|steps|], k);
    RunConverges(filter, states, steps, k);
  }

  /** An object that is gone is never left added, whatever the filter refused. */
  lemma {:induction false} RunForgetsDeleted(filter: UpdateFilter, states: seq<State>, steps: seq<Step>, k: Key)
    requires IsRun(filter, states, steps) && Quiescent(states[|steps|])
    requires k !in states[|steps|].calls.dropped && k !in states[|steps|].news.store
    ensures var s := states[|steps|]; k !in s.calls.last || s.calls.last[k].DeleteCall?
  {
    RunInv(filter, states, steps);
    RunSettles(filter, states, steps, k);
    var s := states[|steps|];
    var h := History(s.news, k);
    assert KeyInv(filter, s, k);
    var p: nat :| SettledAt(filter, s, k, p);
    assert h != [] ==> !PassedOver(filter, h[|h| - 1]);
    assert p == |h| && h[..p] == h;
  }
}
