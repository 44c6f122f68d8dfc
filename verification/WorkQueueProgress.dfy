/** The work-queue handler can always come to rest: callbacks, workers and retries lead there by themselves. */
module WorkQueueProgress {
  import opened WorkQueue
  import opened WorkQueueSafety

  ghost predicate Path(filter: UpdateFilter, s: State, es: seq<Step>, t: State)
    decreases |es|
  {
    if es == [] then t == s else Enabled(s, es[0]) && Path(filter, Apply(filter, s, es[0]), es[1..], t)
  }

  lemma {:induction false} PathConcat(filter: UpdateFilter, s: State, es: seq<Step>, t: State, fs: seq<Step>, u: State)
    requires Path(filter, s, es, t) && Path(filter, t, fs, u)
    ensures Path(filter, s, es + fs, u)
    decreases |es|
  {
    if es == [] {
      assert es + fs == fs;
    } else {
      PathConcat(filter, Apply(filter, s, es[0]), es[1..], t, fs, u);
      assert (es + fs)[1..] == es[1..] + fs;
    }
  }

  lemma {:induction false} PathOne(filter: UpdateFilter, s: State, e: Step)
    requires Enabled(s, e)
    ensures Path(filter, s, [e], Apply(filter, s, e))
  {
    assert [e][1..] == [];
  }

  lemma {:induction false} PathKeeps(filter: UpdateFilter, s: State, es: seq<Step>, t: State)
    requires Inv(filter, s) && Path(filter, s, es, t)
    ensures Inv(filter, t)
    decreases |es|
  {
    if es != [] {
      InvKept(filter, s, es[0]);
      PathKeeps(filter, Apply(filter, s, es[0]), es[1..], t);
    }
  }

  // ----- One key's sync, to its end

  /** What a worker does next, when handler functions succeed. */
  function NextStep(k: Key, stage: Stage): Step {
    match stage
    case Got => Lookup(k)
    case Found(_, _) => CallAdd(k, true)
    case Missing(_) => LookupDeleted(k)
    case ToDelete(_, _) => CallDelete(k, true)
    case Forgetting(_) => ForgetDeleted(k)
    case Succeeded(_) => Conclude(k)
    case Failed(_, _) => Conclude(k)
    case Concluded => Done(k)
  }

  function Rank(stage: Stage): nat {
    match stage
    case Got => 7
    case Missing(_) => 6
    case ToDelete(_, _) => 5
    case Forgetting(_) => 4
    case Found(_, _) => 3
    case Succeeded(_) => 2
    case Failed(_, _) => 2
    case Concluded => 1
  }

  /** A handler function has failed in this sync already. */
  predicate HasFailed(stage: Stage) {
    stage.Failed? && !stage.unindexed
  }

  /** Only the sync of k moved on; a retry is one more requeue, up to three. */
  ghost predicate OnlySynced(s: State, t: State, k: Key) {
    && t.news == s.news && t.q.dirty == s.q.dirty
    && (forall j | j != k :: Requeues(t.q, j) == Requeues(s.q, j))
    && (t.q.delayed == s.q.delayed || (t.q.delayed == s.q.delayed + {k} && Requeues(t.q, k) == Requeues(s.q, k) + 1 <= MAX_RETRIES))
    && t.calls.dropped <= s.calls.dropped + {k}
    && (k in s.q.processing && !HasFailed(s.q.processing[k]) ==> t.calls.dropped <= s.calls.dropped)
  }

  /** One stage further; only the conclusion touches retries. */
  lemma {:induction false} OneStage(filter: UpdateFilter, s: State, k: Key)
    requires k in s.q.processing && s.q.processing[k] != Concluded
    ensures Enabled(s, NextStep(k, s.q.processing[k]))
    ensures var t := Apply(filter, s, NextStep(k, s.q.processing[k]));
            && OnlySynced(s, t, k) && t.q.items == s.q.items && k in t.q.processing
            && t.q.processing - {k} == s.q.processing - {k} && Rank(t.q.processing[k]) < Rank(s.q.processing[k])
            && (t.q.processing[k] != Concluded ==>
                  t.q.delayed == s.q.delayed && t.q.requeues == s.q.requeues && !HasFailed(t.q.processing[k]) && t.calls.dropped == s.calls.dropped)
  {
    var t := Apply(filter, s, NextStep(k, s.q.processing[k]));
    assert t.q.processing == s.q.processing[k := t.q.processing[k]];
  }

  lemma {:induction false} FinishKey(filter: UpdateFilter, s: State, k: Key) returns (es: seq<Step>, t: State)
    requires k in s.q.processing
    ensures Path(filter, s, es, t) && OnlySynced(s, t, k)
    ensures t.q.processing == s.q.processing - {k} && t.q.items == s.q.items + if k in s.q.dirty then [k] else []
    ensures s.q.processing[k] == Concluded ==> t.q.delayed == s.q.delayed && t.calls == s.calls && t.q.requeues == s.q.requeues
    decreases Rank(s.q.processing[k])
  {
    var e := NextStep(k, s.q.processing[k]);
    PathOne(filter, s, e);
    if e.Done? {
      es, t := [e], Apply(filter, s, e);
    } else {
      OneStage(filter, s, k);
      es, t := FinishKey(filter, Apply(filter, s, e), k);
      PathConcat(filter, s, [e], Apply(filter, s, e), es, t);
      es := [e] + es;
    }
  }

  // ----- Everything under way

  ghost predicate SameStore(s: State, t: State) {
    t.news.store == s.news.store && t.news.history == s.news.history
  }

  /** Keys given up are those before, and those whose handler function had failed already. */
  ghost predicate GivesUpOnly(s: State, t: State) {
    forall k | k in t.calls.dropped :: k in s.calls.dropped || (k in s.q.processing && HasFailed(s.q.processing[k]))
  }

  lemma {:induction false} HandleNotes(filter: UpdateFilter, s: State) returns (es: seq<Step>, t: State)
    requires Inv(filter, s)
    ensures Path(filter, s, es, t) && t.news.notes == [] && SameStore(s, t)
    ensures t.q.processing == s.q.processing && t.calls == s.calls
    decreases |s.news.notes|, if s.news.indexed then 0 else 1
  {
    if s.news.notes == [] {
      es, t := [], s;
    } else {
      assert s.news.notes[0] in s.news.notes && HasNote(s.news);
      var e := if Noted(s.news).Del? && !s.news.indexed then IndexDeleted else HandleNote;
      var u := Apply(filter, s, e);
      InvKept(filter, s, e);
      PathOne(filter, s, e);
      es, t := HandleNotes(filter, u);
      PathConcat(filter, s, [e], u, es, t);
      es := [e] + es;
    }
  }

  lemma {:induction false} FinishAll(filter: UpdateFilter, s: State) returns (es: seq<Step>, t: State)
    requires s.news.notes == []
    ensures Path(filter, s, es, t) && t.q.processing == map[] && t.news == s.news && GivesUpOnly(s, t)
    decreases |s.q.processing|
  {
    if s.q.processing == map[] {
      es, t := [], s;
    } else {
      var k :| k in s.q.processing;
      var fs, u := FinishKey(filter, s, k);
      assert |s.q.processing - {k}| < |s.q.processing|;
      es, t := FinishAll(filter, u);
      PathConcat(filter, s, fs, u, es, t);
      es := fs + es;
    }
  }

  lemma {:induction false} WakeAll(filter: UpdateFilter, s: State) returns (es: seq<Step>, t: State)
    requires s.q.processing == map[]
    ensures Path(filter, s, es, t) && t.q.delayed == {} && t.q.processing == map[] && t.news == s.news && t.calls == s.calls
    decreases |s.q.delayed|
  {
    if s.q.delayed == {} {
      es, t := [], s;
    } else {
      var k :| k in s.q.delayed;
      var u := Apply(filter, s, DelayOver(k));
      PathOne(filter, s, DelayOver(k));
      es, t := WakeAll(filter, u);
      PathConcat(filter, s, [DelayOver(k)], u, es, t);
      es := [DelayOver(k)] + es;
    }
  }

  // ----- The queue, key by key

  /** How often the keys of the queue may still be synced before they are settled or given up. */
  function Turns(items: seq<Key>, q: Queue): nat {
    if items == [] then 0
    else Turns(items[..|items| - 1], q) + (if Requeues(q, items[|items| - 1]) <= MAX_RETRIES then MAX_RETRIES + 1 - Requeues(q, items[|items| - 1]) else 0)
  }

  lemma {:induction false} TurnsOfRest(items: seq<Key>, q: Queue, q': Queue)
    requires items != [] && forall k | k in items[1..] :: Requeues(q', k) == Requeues(q, k)
    ensures Turns(items[1..], q') + (if Requeues(q, items[0]) <= MAX_RETRIES then MAX_RETRIES + 1 - Requeues(q, items[0]) else 0) == Turns(items, q)
  {
    if |items| > 1 {
      var before := items[..|items| - 1];
      assert before[1..] == items[1..][..|items| - 2];
      assert forall k | k in before[1..] :: k in items[1..];
      TurnsOfRest(before, q, q');
      assert items[1..][|items| - 2] == items[|items| - 1];
    }
  }

  /** All that is left to do is in the queue. */
  ghost predicate AllQueued(s: State) {
    s.news.notes == [] && s.q.processing == map[] && s.q.delayed == {}
  }

  /** One key is synced; if it has to be retried it joins the end of the queue. */
  lemma {:induction false} OneTurn(filter: UpdateFilter, s: State) returns (es: seq<Step>, t: State)
    requires Inv(filter, s) && AllQueued(s) && s.q.items != []
    ensures Path(filter, s, es, t) && AllQueued(t) && t.news == s.news && t.calls.dropped <= s.calls.dropped
    ensures Turns(t.q.items, t.q) < Turns(s.q.items, s.q) || (Turns(t.q.items, t.q) <= Turns(s.q.items, s.q) && |t.q.items| < |s.q.items|)
  {
    var k := s.q.items[0];
    var u := Apply(filter, s, Get);
    PathOne(filter, s, Get);
    DropHead(s.q.items);
    assert u.q.processing == map[k := Got];
    var fs, v := FinishKey(filter, u, k);
    PathConcat(filter, s, [Get], u, fs, v);
    assert v.q.processing == map[];
    assert v.q.items == s.q.items[1..];
    TurnsOfRest(s.q.items, s.q, v.q);
    if v.q.delayed == {} {
      es, t := [Get] + fs, v;
    } else {
      t := Apply(filter, v, DelayOver(k));
      PathOne(filter, v, DelayOver(k));
      PathConcat(filter, s, [Get] + fs, v, [DelayOver(k)], t);
      es := [Get] + fs + [DelayOver(k)];
      assert k !in v.q.dirty;
      assert t.q.items == v.q.items + [k];
      assert (v.q.items + [k])[..|v.q.items|] == v.q.items;
      TurnsSame(v.q.items, v.q, t.q);
    }
  }

  lemma {:induction false} TurnsSame(items: seq<Key>, q: Queue, q': Queue)
    requires q'.requeues == q.requeues
    ensures Turns(items, q') == Turns(items, q)
  {
    if items != [] {
      TurnsSame(items[..|items| - 1], q, q');
    }
  }

  lemma {:induction false} EmptyQueue(filter: UpdateFilter, s: State) returns (es: seq<Step>, t: State)
    requires Inv(filter, s) && AllQueued(s)
    ensures Path(filter, s, es, t) && Quiescent(t) && t.news == s.news && t.calls.dropped <= s.calls.dropped
    decreases Turns(s.q.items, s.q), |s.q.items|
  {
    if s.q.items == [] {
      es, t := [], s;
    } else {
      var fs, u := OneTurn(filter, s);
      PathKeeps(filter, s, fs, u);
      es, t := EmptyQueue(filter, u);
      PathConcat(filter, s, fs, u, es, t);
      es := fs + es;
    }
  }

  /** From every state of every run, callbacks, workers and retries alone lead to rest, if from now on the handler
      functions succeed; no key is given up on the way whose handler function has not failed before. */
  lemma {:induction false} CanSettle(filter: UpdateFilter, s: State) returns (es: seq<Step>, t: State)
    requires Inv(filter, s)
    ensures Path(filter, s, es, t) && Quiescent(t) && SameStore(s, t) && GivesUpOnly(s, t)
  {
    var s1, s2, s3, fs;
    es, s1 := HandleNotes(filter, s);
    fs, s2 := FinishAll(filter, s1);
    PathConcat(filter, s, es, s1, fs, s2);
    es := es + fs;
    fs, s3 := WakeAll(filter, s2);
    PathConcat(filter, s, es, s2, fs, s3);
    es := es + fs;
    PathKeeps(filter, s, es, s3);
    fs, t := EmptyQueue(filter, s3);
    PathConcat(filter, s, es, s3, fs, t);
    es := es + fs;
  }

  // ----- Keys given up

  /** How many syncs of the key have been concluded. */
  function Syncs(steps: seq<Step>, k: Key): nat {
    if steps == [] then 0
    else Syncs(steps[..|steps| - 1], k) + if steps[|steps| - 1] == Conclude(k) then 1 else 0
  }

  /** In every run a key is given up only after four syncs of it: the first and three retries. */
  lemma {:induction false} GivenUpAfterFour(filter: UpdateFilter, states: seq<State>, steps: seq<Step>, k: Key)
    requires IsRun(filter, states, steps)
    ensures var s := states[|steps|];
            Requeues(s.q, k) <= Syncs(steps, k) && (k in s.calls.dropped ==> Syncs(steps, k) >= 4)
  {
    if steps != [] {
      var n := |steps| - 1;
      assert steps[..n] == steps[..|steps| - 1];
      GivenUpAfterFour(filter, states[..|steps|], steps[..n], k);
      assert states[n + 1] == Apply(filter, states[n], steps[n]);
      GivenUpStep(filter, states[n], steps[n], k);
    }
  }

  lemma {:induction false} GivenUpStep(filter: UpdateFilter, s: State, step: Step, k: Key)
    requires Enabled(s, step)
    ensures var t := Apply(filter, s, step);
            && Requeues(t.q, k) <= Requeues(s.q, k) + (if step == Conclude(k) then 1 else 0)
            && (k in t.calls.dropped ==> k in s.calls.dropped || (step == Conclude(k) && Requeues(s.q, k) >= 3))
  {
  }
}
