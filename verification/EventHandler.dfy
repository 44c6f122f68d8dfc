/** The event handler of pkg/informer as an object: callbacks, queue worker and sync, proved to be the steps of
    the protocol, and one whole turn of a worker that keeps its invariant. */
module EventHandler {
  import opened WorkQueue
  import opened WorkQueueSafety

  class Handler {
    const updateFilter: UpdateFilter
    /** The informer's store and the notifications it has still to deliver. */
    var news: News
    var deletedIndexer: map<Key, Obj>
    var workqueue: Queue
    /** What the handler functions were called with. */
    var calls: Calls

    constructor (updateFilter: UpdateFilter)
      ensures this.updateFilter == updateFilter && Value() == START
    {
      this.updateFilter := updateFilter;
      news, deletedIndexer := News(map[], map[], [], false), map[];
      workqueue, calls := Queue([], {}, map[], {}, map[]), Calls(map[], map[], map[], {});
    }

    ghost function Value(): State
      reads this
    {
      State(news, deletedIndexer, workqueue, calls)
    }

    /** workqueue.Add. */
    method QueueAddKey(k: Key)
      modifies this`workqueue
      ensures workqueue == QueueAdd(old(workqueue), k)
    {
      if k in workqueue.dirty {
        return;
      }
      workqueue := workqueue.(dirty := workqueue.dirty + {k});
      if k !in workqueue.processing {
        workqueue := workqueue.(items := workqueue.items + [k]);
      }
    }

    /** enqueue: objects already set for deletion are ignored. */
    method Enqueue(k: Key, obj: Obj)
      modifies this`workqueue
      ensures workqueue == if obj.terminating then old(workqueue) else QueueAdd(old(workqueue), k)
    {
      if obj.terminating {
        return;
      }
      QueueAddKey(k);
    }

    /** The first half of enqueueDelete: the object goes to the index of deleted objects. */
    method IndexDeletedObject()
      requires Enabled(Value(), IndexDeleted)
      modifies this`news, this`deletedIndexer
      ensures Value() == Apply(updateFilter, old(Value()), IndexDeleted)
    {
      deletedIndexer := deletedIndexer[news.notes[0].key := Noted(news).obj];
      news := news.(indexed := true);
    }

    /** The callbacks: adds always, updates that change the version and pass the filter, deletes once indexed. */
    method Notify()
      requires Enabled(Value(), HandleNote)
      modifies this`news, this`workqueue
      ensures Value() == Apply(updateFilter, old(Value()), HandleNote)
      ensures var k, c := old(news).notes[0].key, Noted(old(news));
              var noticed := c.Del? || (!c.obj.terminating
                                           && (c.prev.None? || (c.prev.value.version != c.obj.version && updateFilter(c.prev.value, c.obj))));
              if noticed then k in workqueue.dirty else workqueue == old(workqueue)
    {
      var k, c := news.notes[0].key, Noted(news);
      match c {
        case Put(None, obj) => Enqueue(k, obj);
        case Put(Some(prev), obj) =>
          if prev.version != obj.version && updateFilter(prev, obj) {
            Enqueue(k, obj);
          }
        case Del(_) => QueueAddKey(k);
      }
      news := news.(notes := news.notes[1..], indexed := false);
    }

    method GetItem() returns (k: Key)
      requires Enabled(Value(), Get)
      modifies this`workqueue
      ensures Value() == Apply(updateFilter, old(Value()), Get)
      ensures k == old(workqueue).items[0]
    {
      k := workqueue.items[0];
      workqueue := QueueGet(workqueue);
    }

    /** syncHandler's read of the store. */
    method LookUp(k: Key) returns (exists': bool)
      requires Enabled(Value(), Lookup(k))
      modifies this`workqueue
      ensures Value() == Apply(updateFilter, old(Value()), Lookup(k))
      ensures exists' == (k in news.store)
    {
      exists' := k in news.store;
      var at := |History(news, k)|;
      workqueue := Onto(workqueue, k, if exists' then Found(at, news.store[k]) else Missing(at));
    }

    /** syncHandler's read of the index of deleted objects. */
    method LookUpDeleted(k: Key) returns (exists': bool)
      requires Enabled(Value(), LookupDeleted(k))
      modifies this`workqueue
      ensures Value() == Apply(updateFilter, old(Value()), LookupDeleted(k))
      ensures exists' == (k in deletedIndexer)
    {
      exists' := k in deletedIndexer;
      var at := workqueue.processing[k].at;
      workqueue := Onto(workqueue, k, if exists' then ToDelete(at, deletedIndexer[k]) else Failed(at, true));
    }

    method CallAddFunc(k: Key, ok: bool)
      requires Enabled(Value(), CallAdd(k, ok))
      modifies this`workqueue, this`calls
      ensures Value() == Apply(updateFilter, old(Value()), CallAdd(k, ok))
    {
      var stage := workqueue.processing[k];
      calls := Calling(calls, k, AddCall(stage.obj), stage.at);
      workqueue := Onto(workqueue, k, if ok then Succeeded(stage.at) else Failed(stage.at, false));
    }

    method CallDeleteFunc(k: Key, ok: bool)
      requires Enabled(Value(), CallDelete(k, ok))
      modifies this`workqueue, this`calls
      ensures Value() == Apply(updateFilter, old(Value()), CallDelete(k, ok))
    {
      var stage := workqueue.processing[k];
      calls := Calling(calls, k, DeleteCall(stage.obj), stage.at);
      workqueue := Onto(workqueue, k, if ok then Forgetting(stage.at) else Failed(stage.at, false));
    }

    method RemoveDeleted(k: Key)
      requires Enabled(Value(), ForgetDeleted(k))
      modifies this`workqueue, this`deletedIndexer
      ensures Value() == Apply(updateFilter, old(Value()), ForgetDeleted(k))
    {
      deletedIndexer := deletedIndexer - {k};
      workqueue := Onto(workqueue, k, Succeeded(workqueue.processing[k].at));
    }

    /** processNextWorkItem after the sync: forget the failures, retry later, or give the key up. */
    method ConcludeItem(k: Key)
      requires Enabled(Value(), Conclude(k))
      modifies this`workqueue, this`calls
      ensures Value() == Apply(updateFilter, old(Value()), Conclude(k))
    {
      var stage := workqueue.processing[k];
      calls := Ending(calls, workqueue, k, stage);
      if stage.Failed? && Requeues(workqueue, k) < MAX_RETRIES {
        workqueue := workqueue.(requeues := workqueue.requeues[k := Requeues(workqueue, k) + 1],
                                delayed := workqueue.delayed + {k});
      } else {
        workqueue := workqueue.(requeues := workqueue.requeues - {k});
      }
      workqueue := Onto(workqueue, k, Concluded);
    }

    /** workqueue.Done. */
    method ItemDone(k: Key)
      requires Enabled(Value(), Done(k))
      modifies this`workqueue
      ensures Value() == Apply(updateFilter, old(Value()), Done(k))
    {
      workqueue := workqueue.(processing := workqueue.processing - {k});
      if k in workqueue.dirty {
        workqueue := workqueue.(items := workqueue.items + [k]);
      }
    }

    /** What the sync of k leaves: the handler was told the stored version, or the deletion of the indexed one. */
    twostate predicate Synced(k: Key, addOk: bool, deleteOk: bool, ok: bool)
      reads this
    {
      && news == old(news) && calls.settled == old(calls.settled) && calls.dropped == old(calls.dropped)
      && if k in news.store then
           ok == addOk && calls.last == old(calls.last)[k := AddCall(news.store[k])] && deletedIndexer == old(deletedIndexer)
         else if k in old(deletedIndexer) then
           ok == deleteOk && calls.last == old(calls.last)[k := DeleteCall(old(deletedIndexer)[k])]
           && deletedIndexer == if ok then old(deletedIndexer) - {k} else old(deletedIndexer)
         else
           !ok && calls == old(calls) && deletedIndexer == old(deletedIndexer)
    }

    /** The branch of syncHandler for a key the store does not have. */
    method SyncDeleted(k: Key, deleteOk: bool) returns (ok: bool)
      requires Inv(updateFilter, Value()) && k in workqueue.processing && workqueue.processing[k].Missing?
      requires k !in news.store
      modifies this`workqueue, this`calls, this`deletedIndexer
      ensures Inv(updateFilter, Value()) && Synced(k, false, deleteOk, ok)
      ensures k in workqueue.processing && if ok then workqueue.processing[k].Succeeded? else workqueue.processing[k].Failed?
      ensures workqueue == Onto(old(workqueue), k, workqueue.processing[k])
    {
      InvKept(updateFilter, Value(), LookupDeleted(k));
      var indexed := LookUpDeleted(k);
      if !indexed {
        return false;
      }
      InvKept(updateFilter, Value(), CallDelete(k, deleteOk));
      CallDeleteFunc(k, deleteOk);
      if !deleteOk {
        return false;
      }
      InvKept(updateFilter, Value(), ForgetDeleted(k));
      RemoveDeleted(k);
      return true;
    }

    /** syncHandler without interruption. */
    method SyncHandler(k: Key, addOk: bool, deleteOk: bool) returns (ok: bool)
      requires Inv(updateFilter, Value()) && k in workqueue.processing && workqueue.processing[k] == Got
      modifies this`workqueue, this`calls, this`deletedIndexer
      ensures Inv(updateFilter, Value()) && Synced(k, addOk, deleteOk, ok)
      ensures k in workqueue.processing && if ok then workqueue.processing[k].Succeeded? else workqueue.processing[k].Failed?
      ensures workqueue == Onto(old(workqueue), k, workqueue.processing[k])
    {
      InvKept(updateFilter, Value(), Lookup(k));
      var found := LookUp(k);
      if !found {
        ok := SyncDeleted(k, deleteOk);
        return;
      }
      InvKept(updateFilter, Value(), CallAdd(k, addOk));
      CallAddFunc(k, addOk);
      return addOk;
    }

    /** One turn of a worker, others standing still. */
    method ProcessNextWorkItem(addOk: bool, deleteOk: bool) returns (k: Key, ok: bool)
      requires Inv(updateFilter, Value()) && workqueue.items != []
      modifies this`workqueue, this`calls, this`deletedIndexer
      ensures Inv(updateFilter, Value()) && k == old(workqueue).items[0]
      ensures k !in workqueue.processing
      ensures ok && k in news.store ==> k in calls.last && calls.last[k] == AddCall(news.store[k])
      ensures ok && k !in news.store ==>
                k in old(deletedIndexer) && k in calls.last && calls.last[k] == DeleteCall(old(deletedIndexer)[k])
                && k !in deletedIndexer
      ensures !ok ==> k in workqueue.delayed || k !in workqueue.requeues
    {
      InvKept(updateFilter, Value(), Get);
      k := GetItem();
      ok := SyncHandler(k, addOk, deleteOk);
      ghost var last := calls.last;
      InvKept(updateFilter, Value(), Conclude(k));
      ConcludeItem(k);
      assert calls.last == last;
      InvKept(updateFilter, Value(), Done(k));
      ItemDone(k);
    }
  }
}
