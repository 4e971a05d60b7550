/** The list of coalesced filesystem events of one watcher. */
module EventLists {
  import opened Bytes
  import opened Options
  import opened EventLog

  datatype EventBatch = EventBatch(error: Text, events: seq<Event>)

  /** The sequence lists the batch, each event once. */
  ghost predicate Lists(events: seq<Event>, batch: Log) {
    && (forall i :: 0 <= i < |events| ==> KeyOf(events[i]) in batch && events[i] == batch[KeyOf(events[i])])
    && (forall k :: k in batch ==> exists i :: 0 <= i < |events| && KeyOf(events[i]) == k)
    && (forall i, j :: 0 <= i < j < |events| ==> KeyOf(events[i]) != KeyOf(events[j]))
  }

  lemma {:induction false} AsManyAs(events: seq<Event>, keys: set<Key>)
    requires forall i :: 0 <= i < |events| ==> KeyOf(events[i]) in keys
    requires forall k :: k in keys ==> exists i :: 0 <= i < |events| && KeyOf(events[i]) == k
    requires forall i, j :: 0 <= i < j < |events| ==> KeyOf(events[i]) != KeyOf(events[j])
    ensures |events| == |keys|
    decreases |events|
  {
    if events == [] {
      assert keys == {};
    } else {
      var n := |events| - 1;
      var init, last := events[..n], KeyOf(events[n]);
      forall k | k in keys - {last}
        ensures exists i :: 0 <= i < n && KeyOf(init[i]) == k
      {
        var i :| 0 <= i < |events| && KeyOf(events[i]) == k;
        assert init[i] == events[i];
      }
      AsManyAs(init, keys - {last});
    }
  }

  /** It has as many events as the batch has keys, and the very same events. */
  lemma ListsAll(events: seq<Event>, batch: Log)
    requires Lists(events, batch)
    ensures |events| == |batch|
    ensures forall e :: e in events <==> e in batch.Values
  {
    AsManyAs(events, batch.Keys);
    forall e | e in batch.Values
      ensures e in events
    {
      var k :| k in batch && batch[k] == e;
      var i :| 0 <= i < |events| && KeyOf(events[i]) == k;
      assert events[i] == e;
    }
  }

  class EventList {
    var events: Log
    var errorText: Option<Text>

    ghost predicate Valid()
      reads this
    {
      WellKeyed(events)
    }

    constructor ()
      ensures events == map[] && errorText == None && Valid()
    {
      events, errorText := map[], None;
    }

    method InternalUpdate(k: Key)
      modifies this`events
      ensures events == Touch(old(events), k)
    {
      if k !in events {
        events := events[k := Event(k.path, k.kind, false, false, None)];
      }
    }

    method Create(path: Text, kind: EntryKind)
      requires Valid()
      modifies this`events
      ensures events == EventLog.Create(old(events), Key(path, kind)) && Valid()
    {
      hide WellKeyed;
      var k := Key(path, kind);
      WellKeyedCreate(events, k);
      InternalUpdate(k);
      if events[k].isDeleted {
        // Rapidly removed and created: assume an update.
        events := events[k := events[k].(isDeleted := false)];
        events := events[k := events[k].(renameId := None)];
      } else {
        events := events[k := events[k].(isCreated := true)];
      }
    }

    method Rename(oldPath: Text, newPath: Text, renameId: Text, kind: EntryKind)
      requires Valid()
      modifies this`events
      ensures events == EventLog.Rename(old(events), Key(oldPath, kind), Key(newPath, kind), renameId) && Valid()
    {
      hide WellKeyed;
      var source, target := Key(oldPath, kind), Key(newPath, kind);
      WellKeyedRename(events, source, target, renameId);
      if source in events && events[source].isCreated {
        var originalRenameId := events[source].renameId;
        events := events - {source};
        InternalUpdate(target);
        if events[target].isDeleted {
          events := events[target := events[target].(isDeleted := false, renameId := None)];
        } else {
          events := events[target := events[target].(isCreated := true, isDeleted := false,
                                                     renameId := originalRenameId)];
        }
        return;
      }
      InternalUpdate(source);
      events := events[source := events[source].(isDeleted := true)];
      InternalUpdate(target);
      if events[target].isDeleted {
        events := events[target := events[target].(isDeleted := false)];
        events := events[source := events[source].(renameId := None)];
        events := events[target := events[target].(renameId := None)];
      } else {
        events := events[target := events[target].(isCreated := true)];
        events := events[source := events[source].(renameId := Some(renameId))];
        events := events[target := events[target].(renameId := Some(renameId))];
      }
    }

    method Update(path: Text, kind: EntryKind)
      requires Valid()
      modifies this`events
      ensures events == Touch(old(events), Key(path, kind)) && Valid()
    {
      WellKeyedCreate(events, Key(path, kind));
      InternalUpdate(Key(path, kind));
    }

    method Remove(path: Text, kind: EntryKind)
      requires Valid()
      modifies this`events
      ensures events == EventLog.Remove(old(events), Key(path, kind)) && Valid()
    {
      hide WellKeyed;
      var k := Key(path, kind);
      WellKeyedCreate(events, k);
      InternalUpdate(k);
      events := events[k := events[k].(isDeleted := true)];
      events := events[k := events[k].(renameId := None)];
    }

    method Error(text: Text)
      modifies this`errorText
      ensures errorText == if old(errorText).None? then Some(text) else old(errorText)
    {
      if errorText.None? {
        errorText := Some(text);
      }
    }

    method Drain() returns (batch: EventBatch)
      requires Valid()
      modifies this
      ensures Lists(batch.events, Drained(old(events)))
      ensures batch.error == (if old(errorText).Some? then old(errorText).value else [])
      ensures events == map[] && errorText == None && Valid()
    {
      var kept, renameParts := CollectVisible();
      var exposed := ExposeIds(kept, renameParts);
      batch := EventBatch(if errorText.Some? then errorText.value else [], exposed);
      events := map[];
      errorText := None;
    }

    /** The counts of every id among the keys already visited. */
    ghost predicate Counts(renameParts: map<Text, RenameParts>, done: set<Key>)
      reads this
    {
      forall id :: Lookup(renameParts, id) == PartsOf(events, done, id)
    }

    method CollectVisible() returns (kept: seq<Event>, renameParts: map<Text, RenameParts>)
      requires Valid()
      ensures Lists(kept, VisiblePart(events, events.Keys))
      ensures Counts(renameParts, events.Keys)
    {
      hide Lists, PartsOf, SideOf;
      kept, renameParts := [], map[];
      var todo := events.Keys;
      ghost var done: set<Key> := {};
      ListNone(events);
      forall id { PartsNone(events, id); }
      while todo != {}
        invariant done !! todo && done + todo == events.Keys
        invariant Lists(kept, VisiblePart(events, done))
        invariant Counts(renameParts, done)
        decreases todo
      {
        var k :| k in todo;
        var e := events[k];
        ListOne(events, kept, done, k);
        ghost var before := renameParts;
        if !(e.isCreated && e.isDeleted) {
          kept := kept + [e];
          if e.renameId.Some? {
            renameParts := CountOne(renameParts, e);
          }
        }
        forall id
          ensures Lookup(renameParts, id) == PartsOf(events, done + {k}, id)
        {
          assert Lookup(before, id) == PartsOf(events, done, id);
          PartsAdd(events, done, k, id);
        }
        done, todo := done + {k}, todo - {k};
      }
    }

    method CountOne(renameParts: map<Text, RenameParts>, e: Event) returns (result: map<Text, RenameParts>)
      requires e.renameId.Some?
      ensures forall id :: Lookup(result, id) ==
                           if id != e.renameId.value then Lookup(renameParts, id)
                           else Plus(Lookup(renameParts, id), SideOf(e))
    {
      var id := e.renameId.value;
      var parts := Lookup(renameParts, id);
      if e.isCreated {
        parts := parts.(created := parts.created + 1);
      } else if e.isDeleted {
        parts := parts.(deleted := parts.deleted + 1);
      } else {
        parts := parts.(other := parts.other + 1);
      }
      result := renameParts[id := parts];
    }

    method ExposeIds(kept: seq<Event>, renameParts: map<Text, RenameParts>) returns (exposed: seq<Event>)
      requires Valid() && Counts(renameParts, events.Keys)
      requires Lists(kept, VisiblePart(events, events.Keys))
      ensures Lists(exposed, Drained(events))
    {
      exposed := kept;
      for i := 0 to |exposed|
        invariant |exposed| == |kept|
        invariant forall j :: 0 <= j < i ==> exposed[j] == Exposed(events, KeyOf(kept[j]))
        invariant forall j :: i <= j < |kept| ==> exposed[j] == kept[j]
      {
        var event := exposed[i];
        assert event == events[KeyOf(kept[i])];
        if event.renameId.Some? {
          var parts := Lookup(renameParts, event.renameId.value);
          if parts.created != 1 || parts.deleted != 1 || parts.other != 0 {
            exposed := exposed[i := event.(renameId := None)];
          }
        }
      }
      ListExposed(events, kept, exposed);
    }
  }

  function Lookup(renameParts: map<Text, RenameParts>, id: Text): RenameParts {
    if id in renameParts then renameParts[id] else RenameParts(0, 0, 0)
  }

  function Plus(parts: RenameParts, side: Side): RenameParts {
    match side
    case Created => parts.(created := parts.created + 1)
    case Deleted => parts.(deleted := parts.deleted + 1)
    case Other => parts.(other := parts.other + 1)
  }

  lemma PartsAdd(m: Log, keys: set<Key>, k: Key, id: Text)
    requires k in m && k !in keys
    ensures PartsOf(m, keys + {k}, id) ==
            if m[k].Visible() && m[k].renameId == Some(id) then Plus(PartsOf(m, keys, id), SideOf(m[k]))
            else PartsOf(m, keys, id)
  {
    CarriersAdd(m, keys, k, id, Created);
    CarriersAdd(m, keys, k, id, Deleted);
    CarriersAdd(m, keys, k, id, Other);
  }

  function VisiblePart(m: Log, keys: set<Key>): Log {
    map k | k in keys && k in m && m[k].Visible() :: m[k]
  }

  lemma PartsNone(m: Log, id: Text)
    ensures PartsOf(m, {}, id) == RenameParts(0, 0, 0)
  {}

  lemma ListNone(m: Log)
    ensures Lists([], VisiblePart(m, {}))
  {}

  lemma ListOne(m: Log, kept: seq<Event>, done: set<Key>, k: Key)
    requires WellKeyed(m) && k in m && k !in done && Lists(kept, VisiblePart(m, done))
    ensures Lists(if m[k].Visible() then kept + [m[k]] else kept, VisiblePart(m, done + {k}))
  {
    if m[k].Visible() {
      var more := kept + [m[k]];
      forall j | j in VisiblePart(m, done + {k})
        ensures exists i :: 0 <= i < |more| && KeyOf(more[i]) == j
      {
        if j == k {
          assert KeyOf(more[|kept|]) == j;
        } else {
          assert j in VisiblePart(m, done);
          var i :| 0 <= i < |kept| && KeyOf(kept[i]) == j;
          assert KeyOf(more[i]) == j;
        }
      }
    } else {
      assert VisiblePart(m, done + {k}) == VisiblePart(m, done);
    }
  }

  lemma ListExposed(m: Log, kept: seq<Event>, exposed: seq<Event>)
    requires WellKeyed(m) && Lists(kept, VisiblePart(m, m.Keys)) && |exposed| == |kept|
    requires forall j :: 0 <= j < |kept| ==> exposed[j] == Exposed(m, KeyOf(kept[j]))
    ensures Lists(exposed, Drained(m))
  {
    forall j | 0 <= j < |kept|
      ensures KeyOf(exposed[j]) == KeyOf(kept[j])
    {}
    forall k | k in Drained(m)
      ensures exists i :: 0 <= i < |exposed| && KeyOf(exposed[i]) == k
    {
      assert k in VisiblePart(m, m.Keys);
      var i :| 0 <= i < |kept| && KeyOf(kept[i]) == k;
      assert KeyOf(exposed[i]) == k;
    }
  }
}
