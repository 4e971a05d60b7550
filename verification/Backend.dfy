/** The shared backends: what each locked section does to one backend and to the registry. */
module Backends {
  import opened Bytes
  import opened Options

  type Watcher = nat

  const DEFAULT: Text := [100, 101, 102, 97, 117, 108, 116]
  const INOTIFY: Text := [105, 110, 111, 116, 105, 102, 121]

  /** The names for which the Linux build makes a backend. */
  predicate IsKnown(name: Text) {
    name == INOTIFY || name == DEFAULT
  }

  /** The fields of one backend, and whether `stop` has run on it. */
  datatype Fields = Fields(subscriptions: set<Watcher>, pending: set<Watcher>, invalid: set<Watcher>,
                           reservations: nat, stopped: bool)
  {
    predicate Unused() { subscriptions == {} && pending == {} && reservations == 0 }
  }

  const FRESH := Fields({}, {}, {}, 0, false)

  /** How the first locked section of `watch` ends. */
  datatype WatchStart = Returned | Began(wasInvalid: bool) | Threw(unrefs: bool)

  function StartWatch(f: Fields, w: Watcher, cancelled: bool, needsResubscribe: bool,
                      throws: bool): (r: (Fields, WatchStart))
    ensures r.1.Began? <==> !cancelled && !throws && (w !in f.subscriptions || w in f.invalid || needsResubscribe)
    ensures r.1.Began? ==>
              r.0 == f.(pending := f.pending + {w}, invalid := r.0.invalid) && r.1.wasInvalid == (w in f.subscriptions)
    ensures !r.1.Began? ==> r.0 == f.(invalid := r.0.invalid)
    ensures r.0.invalid - {w} == f.invalid - {w} && r.0.invalid <= f.invalid + {w} * f.subscriptions
    ensures r.1 == Threw(true) ==> w !in f.subscriptions
  {
    if cancelled then (f, Returned)
    else
      var isNew := w !in f.subscriptions;
      var wasInvalid := !isNew && (w in f.invalid || needsResubscribe);
      var g := if isNew then f else f.(invalid := f.invalid - {w});
      if !isNew && !wasInvalid then (g, Returned)
      else if throws then (if wasInvalid then g.(invalid := g.invalid + {w}) else g, Threw(!wasInvalid))
      else (g.(pending := g.pending + {w}), Began(wasInvalid))
  }

  function FinishWatch(f: Fields, w: Watcher, wasInvalid: bool, fails: bool): Fields {
    var g := f.(pending := f.pending - {w});
    if !fails then g.(subscriptions := g.subscriptions + {w})
    else if wasInvalid then g.(invalid := g.invalid + {w})
    else g
  }

  /** The two sections of `watch` with no step in between: once it succeeds the watcher is subscribed and
      no longer invalid; a failure leaves the subscriptions alone and marks a subscribed watcher for
      another try. */
  lemma WatchOutcome(f: Fields, w: Watcher, needsResubscribe: bool, throws: bool, fails: bool)
    requires w !in f.pending && f.invalid <= f.subscriptions
    ensures var (g, start) := StartWatch(f, w, false, needsResubscribe, throws);
            var end := if start.Began? then FinishWatch(g, w, start.wasInvalid, fails) else g;
            var done := start == Returned || (start.Began? && !fails);
            && end == f.(subscriptions := end.subscriptions, invalid := end.invalid)
            && end.subscriptions == (if done then f.subscriptions + {w} else f.subscriptions)
            && end.invalid == (if done then f.invalid - {w} else f.invalid + {w} * f.subscriptions)
  {
    assert f.pending + {w} - {w} == f.pending;
  }

  /** The first locked section of `unwatch`, and whether the second one follows. */
  function StartUnwatch(f: Fields, w: Watcher, keeps: bool, throws: bool): (r: (Fields, bool))
    ensures r.1 <==> !keeps && !throws && w in f.subscriptions
    ensures w in f.subscriptions ==>
              r.0 == if r.1 then f.(subscriptions := f.subscriptions - {w}, invalid := f.invalid - {w}) else f
    ensures w !in f.subscriptions ==> r.0 == if keeps then f else f.(invalid := f.invalid - {w})
  {
    if keeps then (f, false)
    else
      var g := f.(subscriptions := f.subscriptions - {w}, invalid := f.invalid - {w});
      if w !in f.subscriptions then
        assert g.subscriptions == f.subscriptions;
        (g, false)
      else if throws then
        var back := g.(subscriptions := g.subscriptions + {w},
                       invalid := if w in f.invalid then g.invalid + {w} else g.invalid);
        assert back.subscriptions == f.subscriptions && back.invalid == f.invalid;
        (back, false)
      else (g, true)
  }

  function Unreferenced(f: Fields): Fields {
    if f.Unused() then f.(stopped := true) else f
  }

  ghost predicate Injective<B>(registry: map<Text, B>) {
    forall m, n :: m in registry && n in registry && registry[m] == registry[n] ==> m == n
  }

  function Removed<B(==)>(registry: map<Text, B>, b: B): map<Text, B> {
    map n | n in registry && registry[n] != b :: registry[n]
  }

  class Backend {
    var subscriptions: set<Watcher>
    var pending: set<Watcher>
    var invalid: set<Watcher>
    var reservations: nat
    var stopped: bool

    constructor ()
      ensures State() == FRESH
    {
      subscriptions, pending, invalid, reservations, stopped := {}, {}, {}, 0, false;
    }

    function State(): Fields
      reads this
    {
      Fields(subscriptions, pending, invalid, reservations, stopped)
    }

    method Stop()
      modifies this`stopped
      ensures State() == old(State()).(stopped := true)
    {
      stopped := true;
    }

    /** `watch`, up to where the lock is given up; the wait for `watcher` to leave `pending` is over. */
    method BeginWatch(watcher: Watcher, cancelled: bool, needsResubscribe: bool, subscribeThrows: bool)
      returns (outcome: WatchStart)
      requires watcher !in pending
      modifies this
      ensures (State(), outcome) == StartWatch(old(State()), watcher, cancelled, needsResubscribe, subscribeThrows)
    {
      if cancelled {
        return Returned;
      }
      var isNew := watcher !in subscriptions;
      var wasInvalid := false;
      if !isNew {
        wasInvalid := watcher in invalid || needsResubscribe;
        invalid := invalid - {watcher};
      }
      if isNew || wasInvalid {
        pending := pending + {watcher};
        if subscribeThrows {
          pending := pending - {watcher};
          assert pending == old(pending);
          if wasInvalid {
            invalid := invalid + {watcher};
          }
          return Threw(!wasInvalid);
        }
        return Began(wasInvalid);
      }
      return Returned;
    }

    /** `watch`, after `finishSubscribe`; says whether `unref` follows. */
    method EndWatch(watcher: Watcher, wasInvalid: bool, finishFails: bool) returns (unrefs: bool)
      modifies this
      ensures State() == FinishWatch(old(State()), watcher, wasInvalid, finishFails)
      ensures unrefs <==> finishFails && !wasInvalid
    {
      pending := pending - {watcher};
      if finishFails {
        if wasInvalid {
          invalid := invalid + {watcher};
        }
        return !wasInvalid;
      }
      subscriptions := subscriptions + {watcher};
      return false;
    }

    /** `unwatch`, up to where the lock is given up; says whether `finishUnsubscribe` and `unref` follow. */
    method BeginUnwatch(watcher: Watcher, force: bool, hasCallbacks: bool, unsubscribeThrows: bool)
      returns (unrefs: bool)
      requires watcher !in pending
      modifies this
      ensures (State(), unrefs) == StartUnwatch(old(State()), watcher, !force && hasCallbacks, unsubscribeThrows)
    {
      if !force && hasCallbacks {
        return false;
      }
      var deleted := watcher in subscriptions;
      var wasInvalid := watcher in invalid;
      subscriptions := subscriptions - {watcher};
      invalid := invalid - {watcher};
      if deleted {
        if unsubscribeThrows {
          subscriptions := subscriptions + {watcher};
          if wasInvalid {
            invalid := invalid + {watcher};
          }
          return false;
        }
        return true;
      }
      return false;
    }

    method Invalidate(watcher: Watcher)
      modifies this`invalid
      ensures State() == old(State()).(invalid := old(invalid) + {watcher} * old(subscriptions))
    {
      if watcher in subscriptions {
        invalid := invalid + {watcher};
      }
      assert invalid == old(invalid) + {watcher} * old(subscriptions);
    }

    /** Gives a reservation back; says whether `unref` follows. */
    method ReleaseShared() returns (unrefs: bool)
      requires reservations > 0
      modifies this`reservations
      ensures State() == old(State()).(reservations := old(reservations) - 1)
      ensures unrefs <==> old(reservations) == 1
    {
      reservations := reservations - 1;
      return reservations == 0;
    }
  }

  class SharedBackends {
    var byName: map<Text, Backend>

    constructor ()
      ensures byName == map[]
    {
      byName := map[];
    }

    /** `getShared`, its first locked section. */
    method Find(name: Text) returns (found: Option<Backend>)
      modifies if name in byName then {byName[name]} else {}
      ensures found == if name in byName then Some(byName[name]) else None
      ensures name in byName ==>
                byName[name].State() == old(byName[name].State()).(reservations := old(byName[name].reservations) + 1)
    {
      if name in byName {
        var b := byName[name];
        b.reservations := b.reservations + 1;
        return Some(b);
      }
      return None;
    }

    /** `getShared`, its second locked section: whoever came first under this name is selected. */
    method Emplace(name: Text, result: Backend) returns (selected: Backend)
      modifies this, result, if name in byName then {byName[name]} else {}
      ensures byName == if name in old(byName) then old(byName) else old(byName)[name := result]
      ensures selected == byName[name]
      ensures selected.State() == old(selected.State()).(reservations := old(selected.reservations) + 1)
      ensures selected != result ==> unchanged(result)
    {
      if name !in byName {
        byName := byName[name := result];
      }
      selected := byName[name];
      selected.reservations := selected.reservations + 1;
    }

    method RemoveSharedLocked(backend: Backend)
      requires Injective(byName)
      modifies this
      ensures byName == Removed(old(byName), backend) && Injective(byName)
    {
      var todo := byName.Keys;
      while todo != {}
        invariant todo <= byName.Keys && byName == old(byName)
        invariant forall n :: n in byName && n !in todo ==> byName[n] != backend
        decreases todo
      {
        var n :| n in todo;
        if byName[n] == backend {
          byName := byName - {n};
          break;
        }
        todo := todo - {n};
      }
      assert byName == Removed(old(byName), backend);
    }

    /** `unref`, under both locks. */
    method Unref(backend: Backend)
      requires Injective(byName)
      modifies this, backend
      ensures backend.State() == Unreferenced(old(backend.State()))
      ensures byName == (if old(backend.State()).Unused() then Removed(old(byName), backend) else old(byName))
      ensures Injective(byName)
    {
      if backend.subscriptions == {} && backend.pending == {} && backend.reservations == 0 {
        backend.Stop();
        RemoveSharedLocked(backend);
      }
    }
  }
}
