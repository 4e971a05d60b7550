/** Every step of the backend protocol keeps its invariant. */
module BackendInvariant {
  import opened Bytes
  import opened Options
  import opened Backends
  import opened BackendProtocol

  // ------------------------------------------------------------ what a step leaves alone

  /** Only the caller `a` and the backend `b` differ; the registry did not gain other entries. */
  ghost predicate Local(s: State, t: State, a: nat, b: Id) {
    && a in s.actors && t.actors.Keys == s.actors.Keys
    && (forall c :: c in s.actors && c != a ==> t.actors[c] == s.actors[c])
    && b in t.backends && t.backends.Keys == s.backends.Keys + {b}
    && (forall d :: d in s.backends && d != b ==> t.backends[d] == s.backends[d])
    && (forall d :: d != b && Registered(t, d) ==> Registered(s, d))
  }

  /** Nothing that concerns the backend `d` happens to the caller `a`. */
  ghost predicate Aside(s: State, t: State, a: nat, d: Id)
    requires a in s.actors && a in t.actors
  {
    && (s.actors[a].reserved == Some(d) <==> t.actors[a].reserved == Some(d))
    && (IsCommitted(s, a, d) ==> IsCommitted(t, a, d))
    && (forall w :: IsSubscribing(s, a, d, w) <==> IsSubscribing(t, a, d, w))
  }

  lemma OtherBackend(s: State, t: State, a: nat, b: Id, d: Id)
    requires Local(s, t, a, b) && d != b && d in s.backends && BackendOk(s, d) && Aside(s, t, a, d)
    ensures BackendOk(t, d)
  {
    assert Holders(t, d) == Holders(s, d);
    forall c | c in s.actors
      ensures IsCommitted(s, c, d) ==> IsCommitted(t, c, d)
      ensures forall w :: IsSubscribing(s, c, d, w) <==> IsSubscribing(t, c, d, w)
    {}
  }

  lemma OtherActor(s: State, t: State, a: nat, b: Id, c: nat)
    requires Local(s, t, a, b) && c in s.actors && c != a && ActorOk(s, c) && !IsPrivateTo(s, c, b)
    requires forall d :: IsPrivateTo(t, a, d) ==> !IsPrivateTo(s, c, d) && (IsPrivateTo(s, a, d) || d !in s.backends)
    requires forall w :: IsSubscribing(s, c, b, w) && b in s.backends ==>
                           !IsSubscribing(t, a, b, w)
                           && (w in s.backends[b].subscriptions <==> w in t.backends[b].subscriptions)
    requires forall d, w :: IsSubscribing(t, a, d, w) ==> d == b || IsSubscribing(s, a, d, w)
    ensures ActorOk(t, c)
  {
    forall d | IsPrivateTo(t, c, d)
      ensures d in t.backends && t.backends[d] == FRESH && !Registered(t, d)
      ensures forall e :: IsPrivateTo(t, e, d) ==> e == c
    {
      assert IsPrivateTo(s, c, d);
      forall e | IsPrivateTo(t, e, d)
        ensures e == c
      {
        assert e != a ==> IsPrivateTo(s, e, d);
      }
    }
    if t.actors[c].at.Subscribing? {
      var on, w := t.actors[c].at.on, t.actors[c].at.watcher;
      assert IsSubscribing(s, c, on, w);
      forall e | IsSubscribing(t, e, on, w)
        ensures e == c
      {
        assert e != a ==> IsSubscribing(s, e, on, w);
      }
    }
    forall e, d | d in s.backends
      ensures IsPrivateTo(t, e, d) ==> IsPrivateTo(s, e, d)
    {
      assert e != a ==> (IsPrivateTo(t, e, d) <==> IsPrivateTo(s, e, d));
    }
  }

  lemma HoldersChange(s: State, t: State, a: nat, b: Id)
    requires a in s.actors && t.actors.Keys == s.actors.Keys
    requires forall c :: c in s.actors && c != a ==> t.actors[c].reserved == s.actors[c].reserved
    ensures |Holders(t, b)| == |Holders(s, b)| + (if t.actors[a].reserved == Some(b) then 1 else 0)
                               - (if s.actors[a].reserved == Some(b) then 1 else 0)
  {
    var rest := Holders(s, b) - {a};
    assert Holders(t, b) == if t.actors[a].reserved == Some(b) then rest + {a} else rest;
    assert Holders(s, b) == if s.actors[a].reserved == Some(b) then rest + {a} else rest;
  }

  // ------------------------------------------------------------ each step keeps the invariant

  /** The step does not reach into what other callers know. */
  ghost predicate Undisturbed(s: State, t: State, a: nat, b: Id)
    requires Local(s, t, a, b)
  {
    && (forall d :: d in s.backends && d != b ==> Aside(s, t, a, d))
    && (forall c :: c in s.actors && c != a ==> !IsPrivateTo(s, c, b))
    && (forall c, d :: c in s.actors && c != a && IsPrivateTo(t, a, d) ==> !IsPrivateTo(s, c, d))
    && (forall d :: IsPrivateTo(t, a, d) ==> IsPrivateTo(s, a, d) || d !in s.backends)
    && (forall c, w :: c != a && IsSubscribing(s, c, b, w) && b in s.backends ==>
                         !IsSubscribing(t, a, b, w)
                         && (w in s.backends[b].subscriptions <==> w in t.backends[b].subscriptions))
    && (forall d, w :: IsSubscribing(t, a, d, w) ==> d == b || IsSubscribing(s, a, d, w))
  }

  ghost predicate RegistryOk(s: State) {
    Injective(s.registry) && forall n :: n in s.registry ==> s.registry[n] in s.backends
  }

  /** What is left to show for a step that changes the caller `a` and the backend `b`. */
  lemma Assemble(s: State, t: State, a: nat, b: Id)
    requires Ok(s) && Local(s, t, a, b) && Undisturbed(s, t, a, b)
    requires RegistryOk(t) && BackendOk(t, b) && a in t.actors && ActorOk(t, a)
    ensures Ok(t)
  {
    hide Local, BackendOk, ActorOk, Aside;
    forall d | d in t.backends
      ensures BackendOk(t, d)
    {
      if d != b {
        LocalBackends(s, t, a, b, d);
        OtherBackend(s, t, a, b, d);
      }
    }
    forall c | c in t.actors
      ensures ActorOk(t, c)
    {
      LocalActors(s, t, a, b, c);
      if c != a {
        OtherActor(s, t, a, b, c);
      }
    }
  }

  lemma LocalBackends(s: State, t: State, a: nat, b: Id, d: Id)
    requires Local(s, t, a, b) && d in t.backends
    ensures d == b || d in s.backends
  {}

  lemma LocalActors(s: State, t: State, a: nat, b: Id, c: nat)
    requires Local(s, t, a, b)
    ensures c in t.actors <==> c in s.actors
  {}

  /** The caller goes on from `s.actors[a]` to `me` while the backend `b` becomes `f`. */
  ghost predicate Changes(s: State, t: State, a: nat, b: Id, me: Actor, f: Fields) {
    && a in s.actors && t.actors == s.actors[a := me] && t.backends == s.backends[b := f]
    && (forall n :: n in t.registry ==> (n in s.registry && s.registry[n] == t.registry[n]) || t.registry[n] == b)
  }

  lemma ChangesLocal(s: State, t: State, a: nat, b: Id, me: Actor, f: Fields)
    requires Changes(s, t, a, b, me, f)
    ensures Local(s, t, a, b)
  {}

  /** A shared or free backend is private to nobody. */
  lemma NotPrivate(s: State, b: Id)
    requires Ok(s) && (b !in s.backends || Registered(s, b) || s.backends[b] != FRESH)
    ensures forall c :: !IsPrivateTo(s, c, b)
  {
    hide BackendOk;
    forall c
      ensures !IsPrivateTo(s, c, b)
    {
      assert c in s.actors ==> ActorOk(s, c);
    }
  }

  /** A reserved backend is private to nobody. */
  lemma ReservedNotPrivate(s: State, a: nat, b: Id)
    requires Ok(s) && a in s.actors && s.actors[a].reserved == Some(b)
    ensures b in s.backends && s.backends[b].reservations > 0 && forall c :: !IsPrivateTo(s, c, b)
  {
    assert ActorOk(s, a) && BackendOk(s, b);
    assert a in Holders(s, b);
    NotPrivate(s, b);
  }

  // Reserving a registered backend.

  lemma TakeReservation(s: State, t: State, a: nat, b: Id, me: Actor)
    requires Ok(s) && a in s.actors && s.actors[a].reserved == None && Registered(s, b) && b in s.backends
    requires s.actors[a].at.Idle? || s.actors[a].at.Looking? || s.actors[a].at.Made?
    requires Changes(s, t, a, b, me, Reserve(s.backends[b])) && t.registry == s.registry
    requires me.reserved == Some(b)
    requires me.at.Idle? || (me.at.Losing? && s.actors[a].at.Made? && me.at.loser == s.actors[a].at.made &&
                             me.at.loser != b)
    ensures Ok(t)
  {
    hide BackendOk, ActorOk;
    NotPrivate(s, b);
    ChangesLocal(s, t, a, b, me, Reserve(s.backends[b]));
    TakenBackend(s, t, a, b, me);
    TakenActor(s, t, a, b, me);
    assert forall d :: IsPrivateTo(t, a, d) ==> IsPrivateTo(s, a, d);
    PrivateOnce(s, a);
    Assemble(s, t, a, b);
  }

  lemma PrivateOnce(s: State, a: nat)
    requires Ok(s) && a in s.actors
    ensures forall c, d :: IsPrivateTo(s, a, d) && IsPrivateTo(s, c, d) ==> c == a
  {
    hide BackendOk;
    assert ActorOk(s, a);
  }

  lemma TakenBackend(s: State, t: State, a: nat, b: Id, me: Actor)
    requires a in s.actors && b in s.backends && BackendOk(s, b) && s.actors[a].reserved == None && Registered(s, b)
    requires s.actors[a].at.Idle? || s.actors[a].at.Looking? || s.actors[a].at.Made?
    requires Changes(s, t, a, b, me, Reserve(s.backends[b])) && t.registry == s.registry
    requires me.reserved == Some(b) && (me.at.Idle? || me.at.Losing?)
    ensures BackendOk(t, b)
  {
    HoldersChange(s, t, a, b);
    assert forall c, w :: IsSubscribing(s, c, b, w) <==> IsSubscribing(t, c, b, w);
  }

  lemma TakenActor(s: State, t: State, a: nat, b: Id, me: Actor)
    requires a in s.actors && b in s.backends && ActorOk(s, a) && s.actors[a].reserved == None
    requires s.actors[a].at.Idle? || s.actors[a].at.Looking? || s.actors[a].at.Made?
    requires Changes(s, t, a, b, me, Reserve(s.backends[b])) && t.registry == s.registry
    requires me.reserved == Some(b)
    requires me.at.Idle? || (me.at.Losing? && s.actors[a].at.Made? && me.at.loser == s.actors[a].at.made &&
                             me.at.loser != b)
    ensures ActorOk(t, a)
  {
    assert forall c, d :: IsPrivateTo(t, c, d) ==> IsPrivateTo(s, c, d);
  }

  // Moving one caller along.

  lemma OnlyActor(s: State, t: State, a: nat, me: Actor)
    requires Ok(s) && a in s.actors && t == Put(s, a, me)
    requires me.reserved == s.actors[a].reserved && ActorOk(t, a)
    requires forall b :: IsCommitted(s, a, b) ==> IsCommitted(t, a, b)
    requires forall b :: !IsPrivateTo(t, a, b)
    requires forall b, w :: IsSubscribing(s, a, b, w) <==> IsSubscribing(t, a, b, w)
    ensures Ok(t)
  {
    forall d | d in t.backends
      ensures BackendOk(t, d)
    {
      OneBackendAside(s, t, a, me, d);
    }
    forall c | c in t.actors
      ensures ActorOk(t, c)
    {
      if c != a {
        OneActorAside(s, t, a, me, c);
      }
    }
  }

  lemma OneBackendAside(s: State, t: State, a: nat, me: Actor, d: Id)
    requires a in s.actors && t == Put(s, a, me) && me.reserved == s.actors[a].reserved
    requires forall b :: IsCommitted(s, a, b) ==> IsCommitted(t, a, b)
    requires forall b, w :: IsSubscribing(s, a, b, w) <==> IsSubscribing(t, a, b, w)
    requires d in s.backends && BackendOk(s, d)
    ensures BackendOk(t, d)
  {
    HoldersChange(s, t, a, d);
    assert forall c :: IsCommitted(s, c, d) ==> IsCommitted(t, c, d);
    assert forall c, w :: IsSubscribing(s, c, d, w) <==> IsSubscribing(t, c, d, w);
  }

  lemma OneActorAside(s: State, t: State, a: nat, me: Actor, c: nat)
    requires a in s.actors && t == Put(s, a, me) && c in s.actors && c != a && ActorOk(s, c)
    requires forall b :: !IsPrivateTo(t, a, b)
    requires forall b, w :: IsSubscribing(s, a, b, w) <==> IsSubscribing(t, a, b, w)
    ensures ActorOk(t, c)
  {
    assert forall e, w, d :: IsSubscribing(s, e, d, w) <==> IsSubscribing(t, e, d, w);
    assert forall e, d :: IsPrivateTo(t, e, d) ==> IsPrivateTo(s, e, d);
  }

  // A backend's life before it is shared.

  lemma MakeFresh(s: State, t: State, a: nat, b: Id, name: Text)
    requires Ok(s) && a in s.actors && s.actors[a].at.Making? && b !in s.backends && t.registry == s.registry
    requires Changes(s, t, a, b, s.actors[a].(at := Made(name, b)), FRESH)
    ensures Ok(t)
  {
    hide BackendOk, ActorOk;
    NotPrivate(s, b);
    ChangesLocal(s, t, a, b, s.actors[a].(at := Made(name, b)), FRESH);
    forall c | c in t.actors
      ensures t.actors[c].reserved != Some(b) && (forall w :: !IsSubscribing(t, c, b, w))
    {
      NotKnown(s, b, c);
      assert c != a ==> t.actors[c] == s.actors[c];
      assert forall w :: IsSubscribing(t, c, b, w) ==> IsSubscribing(s, c, b, w);
    }
    forall c, w
      ensures !IsSubscribing(s, c, b, w)
    {
      if c in s.actors {
        NotKnown(s, b, c);
      }
    }
    FreshBackend(s, t, a, b);
    FreshActor(s, t, a, b, name);
    Assemble(s, t, a, b);
  }

  lemma NotKnown(s: State, b: Id, c: nat)
    requires c in s.actors && ActorOk(s, c) && b !in s.backends
    ensures s.actors[c].reserved != Some(b) && !IsCommitted(s, c, b) && forall w :: !IsSubscribing(s, c, b, w)
  {}

  lemma FreshActor(s: State, t: State, a: nat, b: Id, name: Text)
    requires a in s.actors && ActorOk(s, a) && s.actors[a].at.Making? && !Registered(s, b) && t.registry == s.registry
    requires Changes(s, t, a, b, s.actors[a].(at := Made(name, b)), FRESH) && forall c :: !IsPrivateTo(s, c, b)
    ensures ActorOk(t, a)
  {
    forall c | c != a
      ensures !IsPrivateTo(t, c, b)
    {
      assert c in t.actors ==> t.actors[c] == s.actors[c];
      assert !IsPrivateTo(s, c, b);
    }
  }

  lemma FreshBackend(s: State, t: State, a: nat, b: Id)
    requires a in t.actors && b in t.backends && t.backends[b] == FRESH && !Registered(t, b)
    requires forall c :: c in t.actors ==> t.actors[c].reserved != Some(b) && forall w :: !IsSubscribing(t, c, b, w)
    ensures BackendOk(t, b)
  {
    assert Holders(t, b) == {};
  }

  lemma StopPrivate(s: State, t: State, a: nat, b: Id)
    requires Ok(s) && IsPrivateTo(s, a, b) && b in s.backends && t.registry == s.registry
    requires Changes(s, t, a, b, s.actors[a].(at := Idle), s.backends[b].(stopped := true))
    ensures Ok(t)
  {
    hide BackendOk, ActorOk;
    PrivateIs(s, a, b);
    ChangesLocal(s, t, a, b, s.actors[a].(at := Idle), s.backends[b].(stopped := true));
    StoppedBackend(s, t, a, b);
    StoppedActor(s, t, a, b);
    forall c, w
      ensures !IsSubscribing(s, c, b, w)
    {
      FreshIdle(s, b, c, w);
    }
    Assemble(s, t, a, b);
  }

  lemma StoppedActor(s: State, t: State, a: nat, b: Id)
    requires a in s.actors && ActorOk(s, a) && a in t.actors && t.actors[a] == s.actors[a].(at := Idle)
    requires s.backends.Keys <= t.backends.Keys
    ensures ActorOk(t, a)
  {}

  lemma FreshIdle(s: State, b: Id, c: nat, w: Watcher)
    requires b in s.backends && BackendOk(s, b) && s.backends[b] == FRESH
    ensures !IsSubscribing(s, c, b, w)
  {
    assert w !in FRESH.pending;
  }

  lemma StoppedBackend(s: State, t: State, a: nat, b: Id)
    requires a in s.actors && b in s.backends && BackendOk(s, b) && s.backends[b] == FRESH && !Registered(s, b)
    requires Changes(s, t, a, b, s.actors[a].(at := Idle), s.backends[b].(stopped := true)) && t.registry == s.registry
    requires !s.actors[a].at.Subscribing?
    ensures BackendOk(t, b)
  {
    HoldersChange(s, t, a, b);
    assert forall c, w :: IsSubscribing(s, c, b, w) <==> IsSubscribing(t, c, b, w);
  }

  lemma ShareFresh(s: State, t: State, a: nat, b: Id, name: Text)
    requires Ok(s) && a in s.actors && s.actors[a].at == Made(name, b) && b in s.backends && name !in s.registry
    requires Changes(s, t, a, b, Actor(Some(b), Idle), Reserve(s.backends[b])) && t.registry == s.registry[name := b]
    ensures Ok(t)
  {
    hide BackendOk, ActorOk;
    PrivateIs(s, a, b);
    ChangesLocal(s, t, a, b, Actor(Some(b), Idle), Reserve(s.backends[b]));
    SharedBackend(s, t, a, b);
    SharedRegistry(s, t, b, name);
    assert ActorOk(t, a) by { IdleOk(t, a, b); }
    forall c, w
      ensures !IsSubscribing(s, c, b, w)
    {
      FreshIdle(s, b, c, w);
    }
    Assemble(s, t, a, b);
  }

  lemma IdleOk(t: State, a: nat, b: Id)
    requires a in t.actors && t.actors[a] == Actor(Some(b), Idle) && b in t.backends
    ensures ActorOk(t, a)
  {}

  lemma PrivateIs(s: State, a: nat, b: Id)
    requires Ok(s) && a in s.actors && b in s.backends
    requires (s.actors[a].at.Made? && s.actors[a].at.made == b) || s.actors[a].at == Losing(b)
    ensures IsPrivateTo(s, a, b) && s.backends[b] == FRESH && !Registered(s, b)
    ensures forall c :: IsPrivateTo(s, c, b) ==> c == a
    ensures s.actors[a].at.Made? ==> s.actors[a].reserved == None
  {
    hide BackendOk;
    assert IsPrivateTo(s, a, b) && ActorOk(s, a);
  }

  lemma SharedRegistry(s: State, t: State, b: Id, name: Text)
    requires RegistryOk(s) && !Registered(s, b) && b in t.backends && name !in s.registry &&
             s.backends.Keys <= t.backends.Keys
    requires t.registry == s.registry[name := b]
    ensures RegistryOk(t) && forall d :: d != b && Registered(t, d) ==> Registered(s, d)
  {
    forall d | d != b && Registered(t, d)
      ensures Registered(s, d)
    {
      var n :| n in t.registry && t.registry[n] == d;
      assert n in s.registry && s.registry[n] == d;
    }
  }

  lemma SharedBackend(s: State, t: State, a: nat, b: Id)
    requires a in s.actors && b in s.backends && BackendOk(s, b) && s.backends[b] == FRESH && s.actors[a].at.Made?
    requires Changes(s, t, a, b, Actor(Some(b), Idle), Reserve(s.backends[b])) && s.actors[a].reserved == None
    ensures BackendOk(t, b)
  {
    HoldersChange(s, t, a, b);
    assert forall c, w :: IsSubscribing(s, c, b, w) <==> IsSubscribing(t, c, b, w);
  }

  // Acting on one shared backend.

  predicate Concerns(at: Activity, b: Id) {
    at.Idle? || ((at.Subscribing? || at.Unsubscribing? || at.Unreferencing?) && at.on == b)
  }

  lemma ActOn(s: State, t: State, a: nat, b: Id, me: Actor, f: Fields)
    requires Ok(s) && Changes(s, t, a, b, me, f) && RegistryOk(t) && forall c :: !IsPrivateTo(s, c, b)
    requires Concerns(s.actors[a].at, b) && Concerns(me.at, b)
    requires me.reserved == s.actors[a].reserved || (s.actors[a].reserved == Some(b) && me.reserved == None)
    requires forall n :: n in t.registry ==> n in s.registry && t.registry[n] == s.registry[n]
    requires BackendOk(t, b) && ActorOk(t, a)
    requires forall c, w :: c != a && IsSubscribing(s, c, b, w) && b in s.backends ==>
                              !IsSubscribing(t, a, b, w) && (w in s.backends[b].subscriptions <==> w in f.subscriptions)
    ensures Ok(t)
  {
    hide BackendOk, ActorOk;
    ChangesLocal(s, t, a, b, me, f);
    Assemble(s, t, a, b);
  }

  /** Of the callers subscribing a watcher on `b`, each has it pending and to itself. */
  lemma Pending(s: State, b: Id, c: nat, w: Watcher)
    requires Ok(s) && b in s.backends && IsSubscribing(s, c, b, w)
    ensures w in s.backends[b].pending && s.actors[c].reserved == Some(b)
    ensures forall d :: IsSubscribing(s, d, b, w) ==> d == c
    ensures s.actors[c].at.wasInvalid <==> w in s.backends[b].subscriptions
  {
    assert ActorOk(s, c) && BackendOk(s, b);
  }

  lemma WatchKept(s: State, a: nat, w: Watcher, cancelled: bool, throws: bool)
    requires Ok(s) && Enabled(s, WatchStep(a, w, cancelled, throws))
    ensures Ok(Next(s, WatchStep(a, w, cancelled, throws)))
  {
    hide BackendOk, ActorOk;
    var t, b := Next(s, WatchStep(a, w, cancelled, throws)), s.actors[a].reserved.value;
    ReservedNotPrivate(s, a, b);
    var me, f := t.actors[a], t.backends[b];
    WatchedBackend(s, t, a, b, w, cancelled, throws);
    WatchedActor(s, t, a, b, w, cancelled, throws);
    forall c, v | c != a && IsSubscribing(s, c, b, v)
      ensures !IsSubscribing(t, a, b, v)
    {
      Pending(s, b, c, v);
    }
    ActOn(s, t, a, b, me, f);
  }

  lemma WatchedBackend(s: State, t: State, a: nat, b: Id, w: Watcher, cancelled: bool, throws: bool)
    requires Enabled(s, WatchStep(a, w, cancelled, throws)) && t == Next(s, WatchStep(a, w, cancelled, throws))
    requires s.actors[a].reserved == Some(b) && BackendOk(s, b)
    ensures BackendOk(t, b)
  {
    hide StartWatch;
    HoldersChange(s, t, a, b);
    assert a in Holders(t, b);
    var f, g := s.backends[b], t.backends[b];
    assert g.reservations > 0 && Registered(t, b) == Registered(s, b);
    if t.actors[a].at.Subscribing? {
      assert IsSubscribing(t, a, b, w);
    }
    assert forall c, v :: c != a ==> (IsSubscribing(s, c, b, v) <==> IsSubscribing(t, c, b, v));
    assert forall v :: IsSubscribing(t, a, b, v) ==> v == w;
    assert g.reservations == |Holders(t, b)| && !g.stopped && !g.Unused();
    assert g.invalid <= g.subscriptions;
  }

  lemma WatchedActor(s: State, t: State, a: nat, b: Id, w: Watcher, cancelled: bool, throws: bool)
    requires Enabled(s, WatchStep(a, w, cancelled, throws)) && t == Next(s, WatchStep(a, w, cancelled, throws))
    requires s.actors[a].reserved == Some(b) && Ok(s) && forall c :: !IsPrivateTo(s, c, b)
    ensures ActorOk(t, a)
  {
    hide StartWatch, BackendOk;
    assert forall c, d :: IsPrivateTo(t, c, d) ==> IsPrivateTo(s, c, d);
    forall c | c != a && IsSubscribing(t, c, b, w)
      ensures false
    {
      Pending(s, b, c, w);
    }
  }

  lemma EndWatchKept(s: State, a: nat, fails: bool)
    requires Ok(s) && Enabled(s, EndWatchStep(a, fails))
    ensures Ok(Next(s, EndWatchStep(a, fails)))
  {
    hide BackendOk, FinishWatch;
    var t, b, w := Next(s, EndWatchStep(a, fails)), s.actors[a].at.on, s.actors[a].at.watcher;
    assert ActorOk(s, a);
    ReservedNotPrivate(s, a, b);
    WatchEnded(s, t, a, b, w, fails);
    forall c, v | c != a && IsSubscribing(s, c, b, v)
      ensures v in s.backends[b].subscriptions <==> v in t.backends[b].subscriptions
    {
      Pending(s, b, c, v);
      FinishOthers(s.backends[b], w, s.actors[a].at.wasInvalid, fails, v);
    }
    assert ActorOk(t, a);
    ActOn(s, t, a, b, t.actors[a], t.backends[b]);
  }

  lemma FinishOthers(f: Fields, w: Watcher, wasInvalid: bool, fails: bool, v: Watcher)
    ensures v != w ==> (v in f.subscriptions <==> v in FinishWatch(f, w, wasInvalid, fails).subscriptions)
  {}

  lemma WatchEnded(s: State, t: State, a: nat, b: Id, w: Watcher, fails: bool)
    requires Ok(s) && Enabled(s, EndWatchStep(a, fails)) && t == Next(s, EndWatchStep(a, fails))
    requires IsSubscribing(s, a, b, w)
    ensures BackendOk(t, b)
  {
    Pending(s, b, a, w);
    assert BackendOk(s, b);
    HoldersChange(s, t, a, b);
    assert a in Holders(t, b);
    var f, g := s.backends[b], t.backends[b];
    assert g.reservations > 0;
    forall v
      ensures v in g.pending <==> exists c :: IsSubscribing(t, c, b, v)
    {
      if v in g.pending {
        var c :| IsSubscribing(s, c, b, v);
        assert IsSubscribing(t, c, b, v);
      }
      if c :| IsSubscribing(t, c, b, v) {
        assert IsSubscribing(s, c, b, v);
        Pending(s, b, c, v);
      }
    }
    assert g.reservations == |Holders(t, b)|;
    assert g.invalid <= g.subscriptions;
    assert !g.stopped;
    assert !g.Unused();
  }

  lemma UnwatchKept(s: State, a: nat, b: Id, w: Watcher, keeps: bool, throws: bool)
    requires Ok(s) && Enabled(s, UnwatchStep(a, b, w, keeps, throws))
    ensures Ok(Next(s, UnwatchStep(a, b, w, keeps, throws)))
  {
    hide BackendOk;
    var t := Next(s, UnwatchStep(a, b, w, keeps, throws));
    InvalidSubscribed(s, b);
    var (f, unrefs) := StartUnwatch(s.backends[b], w, keeps, throws);
    if !unrefs {
      assert f.invalid == s.backends[b].invalid;
      assert t == s;
    } else {
      assert ActorOk(s, a);
      NotPrivate(s, b);
      UnwatchedBackend(s, t, a, b, w, keeps, throws);
      forall c, v | IsSubscribing(s, c, b, v)
        ensures v != w
      {
        Pending(s, b, c, v);
      }
      ActOn(s, t, a, b, t.actors[a], f);
    }
  }

  lemma InvalidSubscribed(s: State, b: Id)
    requires Ok(s) && b in s.backends
    ensures s.backends[b].invalid <= s.backends[b].subscriptions
  {
    assert BackendOk(s, b);
  }

  lemma UnwatchedBackend(s: State, t: State, a: nat, b: Id, w: Watcher, keeps: bool, throws: bool)
    requires Ok(s) && Enabled(s, UnwatchStep(a, b, w, keeps, throws)) &&
             t == Next(s, UnwatchStep(a, b, w, keeps, throws))
    requires t.actors[a].at == Unsubscribing(b, w) && w in s.backends[b].subscriptions
    requires t.backends[b] == s.backends[b].(subscriptions := s.backends[b].subscriptions - {w},
                                             invalid := s.backends[b].invalid - {w})
    ensures BackendOk(t, b)
  {
    hide StartUnwatch;
    assert BackendOk(s, b);
    HoldersChange(s, t, a, b);
    assert IsCommitted(t, a, b);
    assert forall c, v :: IsSubscribing(s, c, b, v) <==> IsSubscribing(t, c, b, v);
  }

  lemma UnrefKept(s: State, a: nat)
    requires Ok(s) && Enabled(s, UnrefStep(a))
    ensures Ok(Next(s, UnrefStep(a)))
  {
    hide BackendOk;
    var t, b := Next(s, UnrefStep(a)), s.actors[a].at.on;
    assert ActorOk(s, a);
    UnreferencedBackend(s, t, a, b);
    RemovedOk(s, b);
    ActOn(s, t, a, b, t.actors[a], t.backends[b]);
  }

  lemma RemovedOk(s: State, b: Id)
    requires RegistryOk(s)
    ensures Injective(Removed(s.registry, b)) && Removed(s.registry, b).Values <= s.backends.Keys
    ensures forall n :: n in Removed(s.registry, b) ==>
                          n in s.registry && Removed(s.registry, b)[n] == s.registry[n] != b
  {}

  lemma UnreferencedBackend(s: State, t: State, a: nat, b: Id)
    requires Enabled(s, UnrefStep(a)) && t == Next(s, UnrefStep(a)) && b == s.actors[a].at.on && BackendOk(s, b)
    ensures BackendOk(t, b)
  {
    HoldersChange(s, t, a, b);
    assert forall c, v :: IsSubscribing(s, c, b, v) <==> IsSubscribing(t, c, b, v);
    assert Registered(t, b) ==> Registered(s, b);
  }

  lemma ReleaseKept(s: State, a: nat)
    requires Ok(s) && Enabled(s, ReleaseStep(a))
    ensures Ok(Next(s, ReleaseStep(a)))
  {
    hide BackendOk;
    var t, b := Next(s, ReleaseStep(a)), s.actors[a].reserved.value;
    ReservedNotPrivate(s, a, b);
    ReleasedBackend(s, t, a, b);
    assert ActorOk(t, a) by {
      assert forall c, d :: IsPrivateTo(t, c, d) ==> IsPrivateTo(s, c, d);
    }
    ActOn(s, t, a, b, t.actors[a], t.backends[b]);
  }

  lemma ReleasedBackend(s: State, t: State, a: nat, b: Id)
    requires Enabled(s, ReleaseStep(a)) && t == Next(s, ReleaseStep(a)) && s.actors[a].reserved == Some(b) &&
             BackendOk(s, b)
    ensures BackendOk(t, b)
  {
    HoldersChange(s, t, a, b);
    assert forall c, v :: IsSubscribing(s, c, b, v) <==> IsSubscribing(t, c, b, v);
    if s.backends[b].reservations == 1 {
      assert IsCommitted(t, a, b);
    }
    assert Registered(t, b) == Registered(s, b);
  }

  // Steps of no caller.

  /** Without a caller's step, a smaller registry and more invalid subscriptions do no harm. */
  lemma NoCaller(s: State, t: State)
    requires Ok(s) && t.actors == s.actors && t.backends.Keys == s.backends.Keys && RegistryOk(t)
    requires forall n :: n in t.registry ==> n in s.registry && t.registry[n] == s.registry[n]
    requires forall b :: b in s.backends ==>
                           t.backends[b].invalid <= t.backends[b].subscriptions
                           && t.backends[b] == s.backends[b].(invalid := t.backends[b].invalid)
    ensures Ok(t)
  {
    forall b | b in t.backends
      ensures BackendOk(t, b)
    {
      UncalledBackend(s, t, b);
    }
    forall a | a in t.actors
      ensures ActorOk(t, a)
    {
      UncalledActor(s, t, a);
    }
  }

  lemma UncalledBackend(s: State, t: State, b: Id)
    requires t.actors == s.actors && b in s.backends && b in t.backends && BackendOk(s, b)
    requires forall n :: n in t.registry ==> n in s.registry && t.registry[n] == s.registry[n]
    requires t.backends[b].invalid <= t.backends[b].subscriptions
    requires t.backends[b] == s.backends[b].(invalid := t.backends[b].invalid)
    ensures BackendOk(t, b)
  {
    assert Holders(t, b) == Holders(s, b);
    assert forall c :: IsCommitted(s, c, b) ==> IsCommitted(t, c, b);
    assert forall c, v :: IsSubscribing(s, c, b, v) <==> IsSubscribing(t, c, b, v);
  }

  lemma UncalledActor(s: State, t: State, a: nat)
    requires t.actors == s.actors && t.backends.Keys == s.backends.Keys && a in s.actors && ActorOk(s, a)
    requires forall n :: n in t.registry ==> n in s.registry && t.registry[n] == s.registry[n]
    requires forall b :: b in s.backends ==>
                           t.backends[b].invalid <= t.backends[b].subscriptions
                           && t.backends[b] == s.backends[b].(invalid := t.backends[b].invalid)
    ensures ActorOk(t, a)
  {
    assert forall c, v, b :: IsSubscribing(s, c, b, v) <==> IsSubscribing(t, c, b, v);
    assert forall c, b :: IsPrivateTo(s, c, b) <==> IsPrivateTo(t, c, b);
  }

  // All steps.

  lemma GetSharedKept(s: State, e: Step)
    requires Ok(s) && Enabled(s, e) && (e.Lookup? || e.Make? || e.EmplaceMade? || e.StopLoser?)
    ensures Ok(Next(s, e))
  {
    hide BackendOk;
    var a, t := e.a, Next(s, e);
    assert ActorOk(s, a);
    match e
    case Lookup(_, name) =>
      if name in s.registry {
        TakeReservation(s, t, a, s.registry[name], t.actors[a]);
      } else {
        OnlyActor(s, t, a, t.actors[a]);
      }
    case Make(_, b, runFails) =>
      if IsKnown(s.actors[a].at.name) && !runFails {
        MakeFresh(s, t, a, b, s.actors[a].at.name);
      } else {
        OnlyActor(s, t, a, t.actors[a]);
      }
    case EmplaceMade(_, throws) =>
      var name, b := s.actors[a].at.name, s.actors[a].at.made;
      assert IsPrivateTo(s, a, b);
      if throws {
        StopPrivate(s, t, a, b);
      } else if name in s.registry {
        TakeReservation(s, t, a, s.registry[name], t.actors[a]);
      } else {
        ShareFresh(s, t, a, b, name);
      }
    case StopLoser(_) =>
      assert IsPrivateTo(s, a, s.actors[a].at.loser);
      StopPrivate(s, t, a, s.actors[a].at.loser);
  }

  /** Every step of every caller keeps the invariant. */
  lemma Kept(s: State, e: Step)
    requires Ok(s) && Enabled(s, e)
    ensures Ok(Next(s, e))
  {
    hide BackendOk, ActorOk;
    match e
    case WatchStep(a, w, cancelled, throws) => WatchKept(s, a, w, cancelled, throws);
    case EndWatchStep(a, fails) => EndWatchKept(s, a, fails);
    case UnwatchStep(a, b, w, keeps, throws) => UnwatchKept(s, a, b, w, keeps, throws);
    case EndUnwatchStep(a) => EndUnwatchKept(s, a);
    case UnrefStep(a) => UnrefKept(s, a);
    case ReleaseStep(a) => ReleaseKept(s, a);
    case InvalidateStep(_, _) => QuietKept(s, e);
    case NeedStep(_) => QuietKept(s, e);
    case ErrorStep(_) => QuietKept(s, e);
    case _ => GetSharedKept(s, e);
  }

  lemma EndUnwatchKept(s: State, a: nat)
    requires Ok(s) && Enabled(s, EndUnwatchStep(a))
    ensures Ok(Next(s, EndUnwatchStep(a)))
  {
    hide BackendOk;
    assert ActorOk(s, a);
    var t := Next(s, EndUnwatchStep(a));
    assert forall c, b :: IsPrivateTo(t, c, b) ==> IsPrivateTo(s, c, b);
    OnlyActor(s, t, a, t.actors[a]);
  }

  lemma QuietKept(s: State, e: Step)
    requires Ok(s) && Enabled(s, e) && (e.InvalidateStep? || e.NeedStep? || e.ErrorStep?)
    ensures Ok(Next(s, e))
  {
    hide BackendOk, ActorOk;
    forall b | b in s.backends { InvalidSubscribed(s, b); }
    if e.ErrorStep? {
      RemovedOk(s, e.b);
    }
    NoCaller(s, Next(s, e));
  }

  lemma {:induction false} Always(s: State, steps: seq<Step>)
    requires Ok(s) && Runs(s, steps)
    ensures Ok(After(s, steps))
    decreases |steps|
  {
    if steps != [] {
      Kept(s, steps[0]);
      Always(Next(s, steps[0]), steps[1..]);
    }
  }
}
