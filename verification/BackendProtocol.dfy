/** Every interleaving of the locked sections of `getShared`, `watch`, `unwatch`, `releaseShared` and `unref`. */
module BackendProtocol {
  import opened Bytes
  import opened Options
  import opened Backends

  type Id = nat

  /** Where a caller is between two locked sections. */
  datatype Activity =
    | Idle
    | Looking(name: Text)
    | Making(name: Text)
    | Made(name: Text, made: Id)
    | Losing(loser: Id)
    | Subscribing(on: Id, watcher: Watcher, wasInvalid: bool)
    | Unsubscribing(on: Id, watcher: Watcher)
    | Unreferencing(on: Id)

  /** A subscription or unsubscription in progress, or any other caller: at most one reservation each. */
  datatype Actor = Actor(reserved: Option<Id>, at: Activity)

  datatype State = State(registry: map<Text, Id>, backends: map<Id, Fields>, actors: map<nat, Actor>,
                         needs: set<Watcher>)

  datatype Step =
    | Lookup(a: nat, name: Text)
    | Make(a: nat, b: Id, runFails: bool)
    | EmplaceMade(a: nat, throws: bool)
    | StopLoser(a: nat)
    | WatchStep(a: nat, w: Watcher, cancelled: bool, throws: bool)
    | EndWatchStep(a: nat, fails: bool)
    | UnwatchStep(a: nat, b: Id, w: Watcher, keeps: bool, throws: bool)
    | EndUnwatchStep(a: nat)
    | UnrefStep(a: nat)
    | ReleaseStep(a: nat)
    | InvalidateStep(b: Id, w: Watcher)
    | NeedStep(w: Watcher)
    | ErrorStep(b: Id)

  predicate CanAct(s: State, e: Step) {
    match e
    case InvalidateStep(b, _) => b in s.backends
    case NeedStep(_) => true
    case ErrorStep(b) => b in s.backends
    case _ => e.a in s.actors
  }

  /** The step can run: the caller is at its start, and what it waits for has come. */
  predicate Enabled(s: State, e: Step) {
    CanAct(s, e) &&
    match e
    case Lookup(a, name) =>
      var me := s.actors[a];
      me.reserved.None? && (me.at.Idle? || me.at == Looking(name)) &&
          (name in s.registry ==> s.registry[name] in s.backends)
    case Make(a, b, _) => s.actors[a].at.Making? && b !in s.backends
    case EmplaceMade(a, _) =>
      var me := s.actors[a].at;
      me.Made? && me.made in s.backends && (me.name in s.registry ==> s.registry[me.name] in s.backends)
    case StopLoser(a) => s.actors[a].at.Losing? && s.actors[a].at.loser in s.backends
    case WatchStep(a, w, _, _) =>
      var me := s.actors[a];
      me.at.Idle? && me.reserved.Some? && me.reserved.value in s.backends && w !in s.backends[me.reserved.value].pending
    case EndWatchStep(a, _) => s.actors[a].at.Subscribing? && s.actors[a].at.on in s.backends
    case UnwatchStep(a, b, w, _, _) => s.actors[a].at.Idle? && b in s.backends && w !in s.backends[b].pending
    case EndUnwatchStep(a) => s.actors[a].at.Unsubscribing?
    case UnrefStep(a) => s.actors[a].at.Unreferencing? && s.actors[a].at.on in s.backends
    case ReleaseStep(a) =>
      var me := s.actors[a];
      me.at.Idle? && me.reserved.Some? && me.reserved.value in s.backends &&
          s.backends[me.reserved.value].reservations > 0
    case _ => true
  }

  function Put(s: State, a: nat, me: Actor): State {
    s.(actors := s.actors[a := me])
  }

  function Set(s: State, b: Id, f: Fields): State {
    s.(backends := s.backends[b := f])
  }

  function Reserve(f: Fields): Fields {
    f.(reservations := f.reservations + 1)
  }

  function Next(s: State, e: Step): State
    requires Enabled(s, e)
  {
    match e
    case Lookup(a, name) =>
      if name in s.registry then
        var b := s.registry[name];
        Put(Set(s, b, Reserve(s.backends[b])), a, Actor(Some(b), Idle))
      else Put(s, a, Actor(None, Making(name)))
    case Make(a, b, runFails) =>
      var name := s.actors[a].at.name;
      if !IsKnown(name) then Put(s, a, s.actors[a].(at := Looking(DEFAULT)))
      else if runFails then Put(s, a, s.actors[a].(at := Idle))
      else Put(Set(s, b, FRESH), a, s.actors[a].(at := Made(name, b)))
    case EmplaceMade(a, throws) =>
      var name, b := s.actors[a].at.name, s.actors[a].at.made;
      if throws then Put(Set(s, b, s.backends[b].(stopped := true)), a, s.actors[a].(at := Idle))
      else if name in s.registry then
        var c := s.registry[name];
        Put(Set(s, c, Reserve(s.backends[c])), a, Actor(Some(c), if c != b then Losing(b) else Idle))
      else Put(Set(s, b, Reserve(s.backends[b])), a, Actor(Some(b), Idle)).(registry := s.registry[name := b])
    case StopLoser(a) =>
      var b := s.actors[a].at.loser;
      Put(Set(s, b, s.backends[b].(stopped := true)), a, s.actors[a].(at := Idle))
    case WatchStep(a, w, cancelled, throws) =>
      var b := s.actors[a].reserved.value;
      var (f, outcome) := StartWatch(s.backends[b], w, cancelled, w in s.needs, throws);
      var at := match outcome
        case Returned => Idle
        case Began(wasInvalid) => Subscribing(b, w, wasInvalid)
        case Threw(unrefs) => if unrefs then Unreferencing(b) else Idle;
      Put(Set(s, b, f), a, s.actors[a].(at := at)).(needs := if cancelled then s.needs else s.needs - {w})
    case EndWatchStep(a, fails) =>
      var me := s.actors[a].at;
      Put(Set(s, me.on, FinishWatch(s.backends[me.on], me.watcher, me.wasInvalid, fails)),
          a, s.actors[a].(at := if fails && !me.wasInvalid then Unreferencing(me.on) else Idle))
    case UnwatchStep(a, b, w, keeps, throws) =>
      var (f, unrefs) := StartUnwatch(s.backends[b], w, keeps, throws);
      Put(Set(s, b, f), a, s.actors[a].(at := if unrefs then Unsubscribing(b, w) else Idle))
    case EndUnwatchStep(a) => Put(s, a, s.actors[a].(at := Unreferencing(s.actors[a].at.on)))
    case UnrefStep(a) =>
      var b := s.actors[a].at.on;
      Put(Set(s, b, Unreferenced(s.backends[b])), a, s.actors[a].(at := Idle))
      .(registry := if s.backends[b].Unused() then Removed(s.registry, b) else s.registry)
    case ReleaseStep(a) =>
      var b := s.actors[a].reserved.value;
      var f := s.backends[b];
      Put(Set(s, b, f.(reservations := f.reservations - 1)), a,
          Actor(None, if f.reservations == 1 then Unreferencing(b) else Idle))
    case InvalidateStep(b, w) =>
      Set(s, b, s.backends[b].(invalid := s.backends[b].invalid + {w} * s.backends[b].subscriptions))
    case NeedStep(w) => s.(needs := s.needs + {w})
    case ErrorStep(b) => s.(registry := Removed(s.registry, b))
  }

  /** The backend a step calls `stop` on, if any. */
  function Stops(s: State, e: Step): Option<Id>
    requires Enabled(s, e)
  {
    match e
    case EmplaceMade(a, throws) => if throws then Some(s.actors[a].at.made) else None
    case StopLoser(a) => Some(s.actors[a].at.loser)
    case UnrefStep(a) => if s.backends[s.actors[a].at.on].Unused() then Some(s.actors[a].at.on) else None
    case _ => None
  }

  predicate Runs(s: State, steps: seq<Step>)
    decreases |steps|
  {
    steps == [] || (Enabled(s, steps[0]) && Runs(Next(s, steps[0]), steps[1..]))
  }

  function After(s: State, steps: seq<Step>): State
    requires Runs(s, steps)
    decreases |steps|
  {
    if steps == [] then s else After(Next(s, steps[0]), steps[1..])
  }

  /** Nothing shared yet, and any number of callers about to begin. */
  predicate Start(s: State) {
    s.registry == map[] && s.backends == map[] && forall a :: a in s.actors ==> s.actors[a] == Actor(None, Idle)
  }

  // ------------------------------------------------------------ the invariant

  /** The callers that hold a reservation. */
  function Holders(s: State, b: Id): set<nat> {
    set a | a in s.actors && s.actors[a].reserved == Some(b)
  }

  predicate Registered(s: State, b: Id) {
    exists n :: n in s.registry && s.registry[n] == b
  }

  /** Made, but not (or never to be) shared: only one caller knows it. */
  predicate IsPrivateTo(s: State, a: nat, b: Id) {
    a in s.actors && ((s.actors[a].at.Made? && s.actors[a].at.made == b) || s.actors[a].at == Losing(b))
  }

  predicate IsSubscribing(s: State, a: nat, b: Id, w: Watcher) {
    a in s.actors && s.actors[a].at.Subscribing? && s.actors[a].at.on == b && s.actors[a].at.watcher == w
  }

  /** Some caller is bound to call `unref`. */
  predicate IsCommitted(s: State, a: nat, b: Id) {
    a in s.actors && (s.actors[a].at.Unreferencing? || s.actors[a].at.Unsubscribing?) && s.actors[a].at.on == b
  }

  ghost predicate BackendOk(s: State, b: Id)
    requires b in s.backends
  {
    var f := s.backends[b];
    && f.reservations == |Holders(s, b)|
    && f.invalid <= f.subscriptions
    && (f.stopped ==> f.Unused() && !Registered(s, b))
    && (Registered(s, b) && f.Unused() ==> exists a :: IsCommitted(s, a, b))
    && (forall w :: w in f.pending <==> exists a :: IsSubscribing(s, a, b, w))
  }

  ghost predicate ActorOk(s: State, a: nat)
    requires a in s.actors
  {
    var me := s.actors[a];
    && (me.reserved.Some? ==> me.reserved.value in s.backends)
    && (me.at.Looking? || me.at.Making? || me.at.Made? ==> me.reserved.None?)
    && (forall b :: IsPrivateTo(s, a, b) ==>
          && b in s.backends && s.backends[b] == FRESH && !Registered(s, b)
          && (forall c :: IsPrivateTo(s, c, b) ==> c == a))
    && (me.at.Subscribing? ==>
          && me.reserved == Some(me.at.on) && me.at.on in s.backends
          && (me.at.wasInvalid <==> me.at.watcher in s.backends[me.at.on].subscriptions)
          && (forall c :: IsSubscribing(s, c, me.at.on, me.at.watcher) ==> c == a))
    && (me.at.Unsubscribing? || me.at.Unreferencing? ==>
          me.at.on in s.backends && forall c :: !IsPrivateTo(s, c, me.at.on))
  }

  ghost predicate Ok(s: State) {
    && Injective(s.registry)
    && (forall n :: n in s.registry ==> s.registry[n] in s.backends)
    && (forall b :: b in s.backends ==> BackendOk(s, b))
    && (forall a :: a in s.actors ==> ActorOk(s, a))
  }
}
