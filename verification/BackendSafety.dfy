/** What holds in every interleaving of the callers of shared backends. */
module BackendSafety {
  import opened Bytes
  import opened Options
  import opened Backends
  import opened BackendProtocol
  import opened BackendInvariant

  /** `stop` is never called on a backend that a caller has reserved, that a watcher is subscribed to, or
      that a subscription is pending on. */
  lemma StopIsSafe(s: State, steps: seq<Step>, e: Step)
    requires Start(s) && Runs(s, steps) && Enabled(After(s, steps), e)
    ensures var now := After(s, steps);
            Stops(now, e).Some? ==>
              var b := Stops(now, e).value;
              && Holders(now, b) == {} && b in now.backends && now.backends[b].Unused()
              && (forall a, w :: !IsSubscribing(now, a, b, w))
  {
    Always(s, steps);
    var now := After(s, steps);
    if Stops(now, e).Some? {
      var b := Stops(now, e).value;
      assert ActorOk(now, e.a);
      assert IsPrivateTo(now, e.a, b) || now.backends[b].Unused();
      UnusedHasNoHolder(now, b);
    }
  }

  lemma UnusedHasNoHolder(s: State, b: Id)
    requires b in s.backends && BackendOk(s, b) && s.backends[b].Unused()
    ensures Holders(s, b) == {} && forall a, w :: !IsSubscribing(s, a, b, w)
  {
    forall a, w
      ensures !IsSubscribing(s, a, b, w)
    {
      assert w !in s.backends[b].pending;
    }
  }

  /** A stopped backend stays out of use for good: not registered, not reserved, nothing subscribed. */
  lemma StoppedIsForgotten(s: State, steps: seq<Step>, b: Id)
    requires Start(s) && Runs(s, steps) && b in After(s, steps).backends && After(s, steps).backends[b].stopped
    ensures var now := After(s, steps);
            Holders(now, b) == {} && now.backends[b].Unused() && !Registered(now, b)
  {
    Always(s, steps);
    UnusedHasNoHolder(After(s, steps), b);
  }

  /** No orphan: a registered backend that nobody uses has a caller on its way to `unref`. */
  lemma NoOrphan(s: State, steps: seq<Step>, b: Id)
    requires Start(s) && Runs(s, steps) && b in After(s, steps).backends
    requires Registered(After(s, steps), b) && After(s, steps).backends[b].Unused()
    ensures exists a :: IsCommitted(After(s, steps), a, b)
  {
    Always(s, steps);
    assert BackendOk(After(s, steps), b);
  }

  /** Once all callers are through, every backend still registered has a watcher subscribed. */
  lemma QuietRegistry(s: State, steps: seq<Step>, name: Text)
    requires Start(s) && Runs(s, steps) && name in After(s, steps).registry
    requires forall a :: a in After(s, steps).actors ==> After(s, steps).actors[a] == Actor(None, Idle)
    ensures var now := After(s, steps);
            now.registry[name] in now.backends && now.backends[now.registry[name]].subscriptions != {}
  {
    Always(s, steps);
    var now := After(s, steps);
    var b := now.registry[name];
    assert BackendOk(now, b);
    assert Holders(now, b) == {};
    assert forall a, w :: !IsSubscribing(now, a, b, w);
    assert now.backends[b].pending == {};
    assert Registered(now, b);
  }

  /** At most one caller subscribes a watcher on a backend at a time, and invalid subscriptions are subscriptions. */
  lemma OneSubscriber(s: State, steps: seq<Step>, b: Id, w: Watcher, a: nat, c: nat)
    requires Start(s) && Runs(s, steps) && b in After(s, steps).backends
    ensures IsSubscribing(After(s, steps), a, b, w) && IsSubscribing(After(s, steps), c, b, w) ==> a == c
    ensures After(s, steps).backends[b].invalid <= After(s, steps).backends[b].subscriptions
    ensures w in After(s, steps).backends[b].pending <==> exists d :: IsSubscribing(After(s, steps), d, b, w)
  {
    Always(s, steps);
    var now := After(s, steps);
    assert BackendOk(now, b);
    if IsSubscribing(now, a, b, w) {
      Pending(now, b, a, w);
    }
  }

  /** Some caller unsubscribes the watcher from the backend, and nothing prevents it. */
  predicate Unwatches(e: Step, b: Id, w: Watcher) {
    e.UnwatchStep? && e.b == b && e.w == w && !e.keeps && !e.throws
  }

  /** A subscription in progress knows whether its watcher was subscribed before it. */
  lemma KnowsSubscribed(s: State, a: nat, b: Id, w: Watcher)
    requires Ok(s) && IsSubscribing(s, a, b, w)
    ensures b in s.backends && (s.actors[a].at.wasInvalid <==> w in s.backends[b].subscriptions)
  {
    hide BackendOk;
    assert ActorOk(s, a);
  }

  lemma SubscribedKept(s: State, e: Step, b: Id, w: Watcher)
    requires Ok(s) && Enabled(s, e) && b in s.backends && w in s.backends[b].subscriptions && !Unwatches(e, b, w)
    ensures b in Next(s, e).backends && w in Next(s, e).backends[b].subscriptions
  {
    hide Ok, Removed;
    if e.EndWatchStep? && IsSubscribing(s, e.a, b, w) {
      KnowsSubscribed(s, e.a, b, w);
    }
  }

  /** Once subscribed, a watcher stays subscribed until somebody unsubscribes it, and its backend keeps
      running: neither failing callers nor errors nor anyone's `unref` take it away. */
  lemma {:induction false} StaysSubscribed(s: State, steps: seq<Step>, b: Id, w: Watcher)
    requires Ok(s) && Runs(s, steps) && b in s.backends && w in s.backends[b].subscriptions
    requires forall i :: 0 <= i < |steps| ==> !Unwatches(steps[i], b, w)
    ensures var now := After(s, steps);
            b in now.backends && w in now.backends[b].subscriptions && !now.backends[b].stopped
    decreases |steps|
  {
    hide Unwatches, Ok, Enabled, Next;
    if steps == [] {
      SubscribedRuns(s, b, w);
    } else {
      Kept(s, steps[0]);
      SubscribedKept(s, steps[0], b, w);
      StaysSubscribed(Next(s, steps[0]), steps[1..], b, w);
    }
  }

  lemma SubscribedRuns(s: State, b: Id, w: Watcher)
    requires Ok(s) && b in s.backends && w in s.backends[b].subscriptions
    ensures !s.backends[b].stopped
  {
    assert BackendOk(s, b);
  }

  // ------------------------------------------------------------ renewed subscriptions

  /** What the first section of `watch` comes to: the watcher is subscribed if it was not, or again if its
      subscription is invalid or a renewal is asked for, which a call that is not cancelled answers for. */
  lemma WatchBegins(s: State, a: nat, w: Watcher, cancelled: bool, throws: bool)
    requires Enabled(s, WatchStep(a, w, cancelled, throws))
    ensures var t, b := Next(s, WatchStep(a, w, cancelled, throws)), s.actors[a].reserved.value;
            var known, again := w in s.backends[b].subscriptions, w in s.backends[b].invalid || w in s.needs;
            && t.actors[a].at == (if cancelled || (known && !again) then Idle
                                  else if !throws then Subscribing(b, w, known)
                                  else if known then Idle else Unreferencing(b))
            && t.needs == (if cancelled then s.needs else s.needs - {w})
            && t.backends[b].subscriptions == s.backends[b].subscriptions
            && (throws && !cancelled && known && again ==> w in t.backends[b].invalid)
  {}

  /** The last section of `watch`: one that does not fail leaves the watcher subscribed, and valid unless it
      was invalidated in between; one that fails has it subscribed only if it was before, and then invalid. */
  lemma WatchEnds(s: State, a: nat, fails: bool)
    requires Ok(s) && Enabled(s, EndWatchStep(a, fails))
    ensures var b, w, t := s.actors[a].at.on, s.actors[a].at.watcher, Next(s, EndWatchStep(a, fails));
            && b in t.backends
            && (w in t.backends[b].subscriptions <==> !fails || w in s.backends[b].subscriptions)
            && (w in t.backends[b].invalid <==>
                w in s.backends[b].invalid || (fails && w in s.backends[b].subscriptions))
            && t.actors[a].at == (if fails && w !in s.backends[b].subscriptions then Unreferencing(b) else Idle)
  {
    KnowsSubscribed(s, a, s.actors[a].at.on, s.actors[a].at.watcher);
  }

  /** What asks for a renewal: `invalidate`, of a subscribed watcher only, and the watcher's own flag. */
  lemma AsksAgain(s: State, b: Id, w: Watcher)
    requires b in s.backends
    ensures w in Next(s, InvalidateStep(b, w)).backends[b].invalid <==>
            w in s.backends[b].invalid || w in s.backends[b].subscriptions
    ensures w in Next(s, NeedStep(w)).needs
  {}

  /** A subscribed watcher whose subscription has to be renewed: it is asked for, the subscription is
      invalid, or somebody is at it. */
  ghost predicate IsDue(s: State, b: Id, w: Watcher) {
    && b in s.backends && w in s.backends[b].subscriptions
    && (w in s.needs || w in s.backends[b].invalid || exists a :: IsSubscribing(s, a, b, w))
  }

  /** Somebody completes the renewal. */
  predicate Renews(s: State, e: Step, b: Id, w: Watcher) {
    e.EndWatchStep? && !e.fails && IsSubscribing(s, e.a, b, w)
  }

  /** A `watch` of the same watcher on another backend answers for what was asked: the flag is the watcher's. */
  predicate TakesOver(s: State, e: Step, b: Id, w: Watcher) {
    e.WatchStep? && e.w == w && !e.cancelled && e.a in s.actors && s.actors[e.a].reserved != Some(b)
  }

  lemma DueKept(s: State, e: Step, b: Id, w: Watcher)
    requires Ok(s) && Enabled(s, e) && IsDue(s, b, w)
    requires !Unwatches(e, b, w) && !Renews(s, e, b, w) && !TakesOver(s, e, b, w)
    ensures IsDue(Next(s, e), b, w)
  {
    hide Ok;
    SubscribedKept(s, e, b, w);
    if a :| IsSubscribing(s, a, b, w) {
      SubscriberStays(s, e, a, b, w);
    } else if e.WatchStep? && e.w == w && !e.cancelled {
      WatchBegins(s, e.a, w, false, e.throws);
      assert !e.throws ==> IsSubscribing(Next(s, e), e.a, b, w);
    }
  }

  /** A subscription in progress goes on until its caller ends it. */
  lemma SubscriberStays(s: State, e: Step, a: nat, b: Id, w: Watcher)
    requires Ok(s) && Enabled(s, e) && IsSubscribing(s, a, b, w) && w in s.backends[b].subscriptions
    requires !Renews(s, e, b, w)
    ensures IsSubscribing(Next(s, e), a, b, w) || (b in Next(s, e).backends && w in Next(s, e).backends[b].invalid)
  {
    hide Ok;
    if e.EndWatchStep? && e.a == a {
      WatchEnds(s, a, e.fails);
    }
  }

  /** No request for a renewal is lost: however callers interleave, fail or are cancelled, it stays due until
      somebody completes it, the watcher is unsubscribed, or a `watch` on another backend takes it over. */
  lemma {:induction false} StaysDue(s: State, steps: seq<Step>, b: Id, w: Watcher)
    requires Ok(s) && Runs(s, steps) && IsDue(s, b, w)
    requires forall i :: 0 <= i < |steps| && Runs(s, steps[..i]) ==>
               var at := After(s, steps[..i]);
               !Unwatches(steps[i], b, w) && !Renews(at, steps[i], b, w) && !TakesOver(at, steps[i], b, w)
    ensures IsDue(After(s, steps), b, w)
    decreases |steps|
  {
    hide Unwatches, Renews, TakesOver, Ok, Enabled, Next, IsDue;
    if steps != [] {
      assert steps[..0] == [];
      Kept(s, steps[0]);
      DueKept(s, steps[0], b, w);
      var t, rest := Next(s, steps[0]), steps[1..];
      forall i | 0 <= i < |rest| && Runs(t, rest[..i])
        ensures var at := After(t, rest[..i]);
                !Unwatches(rest[i], b, w) && !Renews(at, rest[i], b, w) && !TakesOver(at, rest[i], b, w)
      {
        assert steps[..i + 1][0] == steps[0] && steps[..i + 1][1..] == rest[..i];
      }
      StaysDue(t, rest, b, w);
    }
  }

  // ------------------------------------------------------------ sharing

  /** Whoever gets a backend by name gets the one registered under it, and reserves it: at once if there is
      one, after making one otherwise, even if somebody else has registered another meanwhile. */
  lemma GetsRegistered(s: State, e: Step)
    requires Enabled(s, e) && (e.Lookup? || (e.EmplaceMade? && !e.throws))
    ensures var t, name := Next(s, e), if e.Lookup? then e.name else s.actors[e.a].at.name;
            var shared := e.EmplaceMade? || name in s.registry;
            && (shared ==> name in t.registry && t.actors[e.a].reserved == Some(t.registry[name]))
            && (!shared ==> t.actors[e.a].at == Making(name) && t.registry == s.registry)
            && (name in s.registry ==> t.registry == s.registry)
            && (e.EmplaceMade? && name !in s.registry ==>
                  t.registry == s.registry[name := s.actors[e.a].at.made])
  {}

  /** Making a backend: an unknown name means the default one, which is looked for next; one that does not
      start is not kept; any other is new and unused. */
  lemma FallsBack(s: State, a: nat, b: Id, runFails: bool)
    requires Enabled(s, Make(a, b, runFails))
    ensures var t, name := Next(s, Make(a, b, runFails)), s.actors[a].at.name;
            && (name != [100, 101, 102, 97, 117, 108, 116] && name != [105, 110, 111, 116, 105, 102, 121] ==>
                  t.actors[a].at == Looking([100, 101, 102, 97, 117, 108, 116]) && t.backends == s.backends)
            && (t.actors[a].at.Made? ==> t.actors[a].at == Made(name, b) && t.backends[b].Unused())
            && (t.actors[a].at.Idle? ==> runFails && t.backends == s.backends)
            && t.registry == s.registry
  {}

  /** The reservation goes, and the last to give one back goes on to `unref`. */
  lemma ReleaseEnds(s: State, a: nat)
    requires Ok(s) && Enabled(s, ReleaseStep(a))
    ensures var b, t := s.actors[a].reserved.value, Next(s, ReleaseStep(a));
            && Holders(t, b) == Holders(s, b) - {a}
            && t.actors[a] == Actor(None, if Holders(t, b) == {} then Unreferencing(b) else Idle)
            && t.backends[b] == s.backends[b].(reservations := |Holders(t, b)|)
  {
    var b, t := s.actors[a].reserved.value, Next(s, ReleaseStep(a));
    assert BackendOk(s, b);
    assert a in Holders(s, b) && Holders(t, b) == Holders(s, b) - {a};
    assert |Holders(t, b)| == |Holders(s, b)| - 1;
    if |Holders(t, b)| == 0 {
      assert Holders(t, b) == {};
    }
  }

  /** `unref` stops and forgets a backend that is not used, and does nothing otherwise. */
  lemma UnrefEnds(s: State, a: nat)
    requires Ok(s) && Enabled(s, UnrefStep(a))
    ensures var b, t := s.actors[a].at.on, Next(s, UnrefStep(a));
            && t.actors[a].at == Idle
            && t.backends == s.backends[b := s.backends[b].(stopped := t.backends[b].stopped)]
            && (t.backends[b].stopped <==> s.backends[b].Unused())
            && (Registered(t, b) <==> Registered(s, b) && !s.backends[b].Unused())
            && (forall n :: n in t.registry <==> n in s.registry && (s.registry[n] == b ==> Registered(t, b)))
            && (forall n :: n in t.registry ==> t.registry[n] == s.registry[n])
  {
    var b, t := s.actors[a].at.on, Next(s, UnrefStep(a));
    assert BackendOk(s, b);
    assert s.backends[b].Unused() ==> !Registered(t, b);
    if n :| n in s.registry && s.registry[n] == b && !s.backends[b].Unused() {
      assert n in t.registry && t.registry[n] == b;
    }
  }

  /** What `Stops` names is what gets stopped, and nothing else ever is. */
  lemma StopsShown(s: State, e: Step, b: Id)
    requires Ok(s) && Enabled(s, e) && b in s.backends
    ensures b in Next(s, e).backends
    ensures Next(s, e).backends[b].stopped <==> s.backends[b].stopped || Stops(s, e) == Some(b)
  {
    hide Ok, Removed;
    if !CallsBack(e) {
      assert e.a in s.actors;
    }
  }

  // ------------------------------------------------------------ every caller comes through

  /** A step of nobody's call: an invalidation, the watcher's flag, an error. */
  predicate CallsBack(e: Step) {
    e.InvalidateStep? || e.NeedStep? || e.ErrorStep?
  }

  /** How many steps a caller in the middle of a call has before it at most. */
  function Remaining(at: Activity): nat {
    match at
    case Idle => 0
    case Losing(_) => 1
    case Unreferencing(_) => 1
    case Unsubscribing(_, _) => 2
    case Subscribing(_, _, _) => 2
    case Made(_, _) => 2
    case Making(name) => if IsKnown(name) then 3 else 5
    case Looking(name) => if IsKnown(name) then 4 else 6
  }

  /** A caller in the middle of a call is never stuck, whatever the others do. */
  lemma NeverStuck(s: State, a: nat, free: Id) returns (e: Step)
    requires Ok(s) && a in s.actors && s.actors[a].at != Idle && free !in s.backends
    ensures !CallsBack(e) && e.a == a && Enabled(s, e)
  {
    assert ActorOk(s, a);
    match s.actors[a].at
    case Looking(name) =>
      e := Lookup(a, name);
    case Making(_) =>
      e := Make(a, free, false);
    case Made(_, b) =>
      assert IsPrivateTo(s, a, b);
      e := EmplaceMade(a, false);
    case Losing(b) =>
      assert IsPrivateTo(s, a, b);
      e := StopLoser(a);
    case Subscribing(_, _, _) =>
      e := EndWatchStep(a, false);
    case Unsubscribing(_, _) =>
      e := EndUnwatchStep(a);
    case Unreferencing(_) =>
      e := UnrefStep(a);
  }

  /** Each of its steps brings it nearer to the end of the call, at most six in all, and nobody else's takes
      it back. */
  lemma ComesThrough(s: State, e: Step, a: nat)
    requires Enabled(s, e) && a in s.actors && s.actors[a].at != Idle
    ensures a in Next(s, e).actors
    ensures if !CallsBack(e) && e.a == a then Remaining(Next(s, e).actors[a].at) < Remaining(s.actors[a].at) <= 6
            else Next(s, e).actors[a] == s.actors[a]
  {}

  // ------------------------------------------------------------ errors

  /** The backend cannot be found any more, and no caller has it to itself. */
  ghost predicate IsForgotten(s: State, b: Id) {
    b in s.backends && !Registered(s, b) && forall a :: !IsPrivateTo(s, a, b)
  }

  /** A backend that reports an error is taken out of the registry, it alone, and goes on as it is.  It is
      forgotten if and only if no caller has it to itself. */
  lemma ErrorForgets(s: State, b: Id)
    requires Ok(s) && b in s.backends
    ensures var t := Next(s, ErrorStep(b));
            && t == s.(registry := t.registry)
            && (forall n :: n in t.registry <==> n in s.registry && s.registry[n] != b)
            && (forall n :: n in t.registry ==> t.registry[n] == s.registry[n])
            && (IsForgotten(t, b) <==> forall a :: !IsPrivateTo(s, a, b))
  {
    forall a
      ensures IsPrivateTo(Next(s, ErrorStep(b)), a, b) <==> IsPrivateTo(s, a, b)
    {}
  }

  lemma ForgottenKept(s: State, e: Step, b: Id)
    requires Ok(s) && Enabled(s, e) && IsForgotten(s, b)
    ensures IsForgotten(Next(s, e), b) && Holders(Next(s, e), b) <= Holders(s, b)
  {
    hide Ok;
    var t := Next(s, e);
    forall a
      ensures !IsPrivateTo(t, a, b)
    {
      assert !IsPrivateTo(s, a, b);
    }
    if e.EmplaceMade? {
      assert !IsPrivateTo(s, e.a, b);
    }
    forall a | a in Holders(t, b)
      ensures a in Holders(s, b)
    {}
  }

  /** From then on nobody is handed it again. */
  lemma {:induction false} NeverHandedOut(s: State, steps: seq<Step>, b: Id)
    requires Ok(s) && Runs(s, steps) && IsForgotten(s, b)
    ensures IsForgotten(After(s, steps), b) && Holders(After(s, steps), b) <= Holders(s, b)
    decreases |steps|
  {
    hide Ok, Enabled, Next, IsForgotten, Holders;
    if steps != [] {
      Kept(s, steps[0]);
      ForgottenKept(s, steps[0], b);
      NeverHandedOut(Next(s, steps[0]), steps[1..], b);
    }
  }

  // ------------------------------------------------------------ nothing is left running

  /** Every backend that was made is registered, stopped, or still in the hands of a caller that is bound to
      register or stop it. */
  ghost predicate NoneLost(s: State) {
    forall b :: b in s.backends ==> Registered(s, b) || s.backends[b].stopped || exists a :: IsPrivateTo(s, a, b)
  }

  lemma NoneLostKept(s: State, e: Step)
    requires Ok(s) && Enabled(s, e) && NoneLost(s) && !e.ErrorStep?
    ensures NoneLost(Next(s, e))
  {
    hide Ok;
    var t := Next(s, e);
    forall b | b in t.backends
      ensures Registered(t, b) || t.backends[b].stopped || exists a :: IsPrivateTo(t, a, b)
    {
      if b in s.backends {
        if n :| n in s.registry && s.registry[n] == b {
          RegisteredNext(s, e, n, b);
        } else if a :| IsPrivateTo(s, a, b) && !s.backends[b].stopped {
          PrivateNext(s, e, a, b);
        }
      } else {
        assert IsPrivateTo(t, e.a, b);
      }
    }
  }

  lemma RegisteredNext(s: State, e: Step, n: Text, b: Id)
    requires Enabled(s, e) && n in s.registry && s.registry[n] == b && b in s.backends && !e.ErrorStep?
    ensures var t := Next(s, e); (n in t.registry && t.registry[n] == b) || t.backends[b].stopped
  {}

  lemma PrivateNext(s: State, e: Step, a: nat, b: Id)
    requires Enabled(s, e) && IsPrivateTo(s, a, b) && b in s.backends
    ensures var t := Next(s, e); IsPrivateTo(t, a, b) || Registered(t, b) || t.backends[b].stopped
  {
    var t := Next(s, e);
    if e.EmplaceMade? && e.a == a && !e.throws {
      var name := s.actors[a].at.name;
      assert name !in s.registry ==> name in t.registry && t.registry[name] == b;
      assert name in s.registry && s.registry[name] == b ==> name in t.registry && t.registry[name] == b;
    }
  }

  /** As long as no backend reports an error, no backend goes on running that nobody can find. */
  lemma {:induction false} NoneLostAlways(s: State, steps: seq<Step>)
    requires Ok(s) && NoneLost(s) && Runs(s, steps) && forall i :: 0 <= i < |steps| ==> !steps[i].ErrorStep?
    ensures NoneLost(After(s, steps))
    decreases |steps|
  {
    hide Ok, Enabled, Next, NoneLost;
    if steps != [] {
      Kept(s, steps[0]);
      NoneLostKept(s, steps[0]);
      NoneLostAlways(Next(s, steps[0]), steps[1..]);
    }
  }
}
