/** The debouncer: one thread that batches triggers, and any number of threads that trigger it. */
module Debouncing {
  import opened Options

  // Milliseconds.
  const MIN_WAIT_TIME := 50.0
  const MAX_WAIT_TIME := 500.0

  /** Where the debouncer's own thread is. */
  datatype Place =
    | AtWait                      // in `Signal::wait`
    | Checking                    // about to look at the clock
    | Resetting                   // about to clear the signal before the short wait
    | Waiting(deadline: real)     // in `Signal::waitFor`
    | AboutToNotify               // about to take the lock
    | Notifying                   // running the callbacks, under the lock

  /** `oldest` is the time of the first trigger that no callback run has followed yet;
      `newest` is the time of the newest trigger; `ran` is when the callbacks last began to run. */
  datatype State = State(flag: bool, place: Place, last: real, now: real, oldest: Option<real>, newest: Option<real>,
                         ran: real)

  datatype Step =
    | Trigger
    | Wake
    | Check
    | Reset
    | EndWait
    | StartNotify
    | EndNotify
    | Tick(elapsed: real)

  /** Time passes only while the thread is blocked or the callbacks run; its other steps take no time. A
      trigger has to wait for the lock while the callbacks run. */
  predicate Enabled(s: State, e: Step) {
    match e
    case Trigger => !s.place.Notifying?
    case Wake => s.place.AtWait? && s.flag
    case Check => s.place.Checking?
    case Reset => s.place.Resetting?
    case EndWait => s.place.Waiting? && (s.flag || s.now >= s.place.deadline)
    case StartNotify => s.place.AboutToNotify?
    case EndNotify => s.place.Notifying?
    case Tick(elapsed) =>
      elapsed > 0.0 &&
      match s.place {
        case AtWait => !s.flag
        case Waiting(deadline) => !s.flag && s.now + elapsed <= deadline
        case Notifying => true
        case _ => false
      }
  }

  /** The steps of the debouncer's own thread. */
  predicate IsThreadStep(e: Step) {
    !e.Trigger? && !e.Tick?
  }

  function Next(s: State, e: Step): State
    requires Enabled(s, e)
  {
    match e
    case Trigger =>
      s.(flag := true, oldest := if s.oldest.None? then Some(s.now) else s.oldest, newest := Some(s.now))
    case Wake => s.(place := Checking)
    case Check =>
      if s.now - s.last > MAX_WAIT_TIME then s.(last := s.now, place := AboutToNotify)
      else s.(place := Resetting)
    case Reset => s.(flag := false, place := Waiting(s.now + MIN_WAIT_TIME))
    case EndWait => if s.flag then s.(place := AtWait) else s.(place := AboutToNotify)
    case StartNotify => s.(last := s.now, place := Notifying, oldest := None, ran := s.now)
    case EndNotify => s.(flag := false, place := AtWait)
    case Tick(elapsed) => s.(now := s.now + elapsed)
  }

  predicate Runs(s: State, steps: seq<Step>)
    decreases |steps|
  {
    steps == [] || (Enabled(s, steps[0]) && Runs(Next(s, steps[0]), steps[1..]))
  }

  function After(s: State, steps: seq<Step>): State
    requires Runs(s, steps)
    decreases |steps|
  {
    if steps == [] then s else After(Next(s, steps[0]), steps[1..])
  }

  predicate Start(s: State) {
    !s.flag && s.place == AtWait && s.last == s.ran && s.last <= s.now && s.oldest == None && s.newest == None
  }

  // ------------------------------------------------------------ the invariant

  predicate Ok(s: State) {
    && s.ran <= s.last <= s.now
    && (s.place.AtWait? && !s.flag ==> s.oldest == None)
    && (s.place.Notifying? ==> s.oldest == None)
    && (!s.place.AboutToNotify? ==> s.last == s.ran)
    && (s.oldest.Some? ==> s.oldest.value <= s.now <= s.oldest.value + MAX_WAIT_TIME + MIN_WAIT_TIME)
    && (s.oldest.Some? ==> s.ran <= s.oldest.value)
    && (s.place.Resetting? ==> s.now <= s.last + MAX_WAIT_TIME)
    && (s.place.Waiting? ==> && s.now <= s.place.deadline <= s.last + MAX_WAIT_TIME + MIN_WAIT_TIME
                             && s.last + MIN_WAIT_TIME <= s.place.deadline)
    && (s.place.AboutToNotify? ==> s.ran + MIN_WAIT_TIME <= s.now)
    && (s.place.Waiting? && !s.flag && s.newest.Some? ==> s.newest.value + MIN_WAIT_TIME <= s.place.deadline)
    && (s.newest.Some? ==> s.newest.value <= s.now)
  }

  lemma Kept(s: State, e: Step)
    requires Ok(s) && Enabled(s, e)
    ensures Ok(Next(s, e))
  {}

  lemma {:induction false} Always(s: State, steps: seq<Step>)
    requires Ok(s) && Runs(s, steps)
    ensures Ok(After(s, steps))
    decreases |steps|
  {
    if steps != [] {
      Kept(s, steps[0]);
      Always(Next(s, steps[0]), steps[1..]);
    }
  }

  // ------------------------------------------------------------ latency

  /** The time at which the callbacks first begin to run, if they do. */
  function FirstRun(s: State, steps: seq<Step>): Option<real>
    requires Runs(s, steps)
    decreases |steps|
  {
    if steps == [] then None
    else if steps[0].StartNotify? then Some(s.now)
    else FirstRun(Next(s, steps[0]), steps[1..])
  }

  lemma {:induction false} Unserved(s: State, steps: seq<Step>, t: real)
    requires Ok(s) && Runs(s, steps) && s.oldest.Some? && s.oldest.value <= t
    ensures FirstRun(s, steps).None? ==> After(s, steps).oldest == s.oldest
    ensures FirstRun(s, steps).Some? ==> FirstRun(s, steps).value <= t + MAX_WAIT_TIME + MIN_WAIT_TIME
    decreases |steps|
  {
    if steps != [] && !steps[0].StartNotify? {
      Kept(s, steps[0]);
      Unserved(Next(s, steps[0]), steps[1..], t);
    }
  }

  /** No trigger is lost: after a trigger, the callbacks begin to run within MAX_WAIT_TIME + MIN_WAIT_TIME,
      whatever else happens; time cannot get past that bound without it. */
  lemma ServedInTime(s: State, before: seq<Step>, after: seq<Step>)
    requires Start(s) && Runs(s, before) && Enabled(After(s, before), Trigger)
    requires Runs(Next(After(s, before), Trigger), after)
    ensures var t, first := After(s, before).now, FirstRun(Next(After(s, before), Trigger), after);
            && (first.Some? ==> first.value <= t + MAX_WAIT_TIME + MIN_WAIT_TIME)
            && (After(Next(After(s, before), Trigger), after).now > t + MAX_WAIT_TIME + MIN_WAIT_TIME ==> first.Some?)
  {
    Always(s, before);
    var at := After(s, before);
    Kept(at, Trigger);
    Unserved(Next(at, Trigger), after, at.now);
    Always(Next(at, Trigger), after);
  }

  /** Woken more than MAX_WAIT_TIME after the last run: time stands still until the callbacks run. */
  predicate Urgent(s: State, t: real) {
    && s.now == t
    && match s.place {
         case AtWait => s.flag && t - s.last > MAX_WAIT_TIME
         case Checking => t - s.last > MAX_WAIT_TIME
         case AboutToNotify => true
         case _ => false
       }
  }

  lemma {:induction false} UrgentUntilRun(s: State, steps: seq<Step>, t: real)
    requires Urgent(s, t) && Runs(s, steps)
    ensures FirstRun(s, steps).Some? ==> FirstRun(s, steps).value == t
    ensures FirstRun(s, steps).None? ==> Urgent(After(s, steps), t)
    decreases |steps|
  {
    if steps != [] && !steps[0].StartNotify? {
      UrgentUntilRun(Next(s, steps[0]), steps[1..], t);
    }
  }

  /** A trigger that finds the thread asleep more than MAX_WAIT_TIME after the last run is served at once:
      in every run after it the callbacks begin at the time of the trigger, and until then that time is
      still now. */
  lemma ServedAtOnce(s: State, before: seq<Step>, after: seq<Step>)
    requires Start(s) && Runs(s, before)
    requires var at := After(s, before); at.place.AtWait? && !at.flag && at.now - at.last > MAX_WAIT_TIME
    requires Runs(Next(After(s, before), Trigger), after)
    ensures var at, first := After(s, before), FirstRun(Next(After(s, before), Trigger), after);
            if first.Some? then first.value == at.now
            else After(Next(at, Trigger), after).now == at.now
  {
    var at := After(s, before);
    UrgentUntilRun(Next(at, Trigger), after, at.now);
  }

  /** Callback runs begin at least MIN_WAIT_TIME apart. */
  lemma RunsApart(s: State, steps: seq<Step>)
    requires Start(s) && Runs(s, steps) && Enabled(After(s, steps), StartNotify)
    ensures After(s, steps).ran + MIN_WAIT_TIME <= After(s, steps).now
  {
    Always(s, steps);
  }

  // ------------------------------------------------------------ batching

  /** It has been quiet, or triggers have been waiting for long enough: the newest trigger is at least
      MIN_WAIT_TIME old, or the last run more than MAX_WAIT_TIME. */
  predicate MayRun(s: State) {
    s.now - s.ran > MAX_WAIT_TIME || (s.newest.Some? ==> s.newest.value + MIN_WAIT_TIME <= s.now)
  }

  lemma {:induction false} AfterSplit(s: State, steps: seq<Step>, e: Step)
    requires Runs(s, steps + [e])
    ensures Runs(s, steps) && Enabled(After(s, steps), e) && After(s, steps + [e]) == Next(After(s, steps), e)
    decreases |steps|
  {
    var all := steps + [e];
    if steps != [] {
      assert all[1..] == steps[1..] + [e];
      AfterSplit(Next(s, steps[0]), steps[1..], e);
    }
  }

  /** Triggers are batched: whenever the callbacks are about to run, the thread has decided so in a state in
      which they may, at this very time, and nothing has happened since but triggers.  They still may
      unless some trigger has and the last run is not long ago. */
  lemma {:induction false} Batched(s: State, steps: seq<Step>) returns (k: nat)
    requires Start(s) && Runs(s, steps) && Enabled(After(s, steps), StartNotify)
    ensures k < |steps| && Runs(s, steps[..k]) && (forall i :: k < i < |steps| ==> steps[i] == Trigger)
    ensures var at := After(s, steps[..k]); MayRun(at) && at.now == After(s, steps).now
    ensures IsThreadStep(steps[k])
    ensures var end := After(s, steps);
            MayRun(end) <==> k == |steps| - 1 || end.now - end.ran > MAX_WAIT_TIME
    decreases |steps|
  {
    if steps == [] {
      assert false;
    } else {
      var n := |steps| - 1;
      var init, e := steps[..n], steps[n];
      assert steps == init + [e];
      AfterSplit(s, init, e);
      Always(s, init);
      if e.Trigger? {
        k := Batched(s, init);
        assert steps[..k] == init[..k];
      } else {
        k := n;
      }
    }
  }

  /** A trigger that comes between the decision and the run is not waited for. */
  lemma LateTrigger()
    ensures var s := State(false, AtWait, 0.0, 0.0, None, None, 0.0);
            var steps := [Trigger, Wake, Check, Reset, Tick(MIN_WAIT_TIME), EndWait, Trigger];
            Start(s) && Runs(s, steps) && Enabled(After(s, steps), StartNotify) && !MayRun(After(s, steps))
  {
    var s := State(false, AtWait, 0.0, 0.0, None, None, 0.0);
    var steps := [Trigger, Wake, Check, Reset, Tick(MIN_WAIT_TIME), EndWait, Trigger];
    var woken := Next(Next(s, Trigger), Wake);
    var waiting := Next(Next(woken, Check), Reset);
    var waited := Next(waiting, Tick(MIN_WAIT_TIME));
    var decided := Next(waited, EndWait);
    var late := Next(decided, Trigger);
    assert steps[1..][1..] == steps[2..] && steps[2..][1..] == steps[3..] && steps[3..][1..] == steps[4..];
    assert steps[4..][1..] == steps[5..] && steps[5..][1..] == steps[6..] && steps[6..][1..] == [];
    assert Runs(decided, steps[6..]) && After(decided, steps[6..]) == late;
    assert Runs(waited, steps[5..]) && After(waited, steps[5..]) == late;
    assert Runs(waiting, steps[4..]) && After(waiting, steps[4..]) == late;
    assert Runs(woken, steps[2..]) && After(woken, steps[2..]) == late;
  }

  /** The thread decides to run the callbacks exactly where they may run: at the clock if that alone allows
      it, and otherwise at the end of an undisturbed wait. */
  lemma DecidesRight(s: State, steps: seq<Step>, e: Step)
    requires Start(s) && Runs(s, steps) && Enabled(After(s, steps), e) && (e.Check? || e.EndWait?)
    ensures var at := After(s, steps);
            && (Next(at, e).place.AboutToNotify? ==> MayRun(at))
            && (e.Check? && at.now - at.ran > MAX_WAIT_TIME ==> Next(at, e).place.AboutToNotify?)
            && (e.EndWait? && !at.flag ==> Next(at, e).place.AboutToNotify?)
  {
    Always(s, steps);
  }

  // ------------------------------------------------------------ progress

  /** How many steps the thread can still take before it blocks. */
  function Pace(s: State): nat {
    match s.place
    case AtWait => if s.flag then 5 else 0
    case Checking => 4
    case Resetting => 3
    case Waiting(deadline) => if s.flag then 6 else if s.now >= deadline then 3 else 0
    case AboutToNotify => 2
    case Notifying => 1
  }

  /** The thread never spins: each of its steps brings it nearer to blocking. While it can step it has a
      step to take, and once it cannot, time can pass. */
  lemma ThreadProgress(s: State, e: Step) returns (next: Step)
    requires Ok(s)
    ensures Enabled(s, e) && IsThreadStep(e) ==> Pace(Next(s, e)) < Pace(s)
    ensures Enabled(s, next) && (if Pace(s) > 0 then IsThreadStep(next) else next.Tick?)
    ensures next.Tick? ==> Next(s, next).now > s.now && Next(s, next) == s.(now := Next(s, next).now)
    ensures s.place.Notifying? ==> forall elapsed :: elapsed > 0.0 ==> Enabled(s, Tick(elapsed))
  {
    match s.place
    case AtWait => next := if s.flag then Wake else Tick(1.0);
    case Checking => next := Check;
    case Resetting => next := Reset;
    case Waiting(deadline) => next := if s.flag || s.now >= deadline then EndWait else Tick(deadline - s.now);
    case AboutToNotify => next := StartNotify;
    case Notifying => next := EndNotify;
  }

  // ------------------------------------------------------------ the objects

  class Signal {
    var flag: bool
    var waiting: bool

    constructor ()
      ensures !flag && !waiting
    {
      flag, waiting := false, false;
    }

    /** One look at the flag by a waiting thread. */
    method TryWait() returns (done: bool)
      modifies this`waiting
      ensures done == flag && waiting == (old(waiting) || !flag)
    {
      if !flag {
        waiting := true;
        return false;
      }
      return true;
    }

    method Notify()
      modifies this`flag
      ensures flag
    {
      flag := true;
    }

    method Reset()
      modifies this
      ensures !flag && !waiting
    {
      flag := false;
      waiting := false;
    }
  }

  class Debounce {
    const signal: Signal
    var lastTime: real
    var callbacks: map<nat, nat>
    /** The callbacks run so far. */
    var calls: seq<nat>

    /** The state's shared part is what the object holds. */
    predicate Shows(s: State)
      reads this, signal
    {
      s.flag == signal.flag && s.last == lastTime
    }

    constructor (now: real)
      requires now >= 0.0
      ensures fresh(signal) && calls == [] && callbacks == map[]
      ensures Start(State(false, AtWait, 0.0, now, None, None, 0.0)) &&
              Shows(State(false, AtWait, 0.0, now, None, None, 0.0))
    {
      signal := new Signal();
      lastTime, callbacks, calls := 0.0, map[], [];
    }

    method Add(key: nat, callback: nat)
      modifies this`callbacks
      ensures callbacks == if key in old(callbacks) then old(callbacks) else old(callbacks)[key := callback]
    {
      if key !in callbacks {
        callbacks := callbacks[key := callback];
      }
    }

    method Remove(key: nat)
      modifies this`callbacks
      ensures callbacks == old(callbacks) - {key}
    {
      callbacks := callbacks - {key};
    }

    method DoTrigger(ghost s: State) returns (ghost t: State)
      requires Shows(s) && Enabled(s, Trigger)
      modifies signal
      ensures t == Next(s, Trigger) && Shows(t)
    {
      signal.Notify();
      t := Next(s, Trigger);
    }

    /** `notifyIfReady`, up to what it decides. */
    method DoCheck(time: real, ghost s: State) returns (notifies: bool, ghost t: State)
      requires Shows(s) && Enabled(s, Check) && time == s.now
      modifies this`lastTime
      ensures t == Next(s, Check) && Shows(t) && notifies == t.place.AboutToNotify?
    {
      t := Next(s, Check);
      if time - lastTime > MAX_WAIT_TIME {
        lastTime := time;
        return true, t;
      }
      return false, t;
    }

    method DoReset(ghost s: State) returns (ghost t: State)
      requires Shows(s) && Enabled(s, Reset)
      modifies signal
      ensures t == Next(s, Reset) && Shows(t)
    {
      signal.Reset();
      t := Next(s, Reset);
    }

    /** Every registered callback runs once. */
    method RunCallbacks()
      modifies this`calls
      ensures old(calls) <= calls && |calls| == |old(calls)| + |callbacks|
      ensures forall key :: key in callbacks ==> callbacks[key] in calls[|old(calls)|..]
    {
      var todo := callbacks.Keys;
      ghost var ran: set<nat>, before := {}, calls;
      while todo != {}
        invariant ran !! todo && ran + todo == callbacks.Keys
        invariant before <= calls && |calls| == |before| + |ran|
        invariant forall key :: key in ran ==> callbacks[key] in calls[|before|..]
        decreases todo
      {
        var key :| key in todo;
        ghost var earlier := calls[|before|..];
        calls := calls + [callbacks[key]];
        assert calls[|before|..] == earlier + [callbacks[key]];
        ran, todo := ran + {key}, todo - {key};
      }
      assert ran == callbacks.Keys;
    }

    /** `notify`, under the lock. */
    method DoNotify(time: real, ghost s: State) returns (ghost t: State)
      requires Shows(s) && Enabled(s, StartNotify) && time == s.now
      modifies this`lastTime, this`calls, signal
      ensures t == Next(Next(s, StartNotify), EndNotify) && Shows(t)
      ensures old(calls) <= calls && |calls| == |old(calls)| + |callbacks|
      ensures forall key :: key in callbacks ==> callbacks[key] in calls[|old(calls)|..]
    {
      lastTime := time;
      RunCallbacks();
      signal.Reset();
      t := Next(Next(s, StartNotify), EndNotify);
    }
  }
}
