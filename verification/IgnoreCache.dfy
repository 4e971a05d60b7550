/** The watcher's ignore decision and the per-thread directory-state cache it goes through. */
module IgnoreCache {
  import opened Bytes
  import opened Options
  import opened Matching
  import opened PathComponents
  import opened GlobMeaning
  import opened Word64
  import opened Globs
  import opened GlobMatcher
  import opened Normalisation

  datatype Watcher = Watcher(
    id: nat,
    dir: Text,
    ignorePaths: set<Text>,
    globs: seq<Glob>,
    allGlobsUseBitmask: bool)

  ghost predicate ValidWatcher(w: Watcher) {
    && AllCompiled(w.globs)
    && (forall i :: 0 <= i < |w.globs| ==> w.globs[i].raw != [])
    && (w.allGlobsUseBitmask <==> forall i :: 0 <= i < |w.globs| ==> w.globs[i].useBitmask)
  }

  /** Some glob of the watcher matches the path or one of its ancestors. */
  ghost predicate SomeGlobIgnores(w: Watcher, policy: Text -> Sensitivity, relativePath: Text) {
    exists i :: 0 <= i < |w.globs| &&
                AcceptsPrefix(w.globs[i].raw, Steps(Env(w.dir, policy), !w.globs[i].useBitmask, relativePath))
  }

  ghost predicate WatcherIgnores(w: Watcher, policy: Text -> Sensitivity, path: Text) {
    || (exists ignored :: ignored in w.ignorePaths && IsPathOrDescendant(path, ignored))
    || (IsDescendant(path, w.dir) && |path| > |w.dir| + 1 && SomeGlobIgnores(w, policy, path[|w.dir| + 1..]))
  }

  /** An ignored path has only ignored descendants. */
  lemma IgnoreIsHereditary(w: Watcher, policy: Text -> Sensitivity, path: Text, below: Text)
    requires WatcherIgnores(w, policy, path) && IsDescendant(below, path)
    ensures WatcherIgnores(w, policy, below)
  {
    if ignored :| ignored in w.ignorePaths && IsPathOrDescendant(path, ignored) {
      DescendantTransitive(below, path, ignored);
    } else {
      var n := |w.dir| + 1;
      DescendantTransitive(below, path, w.dir);
      var rel, relBelow := path[n..], below[n..];
      assert relBelow[..|rel|] == rel && relBelow[|rel|] == SLASH;
      var i :| 0 <= i < |w.globs| &&
               AcceptsPrefix(w.globs[i].raw, Steps(Env(w.dir, policy), !w.globs[i].useBitmask, rel));
      AcceptsPrefixHereditary(Env(w.dir, policy), !w.globs[i].useBitmask, w.globs[i].raw, rel, relBelow);
    }
  }

  // ------------------------------------------------------------ construction

  /** The globs were compiled from these patterns, each once. */
  ghost predicate RawsAre(globs: seq<Glob>, raws: set<Text>) {
    && (forall i :: 0 <= i < |globs| ==> globs[i].raw in raws)
    && (forall r :: r in raws ==> exists i :: 0 <= i < |globs| && globs[i].raw == r)
    && (forall i, j :: 0 <= i < j < |globs| ==> globs[i].raw != globs[j].raw)
  }

  function CleanGlobs(ignoreGlobs: set<Text>): set<Text> {
    set raw | raw in ignoreGlobs && raw != [] :: Strip(raw)
  }

  method NormalizeGlobs(ignoreGlobs: set<Text>) returns (deduplicated: set<Text>)
    ensures deduplicated == CleanGlobs(ignoreGlobs)
  {
    deduplicated := {};
    var rest := ignoreGlobs;
    while rest != {}
      invariant rest <= ignoreGlobs
      invariant deduplicated == CleanGlobs(ignoreGlobs - rest)
      decreases rest
    {
      var raw :| raw in rest;
      rest := rest - {raw};
      assert ignoreGlobs - rest == (ignoreGlobs - rest - {raw}) + {raw};
      if raw != [] {
        var normalized := StripGlob(raw);
        deduplicated := deduplicated + {normalized};
      }
    }
    assert ignoreGlobs - rest == ignoreGlobs;
  }

  lemma RawsAdd(globs: seq<Glob>, raws: set<Text>, g: Glob)
    requires RawsAre(globs, raws) && g.raw !in raws
    ensures RawsAre(globs + [g], raws + {g.raw})
  {
    var more := globs + [g];
    assert more[|globs|].raw == g.raw;
    forall r | r in raws
      ensures exists i :: 0 <= i < |more| && more[i].raw == r
    {
      var i :| 0 <= i < |globs| && globs[i].raw == r;
      assert more[i].raw == r;
    }
  }

  ghost predicate AllCompiled(globs: seq<Glob>) {
    forall i :: 0 <= i < |globs| ==> Compiled(globs[i])
  }

  lemma CompiledAdd(globs: seq<Glob>, g: Glob)
    requires AllCompiled(globs) && Compiled(g)
    ensures AllCompiled(globs + [g])
  {}

  method CompileAll(patterns: set<Text>) returns (globs: seq<Glob>)
    ensures AllCompiled(globs) && RawsAre(globs, patterns)
  {
    globs := [];
    ghost var done: set<Text> := {};
    var todo := patterns;
    while todo != {}
      invariant done !! todo && done + todo == patterns
      invariant RawsAre(globs, done)
      invariant AllCompiled(globs)
      decreases todo
    {
      var raw :| raw in todo;
      var g := CompileGlob(raw);
      RawsAdd(globs, done, g);
      CompiledAdd(globs, g);
      globs := globs + [g];
      done, todo := done + {raw}, todo - {raw};
    }
  }

  method MakeWatcher(id: nat, dir: Text, ignorePaths: set<Text>, ignoreGlobs: set<Text>) returns (w: Watcher)
    ensures ValidWatcher(w) && w.id == id && w.dir == dir && w.ignorePaths == ignorePaths
    ensures RawsAre(w.globs, CleanGlobs(ignoreGlobs))
  {
    hide Compiled;
    var deduplicated := NormalizeGlobs(ignoreGlobs);
    forall raw | raw in ignoreGlobs && raw != [] { StripBackslashes(raw); }
    var globs := CompileAll(deduplicated);
    var allBitmask := true;
    for i := 0 to |globs|
      invariant allBitmask <==> forall j :: 0 <= j < i ==> globs[j].useBitmask
    {
      if !globs[i].useBitmask {
        allBitmask := false;
        break;
      }
    }
    w := Watcher(id, dir, ignorePaths, globs, allBitmask);
  }

  /** Automaton and table ask the filesystem the same for this path. */
  predicate SameQuestions(w: Watcher, policy: Text -> Sensitivity, rel: Text) {
    rel == [] || rel[0] != SLASH || (policy(w.dir) == Insensitive <==> policy(w.dir + [SLASH]) == Insensitive)
  }

  /** The watcher's globs decide what the clean patterns mean. */
  lemma CleanGlobsDecide(w: Watcher, ignoreGlobs: set<Text>, policy: Text -> Sensitivity, rel: Text)
    requires RawsAre(w.globs, CleanGlobs(ignoreGlobs)) && SameQuestions(w, policy, rel)
    ensures SomeGlobIgnores(w, policy, rel) <==>
            exists raw :: raw in CleanGlobs(ignoreGlobs) && AcceptsPrefix(raw, Steps(Env(w.dir, policy), false, rel))
  {
    hide AcceptsPrefix, Steps, CleanGlobs;
    SameSteps(Env(w.dir, policy), rel);
    if raw :| raw in CleanGlobs(ignoreGlobs) && AcceptsPrefix(raw, Steps(Env(w.dir, policy), false, rel)) {
      var i :| 0 <= i < |w.globs| && w.globs[i].raw == raw;
      assert AcceptsPrefix(w.globs[i].raw, Steps(Env(w.dir, policy), !w.globs[i].useBitmask, rel));
    }
  }

  /** Unless a backslash branch was taken, the watcher ignores by its globs exactly what some given
      non-empty pattern matches, or an ancestor of which it matches. */
  lemma GivenGlobsDecide(w: Watcher, ignoreGlobs: set<Text>, policy: Text -> Sensitivity, rel: Text)
    requires RawsAre(w.globs, CleanGlobs(ignoreGlobs)) && SameQuestions(w, policy, rel)
    requires forall raw :: raw in ignoreGlobs ==> StripsOnlySlash(raw)
    ensures SomeGlobIgnores(w, policy, rel) <==>
            exists raw :: raw in ignoreGlobs && raw != [] && AcceptsPrefix(raw, Steps(Env(w.dir, policy), false, rel))
  {
    hide AcceptsPrefix, SomeGlobIgnores, Strip, StripsOnlySlash;
    CleanGlobsDecide(w, ignoreGlobs, policy, rel);
    var steps := Steps(Env(w.dir, policy), false, rel);
    forall raw | raw in ignoreGlobs && raw != []
      ensures Strip(raw) in CleanGlobs(ignoreGlobs) && (AcceptsPrefix(Strip(raw), steps) <==> AcceptsPrefix(raw, steps))
    {
      StripMeaning(raw);
    }
  }

  // ------------------------------------------------------------ directory states

  const INLINE_GLOBS := 8
  const MAX_DIRS := 16384

  datatype DirGlobState = DirGlobState(
    ignored: bool,
    allDead: bool,
    inlineStates: seq<nat>,
    overflowStates: seq<nat>)
  {
    function Data(count: nat): seq<nat> {
      if count <= INLINE_GLOBS then inlineStates else overflowStates
    }

    function WithData(count: nat, states: seq<nat>): DirGlobState {
      if count <= INLINE_GLOBS then this.(inlineStates := states) else this.(overflowStates := states)
    }
  }

  function Zeros(n: nat): (zs: seq<nat>)
    ensures |zs| == n
  {
    seq(n, _ => 0)
  }

  function FreshState(count: nat): DirGlobState {
    DirGlobState(false, false, Zeros(INLINE_GLOBS), if count > INLINE_GLOBS then Zeros(count) else [])
  }

  /** Some non-empty glob accepts some leading run of the steps, the empty run included. */
  ghost predicate SomeAccepted(w: Watcher, steps: seq<Step>) {
    exists i, k :: 0 <= i < |w.globs| && 0 <= k <= |steps| && Accepts(w.globs[i].raw, steps[..k])
  }

  /** What a cached directory state says about the directory reached by `steps`. */
  ghost predicate DirMeans(w: Watcher, st: DirGlobState, steps: seq<Step>) {
    && (st.ignored <==> SomeAccepted(w, steps))
    && (!st.ignored && st.allDead ==> forall i :: 0 <= i < |w.globs| ==> Represents(0, Raws(w.globs[i]), steps))
    && (!st.ignored && !st.allDead ==> StatesMean(w, st.Data(|w.globs|), steps, |w.globs|))
  }

  ghost predicate StatesMean(w: Watcher, states: seq<nat>, steps: seq<Step>, count: nat) {
    |states| >= |w.globs| >= count && forall i :: 0 <= i < count ==> Represents(states[i], Raws(w.globs[i]), steps)
  }

  ghost predicate OneAccepts(w: Watcher, steps: seq<Step>) {
    exists i :: 0 <= i < |w.globs| && Accepts(w.globs[i].raw, steps)
  }

  lemma SomeAcceptedSnoc(w: Watcher, steps: seq<Step>, step: Step)
    ensures SomeAccepted(w, steps + [step]) <==> SomeAccepted(w, steps) || OneAccepts(w, steps + [step])
  {
    var longer := steps + [step];
    assert longer[..|longer|] == longer;
    assert forall k :: 0 <= k <= |steps| ==> longer[..k] == steps[..k];
    if i, k :| 0 <= i < |w.globs| && 0 <= k <= |steps| && Accepts(w.globs[i].raw, steps[..k]) {
      assert Accepts(w.globs[i].raw, longer[..k]);
    }
    if i :| 0 <= i < |w.globs| && Accepts(w.globs[i].raw, longer) {
      assert Accepts(w.globs[i].raw, longer[..|longer|]);
    }
  }

  method MakeRootGlobState(w: Watcher) returns (root: DirGlobState)
    requires ValidWatcher(w) && w.allGlobsUseBitmask
    ensures DirMeans(w, root, [])
  {
    var count := |w.globs|;
    root := FreshState(count);
    var states: seq<nat> := root.Data(count);
    var anyAlive := false;
    for i := 0 to count
      invariant |states| == |root.Data(count)|
      invariant StatesMean(w, states, [], i)
      invariant forall j :: 0 <= j < i ==> !Accepts(w.globs[j].raw, [])
      invariant anyAlive <==> exists j :: 0 <= j < i && states[j] != 0
    {
      var glob := w.globs[i];
      states := states[i := glob.initialState];
      InitialRepresents(glob);
      AcceptBit(glob, states[i], []);
      if And(states[i], glob.acceptBit) != 0 {
        ghost var none: seq<Step> := [];
        assert none[..0] == none && Accepts(w.globs[i].raw, none[..0]);
        return root.WithData(count, states).(ignored := true);
      }
      if states[i] != 0 {
        anyAlive := true;
      }
    }
    root := root.WithData(count, states).(allDead := !anyAlive);
  }

  lemma DeadStays(w: Watcher, steps: seq<Step>, step: Step)
    requires ValidWatcher(w) && w.allGlobsUseBitmask
    requires forall i :: 0 <= i < |w.globs| ==> Represents(0, Raws(w.globs[i]), steps)
    ensures forall i :: 0 <= i < |w.globs| ==> Represents(0, Raws(w.globs[i]), steps + [step])
    ensures forall i :: 0 <= i < |w.globs| ==> !Accepts(w.globs[i].raw, steps + [step])
  {
    forall i | 0 <= i < |w.globs|
      ensures Represents(0, Raws(w.globs[i]), steps + [step]) && !Accepts(w.globs[i].raw, steps + [step])
    {
      CompileNoAdjacent(ComponentsOf(w.globs[i].raw));
      DeadForever(Raws(w.globs[i]), steps, [step]);
      ZeroAcceptsNothing(w.globs[i], steps, [step]);
    }
  }

  /** One glob, stepped over one component, as both loops over the globs do. */
  method StepGlob(glob: Glob, s: nat, env: Env, component: Text, relParent: Text, ghost steps: seq<Step>,
                  cached: Option<Sensitivity>)
    returns (stepped: nat, accepted: bool, cached': Option<Sensitivity>)
    requires Compiled(glob) && glob.useBitmask && Represents(s, Raws(glob), steps)
    requires CacheAgrees(cached, env, relParent)
    ensures CacheAgrees(cached', env, relParent)
    ensures Represents(stepped, Raws(glob), steps + [StepBelow(env, component, relParent)])
    ensures accepted <==> Accepts(glob.raw, steps + [StepBelow(env, component, relParent)])
  {
    ghost var step := StepBelow(env, component, relParent);
    stepped, cached' := StepBitmask(glob, s, component, env, relParent, cached);
    StepRepresents(glob, s, steps, step, stepped);
    AcceptBit(glob, stepped, steps + [step]);
    accepted := And(stepped, glob.acceptBit) != 0;
  }

  method StepDirGlobState(w: Watcher, parentState: DirGlobState, component: Text, relParent: Text,
                          policy: Text -> Sensitivity, ghost steps: seq<Step>)
    returns (next: DirGlobState)
    requires ValidWatcher(w) && w.allGlobsUseBitmask && DirMeans(w, parentState, steps)
    ensures DirMeans(w, next, steps + [StepBelow(Env(w.dir, policy), component, relParent)])
  {
    var env := Env(w.dir, policy);
    ghost var longer := steps + [StepBelow(env, component, relParent)];
    SomeAcceptedSnoc(w, steps, StepBelow(env, component, relParent));
    next := FreshState(0);
    if parentState.ignored {
      return next.(ignored := true);
    }
    if parentState.allDead {
      DeadStays(w, steps, StepBelow(env, component, relParent));
      return next.(allDead := true);
    }
    var count := |w.globs|;
    next := FreshState(count);
    var inStates: seq<nat> := parentState.Data(count);
    var outStates: seq<nat> := next.Data(count);
    var sensitivity: Option<Sensitivity> := None;
    var anyAlive := false;
    for i := 0 to count
      invariant |outStates| == |next.Data(count)|
      invariant StatesMean(w, outStates, longer, i)
      invariant forall j :: 0 <= j < i ==> !Accepts(w.globs[j].raw, longer)
      invariant anyAlive <==> exists j :: 0 <= j < i && outStates[j] != 0
      invariant CacheAgrees(sensitivity, env, relParent)
    {
      var s := inStates[i];
      var glob := w.globs[i];
      if s == 0 {
        outStates := outStates[i := 0];
        CompileNoAdjacent(ComponentsOf(glob.raw));
        DeadForever(Raws(glob), steps, [StepBelow(env, component, relParent)]);
        ZeroAcceptsNothing(glob, steps, [StepBelow(env, component, relParent)]);
        continue;
      }
      var stepped: nat, accepted: bool;
      stepped, accepted, sensitivity := StepGlob(glob, s, env, component, relParent, steps, sensitivity);
      if accepted {
        return next.WithData(count, outStates).(ignored := true);
      }
      outStates := outStates[i := stepped];
      if stepped != 0 {
        anyAlive := true;
      }
    }
    next := next.WithData(count, outStates).(allDead := !anyAlive);
  }

  /** The loop over the globs of a directory that is still alive. */
  method SomeGlobAccepts(w: Watcher, inStates: seq<nat>, component: Text, relParent: Text, env: Env,
                         ghost steps: seq<Step>)
    returns (accepts: bool)
    requires ValidWatcher(w) && w.allGlobsUseBitmask && StatesMean(w, inStates, steps, |w.globs|)
    ensures accepts <==> OneAccepts(w, steps + [StepBelow(env, component, relParent)])
  {
    hide Accepts, Compiled, Represents;
    ghost var longer := steps + [StepBelow(env, component, relParent)];
    var sensitivity: Option<Sensitivity> := None;
    for i := 0 to |w.globs|
      invariant forall j :: 0 <= j < i ==> !Accepts(w.globs[j].raw, longer)
      invariant CacheAgrees(sensitivity, env, relParent)
    {
      var s := inStates[i];
      var glob := w.globs[i];
      if s == 0 {
        ZeroAcceptsNothing(glob, steps, [StepBelow(env, component, relParent)]);
        continue;
      }
      var stepped: nat, accepted: bool;
      stepped, accepted, sensitivity := StepGlob(glob, s, env, component, relParent, steps, sensitivity);
      if accepted {
        return true;
      }
    }
    return false;
  }

  method IsComponentIgnored(w: Watcher, parentState: DirGlobState, component: Text, relParent: Text,
                            policy: Text -> Sensitivity, ghost steps: seq<Step>)
    returns (ignored: bool)
    requires ValidWatcher(w) && w.allGlobsUseBitmask && DirMeans(w, parentState, steps)
    ensures ignored <==> SomeAccepted(w, steps + [StepBelow(Env(w.dir, policy), component, relParent)])
  {
    SomeAcceptedSnoc(w, steps, StepBelow(Env(w.dir, policy), component, relParent));
    if parentState.ignored {
      return true;
    }
    if parentState.allDead {
      DeadStays(w, steps, StepBelow(Env(w.dir, policy), component, relParent));
      return false;
    }
    ignored := SomeGlobAccepts(w, parentState.Data(|w.globs|), component, relParent, Env(w.dir, policy), steps);
  }

  // ------------------------------------------------------------ the cache

  /** The cut of a directory text that ends before `pos`, as steps. */
  ghost predicate PosMeans(w: Watcher, env: Env, st: DirGlobState, relDir: Text, pos: nat) {
    pos <= |relDir| && (pos > 0 ==> relDir[pos - 1] == SLASH) &&
    DirMeans(w, st, StepsBefore(env, false, relDir, pos))
  }

  /** The component before the leaf, if there is one, is not empty. */
  predicate CleanParent(relativePath: Text) {
    var j := LastSlash(relativePath);
    j < 0 || (j > 0 && relativePath[j - 1] != SLASH)
  }

  predicate ParentIsClean(w: Watcher, path: Text) {
    IsDescendant(path, w.dir) ==> CleanParent(path[|w.dir| + 1..])
  }

  lemma AcceptsFirstToo(raw: Text, steps: seq<Step>)
    requires steps != [] && Accepts(raw, steps[..0])
    ensures Accepts(raw, steps[..1])
  {
    FirstStepToo(ComponentsOf(raw), steps);
  }

  function LeafOf(rel: Text): Text {
    var j := LastSlash(rel);
    if j < 0 then rel else rel[j + 1..]
  }

  function DirOf(rel: Text): Text {
    var j := LastSlash(rel);
    if j < 0 then [] else rel[..j]
  }

  /** What a walk along a directory text arrives at: an empty last component is not walked. */
  function WalkedSteps(env: Env, relDir: Text): seq<Step> {
    if relDir == [] then []
    else if relDir[|relDir| - 1] == SLASH then Steps(env, false, relDir[..|relDir| - 1])
    else Steps(env, false, relDir)
  }

  /** The decision on a leaf below the directory reached by `steps`. */
  ghost predicate LeafIgnored(w: Watcher, policy: Text -> Sensitivity, rel: Text, steps: seq<Step>) {
    SomeAccepted(w, steps + [StepBelow(Env(w.dir, policy), LeafOf(rel), DirOf(rel))])
  }

  /** Deciding the leaf against its directory's state decides the path. */
  lemma LeafDecides(w: Watcher, policy: Text -> Sensitivity, rel: Text, steps: seq<Step>)
    requires ValidWatcher(w) && w.allGlobsUseBitmask
    requires steps == if LastSlash(rel) < 0 then [] else Steps(Env(w.dir, policy), false, rel[..LastSlash(rel)])
    ensures SomeGlobIgnores(w, policy, rel) <==> LeafIgnored(w, policy, rel, steps)
  {
    hide Accepts, Compiled, LastSlash;
    var env, j := Env(w.dir, policy), LastSlash(rel);
    var all := steps + [StepBelow(env, LeafOf(rel), DirOf(rel))];
    assert all == Steps(env, false, rel) by {
      StepBelowIs(env, j < 0, DirOf(rel), LeafOf(rel));
    }
    if i, k :| 0 <= i < |w.globs| && 0 <= k <= |all| && Accepts(w.globs[i].raw, all[..k]) {
      if k == 0 {
        AcceptsFirstToo(w.globs[i].raw, all);
      }
      assert AcceptsPrefix(w.globs[i].raw, all);
    }
    if i :| 0 <= i < |w.globs| && AcceptsPrefix(w.globs[i].raw, Steps(env, !w.globs[i].useBitmask, rel)) {
      var k :| 1 <= k <= |all| && Accepts(w.globs[i].raw, all[..k]);
    }
  }

  /** The ignore decision with the leaf's directory walked instead of split. */
  ghost predicate WalkIgnores(w: Watcher, policy: Text -> Sensitivity, path: Text) {
    if w.allGlobsUseBitmask then
      || (exists ignored :: ignored in w.ignorePaths && IsPathOrDescendant(path, ignored))
      || (IsDescendant(path, w.dir) && |path| > |w.dir| + 1 &&
          var rel := path[|w.dir| + 1..];
          LeafIgnored(w, policy, rel, WalkedSteps(Env(w.dir, policy), DirOf(rel))))
    else WatcherIgnores(w, policy, path)
  }

  /** Where the component before the leaf is not empty, walking is splitting. */
  lemma CleanWalk(w: Watcher, policy: Text -> Sensitivity, path: Text)
    requires ValidWatcher(w) && ParentIsClean(w, path)
    ensures WalkIgnores(w, policy, path) <==> WatcherIgnores(w, policy, path)
  {
    hide Steps, LastSlash, LeafIgnored, SomeGlobIgnores;
    if w.allGlobsUseBitmask && IsDescendant(path, w.dir) {
      var rel := path[|w.dir| + 1..];
      LeafDecides(w, policy, rel, WalkedSteps(Env(w.dir, policy), DirOf(rel)));
    }
  }

  method InIgnorePaths(w: Watcher, path: Text) returns (listed: bool)
    ensures listed <==> exists ignored :: ignored in w.ignorePaths && IsPathOrDescendant(path, ignored)
  {
    var rest := w.ignorePaths;
    while rest != {}
      invariant rest <= w.ignorePaths
      invariant forall ignored :: ignored in w.ignorePaths - rest ==> !IsPathOrDescendant(path, ignored)
      decreases rest
    {
      var ignored :| ignored in rest;
      if IsPathOrDescendant(path, ignored) {
        return true;
      }
      rest := rest - {ignored};
    }
    return false;
  }

  method SomeGlobMatches(w: Watcher, relativePath: Text, policy: Text -> Sensitivity) returns (matches: bool)
    requires ValidWatcher(w) && relativePath != []
    ensures matches <==> SomeGlobIgnores(w, policy, relativePath)
  {
    hide Accepts, Compiled;
    for i := 0 to |w.globs|
      invariant forall j :: 0 <= j < i ==>
                  !AcceptsPrefix(w.globs[j].raw, Steps(Env(w.dir, policy), !w.globs[j].useBitmask, relativePath))
    {
      var glob := IsPathOrAncestorIgnored(w.globs[i], relativePath, Env(w.dir, policy));
      if glob {
        return true;
      }
    }
    return false;
  }

  class ThreadIgnoreCache {
    var watcherId: nat
    var rootState: DirGlobState
    var lastRelDir: Text
    var lastState: DirGlobState
    ghost var lastSteps: seq<Step>  // the directory the last state describes
    var hasLast: bool
    var dirs: map<Text, DirGlobState>

    /** Every cached state is right for the watcher the cache currently serves.  For a directory text that
        ends in a separator the last answer may be that of the walk. */
    ghost predicate ServesWell(w: Watcher, policy: Text -> Sensitivity)
      reads this
    {
      var env := Env(w.dir, policy);
      && DirMeans(w, rootState, [])
      && (forall d :: d in dirs ==> DirMeans(w, dirs[d], Steps(env, false, d)))
      && (hasLast ==>
            && lastRelDir != [] && DirMeans(w, lastState, lastSteps)
            && (lastSteps == Steps(env, false, lastRelDir) || lastSteps == WalkedSteps(env, lastRelDir)))
    }

    /** `known` lists the watchers by their distinct ids. */
    ghost predicate Valid(known: map<nat, Watcher>, policy: Text -> Sensitivity)
      reads this
    {
      watcherId != 0 ==> watcherId in known && ServesWell(known[watcherId], policy)
    }

    constructor ()
      ensures watcherId == 0
      ensures forall known, policy :: Valid(known, policy)
    {
      watcherId, lastRelDir, lastSteps, hasLast, dirs := 0, [], [], false, map[];
      rootState, lastState := FreshState(0), FreshState(0);
    }

    method SwitchTo(w: Watcher, policy: Text -> Sensitivity)
      requires ValidWatcher(w) && w.allGlobsUseBitmask
      requires watcherId == w.id ==> ServesWell(w, policy)
      modifies this
      ensures watcherId == w.id && ServesWell(w, policy)
      ensures old(watcherId) != w.id ==> dirs == map[] && !hasLast
    {
      if watcherId != w.id {
        watcherId := w.id;
        rootState := MakeRootGlobState(w);
        lastRelDir := [];
        hasLast := false;
        dirs := map[];
      }
    }

    /** The deepest cached ancestor, or the root. */
    method NearestAncestor(w: Watcher, relDir: Text, ghost env: Env) returns (state: DirGlobState, pos: nat)
      requires relDir != [] && ServesWell(w, env.policy) && env.root == w.dir
      ensures PosMeans(w, env, state, relDir, pos)
    {
      hide DirMeans, Steps, LastSlash;
      state, pos := rootState, 0;
      var searchEnd := LastSlash(relDir);
      while searchEnd >= 0
        invariant -1 <= searchEnd < |relDir| && (searchEnd >= 0 ==> relDir[searchEnd] == SLASH)
        invariant state == rootState && pos == 0
        decreases searchEnd
      {
        var ancestor := relDir[..searchEnd];
        if ancestor in dirs {
          return dirs[ancestor], searchEnd + 1;
        }
        if searchEnd == 0 {
          break;
        }
        searchEnd := LastSlash(relDir[..searchEnd]);
      }
    }

    method NextSlash(t: Text, pos: nat) returns (sep: nat)
      requires pos <= |t|
      ensures pos <= sep <= |t| && (sep < |t| ==> t[sep] == SLASH)
      ensures forall k :: pos <= k < sep ==> t[k] != SLASH
    {
      sep := pos;
      while sep < |t| && t[sep] != SLASH
        invariant pos <= sep <= |t|
        invariant forall k :: pos <= k < sep ==> t[k] != SLASH
      {
        sep := sep + 1;
      }
    }

    /** Fills the cache along the rest of the directory text. */
    method Walk(w: Watcher, relDir: Text, policy: Text -> Sensitivity, start: DirGlobState, from: nat)
      returns (state: DirGlobState, ghost steps: seq<Step>)
      requires ValidWatcher(w) && w.allGlobsUseBitmask && relDir != []
      requires ServesWell(w, policy) && PosMeans(w, Env(w.dir, policy), start, relDir, from)
      modifies this`dirs
      ensures ServesWell(w, policy) && DirMeans(w, state, steps) && steps == WalkedSteps(Env(w.dir, policy), relDir)
    {
      hide DirMeans, Steps, StepAt, StepBelow, LastSlash;
      ghost var env := Env(w.dir, policy);
      state := start;
      steps := StepsBefore(env, false, relDir, from);
      var pos := from;
      while pos < |relDir|
        invariant pos <= |relDir| ==> (pos > 0 ==> relDir[pos - 1] == SLASH)
        invariant pos <= |relDir| ==> steps == StepsBefore(env, false, relDir, pos)
        invariant pos > |relDir| ==> steps == Steps(env, false, relDir) && relDir[|relDir| - 1] != SLASH
        invariant DirMeans(w, state, steps)
        invariant ServesWell(w, policy)
        decreases |relDir| - pos
      {
        var sep := NextSlash(relDir, pos);
        var component := relDir[pos..sep];
        var relParent: Text := if pos == 0 then [] else relDir[..pos - 1];
        StepsStep(env, false, relDir, pos, sep);
        StepBelowIs(env, pos == 0, relParent, component);
        state := StepDirGlobState(w, state, component, relParent, policy, steps);
        steps := Steps(env, false, relDir[..sep]);
        if relDir[..sep] !in dirs {
          dirs := dirs[relDir[..sep] := state];
        }
        pos := sep + 1;
        assert sep == |relDir| ==> relDir[..sep] == relDir;
      }
    }

    method Resolve(w: Watcher, relDir: Text, policy: Text -> Sensitivity)
      returns (state: DirGlobState, ghost steps: seq<Step>)
      requires ValidWatcher(w) && w.allGlobsUseBitmask
      requires watcherId == w.id ==> ServesWell(w, policy)
      modifies this
      ensures watcherId == w.id && ServesWell(w, policy) && DirMeans(w, state, steps)
      ensures steps == WalkedSteps(Env(w.dir, policy), relDir)
              || (old(watcherId) == w.id && relDir != [] && steps == Steps(Env(w.dir, policy), false, relDir))
    {
      hide DirMeans, Steps, LastSlash;
      SwitchTo(w, policy);
      if relDir == [] {
        return rootState, [];
      }
      if hasLast && lastRelDir == relDir {
        return lastState, lastSteps;
      }
      if relDir in dirs {
        lastRelDir, lastState, hasLast := relDir, dirs[relDir], true;
        lastSteps := Steps(Env(w.dir, policy), false, relDir);
        return lastState, lastSteps;
      }
      if |dirs| >= MAX_DIRS {
        dirs := map[];
      }
      var ancestor, pos := NearestAncestor(w, relDir, Env(w.dir, policy));
      state, steps := Walk(w, relDir, policy, ancestor, pos);
      lastRelDir, lastState, lastSteps, hasLast := relDir, state, steps, true;
    }

    /** The ignore decision for one path: that of splitting it or that of walking it, and the latter if
        the cache served another watcher. */
    method IsIgnored(w: Watcher, path: Text, policy: Text -> Sensitivity, ghost known: map<nat, Watcher>)
      returns (ignored: bool)
      requires ValidWatcher(w) && Valid(known, policy) && w.id in known && known[w.id] == w
      modifies this
      ensures Valid(known, policy)
      ensures ignored == WatcherIgnores(w, policy, path) || ignored == WalkIgnores(w, policy, path)
      ensures w.id != 0 && old(watcherId) != w.id ==> ignored == WalkIgnores(w, policy, path)
      ensures watcherId == old(watcherId) || watcherId == w.id
      ensures ParentIsClean(w, path) ==> (ignored <==> WatcherIgnores(w, policy, path))
    {
      hide Steps, LastSlash, LeafIgnored, SomeGlobIgnores, DirMeans;
      if ParentIsClean(w, path) {
        CleanWalk(w, policy, path);
      }
      var listed := InIgnorePaths(w, path);
      if listed {
        return true;
      }
      if w.globs == [] {
        NoGlobs(w, policy, path);
        return false;
      }
      if !IsDescendant(path, w.dir) {
        return false;
      }
      var relativePath := path[|w.dir| + 1..];
      if relativePath == [] {
        return false;
      }
      if w.allGlobsUseBitmask && w.id != 0 {
        ignored := DecideLeaf(w, relativePath, policy);
        return;
      }
      ignored := SomeGlobMatches(w, relativePath, policy);
    }

    /** The cached part: the state of the leaf's directory, then one step. */
    method DecideLeaf(w: Watcher, rel: Text, policy: Text -> Sensitivity) returns (ignored: bool)
      requires ValidWatcher(w) && w.allGlobsUseBitmask
      requires watcherId == w.id ==> ServesWell(w, policy)
      modifies this
      ensures watcherId == w.id && ServesWell(w, policy)
      ensures ignored == LeafIgnored(w, policy, rel, WalkedSteps(Env(w.dir, policy), DirOf(rel)))
              || (old(watcherId) == w.id && ignored == SomeGlobIgnores(w, policy, rel))
    {
      hide Steps, DirMeans, SomeGlobIgnores, WalkedSteps;
      var relSep := LastSlash(rel);
      var relDir: Text := if relSep < 0 then [] else rel[..relSep];
      var leafName := if relSep < 0 then rel else rel[relSep + 1..];
      var parentState: DirGlobState;
      ghost var steps: seq<Step>;
      parentState, steps := Resolve(w, relDir, policy);
      ignored := IsComponentIgnored(w, parentState, leafName, relDir, policy, steps);
      if relDir != [] && steps == Steps(Env(w.dir, policy), false, relDir) {
        LeafDecides(w, policy, rel, steps);
      }
    }
  }

  lemma NoGlobs(w: Watcher, policy: Text -> Sensitivity, path: Text)
    requires w.globs == []
    ensures IsDescendant(path, w.dir) ==> !SomeGlobIgnores(w, policy, path[|w.dir| + 1..])
    ensures forall rel, steps :: !LeafIgnored(w, policy, rel, steps)
  {}

  // ------------------------------------------------------------ any sequence of queries

  datatype Query = Query(watcher: Watcher, path: Text)

  ghost predicate ValidQueries(queries: seq<Query>) {
    && (forall i :: 0 <= i < |queries| ==> ValidWatcher(queries[i].watcher) && queries[i].watcher.id != 0)
    && (forall i, j :: 0 <= i < |queries| && 0 <= j < |queries| && queries[i].watcher.id == queries[j].watcher.id ==>
                         queries[i].watcher == queries[j].watcher)
  }

  ghost function Known(queries: seq<Query>): map<nat, Watcher> {
    if queries == [] then map[]
    else Known(queries[..|queries| - 1])[queries[|queries| - 1].watcher.id := queries[|queries| - 1].watcher]
  }

  /** The first query of its watcher. */
  predicate IsFirst(queries: seq<Query>, i: nat)
    requires i < |queries|
  {
    forall j :: 0 <= j < i ==> queries[j].watcher.id != queries[i].watcher.id
  }

  lemma {:induction false} KnownAll(queries: seq<Query>, prefix: nat, i: nat)
    requires ValidQueries(queries) && i < prefix <= |queries|
    ensures queries[i].watcher.id in Known(queries[..prefix])
    ensures Known(queries[..prefix])[queries[i].watcher.id] == queries[i].watcher
    decreases prefix
  {
    assert queries[..prefix][..prefix - 1] == queries[..prefix - 1];
    if i < prefix - 1 {
      KnownAll(queries, prefix - 1, i);
    }
  }

  /** What the cache answers: splitting or walking, and the latter to a watcher's first query. */
  ghost predicate Answers(queries: seq<Query>, policy: Text -> Sensitivity, i: nat, answer: bool)
    requires i < |queries|
  {
    var split := WatcherIgnores(queries[i].watcher, policy, queries[i].path);
    var walked := WalkIgnores(queries[i].watcher, policy, queries[i].path);
    (answer == split || answer == walked) && (IsFirst(queries, i) ==> answer == walked)
  }

  method AnswerAll(queries: seq<Query>, policy: Text -> Sensitivity) returns (answers: seq<bool>)
    requires ValidQueries(queries)
    ensures |answers| == |queries| && forall i :: 0 <= i < |queries| ==> Answers(queries, policy, i, answers[i])
  {
    hide WatcherIgnores, WalkIgnores, ParentIsClean, ValidWatcher;
    ghost var known := Known(queries);
    assert queries[..|queries|] == queries;
    var cache := new ThreadIgnoreCache();
    answers := [];
    for i := 0 to |queries|
      invariant |answers| == i && fresh(cache) && cache.Valid(known, policy)
      invariant cache.watcherId == 0 || exists j :: 0 <= j < i && queries[j].watcher.id == cache.watcherId
      invariant forall j :: 0 <= j < i ==> Answers(queries, policy, j, answers[j])
    {
      KnownAll(queries, |queries|, i);
      var answer := cache.IsIgnored(queries[i].watcher, queries[i].path, policy, known);
      assert Answers(queries, policy, i, answer);
      answers := answers + [answer];
    }
  }

  /** Whatever was asked before, on one thread and of any watchers, each answer is the uncached one where
      splitting and walking the path agree, which they do unless the component before the leaf is empty.
      A watcher's first answer is always that of walking, so where the two disagree it is not the uncached
      one. */
  method Answer(queries: seq<Query>, policy: Text -> Sensitivity) returns (answers: seq<bool>)
    requires ValidQueries(queries)
    ensures |answers| == |queries|
    ensures forall i :: 0 <= i < |queries| ==>
                          (var q := queries[i];
                           && (ParentIsClean(q.watcher, q.path) ==>
                                 (WalkIgnores(q.watcher, policy, q.path) <==>
                                  WatcherIgnores(q.watcher, policy, q.path)))
                           && ((WalkIgnores(q.watcher, policy, q.path) <==>
                                WatcherIgnores(q.watcher, policy, q.path)) ==>
                                 (answers[i] <==> WatcherIgnores(q.watcher, policy, q.path))))
    ensures forall i :: 0 <= i < |queries| && IsFirst(queries, i) ==>
                          (answers[i] <==> WalkIgnores(queries[i].watcher, policy, queries[i].path))
  {
    hide WatcherIgnores, WalkIgnores, ParentIsClean;
    answers := AnswerAll(queries, policy);
    forall i | 0 <= i < |queries| && ParentIsClean(queries[i].watcher, queries[i].path) {
      CleanWalk(queries[i].watcher, policy, queries[i].path);
    }
  }

  // ------------------------------------------------------------ where walking and splitting disagree

  /** The glob of `n` single stars. */
  function Stars(n: nat): Text
    requires n > 0
  {
    if n == 1 then [STAR] else Stars(n - 1) + [SLASH, STAR]
  }

  lemma {:induction false} StarsSplit(n: nat)
    requires n > 0
    ensures Split(Stars(n)) == seq(n, _ => [STAR])
    decreases n
  {
    hide LastSlash;
    var t := Stars(n);
    if n == 1 {
      LastSlashIs(t, -1);
    } else {
      StarsSplit(n - 1);
      LastSlashIs(t, |t| - 2);
      assert t[..|t| - 2] == Stars(n - 1) && t[|t| - 1..] == [STAR];
      assert seq(n, _ => [STAR]) == seq(n - 1, _ => [STAR]) + [[STAR]];
    }
  }

  lemma StarsStripped(n: nat)
    requires n > 0
    ensures Strip(Stars(n)) == Stars(n) && Stars(n) != []
  {
    var t := Stars(n);
    assert n > 1 ==> t[|t| - 2] == SLASH;
  }

  lemma {:induction false} StarsCompile(n: nat)
    ensures CompileParts(seq(n, _ => [STAR])) == seq(n, _ => [STAR])
    decreases n
  {
    if n > 0 {
      StarsCompile(n - 1);
      assert seq(n, _ => [STAR])[..n - 1] == seq(n - 1, _ => [STAR]);
      assert CollapsePart([STAR]) == [STAR];
    }
  }

  /** Single stars match exactly the runs of as many components. */
  lemma StarsAccept(n: nat, steps: seq<Step>)
    requires n > 0
    ensures Accepts(Stars(n), steps) <==> |steps| == n
  {
    hide StepMatches;
    StarsSplit(n);
    forall i | 0 <= i < |steps|
      ensures StepMatches([STAR], steps[i])
    {
      StarStep(steps[i]);
    }
    Literal(IsDoubleStar, StepMatches, seq(n, _ => [STAR]), steps);
  }

  lemma StarStep(step: Step)
    ensures StepMatches([STAR], step)
  {
    SingleStarMatches(false, step.component);
  }

  /** Walking a path whose component before the leaf is empty misses one component. */
  lemma WalkMissesOne(env: Env, rel: Text)
    requires !CleanParent(rel)
    ensures |WalkedSteps(env, DirOf(rel))| + 2 == |Steps(env, false, rel)| == |Split(rel)|
  {
    hide LastSlash, StepAt;
    var j := LastSlash(rel);
    var dir := rel[..j];
    StepsSplit(env, false, rel);
    if j > 0 {
      LastSlashIs(dir, j - 1);
      assert Steps(env, false, dir) == Steps(env, false, dir[..j - 1]) +
             [StepAt(env, false, false, dir[..j - 1], dir[j..])];
    } else {
      LastSlashIs(dir, -1);
    }
  }

  /** Every path whose component before the leaf is empty is ignored by the glob of as many stars as it has
      components; walked, it is not. */
  lemma EmptyParentDiffers(w: Watcher, policy: Text -> Sensitivity, rel: Text)
    requires ValidWatcher(w) && w.allGlobsUseBitmask && w.ignorePaths == {} && |w.globs| == 1
    requires !CleanParent(rel) && w.globs[0].raw == Stars(|Split(rel)|)
    ensures var path := w.dir + [SLASH] + rel;
            WatcherIgnores(w, policy, path) && !WalkIgnores(w, policy, path)
  {
    hide LastSlash, Steps, Accepts, AcceptsPrefix, Stars, WalkedSteps, SomeAccepted, Compiled;
    var env, path := Env(w.dir, policy), w.dir + [SLASH] + rel;
    assert path[|w.dir| + 1..] == rel && IsDescendant(path, w.dir);
    WalkMissesOne(env, rel);
    var n, all := |Split(rel)|, Steps(env, false, rel);
    StarsAcceptPrefix(n, all);
    assert SomeGlobIgnores(w, policy, rel);
    FewerStars(w, n, WalkedSteps(env, DirOf(rel)) + [StepBelow(env, LeafOf(rel), DirOf(rel))]);
    assert !LeafIgnored(w, policy, rel, WalkedSteps(env, DirOf(rel)));
  }

  lemma StarsAcceptPrefix(n: nat, steps: seq<Step>)
    requires n > 0 && |steps| == n
    ensures AcceptsPrefix(Stars(n), steps)
  {
    hide Accepts;
    StarsAccept(n, steps);
    assert steps[..n] == steps;
  }

  lemma FewerStars(w: Watcher, n: nat, steps: seq<Step>)
    requires |w.globs| == 1 && n > 0 && w.globs[0].raw == Stars(n) && |steps| < n
    ensures !SomeAccepted(w, steps)
  {
    hide Accepts, Stars;
    forall k | 0 <= k <= |steps| { StarsAccept(n, steps[..k]); }
  }

  /** For the watcher of that glob, walking agrees with splitting exactly if the component before the leaf
      is not empty. */
  lemma EmptyParentExact(w: Watcher, policy: Text -> Sensitivity, rel: Text)
    requires ValidWatcher(w) && w.allGlobsUseBitmask && w.ignorePaths == {} && |w.globs| == 1
    requires w.globs[0].raw == Stars(|Split(rel)|)
    ensures var path := w.dir + [SLASH] + rel;
            (WalkIgnores(w, policy, path) <==> WatcherIgnores(w, policy, path)) <==> CleanParent(rel)
  {
    hide LastSlash, Steps, WatcherIgnores, WalkIgnores, Stars, CleanParent, Compiled;
    var path := w.dir + [SLASH] + rel;
    assert path[|w.dir| + 1..] == rel;
    if CleanParent(rel) {
      CleanWalk(w, policy, path);
    } else {
      EmptyParentDiffers(w, policy, rel);
    }
  }

  /** Up to 62 components there is such a watcher. */
  method MakeStarsWatcher(id: nat, dir: Text, n: nat) returns (w: Watcher)
    requires 0 < n < 63
    ensures ValidWatcher(w) && w.id == id && w.dir == dir && w.allGlobsUseBitmask && w.ignorePaths == {}
    ensures |w.globs| == 1 && w.globs[0].raw == Stars(n)
  {
    hide Stars, Strip, CompileParts;
    var stars := Stars(n);
    StarsSplit(n);
    StarsStripped(n);
    StarsCompile(n);
    w := MakeWatcher(id, dir, {}, {stars});
    assert CleanGlobs({stars}) == {stars};
    OneRaw(w.globs, stars);
    assert Compiled(w.globs[0]);
  }

  lemma OneRaw(globs: seq<Glob>, raw: Text)
    requires RawsAre(globs, {raw})
    ensures |globs| == 1 && globs[0].raw == raw
  {
    var i :| 0 <= i < |globs| && globs[i].raw == raw;
    assert globs[0].raw == raw && globs[|globs| - 1].raw == raw;
  }
}
