/** Matching a path against a compiled glob. */
module GlobMatcher {
  import opened Bytes
  import opened Options
  import opened Matching
  import opened PathComponents
  import opened GlobMeaning
  import opened Word64
  import opened Globs

  // ------------------------------------------------------------ one step of the automaton

  function BuildParentDirectory(root: Text, relativeParent: Text): Text {
    if relativeParent == [] then root else root + [SLASH] + relativeParent
  }

  ghost function StepBelow(env: Env, component: Text, relativeParent: Text): Step {
    Step(component, env.policy(BuildParentDirectory(env.root, relativeParent)) == Insensitive)
  }

  lemma StepBelowIs(env: Env, first: bool, parent: Text, component: Text)
    requires first ==> parent == []
    ensures StepAt(env, false, first, parent, component) == StepBelow(env, component, parent)
  {}

  ghost predicate CacheAgrees(cached: Option<Sensitivity>, env: Env, relativeParent: Text) {
    cached.Some? ==> cached.value == env.policy(BuildParentDirectory(env.root, relativeParent))
  }

  /** Half way through a step: `next` holds the moves whose source is no longer a candidate. */
  ghost predicate PartialMoves(state: nat, raws: seq<Text>, step: Step, next: nat, candidates: nat) {
    && (forall p: nat :: Bit(candidates, p) ==> Bit(state, p) && p < |raws| && raws[p] != DOUBLE_STAR)
    && (forall p: nat :: Bit(next, p) <==>
                         Stays(state, raws, p) || (Enters(state, raws, step, p) && !Bit(candidates, p - 1)))
  }

  lemma FirstMoves(state: nat, raws: seq<Text>, step: Step)
    ensures PartialMoves(state, raws, step, And(state, MaskOf(raws, |raws|, true)),
                         And(state, MaskOf(raws, |raws|, false)))
  {
    forall p: nat
      ensures Bit(And(state, MaskOf(raws, |raws|, true)), p) <==> Bit(state, p) && p < |raws| && raws[p] == DOUBLE_STAR
      ensures Bit(And(state, MaskOf(raws, |raws|, false)), p) <==> Bit(state, p) && p < |raws| && raws[p] != DOUBLE_STAR
    {
      BitAnd(state, MaskOf(raws, |raws|, true), p);
      BitAnd(state, MaskOf(raws, |raws|, false), p);
      MaskBit(raws, |raws|, true, p);
      MaskBit(raws, |raws|, false, p);
    }
  }

  /** Settling the lowest candidate. */
  lemma SettleCandidate(state: nat, raws: seq<Text>, step: Step, next: nat, candidates: nat, p: nat)
    requires PartialMoves(state, raws, step, next, candidates) && |raws| < 63 && next < Pow2(63)
    requires candidates != 0 && p == TrailingZeros(candidates)
    ensures p < |raws| && raws[p] != DOUBLE_STAR
    ensures And(candidates, candidates - 1) < candidates && Or(next, Pow2(p + 1)) < Pow2(63)
    ensures StepMatches(raws[p], step) ==>
              PartialMoves(state, raws, step, Or(next, Pow2(p + 1)), And(candidates, candidates - 1))
    ensures !StepMatches(raws[p], step) ==>
              PartialMoves(state, raws, step, next, And(candidates, candidates - 1))
  {
    hide Bit, And, Or, Pow2, TrailingZeros, StepMatches;
    BitTrailing(candidates);
    forall q: nat
      ensures Bit(And(candidates, candidates - 1), q) <==> Bit(candidates, q) && q != p
      ensures Bit(Or(next, Pow2(p + 1)), q) <==> Bit(next, q) || q == p + 1
    {
      ClearLowest(candidates, q);
      BitOr(next, Pow2(p + 1), q);
      BitPow2(p + 1, q);
    }
    ClearLowest(candidates, 0);
    Pow2Monotone(p + 1, 62);
    WordBounds();
    OrBound(next, Pow2(p + 1), 63);
  }

  /** The closing shift of a step loses no bit. */
  lemma CloseMoves(g: Glob, state: nat, step: Step, next: nat)
    requires Compiled(g) && g.useBitmask
    requires next < Pow2(63) && PartialMoves(state, Raws(g), step, next, 0)
    ensures And(next, g.doubleStarMask) < Pow2(64)
    ensures Or(next, ShiftLeft(And(next, g.doubleStarMask))) < Pow2(63) < Pow2(64)
    ensures forall p: nat :: Bit(Or(next, ShiftLeft(And(next, g.doubleStarMask))), p) <==>
                             ClosedMoves(state, Raws(g), step, p)
  {
    hide Bit, And, Or, Pow2, ShiftLeft, StepMatches, MaskOf;
    var raws, kept := Raws(g), And(next, g.doubleStarMask);
    WordBounds();
    MaskBound(raws, |raws|, true);
    Pow2Monotone(|raws|, 62);
    Pow2Double(62);
    BitShift(kept, 0);
    OrBound(next, ShiftLeft(kept), 63);
    forall p: nat
      ensures Bit(Or(next, ShiftLeft(kept)), p) <==> ClosedMoves(state, raws, step, p)
    {
      BitOr(next, ShiftLeft(kept), p);
      BitShift(kept, p);
      BitZero(p);
      if p > 0 {
        BitZero(p - 1);
        BitAnd(next, g.doubleStarMask, p - 1);
        MaskBit(raws, |raws|, true, p - 1);
        if p > 1 { BitZero(p - 2); }
      }
    }
  }

  /** Whether one part lets the component pass, asking for the policy only if it decides. */
  method PartPasses(part: GlobComponent, component: Text, env: Env, relativeParent: Text, cached: Option<Sensitivity>)
    returns (passes: bool, cached': Option<Sensitivity>)
    requires part == PartOf(part.raw) && !part.isDoubleStar
    requires CacheAgrees(cached, env, relativeParent)
    ensures CacheAgrees(cached', env, relativeParent)
    ensures passes <==> StepMatches(part.raw, StepBelow(env, component, relativeParent))
  {
    cached' := cached;
    var exact := ComponentMatchesExact(part, component);
    if exact {
      return true, cached';
    }
    var folded := ComponentMatchesFolded(part, component);
    if !folded {
      return false, cached';
    }
    if cached'.None? {
      cached' := Some(env.policy(BuildParentDirectory(env.root, relativeParent)));
    }
    return cached'.value == Insensitive, cached';
  }

  method StepBitmask(g: Glob, state: nat, component: Text, env: Env, relativeParent: Text, cached: Option<Sensitivity>)
    returns (result: nat, cached': Option<Sensitivity>)
    requires Compiled(g) && g.useBitmask && state < Pow2(63)
    requires CacheAgrees(cached, env, relativeParent)
    ensures CacheAgrees(cached', env, relativeParent)
    ensures result < Pow2(63)
    ensures forall p: nat :: Bit(result, p) <==>
                               ClosedMoves(state, Raws(g), StepBelow(env, component, relativeParent), p)
  {
    hide Bit, And, Or, Pow2, TrailingZeros, StepMatches, ClosedMoves, MaskOf;
    cached' := cached;
    ghost var raws, step := Raws(g), StepBelow(env, component, relativeParent);
    WordBounds();
    var next: uint64 := And(state, g.doubleStarMask);
    var candidates: uint64 := And(state, g.activeMask);
    FirstMoves(state, raws, step);
    while candidates != 0
      invariant next < Pow2(63)
      invariant PartialMoves(state, raws, step, next, candidates)
      invariant CacheAgrees(cached', env, relativeParent)
      decreases candidates
    {
      var p := TrailingZeros(candidates);
      SettleCandidate(state, raws, step, next, candidates, p);
      candidates := And(candidates, candidates - 1);
      var passes: bool;
      passes, cached' := PartPasses(g.parts[p], component, env, relativeParent, cached');
      if passes {
        next := Or(next, Pow2(p + 1));
      }
    }
    CloseMoves(g, state, step, next);
    result := Or(next, ShiftLeft(And(next, g.doubleStarMask)));
  }

  /** A step keeps the state exact: it holds the live positions after one more component. */
  lemma StepRepresents(g: Glob, state: nat, steps: seq<Step>, step: Step, result: nat)
    requires Compiled(g) && Represents(state, Raws(g), steps) && result < Pow2(63)
    requires forall p: nat :: Bit(result, p) <==> ClosedMoves(state, Raws(g), step, p)
    ensures Represents(result, Raws(g), steps + [step])
  {
    CompileNoAdjacent(ComponentsOf(g.raw));
    forall p: nat { StepLive(state, Raws(g), steps, step, p); }
  }

  // ------------------------------------------------------------ whole paths

  lemma AcceptsPrefixSnoc(raw: Text, steps: seq<Step>, step: Step)
    ensures AcceptsPrefix(raw, steps + [step]) <==> AcceptsPrefix(raw, steps) || Accepts(raw, steps + [step])
  {
    var longer := steps + [step];
    assert longer[..|longer|] == longer;
    assert forall k :: 0 <= k <= |steps| ==> longer[..k] == steps[..k];
    if Accepts(raw, longer) {
      assert Accepts(raw, longer[..|longer|]);
    }
    if k :| 1 <= k <= |steps| && Accepts(raw, steps[..k]) {
      assert Accepts(raw, longer[..k]);
    }
  }

  lemma ZeroAcceptsNothing(g: Glob, steps: seq<Step>, more: seq<Step>)
    requires Compiled(g) && g.useBitmask && Represents(0, Raws(g), steps)
    ensures !Accepts(g.raw, steps + more)
  {
    CompileNoAdjacent(ComponentsOf(g.raw));
    DeadForever(Raws(g), steps, more);
    AcceptBit(g, 0, steps + more);
  }

  /** Once the state is empty, no longer path is ignored on account of later components. */
  lemma DeadPrefix(g: Glob, steps: seq<Step>, longer: seq<Step>)
    requires Compiled(g) && g.useBitmask && Represents(0, Raws(g), steps)
    requires |steps| <= |longer| && longer[..|steps|] == steps
    ensures AcceptsPrefix(g.raw, longer) <==> AcceptsPrefix(g.raw, steps)
    ensures !Accepts(g.raw, longer)
  {
    assert longer == steps + longer[|steps|..];
    ZeroAcceptsNothing(g, steps, longer[|steps|..]);
    if AcceptsPrefix(g.raw, steps) {
      AcceptsPrefixExtends(g.raw, steps, longer);
    }
    if k :| 1 <= k <= |longer| && Accepts(g.raw, longer[..k]) {
      if k >= |steps| {
        assert longer[..k] == steps + longer[|steps|..k];
        ZeroAcceptsNothing(g, steps, longer[|steps|..k]);
      } else {
        assert longer[..k] == steps[..k];
      }
    }
  }

  /** The component ending at `index`, its parent, and where the next component starts. */
  ghost predicate AtComponent(t: Text, start: nat, index: nat) {
    && start <= index <= |t| && (start > 0 ==> t[start - 1] == SLASH)
    && (forall k :: start <= k < index ==> t[k] != SLASH)
  }

  lemma CutOrWhole(env: Env, table: bool, t: Text, index: nat)
    requires index <= |t| && (index == |t| || t[index] == SLASH)
    ensures |Steps(env, table, t[..index])| <= |Steps(env, table, t)|
    ensures Steps(env, table, t)[..|Steps(env, table, t[..index])|] == Steps(env, table, t[..index])
  {
    if index == |t| {
      assert t[..index] == t;
    } else {
      CutPrefix(env, table, t, index);
    }
  }

  /** What one more component decides, for the path so far and for the whole path. */
  lemma ComponentDecides(g: Glob, state: nat, path: Text, start: nat, index: nat, env: Env)
    requires Compiled(g) && g.useBitmask && AtComponent(path, start, index)
    requires index == |path| || path[index] == SLASH
    requires Represents(state, Raws(g), Steps(env, false, path[..index]))
    requires !AcceptsPrefix(g.raw, StepsBefore(env, false, path, start))
    ensures And(state, g.acceptBit) != 0 <==> AcceptsPrefix(g.raw, Steps(env, false, path[..index]))
    ensures And(state, g.acceptBit) != 0 ==> AcceptsPrefix(g.raw, Steps(env, false, path))
    ensures state == 0 ==> !AcceptsPrefix(g.raw, Steps(env, false, path))
  {
    var steps := Steps(env, false, path[..index]);
    StepsStep(env, false, path, start, index);
    AcceptsPrefixSnoc(g.raw, StepsBefore(env, false, path, start), steps[|steps| - 1]);
    AcceptBit(g, state, steps);
    CutOrWhole(env, false, path, index);
    if AcceptsPrefix(g.raw, steps) {
      AcceptsPrefixExtends(g.raw, steps, Steps(env, false, path));
    }
    if state == 0 {
      ZeroAcceptsNothing(g, steps, []);
      assert steps + [] == steps;
      DeadPrefix(g, steps, Steps(env, false, path));
    }
  }

  /** One component of the path, consumed by the automaton. */
  method StepComponent(g: Glob, state: nat, path: Text, start: nat, index: nat, env: Env) returns (result: nat)
    requires Compiled(g) && g.useBitmask && AtComponent(path, start, index)
    requires index == |path| || path[index] == SLASH
    requires Represents(state, Raws(g), StepsBefore(env, false, path, start))
    ensures Represents(result, Raws(g), Steps(env, false, path[..index]))
    ensures result == 0 ==> !Accepts(g.raw, Steps(env, false, path))
  {
    var component := path[start..index];
    var relParent: Text := if start == 0 then [] else path[..start - 1];
    var asked: Option<Sensitivity>;
    result, asked := StepBitmask(g, state, component, env, relParent, None);
    StepsStep(env, false, path, start, index);
    StepRepresents(g, state, StepsBefore(env, false, path, start), StepBelow(env, component, relParent), result);
    CutOrWhole(env, false, path, index);
    if result == 0 {
      DeadPrefix(g, Steps(env, false, path[..index]), Steps(env, false, path));
    }
  }

  method IsPathOrAncestorIgnored(g: Glob, relativePath: Text, env: Env) returns (ignored: bool)
    requires Compiled(g)
    ensures ignored <==> relativePath != [] && AcceptsPrefix(g.raw, Steps(env, !g.useBitmask, relativePath))
  {
    if g.raw == [] || relativePath == [] {
      return false;
    }
    var path := relativePath;
    if g.useBitmask {
      var state: nat := g.initialState;
      InitialRepresents(g);
      var start := 0;
      for index := 0 to |path| + 1
        invariant start <= index && (index <= |path| ==> AtComponent(path, start, index))
        invariant index <= |path| ==> Represents(state, Raws(g), StepsBefore(env, false, path, start))
        invariant index <= |path| ==> !AcceptsPrefix(g.raw, StepsBefore(env, false, path, start))
        invariant index == |path| + 1 ==> !AcceptsPrefix(g.raw, Steps(env, false, path))
      {
        if index == |path| || path[index] == SLASH {
          state := StepComponent(g, state, path, start, index, env);
          ComponentDecides(g, state, path, start, index, env);
          if And(state, g.acceptBit) != 0 {
            return true;
          }
          if state == 0 {
            return false;
          }
          start := index + 1;
          assert index == |path| ==> path[..index] == path;
        }
      }
      return false;
    }

    ignored := AnyCutIgnored(g, path, env);
  }

  /** The fallback for long patterns: the path, then each of its ancestors, against the whole pattern. */
  method AnyCutIgnored(g: Glob, path: Text, env: Env) returns (ignored: bool)
    requires Compiled(g) && !g.useBitmask && path != []
    ensures ignored <==> AcceptsPrefix(g.raw, Steps(env, true, path))
  {
    AcceptsPrefixCuts(env, true, g.raw, path);
    assert path[..|path|] == path;
    var whole := IsIgnored(g, path, env);
    if whole {
      return true;
    }
    for end := 0 to |path|
      invariant forall e :: 0 <= e < end && path[e] == SLASH ==> !Accepts(g.raw, Steps(env, true, path[..e]))
    {
      if path[end] == SLASH {
        if end == 0 {
          NoShortMatch(g, []);
          NoShortMatch(g, Steps(env, true, path[..0]));
        }
        var cut := IsIgnored(g, path[..end], env);
        if cut {
          return true;
        }
      }
    }
    return false;
  }

  method IsIgnored(g: Glob, relativePath: Text, env: Env) returns (ignored: bool)
    requires Compiled(g)
    ensures ignored <==> Accepts(g.raw, StepsOfPath(env, !g.useBitmask, relativePath))
  {
    if g.raw == [] {
      return false;
    }
    var path := relativePath;
    if g.useBitmask {
      var state: nat := g.initialState;
      InitialRepresents(g);
      if path == [] {
        AcceptBit(g, state, []);
        return And(state, g.acceptBit) != 0;
      }
      var start := 0;
      for index := 0 to |path| + 1
        invariant start <= index && (index <= |path| ==> AtComponent(path, start, index))
        invariant index <= |path| ==> Represents(state, Raws(g), StepsBefore(env, false, path, start))
        invariant index == |path| + 1 ==> Represents(state, Raws(g), Steps(env, false, path))
      {
        if index == |path| || path[index] == SLASH {
          state := StepComponent(g, state, path, start, index, env);
          if state == 0 {
            return false;
          }
          start := index + 1;
          assert index == |path| ==> path[..index] == path;
        }
      }
      AcceptBit(g, state, Steps(env, false, path));
      return And(state, g.acceptBit) != 0;
    }
    ignored := MatchTable(g, path, env);
    CompileMeaning(ComponentsOf(g.raw), StepsOfPath(env, true, path));
  }

  // ------------------------------------------------------------ the backward table

  method ParentDirectory(root: Text, path: seq<Text>, component: nat) returns (result: Text)
    requires component <= |path|
    ensures result == Join(root, path[..component])
  {
    result := root;
    for index := 0 to component
      invariant result == Join(root, path[..index])
    {
      assert path[..index + 1][..index] == path[..index];
      result := result + [SLASH];
      result := result + path[index];
    }
  }

  ghost predicate MemoAgrees(memo: map<Text, Sensitivity>, env: Env) {
    forall d :: d in memo ==> memo[d] == env.policy(d)
  }

  /** The decision for one literal cell of the table. */
  method CellPasses(part: GlobComponent, pathParts: seq<Text>, pathIndex: nat, env: Env, memo: map<Text, Sensitivity>)
    returns (passes: bool, memo': map<Text, Sensitivity>)
    requires part == PartOf(part.raw) && !part.isDoubleStar && pathIndex < |pathParts| && MemoAgrees(memo, env)
    ensures MemoAgrees(memo', env)
    ensures passes <==> StepMatches(part.raw, Step(pathParts[pathIndex],
                                                   env.policy(Join(env.root, pathParts[..pathIndex])) == Insensitive))
  {
    memo' := memo;
    var exact := ComponentMatchesExact(part, pathParts[pathIndex]);
    if exact {
      return true, memo';
    }
    var folded := ComponentMatchesFolded(part, pathParts[pathIndex]);
    if !folded {
      return false, memo';
    }
    var parent := ParentDirectory(env.root, pathParts, pathIndex);
    var value: Sensitivity;
    if parent !in memo' {
      value := env.policy(parent);
      memo' := memo'[parent := value];
    } else {
      value := memo'[parent];
    }
    return value == Insensitive, memo';
  }

  lemma TableStep(env: Env, path: Text, k: nat)
    requires k < |StepsOfPath(env, true, path)|
    ensures |ComponentsOf(path)| == |StepsOfPath(env, true, path)|
    ensures StepsOfPath(env, true, path)[k] ==
            Step(ComponentsOf(path)[k], env.policy(Join(env.root, ComponentsOf(path)[..k])) == Insensitive)
  {
    StepsSplit(env, true, path);
    TableFolds(env, path, k);
  }

  ghost predicate PartRow(g: Glob, env: Env, path: Text, i: nat, row: seq<bool>, from: nat) {
    IsRow(IsDoubleStar, StepMatches, Raws(g), StepsOfPath(env, true, path), i, row, from)
  }

  /** One row of the table, filled from the back. */
  method FillRow(g: Glob, patternIndex: nat, path: Text, pathParts: seq<Text>, env: Env, next: array<bool>,
                 memo: map<Text, Sensitivity>)
    returns (current: array<bool>, memo': map<Text, Sensitivity>)
    requires Compiled(g) && patternIndex < |g.parts| && pathParts == ComponentsOf(path)
    requires PartRow(g, env, path, patternIndex + 1, next[..], 0) && MemoAgrees(memo, env)
    ensures fresh(current) && PartRow(g, env, path, patternIndex, current[..], 0) && MemoAgrees(memo', env)
  {
    memo' := memo;
    ghost var raws, steps := Raws(g), StepsOfPath(env, true, path);
    var n := |pathParts|;
    StepsSplit(env, true, path);
    var part := g.parts[patternIndex];
    current := new bool[n + 1](_ => false);
    var pathIndex := n + 1;
    while pathIndex > 0
      modifies current
      invariant 0 <= pathIndex <= n + 1
      invariant forall j :: 0 <= j < pathIndex ==> !current[j]
      invariant PartRow(g, env, path, patternIndex, current[..], pathIndex)
      invariant MemoAgrees(memo', env)
    {
      pathIndex := pathIndex - 1;
      ghost var row := current[..];
      if part.isDoubleStar {
        StarCell(IsDoubleStar, StepMatches, raws, steps, patternIndex, next[..], row, pathIndex);
        current[pathIndex] := next[pathIndex] || (pathIndex < n && current[pathIndex + 1]);
        assert current[..] == row[pathIndex := next[pathIndex] || (pathIndex < n && row[pathIndex + 1])];
        continue;
      }
      LiteralCell(IsDoubleStar, StepMatches, raws, steps, patternIndex, next[..], row, pathIndex);
      if pathIndex == n || !next[pathIndex + 1] {
        assert current[..] == row[pathIndex := false];
        continue;
      }
      TableStep(env, path, pathIndex);
      var passes: bool;
      passes, memo' := CellPasses(part, pathParts, pathIndex, env, memo');
      if passes {
        current[pathIndex] := true;
      }
      assert current[..] == row[pathIndex := passes];
    }
  }

  method MatchTable(g: Glob, path: Text, env: Env) returns (matched: bool)
    requires Compiled(g)
    ensures matched <==> GlobMatches(Raws(g), StepsOfPath(env, true, path))
  {
    var pathParts := Components(path);
    StepsSplit(env, true, path);
    var n := |pathParts|;
    var next := new bool[n + 1](_ => false);
    next[n] := true;
    LastRow(IsDoubleStar, StepMatches, Raws(g), StepsOfPath(env, true, path), next[..]);
    var sensitivity: map<Text, Sensitivity> := map[];
    var patternIndex := |g.parts|;
    while patternIndex > 0
      invariant 0 <= patternIndex <= |g.parts|
      invariant PartRow(g, env, path, patternIndex, next[..], 0)
      invariant MemoAgrees(sensitivity, env)
    {
      patternIndex := patternIndex - 1;
      next, sensitivity := FillRow(g, patternIndex, path, pathParts, env, next, sensitivity);
    }
    AtStart(IsDoubleStar, StepMatches, Raws(g), StepsOfPath(env, true, path));
    return next[0];
  }

  // ------------------------------------------------------------ long patterns

  function LiteralWeight(part: Text): nat { if part == DOUBLE_STAR then 0 else 1 }

  function StepWeight(step: Step): nat { 1 }

  function Literals(parts: seq<Text>): nat {
    Sum(LiteralWeight, parts)
  }

  lemma {:induction false} OneEach(steps: seq<Step>)
    ensures Sum(StepWeight, steps) == |steps|
    decreases |steps|
  {
    if steps != [] {
      OneEach(steps[1..]);
    }
  }

  lemma {:induction false} HalfAreLiterals(parts: seq<Text>)
    requires NoAdjacent(parts)
    ensures |parts| <= 2 * Literals(parts) + 1
    ensures parts != [] && parts[0] != DOUBLE_STAR ==> |parts| <= 2 * Literals(parts)
    decreases |parts|
  {
    if parts != [] {
      assert NoAdjacent(parts[1..]) by {
        forall i | 0 <= i < |parts[1..]| - 1
          ensures parts[1..][i] != DOUBLE_STAR || parts[1..][i + 1] != DOUBLE_STAR
        {
          assert parts[i + 1] != DOUBLE_STAR || parts[i + 1 + 1] != DOUBLE_STAR;
        }
      }
      HalfAreLiterals(parts[1..]);
      assert |parts| > 1 ==> parts[0] != DOUBLE_STAR || parts[0 + 1] != DOUBLE_STAR;
    }
  }

  /** A pattern too long for a word matches no path of at most one component. */
  lemma NoShortMatch(g: Glob, steps: seq<Step>)
    requires Compiled(g) && !g.useBitmask && |steps| <= 1
    ensures !Accepts(g.raw, steps)
  {
    CompileNoAdjacent(ComponentsOf(g.raw));
    CompileMeaning(ComponentsOf(g.raw), steps);
    HalfAreLiterals(Raws(g));
    if Accepts(g.raw, steps) {
      MatchWeight(IsDoubleStar, StepMatches, Raws(g), steps, LiteralWeight, StepWeight);
      OneEach(steps);
    }
  }
}
