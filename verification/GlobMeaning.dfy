/** What an ignore glob means, independently of how it is matched. */
module GlobMeaning {
  import opened Bytes
  import opened Matching
  import opened Utf8
  import opened Wildcard
  import opened PathComponents

  /** The answer of the filesystem for one directory; a fixed function of the directory text here. */
  datatype Sensitivity = Sensitive | Insensitive | Unknown

  datatype Env = Env(root: Text, policy: Text -> Sensitivity)

  const DOUBLE_STAR: Text := [STAR, STAR]

  /** A path component together with whether its parent directory folds case. */
  datatype Step = Step(component: Text, folds: bool)

  function IsDoubleStar(part: Text): bool { part == DOUBLE_STAR }

  ghost function StepMatches(part: Text, step: Step): bool {
    ComponentMatches(false, part, step.component) ||
    (step.folds && ComponentMatches(true, part, step.component))
  }

  /** `**` stands for any run of whole components, any other part for one matching component. */
  ghost predicate GlobMatches(parts: seq<Text>, steps: seq<Step>) {
    Matches(IsDoubleStar, StepMatches, parts, steps)
  }

  /** The directory asked for the case policy of the component after `parent`.  The table matcher and
      the automaton build this text differently when the parent text is empty. */
  function ParentText(root: Text, table: bool, first: bool, parent: Text): Text {
    if first || (!table && parent == []) then root else root + [SLASH] + parent
  }

  function StepAt(env: Env, table: bool, first: bool, parent: Text, component: Text): (step: Step)
    ensures step.component == component
  {
    Step(component, env.policy(ParentText(env.root, table, first, parent)) == Insensitive)
  }

  function Steps(env: Env, table: bool, t: Text): (steps: seq<Step>)
    ensures steps != []
    decreases |t|
  {
    var j := LastSlash(t);
    if j < 0 then [StepAt(env, table, true, [], t)]
    else Steps(env, table, t[..j]) + [StepAt(env, table, false, t[..j], t[j + 1..])]
  }

  function StepsOfPath(env: Env, table: bool, path: Text): seq<Step> {
    if path == [] then [] else Steps(env, table, path)
  }

  /** The steps of the components that end before `start`. */
  function StepsBefore(env: Env, table: bool, t: Text, start: nat): seq<Step>
    requires start <= |t|
  {
    if start == 0 then [] else Steps(env, table, t[..start - 1])
  }

  lemma StepsStep(env: Env, table: bool, t: Text, start: nat, index: nat)
    requires start <= index <= |t| && (start > 0 ==> t[start - 1] == SLASH)
    requires forall k :: start <= k < index ==> t[k] != SLASH
    ensures Steps(env, table, t[..index]) == StepsBefore(env, table, t, start) +
              [StepAt(env, table, start == 0, if start == 0 then [] else t[..start - 1], t[start..index])]
  {
    hide LastSlash, ParentText;
    SplitStep(t, start, index);
    assert t[..index][start..] == t[start..index];
    if start > 0 {
      assert t[..index][..start - 1] == t[..start - 1];
    }
  }

  /** The steps are the components, in order. */
  lemma {:induction false} StepsSplit(env: Env, table: bool, t: Text)
    ensures |Steps(env, table, t)| == |Split(t)|
    ensures forall k :: 0 <= k < |Split(t)| ==> Steps(env, table, t)[k].component == Split(t)[k]
    decreases |t|
  {
    hide LastSlash, StepAt;
    var j := LastSlash(t);
    if j >= 0 {
      StepsSplit(env, table, t[..j]);
    }
  }

  /** The policy consulted by the table matcher, by component. */
  lemma {:induction false} TableFolds(env: Env, t: Text, k: nat)
    requires k < |Split(t)|
    ensures |Steps(env, true, t)| == |Split(t)|
    ensures Steps(env, true, t)[k].folds == (env.policy(Join(env.root, Split(t)[..k])) == Insensitive)
    decreases |t|
  {
    hide LastSlash;
    StepsSplit(env, true, t);
    var j := LastSlash(t);
    if j < 0 {
      assert Split(t)[..0] == [];
    } else if k < |Split(t)| - 1 {
      TableFolds(env, t[..j], k);
      assert Split(t)[..k] == Split(t[..j])[..k];
    } else {
      JoinSplit(env.root, t[..j]);
      assert Split(t)[..k] == Split(t[..j]);
    }
  }

  /** Both matchers ask about the same directories, except that under a leading separator one asks
      about `root` where the other asks about `root/`; only a policy that tells these apart matters. */
  lemma {:induction false} SameSteps(env: Env, t: Text)
    ensures Steps(env, true, t) == Steps(env, false, t) <==>
            t == [] || t[0] != SLASH ||
            (env.policy(env.root) == Insensitive <==> env.policy(env.root + [SLASH]) == Insensitive)
    ensures |Steps(env, true, t)| == |Steps(env, false, t)|
    decreases |t|
  {
    var j := LastSlash(t);
    if j > 0 {
      SameSteps(env, t[..j]);
      assert t[..j][0] == t[0];
      assert ParentText(env.root, true, false, t[..j]) == ParentText(env.root, false, false, t[..j]);
      var a, b := Steps(env, true, t[..j]), Steps(env, false, t[..j]);
      assert Steps(env, true, t)[..|a|] == a && Steps(env, false, t)[..|b|] == b;
    } else if j == 0 {
      assert t[..0] == [] && env.root + [SLASH] + [] == env.root + [SLASH];
      assert Steps(env, true, t)[1].folds == (env.policy(env.root + [SLASH]) == Insensitive);
      assert Steps(env, false, t)[1].folds == (env.policy(env.root) == Insensitive);
    }
  }

  // ------------------------------------------------------------ prefixes

  /** The components of a path cut at a separator are a proper prefix of its components. */
  lemma {:induction false} CutPrefix(env: Env, table: bool, t: Text, e: nat)
    requires e < |t| && t[e] == SLASH
    ensures |Steps(env, table, t[..e])| < |Steps(env, table, t)|
    ensures Steps(env, table, t)[..|Steps(env, table, t[..e])|] == Steps(env, table, t[..e])
    decreases |t|
  {
    hide LastSlash, StepAt;
    var j := LastSlash(t);
    if e < j {
      assert t[..j][..e] == t[..e];
      CutPrefix(env, table, t[..j], e);
    }
  }

  /** Every non-empty run of leading components is the path cut at a separator, or the path itself. */
  lemma {:induction false} PrefixCut(env: Env, table: bool, t: Text, k: nat) returns (e: nat)
    requires 1 <= k <= |Steps(env, table, t)|
    ensures e <= |t| && (e == |t| || t[e] == SLASH)
    ensures Steps(env, table, t)[..k] == Steps(env, table, t[..e])
    decreases |t|
  {
    hide LastSlash, StepAt;
    var j := LastSlash(t);
    if k == |Steps(env, table, t)| {
      e := |t|;
      assert t[..e] == t;
    } else {
      var before := Steps(env, table, t[..j]);
      assert Steps(env, table, t)[..k] == before[..k];
      e := PrefixCut(env, table, t[..j], k);
      assert t[..j][..e] == t[..e];
    }
  }

  // ------------------------------------------------------------ ignoring

  /** The pattern matches the whole path. */
  ghost predicate Accepts(raw: Text, steps: seq<Step>) {
    raw != [] && GlobMatches(ComponentsOf(raw), steps)
  }

  /** The pattern matches the path or one of its ancestors. */
  ghost predicate AcceptsPrefix(raw: Text, steps: seq<Step>) {
    exists k :: 1 <= k <= |steps| && Accepts(raw, steps[..k])
  }

  /** A path is ignored exactly if the pattern matches some non-empty cut of it. */
  lemma AcceptsPrefixCuts(env: Env, table: bool, raw: Text, t: Text)
    ensures AcceptsPrefix(raw, Steps(env, table, t)) <==>
            exists e :: 0 <= e <= |t| && (e == |t| || t[e] == SLASH) && Accepts(raw, Steps(env, table, t[..e]))
  {
    hide LastSlash, Steps, Accepts;
    var steps := Steps(env, table, t);
    if k :| 1 <= k <= |steps| && Accepts(raw, steps[..k]) {
      var e := PrefixCut(env, table, t, k);
    }
    if e :| 0 <= e <= |t| && (e == |t| || t[e] == SLASH) && Accepts(raw, Steps(env, table, t[..e])) {
      if e == |t| {
        assert t[..e] == t && steps[..|steps|] == steps;
      } else {
        CutPrefix(env, table, t, e);
        assert Accepts(raw, steps[..|Steps(env, table, t[..e])|]);
      }
    }
  }

  /** A longer path still has the prefix that was accepted. */
  lemma AcceptsPrefixExtends(raw: Text, steps: seq<Step>, longer: seq<Step>)
    requires |steps| <= |longer| && longer[..|steps|] == steps && AcceptsPrefix(raw, steps)
    ensures AcceptsPrefix(raw, longer)
  {
    var k :| 1 <= k <= |steps| && Accepts(raw, steps[..k]);
    assert longer[..k] == steps[..k];
  }

  /** Whatever lies below an ignored path is ignored as well. */
  lemma AcceptsPrefixHereditary(env: Env, table: bool, raw: Text, t: Text, below: Text)
    requires AcceptsPrefix(raw, Steps(env, table, t)) && IsDescendant(below, t)
    ensures AcceptsPrefix(raw, Steps(env, table, below))
  {
    hide LastSlash, Steps, Accepts, AcceptsPrefix;
    CutPrefix(env, table, below, |t|);
    AcceptsPrefixExtends(raw, Steps(env, table, t), Steps(env, table, below));
  }

  // ------------------------------------------------------------ what patterns stand for

  /** The component is the part, up to the case of ASCII letters where the directory folds case. */
  predicate SameName(part: Text, step: Step) {
    part == step.component ||
    (step.folds && |part| == |step.component|
     && forall i :: 0 <= i < |part| ==> SameLetter(part[i], step.component[i]))
  }

  lemma LiteralStep(part: Text, step: Step)
    requires STAR !in part
    ensures StepMatches(part, step) <==> SameName(part, step)
  {
    LiteralMeaning(part, step.component);
    FoldedMeans(part, step.component);
  }

  /** In a directory that folds case, the case of ASCII letters never matters, with or without stars. */
  lemma CaseBlind(part: Text, other: Text, component: Text, variant: Text)
    requires |part| == |other| && forall i :: 0 <= i < |part| ==> SameLetter(part[i], other[i])
    requires |component| == |variant| && forall i :: 0 <= i < |component| ==> SameLetter(component[i], variant[i])
    ensures StepMatches(part, Step(component, true)) <==> StepMatches(other, Step(variant, true))
  {
    FoldedMeans(part, other);
    FoldedMeans(component, variant);
    FoldedCharacters(part, other);
    FoldedCharacters(component, variant);
    ExactFolds(part, component);
    ExactFolds(other, variant);
    Transport(IsStarChar, CharEq(true), Characters(part), Characters(component),
              IsStarChar, CharEq(true), Characters(other), Characters(variant));
  }

  /** What matches exactly matches up to case. */
  lemma ExactFolds(part: Text, component: Text)
    ensures ComponentMatches(false, part, component) ==> ComponentMatches(true, part, component)
  {
    if ComponentMatches(false, part, component) {
      Weaker(IsStarChar, CharEq(false), CharEq(true), Characters(part), Characters(component));
    }
  }

  /** The steps begin with matches of the components of the pattern, one by one. */
  ghost predicate BeginsWith(raw: Text, steps: seq<Step>) {
    |Split(raw)| <= |steps| && forall i :: 0 <= i < |Split(raw)| ==> StepMatches(Split(raw)[i], steps[i])
  }

  lemma LiteralAccepts(raw: Text, steps: seq<Step>)
    requires raw != [] && STAR !in raw
    ensures Accepts(raw, steps) <==> BeginsWith(raw, steps) && |Split(raw)| == |steps|
  {
    hide LastSlash, StepMatches;
    PartsFrom(raw);
    Literal(IsDoubleStar, StepMatches, Split(raw), steps);
  }

  lemma LiteralCuts(raw: Text, steps: seq<Step>)
    requires raw != [] && STAR !in raw
    ensures AcceptsPrefix(raw, steps) <==> BeginsWith(raw, steps)
  {
    hide LastSlash, StepMatches, Accepts, Split;
    var n := |Split(raw)|;
    forall k | 0 <= k <= |steps|
      ensures Accepts(raw, steps[..k]) <==> k == n && BeginsWith(raw, steps[..k])
    {
      LiteralAccepts(raw, steps[..k]);
    }
    if BeginsWith(raw, steps) {
      assert BeginsWith(raw, steps[..n]) && Accepts(raw, steps[..n]);
    }
  }

  /** A pattern without stars matches exactly the path with its components, each up to case where the
      directory it is in folds case, and ignores exactly that path and everything below it. */
  lemma LiteralIgnores(env: Env, table: bool, raw: Text, t: Text)
    requires raw != [] && STAR !in raw && t != [] && t[0] != SLASH
    ensures var begins := |Split(raw)| <= |Split(t)| && forall i :: 0 <= i < |Split(raw)| ==>
                SameName(Split(raw)[i], Step(Split(t)[i], env.policy(Join(env.root, Split(t)[..i])) == Insensitive));
            && (AcceptsPrefix(raw, Steps(env, table, t)) <==> begins)
            && (Accepts(raw, StepsOfPath(env, table, t)) <==> begins && |Split(raw)| == |Split(t)|)
  {
    hide LastSlash, StepMatches, SameName, Join, AcceptsPrefix, Accepts, Split, Steps;
    SameSteps(env, t);
    var steps, ps := Steps(env, true, t), Split(raw);
    StepsSplit(env, true, t);
    PartsFrom(raw);
    LiteralCuts(raw, steps);
    LiteralAccepts(raw, steps);
    forall i | 0 <= i < |ps| && |ps| <= |steps|
      ensures StepMatches(ps[i], steps[i]) <==>
              SameName(ps[i], Step(Split(t)[i], env.policy(Join(env.root, Split(t)[..i])) == Insensitive))
    {
      TableFolds(env, t, i);
      LiteralStep(ps[i], steps[i]);
    }
  }

  lemma {:induction false} PartsFrom(raw: Text)
    ensures forall i, b :: 0 <= i < |Split(raw)| && b in Split(raw)[i] ==> b in raw
    decreases |raw|
  {
    hide LastSlash;
    var j := LastSlash(raw);
    if j >= 0 {
      PartsFrom(raw[..j]);
      assert forall b :: b in raw[..j] || b in raw[j + 1..] ==> b in raw;
    }
  }

  /** `*` before a text stands for whatever precedes it in the component. */
  lemma StarSuffix(suffix: Text, step: Step)
    requires suffix != [] && STAR !in suffix && !IsTail(suffix[0])
    ensures StepMatches([42] + suffix, step) <==>
            |suffix| <= |step.component| &&
            SameName(suffix, Step(step.component[|step.component| - |suffix|..], step.folds))
  {
    hide IsTail, ComponentMatches;
    SuffixMatches(false, suffix, step.component);
    SuffixMatches(true, suffix, step.component);
    if |suffix| <= |step.component| {
      FoldedMeans(suffix, step.component[|step.component| - |suffix|..]);
    }
  }

  lemma SuffixMatches(fold: bool, suffix: Text, component: Text)
    requires suffix != [] && STAR !in suffix && !IsTail(suffix[0])
    ensures ComponentMatches(fold, [42] + suffix, component) <==>
            |suffix| <= |component| && SameEnd(fold, suffix, component[|component| - |suffix|..])
  {
    hide Characters, SameEnd, Matches;
    var p, v := Characters(suffix), Characters(component);
    StarFirst(suffix);
    StarSplits(IsStarChar, CharEq(fold), [[42]] + p, v);
    assert ([[42]] + p)[1..] == p;
    if |suffix| <= |component| && SameEnd(fold, suffix, component[|component| - |suffix|..]) {
      EndMatches(fold, suffix, component);
    }
    if k :| 0 <= k <= |v| && Matches(IsStarChar, CharEq(fold), p, v[k..]) {
      MatchesEnd(fold, suffix, component, k);
    }
  }

  predicate SameEnd(fold: bool, suffix: Text, rest: Text) {
    if fold then EqualFolded(suffix, rest) else suffix == rest
  }

  lemma StarFirst(suffix: Text)
    requires suffix != [] && !IsTail(suffix[0])
    ensures Characters([42] + suffix) == [[42]] + Characters(suffix)
  {
    SplitsBefore([42], suffix);
    AsciiCharacters([42]);
    assert Characters([42]) == [[42]];
  }

  lemma EndMatches(fold: bool, suffix: Text, component: Text)
    requires suffix != [] && STAR !in suffix && !IsTail(suffix[0])
    requires |suffix| <= |component| && SameEnd(fold, suffix, component[|component| - |suffix|..])
    ensures exists k :: 0 <= k <= |Characters(component)| &&
                        Matches(IsStarChar, CharEq(fold), Characters(suffix), Characters(component)[k..])
  {
    hide Characters, Matches;
    var cut := |component| - |suffix|;
    var before, rest := component[..cut], component[cut..];
    LiteralMeaning(suffix, rest);
    assert component == before + rest;
    assert !IsTail(rest[0]);
    SplitsBefore(before, rest);
    assert Characters(component)[|Characters(before)|..] == Characters(rest);
  }

  lemma MatchesEnd(fold: bool, suffix: Text, component: Text, k: nat)
    requires STAR !in suffix && k <= |Characters(component)|
    requires Matches(IsStarChar, CharEq(fold), Characters(suffix), Characters(component)[k..])
    ensures |suffix| <= |component| && SameEnd(fold, suffix, component[|component| - |suffix|..])
  {
    hide Characters, Matches, Flatten;
    var p, v := Characters(suffix), Characters(component);
    Lossless(suffix);
    Lossless(component);
    FlattenAt(v, k);
    NoStarCharacters(suffix);
    LiteralFlat(fold, p, v[k..]);
  }

  lemma LiteralFlat(fold: bool, p: seq<Text>, v: seq<Text>)
    requires (forall c :: c in p ==> !IsStarChar(c)) && Matches(IsStarChar, CharEq(fold), p, v)
    ensures |Flatten(p)| == |Flatten(v)| && SameEnd(fold, Flatten(p), Flatten(v))
  {
    hide Matches, Flatten;
    Literal(IsStarChar, CharEq(fold), p, v);
    if fold {
      FlattenFolded(p, v);
    } else {
      assert p == v;
    }
  }

  lemma {:induction false} FlattenAt(v: seq<Text>, k: nat)
    requires k <= |v|
    ensures |Flatten(v[k..])| <= |Flatten(v)| && Flatten(v)[|Flatten(v)| - |Flatten(v[k..])|..] == Flatten(v[k..])
    decreases k
  {
    if k == 0 {
      assert v[0..] == v;
    } else {
      FlattenAt(v[1..], k - 1);
      assert v[1..][k - 1..] == v[k..];
    }
  }

  /** `**` and a separator before a pattern stand for any run of leading components. */
  lemma AnyDepth(raw: Text, steps: seq<Step>)
    requires raw != []
    ensures Accepts([42, 42, 47] + raw, steps) <==> exists k :: 0 <= k <= |steps| && Accepts(raw, steps[k..])
  {
    hide StepMatches;
    DeeperSplit(raw);
    assert ([[42, 42]] + Split(raw))[1..] == Split(raw);
  }

  lemma {:induction false} DeeperSplit(raw: Text)
    ensures Split([42, 42, 47] + raw) == [[42, 42]] + Split(raw)
    decreases |raw|
  {
    hide LastSlash;
    var t, j := [42, 42, 47] + raw, LastSlash(raw);
    if j < 0 {
      LastSlashIs(t, 2);
      LastSlashIs(t[..2], -1);
      assert t[..2] == [42, 42] && t[3..] == raw;
    } else {
      LastSlashIs(t, j + 3);
      assert t[..j + 3] == [42, 42, 47] + raw[..j] && t[j + 4..] == raw[j + 1..];
      DeeperSplit(raw[..j]);
    }
  }

  // ------------------------------------------------------------ compilation keeps the meaning

  /** Compilation of one part: runs of `*` are collapsed, except in the part `**` itself. */
  function CollapsePart(part: Text): Text {
    if part == DOUBLE_STAR then part else CollapseStars(part)
  }

  /** Compilation of a pattern: repeated `**` parts are dropped. */
  function CompileParts(comps: seq<Text>): seq<Text> {
    if comps == [] then []
    else
      var earlier := CompileParts(comps[..|comps| - 1]);
      var part := comps[|comps| - 1];
      if part == DOUBLE_STAR && earlier != [] && earlier[|earlier| - 1] == DOUBLE_STAR then earlier
      else earlier + [CollapsePart(part)]
  }

  predicate NoAdjacent(parts: seq<Text>) {
    forall i :: 0 <= i < |parts| - 1 ==> parts[i] != DOUBLE_STAR || parts[i + 1] != DOUBLE_STAR
  }

  /** Only the part `**` is left with two stars in a row, and no part gains or loses its last star. */
  lemma CollapsePartKind(part: Text)
    ensures CollapsePart(part) == DOUBLE_STAR <==> part == DOUBLE_STAR
    ensures STAR in CollapsePart(part) <==> STAR in part
    ensures part != DOUBLE_STAR ==>
              forall i, j :: 0 <= i < j < |CollapsePart(part)| && j == i + 1 ==>
                               CollapsePart(part)[i] != STAR || CollapsePart(part)[j] != STAR
  {
    var c := CollapseStars(part);
    CollapseNoRuns(part);
    if |c| == 2 {
      assert c[0] != STAR || c[1] != STAR;
    }
  }

  lemma {:induction false} CompileNoAdjacent(comps: seq<Text>)
    ensures NoAdjacent(CompileParts(comps))
    ensures comps != [] ==> CompileParts(comps) != [] &&
                            (CompileParts(comps)[|CompileParts(comps)| - 1] == DOUBLE_STAR <==>
                             comps[|comps| - 1] == DOUBLE_STAR)
    decreases |comps|
  {
    if comps != [] {
      CompileNoAdjacent(comps[..|comps| - 1]);
      CollapsePartKind(comps[|comps| - 1]);
    }
  }

  lemma CollapsePartMeaning(part: Text, step: Step)
    requires part != DOUBLE_STAR
    ensures StepMatches(CollapsePart(part), step) <==> StepMatches(part, step)
  {
    CollapseMeaning(false, part, Characters(step.component));
    CollapseMeaning(true, part, Characters(step.component));
  }

  lemma OnePartMeaning(part: Text, u: seq<Step>)
    ensures GlobMatches([CollapsePart(part)], u) <==> GlobMatches([part], u)
  {
    Single(IsDoubleStar, StepMatches, CollapsePart(part), u);
    Single(IsDoubleStar, StepMatches, part, u);
    CollapsePartKind(part);
    if part != DOUBLE_STAR && |u| == 1 {
      CollapsePartMeaning(part, u[0]);
    }
  }

  /** A compiled pattern matches exactly what its components match. */
  lemma {:induction false} CompileMeaning(comps: seq<Text>, steps: seq<Step>)
    ensures GlobMatches(CompileParts(comps), steps) <==> GlobMatches(comps, steps)
    decreases |comps|
  {
    if comps != [] {
      var init, part := comps[..|comps| - 1], comps[|comps| - 1];
      var earlier := CompileParts(init);
      assert comps == init + [part];
      forall u: seq<Step> { CompileMeaning(init, u); }
      if part == DOUBLE_STAR && earlier != [] && earlier[|earlier| - 1] == DOUBLE_STAR {
        RepeatedDoubleStar(init, earlier, steps);
      } else {
        Concat(IsDoubleStar, StepMatches, init, [part], steps);
        Concat(IsDoubleStar, StepMatches, earlier, [CollapsePart(part)], steps);
        forall k | 0 <= k <= |steps| { OnePartMeaning(part, steps[k..]); }
        assert forall k :: 0 <= k <= |steps| ==>
                             (GlobMatches(earlier, steps[..k]) <==> GlobMatches(init, steps[..k]));
      }
    }
  }

  lemma RepeatedDoubleStar(init: seq<Text>, earlier: seq<Text>, steps: seq<Step>)
    requires forall u: seq<Step> :: GlobMatches(earlier, u) <==> GlobMatches(init, u)
    requires earlier != [] && earlier[|earlier| - 1] == DOUBLE_STAR
    ensures GlobMatches(earlier, steps) <==> GlobMatches(init + [DOUBLE_STAR], steps)
  {
    var q := earlier[..|earlier| - 1];
    assert earlier == q + [DOUBLE_STAR];
    StarTail(IsDoubleStar, StepMatches, init, DOUBLE_STAR, steps);
    if GlobMatches(earlier, steps) {
      assert steps[..|steps|] == steps && GlobMatches(init, steps[..|steps|]);
    }
    if k :| 0 <= k <= |steps| && GlobMatches(init, steps[..k]) {
      assert GlobMatches(earlier, steps[..k]);
      StarAbsorbsBehind(IsDoubleStar, StepMatches, q, DOUBLE_STAR, steps, k);
    }
  }
}
