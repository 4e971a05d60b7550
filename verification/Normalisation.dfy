/** The glob clean-up of the watcher's constructor: which patterns it may shorten. */
module Normalisation {
  import opened Bytes
  import opened Matching
  import opened Utf8
  import opened Wildcard
  import opened PathComponents
  import opened GlobMeaning

  const SLASH_TAIL: Text := [SLASH, STAR, STAR]
  const BACKSLASH_TAIL: Text := [BACKSLASH, STAR, STAR]

  predicate EndsWith(t: Text, tail: Text) {
    |t| >= |tail| && t[|t| - |tail|..] == tail
  }

  // What is left of a pattern when its `/**` and `\**` endings are removed.
  function Strip(raw: Text): Text {
    if |raw| > 3 && (EndsWith(raw, SLASH_TAIL) || EndsWith(raw, BACKSLASH_TAIL)) then Strip(raw[..|raw| - 3]) else raw
  }

  /** The clean-up never takes its backslash branch on this pattern. */
  predicate StripsOnlySlash(raw: Text) {
    |raw| > 3 ==> !EndsWith(raw, BACKSLASH_TAIL) && (EndsWith(raw, SLASH_TAIL) ==> StripsOnlySlash(raw[..|raw| - 3]))
  }

  method StripGlob(raw: Text) returns (normalized: Text)
    ensures normalized == Strip(raw)
  {
    normalized := raw;
    while |normalized| > 3 &&
          (EndsWith(normalized, SLASH_TAIL) || EndsWith(normalized, BACKSLASH_TAIL))
      invariant Strip(normalized) == Strip(raw)
      decreases |normalized|
    {
      normalized := normalized[..|normalized| - 3];
    }
  }

  /** Two patterns ignore the same paths. */
  ghost predicate SameIgnored(raw: Text, other: Text) {
    forall steps: seq<Step> :: steps != [] ==> (AcceptsPrefix(raw, steps) <==> AcceptsPrefix(other, steps))
  }

  // ------------------------------------------------------------ the `/**` branch

  lemma SplitTail(raw: Text)
    requires |raw| > 3 && EndsWith(raw, SLASH_TAIL)
    ensures ComponentsOf(raw) == ComponentsOf(raw[..|raw| - 3]) + [DOUBLE_STAR]
  {
    var j := |raw| - 3;
    assert raw[j..] == SLASH_TAIL;
    assert raw[j] == SLASH_TAIL[0] && raw[j + 1] == SLASH_TAIL[1] && raw[j + 2] == SLASH_TAIL[2];
    LastSlashIs(raw, j);
    assert raw[j + 1..] == DOUBLE_STAR;
  }

  /** Ignoring everything below what a pattern matches is what ignoring an ancestor does anyway. */
  lemma SlashTailMeaning(raw: Text)
    requires |raw| > 3 && EndsWith(raw, SLASH_TAIL)
    ensures SameIgnored(raw[..|raw| - 3], raw)
  {
    var shorter := raw[..|raw| - 3];
    var p := ComponentsOf(shorter);
    SplitTail(raw);
    forall steps: seq<Step> | steps != []
      ensures AcceptsPrefix(raw, steps) <==> AcceptsPrefix(shorter, steps)
    {
      if k :| 1 <= k <= |steps| && Accepts(shorter, steps[..k]) {
        assert steps[..k][..k] == steps[..k];
        StarTail(IsDoubleStar, StepMatches, p, DOUBLE_STAR, steps[..k]);
        assert Accepts(raw, steps[..k]);
      }
      if k :| 1 <= k <= |steps| && Accepts(raw, steps[..k]) {
        StarTail(IsDoubleStar, StepMatches, p, DOUBLE_STAR, steps[..k]);
        var i :| 0 <= i <= |steps[..k]| && GlobMatches(p, steps[..k][..i]);
        assert steps[..k][..i] == steps[..i];
        if i == 0 {
          FirstStepToo(p, steps);
          assert Accepts(shorter, steps[..1]);
        } else {
          assert Accepts(shorter, steps[..i]);
        }
      }
    }
  }

  /** A pattern that matches nothing at all consists of `**` and matches one component as well. */
  lemma FirstStepToo(p: seq<Text>, steps: seq<Step>)
    requires p != [] && steps != [] && GlobMatches(p, steps[..0])
    ensures GlobMatches(p, steps[..1])
  {
    OnEmpty<Text, Step>(IsDoubleStar, StepMatches, p);
    assert steps[..0] == [] && steps[..1][1..] == [];
    assert steps[..1] == [steps[0]];
    StarAbsorbs(IsDoubleStar, StepMatches, p, steps[..1], 1);
  }

  // Removing `/**` endings never changes what is ignored.
  lemma {:induction false} StripMeaning(raw: Text)
    requires StripsOnlySlash(raw)
    ensures SameIgnored(Strip(raw), raw)
    decreases |raw|
  {
    if |raw| > 3 && EndsWith(raw, SLASH_TAIL) {
      SlashTailMeaning(raw);
      StripMeaning(raw[..|raw| - 3]);
    }
  }

  // ------------------------------------------------------------ the `\**` branch

  /** The pattern read as a path, with `x` where a `*` stands. */
  function Instance(t: Text): Text {
    seq(|t|, i requires 0 <= i < |t| => if t[i] == STAR then 120 else t[i])
  }

  function Backslashes(t: Text): nat {
    if t == [] then 0 else (if t[0] == BACKSLASH then 1 else 0) + Backslashes(t[1..])
  }

  function StepBackslashes(step: Step): nat { Backslashes(step.component) }

  lemma {:induction false} BackslashesAppend(s: Text, t: Text)
    ensures Backslashes(s + t) == Backslashes(s) + Backslashes(t)
    decreases |s|
  {
    if s == [] {
      assert s + t == t;
    } else {
      assert (s + t)[1..] == s[1..] + t && (s + t)[0] == s[0];
      BackslashesAppend(s[1..], t);
    }
  }

  lemma BackslashesCut(t: Text, j: nat)
    requires j < |t| && t[j] == SLASH
    ensures Backslashes(t) == Backslashes(t[..j]) + Backslashes(t[j + 1..])
  {
    BackslashesAppend(t[..j], t[j..]);
    assert t == t[..j] + t[j..] && t[j..][1..] == t[j + 1..];
  }

  lemma {:induction false} BackslashesFlatten(cs: seq<Text>)
    ensures Sum(Backslashes, cs) == Backslashes(Flatten(cs))
    decreases |cs|
  {
    if cs != [] {
      BackslashesFlatten(cs[1..]);
      BackslashesAppend(cs[0], Flatten(cs[1..]));
    }
  }

  lemma {:induction false} BackslashesFolded(a: Text, b: Text)
    requires EqualFolded(a, b)
    ensures Backslashes(a) == Backslashes(b)
    decreases |a|
  {
    if a != [] {
      assert Lower(a[0]) == Lower(b[0]);
      BackslashesFolded(a[1..], b[1..]);
    }
  }

  /** A component has at least the backslashes of every component pattern that matches it. */
  lemma ComponentBackslashes(fold: bool, pattern: Text, value: Text)
    requires ComponentMatches(fold, pattern, value)
    ensures Backslashes(pattern) <= Backslashes(value)
  {
    forall x, a | CharEq(fold)(x, a)
      ensures Backslashes(x) <= Backslashes(a)
    {
      if fold { BackslashesFolded(x, a); }
    }
    assert Backslashes([STAR]) == 0;
    MatchWeight(IsStarChar, CharEq(fold), Characters(pattern), Characters(value), Backslashes, Backslashes);
    BackslashesFlatten(Characters(pattern));
    BackslashesFlatten(Characters(value));
    Lossless(pattern);
    Lossless(value);
  }

  lemma {:induction false} SplitBackslashes(t: Text)
    ensures Sum(Backslashes, Split(t)) == Backslashes(t)
    decreases |t|
  {
    hide LastSlash;
    var j := LastSlash(t);
    if j < 0 {
      assert Split(t)[1..] == [];
    } else {
      SplitBackslashes(t[..j]);
      SumAppend(Backslashes, Split(t[..j]), [t[j + 1..]]);
      BackslashesCut(t, j);
    }
  }

  lemma {:induction false} StepsBackslashes(env: Env, table: bool, t: Text)
    ensures Sum(StepBackslashes, Steps(env, table, t)) == Backslashes(t)
    decreases |t|
  {
    hide LastSlash, ParentText, StepAt;
    var j := LastSlash(t);
    if j >= 0 {
      StepsBackslashes(env, table, t[..j]);
      var last := StepAt(env, table, false, t[..j], t[j + 1..]);
      SumAppend(StepBackslashes, Steps(env, table, t[..j]), [last]);
      assert [last][1..] == [];
      BackslashesCut(t, j);
    }
  }

  /** An ignored path, or its ignored ancestor, has at least the backslashes of the pattern. */
  lemma IgnoredBackslashes(raw: Text, steps: seq<Step>)
    requires AcceptsPrefix(raw, steps)
    ensures Backslashes(raw) <= Sum(StepBackslashes, steps)
  {
    hide LastSlash;
    var k :| 1 <= k <= |steps| && Accepts(raw, steps[..k]);
    forall part, step | part != DOUBLE_STAR && StepMatches(part, step)
      ensures Backslashes(part) <= StepBackslashes(step)
    {
      if ComponentMatches(false, part, step.component) {
        ComponentBackslashes(false, part, step.component);
      } else {
        ComponentBackslashes(true, part, step.component);
      }
    }
    assert Backslashes(DOUBLE_STAR) == 0;
    MatchWeight(IsDoubleStar, StepMatches, ComponentsOf(raw), steps[..k], Backslashes, StepBackslashes);
    SplitBackslashes(raw);
    SumAppend(StepBackslashes, steps[..k], steps[k..]);
    assert steps[..k] + steps[k..] == steps;
  }

  lemma {:induction false} InstanceCharacters(t: Text)
    ensures |Characters(Instance(t))| == |Characters(t)|
    ensures forall i :: 0 <= i < |Characters(t)| ==>
                          Characters(t)[i] == [STAR] || Characters(Instance(t))[i] == Characters(t)[i]
    decreases |t|
  {
    if t != [] {
      var u, n := Instance(t), CharLength(t);
      assert forall k: nat :: TailAt(u, k) == TailAt(t, k);
      assert CharLength(u) == n;
      assert u[n..] == Instance(t[n..]);
      InstanceCharacters(t[n..]);
      if t[..n] != [STAR] {
        InstanceCharacter(t, n);
      }
    }
  }

  lemma InstanceCharacter(t: Text, n: nat)
    requires t != [] && n == CharLength(t) && t[..n] != [STAR]
    ensures Instance(t)[..n] == t[..n]
  {
    FrontCharacter(t);
    assert n == 1 ==> t[..1] == [t[0]];
  }

  lemma {:induction false} InstanceElements(p: seq<Text>, v: seq<Text>)
    requires |p| == |v| && forall i :: 0 <= i < |p| ==> p[i] == [STAR] || v[i] == p[i]
    ensures CharsMatch(false, p, v)
    decreases |p|
  {
    if p != [] {
      InstanceElements(p[1..], v[1..]);
      if p[0] == [STAR] {
        assert CharsMatch(false, p[1..], v[1..]);
      }
    }
  }

  lemma InstancePart(part: Text, step: Step)
    requires step.component == Instance(part)
    ensures StepMatches(part, step)
  {
    InstanceCharacters(part);
    InstanceElements(Characters(part), Characters(step.component));
  }

  lemma AcceptOneMore(parts: seq<Text>, part: Text, before: seq<Step>, last: Step)
    requires GlobMatches(parts, before) && StepMatches(part, last)
    ensures GlobMatches(parts + [part], before + [last])
  {
    if part == DOUBLE_STAR {
      StarTail(IsDoubleStar, StepMatches, parts, part, before + [last]);
      assert (before + [last])[..|before|] == before;
    } else {
      SnocLiteral(IsDoubleStar, StepMatches, parts, part, before, last);
    }
  }

  lemma OnePartAccepted(part: Text, step: Step)
    requires StepMatches(part, step)
    ensures GlobMatches([part], [step])
  {
    Single(IsDoubleStar, StepMatches, part, [step]);
  }

  /** The last component of a pattern and of its instance. */
  lemma InstanceSteps(env: Env, table: bool, t: Text) returns (last: Step)
    ensures LastSlash(t) < 0 ==> Split(t) == [t] && Steps(env, table, Instance(t)) == [last]
    ensures LastSlash(t) >= 0 ==>
              && Split(t) == Split(t[..LastSlash(t)]) + [t[LastSlash(t) + 1..]]
              && Steps(env, table, Instance(t)) == Steps(env, table, Instance(t[..LastSlash(t)])) + [last]
    ensures last.component == Instance(t[LastSlash(t) + 1..])
  {
    hide LastSlash, StepAt, Instance;
    var j, u := LastSlash(t), Instance(t);
    InstanceSlash(t);
    if j < 0 {
      last := StepAt(env, table, true, [], u);
      assert t[j + 1..] == t;
    } else {
      InstanceParts(t, j);
      last := StepAt(env, table, false, u[..j], u[j + 1..]);
    }
  }

  lemma InstanceParts(t: Text, j: nat)
    requires j < |t|
    ensures |Instance(t)| == |t|
    ensures Instance(t)[..j] == Instance(t[..j]) && Instance(t)[j + 1..] == Instance(t[j + 1..])
  {}

  lemma InstanceSlash(t: Text)
    ensures LastSlash(Instance(t)) == LastSlash(t)
  {
    LastSlashIs(Instance(t), LastSlash(t));
  }

  /** A pattern matches its own instance. */
  lemma {:induction false} InstanceAccepted(env: Env, table: bool, t: Text)
    ensures GlobMatches(Split(t), Steps(env, table, Instance(t)))
    decreases |t|
  {
    hide LastSlash, Steps, Split, GlobMatches, StepMatches;
    var j := LastSlash(t);
    var last := InstanceSteps(env, table, t);
    InstancePart(t[j + 1..], last);
    if j < 0 {
      assert t[j + 1..] == t;
      OnePartAccepted(t, last);
    } else {
      InstanceAccepted(env, table, t[..j]);
      AcceptOneMore(Split(t[..j]), t[j + 1..], Steps(env, table, Instance(t[..j])), last);
    }
  }

  lemma {:induction false} InstanceBackslashes(t: Text)
    ensures Backslashes(Instance(t)) == Backslashes(t)
    decreases |t|
  {
    if t != [] {
      assert Instance(t)[1..] == Instance(t[1..]);
      InstanceBackslashes(t[1..]);
    }
  }

  lemma {:induction false} StripBackslashes(raw: Text)
    ensures Backslashes(Strip(raw)) <= Backslashes(raw)
    ensures !StripsOnlySlash(raw) ==> Backslashes(Strip(raw)) < Backslashes(raw)
    ensures raw != [] ==> Strip(raw) != []
    decreases |raw|
  {
    if |raw| > 3 && (EndsWith(raw, SLASH_TAIL) || EndsWith(raw, BACKSLASH_TAIL)) {
      var j := |raw| - 3;
      StripBackslashes(raw[..j]);
      assert raw == raw[..j] + raw[j..];
      BackslashesAppend(raw[..j], raw[j..]);
      assert EndsWith(raw, BACKSLASH_TAIL) ==> raw[j..][0] == BACKSLASH && Backslashes(raw[j..]) >= 1;
    }
  }

  /** Taking the backslash branch always changes what is ignored: the shortened pattern ignores its own
      instance, which has too few backslashes for the pattern as it was given. */
  lemma BackslashTailChanges(env: Env, table: bool, raw: Text)
    requires !StripsOnlySlash(raw)
    ensures AcceptsPrefix(Strip(raw), Steps(env, table, Instance(Strip(raw))))
    ensures !AcceptsPrefix(raw, Steps(env, table, Instance(Strip(raw))))
  {
    hide Steps, GlobMatches;
    var kept := Strip(raw);
    var steps := Steps(env, table, Instance(kept));
    StripBackslashes(raw);
    InstanceAccepted(env, table, kept);
    assert steps[..|steps|] == steps && Accepts(kept, steps[..|steps|]);
    StepsBackslashes(env, table, Instance(kept));
    InstanceBackslashes(kept);
    if AcceptsPrefix(raw, steps) {
      IgnoredBackslashes(raw, steps);
    }
  }

  // The clean-up preserves the ignore decision exactly on the patterns it shortens by `/**` only.
  lemma StripExact(raw: Text)
    ensures SameIgnored(Strip(raw), raw) <==> StripsOnlySlash(raw)
  {
    if StripsOnlySlash(raw) {
      StripMeaning(raw);
    } else {
      var env := Env([], (d: Text) => Unknown);
      BackslashTailChanges(env, false, raw);
      assert Steps(env, false, Instance(Strip(raw))) != [];
    }
  }
}
