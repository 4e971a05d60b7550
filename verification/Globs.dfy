/** The compiled glob and its two matchers: the bit-parallel automaton and the backward table. */
module Globs {
  import opened Bytes
  import opened Matching
  import opened Utf8
  import opened Wildcard
  import opened PathComponents
  import opened GlobMeaning
  import opened Word64

  datatype GlobComponent = GlobComponent(
    raw: Text,
    folded: Text,
    chars: seq<Text>,
    isDoubleStar: bool,
    isSingleStar: bool,
    hasWildcard: bool,
    isAscii: bool,
    isFoldedAscii: bool)

  datatype Glob = Glob(
    raw: Text,
    parts: seq<GlobComponent>,
    doubleStarMask: uint64,
    activeMask: uint64,
    initialState: uint64,
    acceptBit: uint64,
    useBitmask: bool)

  // ------------------------------------------------------------ compiled parts

  /** What the constructor records about a part whose text is already collapsed. */
  function PartOf(raw: Text): GlobComponent {
    var isDouble := raw == DOUBLE_STAR;
    var wildcard := STAR in raw;
    var single := wildcard && !isDouble && raw == [STAR];
    var folded := if IsAscii(raw) then LowerText(raw) else raw;
    GlobComponent(raw, folded, if wildcard && !isDouble && !single then Characters(raw) else [],
                  isDouble, single, wildcard, IsAscii(raw), IsAscii(folded))
  }

  function PartsOf(raws: seq<Text>): seq<GlobComponent> {
    seq(|raws|, i requires 0 <= i < |raws| => PartOf(raws[i]))
  }

  /** The part texts a glob is compiled to. */
  function Raws(g: Glob): seq<Text> {
    CompileParts(ComponentsOf(g.raw))
  }

  method CompilePart(part: Text) returns (compiled: GlobComponent)
    ensures compiled == PartOf(CollapsePart(part))
  {
    var isDoubleStar := part == DOUBLE_STAR;
    var hasWildcard := STAR in part;
    var raw := part;
    var isSingleStar := false;
    CollapsePartKind(part);
    if hasWildcard && !isDoubleStar {
      raw := CollapseStarRuns(part);
      isSingleStar := raw == [STAR];
    } else if !isDoubleStar {
      CollapsePrefix(part, []);
      assert part + [] == part && part + CollapseStars([]) == part;
    }
    var isAscii := IsAsciiString(raw);
    var folded := raw;
    if isAscii {
      folded := ToAsciiLower(raw);
    }
    var isFoldedAscii := IsAsciiString(folded);
    var chars: seq<Text> := [];
    if hasWildcard && !isDoubleStar && !isSingleStar {
      chars := Utf8Characters(raw);
    }
    compiled := GlobComponent(raw, folded, chars, isDoubleStar, isSingleStar, hasWildcard, isAscii, isFoldedAscii);
  }

  /** Byte matching with folding does not see the case of the pattern. */
  lemma LowerPattern(pattern: Text, value: Text)
    ensures BytesMatch(true, LowerText(pattern), value) <==> BytesMatch(true, pattern, value)
  {
    Transport(IsStarByte, ByteEq(true), LowerText(pattern), value, IsStarByte, ByteEq(true), pattern, value);
  }

  lemma SingleStarMatches(fold: bool, value: Text)
    ensures ComponentMatches(fold, [STAR], value)
  {
    StarCharacters([]);
    assert [STAR] + [] == [STAR] && [[STAR]] + Characters([]) == [[STAR]];
    Single(IsStarChar, CharEq(fold), [STAR], Characters(value));
  }

  method ComponentMatchesExact(part: GlobComponent, value: Text) returns (matched: bool)
    requires part == PartOf(part.raw) && !part.isDoubleStar
    ensures matched <==> ComponentMatches(false, part.raw, value)
  {
    if part.isSingleStar {
      SingleStarMatches(false, value);
      return true;
    }
    if !part.hasWildcard {
      LiteralMeaning(part.raw, value);
      return part.raw == value;
    }
    var ascii := IsAsciiString(value);
    if part.isAscii && ascii {
      AsciiAgrees(false, part.raw, value);
      matched := MatchWildcardAscii(part.raw, value, false);
      return;
    }
    matched := MatchWildcardUtf8(part.chars, value, false);
  }

  method EqualsAsciiLower(lowerPattern: Text, value: Text) returns (equal: bool)
    ensures equal <==> lowerPattern == LowerText(value)
  {
    if |lowerPattern| != |value| {
      return false;
    }
    for i := 0 to |value|
      invariant forall k :: 0 <= k < i ==> lowerPattern[k] == Lower(value[k])
    {
      if lowerPattern[i] != Lower(value[i]) {
        return false;
      }
    }
    return true;
  }

  method ComponentMatchesFolded(part: GlobComponent, value: Text) returns (matched: bool)
    requires part == PartOf(part.raw) && !part.isDoubleStar
    ensures matched <==> ComponentMatches(true, part.raw, value)
  {
    if part.isSingleStar {
      SingleStarMatches(true, value);
      return true;
    }
    var ascii := IsAsciiString(value);
    if part.isFoldedAscii && ascii {
      assert part.folded == LowerText(part.raw) by { FoldedIsLower(part.raw); }
      if !part.hasWildcard {
        LiteralMeaning(part.raw, value);
        matched := EqualsAsciiLower(part.folded, value);
        FoldedEquality(part.raw, value);
        return;
      }
      FoldedIsLower(part.raw);
      LowerPattern(part.raw, value);
      AsciiAgrees(true, part.raw, value);
      matched := MatchWildcardAscii(part.folded, value, true);
      return;
    }
    if !part.hasWildcard {
      LiteralMeaning(part.raw, value);
      matched := EqualIgnoringCase(part.raw, value);
      return;
    }
    matched := MatchWildcardUtf8(part.chars, value, true);
  }

  lemma FoldedIsLower(raw: Text)
    ensures PartOf(raw).isFoldedAscii ==> IsAscii(raw) && PartOf(raw).folded == LowerText(raw)
  {}

  lemma FoldedEquality(a: Text, b: Text)
    ensures LowerText(a) == LowerText(b) <==> EqualFolded(a, b)
  {
    if LowerText(a) == LowerText(b) {
      assert |LowerText(a)| == |a| && |LowerText(b)| == |b|;
      assert forall i :: 0 <= i < |a| ==> LowerText(a)[i] == Lower(a[i]) && LowerText(b)[i] == Lower(b[i]);
    }
  }

  // ------------------------------------------------------------ construction

  /** The mask of the `**` parts, or of the others, among the first `count` parts. */
  function MaskOf(parts: seq<Text>, count: nat, doubleStars: bool): nat
    requires count <= |parts|
  {
    if count == 0 then 0
    else
      var mask := MaskOf(parts, count - 1, doubleStars);
      if (parts[count - 1] == DOUBLE_STAR) == doubleStars then Or(mask, Pow2(count - 1)) else mask
  }

  lemma {:induction false} MaskBound(parts: seq<Text>, count: nat, doubleStars: bool)
    requires count <= |parts|
    ensures MaskOf(parts, count, doubleStars) < Pow2(count)
    decreases count
  {
    if count > 0 {
      MaskBound(parts, count - 1, doubleStars);
      OrBound(MaskOf(parts, count - 1, doubleStars), Pow2(count - 1), count);
    }
  }

  lemma {:induction false} MaskBit(parts: seq<Text>, count: nat, doubleStars: bool, i: nat)
    requires count <= |parts|
    ensures Bit(MaskOf(parts, count, doubleStars), i) <==> i < count && (parts[i] == DOUBLE_STAR) == doubleStars
    decreases count
  {
    if count == 0 {
      BitZero(i);
    } else {
      MaskBit(parts, count - 1, doubleStars, i);
      BitOr(MaskOf(parts, count - 1, doubleStars), Pow2(count - 1), i);
      BitPow2(count - 1, i);
    }
  }

  /** What every constructed glob satisfies. */
  ghost predicate Compiled(g: Glob) {
    && g.parts == PartsOf(Raws(g))
    && g.useBitmask == (0 < |g.parts| < 63)
    && (g.useBitmask ==>
          && g.doubleStarMask == MaskOf(Raws(g), |g.parts|, true)
          && g.activeMask == MaskOf(Raws(g), |g.parts|, false)
          && g.initialState == Or(1, ShiftLeft(And(1, g.doubleStarMask)))
          && g.acceptBit == Pow2(|g.parts|))
  }

  lemma WordBounds()
    ensures Pow2(62) < Pow2(63) < Pow2(64)
  {
    assert Pow2(63) == 2 * Pow2(62);
    assert Pow2(64) == 2 * Pow2(63);
  }

  method CompilePartList(comps: seq<Text>) returns (parts: seq<GlobComponent>)
    ensures parts == PartsOf(CompileParts(comps))
  {
    parts := [];
    for i := 0 to |comps|
      invariant parts == PartsOf(CompileParts(comps[..i]))
    {
      var part := comps[i];
      assert comps[..i + 1][..i] == comps[..i];
      if part == DOUBLE_STAR && parts != [] && parts[|parts| - 1].isDoubleStar {
        continue;
      }
      var compiled := CompilePart(part);
      PartsAppend(CompileParts(comps[..i]), CollapsePart(part));
      parts := parts + [compiled];
    }
    assert comps[..|comps|] == comps;
  }

  lemma PartsAppend(raws: seq<Text>, raw: Text)
    ensures PartsOf(raws + [raw]) == PartsOf(raws) + [PartOf(raw)]
  {}

  method BuildMasks(parts: seq<GlobComponent>, ghost raws: seq<Text>)
    returns (doubleStarMask: uint64, activeMask: uint64)
    requires |parts| < 63 && parts == PartsOf(raws)
    ensures doubleStarMask == MaskOf(raws, |parts|, true)
    ensures activeMask == MaskOf(raws, |parts|, false)
  {
    hide Pow2, Or;
    doubleStarMask, activeMask := 0, 0;
    for i := 0 to |parts|
      invariant doubleStarMask == MaskOf(raws, i, true)
      invariant activeMask == MaskOf(raws, i, false)
    {
      MaskBound(raws, i + 1, true);
      MaskBound(raws, i + 1, false);
      Pow2Monotone(i + 1, 64);
      if parts[i].isDoubleStar {
        doubleStarMask := Or(doubleStarMask, Pow2(i));
      } else {
        activeMask := Or(activeMask, Pow2(i));
      }
    }
  }

  method CompileGlob(raw: Text) returns (g: Glob)
    ensures g.raw == raw && Compiled(g)
  {
    hide And, Or, ShiftLeft, MaskOf, PartOf;
    g := Glob(raw, [], 0, 0, 0, 0, false);
    if raw == [] {
      return;
    }
    var comps := Components(raw);
    var parts := CompilePartList(comps);
    g := g.(parts := parts);
    if parts != [] && |parts| < 63 {
      var doubleStarMask, activeMask := BuildMasks(parts, Raws(g));
      InitialBounds(doubleStarMask);
      Pow2Monotone(|parts|, 63);
      WordBounds();
      g := g.(doubleStarMask := doubleStarMask, activeMask := activeMask,
              initialState := Or(1, ShiftLeft(And(1, doubleStarMask))),
              acceptBit := Pow2(|parts|), useBitmask := true);
    }
  }

  lemma InitialBounds(mask: uint64)
    ensures And(1, mask) < Pow2(64)
    ensures Or(1, ShiftLeft(And(1, mask))) < Pow2(64)
  {
    assert Pow2(63) >= 1 by { Pow2Monotone(0, 63); }
    WordBounds();
    OrBound(1, ShiftLeft(And(1, mask)), 64);
  }

  // ------------------------------------------------------------ what a state bit means

  /** Position `p` is live after `steps`: the parts before it match, or the `**` standing there has
      swallowed the rest. */
  ghost predicate Live(parts: seq<Text>, steps: seq<Step>, p: nat) {
    p <= |parts| &&
    GlobMatches(if p < |parts| && parts[p] == DOUBLE_STAR then parts[..p + 1] else parts[..p], steps)
  }

  /** The automaton state holds exactly the live positions. */
  ghost predicate Represents(state: nat, parts: seq<Text>, steps: seq<Step>) {
    state < Pow2(63) && forall p: nat :: Bit(state, p) <==> Live(parts, steps, p)
  }

  /** Staying on a `**` that swallows the component. */
  ghost predicate Stays(state: nat, parts: seq<Text>, p: nat) {
    p < |parts| && parts[p] == DOUBLE_STAR && Bit(state, p)
  }

  /** Stepping over a part that matches the component. */
  ghost predicate Enters(state: nat, parts: seq<Text>, step: Step, p: nat) {
    0 < p <= |parts| && parts[p - 1] != DOUBLE_STAR && Bit(state, p - 1) && StepMatches(parts[p - 1], step)
  }

  /** The moves of the automaton before closure. */
  ghost predicate Moves(state: nat, parts: seq<Text>, step: Step, p: nat) {
    Stays(state, parts, p) || Enters(state, parts, step, p)
  }

  /** One closing shift: from a `**` the automaton may go on without consuming anything. */
  ghost predicate ClosedMoves(state: nat, parts: seq<Text>, step: Step, p: nat) {
    || Moves(state, parts, step, p)
    || (0 < p <= |parts| && parts[p - 1] == DOUBLE_STAR && Moves(state, parts, step, p - 1))
  }

  lemma LiveAfterDoubleStar(parts: seq<Text>, steps: seq<Step>, step: Step, p: nat)
    requires NoAdjacent(parts) && p < |parts| && parts[p] == DOUBLE_STAR
    ensures Live(parts, steps + [step], p) <==>
            Live(parts, steps, p) || (p > 0 && Live(parts, steps, p - 1) && StepMatches(parts[p - 1], step))
  {
    assert parts[..p + 1] == parts[..p] + [DOUBLE_STAR];
    SnocStar(IsDoubleStar, StepMatches, parts[..p], DOUBLE_STAR, steps, step);
    if p > 0 {
      assert parts[..p] == parts[..p - 1] + [parts[p - 1]];
      assert parts[p - 1] != DOUBLE_STAR by { assert parts[p - 1 + 1] == DOUBLE_STAR; }
      SnocLiteral(IsDoubleStar, StepMatches, parts[..p - 1], parts[p - 1], steps, step);
    }
  }

  lemma LiveAfterPart(parts: seq<Text>, steps: seq<Step>, step: Step, p: nat)
    requires p <= |parts| && (p < |parts| ==> parts[p] != DOUBLE_STAR)
    ensures Live(parts, steps + [step], p) <==>
            p > 0 && (if parts[p - 1] == DOUBLE_STAR then Live(parts, steps + [step], p - 1)
                      else Live(parts, steps, p - 1) && StepMatches(parts[p - 1], step))
  {
    if p > 0 {
      assert parts[..p] == parts[..p - 1] + [parts[p - 1]];
      if parts[p - 1] != DOUBLE_STAR {
        SnocLiteral(IsDoubleStar, StepMatches, parts[..p - 1], parts[p - 1], steps, step);
      }
    }
  }

  /** One shift is a full closure, because no two `**` are adjacent. */
  lemma StepLive(state: nat, parts: seq<Text>, steps: seq<Step>, step: Step, p: nat)
    requires NoAdjacent(parts) && Represents(state, parts, steps)
    ensures ClosedMoves(state, parts, step, p) <==> Live(parts, steps + [step], p)
  {
    if p < |parts| && parts[p] == DOUBLE_STAR {
      LiveAfterDoubleStar(parts, steps, step, p);
      assert p > 0 ==> parts[p - 1] != DOUBLE_STAR by { assert p > 0 ==> parts[p - 1 + 1] == DOUBLE_STAR; }
    } else if p <= |parts| {
      LiveAfterPart(parts, steps, step, p);
      if p > 0 && parts[p - 1] == DOUBLE_STAR {
        LiveAfterDoubleStar(parts, steps, step, p - 1);
        assert p > 1 ==> parts[p - 2] != DOUBLE_STAR by { assert p > 1 ==> parts[p - 2 + 1] == DOUBLE_STAR; }
      }
    }
  }

  lemma InitialBit(mask: uint64, p: nat)
    ensures And(1, mask) <= 1 && ShiftLeft(And(1, mask)) <= 2
    ensures Bit(Or(1, ShiftLeft(And(1, mask))), p) <==> p == 0 || (p == 1 && Bit(mask, 0))
  {
    var low := And(1, mask);
    WordBounds();
    assert Pow2(0) == 1 && Pow2(1) == 2;
    Pow2Monotone(2, 63);
    BitShift(low, p);
    BitOr(1, ShiftLeft(low), p);
    BitPow2(0, p);
    if p > 0 {
      BitAnd(1, mask, p - 1);
      BitPow2(0, p - 1);
    }
  }

  lemma InitialRepresents(g: Glob)
    requires Compiled(g) && g.useBitmask
    ensures Represents(g.initialState, Raws(g), [])
  {
    var parts := Raws(g);
    CompileNoAdjacent(ComponentsOf(g.raw));
    forall p: nat
      ensures Bit(g.initialState, p) <==> Live(parts, [], p)
    {
      InitialBit(g.doubleStarMask, p);
      MaskBit(parts, |parts|, true, 0);
      LiveInitially(parts, p);
    }
    InitialBit(g.doubleStarMask, 0);
    assert Pow2(0) == 1 && Pow2(1) == 2 && Pow2(2) == 4;
    OrBound(1, ShiftLeft(And(1, g.doubleStarMask)), 2);
    Pow2Monotone(2, 63);
  }

  lemma LiveInitially(parts: seq<Text>, p: nat)
    requires NoAdjacent(parts) && parts != []
    ensures Live(parts, [], p) <==> p == 0 || (p == 1 && parts[0] == DOUBLE_STAR)
  {
    if p <= |parts| {
      var q := if p < |parts| && parts[p] == DOUBLE_STAR then parts[..p + 1] else parts[..p];
      OnEmpty<Text, Step>(IsDoubleStar, StepMatches, q);
      if |q| >= 2 {
        assert parts[0] != DOUBLE_STAR || parts[0 + 1] != DOUBLE_STAR;
        assert !IsDoubleStar(q[0]) || !IsDoubleStar(q[1]);
      }
      if p == 1 && |parts| > 1 {
        assert parts[0] != DOUBLE_STAR || parts[0 + 1] != DOUBLE_STAR;
      }
    }
  }

  /** The accept bit tells whether the whole pattern has matched. */
  lemma AcceptBit(g: Glob, state: nat, steps: seq<Step>)
    requires Compiled(g) && g.useBitmask && Represents(state, Raws(g), steps)
    ensures And(state, g.acceptBit) != 0 <==> Accepts(g.raw, steps)
  {
    var parts := Raws(g);
    TestBit(state, |g.parts|);
    assert parts[..|parts|] == parts;
    CompileMeaning(ComponentsOf(g.raw), steps);
    assert g.raw != [] by { assert ComponentsOf(g.raw) == [] ==> parts == []; }
  }

  /** A dead state stays dead: nothing longer can match any more. */
  lemma {:induction false} DeadForever(parts: seq<Text>, steps: seq<Step>, more: seq<Step>)
    requires NoAdjacent(parts) && Represents(0, parts, steps)
    ensures Represents(0, parts, steps + more)
    decreases |more|
  {
    if more == [] {
      assert steps + more == steps;
    } else {
      var init, last := more[..|more| - 1], more[|more| - 1];
      DeadForever(parts, steps, init);
      forall p: nat
        ensures !Live(parts, steps + init + [last], p) && !Bit(0, p)
      {
        StepLive(0, parts, steps + init, last, p);
        BitZero(p);
        if p > 0 { BitZero(p - 1); }
        if p > 1 { BitZero(p - 2); }
      }
      assert steps + init + [last] == steps + more;
    }
  }
}
