/** The two matchers for `*` inside one path component, and the relation both decide. */
module Wildcard {
  import opened Bytes
  import opened Matching
  import opened Utf8

  // --------------------------------------------------------------- meaning

  function IsStarByte(b: byte): bool { b == STAR }

  function SameByte(a: byte, b: byte): bool { a == b }

  function SameLower(a: byte, b: byte): bool { Lower(a) == Lower(b) }

  function ByteEq(fold: bool): (byte, byte) -> bool {
    if fold then SameLower else SameByte
  }

  function IsStarChar(c: Text): bool { c == [STAR] }

  function SameText(a: Text, b: Text): bool { a == b }

  function SameFolded(a: Text, b: Text): bool { EqualFolded(a, b) }

  function CharEq(fold: bool): (Text, Text) -> bool {
    if fold then SameFolded else SameText
  }

  ghost predicate BytesMatch(fold: bool, pattern: Text, value: Text) {
    Matches(IsStarByte, ByteEq(fold), pattern, value)
  }

  ghost predicate CharsMatch(fold: bool, pattern: seq<Text>, value: seq<Text>) {
    Matches(IsStarChar, CharEq(fold), pattern, value)
  }

  /** What a component pattern means: `*` stands for any run of characters of the component. */
  ghost predicate ComponentMatches(fold: bool, pattern: Text, value: Text) {
    CharsMatch(fold, Characters(pattern), Characters(value))
  }

  // --------------------------------------------------------------- greedy matcher

  ghost predicate From(fold: bool, pattern: Text, value: Text, i: nat, j: nat) {
    At(IsStarByte, ByteEq(fold), pattern, value, i, j)
  }

  lemma FromStar(fold: bool, pattern: Text, value: Text, i: nat, j: nat)
    requires i < |pattern| && j <= |value| && pattern[i] == STAR
    ensures From(fold, pattern, value, i, j) <==>
            From(fold, pattern, value, i + 1, j) || From(fold, pattern, value, i, j + 1)
  {
    AtStar(IsStarByte, ByteEq(fold), pattern, value, i, j);
  }

  lemma FromLiteral(fold: bool, pattern: Text, value: Text, i: nat, j: nat)
    requires i < |pattern| && j <= |value| && pattern[i] != STAR
    ensures From(fold, pattern, value, i, j) <==>
            j < |value| && ByteEq(fold)(pattern[i], value[j]) && From(fold, pattern, value, i + 1, j + 1)
  {
    AtLiteral(IsStarByte, ByteEq(fold), pattern, value, i, j);
  }

  /** A literal run occurs in the value where it is tried: it consumes exactly its own length. */
  lemma {:induction false} FromRun(fold: bool, pattern: Text, value: Text, i: nat, q: nat, j: nat)
    requires i <= q <= |pattern|
    requires forall k :: i <= k < q ==> pattern[k] != STAR
    requires From(fold, pattern, value, i, j)
    ensures From(fold, pattern, value, q, j + (q - i))
    decreases q - i
  {
    if i < q {
      FromLiteral(fold, pattern, value, i, j);
      FromRun(fold, pattern, value, i + 1, q, j + 1);
    }
  }

  lemma {:induction false} FromStarEarlier(fold: bool, pattern: Text, value: Text, i: nat, j: nat, j': nat)
    requires i < |pattern| && pattern[i] == STAR && j <= j'
    requires From(fold, pattern, value, i, j')
    ensures From(fold, pattern, value, i, j)
    decreases j' - j
  {
    if j < j' {
      FromStar(fold, pattern, value, i, j' - 1);
      FromStarEarlier(fold, pattern, value, i, j, j' - 1);
    }
  }

  /** What the star at `i` can still do is some run of retries of what follows it. */
  lemma {:induction false} FromStarLater(fold: bool, pattern: Text, value: Text, i: nat, j: nat) returns (j': nat)
    requires i < |pattern| && pattern[i] == STAR
    requires From(fold, pattern, value, i, j)
    ensures j <= j' && From(fold, pattern, value, i + 1, j')
    decreases |value| - j
  {
    FromStar(fold, pattern, value, i, j);
    if From(fold, pattern, value, i + 1, j) {
      j' := j;
    } else {
      j' := FromStarLater(fold, pattern, value, i, j + 1);
    }
  }

  /** Why only the last star has to be retried: when the literals after `star` have matched up to a
      new star, every match the old star could still find starts later, and the new star reaches it. */
  lemma LastStarSuffices(fold: bool, pattern: Text, value: Text, star: nat, p: nat, match': nat)
    requires star < p < |pattern| && pattern[star] == STAR && pattern[p] == STAR
    requires forall k :: star < k < p ==> pattern[k] != STAR
    requires From(fold, pattern, value, star, match' + 1)
    ensures From(fold, pattern, value, p, match' + (p - star - 1))
  {
    var j := FromStarLater(fold, pattern, value, star, match' + 1);
    FromRun(fold, pattern, value, star + 1, p, j);
    FromStarEarlier(fold, pattern, value, p, match' + (p - star - 1), j + (p - star - 1));
  }

  /** A retry cannot help once the value is used up: the literals after the star no longer fit. */
  lemma NoRetryAtEnd(fold: bool, pattern: Text, value: Text, star: nat, p: nat, match': nat)
    requires star < p <= |pattern| && pattern[star] == STAR
    requires forall k :: star < k < p ==> pattern[k] != STAR
    requires match' + (p - star - 1) == |value|
    ensures !From(fold, pattern, value, star, match' + 1)
  {
    if From(fold, pattern, value, star, match' + 1) {
      var j := FromStarLater(fold, pattern, value, star, match' + 1);
      FromRun(fold, pattern, value, star + 1, p, j);
    }
  }

  /** The state of the greedy loop: the literals since the last star have just matched, and the whole
      value matches exactly if the rest does from here or the last star can be retried further on. */
  ghost predicate Greedy(fold: bool, pattern: Text, value: Text, p: nat, v: nat, star: int, match': nat) {
    && p <= |pattern| && match' <= v <= |value|
    && (star == -1 || (0 <= star < p && pattern[star] == STAR && v - match' == p - star - 1))
    && (forall k :: star < k < p ==> pattern[k] != STAR)
    && (BytesMatch(fold, pattern, value) <==>
        From(fold, pattern, value, p, v) || (star >= 0 && From(fold, pattern, value, star, match' + 1)))
  }

  lemma GreedyStart(fold: bool, pattern: Text, value: Text)
    ensures Greedy(fold, pattern, value, 0, 0, -1, 0)
  {
    AtStart(IsStarByte, ByteEq(fold), pattern, value);
  }

  lemma GreedyAdvance(fold: bool, pattern: Text, value: Text, p: nat, v: nat, star: int, match': nat)
    requires Greedy(fold, pattern, value, p, v, star, match')
    requires p < |pattern| && pattern[p] != STAR && v < |value| && ByteEq(fold)(pattern[p], value[v])
    ensures Greedy(fold, pattern, value, p + 1, v + 1, star, match')
  {
    FromLiteral(fold, pattern, value, p, v);
  }

  lemma GreedyNewStar(fold: bool, pattern: Text, value: Text, p: nat, v: nat, star: int, match': nat)
    requires Greedy(fold, pattern, value, p, v, star, match')
    requires p < |pattern| && pattern[p] == STAR
    ensures Greedy(fold, pattern, value, p + 1, v, p, v)
  {
    FromStar(fold, pattern, value, p, v);
    if star >= 0 && From(fold, pattern, value, star, match' + 1) {
      LastStarSuffices(fold, pattern, value, star, p, match');
    }
  }

  lemma GreedyMismatch(fold: bool, pattern: Text, value: Text, p: nat, v: nat, star: int, match': nat)
    requires Greedy(fold, pattern, value, p, v, star, match') && v < |value|
    requires p < |pattern| ==> pattern[p] != STAR && !ByteEq(fold)(pattern[p], value[v])
    ensures star == -1 ==> !BytesMatch(fold, pattern, value)
    ensures star != -1 ==> Greedy(fold, pattern, value, star + 1, match' + 1, star, match' + 1)
  {
    if p < |pattern| {
      FromLiteral(fold, pattern, value, p, v);
    } else {
      AtPatternEnd(IsStarByte, ByteEq(fold), pattern, value, v);
    }
    if star != -1 {
      FromStar(fold, pattern, value, star, match' + 1);
    }
  }

  lemma GreedyEnd(fold: bool, pattern: Text, value: Text, p: nat, star: int, match': nat)
    requires Greedy(fold, pattern, value, p, |value|, star, match')
    ensures BytesMatch(fold, pattern, value) <==> forall k :: p <= k < |pattern| ==> pattern[k] == STAR
  {
    if star >= 0 {
      NoRetryAtEnd(fold, pattern, value, star, p, match');
    }
    AtValueEnd(IsStarByte, ByteEq(fold), pattern, value, p);
  }

  method MatchWildcardAscii(pattern: Text, value: Text, ignoreCase: bool) returns (matched: bool)
    ensures matched <==> BytesMatch(ignoreCase, pattern, value)
  {
    var p: nat := 0;
    var v: nat := 0;
    var star: int := -1;  // npos
    var match': nat := 0;
    GreedyStart(ignoreCase, pattern, value);
    while v < |value|
      invariant Greedy(ignoreCase, pattern, value, p, v, star, match')
      decreases |pattern| - star, |value| - match', |value| - v
    {
      if p < |pattern| && pattern[p] != STAR {
        var pc := pattern[p];
        var vc := value[v];
        if ignoreCase {
          pc := Lower(pc);
          vc := Lower(vc);
        }
        if pc == vc {
          GreedyAdvance(ignoreCase, pattern, value, p, v, star, match');
          p := p + 1;
          v := v + 1;
          continue;
        }
      }
      if p < |pattern| && pattern[p] == STAR {
        GreedyNewStar(ignoreCase, pattern, value, p, v, star, match');
        star := p;
        p := p + 1;
        match' := v;
        continue;
      }
      GreedyMismatch(ignoreCase, pattern, value, p, v, star, match');
      if star != -1 {
        p := star + 1;
        match' := match' + 1;
        v := match';
        continue;
      }
      return false;
    }
    GreedyEnd(ignoreCase, pattern, value, p, star, match');
    ghost var q := p;
    while p < |pattern| && pattern[p] == STAR
      invariant q <= p <= |pattern|
      invariant forall k :: q <= k < p ==> pattern[k] == STAR
    {
      p := p + 1;
    }
    return p == |pattern|;
  }

  // --------------------------------------------------------------- table matcher

  /** One row of the table: what the pattern from `patternIndex` on matches, at every character. */
  method FillCharacterRow(patternChars: seq<Text>, valueChars: seq<Text>, patternIndex: nat, next: array<bool>,
                          ignoreCase: bool)
    returns (current: array<bool>)
    requires patternIndex < |patternChars| && next.Length == |valueChars| + 1
    requires IsRow(IsStarChar, CharEq(ignoreCase), patternChars, valueChars, patternIndex + 1, next[..], 0)
    ensures fresh(current) && current.Length == |valueChars| + 1
    ensures IsRow(IsStarChar, CharEq(ignoreCase), patternChars, valueChars, patternIndex, current[..], 0)
  {
    hide IsRow;
    ghost var eq := CharEq(ignoreCase);
    var n := |valueChars|;
    current := new bool[n + 1](_ => false);
    NoCells(IsStarChar, eq, patternChars, valueChars, patternIndex, current[..]);
    var valueIndex := n + 1;
    while valueIndex > 0
      invariant 0 <= valueIndex <= n + 1
      invariant forall j :: 0 <= j < valueIndex ==> !current[j]
      invariant IsRow(IsStarChar, eq, patternChars, valueChars, patternIndex, current[..], valueIndex)
    {
      valueIndex := valueIndex - 1;
      ghost var row := current[..];
      if patternChars[patternIndex] == [STAR] {
        StarCell(IsStarChar, eq, patternChars, valueChars, patternIndex, next[..], row, valueIndex);
        current[valueIndex] := next[valueIndex] || (valueIndex < n && current[valueIndex + 1]);
        assert current[..] == row[valueIndex := next[valueIndex] || (valueIndex < n && row[valueIndex + 1])];
      } else {
        LiteralCell(IsStarChar, eq, patternChars, valueChars, patternIndex, next[..], row, valueIndex);
        if valueIndex < n {
          var same := patternChars[patternIndex] == valueChars[valueIndex];
          if ignoreCase {
            same := EqualIgnoringCase(patternChars[patternIndex], valueChars[valueIndex]);
          }
          if same {
            current[valueIndex] := next[valueIndex + 1];
          }
          assert current[..] == row[valueIndex := same && next[valueIndex + 1]];
        } else {
          assert current[..] == row[valueIndex := false];
        }
      }
    }
  }

  method MatchWildcardUtf8(patternChars: seq<Text>, value: Text, ignoreCase: bool) returns (matched: bool)
    ensures matched <==> CharsMatch(ignoreCase, patternChars, Characters(value))
  {
    hide IsRow, Characters;
    var valueChars := Utf8Characters(value);
    var n := |valueChars|;
    ghost var eq := CharEq(ignoreCase);
    var next := new bool[n + 1](_ => false);
    next[n] := true;
    LastRow(IsStarChar, eq, patternChars, valueChars, next[..]);
    var patternIndex := |patternChars|;
    while patternIndex > 0
      invariant 0 <= patternIndex <= |patternChars| && next.Length == n + 1
      invariant IsRow(IsStarChar, eq, patternChars, valueChars, patternIndex, next[..], 0)
    {
      patternIndex := patternIndex - 1;
      next := FillCharacterRow(patternChars, valueChars, patternIndex, next, ignoreCase);
    }
    FirstCell(IsStarChar, eq, patternChars, valueChars, next[..]);
    return next[0];
  }

  // --------------------------------------------------------------- agreement

  /** On ASCII the two readings of a pattern coincide, with or without case folding. */
  lemma AsciiAgrees(fold: bool, pattern: Text, value: Text)
    requires IsAscii(pattern) && IsAscii(value)
    ensures BytesMatch(fold, pattern, value) <==> ComponentMatches(fold, pattern, value)
  {
    AsciiCharacters(pattern);
    AsciiCharacters(value);
    Transport(IsStarByte, ByteEq(fold), pattern, value,
              IsStarChar, CharEq(fold), Characters(pattern), Characters(value));
  }

  lemma {:induction false} NoStarCharacters(t: Text)
    requires STAR !in t
    ensures forall c :: c in Characters(t) ==> !IsStarChar(c)
    decreases |t|
  {
    if t != [] {
      var n := CharLength(t);
      assert t[..n][0] in t;
      NoStarCharacters(t[n..]);
    }
  }

  /** A pattern without `*` means plain equality, byte for byte. */
  lemma LiteralMeaning(pattern: Text, value: Text)
    requires STAR !in pattern
    ensures ComponentMatches(false, pattern, value) <==> pattern == value
    ensures ComponentMatches(true, pattern, value) <==> EqualFolded(pattern, value)
  {
    var p, v := Characters(pattern), Characters(value);
    NoStarCharacters(pattern);
    Literal(IsStarChar, CharEq(false), p, v);
    Literal(IsStarChar, CharEq(true), p, v);
    Lossless(pattern);
    Lossless(value);
    if EqualFolded(pattern, value) {
      FoldedCharacters(pattern, value);
    }
    if |p| == |v| && forall i :: 0 <= i < |p| ==> EqualFolded(p[i], v[i]) {
      FlattenFolded(p, v);
    }
    if ComponentMatches(false, pattern, value) {
      assert p == v;
    }
  }

  lemma {:induction false} FlattenFolded(a: seq<Text>, b: seq<Text>)
    requires |a| == |b| && forall i :: 0 <= i < |a| ==> EqualFolded(a[i], b[i])
    ensures EqualFolded(Flatten(a), Flatten(b))
    decreases |a|
  {
    if a != [] {
      FlattenFolded(a[1..], b[1..]);
    }
  }

  /** A star-free prefix of a byte pattern must stand at the front of the value. */
  lemma LiteralPrefix(c: Text, q: Text, v: Text)
    requires STAR !in c
    ensures BytesMatch(false, c + q, v) <==> HasPrefix(v, c) && BytesMatch(false, q, v[|c|..])
  {
    Concat(IsStarByte, SameByte, c, q, v);
    forall k | 0 <= k <= |v|
      ensures Matches(IsStarByte, SameByte, c, v[..k]) <==> k == |c| && v[..k] == c
    {
      Literal(IsStarByte, SameByte, c, v[..k]);
    }
  }

  /** In a run of RFC characters a byte that is no tail begins one of them. */
  lemma {:induction false} Boundary(cs: seq<Text>, k: nat) returns (j: nat)
    requires forall c :: c in cs ==> IsRfcCharacter(c)
    requires k < |Flatten(cs)| && !IsTail(Flatten(cs)[k])
    ensures j < |cs| && Flatten(cs)[k..] == Flatten(cs[j..])
    decreases |cs|
  {
    assert IsRfcCharacter(cs[0]);
    if k == 0 {
      j := 0;
      assert cs[0..] == cs;
    } else {
      assert k >= |cs[0]|;
      var i := Boundary(cs[1..], k - |cs[0]|);
      j := i + 1;
      assert cs[1..][i..] == cs[j..];
      assert Flatten(cs)[k..] == Flatten(cs[1..])[k - |cs[0]|..];
    }
  }

  lemma {:induction false} FlattenSuffix(cs: seq<Text>, j: nat) returns (k: nat)
    requires j <= |cs|
    ensures k <= |Flatten(cs)| && Flatten(cs)[k..] == Flatten(cs[j..])
    decreases j
  {
    if j == 0 {
      k := 0;
      assert cs[0..] == cs;
    } else {
      var i := FlattenSuffix(cs[1..], j - 1);
      k := |cs[0]| + i;
      assert cs[1..][j - 1..] == cs[j..];
      assert Flatten(cs)[k..] == Flatten(cs[1..])[i..];
    }
  }

  /** A byte-level star can only stop inside a character where nothing literal follows it. */
  lemma {:induction false} EncodedAgrees(p: seq<Text>, v: seq<Text>)
    requires forall c :: c in p ==> IsRfcCharacter(c)
    requires forall c :: c in v ==> IsRfcCharacter(c)
    ensures BytesMatch(false, Flatten(p), Flatten(v)) <==> CharsMatch(false, p, v)
    decreases |p|
  {
    if p == [] {
      assert v != [] ==> IsRfcCharacter(v[0]) && Flatten(v) != [];
    } else if p[0] == [STAR] {
      StarAgrees(p, v);
    } else {
      assert IsRfcCharacter(p[0]);
      LiteralPrefix(p[0], Flatten(p[1..]), Flatten(v));
      if v != [] {
        assert IsRfcCharacter(v[0]);
        EncodedAgrees(p[1..], v[1..]);
        assert Flatten(v)[..|v[0]|] == v[0] && Flatten(v)[|v[0]|..] == Flatten(v[1..]);
        FrontCharacter(Flatten(v));
      }
    }
  }

  lemma {:induction false} StarAgrees(p: seq<Text>, v: seq<Text>)
    requires forall c :: c in p ==> IsRfcCharacter(c)
    requires forall c :: c in v ==> IsRfcCharacter(c)
    requires p != [] && p[0] == [STAR]
    ensures BytesMatch(false, Flatten(p), Flatten(v)) <==> CharsMatch(false, p, v)
    decreases |p|, 0
  {
    var q, w := Flatten(p[1..]), Flatten(v);
    assert Flatten(p) == [STAR] + q && Flatten(p)[1..] == q;
    if CharsMatch(false, p, v) {
      var j :| 0 <= j <= |v| && CharsMatch(false, p[1..], v[j..]);
      EncodedAgrees(p[1..], v[j..]);
      var k := FlattenSuffix(v, j);
      assert BytesMatch(false, q, w[k..]);
    }
    if BytesMatch(false, Flatten(p), w) {
      var k :| 0 <= k <= |w| && BytesMatch(false, q, w[k..]);
      assert BytesMatch(false, q, w[k..]) && Matches(IsStarByte, ByteEq(false), q, w[k..]);
      if p[1..] == [] {
        assert v[|v|..] == [] && CharsMatch(false, p[1..], v[|v|..]);
      } else if p[1] == [STAR] {
        EncodedAgrees(p[1..], v);
        StarAbsorbs(IsStarByte, ByteEq(false), q, w, k);
        assert v[0..] == v;
      } else {
        assert IsRfcCharacter(p[1]);
        LiteralAtBoundary(p[1..], v, k);
        var j := Boundary(v, k);
        EncodedAgrees(p[1..], v[j..]);
      }
    }
  }

  lemma LiteralAtBoundary(p: seq<Text>, v: seq<Text>, k: nat)
    requires p != [] && IsRfcCharacter(p[0]) && p[0] != [STAR] && k <= |Flatten(v)|
    requires BytesMatch(false, Flatten(p), Flatten(v)[k..])
    ensures k < |Flatten(v)| && !IsTail(Flatten(v)[k])
  {
    LiteralPrefix(p[0], Flatten(p[1..]), Flatten(v)[k..]);
    assert Flatten(v)[k..][0] == p[0][0];
  }

  /** Case-sensitively the byte matcher and the character matcher agree on all well-formed UTF-8. */
  lemma WellFormedAgrees(pattern: Text, value: Text)
    requires IsWellFormed(pattern) && IsWellFormed(value)
    ensures BytesMatch(false, pattern, value) <==> ComponentMatches(false, pattern, value)
  {
    WellFormedCharacters(pattern);
    WellFormedCharacters(value);
    Lossless(pattern);
    Lossless(value);
    EncodedAgrees(Characters(pattern), Characters(value));
  }

  // --------------------------------------------------------------- runs of stars

  function CollapseStars(t: Text): Text {
    if |t| < 2 then t
    else if t[0] == STAR && t[1] == STAR then CollapseStars(t[1..])
    else [t[0]] + CollapseStars(t[1..])
  }

  /** Appending one byte: the step the collapsing loop makes. */
  lemma {:induction false} CollapseAppend(t: Text, b: byte)
    ensures t != [] <==> CollapseStars(t) != []
    ensures t != [] ==> CollapseStars(t)[|CollapseStars(t)| - 1] == t[|t| - 1]
    ensures CollapseStars(t + [b]) ==
            if t != [] && t[|t| - 1] == STAR && b == STAR then CollapseStars(t) else CollapseStars(t) + [b]
    decreases |t|
  {
    if |t| >= 2 {
      CollapseAppend(t[1..], b);
      assert (t + [b])[1..] == t[1..] + [b];
    } else if |t| == 1 {
      assert (t + [b])[1..] == [b];
    }
  }

  method CollapseStarRuns(value: Text) returns (result: Text)
    ensures result == CollapseStars(value)
  {
    result := [];
    for i := 0 to |value|
      invariant result == CollapseStars(value[..i])
    {
      assert value[..i + 1] == value[..i] + [value[i]];
      CollapseAppend(value[..i], value[i]);
      if value[i] == STAR && result != [] && result[|result| - 1] == STAR {
        continue;
      }
      result := result + [value[i]];
    }
    assert value[..|value|] == value;
  }

  /** Collapsed text has no two adjacent stars. */
  lemma {:induction false} CollapseNoRuns(t: Text)
    ensures forall i, j :: 0 <= i < j < |CollapseStars(t)| && j == i + 1 ==>
                             CollapseStars(t)[i] != STAR || CollapseStars(t)[j] != STAR
    ensures CollapseStars(t) != [] ==> CollapseStars(t)[0] == t[0]
    ensures STAR in CollapseStars(t) <==> STAR in t
    decreases |t|
  {
    if |t| >= 2 {
      CollapseNoRuns(t[1..]);
      CollapseAppend(t[1..], 0);
      assert t == [t[0]] + t[1..];
    }
  }

  lemma CollapseCons(c: byte, t: Text)
    requires c != STAR
    ensures CollapseStars([c] + t) == [c] + CollapseStars(t)
  {
    assert ([c] + t)[1..] == t;
  }

  lemma {:induction false} CollapsePrefix(a: Text, b: Text)
    requires STAR !in a
    ensures CollapseStars(a + b) == a + CollapseStars(b)
    decreases |a|
  {
    hide CollapseStars;
    if a == [] {
      assert a + b == b;
    } else {
      assert a + b == [a[0]] + (a[1..] + b);
      CollapseCons(a[0], a[1..] + b);
      CollapsePrefix(a[1..], b);
      assert a == [a[0]] + a[1..];
    }
  }

  lemma FirstStar(t: Text) returns (i: nat)
    requires STAR in t
    ensures i < |t| && t[i] == STAR && STAR !in t[..i]
  {
    i := 0;
    while t[i] != STAR
      invariant i < |t| && STAR !in t[..i] && STAR in t[i..]
      decreases |t| - i
    {
      assert t[..i + 1] == t[..i] + [t[i]];
      assert t[i..] == [t[i]] + t[i + 1..];
      i := i + 1;
    }
  }

  /** Both patterns of a pair may be put behind the same prefix. */
  lemma SamePrefix(fold: bool, p: seq<Text>, q: seq<Text>, q': seq<Text>, v: seq<Text>)
    requires forall u: seq<Text> :: CharsMatch(fold, q, u) <==> CharsMatch(fold, q', u)
    ensures CharsMatch(fold, p + q, v) <==> CharsMatch(fold, p + q', v)
  {
    Concat(IsStarChar, CharEq(fold), p, q, v);
    Concat(IsStarChar, CharEq(fold), p, q', v);
    assert forall k :: 0 <= k <= |v| ==> (CharsMatch(fold, q, v[k..]) <==> CharsMatch(fold, q', v[k..]));
  }

  /** Collapsing runs of `*` does not change what a component pattern matches. */
  lemma {:induction false} CollapseMeaning(fold: bool, t: Text, v: seq<Text>)
    ensures CharsMatch(fold, Characters(CollapseStars(t)), v) <==> CharsMatch(fold, Characters(t), v)
    decreases |t|
  {
    if STAR !in t {
      CollapsePrefix(t, []);
      assert t + [] == t && t + CollapseStars([]) == t;
    } else {
      var i := FirstStar(t);
      var a, b := t[..i], t[i + 1..];
      forall u: seq<Text> { CollapseMeaning(fold, b, u); }
      assert t == a + ([STAR] + b);
      CollapseBehind(fold, a, b, v);
    }
  }

  lemma CollapseBehind(fold: bool, a: Text, b: Text, v: seq<Text>)
    requires STAR !in a
    requires forall u: seq<Text> ::
               CharsMatch(fold, Characters(CollapseStars(b)), u) <==> CharsMatch(fold, Characters(b), u)
    ensures CharsMatch(fold, Characters(CollapseStars(a + ([STAR] + b))), v) <==>
            CharsMatch(fold, Characters(a + ([STAR] + b)), v)
  {
    var s, c := [STAR] + b, CollapseStars(b);
    assert s[1..] == b;
    CollapsePrefix(a, s);
    SplitsBefore(a, s);
    StarCharacters(b);
    CollapseNoRuns(b);
    if b != [] && b[0] == STAR {
      assert CollapseStars(s) == c;
      SplitsBefore(a, c);
      forall u: seq<Text> { StarOnStar(fold, b, u); }
      SamePrefix(fold, Characters(a), [[STAR]] + Characters(b), Characters(c), v);
    } else {
      assert CollapseStars(s) == [STAR] + c;
      SplitsBefore(a, [STAR] + c);
      StarCharacters(c);
      forall u: seq<Text> { SamePrefix(fold, [[STAR]], Characters(b), Characters(c), u); }
      SamePrefix(fold, Characters(a), [[STAR]] + Characters(b), [[STAR]] + Characters(c), v);
    }
  }

  lemma StarOnStar(fold: bool, b: Text, u: seq<Text>)
    requires b != [] && b[0] == STAR
    ensures CharsMatch(fold, [[STAR]] + Characters(b), u) <==> CharsMatch(fold, Characters(b), u)
  {
    hide Matches, Characters;
    StarCharacters(b[1..]);
    assert [STAR] + b[1..] == b;
    var rest := Characters(b[1..]);
    StarStar(IsStarChar, CharEq(fold), [STAR], [STAR], rest, u);
    assert [[STAR], [STAR]] + rest == [[STAR]] + Characters(b) && [[STAR]] + rest == Characters(b);
  }

  lemma StarCharacters(b: Text)
    ensures Characters([STAR] + b) == [[STAR]] + Characters(b)
  {
    var s := [STAR] + b;
    assert CharLength(s) == 1 && s[..1] == [STAR] && s[1..] == b;
  }
}
