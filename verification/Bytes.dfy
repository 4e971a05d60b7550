/** Byte strings, as paths, globs and identifiers are. */
module Bytes {
  newtype byte = b: int | 0 <= b < 0x100

  type Text = seq<byte>

  const SLASH: byte := 47
  const STAR: byte := 42
  const BACKSLASH: byte := 92

  function Lower(b: byte): byte {
    if 65 <= b <= 90 then b + 32 else b
  }

  predicate IsAscii(t: Text) {
    forall i :: 0 <= i < |t| ==> t[i] < 0x80
  }

  function LowerText(t: Text): Text {
    seq(|t|, i requires 0 <= i < |t| => Lower(t[i]))
  }

  predicate EqualFolded(a: Text, b: Text) {
    |a| == |b| && forall i :: 0 <= i < |a| ==> Lower(a[i]) == Lower(b[i])
  }

  /** One ASCII letter in either case, or one byte: the larger of two different ones is `a` to `z`, and 32 apart. */
  predicate SameLetter(a: byte, b: byte) {
    a == b || (97 <= b <= 122 && a as int + 32 == b as int) || (97 <= a <= 122 && b as int + 32 == a as int)
  }

  /** What folding means: equal byte by byte, up to the case of ASCII letters. */
  lemma FoldedMeans(a: Text, b: Text)
    ensures EqualFolded(a, b) <==> |a| == |b| && forall i :: 0 <= i < |a| ==> SameLetter(a[i], b[i])
  {}

  /** Lower-casing keeps every letter and leaves no capital. */
  lemma LoweredMeans(t: Text)
    ensures |LowerText(t)| == |t|
    ensures forall i :: 0 <= i < |t| ==> SameLetter(LowerText(t)[i], t[i]) && !(65 <= LowerText(t)[i] <= 90)
  {}

  predicate HasPrefix(t: Text, prefix: Text) {
    |prefix| <= |t| && t[..|prefix|] == prefix
  }

  /** `path` lies strictly below the directory `dir`. */
  predicate IsDescendant(path: Text, dir: Text) {
    |path| > |dir| && HasPrefix(path, dir) && path[|dir|] == SLASH
  }

  predicate IsPathOrDescendant(path: Text, dir: Text) {
    path == dir || IsDescendant(path, dir)
  }

  /** Below a directory are exactly the paths that go on with a separator behind its own. */
  lemma DescendantMeans(path: Text, dir: Text)
    ensures IsDescendant(path, dir) <==> exists rest: Text :: path == dir + [47] + rest
  {
    if IsDescendant(path, dir) {
      assert path == dir + [47] + path[|dir| + 1..];
    }
    if rest: Text :| path == dir + [47] + rest {
      assert path[..|dir|] == dir && path[|dir|] == 47;
    }
  }

  lemma DescendantTransitive(a: Text, b: Text, c: Text)
    requires IsPathOrDescendant(a, b) && IsPathOrDescendant(b, c)
    ensures IsPathOrDescendant(a, c)
  {
    if a != b && b != c {
      assert a[..|c|] == a[..|b|][..|c|];
      assert a[|c|] == a[..|b|][|c|];
    }
  }

  method IsAsciiString(value: Text) returns (ascii: bool)
    ensures ascii <==> IsAscii(value)
  {
    for i := 0 to |value|
      invariant IsAscii(value[..i])
    {
      if value[i] >= 0x80 {
        return false;
      }
      assert value[..i + 1] == value[..i] + [value[i]];
    }
    assert value[..|value|] == value;
    return true;
  }

  method ToAsciiLower(value: Text) returns (result: Text)
    ensures result == LowerText(value)
  {
    result := [];
    for i := 0 to |value|
      invariant result == LowerText(value)[..i]
    {
      result := result + [Lower(value[i])];
    }
  }

  method EqualIgnoringCase(left: Text, right: Text) returns (equal: bool)
    ensures equal <==> EqualFolded(left, right)
  {
    if |left| != |right| {
      return false;
    }
    for i := 0 to |left|
      invariant forall k :: 0 <= k < i ==> Lower(left[k]) == Lower(right[k])
    {
      if Lower(left[i]) != Lower(right[i]) {
        return false;
      }
    }
    return true;
  }
}
