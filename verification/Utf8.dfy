/** Splitting a byte string into characters, and what section 4 of RFC 3629 says about it. */
module Utf8 {
  import opened Bytes

  predicate IsTail(b: byte) {
    0x80 <= b < 0xc0
  }

  predicate TailAt(t: Text, i: nat) {
    i < |t| && IsTail(t[i])
  }

  /** The length the splitter gives the character at the front of `t`. */
  function CharLength(t: Text): (n: nat)
    requires t != []
    ensures 1 <= n <= |t|
  {
    var first := t[0];
    if 0xc2 <= first <= 0xdf && TailAt(t, 1) then 2
    else if 0xe0 <= first <= 0xef && TailAt(t, 1) && TailAt(t, 2) &&
            !(first == 0xe0 && t[1] < 0xa0) && !(first == 0xed && t[1] >= 0xa0) then 3
    else if 0xf0 <= first <= 0xf4 && TailAt(t, 1) && TailAt(t, 2) && TailAt(t, 3) &&
            !(first == 0xf0 && t[1] < 0x90) && !(first == 0xf4 && t[1] >= 0x90) then 4
    else 1
  }

  function Characters(t: Text): (cs: seq<Text>) {
    if t == [] then []
    else
      var n := CharLength(t);
      [t[..n]] + Characters(t[n..])
  }

  /** The branches of the splitter, read at an index of the whole text. */
  method LengthAt(value: Text, index: nat) returns (length: nat)
    requires index < |value|
    ensures length == CharLength(value[index..])
  {
    var first := value[index];
    length := 1;
    ghost var rest := value[index..];
    assert TailAt(rest, 1) == TailAt(value, index + 1);
    assert TailAt(rest, 2) == TailAt(value, index + 2);
    assert TailAt(rest, 3) == TailAt(value, index + 3);
    assert first == rest[0] && (index + 1 < |value| ==> value[index + 1] == rest[1]);
    if 0xc2 <= first <= 0xdf && TailAt(value, index + 1) {
      length := 2;
    } else if 0xe0 <= first <= 0xef && TailAt(value, index + 1) && TailAt(value, index + 2) &&
              !(first == 0xe0 && value[index + 1] < 0xa0) && !(first == 0xed && value[index + 1] >= 0xa0) {
      length := 3;
    } else if 0xf0 <= first <= 0xf4 && TailAt(value, index + 1) && TailAt(value, index + 2) &&
              TailAt(value, index + 3) &&
              !(first == 0xf0 && value[index + 1] < 0x90) && !(first == 0xf4 && value[index + 1] >= 0x90) {
      length := 4;
    }
  }

  method Utf8Characters(value: Text) returns (result: seq<Text>)
    ensures result == Characters(value)
  {
    result := [];
    var index := 0;
    while index < |value|
      invariant index <= |value|
      invariant result + Characters(value[index..]) == Characters(value)
    {
      var length := LengthAt(value, index);
      ghost var rest := value[index..];
      assert Characters(rest) == [rest[..length]] + Characters(rest[length..]);
      assert rest[..length] == value[index..index + length] && rest[length..] == value[index + length..];
      result := result + [value[index..index + length]];
      index := index + length;
    }
  }

  /** The ABNF of section 4 of RFC 3629: UTF8-1, UTF8-2, UTF8-3 and UTF8-4. */
  predicate IsRfcCharacter(c: Text) {
    match |c|
    case 1 => c[0] <= 0x7f
    case 2 => 0xc2 <= c[0] <= 0xdf && IsTail(c[1])
    case 3 =>
      && IsTail(c[2])
      && ( || (c[0] == 0xe0 && 0xa0 <= c[1] <= 0xbf)
           || (0xe1 <= c[0] <= 0xec && IsTail(c[1]))
           || (c[0] == 0xed && 0x80 <= c[1] <= 0x9f)
           || (0xee <= c[0] <= 0xef && IsTail(c[1])))
    case 4 =>
      && IsTail(c[2]) && IsTail(c[3])
      && ( || (c[0] == 0xf0 && 0x90 <= c[1] <= 0xbf)
           || (0xf1 <= c[0] <= 0xf3 && IsTail(c[1]))
           || (c[0] == 0xf4 && 0x80 <= c[1] <= 0x8f))
    case _ => false
  }

  function Flatten(cs: seq<Text>): Text {
    if cs == [] then [] else cs[0] + Flatten(cs[1..])
  }

  ghost predicate IsWellFormed(t: Text) {
    exists cs: seq<Text> :: Encodes(cs, t)
  }

  ghost predicate Encodes(cs: seq<Text>, t: Text) {
    Flatten(cs) == t && forall c :: c in cs ==> IsRfcCharacter(c)
  }

  /** The front character is the RFC sequence standing there, or one byte that starts none. */
  lemma FrontCharacter(t: Text)
    requires t != []
    ensures IsRfcCharacter(t[..CharLength(t)]) || CharLength(t) == 1
    ensures forall n: nat :: n <= |t| && IsRfcCharacter(t[..n]) ==> n == CharLength(t)
  {}

  /** No byte is lost, and every piece is one RFC sequence or one byte on its own. */
  lemma {:induction false} Lossless(t: Text)
    ensures Flatten(Characters(t)) == t
    ensures forall c :: c in Characters(t) ==> IsRfcCharacter(c) || |c| == 1
    decreases |t|
  {
    if t != [] {
      var n := CharLength(t);
      FrontCharacter(t);
      Lossless(t[n..]);
      assert t == t[..n] + t[n..];
      assert Characters(t)[1..] == Characters(t[n..]);
    }
  }

  lemma FrontOf(c: Text, rest: Text)
    requires IsRfcCharacter(c)
    ensures CharLength(c + rest) == |c|
  {
    assert (c + rest)[..|c|] == c;
    FrontCharacter(c + rest);
  }

  lemma CharactersCons(s: Text, c: Text, t: Text, tail: seq<Text>)
    requires IsRfcCharacter(c) && s == c + t && Characters(t) == tail
    ensures Characters(s) == [c] + tail
  {
    FrontOf(c, t);
    assert s[..|c|] == c && s[|c|..] == t;
  }

  /** A sequence of RFC characters is recovered exactly, whatever bytes follow it. */
  lemma {:induction false} SplitsWellFormed(cs: seq<Text>, rest: Text)
    requires forall i :: 0 <= i < |cs| ==> IsRfcCharacter(cs[i])
    ensures Characters(Flatten(cs) + rest) == cs + Characters(rest)
    decreases |cs|
  {
    hide IsRfcCharacter, Characters;
    if cs == [] {
      assert Flatten(cs) + rest == rest;
    } else {
      SplitsWellFormed(cs[1..], rest);
      FlattenFirst(cs, rest);
      var later := Characters(rest);
      CharactersCons(Flatten(cs) + rest, cs[0], Flatten(cs[1..]) + rest, cs[1..] + later);
      assert [cs[0]] + (cs[1..] + later) == cs + later;
    }
  }

  lemma FlattenFirst(cs: seq<Text>, rest: Text)
    requires cs != []
    ensures Flatten(cs) + rest == cs[0] + (Flatten(cs[1..]) + rest)
  {}

  /** Well-formed text splits into exactly its RFC characters, and only into those. */
  lemma WellFormedCharacters(t: Text)
    ensures IsWellFormed(t) <==> forall c :: c in Characters(t) ==> IsRfcCharacter(c)
    ensures forall cs :: Encodes(cs, t) ==> cs == Characters(t)
  {
    Lossless(t);
    assert (forall c :: c in Characters(t) ==> IsRfcCharacter(c)) ==> Encodes(Characters(t), t);
    forall cs | Encodes(cs, t)
      ensures cs == Characters(t)
    {
      SplitsWellFormed(cs, []);
      assert t + [] == t && cs + Characters([]) == cs;
    }
  }

  /** The first character never reaches past a byte that is no tail. */
  lemma LengthBefore(a: Text, b: Text)
    requires a != [] && (b == [] || !IsTail(b[0]))
    ensures CharLength(a + b) == CharLength(a)
  {
    assert TailAt(a + b, 1) == TailAt(a, 1);
    if TailAt(a, 1) {
      assert TailAt(a + b, 2) == TailAt(a, 2);
      if TailAt(a, 2) {
        assert TailAt(a + b, 3) == TailAt(a, 3);
      }
    }
  }

  /** A byte that is no tail always starts a new character, even in malformed text. */
  lemma {:induction false} SplitsBefore(a: Text, b: Text)
    requires b == [] || !IsTail(b[0])
    ensures Characters(a + b) == Characters(a) + Characters(b)
    decreases |a|
  {
    if a == [] {
      assert a + b == b;
    } else {
      var n := CharLength(a);
      LengthBefore(a, b);
      assert (a + b)[..n] == a[..n] && (a + b)[n..] == a[n..] + b;
      SplitsBefore(a[n..], b);
    }
  }

  /** ASCII text splits into single bytes. */
  lemma {:induction false} AsciiCharacters(t: Text)
    requires IsAscii(t)
    ensures |Characters(t)| == |t| && forall i :: 0 <= i < |t| ==> Characters(t)[i] == [t[i]]
    decreases |t|
  {
    if t != [] {
      AsciiCharacters(t[1..]);
      assert t[..1] == [t[0]];
    }
  }

  /** Texts that differ only in ASCII case split at the same places. */
  lemma {:induction false} FoldedCharacters(a: Text, b: Text)
    requires EqualFolded(a, b)
    ensures |Characters(a)| == |Characters(b)|
    ensures forall i :: 0 <= i < |Characters(a)| ==> EqualFolded(Characters(a)[i], Characters(b)[i])
    decreases |a|
  {
    if a != [] {
      var n := CharLength(a);
      assert forall k :: 0 <= k < |a| ==> a[k] == b[k] || (a[k] < 0x80 && b[k] < 0x80);
      assert forall k: nat :: TailAt(a, k) == TailAt(b, k);
      assert CharLength(b) == n;
      FoldedCharacters(a[n..], b[n..]);
    }
  }
}
