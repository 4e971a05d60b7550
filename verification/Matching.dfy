/** The declarative meaning of a star pattern, shared by every matcher of the ignore engine.

    A pattern is a sequence of elements.  An element for which `star` holds stands for any run of
    values, possibly empty; any other element stands for exactly one value that `eq` accepts. */
module Matching {

  ghost predicate Matches<P, V>(star: P -> bool, eq: (P, V) -> bool, p: seq<P>, v: seq<V>)
    decreases |p|
  {
    if p == [] then v == []
    else if star(p[0]) then exists k :: 0 <= k <= |v| && Matches(star, eq, p[1..], v[k..])
    else v != [] && eq(p[0], v[0]) && Matches(star, eq, p[1..], v[1..])
  }

  /** A leading star either matches nothing or swallows one value: the recurrence of both tables. */
  lemma StarFront<P, V>(star: P -> bool, eq: (P, V) -> bool, p: seq<P>, v: seq<V>)
    requires p != [] && star(p[0])
    ensures Matches(star, eq, p, v) <==>
            Matches(star, eq, p[1..], v) || (v != [] && Matches(star, eq, p, v[1..]))
  {
    assert v[0..] == v;
    if Matches(star, eq, p, v) {
      var k :| 0 <= k <= |v| && Matches(star, eq, p[1..], v[k..]);
      if k > 0 {
        assert v[1..][k - 1..] == v[k..];
      }
    }
    if v != [] && Matches(star, eq, p, v[1..]) {
      var k :| 0 <= k <= |v[1..]| && Matches(star, eq, p[1..], v[1..][k..]);
      assert v[1..][k..] == v[k + 1..];
    }
  }

  /** A pattern that starts with a star keeps matching when values are put in front. */
  lemma StarAbsorbs<P, V>(star: P -> bool, eq: (P, V) -> bool, p: seq<P>, v: seq<V>, k: nat)
    requires p != [] && star(p[0]) && k <= |v|
    requires Matches(star, eq, p, v[k..])
    ensures Matches(star, eq, p, v)
  {
    var j :| 0 <= j <= |v[k..]| && Matches(star, eq, p[1..], v[k..][j..]);
    assert v[k..][j..] == v[k + j..];
  }

  /** Two adjacent stars mean the same as one. */
  lemma StarStar<P, V>(star: P -> bool, eq: (P, V) -> bool, s: P, t: P, p: seq<P>, v: seq<V>)
    requires star(s) && star(t)
    ensures Matches(star, eq, [s, t] + p, v) <==> Matches(star, eq, [t] + p, v)
  {
    assert ([s, t] + p)[1..] == [t] + p;
    assert v[0..] == v;
    if Matches(star, eq, [s, t] + p, v) {
      var k :| 0 <= k <= |v| && Matches(star, eq, [t] + p, v[k..]);
      StarAbsorbs(star, eq, [t] + p, v, k);
    }
  }

  /** Concatenated patterns match exactly the concatenations of what they match. */
  lemma {:induction false} Concat<P, V>(star: P -> bool, eq: (P, V) -> bool, p: seq<P>, q: seq<P>, v: seq<V>)
    ensures Matches(star, eq, p + q, v) <==>
            exists k :: 0 <= k <= |v| && Matches(star, eq, p, v[..k]) && Matches(star, eq, q, v[k..])
    decreases |p|
  {
    if p == [] {
      assert p + q == q;
      assert v[..0] == [] && v[0..] == v;
      forall k | 0 <= k <= |v| && Matches(star, eq, p, v[..k])
        ensures k == 0
      {
        assert v[..k] == [];
      }
    } else {
      assert (p + q)[1..] == p[1..] + q;
      if star(p[0]) {
        ConcatStar(star, eq, p, q, v);
      } else if v != [] {
        Concat(star, eq, p[1..], q, v[1..]);
        if eq(p[0], v[0]) {
          forall k | 0 < k <= |v|
            ensures v[..k][1..] == v[1..][..k - 1] && v[1..][k - 1..] == v[k..]
          {}
          if Matches(star, eq, p + q, v) {
            var k :| 0 <= k <= |v[1..]| && Matches(star, eq, p[1..], v[1..][..k]) && Matches(star, eq, q, v[1..][k..]);
            assert v[..k + 1][1..] == v[1..][..k] && v[1..][k..] == v[k + 1..];
            assert Matches(star, eq, p, v[..k + 1]);
          }
          if k :| 0 <= k <= |v| && Matches(star, eq, p, v[..k]) && Matches(star, eq, q, v[k..]) {
            assert v[..k][1..] == v[1..][..k - 1] && v[1..][k - 1..] == v[k..];
          }
        }
      }
    }
  }

  /** A leading star, as the definition reads it. */
  lemma StarSplits<P, V>(star: P -> bool, eq: (P, V) -> bool, p: seq<P>, v: seq<V>)
    requires p != [] && star(p[0])
    ensures Matches(star, eq, p, v) <==> exists k :: 0 <= k <= |v| && Matches(star, eq, p[1..], v[k..])
  {}

  lemma {:induction false} ConcatStar<P, V>(star: P -> bool, eq: (P, V) -> bool, p: seq<P>, q: seq<P>, v: seq<V>)
    requires p != [] && star(p[0])
    ensures Matches(star, eq, p + q, v) <==>
            exists k :: 0 <= k <= |v| && Matches(star, eq, p, v[..k]) && Matches(star, eq, q, v[k..])
    decreases |p|, 0
  {
    hide Matches;
    assert (p + q)[1..] == p[1..] + q && (p + q)[0] == p[0];
    StarSplits(star, eq, p + q, v);
    if Matches(star, eq, p + q, v) {
      var j :| 0 <= j <= |v| && Matches(star, eq, p[1..] + q, v[j..]);
      Concat(star, eq, p[1..], q, v[j..]);
      var k :| 0 <= k <= |v[j..]| && Matches(star, eq, p[1..], v[j..][..k]) && Matches(star, eq, q, v[j..][k..]);
      assert v[..j + k][j..] == v[j..][..k] && v[j..][k..] == v[j + k..];
      StarSplits(star, eq, p, v[..j + k]);
      assert Matches(star, eq, p, v[..j + k]);
    }
    if k :| 0 <= k <= |v| && Matches(star, eq, p, v[..k]) && Matches(star, eq, q, v[k..]) {
      StarSplits(star, eq, p, v[..k]);
      var j :| 0 <= j <= |v[..k]| && Matches(star, eq, p[1..], v[..k][j..]);
      assert v[..k][j..] == v[j..][..k - j] && v[j..][k - j..] == v[k..];
      Concat(star, eq, p[1..], q, v[j..]);
      assert Matches(star, eq, p[1..] + q, v[j..]);
    }
  }

  lemma Single<P, V>(star: P -> bool, eq: (P, V) -> bool, x: P, u: seq<V>)
    ensures Matches(star, eq, [x], u) <==> star(x) || (|u| == 1 && eq(x, u[0]))
  {
    assert [x][1..] == [] && u[|u|..] == [];
  }

  /** A trailing star matches whatever is left after any matched prefix. */
  lemma StarTail<P, V>(star: P -> bool, eq: (P, V) -> bool, p: seq<P>, x: P, v: seq<V>)
    requires star(x)
    ensures Matches(star, eq, p + [x], v) <==> exists k :: 0 <= k <= |v| && Matches(star, eq, p, v[..k])
  {
    Concat(star, eq, p, [x], v);
    forall k | 0 <= k <= |v| { Single(star, eq, x, v[k..]); }
  }

  /** A pattern that ends in a star keeps matching when values are put behind. */
  lemma StarAbsorbsBehind<P, V>(star: P -> bool, eq: (P, V) -> bool, p: seq<P>, x: P, v: seq<V>, k: nat)
    requires star(x) && k <= |v| && Matches(star, eq, p + [x], v[..k])
    ensures Matches(star, eq, p + [x], v)
  {
    StarTail(star, eq, p, x, v[..k]);
    var j :| 0 <= j <= |v[..k]| && Matches(star, eq, p, v[..k][..j]);
    assert v[..k][..j] == v[..j];
    StarTail(star, eq, p, x, v);
  }

  /** What a last star adds, read from the right: the step of the automaton. */
  lemma SnocStar<P, V>(star: P -> bool, eq: (P, V) -> bool, p: seq<P>, x: P, v: seq<V>, a: V)
    requires star(x)
    ensures Matches(star, eq, p + [x], v + [a]) <==>
            Matches(star, eq, p, v + [a]) || Matches(star, eq, p + [x], v)
  {
    StarTail(star, eq, p, x, v + [a]);
    StarTail(star, eq, p, x, v);
    forall k | 0 <= k <= |v|
      ensures (v + [a])[..k] == v[..k]
    {}
    assert (v + [a])[..|v| + 1] == v + [a];
  }

  /** What a last literal adds, read from the right. */
  lemma SnocLiteral<P, V>(star: P -> bool, eq: (P, V) -> bool, p: seq<P>, x: P, v: seq<V>, a: V)
    requires !star(x)
    ensures Matches(star, eq, p + [x], v + [a]) <==> Matches(star, eq, p, v) && eq(x, a)
  {
    var w := v + [a];
    Concat(star, eq, p, [x], w);
    assert w[..|v|] == v && w[|v|..] == [a];
    Single(star, eq, x, [a]);
    forall k | 0 <= k <= |w| && Matches(star, eq, [x], w[k..])
      ensures k == |v|
    {
      Single(star, eq, x, w[k..]);
    }
  }

  /** On no values at all only stars match. */
  lemma {:induction false} OnEmpty<P, V>(star: P -> bool, eq: (P, V) -> bool, p: seq<P>)
    ensures Matches(star, eq, p, []) <==> forall i :: 0 <= i < |p| ==> star(p[i])
    decreases |p|
  {
    if p != [] {
      OnEmpty<P, V>(star, eq, p[1..]);
      if star(p[0]) {
        StarFront<P, V>(star, eq, p, []);
        assert forall i :: 0 < i < |p| ==> p[i] == p[1..][i - 1];
      }
    }
  }

  /** Without stars a pattern matches value by value. */
  lemma {:induction false} Literal<P, V>(star: P -> bool, eq: (P, V) -> bool, p: seq<P>, v: seq<V>)
    requires forall i :: 0 <= i < |p| ==> !star(p[i])
    ensures Matches(star, eq, p, v) <==> |p| == |v| && forall i :: 0 <= i < |p| ==> eq(p[i], v[i])
    decreases |p|
  {
    if p != [] && v != [] {
      Literal(star, eq, p[1..], v[1..]);
      assert forall i :: 0 < i < |p| ==> p[i] == p[1..][i - 1];
      assert |p| == |v| ==> forall i :: 0 < i < |p| ==> v[i] == v[1..][i - 1];
    }
  }

  /** Only the outcome of `star` and `eq` on the elements at hand matters. */
  lemma {:induction false} Transport<P, V, Q, W>(star: P -> bool, eq: (P, V) -> bool, p: seq<P>, v: seq<V>,
                                                 star': Q -> bool, eq': (Q, W) -> bool, p': seq<Q>, v': seq<W>)
    requires |p| == |p'| && |v| == |v'|
    requires forall i :: 0 <= i < |p| ==> star(p[i]) == star'(p'[i])
    requires forall i, j :: 0 <= i < |p| && 0 <= j < |v| && !star(p[i]) ==> eq(p[i], v[j]) == eq'(p'[i], v'[j])
    ensures Matches(star, eq, p, v) <==> Matches(star', eq', p', v')
    decreases |p|
  {
    if p != [] {
      forall k | 0 <= k <= |v|
        ensures Matches(star, eq, p[1..], v[k..]) <==> Matches(star', eq', p'[1..], v'[k..])
      {
        assert forall i :: 0 <= i < |p| - 1 ==> p[1..][i] == p[i + 1] && p'[1..][i] == p'[i + 1];
        assert forall j :: 0 <= j < |v| - k ==> v[k..][j] == v[j + k] && v'[k..][j] == v'[j + k];
        Transport(star, eq, p[1..], v[k..], star', eq', p'[1..], v'[k..]);
      }
    }
  }

  /** A more generous comparison matches more. */
  lemma {:induction false} Weaker<P, V>(star: P -> bool, eq: (P, V) -> bool, eq': (P, V) -> bool, p: seq<P>, v: seq<V>)
    requires forall a, b :: a in p && b in v && eq(a, b) ==> eq'(a, b)
    requires Matches(star, eq, p, v)
    ensures Matches(star, eq', p, v)
    decreases |p|
  {
    if p != [] {
      if star(p[0]) {
        var k :| 0 <= k <= |v| && Matches(star, eq, p[1..], v[k..]);
        Weaker(star, eq, eq', p[1..], v[k..]);
      } else {
        Weaker(star, eq, eq', p[1..], v[1..]);
      }
    }
  }

  // ------------------------------------------------------------ weights

  function Sum<T>(weight: T -> nat, s: seq<T>): nat {
    if s == [] then 0 else weight(s[0]) + Sum(weight, s[1..])
  }

  lemma {:induction false} SumAppend<T>(weight: T -> nat, s: seq<T>, t: seq<T>)
    ensures Sum(weight, s + t) == Sum(weight, s) + Sum(weight, t)
    decreases |s|
  {
    if s == [] {
      assert s + t == t;
    } else {
      SumAppend(weight, s[1..], t);
      assert (s + t)[1..] == s[1..] + t;
    }
  }

  /** Whatever literals must find in a value adds up: a match never has less of it than its pattern. */
  lemma {:induction false} MatchWeight<P(!new), V(!new)>(star: P -> bool, eq: (P, V) -> bool, p: seq<P>, v: seq<V>,
                                                         wp: P -> nat, wv: V -> nat)
    requires forall x :: star(x) ==> wp(x) == 0
    requires forall x, a :: !star(x) && eq(x, a) ==> wp(x) <= wv(a)
    requires Matches(star, eq, p, v)
    ensures Sum(wp, p) <= Sum(wv, v)
    decreases |p|
  {
    if p != [] {
      if star(p[0]) {
        var k :| 0 <= k <= |v| && Matches(star, eq, p[1..], v[k..]);
        MatchWeight(star, eq, p[1..], v[k..], wp, wv);
        SumAppend(wv, v[..k], v[k..]);
        assert v[..k] + v[k..] == v;
      } else {
        MatchWeight(star, eq, p[1..], v[1..], wp, wv);
      }
    }
  }

  // ------------------------------------------------------------ by position

  /** Matching what is left of the pattern from `i` on against what is left of the values from `j` on. */
  ghost predicate At<P, V>(star: P -> bool, eq: (P, V) -> bool, p: seq<P>, v: seq<V>, i: nat, j: nat) {
    i <= |p| && j <= |v| && Matches(star, eq, p[i..], v[j..])
  }

  lemma AtStart<P, V>(star: P -> bool, eq: (P, V) -> bool, p: seq<P>, v: seq<V>)
    ensures At(star, eq, p, v, 0, 0) <==> Matches(star, eq, p, v)
  {
    assert p[0..] == p && v[0..] == v;
  }

  lemma AtStar<P, V>(star: P -> bool, eq: (P, V) -> bool, p: seq<P>, v: seq<V>, i: nat, j: nat)
    requires i < |p| && j <= |v| && star(p[i])
    ensures At(star, eq, p, v, i, j) <==> At(star, eq, p, v, i + 1, j) || At(star, eq, p, v, i, j + 1)
  {
    StarFront(star, eq, p[i..], v[j..]);
    assert p[i..][1..] == p[i + 1..];
    if j < |v| {
      assert v[j..][1..] == v[j + 1..];
    }
  }

  lemma AtLiteral<P, V>(star: P -> bool, eq: (P, V) -> bool, p: seq<P>, v: seq<V>, i: nat, j: nat)
    requires i < |p| && j <= |v| && !star(p[i])
    ensures At(star, eq, p, v, i, j) <==> j < |v| && eq(p[i], v[j]) && At(star, eq, p, v, i + 1, j + 1)
  {
    assert p[i..][1..] == p[i + 1..];
    if j < |v| {
      assert v[j..][1..] == v[j + 1..];
    }
  }

  /** Past the last pattern element only the end of the values is left. */
  lemma AtPatternEnd<P, V>(star: P -> bool, eq: (P, V) -> bool, p: seq<P>, v: seq<V>, j: nat)
    requires j <= |v|
    ensures At(star, eq, p, v, |p|, j) <==> j == |v|
  {
    assert p[|p|..] == [];
  }

  lemma AtValueEnd<P, V>(star: P -> bool, eq: (P, V) -> bool, p: seq<P>, v: seq<V>, i: nat)
    requires i <= |p|
    ensures At(star, eq, p, v, i, |v|) <==> forall k :: i <= k < |p| ==> star(p[k])
  {
    OnEmpty<P, V>(star, eq, p[i..]);
    assert v[|v|..] == [];
    assert forall k :: i <= k < |p| ==> p[k] == p[i..][k - i];
  }

  /** One row of the backward table: what is matched from pattern position `i` at each value position. */
  ghost predicate IsRow<P, V>(star: P -> bool, eq: (P, V) -> bool, p: seq<P>, v: seq<V>, i: nat,
                              row: seq<bool>, from: nat) {
    |row| == |v| + 1 && forall j: nat :: from <= j <= |v| ==> (row[j] <==> At(star, eq, p, v, i, j))
  }

  lemma LastRow<P, V>(star: P -> bool, eq: (P, V) -> bool, p: seq<P>, v: seq<V>, row: seq<bool>)
    requires |row| == |v| + 1 && forall j :: 0 <= j <= |v| ==> (row[j] <==> j == |v|)
    ensures IsRow(star, eq, p, v, |p|, row, 0)
  {
    forall j | 0 <= j <= |v| { AtPatternEnd(star, eq, p, v, j); }
  }

  lemma NoCells<P, V>(star: P -> bool, eq: (P, V) -> bool, p: seq<P>, v: seq<V>, i: nat, row: seq<bool>)
    requires |row| == |v| + 1
    ensures IsRow(star, eq, p, v, i, row, |v| + 1)
  {}

  /** The first cell of the first row is the answer. */
  lemma FirstCell<P, V>(star: P -> bool, eq: (P, V) -> bool, p: seq<P>, v: seq<V>, row: seq<bool>)
    requires IsRow(star, eq, p, v, 0, row, 0)
    ensures row != [] && (row[0] <==> Matches(star, eq, p, v))
  {
    AtStart(star, eq, p, v);
  }

  lemma StarCell<P, V>(star: P -> bool, eq: (P, V) -> bool, p: seq<P>, v: seq<V>, i: nat,
                       next: seq<bool>, current: seq<bool>, j: nat)
    requires i < |p| && j <= |v| && star(p[i])
    requires IsRow(star, eq, p, v, i + 1, next, 0) && IsRow(star, eq, p, v, i, current, j + 1)
    ensures IsRow(star, eq, p, v, i, current[j := next[j] || (j < |v| && current[j + 1])], j)
  {
    AtStar(star, eq, p, v, i, j);
  }

  lemma LiteralCell<P, V>(star: P -> bool, eq: (P, V) -> bool, p: seq<P>, v: seq<V>, i: nat,
                          next: seq<bool>, current: seq<bool>, j: nat)
    requires i < |p| && j <= |v| && !star(p[i])
    requires IsRow(star, eq, p, v, i + 1, next, 0) && IsRow(star, eq, p, v, i, current, j + 1)
    ensures IsRow(star, eq, p, v, i, current[j := j < |v| && eq(p[i], v[j]) && next[j + 1]], j)
  {
    AtLiteral(star, eq, p, v, i, j);
  }
}
