/** Moving whole subtrees in maps keyed by path. */
module Subtrees {
  import opened Bytes

  function Subtree<V>(m: map<Text, V>, path: Text): set<Text> {
    set p | p in m && IsPathOrDescendant(p, path)
  }

  function Rebase(p: Text, source: Text, target: Text): Text
    requires |source| <= |p|
  {
    target + p[|source|..]
  }

  lemma RebaseBack(p: Text, source: Text, target: Text)
    requires IsPathOrDescendant(p, source)
    ensures IsPathOrDescendant(Rebase(p, source, target), target)
    ensures Rebase(Rebase(p, source, target), target, source) == p
  {
    var q := Rebase(p, source, target);
    assert q[|target|..] == p[|source|..];
    assert p == p[..|source|] + p[|source|..];
    if p != source {
      assert q[|target|] == p[|source|] && q[..|target|] == target;
    } else {
      assert q == target;
    }
  }

  /** The paths `keys`, all at or below `source`, moved to `target`. */
  function Moved<V>(m: map<Text, V>, keys: set<Text>, source: Text, target: Text): map<Text, V>
    requires forall p :: p in keys ==> p in m && IsPathOrDescendant(p, source)
  {
    var targets := set p | p in keys && |source| <= |p| :: Rebase(p, source, target);
    map t | t in targets && |target| <= |t| && Rebase(t, target, source) in m :: m[Rebase(t, target, source)]
  }

  lemma MovedIs<V>(m: map<Text, V>, keys: set<Text>, source: Text, target: Text)
    requires forall p :: p in keys ==> p in m && IsPathOrDescendant(p, source)
    ensures forall p :: p in keys ==> |source| <= |p| && Rebase(p, source, target) in Moved(m, keys, source, target)
                                      && Moved(m, keys, source, target)[Rebase(p, source, target)] == m[p]
    ensures forall t :: t in Moved(m, keys, source, target) ==>
                          |target| <= |t| && Rebase(t, target, source) in keys
                          && t == Rebase(Rebase(t, target, source), source, target)
  {
    forall p | p in keys { RebaseBack(p, source, target); }
  }

  /** Re-keying a whole subtree in one step; a moved entry replaces whatever was at its target. */
  function Rekey<V>(m: map<Text, V>, source: Text, target: Text): map<Text, V> {
    (m - Subtree(m, source)) + Moved(m, Subtree(m, source), source, target)
  }

  /** Re-keying, read at one path. */
  lemma RekeyAt<V>(m: map<Text, V>, source: Text, target: Text, t: Text)
    ensures var p := if IsPathOrDescendant(t, target) then Rebase(t, target, source) else t;
            var r := Rekey(m, source, target);
            if IsPathOrDescendant(t, target) && p in m then t in r && r[t] == m[p]
            else (t in r <==> t in m && !IsPathOrDescendant(t, source)) && (t in r ==> r[t] == m[t])
  {
    var sub := Subtree(m, source);
    MovedIs(m, sub, source, target);
    if IsPathOrDescendant(t, target) {
      RebaseBack(t, target, source);
    }
    if t in Moved(m, sub, source, target) {
      RebaseBack(Rebase(t, target, source), source, target);
    }
  }

  /** Moving a subtree to a place of its own and back changes nothing. */
  lemma RekeyBack<V>(m: map<Text, V>, source: Text, target: Text)
    requires Subtree(m, target) == {} && !IsPathOrDescendant(target, source)
    ensures Rekey(Rekey(m, source, target), target, source) == m
  {
    var there := Rekey(m, source, target);
    var back := Rekey(there, target, source);
    forall p | p in m
      ensures !IsPathOrDescendant(p, target)
    {
      assert p !in Subtree(m, target);
    }
    forall p
      ensures p in back <==> p in m
      ensures p in m ==> back[p] == m[p]
    {
      RekeyAt(there, target, source, p);
      RekeyAt(m, source, target, p);
      if IsPathOrDescendant(p, source) {
        RebaseBack(p, source, target);
        RekeyAt(m, source, target, Rebase(p, source, target));
      }
    }
  }

  lemma PrefixShorter(p: Text, source: Text)
    requires IsPathOrDescendant(p, source)
    ensures |source| <= |p|
  {}

  lemma MovedNone<V>(m: map<Text, V>, source: Text, target: Text)
    ensures Moved(m, {}, source, target) == map[]
  {}

  /** The moved entries, read at one path. */
  lemma MovedAt<V>(m: map<Text, V>, keys: set<Text>, source: Text, target: Text, t: Text)
    requires forall q :: q in keys ==> q in m && IsPathOrDescendant(q, source)
    ensures t in Moved(m, keys, source, target) <==>
            IsPathOrDescendant(t, target) && Rebase(t, target, source) in keys
    ensures t in Moved(m, keys, source, target) ==>
              Moved(m, keys, source, target)[t] == m[Rebase(t, target, source)]
  {
    MovedIs(m, keys, source, target);
    if IsPathOrDescendant(t, target) {
      RebaseBack(t, target, source);
    }
    if t in Moved(m, keys, source, target) {
      RebaseBack(Rebase(t, target, source), source, target);
    }
  }

  lemma MovedAdd<V>(m: map<Text, V>, keys: set<Text>, p: Text, source: Text, target: Text)
    requires forall q :: q in keys ==> q in m && IsPathOrDescendant(q, source)
    requires p in m && IsPathOrDescendant(p, source)
    ensures Moved(m, keys + {p}, source, target) == Moved(m, keys, source, target)[Rebase(p, source, target) := m[p]]
  {
    hide Moved;
    RebaseBack(p, source, target);
    var a, b := Moved(m, keys + {p}, source, target), Moved(m, keys, source, target)[Rebase(p, source, target) := m[p]];
    forall t
      ensures t in a <==> t in b
      ensures t in a ==> a[t] == b[t]
    {
      MovedAt(m, keys, source, target, t);
      MovedAt(m, keys + {p}, source, target, t);
      if IsPathOrDescendant(t, target) {
        RebaseBack(t, target, source);
      }
    }
  }
}
