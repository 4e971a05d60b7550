/** Splitting slash-separated texts into components. */
module PathComponents {
  import opened Bytes

  /** The position of the last separator, or -1. */
  function LastSlash(t: Text): (j: int)
    ensures -1 <= j < |t|
    ensures j >= 0 ==> t[j] == SLASH
    ensures forall k :: j < k < |t| ==> t[k] != SLASH
  {
    if t == [] then -1
    else if t[|t| - 1] == SLASH then |t| - 1
    else LastSlash(t[..|t| - 1])
  }

  lemma LastSlashIs(t: Text, j: int)
    requires -1 <= j < |t| && (j >= 0 ==> t[j] == SLASH)
    requires forall k :: j < k < |t| ==> t[k] != SLASH
    ensures LastSlash(t) == j
  {}

  /** All components of a text, empty ones included; the empty text has one empty component. */
  function Split(t: Text): (cs: seq<Text>)
    ensures cs != []
    decreases |t|
  {
    var j := LastSlash(t);
    if j < 0 then [t] else Split(t[..j]) + [t[j + 1..]]
  }

  /** What `components` returns: the empty path has none. */
  function ComponentsOf(path: Text): seq<Text> {
    if path == [] then [] else Split(path)
  }

  /** The components of a text read up to `start`, the position after a separator. */
  function Before(t: Text, start: nat): seq<Text>
    requires start <= |t|
  {
    if start == 0 then [] else Split(t[..start - 1])
  }

  /** One more component, ending at `index`, completes the split of the prefix. */
  lemma SplitStep(t: Text, start: nat, index: nat)
    requires start <= index <= |t| && (start > 0 ==> t[start - 1] == SLASH)
    requires forall k :: start <= k < index ==> t[k] != SLASH
    ensures LastSlash(t[..index]) == start - 1
    ensures Split(t[..index]) == Before(t, start) + [t[start..index]]
  {
    LastSlashIs(t[..index], start - 1);
    assert t[..index][start..] == t[start..index];
    if start > 0 {
      assert t[..index][..start - 1] == t[..start - 1];
    }
  }

  method Components(path: Text) returns (result: seq<Text>)
    ensures result == ComponentsOf(path)
  {
    result := [];
    if path == [] {
      return;
    }
    var start := 0;
    for index := 0 to |path| + 1
      invariant start <= |path| + 1 && start <= index
      invariant start <= |path| ==> (start > 0 ==> path[start - 1] == SLASH) && result == Before(path, start)
      invariant start <= |path| ==> forall k :: start <= k < index && k < |path| ==> path[k] != SLASH
      invariant index <= |path| ==> start <= |path|
      invariant index == |path| + 1 ==> result == Split(path)
    {
      if index == |path| || path[index] == SLASH {
        SplitStep(path, start, index);
        result := result + [path[start..index]];
        start := index + 1;
        assert index == |path| ==> path[..index] == path;
      }
    }
  }

  /** The directory text a list of components names below `root`. */
  function Join(root: Text, cs: seq<Text>): Text {
    if cs == [] then root else Join(root, cs[..|cs| - 1]) + [SLASH] + cs[|cs| - 1]
  }

  lemma JoinOne(root: Text, cs: seq<Text>, c: Text)
    ensures Join(root, cs + [c]) == Join(root, cs) + [SLASH] + c
  {
    assert (cs + [c])[..|cs|] == cs;
  }

  lemma {:induction false} JoinSplit(root: Text, t: Text)
    ensures Join(root, Split(t)) == root + [SLASH] + t
    decreases |t|
  {
    hide Join, LastSlash;
    var j := LastSlash(t);
    if j >= 0 {
      JoinSplit(root, t[..j]);
      JoinOne(root, Split(t[..j]), t[j + 1..]);
      assert t == t[..j] + [SLASH] + t[j + 1..];
    } else {
      JoinOne(root, [], t);
      assert Join(root, []) == root by { JoinNone(root); }
      assert [] + [t] == [t];
    }
  }

  lemma JoinNone(root: Text)
    ensures Join(root, []) == root
  {}
}
