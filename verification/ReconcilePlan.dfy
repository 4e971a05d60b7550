/** What a full rescan may conclude from two identity indexes, as relations on the indexes. */
module ReconcilePlan {
  import opened Bytes
  import opened Decimal
  import opened EventLog
  import opened IdentityIndexes
  import opened Subtrees

  function KindOf(e: IndexedPath): EntryKind {
    if e.isDirectory then Directory else File
  }

  function EntryKey(m: Entries, p: Text): Key
    requires p in m
  {
    Key(p, KindOf(m[p]))
  }

  function KeysOf(m: Entries): set<Key> {
    set p | p in m :: EntryKey(m, p)
  }

  /** Paths of `m` that the other index lacks or holds under another identity. */
  function Changed(m: Entries, other: Entries): set<Text> {
    set p | p in m && (p !in other || other[p].identity != m[p].identity)
  }

  // ------------------------------------------------------------ inferred renames

  /** The only path of an identity before and the only path of it now, the latter at a new place. */
  ghost predicate IsCandidate(O: Entries, N: Entries, p: Text, q: Text) {
    && p in O && q in N && O[p].identity == N[q].identity
    && PathsOf(O, O[p].identity) == {p} && PathsOf(N, N[q].identity) == {q}
    && q !in O && O[p].isDirectory == N[q].isDirectory
    && (!O[p].isDirectory ==> O[p].linkCount == 1 && N[q].linkCount == 1)
  }

  /** An entry found again, under the same identity, below the new place of its directory. */
  ghost predicate IsPairBelow(O: Entries, N: Entries, a: Text, b: Text, p: Text, q: Text) {
    && p in Changed(O, N) && IsDescendant(p, a) && q == Rebase(p, a, b)
    && q in N && N[q].identity == O[p].identity && N[q].isDirectory == O[p].isDirectory
  }

  /** A rename the rescan infers: a candidate, or an entry that moved along with a candidate directory. */
  ghost predicate Inferred(O: Entries, N: Entries, p: Text, q: Text) {
    || IsCandidate(O, N, p, q)
    || exists a, b :: IsCandidate(O, N, a, b) && O[a].isDirectory && IsPairBelow(O, N, a, b, p, q)
  }

  ghost function Sources(O: Entries, N: Entries): set<Text> {
    set p | p in O && exists q :: Inferred(O, N, p, q)
  }

  ghost function Targets(O: Entries, N: Entries): set<Text> {
    set q | q in N && exists p :: Inferred(O, N, p, q)
  }

  /** One identity at one path keeps its kind. */
  ghost predicate KindsAgree(O: Entries, N: Entries) {
    forall p :: p in O && p in N && O[p].identity == N[p].identity ==> O[p].isDirectory == N[p].isDirectory
  }

  lemma InferredSides(O: Entries, N: Entries, root: Text, p: Text, q: Text)
    requires AncestorsIndexed(O, root) && Rooted(N, root) && Inferred(O, N, p, q)
    ensures p in Changed(O, N) && q in N && q !in O
    ensures O[p].isDirectory == N[q].isDirectory && O[p].identity == N[q].identity
  {
    if IsCandidate(O, N, p, q) {
      assert p !in PathsOf(N, N[q].identity);
    } else {
      var a, b :| IsCandidate(O, N, a, b) && O[a].isDirectory && IsPairBelow(O, N, a, b, p, q);
      assert q[|b|..] == p[|a|..];
      assert q[|b|] == p[|a|] && q[..|b|] == b;
      assert IsDescendant(q, b) && IsUnder(b, root);
    }
  }

  /** An accepted directory accounts for every candidate it covers, and for what those cover. */
  lemma PairBelowNested(O: Entries, N: Entries, a: Text, b: Text, c: Text, d: Text, p: Text, q: Text)
    requires IsDescendant(c, a) && d == Rebase(c, a, b) && IsPairBelow(O, N, c, d, p, q)
    ensures IsPairBelow(O, N, a, b, p, q)
  {
    DescendantTransitive(p, c, a);
    assert p == p[..|c|] + p[|c|..];
    assert p[|a|..] == c[|a|..] + p[|c|..];
  }

  // ------------------------------------------------------------ plans

  /** The source and target keys of an emitted rename. */
  datatype Move = Move(source: Key, target: Key)

  /** An entry reported as created, or as updated in place. */
  datatype Addition = Addition(key: Key, asUpdate: bool)

  const RENAME_PREFIX: Text := [102, 115, 101, 118, 101, 110, 116, 115, 58]  // "fsevents:"

  function RenameId(n: nat): Text {
    RENAME_PREFIX + Digits(n)
  }

  lemma RenameIdInjective(m: nat, n: nat)
    requires RenameId(m) == RenameId(n)
    ensures m == n
  {
    assert RenameId(m)[|RENAME_PREFIX|..] == Digits(m) && RenameId(n)[|RENAME_PREFIX|..] == Digits(n);
    DigitsInjective(m, n);
  }

  function PlayMoves(m: Log, moves: seq<Move>, start: nat): Log {
    if moves == [] then m
    else
      var last := moves[|moves| - 1];
      Rename(PlayMoves(m, moves[..|moves| - 1], start), last.source, last.target, RenameId(start + |moves|))
  }

  function PlayRemoves(m: Log, keys: seq<Key>): Log {
    if keys == [] then m else Remove(PlayRemoves(m, keys[..|keys| - 1]), keys[|keys| - 1])
  }

  function PlayAddition(m: Log, a: Addition): Log {
    if a.asUpdate then Touch(m, a.key) else Create(m, a.key)
  }

  function PlayAdditions(m: Log, additions: seq<Addition>): Log {
    if additions == [] then m
    else PlayAddition(PlayAdditions(m, additions[..|additions| - 1]), additions[|additions| - 1])
  }

  function PlayUpdates(m: Log, keys: seq<Key>): Log {
    if keys == [] then m else Touch(PlayUpdates(m, keys[..|keys| - 1]), keys[|keys| - 1])
  }

  datatype Plan = Plan(moves: seq<Move>, removes: seq<Key>, additions: seq<Addition>, updates: seq<Key>)

  function Play(m: Log, plan: Plan, start: nat): Log {
    PlayUpdates(PlayAdditions(PlayRemoves(PlayMoves(m, plan.moves, start), plan.removes), plan.additions), plan.updates)
  }

  predicate DistinctAdditions(additions: seq<Addition>) {
    forall i, j :: 0 <= i < j < |additions| ==> additions[i].key != additions[j].key
  }

  /** What the rescan emits, in terms of the two indexes. */
  ghost predicate IsPlan(O: Entries, N: Entries, plan: Plan) {
    && (forall i :: 0 <= i < |plan.moves| ==>
          var s, t := plan.moves[i].source, plan.moves[i].target;
          && Inferred(O, N, s.path, t.path)
          && s.path in O && s == EntryKey(O, s.path) && t.path in N && t == EntryKey(N, t.path))
    && (forall p :: p in Sources(O, N) ==> exists i :: 0 <= i < |plan.moves| && plan.moves[i].source.path == p)
    && (forall q :: q in Targets(O, N) ==> exists i :: 0 <= i < |plan.moves| && plan.moves[i].target.path == q)
    && (forall k :: k in plan.removes <==>
                    && k.path in Changed(O, N) && k.path !in Sources(O, N) && k == EntryKey(O, k.path)
                    && (O[k.path].isDirectory || k.path !in N || N[k.path].isDirectory))
    && (forall a :: a in plan.additions <==>
                    && a.key.path in Changed(N, O) && a.key.path !in Targets(O, N) && a.key == EntryKey(N, a.key.path)
                    && a.asUpdate == (a.key.path in O && !O[a.key.path].isDirectory && !N[a.key.path].isDirectory))
    && DistinctAdditions(plan.additions)
    && (forall k :: k in plan.updates <==>
                    && k.path in N && k == EntryKey(N, k.path) && k.path in O && !N[k.path].isDirectory
                    && O[k.path].identity == N[k.path].identity && O[k.path].mtime != N[k.path].mtime)
  }
}
