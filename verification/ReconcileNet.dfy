/** What a reconciliation plan leaves in an event list: the net change, exactly when it does. */
module ReconcileNet {
  import opened Bytes
  import opened Options
  import opened EventLog
  import opened EventHistory
  import opened IdentityIndexes
  import opened ReconcilePlan

  // ------------------------------------------------------------ one phase, one key

  ghost predicate IsSource(moves: seq<Move>, k: Key) {
    exists i :: 0 <= i < |moves| && moves[i].source == k
  }

  ghost predicate IsTarget(moves: seq<Move>, k: Key) {
    exists i :: 0 <= i < |moves| && moves[i].target == k
  }

  /** No move leads to a place that another one leaves. */
  ghost predicate Apart(moves: seq<Move>) {
    forall i, j :: 0 <= i < |moves| && 0 <= j < |moves| ==> moves[i].source != moves[j].target
  }

  lemma {:induction false} MovesFlags(moves: seq<Move>, start: nat, k: Key)
    requires Apart(moves)
    ensures var m := PlayMoves(map[], moves, start);
            && (k in m <==> IsSource(moves, k) || IsTarget(moves, k))
            && (IsSource(moves, k) ==> m[k].IsDelete())
            && (IsTarget(moves, k) ==> m[k].IsCreate())
    decreases |moves|
  {
    if moves != [] {
      var n := |moves| - 1;
      var init, last := moves[..n], moves[n];
      var before, id := PlayMoves(map[], init, start), RenameId(start + |moves|);
      MovesFlags(init, start, k);
      MovesFlags(init, start, last.source);
      MovesFlags(init, start, last.target);
      assert moves[n].source != moves[n].target;
      NotBoth(moves, last);
      RenameSource(before, last.source, last.target, id);
      RenameTarget(before, last.source, last.target, id);
      if k != last.source && k != last.target {
        RenameFrame(before, last.source, last.target, id, k);
      }
      SourcesSnoc(init, last, k);
      assert moves == init + [last];
    }
  }

  lemma NotBoth(moves: seq<Move>, last: Move)
    requires moves != [] && Apart(moves) && last == moves[|moves| - 1]
    ensures !IsTarget(moves[..|moves| - 1], last.source) && !IsSource(moves[..|moves| - 1], last.target)
    ensures !(IsSource(moves, last.target) || IsTarget(moves, last.source))
  {}

  lemma SourcesSnoc(init: seq<Move>, last: Move, k: Key)
    ensures IsSource(init + [last], k) <==> IsSource(init, k) || k == last.source
    ensures IsTarget(init + [last], k) <==> IsTarget(init, k) || k == last.target
  {
    var all := init + [last];
    assert all[|init|] == last;
    assert forall i :: 0 <= i < |init| ==> all[i] == init[i];
  }

  lemma {:induction false} RemovesFlags(m: Log, keys: seq<Key>, k: Key)
    ensures k in keys ==> k in PlayRemoves(m, keys) && PlayRemoves(m, keys)[k].isDeleted
                          && PlayRemoves(m, keys)[k].isCreated == (k in m && m[k].isCreated)
    ensures k !in keys ==> (k in PlayRemoves(m, keys) <==> k in m) && (k in m ==> PlayRemoves(m, keys)[k] == m[k])
    decreases |keys|
  {
    if keys != [] {
      var init, last := keys[..|keys| - 1], keys[|keys| - 1];
      RemovesFlags(m, init, k);
      assert keys == init + [last];
    }
  }

  /** An addition looks at its own key only. */
  lemma AdditionFrame(m: Log, other: Log, a: Addition, k: Key)
    requires (a.key in m <==> a.key in other) && (a.key in m ==> m[a.key] == other[a.key])
    ensures k != a.key ==> (k in PlayAddition(m, a) <==> k in m) && (k in m ==> PlayAddition(m, a)[k] == m[k])
    ensures a.key in PlayAddition(m, a) && a.key in PlayAddition(other, a)
    ensures PlayAddition(m, a)[a.key] == PlayAddition(other, a)[a.key]
  {}

  /** The addition of a key, if there is one, is all that happens to the key in this phase. */
  lemma {:induction false} AdditionsFlags(m: Log, additions: seq<Addition>, k: Key)
    requires DistinctAdditions(additions)
    ensures forall a :: a in additions && a.key == k ==>
                          k in PlayAdditions(m, additions) && k in PlayAddition(m, a)
                          && PlayAdditions(m, additions)[k] == PlayAddition(m, a)[k]
    ensures (forall a :: a in additions ==> a.key != k) ==>
              (k in PlayAdditions(m, additions) <==> k in m) && (k in m ==> PlayAdditions(m, additions)[k] == m[k])
    decreases |additions|
  {
    if additions != [] {
      var n := |additions| - 1;
      var init, last := additions[..n], additions[n];
      hide PlayAddition;
      AdditionsFlags(m, init, k);
      AdditionsFlags(m, init, last.key);
      assert additions == init + [last];
      assert forall i :: 0 <= i < n ==> init[i] == additions[i];
      assert forall a :: a in init ==> a.key != last.key;
      AdditionFrame(PlayAdditions(m, init), m, last, k);
    }
  }

  lemma {:induction false} UpdatesFlags(m: Log, keys: seq<Key>, k: Key)
    ensures k in keys ==> k in PlayUpdates(m, keys) && PlayUpdates(m, keys)[k] == Touch(m, k)[k]
    ensures k !in keys ==> (k in PlayUpdates(m, keys) <==> k in m) && (k in m ==> PlayUpdates(m, keys)[k] == m[k])
    decreases |keys|
  {
    if keys != [] {
      var init, last := keys[..|keys| - 1], keys[|keys| - 1];
      UpdatesFlags(m, init, k);
      assert keys == init + [last];
    }
  }

  // ------------------------------------------------------------ the whole plan

  /** Files whose inferred rename left a place that a new regular file has taken. */
  ghost function Reoccupied(O: Entries, N: Entries): set<Key> {
    set p | p in Sources(O, N) && p in O && p in N && !O[p].isDirectory && !N[p].isDirectory :: Key(p, File)
  }

  /** Entries of unchanged path and kind that are new underneath, or files with a new modification time. */
  ghost function Renewed(O: Entries, N: Entries): set<Key> {
    set p | p in N && p in O && O[p].isDirectory == N[p].isDirectory &&
            (O[p].identity != N[p].identity || (!N[p].isDirectory && O[p].mtime != N[p].mtime)) :: EntryKey(N, p)
  }

  /** Paths whose identity stayed while their kind changed: a new object under a reused identity. */
  function Switched(O: Entries, N: Entries): set<Text> {
    set p | p in O && p in N && O[p].identity == N[p].identity && O[p].isDirectory != N[p].isDirectory
  }

  /** Switched paths that are files now, with another time. */
  function Retimed(O: Entries, N: Entries): set<Key> {
    set p | p in Switched(O, N) && !N[p].isDirectory && O[p].mtime != N[p].mtime :: Key(p, File)
  }

  /** Keys of the first index only, switched paths aside. */
  function OnlyIn(A: Entries, B: Entries): set<Key> {
    set k | k in KeysOf(A) - KeysOf(B) && k.path !in Switched(A, B)
  }

  /** What the plan's phases do to one key. */
  ghost predicate KeyOutcome(O: Entries, N: Entries, m: Log, k: Key) {
    && (k in OnlyIn(N, O) ==> k in m && m[k].IsCreate())
    && (k in OnlyIn(O, N) + Reoccupied(O, N) ==> k in m && m[k].IsDelete())
    && (k in (Renewed(O, N) - Reoccupied(O, N)) + Retimed(O, N) ==> k in m && m[k].IsUpdate())
    && (k !in OnlyIn(N, O) + OnlyIn(O, N) + Reoccupied(O, N) + Renewed(O, N) + Retimed(O, N) ==> k !in m)
  }

  lemma MovesApart(O: Entries, N: Entries, root: Text, plan: Plan)
    requires AncestorsIndexed(O, root) && Rooted(N, root) && IsPlan(O, N, plan)
    ensures Apart(plan.moves)
  {
    forall i, j | 0 <= i < |plan.moves| && 0 <= j < |plan.moves|
      ensures plan.moves[i].source != plan.moves[j].target
    {
      InferredSides(O, N, root, plan.moves[i].source.path, plan.moves[i].target.path);
      InferredSides(O, N, root, plan.moves[j].source.path, plan.moves[j].target.path);
    }
  }

  /** Which keys the moves touch. */
  lemma MoveKeys(O: Entries, N: Entries, root: Text, plan: Plan, k: Key)
    requires AncestorsIndexed(O, root) && Rooted(N, root) && IsPlan(O, N, plan)
    ensures IsSource(plan.moves, k) <==> k.path in Sources(O, N) && k == EntryKey(O, k.path)
    ensures IsTarget(plan.moves, k) <==> k.path in Targets(O, N) && k == EntryKey(N, k.path)
    ensures k.path in Sources(O, N) ==> k.path in Changed(O, N)
    ensures k.path in Targets(O, N) ==> k.path in Changed(N, O) && k.path !in O
  {
    if k.path in Sources(O, N) {
      var q :| Inferred(O, N, k.path, q);
      InferredSides(O, N, root, k.path, q);
      var i :| 0 <= i < |plan.moves| && plan.moves[i].source.path == k.path;
    }
    if k.path in Targets(O, N) {
      var p :| Inferred(O, N, p, k.path);
      InferredSides(O, N, root, p, k.path);
      var i :| 0 <= i < |plan.moves| && plan.moves[i].target.path == k.path;
    }
  }

  /** Keys that are gone, or whose old object is, once moves and removals are played. */
  ghost predicate Gone(O: Entries, N: Entries, k: Key) {
    && k.path in Changed(O, N) && k == EntryKey(O, k.path)
    && (k.path in Sources(O, N) || O[k.path].isDirectory || k.path !in N || N[k.path].isDirectory)
  }

  ghost predicate Arrived(O: Entries, N: Entries, k: Key) {
    k.path in Targets(O, N) && k == EntryKey(N, k.path)
  }

  ghost predicate AfterRemovals(O: Entries, N: Entries, m: Log, k: Key) {
    && (Gone(O, N, k) ==> k in m && m[k].IsDelete())
    && (Arrived(O, N, k) ==> k in m && m[k].IsCreate())
    && (!Gone(O, N, k) && !Arrived(O, N, k) ==> k !in m)
  }

  lemma RemovalsOutcome(O: Entries, N: Entries, root: Text, plan: Plan, start: nat, k: Key)
    requires AncestorsIndexed(O, root) && Rooted(N, root) && IsPlan(O, N, plan)
    ensures AfterRemovals(O, N, PlayRemoves(PlayMoves(map[], plan.moves, start), plan.removes), k)
    ensures Arrived(O, N, k) ==> k.path !in O && k.path in Changed(N, O)
    ensures k.path in Sources(O, N) ==> k.path in Changed(O, N)
  {
    hide Inferred, Rename;
    MovesApart(O, N, root, plan);
    MoveKeys(O, N, root, plan, k);
    MovesFlags(plan.moves, start, k);
    RemovesFlags(PlayMoves(map[], plan.moves, start), plan.removes, k);
  }

  /** The entry an addition reports for a key, if there is one. */
  ghost predicate Added(O: Entries, N: Entries, k: Key) {
    k.path in Changed(N, O) && k.path !in Targets(O, N) && k == EntryKey(N, k.path)
  }

  lemma AdditionsOutcome(O: Entries, N: Entries, m: Log, plan: Plan, k: Key)
    requires IsPlan(O, N, plan)
    ensures var r := PlayAdditions(m, plan.additions);
            if Added(O, N, k) then
              var a := Addition(k, k.path in O && !O[k.path].isDirectory && !N[k.path].isDirectory);
              k in r && k in PlayAddition(m, a) && r[k] == PlayAddition(m, a)[k]
            else (k in r <==> k in m) && (k in m ==> r[k] == m[k])
  {
    hide PlayAddition, Sources, Targets;
    AdditionsFlags(m, plan.additions, k);
    if Added(O, N, k) {
      assert Addition(k, k.path in O && !O[k.path].isDirectory && !N[k.path].isDirectory) in plan.additions;
    }
  }

  lemma Memberships(O: Entries, N: Entries, k: Key)
    ensures k in KeysOf(O) <==> k.path in O && k == EntryKey(O, k.path)
    ensures k in KeysOf(N) <==> k.path in N && k == EntryKey(N, k.path)
    ensures k in Reoccupied(O, N) <==>
            && k.path in Sources(O, N) && k.path in O && k.path in N
            && !O[k.path].isDirectory && !N[k.path].isDirectory && k.kind == File
    ensures k in Renewed(O, N) <==>
            && k.path in N && k.path in O && O[k.path].isDirectory == N[k.path].isDirectory && k == EntryKey(N, k.path)
            && (O[k.path].identity != N[k.path].identity ||
                (!N[k.path].isDirectory && O[k.path].mtime != N[k.path].mtime))
    ensures k in Retimed(O, N) <==>
            && k.path in N && k.path in O && O[k.path].isDirectory && !N[k.path].isDirectory && k.kind == File
            && O[k.path].identity == N[k.path].identity && O[k.path].mtime != N[k.path].mtime
    ensures k in OnlyIn(O, N) <==>
            && k.path in O && k == EntryKey(O, k.path)
            && (k.path in N ==>
                  O[k.path].isDirectory != N[k.path].isDirectory && O[k.path].identity != N[k.path].identity)
    ensures k in OnlyIn(N, O) <==>
            && k.path in N && k == EntryKey(N, k.path)
            && (k.path in O ==>
                  O[k.path].isDirectory != N[k.path].isDirectory && O[k.path].identity != N[k.path].identity)
  {}

  lemma PlanOutcome(O: Entries, N: Entries, root: Text, plan: Plan, start: nat, k: Key)
    requires AncestorsIndexed(O, root) && Rooted(N, root) && IsPlan(O, N, plan)
    ensures KeyOutcome(O, N, Play(map[], plan, start), k)
  {
    hide PlayRemoves, PlayMoves, PlayAdditions, PlayUpdates, Inferred, Sources, Targets;
    hide KeysOf, Reoccupied, Renewed, Retimed, OnlyIn, AncestorsIndexed, Rooted;
    var m1 := PlayRemoves(PlayMoves(map[], plan.moves, start), plan.removes);
    var m2 := PlayAdditions(m1, plan.additions);
    RemovalsOutcome(O, N, root, plan, start, k);
    AdditionsOutcome(O, N, m1, plan, k);
    UpdatesFlags(m2, plan.updates, k);
    Memberships(O, N, k);
    assert k in plan.updates <==>
           && k.path in N && k == EntryKey(N, k.path) && k.path in O && !N[k.path].isDirectory
           && O[k.path].identity == N[k.path].identity && O[k.path].mtime != N[k.path].mtime;
    SourcesExist(O, N, k.path);
    FinishKey(O, N, m1, m2, PlayUpdates(m2, plan.updates), k, k in plan.updates);
  }

  lemma SourcesExist(O: Entries, N: Entries, p: Text)
    ensures p in Sources(O, N) ==> p in O
    ensures p in Targets(O, N) ==> p in N
  {}

  /** The case analysis on one key, once its three states are known. */
  lemma FinishKey(O: Entries, N: Entries, m1: Log, m2: Log, m3: Log, k: Key, updated: bool)
    requires AfterRemovals(O, N, m1, k)
    requires Arrived(O, N, k) ==> k.path !in O && k.path in Changed(N, O)
    requires k.path in Targets(O, N) ==> k.path in N
    requires k.path in Sources(O, N) ==> k.path in Changed(O, N)
    requires if Added(O, N, k) then
               var a := Addition(k, k.path in O && !O[k.path].isDirectory && !N[k.path].isDirectory);
               k in m2 && k in PlayAddition(m1, a) && m2[k] == PlayAddition(m1, a)[k]
             else (k in m2 <==> k in m1) && (k in m1 ==> m2[k] == m1[k])
    requires if updated then k in m3 && m3[k] == Touch(m2, k)[k]
             else (k in m3 <==> k in m2) && (k in m2 ==> m3[k] == m2[k])
    requires updated <==>
             && k.path in N && k == EntryKey(N, k.path) && k.path in O && !N[k.path].isDirectory
             && O[k.path].identity == N[k.path].identity && O[k.path].mtime != N[k.path].mtime
    ensures KeyOutcome(O, N, m3, k)
  {
    hide Sources, Targets, KeysOf, Reoccupied, Renewed, Retimed, OnlyIn;
    Memberships(O, N, k);
  }

  // ------------------------------------------------------------ the net change

  /** The batch after a reconciliation: creates are the new keys, deletes are the keys that are gone plus
      every reoccupied file, and updates are the renewed keys less those; of a path whose kind switched
      under one identity, a new time of what is a file now is all that is reported. */
  lemma ReconciledBatch(O: Entries, N: Entries, root: Text, plan: Plan, start: nat)
    requires AncestorsIndexed(O, root) && Rooted(N, root) && IsPlan(O, N, plan)
    ensures var batch := Drained(Play(map[], plan, start));
            && CreatedIn(batch) == OnlyIn(N, O)
            && DeletedIn(batch) == OnlyIn(O, N) + Reoccupied(O, N)
            && UpdatedIn(batch) == (Renewed(O, N) - Reoccupied(O, N)) + Retimed(O, N)
  {
    hide Play, Drained, AncestorsIndexed, OnlyIn, Reoccupied, Renewed, Retimed;
    var m := Play(map[], plan, start);
    forall k
      ensures k in CreatedIn(Drained(m)) <==> k in OnlyIn(N, O)
      ensures k in DeletedIn(Drained(m)) <==> k in OnlyIn(O, N) + Reoccupied(O, N)
      ensures k in UpdatedIn(Drained(m)) <==> k in (Renewed(O, N) - Reoccupied(O, N)) + Retimed(O, N)
    {
      PlanOutcome(O, N, root, plan, start, k);
      DrainedFlags(m, k);
      Memberships(O, N, k);
    }
  }

  lemma KeysApart(O: Entries, N: Entries, k: Key)
    ensures k in Reoccupied(O, N) ==> k in KeysOf(O) && k in KeysOf(N)
    ensures k in Renewed(O, N) ==> k in KeysOf(O) && k in KeysOf(N)
  {
    Memberships(O, N, k);
  }

  lemma AgreedKinds(O: Entries, N: Entries)
    ensures KindsAgree(O, N) ==>
              OnlyIn(O, N) == KeysOf(O) - KeysOf(N) && OnlyIn(N, O) == KeysOf(N) - KeysOf(O) && Retimed(O, N) == {}
    ensures OnlyIn(N, O) == KeysOf(N) - KeysOf(O) ==> KindsAgree(O, N)
  {
    hide KeysOf, Retimed, OnlyIn;
    if KindsAgree(O, N) {
      forall k
        ensures k in OnlyIn(O, N) <==> k in KeysOf(O) - KeysOf(N)
        ensures k in OnlyIn(N, O) <==> k in KeysOf(N) - KeysOf(O)
        ensures k !in Retimed(O, N)
      {
        Memberships(O, N, k);
      }
    } else {
      var p :| p in O && p in N && O[p].identity == N[p].identity && O[p].isDirectory != N[p].isDirectory;
      Memberships(O, N, EntryKey(N, p));
    }
  }

  /** The batch is the exact net change if and only if no identity has switched its kind in place and no
      inferred file rename left a place that a new regular file has taken since. */
  lemma ReconcileExact(O: Entries, N: Entries, root: Text, plan: Plan, start: nat)
    requires AncestorsIndexed(O, root) && Rooted(N, root) && IsPlan(O, N, plan)
    ensures IsNetChange(Drained(Play(map[], plan, start)), KeysOf(O), KeysOf(N), Renewed(O, N)) <==>
            KindsAgree(O, N) && Reoccupied(O, N) == {}
  {
    hide Play, Drained, AncestorsIndexed, KindsAgree, CreatedIn, DeletedIn, UpdatedIn, OnlyIn, Retimed, Switched;
    ReconciledBatch(O, N, root, plan, start);
    AgreedKinds(O, N);
    forall k { KeysApart(O, N, k); }
    if KindsAgree(O, N) {
      if k :| k in Reoccupied(O, N) {
        assert k in (KeysOf(O) - KeysOf(N)) + Reoccupied(O, N) && k !in KeysOf(O) - KeysOf(N);
      } else {
        assert KeysOf(O) * KeysOf(N) * Renewed(O, N) == Renewed(O, N) - Reoccupied(O, N);
      }
    }
  }

  /** Kinds switch when an identity is used again: the file `/w/a` is gone and the directory `/w/a` has its
      inode. Whatever plan is played, the batch is empty. */
  lemma SwitchHappens() returns (O: Entries, N: Entries, root: Text)
    ensures PrefixClosed(O, root) && PrefixClosed(N, root) && root in O && root in N && KeysOf(O) != KeysOf(N)
    ensures forall plan, start: nat :: IsPlan(O, N, plan) ==> Drained(Play(map[], plan, start)) == map[]
  {
    root := [SLASH, 119];
    var a: Text := [SLASH, 119, SLASH, 97];
    var top := IndexedPath(FileIdentity(1, 1), 0, 2, true);
    var file, dir := IndexedPath(FileIdentity(1, 2), 0, 1, false), IndexedPath(FileIdentity(1, 2), 0, 2, true);
    O, N := map[root := top, a := file], map[root := top, a := dir];
    SmallIndexes(O, N, root, a, a);
    assert Key(a, File) in KeysOf(O) - KeysOf(N) by { Memberships(O, N, Key(a, File)); }
    forall plan, start: nat | IsPlan(O, N, plan)
      ensures Drained(Play(map[], plan, start)) == map[]
    {
      forall k
        ensures k !in Play(map[], plan, start)
      {
        PlanOutcome(O, N, root, plan, start, k);
        Memberships(O, N, k);
        NothingChanged(O, N, k.path);
      }
    }
  }

  lemma NothingChanged(O: Entries, N: Entries, p: Text)
    requires Changed(O, N) == {}
    ensures p !in Sources(O, N)
  {
    if q :| Inferred(O, N, p, q) {
      SourceChanged(O, N, p, q);
    }
  }

  /** It happens: the file `/w/a` is renamed to `/w/b` and another file takes its place. Whatever plan is
      played, the batch reports `/w/a` as deleted although it is there. */
  lemma ReoccupiedHappens() returns (O: Entries, N: Entries, root: Text, k: Key)
    ensures PrefixClosed(O, root) && PrefixClosed(N, root) && KindsAgree(O, N) && root in O && root in N
    ensures Reoccupied(O, N) == {k} && k in KeysOf(N)
    ensures forall plan, start: nat :: IsPlan(O, N, plan) ==> k in DeletedIn(Drained(Play(map[], plan, start)))
  {
    root := [SLASH, 119];
    var a, b: Text := [SLASH, 119, SLASH, 97], [SLASH, 119, SLASH, 98];
    var top := IndexedPath(FileIdentity(1, 1), 0, 2, true);
    var first, second := IndexedPath(FileIdentity(1, 2), 0, 1, false), IndexedPath(FileIdentity(1, 3), 0, 1, false);
    O, N, k := map[root := top, a := first], map[root := top, b := first, a := second], Key(a, File);
    assert a[3] != b[3] && |root| == 2;
    SmallIndexes(O, N, root, a, b);
    ReoccupiedOne(O, N, a, b);
    forall plan, start: nat | IsPlan(O, N, plan)
      ensures k in DeletedIn(Drained(Play(map[], plan, start)))
    {
      ReconciledBatch(O, N, root, plan, start);
    }
  }

  /** Two files directly below a directory make a prefix-closed index. */
  lemma SmallIndexes(O: Entries, N: Entries, root: Text, a: Text, b: Text)
    requires |root| == 2 && |a| == |b| == 4 && IsDescendant(a, root) && IsDescendant(b, root)
    requires root[0] == SLASH && root[1] != SLASH && a[3] != SLASH && b[3] != SLASH
    requires O.Keys == {root, a} && N.Keys == {root, a, b} && O[root].isDirectory && N[root].isDirectory
    ensures PrefixClosed(O, root) && PrefixClosed(N, root)
  {
    forall p, d | p in N && IsDescendant(p, d) && IsUnder(d, root)
      ensures d == root
    {
      assert d == p[..|d|] && p[|d|] == SLASH;
      assert a[..2] == root && b[..2] == root;
      assert a[1] == root[1] && b[1] == root[1];
    }
  }

  lemma ReoccupiedOne(O: Entries, N: Entries, a: Text, b: Text)
    requires a in O && a in N && b in N && b !in O && a != b && O.Keys <= N.Keys && N.Keys == O.Keys + {b}
    requires !O[a].isDirectory && !N[a].isDirectory && !N[b].isDirectory && O[a].linkCount == N[b].linkCount == 1
    requires O[a].identity == N[b].identity && PathsOf(O, O[a].identity) == {a} && PathsOf(N, N[b].identity) == {b}
    requires forall p :: p in O && p != a ==> O[p] == N[p]
    ensures Reoccupied(O, N) == {Key(a, File)} && Key(a, File) in KeysOf(N)
  {
    assert IsCandidate(O, N, a, b) && Inferred(O, N, a, b);
    assert a in Sources(O, N);
    forall p | p in Sources(O, N)
      ensures p == a
    {
      var q :| Inferred(O, N, p, q);
      SourceChanged(O, N, p, q);
    }
    forall k
      ensures k in Reoccupied(O, N) <==> k == Key(a, File)
    {
      Memberships(O, N, k);
    }
  }

  lemma SourceChanged(O: Entries, N: Entries, p: Text, q: Text)
    requires Inferred(O, N, p, q)
    ensures p in Changed(O, N)
  {
    if IsCandidate(O, N, p, q) {
      assert p !in PathsOf(N, N[q].identity) || p == q;
    }
  }

  // ------------------------------------------------------------ rename ids

  /** An id stands on the delete at the source of its own move, or on the create at its target. */
  ghost predicate IdSide(m: Log, moves: seq<Move>, start: nat, k: Key) {
    k in m && m[k].renameId.Some? ==>
      exists i :: 0 <= i < |moves| && StandsFor(m, moves, start, k, i)
  }

  ghost predicate StandsFor(m: Log, moves: seq<Move>, start: nat, k: Key, i: nat)
    requires k in m && i < |moves|
  {
    && m[k].renameId == Some(RenameId(start + i + 1))
    && ((k == moves[i].source && m[k].IsDelete()) || (k == moves[i].target && m[k].IsCreate()))
  }

  /** One more move: its two sides carry the new id, all other sides keep theirs. */
  lemma MoveIdSides(before: Log, init: seq<Move>, last: Move, start: nat, k: Key)
    requires Apart(init + [last]) && IdSide(before, init, start, k)
    requires last.source in before ==> before[last.source].IsDelete()
    requires last.target in before ==> before[last.target].IsCreate()
    ensures IdSide(Rename(before, last.source, last.target, RenameId(start + |init| + 1)), init + [last], start, k)
  {
    hide RenameId, Rename;
    var moves, id := init + [last], RenameId(start + |init| + 1);
    var after := Rename(before, last.source, last.target, id);
    assert moves[|init|] == last && last.source != last.target;
    RenameSource(before, last.source, last.target, id);
    RenameTarget(before, last.source, last.target, id);
    if k == last.source || k == last.target {
      assert StandsFor(after, moves, start, k, |init|);
    } else {
      RenameFrame(before, last.source, last.target, id, k);
      if k in after && after[k].renameId.Some? {
        var i :| 0 <= i < |init| && StandsFor(before, init, start, k, i);
        assert moves[i] == init[i] && StandsFor(after, moves, start, k, i);
      }
    }
  }

  lemma {:induction false} MovesIds(moves: seq<Move>, start: nat, k: Key)
    requires Apart(moves)
    ensures IdSide(PlayMoves(map[], moves, start), moves, start, k)
    decreases |moves|
  {
    if moves != [] {
      hide RenameId, IdSide, Rename;
      var n := |moves| - 1;
      var init, last := moves[..n], moves[n];
      assert moves == init + [last];
      ApartInit(init, last);
      MovesIds(init, start, k);
      MovesFlags(init, start, last.source);
      MovesFlags(init, start, last.target);
      NotBoth(moves, last);
      MoveIdSides(PlayMoves(map[], init, start), init, last, start, k);
    }
  }

  lemma ApartInit(init: seq<Move>, last: Move)
    requires Apart(init + [last])
    ensures Apart(init)
  {
    var moves := init + [last];
    assert forall i :: 0 <= i < |init| ==> moves[i] == init[i];
  }

  /** Removals, additions and updates take ids away, but neither add one nor turn its side. */
  lemma SideKept(m: Log, after: Log, moves: seq<Move>, start: nat, k: Key)
    requires IdSide(m, moves, start, k)
    requires k in after && after[k].renameId.Some? ==>
               k in m && after[k].renameId == m[k].renameId
               && (m[k].IsDelete() ==> after[k].IsDelete()) && (m[k].IsCreate() ==> after[k].IsCreate())
    ensures IdSide(after, moves, start, k)
  {
    hide RenameId;
    if k in after && after[k].renameId.Some? {
      var i :| 0 <= i < |moves| && StandsFor(m, moves, start, k, i);
      assert StandsFor(after, moves, start, k, i);
    }
  }

  lemma {:induction false} RemovesIds(m: Log, keys: seq<Key>, moves: seq<Move>, start: nat, k: Key)
    requires IdSide(m, moves, start, k)
    ensures IdSide(PlayRemoves(m, keys), moves, start, k)
    decreases |keys|
  {
    hide IdSide;
    if keys != [] {
      RemovesIds(m, keys[..|keys| - 1], moves, start, k);
      SideKept(PlayRemoves(m, keys[..|keys| - 1]), PlayRemoves(m, keys), moves, start, k);
    }
  }

  lemma {:induction false} AdditionsIds(m: Log, additions: seq<Addition>, moves: seq<Move>, start: nat, k: Key)
    requires IdSide(m, moves, start, k)
    ensures IdSide(PlayAdditions(m, additions), moves, start, k)
    decreases |additions|
  {
    hide IdSide;
    if additions != [] {
      AdditionsIds(m, additions[..|additions| - 1], moves, start, k);
      SideKept(PlayAdditions(m, additions[..|additions| - 1]), PlayAdditions(m, additions), moves, start, k);
    }
  }

  lemma {:induction false} UpdatesIds(m: Log, keys: seq<Key>, moves: seq<Move>, start: nat, k: Key)
    requires IdSide(m, moves, start, k)
    ensures IdSide(PlayUpdates(m, keys), moves, start, k)
    decreases |keys|
  {
    hide IdSide;
    if keys != [] {
      UpdatesIds(m, keys[..|keys| - 1], moves, start, k);
      SideKept(PlayUpdates(m, keys[..|keys| - 1]), PlayUpdates(m, keys), moves, start, k);
    }
  }

  lemma PlanIds(O: Entries, N: Entries, root: Text, plan: Plan, start: nat, k: Key)
    requires AncestorsIndexed(O, root) && Rooted(N, root) && IsPlan(O, N, plan)
    ensures IdSide(Play(map[], plan, start), plan.moves, start, k)
  {
    hide IdSide, PlayMoves, PlayRemoves, PlayAdditions, PlayUpdates;
    MovesApart(O, N, root, plan);
    MovesIds(plan.moves, start, k);
    var m0 := PlayMoves(map[], plan.moves, start);
    var m1 := PlayRemoves(m0, plan.removes);
    RemovesIds(m0, plan.removes, plan.moves, start, k);
    AdditionsIds(m1, plan.additions, plan.moves, start, k);
    UpdatesIds(PlayAdditions(m1, plan.additions), plan.updates, plan.moves, start, k);
  }

  /** `d` and `c` are the two ends of an inferred rename, and alone in carrying its id. */
  ghost predicate TrueRename(O: Entries, N: Entries, batch: Log, id: Text, d: Key, c: Key) {
    && JoinedBy(batch, id, d, c) && Inferred(O, N, d.path, c.path)
    && d.path in O && d == EntryKey(O, d.path) && c.path in N && c == EntryKey(N, c.path)
  }

  /** Every id a reconciliation exposes joins exactly the two ends of one inferred rename. */
  lemma ReconciledIds(O: Entries, N: Entries, root: Text, plan: Plan, start: nat, k: Key) returns (d: Key, c: Key)
    requires AncestorsIndexed(O, root) && Rooted(N, root) && IsPlan(O, N, plan)
    requires k in Drained(Play(map[], plan, start)) && Drained(Play(map[], plan, start))[k].renameId.Some?
    ensures var batch := Drained(Play(map[], plan, start));
            (k == d || k == c) && TrueRename(O, N, batch, batch[k].renameId.value, d, c)
  {
    hide Play, Inferred, IdSide, Sources, Targets, Changed;
    var m := Play(map[], plan, start);
    var id := m[k].renameId.value;
    d, c := PairedJoins(m, id);
    PlanIds(O, N, root, plan, start, d);
    PlanIds(O, N, root, plan, start, c);
    var i := SharedMove(m, plan.moves, start, id, d, c);
    JoinedDrained(m, id, d, c);
  }

  /** The two ends of a join are those of one move. */
  lemma SharedMove(m: Log, moves: seq<Move>, start: nat, id: Text, d: Key, c: Key) returns (i: nat)
    requires JoinedBy(m, id, d, c) && IdSide(m, moves, start, d) && IdSide(m, moves, start, c)
    ensures i < |moves| && moves[i] == Move(d, c)
  {
    hide RenameId;
    i :| 0 <= i < |moves| && StandsFor(m, moves, start, d, i);
    var j :| 0 <= j < |moves| && StandsFor(m, moves, start, c, j);
    RenameIdInjective(start + i + 1, start + j + 1);
  }

  lemma JoinedDrained(m: Log, id: Text, d: Key, c: Key)
    requires JoinedBy(m, id, d, c)
    ensures JoinedBy(Drained(m), id, d, c)
  {
    JoinedPairs(m, id, d, c);
  }
}
