/** A pure move of a directory, seen by a full rescan. */
module ReconcileMove {
  import opened Bytes
  import opened Options
  import opened EventLog
  import H = EventHistory
  import opened IdentityIndexes
  import opened Subtrees
  import opened ReconcilePlan
  import opened ReconcileNet
  import opened Reconcile

  /** The current index is the old one with the directory `a` re-keyed to the absent path `b` outside
      itself; only directory times may differ. Hard-linked files are allowed, hard-linked directories
      are not. */
  ghost predicate PureMove(O: Entries, N: Entries, root: Text, a: Text, b: Text) {
    && AncestorsIndexed(O, root) && IsUnder(b, root)
    && a in O && O[a].isDirectory && b !in O && !IsPathOrDescendant(b, a)
    && (forall p, q :: p in O && q in O && O[p].isDirectory && O[p].identity == O[q].identity ==> p == q)
    && N.Keys == Rekey(O, a, b).Keys
    && (forall p :: p in N ==> SameEntry(N[p], Rekey(O, a, b)[p]))
  }

  ghost predicate SameEntry(x: IndexedPath, y: IndexedPath) {
    && x.identity == y.identity && x.isDirectory == y.isDirectory && x.linkCount == y.linkCount
    && (!x.isDirectory ==> x.mtime == y.mtime)
  }

  /** Entries outside the moved directory stay. */
  lemma Stays(O: Entries, N: Entries, root: Text, a: Text, b: Text, p: Text)
    requires PureMove(O, N, root, a, b) && p in O
    ensures !IsPathOrDescendant(p, b)
    ensures !IsPathOrDescendant(p, a) ==> p in N && SameEntry(N[p], O[p])
    ensures IsPathOrDescendant(p, a) ==> p !in N
  {
    hide Rekey;
    RekeyAt(O, a, b, p);
  }

  /** Entries at or below it are at their new place, which was free. */
  lemma Goes(O: Entries, N: Entries, root: Text, a: Text, b: Text, p: Text)
    requires PureMove(O, N, root, a, b) && p in Subtree(O, a)
    ensures var q := Rebase(p, a, b);
            q !in O && q in N && SameEntry(N[q], O[p]) && IsPathOrDescendant(q, b) && Rebase(q, b, a) == p
  {
    hide Rekey, AncestorsIndexed;
    var q := Rebase(p, a, b);
    RebaseBack(p, a, b);
    RekeyAt(O, a, b, q);
    if q in O {
      Stays(O, N, root, a, b, q);
    }
  }

  /** Nothing else is in the current index. */
  lemma ComesFrom(O: Entries, N: Entries, root: Text, a: Text, b: Text, q: Text)
    requires PureMove(O, N, root, a, b) && q in N
    ensures q in O ==> !IsPathOrDescendant(q, a)
    ensures q !in O ==> IsPathOrDescendant(q, b) && Rebase(q, b, a) in Subtree(O, a)
                        && Rebase(Rebase(q, b, a), a, b) == q
  {
    hide Rekey, AncestorsIndexed;
    RekeyAt(O, a, b, q);
    if q in O {
      Stays(O, N, root, a, b, q);
    } else {
      RebaseBack(q, b, a);
    }
  }

  /** Every candidate is the move itself, or goes along with it. */
  lemma CandidatesAlong(O: Entries, N: Entries, root: Text, a: Text, b: Text, p: Text, q: Text)
    requires PureMove(O, N, root, a, b) && IsCandidate(O, N, p, q)
    ensures p in Subtree(O, a) && q == Rebase(p, a, b)
  {
    hide PureMove;
    assert q in N && q !in O;
    ComesFrom(O, N, root, a, b, q);
    var r := Rebase(q, b, a);
    Goes(O, N, root, a, b, r);
    assert r in PathsOf(O, O[p].identity);
  }

  lemma TheMove(O: Entries, N: Entries, root: Text, a: Text, b: Text)
    requires PureMove(O, N, root, a, b)
    ensures IsCandidate(O, N, a, b) && b in N && N[b].isDirectory
  {
    hide Rekey, AncestorsIndexed;
    assert a in Subtree(O, a) && Rebase(a, a, b) == b;
    Goes(O, N, root, a, b, a);
    var id := O[a].identity;
    assert PathsOf(O, id) == {a};
    assert forall x :: x in O && O[x].identity == id ==> x == a;
    forall x | x in PathsOf(N, id)
      ensures x == b
    {
      ComesFrom(O, N, root, a, b, x);
      if x in O {
        Stays(O, N, root, a, b, x);
      } else {
        Goes(O, N, root, a, b, Rebase(x, b, a));
        assert Rebase(x, b, a) == a;
      }
    }
    assert PathsOf(N, id) == {b};
  }

  /** Another candidate before or after the move is impossible: the order and the cover rule forbid it. */
  lemma NoOther(O: Entries, N: Entries, root: Text, a: Text, b: Text, accepted: seq<ReconciledRename>, i: nat, j: nat)
    requires PureMove(O, N, root, a, b) && Accepted(O, N, accepted)
    requires b in N && i < |accepted| && accepted[i] == ReconciledRename(a, b, N[b]) && N[b].isDirectory
    requires j < |accepted|
    ensures j == i
  {
    hide PureMove;
    var r := accepted[j];
    CandidatesAlong(O, N, root, a, b, r.oldPath, r.newPath);
    if r.oldPath != a {
      assert Covers(accepted[i], r);
    }
  }

  /** Only the move itself is accepted. */
  lemma OnlyTheMove(O: Entries, N: Entries, root: Text, a: Text, b: Text, accepted: seq<ReconciledRename>)
    requires PureMove(O, N, root, a, b) && Accepted(O, N, accepted)
    ensures b in N && N[b].isDirectory && accepted == [ReconciledRename(a, b, N[b])]
  {
    TheMove(O, N, root, a, b);
    var i := FindTheMove(O, N, root, a, b, accepted);
    hide PureMove, Accepted, IsCandidate;
    NoOther(O, N, root, a, b, accepted, i, 0);
    NoOther(O, N, root, a, b, accepted, i, |accepted| - 1);
  }

  lemma FindTheMove(O: Entries, N: Entries, root: Text, a: Text, b: Text, accepted: seq<ReconciledRename>)
    returns (i: nat)
    requires PureMove(O, N, root, a, b) && Accepted(O, N, accepted) && IsCandidate(O, N, a, b)
    ensures i < |accepted| && accepted[i] == ReconciledRename(a, b, N[b])
  {
    var r :| r in accepted && ((r.oldPath == a && r.newPath == b) || Covers(r, ReconciledRename(a, b, N[b])));
    i :| 0 <= i < |accepted| && accepted[i] == r;
    CandidatesAlong(O, N, root, a, b, r.oldPath, r.newPath);
  }

  // ------------------------------------------------------------ the plan

  lemma MovedAlong(O: Entries, N: Entries, root: Text, a: Text, b: Text, r: ReconciledRename)
    requires PureMove(O, N, root, a, b) && r.oldPath == a && r.newPath == b
    ensures PairedBelow(O, N, r) == Subtree(O, a) - {a}
  {
    hide PureMove;
    forall p | p in Subtree(O, a)
      ensures p in Changed(O, N) && Rebase(p, a, b) in N && SameEntry(N[Rebase(p, a, b)], O[p])
    {
      Goes(O, N, root, a, b, p);
      Stays(O, N, root, a, b, p);
    }
  }

  /** Everything that changed was moved: nothing is left to remove, to add or to update. */
  lemma NothingElse(O: Entries, N: Entries, root: Text, a: Text, b: Text, plan: Plan)
    requires PureMove(O, N, root, a, b) && IsPlan(O, N, plan)
    ensures plan.removes == [] && plan.additions == [] && plan.updates == []
  {
    hide PureMove, Inferred, Rekey, AncestorsIndexed;
    forall p | p in O
      ensures p in Changed(O, N) ==> p in Sources(O, N)
      ensures p in N ==> SameEntry(N[p], O[p])
    {
      Stays(O, N, root, a, b, p);
      if p in Changed(O, N) {
        MovedIsInferred(O, N, root, a, b, p);
      }
    }
    forall q | q in Changed(N, O)
      ensures q in Targets(O, N)
    {
      ComesFrom(O, N, root, a, b, q);
      if q in O {
        Stays(O, N, root, a, b, q);
      } else {
        MovedIsInferred(O, N, root, a, b, Rebase(q, b, a));
      }
    }
    Inhabited(plan.removes);
    Inhabited(plan.additions);
    Inhabited(plan.updates);
  }

  lemma MovedIsInferred(O: Entries, N: Entries, root: Text, a: Text, b: Text, p: Text)
    requires PureMove(O, N, root, a, b) && p in Subtree(O, a)
    ensures Inferred(O, N, p, Rebase(p, a, b)) && p in Sources(O, N) && Rebase(p, a, b) in Targets(O, N)
  {
    TheMove(O, N, root, a, b);
    Goes(O, N, root, a, b, p);
    Stays(O, N, root, a, b, p);
    hide PureMove;
    if p == a {
      assert Rebase(p, a, b) == b;
    } else {
      assert IsPairBelow(O, N, a, b, p, Rebase(p, a, b));
    }
  }

  // ------------------------------------------------------------ moves played on an empty log

  ghost predicate OneToOne(moves: seq<Move>) {
    && Apart(moves)
    && (forall i, j :: 0 <= i < j < |moves| ==>
          moves[i].source != moves[j].source && moves[i].target != moves[j].target)
  }

  /** Move number `i` left a delete and a create under an id of its own. */
  ghost predicate MoveLogged(m: Log, move: Move, id: Text) {
    var s, t := move.source, move.target;
    && s in m && m[s] == Event(s.path, s.kind, false, true, Some(id))
    && t in m && m[t] == Event(t.path, t.kind, true, false, Some(id))
  }

  /** What the log holds after the first moves of a one-to-one sequence. */
  ghost predicate AllLogged(m: Log, moves: seq<Move>, start: nat) {
    && (forall i :: 0 <= i < |moves| ==> MoveLogged(m, moves[i], RenameId(start + i + 1)))
    && (forall k :: k in m ==> IsSource(moves, k) || IsTarget(moves, k))
  }

  lemma OneMoreLogged(m: Log, init: seq<Move>, last: Move, start: nat)
    requires OneToOne(init + [last]) && AllLogged(m, init, start)
    ensures AllLogged(Rename(m, last.source, last.target, RenameId(start + |init| + 1)), init + [last], start)
  {
    hide RenameId, Rename;
    var all, id := init + [last], RenameId(start + |init| + 1);
    assert all[|init|] == last && forall i :: 0 <= i < |init| ==> all[i] == init[i];
    hide IsSource, IsTarget, OneToOne, Apart;
    LastIsFresh(init, last);
    EventHistory.FirstMove(m, last.source, last.target, id);
    forall k { SourcesSnoc(init, last, k); }
    forall i | 0 <= i < |init|
      ensures MoveLogged(Rename(m, last.source, last.target, id), all[i], RenameId(start + i + 1))
    {
      assert MoveLogged(m, init[i], RenameId(start + i + 1));
      KeepsLogged(m, init, i, last, RenameId(start + i + 1), id);
    }
  }

  lemma KeepsLogged(m: Log, init: seq<Move>, i: nat, last: Move, id: Text, next: Text)
    requires i < |init| && MoveLogged(m, init[i], id)
    requires !IsSource(init, last.source) && !IsTarget(init, last.source)
    requires !IsSource(init, last.target) && !IsTarget(init, last.target)
    ensures MoveLogged(EventHistory.Moved(m, last.source, last.target, next), init[i], id)
  {}

  lemma LastIsFresh(init: seq<Move>, last: Move)
    requires OneToOne(init + [last])
    ensures OneToOne(init) && last.source != last.target
    ensures !IsSource(init, last.source) && !IsTarget(init, last.source)
    ensures !IsSource(init, last.target) && !IsTarget(init, last.target)
  {
    var all := init + [last];
    assert all[|init|] == last && forall i :: 0 <= i < |init| ==> all[i] == init[i];
  }

  lemma {:induction false} MovesLogged(moves: seq<Move>, start: nat)
    requires OneToOne(moves)
    ensures AllLogged(PlayMoves(map[], moves, start), moves, start)
    decreases |moves|
  {
    if moves != [] {
      hide AllLogged, OneToOne, Rename, RenameId;
      var init, last := moves[..|moves| - 1], moves[|moves| - 1];
      assert moves == init + [last];
      LastIsFresh(init, last);
      MovesLogged(init, start);
      OneMoreLogged(PlayMoves(map[], init, start), init, last, start);
    }
  }

  /** Drained, the log of one-to-one moves is one id-matched pair per move, and nothing else. */
  lemma MovesDrained(moves: seq<Move>, start: nat)
    requires OneToOne(moves)
    ensures AllLogged(Drained(PlayMoves(map[], moves, start)), moves, start)
  {
    hide RenameId, PlayMoves, Paired, OneToOne;
    var m := PlayMoves(map[], moves, start);
    MovesLogged(moves, start);
    forall i | 0 <= i < |moves|
      ensures MoveLogged(Drained(m), moves[i], RenameId(start + i + 1))
    {
      assert MoveLogged(m, moves[i], RenameId(start + i + 1));
      MovePaired(moves, start, m, i);
    }
  }

  lemma MoveOfKey(moves: seq<Move>, start: nat, m: Log, k: Key) returns (j: nat)
    requires AllLogged(m, moves, start) && k in m
    ensures j < |moves| && (k == moves[j].source || k == moves[j].target)
    ensures m[k].renameId == Some(RenameId(start + j + 1))
  {
    hide RenameId, Apart;
    j :| 0 <= j < |moves| && (moves[j].source == k || moves[j].target == k);
    assert MoveLogged(m, moves[j], RenameId(start + j + 1));
  }

  /** An id stands on the two keys of its own move only. */
  lemma IdOfMove(moves: seq<Move>, start: nat, m: Log, i: nat, k: Key)
    requires AllLogged(m, moves, start) && i < |moves|
    requires k in m && m[k].renameId == Some(RenameId(start + i + 1))
    ensures k == moves[i].source || k == moves[i].target
  {
    hide RenameId, AllLogged;
    var j := MoveOfKey(moves, start, m, k);
    RenameIdInjective(start + i + 1, start + j + 1);
  }

  lemma MovePaired(moves: seq<Move>, start: nat, m: Log, i: nat)
    requires AllLogged(m, moves, start) && i < |moves|
    ensures Paired(m, RenameId(start + i + 1))
  {
    var id, s, t := RenameId(start + i + 1), moves[i].source, moves[i].target;
    assert MoveLogged(m, moves[i], id);
    hide RenameId, AllLogged, Paired;
    forall k | k in m && m[k].renameId == Some(id)
      ensures k == s || k == t
    {
      IdOfMove(moves, start, m, i, k);
    }
    JoinedPairs(m, id, s, t);
  }

  // ------------------------------------------------------------ the theorem

  /** One delete and one create under id number `n` for the entry `p`. */
  ghost predicate EntryMoved(batch: Log, O: Entries, a: Text, b: Text, p: Text, n: nat)
    requires p in O && |a| <= |p|
  {
    MoveLogged(batch, Move(EntryKey(O, p), Key(Rebase(p, a, b), KindOf(O[p]))), RenameId(n))
  }

  lemma RestAlong(O: Entries, N: Entries, root: Text, a: Text, b: Text, r: ReconciledRename, pairs: seq<Move>)
    requires PureMove(O, N, root, a, b) && r.oldPath == a && r.newPath == b && r.entry.isDirectory
    requires PairMoves(O, N, [r], pairs)
    ensures a in O && O[a].isDirectory && a in Subtree(O, a) && MovesAlong(O, r, pairs, Subtree(O, a) - {a})
  {
    hide MovesAlong, PairedBelow, IsCandidate;
    MovedAlong(O, N, root, a, b, r);
  }

  lemma MovesOfMove(O: Entries, N: Entries, root: Text, a: Text, b: Text, pairs: seq<Move>)
    requires PureMove(O, N, root, a, b) && b in N && N[b].isDirectory
    requires PairMoves(O, N, [ReconciledRename(a, b, N[b])], pairs)
    ensures var r := ReconciledRename(a, b, N[b]);
            && MovesAlong(O, r, MovesOf([r]) + pairs, Subtree(O, a))
            && OneToOne(MovesOf([r]) + pairs)
  {
    hide PureMove, PairMoves, MovesAlong, PairedBelow, OneToOne, Subtree;
    var r := ReconciledRename(a, b, N[b]);
    RestAlong(O, N, root, a, b, r, pairs);
    MovesAlongCons(O, r, pairs, Subtree(O, a) - {a});
    assert MovesOf([r]) == [Move(EntryKey(O, a), Key(b, Directory))];
    assert Subtree(O, a) - {a} + {a} == Subtree(O, a);
    AlongOneToOne(O, N, root, a, b, r, MovesOf([r]) + pairs);
  }

  lemma MovesAlongCons(O: Entries, r: ReconciledRename, pairs: seq<Move>, ps: set<Text>)
    requires MovesAlong(O, r, pairs, ps) && r.oldPath in O && O[r.oldPath].isDirectory && r.oldPath !in ps
    ensures MovesAlong(O, r, [Move(EntryKey(O, r.oldPath), Key(r.newPath, Directory))] + pairs, ps + {r.oldPath})
  {
    var first := Move(EntryKey(O, r.oldPath), Key(r.newPath, Directory));
    var all := [first] + pairs;
    assert Rebase(r.oldPath, r.oldPath, r.newPath) == r.newPath;
    forall i | 0 <= i < |all|
      ensures all[i] == if i == 0 then first else pairs[i - 1]
    {}
    forall p | p in ps + {r.oldPath}
      ensures exists i :: 0 <= i < |all| && all[i].source.path == p
    {
      if p == r.oldPath {
        assert all[0].source.path == p;
      } else {
        var i :| 0 <= i < |pairs| && pairs[i].source.path == p;
        assert all[i + 1].source.path == p;
      }
    }
  }

  lemma AlongOneToOne(O: Entries, N: Entries, root: Text, a: Text, b: Text, r: ReconciledRename, moves: seq<Move>)
    requires PureMove(O, N, root, a, b)
    requires r.oldPath == a && r.newPath == b && MovesAlong(O, r, moves, Subtree(O, a))
    ensures OneToOne(moves)
  {
    forall i | 0 <= i < |moves|
      ensures moves[i].target.path !in O && moves[i].source.path in O
      ensures Rebase(moves[i].target.path, b, a) == moves[i].source.path
      ensures moves[i].target.kind == moves[i].source.kind
    {
      Goes(O, N, root, a, b, moves[i].source.path);
    }
  }

  /** A pure move of a directory reconciles to exactly one id-matched delete and create for every entry
      at or below it, all ids distinct, and to no other event. */
  lemma PureMoveBatch(O: Entries, N: Entries, root: Text, a: Text, b: Text, plan: Plan,
                      accepted: seq<ReconciledRename>, pairs: seq<Move>, start: nat) returns (number: map<Text, nat>)
    requires PureMove(O, N, root, a, b) && IsPlan(O, N, plan) && Accepted(O, N, accepted)
    requires PairMoves(O, N, accepted, pairs) && plan.moves == MovesOf(accepted) + pairs
    ensures OneEach(Drained(Play(map[], plan, start)), O, a, b, start, number)
  {
    OnlyTheMove(O, N, root, a, b, accepted);
    NothingElse(O, N, root, a, b, plan);
    hide PureMove, IsPlan, Accepted, PairMoves, MovesAlong, OneToOne, AllLogged, PlayMoves, OneEach, Drained, MovesOf;
    MovesOfMove(O, N, root, a, b, pairs);
    MovesDrained(plan.moves, start);
    number := Numbering(O, a, b, plan.moves, start, ReconciledRename(a, b, N[b]),
                        Drained(PlayMoves(map[], plan.moves, start)));
  }

  /** The batch holds one pair of events for each entry at or below `a`, numbered apart, and no other. */
  ghost predicate OneEach(batch: Log, O: Entries, a: Text, b: Text, start: nat, number: map<Text, nat>) {
    && number.Keys == Subtree(O, a)
    && (forall p, q :: p in number && q in number && number[p] == number[q] ==> p == q)
    && (forall p :: p in number ==> start < number[p] && EntryMoved(batch, O, a, b, p, number[p]))
    && (forall k :: k in batch ==>
          exists p :: p in number && (k == EntryKey(O, p) || k == Key(Rebase(p, a, b), KindOf(O[p]))))
  }

  /** Each entry's number: the position of its move. */
  lemma Numbering(O: Entries, a: Text, b: Text, moves: seq<Move>, start: nat, r: ReconciledRename, batch: Log)
    returns (number: map<Text, nat>)
    requires r.oldPath == a && r.newPath == b && MovesAlong(O, r, moves, Subtree(O, a)) &&
             AllLogged(batch, moves, start)
    ensures OneEach(batch, O, a, b, start, number)
  {
    hide RenameId, MovesAlong, AllLogged, EntryMoved;
    forall p | p in Subtree(O, a)
      ensures exists i :: 0 <= i < |moves| && moves[i].source.path == p
    {
      var i := NumberOf(O, a, b, moves, start, r, batch, p);
    }
    number := map p | p in Subtree(O, a) :: start + IndexOf(moves, p) + 1;
    forall p | p in number
      ensures EntryMoved(batch, O, a, b, p, number[p])
    {
      var i := NumberOf(O, a, b, moves, start, r, batch, p);
    }
    forall k | k in batch
      ensures exists p :: p in number && (k == EntryKey(O, p) || k == Key(Rebase(p, a, b), KindOf(O[p])))
    {
      var p := EntryOfKey(O, a, b, moves, start, r, batch, k);
    }
  }

  lemma NumberOf(O: Entries, a: Text, b: Text, moves: seq<Move>, start: nat, r: ReconciledRename, batch: Log, p: Text)
    returns (i: nat)
    requires r.oldPath == a && r.newPath == b && MovesAlong(O, r, moves, Subtree(O, a)) &&
             AllLogged(batch, moves, start)
    requires p in Subtree(O, a)
    ensures i < |moves| && moves[i].source.path == p && i == IndexOf(moves, p)
    ensures EntryMoved(batch, O, a, b, p, start + i + 1)
  {
    hide RenameId, IsPathOrDescendant;
    i := IndexOf(moves, p);
    assert MoveLogged(batch, moves[i], RenameId(start + i + 1));
  }

  lemma EntryOfKey(O: Entries, a: Text, b: Text, moves: seq<Move>, start: nat, r: ReconciledRename, batch: Log, k: Key)
    returns (p: Text)
    requires r.oldPath == a && r.newPath == b && MovesAlong(O, r, moves, Subtree(O, a)) &&
             AllLogged(batch, moves, start)
    requires k in batch
    ensures p in Subtree(O, a) && (k == EntryKey(O, p) || k == Key(Rebase(p, a, b), KindOf(O[p])))
  {
    hide AllLogged;
    var i := MoveOfKey(moves, start, batch, k);
    p := moves[i].source.path;
  }

  ghost function IndexOf(moves: seq<Move>, p: Text): nat
    requires exists i :: 0 <= i < |moves| && moves[i].source.path == p
    ensures IndexOf(moves, p) < |moves| && moves[IndexOf(moves, p)].source.path == p
  {
    var i :| 0 <= i < |moves| && moves[i].source.path == p;
    i
  }

  // ------------------------------------------------------------ a file that moves

  /** One file with its only path moves and nothing else changes. With a single link that is a rename, one
      delete and one create under one id; with other links it is a delete and a create that nothing joins. */
  lemma FileMoveBatch(O: Entries, N: Entries, root: Text, p: Text, q: Text, plan: Plan, start: nat)
    requires AncestorsIndexed(O, root) && Rooted(N, root) && IsPlan(O, N, plan)
    requires p in O && !O[p].isDirectory && q !in O && N == (O - {p})[q := O[p]]
    requires PathsOf(O, O[p].identity) == {p}
    ensures var batch := Drained(Play(map[], plan, start));
            && H.CreatedIn(batch) == {Key(q, File)} && H.DeletedIn(batch) == {Key(p, File)} && H.UpdatedIn(batch) == {}
            && (if O[p].linkCount == 1 then
                  batch[Key(p, File)].renameId.Some? && batch[Key(p, File)].renameId == batch[Key(q, File)].renameId
                else batch[Key(p, File)].renameId == None && batch[Key(q, File)].renameId == None)
  {
    hide Play, Drained, Inferred, AncestorsIndexed, Rooted;
    OneChanged(O, N, p, q);
    FileMoveKeys(O, N, p, q);
    ReconciledBatch(O, N, root, plan, start);
    FileMoveInferred(O, N, root, p, q);
    if O[p].linkCount == 1 {
      OnlyFileMoves(O, N, root, p, q, plan, start);
    } else {
      NoFileMoves(O, N, root, plan, start);
    }
  }

  lemma OneChanged(O: Entries, N: Entries, p: Text, q: Text)
    requires p in O && q !in O && N == (O - {p})[q := O[p]]
    ensures Changed(O, N) == {p} && Changed(N, O) == {q} && p !in N && q in N && N[q] == O[p]
    ensures forall t :: t in O && t in N ==> O[t] == N[t]
  {}

  lemma FileMoveKeys(O: Entries, N: Entries, p: Text, q: Text)
    requires p in O && !O[p].isDirectory && q !in O && N == (O - {p})[q := O[p]]
    ensures OnlyIn(O, N) == {Key(p, File)} && OnlyIn(N, O) == {Key(q, File)}
    ensures Reoccupied(O, N) == {} && Renewed(O, N) == {} && Retimed(O, N) == {}
  {
    hide OnlyIn, Reoccupied, Renewed, Retimed, KeysOf, Inferred;
    OneChanged(O, N, p, q);
    forall k
      ensures k in OnlyIn(O, N) <==> k == Key(p, File)
      ensures k in OnlyIn(N, O) <==> k == Key(q, File)
      ensures k !in Reoccupied(O, N) && k !in Renewed(O, N) && k !in Retimed(O, N)
    {
      Memberships(O, N, k);
      if k in Reoccupied(O, N) {
        var t :| Inferred(O, N, k.path, t);
        SourceChanged(O, N, k.path, t);
      }
    }
  }

  /** The move is inferred exactly for a single link, and nothing else is. */
  lemma FileMoveInferred(O: Entries, N: Entries, root: Text, p: Text, q: Text)
    requires AncestorsIndexed(O, root) && Rooted(N, root)
    requires p in O && !O[p].isDirectory && q !in O && N == (O - {p})[q := O[p]]
    requires PathsOf(O, O[p].identity) == {p}
    ensures Inferred(O, N, p, q) <==> O[p].linkCount == 1
    ensures forall s, t :: Inferred(O, N, s, t) ==> s == p && t == q
  {
    OneChanged(O, N, p, q);
    assert PathsOf(N, N[q].identity) == {q};
    forall s, t | Inferred(O, N, s, t)
      ensures s == p && t == q
    {
      InferredSides(O, N, root, s, t);
    }
    if Inferred(O, N, p, q) && !IsCandidate(O, N, p, q) {
      var a, b :| IsCandidate(O, N, a, b) && O[a].isDirectory && IsPairBelow(O, N, a, b, p, q);
      assert Inferred(O, N, a, b);
    }
  }

  lemma OnlyFileMoves(O: Entries, N: Entries, root: Text, p: Text, q: Text, plan: Plan, start: nat)
    requires IsPlan(O, N, plan) && Changed(O, N) == {p} && Changed(N, O) == {q} && p in O && q in N && p != q
    requires !O[p].isDirectory && !N[q].isDirectory && forall t :: t in O && t in N ==> O[t] == N[t]
    requires Inferred(O, N, p, q) && forall s, t :: Inferred(O, N, s, t) ==> s == p && t == q
    ensures var batch := Drained(Play(map[], plan, start));
            && Key(p, File) in batch && Key(q, File) in batch && batch[Key(p, File)].renameId.Some?
            && batch[Key(p, File)].renameId == batch[Key(q, File)].renameId
  {
    hide Inferred, RenameId, PlayMoves;
    assert p in Sources(O, N) && q in Targets(O, N);
    if plan.removes != [] {
      var k := First(plan.removes);
    }
    if plan.additions != [] {
      var a := First(plan.additions);
    }
    if plan.updates != [] {
      var k := First(plan.updates);
    }
    var s, t := Key(p, File), Key(q, File);
    assert plan.moves != [];
    SameMoves(plan.moves, start, s, t);
    var id := RenameId(start + |plan.moves|);
    var m := H.Moved(map[], s, t, id);
    assert JoinedBy(m, id, s, t);
    JoinedPairs(m, id, s, t);
  }

  lemma First<T>(s: seq<T>) returns (x: T)
    requires s != []
    ensures x in s
  {
    x := s[0];
  }

  /** The same move over and over leaves one pair, under the last id. */
  lemma {:induction false} SameMoves(moves: seq<Move>, start: nat, s: Key, t: Key)
    requires s != t && moves != [] && forall i :: 0 <= i < |moves| ==> moves[i] == Move(s, t)
    ensures PlayMoves(map[], moves, start) == H.Moved(map[], s, t, RenameId(start + |moves|))
    decreases |moves|
  {
    hide RenameId;
    var n := |moves| - 1;
    if n > 0 {
      SameMoves(moves[..n], start, s, t);
    } else {
      assert PlayMoves(map[], moves[..n], start) == map[];
    }
  }

  lemma NoFileMoves(O: Entries, N: Entries, root: Text, plan: Plan, start: nat)
    requires AncestorsIndexed(O, root) && Rooted(N, root) && IsPlan(O, N, plan)
    requires forall s, t :: !Inferred(O, N, s, t)
    ensures forall k :: k in Drained(Play(map[], plan, start)) ==> Drained(Play(map[], plan, start))[k].renameId == None
  {
    hide Play, Inferred;
    assert plan.moves == [] by {
      assert plan.moves != [] ==> Inferred(O, N, plan.moves[0].source.path, plan.moves[0].target.path);
    }
    forall k { PlanIds(O, N, root, plan, start, k); }
  }
}
