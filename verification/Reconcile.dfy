/** The full-tree reconciliation: two identity indexes in, coalesced events out. */
module Reconcile {
  import opened Bytes
  import opened Decimal
  import opened EventLog
  import opened EventLists
  import opened IdentityIndexes
  import opened Subtrees
  import opened ReconcilePlan

  type Groups = map<FileIdentity, Entries>

  /** The paths `ps` of `m` that carry an identity. */
  function GroupOf(m: Entries, ps: set<Text>, id: FileIdentity): Entries {
    map p | p in ps && p in m && m[p].identity == id :: m[p]
  }

  ghost predicate Grouped(g: Groups, m: Entries, ps: set<Text>) {
    forall id :: (id in g <==> GroupOf(m, ps, id) != map[]) && (id in g ==> g[id] == GroupOf(m, ps, id))
  }

  lemma GroupAdd(g: Groups, m: Entries, ps: set<Text>, p: Text)
    requires Grouped(g, m, ps) && p in m
    ensures var id := m[p].identity;
            Grouped(g[id := (if id in g then g[id] else map[])[p := m[p]]], m, ps + {p})
  {
    forall id
      ensures GroupOf(m, ps + {p}, id) ==
              if id == m[p].identity then GroupOf(m, ps, id)[p := m[p]] else GroupOf(m, ps, id)
    {}
    assert p in GroupOf(m, ps + {p}, m[p].identity);
  }

  /** The paths of one index that the other lacks or holds under another identity, by identity. */
  method CollectChanged(m: Entries, other: IdentityIndex) returns (groups: Groups)
    ensures Grouped(groups, m, Changed(m, other.byPath))
  {
    groups := map[];
    ghost var done: set<Text>, found: set<Text> := {}, {};
    var todo := m.Keys;
    while todo != {}
      invariant done !! todo && done + todo == m.Keys
      invariant found == Changed(m, other.byPath) * done
      invariant Grouped(groups, m, found)
      decreases todo
    {
      var p :| p in todo;
      var after := other.Find(p);
      if after.None? || after.value.identity != m[p].identity {
        var id := m[p].identity;
        GroupAdd(groups, m, found, p);
        groups := groups[id := (if id in groups then groups[id] else map[])[p := m[p]]];
        found := found + {p};
      }
      done, todo := done + {p}, todo - {p};
    }
    assert found == Changed(m, other.byPath);
  }

  // ------------------------------------------------------------ candidates

  datatype ReconciledRename = ReconciledRename(oldPath: Text, newPath: Text, entry: IndexedPath)

  ghost predicate CandidateList(O: Entries, N: Entries, rs: seq<ReconciledRename>) {
    && (forall i :: 0 <= i < |rs| ==>
          IsCandidate(O, N, rs[i].oldPath, rs[i].newPath) && rs[i].entry == N[rs[i].newPath])
    && DistinctSources(rs)
  }

  ghost predicate ListsAll(O: Entries, N: Entries, rs: seq<ReconciledRename>, skipped: set<FileIdentity>) {
    forall p, q :: IsCandidate(O, N, p, q) && O[p].identity !in skipped ==>
                     exists i :: 0 <= i < |rs| && rs[i].oldPath == p && rs[i].newPath == q
  }

  lemma OneElement<T>(s: set<T>, a: T)
    requires a in s
    ensures |s| == 1 <==> s == {a}
  {
    if |s| == 1 {
      forall b | b in s
        ensures b == a
      {
        OnlyMember(s, a, b);
      }
    }
  }

  /** What the tests on one identity amount to. */
  lemma CandidateTests(O: Entries, N: Entries, id: FileIdentity, p: Text, q: Text)
    requires p in Changed(O, N) && O[p].identity == id && q in Changed(N, O) && N[q].identity == id
    ensures IsCandidate(O, N, p, q) <==>
            && |PathsOf(O, id)| == 1 && |PathsOf(N, id)| == 1 && q !in O && O[p].isDirectory == N[q].isDirectory
            && (!O[p].isDirectory ==> O[p].linkCount == 1 && N[q].linkCount == 1)
  {
    OneElement(PathsOf(O, id), p);
    OneElement(PathsOf(N, id), q);
  }

  /** A candidate is the only changed path of its identity on either side. */
  lemma CandidateGroups(O: Entries, N: Entries, p: Text, q: Text)
    requires IsCandidate(O, N, p, q)
    ensures p in Changed(O, N) && q in Changed(N, O)
    ensures GroupOf(O, Changed(O, N), O[p].identity) == map[p := O[p]]
    ensures GroupOf(N, Changed(N, O), O[p].identity) == map[q := N[q]]
  {
    assert p !in PathsOf(N, N[q].identity);
    assert forall x :: x in O && O[x].identity == O[p].identity ==> x in PathsOf(O, O[p].identity);
    assert forall x :: x in N && N[x].identity == N[q].identity ==> x in PathsOf(N, N[q].identity);
  }

  lemma OneKey(m: Entries, p: Text)
    requires |m| == 1 && p in m
    ensures m == map[p := m[p]]
  {
    OneElement(m.Keys, p);
    assert |m.Keys| == |m|;
  }

  /** The single candidate of one identity, or none. */
  method CandidateOf(before: IdentityIndex, current: IdentityIndex, removed: Groups, created: Groups, id: FileIdentity)
    returns (found: seq<ReconciledRename>)
    requires before.Valid() && current.Valid() && id in removed
    requires Grouped(removed, before.byPath, Changed(before.byPath, current.byPath))
    requires Grouped(created, current.byPath, Changed(current.byPath, before.byPath))
    ensures |found| <= 1
    ensures forall r :: r in found ==> IsCandidate(before.byPath, current.byPath, r.oldPath, r.newPath)
                                       && r.entry == current.byPath[r.newPath] &&
                                          before.byPath[r.oldPath].identity == id
    ensures forall p, q :: IsCandidate(before.byPath, current.byPath, p, q) && before.byPath[p].identity == id ==>
                             |found| == 1 && found[0].oldPath == p && found[0].newPath == q
  {
    hide IsCandidate, GroupOf, PathsOf, Changed;
    ghost var O, N := before.byPath, current.byPath;
    CandidateSizes(O, N, removed, created, id);
    if |removed[id]| != 1 || id !in created || |created[id]| != 1 {
      return [];
    }
    var oldCount := before.PathCount(id);
    var newCount := current.PathCount(id);
    if oldCount != 1 || newCount != 1 {
      return [];
    }
    assert removed[id].Keys != {} && created[id].Keys != {} by {
      assert |removed[id].Keys| == |removed[id]| && |created[id].Keys| == |created[id]|;
    }
    var p :| p in removed[id];
    var q :| q in created[id];
    OneChangedPath(O, N, removed, created, id, p, q);
    var oldEntry, newEntry := removed[id][p], created[id][q];
    var atTarget := before.Find(q);
    if atTarget.Some? || oldEntry.isDirectory != newEntry.isDirectory ||
       (!oldEntry.isDirectory && (oldEntry.linkCount != 1 || newEntry.linkCount != 1)) {
      return [];
    }
    return [ReconciledRename(p, q, newEntry)];
  }

  /** The sizes a candidate needs. */
  lemma CandidateSizes(O: Entries, N: Entries, removed: Groups, created: Groups, id: FileIdentity)
    requires Grouped(removed, O, Changed(O, N)) && Grouped(created, N, Changed(N, O))
    ensures forall p, q :: IsCandidate(O, N, p, q) && p in O && O[p].identity == id ==>
                             && id in removed && |removed[id]| == 1 && id in created && |created[id]| == 1
                             && |PathsOf(O, id)| == 1 && |PathsOf(N, id)| == 1
    ensures forall p, q :: IsCandidate(O, N, p, q) ==> p in O && q in N
  {
    forall p, q | IsCandidate(O, N, p, q) && O[p].identity == id
      ensures && id in removed && |removed[id]| == 1 && id in created && |created[id]| == 1
              && |PathsOf(O, id)| == 1 && |PathsOf(N, id)| == 1
    {
      CandidateGroups(O, N, p, q);
      assert |map[p := O[p]]| == 1 && |map[q := N[q]]| == 1;
    }
  }

  /** The only changed path of an identity on either side is the only possible candidate. */
  lemma OneChangedPath(O: Entries, N: Entries, removed: Groups, created: Groups, id: FileIdentity, p: Text, q: Text)
    requires Grouped(removed, O, Changed(O, N)) && Grouped(created, N, Changed(N, O))
    requires id in removed && |removed[id]| == 1 && id in created && |created[id]| == 1
    requires p in removed[id] && q in created[id]
    ensures p in O && removed[id][p] == O[p] && O[p].identity == id
    ensures q in N && created[id][q] == N[q] && N[q].identity == id
    ensures forall x, y :: IsCandidate(O, N, x, y) && x in O && O[x].identity == id ==> x == p && y == q
    ensures IsCandidate(O, N, p, q) <==>
            && |PathsOf(O, id)| == 1 && |PathsOf(N, id)| == 1 && q !in O && O[p].isDirectory == N[q].isDirectory
            && (!O[p].isDirectory ==> O[p].linkCount == 1 && N[q].linkCount == 1)
  {
    OneKey(removed[id], p);
    OneKey(created[id], q);
    assert p in GroupOf(O, Changed(O, N), id) && q in GroupOf(N, Changed(N, O), id);
    CandidateTests(O, N, id, p, q);
    forall x, y | IsCandidate(O, N, x, y) && O[x].identity == id
      ensures x == p && y == q
    {
      CandidateGroups(O, N, x, y);
      assert x in map[x := O[x]] && y in map[y := N[y]];
    }
  }

  method FindCandidates(before: IdentityIndex, current: IdentityIndex, removed: Groups, created: Groups)
    returns (possible: seq<ReconciledRename>)
    requires before.Valid() && current.Valid()
    requires Grouped(removed, before.byPath, Changed(before.byPath, current.byPath))
    requires Grouped(created, current.byPath, Changed(current.byPath, before.byPath))
    ensures CandidateList(before.byPath, current.byPath, possible)
    ensures ListsAll(before.byPath, current.byPath, possible, {})
  {
    ghost var O, N := before.byPath, current.byPath;
    possible := [];
    var todo := removed.Keys;
    forall p, q | IsCandidate(O, N, p, q)
      ensures O[p].identity in removed
    {
      CandidateGroups(O, N, p, q);
      assert p in GroupOf(O, Changed(O, N), O[p].identity);
    }
    while todo != {}
      invariant todo <= removed.Keys
      invariant CandidateList(O, N, possible)
      invariant forall i :: 0 <= i < |possible| ==> O[possible[i].oldPath].identity !in todo
      invariant ListsAll(O, N, possible, todo)
      decreases todo
    {
      var id :| id in todo;
      var found := CandidateOf(before, current, removed, created, id);
      CandidatesAdd(O, N, possible, found, todo, id);
      possible := possible + found;
      todo := todo - {id};
    }
  }

  lemma CandidatesAdd(O: Entries, N: Entries, possible: seq<ReconciledRename>, found: seq<ReconciledRename>,
                      todo: set<FileIdentity>, id: FileIdentity)
    requires CandidateList(O, N, possible) && ListsAll(O, N, possible, todo) && id in todo && |found| <= 1
    requires forall i :: 0 <= i < |possible| ==> O[possible[i].oldPath].identity !in todo
    requires forall r :: r in found ==> IsCandidate(O, N, r.oldPath, r.newPath) && r.entry == N[r.newPath]
                                        && O[r.oldPath].identity == id
    requires forall p, q :: IsCandidate(O, N, p, q) && O[p].identity == id ==>
                              |found| == 1 && found[0].oldPath == p && found[0].newPath == q
    ensures CandidateList(O, N, possible + found) && ListsAll(O, N, possible + found, todo - {id})
    ensures forall i :: 0 <= i < |possible + found| ==> O[(possible + found)[i].oldPath].identity !in todo - {id}
  {
    var all := possible + found;
    assert |found| == 1 ==> found[0] in found && all[|possible|] == found[0];
    forall p, q | IsCandidate(O, N, p, q) && O[p].identity !in todo - {id}
      ensures exists i :: 0 <= i < |all| && all[i].oldPath == p && all[i].newPath == q
    {
      if O[p].identity == id {
        assert all[|possible|].oldPath == p;
      } else {
        var i :| 0 <= i < |possible| && possible[i].oldPath == p && possible[i].newPath == q;
        assert all[i] == possible[i];
      }
    }
  }

  // ------------------------------------------------------------ order

  /** Directories first, then shorter old paths. */
  predicate Less(a: ReconciledRename, b: ReconciledRename) {
    if a.entry.isDirectory != b.entry.isDirectory then a.entry.isDirectory else |a.oldPath| < |b.oldPath|
  }

  predicate Sorted(rs: seq<ReconciledRename>) {
    forall i, j :: 0 <= i < j < |rs| ==> !Less(rs[j], rs[i])
  }

  predicate DistinctSources(rs: seq<ReconciledRename>) {
    forall i, j :: 0 <= i < j < |rs| ==> rs[i].oldPath != rs[j].oldPath
  }

  /** The same elements; with distinct sources, a permutation. */
  ghost predicate SameElements(a: seq<ReconciledRename>, b: seq<ReconciledRename>) {
    forall r :: r in a <==> r in b
  }

  lemma LessOrder(a: ReconciledRename, b: ReconciledRename, c: ReconciledRename)
    ensures Less(a, b) ==> !Less(b, a)
    ensures !Less(a, b) && !Less(b, c) ==> !Less(a, c)
  {}

  lemma InsertAt(sorted: seq<ReconciledRename>, at: nat, r: ReconciledRename)
    requires at <= |sorted| && Sorted(sorted) && DistinctSources(sorted)
    requires forall x :: x in sorted ==> x.oldPath != r.oldPath
    requires forall j :: at <= j < |sorted| ==> Less(r, sorted[j])
    requires at > 0 ==> !Less(r, sorted[at - 1])
    ensures var all := sorted[..at] + [r] + sorted[at..];
            && Sorted(all) && DistinctSources(all) && forall x :: x in all <==> x in sorted || x == r
  {
    hide Less;
    var all := sorted[..at] + [r] + sorted[at..];
    forall i, j | 0 <= i < j < |all|
      ensures !Less(all[j], all[i]) && all[i].oldPath != all[j].oldPath
    {
      var x, y := all[i], all[j];
      assert x == if i < at then sorted[i] else if i == at then r else sorted[i - 1];
      assert y == if j < at then sorted[j] else if j == at then r else sorted[j - 1];
      if i == at {
        LessOrder(r, y, x);
      } else if j == at {
        LessOrder(r, sorted[at - 1], x);
      }
    }
    forall x
      ensures x in all <==> x in sorted || x == r
    {
      assert sorted == sorted[..at] + sorted[at..];
    }
  }

  /** Any sort will do: nothing later depends on how ties are ordered. */
  method SortRenames(rs: seq<ReconciledRename>) returns (sorted: seq<ReconciledRename>)
    requires DistinctSources(rs)
    ensures Sorted(sorted) && DistinctSources(sorted) && SameElements(sorted, rs)
  {
    sorted := [];
    for n := 0 to |rs|
      invariant Sorted(sorted) && DistinctSources(sorted) && SameElements(sorted, rs[..n])
    {
      var at := |sorted|;
      while at > 0 && Less(rs[n], sorted[at - 1])
        invariant 0 <= at <= |sorted|
        invariant forall j :: at <= j < |sorted| ==> Less(rs[n], sorted[j])
      {
        at := at - 1;
      }
      assert rs[..n + 1] == rs[..n] + [rs[n]];
      forall x | x in sorted
        ensures x.oldPath != rs[n].oldPath
      {
        var j :| 0 <= j < n && rs[..n][j] == x;
      }
      InsertAt(sorted, at, rs[n]);
      sorted := sorted[..at] + [rs[n]] + sorted[at..];
    }
    assert rs[..|rs|] == rs;
  }

  lemma SortedCandidates(O: Entries, N: Entries, rs: seq<ReconciledRename>, sorted: seq<ReconciledRename>)
    requires CandidateList(O, N, rs) && ListsAll(O, N, rs, {}) && DistinctSources(sorted) && SameElements(sorted, rs)
    ensures CandidateList(O, N, sorted) && ListsAll(O, N, sorted, {})
  {
    forall i | 0 <= i < |sorted|
      ensures sorted[i] in rs
    {}
    forall p, q | IsCandidate(O, N, p, q)
      ensures exists i :: 0 <= i < |sorted| && sorted[i].oldPath == p && sorted[i].newPath == q
    {
      var i :| 0 <= i < |rs| && rs[i].oldPath == p && rs[i].newPath == q;
      assert rs[i] in sorted;
    }
  }

  // ------------------------------------------------------------ accepting renames

  class State {
    var identities: IdentityIndex
    var renameSequence: nat

    constructor (identities: IdentityIndex, renameSequence: nat)
      ensures this.identities == identities && this.renameSequence == renameSequence
    {
      this.identities := identities;
      this.renameSequence := renameSequence;
    }
  }

  /** The directory rename `a` already accounts for `c`. */
  predicate Covers(a: ReconciledRename, c: ReconciledRename) {
    a.entry.isDirectory && IsDescendant(c.oldPath, a.oldPath) && c.newPath == Rebase(c.oldPath, a.oldPath, a.newPath)
  }

  function MoveOf(r: ReconciledRename): Move {
    var kind := KindOf(r.entry);
    Move(Key(r.oldPath, kind), Key(r.newPath, kind))
  }

  function MovesOf(rs: seq<ReconciledRename>): seq<Move> {
    seq(|rs|, i requires 0 <= i < |rs| => MoveOf(rs[i]))
  }

  /** Which candidates were accepted, among the first `count`. */
  ghost predicate AcceptedFrom(rs: seq<ReconciledRename>, count: nat, accepted: seq<ReconciledRename>) {
    && count <= |rs|
    && (forall i :: 0 <= i < |accepted| ==> accepted[i] in rs[..count])
    && (forall i :: 0 <= i < count ==> rs[i] in accepted || exists a :: a in accepted && Covers(a, rs[i]))
    && (forall i, j :: 0 <= i < j < |accepted| ==> !Covers(accepted[i], accepted[j]) && !Less(accepted[j], accepted[i]))
    && DistinctSources(accepted)
  }

  lemma PlayMoveAdd(m: Log, moves: seq<Move>, move: Move, start: nat)
    ensures PlayMoves(m, moves + [move], start) ==
            Rename(PlayMoves(m, moves, start), move.source, move.target, RenameId(start + |moves| + 1))
  {
    assert (moves + [move])[..|moves|] == moves;
  }

  /** One rename event under the next id. */
  method EmitRename(state: State, list: EventList, oldPath: Text, newPath: Text, kind: EntryKind)
    requires list.Valid()
    modifies state`renameSequence, list`events
    ensures list.Valid() && state.renameSequence == old(state.renameSequence) + 1
    ensures list.events == Rename(old(list.events), Key(oldPath, kind), Key(newPath, kind),
                                  RenameId(state.renameSequence))
  {
    state.renameSequence := state.renameSequence + 1;
    list.Rename(oldPath, newPath, RENAME_PREFIX + Digits(state.renameSequence), kind);
  }

  lemma AcceptedEarlier(rs: seq<ReconciledRename>, count: nat, accepted: seq<ReconciledRename>)
    requires count < |rs| && Sorted(rs) && DistinctSources(rs) && AcceptedFrom(rs, count, accepted)
    ensures forall a :: a in accepted ==> !Less(rs[count], a) && a.oldPath != rs[count].oldPath
  {
    hide Less, Covers;
    forall a | a in accepted
      ensures !Less(rs[count], a) && a.oldPath != rs[count].oldPath
    {
      var i :| 0 <= i < |accepted| && accepted[i] == a;
      var j :| 0 <= j < count && rs[..count][j] == accepted[i];
      assert rs[j] == accepted[i];
    }
  }

  lemma AcceptedAdd(rs: seq<ReconciledRename>, count: nat, accepted: seq<ReconciledRename>)
    requires count < |rs| && Sorted(rs) && DistinctSources(rs) && AcceptedFrom(rs, count, accepted)
    ensures (exists a :: a in accepted && Covers(a, rs[count])) ==> AcceptedFrom(rs, count + 1, accepted)
    ensures !(exists a :: a in accepted && Covers(a, rs[count])) ==>
              AcceptedFrom(rs, count + 1, accepted + [rs[count]])
  {
    hide Less, Covers, Sorted;
    AcceptedEarlier(rs, count, accepted);
    assert rs[..count + 1] == rs[..count] + [rs[count]];
    assert forall i :: 0 <= i < |accepted| ==> accepted[i] in accepted;
  }

  method AcceptRenames(possible: seq<ReconciledRename>, state: State, list: EventList)
    returns (accepted: seq<ReconciledRename>, handledRemoved: set<Text>, handledCreated: set<Text>)
    requires list.Valid() && Sorted(possible) && DistinctSources(possible)
    modifies state`renameSequence, list`events
    ensures list.Valid() && AcceptedFrom(possible, |possible|, accepted)
    ensures list.events == PlayMoves(old(list.events), MovesOf(accepted), old(state.renameSequence))
    ensures state.renameSequence == old(state.renameSequence) + |accepted|
    ensures handledRemoved == (set r | r in accepted :: r.oldPath)
    ensures handledCreated == (set r | r in accepted :: r.newPath)
  {
    hide AcceptedFrom, Rename, PlayMoves;
    accepted, handledRemoved, handledCreated := [], {}, {};
    AcceptedNone(possible);
    MovesNone(list.events, state.renameSequence);
    for n := 0 to |possible|
      invariant list.Valid() && AcceptedFrom(possible, n, accepted)
      invariant list.events == PlayMoves(old(list.events), MovesOf(accepted), old(state.renameSequence))
      invariant state.renameSequence == old(state.renameSequence) + |accepted|
      invariant handledRemoved == (set r | r in accepted :: r.oldPath)
      invariant handledCreated == (set r | r in accepted :: r.newPath)
    {
      var candidate := possible[n];
      AcceptedAdd(possible, n, accepted);
      var coveredByDirectory := CoveredByAny(accepted, candidate);
      if coveredByDirectory {
        continue;
      }
      PlayMoveAdd(old(list.events), MovesOf(accepted), MoveOf(candidate), old(state.renameSequence));
      assert MovesOf(accepted + [candidate]) == MovesOf(accepted) + [MoveOf(candidate)];
      accepted := accepted + [candidate];
      EmitRename(state, list, candidate.oldPath, candidate.newPath, KindOf(candidate.entry));
      handledRemoved := handledRemoved + {candidate.oldPath};
      handledCreated := handledCreated + {candidate.newPath};
    }
  }

  lemma AcceptedNone(rs: seq<ReconciledRename>)
    ensures AcceptedFrom(rs, 0, [])
  {}

  lemma MovesNone(m: Log, start: nat)
    ensures PlayMoves(m, [], start) == m && MovesOf([]) == []
  {}

  method CoveredByAny(accepted: seq<ReconciledRename>, candidate: ReconciledRename) returns (covered: bool)
    ensures covered <==> exists a :: a in accepted && Covers(a, candidate)
  {
    for i := 0 to |accepted|
      invariant forall j :: 0 <= j < i ==> !Covers(accepted[j], candidate)
    {
      if !accepted[i].entry.isDirectory || !IsDescendant(candidate.oldPath, accepted[i].oldPath) {
        continue;
      }
      var expectedNewPath := accepted[i].newPath + candidate.oldPath[|accepted[i].oldPath|..];
      if candidate.newPath == expectedNewPath {
        assert accepted[i] in accepted && Covers(accepted[i], candidate);
        return true;
      }
    }
    return false;
  }

  // ------------------------------------------------------------ entries below an accepted directory

  /** The entries found again below the new place of the accepted directory. */
  ghost function PairedBelow(O: Entries, N: Entries, a: ReconciledRename): (ps: set<Text>)
    ensures forall p :: p in ps ==> p in O && |a.oldPath| <= |p|
  {
    set p | p in O && |a.oldPath| <= |p| && IsPairBelow(O, N, a.oldPath, a.newPath, p, Rebase(p, a.oldPath, a.newPath))
  }

  /** The moves of the entries `ps` along with the accepted directory, each once. */
  ghost predicate MovesAlong(O: Entries, a: ReconciledRename, moves: seq<Move>, ps: set<Text>) {
    && (forall i :: 0 <= i < |moves| ==>
          var p := moves[i].source.path;
          && p in ps && p in O && |a.oldPath| <= |p| && moves[i].source == EntryKey(O, p)
          && moves[i].target == Key(Rebase(p, a.oldPath, a.newPath), KindOf(O[p])))
    && (forall p :: p in ps ==> exists i :: 0 <= i < |moves| && moves[i].source.path == p)
    && (forall i, j :: 0 <= i < j < |moves| ==> moves[i].source != moves[j].source)
  }

  lemma MovesAlongAdd(O: Entries, a: ReconciledRename, moves: seq<Move>, ps: set<Text>, p: Text)
    requires MovesAlong(O, a, moves, ps) && p in O && p !in ps && |a.oldPath| <= |p|
    ensures MovesAlong(O, a, moves + [Move(EntryKey(O, p), Key(Rebase(p, a.oldPath, a.newPath), KindOf(O[p])))],
                       ps + {p})
  {
    var move := Move(EntryKey(O, p), Key(Rebase(p, a.oldPath, a.newPath), KindOf(O[p])));
    var all := moves + [move];
    assert all[|moves|] == move;
    forall q | q in ps + {p}
      ensures exists i :: 0 <= i < |all| && all[i].source.path == q
    {
      if q != p {
        var i :| 0 <= i < |moves| && moves[i].source.path == q;
        assert all[i] == moves[i];
      }
    }
  }

  /** The grouped paths, one by one, in some order. */
  method GroupedPaths(m: Entries, removed: Groups, ghost ps: set<Text>) returns (paths: seq<Text>)
    requires Grouped(removed, m, ps) && ps <= m.Keys
    ensures forall p :: p in paths <==> p in ps
    ensures forall i, j :: 0 <= i < j < |paths| ==> paths[i] != paths[j]
  {
    paths := [];
    forall p | p in ps
      ensures m[p].identity in removed && p in removed[m[p].identity]
    {
      assert p in GroupOf(m, ps, m[p].identity);
    }
    var ids := removed.Keys;
    while ids != {}
      invariant ids <= removed.Keys
      invariant forall p :: p in paths <==> p in ps && m[p].identity !in ids
      invariant forall i, j :: 0 <= i < j < |paths| ==> paths[i] != paths[j]
      decreases ids
    {
      var id :| id in ids;
      var todo := removed[id].Keys;
      while todo != {}
        invariant todo <= removed[id].Keys
        invariant forall p :: p in paths <==> p in ps && (m[p].identity !in ids || (m[p].identity == id && p !in todo))
        invariant forall i, j :: 0 <= i < j < |paths| ==> paths[i] != paths[j]
        decreases todo
      {
        var p :| p in todo;
        assert p in GroupOf(m, ps, id);
        paths := paths + [p];
        todo := todo - {p};
      }
      ids := ids - {id};
    }
  }

  method PairOneDirectory(before: IdentityIndex, current: IdentityIndex, a: ReconciledRename, paths: seq<Text>,
                          state: State, list: EventList, handledRemoved: set<Text>, handledCreated: set<Text>,
                          ghost earlier: seq<Move>, ghost start: nat, ghost m: Log)
    returns (removed': set<Text>, created': set<Text>, ghost moves: seq<Move>)
    requires list.Valid() && list.events == PlayMoves(m, earlier, start) && state.renameSequence == start + |earlier|
    requires forall p :: p in paths <==> p in Changed(before.byPath, current.byPath)
    requires forall i, j :: 0 <= i < j < |paths| ==> paths[i] != paths[j]
    modifies state`renameSequence, list`events
    ensures list.Valid() && list.events == PlayMoves(m, earlier + moves, start)
    ensures state.renameSequence == start + |earlier + moves|
    ensures MovesAlong(before.byPath, a, moves, PairedBelow(before.byPath, current.byPath, a))
    ensures removed' == handledRemoved + PairedBelow(before.byPath, current.byPath, a)
    ensures created' == handledCreated + (set mv | mv in moves :: mv.target.path)
  {
    hide MovesAlong, PlayMoves, Rename, PairedBelow, Changed, HasPrefix, Among, TargetPaths;
    ghost var O, N := before.byPath, current.byPath;
    removed', created', moves := handledRemoved, handledCreated, [];
    ghost var done: set<Text> := {};
    AmongEnds(paths, PairedBelow(O, N, a));
    MovesAlongNone(O, a);
    TargetPathsAre(moves);
    assert earlier + [] == earlier;
    for i := 0 to |paths|
      invariant list.Valid() && list.events == PlayMoves(m, earlier + moves, start)
      invariant state.renameSequence == start + |earlier + moves|
      invariant done == Among(paths, i, PairedBelow(O, N, a))
      invariant MovesAlong(O, a, moves, done)
      invariant removed' == handledRemoved + done
      invariant created' == handledCreated + TargetPaths(moves)
    {
      var p := paths[i];
      assert p in paths;
      AmongNext(paths, i, PairedBelow(O, N, a));
      PairedTest(O, N, a, p);
      if !IsDescendant(p, a.oldPath) {
        continue;
      }
      var newPath := a.newPath + p[|a.oldPath|..];
      var newEntry := current.Find(newPath);
      var oldEntry := before.byPath[p];
      if newEntry.Some? && newEntry.value.identity == oldEntry.identity &&
          newEntry.value.isDirectory == oldEntry.isDirectory {
        ghost var move := Move(EntryKey(O, p), Key(newPath, KindOf(oldEntry)));
        MovesAlongAdd(O, a, moves, done, p);
        PlayMoveAdd(m, earlier + moves, move, start);
        TargetPathsAdd(moves, move);
        assert earlier + (moves + [move]) == earlier + moves + [move];
        EmitRename(state, list, p, newPath, KindOf(oldEntry));
        moves := moves + [move];
        done := done + {p};
        removed' := removed' + {p};
        created' := created' + {newPath};
      }
    }
    PairedAreChanged(O, N, a);
    TargetPathsAre(moves);
  }

  ghost function TargetPaths(moves: seq<Move>): set<Text> {
    set mv | mv in moves :: mv.target.path
  }

  lemma TargetPathsAre(moves: seq<Move>)
    ensures TargetPaths(moves) == set mv | mv in moves :: mv.target.path
    ensures moves == [] ==> TargetPaths(moves) == {}
  {}

  lemma TargetPathsAdd(moves: seq<Move>, move: Move)
    ensures TargetPaths(moves + [move]) == TargetPaths(moves) + {move.target.path}
  {}

  ghost function Among(paths: seq<Text>, count: nat, ps: set<Text>): set<Text>
    requires count <= |paths|
  {
    set p | p in paths[..count] && p in ps
  }

  lemma AmongNext(paths: seq<Text>, i: nat, ps: set<Text>)
    requires i < |paths| && forall i, j :: 0 <= i < j < |paths| ==> paths[i] != paths[j]
    ensures paths[i] !in Among(paths, i, ps)
    ensures Among(paths, i + 1, ps) == Among(paths, i, ps) + (if paths[i] in ps then {paths[i]} else {})
  {
    assert paths[..i + 1] == paths[..i] + [paths[i]];
  }

  lemma AmongEnds(paths: seq<Text>, ps: set<Text>)
    ensures Among(paths, 0, ps) == {}
    ensures (forall p :: p in ps ==> p in paths) ==> Among(paths, |paths|, ps) == ps
  {
    assert paths[..|paths|] == paths;
  }

  lemma MovesAlongNone(O: Entries, a: ReconciledRename)
    ensures MovesAlong(O, a, [], {})
  {}

  lemma PairedTest(O: Entries, N: Entries, a: ReconciledRename, p: Text)
    requires p in Changed(O, N)
    ensures p in O
    ensures p in PairedBelow(O, N, a) <==>
            && IsDescendant(p, a.oldPath) && Rebase(p, a.oldPath, a.newPath) in N
            && N[Rebase(p, a.oldPath, a.newPath)].identity == O[p].identity
            && N[Rebase(p, a.oldPath, a.newPath)].isDirectory == O[p].isDirectory
  {}

  lemma PairedAreChanged(O: Entries, N: Entries, a: ReconciledRename)
    ensures PairedBelow(O, N, a) <= Changed(O, N)
  {}

  // ------------------------------------------------------------ all moves

  function AlongMove(O: Entries, a: ReconciledRename, p: Text): Move
    requires p in O && |a.oldPath| <= |p|
  {
    Move(EntryKey(O, p), Key(Rebase(p, a.oldPath, a.newPath), KindOf(O[p])))
  }

  /** The moves of everything that moved along with the accepted directories. */
  ghost predicate PairMoves(O: Entries, N: Entries, accepted: seq<ReconciledRename>, moves: seq<Move>) {
    && (forall mv :: mv in moves ==>
          exists a, p :: a in accepted && a.entry.isDirectory && p in PairedBelow(O, N, a) && mv == AlongMove(O, a, p))
    && (forall a, p :: a in accepted && a.entry.isDirectory && p in PairedBelow(O, N, a) ==>
        AlongMove(O, a, p) in moves)
    && (|accepted| == 1 && accepted[0].entry.isDirectory ==>
          MovesAlong(O, accepted[0], moves, PairedBelow(O, N, accepted[0])))
  }

  lemma MovesAlongAre(O: Entries, N: Entries, a: ReconciledRename, moves: seq<Move>)
    requires MovesAlong(O, a, moves, PairedBelow(O, N, a))
    ensures forall mv :: mv in moves ==> exists p :: p in PairedBelow(O, N, a) && mv == AlongMove(O, a, p)
    ensures forall p :: p in PairedBelow(O, N, a) ==> AlongMove(O, a, p) in moves
  {
    forall mv | mv in moves
      ensures exists p :: p in PairedBelow(O, N, a) && mv == AlongMove(O, a, p)
    {
      var i :| 0 <= i < |moves| && moves[i] == mv;
      assert mv == AlongMove(O, a, moves[i].source.path);
    }
    forall p | p in PairedBelow(O, N, a)
      ensures AlongMove(O, a, p) in moves
    {
      var i :| 0 <= i < |moves| && moves[i].source.path == p;
      assert moves[i] == AlongMove(O, a, p);
    }
  }

  lemma Inhabited<T>(s: seq<T>)
    ensures s != [] ==> exists x :: x in s
  {
    if s != [] {
      assert s[0] in s;
    }
  }

  lemma PairMovesAdd(O: Entries, N: Entries, earlier: seq<ReconciledRename>, moves: seq<Move>,
                     a: ReconciledRename, more: seq<Move>)
    requires PairMoves(O, N, earlier, moves)
    requires if a.entry.isDirectory then MovesAlong(O, a, more, PairedBelow(O, N, a)) else more == []
    ensures PairMoves(O, N, earlier + [a], moves + more)
  {
    hide PairedBelow, MovesAlong;
    var accepted, all := earlier + [a], moves + more;
    if a.entry.isDirectory {
      MovesAlongAre(O, N, a, more);
    }
    forall mv | mv in all
      ensures exists b, p ::
                b in accepted && b.entry.isDirectory && p in PairedBelow(O, N, b) && mv == AlongMove(O, b, p)
    {
      if mv in moves {
        var b, p :| b in earlier && b.entry.isDirectory && p in PairedBelow(O, N, b) && mv == AlongMove(O, b, p);
        assert b in accepted;
      } else {
        var p :| p in PairedBelow(O, N, a) && mv == AlongMove(O, a, p);
        assert a in accepted;
      }
    }
    if |accepted| == 1 && a.entry.isDirectory {
      Inhabited(moves);
      assert forall mv :: mv !in moves;
      assert all == more;
    }
  }

  method PairDescendants(before: IdentityIndex, current: IdentityIndex, accepted: seq<ReconciledRename>,
                         removed: Groups,
                         state: State, list: EventList, handledRemoved: set<Text>, handledCreated: set<Text>,
                         ghost earlier: seq<Move>, ghost start: nat, ghost m: Log)
    returns (removed': set<Text>, created': set<Text>, ghost moves: seq<Move>)
    requires list.Valid() && list.events == PlayMoves(m, earlier, start) && state.renameSequence == start + |earlier|
    requires Grouped(removed, before.byPath, Changed(before.byPath, current.byPath))
    modifies state`renameSequence, list`events
    ensures list.Valid() && list.events == PlayMoves(m, earlier + moves, start)
    ensures state.renameSequence == start + |earlier + moves|
    ensures PairMoves(before.byPath, current.byPath, accepted, moves)
    ensures removed' == handledRemoved + (set mv | mv in moves :: mv.source.path)
    ensures created' == handledCreated + (set mv | mv in moves :: mv.target.path)
  {
    hide PlayMoves, PairMoves, MovesAlong, PairedBelow, Grouped;
    ghost var O, N := before.byPath, current.byPath;
    removed', created', moves := handledRemoved, handledCreated, [];
    var paths := GroupedPaths(before.byPath, removed, Changed(before.byPath, current.byPath));
    assert earlier + [] == earlier;
    PairMovesNone(O, N);
    for n := 0 to |accepted|
      invariant list.Valid() && list.events == PlayMoves(m, earlier + moves, start)
      invariant state.renameSequence == start + |earlier + moves|
      invariant PairMoves(O, N, accepted[..n], moves)
      invariant removed' == handledRemoved + (set mv | mv in moves :: mv.source.path)
      invariant created' == handledCreated + (set mv | mv in moves :: mv.target.path)
    {
      assert accepted[..n + 1] == accepted[..n] + [accepted[n]];
      if !accepted[n].entry.isDirectory {
        PairMovesAdd(O, N, accepted[..n], moves, accepted[n], []);
        assert moves + [] == moves;
        continue;
      }
      ghost var more: seq<Move>;
      removed', created', more := PairOneDirectory(before, current, accepted[n], paths, state, list, removed', created',
                                                   earlier + moves, start, m);
      PairMovesAdd(O, N, accepted[..n], moves, accepted[n], more);
      MovesAlongSources(O, accepted[n], more, PairedBelow(O, N, accepted[n]));
      assert earlier + moves + more == earlier + (moves + more);
      moves := moves + more;
    }
    assert accepted[..|accepted|] == accepted;
  }

  lemma PairMovesNone(O: Entries, N: Entries)
    ensures PairMoves(O, N, [], [])
  {}

  lemma MovesAlongSources(O: Entries, a: ReconciledRename, moves: seq<Move>, ps: set<Text>)
    requires MovesAlong(O, a, moves, ps)
    ensures (set mv | mv in moves :: mv.source.path) == ps
  {
    forall p | p in ps
      ensures exists mv :: mv in moves && mv.source.path == p
    {
      var i :| 0 <= i < |moves| && moves[i].source.path == p;
      assert moves[i] in moves;
    }
  }

  // ------------------------------------------------------------ removals, additions, updates

  ghost predicate RemovesAre(O: Entries, N: Entries, handled: set<Text>, keys: seq<Key>) {
    forall k :: k in keys <==>
                && k.path in Changed(O, N) && k.path !in handled && k == EntryKey(O, k.path)
                && (O[k.path].isDirectory || k.path !in N || N[k.path].isDirectory)
  }

  ghost predicate AdditionsAre(O: Entries, N: Entries, handled: set<Text>, additions: seq<Addition>) {
    && DistinctAdditions(additions)
    && (forall a :: a in additions <==>
                    && a.key.path in Changed(N, O) && a.key.path !in handled && a.key == EntryKey(N, a.key.path)
                    && a.asUpdate == (a.key.path in O && !O[a.key.path].isDirectory && !N[a.key.path].isDirectory))
  }

  ghost predicate UpdatesAre(O: Entries, N: Entries, keys: seq<Key>) {
    forall k :: k in keys <==>
                && k.path in N && k == EntryKey(N, k.path) && k.path in O && !N[k.path].isDirectory
                && O[k.path].identity == N[k.path].identity && O[k.path].mtime != N[k.path].mtime
  }

  method EmitRemovals(before: IdentityIndex, current: IdentityIndex, removed: Groups, handledRemoved: set<Text>,
                      list: EventList)
    returns (ghost keys: seq<Key>)
    requires list.Valid() && Grouped(removed, before.byPath, Changed(before.byPath, current.byPath))
    modifies list`events
    ensures list.Valid() && list.events == PlayRemoves(old(list.events), keys)
    ensures RemovesAre(before.byPath, current.byPath, handledRemoved, keys)
  {
    hide Grouped, PlayRemoves, Remove;
    keys := [];
    RemovesNone(list.events);
    var paths := GroupedPaths(before.byPath, removed, Changed(before.byPath, current.byPath));
    for i := 0 to |paths|
      invariant list.Valid() && list.events == PlayRemoves(old(list.events), keys)
      invariant forall k :: k in keys <==>
                            && k.path in paths[..i] && k.path !in handledRemoved && k == EntryKey(before.byPath, k.path)
                            && (before.byPath[k.path].isDirectory || k.path !in current.byPath
                                || current.byPath[k.path].isDirectory)
    {
      var p := paths[i];
      assert p in paths && paths[..i + 1] == paths[..i] + [p];
      var replacement := current.Find(p);
      if p !in handledRemoved &&
         (before.byPath[p].isDirectory || replacement.None? || replacement.value.isDirectory) {
        RemovesAdd(old(list.events), keys, EntryKey(before.byPath, p));
        list.Remove(p, KindOf(before.byPath[p]));
        keys := keys + [EntryKey(before.byPath, p)];
      }
    }
    assert paths[..|paths|] == paths;
  }

  lemma RemovesNone(m: Log)
    ensures PlayRemoves(m, []) == m
  {}

  lemma RemovesAdd(m: Log, keys: seq<Key>, k: Key)
    ensures PlayRemoves(m, keys + [k]) == Remove(PlayRemoves(m, keys), k)
  {
    assert (keys + [k])[..|keys|] == keys;
  }

  method EmitAdditions(before: IdentityIndex, current: IdentityIndex, created: Groups, handledCreated: set<Text>,
                       list: EventList)
    returns (ghost additions: seq<Addition>)
    requires list.Valid() && Grouped(created, current.byPath, Changed(current.byPath, before.byPath))
    modifies list`events
    ensures list.Valid() && list.events == PlayAdditions(old(list.events), additions)
    ensures AdditionsAre(before.byPath, current.byPath, handledCreated, additions)
  {
    hide Grouped, PlayAdditions, PlayAddition;
    additions := [];
    AdditionsNone(list.events);
    var paths := GroupedPaths(current.byPath, created, Changed(current.byPath, before.byPath));
    for i := 0 to |paths|
      invariant list.Valid() && list.events == PlayAdditions(old(list.events), additions)
      invariant DistinctAdditions(additions)
      invariant forall a :: a in additions <==>
                            && a.key.path in paths[..i] && a.key.path !in handledCreated
                            && a.key == EntryKey(current.byPath, a.key.path)
                            && a.asUpdate == (a.key.path in before.byPath && !before.byPath[a.key.path].isDirectory
                                              && !current.byPath[a.key.path].isDirectory)
    {
      var p := paths[i];
      assert p in paths && paths[..i + 1] == paths[..i] + [p];
      assert p !in paths[..i];
      if p !in handledCreated {
        var previous := before.Find(p);
        var entry := current.byPath[p];
        ghost var a := Addition(EntryKey(current.byPath, p),
                                previous.Some? && !previous.value.isDirectory && !entry.isDirectory);
        AdditionsAdd(old(list.events), additions, a);
        if previous.Some? && !previous.value.isDirectory && !entry.isDirectory {
          list.Update(p, File);
        } else {
          list.Create(p, KindOf(entry));
        }
        assert forall j :: 0 <= j < |additions| ==> additions[j] in additions;
        additions := additions + [a];
      }
    }
    assert paths[..|paths|] == paths;
  }

  lemma AdditionsNone(m: Log)
    ensures PlayAdditions(m, []) == m
  {}

  lemma AdditionsAdd(m: Log, additions: seq<Addition>, a: Addition)
    ensures PlayAdditions(m, additions + [a]) ==
            if a.asUpdate then Touch(PlayAdditions(m, additions), a.key) else Create(PlayAdditions(m, additions), a.key)
  {
    assert (additions + [a])[..|additions|] == additions;
  }

  method EmitUpdates(before: IdentityIndex, current: IdentityIndex, list: EventList) returns (ghost keys: seq<Key>)
    requires list.Valid()
    modifies list`events
    ensures list.Valid() && list.events == PlayUpdates(old(list.events), keys)
    ensures UpdatesAre(before.byPath, current.byPath, keys)
  {
    hide PlayUpdates, Touch;
    keys := [];
    UpdatesNone(list.events);
    var todo := current.byPath.Keys;
    while todo != {}
      invariant todo <= current.byPath.Keys
      invariant list.Valid() && list.events == PlayUpdates(old(list.events), keys)
      invariant forall k :: k in keys <==>
                            && k.path in current.byPath.Keys - todo && k == EntryKey(current.byPath, k.path)
                            && k.path in before.byPath && !current.byPath[k.path].isDirectory
                            && before.byPath[k.path].identity == current.byPath[k.path].identity
                            && before.byPath[k.path].mtime != current.byPath[k.path].mtime
      decreases todo
    {
      var p :| p in todo;
      var after := current.byPath[p];
      var previous := before.Find(p);
      if previous.Some? && previous.value.identity == after.identity && !after.isDirectory &&
         previous.value.mtime != after.mtime {
        UpdatesAdd(old(list.events), keys, Key(p, File));
        list.Update(p, File);
        keys := keys + [Key(p, File)];
      }
      todo := todo - {p};
    }
  }

  lemma UpdatesNone(m: Log)
    ensures PlayUpdates(m, []) == m
  {}

  lemma UpdatesAdd(m: Log, keys: seq<Key>, k: Key)
    ensures PlayUpdates(m, keys + [k]) == Touch(PlayUpdates(m, keys), k)
  {
    assert (keys + [k])[..|keys|] == keys;
  }

  // ------------------------------------------------------------ the whole reconciliation

  /** The accepted candidates: each candidate is accepted, or accounted for by an accepted directory. */
  ghost predicate Accepted(O: Entries, N: Entries, accepted: seq<ReconciledRename>) {
    && (forall i :: 0 <= i < |accepted| ==>
          IsCandidate(O, N, accepted[i].oldPath, accepted[i].newPath) && accepted[i].entry == N[accepted[i].newPath])
    && (forall p, q :: IsCandidate(O, N, p, q) ==>
          exists a :: a in accepted && ((a.oldPath == p && a.newPath == q)
                                        || Covers(a, ReconciledRename(p, q, N[q]))))
    && (forall i, j :: 0 <= i < j < |accepted| ==> !Covers(accepted[i], accepted[j]) && !Less(accepted[j], accepted[i]))
    && DistinctSources(accepted)
  }

  lemma AcceptedIs(O: Entries, N: Entries, possible: seq<ReconciledRename>, accepted: seq<ReconciledRename>)
    requires CandidateList(O, N, possible) && ListsAll(O, N, possible, {}) &&
             AcceptedFrom(possible, |possible|, accepted)
    ensures Accepted(O, N, accepted)
  {
    assert possible[..|possible|] == possible;
    forall p, q | IsCandidate(O, N, p, q)
      ensures exists a :: a in accepted && ((a.oldPath == p && a.newPath == q)
                                            || Covers(a, ReconciledRename(p, q, N[q])))
    {
      var i :| 0 <= i < |possible| && possible[i].oldPath == p && possible[i].newPath == q;
      assert possible[i] == ReconciledRename(p, q, N[q]);
      if possible[i] !in accepted {
        var a :| a in accepted && Covers(a, possible[i]);
      }
    }
  }

  /** A candidate directory's entries are all moved along with some accepted directory. */
  lemma PairsCovered(O: Entries, N: Entries, accepted: seq<ReconciledRename>, a: Text, b: Text, p: Text, q: Text)
    returns (r: ReconciledRename)
    requires Accepted(O, N, accepted) && IsCandidate(O, N, a, b) && O[a].isDirectory && IsPairBelow(O, N, a, b, p, q)
    ensures r in accepted && r.entry.isDirectory && p in PairedBelow(O, N, r) && q == Rebase(p, r.oldPath, r.newPath)
  {
    r :| r in accepted && ((r.oldPath == a && r.newPath == b) || Covers(r, ReconciledRename(a, b, N[b])));
    if !(r.oldPath == a && r.newPath == b) {
      PairBelowNested(O, N, r.oldPath, r.newPath, a, b, p, q);
    }
  }

  /** A covered candidate is moved along with the directory that covers it. */
  lemma CoveredIsPaired(O: Entries, N: Entries, a: ReconciledRename, p: Text, q: Text)
    requires IsCandidate(O, N, p, q) && Covers(a, ReconciledRename(p, q, N[q]))
    ensures p in PairedBelow(O, N, a) && q == Rebase(p, a.oldPath, a.newPath)
  {
    assert p !in PathsOf(N, N[q].identity);
  }

  /** The emitted moves are exactly the inferred renames, by source and by target. */
  ghost predicate MovesAreInferred(O: Entries, N: Entries, moves: seq<Move>) {
    && (forall mv :: mv in moves ==>
          && Inferred(O, N, mv.source.path, mv.target.path)
          && mv.source.path in O && mv.source == EntryKey(O, mv.source.path)
          && mv.target.path in N && mv.target == EntryKey(N, mv.target.path))
    && (forall p, q :: Inferred(O, N, p, q) ==>
          exists mv :: mv in moves && mv.source.path == p && mv.target.path == q)
  }

  lemma AllMoves(O: Entries, N: Entries, accepted: seq<ReconciledRename>, pairs: seq<Move>)
    requires Accepted(O, N, accepted) && PairMoves(O, N, accepted, pairs)
    ensures MovesAreInferred(O, N, MovesOf(accepted) + pairs)
  {
    var moves := MovesOf(accepted) + pairs;
    forall mv | mv in moves
      ensures && Inferred(O, N, mv.source.path, mv.target.path)
              && mv.source.path in O && mv.source == EntryKey(O, mv.source.path)
              && mv.target.path in N && mv.target == EntryKey(N, mv.target.path)
    {
      if mv in pairs {
        var a, p :| a in accepted && a.entry.isDirectory && p in PairedBelow(O, N, a) && mv == AlongMove(O, a, p);
        PairedInferred(O, N, a, p);
      } else {
        var i :| 0 <= i < |accepted| && MovesOf(accepted)[i] == mv;
        assert mv == MoveOf(accepted[i]);
      }
    }
    forall p, q | Inferred(O, N, p, q)
      ensures exists mv :: mv in moves && mv.source.path == p && mv.target.path == q
    {
      var mv := MoveFor(O, N, accepted, pairs, p, q);
      assert mv in moves;
    }
  }

  lemma PairedInferred(O: Entries, N: Entries, a: ReconciledRename, p: Text)
    requires IsCandidate(O, N, a.oldPath, a.newPath) && a.entry == N[a.newPath] && a.entry.isDirectory
    requires p in PairedBelow(O, N, a)
    ensures var mv := AlongMove(O, a, p);
            && Inferred(O, N, mv.source.path, mv.target.path)
            && mv.target.path in N && mv.target == EntryKey(N, mv.target.path)
  {}

  lemma MoveFor(O: Entries, N: Entries, accepted: seq<ReconciledRename>, pairs: seq<Move>, p: Text, q: Text)
    returns (mv: Move)
    requires Accepted(O, N, accepted) && PairMoves(O, N, accepted, pairs) && Inferred(O, N, p, q)
    ensures (mv in MovesOf(accepted) || mv in pairs) && mv.source.path == p && mv.target.path == q
  {
    if IsCandidate(O, N, p, q) {
      var a :| a in accepted && ((a.oldPath == p && a.newPath == q) || Covers(a, ReconciledRename(p, q, N[q])));
      if a.oldPath == p && a.newPath == q {
        var i :| 0 <= i < |accepted| && accepted[i] == a;
        mv := MovesOf(accepted)[i];
      } else {
        CoveredIsPaired(O, N, a, p, q);
        mv := AlongMove(O, a, p);
      }
    } else {
      var a, b :| IsCandidate(O, N, a, b) && O[a].isDirectory && IsPairBelow(O, N, a, b, p, q);
      var r := PairsCovered(O, N, accepted, a, b, p, q);
      mv := AlongMove(O, r, p);
    }
  }

  lemma HandledAre(O: Entries, N: Entries, moves: seq<Move>)
    requires MovesAreInferred(O, N, moves)
    ensures (set mv | mv in moves :: mv.source.path) == Sources(O, N)
    ensures (set mv | mv in moves :: mv.target.path) == Targets(O, N)
  {
    forall p
      ensures p in (set mv | mv in moves :: mv.source.path) <==> p in Sources(O, N)
      ensures p in (set mv | mv in moves :: mv.target.path) <==> p in Targets(O, N)
    {
      if p in Sources(O, N) {
        var q :| Inferred(O, N, p, q);
        var mv :| mv in moves && mv.source.path == p && mv.target.path == q;
      }
      if p in Targets(O, N) {
        var q :| Inferred(O, N, q, p);
        var mv :| mv in moves && mv.source.path == q && mv.target.path == p;
      }
    }
  }

  lemma PlanMoves(O: Entries, N: Entries, moves: seq<Move>)
    requires MovesAreInferred(O, N, moves)
    ensures forall i :: 0 <= i < |moves| ==>
              var s, t := moves[i].source, moves[i].target;
              && Inferred(O, N, s.path, t.path)
              && s.path in O && s == EntryKey(O, s.path) && t.path in N && t == EntryKey(N, t.path)
    ensures forall p :: p in Sources(O, N) ==> exists i :: 0 <= i < |moves| && moves[i].source.path == p
    ensures forall q :: q in Targets(O, N) ==> exists i :: 0 <= i < |moves| && moves[i].target.path == q
  {
    hide Inferred;
    HandledAre(O, N, moves);
    forall i | 0 <= i < |moves|
      ensures moves[i] in moves
    {}
    forall p | p in Sources(O, N)
      ensures exists i :: 0 <= i < |moves| && moves[i].source.path == p
    {
      var mv :| mv in moves && mv.source.path == p;
      var i :| 0 <= i < |moves| && moves[i] == mv;
    }
    forall q | q in Targets(O, N)
      ensures exists i :: 0 <= i < |moves| && moves[i].target.path == q
    {
      var mv :| mv in moves && mv.target.path == q;
      var i :| 0 <= i < |moves| && moves[i] == mv;
    }
  }

  lemma PlanIs(O: Entries, N: Entries, plan: Plan, handledRemoved: set<Text>, handledCreated: set<Text>)
    requires MovesAreInferred(O, N, plan.moves)
    requires handledRemoved == (set mv | mv in plan.moves :: mv.source.path)
    requires handledCreated == (set mv | mv in plan.moves :: mv.target.path)
    requires RemovesAre(O, N, handledRemoved, plan.removes) && AdditionsAre(O, N, handledCreated, plan.additions)
    requires UpdatesAre(O, N, plan.updates)
    ensures IsPlan(O, N, plan)
  {
    hide Inferred, MovesAreInferred, Changed, Sources, Targets;
    HandledAre(O, N, plan.moves);
    PlanMoves(O, N, plan.moves);
  }

  /** `current` is the index a completed rescan produced; a cancelled rescan changes nothing. */
  method ReconcileFullTree(state: State, current: IdentityIndex, list: EventList, cancelled: bool)
    returns (ghost plan: Plan, ghost accepted: seq<ReconciledRename>, ghost pairs: seq<Move>)
    requires state.identities.Valid() && current.Valid() && list.Valid()
    modifies state, list
    ensures list.Valid()
    ensures cancelled ==> unchanged(state) && unchanged(list)
    ensures !cancelled ==>
              && state.identities == current
              && IsPlan(old(state.identities.byPath), current.byPath, plan)
              && list.events == Play(old(list.events), plan, old(state.renameSequence))
              && Accepted(old(state.identities.byPath), current.byPath, accepted)
              && PairMoves(old(state.identities.byPath), current.byPath, accepted, pairs)
              && plan.moves == MovesOf(accepted) + pairs
              && state.renameSequence == old(state.renameSequence) + |plan.moves|
  {
    plan, accepted, pairs := Plan([], [], [], []), [], [];
    if cancelled {
      return;
    }
    hide Accepted, PairMoves, MovesAreInferred, CandidateList, ListsAll, AcceptedFrom, Grouped;
    hide PlayMoves, PlayRemoves, PlayAdditions, PlayUpdates, Changed, Sources, Targets, Inferred;
    hide RemovesAre, AdditionsAre, UpdatesAre, IsPlan;
    var before := state.identities;
    ghost var O, N, start, m := before.byPath, current.byPath, state.renameSequence, list.events;
    var removed := CollectChanged(before.byPath, current);
    var created := CollectChanged(current.byPath, before);
    var candidates := FindCandidates(before, current, removed, created);
    DistinctOf(O, N, candidates);
    var possible := SortRenames(candidates);
    SortedCandidates(O, N, candidates, possible);
    var taken: seq<ReconciledRename>, handledRemoved: set<Text>, handledCreated: set<Text>;
    taken, handledRemoved, handledCreated := AcceptRenames(possible, state, list);
    accepted := taken;
    AcceptedIs(O, N, possible, accepted);
    handledRemoved, handledCreated, pairs :=
      PairDescendants(before, current, taken, removed, state, list, handledRemoved, handledCreated,
                      MovesOf(taken), start, m);
    ghost var moves := MovesOf(accepted) + pairs;
    AllMoves(O, N, accepted, pairs);
    HandledSets(accepted, pairs);
    ghost var removes := EmitRemovals(before, current, removed, handledRemoved, list);
    ghost var additions := EmitAdditions(before, current, created, handledCreated, list);
    ghost var updates := EmitUpdates(before, current, list);
    plan := Plan(moves, removes, additions, updates);
    PlanIs(O, N, plan, handledRemoved, handledCreated);
    state.identities := current;
  }

  lemma DistinctOf(O: Entries, N: Entries, rs: seq<ReconciledRename>)
    requires CandidateList(O, N, rs)
    ensures DistinctSources(rs)
  {}

  lemma HandledSets(accepted: seq<ReconciledRename>, pairs: seq<Move>)
    ensures (set r | r in accepted :: r.oldPath) + (set mv | mv in pairs :: mv.source.path) ==
            set mv | mv in MovesOf(accepted) + pairs :: mv.source.path
    ensures (set r | r in accepted :: r.newPath) + (set mv | mv in pairs :: mv.target.path) ==
            set mv | mv in MovesOf(accepted) + pairs :: mv.target.path
  {
    var moves := MovesOf(accepted) + pairs;
    forall r | r in accepted
      ensures exists mv :: mv in moves && mv.source.path == r.oldPath && mv.target.path == r.newPath
    {
      var i :| 0 <= i < |accepted| && accepted[i] == r;
      assert MovesOf(accepted)[i] == MoveOf(r);
      assert moves[i] == MoveOf(r);
    }
    forall mv | mv in MovesOf(accepted)
      ensures exists r :: r in accepted && mv.source.path == r.oldPath && mv.target.path == r.newPath
    {
      var i :| 0 <= i < |accepted| && MovesOf(accepted)[i] == mv;
      assert accepted[i] in accepted;
    }
  }
}
