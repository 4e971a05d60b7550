/** The entries of a directory and their events, followed through one move after another. */
module InotifyTracking {
  import opened Bytes
  import opened Options
  import opened EventLog
  import EventHistory
  import opened Subtrees
  import opened DirTrees
  import opened InotifyMoves

  function IdOf(p: Text, first: Text, cookie: nat): Text
    requires |first| <= |p|
  {
    MoveId(cookie, p[|first|..])
  }

  /** The log holds one pair for each entry in `place`: a delete where it was first, a create where it is
      now, under the id of its first move; and it holds nothing else. */
  ghost predicate Tracks(log: Log, m: Tree, first: Text, cookie: nat, place: map<Text, Text>) {
    && (forall p :: p in place ==>
          p in m && IsPathOrDescendant(p, first) && EntryTracked(log, m, first, cookie, p, place[p]))
    && (forall k :: k in log ==> KeyTracked(m, place, k))
  }

  ghost predicate KeyTracked(m: Tree, place: map<Text, Text>, k: Key) {
    exists p :: p in place && p in m && KeyOfEntry(m, place, p, k)
  }

  predicate KeyOfEntry(m: Tree, place: map<Text, Text>, p: Text, k: Key)
    requires p in place && p in m
  {
    k == Key(p, KindOf(m[p].isDir)) || k == Key(place[p], KindOf(m[p].isDir))
  }

  ghost predicate EntryTracked(log: Log, m: Tree, first: Text, cookie: nat, p: Text, now: Text)
    requires p in m && IsPathOrDescendant(p, first)
  {
    var kind := KindOf(m[p].isDir);
    var id := IdOf(p, first, cookie);
    && Key(p, kind) in log && log[Key(p, kind)] == Event(p, kind, false, true, Some(id))
    && Key(now, kind) in log && log[Key(now, kind)] == Event(now, kind, true, false, Some(id))
  }

  /** A path that no tracked entry has or had. */
  ghost predicate Untouched(place: map<Text, Text>, u: Text) {
    u !in place && forall p :: p in place ==> place[p] != u
  }

  lemma UntouchedNotLogged(log: Log, m: Tree, first: Text, cookie: nat, place: map<Text, Text>, u: Text,
                           kind: EntryKind)
    requires Tracks(log, m, first, cookie, place) && Untouched(place, u)
    ensures Key(u, kind) !in log
  {
    hide EntryTracked, IsPathOrDescendant, IdOf;
  }

  lemma TrackFirst(log: Log, m: Tree, first: Text, cookie: nat, place: map<Text, Text>, p: Text, u: Text)
    requires Tracks(log, m, first, cookie, place) && p in m && IsPathOrDescendant(p, first)
    requires Untouched(place, p) && Untouched(place, u) && p != u
    ensures var kind := KindOf(m[p].isDir);
            Tracks(Rename(log, Key(p, kind), Key(u, kind), IdOf(p, first, cookie)), m, first, cookie, place[p := u])
  {
    hide Rename, IdOf, IsPathOrDescendant;
    PrefixShorter(p, first);
    var kind := KindOf(m[p].isDir);
    UntouchedNotLogged(log, m, first, cookie, place, p, kind);
    UntouchedNotLogged(log, m, first, cookie, place, u, kind);
    EventHistory.FirstMove(log, Key(p, kind), Key(u, kind), IdOf(p, first, cookie));
    TracksMoved(log, m, first, cookie, place, p, u);
  }

  lemma TracksMoved(log: Log, m: Tree, first: Text, cookie: nat, place: map<Text, Text>, p: Text, u: Text)
    requires Tracks(log, m, first, cookie, place) && p in m && IsPathOrDescendant(p, first)
    requires Untouched(place, p) && Untouched(place, u) && p != u
    ensures var kind := KindOf(m[p].isDir);
            Tracks(EventHistory.Moved(log, Key(p, kind), Key(u, kind), IdOf(p, first, cookie)), m, first, cookie,
                   place[p := u])
  {
    hide IdOf, IsPathOrDescendant, EntryTracked, KeyTracked;
    PrefixShorter(p, first);
    var kind := KindOf(m[p].isDir);
    var after := EventHistory.Moved(log, Key(p, kind), Key(u, kind), IdOf(p, first, cookie));
    EntryMoved(log, m, first, cookie, p, u);
    forall q | q in place
      ensures EntryTracked(after, m, first, cookie, q, place[q])
    {
      EntryFrame(log, after, m, first, cookie, q, place[q]);
    }
    forall k | k in after
      ensures KeyTracked(m, place[p := u], k)
    {
      if k in log {
        KeyStill(m, place, place[p := u], k, p);
      } else {
        KeyNew(m, place[p := u], k, p);
      }
    }
  }

  lemma EntryMoved(log: Log, m: Tree, first: Text, cookie: nat, p: Text, u: Text)
    requires p in m && IsPathOrDescendant(p, first) && p != u
    ensures var kind := KindOf(m[p].isDir);
            EntryTracked(EventHistory.Moved(log, Key(p, kind), Key(u, kind), IdOf(p, first, cookie)), m, first, cookie,
                         p, u)
  {}

  /** What is tracked stays tracked where the log does not change. */
  lemma EntryFrame(log: Log, after: Log, m: Tree, first: Text, cookie: nat, q: Text, now: Text)
    requires q in m && IsPathOrDescendant(q, first) && EntryTracked(log, m, first, cookie, q, now)
    requires forall k: Key :: (k.path == q || k.path == now) && k in log ==> k in after && after[k] == log[k]
    ensures EntryTracked(after, m, first, cookie, q, now)
  {}

  lemma KeyStill(m: Tree, place: map<Text, Text>, after: map<Text, Text>, k: Key, p: Text)
    requires KeyTracked(m, place, k) && (forall q :: q in place && q != p ==> q in after && after[q] == place[q])
    requires p in place && p in m ==> !KeyOfEntry(m, place, p, k)
    ensures KeyTracked(m, after, k)
  {
    var q :| q in place && q in m && KeyOfEntry(m, place, q, k);
    assert KeyOfEntry(m, after, q, k);
  }

  lemma KeyNew(m: Tree, place: map<Text, Text>, k: Key, p: Text)
    requires p in place && p in m && KeyOfEntry(m, place, p, k)
    ensures KeyTracked(m, place, k)
  {}

  /** Origins and present places are all different. */
  ghost predicate Spread(place: map<Text, Text>) {
    && (forall p :: p in place ==> place[p] !in place)
    && (forall p, q :: p in place && q in place && place[p] == place[q] ==> p == q)
  }

  /** A further move of a tracked entry: only the place changes, the id of the first move stays. */
  lemma TrackNext(log: Log, m: Tree, first: Text, cookie: nat, place: map<Text, Text>, p: Text, u: Text, id: Text)
    requires Tracks(log, m, first, cookie, place) && Spread(place) && p in place && p in m && Untouched(place, u)
    ensures var kind := KindOf(m[p].isDir);
            Tracks(Rename(log, Key(place[p], kind), Key(u, kind), id), m, first, cookie, place[p := u])
  {
    hide Rename, IdOf, IsPathOrDescendant, Tracks;
    var kind := KindOf(m[p].isDir);
    var s, t := Key(p, kind), Key(place[p], kind);
    var rest := Untracked(log, m, first, cookie, place, p);
    assert !(Key(u, kind) in rest) by { UntouchedNotLogged(log, m, first, cookie, place, u, kind); }
    EventHistory.NextMove(rest, s, t, Key(u, kind), IdOf(p, first, cookie), id);
    TracksMoved(rest, m, first, cookie, place - {p}, p, u);
    assert (place - {p})[p := u] == place[p := u];
  }

  /** The log without one tracked entry. */
  lemma Untracked(log: Log, m: Tree, first: Text, cookie: nat, place: map<Text, Text>, p: Text) returns (rest: Log)
    requires Tracks(log, m, first, cookie, place) && Spread(place) && p in place && p in m
    ensures |first| <= |p| && IsPathOrDescendant(p, first)
    ensures var kind := KindOf(m[p].isDir);
            && rest == log - {Key(p, kind), Key(place[p], kind)}
            && log == EventHistory.Moved(rest, Key(p, kind), Key(place[p], kind), IdOf(p, first, cookie))
    ensures Tracks(rest, m, first, cookie, place - {p})
  {
    hide IdOf, IsPathOrDescendant, EntryTracked, KeyTracked;
    PrefixShorter(p, first);
    var kind := KindOf(m[p].isDir);
    rest := log - {Key(p, kind), Key(place[p], kind)};
    EntryTaken(log, m, first, cookie, p, place[p]);
    forall q | q in place - {p}
      ensures EntryTracked(rest, m, first, cookie, q, place[q])
    {
      EntryFrame(log, rest, m, first, cookie, q, place[q]);
    }
    forall k | k in rest
      ensures KeyTracked(m, place - {p}, k)
    {
      KeyStill(m, place, place - {p}, k, p);
    }
  }

  lemma EntryTaken(log: Log, m: Tree, first: Text, cookie: nat, p: Text, now: Text)
    requires p in m && IsPathOrDescendant(p, first) && EntryTracked(log, m, first, cookie, p, now)
    ensures var kind := KindOf(m[p].isDir);
            log == EventHistory.Moved(log - {Key(p, kind), Key(now, kind)}, Key(p, kind), Key(now, kind),
                                      IdOf(p, first, cookie))
  {
    var kind := KindOf(m[p].isDir);
    var rest := log - {Key(p, kind), Key(now, kind)};
    var again := EventHistory.Moved(rest, Key(p, kind), Key(now, kind), IdOf(p, first, cookie));
    assert forall k :: k in again <==> k in log;
    assert forall k :: k in again ==> again[k] == log[k];
  }

  // ------------------------------------------------------------ one move of the whole directory

  lemma RebaseTwice(p: Text, a: Text, b: Text, c: Text)
    requires IsPathOrDescendant(p, a)
    ensures Rebase(Rebase(p, a, b), b, c) == Rebase(p, a, c)
  {
    assert Rebase(p, a, b)[|b|..] == p[|a|..];
  }

  /** Each entry at or below `first`, with its place when the directory is at `now`. */
  function AllAt(m: Tree, first: Text, now: Text): map<Text, Text> {
    map p | p in Subtree(m, first) && |first| <= |p| :: Rebase(p, first, now)
  }

  /** The places while the directory is on its way: the entries `done` are at `b`, the others at `a`. */
  function Underway(m: Tree, first: Text, a: Text, b: Text, done: set<Text>): map<Text, Text> {
    map p | p in Subtree(m, first) && |first| <= |p| :: if p in done then Rebase(p, first, b) else Rebase(p, first, a)
  }

  lemma UnderwayIs(m: Tree, first: Text, a: Text, b: Text, done: set<Text>, p: Text)
    ensures p in Underway(m, first, a, b, done) <==> p in Subtree(m, first)
    ensures p in Underway(m, first, a, b, done) ==>
              var at := if p in done then b else a;
              && IsPathOrDescendant(p, first) && IsPathOrDescendant(Underway(m, first, a, b, done)[p], at)
              && Rebase(Underway(m, first, a, b, done)[p], at, first) == p
  {
    if IsPathOrDescendant(p, first) {
      PrefixShorter(p, first);
      RebaseBack(p, first, a);
      RebaseBack(p, first, b);
    }
  }

  lemma UnderApart(t: Text, u: Text, a: Text, b: Text)
    requires IsPathOrDescendant(t, a) && IsPathOrDescendant(u, b) && Unnested(a, b)
    ensures t != u
  {
    if t == u {
      BothAbove(t, a, b);
    }
  }

  lemma UnderwaySpread(m: Tree, first: Text, a: Text, b: Text, done: set<Text>, p: Text)
    requires Unnested(first, a) && Unnested(first, b) && Unnested(a, b) && p in Subtree(m, first) && p !in done
    ensures Spread(Underway(m, first, a, b, done))
    ensures |first| <= |p| && Untouched(Underway(m, first, a, b, done), Rebase(p, first, b))
  {
    hide IsPathOrDescendant, Underway, Subtree;
    var place := Underway(m, first, a, b, done);
    UnderwayIs(m, first, a, b, done, p);
    PrefixShorter(p, first);
    RebaseBack(p, first, b);
    forall q | q in place
      ensures place[q] !in place && place[q] != Rebase(p, first, b) && q != Rebase(p, first, b)
    {
      UnderwayIs(m, first, a, b, done, q);
      UnderwayIs(m, first, a, b, done, place[q]);
      if place[q] in place {
        UnderApart(place[q], place[q], first, if q in done then b else a);
      }
      UnderApart(q, Rebase(p, first, b), first, b);
      if q !in done {
        UnderApart(place[q], Rebase(p, first, b), a, b);
      }
    }
    forall q, r | q in place && r in place && place[q] == place[r]
      ensures q == r
    {
      UnderwayIs(m, first, a, b, done, q);
      UnderwayIs(m, first, a, b, done, r);
      if q in done && r !in done {
        UnderApart(place[r], place[q], a, b);
      } else if q !in done && r in done {
        UnderApart(place[q], place[r], a, b);
      }
    }
    forall q | q == Rebase(p, first, b)
      ensures q !in place
    {
      UnderwayIs(m, first, a, b, done, q);
      if q in place {
        UnderApart(q, q, first, b);
      }
    }
  }

  // The first move starts tracking its entries.

  function Started(done: set<Text>, first: Text, b: Text): map<Text, Text> {
    map p | p in done && |first| <= |p| :: Rebase(p, first, b)
  }

  lemma StartedAdd(m: Tree, done: set<Text>, first: Text, b: Text, p: Text)
    requires Unnested(first, b) && done <= Subtree(m, first) && p in Subtree(m, first) && p !in done
    ensures |first| <= |p| && IsPathOrDescendant(p, first) && p != Rebase(p, first, b)
    ensures Started(done + {p}, first, b) == Started(done, first, b)[p := Rebase(p, first, b)]
    ensures Untouched(Started(done, first, b), p) && Untouched(Started(done, first, b), Rebase(p, first, b))
  {
    PrefixShorter(p, first);
    RebaseBack(p, first, b);
    UnderApart(p, Rebase(p, first, b), first, b);
    forall q | q in Started(done, first, b)
      ensures Rebase(q, first, b) != p && Rebase(q, first, b) != Rebase(p, first, b) && q != Rebase(p, first, b)
    {
      RebaseBack(q, first, b);
      UnderApart(p, Rebase(q, first, b), first, b);
      UnderApart(q, Rebase(p, first, b), first, b);
    }
  }

  ghost predicate Quiet(l: Landing) {
    l.path !in l.tree && forall t :: !l.ignores(t)
  }

  ghost predicate Distinct(es: seq<DirEntry>) {
    forall i, j :: 0 <= i < j < |es| ==> es[i].path != es[j].path
  }

  lemma DistinctLast(es: seq<DirEntry>)
    requires Distinct(es) && es != []
    ensures Distinct(es[..|es| - 1]) && es[|es| - 1].path !in PathsIn(es[..|es| - 1])
  {}

  lemma TakenLast(es: seq<DirEntry>, m: Tree, path: Text)
    requires TakenFrom(es, m, path) && es != []
    ensures TakenFrom(es[..|es| - 1], m, path)
    ensures var e := es[|es| - 1]; e.path in Subtree(m, path) && m[e.path] == e.Value()
  {}

  lemma {:induction false} FirstReported(m: Tree, l: Landing, es: seq<DirEntry>)
    requires Quiet(l) && Unnested(l.oldPath, l.path) && TakenFrom(es, m, l.oldPath) && Distinct(es)
    ensures AllAtLeast(es, |l.oldPath|) && PathsIn(es) <= Subtree(m, l.oldPath)
    ensures Tracks(ReportEntries(map[], l, es), m, l.oldPath, l.cookie, Started(PathsIn(es), l.oldPath, l.path))
    decreases |es|
  {
    hide TakenFrom, Tracks, IsPathOrDescendant, Started, Distinct, Rename, PathsIn, Unnested;
    TakenPaths(es, m, l.oldPath);
    if es == [] {
      NothingTracked(m, l.oldPath, l.cookie, l.path);
    } else {
      var init, e := es[..|es| - 1], es[|es| - 1];
      DistinctLast(es);
      TakenLast(es, m, l.oldPath);
      FirstReported(m, l, init);
      PathsInSnoc(es);
      StartedAdd(m, PathsIn(init), l.oldPath, l.path, e.path);
      TrackFirst(ReportEntries(map[], l, init), m, l.oldPath, l.cookie, Started(PathsIn(init), l.oldPath, l.path),
                 e.path, Rebase(e.path, l.oldPath, l.path));
    }
  }

  lemma NothingTracked(m: Tree, first: Text, cookie: nat, b: Text)
    ensures Tracks(map[], m, first, cookie, Started(PathsIn([]), first, b))
  {}

  // A further move carries the tracked entries on.

  /** The entries of the tree at `a`, by where they were first. */
  function Origins(ps: set<Text>, a: Text, first: Text): set<Text> {
    set q | q in ps && |a| <= |q| :: Rebase(q, a, first)
  }

  lemma OriginsAdd(ps: set<Text>, a: Text, first: Text, q: Text)
    requires IsPathOrDescendant(q, a) && (forall r :: r in ps ==> IsPathOrDescendant(r, a))
    ensures |a| <= |q| && Origins(ps + {q}, a, first) == Origins(ps, a, first) + {Rebase(q, a, first)}
    ensures q !in ps ==> Rebase(q, a, first) !in Origins(ps, a, first)
  {
    PrefixShorter(q, a);
    RebaseBack(q, a, first);
    forall r | r in ps
      ensures Rebase(Rebase(r, a, first), first, a) == r
    {
      RebaseBack(r, a, first);
    }
  }

  /** The tree has the directory of `m` at `now` instead of `first`, and the rest unmoved. */
  ghost predicate NowAt(tree: Tree, m: Tree, first: Text, now: Text) {
    var moved := Rekey(m, first, now);
    && tree.Keys == moved.Keys
    && (forall t :: t in tree ==> tree[t].isDir == moved[t].isDir && (t != now ==> tree[t] == moved[t]))
  }

  /** A place the directory can be at: its own, or one apart from it and unoccupied. */
  ghost predicate Free(m: Tree, first: Text, now: Text) {
    now == first || (Unnested(first, now) && Subtree(m, now) == {})
  }

  lemma NowBelow(tree: Tree, m: Tree, first: Text, now: Text, t: Text)
    requires NowAt(tree, m, first, now) && Free(m, first, now)
    ensures t in Subtree(tree, now) <==> IsPathOrDescendant(t, now) && Rebase(t, now, first) in Subtree(m, first)
    ensures t in Subtree(tree, now) ==> tree[t].isDir == m[Rebase(t, now, first)].isDir
  {
    RekeyAt(m, first, now, t);
    if IsPathOrDescendant(t, now) {
      RebaseBack(t, now, first);
      assert t in m ==> t in Subtree(m, now);
    }
  }

  lemma UnderwayNext(m: Tree, first: Text, a: Text, b: Text, done: set<Text>, p: Text)
    requires p in Subtree(m, first) && |first| <= |p|
    ensures Underway(m, first, a, b, done + {p}) == Underway(m, first, a, b, done)[p := Rebase(p, first, b)]
  {}

  lemma UnderwayEnds(m: Tree, first: Text, a: Text, b: Text)
    ensures Underway(m, first, a, b, {}) == AllAt(m, first, a)
    ensures Underway(m, first, a, b, Subtree(m, first)) == AllAt(m, first, b)
  {}

  /** One more entry is reported while the directory goes from `l.oldPath` to `l.path`. */
  lemma EntryCarried(log: Log, tree: Tree, m: Tree, first: Text, cookie: nat, l: Landing, e: DirEntry, done: set<Text>)
    requires Quiet(l) && NowAt(tree, m, first, l.oldPath) && Unnested(first, l.oldPath) && Free(m, first, l.oldPath)
    requires Unnested(first, l.path) && Unnested(l.oldPath, l.path)
    requires e.path in Subtree(tree, l.oldPath) && tree[e.path] == e.Value()
    requires |l.oldPath| <= |e.path| && Rebase(e.path, l.oldPath, first) !in done
    requires Tracks(log, m, first, cookie, Underway(m, first, l.oldPath, l.path, done))
    ensures Tracks(ReportEntry(log, l, e), m, first, cookie,
                   Underway(m, first, l.oldPath, l.path, done + {Rebase(e.path, l.oldPath, first)}))
  {
    hide Tracks, IsPathOrDescendant, Underway, Rename, NowAt, Free, Unnested;
    var a, b := l.oldPath, l.path;
    var p := Rebase(e.path, a, first);
    NowBelow(tree, m, first, a, e.path);
    RebaseBack(e.path, a, first);
    RebaseTwice(e.path, a, first, b);
    UnderwayIs(m, first, a, b, done, p);
    UnderwaySpread(m, first, a, b, done, p);
    UnderwayAt(m, first, a, b, done, p);
    UnderwayNext(m, first, a, b, done, p);
    TrackNext(log, m, first, cookie, Underway(m, first, a, b, done), p, Rebase(p, first, b),
              MoveId(l.cookie, e.path[|a|..]));
  }

  lemma UnderwayAt(m: Tree, first: Text, a: Text, b: Text, done: set<Text>, p: Text)
    requires p in Subtree(m, first) && |first| <= |p| && p !in done
    ensures p in Underway(m, first, a, b, done) && Underway(m, first, a, b, done)[p] == Rebase(p, first, a)
  {}

  lemma {:induction false} NextReported(log: Log, tree: Tree, m: Tree, first: Text, cookie: nat, l: Landing,
                                        es: seq<DirEntry>)
    requires Quiet(l) && NowAt(tree, m, first, l.oldPath) && Unnested(first, l.oldPath) && Free(m, first, l.oldPath)
    requires Unnested(first, l.path) && Unnested(l.oldPath, l.path)
    requires TakenFrom(es, tree, l.oldPath) && Distinct(es)
    requires Tracks(log, m, first, cookie, AllAt(m, first, l.oldPath))
    ensures AllAtLeast(es, |l.oldPath|)
    ensures Tracks(ReportEntries(log, l, es), m, first, cookie,
                   Underway(m, first, l.oldPath, l.path, Origins(PathsIn(es), l.oldPath, first)))
    decreases |es|
  {
    hide TakenFrom, Tracks, IsPathOrDescendant, Underway, AllAt, Distinct, Rename, PathsIn, Unnested, NowAt, Free,
         Quiet;
    hide ReportEntry, Origins;
    TakenPaths(es, tree, l.oldPath);
    if es == [] {
      NoOrigins(l.oldPath, first);
      UnderwayEnds(m, first, l.oldPath, l.path);
    } else {
      var init, e := es[..|es| - 1], es[|es| - 1];
      DistinctLast(es);
      TakenLast(es, tree, l.oldPath);
      NextReported(log, tree, m, first, cookie, l, init);
      TakenPaths(init, tree, l.oldPath);
      PathsInSnoc(es);
      OriginsAdd(PathsIn(init), l.oldPath, first, e.path);
      EntryCarried(ReportEntries(log, l, init), tree, m, first, cookie, l, e, Origins(PathsIn(init), l.oldPath, first));
    }
  }

  lemma NoOrigins(a: Text, first: Text)
    ensures Origins(PathsIn([]), a, first) == {}
  {}
}
