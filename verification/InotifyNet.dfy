/** One move and its events: if the log shows what has become of the tree since the last drain, it still does
    after the move, also where the move overwrites what was there or goes where paths are ignored. */
module InotifyNet {
  import opened Bytes
  import opened Options
  import opened Decimal
  import opened EventLog
  import opened EventHistory
  import opened Subtrees
  import opened DirTrees
  import opened InotifyMoves

  // ------------------------------------------------------------ logs and what is present

  /** The flags of one key against its presence at the last drain and now. */
  predicate KeyReflects(log: Log, base: set<Key>, present: set<Key>, k: Key) {
    && (k in base && k !in present ==> k in log && log[k].IsDelete())
    && (k !in base && k in present ==> k in log && log[k].IsCreate())
    && (k !in base && k !in present && k in log ==> !log[k].Visible())
    && (k in base && k in present && k in log ==> log[k].IsUpdate())
  }

  ghost predicate Reflects(log: Log, base: set<Key>, present: set<Key>) {
    forall k :: KeyReflects(log, base, present, k)
  }

  lemma TouchReflects(log: Log, base: set<Key>, present: set<Key>, k: Key)
    requires Reflects(log, base, present) && k in present
    ensures Reflects(Touch(log, k), base, present)
  {
    forall j
      ensures KeyReflects(Touch(log, k), base, present, j)
    {
      assert KeyReflects(log, base, present, j);
    }
  }

  lemma CreateReflects(log: Log, base: set<Key>, present: set<Key>, k: Key)
    requires Reflects(log, base, present) && k !in present
    ensures Reflects(Create(log, k), base, present + {k})
  {
    forall j
      ensures KeyReflects(Create(log, k), base, present + {k}, j)
    {
      assert KeyReflects(log, base, present, j);
    }
  }

  lemma RemoveReflects(log: Log, base: set<Key>, present: set<Key>, k: Key)
    requires Reflects(log, base, present) && k in present
    ensures Reflects(Remove(log, k), base, present - {k})
  {
    forall j
      ensures KeyReflects(Remove(log, k), base, present - {k}, j)
    {
      assert KeyReflects(log, base, present, j);
    }
  }

  lemma RenameReflects(log: Log, base: set<Key>, present: set<Key>, s: Key, t: Key, id: Text)
    requires Reflects(log, base, present) && s in present && t !in present
    ensures Reflects(Rename(log, s, t, id), base, present - {s} + {t})
  {
    assert KeyReflects(log, base, present, s) && KeyReflects(log, base, present, t);
    RenameSource(log, s, t, id);
    RenameTarget(log, s, t, id);
    forall j
      ensures KeyReflects(Rename(log, s, t, id), base, present - {s} + {t}, j)
    {
      assert KeyReflects(log, base, present, j);
      if j != s && j != t {
        RenameFrame(log, s, t, id, j);
      }
    }
  }

  /** What a drain then returns: creates and deletes are exactly the difference. */
  lemma ReflectedBatch(log: Log, base: set<Key>, present: set<Key>)
    requires Reflects(log, base, present)
    ensures CreatedIn(Drained(log)) == present - base && DeletedIn(Drained(log)) == base - present
    ensures UpdatedIn(Drained(log)) == log.Keys * base * present
  {
    forall k
      ensures k in CreatedIn(Drained(log)) <==> k in present - base
      ensures k in DeletedIn(Drained(log)) <==> k in base - present
      ensures k in UpdatedIn(Drained(log)) <==> k in log.Keys * base * present
    {
      assert KeyReflects(log, base, present, k);
      DrainedFlags(log, k);
    }
  }

  // ------------------------------------------------------------ one entry

  function EntryKey(e: DirEntry): Key {
    Key(e.path, KindOf(e.isDir))
  }

  function LandedKey(l: Landing, e: DirEntry): Key
    requires |l.oldPath| <= |e.path|
  {
    Key(Rebase(e.path, l.oldPath, l.path), KindOf(e.isDir))
  }

  /** Where entries were. */
  function LeftKeys(es: seq<DirEntry>): set<Key> {
    set j | 0 <= j < |es| :: EntryKey(es[j])
  }

  /** Where they are shown once they have landed. */
  function LandedKeys(l: Landing, es: seq<DirEntry>): set<Key>
    requires AllAtLeast(es, |l.oldPath|)
  {
    set j | 0 <= j < |es| && !l.ignores(LandedKey(l, es[j]).path) :: LandedKey(l, es[j])
  }

  lemma KeysSnoc(l: Landing, init: seq<DirEntry>, e: DirEntry)
    requires AllAtLeast(init + [e], |l.oldPath|)
    ensures AllAtLeast(init, |l.oldPath|) && |l.oldPath| <= |e.path|
    ensures LeftKeys(init + [e]) == LeftKeys(init) + {EntryKey(e)}
    ensures LandedKeys(l, init + [e]) ==
            LandedKeys(l, init) + (if l.ignores(LandedKey(l, e).path) then {} else {LandedKey(l, e)})
  {
    var es := init + [e];
    assert es[|init|] == e && forall i :: 0 <= i < |init| ==> es[i] == init[i];
  }

  /** The presence after one entry has landed. */
  function EntryLanded(present: set<Key>, l: Landing, e: DirEntry): set<Key>
    requires |l.oldPath| <= |e.path|
  {
    present - {EntryKey(e)} + (if l.ignores(LandedKey(l, e).path) then {} else {LandedKey(l, e)})
  }

  lemma EntryReflects(log: Log, base: set<Key>, present: set<Key>, l: Landing, e: DirEntry)
    requires Reflects(log, base, present) && |l.oldPath| <= |e.path| && EntryKey(e) in present
    requires var t := LandedKey(l, e);
             && t != EntryKey(e) && (t.path in l.tree ==> l.path in l.tree)
             && (!l.ignores(t.path) ==> (t in present <==> t.path in l.tree))
    ensures Reflects(ReportEntry(log, l, e), base, EntryLanded(present, l, e))
  {
    hide Reflects, Rename, Create, Remove, Touch;
    var s, t := EntryKey(e), LandedKey(l, e);
    if l.path in l.tree || l.ignores(t.path) {
      RemoveReflects(log, base, present, s);
      if !l.ignores(t.path) {
        if t.path in l.tree {
          TouchReflects(Remove(log, s), base, present - {s}, t);
          assert EntryLanded(present, l, e) == present - {s};
        } else {
          CreateReflects(Remove(log, s), base, present - {s}, t);
        }
      } else {
        assert EntryLanded(present, l, e) == present - {s};
      }
    } else {
      RenameReflects(log, base, present, s, t, MoveId(l.cookie, e.path[|l.oldPath|..]));
    }
  }

  // ------------------------------------------------------------ all entries

  /** The keys of what the tree shows. */
  function Shown(m: Tree, ignores: Text -> bool): set<Key> {
    set p | p in m && !ignores(p) :: Key(p, KindOf(m[p].isDir))
  }

  /** The move goes elsewhere, to a place where nothing is known but what it replaces by something of the
      same kind, as `rename` demands; and nothing that moves was ignored. */
  ghost predicate Fits(m: Tree, oldPath: Text, path: Text, ignores: Text -> bool) {
    && Unnested(oldPath, path) && oldPath in m
    && (forall p :: p in Subtree(m, oldPath) ==> !ignores(p))
    && (forall t :: t in Subtree(m, path) ==>
          && path in m && |path| <= |t| && Rebase(t, path, oldPath) in m
          && m[Rebase(t, path, oldPath)].isDir == m[t].isDir)
  }

  /** Presence while the entries land one by one. */
  function Midway(l: Landing, es: seq<DirEntry>, i: nat): set<Key>
    requires AllAtLeast(es, |l.oldPath|) && i <= |es|
  {
    Shown(l.tree, l.ignores) + (set j | i <= j < |es| :: EntryKey(es[j]))
    + (set j | 0 <= j < i && !l.ignores(LandedKey(l, es[j]).path) :: LandedKey(l, es[j]))
  }

  /** How a landing relates to the tree before the departure. */
  ghost predicate Departed(m: Tree, l: Landing, es: seq<DirEntry>) {
    l.tree == m - Subtree(m, l.oldPath) && ListsSubtree(es, m, l.oldPath) && Fits(m, l.oldPath, l.path, l.ignores)
  }

  lemma LandsApart(m: Tree, l: Landing, es: seq<DirEntry>, i: nat, j: nat)
    requires Departed(m, l, es) && AllAtLeast(es, |l.oldPath|) && i < |es| && j < |es|
    ensures IsPathOrDescendant(LandedKey(l, es[i]).path, l.path) && IsPathOrDescendant(es[j].path, l.oldPath)
    ensures LandedKey(l, es[i]).path != es[j].path
    ensures i != j ==> es[i].path != es[j].path && LandedKey(l, es[i]).path != LandedKey(l, es[j]).path
    ensures es[i].path in m && m[es[i].path] == es[i].Value() && es[i].path !in l.tree && !l.ignores(es[i].path)
  {
    assert es[i].path in Subtree(m, l.oldPath) && es[j].path in Subtree(m, l.oldPath);
    RebaseBack(es[i].path, l.oldPath, l.path);
    RebaseBack(es[j].path, l.oldPath, l.path);
    if LandedKey(l, es[i]).path == es[j].path {
      BothAbove(es[j].path, l.oldPath, l.path);
    }
  }

  lemma MidwayStep(m: Tree, l: Landing, es: seq<DirEntry>, i: nat)
    requires Departed(m, l, es) && AllAtLeast(es, |l.oldPath|) && i < |es|
    ensures EntryKey(es[i]) in Midway(l, es, i)
    ensures Midway(l, es, i + 1) == EntryLanded(Midway(l, es, i), l, es[i])
    ensures var t := LandedKey(l, es[i]);
            && t != EntryKey(es[i]) && (t.path in l.tree ==> l.path in l.tree)
            && (!l.ignores(t.path) ==> (t in Midway(l, es, i) <==> t.path in l.tree))
  {
    hide ListsSubtree, Fits, IsPathOrDescendant, Rebase;
    var e, t := es[i], LandedKey(l, es[i]);
    LandsApart(m, l, es, i, i);
    LandsOn(m, l, es, i);
    forall j | 0 <= j < |es|
      ensures EntryKey(es[j]) != t && (j != i ==> EntryKey(es[j]) != EntryKey(e) && LandedKey(l, es[j]) != t)
      ensures LandedKey(l, es[j]) != EntryKey(e)
    {
      LandsApart(m, l, es, i, j);
      LandsApart(m, l, es, j, i);
    }
    forall k
      ensures k in Midway(l, es, i + 1) <==> k in EntryLanded(Midway(l, es, i), l, e)
    {
      if k in Midway(l, es, i + 1) && k !in Shown(l.tree, l.ignores) {
        if j :| i + 1 <= j < |es| && k == EntryKey(es[j]) {
        } else {
          var j :| 0 <= j < i + 1 && !l.ignores(LandedKey(l, es[j]).path) && k == LandedKey(l, es[j]);
          assert j == i || k in Midway(l, es, i);
        }
      }
    }
  }

  /** What a landing entry meets, it replaces. */
  lemma LandsOn(m: Tree, l: Landing, es: seq<DirEntry>, i: nat)
    requires Departed(m, l, es) && AllAtLeast(es, |l.oldPath|) && i < |es|
    ensures var t := LandedKey(l, es[i]);
            t.path in l.tree ==> l.path in l.tree && KindOf(l.tree[t.path].isDir) == t.kind
  {
    var t := LandedKey(l, es[i]);
    LandsApart(m, l, es, i, i);
    if t.path in l.tree {
      assert t.path in Subtree(m, l.path);
      RebaseBack(es[i].path, l.oldPath, l.path);
      assert l.path !in Subtree(m, l.oldPath);
    }
  }

  lemma {:induction false} MidwayReflects(m: Tree, log: Log, base: set<Key>, l: Landing, es: seq<DirEntry>, i: nat)
    requires Departed(m, l, es) && AllAtLeast(es, |l.oldPath|) && i <= |es|
    requires Reflects(log, base, Shown(m, l.ignores))
    ensures Reflects(ReportEntries(log, l, es[..i]), base, Midway(l, es, i))
    decreases i
  {
    hide Reflects, Departed, ReportEntry, Midway;
    if i == 0 {
      MidwayStart(m, l, es);
      assert es[..0] == [];
    } else {
      MidwayReflects(m, log, base, l, es, i - 1);
      MidwayStep(m, l, es, i - 1);
      EntryReflects(ReportEntries(log, l, es[..i - 1]), base, Midway(l, es, i - 1), l, es[i - 1]);
      assert es[..i][..i - 1] == es[..i - 1] && es[..i][i - 1] == es[i - 1];
    }
  }

  lemma MidwayStart(m: Tree, l: Landing, es: seq<DirEntry>)
    requires Departed(m, l, es) && AllAtLeast(es, |l.oldPath|)
    ensures Midway(l, es, 0) == Shown(m, l.ignores)
  {
    hide ListsSubtree, LandedKey, EntryKey, IsPathOrDescendant, Unnested;
    ListedKeys(m, l.oldPath, es);
    assert Midway(l, es, 0) == Shown(l.tree, l.ignores) + LeftKeys(es);
    assert Shown(m, l.ignores) == Shown(l.tree, l.ignores) + LeftKeys(es);
  }

  /** The tree after the landing, at one path. */
  lemma LandedAt(m: Tree, l: Landing, es: seq<DirEntry>, t: Text)
    requires Departed(m, l, es) && AllAtLeast(es, |l.oldPath|)
    ensures var landed := Landed(l.tree, es, l.oldPath, l.path);
            if IsPathOrDescendant(t, l.path) then
              && (t in landed <==> |l.path| <= |t| && Rebase(t, l.path, l.oldPath) in m)
              && (t in landed ==> landed[t] == m[Rebase(t, l.path, l.oldPath)])
            else (t in landed <==> t in l.tree) && (t in landed ==> landed[t] == l.tree[t])
  {
    hide Subtrees.Moved, Without;
    var source, path := l.oldPath, l.path;
    assert es != [] by {
      assert source in Subtree(m, source);
    }
    var base := if path in l.tree then Without(l.tree, path) else l.tree;
    RestoredMoved(base, m, es, source, path);
    assert PathsIn(es) == Subtree(m, source);
    MovedAt(m, Subtree(m, source), source, path, t);
    WithoutRest(l.tree, path, t);
    if IsPathOrDescendant(t, path) {
      RebaseBack(t, path, source);
      if t in l.tree {
        assert t in Subtree(m, path);
      }
    }
  }

  /** What was shown elsewhere stays, and what was shown at the target is replaced by its like. */
  lemma StaysShown(m: Tree, l: Landing, es: seq<DirEntry>, k: Key)
    requires Departed(m, l, es) && AllAtLeast(es, |l.oldPath|) && k in Shown(l.tree, l.ignores)
    ensures k in Shown(Landed(l.tree, es, l.oldPath, l.path), l.ignores)
  {
    hide Landed;
    LandedAt(m, l, es, k.path);
    if IsPathOrDescendant(k.path, l.path) {
      assert k.path in Subtree(m, l.path);
    }
  }

  lemma LandedFrom(m: Tree, l: Landing, es: seq<DirEntry>, t: Text) returns (j: nat)
    requires Departed(m, l, es) && AllAtLeast(es, |l.oldPath|) && IsPathOrDescendant(t, l.path)
    requires t in Landed(l.tree, es, l.oldPath, l.path)
    ensures j < |es| && LandedKey(l, es[j]) == Key(t, KindOf(Landed(l.tree, es, l.oldPath, l.path)[t].isDir))
  {
    hide Landed;
    LandedAt(m, l, es, t);
    RebaseBack(t, l.path, l.oldPath);
    var p := Rebase(t, l.path, l.oldPath);
    assert p in Subtree(m, l.oldPath);
    j :| 0 <= j < |es| && es[j].path == p;
    LandsApart(m, l, es, j, j);
  }

  /** Once all have landed, what is present is what the tree shows. */
  lemma MidwayEnd(m: Tree, l: Landing, es: seq<DirEntry>)
    requires Departed(m, l, es) && AllAtLeast(es, |l.oldPath|)
    ensures Midway(l, es, |es|) == Shown(Landed(l.tree, es, l.oldPath, l.path), l.ignores)
  {
    hide Landed, Departed;
    var landed := Landed(l.tree, es, l.oldPath, l.path);
    forall k
      ensures k in Midway(l, es, |es|) <==> k in Shown(landed, l.ignores)
    {
      LandedAt(m, l, es, k.path);
      if k in Shown(l.tree, l.ignores) {
        StaysShown(m, l, es, k);
      }
      if j :| 0 <= j < |es| && !l.ignores(LandedKey(l, es[j]).path) && k == LandedKey(l, es[j]) {
        LandsApart(m, l, es, j, j);
        RebaseBack(es[j].path, l.oldPath, l.path);
      }
      if k in Shown(landed, l.ignores) && IsPathOrDescendant(k.path, l.path) {
        var j := LandedFrom(m, l, es, k.path);
        assert k == LandedKey(l, es[j]);
      }
    }
  }

  // ------------------------------------------------------------ the whole move

  /** Entries that are gone and reported gone. */
  lemma {:induction false} RemovalsReflect(log: Log, base: set<Key>, present: set<Key>, es: seq<DirEntry>)
    requires Reflects(log, base, present) && LeftKeys(es) <= present
    requires forall i, j :: 0 <= i < j < |es| ==> es[i].path != es[j].path
    ensures Reflects(RemoveEntries(log, es), base, present - LeftKeys(es))
    decreases |es|
  {
    hide Reflects, Remove;
    if es == [] {
      NoLeftKeys(present);
    } else {
      var n := |es| - 1;
      var init := es[..n];
      LeftSnoc(init, es[n]);
      assert es == init + [es[n]];
      RemovalsReflect(log, base, present, init);
      RemoveReflects(RemoveEntries(log, init), base, present - LeftKeys(init), EntryKey(es[n]));
      assert present - LeftKeys(init) - {EntryKey(es[n])} == present - LeftKeys(es);
    }
  }

  lemma NoLeftKeys(present: set<Key>)
    ensures present - LeftKeys([]) == present
  {}

  lemma LeftSnoc(init: seq<DirEntry>, e: DirEntry)
    ensures LeftKeys(init + [e]) == LeftKeys(init) + {EntryKey(e)}
    ensures (forall i :: 0 <= i < |init| ==> init[i].path != e.path) ==> EntryKey(e) !in LeftKeys(init)
  {
    var es := init + [e];
    assert es[|init|] == e && forall i :: 0 <= i < |init| ==> es[i] == init[i];
  }

  /** What leaves the tree and is reported gone is gone: for a departure without a cookie, the watched directory
      itself and a target that is neither file nor directory. */
  lemma GoneReflects(m: Tree, log: Log, base: set<Key>, path: Text, ignores: Text -> bool, es: seq<DirEntry>)
    requires Reflects(log, base, Shown(m, ignores)) && ListsSubtree(es, m, path)
    requires forall p :: p in Subtree(m, path) ==> !ignores(p)
    ensures Reflects(RemoveEntries(log, es), base, Shown(m - Subtree(m, path), ignores))
  {
    hide Reflects, RemoveEntries;
    ListedKeys(m, path, es);
    RemovalsReflect(log, base, Shown(m, ignores), es);
    assert Shown(m, ignores) - LeftKeys(es) == Shown(m - Subtree(m, path), ignores);
  }

  lemma ListedKeys(m: Tree, path: Text, es: seq<DirEntry>)
    requires ListsSubtree(es, m, path)
    ensures forall k :: k in LeftKeys(es) <==> k.path in Subtree(m, path) && k.kind == KindOf(m[k.path].isDir)
  {
    hide IsPathOrDescendant;
    forall k
      ensures k in LeftKeys(es) <==> k.path in Subtree(m, path) && k.kind == KindOf(m[k.path].isDir)
    {
      if k in LeftKeys(es) {
        var i :| 0 <= i < |es| && k == EntryKey(es[i]);
        assert es[i].path in Subtree(m, path);
      }
      if k.path in Subtree(m, path) {
        var i :| 0 <= i < |es| && es[i].path == k.path;
        assert m[es[i].path] == es[i].Value();
      }
    }
  }

  /** A move of something known, whatever it lands on, whatever is ignored and whatever `lstat` then sees: if the
      log showed what had become of the tree since the last drain, it still does. */
  lemma LandingReflects(m: Tree, log: Log, base: set<Key>, l: Landing, es: seq<DirEntry>, stat: Stat,
                        others: seq<DirEntry>)
    requires Departed(m, l, es) && AllAtLeast(es, |l.oldPath|) && Reflects(log, base, Shown(m, l.ignores))
    requires var landed := Landed(l.tree, es, l.oldPath, l.path);
             stat.OtherStat? ==>
               ListsSubtree(others, landed, l.path) && forall p :: p in Subtree(landed, l.path) ==> !l.ignores(p)
    ensures es != []
    ensures var landed := Landed(l.tree, es, l.oldPath, l.path);
            Reflects(SettledLog(ReportEntries(log, l, es), landed, l.oldPath, l.path, l.cookie, false, stat, others),
                     base, Shown(Settled(landed, l.path, false, stat), l.ignores))
  {
    hide Reflects, Landed, ReportEntries, RemoveEntries, Stamped, Shown, Departed;
    assert es != [] by { TargetLanded(m, l, es); }
    var landed := Landed(l.tree, es, l.oldPath, l.path);
    MidwayReflects(m, log, base, l, es, |es|);
    assert es[..|es|] == es;
    MidwayEnd(m, l, es);
    TargetLanded(m, l, es);
    if stat.OtherStat? {
      GoneReflects(landed, ReportEntries(log, l, es), base, l.path, l.ignores, others);
    } else if !stat.NoStat? {
      StampShows(landed, l.path, stat.mtime, stat.DirStat?, l.ignores);
    }
  }

  /** `lstat` only renews the time of what is known; an unknown path gains an entry of the kind it shows. */
  lemma StampShows(m: Tree, path: Text, mtime: nat, isDir: bool, ignores: Text -> bool)
    ensures var stamped := Stamped(m, path, mtime, isDir);
            && path in stamped && stamped[path].mtime == mtime
            && stamped[path].isDir == (if path in m then m[path].isDir else isDir)
            && (forall p :: p != path ==> (p in stamped <==> p in m) && (p in m ==> stamped[p] == m[p]))
            && Shown(stamped, ignores) ==
               (if path in m || ignores(path) then Shown(m, ignores)
                else Shown(m, ignores) + {Key(path, KindOf(isDir))})
  {
    var stamped := Stamped(m, path, mtime, isDir);
    forall k
      ensures k in Shown(stamped, ignores) <==>
              k in Shown(m, ignores) || (path !in m && !ignores(path) && k == Key(path, KindOf(isDir)))
    {}
  }

  lemma TargetLanded(m: Tree, l: Landing, es: seq<DirEntry>)
    requires Departed(m, l, es) && AllAtLeast(es, |l.oldPath|)
    ensures l.path in Landed(l.tree, es, l.oldPath, l.path) && es != []
  {
    assert l.oldPath in Subtree(m, l.oldPath);
    LandedAt(m, l, es, l.path);
    assert Rebase(l.path, l.path, l.oldPath) == l.oldPath;
  }

  /** The same for the moves that the backend delivers, nothing being ignored. */
  lemma MoveReflects(s: Standing, base: set<Key>, source: Text, leg: Leg)
    requires Reflects(s.log, base, Shown(s.tree, NeverIgnored())) && !leg.stat.OtherStat?
    requires Fits(s.tree, source, leg.target, NeverIgnored()) && ListsSubtree(leg.entries, s.tree, source)
    ensures AllAtLeast(leg.entries, |source|)
    ensures var end := MoveOnce(s, source, leg); Reflects(end.log, base, Shown(end.tree, NeverIgnored()))
  {
    TakenPaths(leg.entries, s.tree, source);
    var l := Landing(s.tree - Subtree(s.tree, source), source, leg.target, leg.cookie, NeverIgnored());
    LandingReflects(s.tree, s.log, base, l, leg.entries, leg.stat, []);
  }

  /** A move with the path it starts from. */
  datatype Journey = Journey(source: Text, leg: Leg)

  ghost predicate AllFit(s: Standing, moves: seq<Journey>)
    decreases |moves|
  {
    moves == [] ||
    (var (source, leg) := (moves[0].source, moves[0].leg);
     && Fits(s.tree, source, leg.target, NeverIgnored()) && !leg.stat.OtherStat?
     && ListsSubtree(leg.entries, s.tree, source) && AllAtLeast(leg.entries, |source|)
     && AllFit(MoveOnce(s, source, leg), moves[1..]))
  }

  ghost function MoveAll(s: Standing, moves: seq<Journey>): Standing
    requires AllFit(s, moves)
    decreases |moves|
  {
    if moves == [] then s else MoveAll(MoveOnce(s, moves[0].source, moves[0].leg), moves[1..])
  }

  lemma {:induction false} MovesReflect(s: Standing, base: set<Key>, moves: seq<Journey>)
    requires AllFit(s, moves) && Reflects(s.log, base, Shown(s.tree, NeverIgnored()))
    ensures var end := MoveAll(s, moves); Reflects(end.log, base, Shown(end.tree, NeverIgnored()))
    decreases |moves|
  {
    hide Reflects, MoveOnce, Fits, ListsSubtree, Shown;
    if moves != [] {
      MoveReflects(s, base, moves[0].source, moves[0].leg);
      MovesReflect(MoveOnce(s, moves[0].source, moves[0].leg), base, moves[1..]);
    }
  }

  /** However often files and directories are moved, over each other or to free places: what one drain then
      creates and deletes is exactly what has come and gone. */
  lemma MovesNet(m: Tree, moves: seq<Journey>)
    requires AllFit(Standing(m, map[], []), moves)
    ensures var end := MoveAll(Standing(m, map[], []), moves);
            var before, now := Shown(m, NeverIgnored()), Shown(end.tree, NeverIgnored());
            && CreatedIn(Drained(end.log)) == now - before && DeletedIn(Drained(end.log)) == before - now
            && UpdatedIn(Drained(end.log)) <= before * now
  {
    hide Reflects, MoveOnce, AllFit, Shown, Drained;
    var s := Standing(m, map[], []);
    NothingYet(Shown(m, NeverIgnored()));
    MovesReflect(s, Shown(m, NeverIgnored()), moves);
    var end := MoveAll(s, moves);
    ReflectedBatch(end.log, Shown(m, NeverIgnored()), Shown(end.tree, NeverIgnored()));
  }

  // ------------------------------------------------------------ the batch of one move

  /** Which keys a move names, the log being empty before. */
  lemma {:induction false} NamedKeys(m: Tree, l: Landing, es: seq<DirEntry>, i: nat)
    requires Departed(m, l, es) && AllAtLeast(es, |l.oldPath|) && i <= |es|
    ensures ReportEntries(map[], l, es[..i]).Keys == LeftKeys(es[..i]) + LandedKeys(l, es[..i])
    decreases i
  {
    hide Departed, Rebase, LandedKeys, LeftKeys, ReportEntry, EntryKey, LandedKey;
    if i == 0 {
      assert es[..0] == [];
      NoKeys(l);
    } else {
      NamedKeys(m, l, es, i - 1);
      var init, e := es[..i - 1], es[i - 1];
      assert es[..i] == init + [e];
      assert es[..i][..i - 1] == init;
      KeysSnoc(l, init, e);
      NotNamed(m, l, es, i - 1);
      EntryNames(ReportEntries(map[], l, init), l, e);
    }
  }

  lemma NoKeys(l: Landing)
    ensures LeftKeys([]) == {} && LandedKeys(l, []) == {}
  {}

  lemma NotNamed(m: Tree, l: Landing, es: seq<DirEntry>, i: nat)
    requires Departed(m, l, es) && AllAtLeast(es, |l.oldPath|) && i < |es|
    ensures EntryKey(es[i]) !in LeftKeys(es[..i]) + LandedKeys(l, es[..i])
  {
    hide Departed, Rebase;
    forall j | 0 <= j < i
      ensures EntryKey(es[..i][j]) != EntryKey(es[i]) && LandedKey(l, es[..i][j]) != EntryKey(es[i])
    {
      LandsApart(m, l, es, i, j);
      LandsApart(m, l, es, j, i);
    }
  }

  lemma EntryNames(log: Log, l: Landing, e: DirEntry)
    requires |l.oldPath| <= |e.path| && EntryKey(e) !in log
    ensures ReportEntry(log, l, e).Keys ==
            log.Keys + {EntryKey(e)} + (if l.ignores(LandedKey(l, e).path) then {} else {LandedKey(l, e)})
  {}

  /** What is delivered of a move of its own: every entry is deleted at its old place, updated at its new one
      if something was shown there, and created there otherwise; where the new place is ignored, it is only
      deleted. There is nothing else. */
  lemma MoveBatch(m: Tree, l: Landing, es: seq<DirEntry>)
    requires Departed(m, l, es) && AllAtLeast(es, |l.oldPath|)
    ensures var batch, there := Drained(ReportEntries(map[], l, es)), Shown(m, l.ignores);
            && DeletedIn(batch) == LeftKeys(es)
            && CreatedIn(batch) == LandedKeys(l, es) - there && UpdatedIn(batch) == LandedKeys(l, es) * there
            && (forall k :: k in DeletedIn(batch) ==> k.path in m && (k.kind == Directory <==> m[k.path].isDir))
  {
    hide Reflects, Departed, Rebase, Drained, ReportEntries, LeftKeys, LandedKeys, Shown;
    var there, n, log := Shown(m, l.ignores), |es|, ReportEntries(map[], l, es);
    assert es[..n] == es;
    NothingYet(there);
    MidwayReflects(m, map[], there, l, es, n);
    ReflectedBatch(log, there, Midway(l, es, n));
    NamedKeys(m, l, es, n);
    MidwaySets(m, l, es);
    assert forall k :: k in LeftKeys(es) ==> k.path in m && (k.kind == Directory <==> m[k.path].isDir) by {
      KindsKept(m, l, es);
    }
  }

  lemma KindsKept(m: Tree, l: Landing, es: seq<DirEntry>)
    requires Departed(m, l, es)
    ensures forall k :: k in LeftKeys(es) ==> k.path in m && (k.kind == Directory <==> m[k.path].isDir)
  {
    ListedKeys(m, l.oldPath, es);
  }

  lemma MidwaySets(m: Tree, l: Landing, es: seq<DirEntry>)
    requires Departed(m, l, es) && AllAtLeast(es, |l.oldPath|)
    ensures LeftKeys(es) <= Shown(m, l.ignores) && LeftKeys(es) !! LandedKeys(l, es)
    ensures Midway(l, es, |es|) == Shown(m, l.ignores) - LeftKeys(es) + LandedKeys(l, es)
  {
    hide Departed, Rebase;
    MidwayStart(m, l, es);
    forall i, j | 0 <= i < |es| && 0 <= j < |es|
      ensures EntryKey(es[i]) != LandedKey(l, es[j]) && EntryKey(es[i]) !in Shown(l.tree, l.ignores)
    {
      LandsApart(m, l, es, i, j);
      LandsApart(m, l, es, j, i);
    }
  }

  lemma NothingYet(present: set<Key>)
    ensures Reflects(map[], present, present)
  {}

  // ------------------------------------------------------------ moves of something unknown

  /** A move of something the tree did not know, onto a known entry of the same kind or to a free place. Its old
      place is reported deleted, unless it was created meanwhile; the log shows what becomes of everything
      else, and the target is known under the kind and the time that `lstat` saw. */
  lemma UnknownReflects(m: Tree, log: Log, base: set<Key>, oldPath: Text, path: Text, cookie: nat, stat: Stat)
    requires Reflects(log, base, Shown(m, NeverIgnored())) && oldPath != path && (stat.FileStat? || stat.DirStat?)
    requires path in m ==> m[path].isDir == stat.DirStat?
    requires forall p :: p in m ==> !IsPathOrDescendant(p, oldPath) && !IsDescendant(p, path)
    ensures var after, kind := SettledLog(log, m, oldPath, path, cookie, true, stat, []), KindOf(stat.DirStat?);
            var settled := Settled(m, path, true, stat);
            && (forall k :: k != Key(oldPath, kind) ==> KeyReflects(after, base, Shown(settled, NeverIgnored()), k))
            && (Key(oldPath, kind) in after ==> after[Key(oldPath, kind)].isDeleted)
            && (path in m || !(Key(oldPath, kind) in log && log[Key(oldPath, kind)].isCreated) ==>
                Key(oldPath, kind) in after)
            && path in settled && settled[path] == TreeEntry(stat.mtime, stat.DirStat?)
            && (forall p :: p != path ==> (p in settled <==> p in m) && (p in m ==> settled[p] == m[p]))
  {
    hide Rename, Remove, Shown, Reflects, Settled, KeyReflects;
    var kind, there := KindOf(stat.DirStat?), Shown(m, NeverIgnored());
    UnknownTree(m, oldPath, path, stat);
    if path in m {
      UnknownOntoKnown(log, base, there, Key(oldPath, kind), Key(path, kind));
      assert there + {Key(path, kind)} == there;
    } else {
      UnknownToFree(log, base, there, Key(oldPath, kind), Key(path, kind), ID_PREFIX + Digits(cookie));
    }
  }

  lemma UnknownOntoKnown(log: Log, base: set<Key>, there: set<Key>, s: Key, t: Key)
    requires Reflects(log, base, there) && s !in there && t in there
    ensures var after := Touch(Remove(log, s), t);
            && (forall k :: k != s ==> KeyReflects(after, base, there, k))
            && s in after && after[s].isDeleted
  {
    forall k | k != s
      ensures KeyReflects(Touch(Remove(log, s), t), base, there, k)
    {
      assert KeyReflects(log, base, there, k);
    }
  }

  lemma UnknownToFree(log: Log, base: set<Key>, there: set<Key>, s: Key, t: Key, id: Text)
    requires Reflects(log, base, there) && s !in there && t !in there && s != t
    ensures var after := Rename(log, s, t, id);
            && (forall k :: k != s ==> KeyReflects(after, base, there + {t}, k))
            && (s in after ==> after[s].isDeleted) && (!(s in log && log[s].isCreated) ==> s in after)
  {
    hide Rename;
    RenameSource(log, s, t, id);
    RenameTarget(log, s, t, id);
    forall k | k != s
      ensures KeyReflects(Rename(log, s, t, id), base, there + {t}, k)
    {
      assert KeyReflects(log, base, there, k);
      if k != t {
        RenameFrame(log, s, t, id, k);
      }
    }
  }

  lemma UnknownTree(m: Tree, oldPath: Text, path: Text, stat: Stat)
    requires oldPath != path && (stat.FileStat? || stat.DirStat?) && (path in m ==> m[path].isDir == stat.DirStat?)
    requires forall p :: p in m ==> !IsPathOrDescendant(p, oldPath) && !IsDescendant(p, path)
    ensures var settled, kind := Settled(m, path, true, stat), KindOf(stat.DirStat?);
            && path in settled && settled[path] == TreeEntry(stat.mtime, stat.DirStat?)
            && (forall p :: p != path ==> (p in settled <==> p in m) && (p in m ==> settled[p] == m[p]))
            && Shown(settled, NeverIgnored()) == Shown(m, NeverIgnored()) + {Key(path, kind)}
            && (Key(path, kind) in Shown(m, NeverIgnored()) <==> path in m)
            && Key(oldPath, kind) !in Shown(m, NeverIgnored())
  {
    hide Without, Stamped, IsPathOrDescendant, IsDescendant;
    var rest, kind, never := Without(m, path), KindOf(stat.DirStat?), NeverIgnored();
    forall p { WithoutRest(m, path, p); }
    StampShows(rest, path, stat.mtime, stat.DirStat?, never);
    forall k
      ensures k in Shown(rest, never) + {Key(path, kind)} <==> k in Shown(m, never) + {Key(path, kind)}
    {}
    SelfBelow(oldPath);
  }

  lemma SelfBelow(path: Text)
    ensures IsPathOrDescendant(path, path)
  {}

  // ------------------------------------------------------------ an overwriting move

  /** One file moved onto another: whatever else the tree holds, the batch is the delete of the one and the
      update of the other, without an id. */
  lemma FileOverwrites(m: Tree, source: Text, target: Text, leg: Leg)
    requires source in m && !m[source].isDir && target in m && !m[target].isDir && source != target
    requires forall p :: p in m ==> !IsDescendant(p, source) && !IsDescendant(p, target)
    requires leg.target == target && !leg.stat.OtherStat? && ListsSubtree(leg.entries, m, source)
    ensures AllAtLeast(leg.entries, |source|)
    ensures var batch := Drained(MoveOnce(Standing(m, map[], []), source, leg).log);
            && CreatedIn(batch) == {} && DeletedIn(batch) == {Key(source, File)} &&
               UpdatedIn(batch) == {Key(target, File)}
            && batch[Key(source, File)].renameId == None && batch[Key(target, File)].renameId == None
  {
    hide Drained, ReportEntries, Landed, Shown, LeftKeys, LandedKeys;
    var es := leg.entries;
    TakenPaths(es, m, source);
    var l := Landing(m - Subtree(m, source), source, target, leg.cookie, NeverIgnored());
    OneFile(m, source, target, es, l);
    MoveBatch(m, l, es);
    NoRenames(map[], l, es);
    NoIds(ReportEntries(map[], l, es));
  }

  lemma NoIds(log: Log)
    requires NoNewIds(map[], log)
    ensures forall k :: k in Drained(log) ==> Drained(log)[k].renameId == None
  {}

  lemma OneFile(m: Tree, source: Text, target: Text, es: seq<DirEntry>, l: Landing)
    requires source in m && !m[source].isDir && target in m && !m[target].isDir && source != target
    requires forall p :: p in m ==> !IsDescendant(p, source) && !IsDescendant(p, target)
    requires ListsSubtree(es, m, source)
    requires l == Landing(m - Subtree(m, source), source, target, l.cookie, NeverIgnored())
    ensures Departed(m, l, es) && target in l.tree && AllAtLeast(es, |source|) && es != []
    ensures LeftKeys(es) == {Key(source, File)} && LandedKeys(l, es) == {Key(target, File)}
    ensures Key(target, File) in Shown(m, NeverIgnored())
  {
    TakenPaths(es, m, source);
    assert source in Subtree(m, source);
    forall i | 0 <= i < |es|
      ensures es[i] == DirEntry(source, m[source].mtime, false)
    {
      assert es[i].path in Subtree(m, source);
    }
    assert Rebase(source, source, target) == target;
    assert Key(target, File) in Shown(m, NeverIgnored()) by {
      assert target in m && !NeverIgnored()(target);
    }
    assert Unnested(source, target);
    forall t | t in Subtree(m, target)
      ensures t == target && Rebase(target, target, source) == source
    {}
  }
}
