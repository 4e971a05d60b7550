/** Cookie-paired moves: what one does to the tree, the events and the subscriptions, and what chains do. */
module InotifyMoves {
  import opened Bytes
  import opened Options
  import opened Decimal
  import opened EventLog
  import opened Subtrees
  import opened DirTrees

  function KindOf(isDir: bool): EntryKind {
    if isDir then Directory else File
  }

  const ID_PREFIX: Text := [105, 110, 111, 116, 105, 102, 121, 58]  // "inotify:"

  /** The id of one entry's move; `suffix` is its path below the moved one. */
  function MoveId(cookie: nat, suffix: Text): Text {
    ID_PREFIX + Digits(cookie) + [COLON] + suffix
  }

  /** What `lstat` says of the target. */
  datatype Stat = NoStat | FileStat(mtime: nat) | DirStat(mtime: nat) | OtherStat

  // ------------------------------------------------------------ the events of one paired move

  /** The paired target, as the entries are reported. */
  datatype Landing = Landing(tree: Tree, oldPath: Text, path: Text, cookie: nat, ignores: Text -> bool)

  function ReportEntry(log: Log, l: Landing, e: DirEntry): Log
    requires |l.oldPath| <= |e.path|
  {
    var newPath, kind := Rebase(e.path, l.oldPath, l.path), KindOf(e.isDir);
    if l.path in l.tree || l.ignores(newPath) then
      var removed := Remove(log, Key(e.path, kind));
      if l.ignores(newPath) then removed
      else if newPath in l.tree then Touch(removed, Key(newPath, kind))
      else Create(removed, Key(newPath, kind))
    else Rename(log, Key(e.path, kind), Key(newPath, kind), MoveId(l.cookie, e.path[|l.oldPath|..]))
  }

  function ReportEntries(log: Log, l: Landing, es: seq<DirEntry>): Log
    requires AllAtLeast(es, |l.oldPath|)
  {
    if es == [] then log
    else ReportEntry(ReportEntries(log, l, es[..|es| - 1]), l, es[|es| - 1])
  }

  /** A move onto something known, or to an ignored place, is no rename: whatever the log held, the entry
      is gone from its old path, no key gets an id it did not have, and only the two keys change. */
  lemma NoRename(log: Log, l: Landing, e: DirEntry)
    requires |l.oldPath| <= |e.path| && (l.path in l.tree || l.ignores(Rebase(e.path, l.oldPath, l.path)))
    ensures var after, kind := ReportEntry(log, l, e), KindOf(e.isDir);
            var left, landed := Key(e.path, kind), Key(Rebase(e.path, l.oldPath, l.path), kind);
            && left in after && (left != landed ==> after[left].isDeleted && after[left].renameId == None)
            && NoNewIds(log, after)
            && (forall k :: k != left && (k != landed || l.ignores(landed.path)) ==>
                  (k in after <==> k in log) && (k in log ==> after[k] == log[k]))
            && (!l.ignores(landed.path) ==> landed in after)
            && (!l.ignores(landed.path) && landed.path !in l.tree ==> !after[landed].isDeleted)
  {}

  ghost predicate NoNewIds(log: Log, after: Log) {
    forall k :: k in after && after[k].renameId.Some? ==> k in log && after[k].renameId == log[k].renameId
  }

  /** Landing on a known target, no entry of the move, however many there are, is reported as a rename. */
  lemma {:induction false} NoRenames(log: Log, l: Landing, es: seq<DirEntry>)
    requires AllAtLeast(es, |l.oldPath|) && l.path in l.tree
    ensures NoNewIds(log, ReportEntries(log, l, es))
    decreases |es|
  {
    if es != [] {
      hide ReportEntry;
      NoRenames(log, l, es[..|es| - 1]);
      NoRename(ReportEntries(log, l, es[..|es| - 1]), l, es[|es| - 1]);
    }
  }

  // ------------------------------------------------------------ the tree of one paired move

  function Landed(tree: Tree, es: seq<DirEntry>, oldPath: Text, path: Text): Tree
    requires AllAtLeast(es, |oldPath|)
  {
    Restored(if es != [] && path in tree then Without(tree, path) else tree, es, oldPath, path)
  }

  function Stamped(tree: Tree, path: Text, mtime: nat, isDir: bool): Tree {
    if path in tree then tree[path := tree[path].(mtime := mtime)] else tree[path := TreeEntry(mtime, isDir)]
  }

  /** The tree once `lstat` has had its say about the target. */
  function Settled(tree: Tree, path: Text, missingSource: bool, stat: Stat): Tree {
    match stat
    case NoStat => tree
    case OtherStat => tree - Subtree(tree, path)
    case _ => Stamped(if missingSource then Without(tree, path) else tree, path, stat.mtime, stat.DirStat?)
  }

  function RemoveEntries(log: Log, es: seq<DirEntry>): Log {
    if es == [] then log
    else Remove(RemoveEntries(log, es[..|es| - 1]), Key(es[|es| - 1].path, KindOf(es[|es| - 1].isDir)))
  }

  /** The events `lstat` still adds; `others` are the entries found at a target that is no file or directory. */
  function SettledLog(log: Log, tree: Tree, oldPath: Text, path: Text, cookie: nat, missingSource: bool, stat: Stat,
                      others: seq<DirEntry>): Log {
    match stat
    case NoStat => log
    case OtherStat => RemoveEntries(log, others)
    case _ =>
      var kind := KindOf(stat.DirStat?);
      if !missingSource then log
      else if path in tree then Touch(Remove(log, Key(oldPath, kind)), Key(path, kind))
      else Rename(log, Key(oldPath, kind), Key(path, kind), ID_PREFIX + Digits(cookie))
  }

  // ------------------------------------------------------------ chains of directory moves

  /** One move of a chain: its target, its cookie, what `lstat` then saw, and the order in which the
      entries came out of the tree. */
  datatype Leg = Leg(target: Text, cookie: nat, stat: Stat, entries: seq<DirEntry>)

  /** Where the watcher stands: its tree, its events and the paths of its subscriptions. */
  datatype Standing = Standing(tree: Tree, log: Log, paths: seq<Text>)

  function Carried(p: Text, source: Text, target: Text): Text {
    if IsPathOrDescendant(p, source) then Rebase(p, source, target) else p
  }

  /** A path at or below the moved one goes along, and every other stays. */
  lemma CarriedMeans(p: Text, source: Text, target: Text)
    ensures Carried(source, source, target) == target
    ensures forall rest: Text :: p == source + [47] + rest ==> Carried(p, source, target) == target + [47] + rest
    ensures p != source && (forall rest: Text :: p != source + [47] + rest) ==> Carried(p, source, target) == p
  {
    DescendantMeans(p, source);
    forall rest: Text | p == source + [47] + rest
      ensures Carried(p, source, target) == target + [47] + rest
    {
      assert p[|source|..] == [47] + rest;
      assert target + ([47] + rest) == target + [47] + rest;
    }
  }

  function CarriedAll(paths: seq<Text>, source: Text, target: Text): seq<Text> {
    seq(|paths|, i requires 0 <= i < |paths| => Carried(paths[i], source, target))
  }

  function NeverIgnored(): Text -> bool {
    _ => false
  }

  /** The departure and the arrival of one directory, nothing being ignored. */
  function MoveOnce(s: Standing, source: Text, leg: Leg): Standing
    requires AllAtLeast(leg.entries, |source|)
  {
    var departed := s.tree - Subtree(s.tree, source);
    var landed := Landed(departed, leg.entries, source, leg.target);
    var log := ReportEntries(s.log, Landing(departed, source, leg.target, leg.cookie, NeverIgnored()), leg.entries);
    var missing := leg.entries == [];
    Standing(Settled(landed, leg.target, missing, leg.stat),
             SettledLog(log, landed, source, leg.target, leg.cookie, missing, leg.stat, []),
             CarriedAll(s.paths, source, leg.target))
  }

  /** Only what is ignored matters, not how that is decided. */
  lemma {:induction false} ReportQuiet(log: Log, l: Landing, k: Landing, es: seq<DirEntry>)
    requires AllAtLeast(es, |l.oldPath|) && k == l.(ignores := k.ignores)
    requires forall t :: l.ignores(t) == k.ignores(t)
    ensures ReportEntries(log, l, es) == ReportEntries(log, k, es)
    decreases |es|
  {
    if es != [] {
      ReportQuiet(log, l, k, es[..|es| - 1]);
    }
  }

  predicate Unnested(a: Text, b: Text) {
    !IsPathOrDescendant(a, b) && !IsPathOrDescendant(b, a)
  }

  /** Two paths above one are nested. */
  lemma BothAbove(t: Text, a: Text, b: Text)
    requires IsPathOrDescendant(t, a) && IsPathOrDescendant(t, b)
    ensures !Unnested(a, b)
  {
    if |a| <= |b| {
      assert b[..|a|] == t[..|b|][..|a|] == t[..|a|] == a;
      assert |a| < |b| ==> b[|a|] == t[|a|];
    } else {
      assert a[..|b|] == t[..|a|][..|b|] == t[..|b|] == b;
      assert a[|b|] == t[|b|];
    }
  }

  // ------------------------------------------------------------ moves that overlap

  /** A directory `inner` departs, then `outer` above it departs and lands before it does; the path `p` of a
      subscription at or below both has then been rewritten once already.  Landing `inner` gives that
      subscription its right path if and only if `outer` went to a path of the same length; it throws
      exactly if the rewritten path has become shorter than `inner`. */
  lemma OverlapExact(p: Text, outer: Text, landed: Text, inner: Text, target: Text)
    requires IsPathOrDescendant(inner, outer) && IsPathOrDescendant(p, inner)
    ensures |outer| <= |inner| <= |p|
    ensures var q := Rebase(p, outer, landed);
            && (|inner| <= |q| && Rebase(q, inner, target) == Rebase(p, inner, target) <==> |landed| == |outer|)
            && (|q| < |inner| <==> |landed| + (|p| - |outer|) < |inner|)
  {
    PrefixShorter(inner, outer);
    PrefixShorter(p, inner);
    var q := Rebase(p, outer, landed);
    if |inner| <= |q| {
      assert |Rebase(q, inner, target)| == |target| + |q| - |inner|;
      assert |Rebase(p, inner, target)| == |target| + |p| - |inner|;
    }
    if |landed| == |outer| {
      assert q[|inner|..] == p[|inner|..];
    }
  }

  /** The other order: `inner` lands first, and then `outer` drops as many bytes as before from a path that
      has left it.  That path stays as it is only if it happens to begin with where `outer` went. */
  lemma OverlapInnerExact(p: Text, outer: Text, landed: Text, inner: Text, target: Text)
    requires IsPathOrDescendant(inner, outer) && IsPathOrDescendant(p, inner)
    ensures |outer| <= |inner| <= |p|
    ensures var q := Rebase(p, inner, target);
            |outer| <= |q| ==> (Rebase(q, outer, landed) == q <==> q[..|outer|] == landed)
  {
    PrefixShorter(inner, outer);
    PrefixShorter(p, inner);
    var q := Rebase(p, inner, target);
    if |outer| <= |q| {
      var r := Rebase(q, outer, landed);
      assert r[..|landed|] == landed && |r| == |landed| + |q| - |outer|;
      assert q == q[..|outer|] + q[|outer|..];
    }
  }
}
