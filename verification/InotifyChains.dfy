/** Chains of paired directory moves: the tree, the subscriptions and the batch they leave. */
module InotifyChains {
  import opened Bytes
  import opened Options
  import opened Decimal
  import opened EventLog
  import opened Subtrees
  import opened DirTrees
  import opened InotifyMoves
  import opened InotifyTracking

  /** The watcher's standing while the directory of `m` is at `now`. */
  ghost predicate StandsAt(s: Standing, m: Tree, paths: seq<Text>, first: Text, cookie: nat, now: Text) {
    && NowAt(s.tree, m, first, now)
    && s.paths == CarriedAll(paths, first, now)
    && Tracks(s.log, m, first, cookie, AllAt(m, first, now))
  }

  /** A target apart from where the directory was first, with nothing indexed or subscribed there. */
  ghost predicate IsOpen(m: Tree, paths: seq<Text>, first: Text, target: Text) {
    && Unnested(first, target) && Subtree(m, target) == {}
    && (forall i :: 0 <= i < |paths| ==> !IsPathOrDescendant(paths[i], target))
  }

  lemma NotInTree(tree: Tree, m: Tree, paths: seq<Text>, first: Text, now: Text, target: Text)
    requires NowAt(tree, m, first, now) && Free(m, first, now) && IsOpen(m, paths, first, target) &&
             Unnested(now, target)
    ensures Subtree(tree, target) == {}
  {
    hide Rekey;
    forall t | t in tree
      ensures !IsPathOrDescendant(t, target)
    {
      RekeyAt(m, first, now, t);
      if t in m {
        assert t !in Subtree(m, target);
      } else if IsPathOrDescendant(t, target) {
        BothAbove(t, now, target);
      }
    }
  }

  /** The tree follows. */
  lemma TreeMoves(tree: Tree, m: Tree, paths: seq<Text>, first: Text, now: Text, leg: Leg)
    requires NowAt(tree, m, first, now) && Free(m, first, now) && first in m && m[first].isDir
    requires IsOpen(m, paths, first, leg.target) && Unnested(now, leg.target) && (leg.stat.NoStat? || leg.stat.DirStat?)
    requires ListsSubtree(leg.entries, tree, now)
    ensures leg.entries != [] && AllAtLeast(leg.entries, |now|)
    ensures leg.target !in tree - Subtree(tree, now)
    ensures var landed := Landed(tree - Subtree(tree, now), leg.entries, now, leg.target);
            NowAt(Settled(landed, leg.target, false, leg.stat), m, first, leg.target)
  {
    hide NowAt, Rekey, IsOpen, Unnested;
    NotInTree(tree, m, paths, first, now, leg.target);
    assert leg.target !in tree by {
      assert leg.target in tree ==> leg.target in Subtree(tree, leg.target);
    }
    ExtractRestore(tree, leg.entries, now, leg.target);
    var landed := Rekey(tree, now, leg.target);
    StillThere(tree, m, first, now);
    RekeyedOnce(tree, m, paths, first, now, leg.target);
    StampKeeps(landed, m, first, leg.target, leg.stat);
  }

  /** The directory itself is indexed where it is. */
  lemma StillThere(tree: Tree, m: Tree, first: Text, now: Text)
    requires NowAt(tree, m, first, now) && first in m
    ensures now in Subtree(tree, now) && Rekey(m, first, now).Keys == tree.Keys
    ensures tree[now].isDir == m[first].isDir
  {
    RekeyAt(m, first, now, now);
    assert Rebase(now, now, first) == first;
  }

  lemma RekeyedOnce(tree: Tree, m: Tree, paths: seq<Text>, first: Text, now: Text, target: Text)
    requires NowAt(tree, m, first, now) && Free(m, first, now)
    requires IsOpen(m, paths, first, target) && Unnested(now, target)
    ensures NowAt(Rekey(tree, now, target), m, first, target)
  {
    hide Rekey;
    NotInTree(tree, m, paths, first, now, target);
    var there := Rekey(tree, now, target);
    var straight := Rekey(m, first, target);
    forall t
      ensures t in there <==> t in straight
      ensures t in there ==> there[t].isDir == straight[t].isDir && (t != target ==> there[t] == straight[t])
    {
      RekeyedAt(tree, m, first, now, target, t);
    }
  }

  lemma RekeyedAt(tree: Tree, m: Tree, first: Text, now: Text, target: Text, t: Text)
    requires NowAt(tree, m, first, now) && Free(m, first, now) && Subtree(tree, target) == {} &&
             Subtree(m, target) == {}
    requires Unnested(now, target) && Unnested(first, target)
    ensures var there, straight := Rekey(tree, now, target), Rekey(m, first, target);
            && (t in there <==> t in straight)
            && (t in there ==> there[t].isDir == straight[t].isDir && (t != target ==> there[t] == straight[t]))
  {
    hide Rekey;
    RekeyAt(tree, now, target, t);
    RekeyAt(m, first, target, t);
    if IsPathOrDescendant(t, target) {
      var u := Rebase(t, target, now);
      RebaseBack(t, target, now);
      RebaseTwice(t, target, now, first);
      RekeyAt(m, first, now, u);
      assert t !in Subtree(tree, target) && t !in Subtree(m, target);
      assert u == now ==> t == target;
      assert u in m ==> now == first || u !in Subtree(m, now);
    } else {
      RekeyAt(m, first, now, t);
      assert t in m && IsPathOrDescendant(t, now) ==> now == first || t !in Subtree(m, now);
      if IsPathOrDescendant(t, now) {
        RebaseBack(t, now, first);
      }
    }
  }

  lemma StampKeeps(tree: Tree, m: Tree, first: Text, now: Text, stat: Stat)
    requires NowAt(tree, m, first, now) && first in m && m[first].isDir && (stat.NoStat? || stat.DirStat?)
    ensures NowAt(Settled(tree, now, false, stat), m, first, now)
  {
    hide Rekey;
    StillThere(tree, m, first, now);
  }

  /** The subscriptions follow. */
  lemma PathsMove(m: Tree, paths: seq<Text>, first: Text, now: Text, target: Text)
    requires now == first || IsOpen(m, paths, first, now)
    ensures CarriedAll(CarriedAll(paths, first, now), now, target) == CarriedAll(paths, first, target)
  {
    forall i | 0 <= i < |paths|
      ensures Carried(Carried(paths[i], first, now), now, target) == Carried(paths[i], first, target)
    {
      var p := paths[i];
      if IsPathOrDescendant(p, first) {
        RebaseBack(p, first, now);
        RebaseTwice(p, first, now, target);
      }
    }
  }

  lemma UndoneAll(m: Tree, es: seq<DirEntry>, tree: Tree, first: Text, now: Text)
    requires NowAt(tree, m, first, now) && Free(m, first, now) && ListsSubtree(es, tree, now)
    ensures Origins(PathsIn(es), now, first) == Subtree(m, first)
  {
    hide NowAt, Free;
    assert PathsIn(es) == Subtree(tree, now);
    forall p
      ensures p in Origins(PathsIn(es), now, first) <==> p in Subtree(m, first)
    {
      if p in Subtree(m, first) {
        RebaseBack(p, first, now);
        NowBelow(tree, m, first, now, Rebase(p, first, now));
      }
      if p in Origins(PathsIn(es), now, first) {
        var q :| q in PathsIn(es) && |now| <= |q| && Rebase(q, now, first) == p;
        NowBelow(tree, m, first, now, q);
      }
    }
  }

  lemma FirstLeg(m: Tree, paths: seq<Text>, first: Text, leg: Leg)
    requires first in m && m[first].isDir && IsOpen(m, paths, first, leg.target)
    requires (leg.stat.NoStat? || leg.stat.DirStat?) && ListsSubtree(leg.entries, m, first)
    ensures AllAtLeast(leg.entries, |first|)
    ensures StandsAt(MoveOnce(Standing(m, map[], paths), first, leg), m, paths, first, leg.cookie, leg.target)
  {
    hide Tracks, Rekey, ReportEntry, Landed, Settled, CarriedAll;
    assert NowAt(m, m, first, first) by {
      forall t
        ensures t in Rekey(m, first, first) <==> t in m
        ensures t in m ==> Rekey(m, first, first)[t] == m[t]
      {
        RekeyAt(m, first, first, t);
        if IsPathOrDescendant(t, first) {
          RebaseBack(t, first, first);
          assert Rebase(t, first, first) == t;
        }
      }
    }
    TreeMoves(m, m, paths, first, first, leg);
    var l := Landing(m - Subtree(m, first), first, leg.target, leg.cookie, NeverIgnored());
    FirstReported(m, l, leg.entries);
    assert PathsIn(leg.entries) == Subtree(m, first);
    assert Started(Subtree(m, first), first, leg.target) == AllAt(m, first, leg.target);
  }

  lemma NextLeg(s: Standing, m: Tree, paths: seq<Text>, first: Text, cookie: nat, now: Text, leg: Leg)
    requires first in m && m[first].isDir && StandsAt(s, m, paths, first, cookie, now)
    requires IsOpen(m, paths, first, now) && IsOpen(m, paths, first, leg.target) && Unnested(now, leg.target)
    requires (leg.stat.NoStat? || leg.stat.DirStat?) && ListsSubtree(leg.entries, s.tree, now)
    ensures AllAtLeast(leg.entries, |now|)
    ensures StandsAt(MoveOnce(s, now, leg), m, paths, first, cookie, leg.target)
  {
    hide Tracks, Rekey, ReportEntry, Landed, Settled, CarriedAll, NowAt, Unnested, AllAt, Underway, Origins;
    TreeMoves(s.tree, m, paths, first, now, leg);
    PathsMove(m, paths, first, now, leg.target);
    var l := Landing(s.tree - Subtree(s.tree, now), now, leg.target, leg.cookie, NeverIgnored());
    NextReported(s.log, s.tree, m, first, cookie, l, leg.entries);
    UndoneAll(m, leg.entries, s.tree, first, now);
    UnderwayEnds(m, first, now, leg.target);
  }

  /** The legs can be travelled: each target is open and apart from the place before it, `lstat` fails or
      shows a directory, and the entries are those the tree holds, in some order. */
  ghost predicate CanTravel(s: Standing, m: Tree, paths: seq<Text>, first: Text, now: Text, legs: seq<Leg>)
    decreases |legs|
  {
    legs == [] ||
    (var leg := legs[0];
     && IsOpen(m, paths, first, leg.target) && Unnested(now, leg.target) && (leg.stat.NoStat? || leg.stat.DirStat?)
     && ListsSubtree(leg.entries, s.tree, now) && AllAtLeast(leg.entries, |now|)
     && CanTravel(MoveOnce(s, now, leg), m, paths, first, leg.target, legs[1..]))
  }

  ghost function Travel(s: Standing, m: Tree, paths: seq<Text>, first: Text, now: Text, legs: seq<Leg>): Standing
    requires CanTravel(s, m, paths, first, now, legs)
    decreases |legs|
  {
    if legs == [] then s else Travel(MoveOnce(s, now, legs[0]), m, paths, first, legs[0].target, legs[1..])
  }

  function LastPlace(now: Text, legs: seq<Leg>): Text {
    if legs == [] then now else legs[|legs| - 1].target
  }

  lemma {:induction false} StandsThroughout(s: Standing, m: Tree, paths: seq<Text>, first: Text, cookie: nat, now: Text,
                                            legs: seq<Leg>)
    requires first in m && m[first].isDir && StandsAt(s, m, paths, first, cookie, now) && IsOpen(m, paths, first, now)
    requires CanTravel(s, m, paths, first, now, legs)
    ensures StandsAt(Travel(s, m, paths, first, now, legs), m, paths, first, cookie, LastPlace(now, legs))
    decreases |legs|
  {
    hide StandsAt, IsOpen, MoveOnce, ListsSubtree, Unnested;
    if legs != [] {
      NextLeg(s, m, paths, first, cookie, now, legs[0]);
      StandsThroughout(MoveOnce(s, now, legs[0]), m, paths, first, cookie, legs[0].target, legs[1..]);
    }
  }

  // ------------------------------------------------------------ the batch after a chain

  lemma IdsDistinct(p: Text, q: Text, first: Text, cookie: nat)
    requires IsPathOrDescendant(p, first) && IsPathOrDescendant(q, first) &&
             IdOf(p, first, cookie) == IdOf(q, first, cookie)
    ensures p == q
  {
    var n := |ID_PREFIX + Digits(cookie) + [COLON]|;
    assert IdOf(p, first, cookie)[n..] == p[|first|..] && IdOf(q, first, cookie)[n..] == q[|first|..];
    assert p == first + p[|first|..] && q == first + q[|first|..];
  }

  lemma TrackedKeyId(log: Log, m: Tree, first: Text, cookie: nat, place: map<Text, Text>, k: Key) returns (q: Text)
    requires Tracks(log, m, first, cookie, place) && k in log
    ensures q in place && q in m && IsPathOrDescendant(q, first) && |first| <= |q| && KeyOfEntry(m, place, q, k)
    ensures log[k].renameId == Some(IdOf(q, first, cookie))
  {
    hide IdOf, IsPathOrDescendant;
    assert KeyTracked(m, place, k);
    q :| q in place && q in m && KeyOfEntry(m, place, q, k);
    assert EntryTracked(log, m, first, cookie, q, place[q]);
    PrefixShorter(q, first);
  }

  /** Every tracked pair is exposed. */
  lemma TrackedPaired(log: Log, m: Tree, first: Text, cookie: nat, place: map<Text, Text>, p: Text)
    requires Tracks(log, m, first, cookie, place) && p in place && p in m && IsPathOrDescendant(p, first)
    ensures |first| <= |p| && Paired(log, IdOf(p, first, cookie))
  {
    hide IdOf, IsPathOrDescendant, Paired, KeyTracked;
    PrefixShorter(p, first);
    var kind, id := KindOf(m[p].isDir), IdOf(p, first, cookie);
    assert EntryTracked(log, m, first, cookie, p, place[p]);
    forall k | k in log && log[k].renameId == Some(id)
      ensures k == Key(p, kind) || k == Key(place[p], kind)
    {
      var q := TrackedKeyId(log, m, first, cookie, place, k);
      IdsDistinct(p, q, first, cookie);
    }
    JoinedPairs(log, id, Key(p, kind), Key(place[p], kind));
  }

  lemma TrackedDrained(log: Log, m: Tree, first: Text, cookie: nat, place: map<Text, Text>)
    requires Tracks(log, m, first, cookie, place)
    ensures Tracks(Drained(log), m, first, cookie, place)
  {
    hide IdOf, IsPathOrDescendant, Paired, KeyTracked;
    forall p | p in place
      ensures EntryTracked(Drained(log), m, first, cookie, p, place[p])
    {
      assert EntryTracked(log, m, first, cookie, p, place[p]);
      TrackedPaired(log, m, first, cookie, place, p);
    }
  }

  /** After every chain of paired moves of a directory the tree, the subscriptions and the batch are as if
      it had gone straight to the last target: each original entry is paired with its final place under
      an id of its own, issued at the first move, and nothing else is reported. */
  lemma ChainLands(m: Tree, paths: seq<Text>, first: Text, legs: seq<Leg>)
    requires first in m && m[first].isDir && legs != []
    requires CanTravel(Standing(m, map[], paths), m, paths, first, first, legs)
    ensures var end := Travel(Standing(m, map[], paths), m, paths, first, first, legs);
            var last := legs[|legs| - 1].target;
            && NowAt(end.tree, m, first, last)
            && end.paths == CarriedAll(paths, first, last)
            && Tracks(Drained(end.log), m, first, legs[0].cookie, AllAt(m, first, last))
  {
    hide MoveOnce, ListsSubtree, Tracks, IsOpen, Unnested, NowAt;
    var s := Standing(m, map[], paths);
    FirstLeg(m, paths, first, legs[0]);
    var next := MoveOnce(s, first, legs[0]);
    StandsThroughout(next, m, paths, first, legs[0].cookie, legs[0].target, legs[1..]);
    var end := Travel(s, m, paths, first, first, legs);
    TrackedDrained(end.log, m, first, legs[0].cookie, AllAt(m, first, legs[|legs| - 1].target));
  }
}
