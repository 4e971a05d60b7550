/** Whole runs on a backend: chains of moves, and moves that overlap in time. */
module InotifyRuns {
  import opened Bytes
  import opened EventLists
  import opened Subtrees
  import opened DirTrees
  import opened InotifyMoves
  import opened InotifyTracking
  import opened InotifyChains
  import opened InotifyWatches
  import opened Inotify

  /** A directory whose events reach the watcher: neither only an ancestor nor itself on the move. */
  ghost predicate IsListening(b: InotifyBackend, sub: Subscription)
    reads b, sub
  {
    !b.IsMoving(sub) && !b.IsAncestorOnly(sub)
  }

  predicate IsSubscribed(b: InotifyBackend, sub: Subscription)
    reads b
  {
    exists e :: e in b.subscriptions && e.sub == sub
  }

  ghost predicate IgnoresNothing(w: Watcher) {
    !w.hasIgnores && forall t :: !w.ignores(t)
  }

  /** An arrival of a directory: into `to` under `name`, and what `lstat` then sees. */
  datatype Hop = Hop(to: Subscription, name: Text, cookie: nat, stat: Stat)

  /** Where a hop leads. */
  function Target(h: Hop): Text
    reads h.to
  {
    h.to.path + [SLASH] + h.name
  }

  // ------------------------------------------------------------ moves that overlap

  /** The departure of a directory, as far as the subscriptions are concerned. */
  method Leave(b: InotifyBackend, sub: Subscription, name: Text, cookie: nat)
    requires b.Valid() && sub.watcher.events.Valid() && IsListening(b, sub) && IgnoresNothing(sub.watcher) &&
             cookie != 0
    modifies b, sub.tree`entries, sub.watcher.events`events
    ensures b.Valid() && sub.watcher.events.Valid() && b.State() == old(b.State())
    ensures var key, path := MoveKey(sub.watcher, cookie), sub.path + [SLASH] + name;
            && key in b.pendingMoves && b.pendingMoves == old(b.pendingMoves)[key := b.pendingMoves[key]]
            && b.pendingMoves[key].path == path && b.pendingMoves[key].isDirectory
            && b.pendingMoves[key].subscriptions == old(b.SubscribedBelow(sub.watcher, path))
  {
    ghost var touched, entries;
    touched, entries := b.MovedFrom(sub, name, cookie, true);
  }

  /** The arrival of a directory whose departure is pending, as far as the subscriptions are concerned. */
  method Land(b: InotifyBackend, to: Subscription, name: Text, cookie: nat, stat: Stat) returns (threw: bool)
    requires b.Valid() && to.watcher.events.Valid() && !b.IsMoving(to) && !stat.OtherStat?
    requires MoveKey(to.watcher, cookie) in b.pendingMoves
    modifies b, to.tree`entries, to.watcher.events`events, b.pendingMoves[MoveKey(to.watcher, cookie)].subscriptions
    ensures b.Valid() && to.watcher.events.Valid() && b.State() == old(b.State())
    ensures var key := MoveKey(to.watcher, cookie);
            var move, target := old(b.pendingMoves)[key], old(to.path) + [SLASH] + name;
            && b.pendingMoves == (if threw then old(b.pendingMoves)[key := move.(entries := [])]
                                  else old(b.pendingMoves) - {key})
            && (threw <==> exists s :: s in move.subscriptions && |old(s.path)| < |move.path|)
            && (!threw ==> forall s :: s in move.subscriptions ==> s.path == Rebase(old(s.path), move.path, target))
  {
    hide Settled, SettledLog, Landed;
    var suppressed := b.Suppress(to);
    var rescan: bool;
    ghost var others, gone;
    ghost var before := b.State();
    threw, rescan, others, gone := b.MovedTo(to, to.path + [SLASH] + name, cookie, stat);
    RemoveNone(before);
  }

  /** What is subscribed below the inner directory is so below the outer one. */
  lemma Nested(b: InotifyBackend, mid: Subscription, innerName: Text, top: Subscription, outerName: Text)
    requires IsPathOrDescendant(mid.path, top.path + [SLASH] + outerName)
    ensures var inner, outer := mid.path + [SLASH] + innerName, top.path + [SLASH] + outerName;
            && IsPathOrDescendant(inner, outer) && !IsPathOrDescendant(top.path, outer)
            && b.SubscribedBelow(mid.watcher, inner) <= b.SubscribedBelow(mid.watcher, outer)
            && !IsPathOrDescendant(top.path, inner)
            && (forall s :: s in b.SubscribedBelow(mid.watcher, inner) ==>
                  IsPathOrDescendant(s.path, inner) && |outer| <= |inner| <= |s.path|)
            && (forall s :: s in b.SubscribedBelow(mid.watcher, outer) ==>
                IsPathOrDescendant(s.path, outer) && |outer| <= |s.path|)
  {
    var inner, outer := mid.path + [SLASH] + innerName, top.path + [SLASH] + outerName;
    assert inner[..|mid.path|] == mid.path;
    DescendantTransitive(inner, mid.path, outer);
    forall s | s in b.SubscribedBelow(mid.watcher, inner)
      ensures IsPathOrDescendant(s.path, outer)
    {
      DescendantTransitive(s.path, inner, outer);
    }
  }

  /** A directory below `mid` and one above it, `outer`, can move at the same time, to directories of the same
      watcher and tree outside `outer`; nothing is ignored. */
  ghost predicate CanOverlap(b: InotifyBackend, mid: Subscription, top: Subscription, outer: Text,
                             side: Subscription, dest: Subscription, innerCookie: nat, outerCookie: nat)
    reads b, mid, top, side, dest, mid.watcher.events
  {
    && b.Valid() && mid.watcher.events.Valid() && IgnoresNothing(mid.watcher)
    && mid.watcher == top.watcher == side.watcher == dest.watcher
    && mid.tree == top.tree == side.tree == dest.tree
    && IsListening(b, mid) && IsListening(b, top) && IsListening(b, side) && IsListening(b, dest)
    && innerCookie != 0 && outerCookie != 0 && innerCookie != outerCookie
    && IsPathOrDescendant(mid.path, outer)
    && !IsPathOrDescendant(side.path, outer) && !IsPathOrDescendant(dest.path, outer)
  }

  /** Both departures: the inner subscriptions wait in two moves. */
  method LeaveBoth(b: InotifyBackend, mid: Subscription, innerName: Text, top: Subscription, outerName: Text,
                   side: Subscription, dest: Subscription, innerCookie: nat, outerCookie: nat)
    requires CanOverlap(b, mid, top, top.path + [SLASH] + outerName, side, dest, innerCookie, outerCookie)
    modifies b, mid.tree`entries, mid.watcher.events`events
    ensures b.Valid() && mid.watcher.events.Valid() && b.State() == old(b.State())
    ensures !b.IsMoving(side) && !b.IsMoving(dest)
    ensures var w, i, o := mid.watcher, MoveKey(mid.watcher, innerCookie), MoveKey(mid.watcher, outerCookie);
            && i in b.pendingMoves && o in b.pendingMoves
            && b.pendingMoves[i].path == mid.path + [SLASH] + innerName
            && b.pendingMoves[o].path == top.path + [SLASH] + outerName
            && b.pendingMoves[i].subscriptions == old(b.SubscribedBelow(w, mid.path + [SLASH] + innerName))
            && b.pendingMoves[o].subscriptions == old(b.SubscribedBelow(w, top.path + [SLASH] + outerName))
  {
    hide IsPathOrDescendant, IgnoresNothing, InotifyBackend.Valid;
    Nested(b, mid, innerName, top, outerName);
    Leave(b, mid, innerName, innerCookie);
    Leave(b, top, outerName, outerCookie);
  }

  /** Both landings, the outer one first. */
  method LandOuterFirst(b: InotifyBackend, side: Subscription, newName: Text, dest: Subscription, destName: Text,
                  innerCookie: nat, outerCookie: nat, innerStat: Stat, outerStat: Stat)
    returns (threw: bool)
    requires b.Valid() && side.watcher.events.Valid() && side.watcher == dest.watcher && side.tree == dest.tree
    requires innerCookie != outerCookie && !innerStat.OtherStat? && !outerStat.OtherStat?
    requires !b.IsMoving(side) && !b.IsMoving(dest)
    requires MoveKey(side.watcher, innerCookie) in b.pendingMoves &&
             MoveKey(side.watcher, outerCookie) in b.pendingMoves
    requires var inner := b.pendingMoves[MoveKey(side.watcher, innerCookie)];
             var outer := b.pendingMoves[MoveKey(side.watcher, outerCookie)];
             && inner.subscriptions <= outer.subscriptions && dest !in outer.subscriptions
             && forall s :: s in outer.subscriptions ==> |outer.path| <= |s.path|
    modifies b, side.tree`entries, side.watcher.events`events,
             b.pendingMoves[MoveKey(side.watcher, outerCookie)].subscriptions
    ensures b.Valid() && side.watcher.events.Valid() && b.State() == old(b.State())
    ensures var inner := old(b.pendingMoves[MoveKey(side.watcher, innerCookie)]);
            var outer := old(b.pendingMoves[MoveKey(side.watcher, outerCookie)]);
            var landed, target := old(side.path) + [SLASH] + newName, old(dest.path) + [SLASH] + destName;
            && (forall s :: s in outer.subscriptions - inner.subscriptions ==>
                s.path == Rebase(old(s.path), outer.path, landed))
            && (threw <==> exists s :: s in inner.subscriptions &&
                                       |Rebase(old(s.path), outer.path, landed)| < |inner.path|)
            && (!threw ==> forall s :: s in inner.subscriptions ==>
                  s.path == Rebase(Rebase(old(s.path), outer.path, landed), inner.path, target))
  {
    hide InotifyBackend.Valid;
    var stuck := Land(b, side, newName, outerCookie, outerStat);
    threw := Land(b, dest, destName, innerCookie, innerStat);
  }

  /** A directory is moved, and one above it is moved too, landing first. Both departures note the
      subscriptions at or below the inner one, and both landings rewrite them: the inner landing throws
      exactly if the outer one has made a path too short, and otherwise the path is right if and only if
      the outer directory went to a path of the same length. */
  method DeliverOverlapping(b: InotifyBackend, mid: Subscription, innerName: Text, top: Subscription, outerName: Text,
                            side: Subscription, newName: Text, dest: Subscription, destName: Text,
                            innerCookie: nat, outerCookie: nat, innerStat: Stat, outerStat: Stat)
    returns (threw: bool)
    requires CanOverlap(b, mid, top, top.path + [SLASH] + outerName, side, dest, innerCookie, outerCookie)
    requires !innerStat.OtherStat? && !outerStat.OtherStat?
    modifies b, mid.tree`entries, mid.watcher.events`events,
             b.SubscribedBelow(mid.watcher, top.path + [SLASH] + outerName)
    ensures b.Valid() && mid.watcher.events.Valid() && b.State() == old(b.State())
    ensures var inner, outer := old(mid.path) + [SLASH] + innerName, old(top.path) + [SLASH] + outerName;
            var landed, target := old(side.path) + [SLASH] + newName, old(dest.path) + [SLASH] + destName;
            var twice, once := old(b.SubscribedBelow(mid.watcher, inner)), old(b.SubscribedBelow(mid.watcher, outer));
            && twice <= once
            && (forall s :: s in once - twice ==>
                  |outer| <= |old(s.path)| && s.path == Rebase(old(s.path), outer, landed))
            && (forall s :: s in twice ==> |outer| <= |inner| <= |old(s.path)|)
            && (threw <==> exists s :: s in twice && |Rebase(old(s.path), outer, landed)| < |inner|)
            && (!threw ==> forall s :: s in twice ==>
                  (s.path == Rebase(old(s.path), inner, target) <==> |landed| == |outer|))
  {
    hide IsPathOrDescendant, IgnoresNothing;
    ghost var inner, outer := mid.path + [SLASH] + innerName, top.path + [SLASH] + outerName;
    ghost var landed := side.path + [SLASH] + newName;
    ghost var twice, once := b.SubscribedBelow(mid.watcher, inner), b.SubscribedBelow(mid.watcher, outer);
    Nested(b, mid, innerName, top, outerName);
    LeaveBoth(b, mid, innerName, top, outerName, side, dest, innerCookie, outerCookie);
    threw := LandOuterFirst(b, side, newName, dest, destName, innerCookie, outerCookie, innerStat, outerStat);
    forall s | s in twice { OverlapExact(old(s.path), outer, landed, inner, dest.path + [SLASH] + destName); }
  }

  /** Both landings, the inner one first. */
  method LandInnerFirst(b: InotifyBackend, side: Subscription, newName: Text, dest: Subscription, destName: Text,
                        innerCookie: nat, outerCookie: nat, innerStat: Stat, outerStat: Stat)
    returns (threw: bool)
    requires b.Valid() && side.watcher.events.Valid() && side.watcher == dest.watcher && side.tree == dest.tree
    requires innerCookie != outerCookie && !innerStat.OtherStat? && !outerStat.OtherStat?
    requires !b.IsMoving(side) && !b.IsMoving(dest)
    requires MoveKey(side.watcher, innerCookie) in b.pendingMoves &&
             MoveKey(side.watcher, outerCookie) in b.pendingMoves
    requires var inner := b.pendingMoves[MoveKey(side.watcher, innerCookie)];
             var outer := b.pendingMoves[MoveKey(side.watcher, outerCookie)];
             && inner.subscriptions <= outer.subscriptions && side !in outer.subscriptions
             && (forall s :: s in inner.subscriptions ==> |inner.path| <= |s.path|)
             && (forall s :: s in outer.subscriptions ==> |outer.path| <= |s.path|)
    modifies b, side.tree`entries, side.watcher.events`events,
             b.pendingMoves[MoveKey(side.watcher, outerCookie)].subscriptions
    ensures b.Valid() && side.watcher.events.Valid() && b.State() == old(b.State())
    ensures var inner := old(b.pendingMoves[MoveKey(side.watcher, innerCookie)]);
            var outer := old(b.pendingMoves[MoveKey(side.watcher, outerCookie)]);
            var landed, target := old(side.path) + [SLASH] + newName, old(dest.path) + [SLASH] + destName;
            && (threw <==> exists s :: s in inner.subscriptions &&
                                       |Rebase(old(s.path), inner.path, target)| < |outer.path|)
            && (!threw ==>
                  && (forall s :: s in outer.subscriptions - inner.subscriptions ==>
                        s.path == Rebase(old(s.path), outer.path, landed))
                  && (forall s :: s in inner.subscriptions ==>
                        s.path == Rebase(Rebase(old(s.path), inner.path, target), outer.path, landed)))
  {
    hide InotifyBackend.Valid;
    var stuck := Land(b, dest, destName, innerCookie, innerStat);
    threw := Land(b, side, newName, outerCookie, outerStat);
  }

  /** The same two moves, the inner one landing first. Its subscriptions are then where they belong, but the
      outer move still carries them: the outer landing throws exactly if one of them now has a path too
      short, and otherwise the path stays right if and only if it begins with where the outer directory went,
      byte for byte; it is no matter then how long the outer names are. */
  method DeliverInnerFirst(b: InotifyBackend, mid: Subscription, innerName: Text, top: Subscription, outerName: Text,
                           side: Subscription, newName: Text, dest: Subscription, destName: Text,
                           innerCookie: nat, outerCookie: nat, innerStat: Stat, outerStat: Stat)
    returns (threw: bool)
    requires CanOverlap(b, mid, top, top.path + [SLASH] + outerName, side, dest, innerCookie, outerCookie)
    requires !innerStat.OtherStat? && !outerStat.OtherStat?
    modifies b, mid.tree`entries, mid.watcher.events`events,
             b.SubscribedBelow(mid.watcher, top.path + [SLASH] + outerName)
    ensures b.Valid() && mid.watcher.events.Valid() && b.State() == old(b.State())
    ensures var inner, outer := old(mid.path) + [SLASH] + innerName, old(top.path) + [SLASH] + outerName;
            var landed, target := old(side.path) + [SLASH] + newName, old(dest.path) + [SLASH] + destName;
            var twice, once := old(b.SubscribedBelow(mid.watcher, inner)), old(b.SubscribedBelow(mid.watcher, outer));
            && twice <= once && (forall s :: s in twice ==> |outer| <= |inner| <= |old(s.path)|)
            && (forall s :: s in once ==> |outer| <= |old(s.path)|)
            && (threw <==> exists s :: s in twice && |Rebase(old(s.path), inner, target)| < |outer|)
            && (!threw ==> forall s :: s in once - twice ==> s.path == Rebase(old(s.path), outer, landed))
            && (!threw ==> forall s :: s in twice ==>
                  var right := Rebase(old(s.path), inner, target);
                  |outer| <= |right| && (s.path == right <==> right[..|outer|] == landed))
  {
    hide IsPathOrDescendant, IgnoresNothing;
    ghost var inner, outer := mid.path + [SLASH] + innerName, top.path + [SLASH] + outerName;
    ghost var landed := side.path + [SLASH] + newName;
    ghost var twice := b.SubscribedBelow(mid.watcher, inner);
    Nested(b, mid, innerName, top, outerName);
    LeaveBoth(b, mid, innerName, top, outerName, side, dest, innerCookie, outerCookie);
    threw := LandInnerFirst(b, side, newName, dest, destName, innerCookie, outerCookie, innerStat, outerStat);
    forall s | s in twice { OverlapInnerExact(old(s.path), outer, landed, inner, dest.path + [SLASH] + destName); }
  }

  /** The other departures: a directory departs, and then one below it, which only marks the first move. */
  method LeaveOuterFirst(b: InotifyBackend, mid: Subscription, innerName: Text, top: Subscription, outerName: Text,
                         side: Subscription, innerCookie: nat, outerCookie: nat)
    requires CanOverlap(b, mid, top, top.path + [SLASH] + outerName, side, side, innerCookie, outerCookie)
    requires IsSubscribed(b, mid) && MoveKey(mid.watcher, innerCookie) !in b.pendingMoves
    modifies b, mid.tree`entries, mid.watcher.events`events
    ensures b.Valid() && mid.watcher.events.Valid() && b.State() == old(b.State())
    ensures !b.IsMoving(side) && MoveKey(mid.watcher, innerCookie) !in b.pendingMoves
    ensures var key, outer := MoveKey(mid.watcher, outerCookie), top.path + [SLASH] + outerName;
            && key in b.pendingMoves && b.pendingMoves[key].path == outer && b.pendingMoves[key].suppressedEvents
            && b.pendingMoves[key].subscriptions == old(b.SubscribedBelow(mid.watcher, outer))
  {
    hide IsPathOrDescendant, IgnoresNothing, InotifyBackend.Valid;
    Nested(b, mid, innerName, top, outerName);
    ghost var key := MoveKey(mid.watcher, outerCookie);
    assert mid in b.SubscribedBelow(mid.watcher, top.path + [SLASH] + outerName);
    Leave(b, top, outerName, outerCookie);
    assert forall k :: k in b.pendingMoves && k.watcher == mid.watcher && k != key ==>
             !(b.pendingMoves[k].isDirectory && mid in b.pendingMoves[k].subscriptions);
    ghost var moves := b.pendingMoves;
    ghost var touched, entries;
    assert b.IsMoving(mid);
    touched, entries := b.MovedFrom(mid, innerName, innerCookie, true);
    forall k | k in b.pendingMoves
      ensures b.pendingMoves[k].subscriptions == moves[k].subscriptions && b.pendingMoves[k].path == moves[k].path
      ensures b.pendingMoves[k].isDirectory == moves[k].isDirectory
    {
      assert b.pendingMoves[k].(suppressedEvents := false) == moves[k].(suppressedEvents := false);
    }
  }

  /** Where the outer directory departs first, the inner subscriptions are in its move only, and as the inner
      departure has been seen in vain, the landing is due for a rescan. */
  method DeliverOuterDeparture(b: InotifyBackend, mid: Subscription, innerName: Text, top: Subscription,
                               outerName: Text, side: Subscription, newName: Text, innerCookie: nat, outerCookie: nat,
                               mtime: nat)
    returns (rescan: bool)
    requires CanOverlap(b, mid, top, top.path + [SLASH] + outerName, side, side, innerCookie, outerCookie)
    requires IsSubscribed(b, mid) && MoveKey(mid.watcher, innerCookie) !in b.pendingMoves
    modifies b, mid.tree`entries, mid.watcher.events`events,
             b.SubscribedBelow(mid.watcher, top.path + [SLASH] + outerName)
    ensures b.Valid() && mid.watcher.events.Valid() && b.State() == old(b.State())
    ensures rescan && MoveKey(mid.watcher, innerCookie) !in b.pendingMoves
    ensures var outer, landed := old(top.path) + [SLASH] + outerName, old(side.path) + [SLASH] + newName;
            forall s :: s in old(b.SubscribedBelow(mid.watcher, outer)) ==>
              |outer| <= |old(s.path)| && s.path == Rebase(old(s.path), outer, landed)
  {
    hide IsPathOrDescendant, InotifyBackend.Valid, Settled, SettledLog, Landed, IsListening;
    Nested(b, mid, innerName, top, outerName);
    ghost var before := b.State();
    LeaveOuterFirst(b, mid, innerName, top, outerName, side, innerCookie, outerCookie);
    var threw: bool;
    ghost var others, gone;
    threw, rescan, others, gone := b.MovedTo(side, side.path + [SLASH] + newName, outerCookie, DirStat(mtime));
    RemoveNone(before);
  }

  /** The subscriptions of a watcher that some pending move of a directory carries. */
  ghost function OnTheMove(b: InotifyBackend, w: Watcher): set<Subscription>
    reads b
  {
    set k, s | k in b.pendingMoves && k.watcher == w && b.pendingMoves[k].isDirectory
               && s in b.pendingMoves[k].subscriptions :: s
  }

  /** The directory of a pending move can arrive, and none of its subscriptions is too short. */
  ghost predicate CanLand(b: InotifyBackend, w: Watcher, tree: DirTree, hop: Hop)
    reads b, hop.to, OnTheMove(b, w)
  {
    var key := MoveKey(w, hop.cookie);
    && hop.to.watcher == w && hop.to.tree == tree && !hop.stat.OtherStat? && hop.to !in OnTheMove(b, w)
    && key in b.pendingMoves && b.pendingMoves[key].isDirectory
    && forall s :: s in b.pendingMoves[key].subscriptions ==> |b.pendingMoves[key].path| <= |s.path|
  }

  /** The same, and the target is as long as the source, which is no longer than `n`. */
  ghost predicate CanLandSame(b: InotifyBackend, w: Watcher, tree: DirTree, hop: Hop, n: nat)
    reads b, hop.to, OnTheMove(b, w)
  {
    CanLand(b, w, tree, hop) && |b.pendingMoves[MoveKey(w, hop.cookie)].path| == |Target(hop)| <= n
  }

  /** Such a landing changes no length and nothing behind the first `n` bytes. */
  method LandSame(b: InotifyBackend, w: Watcher, tree: DirTree, hop: Hop, ghost n: nat)
    requires b.Valid() && w.events.Valid() && CanLandSame(b, w, tree, hop, n)
    modifies b, tree`entries, w.events`events, OnTheMove(b, w)
    ensures b.Valid() && w.events.Valid() && b.State() == old(b.State())
    ensures b.pendingMoves == old(b.pendingMoves) - {MoveKey(w, hop.cookie)}
    ensures forall s :: s in old(OnTheMove(b, w)) ==>
              |s.path| == |old(s.path)| && (n <= |s.path| ==> s.path[n..] == old(s.path)[n..])
  {
    hide InotifyBackend.Valid;
    ghost var move := b.pendingMoves[MoveKey(w, hop.cookie)];
    assert !b.IsMoving(hop.to);
    assert move.subscriptions <= OnTheMove(b, w);
    var stuck := Land(b, hop.to, hop.name, hop.cookie, hop.stat);
    forall s | s in old(OnTheMove(b, w))
      ensures |s.path| == |old(s.path)| && (n <= |s.path| ==> s.path[n..] == old(s.path)[n..])
    {
      if s in move.subscriptions {
        assert s.path == old(Target(hop)) + old(s.path)[|move.path|..];
      }
    }
  }

  /** It leaves the landings still to come possible. */
  method LandAndWait(b: InotifyBackend, w: Watcher, tree: DirTree, hop: Hop, ghost rest: seq<Hop>, ghost last: Hop,
                     ghost n: nat)
    requires b.Valid() && w.events.Valid() && CanLandSame(b, w, tree, hop, n)
    requires CanLand(b, w, tree, last) && last.cookie != hop.cookie
    requires forall i :: 0 <= i < |rest| ==> CanLandSame(b, w, tree, rest[i], n) && rest[i].cookie != hop.cookie
    modifies b, tree`entries, w.events`events, OnTheMove(b, w)
    ensures b.Valid() && w.events.Valid() && b.State() == old(b.State())
    ensures b.pendingMoves == old(b.pendingMoves) - {MoveKey(w, hop.cookie)}
    ensures OnTheMove(b, w) <= old(OnTheMove(b, w)) && CanLand(b, w, tree, last)
    ensures forall i :: 0 <= i < |rest| ==> CanLandSame(b, w, tree, rest[i], n)
    ensures forall s :: s in old(OnTheMove(b, w)) ==>
              |s.path| == |old(s.path)| && (n <= |s.path| ==> s.path[n..] == old(s.path)[n..])
  {
    hide InotifyBackend.Valid;
    LandSame(b, w, tree, hop, n);
    assert OnTheMove(b, w) <= old(OnTheMove(b, w));
    assert old(b.pendingMoves)[MoveKey(w, last.cookie)].subscriptions <= old(OnTheMove(b, w));
    forall i | 0 <= i < |rest|
      ensures CanLandSame(b, w, tree, rest[i], n)
    {
      assert old(b.pendingMoves)[MoveKey(w, rest[i].cookie)].subscriptions <= old(OnTheMove(b, w));
    }
  }

  /** However many other moves land first, in whatever order, each at a path of the length of its source:
      nothing throws, and the subscriptions of the last move come out right, as long as no other source is
      longer than its own. */
  method DeliverSameLength(b: InotifyBackend, w: Watcher, tree: DirTree, others: seq<Hop>, hop: Hop)
    returns (threw: bool)
    requires b.Valid() && w.events.Valid() && CanLand(b, w, tree, hop)
    requires forall i :: 0 <= i < |others| ==>
               && CanLandSame(b, w, tree, others[i], |b.pendingMoves[MoveKey(w, hop.cookie)].path|)
               && others[i].cookie != hop.cookie
    requires forall i, j :: 0 <= i < j < |others| ==> others[i].cookie != others[j].cookie
    modifies b, tree`entries, w.events`events, OnTheMove(b, w)
    ensures b.Valid() && w.events.Valid() && b.State() == old(b.State()) && !threw
    ensures var move := old(b.pendingMoves)[MoveKey(w, hop.cookie)];
            forall s :: s in move.subscriptions ==>
              |move.path| <= |old(s.path)| && s.path == Rebase(old(s.path), move.path, old(Target(hop)))
  {
    hide InotifyBackend.Valid, CanLandSame;
    ghost var carried, key := OnTheMove(b, w), MoveKey(w, hop.cookie);
    ghost var move := b.pendingMoves[key];
    ghost var n := |move.path|;
    assert move.subscriptions <= carried;
    for i := 0 to |others|
      invariant b.Valid() && w.events.Valid() && b.State() == old(b.State())
      invariant CanLand(b, w, tree, hop) && OnTheMove(b, w) <= carried && b.pendingMoves[key] == move
      invariant hop.to.path == old(hop.to.path)
      invariant forall j :: i <= j < |others| ==> CanLandSame(b, w, tree, others[j], n)
      invariant forall s :: s in move.subscriptions ==>
                  |s.path| == |old(s.path)| && s.path[n..] == old(s.path)[n..]
    {
      LandAndWait(b, w, tree, others[i], others[i + 1..], hop, n);
    }
    threw := Land(b, hop.to, hop.name, hop.cookie, hop.stat);
  }

  // Below a watched `/w`: `/w/long` with `/w/long/b`, and `/w/d`.
  const TOP: Text := [SLASH, 119]
  const LONG: Text := [108, 111, 110, 103]
  const MID: Text := TOP + [SLASH] + LONG
  const INNER: Text := MID + [SLASH, 98]
  const DEST: Text := TOP + [SLASH, 100]

  method MakeTree() returns (tree: DirTree)
    ensures fresh(tree) && tree.entries.Keys == {TOP, MID, INNER, DEST}
    ensures forall p :: p in tree.entries ==> tree.entries[p].isDir
  {
    tree := new DirTree(TOP);
    tree.Add(TOP, 0, true);
    tree.Add(MID, 0, true);
    tree.Add(INNER, 0, true);
    tree.Add(DEST, 0, true);
  }

  function Watched<S>(a: S, b: S, c: S, d: S): seq<Tracked<S>> {
    [Tracked(1, a), Tracked(2, b), Tracked(3, c), Tracked(4, d)]
  }

  lemma WatchedAccounted<S>(a: S, b: S, c: S, d: S)
    ensures var w := Watches(Watched(a, b, c, d), {1, 2, 3, 4}, {});
            Accounted(w) && NoRepeats(w.entries)
  {
    var entries := Watched(a, b, c, d);
    assert entries[0].wd == 1 && entries[1].wd == 2 && entries[2].wd == 3 && entries[3].wd == 4;
    assert Descriptors(entries) == {1, 2, 3, 4};
  }

  /** The watcher of `/w` with its four directories, one watch each. */
  method MakeWatched(tree: DirTree)
    returns (b: InotifyBackend, w: Watcher, top: Subscription, mid: Subscription, inner: Subscription,
             dest: Subscription)
    ensures b.Valid() && b.pendingMoves == map[] && fresh(b) && w.events.Valid() && fresh(w.events) && w.dir == TOP
    ensures IgnoresNothing(w) && w.events.events == map[]
    ensures fresh(top) && fresh(mid) && fresh(inner) && fresh(dest)
    ensures top.watcher == mid.watcher == inner.watcher == dest.watcher == w
    ensures top.tree == mid.tree == inner.tree == dest.tree == tree
    ensures top.path == TOP && mid.path == MID && inner.path == INNER && dest.path == DEST
    ensures b.subscriptions == Watched(top, mid, inner, dest)
  {
    hide Accounted, NoRepeats, Watched;
    var events := new EventList();
    w := new Watcher(TOP, events, _ => false, false);
    top := new Subscription(tree, w, TOP);
    mid := new Subscription(tree, w, MID);
    inner := new Subscription(tree, w, INNER);
    dest := new Subscription(tree, w, DEST);
    b := new InotifyBackend();
    WatchedAccounted(top, mid, inner, dest);
    b.subscriptions, b.live := Watched(top, mid, inner, dest), {1, 2, 3, 4};
  }

  lemma WatchedPaths()
    ensures |TOP| == 2 && |MID| == 7 && |INNER| == 9 && |DEST| == 4
    ensures IsDescendant(INNER, MID) && INNER == MID + [SLASH] + [98] && MID == TOP + [SLASH] + LONG
    ensures IsPathOrDescendant(MID, MID) && !IsPathOrDescendant(TOP, MID) && !IsPathOrDescendant(DEST, MID)
    ensures !IsPathOrDescendant(TOP, DEST)
    ensures !IsPathOrDescendant(MID, INNER) && !IsPathOrDescendant(DEST, INNER) && !IsPathOrDescendant(TOP, INNER)
  {
    assert DEST[3] == 100 && MID[3] == 108;
  }

  /** The one subscription at or below `/w/long/b`. */
  lemma InnerOnly(b: InotifyBackend, top: Subscription, mid: Subscription, inner: Subscription, dest: Subscription)
    requires b.subscriptions == Watched(top, mid, inner, dest)
    requires top.path == TOP && mid.path == MID && inner.path == INNER && dest.path == DEST
    ensures b.SubscribedBelow(inner.watcher, INNER) == {inner}
  {
    WatchedPaths();
    assert b.subscriptions[2].sub == inner;
  }

  /** It happens: while `/w/long/b` is on its way to `/w/d/c`, `/w/long` is renamed, and lands first. A shorter
      name makes the second landing throw, a longer one leaves the subscription of `/w/d/c` at another path. */
  method OverlapHappens(newName: Text) returns (threw: bool, moved: Subscription)
    ensures threw <==> |newName| < |LONG|
    ensures !threw ==> (moved.path == DEST + [SLASH] + [99] <==> |newName| == |LONG|)
  {
    hide InotifyBackend.Valid, Watched, IsPathOrDescendant;
    WatchedPaths();
    var tree := MakeTree();
    var b, w, top, mid, dest;
    b, w, top, mid, moved, dest := MakeWatched(tree);
    InnerOnly(b, top, mid, moved, dest);
    threw := DeliverOverlapping(b, mid, [98], top, LONG, top, newName, dest, [99], 1, 2, DirStat(0), DirStat(0));
  }

  /** It happens in the other order too: `/w/long/b` lands in `/w/d` before `/w/long` lands in `/w`. A name of
      less than two bytes in `/w/d` makes the second landing throw, any other leaves the subscription at
      another path, whatever `/w/long` is called now. */
  method OverlapInnerHappens(newName: Text, destName: Text) returns (threw: bool, moved: Subscription)
    requires SLASH !in newName
    ensures threw <==> |destName| < 2
    ensures !threw ==> moved.path != DEST + [SLASH] + destName
  {
    hide InotifyBackend.Valid, Watched, IsPathOrDescendant;
    WatchedPaths();
    var tree := MakeTree();
    var b, w, top, mid, dest;
    b, w, top, mid, moved, dest := MakeWatched(tree);
    InnerOnly(b, top, mid, moved, dest);
    threw := DeliverInnerFirst(b, mid, [98], top, LONG, top, newName, dest, destName, 1, 2, DirStat(0), DirStat(0));
    ElsewhereBelow(newName, destName);
  }

  lemma ElsewhereBelow(newName: Text, destName: Text)
    requires SLASH !in newName
    ensures Rebase(INNER, INNER, DEST + [SLASH] + destName) == DEST + [SLASH] + destName
    ensures |destName| >= 2 ==> (DEST + [SLASH] + destName)[..|MID|] != TOP + [SLASH] + newName
  {
    if |destName| >= 2 {
      var there, renamed := (DEST + [SLASH] + destName)[..|MID|], TOP + [SLASH] + newName;
      assert there[4] == SLASH;
      assert |renamed| == |there| ==> renamed[4] == newName[1];
    }
  }

  // ------------------------------------------------------------ chains of moves

  /** A directory of this watcher and tree that takes part in the chain. */
  ghost predicate TakesPart(b: InotifyBackend, w: Watcher, tree: DirTree, sub: Subscription)
    reads b, sub
  {
    sub.watcher == w && sub.tree == tree && IsSubscribed(b, sub) && IsListening(b, sub)
  }

  /** Where the subscriptions of a watcher are. */
  function PathsOf(b: InotifyBackend, w: Watcher): map<Subscription, Text>
    reads b, set e | e in b.subscriptions :: e.sub
  {
    map s | s in (set e | e in b.subscriptions && e.sub.watcher == w :: e.sub) :: s.path
  }

  /** Where they are once a directory is carried. */
  function AllCarried(paths: map<Subscription, Text>, source: Text, target: Text): map<Subscription, Text> {
    map s | s in paths :: Carried(paths[s], source, target)
  }

  /** The hops can be made: each leads to a place apart from the first and from the one before, with nothing
      indexed or subscribed there, and `lstat` fails or shows a directory. */
  ghost predicate CanHop(paths: map<Subscription, Text>, m: Tree, first: Text, hops: seq<Hop>, places: seq<Text>) {
    && |places| == |hops|
    && (forall i :: 0 <= i < |hops| ==>
          && hops[i].cookie != 0 && (hops[i].stat.NoStat? || hops[i].stat.DirStat?) && IsOpen(m, [], first, places[i])
          && (forall s :: s in paths ==> !IsPathOrDescendant(paths[s], places[i])))
    && (forall i :: 0 < i < |hops| ==> Unnested(places[i - 1], places[i]))
  }

  /** The directories the hops go to take part, and are where they were and where the hops need them. */
  ghost predicate AreThere(b: InotifyBackend, w: Watcher, tree: DirTree, paths: map<Subscription, Text>, hops: seq<Hop>,
                           places: seq<Text>)
    requires |places| == |hops|
    reads b, set i | 0 <= i < |hops| :: hops[i].to
  {
    forall i :: 0 <= i < |hops| ==> IsThere(b, w, tree, paths, hops[i], places[i])
  }

  ghost predicate IsThere(b: InotifyBackend, w: Watcher, tree: DirTree, paths: map<Subscription, Text>, hop: Hop,
                          place: Text)
    reads b, hop.to
  {
    TakesPart(b, w, tree, hop.to) && hop.to in paths && paths[hop.to] == hop.to.path && Target(hop) == place
  }

  lemma CarriedTwice(m: Tree, p: Text, first: Text, now: Text, target: Text)
    requires IsOpen(m, [], first, now) && !IsPathOrDescendant(p, now)
    ensures Carried(Carried(p, first, now), now, target) == Carried(p, first, target)
  {
    PathsMove(m, [p], first, now, target);
    assert CarriedAll(CarriedAll([p], first, now), now, target)[0] == CarriedAll([p], first, target)[0];
  }

  /** The parent of a place apart from `first` is not at or below `first`. */
  lemma ParentApart(first: Text, dir: Text, name: Text)
    requires Unnested(first, dir + [SLASH] + name)
    ensures !IsPathOrDescendant(dir, first)
  {
    var place := dir + [SLASH] + name;
    assert place[..|dir|] == dir;
    if IsPathOrDescendant(dir, first) {
      DescendantTransitive(place, dir, first);
    }
  }

  /** One hop, from the place `name` in `from`. */
  method Carry(b: InotifyBackend, from: Subscription, name: Text, hop: Hop) returns (ghost leg: Leg)
    requires b.Valid() && from.watcher.events.Valid() && IgnoresNothing(from.watcher)
    requires IsListening(b, from) && TakesPart(b, from.watcher, from.tree, hop.to)
    requires hop.cookie != 0 && !hop.stat.OtherStat? && Unnested(from.path + [SLASH] + name, Target(hop))
    modifies b, from.tree`entries, from.watcher.events`events,
             b.SubscribedBelow(from.watcher, from.path + [SLASH] + name)
    ensures b.Valid() && from.watcher.events.Valid() && b.State() == old(b.State())
    ensures b.pendingMoves == old(b.pendingMoves) - {MoveKey(from.watcher, hop.cookie)}
    ensures var source := old(from.path) + [SLASH] + name;
            var s := Standing(old(from.tree.entries), old(from.watcher.events.events), []);
            && leg == Leg(old(Target(hop)), hop.cookie, hop.stat, leg.entries)
            && AllAtLeast(leg.entries, |source|) && ListsSubtree(leg.entries, s.tree, source)
            && Standing(from.tree.entries, from.watcher.events.events, []) == MoveOnce(s, source, leg)
            && PathsOf(b, from.watcher) == AllCarried(old(PathsOf(b, from.watcher)), source, old(Target(hop)))
  {
    hide ListsSubtree, MoveOnce, Unnested, IgnoresNothing, Carried, AllAtLeast, IsPathOrDescendant;
    ParentApart(from.path + [SLASH] + name, hop.to.path, hop.name);
    assert !from.watcher.hasIgnores && forall t :: !from.watcher.ignores(t) by { IgnoresNone(from.watcher); }
    leg := b.DeliverMove(from, name, hop.to, hop.name, hop.cookie, true, hop.stat);
    NoPaths(Standing(old(from.tree.entries), old(from.watcher.events.events), []), old(from.path) + [SLASH] + name,
            leg);
  }

  lemma IgnoresNone(w: Watcher)
    requires IgnoresNothing(w)
    ensures !w.hasIgnores && forall t :: !w.ignores(t)
  {}

  lemma NoPaths(s: Standing, source: Text, leg: Leg)
    requires AllAtLeast(leg.entries, |source|) && s.paths == []
    ensures MoveOnce(s, source, leg).paths == []
  {}

  /** The watcher of the tree and the log stands at `now`. */
  ghost predicate IsAt(tree: DirTree, w: Watcher, m: Tree, first: Text, cookie: nat, now: Text)
    reads tree, w.events
  {
    StandsAt(Standing(tree.entries, w.events.events, []), m, [], first, cookie, now)
  }

  /** After some hops: the tree and the log, the subscriptions, and the directories still to be visited. */
  ghost predicate IsUnderway(b: InotifyBackend, w: Watcher, tree: DirTree, hops: seq<Hop>, places: seq<Text>, m: Tree,
                             first: Text, paths: map<Subscription, Text>, done: nat)
    requires |places| == |hops| && 0 < done <= |hops|
    reads b, tree, w.events, set e | e in b.subscriptions :: e.sub, set i | 0 <= i < |hops| :: hops[i].to
  {
    && b.Valid() && w.events.Valid()
    && IsAt(tree, w, m, first, hops[0].cookie, places[done - 1])
    && PathsOf(b, w) == AllCarried(paths, first, places[done - 1])
    && AreThere(b, w, tree, paths, hops, places)
  }

  /** A hop leaves the directories outside the moved one where they are, listening. */
  method CarryAndStay(b: InotifyBackend, from: Subscription, name: Text, hop: Hop, ghost hops: seq<Hop>,
                      ghost places: seq<Text>, ghost paths: map<Subscription, Text>)
    returns (ghost leg: Leg)
    requires b.Valid() && from.watcher.events.Valid() && IgnoresNothing(from.watcher)
    requires IsListening(b, from) && TakesPart(b, from.watcher, from.tree, hop.to)
    requires hop.cookie != 0 && !hop.stat.OtherStat? && Unnested(from.path + [SLASH] + name, Target(hop))
    requires |places| == |hops| && AreThere(b, from.watcher, from.tree, paths, hops, places)
    requires forall i :: 0 <= i < |hops| ==> !IsPathOrDescendant(hops[i].to.path, from.path + [SLASH] + name)
    modifies b, from.tree`entries, from.watcher.events`events,
             b.SubscribedBelow(from.watcher, from.path + [SLASH] + name)
    ensures b.Valid() && from.watcher.events.Valid() && b.State() == old(b.State())
    ensures AreThere(b, from.watcher, from.tree, paths, hops, places)
    ensures var source := old(from.path) + [SLASH] + name;
            var s := Standing(old(from.tree.entries), old(from.watcher.events.events), []);
            && leg == Leg(old(Target(hop)), hop.cookie, hop.stat, leg.entries)
            && AllAtLeast(leg.entries, |source|) && ListsSubtree(leg.entries, s.tree, source)
            && Standing(from.tree.entries, from.watcher.events.events, []) == MoveOnce(s, source, leg)
            && PathsOf(b, from.watcher) == AllCarried(old(PathsOf(b, from.watcher)), source, old(Target(hop)))
  {
    hide ListsSubtree, MoveOnce, Unnested, IgnoresNothing, Carried, AllAtLeast, IsPathOrDescendant,
         InotifyBackend.Valid;
    leg := Carry(b, from, name, hop);
    forall i | 0 <= i < |hops|
      ensures IsThere(b, from.watcher, from.tree, paths, hops[i], places[i])
    {
      assert old(IsThere(b, from.watcher, from.tree, paths, hops[i], places[i]));
      assert hops[i].to !in old(b.SubscribedBelow(from.watcher, from.path + [SLASH] + name));
    }
  }

  lemma CarriedOn(m: Tree, paths: map<Subscription, Text>, first: Text, now: Text, target: Text)
    requires IsOpen(m, [], first, now) && forall s :: s in paths ==> !IsPathOrDescendant(paths[s], now)
    ensures AllCarried(AllCarried(paths, first, now), now, target) == AllCarried(paths, first, target)
  {
    hide Carried, IsOpen, IsPathOrDescendant;
    forall s | s in paths
      ensures Carried(Carried(paths[s], first, now), now, target) == Carried(paths[s], first, target)
    {
      CarriedTwice(m, paths[s], first, now, target);
    }
  }

  /** The first hop, from the directory `from`. */
  method FirstHop(b: InotifyBackend, from: Subscription, name: Text, hops: seq<Hop>, ghost places: seq<Text>)
    requires b.Valid() && from.watcher.events.Valid() && from.watcher.events.events == map[] &&
             IgnoresNothing(from.watcher)
    requires var first, paths := from.path + [SLASH] + name, PathsOf(b, from.watcher);
             && first in from.tree.entries && from.tree.entries[first].isDir && hops != []
             && CanHop(paths, from.tree.entries, first, hops, places) &&
                AreThere(b, from.watcher, from.tree, paths, hops, places)
    requires IsListening(b, from)
    modifies b, from.tree`entries, from.watcher.events`events,
             b.SubscribedBelow(from.watcher, from.path + [SLASH] + name)
    ensures IsUnderway(b, from.watcher, from.tree, hops, places, old(from.tree.entries),
                       old(from.path) + [SLASH] + name,
                       old(PathsOf(b, from.watcher)), 1)
    ensures b.State() == old(b.State())
  {
    hide StandsAt, ListsSubtree, MoveOnce, Unnested, IsPathOrDescendant, IsListening, InotifyBackend.Valid, AllCarried,
         IsSubscribed;
    ghost var first, m, paths := from.path + [SLASH] + name, from.tree.entries, PathsOf(b, from.watcher);
    forall i | 0 <= i < |hops|
      ensures !IsPathOrDescendant(hops[i].to.path, first)
    {
      assert IsThere(b, from.watcher, from.tree, paths, hops[i], places[i]);
      OpenApart(m, first, places[i]);
      ParentApart(first, hops[i].to.path, hops[i].name);
    }
    OpenApart(m, first, places[0]);
    assert IsThere(b, from.watcher, from.tree, paths, hops[0], places[0]);
    ghost var leg := CarryAndStay(b, from, name, hops[0], hops, places, paths);
    FirstLeg(m, [], first, leg);
  }

  lemma OpenApart(m: Tree, first: Text, place: Text)
    requires IsOpen(m, [], first, place)
    ensures Unnested(first, place)
  {}

  /** One more hop, from where the last one led. */
  method NextHop(b: InotifyBackend, w: Watcher, tree: DirTree, hops: seq<Hop>, i: nat, ghost places: seq<Text>,
                 ghost m: Tree, ghost first: Text, ghost paths: map<Subscription, Text>)
    requires 0 < i < |hops| && CanHop(paths, m, first, hops, places) && IgnoresNothing(w)
    requires first in m && m[first].isDir && IsUnderway(b, w, tree, hops, places, m, first, paths, i)
    modifies b, tree`entries, w.events`events, b.SubscribedBelow(w, Target(hops[i - 1]))
    ensures IsUnderway(b, w, tree, hops, places, m, first, paths, i + 1) && b.State() == old(b.State())
  {
    hide StandsAt, ListsSubtree, MoveOnce, Unnested, IsPathOrDescendant, IsListening, InotifyBackend.Valid, AllCarried,
         IsSubscribed, IsOpen;
    ghost var now := places[i - 1];
    assert IsThere(b, w, tree, paths, hops[i - 1], now) && IsThere(b, w, tree, paths, hops[i], places[i]);
    forall j | 0 <= j < |hops|
      ensures !IsPathOrDescendant(hops[j].to.path, now)
    {
      assert IsThere(b, w, tree, paths, hops[j], places[j]);
    }
    ghost var s := Standing(tree.entries, w.events.events, []);
    ghost var leg := CarryAndStay(b, hops[i - 1].to, hops[i - 1].name, hops[i], hops, places, paths);
    NextLeg(s, m, [], first, hops[0].cookie, now, leg);
    CarriedOn(m, paths, first, now, places[i]);
  }

  /** A directory is moved again and again, each move arriving before the next departs. Afterwards the tree
      is as if it had gone straight to the last place, every subscription has been carried there, and the
      one batch pairs each original entry with its final place under an id of its own, and has nothing else. */
  method DeliverChain(b: InotifyBackend, from: Subscription, name: Text, hops: seq<Hop>, ghost places: seq<Text>)
    returns (batch: EventBatch)
    requires b.Valid() && from.watcher.events.Valid() && from.watcher.events.events == map[] &&
             IgnoresNothing(from.watcher)
    requires var first, paths := from.path + [SLASH] + name, PathsOf(b, from.watcher);
             && first in from.tree.entries && from.tree.entries[first].isDir && hops != []
             && CanHop(paths, from.tree.entries, first, hops, places) &&
                AreThere(b, from.watcher, from.tree, paths, hops, places)
    requires IsListening(b, from)
    modifies b, from.tree`entries, from.watcher.events, PathsOf(b, from.watcher).Keys
    ensures b.Valid() && b.State() == old(b.State())
    ensures var first, last, m := old(from.path) + [SLASH] + name, places[|places| - 1], old(from.tree.entries);
            && NowAt(from.tree.entries, m, first, last)
            && PathsOf(b, from.watcher) == AllCarried(old(PathsOf(b, from.watcher)), first, last)
            && exists log :: Lists(batch.events, log) && Tracks(log, m, first, hops[0].cookie, AllAt(m, first, last))
  {
    hide IsOpen, Unnested, AreThere, IsListening, InotifyBackend.Valid, AllCarried, Tracks, NowAt, Lists,
         IgnoresNothing;
    ghost var first, m, paths := from.path + [SLASH] + name, from.tree.entries, PathsOf(b, from.watcher);
    var w, tree := from.watcher, from.tree;
    FirstHop(b, from, name, hops, places);
    var i := 1;
    while i < |hops|
      invariant 0 < i <= |hops| && IsUnderway(b, w, tree, hops, places, m, first, paths, i) &&
                b.State() == old(b.State())
    {
      NextHop(b, w, tree, hops, i, places, m, first, paths);
      i := i + 1;
    }
    ghost var log := w.events.events;
    batch := w.events.Drain();
    TrackedDrained(log, m, first, hops[0].cookie, AllAt(m, first, places[|places| - 1]));
  }
}
