/** The inotify backend's subscriptions and pending moves. */
module Inotify {
  import opened Bytes
  import opened Options
  import opened Decimal
  import opened EventLog
  import opened EventLists
  import opened Subtrees
  import opened DirTrees
  import opened InotifyMoves
  import opened InotifyWatches

  class Watcher {
    const dir: Text
    const events: EventList
    /** `isIgnored`, as a fixed function of the path. */
    const ignores: Text -> bool
    /** Whether there are ignored paths or globs at all. */
    const hasIgnores: bool

    constructor (dir: Text, events: EventList, ignores: Text -> bool, hasIgnores: bool)
      ensures this.dir == dir && this.events == events && this.ignores == ignores && this.hasIgnores == hasIgnores
    {
      this.dir, this.events, this.ignores, this.hasIgnores := dir, events, ignores, hasIgnores;
    }
  }

  class Subscription {
    const tree: DirTree
    const watcher: Watcher
    var path: Text

    constructor (tree: DirTree, watcher: Watcher, path: Text)
      ensures this.tree == tree && this.watcher == watcher && this.path == path
    {
      this.tree, this.watcher, this.path := tree, watcher, path;
    }
  }

  datatype MoveKey = MoveKey(watcher: Watcher, cookie: nat)

  datatype PendingMove = PendingMove(tree: DirTree, path: Text, isDirectory: bool, entries: seq<DirEntry>,
                                     subscriptions: set<Subscription>, suppressedEvents: bool)

  type Entry = Tracked<Subscription>

  class InotifyBackend {
    var subscriptions: seq<Entry>
    var pendingMoves: map<MoveKey, PendingMove>
    /** The kernel's side: the watches of this inotify instance, and those it dropped by itself. */
    var live: set<int>
    var dropped: set<int>

    function State(): Watches<Subscription>
      reads this
    {
      Watches(subscriptions, live, dropped)
    }

    ghost predicate Valid()
      reads this
    {
      Accounted(State()) && NoRepeats(subscriptions) && PendingOk()
    }

    /** Departed entries lie at or below the path they departed from. */
    ghost predicate PendingOk()
      reads this
    {
      forall k :: k in pendingMoves ==> AllAtLeast(pendingMoves[k].entries, |pendingMoves[k].path|)
    }

    constructor ()
      ensures Valid() && subscriptions == [] && pendingMoves == map[] && live == {} && dropped == {}
    {
      subscriptions, pendingMoves, live, dropped := [], map[], {}, {};
    }

    /** A watcher's entries for one path. */
    function Same(watcher: Watcher, path: Text): set<Subscription>
      reads this, set e | e in subscriptions :: e.sub
    {
      set e | e in subscriptions && e.sub.watcher == watcher && e.sub.path == path :: e.sub
    }

    /** A watcher's entries at or below a path; all of them, for the path it watches. */
    function AtOrBelow(watcher: Watcher, path: Text): set<Entry>
      reads this, set e | e in subscriptions :: e.sub
    {
      set e | e in subscriptions && e.sub.watcher == watcher
              && (path == watcher.dir || IsPathOrDescendant(e.sub.path, path))
    }

    function Mine(watcher: Watcher): set<Entry>
      reads this
    {
      set e | e in subscriptions && e.sub.watcher == watcher
    }

    // ---------------------------------------------------------- watches

    /** The erasing loop that every removal shares, and the release of the watches it leaves unused. */
    method Sweep(gone: set<Entry>)
      requires NoRepeats(subscriptions)
      modifies this`subscriptions, this`live
      ensures State() == RemoveAll(old(State()), gone) && NoRepeats(subscriptions)
    {
      hide Kept, CountOf;
      ghost var before := State();
      var released := EraseAll(gone);
      ghost var watches := live;
      ghost var done: set<int> := {};
      while released != {}
        invariant subscriptions == Kept(before.entries, gone) && dropped == before.dropped
        invariant done + released == Removed(before.entries, gone) && done !! released
        invariant live == watches - (done - Descriptors(subscriptions))
        decreases released
      {
        var descriptor :| descriptor in released;
        CountZero(subscriptions, descriptor);
        if CountOf(subscriptions, descriptor) == 0 {
          live := live - {descriptor};
        }
        done, released := done + {descriptor}, released - {descriptor};
      }
      RemovedDescriptors(before.entries, gone);
      KeptNoRepeats(before.entries, gone);
    }

    method EraseAll(gone: set<Entry>) returns (released: set<int>)
      requires NoRepeats(subscriptions)
      modifies this`subscriptions
      ensures subscriptions == Kept(old(subscriptions), gone)
      ensures released == Removed(old(subscriptions), gone)
    {
      hide Kept;
      ghost var before, erased: set<Entry> := subscriptions, {};
      released := {};
      KeptAll(before, {});
      var i := 0;
      while i < |subscriptions|
        invariant i <= |subscriptions| && NoRepeats(subscriptions)
        invariant subscriptions == Kept(before, erased)
        invariant forall e :: e in erased ==> e in before && e in gone
        invariant forall j :: 0 <= j < i ==> subscriptions[j] !in gone
        invariant released == set e | e in erased :: e.wd
        decreases |subscriptions| - i
      {
        var e := subscriptions[i];
        if e in gone {
          ErasedKept(subscriptions, i);
          KeptTwice(before, erased, {e});
          KeptNoRepeats(before, erased + {e});
          released := released + {e.wd};
          erased := erased + {e};
          subscriptions := subscriptions[..i] + subscriptions[i + 1..];
        } else {
          i := i + 1;
        }
      }
      KeptAll(subscriptions, gone);
      KeptTwice(before, erased, gone);
      assert erased + gone == gone;
      forall e | e in before && e in gone
        ensures e in erased
      {
        assert e !in Kept(before, erased);
      }
    }

    /** What `watchDir` does to the multimap. */
    method TrackDir(watcher: Watcher, path: Text, tree: DirTree, added: Option<int>)
      returns (watching: bool, ghost sub: Option<Subscription>)
      requires Valid()
      modifies this`subscriptions, this`live, this`dropped
      ensures Valid() && watching == added.Some? == sub.Some?
      ensures added.None? ==> State() == old(State())
      ensures added.Some? ==>
                && State() == AddWatch(old(State()), added.value, old(Same(watcher, path)), sub.value)
                && ((exists e :: e in old(subscriptions) && e.sub == sub.value && e.sub in old(Same(watcher, path)))
                    || (fresh(sub.value) && sub.value.watcher == watcher && sub.value.path == path &&
                        sub.value.tree == tree))
    {
      hide Kept, RemoveAll, Accounted;
      if added.None? {
        return false, None;
      }
      var wd := added.value;
      ghost var before := State();
      ghost var same := Same(watcher, path);
      live, dropped := live + {wd}, dropped - {wd};
      var mine := set e | e in subscriptions && e.sub.watcher == watcher && e.sub.path == path;
      assert forall e :: e in mine <==> e in subscriptions && e.sub in same;
      var alreadyTracked := exists e :: e in mine && e.wd == wd;
      var stale := set e | e in mine && e.wd != wd;
      assert stale == Stale(subscriptions, wd, same);
      assert alreadyTracked == IsTracked(subscriptions, wd, same);
      Sweep(stale);
      if alreadyTracked {
        var e :| e in mine && e.wd == wd;
        AddAccounted(before, wd, same, e.sub);
        return true, Some(e.sub);
      }
      var added := new Subscription(tree, watcher, path);
      AddAccounted(before, wd, same, added);
      subscriptions := subscriptions + [Tracked(wd, added)];
      return true, Some(added);
    }

    /** `added` is what the kernel answered to watching `path`, if it did. */
    method WatchDir(watcher: Watcher, path: Text, tree: DirTree, added: Option<int>)
      returns (watching: bool, ghost sub: Option<Subscription>)
      requires Valid()
      modifies this`subscriptions, this`live, this`dropped
      ensures Valid() && watching == added.Some? == sub.Some?
      ensures added.None? ==> State() == old(State())
      ensures added.Some? ==>
                && State() == AddWatch(old(State()), added.value, old(Same(watcher, path)), sub.value)
                && sub.value.watcher == watcher && sub.value.path == path
                && (sub.value.tree == tree || exists e :: e in old(subscriptions) && e.sub == sub.value)
      ensures added.Some? ==>
                && (forall e :: e in old(subscriptions) && !(e.sub.watcher == watcher && e.sub.path == path) ==>
                      e in subscriptions)
                && (forall e :: e in subscriptions ==> e in old(subscriptions) || e == Tracked(added.value, sub.value))
                && (forall e :: e in subscriptions && e.sub.watcher == watcher && e.sub.path == path ==>
                    e.wd == added.value)
                && (exists e :: e in subscriptions && e.sub.watcher == watcher && e.sub.path == path)
                && ((exists e :: && e in old(subscriptions) && e.wd == added.value
                                 && e.sub.watcher == watcher && e.sub.path == path)
                    ==> forall e :: e in subscriptions ==> e in old(subscriptions))
    {
      hide AddWatch, Accounted, NoRepeats;
      ghost var before, same := State(), Same(watcher, path);
      watching, sub := TrackDir(watcher, path, tree, added);
      if added.Some? {
        AddMeans(before, added.value, same, sub.value);
        assert forall e :: e in before.entries ==>
                             (e.sub in same <==> e.sub.watcher == watcher && e.sub.path == path);
      }
    }

    /** A watcher's subscriptions at or below a path. */
    method RemoveSubscriptions(watcher: Watcher, path: Text)
      requires Valid()
      modifies this`subscriptions, this`live
      ensures Valid() && State() == RemoveAll(old(State()), old(AtOrBelow(watcher, path)))
      ensures forall e :: e in subscriptions ==>
                e in old(subscriptions) &&
                !(e.sub.watcher == watcher && (path == watcher.dir || IsPathOrDescendant(e.sub.path, path)))
      ensures forall e :: e in old(subscriptions) &&
                          !(e.sub.watcher == watcher && (path == watcher.dir || IsPathOrDescendant(e.sub.path, path)))
                ==> e in subscriptions
    {
      hide RemoveAll, Accounted;
      forall e { RemoveMeans(State(), AtOrBelow(watcher, path), e); }
      RemoveAccounted(State(), AtOrBelow(watcher, path));
      Sweep(AtOrBelow(watcher, path));
    }

    /** The subscriptions a pending move carries. */
    method RemoveMoved(move: PendingMove)
      requires Valid()
      modifies this`subscriptions, this`live
      ensures Valid()
      ensures State() == RemoveAll(old(State()), set e | e in old(subscriptions) && e.sub in move.subscriptions)
    {
      var gone := set e | e in subscriptions && e.sub in move.subscriptions;
      RemoveAccounted(State(), gone);
      Sweep(gone);
    }

    /** The kernel drops a watch whose directory is gone. */
    method Dropped(wd: int)
      requires Valid()
      modifies this`live, this`dropped
      ensures Valid() && State() == DropWatch(old(State()), wd)
      ensures live == old(live) - {wd} && dropped == old(dropped) + {wd}
    {
      live, dropped := live - {wd}, dropped + {wd};
    }

    /** `failing` are the descriptors whose removal the kernel refuses; a dropped one is no failure. The
        watcher's entries go one by one, and a refusal stops the loop with the rest in place. */
    method Unsubscribe(watcher: Watcher, failing: set<int>) returns (threw: bool, ghost gone: set<Entry>)
      requires Valid()
      modifies this`subscriptions, this`live, this`pendingMoves
      ensures Valid() && State() == RemoveAll(old(State()), gone) && gone <= old(Mine(watcher))
      ensures !threw ==> gone == old(Mine(watcher)) && forall e :: e in subscriptions ==> e.sub.watcher != watcher
      ensures forall e :: e in old(subscriptions) && e.sub.watcher != watcher ==> e in subscriptions
      ensures threw ==> exists e :: e in subscriptions && e.sub.watcher == watcher && e.wd in failing * live
      ensures forall k :: k in pendingMoves <==> k in old(pendingMoves) && k.watcher != watcher
      ensures forall k :: k in pendingMoves ==> pendingMoves[k] == old(pendingMoves)[k]
    {
      pendingMoves := map k | k in pendingMoves && k.watcher != watcher :: pendingMoves[k];
      ghost var before := State();
      threw, gone := UnsubscribeAll(watcher, failing);
      forall e { RemoveMeans(before, gone, e); }
    }

    method UnsubscribeAll(watcher: Watcher, failing: set<int>) returns (threw: bool, ghost gone: set<Entry>)
      requires Valid()
      modifies this`subscriptions, this`live
      ensures Valid() && State() == RemoveAll(old(State()), gone) && gone <= old(Mine(watcher))
      ensures !threw ==> gone == old(Mine(watcher)) && Mine(watcher) == {}
      ensures threw ==> exists e :: e in subscriptions && e.sub.watcher == watcher && e.wd in failing * live
    {
      hide Kept, CountOf, RemoveAll, Accounted;
      ghost var before := State();
      gone := {};
      RemoveNone(before);
      var i := 0;
      while i < |subscriptions|
        invariant i <= |subscriptions| && NoRepeats(subscriptions)
        invariant State() == RemoveAll(before, gone) && gone <= old(Mine(watcher))
        invariant forall j :: 0 <= j < i ==> subscriptions[j].sub.watcher != watcher
        invariant forall e :: e in subscriptions ==> e in before.entries
        decreases |subscriptions| - i
      {
        var e := subscriptions[i];
        if e.sub.watcher == watcher {
          EraseOne(State(), i);
          RemoveTwice(before, gone, {e});
          ErasedNoRepeats(subscriptions, i);
          if CountOf(subscriptions, e.wd) == 1 {
            if e.wd in live && e.wd in failing {
              RemoveAccounted(before, gone);
              return true, gone;
            }
            live := live - {e.wd};
          }
          subscriptions := subscriptions[..i] + subscriptions[i + 1..];
          gone := gone + {e};
        } else {
          i := i + 1;
        }
      }
      RemoveAccounted(before, gone);
      RemovedOrKept(before, gone);
      return false, gone;
    }

    // ---------------------------------------------------------- paired moves

    /** An event from a directory that is itself on the move only marks the move. */
    method Suppress(sub: Subscription) returns (suppressed: bool)
      modifies this`pendingMoves
      ensures suppressed <==> exists k :: k in old(pendingMoves) && k.watcher == sub.watcher
                                          && old(pendingMoves)[k].isDirectory &&
                                             sub in old(pendingMoves)[k].subscriptions
      ensures !suppressed ==> pendingMoves == old(pendingMoves)
      ensures suppressed ==> MarkedMove(sub)
      ensures pendingMoves.Keys == old(pendingMoves).Keys
      ensures old(PendingOk()) ==> PendingOk()
      ensures forall k :: k in pendingMoves ==>
                            pendingMoves[k].(suppressedEvents := false) ==
                                old(pendingMoves)[k].(suppressedEvents := false)
    {
      var todo := pendingMoves.Keys;
      while todo != {}
        invariant todo <= pendingMoves.Keys && pendingMoves == old(pendingMoves)
        invariant forall k :: k in pendingMoves && k !in todo ==>
                                !(k.watcher == sub.watcher && pendingMoves[k].isDirectory &&
                                  sub in pendingMoves[k].subscriptions)
        decreases todo
      {
        var k :| k in todo;
        if k.watcher == sub.watcher && pendingMoves[k].isDirectory && sub in pendingMoves[k].subscriptions {
          pendingMoves := pendingMoves[k := pendingMoves[k].(suppressedEvents := true)];
          return true;
        }
        todo := todo - {k};
      }
      return false;
    }

    /** The subscriptions of a watcher at or below a directory. */
    function SubscribedBelow(watcher: Watcher, path: Text): set<Subscription>
      reads this, set e | e in subscriptions :: e.sub
    {
      set e | e in subscriptions && e.sub.watcher == watcher && IsPathOrDescendant(e.sub.path, path) :: e.sub
    }

    /** A departure waits for its arrival: the entries leave the tree and the subscriptions are noted. */
    method Depart(sub: Subscription, path: Text, cookie: nat, isDir: bool) returns (entries: seq<DirEntry>)
      modifies this`pendingMoves, sub.tree`entries
      ensures ListsSubtree(entries, old(sub.tree.entries), path) && AllAtLeast(entries, |path|)
      ensures sub.tree.entries == old(sub.tree.entries) - Subtree(old(sub.tree.entries), path)
      ensures pendingMoves ==
              old(pendingMoves)[MoveKey(sub.watcher, cookie) :=
                PendingMove(sub.tree, path, isDir, entries,
                            if isDir then old(SubscribedBelow(sub.watcher, path)) else {}, false)]
    {
      var moved: set<Subscription> := {};
      if isDir {
        moved := set e | e in subscriptions && e.sub.watcher == sub.watcher
                         && IsPathOrDescendant(e.sub.path, path) :: e.sub;
      }
      entries := sub.tree.Extract(path);
      TakenPaths(entries, old(sub.tree.entries), path);
      pendingMoves := pendingMoves[MoveKey(sub.watcher, cookie) :=
                                   PendingMove(sub.tree, path, isDir, entries, moved, false)];
    }

    /** Reports the entries of an arrived move one by one. */
    method ReportMoved(watcher: Watcher, tree: DirTree, entries: seq<DirEntry>, oldPath: Text, path: Text, cookie: nat)
      requires watcher.events.Valid() && AllAtLeast(entries, |oldPath|)
      modifies watcher.events`events
      ensures watcher.events.Valid()
      ensures watcher.events.events ==
              ReportEntries(old(watcher.events.events), Landing(tree.entries, oldPath, path, cookie, watcher.ignores),
                            entries)
    {
      hide ReportEntry;
      ghost var l := Landing(tree.entries, oldPath, path, cookie, watcher.ignores);
      ghost var before := watcher.events.events;
      var targetExisted := path in tree.entries;
      ReportedNone(before, l);
      for i := 0 to |entries|
        invariant watcher.events.Valid()
        invariant watcher.events.events == ReportEntries(before, l, entries[..i])
      {
        var entry := entries[i];
        ReportedMore(before, l, entries, i);
        ReportOne(watcher, tree, entry, oldPath, path, cookie, targetExisted);
      }
      assert entries[..|entries|] == entries;
    }

    method ReportOne(watcher: Watcher, tree: DirTree, entry: DirEntry, oldPath: Text, path: Text, cookie: nat,
                     targetExisted: bool)
      requires watcher.events.Valid() && |oldPath| <= |entry.path| && targetExisted == (path in tree.entries)
      modifies watcher.events`events
      ensures watcher.events.Valid()
      ensures watcher.events.events ==
              ReportEntry(old(watcher.events.events), Landing(tree.entries, oldPath, path, cookie, watcher.ignores),
                          entry)
    {
      hide EventLog.Rename, EventLog.Create, EventLog.Remove, Touch;
      var newEntryPath := path + entry.path[|oldPath|..];
      var kind := KindOf(entry.isDir);
      if targetExisted || watcher.ignores(newEntryPath) {
        watcher.events.Remove(entry.path, kind);
        if !watcher.ignores(newEntryPath) {
          if newEntryPath in tree.entries {
            watcher.events.Update(newEntryPath, kind);
          } else {
            watcher.events.Create(newEntryPath, kind);
          }
        }
      } else {
        watcher.events.Rename(entry.path, newEntryPath,
                              ID_PREFIX + Digits(cookie) + [COLON] + entry.path[|oldPath|..], kind);
      }
    }

    /** Rewrites the paths of the subscriptions that moved along, one by one; `substr` throws on a path
        shorter than what it drops. */
    method MoveSubscriptions(moved: set<Subscription>, oldPath: Text, newPath: Text) returns (threw: bool)
      modifies moved
      ensures threw <==> exists s :: s in moved && |old(s.path)| < |oldPath|
      ensures forall s :: s in moved ==>
                            || s.path == old(s.path)
                            || (|oldPath| <= |old(s.path)| && s.path == newPath + old(s.path)[|oldPath|..])
      ensures !threw ==> forall s :: s in moved ==>
                            |oldPath| <= |old(s.path)| && s.path == newPath + old(s.path)[|oldPath|..]
    {
      var todo := moved;
      while todo != {}
        invariant todo <= moved
        invariant forall s :: s in todo ==> s.path == old(s.path)
        invariant forall s :: s in moved - todo ==>
                                |oldPath| <= |old(s.path)| && s.path == newPath + old(s.path)[|oldPath|..]
        decreases todo
      {
        var s :| s in todo;
        if |s.path| < |oldPath| {
          return true;
        }
        s.path := newPath + s.path[|oldPath|..];
        todo := todo - {s};
      }
      return false;
    }

    /** Entries at a target that turns out to be neither file nor directory are gone, and so are the
        subscriptions below them. */
    method ReportGone(watcher: Watcher, removed: seq<DirEntry>) returns (ghost gone: set<Entry>)
      requires Valid() && watcher.events.Valid()
      modifies this`subscriptions, this`live, watcher.events`events
      ensures Valid() && watcher.events.Valid() && State() == RemoveAll(old(State()), gone)
      ensures gone <= old(Mine(watcher))
      ensures watcher.events.events == RemoveEntries(old(watcher.events.events), removed)
    {
      hide RemoveAll, EventLog.Remove, Accounted, NoRepeats, Kept;
      ghost var before := State();
      gone := {};
      RemoveNone(before);
      for i := 0 to |removed|
        invariant Valid() && watcher.events.Valid() && State() == RemoveAll(before, gone)
        invariant gone <= old(Mine(watcher)) && forall e :: e in subscriptions ==> e in before.entries
        invariant watcher.events.events == RemoveEntries(old(watcher.events.events), removed[..i])
      {
        var entry := removed[i];
        assert removed[..i + 1][..i] == removed[..i];
        watcher.events.Remove(entry.path, KindOf(entry.isDir));
        if entry.isDir {
          ghost var more := AtOrBelow(watcher, entry.path);
          RemoveTwice(before, gone, more);
          RemoveSubscriptions(watcher, entry.path);
          gone := gone + more;
          RemovedWithin(before, gone);
        }
      }
      assert removed[..|removed|] == removed;
    }

    predicate IsAncestorOnly(sub: Subscription)
      reads sub
    {
      sub.path != sub.watcher.dir && IsPathOrDescendant(sub.watcher.dir, sub.path)
    }

    ghost predicate IsMoving(sub: Subscription)
      reads this
    {
      exists k :: k in pendingMoves && k.watcher == sub.watcher && pendingMoves[k].isDirectory
                  && sub in pendingMoves[k].subscriptions
    }

    /** A pending move that carries the directory knows that events in it were suppressed. */
    ghost predicate MarkedMove(sub: Subscription)
      reads this
    {
      exists k :: k in pendingMoves && k.watcher == sub.watcher && pendingMoves[k].isDirectory
                  && sub in pendingMoves[k].subscriptions && pendingMoves[k].suppressedEvents
    }

    /** IN_MOVED_FROM for the entry `name` of a watched directory. */
    method MovedFrom(sub: Subscription, name: Text, cookie: nat, isDir: bool)
      returns (touched: bool, ghost entries: seq<DirEntry>)
      requires Valid() && sub.watcher.events.Valid()
      modifies this, sub.tree`entries, sub.watcher.events`events
      ensures Valid() && sub.watcher.events.Valid()
      ensures touched <==>
              && !(sub.path != sub.watcher.dir && IsPathOrDescendant(sub.watcher.dir, sub.path))
              && !(exists k :: k in old(pendingMoves) && k.watcher == sub.watcher && old(pendingMoves)[k].isDirectory
                               && sub in old(pendingMoves)[k].subscriptions)
              && !sub.watcher.ignores(sub.path + [SLASH] + name)
      ensures !touched ==> unchanged(sub.tree) && unchanged(sub.watcher.events) && State() == old(State())
      ensures !touched ==> pendingMoves.Keys == old(pendingMoves).Keys && forall k :: k in pendingMoves ==>
                pendingMoves[k].(suppressedEvents := false) == old(pendingMoves)[k].(suppressedEvents := false)
      ensures !old(IsAncestorOnly(sub)) && old(IsMoving(sub)) ==> MarkedMove(sub)
      ensures touched ==>
                var path, m := sub.path + [SLASH] + name, old(sub.tree.entries);
                && ListsSubtree(entries, m, path) && AllAtLeast(entries, |path|) &&
                   sub.tree.entries == m - Subtree(m, path)
                && (if cookie != 0 then
                      && State() == old(State()) && unchanged(sub.watcher.events)
                      && pendingMoves == old(pendingMoves)[MoveKey(sub.watcher, cookie) :=
                           PendingMove(sub.tree, path, isDir, entries,
                                       if isDir then old(SubscribedBelow(sub.watcher, path)) else {}, false)]
                    else
                      && pendingMoves == old(pendingMoves)
                      && sub.watcher.events.events == RemoveEntries(old(sub.watcher.events.events), entries)
                      && State() == if isDir then RemoveAll(old(State()), old(AtOrBelow(sub.watcher, path)))
                                    else old(State()))
    {
      hide RemoveAll, Accounted, NoRepeats, ListsSubtree;
      entries := [];
      if IsAncestorOnly(sub) {
        return false, entries;
      }
      var path := sub.path + [SLASH] + name;
      var suppressed := Suppress(sub);
      if suppressed || sub.watcher.ignores(path) {
        return false, entries;
      }
      var extracted: seq<DirEntry>;
      if cookie != 0 {
        extracted := Depart(sub, path, cookie, isDir);
      } else {
        extracted := sub.tree.Extract(path);
        assert AllAtLeast(extracted, |path|) by { ListedLengths(extracted, old(sub.tree.entries), path); }
        ReportRemoved(sub.watcher, extracted);
        if isDir {
          RemoveSubscriptions(sub.watcher, path);
        }
      }
      return true, extracted;
    }

    method ReportRemoved(watcher: Watcher, removed: seq<DirEntry>)
      requires watcher.events.Valid()
      modifies watcher.events`events
      ensures watcher.events.Valid() && watcher.events.events == RemoveEntries(old(watcher.events.events), removed)
    {
      hide EventLog.Remove;
      for i := 0 to |removed|
        invariant watcher.events.Valid()
        invariant watcher.events.events == RemoveEntries(old(watcher.events.events), removed[..i])
      {
        assert removed[..i + 1][..i] == removed[..i];
        watcher.events.Remove(removed[i].path, KindOf(removed[i].isDir));
      }
      assert removed[..|removed|] == removed;
    }

    /** A move keeps its place when its entries are moved out. */
    method TakeEntries(key: MoveKey)
      requires Valid() && key in pendingMoves
      modifies this`pendingMoves
      ensures Valid() && pendingMoves == old(pendingMoves)[key := old(pendingMoves)[key].(entries := [])]
      ensures pendingMoves - {key} == old(pendingMoves) - {key}
    {
      hide Accounted, NoRepeats;
      AddedAndDropped(pendingMoves, key, pendingMoves[key].(entries := []));
      pendingMoves := pendingMoves[key := pendingMoves[key].(entries := [])];
    }

    /** Puts the entries of an arrived move where they belong now, over whatever was known there. */
    method RestoreMoved(tree: DirTree, entries: seq<DirEntry>, oldPath: Text, path: Text)
      requires AllAtLeast(entries, |oldPath|)
      modifies tree`entries
      ensures tree.entries == Landed(old(tree.entries), entries, oldPath, path)
    {
      // What was not indexed keeps the old target until its type is known.
      if entries != [] && path in tree.entries {
        tree.Remove(path);
      }
      tree.Restore(entries, oldPath, path);
    }

    /** What `lstat` finds at the target settles the tree; says whether the target had to be added. */
    method SettleFound(sub: Subscription, oldPath: Text, path: Text, cookie: nat, missingSource: bool, mtime: nat,
                       isDir: bool)
      returns (added: bool)
      requires sub.watcher.events.Valid()
      modifies sub.tree`entries, sub.watcher.events`events
      ensures sub.watcher.events.Valid()
      ensures var stat := if isDir then DirStat(mtime) else FileStat(mtime);
              && sub.tree.entries == Settled(old(sub.tree.entries), path, missingSource, stat)
              && sub.watcher.events.events == SettledLog(old(sub.watcher.events.events), old(sub.tree.entries), oldPath,
                                                         path, cookie, missingSource, stat, [])
      ensures added <==> missingSource || path !in old(sub.tree.entries)
    {
      hide EventLog.Rename, EventLog.Remove, Touch;
      if missingSource {
        ReportUnindexed(sub, oldPath, path, cookie, KindOf(isDir));
        sub.tree.Remove(path);
      }
      var updated := sub.tree.Update(path, mtime);
      if !updated {
        sub.tree.Add(path, mtime, isDir);
      }
      return !updated;
    }

    /** IN_MOVED_TO at `path` when its cookie's departure is pending: everything the move itself decides,
        up to whether the moved directory has to be scanned again.  If the `substr` of a carried path
        throws, the entries are reported and restored, and the move stays pending without them. */
    method MovedTo(sub: Subscription, path: Text, cookie: nat, stat: Stat)
      returns (threw: bool, rescan: bool, ghost others: seq<DirEntry>, ghost gone: set<Entry>)
      requires Valid() && sub.watcher.events.Valid() && MoveKey(sub.watcher, cookie) in pendingMoves
      modifies this, sub.tree`entries, sub.watcher.events`events,
               pendingMoves[MoveKey(sub.watcher, cookie)].subscriptions
      ensures Valid() && sub.watcher.events.Valid()
      ensures var key := MoveKey(sub.watcher, cookie);
              pendingMoves == if threw then old(pendingMoves)[key := old(pendingMoves)[key].(entries := [])]
                              else old(pendingMoves) - {key}
      ensures var move := old(pendingMoves)[MoveKey(sub.watcher, cookie)];
              && AllAtLeast(move.entries, |move.path|)
              && (threw <==> exists s :: s in move.subscriptions && |old(s.path)| < |move.path|)
              && (!threw ==> forall s :: s in move.subscriptions ==>
                    |move.path| <= |old(s.path)| && s.path == path + old(s.path)[|move.path|..])
      ensures var move := old(pendingMoves)[MoveKey(sub.watcher, cookie)];
              var landed := Landed(old(sub.tree.entries), move.entries, move.path, path);
              var l := Landing(old(sub.tree.entries), move.path, path, cookie, sub.watcher.ignores);
              var reported := ReportEntries(old(sub.watcher.events.events), l, move.entries);
              && sub.tree.entries == (if threw then landed else Settled(landed, path, move.entries == [], stat))
              && sub.watcher.events.events ==
                 (if threw then reported
                  else SettledLog(reported, landed, move.path, path, cookie, move.entries == [], stat, others))
              && (!threw && stat.OtherStat? ==> ListsSubtree(others, landed, path))
              && (rescan <==> !threw && stat.DirStat? && (move.suppressedEvents || sub.watcher.hasIgnores
                                                          || move.entries == [] || path !in landed))
      ensures State() == RemoveAll(old(State()), gone) && gone <= old(Mine(sub.watcher))
      ensures threw || !stat.OtherStat? ==> gone == {}
    {
      hide RemoveAll, Accounted, NoRepeats, ListsSubtree, ReportEntries, RemoveEntries, Landed, EventLog.Rename,
           AllAtLeast, Subtree, EventList.Valid;
      var key := MoveKey(sub.watcher, cookie);
      var move := pendingMoves[key];
      others, gone, rescan := [], {}, false;
      RemoveNone(State());
      ReportMoved(sub.watcher, sub.tree, move.entries, move.path, path, cookie);
      var missingSource := move.entries == [];
      RestoreMoved(sub.tree, move.entries, move.path, path);
      TakeEntries(key);
      threw := MoveSubscriptions(move.subscriptions, move.path, path);
      if threw {
        return;
      }
      pendingMoves := pendingMoves - {key};
      if stat.NoStat? {
        return;
      }
      if stat.OtherStat? {
        var removed := sub.tree.Extract(path);
        others := removed;
        gone := ReportGone(sub.watcher, removed);
        return;
      }
      ghost var landed, log := sub.tree.entries, sub.watcher.events.events;
      var added := SettleFound(sub, move.path, path, cookie, missingSource, stat.mtime, stat.DirStat?);
      SettledFound(log, landed, move.path, path, cookie, missingSource, stat);
      rescan := stat.DirStat? && (move.suppressedEvents || added || sub.watcher.hasIgnores);
    }

    /** The move of something the tree did not know. */
    method ReportUnindexed(sub: Subscription, oldPath: Text, path: Text, cookie: nat, kind: EntryKind)
      requires sub.watcher.events.Valid()
      modifies sub.watcher.events`events
      ensures sub.watcher.events.Valid()
      ensures sub.watcher.events.events ==
              if path in sub.tree.entries then
                Touch(EventLog.Remove(old(sub.watcher.events.events), Key(oldPath, kind)), Key(path, kind))
              else EventLog.Rename(old(sub.watcher.events.events), Key(oldPath, kind), Key(path, kind),
                                   ID_PREFIX + Digits(cookie))
    {
      hide EventLog.Rename, EventLog.Remove, Touch;
      if path in sub.tree.entries {
        sub.watcher.events.Remove(oldPath, kind);
        sub.watcher.events.Update(path, kind);
      } else {
        sub.watcher.events.Rename(oldPath, path, ID_PREFIX + Digits(cookie), kind);
      }
    }

    /** A departure followed by its arrival, nothing being ignored; moves of other directories may be
        pending. */
    method DeliverMove(from: Subscription, fromName: Text, to: Subscription, toName: Text, cookie: nat, isDir: bool,
                       stat: Stat)
      returns (ghost leg: Leg)
      requires Valid() && from.watcher == to.watcher && from.tree == to.tree && from.watcher.events.Valid()
      requires !IsMoving(from) && !IsMoving(to) && cookie != 0 && !stat.OtherStat?
      requires !IsAncestorOnly(from) && !IsAncestorOnly(to) &&
               !IsPathOrDescendant(to.path, from.path + [SLASH] + fromName)
      requires !from.watcher.hasIgnores && forall t :: !from.watcher.ignores(t)
      modifies this, from.tree`entries, from.watcher.events`events,
               SubscribedBelow(from.watcher, from.path + [SLASH] + fromName)
      ensures Valid() && from.watcher.events.Valid() && State() == old(State())
      ensures pendingMoves == old(pendingMoves) - {MoveKey(from.watcher, cookie)}
      ensures var source, target := old(from.path) + [SLASH] + fromName, old(to.path) + [SLASH] + toName;
              var w := from.watcher;
              && leg == Leg(target, cookie, stat, leg.entries) && AllAtLeast(leg.entries, |source|)
              && ListsSubtree(leg.entries, old(from.tree.entries), source)
              && (var end := MoveOnce(Standing(old(from.tree.entries), old(w.events.events), []), source, leg);
                  from.tree.entries == end.tree && w.events.events == end.log)
              && (forall e :: e in subscriptions && e.sub.watcher == w ==>
                                e.sub.path == if isDir then Carried(old(e.sub.path), source, target)
                                              else old(e.sub.path))
    {
      hide Accounted, NoRepeats, ListsSubtree, RemoveAll, IsPathOrDescendant, Landed, Settled, ReportEntries,
           SettledLog, MoveOnce, AllAtLeast, Subtree;
      var source, target := from.path + [SLASH] + fromName, to.path + [SLASH] + toName;
      ghost var moved := SubscribedBelow(from.watcher, source);
      var touched: bool;
      ghost var entries: seq<DirEntry>;
      touched, entries := MovedFrom(from, fromName, cookie, isDir);
      forall s | s in moved
        ensures |source| <= |s.path|
      {
        PrefixShorter(s.path, source);
      }
      leg := Leg(target, cookie, stat, entries);
      assert !IsMoving(to) by { assert to !in moved; }
      var suppressed := Suppress(to);
      var threw: bool, rescan: bool;
      ghost var others: seq<DirEntry>, gone: set<Entry>;
      AddedAndDropped(old(pendingMoves), MoveKey(from.watcher, cookie), pendingMoves[MoveKey(from.watcher, cookie)]);
      threw, rescan, others, gone := MovedTo(to, target, cookie, stat);
      RemoveNone(old(State()));
      QuietMove(Standing(old(from.tree.entries), old(from.watcher.events.events), []), source, leg,
                from.watcher.ignores, others);
    }

    // ---------------------------------------------------------- the watched directory itself

    /** The watched directory or an ancestor of it moved or went: every entry, in the tree or waiting for a
        move, is reported gone, and the watcher has no subscription and no pending move left. */
    method RootGone(sub: Subscription) returns (ghost reported: seq<DirEntry>)
      requires Valid() && sub.watcher.events.Valid()
      modifies this, sub.tree`entries, sub.watcher.events`events
      ensures Valid() && sub.watcher.events.Valid()
      ensures var w, m := sub.watcher, old(sub.tree.entries);
              && sub.tree.entries == m - Subtree(m, w.dir)
              && w.events.events == RemoveEntries(old(w.events.events), reported)
              && (forall p :: p in Subtree(m, w.dir) ==> DirEntry(p, m[p].mtime, m[p].isDir) in reported)
              && (forall k, e :: k in old(pendingMoves) && k.watcher == w && e in old(pendingMoves)[k].entries ==>
                  e in reported)
              && (forall e :: e in reported ==>
                    || (e.path in Subtree(m, w.dir) && m[e.path] == e.Value())
                    || exists k :: k in old(pendingMoves) && k.watcher == w && e in old(pendingMoves)[k].entries)
              && State() == RemoveAll(old(State()), old(Mine(w)))
              && (forall e :: e in subscriptions ==> e.sub.watcher != w)
              && (forall e :: e in old(subscriptions) && e.sub.watcher != w ==> e in subscriptions)
      ensures forall k :: k in pendingMoves <==> k in old(pendingMoves) && k.watcher != sub.watcher
      ensures forall k :: k in pendingMoves ==> pendingMoves[k] == old(pendingMoves)[k]
    {
      hide RemoveAll, Accounted, NoRepeats, RemoveEntries;
      ghost var log, before := sub.watcher.events.events, State();
      var extracted := sub.tree.Extract(sub.watcher.dir);
      ReportRemoved(sub.watcher, extracted);
      ghost var waiting: seq<DirEntry> := ForgetMoves(sub.watcher);
      RemoveMore(log, extracted, waiting);
      reported := extracted + waiting;
      ListedEntries(extracted, old(sub.tree.entries), sub.watcher.dir);
      assert AtOrBelow(sub.watcher, sub.watcher.dir) == Mine(sub.watcher);
      RemoveSubscriptions(sub.watcher, sub.watcher.dir);
      RemovedOrKept(before, old(Mine(sub.watcher)));
      RemovedLeft(before, old(Mine(sub.watcher)));
    }

    /** A watcher's pending moves are forgotten, and what departed with them is reported as removed. */
    method ForgetMoves(watcher: Watcher) returns (ghost waiting: seq<DirEntry>)
      requires Valid() && watcher.events.Valid()
      modifies this`pendingMoves, watcher.events`events
      ensures Valid() && watcher.events.Valid() && State() == old(State())
      ensures watcher.events.events == RemoveEntries(old(watcher.events.events), waiting)
      ensures forall e :: e in waiting <==>
                          exists k :: k in old(pendingMoves) && k.watcher == watcher &&
                              e in old(pendingMoves)[k].entries
      ensures forall k :: k in pendingMoves <==> k in old(pendingMoves) && k.watcher != watcher
      ensures forall k :: k in pendingMoves ==> pendingMoves[k] == old(pendingMoves)[k]
    {
      hide RemoveEntries, Accounted, NoRepeats, AllAtLeast, EventList.Valid, Collected;
      ghost var log, before := watcher.events.events, pendingMoves;
      waiting := [];
      RemoveNothing(log);
      CollectedNone(before);
      var todo := pendingMoves.Keys;
      while todo != {}
        invariant todo <= pendingMoves.Keys <= before.Keys
        invariant Valid() && watcher.events.Valid() && State() == old(State())
        invariant watcher.events.events == RemoveEntries(log, waiting)
        invariant forall k :: k in pendingMoves ==> pendingMoves[k] == before[k]
        invariant forall k :: k in before && k !in pendingMoves ==> k.watcher == watcher
        invariant forall k :: k in pendingMoves && k.watcher == watcher ==> k in todo
        invariant Collected(before, pendingMoves.Keys, waiting)
        decreases todo
      {
        var k :| k in todo;
        if k.watcher == watcher {
          ReportRemoved(watcher, pendingMoves[k].entries);
          RemoveMore(log, waiting, pendingMoves[k].entries);
          CollectedMore(before, pendingMoves.Keys, waiting, k);
          waiting := waiting + pendingMoves[k].entries;
          pendingMoves := pendingMoves - {k};
        }
        todo := todo - {k};
      }
      CollectedAll(before, pendingMoves.Keys, waiting, watcher);
    }
  }

  /** The entries of the moves that are no longer pending. */
  ghost predicate Collected(before: map<MoveKey, PendingMove>, left: set<MoveKey>, es: seq<DirEntry>) {
    forall e :: e in es <==> exists k :: k in before && k !in left && e in before[k].entries
  }

  lemma CollectedNone(before: map<MoveKey, PendingMove>)
    ensures Collected(before, before.Keys, [])
  {}

  lemma CollectedMore(before: map<MoveKey, PendingMove>, left: set<MoveKey>, es: seq<DirEntry>, k: MoveKey)
    requires Collected(before, left, es) && k in before && k in left
    ensures Collected(before, left - {k}, es + before[k].entries)
  {}

  lemma CollectedAll(before: map<MoveKey, PendingMove>, left: set<MoveKey>, es: seq<DirEntry>, watcher: Watcher)
    requires Collected(before, left, es) && forall k :: k in before ==> (k in left <==> k.watcher != watcher)
    ensures forall e :: e in es <==> exists k :: k in before && k.watcher == watcher && e in before[k].entries
  {}

  /** The descriptors of the entries that go. */
  function Removed(entries: seq<Entry>, gone: set<Entry>): set<int> {
    set e | e in gone && e in entries :: e.wd
  }

  lemma RemovedDescriptors(entries: seq<Entry>, gone: set<Entry>)
    ensures Removed(entries, gone) - Descriptors(Kept(entries, gone)) ==
            Descriptors(entries) - Descriptors(Kept(entries, gone))
  {
    forall d
      ensures d in Removed(entries, gone) ==> d in Descriptors(entries)
      ensures d in Descriptors(entries) && d !in Descriptors(Kept(entries, gone)) ==> d in Removed(entries, gone)
    {
      DescriptorsHold(entries, d);
      DescriptorsHold(Kept(entries, gone), d);
    }
  }

  lemma ReportedNone(log: Log, l: Landing)
    ensures ReportEntries(log, l, []) == log
  {}

  lemma ReportedMore(log: Log, l: Landing, es: seq<DirEntry>, i: nat)
    requires i < |es| && AllAtLeast(es, |l.oldPath|)
    ensures AllAtLeast(es[..i + 1], |l.oldPath|)
    ensures ReportEntries(log, l, es[..i + 1]) == ReportEntry(ReportEntries(log, l, es[..i]), l, es[i])
  {
    assert es[..i + 1][..i] == es[..i];
  }

  lemma RemovedWithin(w: Watches<Subscription>, gone: set<Entry>)
    ensures forall e :: e in RemoveAll(w, gone).entries ==> e in w.entries
  {}

  lemma ListedLengths(es: seq<DirEntry>, m: Tree, path: Text)
    requires ListsSubtree(es, m, path)
    ensures AllAtLeast(es, |path|)
  {
    TakenPaths(es, m, path);
  }

  lemma AddedAndDropped<K, V>(m: map<K, V>, k: K, v: V)
    ensures m[k := v] - {k} == m - {k}
  {}

  lemma QuietMove(s: Standing, source: Text, leg: Leg, ignores: Text -> bool, others: seq<DirEntry>)
    requires AllAtLeast(leg.entries, |source|) && !leg.stat.OtherStat? && forall t :: !ignores(t)
    ensures var departed, missing := s.tree - Subtree(s.tree, source), leg.entries == [];
            var landed := Landed(departed, leg.entries, source, leg.target);
            var l := Landing(departed, source, leg.target, leg.cookie, ignores);
            var end := MoveOnce(s, source, leg);
            && end.tree == Settled(landed, leg.target, missing, leg.stat)
            && end.log == SettledLog(ReportEntries(s.log, l, leg.entries), landed, source, leg.target, leg.cookie,
                                     missing, leg.stat, others)
  {
    hide ReportEntries, Landed, AllAtLeast;
    var l := Landing(s.tree - Subtree(s.tree, source), source, leg.target, leg.cookie, ignores);
    ReportQuiet(s.log, l, l.(ignores := NeverIgnored()), leg.entries);
  }

  lemma SettledFound(log: Log, tree: Tree, oldPath: Text, path: Text, cookie: nat, missingSource: bool, stat: Stat)
    requires stat.FileStat? || stat.DirStat?
    ensures stat == if stat.DirStat? then DirStat(stat.mtime) else FileStat(stat.mtime)
  {}

  lemma RemoveNothing(log: Log)
    ensures RemoveEntries(log, []) == log
  {}

  lemma {:induction false} RemoveMore(log: Log, a: seq<DirEntry>, b: seq<DirEntry>)
    ensures RemoveEntries(RemoveEntries(log, a), b) == RemoveEntries(log, a + b)
    decreases |b|
  {
    if b == [] {
      assert a + b == a;
    } else {
      var all := a + b;
      RemoveMore(log, a, b[..|b| - 1]);
      assert all[..|all| - 1] == a + b[..|b| - 1] && all[|all| - 1] == b[|b| - 1];
    }
  }

  lemma ListedEntries(es: seq<DirEntry>, m: Tree, path: Text)
    requires ListsSubtree(es, m, path)
    ensures forall p :: p in Subtree(m, path) ==> DirEntry(p, m[p].mtime, m[p].isDir) in es
    ensures forall e :: e in es ==> e.path in Subtree(m, path) && m[e.path] == e.Value()
  {
    forall p | p in Subtree(m, path)
      ensures DirEntry(p, m[p].mtime, m[p].isDir) in es
    {
      var i :| 0 <= i < |es| && es[i].path == p;
      assert es[i].Value() == m[p];
    }
  }

  lemma RemovedLeft(w: Watches<Subscription>, gone: set<Entry>)
    ensures forall e :: e in RemoveAll(w, gone).entries ==> e in w.entries && e !in gone
  {}
}
