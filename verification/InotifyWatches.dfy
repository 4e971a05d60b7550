/** Descriptor accounting: kernel watches shared between subscriptions. */
module InotifyWatches {
  /** One entry of the descriptor multimap. */
  datatype Tracked<S> = Tracked(wd: int, sub: S)

  /** The multimap beside the kernel's own state: the watches it has now, and those it dropped by itself. */
  datatype Watches<S> = Watches(entries: seq<Tracked<S>>, live: set<int>, dropped: set<int>)

  function Descriptors<S>(entries: seq<Tracked<S>>): (ds: set<int>)
    ensures forall i :: 0 <= i < |entries| ==> entries[i].wd in ds
  {
    set i | 0 <= i < |entries| :: entries[i].wd
  }

  /** The entries left once `gone` is erased. */
  function Kept<S(==)>(entries: seq<Tracked<S>>, gone: set<Tracked<S>>): (r: seq<Tracked<S>>)
    ensures forall e :: e in r ==> e in entries && e !in gone
    ensures forall e :: e in entries && e !in gone ==> e in r
    ensures |r| <= |entries|
  {
    if entries == [] then []
    else
      var init, last := entries[..|entries| - 1], entries[|entries| - 1];
      assert entries == init + [last];
      Kept(init, gone) + (if last in gone then [] else [last])
  }

  /** Erasing entries also takes back every watch whose last entry went. */
  function RemoveAll<S(==)>(w: Watches<S>, gone: set<Tracked<S>>): Watches<S> {
    var kept := Kept(w.entries, gone);
    Watches(kept, w.live - (Descriptors(w.entries) - Descriptors(kept)), w.dropped)
  }

  predicate IsTracked<S(==)>(entries: seq<Tracked<S>>, wd: int, same: set<S>) {
    exists e :: e in entries && e.sub in same && e.wd == wd
  }

  function Stale<S(==)>(entries: seq<Tracked<S>>, wd: int, same: set<S>): set<Tracked<S>> {
    set e | e in entries && e.sub in same && e.wd != wd
  }

  /** The kernel watches a path and answers `wd`: entries of the same path under other descriptors are
      stale, and the descriptor is recorded unless it is tracked already. */
  function AddWatch<S(==)>(w: Watches<S>, wd: int, same: set<S>, sub: S): Watches<S> {
    var added := Watches(w.entries, w.live + {wd}, w.dropped - {wd});
    var stale := Stale(w.entries, wd, same);
    var swept := RemoveAll(added, stale);
    if IsTracked(w.entries, wd, same) then swept
    else swept.(entries := swept.entries + [Tracked(wd, sub)])
  }

  /** The kernel drops a watch when what it watches is gone. */
  function DropWatch<S>(w: Watches<S>, wd: int): Watches<S> {
    w.(live := w.live - {wd}, dropped := w.dropped + {wd})
  }

  /** Nothing leaks and nothing is missing: the kernel watches are the descriptors with at least one
      subscription, less those the kernel dropped. */
  predicate Accounted<S>(w: Watches<S>) {
    w.live == Descriptors(w.entries) - w.dropped
  }

  lemma DescriptorsHold<S>(entries: seq<Tracked<S>>, d: int)
    ensures d in Descriptors(entries) <==> exists e :: e in entries && e.wd == d
  {
    if d in Descriptors(entries) {
      var i :| 0 <= i < |entries| && entries[i].wd == d;
      assert entries[i] in entries;
    }
  }

  lemma RemoveAccounted<S>(w: Watches<S>, gone: set<Tracked<S>>)
    requires Accounted(w)
    ensures Accounted(RemoveAll(w, gone))
  {
    KeptDescriptors(w.entries, gone);
  }

  lemma KeptDescriptors<S>(entries: seq<Tracked<S>>, gone: set<Tracked<S>>)
    ensures Descriptors(Kept(entries, gone)) <= Descriptors(entries)
  {
    forall d | d in Descriptors(Kept(entries, gone))
      ensures d in Descriptors(entries)
    {
      DescriptorsHold(Kept(entries, gone), d);
      DescriptorsHold(entries, d);
    }
  }

  lemma AddAccounted<S>(w: Watches<S>, wd: int, same: set<S>, sub: S)
    requires Accounted(w)
    ensures Accounted(AddWatch(w, wd, same, sub)) && wd in AddWatch(w, wd, same, sub).live
  {
    hide Kept;
    var added := Watches(w.entries, w.live + {wd}, w.dropped - {wd});
    var stale := Stale(w.entries, wd, same);
    var swept := RemoveAll(added, stale);
    var after := AddWatch(w, wd, same, sub);
    KeptDescriptors(w.entries, stale);
    if wd in Descriptors(w.entries) {
      DescriptorsHold(w.entries, wd);
      DescriptorsHold(swept.entries, wd);
    }
    if after != swept {
      DescriptorsSnoc(swept.entries, Tracked(wd, sub));
    } else if e :| e in w.entries && e.sub in same && e.wd == wd {
      DescriptorsHold(swept.entries, wd);
    }
  }
  /** Which entries a removal leaves. */
  lemma RemoveMeans<S>(w: Watches<S>, gone: set<Tracked<S>>, e: Tracked<S>)
    ensures e in RemoveAll(w, gone).entries <==> e in w.entries && e !in gone
  {}

  /** Which entries watching a path leaves: entries of other paths all stay, of this path those under the
      answered descriptor; if there is none, one is added, and nothing else is. */
  lemma AddMeans<S>(w: Watches<S>, wd: int, same: set<S>, sub: S)
    ensures var after := AddWatch(w, wd, same, sub).entries;
            && (forall e :: e in w.entries && (e.sub !in same || e.wd == wd) ==> e in after)
            && (forall e :: e in after && e.sub in same ==> e.wd == wd || e == Tracked(wd, sub))
            && (forall e :: e in after ==> e in w.entries || e == Tracked(wd, sub))
            && (exists e :: e in after && e.wd == wd && (e.sub in same || e.sub == sub))
            && ((exists e :: e in w.entries && e.sub in same && e.wd == wd) ==>
                forall e :: e in after ==> e in w.entries)
  {
    hide Kept;
    var added := Watches(w.entries, w.live + {wd}, w.dropped - {wd});
    var after := AddWatch(w, wd, same, sub).entries;
    if e :| e in w.entries && e.sub in same && e.wd == wd {
      RemoveMeans(added, Stale(w.entries, wd, same), e);
    } else {
      assert after[|after| - 1] == Tracked(wd, sub);
    }
  }

  lemma DescriptorsSnoc<S>(entries: seq<Tracked<S>>, e: Tracked<S>)
    ensures Descriptors(entries + [e]) == Descriptors(entries) + {e.wd}
  {
    var all := entries + [e];
    assert all[|entries|] == e && forall i :: 0 <= i < |entries| ==> all[i] == entries[i];
  }

  /** Removing some subscriptions touches no other: their entries stay, and so do their watches. */
  lemma OthersKeepWatches<S>(w: Watches<S>, gone: set<Tracked<S>>, e: Tracked<S>)
    requires e in w.entries && e !in gone
    ensures e in RemoveAll(w, gone).entries && (e.wd in RemoveAll(w, gone).live <==> e.wd in w.live)
  {
    DescriptorsHold(Kept(w.entries, gone), e.wd);
  }

  // ------------------------------------------------------------ runs

  datatype Op<S> =
    | Add(wd: int, same: set<S>, sub: S)
    | Remove(gone: set<Tracked<S>>)
    | Drop(wd: int)

  function Apply<S(==)>(w: Watches<S>, op: Op<S>): Watches<S> {
    match op
    case Add(wd, same, sub) => AddWatch(w, wd, same, sub)
    case Remove(gone) => RemoveAll(w, gone)
    case Drop(wd) => DropWatch(w, wd)
  }

  function ApplyAll<S(==)>(w: Watches<S>, ops: seq<Op<S>>): Watches<S>
    decreases |ops|
  {
    if ops == [] then w else ApplyAll(Apply(w, ops[0]), ops[1..])
  }

  /** Over every sequence of additions, removals and kernel drops, the kernel's watches are exactly those
      some subscription still uses, apart from the dropped ones. */
  lemma {:induction false} AlwaysAccounted<S>(w: Watches<S>, ops: seq<Op<S>>)
    requires Accounted(w)
    ensures Accounted(ApplyAll(w, ops))
    decreases |ops|
  {
    if ops != [] {
      match ops[0] {
        case Add(wd, same, sub) => AddAccounted(w, wd, same, sub);
        case Remove(gone) => RemoveAccounted(w, gone);
        case Drop(_) =>
      }
      AlwaysAccounted(Apply(w, ops[0]), ops[1..]);
    }
  }

  // ------------------------------------------------------------ erasing one by one

  predicate NoRepeats<S(==)>(entries: seq<Tracked<S>>) {
    forall i, j :: 0 <= i < j < |entries| ==> entries[i] != entries[j]
  }

  function Erased<S>(entries: seq<Tracked<S>>, i: nat): seq<Tracked<S>>
    requires i < |entries|
  {
    entries[..i] + entries[i + 1..]
  }

  lemma KeptSnoc<S>(init: seq<Tracked<S>>, last: Tracked<S>, gone: set<Tracked<S>>)
    ensures Kept(init + [last], gone) == if last in gone then Kept(init, gone) else Kept(init, gone) + [last]
  {
    var all := init + [last];
    assert all[..|all| - 1] == init && all[|all| - 1] == last;
  }

  lemma KeptNone<S>(gone: set<Tracked<S>>)
    ensures Kept([], gone) == []
  {}

  lemma {:induction false} KeptAll<S>(entries: seq<Tracked<S>>, gone: set<Tracked<S>>)
    requires forall e :: e in entries ==> e !in gone
    ensures Kept(entries, gone) == entries
    decreases |entries|
  {
    hide Kept;
    KeptNone(gone);
    if entries != [] {
      var init, last := entries[..|entries| - 1], entries[|entries| - 1];
      assert entries == init + [last];
      KeptSnoc(init, last, gone);
      KeptAll(init, gone);
    }
  }

  lemma {:induction false} KeptNoRepeats<S>(entries: seq<Tracked<S>>, gone: set<Tracked<S>>)
    requires NoRepeats(entries)
    ensures NoRepeats(Kept(entries, gone))
    decreases |entries|
  {
    hide Kept;
    KeptNone(gone);
    if entries != [] {
      var init, last := entries[..|entries| - 1], entries[|entries| - 1];
      assert entries == init + [last];
      KeptSnoc(init, last, gone);
      KeptNoRepeats(init, gone);
    }
  }

  lemma {:induction false} KeptTwice<S>(entries: seq<Tracked<S>>, a: set<Tracked<S>>, b: set<Tracked<S>>)
    ensures Kept(Kept(entries, a), b) == Kept(entries, a + b)
    decreases |entries|
  {
    hide Kept;
    KeptNone(a);
    KeptNone(b);
    KeptNone(a + b);
    if entries != [] {
      var init, last := entries[..|entries| - 1], entries[|entries| - 1];
      assert entries == init + [last];
      KeptSnoc(init, last, a);
      KeptSnoc(init, last, a + b);
      KeptSnoc(Kept(init, a), last, b);
      KeptTwice(init, a, b);
    }
  }

  lemma RemoveTwice<S>(w: Watches<S>, a: set<Tracked<S>>, b: set<Tracked<S>>)
    ensures RemoveAll(RemoveAll(w, a), b) == RemoveAll(w, a + b)
  {
    KeptTwice(w.entries, a, b);
    KeptDescriptors(w.entries, a);
    KeptDescriptors(Kept(w.entries, a), b);
  }

  lemma {:induction false} ErasedKept<S>(entries: seq<Tracked<S>>, i: nat)
    requires i < |entries| && NoRepeats(entries)
    ensures Kept(entries, {entries[i]}) == Erased(entries, i)
    decreases |entries|
  {
    hide Kept;
    var n, e := |entries| - 1, entries[i];
    var init, last := entries[..n], entries[n];
    assert entries == init + [last];
    KeptSnoc(init, last, {e});
    if i == n {
      KeptAll(init, {e});
      assert Erased(entries, i) == init;
    } else {
      assert init[i] == e && last != e;
      ErasedKept(init, i);
      assert Erased(entries, i) == Erased(init, i) + [last];
    }
  }

  function CountOf<S>(entries: seq<Tracked<S>>, wd: int): nat {
    if entries == [] then 0
    else CountOf(entries[..|entries| - 1], wd) + (if entries[|entries| - 1].wd == wd then 1 else 0)
  }

  lemma {:induction false} CountZero<S>(entries: seq<Tracked<S>>, wd: int)
    ensures CountOf(entries, wd) == 0 <==> wd !in Descriptors(entries)
    decreases |entries|
  {
    if entries != [] {
      var init, last := entries[..|entries| - 1], entries[|entries| - 1];
      CountZero(init, wd);
      DescriptorsSnoc(init, last);
      assert entries == init + [last];
    }
  }

  lemma {:induction false} CountErased<S>(entries: seq<Tracked<S>>, i: nat)
    requires i < |entries|
    ensures CountOf(Erased(entries, i), entries[i].wd) == CountOf(entries, entries[i].wd) - 1
    decreases |entries|
  {
    var n := |entries| - 1;
    if i == n {
      assert Erased(entries, i) == entries[..n];
    } else {
      CountErased(entries[..n], i);
      var erased := Erased(entries, i);
      assert erased == Erased(entries[..n], i) + [entries[n]];
      assert erased[..|erased| - 1] == Erased(entries[..n], i);
    }
  }

  lemma ErasedElsewhere<S>(entries: seq<Tracked<S>>, i: nat, d: int)
    requires i < |entries|
    ensures d in Descriptors(Erased(entries, i)) ==> d in Descriptors(entries)
    ensures d in Descriptors(entries) && d != entries[i].wd ==> d in Descriptors(Erased(entries, i))
  {
    var after := Erased(entries, i);
    if d in Descriptors(after) {
      var j :| 0 <= j < |after| && after[j].wd == d;
      assert after[j] == entries[if j < i then j else j + 1];
    }
    if d in Descriptors(entries) && d != entries[i].wd {
      var j :| 0 <= j < |entries| && entries[j].wd == d;
      assert entries[j] == after[if j < i then j else j - 1];
    }
  }

  lemma DescriptorsErased<S>(entries: seq<Tracked<S>>, i: nat)
    requires i < |entries|
    ensures var after := Erased(entries, i);
            Descriptors(after) == if CountOf(entries, entries[i].wd) == 1 then Descriptors(entries) - {entries[i].wd}
                                  else Descriptors(entries)
  {
    hide CountOf, Erased, Descriptors;
    var after, wd := Erased(entries, i), entries[i].wd;
    CountErased(entries, i);
    CountZero(after, wd);
    CountZero(entries, wd);
    forall d
      ensures d in Descriptors(after) ==> d in Descriptors(entries)
      ensures d in Descriptors(entries) && d != wd ==> d in Descriptors(after)
    {
      ErasedElsewhere(entries, i, d);
    }
  }

  /** Erasing one entry, and its watch with it if it was the last, is removing that entry. */
  lemma EraseOne<S>(w: Watches<S>, i: nat)
    requires NoRepeats(w.entries) && i < |w.entries|
    ensures var e := w.entries[i];
            RemoveAll(w, {e}) ==
            Watches(Erased(w.entries, i), if CountOf(w.entries, e.wd) == 1 then w.live - {e.wd} else w.live, w.dropped)
  {
    hide Kept, CountOf, NoRepeats;
    ErasedKept(w.entries, i);
    DescriptorsErased(w.entries, i);
  }

  lemma ErasedNoRepeats<S>(entries: seq<Tracked<S>>, i: nat)
    requires i < |entries| && NoRepeats(entries)
    ensures NoRepeats(Erased(entries, i))
  {}

  lemma RemovedOrKept<S>(w: Watches<S>, gone: set<Tracked<S>>)
    ensures forall e :: e in w.entries ==> e in gone || e in RemoveAll(w, gone).entries
  {}

  lemma RemoveNone<S>(w: Watches<S>)
    ensures RemoveAll(w, {}) == w
  {
    KeptAll(w.entries, {});
  }
}
