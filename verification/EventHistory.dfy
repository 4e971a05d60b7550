/** What the coalesced batches say about the history of a filesystem. */
module EventHistory {
  import opened Bytes
  import opened Options
  import opened EventLog

  datatype Change =
    | CreateChange(key: Key)
    | UpdateChange(key: Key)
    | RemoveChange(key: Key)
    | RenameChange(source: Text, target: Text, kind: EntryKind, id: Text)
    | DrainChange

  /** The rename an id was issued for: where the object was, and which object it was. */
  datatype Issue = Issue(source: Key, moved: nat)

  /** The filesystem beside the log: the object at each present key, the keys present at the last
      drain, the keys named by a change since, and the rename ids issued so far. */
  datatype World = World(log: Log, present: map<Key, nat>, base: set<Key>, touched: set<Key>,
                         issued: map<Text, Issue>, next: nat)

  predicate Consistent(w: World, c: Change) {
    match c
    case CreateChange(k) => k !in w.present
    case UpdateChange(k) => k in w.present
    case RemoveChange(k) => k in w.present
    case RenameChange(s, t, kind, _) => Key(s, kind) in w.present && Key(t, kind) !in w.present
    case DrainChange => true
  }

  function Next(w: World, c: Change): World
    requires Consistent(w, c)
  {
    match c
    case CreateChange(k) =>
      w.(log := Create(w.log, k), present := w.present[k := w.next], touched := w.touched + {k}, next := w.next + 1)
    case UpdateChange(k) => w.(log := Touch(w.log, k), touched := w.touched + {k})
    case RemoveChange(k) => w.(log := Remove(w.log, k), present := w.present - {k}, touched := w.touched + {k})
    case RenameChange(sp, tp, kind, id) =>
      var s, t := Key(sp, kind), Key(tp, kind);
      w.(log := Rename(w.log, s, t, id), present := (w.present - {s})[t := w.present[s]],
         touched := w.touched + {s, t}, issued := w.issued[id := Issue(s, w.present[s])])
    case DrainChange => w.(log := map[], base := w.present.Keys, touched := {})
  }

  predicate ConsistentRun(w: World, changes: seq<Change>)
    decreases |changes|
  {
    changes == [] || (Consistent(w, changes[0]) && ConsistentRun(Next(w, changes[0]), changes[1..]))
  }

  function Run(w: World, changes: seq<Change>): World
    requires ConsistentRun(w, changes)
    decreases |changes|
  {
    if changes == [] then w else Run(Next(w, changes[0]), changes[1..])
  }

  /** The batches delivered along a run. */
  function Batches(w: World, changes: seq<Change>): seq<Log>
    requires ConsistentRun(w, changes)
    decreases |changes|
  {
    if changes == [] then []
    else (if changes[0].DrainChange? then [Drained(w.log)] else []) + Batches(Next(w, changes[0]), changes[1..])
  }

  /** A filesystem with an empty log. */
  predicate Start(w: World) {
    && w.log == map[] && w.base == w.present.Keys && w.touched == {} && w.issued == map[]
    && (forall k :: k in w.present ==> w.present[k] < w.next)
    && (forall j, k :: j in w.present && k in w.present && w.present[j] == w.present[k] ==> j == k)
  }

  // ------------------------------------------------------------ one rename

  lemma RenameFrame(m: Log, s: Key, t: Key, id: Text, j: Key)
    requires j != s && j != t
    ensures j in Rename(m, s, t, id) <==> j in m
    ensures j in m ==> Rename(m, s, t, id)[j] == m[j]
  {}

  /** The source side: gone if it was created in this batch, otherwise a delete. */
  lemma RenameSource(m: Log, s: Key, t: Key, id: Text)
    requires s != t
    ensures s in m && m[s].isCreated ==> s !in Rename(m, s, t, id)
    ensures !(s in m && m[s].isCreated) ==>
              && s in Rename(m, s, t, id) && Rename(m, s, t, id)[s].IsDelete()
              && Rename(m, s, t, id)[s].renameId == (if t in m && m[t].isDeleted then None else Some(id))
  {}

  /** The target side: no longer a delete, and a create unless it only was one. */
  lemma RenameTarget(m: Log, s: Key, t: Key, id: Text)
    requires s != t
    ensures t in Rename(m, s, t, id)
    ensures var e := Rename(m, s, t, id)[t];
            && !e.isDeleted && e.isCreated == (if t in m && m[t].isDeleted then m[t].isCreated else true)
            && e.renameId == (if t in m && m[t].isDeleted then None
                              else if s in m && m[s].isCreated then m[s].renameId
                              else Some(id))
  {}

  // ------------------------------------------------------------ net change

  /** What the flags of one key mean against the last drain. */
  ghost predicate FlagsMean(w: World, k: Key) {
    && (k in w.base && k !in w.present ==> k in w.log && w.log[k].IsDelete())
    && (k !in w.base && k in w.present ==> k in w.log && w.log[k].IsCreate())
    && (k !in w.base && k !in w.present && k in w.log ==> !w.log[k].Visible())
    && (k in w.base && k in w.present ==> (k in w.log <==> k in w.touched) && (k in w.log ==> w.log[k].IsUpdate()))
  }

  ghost predicate AllFlags(w: World) {
    forall k :: FlagsMean(w, k)
  }

  lemma RenameFlags(w: World, s: Key, t: Key, id: Text, k: Key)
    requires AllFlags(w) && s.kind == t.kind && Consistent(w, RenameChange(s.path, t.path, s.kind, id))
    ensures FlagsMean(Next(w, RenameChange(s.path, t.path, s.kind, id)), k)
  {
    assert FlagsMean(w, s) && FlagsMean(w, t) && FlagsMean(w, k);
    assert Key(s.path, s.kind) == s && Key(t.path, s.kind) == t;
    RenameSource(w.log, s, t, id);
    RenameTarget(w.log, s, t, id);
    if k != s && k != t {
      RenameFrame(w.log, s, t, id, k);
    }
  }

  /** Every change keeps the flags of every key right. */
  lemma FlagsKept(w: World, c: Change)
    requires AllFlags(w) && Consistent(w, c)
    ensures AllFlags(Next(w, c))
  {
    match c
    case RenameChange(s, t, kind, id) =>
      forall k { RenameFlags(w, Key(s, kind), Key(t, kind), id, k); }
    case _ =>
      forall k
        ensures FlagsMean(Next(w, c), k)
      {
        assert FlagsMean(w, k);
      }
  }

  lemma {:induction false} FlagsAlways(w: World, changes: seq<Change>)
    requires AllFlags(w) && ConsistentRun(w, changes)
    ensures AllFlags(Run(w, changes))
    decreases |changes|
  {
    if changes != [] {
      FlagsKept(w, changes[0]);
      FlagsAlways(Next(w, changes[0]), changes[1..]);
    }
  }

  function CreatedIn(batch: Log): set<Key> { set k | k in batch && batch[k].IsCreate() }
  function DeletedIn(batch: Log): set<Key> { set k | k in batch && batch[k].IsDelete() }
  function UpdatedIn(batch: Log): set<Key> { set k | k in batch && batch[k].IsUpdate() }

  lemma DrainedFlags(m: Log, k: Key)
    ensures k in Drained(m) <==> k in m && m[k].Visible()
    ensures k in Drained(m) ==>
              (Drained(m)[k].IsCreate() <==> m[k].IsCreate()) && (Drained(m)[k].IsDelete() <==> m[k].IsDelete()) &&
              (Drained(m)[k].IsUpdate() <==> m[k].IsUpdate())
  {}

  /** The exact net change since the last drain. */
  ghost predicate IsNetChange(batch: Log, base: set<Key>, present: set<Key>, touched: set<Key>) {
    && CreatedIn(batch) == present - base
    && DeletedIn(batch) == base - present
    && UpdatedIn(batch) == base * present * touched
  }

  lemma FlagsGiveNet(w: World)
    requires AllFlags(w)
    ensures IsNetChange(Drained(w.log), w.base, w.present.Keys, w.touched)
  {
    forall k
      ensures k in CreatedIn(Drained(w.log)) <==> k in w.present.Keys - w.base
      ensures k in DeletedIn(Drained(w.log)) <==> k in w.base - w.present.Keys
      ensures k in UpdatedIn(Drained(w.log)) <==> k in w.base * w.present.Keys * w.touched
    {
      assert FlagsMean(w, k);
      DrainedFlags(w.log, k);
    }
  }

  /** Whenever the list is drained along a consistent run, the batch is exactly the net change. */
  lemma BatchIsNetChange(w: World, changes: seq<Change>)
    requires Start(w) && ConsistentRun(w, changes)
    ensures var now := Run(w, changes);
            IsNetChange(Drained(now.log), now.base, now.present.Keys, now.touched)
  {
    forall k
      ensures FlagsMean(w, k)
    {}
    FlagsAlways(w, changes);
    FlagsGiveNet(Run(w, changes));
  }

  // ------------------------------------------------------------ replay

  /** A consumer's picture of the filesystem, brought up to date by one batch. */
  function Apply(known: set<Key>, batch: Log): set<Key> {
    (known - DeletedIn(batch)) + CreatedIn(batch)
  }

  function Replay(known: set<Key>, batches: seq<Log>): set<Key>
    decreases |batches|
  {
    if batches == [] then known else Replay(Apply(known, batches[0]), batches[1..])
  }

  lemma {:induction false} ReplayFollows(w: World, changes: seq<Change>)
    requires AllFlags(w) && ConsistentRun(w, changes)
    ensures Replay(w.base, Batches(w, changes)) == Run(w, changes).base
    decreases |changes|
  {
    if changes != [] {
      var c, rest := changes[0], changes[1..];
      FlagsKept(w, c);
      ReplayFollows(Next(w, c), rest);
      var later := Batches(Next(w, c), rest);
      if c.DrainChange? {
        FlagsGiveNet(w);
        assert Apply(w.base, Drained(w.log)) == w.present.Keys;
        assert Batches(w, changes) == [Drained(w.log)] + later;
        assert ([Drained(w.log)] + later)[1..] == later;
      } else {
        assert [] + later == later;
      }
    }
  }

  /** Replaying all delivered batches gives exactly the keys present at the last drain. */
  lemma ReplayReproduces(w: World, changes: seq<Change>)
    requires Start(w) && ConsistentRun(w, changes)
    ensures Replay(w.present.Keys, Batches(w, changes)) == Run(w, changes).base
    ensures changes != [] && changes[|changes| - 1].DrainChange? ==>
              Run(w, changes).base == Run(w, changes).present.Keys
  {
    forall k
      ensures FlagsMean(w, k)
    {}
    ReplayFollows(w, changes);
    if changes != [] && changes[|changes| - 1].DrainChange? {
      EndsInDrain(w, changes);
    }
  }

  lemma {:induction false} EndsInDrain(w: World, changes: seq<Change>)
    requires ConsistentRun(w, changes) && changes != [] && changes[|changes| - 1].DrainChange?
    ensures Run(w, changes).base == Run(w, changes).present.Keys
    decreases |changes|
  {
    if |changes| > 1 {
      EndsInDrain(Next(w, changes[0]), changes[1..]);
    }
  }

  // ------------------------------------------------------------ rename ids

  predicate FreshIds(w: World, changes: seq<Change>)
    requires ConsistentRun(w, changes)
    decreases |changes|
  {
    changes == [] ||
    ((changes[0].RenameChange? ==> changes[0].id !in w.issued) && FreshIds(Next(w, changes[0]), changes[1..]))
  }

  /** An id in the log stands on a delete at its rename's source, or on a create at the place the moved
      object is at now; it never stands on an update or on an invisible event. */
  ghost predicate IdMeans(w: World, k: Key) {
    k in w.log && w.log[k].renameId.Some? ==>
      var id := w.log[k].renameId.value;
      && id in w.issued && w.issued[id].source.kind == k.kind
      && (w.log[k].IsDelete() || w.log[k].IsCreate())
      && (w.log[k].IsDelete() ==> w.issued[id].source == k)
      && (w.log[k].IsCreate() ==> k in w.present && w.present[k] == w.issued[id].moved)
  }

  ghost predicate AllIds(w: World) {
    forall k :: IdMeans(w, k)
  }

  ghost predicate ObjectsDistinct(w: World) {
    && (forall k :: k in w.present ==> w.present[k] < w.next)
    && (forall j, k :: j in w.present && k in w.present && w.present[j] == w.present[k] ==> j == k)
  }

  lemma RenameIdKept(w: World, s: Key, t: Key, id: Text, k: Key)
    requires AllFlags(w) && AllIds(w) && s.kind == t.kind && Consistent(w, RenameChange(s.path, t.path, s.kind, id))
    requires id !in w.issued
    ensures IdMeans(Next(w, RenameChange(s.path, t.path, s.kind, id)), k)
  {
    assert FlagsMean(w, s) && FlagsMean(w, t) && IdMeans(w, s) && IdMeans(w, t) && IdMeans(w, k);
    assert Key(s.path, s.kind) == s && Key(t.path, s.kind) == t;
    RenameSource(w.log, s, t, id);
    RenameTarget(w.log, s, t, id);
    if k != s && k != t {
      RenameFrame(w.log, s, t, id, k);
    }
  }

  lemma ObjectsKept(w: World, c: Change)
    requires ObjectsDistinct(w) && Consistent(w, c)
    ensures ObjectsDistinct(Next(w, c))
  {}

  lemma IdsKept(w: World, c: Change)
    requires AllFlags(w) && AllIds(w) && Consistent(w, c)
    requires c.RenameChange? ==> c.id !in w.issued
    ensures AllIds(Next(w, c))
  {
    match c
    case RenameChange(s, t, kind, id) =>
      forall k { RenameIdKept(w, Key(s, kind), Key(t, kind), id, k); }
    case _ =>
      forall k
        ensures IdMeans(Next(w, c), k)
      {
        assert IdMeans(w, k) && FlagsMean(w, k);
      }
  }

  lemma {:induction false} IdsAlways(w: World, changes: seq<Change>)
    requires AllFlags(w) && AllIds(w) && ObjectsDistinct(w) && ConsistentRun(w, changes) && FreshIds(w, changes)
    ensures AllIds(Run(w, changes)) && ObjectsDistinct(Run(w, changes))
    decreases |changes|
  {
    if changes != [] {
      FlagsKept(w, changes[0]);
      IdsKept(w, changes[0]);
      ObjectsKept(w, changes[0]);
      IdsAlways(Next(w, changes[0]), changes[1..]);
    }
  }

  /** `d` and `c` are the two ends of the rename the exposed id was issued for. */
  ghost predicate TrueRename(w: World, id: Text, d: Key, c: Key) {
    var batch := Drained(w.log);
    && d in batch && c in batch && batch[d].IsDelete() && batch[c].IsCreate()
    && batch[d].renameId == Some(id) && batch[c].renameId == Some(id)
    && (forall k :: k in batch && batch[k].renameId == Some(id) ==> k == d || k == c)
    && d.kind == c.kind && id in w.issued && w.issued[id].source == d
    && c in w.present && w.present[c] == w.issued[id].moved
    && (forall k :: k in w.present && w.present[k] == w.issued[id].moved ==> k == c)
  }

  /** No false and no half rename: every exposed id joins exactly the source of a rename that happened
      and the one place where the object it moved is now, through chains of any length. */
  lemma ExposedIdsAreTrue(w: World, changes: seq<Change>, k: Key) returns (d: Key, c: Key)
    requires Start(w) && ConsistentRun(w, changes) && FreshIds(w, changes)
    requires k in Drained(Run(w, changes).log) && Drained(Run(w, changes).log)[k].renameId.Some?
    ensures TrueRename(Run(w, changes), Drained(Run(w, changes).log)[k].renameId.value, d, c)
  {
    forall j
      ensures FlagsMean(w, j) && IdMeans(w, j)
    {}
    FlagsAlways(w, changes);
    IdsAlways(w, changes);
    var now := Run(w, changes);
    var id := now.log[k].renameId.value;
    d, c := PairedJoins(now.log, id);
    assert IdMeans(now, d) && IdMeans(now, c);
  }

  // ------------------------------------------------------------ no id is missing

  /** A rename of something untouched to a place that is not being replaced is exposed. */
  lemma IdBegins(w: World, s: Text, t: Text, kind: EntryKind, id: Text)
    requires AllFlags(w) && AllIds(w) && Consistent(w, RenameChange(s, t, kind, id)) && id !in w.issued
    ensures JoinedBy(Next(w, RenameChange(s, t, kind, id)).log, id, Key(s, kind), Key(t, kind)) <==>
            && !(Key(s, kind) in w.log && w.log[Key(s, kind)].isCreated)
            && !(Key(t, kind) in w.log && w.log[Key(t, kind)].isDeleted)
  {
    var sk, tk := Key(s, kind), Key(t, kind);
    var after := Next(w, RenameChange(s, t, kind, id)).log;
    RenameSource(w.log, sk, tk, id);
    RenameTarget(w.log, sk, tk, id);
    assert FlagsMean(w, sk) && FlagsMean(w, tk);
    assert forall k :: k in w.log && w.log[k].renameId == Some(id) ==> IdMeans(w, k);
    forall k | k in after && after[k].Visible() && after[k].renameId == Some(id)
      ensures k == sk || k == tk
    {
      if k != sk && k != tk {
        RenameFrame(w.log, sk, tk, id, k);
      }
    }
  }

  /** What takes an exposed id back: the object is removed or the list drained, its old place is taken again,
      or it goes where something was deleted in this batch. */
  predicate EndsId(w: World, c: Change, d: Key, k: Key) {
    match c
    case CreateChange(j) => j == d
    case UpdateChange(_) => false
    case RemoveChange(j) => j == k
    case RenameChange(s, t, kind, _) =>
      Key(t, kind) == d || (Key(s, kind) == k && Key(t, kind) in w.log && w.log[Key(t, kind)].isDeleted)
    case DrainChange => true
  }

  /** An exposed id stays exposed, at the place the object is at then, exactly until one of these happens. */
  lemma IdStays(w: World, c: Change, id: Text, d: Key, k: Key) returns (at: Key)
    requires AllFlags(w) && AllIds(w) && Consistent(w, c) && (c.RenameChange? ==> c.id !in w.issued)
    requires JoinedBy(w.log, id, d, k)
    ensures at == if c.RenameChange? && Key(c.source, c.kind) == k then Key(c.target, c.kind) else k
    ensures Paired(Next(w, c).log, id) <==> !EndsId(w, c, d, k)
    ensures !EndsId(w, c, d, k) ==> JoinedBy(Next(w, c).log, id, d, at)
  {
    hide Paired, AllFlags, AllIds;
    at := if c.RenameChange? && Key(c.source, c.kind) == k then Key(c.target, c.kind) else k;
    if c.RenameChange? {
      IdUnderRename(w, c, id, d, k, at);
    } else {
      IdUnderOthers(w, c, id, d, k);
    }
    PairedStands(Next(w, c).log, id, d, at, EndsId(w, c, d, k));
  }

  lemma PairedStands(m: Log, id: Text, d: Key, at: Key, ended: bool)
    requires StandsOn(m, id, d, at, ended)
    ensures Paired(m, id) <==> !ended
  {
    hide Paired;
    PairedMeans(m, id);
    if d', c' :| JoinedBy(m, id, d', c') {
      assert d' != c';
    }
  }

  /** After a change the id stands on its two places at most, and on both exactly if nothing ended it. */
  ghost predicate StandsOn(m: Log, id: Text, d: Key, at: Key, ended: bool) {
    && (forall j :: j in m && m[j].Visible() && m[j].renameId == Some(id) ==> j == d || j == at)
    && (!ended ==> JoinedBy(m, id, d, at))
    && (ended ==> (d !in m || m[d].renameId != Some(id)) || (at !in m || m[at].renameId != Some(id)))
  }

  lemma IdUnderOthers(w: World, c: Change, id: Text, d: Key, k: Key)
    requires AllFlags(w) && AllIds(w) && Consistent(w, c) && !c.RenameChange? && JoinedBy(w.log, id, d, k)
    ensures StandsOn(Next(w, c).log, id, d, k, EndsId(w, c, d, k))
  {
    assert FlagsMean(w, d) && FlagsMean(w, k) && IdMeans(w, d) && IdMeans(w, k);
    assert forall j :: j in w.log && w.log[j].renameId == Some(id) ==> IdMeans(w, j);
  }

  lemma IdUnderRename(w: World, c: Change, id: Text, d: Key, k: Key, at: Key)
    requires AllFlags(w) && AllIds(w) && Consistent(w, c) && c.RenameChange? && c.id !in w.issued
    requires JoinedBy(w.log, id, d, k) && at == if Key(c.source, c.kind) == k then Key(c.target, c.kind) else k
    ensures StandsOn(Next(w, c).log, id, d, at, EndsId(w, c, d, k))
  {
    hide Rename;
    var s, t := Key(c.source, c.kind), Key(c.target, c.kind);
    assert FlagsMean(w, d) && FlagsMean(w, k) && FlagsMean(w, s) && IdMeans(w, d) && IdMeans(w, k);
    assert forall j :: j in w.log && w.log[j].renameId == Some(id) ==> IdMeans(w, j);
    RenameSource(w.log, s, t, c.id);
    RenameTarget(w.log, s, t, c.id);
    forall j | j != s && j != t { RenameFrame(w.log, s, t, c.id, j); }
  }

  // ------------------------------------------------------------ chains keep their first id

  /** The log with an untouched entry's move recorded: a delete at one end, a create at the other. */
  function Moved(m: Log, s: Key, t: Key, id: Text): Log {
    m[s := Event(s.path, s.kind, false, true, Some(id))][t := Event(t.path, t.kind, true, false, Some(id))]
  }

  lemma FirstMove(m: Log, s: Key, t: Key, id: Text)
    requires s !in m && t !in m && s != t
    ensures Rename(m, s, t, id) == Moved(m, s, t, id)
  {}

  /** A further move of the same entry only moves the create; the id of the first move stays. */
  lemma NextMove(m: Log, s: Key, t: Key, u: Key, first: Text, id: Text)
    requires s !in m && t !in m && u !in m && s != t && t != u && s != u
    ensures Rename(Moved(m, s, t, first), t, u, id) == Moved(m, s, u, first)
  {}
}
