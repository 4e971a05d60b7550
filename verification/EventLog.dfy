/** Coalescing filesystem events: the log as a value and what its operations do to it. */
module EventLog {
  import opened Bytes
  import opened Options

  datatype EntryKind = File | Directory

  datatype Key = Key(path: Text, kind: EntryKind)

  datatype Event = Event(path: Text, kind: EntryKind, isCreated: bool, isDeleted: bool, renameId: Option<Text>)
  {
    /** Events of a path that came and went within one batch are not reported. */
    predicate Visible() { !(isCreated && isDeleted) }

    /** What the script callback is told. */
    predicate IsCreate() { isCreated && !isDeleted }
    predicate IsDelete() { !isCreated && isDeleted }
    predicate IsUpdate() { !isCreated && !isDeleted }
  }

  function KeyOf(e: Event): Key { Key(e.path, e.kind) }

  type Log = map<Key, Event>

  ghost predicate WellKeyed(m: Log) {
    forall k :: k in m ==> m[k].path == k.path && m[k].kind == k.kind
  }

  // ------------------------------------------------------------ the operations on a log

  function Touch(m: Log, k: Key): Log {
    if k in m then m else m[k := Event(k.path, k.kind, false, false, None)]
  }

  function Create(m: Log, k: Key): Log {
    var t := Touch(m, k);
    if t[k].isDeleted then t[k := t[k].(isDeleted := false, renameId := None)]
    else t[k := t[k].(isCreated := true)]
  }

  function Remove(m: Log, k: Key): Log {
    var t := Touch(m, k);
    t[k := t[k].(isDeleted := true, renameId := None)]
  }

  /** The target side of a rename whose source was created in this batch under the id `original`. */
  function CarryCreate(m: Log, target: Key, original: Option<Text>): Log {
    var t := Touch(m, target);
    if t[target].isDeleted then t[target := t[target].(isDeleted := false, renameId := None)]
    else t[target := t[target].(isCreated := true, isDeleted := false, renameId := original)]
  }

  function SetId(m: Log, k: Key, id: Option<Text>): Log
    requires k in m
  {
    m[k := m[k].(renameId := id)]
  }

  function Rename(m: Log, source: Key, target: Key, id: Text): Log {
    if source in m && m[source].isCreated then
      CarryCreate(m - {source}, target, m[source].renameId)
    else
      var removed := Touch(m, source)[source := Touch(m, source)[source].(isDeleted := true)];
      var both := Touch(removed, target);
      if both[target].isDeleted then
        SetId(SetId(both[target := both[target].(isDeleted := false)], source, None), target, None)
      else
        SetId(SetId(both[target := both[target].(isCreated := true)], source, Some(id)), target, Some(id))
  }

  // ------------------------------------------------------------ what a drain exposes

  function VisibleKeys(m: Log): set<Key> {
    set k | k in m && m[k].Visible()
  }

  datatype Side = Created | Deleted | Other

  function SideOf(e: Event): Side {
    if e.isCreated then Created else if e.isDeleted then Deleted else Other
  }

  /** Among `keys`, the visible events that carry the id on the given side. */
  function Carriers(m: Log, keys: set<Key>, id: Text, side: Side): set<Key> {
    set k | k in keys && k in m && m[k].renameId == Some(id) && m[k].Visible() && SideOf(m[k]) == side
  }

  datatype RenameParts = RenameParts(created: nat, deleted: nat, other: nat)

  function PartsOf(m: Log, keys: set<Key>, id: Text): RenameParts {
    RenameParts(|Carriers(m, keys, id, Created)|, |Carriers(m, keys, id, Deleted)|, |Carriers(m, keys, id, Other)|)
  }

  /** The id still joins exactly one delete and one create. */
  predicate Paired(m: Log, id: Text) {
    PartsOf(m, m.Keys, id) == RenameParts(1, 1, 0)
  }

  function Exposed(m: Log, k: Key): Event
    requires k in m
  {
    if m[k].renameId.Some? && !Paired(m, m[k].renameId.value) then m[k].(renameId := None) else m[k]
  }

  /** The batch a drain returns, by key. */
  function Drained(m: Log): Log {
    map k | k in VisibleKeys(m) :: Exposed(m, k)
  }

  lemma OnlyMember<T>(s: set<T>, a: T, b: T)
    requires |s| == 1 && a in s && b in s
    ensures a == b
  {
    if a != b {
      assert {a, b} <= s && |{a, b}| == 2;
      SubsetSize({a, b}, s);
    }
  }

  lemma {:induction false} SubsetSize<T>(a: set<T>, b: set<T>)
    requires a <= b
    ensures |a| <= |b|
    decreases a
  {
    if x :| x in a {
      SubsetSize(a - {x}, b - {x});
    }
  }

  /** `d` is the only delete and `c` the only create that carry the id, and nothing else does. */
  ghost predicate JoinedBy(m: Log, id: Text, d: Key, c: Key) {
    && d in m && c in m && m[d].IsDelete() && m[c].IsCreate()
    && m[d].renameId == Some(id) && m[c].renameId == Some(id)
    && (forall k :: k in m && m[k].Visible() && m[k].renameId == Some(id) ==> k == d || k == c)
  }

  lemma PairedJoins(m: Log, id: Text) returns (d: Key, c: Key)
    requires Paired(m, id)
    ensures JoinedBy(m, id, d, c)
  {
    var cs, ds, os := Carriers(m, m.Keys, id, Created), Carriers(m, m.Keys, id, Deleted),
        Carriers(m, m.Keys, id, Other);
    c :| c in cs;
    d :| d in ds;
    assert os == {};
    forall k | k in m && m[k].Visible() && m[k].renameId == Some(id)
      ensures k == d || k == c
    {
      assert k in cs + ds + os;
      if k in cs {
        OnlyMember(cs, k, c);
      } else {
        OnlyMember(ds, k, d);
      }
    }
  }

  lemma JoinedPairs(m: Log, id: Text, d: Key, c: Key)
    requires JoinedBy(m, id, d, c)
    ensures Paired(m, id)
  {
    assert Carriers(m, m.Keys, id, Created) == {c};
    assert Carriers(m, m.Keys, id, Deleted) == {d};
    assert Carriers(m, m.Keys, id, Other) == {};
  }

  /** An id is exposed exactly if it is on one delete and one create, and on nothing else. */
  lemma PairedMeans(m: Log, id: Text)
    ensures Paired(m, id) <==> exists d, c :: JoinedBy(m, id, d, c)
  {
    if Paired(m, id) {
      var d, c := PairedJoins(m, id);
    }
    if d, c :| JoinedBy(m, id, d, c) {
      JoinedPairs(m, id, d, c);
    }
  }

  /** Which set of carriers one more key joins. */
  lemma CarriersAdd(m: Log, keys: set<Key>, k: Key, id: Text, side: Side)
    requires k in m && k !in keys
    ensures |Carriers(m, keys + {k}, id, side)| == |Carriers(m, keys, id, side)| +
              (if m[k].renameId == Some(id) && m[k].Visible() && SideOf(m[k]) == side then 1 else 0)
  {
    if m[k].renameId == Some(id) && m[k].Visible() && SideOf(m[k]) == side {
      assert Carriers(m, keys + {k}, id, side) == Carriers(m, keys, id, side) + {k};
    } else {
      assert Carriers(m, keys + {k}, id, side) == Carriers(m, keys, id, side);
    }
  }

  lemma WellKeyedCreate(m: Log, k: Key)
    requires WellKeyed(m)
    ensures WellKeyed(Touch(m, k)) && WellKeyed(Create(m, k)) && WellKeyed(Remove(m, k))
  {}

  lemma WellKeyedRename(m: Log, source: Key, target: Key, id: Text)
    requires WellKeyed(m)
    ensures WellKeyed(Rename(m, source, target, id))
  {
    if source in m && m[source].isCreated {
      WellKeyedCarry(m - {source}, target, m[source].renameId);
    } else {
      hide WellKeyed;
      WellKeyedCreate(m, source);
      var t := Touch(m, source);
      var removed := WellKeyedSet(t, source, t[source].(isDeleted := true));
      WellKeyedCreate(removed, target);
      var both := Touch(removed, target);
      if both[target].isDeleted {
        var w := WellKeyedSet(both, target, both[target].(isDeleted := false));
        var x := WellKeyedSet(w, source, w[source].(renameId := None));
        var y := WellKeyedSet(x, target, x[target].(renameId := None));
      } else {
        var w := WellKeyedSet(both, target, both[target].(isCreated := true));
        var x := WellKeyedSet(w, source, w[source].(renameId := Some(id)));
        var y := WellKeyedSet(x, target, x[target].(renameId := Some(id)));
      }
    }
  }

  lemma WellKeyedCarry(m: Log, target: Key, original: Option<Text>)
    requires WellKeyed(m)
    ensures WellKeyed(CarryCreate(m, target, original))
  {}

  lemma WellKeyedSet(m: Log, k: Key, e: Event) returns (r: Log)
    requires WellKeyed(m) && k in m && e.path == m[k].path && e.kind == m[k].kind
    ensures r == m[k := e] && WellKeyed(r)
  {
    r := m[k := e];
  }
}
