/** The index of watched paths by file identity. */
module IdentityIndexes {
  import opened Bytes
  import opened Options
  import opened Subtrees

  datatype FileIdentity = FileIdentity(device: nat, inode: nat)

  datatype IndexedPath = IndexedPath(identity: FileIdentity, mtime: nat, linkCount: nat, isDirectory: bool)

  type Entries = map<Text, IndexedPath>

  /** The paths indexed under an identity. */
  function PathsOf(m: Entries, id: FileIdentity): set<Text> {
    set p | p in m && m[p].identity == id
  }

  /** At or below the watched directory, which may be the root of the filesystem. */
  predicate IsUnder(path: Text, root: Text) {
    IsPathOrDescendant(path, root) || (root == [SLASH] && path != [] && path[0] == SLASH)
  }

  ghost predicate Rooted(m: Entries, root: Text) {
    forall p :: p in m ==> IsUnder(p, root)
  }

  /** Every indexed path lies under the root, and everything in between is indexed as well. */
  ghost predicate AncestorsIndexed(m: Entries, root: Text) {
    Rooted(m, root) && forall p, d :: p in m && IsDescendant(p, d) && IsUnder(d, root) ==> d in m
  }

  /** As a scan finds them, the paths in between are directories. */
  ghost predicate PrefixClosed(m: Entries, root: Text) {
    AncestorsIndexed(m, root) && forall p, d :: p in m && IsDescendant(p, d) && IsUnder(d, root) ==> m[d].isDirectory
  }

  /** No indexed file has anything indexed below it. */
  ghost predicate FilesAreLeaves(m: Entries) {
    forall p, q :: p in m && q in m && IsDescendant(q, p) ==> m[p].isDirectory
  }

  lemma ClosedLeaves(m: Entries, root: Text)
    requires PrefixClosed(m, root)
    ensures FilesAreLeaves(m)
  {}

  /** What `remove` takes away. */
  function Without(m: Entries, path: Text): Entries {
    if path in m && !m[path].isDirectory then m - {path} else m - Subtree(m, path)
  }

  function Renamed(m: Entries, source: Text, target: Text): Entries {
    if source in m && !m[source].isDirectory then (m - {source})[target := m[source]] else Rekey(m, source, target)
  }

  /** On a prefix-closed index, removing and renaming treat the whole subtree alike. */
  lemma WholeSubtree(m: Entries, root: Text, source: Text, target: Text)
    requires PrefixClosed(m, root)
    ensures Without(m, source) == m - Subtree(m, source)
    ensures Renamed(m, source, target) == Rekey(m, source, target)
  {
    ClosedLeaves(m, root);
    if source in m && !m[source].isDirectory {
      assert Subtree(m, source) == {source};
      MovedIs(m, {source}, source, target);
      assert Rebase(source, source, target) == target;
      var moved := Moved(m, {source}, source, target);
      assert moved == map[target := m[source]] by {
        forall t | t in moved
          ensures t == target
        {
          assert Rebase(t, target, source) == source;
        }
      }
    }
  }

  /** What removing leaves is exactly what is neither the path nor below it, unless a file has something below it. */
  lemma WithoutExact(m: Entries, path: Text)
    ensures (forall p :: p in Without(m, path) <==> p in m && p != path && !IsDescendant(p, path)) <==>
            path !in m || m[path].isDirectory || forall p :: p in m ==> !IsDescendant(p, path)
  {
    if p :| p in m && IsDescendant(p, path) {
      assert path in m && !m[path].isDirectory ==> p in Without(m, path);
    }
  }

  /** In every index a file goes and moves alone, whatever is indexed below it. */
  lemma FilesAlone(m: Entries, source: Text, target: Text, p: Text)
    requires source in m && !m[source].isDirectory && p != source
    ensures source !in Without(m, source)
    ensures (p in Without(m, source) <==> p in m) && (p in m ==> Without(m, source)[p] == m[p])
    ensures target in Renamed(m, source, target) && Renamed(m, source, target)[target] == m[source]
    ensures source in Renamed(m, source, target) <==> source == target
    ensures p != target ==> (p in Renamed(m, source, target) <==> p in m)
                            && (p in m ==> Renamed(m, source, target)[p] == m[p])
  {}

  // ------------------------------------------------------------ the class

  ghost predicate Inverse(m: Entries, buckets: map<FileIdentity, set<Text>>) {
    forall id :: (id in buckets <==> PathsOf(m, id) != {}) && (id in buckets ==> buckets[id] == PathsOf(m, id))
  }

  function Bucket(buckets: map<FileIdentity, set<Text>>, id: FileIdentity): set<Text> {
    if id in buckets then buckets[id] else {}
  }

  lemma InverseAdd(m: Entries, buckets: map<FileIdentity, set<Text>>, path: Text, entry: IndexedPath)
    requires Inverse(m, buckets) && path !in m
    ensures Inverse(m[path := entry], buckets[entry.identity := Bucket(buckets, entry.identity) + {path}])
  {
    forall id
      ensures PathsOf(m[path := entry], id) == PathsOf(m, id) + (if id == entry.identity then {path} else {})
    {}
  }

  class IdentityIndex {
    var byPath: Entries
    var byIdentity: map<FileIdentity, set<Text>>

    /** The two maps are exact inverses, without empty buckets. */
    ghost predicate Valid()
      reads this
    {
      Inverse(byPath, byIdentity)
    }

    constructor ()
      ensures Valid() && byPath == map[]
    {
      byPath, byIdentity := map[], map[];
    }

    function Find(path: Text): Option<IndexedPath>
      reads this
    {
      if path in byPath then Some(byPath[path]) else None
    }

    method PathCount(identity: FileIdentity) returns (count: nat)
      requires Valid()
      ensures count == |PathsOf(byPath, identity)|
    {
      return if identity in byIdentity then |byIdentity[identity]| else 0;
    }

    method RemoveExact(path: Text)
      requires Valid()
      modifies this
      ensures Valid() && byPath == old(byPath) - {path}
    {
      if path !in byPath {
        return;
      }
      var identity := byPath[path].identity;
      ghost var before := byPath;
      if identity in byIdentity {
        byIdentity := byIdentity[identity := byIdentity[identity] - {path}];
        if byIdentity[identity] == {} {
          byIdentity := byIdentity - {identity};
        }
      }
      byPath := byPath - {path};
      forall id
        ensures PathsOf(byPath, id) == PathsOf(before, id) - (if id == identity then {path} else {})
      {}
    }

    method Add(path: Text, entry: IndexedPath)
      requires Valid()
      modifies this
      ensures Valid() && byPath == old(byPath)[path := entry]
    {
      RemoveExact(path);
      InverseAdd(byPath, byIdentity, path, entry);
      byPath := byPath[path := entry];
      byIdentity := byIdentity[entry.identity := Bucket(byIdentity, entry.identity) + {path}];
    }

    /** The indexed paths at or below `path`, in some order. */
    method CollectSubtree(path: Text) returns (found: seq<Text>)
      ensures forall p :: p in found <==> p in Subtree(byPath, path)
    {
      found := [];
      var todo := byPath.Keys;
      while todo != {}
        invariant todo <= byPath.Keys
        invariant forall p :: p in found <==> p in Subtree(byPath, path) && p !in todo
        decreases todo
      {
        var p :| p in todo;
        if p == path || IsDescendant(p, path) {
          found := found + [p];
        }
        todo := todo - {p};
      }
    }

    method Remove(path: Text)
      requires Valid()
      modifies this
      ensures Valid() && byPath == Without(old(byPath), path)
    {
      if path in byPath && !byPath[path].isDirectory {
        RemoveExact(path);
        return;
      }
      var removed := CollectSubtree(path);
      ghost var gone: set<Text> := {};
      for i := 0 to |removed|
        invariant Valid() && gone == (set p | p in removed[..i]) && byPath == old(byPath) - gone
      {
        RemoveExact(removed[i]);
        gone := gone + {removed[i]};
        assert removed[..i + 1] == removed[..i] + [removed[i]];
      }
      assert removed[..|removed|] == removed;
      assert gone == Subtree(old(byPath), path);
    }

    method Rename(oldPath: Text, newPath: Text)
      requires Valid()
      modifies this
      ensures Valid() && byPath == Renamed(old(byPath), oldPath, newPath)
    {
      if oldPath in byPath && !byPath[oldPath].isDirectory {
        var entry := byPath[oldPath];
        RemoveExact(oldPath);
        Add(newPath, entry);
        return;
      }
      RenameTree(oldPath, newPath);
    }

    method RenameTree(oldPath: Text, newPath: Text)
      requires Valid() && !(oldPath in byPath && !byPath[oldPath].isDirectory)
      modifies this
      ensures Valid() && byPath == Rekey(old(byPath), oldPath, newPath)
    {
      hide Moved, Valid, IsPathOrDescendant;
      var sources := CollectSubtree(oldPath);
      var entries := byPath;
      Remove(oldPath);
      ghost var sub := Subtree(entries, oldPath);
      ghost var done: set<Text> := {};
      MovedNone(entries, oldPath, newPath);
      for i := 0 to |sources|
        invariant Valid() && done == (set p | p in sources[..i]) && done <= sub
        invariant forall p :: p in done ==> p in entries && IsPathOrDescendant(p, oldPath)
        invariant byPath == (entries - sub) + Moved(entries, done, oldPath, newPath)
      {
        var p := sources[i];
        assert p in sources;
        assert p in sub;
        MovedAdd(entries, done, p, oldPath, newPath);
        assert |oldPath| <= |p| by { PrefixShorter(p, oldPath); }
        Add(newPath + p[|oldPath|..], entries[p]);
        done := done + {p};
        assert sources[..i + 1] == sources[..i] + [p];
      }
      assert sources[..|sources|] == sources;
      assert done == sub;
    }
  }
}
