/** The recorded tree of a watched directory, and its text form. */
module DirTrees {
  import opened Bytes
  import opened Options
  import opened Decimal
  import opened Subtrees

  datatype TreeEntry = TreeEntry(mtime: nat, isDir: bool)

  datatype DirEntry = DirEntry(path: Text, mtime: nat, isDir: bool)
  {
    function Value(): TreeEntry { TreeEntry(mtime, isDir) }
  }

  type Tree = map<Text, TreeEntry>

  // ------------------------------------------------------------ operations on trees

  function Without(m: Tree, path: Text): Tree {
    if path in m && m[path].isDir then m - Subtree(m, path) else m - {path}
  }

  /** Removing a path leaves exactly what is neither it nor below it, if and only if it is a known directory or
      nothing is below it. */
  lemma WithoutExact(m: Tree, path: Text)
    ensures (forall p :: p in Without(m, path) <==> p in m && p != path && !IsDescendant(p, path)) <==>
            (path in m && m[path].isDir) || forall p :: p in m ==> !IsDescendant(p, path)
  {
    if p :| p in m && IsDescendant(p, path) {
      assert !(path in m && m[path].isDir) ==> p in Without(m, path);
    }
  }

  /** Whatever the tree, the path itself goes, nothing outside it does, and a file goes alone. */
  lemma WithoutRest(m: Tree, path: Text, p: Text)
    ensures path !in Without(m, path)
    ensures p in Without(m, path) ==> p in m && Without(m, path)[p] == m[p]
    ensures p in m && p != path && (!IsDescendant(p, path) || (path in m && !m[path].isDir)) ==> p in Without(m, path)
  {}

  predicate NoneTwice(es: seq<DirEntry>) {
    forall i, j :: 0 <= i < j < |es| ==> es[i].path != es[j].path
  }

  /** The sequence lists exactly the entries at or below `path`, each once. */
  ghost predicate ListsSubtree(es: seq<DirEntry>, m: Tree, path: Text) {
    && TakenFrom(es, m, path)
    && (forall p :: p in Subtree(m, path) ==> exists i :: 0 <= i < |es| && es[i].path == p)
    && NoneTwice(es)
  }

  predicate AllAtLeast(es: seq<DirEntry>, length: nat) {
    forall i :: 0 <= i < |es| ==> length <= |es[i].path|
  }

  /** The entries put back one by one at their new places. */
  function Restored(m: Tree, es: seq<DirEntry>, oldPath: Text, newPath: Text): Tree
    requires AllAtLeast(es, |oldPath|)
  {
    if es == [] then m
    else
      var last := es[|es| - 1];
      Restored(m, es[..|es| - 1], oldPath, newPath)[Rebase(last.path, oldPath, newPath) := last.Value()]
  }

  function PathsIn(es: seq<DirEntry>): set<Text> {
    set i | 0 <= i < |es| :: es[i].path
  }

  lemma PathsInSnoc(es: seq<DirEntry>)
    requires es != []
    ensures PathsIn(es) == PathsIn(es[..|es| - 1]) + {es[|es| - 1].path}
  {
    assert forall i :: 0 <= i < |es| - 1 ==> es[..|es| - 1][i] == es[i];
  }

  ghost predicate TakenFrom(es: seq<DirEntry>, m: Tree, path: Text) {
    forall i :: 0 <= i < |es| ==> es[i].path in Subtree(m, path) && m[es[i].path] == es[i].Value()
  }

  lemma TakeOne(es: seq<DirEntry>, m: Tree, path: Text, e: DirEntry)
    requires TakenFrom(es, m, path) && NoneTwice(es) && e.path !in PathsIn(es)
    requires e.path in Subtree(m, path) && m[e.path] == e.Value()
    ensures TakenFrom(es + [e], m, path) && NoneTwice(es + [e]) && PathsIn(es + [e]) == PathsIn(es) + {e.path}
  {
    assert (es + [e])[..|es|] == es;
    PathsInSnoc(es + [e]);
    assert forall i :: 0 <= i < |es| ==> es[i].path in PathsIn(es);
  }

  lemma NothingTaken(m: Tree, path: Text)
    ensures TakenFrom([], m, path) && NoneTwice([]) && PathsIn([]) == {}
  {}

  lemma AllTaken(es: seq<DirEntry>, m: Tree, path: Text)
    requires TakenFrom(es, m, path) && NoneTwice(es) && PathsIn(es) == Subtree(m, path)
    ensures ListsSubtree(es, m, path)
  {}

  lemma TakenPaths(es: seq<DirEntry>, m: Tree, path: Text)
    requires TakenFrom(es, m, path)
    ensures AllAtLeast(es, |path|) && PathsIn(es) <= Subtree(m, path)
    ensures forall p :: p in PathsIn(es) ==> p in m && IsPathOrDescendant(p, path)
  {
    forall i | 0 <= i < |es| { PrefixShorter(es[i].path, path); }
  }

  lemma {:induction false} RestoredMoved(base: Tree, m: Tree, es: seq<DirEntry>, oldPath: Text, newPath: Text)
    requires TakenFrom(es, m, oldPath)
    ensures AllAtLeast(es, |oldPath|)
    ensures forall p :: p in PathsIn(es) ==> p in m && IsPathOrDescendant(p, oldPath)
    ensures Restored(base, es, oldPath, newPath) == base + Moved(m, PathsIn(es), oldPath, newPath)
    decreases |es|
  {
    TakenPaths(es, m, oldPath);
    if es == [] {
      MovedNone(m, oldPath, newPath);
    } else {
      hide Moved, IsPathOrDescendant, PathsIn;
      var init, last := es[..|es| - 1], es[|es| - 1];
      assert last.path in Subtree(m, oldPath) && TakenFrom(init, m, oldPath);
      RestoredMoved(base, m, init, oldPath, newPath);
      MovedAdd(m, PathsIn(init), last.path, oldPath, newPath);
      PathsInSnoc(es);
      PutLast(base, Moved(m, PathsIn(init), oldPath, newPath), Rebase(last.path, oldPath, newPath), last.Value());
    }
  }

  lemma PutLast(base: Tree, more: Tree, p: Text, e: TreeEntry)
    ensures (base + more)[p := e] == base + more[p := e]
  {}

  /** Extracting a subtree and restoring it elsewhere is renaming it. */
  lemma ExtractRestore(m: Tree, es: seq<DirEntry>, oldPath: Text, newPath: Text)
    requires ListsSubtree(es, m, oldPath)
    ensures AllAtLeast(es, |oldPath|)
    ensures Restored(m - Subtree(m, oldPath), es, oldPath, newPath) == Rekey(m, oldPath, newPath)
  {
    RestoredMoved(m - Subtree(m, oldPath), m, es, oldPath, newPath);
    assert PathsIn(es) == Subtree(m, oldPath);
  }

  // ------------------------------------------------------------ text form

  const COLON: byte := 58
  const SPACE: byte := 32
  const NEWLINE: byte := 10
  const NUL: byte := 0

  predicate IsSpace(b: byte) {
    b == SPACE || 9 <= b <= 13
  }

  function SkipSpace(t: Text): (r: Text)
    ensures |r| <= |t| && (r != [] ==> !IsSpace(r[0]))
  {
    if t != [] && IsSpace(t[0]) then SkipSpace(t[1..]) else t
  }

  function DigitCount(t: Text): (n: nat)
    ensures n <= |t| && (forall i :: 0 <= i < n ==> IsDigit(t[i])) && (n < |t| ==> !IsDigit(t[n]))
  {
    if t != [] && IsDigit(t[0]) then 1 + DigitCount(t[1..]) else 0
  }

  /** A number after optional space, and what is left to read. */
  function ScanNumber(t: Text): (r: (Option<nat>, Text))
    ensures |r.1| <= |t|
  {
    var u := SkipSpace(t);
    var n := DigitCount(u);
    if n == 0 then (None, u) else (Some(Value(u[..n])), u[n..])
  }

  /** A C string ends at its first NUL. */
  function CString(t: Text): Text {
    if t == [] || t[0] == NUL then [] else [t[0]] + CString(t[1..])
  }

  function WrittenEntry(path: Text, e: TreeEntry): Text {
    Digits(|path|) + [COLON] + CString(path) + Digits(e.mtime) + [SPACE] + Digits(if e.isDir then 1 else 0) + [NEWLINE]
  }

  predicate Within(m: Tree, order: seq<Text>) {
    forall p :: p in order ==> p in m
  }

  function WrittenEntries(m: Tree, order: seq<Text>): Text
    requires Within(m, order)
  {
    if order == [] then [] else WrittenEntry(order[0], m[order[0]]) + WrittenEntries(m, order[1..])
  }

  function WrittenTree(m: Tree, order: seq<Text>): Text
    requires Within(m, order)
  {
    Digits(|m|) + [NEWLINE] + WrittenEntries(m, order)
  }

  function Zeros(n: nat): Text {
    seq(n, _ => NUL)
  }

  /** One entry as the reading constructor makes it of any text, and what is left to read. */
  function ScanEntry(t: Text): (DirEntry, Text) {
    var (size, t1) := ScanNumber(t);
    if size.None? then (DirEntry([], 0, false), t1)
    else if t1 == [] then (DirEntry([], 0, false), [])
    else if t1[0] != COLON then (DirEntry([], 0, false), t1[1..])
    else
      var body := t1[1..];
      if |body| < size.value then (DirEntry(body + Zeros(size.value - |body|), 0, false), [])
      else
        var path := body[..size.value];
        var (mtime, t2) := ScanNumber(body[size.value..]);
        if mtime.None? then (DirEntry(path, 0, false), t2)
        else
          var (d, t3) := ScanNumber(t2);
          if d.None? then (DirEntry(path, mtime.value, false), t3)
          else (DirEntry(path, mtime.value, d.value == 1), SkipSpace(t3))
  }

  function Emplaced(m: Tree, e: DirEntry): Tree {
    if e.path == [] || e.path in m then m else m[e.path := e.Value()]
  }

  function ScanEntries(m: Tree, count: nat, t: Text): Tree
    decreases count
  {
    if count == 0 then m
    else
      var (e, rest) := ScanEntry(t);
      ScanEntries(Emplaced(m, e), count - 1, rest)
  }

  function ScanTree(t: Text): Tree {
    var (size, rest) := ScanNumber(t);
    if size.None? then map[] else ScanEntries(map[], size.value, rest)
  }

  // ------------------------------------------------------------ any text

  lemma {:induction false} SpaceBefore(t: Text) returns (spaces: Text)
    ensures t == spaces + SkipSpace(t)
    ensures forall i :: 0 <= i < |spaces| ==> IsSpace(spaces[i])
    decreases |t|
  {
    spaces := [];
    if t != [] && IsSpace(t[0]) {
      var more := SpaceBefore(t[1..]);
      spaces := [t[0]] + more;
      assert spaces + SkipSpace(t) == [t[0]] + (more + SkipSpace(t[1..]));
    }
  }

  /** How a number is read of any text: the space before it, its digits, and what follows them. */
  lemma NumberMeans(t: Text) returns (spaces: Text, digits: Text, rest: Text)
    ensures t == spaces + digits + rest
    ensures forall i :: 0 <= i < |spaces| ==> spaces[i] in {9, 10, 11, 12, 13, 32}
    ensures forall i :: 0 <= i < |digits| ==> 48 <= digits[i] <= 57
    ensures digits + rest != [] ==> (digits + rest)[0] !in {9, 10, 11, 12, 13, 32}
    ensures rest != [] ==> !(48 <= rest[0] <= 57)
    ensures ScanNumber(t) == (if digits == [] then None else Some(Value(digits)), rest)
  {
    hide Value, SkipSpace, DigitCount;
    spaces := SpaceBefore(t);
    var u := SkipSpace(t);
    var n := DigitCount(u);
    digits, rest := u[..n], u[n..];
    assert digits + rest == u;
  }

  /** What one entry is read as of any text. Without a size and a colon it has no path; otherwise its path has
      that size, filled up where the text ends; its time and its kind are read only behind a whole path, and a
      directory needs both numbers, the second being 1. */
  lemma EntryMeans(t: Text)
    ensures var (e, rest) := ScanEntry(t);
            var (size, t1) := ScanNumber(t);
            if size.None? || t1 == [] || t1[0] != 58 then
              e == DirEntry([], 0, false) && rest == if size.None? || t1 == [] then t1 else t1[1..]
            else
              var body := t1[1..];
              && |e.path| == size.value
              && (forall i :: 0 <= i < size.value ==> e.path[i] == if i < |body| then body[i] else 0)
              && (|body| < size.value ==> e.mtime == 0 && !e.isDir && rest == [])
              && (|body| >= size.value ==>
                    var (mtime, t2) := ScanNumber(body[size.value..]);
                    var (flag, t3) := ScanNumber(t2);
                    && e.mtime == (if mtime.Some? then mtime.value else 0)
                    && (e.isDir <==> mtime.Some? && flag == Some(1))
                    && rest == if mtime.None? then t2 else if flag.None? then t3 else SkipSpace(t3))
  {
    hide ScanNumber;
  }

  // ------------------------------------------------------------ the round trip

  predicate StartsNumber(t: Text) {
    t == [] || IsDigit(t[0])
  }

  lemma {:induction false} DigitCountIs(t: Text, n: nat)
    requires n <= |t| && (forall i :: 0 <= i < n ==> IsDigit(t[i])) && (n < |t| ==> !IsDigit(t[n]))
    ensures DigitCount(t) == n
    decreases |t|
  {
    if n > 0 {
      DigitCountIs(t[1..], n - 1);
    }
  }

  lemma ScanDigits(n: nat, tail: Text)
    requires tail == [] || !IsDigit(tail[0])
    ensures ScanNumber(Digits(n) + tail) == (Some(n), tail)
  {
    var t := Digits(n) + tail;
    assert t[0] == Digits(n)[0] && IsDigit(t[0]);
    assert SkipSpace(t) == t;
    DigitCountIs(t, |Digits(n)|);
    assert t[..|Digits(n)|] == Digits(n) && t[|Digits(n)|..] == tail;
    ValueOfDigits(n);
  }

  lemma SkipOne(b: byte, t: Text)
    requires IsSpace(b)
    ensures SkipSpace([b] + t) == SkipSpace(t) && ScanNumber([b] + t) == ScanNumber(t)
    ensures SkipSpace(SkipSpace(t)) == SkipSpace(t)
  {
    assert ([b] + t)[1..] == t;
  }

  lemma {:induction false} CStringWhole(t: Text)
    requires NUL !in t
    ensures CString(t) == t
  {
    if t != [] {
      CStringWhole(t[1..]);
      assert t == [t[0]] + t[1..];
    }
  }

  /** The two numbers after a path, and the newline. */
  lemma ScanTail(mtime: nat, flag: nat, rest: Text)
    requires StartsNumber(rest)
    ensures var t2 := [SPACE] + (Digits(flag) + ([NEWLINE] + rest));
            && ScanNumber(Digits(mtime) + t2) == (Some(mtime), t2)
            && ScanNumber(t2) == (Some(flag), [NEWLINE] + rest)
            && SkipSpace([NEWLINE] + rest) == rest
  {
    hide Digits, ScanNumber, SkipSpace;
    var t3 := [NEWLINE] + rest;
    ScanDigits(mtime, [SPACE] + (Digits(flag) + t3));
    SkipOne(SPACE, Digits(flag) + t3);
    ScanDigits(flag, t3);
    SkipOne(NEWLINE, rest);
    NumberFirst(rest);
  }

  /** A written entry is read back, and nothing that follows it is touched. */
  lemma ScanWritten(path: Text, e: TreeEntry, rest: Text)
    requires NUL !in path && StartsNumber(rest)
    ensures ScanEntry(WrittenEntry(path, e) + rest) == (DirEntry(path, e.mtime, e.isDir), rest)
  {
    hide Digits, ScanNumber, SkipSpace, CString, StartsNumber;
    CStringWhole(path);
    var flag := if e.isDir then 1 else 0;
    var body := path + (Digits(e.mtime) + ([SPACE] + (Digits(flag) + ([NEWLINE] + rest))));
    assert WrittenEntry(path, e) + rest == Digits(|path|) + ([COLON] + body);
    ScanDigits(|path|, [COLON] + body);
    assert ([COLON] + body)[1..] == body;
    assert body[..|path|] == path;
    assert body[|path|..] == Digits(e.mtime) + ([SPACE] + (Digits(flag) + ([NEWLINE] + rest)));
    ScanTail(e.mtime, flag, rest);
  }

  lemma NumberFirst(t: Text)
    requires StartsNumber(t)
    ensures SkipSpace(t) == t
  {}

  lemma WrittenStarts(m: Tree, order: seq<Text>)
    requires Within(m, order)
    ensures StartsNumber(WrittenEntries(m, order))
  {
    if order != [] {
      assert WrittenEntry(order[0], m[order[0]])[0] == Digits(|order[0]|)[0];
    }
  }

  function Part(m: Tree, order: seq<Text>): Tree
    requires Within(m, order)
  {
    map p | p in order :: m[p]
  }

  lemma PartCons(done: Tree, m: Tree, order: seq<Text>)
    requires order != [] && Within(m, order)
    ensures order[0] in m && Within(m, order[1..])
    ensures done[order[0] := m[order[0]]] + Part(m, order[1..]) == done + Part(m, order)
  {
    assert order == [order[0]] + order[1..];
  }

  ghost predicate ToRead(m: Tree, done: Tree, order: seq<Text>) {
    && (forall p :: p in order ==> p in m && p != [] && NUL !in p && p !in done)
    && (forall i, j :: 0 <= i < j < |order| ==> order[i] != order[j])
  }

  lemma ToReadTail(m: Tree, done: Tree, order: seq<Text>)
    requires ToRead(m, done, order) && order != []
    ensures var p := order[0];
            && p in m && p != [] && NUL !in p && p !in done
            && Within(m, order[1..])
            && ToRead(m, done[p := m[p]], order[1..])
  {
    assert order[0] in order && order == [order[0]] + order[1..];
  }

  lemma ScanOne(m: Tree, done: Tree, order: seq<Text>)
    requires ToRead(m, done, order) && Within(m, order) && order != [] && Within(m, order[1..]) && order[0] in m
    ensures ScanEntries(done, |order|, WrittenEntries(m, order)) ==
            ScanEntries(done[order[0] := m[order[0]]], |order| - 1, WrittenEntries(m, order[1..]))
  {
    hide ScanEntry, WrittenEntry, StartsNumber, ScanEntries, Within;
    var p, rest := order[0], order[1..];
    WrittenStarts(m, rest);
    ScanWritten(p, m[p], WrittenEntries(m, rest));
    ScanStep(done, |order|, WrittenEntries(m, order), DirEntry(p, m[p].mtime, m[p].isDir), WrittenEntries(m, rest));
  }

  lemma ScanNone(m: Tree, done: Tree)
    ensures ScanEntries(done, 0, WrittenEntries(m, [])) == done + Part(m, [])
  {
    assert Part(m, []) == map[];
  }

  /** The entries read so far and the entries still to be read make up the whole. */
  lemma {:induction false} ScanAll(m: Tree, done: Tree, order: seq<Text>)
    requires ToRead(m, done, order) && Within(m, order)
    ensures ScanEntries(done, |order|, WrittenEntries(m, order)) == done + Part(m, order)
    decreases |order|
  {
    ScanNone(m, done);
    hide Part, ScanEntries, WrittenEntries, ToRead, Within;
    if order != [] {
      ToReadTail(m, done, order);
      ScanOne(m, done, order);
      ScanAll(m, done[order[0] := m[order[0]]], order[1..]);
      PartCons(done, m, order);
    }
  }

  lemma ScanStep(done: Tree, count: nat, t: Text, e: DirEntry, rest: Text)
    requires count > 0 && ScanEntry(t) == (e, rest)
    ensures ScanEntries(done, count, t) == ScanEntries(Emplaced(done, e), count - 1, rest)
  {}

  ghost predicate Enumerates(order: seq<Text>, m: Tree) {
    && (forall p :: p in order <==> p in m)
    && (forall i, j :: 0 <= i < j < |order| ==> order[i] != order[j])
  }

  lemma {:induction false} EnumeratedSize(order: seq<Text>, s: set<Text>)
    requires forall p :: p in order <==> p in s
    requires forall i, j :: 0 <= i < j < |order| ==> order[i] != order[j]
    ensures |order| == |s|
    decreases |order|
  {
    if order != [] {
      var p := order[0];
      assert order == [p] + order[1..];
      EnumeratedSize(order[1..], s - {p});
    }
  }

  /** Written in any order and read back, a tree is the same; its paths may hold digits, colons, spaces
      and newlines, but must be non-empty and free of NUL. */
  lemma RoundTrip(m: Tree, order: seq<Text>)
    requires Enumerates(order, m) && forall p :: p in m ==> p != [] && NUL !in p
    ensures ScanTree(WrittenTree(m, order)) == m
  {
    hide ScanEntry, ScanNumber, WrittenEntry;
    EnumeratedSize(order, m.Keys);
    assert |m.Keys| == |m|;
    var entries := WrittenEntries(m, order);
    assert WrittenTree(m, order) == Digits(|m|) + ([NEWLINE] + entries);
    ScanDigits(|m|, [NEWLINE] + entries);
    ScanAll(m, map[], order);
    if order != [] {
      SkipEntry(NEWLINE, entries);
      assert ScanEntries(map[], |order|, [NEWLINE] + entries) == ScanEntries(map[], |order|, entries);
    }
    assert map[] + Part(m, order) == m;
  }

  lemma SkipEntry(b: byte, t: Text)
    requires IsSpace(b)
    ensures ScanEntry([b] + t) == ScanEntry(t)
  {
    SkipOne(b, t);
  }

  // ------------------------------------------------------------ the objects

  /** An open file: what is left to read, or what has been written. */
  class File {
    var text: Text

    constructor (text: Text)
      ensures this.text == text
    {
      this.text := text;
    }

    method Put(t: Text)
      modifies this
      ensures text == old(text) + t
    {
      text := text + t;
    }

    method SkipSpaces()
      modifies this
      ensures text == SkipSpace(old(text))
    {
      while text != [] && IsSpace(text[0])
        invariant SkipSpace(text) == SkipSpace(old(text))
        decreases |text|
      {
        text := text[1..];
      }
    }

    method GetNumber() returns (n: Option<nat>)
      modifies this
      ensures (n, text) == ScanNumber(old(text))
    {
      SkipSpaces();
      ghost var u := text;
      var digits: Text := [];
      while text != [] && IsDigit(text[0])
        invariant u == digits + text && forall i :: 0 <= i < |digits| ==> IsDigit(digits[i])
        decreases |text|
      {
        digits := digits + [text[0]];
        text := text[1..];
      }
      DigitCountIs(u, |digits|);
      assert u[..|digits|] == digits && u[|digits|..] == text;
      return if digits == [] then None else Some(Value(digits));
    }

    /** One entry, as `DirEntry(FILE *)` reads it. */
    method GetEntry() returns (e: DirEntry)
      modifies this
      ensures (e, text) == ScanEntry(old(text))
    {
      hide ScanNumber;
      e := DirEntry([], 0, false);
      var size := GetNumber();
      if size.Some? {
        if text == [] {
          return;
        }
        var next := text[0];
        text := text[1..];
        if next == COLON {
          if |text| < size.value {
            e := e.(path := text + Zeros(size.value - |text|));
            text := [];
            return;
          }
          e := e.(path := text[..size.value]);
          text := text[size.value..];
          var mtime := GetNumber();
          if mtime.Some? {
            e := e.(mtime := mtime.value);
            var d := GetNumber();
            if d.Some? {
              e := e.(isDir := d.value == 1);
              SkipSpaces();
            }
          }
        }
      }
    }
  }

  class DirTree {
    const root: Text
    var isComplete: bool
    var entries: Tree

    constructor (root: Text)
      ensures this.root == root && !isComplete && entries == map[]
    {
      this.root, isComplete, entries := root, false, map[];
    }

    constructor Read(root: Text, f: File)
      modifies f
      ensures this.root == root && isComplete && entries == ScanTree(old(f.text))
    {
      hide ScanEntry, ScanNumber;
      this.root, isComplete, entries := root, true, map[];
      new;
      var size := f.GetNumber();
      if size.Some? {
        ghost var rest := f.text;
        for i := 0 to size.value
          invariant ScanEntries(entries, size.value - i, f.text) == ScanEntries(map[], size.value, rest)
          invariant this.isComplete
        {
          var entry := f.GetEntry();
          if entry.path != [] && entry.path !in entries {
            entries := entries[entry.path := entry.Value()];
          }
        }
      }
    }

    method Add(path: Text, mtime: nat, isDir: bool)
      modifies this`entries
      ensures entries == if path in old(entries) then old(entries) else old(entries)[path := TreeEntry(mtime, isDir)]
    {
      if path !in entries {
        entries := entries[path := TreeEntry(mtime, isDir)];
      }
    }

    function Find(path: Text): Option<TreeEntry>
      reads this
    {
      if path in entries then Some(entries[path]) else None
    }

    method Update(path: Text, mtime: nat) returns (found: bool)
      modifies this`entries
      ensures found <==> path in old(entries)
      ensures entries == if found then old(entries)[path := old(entries)[path].(mtime := mtime)] else old(entries)
    {
      if path !in entries {
        return false;
      }
      entries := entries[path := entries[path].(mtime := mtime)];
      return true;
    }

    method Extract(path: Text) returns (extracted: seq<DirEntry>)
      modifies this`entries
      ensures ListsSubtree(extracted, old(entries), path)
      ensures entries == old(entries) - Subtree(old(entries), path)
    {
      hide TakenFrom, NoneTwice, PathsIn;
      extracted := [];
      ghost var m := entries;
      ghost var gone: set<Text> := {};
      var todo := entries.Keys;
      NothingTaken(m, path);
      while todo != {}
        invariant todo <= m.Keys && gone == Subtree(m, path) - todo && entries == m - gone
        invariant TakenFrom(extracted, m, path) && NoneTwice(extracted) && PathsIn(extracted) == gone
        decreases todo
      {
        var p :| p in todo;
        assert p in entries;
        if p == path || IsDescendant(p, path) {
          var e := DirEntry(p, entries[p].mtime, entries[p].isDir);
          TakeOne(extracted, m, path, e);
          extracted := extracted + [e];
          gone := gone + {p};
          entries := entries - {p};
        }
        todo := todo - {p};
      }
      assert gone == Subtree(m, path);
      AllTaken(extracted, m, path);
    }

    method Restore(restored: seq<DirEntry>, oldPath: Text, newPath: Text)
      requires AllAtLeast(restored, |oldPath|)
      modifies this`entries
      ensures entries == Restored(old(entries), restored, oldPath, newPath)
    {
      for i := 0 to |restored|
        invariant entries == Restored(old(entries), restored[..i], oldPath, newPath)
      {
        var e := restored[i];
        assert restored[..i + 1][..i] == restored[..i] && restored[..i + 1][i] == e;
        entries := entries[newPath + e.path[|oldPath|..] := e.Value()];
      }
      assert restored[..|restored|] == restored;
    }

    method Rename(oldPath: Text, newPath: Text)
      modifies this`entries
      ensures entries == Rekey(old(entries), oldPath, newPath)
    {
      var moved := Extract(oldPath);
      ExtractRestore(old(entries), moved, oldPath, newPath);
      Restore(moved, oldPath, newPath);
    }

    method Remove(path: Text)
      modifies this`entries
      ensures entries == Without(old(entries), path)
    {
      var found := Find(path);
      ghost var m := entries;
      if found.Some? && found.value.isDir {
        ghost var gone: set<Text> := {};
        var todo := entries.Keys;
        while todo != {}
          invariant todo <= m.Keys && gone == (Subtree(m, path) - {path}) - todo && entries == m - gone
          decreases todo
        {
          var p :| p in todo;
          if IsDescendant(p, path) {
            gone := gone + {p};
            entries := entries - {p};
          }
          todo := todo - {p};
        }
        assert gone == Subtree(m, path) - {path};
        assert m - gone - {path} == m - Subtree(m, path);
      }
      entries := entries - {path};
    }

    /** Writes the entries in whatever order the table yields them. */
    method Write(f: File) returns (ghost order: seq<Text>)
      modifies f
      ensures Enumerates(order, entries) && f.text == old(f.text) + WrittenTree(entries, order)
    {
      hide WrittenEntry, WrittenEntries, Within;
      f.Put(Digits(|entries|) + [NEWLINE]);
      ghost var before := f.text;
      order := [];
      var todo := entries.Keys;
      WrittenNone(entries);
      assert f.text == before + WrittenEntries(entries, []);
      while todo != {}
        invariant todo <= entries.Keys && Within(entries, order)
        invariant forall p :: p in order <==> p in entries && p !in todo
        invariant forall i, j :: 0 <= i < j < |order| ==> order[i] != order[j]
        invariant f.text == before + WrittenEntries(entries, order)
        decreases todo
      {
        var p :| p in todo;
        f.Put(WrittenEntry(p, entries[p]));
        WrittenSnoc(entries, order, p);
        order := order + [p];
        todo := todo - {p};
      }
      assert f.text == old(f.text) + WrittenTree(entries, order);
    }
  }

  lemma WrittenNone(m: Tree)
    ensures Within(m, []) && WrittenEntries(m, []) == []
  {}

  lemma {:induction false} WrittenSnoc(m: Tree, order: seq<Text>, p: Text)
    requires Within(m, order) && p in m
    ensures Within(m, order + [p]) && WrittenEntries(m, order + [p]) == WrittenEntries(m, order) + WrittenEntry(p, m[p])
    decreases |order|
  {
    hide WrittenEntry;
    var all := order + [p];
    if order == [] {
      assert WrittenEntries(m, all[1..]) == [];
    } else {
      WrittenSnoc(m, order[1..], p);
      assert all[1..] == order[1..] + [p];
    }
  }
}
