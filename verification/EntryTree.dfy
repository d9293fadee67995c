/** The tree of folder entries: find-or-create along a path, and the paths the recursive queries read. */
module EntryTree {
  import opened Base
  import opened Text

  type Id = nat

  datatype Kind = Directory | Leaf(file: Id)

  // A row of folder_entries.
  datatype Entry = Entry(folder: Id, parent: Option<Id>, kind: Kind, name: string)

  // `next` is the next new id: rows are numbered in the order they were inserted.
  datatype Tree = Tree(entries: map<Id, Entry>, next: Id)

  // -------------------------------------------------------------- invariant

  // A parent is an older directory of the same folder, so no entry is its own ancestor.
  predicate EntryOk(t: Tree, id: Id) {
    id in t.entries ==>
      var e := t.entries[id];
      && id < t.next && SegmentOk(e.name)
      && (e.parent.Some? ==>
            e.parent.value < id && IsDirectory(t, e.parent.value, e.folder))
  }

  predicate IsDirectory(t: Tree, id: Id, folder: Id) {
    id in t.entries && t.entries[id].kind.Directory? && t.entries[id].folder == folder
  }

  predicate IsNamed(t: Tree, folder: Id, parent: Option<Id>, name: string, id: Id) {
    IsDirectory(t, id, folder) && t.entries[id].parent == parent && t.entries[id].name == name
  }

  // Two directories never share folder, parent and name.
  predicate Siblings(t: Tree, a: Id, b: Id) {
    a in t.entries && b in t.entries && t.entries[a].kind.Directory? && t.entries[a] == t.entries[b] ==> a == b
  }

  ghost predicate TreeOk(t: Tree) {
    && (forall id: Id :: EntryOk(t, id))
    && (forall a: Id, b: Id :: Siblings(t, a, b))
  }

  // A place where an entry may be put.
  predicate ParentOk(t: Tree, folder: Id, parent: Option<Id>) {
    parent.Some? ==> IsDirectory(t, parent.value, folder)
  }

  // ------------------------------------------------------------------- paths

  function Path(t: Tree, id: Id): (p: seq<string>)
    requires TreeOk(t) && id in t.entries
    decreases id
  {
    assert EntryOk(t, id);
    PathTo(t, t.entries[id].folder, t.entries[id].parent, id) + [t.entries[id].name]
  }

  // Path of a parent reference; nothing at the root.
  function PathTo(t: Tree, folder: Id, parent: Option<Id>, below: Id): (p: seq<string>)
    requires TreeOk(t) && ParentOk(t, folder, parent) && (parent.Some? ==> parent.value < below)
    decreases below, 0
  {
    if parent.None? then [] else Path(t, parent.value)
  }

  function PathOf(t: Tree, folder: Id, parent: Option<Id>): (p: seq<string>)
    requires TreeOk(t) && ParentOk(t, folder, parent)
  {
    if parent.None? then [] else Path(t, parent.value)
  }

  lemma PathUnfolds(t: Tree, id: Id)
    requires TreeOk(t) && id in t.entries
    ensures ParentOk(t, t.entries[id].folder, t.entries[id].parent)
    ensures Path(t, id) == PathOf(t, t.entries[id].folder, t.entries[id].parent) + [t.entries[id].name]
  {
    assert EntryOk(t, id);
  }

  lemma {:induction false} PathSegmentsOk(t: Tree, id: Id)
    requires TreeOk(t) && id in t.entries
    ensures SegmentsOk(Path(t, id)) && Path(t, id) != []
    decreases id
  {
    assert EntryOk(t, id);
    PathUnfolds(t, id);
    if t.entries[id].parent.Some? {
      PathSegmentsOk(t, t.entries[id].parent.value);
    }
  }

  // ------------------------------------------------- the recursive path query

  function Roots(t: Tree, folder: Id): map<Id, string> {
    map id | id in t.entries && t.entries[id].folder == folder && t.entries[id].parent.None? :: t.entries[id].name
  }

  function Children(t: Tree, folder: Id, rows: map<Id, string>): map<Id, string> {
    map id | id in t.entries && t.entries[id].folder == folder && t.entries[id].parent.Some? && t.entries[id].parent.value in rows
      :: rows[t.entries[id].parent.value] + "/" + t.entries[id].name
  }

  // Rows the query adds in its n-th round: the roots, then the children of the round before.
  function Round(t: Tree, folder: Id, n: nat): map<Id, string> {
    if n == 0 then Roots(t, folder) else Children(t, folder, Round(t, folder, n - 1))
  }

  // The query lists every entry of the folder in exactly one round, under its joined path.
  lemma {:induction false} QueryListsPaths(t: Tree, folder: Id, id: Id, n: nat)
    requires TreeOk(t) && id in t.entries
    ensures id in Round(t, folder, n) <==> t.entries[id].folder == folder && |Path(t, id)| == n + 1
    ensures id in Round(t, folder, n) ==> Round(t, folder, n)[id] == Join(Path(t, id))
    decreases n
  {
    assert EntryOk(t, id);
    PathUnfolds(t, id);
    var e := t.entries[id];
    if e.parent.None? {
      assert [] + [e.name] == [e.name];
    } else {
      PathSegmentsOk(t, e.parent.value);
      if n > 0 {
        QueryListsPaths(t, folder, e.parent.value, n - 1);
        JoinTwo(Path(t, e.parent.value), [e.name]);
      }
    }
  }

  // ---------------------------------------------------------- find or create

  // The directory of that name, or nothing. The query orders by age and takes the first.
  ghost function Lookup(t: Tree, folder: Id, parent: Option<Id>, name: string): (r: Option<Id>)
    ensures r.Some? ==> IsNamed(t, folder, parent, name, r.value)
    ensures r.None? ==> forall id: Id :: !IsNamed(t, folder, parent, name, id)
  {
    if exists id: Id :: IsNamed(t, folder, parent, name, id) then
      var id: Id :| IsNamed(t, folder, parent, name, id);
      Some(id)
    else
      None
  }

  function Insert(t: Tree, e: Entry): Tree {
    Tree(t.entries[t.next := e], t.next + 1)
  }

  // One round of the loop: find the directory or insert it.
  ghost function Enter(t: Tree, folder: Id, parent: Option<Id>, name: string): (Tree, Id) {
    match Lookup(t, folder, parent, name)
    case Some(id) => (t, id)
    case None => (Insert(t, Entry(folder, parent, Directory, name)), t.next)
  }

  ghost function Walk(t: Tree, folder: Id, parent: Option<Id>, segments: seq<string>): (Tree, Option<Id>)
    decreases |segments|
  {
    if segments == [] then (t, parent)
    else
      var (v, id) := Enter(t, folder, parent, segments[0]);
      Walk(v, folder, Some(id), segments[1..])
  }

  // ensureFolderEntryPathTx starts at the root of the folder.
  ghost function EnsurePath(t: Tree, folder: Id, segments: seq<string>): (Tree, Option<Id>) {
    Walk(t, folder, None, segments)
  }

  // Old rows stay as they are.
  predicate Extends(t: Tree, u: Tree) {
    t.next <= u.next && forall id :: id in t.entries ==> id in u.entries && u.entries[id] == t.entries[id]
  }

  lemma LookupIs(t: Tree, folder: Id, parent: Option<Id>, name: string, id: Id)
    requires TreeOk(t) && IsNamed(t, folder, parent, name, id)
    ensures Lookup(t, folder, parent, name) == Some(id)
  {
    hide SegmentOk;
    var r := Lookup(t, folder, parent, name);
    assert r.Some?;
    assert Siblings(t, id, r.value);
  }

  lemma InsertKeepsTree(t: Tree, e: Entry)
    requires TreeOk(t) && SegmentOk(e.name) && ParentOk(t, e.folder, e.parent)
    requires e.kind.Directory? ==> Lookup(t, e.folder, e.parent, e.name).None?
    ensures TreeOk(Insert(t, e)) && Extends(t, Insert(t, e))
  {
    hide SegmentOk;
    var u := Insert(t, e);
    assert t.next !in t.entries by { assert EntryOk(t, t.next); }
    forall id: Id ensures EntryOk(u, id) {
      assert EntryOk(t, id);
      if e.parent.Some? { assert EntryOk(t, e.parent.value); }
    }
    forall a: Id, b: Id ensures Siblings(u, a, b) {
      assert Siblings(t, a, b);
      if e.kind.Directory? {
        assert !IsNamed(t, e.folder, e.parent, e.name, a) && !IsNamed(t, e.folder, e.parent, e.name, b);
      }
    }
  }

  lemma {:induction false} PathIsKept(t: Tree, u: Tree, id: Id)
    requires TreeOk(t) && TreeOk(u) && Extends(t, u) && id in t.entries
    ensures id in u.entries && Path(u, id) == Path(t, id)
    decreases id
  {
    hide SegmentOk;
    assert EntryOk(t, id);
    PathUnfolds(t, id);
    PathUnfolds(u, id);
    if t.entries[id].parent.Some? {
      PathIsKept(t, u, t.entries[id].parent.value);
    }
  }

  // The walk keeps the tree in order and every old row, and ends at the directory named.
  lemma {:induction false} WalkReaches(t: Tree, folder: Id, parent: Option<Id>, segments: seq<string>)
    requires TreeOk(t) && ParentOk(t, folder, parent) && SegmentsOk(segments)
    ensures var (u, r) := Walk(t, folder, parent, segments);
      && TreeOk(u) && Extends(t, u) && ParentOk(u, folder, r)
      && PathOf(u, folder, r) == PathOf(t, folder, parent) + segments
    decreases |segments|
  {
    hide SegmentOk;
    if segments == [] {
      assert PathOf(t, folder, parent) + segments == PathOf(t, folder, parent);
    } else {
      var name := segments[0];
      var (v, id) := Enter(t, folder, parent, name);
      EnterReaches(t, folder, parent, name);
      WalkReaches(v, folder, Some(id), segments[1..]);
      assert PathOf(t, folder, parent) + [name] + segments[1..] == PathOf(t, folder, parent) + segments;
    }
  }

  lemma EnterReaches(t: Tree, folder: Id, parent: Option<Id>, name: string)
    requires TreeOk(t) && ParentOk(t, folder, parent) && SegmentOk(name)
    ensures var (v, id) := Enter(t, folder, parent, name);
      && TreeOk(v) && Extends(t, v) && IsNamed(v, folder, parent, name, id) && ParentOk(v, folder, parent)
      && PathOf(v, folder, Some(id)) == PathOf(t, folder, parent) + [name]
  {
    hide SegmentOk;
    var (v, id) := Enter(t, folder, parent, name);
    if Lookup(t, folder, parent, name).None? {
      InsertKeepsTree(t, Entry(folder, parent, Directory, name));
    }
    if parent.Some? {
      PathIsKept(t, v, parent.value);
    }
    PathUnfolds(v, id);
  }

  // A second walk finds everything in place: it changes nothing and ends at the same row.
  lemma {:induction false} WalkIsIdempotent(t: Tree, folder: Id, parent: Option<Id>, segments: seq<string>)
    requires TreeOk(t) && ParentOk(t, folder, parent) && SegmentsOk(segments)
    ensures var (u, r) := Walk(t, folder, parent, segments); Walk(u, folder, parent, segments) == (u, r)
    decreases |segments|
  {
    hide SegmentOk;
    if segments != [] {
      var name := segments[0];
      var (v, id) := Enter(t, folder, parent, name);
      EnterReaches(t, folder, parent, name);
      WalkReaches(v, folder, Some(id), segments[1..]);
      WalkIsIdempotent(v, folder, Some(id), segments[1..]);
      var (u, r) := Walk(v, folder, Some(id), segments[1..]);
      LookupIs(u, folder, parent, name, id);
    }
  }

  // A path that already leads to a directory is found, not created.
  lemma {:induction false} WalkFinds(t: Tree, folder: Id, parent: Option<Id>, segments: seq<string>, id: Id)
    requires TreeOk(t) && ParentOk(t, folder, parent) && SegmentsOk(segments) && segments != []
    requires IsDirectory(t, id, folder) && Path(t, id) == PathOf(t, folder, parent) + segments
    ensures Walk(t, folder, parent, segments) == (t, Some(id))
    decreases |segments|
  {
    hide SegmentOk;
    var p := Ancestor(t, folder, id, PathOf(t, folder, parent) + [segments[0]]);
    PathUnfolds(t, p);
    var up := t.entries[p].parent;
    SameLast(PathOf(t, folder, up), PathOf(t, folder, parent), t.entries[p].name, segments[0]);
    PathDecides(t, folder, up, parent);
    LookupIs(t, folder, parent, segments[0], p);
    if |segments| == 1 {
      assert segments == [segments[0]] && segments[1..] == [];
      PathDecides(t, folder, Some(p), Some(id));
    } else {
      assert PathOf(t, folder, parent) + [segments[0]] + segments[1..] == PathOf(t, folder, parent) + segments;
      WalkFinds(t, folder, Some(p), segments[1..], id);
    }
  }

  lemma SameLast(a: seq<string>, b: seq<string>, x: string, y: string)
    requires a + [x] == b + [y]
    ensures a == b && x == y
  {
    assert (a + [x])[|a|] == x && (b + [y])[|b|] == y;
    assert (a + [x])[..|a|] == a && (b + [y])[..|b|] == b;
  }

  // The entry on the way down to `id` whose path is a given prefix of its path.
  lemma {:induction false} Ancestor(t: Tree, folder: Id, id: Id, prefix: seq<string>) returns (p: Id)
    requires TreeOk(t) && IsDirectory(t, id, folder) && prefix != [] && prefix <= Path(t, id)
    ensures IsDirectory(t, p, folder) && Path(t, p) == prefix
    decreases id
  {
    hide SegmentOk;
    if prefix == Path(t, id) {
      p := id;
    } else {
      assert EntryOk(t, id);
      PathUnfolds(t, id);
      p := Ancestor(t, folder, t.entries[id].parent.value, prefix);
    }
  }

  // Directories of one folder are told apart by their paths.
  lemma {:induction false} PathDecides(t: Tree, folder: Id, a: Option<Id>, b: Option<Id>)
    requires TreeOk(t) && ParentOk(t, folder, a) && ParentOk(t, folder, b) && PathOf(t, folder, a) == PathOf(t, folder, b)
    ensures a == b
    decreases a.GetOr(0) + b.GetOr(0)
  {
    hide SegmentOk;
    if a.Some? { PathUnfolds(t, a.value); assert EntryOk(t, a.value); }
    if b.Some? { PathUnfolds(t, b.value); assert EntryOk(t, b.value); }
    if a.Some? && b.Some? {
      var up, vp := t.entries[a.value].parent, t.entries[b.value].parent;
      SameLast(PathOf(t, folder, up), PathOf(t, folder, vp), t.entries[a.value].name, t.entries[b.value].name);
      if up.Some? || vp.Some? {
        PathDecides(t, folder, up, vp);
      }
      assert Siblings(t, a.value, b.value);
    }
  }

  // What a walk adds are directories on the way to its end, nothing else.
  lemma {:induction false} WalkAddsTheWay(t: Tree, folder: Id, parent: Option<Id>, segments: seq<string>, id: Id)
    requires TreeOk(t) && ParentOk(t, folder, parent) && SegmentsOk(segments)
    requires var (u, r) := Walk(t, folder, parent, segments); TreeOk(u) && id in u.entries && id !in t.entries
    ensures var (u, r) := Walk(t, folder, parent, segments);
      IsDirectory(u, id, folder) && Path(u, id) <= PathOf(t, folder, parent) + segments
    decreases |segments|
  {
    hide SegmentOk;
    if segments != [] {
      var name := segments[0];
      var (v, d) := Enter(t, folder, parent, name);
      EnterReaches(t, folder, parent, name);
      WalkReaches(v, folder, Some(d), segments[1..]);
      var (u, r) := Walk(v, folder, Some(d), segments[1..]);
      assert PathOf(t, folder, parent) + [name] + segments[1..] == PathOf(t, folder, parent) + segments;
      if id in v.entries {
        PathIsKept(v, u, id);
      } else {
        WalkAddsTheWay(v, folder, Some(d), segments[1..], id);
      }
    }
  }

  // Every shorter length is taken by an ancestor, so the rounds of the query have no gaps.
  lemma {:induction false} LengthsHaveNoGaps(t: Tree, folder: Id, id: Id, n: nat) returns (p: Id)
    requires TreeOk(t) && id in t.entries && t.entries[id].folder == folder && n < |Path(t, id)|
    ensures p in t.entries && t.entries[p].folder == folder && |Path(t, p)| == n + 1
    decreases id
  {
    hide SegmentOk;
    if |Path(t, id)| == n + 1 {
      p := id;
    } else {
      assert EntryOk(t, id);
      PathUnfolds(t, id);
      p := LengthsHaveNoGaps(t, folder, t.entries[id].parent.value, n);
    }
  }

  // ------------------------------------------------------ directories by path

  ghost predicate DirAt(t: Tree, folder: Id, path: seq<string>, d: Id)
    requires TreeOk(t)
  {
    IsDirectory(t, d, folder) && Path(t, d) == path
  }

  ghost predicate HasDir(t: Tree, folder: Id, path: seq<string>)
    requires TreeOk(t)
  {
    exists d: Id :: DirAt(t, folder, path, d)
  }

  // Making a path makes its directories, and no others.
  lemma EnsurePathMakesDirs(t: Tree, folder: Id, segments: seq<string>, where: Id, path: seq<string>)
    requires TreeOk(t) && SegmentsOk(segments)
    ensures var u := EnsurePath(t, folder, segments).0;
      && TreeOk(u)
      && (HasDir(u, where, path) <==> HasDir(t, where, path) || (where == folder && path != [] && path <= segments))
  {
    hide SegmentOk, EntryOk, Siblings, SegmentsOk;
    var (u, r) := EnsurePath(t, folder, segments);
    WalkReaches(t, folder, None, segments);
    assert [] + segments == segments;
    if d: Id :| DirAt(t, where, path, d) {
      PathIsKept(t, u, d);
      assert DirAt(u, where, path, d);
    }
    if where == folder && path != [] && path <= segments {
      var d := Ancestor(u, folder, r.value, path);
      assert DirAt(u, where, path, d);
    }
    if d: Id :| DirAt(u, where, path, d) {
      if d in t.entries {
        PathIsKept(t, u, d);
        assert DirAt(t, where, path, d);
      } else {
        WalkAddsTheWay(t, folder, None, segments, d);
        PathUnfolds(u, d);
      }
    }
  }

  // The directories above an entry are in the tree.
  lemma ParentsAreDirs(t: Tree, id: Id, path: seq<string>)
    requires TreeOk(t) && id in t.entries && path != [] && path <= Path(t, id)[..|Path(t, id)| - 1]
    ensures HasDir(t, t.entries[id].folder, path)
  {
    hide SegmentOk, Siblings;
    assert EntryOk(t, id);
    PathUnfolds(t, id);
    var e := t.entries[id];
    assert Path(t, id)[..|Path(t, id)| - 1] == PathOf(t, e.folder, e.parent);
    var d := Ancestor(t, e.folder, e.parent.value, path);
    assert DirAt(t, e.folder, path, d);
  }

  // An entry that is no directory changes none.
  lemma LeafMakesNoDirs(t: Tree, e: Entry, where: Id, path: seq<string>)
    requires TreeOk(t) && TreeOk(Insert(t, e)) && Extends(t, Insert(t, e)) && e.kind.Leaf?
    ensures HasDir(Insert(t, e), where, path) <==> HasDir(t, where, path)
  {
    hide SegmentOk, EntryOk, Siblings;
    var u := Insert(t, e);
    forall d: Id ensures DirAt(u, where, path, d) <==> DirAt(t, where, path, d) {
      if d in t.entries {
        PathIsKept(t, u, d);
      }
    }
  }
}
