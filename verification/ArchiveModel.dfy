/** Files, their entries and their stored objects: what upload, PUT, MKCOL and the deletes do. */
module ArchiveModel {
  import opened Base
  import opened Text
  import opened EntryTree
  import opened DavNames

  // A row of files.
  datatype FileRow = FileRow(folder: Id, blob: Id, name: string, sha: string, size: nat, active: bool)

  // `objects` is the object store; `sha256` stands for the hash in hexadecimal form.
  datatype Archive = Archive(tree: Tree, files: map<Id, FileRow>, nextFile: Id, objects: map<Id, string>, nextObject: Id)

  type Sha256 = string -> string

  const NO_FILES := Archive(Tree(map[], 0), map[], 0, map[], 0)

  // -------------------------------------------------------------- invariant

  predicate ActiveFile(a: Archive, f: Id) {
    f in a.files && a.files[f].active
  }

  predicate IsLeaf(a: Archive, e: Id, f: Id) {
    e in a.tree.entries && a.tree.entries[e].kind == Leaf(f)
  }

  // Ids are used once, also those of deleted rows.
  predicate FileOk(a: Archive, sha256: Sha256, f: Id) {
    f in a.files ==>
      && f < a.nextFile && a.files[f].blob < a.nextObject
      && (a.files[f].active ==>
            && a.files[f].blob in a.objects
            && sha256(a.objects[a.files[f].blob]) == a.files[f].sha && |a.objects[a.files[f].blob]| == a.files[f].size)
  }

  predicate LeafOk(a: Archive, e: Id, f: Id) {
    IsLeaf(a, e, f) ==> ActiveFile(a, f) && a.files[f].folder == a.tree.entries[e].folder && a.files[f].name == a.tree.entries[e].name
  }

  predicate OneLeaf(a: Archive, f: Id, e: Id, o: Id) {
    IsLeaf(a, e, f) && IsLeaf(a, o, f) ==> e == o
  }

  ghost predicate HasLeaf(a: Archive, f: Id) {
    ActiveFile(a, f) ==> exists e: Id :: IsLeaf(a, e, f)
  }

  predicate OwnObject(a: Archive, f: Id, g: Id) {
    f in a.files && g in a.files && a.files[f].blob == a.files[g].blob ==> f == g
  }

  predicate Stores(a: Archive, f: Id, blob: Id) {
    ActiveFile(a, f) && a.files[f].blob == blob
  }

  // Nothing is stored that no active file refers to.
  ghost predicate ObjectUsed(a: Archive, blob: Id) {
    blob in a.objects ==> exists f: Id :: Stores(a, f, blob)
  }

  ghost predicate RowsOk(a: Archive, sha256: Sha256) {
    && (forall f: Id :: FileOk(a, sha256, f))
    && (forall f: Id, g: Id :: OwnObject(a, f, g))
    && (forall blob: Id :: ObjectUsed(a, blob))
  }

  ghost predicate LeavesOk(a: Archive) {
    && (forall e: Id, f: Id :: LeafOk(a, e, f))
    && (forall f: Id, e: Id, o: Id :: OneLeaf(a, f, e, o))
    && (forall f: Id :: HasLeaf(a, f))
  }

  ghost predicate ArchiveOk(a: Archive, sha256: Sha256) {
    TreeOk(a.tree) && RowsOk(a, sha256) && LeavesOk(a)
  }

  // The stored object ids are exactly those of the active files.
  lemma ObjectsAreThoseOfActiveFiles(a: Archive, sha256: Sha256, blob: Id)
    requires ArchiveOk(a, sha256)
    ensures blob in a.objects <==> exists f: Id :: Stores(a, f, blob)
  {
    assert ObjectUsed(a, blob);
    forall f: Id | Stores(a, f, blob) ensures blob in a.objects {
      assert FileOk(a, sha256, f);
    }
  }

  // ------------------------------------------------------------------ reading

  // File f is stored at this path of the folder.
  ghost predicate FileAt(a: Archive, folder: Id, path: seq<string>, f: Id)
    requires TreeOk(a.tree)
  {
    exists e: Id :: LeafAt(a, folder, path, f, e)
  }

  ghost predicate LeafAt(a: Archive, folder: Id, path: seq<string>, f: Id, e: Id)
    requires TreeOk(a.tree)
  {
    IsLeaf(a, e, f) && a.tree.entries[e].folder == folder && Path(a.tree, e) == path
  }

  // ------------------------------------------------------------- small steps

  // Insert the row of a file, its entry and its object.
  function InsertFile(a: Archive, sha256: Sha256, folder: Id, parent: Option<Id>, name: string, content: string): Archive {
    Archive(Insert(a.tree, Entry(folder, parent, Leaf(a.nextFile), name)),
            a.files[a.nextFile := FileRow(folder, a.nextObject, name, sha256(content), |content|, true)], a.nextFile + 1,
            a.objects[a.nextObject := content], a.nextObject + 1)
  }

  function DropLeaves(t: Tree, f: Id): Tree {
    t.(entries := map e | e in t.entries && t.entries[e].kind != Leaf(f) :: t.entries[e])
  }

  // Mark a file deleted, drop its entries and its object.
  function RemoveFile(a: Archive, f: Id): Archive {
    if !ActiveFile(a, f) then a
    else a.(tree := DropLeaves(a.tree, f), files := a.files[f := a.files[f].(active := false)],
            objects := a.objects - {a.files[f].blob})
  }

  ghost function MakePath(a: Archive, folder: Id, segments: seq<string>): Archive {
    a.(tree := EnsurePath(a.tree, folder, segments).0)
  }

  // ------------------------------------------------------------ operations

  // The transaction of an upload.
  ghost function AddFile(a: Archive, sha256: Sha256, folder: Id, segments: seq<string>, content: string): Archive
    requires segments != []
  {
    var n := |segments| - 1;
    var (t, parent) := EnsurePath(a.tree, folder, segments[..n]);
    InsertFile(a.(tree := t), sha256, folder, parent, segments[n], content)
  }

  // The transaction of a PUT: the directories first, then the replaced file goes, then the new one comes.
  ghost function PutFile(a: Archive, sha256: Sha256, folder: Id, segments: seq<string>, replaced: Option<Id>, content: string): Archive
    requires segments != []
  {
    var n := |segments| - 1;
    var (t, parent) := EnsurePath(a.tree, folder, segments[..n]);
    var b := a.(tree := t);
    InsertFile(if replaced.None? then b else RemoveFile(b, replaced.value), sha256, folder, parent, segments[n], content)
  }

  predicate InFolder(a: Archive, folder: Id, f: Id) {
    ActiveFile(a, f) && a.files[f].folder == folder
  }

  // handleDeleteFolder, as far as files go.
  function RemoveFolder(a: Archive, folder: Id): Archive {
    a.(tree := a.tree.(entries := map e | e in a.tree.entries && a.tree.entries[e].folder != folder :: a.tree.entries[e]),
       files := map f | f in a.files :: if InFolder(a, folder, f) then a.files[f].(active := false) else a.files[f],
       objects := a.objects - set f | f in a.files && InFolder(a, folder, f) :: a.files[f].blob)
  }

  // ------------------------------------------------- the small steps keep it all

  lemma EmptyIsOk(sha256: Sha256)
    ensures ArchiveOk(NO_FILES, sha256)
  {
  }

  lemma MakePathKeeps(a: Archive, sha256: Sha256, folder: Id, segments: seq<string>)
    requires ArchiveOk(a, sha256) && SegmentsOk(segments)
    ensures ArchiveOk(MakePath(a, folder, segments), sha256)
    ensures var (t, r) := EnsurePath(a.tree, folder, segments);
      TreeOk(t) && ParentOk(t, folder, r) && PathOf(t, folder, r) == segments
    ensures forall f: Id, e: Id :: IsLeaf(MakePath(a, folder, segments), e, f) <==> IsLeaf(a, e, f)
  {
    hide SegmentOk, EntryOk, Siblings, SegmentsOk;
    var b := MakePath(a, folder, segments);
    WalkReaches(a.tree, folder, None, segments);
    assert [] + segments == segments;
    forall f: Id, e: Id ensures IsLeaf(b, e, f) <==> IsLeaf(a, e, f) {
      if IsLeaf(b, e, f) && e !in a.tree.entries {
        WalkAddsTheWay(a.tree, folder, None, segments, e);
      }
    }
    MakePathKeepsRows(a, b, sha256);
    MakePathKeepsLeaves(a, b, sha256);
  }

  lemma MakePathKeepsRows(a: Archive, b: Archive, sha256: Sha256)
    requires RowsOk(a, sha256) && b == a.(tree := b.tree)
    ensures RowsOk(b, sha256)
  {
    forall f: Id ensures FileOk(b, sha256, f) { assert FileOk(a, sha256, f); }
    forall f: Id, g: Id ensures OwnObject(b, f, g) { assert OwnObject(a, f, g); }
    forall blob: Id ensures ObjectUsed(b, blob) {
      assert ObjectUsed(a, blob);
      if blob in b.objects {
        var f: Id :| Stores(a, f, blob);
        assert Stores(b, f, blob);
      }
    }
  }

  lemma MakePathKeepsLeaves(a: Archive, b: Archive, sha256: Sha256)
    requires LeavesOk(a) && b == a.(tree := b.tree) && Extends(a.tree, b.tree)
    requires forall f: Id, e: Id :: IsLeaf(b, e, f) <==> IsLeaf(a, e, f)
    ensures LeavesOk(b)
  {
    forall e: Id, f: Id ensures LeafOk(b, e, f) { assert LeafOk(a, e, f); }
    forall f: Id, e: Id, o: Id ensures OneLeaf(b, f, e, o) { assert OneLeaf(a, f, e, o); }
    forall f: Id ensures HasLeaf(b, f) {
      assert HasLeaf(a, f);
      if ActiveFile(b, f) {
        var e: Id :| IsLeaf(a, e, f);
        assert IsLeaf(b, e, f);
      }
    }
  }

  lemma InsertFileKeeps(a: Archive, sha256: Sha256, folder: Id, parent: Option<Id>, name: string, content: string)
    requires ArchiveOk(a, sha256) && ParentOk(a.tree, folder, parent) && SegmentOk(name)
    ensures ArchiveOk(InsertFile(a, sha256, folder, parent, name, content), sha256)
  {
    InsertKeepsTree(a.tree, Entry(folder, parent, Leaf(a.nextFile), name));
    InsertFileKeepsRows(a, sha256, folder, parent, name, content);
    InsertFileKeepsLeaves(a, sha256, folder, parent, name, content);
  }

  lemma InsertFileKeepsRows(a: Archive, sha256: Sha256, folder: Id, parent: Option<Id>, name: string, content: string)
    requires RowsOk(a, sha256)
    ensures RowsOk(InsertFile(a, sha256, folder, parent, name, content), sha256)
  {
    var b := InsertFile(a, sha256, folder, parent, name, content);
    assert a.nextFile !in a.files by { assert FileOk(a, sha256, a.nextFile); }
    forall f: Id ensures FileOk(b, sha256, f) { assert FileOk(a, sha256, f); }
    forall f: Id, g: Id ensures OwnObject(b, f, g) {
      assert OwnObject(a, f, g) && FileOk(a, sha256, f) && FileOk(a, sha256, g);
    }
    forall blob: Id ensures ObjectUsed(b, blob) {
      assert ObjectUsed(a, blob);
      if blob == a.nextObject {
        assert Stores(b, a.nextFile, blob);
      } else if blob in b.objects {
        var f: Id :| Stores(a, f, blob);
        assert Stores(b, f, blob);
      }
    }
  }

  lemma InsertFileKeepsLeaves(a: Archive, sha256: Sha256, folder: Id, parent: Option<Id>, name: string, content: string)
    requires TreeOk(a.tree) && RowsOk(a, sha256) && LeavesOk(a)
    ensures LeavesOk(InsertFile(a, sha256, folder, parent, name, content))
  {
    hide SegmentOk, Siblings;
    var b := InsertFile(a, sha256, folder, parent, name, content);
    assert EntryOk(a.tree, a.tree.next);
    assert FileOk(a, sha256, a.nextFile);
    forall e: Id, f: Id ensures LeafOk(b, e, f) { assert LeafOk(a, e, f); }
    forall f: Id, e: Id, o: Id ensures OneLeaf(b, f, e, o) {
      assert OneLeaf(a, f, e, o) && LeafOk(a, e, f) && LeafOk(a, o, f);
    }
    forall f: Id ensures HasLeaf(b, f) {
      assert HasLeaf(a, f);
      if f == a.nextFile {
        assert IsLeaf(b, a.tree.next, f);
      } else if ActiveFile(b, f) {
        var e: Id :| IsLeaf(a, e, f);
        assert EntryOk(a.tree, e);
        assert IsLeaf(b, e, f);
      }
    }
  }

  lemma RemoveFileKeeps(a: Archive, sha256: Sha256, f: Id)
    requires ArchiveOk(a, sha256)
    ensures ArchiveOk(RemoveFile(a, f), sha256)
  {
    hide SegmentOk;
    if ActiveFile(a, f) {
      DropLeavesKeepsTree(a.tree, f);
      RemoveFileKeepsRows(a, sha256, f);
      RemoveFileKeepsLeaves(a, f);
    }
  }

  lemma DropLeavesKeepsTree(t: Tree, f: Id)
    requires TreeOk(t)
    ensures TreeOk(DropLeaves(t, f))
  {
    hide SegmentOk;
    var u := DropLeaves(t, f);
    forall id: Id ensures EntryOk(u, id) { assert EntryOk(t, id); }
    forall a: Id, b: Id ensures Siblings(u, a, b) { assert Siblings(t, a, b); }
  }

  lemma RemoveFileKeepsRows(a: Archive, sha256: Sha256, f: Id)
    requires RowsOk(a, sha256) && ActiveFile(a, f)
    ensures RowsOk(RemoveFile(a, f), sha256)
  {
    var b := RemoveFile(a, f);
    forall g: Id ensures FileOk(b, sha256, g) { assert FileOk(a, sha256, g) && OwnObject(a, f, g); }
    forall g: Id, h: Id ensures OwnObject(b, g, h) { assert OwnObject(a, g, h); }
    forall blob: Id ensures ObjectUsed(b, blob) {
      assert ObjectUsed(a, blob);
      if blob in b.objects {
        var g: Id :| Stores(a, g, blob);
        assert Stores(b, g, blob);
      }
    }
  }

  lemma RemoveFileKeepsLeaves(a: Archive, f: Id)
    requires LeavesOk(a) && ActiveFile(a, f)
    ensures LeavesOk(RemoveFile(a, f))
  {
    var b := RemoveFile(a, f);
    forall e: Id, g: Id ensures LeafOk(b, e, g) { assert LeafOk(a, e, g); }
    forall g: Id, e: Id, o: Id ensures OneLeaf(b, g, e, o) { assert OneLeaf(a, g, e, o); }
    forall g: Id ensures HasLeaf(b, g) {
      assert HasLeaf(a, g);
      if ActiveFile(b, g) {
        var e: Id :| IsLeaf(a, e, g);
        assert IsLeaf(b, e, g);
      }
    }
  }

  lemma RemoveFolderKeeps(a: Archive, sha256: Sha256, folder: Id)
    requires ArchiveOk(a, sha256)
    ensures ArchiveOk(RemoveFolder(a, folder), sha256)
  {
    RemoveFolderKeepsTree(a, folder);
    RemoveFolderKeepsRows(a, sha256, folder);
    RemoveFolderKeepsLeaves(a, folder);
  }

  lemma RemoveFolderKeepsTree(a: Archive, folder: Id)
    requires TreeOk(a.tree)
    ensures TreeOk(RemoveFolder(a, folder).tree)
  {
    hide SegmentOk;
    var t, u := a.tree, RemoveFolder(a, folder).tree;
    forall id: Id ensures EntryOk(u, id) { assert EntryOk(t, id); }
    forall x: Id, y: Id ensures Siblings(u, x, y) { assert Siblings(t, x, y); }
  }

  lemma RemoveFolderKeepsRows(a: Archive, sha256: Sha256, folder: Id)
    requires RowsOk(a, sha256)
    ensures RowsOk(RemoveFolder(a, folder), sha256)
  {
    var b := RemoveFolder(a, folder);
    forall g: Id ensures FileOk(b, sha256, g) {
      assert FileOk(a, sha256, g);
      forall f | f in a.files && InFolder(a, folder, f) && ActiveFile(b, g) ensures a.files[f].blob != a.files[g].blob {
        assert OwnObject(a, f, g);
      }
    }
    forall g: Id, h: Id ensures OwnObject(b, g, h) { assert OwnObject(a, g, h); }
    forall blob: Id ensures ObjectUsed(b, blob) {
      assert ObjectUsed(a, blob);
      if blob in b.objects {
        var g: Id :| Stores(a, g, blob);
        assert Stores(b, g, blob);
      }
    }
  }

  lemma RemoveFolderKeepsLeaves(a: Archive, folder: Id)
    requires LeavesOk(a)
    ensures LeavesOk(RemoveFolder(a, folder))
  {
    var b := RemoveFolder(a, folder);
    forall e: Id, g: Id ensures LeafOk(b, e, g) { assert LeafOk(a, e, g); }
    forall g: Id, e: Id, o: Id ensures OneLeaf(b, g, e, o) { assert OneLeaf(a, g, e, o); }
    forall g: Id ensures HasLeaf(b, g) {
      assert HasLeaf(a, g);
      if ActiveFile(b, g) {
        var e: Id :| IsLeaf(a, e, g);
        assert LeafOk(a, e, g);
        assert IsLeaf(b, e, g);
      }
    }
  }

  // ------------------------------------------ what the small steps do to paths

  lemma {:induction false} DroppingKeepsPaths(t: Tree, u: Tree, id: Id)
    requires TreeOk(t) && TreeOk(u) && id in t.entries && id in u.entries
    requires forall x: Id :: x in u.entries ==> x in t.entries && u.entries[x] == t.entries[x]
    ensures Path(u, id) == Path(t, id)
    decreases id
  {
    hide SegmentOk, Siblings;
    assert EntryOk(t, id) && EntryOk(u, id);
    PathUnfolds(t, id);
    PathUnfolds(u, id);
    if t.entries[id].parent.Some? {
      DroppingKeepsPaths(t, u, t.entries[id].parent.value);
    }
  }

  lemma LeafIsKept(a: Archive, b: Archive, folder: Id, path: seq<string>, f: Id, e: Id)
    requires TreeOk(a.tree) && TreeOk(b.tree) && Extends(a.tree, b.tree) && e in a.tree.entries
    ensures LeafAt(b, folder, path, f, e) <==> LeafAt(a, folder, path, f, e)
  {
    hide SegmentOk;
    PathIsKept(a.tree, b.tree, e);
  }

  lemma MakePathKeepsFiles(a: Archive, sha256: Sha256, folder: Id, segments: seq<string>, where: Id, path: seq<string>, f: Id)
    requires ArchiveOk(a, sha256) && SegmentsOk(segments)
    ensures var b := MakePath(a, folder, segments);
      TreeOk(b.tree) && (FileAt(b, where, path, f) <==> FileAt(a, where, path, f))
  {
    hide SegmentOk, EntryOk, Siblings, SegmentsOk, RowsOk, LeavesOk;
    var b := MakePath(a, folder, segments);
    MakePathKeeps(a, sha256, folder, segments);
    WalkReaches(a.tree, folder, None, segments);
    forall e: Id ensures LeafAt(b, where, path, f, e) <==> LeafAt(a, where, path, f, e) {
      assert IsLeaf(b, e, f) <==> IsLeaf(a, e, f);
      if e in a.tree.entries {
        LeafIsKept(a, b, where, path, f, e);
      }
    }
  }

  lemma InsertFileAdds(a: Archive, sha256: Sha256, folder: Id, parent: Option<Id>, name: string, content: string,
                       where: Id, path: seq<string>, f: Id)
    requires ArchiveOk(a, sha256) && ParentOk(a.tree, folder, parent) && SegmentOk(name)
    ensures var b := InsertFile(a, sha256, folder, parent, name, content);
      && TreeOk(b.tree)
      && (FileAt(b, where, path, f) <==>
          FileAt(a, where, path, f) || (where == folder && path == PathOf(a.tree, folder, parent) + [name] && f == a.nextFile))
  {
    hide SegmentOk, Siblings, RowsOk, LeavesOk, ArchiveOk;
    var b := InsertFile(a, sha256, folder, parent, name, content);
    assert TreeOk(a.tree) by { hide *; ArchiveHasTree(a, sha256); }
    InsertKeepsTree(a.tree, Entry(folder, parent, Leaf(a.nextFile), name));
    var new_ := a.tree.next;
    assert EntryOk(a.tree, new_);
    PathUnfolds(b.tree, new_);
    if parent.Some? {
      PathIsKept(a.tree, b.tree, parent.value);
    }
    assert LeafAt(b, where, path, f, new_) <==> where == folder && path == PathOf(a.tree, folder, parent) + [name] && f == a.nextFile;
    forall e: Id | e != new_ ensures LeafAt(b, where, path, f, e) <==> LeafAt(a, where, path, f, e) {
      if e in a.tree.entries {
        LeafIsKept(a, b, where, path, f, e);
      }
    }
  }

  lemma ArchiveHasTree(a: Archive, sha256: Sha256)
    requires ArchiveOk(a, sha256)
    ensures TreeOk(a.tree)
  {
  }

  lemma RemoveFileRemoves(a: Archive, sha256: Sha256, gone: Id, where: Id, path: seq<string>, f: Id)
    requires ArchiveOk(a, sha256) && ActiveFile(a, gone)
    ensures var b := RemoveFile(a, gone);
      TreeOk(b.tree) && (FileAt(b, where, path, f) <==> FileAt(a, where, path, f) && f != gone)
  {
    hide SegmentOk, EntryOk, Siblings, RowsOk, LeavesOk;
    var b := RemoveFile(a, gone);
    DropLeavesKeepsTree(a.tree, gone);
    forall e: Id ensures LeafAt(b, where, path, f, e) <==> LeafAt(a, where, path, f, e) && f != gone {
      if e in b.tree.entries {
        DroppingKeepsPaths(a.tree, b.tree, e);
      }
    }
  }

  // ------------------------------------------------- what an operation does

  // A PUT stores exactly one new file, at its path, and takes away exactly the replaced one.
  lemma PutFileEffect(a: Archive, sha256: Sha256, folder: Id, segments: seq<string>, replaced: Option<Id>, content: string,
                      where: Id, path: seq<string>, f: Id)
    requires ArchiveOk(a, sha256) && segments != [] && SegmentsOk(segments) && (replaced.Some? ==> ActiveFile(a, replaced.value))
    ensures var b := PutFile(a, sha256, folder, segments, replaced, content);
      && ArchiveOk(b, sha256)
      && (FileAt(b, where, path, f) <==>
          (where == folder && path == segments && f == a.nextFile) || (FileAt(a, where, path, f) && replaced != Some(f)))
  {
    hide SegmentOk, RowsOk, LeavesOk, TreeOk, FileAt, InsertFile, RemoveFile, EnsurePath;
    var n := |segments| - 1;
    var (t, parent) := EnsurePath(a.tree, folder, segments[..n]);
    var b := a.(tree := t);
    MakePathKeeps(a, sha256, folder, segments[..n]);
    MakePathKeepsFiles(a, sha256, folder, segments[..n], where, path, f);
    assert segments[..n] + [segments[n]] == segments;
    var c := if replaced.None? then b else RemoveFile(b, replaced.value);
    if replaced.Some? {
      RemoveFileKeeps(b, sha256, replaced.value);
      RemoveFileRemoves(b, sha256, replaced.value, where, path, f);
      RemoveFileKeepsDirectories(b, sha256, replaced.value, folder, parent);
    }
    InsertFileKeeps(c, sha256, folder, parent, segments[n], content);
    InsertFileAdds(c, sha256, folder, parent, segments[n], content, where, path, f);
  }

  lemma RemoveFileKeepsDirectories(a: Archive, sha256: Sha256, gone: Id, folder: Id, parent: Option<Id>)
    requires ArchiveOk(a, sha256) && ParentOk(a.tree, folder, parent)
    ensures var b := RemoveFile(a, gone);
      && TreeOk(b.tree) && ParentOk(b.tree, folder, parent) && PathOf(b.tree, folder, parent) == PathOf(a.tree, folder, parent)
      && b.nextFile == a.nextFile && b.nextObject == a.nextObject
  {
    hide SegmentOk, EntryOk, Siblings, RowsOk, LeavesOk;
    DropLeavesKeepsTree(a.tree, gone);
    var b := RemoveFile(a, gone);
    if parent.Some? {
      DroppingKeepsPaths(a.tree, b.tree, parent.value);
    }
  }

  // The contents of files still there are untouched, and the new file holds what was sent.
  lemma PutFileContents(a: Archive, sha256: Sha256, folder: Id, segments: seq<string>, replaced: Option<Id>, content: string, f: Id)
    requires ArchiveOk(a, sha256) && segments != [] && (replaced.Some? ==> ActiveFile(a, replaced.value))
    ensures var b := PutFile(a, sha256, folder, segments, replaced, content);
      && (ActiveFile(b, f) <==> f == a.nextFile || (ActiveFile(a, f) && replaced != Some(f)))
      && (f == a.nextFile ==> b.files[f] == FileRow(folder, a.nextObject, segments[|segments| - 1], sha256(content), |content|, true)
                              && a.nextObject in b.objects && b.objects[a.nextObject] == content)
      && (ActiveFile(a, f) && replaced != Some(f) ==>
            b.files[f] == a.files[f] && a.files[f].blob in b.objects && a.files[f].blob in a.objects
            && b.objects[a.files[f].blob] == a.objects[a.files[f].blob])
  {
    hide EnsurePath;
    assert FileOk(a, sha256, f) && FileOk(a, sha256, a.nextFile);
    if replaced.Some? {
      assert OwnObject(a, f, replaced.value) && FileOk(a, sha256, replaced.value);
    }
  }

  // An upload is a PUT that replaces nothing.
  lemma AddIsPut(a: Archive, sha256: Sha256, folder: Id, segments: seq<string>, content: string)
    requires segments != []
    ensures AddFile(a, sha256, folder, segments, content) == PutFile(a, sha256, folder, segments, None, content)
  {
    hide EnsurePath, InsertFile;
  }

  // The directories of an upload are those above its file.
  lemma AddFileEffect(a: Archive, sha256: Sha256, folder: Id, segments: seq<string>, content: string,
                      where: Id, path: seq<string>, f: Id)
    requires ArchiveOk(a, sha256) && segments != [] && SegmentsOk(segments)
    ensures var b := AddFile(a, sha256, folder, segments, content);
      && ArchiveOk(b, sha256) && b.nextFile == a.nextFile + 1
      && (FileAt(b, where, path, f) <==> FileAt(a, where, path, f) || (where == folder && path == segments && f == a.nextFile))
      && (HasDir(b.tree, where, path) <==>
          HasDir(a.tree, where, path) || (where == folder && path != [] && path <= segments[..|segments| - 1]))
  {
    hide SegmentOk, RowsOk, LeavesOk, TreeOk, FileAt, HasDir, EnsurePath;
    var n := |segments| - 1;
    AddIsPut(a, sha256, folder, segments, content);
    PutFileEffect(a, sha256, folder, segments, None, content, where, path, f);
    var (t, parent) := EnsurePath(a.tree, folder, segments[..n]);
    MakePathKeeps(a, sha256, folder, segments[..n]);
    EnsurePathMakesDirs(a.tree, folder, segments[..n], where, path);
    var e := Entry(folder, parent, Leaf(a.nextFile), segments[n]);
    InsertKeepsTree(t, e);
    LeafMakesNoDirs(t, e, where, path);
  }

  // What an upload stores, and that it touches no other file.
  lemma AddFileContents(a: Archive, sha256: Sha256, folder: Id, segments: seq<string>, content: string, f: Id)
    requires ArchiveOk(a, sha256) && segments != []
    ensures var b := AddFile(a, sha256, folder, segments, content);
      && b.nextFile == a.nextFile + 1
      && (ActiveFile(b, f) <==> f == a.nextFile || ActiveFile(a, f))
      && (f == a.nextFile ==> b.files[f] == FileRow(folder, a.nextObject, segments[|segments| - 1], sha256(content), |content|, true)
                              && a.nextObject in b.objects && b.objects[a.nextObject] == content)
      && (ActiveFile(a, f) ==>
            f != a.nextFile && b.files[f] == a.files[f] && a.files[f].blob in b.objects && a.files[f].blob in a.objects
            && b.objects[a.files[f].blob] == a.objects[a.files[f].blob])
  {
    hide EnsurePath, TreeOk, LeavesOk;
    AddIsPut(a, sha256, folder, segments, content);
    PutFileContents(a, sha256, folder, segments, None, content, f);
    assert FileOk(a, sha256, f);
  }
}
