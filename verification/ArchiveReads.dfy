/** Reading through WebDAV: the listing of a folder, its display paths, and what a GET returns. */
module ArchiveReads {
  import opened Base
  import opened Text
  import opened EntryTree
  import opened DavNames
  import opened ArchiveModel

  // ------------------------------------------------------------------ listing

  // One row of the listing query: a file joined with its entry's path.
  ghost predicate IsRow(a: Archive, folder: Id, file: File, e: Id)
    requires TreeOk(a.tree)
  {
    && IsLeaf(a, e, file.id) && InFolder(a, folder, file.id) && a.tree.entries[e].folder == folder
    && file.path == Join(Path(a.tree, e)) && file.name == a.files[file.id].name
    && file.sha == a.files[file.id].sha && file.size == a.files[file.id].size
  }

  ghost predicate Listed(a: Archive, folder: Id, file: File)
    requires TreeOk(a.tree)
  {
    exists e: Id :: IsRow(a, folder, file, e)
  }

  predicate HasId(files: seq<File>, f: Id) {
    exists i :: 0 <= i < |files| && files[i].id == f
  }

  // The active files of a folder, each once, in some order.
  ghost predicate IsListing(a: Archive, folder: Id, files: seq<File>)
    requires TreeOk(a.tree)
  {
    && DistinctIds(files)
    && (forall i :: 0 <= i < |files| ==> Listed(a, folder, files[i]))
    && (forall f: Id :: InFolder(a, folder, f) ==> HasId(files, f))
  }

  ghost predicate SamePath(a: Archive, folder: Id, path: seq<string>, f: Id, g: Id)
    requires TreeOk(a.tree)
  {
    FileAt(a, folder, path, f) && FileAt(a, folder, path, g) ==> f == g
  }

  // No two files of the folder are stored under one path.
  ghost predicate DistinctPaths(a: Archive, folder: Id)
    requires TreeOk(a.tree)
  {
    forall path, f: Id, g: Id :: SamePath(a, folder, path, f, g)
  }

  // No two files of one directory are stored under one path.
  ghost predicate DistinctIn(a: Archive, folder: Id, dir: seq<string>)
    requires TreeOk(a.tree)
  {
    forall name: string, f: Id, g: Id :: SamePath(a, folder, dir + [name], f, g)
  }

  function Parent(path: seq<string>): seq<string>
    requires path != []
  {
    path[..|path| - 1]
  }

  lemma DistinctEverywhere(a: Archive, folder: Id, dir: seq<string>)
    requires TreeOk(a.tree) && DistinctPaths(a, folder)
    ensures DistinctIn(a, folder, dir)
  {
    hide FileAt;
  }

  lemma RowPath(a: Archive, sha256: Sha256, folder: Id, file: File) returns (path: seq<string>)
    requires ArchiveOk(a, sha256) && Listed(a, folder, file)
    ensures path != [] && SegmentsOk(path) && FileAt(a, folder, path, file.id)
    ensures file.path == Join(path) && CleanPath(file.path) && Split(file.path) == path
  {
    hide SegmentOk, RowsOk, LeavesOk;
    var e: Id :| IsRow(a, folder, file, e);
    path := Path(a.tree, e);
    PathSegmentsOk(a.tree, e);
    JoinedIsClean(path);
    assert LeafAt(a, folder, path, file.id, e);
  }

  lemma ListingIsClean(a: Archive, sha256: Sha256, folder: Id, files: seq<File>)
    requires ArchiveOk(a, sha256) && IsListing(a, folder, files)
    ensures CleanPaths(files)
  {
    hide CleanPath, ArchiveOk, RowsOk, LeavesOk, Listed, TreeOk;
    ArchiveHasTree(a, sha256);
    forall i | 0 <= i < |files| ensures CleanPath(files[i].path) {
      var _ := RowPath(a, sha256, folder, files[i]);
    }
  }

  lemma ListingIsDistinct(a: Archive, sha256: Sha256, folder: Id, files: seq<File>)
    requires ArchiveOk(a, sha256) && IsListing(a, folder, files) && DistinctPaths(a, folder)
    ensures DistinctStoredPaths(files)
  {
    hide ArchiveOk, RowsOk, LeavesOk, Listed, TreeOk, FileAt, Split, Join;
    ArchiveHasTree(a, sha256);
    forall i, j | 0 <= i < j < |files| ensures files[i].path != files[j].path {
      var p := RowPath(a, sha256, folder, files[i]);
      var q := RowPath(a, sha256, folder, files[j]);
      assert SamePath(a, folder, p, files[i].id, files[j].id);
    }
  }

  // A file has one path, and its row shows it.
  lemma RowOfFile(a: Archive, sha256: Sha256, folder: Id, files: seq<File>, path: seq<string>, f: Id) returns (i: nat)
    requires ArchiveOk(a, sha256) && IsListing(a, folder, files) && FileAt(a, folder, path, f)
    ensures i < |files| && files[i].id == f && files[i].path == Join(path) && InFolder(a, folder, f)
  {
    hide SegmentOk, RowsOk, Join, TreeOk;
    var e: Id :| LeafAt(a, folder, path, f, e);
    assert LeafOk(a, e, f);
    assert HasId(files, f);
    i :| 0 <= i < |files| && files[i].id == f;
    var o: Id :| IsRow(a, folder, files[i], o);
    assert OneLeaf(a, f, e, o);
  }

  // ------------------------------------------------------------------ reading

  // copyStoredFileToWriter checks length and hash on the way.
  function Content(a: Archive, sha256: Sha256, f: Id): Option<string> {
    if !ActiveFile(a, f) || a.files[f].blob !in a.objects then None
    else
      var content := a.objects[a.files[f].blob];
      if |content| != a.files[f].size || sha256(content) != a.files[f].sha then None else Some(content)
  }

  // handleDAVRead and handleAdminDAVRead: find the file by display path, then stream it.
  ghost function Get(a: Archive, sha256: Sha256, files: seq<File>, requested: string): Option<string> {
    match FindFile(files, DisplayPaths(files), requested)
    case None => None
    case Some(file) => Content(a, sha256, file.id)
  }

  lemma ContentIsStored(a: Archive, sha256: Sha256, f: Id)
    requires ArchiveOk(a, sha256) && ActiveFile(a, f)
    ensures a.files[f].blob in a.objects && Content(a, sha256, f) == Some(a.objects[a.files[f].blob])
  {
    assert FileOk(a, sha256, f);
  }

  lemma ListingShowsStored(a: Archive, sha256: Sha256, folder: Id, files: seq<File>)
    requires ArchiveOk(a, sha256) && IsListing(a, folder, files) && DistinctPaths(a, folder)
    ensures ShowsStoredPaths(files, DisplayPaths(files))
  {
    hide CleanPaths, DistinctStoredPaths, DisplayPaths, ShowsStoredPaths;
    ListingIsClean(a, sha256, folder, files);
    ListingIsDistinct(a, sha256, folder, files);
    ShownAsStoredIffDistinct(files);
  }

  lemma ListedIsInFolder(a: Archive, folder: Id, file: File)
    requires TreeOk(a.tree) && Listed(a, folder, file)
    ensures InFolder(a, folder, file.id)
  {
  }

  lemma DistinctSame(a: Archive, folder: Id, path: seq<string>, f: Id, g: Id)
    requires TreeOk(a.tree) && path != [] && DistinctIn(a, folder, Parent(path)) && FileAt(a, folder, path, f) && FileAt(a, folder, path, g)
    ensures f == g
  {
    assert Parent(path) + [path[|path| - 1]] == path;
    assert SamePath(a, folder, Parent(path) + [path[|path| - 1]], f, g);
  }

  // Two clean paths have the same directory exactly if their parents are the same.
  lemma DirIsParent(p: seq<string>, q: seq<string>)
    requires p != [] && q != [] && SegmentsOk(p) && SegmentsOk(q)
    ensures PathDir(Join(p)) == PathDir(Join(q)) <==> Parent(p) == Parent(q)
  {
    hide SegmentOk, PathDir, Join;
    ParentDir(p);
    ParentDir(q);
    if Parent(p) != [] { JoinedIsNotDot(Parent(p)); }
    if Parent(q) != [] { JoinedIsNotDot(Parent(q)); }
    if Parent(p) != [] && Parent(q) != [] && Join(Parent(p)) == Join(Parent(q)) {
      SegmentsHaveNoSlash(Parent(p));
      SegmentsHaveNoSlash(Parent(q));
      JoinInjective(Parent(p), Parent(q));
    }
  }

  lemma ParentDir(p: seq<string>)
    requires p != [] && SegmentsOk(p)
    ensures SegmentsOk(Parent(p)) && PathDir(Join(p)) == if Parent(p) == [] then "." else Join(Parent(p))
  {
    hide SegmentOk, PathDir, Join;
    assert Parent(p) + [p[|p| - 1]] == p;
    DirAndBase(Parent(p), p[|p| - 1]);
  }

  lemma ListingIsDistinctIn(a: Archive, sha256: Sha256, folder: Id, files: seq<File>, path: seq<string>)
    requires ArchiveOk(a, sha256) && IsListing(a, folder, files) && path != [] && SegmentsOk(path) && DistinctIn(a, folder, Parent(path))
    ensures DistinctInDir(files, PathDir(Join(path)))
  {
    hide ArchiveOk, Listed, TreeOk, FileAt, DistinctIn, PathDir, Join, SegmentsOk, CleanPath, Split;
    ArchiveHasTree(a, sha256);
    forall i, j | 0 <= i < j < |files| && PathDir(files[i].path) == PathDir(Join(path)) && PathDir(files[j].path) == PathDir(Join(path))
      ensures files[i].path != files[j].path
    {
      var p := RowPath(a, sha256, folder, files[i]);
      var q := RowPath(a, sha256, folder, files[j]);
      DirIsParent(p, path);
      if p == q {
        DistinctSame(a, folder, p, files[i].id, files[j].id);
      }
    }
  }

  // A file shown in a directory with distinct stored paths is shown as it is stored.
  lemma ShownInDistinctDir(a: Archive, sha256: Sha256, folder: Id, files: seq<File>, path: seq<string>, i: nat)
    requires ArchiveOk(a, sha256) && IsListing(a, folder, files) && path != [] && SegmentsOk(path) && DistinctIn(a, folder, Parent(path))
    requires i < |files| && CleanPath(files[i].path)
    ensures files[i].id in DisplayPaths(files)
    ensures PathDir(files[i].path) == PathDir(Join(path)) ==> DisplayPaths(files)[files[i].id] == files[i].path
    ensures DisplayPaths(files)[files[i].id] == Join(path) ==> files[i].path == Join(path)
  {
    hide ArchiveOk, Listed, TreeOk, DistinctIn, PathDir, Join, SegmentsOk, CleanPath, DisplayPaths, DistinctInDir;
    ArchiveHasTree(a, sha256);
    ListingIsClean(a, sha256, folder, files);
    ListingIsDistinctIn(a, sha256, folder, files, path);
    DisplayPathIsClean(files, i);
    if PathDir(files[i].path) == PathDir(Join(path)) {
      DistinctInDirAreKept(files, PathDir(Join(path)), i);
    }
  }

  lemma {:induction false} FoundIsShown(files: seq<File>, shown: map<nat, string>, requested: string) returns (i: nat)
    ensures var r := FindFile(files, shown, requested);
      && (r.Some? ==> i < |files| && files[i] == r.value && files[i].id in shown && shown[files[i].id] == TrimSlashes(requested))
  {
    hide TrimSlashes;
    i := 0;
    if files != [] && !(files[0].id in shown && shown[files[0].id] == TrimSlashes(requested)) {
      var k := FoundIsShown(files[1..], shown, requested);
      i := k + 1;
    }
  }

  // In a directory with distinct stored paths, display paths and entry tree agree on every path.
  lemma FindFollowsTree(a: Archive, sha256: Sha256, folder: Id, files: seq<File>, path: seq<string>)
    requires ArchiveOk(a, sha256) && IsListing(a, folder, files)
    requires path != [] && SegmentsOk(path) && DistinctIn(a, folder, Parent(path))
    ensures var r := FindFile(files, DisplayPaths(files), Join(path));
      && (r.Some? ==> FileAt(a, folder, path, r.value.id) && InFolder(a, folder, r.value.id))
      && (forall f: Id :: FileAt(a, folder, path, f) ==> r.Some? && r.value.id == f)
  {
    hide ArchiveOk, Listed, DistinctIn, FileAt, InFolder, Join, Split, TreeOk, FindFile, DisplayPaths, TrimSlashes, SegmentsOk,
         CleanPath, PathDir;
    ArchiveHasTree(a, sha256);
    var requested := Join(path);
    var r := FindFile(files, DisplayPaths(files), requested);
    JoinedIsClean(path);
    CleanPathIsStable(requested);
    if r.Some? {
      var i := FoundIsShown(files, DisplayPaths(files), requested);
      var p := RowPath(a, sha256, folder, files[i]);
      ShownInDistinctDir(a, sha256, folder, files, path, i);
      ListedIsInFolder(a, folder, files[i]);
    }
    forall f: Id | FileAt(a, folder, path, f) ensures r.Some? && r.value.id == f {
      var k := RowOfFile(a, sha256, folder, files, path, f);
      ShownInDistinctDir(a, sha256, folder, files, path, k);
      FindInvertsDisplay(files, k);
    }
  }

  // A GET returns what the file at that path holds, and nothing when there is none.
  lemma GetFollowsTree(a: Archive, sha256: Sha256, folder: Id, files: seq<File>, path: seq<string>)
    requires ArchiveOk(a, sha256) && IsListing(a, folder, files)
    requires path != [] && SegmentsOk(path) && DistinctIn(a, folder, Parent(path))
    ensures forall f: Id :: FileAt(a, folder, path, f) ==> Get(a, sha256, files, Join(path)) == Content(a, sha256, f)
    ensures Get(a, sha256, files, Join(path)).Some? <==> exists f: Id :: FileAt(a, folder, path, f)
  {
    hide ArchiveOk, IsListing, DistinctIn, FileAt, Join, TreeOk, FindFile, DisplayPaths, SegmentsOk, Content;
    ArchiveHasTree(a, sha256);
    FindFollowsTree(a, sha256, folder, files, path);
    var r := FindFile(files, DisplayPaths(files), Join(path));
    if r.Some? {
      ContentIsStored(a, sha256, r.value.id);
    }
  }

  // ----------------------------------------------------------------- PUT, GET

  // The file a PUT replaces: the one shown under the requested path.
  ghost function Replaced(files: seq<File>, requested: string): Option<Id> {
    match FindFile(files, DisplayPaths(files), requested)
    case None => None
    case Some(file) => Some(file.id)
  }

  // A PUT keeps the stored paths of a directory distinct.
  lemma PutKeepsDirDistinct(a: Archive, sha256: Sha256, folder: Id, segments: seq<string>, files: seq<File>, content: string, dir: seq<string>)
    requires ArchiveOk(a, sha256) && IsListing(a, folder, files) && DistinctIn(a, folder, dir)
    requires segments != [] && SegmentsOk(segments)
    ensures var b := PutFile(a, sha256, folder, segments, Replaced(files, Join(segments)), content);
      ArchiveOk(b, sha256) && DistinctIn(b, folder, dir)
  {
    hide ArchiveOk, IsListing, FileAt, Join, TreeOk, FindFile, DisplayPaths, SegmentsOk, PutFile, InFolder, Replaced;
    ArchiveHasTree(a, sha256);
    var replaced := Replaced(files, Join(segments));
    var b := PutFile(a, sha256, folder, segments, replaced, content);
    ReplacedIsActive(a, sha256, folder, files, segments);
    PutFileEffect(a, sha256, folder, segments, replaced, content, folder, segments, 0);
    ArchiveHasTree(b, sha256);
    forall name: string, f: Id, g: Id ensures SamePath(b, folder, dir + [name], f, g) {
      var path := dir + [name];
      PutFileEffect(a, sha256, folder, segments, replaced, content, folder, path, f);
      PutFileEffect(a, sha256, folder, segments, replaced, content, folder, path, g);
      assert SamePath(a, folder, dir + [name], f, g);
      if path == segments {
        assert Parent(segments) == dir;
        FindFollowsTree(a, sha256, folder, files, segments);
        ReplacedIs(files, Join(segments));
      }
    }
  }

  lemma ReplacedIs(files: seq<File>, requested: string)
    ensures Replaced(files, requested) ==
      match FindFile(files, DisplayPaths(files), requested) case None => None case Some(file) => Some(file.id)
  {
  }

  // In every directory at once, the paths of the folder stay distinct.
  lemma PutKeepsPathsDistinct(a: Archive, sha256: Sha256, folder: Id, segments: seq<string>, files: seq<File>, content: string)
    requires ArchiveOk(a, sha256) && IsListing(a, folder, files) && DistinctPaths(a, folder)
    requires segments != [] && SegmentsOk(segments)
    ensures var b := PutFile(a, sha256, folder, segments, Replaced(files, Join(segments)), content);
      ArchiveOk(b, sha256) && DistinctPaths(b, folder)
  {
    hide ArchiveOk, IsListing, FileAt, Join, TreeOk, SegmentsOk, PutFile, Replaced, DistinctIn;
    ArchiveHasTree(a, sha256);
    var b := PutFile(a, sha256, folder, segments, Replaced(files, Join(segments)), content);
    DistinctEverywhere(a, folder, []);
    PutKeepsDirDistinct(a, sha256, folder, segments, files, content, []);
    ArchiveHasTree(b, sha256);
    forall path, f: Id, g: Id ensures SamePath(b, folder, path, f, g) {
      if FileAt(b, folder, path, f) {
        StoredPathIsNotEmpty(b, sha256, folder, path, f);
        DistinctEverywhere(a, folder, Parent(path));
        PutKeepsDirDistinct(a, sha256, folder, segments, files, content, Parent(path));
        if FileAt(b, folder, path, g) {
          DistinctSame(b, folder, path, f, g);
        }
      }
    }
  }

  lemma StoredPathIsNotEmpty(a: Archive, sha256: Sha256, folder: Id, path: seq<string>, f: Id)
    requires ArchiveOk(a, sha256) && FileAt(a, folder, path, f)
    ensures path != []
  {
    hide SegmentOk, RowsOk, LeavesOk;
    var e: Id :| LeafAt(a, folder, path, f, e);
    PathSegmentsOk(a.tree, e);
  }

  lemma ReplacedIsActive(a: Archive, sha256: Sha256, folder: Id, files: seq<File>, segments: seq<string>)
    requires ArchiveOk(a, sha256) && IsListing(a, folder, files)
    ensures var r := Replaced(files, Join(segments)); r.Some? ==> ActiveFile(a, r.value) && HasId(files, r.value)
  {
    hide ArchiveOk, TreeOk, Listed, FindFile, DisplayPaths, Join;
    ArchiveHasTree(a, sha256);
    if FindFile(files, DisplayPaths(files), Join(segments)).Some? {
      var i := FoundIsShown(files, DisplayPaths(files), Join(segments));
      ListedIsInFolder(a, folder, files[i]);
    }
  }

  // A PUT takes no file away from another path of a directory with distinct stored paths.
  lemma ReplacedIsElsewhere(a: Archive, sha256: Sha256, folder: Id, segments: seq<string>, files: seq<File>, path: seq<string>, f: Id)
    requires ArchiveOk(a, sha256) && IsListing(a, folder, files) && segments != [] && SegmentsOk(segments)
    requires path != [] && SegmentsOk(path) && DistinctIn(a, folder, Parent(path)) && path != segments && FileAt(a, folder, path, f)
    ensures Replaced(files, Join(segments)) != Some(f)
  {
    hide ArchiveOk, Listed, DistinctIn, FileAt, InFolder, Join, Split, TreeOk, FindFile, DisplayPaths, TrimSlashes, SegmentsOk,
         CleanPath, PathDir;
    ArchiveHasTree(a, sha256);
    if Replaced(files, Join(segments)) == Some(f) {
      var i := FoundIsShown(files, DisplayPaths(files), Join(segments));
      JoinedIsClean(segments);
      CleanPathIsStable(Join(segments));
      var p := RowPath(a, sha256, folder, files[i]);
      OnePath(a, sha256, folder, p, path, f);
      DisplayPathIsClean(files, i);
      ShownInDistinctDir(a, sha256, folder, files, path, i);
      JoinedIsClean(path);
    }
  }

  // After a PUT the path reads back what was sent, and every other path reads as before: in each
  // directory whose stored paths are distinct, whatever the others hold.
  lemma PutThenGet(a: Archive, sha256: Sha256, folder: Id, segments: seq<string>, files: seq<File>, content: string,
                   after: seq<File>, path: seq<string>)
    requires ArchiveOk(a, sha256) && IsListing(a, folder, files) && segments != [] && SegmentsOk(segments)
    requires path != [] && SegmentsOk(path) && DistinctIn(a, folder, Parent(path))
    requires var b := PutFile(a, sha256, folder, segments, Replaced(files, Join(segments)), content);
      TreeOk(b.tree) && IsListing(b, folder, after)
    ensures var b := PutFile(a, sha256, folder, segments, Replaced(files, Join(segments)), content);
      Get(b, sha256, after, Join(path)) == if path == segments then Some(content) else Get(a, sha256, files, Join(path))
  {
    hide ArchiveOk, IsListing, FileAt, Join, TreeOk, Replaced, SegmentsOk, PutFile, InFolder, Get, DistinctIn, Content;
    ArchiveHasTree(a, sha256);
    var replaced := Replaced(files, Join(segments));
    var b := PutFile(a, sha256, folder, segments, replaced, content);
    ReplacedIsActive(a, sha256, folder, files, segments);
    PutKeepsDirDistinct(a, sha256, folder, segments, files, content, Parent(path));
    GetFollowsTree(b, sha256, folder, after, path);
    GetFollowsTree(a, sha256, folder, files, path);
    if path == segments {
      PutFileEffect(a, sha256, folder, segments, replaced, content, folder, path, a.nextFile);
      NewContent(a, sha256, folder, segments, replaced, content);
    } else {
      forall f: Id ensures FileAt(b, folder, path, f) <==> FileAt(a, folder, path, f) {
        PutFileEffect(a, sha256, folder, segments, replaced, content, folder, path, f);
        if FileAt(a, folder, path, f) {
          ReplacedIsElsewhere(a, sha256, folder, segments, files, path, f);
        }
      }
      if exists f: Id :: FileAt(a, folder, path, f) {
        var f: Id :| FileAt(a, folder, path, f);
        FileAtIsActive(a, sha256, folder, path, f);
        ReplacedIsElsewhere(a, sha256, folder, segments, files, path, f);
        OldContent(a, sha256, folder, segments, replaced, content, f);
      }
    }
  }

  // ------------------------------------------------- reading a PUT back, in any folder

  // The listing without one file, in the same order.
  function Without(files: seq<File>, gone: Option<Id>): seq<File> {
    if files == [] then []
    else
      var n := |files| - 1;
      Without(files[..n], gone) + if gone == Some(files[n].id) then [] else [files[n]]
  }

  // A new row anywhere among the others.
  function Placed(rest: seq<File>, row: File, k: nat): seq<File>
    requires k <= |rest|
  {
    rest[..k] + [row] + rest[k..]
  }

  function PutRow(a: Archive, sha256: Sha256, segments: seq<string>, content: string): File
    requires segments != []
  {
    File(a.nextFile, Join(segments), segments[|segments| - 1], sha256(content), |content|)
  }

  lemma {:induction false} WithoutKeepsOthers(files: seq<File>, gone: Option<Id>)
    requires DistinctIds(files)
    ensures var rest := Without(files, gone);
      && DistinctIds(rest)
      && (forall x :: x in rest <==> x in files && gone != Some(x.id))
  {
    if files != [] {
      var n := |files| - 1;
      WithoutKeepsOthers(files[..n], gone);
      assert files == files[..n] + [files[n]];
      var rest := Without(files[..n], gone);
      forall i | 0 <= i < |rest| ensures rest[i].id != files[n].id {
        assert rest[i] in files[..n];
      }
    }
  }

  lemma RowIsListed(a: Archive, sha256: Sha256, folder: Id, path: seq<string>, file: File)
    requires ArchiveOk(a, sha256) && FileAt(a, folder, path, file.id) && file.id in a.files && file.path == Join(path)
    requires (file.name, file.sha, file.size) == (a.files[file.id].name, a.files[file.id].sha, a.files[file.id].size)
    ensures Listed(a, folder, file)
  {
    hide SegmentOk, EntryOk, Siblings, RowsOk, LeavesOk, Join;
    FileAtIsActive(a, sha256, folder, path, file.id);
    var e: Id :| LeafAt(a, folder, path, file.id, e);
    assert IsRow(a, folder, file, e);
  }

  lemma ListedIsOld(a: Archive, sha256: Sha256, folder: Id, file: File)
    requires ArchiveOk(a, sha256) && Listed(a, folder, file)
    ensures file.id < a.nextFile && InFolder(a, folder, file.id)
    ensures (file.name, file.sha, file.size) == (a.files[file.id].name, a.files[file.id].sha, a.files[file.id].size)
  {
    hide SegmentOk, EntryOk, Siblings, LeavesOk, Join, Path;
    assert FileOk(a, sha256, file.id);
  }

  // After a PUT the listing is what it was without the replaced file, and the new row in some place.
  lemma PutListing(a: Archive, sha256: Sha256, folder: Id, segments: seq<string>, files: seq<File>, content: string, k: nat)
    requires ArchiveOk(a, sha256) && IsListing(a, folder, files) && segments != [] && SegmentsOk(segments)
    requires k <= |Without(files, Replaced(files, Join(segments)))|
    ensures var b := PutFile(a, sha256, folder, segments, Replaced(files, Join(segments)), content);
      var after := Placed(Without(files, Replaced(files, Join(segments))), PutRow(a, sha256, segments, content), k);
      ArchiveOk(b, sha256) && IsListing(b, folder, after) && CleanPaths(after)
  {
    hide ArchiveOk, Listed, FileAt, Join, TreeOk, Replaced, SegmentsOk, PutFile, InFolder, Without, CleanPaths;
    ArchiveHasTree(a, sha256);
    var replaced := Replaced(files, Join(segments));
    var b, rest := PutFile(a, sha256, folder, segments, replaced, content), Without(files, replaced);
    var after := Placed(rest, PutRow(a, sha256, segments, content), k);
    ReplacedIsActive(a, sha256, folder, files, segments);
    WithoutKeepsOthers(files, replaced);
    PutFileEffect(a, sha256, folder, segments, replaced, content, folder, segments, a.nextFile);
    ArchiveHasTree(b, sha256);
    forall x | x in rest ensures Listed(b, folder, x) && x.id != a.nextFile {
      assert x in files;
      RestIsListed(a, sha256, folder, segments, replaced, content, x);
    }
    NewIsListed(a, sha256, folder, segments, replaced, content);
    PlacedIds(rest, PutRow(a, sha256, segments, content), k);
    forall f: Id | InFolder(b, folder, f) ensures HasId(after, f) {
      StillInFolder(a, sha256, folder, segments, replaced, content, f);
      if f != a.nextFile {
        assert HasId(files, f);
        var x :| x in files && x.id == f;
        assert x in rest;
      }
      PlacedHas(rest, PutRow(a, sha256, segments, content), k, f);
    }
    ListingIsClean(b, sha256, folder, after);
  }

  lemma PlacedIds(rest: seq<File>, row: File, k: nat)
    requires DistinctIds(rest) && k <= |rest| && forall x :: x in rest ==> x.id != row.id
    ensures DistinctIds(Placed(rest, row, k))
    ensures forall i :: 0 <= i < |Placed(rest, row, k)| ==> Placed(rest, row, k)[i] == row || Placed(rest, row, k)[i] in rest
  {
  }

  lemma PlacedHas(rest: seq<File>, row: File, k: nat, f: Id)
    requires k <= |rest| && (f == row.id || exists x :: x in rest && x.id == f)
    ensures HasId(Placed(rest, row, k), f)
  {
    var after := Placed(rest, row, k);
    if f == row.id {
      assert after[k].id == f;
    } else {
      var i :| 0 <= i < |rest| && rest[i].id == f;
      assert after[if i < k then i else i + 1].id == f;
    }
  }

  lemma RestIsListed(a: Archive, sha256: Sha256, folder: Id, segments: seq<string>, replaced: Option<Id>, content: string, x: File)
    requires ArchiveOk(a, sha256) && segments != [] && SegmentsOk(segments) && (replaced.Some? ==> ActiveFile(a, replaced.value))
    requires Listed(a, folder, x) && replaced != Some(x.id)
    ensures x.id != a.nextFile
    ensures var b := PutFile(a, sha256, folder, segments, replaced, content); TreeOk(b.tree) && Listed(b, folder, x)
  {
    hide ArchiveOk, Listed, FileAt, Join, Split, TreeOk, SegmentsOk, PutFile, CleanPath;
    ArchiveHasTree(a, sha256);
    var b := PutFile(a, sha256, folder, segments, replaced, content);
    var p := RowPath(a, sha256, folder, x);
    ListedIsOld(a, sha256, folder, x);
    PutFileEffect(a, sha256, folder, segments, replaced, content, folder, p, x.id);
    PutFileContents(a, sha256, folder, segments, replaced, content, x.id);
    ArchiveHasTree(b, sha256);
    RowIsListed(b, sha256, folder, p, x);
  }

  lemma NewIsListed(a: Archive, sha256: Sha256, folder: Id, segments: seq<string>, replaced: Option<Id>, content: string)
    requires ArchiveOk(a, sha256) && segments != [] && SegmentsOk(segments) && (replaced.Some? ==> ActiveFile(a, replaced.value))
    ensures var b := PutFile(a, sha256, folder, segments, replaced, content);
      TreeOk(b.tree) && Listed(b, folder, PutRow(a, sha256, segments, content))
  {
    hide ArchiveOk, Listed, FileAt, Join, TreeOk, SegmentsOk, PutFile;
    var b := PutFile(a, sha256, folder, segments, replaced, content);
    PutFileEffect(a, sha256, folder, segments, replaced, content, folder, segments, a.nextFile);
    PutFileContents(a, sha256, folder, segments, replaced, content, a.nextFile);
    ArchiveHasTree(b, sha256);
    RowIsListed(b, sha256, folder, segments, PutRow(a, sha256, segments, content));
  }

  lemma StillInFolder(a: Archive, sha256: Sha256, folder: Id, segments: seq<string>, replaced: Option<Id>, content: string, f: Id)
    requires ArchiveOk(a, sha256) && segments != [] && (replaced.Some? ==> ActiveFile(a, replaced.value))
    requires InFolder(PutFile(a, sha256, folder, segments, replaced, content), folder, f)
    ensures f == a.nextFile || (InFolder(a, folder, f) && replaced != Some(f))
  {
    hide ArchiveOk, PutFile;
    PutFileContents(a, sha256, folder, segments, replaced, content, f);
  }

  /** In any folder, wherever the listing puts the new file: the path leads to it exactly if the files
      listed before it, without the replaced one, show none under that path. A GET then reads what was
      sent, and otherwise another file, which the folder held before. */
  lemma PutIsReadBackIff(a: Archive, sha256: Sha256, folder: Id, segments: seq<string>, files: seq<File>, content: string, k: nat)
    requires ArchiveOk(a, sha256) && IsListing(a, folder, files) && segments != [] && SegmentsOk(segments)
    requires k <= |Without(files, Replaced(files, Join(segments)))|
    ensures var b := PutFile(a, sha256, folder, segments, Replaced(files, Join(segments)), content);
      var rest, row := Without(files, Replaced(files, Join(segments))), PutRow(a, sha256, segments, content);
      var after := Placed(rest, row, k);
      var found := FindFile(after, DisplayPaths(after), Join(segments));
      && TreeOk(b.tree) && IsListing(b, folder, after)
      && (found == Some(row) <==> Join(segments) !in DisplayPaths(rest[..k]).Values)
      && (found == Some(row) ==> Get(b, sha256, after, Join(segments)) == Some(content))
      && (found != Some(row) ==> found.Some? && found.value in rest[..k])
  {
    hide ArchiveOk, IsListing, Join, Split, TreeOk, Replaced, SegmentsOk, PutFile, Content, CleanPath, DisplayPaths, FindFile, TrimSlashes, Without,
         DistinctIds;
    ArchiveHasTree(a, sha256);
    var replaced := Replaced(files, Join(segments));
    var b, rest, row := PutFile(a, sha256, folder, segments, replaced, content), Without(files, replaced), PutRow(a, sha256, segments, content);
    var after := Placed(rest, row, k);
    PutListing(a, sha256, folder, segments, files, content, k);
    ArchiveHasTree(b, sha256);
    assert DistinctIds(after) by { ListingIds(b, folder, after); }
    ReplacedIsActive(a, sha256, folder, files, segments);
    NewContent(a, sha256, folder, segments, replaced, content);
    assert after[k] == row && after[..k] == rest[..k];
    ShownFromFront(after, k, Join(segments));
  }

  lemma ListingIds(a: Archive, folder: Id, files: seq<File>)
    requires TreeOk(a.tree) && IsListing(a, folder, files)
    ensures DistinctIds(files)
  {
  }

  // Looking up the path a file is stored under gives that file, exactly if it is free at its turn.
  lemma ShownFromFront(files: seq<File>, k: nat, path: string)
    requires DistinctIds(files) && CleanPaths(files) && k < |files| && files[k].path == path
    ensures var found := FindFile(files, DisplayPaths(files), path);
      && (found == Some(files[k]) <==> path !in DisplayPaths(files[..k]).Values)
      && (found != Some(files[k]) ==> found.Some? && found.value in files[..k])
  {
    hide CleanPath, DisplayPaths, FindFile, TrimSlashes;
    CleanPathIsStable(path);
    ShownAsStoredIff(files, k);
    PrefixShows(files, k);
    FindInvertsDisplay(files, k);
    var shown, before := DisplayPaths(files), DisplayPaths(files[..k]);
    if path in before.Values {
      var id :| id in before && before[id] == path;
      DisplayPathsKeys(files[..k]);
      var j :| 0 <= j < k && files[..k][j].id == id;
      FindInvertsDisplay(files, j);
      assert files[j] == files[..k][j];
    } else {
      forall j | 0 <= j < k ensures shown[files[j].id] != path {
        assert before[files[j].id] in before.Values;
      }
    }
  }

  // The whole listing does not change what is shown of its first files.
  lemma {:induction false} PrefixShows(files: seq<File>, k: nat)
    requires DistinctIds(files) && k <= |files|
    ensures var front := DisplayPaths(files[..k]);
      forall i :: 0 <= i < k ==> files[i].id in front && files[i].id in DisplayPaths(files) && DisplayPaths(files)[files[i].id] == front[files[i].id]
    decreases |files|
  {
    hide DisplayPaths;
    if k == |files| {
      assert files[..k] == files;
      forall i | 0 <= i < k ensures files[i].id in DisplayPaths(files) { EachIsShown(files, i); }
    } else {
      var init := files[..|files| - 1];
      PrefixShows(init, k);
      assert init[..k] == files[..k];
      EarlierAsBefore(files);
      forall i | 0 <= i < k ensures files[i].id in DisplayPaths(init) && DisplayPaths(files)[files[i].id] == DisplayPaths(init)[files[i].id] {
        assert init[i] == files[i];
      }
    }
  }

  /** The new file is read back wherever the listing puts it, exactly if the other files, without the
      replaced one, show none under its path. */
  lemma PutIsReadBackAnywhereIff(a: Archive, sha256: Sha256, folder: Id, segments: seq<string>, files: seq<File>, content: string)
    requires ArchiveOk(a, sha256) && IsListing(a, folder, files) && segments != [] && SegmentsOk(segments)
    ensures var rest, row := Without(files, Replaced(files, Join(segments))), PutRow(a, sha256, segments, content);
      (forall k: nat :: k <= |rest| ==> Finds(Placed(rest, row, k), Join(segments), row)) <==> Join(segments) !in DisplayPaths(rest).Values
  {
    hide ArchiveOk, IsListing, Join, TreeOk, Replaced, SegmentsOk, PutFile, DisplayPaths, FindFile, Without, Get;
    var rest, row, path := Without(files, Replaced(files, Join(segments))), PutRow(a, sha256, segments, content), Join(segments);
    RestIds(a, sha256, folder, segments, files);
    PutIsReadBackIff(a, sha256, folder, segments, files, content, |rest|);
    assert rest[..|rest|] == rest;
    if path !in DisplayPaths(rest).Values {
      forall k: nat | k <= |rest| ensures Finds(Placed(rest, row, k), path, row) {
        PutIsReadBackIff(a, sha256, folder, segments, files, content, k);
        PrefixShowsLess(rest, k, path);
      }
    } else {
      assert !Finds(Placed(rest, row, |rest|), path, row);
    }
  }

  ghost predicate Finds(files: seq<File>, path: string, file: File) {
    FindFile(files, DisplayPaths(files), path) == Some(file)
  }

  lemma RestIds(a: Archive, sha256: Sha256, folder: Id, segments: seq<string>, files: seq<File>)
    requires ArchiveOk(a, sha256) && IsListing(a, folder, files)
    ensures DistinctIds(Without(files, Replaced(files, Join(segments))))
  {
    hide ArchiveOk, Listed, Join, TreeOk, Replaced;
    ArchiveHasTree(a, sha256);
    WithoutKeepsOthers(files, Replaced(files, Join(segments)));
  }

  lemma PrefixShowsLess(files: seq<File>, k: nat, path: string)
    requires DistinctIds(files) && k <= |files|
    ensures path in DisplayPaths(files[..k]).Values ==> path in DisplayPaths(files).Values
  {
    hide DisplayPaths;
    PrefixShows(files, k);
    var before := DisplayPaths(files[..k]);
    if path in before.Values {
      var id :| id in before && before[id] == path;
      DisplayPathsKeys(files[..k]);
      var j :| 0 <= j < k && files[..k][j].id == id;
      assert DisplayPaths(files)[files[j].id] in DisplayPaths(files).Values;
    }
  }

  lemma NewContent(a: Archive, sha256: Sha256, folder: Id, segments: seq<string>, replaced: Option<Id>, content: string)
    requires ArchiveOk(a, sha256) && segments != [] && (replaced.Some? ==> ActiveFile(a, replaced.value))
    ensures Content(PutFile(a, sha256, folder, segments, replaced, content), sha256, a.nextFile) == Some(content)
  {
    hide PutFile, ArchiveOk;
    PutFileContents(a, sha256, folder, segments, replaced, content, a.nextFile);
  }

  lemma OldContent(a: Archive, sha256: Sha256, folder: Id, segments: seq<string>, replaced: Option<Id>, content: string, f: Id)
    requires ArchiveOk(a, sha256) && segments != [] && (replaced.Some? ==> ActiveFile(a, replaced.value))
    requires ActiveFile(a, f) && replaced != Some(f)
    ensures Content(PutFile(a, sha256, folder, segments, replaced, content), sha256, f) == Content(a, sha256, f)
  {
    hide PutFile, ArchiveOk;
    PutFileContents(a, sha256, folder, segments, replaced, content, f);
  }

  lemma FileAtIsActive(a: Archive, sha256: Sha256, folder: Id, path: seq<string>, f: Id)
    requires ArchiveOk(a, sha256) && FileAt(a, folder, path, f)
    ensures InFolder(a, folder, f) && ActiveFile(a, f)
  {
    hide SegmentOk, RowsOk;
    var e: Id :| LeafAt(a, folder, path, f, e);
    assert LeafOk(a, e, f);
  }

  // A file is stored under one path only.
  lemma OnePath(a: Archive, sha256: Sha256, folder: Id, p: seq<string>, q: seq<string>, f: Id)
    requires ArchiveOk(a, sha256) && FileAt(a, folder, p, f) && FileAt(a, folder, q, f)
    ensures p == q
  {
    hide SegmentOk, RowsOk;
    var e: Id :| LeafAt(a, folder, p, f, e);
    var o: Id :| LeafAt(a, folder, q, f, o);
    assert OneLeaf(a, f, e, o);
  }

  // When the lookup before the transaction fails, the PUT goes on without replacing anything:
  // the stored paths then stay distinct exactly if nothing was stored at the path.
  lemma BlindPutKeepsDistinctIff(a: Archive, sha256: Sha256, folder: Id, segments: seq<string>, content: string)
    requires ArchiveOk(a, sha256) && DistinctPaths(a, folder) && segments != [] && SegmentsOk(segments)
    ensures var b := PutFile(a, sha256, folder, segments, None, content);
      TreeOk(b.tree) && (DistinctPaths(b, folder) <==> !exists f: Id :: FileAt(a, folder, segments, f))
  {
    hide ArchiveOk, FileAt, TreeOk, SegmentsOk, PutFile, DistinctPaths;
    ArchiveHasTree(a, sha256);
    var b := PutFile(a, sha256, folder, segments, None, content);
    PutFileEffect(a, sha256, folder, segments, None, content, folder, segments, a.nextFile);
    ArchiveHasTree(b, sha256);
    if f: Id :| FileAt(a, folder, segments, f) {
      PutFileEffect(a, sha256, folder, segments, None, content, folder, segments, f);
      FileAtIsOld(a, sha256, folder, segments, f);
      TwoAtOnePath(b, folder, segments, f, a.nextFile);
    } else {
      BlindPutOnFreePath(a, sha256, folder, segments, content);
    }
  }

  lemma FileAtIsOld(a: Archive, sha256: Sha256, folder: Id, path: seq<string>, f: Id)
    requires ArchiveOk(a, sha256) && FileAt(a, folder, path, f)
    ensures f < a.nextFile
  {
    FileAtIsActive(a, sha256, folder, path, f);
    assert FileOk(a, sha256, f);
  }

  lemma TwoAtOnePath(a: Archive, folder: Id, path: seq<string>, f: Id, g: Id)
    requires TreeOk(a.tree) && FileAt(a, folder, path, f) && FileAt(a, folder, path, g) && f != g
    ensures !DistinctPaths(a, folder)
  {
    assert !SamePath(a, folder, path, f, g);
  }

  lemma BlindPutOnFreePath(a: Archive, sha256: Sha256, folder: Id, segments: seq<string>, content: string)
    requires ArchiveOk(a, sha256) && DistinctPaths(a, folder) && segments != [] && SegmentsOk(segments)
    requires forall f: Id :: !FileAt(a, folder, segments, f)
    ensures var b := PutFile(a, sha256, folder, segments, None, content); TreeOk(b.tree) && DistinctPaths(b, folder)
  {
    hide ArchiveOk, FileAt, TreeOk, SegmentsOk, PutFile;
    ArchiveHasTree(a, sha256);
    var b := PutFile(a, sha256, folder, segments, None, content);
    PutFileEffect(a, sha256, folder, segments, None, content, folder, segments, 0);
    ArchiveHasTree(b, sha256);
    forall path, f: Id, g: Id ensures SamePath(b, folder, path, f, g) {
      PutFileEffect(a, sha256, folder, segments, None, content, folder, path, f);
      PutFileEffect(a, sha256, folder, segments, None, content, folder, path, g);
      assert SamePath(a, folder, path, f, g);
    }
  }
}
