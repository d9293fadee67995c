/** The archive handlers as they run: statements on the tables and writes to the object store. */
module ArchiveService {
  import opened Base
  import opened Text
  import opened EntryTree
  import opened DavNames
  import opened ArchiveModel
  import opened ArchiveReads
  import opened UploadPaths
  import opened PolicySeal
  import opened Backup
  import opened BackupChecks
  import opened BackupRoundTrip
  import Runs = ArchiveRuns

  // The entries of a folder down to depth n, each under its joined path.
  ghost predicate PathsTo(t: Tree, folder: Id, n: nat, paths: map<Id, string>)
    requires TreeOk(t)
  {
    && (forall e :: e in paths <==> e in t.entries && t.entries[e].folder == folder && |Path(t, e)| <= n)
    && (forall e :: e in paths ==> e in t.entries && paths[e] == Join(Path(t, e)))
  }

  /** The recursive query: start from the roots and add the children of the last round until
      there are none. It ends with every entry of the folder, each under its joined path. */
  method EntryPaths(t: Tree, folder: Id) returns (paths: map<Id, string>)
    requires TreeOk(t)
    ensures forall e :: e in paths <==> e in t.entries && t.entries[e].folder == folder
    ensures forall e :: e in paths ==> paths[e] == Join(Path(t, e))
  {
    hide *;
    ghost var n: nat := 0;
    var working := Roots(t, folder);
    paths := working;
    FirstRound(t, folder);
    while |working| > 0
      invariant working == Round(t, folder, n) && PathsTo(t, folder, n + 1, paths)
      decreases |t.entries.Keys - paths.Keys|, |working|
    {
      NextRound(t, folder, n, paths);
      working := Children(t, folder, working);
      paths := paths + working;
      n := n + 1;
    }
    NoMoreRounds(t, folder, n, paths);
  }

  lemma FirstRound(t: Tree, folder: Id)
    requires TreeOk(t)
    ensures Roots(t, folder) == Round(t, folder, 0) && PathsTo(t, folder, 1, Roots(t, folder))
  {
    RoundIs(t, folder, 0);
  }

  lemma NextRound(t: Tree, folder: Id, n: nat, paths: map<Id, string>)
    requires TreeOk(t) && PathsTo(t, folder, n + 1, paths)
    ensures var working := Children(t, folder, Round(t, folder, n));
      && working == Round(t, folder, n + 1) && PathsTo(t, folder, n + 2, paths + working)
      && |t.entries.Keys - (paths + working).Keys| == |t.entries.Keys - paths.Keys| - |working|
  {
    hide *;
    RoundStep(t, folder, n);
    var working := Round(t, folder, n + 1);
    RoundIs(t, folder, n + 1);
    PathsGrow(t, folder, n + 1, paths, working);
    assert working.Keys <= t.entries.Keys;
    NewRows(t.entries.Keys, paths, working);
  }

  lemma PathsGrow(t: Tree, folder: Id, n: nat, paths: map<Id, string>, working: map<Id, string>)
    requires TreeOk(t) && PathsTo(t, folder, n, paths)
    requires forall e :: e in working <==> e in t.entries && t.entries[e].folder == folder && |Path(t, e)| == n + 1
    requires forall e :: e in working ==> working[e] == Join(Path(t, e))
    ensures PathsTo(t, folder, n + 1, paths + working) && paths.Keys !! working.Keys
  {
    hide TreeOk, Path, Join;
  }

  lemma NewRows(all: set<Id>, paths: map<Id, string>, working: map<Id, string>)
    requires working.Keys <= all && paths.Keys !! working.Keys
    ensures |all - (paths + working).Keys| == |all - paths.Keys| - |working|
  {
    assert all - paths.Keys == (all - (paths + working).Keys) + working.Keys;
    assert |working| == |working.Keys|;
  }

  lemma RoundStep(t: Tree, folder: Id, n: nat)
    ensures Round(t, folder, n + 1) == Children(t, folder, Round(t, folder, n))
  {
    hide Children;
  }

  lemma RoundIs(t: Tree, folder: Id, n: nat)
    requires TreeOk(t)
    ensures forall e :: e in Round(t, folder, n) <==> e in t.entries && t.entries[e].folder == folder && |Path(t, e)| == n + 1
    ensures forall e :: e in Round(t, folder, n) ==> Round(t, folder, n)[e] == Join(Path(t, e))
    ensures forall e :: e in t.entries ==> Path(t, e) != []
  {
    hide SegmentOk, EntryOk, Siblings, Join, TreeOk, Path;
    assert forall e :: e in Round(t, folder, n) ==> e in t.entries;
    forall e | e in t.entries
      ensures e in Round(t, folder, n) <==> t.entries[e].folder == folder && |Path(t, e)| == n + 1
      ensures e in Round(t, folder, n) ==> Round(t, folder, n)[e] == Join(Path(t, e))
      ensures Path(t, e) != []
    {
      QueryListsPaths(t, folder, e, n);
      PathSegmentsOk(t, e);
    }
  }

  lemma NoMoreRounds(t: Tree, folder: Id, n: nat, paths: map<Id, string>)
    requires TreeOk(t) && |Round(t, folder, n)| == 0 && PathsTo(t, folder, n + 1, paths)
    ensures forall e :: e in paths <==> e in t.entries && t.entries[e].folder == folder
    ensures forall e :: e in paths ==> paths[e] == Join(Path(t, e))
  {
    hide SegmentOk, EntryOk, Siblings, Join, TreeOk, Path, Round;
    RoundIs(t, folder, n);
    assert forall e :: e !in Round(t, folder, n).Keys;
    forall e | e in t.entries && t.entries[e].folder == folder ensures |Path(t, e)| <= n {
      if n < |Path(t, e)| {
        var p := LengthsHaveNoGaps(t, folder, e, n);
      }
    }
  }

  class Store {
    const sha256: Sha256
    var entries: map<Id, Entry>
    var nextEntry: Id
    var files: map<Id, FileRow>
    var nextFile: Id
    var objects: map<Id, string>
    var nextObject: Id

    function View(): Archive
      reads this
    {
      Archive(Tree(entries, nextEntry), files, nextFile, objects, nextObject)
    }

    ghost predicate Valid()
      reads this
    {
      ArchiveOk(View(), sha256)
    }

    constructor (hash: Sha256)
      ensures Valid() && View() == NO_FILES && sha256 == hash
    {
      sha256 := hash;
      entries, nextEntry, files, nextFile, objects, nextObject := map[], 0, map[], 0, map[], 0;
      new;
      EmptyIsOk(hash);
    }

    // ---------------------------------------------------------- folder entries

    /** ensureFolderEntryPathTx: walk down, finding or inserting one directory per segment. */
    method EnsureFolderEntryPath(folder: Id, segments: seq<string>) returns (parentId: Option<Id>)
      requires TreeOk(View().tree) && SegmentsOk(segments)
      modifies `entries, `nextEntry
      ensures (View().tree, parentId) == EnsurePath(old(View()).tree, folder, segments)
      ensures View() == old(View()).(tree := View().tree)
    {
      hide SegmentOk, EntryOk, Siblings;
      parentId := None;
      for i := 0 to |segments|
        invariant TreeOk(View().tree) && ParentOk(View().tree, folder, parentId)
        invariant Walk(View().tree, folder, parentId, segments[i..]) == EnsurePath(old(View()).tree, folder, segments)
      {
        var segment := segments[i];
        assert segments[i..][0] == segment && segments[i..][1..] == segments[i + 1..];
        EnterReaches(View().tree, folder, parentId, segment);
        var rows := set id | id in entries && IsNamed(View().tree, folder, parentId, segment, id);
        LookupRows(View().tree, folder, parentId, segment);
        if rows != {} {
          var entryId :| entryId in rows;
          parentId := Some(entryId);
        } else {
          entries := entries[nextEntry := Entry(folder, parentId, Directory, segment)];
          parentId := Some(nextEntry);
          nextEntry := nextEntry + 1;
        }
      }
    }

    lemma LookupRows(t: Tree, folder: Id, parent: Option<Id>, name: string)
      requires TreeOk(t)
      ensures var r := Lookup(t, folder, parent, name);
        (set id | id in t.entries && IsNamed(t, folder, parent, name, id)) == if r.Some? then {r.value} else {}
    {
      hide SegmentOk, EntryOk, Siblings;
      var rows := set id | id in t.entries && IsNamed(t, folder, parent, name, id);
      forall id | id in rows ensures Lookup(t, folder, parent, name) == Some(id) {
        LookupIs(t, folder, parent, name, id);
      }
    }

    /** The files of a folder with their paths. */
    method FilesForFolder(folder: Id) returns (list: seq<File>)
      requires Valid()
      ensures IsListing(View(), folder, list)
    {
      hide SegmentOk, EntryOk, Siblings, TreeOk;
      var paths := EntryPaths(Tree(entries, nextEntry), folder);
      var rows := set e | e in paths && entries[e].kind.Leaf?;
      list := [];
      while rows != {}
        invariant forall e :: e in rows ==> e in paths && entries[e].kind.Leaf?
        invariant DistinctIds(list)
        invariant forall i :: 0 <= i < |list| ==> Listed(View(), folder, list[i])
        invariant forall e: Id, f: Id :: IsLeaf(View(), e, f) && entries[e].folder == folder ==> (e in rows <==> !HasId(list, f))
      {
        var e :| e in rows;
        var f := entries[e].kind.file;
        assert IsLeaf(View(), e, f) && LeafOk(View(), e, f);
        var file := File(f, paths[e], files[f].name, files[f].sha, files[f].size);
        assert IsRow(View(), folder, file, e);
        AppendRow(View(), folder, list, file);
        rows := rows - {e};
        forall o: Id, g: Id | IsLeaf(View(), o, g) && entries[o].folder == folder
          ensures o in rows <==> !HasId(list + [file], g)
        {
          assert OneLeaf(View(), g, o, e);
        }
        list := list + [file];
      }
      forall f: Id | InFolder(View(), folder, f) ensures HasId(list, f) {
        assert HasLeaf(View(), f);
        var e: Id :| IsLeaf(View(), e, f);
        assert LeafOk(View(), e, f);
      }
    }

    lemma AppendRow(a: Archive, folder: Id, list: seq<File>, file: File)
      requires DistinctIds(list) && !HasId(list, file.id)
      ensures DistinctIds(list + [file])
      ensures forall g: Id :: HasId(list + [file], g) <==> HasId(list, g) || g == file.id
    {
      var more := list + [file];
      assert more[|list|] == file;
      forall g: Id ensures HasId(more, g) <==> HasId(list, g) || g == file.id {
        if HasId(list, g) {
          var i :| 0 <= i < |list| && list[i].id == g;
          assert more[i].id == g;
        }
      }
      forall i, j | 0 <= i < j < |more| ensures more[i].id != more[j].id {
        if j == |list| {
          assert !(list[i].id == file.id);
        }
      }
    }

    // ----------------------------------------------------------------- changes

    /** deleteFileTx: the row is marked deleted and its entries go; the object stays for now. */
    method DeleteFileTx(f: Id) returns (blob: Option<Id>)
      modifies `entries, `files
      ensures blob == if old(ActiveFile(View(), f)) then Some(old(files)[f].blob) else None
      ensures View() == RemoveFile(old(View()), f).(objects := old(objects))
    {
      if !(f in files && files[f].active) {
        return None;
      }
      files := files[f := files[f].(active := false)];
      entries := map e | e in entries && entries[e].kind != Leaf(f) :: entries[e];
      return Some(files[f].blob);
    }

    method InsertRows(folder: Id, parentId: Option<Id>, name: string, content: string)
      modifies `entries, `nextEntry, `files, `nextFile
      ensures View() == InsertFile(old(View()), sha256, folder, parentId, name, content).(objects := old(objects), nextObject := old(nextObject))
    {
      files := files[nextFile := FileRow(folder, nextObject, name, sha256(content), |content|, true)];
      entries := entries[nextEntry := Entry(folder, parentId, Leaf(nextFile), name)];
      nextFile, nextEntry := nextFile + 1, nextEntry + 1;
    }

    /** handleUploadFile. Whatever fails, the tables and the object store end as they were. */
    method HandleUploadFile(folder: Id, folderActive: bool, relativePath: string, fileName: string, content: string,
                            stored: bool, committed: bool)
      returns (r: Result<Id, ArchiveError>)
      requires Valid()
      modifies `entries, `nextEntry, `files, `nextFile, `objects, `nextObject
      ensures Valid()
      ensures r.Err? ==> View() == old(View())
      ensures r.Ok? <==> folderActive && CleanPathSegments(relativePath, fileName).Ok? && stored && committed
      ensures r.Ok? ==> var segments := CleanPathSegments(relativePath, fileName).value;
        segments != [] && View() == AddFile(old(View()), sha256, folder, segments, content)
      ensures r.Ok? ==> View() == Runs.Step(old(View()), sha256, Runs.Attempt(Runs.Upload(folder, relativePath, fileName, content), true))
    {
      hide *;
      if !folderActive {
        return Err(FolderNotFound);
      }
      var uploadPath := CleanUploadPath(relativePath, fileName);
      if uploadPath.Err? {
        return Err(PathRejected);
      }
      r := StoreNewFile(folder, uploadPath.value, None, content, stored, committed);
      AddIsPut(old(View()), sha256, folder, uploadPath.value, content);
      Runs.UploadStep(old(View()), sha256, folder, relativePath, fileName, content);
    }

    /** handleAdminDAVPut. A failed lookup of the present file is logged and nothing is replaced. */
    method HandleAdminDavPut(folder: Id, parts: seq<string>, trailingSlash: bool, content: string,
                             lookedUp: bool, stored: bool, committed: bool)
      returns (r: Result<Id, ArchiveError>, replaced: Option<Id>, ghost before: seq<File>)
      requires Valid() && SegmentsOk(parts)
      modifies `entries, `nextEntry, `files, `nextFile, `objects, `nextObject
      ensures Valid()
      ensures r.Err? ==> View() == old(View())
      ensures r.Ok? <==> parts != [] && !trailingSlash && stored && committed
      ensures r.Ok? ==> replaced == if lookedUp then Replaced(before, Join(parts)) else None
      ensures r.Ok? && lookedUp ==> TreeOk(old(View()).tree) && IsListing(old(View()), folder, before)
      ensures r.Ok? ==> View() == PutFile(old(View()), sha256, folder, parts, replaced, content)
      ensures r.Ok? ==>
        View() == Runs.Step(old(View()), sha256, Runs.Attempt(Runs.Put(folder, parts, if lookedUp then Some(before) else None, content), true))
    {
      hide *;
      before := [];
      if parts == [] || trailingSlash {
        return Err(FilePathRequired), None, [];
      }
      replaced := None;
      IsValid();
      if lookedUp {
        var list := FilesForFolder(folder);
        before := list;
        var displayPaths := DavDisplayPathsOf(list, folder);
        var existing := DavFindFile(list, displayPaths, Join(parts));
        ReplacedIs(list, Join(parts));
        if existing.Some? {
          replaced := Some(existing.value.id);
          InListing(folder, list, existing.value);
        }
      }
      r := StoreNewFile(folder, parts, replaced, content, stored, committed);
      Runs.LookupLooks(old(View()), folder, before, lookedUp);
      Runs.PutStep(old(View()), sha256, folder, parts, if lookedUp then Some(before) else None, content);
    }

    method DavDisplayPathsOf(list: seq<File>, folder: Id) returns (paths: map<nat, string>)
      requires Valid() && IsListing(View(), folder, list)
      ensures paths == DisplayPaths(list) && forall i :: 0 <= i < |list| ==> list[i].id in paths
    {
      hide TreeOk, RowsOk, LeavesOk, Listed, DisplayPaths;
      paths := DavDisplayPaths(list);
      forall i | 0 <= i < |list| ensures list[i].id in paths {
        EachIsShown(list, i);
      }
    }

    lemma IsValid()
      requires Valid()
      ensures ArchiveOk(View(), sha256) && TreeOk(View().tree)
    {
    }

    lemma InListing(folder: Id, list: seq<File>, file: File)
      requires Valid() && IsListing(View(), folder, list) && file in list
      ensures ActiveFile(View(), file.id)
    {
      hide TreeOk, RowsOk, LeavesOk;
    }

    lemma ReplacedIs(list: seq<File>, requested: string)
      ensures Replaced(list, requested) ==
        match FindFile(list, DisplayPaths(list), requested) case None => None case Some(file) => Some(file.id)
    {
    }

    /** The statements of that transaction. */
    method StoreRows(folder: Id, segments: seq<string>, replaced: Option<Id>, content: string) returns (replacedObject: Option<Id>)
      requires TreeOk(View().tree) && segments != [] && SegmentsOk(segments)
      modifies `entries, `nextEntry, `files, `nextFile
      ensures View() == WithRows(old(View()), sha256, folder, segments, replaced, content)
      ensures replacedObject == if replaced.Some? && old(ActiveFile(View(), replaced.value)) then Some(old(files)[replaced.value].blob) else None
    {
      hide TreeOk, EnsurePath, SegmentOk, RemoveFile, InsertFile;
      var originalName := segments[|segments| - 1];
      var parentSegments := segments[..|segments| - 1];
      var parentEntryId := EnsureFolderEntryPath(folder, parentSegments);
      replacedObject := None;
      if replaced.Some? {
        replacedObject := DeleteFileTx(replaced.value);
      }
      InsertRows(folder, parentEntryId, originalName, content);
    }

    /** The part upload and PUT share: object first, then one transaction, then the old object. */
    method StoreNewFile(folder: Id, segments: seq<string>, replaced: Option<Id>, content: string, stored: bool, committed: bool)
      returns (r: Result<Id, ArchiveError>)
      requires Valid() && segments != [] && SegmentsOk(segments) && (replaced.Some? ==> ActiveFile(View(), replaced.value))
      modifies `entries, `nextEntry, `files, `nextFile, `objects, `nextObject
      ensures Valid()
      ensures r.Err? ==> View() == old(View())
      ensures r.Ok? <==> stored && committed
      ensures r.Ok? ==> r.value == old(nextFile)
      ensures r.Ok? ==> View() == PutFile(old(View()), sha256, folder, segments, replaced, content)
    {
      hide ArchiveOk, TreeOk, EnsurePath, PutFile, SegmentOk, RemoveFile, WithRows;
      ghost var a := View();
      ArchiveHasTree(a, sha256);
      var blob, fileId := nextObject, nextFile;
      objects := objects[blob := content];
      NewObject(a, sha256, content);
      StepsArePut(a, sha256, folder, segments, replaced, content);
      PutFileEffect(a, sha256, folder, segments, replaced, content, folder, segments, 0);
      if !stored {
        objects := objects - {blob};
        return Err(StoreFailed);
      }
      // What a rollback goes back to.
      var entries0, nextEntry0, files0, nextFile0 := entries, nextEntry, files, nextFile;
      var replacedObject := StoreRows(folder, segments, replaced, content);
      if !committed {
        entries, nextEntry, files, nextFile := entries0, nextEntry0, files0, nextFile0;
        objects := objects - {blob};
        return Err(TransactionFailed);
      }
      r := Ok(fileId);
      nextObject := nextObject + 1;
      if replacedObject.Some? {
        objects := objects - {replacedObject.value};
      }
    }

    /** handleAdminDAVMkcol */
    method HandleAdminDavMkcol(folder: Id, parts: seq<string>, committed: bool) returns (r: Result<Id, ArchiveError>)
      requires Valid() && SegmentsOk(parts)
      modifies `entries, `nextEntry
      ensures Valid()
      ensures r.Err? ==> View() == old(View())
      ensures r.Ok? <==> parts != [] && committed
      ensures r.Ok? ==> View() == MakePath(old(View()), folder, parts)
      ensures r.Ok? ==> View() == Runs.Step(old(View()), sha256, Runs.Attempt(Runs.Mkcol(folder, parts), true))
    {
      hide ArchiveOk, TreeOk, EnsurePath, SegmentOk;
      ghost var a := View();
      ArchiveHasTree(a, sha256);
      MakePathKeeps(a, sha256, folder, parts);
      if parts == [] {
        return Err(FilePathRequired);
      }
      var entries0, nextEntry0 := entries, nextEntry;
      var _ := EnsureFolderEntryPath(folder, parts);
      if !committed {
        entries, nextEntry := entries0, nextEntry0;
        return Err(TransactionFailed);
      }
      return Ok(folder);
    }

    /** handleDeleteFile */
    method HandleDeleteFile(f: Id, committed: bool) returns (r: Result<Id, ArchiveError>)
      requires Valid()
      modifies `entries, `files, `objects
      ensures Valid()
      ensures r.Err? ==> View() == old(View())
      ensures r.Ok? <==> old(ActiveFile(View(), f)) && committed
      ensures r.Ok? ==> View() == RemoveFile(old(View()), f)
      ensures r.Ok? ==> View() == Runs.Step(old(View()), sha256, Runs.Attempt(Runs.DeleteFile(f), true))
    {
      hide ArchiveOk;
      ghost var a := View();
      RemoveFileKeeps(a, sha256, f);
      var entries0, files0 := entries, files;
      var blob := DeleteFileTx(f);
      if blob.None? {
        return Err(FileNotFound);
      }
      if !committed {
        entries, files := entries0, files0;
        return Err(TransactionFailed);
      }
      objects := objects - {blob.value};
      return Ok(f);
    }

    /** handleDeleteFolder, as far as files go. */
    method HandleDeleteFolder(folder: Id, folderActive: bool, committed: bool) returns (r: Result<nat, ArchiveError>)
      requires Valid()
      modifies `entries, `files, `objects
      ensures Valid()
      ensures r.Err? ==> View() == old(View())
      ensures r.Ok? <==> folderActive && committed
      ensures r.Ok? ==> View() == RemoveFolder(old(View()), folder)
      ensures r.Ok? ==> View() == Runs.Step(old(View()), sha256, Runs.Attempt(Runs.DeleteFolder(folder), true))
      ensures r.Ok? ==> r.value == |set f | f in old(files) && InFolder(old(View()), folder, f)|
    {
      hide ArchiveOk;
      ghost var a := View();
      RemoveFolderKeeps(a, sha256, folder);
      if !folderActive {
        return Err(FolderNotFound);
      }
      var entries0, files0 := entries, files;
      var gone := set f | f in files && InFolder(View(), folder, f);
      var storageObjectIds := set f | f in gone :: files[f].blob;
      assert storageObjectIds == set f | f in files && InFolder(View(), folder, f) :: files[f].blob;
      entries := map e | e in entries && entries[e].folder != folder :: entries[e];
      files := map f | f in files :: if f in gone then files[f].(active := false) else files[f];
      if !committed {
        entries, files := entries0, files0;
        return Err(TransactionFailed);
      }
      objects := objects - storageObjectIds;
      assert View() == RemoveFolder(a, folder);
      return Ok(|gone|);
    }

    /** handleDAVRead and handleAdminDAVRead. In a directory with distinct stored paths the answer is
        what the entry tree has at the path. */
    method HandleDavRead(folder: Id, parts: seq<string>) returns (content: Option<string>)
      requires Valid() && SegmentsOk(parts)
      ensures TreeOk(View().tree)
      ensures parts == [] ==> content.None?
      ensures parts != [] ==> exists list :: IsListing(View(), folder, list) && content == Get(View(), sha256, list, Join(parts))
      ensures parts != [] && DistinctIn(View(), folder, Parent(parts)) ==>
        (content.Some? <==> exists f: Id :: FileAt(View(), folder, parts, f))
        && forall f: Id :: FileAt(View(), folder, parts, f) ==> content == Content(View(), sha256, f)
    {
      hide ArchiveOk, TreeOk, IsListing, DisplayPaths, FindFile, Join, FileAt, DistinctIn;
      ArchiveHasTree(View(), sha256);
      if parts == [] {
        return None;
      }
      var rows := FilesForFolder(folder);
      var displayPaths := DavDisplayPathsOf(rows, folder);
      var file := DavFindFile(rows, displayPaths, Join(parts));
      if DistinctIn(View(), folder, Parent(parts)) {
        GetFollowsTree(View(), sha256, folder, rows, parts);
      }
      if file.None? {
        return None;
      }
      return Content(View(), sha256, file.value.id);
    }

    // ----------------------------------------------------------------- backups

    /** The collections of a folder: the rows of the path query that are directories. */
    method FolderCollections(folder: Id) returns (collections: seq<string>)
      requires Valid()
      ensures TreeOk(View().tree) && IsCollectionList(View(), folder, collections)
    {
      hide *;
      IsValid();
      var t := Tree(entries, nextEntry);
      SameTree(t);
      var paths := EntryPaths(t, folder);
      var rows := DirectoriesAmong(t, paths);
      collections := [];
      CollectionsStart(t, folder, paths);
      while rows != {}
        invariant CollectionsSoFar(t, folder, rows, collections)
        decreases rows
      {
        var e :| e in rows;
        var collection := TrimSlashes(paths[e]);
        assert rows == rows - {e} + {e};
        rows := rows - {e};
        NextCollection(t, folder, paths, rows, e, collections);
        if collection != "" {
          collections := collections + [collection];
        }
      }
      CollectionsDone(View(), folder, collections);
    }

    lemma SameTree(t: Tree)
      requires t == Tree(entries, nextEntry)
      ensures t == View().tree
    {
    }

    /** handleExportFolderBackup. Stored contents always match their rows, so no file breaks it off. */
    method HandleExportFolderBackup(folder: Id, info: FolderInfo, encoded: Encoded)
      returns (zip: Zip)
      requires Valid()
      ensures TreeOk(View().tree)
      ensures exists list, named :: IsListing(View(), folder, list) && IsCollectionList(View(), folder, named)
                                    && zip == Export(View(), sha256, encoded, info, list, named)
    {
      hide *;
      IsValid();
      var rows := FilesForFolder(folder);
      var collections := FolderCollections(folder);
      var displayPaths := DavDisplayPathsOf(rows, folder);
      NoEntries(View(), sha256, collections, rows, displayPaths);
      WholePrefix(collections, rows, displayPaths);
      var items: seq<BackupFile> := [];
      for i := 0 to |rows|
        invariant items == FileItems(rows[..i], displayPaths)
      {
        NextItem(rows, displayPaths, i);
        items := items + [FileItem(rows[i], displayPaths)];
      }
      var zipEntries: seq<ZipEntry> := [];
      for i := 0 to |collections|
        invariant zipEntries == CollectionEntries(collections[..i])
      {
        var collection := TrimSlashes(collections[i]);
        NextCollectionEntry(collections, i);
        if collection == "" {
          continue;
        }
        zipEntries := zipEntries + [ZipEntry(CONTENT + collection + "/", "")];
      }
      for i := 0 to |rows|
        invariant |items| == |rows|
        invariant zipEntries == CollectionEntries(collections) + FileEntries(View(), sha256, rows[..i], displayPaths)
      {
        ContentOfListed(View(), sha256, folder, rows, i);
        NextFileEntry(View(), sha256, collections, rows, displayPaths, i);
        ItemIs(rows, displayPaths, items, i);
        zipEntries := zipEntries + [ZipEntry(items[i].archivePath, Content(View(), sha256, rows[i].id).value)];
      }
      var manifest := Manifest(FORMAT, VERSION, info, collections, items);
      zip := Zip(Some(ManifestEntry(manifest, encoded(manifest))), zipEntries);
      IsExport(View(), sha256, encoded, info, rows, collections);
    }

    /** importFolderBackup, into the new folder. On any error the transaction is rolled back and the
        objects created so far are removed. */
    method ImportFolderBackup(folder: Id, zip: Zip, committed: bool) returns (r: Result<FolderInfo, ImportError>)
      requires Valid()
      modifies `entries, `nextEntry, `files, `nextFile, `objects, `nextObject
      ensures Valid()
      ensures r.Ok? <==> committed && Import(old(View()), sha256, folder, zip).Ok?
      ensures r.Ok? <==> committed && ZipTaken(sha256, zip)
      ensures r.Ok? ==> Import(old(View()), sha256, folder, zip) == Ok((View(), r.value))
      ensures r.Ok? ==> View() == Runs.Step(old(View()), sha256, Runs.Attempt(Runs.ImportBackup(folder, zip), true))
      ensures r.Err? ==> View() == old(View())
    {
      hide ArchiveOk, NormalizeFolderPolicy, PolicyOk, RestoredFolderName, Backup.ImportRows, ByName, ZipTaken;
      ImportsIff(View(), sha256, folder, zip);
      if zip.manifest.None? {
        return Err(ManifestMissing);
      }
      if zip.manifest.value.size > MANIFEST_LIMIT {
        return Err(ManifestInvalid);
      }
      var manifest := zip.manifest.value.manifest;
      if manifest.format != FORMAT || manifest.version != VERSION {
        return Err(FormatUnsupported);
      }
      var folderName := RestoredFolderName(manifest.folder.name);
      if folderName == "" {
        return Err(FolderNameInvalid);
      }
      var powPolicy := NormalizeFolderPolicy(manifest.folder.policy, NO_POLICY);
      if !PolicyOk(powPolicy) {
        return Err(PolicyInvalid);
      }
      var entries0, nextEntry0, files0, nextFile0, nextObject0 := entries, nextEntry, files, nextFile, nextObject;
      var failure := ImportRows(folder, manifest, ByName(zip.entries));
      if failure.None? && committed {
        return Ok(FolderInfo(folderName, manifest.folder.description, powPolicy));
      }
      // Roll back, and remove the objects created meanwhile.
      objects := map o | o in objects && o < nextObject0 :: objects[o];
      entries, nextEntry, files, nextFile, nextObject := entries0, nextEntry0, files0, nextFile0, nextObject0;
      assert View() == old(View());
      return Err(failure.GetOr(ImportAborted));
    }

    /** The collections, then the files, one after the other until one is refused. */
    method ImportRows(folder: Id, manifest: Manifest, filesByName: map<string, string>) returns (failure: Option<ImportError>)
      requires Valid()
      modifies `entries, `nextEntry, `files, `nextFile, `objects, `nextObject
      ensures Valid()
      ensures OldObjectsKept(old(View()), View())
      ensures failure.None? <==> Backup.ImportRows(old(View()), sha256, folder, manifest, filesByName).Ok?
      ensures failure.None? ==> Backup.ImportRows(old(View()), sha256, folder, manifest, filesByName) == Ok(View())
      ensures failure.Some? ==> Backup.ImportRows(old(View()), sha256, folder, manifest, filesByName) == Err(failure.value)
    {
      hide *;
      ghost var a := View();
      IsValid();
      Kept(a, sha256);
      for i := 0 to |manifest.collections|
        invariant ArchiveOk(View(), sha256) && OldObjectsKept(a, View())
        invariant ImportCollections(a, folder, manifest.collections) == ImportCollections(View(), folder, manifest.collections[i..])
      {
        FirstCollection(View(), folder, manifest.collections, i);
        var segments := CollectionSegments(manifest.collections[i]);
        if segments.Err? {
          IsValidHere();
          RowsRefused(a, sha256, folder, manifest, filesByName);
          return Some(CollectionPathInvalid);
        }
        CollectionIsClean(manifest.collections[i]);
        MakePathKeeps(View(), sha256, folder, segments.value);
        ArchiveHasTree(View(), sha256);
        SameTree(Tree(entries, nextEntry));
        ghost var before := View();
        var _ := EnsureFolderEntryPath(folder, segments.value);
        IsMakePath(before, View(), folder, segments.value);
        MakePathKeepsObjects(before, folder, segments.value, a);
      }
      NoCollectionsLeft(View(), folder, manifest.collections);
      ghost var b := View();
      RowsAfter(a, b, sha256, folder, manifest, filesByName);
      for i := 0 to |manifest.files|
        invariant ArchiveOk(View(), sha256) && OldObjectsKept(a, View())
        invariant ImportFiles(b, sha256, folder, filesByName, manifest.files) ==
          ImportFiles(View(), sha256, folder, filesByName, manifest.files[i..])
      {
        FirstFile(View(), sha256, folder, filesByName, manifest.files, i);
        var item := CheckItem(sha256, filesByName, manifest.files[i]);
        if item.Err? {
          IsValidHere();
          return Some(item.error);
        }
        ItemSegments(sha256, filesByName, manifest.files[i]);
        ghost var before := View();
        IsValidHere();
        var _ := StoreNewFile(folder, item.value.0, None, item.value.1, true, true);
        AddIsPut(before, sha256, folder, item.value.0, item.value.1);
        IsValid();
        AddKeepsObjects(before, sha256, folder, item.value.0, item.value.1, a);
      }
      NoFilesLeft(View(), sha256, folder, filesByName, manifest.files);
      IsValidHere();
      return None;
    }

    lemma IsValidHere()
      requires ArchiveOk(View(), sha256)
      ensures Valid()
    {
    }
  }

  lemma NewObject(a: Archive, sha256: Sha256, content: string)
    requires ArchiveOk(a, sha256)
    ensures a.nextObject !in a.objects && a.objects[a.nextObject := content] - {a.nextObject} == a.objects
    ensures forall f: Id :: ActiveFile(a, f) ==> a.files[f].blob != a.nextObject
  {
    hide TreeOk, LeavesOk;
    assert ObjectUsed(a, a.nextObject);
    forall f: Id | ActiveFile(a, f) ensures a.files[f].blob != a.nextObject {
      assert FileOk(a, sha256, f);
    }
  }

  // The rows of a stored file, its object and the replaced one's left as they are.
  ghost function WithRows(a: Archive, sha256: Sha256, folder: Id, segments: seq<string>, replaced: Option<Id>, content: string): Archive
    requires segments != []
  {
    var n := |segments| - 1;
    var (t, parent) := EnsurePath(a.tree, folder, segments[..n]);
    var b := a.(tree := t);
    var c := if replaced.None? then b else RemoveFile(b, replaced.value).(objects := b.objects);
    InsertFile(c, sha256, folder, parent, segments[n], content).(objects := c.objects, nextObject := c.nextObject)
  }

  // The steps of the method, one after the other, come to the transaction of the model.
  lemma StepsArePut(a: Archive, sha256: Sha256, folder: Id, segments: seq<string>, replaced: Option<Id>, content: string)
    requires ArchiveOk(a, sha256) && segments != [] && (replaced.Some? ==> ActiveFile(a, replaced.value))
    ensures var stored := a.(objects := a.objects[a.nextObject := content]);
      var d := WithRows(stored, sha256, folder, segments, replaced, content);
      && d.objects == stored.objects && d.nextObject == a.nextObject
      && PutFile(a, sha256, folder, segments, replaced, content) ==
           d.(nextObject := a.nextObject + 1,
              objects := if replaced.None? then d.objects else d.objects - {a.files[replaced.value].blob})
  {
    hide EnsurePath, ArchiveOk;
    NewObject(a, sha256, content);
    var n := |segments| - 1;
    var t := EnsurePath(a.tree, folder, segments[..n]).0;
    if replaced.Some? {
      var gone := a.files[replaced.value].blob;
      assert (a.objects - {gone})[a.nextObject := content] == a.objects[a.nextObject := content] - {gone};
    }
  }

  // -------------------------------------------------------- steps of a backup

  function DirectoriesAmong(t: Tree, paths: map<Id, string>): set<Id> {
    set e | e in paths && e in t.entries && t.entries[e].kind.Directory?
  }

  // What has been collected, and what is still to come.
  ghost predicate CollectionsSoFar(t: Tree, folder: Id, rows: set<Id>, collections: seq<string>)
    requires TreeOk(t)
  {
    && (forall i :: 0 <= i < |collections| ==> CleanPath(collections[i]) && HasDir(t, folder, Split(collections[i])))
    && (forall e: Id :: IsDirectory(t, e, folder) ==> e in rows || Join(Path(t, e)) in collections)
  }

  lemma CollectionsStart(t: Tree, folder: Id, paths: map<Id, string>)
    requires TreeOk(t) && forall e :: e in paths <==> e in t.entries && t.entries[e].folder == folder
    ensures CollectionsSoFar(t, folder, DirectoriesAmong(t, paths), [])
    ensures forall e :: e in DirectoriesAmong(t, paths) ==> e in paths && IsDirectory(t, e, folder)
  {
  }

  lemma NextCollection(t: Tree, folder: Id, paths: map<Id, string>, rows: set<Id>, e: Id, collections: seq<string>)
    requires TreeOk(t) && e in paths && IsDirectory(t, e, folder) && paths[e] == Join(Path(t, e))
    requires CollectionsSoFar(t, folder, rows + {e}, collections)
    ensures TrimSlashes(paths[e]) != "" && CollectionsSoFar(t, folder, rows, collections + [TrimSlashes(paths[e])])
  {
    hide SegmentOk, EntryOk, Siblings, TreeOk, Path, Join, Split;
    var path := Path(t, e);
    PathSegmentsOk(t, e);
    JoinedIsClean(path);
    CleanPathIsStable(Join(path));
    assert DirAt(t, folder, path, e);
    var more := collections + [Join(path)];
    assert more[|collections|] == Join(path);
    forall o: Id | IsDirectory(t, o, folder) ensures o in rows || Join(Path(t, o)) in more {
      assert o in rows + {e} || Join(Path(t, o)) in collections;
    }
  }

  lemma CollectionsDone(a: Archive, folder: Id, collections: seq<string>)
    requires TreeOk(a.tree) && CollectionsSoFar(a.tree, folder, {}, collections)
    ensures IsCollectionList(a, folder, collections)
  {
    hide TreeOk, Path, Join, Split, CleanPath;
    forall path | HasDir(a.tree, folder, path) ensures Join(path) in collections {
      var d: Id :| DirAt(a.tree, folder, path, d);
    }
  }

  lemma NextItem(rows: seq<File>, shown: map<nat, string>, i: nat)
    requires i < |rows|
    ensures FileItems(rows[..i + 1], shown) == FileItems(rows[..i], shown) + [FileItem(rows[i], shown)]
  {
    hide FileItem;
  }

  lemma NoEntries(a: Archive, sha256: Sha256, collections: seq<string>, rows: seq<File>, shown: map<nat, string>)
    ensures CollectionEntries(collections[..0]) == [] && FileItems(rows[..0], shown) == []
    ensures CollectionEntries(collections) + FileEntries(a, sha256, rows[..0], shown) == CollectionEntries(collections)
  {
  }

  lemma NextCollectionEntry(collections: seq<string>, i: nat)
    requires i < |collections|
    ensures var collection := TrimSlashes(collections[i]);
      CollectionEntries(collections[..i + 1]) ==
        CollectionEntries(collections[..i]) + if collection == "" then [] else [ZipEntry(CONTENT + collection + "/", "")]
  {
    hide TrimSlashes;
    assert collections[..i + 1][..i] == collections[..i];
  }

  lemma WholePrefix(collections: seq<string>, rows: seq<File>, shown: map<nat, string>)
    ensures collections[..|collections|] == collections && rows[..|rows|] == rows && |FileItems(rows, shown)| == |rows|
  {
  }

  lemma NextFileEntry(a: Archive, sha256: Sha256, collections: seq<string>, rows: seq<File>, shown: map<nat, string>, i: nat)
    requires i < |rows| && Content(a, sha256, rows[i].id).Some?
    ensures CollectionEntries(collections) + FileEntries(a, sha256, rows[..i + 1], shown) ==
      CollectionEntries(collections) + FileEntries(a, sha256, rows[..i], shown)
        + [ZipEntry(FileItem(rows[i], shown).archivePath, Content(a, sha256, rows[i].id).value)]
  {
    hide FileItem, Content, CollectionEntries;
    assert FileEntries(a, sha256, rows[..i + 1], shown) ==
      FileEntries(a, sha256, rows[..i], shown) + [ZipEntry(FileItem(rows[i], shown).archivePath, Content(a, sha256, rows[i].id).value)];
  }

  lemma ItemIs(rows: seq<File>, shown: map<nat, string>, items: seq<BackupFile>, i: nat)
    requires items == FileItems(rows, shown) && i < |rows|
    ensures items[i] == FileItem(rows[i], shown)
  {
    hide FileItem;
  }

  lemma IsExport(a: Archive, sha256: Sha256, encoded: Encoded, info: FolderInfo, rows: seq<File>, collections: seq<string>)
    ensures var shown := DisplayPaths(rows);
      var manifest := Manifest(FORMAT, VERSION, info, collections, FileItems(rows, shown));
      Export(a, sha256, encoded, info, rows, collections) ==
        Zip(Some(ManifestEntry(manifest, encoded(manifest))), CollectionEntries(collections) + FileEntries(a, sha256, rows, shown))
  {
    hide DisplayPaths, FileItems, FileEntries, CollectionEntries;
  }

  // Objects there before are still there; the others are numbered later.
  predicate OldObjectsKept(before: Archive, now: Archive) {
    before.nextObject <= now.nextObject && (map o | o in now.objects && o < before.nextObject :: now.objects[o]) == before.objects
  }

  lemma Kept(a: Archive, sha256: Sha256)
    requires ArchiveOk(a, sha256)
    ensures OldObjectsKept(a, a)
  {
    hide TreeOk, LeavesOk;
    forall o | o in a.objects ensures o < a.nextObject {
      assert ObjectUsed(a, o);
      var f: Id :| Stores(a, f, o);
      assert FileOk(a, sha256, f);
    }
  }

  lemma AddKeepsObjects(a: Archive, sha256: Sha256, folder: Id, segments: seq<string>, content: string, before: Archive)
    requires segments != [] && OldObjectsKept(before, a)
    ensures OldObjectsKept(before, AddFile(a, sha256, folder, segments, content))
  {
    hide EnsurePath;
  }

  lemma MakePathKeepsObjects(a: Archive, folder: Id, segments: seq<string>, before: Archive)
    requires OldObjectsKept(before, a)
    ensures OldObjectsKept(before, MakePath(a, folder, segments))
  {
    hide EnsurePath;
  }

  lemma IsMakePath(a: Archive, b: Archive, folder: Id, segments: seq<string>)
    requires b == a.(tree := EnsurePath(a.tree, folder, segments).0)
    ensures b == MakePath(a, folder, segments)
  {
  }

  lemma FirstCollection(a: Archive, folder: Id, collections: seq<string>, i: nat)
    requires i < |collections|
    ensures var r := CollectionSegments(collections[i]);
      ImportCollections(a, folder, collections[i..]) ==
        if r.Err? then Err(CollectionPathInvalid) else ImportCollections(MakePath(a, folder, r.value), folder, collections[i + 1..])
  {
    hide CollectionSegments, MakePath;
    assert collections[i..][0] == collections[i] && collections[i..][1..] == collections[i + 1..];
  }

  lemma NoCollectionsLeft(a: Archive, folder: Id, collections: seq<string>)
    ensures ImportCollections(a, folder, collections[|collections|..]) == Ok(a)
  {
  }

  lemma FirstFile(a: Archive, sha256: Sha256, folder: Id, byName: map<string, string>, items: seq<BackupFile>, i: nat)
    requires i < |items|
    ensures var r := CheckItem(sha256, byName, items[i]);
      ImportFiles(a, sha256, folder, byName, items[i..]) ==
        if r.Err? then Err(r.error) else if r.value.0 == [] then Err(FilePathInvalid)
        else ImportFiles(AddFile(a, sha256, folder, r.value.0, r.value.1), sha256, folder, byName, items[i + 1..])
  {
    hide CheckItem, AddFile;
    assert items[i..][0] == items[i] && items[i..][1..] == items[i + 1..];
  }

  lemma RowsAfter(a: Archive, b: Archive, sha256: Sha256, folder: Id, m: Manifest, byName: map<string, string>)
    requires ImportCollections(a, folder, m.collections) == Ok(b)
    ensures Backup.ImportRows(a, sha256, folder, m, byName) == ImportFiles(b, sha256, folder, byName, m.files)
  {
    hide ImportCollections, ImportFiles;
  }

  lemma RowsRefused(a: Archive, sha256: Sha256, folder: Id, m: Manifest, byName: map<string, string>)
    requires ImportCollections(a, folder, m.collections) == Err(CollectionPathInvalid)
    ensures Backup.ImportRows(a, sha256, folder, m, byName) == Err(CollectionPathInvalid)
  {
    hide ImportCollections, ImportFiles;
  }

  lemma NoFilesLeft(a: Archive, sha256: Sha256, folder: Id, byName: map<string, string>, items: seq<BackupFile>)
    ensures ImportFiles(a, sha256, folder, byName, items[|items|..]) == Ok(a)
  {
  }

  datatype ArchiveError = FolderNotFound | PathRejected | FilePathRequired | StoreFailed | TransactionFailed | FileNotFound
}
