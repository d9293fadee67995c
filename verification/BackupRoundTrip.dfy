/** Export, import, export again: nothing but the folder's name, the times and the recorded names
    of copies differ. */
module BackupRoundTrip {
  import opened Base
  import opened Text
  import opened EntryTree
  import opened DavNames
  import opened ArchiveModel
  import opened ArchiveReads
  import opened UploadPaths
  import opened PolicySeal
  import opened Backup

  // ------------------------------------------------------------ what is exported

  ghost predicate IsCollection(a: Archive, folder: Id, c: string)
    requires TreeOk(a.tree)
  {
    CleanPath(c) && HasDir(a.tree, folder, Split(c))
  }

  // The directories of a folder, in some order.
  ghost predicate IsCollectionList(a: Archive, folder: Id, collections: seq<string>)
    requires TreeOk(a.tree)
  {
    && (forall i :: 0 <= i < |collections| ==> IsCollection(a, folder, collections[i]))
    && (forall path :: HasDir(a.tree, folder, path) ==> Join(path) in collections)
  }

  ghost function Shown(files: seq<File>, i: nat): string
    requires i < |files|
  {
    var shown := DisplayPaths(files);
    if files[i].id in shown then shown[files[i].id] else ""
  }

  // The limits an import puts on paths.
  predicate PathFits(path: string) {
    |path| <= MAX_UPLOAD_PATH_LENGTH && |Split(path)| <= MAX_UPLOAD_PATH_SEGMENTS
  }

  predicate CollectionFits(path: string) {
    |path| + 6 <= MAX_UPLOAD_PATH_LENGTH && |Split(path)| + 1 <= MAX_UPLOAD_PATH_SEGMENTS
  }

  ghost predicate FileFits(files: seq<File>, i: nat) {
    i < |files| ==> PathFits(Shown(files, i))
  }

  ghost predicate BackupFits(files: seq<File>, collections: seq<string>) {
    (forall i: nat :: FileFits(files, i)) && (forall i :: 0 <= i < |collections| ==> CollectionFits(collections[i]))
  }

  ghost function Adds(a: Archive, sha256: Sha256, files: seq<File>): seq<(seq<string>, string)> {
    seq(|files|, i requires 0 <= i < |files| => (Split(Shown(files, i)), Content(a, sha256, files[i].id).GetOr("")))
  }

  function Paths(collections: seq<string>): seq<seq<string>> {
    seq(|collections|, i requires 0 <= i < |collections| => Split(collections[i]))
  }

  lemma ShownIsClean(a: Archive, sha256: Sha256, folder: Id, files: seq<File>, i: nat)
    requires ArchiveOk(a, sha256) && IsListing(a, folder, files) && i < |files|
    ensures files[i].id in DisplayPaths(files) && DisplayPaths(files)[files[i].id] == Shown(files, i)
    ensures CleanPath(Shown(files, i)) && Split(Shown(files, i)) != [] && Join(Split(Shown(files, i))) == Shown(files, i)
    ensures FileItem(files[i], DisplayPaths(files)) ==
      BackupFile(Shown(files, i), files[i].name, CONTENT + Shown(files, i), files[i].size, files[i].sha)
  {
    hide ArchiveOk, TreeOk, IsListing, CleanPath, DisplayPaths, FileItem, Split, Join;
    ShownPaths(a, sha256, folder, files, i);
    JoinSplit(Shown(files, i));
  }

  lemma ShownIsUnique(a: Archive, sha256: Sha256, folder: Id, files: seq<File>, i: nat, j: nat)
    requires ArchiveOk(a, sha256) && IsListing(a, folder, files) && i < |files| && j < |files| && i != j
    ensures Shown(files, i) != Shown(files, j)
  {
    hide ArchiveOk, TreeOk, Listed, DisplayPaths;
    ArchiveHasTree(a, sha256);
    DisplayPathsAreDistinct(files, if i < j then i else j, if i < j then j else i);
  }

  // A display path differs from the stored one in its last segment only.
  lemma ShownBeside(a: Archive, sha256: Sha256, folder: Id, files: seq<File>, i: nat) returns (init: seq<string>, last: string, name: string)
    requires ArchiveOk(a, sha256) && IsListing(a, folder, files) && i < |files|
    ensures CleanPath(files[i].path) && Split(files[i].path) == init + [last] && Split(Shown(files, i)) == init + [name]
  {
    hide ArchiveOk, TreeOk, Listed, DisplayPaths, SlotOf, Candidate, Split, Join, SegmentOk, CopyName, CleanPath;
    ArchiveHasTree(a, sha256);
    ListingIsClean(a, sha256, folder, files);
    init, last := CutPath(files[i].path);
    var index := DisplayPathIsCandidate(files, i);
    CleanSlot(files[i], init, last);
    CleanCandidate(init, last, index);
    name := CopyName(last, index);
    assert SegmentsOk(init + [name]);
    JoinedIsClean(init + [name]);
  }

  // ---------------------------------------------------------------- the checks

  lemma FileEntryIsLast(a: Archive, sha256: Sha256, folder: Id, files: seq<File>, collections: seq<string>, i: nat)
    requires ArchiveOk(a, sha256) && IsListing(a, folder, files) && i < |files|
    ensures var entries := CollectionEntries(collections) + FileEntries(a, sha256, files, DisplayPaths(files));
      && LastNamed(entries, |CollectionEntries(collections)| + i)
      && entries[|CollectionEntries(collections)| + i] == ZipEntry(CONTENT + Shown(files, i), Content(a, sha256, files[i].id).GetOr(""))
  {
    hide ArchiveOk, TreeOk, IsListing, DisplayPaths, CollectionEntries, FileEntries, Content, Shown;
    var c := |CollectionEntries(collections)|;
    var more := FileEntries(a, sha256, files, DisplayPaths(files));
    var entries := CollectionEntries(collections) + more;
    FileEntryIs(a, sha256, folder, files, i);
    forall j | c + i < j < |entries| ensures entries[j].name != entries[c + i].name {
      FileEntryIs(a, sha256, folder, files, j - c);
      assert entries[j] == more[j - c];
      ShownIsUnique(a, sha256, folder, files, i, j - c);
      OtherContent(Shown(files, i), Shown(files, j - c));
    }
  }

  lemma FileEntryIs(a: Archive, sha256: Sha256, folder: Id, files: seq<File>, i: nat)
    requires ArchiveOk(a, sha256) && IsListing(a, folder, files) && i < |files|
    ensures var entries := FileEntries(a, sha256, files, DisplayPaths(files));
      |entries| == |files| && entries[i] == ZipEntry(CONTENT + Shown(files, i), Content(a, sha256, files[i].id).GetOr(""))
  {
    hide ArchiveOk, TreeOk, IsListing, DisplayPaths, FileItem, Content, Shown;
    ShownIsClean(a, sha256, folder, files, i);
  }

  lemma OtherContent(x: string, y: string)
    requires x != y
    ensures CONTENT + x != CONTENT + y
  {
    assert (CONTENT + x)[|CONTENT|..] == x && (CONTENT + y)[|CONTENT|..] == y;
  }

  lemma ArchivePathPasses(path: string)
    requires CleanPath(path)
    ensures TrimSpace(CONTENT + path) != "" && CONTENT <= CONTENT + path && !IsDirName(CONTENT + path)
  {
    hide TrimSpace;
    JoinSplit(path);
    CleanPathEnds(Split(path));
    var s := CONTENT + path;
    assert s[|s| - 1] == path[|path| - 1];
    assert "" + path == path;
    TrailingStays("", path, CONTENT);
    assert LeadingSpace(s) == 0 by { assert s[0] == 'c'; }
    assert Trimmed(s);
  }

  lemma ItemPassesIff(a: Archive, sha256: Sha256, folder: Id, files: seq<File>, collections: seq<string>, i: nat)
    requires ArchiveOk(a, sha256) && IsListing(a, folder, files) && i < |files|
    ensures var shown := DisplayPaths(files);
      var byName := ByName(CollectionEntries(collections) + FileEntries(a, sha256, files, shown));
      var item := FileItem(files[i], shown);
      CheckItem(sha256, byName, item) == if FileFits(files, i) then Ok(Adds(a, sha256, files)[i]) else Err(FilePathInvalid)
  {
    hide ArchiveOk, TreeOk, IsListing, DisplayPaths, CollectionEntries, FileEntries, FileItem, Content, Shown, ByName, CleanPath,
         Split, Join, CleanPathSegments, TrimSpace, IsDirName, LastNamed;
    var path := Shown(files, i);
    var entries := CollectionEntries(collections) + FileEntries(a, sha256, files, DisplayPaths(files));
    ShownIsClean(a, sha256, folder, files, i);
    FileEntryIsLast(a, sha256, folder, files, collections, i);
    ByNameFinds(entries, |CollectionEntries(collections)| + i);
    ArchivePathPasses(path);
    CleanSplit(path);
    CleanPathIsTaken(Split(path), files[i].name);
    ContentOfListed(a, sha256, folder, files, i);
  }

  lemma CleanSplit(path: string)
    requires CleanPath(path)
    ensures SegmentsOk(Split(path)) && Split(path) != []
  {
  }

  lemma CollectionPassesIff(a: Archive, folder: Id, c: string)
    requires TreeOk(a.tree) && IsCollection(a, folder, c)
    ensures CollectionSegments(c) == if CollectionFits(c) then Ok(Split(c)) else Err(InvalidUploadPath)
  {
    hide Split, Join, SegmentOk, CollectionSegments, HasDir;
    CleanSplit(c);
    JoinSplit(c);
    CleanCollectionIsTaken(Split(c));
  }

  lemma AddsAreOk(a: Archive, sha256: Sha256, folder: Id, files: seq<File>)
    requires ArchiveOk(a, sha256) && IsListing(a, folder, files)
    ensures AddsOk(Adds(a, sha256, files))
  {
    hide ArchiveOk, TreeOk, IsListing, Shown, Split, Content, SegmentsOk, CleanPath;
    forall i | 0 <= i < |files| ensures Adds(a, sha256, files)[i].0 != [] && SegmentsOk(Adds(a, sha256, files)[i].0) {
      ShownIsClean(a, sha256, folder, files, i);
      CleanSplit(Shown(files, i));
    }
  }

  lemma PathsAreOk(a: Archive, folder: Id, collections: seq<string>)
    requires TreeOk(a.tree) && IsCollectionList(a, folder, collections)
    ensures AllSegmentsOk(Paths(collections))
  {
    hide TreeOk, Split, HasDir, SegmentsOk, CleanPath;
    forall i | 0 <= i < |collections| ensures SegmentsOk(Paths(collections)[i]) {
      assert IsCollection(a, folder, collections[i]);
      CleanSplit(collections[i]);
    }
  }

  // ------------------------------------------------------- when it is accepted

  ghost function Restored(b: Archive, sha256: Sha256, new_: Id, a: Archive, files: seq<File>, collections: seq<string>): Archive
    requires AddsOk(Adds(a, sha256, files))
  {
    AddAll(MakeAll(b, new_, Paths(collections)), sha256, new_, Adds(a, sha256, files))
  }

  // What the export writes as its manifest.
  ghost function ManifestFor(info: FolderInfo, files: seq<File>, collections: seq<string>): Manifest {
    ManifestOf(info, collections, files, DisplayPaths(files))
  }

  // An exported folder can be imported exactly if its manifest keeps to the limit of the import, its
  // name is not blank, and every path keeps to the limits of paths, those of the collections with
  // room for one more segment.
  lemma ImportSucceedsIff(a: Archive, sha256: Sha256, encoded: Encoded, folder: Id, info: FolderInfo, files: seq<File>,
                          collections: seq<string>, b: Archive, new_: Id)
    requires ArchiveOk(a, sha256) && IsListing(a, folder, files) && IsCollectionList(a, folder, collections) && PolicyOk(info.policy)
    ensures var r := Import(b, sha256, new_, Export(a, sha256, encoded, info, files, collections));
      && (r.Ok? <==> encoded(ManifestFor(info, files, collections)) <= MANIFEST_LIMIT && TrimSpace(info.name) != ""
                     && BackupFits(files, collections))
      && (r.Ok? ==> AddsOk(Adds(a, sha256, files))
                    && r.value.0 == Restored(b, sha256, new_, a, files, collections)
                    && r.value.1 == FolderInfo(TrimSpace(info.name) + " (backup)", info.description, info.policy))
  {
    hide ArchiveOk, TreeOk, IsListing, DisplayPaths, CollectionEntries, FileEntries, FileItem, FileFits, CollectionFits, CheckItem,
         ByName, TrimSpace, CollectionSegments, IsCollection, ImportFiles, ImportCollections, MakeAll, AddAll, Adds, AddsOk;
    var shown := DisplayPaths(files);
    var byName := ByName(CollectionEntries(collections) + FileEntries(a, sha256, files, shown));
    var items := FileItems(files, shown);
    assert Export(a, sha256, encoded, info, files, collections).manifest ==
      Some(ManifestEntry(ManifestFor(info, files, collections), encoded(ManifestFor(info, files, collections))));
    NormalizingKeepsIff(info.policy);
    assert NormalizeFolderPolicy(info.policy, NO_POLICY) == info.policy;
    ArchiveHasTree(a, sha256);
    CollectionsImport(a, sha256, folder, files, collections, b, new_);
    ItemsImport(a, sha256, folder, files, collections, MakeAll(b, new_, Paths(collections)), new_);
  }

  lemma CollectionsImport(a: Archive, sha256: Sha256, folder: Id, files: seq<File>, collections: seq<string>, b: Archive, new_: Id)
    requires TreeOk(a.tree) && IsCollectionList(a, folder, collections)
    ensures ImportCollections(b, new_, collections) == Ok(MakeAll(b, new_, Paths(collections)))
            || ImportCollections(b, new_, collections).Err?
    ensures ImportCollections(b, new_, collections).Ok? <==> forall i :: 0 <= i < |collections| ==> CollectionFits(collections[i])
  {
    hide TreeOk, IsCollection, CollectionSegments, CollectionFits, ImportCollections, MakeAll;
    forall i | 0 <= i < |collections|
      ensures CollectionSegments(collections[i]) == if CollectionFits(collections[i]) then Ok(Paths(collections)[i]) else Err(InvalidUploadPath)
    {
      CollectionPassesIff(a, folder, collections[i]);
    }
    if i :| 0 <= i < |collections| && !CollectionFits(collections[i]) {
      ImportCollectionsFails(b, new_, collections, i);
    } else {
      ImportCollectionsIsMakeAll(b, new_, collections, Paths(collections));
    }
  }

  lemma ItemsImport(a: Archive, sha256: Sha256, folder: Id, files: seq<File>, collections: seq<string>, b: Archive, new_: Id)
    requires ArchiveOk(a, sha256) && IsListing(a, folder, files)
    ensures var shown := DisplayPaths(files);
      var byName := ByName(CollectionEntries(collections) + FileEntries(a, sha256, files, shown));
      var r := ImportFiles(b, sha256, new_, byName, FileItems(files, shown));
      && AddsOk(Adds(a, sha256, files))
      && (r.Ok? <==> forall i: nat :: FileFits(files, i))
      && (r.Ok? ==> r == Ok(AddAll(b, sha256, new_, Adds(a, sha256, files))))
  {
    hide ArchiveOk, TreeOk, IsListing, DisplayPaths, CollectionEntries, FileEntries, FileItem, CheckItem, ByName, ImportFiles, AddAll, Shown,
         PathFits, Content, AddsOk;
    var shown := DisplayPaths(files);
    var byName := ByName(CollectionEntries(collections) + FileEntries(a, sha256, files, shown));
    var items, adds := FileItems(files, shown), Adds(a, sha256, files);
    AddsAreOk(a, sha256, folder, files);
    forall i: nat | i < |files|
      ensures CheckItem(sha256, byName, items[i]) == if FileFits(files, i) then Ok(adds[i]) else Err(FilePathInvalid)
    {
      ItemPassesIff(a, sha256, folder, files, collections, i);
    }
    if i: nat :| !FileFits(files, i) {
      ImportFilesFails(b, sha256, new_, byName, items, i);
    } else {
      ImportFilesIsAddAll(b, sha256, new_, byName, items, adds);
    }
  }

  // ---------------------------------------------------------- what it restores

  // Nothing belongs to the folder yet.
  ghost predicate Unused(b: Archive, folder: Id) {
    && (forall e :: e in b.tree.entries ==> b.tree.entries[e].folder != folder)
    && (forall f :: f in b.files ==> b.files[f].folder != folder)
  }

  // The i-th file of the backup becomes the i-th new file.
  ghost predicate RestoredAt(b: Archive, files: seq<File>, path: seq<string>, f: Id) {
    b.nextFile <= f < b.nextFile + |files| && path == Split(Shown(files, f - b.nextFile))
  }

  lemma RestoredFiles(a: Archive, sha256: Sha256, folder: Id, files: seq<File>, collections: seq<string>,
                      b: Archive, new_: Id, where: Id, path: seq<string>, f: Id)
    requires ArchiveOk(a, sha256) && IsListing(a, folder, files) && IsCollectionList(a, folder, collections)
    requires ArchiveOk(b, sha256) && Unused(b, new_) && AddsOk(Adds(a, sha256, files))
    ensures var c := Restored(b, sha256, new_, a, files, collections);
      && ArchiveOk(c, sha256)
      && (FileAt(c, where, path, f) <==> if where == new_ then RestoredAt(b, files, path, f) else FileAt(b, where, path, f))
  {
    hide ArchiveOk, TreeOk, IsListing, IsCollection, FileAt, HasDir, MakeAll, AddAll, Shown, Split, AddsOk, AllSegmentsOk, Content;
    ArchiveHasTree(a, sha256);
    ArchiveHasTree(b, sha256);
    PathsAreOk(a, folder, collections);
    var m := MakeAll(b, new_, Paths(collections));
    MakeAllEffect(b, sha256, new_, Paths(collections), where, path, f);
    AddAllEffect(m, sha256, new_, Adds(a, sha256, files), where, path, f);
    NoFilesYet(b, new_, path, f);
    assert AddedAt(m, Adds(a, sha256, files), path, f) <==> RestoredAt(b, files, path, f);
  }

  lemma NoFilesYet(b: Archive, new_: Id, path: seq<string>, f: Id)
    requires TreeOk(b.tree) && Unused(b, new_)
    ensures !FileAt(b, new_, path, f) && !HasDir(b.tree, new_, path)
  {
    hide TreeOk, Path;
  }

  // File f of the new folder holds what the exported file held, under the same hash and size.
  predicate Arrives(a: Archive, sha256: Sha256, file: File, c: Archive, new_: Id, f: Id) {
    && Content(c, sha256, f) == Content(a, sha256, file.id) && Content(c, sha256, f).Some?
    && InFolder(c, new_, f) && c.files[f].sha == file.sha && c.files[f].size == file.size
  }

  // The contents arrive unchanged.
  lemma RestoredContents(a: Archive, sha256: Sha256, folder: Id, files: seq<File>, collections: seq<string>, b: Archive, new_: Id, i: nat)
    requires ArchiveOk(a, sha256) && IsListing(a, folder, files) && IsCollectionList(a, folder, collections)
    requires ArchiveOk(b, sha256) && AddsOk(Adds(a, sha256, files)) && i < |files|
    ensures Arrives(a, sha256, files[i], Restored(b, sha256, new_, a, files, collections), new_, b.nextFile + i)
  {
    hide ArchiveOk, TreeOk, IsListing, IsCollection, MakeAll, AddAll, Shown, Split, AddsOk, AllSegmentsOk, Content, FileAt, HasDir;
    ArchiveHasTree(a, sha256);
    ArchiveHasTree(b, sha256);
    PathsAreOk(a, folder, collections);
    var m := MakeAll(b, new_, Paths(collections));
    MakeAllEffect(b, sha256, new_, Paths(collections), 0, [], 0);
    AddAllContents(m, sha256, new_, Adds(a, sha256, files), b.nextFile + i);
    ContentOfListed(a, sha256, folder, files, i);
  }

  // Files of other folders keep their rows and contents.
  lemma OthersAreKept(a: Archive, sha256: Sha256, folder: Id, files: seq<File>, collections: seq<string>, b: Archive, new_: Id, f: Id)
    requires ArchiveOk(a, sha256) && IsListing(a, folder, files) && IsCollectionList(a, folder, collections)
    requires ArchiveOk(b, sha256) && AddsOk(Adds(a, sha256, files)) && ActiveFile(b, f)
    ensures var c := Restored(b, sha256, new_, a, files, collections);
      ActiveFile(c, f) && c.files[f] == b.files[f] && Content(c, sha256, f) == Content(b, sha256, f)
  {
    hide ArchiveOk, TreeOk, IsListing, IsCollection, MakeAll, AddAll, Adds, AddsOk, AllSegmentsOk, FileAt, HasDir;
    ArchiveHasTree(a, sha256);
    ArchiveHasTree(b, sha256);
    PathsAreOk(a, folder, collections);
    MakeAllEffect(b, sha256, new_, Paths(collections), 0, [], 0);
    AddAllContents(MakeAll(b, new_, Paths(collections)), sha256, new_, Adds(a, sha256, files), f);
  }

  // The restored folder has exactly the directories of the exported one.
  lemma RestoredDirs(a: Archive, sha256: Sha256, folder: Id, files: seq<File>, collections: seq<string>, b: Archive, new_: Id, path: seq<string>)
    requires ArchiveOk(a, sha256) && IsListing(a, folder, files) && IsCollectionList(a, folder, collections)
    requires ArchiveOk(b, sha256) && Unused(b, new_) && AddsOk(Adds(a, sha256, files))
    ensures var c := Restored(b, sha256, new_, a, files, collections);
      && TreeOk(c.tree) && (HasDir(c.tree, new_, path) <==> HasDir(a.tree, folder, path))
  {
    hide ArchiveOk, TreeOk, IsListing, IsCollectionList, FileAt, HasDir, MakeAll, AddAll, Adds, AddsOk, AllSegmentsOk, Paths, BelowOne, AboveOne, Unused;
    ArchiveHasTree(a, sha256);
    ArchiveHasTree(b, sha256);
    PathsAreOk(a, folder, collections);
    var m := MakeAll(b, new_, Paths(collections));
    MakeAllEffect(b, sha256, new_, Paths(collections), new_, path, 0);
    AddAllEffect(m, sha256, new_, Adds(a, sha256, files), new_, path, 0);
    ArchiveHasTree(AddAll(m, sha256, new_, Adds(a, sha256, files)), sha256);
    NoFilesYet(b, new_, path, 0);
    BelowIsDir(a, folder, collections, path);
    AboveIsDir(a, sha256, folder, files, path);
  }

  lemma BelowIsDir(a: Archive, folder: Id, collections: seq<string>, path: seq<string>)
    requires TreeOk(a.tree) && IsCollectionList(a, folder, collections)
    ensures BelowOne(Paths(collections), path) <==> HasDir(a.tree, folder, path)
  {
    hide TreeOk, HasDir, Split, Join, SegmentOk;
    if HasDir(a.tree, folder, path) {
      DirPath(a.tree, folder, path);
      var i :| 0 <= i < |collections| && collections[i] == Join(path);
      JoinedIsClean(path);
      assert Paths(collections)[i] == path;
    }
    if i :| path != [] && 0 <= i < |collections| && path <= Paths(collections)[i] {
      assert IsCollection(a, folder, collections[i]);
      PrefixIsDir(a.tree, folder, Split(collections[i]), path);
    }
  }

  lemma DirPath(t: Tree, folder: Id, path: seq<string>)
    requires TreeOk(t) && HasDir(t, folder, path)
    ensures path != [] && SegmentsOk(path)
  {
    hide SegmentOk, EntryOk, Siblings;
    var d: Id :| DirAt(t, folder, path, d);
    PathSegmentsOk(t, d);
  }

  lemma PrefixIsDir(t: Tree, folder: Id, path: seq<string>, prefix: seq<string>)
    requires TreeOk(t) && HasDir(t, folder, path) && prefix != [] && prefix <= path
    ensures HasDir(t, folder, prefix)
  {
    hide SegmentOk, EntryOk, Siblings;
    var d: Id :| DirAt(t, folder, path, d);
    var p := Ancestor(t, folder, d, prefix);
    assert DirAt(t, folder, prefix, p);
  }

  lemma AboveIsDir(a: Archive, sha256: Sha256, folder: Id, files: seq<File>, path: seq<string>)
    requires ArchiveOk(a, sha256) && IsListing(a, folder, files) && AddsOk(Adds(a, sha256, files))
    ensures AboveOne(Adds(a, sha256, files), path) ==> HasDir(a.tree, folder, path)
  {
    hide ArchiveOk, TreeOk, IsListing, HasDir, Split, Join, SegmentOk, Shown, Content;
    var adds := Adds(a, sha256, files);
    if i :| path != [] && 0 <= i < |adds| && path <= Parents(adds[i]) {
      var init, last, name := ShownBeside(a, sha256, folder, files, i);
      assert Parents(adds[i]) == init;
      StoredParents(a, sha256, folder, files, i, init, last, path);
    }
  }

  lemma StoredParents(a: Archive, sha256: Sha256, folder: Id, files: seq<File>, i: nat, init: seq<string>, last: string, path: seq<string>)
    requires ArchiveOk(a, sha256) && IsListing(a, folder, files) && i < |files| && Split(files[i].path) == init + [last]
    requires path != [] && path <= init
    ensures HasDir(a.tree, folder, path)
  {
    hide SegmentOk, EntryOk, Siblings, RowsOk, LeavesOk, Split, Join, HasDir;
    assert Listed(a, folder, files[i]);
    var e: Id :| IsRow(a, folder, files[i], e);
    PathSegmentsOk(a.tree, e);
    JoinedIsClean(Path(a.tree, e));
    assert (init + [last])[..|init + [last]| - 1] == init;
    ParentsAreDirs(a.tree, e, path);
  }

  // ------------------------------------------------------------ exporting again

  // Display paths are distinct, so the restored folder stores no path twice.
  lemma RestoredPathsDistinct(a: Archive, sha256: Sha256, folder: Id, files: seq<File>, collections: seq<string>, b: Archive, new_: Id)
    requires ArchiveOk(a, sha256) && IsListing(a, folder, files) && IsCollectionList(a, folder, collections)
    requires ArchiveOk(b, sha256) && Unused(b, new_) && AddsOk(Adds(a, sha256, files))
    ensures var c := Restored(b, sha256, new_, a, files, collections); ArchiveOk(c, sha256) && DistinctPaths(c, new_)
  {
    hide ArchiveOk, TreeOk, IsListing, IsCollectionList, FileAt, Restored, AddsOk, Shown, Split, Unused;
    var c := Restored(b, sha256, new_, a, files, collections);
    RestoredFiles(a, sha256, folder, files, collections, b, new_, new_, [], 0);
    ArchiveHasTree(c, sha256);
    forall path, f: Id, g: Id ensures SamePath(c, new_, path, f, g) {
      RestoredFiles(a, sha256, folder, files, collections, b, new_, new_, path, f);
      RestoredFiles(a, sha256, folder, files, collections, b, new_, new_, path, g);
      if RestoredAt(b, files, path, f) && RestoredAt(b, files, path, g) && f != g {
        SplitDecides(a, sha256, folder, files, f - b.nextFile, g - b.nextFile);
      }
    }
  }

  lemma SplitDecides(a: Archive, sha256: Sha256, folder: Id, files: seq<File>, i: nat, j: nat)
    requires ArchiveOk(a, sha256) && IsListing(a, folder, files) && i < |files| && j < |files| && i != j
    ensures Split(Shown(files, i)) != Split(Shown(files, j))
  {
    hide ArchiveOk, TreeOk, IsListing, Shown, Split, Join;
    JoinSplit(Shown(files, i));
    JoinSplit(Shown(files, j));
    ShownIsUnique(a, sha256, folder, files, i, j);
  }

  // The item with the last segment of its path for a name.
  function AsShown(item: BackupFile): BackupFile {
    var segments := Split(item.path);
    if segments == [] then item else item.(name := segments[|segments| - 1])
  }

  // Where the i-th file of the first backup is in the second.
  lemma ExportedAgain(a: Archive, sha256: Sha256, folder: Id, files: seq<File>, collections: seq<string>, b: Archive, new_: Id,
                      again: seq<File>, i: nat) returns (j: nat)
    requires ArchiveOk(a, sha256) && IsListing(a, folder, files) && IsCollectionList(a, folder, collections)
    requires ArchiveOk(b, sha256) && Unused(b, new_) && AddsOk(Adds(a, sha256, files)) && i < |files|
    requires var c := Restored(b, sha256, new_, a, files, collections); TreeOk(c.tree) && IsListing(c, new_, again)
    ensures j < |again| && again[j].id == b.nextFile + i
    ensures var first, second := FileItem(files[i], DisplayPaths(files)), FileItem(again[j], DisplayPaths(again));
      && second == first.(name := second.name) && second == AsShown(first)
      && (second.name == first.name <==> first.path == files[i].path)
  {
    hide ArchiveOk, TreeOk, IsListing, IsCollectionList, FileAt, Restored, AddsOk, Shown, Split, Join, Unused, DisplayPaths, FileItem, Content;
    var c := Restored(b, sha256, new_, a, files, collections);
    var f, path := b.nextFile + i, Split(Shown(files, i));
    RestoredPathsDistinct(a, sha256, folder, files, collections, b, new_);
    RestoredFiles(a, sha256, folder, files, collections, b, new_, new_, path, f);
    RestoredContents(a, sha256, folder, files, collections, b, new_, i);
    j := RowOfFile(c, sha256, new_, again, path, f);
    ShownIsClean(a, sha256, folder, files, i);
    ShownAgain(c, sha256, new_, again, j);
    NamesOf(a, sha256, folder, files, i);
    NamesOf(c, sha256, new_, again, j);
    ListedRow(c, new_, again, j);
    var init, last, name := ShownBeside(a, sha256, folder, files, i);
    JoinSplit(files[i].path);
    if last == name {
      assert Join(Split(files[i].path)) == Join(path);
    }
  }

  lemma ShownAgain(c: Archive, sha256: Sha256, folder: Id, again: seq<File>, j: nat)
    requires ArchiveOk(c, sha256) && IsListing(c, folder, again) && DistinctPaths(c, folder) && j < |again|
    ensures FileItem(again[j], DisplayPaths(again)) ==
      BackupFile(again[j].path, again[j].name, CONTENT + again[j].path, again[j].size, again[j].sha)
  {
    hide ArchiveOk, TreeOk, IsListing, DistinctPaths, DisplayPaths, FileItem, CleanPath, Split, Join;
    ListingShowsStored(c, sha256, folder, again);
    ShownIsClean(c, sha256, folder, again, j);
  }

  lemma ListedRow(c: Archive, folder: Id, again: seq<File>, j: nat)
    requires TreeOk(c.tree) && IsListing(c, folder, again) && j < |again|
    ensures again[j].id in c.files && again[j].size == c.files[again[j].id].size && again[j].sha == c.files[again[j].id].sha
  {
    hide TreeOk;
    assert Listed(c, folder, again[j]);
  }

  // A stored file's name is the last segment of its path.
  lemma NamesOf(a: Archive, sha256: Sha256, folder: Id, files: seq<File>, i: nat)
    requires ArchiveOk(a, sha256) && IsListing(a, folder, files) && i < |files|
    ensures Split(files[i].path) != [] && files[i].name == Split(files[i].path)[|Split(files[i].path)| - 1]
  {
    hide SegmentOk, EntryOk, Siblings, RowsOk, Split, Join;
    assert Listed(a, folder, files[i]);
    var e: Id :| IsRow(a, folder, files[i], e);
    assert LeafOk(a, e, files[i].id);
    PathSegmentsOk(a.tree, e);
    JoinedIsClean(Path(a.tree, e));
    PathUnfolds(a.tree, e);
  }

  // No file is added or lost between the two backups.
  lemma NothingElseExported(a: Archive, sha256: Sha256, folder: Id, files: seq<File>, collections: seq<string>, b: Archive, new_: Id,
                            again: seq<File>, j: nat)
    requires ArchiveOk(a, sha256) && IsListing(a, folder, files) && IsCollectionList(a, folder, collections)
    requires ArchiveOk(b, sha256) && Unused(b, new_) && AddsOk(Adds(a, sha256, files)) && j < |again|
    requires var c := Restored(b, sha256, new_, a, files, collections); TreeOk(c.tree) && IsListing(c, new_, again)
    ensures b.nextFile <= again[j].id < b.nextFile + |files|
  {
    hide ArchiveOk, TreeOk, Listed, IsCollectionList, FileAt, Restored, AddsOk, Shown, Split, Join, Unused;
    var c := Restored(b, sha256, new_, a, files, collections);
    RestoredFiles(a, sha256, folder, files, collections, b, new_, new_, [], 0);
    var path := RowPath(c, sha256, new_, again[j]);
    RestoredFiles(a, sha256, folder, files, collections, b, new_, new_, path, again[j].id);
  }

  // The second backup lists the same collections.
  lemma SameCollections(a: Archive, sha256: Sha256, folder: Id, files: seq<File>, collections: seq<string>, b: Archive, new_: Id,
                        again: seq<string>, c: string)
    requires ArchiveOk(a, sha256) && IsListing(a, folder, files) && IsCollectionList(a, folder, collections)
    requires ArchiveOk(b, sha256) && Unused(b, new_) && AddsOk(Adds(a, sha256, files))
    requires var d := Restored(b, sha256, new_, a, files, collections); TreeOk(d.tree) && IsCollectionList(d, new_, again)
    ensures c in again <==> c in collections
  {
    hide ArchiveOk, TreeOk, IsListing, IsCollectionList, Restored, AddsOk, Split, Unused, HasDir;
    var d := Restored(b, sha256, new_, a, files, collections);
    ArchiveHasTree(a, sha256);
    CollectionIff(a, folder, collections, c);
    CollectionIff(d, new_, again, c);
    RestoredDirs(a, sha256, folder, files, collections, b, new_, Split(c));
  }

  lemma CollectionIff(a: Archive, folder: Id, collections: seq<string>, c: string)
    requires TreeOk(a.tree) && IsCollectionList(a, folder, collections)
    ensures c in collections <==> CleanPath(c) && HasDir(a.tree, folder, Split(c))
  {
    hide TreeOk, HasDir, Split, Join, CleanPath;
    JoinSplit(c);
    if c in collections {
      var i :| 0 <= i < |collections| && collections[i] == c;
      assert IsCollection(a, folder, collections[i]);
    }
  }
}
