/** The round trip of a backup as a whole, and three folders whose backups do not make it. */
module BackupLimits {
  import opened Base
  import opened Text
  import opened EntryTree
  import opened DavNames
  import opened ArchiveModel
  import opened ArchiveReads
  import opened ArchiveDuplicates
  import opened UploadPaths
  import opened PolicySeal
  import opened Backup
  import opened BackupRoundTrip

  // ------------------------------------------------------------------ the whole trip

  // The new folder: the files of the old one under the paths they were shown with, its directories,
  // its contents; and nothing changed elsewhere.
  ghost predicate IsRestored(a: Archive, sha256: Sha256, folder: Id, files: seq<File>, b: Archive, c: Archive, new_: Id)
    requires TreeOk(a.tree) && TreeOk(b.tree) && TreeOk(c.tree)
  {
    && (forall where: Id, path, f: Id :: FileAt(c, where, path, f) <==>
          if where == new_ then RestoredAt(b, files, path, f) else FileAt(b, where, path, f))
    && (forall path :: HasDir(c.tree, new_, path) <==> HasDir(a.tree, folder, path))
    && (forall i: nat :: i < |files| ==> Arrives(a, sha256, files[i], c, new_, b.nextFile + i))
    && (forall f: Id :: ActiveFile(b, f) ==> Unchanged(b, sha256, c, f))
  }

  predicate Unchanged(b: Archive, sha256: Sha256, c: Archive, f: Id) {
    f in b.files && ActiveFile(c, f) && c.files[f] == b.files[f] && Content(c, sha256, f) == Content(b, sha256, f)
  }

  /** Whatever import accepts of an export becomes a folder like the exported one, under its name with
      an addition, with the same description and policy. */
  lemma ImportRestores(a: Archive, sha256: Sha256, encoded: Encoded, folder: Id, info: FolderInfo, files: seq<File>,
                       collections: seq<string>, b: Archive, new_: Id)
    requires ArchiveOk(a, sha256) && IsListing(a, folder, files) && IsCollectionList(a, folder, collections) && PolicyOk(info.policy)
    requires ArchiveOk(b, sha256) && Unused(b, new_)
    requires Import(b, sha256, new_, Export(a, sha256, encoded, info, files, collections)).Ok?
    ensures var (c, imported) := Import(b, sha256, new_, Export(a, sha256, encoded, info, files, collections)).value;
      && ArchiveOk(c, sha256) && DistinctPaths(c, new_) && IsRestored(a, sha256, folder, files, b, c, new_)
      && imported == FolderInfo(TrimSpace(info.name) + " (backup)", info.description, info.policy)
  {
    hide *;
    TreesThere(a, b, sha256);
    ImportSucceedsIff(a, sha256, encoded, folder, info, files, collections, b, new_);
    var c := Restored(b, sha256, new_, a, files, collections);
    RestoredPathsDistinct(a, sha256, folder, files, collections, b, new_);
    ArchiveHasTree(c, sha256);
    RestoredIs(a, sha256, folder, files, collections, b, new_);
  }

  lemma TreesThere(a: Archive, b: Archive, sha256: Sha256)
    requires ArchiveOk(a, sha256) && ArchiveOk(b, sha256)
    ensures TreeOk(a.tree) && TreeOk(b.tree)
  {
  }

  lemma RestoredIs(a: Archive, sha256: Sha256, folder: Id, files: seq<File>, collections: seq<string>, b: Archive, new_: Id)
    requires ArchiveOk(a, sha256) && IsListing(a, folder, files) && IsCollectionList(a, folder, collections)
    requires ArchiveOk(b, sha256) && Unused(b, new_) && AddsOk(Adds(a, sha256, files))
    ensures var c := Restored(b, sha256, new_, a, files, collections);
      TreeOk(c.tree) && IsRestored(a, sha256, folder, files, b, c, new_)
  {
    hide ArchiveOk, TreeOk, IsListing, IsCollectionList, FileAt, HasDir, Restored, AddsOk, Adds, RestoredAt, Unused, Arrives, Content, ActiveFile;
    TreesThere(a, b, sha256);
    var c := Restored(b, sha256, new_, a, files, collections);
    RestoredPathsDistinct(a, sha256, folder, files, collections, b, new_);
    ArchiveHasTree(c, sha256);
    forall where: Id, path, f: Id ensures FileAt(c, where, path, f) <==>
      if where == new_ then RestoredAt(b, files, path, f) else FileAt(b, where, path, f)
    {
      RestoredFiles(a, sha256, folder, files, collections, b, new_, where, path, f);
    }
    forall path ensures HasDir(c.tree, new_, path) <==> HasDir(a.tree, folder, path) {
      RestoredDirs(a, sha256, folder, files, collections, b, new_, path);
    }
    forall i: nat | i < |files| ensures Arrives(a, sha256, files[i], c, new_, b.nextFile + i) {
      RestoredContents(a, sha256, folder, files, collections, b, new_, i);
    }
    forall f: Id | ActiveFile(b, f) ensures Unchanged(b, sha256, c, f) {
      assert f in b.files by { ActiveIsThere(b, f); }
      OthersAreKept(a, sha256, folder, files, collections, b, new_, f);
    }
  }

  lemma ActiveIsThere(a: Archive, f: Id)
    requires ActiveFile(a, f)
    ensures f in a.files
  {
  }

  // ------------------------------------------------------------------ the second backup

  ghost predicate ExportedAs(items: seq<BackupFile>, x: BackupFile) {
    exists i :: 0 <= i < |items| && x == AsShown(items[i])
  }

  // The same collections and the same files, each once, named as they were shown.
  ghost predicate IsSecond(first: Manifest, second: Manifest) {
    && second.format == first.format && second.version == first.version
    && (forall c :: c in second.collections <==> c in first.collections)
    && |second.files| == |first.files|
    && (forall x :: x in second.files <==> ExportedAs(first.files, x))
  }

  ghost function ManifestFrom(a: Archive, sha256: Sha256, encoded: Encoded, info: FolderInfo, files: seq<File>, collections: seq<string>): Manifest {
    Export(a, sha256, encoded, info, files, collections).manifest.value.manifest
  }

  /** Whatever import accepts of an export is exported again with the same collections and the same
      files: same paths, sizes and hashes, and the same names but for files shown as copies. */
  lemma ExportAgainIsSecond(a: Archive, sha256: Sha256, encoded: Encoded, folder: Id, info: FolderInfo, files: seq<File>, collections: seq<string>,
                            b: Archive, new_: Id, again: seq<File>, recollected: seq<string>)
    requires ArchiveOk(a, sha256) && IsListing(a, folder, files) && IsCollectionList(a, folder, collections) && PolicyOk(info.policy)
    requires ArchiveOk(b, sha256) && Unused(b, new_)
    requires Import(b, sha256, new_, Export(a, sha256, encoded, info, files, collections)).Ok?
    requires var c := Import(b, sha256, new_, Export(a, sha256, encoded, info, files, collections)).value.0;
      TreeOk(c.tree) && IsListing(c, new_, again) && IsCollectionList(c, new_, recollected)
    ensures var (c, imported) := Import(b, sha256, new_, Export(a, sha256, encoded, info, files, collections)).value;
      var first, second := ManifestFrom(a, sha256, encoded, info, files, collections), ManifestFrom(c, sha256, encoded, imported, again, recollected);
      && IsSecond(first, second)
      && second.folder == first.folder.(name := TrimSpace(info.name) + " (backup)")
      && forall i :: 0 <= i < |files| ==> (AsShown(first.files[i]) == first.files[i] <==> first.files[i].path == files[i].path)
  {
    hide *;
    TreesThere(a, b, sha256);
    ImportSucceedsIff(a, sha256, encoded, folder, info, files, collections, b, new_);
    var c := Restored(b, sha256, new_, a, files, collections);
    var imported := Import(b, sha256, new_, Export(a, sha256, encoded, info, files, collections)).value.1;
    ManifestIs(a, sha256, encoded, info, files, collections);
    ManifestIs(c, sha256, encoded, imported, again, recollected);
    SecondItems(a, sha256, folder, files, collections, b, new_, again, recollected, info, imported);
  }

  lemma ManifestIs(a: Archive, sha256: Sha256, encoded: Encoded, info: FolderInfo, files: seq<File>, collections: seq<string>)
    ensures ManifestFrom(a, sha256, encoded, info, files, collections) == ManifestOf(info, collections, files, DisplayPaths(files))
    ensures ManifestOf(info, collections, files, DisplayPaths(files)).folder == info
    ensures |ManifestOf(info, collections, files, DisplayPaths(files)).files| == |files|
  {
    hide DisplayPaths;
  }

  lemma SecondItems(a: Archive, sha256: Sha256, folder: Id, files: seq<File>, collections: seq<string>, b: Archive, new_: Id,
                    again: seq<File>, recollected: seq<string>, info: FolderInfo, imported: FolderInfo)
    requires ArchiveOk(a, sha256) && IsListing(a, folder, files) && IsCollectionList(a, folder, collections)
    requires ArchiveOk(b, sha256) && Unused(b, new_) && AddsOk(Adds(a, sha256, files))
    requires var c := Restored(b, sha256, new_, a, files, collections);
      TreeOk(c.tree) && IsListing(c, new_, again) && IsCollectionList(c, new_, recollected)
    ensures var first, second := ManifestOf(info, collections, files, DisplayPaths(files)), ManifestOf(imported, recollected, again, DisplayPaths(again));
      && IsSecond(first, second)
      && forall i :: 0 <= i < |files| ==> (AsShown(first.files[i]) == first.files[i] <==> first.files[i].path == files[i].path)
  {
    hide ArchiveOk, TreeOk, IsListing, IsCollectionList, Restored, AddsOk, Adds, Unused, DisplayPaths, FileItem, AsShown, ExportedAs;
    var items, more := FileItems(files, DisplayPaths(files)), FileItems(again, DisplayPaths(again));
    forall i | 0 <= i < |files|
      ensures AsShown(items[i]) in more && (AsShown(items[i]) == items[i] <==> items[i].path == files[i].path)
    {
      ItemGoesOn(a, sha256, folder, files, collections, b, new_, again, i);
    }
    forall j | 0 <= j < |again| ensures ExportedAs(items, more[j]) {
      ItemComesFrom(a, sha256, folder, files, collections, b, new_, again, j);
    }
    forall x ensures x in more <==> ExportedAs(items, x) {
      AsShownAmong(items, x);
    }
    SameCount(a, sha256, folder, files, collections, b, new_, again);
    forall c ensures c in recollected <==> c in collections {
      SameCollections(a, sha256, folder, files, collections, b, new_, recollected, c);
    }
  }

  lemma AsShownAmong(items: seq<BackupFile>, x: BackupFile)
    ensures ExportedAs(items, x) <==> exists i :: 0 <= i < |items| && x == AsShown(items[i])
  {
    hide AsShown;
  }

  lemma ItemGoesOn(a: Archive, sha256: Sha256, folder: Id, files: seq<File>, collections: seq<string>, b: Archive, new_: Id,
                   again: seq<File>, i: nat)
    requires ArchiveOk(a, sha256) && IsListing(a, folder, files) && IsCollectionList(a, folder, collections) && i < |files|
    requires ArchiveOk(b, sha256) && Unused(b, new_) && AddsOk(Adds(a, sha256, files))
    requires var c := Restored(b, sha256, new_, a, files, collections); TreeOk(c.tree) && IsListing(c, new_, again)
    ensures var item := FileItems(files, DisplayPaths(files))[i];
      && AsShown(item) in FileItems(again, DisplayPaths(again))
      && (AsShown(item) == item <==> item.path == files[i].path)
    ensures HasId(again, b.nextFile + i)
  {
    hide ArchiveOk, TreeOk, IsListing, IsCollectionList, Restored, AddsOk, Adds, Unused, DisplayPaths, FileItem, AsShown;
    var j := ExportedAgain(a, sha256, folder, files, collections, b, new_, again, i);
    assert FileItems(again, DisplayPaths(again))[j] == AsShown(FileItem(files[i], DisplayPaths(files)));
  }

  lemma ItemComesFrom(a: Archive, sha256: Sha256, folder: Id, files: seq<File>, collections: seq<string>, b: Archive, new_: Id,
                      again: seq<File>, j: nat)
    requires ArchiveOk(a, sha256) && IsListing(a, folder, files) && IsCollectionList(a, folder, collections) && j < |again|
    requires ArchiveOk(b, sha256) && Unused(b, new_) && AddsOk(Adds(a, sha256, files))
    requires var c := Restored(b, sha256, new_, a, files, collections); TreeOk(c.tree) && IsListing(c, new_, again)
    ensures ExportedAs(FileItems(files, DisplayPaths(files)), FileItems(again, DisplayPaths(again))[j])
  {
    hide ArchiveOk, TreeOk, Listed, IsCollectionList, Restored, AddsOk, Adds, Unused, DisplayPaths, FileItem, AsShown;
    NothingElseExported(a, sha256, folder, files, collections, b, new_, again, j);
    var i := again[j].id - b.nextFile;
    var k := ExportedAgain(a, sha256, folder, files, collections, b, new_, again, i);
    assert k == j;
    assert FileItems(again, DisplayPaths(again))[j] == AsShown(FileItems(files, DisplayPaths(files))[i]);
  }

  lemma SameCount(a: Archive, sha256: Sha256, folder: Id, files: seq<File>, collections: seq<string>, b: Archive, new_: Id, again: seq<File>)
    requires ArchiveOk(a, sha256) && IsListing(a, folder, files) && IsCollectionList(a, folder, collections)
    requires ArchiveOk(b, sha256) && Unused(b, new_) && AddsOk(Adds(a, sha256, files))
    requires var c := Restored(b, sha256, new_, a, files, collections); TreeOk(c.tree) && IsListing(c, new_, again)
    ensures |again| == |files|
  {
    hide ArchiveOk, TreeOk, Listed, IsCollectionList, Restored, AddsOk, Adds, Unused, DisplayPaths, FileItem, AsShown, HasId;
    forall j | 0 <= j < |again| ensures b.nextFile <= again[j].id < b.nextFile + |files| {
      NothingElseExported(a, sha256, folder, files, collections, b, new_, again, j);
    }
    forall f: Id | b.nextFile <= f < b.nextFile + |files| ensures HasId(again, f) {
      ItemGoesOn(a, sha256, folder, files, collections, b, new_, again, f - b.nextFile);
    }
    SameSize(again, b.nextFile, |files|);
  }

  // As many rows as ids, when the ids are exactly those of a range.
  lemma SameSize(files: seq<File>, low: nat, n: nat)
    requires DistinctIds(files)
    requires forall j :: 0 <= j < |files| ==> low <= files[j].id < low + n
    requires forall f: nat :: low <= f < low + n ==> HasId(files, f)
    ensures |files| == n
  {
    IdsCount(files);
    RangeCount(low, n);
    forall f ensures f in IdsOf(files) <==> f in Range(low, n) {
      if f in Range(low, n) {
        assert HasId(files, f);
      }
    }
    assert IdsOf(files) == Range(low, n);
  }

  function IdsOf(files: seq<File>): set<nat> {
    set j | 0 <= j < |files| :: files[j].id
  }

  function Range(low: nat, n: nat): set<nat> {
    if n == 0 then {} else Range(low, n - 1) + {low + n - 1}
  }

  lemma {:induction false} IdsCount(files: seq<File>)
    requires DistinctIds(files)
    ensures |IdsOf(files)| == |files|
  {
    if files != [] {
      var n := |files| - 1;
      IdsCount(files[..n]);
      assert IdsOf(files) == IdsOf(files[..n]) + {files[n].id} by {
        assert forall j :: 0 <= j < n ==> files[..n][j] == files[j];
      }
    }
  }

  lemma {:induction false} RangeCount(low: nat, n: nat)
    ensures |Range(low, n)| == n && forall f :: f in Range(low, n) <==> low <= f < low + n
  {
    if n > 0 {
      RangeCount(low, n - 1);
    }
  }

  // --------------------------------------------------------------------- too many files

  // The names of the five fields alone take more than so many bytes for each file.
  const FILE_KEYS := 64

  ghost predicate WritesKeys(encoded: Encoded) {
    forall m: Manifest :: FILE_KEYS * |m.files| <= encoded(m)
  }

  function Blanks(n: nat): seq<string> {
    seq(n, _ => "")
  }

  /** A folder of 131073 files: it can be exported, and the import finds its manifest invalid. */
  lemma TooManyFilesAreRefused(sha256: Sha256, encoded: Encoded, info: FolderInfo, b: Archive, new_: Id)
    requires WritesKeys(encoded)
    ensures var contents := Blanks(MANIFEST_LIMIT / FILE_KEYS + 1);
      var a, files := Uploads(sha256, contents), UploadedRows(sha256, contents);
      && ArchiveOk(a, sha256) && IsListing(a, HOME, files) && IsCollectionList(a, HOME, [])
      && Import(b, sha256, new_, Export(a, sha256, encoded, info, files, [])) == Err(ManifestInvalid)
  {
    hide ArchiveOk, IsListing, Uploads, DisplayPaths, HoldsUploads;
    var contents := Blanks(MANIFEST_LIMIT / FILE_KEYS + 1);
    var files := UploadedRows(sha256, contents);
    UploadsAreThere(sha256, contents);
    UploadsAreListed(sha256, contents);
    NoDirectories(sha256, contents);
    assert |ManifestFor(info, files, []).files| == |files|;
  }

  lemma NoDirectories(sha256: Sha256, contents: seq<string>)
    ensures var a := Uploads(sha256, contents); TreeOk(a.tree) && IsCollectionList(a, HOME, [])
  {
    hide SegmentOk, EntryOk, Siblings, RowsOk, LeavesOk, Uploads;
    UploadsAreThere(sha256, contents);
  }

  // --------------------------------------------------------------- a path at the limit

  const DEEP: seq<string> := seq(64, _ => "a")

  ghost const DEEP_FOLDER := MakePath(NO_FILES, HOME, DEEP)

  function Prefixes(path: seq<string>): seq<string> {
    seq(|path|, i requires 0 <= i < |path| => Join(path[..i + 1]))
  }

  /** A directory of as many segments as an upload may have: MKCOL makes it, the export lists it, and
      the import refuses its path, since it asks for room for one more segment. */
  lemma DeepCollectionIsRefused(sha256: Sha256, encoded: Encoded, info: FolderInfo, b: Archive, new_: Id)
    requires PolicyOk(info.policy) && TrimSpace(info.name) != "" && encoded(ManifestFor(info, [], Prefixes(DEEP))) <= MANIFEST_LIMIT
    ensures ArchiveOk(DEEP_FOLDER, sha256) && IsListing(DEEP_FOLDER, HOME, []) && IsCollectionList(DEEP_FOLDER, HOME, Prefixes(DEEP))
    ensures CleanPathSegments(Join(DEEP), "a") == Ok(DEEP)
    ensures Import(b, sha256, new_, Export(DEEP_FOLDER, sha256, encoded, info, [], Prefixes(DEEP))) == Err(CollectionPathInvalid)
  {
    hide ArchiveOk, TreeOk, MakePath, IsCollection, HasDir, Join, Split, CleanPathSegments, SegmentsOk, ImportCollections, ImportFiles, TrimSpace,
         Prefixes, FileEntries, CollectionEntries, ByName, PolicyOk;
    DeepIsMade(sha256);
    ArchiveHasTree(DEEP_FOLDER, sha256);
    DeepIsLong();
    CleanPathIsTaken(DEEP, "a");
    DeepDoesNotFit();
    NormalizingKeepsIff(info.policy);
    CollectionsImport(DEEP_FOLDER, sha256, HOME, [], Prefixes(DEEP), b, new_);
    OneImportError(b, new_, Prefixes(DEEP));
    assert Export(DEEP_FOLDER, sha256, encoded, info, [], Prefixes(DEEP)).manifest.value.manifest.collections == Prefixes(DEEP);
  }

  lemma DeepDoesNotFit()
    ensures |Prefixes(DEEP)| == 64 && !CollectionFits(Prefixes(DEEP)[63])
  {
    hide Join, Split;
    DeepIsLong();
    JoinedIsClean(DEEP);
    assert DEEP[..64] == DEEP && Prefixes(DEEP)[63] == Join(DEEP);
  }

  lemma {:induction false} OneImportError(b: Archive, new_: Id, collections: seq<string>)
    ensures var r := ImportCollections(b, new_, collections); r.Err? ==> r.error == CollectionPathInvalid
    decreases |collections|
  {
    hide MakePath, CollectionSegments;
    if collections != [] && CollectionSegments(collections[0]).Ok? {
      OneImportError(MakePath(b, new_, CollectionSegments(collections[0]).value), new_, collections[1..]);
    }
  }

  lemma DeepIsLong()
    ensures |DEEP| == MAX_UPLOAD_PATH_SEGMENTS && SegmentsOk(DEEP) && |Join(DEEP)| <= MAX_UPLOAD_PATH_LENGTH
  {
    hide Join;
    AIsSegment();
    JoinOfAs(DEEP);
  }

  lemma {:induction false} JoinOfAs(path: seq<string>)
    requires forall i :: 0 <= i < |path| ==> |path[i]| == 1
    ensures |Join(path)| <= 2 * |path|
  {
    if |path| > 1 {
      JoinOfAs(path[1..]);
    }
  }

  lemma DeepIsMade(sha256: Sha256)
    ensures ArchiveOk(DEEP_FOLDER, sha256) && IsListing(DEEP_FOLDER, HOME, []) && IsCollectionList(DEEP_FOLDER, HOME, Prefixes(DEEP))
  {
    hide ArchiveOk, TreeOk, MakePath, HasDir, Join, Split, SegmentsOk;
    EmptyIsOk(sha256);
    DeepIsLong();
    MakePathKeeps(NO_FILES, sha256, HOME, DEEP);
    ArchiveHasTree(DEEP_FOLDER, sha256);
    forall path ensures HasDir(DEEP_FOLDER.tree, HOME, path) <==> path != [] && path <= DEEP {
      MakePathDirs(NO_FILES, sha256, HOME, DEEP, HOME, path);
      NothingMade(path);
    }
    forall i | 0 <= i < 64 ensures IsCollection(DEEP_FOLDER, HOME, Prefixes(DEEP)[i]) {
      PrefixIsClean(i + 1);
    }
    forall path | HasDir(DEEP_FOLDER.tree, HOME, path) ensures Join(path) in Prefixes(DEEP) {
      assert path == DEEP[..|path|];
      assert Prefixes(DEEP)[|path| - 1] == Join(path);
    }
    NoFilesMade();
  }

  lemma NothingMade(path: seq<string>)
    ensures TreeOk(NO_FILES.tree) && !HasDir(NO_FILES.tree, HOME, path)
  {
  }

  lemma NoFilesMade()
    ensures DEEP_FOLDER.files == map[]
  {
    hide EnsurePath;
  }

  lemma PrefixIsClean(k: nat)
    requires 0 < k <= 64
    ensures CleanPath(Join(DEEP[..k])) && Split(Join(DEEP[..k])) == DEEP[..k] && DEEP[..k] <= DEEP && DEEP[..k] != []
  {
    hide Join, Split;
    AIsSegment();
    assert SegmentsOk(DEEP[..k]);
    JoinedIsClean(DEEP[..k]);
  }

  // ------------------------------------------------------------------- a copied name

  /** Two files under one path: in the second backup, the one shown as a copy has another name. */
  lemma CopyChangesItsName(sha256: Sha256, again: seq<File>) returns (j: nat)
    requires var a, files := Uploads(sha256, ["x", "y"]), UploadedRows(sha256, ["x", "y"]);
      AddsOk(Adds(a, sha256, files))
      && var c := Restored(NO_FILES, sha256, HOME, a, files, []); TreeOk(c.tree) && IsListing(c, HOME, again)
    ensures var files := UploadedRows(sha256, ["x", "y"]);
      && j < |again|
      && var first, second := FileItem(files[1], DisplayPaths(files)), FileItem(again[j], DisplayPaths(again));
         second == first.(name := second.name) && second.name != first.name
  {
    hide ArchiveOk, TreeOk, IsListing, IsCollectionList, Restored, AddsOk, Adds, Uploads, FileItem, DisplayPaths, Unused, CleanPath, HoldsUploads;
    var a, files := Uploads(sha256, ["x", "y"]), UploadedRows(sha256, ["x", "y"]);
    UploadsAreThere(sha256, ["x", "y"]);
    UploadsAreListed(sha256, ["x", "y"]);
    NoDirectories(sha256, ["x", "y"]);
    EmptyIsOk(sha256);
    assert Unused(NO_FILES, HOME) by { NothingInHome(); }
    j := ExportedAgain(a, sha256, HOME, files, [], NO_FILES, HOME, again, 1);
    AIsClean();
    FirstIsShown(files);
    ShownIsClean(a, sha256, HOME, files, 0);
    ShownIsClean(a, sha256, HOME, files, 1);
    ShownIsUnique(a, sha256, HOME, files, 0, 1);
  }

  lemma NothingInHome()
    ensures Unused(NO_FILES, HOME)
  {
  }
}
