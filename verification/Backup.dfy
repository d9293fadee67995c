/** Folder backups: what an export writes, what an import makes of it, and the round trip. */
module Backup {
  import opened Base
  import opened Text
  import opened EntryTree
  import opened DavNames
  import opened ArchiveModel
  import opened ArchiveReads
  import opened UploadPaths
  import opened PolicySeal

  const FORMAT := "archivon-folder-backup"
  const VERSION := 1
  const CONTENT := "content/"

  datatype BackupFile = BackupFile(path: string, name: string, archivePath: string, size: int, sha: string)

  // The part of a protected_folders row that travels.
  datatype FolderInfo = FolderInfo(name: string, description: string, policy: FolderPolicy)

  datatype Manifest = Manifest(format: string, version: int, folder: FolderInfo, collections: seq<string>, files: seq<BackupFile>)

  datatype ZipEntry = ZipEntry(name: string, content: string)

  // The manifest's entry: what it decodes to, and the length of its text up to the closing brace.
  datatype ManifestEntry = ManifestEntry(manifest: Manifest, size: nat)

  // The manifest's entry is kept apart; None if there is none.
  datatype Zip = Zip(manifest: Option<ManifestEntry>, entries: seq<ZipEntry>)

  // The length of a manifest as the export writes it, times included. Nothing bounds it.
  type Encoded = Manifest -> nat

  // The import reads so many bytes of the manifest and no more.
  const MANIFEST_LIMIT := 8 * 1024 * 1024

  // ------------------------------------------------------------------- export

  function FileItem(file: File, shown: map<nat, string>): BackupFile {
    var displayPath := if file.id in shown then shown[file.id] else "";
    BackupFile(displayPath, file.name, BackupArchivePath(displayPath, file.path, file.name), file.size, file.sha)
  }

  function FileItems(files: seq<File>, shown: map<nat, string>): seq<BackupFile> {
    seq(|files|, i requires 0 <= i < |files| => FileItem(files[i], shown))
  }

  // One directory entry for each collection.
  function CollectionEntries(collections: seq<string>): seq<ZipEntry> {
    if collections == [] then []
    else
      var n := |collections| - 1;
      var collection := TrimSlashes(collections[n]);
      CollectionEntries(collections[..n]) + if collection == "" then [] else [ZipEntry(CONTENT + collection + "/", "")]
  }

  function FileEntries(a: Archive, sha256: Sha256, files: seq<File>, shown: map<nat, string>): seq<ZipEntry> {
    seq(|files|, i requires 0 <= i < |files| =>
      ZipEntry(FileItem(files[i], shown).archivePath, Content(a, sha256, files[i].id).GetOr("")))
  }

  function ManifestOf(folder: FolderInfo, collections: seq<string>, files: seq<File>, shown: map<nat, string>): Manifest {
    Manifest(FORMAT, VERSION, folder, collections, FileItems(files, shown))
  }

  ghost function Export(a: Archive, sha256: Sha256, encoded: Encoded, folder: FolderInfo, files: seq<File>, collections: seq<string>): Zip {
    var shown := DisplayPaths(files);
    var manifest := ManifestOf(folder, collections, files, shown);
    Zip(Some(ManifestEntry(manifest, encoded(manifest))), CollectionEntries(collections) + FileEntries(a, sha256, files, shown))
  }

  // ------------------------------------------------------------------- import

  datatype ImportError =
    | ManifestMissing | ManifestInvalid | FormatUnsupported | FolderNameInvalid | PolicyInvalid | CollectionPathInvalid
    | ArchivePathInvalid | FileMissing | FilePathInvalid | ChecksumMismatch | ImportAborted

  // filesByName: of entries with one name the last counts.
  function ByName(entries: seq<ZipEntry>): map<string, string> {
    if entries == [] then map[]
    else
      var n := |entries| - 1;
      ByName(entries[..n])[entries[n].name := entries[n].content]
  }

  predicate IsDirName(name: string) {
    name != "" && name[|name| - 1] == '/'
  }

  function LowerHex(c: char): char {
    if 'A' <= c <= 'F' then c - 'A' + 'a' else c
  }

  // strings.EqualFold against a hash in hexadecimal form.
  predicate EqualFold(a: string, b: string) {
    |a| == |b| && forall i :: 0 <= i < |a| ==> LowerHex(a[i]) == LowerHex(b[i])
  }

  // The checks on one file of the manifest: its segments and content, or the error.
  function CheckItem(sha256: Sha256, byName: map<string, string>, item: BackupFile): Result<(seq<string>, string), ImportError> {
    if TrimSpace(item.archivePath) == "" || !(CONTENT <= item.archivePath) then Err(ArchivePathInvalid)
    else if item.archivePath !in byName || IsDirName(item.archivePath) then Err(FileMissing)
    else
      match CleanPathSegments(item.path, item.name)
      case Err(_) => Err(FilePathInvalid)
      case Ok(segments) =>
        var content := byName[item.archivePath];
        if |content| != item.size || !EqualFold(sha256(content), item.sha) then Err(ChecksumMismatch)
        else Ok((segments, content))
  }

  lemma ItemSegments(sha256: Sha256, byName: map<string, string>, item: BackupFile)
    requires CheckItem(sha256, byName, item).Ok?
    ensures CheckItem(sha256, byName, item).value.0 != [] && SegmentsOk(CheckItem(sha256, byName, item).value.0)
  {
    hide CleanPathSegments, TrimSpace, IsDirName, EqualFold;
    AcceptedPathIsFixed(item.path, item.name, "");
  }

  ghost function ImportCollections(a: Archive, folder: Id, collections: seq<string>): Result<Archive, ImportError>
    decreases |collections|
  {
    if collections == [] then Ok(a)
    else
      match CollectionSegments(collections[0])
      case Err(_) => Err(CollectionPathInvalid)
      case Ok(segments) => ImportCollections(MakePath(a, folder, segments), folder, collections[1..])
  }

  ghost function ImportFiles(a: Archive, sha256: Sha256, folder: Id, byName: map<string, string>, items: seq<BackupFile>): Result<Archive, ImportError>
    decreases |items|
  {
    if items == [] then Ok(a)
    else
      match CheckItem(sha256, byName, items[0])
      case Err(e) => Err(e)
      case Ok(item) =>
        if item.0 == [] then Err(FilePathInvalid)
        else ImportFiles(AddFile(a, sha256, folder, item.0, item.1), sha256, folder, byName, items[1..])
  }

  // The collections first, then the files.
  ghost function ImportRows(a: Archive, sha256: Sha256, folder: Id, m: Manifest, byName: map<string, string>): Result<Archive, ImportError> {
    var made := ImportCollections(a, folder, m.collections);
    if made.Err? then made else ImportFiles(made.value, sha256, folder, byName, m.files)
  }

  // importFolderBackup into the new folder.
  ghost function Import(a: Archive, sha256: Sha256, folder: Id, zip: Zip): Result<(Archive, FolderInfo), ImportError> {
    if zip.manifest.None? then Err(ManifestMissing)
    // A manifest that is cut short does not decode.
    else if zip.manifest.value.size > MANIFEST_LIMIT then Err(ManifestInvalid)
    else
      var m := zip.manifest.value.manifest;
      var policy := NormalizeFolderPolicy(m.folder.policy, NO_POLICY);
      if m.format != FORMAT || m.version != VERSION then Err(FormatUnsupported)
      else if RestoredFolderName(m.folder.name) == "" then Err(FolderNameInvalid)
      else if !PolicyOk(policy) then Err(PolicyInvalid)
      else
        match ImportRows(a, sha256, folder, m, ByName(zip.entries))
        case Err(e) => Err(e)
        case Ok(c) => Ok((c, FolderInfo(RestoredFolderName(m.folder.name), m.folder.description, policy)))
  }

  // --------------------------------------------------- what the loops come to

  ghost function MakeAll(a: Archive, folder: Id, paths: seq<seq<string>>): Archive
    decreases |paths|
  {
    if paths == [] then a else MakeAll(MakePath(a, folder, paths[0]), folder, paths[1..])
  }

  ghost predicate BelowOne(paths: seq<seq<string>>, path: seq<string>) {
    path != [] && exists i :: 0 <= i < |paths| && path <= paths[i]
  }

  predicate AllSegmentsOk(paths: seq<seq<string>>) {
    forall i :: 0 <= i < |paths| ==> SegmentsOk(paths[i])
  }

  lemma {:induction false} MakeAllEffect(a: Archive, sha256: Sha256, folder: Id, paths: seq<seq<string>>, where: Id, path: seq<string>, f: Id)
    requires ArchiveOk(a, sha256) && AllSegmentsOk(paths)
    ensures var b := MakeAll(a, folder, paths);
      && ArchiveOk(b, sha256) && b == a.(tree := b.tree)
      && (FileAt(b, where, path, f) <==> FileAt(a, where, path, f))
      && (HasDir(b.tree, where, path) <==> HasDir(a.tree, where, path) || (where == folder && BelowOne(paths, path)))
    decreases |paths|
  {
    hide SegmentsOk, ArchiveOk, TreeOk, FileAt, HasDir, MakePath;
    ArchiveHasTree(a, sha256);
    if paths != [] {
      var c := MakePath(a, folder, paths[0]);
      MakePathKeeps(a, sha256, folder, paths[0]);
      MakePathKeepsFiles(a, sha256, folder, paths[0], where, path, f);
      MakePathDirs(a, sha256, folder, paths[0], where, path);
      MakeAllEffect(c, sha256, folder, paths[1..], where, path, f);
      BelowOneSplits(paths, path);
    }
  }

  lemma BelowOneSplits(paths: seq<seq<string>>, path: seq<string>)
    requires paths != []
    ensures BelowOne(paths, path) <==> BelowOne(paths[1..], path) || (path != [] && path <= paths[0])
  {
    if path != [] {
      if path <= paths[0] {
        assert paths[0] == paths[0];
      }
      if i :| 0 <= i < |paths[1..]| && path <= paths[1..][i] {
        assert path <= paths[i + 1];
      }
      if i :| 0 <= i < |paths| && path <= paths[i] {
        assert i > 0 ==> paths[1..][i - 1] == paths[i];
      }
    }
  }

  lemma MakePathDirs(a: Archive, sha256: Sha256, folder: Id, segments: seq<string>, where: Id, path: seq<string>)
    requires ArchiveOk(a, sha256) && SegmentsOk(segments)
    ensures var b := MakePath(a, folder, segments);
      && TreeOk(b.tree) && b == a.(tree := b.tree)
      && (HasDir(b.tree, where, path) <==> HasDir(a.tree, where, path) || (where == folder && path != [] && path <= segments))
  {
    hide SegmentsOk, TreeOk, HasDir, EnsurePath, RowsOk, LeavesOk;
    EnsurePathMakesDirs(a.tree, folder, segments, where, path);
  }

  ghost function AddAll(a: Archive, sha256: Sha256, folder: Id, adds: seq<(seq<string>, string)>): Archive
    requires AddsOk(adds)
    decreases |adds|
  {
    if adds == [] then a else AddAll(AddFile(a, sha256, folder, adds[0].0, adds[0].1), sha256, folder, adds[1..])
  }

  predicate AddsOk(adds: seq<(seq<string>, string)>) {
    forall i :: 0 <= i < |adds| ==> adds[i].0 != [] && SegmentsOk(adds[i].0)
  }

  // The i-th addition is this file at this path.
  ghost predicate AddedAt(a: Archive, adds: seq<(seq<string>, string)>, path: seq<string>, f: Id) {
    a.nextFile <= f < a.nextFile + |adds| && adds[f - a.nextFile].0 == path
  }

  ghost predicate AboveOne(adds: seq<(seq<string>, string)>, path: seq<string>)
    requires AddsOk(adds)
  {
    path != [] && exists i :: 0 <= i < |adds| && path <= Parents(adds[i])
  }

  function Parents(add: (seq<string>, string)): seq<string>
    requires add.0 != []
  {
    add.0[..|add.0| - 1]
  }

  lemma {:induction false} AddAllEffect(a: Archive, sha256: Sha256, folder: Id, adds: seq<(seq<string>, string)>, where: Id, path: seq<string>, f: Id)
    requires ArchiveOk(a, sha256) && AddsOk(adds)
    ensures var b := AddAll(a, sha256, folder, adds);
      && ArchiveOk(b, sha256) && b.nextFile == a.nextFile + |adds|
      && (FileAt(b, where, path, f) <==> FileAt(a, where, path, f) || (where == folder && AddedAt(a, adds, path, f)))
      && (HasDir(b.tree, where, path) <==> HasDir(a.tree, where, path) || (where == folder && AboveOne(adds, path)))
    decreases |adds|
  {
    hide SegmentsOk, ArchiveOk, TreeOk, FileAt, HasDir, AddFile;
    ArchiveHasTree(a, sha256);
    if adds != [] {
      var c := AddFile(a, sha256, folder, adds[0].0, adds[0].1);
      AddFileEffect(a, sha256, folder, adds[0].0, adds[0].1, where, path, f);
      AddAllEffect(c, sha256, folder, adds[1..], where, path, f);
      AboveOneSplits(adds, path);
      AddedAtSplits(a, c, adds, path, f);
    }
  }

  lemma AddedAtSplits(a: Archive, c: Archive, adds: seq<(seq<string>, string)>, path: seq<string>, f: Id)
    requires adds != [] && c.nextFile == a.nextFile + 1
    ensures AddedAt(a, adds, path, f) <==> AddedAt(c, adds[1..], path, f) || (path == adds[0].0 && f == a.nextFile)
  {
    if f > a.nextFile && f < a.nextFile + |adds| {
      assert adds[1..][f - c.nextFile] == adds[f - a.nextFile];
    }
  }

  lemma AboveOneSplits(adds: seq<(seq<string>, string)>, path: seq<string>)
    requires adds != [] && AddsOk(adds)
    ensures AboveOne(adds, path) <==> AboveOne(adds[1..], path) || (path != [] && path <= Parents(adds[0]))
  {
    hide SegmentsOk;
    if path != [] {
      if path <= Parents(adds[0]) {
        assert adds[0] == adds[0];
      }
      if i :| 0 <= i < |adds[1..]| && path <= Parents(adds[1..][i]) {
        assert path <= Parents(adds[i + 1]);
      }
      if i :| 0 <= i < |adds| && path <= Parents(adds[i]) {
        assert i > 0 ==> adds[1..][i - 1] == adds[i];
      }
    }
  }

  // Each addition is stored as sent; the files before it are untouched.
  lemma {:induction false} AddAllContents(a: Archive, sha256: Sha256, folder: Id, adds: seq<(seq<string>, string)>, f: Id)
    requires ArchiveOk(a, sha256) && AddsOk(adds)
    ensures var b := AddAll(a, sha256, folder, adds);
      && (ActiveFile(a, f) ==> ActiveFile(b, f) && b.files[f] == a.files[f] && Content(b, sha256, f) == Content(a, sha256, f))
      && (a.nextFile <= f < a.nextFile + |adds| ==>
            ActiveFile(b, f) && RowHolds(b.files[f], sha256, folder, adds[f - a.nextFile])
            && Content(b, sha256, f) == Some(adds[f - a.nextFile].1))
    decreases |adds|
  {
    hide SegmentsOk, ArchiveOk, AddFile;
    if adds != [] {
      var c := AddFile(a, sha256, folder, adds[0].0, adds[0].1);
      AddFileEffect(a, sha256, folder, adds[0].0, adds[0].1, folder, [], 0);
      AddFileContents(a, sha256, folder, adds[0].0, adds[0].1, f);
      AddAllContents(c, sha256, folder, adds[1..], f);
      if a.nextFile < f < a.nextFile + |adds| {
        assert adds[1..][f - c.nextFile] == adds[f - a.nextFile];
      }
    }
  }

  predicate RowHolds(row: FileRow, sha256: Sha256, folder: Id, add: (seq<string>, string)) {
    && add.0 != [] && row.folder == folder && row.name == add.0[|add.0| - 1]
    && row.sha == sha256(add.1) && row.size == |add.1|
  }

  // Importing succeeds exactly if every file passes its checks, and then adds them all.
  lemma {:induction false} ImportFilesIsAddAll(a: Archive, sha256: Sha256, folder: Id, byName: map<string, string>, items: seq<BackupFile>,
                                               adds: seq<(seq<string>, string)>)
    requires |adds| == |items| && AddsOk(adds)
    requires forall i :: 0 <= i < |items| ==> CheckItem(sha256, byName, items[i]) == Ok(adds[i])
    ensures ImportFiles(a, sha256, folder, byName, items) == Ok(AddAll(a, sha256, folder, adds))
    decreases |items|
  {
    hide CheckItem, AddFile, SegmentsOk;
    if items != [] {
      ImportFilesIsAddAll(AddFile(a, sha256, folder, adds[0].0, adds[0].1), sha256, folder, byName, items[1..], adds[1..]);
    }
  }

  lemma {:induction false} ImportFilesFails(a: Archive, sha256: Sha256, folder: Id, byName: map<string, string>, items: seq<BackupFile>, i: nat)
    requires i < |items| && CheckItem(sha256, byName, items[i]).Err?
    ensures ImportFiles(a, sha256, folder, byName, items).Err?
    decreases |items|
  {
    hide CheckItem, AddFile;
    if i > 0 {
      var r := CheckItem(sha256, byName, items[0]);
      if r.Ok? && r.value.0 != [] {
        ImportFilesFails(AddFile(a, sha256, folder, r.value.0, r.value.1), sha256, folder, byName, items[1..], i - 1);
      }
    }
  }

  lemma {:induction false} ImportCollectionsIsMakeAll(a: Archive, folder: Id, collections: seq<string>, paths: seq<seq<string>>)
    requires |paths| == |collections|
    requires forall i :: 0 <= i < |collections| ==> CollectionSegments(collections[i]) == Ok(paths[i])
    ensures ImportCollections(a, folder, collections) == Ok(MakeAll(a, folder, paths))
    decreases |collections|
  {
    hide CollectionSegments, MakePath;
    if collections != [] {
      ImportCollectionsIsMakeAll(MakePath(a, folder, paths[0]), folder, collections[1..], paths[1..]);
    }
  }

  lemma {:induction false} ImportCollectionsFails(a: Archive, folder: Id, collections: seq<string>, i: nat)
    requires i < |collections| && CollectionSegments(collections[i]).Err?
    ensures ImportCollections(a, folder, collections).Err?
    decreases |collections|
  {
    hide CollectionSegments, MakePath;
    if i > 0 {
      var r := CollectionSegments(collections[0]);
      if r.Ok? {
        ImportCollectionsFails(MakePath(a, folder, r.value), folder, collections[1..], i - 1);
      }
    }
  }

  // ------------------------------------------------------- finding the entries

  predicate LastNamed(entries: seq<ZipEntry>, k: nat) {
    k < |entries| && forall j :: k < j < |entries| ==> entries[j].name != entries[k].name
  }

  lemma {:induction false} ByNameFinds(entries: seq<ZipEntry>, k: nat)
    requires LastNamed(entries, k)
    ensures entries[k].name in ByName(entries) && ByName(entries)[entries[k].name] == entries[k].content
  {
    var n := |entries| - 1;
    if k < n {
      var init := entries[..n];
      assert init[k] == entries[k];
      assert forall j :: k < j < n ==> init[j] == entries[j];
      ByNameFinds(init, k);
    }
  }

  // The display paths of an export: clean, and each its own.
  lemma ShownPaths(a: Archive, sha256: Sha256, folder: Id, files: seq<File>, i: nat)
    requires ArchiveOk(a, sha256) && IsListing(a, folder, files) && i < |files|
    ensures var shown := DisplayPaths(files);
      && files[i].id in shown && CleanPath(shown[files[i].id])
      && FileItem(files[i], shown) == BackupFile(shown[files[i].id], files[i].name, CONTENT + shown[files[i].id], files[i].size, files[i].sha)
  {
    hide ArchiveOk, TreeOk, Listed, CleanPath, DisplayPaths, BackupArchivePath;
    ArchiveHasTree(a, sha256);
    ListingIsClean(a, sha256, folder, files);
    DisplayPathIsClean(files, i);
    ArchivePathOfClean(DisplayPaths(files)[files[i].id], files[i].path, files[i].name);
  }

  lemma ContentOfListed(a: Archive, sha256: Sha256, folder: Id, files: seq<File>, i: nat)
    requires ArchiveOk(a, sha256) && IsListing(a, folder, files) && i < |files|
    ensures var c := Content(a, sha256, files[i].id);
      c.Some? && |c.value| == files[i].size && sha256(c.value) == files[i].sha && ActiveFile(a, files[i].id)
  {
    hide RowsOk, LeavesOk, TreeOk, DisplayPaths;
    assert Listed(a, folder, files[i]);
    ContentIsStored(a, sha256, files[i].id) by { hide *; }
  }
}
