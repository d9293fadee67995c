/** Whole runs of the archive: any sequence of uploads, PUTs, MKCOLs, deletions and imports, each of
    which may fail, from an empty archive. */
module ArchiveRuns {
  import opened Base
  import opened Text
  import opened EntryTree
  import opened DavNames
  import opened ArchiveModel
  import opened ArchiveReads
  import opened UploadPaths
  import opened Backup

  // A PUT carries the listing its lookup found; None if the lookup failed.
  datatype Request =
    | Upload(folder: Id, relativePath: string, fileName: string, content: string)
    | Put(folder: Id, parts: seq<string>, lookup: Option<seq<File>>, content: string)
    | Mkcol(folder: Id, parts: seq<string>)
    | DeleteFile(file: Id)
    | DeleteFolder(folder: Id)
    | ImportBackup(folder: Id, zip: Zip)

  // `done` says whether folder, storage and database let the request through.
  datatype Attempt = Attempt(request: Request, done: bool)

  // A lookup shows the folder as it is.
  ghost predicate Looks(a: Archive, folder: Id, lookup: Option<seq<File>>) {
    lookup.Some? ==> TreeOk(a.tree) && IsListing(a, folder, lookup.value)
  }

  ghost function Step(a: Archive, sha256: Sha256, x: Attempt): Archive {
    if !x.done then a
    else
      match x.request
      case Upload(folder, relativePath, fileName, content) =>
        var segments := CleanPathSegments(relativePath, fileName);
        if segments.Err? || segments.value == [] then a else AddFile(a, sha256, folder, segments.value, content)
      case Put(folder, parts, lookup, content) =>
        if parts == [] || !SegmentsOk(parts) || !Looks(a, folder, lookup) then a
        else PutFile(a, sha256, folder, parts, if lookup.None? then None else Replaced(lookup.value, Join(parts)), content)
      case Mkcol(folder, parts) => if SegmentsOk(parts) then MakePath(a, folder, parts) else a
      case DeleteFile(file) => RemoveFile(a, file)
      case DeleteFolder(folder) => RemoveFolder(a, folder)
      case ImportBackup(folder, zip) =>
        var r := Import(a, sha256, folder, zip);
        if r.Err? then a else r.value.0
  }

  lemma UploadStep(a: Archive, sha256: Sha256, folder: Id, relativePath: string, fileName: string, content: string)
    requires CleanPathSegments(relativePath, fileName).Ok? && CleanPathSegments(relativePath, fileName).value != []
    ensures Step(a, sha256, Attempt(Upload(folder, relativePath, fileName, content), true))
         == AddFile(a, sha256, folder, CleanPathSegments(relativePath, fileName).value, content)
  {
    hide AddFile;
  }

  lemma LookupLooks(a: Archive, folder: Id, listed: seq<File>, lookedUp: bool)
    requires lookedUp ==> TreeOk(a.tree) && IsListing(a, folder, listed)
    ensures Looks(a, folder, if lookedUp then Some(listed) else None)
  {
  }

  lemma PutStep(a: Archive, sha256: Sha256, folder: Id, parts: seq<string>, lookup: Option<seq<File>>, content: string)
    requires parts != [] && SegmentsOk(parts) && Looks(a, folder, lookup)
    ensures Step(a, sha256, Attempt(Put(folder, parts, lookup, content), true))
         == PutFile(a, sha256, folder, parts, if lookup.None? then None else Replaced(lookup.value, Join(parts)), content)
  {
    hide PutFile, Looks, Replaced;
  }

  ghost function Run(a: Archive, sha256: Sha256, steps: seq<Attempt>): Archive {
    if steps == [] then a else Step(Run(a, sha256, steps[..|steps| - 1]), sha256, steps[|steps| - 1])
  }

  // ------------------------------------------------------- what never changes

  // Rows stay and are at most marked deleted; what a file still active holds is untouched, and no
  // deleted file comes back.
  predicate Onward(a: Archive, b: Archive, sha256: Sha256, f: Id) {
    && a.nextFile <= b.nextFile
    && (f in a.files ==> f in b.files && (b.files[f] == a.files[f] || b.files[f] == a.files[f].(active := false)))
    && (f < a.nextFile && ActiveFile(b, f) ==> ActiveFile(a, f) && Content(b, sha256, f) == Content(a, sha256, f))
  }

  lemma OnwardComposes(a: Archive, b: Archive, c: Archive, sha256: Sha256, f: Id)
    requires Onward(a, b, sha256, f) && Onward(b, c, sha256, f)
    ensures Onward(a, c, sha256, f)
  {
    hide Content;
  }

  lemma TreeIsOnward(a: Archive, t: Tree, sha256: Sha256, f: Id)
    ensures Onward(a, a.(tree := t), sha256, f)
  {
  }

  lemma InsertIsOnward(a: Archive, sha256: Sha256, folder: Id, parent: Option<Id>, name: string, content: string, f: Id)
    requires RowsOk(a, sha256)
    ensures Onward(a, InsertFile(a, sha256, folder, parent, name, content), sha256, f)
  {
    assert FileOk(a, sha256, f);
  }

  lemma RemoveIsOnward(a: Archive, sha256: Sha256, gone: Id, f: Id)
    requires RowsOk(a, sha256)
    ensures Onward(a, RemoveFile(a, gone), sha256, f)
  {
    assert OwnObject(a, f, gone);
  }

  lemma RemoveFolderIsOnward(a: Archive, sha256: Sha256, folder: Id, f: Id)
    requires RowsOk(a, sha256)
    ensures Onward(a, RemoveFolder(a, folder), sha256, f)
  {
    forall g | g in a.files && InFolder(a, folder, g) ensures OwnObject(a, f, g) {
    }
  }

  lemma PutIsOnward(a: Archive, sha256: Sha256, folder: Id, segments: seq<string>, replaced: Option<Id>, content: string, f: Id)
    requires RowsOk(a, sha256) && segments != []
    ensures Onward(a, PutFile(a, sha256, folder, segments, replaced, content), sha256, f)
  {
    hide Onward, EnsurePath, RowsOk, InsertFile, RemoveFile;
    var n := |segments| - 1;
    var (t, parent) := EnsurePath(a.tree, folder, segments[..n]);
    var b := a.(tree := t);
    var c := if replaced.None? then b else RemoveFile(b, replaced.value);
    MakePathKeepsRows(a, b, sha256);
    TreeIsOnward(a, t, sha256, f);
    if replaced.Some? {
      RemoveIsOnward(b, sha256, replaced.value, f);
      if ActiveFile(b, replaced.value) {
        RemoveFileKeepsRows(b, sha256, replaced.value);
      } else {
        NothingRemoved(b, replaced.value);
      }
      OnwardComposes(a, b, c, sha256, f);
    }
    InsertIsOnward(c, sha256, folder, parent, segments[n], content, f);
    OnwardComposes(a, c, PutFile(a, sha256, folder, segments, replaced, content), sha256, f);
  }

  lemma NothingRemoved(a: Archive, f: Id)
    requires !ActiveFile(a, f)
    ensures RemoveFile(a, f) == a
  {
  }

  // -------------------------------------------------------------- each request

  lemma AddKeeps(a: Archive, sha256: Sha256, folder: Id, segments: seq<string>, content: string, f: Id)
    requires ArchiveOk(a, sha256) && segments != [] && SegmentsOk(segments)
    ensures var b := AddFile(a, sha256, folder, segments, content);
      ArchiveOk(b, sha256) && Onward(a, b, sha256, f) && (ActiveFile(a, f) ==> ActiveFile(b, f))
  {
    hide RowsOk, TreeOk, LeavesOk, AddFile, PutFile, Onward, SegmentsOk;
    AddFileEffect(a, sha256, folder, segments, content, folder, segments, 0);
    AddIsPut(a, sha256, folder, segments, content);
    PutIsOnward(a, sha256, folder, segments, None, content, f);
    PutFileContents(a, sha256, folder, segments, None, content, f);
  }

  lemma {:induction false} ImportCollectionsKeeps(a: Archive, sha256: Sha256, folder: Id, collections: seq<string>, f: Id)
    requires ArchiveOk(a, sha256)
    ensures var r := ImportCollections(a, folder, collections);
      r.Ok? ==> ArchiveOk(r.value, sha256) && Onward(a, r.value, sha256, f) && (ActiveFile(a, f) ==> ActiveFile(r.value, f))
    decreases |collections|
  {
    hide ArchiveOk, SegmentsOk, CollectionSegments, EnsurePath, Content;
    if collections != [] && CollectionSegments(collections[0]).Ok? {
      var segments := CollectionSegments(collections[0]).value;
      CollectionIsClean(collections[0]);
      MakePathKeeps(a, sha256, folder, segments);
      var b := MakePath(a, folder, segments);
      TreeIsOnward(a, b.tree, sha256, f);
      ImportCollectionsKeeps(b, sha256, folder, collections[1..], f);
    }
  }

  lemma {:induction false} ImportFilesKeeps(a: Archive, sha256: Sha256, folder: Id, byName: map<string, string>, items: seq<BackupFile>, f: Id)
    requires ArchiveOk(a, sha256)
    ensures var r := ImportFiles(a, sha256, folder, byName, items);
      r.Ok? ==> ArchiveOk(r.value, sha256) && Onward(a, r.value, sha256, f) && (ActiveFile(a, f) ==> ActiveFile(r.value, f))
    decreases |items|
  {
    hide ArchiveOk, SegmentsOk, CheckItem, AddFile, Onward;
    if items == [] {
      TreeIsOnward(a, a.tree, sha256, f);
    } else if CheckItem(sha256, byName, items[0]).Ok? {
      var item := CheckItem(sha256, byName, items[0]).value;
      ItemSegments(sha256, byName, items[0]);
      var b := AddFile(a, sha256, folder, item.0, item.1);
      AddKeeps(a, sha256, folder, item.0, item.1, f);
      ImportFilesKeeps(b, sha256, folder, byName, items[1..], f);
      if ImportFiles(b, sha256, folder, byName, items[1..]).Ok? {
        OnwardComposes(a, b, ImportFiles(b, sha256, folder, byName, items[1..]).value, sha256, f);
      }
    }
  }

  lemma ImportKeeps(a: Archive, sha256: Sha256, folder: Id, zip: Zip, f: Id)
    requires ArchiveOk(a, sha256)
    ensures var r := Import(a, sha256, folder, zip);
      r.Ok? ==> ArchiveOk(r.value.0, sha256) && Onward(a, r.value.0, sha256, f) && (ActiveFile(a, f) ==> ActiveFile(r.value.0, f))
  {
    hide ArchiveOk, ImportCollections, ImportFiles, ByName, Onward;
    if zip.manifest.Some? {
      var m := zip.manifest.value.manifest;
      ImportCollectionsKeeps(a, sha256, folder, m.collections, f);
      var made := ImportCollections(a, folder, m.collections);
      if made.Ok? {
        ImportFilesKeeps(made.value, sha256, folder, ByName(zip.entries), m.files, f);
        var all := ImportFiles(made.value, sha256, folder, ByName(zip.entries), m.files);
        if all.Ok? {
          OnwardComposes(a, made.value, all.value, sha256, f);
        }
      }
    }
  }

  lemma PutKeeps(a: Archive, sha256: Sha256, folder: Id, parts: seq<string>, lookup: Option<seq<File>>, content: string, f: Id)
    requires ArchiveOk(a, sha256) && parts != [] && SegmentsOk(parts) && Looks(a, folder, lookup)
    ensures var b := PutFile(a, sha256, folder, parts, if lookup.None? then None else Replaced(lookup.value, Join(parts)), content);
      ArchiveOk(b, sha256) && Onward(a, b, sha256, f)
  {
    hide RowsOk, TreeOk, LeavesOk, PutFile, Onward, SegmentsOk, IsListing, Replaced, Join;
    var replaced := if lookup.None? then None else Replaced(lookup.value, Join(parts));
    if lookup.Some? {
      ReplacedIsActive(a, sha256, folder, lookup.value, parts);
    }
    PutFileEffect(a, sha256, folder, parts, replaced, content, folder, parts, 0);
    PutIsOnward(a, sha256, folder, parts, replaced, content, f);
  }

  lemma StepKeeps(a: Archive, sha256: Sha256, x: Attempt, f: Id)
    requires ArchiveOk(a, sha256)
    ensures ArchiveOk(Step(a, sha256, x), sha256) && Onward(a, Step(a, sha256, x), sha256, f)
  {
    hide RowsOk, TreeOk, LeavesOk, AddFile, PutFile, EnsurePath, RemoveFile, RemoveFolder, Import, Onward, SegmentsOk, IsListing, Replaced, Join,
         CleanPathSegments;
    TreeIsOnward(a, a.tree, sha256, f);
    if x.done {
      match x.request {
        case Upload(folder, relativePath, fileName, content) =>
          if CleanPathSegments(relativePath, fileName).Ok? {
            AcceptedPathIsFixed(relativePath, fileName, "");
            AddKeeps(a, sha256, folder, CleanPathSegments(relativePath, fileName).value, content, f);
          }
        case Put(folder, parts, lookup, content) =>
          if parts != [] && SegmentsOk(parts) && Looks(a, folder, lookup) {
            PutKeeps(a, sha256, folder, parts, lookup, content, f);
          }
        case Mkcol(folder, parts) =>
          if SegmentsOk(parts) {
            MakePathKeeps(a, sha256, folder, parts);
            TreeIsOnward(a, MakePath(a, folder, parts).tree, sha256, f);
          }
        case DeleteFile(file) =>
          RemoveFileKeeps(a, sha256, file);
          RemoveIsOnward(a, sha256, file, f);
        case DeleteFolder(folder) =>
          RemoveFolderKeeps(a, sha256, folder);
          RemoveFolderIsOnward(a, sha256, folder, f);
        case ImportBackup(folder, zip) => ImportKeeps(a, sha256, folder, zip, f);
      }
    }
  }

  // --------------------------------------------------------------------- runs

  lemma {:induction false} RunKeepsArchive(a: Archive, sha256: Sha256, steps: seq<Attempt>, f: Id)
    requires ArchiveOk(a, sha256)
    ensures ArchiveOk(Run(a, sha256, steps), sha256) && Onward(a, Run(a, sha256, steps), sha256, f)
  {
    hide ArchiveOk, Step, Onward;
    if steps == [] {
      TreeIsOnward(a, a.tree, sha256, f);
    } else {
      var before := Run(a, sha256, steps[..|steps| - 1]);
      RunKeepsArchive(a, sha256, steps[..|steps| - 1], f);
      StepKeeps(before, sha256, steps[|steps| - 1], f);
      OnwardComposes(a, before, Run(a, sha256, steps), sha256, f);
    }
  }

  /** In every state of every run the archive is in order: files, entries and objects belong
      together, and the stored object ids are exactly those of the active files. */
  lemma RunsStoreWhatIsActive(sha256: Sha256, steps: seq<Attempt>, blob: Id)
    ensures var a := Run(NO_FILES, sha256, steps);
      ArchiveOk(a, sha256) && (blob in a.objects <==> exists f: Id :: Stores(a, f, blob))
  {
    hide TreeOk, LeavesOk, Run;
    EmptyIsOk(sha256);
    RunKeepsArchive(NO_FILES, sha256, steps, 0);
    var a := Run(NO_FILES, sha256, steps);
    ObjectsAreThoseOfActiveFiles(a, sha256, blob);
  }

  /** Whatever follows, a file that is still active holds what it held, and one that was deleted
      stays so: its id is not used again. */
  lemma RunsKeepContents(sha256: Sha256, steps: seq<Attempt>, more: seq<Attempt>, f: Id)
    ensures var a := Run(NO_FILES, sha256, steps);
      var b := Run(a, sha256, more);
      && (f in a.files ==> f in b.files && b.files[f].sha == a.files[f].sha && b.files[f].name == a.files[f].name && b.files[f].folder == a.files[f].folder)
      && (f in a.files && ActiveFile(b, f) ==> ActiveFile(a, f) && Content(a, sha256, f).Some? && Content(b, sha256, f) == Content(a, sha256, f))
  {
    hide TreeOk, LeavesOk, Run, Content;
    EmptyIsOk(sha256);
    RunKeepsArchive(NO_FILES, sha256, steps, f);
    var a := Run(NO_FILES, sha256, steps);
    RunKeepsArchive(a, sha256, more, f);
    assert FileOk(a, sha256, f);
    if ActiveFile(a, f) {
      ContentIsStored(a, sha256, f);
    }
  }
}
