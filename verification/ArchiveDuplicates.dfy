/** Folders that store a path twice: how they come about, and what reading them gives. */
module ArchiveDuplicates {
  import opened Base
  import opened Text
  import opened EntryTree
  import opened DavNames
  import opened ArchiveModel
  import opened ArchiveReads

  // An upload never replaces: stored paths stay distinct exactly if its path was free.
  lemma UploadKeepsDistinctIff(a: Archive, sha256: Sha256, folder: Id, segments: seq<string>, content: string)
    requires ArchiveOk(a, sha256) && DistinctPaths(a, folder) && segments != [] && SegmentsOk(segments)
    ensures var b := AddFile(a, sha256, folder, segments, content);
      TreeOk(b.tree) && (DistinctPaths(b, folder) <==> !exists f: Id :: FileAt(a, folder, segments, f))
  {
    hide ArchiveOk, FileAt, TreeOk, SegmentsOk, DistinctPaths;
    AddIsPut(a, sha256, folder, segments, content);
    BlindPutKeepsDistinctIff(a, sha256, folder, segments, content);
  }

  // -------------------------------------------------- one path, uploaded again and again

  const HOME: Id := 1

  // Every content is uploaded to folder HOME as "a".
  ghost function Uploads(sha256: Sha256, contents: seq<string>): Archive {
    if contents == [] then NO_FILES
    else AddFile(Uploads(sha256, contents[..|contents| - 1]), sha256, HOME, ["a"], contents[|contents| - 1])
  }

  function UploadedRows(sha256: Sha256, contents: seq<string>): seq<File> {
    seq(|contents|, i requires 0 <= i < |contents| => File(i, "a", "a", sha256(contents[i]), |contents[i]|))
  }

  // What the tables hold then.
  ghost predicate HoldsUploads(a: Archive, sha256: Sha256, contents: seq<string>) {
    && a.tree.next == a.nextFile == a.nextObject == |contents|
    && (forall i: Id :: i in a.tree.entries <==> i < |contents|)
    && (forall i: Id :: i in a.files <==> i < |contents|)
    && (forall i: Id :: i < |contents| ==> a.tree.entries[i] == Entry(HOME, None, Leaf(i), "a"))
    && (forall i: Id :: i < |contents| ==> a.files[i] == FileRow(HOME, i, "a", sha256(contents[i]), |contents[i]|, true))
  }

  lemma AIsSegment()
    ensures SegmentOk("a") && SegmentsOk(["a"]) && Join(["a"]) == "a"
  {
  }

  lemma UploadAtRoot(a: Archive, sha256: Sha256, content: string)
    ensures AddFile(a, sha256, HOME, ["a"], content) == InsertFile(a, sha256, HOME, None, "a", content)
  {
    hide InsertFile;
    assert ["a"][..0] == [];
  }

  lemma {:induction false} UploadsAreThere(sha256: Sha256, contents: seq<string>)
    ensures ArchiveOk(Uploads(sha256, contents), sha256) && HoldsUploads(Uploads(sha256, contents), sha256, contents)
  {
    hide ArchiveOk, HoldsUploads, SegmentOk, AddFile;
    if contents == [] {
      EmptyIsOk(sha256);
      NothingUploaded(sha256);
    } else {
      var init, last := contents[..|contents| - 1], contents[|contents| - 1];
      UploadsAreThere(sha256, init);
      AIsSegment();
      AddFileEffect(Uploads(sha256, init), sha256, HOME, ["a"], last, HOME, [], 0);
      UploadAtRoot(Uploads(sha256, init), sha256, last);
      OneMoreUpload(Uploads(sha256, init), sha256, init, last);
      assert init + [last] == contents;
    }
  }

  lemma NothingUploaded(sha256: Sha256)
    ensures HoldsUploads(NO_FILES, sha256, [])
  {
  }

  lemma OneMoreUpload(a: Archive, sha256: Sha256, contents: seq<string>, content: string)
    requires HoldsUploads(a, sha256, contents)
    ensures HoldsUploads(InsertFile(a, sha256, HOME, None, "a", content), sha256, contents + [content])
  {
  }

  // All uploads are listed, each under the same path.
  lemma UploadsAreListed(sha256: Sha256, contents: seq<string>)
    ensures var a := Uploads(sha256, contents);
      && TreeOk(a.tree) && IsListing(a, HOME, UploadedRows(sha256, contents))
      && (forall i :: 0 <= i < |contents| ==> InFolder(a, HOME, i) && FileAt(a, HOME, ["a"], i))
  {
    hide SegmentOk, EntryOk, Siblings, RowsOk, LeavesOk, Uploads, FileAt;
    var a, files := Uploads(sha256, contents), UploadedRows(sha256, contents);
    UploadsAreThere(sha256, contents);
    forall i | 0 <= i < |contents| ensures InFolder(a, HOME, i) && FileAt(a, HOME, ["a"], i) && Listed(a, HOME, files[i]) {
      assert i in a.tree.entries;
      UploadIsListed(a, sha256, contents, i);
    }
    forall f: Id | InFolder(a, HOME, f) ensures HasId(files, f) {
      assert files[f].id == f;
    }
  }

  lemma UploadIsListed(a: Archive, sha256: Sha256, contents: seq<string>, i: nat)
    requires TreeOk(a.tree) && HoldsUploads(a, sha256, contents) && i < |contents| && i in a.tree.entries
    ensures InFolder(a, HOME, i) && FileAt(a, HOME, ["a"], i) && Listed(a, HOME, UploadedRows(sha256, contents)[i])
  {
    hide SegmentOk, EntryOk, Siblings;
    PathUnfolds(a.tree, i);
    assert [] + ["a"] == ["a"];
    AIsSegment();
    assert i in a.files;
    assert LeafAt(a, HOME, ["a"], i, i);
    assert IsRow(a, HOME, UploadedRows(sha256, contents)[i], i);
  }

  // The first file of a listing is shown as it is stored.
  lemma {:induction false} FirstIsShown(files: seq<File>)
    requires files != [] && DistinctIds(files) && CleanPath(files[0].path)
    ensures files[0].id in DisplayPaths(files) && DisplayPaths(files)[files[0].id] == files[0].path
  {
    hide SlotOf, Candidate, CleanPath;
    var n := |files| - 1;
    if n > 0 {
      FirstIsShown(files[..n]);
    } else {
      assert files[..0] == [];
      FirstCandidateIsPath(files[0]);
      LeastIsFreeFrom(SlotOf(files[0]), {}, 0);
      assert DisplayPaths(files[..0]).Values == {};
    }
  }

  lemma AIsClean()
    ensures CleanPath("a") && TrimSlashes("a") == "a"
  {
    AIsSegment();
    JoinedIsClean(["a"]);
    CleanPathIsStable("a");
  }

  lemma FirstIsFound(files: seq<File>)
    requires files != [] && DistinctIds(files) && files[0].path == "a"
    ensures FindFile(files, DisplayPaths(files), "a") == Some(files[0])
  {
    hide DisplayPaths, CleanPath, TrimSlashes;
    AIsClean();
    FirstIsShown(files);
  }

  // ---------------------------------------------------------------------- witnesses

  /** A PUT whose lookup fails, onto a stored path, stores the path twice. */
  lemma BlindPutStoresTwice(sha256: Sha256)
    ensures var a := Uploads(sha256, ["x"]);
      var b := PutFile(a, sha256, HOME, ["a"], None, "y");
      && TreeOk(a.tree) && DistinctPaths(a, HOME) && TreeOk(b.tree) && !DistinctPaths(b, HOME)
      && FileAt(b, HOME, ["a"], 0) && FileAt(b, HOME, ["a"], 1)
  {
    hide ArchiveOk, TreeOk, FileAt, DistinctPaths, HoldsUploads, PutFile, Uploads;
    var a := Uploads(sha256, ["x"]);
    AIsSegment();
    UploadsAreThere(sha256, ["x"]);
    UploadsAreListed(sha256, ["x"]);
    assert FileAt(a, HOME, ["a"], 0);
    OneUploadIsDistinct(sha256);
    assert a.nextFile == 1 by { HeldFiles(a, sha256, ["x"]); }
    BlindPutKeepsDistinctIff(a, sha256, HOME, ["a"], "y");
    PutFileEffect(a, sha256, HOME, ["a"], None, "y", HOME, ["a"], 0);
    PutFileEffect(a, sha256, HOME, ["a"], None, "y", HOME, ["a"], 1);
  }

  lemma HeldFiles(a: Archive, sha256: Sha256, contents: seq<string>)
    requires HoldsUploads(a, sha256, contents)
    ensures a.nextFile == |contents| && forall f: Id :: ActiveFile(a, f) <==> f < |contents|
    ensures forall f: Id :: f < |contents| ==> f in a.files && a.files[f] == FileRow(HOME, f, "a", sha256(contents[f]), |contents[f]|, true)
  {
  }

  lemma OneUploadIsDistinct(sha256: Sha256)
    ensures var a := Uploads(sha256, ["x"]); TreeOk(a.tree) && DistinctPaths(a, HOME)
  {
    hide TreeOk, FileAt, HoldsUploads, RowsOk, LeavesOk, Uploads;
    var a := Uploads(sha256, ["x"]);
    UploadsAreThere(sha256, ["x"]);
    HeldFiles(a, sha256, ["x"]);
    forall path, f: Id, g: Id ensures SamePath(a, HOME, path, f, g) {
      if FileAt(a, HOME, path, f) && FileAt(a, HOME, path, g) {
        FileAtIsActive(a, sha256, HOME, path, f);
        FileAtIsActive(a, sha256, HOME, path, g);
      }
    }
  }

  // The folder's listing after the PUT below, as the query may order it.
  function LeftRows(sha256: Sha256): seq<File> {
    [File(1, "a", "a", sha256("y"), 1), File(2, "a", "a", sha256("z"), 1)]
  }

  /** With a path stored twice, a PUT replaces the first file shown under it. The next GET of that
      path reads the other one, not what was sent. */
  lemma PutReadsBackAnother(sha256: Sha256)
    ensures var a, files := Uploads(sha256, ["x", "y"]), UploadedRows(sha256, ["x", "y"]);
      var b := PutFile(a, sha256, HOME, ["a"], Replaced(files, "a"), "z");
      && TreeOk(a.tree) && IsListing(a, HOME, files) && Replaced(files, "a") == Some(0)
      && TreeOk(b.tree) && IsListing(b, HOME, LeftRows(sha256))
      && Get(b, sha256, LeftRows(sha256), "a") == Some("y")
  {
    hide ArchiveOk, TreeOk, FileAt, IsListing, PutFile, Uploads, DisplayPaths, FindFile, Content;
    var a, files := Uploads(sha256, ["x", "y"]), UploadedRows(sha256, ["x", "y"]);
    UploadsAreThere(sha256, ["x", "y"]);
    UploadsAreListed(sha256, ["x", "y"]);
    FirstIsFound(files);
    assert Replaced(files, "a") == Some(0);
    LeftIsListed(sha256);
    FirstIsFound(LeftRows(sha256));
  }

  lemma LeftIsListed(sha256: Sha256)
    ensures var b := PutFile(Uploads(sha256, ["x", "y"]), sha256, HOME, ["a"], Some(0), "z");
      && TreeOk(b.tree) && IsListing(b, HOME, LeftRows(sha256)) && Content(b, sha256, 1) == Some("y")
  {
    hide ArchiveOk, TreeOk, FileAt, Listed, PutFile, Uploads, Content, HoldsUploads;
    var a := Uploads(sha256, ["x", "y"]);
    var b := PutFile(a, sha256, HOME, ["a"], Some(0), "z");
    UploadsAreThere(sha256, ["x", "y"]);
    UploadsAreListed(sha256, ["x", "y"]);
    HeldFiles(a, sha256, ["x", "y"]);
    AIsSegment();
    PutFileEffect(a, sha256, HOME, ["a"], Some(0), "z", HOME, ["a"], 1);
    PutFileEffect(a, sha256, HOME, ["a"], Some(0), "z", HOME, ["a"], 2);
    ArchiveHasTree(b, sha256);
    forall f: Id ensures ActiveFile(b, f) <==> f == 1 || f == 2 {
      PutFileContents(a, sha256, HOME, ["a"], Some(0), "z", f);
    }
    PutFileContents(a, sha256, HOME, ["a"], Some(0), "z", 1);
    PutFileContents(a, sha256, HOME, ["a"], Some(0), "z", 2);
    RowIsListed(b, sha256, HOME, ["a"], LeftRows(sha256)[0]);
    RowIsListed(b, sha256, HOME, ["a"], LeftRows(sha256)[1]);
    forall f: Id | InFolder(b, HOME, f) ensures HasId(LeftRows(sha256), f) {
      assert LeftRows(sha256)[f - 1].id == f;
    }
    OldContent(a, sha256, HOME, ["a"], Some(0), "z", 1);
    UploadedContent(sha256);
  }

  lemma UploadedContent(sha256: Sha256)
    ensures Content(Uploads(sha256, ["x", "y"]), sha256, 1) == Some("y")
  {
    hide ArchiveOk, AddFile, HoldsUploads;
    var first := Uploads(sha256, ["x"]);
    assert ["x", "y"][..1] == ["x"];
    UploadsAreThere(sha256, ["x"]);
    HeldFiles(first, sha256, ["x"]);
    AddFileContents(first, sha256, HOME, ["a"], "y", 1);
  }
}
