/** What deleting a file, or a whole folder, takes from the archive, and what it leaves. */
module ArchiveRemovals {
  import opened Base
  import opened Text
  import opened EntryTree
  import opened ArchiveModel

  // A file keeps its row and its bytes.
  predicate SameFile(a: Archive, b: Archive, f: Id) {
    && f in a.files && f in b.files && b.files[f] == a.files[f]
    && a.files[f].blob in a.objects && a.files[f].blob in b.objects && b.objects[a.files[f].blob] == a.objects[a.files[f].blob]
  }

  // Every path leads where it led before, except to rows that are gone.
  lemma FewerRowsSamePaths(a: Archive, b: Archive, where: Id, path: seq<string>, f: Id, e: Id)
    requires TreeOk(a.tree) && TreeOk(b.tree)
    requires forall x: Id :: x in b.tree.entries ==> x in a.tree.entries && b.tree.entries[x] == a.tree.entries[x]
    ensures e in b.tree.entries ==> (LeafAt(b, where, path, f, e) <==> LeafAt(a, where, path, f, e))
    ensures e in b.tree.entries ==> (DirAt(b.tree, where, path, e) <==> DirAt(a.tree, where, path, e))
  {
    hide SegmentOk, EntryOk, Siblings, Path;
    if e in b.tree.entries {
      DroppingKeepsPaths(a.tree, b.tree, e);
    }
  }

  /** Deleting a file takes that file from its path and its bytes from the store. Every other file
      stays at its path, with its row and its bytes, and every directory stays. */
  lemma RemoveFileEffect(a: Archive, sha256: Sha256, gone: Id, where: Id, path: seq<string>, f: Id)
    requires ArchiveOk(a, sha256) && ActiveFile(a, gone)
    ensures var b := RemoveFile(a, gone);
      && ArchiveOk(b, sha256)
      && (FileAt(b, where, path, f) <==> FileAt(a, where, path, f) && f != gone)
      && (HasDir(b.tree, where, path) <==> HasDir(a.tree, where, path))
      && (ActiveFile(b, f) <==> ActiveFile(a, f) && f != gone)
      && (ActiveFile(a, f) && f != gone ==> SameFile(a, b, f))
      && a.files[gone].blob !in b.objects
  {
    hide SegmentOk, EntryOk, Siblings, TreeOk, LeavesOk, FileAt, HasDir, OneLeaf, Path;
    var b := RemoveFile(a, gone);
    RemoveFileKeeps(a, sha256, gone);
    RemoveFileRemoves(a, sha256, gone, where, path, f);
    DirectoriesStay(a, b, gone, where, path);
    if ActiveFile(a, f) {
      assert FileOk(a, sha256, f) && OwnObject(a, f, gone);
    }
  }

  lemma DirectoriesStay(a: Archive, b: Archive, gone: Id, where: Id, path: seq<string>)
    requires TreeOk(a.tree) && TreeOk(b.tree) && b == RemoveFile(a, gone) && ActiveFile(a, gone)
    ensures HasDir(b.tree, where, path) <==> HasDir(a.tree, where, path)
  {
    hide SegmentOk, EntryOk, Siblings, Path, TreeOk;
    forall d: Id ensures DirAt(b.tree, where, path, d) <==> DirAt(a.tree, where, path, d) {
      FewerRowsSamePaths(a, b, where, path, 0, d);
    }
  }

  /** Deleting a folder takes exactly its files, with their bytes, and its directories. Files and
      directories of other folders stay where they are. */
  lemma RemoveFolderEffect(a: Archive, sha256: Sha256, folder: Id, where: Id, path: seq<string>, f: Id)
    requires ArchiveOk(a, sha256)
    ensures var b := RemoveFolder(a, folder);
      && ArchiveOk(b, sha256)
      && (FileAt(b, where, path, f) <==> FileAt(a, where, path, f) && where != folder)
      && (HasDir(b.tree, where, path) <==> HasDir(a.tree, where, path) && where != folder)
      && (ActiveFile(b, f) <==> ActiveFile(a, f) && a.files[f].folder != folder)
      && (ActiveFile(a, f) && a.files[f].folder != folder ==> SameFile(a, b, f))
      && (ActiveFile(a, f) && a.files[f].folder == folder ==> a.files[f].blob !in b.objects)
  {
    hide SegmentOk, EntryOk, Siblings, TreeOk, LeavesOk, FileAt, HasDir, Path, RowsOk;
    var b := RemoveFolder(a, folder);
    RemoveFolderKeeps(a, sha256, folder);
    FolderPaths(a, b, folder, where, path, f);
    FolderFiles(a, sha256, folder, f);
  }

  lemma FolderFiles(a: Archive, sha256: Sha256, folder: Id, f: Id)
    requires RowsOk(a, sha256)
    ensures var b := RemoveFolder(a, folder);
      && (ActiveFile(b, f) <==> ActiveFile(a, f) && a.files[f].folder != folder)
      && (ActiveFile(a, f) && a.files[f].folder != folder ==> SameFile(a, b, f))
      && (ActiveFile(a, f) && a.files[f].folder == folder ==> a.files[f].blob !in b.objects)
  {
    hide ObjectUsed;
    if ActiveFile(a, f) {
      assert FileOk(a, sha256, f);
      forall g | g in a.files && InFolder(a, folder, g) && a.files[g].blob == a.files[f].blob ensures g == f {
        assert OwnObject(a, g, f);
      }
    }
  }

  lemma FolderPaths(a: Archive, b: Archive, folder: Id, where: Id, path: seq<string>, f: Id)
    requires TreeOk(a.tree) && TreeOk(b.tree) && b == RemoveFolder(a, folder)
    ensures FileAt(b, where, path, f) <==> FileAt(a, where, path, f) && where != folder
    ensures HasDir(b.tree, where, path) <==> HasDir(a.tree, where, path) && where != folder
  {
    hide SegmentOk, EntryOk, Siblings, Path, TreeOk;
    forall e: Id
      ensures LeafAt(b, where, path, f, e) <==> LeafAt(a, where, path, f, e) && where != folder
      ensures DirAt(b.tree, where, path, e) <==> DirAt(a.tree, where, path, e) && where != folder
    {
      FewerRowsSamePaths(a, b, where, path, f, e);
    }
  }
}
