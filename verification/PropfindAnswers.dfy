/** What PROPFIND answers, response by response, in the terms of the paths shown. */
module PropfindAnswers {
  import opened Base
  import opened Text
  import opened DavNames
  import opened ArchiveModel
  import opened ArchiveReads
  import opened Propfind
  import Listing
  import Href

  // A directory: the root, any path something is shown below, and for administrators those made.
  ghost predicate IsDir(shown: map<nat, string>, explicit: Option<seq<string>>, path: seq<string>) {
    || path == []
    || (exists id :: id in shown && Join(path) + "/" <= shown[id])
    || (explicit.Some? && Join(path) in explicit.value)
  }

  ghost predicate Given(files: seq<File>, explicit: Option<seq<string>>, shown: map<nat, string>) {
    DistinctIds(files) && Listing.Displayed(files, shown) && CleanDirs(explicit)
  }

  predicate CleanDirs(explicit: Option<seq<string>>) {
    explicit.Some? ==> forall i :: 0 <= i < |explicit.value| ==> CleanPath(explicit.value[i])
  }

  lemma BelowIff(shown: map<nat, string>, id: nat, path: seq<string>)
    requires id in shown && CleanPath(shown[id]) && path != [] && SegmentsOk(path)
    ensures Listing.IsAbove(shown, id, path) <==> Join(path) + "/" <= shown[id]
  {
    hide SegmentOk, Split, Join, CleanPath;
    var parts := Split(shown[id]);
    Listing.CleanParts(shown[id]);
    SegmentsHaveNoSlash(path);
    SegmentsHaveNoSlash(parts);
    Listing.PrefixOfJoined(path, parts);
  }

  lemma KnownIff(explicit: seq<string>, shown: map<nat, string>, path: seq<string>)
    requires path != [] && SegmentsOk(path) && (forall id :: id in shown ==> CleanPath(shown[id]))
    requires forall i :: 0 <= i < |explicit| ==> CleanPath(explicit[i])
    ensures Join(path) in Listing.AllCollections(explicit, shown) <==>
      Join(path) in explicit || exists id :: id in shown && Join(path) + "/" <= shown[id]
  {
    hide SegmentOk, Split, Join, CleanPath, TrimSlashes, Listing.Above, Listing.IsAbove;
    forall i | 0 <= i < |explicit| ensures TrimSlashes(explicit[i]) == explicit[i] && explicit[i] != "" {
      CleanPathIsStable(explicit[i]);
    }
    forall id | id in shown ensures Join(path) in Listing.Above(shown[id]) <==> Join(path) + "/" <= shown[id] {
      Listing.IsAboveIff(shown, id, path);
      BelowIff(shown, id, path);
    }
  }

  lemma ExistsIff(files: seq<File>, explicit: Option<seq<string>>, shown: map<nat, string>, path: seq<string>)
    requires Given(files, explicit, shown) && SegmentsOk(path)
    ensures Exists(explicit, shown, Join(path)) <==> IsDir(shown, explicit, path)
  {
    hide SegmentOk, Split, Join, CleanPath, TrimSlashes, Listing.AllCollections;
    RequestedIsTrimmed(path);
    JoinedIsNotEmpty(path);
    if path != [] && explicit.Some? {
      KnownIff(explicit.value, shown, path);
    }
  }

  // ------------------------------------------------------------- collections below

  // Among the collections listed for clients a child appears exactly if something is shown below it.
  lemma LeadsOnIff(files: seq<File>, shown: map<nat, string>, parent: seq<string>, name: string)
    requires Listing.Displayed(files, shown) && SegmentsOk(parent) && SegmentOk(name)
    ensures Join(parent + [name]) in Listing.ChildCollections(files, shown, Join(parent)) <==>
      exists id :: id in shown && Join(parent + [name]) + "/" <= shown[id]
  {
    hide SegmentOk, Split, Join, CleanPath, Listing.ChildCollections, Listing.LeadsOn, Listing.IsAbove;
    var path := parent + [name];
    Listing.CollectionsListed(files, shown, parent, Join(path));
    forall id | id in shown ensures Listing.LeadsOn(shown, id, parent, Join(path)) <==> Join(path) + "/" <= shown[id] {
      BelowIff(shown, id, path);
      StepIff(shown, id, parent, name);
    }
    if id :| id in shown && Join(path) + "/" <= shown[id] {
      var i :| 0 <= i < |files| && files[i].id == id;
      assert Listing.LeadsOn(shown, files[i].id, parent, Join(path));
    }
  }

  lemma StepIff(shown: map<nat, string>, id: nat, parent: seq<string>, name: string)
    requires id in shown && CleanPath(shown[id]) && SegmentsOk(parent) && SegmentOk(name)
    ensures Listing.LeadsOn(shown, id, parent, Join(parent + [name])) <==> Listing.IsAbove(shown, id, parent + [name])
  {
    hide SegmentOk, Split, Join, CleanPath;
    var parts, path := Split(shown[id]), parent + [name];
    Listing.CleanParts(shown[id]);
    Listing.LeadsOnIs(shown, id, parent, Join(path));
    if parent < parts {
      JoinIsInjective(parent, parts[|parent|], name);
      assert path < parts <==> parts[|parent|] == name && |parts| > |path|;
    } else {
      assert path < parts ==> parent < parts;
    }
  }

  lemma JoinIsInjective(parent: seq<string>, a: string, b: string)
    requires SegmentsOk(parent) && SegmentOk(a) && SegmentOk(b)
    ensures Join(parent + [a]) == Join(parent + [b]) ==> a == b
  {
    hide SegmentOk, Split, Join;
    JoinedIsClean(parent + [a]);
    JoinedIsClean(parent + [b]);
    assert (parent + [a])[|parent|] == a && (parent + [b])[|parent|] == b;
  }

  // A path is listed below its parent exactly if it is a directory.
  lemma ChildIff(files: seq<File>, explicit: Option<seq<string>>, shown: map<nat, string>, parent: seq<string>, name: string)
    requires Given(files, explicit, shown) && SegmentsOk(parent) && SegmentOk(name)
    ensures Join(parent + [name]) in Children(files, explicit, shown, Join(parent)) <==> IsDir(shown, explicit, parent + [name])
  {
    hide SegmentOk, Split, Join, CleanPath, Listing.ChildCollections, Listing.ExplicitChildren, Listing.AllCollections;
    LeadsOnIff(files, shown, parent, name);
    if explicit.Some? {
      var path := parent + [name];
      Listing.ExplicitListedOnce(files, shown, explicit.value, parent, path);
      KnownIff(explicit.value, shown, path);
      assert parent == path[..|path| - 1];
    }
  }

  // Whatever is listed is one step below the parent.
  lemma ChildIsStep(files: seq<File>, explicit: Option<seq<string>>, shown: map<nat, string>, parent: seq<string>, c: string) returns (name: string)
    requires Given(files, explicit, shown) && SegmentsOk(parent) && c in Children(files, explicit, shown, Join(parent))
    ensures SegmentOk(name) && c == Join(parent + [name])
  {
    hide SegmentOk, Split, Join, CleanPath, Listing.ChildCollections, Listing.ExplicitChildren, Listing.AllCollections, Listing.LeadsOn;
    if c in Listing.ChildCollections(files, shown, Join(parent)) {
      Listing.CollectionsListed(files, shown, parent, c);
      var i :| 0 <= i < |files| && Listing.LeadsOn(shown, files[i].id, parent, c);
      Listing.LeadsOnIs(shown, files[i].id, parent, c);
      Listing.CleanParts(shown[files[i].id]);
      name := Split(shown[files[i].id])[|parent|];
    } else {
      Listing.ListedIsKnown(files, shown, explicit.value, parent, c);
      Listing.CleanParts(c);
      var path := Split(c);
      Listing.ExplicitListedOnce(files, shown, explicit.value, parent, path);
      name := path[|path| - 1];
      assert path == parent + [name];
    }
  }

  // A file is listed exactly under the directory of its path.
  lemma FileIff(files: seq<File>, explicit: Option<seq<string>>, shown: map<nat, string>, parent: seq<string>, f: File)
    requires Given(files, explicit, shown) && SegmentsOk(parent)
    ensures f in Listing.ChildFiles(files, shown, Join(parent)) <==>
      f in files && f.id in shown && exists name :: SegmentOk(name) && shown[f.id] == Join(parent + [name])
  {
    hide SegmentOk, Split, Join, CleanPath, Listing.ChildFiles;
    Listing.ListedAreGiven(files, shown, Join(parent), f);
    if f in files {
      var i :| 0 <= i < |files| && files[i] == f;
      Listing.FilesListedOnce(files, shown, parent, i);
      var parts := Split(shown[f.id]);
      Listing.CleanParts(shown[f.id]);
      if Listing.IsListedFile(files, shown, parent, i) {
        assert parts == parent + [parts[|parts| - 1]];
      }
      if name :| SegmentOk(name) && shown[f.id] == Join(parent + [name]) {
        JoinedIsClean(parent + [name]);
        assert (parent + [name])[..|parent|] == parent;
      }
    }
  }

  // ------------------------------------------------------------------- the answer

  predicate IsRequested(res: Resource, root: string, parts: seq<string>) {
    res == CollectionResource(Href.ResourceHref(root, Join(parts), true), if parts == [] then "Archivon" else parts[|parts| - 1])
  }

  ghost predicate IsDirBelow(res: Resource, shown: map<nat, string>, explicit: Option<seq<string>>, root: string, parts: seq<string>, name: string) {
    && SegmentOk(name) && IsDir(shown, explicit, parts + [name])
    && res == CollectionResource(Href.ResourceHref(root, Join(parts + [name]), true), name)
  }

  predicate IsFileBelow(res: Resource, files: seq<File>, shown: map<nat, string>, root: string, parts: seq<string>, name: string, f: File) {
    && SegmentOk(name) && f in files && f.id in shown && shown[f.id] == Join(parts + [name])
    && res == FileResource(Href.ResourceHref(root, Join(parts + [name]), false), name, f)
  }

  lemma BaseOf(parts: seq<string>)
    requires parts != [] && SegmentsOk(parts)
    ensures PathBase(Join(parts)) == parts[|parts| - 1]
  {
    hide SegmentOk, Join, PathBase, PathDir;
    var n := |parts| - 1;
    assert parts == parts[..n] + [parts[n]];
    DirAndBase(parts[..n], parts[n]);
  }

  lemma SelfIs(root: string, parts: seq<string>)
    requires SegmentsOk(parts)
    ensures IsRequested(SelfResponse(root, Join(parts)), root, parts)
  {
    hide SegmentOk, Join, PathBase, TrimSlashes, Href.ResourceHref;
    RequestedIsTrimmed(parts);
    JoinedIsNotEmpty(parts);
    if parts != [] {
      BaseOf(parts);
    }
  }

  lemma CollectionIs(root: string, parts: seq<string>, name: string)
    requires SegmentsOk(parts) && SegmentOk(name)
    ensures CollectionResponse(root, Join(parts + [name])) == CollectionResource(Href.ResourceHref(root, Join(parts + [name]), true), name)
  {
    hide SegmentOk, Join, PathBase, Href.ResourceHref;
    BaseOf(parts + [name]);
  }

  lemma FileIs(root: string, shown: map<nat, string>, f: File, parts: seq<string>, name: string)
    requires SegmentsOk(parts) && SegmentOk(name) && f.id in shown && shown[f.id] == Join(parts + [name])
    ensures FileResponse(root, shown, f) == FileResource(Href.ResourceHref(root, Join(parts + [name]), false), name, f)
  {
    hide SegmentOk, Join, PathBase, Href.ResourceHref;
    BaseOf(parts + [name]);
  }

  /** A directory answers with itself and, unless the depth is 0, one response for each directory and
      each file directly below, under the path it is shown at; the root is called Archivon, and
      anything else by the last segment of its path. */
  lemma DirectoryAnswers(files: seq<File>, explicit: Option<seq<string>>, root: string, parts: seq<string>, depth0: bool, res: Resource)
    requires DistinctIds(files) && CleanPaths(files) && CleanDirs(explicit) && SegmentsOk(parts)
    ensures var shown := DisplayPaths(files);
      res in CollectionAnswer(files, explicit, root, Join(parts), depth0) <==>
        || IsRequested(res, root, parts)
        || (!depth0 && exists name :: IsDirBelow(res, shown, explicit, root, parts, name))
        || (!depth0 && exists name, f :: IsFileBelow(res, files, shown, root, parts, name, f))
  {
    hide SegmentOk, Split, Join, CleanPath, DisplayPaths, Children, Listing.ChildFiles, SelfResponse, CollectionResponse, FileResponse, TrimSlashes,
         IsDir, IsRequested, Href.ResourceHref, CleanDirs, Listing.Displayed;
    var shown := DisplayPaths(files);
    Listing.DisplayPathsAreDisplayed(files);
    SelfIs(root, parts);
    IsRequestedOnce(root, parts, res);
    RequestedIsTrimmed(parts);
    if !depth0 {
      if c :| c in Children(files, explicit, shown, Join(parts)) && res == CollectionResponse(root, c) {
        var name := ChildIsStep(files, explicit, shown, parts, c);
        ChildIff(files, explicit, shown, parts, name);
        CollectionIs(root, parts, name);
        assert IsDirBelow(res, shown, explicit, root, parts, name);
      }
      if f :| f in Listing.ChildFiles(files, shown, Join(parts)) && res == FileResponse(root, shown, f) {
        FileIff(files, explicit, shown, parts, f);
        var name :| SegmentOk(name) && shown[f.id] == Join(parts + [name]);
        FileIs(root, shown, f, parts, name);
        assert IsFileBelow(res, files, shown, root, parts, name, f);
      }
      if name :| IsDirBelow(res, shown, explicit, root, parts, name) {
        ChildIff(files, explicit, shown, parts, name);
        CollectionIs(root, parts, name);
      }
      if name, f :| IsFileBelow(res, files, shown, root, parts, name, f) {
        FileIff(files, explicit, shown, parts, f);
        FileIs(root, shown, f, parts, name);
      }
    }
  }

  lemma IsRequestedOnce(root: string, parts: seq<string>, res: Resource)
    requires IsRequested(SelfResponse(root, Join(parts)), root, parts)
    ensures IsRequested(res, root, parts) <==> res == SelfResponse(root, Join(parts))
  {
    hide SelfResponse, Href.ResourceHref, Join;
  }

  /** A path a file is shown at answers with that file, by its name; any other path that is no
      directory is not found; a directory answers as above. */
  lemma AnswerIs(files: seq<File>, explicit: Option<seq<string>>, root: string, parts: seq<string>, depth0: bool)
    requires DistinctIds(files) && CleanPaths(files) && CleanDirs(explicit) && SegmentsOk(parts)
    ensures var shown, answer := DisplayPaths(files), Answer(files, explicit, root, Join(parts), depth0);
      && (forall f :: f in files && f.id in shown && parts != [] && shown[f.id] == Join(parts) ==>
            answer == Some({FileResource(Href.ResourceHref(root, Join(parts), false), parts[|parts| - 1], f)}))
      && (parts == [] || (forall f :: f in files && f.id in shown ==> shown[f.id] != Join(parts)) ==>
            answer == if IsDir(shown, explicit, parts) then Some(CollectionAnswer(files, explicit, root, Join(parts), depth0)) else None)
  {
    hide SegmentOk, Split, Join, CleanPath, DisplayPaths, SelfResponse, FileResponse, CollectionAnswer, TrimSlashes, IsDir, FindFile,
         Exists, Href.ResourceHref, CleanDirs, Listing.Displayed;
    var shown := DisplayPaths(files);
    Listing.DisplayPathsAreDisplayed(files);
    ExistsIff(files, explicit, shown, parts);
    JoinedIsNotEmpty(parts);
    forall f | f in files && f.id in shown && parts != [] && shown[f.id] == Join(parts)
      ensures Answer(files, explicit, root, Join(parts), depth0) == Some({FileResource(Href.ResourceHref(root, Join(parts), false), parts[|parts| - 1], f)})
    {
      var i :| 0 <= i < |files| && files[i] == f;
      FindInvertsDisplay(files, i);
      var n := |parts| - 1;
      assert parts == parts[..n] + [parts[n]];
      FileIs(root, shown, f, parts[..n], parts[n]);
    }
    if forall f :: f in files && f.id in shown ==> shown[f.id] != Join(parts) {
      RequestedIsTrimmed(parts);
      var i := FoundIsShown(files, shown, Join(parts));
    }
    assert parts == [] ==> IsDir(shown, explicit, parts) by { RootIsDir(shown, explicit); }
  }

  lemma RootIsDir(shown: map<nat, string>, explicit: Option<seq<string>>)
    ensures IsDir(shown, explicit, [])
  {
  }
}
