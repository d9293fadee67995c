/** PROPFIND of clients and administrators, and where the links of its answers lead. */
module Propfind {
  import opened Base
  import opened Text
  import opened EntryTree
  import opened DavNames
  import opened ArchiveModel
  import opened ArchiveReads
  import opened ArchiveDuplicates
  import opened BackupRoundTrip
  import Listing
  import Href

  // One response of a multistatus answer.
  datatype Resource = FileResource(href: string, name: string, file: File) | CollectionResource(href: string, name: string)

  datatype DavError = NotFound

  // davCollectionDisplayName
  function CollectionName(relativePath: string): string {
    var path := TrimSlashes(relativePath);
    if path == "" then "Archivon" else PathBase(path)
  }

  function FileResponse(root: string, shown: map<nat, string>, file: File): Resource {
    var displayPath := if file.id in shown then shown[file.id] else "";
    FileResource(Href.ResourceHref(root, displayPath, false), PathBase(displayPath), file)
  }

  function CollectionResponse(root: string, path: string): Resource {
    CollectionResource(Href.ResourceHref(root, path, true), PathBase(path))
  }

  // Clients see the collections that lead to files; administrators also those made by MKCOL.
  function Children(files: seq<File>, explicit: Option<seq<string>>, shown: map<nat, string>, parent: string): set<string> {
    Listing.ChildCollections(files, shown, parent)
    + if explicit.None? then {} else Listing.ExplicitChildren(Listing.AllCollections(explicit.value, shown), parent)
  }

  predicate Exists(explicit: Option<seq<string>>, shown: map<nat, string>, requested: string) {
    if explicit.None? then Listing.CollectionExists(shown, requested) else Listing.CollectionExistsWith(explicit.value, shown, requested)
  }

  function SelfResponse(root: string, requested: string): Resource {
    CollectionResource(Href.ResourceHref(root, requested, true), CollectionName(requested))
  }

  // The collection itself and, unless the depth is 0, what lies directly below.
  ghost function CollectionAnswer(files: seq<File>, explicit: Option<seq<string>>, root: string, requested: string, depth0: bool): set<Resource> {
    var shown := DisplayPaths(files);
    {SelfResponse(root, requested)}
    + if depth0 then {} else
      (set c | c in Children(files, explicit, shown, TrimSlashes(requested)) :: CollectionResponse(root, c))
      + (set f | f in Listing.ChildFiles(files, shown, TrimSlashes(requested)) :: FileResponse(root, shown, f))
  }

  // handleDAVPropfind, without explicit collections, and handleAdminDAVPropfind, with them.
  ghost function Answer(files: seq<File>, explicit: Option<seq<string>>, root: string, requested: string, depth0: bool): Option<set<Resource>> {
    var shown := DisplayPaths(files);
    var found := FindFile(files, shown, requested);
    if requested != "" && found.Some? then Some({FileResponse(root, shown, found.value)})
    else if requested != "" && !Exists(explicit, shown, requested) then None
    else Some(CollectionAnswer(files, explicit, root, requested, depth0))
  }

  function Responses(responses: seq<Resource>): set<Resource> {
    set i | 0 <= i < |responses| :: responses[i]
  }

  lemma OneMoreResponse(responses: seq<Resource>, r: Resource)
    ensures Responses(responses + [r]) == Responses(responses) + {r}
  {
    var more := responses + [r];
    assert more[|responses|] == r;
    forall x | x in Responses(responses) ensures x in Responses(more) {
      var i :| 0 <= i < |responses| && responses[i] == x;
      assert more[i] == x;
    }
  }

  /** The answer about a collection: itself first, then the collections and the files below. */
  method AppendChildren(self: Resource, root: string, childCollections: set<string>, childFiles: seq<File>, displayPaths: map<nat, string>)
    returns (responses: seq<Resource>)
    requires forall i :: 0 <= i < |childFiles| ==> childFiles[i].id in displayPaths
    ensures |responses| > 0 && responses[0] == self
    ensures Responses(responses) == {self} + (set c | c in childCollections :: CollectionResponse(root, c))
                                    + (set f | f in childFiles :: FileResponse(root, displayPaths, f))
  {
    hide CollectionResponse, FileResponse, Responses;
    responses := [self];
    assert Responses([self]) == {self} by { OneResponse(self); }
    var rows := childCollections;
    while rows != {}
      invariant rows <= childCollections && |responses| > 0 && responses[0] == self
      invariant Responses(responses) == {self} + (set c | c in childCollections && c !in rows :: CollectionResponse(root, c))
    {
      var child :| child in rows;
      OneMoreResponse(responses, CollectionResponse(root, child));
      rows := rows - {child};
      responses := responses + [CollectionResponse(root, child)];
    }
    ghost var before := Responses(responses);
    for i := 0 to |childFiles|
      invariant |responses| > 0 && responses[0] == self
      invariant Responses(responses) == before + (set f | f in childFiles[..i] :: FileResponse(root, displayPaths, f))
    {
      OneMoreResponse(responses, FileResponse(root, displayPaths, childFiles[i]));
      assert childFiles[..i + 1] == childFiles[..i] + [childFiles[i]];
      responses := responses + [FileResponse(root, displayPaths, childFiles[i])];
    }
    assert childFiles[..|childFiles|] == childFiles;
  }

  lemma OneResponse(self: Resource)
    ensures Responses([self]) == {self}
  {
    assert [self][0] == self;
  }

  /** handleDAVPropfind */
  method HandleDavPropfind(files: seq<File>, rootHref: string, parts: seq<string>, depth0: bool) returns (r: Result<seq<Resource>, DavError>)
    requires DistinctIds(files) && CleanPaths(files)
    ensures var answer := Answer(files, None, rootHref, Join(parts), depth0);
      && (r.Ok? <==> answer.Some?)
      && (r.Ok? ==> Responses(r.value) == answer.value)
  {
    hide DisplayPaths, CleanPath, FileResponse, CollectionResponse, SelfResponse, Join, FindFile, TrimSlashes, Responses,
         Listing.CollectionExists, Listing.ChildCollections, Listing.ChildFiles, Listing.Displayed;
    var displayPaths := DavDisplayPaths(files);
    AllShown(files);
    var relativePath := Join(parts);
    if relativePath != "" {
      var file := DavFindFile(files, displayPaths, relativePath);
      if file.Some? {
        OneResponse(FileResponse(rootHref, displayPaths, file.value));
        return Ok([FileResponse(rootHref, displayPaths, file.value)]);
      }
      var exists_ := Listing.DavCollectionExists(displayPaths, relativePath);
      if !exists_ {
        return Err(NotFound);
      }
    }
    var self := SelfResponse(rootHref, relativePath);
    if depth0 {
      OneResponse(self);
      return Ok([self]);
    }
    var childCollections, childFiles := Listing.DavImmediateChildren(files, displayPaths, relativePath);
    ChildrenAreShown(files, displayPaths, TrimSlashes(relativePath));
    var responses := AppendChildren(self, rootHref, childCollections, childFiles, displayPaths);
    return Ok(responses);
  }

  /** handleAdminDAVPropfind */
  method HandleAdminDavPropfind(files: seq<File>, collections: seq<string>, rootHref: string, parts: seq<string>, depth0: bool)
    returns (r: Result<seq<Resource>, DavError>)
    requires DistinctIds(files) && CleanPaths(files)
    ensures var answer := Answer(files, Some(collections), rootHref, Join(parts), depth0);
      && (r.Ok? <==> answer.Some?)
      && (r.Ok? ==> Responses(r.value) == answer.value)
  {
    hide DisplayPaths, CleanPath, FileResponse, CollectionResponse, SelfResponse, Join, FindFile, TrimSlashes, Responses,
         Listing.CollectionExistsWith, Listing.ChildCollections, Listing.ChildFiles, Listing.ExplicitChildren, Listing.AllCollections;
    var displayPaths := DavDisplayPaths(files);
    AllShown(files);
    var relativePath := Join(parts);
    if relativePath != "" {
      var file := DavFindFile(files, displayPaths, relativePath);
      if file.Some? {
        OneResponse(FileResponse(rootHref, displayPaths, file.value));
        return Ok([FileResponse(rootHref, displayPaths, file.value)]);
      }
      var exists_ := Listing.DavCollectionExistsWith(collections, displayPaths, relativePath);
      if !exists_ {
        return Err(NotFound);
      }
    }
    var self := SelfResponse(rootHref, relativePath);
    if depth0 {
      OneResponse(self);
      return Ok([self]);
    }
    var childCollections, childFiles := Listing.DavImmediateChildrenWith(files, displayPaths, collections, relativePath);
    ChildrenAreShown(files, displayPaths, TrimSlashes(relativePath));
    var responses := AppendChildren(self, rootHref, childCollections, childFiles, displayPaths);
    return Ok(responses);
  }

  lemma AllShown(files: seq<File>)
    requires DistinctIds(files) && CleanPaths(files)
    ensures Listing.Displayed(files, DisplayPaths(files))
    ensures forall i :: 0 <= i < |files| ==> files[i].id in DisplayPaths(files)
    ensures forall id :: id in DisplayPaths(files) ==> CleanPath(DisplayPaths(files)[id])
  {
    hide CleanPath, DisplayPaths;
    Listing.DisplayPathsAreDisplayed(files);
  }

  lemma ChildrenAreShown(files: seq<File>, shown: map<nat, string>, parent: string)
    requires forall i :: 0 <= i < |files| ==> files[i].id in shown
    ensures var children := Listing.ChildFiles(files, shown, parent); forall i :: 0 <= i < |children| ==> children[i] in files && children[i].id in shown
  {
    hide Listing.ChildFiles;
    var children := Listing.ChildFiles(files, shown, parent);
    forall i | 0 <= i < |children| ensures children[i] in files {
      Listing.ListedAreGiven(files, shown, parent, children[i]);
    }
  }

  // -------------------------------------------------------------------- bytes only

  predicate BytePaths(files: seq<File>) {
    forall i :: 0 <= i < |files| ==> Href.Bytes(files[i].path)
  }

  predicate ByteList(paths: seq<string>) {
    forall i :: 0 <= i < |paths| ==> Href.Bytes(paths[i])
  }

  lemma {:induction false} SplitBytes(s: string)
    requires Href.Bytes(s)
    ensures Href.AllBytes(Split(s))
  {
    if s != "" {
      SplitBytes(s[1..]);
    }
  }

  lemma {:induction false} JoinBytes(parts: seq<string>)
    requires Href.AllBytes(parts)
    ensures Href.Bytes(Join(parts))
  {
    if |parts| > 1 {
      JoinBytes(parts[1..]);
    }
  }

  lemma CopyBytes(base: string, index: nat)
    requires Href.Bytes(base)
    ensures Href.Bytes(CopyName(base, index))
  {
    hide Stem, Extension, CopyMark;
    StemAndExtension(base);
    if index == 0 {
      NoMark();
    } else {
      MarkShape(index);
    }
    var stem, mark, ext := Stem(base), CopyMark(index), Extension(base);
    forall i | 0 <= i < |CopyName(base, index)| ensures CopyName(base, index)[i] as int < 256 {
      if i < |stem| {
        assert CopyName(base, index)[i] == base[i];
      } else if i < |stem| + |mark| {
        assert CopyName(base, index)[i] == mark[i - |stem|];
      } else {
        assert CopyName(base, index)[i] == base[i - |mark|];
      }
    }
  }

  lemma ShownBytes(files: seq<File>, i: nat)
    requires DistinctIds(files) && CleanPaths(files) && BytePaths(files) && i < |files|
    ensures files[i].id in DisplayPaths(files) && Href.AllBytes(Split(DisplayPaths(files)[files[i].id]))
  {
    hide SlotOf, Candidate, CopyName, Join, Split, DisplayPaths, SegmentOk;
    var init, last := CutPath(files[i].path);
    var index := DisplayPathIsCandidate(files, i);
    CleanSlot(files[i], init, last);
    CleanCandidate(init, last, index);
    SplitBytes(files[i].path);
    assert (init + [last])[|init|] == last && forall k :: 0 <= k < |init| ==> (init + [last])[k] == init[k];
    CopyBytes(last, index);
    assert SegmentsOk(init + [CopyName(last, index)]);
    JoinedIsClean(init + [CopyName(last, index)]);
  }

  // Every collection there is has a path of bytes.
  lemma CollectionBytes(files: seq<File>, explicit: seq<string>, d: string)
    requires DistinctIds(files) && CleanPaths(files) && BytePaths(files) && ByteList(explicit)
    requires forall i :: 0 <= i < |explicit| ==> CleanPath(explicit[i])
    requires d in Listing.AllCollections(explicit, DisplayPaths(files))
    ensures Href.AllBytes(Split(d))
  {
    hide Join, Split, DisplayPaths, SegmentOk, TrimSlashes, CleanPath;
    var shown := DisplayPaths(files);
    if i :| 0 <= i < |explicit| && d == TrimSlashes(explicit[i]) {
      CleanPathIsStable(explicit[i]);
      SplitBytes(d);
    } else {
      var id :| id in shown && d in Listing.Above(shown[id]);
      DisplayPathsKeys(files);
      var i :| 0 <= i < |files| && files[i].id == id;
      ShownBytes(files, i);
      DisplayPathIsClean(files, i);
      Listing.CleanParts(shown[id]);
      var k :| 1 <= k < |Split(shown[id])| && d == Join(Split(shown[id])[..k]);
      JoinedIsClean(Split(shown[id])[..k]);
    }
  }

  // --------------------------------------------------------------- where links lead

  // What a link of an answer is read as, when it is requested without the prefix of a proxy.
  function Followed(res: Resource, base: string, username: string): Option<seq<string>> {
    Href.PathParts(res.href, base + "/", username)
  }

  predicate RootOk(base: string, username: string) {
    (base != "" ==> base[|base| - 1] != '/') && username != "" && Href.Bytes(username)
  }

  // A folder as one of the handlers finds it.
  ghost predicate FolderView(a: Archive, sha256: Sha256, folder: Id, files: seq<File>, explicit: Option<seq<string>>) {
    && ArchiveOk(a, sha256) && IsListing(a, folder, files) && BytePaths(files)
    && (explicit.Some? ==> IsCollectionList(a, folder, explicit.value) && ByteList(explicit.value))
  }

  // A file's link leads to the file: its answer is that one response, and a GET gives its content.
  ghost predicate LeadsToFile(a: Archive, sha256: Sha256, files: seq<File>, explicit: Option<seq<string>>, root: string, res: Resource, path: seq<string>) {
    && res.FileResource? && path != []
    && (forall depth0 :: Answer(files, explicit, root, Join(path), depth0) == Some({res}))
    && ActiveFile(a, res.file.id) && Content(a, sha256, res.file.id).Some?
    && Get(a, sha256, files, Join(path)) == Content(a, sha256, res.file.id)
  }

  // A collection's link leads to the collection exactly if no file is shown under the same path;
  // such a file is found first.
  ghost predicate LeadsToCollection(files: seq<File>, explicit: Option<seq<string>>, root: string, res: Resource, path: seq<string>) {
    && res.CollectionResource?
    && (forall depth0 :: Answer(files, explicit, root, Join(path), depth0).Some?)
    && ((forall depth0 :: Answer(files, explicit, root, Join(path), depth0) == Some(CollectionAnswer(files, explicit, root, Join(path), depth0))
                          && res in CollectionAnswer(files, explicit, root, Join(path), depth0))
        <==> path == [] || FindFile(files, DisplayPaths(files), Join(path)).None?)
  }

  lemma FilesAreClean(a: Archive, sha256: Sha256, folder: Id, files: seq<File>, explicit: Option<seq<string>>)
    requires FolderView(a, sha256, folder, files, explicit)
    ensures DistinctIds(files) && CleanPaths(files) && BytePaths(files)
    ensures explicit.Some? ==> ByteList(explicit.value) && forall i :: 0 <= i < |explicit.value| ==> CleanPath(explicit.value[i])
    ensures Listing.Displayed(files, DisplayPaths(files))
  {
    hide ArchiveOk, TreeOk, Listed, CleanPath, DisplayPaths, HasDir;
    ArchiveHasTree(a, sha256);
    ListingIsClean(a, sha256, folder, files);
    AllShown(files);
    if explicit.Some? {
      forall i | 0 <= i < |explicit.value| ensures CleanPath(explicit.value[i]) {
        assert IsCollection(a, folder, explicit.value[i]);
      }
    }
  }

  lemma FileLinkLeads(a: Archive, sha256: Sha256, folder: Id, files: seq<File>, explicit: Option<seq<string>>, base: string, username: string, i: nat)
    requires FolderView(a, sha256, folder, files, explicit) && RootOk(base, username) && i < |files|
    ensures var root := Href.RootHref("", base + "/", username);
      var res := FileResponse(root, DisplayPaths(files), files[i]);
      var path := Followed(res, base, username);
      path.Some? && SegmentsOk(path.value) && LeadsToFile(a, sha256, files, explicit, root, res, path.value)
  {
    hide FolderView, RootOk, CleanPath, DisplayPaths, Split, Join, SegmentOk, Href.RootHref, Href.PathParts, Href.ResourceHref, FindFile, Answer,
         Content, Get, Href.Bytes, Href.AllBytes, Listing.Displayed, CleanPaths, BytePaths, DistinctIds;
    FilesAreClean(a, sha256, folder, files, explicit);
    var shown := DisplayPaths(files);
    PathIsShown(files, i);
    var path := Split(shown[files[i].id]);
    ShownBytes(files, i);
    FileLinkBack(base, username, path);
    JoinedIsNotEmpty(path);
    FileIsAnswered(files, explicit, Href.RootHref("", base + "/", username), i);
    FileIsRead(a, sha256, folder, files, explicit, i);
  }

  lemma PathIsShown(files: seq<File>, i: nat)
    requires DistinctIds(files) && CleanPaths(files) && i < |files|
    ensures files[i].id in DisplayPaths(files)
    ensures var shown := DisplayPaths(files)[files[i].id];
      && Split(shown) != [] && SegmentsOk(Split(shown)) && Join(Split(shown)) == shown
      && FindFile(files, DisplayPaths(files), shown) == Some(files[i])
  {
    hide CleanPath, DisplayPaths, Split, Join, SegmentOk, FindFile;
    FindInvertsDisplay(files, i);
    DisplayPathIsClean(files, i);
    Listing.CleanParts(DisplayPaths(files)[files[i].id]);
  }

  lemma FileLinkBack(base: string, username: string, path: seq<string>)
    requires RootOk(base, username) && SegmentsOk(path) && Href.AllBytes(path)
    ensures Href.PathParts(Href.ResourceHref(Href.RootHref("", base + "/", username), Join(path), false), base + "/", username) == Some(path)
  {
    hide Href.RootHref, Href.PathParts, Href.ResourceHref, Join, SegmentOk, Href.AllBytes;
    Href.HrefRoundTrip(base, username, path, false);
  }

  lemma FileIsAnswered(files: seq<File>, explicit: Option<seq<string>>, root: string, i: nat)
    requires i < |files| && files[i].id in DisplayPaths(files)
    requires var shown := DisplayPaths(files)[files[i].id]; shown != "" && FindFile(files, DisplayPaths(files), shown) == Some(files[i])
    ensures var shown := DisplayPaths(files);
      forall depth0 :: Answer(files, explicit, root, shown[files[i].id], depth0) == Some({FileResponse(root, shown, files[i])})
  {
    hide DisplayPaths, FindFile, FileResponse, CollectionAnswer, Exists;
  }

  lemma FileIsRead(a: Archive, sha256: Sha256, folder: Id, files: seq<File>, explicit: Option<seq<string>>, i: nat)
    requires FolderView(a, sha256, folder, files, explicit) && i < |files| && files[i].id in DisplayPaths(files)
    requires FindFile(files, DisplayPaths(files), DisplayPaths(files)[files[i].id]) == Some(files[i])
    ensures ActiveFile(a, files[i].id) && Content(a, sha256, files[i].id).Some?
    ensures Get(a, sha256, files, DisplayPaths(files)[files[i].id]) == Content(a, sha256, files[i].id)
  {
    hide ArchiveOk, TreeOk, Listed, DisplayPaths, FindFile, Content, BytePaths, IsCollectionList, ByteList;
    ArchiveHasTree(a, sha256);
    ListedIsInFolder(a, folder, files[i]);
    ContentIsStored(a, sha256, files[i].id);
  }

  lemma JoinedIsNotEmpty(path: seq<string>)
    requires SegmentsOk(path)
    ensures Join(path) == "" <==> path == []
  {
    hide SegmentOk;
    if path != [] {
      JoinedIsClean(path);
      CleanPathIsStable(Join(path));
    }
  }

  // The root, or a collection that exists.
  lemma CollectionLinkLeads(a: Archive, sha256: Sha256, folder: Id, files: seq<File>, explicit: Option<seq<string>>, base: string, username: string,
                            path: seq<string>, res: Resource)
    requires FolderView(a, sha256, folder, files, explicit) && RootOk(base, username) && SegmentsOk(path) && Href.AllBytes(path)
    requires path != [] ==> Exists(explicit, DisplayPaths(files), Join(path))
    requires res == SelfResponse(Href.RootHref("", base + "/", username), Join(path))
    ensures Followed(res, base, username) == Some(path)
    ensures LeadsToCollection(files, explicit, Href.RootHref("", base + "/", username), res, path)
  {
    hide FolderView, SegmentOk, Href.RootHref, Href.PathParts, Href.ResourceHref, FindFile, Exists, Join, Href.Bytes, Href.AllBytes,
         FileResponse, CollectionResponse, CollectionName, Children, DisplayPaths, TrimSlashes;
    Href.HrefRoundTrip(base, username, path, true);
    JoinedIsNotEmpty(path);
    var root := Href.RootHref("", base + "/", username);
    assert forall depth0 :: res in CollectionAnswer(files, explicit, root, Join(path), depth0);
    if path != [] && FindFile(files, DisplayPaths(files), Join(path)).Some? {
      FileIsNotCollection(files, explicit, root, Join(path), res);
    }
  }

  lemma FileIsNotCollection(files: seq<File>, explicit: Option<seq<string>>, root: string, requested: string, res: Resource)
    requires requested != "" && FindFile(files, DisplayPaths(files), requested).Some? && res.CollectionResource?
    requires res in CollectionAnswer(files, explicit, root, requested, true)
    ensures Answer(files, explicit, root, requested, true) != Some(CollectionAnswer(files, explicit, root, requested, true))
  {
    hide FindFile, CollectionAnswer, DisplayPaths;
    var shown := DisplayPaths(files);
    assert res !in {FileResponse(root, shown, FindFile(files, shown, requested).value)};
  }

  // A listed collection is shown in the listing as it shows itself.
  lemma ListedShowsItself(root: string, c: string)
    requires CleanPath(c)
    ensures CollectionResponse(root, c) == SelfResponse(root, c)
  {
    hide CleanPath, TrimSlashes, PathBase, Href.ResourceHref;
    CleanPathIsStable(c);
  }

  lemma ChildCollectionLeads(a: Archive, sha256: Sha256, folder: Id, files: seq<File>, explicit: Option<seq<string>>, base: string, username: string,
                             parts: seq<string>, c: string)
    requires FolderView(a, sha256, folder, files, explicit) && RootOk(base, username) && SegmentsOk(parts)
    requires c in Children(files, explicit, DisplayPaths(files), Join(parts))
    ensures var root := Href.RootHref("", base + "/", username);
      var res := CollectionResponse(root, c);
      var path := Followed(res, base, username);
      path.Some? && SegmentsOk(path.value) && LeadsToCollection(files, explicit, root, res, path.value)
  {
    hide FolderView, CleanPath, DisplayPaths, Split, Join, SegmentOk, Href.RootHref, Href.PathParts, Href.ResourceHref, Href.Bytes, Href.AllBytes,
         LeadsToCollection, CollectionResponse, SelfResponse, Listing.ChildCollections, Listing.ExplicitChildren, Listing.AllCollections,
         Listing.CollectionExists, Listing.CollectionExistsWith, Listing.Displayed;
    FilesAreClean(a, sha256, folder, files, explicit);
    var shown := DisplayPaths(files);
    var named := explicit.GetOr([]);
    Listing.ListedIsKnown(files, shown, named, parts, c);
    if explicit.None? {
      Listing.ListedCollectionExists(files, shown, parts, c);
    } else {
      Listing.ListedWithExists(files, shown, named, parts, c);
    }
    CollectionBytes(files, named, c);
    Listing.CleanParts(c);
    ListedShowsItself(Href.RootHref("", base + "/", username), c);
    CollectionLinkLeads(a, sha256, folder, files, explicit, base, username, Split(c), CollectionResponse(Href.RootHref("", base + "/", username), c));
  }

  /** Every link of an answer, requested back, leads to the file it was printed for, or to the
      collection it was printed for unless a file is shown under the same path. */
  lemma LinksLeadBack(a: Archive, sha256: Sha256, folder: Id, files: seq<File>, explicit: Option<seq<string>>, base: string, username: string,
                      parts: seq<string>, depth0: bool, res: Resource)
    requires FolderView(a, sha256, folder, files, explicit) && RootOk(base, username) && SegmentsOk(parts) && Href.AllBytes(parts)
    requires var answer := Answer(files, explicit, Href.RootHref("", base + "/", username), Join(parts), depth0);
      answer.Some? && res in answer.value
    ensures var root := Href.RootHref("", base + "/", username);
      var path := Followed(res, base, username);
      && path.Some? && SegmentsOk(path.value)
      && if res.FileResource? then LeadsToFile(a, sha256, files, explicit, root, res, path.value)
         else LeadsToCollection(files, explicit, root, res, path.value)
  {
    hide FolderView, CleanPath, DisplayPaths, Split, Join, SegmentOk, Href.RootHref, Href.PathParts, Href.ResourceHref, Href.Bytes, Href.AllBytes,
         LeadsToFile, LeadsToCollection, Children, Exists, FindFile, TrimSlashes, RootOk, Followed, Listing.ChildFiles;
    var root, requested := Href.RootHref("", base + "/", username), Join(parts);
    var shown := DisplayPaths(files);
    FilesAreClean(a, sha256, folder, files, explicit);
    JoinedIsNotEmpty(parts);
    RequestedIsTrimmed(parts);
    var found := FindFile(files, shown, requested);
    if requested != "" && found.Some? {
      var i := FoundIsShown(files, shown, requested);
      FileLinkLeads(a, sha256, folder, files, explicit, base, username, i);
    } else if res == SelfResponse(root, requested) {
      CollectionLinkLeads(a, sha256, folder, files, explicit, base, username, parts, res);
    } else if c :| c in Children(files, explicit, shown, requested) && res == CollectionResponse(root, c) {
      ChildCollectionLeads(a, sha256, folder, files, explicit, base, username, parts, c);
    } else {
      var f :| f in Listing.ChildFiles(files, shown, requested) && res == FileResponse(root, shown, f);
      Listing.ListedAreGiven(files, shown, requested, f);
      var i :| 0 <= i < |files| && files[i] == f;
      FileLinkLeads(a, sha256, folder, files, explicit, base, username, i);
    }
  }

  lemma RequestedIsTrimmed(parts: seq<string>)
    requires SegmentsOk(parts)
    ensures TrimSlashes(Join(parts)) == Join(parts)
  {
    hide SegmentOk;
    if parts == [] {
      Listing.EmptyTrimmed();
    } else {
      JoinedIsClean(parts);
      CleanPathIsStable(Join(parts));
    }
  }

  // ---------------------------------------------------------- a file over a collection

  // A file "a", and a file "b" in a directory "a" of the same folder.
  ghost function FileOverDirectory(sha256: Sha256): Archive {
    AddFile(Uploads(sha256, ["x"]), sha256, HOME, ["a", "b"], "y")
  }

  function BothRows(sha256: Sha256): seq<File> {
    [File(0, "a", "a", sha256("x"), 1), File(1, "a/b", "b", sha256("y"), 1)]
  }

  lemma PathsOfBoth()
    ensures SegmentsOk(["a", "b"]) && Join(["a", "b"]) == "a/b" && Join(["a"]) == "a" && SegmentsOk(["a"])
  {
    AIsSegment();
    assert SegmentOk("b");
  }

  lemma BothAreListed(sha256: Sha256)
    ensures var a := FileOverDirectory(sha256); ArchiveOk(a, sha256) && IsListing(a, HOME, BothRows(sha256))
  {
    hide ArchiveOk, TreeOk, FileAt, Listed, Uploads, HoldsUploads, AddFile, Join;
    var first := Uploads(sha256, ["x"]);
    var a := FileOverDirectory(sha256);
    PathsOfBoth();
    UploadsAreThere(sha256, ["x"]);
    UploadsAreListed(sha256, ["x"]);
    HeldFiles(first, sha256, ["x"]);
    AddFileEffect(first, sha256, HOME, ["a", "b"], "y", HOME, ["a"], 0);
    AddFileEffect(first, sha256, HOME, ["a", "b"], "y", HOME, ["a", "b"], 1);
    ArchiveHasTree(a, sha256);
    forall f: Id ensures ActiveFile(a, f) <==> f == 0 || f == 1 {
      AddFileContents(first, sha256, HOME, ["a", "b"], "y", f);
    }
    AddFileContents(first, sha256, HOME, ["a", "b"], "y", 0);
    AddFileContents(first, sha256, HOME, ["a", "b"], "y", 1);
    RowIsListed(a, sha256, HOME, ["a"], BothRows(sha256)[0]);
    RowIsListed(a, sha256, HOME, ["a", "b"], BothRows(sha256)[1]);
    forall f: Id | InFolder(a, HOME, f) ensures HasId(BothRows(sha256), f) {
      assert BothRows(sha256)[f].id == f;
    }
  }

  lemma BothAreShown(sha256: Sha256)
    ensures var shown := DisplayPaths(BothRows(sha256));
      && Listing.Displayed(BothRows(sha256), shown)
      && 0 in shown && shown[0] == "a" && 1 in shown && shown[1] == "a/b"
  {
    hide ArchiveOk, TreeOk, FileAt, IsListing, FileOverDirectory, DisplayPaths, CleanPath, Join;
    var files := BothRows(sha256);
    BothAreListed(sha256);
    PathsOfBoth();
    JoinedIsClean(["a"]);
    JoinedIsClean(["a", "b"]);
    AllShown(files);
    ShownAsStoredIffDistinct(files);
    assert files[0].id in DisplayPaths(files) && files[1].id in DisplayPaths(files);
  }

  /** The root lists the collection "a", and its link leads to the file "a". */
  lemma FileHidesCollection(sha256: Sha256, explicit: Option<seq<string>>, root: string)
    ensures var files := BothRows(sha256);
      && ArchiveOk(FileOverDirectory(sha256), sha256) && IsListing(FileOverDirectory(sha256), HOME, files)
      && CollectionResponse(root, "a") in CollectionAnswer(files, explicit, root, "", false)
      && Answer(files, explicit, root, "a", false) == Some({FileResponse(root, DisplayPaths(files), files[0])})
  {
    hide ArchiveOk, IsListing, FileOverDirectory, DisplayPaths, CleanPath, TrimSlashes, Listing.ChildCollections, Listing.ChildFiles,
         CollectionResponse, FileResponse, FindFile, Listing.Displayed;
    var files := BothRows(sha256);
    BothAreListed(sha256);
    BothAreShown(sha256);
    RootListsA(sha256);
    assert TrimSlashes("") == "" by { Listing.EmptyTrimmed(); }
    FindInvertsDisplay(files, 0) by { AIsClean(); }
  }

  lemma RootListsA(sha256: Sha256)
    ensures "a" in Listing.ChildCollections(BothRows(sha256), DisplayPaths(BothRows(sha256)), "")
  {
    hide DisplayPaths, CleanPath, Split, Join, SegmentOk, Listing.ChildCollections;
    var files := BothRows(sha256);
    var shown := DisplayPaths(files);
    BothAreShown(sha256);
    PathsOfBoth();
    JoinedIsClean(["a", "b"]);
    assert Join([]) == "" by { Listing.JoinNothing(); }
    assert [] + [["a", "b"][0]] == ["a"];
    Listing.LeadsOnIs(shown, 1, [], "a");
    assert Listing.LeadsOn(shown, files[1].id, [], "a");
    Listing.CollectionsListed(files, shown, [], "a");
  }
}
