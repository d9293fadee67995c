/** PROPFIND: which files and collections are listed under a path, and which collections exist. */
module Listing {
  import opened Base
  import opened Text
  import opened DavNames

  // ---------------------------------------------------------------- functions

  // davChildRemainder: the path below the parent, or nothing.
  function ChildRemainder(parentPath: string, displayPath: string): string {
    var shown := TrimSlashes(displayPath);
    if parentPath == "" then shown
    else if parentPath + "/" <= shown then shown[|parentPath| + 1..]
    else ""
  }

  function Under(parentPath: string, name: string): string {
    if parentPath == "" then name else parentPath + "/" + name
  }

  // Every display path is clean and belongs to one of the files.
  predicate Displayed(files: seq<File>, shown: map<nat, string>) {
    && (forall i :: 0 <= i < |files| ==> files[i].id in shown)
    && (forall id :: id in shown ==> CleanPath(shown[id]) && exists i :: 0 <= i < |files| && files[i].id == id)
  }

  // The collections above one display path.
  function Above(displayPath: string): set<string> {
    var parts := Split(displayPath);
    set k | 1 <= k < |parts| :: Join(parts[..k])
  }

  predicate IsAbove(shown: map<nat, string>, id: nat, segments: seq<string>) {
    id in shown && segments < Split(shown[id])
  }

  // Some file is displayed below.
  predicate HasFileBelow(shown: map<nat, string>, segments: seq<string>) {
    exists id :: id in shown && IsAbove(shown, id, segments)
  }

  // ----------------------------------------------------------- clean arithmetic

  // What one display path contributes to the listing of a parent.
  lemma RemainderOfClean(parent: seq<string>, path: seq<string>)
    requires SegmentsOk(parent) && path != [] && SegmentsOk(path)
    ensures ChildRemainder(Join(parent), Join(path)) == if parent < path then Join(path[|parent|..]) else ""
  {
    hide SegmentOk, TrimSlashes;
    JoinedIsClean(path);
    CleanPathIsStable(Join(path));
    if parent == [] {
      assert path[0..] == path;
    } else {
      SegmentsHaveNoSlash(parent);
      SegmentsHaveNoSlash(path);
      PrefixOfJoined(parent, path);
      NotEmpty(parent);
    }
  }

  lemma NotEmpty(segments: seq<string>)
    requires segments != [] && SegmentsOk(segments)
    ensures Join(segments) != ""
  {
    hide SegmentOk;
    JoinedIsClean(segments);
    CleanPathIsStable(Join(segments));
  }

  // A joined path starts with another and a slash exactly if its segments start with the other's.
  lemma PrefixOfJoined(parent: seq<string>, path: seq<string>)
    requires parent != [] && path != [] && NoSlashes(parent) && NoSlashes(path)
    ensures Join(parent) + "/" <= Join(path) <==> parent < path
    ensures parent < path ==> Join(path)[|Join(parent)| + 1..] == Join(path[|parent|..])
  {
    var head := Join(parent) + "/";
    if parent < path {
      var rest := path[|parent|..];
      assert path == parent + rest;
      JoinTwo(parent, rest);
      assert Join(path) == head + Join(rest);
      assert Join(path)[..|head|] == head && Join(path)[|head|..] == Join(rest);
    }
    if head <= Join(path) {
      var rest := Join(path)[|head|..];
      assert Join(path) == Join(parent) + "/" + rest;
      SplitAtSlash(Join(parent), rest);
      SplitJoin(parent);
      SplitJoin(path);
      assert path == parent + Split(rest);
    }
  }

  lemma FirstOfJoined(path: seq<string>)
    requires path != [] && SegmentsOk(path)
    ensures Split(Join(path))[0] == path[0] && Join(path) != ""
    ensures '/' in Join(path) <==> |path| > 1
  {
    hide SegmentOk;
    JoinedIsClean(path);
    NotEmpty(path);
    SegmentsHaveNoSlash(path);
    if |path| > 1 {
      assert Join(path) == path[0] + "/" + Join(path[1..]);
      assert Join(path)[|path[0]|] == '/';
    }
  }

  // A display path in the listing of a parent: its file if directly below, else the next collection.
  lemma Contribution(parent: seq<string>, path: seq<string>)
    requires SegmentsOk(parent) && path != [] && SegmentsOk(path)
    ensures var r := ChildRemainder(Join(parent), Join(path));
      && (r != "" <==> parent < path)
      && (r != "" && '/' !in r <==> parent == path[..|path| - 1])
      && (r != "" && '/' in r <==> parent < path && |path| > |parent| + 1)
      && (r != "" ==> Under(Join(parent), Split(r)[0]) == Join(parent + [path[|parent|]]))
  {
    hide SegmentOk, ChildRemainder, Split;
    RemainderOfClean(parent, path);
    if parent < path {
      var rest := path[|parent|..];
      FirstOfJoined(rest);
      UnderIsJoin(parent, path[|parent|]);
    }
  }

  lemma UnderIsJoin(parent: seq<string>, name: string)
    requires SegmentsOk(parent)
    ensures Under(Join(parent), name) == Join(parent + [name])
  {
    hide SegmentOk;
    if parent == [] {
      assert parent + [name] == [name];
    } else {
      NotEmpty(parent);
      JoinTwo(parent, [name]);
    }
  }

  // ------------------------------------------------------------ collections exist

  predicate CollectionExists(shown: map<nat, string>, requested: string) {
    var path := TrimSlashes(requested);
    path == "" || exists id :: id in shown && path + "/" <= shown[id]
  }

  /** davCollectionExists */
  method DavCollectionExists(displayPaths: map<nat, string>, requestedPath: string) returns (found: bool)
    ensures found <==> CollectionExists(displayPaths, requestedPath)
  {
    var requested := TrimSlashes(requestedPath);
    if requested == "" {
      return true;
    }
    var prefix := requested + "/";
    var ids := displayPaths.Keys;
    while ids != {}
      invariant ids <= displayPaths.Keys
      invariant forall id :: id in displayPaths && id !in ids ==> !(prefix <= displayPaths[id])
    {
      var id :| id in ids;
      if prefix <= displayPaths[id] {
        return true;
      }
      ids := ids - {id};
    }
    return false;
  }

  // A collection exists exactly if it is the root or has a file somewhere below.
  lemma CollectionExistsIff(files: seq<File>, shown: map<nat, string>, segments: seq<string>)
    requires Displayed(files, shown) && SegmentsOk(segments)
    ensures CollectionExists(shown, Join(segments)) <==> segments == [] || HasFileBelow(shown, segments)
  {
    hide SegmentOk, TrimSlashes, Split;
    if segments == [] {
      assert Join(segments) == "" && TrimSlashes("") == "" by { EmptyTrimmed(); }
    } else {
      NotEmpty(segments);
      JoinedIsClean(segments);
      CleanPathIsStable(Join(segments));
      SegmentsHaveNoSlash(segments);
      forall id | id in shown ensures Join(segments) + "/" <= shown[id] <==> IsAbove(shown, id, segments) {
        var parts := Split(shown[id]);
        JoinSplit(shown[id]);
        SegmentsHaveNoSlash(parts);
        PrefixOfJoined(segments, parts);
      }
    }
  }

  lemma EmptyTrimmed()
    ensures TrimSlashes("") == ""
  {
  }

  function AllCollections(explicit: seq<string>, shown: map<nat, string>): set<string> {
    (set i | 0 <= i < |explicit| && TrimSlashes(explicit[i]) != "" :: TrimSlashes(explicit[i]))
    + set id, c | id in shown && c in Above(shown[id]) :: c
  }

  /** davAllCollections: the explicit ones, and every directory above a display path. */
  method DavAllCollections(explicitCollections: seq<string>, displayPaths: map<nat, string>) returns (collections: set<string>)
    requires forall id :: id in displayPaths ==> CleanPath(displayPaths[id])
    ensures collections == AllCollections(explicitCollections, displayPaths)
  {
    hide TrimSlashes, CleanPath, Above;
    collections := {};
    for n := 0 to |explicitCollections|
      invariant collections == set i | 0 <= i < n && TrimSlashes(explicitCollections[i]) != "" :: TrimSlashes(explicitCollections[i])
    {
      var collection := TrimSlashes(explicitCollections[n]);
      if collection != "" {
        collections := collections + {collection};
      }
    }
    ghost var named := collections;
    var ids := displayPaths.Keys;
    while ids != {}
      invariant ids <= displayPaths.Keys
      invariant collections == named + set id, c | id in displayPaths && id !in ids && c in Above(displayPaths[id]) :: c
    {
      var id :| id in ids;
      ids := ids - {id};
      var above := DirectoriesAbove(displayPaths[id]);
      collections := collections + above;
    }
  }

  /** The inner loop: climb from a display path with path.Dir until there is no directory left. */
  method DirectoriesAbove(displayPath: string) returns (dirs: set<string>)
    requires CleanPath(displayPath)
    ensures dirs == Above(displayPath)
  {
    hide *;
    ghost var parts := Split(displayPath);
    CleanParts(displayPath);
    CleanPathIsStable(displayPath);
    ghost var k: nat := |parts| - 1;
    DirOfPrefix(parts, k);
    var dir := PathDir(TrimSlashes(displayPath));
    dirs := {};
    NoneAbove(displayPath);
    while dir != "." && dir != "/" && TrimSpace(dir) != ""
      invariant k < |parts| && dir == (if k == 0 then "." else Join(parts[..k]))
      invariant dirs == AboveFrom(parts, k + 1)
      decreases k
    {
      OneAbove(parts, k);
      ShorterPrefix(parts, k);
      dirs := dirs + {dir};
      DirOfPrefix(parts, k - 1);
      var next := PathDir(dir);
      if next == dir {
        break;
      }
      dir := next;
      k := k - 1;
    }
    PrefixIsDirectory(parts, k);
    AllAbove(displayPath);
  }

  function AboveFrom(parts: seq<string>, from: nat): set<string> {
    set k | 1 <= k < |parts| && from <= k :: Join(parts[..k])
  }

  lemma CleanParts(displayPath: string)
    requires CleanPath(displayPath)
    ensures var parts := Split(displayPath); parts != [] && SegmentsOk(parts) && Join(parts) == displayPath && parts[..|parts|] == parts
  {
    JoinSplit(displayPath);
  }

  lemma DirOfPrefix(parts: seq<string>, k: nat)
    requires SegmentsOk(parts) && k < |parts|
    ensures PathDir(Join(parts[..k + 1])) == if k == 0 then "." else Join(parts[..k])
  {
    hide SegmentOk, PathDir, Join;
    assert parts[..k + 1] == parts[..k] + [parts[k]];
    DirAndBase(parts[..k], parts[k]);
  }

  lemma NoneAbove(displayPath: string)
    ensures AboveFrom(Split(displayPath), |Split(displayPath)|) == {}
  {
  }

  lemma OneAbove(parts: seq<string>, k: nat)
    requires 0 < k < |parts|
    ensures AboveFrom(parts, k) == AboveFrom(parts, k + 1) + {Join(parts[..k])}
  {
  }

  lemma ShorterPrefix(parts: seq<string>, k: nat)
    requires SegmentsOk(parts) && 0 < k < |parts|
    ensures (if k == 1 then "." else Join(parts[..k - 1])) != Join(parts[..k])
  {
    hide SegmentOk, Join;
    PrefixIsDirectory(parts, k);
    if k > 1 {
      assert parts[..k] == parts[..k - 1] + [parts[k - 1]];
      JoinTwo(parts[..k - 1], [parts[k - 1]]);
    }
  }

  // The loop goes on as long as a directory is left.
  lemma PrefixIsDirectory(parts: seq<string>, k: nat)
    requires SegmentsOk(parts) && k < |parts|
    ensures k > 0 ==> var dir := Join(parts[..k]); dir != "." && dir != "/" && TrimSpace(dir) != ""
  {
    hide SegmentOk, TrimSpace, Join;
    if k > 0 {
      JoinedIsNotDot(parts[..k]);
      JoinedIsClean(parts[..k]);
      CleanPathEnds(parts[..k]);
      CleanPathIsStable(Join(parts[..k]));
    }
  }

  lemma AllAbove(displayPath: string)
    ensures Above(displayPath) == AboveFrom(Split(displayPath), 1)
  {
  }

  predicate CollectionExistsWith(explicit: seq<string>, shown: map<nat, string>, requested: string) {
    var path := TrimSlashes(requested);
    path == "" || path in AllCollections(explicit, shown)
  }

  /** davCollectionExistsWith */
  method DavCollectionExistsWith(collections: seq<string>, displayPaths: map<nat, string>, requestedPath: string) returns (found: bool)
    requires forall id :: id in displayPaths ==> CleanPath(displayPaths[id])
    ensures found <==> CollectionExistsWith(collections, displayPaths, requestedPath)
  {
    hide TrimSlashes, AllCollections, CleanPath;
    var requested := TrimSlashes(requestedPath);
    if requested == "" {
      return true;
    }
    var all := DavAllCollections(collections, displayPaths);
    return requested in all;
  }

  lemma IsAboveIff(shown: map<nat, string>, id: nat, segments: seq<string>)
    requires id in shown && CleanPath(shown[id]) && segments != [] && SegmentsOk(segments)
    ensures Join(segments) in Above(shown[id]) <==> IsAbove(shown, id, segments)
  {
    hide SegmentOk, Join, Split, CleanPath;
    var parts := Split(shown[id]);
    CleanParts(shown[id]);
    if IsAbove(shown, id, segments) {
      assert parts[..|segments|] == segments;
    }
    if k :| 1 <= k < |parts| && Join(parts[..k]) == Join(segments) {
      SegmentsHaveNoSlash(parts);
      SegmentsHaveNoSlash(segments);
      JoinInjective(parts[..k], segments);
    }
  }

  // Without explicit collections both existence checks agree.
  lemma ExistenceChecksAgree(files: seq<File>, shown: map<nat, string>, segments: seq<string>)
    requires Displayed(files, shown) && SegmentsOk(segments)
    ensures CollectionExistsWith([], shown, Join(segments)) <==> CollectionExists(shown, Join(segments))
  {
    hide SegmentOk, TrimSlashes, Split, Join, Above, CollectionExists, CleanPath;
    CollectionExistsIff(files, shown, segments);
    if segments == [] {
      EmptyTrimmed();
      assert Join([]) == "" by { JoinNothing(); }
      ExistsRoot(shown);
    } else {
      JoinedIsClean(segments);
      CleanPathIsStable(Join(segments));
      forall id | id in shown ensures Join(segments) in Above(shown[id]) <==> IsAbove(shown, id, segments) {
        IsAboveIff(shown, id, segments);
      }
    }
  }

  lemma JoinNothing()
    ensures Join([]) == ""
  {
  }

  lemma ExistsRoot(shown: map<nat, string>)
    ensures CollectionExists(shown, "")
  {
    EmptyTrimmed();
  }

  // ---------------------------------------------------------------- the listing

  // The files listed, and the collections on the way to deeper ones.
  function ChildFiles(files: seq<File>, shown: map<nat, string>, parent: string): seq<File> {
    if files == [] then []
    else
      var file := files[|files| - 1];
      var rest := ChildFiles(files[..|files| - 1], shown, parent);
      var r := ChildRemainder(parent, if file.id in shown then shown[file.id] else "");
      if r == "" || '/' in r then rest else rest + [file]
  }

  function ChildCollections(files: seq<File>, shown: map<nat, string>, parent: string): set<string> {
    if files == [] then {}
    else
      var file := files[|files| - 1];
      var rest := ChildCollections(files[..|files| - 1], shown, parent);
      var r := ChildRemainder(parent, if file.id in shown then shown[file.id] else "");
      if r == "" || '/' !in r then rest else rest + {Under(parent, Split(r)[0])}
  }

  function ExplicitChildren(all: set<string>, parent: string): set<string> {
    set c | c in all && ChildRemainder(parent, c) != "" && '/' !in ChildRemainder(parent, c) :: Under(parent, ChildRemainder(parent, c))
  }

  /** davImmediateChildren; the two lists it returns sorted are left unsorted here. */
  method DavImmediateChildren(files: seq<File>, displayPaths: map<nat, string>, parentPath: string)
    returns (collections: set<string>, childFiles: seq<File>)
    requires forall i :: 0 <= i < |files| ==> files[i].id in displayPaths
    ensures collections == ChildCollections(files, displayPaths, TrimSlashes(parentPath))
    ensures childFiles == ChildFiles(files, displayPaths, TrimSlashes(parentPath))
  {
    hide TrimSlashes, ChildRemainder, Split, Under;
    var parent := TrimSlashes(parentPath);
    collections, childFiles := {}, [];
    for i := 0 to |files|
      invariant collections == ChildCollections(files[..i], displayPaths, parent)
      invariant childFiles == ChildFiles(files[..i], displayPaths, parent)
    {
      assert files[..i + 1][..i] == files[..i];
      var remainder := ChildRemainder(parent, displayPaths[files[i].id]);
      if remainder == "" {
        continue;
      }
      if '/' in remainder {
        collections := collections + {Under(parent, Split(remainder)[0])};
        continue;
      }
      childFiles := childFiles + [files[i]];
    }
    assert files[..|files|] == files;
  }

  /** davImmediateChildrenWith */
  method DavImmediateChildrenWith(files: seq<File>, displayPaths: map<nat, string>, explicitCollections: seq<string>, parentPath: string)
    returns (collections: set<string>, childFiles: seq<File>)
    requires Displayed(files, displayPaths)
    ensures var parent := TrimSlashes(parentPath);
      && collections == ExplicitChildren(AllCollections(explicitCollections, displayPaths), parent) + ChildCollections(files, displayPaths, parent)
      && childFiles == ChildFiles(files, displayPaths, parent)
  {
    hide TrimSlashes, ChildRemainder, Split, Under, ChildCollections, ChildFiles, AllCollections, CleanPath;
    var parent := TrimSlashes(parentPath);
    var all := DavAllCollections(explicitCollections, displayPaths);
    collections := {};
    var rows := all;
    while rows != {}
      invariant rows <= all
      invariant collections == ExplicitChildren(all - rows, parent)
    {
      var c :| c in rows;
      var remainder := ChildRemainder(parent, c);
      OneMoreChild(all - rows, c, parent);
      rows := rows - {c};
      assert all - rows == (all - (rows + {c})) + {c};
      if remainder == "" || '/' in remainder {
        continue;
      }
      collections := collections + {Under(parent, remainder)};
    }
    assert all - {} == all;
    var nested;
    nested, childFiles := DavImmediateChildren(files, displayPaths, parentPath);
    collections := collections + nested;
  }

  lemma OneMoreChild(seen: set<string>, c: string, parent: string)
    ensures var r := ChildRemainder(parent, c);
      ExplicitChildren(seen + {c}, parent) == ExplicitChildren(seen, parent) + if r == "" || '/' in r then {} else {Under(parent, r)}
  {
    hide ChildRemainder, Under;
  }

  // ------------------------------------------------------------------ properties

  predicate IsListedFile(files: seq<File>, shown: map<nat, string>, parent: seq<string>, i: nat) {
    i < |files| && files[i].id in shown && Split(shown[files[i].id]) != []
    && Split(shown[files[i].id])[..|Split(shown[files[i].id])| - 1] == parent
  }

  // A file is listed under its own directory and nowhere else.
  lemma {:induction false} FilesListedOnce(files: seq<File>, shown: map<nat, string>, parent: seq<string>, i: nat)
    requires DistinctIds(files) && SegmentsOk(parent) && i < |files|
    requires forall k :: 0 <= k < |files| ==> files[k].id in shown && CleanPath(shown[files[k].id])
    ensures files[i] in ChildFiles(files, shown, Join(parent)) <==> IsListedFile(files, shown, parent, i)
  {
    hide SegmentOk, ChildRemainder, Split, Join, CleanPath;
    var n := |files| - 1;
    var init, file := files[..n], files[n];
    CleanParts(shown[file.id]);
    Contribution(parent, Split(shown[file.id]));
    if i < n {
      FilesListedOnce(init, shown, parent, i);
      assert init[i] == files[i];
    } else {
      ListedAreGiven(init, shown, Join(parent), file);
    }
  }

  lemma {:induction false} ListedAreGiven(files: seq<File>, shown: map<nat, string>, parent: string, file: File)
    ensures file in ChildFiles(files, shown, parent) ==> file in files
  {
    hide ChildRemainder;
    if files != [] {
      ListedAreGiven(files[..|files| - 1], shown, parent, file);
    }
  }

  // Exactly the collections one step further down that have a file below them are listed.
  lemma {:induction false} CollectionsListed(files: seq<File>, shown: map<nat, string>, parent: seq<string>, c: string)
    requires SegmentsOk(parent) && forall k :: 0 <= k < |files| ==> files[k].id in shown && CleanPath(shown[files[k].id])
    ensures c in ChildCollections(files, shown, Join(parent)) <==> exists i :: 0 <= i < |files| && LeadsOn(shown, files[i].id, parent, c)
  {
    hide SegmentOk, ChildRemainder, Split, Join, Under, CleanPath, LeadsOn;
    if files != [] {
      var n := |files| - 1;
      var init, file := files[..n], files[n];
      CollectionsListed(init, shown, parent, c);
      CleanParts(shown[file.id]);
      Contribution(parent, Split(shown[file.id]));
      LeadsOnIs(shown, file.id, parent, c);
      if i :| 0 <= i < |init| && LeadsOn(shown, init[i].id, parent, c) {
        assert LeadsOn(shown, files[i].id, parent, c);
      }
      if i :| 0 <= i < |files| && LeadsOn(shown, files[i].id, parent, c) {
        assert i < n ==> init[i] == files[i];
      }
      assert LeadsOn(shown, files[n].id, parent, c) ==> exists i :: 0 <= i < |files| && LeadsOn(shown, files[i].id, parent, c);
    }
  }

  // The collection c is the step after the parent on the way to a deeper file.
  predicate LeadsOn(shown: map<nat, string>, id: nat, parent: seq<string>, c: string) {
    id in shown && var path := Split(shown[id]); parent < path && |path| > |parent| + 1 && c == Join(parent + [path[|parent|]])
  }

  lemma LeadsOnIs(shown: map<nat, string>, id: nat, parent: seq<string>, c: string)
    requires id in shown
    ensures LeadsOn(shown, id, parent, c) <==>
      var path := Split(shown[id]); parent < path && |path| > |parent| + 1 && c == Join(parent + [path[|parent|]])
  {
  }

  // Walking down from the root reaches every file: each collection on its way is listed under the
  // one before, and every collection listed exists.
  lemma WalkReachesFile(files: seq<File>, shown: map<nat, string>, i: nat, k: nat)
    requires Displayed(files, shown) && i < |files| && k + 1 < |Split(shown[files[i].id])|
    ensures var path := Split(shown[files[i].id]);
      && Join(path[..k + 1]) in ChildCollections(files, shown, Join(path[..k]))
      && CollectionExists(shown, Join(path[..k + 1]))
  {
    hide SegmentOk, ChildCollections, Split, Join, CleanPath, CollectionExists;
    var path := Split(shown[files[i].id]);
    CleanParts(shown[files[i].id]);
    CollectionsListed(files, shown, path[..k], Join(path[..k + 1]));
    assert path[..k] + [path[k]] == path[..k + 1];
    assert LeadsOn(shown, files[i].id, path[..k], Join(path[..k + 1]));
    CollectionExistsIff(files, shown, path[..k + 1]);
    assert IsAbove(shown, files[i].id, path[..k + 1]);
  }

  lemma ListedCollectionExists(files: seq<File>, shown: map<nat, string>, parent: seq<string>, c: string)
    requires Displayed(files, shown) && SegmentsOk(parent) && c in ChildCollections(files, shown, Join(parent))
    ensures CollectionExists(shown, c)
  {
    hide SegmentOk, ChildCollections, Split, Join, CleanPath, CollectionExists;
    CollectionsListed(files, shown, parent, c);
    var i :| 0 <= i < |files| && LeadsOn(shown, files[i].id, parent, c);
    var path := Split(shown[files[i].id]);
    CleanParts(shown[files[i].id]);
    var next := parent + [path[|parent|]];
    assert path[..|next|] == next;
    CollectionExistsIff(files, shown, next);
    assert IsAbove(shown, files[i].id, next);
  }

  // Without explicit collections the two listings are the same.
  lemma ListingsAgree(files: seq<File>, shown: map<nat, string>, parent: seq<string>)
    requires Displayed(files, shown) && SegmentsOk(parent)
    ensures ExplicitChildren(AllCollections([], shown), Join(parent)) <= ChildCollections(files, shown, Join(parent))
  {
    hide SegmentOk, ChildCollections, Split, Join, CleanPath, ChildRemainder, Under;
    forall c | c in ExplicitChildren(AllCollections([], shown), Join(parent))
      ensures c in ChildCollections(files, shown, Join(parent))
    {
      var id, d :| id in shown && d in Above(shown[id]) && ChildRemainder(Join(parent), d) != ""
                   && '/' !in ChildRemainder(Join(parent), d) && c == Under(Join(parent), ChildRemainder(Join(parent), d));
      AboveChildLeadsOn(shown, id, parent, d);
      var i :| 0 <= i < |files| && files[i].id == id;
      CollectionsListed(files, shown, parent, c);
      assert LeadsOn(shown, files[i].id, parent, c);
    }
  }

  lemma AboveChildLeadsOn(shown: map<nat, string>, id: nat, parent: seq<string>, d: string)
    requires id in shown && CleanPath(shown[id]) && d in Above(shown[id]) && SegmentsOk(parent)
    requires ChildRemainder(Join(parent), d) != "" && '/' !in ChildRemainder(Join(parent), d)
    ensures Under(Join(parent), ChildRemainder(Join(parent), d)) == d && LeadsOn(shown, id, parent, d)
  {
    hide SegmentOk, Split, Join, CleanPath, ChildRemainder, Under;
    var path := Split(shown[id]);
    CleanParts(shown[id]);
    var k :| 1 <= k < |path| && d == Join(path[..k]);
    var above := path[..k];
    Contribution(parent, above);
    assert above == parent + [above[k - 1]];
    SplitPlain(ChildRemainder(Join(parent), d));
  }

  // Every collection listed next to the files is one of all the collections, and its path is clean.
  lemma ListedIsKnown(files: seq<File>, shown: map<nat, string>, explicit: seq<string>, parent: seq<string>, c: string)
    requires Displayed(files, shown) && SegmentsOk(parent)
    requires forall i :: 0 <= i < |explicit| ==> CleanPath(explicit[i])
    requires c in ExplicitChildren(AllCollections(explicit, shown), Join(parent)) + ChildCollections(files, shown, Join(parent))
    ensures c in AllCollections(explicit, shown) && CleanPath(c)
  {
    hide SegmentOk, ChildCollections, Split, Join, CleanPath, ChildRemainder, Under, Above, TrimSlashes, LeadsOn;
    if c in ExplicitChildren(AllCollections(explicit, shown), Join(parent)) {
      var d :| d in AllCollections(explicit, shown) && ChildRemainder(Join(parent), d) != ""
               && '/' !in ChildRemainder(Join(parent), d) && c == Under(Join(parent), ChildRemainder(Join(parent), d));
      CollectionIsClean(files, shown, explicit, d);
      CleanParts(d);
      Contribution(parent, Split(d));
      SplitPlain(ChildRemainder(Join(parent), d));
      OnlyStep(parent, Split(d));
    } else {
      CollectionsListed(files, shown, parent, c);
      var i :| 0 <= i < |files| && LeadsOn(shown, files[i].id, parent, c);
      LeadsOnIs(shown, files[i].id, parent, c);
      CleanParts(shown[files[i].id]);
      var path := Split(shown[files[i].id]);
      var next := parent + [path[|parent|]];
      assert path[..|next|] == next;
      IsAboveIff(shown, files[i].id, next);
      JoinedIsClean(next);
    }
  }

  // Every collection listed next to the files exists, explicit ones included.
  lemma ListedWithExists(files: seq<File>, shown: map<nat, string>, explicit: seq<string>, parent: seq<string>, c: string)
    requires Displayed(files, shown) && SegmentsOk(parent)
    requires forall i :: 0 <= i < |explicit| ==> CleanPath(explicit[i])
    requires c in ExplicitChildren(AllCollections(explicit, shown), Join(parent)) + ChildCollections(files, shown, Join(parent))
    ensures CollectionExistsWith(explicit, shown, c)
  {
    hide SegmentOk, ChildCollections, ExplicitChildren, AllCollections, Join, CleanPath, TrimSlashes;
    ListedIsKnown(files, shown, explicit, parent, c);
    CleanPathIsStable(c);
  }

  lemma OnlyStep(parent: seq<string>, path: seq<string>)
    requires path != [] && parent == path[..|path| - 1]
    ensures parent < path && parent + [path[|parent|]] == path
  {
  }

  lemma CollectionIsClean(files: seq<File>, shown: map<nat, string>, explicit: seq<string>, d: string)
    requires Displayed(files, shown) && d in AllCollections(explicit, shown)
    requires forall i :: 0 <= i < |explicit| ==> CleanPath(explicit[i])
    ensures CleanPath(d)
  {
    hide SegmentOk, Split, Join, TrimSlashes, CleanPath;
    if i :| 0 <= i < |explicit| && d == TrimSlashes(explicit[i]) {
      CleanPathIsStable(explicit[i]);
    } else {
      var id :| id in shown && d in Above(shown[id]);
      var parts := Split(shown[id]);
      CleanParts(shown[id]);
      var k :| 1 <= k < |parts| && d == Join(parts[..k]);
      JoinedIsClean(parts[..k]);
    }
  }

  // An explicit collection is listed under its own parent and nowhere else.
  lemma ExplicitListedOnce(files: seq<File>, shown: map<nat, string>, explicit: seq<string>, parent: seq<string>, path: seq<string>)
    requires Displayed(files, shown) && SegmentsOk(parent) && path != [] && SegmentsOk(path)
    requires forall i :: 0 <= i < |explicit| ==> CleanPath(explicit[i])
    ensures Join(path) in ExplicitChildren(AllCollections(explicit, shown), Join(parent)) <==>
      Join(path) in AllCollections(explicit, shown) && parent == path[..|path| - 1]
  {
    hide SegmentOk, Split, Join, CleanPath, ChildRemainder, Under, TrimSlashes, AllCollections, Displayed;
    var all, c := AllCollections(explicit, shown), Join(path);
    ChildIsItself(parent, path);
    if c in ExplicitChildren(all, Join(parent)) {
      var d :| d in all && ChildRemainder(Join(parent), d) != "" && '/' !in ChildRemainder(Join(parent), d)
               && c == Under(Join(parent), ChildRemainder(Join(parent), d));
      CollectionIsClean(files, shown, explicit, d);
      CleanParts(d);
      ChildIsItself(parent, Split(d));
      JoinedIsClean(path);
    }
  }

  // A path is a child of its own parent only, under its own name.
  lemma ChildIsItself(parent: seq<string>, path: seq<string>)
    requires SegmentsOk(parent) && path != [] && SegmentsOk(path)
    ensures var r := ChildRemainder(Join(parent), Join(path));
      && (r != "" && '/' !in r <==> parent == path[..|path| - 1])
      && (r != "" && '/' !in r ==> Under(Join(parent), r) == Join(path))
  {
    hide SegmentOk, Split, Join, ChildRemainder, Under;
    Contribution(parent, path);
    SplitPlainIf(ChildRemainder(Join(parent), Join(path)));
    if parent == path[..|path| - 1] {
      OnlyStep(parent, path);
    }
  }

  lemma SplitPlainIf(s: string)
    ensures '/' !in s ==> Split(s) == [s]
  {
    if '/' !in s {
      SplitPlain(s);
    }
  }

  // The display paths of files stored under clean paths are fit for all of this.
  lemma DisplayPathsAreDisplayed(files: seq<File>)
    requires DistinctIds(files) && CleanPaths(files)
    ensures Displayed(files, DisplayPaths(files))
  {
    hide CleanPath, DisplayPaths;
    DisplayPathsKeys(files);
    forall i | 0 <= i < |files| ensures files[i].id in DisplayPaths(files) && CleanPath(DisplayPaths(files)[files[i].id]) {
      DisplayPathIsClean(files, i);
    }
  }
}
