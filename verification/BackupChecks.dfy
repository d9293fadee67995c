/** What an import demands of a zip, whoever made it, and what it stores of it. */
module BackupChecks {
  import opened Base
  import opened Text
  import opened EntryTree
  import opened DavNames
  import opened ArchiveModel
  import opened ArchiveReads
  import opened UploadPaths
  import opened PolicySeal
  import opened Backup

  // ------------------------------------------------------------------- one file

  // The same letter, or a hexadecimal letter in the other case.
  predicate SameHexDigit(c: char, d: char) {
    || c == d
    || (c, d) in {('a', 'A'), ('b', 'B'), ('c', 'C'), ('d', 'D'), ('e', 'E'), ('f', 'F')}
    || (d, c) in {('a', 'A'), ('b', 'B'), ('c', 'C'), ('d', 'D'), ('e', 'E'), ('f', 'F')}
  }

  predicate SameHash(a: string, b: string) {
    |a| == |b| && forall i :: 0 <= i < |a| ==> SameHexDigit(a[i], b[i])
  }

  // The file of the zip the manifest means: of those with the name the last, and no directory.
  ghost predicate Carries(entries: seq<ZipEntry>, name: string, content: string) {
    && "content/" <= name && name[|name| - 1] != '/'
    && exists k :: 0 <= k < |entries| && LastNamed(entries, k) && entries[k] == ZipEntry(name, content)
  }

  predicate NamesContent(item: BackupFile) {
    "content/" <= item.archivePath
  }

  // The content of the file has the size and hash the manifest gives.
  predicate Intact(sha256: Sha256, item: BackupFile, content: string) {
    |content| == item.size && SameHash(sha256(content), item.sha)
  }

  // A file import accepts, with the path and content it is stored with.
  ghost predicate Genuine(sha256: Sha256, entries: seq<ZipEntry>, item: BackupFile, segments: seq<string>, content: string) {
    && Carries(entries, item.archivePath, content)
    && CleanPathSegments(item.path, item.name) == Ok(segments)
    && Intact(sha256, item, content)
  }

  ghost predicate IsGenuine(sha256: Sha256, entries: seq<ZipEntry>, item: BackupFile) {
    exists segments, content :: Genuine(sha256, entries, item, segments, content)
  }

  lemma FoldIsSameHash(a: string, b: string)
    ensures EqualFold(a, b) <==> SameHash(a, b)
  {
    hide SameHexDigit, LowerHex;
    forall c, d ensures LowerHex(c) == LowerHex(d) <==> SameHexDigit(c, d) {
      FoldIsSameDigit(c, d);
    }
  }

  lemma FoldIsSameDigit(c: char, d: char)
    ensures LowerHex(c) == LowerHex(d) <==> SameHexDigit(c, d)
  {
    LowerHexIs(c);
    LowerHexIs(d);
  }

  lemma LowerHexIs(c: char)
    ensures LowerHex('A') == 'a' && LowerHex('B') == 'b' && LowerHex('C') == 'c' && LowerHex('D') == 'd' && LowerHex('E') == 'e' && LowerHex('F') == 'f'
    ensures !('A' <= c <= 'F') ==> LowerHex(c) == c
    ensures 'A' <= c <= 'F' ==> c in {'A', 'B', 'C', 'D', 'E', 'F'}
  {
    assert 'A' as int + 1 == 'B' as int && 'B' as int + 1 == 'C' as int && 'C' as int + 1 == 'D' as int;
    if 'A' <= c <= 'F' {
      assert c as int in {65, 66, 67, 68, 69, 70};
    }
  }

  // The map of the entries has each name with the content of the last entry so named.
  lemma {:induction false} ByNameHolds(entries: seq<ZipEntry>, name: string)
    ensures name in ByName(entries) ==>
      exists k :: 0 <= k < |entries| && LastNamed(entries, k) && entries[k] == ZipEntry(name, ByName(entries)[name])
  {
    if entries != [] {
      hide ByName, LastNamed;
      var n := |entries| - 1;
      var init := entries[..n];
      ByNameNext(entries, name);
      if entries[n].name == name {
        assert entries[n] == ZipEntry(name, ByName(entries)[name]);
        assert LastNamed(entries, n) by { NoneAfterLast(entries); }
      } else {
        ByNameHolds(init, name);
        if name in ByName(init) {
          var k :| 0 <= k < n && LastNamed(init, k) && init[k] == ZipEntry(name, ByName(init)[name]);
          StillLastNamed(entries, k);
        }
      }
    }
  }

  lemma ByNameNext(entries: seq<ZipEntry>, name: string)
    requires entries != []
    ensures var n := |entries| - 1;
      && (entries[n].name == name ==> name in ByName(entries) && ByName(entries)[name] == entries[n].content)
      && (entries[n].name != name ==>
            (name in ByName(entries) <==> name in ByName(entries[..n]))
            && (name in ByName(entries) ==> ByName(entries)[name] == ByName(entries[..n])[name]))
  {
  }

  lemma NoneAfterLast(entries: seq<ZipEntry>)
    requires entries != []
    ensures LastNamed(entries, |entries| - 1)
  {
  }

  lemma StillLastNamed(entries: seq<ZipEntry>, k: nat)
    requires k < |entries| - 1 && LastNamed(entries[..|entries| - 1], k) && entries[k].name != entries[|entries| - 1].name
    ensures LastNamed(entries, k)
  {
    var n := |entries| - 1;
    assert forall j :: k < j < n ==> entries[j] == entries[..n][j];
  }

  lemma ByNameIff(entries: seq<ZipEntry>, name: string, content: string)
    ensures name in ByName(entries) && ByName(entries)[name] == content <==>
      exists k :: 0 <= k < |entries| && LastNamed(entries, k) && entries[k] == ZipEntry(name, content)
  {
    hide ByName;
    ByNameHolds(entries, name);
    if k :| 0 <= k < |entries| && LastNamed(entries, k) && entries[k] == ZipEntry(name, content) {
      ByNameFinds(entries, k);
    }
  }

  lemma ContentIsNoBlank(path: string)
    requires "content/" <= path
    ensures TrimSpace(path) != "" && path != ""
  {
    if TrimSpace(path) == "" {
      assert path[0] == 'c';
      LeadingIsSeven(path);
    }
  }

  lemma LeadingIsSeven(path: string)
    requires path != "" && path[0] == 'c'
    ensures TrimSpace(path) != ""
  {
    assert LeadingSpace(path) == 0;
    var t := TrimLeftSpace(path);
    FirstStays(path);
  }

  // What starts with a letter keeps it, however much is trimmed from its end.
  lemma {:induction false} FirstStays(s: string)
    requires s != "" && s[0] == 'c'
    ensures TrimRightSpace(s) != ""
    decreases |s|
  {
    var n := TrailingSpace(s);
    if n > 0 {
      TrailingLeavesFirst(s);
      FirstStays(s[..|s| - n]);
    }
  }

  lemma TrailingLeavesFirst(s: string)
    requires s != "" && s[0] == 'c'
    ensures TrailingSpace(s) < |s|
  {
  }

  /** The check of one file: its four refusals, each exactly when it applies, and what it accepts. */
  lemma CheckItemIff(sha256: Sha256, entries: seq<ZipEntry>, item: BackupFile)
    ensures var r := CheckItem(sha256, ByName(entries), item);
      var found := exists content :: Carries(entries, item.archivePath, content);
      var path := CleanPathSegments(item.path, item.name);
      && (r == Err(ArchivePathInvalid) <==> !NamesContent(item))
      && (r == Err(FileMissing) <==> NamesContent(item) && !found)
      && (r == Err(FilePathInvalid) <==> NamesContent(item) && found && path.Err?)
      && (r == Err(ChecksumMismatch) <==>
            exists content :: Carries(entries, item.archivePath, content) && path.Ok? && !Intact(sha256, item, content))
      && (r.Err? ==> r.error in {ArchivePathInvalid, FileMissing, FilePathInvalid, ChecksumMismatch})
      && (r.Ok? <==> IsGenuine(sha256, entries, item))
      && (r.Ok? ==> Genuine(sha256, entries, item, r.value.0, r.value.1))
  {
    hide ByName, CleanPathSegments, TrimSpace, EqualFold, Carries, SameHash, IsDirName;
    var name := item.archivePath;
    if NamesContent(item) {
      ContentIsNoBlank(name);
      CarriesIff(entries, name);
      if name in ByName(entries) && !IsDirName(name) {
        var content := ByName(entries)[name];
        FoldIsSameHash(sha256(content), item.sha);
        assert Carries(entries, name, content);
        if CleanPathSegments(item.path, item.name).Ok? {
          GenuineIff(sha256, entries, item, CleanPathSegments(item.path, item.name).value, content);
        }
      }
    } else {
      NothingCarried(entries, name);
    }
  }

  lemma GenuineIff(sha256: Sha256, entries: seq<ZipEntry>, item: BackupFile, segments: seq<string>, content: string)
    requires Carries(entries, item.archivePath, content) && CleanPathSegments(item.path, item.name) == Ok(segments)
    ensures IsGenuine(sha256, entries, item) <==> Intact(sha256, item, content)
  {
    hide Carries, Intact, CleanPathSegments;
    if s, other :| Genuine(sha256, entries, item, s, other) {
      OneContent(entries, item.archivePath, content, other);
    }
    if Intact(sha256, item, content) {
      assert Genuine(sha256, entries, item, segments, content);
    }
  }

  lemma NothingCarried(entries: seq<ZipEntry>, name: string)
    requires !("content/" <= name)
    ensures forall content :: !Carries(entries, name, content)
  {
  }

  lemma CarriesIff(entries: seq<ZipEntry>, name: string)
    requires "content/" <= name
    ensures forall content :: Carries(entries, name, content) <==>
      name in ByName(entries) && !IsDirName(name) && ByName(entries)[name] == content
  {
    hide ByName, LastNamed;
    forall content ensures Carries(entries, name, content) <==>
      name in ByName(entries) && !IsDirName(name) && ByName(entries)[name] == content
    {
      ByNameIff(entries, name, content);
    }
  }

  // ------------------------------------------------------------------ all files

  ghost predicate AllGenuine(sha256: Sha256, entries: seq<ZipEntry>, items: seq<BackupFile>) {
    forall i :: 0 <= i < |items| ==> IsGenuine(sha256, entries, items[i])
  }

  // The additions an accepted list of files comes to.
  lemma {:induction false} GenuineAdds(sha256: Sha256, entries: seq<ZipEntry>, items: seq<BackupFile>) returns (adds: seq<(seq<string>, string)>)
    requires forall i :: 0 <= i < |items| ==> CheckItem(sha256, ByName(entries), items[i]).Ok?
    ensures |adds| == |items| && AddsOk(adds)
    ensures forall i :: 0 <= i < |items| ==> CheckItem(sha256, ByName(entries), items[i]) == Ok(adds[i])
  {
    hide CheckItem, SegmentsOk, ByName;
    if items == [] {
      adds := [];
    } else {
      var n := |items| - 1;
      var init := GenuineAdds(sha256, entries, items[..n]);
      ItemSegments(sha256, ByName(entries), items[n]);
      adds := init + [CheckItem(sha256, ByName(entries), items[n]).value];
      assert forall i :: 0 <= i < n ==> items[..n][i] == items[i];
    }
  }

  // The first refusal is that of the whole list.
  lemma {:induction false} FirstRefusal(a: Archive, sha256: Sha256, folder: Id, byName: map<string, string>, items: seq<BackupFile>, i: nat)
    requires i < |items| && CheckItem(sha256, byName, items[i]).Err?
    requires forall k :: 0 <= k < i ==> CheckItem(sha256, byName, items[k]).Ok?
    ensures ImportFiles(a, sha256, folder, byName, items) == Err(CheckItem(sha256, byName, items[i]).error)
    decreases |items|
  {
    hide CheckItem, AddFile;
    if i > 0 {
      var r := CheckItem(sha256, byName, items[0]);
      assert r.Ok?;
      ItemSegments(sha256, byName, items[0]);
      assert forall k :: 0 <= k < i - 1 ==> items[1..][k] == items[k + 1];
      FirstRefusal(AddFile(a, sha256, folder, r.value.0, r.value.1), sha256, folder, byName, items[1..], i - 1);
    }
  }

  // --------------------------------------------------------------------- any zip

  // The policy of a manifest: what is not positive gets a default, the rest keeps to the limits.
  predicate PolicyTaken(p: FolderPolicy) {
    && 0 <= p.tolerance <= 5000 && (0 < p.window ==> 5 <= p.window <= 600) && p.attempts <= 10
  }

  ghost predicate ZipTaken(sha256: Sha256, zip: Zip) {
    && zip.manifest.Some? && zip.manifest.value.size <= 8_388_608
    && var m := zip.manifest.value.manifest;
       && m.format == "archivon-folder-backup" && m.version == 1 && TrimSpace(m.folder.name) != "" && PolicyTaken(m.folder.policy)
       && (forall i :: 0 <= i < |m.collections| ==> CollectionSegments(m.collections[i]).Ok?)
       && AllGenuine(sha256, zip.entries, m.files)
  }

  // A zip is imported exactly if its manifest is there, short enough and of the right kind, and every
  // collection and every file of it is accepted.
  lemma ImportsIff(a: Archive, sha256: Sha256, folder: Id, zip: Zip)
    ensures Import(a, sha256, folder, zip).Ok? <==> ZipTaken(sha256, zip)
  {
    hide ImportCollections, ImportFiles, CollectionSegments, CheckItem, ByName, TrimSpace, Genuine, AddsOk;
    if zip.manifest.Some? {
      var m := zip.manifest.value.manifest;
      CollectionsIff(a, folder, m.collections);
      var made := ImportCollections(a, folder, m.collections);
      if made.Ok? {
        FilesIff(made.value, sha256, folder, zip.entries, m.files);
      }
      PolicyIff(m.folder.policy);
    }
  }

  /** The folder made for a backup: its name says so, its description is kept, and what is missing from
      its policy is filled in: 1 TH/s, a minute, three attempts. */
  lemma ImportedFolderIs(a: Archive, sha256: Sha256, folder: Id, zip: Zip)
    requires Import(a, sha256, folder, zip).Ok?
    ensures var from, made := zip.manifest.value.manifest.folder, Import(a, sha256, folder, zip).value.1;
      && made.name == TrimSpace(from.name) + " (backup)" && made.description == from.description
      && made.policy.required == (if 0 < from.policy.required then from.policy.required else 1_000_000)
      && made.policy.tolerance == from.policy.tolerance
      && made.policy.window == (if 0 < from.policy.window then from.policy.window else 60)
      && made.policy.attempts == (if 0 < from.policy.attempts then from.policy.attempts else 3)
  {
    hide ImportRows, ByName, TrimSpace;
  }

  lemma PolicyIff(p: FolderPolicy)
    ensures PolicyOk(NormalizeFolderPolicy(p, NO_POLICY)) <==> PolicyTaken(p)
  {
  }

  lemma CollectionsIff(a: Archive, folder: Id, collections: seq<string>)
    ensures ImportCollections(a, folder, collections).Ok? <==> forall i :: 0 <= i < |collections| ==> CollectionSegments(collections[i]).Ok?
  {
    hide CollectionSegments, ImportCollections;
    if i :| 0 <= i < |collections| && CollectionSegments(collections[i]).Err? {
      ImportCollectionsFails(a, folder, collections, i);
    } else {
      var paths := seq(|collections|, i requires 0 <= i < |collections| => CollectionSegments(collections[i]).value);
      ImportCollectionsIsMakeAll(a, folder, collections, paths);
    }
  }

  lemma FilesIff(a: Archive, sha256: Sha256, folder: Id, entries: seq<ZipEntry>, items: seq<BackupFile>)
    ensures ImportFiles(a, sha256, folder, ByName(entries), items).Ok? <==> AllGenuine(sha256, entries, items)
  {
    hide CheckItem, ImportFiles, ByName, IsGenuine, AddsOk;
    forall i | 0 <= i < |items|
      ensures CheckItem(sha256, ByName(entries), items[i]).Ok? <==> IsGenuine(sha256, entries, items[i])
    {
      CheckItemIff(sha256, entries, items[i]);
    }
    if i :| 0 <= i < |items| && CheckItem(sha256, ByName(entries), items[i]).Err? {
      ImportFilesFails(a, sha256, folder, ByName(entries), items, i);
    } else {
      var adds := GenuineAdds(sha256, entries, items);
      ImportFilesIsAddAll(a, sha256, folder, ByName(entries), items, adds);
    }
  }

  // The file stored for an item of the manifest.
  ghost predicate StoredFor(c: Archive, sha256: Sha256, folder: Id, f: Id, item: BackupFile, segments: seq<string>, content: string)
    requires TreeOk(c.tree)
  {
    && ActiveFile(c, f) && FileAt(c, folder, segments, f) && Content(c, sha256, f) == Some(content)
    && c.files[f].folder == folder && c.files[f].size == item.size && c.files[f].sha == sha256(content) && SameHash(c.files[f].sha, item.sha)
  }

  ghost predicate ItemStored(c: Archive, sha256: Sha256, folder: Id, f: Id, entries: seq<ZipEntry>, item: BackupFile)
    requires TreeOk(c.tree)
  {
    exists segments, content :: Genuine(sha256, entries, item, segments, content) && StoredFor(c, sha256, folder, f, item, segments, content)
  }

  /** Whatever zip is imported: every file of its manifest is stored with the content of its entry,
      which has the size and, up to case, the hash the manifest gives. */
  lemma ImportStoresGenuine(a: Archive, sha256: Sha256, folder: Id, zip: Zip, i: nat)
    requires ArchiveOk(a, sha256) && Import(a, sha256, folder, zip).Ok? && i < |zip.manifest.value.manifest.files|
    ensures var c := Import(a, sha256, folder, zip).value.0;
      && ArchiveOk(c, sha256)
      && ItemStored(c, sha256, folder, a.nextFile + i, zip.entries, zip.manifest.value.manifest.files[i])
  {
    hide ArchiveOk, ImportCollections, ImportFiles, CollectionSegments, CheckItem, ByName, TrimSpace, Genuine, AllGenuine, PolicyOk,
         NormalizeFolderPolicy, ItemStored, RestoredFolderName;
    var m := zip.manifest.value.manifest;
    CollectionsIff(a, folder, m.collections);
    var paths := seq(|m.collections|, j requires 0 <= j < |m.collections| => CollectionSegments(m.collections[j]).value);
    ImportCollectionsIsMakeAll(a, folder, m.collections, paths);
    PathsTaken(m.collections, paths);
    MakeAllEffect(a, sha256, folder, paths, folder, [], 0);
    var b := MakeAll(a, folder, paths);
    FilesIff(b, sha256, folder, zip.entries, m.files);
    FileStored(b, sha256, folder, zip.entries, m.files, i);
  }

  lemma PathsTaken(collections: seq<string>, paths: seq<seq<string>>)
    requires |paths| == |collections|
    requires forall i :: 0 <= i < |collections| ==> CollectionSegments(collections[i]) == Ok(paths[i])
    ensures AllSegmentsOk(paths)
  {
    hide CollectionSegments, SegmentsOk;
    forall i | 0 <= i < |paths| ensures SegmentsOk(paths[i]) { CollectionIsClean(collections[i]); }
  }

  lemma ItemsPass(sha256: Sha256, entries: seq<ZipEntry>, items: seq<BackupFile>)
    requires AllGenuine(sha256, entries, items)
    ensures forall k :: 0 <= k < |items| ==> CheckItem(sha256, ByName(entries), items[k]).Ok?
  {
    hide CheckItem, ByName, IsGenuine;
    forall k | 0 <= k < |items| ensures CheckItem(sha256, ByName(entries), items[k]).Ok? {
      CheckItemIff(sha256, entries, items[k]);
    }
  }

  lemma AddedThere(b: Archive, sha256: Sha256, folder: Id, adds: seq<(seq<string>, string)>, i: nat)
    requires ArchiveOk(b, sha256) && AddsOk(adds) && i < |adds|
    ensures var c, f := AddAll(b, sha256, folder, adds), b.nextFile + i;
      && ArchiveOk(c, sha256) && TreeOk(c.tree) && ActiveFile(c, f) && FileAt(c, folder, adds[i].0, f)
      && Content(c, sha256, f) == Some(adds[i].1)
      && c.files[f].folder == folder && c.files[f].size == |adds[i].1| && c.files[f].sha == sha256(adds[i].1)
  {
    hide ArchiveOk, TreeOk, AddAll, FileAt, Content, SegmentsOk, AboveOne, HasDir;
    AddAllEffect(b, sha256, folder, adds, folder, adds[i].0, b.nextFile + i);
    AddAllContents(b, sha256, folder, adds, b.nextFile + i);
    ArchiveHasTree(AddAll(b, sha256, folder, adds), sha256);
  }

  lemma ItemOfAdds(b: Archive, sha256: Sha256, folder: Id, entries: seq<ZipEntry>, item: BackupFile, adds: seq<(seq<string>, string)>, i: nat)
    requires ArchiveOk(b, sha256) && AddsOk(adds) && i < |adds| && CheckItem(sha256, ByName(entries), item) == Ok(adds[i])
    ensures var c := AddAll(b, sha256, folder, adds);
      ArchiveOk(c, sha256) && TreeOk(c.tree) && ItemStored(c, sha256, folder, b.nextFile + i, entries, item)
  {
    hide ArchiveOk, TreeOk, CheckItem, ByName, Genuine, IsGenuine, AddAll, FileAt, Content, SegmentsOk, SameHash, Carries, AddsOk, ActiveFile;
    AddedThere(b, sha256, folder, adds, i);
    CheckItemIff(sha256, entries, item);
    IntactOf(sha256, entries, item, adds[i].0, adds[i].1);
    assert StoredFor(AddAll(b, sha256, folder, adds), sha256, folder, b.nextFile + i, item, adds[i].0, adds[i].1);
  }

  lemma FileStored(b: Archive, sha256: Sha256, folder: Id, entries: seq<ZipEntry>, items: seq<BackupFile>, i: nat)
    requires ArchiveOk(b, sha256) && AllGenuine(sha256, entries, items) && i < |items|
    ensures var r := ImportFiles(b, sha256, folder, ByName(entries), items);
      r.Ok? && ArchiveOk(r.value, sha256) && ItemStored(r.value, sha256, folder, b.nextFile + i, entries, items[i])
  {
    hide ArchiveOk, CheckItem, ByName, AllGenuine, ImportFiles, AddAll, AddsOk, ItemStored;
    ItemsPass(sha256, entries, items);
    var adds := GenuineAdds(sha256, entries, items);
    ImportFilesIsAddAll(b, sha256, folder, ByName(entries), items, adds);
    ItemOfAdds(b, sha256, folder, entries, items[i], adds, i);
  }

  lemma IntactOf(sha256: Sha256, entries: seq<ZipEntry>, item: BackupFile, segments: seq<string>, content: string)
    requires Genuine(sha256, entries, item, segments, content)
    ensures |content| == item.size && SameHash(sha256(content), item.sha)
  {
    hide SameHash, Carries, CleanPathSegments;
  }

  /** One damaged file, whose entry has another size or another hash, and the import fails. */
  lemma DamagedIsRefused(a: Archive, sha256: Sha256, folder: Id, zip: Zip, i: nat, content: string)
    requires zip.manifest.Some? && i < |zip.manifest.value.manifest.files|
    requires var item := zip.manifest.value.manifest.files[i];
      Carries(zip.entries, item.archivePath, content) && !Intact(sha256, item, content)
    ensures Import(a, sha256, folder, zip).Err?
  {
    hide Import, Carries, Intact, CleanPathSegments, TrimSpace;
    ImportsIff(a, sha256, folder, zip);
    var item := zip.manifest.value.manifest.files[i];
    if ZipTaken(sha256, zip) {
      assert IsGenuine(sha256, zip.entries, item);
      var segments, other :| Genuine(sha256, zip.entries, item, segments, other);
      OneContent(zip.entries, item.archivePath, content, other);
    }
  }

  lemma OneContent(entries: seq<ZipEntry>, name: string, x: string, y: string)
    requires Carries(entries, name, x) && Carries(entries, name, y)
    ensures x == y
  {
    hide ByName, LastNamed;
    ByNameIff(entries, name, x);
    ByNameIff(entries, name, y);
  }

  // ------------------------------------------------------------------ a witness

  const ITEM := BackupFile("a.txt", "a.txt", "content/a.txt", 3, "ABC0")

  function Hexes(content: string): string {
    if content == "abc" then "abc0" else "0000"
  }

  function Packed(content: string): Zip {
    var folder := FolderInfo("plans", "", FolderPolicy(1, 0, 5, 1));
    Zip(Some(ManifestEntry(Manifest("archivon-folder-backup", 1, folder, [], [ITEM]), 200)), [ZipEntry("content/a.txt", content)])
  }

  lemma PackedItem(content: string)
    ensures Carries(Packed(content).entries, ITEM.archivePath, content) && CleanPathSegments(ITEM.path, ITEM.name).Ok?
    ensures CheckItem(Hexes, ByName(Packed(content).entries), ITEM) ==
      if content == "abc" then Ok((CleanPathSegments(ITEM.path, ITEM.name).value, content)) else Err(ChecksumMismatch)
  {
    hide CleanPathSegments, CheckItem, ByName, SegmentOk, Join, CleanPath;
    var entries := Packed(content).entries;
    assert LastNamed(entries, 0) && entries[0] == ZipEntry("content/a.txt", content);
    assert SegmentsOk(["a.txt"]) && Join(["a.txt"]) == "a.txt" by { NameIsSegment(); }
    CleanPathIsTaken(["a.txt"], "a.txt");
    var segments := CleanPathSegments(ITEM.path, ITEM.name).value;
    HashOf(content);
    CheckItemIff(Hexes, entries, ITEM);
    GenuineIff(Hexes, entries, ITEM, segments, content);
    OnlyContent(entries, content);
  }

  lemma OnlyContent(entries: seq<ZipEntry>, content: string)
    requires entries == [ZipEntry("content/a.txt", content)]
    ensures forall other :: Carries(entries, "content/a.txt", other) ==> other == content
  {
  }

  lemma NameIsSegment()
    ensures SegmentsOk(["a.txt"]) && Join(["a.txt"]) == "a.txt"
  {
    assert SegmentOk("a.txt");
  }

  lemma HashOf(content: string)
    ensures Intact(Hexes, ITEM, content) <==> content == "abc"
  {
    assert "abc0"[0] == 'a' && "abc0"[1] == 'b' && "abc0"[2] == 'c' && "abc0"[3] == '0';
    assert "0000"[0] == '0' && "ABC0"[0] == 'A' && "ABC0"[1] == 'B' && "ABC0"[2] == 'C' && "ABC0"[3] == '0';
  }

  lemma NameIsNotBlank()
    ensures TrimSpace("plans") == "plans"
  {
    assert Trimmed("plans");
  }

  /** The hash counts, up to case: a zip whose file has its own text is imported, the same zip with
      another text of the same length is refused. */
  lemma SwappedTextIsRefused(a: Archive, folder: Id)
    ensures Import(a, Hexes, folder, Packed("abc")).Ok?
    ensures |"xyz"| == |"abc"| && Import(a, Hexes, folder, Packed("xyz")) == Err(ChecksumMismatch)
  {
    hide CheckItem, ByName, CleanPathSegments, TrimSpace, AddFile, PolicyOk, NormalizeFolderPolicy, Trimmed, IsGenuine;
    PackedItem("abc");
    PackedItem("xyz");
    NameIsNotBlank();
    ImportsIff(a, Hexes, folder, Packed("abc"));
    CheckItemIff(Hexes, Packed("abc").entries, ITEM);
    PolicyIff(FolderPolicy(1, 0, 5, 1));
    FirstRefusal(a, Hexes, folder, ByName(Packed("xyz").entries), [ITEM], 0);
  }

  // -------------------------------------------------------------------- the export

  // The entry of one file: under its display path, with bytes of the size and hash its row says.
  ghost predicate IsFileEntry(sha256: Sha256, entry: ZipEntry, file: File, shown: map<nat, string>) {
    && file.id in shown && entry.name == "content/" + shown[file.id]
    && |entry.content| == file.size && sha256(entry.content) == file.sha
  }

  /** An export lists every collection, as an empty entry with a slash at the end, and every file of
      the folder, by its display path, with size, hash and bytes, in the order given. */
  lemma ExportWrites(a: Archive, sha256: Sha256, encoded: Encoded, folder: Id, info: FolderInfo, files: seq<File>, collections: seq<string>)
    requires ArchiveOk(a, sha256) && IsListing(a, folder, files) && forall i :: 0 <= i < |collections| ==> CleanPath(collections[i])
    ensures var zip, shown, n := Export(a, sha256, encoded, info, files, collections), DisplayPaths(files), |collections|;
      && zip.manifest.Some? && zip.manifest.value.size == encoded(zip.manifest.value.manifest)
      && var m := zip.manifest.value.manifest;
         && m.format == "archivon-folder-backup" && m.version == 1 && m.folder == info && m.collections == collections
         && |m.files| == |files| && |zip.entries| == n + |files|
         && (forall i :: 0 <= i < n ==> zip.entries[i] == ZipEntry("content/" + collections[i] + "/", ""))
         && (forall i :: 0 <= i < |files| ==>
               && IsFileEntry(sha256, zip.entries[n + i], files[i], shown)
               && m.files[i] == BackupFile(shown[files[i].id], files[i].name, zip.entries[n + i].name, files[i].size, files[i].sha))
  {
    hide ArchiveOk, IsListing, CleanPath, DisplayPaths, FileItem, CollectionEntries, TrimSlashes, Content;
    CollectionsWritten(collections);
    var shown := DisplayPaths(files);
    forall i | 0 <= i < |files|
      ensures var entry := ZipEntry(FileItem(files[i], shown).archivePath, Content(a, sha256, files[i].id).GetOr(""));
        && IsFileEntry(sha256, entry, files[i], shown)
        && FileItem(files[i], shown) == BackupFile(shown[files[i].id], files[i].name, entry.name, files[i].size, files[i].sha)
    {
      ShownPaths(a, sha256, folder, files, i);
      ContentOfListed(a, sha256, folder, files, i);
    }
  }

  // A file without a display path is put under the last part of its own path, else of its name, else
  // under a name for all.
  lemma ArchivePathFallsBack(displayPath: string, filePath: string, fileName: string)
    requires TrimSlashes(ForwardSlashes(displayPath)) == ""
    ensures var r, path, name := BackupArchivePath(displayPath, filePath, fileName), CleanUploadName(filePath), CleanUploadName(fileName);
      && (path != "" ==> r == "content/" + path)
      && (path == "" && name != "" ==> r == "content/" + name)
      && (path == "" && name == "" ==> r == "content/file.bin")
  {
    hide TrimSlashes, ForwardSlashes, CleanUploadName;
  }

  lemma {:induction false} CollectionsWritten(collections: seq<string>)
    requires forall i :: 0 <= i < |collections| ==> CleanPath(collections[i])
    ensures var entries := CollectionEntries(collections);
      && |entries| == |collections|
      && forall i :: 0 <= i < |entries| ==> entries[i] == ZipEntry("content/" + collections[i] + "/", "")
  {
    hide CleanPath, TrimSlashes;
    if collections != [] {
      var n := |collections| - 1;
      CollectionsWritten(collections[..n]);
      CleanPathIsStable(collections[n]);
    }
  }
}
