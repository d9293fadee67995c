/** Unique display paths for the files of a folder, as WebDAV and the backup show them. */
module DavNames {
  import opened Base
  import opened Numerals
  import opened Text

  datatype File = File(id: nat, path: string, name: string, sha: string, size: nat)

  predicate DistinctIds(files: seq<File>) {
    forall i, j :: 0 <= i < j < |files| ==> files[i].id != files[j].id
  }

  predicate CleanPaths(files: seq<File>) {
    forall i :: 0 <= i < |files| ==> CleanPath(files[i].path)
  }

  // -------------------------------------------------------------- candidates

  // The directory and base name a file asks for.
  datatype Slot = Slot(dir: string, base: string)

  function SlotOf(file: File): Slot {
    var trimmed := TrimSlashes(ForwardSlashes(file.path));
    var cleanPath := if trimmed == "" then file.name else trimmed;
    var dir := PathDir(cleanPath);
    var base := PathBase(cleanPath);
    Slot(if dir == "." then "" else dir,
         if base == "." || base == "/" || TrimSpace(base) == "" then file.name else base)
  }

  // Extension of a base name, and what comes before it; a name that is all extension has none.
  function Extension(base: string): (e: string)
    ensures |e| <= |base|
  {
    var e := PathExt(base);
    if |e| == |base| then "" else e
  }

  function Stem(base: string): string {
    base[..|base| - |Extension(base)|]
  }

  lemma StemAndExtension(base: string)
    ensures base == Stem(base) + Extension(base)
  {
    hide PathExt;
  }

  function CopyMark(index: nat): string {
    if index == 0 then "" else if index == 1 then " (copy)" else " (copy " + Decimal(index) + ")"
  }

  function CopyName(base: string, index: nat): string {
    Stem(base) + CopyMark(index) + Extension(base)
  }

  function InDir(dir: string, name: string): string {
    if dir == "" then name else dir + "/" + name
  }

  function Candidate(slot: Slot, index: nat): string {
    InDir(slot.dir, CopyName(slot.base, index))
  }

  // The candidates for one slot are pairwise distinct, so running out of them is impossible.
  lemma CandidatesDiffer(slot: Slot, i: nat, j: nat)
    requires Candidate(slot, i) == Candidate(slot, j)
    ensures i == j
  {
    var x, y := CopyName(slot.base, i), CopyName(slot.base, j);
    if slot.dir != "" {
      Cancel(slot.dir + "/", x, y, "");
    }
    Cancel(Stem(slot.base), CopyMark(i), CopyMark(j), Extension(slot.base));
    MarksDiffer(i, j);
  }

  lemma MarksDiffer(i: nat, j: nat)
    requires CopyMark(i) == CopyMark(j)
    ensures i == j
  {
    assert |" (copy)"| == 7 && |" (copy "| == 7;
    if i >= 2 && j >= 2 {
      Cancel(" (copy ", Decimal(i), Decimal(j), ")");
      NumberOfDecimal(i);
      NumberOfDecimal(j);
    }
  }

  // ----------------------------------------------------------- specification

  function Tried(slot: Slot, k: nat): set<string> {
    set i: nat | i < k :: Candidate(slot, i)
  }

  lemma TriedGrows(slot: Slot, k: nat)
    ensures Tried(slot, k + 1) == Tried(slot, k) + {Candidate(slot, k)}
    ensures Candidate(slot, k) !in Tried(slot, k)
  {
    forall i: nat | i < k ensures Candidate(slot, i) != Candidate(slot, k) {
      if Candidate(slot, i) == Candidate(slot, k) {
        CandidatesDiffer(slot, i, k);
      }
    }
  }

  lemma OneFewerLeft(slot: Slot, taken: set<string>, k: nat)
    requires Candidate(slot, k) in taken
    ensures |taken - Tried(slot, k + 1)| < |taken - Tried(slot, k)|
  {
    TriedGrows(slot, k);
    assert taken - Tried(slot, k) == (taken - Tried(slot, k + 1)) + {Candidate(slot, k)};
  }

  // The first candidate from k on that is not taken. It terminates by the pigeonhole principle.
  ghost function FreeFrom(slot: Slot, taken: set<string>, k: nat): nat
    decreases |taken - Tried(slot, k)|
  {
    if Candidate(slot, k) !in taken then k
    else
      OneFewerLeft(slot, taken, k);
      FreeFrom(slot, taken, k + 1)
  }

  predicate AllTaken(slot: Slot, taken: set<string>, k: nat, r: nat) {
    forall j: nat :: k <= j < r ==> Candidate(slot, j) in taken
  }

  lemma {:induction false} FreeFromIsLeast(slot: Slot, taken: set<string>, k: nat)
    ensures var r := FreeFrom(slot, taken, k); k <= r && Candidate(slot, r) !in taken && AllTaken(slot, taken, k, r)
    decreases |taken - Tried(slot, k)|
  {
    hide Candidate, Tried;
    if Candidate(slot, k) in taken {
      OneFewerLeft(slot, taken, k);
      FreeFromIsLeast(slot, taken, k + 1);
    }
  }

  lemma LeastIsFreeFrom(slot: Slot, taken: set<string>, r: nat)
    requires Candidate(slot, r) !in taken && AllTaken(slot, taken, 0, r)
    ensures FreeFrom(slot, taken, 0) == r
  {
    FreeFromIsLeast(slot, taken, 0);
  }

  // At most one retry for each path already given out.
  lemma RetriesAreBounded(slot: Slot, taken: set<string>)
    ensures FreeFrom(slot, taken, 0) <= |taken|
  {
    var r := FreeFrom(slot, taken, 0);
    FreeFromIsLeast(slot, taken, 0);
    TriedSize(slot, r);
    SubsetSize(Tried(slot, r), taken);
  }

  lemma {:induction false} TriedSize(slot: Slot, k: nat)
    ensures |Tried(slot, k)| == k
  {
    hide Candidate;
    if k > 0 {
      TriedSize(slot, k - 1);
      TriedGrows(slot, k - 1);
    }
  }

  ghost function NextDisplayPath(file: File, taken: set<string>): string {
    Candidate(SlotOf(file), FreeFrom(SlotOf(file), taken, 0))
  }

  // One file after the other gets the first free candidate for its slot.
  ghost function DisplayPaths(files: seq<File>): map<nat, string> {
    if files == [] then map[]
    else
      var before := DisplayPaths(files[..|files| - 1]);
      before[files[|files| - 1].id := NextDisplayPath(files[|files| - 1], before.Values)]
  }

  lemma NextDisplayPathIsFree(file: File, taken: set<string>)
    ensures NextDisplayPath(file, taken) !in taken
  {
    FreeFromIsLeast(SlotOf(file), taken, 0);
  }

  lemma {:induction false} DisplayPathsKeys(files: seq<File>)
    ensures forall id :: id in DisplayPaths(files) <==> exists i :: 0 <= i < |files| && files[i].id == id
  {
    hide NextDisplayPath;
    if files != [] {
      DisplayPathsKeys(files[..|files| - 1]);
      assert files[|files| - 1].id in DisplayPaths(files);
    }
  }

  lemma EachIsShown(files: seq<File>, i: nat)
    requires i < |files|
    ensures files[i].id in DisplayPaths(files)
  {
    DisplayPathsKeys(files);
  }

  // -------------------------------------------------------------- algorithm

  // Every candidate below a stored count has been given out.
  predicate CountsOk(usedByDir: map<string, map<string, nat>>, taken: set<string>) {
    forall d, b, k: nat :: d in usedByDir && b in usedByDir[d] && k < usedByDir[d][b] ==> Candidate(Slot(d, b), k) in taken
  }

  /** davDisplayPaths. The counts kept per directory and name only skip candidates known to be
      taken: the outcome is that of trying every candidate from the first. */
  method DavDisplayPaths(files: seq<File>) returns (result: map<nat, string>)
    requires DistinctIds(files)
    ensures result == DisplayPaths(files)
  {
    hide *;
    var usedByDir: map<string, map<string, nat>> := map[];
    result := map[];
    NothingShown(files);
    NothingCounted(result.Values);
    for n := 0 to |files|
      invariant result == DisplayPaths(files[..n])
      invariant CountsOk(usedByDir, result.Values)
    {
      var file := files[n];
      var cleanPath := TrimSlashes(ForwardSlashes(file.path));
      if cleanPath == "" {
        cleanPath := file.name;
      }
      var dir := PathDir(cleanPath);
      if dir == "." {
        dir := "";
      }
      var base := PathBase(cleanPath);
      if base == "." || base == "/" || TrimSpace(base) == "" {
        base := file.name;
      }
      var stem, extension := CutExtension(base);
      ghost var slot := Slot(dir, base);
      SlotIs(file, slot);
      var used := if dir in usedByDir then usedByDir[dir] else map[];
      var index := if base in used then used[base] else 0;
      CountIsTaken(usedByDir, result.Values, slot);
      var displayPath;
      index, displayPath := UniquePath(dir, base, stem, extension, index, result.Values);
      IsNext(file, result.Values, index);
      OneMoreShown(files, n);
      GivesOut(result, file.id, displayPath);
      CountsKept(usedByDir, result.Values, slot, index);
      result := result[file.id := displayPath];
      usedByDir := usedByDir[dir := used[base := index + 1]];
    }
    assert files[..|files|] == files;
  }

  /** The inner loop of davDisplayPaths: retry with the next copy number until the path is free. */
  method UniquePath(dir: string, base: string, stem: string, extension: string, start: nat, taken: set<string>)
    returns (index: nat, displayPath: string)
    requires stem == Stem(base) && extension == Extension(base)
    requires AllTaken(Slot(dir, base), taken, 0, start)
    ensures AllTaken(Slot(dir, base), taken, 0, index)
    ensures displayPath == Candidate(Slot(dir, base), index) && displayPath !in taken
  {
    hide *;
    index := start;
    var displayName := base;
    ghost var slot := Slot(dir, base);
    while true
      invariant index == 0 ==> displayName == base
      invariant AllTaken(slot, taken, 0, index)
      decreases |taken - Tried(slot, index)|
    {
      if index == 1 {
        displayName := stem + " (copy)" + extension;
      } else if index > 1 {
        displayName := stem + " (copy " + Decimal(index) + ")" + extension;
      }
      displayPath := if dir != "" then dir + "/" + displayName else displayName;
      IsCandidate(slot, index, displayName, displayPath);
      if displayPath !in taken {
        return;
      }
      OneFewerLeft(slot, taken, index);
      OneMoreTaken(slot, taken, index);
      index := index + 1;
    }
  }

  // What davDisplayPaths does with a base before it tries the first path.
  method CutExtension(base: string) returns (stem: string, extension: string)
    ensures stem == Stem(base) && extension == Extension(base)
  {
    hide PathExt;
    extension := PathExt(base);
    stem := base[..|base| - |extension|];
    if stem == "" {
      return base, "";
    }
  }

  lemma SlotIs(file: File, slot: Slot)
    requires var trimmed := TrimSlashes(ForwardSlashes(file.path));
      var cleanPath := if trimmed == "" then file.name else trimmed;
      && slot.dir == (if PathDir(cleanPath) == "." then "" else PathDir(cleanPath))
      && slot.base == (if PathBase(cleanPath) == "." || PathBase(cleanPath) == "/" || TrimSpace(PathBase(cleanPath)) == ""
                       then file.name else PathBase(cleanPath))
    ensures SlotOf(file) == slot
  {
    hide TrimSlashes, ForwardSlashes, PathDir, PathBase, TrimSpace;
  }

  lemma IsNext(file: File, taken: set<string>, index: nat)
    requires Candidate(SlotOf(file), index) !in taken && AllTaken(SlotOf(file), taken, 0, index)
    ensures NextDisplayPath(file, taken) == Candidate(SlotOf(file), index)
  {
    hide SlotOf, Candidate;
    LeastIsFreeFrom(SlotOf(file), taken, index);
  }

  lemma NothingCounted(taken: set<string>)
    ensures CountsOk(map[], taken)
  {
  }

  lemma CountIsTaken(usedByDir: map<string, map<string, nat>>, taken: set<string>, slot: Slot)
    requires CountsOk(usedByDir, taken)
    ensures AllTaken(slot, taken, 0, 0)
    ensures var used := if slot.dir in usedByDir then usedByDir[slot.dir] else map[];
      AllTaken(slot, taken, 0, if slot.base in used then used[slot.base] else 0)
  {
    hide Candidate;
  }

  lemma OneMoreTaken(slot: Slot, taken: set<string>, index: nat)
    requires AllTaken(slot, taken, 0, index) && Candidate(slot, index) in taken
    ensures AllTaken(slot, taken, 0, index + 1)
  {
    hide Candidate;
  }

  lemma CountsKept(usedByDir: map<string, map<string, nat>>, taken: set<string>, slot: Slot, index: nat)
    requires CountsOk(usedByDir, taken) && AllTaken(slot, taken, 0, index)
    ensures var used := if slot.dir in usedByDir then usedByDir[slot.dir] else map[];
      CountsOk(usedByDir[slot.dir := used[slot.base := index + 1]], taken + {Candidate(slot, index)})
  {
    hide Candidate;
    assert Slot(slot.dir, slot.base) == slot;
  }

  lemma IsCandidate(slot: Slot, index: nat, displayName: string, displayPath: string)
    requires index == 0 ==> displayName == slot.base
    requires index == 1 ==> displayName == Stem(slot.base) + " (copy)" + Extension(slot.base)
    requires index > 1 ==> displayName == Stem(slot.base) + " (copy " + Decimal(index) + ")" + Extension(slot.base)
    requires displayPath == if slot.dir != "" then slot.dir + "/" + displayName else displayName
    ensures displayPath == Candidate(slot, index)
  {
    if index > 1 {
      assert Stem(slot.base) + (" (copy " + Decimal(index) + ")") == Stem(slot.base) + " (copy " + Decimal(index) + ")";
    } else if index == 0 {
      StemAndExtension(slot.base);
      assert Stem(slot.base) + "" == Stem(slot.base);
    }
  }

  lemma NothingShown(files: seq<File>)
    ensures DisplayPaths(files[..0]) == map[]
  {
  }

  lemma OneMoreShown(files: seq<File>, n: nat)
    requires DistinctIds(files) && n < |files|
    ensures var before := DisplayPaths(files[..n]);
      files[n].id !in before && DisplayPaths(files[..n + 1]) == before[files[n].id := NextDisplayPath(files[n], before.Values)]
  {
    assert files[..n + 1][..n] == files[..n];
    IsNewKey(files, n);
  }

  lemma IsNewKey(files: seq<File>, n: nat)
    requires DistinctIds(files) && n < |files|
    ensures files[n].id !in DisplayPaths(files[..n])
  {
    DisplayPathsKeys(files[..n]);
  }

  lemma GivesOut(paths: map<nat, string>, id: nat, path: string)
    requires id !in paths
    ensures paths[id := path].Values == paths.Values + {path}
  {
    var next := paths[id := path];
    assert next[id] == path;
    forall v | v in paths.Values ensures v in next.Values {
      var k :| k in paths && paths[k] == v;
      assert next[k] == v;
    }
  }

  // -------------------------------------------------------------- properties

  // Distinct files get distinct display paths, whatever their stored paths are.
  lemma {:induction false} DisplayPathsAreDistinct(files: seq<File>, i: nat, j: nat)
    requires DistinctIds(files) && i < j < |files|
    ensures files[i].id in DisplayPaths(files) && files[j].id in DisplayPaths(files)
    ensures DisplayPaths(files)[files[i].id] != DisplayPaths(files)[files[j].id]
  {
    hide NextDisplayPath;
    var n := |files| - 1;
    var init := files[..n];
    var before := DisplayPaths(init);
    IsNewKey(files, n);
    assert init[i] == files[i];
    if j < n {
      DisplayPathsAreDistinct(init, i, j);
      assert init[j] == files[j];
    } else {
      EachIsShown(init, i);
      NextDisplayPathIsFree(files[n], before.Values);
      assert before[files[i].id] in before.Values;
    }
  }

  // Every file stays in its directory, under its own name or a numbered copy of it.
  lemma {:induction false} DisplayPathIsCandidate(files: seq<File>, i: nat) returns (index: nat)
    requires DistinctIds(files) && i < |files|
    ensures files[i].id in DisplayPaths(files)
    ensures DisplayPaths(files)[files[i].id] == Candidate(SlotOf(files[i]), index)
  {
    hide SlotOf, Candidate;
    var n := |files| - 1;
    var init := files[..n];
    if i < n {
      index := DisplayPathIsCandidate(init, i);
      assert init[i] == files[i];
    } else {
      index := FreeFrom(SlotOf(files[n]), DisplayPaths(init).Values, 0);
      assert DisplayPaths(files)[files[n].id] == NextDisplayPath(files[n], DisplayPaths(init).Values);
    }
  }

  lemma CleanSlot(file: File, init: seq<string>, last: string)
    requires SegmentsOk(init) && SegmentOk(last) && file.path == Join(init + [last])
    ensures SlotOf(file) == Slot(Join(init), last)
  {
    assert SegmentsOk(init + [last]);
    JoinedIsClean(init + [last]);
    CleanPathIsStable(file.path);
    DirAndBase(init, last);
    if init != [] {
      CleanPathEnds(init);
      JoinedIsNotDot(init);
    }
  }

  lemma JoinedIsNotDot(segments: seq<string>)
    requires segments != [] && SegmentsOk(segments)
    ensures Join(segments) != "."
  {
    assert SegmentOk(segments[0]);
    if |segments| > 1 {
      assert '/' in Join(segments);
    }
  }

  // A clean path, cut into its directory and its name.
  lemma CutPath(p: string) returns (init: seq<string>, last: string)
    requires CleanPath(p)
    ensures SegmentsOk(init) && SegmentOk(last) && p == Join(init + [last]) && Split(p) == init + [last]
  {
    hide Join, Split, SegmentOk;
    var parts := Split(p);
    JoinSplit(p);
    init, last := parts[..|parts| - 1], parts[|parts| - 1];
    assert init + [last] == parts;
  }

  lemma CleanCandidate(init: seq<string>, last: string, index: nat)
    requires SegmentsOk(init) && SegmentOk(last)
    ensures SegmentOk(CopyName(last, index))
    ensures Candidate(Slot(Join(init), last), index) == Join(init + [CopyName(last, index)])
  {
    CopyIsSegment(last, index);
    if init == [] {
      assert init + [CopyName(last, index)] == [CopyName(last, index)];
    } else {
      CleanPathEnds(init);
      JoinTwo(init, [CopyName(last, index)]);
    }
  }

  lemma MarkShape(index: nat)
    requires index > 0
    ensures var m := CopyMark(index);
      |m| >= 7 && m[0] == ' ' && m[1] == '(' && m[|m| - 1] == ')' && forall i :: 0 <= i < |m| ==> !Refused(m[i]) && m[i] as int < 0x80
  {
    assert forall c: char :: '0' <= c <= '9' ==> !Refused(c) && c as int < 0x80;
  }

  lemma CopyIsSegment(base: string, index: nat)
    requires SegmentOk(base)
    ensures SegmentOk(CopyName(base, index))
  {
    hide Stem, Extension, CopyMark, SegmentOk, LeadingSpace, TrailingSpace;
    var stem, mark, ext := Stem(base), CopyMark(index), Extension(base);
    StemAndExtension(base);
    if index == 0 {
      NoMark();
      assert stem + "" == stem;
    } else {
      MarkShape(index);
      SegmentTrimmed(base);
      StemIsThere(base);
      CopyTrimmed(stem, mark, ext);
      CopyCharacters(base, index);
      HasMark(stem, mark, ext);
      IsSegment(CopyName(base, index));
    }
  }

  lemma NoMark()
    ensures CopyMark(0) == ""
  {
  }

  lemma SegmentTrimmed(s: string)
    requires SegmentOk(s)
    ensures LeadingSpace(s) == 0 && TrailingSpace(s) == 0 && s != ""
  {
  }

  lemma StemIsThere(base: string)
    requires base != ""
    ensures Stem(base) != ""
  {
    hide PathExt;
  }

  lemma CopyTrimmed(stem: string, mark: string, ext: string)
    requires stem != "" && LeadingSpace(stem + ext) == 0 && TrailingSpace(stem + ext) == 0
    requires |mark| >= 2 && mark[0] as int < 0x80 && mark[|mark| - 1] == ')'
    ensures LeadingSpace(stem + mark + ext) == 0 && TrailingSpace(stem + mark + ext) == 0
  {
    var name := stem + mark + ext;
    assert name == stem + (mark + ext);
    LeadingStays(stem, ext, mark + ext);
    if ext == "" {
      assert name[|name| - 1] == ')';
    } else {
      TrailingStays(stem, ext, stem + mark);
    }
  }

  lemma HasMark(stem: string, mark: string, ext: string)
    requires stem != "" && |mark| >= 2 && mark[1] == '('
    ensures var name := stem + mark + ext; |name| > 2 && name != "" && name != "." && name != ".."
  {
  }

  lemma IsSegment(s: string)
    requires s != "" && s != "." && s != ".." && LeadingSpace(s) == 0 && TrailingSpace(s) == 0
    requires forall i :: 0 <= i < |s| ==> !Refused(s[i])
    ensures SegmentOk(s)
  {
  }

  lemma CopyCharacters(base: string, index: nat)
    requires SegmentOk(base) && index > 0
    ensures var name := CopyName(base, index); forall i :: 0 <= i < |name| ==> !Refused(name[i])
  {
    MarkShape(index);
    var stem, mark, ext := Stem(base), CopyMark(index), Extension(base);
    var name := CopyName(base, index);
    forall i | 0 <= i < |name| ensures !Refused(name[i]) {
      if i < |stem| {
        assert name[i] == base[i];
      } else if i < |stem| + |mark| {
        assert name[i] == mark[i - |stem|];
      } else {
        assert name[i] == base[i - |mark|];
      }
    }
  }

  // The display path of a clean path is clean, and in the same directory.
  lemma DisplayPathIsClean(files: seq<File>, i: nat)
    requires DistinctIds(files) && i < |files| && CleanPath(files[i].path)
    ensures files[i].id in DisplayPaths(files)
    ensures var shown := DisplayPaths(files)[files[i].id];
      CleanPath(shown) && PathDir(shown) == PathDir(files[i].path)
  {
    hide SlotOf, Candidate, CopyName, PathDir, Join, Split, DisplayPaths;
    var init, last := CutPath(files[i].path);
    var index := DisplayPathIsCandidate(files, i);
    CleanSlot(files[i], init, last);
    CleanCandidate(init, last, index);
    var name := CopyName(last, index);
    DirAndBase(init, last);
    DirAndBase(init, name);
    assert SegmentsOk(init + [name]);
    JoinedIsClean(init + [name]);
  }

  predicate DistinctStoredPaths(files: seq<File>) {
    forall i, j :: 0 <= i < j < |files| ==> files[i].path != files[j].path
  }

  predicate ShowsStoredPaths(files: seq<File>, shown: map<nat, string>) {
    forall i :: 0 <= i < |files| ==> files[i].id in shown && shown[files[i].id] == files[i].path
  }

  // Clean stored paths are shown as they are exactly when no two of them are the same.
  lemma ShownAsStoredIffDistinct(files: seq<File>)
    requires DistinctIds(files) && CleanPaths(files)
    ensures ShowsStoredPaths(files, DisplayPaths(files)) <==> DistinctStoredPaths(files)
  {
    var shown := DisplayPaths(files);
    if ShowsStoredPaths(files, shown) {
      forall i, j | 0 <= i < j < |files| ensures files[i].path != files[j].path {
        DisplayPathsAreDistinct(files, i, j);
      }
    }
    if DistinctStoredPaths(files) {
      DistinctPathsAreKept(files);
    }
  }

  lemma {:induction false} DistinctPathsAreKept(files: seq<File>)
    requires DistinctIds(files) && CleanPaths(files) && DistinctStoredPaths(files)
    ensures ShowsStoredPaths(files, DisplayPaths(files))
  {
    hide SlotOf, Candidate, CleanPath;
    if files != [] {
      var n := |files| - 1;
      var init := files[..n];
      DistinctPathsAreKept(init);
      OwnPathIsFree(files);
      FirstCandidateIsPath(files[n]);
      LeastIsFreeFrom(SlotOf(files[n]), DisplayPaths(init).Values, 0);
      assert NextDisplayPath(files[n], DisplayPaths(init).Values) == files[n].path;
      forall i | 0 <= i < n ensures files[i].id in DisplayPaths(files) && DisplayPaths(files)[files[i].id] == files[i].path {
        assert init[i] == files[i];
      }
    }
  }

  lemma OwnPathIsFree(files: seq<File>)
    requires files != [] && DistinctIds(files) && DistinctStoredPaths(files)
    requires ShowsStoredPaths(files[..|files| - 1], DisplayPaths(files[..|files| - 1]))
    ensures files[|files| - 1].path !in DisplayPaths(files[..|files| - 1]).Values
  {
    var init := files[..|files| - 1];
    DisplayPathsKeys(init);
  }

  // A file is shown as stored exactly if no file before it in the list is shown under its path.
  lemma {:induction false} ShownAsStoredIff(files: seq<File>, i: nat)
    requires DistinctIds(files) && i < |files| && CleanPath(files[i].path)
    ensures forall k :: 0 <= k < |files| ==> files[k].id in DisplayPaths(files)
    ensures DisplayPaths(files)[files[i].id] == files[i].path <==>
      forall k :: 0 <= k < i ==> DisplayPaths(files)[files[k].id] != files[i].path
    decreases |files|
  {
    hide SlotOf, Candidate, CleanPath, NextDisplayPath;
    forall k | 0 <= k < |files| ensures files[k].id in DisplayPaths(files) { EachIsShown(files, k); }
    var n := |files| - 1;
    var init := files[..n];
    EarlierAsBefore(files);
    if i < n {
      ShownAsStoredIff(init, i);
      assert init[i] == files[i];
    } else {
      LastShownIff(files);
    }
  }

  // The last file does not change what is shown of those before it.
  lemma EarlierAsBefore(files: seq<File>)
    requires files != [] && DistinctIds(files)
    ensures var init := files[..|files| - 1];
      forall k :: 0 <= k < |init| ==> init[k].id in DisplayPaths(init) && files[k].id in DisplayPaths(files)
                                      && DisplayPaths(files)[files[k].id] == DisplayPaths(init)[init[k].id]
  {
    hide NextDisplayPath;
    var init := files[..|files| - 1];
    forall k | 0 <= k < |init| ensures init[k].id in DisplayPaths(init) { EachIsShown(init, k); }
  }

  lemma LastShownIff(files: seq<File>)
    requires files != [] && DistinctIds(files) && CleanPath(files[|files| - 1].path)
    requires forall k :: 0 <= k < |files| ==> files[k].id in DisplayPaths(files)
    ensures var n := |files| - 1;
      DisplayPaths(files)[files[n].id] == files[n].path <==> forall k :: 0 <= k < n ==> DisplayPaths(files)[files[k].id] != files[n].path
  {
    hide SlotOf, Candidate, CleanPath;
    var n := |files| - 1;
    var init := files[..n];
    var before := DisplayPaths(init);
    EarlierAsBefore(files);
    FirstCandidateIsPath(files[n]);
    if files[n].path in before.Values {
      NextDisplayPathIsFree(files[n], before.Values);
      DisplayPathsKeys(init);
      var id :| id in before && before[id] == files[n].path;
      var k :| 0 <= k < |init| && init[k].id == id;
    } else {
      LeastIsFreeFrom(SlotOf(files[n]), before.Values, 0);
      forall k | 0 <= k < n ensures DisplayPaths(files)[files[k].id] != files[n].path {
        assert before[init[k].id] in before.Values;
      }
    }
  }

  // No two files of one directory are stored under the same path.
  predicate DistinctInDir(files: seq<File>, dir: string) {
    forall i, j :: 0 <= i < j < |files| && PathDir(files[i].path) == dir && PathDir(files[j].path) == dir ==> files[i].path != files[j].path
  }

  // Then its files are shown as stored, whatever other directories hold.
  lemma {:induction false} DistinctInDirAreKept(files: seq<File>, dir: string, i: nat)
    requires DistinctIds(files) && CleanPaths(files) && DistinctInDir(files, dir) && i < |files| && PathDir(files[i].path) == dir
    ensures files[i].id in DisplayPaths(files) && DisplayPaths(files)[files[i].id] == files[i].path
    decreases |files|
  {
    hide SlotOf, Candidate, CleanPath, PathDir;
    var n := |files| - 1;
    var init := files[..n];
    if i < n {
      DistinctInDirAreKept(init, dir, i);
    } else {
      FreeInDir(files, dir);
      FirstCandidateIsPath(files[n]);
      LeastIsFreeFrom(SlotOf(files[n]), DisplayPaths(init).Values, 0);
    }
  }

  lemma {:induction false} FreeInDir(files: seq<File>, dir: string)
    requires files != [] && DistinctIds(files) && CleanPaths(files) && DistinctInDir(files, dir) && PathDir(files[|files| - 1].path) == dir
    ensures files[|files| - 1].path !in DisplayPaths(files[..|files| - 1]).Values
    decreases |files|, 0
  {
    hide SlotOf, Candidate, CleanPath, PathDir, DisplayPaths;
    var init := files[..|files| - 1];
    var shown := DisplayPaths(init);
    if files[|files| - 1].path in shown.Values {
      var id :| id in shown && shown[id] == files[|files| - 1].path;
      DisplayPathsKeys(init);
      var k :| 0 <= k < |init| && init[k].id == id;
      DisplayPathIsClean(init, k);
      DistinctInDirAreKept(init, dir, k);
    }
  }

  lemma FirstCandidateIsPath(file: File)
    requires CleanPath(file.path)
    ensures Candidate(SlotOf(file), 0) == file.path
  {
    hide SlotOf, Candidate, Join, Split, Stem, Extension;
    var init, last := CutPath(file.path);
    CleanSlot(file, init, last);
    CleanCandidate(init, last, 0);
    StemAndExtension(last);
    assert CopyName(last, 0) == last by { assert Stem(last) + "" == Stem(last); }
  }

  // ------------------------------------------------------------- finding back

  function FindFile(files: seq<File>, shown: map<nat, string>, requested: string): Option<File> {
    if files == [] then None
    else if files[0].id in shown && shown[files[0].id] == TrimSlashes(requested) then Some(files[0])
    else FindFile(files[1..], shown, requested)
  }

  /** davFindFile: the file shown under the requested path, if there is one. */
  method DavFindFile(files: seq<File>, displayPaths: map<nat, string>, requestedPath: string) returns (file: Option<File>)
    requires forall i :: 0 <= i < |files| ==> files[i].id in displayPaths
    ensures file == FindFile(files, displayPaths, requestedPath)
    ensures file.Some? ==> file.value in files && displayPaths[file.value.id] == TrimSlashes(requestedPath)
    ensures file.None? ==> forall i :: 0 <= i < |files| ==> displayPaths[files[i].id] != TrimSlashes(requestedPath)
  {
    var requested := TrimSlashes(requestedPath);
    for i := 0 to |files|
      invariant FindFile(files, displayPaths, requestedPath) == FindFile(files[i..], displayPaths, requestedPath)
      invariant forall k :: 0 <= k < i ==> displayPaths[files[k].id] != requested
    {
      if displayPaths[files[i].id] == requested {
        return Some(files[i]);
      }
    }
    return None;
  }

  // Looking up the path a file is shown under gives that file back.
  lemma FindInvertsDisplay(files: seq<File>, i: nat)
    requires DistinctIds(files) && i < |files| && CleanPath(files[i].path)
    ensures files[i].id in DisplayPaths(files)
    ensures FindFile(files, DisplayPaths(files), DisplayPaths(files)[files[i].id]) == Some(files[i])
  {
    EachIsShown(files, i);
    var shown := DisplayPaths(files);
    var requested := shown[files[i].id];
    DisplayPathIsClean(files, i);
    CleanPathIsStable(requested);
    forall j | 0 <= j < |files| && j != i ensures files[j].id in shown && shown[files[j].id] != requested {
      if j < i { DisplayPathsAreDistinct(files, j, i); } else { DisplayPathsAreDistinct(files, i, j); }
    }
    FindsTheOnly(files, shown, requested, i);
  }

  lemma {:induction false} FindsTheOnly(files: seq<File>, shown: map<nat, string>, requested: string, i: nat)
    requires i < |files| && files[i].id in shown && shown[files[i].id] == TrimSlashes(requested)
    requires forall j :: 0 <= j < |files| && j != i && files[j].id in shown ==> shown[files[j].id] != TrimSlashes(requested)
    ensures FindFile(files, shown, requested) == Some(files[i])
  {
    if i > 0 {
      FindsTheOnly(files[1..], shown, requested, i - 1);
    }
  }
}
