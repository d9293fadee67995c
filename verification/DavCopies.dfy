/** The names copies are shown under, spelled out: the mark stands before the last extension. */
module DavCopies {
  import opened Base
  import opened Numerals
  import opened Text
  import opened DavNames

  // The mark of a copy between what comes before and after it.
  ghost predicate Marked(front: string, back: string, name: string) {
    || name == front + " (copy)" + back
    || exists n: nat :: 2 <= n && name == front + " (copy " + Decimal(n) + ")" + back
  }

  // No dot but perhaps the first character.
  predicate NoInnerDot(base: string) {
    forall i :: 0 < i < |base| ==> base[i] != '.'
  }

  // The text before the last dot, and what follows it; a name is never all extension.
  predicate CutAtLastDot(base: string, s: string, e: string) {
    base == s + "." + e && s != "" && '.' !in e
  }

  // A copy of a name: the mark stands before the last dot, or at the end if there is none to cut at.
  ghost predicate IsCopyOf(base: string, name: string) {
    && (forall s, e :: CutAtLastDot(base, s, e) ==> Marked(s, "." + e, name))
    && (NoInnerDot(base) ==> Marked(base, "", name))
  }

  lemma ExtensionGrows(b: string, c: char)
    ensures c == '.' ==> PathExt(b + [c]) == "."
    ensures c != '.' && c != '/' ==> PathExt(b + [c]) == if PathExt(b) == "" then "" else PathExt(b) + [c]
  {
    assert (b + [c])[..|b|] == b;
  }

  lemma LastApart(s: string, e: string)
    requires e != ""
    ensures s + e == s + e[..|e| - 1] + [e[|e| - 1]]
  {
    assert e == e[..|e| - 1] + [e[|e| - 1]];
  }

  // The extension starts at the last dot.
  lemma {:induction false} ExtensionFromDot(s: string, e: string)
    requires '.' !in e && '/' !in e
    ensures PathExt(s + "." + e) == "." + e
  {
    hide PathExt;
    if e == "" {
      assert s + "." + e == s + ['.'];
      ExtensionGrows(s, '.');
    } else {
      var n := |e| - 1;
      assert '.' !in e[..n] && '/' !in e[..n] && e[n] in e;
      ExtensionFromDot(s, e[..n]);
      ExtensionGrows(s + "." + e[..n], e[n]);
      LastApart(s + ".", e);
      LastApart(".", e);
    }
  }

  lemma {:induction false} NoExtension(base: string)
    requires '.' !in base
    ensures PathExt(base) == ""
  {
    if base != "" {
      NoExtension(base[..|base| - 1]);
    }
  }

  lemma SplitsAtDot(base: string, s: string, e: string)
    requires CutAtLastDot(base, s, e) && '/' !in base
    ensures Stem(base) == s && Extension(base) == "." + e
  {
    assert '/' !in e by { assert forall i :: 0 <= i < |e| ==> e[i] == base[|s| + 1 + i]; }
    ExtensionFromDot(s, e);
    assert |base| == |s| + 1 + |e|;
    assert base[..|s|] == s;
  }

  lemma SplitsNowhere(base: string)
    requires NoInnerDot(base) && '/' !in base
    ensures Stem(base) == base && Extension(base) == ""
  {
    if base != "" && base[0] == '.' {
      assert base == "" + "." + base[1..];
      ExtensionFromDot("", base[1..]);
    } else {
      NoExtension(base);
    }
    assert base[..|base|] == base;
  }

  lemma CopyIsMarked(base: string, index: nat)
    requires index > 0
    ensures Marked(Stem(base), Extension(base), CopyName(base, index))
  {
    hide Stem, Extension;
    if index >= 2 {
      assert Stem(base) + (" (copy " + Decimal(index) + ")") == Stem(base) + " (copy " + Decimal(index) + ")";
    }
  }

  lemma CopiesAreCopies(base: string, index: nat)
    requires '/' !in base && index > 0
    ensures IsCopyOf(base, CopyName(base, index))
  {
    hide Stem, Extension, CopyName, Marked, CutAtLastDot, NoInnerDot;
    CopyIsMarked(base, index);
    forall s, e | CutAtLastDot(base, s, e) ensures Marked(s, "." + e, CopyName(base, index)) {
      SplitsAtDot(base, s, e);
    }
    if NoInnerDot(base) {
      SplitsNowhere(base);
    }
  }

  // One of the two cases applies to every name.
  lemma {:induction false} CutSomewhere(base: string)
    ensures NoInnerDot(base) || exists s, e :: CutAtLastDot(base, s, e)
  {
    if base != "" {
      var n := |base| - 1;
      if n > 0 && base[n] == '.' {
        assert CutAtLastDot(base, base[..n], "");
      } else {
        CutSomewhere(base[..n]);
        if s, e :| CutAtLastDot(base[..n], s, e) {
          assert base == s + "." + (e + [base[n]]);
          assert n > 0 && CutAtLastDot(base, s, e + [base[n]]);
        }
      }
    }
  }

  // The same directory, and the name itself or a copy of it.
  ghost predicate ShownBy(stored: string, shown: string, name: string) {
    var path := Split(stored);
    && Split(shown) == path[..|path| - 1] + [name]
    && (if shown == stored then name == path[|path| - 1] else IsCopyOf(path[|path| - 1], name))
  }

  /** Every file under a clean path is shown in its own directory, under its own name or a copy of it. */
  lemma ShownAsCopy(files: seq<File>, i: nat) returns (name: string)
    requires DistinctIds(files) && i < |files| && CleanPath(files[i].path)
    ensures files[i].id in DisplayPaths(files) && ShownBy(files[i].path, DisplayPaths(files)[files[i].id], name)
  {
    hide SlotOf, Candidate, CopyName, IsCopyOf, Join, Split, DisplayPaths, SegmentOk;
    var init, last := CutPath(files[i].path);
    var index := DisplayPathIsCandidate(files, i);
    CleanSlot(files[i], init, last);
    CleanCandidate(init, last, index);
    name := CopyName(last, index);
    assert SegmentsOk(init + [name]);
    JoinedIsClean(init + [name]);
    assert (init + [last])[..|init|] == init;
    NoCopy(last);
    if index > 0 {
      SlashFree(last);
      CopiesAreCopies(last, index);
      if DisplayPaths(files)[files[i].id] == files[i].path {
        CleanCandidate(init, last, 0);
        CandidatesDiffer(Slot(Join(init), last), index, 0);
      }
    }
  }

  lemma NoCopy(base: string)
    ensures CopyName(base, 0) == base
  {
    hide Stem, Extension;
    StemAndExtension(base);
    assert Stem(base) + "" == Stem(base);
  }

  lemma SlashFree(s: string)
    requires SegmentOk(s)
    ensures '/' !in s
  {
  }

  // ------------------------------------------------------------------ a witness

  const REPORTS := [File(0, "report.txt", "report.txt", "", 0), File(1, "report.txt", "report.txt", "", 0), File(2, "report.txt", "report.txt", "", 0)]

  lemma ReportIsClean()
    ensures CleanPath("report.txt") && SegmentOk("report.txt") && Join([]) == "" && Join(["report.txt"]) == "report.txt"
  {
    var s := "report.txt";
    assert SegmentOk(s);
    assert Join([s]) == s;
    JoinedIsClean([s]);
  }

  lemma ReportCopies()
    ensures SlotOf(REPORTS[0]) == Slot("", "report.txt")
    ensures Candidate(Slot("", "report.txt"), 0) == "report.txt"
    ensures Candidate(Slot("", "report.txt"), 1) == "report (copy).txt"
    ensures Candidate(Slot("", "report.txt"), 2) == "report (copy 2).txt"
  {
    hide SegmentOk, CleanPath, PathExt, SlotOf, Stem, Extension, Join, Decimal;
    ReportIsClean();
    assert [] + ["report.txt"] == ["report.txt"];
    CleanSlot(REPORTS[0], [], "report.txt");
    assert CutAtLastDot("report.txt", "report", "txt");
    SplitsAtDot("report.txt", "report", "txt");
    TwoIs();
    assert "report" + " (copy 2)" + ".txt" == "report (copy 2).txt";
    assert " (copy " + "2" + ")" == " (copy 2)";
    assert "report" + " (copy)" + ".txt" == "report (copy).txt";
    NoCopy("report.txt");
  }

  lemma TwoIs()
    ensures Decimal(2) == "2"
  {
  }

  /** Three files stored under "report.txt" are shown as such, as a copy and as a second copy. */
  lemma ReportsAreShown()
    ensures DisplayPaths(REPORTS) == map[0 := "report.txt", 1 := "report (copy).txt", 2 := "report (copy 2).txt"]
  {
    hide SlotOf, Candidate;
    ReportCopies();
    assert SlotOf(REPORTS[1]) == SlotOf(REPORTS[0]) == SlotOf(REPORTS[2]) by { SameSlots(); }
    var slot := Slot("", "report.txt");
    var one := map[0 := "report.txt"];
    var two := one[1 := "report (copy).txt"];
    assert REPORTS[..0] == [] && REPORTS[..1][..0] == [] && REPORTS[..2][..1] == REPORTS[..1] && REPORTS[..3] == REPORTS;
    LeastIsFreeFrom(slot, {}, 0);
    assert DisplayPaths(REPORTS[..1]) == one by { assert DisplayPaths([]).Values == {}; }
    GivesOut(map[], 0, "report.txt");
    assert one.Values == {"report.txt"} && "report (copy).txt" != "report.txt";
    LeastIsFreeFrom(slot, one.Values, 1);
    assert DisplayPaths(REPORTS[..2]) == two;
    GivesOut(one, 1, "report (copy).txt");
    assert "report (copy 2).txt" != "report.txt" && "report (copy 2).txt" != "report (copy).txt" by { Lengths(); }
    LeastIsFreeFrom(slot, two.Values, 2);
  }

  lemma SameSlots()
    ensures SlotOf(REPORTS[0]) == SlotOf(REPORTS[1]) == SlotOf(REPORTS[2])
  {
  }

  lemma Lengths()
    ensures |"report (copy 2).txt"| == 19 && |"report (copy).txt"| == 17 && |"report.txt"| == 10
  {
  }
}
