/** Go strings as sequences of bytes: character c stands for byte c. Only the operations the
    archive uses are here. */
module Text {
  function TrimLeftSlashes(s: string): string {
    if s != "" && s[0] == '/' then TrimLeftSlashes(s[1..]) else s
  }

  function TrimRightSlashes(s: string): string {
    if s != "" && s[|s| - 1] == '/' then TrimRightSlashes(s[..|s| - 1]) else s
  }

  // strings.Trim(s, "/")
  function TrimSlashes(s: string): string {
    TrimRightSlashes(TrimLeftSlashes(s))
  }

  // strings.ReplaceAll(s, "\\", "/")
  function ForwardSlashes(s: string): (r: string)
    ensures '\\' !in s ==> r == s
  {
    seq(|s|, i requires 0 <= i < |s| => if s[i] == '\\' then '/' else s[i])
  }

  // ------------------------------------------------------------ white space

  // The UTF-8 forms of the white-space characters of unicode.IsSpace, by length.
  predicate IsSpace1(a: char) {
    9 <= a as int <= 13 || a == ' '
  }

  predicate IsSpace2(a: char, b: char) {
    a as int == 0xC2 && (b as int == 0x85 || b as int == 0xA0)
  }

  predicate IsSpace3(a: char, b: char, c: char) {
    || (a as int == 0xE1 && b as int == 0x9A && c as int == 0x80)
    || (a as int == 0xE2 && b as int == 0x80
        && (0x80 <= c as int <= 0x8A || c as int == 0xA8 || c as int == 0xA9 || c as int == 0xAF))
    || (a as int == 0xE2 && b as int == 0x81 && c as int == 0x9F)
    || (a as int == 0xE3 && b as int == 0x80 && c as int == 0x80)
  }

  // Length of the white-space character at the start, or 0.
  function LeadingSpace(s: string): (n: nat)
    ensures n <= |s|
  {
    if |s| >= 1 && IsSpace1(s[0]) then 1
    else if |s| >= 2 && IsSpace2(s[0], s[1]) then 2
    else if |s| >= 3 && IsSpace3(s[0], s[1], s[2]) then 3
    else 0
  }

  // Length of the white-space character at the end, or 0.
  function TrailingSpace(s: string): (n: nat)
    ensures n <= |s|
  {
    var k := |s|;
    if k >= 1 && IsSpace1(s[k - 1]) then 1
    else if k >= 2 && IsSpace2(s[k - 2], s[k - 1]) then 2
    else if k >= 3 && IsSpace3(s[k - 3], s[k - 2], s[k - 1]) then 3
    else 0
  }

  function TrimLeftSpace(s: string): (r: string)
    ensures LeadingSpace(r) == 0
    ensures LeadingSpace(s) == 0 ==> r == s
    decreases |s|
  {
    var n := LeadingSpace(s);
    if n == 0 then s else TrimLeftSpace(s[n..])
  }

  function TrimRightSpace(s: string): (r: string)
    ensures TrailingSpace(r) == 0 && |r| <= |s| && r == s[..|r|]
    ensures TrailingSpace(s) == 0 ==> r == s
    decreases |s|
  {
    var n := TrailingSpace(s);
    if n == 0 then s else TrimRightSpace(s[..|s| - n])
  }

  predicate Trimmed(s: string) {
    LeadingSpace(s) == 0 && TrailingSpace(s) == 0
  }

  // strings.TrimSpace
  function TrimSpace(s: string): (r: string)
    ensures Trimmed(r)
    ensures Trimmed(s) ==> r == s
  {
    TrimRightSpace(TrimLeftSpace(s))
  }

  // White-space characters of two or three bytes hold no ASCII byte, so none reaches across one.
  lemma LeadingStays(a: string, whole: string, b: string)
    requires a != "" && LeadingSpace(a + whole) == 0 && b != "" && b[0] as int < 0x80
    ensures LeadingSpace(a + b) == 0
  {
    var s, t := a + b, a + whole;
    assert s[|a|] == b[0];
    assert forall i :: 0 <= i < |a| ==> s[i] == t[i];
  }

  lemma TrailingStays(whole: string, b: string, a: string)
    requires b != "" && TrailingSpace(whole + b) == 0 && a != "" && a[|a| - 1] as int < 0x80
    ensures TrailingSpace(a + b) == 0
  {
    var s, t := a + b, whole + b;
    assert s[|a| - 1] == a[|a| - 1];
    assert forall i :: |a| <= i < |s| ==> s[i] == t[i - |a| + |whole|];
  }

  lemma TrimmedAcrossSlash(a: string, b: string)
    requires a != "" && b != "" && LeadingSpace(a) == 0 && TrailingSpace(b) == 0
    ensures LeadingSpace(a + "/" + b) == 0 && TrailingSpace(a + "/" + b) == 0
  {
    assert a + "" == a && "" + b == b && a + "/" + b == a + ("/" + b);
    LeadingStays(a, "", "/" + b);
    TrailingStays("", b, a + "/");
  }

  // ---------------------------------------------------------- split and join

  // strings.Split(s, "/")
  function Split(s: string): (r: seq<string>)
    ensures |r| > 0
  {
    if s == "" then [""]
    else
      var rest := Split(s[1..]);
      if s[0] == '/' then [""] + rest else [[s[0]] + rest[0]] + rest[1..]
  }

  // strings.Join(parts, "/")
  function Join(parts: seq<string>): string {
    if parts == [] then ""
    else if |parts| == 1 then parts[0]
    else parts[0] + "/" + Join(parts[1..])
  }

  lemma {:induction false} JoinSplit(s: string)
    ensures Join(Split(s)) == s
  {
    if s != "" {
      var rest := Split(s[1..]);
      JoinSplit(s[1..]);
      if s[0] == '/' {
        assert ([""] + rest)[1..] == rest;
      } else {
        var parts := [[s[0]] + rest[0]] + rest[1..];
        assert parts[1..] == rest[1..];
      }
      assert [s[0]] + s[1..] == s;
    }
  }

  lemma SplitStep(s: string)
    requires s != ""
    ensures var rest := Split(s[1..]); Split(s) == if s[0] == '/' then [""] + rest else [[s[0]] + rest[0]] + rest[1..]
  {
  }

  lemma {:induction false} SplitAtSlash(a: string, b: string)
    ensures Split(a + "/" + b) == Split(a) + Split(b)
  {
    hide Split;
    var s := a + "/" + b;
    SplitStep(s);
    if a == "" {
      assert s[0] == '/' && s[1..] == b;
      SplitNothing();
    } else {
      SplitAtSlash(a[1..], b);
      SplitStep(a);
      assert s[0] == a[0] && s[1..] == a[1..] + "/" + b;
      var rest := Split(a[1..]);
      assert (rest + Split(b))[0] == rest[0] && (rest + Split(b))[1..] == rest[1..] + Split(b);
    }
  }

  lemma SplitNothing()
    ensures Split("") == [""]
  {
  }

  lemma {:induction false} SplitPlain(s: string)
    requires '/' !in s
    ensures Split(s) == [s]
  {
    if s != "" {
      SplitPlain(s[1..]);
      assert [s[0]] + s[1..] == s;
    }
  }

  predicate NoSlashes(parts: seq<string>) {
    forall i :: 0 <= i < |parts| ==> '/' !in parts[i]
  }

  lemma {:induction false} SplitJoin(parts: seq<string>)
    requires parts != [] && NoSlashes(parts)
    ensures Split(Join(parts)) == parts
  {
    SplitPlain(parts[0]);
    if |parts| > 1 {
      SplitJoin(parts[1..]);
      SplitAtSlash(parts[0], Join(parts[1..]));
      assert [parts[0]] + parts[1..] == parts;
    }
  }

  lemma {:induction false} JoinTwo(a: seq<string>, b: seq<string>)
    requires a != [] && b != []
    ensures Join(a + b) == Join(a) + "/" + Join(b)
  {
    assert (a + b)[0] == a[0] && (a + b)[1..] == a[1..] + b;
    if |a| > 1 {
      JoinTwo(a[1..], b);
      assert Join(a) == a[0] + "/" + Join(a[1..]);
      assert Join(a + b) == a[0] + "/" + (Join(a[1..]) + "/" + Join(b));
      assert a[0] + "/" + (Join(a[1..]) + "/" + Join(b)) == (a[0] + "/" + Join(a[1..])) + "/" + Join(b);
    } else {
      assert a[1..] + b == b;
    }
  }

  // Joining is one-to-one on parts without slashes.
  lemma JoinInjective(a: seq<string>, b: seq<string>)
    requires a != [] && b != [] && NoSlashes(a) && NoSlashes(b) && Join(a) == Join(b)
    ensures a == b
  {
    SplitJoin(a);
    SplitJoin(b);
  }

  // ------------------------------------------------------------ Go's "path"

  // The elements path.Clean keeps, `out` being those already kept.
  function Resolve(parts: seq<string>, rooted: bool, out: seq<string>): seq<string> {
    if parts == [] then out
    else
      var p := parts[0];
      var next :=
        if p == "" || p == "." then out
        else if p != ".." then out + [p]
        else if out != [] && out[|out| - 1] != ".." then out[..|out| - 1]
        else if rooted then out
        else out + [p];
      Resolve(parts[1..], rooted, next)
  }

  // path.Clean
  function Clean(s: string): string {
    var rooted := s != "" && s[0] == '/';
    var kept := Join(Resolve(Split(s), rooted, []));
    if rooted then "/" + kept else if kept == "" then "." else kept
  }

  // Index just past the last slash; 0 without one.
  function PastLastSlash(s: string): (n: nat)
    ensures n <= |s|
  {
    if s == "" then 0 else if s[|s| - 1] == '/' then |s| else PastLastSlash(s[..|s| - 1])
  }

  // path.Dir
  function PathDir(s: string): string {
    Clean(s[..PastLastSlash(s)])
  }

  // path.Base
  function PathBase(s: string): string {
    if s == "" then "."
    else
      var t := TrimRightSlashes(s);
      var last := t[PastLastSlash(t)..];
      if last == "" then "/" else last
  }

  // path.Ext
  function PathExt(s: string): (r: string)
    ensures |r| <= |s| && r == s[|s| - |r|..]
  {
    if s == "" || s[|s| - 1] == '/' then ""
    else if s[|s| - 1] == '.' then s[|s| - 1..]
    else
      var e := PathExt(s[..|s| - 1]);
      if e == "" then "" else e + [s[|s| - 1]]
  }

  // ---------------------------------------------------------- clean segments

  // cleanUploadPathSegment: the trimmed text, or nothing if a character is not allowed.
  function CleanSegment(value: string): string {
    var v := TrimSpace(value);
    if exists i :: 0 <= i < |v| && Refused(v[i]) then "" else v
  }

  predicate Refused(c: char) {
    c as int < 32 || c as int == 127 || c == '/' || c == '\\'
  }

  // Text that is a segment as it stands.
  predicate SegmentOk(s: string) {
    && s != "" && s != "." && s != ".." && Trimmed(s)
    && forall i :: 0 <= i < |s| ==> !Refused(s[i])
  }

  // The cleaning lets through exactly the good segments, and leaves those alone.
  lemma CleanSegmentAccepts(s: string)
    ensures var c := CleanSegment(s); c != "" && c != "." && c != ".." <==> SegmentOk(c)
    ensures SegmentOk(s) ==> CleanSegment(s) == s
  {
    var v := TrimSpace(s);
  }

  predicate SegmentsOk(segments: seq<string>) {
    forall i :: 0 <= i < |segments| ==> SegmentOk(segments[i])
  }

  lemma SegmentsHaveNoSlash(segments: seq<string>)
    requires SegmentsOk(segments)
    ensures NoSlashes(segments)
  {
    forall i | 0 <= i < |segments| ensures '/' !in segments[i] {
      assert SegmentOk(segments[i]);
    }
  }

  predicate CleanPath(p: string) {
    SegmentsOk(Split(p))
  }

  lemma JoinedIsClean(segments: seq<string>)
    requires segments != [] && SegmentsOk(segments)
    ensures CleanPath(Join(segments)) && Split(Join(segments)) == segments
  {
    SegmentsHaveNoSlash(segments);
    SplitJoin(segments);
  }

  predicate CleanEnds(p: string) {
    p != "" && p[0] != '/' && p[|p| - 1] != '/' && '\\' !in p && LeadingSpace(p) == 0 && TrailingSpace(p) == 0
  }

  lemma SegmentEnds(s: string)
    requires SegmentOk(s)
    ensures CleanEnds(s)
  {
    assert !Refused(s[0]) && !Refused(s[|s| - 1]);
  }

  lemma SlashEnds(a: string, b: string)
    requires CleanEnds(a) && CleanEnds(b)
    ensures CleanEnds(a + "/" + b)
  {
    TrimmedAcrossSlash(a, b);
    var s := a + "/" + b;
    assert s[0] == a[0] && s[|s| - 1] == b[|b| - 1];
    assert forall i :: 0 <= i < |s| ==> s[i] != '\\';
  }

  // A clean path survives every normalisation the archive applies to paths.
  lemma {:induction false} CleanPathEnds(segments: seq<string>)
    requires segments != [] && SegmentsOk(segments)
    ensures CleanEnds(Join(segments))
  {
    SegmentEnds(segments[0]);
    if |segments| > 1 {
      CleanPathEnds(segments[1..]);
      SlashEnds(segments[0], Join(segments[1..]));
    }
  }

  lemma CleanPathIsStable(p: string)
    requires CleanPath(p)
    ensures p != "" && ForwardSlashes(p) == p && TrimSlashes(p) == p && TrimSpace(p) == p
  {
    JoinSplit(p);
    CleanPathEnds(Split(p));
  }

  lemma {:induction false} ResolveKeeps(parts: seq<string>, rooted: bool, out: seq<string>)
    requires SegmentsOk(parts)
    ensures Resolve(parts, rooted, out) == out + parts
  {
    if parts != [] {
      assert SegmentOk(parts[0]);
      ResolveKeeps(parts[1..], rooted, out + [parts[0]]);
      assert out + [parts[0]] + parts[1..] == out + parts;
    }
  }

  lemma {:induction false} ResolveSplit(a: seq<string>, b: seq<string>, rooted: bool, out: seq<string>)
    ensures Resolve(a + b, rooted, out) == Resolve(b, rooted, Resolve(a, rooted, out))
  {
    if a == [] {
      assert a + b == b;
    } else {
      assert (a + b)[0] == a[0] && (a + b)[1..] == a[1..] + b;
      var p := a[0];
      var next :=
        if p == "" || p == "." then out
        else if p != ".." then out + [p]
        else if out != [] && out[|out| - 1] != ".." then out[..|out| - 1]
        else if rooted then out
        else out + [p];
      ResolveSplit(a[1..], b, rooted, next);
    }
  }

  lemma CleanOfJoined(segments: seq<string>)
    requires segments != [] && SegmentsOk(segments)
    ensures Clean(Join(segments) + "/") == Join(segments)
  {
    var p := Join(segments);
    CleanPathEnds(segments);
    JoinedIsClean(segments);
    assert p + "/" == p + "/" + "";
    SplitAtSlash(p, "");
    assert Split(p + "/") == segments + [""];
    ResolveSplit(segments, [""], false, []);
    ResolveKeeps(segments, false, []);
    assert [] + segments == segments;
    assert [""][1..] == [];
    assert Resolve([""], false, segments) == segments;
  }

  lemma {:induction false} LastSlashIsLast(s: string)
    ensures var n := PastLastSlash(s); (n > 0 ==> s[n - 1] == '/') && forall i :: n <= i < |s| ==> s[i] != '/'
  {
    if s != "" && s[|s| - 1] != '/' {
      LastSlashIsLast(s[..|s| - 1]);
    }
  }

  lemma LastSlashIs(s: string, n: nat)
    requires n <= |s| && (n > 0 ==> s[n - 1] == '/') && forall i :: n <= i < |s| ==> s[i] != '/'
    ensures PastLastSlash(s) == n
  {
    hide PastLastSlash;
    LastSlashIsLast(s);
  }

  lemma NoSlashAfter(a: string, b: string)
    requires '/' !in b
    ensures var s := a + "/" + b; s[|a|] == '/' && forall i :: |a| < i < |s| ==> s[i] != '/'
  {
    var s := a + "/" + b;
    forall i | |a| < i < |s| ensures s[i] != '/' {
      assert s[i] == b[i - |a| - 1];
    }
  }

  lemma PastLastSlashAt(a: string, b: string)
    requires '/' !in b
    ensures PastLastSlash(a + "/" + b) == |a| + 1
  {
    hide *;
    NoSlashAfter(a, b);
    LastSlashIs(a + "/" + b, |a| + 1);
  }

  // Directory and base name of a clean path.
  lemma DirAndBase(init: seq<string>, last: string)
    requires SegmentsOk(init) && SegmentOk(last)
    ensures PathBase(Join(init + [last])) == last
    ensures PathDir(Join(init + [last])) == if init == [] then "." else Join(init)
  {
    SegmentHasNoSlash(last);
    if init == [] {
      assert init + [last] == [last];
      AloneDirAndBase(last);
    } else {
      JoinTwo(init, [last]);
      ChildDirAndBase(Join(init), last);
      CleanOfJoined(init);
    }
  }

  lemma NotSpecial(s: string)
    requires SegmentOk(s)
    ensures s != "" && s != "." && s != ".."
  {
  }

  lemma SegmentHasNoSlash(s: string)
    requires SegmentOk(s)
    ensures '/' !in s
  {
  }

  lemma AloneDirAndBase(name: string)
    requires name != "" && '/' !in name
    ensures PathBase(name) == name && PathDir(name) == "."
  {
    LastSlashIs(name, 0);
    assert name[..0] == "" && name[0..] == name;
    CleanOfNothing();
  }

  lemma ChildDirAndBase(d: string, name: string)
    requires name != "" && '/' !in name
    ensures PathBase(d + "/" + name) == name && PathDir(d + "/" + name) == Clean(d + "/")
  {
    var p := d + "/" + name;
    assert p[|p| - 1] == name[|name| - 1];
    assert TrimRightSlashes(p) == p;
    CutAtSlash(d, name);
  }

  lemma CutAtSlash(a: string, b: string)
    requires '/' !in b
    ensures var s := a + "/" + b; s[..PastLastSlash(s)] == a + "/" && s[PastLastSlash(s)..] == b
  {
    PastLastSlashAt(a, b);
    var s := a + "/" + b;
    assert s[..|a| + 1] == a + "/" && s[|a| + 1..] == b;
  }

  lemma CleanOfNothing()
    ensures Clean("") == "."
  {
    assert Split("") == [""] && [""][1..] == [];
    assert Resolve([""], false, []) == Resolve([""][1..], false, []);
  }
}
