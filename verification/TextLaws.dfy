/** What the string operations do, spelled out in characters and code points. */
module TextLaws {
  import opened Base
  import opened Text
  import opened UploadPaths

  // ------------------------------------------------------------- white space

  // unicode.IsSpace
  const WHITE: set<int> := {9, 10, 11, 12, 13, 32, 0x85, 0xA0, 0x1680, 0x2000, 0x2001, 0x2002, 0x2003, 0x2004, 0x2005, 0x2006, 0x2007, 0x2008,
                            0x2009, 0x200A, 0x2028, 0x2029, 0x202F, 0x205F, 0x3000}

  // UTF-8, up to three bytes.
  function Utf8(c: int): string
    requires 0 <= c < 0x1_0000
  {
    if c < 0x80 then [c as char]
    else if c < 0x800 then [(0xC0 + c / 64) as char, (0x80 + c % 64) as char]
    else [(0xE0 + c / 4096) as char, (0x80 + c / 64 % 64) as char, (0x80 + c % 64) as char]
  }

  ghost predicate White(w: string) {
    exists c :: c in WHITE && w == Utf8(c)
  }

  lemma WhiteOfOne(w: string)
    requires |w| == 1
    ensures White(w) <==> IsSpace1(w[0])
  {
    if White(w) {
      var c :| c in WHITE && w == Utf8(c);
      assert c < 0x80;
    }
    if IsSpace1(w[0]) {
      var c := w[0] as int;
      assert c in WHITE && w == Utf8(c);
    }
  }

  lemma WhiteOfTwo(w: string)
    requires |w| == 2
    ensures White(w) <==> IsSpace2(w[0], w[1])
  {
    assert Utf8(0x85) == [0xC2 as char, 0x85 as char] && Utf8(0xA0) == [0xC2 as char, 0xA0 as char];
    if White(w) {
      var c :| c in WHITE && w == Utf8(c);
      assert 0x80 <= c < 0x800;
    }
    if IsSpace2(w[0], w[1]) {
      var c := w[1] as int;
      assert w == Utf8(c);
    }
  }

  lemma WhiteOfThree(w: string)
    requires |w| == 3
    ensures White(w) <==> IsSpace3(w[0], w[1], w[2])
  {
    hide IsSpace3, White;
    if White(w) {
      var c := WideCode(w);
      ThreeBytes(c);
    }
    if IsSpace3(w[0], w[1], w[2]) {
      var c := CodeOf(w[0], w[1], w[2]);
      IsWhite(w, c);
    }
  }

  lemma IsWhite(w: string, c: int)
    requires c in WHITE && 0 <= c < 0x1_0000 && |w| == 3 && Utf8(c) == [w[0], w[1], w[2]]
    ensures White(w)
  {
    hide WHITE, Utf8;
    assert w == [w[0], w[1], w[2]];
  }

  lemma WideCode(w: string) returns (c: int)
    requires |w| == 3 && White(w)
    ensures c in WHITE && 0x800 <= c < 0x1_0000 && w == Utf8(c)
  {
    c :| c in WHITE && w == Utf8(c);
  }

  lemma CodeOf(x: char, y: char, z: char) returns (c: int)
    requires IsSpace3(x, y, z)
    ensures c in WHITE && 0 <= c < 0x1_0000 && Utf8(c) == [x, y, z]
  {
    if x as int == 0xE1 {
      c := 0x1680;
    } else if x as int == 0xE3 {
      c := 0x3000;
    } else if y as int == 0x81 {
      c := 0x205F;
    } else {
      c := 0x2000 + (z as int - 0x80);
      GeneralPunctuation(z as int - 0x80);
    }
  }

  lemma GeneralPunctuation(k: int)
    requires 0 <= k <= 10 || k == 0x28 || k == 0x29 || k == 0x2F
    ensures 0x2000 + k in WHITE && Utf8(0x2000 + k) == [0xE2 as char, 0x80 as char, (0x80 + k) as char]
  {
    assert (0x2000 + k) / 4096 == 2 && (0x2000 + k) / 64 % 64 == 0 && (0x2000 + k) % 64 == k;
  }

  lemma ThreeBytes(c: int)
    requires c in WHITE && 0x800 <= c
    ensures var w := Utf8(c); |w| == 3 && IsSpace3(w[0], w[1], w[2])
  {
  }

  lemma WhiteSize(w: string)
    requires White(w)
    ensures 1 <= |w| <= 3
  {
  }

  // A white-space character at the front, or at the end, if there is any.
  lemma LeadingIff(s: string)
    ensures var n := LeadingSpace(s);
      && (n > 0 ==> White(s[..n]))
      && (n == 0 ==> forall w :: White(w) ==> !(w <= s))
  {
    hide White, IsSpace1, IsSpace2, IsSpace3;
    if |s| >= 1 { WhiteOfOne(s[..1]); }
    if |s| >= 2 { WhiteOfTwo(s[..2]); }
    if |s| >= 3 { WhiteOfThree(s[..3]); }
    forall w | White(w) && w <= s ensures LeadingSpace(s) > 0 {
      WhiteSize(w);
      assert w == s[..|w|];
    }
  }

  predicate EndsIn(s: string, w: string) {
    |w| <= |s| && s[|s| - |w|..] == w
  }

  lemma TrailIsWhite(s: string)
    requires TrailingSpace(s) > 0
    ensures White(s[|s| - TrailingSpace(s)..])
  {
    hide White, IsSpace1, IsSpace2, IsSpace3;
    var k, n := |s|, TrailingSpace(s);
    if n == 1 { WhiteOfOne(s[k - 1..]); }
    if n == 2 { WhiteOfTwo(s[k - 2..]); }
    if n == 3 { WhiteOfThree(s[k - 3..]); }
  }

  lemma WhiteTrails(s: string, w: string)
    requires White(w) && EndsIn(s, w)
    ensures TrailingSpace(s) > 0
  {
    hide White, IsSpace1, IsSpace2, IsSpace3;
    var k := |s|;
    WhiteSize(w);
    if |w| == 1 {
      WhiteOfOne(w);
      assert w[0] == s[k - 1];
    } else if |w| == 2 {
      WhiteOfTwo(w);
      assert w[0] == s[k - 2] && w[1] == s[k - 1];
    } else {
      WhiteOfThree(w);
      assert w[0] == s[k - 3] && w[1] == s[k - 2] && w[2] == s[k - 1];
    }
  }

  lemma TrailingIff(s: string)
    ensures TrailingSpace(s) > 0 ==> White(s[|s| - TrailingSpace(s)..])
    ensures TrailingSpace(s) == 0 ==> forall w :: White(w) ==> !EndsIn(s, w)
  {
    hide White, TrailingSpace, EndsIn;
    if TrailingSpace(s) > 0 {
      TrailIsWhite(s);
    }
    forall w | White(w) && EndsIn(s, w) ensures TrailingSpace(s) > 0 {
      WhiteTrails(s, w);
    }
  }

  // Nothing but white space.
  ghost predicate Blank(s: string)
    decreases |s|
  {
    s == "" || exists w :: w != "" && White(w) && w <= s && Blank(s[|w|..])
  }

  lemma BlankFront(s: string, w: string)
    requires w != "" && White(w) && w <= s && Blank(s[|w|..])
    ensures Blank(s)
  {
    hide White;
  }

  lemma BlankCut(s: string) returns (w: string)
    requires Blank(s) && s != ""
    ensures w != "" && White(w) && w <= s && Blank(s[|w|..])
  {
    hide White;
    w :| w != "" && White(w) && w <= s && Blank(s[|w|..]);
  }

  lemma {:induction false} BlankEnd(s: string, w: string)
    requires Blank(s) && White(w)
    ensures Blank(s + w)
    decreases |s|
  {
    hide White, Blank;
    WhiteSize(w);
    if s == "" {
      NothingIsBlank();
      assert (s + w)[|w|..] == "" && w <= s + w;
      BlankFront(s + w, w);
    } else {
      var v := BlankCut(s);
      BlankEnd(s[|v|..], w);
      assert (s + w)[|v|..] == s[|v|..] + w && v <= s + w;
      BlankFront(s + w, v);
    }
  }

  lemma NothingIsBlank()
    ensures Blank("")
  {
  }

  lemma {:induction false} LeftIs(s: string) returns (a: string)
    ensures Blank(a) && s == a + TrimLeftSpace(s)
    decreases |s|
  {
    hide White, LeadingSpace;
    var n := LeadingSpace(s);
    LeadingIff(s);
    if n == 0 {
      a := "";
    } else {
      var b := LeftIs(s[n..]);
      a := s[..n] + b;
      assert a[n..] == b && s[..n] <= a;
    }
  }

  lemma {:induction false} RightIs(s: string) returns (b: string)
    ensures Blank(b) && s == TrimRightSpace(s) + b
    decreases |s|
  {
    hide White, TrailingSpace, Blank;
    var n := TrailingSpace(s);
    TrailingIff(s);
    if n == 0 {
      b := "";
      NothingIsBlank();
    } else {
      var a := RightIs(s[..|s| - n]);
      b := a + s[|s| - n..];
      BlankEnd(a, s[|s| - n..]);
    }
  }

  /** strings.TrimSpace takes white space off both ends, and all of it. */
  lemma TrimSpaceIs(s: string) returns (a: string, b: string)
    ensures Blank(a) && Blank(b) && s == a + TrimSpace(s) + b
    ensures forall w :: White(w) ==> !(w <= TrimSpace(s)) && !EndsIn(TrimSpace(s), w)
  {
    hide White, LeadingSpace, TrailingSpace, Blank, TrimLeftSpace, TrimRightSpace, Trimmed;
    a := LeftIs(s);
    b := RightIs(TrimLeftSpace(s));
    assert s == a + (TrimSpace(s) + b);
    EndsAreClean(s);
    LeadingIff(TrimSpace(s));
    TrailingIff(TrimSpace(s));
  }

  lemma EndsAreClean(s: string)
    ensures LeadingSpace(TrimSpace(s)) == 0 && TrailingSpace(TrimSpace(s)) == 0
    ensures TrimSpace(s) == TrimRightSpace(TrimLeftSpace(s))
  {
    hide LeadingSpace, TrailingSpace, TrimLeftSpace, TrimRightSpace;
  }

  // ------------------------------------------------------------------ slashes

  predicate OnlySlashes(s: string) {
    forall i :: 0 <= i < |s| ==> s[i] == '/'
  }

  lemma {:induction false} LeftSlashesAre(s: string) returns (a: string)
    ensures OnlySlashes(a) && s == a + TrimLeftSlashes(s)
    ensures TrimLeftSlashes(s) != "" ==> TrimLeftSlashes(s)[0] != '/'
  {
    if s != "" && s[0] == '/' {
      a := LeftSlashesAre(s[1..]);
      a := "/" + a;
    } else {
      a := "";
    }
  }

  lemma {:induction false} RightSlashesAre(s: string) returns (b: string)
    ensures OnlySlashes(b) && s == TrimRightSlashes(s) + b
    ensures TrimRightSlashes(s) != "" ==> TrimRightSlashes(s)[|TrimRightSlashes(s)| - 1] != '/'
    ensures TrimRightSlashes(s) <= s
  {
    if s != "" && s[|s| - 1] == '/' {
      b := RightSlashesAre(s[..|s| - 1]);
      b := b + "/";
    } else {
      b := "";
    }
  }

  /** strings.Trim with a slash: the slashes at both ends, and all of them. */
  lemma TrimSlashesIs(s: string) returns (a: string, b: string)
    ensures OnlySlashes(a) && OnlySlashes(b) && s == a + TrimSlashes(s) + b
    ensures var r := TrimSlashes(s); r != "" ==> r[0] != '/' && r[|r| - 1] != '/'
  {
    hide TrimLeftSlashes, TrimRightSlashes;
    a := LeftSlashesAre(s);
    b := RightSlashesAre(TrimLeftSlashes(s));
    assert s == a + (TrimSlashes(s) + b);
  }

  // Backslashes become slashes; every other character stays.
  lemma ForwardSlashesAre(s: string, i: nat)
    requires i < |s|
    ensures |ForwardSlashes(s)| == |s| && ForwardSlashes(s)[i] == if s[i] == '\\' then '/' else s[i]
  {
  }

  /** strings.Split and strings.Join with a slash undo each other. */
  lemma SplitsAndJoins(s: string, parts: seq<string>)
    ensures Join(Split(s)) == s && NoSlashes(Split(s))
    ensures parts != [] && NoSlashes(parts) ==> Split(Join(parts)) == parts
  {
    hide Split, Join, NoSlashes;
    JoinSplit(s);
    PartsHaveNoSlash(s);
    if parts != [] && NoSlashes(parts) {
      SplitJoin(parts);
    }
  }

  lemma {:induction false} PartsHaveNoSlash(s: string)
    ensures NoSlashes(Split(s))
  {
    if s != "" {
      PartsHaveNoSlash(s[1..]);
    }
  }

  // ------------------------------------------------------------------ path.Base

  lemma {:induction false} PastLast(a: string, name: string)
    requires '/' !in name
    ensures PastLastSlash(a + "/" + name) == |a| + 1
  {
    var s := a + "/" + name;
    if name == "" {
      assert s == a + "/";
    } else {
      var n := |name| - 1;
      PastLast(a, name[..n]);
      assert s[..|s| - 1] == a + "/" + name[..n] && s[|s| - 1] == name[n];
    }
  }

  lemma {:induction false} NoLastSlash(name: string)
    requires '/' !in name
    ensures PastLastSlash(name) == 0
  {
    if name != "" {
      NoLastSlash(name[..|name| - 1]);
    }
  }

  lemma NoSlashAtEnd(s: string)
    requires s != "" && s[|s| - 1] != '/'
    ensures TrimRightSlashes(s) == s
  {
  }

  /** path.Base: what follows the last slash, slashes at the end apart. */
  lemma BaseIs(a: string, name: string)
    requires name != "" && '/' !in name
    ensures PathBase(name) == name && PathBase(a + "/" + name) == name && PathBase(a + "/" + name + "/") == name
    ensures PathBase("") == "." && PathBase("/") == "/"
  {
    hide PastLastSlash;
    var s := a + "/" + name;
    NoLastSlash(name);
    PastLast(a, name);
    NoSlashAtEnd(name);
    NoSlashAtEnd(s);
    assert (s + "/")[..|s + "/"| - 1] == s;
    assert TrimRightSlashes(s + "/") == s;
    assert s[|a| + 1..] == name;
    assert name[0..] == name;
    RootBase();
  }

  lemma RootBase()
    ensures PathBase("") == "." && PathBase("/") == "/"
  {
    assert "/"[..0] == "";
    assert TrimRightSlashes("/") == "";
    assert PastLastSlash("") == 0;
  }

  // ------------------------------------------------------------------ upload paths

  // A name an upload may use: something, no dots alone, and no control character, slash or backslash.
  predicate NameTaken(v: string) {
    && v !in {"", ".", ".."}
    && forall i :: 0 <= i < |v| ==> ' ' <= v[i] && v[i] as int != 127 && v[i] != '/' && v[i] != '\\'
  }

  predicate AllNamesTaken(raw: seq<string>) {
    forall i :: 0 <= i < |raw| ==> NameTaken(TrimSpace(raw[i]))
  }

  lemma SegmentIs(value: string)
    ensures var c, v := CleanSegment(value), TrimSpace(value);
      (c == "" || c == "." || c == "..") <==> !NameTaken(v)
    ensures NameTaken(TrimSpace(value)) ==> CleanSegment(value) == TrimSpace(value)
  {
    hide TrimSpace;
  }

  lemma {:induction false} SegmentsAre(raw: seq<string>)
    ensures CleanSegments(raw).Some? <==> AllNamesTaken(raw)
    ensures CleanSegments(raw).Some? ==>
      |CleanSegments(raw).value| == |raw| && forall i :: 0 <= i < |raw| ==> CleanSegments(raw).value[i] == TrimSpace(raw[i])
  {
    hide TrimSpace, NameTaken, CleanSegment;
    if raw != [] {
      SegmentIs(raw[0]);
      SegmentsAre(raw[1..]);
      assert forall i :: 0 < i < |raw| ==> raw[i] == raw[1..][i - 1];
    }
  }

  /** cleanUploadPath: the path, or the name if it is blank, without outer space and slashes; at most 1024
      bytes and 64 segments, each of them, trimmed, a name that may be used. */
  lemma PathTakenIff(relativePath: string, fallbackName: string)
    ensures var text := TrimSpace(ForwardSlashes(relativePath));
      var value := TrimSlashes(if text == "" then CleanUploadName(fallbackName) else text);
      var raw, r := Split(value), CleanPathSegments(relativePath, fallbackName);
      && (r.Ok? <==> value != "" && |value| <= 1024 && |raw| <= 64 && AllNamesTaken(raw))
      && (r.Ok? ==> |r.value| == |raw| && forall i :: 0 <= i < |raw| ==> r.value[i] == TrimSpace(raw[i]))
  {
    hide TrimSlashes, TrimSpace, ForwardSlashes, CleanUploadName, Split, CleanSegments, AllNamesTaken, CleanPathSegments;
    var text := TrimSpace(ForwardSlashes(relativePath));
    SegmentsAre(Split(TrimSlashes(if text == "" then CleanUploadName(fallbackName) else text)));
    PathSegmentsAre(relativePath, fallbackName);
  }

  // cleanUploadName: the last part of a name, trimmed.
  lemma UploadNameIs(a: string, name: string)
    requires name != "" && name != "." && '/' !in name && '\\' !in name && TrimSpace(name) == name
    ensures CleanUploadName(name) == name
    ensures TrimSpace(a + "/" + name) == a + "/" + name && '\\' !in a ==> CleanUploadName(a + "/" + name) == name
    ensures CleanUploadName("") == ""
  {
    hide TrimSpace, PathBase;
    BaseIs(a, name);
    RootBase();
    assert TrimSpace("") == "" by { NothingTrimmed(); }
    assert ForwardSlashes("") == "";
    assert '/' in "/";
    if '\\' !in a {
      assert '\\' !in a + "/" + name;
    }
  }

  lemma NothingTrimmed()
    ensures TrimSpace("") == ""
  {
  }

  // cleanFolderCollectionPath: like a path with one more segment, which is taken off again.
  lemma CollectionTakenIff(relativePath: string)
    ensures var value := TrimSlashes(TrimSpace(ForwardSlashes(relativePath)));
      var r, inner := CollectionSegments(relativePath), CleanPathSegments(value + "/.keep", ".keep");
      if value == "" then r == Ok([])
      else (r.Ok? <==> inner.Ok?) && (r.Ok? ==> inner.value != [] && r.value == inner.value[..|inner.value| - 1])
  {
    hide TrimSlashes, TrimSpace, ForwardSlashes, CleanPathSegments;
    var value := TrimSlashes(TrimSpace(ForwardSlashes(relativePath)));
    if CleanPathSegments(value + "/.keep", ".keep").Ok? {
      AcceptedPathIsFixed(value + "/.keep", ".keep", "");
    }
  }
}
