/** Links in WebDAV answers: printing them, and reading the path of a request back. */
module Href {
  import opened Base
  import opened Text
  import Hex

  // ---------------------------------------------------------------- escaping

  // What url.PathEscape leaves as it is.
  predicate Unreserved(c: char) {
    'a' <= c <= 'z' || 'A' <= c <= 'Z' || '0' <= c <= '9' || c in "-_.~$&+=:@"
  }

  function HexDigit(n: nat): char
    requires n < 16
  {
    if n < 10 then '0' + n as char else 'A' + (n - 10) as char
  }

  predicate Bytes(s: string) {
    forall i :: 0 <= i < |s| ==> s[i] as int < 256
  }

  // url.PathEscape; a character stands for its low byte.
  function PathEscape(s: string): string {
    if s == "" then ""
    else (if Unreserved(s[0]) then [s[0]] else ['%', HexDigit(s[0] as int / 16 % 16), HexDigit(s[0] as int % 16)]) + PathEscape(s[1..])
  }

  // url.PathUnescape; nothing for a malformed escape.
  function PathUnescape(s: string): Option<string> {
    if s == "" then Some("")
    else if s[0] != '%' then
      match PathUnescape(s[1..]) case None => None case Some(rest) => Some([s[0]] + rest)
    else if |s| < 3 || !Hex.IsHex(s[1]) || !Hex.IsHex(s[2]) then None
    else
      match PathUnescape(s[3..])
      case None => None
      case Some(rest) => Some([(Hex.HexValue(s[1]) * 16 + Hex.HexValue(s[2])) as char] + rest)
  }

  lemma {:induction false} UnescapeEscaped(s: string)
    requires Bytes(s)
    ensures PathUnescape(PathEscape(s)) == Some(s)
  {
    hide HexDigit, Hex.IsHex, Hex.HexValue;
    if s != "" {
      UnescapeEscaped(s[1..]);
      var c, e := s[0], PathEscape(s);
      assert [c] + s[1..] == s;
      if Unreserved(c) {
        assert e[0] == c && e[1..] == PathEscape(s[1..]);
      } else {
        HexRoundTrip(c as int);
        assert e[0] == '%' && e[1] == HexDigit(c as int / 16 % 16) && e[2] == HexDigit(c as int % 16) && e[3..] == PathEscape(s[1..]);
      }
    }
  }

  lemma HexRoundTrip(n: nat)
    requires n < 256
    ensures var h, l := HexDigit(n / 16 % 16), HexDigit(n % 16);
      Hex.IsHex(h) && Hex.IsHex(l) && Hex.HexValue(h) * 16 + Hex.HexValue(l) == n
  {
    hide HexDigit, Hex.IsHex, Hex.HexValue;
    HexDigitValue(n / 16 % 16);
    HexDigitValue(n % 16);
  }

  lemma HexDigitValue(n: nat)
    requires n < 16
    ensures Hex.IsHex(HexDigit(n)) && Hex.HexValue(HexDigit(n)) == n
  {
    if n < 10 {
      assert HexDigit(n) as int == '0' as int + n;
    } else {
      assert HexDigit(n) as int == 'A' as int + (n - 10);
    }
  }

  lemma {:induction false} EscapedHasNoSlash(s: string)
    ensures '/' !in PathEscape(s) && (s != "" ==> PathEscape(s) != "")
  {
    if s != "" {
      EscapedHasNoSlash(s[1..]);
      HexDigitValue(s[0] as int / 16 % 16);
      HexDigitValue(s[0] as int % 16);
    }
  }

  // ---------------------------------------------------------------- printing

  predicate AllBytes(segments: seq<string>) {
    forall i :: 0 <= i < |segments| ==> Bytes(segments[i])
  }

  function EscapeAll(segments: seq<string>): (r: seq<string>)
    ensures |r| == |segments|
  {
    if segments == [] then [] else [PathEscape(segments[0])] + EscapeAll(segments[1..])
  }

  function ResourceHref(rootHref: string, relativePath: string, collection: bool): string {
    var path := TrimSlashes(relativePath);
    if path == "" then rootHref
    else rootHref + Join(EscapeAll(Split(path))) + if collection then "/" else ""
  }

  /** davResourceHref */
  method DavResourceHref(rootHref: string, relativePath: string, collection: bool) returns (href: string)
    ensures href == ResourceHref(rootHref, relativePath, collection)
  {
    hide TrimSlashes, Split, Join, PathEscape, Bytes;
    var path := TrimSlashes(relativePath);
    if path == "" {
      return rootHref;
    }
    var segments := Split(path);
    var escaped: seq<string> := [];
    for i := 0 to |segments|
      invariant escaped + EscapeAll(segments[i..]) == EscapeAll(segments)
    {
      assert segments[i..][0] == segments[i] && segments[i..][1..] == segments[i + 1..];
      assert escaped + ([PathEscape(segments[i])] + EscapeAll(segments[i + 1..]))
          == escaped + [PathEscape(segments[i])] + EscapeAll(segments[i + 1..]);
      escaped := escaped + [PathEscape(segments[i])];
    }
    assert escaped + [] == escaped;
    href := rootHref + Join(escaped);
    if collection {
      href := href + "/";
    } else {
      assert href + "" == href;
    }
  }

  // davRootHref
  function RootHref(forwardedPrefix: string, basePath: string, username: string): string {
    forwardedPrefix + TrimRightSlashes(basePath) + "/" + PathEscape(username) + "/"
  }

  // ----------------------------------------------------------------- parsing

  function CleanParts(segments: seq<string>): Option<seq<string>> {
    if segments == [] then Some([])
    else
      match PathUnescape(segments[0])
      case None => None
      case Some(raw) =>
        var name := CleanSegment(raw);
        if name == "" || name == "." || name == ".." then None
        else match CleanParts(segments[1..]) case None => None case Some(rest) => Some([name] + rest)
  }

  // strings.TrimPrefix
  function TrimPrefix(s: string, prefix: string): string {
    if prefix <= s then s[|prefix|..] else s
  }

  function PathParts(escapedPath: string, basePath: string, username: string): Option<seq<string>> {
    var value := TrimSlashes(TrimPrefix(escapedPath, basePath));
    if value == "" then Some([])
    else
      var segments := Split(value);
      if PathUnescape(segments[0]) != Some(username) then None else CleanParts(segments[1..])
  }

  /** davPathParts: the segments below the user's root, or nothing if the path is not acceptable. */
  method DavPathParts(escapedPath: string, basePath: string, username: string) returns (r: Option<seq<string>>)
    ensures r == PathParts(escapedPath, basePath, username)
    ensures r.Some? ==> SegmentsOk(r.value)
  {
    hide TrimSlashes, Split, PathUnescape, CleanSegment, SegmentOk;
    var value := TrimSlashes(TrimPrefix(escapedPath, basePath));
    if value == "" {
      return Some([]);
    }
    var segments := Split(value);
    var first := PathUnescape(segments[0]);
    if first != Some(username) {
      return None;
    }
    segments := segments[1..];
    if |segments| == 0 {
      return Some([]);
    }
    var parts: seq<string> := [];
    assert segments[0..] == segments;
    assert CleanParts(segments).Some? ==> parts + CleanParts(segments).value == CleanParts(segments).value;
    for i := 0 to |segments|
      invariant SegmentsOk(parts)
      invariant CleanParts(segments) == match CleanParts(segments[i..]) case None => None case Some(rest) => Some(parts + rest)
    {
      assert segments[i..][0] == segments[i] && segments[i..][1..] == segments[i + 1..];
      var name := PathUnescape(segments[i]);
      if name.None? {
        return None;
      }
      var part := CleanSegment(name.value);
      if part == "" || part == "." || part == ".." {
        return None;
      }
      CleanSegmentAccepts(name.value);
      AppendRest(parts, part, CleanParts(segments[i + 1..]));
      parts := parts + [part];
    }
    assert parts + [] == parts;
    return Some(parts);
  }

  lemma AppendRest(parts: seq<string>, part: string, rest: Option<seq<string>>)
    ensures rest.Some? ==> parts + ([part] + rest.value) == parts + [part] + rest.value
  {
    if rest.Some? {
      assert parts + ([part] + rest.value) == parts + [part] + rest.value;
    }
  }

  // -------------------------------------------------------------- round trip

  lemma {:induction false} CleanPartsOfEscaped(segments: seq<string>)
    requires SegmentsOk(segments) && AllBytes(segments)
    ensures CleanParts(EscapeAll(segments)) == Some(segments)
  {
    hide PathUnescape, PathEscape, CleanSegment, SegmentOk, Bytes;
    if segments != [] {
      var escaped := EscapeAll(segments);
      UnescapeEscaped(segments[0]);
      CleanSegmentAccepts(segments[0]);
      assert SegmentOk(segments[0]);
      NotSpecial(segments[0]);
      CleanPartsOfEscaped(segments[1..]);
      assert escaped[0] == PathEscape(segments[0]) && escaped[1..] == EscapeAll(segments[1..]);
      assert [segments[0]] + segments[1..] == segments;
    }
  }

  lemma {:induction false} EscapedSegments(segments: seq<string>)
    requires SegmentsOk(segments)
    ensures NoSlashes(EscapeAll(segments)) && forall i :: 0 <= i < |segments| ==> EscapeAll(segments)[i] != ""
  {
    hide PathEscape, SegmentOk, Bytes;
    if segments != [] {
      assert SegmentOk(segments[0]);
      NotSpecial(segments[0]);
      EscapedHasNoSlash(segments[0]);
      EscapedSegments(segments[1..]);
    }
  }

  // Text with plain ends loses just the slash after it.
  lemma TrimmedEnd(s: string)
    requires s != "" && s[0] != '/' && s[|s| - 1] != '/'
    ensures TrimSlashes(s) == s && TrimSlashes(s + "/") == s
  {
    var t := s + "/";
    assert t[0] == s[0] && t[|t| - 1] == '/' && t[..|t| - 1] == s;
    assert TrimLeftSlashes(t) == t && TrimRightSlashes(t) == TrimRightSlashes(s);
  }

  lemma JoinedEnds(parts: seq<string>)
    requires parts != [] && NoSlashes(parts) && forall i :: 0 <= i < |parts| ==> parts[i] != ""
    ensures var s := Join(parts); s != "" && s[0] != '/' && s[|s| - 1] != '/'
  {
    if |parts| > 1 {
      JoinedEnds(parts[1..]);
      var rest := Join(parts[1..]);
      assert Join(parts) == parts[0] + "/" + rest;
      assert Join(parts)[0] == parts[0][0] && Join(parts)[|Join(parts)| - 1] == rest[|rest| - 1];
    }
  }

  // The link printed for any list of clean segments, without the prefix a proxy adds, reads back
  // as those segments, whether it is printed for a file or for a collection.
  lemma HrefRoundTrip(base: string, username: string, segments: seq<string>, collection: bool)
    requires (base != "" ==> base[|base| - 1] != '/') && username != "" && Bytes(username)
    requires SegmentsOk(segments) && AllBytes(segments)
    ensures PathParts(ResourceHref(RootHref("", base + "/", username), Join(segments), collection), base + "/", username) == Some(segments)
  {
    hide PathUnescape, PathEscape, SegmentOk, Bytes, Split, Join, TrimSlashes, CleanParts, EscapeAll, PathParts, RootHref;
    var user := PathEscape(username);
    RootIs(base, username);
    if segments == [] {
      NothingToPrint();
      RootParts(base, username);
    } else {
      var escaped := EscapeAll(segments);
      EscapedSegments(segments);
      JoinedIsClean(segments);
      CleanPathIsStable(Join(segments));
      PartsBelow(base, username, escaped, collection);
      CleanPartsOfEscaped(segments);
      assert base + "/" + user + "/" + Join(escaped) + "" == base + "/" + user + "/" + Join(escaped);
      assert base + "/" + user + "/" + (Join(escaped) + "/") == base + "/" + user + "/" + Join(escaped) + "/";
    }
  }

  lemma RootParts(base: string, username: string)
    requires username != "" && Bytes(username)
    ensures PathParts(base + "/" + PathEscape(username) + "/", base + "/", username) == Some([])
  {
    hide PathUnescape, PathEscape, Bytes, Split, TrimSlashes;
    var user := PathEscape(username);
    EscapedHasNoSlash(username);
    UnescapeEscaped(username);
    Stripped(base, user + "/");
    assert base + "/" + user + "/" == base + "/" + (user + "/");
    TrimmedEnd(user);
    SplitPlain(user);
  }

  lemma PartsBelow(base: string, username: string, escaped: seq<string>, collection: bool)
    requires username != "" && Bytes(username)
    requires escaped != [] && NoSlashes(escaped) && forall i :: 0 <= i < |escaped| ==> escaped[i] != ""
    ensures PathParts(base + "/" + PathEscape(username) + "/" + Join(escaped) + (if collection then "/" else ""), base + "/", username)
      == CleanParts(escaped)
  {
    hide PathUnescape, PathEscape, Bytes, Split, TrimSlashes, CleanParts, Join;
    var user, below := PathEscape(username), Join(escaped);
    var tail := user + "/" + below;
    EscapedHasNoSlash(username);
    UnescapeEscaped(username);
    JoinedEnds(escaped);
    TailEnds(user, below);
    TrimmedEnd(tail);
    Stripped(base, if collection then tail + "/" else tail);
    HrefShape(base, user, below, collection);
    SplitAtSlash(user, below);
    SplitPlain(user);
    SplitJoin(escaped);
    assert [user] + escaped == Split(tail) && ([user] + escaped)[1..] == escaped;
  }

  lemma TailEnds(user: string, below: string)
    requires user != "" && '/' !in user && below != "" && below[|below| - 1] != '/'
    ensures var tail := user + "/" + below; tail != "" && tail[0] != '/' && tail[|tail| - 1] != '/'
  {
    var tail := user + "/" + below;
    assert tail[0] == user[0] && tail[|tail| - 1] == below[|below| - 1];
  }

  lemma HrefShape(base: string, user: string, below: string, collection: bool)
    ensures var tail := user + "/" + below;
      base + "/" + user + "/" + below + (if collection then "/" else "") == base + "/" + (if collection then tail + "/" else tail)
  {
    if collection {
      assert base + "/" + user + "/" + below + "/" == base + "/" + (user + "/" + below + "/");
    } else {
      assert base + "/" + user + "/" + below + "" == base + "/" + (user + "/" + below);
    }
  }

  lemma Stripped(base: string, rest: string)
    ensures TrimPrefix(base + "/" + rest, base + "/") == rest
  {
    var s := base + "/" + rest;
    assert s[..|base| + 1] == base + "/" && s[|base| + 1..] == rest;
  }

  lemma RootIs(base: string, username: string)
    requires base != "" ==> base[|base| - 1] != '/'
    ensures RootHref("", base + "/", username) == base + "/" + PathEscape(username) + "/"
  {
    hide PathEscape;
    var b := base + "/";
    assert b[..|b| - 1] == base;
    assert TrimRightSlashes(b) == TrimRightSlashes(base) == base;
  }

  lemma NothingToPrint()
    ensures Join([]) == "" && TrimSlashes("") == ""
  {
  }
}
