/** Paths coming in from outside: uploads, collections and backups. */
module UploadPaths {
  import opened Base
  import opened Text

  const MAX_UPLOAD_PATH_LENGTH := 1024
  const MAX_UPLOAD_PATH_SEGMENTS := 64

  datatype PathError = InvalidUploadPath

  // cleanUploadName
  function CleanUploadName(value: string): string {
    var name := PathBase(ForwardSlashes(TrimSpace(value)));
    if name == "." || name == "/" then "" else TrimSpace(name)
  }

  // The segments, cleaned one by one, or nothing if one of them is not allowed.
  function CleanSegments(raw: seq<string>): Option<seq<string>> {
    if raw == [] then Some([])
    else
      var segment := CleanSegment(raw[0]);
      var rest := CleanSegments(raw[1..]);
      if segment == "" || segment == "." || segment == ".." || rest.None? then None else Some([segment] + rest.value)
  }

  // What cleanUploadPath splits: the path, or the name when there is no path, without outer slashes.
  function UploadText(relativePath: string, fallbackName: string): string {
    var value := TrimSpace(ForwardSlashes(relativePath));
    TrimSlashes(if value == "" then CleanUploadName(fallbackName) else value)
  }

  function CleanPathSegments(relativePath: string, fallbackName: string): Result<seq<string>, PathError> {
    var value := UploadText(relativePath, fallbackName);
    if value == "" || |value| > MAX_UPLOAD_PATH_LENGTH || |Split(value)| > MAX_UPLOAD_PATH_SEGMENTS then Err(InvalidUploadPath)
    else match CleanSegments(Split(value)) case None => Err(InvalidUploadPath) case Some(segments) => Ok(segments)
  }

  /** cleanUploadPath: the segments of an upload, each of them fit for an entry name. */
  method CleanUploadPath(relativePath: string, fallbackName: string) returns (r: Result<seq<string>, PathError>)
    ensures r == CleanPathSegments(relativePath, fallbackName)
    ensures r.Ok? ==> r.value != [] && SegmentsOk(r.value) && |r.value| <= MAX_UPLOAD_PATH_SEGMENTS
  {
    hide *;
    PathSegmentsAre(relativePath, fallbackName);
    var value := TrimSpace(ForwardSlashes(relativePath));
    if value == "" {
      value := CleanUploadName(fallbackName);
    }
    value := TrimSlashes(value);
    if value == "" || |value| > MAX_UPLOAD_PATH_LENGTH {
      return Err(InvalidUploadPath);
    }
    var rawSegments := Split(value);
    if |rawSegments| == 0 || |rawSegments| > MAX_UPLOAD_PATH_SEGMENTS {
      return Err(InvalidUploadPath);
    }
    var segments: seq<string> := [];
    NothingCleaned(rawSegments);
    for i := 0 to |rawSegments|
      invariant |segments| == i && SegmentsOk(segments)
      invariant CleanSegments(rawSegments) == Prepend(segments, CleanSegments(rawSegments[i..]))
    {
      var segment := CleanSegment(rawSegments[i]);
      OneMoreCleaned(rawSegments, segments, i);
      if segment == "" || segment == "." || segment == ".." {
        return Err(InvalidUploadPath);
      }
      segments := segments + [segment];
    }
    AllCleaned(rawSegments, segments);
    if |segments| == 0 {
      return Err(InvalidUploadPath);
    }
    return Ok(segments);
  }

  function Prepend(first: seq<string>, rest: Option<seq<string>>): Option<seq<string>> {
    match rest case None => None case Some(more) => Some(first + more)
  }

  lemma PathSegmentsAre(relativePath: string, fallbackName: string)
    ensures var text := TrimSpace(ForwardSlashes(relativePath));
      var value := TrimSlashes(if text == "" then CleanUploadName(fallbackName) else text);
      CleanPathSegments(relativePath, fallbackName) ==
        if value == "" || |value| > MAX_UPLOAD_PATH_LENGTH || |Split(value)| > MAX_UPLOAD_PATH_SEGMENTS then Err(InvalidUploadPath)
        else match CleanSegments(Split(value)) case None => Err(InvalidUploadPath) case Some(segments) => Ok(segments)
  {
    hide TrimSlashes, TrimSpace, ForwardSlashes, CleanUploadName, Split, CleanSegments;
  }

  lemma NothingCleaned(raw: seq<string>)
    ensures SegmentsOk([]) && CleanSegments(raw) == Prepend([], CleanSegments(raw[0..]))
  {
    hide CleanSegments;
    assert raw[0..] == raw;
    assert CleanSegments(raw).Some? ==> [] + CleanSegments(raw).value == CleanSegments(raw).value;
  }

  lemma OneMoreCleaned(raw: seq<string>, segments: seq<string>, i: nat)
    requires i < |raw| && SegmentsOk(segments)
    ensures var segment := CleanSegment(raw[i]);
      var bad := segment == "" || segment == "." || segment == "..";
      && (bad ==> CleanSegments(raw[i..]) == None)
      && (!bad ==> SegmentsOk(segments + [segment])
                   && Prepend(segments, CleanSegments(raw[i..])) == Prepend(segments + [segment], CleanSegments(raw[i + 1..])))
    ensures Prepend(segments, None) == None
  {
    hide CleanSegment, SegmentOk;
    var segment := CleanSegment(raw[i]);
    CleanSegmentAccepts(raw[i]);
    assert raw[i..][0] == raw[i] && raw[i..][1..] == raw[i + 1..];
    var rest := CleanSegments(raw[i + 1..]);
    if rest.Some? {
      assert segments + ([segment] + rest.value) == segments + [segment] + rest.value;
    }
  }

  lemma AllCleaned(raw: seq<string>, segments: seq<string>)
    requires |segments| == |raw| && CleanSegments(raw) == Prepend(segments, CleanSegments(raw[|raw|..]))
    ensures CleanSegments(raw) == Some(segments)
  {
    hide CleanSegment;
    assert raw[|raw|..] == [] && CleanSegments([]) == Some([]) && segments + [] == segments;
  }

  lemma {:induction false} CleanSegmentsAreKept(raw: seq<string>)
    requires SegmentsOk(raw)
    ensures CleanSegments(raw) == Some(raw)
  {
    hide CleanSegment, SegmentOk;
    if raw != [] {
      CleanSegmentAccepts(raw[0]);
      assert SegmentOk(raw[0]) && CleanSegment(raw[0]) == raw[0];
      NotSpecial(raw[0]);
      CleanSegmentsAreKept(raw[1..]);
      assert [raw[0]] + raw[1..] == raw;
    }
  }

  // A clean path within the limits is taken as it is.
  lemma CleanPathIsTaken(segments: seq<string>, fallbackName: string)
    requires segments != [] && SegmentsOk(segments)
    ensures CleanPathSegments(Join(segments), fallbackName) ==
      if |Join(segments)| <= MAX_UPLOAD_PATH_LENGTH && |segments| <= MAX_UPLOAD_PATH_SEGMENTS then Ok(segments) else Err(InvalidUploadPath)
  {
    hide TrimSlashes, TrimSpace, ForwardSlashes, CleanUploadName, Split, Join, CleanSegments, SegmentOk;
    JoinedIsClean(segments);
    CleanPathIsStable(Join(segments));
    CleanSegmentsAreKept(segments);
    PathSegmentsAre(Join(segments), fallbackName);
  }

  // Accepted paths are clean: stored again under their joined form they come out the same.
  lemma AcceptedPathIsFixed(relativePath: string, fallbackName: string, otherName: string)
    requires CleanPathSegments(relativePath, fallbackName).Ok?
    ensures var segments := CleanPathSegments(relativePath, fallbackName).value;
      && segments != [] && SegmentsOk(segments) && |segments| <= MAX_UPLOAD_PATH_SEGMENTS
      && |Join(segments)| <= MAX_UPLOAD_PATH_LENGTH
      && CleanPathSegments(Join(segments), otherName) == Ok(segments)
  {
    hide TrimSlashes, TrimSpace, ForwardSlashes, CleanUploadName, Split, Join, CleanSegments, SegmentOk;
    var value := UploadText(relativePath, fallbackName);
    var segments := CleanPathSegments(relativePath, fallbackName).value;
    CleanedSegments(Split(value));
    JoinSplit(value);
    CleanPathIsTaken(segments, otherName);
  }

  lemma {:induction false} CleanedSegments(raw: seq<string>)
    requires CleanSegments(raw).Some?
    ensures var segments := CleanSegments(raw).value;
      |segments| == |raw| && SegmentsOk(segments) && |Join(segments)| <= |Join(raw)|
  {
    hide SegmentOk;
    if raw != [] {
      CleanSegmentAccepts(raw[0]);
      CleanedSegments(raw[1..]);
      CleaningShortens(raw[0]);
      var rest := CleanSegments(raw[1..]).value;
      assert ([CleanSegment(raw[0])] + rest)[1..] == rest;
    }
  }

  lemma CleaningShortens(s: string)
    ensures |CleanSegment(s)| <= |s|
  {
    TrimmingShortens(s);
  }

  lemma {:induction false} TrimmingShortens(s: string)
    ensures |TrimLeftSpace(s)| <= |s|
    decreases |s|
  {
    if LeadingSpace(s) > 0 {
      TrimmingShortens(s[LeadingSpace(s)..]);
    }
  }

  // ------------------------------------------------------------- collections

  // cleanFolderCollectionPath: the collection is checked as the parent of a file in it.
  function CollectionSegments(relativePath: string): Result<seq<string>, PathError> {
    var value := TrimSlashes(TrimSpace(ForwardSlashes(relativePath)));
    if value == "" then Ok([])
    else
      match CleanPathSegments(value + "/.keep", ".keep")
      case Err(e) => Err(e)
      case Ok(segments) => if |segments| == 0 then Ok([]) else Ok(segments[..|segments| - 1])
  }

  lemma KeepIsSegment()
    ensures SegmentOk(".keep")
  {
    assert ".keep" == ['.', 'k', 'e', 'e', 'p'];
  }

  // A clean collection is taken as it is while it leaves room for the file name.
  lemma CleanCollectionIsTaken(segments: seq<string>)
    requires segments != [] && SegmentsOk(segments)
    ensures CollectionSegments(Join(segments)) ==
      if |Join(segments)| + 6 <= MAX_UPLOAD_PATH_LENGTH && |segments| + 1 <= MAX_UPLOAD_PATH_SEGMENTS then Ok(segments) else Err(InvalidUploadPath)
  {
    hide TrimSlashes, TrimSpace, ForwardSlashes, CleanUploadName, Split, Join, CleanSegments, SegmentOk, CleanPathSegments;
    JoinedIsClean(segments);
    CleanPathIsStable(Join(segments));
    KeepIsSegment();
    var inside := segments + [".keep"];
    JoinTwo(segments, [".keep"]);
    JoinOne(".keep");
    CleanPathIsTaken(inside, ".keep");
    assert inside[..|inside| - 1] == segments;
    assert |"/.keep"| == 6 && |Join(inside)| == |Join(segments)| + 6;
    assert Join(segments) + "/.keep" == Join(segments) + "/" + ".keep";
  }

  lemma JoinOne(s: string)
    ensures Join([s]) == s
  {
  }

  lemma CollectionIsClean(relativePath: string)
    ensures CollectionSegments(relativePath).Ok? ==> SegmentsOk(CollectionSegments(relativePath).value)
  {
    hide TrimSlashes, TrimSpace, ForwardSlashes, CleanUploadName, Split, Join, CleanSegments, SegmentOk, CleanPathSegments;
    var value := TrimSlashes(TrimSpace(ForwardSlashes(relativePath)));
    var r := CleanPathSegments(value + "/.keep", ".keep");
    if r.Ok? {
      AcceptedPathIsFixed(value + "/.keep", ".keep", "");
    }
  }

  // ----------------------------------------------------------------- backups

  // restoredFolderName
  function RestoredFolderName(folderName: string): string {
    var name := TrimSpace(folderName);
    if name == "" then "" else name + " (backup)"
  }

  // backupArchivePath
  function BackupArchivePath(displayPath: string, filePath: string, fileName: string): string {
    var cleanPath := TrimSlashes(ForwardSlashes(displayPath));
    var fromPath := CleanUploadName(filePath);
    var fromName := CleanUploadName(fileName);
    "content/" + (if cleanPath != "" then cleanPath else if fromPath != "" then fromPath else if fromName != "" then fromName else "file.bin")
  }

  lemma ArchivePathOfClean(displayPath: string, filePath: string, fileName: string)
    requires CleanPath(displayPath)
    ensures BackupArchivePath(displayPath, filePath, fileName) == "content/" + displayPath
  {
    hide TrimSlashes, ForwardSlashes, CleanUploadName, CleanPath;
    CleanPathIsStable(displayPath);
  }
}
