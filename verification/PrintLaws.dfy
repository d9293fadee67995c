/** What numbers, the sealed text and escaped links look like, character by character. */
module PrintLaws {
  import opened Base
  import opened Numerals
  import opened PolicySeal
  import opened TextLaws
  import Hex
  import Href
  import Text

  // ------------------------------------------------------------------- numbers

  function Pow10(k: nat): (p: nat)
    ensures p > 0
  {
    if k == 0 then 1 else 10 * Pow10(k - 1)
  }

  // A number in digits: it reads back, and no zero leads it.
  lemma {:induction false} DecimalIs(n: nat)
    ensures Number(Decimal(n)) == n && (n < 10 ==> |Decimal(n)| == 1) && (n >= 10 ==> Decimal(n)[0] != '0')
  {
    NumberOfDecimal(n);
    if n >= 10 {
      DecimalIs(n / 10);
      assert Decimal(n) == Decimal(n / 10) + ['0' + (n % 10) as char];
      if n / 10 < 10 {
        assert Decimal(n / 10) == ['0' + (n / 10) as char];
        assert ('0' + (n / 10) as char) as int == '0' as int + n / 10;
      }
    }
  }

  // The whole part and the digits behind it make up the number.
  lemma {:induction false} PartsOf(n: nat, width: nat)
    ensures Whole(n, width) * Pow10(width) + Number(Digits(n, width)) == n
    ensures 0 <= Number(Digits(n, width)) < Pow10(width)
  {
    var s := Digits(n, width);
    if width == 0 {
      assert s == "";
    } else {
      PartsOf(n / 10, width - 1);
      assert s[..width - 1] == Digits(n / 10, width - 1);
      assert s[width - 1] as int == '0' as int + n % 10;
      var w, p, f := Whole(n, width), Pow10(width - 1), Number(Digits(n / 10, width - 1));
      TenTimes(w, p, f);
    }
  }

  lemma TenTimes(w: int, p: int, f: int)
    ensures w * (10 * p) + f * 10 == 10 * (w * p + f)
  {
  }

  function Size(n: int): nat {
    if n < 0 then -n else n
  }

  /** A number of a fixed scale: a minus sign if it is negative, the whole part, a point and so many digits,
      which together are the number. */
  lemma FixedIs(n: int, places: nat)
    ensures var whole, digits := Whole(Size(n), places), Digits(Size(n), places);
      && Fixed(n, places) == (if n < 0 then "-" else "") + Decimal(whole) + "." + digits
      && |digits| == places && 0 <= Number(digits) < Pow10(places)
      && whole * Pow10(places) + Number(digits) == Size(n)
  {
    hide Decimal, Digits, Whole, Number, Pow10;
    PartsOf(Size(n), places);
  }

  lemma SignedIs(n: int)
    ensures n >= 0 ==> Signed(n) == Decimal(n)
    ensures n < 0 ==> Signed(n) == "-" + Decimal(-n)
  {
  }

  // --------------------------------------------------------------- the sealed text

  lemma Smalls()
    ensures Decimal(0) == "0" && Decimal(1) == "1" && Decimal(3) == "3" && Decimal(60) == "60" && Decimal(10) == "10"
  {
    assert Decimal(6) == "6";
    assert Decimal(60) == Decimal(6) + ['0'];
    assert Decimal(10) == Decimal(1) + ['0'];
  }

  lemma OneMoreDigit(m: nat, d: nat, width: nat)
    requires d < 10
    ensures Digits(10 * m + d, width + 1) == Digits(m, width) + ['0' + d as char] && Whole(10 * m + d, width + 1) == Whole(m, width)
  {
  }

  lemma NoDigits(m: nat)
    ensures Digits(m, 0) == "" && Whole(m, 0) == m
  {
  }

  lemma HundredthsExample()
    ensures Fixed(1050, 2) == "10.50"
  {
    hide Digits, Whole, Decimal;
    Smalls();
    NoDigits(10);
    OneMoreDigit(10, 5, 0);
    OneMoreDigit(105, 0, 1);
  }

  lemma MillionthsExample()
    ensures Fixed(1_500_000, 6) == "1.500000"
  {
    hide Digits, Whole, Decimal;
    Smalls();
    NoDigits(1);
    OneMoreDigit(1, 5, 0);
    OneMoreDigit(15, 0, 1);
    OneMoreDigit(150, 0, 2);
    OneMoreDigit(1500, 0, 3);
    OneMoreDigit(15_000, 0, 4);
    OneMoreDigit(150_000, 0, 5);
  }

  // The seven lines of the sealed text.
  lemma PayloadLines(tenant: string, folder: string, p: FolderPolicy)
    ensures Payload(tenant, folder, p) ==
      "archivon:folder-pow-policy:v1\n" + ("tenant_id=" + tenant + "\n" + ("folder_id=" + folder + "\n"
        + ("required_hashrate_ths=" + Fixed(p.required, 6) + "\n" + ("hashrate_tolerance_percent=" + Fixed(p.tolerance, 2) + "\n"
        + ("proof_window_seconds=" + Signed(p.window) + "\n" + ("max_proof_attempts=" + Signed(p.attempts) + "\n" + ""))))))
  {
    hide Fixed, Signed;
  }

  /** The sealed text of one policy, line by line. */
  lemma SealedExample()
    ensures Payload("t1", "f1", FolderPolicy(1_500_000, 1050, 60, 3)) ==
      "archivon:folder-pow-policy:v1\n" + ("tenant_id=" + "t1" + "\n" + ("folder_id=" + "f1" + "\n"
        + ("required_hashrate_ths=" + "1.500000" + "\n" + ("hashrate_tolerance_percent=" + "10.50" + "\n"
        + ("proof_window_seconds=" + "60" + "\n" + ("max_proof_attempts=" + "3" + "\n" + ""))))))
  {
    hide Fixed, Decimal, Payload;
    Smalls();
    HundredthsExample();
    MillionthsExample();
    PayloadLines("t1", "f1", FolderPolicy(1_500_000, 1050, 60, 3));
  }

  // The defaults a policy gets for what is not positive: 1 TH/s, a minute, three attempts.
  lemma DefaultsAre(p: FolderPolicy)
    ensures var q := NormalizePolicy(p);
      && q.required == (if 0 < p.required then p.required else 1_000_000) && q.tolerance == p.tolerance
      && q.window == (if 0 < p.window then p.window else 60) && q.attempts == (if 0 < p.attempts then p.attempts else 3)
    ensures var q := NormalizeFolderPolicy(p, FolderPolicy(0, 0, 0, 0));
      && q.required == (if 0 < p.required then p.required else 1_000_000) && q.tolerance == p.tolerance
      && q.window == (if 0 < p.window then p.window else 60) && q.attempts == (if 0 < p.attempts then p.attempts else 3)
  {
  }

  // A fallback replaces an empty policy as a whole, and any other field by field.
  lemma FallbackIs(p: FolderPolicy, fallback: FolderPolicy)
    requires 0 < fallback.required && 0 < fallback.window && 0 < fallback.attempts
    ensures NormalizeFolderPolicy(FolderPolicy(0, 0, 0, 0), fallback) == fallback
    ensures p != FolderPolicy(0, 0, 0, 0) ==>
      NormalizeFolderPolicy(p, fallback) ==
        FolderPolicy(if 0 < p.required then p.required else fallback.required, p.tolerance,
                     if 0 < p.window then p.window else fallback.window, if 0 < p.attempts then p.attempts else fallback.attempts)
  {
  }

  // ----------------------------------------------------------------- hexadecimal

  const LOWER_DIGITS := "0123456789abcdef"
  const UPPER_DIGITS := "0123456789ABCDEF"

  // The sixteen digits, in both cases, and nothing else.
  lemma HexDigitsAre(c: char, k: nat)
    requires k < 16
    ensures Hex.IsHex(c) <==> 48 <= c as int <= 57 || 65 <= c as int <= 70 || 97 <= c as int <= 102
    ensures Hex.IsHex(LOWER_DIGITS[k]) && Hex.HexValue(LOWER_DIGITS[k]) == k && Hex.LowerDigit(k) == LOWER_DIGITS[k]
    ensures Hex.IsHex(UPPER_DIGITS[k]) && Hex.HexValue(UPPER_DIGITS[k]) == k && Href.HexDigit(k) == UPPER_DIGITS[k]
  {
    if k < 10 {
      assert LOWER_DIGITS[k] as int == 48 + k && UPPER_DIGITS[k] as int == 48 + k;
      assert Hex.LowerDigit(k) as int == 48 + k && Href.HexDigit(k) as int == 48 + k;
    } else {
      assert LOWER_DIGITS[k] as int == 97 + (k - 10) && UPPER_DIGITS[k] as int == 65 + (k - 10);
      assert Hex.LowerDigit(k) as int == 97 + (k - 10) && Href.HexDigit(k) as int == 65 + (k - 10);
    }
  }

  // A byte is two digits, the higher first.
  lemma {:induction false} EncodedAt(bytes: seq<Hex.Byte>, i: nat)
    requires i < |bytes|
    ensures Hex.Encode(bytes)[2 * i] == LOWER_DIGITS[bytes[i] / 16] && Hex.Encode(bytes)[2 * i + 1] == LOWER_DIGITS[bytes[i] % 16]
  {
    hide Hex.LowerDigit;
    if i == 0 {
      HexDigitsAre('0', bytes[0] / 16);
      HexDigitsAre('0', bytes[0] % 16);
    } else {
      EncodedAt(bytes[1..], i - 1);
    }
  }

  // -------------------------------------------------------------------- escaping

  // Letters, digits and these marks stand for themselves in a link.
  predicate Plain(c: char) {
    || 48 <= c as int <= 57 || 65 <= c as int <= 90 || 97 <= c as int <= 122
    || c in {'-', '_', '.', '~', '$', '&', '+', '=', ':', '@'}
  }

  lemma PlainIff(c: char)
    ensures Plain(c) <==> Href.Unreserved(c)
  {
    assert c in "-_.~$&+=:@" <==> c in {'-', '_', '.', '~', '$', '&', '+', '=', ':', '@'} by { MarksAre(c); }
  }

  lemma MarksAre(c: char)
    ensures c in "-_.~$&+=:@" <==> c in {'-', '_', '.', '~', '$', '&', '+', '=', ':', '@'}
  {
    var marks := "-_.~$&+=:@";
    assert marks == ['-', '_', '.', '~', '$', '&', '+', '=', ':', '@'];
    assert marks[0] == '-' && marks[1] == '_' && marks[2] == '.' && marks[3] == '~' && marks[4] == '$';
    assert marks[5] == '&' && marks[6] == '+' && marks[7] == '=' && marks[8] == ':' && marks[9] == '@';
  }

  /** url.PathEscape: plain characters stay, every other byte becomes a percent sign and two upper-case digits. */
  lemma EscapeStep(c: char, rest: string)
    requires c as int < 256
    ensures Href.PathEscape("") == ""
    ensures Href.PathEscape([c] + rest) ==
      (if Plain(c) then [c] else ['%', UPPER_DIGITS[c as int / 16], UPPER_DIGITS[c as int % 16]]) + Href.PathEscape(rest)
  {
    hide Href.HexDigit, Plain, Href.Unreserved, LOWER_DIGITS, UPPER_DIGITS;
    PlainIff(c);
    HexDigitsAre(c, c as int / 16);
    HexDigitsAre(c, c as int % 16);
    assert ([c] + rest)[1..] == rest;
  }

  // url.PathUnescape: two digits after a percent sign are a byte, anything else after one is refused.
  lemma UnescapeStep(s: string)
    requires s != ""
    ensures Href.PathUnescape("") == Some("")
    ensures s[0] != '%' ==>
      Href.PathUnescape(s) == match Href.PathUnescape(s[1..]) case None => None case Some(rest) => Some([s[0]] + rest)
    ensures s[0] == '%' && !(|s| >= 3 && Hex.IsHex(s[1]) && Hex.IsHex(s[2])) ==> Href.PathUnescape(s) == None
    ensures s[0] == '%' && |s| >= 3 && Hex.IsHex(s[1]) && Hex.IsHex(s[2]) ==>
      Href.PathUnescape(s) == match Href.PathUnescape(s[3..])
        case None => None
        case Some(rest) => Some([(16 * Hex.HexValue(s[1]) + Hex.HexValue(s[2])) as char] + rest)
  {
    hide Hex.IsHex, Hex.HexValue;
  }

  // --------------------------------------------------------------- request paths

  predicate PartTaken(segment: string) {
    var raw := Href.PathUnescape(segment);
    raw.Some? && NameTaken(Text.TrimSpace(raw.value))
  }

  function PartOf(segment: string): string {
    match Href.PathUnescape(segment) case None => "" case Some(raw) => Text.TrimSpace(raw)
  }

  lemma {:induction false} PartsAre(segments: seq<string>)
    ensures var r := Href.CleanParts(segments);
      && (r.Some? <==> forall i :: 0 <= i < |segments| ==> PartTaken(segments[i]))
      && (r.Some? ==> |r.value| == |segments| && forall i :: 0 <= i < |segments| ==> r.value[i] == PartOf(segments[i]))
  {
    hide Href.PathUnescape, NameTaken, Text.CleanSegment, Text.TrimSpace;
    if segments != [] {
      PartsAre(segments[1..]);
      if Href.PathUnescape(segments[0]).Some? {
        SegmentIs(Href.PathUnescape(segments[0]).value);
      }
      assert forall i :: 0 < i < |segments| ==> segments[i] == segments[1..][i - 1];
    }
  }

  /** davPathParts: below the prefix nothing is the root, and otherwise the first segment must be the user's
      name; every other one, unescaped and trimmed, a name that may be used. */
  lemma PathPartsIff(escapedPath: string, basePath: string, username: string)
    ensures var value := Text.TrimSlashes(if basePath <= escapedPath then escapedPath[|basePath|..] else escapedPath);
      var segments, r := Text.Split(value), Href.PathParts(escapedPath, basePath, username);
      if value == "" then r == Some([])
      else
        && (r.Some? <==> Href.PathUnescape(segments[0]) == Some(username) && forall i :: 0 < i < |segments| ==> PartTaken(segments[i]))
        && (r.Some? ==> |r.value| == |segments| - 1 && forall i :: 0 < i < |segments| ==> r.value[i - 1] == PartOf(segments[i]))
  {
    hide Href.PathUnescape, Href.CleanParts, PartTaken, PartOf, Text.TrimSlashes, Text.Split;
    var value := Text.TrimSlashes(if basePath <= escapedPath then escapedPath[|basePath|..] else escapedPath);
    var segments := Text.Split(value);
    PartsAre(segments[1..]);
    assert forall i :: 0 < i < |segments| ==> segments[i] == segments[1..][i - 1];
    assert forall j :: 0 <= j < |segments| - 1 ==> segments[1..][j] == segments[j + 1];
  }

  // davRootHref: what a proxy puts in front, the base without its slashes at the end, the user's name.
  lemma RootHrefIs(forwarded: string, base: string, username: string)
    requires base == "" || base[|base| - 1] != '/'
    ensures Href.RootHref(forwarded, base + "/", username) == forwarded + base + "/" + Href.PathEscape(username) + "/"
  {
    hide Href.PathEscape;
    var b := base + "/";
    assert b[..|b| - 1] == base;
    assert Text.TrimRightSlashes(b) == Text.TrimRightSlashes(base) == base;
  }
}
