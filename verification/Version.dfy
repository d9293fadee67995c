/** Version rolling: the version of a submitted share under the negotiated mask. */
module Version {
  import opened Base
  import opened Hex
  import opened Text
  import opened Coinbase
  import opened Header

  const DEFAULT_MASK := "00c00000"

  datatype VersionError = NotConfigured | InvalidBaseVersion | InvalidVersionBits

  // One hexadecimal digit as the low bits of a word, and back.
  function Nibble(c: char): bv32 {
    match c
    case '1' => 1 case '2' => 2 case '3' => 3 case '4' => 4 case '5' => 5 case '6' => 6 case '7' => 7
    case '8' => 8 case '9' => 9 case 'a' => 10 case 'b' => 11 case 'c' => 12 case 'd' => 13 case 'e' => 14 case 'f' => 15
    case _ => 0
  }

  function Digit(n: bv32): char {
    match n
    case 1 => '1' case 2 => '2' case 3 => '3' case 4 => '4' case 5 => '5' case 6 => '6' case 7 => '7'
    case 8 => '8' case 9 => '9' case 10 => 'a' case 11 => 'b' case 12 => 'c' case 13 => 'd' case 14 => 'e' case 15 => 'f'
    case _ => '0'
  }

  // ParseUint(s, 16, 32) of eight lower-case digits.
  function Word(s: string): bv32
    requires |s| == 8
  {
    (Nibble(s[0]) << 28) | (Nibble(s[1]) << 24) | (Nibble(s[2]) << 20) | (Nibble(s[3]) << 16)
    | (Nibble(s[4]) << 12) | (Nibble(s[5]) << 8) | (Nibble(s[6]) << 4) | Nibble(s[7])
  }

  // %08x
  function Text8(w: bv32): (s: string)
    ensures |s| == 8
  {
    [Digit((w >> 28) & 0xf), Digit((w >> 24) & 0xf), Digit((w >> 20) & 0xf), Digit((w >> 16) & 0xf),
     Digit((w >> 12) & 0xf), Digit((w >> 8) & 0xf), Digit((w >> 4) & 0xf), Digit(w & 0xf)]
  }

  // strings.ToLower(strings.TrimSpace(s)), the form all three texts are brought to.
  function Normal(s: string): string {
    Lower(TrimSpace(s))
  }

  lemma LowerIsTrimmed(s: string)
    requires Trimmed(s)
    ensures Trimmed(Lower(s))
  {
    forall i | 0 <= i < |s| ensures Lower(s)[i] == s[i] || ('A' <= s[i] <= 'Z' && 'a' <= Lower(s)[i] <= 'z') {
      if 'A' <= s[i] <= 'Z' {
        assert LowerChar(s[i]) as int == s[i] as int - 'A' as int + 'a' as int;
      }
    }
  }

  // Once is enough: hexLen finds the normal form as it is.
  lemma NormalHasLength(s: string, length: nat)
    requires HexLen(Normal(s), length)
    ensures |Normal(s)| == length
  {
    hide TrimSpace, Trimmed, Decode, Lower;
    LowerIsTrimmed(TrimSpace(s));
    TrimmedIsKept(Normal(s));
  }

  // The mask in force: the default replaces anything unusable.
  function MaskInForce(mask: string): (m: string)
    ensures |m| == 8
  {
    if !HexLen(Normal(mask), 8) || Normal(mask) == "00000000" then DEFAULT_MASK
    else
      NormalHasLength(mask, 8);
      Normal(mask)
  }

  function Roll(base: bv32, submitted: bv32, mask: bv32): bv32 {
    (base & !mask) | (submitted & mask)
  }

  // effectiveVersionHex
  function EffectiveVersion(baseVersion: string, submittedVersion: string, mask: string, enabled: bool): Result<string, VersionError> {
    if !enabled then Err(NotConfigured)
    else if !HexLen(Normal(baseVersion), 8) then Err(InvalidBaseVersion)
    else if !HexLen(Normal(submittedVersion), 8) then Err(InvalidVersionBits)
    else
      NormalHasLength(baseVersion, 8);
      NormalHasLength(submittedVersion, 8);
      Ok(Text8(Roll(Word(Normal(baseVersion)), Word(Normal(submittedVersion)), Word(MaskInForce(mask)))))
  }

  lemma NibbleDigit(n: bv32)
    requires n <= 0xf
    ensures Nibble(Digit(n)) == n
  {
  }

  lemma Shifted(w: bv32)
    ensures (((w >> 28) & 0xf) << 28) | (((w >> 24) & 0xf) << 24) | (((w >> 20) & 0xf) << 20) | (((w >> 16) & 0xf) << 16)
            | (((w >> 12) & 0xf) << 12) | (((w >> 8) & 0xf) << 8) | (((w >> 4) & 0xf) << 4) | (w & 0xf) == w
    ensures (w >> 28) & 0xf <= 0xf && (w >> 24) & 0xf <= 0xf && (w >> 20) & 0xf <= 0xf && (w >> 16) & 0xf <= 0xf
    ensures (w >> 12) & 0xf <= 0xf && (w >> 8) & 0xf <= 0xf && (w >> 4) & 0xf <= 0xf && w & 0xf <= 0xf
  {
  }

  lemma WordOfText(w: bv32)
    ensures Word(Text8(w)) == w
  {
    hide Nibble, Digit;
    Shifted(w);
    NibbleDigit((w >> 28) & 0xf); NibbleDigit((w >> 24) & 0xf); NibbleDigit((w >> 20) & 0xf); NibbleDigit((w >> 16) & 0xf);
    NibbleDigit((w >> 12) & 0xf); NibbleDigit((w >> 8) & 0xf); NibbleDigit((w >> 4) & 0xf); NibbleDigit(w & 0xf);
  }

  // Two versions agree outside the mask, or inside it.
  predicate AgreeOutside(v: bv32, w: bv32, mask: bv32) {
    v & !mask == w & !mask
  }

  predicate AgreeInside(v: bv32, w: bv32, mask: bv32) {
    v & mask == w & mask
  }

  lemma RollBits(base: bv32, submitted: bv32, mask: bv32)
    ensures AgreeOutside(Roll(base, submitted, mask), base, mask) && AgreeInside(Roll(base, submitted, mask), submitted, mask)
  {
  }

  // A rolled version differs from the job's only in bits of the mask, and has the submitted bits there.
  lemma RolledOnlyInMask(baseVersion: string, submittedVersion: string, mask: string)
    requires HexLen(Normal(baseVersion), 8) && HexLen(Normal(submittedVersion), 8)
    ensures |Normal(baseVersion)| == 8 && |Normal(submittedVersion)| == 8
    ensures var r := EffectiveVersion(baseVersion, submittedVersion, mask, true);
      && r.Ok? && |r.value| == 8
      && AgreeOutside(Word(r.value), Word(Normal(baseVersion)), Word(MaskInForce(mask)))
      && AgreeInside(Word(r.value), Word(Normal(submittedVersion)), Word(MaskInForce(mask)))
  {
    hide HexLen, Normal, MaskInForce, Word, Roll, Text8, AgreeOutside, AgreeInside;
    NormalHasLength(baseVersion, 8);
    NormalHasLength(submittedVersion, 8);
    var b, s, m := Word(Normal(baseVersion)), Word(Normal(submittedVersion)), Word(MaskInForce(mask));
    WordOfText(Roll(b, s, m));
    RollBits(b, s, m);
  }

  lemma DigitsOfText(w: bv32)
    ensures forall i :: 0 <= i < 8 ==> IsHex(Text8(w)[i])
  {
    hide Digit, IsHex;
    Shifted(w);
    DigitIsHex((w >> 28) & 0xf); DigitIsHex((w >> 24) & 0xf); DigitIsHex((w >> 20) & 0xf); DigitIsHex((w >> 16) & 0xf);
    DigitIsHex((w >> 12) & 0xf); DigitIsHex((w >> 8) & 0xf); DigitIsHex((w >> 4) & 0xf); DigitIsHex(w & 0xf);
  }

  lemma DigitIsHex(n: bv32)
    ensures IsHex(Digit(n))
  {
  }

  // A rolled version always passes the version check of a share.
  lemma RolledVersionPasses(w: bv32)
    ensures HexLen(Text8(w), 8)
  {
    hide TrimSpace, Trimmed, Lower, Text8, Decode, IsHex;
    var s := Text8(w);
    assert forall i :: 0 <= i < 8 ==> IsHex(s[i]) by { DigitsOfText(w); }
    HexDecodes(s);
    DecodedIsTrimmed(s);
    TrimmedIsKept(s);
    LowerDecodes(s);
  }

  // ---------------------------------------------------------------- digit by digit

  // The digits are those of hexadecimal numbers, the first of a text being the highest.
  lemma NibbleIs(c: char)
    requires IsHex(c) && !('A' <= c <= 'F')
    ensures Nibble(c) as int == HexValue(c) && Nibble(c) <= 0xf
  {
  }

  lemma DigitIs(n: bv32)
    requires n <= 0xf
    ensures Digit(n) == LowerDigit(n as int)
  {
  }

  // Bits of one word where the mask has ones, of the other elsewhere.
  function Pick(base: bv32, submitted: bv32, mask: bv32): bv32 {
    (base & !mask) | (submitted & mask)
  }

  lemma NibbleIsSmall(c: char)
    ensures Nibble(c) <= 0xf
  {
  }

  lemma WordDigits(s: string)
    requires |s| == 8
    ensures (Word(s) >> 28) & 0xf == Nibble(s[0]) && (Word(s) >> 24) & 0xf == Nibble(s[1])
    ensures (Word(s) >> 20) & 0xf == Nibble(s[2]) && (Word(s) >> 16) & 0xf == Nibble(s[3])
    ensures (Word(s) >> 12) & 0xf == Nibble(s[4]) && (Word(s) >> 8) & 0xf == Nibble(s[5])
    ensures (Word(s) >> 4) & 0xf == Nibble(s[6]) && Word(s) & 0xf == Nibble(s[7])
  {
    hide Nibble;
    NibbleIsSmall(s[0]); NibbleIsSmall(s[1]); NibbleIsSmall(s[2]); NibbleIsSmall(s[3]);
    NibbleIsSmall(s[4]); NibbleIsSmall(s[5]); NibbleIsSmall(s[6]); NibbleIsSmall(s[7]);
    Packed(Nibble(s[0]), Nibble(s[1]), Nibble(s[2]), Nibble(s[3]), Nibble(s[4]), Nibble(s[5]), Nibble(s[6]), Nibble(s[7]));
  }

  lemma Packed(a: bv32, b: bv32, c: bv32, d: bv32, e: bv32, f: bv32, g: bv32, h: bv32)
    requires a <= 0xf && b <= 0xf && c <= 0xf && d <= 0xf && e <= 0xf && f <= 0xf && g <= 0xf && h <= 0xf
    ensures var w := (a << 28) | (b << 24) | (c << 20) | (d << 16) | (e << 12) | (f << 8) | (g << 4) | h;
      && (w >> 28) & 0xf == a && (w >> 24) & 0xf == b && (w >> 20) & 0xf == c && (w >> 16) & 0xf == d
      && (w >> 12) & 0xf == e && (w >> 8) & 0xf == f && (w >> 4) & 0xf == g && w & 0xf == h
  {
  }

  lemma RollHigh(b: bv32, s: bv32, m: bv32)
    ensures (Roll(b, s, m) >> 28) & 0xf == Pick((b >> 28) & 0xf, (s >> 28) & 0xf, (m >> 28) & 0xf)
    ensures (Roll(b, s, m) >> 24) & 0xf == Pick((b >> 24) & 0xf, (s >> 24) & 0xf, (m >> 24) & 0xf)
    ensures (Roll(b, s, m) >> 20) & 0xf == Pick((b >> 20) & 0xf, (s >> 20) & 0xf, (m >> 20) & 0xf)
    ensures (Roll(b, s, m) >> 16) & 0xf == Pick((b >> 16) & 0xf, (s >> 16) & 0xf, (m >> 16) & 0xf)
  {
  }

  lemma RollLow(b: bv32, s: bv32, m: bv32)
    ensures (Roll(b, s, m) >> 12) & 0xf == Pick((b >> 12) & 0xf, (s >> 12) & 0xf, (m >> 12) & 0xf)
    ensures (Roll(b, s, m) >> 8) & 0xf == Pick((b >> 8) & 0xf, (s >> 8) & 0xf, (m >> 8) & 0xf)
    ensures (Roll(b, s, m) >> 4) & 0xf == Pick((b >> 4) & 0xf, (s >> 4) & 0xf, (m >> 4) & 0xf)
    ensures Roll(b, s, m) & 0xf == Pick(b & 0xf, s & 0xf, m & 0xf)
  {
  }

  // The digit a rolled text has at place i.
  function PickDigit(base: string, submitted: string, mask: string, i: nat): char
    requires i < |base| && i < |submitted| && i < |mask|
  {
    Digit(Pick(Nibble(base[i]), Nibble(submitted[i]), Nibble(mask[i])))
  }

  // Digit i of a word, from the left.
  function Place(w: bv32, i: nat): bv32 {
    if i == 0 then (w >> 28) & 0xf else if i == 1 then (w >> 24) & 0xf else if i == 2 then (w >> 20) & 0xf else if i == 3 then (w >> 16) & 0xf
    else if i == 4 then (w >> 12) & 0xf else if i == 5 then (w >> 8) & 0xf else if i == 6 then (w >> 4) & 0xf else w & 0xf
  }

  lemma TextPlaces(w: bv32)
    ensures Text8(w)[0] == Digit(Place(w, 0))
    ensures Text8(w)[1] == Digit(Place(w, 1))
    ensures Text8(w)[2] == Digit(Place(w, 2))
    ensures Text8(w)[3] == Digit(Place(w, 3))
    ensures Text8(w)[4] == Digit(Place(w, 4))
    ensures Text8(w)[5] == Digit(Place(w, 5))
    ensures Text8(w)[6] == Digit(Place(w, 6))
    ensures Text8(w)[7] == Digit(Place(w, 7))
  {
    hide Digit;
  }

  lemma WordPlaces(s: string)
    requires |s| == 8
    ensures Place(Word(s), 0) == Nibble(s[0])
    ensures Place(Word(s), 1) == Nibble(s[1])
    ensures Place(Word(s), 2) == Nibble(s[2])
    ensures Place(Word(s), 3) == Nibble(s[3])
    ensures Place(Word(s), 4) == Nibble(s[4])
    ensures Place(Word(s), 5) == Nibble(s[5])
    ensures Place(Word(s), 6) == Nibble(s[6])
    ensures Place(Word(s), 7) == Nibble(s[7])
  {
    hide Nibble, Word;
    WordDigits(s);
  }

  lemma RollPlaces(b: bv32, s: bv32, m: bv32)
    ensures Place(Roll(b, s, m), 0) == Pick(Place(b, 0), Place(s, 0), Place(m, 0))
    ensures Place(Roll(b, s, m), 1) == Pick(Place(b, 1), Place(s, 1), Place(m, 1))
    ensures Place(Roll(b, s, m), 2) == Pick(Place(b, 2), Place(s, 2), Place(m, 2))
    ensures Place(Roll(b, s, m), 3) == Pick(Place(b, 3), Place(s, 3), Place(m, 3))
    ensures Place(Roll(b, s, m), 4) == Pick(Place(b, 4), Place(s, 4), Place(m, 4))
    ensures Place(Roll(b, s, m), 5) == Pick(Place(b, 5), Place(s, 5), Place(m, 5))
    ensures Place(Roll(b, s, m), 6) == Pick(Place(b, 6), Place(s, 6), Place(m, 6))
    ensures Place(Roll(b, s, m), 7) == Pick(Place(b, 7), Place(s, 7), Place(m, 7))
  {
    hide Roll, Pick;
    RollHigh(b, s, m);
    RollLow(b, s, m);
  }

  lemma RolledText(base: string, submitted: string, mask: string)
    requires |base| == 8 && |submitted| == 8 && |mask| == 8
    ensures var r := Text8(Roll(Word(base), Word(submitted), Word(mask)));
      forall i :: 0 <= i < 8 ==> r[i] == PickDigit(base, submitted, mask, i)
  {
    hide Nibble, Digit, Pick, Roll, Word, Place, Text8;
    WordPlaces(base);
    WordPlaces(submitted);
    WordPlaces(mask);
    RollPlaces(Word(base), Word(submitted), Word(mask));
    TextPlaces(Roll(Word(base), Word(submitted), Word(mask)));
  }

  /** Every digit of a rolled version has the submitted bits where the mask has ones, and the job's bits
      elsewhere. The mask is the one negotiated, unless that is all zero or no word of eight digits. */
  lemma RolledDigits(baseVersion: string, submittedVersion: string, mask: string, i: nat)
    requires HexLen(Normal(baseVersion), 8) && HexLen(Normal(submittedVersion), 8) && i < 8
    ensures |Normal(baseVersion)| == 8 && |Normal(submittedVersion)| == 8
    ensures var r := EffectiveVersion(baseVersion, submittedVersion, mask, true);
      var inForce := if HexLen(Normal(mask), 8) && Normal(mask) != "00000000" then Normal(mask) else "00c00000";
      r.Ok? && |r.value| == 8 && |inForce| == 8 && r.value[i] == PickDigit(Normal(baseVersion), Normal(submittedVersion), inForce, i)
  {
    hide HexLen, Normal, Word, Roll, Text8, PickDigit;
    NormalHasLength(baseVersion, 8);
    NormalHasLength(submittedVersion, 8);
    RolledText(Normal(baseVersion), Normal(submittedVersion), MaskInForce(mask));
  }

  // Rolling is refused if it was not agreed on, or if one of the texts is no word of eight digits.
  lemma RollsIff(baseVersion: string, submittedVersion: string, mask: string, enabled: bool)
    ensures EffectiveVersion(baseVersion, submittedVersion, mask, enabled).Ok? <==>
      enabled && HexLen(Normal(baseVersion), 8) && HexLen(Normal(submittedVersion), 8)
  {
    hide HexLen, Normal, Word, Roll, Text8, MaskInForce;
  }
}
