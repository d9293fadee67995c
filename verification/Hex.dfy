/** Hexadecimal text, bytes, and the numbers they stand for. */
module Hex {
  import opened Base

  type Byte = b: int | 0 <= b < 256

  predicate IsHex(c: char) {
    '0' <= c <= '9' || 'a' <= c <= 'f' || 'A' <= c <= 'F'
  }

  function HexValue(c: char): (n: nat)
    requires IsHex(c)
    ensures n < 16
  {
    if '0' <= c <= '9' then c as int - '0' as int
    else if 'a' <= c <= 'f' then c as int - 'a' as int + 10
    else c as int - 'A' as int + 10
  }

  function LowerDigit(n: nat): char
    requires n < 16
  {
    if n < 10 then '0' + n as char else 'a' + (n - 10) as char
  }

  function LowerChar(c: char): char {
    if 'A' <= c <= 'Z' then c - 'A' + 'a' else c
  }

  // strings.ToLower. Letters beyond ASCII never become hexadecimal digits and are left alone.
  function Lower(s: string): (r: string)
    ensures |r| == |s|
  {
    seq(|s|, i requires 0 <= i < |s| => LowerChar(s[i]))
  }

  // hex.EncodeToString
  function Encode(bytes: seq<Byte>): (s: string)
    ensures |s| == 2 * |bytes|
  {
    if bytes == [] then "" else [LowerDigit(bytes[0] / 16), LowerDigit(bytes[0] % 16)] + Encode(bytes[1..])
  }

  // hex.DecodeString; nothing for an odd length or another character.
  function Decode(s: string): (r: Option<seq<Byte>>)
    ensures r.Some? ==> |s| == 2 * |r.value|
  {
    if s == "" then Some([])
    else if |s| < 2 || !IsHex(s[0]) || !IsHex(s[1]) then None
    else
      var rest := Decode(s[2..]);
      if rest.None? then None else Some([HexValue(s[0]) * 16 + HexValue(s[1])] + rest.value)
  }

  lemma DigitValue(n: nat)
    requires n < 16
    ensures IsHex(LowerDigit(n)) && HexValue(LowerDigit(n)) == n
  {
    if n < 10 {
      assert LowerDigit(n) as int == '0' as int + n;
    } else {
      assert LowerDigit(n) as int == 'a' as int + (n - 10);
    }
  }

  lemma ValueDigit(c: char)
    requires IsHex(c)
    ensures LowerDigit(HexValue(c)) == LowerChar(c) && IsHex(LowerChar(c)) && HexValue(LowerChar(c)) == HexValue(c)
  {
    if '0' <= c <= '9' {
      assert ('0' + (c as int - '0' as int) as char) == c;
    } else if 'a' <= c <= 'f' {
      assert ('a' + (c as int - 'a' as int) as char) == c;
    } else {
      assert LowerChar(c) as int == c as int - 'A' as int + 'a' as int;
      assert ('a' + (c as int - 'A' as int) as char) == LowerChar(c);
    }
  }

  lemma {:induction false} DecodeEncode(bytes: seq<Byte>)
    ensures Decode(Encode(bytes)) == Some(bytes)
  {
    if bytes != [] {
      DecodeEncode(bytes[1..]);
      var s := Encode(bytes);
      DigitValue(bytes[0] / 16);
      DigitValue(bytes[0] % 16);
      assert s[0] == LowerDigit(bytes[0] / 16) && s[1] == LowerDigit(bytes[0] % 16) && s[2..] == Encode(bytes[1..]);
      assert [bytes[0]] + bytes[1..] == bytes;
    }
  }

  lemma {:induction false} EncodeDecode(s: string)
    requires Decode(s).Some?
    ensures Encode(Decode(s).value) == Lower(s) && Decode(Lower(s)) == Decode(s)
  {
    hide Encode, Decode, Lower, LowerDigit, LowerChar, IsHex, HexValue;
    DecodeStep(s);
    LowerDecodes(s);
    if s == "" {
      EncodeNothing();
    } else {
      EncodeDecode(s[2..]);
      ValueDigit(s[0]);
      ValueDigit(s[1]);
      ByteParts(HexValue(s[0]), HexValue(s[1]));
      EncodeStep(HexValue(s[0]) * 16 + HexValue(s[1]), Decode(s[2..]).value);
      LowerStep(s);
    }
  }

  lemma DecodeStep(s: string)
    requires Decode(s).Some?
    ensures s == "" ==> Decode(s).value == []
    ensures s != "" ==> |s| >= 2 && IsHex(s[0]) && IsHex(s[1]) && Decode(s[2..]).Some?
                        && Decode(s).value == [HexValue(s[0]) * 16 + HexValue(s[1])] + Decode(s[2..]).value
  {
  }

  lemma EncodeNothing()
    ensures Encode([]) == "" && Lower("") == ""
  {
  }

  lemma EncodeStep(b: Byte, rest: seq<Byte>)
    ensures Encode([b] + rest) == [LowerDigit(b / 16), LowerDigit(b % 16)] + Encode(rest)
  {
    assert ([b] + rest)[1..] == rest;
  }

  lemma LowerStep(s: string)
    requires |s| >= 2
    ensures Lower(s) == [LowerChar(s[0]), LowerChar(s[1])] + Lower(s[2..])
  {
  }

  lemma ByteParts(high: nat, low: nat)
    requires high < 16 && low < 16
    ensures (high * 16 + low) / 16 == high && (high * 16 + low) % 16 == low
  {
  }

  lemma {:induction false} LowerDecodes(s: string)
    ensures Decode(Lower(s)) == Decode(s)
    decreases |s|
  {
    if |s| >= 2 {
      LowerDecodes(s[2..]);
      assert Lower(s)[2..] == Lower(s[2..]) && Lower(s)[0] == LowerChar(s[0]) && Lower(s)[1] == LowerChar(s[1]);
      LowerHex(s[0]);
      LowerHex(s[1]);
    }
  }

  lemma LowerHex(c: char)
    ensures IsHex(LowerChar(c)) <==> IsHex(c)
    ensures IsHex(c) ==> HexValue(LowerChar(c)) == HexValue(c)
  {
    if IsHex(c) {
      ValueDigit(c);
    } else if 'A' <= c <= 'Z' {
      assert LowerChar(c) as int == c as int - 'A' as int + 'a' as int;
    }
  }

  // Decoding a whole is decoding its parts.
  lemma {:induction false} DecodeParts(a: string, b: string)
    requires |a| % 2 == 0
    ensures Decode(a + b) ==
      if Decode(a).Some? && Decode(b).Some? then Some(Decode(a).value + Decode(b).value) else None
    decreases |a|
  {
    if a == "" {
      assert a + b == b;
      if Decode(b).Some? {
        assert [] + Decode(b).value == Decode(b).value;
      }
    } else {
      DecodeParts(a[2..], b);
      assert (a + b)[2..] == a[2..] + b && (a + b)[0] == a[0] && (a + b)[1] == a[1];
      if Decode(a).Some? && Decode(b).Some? {
        var first := [HexValue(a[0]) * 16 + HexValue(a[1])];
        assert first + (Decode(a[2..]).value + Decode(b).value) == (first + Decode(a[2..]).value) + Decode(b).value;
      }
    }
  }

  // ------------------------------------------------------------------ reversing

  function Reverse(bytes: seq<Byte>): (r: seq<Byte>)
    ensures |r| == |bytes|
  {
    seq(|bytes|, i requires 0 <= i < |bytes| => bytes[|bytes| - 1 - i])
  }

  /** reverseBytes */
  method ReverseBytes(raw: seq<Byte>) returns (reversed: seq<Byte>)
    ensures reversed == Reverse(raw)
  {
    var result := new Byte[|raw|](_ => 0);
    for i := 0 to |raw|
      invariant forall j :: |raw| - i <= j < |raw| ==> result[j] == Reverse(raw)[j]
    {
      result[|raw| - 1 - i] := raw[i];
    }
    return result[..];
  }

  lemma ReverseTwice(bytes: seq<Byte>)
    ensures Reverse(Reverse(bytes)) == bytes
  {
  }

  // The bytes of every group of four in opposite order.
  function SwapWords(bytes: seq<Byte>): (r: seq<Byte>)
    requires |bytes| % 4 == 0
    ensures |r| == |bytes|
  {
    seq(|bytes|, i requires 0 <= i < |bytes| => bytes[i / 4 * 4 + 3 - i % 4])
  }

  /** The loop of reverseHexWords. */
  method ReverseWords(raw: seq<Byte>) returns (swapped: seq<Byte>)
    requires |raw| % 4 == 0
    ensures swapped == SwapWords(raw)
  {
    var result := new Byte[|raw|](_ => 0);
    var i := 0;
    while i < |raw|
      invariant i % 4 == 0 && i <= |raw|
      invariant forall k :: 0 <= k < i ==> result[k] == SwapWords(raw)[k]
    {
      WordAt(raw, i);
      result[i] := raw[i + 3];
      result[i + 1] := raw[i + 2];
      result[i + 2] := raw[i + 1];
      result[i + 3] := raw[i];
      i := i + 4;
    }
    return result[..];
  }

  lemma WordAt(raw: seq<Byte>, i: nat)
    requires |raw| % 4 == 0 && i % 4 == 0 && i < |raw|
    ensures i + 3 < |raw|
    ensures SwapWords(raw)[i] == raw[i + 3] && SwapWords(raw)[i + 1] == raw[i + 2]
    ensures SwapWords(raw)[i + 2] == raw[i + 1] && SwapWords(raw)[i + 3] == raw[i]
  {
    assert i / 4 * 4 == i;
    assert (i + 1) / 4 == i / 4 && (i + 2) / 4 == i / 4 && (i + 3) / 4 == i / 4;
  }

  lemma SwapTwice(bytes: seq<Byte>)
    requires |bytes| % 4 == 0
    ensures SwapWords(SwapWords(bytes)) == bytes
  {
    forall i | 0 <= i < |bytes| ensures SwapWords(SwapWords(bytes))[i] == bytes[i] {
      SwapIndex(i);
      var j := i / 4 * 4 + 3 - i % 4;
      assert SwapWords(SwapWords(bytes))[i] == SwapWords(bytes)[j];
    }
  }

  lemma SwapIndex(i: nat)
    ensures var j := i / 4 * 4 + 3 - i % 4; j / 4 == i / 4 && j / 4 * 4 + 3 - j % 4 == i
  {
  }

  // -------------------------------------------------------------------- numbers

  // Little-endian and big-endian readings.
  function FromLE(bytes: seq<Byte>): nat {
    if bytes == [] then 0 else bytes[0] + 256 * FromLE(bytes[1..])
  }

  function FromBE(bytes: seq<Byte>): nat {
    if bytes == [] then 0 else FromBE(bytes[..|bytes| - 1]) * 256 + bytes[|bytes| - 1]
  }

  lemma {:induction false} ReversedIsBE(bytes: seq<Byte>)
    ensures FromBE(Reverse(bytes)) == FromLE(bytes)
  {
    if bytes != [] {
      ReversedIsBE(bytes[1..]);
      var r := Reverse(bytes);
      assert r[..|r| - 1] == Reverse(bytes[1..]) && r[|r| - 1] == bytes[0];
    }
  }

  // The lowest bytes of a number, low byte first.
  function LittleEndian(n: nat, width: nat): (r: seq<Byte>)
    ensures |r| == width
  {
    if width == 0 then [] else [n % 256] + LittleEndian(n / 256, width - 1)
  }

  function Pow256(k: nat): (p: nat)
    ensures p > 0
  {
    if k == 0 then 1 else 256 * Pow256(k - 1)
  }

  lemma {:induction false} LittleEndianReads(n: nat, width: nat)
    requires n < Pow256(width)
    ensures FromLE(LittleEndian(n, width)) == n
  {
    if width > 0 {
      LittleEndianReads(n / 256, width - 1);
      assert LittleEndian(n, width)[1..] == LittleEndian(n / 256, width - 1);
    }
  }

  // %0<width>x of a number that fits.
  function HexFixed(n: nat, width: nat): (s: string)
    ensures |s| == width
  {
    if width == 0 then "" else HexFixed(n / 16, width - 1) + [LowerDigit(n % 16)]
  }

  // SetString(s, 16) on unsigned text; nothing if it is no number.
  function HexNumber(s: string): Option<nat> {
    if s == "" || exists i :: 0 <= i < |s| && !IsHex(s[i]) then None else Some(HexInt(s))
  }

  function HexInt(s: string): nat
    requires forall i :: 0 <= i < |s| ==> IsHex(s[i])
  {
    if s == "" then 0 else HexInt(s[..|s| - 1]) * 16 + HexValue(s[|s| - 1])
  }

  function Pow16(k: nat): (p: nat)
    ensures p > 0
  {
    if k == 0 then 1 else 16 * Pow16(k - 1)
  }

  lemma {:induction false} HexFixedReads(n: nat, width: nat)
    requires n < Pow16(width)
    ensures forall i :: 0 <= i < width ==> IsHex(HexFixed(n, width)[i])
    ensures HexInt(HexFixed(n, width)) == n
  {
    if width > 0 {
      HexFixedReads(n / 16, width - 1);
      DigitValue(n % 16);
      var s := HexFixed(n, width);
      assert s[..width - 1] == HexFixed(n / 16, width - 1) && s[width - 1] == LowerDigit(n % 16);
    }
  }
}
