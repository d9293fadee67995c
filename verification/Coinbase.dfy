/** The coinbase transaction the gateway hands out in two parts around the extranonces. */
module Coinbase {
  import opened Base
  import opened Hex
  import opened Text

  // ------------------------------------------------------------- CompactSize

  // compactSize
  function CompactSize(value: int): seq<Byte> {
    if value < 0 then [0]
    else if value < 253 then [value]
    else if value <= 0xffff then [0xfd] + LittleEndian(value, 2)
    else if value <= 0xffff_ffff then [0xfe] + LittleEndian(value, 4)
    else [0xff] + LittleEndian(value, 8)
  }

  // The number at the front and its length in bytes.
  function ReadCompactSize(bytes: seq<Byte>): Option<(nat, nat)> {
    if bytes == [] then None
    else
      var width := if bytes[0] < 253 then 0 else if bytes[0] == 253 then 2 else if bytes[0] == 254 then 4 else 8;
      if |bytes| < 1 + width then None
      else if width == 0 then Some((bytes[0], 1))
      else Some((FromLE(bytes[1..1 + width]), 1 + width))
  }

  lemma CompactSizeReads(value: nat, rest: seq<Byte>)
    requires value < 0x1_0000_0000_0000_0000
    ensures ReadCompactSize(CompactSize(value) + rest) == Some((value, |CompactSize(value)|))
  {
    var c := CompactSize(value);
    assert (c + rest)[0] == c[0];
    if value >= 253 {
      var width := |c| - 1;
      Widths();
      LittleEndianReads(value, width);
      assert (c + rest)[1..1 + width] == LittleEndian(value, width);
    }
  }

  lemma Widths()
    ensures Pow256(2) == 0x1_0000 && Pow256(4) == 0x1_0000_0000 && Pow256(8) == 0x1_0000_0000_0000_0000
  {
    assert Pow256(2) == 256 * (256 * Pow256(0));
    assert Pow256(4) == 256 * (256 * Pow256(2));
    assert Pow256(6) == 256 * (256 * Pow256(4));
    assert Pow256(8) == 256 * (256 * Pow256(6));
  }

  // -------------------------------------------------------------------- parts

  const PREFIX: seq<Byte> := [0x03, 0x01, 0x00, 0x00, 0x41, 0x72, 0x63, 0x68, 0x69, 0x76, 0x6f, 0x6e]
  const LAST4: seq<Byte> := [0xff, 0xff, 0xff, 0xff]

  const NULL_HASH: seq<Byte> := [0, 0, 0, 0, 0, 0, 0, 0, 0, 0, 0, 0, 0, 0, 0, 0, 0, 0, 0, 0, 0, 0, 0, 0, 0, 0, 0, 0, 0, 0, 0, 0]

  const COINB2: seq<Byte> := LAST4 + [0x01] + [0, 0, 0, 0, 0, 0, 0, 0] + [0x01] + [0x51] + [0, 0, 0, 0]

  function Coinb1(scriptLen: nat): seq<Byte> {
    [0x01, 0x00, 0x00, 0x00] + [0x01] + NULL_HASH + LAST4 + CompactSize(scriptLen) + PREFIX
  }

  datatype CoinbaseError = InvalidExtranonce1 | InvalidExtranonce2Size

  /** buildValidCoinbaseParts */
  function BuildCoinbaseParts(extranonce1: string, extranonce2Size: int): Result<(string, string), CoinbaseError> {
    var n1 := Decode(TrimSpace(extranonce1));
    if n1.None? then Err(InvalidExtranonce1)
    else if extranonce2Size < 0 then Err(InvalidExtranonce2Size)
    else Ok((Encode(Coinb1(|PREFIX| + |n1.value| + extranonce2Size)), Encode(COINB2)))
  }

  // ------------------------------------------------------ transaction parser

  datatype TxIn = TxIn(hash: seq<Byte>, index: seq<Byte>, script: seq<Byte>, sequence: seq<Byte>)
  datatype TxOut = TxOut(amount: seq<Byte>, script: seq<Byte>)
  datatype Tx = Tx(version: seq<Byte>, inputs: seq<TxIn>, outputs: seq<TxOut>, lockTime: seq<Byte>)

  // A reader returns what it read and the rest.
  function ReadBytes(n: nat, bytes: seq<Byte>): Option<(seq<Byte>, seq<Byte>)> {
    if |bytes| < n then None else Some((bytes[..n], bytes[n..]))
  }

  function ReadNumber(bytes: seq<Byte>): Option<(nat, seq<Byte>)> {
    match ReadCompactSize(bytes)
    case None => None
    case Some(read) => if |bytes| < read.1 then None else Some((read.0, bytes[read.1..]))
  }

  function ReadScript(bytes: seq<Byte>): Option<(seq<Byte>, seq<Byte>)> {
    match ReadNumber(bytes) case None => None case Some(length) => ReadBytes(length.0, length.1)
  }

  function ReadInput(bytes: seq<Byte>): Option<(TxIn, seq<Byte>)> {
    var hash := ReadBytes(32, bytes);
    if hash.None? then None else
    var index := ReadBytes(4, hash.value.1);
    if index.None? then None else
    var script := ReadScript(index.value.1);
    if script.None? then None else
    var sequence := ReadBytes(4, script.value.1);
    if sequence.None? then None else
    Some((TxIn(hash.value.0, index.value.0, script.value.0, sequence.value.0), sequence.value.1))
  }

  function ReadOutput(bytes: seq<Byte>): Option<(TxOut, seq<Byte>)> {
    var amount := ReadBytes(8, bytes);
    if amount.None? then None else
    var script := ReadScript(amount.value.1);
    if script.None? then None else
    Some((TxOut(amount.value.0, script.value.0), script.value.1))
  }

  function ReadInputs(count: nat, bytes: seq<Byte>): Option<(seq<TxIn>, seq<Byte>)> {
    if count == 0 then Some(([], bytes))
    else
      var first := ReadInput(bytes);
      if first.None? then None else
      var more := ReadInputs(count - 1, first.value.1);
      if more.None? then None else Some(([first.value.0] + more.value.0, more.value.1))
  }

  function ReadOutputs(count: nat, bytes: seq<Byte>): Option<(seq<TxOut>, seq<Byte>)> {
    if count == 0 then Some(([], bytes))
    else
      var first := ReadOutput(bytes);
      if first.None? then None else
      var more := ReadOutputs(count - 1, first.value.1);
      if more.None? then None else Some(([first.value.0] + more.value.0, more.value.1))
  }

  // A transaction in Bitcoin's serialisation, with what follows it.
  function ReadTx(bytes: seq<Byte>): Option<(Tx, seq<Byte>)> {
    var version := ReadBytes(4, bytes);
    if version.None? then None else
    var inCount := ReadNumber(version.value.1);
    if inCount.None? then None else
    var inputs := ReadInputs(inCount.value.0, inCount.value.1);
    if inputs.None? then None else
    var outCount := ReadNumber(inputs.value.1);
    if outCount.None? then None else
    var outputs := ReadOutputs(outCount.value.0, outCount.value.1);
    if outputs.None? then None else
    var lockTime := ReadBytes(4, outputs.value.1);
    if lockTime.None? then None else
    Some((Tx(version.value.0, inputs.value.0, outputs.value.0, lockTime.value.0), lockTime.value.1))
  }

  lemma ReadsBytes(a: seq<Byte>, rest: seq<Byte>)
    ensures ReadBytes(|a|, a + rest) == Some((a, rest))
  {
    assert (a + rest)[..|a|] == a && (a + rest)[|a|..] == rest;
  }

  lemma ReadsNumber(value: nat, rest: seq<Byte>)
    requires value < 0x1_0000_0000_0000_0000
    ensures ReadNumber(CompactSize(value) + rest) == Some((value, rest))
  {
    hide ReadCompactSize, CompactSize;
    CompactSizeReads(value, rest);
    assert (CompactSize(value) + rest)[|CompactSize(value)|..] == rest;
  }

  lemma ReadsScript(script: seq<Byte>, rest: seq<Byte>)
    requires |script| < 0x1_0000_0000_0000_0000
    ensures ReadScript(CompactSize(|script|) + script + rest) == Some((script, rest))
  {
    hide ReadNumber, ReadBytes, CompactSize;
    ReadsNumber(|script|, script + rest);
    ReadsBytes(script, rest);
    assert CompactSize(|script|) + (script + rest) == CompactSize(|script|) + script + rest;
  }

  lemma ReadsInput(script: seq<Byte>, rest: seq<Byte>)
    requires |script| < 0x1_0000_0000_0000_0000
    ensures ReadInput(NULL_HASH + LAST4 + CompactSize(|script|) + script + LAST4 + rest) == Some((TxIn(NULL_HASH, LAST4, script, LAST4), rest))
  {
    hide ReadScript, ReadBytes, CompactSize, NULL_HASH, LAST4;
    var length := CompactSize(|script|);
    Sizes();
    var afterScript := LAST4 + rest;
    var afterIndex := length + script + afterScript;
    var afterHash := LAST4 + afterIndex;
    assert NULL_HASH + LAST4 + length + script + LAST4 + rest == NULL_HASH + afterHash;
    ReadsBytes(NULL_HASH, afterHash);
    ReadsBytes(LAST4, afterIndex);
    ReadsScript(script, afterScript);
    ReadsBytes(LAST4, rest);
  }

  lemma Sizes()
    ensures |NULL_HASH| == 32 && |LAST4| == 4 && |PREFIX| == 12
  {
  }

  lemma OutputReads(rest: seq<Byte>)
    ensures ReadOutput([0, 0, 0, 0, 0, 0, 0, 0] + [0x01] + [0x51] + rest) == Some((TxOut([0, 0, 0, 0, 0, 0, 0, 0], [0x51]), rest))
  {
    hide ReadScript, ReadBytes;
    var amount: seq<Byte> := [0, 0, 0, 0, 0, 0, 0, 0];
    var script: seq<Byte> := [0x51];
    ReadsBytes(amount, CompactSize(1) + script + rest);
    ReadsScript(script, rest);
    assert CompactSize(1) == [0x01];
    assert amount + [0x01] + [0x51] + rest == amount + (CompactSize(1) + script + rest);
  }

  // The whole transaction around a script.
  lemma ReadsCoinbase(script: seq<Byte>)
    requires |script| < 0x1_0000_0000_0000_0000
    ensures ReadTx([0x01, 0x00, 0x00, 0x00] + [0x01] + NULL_HASH + LAST4 + CompactSize(|script|) + script + COINB2) ==
      Some((Tx([0x01, 0x00, 0x00, 0x00], [TxIn(NULL_HASH, LAST4, script, LAST4)], [TxOut([0, 0, 0, 0, 0, 0, 0, 0], [0x51])], [0, 0, 0, 0]), []))
  {
    hide ReadInput, ReadOutput, ReadBytes, ReadNumber, CompactSize, NULL_HASH, LAST4;
    var version: seq<Byte> := [0x01, 0x00, 0x00, 0x00];
    var lockTime: seq<Byte> := [0, 0, 0, 0];
    var output := [0, 0, 0, 0, 0, 0, 0, 0] + [0x01] + [0x51] + lockTime;
    var afterInput := [0x01] + output;
    var length := CompactSize(|script|);
    var input := NULL_HASH + LAST4 + length + script + LAST4 + afterInput;
    var whole := version + [0x01] + NULL_HASH + LAST4 + length + script + COINB2;
    OneIs();
    assert COINB2 == LAST4 + afterInput;
    assert whole == version + ([0x01] + input);
    ReadsBytes(version, [0x01] + input);
    ReadsNumber(1, input);
    ReadsInput(script, afterInput);
    ReadsNumber(1, output);
    OutputReads(lockTime);
    assert lockTime + [] == lockTime;
    ReadsBytes(lockTime, []);
    OneInput(input);
    OneOutput(output);
  }

  lemma OneIs()
    ensures CompactSize(1) == [0x01]
  {
  }

  lemma OneInput(bytes: seq<Byte>)
    ensures ReadInput(bytes).Some? ==> ReadInputs(1, bytes) == Some(([ReadInput(bytes).value.0], ReadInput(bytes).value.1))
  {
    hide ReadInput;
    if ReadInput(bytes).Some? {
      assert ReadInputs(0, ReadInput(bytes).value.1) == Some(([], ReadInput(bytes).value.1));
      assert [ReadInput(bytes).value.0] + [] == [ReadInput(bytes).value.0];
    }
  }

  lemma OneOutput(bytes: seq<Byte>)
    ensures ReadOutput(bytes).Some? ==> ReadOutputs(1, bytes) == Some(([ReadOutput(bytes).value.0], ReadOutput(bytes).value.1))
  {
    hide ReadOutput;
    if ReadOutput(bytes).Some? {
      assert ReadOutputs(0, ReadOutput(bytes).value.1) == Some(([], ReadOutput(bytes).value.1));
      assert [ReadOutput(bytes).value.0] + [] == [ReadOutput(bytes).value.0];
    }
  }

  lemma DecodedIsTrimmed(s: string)
    requires Decode(s).Some?
    ensures Trimmed(s)
  {
    hide Decode;
    DecodedIsHex(s);
  }

  lemma {:induction false} DecodedIsHex(s: string)
    requires Decode(s).Some?
    ensures forall i :: 0 <= i < |s| ==> IsHex(s[i])
  {
    if s != "" {
      DecodedIsHex(s[2..]);
      forall i | 0 <= i < |s| ensures IsHex(s[i]) {
        assert i >= 2 ==> s[i] == s[2..][i - 2];
      }
    }
  }

  lemma TrimmedIsKept(s: string)
    requires Trimmed(s)
    ensures TrimSpace(s) == s
  {
  }

  // Put together with any extranonces of the announced sizes, the parts are one complete
  // transaction whose script is the prefix and the extranonces, under its true length.
  lemma CoinbaseIsWellFormed(extranonce1: string, extranonce2: string, size: nat)
    requires Decode(extranonce1).Some? && Decode(extranonce2).Some? && |Decode(extranonce2).value| == size
    requires 12 + |Decode(extranonce1).value| + size < 0x1_0000_0000_0000_0000
    ensures var parts := BuildCoinbaseParts(extranonce1, size);
      && parts.Ok?
      && var bytes := Decode(parts.value.0 + extranonce1 + extranonce2 + parts.value.1);
         && bytes.Some?
         && var script := PREFIX + Decode(extranonce1).value + Decode(extranonce2).value;
            ReadTx(bytes.value) ==
              Some((Tx([0x01, 0x00, 0x00, 0x00], [TxIn(NULL_HASH, LAST4, script, LAST4)], [TxOut([0, 0, 0, 0, 0, 0, 0, 0], [0x51])], [0, 0, 0, 0]), []))
  {
    hide ReadTx, CompactSize, NULL_HASH, LAST4, PREFIX, COINB2, Decode, Encode, TrimSpace, Trimmed, Coinb1;
    Sizes();
    var n1, n2 := Decode(extranonce1).value, Decode(extranonce2).value;
    var script := PREFIX + n1 + n2;
    var parts := BuildCoinbaseParts(extranonce1, size);
    PartsAre(extranonce1, size);
    Reassembled(parts.value.0, extranonce1, extranonce2, parts.value.1, Coinb1(|script|), COINB2);
    Coinb1Is(|script|);
    var head := [0x01, 0x00, 0x00, 0x00] + [0x01] + NULL_HASH + LAST4 + CompactSize(|script|);
    assert head + PREFIX + n1 + n2 + COINB2 == head + (PREFIX + n1 + n2) + COINB2;
    ReadsCoinbase(script);
  }

  lemma Coinb1Is(scriptLen: nat)
    ensures Coinb1(scriptLen) == [0x01, 0x00, 0x00, 0x00] + [0x01] + NULL_HASH + LAST4 + CompactSize(scriptLen) + PREFIX
  {
  }

  lemma PartsAre(extranonce1: string, size: nat)
    requires Decode(extranonce1).Some?
    ensures BuildCoinbaseParts(extranonce1, size) == Ok((Encode(Coinb1(|PREFIX| + |Decode(extranonce1).value| + size)), Encode(COINB2)))
  {
    hide Decode, Encode, Coinb1, PREFIX, COINB2, Trimmed, TrimSpace;
    DecodedIsTrimmed(extranonce1);
    TrimmedIsKept(extranonce1);
  }

  lemma Reassembled(first: string, extranonce1: string, extranonce2: string, last: string, coinb1: seq<Byte>, coinb2: seq<Byte>)
    requires Decode(extranonce1).Some? && Decode(extranonce2).Some? && first == Encode(coinb1) && last == Encode(coinb2)
    ensures Decode(first + extranonce1 + extranonce2 + last) == Some(coinb1 + Decode(extranonce1).value + Decode(extranonce2).value + coinb2)
  {
    hide Decode, Encode;
    DecodeEncode(coinb1);
    DecodeEncode(coinb2);
    DecodeParts(first, extranonce1);
    DecodeParts(first + extranonce1, extranonce2);
    DecodeParts(first + extranonce1 + extranonce2, last);
  }
}
