/** mining.submit in the terms of its parameters: which of them goes where, and when the answer is yes. */
module GatewaySubmit {
  import opened Base
  import opened AccessModel
  import opened AccessRuns
  import opened Target
  import opened Gateway
  import opened GatewayHashes
  import Coinbase
  import Header
  import Hex
  import Text
  import Version

  // Eight hexadecimal digits.
  predicate HexWord(s: string) {
    |s| == 8 && forall i :: 0 <= i < 8 ==> Hex.IsHex(s[i])
  }

  lemma HexWordIff(s: string)
    requires Text.TrimSpace(s) == s
    ensures Header.HexLen(s, 8) <==> HexWord(s)
  {
    hide Hex.Decode, Text.TrimSpace, Hex.Lower, Hex.IsHex;
    Hex.LowerDecodes(s);
    if Header.HexLen(s, 8) {
      Coinbase.DecodedIsHex(s);
    }
    if HexWord(s) {
      Header.HexDecodes(s);
    }
  }

  // The texts of a submission to work with this id and time, five of them at least: the job's id, an
  // extranonce2, the time, a nonce, and a worker's name that is absent or the connection's.
  predicate InOrder(params: seq<string>, worker: string, stratumId: string, clock: string)
    requires |params| >= 5
  {
    && Text.TrimSpace(params[0]) in {"", worker}
    && Text.TrimSpace(params[1]) == stratumId
    && HexWord(Text.TrimSpace(params[2]))
    && HexWord(Text.TrimSpace(params[3])) && Hex.Lower(Text.TrimSpace(params[3])) == clock
    && HexWord(Text.TrimSpace(params[4]))
  }

  // A sixth one, if there is any, is a rolled version, and rolling was agreed on.
  predicate VersionGiven(params: seq<string>) {
    |params| > 5 && Text.TrimSpace(params[5]) != ""
  }

  predicate VersionInOrder(params: seq<string>, rolling: bool) {
    VersionGiven(params) ==> rolling && HexWord(Text.TrimSpace(params[5]))
  }

  // What a header of 80 bytes says, field by field.
  predicate Says(sha256: Header.Hash, header: seq<Hex.Byte>, seed: seq<Hex.Byte>, coinbase: seq<Hex.Byte>, ntime: string, nonce: string) {
    && |header| == 80
    && var fields := Header.ReadHeader(header);
       && fields.previous == seed && fields.merkle == Header.DoubleHash(sha256, coinbase)
       && Hex.Encode(fields.time) == Hex.Lower(ntime) && Hex.Encode(fields.nonce) == Hex.Lower(nonce)
       && Hex.Encode(fields.bits) == "1d00ffff"
  }

  predicate SaysVersion(header: seq<Hex.Byte>, version: string) {
    |header| == 80 && Hex.Encode(Header.ReadHeader(header).version) == Hex.Lower(version)
  }

  // One complete transaction, of version 1, without a lock time: a single input that spends nothing,
  // whose script holds height 1, the name of the program and the two extranonces, and a single output
  // of no value that anyone may spend.
  predicate HoldsNonces(coinbase: seq<Hex.Byte>, extranonce1: string, extranonce2: string) {
    match Coinbase.ReadTx(coinbase)
    case None => false
    case Some(read) =>
      && read.1 == [] && read.0.version == [1, 0, 0, 0] && read.0.lockTime == [0, 0, 0, 0]
      && |read.0.inputs| == 1 && SpendsNothing(read.0.inputs[0]) && EndsWith(read.0.inputs[0].script, extranonce1, extranonce2)
      && read.0.outputs == [Coinbase.TxOut([0, 0, 0, 0, 0, 0, 0, 0], [0x51])]
  }

  predicate SpendsNothing(input: Coinbase.TxIn) {
    && |input.hash| == 32 && (forall i :: 0 <= i < 32 ==> input.hash[i] == 0)
    && input.index == [255, 255, 255, 255] && input.sequence == [255, 255, 255, 255]
  }

  predicate EndsWith(script: seq<Hex.Byte>, extranonce1: string, extranonce2: string) {
    && |script| == 20 && script[..4] == [3, 1, 0, 0] && Named(script[4..12], "Archivon")
    && Hex.Encode(script[12..16]) == Hex.Lower(extranonce1) && Hex.Encode(script[16..]) == Hex.Lower(extranonce2)
  }

  predicate Named(bytes: seq<Hex.Byte>, name: string) {
    |bytes| == |name| && forall i :: 0 <= i < |name| ==> bytes[i] == name[i] as int
  }

  // ------------------------------------------------------------------ the pieces

  lemma VersionIff(c: Connection, params: seq<string>)
    requires c.work.version == Header.VERSION
    ensures var v := VersionOf(c, Parameters(params));
      && (v.Ok? <==> VersionInOrder(params, c.rolling))
      && (v.Ok? ==> Header.HexLen(v.value, 8) && Text.TrimSpace(v.value) == v.value)
      && (v.Ok? && !VersionGiven(params) ==> v.value == "20000000")
  {
    hide Text.TrimSpace, Hex.Lower, Hex.Decode, Version.Text8, Version.Word, Version.Roll, Version.MaskInForce;
    Header.BitsAreHex();
    VersionIsTrimmed();
    if VersionGiven(params) {
      var text := Text.TrimSpace(params[5]);
      assert Parameters(params).version == text;
      NormalOf(text);
      NormalOf(Header.VERSION);
      HexWordIff(text);
      Header.LowerTwice(text);
      if c.rolling && HexWord(text) {
        BaseVersionIs();
        Version.NormalHasLength(c.work.version, 8);
        Version.NormalHasLength(text, 8);
        var rolled := Version.Roll(Version.Word(Version.Normal(c.work.version)), Version.Word(Version.Normal(text)),
                                   Version.Word(Version.MaskInForce(c.mask)));
        Version.RolledVersionPasses(rolled);
        RolledIsTrimmed(rolled);
      }
    }
  }

  lemma VersionIsTrimmed()
    ensures Text.TrimSpace(Header.VERSION) == Header.VERSION
  {
    hide Text.Trimmed, Text.TrimSpace, Hex.Decode;
    Header.HexDecodes(Header.VERSION);
    Coinbase.DecodedIsTrimmed(Header.VERSION);
    Coinbase.TrimmedIsKept(Header.VERSION);
  }

  lemma RolledIsTrimmed(w: bv32)
    ensures Text.TrimSpace(Version.Text8(w)) == Version.Text8(w)
  {
    hide Text.Trimmed, Text.TrimSpace, Hex.Decode, Version.Text8, Hex.IsHex;
    Version.DigitsOfText(w);
    Header.HexDecodes(Version.Text8(w));
    Coinbase.DecodedIsTrimmed(Version.Text8(w));
    Coinbase.TrimmedIsKept(Version.Text8(w));
  }

  lemma BaseVersionIs()
    ensures Header.HexLen(Version.Normal(Header.VERSION), 8)
  {
    hide Text.TrimSpace, Hex.Lower, Hex.Decode;
    Header.BitsAreHex();
    Header.LowerTwice(Text.TrimSpace(Header.VERSION));
    Version.LowerIsTrimmed(Text.TrimSpace(Header.VERSION));
  }

  lemma NormalOf(text: string)
    ensures Text.TrimSpace(text) == text ==> Version.Normal(text) == Hex.Lower(text) && Text.TrimSpace(Hex.Lower(text)) == Hex.Lower(text)
  {
    hide Hex.Lower, Text.Trimmed;
    if Text.TrimSpace(text) == text {
      Version.LowerIsTrimmed(text);
    }
  }

  // The texts in order, in the words of the check.
  lemma TextsIff(c: Connection, params: seq<string>, version: string)
    requires |params| >= 5 && Header.HexLen(version, 8)
    ensures var s := Parameters(params);
      (Header.TextsOk(c.work, s.stratumJob, s.extranonce2, s.ntime, s.nonce, version) && (s.worker == "" || s.worker == c.name))
      <==> InOrder(params, c.name, c.work.stratumId, c.work.ntime)
  {
    hide Text.TrimSpace, Hex.Lower, Header.HexLen, HexWord;
    var s := Parameters(params);
    HexWordIff(s.extranonce2);
    HexWordIff(s.ntime);
    HexWordIff(s.nonce);
  }

  lemma HeaderSays(sha256: Header.Hash, seedOf: Seeds, c: Connection, params: seq<string>)
    requires Header.Is32(sha256) && |seedOf(c.job)| == 32 && |params| >= 5 && VersionOf(c, Parameters(params)).Ok?
    requires InOrder(params, c.name, c.work.stratumId, c.work.ntime)
    requires var version := VersionOf(c, Parameters(params)).value; Header.HexLen(version, 8) && Text.TrimSpace(version) == version
    requires Hex.Decode(c.work.extranonce1).Some? && |Hex.Decode(c.work.extranonce1).value| == 4
    ensures var header := HeaderOf(sha256, seedOf, c, Parameters(params));
      var coinbase := ChoiceOf(c, Parameters(params)).CoinbaseTx();
      && Says(sha256, header, seedOf(c.job), coinbase, Text.TrimSpace(params[3]), Text.TrimSpace(params[4]))
      && SaysVersion(header, VersionOf(c, Parameters(params)).value)
      && HoldsNonces(coinbase, c.work.extranonce1, Text.TrimSpace(params[2]))
  {
    hide Text.TrimSpace, Hex.Lower, Hex.Encode, Hex.Decode, Hex.Reverse, Hex.SwapWords, Header.DoubleHash, Coinbase.Coinb1, Coinbase.COINB2,
         Coinbase.PREFIX, HexWord, Header.HexLen, VersionOf, Header.ReadHeader, HoldsNonces, Choice.CoinbaseTx, Header.Is32;
    var s, choice := Parameters(params), ChoiceOf(c, Parameters(params));
    HexWordIff(s.extranonce2);
    HexWordIff(s.ntime);
    HexWordIff(s.nonce);
    RawIs(s.extranonce2);
    RawIs(s.ntime);
    RawIs(s.nonce);
    RawIs(VersionOf(c, s).value);
    Header.BitsAreHex();
    RawIs(Header.NBITS);
    BitsText();
    assert HeaderOf(sha256, seedOf, c, s) == HeaderFor(sha256, seedOf(c.job), choice) by { IsChosen(sha256, seedOf, c, s); }
    FieldsOf(sha256, seedOf(c.job), choice);
    NoncesHeld(choice, c.work.extranonce1, s.extranonce2);
  }

  lemma IsChosen(sha256: Header.Hash, seedOf: Seeds, c: Connection, s: Submission)
    requires VersionOf(c, s).Ok? && |seedOf(c.job)| == 32
    ensures HeaderOf(sha256, seedOf, c, s) == HeaderFor(sha256, seedOf(c.job), ChoiceOf(c, s))
  {
    hide VersionOf, Hex.Decode, Text.TrimSpace, Hex.Lower, Hex.Reverse, Hex.SwapWords, Header.DoubleHash, Coinbase.Coinb1, Coinbase.COINB2,
         Coinbase.PREFIX, Header.Raw;
  }

  lemma BitsText()
    ensures Hex.Lower(Header.NBITS) == "1d00ffff" && Text.TrimSpace(Header.NBITS) == Header.NBITS
  {
    hide Text.Trimmed;
    assert Text.Trimmed(Header.NBITS) by { Header.HexDecodes(Header.NBITS); Coinbase.DecodedIsTrimmed(Header.NBITS); }
  }

  lemma RawIs(text: string)
    requires Header.HexLen(text, 8)
    ensures |Header.Raw(text)| == 4 && Hex.Encode(Header.Raw(text)) == Hex.Lower(Text.TrimSpace(text))
  {
    hide Text.TrimSpace, Hex.Lower, Hex.Encode, Hex.Decode;
    Header.EncodeOfPlain(text);
  }

  lemma FieldsOf(sha256: Header.Hash, seed: seq<Hex.Byte>, choice: Choice)
    requires Header.Is32(sha256) && |seed| == 32 && choice.Sized()
    ensures var header := HeaderFor(sha256, seed, choice);
      && |header| == 80
      && Header.ReadHeader(header) == Header.Fields(choice.version, seed, Header.DoubleHash(sha256, choice.CoinbaseTx()), choice.ntime,
                                                    Header.Raw(Header.NBITS), choice.nonce)
  {
    hide Hex.Reverse, Hex.SwapWords, Header.DoubleHash, Choice.CoinbaseTx, Hex.Decode, Text.TrimSpace, Hex.Lower;
    Header.BitsAreHex();
    var bits := Header.Raw(Header.NBITS);
    var merkle := Header.DoubleHash(sha256, choice.CoinbaseTx());
    Header.DoubleHashSize(sha256, choice.CoinbaseTx());
    Header.PiecesReadBack(Hex.Reverse(choice.version), Hex.SwapWords(seed), merkle, Hex.Reverse(choice.ntime), Hex.Reverse(bits), Hex.Reverse(choice.nonce));
    Hex.ReverseTwice(choice.version);
    Hex.SwapTwice(seed);
    Hex.ReverseTwice(choice.ntime);
    Hex.ReverseTwice(bits);
    Hex.ReverseTwice(choice.nonce);
  }

  lemma NoncesHeld(choice: Choice, extranonce1: string, extranonce2: string)
    requires choice.Sized()
    requires Hex.Decode(extranonce1) == Some(choice.extranonce1) && Hex.Encode(choice.extranonce2) == Hex.Lower(extranonce2)
    ensures HoldsNonces(choice.CoinbaseTx(), extranonce1, extranonce2)
  {
    hide Hex.Lower, Hex.Encode, Hex.Decode, Coinbase.ReadTx;
    Hex.EncodeDecode(extranonce1);
    var script := Coinbase.PREFIX + choice.extranonce1 + choice.extranonce2;
    PrefixIs();
    assert script[..12] == Coinbase.PREFIX;
    assert script[..4] == Coinbase.PREFIX[..4] && script[4..12] == Coinbase.PREFIX[4..];
    assert script[12..16] == choice.extranonce1 && script[16..] == choice.extranonce2;
    CoinbaseReads(choice);
  }

  lemma PrefixIs()
    ensures |Coinbase.PREFIX| == 12 && Coinbase.PREFIX[..4] == [3, 1, 0, 0] && Named(Coinbase.PREFIX[4..], "Archivon")
  {
    var name := Coinbase.PREFIX[4..];
    assert name[0] == 'A' as int && name[1] == 'r' as int && name[2] == 'c' as int && name[3] == 'h' as int;
    assert name[4] == 'i' as int && name[5] == 'v' as int && name[6] == 'o' as int && name[7] == 'n' as int;
  }

  lemma CoinbaseReads(choice: Choice)
    requires choice.Sized()
    ensures Coinbase.ReadTx(choice.CoinbaseTx()) ==
      Some((Coinbase.Tx([1, 0, 0, 0],
                        [Coinbase.TxIn(Coinbase.NULL_HASH, Coinbase.LAST4, Coinbase.PREFIX + choice.extranonce1 + choice.extranonce2, Coinbase.LAST4)],
                        [Coinbase.TxOut([0, 0, 0, 0, 0, 0, 0, 0], [0x51])], [0, 0, 0, 0]), []))
  {
    hide Coinbase.ReadTx, Coinbase.CompactSize, Coinbase.NULL_HASH, Coinbase.LAST4, Coinbase.PREFIX, Coinbase.COINB2;
    Coinbase.Sizes();
    var script := Coinbase.PREFIX + choice.extranonce1 + choice.extranonce2;
    Coinbase.Coinb1Is(|script|);
    var head := [0x01, 0x00, 0x00, 0x00] + [0x01] + Coinbase.NULL_HASH + Coinbase.LAST4 + Coinbase.CompactSize(|script|);
    assert head + Coinbase.PREFIX + choice.extranonce1 + choice.extranonce2 + Coinbase.COINB2
        == head + (Coinbase.PREFIX + choice.extranonce1 + choice.extranonce2) + Coinbase.COINB2;
    Coinbase.ReadsCoinbase(script);
  }

  // ------------------------------------------------------------------- the answer

  /** For work the gateway built, a share is valid exactly if its parameters are in order, and the
      double hash of its header is at most the target. That header says the time of parameter 3, the
      nonce of parameter 4 and the version of parameter 5 or of the work, and the script of its
      coinbase ends with extranonce1 and parameter 2. */
  lemma SubmitIsValidIff(sha256: Header.Hash, seedOf: Seeds, c: Connection, params: seq<string>, plain: string, clock: string,
                         extranonce1: string, difficulty: real)
    requires Header.Is32(sha256) && BuiltFrom(c, seedOf(c.job), plain, clock, extranonce1, difficulty) && |params| >= 5
    ensures TargetForDifficulty(difficulty).Ok?
    ensures var header := HeaderOf(sha256, seedOf, c, Parameters(params));
      var coinbase := ChoiceOf(c, Parameters(params)).CoinbaseTx();
      var asked := InOrder(params, c.name, c.work.stratumId, clock) && VersionInOrder(params, c.rolling);
      && (ValidShare(sha256, c, Parameters(params)) <==>
            asked && Hex.FromLE(Header.DoubleHash(sha256, header)) <= TargetForDifficulty(difficulty).value)
      && (asked ==>
            && Says(sha256, header, seedOf(c.job), coinbase, Text.TrimSpace(params[3]), Text.TrimSpace(params[4]))
            && SaysVersion(header, if VersionGiven(params) then VersionOf(c, Parameters(params)).value else "20000000")
            && HoldsNonces(coinbase, extranonce1, Text.TrimSpace(params[2])))
  {
    hide Text.TrimSpace, Hex.Lower, Hex.Encode, Hex.Decode, Header.DoubleHash, HexWord, Header.HexLen, VersionOf, HoldsNonces, Choice.CoinbaseTx,
         Header.Is32, Header.BuildWork, Says, SaysVersion, InOrder, VersionInOrder, VersionGiven, Header.VerifyShare, TargetForDifficulty,
         Header.SubmittedHeader, Header.TextsOk, Hex.FromLE, DifficultyOk, ChoiceOf, Parameters, HeaderOf;
    WorkIs(c, seedOf(c.job), plain, clock, extranonce1, difficulty);
    TargetInRange(difficulty);
    VersionIff(c, params);
    var s := Parameters(params);
    if VersionOf(c, s).Ok? {
      var version := VersionOf(c, s).value;
      TextsIff(c, params, version);
      ValidIff(sha256, seedOf, c, s, plain, clock, extranonce1, difficulty);
      if InOrder(params, c.name, c.work.stratumId, clock) {
        HeaderSays(sha256, seedOf, c, params);
      }
    } else {
      RefusedIsInvalid(sha256, c, s);
    }
  }

  lemma WorkIs(c: Connection, seed: seq<Hex.Byte>, plain: string, clock: string, extranonce1: string, difficulty: real)
    requires BuiltFrom(c, seed, plain, clock, extranonce1, difficulty)
    ensures c.work.ntime == clock && c.work.extranonce1 == extranonce1 && c.work.version == Header.VERSION
    ensures c.work.workTH == difficulty * 0.004294967296
    ensures |seed| == 32 && DifficultyOk(difficulty) && Hex.Decode(extranonce1).Some? && |Hex.Decode(extranonce1).value| == 4
  {
    hide Hex.Decode, Hex.Encode, TargetForDifficulty, Hex.HexFixed, Header.WithoutDashes;
  }

  lemma RefusedIsInvalid(sha256: Header.Hash, c: Connection, s: Submission)
    requires VersionOf(c, s).Err?
    ensures !ValidShare(sha256, c, s)
  {
    hide VersionOf;
  }

  lemma ValidIff(sha256: Header.Hash, seedOf: Seeds, c: Connection, s: Submission, plain: string, clock: string, extranonce1: string, difficulty: real)
    requires Header.Is32(sha256) && BuiltFrom(c, seedOf(c.job), plain, clock, extranonce1, difficulty) && VersionOf(c, s).Ok?
    requires c.work.extranonce1 == extranonce1
    ensures TargetForDifficulty(difficulty).Ok?
    ensures ValidShare(sha256, c, s) <==>
      && Header.TextsOk(c.work, s.stratumJob, s.extranonce2, s.ntime, s.nonce, VersionOf(c, s).value) && (s.worker == "" || s.worker == c.name)
      && Hex.FromLE(Header.DoubleHash(sha256, HeaderOf(sha256, seedOf, c, s))) <= TargetForDifficulty(difficulty).value
  {
    hide Header.SubmittedHeader, Header.VerifyShare, Header.TextsOk, Header.DoubleHash, Hex.FromLE, TargetForDifficulty, VersionOf, Hex.Decode,
         Header.Is32, Hex.Encode, DifficultyOk, Header.BuildWork;
    Header.AcceptedIff(sha256, plain, seedOf(c.job), clock, extranonce1, difficulty, s.stratumJob, s.extranonce2, s.ntime, s.nonce,
                       VersionOf(c, s).value);
  }

  // Fewer than five parameters are never enough.
  lemma TooFewAreRefused(sha256: Header.Hash, c: Connection, params: seq<string>)
    requires |params| < 5
    ensures !ValidShare(sha256, c, Parameters(params))
  {
    hide VersionOf, Header.VerifyShare;
    NothingIsNoNonce();
    var s := Parameters(params);
    assert s.nonce == "";
    if VersionOf(c, s).Ok? {
      NoNonceIsRefused(sha256, c.work, s, VersionOf(c, s).value);
    }
  }

  lemma NothingIsNoNonce()
    ensures !Header.HexLen("", 8)
  {
  }

  lemma NoNonceIsRefused(sha256: Header.Hash, work: Header.Work, s: Submission, version: string)
    requires !Header.HexLen(s.nonce, 8)
    ensures Header.VerifyShare(sha256, work, s.stratumJob, s.extranonce2, s.ntime, s.nonce, version).Rejected?
  {
    hide Header.HexLen, Hex.Decode, Header.HeaderBytes, Header.DoubleHash, Hex.FromBE, Hex.Lower, Hex.HexNumber, Text.TrimSpace;
  }

  // What is stored: under the connection's tenant, job and worker, with the credit of the difficulty.
  lemma StoredUnderConnection(sha256: Header.Hash, seedOf: Seeds, c: Connection, params: seq<string>, plain: string, clock: string,
                              extranonce1: string, difficulty: real)
    requires BuiltFrom(c, seedOf(c.job), plain, clock, extranonce1, difficulty)
    ensures EventOf(sha256, c, Parameters(params)) ==
      if VersionInOrder(params, c.rolling)
      then Submit(c.tenant, c.job, c.worker, difficulty * 0.004294967296, ValidShare(sha256, c, Parameters(params)))
      else SubmitRefused(c.tenant, c.job, c.worker)
  {
    hide Text.TrimSpace, Hex.Lower, Hex.Decode, VersionOf, Header.BuildWork, VersionInOrder, Header.VerifyShare, Parameters, DifficultyOk;
    WorkIs(c, seedOf(c.job), plain, clock, extranonce1, difficulty);
    VersionIff(c, params);
  }

  // A word in lower case is taken as it stands.
  lemma LowerWord(s: string)
    requires HexWord(s) && forall i :: 0 <= i < 8 ==> !('A' <= s[i] <= 'F')
    ensures Text.TrimSpace(s) == s && Hex.Lower(s) == s && Hex.Decode(s).Some? && |Hex.Decode(s).value| == 4
  {
    hide Hex.Decode, Text.TrimSpace, Text.Trimmed;
    Header.HexDecodes(s);
    Coinbase.DecodedIsTrimmed(s);
    Coinbase.TrimmedIsKept(s);
    assert Hex.Lower(s) == s;
  }
}
