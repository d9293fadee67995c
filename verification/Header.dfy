/** Block headers from submitted shares, and the check of a share against its target. */
module Header {
  import opened Base
  import opened Hex
  import opened Text
  import opened Coinbase
  import opened Target

  // SHA-256 as a function of bytes; all that matters here is the length of its result.
  type Hash = seq<Byte> -> seq<Byte>

  ghost predicate Is32(sha256: Hash) {
    forall x :: |sha256(x)| == 32
  }

  // sha256d
  function DoubleHash(sha256: Hash, data: seq<Byte>): seq<Byte> {
    sha256(sha256(data))
  }

  // hexLen
  predicate HexLen(value: string, length: nat) {
    var text := Lower(TrimSpace(value));
    |text| == length && Decode(text).Some?
  }

  function Plain(value: string): Option<seq<Byte>> {
    Decode(Lower(TrimSpace(value)))
  }

  /** reverseHexBytes */
  method ReverseHexBytes(value: string) returns (r: Option<seq<Byte>>)
    ensures r == match Plain(value) case None => None case Some(raw) => Some(Reverse(raw))
  {
    var raw := Decode(Lower(TrimSpace(value)));
    if raw.None? {
      return None;
    }
    var reversed := ReverseBytes(raw.value);
    return Some(reversed);
  }

  /** reverseHexWords */
  method ReverseHexWords(value: string) returns (r: Option<seq<Byte>>)
    ensures r == match Plain(value) case None => None case Some(raw) => if |raw| % 4 != 0 then None else Some(SwapWords(raw))
  {
    var raw := Decode(Lower(TrimSpace(value)));
    if raw.None? || |raw.value| % 4 != 0 {
      return None;
    }
    var swapped := ReverseWords(raw.value);
    return Some(swapped);
  }

  function HeaderBytes(version: string, prevhash: string, merkle: seq<Byte>, ntime: string, nbits: string, nonce: string): Option<seq<Byte>> {
    var v, p, t, b, n := Plain(version), Plain(prevhash), Plain(ntime), Plain(nbits), Plain(nonce);
    if v.None? || p.None? || |p.value| % 4 != 0 || t.None? || b.None? || n.None? then None
    else
      var header := Reverse(v.value) + SwapWords(p.value) + merkle + Reverse(t.value) + Reverse(b.value) + Reverse(n.value);
      if |header| != 80 then None else Some(header)
  }

  /** stratumHeaderBytes */
  method StratumHeaderBytes(versionHex: string, prevhash: string, merkle: seq<Byte>, ntime: string, nbits: string, nonce: string)
    returns (r: Option<seq<Byte>>)
    ensures r == HeaderBytes(versionHex, prevhash, merkle, ntime, nbits, nonce)
  {
    hide Plain, Reverse, SwapWords;
    var version := ReverseHexBytes(versionHex);
    if version.None? { return None; }
    var previous := ReverseHexWords(prevhash);
    if previous.None? { return None; }
    var timeBytes := ReverseHexBytes(ntime);
    if timeBytes.None? { return None; }
    var bits := ReverseHexBytes(nbits);
    if bits.None? { return None; }
    var nonceBytes := ReverseHexBytes(nonce);
    if nonceBytes.None? { return None; }
    var header := version.value + previous.value + merkle + timeBytes.value + bits.value + nonceBytes.value;
    if |header| != 80 {
      return None;
    }
    return Some(header);
  }

  // ------------------------------------------------------- reading a header back

  datatype Fields = Fields(version: seq<Byte>, previous: seq<Byte>, merkle: seq<Byte>, time: seq<Byte>, bits: seq<Byte>, nonce: seq<Byte>)

  // The six fields of an 80-byte header, in the byte order of the Stratum texts.
  function ReadHeader(header: seq<Byte>): Fields
    requires |header| == 80
  {
    Fields(Reverse(header[..4]), SwapWords(header[4..36]), header[36..68], Reverse(header[68..72]), Reverse(header[72..76]), Reverse(header[76..]))
  }

  // Texts of the right lengths always make a header, and all six fields can be read back from it.
  lemma HeaderReadsBack(version: string, prevhash: string, merkle: seq<Byte>, ntime: string, nbits: string, nonce: string)
    requires HexLen(version, 8) && HexLen(prevhash, 64) && |merkle| == 32 && HexLen(ntime, 8) && HexLen(nbits, 8) && HexLen(nonce, 8)
    ensures var h := HeaderBytes(version, prevhash, merkle, ntime, nbits, nonce);
      && h.Some? && |h.value| == 80
      && ReadHeader(h.value) == Fields(Plain(version).value, Plain(prevhash).value, merkle, Plain(ntime).value, Plain(nbits).value, Plain(nonce).value)
      && Encode(ReadHeader(h.value).version) == Lower(TrimSpace(version))
      && Encode(ReadHeader(h.value).nonce) == Lower(TrimSpace(nonce))
  {
    hide Decode, TrimSpace, Lower, Reverse, SwapWords, Encode;
    var v, p, t, b, n := Plain(version).value, Plain(prevhash).value, Plain(ntime).value, Plain(nbits).value, Plain(nonce).value;
    assert |v| == 4 && |p| == 32 && |t| == 4 && |b| == 4 && |n| == 4;
    PiecesReadBack(Reverse(v), SwapWords(p), merkle, Reverse(t), Reverse(b), Reverse(n));
    ReverseTwice(v);
    SwapTwice(p);
    ReverseTwice(t);
    ReverseTwice(b);
    ReverseTwice(n);
    EncodeOfPlain(version);
    EncodeOfPlain(nonce);
  }

  lemma EncodeOfPlain(value: string)
    requires Plain(value).Some?
    ensures Encode(Plain(value).value) == Lower(TrimSpace(value))
  {
    hide Encode, Decode, TrimSpace;
    var text := Lower(TrimSpace(value));
    EncodeDecode(text);
    LowerTwice(TrimSpace(value));
  }

  lemma LowerTwice(s: string)
    ensures Lower(Lower(s)) == Lower(s)
  {
    forall i | 0 <= i < |s| ensures Lower(Lower(s))[i] == Lower(s)[i] {
      var c := s[i];
      if 'A' <= c <= 'Z' {
        assert LowerChar(c) as int == c as int - 'A' as int + 'a' as int;
      }
    }
  }

  lemma PiecesReadBack(v: seq<Byte>, p: seq<Byte>, m: seq<Byte>, t: seq<Byte>, b: seq<Byte>, n: seq<Byte>)
    requires |v| == 4 && |p| == 32 && |m| == 32 && |t| == 4 && |b| == 4 && |n| == 4
    ensures var h := v + p + m + t + b + n;
      |h| == 80 && h[..4] == v && h[4..36] == p && h[36..68] == m && h[68..72] == t && h[72..76] == b && h[76..] == n
  {
  }

  // ------------------------------------------------------------------- the work

  datatype Work = Work(stratumId: string, extranonce1: string, coinb1: string, coinb2: string, prevhash: string,
                       version: string, nbits: string, ntime: string, targetHex: string, workTH: real)

  const VERSION := "20000000"
  const NBITS := "1d00ffff"

  function WithoutDashes(id: string): string {
    if id == "" then "" else (if id[0] == '-' then "" else [id[0]]) + WithoutDashes(id[1..])
  }

  datatype WorkError = NoTarget(target: TargetError) | NoCoinbase(coinbase: CoinbaseError)

  // buildWork. `seed` is the hash of job and start time; `ntime` the clock in hexadecimal form.
  function BuildWork(jobId: string, seed: seq<Byte>, ntime: string, extranonce1: string, difficulty: real, extranonce2Size: int): Result<Work, WorkError> {
    var target := TargetForDifficulty(difficulty);
    if target.Err? then Err(NoTarget(target.error))
    else
      var plain := WithoutDashes(jobId);
      var parts := BuildCoinbaseParts(extranonce1, extranonce2Size);
      if parts.Err? then Err(NoCoinbase(parts.error))
      else
        Ok(Work(if |plain| > 24 then plain[..24] else plain, extranonce1, parts.value.0, parts.value.1, Encode(seed),
                VERSION, NBITS, ntime, HexFixed(target.value, 64), CreditedTH(difficulty)))
  }

  // ------------------------------------------------------------------ the check

  datatype Reason =
    | JobIdMismatch | InvalidVersion | InvalidExtranonce2 | InvalidNtime | InvalidNonce | InvalidCoinbase | InvalidHeader
    | InvalidTarget | HashAboveTarget

  datatype Verdict = Accepted(hashHex: string) | Rejected(reason: Reason, hashHex: string)

  // verifyShare
  function VerifyShare(sha256: Hash, work: Work, stratumJobId: string, extranonce2: string, ntime: string, nonce: string, versionHex: string): Verdict {
    if stratumJobId != work.stratumId then Rejected(JobIdMismatch, "")
    else if !HexLen(versionHex, 8) then Rejected(InvalidVersion, "")
    else if !HexLen(extranonce2, 8) then Rejected(InvalidExtranonce2, "")
    else if !HexLen(ntime, 8) || Lower(ntime) != work.ntime then Rejected(InvalidNtime, "")
    else if !HexLen(nonce, 8) then Rejected(InvalidNonce, "")
    else
      var coinbase := Decode(work.coinb1 + work.extranonce1 + Lower(extranonce2) + work.coinb2);
      if coinbase.None? then Rejected(InvalidCoinbase, "")
      else
        var merkle := DoubleHash(sha256, coinbase.value);
        var header := HeaderBytes(versionHex, work.prevhash, merkle, ntime, work.nbits, nonce);
        if header.None? then Rejected(InvalidHeader, "")
        else
          var blockHash := Reverse(DoubleHash(sha256, header.value));
          var target := HexNumber(work.targetHex);
          if target.None? then Rejected(InvalidTarget, Encode(blockHash))
          else if FromBE(blockHash) <= target.value then Accepted(Encode(blockHash))
          else Rejected(HashAboveTarget, Encode(blockHash))
  }

  // Hexadecimal text of the right length decodes as it stands exactly if no space surrounds it.
  lemma DecodesIffTrimmed(s: string, length: nat)
    requires HexLen(s, length)
    ensures Decode(Lower(s)).Some? <==> TrimSpace(s) == s
  {
    hide Decode, TrimSpace, Lower, Trimmed;
    LowerDecodes(s);
    LowerDecodes(TrimSpace(s));
    if Decode(s).Some? {
      DecodedIsTrimmed(s);
      TrimmedIsKept(s);
    }
  }

  function Raw(value: string): seq<Byte> {
    Plain(value).GetOr([])
  }

  // The header of a submission.
  function SubmittedHeader(sha256: Hash, seed: seq<Byte>, extranonce1: string, extranonce2: string, ntime: string, nonce: string,
                           versionHex: string): seq<Byte>
    requires |seed| % 4 == 0
  {
    var n1 := Decode(extranonce1).GetOr([]);
    var coinbase := Coinb1(|PREFIX| + |n1| + 4) + n1 + Raw(extranonce2) + COINB2;
    Reverse(Raw(versionHex)) + SwapWords(seed) + DoubleHash(sha256, coinbase)
      + Reverse(Raw(ntime)) + Reverse(Raw(NBITS)) + Reverse(Raw(nonce))
  }

  // What verifyShare asks of the texts of a submission.
  predicate TextsOk(work: Work, stratumJobId: string, extranonce2: string, ntime: string, nonce: string, versionHex: string) {
    && stratumJobId == work.stratumId && HexLen(versionHex, 8) && HexLen(extranonce2, 8) && TrimSpace(extranonce2) == extranonce2
    && HexLen(ntime, 8) && Lower(ntime) == work.ntime && HexLen(nonce, 8)
  }

  // For work the gateway built, a share is accepted exactly if its texts are in order and the
  // little-endian value of the double hash of its header is at most the target of the difficulty.
  lemma AcceptedIff(sha256: Hash, jobId: string, seed: seq<Byte>, clock: string, extranonce1: string, difficulty: real,
                    stratumJobId: string, extranonce2: string, ntime: string, nonce: string, versionHex: string)
    requires Is32(sha256) && |seed| == 32 && DifficultyOk(difficulty)
    requires Decode(extranonce1).Some?
    ensures BuildWork(jobId, seed, clock, extranonce1, difficulty, 4).Ok? && TargetForDifficulty(difficulty).Ok?
    ensures var work := BuildWork(jobId, seed, clock, extranonce1, difficulty, 4).value;
      var verdict := VerifyShare(sha256, work, stratumJobId, extranonce2, ntime, nonce, versionHex);
      var header := SubmittedHeader(sha256, seed, extranonce1, extranonce2, ntime, nonce, versionHex);
      if !TextsOk(work, stratumJobId, extranonce2, ntime, nonce, versionHex) then verdict.Rejected?
      else
        && |header| == 80 && verdict.hashHex == Encode(Reverse(DoubleHash(sha256, header)))
        && (verdict.Accepted? <==> FromLE(DoubleHash(sha256, header)) <= TargetForDifficulty(difficulty).value)
        && (verdict.Rejected? ==> verdict.reason == HashAboveTarget)
  {
    hide Decode, Encode, TrimSpace, Lower, Trimmed, TargetForDifficulty, HexNumber, HexFixed, Coinb1, PREFIX, COINB2, HeaderBytes,
         Reverse, SwapWords, FromLE, FromBE, WithoutDashes, DoubleHash, BuildCoinbaseParts, VerifyShare, HexLen;
    TargetInRange(difficulty);
    PartsAre(extranonce1, 4);
    var work := BuildWork(jobId, seed, clock, extranonce1, difficulty, 4).value;
    TargetTextReads(TargetForDifficulty(difficulty).value);
    if HexLen(extranonce2, 8) {
      CoinbaseDecodesIff(work, extranonce2);
    }
    if !TextsOk(work, stratumJobId, extranonce2, ntime, nonce, versionHex) {
      RefusedTexts(sha256, work, stratumJobId, extranonce2, ntime, nonce, versionHex);
    } else {
      var header := SubmittedHeader(sha256, seed, extranonce1, extranonce2, ntime, nonce, versionHex);
      HeaderOfSubmission(sha256, work, seed, extranonce1, extranonce2, ntime, nonce, versionHex);
      JudgedHeader(sha256, work, header, extranonce2, ntime, nonce, versionHex);
      ReversedIsBE(DoubleHash(sha256, header));
    }
  }

  // Texts out of order are refused before or at the coinbase.
  lemma RefusedTexts(sha256: Hash, work: Work, stratumJobId: string, extranonce2: string, ntime: string, nonce: string, versionHex: string)
    requires !TextsOk(work, stratumJobId, extranonce2, ntime, nonce, versionHex)
    requires HexLen(extranonce2, 8) ==>
      (Decode(work.coinb1 + work.extranonce1 + Lower(extranonce2) + work.coinb2).Some? <==> TrimSpace(extranonce2) == extranonce2)
    ensures VerifyShare(sha256, work, stratumJobId, extranonce2, ntime, nonce, versionHex).Rejected?
  {
    hide Decode, Encode, TrimSpace, Lower, HexNumber, HeaderBytes, DoubleHash, FromBE, Reverse, HexLen;
  }

  // A header that is made is judged by its hash alone.
  lemma JudgedHeader(sha256: Hash, work: Work, header: seq<Byte>, extranonce2: string, ntime: string, nonce: string, versionHex: string)
    requires TextsOk(work, work.stratumId, extranonce2, ntime, nonce, versionHex)
    requires Decode(work.coinb1 + work.extranonce1 + Lower(extranonce2) + work.coinb2).Some?
    requires var coinbase := Decode(work.coinb1 + work.extranonce1 + Lower(extranonce2) + work.coinb2).value;
      HeaderBytes(versionHex, work.prevhash, DoubleHash(sha256, coinbase), ntime, work.nbits, nonce) == Some(header)
    requires HexNumber(work.targetHex).Some?
    ensures var blockHash := Reverse(DoubleHash(sha256, header));
      VerifyShare(sha256, work, work.stratumId, extranonce2, ntime, nonce, versionHex) ==
        if FromBE(blockHash) <= HexNumber(work.targetHex).value then Accepted(Encode(blockHash)) else Rejected(HashAboveTarget, Encode(blockHash))
  {
    hide Decode, Encode, TrimSpace, Lower, HexNumber, HeaderBytes, DoubleHash, FromBE, Reverse, HexLen;
  }

  lemma HeaderOfSubmission(sha256: Hash, work: Work, seed: seq<Byte>, extranonce1: string, extranonce2: string, ntime: string, nonce: string,
                           versionHex: string)
    requires Is32(sha256) && |seed| == 32 && work.prevhash == Encode(seed) && work.nbits == NBITS
    requires TextsOk(work, work.stratumId, extranonce2, ntime, nonce, versionHex)
    requires Decode(extranonce1).Some? && Decode(work.coinb1 + work.extranonce1 + Lower(extranonce2) + work.coinb2) ==
      Some(Coinb1(|PREFIX| + |Decode(extranonce1).value| + 4) + Decode(extranonce1).value + Raw(extranonce2) + COINB2)
    ensures var coinbase := Decode(work.coinb1 + work.extranonce1 + Lower(extranonce2) + work.coinb2).value;
      var header := SubmittedHeader(sha256, seed, extranonce1, extranonce2, ntime, nonce, versionHex);
      HeaderBytes(versionHex, work.prevhash, DoubleHash(sha256, coinbase), ntime, work.nbits, nonce) == Some(header) && |header| == 80
  {
    hide Decode, Encode, TrimSpace, Lower, Coinb1, PREFIX, COINB2, HeaderBytes, Reverse, SwapWords, DoubleHash, HexLen, Plain;
    BitsAreHex();
    var e1 := Decode(extranonce1).value;
    var coinbase := Coinb1(|PREFIX| + |e1| + 4) + e1 + Raw(extranonce2) + COINB2;
    var merkle := DoubleHash(sha256, coinbase);
    DoubleHashSize(sha256, coinbase);
    SeedText(seed);
    HeaderReadsBack(versionHex, Encode(seed), merkle, ntime, NBITS, nonce);
    HeaderIs(versionHex, Encode(seed), merkle, ntime, NBITS, nonce);
  }

  // The header of a submission names the seed of its work as the block before it.
  lemma SubmittedNamesSeed(sha256: Hash, work: Work, seed: seq<Byte>, extranonce1: string, stratumJobId: string, extranonce2: string,
                           ntime: string, nonce: string, versionHex: string)
    requires Is32(sha256) && |seed| == 32 && TextsOk(work, stratumJobId, extranonce2, ntime, nonce, versionHex)
    ensures var header := SubmittedHeader(sha256, seed, extranonce1, extranonce2, ntime, nonce, versionHex);
      |header| == 80 && ReadHeader(header).previous == seed
  {
    hide Decode, Encode, TrimSpace, Lower, Coinb1, PREFIX, COINB2, Reverse, SwapWords, DoubleHash;
    BitsAreHex();
    var n1 := Decode(extranonce1).GetOr([]);
    var merkle := DoubleHash(sha256, Coinb1(|PREFIX| + |n1| + 4) + n1 + Raw(extranonce2) + COINB2);
    DoubleHashSize(sha256, Coinb1(|PREFIX| + |n1| + 4) + n1 + Raw(extranonce2) + COINB2);
    SwapTwice(seed);
    RawSizes(versionHex, ntime, nonce);
    PiecesReadBack(Reverse(Raw(versionHex)), SwapWords(seed), merkle, Reverse(Raw(ntime)), Reverse(Raw(NBITS)), Reverse(Raw(nonce)));
  }

  lemma RawSizes(versionHex: string, ntime: string, nonce: string)
    requires HexLen(versionHex, 8) && HexLen(ntime, 8) && HexLen(nonce, 8) && HexLen(NBITS, 8)
    ensures |Raw(versionHex)| == 4 && |Raw(ntime)| == 4 && |Raw(nonce)| == 4 && |Raw(NBITS)| == 4
  {
    hide Decode, TrimSpace, Lower;
  }

  lemma DoubleHashSize(sha256: Hash, data: seq<Byte>)
    requires Is32(sha256)
    ensures |DoubleHash(sha256, data)| == 32
  {
  }

  lemma HeaderIs(version: string, prevhash: string, merkle: seq<Byte>, ntime: string, nbits: string, nonce: string)
    ensures HeaderBytes(version, prevhash, merkle, ntime, nbits, nonce).Some? ==>
      && Plain(version).Some? && Plain(prevhash).Some? && |Plain(prevhash).value| % 4 == 0
      && Plain(ntime).Some? && Plain(nbits).Some? && Plain(nonce).Some?
      && HeaderBytes(version, prevhash, merkle, ntime, nbits, nonce).value ==
           Reverse(Plain(version).value) + SwapWords(Plain(prevhash).value) + merkle + Reverse(Plain(ntime).value)
             + Reverse(Plain(nbits).value) + Reverse(Plain(nonce).value)
  {
    hide Plain, Reverse, SwapWords;
  }

  lemma SeedText(seed: seq<Byte>)
    requires |seed| == 32
    ensures Plain(Encode(seed)) == Some(seed) && HexLen(Encode(seed), 64)
  {
    hide Decode, Encode, TrimSpace, Lower, Trimmed;
    DecodeEncode(seed);
    DecodedIsTrimmed(Encode(seed));
    TrimmedIsKept(Encode(seed));
    LowerDecodes(Encode(seed));
  }

  lemma BitsAreHex()
    ensures HexLen(NBITS, 8) && HexLen(VERSION, 8)
  {
    hide TrimSpace, Lower, Trimmed;
    assert Decode(NBITS).Some? by { HexDecodes(NBITS); }
    assert Decode(VERSION).Some? by { HexDecodes(VERSION); }
    DecodedIsTrimmed(NBITS);
    DecodedIsTrimmed(VERSION);
    TrimmedIsKept(NBITS);
    TrimmedIsKept(VERSION);
    LowerDecodes(NBITS);
    LowerDecodes(VERSION);
  }

  lemma {:induction false} HexDecodes(s: string)
    requires |s| % 2 == 0 && forall i :: 0 <= i < |s| ==> IsHex(s[i])
    ensures Decode(s).Some?
  {
    if s != "" {
      HexDecodes(s[2..]);
    }
  }

  // hexLen looks past outer spaces, the coinbase does not: with them the coinbase is refused.
  lemma CoinbaseDecodesIff(work: Work, extranonce2: string)
    requires HexLen(extranonce2, 8) && Decode(work.extranonce1).Some?
    requires work.coinb1 == Encode(Coinb1(|PREFIX| + |Decode(work.extranonce1).value| + 4))
    requires work.coinb2 == Encode(COINB2)
    ensures var coinbase := Decode(work.coinb1 + work.extranonce1 + Lower(extranonce2) + work.coinb2);
      && (coinbase.Some? <==> TrimSpace(extranonce2) == extranonce2)
      && (coinbase.Some? ==>
            coinbase.value == Coinb1(|PREFIX| + |Decode(work.extranonce1).value| + 4) + Decode(work.extranonce1).value
                              + Raw(extranonce2) + COINB2)
  {
    hide Decode, Encode, TrimSpace, Lower, Coinb1, PREFIX, COINB2, Trimmed;
    var first := Coinb1(|PREFIX| + |Decode(work.extranonce1).value| + 4);
    var middle := Lower(extranonce2);
    DecodesIffTrimmed(extranonce2, 8);
    DecodeEncode(first);
    DecodeEncode(COINB2);
    DecodeParts(work.coinb1, work.extranonce1);
    if Decode(middle).Some? {
      Reassembled(work.coinb1, work.extranonce1, middle, work.coinb2, first, COINB2);
    } else {
      EvenPartRefused(work.coinb1 + work.extranonce1, middle, work.coinb2);
    }
  }

  const ZEROS := "00000000"
  const SPACED_ZEROS := " 00000000"

  // Such a share: everything in order but one space, which the length check does not see.
  lemma SpacedExtranonceIsRefused(sha256: Hash, jobId: string, seed: seq<Byte>, difficulty: real)
    requires Is32(sha256) && |seed| == 32 && DifficultyOk(difficulty)
    ensures var work := BuildWork(jobId, seed, ZEROS, ZEROS, difficulty, 4);
      && work.Ok? && HexLen(SPACED_ZEROS, 8)
      && VerifyShare(sha256, work.value, work.value.stratumId, SPACED_ZEROS, ZEROS, ZEROS, VERSION) == Rejected(InvalidCoinbase, "")
  {
    hide Decode, Encode, TrimSpace, Lower, Trimmed, TargetForDifficulty, HexNumber, HexFixed, Coinb1, PREFIX, COINB2, HeaderBytes,
         WithoutDashes, DoubleHash, BuildCoinbaseParts;
    BitsAreHex();
    ZerosAreHex();
    TargetInRange(difficulty);
    PartsAre(ZEROS, 4);
    CoinbaseDecodesIff(BuildWork(jobId, seed, ZEROS, ZEROS, difficulty, 4).value, SPACED_ZEROS);
  }

  lemma ZerosAreHex()
    ensures HexLen(ZEROS, 8) && HexLen(SPACED_ZEROS, 8) && TrimSpace(SPACED_ZEROS) != SPACED_ZEROS && Lower(ZEROS) == ZEROS && Decode(ZEROS).Some?
  {
    hide TrimSpace, Lower, Trimmed;
    assert Decode(ZEROS).Some? by { HexDecodes(ZEROS); }
    DecodedIsTrimmed(ZEROS);
    TrimmedIsKept(ZEROS);
    LowerDecodes(ZEROS);
    assert Lower(ZEROS) == ZEROS by { LowerOfZeros(); }
    assert TrimSpace(SPACED_ZEROS) == ZEROS by { SpaceIsTrimmed(); }
  }

  lemma LowerOfZeros()
    ensures Lower(ZEROS) == ZEROS
  {
  }

  lemma SpaceIsTrimmed()
    ensures TrimSpace(SPACED_ZEROS) == ZEROS
  {
    hide Decode, TrailingSpace;
    assert LeadingSpace(SPACED_ZEROS) == 1;
    assert SPACED_ZEROS[1..] == ZEROS;
    DecodedIsTrimmed(ZEROS) by { HexDecodes(ZEROS); }
  }

  // Text that does not decode is not made to by what follows it.
  lemma EvenPartRefused(a: string, m: string, b: string)
    requires |a| % 2 == 0 && Decode(m).None? && Decode(a).Some? && Decode(b).Some?
    ensures Decode(a + m + b).None?
  {
    hide Decode;
    DecodeParts(a, m + b);
    assert a + m + b == a + (m + b);
    FrontRefused(m, b);
  }

  lemma {:induction false} FrontRefused(m: string, b: string)
    requires Decode(m).None? && Decode(b).Some?
    ensures Decode(m + b).None?
    decreases |m|
  {
    if |m| >= 2 {
      if Decode(m[2..]).None? {
        FrontRefused(m[2..], b);
      }
      assert (m + b)[2..] == m[2..] + b && (m + b)[0] == m[0] && (m + b)[1] == m[1];
    } else {
      OddRefused(m, b);
    }
  }

  lemma OddRefused(m: string, b: string)
    requires |m| == 1 && Decode(b).Some?
    ensures Decode(m + b).None?
  {
    hide Decode;
    assert |m + b| == 1 + |b|;
  }
}
