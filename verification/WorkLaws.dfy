/** The work handed out to a miner, in the numbers and texts it is made of. */
module WorkLaws {
  import opened Base
  import opened Target
  import Coinbase
  import Header
  import Hex
  import Text

  /** The target of a difficulty is the largest number that, multiplied by the difficulty, does not
      exceed 65535 * 2^208, but never more than 2^256 - 1; a difficulty that is not positive has none. */
  lemma TargetIs(difficulty: real)
    ensures difficulty <= 0.0 ==> TargetForDifficulty(difficulty) == Err(InvalidDifficulty)
    ensures 0.0 < difficulty <= 1000000.0 ==>
      var t := TargetForDifficulty(difficulty);
      && t.Ok? && 0 < t.value < TwoTo(256)
      && difficulty * t.value as real <= 65535.0 * TwoTo(208) as real
      && (t.value < TwoTo(256) - 1 ==> 65535.0 * TwoTo(208) as real < difficulty * (t.value + 1) as real)
  {
    hide TwoTo;
    Powers();
    if 0.0 < difficulty <= 1000000.0 {
      TargetInRange(difficulty);
      var t, a := TargetForDifficulty(difficulty).value, DIFF1_TARGET as real;
      assert t as real <= a / difficulty;
      FloorTimes(a, difficulty, t);
      if t < TwoTo(256) - 1 {
        CreditIsTight(difficulty);
      }
    }
  }

  function TwoTo(n: nat): nat {
    if n == 0 then 1 else 2 * TwoTo(n - 1)
  }

  lemma {:induction false} TwoToAdds(m: nat, n: nat)
    ensures TwoTo(m + n) == TwoTo(m) * TwoTo(n)
  {
    if m > 0 {
      TwoToAdds(m - 1, n);
      assert TwoTo(m + n) == 2 * TwoTo(m - 1 + n);
      Doubled(TwoTo(m - 1), TwoTo(n));
    }
  }

  lemma Doubled(x: int, y: int)
    ensures (2 * x) * y == 2 * (x * y)
  {
  }

  lemma SixteenBits()
    ensures TwoTo(16) == 0x1_0000
  {
    assert TwoTo(4) == 2 * (2 * TwoTo(2)) && TwoTo(2) == 2 * (2 * TwoTo(0));
    TwoToAdds(4, 4);
    TwoToAdds(8, 8);
  }

  lemma Powers()
    ensures TwoTo(256) == TWO_256 && 65535 * TwoTo(208) == DIFF1_TARGET
  {
    hide TwoTo;
    SixteenBits();
    TwoToAdds(16, 16);
    TwoToAdds(32, 32);
    TwoToAdds(64, 64);
    TwoToAdds(128, 128);
    TwoToAdds(64, 16);
    TwoToAdds(128, 80);
  }

  /** A share of difficulty d is credited for d * 2^32 hashes, in terahashes. */
  lemma CreditIs(difficulty: real)
    ensures CreditedTH(difficulty) * 1_000_000_000_000.0 == difficulty * 4294967296.0
  {
    CreditIsHashes(difficulty);
  }

  // ------------------------------------------------------------- the job's short id

  /** Dropping the dashes of an id keeps everything else, in its order. */
  lemma {:induction false} DashesGo(a: string, b: string)
    ensures Header.WithoutDashes(a + "-" + b) == Header.WithoutDashes(a) + Header.WithoutDashes(b)
  {
    if a == "" {
      assert ("-" + b)[1..] == b;
      assert a + "-" + b == "-" + b;
    } else {
      assert (a + "-" + b)[1..] == a[1..] + "-" + b;
      DashesGo(a[1..], b);
    }
  }

  lemma {:induction false} OthersStay(a: string)
    ensures '-' !in Header.WithoutDashes(a)
    ensures '-' !in a ==> Header.WithoutDashes(a) == a
  {
    if a != "" {
      OthersStay(a[1..]);
      assert a == [a[0]] + a[1..];
    }
  }

  // A row id as the database prints it: five groups of hexadecimal digits with a dash between any two.
  predicate Groups(a: string, b: string, c: string, d: string, e: string) {
    |a| == 8 && |b| == 4 && |c| == 4 && |d| == 4 && |e| == 12
    && '-' !in a && '-' !in b && '-' !in c && '-' !in d && '-' !in e
  }

  /** The short id of a job is its id without the dashes and without the last eight digits; the rest
      of the work is what it was made from. */
  lemma WorkIsMadeFrom(a: string, b: string, c: string, d: string, e: string, seed: seq<Hex.Byte>, ntime: string, extranonce1: string, difficulty: real)
    requires Groups(a, b, c, d, e) && Hex.Decode(extranonce1).Some? && 0.0 < difficulty <= 1000000.0
    ensures var work := Header.BuildWork(a + "-" + b + "-" + c + "-" + d + "-" + e, seed, ntime, extranonce1, difficulty, 4);
      && work.Ok?
      && work.value.stratumId == a + b + c + d + e[..4]
      && work.value.prevhash == Hex.Encode(seed) && work.value.ntime == ntime && work.value.extranonce1 == extranonce1
      && work.value.version == "20000000" && work.value.nbits == "1d00ffff"
      && Hex.HexNumber(work.value.targetHex) == Some(TargetForDifficulty(difficulty).value)
      && work.value.workTH == CreditedTH(difficulty)
  {
    hide Hex.Decode, Hex.Encode, Hex.HexFixed, Hex.HexNumber, Coinbase.BuildCoinbaseParts, Header.WithoutDashes;
    TargetIs(difficulty);
    TargetInRange(difficulty);
    TargetTextReads(TargetForDifficulty(difficulty).value);
    Coinbase.PartsAre(extranonce1, 4);
    WithoutGroups(a, b, c, d, e);
    assert (a + b + c + d + e)[..24] == a + b + c + d + e[..4];
  }

  lemma WithoutGroups(a: string, b: string, c: string, d: string, e: string)
    requires Groups(a, b, c, d, e)
    ensures Header.WithoutDashes(a + "-" + b + "-" + c + "-" + d + "-" + e) == a + b + c + d + e
  {
    hide Header.WithoutDashes;
    DashesGo(a + "-" + b + "-" + c + "-" + d, e);
    DashesGo(a + "-" + b + "-" + c, d);
    DashesGo(a + "-" + b, c);
    DashesGo(a, b);
    OthersStay(a);
    OthersStay(b);
    OthersStay(c);
    OthersStay(d);
    OthersStay(e);
  }
}
