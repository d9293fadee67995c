/** Share difficulty, the target it gives, and the work credited for a share. */
module Target {
  import opened Base
  import opened Hex

  const TWO_32: int := 0x1_0000_0000
  const TWO_256: int := 0x1_0000_0000_0000_0000_0000_0000_0000_0000_0000_0000_0000_0000_0000_0000_0000_0000
  // diff1TargetHex and maxTargetHex
  const DIFF1_TARGET: int := 0xffff_0000_0000_0000_0000_0000_0000_0000_0000_0000_0000_0000_0000_0000
  const MAX_TARGET: int := TWO_256 - 1
  // diff1WorkTH: terahashes for a share of difficulty 1.
  const DIFF1_WORK_TH: real := 0.004294967296
  const TERA: real := 1000000000000.0

  // validatePolicy, for the difficulty.
  predicate DifficultyOk(difficulty: real) {
    0.0 < difficulty <= 1000000.0
  }

  datatype TargetError = InvalidDifficulty | TargetIsZero

  // targetForDifficulty, with exact division.
  function TargetForDifficulty(difficulty: real): Result<int, TargetError> {
    if difficulty <= 0.0 then Err(InvalidDifficulty)
    else
      var target := (DIFF1_TARGET as real / difficulty).Floor;
      if target <= 0 then Err(TargetIsZero)
      else if target > MAX_TARGET then Ok(MAX_TARGET)
      else Ok(target)
  }

  function CreditedTH(difficulty: real): real {
    difficulty * DIFF1_WORK_TH
  }

  // A quotient rounded down, multiplied back.
  lemma FloorTimes(a: real, d: real, t: int)
    requires d > 0.0 && t as real <= a / d
    ensures d * t as real <= a
  {
    assert d * (a / d) == a;
    var q := a / d;
    MulLeft(d, t as real, q);
  }

  lemma MulLeft(d: real, x: real, y: real)
    requires d >= 0.0 && x <= y
    ensures d * x <= d * y
  {
  }

  lemma MulStrict(x: real, a: real, b: real)
    requires x > 0.0 && a < b
    ensures x * a < x * b
  {
  }

  // The target of every valid policy is a positive number below 2^256.
  lemma TargetInRange(difficulty: real)
    requires DifficultyOk(difficulty)
    ensures TargetForDifficulty(difficulty).Ok? && 1 <= TargetForDifficulty(difficulty).value < TWO_256
  {
    var a := DIFF1_TARGET as real;
    QuotientAtLeast(a, difficulty, 1.0);
  }

  lemma QuotientAtLeast(a: real, d: real, x: real)
    requires d > 0.0 && d * x <= a
    ensures x <= a / d
  {
    var q := a / d;
    assert d * q == a;
    if q < x {
      MulStrict(d, q, x);
    }
  }

  // Harder shares have smaller targets.
  lemma TargetIsAntitone(d: real, e: real)
    requires DifficultyOk(d) && DifficultyOk(e) && d <= e
    ensures TargetForDifficulty(d).Ok? && TargetForDifficulty(e).Ok?
    ensures TargetForDifficulty(e).value <= TargetForDifficulty(d).value
  {
    TargetInRange(d);
    TargetInRange(e);
    var a := DIFF1_TARGET as real;
    var q := a / e;
    assert e * q == a;
    QuotientAtLeast(a, e, 0.0);
    MulLeft(q, d, e);
    QuotientAtLeast(a, d, q);
  }

  // A hash meets the target with probability (target + 1) / 2^256, so a share costs
  // 2^256 / (target + 1) hashes on average: never fewer than it is credited for.
  lemma CreditNeverExceedsCost(difficulty: real)
    requires DifficultyOk(difficulty)
    ensures var t := TargetForDifficulty(difficulty);
      t.Ok? && CreditedTH(difficulty) * TERA * (t.value + 1) as real < TWO_256 as real
  {
    TargetInRange(difficulty);
    var t, a := TargetForDifficulty(difficulty).value, DIFF1_TARGET as real;
    assert t as real <= a / difficulty;
    FloorTimes(a, difficulty, t);
    CreditIsHashes(difficulty);
    Regroup(difficulty, TWO_32 as real, (t + 1) as real);
    assert difficulty * (t + 1) as real == difficulty * t as real + difficulty;
    assert (difficulty * (t + 1) as real) <= a + 1000000.0;
    assert (a + 1000000.0) * TWO_32 as real < TWO_256 as real;
  }

  lemma CreditIsHashes(difficulty: real)
    ensures CreditedTH(difficulty) * TERA == difficulty * TWO_32 as real
  {
    assert DIFF1_WORK_TH * TERA == TWO_32 as real;
    Regroup(difficulty, DIFF1_WORK_TH, TERA);
    MulAssoc(difficulty, DIFF1_WORK_TH, TERA);
  }

  lemma MulAssoc(x: real, y: real, z: real)
    ensures x * y * z == x * (y * z)
  {
  }

  lemma Regroup(x: real, y: real, z: real)
    ensures x * y * z == (x * z) * y
  {
  }

  // While the target is not clamped, one more on it would make a share too cheap for its credit.
  lemma CreditIsTight(difficulty: real)
    requires DifficultyOk(difficulty) && DIFF1_TARGET as real / difficulty < TWO_256 as real
    ensures var t := TargetForDifficulty(difficulty);
      t.Ok? && DIFF1_TARGET as real < difficulty * (t.value + 1) as real
  {
    TargetInRange(difficulty);
    var a := DIFF1_TARGET as real;
    var q := a / difficulty;
    var t := TargetForDifficulty(difficulty).value;
    assert difficulty * q == a;
    MulStrict(difficulty, q, (t + 1) as real);
  }

  // The 64 digits sent with the work are the target.
  lemma TargetTextReads(target: nat)
    requires target < TWO_256
    ensures HexNumber(HexFixed(target, 64)) == Some(target)
  {
    SixtyFourDigits();
    HexFixedReads(target, 64);
  }

  lemma SixtyFourDigits()
    ensures Pow16(64) == TWO_256
  {
    hide Pow16;
    EightDigits();
    PowSplit(8, 8);
    PowSplit(16, 16);
    PowSplit(32, 32);
  }

  lemma EightDigits()
    ensures Pow16(8) == TWO_32
  {
    assert Pow16(2) == 16 * (16 * Pow16(0));
    assert Pow16(4) == 16 * (16 * Pow16(2));
    assert Pow16(6) == 16 * (16 * Pow16(4));
    assert Pow16(8) == 16 * (16 * Pow16(6));
  }

  lemma {:induction false} PowSplit(m: nat, n: nat)
    ensures Pow16(m + n) == Pow16(m) * Pow16(n)
  {
    if m > 0 {
      PowSplit(m - 1, n);
      assert Pow16(m + n) == 16 * Pow16(m - 1 + n);
      assert 16 * (Pow16(m - 1) * Pow16(n)) == (16 * Pow16(m - 1)) * Pow16(n);
    }
  }
}
