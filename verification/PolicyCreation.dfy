/** A new folder's policy: what is sealed, what the table stores, and when the two agree. */
module PolicyCreation {
  import opened Base
  import opened PolicySeal

  // The policy as requested, already normalised; amounts are exact.
  datatype Request = Request(required: real, tolerance: real, window: int, attempts: int)

  // validateFolderPoWPolicy
  predicate Valid(q: Request) {
    0.0 < q.required && 0.0 <= q.tolerance <= 50.0 && 5 <= q.window <= 600 && 1 <= q.attempts <= 10
  }

  // ---------------------------------------------------------------- rounding

  // %.<n>f: a tie goes to the even digit.
  function RoundHalfEven(x: real): int {
    var part := x - x.Floor as real;
    if part < 0.5 || (part == 0.5 && x.Floor % 2 == 0) then x.Floor else x.Floor + 1
  }

  // A numeric column of fixed scale: a tie goes away from zero.
  function RoundHalfAway(x: real): int {
    if x < 0.0 then -(0.5 - x).Floor else (x + 0.5).Floor
  }

  // Half way above an even number.
  predicate TieAboveEven(x: real) {
    x - x.Floor as real == 0.5 && x.Floor % 2 == 0
  }

  lemma RoundingsAgreeIff(x: real)
    requires 0.0 <= x
    ensures RoundHalfEven(x) == RoundHalfAway(x) <==> !TieAboveEven(x)
  {
    var whole, part := x.Floor, x - x.Floor as real;
    if part < 0.5 {
      FloorIs(x + 0.5, whole);
    } else {
      FloorIs(x + 0.5, whole + 1);
    }
  }

  lemma FloorIs(x: real, n: int)
    requires n as real <= x < (n + 1) as real
    ensures x.Floor == n
  {
  }

  // ---------------------------------------------------------------- creation

  const MILLION: real := 1000000.0
  const HUNDRED: real := 100.0

  // The first amount, in millionths, with too many digits for its column.
  const TOO_LARGE: int := 1_000_000_000_000_000_000_000_000

  // What the sealed text says, and what the columns hold.
  function SealedPolicy(q: Request): FolderPolicy {
    FolderPolicy(RoundHalfEven(q.required * MILLION), RoundHalfEven(q.tolerance * HUNDRED), q.window, q.attempts)
  }

  function StoredPolicy(q: Request): FolderPolicy {
    FolderPolicy(RoundHalfAway(q.required * MILLION), RoundHalfAway(q.tolerance * HUNDRED), q.window, q.attempts)
  }

  datatype CreateError = PolicyInvalid | FolderCreateFailed

  // handleCreateFolder, as far as the policy goes: it is sealed as requested and then stored.
  function CreateFolder(mac: Mac, tenant: string, folder: string, q: Request): Result<Row, CreateError> {
    if !Valid(q) then Err(PolicyInvalid)
    else
      var seal := mac(Payload(tenant, folder, SealedPolicy(q)));
      var stored := StoredPolicy(q);
      if !PolicyOk(stored) || stored.required >= TOO_LARGE then Err(FolderCreateFailed)
      else Ok(Row(tenant, folder, stored, Some(seal)))
  }

  // A folder is created exactly if its policy is valid and the required hashrate, rounded, is
  // neither zero nor too long for its column.
  lemma CreateSucceedsIff(mac: Mac, tenant: string, folder: string, q: Request)
    ensures CreateFolder(mac, tenant, folder, q).Ok? <==>
      && 0.0 <= q.tolerance <= 50.0 && 5 <= q.window <= 600 && 1 <= q.attempts <= 10
      && 0.5 <= q.required * 1000000.0 < 999_999_999_999_999_999_999_999.5
  {
    hide Payload;
    if Valid(q) {
      StoredTolerance(q.tolerance);
      var x := q.required * MILLION;
      assert 0.0 < x;
      var n := (x + 0.5).Floor;
      assert n as real <= x + 0.5 < (n + 1) as real;
    }
  }

  // An amount and the whole number it is rounded to.
  predicate Nearest(x: real, n: int) {
    n as real - 0.5 <= x <= n as real + 0.5
  }

  /** The columns of a new folder hold what was requested, hashrate and tolerance rounded to the
      nearest millionth and hundredth, a tie upwards; so does the sealed text, but with a tie to the
      even digit. */
  lemma StoredIsNearest(mac: Mac, tenant: string, folder: string, q: Request)
    requires CreateFolder(mac, tenant, folder, q).Ok?
    ensures var row, text := CreateFolder(mac, tenant, folder, q).value, SealedPolicy(q);
      && row.tenant == tenant && row.folder == folder && row.seal == Some(mac(Payload(tenant, folder, text)))
      && (row.policy.window, row.policy.attempts) == (text.window, text.attempts) == (q.window, q.attempts)
      && Nearest(q.required * 1000000.0, row.policy.required) && Nearest(q.tolerance * 100.0, row.policy.tolerance)
      && Nearest(q.required * 1000000.0, text.required) && Nearest(q.tolerance * 100.0, text.tolerance)
      && q.required * 1000000.0 != row.policy.required as real + 0.5 && q.tolerance * 100.0 != row.policy.tolerance as real + 0.5
      && (TiesTo(q.required * 1000000.0, text.required) ==> text.required % 2 == 0)
      && (TiesTo(q.tolerance * 100.0, text.tolerance) ==> text.tolerance % 2 == 0)
  {
    hide Payload, RoundHalfEven, RoundHalfAway;
    assert 0.0 <= q.required * MILLION && 0.0 <= q.tolerance * HUNDRED;
    RoundsToNearest(q.required * MILLION);
    RoundsToNearest(q.tolerance * HUNDRED);
  }

  predicate TiesTo(x: real, n: int) {
    x == n as real - 0.5 || x == n as real + 0.5
  }

  lemma RoundsToNearest(x: real)
    requires 0.0 <= x
    ensures Nearest(x, RoundHalfAway(x)) && x != RoundHalfAway(x) as real + 0.5
    ensures Nearest(x, RoundHalfEven(x)) && (TiesTo(x, RoundHalfEven(x)) ==> RoundHalfEven(x) % 2 == 0)
  {
    AwayIsNearest(x);
    EvenIsNearest(x);
    hide *;
  }

  lemma AwayIsNearest(x: real)
    requires 0.0 <= x
    ensures Nearest(x, RoundHalfAway(x)) && x != RoundHalfAway(x) as real + 0.5
  {
    var n := (x + 0.5).Floor;
    assert n as real <= x + 0.5 < n as real + 1.0;
  }

  lemma EvenIsNearest(x: real)
    ensures Nearest(x, RoundHalfEven(x)) && (TiesTo(x, RoundHalfEven(x)) ==> RoundHalfEven(x) % 2 == 0)
  {
    var n := x.Floor;
    assert n as real <= x < n as real + 1.0 && (n + 1) as real == n as real + 1.0;
    NextIsEven(n);
    TiesOfDown(x, n as real);
  }

  lemma NextIsEven(n: int)
    ensures n % 2 != 0 ==> (n + 1) % 2 == 0
  {
  }

  lemma TiesOfDown(x: real, n: real)
    requires n <= x < n + 1.0
    ensures x - n < 0.5 ==> x != n - 0.5 && x != n + 0.5
    ensures x - n > 0.5 ==> x != n + 1.0 - 0.5 && x != n + 1.0 + 0.5
  {
  }

  lemma StoredTolerance(tolerance: real)
    requires 0.0 <= tolerance <= 50.0
    ensures 0 <= RoundHalfAway(tolerance * HUNDRED) <= 50 * ONE_PERCENT
  {
    var x := tolerance * HUNDRED;
    assert 0.0 <= x <= 5000.0;
  }

  /** A folder just created passes its own check exactly unless hashrate or tolerance lies half way
      between two printed values of which the lower is even: the text then rounds down and the
      column up. Both services decide alike. */
  lemma CreatedFolderPassesIff(mac: Mac, tenant: string, folder: string, q: Request)
    requires Ideal(mac) && '\n' !in tenant && '\n' !in folder && CreateFolder(mac, tenant, folder, q).Ok?
    ensures var row := CreateFolder(mac, tenant, folder, q).value;
      && (AccessCheck(mac, row).Accepted? <==> !TieAboveEven(q.required * MILLION) && !TieAboveEven(q.tolerance * HUNDRED))
      && (AccessCheck(mac, row).Accepted? ==> AccessCheck(mac, row).row == row)
      && (ArchiveCheck(mac, row).Sealed? <==> AccessCheck(mac, row).Accepted?)
  {
    hide Payload, AccessCheck, ArchiveCheck, RoundHalfEven, RoundHalfAway, TieAboveEven, Ideal;
    var row := CreateFolder(mac, tenant, folder, q).value;
    SealedRowPassesIffUnchanged(mac, row.(policy := SealedPolicy(q)), row);
    assert 0.0 <= q.required * MILLION && 0.0 <= q.tolerance * HUNDRED;
    RoundingsAgreeIff(q.required * MILLION);
    RoundingsAgreeIff(q.tolerance * HUNDRED);
  }

  // -------------------------------------------------- policies at the columns' scale

  function AtScale(p: FolderPolicy): Request {
    Request(p.required as real / MILLION, p.tolerance as real / HUNDRED, p.window, p.attempts)
  }

  // A policy that comes out of a table, as in a backup, passes when a folder is created with it.
  lemma StoredPolicyPassesAgain(mac: Mac, tenant: string, folder: string, p: FolderPolicy)
    requires Ideal(mac) && '\n' !in tenant && '\n' !in folder && PolicyOk(p) && p.required < TOO_LARGE
    ensures var r := CreateFolder(mac, tenant, folder, AtScale(p));
      r.Ok? && r.value.policy == p && AccessCheck(mac, r.value) == Accepted(r.value)
  {
    hide Payload, AccessCheck, ArchiveCheck, Ideal;
    var q := AtScale(p);
    assert q.required * MILLION == p.required as real && q.tolerance * HUNDRED == p.tolerance as real;
    FloorIs(p.required as real + 0.5, p.required);
    FloorIs(p.tolerance as real + 0.5, p.tolerance);
    CreatedFolderPassesIff(mac, tenant, folder, q);
  }

  // ------------------------------------------------------------------- witness

  // 1 TH/s with a tolerance of an eighth of a percent.
  const EIGHTH := Request(1.0, 0.125, 60, 3)

  /** A valid policy whose folder is created and refused by every check: its tolerance is sealed as
      0.12 and stored as 0.13. */
  lemma CreatedFolderIsRefused(mac: Mac)
    requires Ideal(mac)
    ensures Valid(EIGHTH) && SealedPolicy(EIGHTH).tolerance == 12 && StoredPolicy(EIGHTH).tolerance == 13
    ensures var r := CreateFolder(mac, "t", "f", EIGHTH);
      r.Ok? && AccessCheck(mac, r.value) == Mismatch && ArchiveCheck(mac, r.value) == SealMismatch
  {
    hide Payload, AccessCheck, ArchiveCheck, Ideal;
    FloorIs(12.5, 12);
    FloorIs(13.0, 13);
    CreateSucceedsIff(mac, "t", "f", EIGHTH);
    CreatedFolderPassesIff(mac, "t", "f", EIGHTH);
  }
}
