/** The sealed text of a folder's Proof-of-Work policy, and the two services that check it. */
module PolicySeal {
  import opened Base
  import opened Numerals
  import opened Text

  // required in millionths of a TH/s, tolerance in hundredths of a percent: the scales of the
  // table's columns and of the sealed text.
  datatype FolderPolicy = FolderPolicy(required: int, tolerance: int, window: int, attempts: int)

  const ONE_TH := 1_000_000
  const ONE_PERCENT := 100
  const DEFAULT_PROOF_WINDOW_SECONDS := 60
  const DEFAULT_MAX_PROOF_ATTEMPTS := 3

  // ------------------------------------------------------------ sealed text

  function Line(key: string, value: string, rest: string): string {
    key + value + "\n" + rest
  }

  // FolderPoWPolicyPayload
  function Payload(tenant: string, folder: string, p: FolderPolicy): string {
    "archivon:folder-pow-policy:v1\n" +
    Line("tenant_id=", tenant,
    Line("folder_id=", folder,
    Line("required_hashrate_ths=", Fixed(p.required, 6),
    Line("hashrate_tolerance_percent=", Fixed(p.tolerance, 2),
    Line("proof_window_seconds=", Signed(p.window),
    Line("max_proof_attempts=", Signed(p.attempts), ""))))))
  }

  lemma SameLine(key: string, a: string, x: string, b: string, y: string)
    requires '\n' !in a && '\n' !in b && Line(key, a, x) == Line(key, b, y)
    ensures a == b && x == y
  {
    assert Line(key, a, x)[|key|..] == a + "\n" + x;
    assert Line(key, b, y)[|key|..] == b + "\n" + y;
    CutAt('\n', a, x, b, y);
  }

  // Two folders or policies never share a sealed text. Ids hold no line break.
  lemma PayloadIsInjective(tenant: string, folder: string, p: FolderPolicy, tenant': string, folder': string, q: FolderPolicy)
    requires '\n' !in tenant && '\n' !in folder && '\n' !in tenant' && '\n' !in folder'
    requires Payload(tenant, folder, p) == Payload(tenant', folder', q)
    ensures tenant == tenant' && folder == folder' && p == q
  {
    hide Line, Fixed, Signed;
    OneLine(p.required, 6); OneLine(q.required, 6);
    OneLine(p.tolerance, 2); OneLine(q.tolerance, 2);
    OneLine(p.window, 0); OneLine(q.window, 0);
    OneLine(p.attempts, 0); OneLine(q.attempts, 0);
    var last, last' := Line("max_proof_attempts=", Signed(p.attempts), ""), Line("max_proof_attempts=", Signed(q.attempts), "");
    var window, window' := Line("proof_window_seconds=", Signed(p.window), last), Line("proof_window_seconds=", Signed(q.window), last');
    var tolerance := Line("hashrate_tolerance_percent=", Fixed(p.tolerance, 2), window);
    var tolerance' := Line("hashrate_tolerance_percent=", Fixed(q.tolerance, 2), window');
    var required := Line("required_hashrate_ths=", Fixed(p.required, 6), tolerance);
    var required' := Line("required_hashrate_ths=", Fixed(q.required, 6), tolerance');
    var second, second' := Line("folder_id=", folder, required), Line("folder_id=", folder', required');
    SameRest("archivon:folder-pow-policy:v1\n", Line("tenant_id=", tenant, second), Line("tenant_id=", tenant', second'));
    SameLine("tenant_id=", tenant, second, tenant', second');
    SameLine("folder_id=", folder, required, folder', required');
    SameLine("required_hashrate_ths=", Fixed(p.required, 6), tolerance, Fixed(q.required, 6), tolerance');
    SameLine("hashrate_tolerance_percent=", Fixed(p.tolerance, 2), window, Fixed(q.tolerance, 2), window');
    SameLine("proof_window_seconds=", Signed(p.window), last, Signed(q.window), last');
    SameLine("max_proof_attempts=", Signed(p.attempts), "", Signed(q.attempts), "");
    FixedInjective(p.required, q.required, 6);
    FixedInjective(p.tolerance, q.tolerance, 2);
    SignedInjective(p.window, q.window);
    SignedInjective(p.attempts, q.attempts);
  }

  lemma SameRest(head: string, x: string, y: string)
    requires head + x == head + y
    ensures x == y
  {
    assert (head + x)[|head|..] == x && (head + y)[|head|..] == y;
  }

  // ------------------------------------------------------------ normalising

  // The CHECK constraints of protected_folders.
  predicate PolicyOk(p: FolderPolicy) {
    0 < p.required && 0 <= p.tolerance <= 50 * ONE_PERCENT && 5 <= p.window <= 600 && 1 <= p.attempts <= 10
  }

  // normalizePolicy of the access service, on the sealed fields.
  function NormalizePolicy(p: FolderPolicy): FolderPolicy {
    FolderPolicy(if p.required <= 0 then ONE_TH else p.required, p.tolerance,
                 if p.window <= 0 then DEFAULT_PROOF_WINDOW_SECONDS else p.window,
                 if p.attempts <= 0 then DEFAULT_MAX_PROOF_ATTEMPTS else p.attempts)
  }

  const NO_POLICY := FolderPolicy(0, 0, 0, 0)

  // normalizeFolderPoWPolicy of the archive service.
  function NormalizeFolderPolicy(policy: FolderPolicy, fallback: FolderPolicy): FolderPolicy {
    var p := if policy == NO_POLICY then fallback else policy;
    p.(required := if p.required <= 0 then (if fallback.required <= 0 then ONE_TH else fallback.required) else p.required,
       window := if p.window <= 0 then (if fallback.window <= 0 then DEFAULT_PROOF_WINDOW_SECONDS else fallback.window) else p.window,
       attempts := if p.attempts <= 0 then (if fallback.attempts <= 0 then DEFAULT_MAX_PROOF_ATTEMPTS else fallback.attempts) else p.attempts)
  }

  // Normalising leaves a policy alone exactly when its three positive fields are positive.
  lemma NormalizingKeepsIff(p: FolderPolicy)
    ensures NormalizePolicy(p) == p <==> 0 < p.required && 0 < p.window && 0 < p.attempts
    ensures PolicyOk(p) ==> NormalizePolicy(p) == p && forall fallback :: NormalizeFolderPolicy(p, fallback) == p
  {
  }

  // ----------------------------------------------------------------- checks

  // The seal of a text; an ideal one is injective.
  type Mac = string -> string

  ghost predicate Ideal(mac: Mac) {
    && (forall x, y :: mac(x) == mac(y) ==> x == y)
    && (forall x :: mac(x) != "" && Trimmed(mac(x)))
  }

  datatype Row = Row(tenant: string, folder: string, policy: FolderPolicy, seal: Option<string>)

  // UPDATE ... WHERE pow_policy_seal IS NULL OR pow_policy_seal = ''.
  function Backfill(row: Row, seal: string): Row {
    if row.seal.None? || row.seal.value == "" then row.(seal := Some(seal)) else row
  }

  // What the access service's check leaves: the row, or an error.
  datatype Verdict = Accepted(row: Row) | Mismatch

  // ensureFolderPoWPolicySeal of the access service, on the policy it normalised after reading.
  function AccessCheck(mac: Mac, row: Row): Verdict {
    var expectedSeal := mac(Payload(row.tenant, row.folder, NormalizePolicy(row.policy)));
    var seal := TrimSpace(row.seal.GetOr(""));
    if row.seal.None? || seal == "" then Accepted(Backfill(row, expectedSeal))
    else if seal != expectedSeal then Mismatch
    else Accepted(row)
  }

  // The archive service's own copy works on the policy as read, and answers with the seal.
  datatype Sealing = Sealed(row: Row, seal: string) | SealMismatch

  function ArchiveCheck(mac: Mac, row: Row): Sealing {
    var expectedSeal := mac(Payload(row.tenant, row.folder, row.policy));
    var seal := TrimSpace(row.seal.GetOr(""));
    if row.seal.None? || seal == "" then Sealed(Backfill(row, expectedSeal), expectedSeal)
    else if seal != expectedSeal then SealMismatch
    else Sealed(row, seal)
  }

  // On rows that meet the table's checks the two services accept the same rows and leave the same
  // row behind; the seal the archive answers with is the one the access service expects.
  lemma ChecksAgree(mac: Mac, row: Row)
    requires PolicyOk(row.policy)
    ensures AccessCheck(mac, row).Accepted? <==> ArchiveCheck(mac, row).Sealed?
    ensures AccessCheck(mac, row).Accepted? ==>
      && ArchiveCheck(mac, row).row == AccessCheck(mac, row).row
      && ArchiveCheck(mac, row).seal == mac(Payload(row.tenant, row.folder, NormalizePolicy(row.policy)))
  {
    hide Payload, TrimSpace;
    NormalizingKeepsIff(row.policy);
  }

  // A row the table would refuse: no hashrate required.
  const BARE := Row("t", "f", FolderPolicy(0, 0, 60, 3), None)

  // Outside those checks the copies part: each seals such a row with a text the other refuses.
  lemma ChecksPartOnBareRow(mac: Mac)
    requires Ideal(mac)
    ensures !PolicyOk(BARE.policy) && AccessCheck(mac, BARE).Accepted? && ArchiveCheck(mac, AccessCheck(mac, BARE).row) == SealMismatch
    ensures ArchiveCheck(mac, BARE).Sealed? && AccessCheck(mac, ArchiveCheck(mac, BARE).row) == Mismatch
  {
    hide Payload, TrimSpace, Trimmed;
    var p := NormalizePolicy(BARE.policy);
    assert p.required != BARE.policy.required;
    if Payload(BARE.tenant, BARE.folder, p) == Payload(BARE.tenant, BARE.folder, BARE.policy) {
      PayloadIsInjective(BARE.tenant, BARE.folder, p, BARE.tenant, BARE.folder, BARE.policy);
    }
    IdealIsKept(mac, Payload(BARE.tenant, BARE.folder, p));
    IdealIsKept(mac, Payload(BARE.tenant, BARE.folder, BARE.policy));
  }

  lemma IdealIsKept(mac: Mac, text: string)
    requires Ideal(mac)
    ensures TrimSpace(mac(text)) == mac(text) && mac(text) != ""
  {
    hide TrimSpace, Trimmed;
  }

  // A sealed row passes exactly as long as tenant, folder and policy are those it was sealed with.
  lemma SealedRowPassesIffUnchanged(mac: Mac, sealed: Row, row: Row)
    requires Ideal(mac) && PolicyOk(row.policy)
    requires '\n' !in sealed.tenant && '\n' !in sealed.folder && '\n' !in row.tenant && '\n' !in row.folder
    requires row.seal == Some(mac(Payload(sealed.tenant, sealed.folder, sealed.policy)))
    ensures AccessCheck(mac, row).Accepted? <==> row.tenant == sealed.tenant && row.folder == sealed.folder && row.policy == sealed.policy
    ensures AccessCheck(mac, row).Accepted? ==> AccessCheck(mac, row).row == row
    ensures ArchiveCheck(mac, row) == if AccessCheck(mac, row).Accepted? then Sealed(row, row.seal.value) else SealMismatch
  {
    hide Payload, TrimSpace, Trimmed;
    ChecksAgree(mac, row);
    var made, expected := Payload(sealed.tenant, sealed.folder, sealed.policy), Payload(row.tenant, row.folder, row.policy);
    assert TrimSpace(mac(made)) == mac(made);
    if mac(made) == mac(expected) {
      PayloadIsInjective(sealed.tenant, sealed.folder, sealed.policy, row.tenant, row.folder, row.policy);
    }
  }

  // A row sealed by one check passes every later one unchanged.
  lemma BackfilledRowKeepsPassing(mac: Mac, row: Row)
    requires Ideal(mac) && PolicyOk(row.policy) && (row.seal == None || row.seal == Some(""))
    ensures var first := ArchiveCheck(mac, row);
      && first.Sealed? && first.row.seal == Some(first.seal)
      && AccessCheck(mac, row) == Accepted(first.row)
      && AccessCheck(mac, first.row) == Accepted(first.row) && ArchiveCheck(mac, first.row) == first
  {
    hide Payload, Trimmed;
    ChecksAgree(mac, row);
    var first := ArchiveCheck(mac, row);
    assert TrimSpace("") == "";
    var made := mac(Payload(row.tenant, row.folder, row.policy));
    assert TrimSpace(made) == made;
    ChecksAgree(mac, first.row);
  }
}
