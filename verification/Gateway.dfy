/** Shares from the Stratum connection to the queue: what a submission adds to a run, and the
    submission every stored share goes back to. */
module Gateway {
  import opened Base
  import opened Progress
  import opened AccessModel
  import opened AccessInvariant
  import opened AccessRuns
  import opened Target
  import Header
  import Hex
  import Text
  import Version
  import AccessPrompt
  import AccessService

  // The state of an authorised connection with work; `job` is the job the work was built for.
  datatype Connection = Connection(tenant: Id, worker: Id, name: string, job: Id, work: Header.Work, mask: string, rolling: bool)

  // The parameters of mining.submit as submitShare reads them.
  datatype Submission = Submission(worker: string, stratumJob: string, extranonce2: string, ntime: string, nonce: string, version: string)

  // paramString, for parameters in their printed form; a missing one is empty.
  function Param(params: seq<string>, index: nat): string {
    if index < |params| then Text.TrimSpace(params[index]) else ""
  }

  function Parameters(params: seq<string>): (s: Submission)
    ensures TrimmedTexts(s)
  {
    Submission(Param(params, 0), Param(params, 1), Param(params, 2), Param(params, 3), Param(params, 4), Param(params, 5))
  }

  predicate TrimmedTexts(s: Submission) {
    && Text.TrimSpace(s.worker) == s.worker && Text.TrimSpace(s.stratumJob) == s.stratumJob
    && Text.TrimSpace(s.extranonce2) == s.extranonce2 && Text.TrimSpace(s.ntime) == s.ntime
    && Text.TrimSpace(s.nonce) == s.nonce && Text.TrimSpace(s.version) == s.version
  }

  // The seed of a job's work: the hash of its id and start time.
  type Seeds = Id -> seq<Hex.Byte>

  // buildWork, for a policy that passed validation; an extranonce1 has four random bytes.
  predicate BuiltFrom(c: Connection, seed: seq<Hex.Byte>, plain: string, clock: string, extranonce1: string, difficulty: real) {
    && |seed| == 32 && DifficultyOk(difficulty) && Hex.Decode(extranonce1).Some? && |Hex.Decode(extranonce1).value| == 4
    && Header.BuildWork(plain, seed, clock, extranonce1, difficulty, 4) == Ok(c.work)
  }

  ghost predicate Built(seedOf: Seeds, c: Connection) {
    exists plain, clock, extranonce1, difficulty :: BuiltFrom(c, seedOf(c.job), plain, clock, extranonce1, difficulty)
  }

  // The version of the header: that of the work, unless the miner rolled it.
  function VersionOf(c: Connection, s: Submission): Result<string, Version.VersionError> {
    if s.version == "" then Ok(c.work.version) else Version.EffectiveVersion(c.work.version, s.version, c.mask, c.rolling)
  }

  // submitShare: the request of the queue that a submission comes to.
  function EventOf(sha256: Header.Hash, c: Connection, s: Submission): Event {
    var version := VersionOf(c, s);
    if version.Err? then SubmitRefused(c.tenant, c.job, c.worker)
    else
      var verdict := Header.VerifyShare(sha256, c.work, s.stratumJob, s.extranonce2, s.ntime, s.nonce, version.value);
      Submit(c.tenant, c.job, c.worker, c.work.workTH, verdict.Accepted? && (s.worker == "" || s.worker == c.name))
  }

  // The submission comes to a valid share.
  predicate ValidShare(sha256: Header.Hash, c: Connection, s: Submission) {
    var e := EventOf(sha256, c, s);
    e.Submit? && e.valid
  }

  /** submitShare: what it stores and reconciles is the request of its submission, and it answers yes
      exactly to a valid share for the job being served. */
  method SubmitShare(store: AccessService.Store, sha256: Header.Hash, c: Connection, params: seq<string>) returns (accepted: bool)
    requires store.Valid() && 0.0 <= c.work.workTH
    modifies store`jobs, store`sessions, store`nextSession, store`shares
    ensures store.Valid() && store.View() == Step(old(store.View()), EventOf(sha256, c, Parameters(params)), store.clock)
    ensures accepted <==> ValidShare(sha256, c, Parameters(params)) && old(IsGatewayJob(store.View(), c.job))
  {
    hide Inv, Step, IsGatewayJob, Header.VerifyShare, Version.EffectiveVersion, Text.TrimSpace;
    var worker, stratumJob, extranonce2 := Param(params, 0), Param(params, 1), Param(params, 2);
    var ntime, nonce, submittedVersion := Param(params, 3), Param(params, 4), Param(params, 5);
    var versionHex := c.work.version;
    if submittedVersion != "" {
      var effective := Version.EffectiveVersion(c.work.version, submittedVersion, c.mask, c.rolling);
      if effective.Err? {
        var _ := store.SubmitShare(c.tenant, c.job, c.worker, c.work.workTH, false, false);
        return false;
      }
      versionHex := effective.value;
    }
    if worker == "" {
      worker := c.name;
    }
    var verdict := Header.VerifyShare(sha256, c.work, stratumJob, extranonce2, ntime, nonce, versionHex);
    var valid := verdict.Accepted? && worker == c.name;
    var stored := store.SubmitShare(c.tenant, c.job, c.worker, c.work.workTH, true, valid);
    accepted := stored && valid;
  }

  /** Since its parameters are trimmed, a submission to work the gateway built is never refused for
      its coinbase, nor for its header or target. */
  lemma TrimmedMeetsNoCoinbaseError(sha256: Header.Hash, seedOf: Seeds, c: Connection, s: Submission)
    requires Header.Is32(sha256) && Built(seedOf, c) && TrimmedTexts(s) && VersionOf(c, s).Ok?
    ensures var verdict := Header.VerifyShare(sha256, c.work, s.stratumJob, s.extranonce2, s.ntime, s.nonce, VersionOf(c, s).value);
      verdict.Rejected? ==> !verdict.reason.InvalidCoinbase? && !verdict.reason.InvalidHeader? && !verdict.reason.InvalidTarget?
  {
    hide Header.VerifyShare, Header.TextsOk, Header.DoubleHash, Hex.FromLE, TargetForDifficulty, VersionOf, Hex.Decode, Header.Is32,
         Hex.Encode, DifficultyOk, Header.BuildWork, Header.SubmittedHeader, Text.TrimSpace;
    var plain, clock, extranonce1, difficulty :| BuiltFrom(c, seedOf(c.job), plain, clock, extranonce1, difficulty);
    var version := VersionOf(c, s).value;
    Header.AcceptedIff(sha256, plain, seedOf(c.job), clock, extranonce1, difficulty, s.stratumJob, s.extranonce2, s.ntime, s.nonce, version);
    if !Header.TextsOk(c.work, s.stratumJob, s.extranonce2, s.ntime, s.nonce, version) {
      RefusedForItsTexts(sha256, c.work, s, version);
    }
  }

  lemma RefusedForItsTexts(sha256: Header.Hash, work: Header.Work, s: Submission, version: string)
    requires Text.TrimSpace(s.extranonce2) == s.extranonce2
    requires !Header.TextsOk(work, s.stratumJob, s.extranonce2, s.ntime, s.nonce, version)
    ensures var verdict := Header.VerifyShare(sha256, work, s.stratumJob, s.extranonce2, s.ntime, s.nonce, version);
      && verdict.Rejected?
      && !verdict.reason.InvalidCoinbase? && !verdict.reason.InvalidHeader? && !verdict.reason.InvalidTarget?
  {
    hide Hex.Decode, Hex.Encode, Header.HexLen, Header.HeaderBytes, Header.DoubleHash, Hex.FromBE, Hex.Lower, Hex.HexNumber, Text.TrimSpace;
  }

  // ------------------------------------------------------------- what a share proves

  // A header of 80 bytes, built on the seed, whose double hash meets the target of the difficulty.
  predicate Proves(sha256: Header.Hash, seed: seq<Hex.Byte>, header: seq<Hex.Byte>, difficulty: real) {
    var target := TargetForDifficulty(difficulty);
    && DifficultyOk(difficulty) && target.Ok?
    && |header| == 80 && Header.ReadHeader(header).previous == seed
    && Hex.FromLE(Header.DoubleHash(sha256, header)) <= target.value
  }

  // The share is credited for this header, built on the seed of its own job.
  ghost predicate BackedBy(sha256: Header.Hash, seedOf: Seeds, s: Share, header: seq<Hex.Byte>) {
    exists difficulty :: Proves(sha256, seedOf(s.job), header, difficulty) && s.work == CreditedTH(difficulty)
  }

  ghost predicate Backed(sha256: Header.Hash, seedOf: Seeds, s: Share) {
    exists header :: BackedBy(sha256, seedOf, s, header)
  }

  ghost predicate AllBacked(sha256: Header.Hash, seedOf: Seeds, shares: seq<Share>) {
    forall i :: 0 <= i < |shares| && shares[i].valid ==> Backed(sha256, seedOf, shares[i])
  }

  // The header a submission makes; nothing if its version bits are refused.
  function HeaderOf(sha256: Header.Hash, seedOf: Seeds, c: Connection, s: Submission): seq<Hex.Byte> {
    if VersionOf(c, s).Err? || |seedOf(c.job)| % 4 != 0 then []
    else Header.SubmittedHeader(sha256, seedOf(c.job), c.work.extranonce1, s.extranonce2, s.ntime, s.nonce, VersionOf(c, s).value)
  }

  // A valid submission has its texts in order, and its share is backed by its header.
  lemma AcceptedIsBacked(sha256: Header.Hash, seedOf: Seeds, c: Connection, s: Submission, now: int)
    requires Header.Is32(sha256) && Built(seedOf, c) && ValidShare(sha256, c, s)
    ensures VersionOf(c, s).Ok?
    ensures Header.TextsOk(c.work, s.stratumJob, s.extranonce2, s.ntime, s.nonce, VersionOf(c, s).value)
    ensures var e := EventOf(sha256, c, s);
      BackedBy(sha256, seedOf, Share(e.tenant, e.job, Some(e.worker), e.credited, true, now), HeaderOf(sha256, seedOf, c, s))
  {
    hide Header.SubmittedHeader, Header.VerifyShare, Header.TextsOk, Header.ReadHeader, Header.DoubleHash, Hex.FromLE, TargetForDifficulty,
         CreditedTH, VersionOf, Hex.Decode, Header.Is32, Hex.Encode, DifficultyOk, Header.BuildWork;
    var plain, clock, extranonce1, difficulty :| BuiltFrom(c, seedOf(c.job), plain, clock, extranonce1, difficulty);
    var seed, version := seedOf(c.job), VersionOf(c, s).value;
    Header.AcceptedIff(sha256, plain, seed, clock, extranonce1, difficulty, s.stratumJob, s.extranonce2, s.ntime, s.nonce, version);
    WorkIsBuilt(plain, seed, clock, extranonce1, difficulty);
    Header.SubmittedNamesSeed(sha256, c.work, seed, extranonce1, s.stratumJob, s.extranonce2, s.ntime, s.nonce, version);
    var header := Header.SubmittedHeader(sha256, seed, extranonce1, s.extranonce2, s.ntime, s.nonce, version);
    assert Proves(sha256, seed, header, difficulty);
  }

  lemma WorkIsBuilt(plain: string, seed: seq<Hex.Byte>, clock: string, extranonce1: string, difficulty: real)
    requires Header.BuildWork(plain, seed, clock, extranonce1, difficulty, 4).Ok?
    ensures var work := Header.BuildWork(plain, seed, clock, extranonce1, difficulty, 4).value;
      work.workTH == CreditedTH(difficulty) && work.extranonce1 == extranonce1
  {
    hide CreditedTH;
  }

  // -------------------------------------------------------- runs fed by the gateway

  // What was sent: the connection as it stood, and the parameters of its mining.submit.
  datatype Sent = Sent(c: Connection, params: seq<string>)
  {
    function Event(sha256: Header.Hash): Event {
      EventOf(sha256, c, Parameters(params))
    }

    function Header(sha256: Header.Hash, seedOf: Seeds): seq<Hex.Byte> {
      HeaderOf(sha256, seedOf, c, Parameters(params))
    }
  }

  // Every share of the run comes from the gateway: submission i was sent for step i.
  ghost predicate FedBy(sha256: Header.Hash, seedOf: Seeds, steps: seq<Timed>, sent: seq<Sent>) {
    && |sent| == |steps|
    && forall i :: 0 <= i < |steps| && steps[i].e.Submit? ==> Built(seedOf, sent[i].c) && steps[i].e == sent[i].Event(sha256)
  }

  // The row a step stores.
  predicate IsRowOf(s: Share, step: Timed) {
    match step.e
    case Submit(t, job, worker, credited, valid) => s == Share(t, job, Some(worker), if valid then credited else 0.0, valid, step.now)
    case SubmitRefused(t, job, worker) => s == Share(t, job, Some(worker), 0.0, false, step.now)
    case _ => false
  }

  // For every share, the step that stored it; the shares stand in the order of their steps.
  predicate Explained(steps: seq<Timed>, shares: seq<Share>, at: seq<nat>) {
    && |at| == |shares|
    && (forall i :: 0 <= i < |at| ==> at[i] < |steps| && IsRowOf(shares[i], steps[at[i]]))
    && forall i, j :: 0 <= i < j < |at| ==> at[i] < at[j]
  }

  // The entries whose shares stay when only the shares of these jobs do.
  function Kept(shares: seq<Share>, at: seq<nat>, jobs: set<Id>): seq<nat>
    requires |at| == |shares|
  {
    if shares == [] then []
    else
      var n := |shares| - 1;
      Kept(shares[..n], at[..n], jobs) + if shares[n].job in jobs then [at[n]] else []
  }

  // For every share in the tables after a run, the step that stored it.
  ghost function Origins(steps: seq<Timed>): (at: seq<nat>)
    ensures Explained(steps, Run(EMPTY, steps).shares, at)
  {
    if steps == [] then []
    else
      var before, last := steps[..|steps| - 1], steps[|steps| - 1];
      var db, after := Run(EMPTY, before), Run(EMPTY, steps);
      var at := Origins(before);
      StepRows(db, last.e, last.now);
      OlderStepsExplain(before, steps, db.shares, at);
      if last.e.RemoveUser? && last.e.user in db.users then
        KeptAreExplained(steps, db.shares, at, after.jobs.Keys);
        Kept(db.shares, at, after.jobs.Keys)
      else if |after.shares| == |db.shares| then at
      else at + [|before|]
  }

  lemma OlderStepsExplain(before: seq<Timed>, steps: seq<Timed>, shares: seq<Share>, at: seq<nat>)
    requires Explained(before, shares, at) && before <= steps
    ensures Explained(steps, shares, at) && forall i :: 0 <= i < |at| ==> at[i] < |before|
  {
    hide IsRowOf;
    assert forall i :: 0 <= i < |before| ==> before[i] == steps[i];
  }

  lemma {:induction false} KeptAreExplained(steps: seq<Timed>, shares: seq<Share>, at: seq<nat>, jobs: set<Id>)
    requires Explained(steps, shares, at)
    ensures Explained(steps, SharesOfJobs(shares, jobs), Kept(shares, at, jobs))
    ensures forall x :: x in Kept(shares, at, jobs) ==> x in at
  {
    hide IsRowOf;
    if shares != [] {
      var n := |shares| - 1;
      KeptAreExplained(steps, shares[..n], at[..n], jobs);
      var rest := Kept(shares[..n], at[..n], jobs);
      forall i | 0 <= i < |rest| ensures rest[i] < at[n] {
        assert rest[i] in at[..n];
      }
    }
  }

  // What a step does to the shares: it appends its row, drops those of deleted jobs, or keeps them.
  lemma StepRows(db: Db, e: Event, now: int)
    ensures var after := Step(db, e, now);
      if e.RemoveUser? && e.user in db.users then after.shares == SharesOfJobs(db.shares, after.jobs.Keys)
      else after.shares == db.shares || (|after.shares| == |db.shares| + 1 && after.shares[..|db.shares|] == db.shares
                                         && IsRowOf(after.shares[|db.shares|], At(e, now)))
  {
    hide Reconcile, IsGatewayJob, Step, SharesOfJobs;
    if AccessPrompt.NoShare(e) {
      AccessPrompt.SharesKept(db, e, now);
    } else if e.RemoveUser? {
      AccessPrompt.IsDeletion(db, e, now);
      DeletionRows(db, e.user, now);
    } else {
      SubmitRows(db, e, now);
    }
  }

  lemma DeletionRows(db: Db, user: Id, now: int)
    ensures var after := DeleteUser(db, user, now);
      after.shares == if user in db.users then SharesOfJobs(db.shares, after.jobs.Keys) else db.shares
  {
    hide FinishJobs, FinishSessions, OldestUnblocked, SharesOfJobs;
    if user in db.users {
      var t := db.users[user].tenant;
      var bare := RemoveUserRows(RevokeAccess(db, t, Some(user), None, now, UserDeleted), t, user);
      assert DeleteUser(db, user, now).jobs.Keys == bare.jobs.Keys;
    }
  }

  lemma SubmitRows(db: Db, e: Event, now: int)
    requires e.Submit? || e.SubmitRefused?
    ensures var after := Step(db, e, now);
      after.shares == db.shares || (|after.shares| == |db.shares| + 1 && after.shares[..|db.shares|] == db.shares
                                    && IsRowOf(after.shares[|db.shares|], At(e, now)))
  {
    hide Reconcile, IsGatewayJob;
  }

  /** In a run fed by the gateway every share that counts is backed by the header of the submission
      it was stored for, and no two shares by the same submission. */
  lemma RunsKeepBacked(sha256: Header.Hash, seedOf: Seeds, steps: seq<Timed>, sent: seq<Sent>)
    requires Header.Is32(sha256) && FedBy(sha256, seedOf, steps, sent)
    ensures var shares, at := Run(EMPTY, steps).shares, Origins(steps);
      && Explained(steps, shares, at) && AllBacked(sha256, seedOf, shares)
      && forall i :: 0 <= i < |shares| && shares[i].valid ==> BackedBy(sha256, seedOf, shares[i], sent[at[i]].Header(sha256, seedOf))
  {
    hide Run, BackedBy, EventOf, HeaderOf, Built, Header.Is32, Parameters, Origins;
    var shares, at := Run(EMPTY, steps).shares, Origins(steps);
    forall i | 0 <= i < |shares| && shares[i].valid ensures BackedBy(sha256, seedOf, shares[i], sent[at[i]].Header(sha256, seedOf)) {
      var origin := sent[at[i]];
      assert IsRowOf(shares[i], steps[at[i]]);
      AcceptedIsBacked(sha256, seedOf, origin.c, Parameters(origin.params), steps[at[i]].now);
    }
  }
}
