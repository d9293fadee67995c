/** Whole runs of the access queue: any sequence of requests, shares and administrative changes,
    of any tenants, at times that never go back. */
module AccessRuns {
  import opened Base
  import opened Progress
  import opened AccessModel
  import opened AccessInvariant
  import opened AccessReconcile
  import opened AccessHandlers

  datatype Event =
    | Refresh(tenant: Id)
    | Create(tenant: Id, user: Id, folder: Id, ttlSetting: int, sealOk: bool, id: Id)
    | Cancel(tenant: Id, user: Id, id: Id)
    | Close(tenant: Id, user: Id, sid: Id)
    | AdminClose(tenant: Id, sid: Id)
    | SetPermission(tenant: Id, user: Id, folder: Id, unlock: bool, expiresAt: Option<int>)
    | RemoveFolder(tenant: Id, folder: Id)
    | RemoveUser(user: Id)
    | Submit(tenant: Id, job: Id, worker: Id, credited: real, valid: bool)
    | SubmitRefused(tenant: Id, job: Id, worker: Id)
    | AddUser(user: Id, row: User)
    | AddFolder(folder: Id, tenant: Id, policy: Policy)
    | Block(user: Id, blocked: bool)

  // One request at one instant. The access handlers reconcile first; the other writers do not.
  ghost function Step(db: Db, e: Event, now: int): Db {
    match e
    case Refresh(t) => Reconcile(db, t, now)
    case Create(t, user, folder, ttl, sealOk, id) =>
      var ready := Reconcile(db, t, now);
      if id in db.issued || user !in db.users || db.users[user].tenant != t then ready
      else CreateJob(ready, t, user, folder, ttl, sealOk, id, now).0
    case Cancel(t, user, id) => CancelJob(Reconcile(db, t, now), t, user, id, now).0
    case Close(t, user, sid) => CloseSession(Reconcile(db, t, now), t, user, sid, now).0
    case AdminClose(t, sid) => CloseSessionAsAdmin(Reconcile(db, t, now), t, sid, now).0
    case SetPermission(t, user, folder, unlock, expiresAt) => UpdatePermission(db, t, user, folder, unlock, expiresAt, now)
    case RemoveFolder(t, folder) => DeleteFolder(db, t, folder, now)
    case RemoveUser(user) => DeleteUser(db, user, now)
    case Submit(t, job, worker, credited, valid) => SubmitShare(db, t, job, worker, credited, valid, now)
    case SubmitRefused(t, job, worker) => StoreRefused(db, t, job, worker, now)
    case AddUser(user, row) => if user in db.users then db else db.(users := db.users[user := row])
    case AddFolder(folder, t, policy) =>
      if folder in db.folders || !PolicyOk(policy) then db
      else db.(folders := db.folders[folder := Folder(t, true, policy)])
    case Block(user, blocked) =>
      if user !in db.users then db else db.(users := db.users[user := db.users[user].(blocked := blocked)])
  }

  datatype Timed = At(e: Event, now: int)

  ghost function Run(db: Db, steps: seq<Timed>): Db {
    if steps == [] then db
    else
      var last := steps[|steps| - 1];
      Step(Run(db, steps[..|steps| - 1]), last.e, last.now)
  }

  // Time never goes back.
  ghost predicate Monotone(steps: seq<Timed>) {
    forall i, j :: 0 <= i <= j < |steps| ==> steps[i].now <= steps[j].now
  }

  function LastTime(steps: seq<Timed>, start: int): int {
    if steps == [] then start else steps[|steps| - 1].now
  }

  lemma RunNext(steps: seq<Timed>, k: nat)
    requires k < |steps|
    ensures Run(EMPTY, steps[..k + 1]) == Step(Run(EMPTY, steps[..k]), steps[k].e, steps[k].now)
  {
    hide Step;
    assert steps[..k + 1][..k] == steps[..k];
  }

  lemma MonotonePrefix(steps: seq<Timed>, k: nat)
    requires Monotone(steps) && k <= |steps|
    ensures Monotone(steps[..k])
  {
    assert forall i :: 0 <= i < k ==> steps[..k][i] == steps[i];
  }

  // --------------------------------------------------------- the invariant holds

  lemma AdditionKeepsInv(db: Db, db': Db, now: int)
    requires Inv(db, now)
    requires OnlyAdds(db, db')
    ensures Inv(db', now)
  {
    hide JobsOk, SharesOk, SessionOk, OneSessionPerJob, SuccessOpened, Fifo, OneRunning, OneActive, Exclusive, Drained, PolicyOk;
    assert forall t, u, f :: Granted(db, t, u, f) ==> Granted(db', t, u, f);
    assert TablesOk(db');
    SameJobsKeepDrained(db, db');
  }

  lemma StepKeepsInv(db: Db, e: Event, now: int)
    requires Inv(db, now)
    ensures Inv(Step(db, e, now), now)
  {
    hide Inv, Reconcile, CancelJob, CreateJob, CloseSession, CloseSessionAsAdmin, UpdatePermission, DeleteFolder,
         DeleteUser, SubmitShare, StoreRefused;
    match e
    case Refresh(t) => ReconcileKeepsInv(db, t, now);
    case Create(t, _, _, _, _, _) =>
      ReconcileKeepsInv(db, t, now);
      CreateAfterReconcile(db, e, now);
    case Cancel(t, user, id) =>
      ReconcileKeepsInv(db, t, now);
      CancelKeepsInv(Reconcile(db, t, now), t, user, id, now);
    case Close(t, _, _) =>
      ReconcileKeepsInv(db, t, now);
      CloseAfterReconcile(db, e, now);
    case AdminClose(t, _) =>
      ReconcileKeepsInv(db, t, now);
      CloseAfterReconcile(db, e, now);
    case SetPermission(t, user, folder, unlock, expiresAt) => UpdatePermissionKeepsInv(db, t, user, folder, unlock, expiresAt, now);
    case RemoveFolder(t, folder) => DeleteFolderKeepsInv(db, t, folder, now);
    case RemoveUser(user) => DeleteUserKeepsInv(db, user, now);
    case Submit(t, job, worker, credited, valid) => SubmitKeepsInv(db, t, job, worker, credited, valid, now);
    case SubmitRefused(t, job, worker) => StoreRefusedKeepsInv(db, t, job, worker, now);
    case _ => AdditionStepKeepsInv(db, e, now);
  }

  lemma CreateAfterReconcile(db: Db, e: Event, now: int)
    requires e.Create? && Inv(Reconcile(db, e.tenant, now), now)
    ensures Inv(Step(db, e, now), now)
  {
    var ready := Reconcile(db, e.tenant, now);
    if e.id !in db.issued && e.user in db.users && db.users[e.user].tenant == e.tenant {
      CreateKeepsInv(ready, e.tenant, e.user, e.folder, e.ttlSetting, e.sealOk, e.id, now);
    }
  }

  lemma CloseAfterReconcile(db: Db, e: Event, now: int)
    requires (e.Close? || e.AdminClose?) && Inv(Reconcile(db, e.tenant, now), now)
    ensures Inv(Step(db, e, now), now)
  {
    hide Inv, Reconcile, Promote, FinishSessions;
    ClosingKeepsInv(Reconcile(db, e.tenant, now), e.tenant, e.sid, now, if e.Close? then ClientClosed else AdminClosed);
  }

  lemma AdditionStepKeepsInv(db: Db, e: Event, now: int)
    requires Inv(db, now) && (e.AddUser? || e.AddFolder? || e.Block?)
    ensures Inv(Step(db, e, now), now)
  {
    AdditionShape(db, e, now);
    AdditionKeepsInv(db, Step(db, e, now), now);
  }

  lemma AdditionShape(db: Db, e: Event, now: int)
    requires TablesOk(db) && (e.AddUser? || e.AddFolder? || e.Block?)
    ensures OnlyAdds(db, Step(db, e, now))
  {
    hide OnlyAdds, Step, TablesOk;
    match e
    case AddUser(user, row) => UserShape(db, user, row, now);
    case AddFolder(folder, t, policy) => FolderShape(db, folder, t, policy, now);
    case Block(user, blocked) => BlockShape(db, user, blocked, now);
  }

  // Users and folders come; those there keep their tenants and folders.
  ghost predicate OnlyAdds(db: Db, db': Db) {
    && db' == db.(users := db'.users, folders := db'.folders)
    && (forall u :: u in db.users ==> u in db'.users && db'.users[u].tenant == db.users[u].tenant)
    && (forall f :: f in db.folders ==> f in db'.folders && db'.folders[f] == db.folders[f])
    && (forall f :: f in db'.folders ==> PolicyOk(db'.folders[f].policy))
  }

  lemma UserShape(db: Db, user: Id, row: User, now: int)
    requires TablesOk(db)
    ensures OnlyAdds(db, Step(db, AddUser(user, row), now))
  {
  }

  lemma FolderShape(db: Db, folder: Id, t: Id, policy: Policy, now: int)
    requires TablesOk(db)
    ensures OnlyAdds(db, Step(db, AddFolder(folder, t, policy), now))
  {
  }

  lemma BlockShape(db: Db, user: Id, blocked: bool, now: int)
    requires TablesOk(db)
    ensures OnlyAdds(db, Step(db, Block(user, blocked), now))
  {
  }

  /** Every state of every run keeps the invariant, up to the next request as the clock runs on. */
  lemma {:induction false} RunKeepsInv(steps: seq<Timed>, now: int)
    requires Monotone(steps) && (steps == [] || LastTime(steps, now) <= now)
    ensures Inv(Run(EMPTY, steps), now)
  {
    if steps != [] {
      var before := steps[..|steps| - 1];
      var last := steps[|steps| - 1];
      assert forall i :: 0 <= i < |before| ==> before[i] == steps[i];
      RunKeepsInv(before, last.now);
      StepKeepsInv(Run(EMPTY, before), last.e, last.now);
      ClockKeepsInv(Run(EMPTY, steps), last.now, now);
    }
  }

  // -------------------------------------------------------- mutual exclusion

  ghost predicate NothingOpen(db: Db, t: Id) {
    forall id :: id in db.jobs && db.jobs[id].tenant == t ==> !Open(db.jobs[id])
  }

  /** At every clock value a tenant has either one unexpired session and no queued or running job,
      or no such session, at most one running job, and queued jobs only behind a running one. */
  ghost predicate MutuallyExclusive(db: Db, t: Id, now: int) {
    || ((exists sid :: LiveIn(db, t, sid, now) && forall o :: LiveIn(db, t, o, now) ==> o == sid) && NothingOpen(db, t))
    || ((forall sid :: !LiveIn(db, t, sid, now))
        && (forall a, b :: RunningIn(db, t, a) && RunningIn(db, t, b) ==> a == b)
        && ((exists q :: QueuedIn(db, t, q)) ==> exists r :: RunningIn(db, t, r)))
  }

  lemma RunsAreMutuallyExclusive(steps: seq<Timed>, t: Id, now: int)
    requires Monotone(steps) && (steps == [] || LastTime(steps, now) <= now)
    ensures MutuallyExclusive(Run(EMPTY, steps), t, now)
  {
    RunKeepsInv(steps, now);
    InvMeansExclusive(Run(EMPTY, steps), t, now);
  }

  lemma InvMeansExclusive(db: Db, t: Id, now: int)
    requires Inv(db, now)
    ensures MutuallyExclusive(db, t, now)
  {
    assert DrainedIn(db, t);
    if sid :| LiveIn(db, t, sid, now) {
      forall o | LiveIn(db, t, o, now)
        ensures o == sid
      {
        assert BothActive(db.sessions[o], db.sessions[sid]);
      }
      forall id | id in db.jobs && db.jobs[id].tenant == t
        ensures !Open(db.jobs[id])
      {
        assert Apart(db.jobs[id], db.sessions[sid], now);
      }
      assert NothingOpen(db, t);
    } else {
      forall a, b | RunningIn(db, t, a) && RunningIn(db, t, b)
        ensures a == b
      {
        assert BothRun(db.jobs[a], db.jobs[b]);
      }
    }
  }

  // --------------------------------------------------------- sound successes

  // One attempt window, begun by the time the session opened, holds the accepted hashrate for its length.
  ghost predicate ReachesRequired(db: Db, s: Session, k: nat)
    requires s.job in db.jobs
  {
    var j := db.jobs[s.job];
    && WindowSuffices(j, s.job, db.shares, k)
    && JobSpan(j, s.job).Start(k) <= s.openedAt
  }

  predicate InTime(j: Job, s: Session) {
    j.startedAt.Some? && j.startedAt.value <= s.openedAt < j.startedAt.value + j.policy.window * j.policy.attempts * SECOND
  }

  /** What a session proves about the work that opened it. */
  ghost predicate SoundSession(db: Db, sid: Id)
    requires sid in db.sessions
  {
    var s := db.sessions[sid];
    && s.job in db.jobs
    && var j := db.jobs[s.job];
    && j.status == Succeeded && (j.tenant, j.user, j.folder) == (s.tenant, s.user, s.folder)
    && InTime(j, s)
    && (exists k: nat :: ReachesRequired(db, s, k))
    && j.observed.Some? && j.policy.required * (1.0 - j.policy.tolerance / 100.0) <= j.observed.value
    && forall other :: other in db.sessions && SameJob(db.sessions[other], s) ==> other == sid
  }

  lemma {:induction false} PositiveWorkHasShare(shares: seq<Share>, span: Span, from: int, to: int)
    requires WorkBetween(shares, span, from, to) > 0.0
    ensures exists i :: 0 <= i < |shares| && span.InSpan(shares[i], from, to)
  {
    var n := |shares| - 1;
    if span.InSpan(shares[n], from, to) {
    } else {
      PositiveWorkHasShare(shares[..n], span, from, to);
      var i :| 0 <= i < n && span.InSpan(shares[..n][i], from, to);
      assert span.InSpan(shares[i], from, to);
    }
  }

  lemma QuotientBound(work: real, window: real, accepted: real)
    requires 0.0 < window && accepted * window <= work
    ensures accepted <= work / window
  {
    assert (work / window) * window == work;
    MulReflects(window, accepted, work / window);
  }

  // The window that reached the best work had begun when the session opened.
  lemma WindowOfSession(db: Db, s: Session, now: int) returns (k: nat)
    requires SharesOk(db.shares, db.jobs, now) && s.job in db.jobs && Earned(db.jobs[s.job], db.shares, s)
    requires 0.0 < db.jobs[s.job].requiredWork && 0 < db.jobs[s.job].policy.attempts
    ensures var span := JobSpan(db.jobs[s.job], s.job);
            && k < db.jobs[s.job].policy.attempts
            && span.startedAt <= s.openedAt
            && span.Start(k) <= s.openedAt
            && db.jobs[s.job].requiredWork <= WindowWork(db.shares, span, k)
  {
    var span := JobSpan(db.jobs[s.job], s.job);
    var n := db.jobs[s.job].policy.attempts;
    BestWorkIsMaximum(db.shares, span, n);
    k :| k < n && WindowWork(db.shares, span, k) == BestWork(db.shares, span, n);
    PositiveWorkHasShare(db.shares, span, span.Start(k), span.Start(k) + span.window * SECOND);
    var i :| 0 <= i < |db.shares| && span.InSpan(db.shares[i], span.Start(k), span.Start(k) + span.window * SECOND);
    assert ShareOk(db.shares[i], db.jobs);
  }

  lemma SessionsAreSound(db: Db, sid: Id, now: int)
    requires Inv(db, now) && sid in db.sessions
    ensures SoundSession(db, sid)
  {
    var s := db.sessions[sid];
    assert SessionOk(db.jobs, db.shares, s);
    assert JobOk(db.jobs[s.job], now);
    EarnedIsSound(db, sid, now);
  }

  lemma EarnedIsSound(db: Db, sid: Id, now: int)
    requires sid in db.sessions && SessionOk(db.jobs, db.shares, db.sessions[sid]) && JobOk(db.jobs[db.sessions[sid].job], now)
    requires SharesOk(db.shares, db.jobs, now) && OneSessionPerJob(db.sessions)
    ensures SoundSession(db, sid)
  {
    hide Enough, JobWork, BestWork, WorkBetween, SharesOk;
    var s := db.sessions[sid];
    var k := WindowOfSession(db, s, now);
    SufficesIff(db.jobs[s.job], s.job, db.shares, k);
    assert ReachesRequired(db, s, k);
    ObservedReachesAccepted(db.jobs[s.job], s, db.shares);
    EarnedInTime(db.jobs[s.job], db.shares, s);
    assert forall other :: other in db.sessions && SameJob(db.sessions[other], s) ==> other == sid;
  }

  lemma EarnedInTime(j: Job, shares: seq<Share>, s: Session)
    requires Earned(j, shares, s) && j.timeout == j.policy.window * j.policy.attempts && j.startedAt.value <= s.openedAt
    ensures InTime(j, s)
  {
  }

  lemma ObservedReachesAccepted(j: Job, s: Session, shares: seq<Share>)
    requires Earned(j, shares, s) && PolicyOk(j.policy) && j.requiredWork == RequiredWork(j.policy)
    ensures j.policy.required * (1.0 - j.policy.tolerance / 100.0) <= j.observed.value
  {
    QuotientBound(JobWork(j, s.job, shares), j.policy.window as real, Accepted(j.policy));
  }

  /** In every run, sessions and succeeded jobs correspond one to one, and each session was opened
      by its own job, in time, on a window of enough work. */
  lemma RunsSucceedSoundly(steps: seq<Timed>, now: int)
    requires Monotone(steps) && (steps == [] || LastTime(steps, now) <= now)
    ensures var db := Run(EMPTY, steps);
            && (forall sid :: sid in db.sessions ==> SoundSession(db, sid))
            && (forall id :: id in db.jobs && db.jobs[id].status == Succeeded ==> HasSession(db.sessions, id))
  {
    var db := Run(EMPTY, steps);
    RunKeepsInv(steps, now);
    forall sid | sid in db.sessions
      ensures SoundSession(db, sid)
    {
      SessionsAreSound(db, sid, now);
    }
  }

  // -------------------------------------------------------------------- grants

  /** In every run, whatever is open or active belongs to an existing user who may unlock the
      active folder it is for. */
  lemma RunsRespectGrants(steps: seq<Timed>, now: int)
    requires Monotone(steps) && (steps == [] || LastTime(steps, now) <= now)
    ensures GrantsOk(Run(EMPTY, steps))
  {
    RunKeepsInv(steps, now);
  }

  // ------------------------------------------------------------ no overtaking

  // A later row of the same job: a closed job never changes, a start time never moves.
  predicate Follows(j: Job, k: Job) {
    && (k.tenant, k.user, k.folder, k.createdAt) == (j.tenant, j.user, j.folder, j.createdAt)
    && (k.policy, k.requiredWork) == (j.policy, j.requiredWork)
    && (!Open(j) ==> k == j)
    && (j.startedAt.Some? ==> k.startedAt == j.startedAt)
  }

  // Job ids are never used twice, and every surviving job follows itself.
  ghost predicate Evolves(db: Db, db': Db) {
    && db.issued <= db'.issued
    && forall id :: id in db.issued && id in db'.jobs ==> id in db.jobs && Follows(db.jobs[id], db'.jobs[id])
  }

  lemma EvolvesComposes(a: Db, b: Db, c: Db)
    requires Evolves(a, b) && Evolves(b, c)
    ensures Evolves(a, c)
  {
    forall id | id in a.issued && id in c.jobs
      ensures id in a.jobs && Follows(a.jobs[id], c.jobs[id])
    {
      assert id in b.jobs && Follows(a.jobs[id], b.jobs[id]) && Follows(b.jobs[id], c.jobs[id]);
    }
  }

  lemma FinishEvolves(db: Db, ids: set<Id>, status: JobStatus, now: int, reason: Reason)
    requires AllOpen(db, ids) && (status == Canceled || status == TimedOut)
    requires db.jobs.Keys <= db.issued && JobsOk(db.jobs, now)
    ensures Evolves(db, db.(jobs := FinishJobs(db.jobs, ids, status, now, reason)))
  {
  }

  lemma PromoteEvolves(db: Db, t: Id, now: int)
    requires db.jobs.Keys <= db.issued && JobsOk(db.jobs, now)
    ensures Evolves(db, Promote(db, t, now))
  {
    OldestQueuedExists(db, t);
    if OldestQueued(db, t).Some? {
      assert JobOk(db.jobs[OldestQueued(db, t).value], now);
    }
  }

  lemma OpenEvolves(db: Db, id: Id, now: int)
    requires db.jobs.Keys <= db.issued && id in db.jobs && db.jobs[id].status == Running && db.jobs[id].policy.window > 0
    ensures Evolves(db, OpenSession(db, id, now))
  {
  }

  lemma ReconcileEvolves(db: Db, t: Id, now: int)
    requires Core(db, now)
    ensures Evolves(db, Reconcile(db, t, now))
  {
    var db1 := ExpireSessions(db, t, now);
    ExpireKeepsCore(db, t, now);
    TimeoutsEvolve(db1, t, now);
    var db2 := TimeoutJobs(db1, t, now);
    TimeoutPhase(db1, t, now);
    CompleteEvolves(db2, t, now);
    EvolvesComposes(db1, db2, CompleteRunning(db2, t, now));
    ReconcilePhases(db, t, now);
    SameJobsEvolve(db, db1, Reconcile(db, t, now));
  }

  lemma SameJobsEvolve(db: Db, db1: Db, db2: Db)
    requires db1.jobs == db.jobs && db1.issued == db.issued && Evolves(db1, db2)
    ensures Evolves(db, db2)
  {
  }

  lemma TimeoutsEvolve(db: Db, t: Id, now: int)
    requires Core(db, now)
    ensures Evolves(db, TimeoutJobs(db, t, now))
  {
    var db1 := TimeoutRows(db, t, now);
    TimeoutRowsKeepCore(db, t, now);
    FinishEvolves(db, OverdueJobs(db, t, now), TimedOut, now, TimeoutReached);
    PromoteEvolves(db1, t, now);
    EvolvesComposes(db, db1, Promote(db1, t, now));
  }

  lemma CompleteEvolves(db: Db, t: Id, now: int)
    requires Core(db, now)
    ensures Evolves(db, CompleteRunning(db, t, now))
  {
    if Completed(db, t, now).Some? {
      OpenEvolves(db, Completed(db, t, now).value, now);
    }
  }

  lemma RevokeThenPromoteEvolves(db: Db, db': Db, t: Id, user: Option<Id>, folder: Option<Id>, now: int, reason: Reason)
    requires Core(db, now) && JobsOk(db'.jobs, now) && db'.issued == db.issued
    requires forall id :: id in db'.jobs ==> id in db.jobs && db'.jobs[id] == RevokeAccess(db, t, user, folder, now, reason).jobs[id]
    ensures Evolves(db, db') && Evolves(db, PromoteUnblocked(db', t, now))
  {
    FinishEvolves(db, OpenJobsWhere(db, t, user, folder), Canceled, now, reason);
    PromotionsAgree(db', t, now);
    PromoteEvolves(db', t, now);
    EvolvesComposes(db, db', Promote(db', t, now));
  }

  lemma StepEvolves(db: Db, e: Event, now: int)
    requires Inv(db, now)
    ensures Evolves(db, Step(db, e, now))
  {
    hide JobsOk, SharesOk, GrantsOk, TablesOk, Earnings, Order, Drained, Evolves, Reconcile, CancelJob, CreateJob,
         CloseSession, CloseSessionAsAdmin, UpdatePermission, DeleteFolder, DeleteUser, SubmitShare, StoreRefused;
    match e
    case Refresh(t) => ReconcileEvolves(db, t, now);
    case Create(t, _, _, _, _, _) =>
      ReconcileEvolves(db, t, now);
      CreateEvolves(db, e, now);
    case Cancel(t, user, id) =>
      ReconcileEvolves(db, t, now);
      ReconcileKeepsInv(db, t, now);
      CancelEvolves(Reconcile(db, t, now), t, user, id, now);
      EvolvesComposes(db, Reconcile(db, t, now), Step(db, e, now));
    case Close(t, _, _) =>
      ReconcileEvolves(db, t, now);
      ReconcileKeepsInv(db, t, now);
      CloseEvolves(db, e, now);
    case AdminClose(t, _) =>
      ReconcileEvolves(db, t, now);
      ReconcileKeepsInv(db, t, now);
      CloseEvolves(db, e, now);
    case SetPermission(t, user, folder, unlock, expiresAt) => PermissionEvolves(db, t, user, folder, unlock, expiresAt, now);
    case RemoveFolder(t, folder) => FolderEvolves(db, t, folder, now);
    case RemoveUser(user) => UserEvolves(db, user, now);
    case Submit(_, _, _, _, _) => SubmitEvolves(db, e, now);
    case SubmitRefused(t, job, worker) => RefusedEvolves(db, t, job, worker, now);
    case _ => AdditionEvolves(db, e, now);
  }

  lemma AdditionEvolves(db: Db, e: Event, now: int)
    requires TablesOk(db) && (e.AddUser? || e.AddFolder? || e.Block?)
    ensures Evolves(db, Step(db, e, now))
  {
    hide Step;
    AdditionShape(db, e, now);
  }

  lemma SubmitEvolves(db: Db, e: Event, now: int)
    requires Inv(db, now) && e.Submit?
    ensures Evolves(db, Step(db, e, now))
  {
    hide Inv, Reconcile, Evolves;
    if IsGatewayJob(db, e.job) && e.credited >= 0.0 {
      var s := Share(e.tenant, e.job, Some(e.worker), if e.valid then e.credited else 0.0, e.valid, now);
      AppendShareKeepsInv(db, s, now);
      StoredEvolves(db, s, e.tenant, now);
    } else {
      EvolvesItself(db);
    }
  }

  lemma RefusedEvolves(db: Db, t: Id, job: Id, worker: Id, now: int)
    requires TablesOk(db)
    ensures Evolves(db, StoreRefused(db, t, job, worker, now))
  {
  }

  lemma StoredEvolves(db: Db, s: Share, t: Id, now: int)
    requires Inv(db.(shares := db.shares + [s]), now)
    ensures Evolves(db, db.(shares := db.shares + [s]))
    ensures Evolves(db, Reconcile(db.(shares := db.shares + [s]), t, now))
  {
    hide Rows, Earnings, Order, Drained, Reconcile;
    ReconcileEvolves(db.(shares := db.shares + [s]), t, now);
  }

  lemma CreateEvolves(db: Db, e: Event, now: int)
    requires e.Create? && Evolves(db, Reconcile(db, e.tenant, now))
    ensures Evolves(db, Step(db, e, now))
  {
  }

  lemma CoreRows(db: Db, now: int)
    requires Core(db, now)
    ensures db.jobs.Keys <= db.issued && JobsOk(db.jobs, now)
  {
    hide JobsOk, SharesOk, GrantsOk, Earnings, Order;
  }

  lemma CancelEvolves(db: Db, t: Id, user: Id, id: Id, now: int)
    requires Inv(db, now)
    ensures Evolves(db, CancelJob(db, t, user, id, now).0)
  {
    hide Core, Drained, Evolves, Promote, FinishJobs, JobsOk;
    CoreRows(db, now);
    if id in db.jobs && db.jobs[id].tenant == t && db.jobs[id].user == user && Open(db.jobs[id]) {
      var db1 := db.(jobs := FinishJobs(db.jobs, {id}, Canceled, now, ClientCanceled));
      FinishJobsKeepsCore(db, {id}, Canceled, now, ClientCanceled);
      CoreRows(db1, now);
      FinishEvolves(db, {id}, Canceled, now, ClientCanceled);
      PromoteEvolves(db1, t, now);
      EvolvesComposes(db, db1, Promote(db1, t, now));
      CancelIs(db, t, user, id, now);
    } else {
      EvolvesItself(db);
    }
  }

  lemma CancelIs(db: Db, t: Id, user: Id, id: Id, now: int)
    requires id in db.jobs && db.jobs[id].tenant == t && db.jobs[id].user == user && Open(db.jobs[id])
    ensures CancelJob(db, t, user, id, now).0 == Promote(db.(jobs := FinishJobs(db.jobs, {id}, Canceled, now, ClientCanceled)), t, now)
  {
    hide Promote;
  }

  lemma EvolvesItself(db: Db)
    ensures Evolves(db, db)
  {
  }

  lemma CloseEvolves(db: Db, e: Event, now: int)
    requires (e.Close? || e.AdminClose?) && Inv(Reconcile(db, e.tenant, now), now) && Evolves(db, Reconcile(db, e.tenant, now))
    ensures Evolves(db, Step(db, e, now))
  {
    hide SharesOk, GrantsOk, Earnings, Order, Drained, JobsOk, Evolves, Promote, Reconcile, FinishSessions;
    var ready := Reconcile(db, e.tenant, now);
    var closed := ready.(sessions := FinishSessions(ready.sessions, {e.sid}, Closed, now, if e.Close? then ClientClosed else AdminClosed));
    PromoteEvolves(closed, e.tenant, now);
    SameJobsEvolve(ready, closed, Promote(closed, e.tenant, now));
    EvolvesComposes(db, ready, Promote(closed, e.tenant, now));
  }

  lemma PermissionEvolves(db: Db, t: Id, user: Id, folder: Id, unlock: bool, expiresAt: Option<int>, now: int)
    requires Inv(db, now)
    ensures Evolves(db, UpdatePermission(db, t, user, folder, unlock, expiresAt, now))
  {
    hide Earnings, Order, Granted, ShareOk, SharesOk, TablesOk, Drained, GrantsOk;
    var p := Permission(t, unlock, expiresAt);
    var perms := db.perms[(user, folder) := p];
    var revoked := RevokeAccess(db.(perms := perms), t, Some(user), Some(folder), now, PermissionRevoked);
    RevokeIgnoresPermissions(db, t, Some(user), Some(folder), perms, now, PermissionRevoked);
    RevokeKeepsCore(db, t, Some(user), Some(folder), now, PermissionRevoked);
    RevokeThenPromoteEvolves(db, revoked, t, Some(user), Some(folder), now, PermissionRevoked);
  }

  lemma FolderEvolves(db: Db, t: Id, folder: Id, now: int)
    requires Inv(db, now)
    ensures Evolves(db, DeleteFolder(db, t, folder, now))
  {
    if folder in db.folders && db.folders[folder].tenant == t && db.folders[folder].active {
      var revoked := RevokeAccess(db, t, None, Some(folder), now, FolderDeleted);
      RevokeKeepsCore(db, t, None, Some(folder), now, FolderDeleted);
      var gone := revoked.(perms := map k | k in revoked.perms && !(revoked.perms[k].tenant == t && k.1 == folder) :: revoked.perms[k],
                           folders := revoked.folders[folder := revoked.folders[folder].(active := false)]);
      RevokeThenPromoteEvolves(db, gone, t, None, Some(folder), now, FolderDeleted);
    }
  }

  lemma UserEvolves(db: Db, user: Id, now: int)
    requires Inv(db, now)
    ensures Evolves(db, DeleteUser(db, user, now))
  {
    if user in db.users {
      var t := db.users[user].tenant;
      var revoked := RevokeAccess(db, t, Some(user), None, now, UserDeleted);
      RevokeKeepsCore(db, t, Some(user), None, now, UserDeleted);
      var bare := RemoveUserRows(revoked, t, user);
      RemoveRowsKeepsCore(revoked, t, user, now);
      RevokeThenPromoteEvolves(db, bare, t, Some(user), None, now, UserDeleted);
    }
  }

  lemma {:induction false} RunEvolves(steps: seq<Timed>, i: nat)
    requires Monotone(steps) && i <= |steps|
    ensures Evolves(Run(EMPTY, steps[..i]), Run(EMPTY, steps))
    decreases |steps|
  {
    if i < |steps| {
      var before := steps[..|steps| - 1];
      var last := steps[|steps| - 1];
      assert before[..i] == steps[..i];
      RunEvolves(before, i);
      RunKeepsInv(before, last.now);
      StepEvolves(Run(EMPTY, before), last.e, last.now);
      EvolvesComposes(Run(EMPTY, steps[..i]), Run(EMPTY, before), Run(EMPTY, steps));
    } else {
      assert steps[..i] == steps;
      RunKeepsInv(steps, LastTime(steps, 0));
    }
  }

  predicate Started(db: Db, id: Id) {
    id in db.jobs && db.jobs[id].startedAt.Some?
  }

  /** No overtaking: once a job has started, an earlier-created job of its tenant that is still
      there either has started already, no later, or never will. */
  lemma NoOvertaking(steps: seq<Timed>, i: nat, a: Id, b: Id)
    requires Monotone(steps) && i <= |steps|
    requires var db := Run(EMPTY, steps[..i]);
             a in db.jobs && Started(db, b) && db.jobs[a].tenant == db.jobs[b].tenant && db.jobs[a].createdAt < db.jobs[b].createdAt
    ensures var db, later := Run(EMPTY, steps[..i]), Run(EMPTY, steps);
            Started(later, a) ==> Started(db, a) && db.jobs[a].startedAt.value <= db.jobs[b].startedAt.value
  {
    var db := Run(EMPTY, steps[..i]);
    RunKeepsInv(steps[..i], LastTime(steps[..i], 0));
    RunEvolves(steps, i);
    assert InOrder(db.jobs[a], db.jobs[b]);
  }
}
