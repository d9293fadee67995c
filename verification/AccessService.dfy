/** The handlers as they run: statements on the tables, one after the other. Each is proved to
    have the effect the model gives it and to keep the invariant. */
module AccessService {
  import opened Base
  import opened Progress
  import opened AccessModel
  import opened AccessInvariant
  import opened AccessReconcile
  import opened AccessHandlers
  import opened AccessQueue
  import opened AccessRuns

  class Store {
    var jobs: map<Id, Job>
    var issued: set<Id>
    var sessions: map<Id, Session>
    var nextSession: Id
    var shares: seq<Share>
    var perms: map<(Id, Id), Permission>
    var folders: map<Id, Folder>
    var users: map<Id, User>
    // now()
    var clock: int

    function View(): Db
      reads this
    {
      Db(jobs, issued, sessions, nextSession, shares, perms, folders, users)
    }

    ghost predicate Valid()
      reads this
    {
      Inv(View(), clock)
    }

    constructor (now: int)
      ensures Valid() && View() == EMPTY && clock == now
    {
      jobs, issued, sessions, nextSession, shares := map[], {}, map[], 0, [];
      perms, folders, users, clock := map[], map[], map[], now;
      new;
      RunKeepsInv([], now);
    }

    method Tick(now: int)
      requires Valid() && clock <= now
      modifies `clock
      ensures Valid() && clock == now
    {
      ClockKeepsInv(View(), clock, now);
      clock := now;
    }

    // ------------------------------------------------------------ promotions

    method PromoteNextQueued(t: Id)
      modifies `jobs
      ensures View() == Promote(old(View()), t, clock)
    {
      var canStart := CanStart(View(), t, clock);
      if !canStart {
        return;
      }
      OldestQueuedRows(View(), t);
      var next := set id | id in jobs && IsOldestQueued(View(), t, id);
      if next != {} {
        var id :| id in next;
        jobs := jobs[id := jobs[id].(status := Running, startedAt := Some(clock))];
      }
    }

    method PromoteNextQueuedAccessJob(t: Id)
      modifies `jobs
      ensures View() == PromoteUnblocked(old(View()), t, clock)
    {
      OldestUnblockedRows(View(), t, clock);
      var next := set id | id in jobs && IsOldestUnblocked(View(), t, id, clock);
      if next != {} {
        var id :| id in next;
        jobs := jobs[id := jobs[id].(status := Running, startedAt := Some(clock))];
      }
    }

    lemma OldestQueuedRows(db: Db, t: Id)
      ensures (set id | id in db.jobs && IsOldestQueued(db, t, id)) == OneOrNone(OldestQueued(db, t))
    {
      var next := set id | id in db.jobs && IsOldestQueued(db, t, id);
      match OldestQueued(db, t)
      case Some(id) =>
        assert id in next;
        forall o | o in next ensures o == id {
          assert Before(db.jobs, id, o) && Before(db.jobs, o, id);
        }
      case None =>
    }

    lemma OldestUnblockedRows(db: Db, t: Id, now: int)
      ensures (set id | id in db.jobs && IsOldestUnblocked(db, t, id, now)) == OneOrNone(OldestUnblocked(db, t, now))
    {
      var next := set id | id in db.jobs && IsOldestUnblocked(db, t, id, now);
      match OldestUnblocked(db, t, now)
      case Some(id) =>
        assert id in next;
        forall o | o in next ensures o == id {
          assert Before(db.jobs, id, o) && Before(db.jobs, o, id);
        }
      case None =>
    }

    ghost function OneOrNone(o: Option<Id>): set<Id> {
      if o.Some? then {o.value} else {}
    }

    // ------------------------------------------------------------- reconcile

    method OpenSessionForCompletedJob(t: Id, id: Id, validWork: real)
      requires RunningIn(View(), t, id) && 0 < jobs[id].policy.window && 0 < jobs[id].ttl
      requires validWork == JobWork(jobs[id], id, shares)
      modifies `jobs, `sessions, `nextSession
      ensures View() == if ActiveSessionExists(old(View()), t, clock) then old(View()) else OpenSession(old(View()), id, clock)
    {
      var active := ActiveSessionExists(View(), t, clock);
      if active {
        // The transaction is not committed.
        return;
      }
      var job := jobs[id];
      var proofWindowSeconds := NormalizePositive(job.policy.window, DEFAULT_PROOF_WINDOW_SECONDS);
      var sessionTtlMinutes := NormalizePositive(job.ttl, DEFAULT_SESSION_TTL_MINUTES);
      var observed := validWork / proofWindowSeconds as real;
      ghost var before := View();
      jobs := jobs[id := job.(status := Succeeded, observed := Some(observed), finishedAt := Some(clock))];
      sessions := sessions[nextSession :=
        Session(t, job.user, job.folder, id, Active, clock, clock + sessionTtlMinutes * MINUTE, None, Unset)];
      nextSession := nextSession + 1;
      assert QueuedOthers(View(), t, id) == QueuedOthers(before, t, id);
      jobs := FinishJobs(jobs, QueuedOthers(View(), t, id), Canceled, clock, ActiveSessionOpened);
    }

    /** The loop over the running jobs read beforehand. Its calls never meet an open session. */
    method CompleteRunningJobs(t: Id)
      requires Core(View(), clock) && NoLapsed(View(), t, clock)
      modifies `jobs, `sessions, `nextSession
      ensures View() == CompleteRunning(old(View()), t, clock)
    {
      hide Core, NoLapsed, Enough, JobWork, BestWork, SharesSound, JobOk, OpenSession, CompleteRunning, ActiveSessionExists, IsProgress;
      ghost var before := View();
      var rows := RunningJobs(View(), t);
      NoneLeft(before, t, rows, clock);
      ghost var completed := false;
      while rows != {}
        invariant rows <= RunningJobs(before, t)
        invariant completed ==> rows == {} && View() == CompleteRunning(before, t, clock)
        invariant !completed ==> View() == before && forall r :: RunningIn(before, t, r) && r !in rows ==> !Enough(before.jobs[r], r, before.shares)
      {
        var id :| id in rows;
        rows := rows - {id};
        CompletionIsUnobstructed(before, t, id, clock);
        var job := jobs[id];
        RunningRow(before, t, id, clock);
        var validWork, _, _ := BestAttemptProgress(shares, t, id, job.startedAt.value, job.policy.window, job.policy.attempts, clock);
        WorkOfRow(before, t, id, clock);
        if validWork < job.requiredWork {
          continue;
        }
        EnoughCompletes(before, t, id, clock);
        OpenSessionForCompletedJob(t, id, validWork);
        assert rows == {};
        completed := true;
      }
      if !completed {
        NotEnoughCompletesNothing(before, t, clock);
      }
    }

    lemma RunningRow(db: Db, t: Id, id: Id, now: int)
      requires Core(db, now) && RunningIn(db, t, id)
      ensures db.jobs[id].startedAt.Some? && 0 < db.jobs[id].policy.window && 0 < db.jobs[id].policy.attempts && 0 < db.jobs[id].ttl
      ensures SharesSound(db.shares, now)
    {
      hide SharesSound, Earnings, Order, GrantsOk, TablesOk;
      assert JobOk(db.jobs[id], now);
    }

    // The best work of the job's own attempts decides whether it has enough.
    lemma WorkOfRow(db: Db, t: Id, id: Id, now: int)
      requires RunningIn(db, t, id) && db.jobs[id].startedAt.Some? && 0 < db.jobs[id].policy.window && 0 < db.jobs[id].policy.attempts
      ensures var j := db.jobs[id];
        var span := Span(t, id, j.startedAt.value, NormalizePositive(j.policy.window, DEFAULT_PROOF_WINDOW_SECONDS));
        var work := BestWork(db.shares, span, NormalizePositive(j.policy.attempts, DEFAULT_MAX_PROOF_ATTEMPTS));
        work == JobWork(j, id, db.shares) && (Enough(j, id, db.shares) <==> j.requiredWork <= work)
    {
    }

    lemma NoneLeft(db: Db, t: Id, rows: set<Id>, now: int)
      requires rows == RunningJobs(db, t)
      ensures forall r :: RunningIn(db, t, r) ==> r in rows
    {
    }

    method ExpireSessions(t: Id)
      modifies `sessions
      ensures View() == AccessModel.ExpireSessions(old(View()), t, clock)
    {
      sessions := FinishSessions(sessions, LapsedSessions(View(), t, clock), Expired, clock, TtlExpired);
    }

    method TimeoutJobs(t: Id)
      modifies `jobs
      ensures View() == AccessModel.TimeoutJobs(old(View()), t, clock)
    {
      jobs := FinishJobs(jobs, OverdueJobs(View(), t, clock), TimedOut, clock, TimeoutReached);
      PromoteNextQueued(t);
    }

    /** Reconcile leaves nothing for a second one to do. */
    method Reconcile(t: Id)
      requires Valid()
      modifies `jobs, `sessions, `nextSession
      ensures Valid() && View() == AccessModel.Reconcile(old(View()), t, clock)
      ensures Quiet(View(), t, clock)
    {
      hide Rows, Earnings, Order, Drained, Quiet, NoLapsed, NoOverdue, DrainedIn, AccessModel.ExpireSessions, AccessModel.TimeoutJobs, CompleteRunning, Promote;
      ghost var before := View();
      ReconcileKeepsInv(before, t, clock);
      ReconcilePhases(before, t, clock);
      ExpireKeepsCore(before, t, clock);
      ExpireSessions(t);
      TimeoutPhase(View(), t, clock);
      TimeoutJobs(t);
      CompleteRunningJobs(t);
      PromoteNextQueued(t);
    }

    // ---------------------------------------------------------- transactions

    method CreateJob(t: Id, user: Id, folder: Id, ttlSetting: int, sealOk: bool, id: Id) returns (r: Result<Created, AccessError>)
      modifies `jobs, `issued
      ensures View() == AccessModel.CreateJob(old(View()), t, user, folder, ttlSetting, sealOk, id, clock).0
      ensures Answers(r, AccessModel.CreateJob(old(View()), t, user, folder, ttlSetting, sealOk, id, clock).1)
      ensures r.Ok? && r.value.Existing? ==> OwnSession(View(), t, user, folder, r.value.session, clock)
      ensures r.Ok? && r.value.ExistingJob? ==> OwnOpenJob(View(), t, user, folder, r.value.job)
    {
      var allowed := CanUnlock(View(), t, user, folder, clock);
      if allowed.None? {
        return Err(FolderNotFound);
      }
      if !allowed.value {
        return Err(UnlockNotAllowed);
      }
      if !sealOk || folder !in folders || folders[folder].tenant != t {
        return Err(PolicyRejected);
      }
      if exists sid :: sid in sessions && OwnSession(View(), t, user, folder, sid, clock) {
        var sid :| sid in sessions && OwnSession(View(), t, user, folder, sid, clock);
        return Ok(Existing(sid));
      }
      if exists o :: o in jobs && OwnOpenJob(View(), t, user, folder, o) {
        var o :| o in jobs && OwnOpenJob(View(), t, user, folder, o);
        return Ok(ExistingJob(o));
      }
      var active := ActiveSessionExists(View(), t, clock);
      if active {
        return Err(ActiveSessionMustBeClosed);
      }
      var start := CanStart(View(), t, clock);
      jobs, issued := jobs[id := NewRow(t, user, folder, folders[folder].policy, ttlSetting, start, clock)], issued + {id};
      r := Ok(NewJob(id));
    }

    // Several rows may answer the lookup of an existing session or job; either is returned.
    predicate Answers(r: Result<Created, AccessError>, s: Result<Created, AccessError>) {
      r == s || (r.Ok? && s.Ok? && ((r.value.Existing? && s.value.Existing?) || (r.value.ExistingJob? && s.value.ExistingJob?)))
    }

    method CancelJob(t: Id, user: Id, id: Id) returns (r: Result<JobStatus, AccessError>)
      modifies `jobs
      ensures (View(), r) == AccessModel.CancelJob(old(View()), t, user, id, clock)
    {
      if !(id in jobs && jobs[id].tenant == t && jobs[id].user == user && Open(jobs[id])) {
        return Err(NotFoundOrClosed);
      }
      jobs := FinishJobs(jobs, {id}, Canceled, clock, ClientCanceled);
      var previousStatus := jobs[id].status;
      PromoteNextQueued(t);
      r := Ok(previousStatus);
    }

    method CloseSession(t: Id, user: Id, sid: Id) returns (r: Result<Id, AccessError>)
      modifies `jobs, `sessions
      ensures (View(), r) == AccessModel.CloseSession(old(View()), t, user, sid, clock)
    {
      if !(ActiveIn(View(), t, sid) && sessions[sid].user == user) {
        return Err(NotFoundOrClosed);
      }
      sessions := FinishSessions(sessions, {sid}, Closed, clock, ClientClosed);
      PromoteNextQueued(t);
      r := Ok(sid);
    }

    method CloseSessionAsAdmin(t: Id, sid: Id) returns (r: Result<Id, AccessError>)
      modifies `jobs, `sessions
      ensures (View(), r) == AccessModel.CloseSessionAsAdmin(old(View()), t, sid, clock)
    {
      if !LiveIn(View(), t, sid, clock) {
        return Err(NotFoundOrClosed);
      }
      sessions := FinishSessions(sessions, {sid}, Closed, clock, AdminClosed);
      PromoteNextQueued(t);
      r := Ok(sid);
    }

    method RevokeAccess(t: Id, user: Option<Id>, folder: Option<Id>, reason: Reason) returns (revoked: nat, canceled: nat)
      modifies `jobs, `sessions
      ensures View() == AccessModel.RevokeAccess(old(View()), t, user, folder, clock, reason)
      ensures revoked == |old(SessionsWhere(View(), t, user, folder))| && canceled == |old(OpenJobsWhere(View(), t, user, folder))|
    {
      ghost var before := View();
      revoked := |SessionsWhere(View(), t, user, folder)|;
      sessions := FinishSessions(sessions, SessionsWhere(View(), t, user, folder), Revoked, clock, reason);
      assert OpenJobsWhere(View(), t, user, folder) == OpenJobsWhere(before, t, user, folder);
      canceled := |OpenJobsWhere(View(), t, user, folder)|;
      jobs := FinishJobs(jobs, OpenJobsWhere(View(), t, user, folder), Canceled, clock, reason);
    }

    method UpdatePermission(t: Id, user: Id, folder: Id, unlock: bool, expiresAt: Option<int>)
      modifies `jobs, `sessions, `perms
      ensures View() == AccessModel.UpdatePermission(old(View()), t, user, folder, unlock, expiresAt, clock)
    {
      if !(folder in folders && folders[folder].tenant == t && folders[folder].active) {
        return;
      }
      if !(user in users && users[user] == User(t, true, false)) {
        return;
      }
      var access := Permission(t, unlock, expiresAt);
      perms := perms[(user, folder) := access];
      if KeepsAccess(access, clock) {
        return;
      }
      var revoked, canceled := RevokeAccess(t, Some(user), Some(folder), PermissionRevoked);
      if revoked > 0 || canceled > 0 {
        PromoteNextQueuedAccessJob(t);
      }
    }

    method DeleteFolder(t: Id, folder: Id)
      modifies `jobs, `sessions, `perms, `folders
      ensures View() == AccessModel.DeleteFolder(old(View()), t, folder, clock)
    {
      if !(folder in folders && folders[folder].tenant == t && folders[folder].active) {
        return;
      }
      var _, _ := RevokeAccess(t, None, Some(folder), FolderDeleted);
      perms := map k | k in perms && !(perms[k].tenant == t && k.1 == folder) :: perms[k];
      folders := folders[folder := folders[folder].(active := false)];
      PromoteNextQueuedAccessJob(t);
    }

    method DeleteUser(user: Id)
      modifies `jobs, `sessions, `shares, `perms, `users
      ensures View() == AccessModel.DeleteUser(old(View()), user, clock)
    {
      if user !in users {
        return;
      }
      var t := users[user].tenant;
      var _, _ := RevokeAccess(t, Some(user), None, UserDeleted);
      DeleteUserRows(t, user);
      PromoteNextQueuedAccessJob(t);
      users := users - {user};
    }

    method DeleteUserRows(t: Id, user: Id)
      modifies `jobs, `sessions, `shares, `perms
      ensures View() == RemoveUserRows(old(View()), t, user)
    {
      perms := map k | k in perms && !(perms[k].tenant == t && k.0 == user) :: perms[k];
      sessions := map sid | sid in sessions && !(sessions[sid].tenant == t && sessions[sid].user == user) :: sessions[sid];
      jobs := map id | id in jobs && !(jobs[id].tenant == t && jobs[id].user == user) :: jobs[id];
      shares := SharesOfJobs(shares, jobs.Keys);
    }

    // --------------------------------------------------------------- requests

    // What a handler finds after its leading reconcile.
    ghost function Ready(db: Db, t: Id): Db
      reads this
    {
      AccessModel.Reconcile(db, t, clock)
    }

    method HandleCreate(t: Id, user: Id, folder: Id, ttlSetting: int, sealOk: bool, id: Id) returns (r: Result<Created, AccessError>)
      requires Valid() && id !in issued && user in users && users[user].tenant == t
      modifies `jobs, `issued, `sessions, `nextSession
      ensures Valid() && View() == Step(old(View()), Create(t, user, folder, ttlSetting, sealOk, id), clock)
      ensures Answers(r, AccessModel.CreateJob(Ready(old(View()), t), t, user, folder, ttlSetting, sealOk, id, clock).1)
      ensures r.Ok? && r.value.Existing? ==> OwnSession(View(), t, user, folder, r.value.session, clock)
      ensures r.Ok? && r.value.ExistingJob? ==> OwnOpenJob(View(), t, user, folder, r.value.job)
    {
      hide Inv, Quiet, AccessModel.Reconcile, AccessModel.CreateJob, OwnSession, OwnOpenJob;
      StepKeepsInv(View(), Create(t, user, folder, ttlSetting, sealOk, id), clock);
      Reconcile(t);
      r := CreateJob(t, user, folder, ttlSetting, sealOk, id);
    }

    method HandleCancel(t: Id, user: Id, id: Id) returns (r: Result<JobStatus, AccessError>)
      requires Valid()
      modifies `jobs, `sessions, `nextSession
      ensures Valid() && View() == Step(old(View()), Cancel(t, user, id), clock)
      ensures r == AccessModel.CancelJob(Ready(old(View()), t), t, user, id, clock).1
    {
      hide Inv, Quiet, AccessModel.Reconcile, AccessModel.CancelJob;
      StepKeepsInv(View(), Cancel(t, user, id), clock);
      Reconcile(t);
      r := CancelJob(t, user, id);
    }

    method HandleClose(t: Id, user: Id, sid: Id) returns (r: Result<Id, AccessError>)
      requires Valid()
      modifies `jobs, `sessions, `nextSession
      ensures Valid() && View() == Step(old(View()), Close(t, user, sid), clock)
      ensures r == AccessModel.CloseSession(Ready(old(View()), t), t, user, sid, clock).1
    {
      hide Inv, Quiet, AccessModel.Reconcile, AccessModel.CloseSession;
      StepKeepsInv(View(), Close(t, user, sid), clock);
      Reconcile(t);
      r := CloseSession(t, user, sid);
    }

    method HandleAdminClose(t: Id, sid: Id) returns (r: Result<Id, AccessError>)
      requires Valid()
      modifies `jobs, `sessions, `nextSession
      ensures Valid() && View() == Step(old(View()), AdminClose(t, sid), clock)
      ensures r == AccessModel.CloseSessionAsAdmin(Ready(old(View()), t), t, sid, clock).1
    {
      hide Inv, Quiet, AccessModel.Reconcile, AccessModel.CloseSessionAsAdmin;
      StepKeepsInv(View(), AdminClose(t, sid), clock);
      Reconcile(t);
      r := CloseSessionAsAdmin(t, sid);
    }

    method HandleUpdatePermission(t: Id, user: Id, folder: Id, unlock: bool, expiresAt: Option<int>)
      requires Valid()
      modifies `jobs, `sessions, `perms
      ensures Valid() && View() == Step(old(View()), SetPermission(t, user, folder, unlock, expiresAt), clock)
    {
      hide Inv, AccessModel.UpdatePermission;
      StepKeepsInv(View(), SetPermission(t, user, folder, unlock, expiresAt), clock);
      UpdatePermission(t, user, folder, unlock, expiresAt);
    }

    method HandleDeleteFolder(t: Id, folder: Id)
      requires Valid()
      modifies `jobs, `sessions, `perms, `folders
      ensures Valid() && View() == Step(old(View()), RemoveFolder(t, folder), clock)
    {
      hide Inv, AccessModel.DeleteFolder;
      StepKeepsInv(View(), RemoveFolder(t, folder), clock);
      DeleteFolder(t, folder);
    }

    method HandleDeleteUser(user: Id)
      requires Valid()
      modifies `jobs, `sessions, `shares, `perms, `users
      ensures Valid() && View() == Step(old(View()), RemoveUser(user), clock)
    {
      hide Inv, AccessModel.DeleteUser;
      StepKeepsInv(View(), RemoveUser(user), clock);
      DeleteUser(user);
    }

    // A share with refused version bits is stored whatever job is running. Any other is stored,
    // and if valid triggers reconcile, only while its job is the one the gateway serves.
    method SubmitShare(tenant: Id, job: Id, worker: Id, credited: real, versionOk: bool, valid: bool) returns (stored: bool)
      requires Valid() && 0.0 <= credited
      modifies `jobs, `sessions, `nextSession, `shares
      ensures Valid()
      ensures View() == Step(old(View()), if versionOk then Submit(tenant, job, worker, credited, valid) else SubmitRefused(tenant, job, worker), clock)
      ensures stored <==> if versionOk then old(IsGatewayJob(View(), job)) else job in old(jobs)
    {
      hide Inv, IsGatewayJob, AccessModel.Reconcile;
      if !versionOk {
        StoreRefusedKeepsInv(View(), tenant, job, worker, clock);
        stored := job in jobs;
        if stored {
          StoreShare(Share(tenant, job, Some(worker), 0.0, false, clock));
        }
        return;
      }
      StepKeepsInv(View(), Submit(tenant, job, worker, credited, valid), clock);
      stored := IsGatewayJob(View(), job);
      if stored {
        var share := Share(tenant, job, Some(worker), if valid then credited else 0.0, valid, clock);
        ServedIsRunning(View(), job);
        AppendShareKeepsInv(View(), share, clock);
        StoreShare(share);
        if valid {
          Reconcile(tenant);
        }
      }
    }

    lemma ServedIsRunning(db: Db, job: Id)
      ensures IsGatewayJob(db, job) ==> job in db.jobs && db.jobs[job].status == Running
    {
    }

    method StoreShare(share: Share)
      modifies `shares
      ensures View() == old(View()).(shares := old(shares) + [share])
    {
      shares := shares + [share];
    }
  }
}
