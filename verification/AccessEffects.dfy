/** What a client sees of each request: its whole effect on jobs and sessions. */
module AccessEffects {
  import opened Base
  import opened Progress
  import opened AccessModel
  import opened AccessInvariant
  import opened AccessReconcile
  import opened AccessHandlers
  import opened AccessQueue
  import opened AccessRuns

  // ------------------------------------------------------------------ creating

  predicate OwnOpen(j: Job, t: Id, user: Id, folder: Id) {
    (j.tenant, j.user, j.folder) == (t, user, folder) && (j.status == Queued || j.status == Running)
  }

  predicate OwnLive(s: Session, t: Id, user: Id, folder: Id, now: int) {
    (s.tenant, s.user, s.folder) == (t, user, folder) && s.status == Active && now < s.expiresAt
  }

  // The caller's permission on the folder: there, not expired, and the folder not deleted.
  predicate HasPermission(db: Db, t: Id, user: Id, folder: Id, now: int) {
    && (user, folder) in db.perms && db.perms[(user, folder)].tenant == t
    && (db.perms[(user, folder)].expiresAt.Some? ==> now < db.perms[(user, folder)].expiresAt.value)
    && folder in db.folders && db.folders[folder].active
  }

  predicate MayCreate(db: Db, t: Id, user: Id, folder: Id, sealOk: bool, now: int) {
    && (user, folder) in db.perms && db.perms[(user, folder)].tenant == t && db.perms[(user, folder)].unlock
    && (db.perms[(user, folder)].expiresAt.Some? ==> now < db.perms[(user, folder)].expiresAt.value)
    && sealOk && folder in db.folders && db.folders[folder].tenant == t && db.folders[folder].active
    && (forall o :: o in db.jobs ==> !OwnOpen(db.jobs[o], t, user, folder))
    && (forall sid :: sid in db.sessions ==> !LiveIn(db, t, sid, now))
  }

  // A job is created exactly if the folder may be unlocked, the caller has no open job for it, and
  // the tenant has no session open. It starts at once if the tenant has no open job at all, and
  // otherwise goes to the end of the queue. Nothing else changes.
  lemma CreateOutcome(db: Db, t: Id, user: Id, folder: Id, ttlSetting: int, sealOk: bool, id: Id, now: int)
    requires Inv(db, now) && id !in db.issued
    ensures var (after, r) := CreateJob(db, t, user, folder, ttlSetting, sealOk, id, now);
      && (r == Ok(NewJob(id)) <==> MayCreate(db, t, user, folder, sealOk, now))
      && (r != Ok(NewJob(id)) ==> after == db)
      && (r == Ok(NewJob(id)) ==>
            && id in after.jobs && after == db.(jobs := db.jobs[id := after.jobs[id]], issued := db.issued + {id})
            && NewJobIs(after.jobs[id], t, user, folder, db.folders[folder].policy, ttlSetting, now)
            && (NothingOpen(db, t) ==> after.jobs[id].status == Running && after.jobs[id].startedAt == Some(now))
            && (!NothingOpen(db, t) ==> after.jobs[id].status == Queued && QueuePosition(after, id) == |QueuedJobs(db, t)| + 1))
  {
    hide Rows, Earnings;
    var (after, r) := CreateJob(db, t, user, folder, ttlSetting, sealOk, id, now);
    LiveExists(db, t, now);
    OwnRows(db, t, user, folder, now);
    if r == Ok(NewJob(id)) {
      assert PolicyOk(db.folders[folder].policy) by { CoreTables(db, now); }
      RequiredWorkIs(db.folders[folder].policy);
      NewestIsLast(db, t, user, folder, ttlSetting, id, now);
    }
  }

  // Every other answer, in the order the request is checked. A caller with a session on the folder, or
  // a job open for it, is pointed to it; one who meets somebody's session is told to wait.
  lemma CreateAnswers(db: Db, t: Id, user: Id, folder: Id, ttlSetting: int, sealOk: bool, id: Id, now: int)
    requires Inv(db, now)
    ensures var r := CreateJob(db, t, user, folder, ttlSetting, sealOk, id, now).1;
      && (r == Err(FolderNotFound) <==> !HasPermission(db, t, user, folder, now))
      && (r == Err(UnlockNotAllowed) <==> HasPermission(db, t, user, folder, now) && !db.perms[(user, folder)].unlock)
      && (r == Err(PolicyRejected) <==> HasPermission(db, t, user, folder, now) && db.perms[(user, folder)].unlock && !sealOk)
      && (HasPermission(db, t, user, folder, now) && db.perms[(user, folder)].unlock && sealOk ==>
            var session := exists s :: s in db.sessions && OwnLive(db.sessions[s], t, user, folder, now);
            var job := exists o :: o in db.jobs && OwnOpen(db.jobs[o], t, user, folder);
            && (r.Ok? && r.value.Existing? <==> session)
            && (r.Ok? && r.value.Existing? ==> r.value.session in db.sessions && OwnLive(db.sessions[r.value.session], t, user, folder, now))
            && (r.Ok? && r.value.ExistingJob? <==> job)
            && (r.Ok? && r.value.ExistingJob? ==> r.value.job in db.jobs && OwnOpen(db.jobs[r.value.job], t, user, folder))
            && (r == Err(ActiveSessionMustBeClosed) <==> !session && exists s :: s in db.sessions && LiveIn(db, t, s, now)))
  {
    hide Rows, Earnings, Order, Drained, LiveSessions, NewRow;
    LiveExists(db, t, now);
    FolderOfPermission(db, t, user, folder, now);
    OwnRows(db, t, user, folder, now);
    forall sid, o | sid in db.sessions && o in db.jobs && OwnOpen(db.jobs[o], t, user, folder) ensures !LiveIn(db, t, sid, now) {
      OpenMeetsNoSession(db, sid, o, now);
    }
  }

  lemma OwnRows(db: Db, t: Id, user: Id, folder: Id, now: int)
    ensures forall o :: o in db.jobs ==> (OwnOpenJob(db, t, user, folder, o) <==> OwnOpen(db.jobs[o], t, user, folder))
    ensures forall s :: s in db.sessions ==> (OwnSession(db, t, user, folder, s, now) <==> OwnLive(db.sessions[s], t, user, folder, now))
  {
  }

  lemma FolderOfPermission(db: Db, t: Id, user: Id, folder: Id, now: int)
    requires Inv(db, now)
    ensures HasPermission(db, t, user, folder, now) ==> db.folders[folder].tenant == t
  {
    CoreTables(db, now);
  }

  lemma OpenMeetsNoSession(db: Db, sid: Id, o: Id, now: int)
    requires Inv(db, now) && sid in db.sessions && o in db.jobs && Open(db.jobs[o])
    ensures !LiveIn(db, db.jobs[o].tenant, sid, now)
  {
    hide Rows, Earnings, Fifo, OneRunning, OneActive, Drained;
    assert Apart(db.jobs[o], db.sessions[sid], now);
  }

  predicate NewJobIs(j: Job, t: Id, user: Id, folder: Id, policy: Policy, ttlSetting: int, now: int) {
    && (j.tenant, j.user, j.folder) == (t, user, folder) && j.policy == policy && j.createdAt == now
    && 100.0 * j.requiredWork == policy.required * (100.0 - policy.tolerance) * policy.window as real
    && j.timeout == policy.window * policy.attempts && j.ttl == (if 0 < ttlSetting then ttlSetting else 30)
    && j.finishedAt.None? && j.observed.None?
  }

  lemma LiveExists(db: Db, t: Id, now: int)
    ensures ActiveSessionExists(db, t, now) <==> exists sid :: sid in db.sessions && LiveIn(db, t, sid, now)
  {
    if sid :| sid in db.sessions && LiveIn(db, t, sid, now) {
      assert sid in LiveSessions(db, t, now);
    }
    if ActiveSessionExists(db, t, now) {
      var sid :| sid in LiveSessions(db, t, now);
    }
  }

  lemma NewestIsLast(db: Db, t: Id, user: Id, folder: Id, ttlSetting: int, id: Id, now: int)
    requires Inv(db, now) && id !in db.issued && folder in db.folders
    requires forall sid :: sid in db.sessions ==> !LiveIn(db, t, sid, now)
    ensures CanStart(db, t, now) <==> NothingOpen(db, t)
    ensures var row := NewRow(t, user, folder, db.folders[folder].policy, ttlSetting, CanStart(db, t, now), now);
      var after := db.(jobs := db.jobs[id := row], issued := db.issued + {id});
      row.status == Queued ==> QueuePosition(after, id) == |QueuedJobs(db, t)| + 1
  {
    hide Earnings, Order, GrantsOk;
    StartsAtOnceOnlyAlone(db, t, now);
    assert !ActiveSessionExists(db, t, now) by { LiveExists(db, t, now); }
    assert id !in db.jobs;
    var row := NewRow(t, user, folder, db.folders[folder].policy, ttlSetting, CanStart(db, t, now), now);
    var after := db.(jobs := db.jobs[id := row], issued := db.issued + {id});
    if row.status == Queued {
      forall q | q in db.jobs && QueuedIn(db, t, q) ensures db.jobs[q].createdAt <= now {
        assert JobOk(db.jobs[q], now);
      }
      assert Ahead(after, id) == QueuedJobs(db, t) + {id};
    }
  }

  // ----------------------------------------------------------------- canceling

  // A cancellation succeeds exactly for an open job of the caller. The job ends canceled; if it was
  // running, the head of the queue starts; no other job, and nothing else, changes. The status
  // recorded as the previous one is always the new one.
  lemma CancelOutcome(db: Db, t: Id, user: Id, id: Id, now: int, o: Id)
    requires Inv(db, now)
    ensures var (after, r) := CancelJob(db, t, user, id, now);
      && (r.Ok? <==> id in db.jobs && db.jobs[id].tenant == t && db.jobs[id].user == user && Open(db.jobs[id]))
      && (r.Err? ==> after == db)
      && (r.Ok? ==>
            && r.value == Canceled && r.value != db.jobs[id].status
            && after == db.(jobs := after.jobs) && after.jobs.Keys == db.jobs.Keys
            && after.jobs[id] == db.jobs[id].(status := Canceled, finishedAt := Some(now), reason := ClientCanceled)
            && (o in db.jobs && o != id ==>
                  after.jobs[o] == if db.jobs[id].status == Running && OldestQueued(db, t) == Some(o)
                                   then db.jobs[o].(status := Running, startedAt := Some(now)) else db.jobs[o]))
  {
    hide Core, Drained, CanStart;
    var (after, r) := CancelJob(db, t, user, id, now);
    if r.Ok? {
      CancelFrees(db, t, id, now);
    }
  }

  lemma CancelFrees(db: Db, t: Id, id: Id, now: int)
    requires Inv(db, now) && id in db.jobs && db.jobs[id].tenant == t && Open(db.jobs[id])
    ensures var canceled := db.(jobs := FinishJobs(db.jobs, {id}, Canceled, now, ClientCanceled));
      && (CanStart(canceled, t, now) <==> db.jobs[id].status == Running)
      && (db.jobs[id].status == Running ==> OldestQueued(canceled, t) == OldestQueued(db, t))
  {
    hide Rows, Earnings, Fifo, OneActive;
    var canceled := db.(jobs := FinishJobs(db.jobs, {id}, Canceled, now, ClientCanceled));
    CanStartMeansClear(canceled, t, now);
    assert DrainedIn(db, t);
    forall sid ensures !LiveIn(db, t, sid, now) {
      assert sid in db.sessions ==> Apart(db.jobs[id], db.sessions[sid], now);
    }
    forall r | RunningIn(canceled, t, r) ensures RunningIn(db, t, r) && r != id {}
    if db.jobs[id].status == Running {
      forall r ensures !RunningIn(canceled, t, r) {
        assert r in db.jobs ==> BothRun(db.jobs[r], db.jobs[id]) ==> r == id;
      }
      SameQueue(db, canceled, t);
    } else {
      assert QueuedIn(db, t, id);
      var r :| RunningIn(db, t, r);
      assert RunningIn(canceled, t, r);
    }
  }

  // The head depends only on which jobs are queued and when they were created.
  lemma SameQueue(db: Db, db': Db, t: Id)
    requires forall q :: QueuedIn(db', t, q) <==> QueuedIn(db, t, q)
    requires forall q :: QueuedIn(db, t, q) ==> q in db'.jobs && db'.jobs[q] == db.jobs[q]
    ensures OldestQueued(db', t) == OldestQueued(db, t)
  {
    forall a, b | QueuedIn(db, t, a) && QueuedIn(db, t, b) ensures Before(db'.jobs, a, b) <==> Before(db.jobs, a, b) {}
    forall q ensures IsOldestQueued(db', t, q) <==> IsOldestQueued(db, t, q) {}
    OldestQueuedExists(db, t);
    OldestQueuedExists(db', t);
  }

  // ------------------------------------------------------------------- closing

  // Closing a session that is still open leaves its tenant idle: nothing was waiting behind it, so
  // no job starts, and only the session's own row changes.
  lemma CloseOutcome(db: Db, t: Id, user: Id, sid: Id, now: int)
    requires Inv(db, now) && NoLapsed(db, t, now)
    ensures var (after, r) := CloseSession(db, t, user, sid, now);
      && (r.Ok? <==> LiveIn(db, t, sid, now) && db.sessions[sid].user == user)
      && (r.Err? ==> after == db)
      && (r.Ok? ==>
            && after == db.(sessions := db.sessions[sid := db.sessions[sid].(status := Closed, closedAt := Some(now), reason := ClientClosed)])
            && NothingOpen(after, t) && CanStart(after, t, now))
  {
    hide Rows, Earnings;
    if LiveIn(db, t, sid, now) {
      ClosingLeavesIdle(db, t, sid, now, ClientClosed);
    }
  }

  lemma AdminCloseOutcome(db: Db, t: Id, sid: Id, now: int)
    requires Inv(db, now)
    ensures var (after, r) := CloseSessionAsAdmin(db, t, sid, now);
      && (r.Ok? <==> LiveIn(db, t, sid, now))
      && (r.Err? ==> after == db)
      && (r.Ok? ==>
            && after == db.(sessions := db.sessions[sid := db.sessions[sid].(status := Closed, closedAt := Some(now), reason := AdminClosed)])
            && NothingOpen(after, t) && CanStart(after, t, now))
  {
    hide Rows, Earnings;
    if LiveIn(db, t, sid, now) {
      ClosingLeavesIdle(db, t, sid, now, AdminClosed);
    }
  }

  lemma ClosingLeavesIdle(db: Db, t: Id, sid: Id, now: int, reason: Reason)
    requires Inv(db, now) && LiveIn(db, t, sid, now)
    ensures var after := db.(sessions := db.sessions[sid := db.sessions[sid].(status := Closed, closedAt := Some(now), reason := reason)]);
      && db.(sessions := FinishSessions(db.sessions, {sid}, Closed, now, reason)) == after
      && Promote(after, t, now) == after && NothingOpen(after, t) && CanStart(after, t, now)
  {
    hide Rows, Earnings;
    var after := db.(sessions := db.sessions[sid := db.sessions[sid].(status := Closed, closedAt := Some(now), reason := reason)]);
    assert FinishSessions(db.sessions, {sid}, Closed, now, reason) == after.sessions;
    InvMeansExclusive(db, t, now);
    forall o ensures !LiveIn(after, t, o, now) {
      assert LiveIn(after, t, o, now) ==> LiveIn(db, t, o, now) && o != sid;
    }
    CanStartMeansClear(after, t, now);
    OldestQueuedExists(after, t);
  }

  // ---------------------------------------------------------------- completing

  // A queued job canceled because a session opened.
  predicate DroppedFor(j: Job, k: Job, now: int) {
    k == j.(status := Canceled, finishedAt := Some(now), reason := ActiveSessionOpened)
  }

  // A running job with enough work, seen within its deadline, succeeds: its session opens for the
  // job's own time to live and everything still queued in the tenant is canceled.
  lemma CompletionOutcome(db: Db, t: Id, id: Id, now: int)
    requires Inv(db, now) && NoLapsed(db, t, now) && NoOverdue(db, t, now)
    requires RunningIn(db, t, id) && exists k: nat :: WindowSuffices(db.jobs[id], id, db.shares, k)
    ensures var after, j := Reconcile(db, t, now), db.jobs[id];
      && db.nextSession in after.sessions
      && after.sessions == db.sessions[db.nextSession := Session(t, j.user, j.folder, id, Active, now, now + j.ttl * 60_000_000, None, Unset)]
      && id in after.jobs && j.policy.window > 0
      && after.jobs[id] == j.(status := Succeeded, finishedAt := Some(now), observed := Some(JobWork(j, id, db.shares) / j.policy.window as real))
      && (forall q :: QueuedIn(db, t, q) ==> q in after.jobs && DroppedFor(db.jobs[q], after.jobs[q], now))
      && (forall o :: o in db.jobs && o != id && !QueuedIn(db, t, o) ==> o in after.jobs && after.jobs[o] == db.jobs[o])
  {
    hide Rows, Earnings, Order, JobWork, Quiet, NoLapsed, NoOverdue, TimeoutRows, ExpireSessions, Promote, Enough;
    assert DrainedIn(db, t);
    assert JobOk(db.jobs[id], now) by { CoreJobs(db, id, now); }
    EnoughIff(db.jobs[id], id, db.shares, now);
    NothingToExpire(db, t, now);
    NothingOverdue(db, t, now);
    DrainedPromotesNothing(db, t, now);
    ReconcilePhases(db, t, now);
    EnoughCompletes(db, t, id, now);
  }

  // ---------------------------------------------------------------- submitting

  // The job the gateway serves: running, and of all running jobs of all tenants none started before it.
  ghost predicate Served(db: Db, id: Id) {
    && id in db.jobs && db.jobs[id].status == Running
    && forall o :: o in db.jobs && db.jobs[o].status == Running ==> StartedBy(db.jobs[id], db.jobs[o])
  }

  predicate StartedBy(j: Job, k: Job) {
    j.startedAt.Some? && k.startedAt.Some? && j.startedAt.value <= k.startedAt.value
  }

  // A share is stored exactly if its job is the one being served: under its connection's tenant and
  // worker, with its credit if it is valid and without any if it is not. A valid one reconciles its
  // tenant, and nothing else changes.
  lemma SubmitOutcome(db: Db, tenant: Id, job: Id, worker: Id, credited: real, valid: bool, now: int)
    requires Inv(db, now) && 0.0 <= credited
    ensures var after := SubmitShare(db, tenant, job, worker, credited, valid, now);
      var row := Share(tenant, job, Some(worker), if valid then credited else 0.0, valid, now);
      var stored := db.(shares := db.shares + [row]);
      after == if !Served(db, job) then db else if valid then Reconcile(stored, tenant, now) else stored
  {
    hide Reconcile, SharesOk, GrantsOk, Earnings, Order, Drained;
    assert forall id :: id in db.jobs && db.jobs[id].status == Running ==> JobOk(db.jobs[id], now) && db.jobs[id].user in db.users;
    assert Served(db, job) <==> IsGatewayJob(db, job);
  }

  // A share whose version bits are refused is stored without credit whatever job is being served, as
  // long as its own job is still there.
  lemma RefusedOutcome(db: Db, tenant: Id, job: Id, worker: Id, now: int)
    ensures var after := StoreRefused(db, tenant, job, worker, now);
      && after == db.(shares := after.shares)
      && after.shares == db.shares + if job in db.jobs then [Share(tenant, job, Some(worker), 0.0, false, now)] else []
  {
  }

  // -------------------------------------------------------------- losing access

  predicate IsOf(s: Session, t: Id, user: Option<Id>, folder: Option<Id>) {
    s.tenant == t && (user.None? || s.user == user.value) && (folder.None? || s.folder == folder.value)
  }

  lemma PromotionKeepsCleared(db: Db, t: Id, user: Option<Id>, folder: Option<Id>, now: int)
    requires Cleared(db, t, user, folder)
    ensures Cleared(PromoteUnblocked(db, t, now), t, user, folder) && PromoteUnblocked(db, t, now) == db.(jobs := PromoteUnblocked(db, t, now).jobs)
  {
  }

  // The permission is stored. If access is lost with it, no session of the user on the folder stays
  // active and no job stays open; otherwise nothing else changes. Other sessions are untouched.
  lemma PermissionOutcome(db: Db, t: Id, user: Id, folder: Id, unlock: bool, expiresAt: Option<int>, now: int, sid: Id)
    requires folder in db.folders && db.folders[folder].tenant == t && db.folders[folder].active
    requires user in db.users && db.users[user] == User(t, true, false)
    ensures var after := UpdatePermission(db, t, user, folder, unlock, expiresAt, now);
      var p := Permission(t, unlock, expiresAt);
      && after.perms == db.perms[(user, folder) := p] && after.users == db.users && after.folders == db.folders
      && (unlock && (expiresAt.Some? ==> now < expiresAt.value) ==> after == db.(perms := after.perms))
      && (!unlock || (expiresAt.Some? && expiresAt.value <= now) ==> Cleared(after, t, Some(user), Some(folder)))
      && (sid in db.sessions && !IsOf(db.sessions[sid], t, Some(user), Some(folder)) ==>
            sid in after.sessions && after.sessions[sid] == db.sessions[sid])
  {
    var p := Permission(t, unlock, expiresAt);
    if !KeepsAccess(p, now) {
      var stored := db.(perms := db.perms[(user, folder) := p]);
      var revoked := RevokeAccess(stored, t, Some(user), Some(folder), now, PermissionRevoked);
      RevokeClears(stored, t, Some(user), Some(folder), now, PermissionRevoked);
      PromotionKeepsCleared(revoked, t, Some(user), Some(folder), now);
    }
  }

  // A deleted folder has no active session, no open job and no permission left.
  lemma FolderOutcome(db: Db, t: Id, folder: Id, now: int, sid: Id)
    requires folder in db.folders && db.folders[folder].tenant == t && db.folders[folder].active
    ensures var after := DeleteFolder(db, t, folder, now);
      && folder in after.folders && !after.folders[folder].active && after.users == db.users
      && Cleared(after, t, None, Some(folder))
      && (forall k :: k in after.perms <==> k in db.perms && !(db.perms[k].tenant == t && k.1 == folder))
      && (sid in db.sessions && !IsOf(db.sessions[sid], t, None, Some(folder)) ==>
            sid in after.sessions && after.sessions[sid] == db.sessions[sid])
  {
    var revoked := RevokeAccess(db, t, None, Some(folder), now, FolderDeleted);
    RevokeClears(db, t, None, Some(folder), now, FolderDeleted);
    var gone := revoked.(perms := map k | k in revoked.perms && !(revoked.perms[k].tenant == t && k.1 == folder) :: revoked.perms[k],
                         folders := revoked.folders[folder := revoked.folders[folder].(active := false)]);
    assert Cleared(gone, t, None, Some(folder));
    PromotionKeepsCleared(gone, t, None, Some(folder), now);
  }

  // Of a deleted user nothing is left but shares of other users' jobs; other users' sessions and
  // permissions stay.
  lemma UserOutcome(db: Db, user: Id, now: int, sid: Id, id: Id)
    requires Inv(db, now) && user in db.users
    ensures var after := DeleteUser(db, user, now);
      && after.users == db.users - {user}
      && (id in after.jobs ==> id in db.jobs && after.jobs[id].user != user)
      && (sid in after.sessions ==> sid in db.sessions && after.sessions[sid].user != user)
      && (sid in db.sessions && db.sessions[sid].user != user ==> sid in after.sessions && after.sessions[sid] == db.sessions[sid])
      && (id in db.jobs && db.jobs[id].user != user ==> id in after.jobs)
  {
    hide Core, Drained, PromoteUnblocked, RevokeAccess, RemoveUserRows, Promote;
    var t := db.users[user].tenant;
    var revoked := RevokeAccess(db, t, Some(user), None, now, UserDeleted);
    var bare := RemoveUserRows(revoked, t, user);
    RevokeKeepsCore(db, t, Some(user), None, now, UserDeleted);
    CoreTables(revoked, now);
    assert revoked.users == db.users by { RevokeKeepsTables(db, t, Some(user), None, now, UserDeleted); }
    NoRowsOfUser(revoked, t, user, now);
    PromotionsAgree(bare, t, now);
    OthersOfUserKept(db, t, user, now, sid, id);
    PromotionKeepsRows(bare, t, now);
  }

  lemma CoreJobs(db: Db, id: Id, now: int)
    requires Core(db, now) && id in db.jobs
    ensures JobOk(db.jobs[id], now)
  {
    hide SharesOk, GrantsOk, TablesOk, Earnings, Order, JobOk;
  }

  lemma CoreTables(db: Db, now: int)
    requires Core(db, now)
    ensures TablesOk(db) && SessionsOk(db)
  {
    hide JobsOk, SharesOk, GrantsOk, TablesOk, SessionsOk, Order;
  }

  lemma RevokeKeepsTables(db: Db, t: Id, user: Option<Id>, folder: Option<Id>, now: int, reason: Reason)
    ensures var db' := RevokeAccess(db, t, user, folder, now, reason);
      db'.users == db.users && db'.jobs.Keys == db.jobs.Keys && db'.sessions.Keys == db.sessions.Keys
  {
  }

  lemma OthersOfUserKept(db: Db, t: Id, user: Id, now: int, sid: Id, id: Id)
    ensures var bare := RemoveUserRows(RevokeAccess(db, t, Some(user), None, now, UserDeleted), t, user);
      && (id in bare.jobs ==> id in db.jobs)
      && (sid in bare.sessions ==> sid in db.sessions)
      && (sid in db.sessions && db.sessions[sid].user != user ==> sid in bare.sessions && bare.sessions[sid] == db.sessions[sid])
      && (id in db.jobs && db.jobs[id].user != user ==> id in bare.jobs)
  {
  }

  lemma PromotionKeepsRows(db: Db, t: Id, now: int)
    ensures var db' := PromoteUnblocked(db, t, now); db' == db.(jobs := db'.jobs) && db'.jobs.Keys == db.jobs.Keys
  {
    if OldestUnblocked(db, t, now).Some? {
      assert IsOldestUnblocked(db, t, OldestUnblocked(db, t, now).value, now);
    }
  }

  // A folder row is taken exactly with a policy in range, and stays.
  lemma FolderTakenIff(db: Db, folder: Id, t: Id, p: Policy, now: int)
    ensures var after := Step(db, AddFolder(folder, t, p), now);
      && after == db.(folders := after.folders)
      && (folder !in db.folders ==>
            (folder in after.folders <==> 0.0 < p.required && 0.0 <= p.tolerance <= 50.0 && 5 <= p.window <= 600 && 1 <= p.attempts <= 10))
      && (folder !in db.folders && folder in after.folders ==> after.folders == db.folders[folder := Folder(t, true, p)])
      && (folder in db.folders ==> after == db)
  {
  }
}
