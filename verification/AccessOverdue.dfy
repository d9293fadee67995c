/** Jobs that start although their own deadline has passed: exactly when that happens. */
module AccessOverdue {
  import opened Base
  import opened Progress
  import opened AccessModel
  import opened AccessInvariant
  import opened AccessReconcile
  import opened AccessHandlers
  import opened AccessRuns
  import opened AccessPrompt

  // Queued and past its deadline before the step, running after it.
  ghost predicate StartsOverdue(db: Db, db': Db, now: int, id: Id) {
    && id in db.jobs && db.jobs[id].status == Queued && Overdue(db.jobs[id], now)
    && id in db'.jobs && db'.jobs[id].status == Running
  }

  // The rows of a tenant that belong to a user, a folder, or both.
  datatype Scope = Scope(tenant: Id, user: Option<Id>, folder: Option<Id>)
  {
    predicate Covers(u: Id, f: Id) {
      (user.None? || u == user.value) && (folder.None? || f == folder.value)
    }

    predicate CoversJob(j: Job) {
      Covers(j.user, j.folder)
    }

    predicate CoversSession(s: Session) {
      Covers(s.user, s.folder)
    }
  }

  // What a request of the archive or auth service closes.
  function ClosedBy(db: Db, e: Event, now: int): Option<Scope> {
    match e
    case SetPermission(t, user, folder, unlock, expiresAt) =>
      if folder in db.folders && db.folders[folder].tenant == t && db.folders[folder].active
         && user in db.users && db.users[user] == User(t, true, false) && !KeepsAccess(Permission(t, unlock, expiresAt), now)
      then Some(Scope(t, Some(user), Some(folder)))
      else None
    case RemoveFolder(t, folder) =>
      if folder in db.folders && db.folders[folder].tenant == t && db.folders[folder].active
      then Some(Scope(t, None, Some(folder)))
      else None
    case RemoveUser(user) =>
      if user in db.users then Some(Scope(db.users[user].tenant, Some(user), None)) else None
    case _ => None
  }

  // Everything that keeps the queue waiting lies in the scope.
  ghost predicate BlockersIn(db: Db, scope: Scope, now: int) {
    && (forall r :: RunningIn(db, scope.tenant, r) ==> scope.CoversJob(db.jobs[r]))
    && (forall sid :: LiveIn(db, scope.tenant, sid, now) ==> scope.CoversSession(db.sessions[sid]))
  }

  predicate Waits(db: Db, scope: Scope, id: Id) {
    QueuedIn(db, scope.tenant, id) && !scope.CoversJob(db.jobs[id])
  }

  // The head of the queue once the scope is gone.
  ghost predicate NextOutside(db: Db, scope: Scope, id: Id) {
    Waits(db, scope, id) && forall q :: Waits(db, scope, q) ==> Before(db.jobs, id, q)
  }

  // ------------------------------------------------------- closing, then promoting

  // What is left of the tenant after its rows in the scope are closed or removed.
  ghost predicate ClosesScope(db: Db, db': Db, scope: Scope, now: int) {
    && (forall q :: QueuedIn(db', scope.tenant, q) <==> Waits(db, scope, q))
    && (forall q :: Waits(db, scope, q) ==> q in db'.jobs && db'.jobs[q] == db.jobs[q])
    && (forall r :: RunningIn(db', scope.tenant, r) <==> RunningIn(db, scope.tenant, r) && !scope.CoversJob(db.jobs[r]))
    && (forall sid :: LiveIn(db', scope.tenant, sid, now) <==> LiveIn(db, scope.tenant, sid, now) && !scope.CoversSession(db.sessions[sid]))
    && (forall id :: id in db'.jobs && db'.jobs[id].status == Running ==> id in db.jobs && db.jobs[id].status == Running)
  }

  lemma UnblockedOutside(db: Db, db': Db, scope: Scope, now: int, id: Id)
    requires ClosesScope(db, db', scope, now)
    ensures IsOldestUnblocked(db', scope.tenant, id, now) <==> BlockersIn(db, scope, now) && NextOutside(db, scope, id)
  {
    hide RunningIn, QueuedIn, LiveIn, Waits;
    var t := scope.tenant;
    NothingThere(db', t, now);
    forall q | Waits(db, scope, q) && Waits(db, scope, id) ensures Before(db'.jobs, id, q) <==> Before(db.jobs, id, q) {
      SameOrder(db, db', scope, now, id, q);
    }
    forall q | QueuedIn(db', t, q) ensures q in db'.jobs { IsThere(db', t, q); }
  }

  lemma SameOrder(db: Db, db': Db, scope: Scope, now: int, a: Id, b: Id)
    requires ClosesScope(db, db', scope, now) && Waits(db, scope, a) && Waits(db, scope, b)
    ensures Before(db'.jobs, a, b) <==> Before(db.jobs, a, b)
  {
  }

  lemma IsThere(db: Db, t: Id, q: Id)
    requires QueuedIn(db, t, q)
    ensures q in db.jobs
  {
  }

  lemma NothingThere(db: Db, t: Id, now: int)
    ensures (exists r :: r in db.jobs && RunningIn(db, t, r)) <==> (exists r :: RunningIn(db, t, r))
    ensures (exists sid :: sid in db.sessions && LiveIn(db, t, sid, now)) <==> (exists sid :: LiveIn(db, t, sid, now))
  {
  }

  lemma OneHead(db: Db, t: Id, now: int, a: Id, b: Id)
    requires IsOldestUnblocked(db, t, a, now) && IsOldestUnblocked(db, t, b, now)
    ensures a == b
  {
    assert Before(db.jobs, a, b) && Before(db.jobs, b, a);
  }

  lemma PromotingStartsIff(db: Db, db': Db, scope: Scope, now: int, id: Id)
    requires ClosesScope(db, db', scope, now) && id in db.jobs && db.jobs[id].status == Queued
    ensures var after := PromoteUnblocked(db', scope.tenant, now);
      && (id in after.jobs && after.jobs[id].status == Running <==> BlockersIn(db, scope, now) && NextOutside(db, scope, id))
      && (id in after.jobs && after.jobs[id].status == Running ==> after.jobs[id] == db.jobs[id].(status := Running, startedAt := Some(now)))
  {
    hide BlockersIn, NextOutside, IsOldestUnblocked;
    var t := scope.tenant;
    UnblockedOutside(db, db', scope, now, id);
    var head := OldestUnblocked(db', t, now);
    if head.Some? {
      HeadIsQueued(db', t, head.value, now);
      if IsOldestUnblocked(db', t, id, now) {
        OneHead(db', t, now, head.value, id);
      }
      if head.value == id {
        HeadIsQueued(db', t, id, now);
        assert Waits(db, scope, id);
      }
    }
  }

  lemma HeadIsQueued(db: Db, t: Id, id: Id, now: int)
    requires IsOldestUnblocked(db, t, id, now)
    ensures QueuedIn(db, t, id)
  {
  }

  lemma RevokingCloses(db: Db, scope: Scope, now: int, reason: Reason)
    ensures ClosesScope(db, RevokeAccess(db, scope.tenant, scope.user, scope.folder, now, reason), scope, now)
  {
    hide RevokeAccess, QueuedIn, RunningIn, LiveIn;
    RevokingClosesJobs(db, scope, now, reason);
    RevokingClosesSessions(db, scope, now, reason);
  }

  lemma RevokingClosesJobs(db: Db, scope: Scope, now: int, reason: Reason)
    ensures var db' := RevokeAccess(db, scope.tenant, scope.user, scope.folder, now, reason);
      && (forall q :: QueuedIn(db', scope.tenant, q) <==> Waits(db, scope, q))
      && (forall q :: Waits(db, scope, q) ==> q in db'.jobs && db'.jobs[q] == db.jobs[q])
      && (forall r :: RunningIn(db', scope.tenant, r) <==> RunningIn(db, scope.tenant, r) && !scope.CoversJob(db.jobs[r]))
      && (forall id :: id in db'.jobs && db'.jobs[id].status == Running ==> id in db.jobs && db.jobs[id].status == Running)
  {
    hide RevokeAccess, JobOutside;
    var db' := RevokeAccess(db, scope.tenant, scope.user, scope.folder, now, reason);
    forall id ensures QueuedIn(db', scope.tenant, id) <==> Waits(db, scope, id) {
      RevokedJob(db, scope, now, reason, id);
      SeenAfter(db, db', scope, now, reason, id);
    }
    forall id | Waits(db, scope, id) ensures id in db'.jobs && db'.jobs[id] == db.jobs[id] {
      RevokedJob(db, scope, now, reason, id);
      SeenAfter(db, db', scope, now, reason, id);
    }
    forall id ensures RunningIn(db', scope.tenant, id) <==> id in db.jobs && RunningIn(db, scope.tenant, id) && !scope.CoversJob(db.jobs[id]) {
      RevokedJob(db, scope, now, reason, id);
      SeenAfter(db, db', scope, now, reason, id);
    }
    forall id | id in db'.jobs && db'.jobs[id].status == Running ensures id in db.jobs && db.jobs[id].status == Running {
      RevokedJob(db, scope, now, reason, id);
      SeenAfter(db, db', scope, now, reason, id);
    }
  }

  // One job, as the queue sees it before and after.
  lemma SeenAfter(db: Db, db': Db, scope: Scope, now: int, reason: Reason, id: Id)
    requires id in db.jobs <==> id in db'.jobs
    requires id in db.jobs ==> db'.jobs[id] == JobOutside(db.jobs[id], scope, now, reason)
    ensures QueuedIn(db', scope.tenant, id) <==> Waits(db, scope, id)
    ensures Waits(db, scope, id) ==> id in db'.jobs && db'.jobs[id] == db.jobs[id]
    ensures RunningIn(db, scope.tenant, id) ==> id in db.jobs
    ensures RunningIn(db', scope.tenant, id) <==> RunningIn(db, scope.tenant, id) && !scope.CoversJob(db.jobs[id])
    ensures id in db'.jobs && db'.jobs[id].status == Running ==> id in db.jobs && db.jobs[id].status == Running
  {
  }

  function JobOutside(j: Job, scope: Scope, now: int, reason: Reason): Job {
    if j.tenant == scope.tenant && Open(j) && scope.CoversJob(j) then j.(status := Canceled, finishedAt := Some(now), reason := reason) else j
  }

  lemma RevokedJob(db: Db, scope: Scope, now: int, reason: Reason, id: Id)
    ensures var db' := RevokeAccess(db, scope.tenant, scope.user, scope.folder, now, reason);
      && (id in db.jobs <==> id in db'.jobs)
      && (id in db.jobs ==> db'.jobs[id] == JobOutside(db.jobs[id], scope, now, reason))
  {
    hide FinishSessions, SessionsWhere;
  }

  lemma RevokingClosesSessions(db: Db, scope: Scope, now: int, reason: Reason)
    ensures var db' := RevokeAccess(db, scope.tenant, scope.user, scope.folder, now, reason);
      forall sid :: LiveIn(db', scope.tenant, sid, now) <==> LiveIn(db, scope.tenant, sid, now) && !scope.CoversSession(db.sessions[sid])
  {
    hide FinishJobs, OpenJobsWhere;
  }

  lemma OnlyJobsAndSessions(db: Db, db1: Db, db2: Db, scope: Scope, now: int)
    requires ClosesScope(db, db1, scope, now) && db2.jobs == db1.jobs && db2.sessions == db1.sessions
    ensures ClosesScope(db, db2, scope, now)
  {
    assert forall q :: QueuedIn(db2, scope.tenant, q) <==> QueuedIn(db1, scope.tenant, q);
    assert forall r :: RunningIn(db2, scope.tenant, r) <==> RunningIn(db1, scope.tenant, r);
    assert forall sid :: LiveIn(db2, scope.tenant, sid, now) <==> LiveIn(db1, scope.tenant, sid, now);
  }

  lemma RemovingCloses(db: Db, db1: Db, scope: Scope, now: int)
    requires ClosesScope(db, db1, scope, now) && scope.user.Some? && scope.folder.None?
    requires forall id :: id in db1.jobs ==> id in db.jobs && db1.jobs[id].user == db.jobs[id].user && db1.jobs[id].tenant == db.jobs[id].tenant
    requires forall sid :: sid in db1.sessions ==> sid in db.sessions && db1.sessions[sid].user == db.sessions[sid].user
    ensures ClosesScope(db, RemoveUserRows(db1, scope.tenant, scope.user.value), scope, now)
  {
    var db2 := RemoveUserRows(db1, scope.tenant, scope.user.value);
    assert forall q :: QueuedIn(db2, scope.tenant, q) ==> QueuedIn(db1, scope.tenant, q);
    assert forall r :: RunningIn(db2, scope.tenant, r) ==> RunningIn(db1, scope.tenant, r);
    assert forall sid :: LiveIn(db2, scope.tenant, sid, now) ==> LiveIn(db1, scope.tenant, sid, now);
    assert forall q :: Waits(db, scope, q) ==> QueuedIn(db1, scope.tenant, q);
  }

  // ------------------------------------------------------------ the three writers

  // With nothing to close there is nothing to free.
  lemma NothingClosedNothingFreed(db: Db, scope: Scope, now: int, id: Id)
    requires Drained(db) && OpenJobsWhere(db, scope.tenant, scope.user, scope.folder) == {}
    ensures !(BlockersIn(db, scope, now) && NextOutside(db, scope, id))
  {
    if NextOutside(db, scope, id) {
      assert QueuedIn(db, scope.tenant, id) && DrainedIn(db, scope.tenant);
      var r :| RunningIn(db, scope.tenant, r);
      assert r !in OpenJobsWhere(db, scope.tenant, scope.user, scope.folder);
      assert !scope.CoversJob(db.jobs[r]);
    }
  }

  lemma PermissionStartsIff(db: Db, e: Event, now: int, id: Id)
    requires Drained(db) && e.SetPermission? && ClosedBy(db, e, now).Some? && id in db.jobs && db.jobs[id].status == Queued
    ensures StartsIff(db, Step(db, e, now), ClosedBy(db, e, now).value, now, id)
  {
    hide Drained, ClosesScope, BlockersIn, NextOutside, PromoteUnblocked, RevokeAccess;
    var scope := ClosedBy(db, e, now).value;
    var p := Permission(e.tenant, e.unlock, e.expiresAt);
    var perms := db.perms[(e.user, e.folder) := p];
    var stored := db.(perms := perms);
    var revoked := RevokeAccess(stored, e.tenant, scope.user, scope.folder, now, PermissionRevoked);
    RevokingCloses(db, scope, now, PermissionRevoked);
    RevokeIgnoresPermissions(db, e.tenant, scope.user, scope.folder, perms, now, PermissionRevoked);
    OnlyJobsAndSessions(db, RevokeAccess(db, e.tenant, scope.user, scope.folder, now, PermissionRevoked), revoked, scope, now);
    PromotingStartsIff(db, revoked, scope, now, id);
    assert OpenJobsWhere(stored, e.tenant, scope.user, scope.folder) == OpenJobsWhere(db, e.tenant, scope.user, scope.folder);
    if OpenJobsWhere(db, e.tenant, scope.user, scope.folder) == {} {
      NothingClosedNothingFreed(db, scope, now, id);
      NotYetRunning(db, revoked, scope, now, id);
    }
  }

  lemma NotYetRunning(db: Db, db': Db, scope: Scope, now: int, id: Id)
    requires ClosesScope(db, db', scope, now) && id in db.jobs && db.jobs[id].status == Queued
    ensures !(id in db'.jobs && db'.jobs[id].status == Running)
  {
  }

  lemma FolderStartsIff(db: Db, e: Event, now: int, id: Id)
    requires e.RemoveFolder? && ClosedBy(db, e, now).Some? && id in db.jobs && db.jobs[id].status == Queued
    ensures StartsIff(db, Step(db, e, now), ClosedBy(db, e, now).value, now, id)
  {
    hide ClosesScope, BlockersIn, NextOutside, PromoteUnblocked, FinishJobs, FinishSessions, SessionsWhere, OpenJobsWhere;
    var scope := ClosedBy(db, e, now).value;
    var revoked := RevokeAccess(db, e.tenant, None, scope.folder, now, FolderDeleted);
    var gone := revoked.(perms := map k | k in revoked.perms && !(revoked.perms[k].tenant == e.tenant && k.1 == e.folder) :: revoked.perms[k],
                         folders := revoked.folders[e.folder := revoked.folders[e.folder].(active := false)]);
    RevokingCloses(db, scope, now, FolderDeleted);
    OnlyJobsAndSessions(db, revoked, gone, scope, now);
    PromotingStartsIff(db, gone, scope, now, id);
  }

  lemma UserStartsIff(db: Db, e: Event, now: int, id: Id)
    requires e.RemoveUser? && ClosedBy(db, e, now).Some? && id in db.jobs && db.jobs[id].status == Queued
    ensures StartsIff(db, Step(db, e, now), ClosedBy(db, e, now).value, now, id)
  {
    hide ClosesScope, BlockersIn, NextOutside, PromoteUnblocked, RemoveUserRows;
    var scope := ClosedBy(db, e, now).value;
    var revoked := RevokeAccess(db, scope.tenant, scope.user, None, now, UserDeleted);
    RevokingCloses(db, scope, now, UserDeleted);
    RemovingCloses(db, revoked, scope, now);
    PromotingStartsIff(db, RemoveUserRows(revoked, scope.tenant, e.user), scope, now, id);
  }

  // The queued job starts, at this instant, exactly if the scope held all blockers and leaves it at the head.
  ghost predicate StartsIff(db: Db, after: Db, scope: Scope, now: int, id: Id)
    requires id in db.jobs
  {
    && (id in after.jobs && after.jobs[id].status == Running <==> BlockersIn(db, scope, now) && NextOutside(db, scope, id))
    && (id in after.jobs && after.jobs[id].status == Running ==> after.jobs[id] == db.jobs[id].(status := Running, startedAt := Some(now)))
  }

  // ------------------------------------------------- those that reconcile first

  // The tenant a request reconciles before, or because, it does its own work.
  function ReconciledBy(e: Event): Option<Id> {
    match e
    case Refresh(t) => Some(t)
    case Create(t, _, _, _, _, _) => Some(t)
    case Cancel(t, _, _) => Some(t)
    case Close(t, _, _) => Some(t)
    case AdminClose(t, _) => Some(t)
    case _ => None
  }

  // Reconcile times an overdue job out before it starts any.
  lemma ReconcileTimesOut(db: Db, t: Id, now: int, id: Id)
    requires Core(db, now) && id in db.jobs && db.jobs[id].tenant == t && Overdue(db.jobs[id], now)
    ensures id in Reconcile(db, t, now).jobs ==> Reconcile(db, t, now).jobs[id].status == TimedOut
  {
    hide Core, Evolves, Promote, CompleteRunning;
    var db1 := ExpireSessions(db, t, now);
    var db2 := TimeoutRows(db1, t, now);
    ExpireKeepsCore(db, t, now);
    TimeoutRowsKeepCore(db1, t, now);
    CoreRows(db2, now);
    PromoteEvolves(db2, t, now);
    var db3 := Promote(db2, t, now);
    PromoteKeepsCore(db2, t, now);
    CompleteEvolves(db3, t, now);
    EvolvesComposes(db2, db3, CompleteRunning(db3, t, now));
    ReconcilePhases(db, t, now);
    assert db2.jobs[id].status == TimedOut;
    ClosedStays(db2, Reconcile(db, t, now), id);
  }

  lemma ClosedStays(db: Db, db': Db, id: Id)
    requires Evolves(db, db') && db.jobs.Keys <= db.issued && id in db.jobs && !Open(db.jobs[id])
    ensures id in db'.jobs ==> db'.jobs[id] == db.jobs[id]
  {
  }

  // A request that reconciles first is the same after a reconcile at the same instant.
  lemma ReconcilingTwice(db: Db, e: Event, now: int)
    requires Core(db, now) && ReconciledBy(e).Some?
    ensures Step(Reconcile(db, ReconciledBy(e).value, now), e, now) == Step(db, e, now)
  {
    hide Core, Reconcile, CreateJob, CancelJob, CloseSession, CloseSessionAsAdmin;
    ReconcileIsIdempotent(db, ReconciledBy(e).value, now);
  }

  lemma SameElsewhereStep(db: Db, e: Event, now: int)
    requires ReconciledBy(e).Some?
    ensures forall id :: id in db.jobs && db.jobs[id].tenant != ReconciledBy(e).value && id in db.issued && id in Step(db, e, now).jobs ==>
      Step(db, e, now).jobs[id] == db.jobs[id]
  {
    hide SameElsewhere, Reconcile, Promote, FinishSessions, CanUnlock, NewRow;
    var t := ReconciledBy(e).value;
    var ready := Reconcile(db, t, now);
    ReconcileSameElsewhere(db, t, now);
    SameRows(db.jobs, ready.jobs, t);
    match e
    case Refresh(_) =>
    case Create(_, _, _, _, _, _) =>
    case Cancel(_, user, id) =>
      var canceled := ready.(jobs := FinishJobs(ready.jobs, {id}, Canceled, now, ClientCanceled));
      PromoteSameElsewhere(canceled, t, now);
      SameRows(canceled.jobs, Promote(canceled, t, now).jobs, t);
    case Close(_, _, sid) =>
      var closed := ready.(sessions := FinishSessions(ready.sessions, {sid}, Closed, now, ClientClosed));
      PromoteSameElsewhere(closed, t, now);
      SameRows(closed.jobs, Promote(closed, t, now).jobs, t);
    case AdminClose(_, sid) =>
      var closed := ready.(sessions := FinishSessions(ready.sessions, {sid}, Closed, now, AdminClosed));
      PromoteSameElsewhere(closed, t, now);
      SameRows(closed.jobs, Promote(closed, t, now).jobs, t);
  }

  lemma SameRows(jobs: map<Id, Job>, jobs': map<Id, Job>, t: Id)
    requires SameElsewhere(jobs, jobs', t)
    ensures forall id :: id in jobs && jobs[id].tenant != t ==> id in jobs' && jobs'[id] == jobs[id]
  {
  }

  lemma ReconcilersStartNone(db: Db, e: Event, now: int, id: Id)
    requires Inv(db, now) && ReconciledBy(e).Some?
    ensures !StartsOverdue(db, Step(db, e, now), now, id)
  {
    hide Core, Drained, Step, Evolves, Reconcile, Overdue;
    var t := ReconciledBy(e).value;
    CoreRows(db, now);
    if id in db.jobs && Overdue(db.jobs[id], now) {
      if db.jobs[id].tenant == t {
        var ready := Reconcile(db, t, now);
        ReconcileKeepsInv(db, t, now);
        ReconcileTimesOut(db, t, now, id);
        ReconcilingTwice(db, e, now);
        StepEvolves(ready, e, now);
        StaysOut(db, ready, Step(db, e, now), t, now, id);
      } else {
        SameElsewhereStep(db, e, now);
      }
    }
  }

  // What reconcile timed out does not run after a later step.
  lemma StaysOut(db: Db, ready: Db, after: Db, t: Id, now: int, id: Id)
    requires Core(db, now) && ready == Reconcile(db, t, now) && Core(ready, now) && Evolves(ready, after)
    requires id in db.jobs && (id in ready.jobs ==> ready.jobs[id].status == TimedOut)
    ensures id in after.jobs ==> after.jobs[id].status != Running
  {
    hide Core, Reconcile;
    CoreRows(db, now);
    CoreRows(ready, now);
    assert ready.issued == db.issued;
  }

  lemma SubmitStartsNone(db: Db, e: Event, now: int, id: Id)
    requires Inv(db, now) && e.Submit?
    ensures !StartsOverdue(db, Step(db, e, now), now, id)
  {
    hide Inv, Overdue, IsGatewayJob, Reconcile, Core;
    if IsGatewayJob(db, e.job) && e.credited >= 0.0 && e.valid && id in db.jobs && Overdue(db.jobs[id], now) {
      var s := Share(e.tenant, e.job, Some(e.worker), e.credited, true, now);
      var stored := db.(shares := db.shares + [s]);
      assert e.job in db.jobs && db.jobs[e.job].status == Running by { ServedIsRunning(db, e.job); }
      AppendShareKeepsInv(db, s, now);
      InvHasCore(stored, now);
      if db.jobs[id].tenant == e.tenant {
        ReconcileTimesOut(stored, e.tenant, now, id);
      } else {
        ReconcileSameElsewhere(stored, e.tenant, now);
      }
    }
  }

  lemma ServedIsRunning(db: Db, job: Id)
    requires IsGatewayJob(db, job)
    ensures job in db.jobs && db.jobs[job].status == Running
  {
  }

  lemma InvHasCore(db: Db, now: int)
    requires Inv(db, now)
    ensures Core(db, now)
  {
    hide Core;
  }

  // --------------------------------------------------------------- the theorem

  lemma OthersStartNone(db: Db, e: Event, now: int, id: Id)
    requires Inv(db, now) && ClosedBy(db, e, now).None?
    ensures !StartsOverdue(db, Step(db, e, now), now, id)
  {
    hide Inv, Reconcile, CreateJob, CancelJob, CloseSession, CloseSessionAsAdmin, SubmitShare, Overdue;
    if ReconciledBy(e).Some? {
      ReconcilersStartNone(db, e, now, id);
    } else if e.Submit? {
      SubmitStartsNone(db, e, now, id);
    } else {
      match e
      case SetPermission(t, user, folder, unlock, expiresAt) =>
      case _ =>
    }
  }

  /** A request starts a job that was overdue before it exactly if it takes access away, all that
      kept the queue waiting goes with it, and the oldest job left in the queue is overdue. Requests
      that reconcile first, and shares, never start one. The job's time then counts from now. */
  lemma StartsOverdueIff(db: Db, e: Event, now: int, id: Id)
    requires Inv(db, now)
    ensures StartsOverdue(db, Step(db, e, now), now, id) <==>
      var closed := ClosedBy(db, e, now);
      closed.Some? && BlockersIn(db, closed.value, now) && NextOutside(db, closed.value, id) && Overdue(db.jobs[id], now)
    ensures ReconciledBy(e).Some? || e.Submit? ==> !StartsOverdue(db, Step(db, e, now), now, id)
    ensures StartsOverdue(db, Step(db, e, now), now, id) ==> !Overdue(Step(db, e, now).jobs[id], now)
  {
    hide Core, Step, Overdue, BlockersIn, Drained;
    var closed := ClosedBy(db, e, now);
    if closed.None? {
      OthersStartNone(db, e, now, id);
    } else if id in db.jobs && db.jobs[id].status == Queued {
      match e {
        case SetPermission(_, _, _, _, _) => PermissionStartsIff(db, e, now, id);
        case RemoveFolder(_, _) => FolderStartsIff(db, e, now, id);
        case RemoveUser(_) => UserStartsIff(db, e, now, id);
      }
      assert StartsIff(db, Step(db, e, now), closed.value, now, id);
      CoreRows(db, now);
      assert JobOk(db.jobs[id], now);
      JustStarted(db.jobs[id], now);
    }
  }

  lemma JustStarted(j: Job, now: int)
    requires JobOk(j, now)
    ensures !Overdue(j.(status := Running, startedAt := Some(now)), now)
  {
  }

  // ----------------------------------------------------------------- a run of it

  const LONG := Policy(1.0, 0.0, 600, 10)
  const SHORT := Policy(1.0, 0.0, 5, 1)

  // One client's job runs in folder 1; another's, with five seconds to its deadline, waits in
  // folder 2. Five seconds later folder 1 is deleted.
  const LATE_START: seq<Timed> := [
    At(AddUser(1, User(0, true, false)), 0), At(AddUser(2, User(0, true, false)), 0),
    At(AddFolder(1, 0, LONG), 0), At(AddFolder(2, 0, SHORT), 0),
    At(SetPermission(0, 1, 1, true, None), 0), At(SetPermission(0, 2, 2, true, None), 0),
    At(Create(0, 1, 1, 30, true, 1), 0), At(Create(0, 2, 2, 30, true, 2), 0),
    At(RemoveFolder(0, 1), 5 * SECOND)]

  const PREPARED := EMPTY.(
    users := EMPTY.users[1 := User(0, true, false)][2 := User(0, true, false)],
    folders := EMPTY.folders[1 := Folder(0, true, LONG)][2 := Folder(0, true, SHORT)],
    perms := EMPTY.perms[(1, 1) := Permission(0, true, None)][(2, 2) := Permission(0, true, None)])

  const FIRST_RUNS := PREPARED.(jobs := PREPARED.jobs[1 := NewRow(0, 1, 1, LONG, 30, true, 0)], issued := PREPARED.issued + {1})
  const SECOND_WAITS := FIRST_RUNS.(jobs := FIRST_RUNS.jobs[2 := NewRow(0, 2, 2, SHORT, 30, false, 0)], issued := FIRST_RUNS.issued + {2})

  lemma RunFoundsFolders()
    ensures Run(EMPTY, LATE_START[..4]) == PREPARED.(perms := EMPTY.perms)
  {
    hide Reconcile, CreateJob, UpdatePermission, Run;
    assert Run(EMPTY, LATE_START[..0]) == EMPTY by { RunOfNone(); }
    RunNext(LATE_START, 0);
    RunNext(LATE_START, 1);
    RunNext(LATE_START, 2);
    RunNext(LATE_START, 3);
  }

  lemma RunPrepares()
    ensures Run(EMPTY, LATE_START[..6]) == PREPARED
  {
    hide Reconcile, CreateJob, RevokeAccess, PromoteUnblocked, Run;
    RunFoundsFolders();
    RunNext(LATE_START, 4);
    RunNext(LATE_START, 5);
  }

  lemma RunOfNone()
    ensures Run(EMPTY, LATE_START[..0]) == EMPTY
  {
  }

  lemma FirstStarts()
    requires Monotone(LATE_START)
    ensures Run(EMPTY, LATE_START[..7]) == FIRST_RUNS
  {
    hide Run, Reconcile;
    RunPrepares();
    MonotonePrefix(LATE_START, 6);
    NothingToReconcile(LATE_START[..6], 0, 0);
    RunNext(LATE_START, 6);
    assert RunningJobs(PREPARED, 0) == {} && LiveSessions(PREPARED, 0, 0) == {};
  }

  lemma SecondWaits()
    requires Monotone(LATE_START)
    ensures Run(EMPTY, LATE_START[..8]) == SECOND_WAITS
  {
    hide Run, Reconcile, Accepted;
    FirstStarts();
    MonotonePrefix(LATE_START, 7);
    NothingToReconcile(LATE_START[..7], 0, 0);
    RunNext(LATE_START, 7);
    assert 1 in RunningJobs(FIRST_RUNS, 0) && LiveSessions(FIRST_RUNS, 0, 0) == {};
  }

  lemma SecondIsNext()
    ensures var e, now := RemoveFolder(0, 1), 5 * SECOND;
      var scope := Scope(0, None, Some(1));
      && ClosedBy(SECOND_WAITS, e, now) == Some(scope)
      && BlockersIn(SECOND_WAITS, scope, now) && NextOutside(SECOND_WAITS, scope, 2) && 2 in SECOND_WAITS.jobs
      && Overdue(SECOND_WAITS.jobs[2], now)
  {
    hide RequiredWork;
  }

  /** Deleting a folder starts a job that has missed its own deadline. */
  lemma AnOverdueJobStarts()
    ensures Monotone(LATE_START) && |LATE_START| == 9
    ensures StartsOverdue(Run(EMPTY, LATE_START[..8]), Run(EMPTY, LATE_START), 5 * SECOND, 2)
  {
    hide Run, Step, Accepted, ClosedBy, BlockersIn, NextOutside, Overdue, StartsOverdue, Inv, SECOND_WAITS;
    SecondWaits();
    RunNext(LATE_START, 8);
    assert LATE_START[..9] == LATE_START;
    MonotonePrefix(LATE_START, 8);
    RunKeepsInv(LATE_START[..8], 5 * SECOND);
    SecondIsNext();
    StartsOverdueIff(Run(EMPTY, LATE_START[..8]), RemoveFolder(0, 1), 5 * SECOND, 2);
  }
}
