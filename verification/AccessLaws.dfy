/** The access queue row by row, in the fields of the rows and the clock: which job starts, which
    times out, which session expires, and what is written then. */
module AccessLaws {
  import opened Base
  import opened Progress
  import opened AccessModel
  import opened AccessInvariant
  import opened AccessReconcile
  import opened AccessHandlers

  // ------------------------------------------------------------------ starting

  // The job next in line: the tenant runs no job, every session still marked active has run out, and
  // no queued job was created before it. The id decides between equal times.
  ghost predicate NextInLine(db: Db, t: Id, id: Id, now: int) {
    && id in db.jobs && db.jobs[id].tenant == t && db.jobs[id].status == Queued
    && (forall r :: r in db.jobs && db.jobs[r].tenant == t ==> db.jobs[r].status != Running)
    && (forall s :: s in db.sessions && db.sessions[s].tenant == t && db.sessions[s].status == Active ==> db.sessions[s].expiresAt <= now)
    && (forall o :: o in db.jobs && db.jobs[o].tenant == t && db.jobs[o].status == Queued ==>
          || db.jobs[id].createdAt < db.jobs[o].createdAt
          || (db.jobs[id].createdAt == db.jobs[o].createdAt && id <= o))
  }

  // The job next in line runs from now on; nothing else changes.
  ghost predicate StartsNext(db: Db, after: Db, t: Id, now: int) {
    && after == db.(jobs := after.jobs) && after.jobs.Keys == db.jobs.Keys
    && forall id :: id in db.jobs ==>
         after.jobs[id] == if NextInLine(db, t, id, now) then db.jobs[id].(status := Running, startedAt := Some(now)) else db.jobs[id]
  }

  lemma NextIffOldest(db: Db, t: Id, id: Id, now: int)
    ensures NextInLine(db, t, id, now) <==> CanStart(db, t, now) && IsOldestQueued(db, t, id)
  {
    hide CanStart;
    CanStartMeansClear(db, t, now);
    if CanStart(db, t, now) && IsOldestQueued(db, t, id) {
      forall r | r in db.jobs && db.jobs[r].tenant == t ensures db.jobs[r].status != Running {
        assert !RunningIn(db, t, r);
      }
      forall s | s in db.sessions && db.sessions[s].tenant == t && db.sessions[s].status == Active ensures db.sessions[s].expiresAt <= now {
        assert !LiveIn(db, t, s, now);
      }
      forall o | o in db.jobs && db.jobs[o].tenant == t && db.jobs[o].status == Queued ensures Before(db.jobs, id, o) {
        assert QueuedIn(db, t, o);
      }
    }
  }

  lemma OneIsOldest(db: Db, t: Id, a: Id, b: Id)
    requires IsOldestQueued(db, t, a) && IsOldestQueued(db, t, b)
    ensures a == b
  {
    assert Before(db.jobs, a, b) && Before(db.jobs, b, a);
  }

  /** A promotion starts the job next in line, if there is one, and changes nothing else: the check
      for blockers followed by the start, and the one statement that does both. */
  lemma PromotionStartsNext(db: Db, t: Id, now: int)
    ensures StartsNext(db, Promote(db, t, now), t, now) && StartsNext(db, PromoteUnblocked(db, t, now), t, now)
  {
    hide CanStart, IsOldestQueued, NextInLine;
    PromotionsAgree(db, t, now);
    OldestQueuedExists(db, t);
    var after := Promote(db, t, now);
    forall id | id in db.jobs
      ensures after.jobs[id] == if NextInLine(db, t, id, now) then db.jobs[id].(status := Running, startedAt := Some(now)) else db.jobs[id]
    {
      NextIffOldest(db, t, id, now);
      if CanStart(db, t, now) && IsOldestQueued(db, t, id) {
        OldestIsSome(db, t, id);
      }
    }
    assert OldestQueued(db, t).Some? ==> OldestQueued(db, t).value in db.jobs by { OldestIsQueued(db, t); }
  }

  lemma OldestIsSome(db: Db, t: Id, id: Id)
    requires IsOldestQueued(db, t, id)
    ensures OldestQueued(db, t) == Some(id)
  {
    OldestQueuedExists(db, t);
    OneIsOldest(db, t, id, OldestQueued(db, t).value);
  }

  lemma OldestIsQueued(db: Db, t: Id)
    ensures OldestQueued(db, t).Some? ==> QueuedIn(db, t, OldestQueued(db, t).value)
  {
    OldestQueuedExists(db, t);
  }

  // --------------------------------------------------------------- reconciling

  predicate PastDeadline(j: Job, now: int) {
    || (j.status == Running && j.startedAt.Some? && j.startedAt.value + j.timeout * 1_000_000 <= now)
    || (j.status == Queued && j.createdAt + j.timeout * 1_000_000 <= now)
  }

  // The tenant's overdue jobs have timed out and its lapsed sessions have expired; nothing else changed.
  ghost predicate Swept(db: Db, after: Db, t: Id, now: int) {
    && after == db.(jobs := after.jobs, sessions := after.sessions)
    && after.jobs.Keys == db.jobs.Keys && after.sessions.Keys == db.sessions.Keys
    && (forall id :: id in db.jobs ==>
          after.jobs[id] == if db.jobs[id].tenant == t && PastDeadline(db.jobs[id], now)
                            then db.jobs[id].(status := TimedOut, finishedAt := Some(now), reason := TimeoutReached) else db.jobs[id])
    && (forall s :: s in db.sessions ==>
          after.sessions[s] == if db.sessions[s].tenant == t && db.sessions[s].status == Active && db.sessions[s].expiresAt <= now
                               then db.sessions[s].(status := Expired, closedAt := Some(now), reason := TtlExpired) else db.sessions[s])
  }

  lemma SweepIs(db: Db, t: Id, now: int)
    requires JobsOk(db.jobs, now)
    ensures Swept(db, TimeoutRows(ExpireSessions(db, t, now), t, now), t, now)
  {
    var after := TimeoutRows(ExpireSessions(db, t, now), t, now);
    forall id | id in db.jobs
      ensures Overdue(db.jobs[id], now) <==> PastDeadline(db.jobs[id], now)
    {
      assert JobOk(db.jobs[id], now);
    }
    assert after.jobs.Keys == db.jobs.Keys && after.sessions.Keys == db.sessions.Keys;
  }

  /** Reconciling sweeps the tenant, starts the job next in line, and stops there unless a running job
      has an attempt window with enough work: then it completes that job, as it would from the state
      reached. */
  lemma ReconcileSweepsAndStarts(db: Db, t: Id, now: int) returns (swept: Db, next: Db)
    requires Inv(db, now)
    ensures Swept(db, swept, t, now) && StartsNext(swept, next, t, now)
    ensures NoLapsed(next, t, now) && NoOverdue(next, t, now) && Core(next, now)
    ensures Reconcile(db, t, now) == Reconcile(next, t, now)
    ensures (forall id, k: nat :: RunningIn(next, t, id) ==> !WindowSuffices(next.jobs[id], id, next.shares, k)) ==> Reconcile(db, t, now) == next
  {
    hide Core, Drained, Swept, StartsNext, WindowSuffices, Promote, NoLapsed, NoOverdue, TimeoutRows, ExpireSessions, CompleteRunning, Reconcile;
    var expired := ExpireSessions(db, t, now);
    ExpireKeepsCore(db, t, now);
    swept := TimeoutRows(expired, t, now);
    SweepIs(db, t, now) by { CoreHasJobs(db, now); }
    TimeoutPhase(expired, t, now);
    next := TimeoutJobs(expired, t, now);
    PromotionStartsNext(swept, t, now);
    ReconcilePhases(db, t, now);
    ReconcilePhases(next, t, now);
    NothingToExpire(next, t, now);
    NothingOverdue(next, t, now);
    DrainedPromotesNothing(next, t, now);
    if forall id, k: nat :: RunningIn(next, t, id) ==> !WindowSuffices(next.jobs[id], id, next.shares, k) {
      CoreHasJobs(next, now);
      forall id | RunningIn(next, t, id) ensures !Enough(next.jobs[id], id, next.shares) {
        EnoughIff(next.jobs[id], id, next.shares, now);
      }
      NotEnoughCompletesNothing(next, t, now);
    }
  }

  lemma CoreHasJobs(db: Db, now: int)
    requires Core(db, now)
    ensures JobsOk(db.jobs, now)
  {
    hide JobsOk, SharesOk, GrantsOk, TablesOk, Earnings, Order;
  }

  // -------------------------------------------------------------- losing access

  predicate OfUser(user: Option<Id>, owner: Id) {
    user.Some? ==> user.value == owner
  }

  // A session of the tenant that is active and fits user and folder; either of them may be left out.
  predicate ActiveOf(s: Session, t: Id, user: Option<Id>, folder: Option<Id>) {
    s.tenant == t && s.status == Active && OfUser(user, s.user) && OfUser(folder, s.folder)
  }

  predicate OpenOf(j: Job, t: Id, user: Option<Id>, folder: Option<Id>) {
    j.tenant == t && (j.status == Queued || j.status == Running) && OfUser(user, j.user) && OfUser(folder, j.folder)
  }

  // Exactly these sessions and jobs are closed, with the reason given.
  ghost predicate AccessGone(db: Db, after: Db, t: Id, user: Option<Id>, folder: Option<Id>, now: int, reason: Reason) {
    && after.jobs.Keys == db.jobs.Keys && after.sessions.Keys == db.sessions.Keys
    && (forall s :: s in db.sessions ==>
          after.sessions[s] == if ActiveOf(db.sessions[s], t, user, folder)
                               then db.sessions[s].(status := Revoked, closedAt := Some(now), reason := reason) else db.sessions[s])
    && (forall id :: id in db.jobs ==>
          after.jobs[id] == if OpenOf(db.jobs[id], t, user, folder)
                            then db.jobs[id].(status := Canceled, finishedAt := Some(now), reason := reason) else db.jobs[id])
  }

  lemma RevocationIs(db: Db, t: Id, user: Option<Id>, folder: Option<Id>, now: int, reason: Reason)
    ensures AccessGone(db, RevokeAccess(db, t, user, folder, now, reason), t, user, folder, now, reason)
  {
    var after := RevokeAccess(db, t, user, folder, now, reason);
    assert after.jobs.Keys == db.jobs.Keys && after.sessions.Keys == db.sessions.Keys by { RevokedKeys(db, t, user, folder, now, reason); }
    SessionsGone(db, t, user, folder);
    JobsGone(db, t, user, folder);
    hide SessionsWhere, OpenJobsWhere, ActiveOf, OpenOf;
  }

  lemma RevokedKeys(db: Db, t: Id, user: Option<Id>, folder: Option<Id>, now: int, reason: Reason)
    ensures var after := RevokeAccess(db, t, user, folder, now, reason);
      after.jobs.Keys == db.jobs.Keys && after.sessions.Keys == db.sessions.Keys
  {
    hide SessionsWhere, OpenJobsWhere;
  }

  lemma SessionsGone(db: Db, t: Id, user: Option<Id>, folder: Option<Id>)
    ensures forall s :: s in db.sessions ==> (s in SessionsWhere(db, t, user, folder) <==> ActiveOf(db.sessions[s], t, user, folder))
  {
  }

  lemma JobsGone(db: Db, t: Id, user: Option<Id>, folder: Option<Id>)
    ensures forall id :: id in db.jobs ==> (id in OpenJobsWhere(db, t, user, folder) <==> OpenOf(db.jobs[id], t, user, folder))
  {
  }

  /** Taking a permission away revokes exactly the user's active sessions and open jobs on the folder,
      and then starts the job next in line. */
  lemma PermissionRows(db: Db, t: Id, user: Id, folder: Id, unlock: bool, expiresAt: Option<int>, now: int) returns (gone: Db)
    requires Inv(db, now)
    requires folder in db.folders && db.folders[folder].tenant == t && db.folders[folder].active
    requires user in db.users && db.users[user] == User(t, true, false)
    requires !unlock || (expiresAt.Some? && expiresAt.value <= now)
    ensures AccessGone(db, gone, t, Some(user), Some(folder), now, PermissionRevoked)
    ensures StartsNext(gone, UpdatePermission(db, t, user, folder, unlock, expiresAt, now), t, now)
  {
    hide Core, DrainedIn, AccessGone, StartsNext, RevokeAccess;
    var stored := db.(perms := db.perms[(user, folder) := Permission(t, unlock, expiresAt)]);
    gone := RevokeAccess(stored, t, Some(user), Some(folder), now, PermissionRevoked);
    RevocationIs(stored, t, Some(user), Some(folder), now, PermissionRevoked);
    assert AccessGone(db, gone, t, Some(user), Some(folder), now, PermissionRevoked) by { SameRows(db, stored, gone, t, Some(user), Some(folder), now, PermissionRevoked); }
    PromotionStartsNext(gone, t, now);
    if Cleared(stored, t, Some(user), Some(folder)) {
      NothingRevoked(stored, t, Some(user), Some(folder), now, PermissionRevoked);
      assert DrainedIn(gone, t) by { SameJobsKeepDrained(db, gone); }
      PromotionsAgree(gone, t, now);
      DrainedPromotesNothing(gone, t, now);
    }
  }

  lemma SameRows(db: Db, stored: Db, after: Db, t: Id, user: Option<Id>, folder: Option<Id>, now: int, reason: Reason)
    requires stored.jobs == db.jobs && stored.sessions == db.sessions && AccessGone(stored, after, t, user, folder, now, reason)
    ensures AccessGone(db, after, t, user, folder, now, reason)
  {
  }

  /** Deleting a folder revokes exactly the active sessions and open jobs on it, drops its
      permissions, and then starts the job next in line. */
  lemma FolderRows(db: Db, t: Id, folder: Id, now: int) returns (gone: Db)
    requires folder in db.folders && db.folders[folder].tenant == t && db.folders[folder].active
    ensures AccessGone(db, gone, t, None, Some(folder), now, FolderDeleted)
    ensures StartsNext(gone, DeleteFolder(db, t, folder, now), t, now)
  {
    hide AccessGone, StartsNext, PromoteUnblocked, FinishSessions, FinishJobs;
    var revoked := RevokeAccess(db, t, None, Some(folder), now, FolderDeleted);
    RevocationIs(db, t, None, Some(folder), now, FolderDeleted);
    gone := revoked.(perms := map k | k in revoked.perms && !(revoked.perms[k].tenant == t && k.1 == folder) :: revoked.perms[k],
                     folders := revoked.folders[folder := revoked.folders[folder].(active := false)]);
    assert AccessGone(db, gone, t, None, Some(folder), now, FolderDeleted) by { SameRowsAfter(db, revoked, gone, t, None, Some(folder), now, FolderDeleted); }
    PromotionStartsNext(gone, t, now);
  }

  lemma SameRowsAfter(db: Db, revoked: Db, after: Db, t: Id, user: Option<Id>, folder: Option<Id>, now: int, reason: Reason)
    requires after.jobs == revoked.jobs && after.sessions == revoked.sessions && AccessGone(db, revoked, t, user, folder, now, reason)
    ensures AccessGone(db, after, t, user, folder, now, reason)
  {
  }

  // The rows that stay when a user goes: the jobs, sessions and permissions of the others, as they
  // were, and each share as often as it was there if its job stays.
  ghost predicate WithoutUser(db: Db, bare: Db, user: Id) {
    && (forall id :: id in bare.jobs <==> id in db.jobs && db.jobs[id].user != user)
    && (forall id :: id in bare.jobs ==> bare.jobs[id] == db.jobs[id])
    && (forall s :: s in bare.sessions <==> s in db.sessions && db.sessions[s].user != user)
    && (forall s :: s in bare.sessions ==> bare.sessions[s] == db.sessions[s])
    && (forall k :: k in bare.perms <==> k in db.perms && k.0 != user)
    && (forall k :: k in bare.perms ==> bare.perms[k] == db.perms[k])
    && (forall s :: multiset(bare.shares)[s] == if s.job in bare.jobs then multiset(db.shares)[s] else 0)
  }

  /** Deleting a user removes exactly the user's own rows, with the shares of the user's jobs, and then
      starts the job next in line among the others. */
  lemma UserRows(db: Db, user: Id, now: int) returns (bare: Db)
    requires Inv(db, now) && user in db.users
    ensures WithoutUser(db, bare, user)
    ensures StartsNext(bare, DeleteUser(db, user, now).(users := bare.users), db.users[user].tenant, now)
    ensures DeleteUser(db, user, now).users == db.users - {user}
  {
    hide Core, Drained, RevokeAccess, RemoveUserRows, PromoteUnblocked, WithoutUser, StartsNext;
    var t := db.users[user].tenant;
    var revoked := RevokeAccess(db, t, Some(user), None, now, UserDeleted);
    bare := RemoveUserRows(revoked, t, user);
    RevocationIs(db, t, Some(user), None, now, UserDeleted);
    OwnRowsGo(db, t, user, now);
    PromotionStartsNext(bare, t, now);
    PromotedIs(bare, t, now);
    TablesStay(db, t, user, now);
  }

  lemma PromotedIs(db: Db, t: Id, now: int)
    requires StartsNext(db, PromoteUnblocked(db, t, now), t, now)
    ensures PromoteUnblocked(db, t, now).users == db.users
  {
    hide NextInLine, PromoteUnblocked;
  }

  lemma TablesStay(db: Db, t: Id, user: Id, now: int)
    ensures var bare := RemoveUserRows(RevokeAccess(db, t, Some(user), None, now, UserDeleted), t, user);
      bare.users == db.users && bare.shares == SharesOfJobs(db.shares, bare.jobs.Keys)
  {
    hide SessionsWhere, OpenJobsWhere, SharesOfJobs;
  }

  lemma OwnRowsGo(db: Db, t: Id, user: Id, now: int)
    requires Core(db, now) && user in db.users && db.users[user].tenant == t
    requires AccessGone(db, RevokeAccess(db, t, Some(user), None, now, UserDeleted), t, Some(user), None, now, UserDeleted)
    ensures WithoutUser(db, RemoveUserRows(RevokeAccess(db, t, Some(user), None, now, UserDeleted), t, user), user)
  {
    hide Core, RevokeAccess, RemoveUserRows, SharesOfJobs, AccessGone;
    var revoked := RevokeAccess(db, t, Some(user), None, now, UserDeleted);
    var bare := RemoveUserRows(revoked, t, user);
    TablesStay(db, t, user, now);
    OwnTenant(db, t, user, now);
    OnlyOwnChange(db, revoked, t, user, now);
    OwnJobsGo(db, revoked, t, user);
    OwnSessionsGo(db, revoked, t, user);
    OwnPermissionsGo(db, revoked, t, user);
    forall s: Share ensures multiset(bare.shares)[s] == if s.job in bare.jobs then multiset(db.shares)[s] else 0 {
      SharesStay(db.shares, bare.jobs.Keys, s);
    }
  }

  // Everything a user owns is in the user's tenant.
  ghost predicate OwnIn(db: Db, t: Id, user: Id) {
    && (forall id :: id in db.jobs && db.jobs[id].user == user ==> db.jobs[id].tenant == t)
    && (forall s :: s in db.sessions && db.sessions[s].user == user ==> db.sessions[s].tenant == t)
    && (forall k :: k in db.perms && k.0 == user ==> db.perms[k].tenant == t)
  }

  lemma OwnTenant(db: Db, t: Id, user: Id, now: int)
    requires Core(db, now) && user in db.users && db.users[user].tenant == t
    ensures OwnIn(db, t, user)
  {
    hide JobsOk, SharesOk, GrantsOk, Order, OneSessionPerJob, SuccessOpened;
    forall s | s in db.sessions && db.sessions[s].user == user ensures db.sessions[s].tenant == t {
      assert SessionOk(db.jobs, db.shares, db.sessions[s]);
    }
  }

  // Rows keep their owners, and those of others do not change at all.
  ghost predicate OnlyOwn(db: Db, revoked: Db, user: Id) {
    && revoked.jobs.Keys == db.jobs.Keys && revoked.sessions.Keys == db.sessions.Keys && revoked.perms == db.perms
    && (forall id :: id in db.jobs ==>
          (revoked.jobs[id].user, revoked.jobs[id].tenant) == (db.jobs[id].user, db.jobs[id].tenant)
          && (db.jobs[id].user != user ==> revoked.jobs[id] == db.jobs[id]))
    && (forall s :: s in db.sessions ==>
          (revoked.sessions[s].user, revoked.sessions[s].tenant) == (db.sessions[s].user, db.sessions[s].tenant)
          && (db.sessions[s].user != user ==> revoked.sessions[s] == db.sessions[s]))
  }

  lemma OnlyOwnChange(db: Db, revoked: Db, t: Id, user: Id, now: int)
    requires revoked == RevokeAccess(db, t, Some(user), None, now, UserDeleted)
    requires AccessGone(db, revoked, t, Some(user), None, now, UserDeleted)
    ensures OnlyOwn(db, revoked, user)
  {
    hide FinishJobs, FinishSessions, SessionsWhere, OpenJobsWhere;
  }

  lemma OwnJobsGo(db: Db, revoked: Db, t: Id, user: Id)
    requires OwnIn(db, t, user) && OnlyOwn(db, revoked, user)
    ensures var jobs := RemoveUserRows(revoked, t, user).jobs;
      && (forall id :: id in jobs <==> id in db.jobs && db.jobs[id].user != user)
      && (forall id :: id in jobs ==> jobs[id] == db.jobs[id])
  {
    hide SharesOfJobs;
  }

  lemma OwnSessionsGo(db: Db, revoked: Db, t: Id, user: Id)
    requires OwnIn(db, t, user) && OnlyOwn(db, revoked, user)
    ensures var sessions := RemoveUserRows(revoked, t, user).sessions;
      && (forall s :: s in sessions <==> s in db.sessions && db.sessions[s].user != user)
      && (forall s :: s in sessions ==> sessions[s] == db.sessions[s])
  {
    hide SharesOfJobs;
  }

  lemma OwnPermissionsGo(db: Db, revoked: Db, t: Id, user: Id)
    requires OwnIn(db, t, user) && OnlyOwn(db, revoked, user)
    ensures var perms := RemoveUserRows(revoked, t, user).perms;
      && (forall k :: k in perms <==> k in db.perms && k.0 != user)
      && (forall k :: k in perms ==> perms[k] == db.perms[k])
  {
    hide SharesOfJobs;
  }

  lemma {:induction false} SharesStay(shares: seq<Share>, jobs: set<Id>, s: Share)
    ensures multiset(SharesOfJobs(shares, jobs))[s] == if s.job in jobs then multiset(shares)[s] else 0
  {
    if shares != [] {
      var n := |shares| - 1;
      assert shares == shares[..n] + [shares[n]];
      SharesStay(shares[..n], jobs, s);
    }
  }
}
