/** Every handler keeps the invariant: those of the access service, which reconcile first, and the
    three writers in other services, which do not. */
module AccessHandlers {
  import opened Base
  import opened Progress
  import opened AccessModel
  import opened AccessInvariant
  import opened AccessReconcile

  /** The promotion written as one statement and the one written as a check and an update agree. */
  lemma PromotionsAgree(db: Db, t: Id, now: int)
    ensures PromoteUnblocked(db, t, now) == Promote(db, t, now)
  {
    CanStartMeansClear(db, t, now);
    OldestQueuedExists(db, t);
    if CanStart(db, t, now) && OldestQueued(db, t).Some? {
      assert IsOldestUnblocked(db, t, OldestQueued(db, t).value, now);
    }
  }

  lemma {:induction false} ClockKeepsInv(db: Db, now: int, later: int)
    requires Inv(db, now) && now <= later
    ensures Inv(db, later)
  {
    forall id | id in db.jobs
      ensures JobOk(db.jobs[id], later)
    {
      assert JobOk(db.jobs[id], now);
    }
    forall id, sid | id in db.jobs && sid in db.sessions
      ensures Apart(db.jobs[id], db.sessions[sid], later)
    {
      assert Apart(db.jobs[id], db.sessions[sid], now);
    }
  }

  // A promotion after Core is back turns into the invariant again.
  lemma PromoteRestoresInv(before: Db, db: Db, t: Id, now: int)
    requires Inv(before, now) && Core(db, now) && SameElsewhere(before.jobs, db.jobs, t)
    ensures Inv(Promote(db, t, now), now)
  {
    var db' := Promote(db, t, now);
    PromoteKeepsCore(db, t, now);
    PromoteDrains(db, t, now);
    PromoteSameElsewhere(db, t, now);
    SameElsewhereComposes(before.jobs, db.jobs, db'.jobs, t);
    forall u
      ensures DrainedIn(db', u)
    {
      if u != t {
        OthersKeepDrained(before, db', t, u);
      }
    }
  }

  // ----------------------------------------------------------- access service

  lemma RequiredWorkPositive(p: Policy)
    requires PolicyOk(p)
    ensures 0.0 < Accepted(p) && 0.0 < RequiredWork(p) && 0 < p.window * p.attempts
  {
    var share := 1.0 - p.tolerance / 100.0;
    assert 0.5 <= share;
    ProductPositive(p.required, share);
    ProductPositive(Accepted(p), p.window as real);
  }

  lemma ProductPositive(a: real, b: real)
    requires 0.0 < a && 0.0 < b
    ensures 0.0 < a * b
  {
  }

  lemma InsertKeepsCore(db: Db, t: Id, user: Id, folder: Id, ttlSetting: int, id: Id, start: bool, now: int)
    requires Core(db, now) && id !in db.issued
    requires Granted(db, t, user, folder) && PolicyOk(db.folders[folder].policy)
    requires forall sid :: !LiveIn(db, t, sid, now)
    requires start ==> forall o :: o in db.jobs && db.jobs[o].tenant == t ==> !Open(db.jobs[o])
    ensures var row := NewRow(t, user, folder, db.folders[folder].policy, ttlSetting, start, now);
            Core(db.(jobs := db.jobs[id := row], issued := db.issued + {id}), now)
  {
    var row := NewRow(t, user, folder, db.folders[folder].policy, ttlSetting, start, now);
    RequiredWorkPositive(row.policy);
    assert JobOk(row, now);
    InsertKeepsRows(db, id, row, now);
    InsertKeepsEarnings(db, id, row);
    InsertKeepsOrder(db, id, row, now);
  }

  lemma InsertKeepsRows(db: Db, id: Id, row: Job, now: int)
    requires Rows(db, now) && id !in db.issued && JobOk(row, now) && Granted(db, row.tenant, row.user, row.folder)
    ensures Rows(db.(jobs := db.jobs[id := row], issued := db.issued + {id}), now)
  {
    hide JobOk, SharesSound, PolicyOk;
    var jobs' := db.jobs[id := row];
    var db' := db.(jobs := jobs', issued := db.issued + {id});
    forall i | 0 <= i < |db.shares|
      ensures ShareOk(db.shares[i], jobs')
    {
      assert ShareOk(db.shares[i], db.jobs);
    }
    forall o | o in jobs' && Open(jobs'[o])
      ensures Granted(db', jobs'[o].tenant, jobs'[o].user, jobs'[o].folder)
    {
      assert o != id ==> Granted(db, db.jobs[o].tenant, db.jobs[o].user, db.jobs[o].folder);
    }
  }

  lemma InsertKeepsEarnings(db: Db, id: Id, row: Job)
    requires Earnings(db) && id !in db.jobs && row.status != Succeeded
    ensures Earnings(db.(jobs := db.jobs[id := row], issued := db.issued + {id}))
  {
    var jobs' := db.jobs[id := row];
    forall sid | sid in db.sessions
      ensures SessionOk(jobs', db.shares, db.sessions[sid])
    {
      assert SessionOk(db.jobs, db.shares, db.sessions[sid]);
    }
    forall o | o in jobs' && jobs'[o].status == Succeeded
      ensures HasSession(db.sessions, o)
    {
      assert o != id;
    }
  }

  lemma InsertKeepsOrder(db: Db, id: Id, row: Job, now: int)
    requires Order(db, now) && JobsOk(db.jobs, now) && id !in db.jobs
    requires row.createdAt == now && (row.startedAt == None || row.startedAt == Some(now))
    requires row.status == Queued || row.status == Running
    requires row.status == Queued ==> row.startedAt.None?
    requires forall sid :: !LiveIn(db, row.tenant, sid, now)
    requires row.status == Running ==> forall o :: o in db.jobs && db.jobs[o].tenant == row.tenant ==> !Open(db.jobs[o])
    ensures Order(db.(jobs := db.jobs[id := row], issued := db.issued + {id}), now)
  {
    var jobs' := db.jobs[id := row];
    forall a, b | a in jobs' && b in jobs'
      ensures InOrder(jobs'[a], jobs'[b])
      ensures BothRun(jobs'[a], jobs'[b]) ==> a == b
    {
      assert a != id ==> JobOk(db.jobs[a], now);
      assert b != id ==> JobOk(db.jobs[b], now);
      if a != id && b != id {
        assert InOrder(db.jobs[a], db.jobs[b]);
        assert BothRun(db.jobs[a], db.jobs[b]) ==> a == b;
      }
    }
    forall o, sid | o in jobs' && sid in db.sessions
      ensures Apart(jobs'[o], db.sessions[sid], now)
    {
      assert o != id ==> Apart(db.jobs[o], db.sessions[sid], now);
      assert !LiveIn(db, row.tenant, sid, now);
    }
  }

  /** A job starts at once only when its tenant has no open job at all; otherwise it waits behind
      a running one. */
  lemma StartsAtOnceOnlyAlone(db: Db, t: Id, now: int)
    requires Inv(db, now)
    ensures CanStart(db, t, now) ==> forall o :: o in db.jobs && db.jobs[o].tenant == t ==> !Open(db.jobs[o])
    ensures !CanStart(db, t, now) ==> ActiveSessionExists(db, t, now) || exists r :: RunningIn(db, t, r)
  {
    CanStartMeansClear(db, t, now);
    assert DrainedIn(db, t);
    assert forall o :: o in db.jobs && db.jobs[o].tenant == t && Open(db.jobs[o]) ==> QueuedIn(db, t, o) || RunningIn(db, t, o);
  }

  lemma CreateKeepsInv(db: Db, t: Id, user: Id, folder: Id, ttlSetting: int, sealOk: bool, id: Id, now: int)
    requires Inv(db, now) && id !in db.issued && user in db.users && db.users[user].tenant == t
    ensures Inv(CreateJob(db, t, user, folder, ttlSetting, sealOk, id, now).0, now)
  {
    hide JobsOk, SharesOk, GrantsOk, Earnings, Order, RequiredWork, PolicyOk, Granted, CanStart;
    var (db', r) := CreateJob(db, t, user, folder, ttlSetting, sealOk, id, now);
    if r.Ok? && r.value.NewJob? {
      var start := CanStart(db, t, now);
      CreateNeeds(db, t, user, folder, now);
      CanStartMeansClear(db, t, now);
      StartsAtOnceOnlyAlone(db, t, now);
      InsertKeepsCore(db, t, user, folder, ttlSetting, id, start, now);
      InsertDrained(db, id, db'.jobs[id]);
    }
  }

  lemma CreateNeeds(db: Db, t: Id, user: Id, folder: Id, now: int)
    requires TablesOk(db) && user in db.users && db.users[user].tenant == t
    requires CanUnlock(db, t, user, folder, now) == Some(true) && folder in db.folders && db.folders[folder].tenant == t
    ensures Granted(db, t, user, folder) && PolicyOk(db.folders[folder].policy)
  {
  }

  lemma InsertDrained(db: Db, id: Id, row: Job)
    requires Drained(db) && id !in db.jobs
    requires row.status == Running || exists r :: RunningIn(db, row.tenant, r)
    ensures Drained(db.(jobs := db.jobs[id := row], issued := db.issued + {id}))
  {
    var db' := db.(jobs := db.jobs[id := row], issued := db.issued + {id});
    assert forall t, r :: RunningIn(db, t, r) ==> RunningIn(db', t, r);
    forall t
      ensures DrainedIn(db', t)
    {
      assert DrainedIn(db, t);
      assert row.status == Running ==> RunningIn(db', row.tenant, id);
      assert forall q :: QueuedIn(db', t, q) && q != id ==> QueuedIn(db, t, q);
    }
  }

  lemma CancelKeepsInv(db: Db, t: Id, user: Id, id: Id, now: int)
    requires Inv(db, now)
    ensures Inv(CancelJob(db, t, user, id, now).0, now)
  {
    hide Rows, Earnings, Order, Drained, Promote;
    if CancelJob(db, t, user, id, now).1.Ok? {
      FinishJobsKeepsCore(db, {id}, Canceled, now, ClientCanceled);
      PromoteRestoresInv(db, db.(jobs := FinishJobs(db.jobs, {id}, Canceled, now, ClientCanceled)), t, now);
    }
  }

  lemma ClosingKeepsInv(db: Db, t: Id, sid: Id, now: int, reason: Reason)
    requires Inv(db, now)
    ensures Inv(Promote(db.(sessions := FinishSessions(db.sessions, {sid}, Closed, now, reason)), t, now), now)
  {
    FinishSessionsKeepsCore(db, {sid}, Closed, now, reason);
    PromoteRestoresInv(db, db.(sessions := FinishSessions(db.sessions, {sid}, Closed, now, reason)), t, now);
  }

  // ------------------------------------------------- writers in other services

  lemma RevokeKeepsCore(db: Db, t: Id, user: Option<Id>, folder: Option<Id>, now: int, reason: Reason)
    requires Core(db, now)
    ensures Core(RevokeAccess(db, t, user, folder, now, reason), now)
    ensures SameElsewhere(db.jobs, RevokeAccess(db, t, user, folder, now, reason).jobs, t)
  {
    hide Core, SameElsewhere, RevokeAccess;
    RevokeSameElsewhere(db, t, user, folder, now, reason);
    RevokedIsCore(db, t, user, folder, now, reason);
  }

  lemma RevokeSameElsewhere(db: Db, t: Id, user: Option<Id>, folder: Option<Id>, now: int, reason: Reason)
    ensures SameElsewhere(db.jobs, RevokeAccess(db, t, user, folder, now, reason).jobs, t)
  {
  }

  lemma RevokedIsCore(db: Db, t: Id, user: Option<Id>, folder: Option<Id>, now: int, reason: Reason)
    requires Core(db, now)
    ensures Core(RevokeAccess(db, t, user, folder, now, reason), now)
  {
    hide Core;
    var ids := SessionsWhere(db, t, user, folder);
    var db1 := db.(sessions := FinishSessions(db.sessions, ids, Revoked, now, reason));
    FinishSessionsKeepsCore(db, ids, Revoked, now, reason);
    FinishJobsKeepsCore(db1, OpenJobsWhere(db, t, user, folder), Canceled, now, reason);
  }

  // Nothing open or active is left for this user in this folder.
  ghost predicate Cleared(db: Db, t: Id, user: Option<Id>, folder: Option<Id>) {
    && OpenJobsWhere(db, t, user, folder) == {}
    && SessionsWhere(db, t, user, folder) == {}
  }

  lemma RevokeClears(db: Db, t: Id, user: Option<Id>, folder: Option<Id>, now: int, reason: Reason)
    ensures Cleared(RevokeAccess(db, t, user, folder, now, reason), t, user, folder)
  {
  }

  lemma StorePermissionKeepsCore(db: Db, t: Id, user: Id, folder: Id, p: Permission, now: int)
    requires Core(db, now) && p.tenant == t
    requires user in db.users && db.users[user].tenant == t && folder in db.folders && db.folders[folder].tenant == t
    requires p.unlock || Cleared(db, t, Some(user), Some(folder))
    ensures Core(db.(perms := db.perms[(user, folder) := p]), now)
  {
    hide JobsOk, SharesOk, SessionOk, OneSessionPerJob, SuccessOpened, Fifo, OneRunning, OneActive, Exclusive, Cleared, GrantsOk;
    var db' := db.(perms := db.perms[(user, folder) := p]);
    assert GrantsOk(db') by {
      StorePermissionKeepsGrants(db, t, user, folder, p);
    }
    assert TablesOk(db');
  }

  lemma StorePermissionKeepsGrants(db: Db, t: Id, user: Id, folder: Id, p: Permission)
    requires GrantsOk(db) && p.tenant == t && user in db.users && db.users[user].tenant == t
    requires p.unlock || Cleared(db, t, Some(user), Some(folder))
    ensures GrantsOk(db.(perms := db.perms[(user, folder) := p]))
  {
    var db' := db.(perms := db.perms[(user, folder) := p]);
    forall id | id in db.jobs && Open(db.jobs[id])
      ensures Granted(db', db.jobs[id].tenant, db.jobs[id].user, db.jobs[id].folder)
    {
      assert Granted(db, db.jobs[id].tenant, db.jobs[id].user, db.jobs[id].folder);
      assert id !in OpenJobsWhere(db, t, Some(user), Some(folder)) || p.unlock;
    }
    forall sid | sid in db.sessions && db.sessions[sid].status == Active
      ensures Granted(db', db.sessions[sid].tenant, db.sessions[sid].user, db.sessions[sid].folder)
    {
      assert Granted(db, db.sessions[sid].tenant, db.sessions[sid].user, db.sessions[sid].folder);
      assert sid !in SessionsWhere(db, t, Some(user), Some(folder)) || p.unlock;
    }
  }

  // Without a session or job to touch, revoking changes nothing and no promotion is due.
  lemma NothingRevoked(db: Db, t: Id, user: Option<Id>, folder: Option<Id>, now: int, reason: Reason)
    requires SessionsWhere(db, t, user, folder) == {} && OpenJobsWhere(db, t, user, folder) == {}
    ensures RevokeAccess(db, t, user, folder, now, reason) == db
  {
    assert FinishSessions(db.sessions, {}, Revoked, now, reason) == db.sessions;
    assert FinishJobs(db.jobs, {}, Canceled, now, reason) == db.jobs;
  }

  lemma UpdatePermissionKeepsInv(db: Db, t: Id, user: Id, folder: Id, unlock: bool, expiresAt: Option<int>, now: int)
    requires Inv(db, now)
    ensures Inv(UpdatePermission(db, t, user, folder, unlock, expiresAt, now), now)
  {
    hide JobsOk, SharesOk, Earnings, Order;
    var p := Permission(t, unlock, expiresAt);
    if folder in db.folders && db.folders[folder].tenant == t && db.folders[folder].active
       && user in db.users && db.users[user] == User(t, true, false) {
      var stored := db.(perms := db.perms[(user, folder) := p]);
      if KeepsAccess(p, now) {
        StorePermissionKeepsCore(db, t, user, folder, p, now);
        SameJobsKeepDrained(db, stored);
      } else {
        LoseAccessKeepsCore(db, t, user, folder, p, now);
        var both := RevokeAccess(stored, t, Some(user), Some(folder), now, PermissionRevoked);
        if Cleared(stored, t, Some(user), Some(folder)) {
          NothingRevoked(stored, t, Some(user), Some(folder), now, PermissionRevoked);
          SameJobsKeepDrained(db, stored);
        } else {
          PromotionsAgree(both, t, now);
          PromoteRestoresInv(db, both, t, now);
        }
      }
    }
  }

  lemma SameJobsKeepDrained(db: Db, db': Db)
    requires Drained(db) && db'.jobs == db.jobs
    ensures Drained(db')
  {
    forall t
      ensures DrainedIn(db', t)
    {
      assert DrainedIn(db, t);
      if r :| RunningIn(db, t, r) {
        assert RunningIn(db', t, r);
      }
      assert forall q :: QueuedIn(db', t, q) ==> QueuedIn(db, t, q);
    }
  }

  lemma LoseAccessKeepsCore(db: Db, t: Id, user: Id, folder: Id, p: Permission, now: int)
    requires Core(db, now) && p.tenant == t
    requires user in db.users && db.users[user].tenant == t && folder in db.folders && db.folders[folder].tenant == t
    ensures var both := RevokeAccess(db.(perms := db.perms[(user, folder) := p]), t, Some(user), Some(folder), now, PermissionRevoked);
            Core(both, now) && SameElsewhere(db.jobs, both.jobs, t)
  {
    var revoked := RevokeAccess(db, t, Some(user), Some(folder), now, PermissionRevoked);
    RevokeKeepsCore(db, t, Some(user), Some(folder), now, PermissionRevoked);
    RevokeClears(db, t, Some(user), Some(folder), now, PermissionRevoked);
    StorePermissionKeepsCore(revoked, t, user, folder, p, now);
    RevokeIgnoresPermissions(db, t, Some(user), Some(folder), db.perms[(user, folder) := p], now, PermissionRevoked);
  }

  lemma RevokeIgnoresPermissions(db: Db, t: Id, user: Option<Id>, folder: Option<Id>, perms: map<(Id, Id), Permission>, now: int, reason: Reason)
    ensures RevokeAccess(db.(perms := perms), t, user, folder, now, reason) == RevokeAccess(db, t, user, folder, now, reason).(perms := perms)
  {
    assert SessionsWhere(db.(perms := perms), t, user, folder) == SessionsWhere(db, t, user, folder);
    assert OpenJobsWhere(db.(perms := perms), t, user, folder) == OpenJobsWhere(db, t, user, folder);
  }

  lemma CloseFolderKeepsGrants(db: Db, t: Id, folder: Id, perms: map<(Id, Id), Permission>)
    requires GrantsOk(db) && folder in db.folders && db.folders[folder].tenant == t && Cleared(db, t, None, Some(folder))
    requires forall k :: k in db.perms && k.1 != folder ==> k in perms && perms[k] == db.perms[k]
    ensures GrantsOk(db.(perms := perms, folders := db.folders[folder := db.folders[folder].(active := false)]))
  {
    var db' := db.(perms := perms, folders := db.folders[folder := db.folders[folder].(active := false)]);
    forall id | id in db.jobs && Open(db.jobs[id])
      ensures Granted(db', db.jobs[id].tenant, db.jobs[id].user, db.jobs[id].folder)
    {
      assert Granted(db, db.jobs[id].tenant, db.jobs[id].user, db.jobs[id].folder);
      assert id !in OpenJobsWhere(db, t, None, Some(folder));
    }
    forall sid | sid in db.sessions && db.sessions[sid].status == Active
      ensures Granted(db', db.sessions[sid].tenant, db.sessions[sid].user, db.sessions[sid].folder)
    {
      assert Granted(db, db.sessions[sid].tenant, db.sessions[sid].user, db.sessions[sid].folder);
      assert sid !in SessionsWhere(db, t, None, Some(folder));
    }
  }

  lemma CloseFolderKeepsCore(db: Db, t: Id, folder: Id, perms: map<(Id, Id), Permission>, now: int)
    requires Core(db, now) && folder in db.folders && db.folders[folder].tenant == t && Cleared(db, t, None, Some(folder))
    requires forall k :: k in perms ==> k in db.perms && perms[k] == db.perms[k]
    requires forall k :: k in db.perms && k.1 != folder ==> k in perms
    ensures Core(db.(perms := perms, folders := db.folders[folder := db.folders[folder].(active := false)]), now)
  {
    hide JobsOk, SharesOk, SessionOk, OneSessionPerJob, SuccessOpened, Fifo, OneRunning, OneActive, Exclusive, GrantsOk, Cleared, PolicyOk;
    CloseFolderKeepsGrants(db, t, folder, perms);
    assert TablesOk(db.(perms := perms, folders := db.folders[folder := db.folders[folder].(active := false)]));
  }

  lemma DeleteFolderKeepsInv(db: Db, t: Id, folder: Id, now: int)
    requires Inv(db, now)
    ensures Inv(DeleteFolder(db, t, folder, now), now)
  {
    hide Core, Drained, Promote, Cleared, SameElsewhere;
    if folder in db.folders && db.folders[folder].tenant == t && db.folders[folder].active {
      var revoked := RevokeAccess(db, t, None, Some(folder), now, FolderDeleted);
      RevokeKeepsCore(db, t, None, Some(folder), now, FolderDeleted);
      RevokeClears(db, t, None, Some(folder), now, FolderDeleted);
      var perms := map k | k in revoked.perms && !(revoked.perms[k].tenant == t && k.1 == folder) :: revoked.perms[k];
      var gone := revoked.(perms := perms, folders := revoked.folders[folder := revoked.folders[folder].(active := false)]);
      CloseFolderKeepsCore(revoked, t, folder, perms, now);
      PromotionsAgree(gone, t, now);
      PromoteRestoresInv(db, gone, t, now);
    }
  }

  // ------------------------------------------------------------- deleting a user

  lemma {:induction false} SharesOfJobsKeep(shares: seq<Share>, ids: set<Id>, span: Span, from: int, to: int)
    requires span.job in ids
    ensures WorkBetween(SharesOfJobs(shares, ids), span, from, to) == WorkBetween(shares, span, from, to)
  {
    if shares != [] {
      var n := |shares| - 1;
      SharesOfJobsKeep(shares[..n], ids, span, from, to);
      var rest := SharesOfJobs(shares[..n], ids);
      assert (rest + [shares[n]])[..|rest|] == rest;
    }
  }

  lemma {:induction false} SharesOfJobsFrom(shares: seq<Share>, ids: set<Id>)
    ensures forall s :: s in SharesOfJobs(shares, ids) ==> s in shares && s.job in ids
  {
    if shares != [] {
      SharesOfJobsFrom(shares[..|shares| - 1], ids);
      assert forall s :: s in shares[..|shares| - 1] ==> s in shares;
    }
  }

  lemma {:induction false} SharesOfJobsKeepBest(shares: seq<Share>, ids: set<Id>, span: Span, n: nat)
    requires span.job in ids
    ensures BestWork(SharesOfJobs(shares, ids), span, n) == BestWork(shares, span, n)
  {
    if n > 0 {
      SharesOfJobsKeepBest(shares, ids, span, n - 1);
      SharesOfJobsKeep(shares, ids, span, span.Start(n - 1), span.Start(n - 1) + span.window * SECOND);
    }
  }

  lemma RemoveRowsKeepsShares(shares: seq<Share>, jobs: map<Id, Job>, jobs': map<Id, Job>, now: int)
    requires SharesOk(shares, jobs, now) && forall id :: id in jobs' ==> id in jobs && jobs'[id] == jobs[id]
    ensures SharesOk(SharesOfJobs(shares, jobs'.Keys), jobs', now)
  {
    SharesOfJobsFrom(shares, jobs'.Keys);
    var kept := SharesOfJobs(shares, jobs'.Keys);
    forall i | 0 <= i < |kept|
      ensures ShareOk(kept[i], jobs') && 0.0 <= kept[i].work && kept[i].at <= now
    {
      assert kept[i] in shares;
      var k :| 0 <= k < |shares| && shares[k] == kept[i];
      assert ShareOk(shares[k], jobs);
    }
  }

  lemma RemoveRowsKeepsCore(db: Db, t: Id, user: Id, now: int)
    requires Core(db, now) && user in db.users && db.users[user].tenant == t
    ensures Core(RemoveUserRows(db, t, user), now)
  {
    hide SharesOk, GrantsOk, Earnings, Order, JobOk;
    var db' := RemoveUserRows(db, t, user);
    RemoveRowsKeepsShares(db.shares, db.jobs, db'.jobs, now);
    assert JobsOk(db'.jobs, now) && TablesOk(db');
    assert GrantsOk(db') by {
      RemoveRowsKeepsGrants(db, t, user);
    }
    assert Earnings(db') by {
      RemoveRowsKeepsEarnings(db, t, user);
    }
    assert Order(db', now) by {
      RemoveRowsKeepsOrder(db, t, user, now);
    }
  }

  lemma RemoveRowsKeepsGrants(db: Db, t: Id, user: Id)
    requires GrantsOk(db) && user in db.users && db.users[user].tenant == t
    ensures GrantsOk(RemoveUserRows(db, t, user))
  {
    var db' := RemoveUserRows(db, t, user);
    forall id | id in db'.jobs && Open(db'.jobs[id])
      ensures Granted(db', db'.jobs[id].tenant, db'.jobs[id].user, db'.jobs[id].folder)
    {
      assert Granted(db, db.jobs[id].tenant, db.jobs[id].user, db.jobs[id].folder);
    }
    forall sid | sid in db'.sessions && db'.sessions[sid].status == Active
      ensures Granted(db', db'.sessions[sid].tenant, db'.sessions[sid].user, db'.sessions[sid].folder)
    {
      assert Granted(db, db.sessions[sid].tenant, db.sessions[sid].user, db.sessions[sid].folder);
    }
  }

  lemma RemoveRowsKeepsEarnings(db: Db, t: Id, user: Id)
    requires Earnings(db)
    ensures Earnings(RemoveUserRows(db, t, user))
  {
    var db' := RemoveUserRows(db, t, user);
    forall sid | sid in db'.sessions
      ensures SessionOk(db'.jobs, db'.shares, db'.sessions[sid])
    {
      var s := db.sessions[sid];
      assert SessionOk(db.jobs, db.shares, s);
      SameWork(db.jobs[s.job], s.job, db.shares, db'.jobs.Keys);
    }
    forall a, b | a in db'.sessions && b in db'.sessions && SameJob(db'.sessions[a], db'.sessions[b])
      ensures a == b
    {
      assert SameJob(db.sessions[a], db.sessions[b]);
    }
    forall id | id in db'.jobs && db'.jobs[id].status == Succeeded
      ensures HasSession(db'.sessions, id)
    {
      assert HasSession(db.sessions, id);
      var sid :| sid in db.sessions && db.sessions[sid].job == id;
      assert SessionOk(db.jobs, db.shares, db.sessions[sid]);
      assert sid in db'.sessions && db'.sessions[sid].job == id;
    }
  }

  lemma SameWork(j: Job, id: Id, shares: seq<Share>, ids: set<Id>)
    requires id in ids
    ensures JobWork(j, id, SharesOfJobs(shares, ids)) == JobWork(j, id, shares)
  {
    if j.policy.attempts >= 0 {
      SharesOfJobsKeepBest(shares, ids, JobSpan(j, id), j.policy.attempts);
    }
  }

  lemma RemoveRowsKeepsOrder(db: Db, t: Id, user: Id, now: int)
    requires Order(db, now)
    ensures Order(RemoveUserRows(db, t, user), now)
  {
    var db' := RemoveUserRows(db, t, user);
    forall a, b | a in db'.jobs && b in db'.jobs
      ensures InOrder(db'.jobs[a], db'.jobs[b])
      ensures BothRun(db'.jobs[a], db'.jobs[b]) ==> a == b
    {
      assert InOrder(db.jobs[a], db.jobs[b]) && (BothRun(db.jobs[a], db.jobs[b]) ==> a == b);
    }
    forall a, b | a in db'.sessions && b in db'.sessions && BothActive(db'.sessions[a], db'.sessions[b])
      ensures a == b
    {
      assert BothActive(db.sessions[a], db.sessions[b]);
    }
    forall id, sid | id in db'.jobs && sid in db'.sessions
      ensures Apart(db'.jobs[id], db'.sessions[sid], now)
    {
      assert Apart(db.jobs[id], db.sessions[sid], now);
    }
  }

  // Without rows that name it, a user can go.
  lemma DropUserKeepsInv(db: Db, t: Id, user: Id, now: int)
    requires Inv(db, now) && user in db.users && db.users[user].tenant == t
    requires forall id :: id in db.jobs ==> db.jobs[id].user != user
    requires forall k :: k in db.perms ==> k.0 != user
    requires forall sid :: sid in db.sessions ==> db.sessions[sid].user != user
    ensures Inv(db.(users := db.users - {user}), now)
  {
    hide JobsOk, SharesOk, SessionOk, Fifo, OneRunning, OneActive, Exclusive, OneSessionPerJob, SuccessOpened, PolicyOk;
    var db' := db.(users := db.users - {user});
    forall id | id in db.jobs && Open(db.jobs[id])
      ensures Granted(db', db.jobs[id].tenant, db.jobs[id].user, db.jobs[id].folder)
    {
      assert Granted(db, db.jobs[id].tenant, db.jobs[id].user, db.jobs[id].folder);
    }
    forall sid | sid in db.sessions && db.sessions[sid].status == Active
      ensures Granted(db', db.sessions[sid].tenant, db.sessions[sid].user, db.sessions[sid].folder)
    {
      assert Granted(db, db.sessions[sid].tenant, db.sessions[sid].user, db.sessions[sid].folder);
    }
    assert TablesOk(db');
    SameJobsKeepDrained(db, db');
  }

  lemma DeleteUserKeepsInv(db: Db, user: Id, now: int)
    requires Inv(db, now)
    ensures Inv(DeleteUser(db, user, now), now)
  {
    if user in db.users {
      var t := db.users[user].tenant;
      var revoked := RevokeAccess(db, t, Some(user), None, now, UserDeleted);
      RevokeKeepsCore(db, t, Some(user), None, now, UserDeleted);
      var bare := RemoveUserRows(revoked, t, user);
      RemoveRowsKeepsCore(revoked, t, user, now);
      assert SameElsewhere(revoked.jobs, bare.jobs, t);
      SameElsewhereComposes(db.jobs, revoked.jobs, bare.jobs, t);
      PromotionsAgree(bare, t, now);
      PromoteRestoresInv(db, bare, t, now);
      NoRowsOfUser(revoked, t, user, now);
      DropUserKeepsInv(PromoteUnblocked(bare, t, now), t, user, now);
    }
  }

  lemma NoRowsOfUser(db: Db, t: Id, user: Id, now: int)
    requires TablesOk(db) && SessionsOk(db) && user in db.users && db.users[user].tenant == t
    ensures var db' := Promote(RemoveUserRows(db, t, user), t, now);
            && db'.users == db.users
            && (forall id :: id in db'.jobs ==> db'.jobs[id].user != user)
            && (forall k :: k in db'.perms ==> k.0 != user)
            && (forall sid :: sid in db'.sessions ==> db'.sessions[sid].user != user)
  {
    var bare := RemoveUserRows(db, t, user);
    forall sid | sid in bare.sessions
      ensures bare.sessions[sid].user != user
    {
      assert SessionOk(db.jobs, db.shares, db.sessions[sid]);
    }
    OldestQueuedExists(bare, t);
  }

  // ------------------------------------------------------------ submitting a share

  lemma {:induction false} OtherShareAddsNothing(shares: seq<Share>, s: Share, span: Span, n: nat)
    requires !s.valid || s.job != span.job || s.tenant != span.tenant
    ensures BestWork(shares + [s], span, n) == BestWork(shares, span, n)
  {
    if n > 0 {
      OtherShareAddsNothing(shares, s, span, n - 1);
      assert (shares + [s])[..|shares|] == shares;
    }
  }

  lemma AppendShareKeepsInv(db: Db, s: Share, now: int)
    requires Inv(db, now) && 0.0 <= s.work && s.at == now
    requires s.valid ==> s.job in db.jobs && db.jobs[s.job].status == Running
    ensures Inv(db.(shares := db.shares + [s]), now)
  {
    hide Granted, OneSessionPerJob, SuccessOpened, Fifo, OneRunning, OneActive, Exclusive, Drained, PolicyOk;
    var db' := db.(shares := db.shares + [s]);
    assert SharesOk(db'.shares, db'.jobs, now) by {
      assert s.valid ==> JobOk(db.jobs[s.job], now);
      assert forall i :: 0 <= i < |db.shares| ==> ShareOk(db.shares[i], db.jobs);
    }
    forall sid | sid in db.sessions
      ensures SessionOk(db'.jobs, db'.shares, db'.sessions[sid])
    {
      var id := db.sessions[sid].job;
      assert SessionOk(db.jobs, db.shares, db.sessions[sid]);
      if db.jobs[id].policy.attempts >= 0 {
        OtherShareAddsNothing(db.shares, s, JobSpan(db.jobs[id], id), db.jobs[id].policy.attempts);
      }
    }
    AppendKeepsGrants(db, s);
    SameJobsKeepDrained(db, db');
  }

  lemma AppendKeepsGrants(db: Db, s: Share)
    requires GrantsOk(db) && TablesOk(db)
    ensures GrantsOk(db.(shares := db.shares + [s])) && TablesOk(db.(shares := db.shares + [s]))
  {
    var db' := db.(shares := db.shares + [s]);
    assert forall t, u, f :: Granted(db, t, u, f) ==> Granted(db', t, u, f);
  }

  lemma StoreRefusedKeepsInv(db: Db, tenant: Id, job: Id, worker: Id, now: int)
    requires Inv(db, now)
    ensures Inv(StoreRefused(db, tenant, job, worker, now), now)
  {
    hide Inv;
    if job in db.jobs {
      AppendShareKeepsInv(db, Share(tenant, job, Some(worker), 0.0, false, now), now);
    }
  }

  lemma SubmitKeepsInv(db: Db, tenant: Id, job: Id, worker: Id, credited: real, valid: bool, now: int)
    requires Inv(db, now)
    ensures Inv(SubmitShare(db, tenant, job, worker, credited, valid, now), now)
  {
    hide Inv, Reconcile;
    if IsGatewayJob(db, job) && credited >= 0.0 {
      var s := Share(tenant, job, Some(worker), if valid then credited else 0.0, valid, now);
      AppendShareKeepsInv(db, s, now);
      ReconcileKeepsInv(db.(shares := db.shares + [s]), tenant, now);
    }
  }
}
