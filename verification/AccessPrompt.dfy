/** Work is never left waiting: a valid share reconciles its tenant at once, and nothing else adds
    work to a running job. */
module AccessPrompt {
  import opened Base
  import opened Progress
  import opened AccessModel
  import opened AccessInvariant
  import opened AccessReconcile
  import opened AccessHandlers
  import opened AccessRuns

  // No valid share was ever stored for this job.
  ghost predicate NoWork(shares: seq<Share>, id: Id) {
    forall i :: 0 <= i < |shares| && shares[i].job == id ==> !shares[i].valid
  }

  // Both lists hold the same work for the job, window by window.
  ghost predicate EqualWork(shares: seq<Share>, shares': seq<Share>, t: Id, id: Id) {
    forall start: int, window: int, n: nat :: SameBest(shares, shares', Span(t, id, start, window), n)
  }

  predicate SameBest(shares: seq<Share>, shares': seq<Share>, span: Span, n: nat) {
    BestWork(shares', span, n) == BestWork(shares, span, n)
  }

  ghost predicate AllNoneEnough(db: Db) {
    forall t :: NoneEnough(db, t)
  }

  lemma {:induction false} NoWorkNoBest(shares: seq<Share>, span: Span, n: nat)
    requires NoWork(shares, span.job)
    ensures BestWork(shares, span, n) == 0.0
  {
    if n > 0 {
      NoWorkNoBest(shares, span, n - 1);
      NoWorkBetween(shares, span, span.Start(n - 1), span.Start(n - 1) + span.window * SECOND);
    }
  }

  lemma {:induction false} NoWorkBetween(shares: seq<Share>, span: Span, from: int, to: int)
    requires NoWork(shares, span.job)
    ensures WorkBetween(shares, span, from, to) == 0.0
  {
    if shares != [] {
      NoWorkBetween(shares[..|shares| - 1], span, from, to);
    }
  }

  // A job that has not started, or does not exist yet, has no work.
  lemma NotStartedNoWork(db: Db, id: Id, now: int)
    requires Rows(db, now) && (id !in db.jobs || db.jobs[id].status == Queued)
    ensures NoWork(db.shares, id)
  {
    hide GrantsOk, TablesOk;
    forall i | 0 <= i < |db.shares| && db.shares[i].job == id ensures !db.shares[i].valid {
      assert ShareOk(db.shares[i], db.jobs);
      assert id in db.jobs ==> JobOk(db.jobs[id], now);
    }
  }

  // A running job that had not enough, or was not running, has not enough after a step that adds no work to it.
  lemma StillNotEnough(db: Db, db': Db, t: Id, id: Id, now: int)
    requires Inv(db, now) && Inv(db', now) && Evolves(db, db') && NoneEnough(db, t)
    requires RunningIn(db', t, id) && EqualWork(db.shares, db'.shares, t, id)
    ensures !Enough(db'.jobs[id], id, db'.shares)
  {
    hide SharesOk, GrantsOk, Earnings, Order, Drained, BestWork, NoWork;
    var j := db'.jobs[id];
    assert JobOk(j, now);
    assert SameBest(db.shares, db'.shares, JobSpan(j, id), j.policy.attempts);
    if id !in db.jobs || db.jobs[id].status == Queued {
      NotStartedNoWork(db, id, now);
      NoWorkNoBest(db.shares, JobSpan(j, id), j.policy.attempts);
    } else {
      assert Follows(db.jobs[id], j);
      assert RunningIn(db, t, id) && JobOk(db.jobs[id], now);
    }
  }

  // ---------------------------------------------------------------- the steps

  lemma DeletingKeepsWork(db: Db, user: Id, now: int, t: Id, id: Id)
    requires id in DeleteUser(db, user, now).jobs
    ensures EqualWork(db.shares, DeleteUser(db, user, now).shares, t, id)
  {
    hide BestWork, FinishJobs, FinishSessions, OldestUnblocked;
    var db' := DeleteUser(db, user, now);
    if user in db.users {
      var home := db.users[user].tenant;
      var bare := RemoveUserRows(RevokeAccess(db, home, Some(user), None, now, UserDeleted), home, user);
      assert db'.shares == SharesOfJobs(db.shares, bare.jobs.Keys) && id in bare.jobs.Keys;
      forall start: int, window: int, n: nat ensures SameBest(db.shares, db'.shares, Span(t, id, start, window), n) {
        SharesOfJobsKeepBest(db.shares, bare.jobs.Keys, Span(t, id, start, window), n);
      }
    }
  }

  // A share that is invalid, or not of this job's tenant, adds nothing to the job.
  lemma ForeignShareKeepsWork(shares: seq<Share>, s: Share, t: Id, id: Id)
    requires !s.valid || s.tenant != t
    ensures EqualWork(shares, shares + [s], t, id)
  {
    forall start: int, window: int, n: nat ensures SameBest(shares, shares + [s], Span(t, id, start, window), n) {
      OtherShareAddsNothing(shares, s, Span(t, id, start, window), n);
    }
  }

  lemma SameSharesSameWork(shares: seq<Share>, t: Id, id: Id)
    ensures EqualWork(shares, shares, t, id)
  {
  }

  // Requests that leave the shares alone.
  predicate NoShare(e: Event) {
    !e.Submit? && !e.SubmitRefused? && !e.RemoveUser?
  }

  lemma SharesKept(db: Db, e: Event, now: int)
    requires NoShare(e)
    ensures Step(db, e, now).shares == db.shares
  {
    hide Reconcile, Promote, PromoteUnblocked, FinishJobs, FinishSessions, NewRow, CanUnlock;
    match e
    case SetPermission(t, user, folder, unlock, expiresAt) =>
      PromoteKeepsShares(RevokeAccess(db.(perms := db.perms[(user, folder) := Permission(t, unlock, expiresAt)]),
                                      t, Some(user), Some(folder), now, PermissionRevoked), t, now);
    case RemoveFolder(t, folder) =>
      if folder in db.folders {
        var revoked := RevokeAccess(db, t, None, Some(folder), now, FolderDeleted);
        PromoteKeepsShares(revoked.(perms := map k | k in revoked.perms && !(revoked.perms[k].tenant == t && k.1 == folder) :: revoked.perms[k],
                                    folders := revoked.folders[folder := revoked.folders[folder].(active := false)]), t, now);
      }
    case _ =>
  }

  lemma PromoteKeepsShares(db: Db, t: Id, now: int)
    ensures PromoteUnblocked(db, t, now).shares == db.shares
  {
  }

  lemma KeepsWorkInvalid(db: Db, e: Event, now: int, t: Id, id: Id)
    requires (e.Submit? && (!e.valid || !IsGatewayJob(db, e.job) || e.credited < 0.0)) || e.SubmitRefused?
    ensures EqualWork(db.shares, Step(db, e, now).shares, t, id)
  {
    hide EqualWork, IsGatewayJob, Reconcile;
    SameSharesSameWork(db.shares, t, id);
    match e
    case Submit(tenant, job, worker, credited, valid) =>
      ForeignShareKeepsWork(db.shares, Share(tenant, job, Some(worker), 0.0, false, now), t, id);
    case SubmitRefused(tenant, job, worker) =>
      ForeignShareKeepsWork(db.shares, Share(tenant, job, Some(worker), 0.0, false, now), t, id);
  }

  // A valid share that counts: its own tenant is reconciled, the others gain no work.
  lemma CountedShareLeavesNone(db: Db, e: Event, now: int, t: Id)
    requires Inv(db, now) && Inv(Step(db, e, now), now) && Evolves(db, Step(db, e, now)) && NoneEnough(db, t)
    requires e.Submit? && e.valid && IsGatewayJob(db, e.job) && e.credited >= 0.0
    ensures NoneEnough(Step(db, e, now), t)
  {
    hide Inv, IsGatewayJob, Reconcile, Evolves, EqualWork, Enough, RunningIn;
    var db' := Step(db, e, now);
    var s := Share(e.tenant, e.job, Some(e.worker), e.credited, true, now);
    var stored := db.(shares := db.shares + [s]);
    assert db' == Reconcile(stored, e.tenant, now);
    if t == e.tenant {
      ServedRuns(db, e.job);
      AppendShareKeepsInv(db, s, now);
      InvIsCore(stored, now);
      ReconcilePhases(stored, t, now);
      QuietIsNoneEnough(db', t, now);
    } else {
      ForeignShareKeepsWorkAll(db, db', s, t, now);
    }
  }

  lemma ForeignShareKeepsWorkAll(db: Db, db': Db, s: Share, t: Id, now: int)
    requires Inv(db, now) && Inv(db', now) && Evolves(db, db') && NoneEnough(db, t)
    requires s.tenant != t && db'.shares == db.shares + [s]
    ensures NoneEnough(db', t)
  {
    hide Inv, Evolves, EqualWork, Enough;
    forall id | RunningIn(db', t, id) ensures !Enough(db'.jobs[id], id, db'.shares) {
      ForeignShareKeepsWork(db.shares, s, t, id);
      StillNotEnough(db, db', t, id, now);
    }
  }

  lemma ServedRuns(db: Db, id: Id)
    requires IsGatewayJob(db, id)
    ensures id in db.jobs && db.jobs[id].status == Running
  {
  }

  lemma InvIsCore(db: Db, now: int)
    requires Inv(db, now)
    ensures Core(db, now)
  {
    hide Core;
  }

  lemma QuietIsNoneEnough(db: Db, t: Id, now: int)
    requires Quiet(db, t, now)
    ensures NoneEnough(db, t)
  {
    hide NoLapsed, NoOverdue, NoneEnough, DrainedIn;
  }

  lemma StepLeavesNoneEnough(db: Db, e: Event, now: int)
    requires Inv(db, now) && AllNoneEnough(db)
    ensures AllNoneEnough(Step(db, e, now))
  {
    hide Inv, Evolves, NoneEnough, Step, IsGatewayJob;
    var db' := Step(db, e, now);
    StepKeepsInv(db, e, now);
    StepEvolves(db, e, now);
    forall t ensures NoneEnough(db', t) {
      if e.Submit? && e.valid && IsGatewayJob(db, e.job) && e.credited >= 0.0 {
        CountedShareLeavesNone(db, e, now, t);
      } else {
        UncountedLeavesNone(db, e, now, t);
      }
    }
  }

  lemma UncountedLeavesNone(db: Db, e: Event, now: int, t: Id)
    requires Inv(db, now) && Inv(Step(db, e, now), now) && Evolves(db, Step(db, e, now)) && NoneEnough(db, t)
    requires !(e.Submit? && e.valid && IsGatewayJob(db, e.job) && e.credited >= 0.0)
    ensures NoneEnough(Step(db, e, now), t)
  {
    hide Inv, Evolves, EqualWork, Enough, IsGatewayJob, Step;
    var db' := Step(db, e, now);
    forall id | RunningIn(db', t, id) ensures !Enough(db'.jobs[id], id, db'.shares) {
      if NoShare(e) {
        SharesKept(db, e, now);
        SameSharesSameWork(db.shares, t, id);
      } else if e.RemoveUser? {
        IsDeletion(db, e, now);
        DeletingKeepsWork(db, e.user, now, t, id);
      } else {
        KeepsWorkInvalid(db, e, now, t, id);
      }
      StillNotEnough(db, db', t, id, now);
    }
  }

  lemma IsDeletion(db: Db, e: Event, now: int)
    requires e.RemoveUser?
    ensures Step(db, e, now) == DeleteUser(db, e.user, now)
  {
  }

  lemma {:induction false} RunsStayNoneEnough(steps: seq<Timed>)
    requires Monotone(steps)
    ensures AllNoneEnough(Run(EMPTY, steps))
  {
    hide Step;
    if steps != [] {
      var before, last := steps[..|steps| - 1], steps[|steps| - 1];
      assert forall i :: 0 <= i < |before| ==> before[i] == steps[i];
      RunsStayNoneEnough(before);
      RunKeepsInv(before, last.now);
      StepLeavesNoneEnough(Run(EMPTY, before), last.e, last.now);
    }
  }

  /** In every state of every run, no running job of any tenant has an attempt window with valid work of
      the required hashrate, less its tolerance, over the window: the share that completes one opens
      the session in the same step. */
  lemma RunsLeaveNoneEnough(steps: seq<Timed>)
    requires Monotone(steps)
    ensures var db := Run(EMPTY, steps);
      forall id, k: nat :: id in db.jobs && db.jobs[id].status == Running ==> !WindowSuffices(db.jobs[id], id, db.shares, k)
  {
    hide Run, WindowSuffices, Enough, NoneEnough, SharesOk, GrantsOk, TablesOk, Earnings, Order, Drained, JobOk;
    var db, now := Run(EMPTY, steps), LastTime(steps, 0);
    RunKeepsInv(steps, now);
    RunsStayNoneEnough(steps);
    forall id, k: nat | id in db.jobs && db.jobs[id].status == Running ensures !WindowSuffices(db.jobs[id], id, db.shares, k) {
      assert JobOk(db.jobs[id], now);
      EnoughIff(db.jobs[id], id, db.shares, now);
      RunsAreShort(db, id);
    }
  }

  lemma RunsAreShort(db: Db, id: Id)
    requires AllNoneEnough(db) && id in db.jobs && db.jobs[id].status == Running
    ensures !Enough(db.jobs[id], id, db.shares)
  {
    hide Enough;
    assert NoneEnough(db, db.jobs[id].tenant);
    assert RunningIn(db, db.jobs[id].tenant, id);
  }

  // Without sessions and overdue jobs, nothing is there to reconcile.
  lemma NothingToReconcile(steps: seq<Timed>, t: Id, now: int)
    requires Monotone(steps) && (steps == [] || LastTime(steps, now) <= now)
    requires var db := Run(EMPTY, steps); db.sessions == map[] && NoOverdue(db, t, now)
    ensures Reconcile(Run(EMPTY, steps), t, now) == Run(EMPTY, steps)
  {
    hide Step, Run, Reconcile, NoOverdue, NoneEnough, Core;
    var db := Run(EMPTY, steps);
    RunKeepsInv(steps, now);
    RunsStayNoneEnough(steps);
    assert DrainedIn(db, t);
    QuietReconcilesToItself(db, t, now);
  }
}
