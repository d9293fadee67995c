/** Reconcile keeps the invariant, quiets the tenant, and does nothing the second time. */
module AccessReconcile {
  import opened Base
  import opened Progress
  import opened AccessModel
  import opened AccessInvariant

  ghost predicate NoLapsed(db: Db, t: Id, now: int) {
    forall sid :: ActiveIn(db, t, sid) ==> LiveIn(db, t, sid, now)
  }

  ghost predicate NoOverdue(db: Db, t: Id, now: int) {
    forall id :: id in db.jobs && db.jobs[id].tenant == t ==> !Overdue(db.jobs[id], now)
  }

  ghost predicate NoneEnough(db: Db, t: Id) {
    forall id :: RunningIn(db, t, id) ==> !Enough(db.jobs[id], id, db.shares)
  }

  /** Nothing is left for reconcile to do. */
  ghost predicate Quiet(db: Db, t: Id, now: int) {
    NoLapsed(db, t, now) && NoOverdue(db, t, now) && NoneEnough(db, t) && DrainedIn(db, t)
  }

  // ------------------------------------------------------------------- phases

  lemma ExpireKeepsCore(db: Db, t: Id, now: int)
    requires Core(db, now)
    ensures Core(ExpireSessions(db, t, now), now)
    ensures NoLapsed(ExpireSessions(db, t, now), t, now)
  {
    hide Core;
    FinishSessionsKeepsCore(db, LapsedSessions(db, t, now), Expired, now, TtlExpired);
  }

  lemma TimeoutRowsKeepCore(db: Db, t: Id, now: int)
    requires Core(db, now)
    ensures Core(TimeoutRows(db, t, now), now)
  {
    FinishJobsKeepsCore(db, OverdueJobs(db, t, now), TimedOut, now, TimeoutReached);
  }

  // A job that has just started has no work and is not overdue.
  lemma StartIsQuiet(db: Db, t: Id, now: int)
    requires JobsOk(db.jobs, now) && NoOverdue(db, t, now)
    ensures NoOverdue(Promote(db, t, now), t, now)
  {
    OldestQueuedExists(db, t);
    if OldestQueued(db, t).Some? {
      assert JobOk(db.jobs[OldestQueued(db, t).value], now);
    }
  }

  lemma TimeoutPhase(db: Db, t: Id, now: int)
    requires Core(db, now) && NoLapsed(db, t, now)
    ensures Core(TimeoutJobs(db, t, now), now)
    ensures NoOverdue(TimeoutJobs(db, t, now), t, now)
    ensures DrainedIn(TimeoutJobs(db, t, now), t)
    ensures NoLapsed(TimeoutJobs(db, t, now), t, now)
  {
    TimeoutRowsKeepCore(db, t, now);
    TimeoutRowsClear(db, t, now);
    PromotePhase(TimeoutRows(db, t, now), t, now);
  }

  lemma TimeoutRowsClear(db: Db, t: Id, now: int)
    ensures NoOverdue(TimeoutRows(db, t, now), t, now)
    ensures NoLapsed(db, t, now) ==> NoLapsed(TimeoutRows(db, t, now), t, now)
  {
    assert forall sid :: ActiveIn(TimeoutRows(db, t, now), t, sid) ==> ActiveIn(db, t, sid);
  }

  lemma PromotePhase(db: Db, t: Id, now: int)
    requires Core(db, now) && NoLapsed(db, t, now) && NoOverdue(db, t, now)
    ensures Core(Promote(db, t, now), now)
    ensures NoOverdue(Promote(db, t, now), t, now)
    ensures DrainedIn(Promote(db, t, now), t)
    ensures NoLapsed(Promote(db, t, now), t, now)
  {
    StartIsQuiet(db, t, now);
    PromoteKeepsCore(db, t, now);
    PromoteDrains(db, t, now);
    assert forall sid :: ActiveIn(Promote(db, t, now), t, sid) ==> ActiveIn(db, t, sid);
  }

  lemma CompletesMeansMayOpen(db: Db, t: Id, id: Id, now: int)
    requires Completes(db, t, id, now) && NoLapsed(db, t, now) && NoOverdue(db, t, now)
    ensures MayOpen(db, id, now)
  {
    assert forall sid :: ActiveIn(db, t, sid) ==> sid in LiveSessions(db, t, now);
  }

  // After a session opens, the tenant has no open job.
  lemma OpenClosesJobs(db: Db, t: Id, id: Id, now: int)
    requires OneRunning(db.jobs) && RunningIn(db, t, id) && db.jobs[id].policy.window > 0
    ensures forall o :: o in OpenSession(db, id, now).jobs && OpenSession(db, id, now).jobs[o].tenant == t ==> !Open(OpenSession(db, id, now).jobs[o])
  {
    var jobs' := OpenSession(db, id, now).jobs;
    forall o | o in jobs' && jobs'[o].tenant == t
      ensures !Open(jobs'[o])
    {
      assert BothRun(db.jobs[o], db.jobs[id]) ==> o == id;
    }
  }

  /** A running job with enough work meets no active session, so its session opens: the branch
      for a session already open, and the unique index on active sessions, are never reached. */
  lemma CompletionIsUnobstructed(db: Db, t: Id, id: Id, now: int)
    requires Core(db, now) && NoLapsed(db, t, now) && RunningIn(db, t, id)
    ensures !ActiveSessionExists(db, t, now)
    ensures forall sid :: !ActiveIn(db, t, sid)
    ensures forall other :: RunningIn(db, t, other) ==> other == id
  {
    CanStartMeansClear(db, t, now);
    forall sid
      ensures !ActiveIn(db, t, sid)
    {
      assert sid in db.sessions ==> Apart(db.jobs[id], db.sessions[sid], now);
    }
    forall other | RunningIn(db, t, other)
      ensures other == id
    {
      assert BothRun(db.jobs[other], db.jobs[id]);
    }
  }

  lemma EnoughCompletes(db: Db, t: Id, id: Id, now: int)
    requires Core(db, now) && NoLapsed(db, t, now) && RunningIn(db, t, id) && Enough(db.jobs[id], id, db.shares)
    ensures Completes(db, t, id, now)
    ensures CompleteRunning(db, t, now) == OpenSession(db, id, now)
  {
    CompletionIsUnobstructed(db, t, id, now);
    assert JobOk(db.jobs[id], now);
    assert LiveSessions(db, t, now) == {};
    assert Completes(db, t, id, now);
  }

  lemma NotEnoughCompletesNothing(db: Db, t: Id, now: int)
    requires NoneEnough(db, t)
    ensures CompleteRunning(db, t, now) == db
  {
    assert forall id :: Completes(db, t, id, now) ==> RunningIn(db, t, id);
  }

  lemma CompletePhase(db: Db, t: Id, now: int)
    requires Core(db, now) && NoLapsed(db, t, now) && NoOverdue(db, t, now) && DrainedIn(db, t)
    ensures Core(CompleteRunning(db, t, now), now)
    ensures Quiet(CompleteRunning(db, t, now), t, now)
  {
    if id :| RunningIn(db, t, id) && Enough(db.jobs[id], id, db.shares) {
      EnoughCompletes(db, t, id, now);
      CompletesMeansMayOpen(db, t, id, now);
      OpenKeepsCore(db, id, now);
      assert JobOk(db.jobs[id], now);
      OpenIsQuiet(db, t, id, now);
    } else {
      NotEnoughCompletesNothing(db, t, now);
    }
  }

  lemma OpenIsQuiet(db: Db, t: Id, id: Id, now: int)
    requires OneRunning(db.jobs) && RunningIn(db, t, id) && JobOk(db.jobs[id], now) && NoLapsed(db, t, now)
    ensures Quiet(OpenSession(db, id, now), t, now)
  {
    var db' := OpenSession(db, id, now);
    OpenClosesJobs(db, t, id, now);
    forall sid | ActiveIn(db', t, sid)
      ensures LiveIn(db', t, sid, now)
    {
      assert sid != db.nextSession ==> ActiveIn(db, t, sid);
    }
    assert forall o :: o in db'.jobs && db'.jobs[o].tenant == t ==> !Overdue(db'.jobs[o], now);
    assert forall o :: !RunningIn(db', t, o) && !QueuedIn(db', t, o);
  }

  // The last promotion finds a running job, a session, or an empty queue.
  lemma DrainedPromotesNothing(db: Db, t: Id, now: int)
    requires DrainedIn(db, t)
    ensures Promote(db, t, now) == db
  {
    OldestQueuedExists(db, t);
    CanStartMeansClear(db, t, now);
  }

  // ---------------------------------------------------------------- reconcile

  lemma ReconcilePhases(db: Db, t: Id, now: int)
    requires Core(db, now)
    ensures Core(Reconcile(db, t, now), now)
    ensures Quiet(Reconcile(db, t, now), t, now)
    ensures Reconcile(db, t, now) == CompleteRunning(TimeoutJobs(ExpireSessions(db, t, now), t, now), t, now)
  {
    var db1 := ExpireSessions(db, t, now);
    ExpireKeepsCore(db, t, now);
    var db2 := TimeoutJobs(db1, t, now);
    TimeoutPhase(db1, t, now);
    var db3 := CompleteRunning(db2, t, now);
    CompletePhase(db2, t, now);
    DrainedPromotesNothing(db3, t, now);
  }

  lemma NothingToExpire(db: Db, t: Id, now: int)
    requires NoLapsed(db, t, now)
    ensures ExpireSessions(db, t, now) == db
  {
    assert forall sid :: ActiveIn(db, t, sid) ==> LiveIn(db, t, sid, now);
    assert LapsedSessions(db, t, now) == {};
    assert FinishSessions(db.sessions, {}, Expired, now, TtlExpired) == db.sessions;
  }

  lemma NothingOverdue(db: Db, t: Id, now: int)
    requires NoOverdue(db, t, now)
    ensures TimeoutRows(db, t, now) == db
  {
    assert OverdueJobs(db, t, now) == {};
    assert FinishJobs(db.jobs, {}, TimedOut, now, TimeoutReached) == db.jobs;
  }

  lemma QuietReconcilesToItself(db: Db, t: Id, now: int)
    requires Quiet(db, t, now)
    ensures Reconcile(db, t, now) == db
  {
    NothingToExpire(db, t, now);
    NothingOverdue(db, t, now);
    DrainedPromotesNothing(db, t, now);
    NotEnoughCompletesNothing(db, t, now);
  }

  /** Reconciling twice at one instant is reconciling once. */
  lemma ReconcileIsIdempotent(db: Db, t: Id, now: int)
    requires Core(db, now)
    ensures Reconcile(Reconcile(db, t, now), t, now) == Reconcile(db, t, now)
  {
    ReconcilePhases(db, t, now);
    QuietReconcilesToItself(Reconcile(db, t, now), t, now);
  }

  // ------------------------------------------------------------ other tenants

  lemma SameElsewhereComposes(a: map<Id, Job>, b: map<Id, Job>, c: map<Id, Job>, t: Id)
    requires SameElsewhere(a, b, t) && SameElsewhere(b, c, t)
    ensures SameElsewhere(a, c, t)
  {
  }

  /** Reconcile leaves the jobs of every other tenant as they were. */
  lemma ReconcileSameElsewhere(db: Db, t: Id, now: int)
    ensures SameElsewhere(db.jobs, Reconcile(db, t, now).jobs, t)
  {
    var db1 := ExpireSessions(db, t, now);
    var db2 := TimeoutRows(db1, t, now);
    var db3 := Promote(db2, t, now);
    var db4 := CompleteRunning(db3, t, now);
    PromoteSameElsewhere(db2, t, now);
    SameElsewhereComposes(db.jobs, db2.jobs, db3.jobs, t);
    CompleteSameElsewhere(db3, t, now);
    SameElsewhereComposes(db.jobs, db3.jobs, db4.jobs, t);
    PromoteSameElsewhere(db4, t, now);
    SameElsewhereComposes(db.jobs, db4.jobs, Promote(db4, t, now).jobs, t);
  }

  lemma CompleteSameElsewhere(db: Db, t: Id, now: int)
    ensures SameElsewhere(db.jobs, CompleteRunning(db, t, now).jobs, t)
  {
    hide Enough, JobWork, LiveSessions;
    if Completed(db, t, now).Some? {
      OpenSameElsewhere(db, Completed(db, t, now).value, now);
    }
  }

  lemma OpenSameElsewhere(db: Db, id: Id, now: int)
    requires id in db.jobs && db.jobs[id].policy.window > 0
    ensures SameElsewhere(db.jobs, OpenSession(db, id, now).jobs, db.jobs[id].tenant)
  {
    hide JobWork;
  }

  /** Reconcile keeps the invariant. */
  lemma ReconcileKeepsInv(db: Db, t: Id, now: int)
    requires Inv(db, now)
    ensures Inv(Reconcile(db, t, now), now)
  {
    ReconcilePhases(db, t, now);
    ReconcileSameElsewhere(db, t, now);
    forall u
      ensures DrainedIn(Reconcile(db, t, now), u)
    {
      if u != t {
        OthersKeepDrained(db, Reconcile(db, t, now), t, u);
      }
    }
  }
}
