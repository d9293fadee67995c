/** What every step of the access queue keeps. */
module AccessInvariant {
  import opened Base
  import opened Progress
  import opened AccessModel

  // ------------------------------------------------------------ the invariant

  predicate JobOk(j: Job, now: int) {
    && PolicyOk(j.policy)
    && j.requiredWork == RequiredWork(j.policy)
    && 0.0 < j.requiredWork
    && 0 < j.timeout == j.policy.window * j.policy.attempts
    && 0 < j.ttl
    && j.createdAt <= now
    && (j.startedAt.Some? ==> j.createdAt <= j.startedAt.value <= now)
    && (j.status == Queued ==> j.startedAt.None?)
    && (j.status == Running || j.status == Succeeded ==> j.startedAt.Some?)
    && (Open(j) <==> j.finishedAt.None?)
    && (j.finishedAt.Some? ==> j.finishedAt.value <= now)
  }

  // Attempt window k of the job holds the required hashrate, less its tolerance, for its whole length.
  predicate WindowSuffices(j: Job, id: Id, shares: seq<Share>, k: nat) {
    && k < j.policy.attempts
    && j.policy.required * (100.0 - j.policy.tolerance) * j.policy.window as real <= 100.0 * WindowWork(shares, Span(j.tenant, id, j.startedAt.GetOr(0), j.policy.window), k)
  }

  // The work stored with a job, in the fields of its policy.
  lemma RequiredWorkIs(p: Policy)
    ensures var tolerance := if p.tolerance < 0.0 then 0.0 else if 90.0 < p.tolerance then 90.0 else p.tolerance;
      100.0 * RequiredWork(p) == p.required * (100.0 - tolerance) * p.window as real
  {
    var tolerance := if p.tolerance < 0.0 then 0.0 else if 90.0 < p.tolerance then 90.0 else p.tolerance;
    var rate, window := p.required * (1.0 - tolerance / 100.0), p.window as real;
    assert 100.0 * (1.0 - tolerance / 100.0) == 100.0 - tolerance;
    Regroup(p.required, 1.0 - tolerance / 100.0);
    assert 100.0 * rate == p.required * (100.0 - tolerance);
    MulAssoc(100.0, rate, window);
  }

  lemma Regroup(x: real, y: real)
    ensures 100.0 * (x * y) == x * (100.0 * y)
  {
  }

  lemma MulAssoc(x: real, y: real, z: real)
    ensures (x * y) * z == x * (y * z)
  {
  }

  lemma SufficesIff(j: Job, id: Id, shares: seq<Share>, k: nat)
    requires PolicyOk(j.policy) && j.requiredWork == RequiredWork(j.policy)
    ensures WindowSuffices(j, id, shares, k) <==> k < j.policy.attempts && j.requiredWork <= WindowWork(shares, JobSpan(j, id), k)
  {
    hide RequiredWork, WindowWork;
    RequiredWorkIs(j.policy);
  }

  // A job has enough work exactly if one of its attempt windows does.
  lemma EnoughIff(j: Job, id: Id, shares: seq<Share>, now: int)
    requires JobOk(j, now)
    ensures Enough(j, id, shares) <==> exists k: nat :: WindowSuffices(j, id, shares, k)
  {
    hide WindowWork, RequiredWork, WindowSuffices, BestWork;
    var span, n := JobSpan(j, id), j.policy.attempts;
    BestWorkIsMaximum(shares, span, n);
    if Enough(j, id, shares) {
      var k: nat :| k < n && WindowWork(shares, span, k) == BestWork(shares, span, n);
      SufficesIff(j, id, shares, k);
    }
    if k: nat :| WindowSuffices(j, id, shares, k) {
      SufficesIff(j, id, shares, k);
    }
  }

  ghost predicate JobsOk(jobs: map<Id, Job>, now: int) {
    forall id :: id in jobs ==> JobOk(jobs[id], now)
  }

  // A valid share was submitted while its job was running.
  predicate ShareOk(s: Share, jobs: map<Id, Job>) {
    s.valid ==>
      && s.job in jobs
      && jobs[s.job].startedAt.Some?
      && jobs[s.job].startedAt.value <= s.at
      && (jobs[s.job].finishedAt.Some? ==> s.at <= jobs[s.job].finishedAt.value)
  }

  ghost predicate SharesOk(shares: seq<Share>, jobs: map<Id, Job>, now: int) {
    && SharesSound(shares, now)
    && forall i :: 0 <= i < |shares| ==> ShareOk(shares[i], jobs)
  }

  predicate Granted(db: Db, t: Id, user: Id, folder: Id) {
    && user in db.users && db.users[user].tenant == t
    && folder in db.folders && db.folders[folder].tenant == t && db.folders[folder].active
    && (user, folder) in db.perms && db.perms[(user, folder)].tenant == t && db.perms[(user, folder)].unlock
  }

  // Open jobs and active sessions rest on an existing user, an active folder and an unlock right.
  ghost predicate GrantsOk(db: Db) {
    && (forall id :: id in db.jobs && Open(db.jobs[id]) ==> Granted(db, db.jobs[id].tenant, db.jobs[id].user, db.jobs[id].folder))
    && (forall sid :: sid in db.sessions && db.sessions[sid].status == Active ==>
          Granted(db, db.sessions[sid].tenant, db.sessions[sid].user, db.sessions[sid].folder))
  }

  // Rows live in the tenant of their user; folder policies meet the table checks.
  ghost predicate TablesOk(db: Db) {
    && db.jobs.Keys <= db.issued
    && (forall id :: id in db.jobs ==> db.jobs[id].user in db.users && db.users[db.jobs[id].user].tenant == db.jobs[id].tenant)
    && (forall k :: k in db.perms ==>
          && k.0 in db.users && db.users[k.0].tenant == db.perms[k].tenant
          && k.1 in db.folders && db.folders[k.1].tenant == db.perms[k].tenant)
    && (forall f :: f in db.folders ==> PolicyOk(db.folders[f].policy))
  }

  ghost predicate Rows(db: Db, now: int) {
    JobsOk(db.jobs, now) && SharesOk(db.shares, db.jobs, now) && GrantsOk(db) && TablesOk(db)
  }

  // The job of a session succeeded at the instant the session opened, before its deadline, on
  // work that reached what it required.
  predicate Earned(j: Job, shares: seq<Share>, s: Session) {
    && j.status == Succeeded
    && (j.tenant, j.user, j.folder) == (s.tenant, s.user, s.folder)
    && j.finishedAt == Some(s.openedAt)
    && j.startedAt.Some?
    && s.openedAt < j.startedAt.value + j.timeout * SECOND
    && j.policy.window > 0
    && Enough(j, s.job, shares)
    && j.observed == Some(JobWork(j, s.job, shares) / j.policy.window as real)
  }

  predicate SessionOk(jobs: map<Id, Job>, shares: seq<Share>, s: Session) {
    s.job in jobs && Earned(jobs[s.job], shares, s)
  }

  ghost predicate SessionsOk(db: Db) {
    && (forall sid :: sid in db.sessions ==> SessionOk(db.jobs, db.shares, db.sessions[sid]))
    && (forall sid :: sid in db.sessions ==> sid < db.nextSession)
  }

  predicate SameJob(a: Session, b: Session) {
    a.job == b.job
  }

  ghost predicate OneSessionPerJob(sessions: map<Id, Session>) {
    forall a, b :: a in sessions && b in sessions && SameJob(sessions[a], sessions[b]) ==> a == b
  }

  ghost predicate HasSession(sessions: map<Id, Session>, id: Id) {
    exists sid :: sid in sessions && sessions[sid].job == id
  }

  ghost predicate SuccessOpened(jobs: map<Id, Job>, sessions: map<Id, Session>) {
    forall id :: id in jobs && jobs[id].status == Succeeded ==> HasSession(sessions, id)
  }

  // Sessions and succeeded jobs are in bijection.
  ghost predicate Earnings(db: Db) {
    SessionsOk(db) && OneSessionPerJob(db.sessions) && SuccessOpened(db.jobs, db.sessions)
  }

  // A job that has started leaves no earlier job of its tenant waiting, and none that started later.
  predicate InOrder(a: Job, b: Job) {
    a.tenant == b.tenant && a.createdAt < b.createdAt && b.startedAt.Some? ==>
      && a.status != Queued
      && (a.startedAt.Some? ==> a.startedAt.value <= b.startedAt.value)
  }

  ghost predicate Fifo(jobs: map<Id, Job>) {
    forall a, b :: a in jobs && b in jobs ==> InOrder(jobs[a], jobs[b])
  }

  predicate BothRun(a: Job, b: Job) {
    a.status == Running && b.status == Running && a.tenant == b.tenant
  }

  // The unique index on running jobs.
  ghost predicate OneRunning(jobs: map<Id, Job>) {
    forall a, b :: a in jobs && b in jobs && BothRun(jobs[a], jobs[b]) ==> a == b
  }

  predicate BothActive(a: Session, b: Session) {
    a.status == Active && b.status == Active && a.tenant == b.tenant
  }

  // The unique index on active sessions.
  ghost predicate OneActive(sessions: map<Id, Session>) {
    forall a, b :: a in sessions && b in sessions && BothActive(sessions[a], sessions[b]) ==> a == b
  }

  predicate Apart(j: Job, s: Session, now: int) {
    Open(j) && Live(s, now) ==> j.tenant != s.tenant
  }

  // An unexpired session leaves no open job in its tenant.
  ghost predicate Exclusive(jobs: map<Id, Job>, sessions: map<Id, Session>, now: int) {
    forall id, sid :: id in jobs && sid in sessions ==> Apart(jobs[id], sessions[sid], now)
  }

  ghost predicate Order(db: Db, now: int) {
    Fifo(db.jobs) && OneRunning(db.jobs) && OneActive(db.sessions) && Exclusive(db.jobs, db.sessions, now)
  }

  // Jobs wait only behind a running one.
  ghost predicate DrainedIn(db: Db, t: Id) {
    (exists q :: QueuedIn(db, t, q)) ==> exists r :: RunningIn(db, t, r)
  }

  // Everything but DrainedIn, which only a promotion restores.
  ghost predicate Core(db: Db, now: int) {
    Rows(db, now) && Earnings(db) && Order(db, now)
  }

  ghost predicate Drained(db: Db) {
    forall t :: DrainedIn(db, t)
  }

  ghost predicate Inv(db: Db, now: int) {
    Core(db, now) && Drained(db)
  }

  // ------------------------------------------------------------------ row moves

  // What a single update may do to a job: nothing, close it, start it, or let it succeed.
  predicate JobMoves(j: Job, k: Job, now: int) {
    || k == j
    || (Open(j) && (k.status == Canceled || k.status == TimedOut) && k == j.(status := k.status, finishedAt := Some(now), reason := k.reason))
    || (j.status == Queued && k == j.(status := Running, startedAt := Some(now)))
    || (j.status == Running && k == j.(status := Succeeded, finishedAt := Some(now), observed := k.observed))
  }

  ghost predicate AllMove(jobs: map<Id, Job>, jobs': map<Id, Job>, now: int) {
    jobs'.Keys == jobs.Keys && forall id :: id in jobs ==> JobMoves(jobs[id], jobs'[id], now)
  }

  lemma MoveKeepsJobOk(j: Job, k: Job, now: int)
    requires JobOk(j, now) && JobMoves(j, k, now)
    ensures JobOk(k, now)
  {
  }

  lemma MovesKeepJobs(jobs: map<Id, Job>, jobs': map<Id, Job>, now: int)
    requires JobsOk(jobs, now) && AllMove(jobs, jobs', now)
    ensures JobsOk(jobs', now)
  {
    forall id | id in jobs'
      ensures JobOk(jobs'[id], now)
    {
      MoveKeepsJobOk(jobs[id], jobs'[id], now);
    }
  }

  lemma MovesKeepShares(shares: seq<Share>, jobs: map<Id, Job>, jobs': map<Id, Job>, now: int)
    requires SharesOk(shares, jobs, now) && JobsOk(jobs, now) && AllMove(jobs, jobs', now)
    ensures SharesOk(shares, jobs', now)
  {
    forall i | 0 <= i < |shares|
      ensures ShareOk(shares[i], jobs')
    {
      var s := shares[i];
      assert ShareOk(s, jobs);
      if s.valid {
        assert JobMoves(jobs[s.job], jobs'[s.job], now) && JobOk(jobs[s.job], now);
      }
    }
  }

  lemma MovesKeepGrants(db: Db, jobs': map<Id, Job>, now: int)
    requires GrantsOk(db) && TablesOk(db) && AllMove(db.jobs, jobs', now)
    ensures GrantsOk(db.(jobs := jobs')) && TablesOk(db.(jobs := jobs'))
  {
    var db' := db.(jobs := jobs');
    forall id | id in jobs'
      ensures Open(jobs'[id]) ==> Granted(db', jobs'[id].tenant, jobs'[id].user, jobs'[id].folder)
      ensures jobs'[id].user in db'.users && db'.users[jobs'[id].user].tenant == jobs'[id].tenant
    {
      assert JobMoves(db.jobs[id], jobs'[id], now);
    }
  }

  // -------------------------------------------------------------- closing jobs

  ghost predicate AllOpen(db: Db, ids: set<Id>) {
    forall id :: id in ids ==> id in db.jobs && Open(db.jobs[id])
  }

  lemma FinishJobsKeepsCore(db: Db, ids: set<Id>, status: JobStatus, now: int, reason: Reason)
    requires Core(db, now) && AllOpen(db, ids) && (status == Canceled || status == TimedOut)
    ensures Core(db.(jobs := FinishJobs(db.jobs, ids, status, now, reason)), now)
  {
    hide JobsOk, SharesOk, GrantsOk, TablesOk, Earnings, Order, JobOk;
    var jobs' := FinishJobs(db.jobs, ids, status, now, reason);
    assert AllMove(db.jobs, jobs', now);
    MovesKeepJobs(db.jobs, jobs', now);
    MovesKeepShares(db.shares, db.jobs, jobs', now);
    MovesKeepGrants(db, jobs', now);
    FinishJobsKeepsEarnings(db, ids, status, now, reason);
    ShutKeepsOrder(db, jobs', now);
  }

  lemma FinishJobsKeepsEarnings(db: Db, ids: set<Id>, status: JobStatus, now: int, reason: Reason)
    requires Earnings(db) && AllOpen(db, ids) && (status == Canceled || status == TimedOut)
    ensures Earnings(db.(jobs := FinishJobs(db.jobs, ids, status, now, reason)))
  {
    var jobs' := FinishJobs(db.jobs, ids, status, now, reason);
    forall sid | sid in db.sessions
      ensures SessionOk(jobs', db.shares, db.sessions[sid])
    {
      assert SessionOk(db.jobs, db.shares, db.sessions[sid]);
    }
  }

  // A row that is untouched or closed, seen by the ordering rules.
  predicate Shut(j: Job, k: Job) {
    k == j || (!Open(k) && k.tenant == j.tenant && k.createdAt == j.createdAt && k.startedAt == j.startedAt)
  }

  lemma ShutKeepsOrder(db: Db, jobs': map<Id, Job>, now: int)
    requires Order(db, now)
    requires jobs'.Keys == db.jobs.Keys && forall id :: id in db.jobs ==> Shut(db.jobs[id], jobs'[id])
    ensures Order(db.(jobs := jobs'), now)
  {
    forall a, b | a in jobs' && b in jobs'
      ensures InOrder(jobs'[a], jobs'[b])
      ensures BothRun(jobs'[a], jobs'[b]) ==> a == b
    {
      assert InOrder(db.jobs[a], db.jobs[b]);
      assert BothRun(db.jobs[a], db.jobs[b]) ==> a == b;
    }
    forall id, sid | id in jobs' && sid in db.sessions
      ensures Apart(jobs'[id], db.sessions[sid], now)
    {
      assert Apart(db.jobs[id], db.sessions[sid], now);
    }
  }

  // ---------------------------------------------------------- closing sessions

  lemma FinishSessionsKeepsCore(db: Db, ids: set<Id>, status: SessionStatus, now: int, reason: Reason)
    requires Core(db, now) && status != Active
    ensures Core(db.(sessions := FinishSessions(db.sessions, ids, status, now, reason)), now)
  {
    var db' := db.(sessions := FinishSessions(db.sessions, ids, status, now, reason));
    assert SessionsOk(db') by {
      FinishSessionsKeepsSessions(db, ids, status, now, reason);
    }
    assert OneSessionPerJob(db'.sessions) && SuccessOpened(db'.jobs, db'.sessions) by {
      FinishSessionsKeepsBijection(db.jobs, db.sessions, ids, status, now, reason);
    }
    assert Order(db', now) by {
      FinishSessionsKeepsOrder(db, ids, status, now, reason);
    }
    assert GrantsOk(db') by {
      FinishSessionsKeepsGrants(db, ids, status, now, reason);
    }
  }

  lemma FinishSessionsKeepsGrants(db: Db, ids: set<Id>, status: SessionStatus, now: int, reason: Reason)
    requires GrantsOk(db) && status != Active
    ensures GrantsOk(db.(sessions := FinishSessions(db.sessions, ids, status, now, reason)))
  {
  }

  lemma FinishSessionsKeepsSessions(db: Db, ids: set<Id>, status: SessionStatus, now: int, reason: Reason)
    requires SessionsOk(db)
    ensures SessionsOk(db.(sessions := FinishSessions(db.sessions, ids, status, now, reason)))
  {
    var sessions' := FinishSessions(db.sessions, ids, status, now, reason);
    forall sid | sid in sessions'
      ensures SessionOk(db.jobs, db.shares, sessions'[sid])
    {
      assert SessionOk(db.jobs, db.shares, db.sessions[sid]);
    }
  }

  lemma FinishSessionsKeepsBijection(jobs: map<Id, Job>, sessions: map<Id, Session>, ids: set<Id>, status: SessionStatus, now: int, reason: Reason)
    requires OneSessionPerJob(sessions) && SuccessOpened(jobs, sessions)
    ensures OneSessionPerJob(FinishSessions(sessions, ids, status, now, reason))
    ensures SuccessOpened(jobs, FinishSessions(sessions, ids, status, now, reason))
  {
    var sessions' := FinishSessions(sessions, ids, status, now, reason);
    forall a, b | a in sessions' && b in sessions' && SameJob(sessions'[a], sessions'[b])
      ensures a == b
    {
      assert SameJob(sessions[a], sessions[b]);
    }
    forall id | id in jobs && jobs[id].status == Succeeded
      ensures HasSession(sessions', id)
    {
      assert HasSession(sessions, id);
      var sid :| sid in sessions && sessions[sid].job == id;
      assert sessions'[sid].job == id;
    }
  }

  lemma FinishSessionsKeepsOrder(db: Db, ids: set<Id>, status: SessionStatus, now: int, reason: Reason)
    requires Order(db, now) && status != Active
    ensures Order(db.(sessions := FinishSessions(db.sessions, ids, status, now, reason)), now)
  {
    var sessions' := FinishSessions(db.sessions, ids, status, now, reason);
    forall a, b | a in sessions' && b in sessions'
      ensures BothActive(sessions'[a], sessions'[b]) ==> a == b
    {
      assert BothActive(db.sessions[a], db.sessions[b]) ==> a == b;
    }
    forall id, sid | id in db.jobs && sid in sessions'
      ensures Apart(db.jobs[id], sessions'[sid], now)
    {
      assert Apart(db.jobs[id], db.sessions[sid], now);
    }
  }

  // ------------------------------------------------------------------ starting

  lemma CanStartMeansClear(db: Db, t: Id, now: int)
    ensures CanStart(db, t, now) <==> (forall r :: !RunningIn(db, t, r)) && (forall sid :: !LiveIn(db, t, sid, now))
    ensures ActiveSessionExists(db, t, now) <==> exists sid :: LiveIn(db, t, sid, now)
  {
    var running, live := RunningJobs(db, t), LiveSessions(db, t, now);
    assert forall r :: RunningIn(db, t, r) <==> r in running;
    assert forall sid :: LiveIn(db, t, sid, now) <==> sid in live;
    if |live| > 0 {
      var sid :| sid in live;
      assert LiveIn(db, t, sid, now);
    }
  }

  lemma StartKeepsCore(db: Db, t: Id, id: Id, now: int)
    requires Core(db, now) && IsOldestQueued(db, t, id) && CanStart(db, t, now)
    ensures Core(StartJob(db, id, now), now)
    ensures RunningIn(StartJob(db, id, now), t, id)
  {
    var jobs' := StartJob(db, id, now).jobs;
    assert AllMove(db.jobs, jobs', now);
    MovesKeepJobs(db.jobs, jobs', now);
    MovesKeepShares(db.shares, db.jobs, jobs', now);
    MovesKeepGrants(db, jobs', now);
    StartKeepsEarnings(db, id, now);
    StartKeepsOrder(db, t, id, now);
  }

  lemma StartKeepsEarnings(db: Db, id: Id, now: int)
    requires Earnings(db) && id in db.jobs && db.jobs[id].status == Queued
    ensures Earnings(StartJob(db, id, now))
  {
    var jobs' := StartJob(db, id, now).jobs;
    forall sid | sid in db.sessions
      ensures SessionOk(jobs', db.shares, db.sessions[sid])
    {
      assert SessionOk(db.jobs, db.shares, db.sessions[sid]);
    }
  }

  lemma StartKeepsOrder(db: Db, t: Id, id: Id, now: int)
    requires Order(db, now) && JobsOk(db.jobs, now) && IsOldestQueued(db, t, id) && CanStart(db, t, now)
    ensures Order(StartJob(db, id, now), now)
  {
    CanStartMeansClear(db, t, now);
    var jobs' := StartJob(db, id, now).jobs;
    forall a, b | a in jobs' && b in jobs'
      ensures InOrder(jobs'[a], jobs'[b])
      ensures BothRun(jobs'[a], jobs'[b]) ==> a == b
    {
      assert InOrder(db.jobs[a], db.jobs[b]);
      assert BothRun(db.jobs[a], db.jobs[b]) ==> a == b;
      assert JobOk(db.jobs[a], now);
      assert QueuedIn(db, t, a) ==> Before(db.jobs, id, a);
      assert !RunningIn(db, t, a) && !RunningIn(db, t, b);
    }
    forall j, sid | j in jobs' && sid in db.sessions
      ensures Apart(jobs'[j], db.sessions[sid], now)
    {
      assert Apart(db.jobs[j], db.sessions[sid], now);
      assert !LiveIn(db, t, sid, now);
    }
  }

  predicate Earlier(created: map<Id, int>, a: Id, b: Id) {
    a in created && b in created && (created[a] < created[b] || (created[a] == created[b] && a <= b))
  }

  lemma EarliestExists(created: map<Id, int>, ids: set<Id>) returns (first: Id)
    requires ids != {} && ids <= created.Keys
    ensures first in ids && forall o :: o in ids ==> Earlier(created, first, o)
    decreases |ids|
  {
    var q :| q in ids;
    first := q;
    var rest := ids - {q};
    assert forall o :: o in ids ==> o in rest || o == q;
    if rest != {} {
      var r := EarliestExists(created, rest);
      first := if Earlier(created, r, q) then r else q;
    }
  }

  // A tenant with queued jobs has an oldest one.
  lemma OldestQueuedExists(db: Db, t: Id)
    ensures OldestQueued(db, t).Some? <==> exists q :: QueuedIn(db, t, q)
    ensures OldestQueued(db, t).Some? ==> IsOldestQueued(db, t, OldestQueued(db, t).value)
  {
    if q :| QueuedIn(db, t, q) {
      var queued := set o | o in db.jobs && QueuedIn(db, t, o);
      var created := map o | o in queued :: db.jobs[o].createdAt;
      assert q in queued;
      var id := EarliestExists(created, queued);
      forall o | QueuedIn(db, t, o)
        ensures Before(db.jobs, id, o)
      {
        assert o in queued && Earlier(created, id, o);
      }
      assert IsOldestQueued(db, t, id);
    }
  }

  lemma PromoteKeepsCore(db: Db, t: Id, now: int)
    requires Core(db, now)
    ensures Core(Promote(db, t, now), now)
  {
    OldestQueuedExists(db, t);
    if CanStart(db, t, now) && OldestQueued(db, t).Some? {
      StartKeepsCore(db, t, OldestQueued(db, t).value, now);
    }
  }

  /** After a promotion no job of the tenant waits behind nothing. */
  lemma PromoteDrains(db: Db, t: Id, now: int)
    requires Exclusive(db.jobs, db.sessions, now)
    ensures DrainedIn(Promote(db, t, now), t)
  {
    OldestQueuedExists(db, t);
    CanStartMeansClear(db, t, now);
    if CanStart(db, t, now) && OldestQueued(db, t).Some? {
      assert RunningIn(Promote(db, t, now), t, OldestQueued(db, t).value);
    } else if q :| QueuedIn(db, t, q) {
      if sid :| LiveIn(db, t, sid, now) {
        assert Apart(db.jobs[q], db.sessions[sid], now);
      }
    }
  }

  // A step that touches only rows of tenant t leaves the queues of the others as they were.
  ghost predicate SameElsewhere(jobs: map<Id, Job>, jobs': map<Id, Job>, t: Id) {
    && (forall id :: id in jobs && jobs[id].tenant != t ==> id in jobs' && jobs'[id] == jobs[id])
    && (forall id :: id in jobs' && jobs'[id].tenant != t ==> id in jobs && jobs'[id] == jobs[id])
  }

  lemma OthersKeepDrained(db: Db, db': Db, t: Id, u: Id)
    requires SameElsewhere(db.jobs, db'.jobs, t) && u != t && DrainedIn(db, u)
    ensures DrainedIn(db', u)
  {
    if q :| QueuedIn(db', u, q) {
      assert QueuedIn(db, u, q);
      var r :| RunningIn(db, u, r);
      assert RunningIn(db', u, r);
    }
  }

  lemma PromoteSameElsewhere(db: Db, t: Id, now: int)
    ensures SameElsewhere(db.jobs, Promote(db, t, now).jobs, t)
  {
    OldestQueuedExists(db, t);
  }

  // ------------------------------------------------------------ opening a session

  ghost predicate MayOpen(db: Db, id: Id, now: int) {
    && id in db.jobs
    && db.jobs[id].status == Running
    && Enough(db.jobs[id], id, db.shares)
    && !Overdue(db.jobs[id], now)
    && forall sid :: !ActiveIn(db, db.jobs[id].tenant, sid)
  }

  // The job succeeds and its session is inserted; the waiting jobs are gone already.
  function Succeed(db: Db, id: Id, now: int): Db
    requires id in db.jobs && db.jobs[id].policy.window > 0
  {
    var j := db.jobs[id];
    var done := j.(status := Succeeded, observed := Some(JobWork(j, id, db.shares) / j.policy.window as real), finishedAt := Some(now));
    var session := Session(j.tenant, j.user, j.folder, id, Active, now, now + j.ttl * MINUTE, None, Unset);
    db.(jobs := db.jobs[id := done], sessions := db.sessions[db.nextSession := session], nextSession := db.nextSession + 1)
  }

  lemma OpenIsCancelThenSucceed(db: Db, id: Id, now: int)
    requires id in db.jobs && db.jobs[id].policy.window > 0
    ensures OpenSession(db, id, now) ==
            Succeed(db.(jobs := FinishJobs(db.jobs, QueuedOthers(db, db.jobs[id].tenant, id), Canceled, now, ActiveSessionOpened)), id, now)
  {
    var q := QueuedOthers(db, db.jobs[id].tenant, id);
    var db1 := db.(jobs := FinishJobs(db.jobs, q, Canceled, now, ActiveSessionOpened));
    assert db1.jobs[id] == db.jobs[id];
    assert OpenSession(db, id, now).jobs == Succeed(db1, id, now).jobs;
  }

  lemma OpenKeepsCore(db: Db, id: Id, now: int)
    requires Core(db, now) && MayOpen(db, id, now) && db.jobs[id].policy.window > 0
    ensures Core(OpenSession(db, id, now), now)
  {
    hide Rows, Earnings, Enough, JobWork;
    var t := db.jobs[id].tenant;
    var q := QueuedOthers(db, t, id);
    var db1 := db.(jobs := FinishJobs(db.jobs, q, Canceled, now, ActiveSessionOpened));
    FinishJobsKeepsCore(db, q, Canceled, now, ActiveSessionOpened);
    OpenIsCancelThenSucceed(db, id, now);
    assert db1.jobs[id] == db.jobs[id];
    forall o | o in db1.jobs && db1.jobs[o].tenant == t && o != id
      ensures !Open(db1.jobs[o])
    {
      assert BothRun(db.jobs[o], db.jobs[id]) ==> o == id;
    }
    assert forall sid :: ActiveIn(db1, t, sid) ==> ActiveIn(db, t, sid);
    SucceedKeepsCore(db1, id, now);
  }

  lemma SucceedKeepsCore(db: Db, id: Id, now: int)
    requires Core(db, now) && MayOpen(db, id, now) && db.jobs[id].policy.window > 0
    requires forall o :: o in db.jobs && db.jobs[o].tenant == db.jobs[id].tenant && o != id ==> !Open(db.jobs[o])
    ensures Core(Succeed(db, id, now), now)
  {
    SucceedKeepsRows(db, id, now);
    SucceedKeepsEarnings(db, id, now);
    SucceedKeepsOrder(db, id, now);
  }

  lemma SucceedKeepsRows(db: Db, id: Id, now: int)
    requires Rows(db, now) && id in db.jobs && db.jobs[id].status == Running && db.jobs[id].policy.window > 0
    ensures Rows(Succeed(db, id, now), now)
  {
    var jobs' := Succeed(db, id, now).jobs;
    assert AllMove(db.jobs, jobs', now);
    MovesKeepJobs(db.jobs, jobs', now);
    MovesKeepShares(db.shares, db.jobs, jobs', now);
    MovesKeepGrants(db, jobs', now);
    var j := db.jobs[id];
    assert Granted(db, j.tenant, j.user, j.folder);
  }

  lemma SucceedKeepsEarnings(db: Db, id: Id, now: int)
    requires Earnings(db) && MayOpen(db, id, now) && JobOk(db.jobs[id], now) && db.jobs[id].policy.window > 0
    ensures Earnings(Succeed(db, id, now))
  {
    var db' := Succeed(db, id, now);
    var session := db'.sessions[db.nextSession];
    assert JobSpan(db'.jobs[id], id) == JobSpan(db.jobs[id], id);
    AddSession(db, id, db'.jobs[id], session);
    AddPair(db, id, db'.jobs[id], session);
  }

  lemma SucceedKeepsOrder(db: Db, id: Id, now: int)
    requires Order(db, now) && SessionsOk(db) && MayOpen(db, id, now) && JobOk(db.jobs[id], now)
    requires forall o :: o in db.jobs && db.jobs[o].tenant == db.jobs[id].tenant && o != id ==> !Open(db.jobs[o])
    ensures Order(Succeed(db, id, now), now)
  {
    hide JobWork, Enough, Fifo, Exclusive, OneRunning, OneActive;
    var db' := Succeed(db, id, now);
    var session := db'.sessions[db.nextSession];
    assert forall o :: o in db.jobs ==> Shut(db.jobs[o], db'.jobs[o]);
    ShutKeepsOrder(db, db'.jobs, now);
    assert forall sid :: sid in db.sessions && BothActive(db.sessions[sid], session) ==> ActiveIn(db, session.tenant, sid);
    AddActive(db'.jobs, db.sessions, db.nextSession, session, now);
  }

  lemma AddSession(db: Db, id: Id, done: Job, session: Session)
    requires SessionsOk(db) && id in db.jobs && db.jobs[id].status != Succeeded
    requires session.job == id && Earned(done, db.shares, session)
    ensures SessionsOk(db.(jobs := db.jobs[id := done], sessions := db.sessions[db.nextSession := session], nextSession := db.nextSession + 1))
  {
    forall sid | sid in db.sessions
      ensures SessionOk(db.jobs[id := done], db.shares, db.sessions[sid])
    {
      assert SessionOk(db.jobs, db.shares, db.sessions[sid]);
    }
  }

  lemma AddPair(db: Db, id: Id, done: Job, session: Session)
    requires Earnings(db) && id in db.jobs && db.jobs[id].status != Succeeded && session.job == id
    ensures OneSessionPerJob(db.sessions[db.nextSession := session])
    ensures SuccessOpened(db.jobs[id := done], db.sessions[db.nextSession := session])
  {
    var sessions' := db.sessions[db.nextSession := session];
    forall a, b | a in sessions' && b in sessions' && SameJob(sessions'[a], sessions'[b])
      ensures a == b
    {
      assert a in db.sessions ==> SessionOk(db.jobs, db.shares, db.sessions[a]);
      assert b in db.sessions ==> SessionOk(db.jobs, db.shares, db.sessions[b]);
      assert a in db.sessions && b in db.sessions ==> (SameJob(db.sessions[a], db.sessions[b]) ==> a == b);
    }
    assert sessions'[db.nextSession].job == id;
    forall o | o in db.jobs && db.jobs[o].status == Succeeded
      ensures HasSession(sessions', o)
    {
      assert HasSession(db.sessions, o);
      var sid :| sid in db.sessions && db.sessions[sid].job == o;
      assert sessions'[sid].job == o;
    }
  }

  lemma AddActive(jobs: map<Id, Job>, sessions: map<Id, Session>, sid: Id, session: Session, now: int)
    requires OneActive(sessions) && Exclusive(jobs, sessions, now) && sid !in sessions
    requires forall o :: o in sessions ==> !BothActive(sessions[o], session)
    requires forall o :: o in jobs && jobs[o].tenant == session.tenant ==> !Open(jobs[o])
    ensures OneActive(sessions[sid := session]) && Exclusive(jobs, sessions[sid := session], now)
  {
    var sessions' := sessions[sid := session];
    forall a, b | a in sessions' && b in sessions' && BothActive(sessions'[a], sessions'[b])
      ensures a == b
    {
      assert a != sid && b != sid ==> BothActive(sessions[a], sessions[b]);
    }
    forall o, x | o in jobs && x in sessions'
      ensures Apart(jobs[o], sessions'[x], now)
    {
      assert x != sid ==> Apart(jobs[o], sessions[x], now);
    }
  }
}
