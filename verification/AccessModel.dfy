/** The Proof-of-Work access queue: jobs, sessions, shares and the grants they rest on.
    Each SQL statement is a function on the tables; each handler is a composition of them. */
module AccessModel {
  import opened Base
  import opened Progress

  type Id = nat

  const DEFAULT_SESSION_TTL_MINUTES: int := 30

  // ---------------------------------------------------------------- rows

  datatype Policy = Policy(required: real, tolerance: real, window: int, attempts: int)

  datatype JobStatus = Queued | Running | Succeeded | Canceled | TimedOut

  datatype Reason =
    | Unset | ClientCanceled | TimeoutReached | ActiveSessionOpened | PermissionRevoked | FolderDeleted | UserDeleted
    | ClientClosed | AdminClosed | TtlExpired

  datatype Job = Job(
    tenant: Id, user: Id, folder: Id, status: JobStatus, policy: Policy, requiredWork: real,
    timeout: int, ttl: int, createdAt: int, startedAt: Option<int>, finishedAt: Option<int>,
    reason: Reason, observed: Option<real>)

  datatype SessionStatus = Active | Closed | Expired | Revoked

  datatype Session = Session(
    tenant: Id, user: Id, folder: Id, job: Id, status: SessionStatus,
    openedAt: int, expiresAt: int, closedAt: Option<int>, reason: Reason)

  datatype Permission = Permission(tenant: Id, unlock: bool, expiresAt: Option<int>)

  datatype Folder = Folder(tenant: Id, active: bool, policy: Policy)

  datatype User = User(tenant: Id, client: bool, blocked: bool)

  // `issued` holds every job id ever handed out: a random UUID does not come twice.
  datatype Db = Db(
    jobs: map<Id, Job>, issued: set<Id>, sessions: map<Id, Session>, nextSession: Id, shares: seq<Share>,
    perms: map<(Id, Id), Permission>, folders: map<Id, Folder>, users: map<Id, User>)

  const EMPTY := Db(map[], {}, map[], 0, [], map[], map[], map[])

  // ------------------------------------------------------------- queries

  predicate Open(j: Job) {
    j.status == Queued || j.status == Running
  }

  predicate Live(s: Session, now: int) {
    s.status == Active && now < s.expiresAt
  }

  predicate QueuedIn(db: Db, t: Id, id: Id) {
    id in db.jobs && db.jobs[id].tenant == t && db.jobs[id].status == Queued
  }

  predicate RunningIn(db: Db, t: Id, id: Id) {
    id in db.jobs && db.jobs[id].tenant == t && db.jobs[id].status == Running
  }

  predicate ActiveIn(db: Db, t: Id, sid: Id) {
    sid in db.sessions && db.sessions[sid].tenant == t && db.sessions[sid].status == Active
  }

  predicate LiveIn(db: Db, t: Id, sid: Id, now: int) {
    ActiveIn(db, t, sid) && now < db.sessions[sid].expiresAt
  }

  function RunningJobs(db: Db, t: Id): set<Id> {
    set id | id in db.jobs && RunningIn(db, t, id)
  }

  function LiveSessions(db: Db, t: Id, now: int): set<Id> {
    set sid | sid in db.sessions && LiveIn(db, t, sid, now)
  }

  // canStartJobTx: no running job and no unexpired active session.
  predicate CanStart(db: Db, t: Id, now: int) {
    |RunningJobs(db, t)| + |LiveSessions(db, t, now)| == 0
  }

  predicate ActiveSessionExists(db: Db, t: Id, now: int) {
    |LiveSessions(db, t, now)| > 0
  }

  // ORDER BY created_at; the id decides between equal times.
  predicate Before(jobs: map<Id, Job>, a: Id, b: Id) {
    && a in jobs && b in jobs
    && (jobs[a].createdAt < jobs[b].createdAt || (jobs[a].createdAt == jobs[b].createdAt && a <= b))
  }

  predicate IsOldestQueued(db: Db, t: Id, id: Id) {
    QueuedIn(db, t, id) && forall o :: o in db.jobs && QueuedIn(db, t, o) ==> Before(db.jobs, id, o)
  }

  ghost function OldestQueued(db: Db, t: Id): Option<Id> {
    if exists id :: IsOldestQueued(db, t, id) then
      var id :| IsOldestQueued(db, t, id);
      Some(id)
    else
      None
  }

  predicate Overdue(j: Job, now: int) {
    match j.status
    case Running => j.startedAt.GetOr(j.createdAt) + j.timeout * SECOND <= now
    case Queued => j.createdAt + j.timeout * SECOND <= now
    case _ => false
  }

  function JobSpan(j: Job, id: Id): Span {
    Span(j.tenant, id, j.startedAt.GetOr(0), j.policy.window)
  }

  function JobWork(j: Job, id: Id, shares: seq<Share>): real {
    if j.policy.attempts < 0 then 0.0 else BestWork(shares, JobSpan(j, id), j.policy.attempts)
  }

  predicate Enough(j: Job, id: Id, shares: seq<Share>) {
    j.requiredWork <= JobWork(j, id, shares)
  }

  // ------------------------------------------------------------- updates

  function FinishJobs(jobs: map<Id, Job>, ids: set<Id>, status: JobStatus, now: int, reason: Reason): map<Id, Job> {
    map id | id in jobs ::
      if id in ids then jobs[id].(status := status, finishedAt := Some(now), reason := reason) else jobs[id]
  }

  function FinishSessions(sessions: map<Id, Session>, ids: set<Id>, status: SessionStatus, now: int, reason: Reason): map<Id, Session> {
    map sid | sid in sessions ::
      if sid in ids then sessions[sid].(status := status, closedAt := Some(now), reason := reason) else sessions[sid]
  }

  function LapsedSessions(db: Db, t: Id, now: int): set<Id> {
    set sid | sid in db.sessions && ActiveIn(db, t, sid) && db.sessions[sid].expiresAt <= now
  }

  function ExpireSessions(db: Db, t: Id, now: int): Db {
    db.(sessions := FinishSessions(db.sessions, LapsedSessions(db, t, now), Expired, now, TtlExpired))
  }

  function OverdueJobs(db: Db, t: Id, now: int): set<Id> {
    set id | id in db.jobs && db.jobs[id].tenant == t && Overdue(db.jobs[id], now)
  }

  function TimeoutRows(db: Db, t: Id, now: int): Db {
    db.(jobs := FinishJobs(db.jobs, OverdueJobs(db, t, now), TimedOut, now, TimeoutReached))
  }

  function StartJob(db: Db, id: Id, now: int): Db
    requires id in db.jobs
  {
    db.(jobs := db.jobs[id := db.jobs[id].(status := Running, startedAt := Some(now))])
  }

  // promoteNextQueuedTx: check for blockers, then start the oldest queued job.
  ghost function Promote(db: Db, t: Id, now: int): (r: Db)
    ensures r == db.(jobs := r.jobs)
  {
    if !CanStart(db, t, now) then db else
    match OldestQueued(db, t)
    case None => db
    case Some(id) => StartJob(db, id, now)
  }

  function QueuedOthers(db: Db, t: Id, id: Id): set<Id> {
    set q | q in db.jobs && QueuedIn(db, t, q) && q != id
  }

  // The writes of openSessionForCompletedJob when no active session stands in the way.
  function OpenSession(db: Db, id: Id, now: int): Db
    requires id in db.jobs && db.jobs[id].policy.window > 0
  {
    var j := db.jobs[id];
    var done := j.(status := Succeeded, observed := Some(JobWork(j, id, db.shares) / j.policy.window as real), finishedAt := Some(now));
    var session := Session(j.tenant, j.user, j.folder, id, Active, now, now + j.ttl * MINUTE, None, Unset);
    db.(jobs := FinishJobs(db.jobs[id := done], QueuedOthers(db, j.tenant, id), Canceled, now, ActiveSessionOpened),
        sessions := db.sessions[db.nextSession := session],
        nextSession := db.nextSession + 1)
  }

  ghost predicate Completes(db: Db, t: Id, id: Id, now: int) {
    RunningIn(db, t, id) && Enough(db.jobs[id], id, db.shares) && db.jobs[id].policy.window > 0 && LiveSessions(db, t, now) == {}
  }

  ghost function Completed(db: Db, t: Id, now: int): (r: Option<Id>)
    ensures r.Some? ==> Completes(db, t, r.value, now)
    ensures r.None? ==> forall id :: !Completes(db, t, id, now)
  {
    if exists id :: Completes(db, t, id, now) then
      var id :| Completes(db, t, id, now);
      Some(id)
    else
      None
  }

  // completeRunningJobs, for a tenant with at most one running job.
  ghost function CompleteRunning(db: Db, t: Id, now: int): (r: Db)
    ensures r == db.(jobs := r.jobs, sessions := r.sessions, nextSession := r.nextSession)
  {
    match Completed(db, t, now)
    case None => db
    case Some(id) => OpenSession(db, id, now)
  }

  ghost function TimeoutJobs(db: Db, t: Id, now: int): Db {
    Promote(TimeoutRows(db, t, now), t, now)
  }

  // It writes jobs and sessions only.
  ghost function Reconcile(db: Db, t: Id, now: int): (r: Db)
    ensures r == db.(jobs := r.jobs, sessions := r.sessions, nextSession := r.nextSession)
  {
    Promote(CompleteRunning(TimeoutJobs(ExpireSessions(db, t, now), t, now), t, now), t, now)
  }

  // ------------------------------------------------- policy and required work

  predicate PolicyOk(p: Policy) {
    0.0 < p.required && 0.0 <= p.tolerance <= 50.0 && 5 <= p.window <= 600 && 1 <= p.attempts <= 10
  }

  function Accepted(p: Policy): real {
    var tolerance := if p.tolerance < 0.0 then 0.0 else if p.tolerance > 90.0 then 90.0 else p.tolerance;
    p.required * (1.0 - tolerance / 100.0)
  }

  function RequiredWork(p: Policy): real {
    Accepted(p) * p.window as real
  }

  // ------------------------------------------------------------ handlers

  datatype AccessError = FolderNotFound | UnlockNotAllowed | PolicyRejected | ActiveSessionMustBeClosed | NotFoundOrClosed

  datatype Created = Existing(session: Id) | ExistingJob(job: Id) | NewJob(job: Id)

  // canUnlock: the permission row, if it has not expired and its folder is active.
  function CanUnlock(db: Db, t: Id, user: Id, folder: Id, now: int): Option<bool> {
    if (user, folder) in db.perms && db.perms[(user, folder)].tenant == t
       && folder in db.folders && db.folders[folder].active
       && (db.perms[(user, folder)].expiresAt.None? || now < db.perms[(user, folder)].expiresAt.value)
    then Some(db.perms[(user, folder)].unlock)
    else None
  }

  predicate OwnSession(db: Db, t: Id, user: Id, folder: Id, sid: Id, now: int) {
    LiveIn(db, t, sid, now) && db.sessions[sid].user == user && db.sessions[sid].folder == folder
  }

  predicate OwnOpenJob(db: Db, t: Id, user: Id, folder: Id, id: Id) {
    id in db.jobs && db.jobs[id].tenant == t && db.jobs[id].user == user && db.jobs[id].folder == folder && Open(db.jobs[id])
  }

  function NewRow(t: Id, user: Id, folder: Id, p: Policy, ttlSetting: int, start: bool, now: int): Job {
    Job(t, user, folder, if start then Running else Queued, p, RequiredWork(p), p.window * p.attempts,
        NormalizePositive(ttlSetting, DEFAULT_SESSION_TTL_MINUTES), now, if start then Some(now) else None, None, Unset, None)
  }

  // createJob. `id` is the database's new row id; `sealOk` is the outcome of the policy seal check.
  ghost function CreateJob(db: Db, t: Id, user: Id, folder: Id, ttlSetting: int, sealOk: bool, id: Id, now: int)
    : (Db, Result<Created, AccessError>)
  {
    match CanUnlock(db, t, user, folder, now)
    case None => (db, Err(FolderNotFound))
    case Some(false) => (db, Err(UnlockNotAllowed))
    case Some(true) =>
      if !sealOk || folder !in db.folders || db.folders[folder].tenant != t then (db, Err(PolicyRejected))
      else if exists sid :: OwnSession(db, t, user, folder, sid, now) then
        var sid :| OwnSession(db, t, user, folder, sid, now);
        (db, Ok(Existing(sid)))
      else if exists own :: OwnOpenJob(db, t, user, folder, own) then
        var own :| OwnOpenJob(db, t, user, folder, own);
        (db, Ok(ExistingJob(own)))
      else if ActiveSessionExists(db, t, now) then (db, Err(ActiveSessionMustBeClosed))
      else
        var row := NewRow(t, user, folder, db.folders[folder].policy, ttlSetting, CanStart(db, t, now), now);
        (db.(jobs := db.jobs[id := row], issued := db.issued + {id}), Ok(NewJob(id)))
  }

  // cancelJob. Beside the tables it gives the status recorded as the previous one: what RETURNING
  // finds in the row.
  ghost function CancelJob(db: Db, t: Id, user: Id, id: Id, now: int): (Db, Result<JobStatus, AccessError>) {
    if id in db.jobs && db.jobs[id].tenant == t && db.jobs[id].user == user && Open(db.jobs[id]) then
      var canceled := db.(jobs := FinishJobs(db.jobs, {id}, Canceled, now, ClientCanceled));
      (Promote(canceled, t, now), Ok(canceled.jobs[id].status))
    else
      (db, Err(NotFoundOrClosed))
  }

  ghost function CloseSession(db: Db, t: Id, user: Id, sid: Id, now: int): (Db, Result<Id, AccessError>) {
    if ActiveIn(db, t, sid) && db.sessions[sid].user == user then
      (Promote(db.(sessions := FinishSessions(db.sessions, {sid}, Closed, now, ClientClosed)), t, now), Ok(sid))
    else
      (db, Err(NotFoundOrClosed))
  }

  ghost function CloseSessionAsAdmin(db: Db, t: Id, sid: Id, now: int): (Db, Result<Id, AccessError>) {
    if LiveIn(db, t, sid, now) then
      (Promote(db.(sessions := FinishSessions(db.sessions, {sid}, Closed, now, AdminClosed)), t, now), Ok(sid))
    else
      (db, Err(NotFoundOrClosed))
  }

  // promoteNextQueuedAccessJobTx of the archive and auth services: one statement that looks for
  // the oldest queued job and for blockers at once.
  predicate IsOldestUnblocked(db: Db, t: Id, id: Id, now: int) {
    && QueuedIn(db, t, id)
    && !(exists r :: r in db.jobs && RunningIn(db, t, r))
    && !(exists sid :: sid in db.sessions && LiveIn(db, t, sid, now))
    && forall o :: o in db.jobs && QueuedIn(db, t, o) ==> Before(db.jobs, id, o)
  }

  ghost function OldestUnblocked(db: Db, t: Id, now: int): (r: Option<Id>)
    ensures r.Some? ==> IsOldestUnblocked(db, t, r.value, now)
    ensures r.None? ==> forall id :: !IsOldestUnblocked(db, t, id, now)
  {
    if exists id :: IsOldestUnblocked(db, t, id, now) then
      var id :| IsOldestUnblocked(db, t, id, now);
      Some(id)
    else
      None
  }

  ghost function PromoteUnblocked(db: Db, t: Id, now: int): Db {
    match OldestUnblocked(db, t, now)
    case None => db
    case Some(id) => StartJob(db, id, now)
  }

  function SessionsWhere(db: Db, t: Id, user: Option<Id>, folder: Option<Id>): set<Id> {
    set sid | sid in db.sessions && ActiveIn(db, t, sid)
              && (user.None? || db.sessions[sid].user == user.value)
              && (folder.None? || db.sessions[sid].folder == folder.value)
  }

  function OpenJobsWhere(db: Db, t: Id, user: Option<Id>, folder: Option<Id>): set<Id> {
    set id | id in db.jobs && db.jobs[id].tenant == t && Open(db.jobs[id])
             && (user.None? || db.jobs[id].user == user.value)
             && (folder.None? || db.jobs[id].folder == folder.value)
  }

  // Revoke the active sessions and cancel the open jobs of a user, a folder, or both.
  function RevokeAccess(db: Db, t: Id, user: Option<Id>, folder: Option<Id>, now: int, reason: Reason): Db {
    db.(sessions := FinishSessions(db.sessions, SessionsWhere(db, t, user, folder), Revoked, now, reason),
        jobs := FinishJobs(db.jobs, OpenJobsWhere(db, t, user, folder), Canceled, now, reason))
  }

  predicate KeepsAccess(p: Permission, now: int) {
    p.unlock && (p.expiresAt.None? || now < p.expiresAt.value)
  }

  // handleUpdateFolderPermission: store the row, then revoke when access is lost.
  ghost function UpdatePermission(db: Db, t: Id, user: Id, folder: Id, unlock: bool, expiresAt: Option<int>, now: int): Db {
    if !(folder in db.folders && db.folders[folder].tenant == t && db.folders[folder].active) then db
    else if !(user in db.users && db.users[user] == User(t, true, false)) then db
    else
      var p := Permission(t, unlock, expiresAt);
      var stored := db.(perms := db.perms[(user, folder) := p]);
      if KeepsAccess(p, now) then stored
      else
        var revoked := RevokeAccess(stored, t, Some(user), Some(folder), now, PermissionRevoked);
        if SessionsWhere(stored, t, Some(user), Some(folder)) != {} || OpenJobsWhere(stored, t, Some(user), Some(folder)) != {}
        then PromoteUnblocked(revoked, t, now)
        else revoked
  }

  // handleDeleteFolder, as far as access goes.
  ghost function DeleteFolder(db: Db, t: Id, folder: Id, now: int): Db {
    if !(folder in db.folders && db.folders[folder].tenant == t && db.folders[folder].active) then db
    else
      var revoked := RevokeAccess(db, t, None, Some(folder), now, FolderDeleted);
      var gone := revoked.(perms := map k | k in revoked.perms && !(revoked.perms[k].tenant == t && k.1 == folder) :: revoked.perms[k],
                           folders := revoked.folders[folder := revoked.folders[folder].(active := false)]);
      PromoteUnblocked(gone, t, now)
  }

  // Rows of pow_shares go with their job.
  function SharesOfJobs(shares: seq<Share>, jobs: set<Id>): seq<Share> {
    if shares == [] then []
    else
      var rest := SharesOfJobs(shares[..|shares| - 1], jobs);
      var s := shares[|shares| - 1];
      if s.job in jobs then rest + [s] else rest
  }

  function RemoveUserRows(db: Db, t: Id, user: Id): Db {
    var jobs := map id | id in db.jobs && !(db.jobs[id].tenant == t && db.jobs[id].user == user) :: db.jobs[id];
    db.(perms := map k | k in db.perms && !(db.perms[k].tenant == t && k.0 == user) :: db.perms[k],
        sessions := map sid | sid in db.sessions && !(db.sessions[sid].tenant == t && db.sessions[sid].user == user) :: db.sessions[sid],
        jobs := jobs,
        shares := SharesOfJobs(db.shares, jobs.Keys))
  }

  // handleDeleteUser: revoke, cancel, delete the rows, promote, delete the user.
  ghost function DeleteUser(db: Db, user: Id, now: int): Db {
    if user !in db.users then db
    else
      var t := db.users[user].tenant;
      var promoted := PromoteUnblocked(RemoveUserRows(RevokeAccess(db, t, Some(user), None, now, UserDeleted), t, user), t, now);
      promoted.(users := promoted.users - {user})
  }

  // runningJob of the gateway: the running job of any tenant that started first.
  predicate IsGatewayJob(db: Db, id: Id) {
    && id in db.jobs && db.jobs[id].status == Running && db.jobs[id].startedAt.Some?
    && db.jobs[id].user in db.users
    && forall o :: o in db.jobs && db.jobs[o].status == Running && db.jobs[o].startedAt.Some? && db.jobs[o].user in db.users ==>
         db.jobs[id].startedAt.value <= db.jobs[o].startedAt.value
  }

  // submitShare when the version bits are refused: the share is stored as invalid before anyone asks
  // which job is running. A job that is gone violates the foreign key, and the error is dropped.
  function StoreRefused(db: Db, tenant: Id, job: Id, worker: Id, now: int): Db {
    if job !in db.jobs then db else db.(shares := db.shares + [Share(tenant, job, Some(worker), 0.0, false, now)])
  }

  // submitShare after verification. `tenant` is the connection's tenant; a negative amount of work
  // fails the table check.
  ghost function SubmitShare(db: Db, tenant: Id, job: Id, worker: Id, credited: real, valid: bool, now: int): Db {
    if !IsGatewayJob(db, job) || credited < 0.0 then db
    else
      var stored := db.(shares := db.shares + [Share(tenant, job, Some(worker), if valid then credited else 0.0, valid, now)]);
      if valid then Reconcile(stored, tenant, now) else stored
  }
}
