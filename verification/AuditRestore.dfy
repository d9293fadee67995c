/** What a restore answers to any request at all, and what it writes. */
module AuditRestore {
  import opened Base
  import opened AuditModel

  // ------------------------------------------------------------- the events of a file

  predicate ListedBefore(list: seq<Event>, k: nat)
    requires k < |list|
  {
    exists j :: 0 <= j < k && list[j].id == list[k].id
  }

  // An event stops the insertion if it is another tenant's, or if its actor is gone and it is neither
  // in the log nor listed before.
  predicate Stops(events: map<Id, Event>, users: set<Id>, tenant: Id, list: seq<Event>, k: nat) {
    && k < |list|
    && (list[k].tenant == tenant ==>
          list[k].id !in events && !ListedBefore(list, k) && list[k].actor.Some? && list[k].actor.value !in users)
  }

  ghost predicate FirstStop(events: map<Id, Event>, users: set<Id>, tenant: Id, list: seq<Event>, k: nat) {
    Stops(events, users, tenant, list, k) && forall j: nat :: j < k ==> !Stops(events, users, tenant, list, j)
  }

  // The rows after it: the old ones, and each missing one as it is listed first.
  ghost predicate Inserted(events: map<Id, Event>, list: seq<Event>, rows: map<Id, Event>, restored: nat) {
    CountedIn(events.Keys, Ids(list), rows.Keys, restored) && AsListed(events, list, rows)
  }

  ghost predicate AsListed(events: map<Id, Event>, list: seq<Event>, rows: map<Id, Event>) {
    && (forall id :: id in events ==> id in rows && rows[id] == events[id])
    && (forall k: nat :: k < |list| && list[k].id !in events && !ListedBefore(list, k) ==> list[k].id in rows && rows[list[k].id] == list[k])
  }

  /** The first event that stops the insertion decides its error; without any, all missing rows are
      back, and counted once each. */
  lemma {:induction false} InsertsUntilStopped(events: map<Id, Event>, users: set<Id>, tenant: Id, list: seq<Event>)
    ensures var r := InsertEvents(events, users, tenant, list);
      && (r.Ok? <==> forall k: nat :: !Stops(events, users, tenant, list, k))
      && (r.Ok? ==> Inserted(events, list, r.value.0, r.value.1))
      && (forall k: nat :: FirstStop(events, users, tenant, list, k) ==> r == Err(if list[k].tenant != tenant then TenantMismatch else ActorGone))
  {
    hide Inserted, Stops;
    if list == [] {
      NothingInserted(events, users, tenant);
      assert list == [];
    } else {
      var n := |list| - 1;
      InsertsUntilStopped(events, users, tenant, list[..n]);
      forall k: nat | k < n ensures Stops(events, users, tenant, list, k) <==> Stops(events, users, tenant, list[..n], k) {
        StopsInPrefix(events, users, tenant, list, k);
      }
      OnlyListedStop(events, users, tenant, list);
      LastInserted(events, users, tenant, list);
    }
  }

  lemma NothingInserted(events: map<Id, Event>, users: set<Id>, tenant: Id)
    ensures Inserted(events, [], events, 0) && InsertEvents(events, users, tenant, []) == Ok((events, 0))
    ensures forall k: nat :: !Stops(events, users, tenant, [], k)
  {
    assert Ids([]) == {};
  }

  lemma StopsInPrefix(events: map<Id, Event>, users: set<Id>, tenant: Id, list: seq<Event>, k: nat)
    requires k < |list| - 1
    ensures Stops(events, users, tenant, list, k) <==> Stops(events, users, tenant, list[..|list| - 1], k)
  {
    assert ListedBefore(list, k) <==> ListedBefore(list[..|list| - 1], k);
  }

  lemma OnlyListedStop(events: map<Id, Event>, users: set<Id>, tenant: Id, list: seq<Event>)
    requires list != []
    ensures forall k: nat :: Stops(events, users, tenant, list, k) ==> k < |list|
    ensures var init := list[..|list| - 1]; forall k: nat :: Stops(events, users, tenant, init, k) ==> k < |init|
  {
  }

  lemma LastInserted(events: map<Id, Event>, users: set<Id>, tenant: Id, list: seq<Event>)
    requires list != []
    requires var r := InsertEvents(events, users, tenant, list[..|list| - 1]); r.Ok? ==> Inserted(events, list[..|list| - 1], r.value.0, r.value.1)
    ensures var n := |list| - 1;
      var before, r := InsertEvents(events, users, tenant, list[..n]), InsertEvents(events, users, tenant, list);
      && (before.Err? ==> r == before)
      && (before.Ok? && Stops(events, users, tenant, list, n) ==> r == Err(if list[n].tenant != tenant then TenantMismatch else ActorGone))
      && (before.Ok? && !Stops(events, users, tenant, list, n) ==> r.Ok? && Inserted(events, list, r.value.0, r.value.1))
  {
    hide Inserted;
    var n := |list| - 1;
    var before := InsertEvents(events, users, tenant, list[..n]);
    if before.Ok? {
      KeysBefore(events, list, before.value.0, before.value.1);
      if !Stops(events, users, tenant, list, n) {
        StillInserted(events, list, before.value.0, before.value.1);
      }
    }
  }

  lemma KeysBefore(events: map<Id, Event>, list: seq<Event>, rows: map<Id, Event>, restored: nat)
    requires list != [] && Inserted(events, list[..|list| - 1], rows, restored)
    ensures list[|list| - 1].id in rows <==> list[|list| - 1].id in events || ListedBefore(list, |list| - 1)
  {
    hide AsListed, Ids, ListedBefore;
    ListedIff(list);
  }

  lemma ListedIff(list: seq<Event>)
    requires list != []
    ensures ListedBefore(list, |list| - 1) <==> list[|list| - 1].id in Ids(list[..|list| - 1])
  {
    var n := |list| - 1;
    if j: nat :| j < n && list[j].id == list[n].id {
      assert list[..n][j].id == list[n].id;
    }
  }

  lemma StillInserted(events: map<Id, Event>, list: seq<Event>, rows: map<Id, Event>, restored: nat)
    requires list != [] && Inserted(events, list[..|list| - 1], rows, restored)
    ensures var e := list[|list| - 1];
      && (e.id in rows ==> Inserted(events, list, rows, restored))
      && (e.id !in rows ==> Inserted(events, list, rows[e.id := e], restored + 1))
  {
    hide AsListed, Ids, ListedBefore, CountedIn;
    var n := |list| - 1;
    var e := list[n];
    IdsOfPrefix(list);
    KeysBefore(events, list, rows, restored);
    StillAsListed(events, list, rows);
    OneMore(events.Keys, Ids(list[..n]), rows.Keys, e.id, restored);
    UpdatedKeys(rows, e);
  }

  lemma UpdatedKeys(rows: map<Id, Event>, e: Event)
    ensures rows[e.id := e].Keys == rows.Keys + {e.id}
  {
  }

  lemma OneMore(events: set<Id>, ids: set<Id>, rows: set<Id>, id: Id, restored: nat)
    requires CountedIn(events, ids, rows, restored)
    ensures id in rows ==> CountedIn(events, ids + {id}, rows, restored)
    ensures id !in rows ==> CountedIn(events, ids + {id}, rows + {id}, restored + 1)
  {
    if id in rows {
      assert ids + {id} - events == ids - events;
    } else {
      assert ids + {id} - events == (ids - events) + {id};
    }
  }

  lemma StillAsListed(events: map<Id, Event>, list: seq<Event>, rows: map<Id, Event>)
    requires list != [] && AsListed(events, list[..|list| - 1], rows)
    ensures var e := list[|list| - 1];
      && (e.id in events || ListedBefore(list, |list| - 1) ==> AsListed(events, list, rows))
      && (e.id !in rows ==> AsListed(events, list, rows[e.id := e]))
  {
    var n := |list| - 1;
    forall k: nat | k < n && list[k].id !in events && !ListedBefore(list, k) ensures list[k].id in rows && rows[list[k].id] == list[k] {
      assert list[..n][k] == list[k] && !ListedBefore(list[..n], k);
    }
  }

  // ---------------------------------------------------------------- the answer

  // The file is for this service and tenant, and what it says of its checksum is true.
  predicate InOrder(payload: Payload, checksum: Checksum, tenant: Id) {
    payload.content.format == "archivon.audit.file_activity.backup.v1" && payload.content.tenant == tenant
  }

  predicate SumHolds(payload: Payload, checksum: Checksum) {
    payload.checksum in {"", checksum(payload.content)}
  }

  predicate OnRecord(log: Log, id: Id, tenant: Id) {
    id in log.backups && log.backups[id].tenant == tenant && log.backups[id].fileActivity
  }

  // A request that gets as far as the insertion.
  predicate Acceptable(log: Log, checksum: Checksum, tenant: Id, body: Body) {
    var content := body.payload.content;
    && body.size <= 20_971_520
    && InOrder(body.payload, checksum, tenant) && SumHolds(body.payload, checksum) && OnRecord(log, content.backupId, tenant)
    && log.backups[content.backupId].restoredAt.None? && log.backups[content.backupId].checksum == checksum(content)
  }

  /** Which of its errors a restore answers with, for any request: a body over 20 MiB is cut; the file
      must be for the tenant, unbroken, on record, not restored yet and the one recorded; then the first
      event that stops the insertion decides. */
  lemma RestoreAnswers(log: Log, checksum: Checksum, tenant: Id, user: Id, body: Body, now: int, ip: string)
    ensures var r := HandleRestore(log, checksum, tenant, user, body, now, ip);
      var fits, ours, unbroken := body.size <= 20_971_520, InOrder(body.payload, checksum, tenant), SumHolds(body.payload, checksum);
      var id := body.payload.content.backupId;
      var pending := OnRecord(log, id, tenant) && log.backups[id].restoredAt.None?;
      var events := body.payload.content.events;
      && (r == Err(BodyCut) <==> !fits)
      && (r == Err(BackupNotFound) <==> fits && (!ours || (unbroken && !OnRecord(log, id, tenant))))
      && (r == Err(ChecksumMismatch) <==> fits && ours && (!unbroken || (pending && log.backups[id].checksum != checksum(body.payload.content))))
      && (r == Err(AlreadyRestored) <==> fits && ours && unbroken && OnRecord(log, id, tenant) && log.backups[id].restoredAt.Some?)
      && (r.Ok? <==> Acceptable(log, checksum, tenant, body) && forall k: nat :: !Stops(log.events, log.users, tenant, events, k))
      && (Acceptable(log, checksum, tenant, body) ==>
            forall k: nat :: FirstStop(log.events, log.users, tenant, events, k) ==> r == Err(if events[k].tenant != tenant then TenantMismatch else ActorGone))
  {
    hide InsertEvents, Stops, Inserted;
    InsertsUntilStopped(log.events, log.users, tenant, body.payload.content.events);
    InsertErrors(log.events, log.users, tenant, body.payload.content.events);
  }

  lemma {:induction false} InsertErrors(events: map<Id, Event>, users: set<Id>, tenant: Id, list: seq<Event>)
    ensures var r := InsertEvents(events, users, tenant, list); r.Err? ==> r.error in {TenantMismatch, ActorGone}
  {
    if list != [] {
      InsertErrors(events, users, tenant, list[..|list| - 1]);
    }
  }

  /** What a restore writes: the missing events, the date and the count on the backup's row, and one
      warning that names the user and the backup; nothing else. */
  lemma RestoreWrites(log: Log, checksum: Checksum, tenant: Id, user: Id, body: Body, now: int, ip: string)
    requires HandleRestore(log, checksum, tenant, user, body, now, ip).Ok?
    ensures var (after, restored) := HandleRestore(log, checksum, tenant, user, body, now, ip).value;
      var id := body.payload.content.backupId;
      && after == log.(events := after.events, nextEvent := log.nextEvent + 1, backups := after.backups)
      && id in log.backups
      && after.backups == log.backups[id := log.backups[id].(restoredAt := Some(now), restoredEvents := restored)]
      && exists rows :: Inserted(log.events, body.payload.content.events, rows, restored)
                        && after.events == rows[log.nextEvent := after.events[log.nextEvent]]
                        && IsWarning(after.events[log.nextEvent], log.nextEvent, "audit.file_activity.restored", tenant, user, id, ip, now)
  {
    hide InsertEvents, Stops, Inserted;
    InsertsUntilStopped(log.events, log.users, tenant, body.payload.content.events);
    var rows := InsertEvents(log.events, log.users, tenant, body.payload.content.events).value.0;
    var after := HandleRestore(log, checksum, tenant, user, body, now, ip).value.0;
    assert after.events == rows[log.nextEvent := after.events[log.nextEvent]];
  }

  predicate IsWarning(e: Event, id: Id, kind: string, tenant: Id, user: Id, backup: Id, ip: string, now: int) {
    && (e.id, e.tenant, e.actor, e.createdAt, e.ip) == (id, tenant, Some(user), now, ip)
    && e.eventType == kind && e.severity == "warning" && e.targetType == "log_cleanup_backup" && e.target == Some(backup)
  }

  /** What a cleanup writes beside what it takes: one warning in the log, and the backup's row, with the
      checksum of what is handed out and not restored yet. */
  lemma CleanupWrites(log: Log, checksum: Checksum, tenant: Id, user: Id, scope: Scope, now: int, ip: string, list: seq<Event>)
    ensures var after := Cleanup(log, checksum, tenant, user, scope, now, ip, list);
      var id := log.nextBackup;
      && after.users == log.users && after.nextBackup == id + 1 && after.nextEvent == log.nextEvent + 1
      && log.nextEvent in after.events
      && IsWarning(after.events[log.nextEvent], log.nextEvent, "audit.file_activity.cleaned", tenant, user, id, ip, now)
      && id in after.backups && id in after.downloads
      && var payload := after.downloads[id];
         && after.backups == log.backups[id := Backup(tenant, true, checksum(payload.content), None, 0)]
         && after.downloads == log.downloads[id := payload] && payload.checksum == checksum(payload.content)
         && payload.content == Content("archivon.audit.file_activity.backup.v1", id, tenant, now, user, scope, |list|, list)
  {
    hide Ids;
  }

  /** Deleting a user takes the user's name from the events in the log and changes nothing else in them;
      backups and downloads stay. */
  lemma UserLeavesLog(log: Log, user: Id)
    ensures var after := RemoveUser(log, user);
      && user !in after.users && after.users + {user} == log.users + {user}
      && after == log.(users := after.users, events := after.events) && after.events.Keys == log.events.Keys
      && (forall id :: id in log.events && log.events[id].actor == Some(user) ==> after.events[id] == log.events[id].(actor := None))
      && (forall id :: id in log.events && log.events[id].actor != Some(user) ==> after.events[id] == log.events[id])
  {
    var after := RemoveUser(log, user);
    assert after.events.Keys == log.events.Keys;
  }
}
