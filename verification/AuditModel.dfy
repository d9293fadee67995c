/** The audit log: file-activity cleanups that hand out a backup, and restores that bring it back. */
module AuditModel {
  import opened Base

  type Id = nat

  const CLEANED := "audit.file_activity.cleaned"
  const RESTORED := "audit.file_activity.restored"
  const FORMAT := "archivon.audit.file_activity.backup.v1"
  const DAY: int := 24 * 60 * MINUTE

  datatype Event = Event(id: Id, tenant: Id, actor: Option<Id>, eventType: string, targetType: string, target: Option<Id>,
                         severity: string, ip: string, details: map<string, string>, createdAt: int)

  datatype Scope = Scope(before: Option<int>, olderThanDays: Option<int>)

  // Everything in a backup that its checksum covers.
  datatype Content = Content(format: string, backupId: Id, tenant: Id, createdAt: int, createdBy: Id, scope: Scope,
                             eventCount: nat, events: seq<Event>)

  datatype Payload = Payload(content: Content, checksum: string)

  // A row of log_cleanup_backups.
  datatype Backup = Backup(tenant: Id, fileActivity: bool, checksum: string, restoredAt: Option<int>, restoredEvents: nat)

  // encodeBackup: the hash of the encoded content.
  type Checksum = Content -> string

  ghost predicate Injective(checksum: Checksum) {
    forall c, d :: checksum(c) == checksum(d) ==> c == d
  }

  // `downloads` holds the payloads handed out; the service keeps none of them.
  datatype Log = Log(events: map<Id, Event>, nextEvent: Id, backups: map<Id, Backup>, nextBackup: Id, users: set<Id>,
                     downloads: map<Id, Payload>)

  // ------------------------------------------------------------------ matching

  // fileActivitySQL
  predicate FileActivity(e: Event) {
    || e.eventType == "archive.file.downloaded" || e.eventType == "archive.permission.updated"
    || e.targetType == "file" || e.targetType == "protected_folder"
    || "file_id" in e.details || "file_name" in e.details || "folder_id" in e.details || "plaintext_sha256" in e.details
  }

  predicate Marker(e: Event) {
    e.eventType == CLEANED || e.eventType == RESTORED
  }

  // The conditions of queryFileActivityEventsTx.
  predicate Matches(e: Event, tenant: Id, scope: Scope, now: int) {
    && e.tenant == tenant && FileActivity(e) && !Marker(e)
    && (scope.before.Some? ==> e.createdAt < scope.before.value)
    && (scope.olderThanDays.Some? && scope.olderThanDays.value > 0 ==> e.createdAt < now - scope.olderThanDays.value * DAY)
  }

  predicate DistinctEvents(list: seq<Event>) {
    forall i, j :: 0 <= i < j < |list| ==> list[i].id != list[j].id
  }

  function Ids(list: seq<Event>): set<Id> {
    set i | 0 <= i < |list| :: list[i].id
  }

  function MatchingIds(events: map<Id, Event>, tenant: Id, scope: Scope, now: int): set<Id> {
    set id | id in events && Matches(events[id], tenant, scope, now)
  }

  // The rows of the query, each once.
  predicate IsQueryResult(events: map<Id, Event>, tenant: Id, scope: Scope, now: int, list: seq<Event>) {
    && DistinctEvents(list) && Ids(list) == MatchingIds(events, tenant, scope, now)
    && forall i :: 0 <= i < |list| ==> list[i].id in events && events[list[i].id] == list[i]
  }

  // ---------------------------------------------------------------- operations

  // Its details name the backup and its checksum; the values do not matter here.
  function MarkerEvent(log: Log, tenant: Id, user: Id, kind: string, backup: Id, now: int, ip: string): Event {
    Event(log.nextEvent, tenant, Some(user), kind, "log_cleanup_backup", Some(backup), "warning", ip, map["backup_id" := "", "checksum_sha256" := ""], now)
  }

  // insertAuditEventTx
  function AppendEvent(log: Log, e: Event): Log {
    log.(events := log.events[log.nextEvent := e.(id := log.nextEvent)], nextEvent := log.nextEvent + 1)
  }

  function CleanupPayload(log: Log, checksum: Checksum, tenant: Id, user: Id, scope: Scope, now: int, list: seq<Event>): Payload {
    var content := Content(FORMAT, log.nextBackup, tenant, now, user, scope, |list|, list);
    Payload(content, checksum(content))
  }

  // cleanupFileActivity, given the rows its query returned.
  function Cleanup(log: Log, checksum: Checksum, tenant: Id, user: Id, scope: Scope, now: int, ip: string, list: seq<Event>): Log {
    var payload := CleanupPayload(log, checksum, tenant, user, scope, now, list);
    var id := log.nextBackup;
    AppendEvent(
      log.(events := log.events - Ids(list),
           backups := log.backups[id := Backup(tenant, true, payload.checksum, None, 0)],
           nextBackup := id + 1,
           downloads := log.downloads[id := payload]),
      MarkerEvent(log, tenant, user, CLEANED, id, now, ip))
  }

  datatype RestoreError = BodyCut | BackupNotFound | ChecksumMismatch | AlreadyRestored | TenantMismatch | ActorGone

  // insertEventsTx: rows already there are skipped and not counted. A missing actor violates the
  // foreign key.
  function InsertEvents(events: map<Id, Event>, users: set<Id>, tenant: Id, list: seq<Event>): Result<(map<Id, Event>, nat), RestoreError> {
    if list == [] then Ok((events, 0))
    else
      var n := |list| - 1;
      var before := InsertEvents(events, users, tenant, list[..n]);
      if before.Err? then before
      else
        var (rows, restored) := before.value;
        var e := list[n];
        if e.tenant != tenant then Err(TenantMismatch)
        else if e.id in rows then Ok((rows, restored))
        else if e.actor.Some? && e.actor.value !in users then Err(ActorGone)
        else Ok((rows[e.id := e], restored + 1))
  }

  // restoreBackup
  function Restore(log: Log, checksum: Checksum, tenant: Id, user: Id, payload: Payload, now: int, ip: string): Result<(Log, nat), RestoreError> {
    var id := payload.content.backupId;
    if payload.content.format != FORMAT || payload.content.tenant != tenant then Err(BackupNotFound)
    else if payload.checksum != "" && payload.checksum != checksum(payload.content) then Err(ChecksumMismatch)
    else if id !in log.backups || log.backups[id].tenant != tenant || !log.backups[id].fileActivity then Err(BackupNotFound)
    else if log.backups[id].restoredAt.Some? then Err(AlreadyRestored)
    else if log.backups[id].checksum != checksum(payload.content) then Err(ChecksumMismatch)
    else
      var inserted := InsertEvents(log.events, log.users, tenant, payload.content.events);
      if inserted.Err? then Err(inserted.error)
      else
        Ok((AppendEvent(
              log.(events := inserted.value.0,
                   backups := log.backups[id := log.backups[id].(restoredAt := Some(now), restoredEvents := inserted.value.1)]),
              MarkerEvent(log, tenant, user, RESTORED, id, now, ip)),
            inserted.value.1))
  }

  // handleRestore reads 20 << 20 bytes and no more.
  const RESTORE_BODY_LIMIT := 20 * 1024 * 1024

  // The body of a restore request: what it decodes to, and its length up to the closing brace.
  datatype Body = Body(payload: Payload, size: nat)

  // The length of a payload as a cleanup hands it out.
  type Encoded = Payload -> nat

  // A body cut short does not decode.
  function HandleRestore(log: Log, checksum: Checksum, tenant: Id, user: Id, body: Body, now: int, ip: string): Result<(Log, nat), RestoreError> {
    if body.size > RESTORE_BODY_LIMIT then Err(BodyCut) else Restore(log, checksum, tenant, user, body.payload, now, ip)
  }

  // Deleting a user clears the actor of the events still in the log.
  function RemoveUser(log: Log, user: Id): Log {
    log.(users := log.users - {user},
         events := map id | id in log.events ::
           if log.events[id].actor == Some(user) then log.events[id].(actor := None) else log.events[id])
  }

  // ----------------------------------------------------------- inserting events

  predicate Insertable(events: map<Id, Event>, users: set<Id>, tenant: Id, e: Event) {
    e.tenant == tenant && (e.id in events || e.actor.None? || e.actor.value in users)
  }

  predicate AllInsertable(events: map<Id, Event>, users: set<Id>, tenant: Id, list: seq<Event>) {
    forall i :: 0 <= i < |list| ==> Insertable(events, users, tenant, list[i])
  }

  predicate RowKept(events: map<Id, Event>, id: Id, rows: map<Id, Event>) {
    id in events ==> id in rows && rows[id] == events[id]
  }

  predicate RowBack(events: map<Id, Event>, e: Event, rows: map<Id, Event>) {
    e.id !in events ==> e.id in rows && rows[e.id] == e
  }

  // Old rows stay, missing ones come back as they were, and the count is of those.
  ghost predicate PutIn(events: map<Id, Event>, list: seq<Event>, rows: map<Id, Event>, restored: nat) {
    CountedIn(events.Keys, Ids(list), rows.Keys, restored) && RowsIn(events, list, rows)
  }

  predicate CountedIn(events: set<Id>, ids: set<Id>, rows: set<Id>, restored: nat) {
    rows == events + ids && restored == |ids - events|
  }

  ghost predicate RowsIn(events: map<Id, Event>, list: seq<Event>, rows: map<Id, Event>) {
    (forall id: Id :: RowKept(events, id, rows)) && (forall i :: 0 <= i < |list| ==> RowBack(events, list[i], rows))
  }

  lemma {:induction false} InsertEventsEffect(events: map<Id, Event>, users: set<Id>, tenant: Id, list: seq<Event>)
    requires DistinctEvents(list)
    ensures var r := InsertEvents(events, users, tenant, list);
      && (r.Ok? <==> AllInsertable(events, users, tenant, list))
      && (r.Ok? ==> PutIn(events, list, r.value.0, r.value.1))
  {
    hide AllInsertable, PutIn;
    if list == [] {
      NothingPutIn(events, users, tenant);
      assert list == [];
    } else {
      var n := |list| - 1;
      var init, e := list[..n], list[n];
      InsertEventsEffect(events, users, tenant, init) by { DistinctPrefix(list); }
      AllButLast(events, users, tenant, list);
      var before := InsertEvents(events, users, tenant, init);
      if before.Ok? {
        NotYetPutIn(events, list, before.value.0, before.value.1);
        if Insertable(events, users, tenant, e) {
          OneMorePutIn(events, list, before.value.0, before.value.1);
        }
      }
    }
  }

  lemma DistinctPrefix(list: seq<Event>)
    requires list != [] && DistinctEvents(list)
    ensures DistinctEvents(list[..|list| - 1])
  {
  }

  lemma NothingPutIn(events: map<Id, Event>, users: set<Id>, tenant: Id)
    ensures AllInsertable(events, users, tenant, []) && PutIn(events, [], events, 0)
  {
    assert Ids([]) == {};
  }

  lemma AllButLast(events: map<Id, Event>, users: set<Id>, tenant: Id, list: seq<Event>)
    requires list != []
    ensures AllInsertable(events, users, tenant, list) <==>
      AllInsertable(events, users, tenant, list[..|list| - 1]) && Insertable(events, users, tenant, list[|list| - 1])
  {
    hide Insertable;
    var n := |list| - 1;
    if AllInsertable(events, users, tenant, list[..n]) && Insertable(events, users, tenant, list[n]) {
      forall i | 0 <= i < |list| ensures Insertable(events, users, tenant, list[i]) {
        assert i < n ==> list[..n][i] == list[i];
      }
    }
  }

  lemma NotYetPutIn(events: map<Id, Event>, list: seq<Event>, rows: map<Id, Event>, restored: nat)
    requires list != [] && DistinctEvents(list) && PutIn(events, list[..|list| - 1], rows, restored)
    ensures list[|list| - 1].id in rows <==> list[|list| - 1].id in events
  {
    var n := |list| - 1;
    assert list[n].id !in Ids(list[..n]);
  }

  lemma OneMorePutIn(events: map<Id, Event>, list: seq<Event>, rows: map<Id, Event>, restored: nat)
    requires list != [] && DistinctEvents(list) && PutIn(events, list[..|list| - 1], rows, restored)
    ensures var e := list[|list| - 1];
      if e.id in events then PutIn(events, list, rows, restored) else PutIn(events, list, rows[e.id := e], restored + 1)
  {
    hide CountedIn, RowsIn, DistinctEvents, Ids;
    var init, e := list[..|list| - 1], list[|list| - 1];
    IdsOfPrefix(list);
    NotInPrefix(list);
    OneMoreCounted(events.Keys, Ids(init), rows.Keys, restored, e.id);
    MoreKeys(rows, e);
    OneMoreRow(events, list, rows);
  }

  lemma MoreKeys(rows: map<Id, Event>, e: Event)
    ensures rows[e.id := e].Keys == rows.Keys + {e.id}
  {
  }

  lemma OneMoreCounted(events: set<Id>, before: set<Id>, rows: set<Id>, restored: nat, id: Id)
    requires id !in before && CountedIn(events, before, rows, restored)
    ensures var after := before + {id};
      if id in events then CountedIn(events, after, rows, restored) else CountedIn(events, after, rows + {id}, restored + 1)
  {
    if id in events {
      assert (before + {id}) - events == before - events;
    } else {
      assert (before + {id}) - events == (before - events) + {id};
    }
  }

  lemma OneMoreRow(events: map<Id, Event>, list: seq<Event>, rows: map<Id, Event>)
    requires list != [] && DistinctEvents(list) && RowsIn(events, list[..|list| - 1], rows)
    ensures var e := list[|list| - 1]; RowsIn(events, list, if e.id in events then rows else rows[e.id := e])
  {
    hide RowKept, RowBack;
    var n := |list| - 1;
    var init, e := list[..n], list[n];
    var after := if e.id in events then rows else rows[e.id := e];
    forall id: Id ensures RowKept(events, id, after) {
      assert RowKept(events, id, rows);
      if e.id !in events {
        KeptNext(events, id, rows, e);
      }
    }
    forall i | 0 <= i < |list| ensures RowBack(events, list[i], after) {
      if i < n {
        assert init[i] == list[i];
        assert RowBack(events, init[i], rows);
      }
      BackNext(events, list[i], rows, e);
    }
  }

  lemma KeptNext(events: map<Id, Event>, id: Id, rows: map<Id, Event>, e: Event)
    requires RowKept(events, id, rows) && e.id !in events
    ensures RowKept(events, id, rows[e.id := e])
  {
  }

  lemma BackNext(events: map<Id, Event>, x: Event, rows: map<Id, Event>, e: Event)
    ensures e.id in events && x == e ==> RowBack(events, x, rows)
    ensures x == e || (x.id != e.id && RowBack(events, x, rows)) ==> RowBack(events, x, rows[e.id := e])
  {
  }

  lemma NotInPrefix(list: seq<Event>)
    requires list != [] && DistinctEvents(list)
    ensures list[|list| - 1].id !in Ids(list[..|list| - 1])
  {
  }

  // Rows that are all missing come back one by one.
  lemma AllPutBack(events: map<Id, Event>, list: seq<Event>, rows: map<Id, Event>, restored: nat)
    requires DistinctEvents(list) && PutIn(events, list, rows, restored) && Ids(list) !! events.Keys
    ensures restored == |list| && |rows| == |events| + |list|
    ensures forall i :: 0 <= i < |list| ==> list[i].id in rows && rows[list[i].id] == list[i]
  {
    IdsSize(list);
    forall i | 0 <= i < |list| ensures list[i].id in Ids(list) {}
    hide Ids;
    assert Ids(list) - events.Keys == Ids(list);
    assert |rows| == |rows.Keys| && |events| == |events.Keys|;
    forall i | 0 <= i < |list| ensures list[i].id in rows && rows[list[i].id] == list[i] {
      assert RowBack(events, list[i], rows);
    }
  }

  lemma IdsOfPrefix(list: seq<Event>)
    requires list != []
    ensures Ids(list) == Ids(list[..|list| - 1]) + {list[|list| - 1].id}
  {
    var n := |list| - 1;
    forall id | id in Ids(list) ensures id in Ids(list[..n]) + {list[n].id} {
      var i :| 0 <= i < |list| && list[i].id == id;
      assert i < n ==> list[..n][i] == list[i];
    }
    forall id | id in Ids(list[..n]) ensures id in Ids(list) {
      var i :| 0 <= i < n && list[..n][i].id == id;
      assert list[i].id == id;
    }
  }

  lemma {:induction false} IdsSize(list: seq<Event>)
    requires DistinctEvents(list)
    ensures |Ids(list)| == |list|
  {
    if list == [] {
      assert Ids(list) == {};
    } else {
      IdsSize(list[..|list| - 1]);
      IdsOfPrefix(list);
    }
  }

  // ----------------------------------------------------------------- one cleanup

  // A cleanup splits the log into the matching events, all of them in the payload, and the rest,
  // and adds one marker.
  lemma CleanupConserves(log: Log, checksum: Checksum, tenant: Id, user: Id, scope: Scope, now: int, ip: string, list: seq<Event>, id: Id)
    requires IsQueryResult(log.events, tenant, scope, now, list) && log.nextEvent !in log.events
    ensures var after := Cleanup(log, checksum, tenant, user, scope, now, ip, list);
      var payload := CleanupPayload(log, checksum, tenant, user, scope, now, list);
      && after.downloads[log.nextBackup] == payload && payload.content.eventCount == |payload.content.events|
      && (id in log.events ==>
            if Matches(log.events[id], tenant, scope, now) then log.events[id] in payload.content.events && id !in after.events
            else id in after.events && after.events[id] == log.events[id] && log.events[id] !in payload.content.events)
      && (id in after.events && id !in log.events ==> id == log.nextEvent && after.events[id].eventType == CLEANED)
      && |after.events| + |payload.content.events| == |log.events| + 1
  {
    hide FileActivity, Marker, Ids, MatchingIds;
    MatchedIsListed(log.events, tenant, scope, now, list, id);
    CutSizes(log, list, MarkerEvent(log, tenant, user, CLEANED, log.nextBackup, now, ip));
  }

  lemma MatchedIsListed(events: map<Id, Event>, tenant: Id, scope: Scope, now: int, list: seq<Event>, id: Id)
    requires IsQueryResult(events, tenant, scope, now, list)
    ensures id in events ==> (id in Ids(list) <==> Matches(events[id], tenant, scope, now))
    ensures id in events ==> (events[id] in list <==> Matches(events[id], tenant, scope, now))
  {
    hide Matches;
    if id !in events { return; }
    if id in Ids(list) {
      var i := InIds(list, id);
      assert list[i] == events[id];
    }
    if events[id] in list {
      var i :| 0 <= i < |list| && list[i] == events[id];
      assert list[i].id in Ids(list);
      assert list[i].id in MatchingIds(events, tenant, scope, now);
    }
  }

  lemma CutSizes(log: Log, list: seq<Event>, marker: Event)
    requires DistinctEvents(list) && log.nextEvent !in log.events
    requires forall i :: 0 <= i < |list| ==> list[i].id in log.events
    ensures |(log.events - Ids(list))[log.nextEvent := marker]| + |list| == |log.events| + 1
  {
    IdsSize(list);
    forall id | id in Ids(list) ensures id in log.events { var i := InIds(list, id); }
    hide Ids;
    CutKeys(log.events, Ids(list));
    OneMoreKey(log.events - Ids(list), log.nextEvent, marker);
  }

  lemma CutKeys(events: map<Id, Event>, ids: set<Id>)
    requires ids <= events.Keys
    ensures |events - ids| + |ids| == |events|
  {
    assert events.Keys == (events - ids).Keys + ids;
    assert |events - ids| == |(events - ids).Keys| && |events| == |events.Keys|;
  }

  // A cleanup can be undone with the file it handed out exactly if that file keeps to the limit of a
  // request and all its actors are known. Then every event is back as it was, next to two markers.
  lemma CleanupIsUndoneIff(log: Log, checksum: Checksum, encoded: Encoded, tenant: Id, user: Id, scope: Scope, now: int, ip: string,
                           list: seq<Event>, other: Id, later: int)
    requires IsQueryResult(log.events, tenant, scope, now, list) && log.nextEvent !in log.events && log.nextEvent + 1 !in log.events
    ensures var after := Cleanup(log, checksum, tenant, user, scope, now, ip, list);
      && log.nextBackup in after.downloads && log.nextEvent in after.events
      && var download := after.downloads[log.nextBackup];
         var r := HandleRestore(after, checksum, tenant, other, Body(download, encoded(download)), later, ip);
         && (r.Ok? <==> encoded(download) <= RESTORE_BODY_LIMIT && ActorsThere(list, log.users))
         && (r.Ok? ==> r.value.1 == |list|
                       && r.value.0.events == log.events[log.nextEvent := after.events[log.nextEvent]]
                            [log.nextEvent + 1 := MarkerEvent(after, tenant, other, RESTORED, log.nextBackup, later, ip)])
  {
    hide InsertEvents, Matches, PutIn, Restore, IsQueryResult, Ids, Insertable, Cleanup, ActorsThere, AllInsertable;
    var after := Cleanup(log, checksum, tenant, user, scope, now, ip, list);
    CleanupShape(log, checksum, tenant, user, scope, now, ip, list);
    var download := after.downloads[log.nextBackup];
    ListedAreCut(log, tenant, scope, now, list);
    assert Ids(list) !! after.events.Keys;
    InsertEventsEffect(after.events, after.users, tenant, list);
    InsertableIff(after.events, log.users, tenant, list);
    if ActorsThere(list, log.users) {
      var (rows, restored) := InsertEvents(after.events, after.users, tenant, list).value;
      AllPutBack(after.events, list, rows, restored);
      RowsAreBack(log, list, after.events[log.nextEvent], rows, restored);
      RestoreIs(after, checksum, tenant, other, download, later, ip);
    } else {
      RestoreNeedsInsert(after, checksum, tenant, other, download, later, ip);
    }
  }

  // Missing rows of the tenant can be inserted exactly if their actors are known.
  lemma InsertableIff(events: map<Id, Event>, users: set<Id>, tenant: Id, list: seq<Event>)
    requires Ids(list) !! events.Keys && forall i :: 0 <= i < |list| ==> list[i].tenant == tenant
    ensures AllInsertable(events, users, tenant, list) <==> ActorsThere(list, users)
  {
    forall i | 0 <= i < |list| ensures list[i].id !in events { assert list[i].id in Ids(list); }
    hide Ids;
    if i :| 0 <= i < |list| && list[i].actor.Some? && list[i].actor.value !in users {
      assert !Insertable(events, users, tenant, list[i]);
    }
  }

  lemma RestoreNeedsInsert(log: Log, checksum: Checksum, tenant: Id, user: Id, payload: Payload, now: int, ip: string)
    requires InsertEvents(log.events, log.users, tenant, payload.content.events).Err?
    ensures Restore(log, checksum, tenant, user, payload, now, ip).Err?
  {
    hide InsertEvents;
  }

  lemma CleanupShape(log: Log, checksum: Checksum, tenant: Id, user: Id, scope: Scope, now: int, ip: string, list: seq<Event>)
    ensures var after := Cleanup(log, checksum, tenant, user, scope, now, ip, list);
      && log.nextEvent in after.events && after.events == (log.events - Ids(list))[log.nextEvent := after.events[log.nextEvent]]
      && after.users == log.users && after.nextEvent == log.nextEvent + 1
      && log.nextBackup in after.downloads
      && after.downloads[log.nextBackup] == CleanupPayload(log, checksum, tenant, user, scope, now, list)
      && log.nextBackup in after.backups
      && after.backups[log.nextBackup] == Backup(tenant, true, after.downloads[log.nextBackup].checksum, None, 0)
  {
    hide Ids;
  }

  // A restore that passes all its checks.
  lemma RestoreIs(log: Log, checksum: Checksum, tenant: Id, user: Id, payload: Payload, now: int, ip: string)
    requires payload.content.format == FORMAT && payload.content.tenant == tenant && payload.checksum == checksum(payload.content)
    requires var b := payload.content.backupId; Unrestored(log, b) && log.backups[b] == Backup(tenant, true, payload.checksum, None, 0)
    requires InsertEvents(log.events, log.users, tenant, payload.content.events).Ok?
    ensures var b := payload.content.backupId;
      var (rows, restored) := InsertEvents(log.events, log.users, tenant, payload.content.events).value;
      Restore(log, checksum, tenant, user, payload, now, ip) ==
        Ok((AppendEvent(PutBack(log, b, rows, now, restored), MarkerEvent(log, tenant, user, RESTORED, b, now, ip)), restored))
  {
    hide InsertEvents, MarkerEvent;
  }

  lemma ListedAreCut(log: Log, tenant: Id, scope: Scope, now: int, list: seq<Event>)
    requires IsQueryResult(log.events, tenant, scope, now, list)
    ensures DistinctEvents(list) && Ids(list) <= log.events.Keys
    ensures forall i :: 0 <= i < |list| ==> list[i].id in log.events && log.events[list[i].id] == list[i] && list[i].tenant == tenant
  {
    hide FileActivity, Marker;
    forall i | 0 <= i < |list| ensures list[i].tenant == tenant {
      assert list[i].id in Ids(list);
      assert list[i].id in MatchingIds(log.events, tenant, scope, now);
    }
  }

  lemma InIds(list: seq<Event>, id: Id) returns (i: nat)
    requires id in Ids(list)
    ensures i < |list| && list[i].id == id
  {
    var k :| 0 <= k < |list| && list[k].id == id;
    i := k;
  }

  lemma RowsAreBack(log: Log, list: seq<Event>, marker: Event, rows: map<Id, Event>, restored: nat)
    requires forall i :: 0 <= i < |list| ==> list[i].id in log.events && log.events[list[i].id] == list[i]
    requires log.nextEvent !in log.events && PutIn((log.events - Ids(list))[log.nextEvent := marker], list, rows, restored)
    ensures rows == log.events[log.nextEvent := marker]
  {
    hide Ids, RowsIn, CountedIn;
    var whole := log.events[log.nextEvent := marker];
    KeysOfCount((log.events - Ids(list))[log.nextEvent := marker].Keys, Ids(list), rows.Keys, restored);
    RowKeysAreBack(log.events, log.nextEvent, list, marker, rows.Keys);
    forall id | id in whole ensures id in rows && rows[id] == whole[id] {
      RowIsBack(log, list, marker, rows, id);
    }
    SameMap(rows, whole);
  }

  lemma KeysOfCount(events: set<Id>, ids: set<Id>, rows: set<Id>, restored: nat)
    requires CountedIn(events, ids, rows, restored)
    ensures rows == events + ids
  {
  }

  lemma SameMap(rows: map<Id, Event>, whole: map<Id, Event>)
    requires rows.Keys == whole.Keys && forall id :: id in whole ==> id in rows && rows[id] == whole[id]
    ensures rows == whole
  {
  }

  lemma RowKeysAreBack(events: map<Id, Event>, next: Id, list: seq<Event>, marker: Event, keys: set<Id>)
    requires forall i :: 0 <= i < |list| ==> list[i].id in events
    requires keys == (events - Ids(list))[next := marker].Keys + Ids(list)
    ensures keys == events[next := marker].Keys
  {
    hide Ids;
    var ids := Ids(list);
    forall id | id in ids ensures id in events { var i := InIds(list, id); }
    KeysAreBack(events.Keys, ids, next);
    assert (events - ids)[next := marker].Keys == (events.Keys - ids) + {next};
    assert events[next := marker].Keys == events.Keys + {next};
  }

  lemma RowIsBack(log: Log, list: seq<Event>, marker: Event, rows: map<Id, Event>, id: Id)
    requires forall i :: 0 <= i < |list| ==> list[i].id in log.events && log.events[list[i].id] == list[i]
    requires log.nextEvent !in log.events && RowsIn((log.events - Ids(list))[log.nextEvent := marker], list, rows)
    requires id in log.events || id == log.nextEvent
    ensures id in rows && rows[id] == log.events[log.nextEvent := marker][id]
  {
    hide RowKept, RowBack, Ids;
    var cut := (log.events - Ids(list))[log.nextEvent := marker];
    if id in Ids(list) {
      var i := InIds(list, id);
      assert RowBack(cut, list[i], rows);
      BackIs(cut, list[i], rows);
    } else {
      assert RowKept(cut, id, rows);
      KeptIs(cut, id, rows);
    }
  }

  lemma KeysAreBack(all: set<Id>, ids: set<Id>, next: Id)
    requires ids <= all
    ensures (all - ids) + {next} + ids == all + {next}
  {
  }

  lemma BackIs(events: map<Id, Event>, e: Event, rows: map<Id, Event>)
    requires RowBack(events, e, rows) && e.id !in events
    ensures e.id in rows && rows[e.id] == e
  {
  }

  lemma KeptIs(events: map<Id, Event>, id: Id, rows: map<Id, Event>)
    requires RowKept(events, id, rows) && id in events
    ensures id in rows && rows[id] == events[id]
  {
  }

  // -------------------------------------------------------------- the invariant

  predicate EventOk(log: Log, id: Id) {
    id in log.events ==> id < log.nextEvent && log.events[id].id == id
  }

  predicate Unrestored(log: Log, b: Id) {
    b in log.backups && log.backups[b].restoredAt.None?
  }

  predicate Holds(log: Log, b: Id, id: Id) {
    b in log.downloads && id in Ids(log.downloads[b].content.events)
  }

  predicate BackupOk(log: Log, checksum: Checksum, b: Id) {
    (b in log.backups <==> b in log.downloads)
    && (b in log.backups ==>
          var c := log.downloads[b].content;
          && b < log.nextBackup && c.backupId == b && c.format == FORMAT && c.tenant == log.backups[b].tenant
          && log.backups[b].fileActivity && log.backups[b].checksum == log.downloads[b].checksum == checksum(c)
          && DistinctEvents(c.events)
          && forall i :: 0 <= i < |c.events| ==> c.events[i].id < log.nextEvent && c.events[i].tenant == c.tenant && !Marker(c.events[i]))
  }

  // An event in an unrestored backup is nowhere else.
  predicate Elsewhere(log: Log, b: Id, id: Id) {
    Unrestored(log, b) && Holds(log, b, id) ==> id !in log.events
  }

  predicate OneHolder(log: Log, b: Id, c: Id, id: Id) {
    Unrestored(log, b) && Unrestored(log, c) && Holds(log, b, id) && Holds(log, c, id) ==> b == c
  }

  // No event that was ever logged is lost.
  ghost predicate Found(log: Log, id: Id) {
    id < log.nextEvent ==> id in log.events || exists b: Id :: Unrestored(log, b) && Holds(log, b, id)
  }

  ghost predicate Inv(log: Log, checksum: Checksum) {
    && (forall id: Id :: EventOk(log, id))
    && (forall b: Id :: BackupOk(log, checksum, b))
    && (forall b: Id, id: Id :: Elsewhere(log, b, id))
    && (forall b: Id, c: Id, id: Id :: OneHolder(log, b, c, id))
    && (forall id: Id :: Found(log, id))
  }

  lemma NothingLogged(checksum: Checksum, users: set<Id>)
    ensures Inv(Log(map[], 0, map[], 0, users, map[]), checksum)
  {
  }

  lemma AppendKeepsInv(log: Log, checksum: Checksum, e: Event)
    requires Inv(log, checksum)
    ensures Inv(AppendEvent(log, e), checksum)
  {
    hide Marker, DistinctEvents;
    var after := AppendEvent(log, e);
    forall id: Id ensures EventOk(after, id) { assert EventOk(log, id); }
    forall b: Id ensures BackupOk(after, checksum, b) { assert BackupOk(log, checksum, b); }
    forall b: Id, id: Id ensures Elsewhere(after, b, id) {
      assert Elsewhere(log, b, id) && BackupOk(log, checksum, b);
    }
    forall b: Id, c: Id, id: Id ensures OneHolder(after, b, c, id) { assert OneHolder(log, b, c, id); }
    forall id: Id ensures Found(after, id) {
      assert Found(log, id);
      if id < log.nextEvent && id !in log.events {
        var b: Id :| Unrestored(log, b) && Holds(log, b, id);
        assert Unrestored(after, b) && Holds(after, b, id);
      }
    }
  }

  lemma AddUserKeepsInv(log: Log, checksum: Checksum, user: Id)
    requires Inv(log, checksum)
    ensures Inv(log.(users := log.users + {user}), checksum)
  {
    hide Marker, DistinctEvents;
    var after := log.(users := log.users + {user});
    forall id: Id ensures EventOk(after, id) { assert EventOk(log, id); }
    forall b: Id ensures BackupOk(after, checksum, b) { assert BackupOk(log, checksum, b); }
    forall b: Id, id: Id ensures Elsewhere(after, b, id) { assert Elsewhere(log, b, id); }
    forall b: Id, c: Id, id: Id ensures OneHolder(after, b, c, id) { assert OneHolder(log, b, c, id); }
    forall id: Id ensures Found(after, id) {
      assert Found(log, id);
      if id < log.nextEvent && id !in log.events {
        var b: Id :| Unrestored(log, b) && Holds(log, b, id);
        assert Unrestored(after, b) && Holds(after, b, id);
      }
    }
  }

  lemma RemoveUserKeepsInv(log: Log, checksum: Checksum, user: Id)
    requires Inv(log, checksum)
    ensures Inv(RemoveUser(log, user), checksum)
  {
    hide Marker, DistinctEvents;
    var after := RemoveUser(log, user);
    forall id: Id ensures EventOk(after, id) { assert EventOk(log, id); }
    forall b: Id ensures BackupOk(after, checksum, b) { assert BackupOk(log, checksum, b); }
    forall b: Id, id: Id ensures Elsewhere(after, b, id) { assert Elsewhere(log, b, id); }
    forall b: Id, c: Id, id: Id ensures OneHolder(after, b, c, id) { assert OneHolder(log, b, c, id); }
    forall id: Id ensures Found(after, id) {
      assert Found(log, id);
      if id < log.nextEvent && id !in log.events {
        var b: Id :| Unrestored(log, b) && Holds(log, b, id);
        assert Unrestored(after, b) && Holds(after, b, id);
      }
    }
  }

  // A cleanup before its marker is written.
  function CutOut(log: Log, checksum: Checksum, tenant: Id, user: Id, scope: Scope, now: int, list: seq<Event>): Log {
    var payload := CleanupPayload(log, checksum, tenant, user, scope, now, list);
    log.(events := log.events - Ids(list), backups := log.backups[log.nextBackup := Backup(tenant, true, payload.checksum, None, 0)],
         nextBackup := log.nextBackup + 1, downloads := log.downloads[log.nextBackup := payload])
  }

  lemma CleanupKeepsInv(log: Log, checksum: Checksum, tenant: Id, user: Id, scope: Scope, now: int, ip: string, list: seq<Event>)
    requires Inv(log, checksum) && IsQueryResult(log.events, tenant, scope, now, list)
    ensures Inv(Cleanup(log, checksum, tenant, user, scope, now, ip, list), checksum)
  {
    CutOutKeepsInv(log, checksum, tenant, user, scope, now, list);
    AppendKeepsInv(CutOut(log, checksum, tenant, user, scope, now, list), checksum, MarkerEvent(log, tenant, user, CLEANED, log.nextBackup, now, ip));
  }

  lemma CutOutKeepsInv(log: Log, checksum: Checksum, tenant: Id, user: Id, scope: Scope, now: int, list: seq<Event>)
    requires Inv(log, checksum) && IsQueryResult(log.events, tenant, scope, now, list)
    ensures Inv(CutOut(log, checksum, tenant, user, scope, now, list), checksum)
  {
    hide FileActivity, Marker;
    var after := CutOut(log, checksum, tenant, user, scope, now, list);
    var new_ := log.nextBackup;
    assert BackupOk(log, checksum, new_);
    forall id: Id ensures EventOk(after, id) { assert EventOk(log, id); }
    forall b: Id ensures BackupOk(after, checksum, b) {
      assert BackupOk(log, checksum, b);
      if b == new_ {
        forall i | 0 <= i < |list| ensures list[i].id < after.nextEvent && list[i].tenant == tenant && !Marker(list[i]) {
          assert list[i].id in MatchingIds(log.events, tenant, scope, now);
          assert EventOk(log, list[i].id);
        }
      }
    }
    forall b: Id, id: Id ensures Elsewhere(after, b, id) { assert Elsewhere(log, b, id); }
    forall b: Id, c: Id, id: Id ensures OneHolder(after, b, c, id) {
      assert OneHolder(log, b, c, id) && Elsewhere(log, b, id) && Elsewhere(log, c, id);
    }
    forall id: Id ensures Found(after, id) {
      assert Found(log, id);
      if id < log.nextEvent {
        if id in Ids(list) {
          assert Unrestored(after, new_) && Holds(after, new_, id);
        } else if id !in log.events {
          var b: Id :| Unrestored(log, b) && Holds(log, b, id);
          assert Unrestored(after, b) && Holds(after, b, id);
        }
      }
    }
  }

  // A payload that is accepted is the one handed out: nothing in it was changed.
  lemma AcceptedIsGenuine(log: Log, checksum: Checksum, tenant: Id, user: Id, payload: Payload, now: int, ip: string)
    requires Inv(log, checksum) && Injective(checksum)
    requires Restore(log, checksum, tenant, user, payload, now, ip).Ok?
    ensures var b := payload.content.backupId;
      b in log.downloads && payload.content == log.downloads[b].content && Unrestored(log, b) && log.backups[b].tenant == tenant
  {
    hide DistinctEvents, Marker, InsertEvents;
    assert BackupOk(log, checksum, payload.content.backupId);
  }

  // A genuine payload is restored exactly if its text keeps to the limit of a request, its backup has
  // not been restored yet and none of its actors has been deleted since. All its events then come
  // back, and that many are reported.
  lemma RestoreSucceedsIff(log: Log, checksum: Checksum, tenant: Id, user: Id, b: Id, size: nat, now: int, ip: string)
    requires Inv(log, checksum) && b in log.downloads && b in log.backups && log.backups[b].tenant == tenant
    ensures var events := log.downloads[b].content.events;
      var r := HandleRestore(log, checksum, tenant, user, Body(log.downloads[b], size), now, ip);
      && (r.Ok? <==> size <= RESTORE_BODY_LIMIT && Unrestored(log, b) && ActorsThere(events, log.users))
      && (r.Ok? ==> r.value.1 == |events| && |r.value.0.events| == |log.events| + |events| + 1
                    && forall i :: 0 <= i < |events| ==> events[i].id in r.value.0.events && r.value.0.events[events[i].id] == events[i])
  {
    hide Marker, FileActivity, InsertEvents, PutIn, DistinctEvents;
    assert BackupOk(log, checksum, b);
    var events := log.downloads[b].content.events;
    if Unrestored(log, b) {
      EventsAreAway(log, checksum, b);
      InsertEventsEffect(log.events, log.users, tenant, events);
      assert EventOk(log, log.nextEvent);
      if ActorsThere(events, log.users) {
        assert AllInsertable(log.events, log.users, tenant, events);
        var (rows, restored) := InsertEvents(log.events, log.users, tenant, events).value;
        AllPutBack(log.events, events, rows, restored);
        NextIsNew(log.events, events, rows, restored, log.nextEvent,
                  MarkerEvent(log, tenant, user, RESTORED, b, now, ip));
      } else {
        var i :| 0 <= i < |events| && events[i].actor.Some? && events[i].actor.value !in log.users;
        assert !Insertable(log.events, log.users, tenant, events[i]);
      }
    }
  }

  predicate ActorsThere(list: seq<Event>, users: set<Id>) {
    forall i :: 0 <= i < |list| && list[i].actor.Some? ==> list[i].actor.value in users
  }

  lemma EventsAreAway(log: Log, checksum: Checksum, b: Id)
    requires Inv(log, checksum) && b in log.downloads && Unrestored(log, b)
    ensures var events := log.downloads[b].content.events;
      && Ids(events) !! log.events.Keys
      && forall i :: 0 <= i < |events| ==> events[i].id !in log.events && events[i].id < log.nextEvent && events[i].tenant == log.backups[b].tenant
  {
    hide Marker, FileActivity, DistinctEvents;
    assert BackupOk(log, checksum, b);
    var events := log.downloads[b].content.events;
    forall id | id in Ids(events) ensures id !in log.events { assert Elsewhere(log, b, id); }
    forall i | 0 <= i < |events| ensures events[i].id !in log.events {
      assert events[i].id in Ids(events);
    }
  }

  lemma NextIsNew(events: map<Id, Event>, list: seq<Event>, rows: map<Id, Event>, restored: nat, next: Id, e: Event)
    requires PutIn(events, list, rows, restored) && next !in events && forall i :: 0 <= i < |list| ==> list[i].id < next
    ensures next !in rows
    ensures |rows[next := e]| == |rows| + 1
  {
    assert next !in Ids(list);
    OneMoreKey(rows, next, e);
  }

  lemma OneMoreKey(rows: map<Id, Event>, next: Id, e: Event)
    requires next !in rows
    ensures |rows[next := e]| == |rows| + 1
  {
    assert rows[next := e].Keys == rows.Keys + {next};
    assert |rows[next := e]| == |rows[next := e].Keys| && |rows| == |rows.Keys|;
  }

  // A restore before its marker is written.
  function PutBack(log: Log, b: Id, rows: map<Id, Event>, now: int, restored: nat): Log
    requires b in log.backups
  {
    log.(events := rows, backups := log.backups[b := log.backups[b].(restoredAt := Some(now), restoredEvents := restored)])
  }

  lemma RestoreKeepsInv(log: Log, checksum: Checksum, tenant: Id, user: Id, payload: Payload, now: int, ip: string)
    requires Inv(log, checksum) && Injective(checksum) && Restore(log, checksum, tenant, user, payload, now, ip).Ok?
    ensures Inv(Restore(log, checksum, tenant, user, payload, now, ip).value.0, checksum)
  {
    hide Marker, DistinctEvents, InsertEvents;
    AcceptedIsGenuine(log, checksum, tenant, user, payload, now, ip);
    var b := payload.content.backupId;
    var (rows, restored) := InsertEvents(log.events, log.users, tenant, payload.content.events).value;
    PutBackKeepsInv(log, checksum, tenant, b, now);
    AppendKeepsInv(PutBack(log, b, rows, now, restored), checksum, MarkerEvent(log, tenant, user, RESTORED, b, now, ip));
  }

  lemma PutBackKeepsInv(log: Log, checksum: Checksum, tenant: Id, b: Id, now: int)
    requires Inv(log, checksum) && Unrestored(log, b) && b in log.downloads
    requires InsertEvents(log.events, log.users, tenant, log.downloads[b].content.events).Ok?
    ensures var (rows, restored) := InsertEvents(log.events, log.users, tenant, log.downloads[b].content.events).value;
      Inv(PutBack(log, b, rows, now, restored), checksum)
  {
    hide Marker, FileActivity, InsertEvents, PutIn, DistinctEvents;
    var list := log.downloads[b].content.events;
    assert BackupOk(log, checksum, b);
    InsertEventsEffect(log.events, log.users, tenant, list);
    var (rows, restored) := InsertEvents(log.events, log.users, tenant, list).value;
    RowsOfPutIn(log, checksum, b, rows, restored);
    var after := PutBack(log, b, rows, now, restored);
    forall id: Id ensures EventOk(after, id) {}
    forall x: Id ensures BackupOk(after, checksum, x) { assert BackupOk(log, checksum, x); }
    forall x: Id, id: Id ensures Elsewhere(after, x, id) {
      assert Elsewhere(log, x, id) && OneHolder(log, x, b, id);
    }
    forall x: Id, y: Id, id: Id ensures OneHolder(after, x, y, id) { assert OneHolder(log, x, y, id); }
    forall id: Id ensures Found(after, id) {
      assert Found(log, id);
      if id < log.nextEvent && id !in rows {
        var x: Id :| Unrestored(log, x) && Holds(log, x, id);
        assert Unrestored(after, x) && Holds(after, x, id);
      }
    }
  }

  lemma RowsOfPutIn(log: Log, checksum: Checksum, b: Id, rows: map<Id, Event>, restored: nat)
    requires Inv(log, checksum) && Unrestored(log, b) && b in log.downloads
    requires PutIn(log.events, log.downloads[b].content.events, rows, restored)
    ensures forall id :: id in rows <==> id in log.events || Holds(log, b, id)
    ensures forall id :: id in rows ==> id < log.nextEvent && rows[id].id == id
  {
    hide Marker, FileActivity, DistinctEvents;
    var list := log.downloads[b].content.events;
    assert BackupOk(log, checksum, b);
    forall id | id in rows ensures id < log.nextEvent && rows[id].id == id {
      assert EventOk(log, id) && RowKept(log.events, id, rows);
      if id !in log.events {
        var i := InIds(list, id);
        assert RowBack(log.events, list[i], rows);
      }
    }
  }

  // ------------------------------------------------------------------------ runs

  datatype Step =
    | Record(event: Event)
    | CleanUp(tenant: Id, user: Id, scope: Scope, now: int, ip: string, list: seq<Event>)
    | BringBack(tenant: Id, user: Id, body: Body, now: int, ip: string)
    | NewUser(user: Id)
    | DropUser(user: Id)

  function Apply(log: Log, checksum: Checksum, step: Step): Log {
    match step
    case Record(e) => AppendEvent(log, e)
    case CleanUp(tenant, user, scope, now, ip, list) =>
      if IsQueryResult(log.events, tenant, scope, now, list) then Cleanup(log, checksum, tenant, user, scope, now, ip, list) else log
    case BringBack(tenant, user, body, now, ip) =>
      var r := HandleRestore(log, checksum, tenant, user, body, now, ip);
      if r.Ok? then r.value.0 else log
    case NewUser(user) => log.(users := log.users + {user})
    case DropUser(user) => RemoveUser(log, user)
  }

  function Run(log: Log, checksum: Checksum, steps: seq<Step>): Log
    decreases |steps|
  {
    if steps == [] then log else Run(Apply(log, checksum, steps[0]), checksum, steps[1..])
  }

  lemma ApplyKeepsInv(log: Log, checksum: Checksum, step: Step)
    requires Inv(log, checksum) && Injective(checksum)
    ensures Inv(Apply(log, checksum, step), checksum)
  {
    hide Inv, Restore, Cleanup, AppendEvent, RemoveUser, IsQueryResult;
    match step
    case Record(e) => AppendKeepsInv(log, checksum, e);
    case CleanUp(tenant, user, scope, now, ip, list) =>
      if IsQueryResult(log.events, tenant, scope, now, list) {
        CleanupKeepsInv(log, checksum, tenant, user, scope, now, ip, list);
      }
    case BringBack(tenant, user, body, now, ip) =>
      if HandleRestore(log, checksum, tenant, user, body, now, ip).Ok? {
        RestoreKeepsInv(log, checksum, tenant, user, body.payload, now, ip);
      }
    case NewUser(user) => AddUserKeepsInv(log, checksum, user);
    case DropUser(user) => RemoveUserKeepsInv(log, checksum, user);
  }

  // The unrestored backup b, and no other, holds the event.
  ghost predicate OnlyHolder(log: Log, b: Id, id: Id) {
    Unrestored(log, b) && Holds(log, b, id) && forall c: Id :: Unrestored(log, c) && Holds(log, c, id) ==> c == b
  }

  // Over any run, every event ever logged is in the log or in exactly one unrestored backup.
  lemma {:induction false} RunLosesNothing(log: Log, checksum: Checksum, steps: seq<Step>, id: Id)
    requires Inv(log, checksum) && Injective(checksum)
    ensures var after := Run(log, checksum, steps);
      && Inv(after, checksum)
      && (id < after.nextEvent ==> (id in after.events <==> !exists b: Id :: OnlyHolder(after, b, id)))
      && (id < after.nextEvent && id in after.events ==> forall b: Id :: Unrestored(after, b) ==> !Holds(after, b, id))
    decreases |steps|
  {
    hide Apply;
    if steps == [] {
      assert Found(log, id);
      if id < log.nextEvent && id in log.events {
        forall b: Id ensures Unrestored(log, b) ==> !Holds(log, b, id) { assert Elsewhere(log, b, id); }
      } else if id < log.nextEvent {
        var b: Id :| Unrestored(log, b) && Holds(log, b, id);
        forall c: Id ensures Unrestored(log, c) && Holds(log, c, id) ==> c == b { assert OneHolder(log, c, b, id); }
        assert OnlyHolder(log, b, id);
      }
    } else {
      ApplyKeepsInv(log, checksum, steps[0]);
      RunLosesNothing(Apply(log, checksum, steps[0]), checksum, steps[1..], id);
    }
  }

  // Markers stay in the log whatever follows.
  lemma ApplyKeepsMarkers(log: Log, checksum: Checksum, step: Step, id: Id)
    requires Inv(log, checksum) && Injective(checksum) && id in log.events && Marker(log.events[id])
    ensures var after := Apply(log, checksum, step); id in after.events && after.events[id].eventType == log.events[id].eventType
  {
    hide FileActivity, Found, Elsewhere, OneHolder, InsertEvents;
    assert EventOk(log, id) && EventOk(log, log.nextEvent);
    match step
    case Record(e) =>
    case CleanUp(tenant, user, scope, now, ip, list) =>
    case BringBack(tenant, user, body, now, ip) =>
      var payload := body.payload;
      if HandleRestore(log, checksum, tenant, user, body, now, ip).Ok? {
        AcceptedIsGenuine(log, checksum, tenant, user, payload, now, ip);
        assert BackupOk(log, checksum, payload.content.backupId);
        InsertEventsEffect(log.events, log.users, tenant, payload.content.events);
        assert RowKept(log.events, id, InsertEvents(log.events, log.users, tenant, payload.content.events).value.0);
      }
    case NewUser(user) =>
    case DropUser(user) =>
  }

  lemma {:induction false} MarkersSurvive(log: Log, checksum: Checksum, steps: seq<Step>, id: Id)
    requires Inv(log, checksum) && Injective(checksum) && id in log.events && Marker(log.events[id])
    ensures var after := Run(log, checksum, steps); id in after.events && after.events[id].eventType == log.events[id].eventType
    decreases |steps|
  {
    hide Apply, Inv;
    if steps != [] {
      ApplyKeepsInv(log, checksum, steps[0]);
      ApplyKeepsMarkers(log, checksum, steps[0], id);
      MarkersSurvive(Apply(log, checksum, steps[0]), checksum, steps[1..], id);
    }
  }

  // Once restored, a backup is refused for ever.
  lemma {:induction false} NeverRestoredTwice(log: Log, checksum: Checksum, steps: seq<Step>, b: Id)
    requires Inv(log, checksum) && Injective(checksum) && b in log.backups && log.backups[b].restoredAt.Some?
    ensures var after := Run(log, checksum, steps); b in after.backups && after.backups[b].restoredAt.Some?
    ensures forall tenant, user, body: Body, now, ip :: body.payload.content.backupId == b ==>
      HandleRestore(Run(log, checksum, steps), checksum, tenant, user, body, now, ip).Err?
    decreases |steps|
  {
    hide Apply, Inv;
    if steps != [] {
      ApplyKeepsInv(log, checksum, steps[0]);
      ApplyKeepsRestored(log, checksum, steps[0], b);
      NeverRestoredTwice(Apply(log, checksum, steps[0]), checksum, steps[1..], b);
    } else {
      hide InsertEvents;
    }
  }

  lemma ApplyKeepsRestored(log: Log, checksum: Checksum, step: Step, b: Id)
    requires Inv(log, checksum) && b in log.backups && log.backups[b].restoredAt.Some?
    ensures var after := Apply(log, checksum, step); b in after.backups && after.backups[b].restoredAt.Some?
  {
    hide FileActivity, Found, Elsewhere, OneHolder, InsertEvents, IsQueryResult;
    assert BackupOk(log, checksum, b) && BackupOk(log, checksum, log.nextBackup);
  }

  // --------------------------------------------------------- cleanups that are final

  // The length of the shortest text that decodes to a content, however it is written.
  type Shortest = Content -> nat

  predicate Plausible(shortest: Shortest, body: Body) {
    shortest(body.payload.content) <= body.size
  }

  ghost predicate PlausibleSteps(shortest: Shortest, steps: seq<Step>) {
    forall i :: 0 <= i < |steps| && steps[i].BringBack? ==> Plausible(shortest, steps[i].body)
  }

  lemma LargeStaysAway(log: Log, checksum: Checksum, shortest: Shortest, step: Step, b: Id)
    requires Inv(log, checksum) && Injective(checksum) && Unrestored(log, b) && b in log.downloads
    requires shortest(log.downloads[b].content) > RESTORE_BODY_LIMIT && (step.BringBack? ==> Plausible(shortest, step.body))
    ensures var after := Apply(log, checksum, step);
      Unrestored(after, b) && b in after.downloads && after.downloads[b] == log.downloads[b]
  {
    hide Inv, InsertEvents, IsQueryResult, MarkerEvent, CleanupPayload, Ids;
    assert b < log.nextBackup by { assert BackupOk(log, checksum, b) by { BackupsOk(log, checksum, b); } }
    match step
    case BringBack(tenant, user, body, now, ip) =>
      if HandleRestore(log, checksum, tenant, user, body, now, ip).Ok? {
        AcceptedIsGenuine(log, checksum, tenant, user, body.payload, now, ip);
      }
    case _ =>
  }

  lemma BackupsOk(log: Log, checksum: Checksum, b: Id)
    requires Inv(log, checksum)
    ensures BackupOk(log, checksum, b)
  {
  }

  /** A cleanup whose content no request has room for is final: whatever follows, none of its events
      comes back into the log. */
  lemma {:induction false} LargeCleanupIsFinal(log: Log, checksum: Checksum, shortest: Shortest, steps: seq<Step>, b: Id, i: nat)
    requires Inv(log, checksum) && Injective(checksum) && Unrestored(log, b) && b in log.downloads && PlausibleSteps(shortest, steps)
    requires shortest(log.downloads[b].content) > RESTORE_BODY_LIMIT && i < |log.downloads[b].content.events|
    ensures var after := Run(log, checksum, steps);
      Unrestored(after, b) && log.downloads[b].content.events[i].id !in after.events
    decreases |steps|
  {
    hide Inv, Apply, Plausible;
    if steps == [] {
      EventsAreAway(log, checksum, b);
    } else {
      LargeStaysAway(log, checksum, shortest, steps[0], b);
      ApplyKeepsInv(log, checksum, steps[0]);
      assert forall k :: 0 <= k < |steps[1..]| ==> steps[1..][k] == steps[k + 1];
      LargeCleanupIsFinal(Apply(log, checksum, steps[0]), checksum, shortest, steps[1..], b, i);
    }
  }

  // ------------------------------------------------------------ a deleted actor

  const DOWNLOADED := Event(0, 0, Some(1), "archive.file.downloaded", "file", None, "critical", "", map[], 0)

  const TWO_USERS := Log(map[], 0, map[], 0, {1, 2}, map[])

  // User 1 downloads a file, user 2 cleans the activity, user 1 is deleted.
  const ACTOR_GOES: seq<Step> := [Record(DOWNLOADED), CleanUp(0, 2, Scope(None, None), 0, "", [DOWNLOADED]), DropUser(1)]

  // The backup is genuine, small and unrestored, and the restore is refused: its actor is gone.
  lemma DeletedActorBlocksRestore(checksum: Checksum, size: nat, later: int)
    requires size <= RESTORE_BODY_LIMIT
    ensures var after := Run(TWO_USERS, checksum, ACTOR_GOES);
      && Unrestored(after, 0) && 0 in after.downloads && after.downloads[0].content.events == [DOWNLOADED]
      && HandleRestore(after, checksum, 0, 2, Body(after.downloads[0], size), later, "") == Err(ActorGone)
  {
    hide Apply;
    var recorded := Apply(TWO_USERS, checksum, ACTOR_GOES[0]);
    DownloadIsFound(checksum);
    var cleaned := Apply(recorded, checksum, ACTOR_GOES[1]);
    RunOne(TWO_USERS, checksum, ACTOR_GOES);
    RunOne(recorded, checksum, ACTOR_GOES[1..]);
    RunOne(cleaned, checksum, ACTOR_GOES[1..][1..]);
    CleanedThenDropped(checksum, later, size);
  }

  lemma RunOne(log: Log, checksum: Checksum, steps: seq<Step>)
    requires steps != []
    ensures Run(log, checksum, steps) == Run(Apply(log, checksum, steps[0]), checksum, steps[1..])
    ensures |steps| == 1 ==> Run(log, checksum, steps) == Apply(log, checksum, steps[0])
  {
    hide Apply;
  }

  lemma DownloadIsFound(checksum: Checksum)
    ensures var recorded := Apply(TWO_USERS, checksum, Record(DOWNLOADED));
      recorded.events == map[0 := DOWNLOADED] && IsQueryResult(recorded.events, 0, Scope(None, None), 0, [DOWNLOADED])
  {
    var events := map[0 := DOWNLOADED];
    assert Matches(events[0], 0, Scope(None, None), 0);
    assert MatchingIds(events, 0, Scope(None, None), 0) == {0};
    assert Ids([DOWNLOADED]) == {0} by { assert [DOWNLOADED][0].id in Ids([DOWNLOADED]); }
  }

  lemma CleanedThenDropped(checksum: Checksum, later: int, size: nat)
    requires size <= RESTORE_BODY_LIMIT
    ensures var recorded := Apply(TWO_USERS, checksum, Record(DOWNLOADED));
      var after := Apply(Apply(recorded, checksum, ACTOR_GOES[1]), checksum, DropUser(1));
      && Unrestored(after, 0) && 0 in after.downloads && after.downloads[0].content.events == [DOWNLOADED]
      && HandleRestore(after, checksum, 0, 2, Body(after.downloads[0], size), later, "") == Err(ActorGone)
  {
    hide IsQueryResult, Matches;
    DownloadIsFound(checksum);
    var recorded := Apply(TWO_USERS, checksum, Record(DOWNLOADED));
    var cleaned := Apply(recorded, checksum, ACTOR_GOES[1]);
    assert Ids([DOWNLOADED]) == {0} by { assert [DOWNLOADED][0].id in Ids([DOWNLOADED]); }
    var after := RemoveUser(cleaned, 1);
    assert cleaned == Cleanup(recorded, checksum, 0, 2, Scope(None, None), 0, "", [DOWNLOADED]);
    assert after.downloads[0] == CleanupPayload(recorded, checksum, 0, 2, Scope(None, None), 0, [DOWNLOADED]);
    assert after.backups[0] == Backup(0, true, after.downloads[0].checksum, None, 0);
    assert 0 !in after.events && 1 !in after.users;
    assert [DOWNLOADED][..0] == [];
    assert InsertEvents(after.events, after.users, 0, []) == Ok((after.events, 0));
  }
}
