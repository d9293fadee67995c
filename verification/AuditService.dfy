/** The audit service as it runs: one transaction for a cleanup, one for a restore. */
module AuditService {
  import opened Base
  import opened AuditModel
  import opened AuditCleanup

  datatype CleanupPolicy = CleanupPolicy(retentionDays: int, allowClearAll: bool)

  // normalizePolicy: clearing everything is always allowed, whatever was stored.
  function NormalizePolicy(p: CleanupPolicy): CleanupPolicy {
    CleanupPolicy(if p.retentionDays < 0 then 0 else p.retentionDays, true)
  }

  // What was stored counts as a number of days that is not negative; the rest of it does not count.
  lemma PolicyIsNormal(p: CleanupPolicy)
    ensures NormalizePolicy(p).allowClearAll && 0 <= NormalizePolicy(p).retentionDays
    ensures 0 <= p.retentionDays ==> NormalizePolicy(p).retentionDays == p.retentionDays
    ensures p.retentionDays < 0 ==> NormalizePolicy(p).retentionDays == 0
  {
  }

  datatype CleanupError = ClearAllNotAllowed | TransactionFailed

  class AuditLog {
    var events: map<Id, Event>
    var nextEvent: Id
    var backups: map<Id, Backup>
    var nextBackup: Id
    var users: set<Id>
    const checksum: Checksum
    // What has been handed out; the service itself keeps no copy.
    ghost var downloads: map<Id, Payload>

    ghost function View(): Log
      reads this
    {
      Log(events, nextEvent, backups, nextBackup, users, downloads)
    }

    ghost predicate Valid()
      reads this
    {
      Injective(checksum) && Inv(View(), checksum)
    }

    constructor (hash: Checksum)
      requires Injective(hash)
      ensures Valid() && events == map[] && backups == map[] && checksum == hash
    {
      checksum := hash;
      events, nextEvent, backups, nextBackup, users, downloads := map[], 0, map[], 0, {}, map[];
      new;
      NothingLogged(hash, {});
    }

    /** insertAuditEventTx */
    method InsertAuditEvent(e: Event)
      modifies `events, `nextEvent
      ensures View() == AppendEvent(old(View()), e)
    {
      events := events[nextEvent := e.(id := nextEvent)];
      nextEvent := nextEvent + 1;
    }

    /** An event of another service, in that service's transaction. */
    method Record(e: Event)
      requires Valid()
      modifies `events, `nextEvent
      ensures Valid() && View() == AppendEvent(old(View()), e)
    {
      hide Inv, Injective;
      AppendKeepsInv(View(), checksum, e);
      InsertAuditEvent(e);
    }

    method AddUser(user: Id)
      requires Valid()
      modifies `users
      ensures Valid() && View() == old(View()).(users := old(users) + {user})
    {
      hide Inv, Injective;
      AddUserKeepsInv(View(), checksum, user);
      users := users + {user};
    }

    /** The foreign key clears the actor of the user's events. */
    method DeleteUser(user: Id)
      requires Valid()
      modifies `users, `events
      ensures Valid() && View() == RemoveUser(old(View()), user)
    {
      hide Inv, Injective;
      RemoveUserKeepsInv(View(), checksum, user);
      users := users - {user};
      events := map id | id in events :: if events[id].actor == Some(user) then events[id].(actor := None) else events[id];
    }

    /** queryFileActivityEventsTx */
    method QueryFileActivityEvents(tenant: Id, scope: Scope, now: int) returns (list: seq<Event>)
      requires forall id :: id in events ==> events[id].id == id
      ensures IsQueryResult(events, tenant, scope, now, list)
      ensures forall id :: id in events ==> (events[id] in list <==> Due(events[id], tenant, scope, now))
    {
      hide Matches, Ids;
      var rows := MatchingIds(events, tenant, scope, now);
      list := [];
      NoIds();
      while rows != {}
        invariant rows <= MatchingIds(events, tenant, scope, now)
        invariant DistinctEvents(list) && Ids(list) == MatchingIds(events, tenant, scope, now) - rows
        invariant forall i :: 0 <= i < |list| ==> list[i].id in events && events[list[i].id] == list[i]
      {
        var id :| id in rows;
        OneMoreId(list, events[id]);
        rows := rows - {id};
        list := list + [events[id]];
      }
      forall id | id in events ensures events[id] in list <==> Due(events[id], tenant, scope, now) {
        QueryFindsDue(events, tenant, scope, now, list, id);
      }
    }

    lemma NoIds()
      ensures Ids([]) == {}
    {
    }

    lemma OneMoreId(list: seq<Event>, e: Event)
      requires DistinctEvents(list) && e.id !in Ids(list)
      ensures DistinctEvents(list + [e]) && Ids(list + [e]) == Ids(list) + {e.id}
    {
      assert (list + [e])[..|list|] == list;
      IdsOfPrefix(list + [e]);
      forall i | 0 <= i < |list| ensures list[i].id != e.id {
        assert list[i].id in Ids(list);
      }
    }

    /** deleteEventsTx */
    method DeleteEvents(list: seq<Event>)
      modifies `events
      ensures events == old(events) - Ids(list)
    {
      hide Ids;
      if |list| == 0 {
        NoIds();
        assert list == [];
        assert events - Ids(list) == events;
        return;
      }
      var placeholders := {};
      NoIds();
      assert list[..0] == [];
      for i := 0 to |list|
        invariant events == old(events) && placeholders == Ids(list[..i])
      {
        IdsOfPrefix(list[..i + 1]);
        assert list[..i + 1][..i] == list[..i];
        placeholders := placeholders + {list[i].id};
      }
      assert list[..|list|] == list;
      assert placeholders == Ids(list);
      events := events - placeholders;
    }

    /** insertEventsTx */
    method InsertAll(tenant: Id, list: seq<Event>) returns (r: Result<nat, RestoreError>)
      modifies `events
      ensures r.Ok? <==> InsertEvents(old(events), users, tenant, list).Ok?
      ensures r.Ok? ==> InsertEvents(old(events), users, tenant, list) == Ok((events, r.value))
      ensures r.Err? ==> InsertEvents(old(events), users, tenant, list) == Err(r.error)
    {
      hide InsertEvents;
      var restored: nat := 0;
      NothingInserted(events, users, tenant, list);
      for i := 0 to |list|
        invariant InsertEvents(old(events), users, tenant, list[..i]) == Ok((events, restored))
      {
        OneMoreInserted(old(events), users, tenant, list, i);
        var event := list[i];
        if event.tenant != tenant {
          StaysRefused(old(events), users, tenant, list, i + 1);
          return Err(TenantMismatch);
        }
        if event.id in events {
          continue;
        }
        if event.actor.Some? && event.actor.value !in users {
          StaysRefused(old(events), users, tenant, list, i + 1);
          return Err(ActorGone);
        }
        events := events[event.id := event];
        restored := restored + 1;
      }
      assert list[..|list|] == list;
      return Ok(restored);
    }

    /** cleanupFileActivity */
    method CleanupFileActivity(tenant: Id, user: Id, stored: CleanupPolicy, scope: Scope, now: int, ip: string, committed: bool)
      returns (r: Result<Payload, CleanupError>, ghost list: seq<Event>)
      requires Valid()
      modifies this
      ensures Valid() && users == old(users)
      ensures r.Ok? <==> committed
      ensures r.Ok? ==> IsQueryResult(old(events), tenant, scope, now, list)
      ensures r.Ok? ==> forall id :: id in old(events) ==> (id !in events <==> Due(old(events)[id], tenant, scope, now))
      ensures r.Ok? ==> View() == Cleanup(old(View()), checksum, tenant, user, scope, now, ip, list)
      ensures r.Ok? ==> r.value == CleanupPayload(old(View()), checksum, tenant, user, scope, now, list)
      ensures r.Err? ==> View() == old(View())
    {
      hide Inv, Injective, IsQueryResult, Matches, Ids, MatchingIds, DistinctEvents;
      ghost var before := View();
      list := [];
      if scope.olderThanDays == Some(0) {
        var policy := NormalizePolicy(stored);
        if !policy.allowClearAll {
          return Err(ClearAllNotAllowed), [];
        }
      }
      RowsKnowTheirIds(before, checksum);
      var events0, nextEvent0, backups0, nextBackup0 := events, nextEvent, backups, nextBackup;
      var backupId := nextBackup;
      var found := QueryFileActivityEvents(tenant, scope, now);
      list := found;
      CleanupKeepsInv(before, checksum, tenant, user, scope, now, ip, list);
      var content := Content(FORMAT, backupId, tenant, now, user, scope, |found|, found);
      var sum := checksum(content);
      backups := backups[backupId := Backup(tenant, true, sum, None, 0)];
      nextBackup := backupId + 1;
      DeleteEvents(found);
      InsertAuditEvent(Event(nextEvent, tenant, Some(user), CLEANED, "log_cleanup_backup", Some(backupId), "warning", ip,
                             map["backup_id" := "", "checksum_sha256" := ""], now));
      if !committed {
        events, nextEvent, backups, nextBackup := events0, nextEvent0, backups0, nextBackup0;
        return Err(TransactionFailed), list;
      }
      downloads := downloads[backupId := Payload(content, sum)];
      TakesDue(before, tenant, user, scope, now, ip, list);
      return Ok(Payload(content, sum)), list;
    }

    /** restoreBackup */
    method RestoreBackup(tenant: Id, user: Id, payload: Payload, now: int, ip: string) returns (r: Result<nat, RestoreError>)
      requires Valid()
      modifies `events, `nextEvent, `backups
      ensures Valid()
      ensures r.Ok? ==> Restore(old(View()), checksum, tenant, user, payload, now, ip) == Ok((View(), r.value))
      ensures r.Err? ==> Restore(old(View()), checksum, tenant, user, payload, now, ip) == Err(r.error) && View() == old(View())
    {
      hide Inv, InsertEvents;
      ghost var before := View();
      var content := payload.content;
      if content.format != FORMAT || content.tenant != tenant {
        return Err(BackupNotFound);
      }
      var sum := checksum(content);
      if payload.checksum != "" && payload.checksum != sum {
        return Err(ChecksumMismatch);
      }
      var id := content.backupId;
      if id !in backups || backups[id].tenant != tenant {
        return Err(BackupNotFound);
      }
      var row := backups[id];
      if !row.fileActivity {
        return Err(BackupNotFound);
      }
      if row.restoredAt.Some? {
        return Err(AlreadyRestored);
      }
      if row.checksum != sum {
        return Err(ChecksumMismatch);
      }
      var events0 := events;
      var restored := InsertAll(tenant, content.events);
      if restored.Err? {
        events := events0;
        return Err(restored.error);
      }
      RestoreKeepsInv(before, checksum, tenant, user, payload, now, ip);
      backups := backups[id := row.(restoredAt := Some(now), restoredEvents := restored.value)];
      InsertAuditEvent(Event(nextEvent, tenant, Some(user), RESTORED, "log_cleanup_backup", Some(id), "warning", ip,
                             map["backup_id" := "", "checksum_sha256" := ""], now));
      return Ok(restored.value);
    }

    /** handleRestore: at most so many bytes of the body are read, and what is cut does not decode. */
    method HandleRestore(tenant: Id, user: Id, body: Body, now: int, ip: string) returns (r: Result<nat, RestoreError>)
      requires Valid()
      modifies `events, `nextEvent, `backups
      ensures Valid()
      ensures r.Ok? ==> AuditModel.HandleRestore(old(View()), checksum, tenant, user, body, now, ip) == Ok((View(), r.value))
      ensures r.Err? ==> AuditModel.HandleRestore(old(View()), checksum, tenant, user, body, now, ip) == Err(r.error) && View() == old(View())
    {
      hide Inv, Injective, Restore;
      if body.size > RESTORE_BODY_LIMIT {
        return Err(BodyCut);
      }
      r := RestoreBackup(tenant, user, body.payload, now, ip);
    }

    lemma TakesDue(log: Log, tenant: Id, user: Id, scope: Scope, now: int, ip: string, list: seq<Event>)
      requires Inv(log, checksum) && IsQueryResult(log.events, tenant, scope, now, list)
      ensures forall id :: id in log.events ==>
        (id !in Cleanup(log, checksum, tenant, user, scope, now, ip, list).events <==> Due(log.events[id], tenant, scope, now))
    {
      hide IsQueryResult, Cleanup, Due;
      assert log.nextEvent !in log.events by { assert EventOk(log, log.nextEvent); }
      forall id | id in log.events
        ensures id !in Cleanup(log, checksum, tenant, user, scope, now, ip, list).events <==> Due(log.events[id], tenant, scope, now)
      {
        CleanupTakesIff(log, checksum, tenant, user, scope, now, ip, list, id);
      }
    }

    lemma RowsKnowTheirIds(log: Log, hash: Checksum)
      requires Inv(log, hash)
      ensures forall id :: id in log.events ==> log.events[id].id == id
    {
      forall id | id in log.events ensures log.events[id].id == id { assert EventOk(log, id); }
    }

    lemma NothingInserted(rows: map<Id, Event>, known: set<Id>, tenant: Id, list: seq<Event>)
      ensures InsertEvents(rows, known, tenant, list[..0]) == Ok((rows, 0))
    {
    }

    lemma OneMoreInserted(rows: map<Id, Event>, known: set<Id>, tenant: Id, list: seq<Event>, i: nat)
      requires i < |list| && InsertEvents(rows, known, tenant, list[..i]).Ok?
      ensures var (now, restored) := InsertEvents(rows, known, tenant, list[..i]).value;
        InsertEvents(rows, known, tenant, list[..i + 1]) ==
          if list[i].tenant != tenant then Err(TenantMismatch)
          else if list[i].id in now then Ok((now, restored))
          else if list[i].actor.Some? && list[i].actor.value !in known then Err(ActorGone)
          else Ok((now[list[i].id := list[i]], restored + 1))
    {
      assert list[..i + 1][..i] == list[..i];
    }

    // The first refusal is the outcome.
    lemma {:induction false} StaysRefused(rows: map<Id, Event>, known: set<Id>, tenant: Id, list: seq<Event>, i: nat)
      requires i <= |list| && InsertEvents(rows, known, tenant, list[..i]).Err?
      ensures InsertEvents(rows, known, tenant, list) == InsertEvents(rows, known, tenant, list[..i])
      decreases |list|
    {
      if i == |list| {
        assert list[..i] == list;
      } else {
        assert list[..|list| - 1][..i] == list[..i];
        StaysRefused(rows, known, tenant, list[..|list| - 1], i);
      }
    }
  }
}
