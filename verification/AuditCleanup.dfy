/** Which events a cleanup takes, in the terms of the events themselves. */
module AuditCleanup {
  import opened Base
  import opened AuditModel

  const DAY_SECONDS: int := 86_400

  // An event about files or folders, by its type, its target or a key of its details.
  predicate AboutFiles(e: Event) {
    || e.eventType in {"archive.file.downloaded", "archive.permission.updated"}
    || e.targetType in {"file", "protected_folder"}
    || e.details.Keys * {"file_id", "file_name", "folder_id", "plaintext_sha256"} != {}
  }

  // Older than so many days, and from before so many instants.
  predicate OldEnough(e: Event, scope: Scope, now: int) {
    && (scope.before.Some? ==> e.createdAt < scope.before.value)
    && (scope.olderThanDays.Some? && 0 < scope.olderThanDays.value ==> e.createdAt + scope.olderThanDays.value * DAY_SECONDS * SECOND < now)
  }

  predicate Due(e: Event, tenant: Id, scope: Scope, now: int) {
    && e.tenant == tenant && AboutFiles(e) && OldEnough(e, scope, now)
    && e.eventType !in {"audit.file_activity.cleaned", "audit.file_activity.restored"}
  }

  lemma DueIffMatches(e: Event, tenant: Id, scope: Scope, now: int)
    ensures Due(e, tenant, scope, now) <==> Matches(e, tenant, scope, now)
  {
    var keys := e.details.Keys * {"file_id", "file_name", "folder_id", "plaintext_sha256"};
    assert "file_id" in e.details ==> "file_id" in keys;
    assert "file_name" in e.details ==> "file_name" in keys;
    assert "folder_id" in e.details ==> "folder_id" in keys;
    assert "plaintext_sha256" in e.details ==> "plaintext_sha256" in keys;
    if keys != {} {
      var key :| key in keys;
    }
  }

  // The query finds exactly the events that are due.
  lemma QueryFindsDue(events: map<Id, Event>, tenant: Id, scope: Scope, now: int, list: seq<Event>, id: Id)
    requires IsQueryResult(events, tenant, scope, now, list) && id in events
    ensures events[id] in list <==> Due(events[id], tenant, scope, now)
  {
    hide IsQueryResult, Matches, Due;
    MatchedIsListed(events, tenant, scope, now, list, id);
    DueIffMatches(events[id], tenant, scope, now);
  }

  /** A cleanup takes exactly the file events of the tenant that are no markers, old enough for the
      days asked for and from before the instant asked for; all of them are in the payload. Whatever
      else is in the log stays as it is. */
  lemma CleanupTakesIff(log: Log, checksum: Checksum, tenant: Id, user: Id, scope: Scope, now: int, ip: string, list: seq<Event>, id: Id)
    requires IsQueryResult(log.events, tenant, scope, now, list) && log.nextEvent !in log.events && id in log.events
    ensures var after := Cleanup(log, checksum, tenant, user, scope, now, ip, list);
      var events := CleanupPayload(log, checksum, tenant, user, scope, now, list).content.events;
      && (id !in after.events <==> Due(log.events[id], tenant, scope, now))
      && (log.events[id] in events <==> Due(log.events[id], tenant, scope, now))
      && (id in after.events ==> after.events[id] == log.events[id])
  {
    hide Matches, Due, IsQueryResult, CleanupPayload, Cleanup;
    CleanupConserves(log, checksum, tenant, user, scope, now, ip, list, id);
    DueIffMatches(log.events[id], tenant, scope, now);
    DownloadsPayload(log, checksum, tenant, user, scope, now, ip, list);
  }

  lemma DownloadsPayload(log: Log, checksum: Checksum, tenant: Id, user: Id, scope: Scope, now: int, ip: string, list: seq<Event>)
    ensures var after := Cleanup(log, checksum, tenant, user, scope, now, ip, list);
      log.nextBackup in after.downloads && after.downloads[log.nextBackup] == CleanupPayload(log, checksum, tenant, user, scope, now, list)
  {
    hide CleanupPayload;
  }

  /** With an event goes every older one of its tenant that is about files and no marker. */
  lemma OlderGoToo(log: Log, checksum: Checksum, tenant: Id, user: Id, scope: Scope, now: int, ip: string, list: seq<Event>, id: Id, older: Id)
    requires IsQueryResult(log.events, tenant, scope, now, list) && log.nextEvent !in log.events && id in log.events && older in log.events
    requires var e := log.events[older];
      && e.createdAt <= log.events[id].createdAt && e.tenant == tenant && AboutFiles(e)
      && e.eventType != "audit.file_activity.cleaned" && e.eventType != "audit.file_activity.restored"
    ensures var after := Cleanup(log, checksum, tenant, user, scope, now, ip, list);
      id !in after.events ==> older !in after.events
  {
    hide Cleanup, IsQueryResult, AboutFiles;
    CleanupTakesIff(log, checksum, tenant, user, scope, now, ip, list, id);
    CleanupTakesIff(log, checksum, tenant, user, scope, now, ip, list, older);
  }

  // ------------------------------------------------------------------- a witness

  const NOW: int := 100 * DAY_SECONDS * SECOND

  function Download(id: Id, daysAgo: int): Event {
    Event(id, 0, Some(1), "archive.file.downloaded", "file", None, "critical", "", map[], NOW - daysAgo * DAY_SECONDS * SECOND)
  }

  // A download of forty days ago, one of yesterday, and another tenant's of forty days ago.
  const THREE_DOWNLOADS := Log(map[0 := Download(0, 40), 1 := Download(1, 1), 2 := Download(2, 40).(tenant := 5)], 3, map[], 0, {1}, map[])

  /** A cleanup of what is older than thirty days takes the first and leaves the others. */
  lemma OldGoesRecentStays(checksum: Checksum, list: seq<Event>)
    requires IsQueryResult(THREE_DOWNLOADS.events, 0, Scope(None, Some(30)), NOW, list)
    ensures var after := Cleanup(THREE_DOWNLOADS, checksum, 0, 1, Scope(None, Some(30)), NOW, "", list);
      0 !in after.events && 1 in after.events && 2 in after.events && |list| == 1
  {
    hide Cleanup, IsQueryResult;
    CleanupTakesIff(THREE_DOWNLOADS, checksum, 0, 1, Scope(None, Some(30)), NOW, "", list, 0);
    CleanupTakesIff(THREE_DOWNLOADS, checksum, 0, 1, Scope(None, Some(30)), NOW, "", list, 1);
    CleanupTakesIff(THREE_DOWNLOADS, checksum, 0, 1, Scope(None, Some(30)), NOW, "", list, 2);
    OnlyTheFirst(list);
  }

  lemma OnlyTheFirst(list: seq<Event>)
    requires IsQueryResult(THREE_DOWNLOADS.events, 0, Scope(None, Some(30)), NOW, list)
    ensures |list| == 1
  {
    hide IsQueryResult;
    var events := THREE_DOWNLOADS.events;
    DueIffMatches(events[0], 0, Scope(None, Some(30)), NOW);
    DueIffMatches(events[1], 0, Scope(None, Some(30)), NOW);
    DueIffMatches(events[2], 0, Scope(None, Some(30)), NOW);
    assert MatchingIds(events, 0, Scope(None, Some(30)), NOW) == {0};
    ListSize(events, 0, Scope(None, Some(30)), NOW, list);
  }

  lemma ListSize(events: map<Id, Event>, tenant: Id, scope: Scope, now: int, list: seq<Event>)
    requires IsQueryResult(events, tenant, scope, now, list)
    ensures |list| == |MatchingIds(events, tenant, scope, now)|
  {
    IdsSize(list);
  }
}
