/** The queue position shown for a job. */
module AccessQueue {
  import opened Base
  import opened AccessModel
  import opened AccessInvariant

  function QueuedJobs(db: Db, t: Id): set<Id> {
    set q | q in db.jobs && QueuedIn(db, t, q)
  }

  // The queued jobs of the tenant created no later than this one, itself included.
  function Ahead(db: Db, id: Id): set<Id>
    requires id in db.jobs
  {
    set q | q in db.jobs && QueuedIn(db, db.jobs[id].tenant, q) && db.jobs[q].createdAt <= db.jobs[id].createdAt
  }

  // jobSelectSQL's queue_position.
  function QueuePosition(db: Db, id: Id): nat
    requires id in db.jobs
  {
    if db.jobs[id].status == Queued then |Ahead(db, id)| else 0
  }

  // {1, ..., n}
  function OneTo(n: nat): (s: set<nat>)
    ensures |s| == n && forall p :: p in s <==> 1 <= p <= n
  {
    if n == 0 then {} else OneTo(n - 1) + {n}
  }

  ghost predicate DistinctTimes(db: Db, t: Id) {
    forall a, b :: QueuedIn(db, t, a) && QueuedIn(db, t, b) && db.jobs[a].createdAt == db.jobs[b].createdAt ==> a == b
  }

  /** Earlier jobs have smaller positions, and positions lie in 1..n. */
  lemma PositionsAreOrdered(db: Db, t: Id, a: Id, b: Id)
    requires QueuedIn(db, t, a) && QueuedIn(db, t, b) && db.jobs[a].createdAt < db.jobs[b].createdAt
    ensures QueuePosition(db, a) < QueuePosition(db, b)
    ensures 1 <= QueuePosition(db, a) && QueuePosition(db, b) <= |QueuedJobs(db, t)|
  {
    assert a in Ahead(db, a) && b in Ahead(db, b) && b !in Ahead(db, a);
    SubsetSize(Ahead(db, a), Ahead(db, b));
    SubsetSize(Ahead(db, b), QueuedJobs(db, t));
  }

  /** With distinct creation times the positions of the queued jobs are exactly 1, 2, ..., n. */
  lemma PositionsAreOneToN(db: Db, t: Id)
    requires DistinctTimes(db, t)
    ensures (set q | q in QueuedJobs(db, t) :: QueuePosition(db, q)) == OneTo(|QueuedJobs(db, t)|)
  {
    var queued := QueuedJobs(db, t);
    var positions := set q | q in queued :: QueuePosition(db, q);
    var range := OneTo(|queued|);
    forall q | q in queued
      ensures QueuePosition(db, q) in range
    {
      assert q in Ahead(db, q);
      SubsetSize({q}, Ahead(db, q));
      SubsetSize(Ahead(db, q), queued);
    }
    forall a, b | a in queued && b in queued && QueuePosition(db, a) == QueuePosition(db, b)
      ensures a == b
    {
      if db.jobs[a].createdAt < db.jobs[b].createdAt {
        PositionsAreOrdered(db, t, a, b);
      } else if db.jobs[b].createdAt < db.jobs[a].createdAt {
        PositionsAreOrdered(db, t, b, a);
      }
    }
    ImageSize(db, queued);
    SubsetSize(positions, range);
  }

  lemma {:induction false} ImageSize(db: Db, ids: set<Id>)
    requires ids <= db.jobs.Keys
    requires forall a, b :: a in ids && b in ids && QueuePosition(db, a) == QueuePosition(db, b) ==> a == b
    ensures |set q | q in ids :: QueuePosition(db, q)| == |ids|
    decreases ids
  {
    if id :| id in ids {
      var rest := ids - {id};
      ImageSize(db, rest);
      assert (set q | q in ids :: QueuePosition(db, q)) == (set q | q in rest :: QueuePosition(db, q)) + {QueuePosition(db, id)};
      assert QueuePosition(db, id) !in set q | q in rest :: QueuePosition(db, q);
    }
  }

  /** A promotion starts the job at the head and moves every other queued job up by one. */
  lemma PromotionAdvancesQueue(db: Db, t: Id, now: int, id: Id, q: Id)
    requires CanStart(db, t, now) && OldestQueued(db, t) == Some(id) && QueuedIn(db, t, q) && q != id
    ensures var db' := Promote(db, t, now);
            QueuedIn(db', t, q) && QueuePosition(db', q) == QueuePosition(db, q) - 1 && QueuePosition(db', id) == 0
  {
    OldestQueuedExists(db, t);
    var db' := Promote(db, t, now);
    assert Before(db.jobs, id, q);
    assert Ahead(db', q) == Ahead(db, q) - {id};
  }
}
