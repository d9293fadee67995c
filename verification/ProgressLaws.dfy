/** The work and the workers of an attempt window, share by share, in the fields of the rows. */
module ProgressLaws {
  import opened Base
  import opened Progress

  // A valid share of the tenant's job counts in attempt k, from 0, exactly if it came neither before
  // the attempt began nor after it ended; on a boundary it counts in two attempts.
  predicate CountsIn(s: Share, tenant: nat, job: nat, startedAt: int, window: int, k: nat) {
    && s.tenant == tenant && s.job == job && s.valid
    && startedAt + k * window * 1_000_000 <= s.at
    && s.at <= startedAt + k * window * 1_000_000 + window * 1_000_000
  }

  lemma InSpanIff(s: Share, tenant: nat, job: nat, startedAt: int, window: int, k: nat)
    ensures Span(tenant, job, startedAt, window).Holds(s, k) <==> CountsIn(s, tenant, job, startedAt, window, k)
  {
    StartOfAttempt(Span(tenant, job, startedAt, window), k);
  }

  /** A window without shares holds no work; each share that counts in it adds its work, and any
      other nothing. */
  lemma WindowWorkIs(shares: seq<Share>, s: Share, tenant: nat, job: nat, startedAt: int, window: int, k: nat)
    ensures var span := Span(tenant, job, startedAt, window);
      && WindowWork([], span, k) == 0.0
      && WindowWork(shares + [s], span, k) ==
           WindowWork(shares, span, k) + if CountsIn(s, tenant, job, startedAt, window, k) then s.work else 0.0
  {
    assert (shares + [s])[..|shares|] == shares;
    InSpanIff(s, tenant, job, startedAt, window, k);
  }

  /** The workers of a window are those that submitted a share counting in it. */
  lemma WorkersAre(shares: seq<Share>, tenant: nat, job: nat, startedAt: int, window: int, k: nat, w: nat)
    ensures w in WindowWorkers(shares, Span(tenant, job, startedAt, window), k)
       <==> exists s :: s in shares && s.worker == Some(w) && CountsIn(s, tenant, job, startedAt, window, k)
  {
    var span := Span(tenant, job, startedAt, window);
    if w in WindowWorkers(shares, span, k) {
      var i :| 0 <= i < |shares| && span.Holds(shares[i], k) && shares[i].worker == Some(w);
      InSpanIff(shares[i], tenant, job, startedAt, window, k);
    }
    if s :| s in shares && s.worker == Some(w) && CountsIn(s, tenant, job, startedAt, window, k) {
      InSpanIff(s, tenant, job, startedAt, window, k);
      var i :| 0 <= i < |shares| && shares[i] == s;
      assert span.Holds(shares[i], k);
    }
  }
}
