/** The work a Proof-of-Work job has collected, window by window.
    Times are microseconds, work is in terahashes. */
module Progress {
  import opened Base

  const DEFAULT_PROOF_WINDOW_SECONDS: int := 60
  const DEFAULT_MAX_PROOF_ATTEMPTS: int := 3

  // A row of pow_shares; `worker` is None once the worker row is gone.
  datatype Share = Share(tenant: nat, job: nat, worker: Option<nat>, work: real, valid: bool, at: int)

  // The attempt windows of one job.
  datatype Span = Span(tenant: nat, job: nat, startedAt: int, window: int)
  {
    // Start of attempt k, counted from 0; StartOfAttempt gives the closed form.
    function Start(k: nat): int {
      if k == 0 then startedAt else Start(k - 1) + window * SECOND
    }

    // Both ends belong to the window, so a share on a boundary counts in two attempts.
    predicate Holds(s: Share, k: nat) {
      InSpan(s, Start(k), Start(k) + window * SECOND)
    }

    predicate InSpan(s: Share, from: int, to: int) {
      s.tenant == tenant && s.job == job && s.valid && from <= s.at <= to
    }
  }

  predicate SharesSound(shares: seq<Share>, now: int) {
    forall i :: 0 <= i < |shares| ==> 0.0 <= shares[i].work && shares[i].at <= now
  }

  // sum(work_th) of the valid shares between two instants, both included.
  function WorkBetween(shares: seq<Share>, span: Span, from: int, to: int): real {
    if shares == [] then 0.0 else
    var s := shares[|shares| - 1];
    WorkBetween(shares[..|shares| - 1], span, from, to) + if span.InSpan(s, from, to) then s.work else 0.0
  }

  function WindowWork(shares: seq<Share>, span: Span, k: nat): real {
    WorkBetween(shares, span, span.Start(k), span.Start(k) + span.window * SECOND)
  }

  function WindowWorkers(shares: seq<Share>, span: Span, k: nat): set<nat> {
    set i | 0 <= i < |shares| && span.Holds(shares[i], k) && shares[i].worker.Some? :: shares[i].worker.value
  }

  // The largest work of the first n attempt windows; 0 when none has any.
  function BestWork(shares: seq<Share>, span: Span, n: nat): real {
    if n == 0 then 0.0 else Max(BestWork(shares, span, n - 1), WindowWork(shares, span, n - 1))
  }

  /** The progress of a job over n attempts: its best work, and the first window that reached it. */
  ghost predicate IsProgress(shares: seq<Share>, span: Span, n: nat, work: real, workers: nat, attempt: nat) {
    && (forall k: nat :: k < n ==> WindowWork(shares, span, k) <= work)
    && 0.0 <= work
    && (work == 0.0 ==> workers == 0 && attempt == 1)
    && (work > 0.0 ==>
          && 1 <= attempt <= n
          && WindowWork(shares, span, attempt - 1) == work
          && workers == |WindowWorkers(shares, span, attempt - 1)|
          && forall k: nat :: k < attempt - 1 ==> WindowWork(shares, span, k) < work)
  }

  function NormalizePositive(value: int, fallback: int): int {
    if value > 0 then value else fallback
  }

  /** The loop over attempts stops at the first attempt that has not begun; the result still
      describes every one of the attempts. */
  method BestAttemptProgress(shares: seq<Share>, tenant: nat, job: nat, startedAt: int,
                             proofWindowSeconds: int, maxProofAttempts: int, now: int)
    returns (work: real, workers: nat, attempt: nat)
    requires SharesSound(shares, now)
    ensures var span := Span(tenant, job, startedAt, if 0 < proofWindowSeconds then proofWindowSeconds else 60);
            var n := if 0 < maxProofAttempts then maxProofAttempts else 3;
            IsProgress(shares, span, n, work, workers, attempt) && work == BestWork(shares, span, n)
  {
    var span := Span(tenant, job, startedAt, NormalizePositive(proofWindowSeconds, DEFAULT_PROOF_WINDOW_SECONDS));
    var n := NormalizePositive(maxProofAttempts, DEFAULT_MAX_PROOF_ATTEMPTS);
    work, workers, attempt := 0.0, 0, 1;
    var k := 0;
    while k < n
      invariant 0 <= k <= n
      invariant IsProgress(shares, span, k, work, workers, attempt)
    {
      var attemptStart := startedAt + k * span.window * SECOND;
      StartOfAttempt(span, k);
      if attemptStart > now {
        LaterWindowsEmpty(shares, span, k, n, now);
        break;
      }
      var validWork := WindowWork(shares, span, k);
      if validWork > work {
        work, workers, attempt := validWork, |WindowWorkers(shares, span, k)|, k + 1;
      }
      k := k + 1;
    }
    ProgressIsBestWork(shares, span, n, work, workers, attempt);
  }

  /** The gateway's own copy of the loop, which keeps no attempt number. */
  method GatewayProgress(shares: seq<Share>, tenant: nat, job: nat, startedAt: int,
                         proofWindowSeconds: int, maxProofAttempts: int, now: int)
    returns (work: real, workers: nat)
    requires SharesSound(shares, now)
    ensures var span := Span(tenant, job, startedAt, if 0 < proofWindowSeconds then proofWindowSeconds else 60);
            var n := if 0 < maxProofAttempts then maxProofAttempts else 3;
            exists attempt :: IsProgress(shares, span, n, work, workers, attempt)
  {
    var span := Span(tenant, job, startedAt, NormalizePositive(proofWindowSeconds, 60));
    var n := NormalizePositive(maxProofAttempts, 3);
    work, workers := 0.0, 0;
    ghost var first := 1;
    var k := 0;
    while k < n
      invariant 0 <= k <= n
      invariant IsProgress(shares, span, k, work, workers, first)
    {
      var attemptStart := startedAt + k * span.window * SECOND;
      StartOfAttempt(span, k);
      if attemptStart > now {
        LaterWindowsEmpty(shares, span, k, n, now);
        break;
      }
      var validWork := WindowWork(shares, span, k);
      if validWork > work {
        work, workers, first := validWork, |WindowWorkers(shares, span, k)|, k + 1;
      }
      k := k + 1;
    }
    assert span.window == (if 0 < proofWindowSeconds then proofWindowSeconds else 60);
    assert n == (if 0 < maxProofAttempts then maxProofAttempts else 3);
    assert IsProgress(shares, span, n, work, workers, first);
  }

  /** Progress is determined by the shares, so the two loops report the same work and workers. */
  lemma ProgressIsUnique(shares: seq<Share>, span: Span, n: nat, w1: real, c1: nat, a1: nat, w2: real, c2: nat, a2: nat)
    requires IsProgress(shares, span, n, w1, c1, a1) && IsProgress(shares, span, n, w2, c2, a2)
    ensures w1 == w2 && c1 == c2 && a1 == a2
  {
    if w1 > 0.0 {
      assert WindowWork(shares, span, a1 - 1) == w1;
    }
    if w2 > 0.0 {
      assert WindowWork(shares, span, a2 - 1) == w2;
    }
  }

  lemma ProgressIsBestWork(shares: seq<Share>, span: Span, n: nat, work: real, workers: nat, attempt: nat)
    requires IsProgress(shares, span, n, work, workers, attempt)
    ensures work == BestWork(shares, span, n)
  {
    BestWorkIsMaximum(shares, span, n);
    if work > 0.0 {
      assert WindowWork(shares, span, attempt - 1) == work;
    }
  }

  lemma {:induction false} BestWorkIsMaximum(shares: seq<Share>, span: Span, n: nat)
    ensures 0.0 <= BestWork(shares, span, n)
    ensures forall k: nat :: k < n ==> WindowWork(shares, span, k) <= BestWork(shares, span, n)
    ensures BestWork(shares, span, n) > 0.0 ==> exists k: nat :: k < n && WindowWork(shares, span, k) == BestWork(shares, span, n)
  {
    if n > 0 {
      BestWorkIsMaximum(shares, span, n - 1);
      if BestWork(shares, span, n - 1) == BestWork(shares, span, n) > 0.0 {
        var k: nat :| k < n - 1 && WindowWork(shares, span, k) == BestWork(shares, span, n - 1);
        assert WindowWork(shares, span, k) == BestWork(shares, span, n);
      }
    }
  }

  lemma {:induction false} StartOfAttempt(span: Span, k: nat)
    ensures span.Start(k) == span.startedAt + k * span.window * SECOND
  {
    if k > 0 {
      StartOfAttempt(span, k - 1);
      assert k * span.window == (k - 1) * span.window + span.window;
    }
  }

  // An attempt that starts after now holds no share, and neither does a later one.
  lemma {:induction false} LaterWindowsEmpty(shares: seq<Share>, span: Span, k: nat, n: nat, now: int)
    requires SharesSound(shares, now) && span.window > 0 && k <= n && span.Start(k) > now
    ensures forall i :: k <= i < n ==> WindowWork(shares, span, i) == 0.0
    decreases n - k
  {
    if k < n {
      NothingAfter(shares, span, span.Start(k), span.Start(k) + span.window * SECOND, now);
      LaterWindowsEmpty(shares, span, k + 1, n, now);
    }
  }

  lemma {:induction false} NothingAfter(shares: seq<Share>, span: Span, from: int, to: int, now: int)
    requires SharesSound(shares, now) && from > now
    ensures WorkBetween(shares, span, from, to) == 0.0
  {
    if shares != [] {
      NothingAfter(shares[..|shares| - 1], span, from, to, now);
    }
  }

  lemma {:induction false} WorkNonNegative(shares: seq<Share>, span: Span, from: int, to: int, now: int)
    requires SharesSound(shares, now)
    ensures 0.0 <= WorkBetween(shares, span, from, to)
  {
    if shares != [] {
      WorkNonNegative(shares[..|shares| - 1], span, from, to, now);
    }
  }

  /** One more share, or one more attempt, never lowers the best work. */
  lemma {:induction false} BestWorkGrows(shares: seq<Share>, more: seq<Share>, span: Span, m: nat, n: nat, now: int)
    requires SharesSound(shares + more, now) && m <= n
    ensures BestWork(shares, span, m) <= BestWork(shares + more, span, n)
    decreases |more|, n
  {
    if more != [] {
      var last := |more| - 1;
      assert shares + more == (shares + more[..last]) + [more[last]];
      assert forall i :: 0 <= i < |shares + more[..last]| ==> (shares + more[..last])[i] == (shares + more)[i];
      BestWorkGrows(shares, more[..last], span, m, n, now);
      OneMoreShare(shares + more[..last], more[last], span, n, now);
    } else {
      assert shares + more == shares;
      if m < n {
        BestWorkGrows(shares, more, span, m, n - 1, now);
      }
    }
  }

  lemma {:induction false} OneMoreShare(shares: seq<Share>, s: Share, span: Span, n: nat, now: int)
    requires SharesSound(shares + [s], now)
    ensures BestWork(shares, span, n) <= BestWork(shares + [s], span, n)
  {
    if n > 0 {
      OneMoreShare(shares, s, span, n - 1, now);
      assert (shares + [s])[..|shares|] == shares;
      assert 0.0 <= (shares + [s])[|shares|].work;
    }
  }

  /** All the valid work between the first and the last instant of the attempts is at most the
      number of attempts times the best window. */
  lemma {:induction false} SpanWorkBound(shares: seq<Share>, span: Span, n: nat, now: int)
    requires SharesSound(shares, now) && span.window > 0 && n > 0
    ensures WorkBetween(shares, span, span.Start(0), span.Start(n)) <= n as real * BestWork(shares, span, n)
  {
    WindowsCoverSpan(shares, span, n, n, now);
    TimesIsProduct(n, BestWork(shares, span, n));
  }

  lemma {:induction false} WindowsCoverSpan(shares: seq<Share>, span: Span, k: nat, n: nat, now: int)
    requires SharesSound(shares, now) && span.window > 0 && 0 < k <= n
    ensures WorkBetween(shares, span, span.Start(0), span.Start(k)) <= Times(k, BestWork(shares, span, n))
  {
    BestWorkIsMaximum(shares, span, n);
    assert WindowWork(shares, span, k - 1) <= BestWork(shares, span, n);
    if k > 1 {
      WindowsCoverSpan(shares, span, k - 1, n, now);
      SplitSpan(shares, span, span.Start(0), span.Start(k - 1), span.Start(k), now);
    }
  }

  // k * x, by repeated addition.
  ghost function Times(k: nat, x: real): real {
    if k == 0 then 0.0 else Times(k - 1, x) + x
  }

  lemma {:induction false} TimesIsProduct(k: nat, x: real)
    ensures Times(k, x) == k as real * x
  {
    if k > 0 {
      TimesIsProduct(k - 1, x);
      Distribute((k - 1) as real, x);
    }
  }

  lemma Distribute(a: real, x: real)
    ensures (a + 1.0) * x == a * x + x
  {
  }

  lemma {:induction false} SplitSpan(shares: seq<Share>, span: Span, a: int, b: int, c: int, now: int)
    requires SharesSound(shares, now)
    ensures WorkBetween(shares, span, a, c) <= WorkBetween(shares, span, a, b) + WorkBetween(shares, span, b, c)
  {
    if shares != [] {
      SplitSpan(shares[..|shares| - 1], span, a, b, c, now);
    }
  }

  /** Enough total work forces one attempt window to have enough. */
  lemma EnoughTotalForcesAWindow(shares: seq<Share>, span: Span, n: nat, required: real, now: int)
    requires SharesSound(shares, now) && span.window > 0 && n > 0 && 0.0 < required
    requires n as real * required <= WorkBetween(shares, span, span.Start(0), span.Start(n))
    ensures exists k: nat :: k < n && required <= WindowWork(shares, span, k)
  {
    hide WorkBetween, BestWork, WindowWork, SharesSound;
    SpanWorkBound(shares, span, n, now);
    BestWorkIsMaximum(shares, span, n);
    var best := BestWork(shares, span, n);
    MulReflects(n as real, required, best);
    var k: nat :| k < n && WindowWork(shares, span, k) == best;
  }

  lemma MulReflects(n: real, a: real, b: real)
    requires n > 0.0 && n * a <= n * b
    ensures a <= b
  {
    assert b < a ==> n * (a - b) > 0.0;
  }
}
