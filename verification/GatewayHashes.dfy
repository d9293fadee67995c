/** What the sessions of a run were paid with, in hashes. A share counts once per submission, so a
    header that is sent again counts again; what the distinct headers cost is told apart. */
module GatewayHashes {
  import opened Base
  import opened Progress
  import opened AccessModel
  import opened AccessInvariant
  import opened AccessRuns
  import opened Target
  import opened Gateway
  import Coinbase
  import Header
  import Hex
  import Text

  // The hashes a share credited with this work costs on average: 2^256 over the number of hashes
  // that meet its target.
  function ExpectedHashes(work: real): real {
    var target := TargetForDifficulty(work / DIFF1_WORK_TH);
    if target.Err? || target.value < 0 then 0.0 else TWO_256 as real / (target.value + 1) as real
  }

  lemma CreditCostsHashes(difficulty: real)
    requires DifficultyOk(difficulty)
    ensures 0.0 < CreditedTH(difficulty) * TERA <= ExpectedHashes(CreditedTH(difficulty))
  {
    hide TargetForDifficulty, CreditedTH;
    CreditNeverExceedsCost(difficulty);
    TargetInRange(difficulty);
    DifficultyOfCredit(difficulty);
    CreditIsHashes(difficulty);
    var hits := (TargetForDifficulty(difficulty).value + 1) as real;
    QuotientAtLeast(TWO_256 as real, hits, CreditedTH(difficulty) * TERA) by {
      assert hits * (CreditedTH(difficulty) * TERA) == CreditedTH(difficulty) * TERA * hits;
    }
  }

  lemma DifficultyOfCredit(difficulty: real)
    ensures CreditedTH(difficulty) / DIFF1_WORK_TH == difficulty
  {
  }

  // ------------------------------------------------------------- equal headers

  // What a miner chooses for a header of a given job: connection, extranonce2, time, nonce and version.
  datatype Choice = Choice(extranonce1: seq<Hex.Byte>, extranonce2: seq<Hex.Byte>, ntime: seq<Hex.Byte>, nonce: seq<Hex.Byte>, version: seq<Hex.Byte>)
  {
    predicate Sized() {
      |extranonce1| == 4 && |extranonce2| == 4 && |ntime| == 4 && |nonce| == 4 && |version| == 4
    }

    function CoinbaseTx(): seq<Hex.Byte> {
      Coinbase.Coinb1(|Coinbase.PREFIX| + |extranonce1| + 4) + extranonce1 + extranonce2 + Coinbase.COINB2
    }
  }

  function ChoiceOf(c: Connection, s: Submission): Choice {
    Choice(Hex.Decode(c.work.extranonce1).GetOr([]), Header.Raw(s.extranonce2), Header.Raw(s.ntime), Header.Raw(s.nonce),
           Header.Raw(if VersionOf(c, s).Ok? then VersionOf(c, s).value else ""))
  }

  function HeaderFor(sha256: Header.Hash, seed: seq<Hex.Byte>, choice: Choice): seq<Hex.Byte>
    requires |seed| % 4 == 0
  {
    Hex.Reverse(choice.version) + Hex.SwapWords(seed) + Header.DoubleHash(sha256, choice.CoinbaseTx())
      + Hex.Reverse(choice.ntime) + Hex.Reverse(Header.Raw(Header.NBITS)) + Hex.Reverse(choice.nonce)
  }

  // The hash tells these two apart, if they differ.
  predicate NoCollision(sha256: Header.Hash, x: seq<Hex.Byte>, y: seq<Hex.Byte>) {
    Header.DoubleHash(sha256, x) == Header.DoubleHash(sha256, y) ==> x == y
  }

  lemma SameChoice(sha256: Header.Hash, seed: seq<Hex.Byte>, a: Choice, b: Choice)
    requires Header.Is32(sha256) && |seed| == 32 && a.Sized() && b.Sized() && NoCollision(sha256, a.CoinbaseTx(), b.CoinbaseTx())
    requires HeaderFor(sha256, seed, a) == HeaderFor(sha256, seed, b)
    ensures a == b
  {
    hide Header.DoubleHash, Hex.Reverse, Hex.SwapWords, Coinbase.Coinb1, Coinbase.COINB2, Coinbase.PREFIX, Header.Raw, Choice.CoinbaseTx;
    PiecesOf(sha256, seed, a);
    PiecesOf(sha256, seed, b);
    Hex.ReverseTwice(a.version);
    Hex.ReverseTwice(b.version);
    Hex.ReverseTwice(a.ntime);
    Hex.ReverseTwice(b.ntime);
    Hex.ReverseTwice(a.nonce);
    Hex.ReverseTwice(b.nonce);
    SameExtranonces(a, b);
  }

  lemma PiecesOf(sha256: Header.Hash, seed: seq<Hex.Byte>, a: Choice)
    requires Header.Is32(sha256) && |seed| == 32 && a.Sized()
    ensures var h := HeaderFor(sha256, seed, a);
      && |h| == 80 && h[..4] == Hex.Reverse(a.version) && h[36..68] == Header.DoubleHash(sha256, a.CoinbaseTx())
      && h[68..72] == Hex.Reverse(a.ntime) && h[76..] == Hex.Reverse(a.nonce)
  {
    hide Header.DoubleHash, Hex.Reverse, Hex.SwapWords, Choice.CoinbaseTx, Hex.Decode, Text.TrimSpace, Hex.Lower;
    Header.BitsAreHex();
    Header.DoubleHashSize(sha256, a.CoinbaseTx());
    Header.PiecesReadBack(Hex.Reverse(a.version), Hex.SwapWords(seed), Header.DoubleHash(sha256, a.CoinbaseTx()),
                          Hex.Reverse(a.ntime), Hex.Reverse(Header.Raw(Header.NBITS)), Hex.Reverse(a.nonce));
  }

  lemma SameExtranonces(a: Choice, b: Choice)
    requires a.Sized() && b.Sized() && a.CoinbaseTx() == b.CoinbaseTx()
    ensures a.extranonce1 == b.extranonce1 && a.extranonce2 == b.extranonce2
  {
    hide Coinbase.Coinb1, Coinbase.COINB2, Coinbase.PREFIX;
    var n := |Coinbase.Coinb1(|Coinbase.PREFIX| + 4 + 4)|;
    MiddleOf(a);
    MiddleOf(b);
  }

  lemma MiddleOf(a: Choice)
    requires a.Sized()
    ensures var n := |Coinbase.Coinb1(|Coinbase.PREFIX| + 4 + 4)|;
      |a.CoinbaseTx()| >= n + 8 && a.CoinbaseTx()[n..n + 4] == a.extranonce1 && a.CoinbaseTx()[n + 4..n + 8] == a.extranonce2
  {
    hide Coinbase.Coinb1, Coinbase.COINB2, Coinbase.PREFIX;
  }

  // All five fields were chosen, of four bytes each, and make the header of the submission.
  predicate MadeByChoice(sha256: Header.Hash, seedOf: Seeds, c: Connection, s: Submission) {
    && |seedOf(c.job)| == 32 && ChoiceOf(c, s).Sized()
    && HeaderOf(sha256, seedOf, c, s) == HeaderFor(sha256, seedOf(c.job), ChoiceOf(c, s))
  }

  lemma AcceptedChoice(sha256: Header.Hash, seedOf: Seeds, c: Connection, s: Submission)
    requires Header.Is32(sha256) && Built(seedOf, c) && ValidShare(sha256, c, s)
    ensures MadeByChoice(sha256, seedOf, c, s)
  {
    hide Header.VerifyShare, Header.BuildWork, VersionOf, ValidShare, Hex.Decode, Text.TrimSpace, Hex.Lower, Hex.Reverse, Hex.SwapWords,
         Header.DoubleHash, Coinbase.Coinb1, Coinbase.COINB2, Coinbase.PREFIX, DifficultyOk, BackedBy;
    var plain, clock, extranonce1, difficulty :| BuiltFrom(c, seedOf(c.job), plain, clock, extranonce1, difficulty);
    WorkIsBuilt(plain, seedOf(c.job), clock, extranonce1, difficulty);
    AcceptedIsBacked(sha256, seedOf, c, s, 0);
  }

  /** Two accepted submissions for one job make the same header exactly if extranonces, time, nonce
      and effective version agree, as long as the hash has no collision on their two coinbases. */
  lemma SameHeaderIff(sha256: Header.Hash, seedOf: Seeds, c1: Connection, s1: Submission, c2: Connection, s2: Submission)
    requires Header.Is32(sha256) && Built(seedOf, c1) && Built(seedOf, c2) && c1.job == c2.job
    requires ValidShare(sha256, c1, s1) && ValidShare(sha256, c2, s2)
    requires NoCollision(sha256, ChoiceOf(c1, s1).CoinbaseTx(), ChoiceOf(c2, s2).CoinbaseTx())
    ensures HeaderOf(sha256, seedOf, c1, s1) == HeaderOf(sha256, seedOf, c2, s2) <==> ChoiceOf(c1, s1) == ChoiceOf(c2, s2)
  {
    hide ValidShare, HeaderOf, ChoiceOf, HeaderFor, NoCollision, Built, Header.Is32, Choice.Sized, Choice.CoinbaseTx;
    AcceptedChoice(sha256, seedOf, c1, s1);
    AcceptedChoice(sha256, seedOf, c2, s2);
    if HeaderOf(sha256, seedOf, c1, s1) == HeaderOf(sha256, seedOf, c2, s2) {
      SameChoice(sha256, seedOf(c1.job), ChoiceOf(c1, s1), ChoiceOf(c2, s2));
    }
  }

  // --------------------------------------------------------- the hashes of a window

  // One share that counts: what its submission chose, the header it made, and what it cost.
  datatype Spent = Spent(choice: Choice, header: seq<Hex.Byte>, hashes: real)

  function Total(spent: seq<Spent>): real {
    if spent == [] then 0.0 else Total(spent[..|spent| - 1]) + spent[|spent| - 1].hashes
  }

  predicate SentBefore(spent: seq<Spent>, header: seq<Hex.Byte>) {
    exists i :: 0 <= i < |spent| && spent[i].header == header
  }

  // Every header once, at its first submission.
  function DistinctHashes(spent: seq<Spent>): real {
    if spent == [] then 0.0
    else
      var front, last := spent[..|spent| - 1], spent[|spent| - 1];
      DistinctHashes(front) + if SentBefore(front, last.header) then 0.0 else last.hashes
  }

  // The submissions of a header after its first.
  function RepeatedHashes(spent: seq<Spent>): real {
    if spent == [] then 0.0
    else
      var front, last := spent[..|spent| - 1], spent[|spent| - 1];
      RepeatedHashes(front) + if SentBefore(front, last.header) then last.hashes else 0.0
  }

  ghost predicate DistinctHeaders(spent: seq<Spent>) {
    forall i, j :: 0 <= i < j < |spent| ==> spent[i].header != spent[j].header
  }

  ghost predicate DistinctChoices(spent: seq<Spent>) {
    forall i, j :: 0 <= i < j < |spent| ==> spent[i].choice != spent[j].choice
  }

  ghost predicate NoCollisions(sha256: Header.Hash, spent: seq<Spent>) {
    forall i, j :: 0 <= i < j < |spent| ==> NoCollision(sha256, spent[i].choice.CoinbaseTx(), spent[j].choice.CoinbaseTx())
  }

  lemma {:induction false} TotalSplits(spent: seq<Spent>)
    ensures Total(spent) == DistinctHashes(spent) + RepeatedHashes(spent)
  {
    if spent != [] {
      TotalSplits(spent[..|spent| - 1]);
    }
  }

  lemma {:induction false} NoRepeatsIff(spent: seq<Spent>)
    requires forall i :: 0 <= i < |spent| ==> 0.0 < spent[i].hashes
    ensures 0.0 <= RepeatedHashes(spent)
    ensures RepeatedHashes(spent) == 0.0 <==> DistinctHeaders(spent)
  {
    if spent != [] {
      var n := |spent| - 1;
      NoRepeatsIff(spent[..n]);
      assert forall i :: 0 <= i < n ==> spent[..n][i] == spent[i];
      if SentBefore(spent[..n], spent[n].header) {
        assert !DistinctHeaders(spent);
      } else {
        assert DistinctHeaders(spent[..n]) <==> DistinctHeaders(spent);
      }
    }
  }

  // The submissions whose shares count between two instants, in their order.
  function SpentBetween(sha256: Header.Hash, seedOf: Seeds, sent: seq<Sent>, at: seq<nat>, shares: seq<Share>, span: Span, from: int, to: int)
    : seq<Spent>
    requires |at| == |shares| && forall i :: 0 <= i < |at| ==> at[i] < |sent|
  {
    if shares == [] then []
    else
      var n := |shares| - 1;
      SpentBetween(sha256, seedOf, sent, at[..n], shares[..n], span, from, to)
        + if span.InSpan(shares[n], from, to) then [SpentOn(sha256, seedOf, sent[at[n]], shares[n])] else []
  }

  function SpentOn(sha256: Header.Hash, seedOf: Seeds, sent: Sent, s: Share): Spent {
    Spent(ChoiceOf(sent.c, Parameters(sent.params)), sent.Header(sha256, seedOf), ExpectedHashes(s.work))
  }

  // Made by an accepted submission for the job, at a positive cost.
  ghost predicate Earned(sha256: Header.Hash, seed: seq<Hex.Byte>, x: Spent) {
    |seed| == 32 && x.choice.Sized() && x.header == HeaderFor(sha256, seed, x.choice) && 0.0 < x.hashes
  }

  ghost predicate AllEarned(sha256: Header.Hash, seed: seq<Hex.Byte>, spent: seq<Spent>) {
    forall i :: 0 <= i < |spent| ==> Earned(sha256, seed, spent[i])
  }

  // One share: its origin was accepted, and the header cost at least the credit.
  lemma ShareIsEarned(sha256: Header.Hash, seedOf: Seeds, step: Timed, sent: Sent, s: Share)
    requires Header.Is32(sha256) && s.valid && IsRowOf(s, step)
    requires step.e.Submit? ==> Built(seedOf, sent.c) && step.e == sent.Event(sha256)
    ensures Earned(sha256, seedOf(s.job), SpentOn(sha256, seedOf, sent, s))
    ensures s.work * TERA <= ExpectedHashes(s.work)
  {
    hide EventOf, HeaderOf, ChoiceOf, HeaderFor, Built, Header.Is32, ExpectedHashes, CreditedTH, Parameters, Choice.Sized;
    var texts := Parameters(sent.params);
    EventIsFor(sha256, sent.c, texts);
    AcceptedChoice(sha256, seedOf, sent.c, texts);
    AcceptedIsBacked(sha256, seedOf, sent.c, texts, s.at);
    BackingCosts(sha256, seedOf, s, HeaderOf(sha256, seedOf, sent.c, texts));
  }

  lemma EventIsFor(sha256: Header.Hash, c: Connection, s: Submission)
    ensures var e := EventOf(sha256, c, s); e.Submit? ==> e.job == c.job && e.tenant == c.tenant && e.worker == c.worker
  {
    hide VersionOf, Header.VerifyShare;
  }

  lemma BackingCosts(sha256: Header.Hash, seedOf: Seeds, s: Share, header: seq<Hex.Byte>)
    requires BackedBy(sha256, seedOf, s, header)
    ensures s.work * TERA <= ExpectedHashes(s.work) && 0.0 < ExpectedHashes(s.work)
  {
    hide Header.DoubleHash, Hex.FromLE, Header.ReadHeader, TargetForDifficulty, CreditedTH, ExpectedHashes;
    var difficulty :| Proves(sha256, seedOf(s.job), header, difficulty) && s.work == CreditedTH(difficulty);
    CreditCostsHashes(difficulty);
  }

  lemma {:induction false} SpentCoversWork(sha256: Header.Hash, seedOf: Seeds, steps: seq<Timed>, sent: seq<Sent>, at: seq<nat>, shares: seq<Share>,
                                           span: Span, from: int, to: int)
    requires Header.Is32(sha256) && FedBy(sha256, seedOf, steps, sent) && Explained(steps, shares, at)
    ensures var spent := SpentBetween(sha256, seedOf, sent, at, shares, span, from, to);
      AllEarned(sha256, seedOf(span.job), spent) && WorkBetween(shares, span, from, to) * TERA <= Total(spent)
  {
    hide Earned, SpentOn, IsRowOf, Built, Header.Is32, ExpectedHashes, Total, AllEarned, WorkBetween, Sent.Event, SharesSound;
    NothingSpent(sha256, seedOf(span.job), span, from, to);
    if shares != [] {
      var n := |shares| - 1;
      var s, x := shares[n], SpentOn(sha256, seedOf, sent[at[n]], shares[n]);
      SpentCoversWork(sha256, seedOf, steps, sent, at[..n], shares[..n], span, from, to);
      var rest := SpentBetween(sha256, seedOf, sent, at[..n], shares[..n], span, from, to);
      LastShare(shares, span, from, to);
      if span.InSpan(s, from, to) {
        ShareIsEarned(sha256, seedOf, steps[at[n]], sent[at[n]], s);
        SpentCosts(sha256, seedOf, sent[at[n]], s);
        NextSpent(sha256, seedOf(span.job), rest, x);
        Distribute(WorkBetween(shares[..n], span, from, to), s.work, TERA);
      } else {
        assert rest + [] == rest;
      }
    }
  }

  lemma NothingSpent(sha256: Header.Hash, seed: seq<Hex.Byte>, span: Span, from: int, to: int)
    ensures AllEarned(sha256, seed, []) && Total([]) == 0.0 && WorkBetween([], span, from, to) == 0.0
  {
  }

  lemma NextSpent(sha256: Header.Hash, seed: seq<Hex.Byte>, rest: seq<Spent>, x: Spent)
    requires AllEarned(sha256, seed, rest) && Earned(sha256, seed, x)
    ensures AllEarned(sha256, seed, rest + [x]) && Total(rest + [x]) == Total(rest) + x.hashes
  {
    hide Earned;
    assert (rest + [x])[..|rest|] == rest;
  }

  lemma LastShare(shares: seq<Share>, span: Span, from: int, to: int)
    requires shares != []
    ensures var n := |shares| - 1;
      WorkBetween(shares, span, from, to) ==
        WorkBetween(shares[..n], span, from, to) + if span.InSpan(shares[n], from, to) then shares[n].work else 0.0
  {
  }

  lemma SpentCosts(sha256: Header.Hash, seedOf: Seeds, sent: Sent, s: Share)
    ensures SpentOn(sha256, seedOf, sent, s).hashes == ExpectedHashes(s.work)
  {
  }

  lemma Distribute(x: real, y: real, z: real)
    ensures (x + y) * z == x * z + y * z
  {
  }

  lemma MulKeepsOrder(x: real, y: real, z: real)
    requires x <= y && 0.0 < z
    ensures x * z <= y * z
  {
  }

  // As long as no coinbases collide, distinct choices and distinct headers are the same thing.
  lemma DistinctIff(sha256: Header.Hash, seed: seq<Hex.Byte>, spent: seq<Spent>)
    requires Header.Is32(sha256) && AllEarned(sha256, seed, spent) && NoCollisions(sha256, spent)
    ensures DistinctHeaders(spent) <==> DistinctChoices(spent)
  {
    hide HeaderFor, Header.Is32, NoCollision;
    forall i, j | 0 <= i < j < |spent| ensures spent[i].header == spent[j].header <==> spent[i].choice == spent[j].choice {
      assert Earned(sha256, seed, spent[i]) && Earned(sha256, seed, spent[j]);
      assert NoCollision(sha256, spent[i].choice.CoinbaseTx(), spent[j].choice.CoinbaseTx());
      if spent[i].header == spent[j].header {
        SameChoice(sha256, seed, spent[i].choice, spent[j].choice);
      }
    }
  }

  // --------------------------------------------------------------------- over runs

  // The accepted hashrate over one window, in hashes.
  function Price(p: Policy): real {
    p.required * (100.0 - p.tolerance) * p.window as real / 100.0 * TERA
  }

  // The submissions behind the shares of one attempt window of a session's job.
  ghost function Payment(sha256: Header.Hash, seedOf: Seeds, steps: seq<Timed>, sent: seq<Sent>, s: Session, k: nat): seq<Spent>
    requires |sent| == |steps| && s.job in Run(EMPTY, steps).jobs
  {
    var span := JobSpan(Run(EMPTY, steps).jobs[s.job], s.job);
    SpentBetween(sha256, seedOf, sent, Origins(steps), Run(EMPTY, steps).shares, span, span.Start(k), span.Start(k) + span.window * SECOND)
  }

  // One window, begun by the time the session opened, whose submissions cost at least the price.
  ghost predicate PaidBySubmissions(sha256: Header.Hash, seedOf: Seeds, steps: seq<Timed>, sent: seq<Sent>, s: Session, k: nat)
    requires |sent| == |steps| && s.job in Run(EMPTY, steps).jobs
  {
    && ReachesRequired(Run(EMPTY, steps), s, k)
    && Price(Run(EMPTY, steps).jobs[s.job].policy) <= Total(Payment(sha256, seedOf, steps, sent, s, k))
  }

  // Its distinct headers fall short of the price by at most what was sent again, and nothing was
  // sent again exactly if all submissions chose differently.
  ghost predicate PaidInHeaders(sha256: Header.Hash, seedOf: Seeds, steps: seq<Timed>, sent: seq<Sent>, s: Session, k: nat)
    requires |sent| == |steps| && s.job in Run(EMPTY, steps).jobs
  {
    var spent, price := Payment(sha256, seedOf, steps, sent, s, k), Price(Run(EMPTY, steps).jobs[s.job].policy);
    && Total(spent) == DistinctHashes(spent) + RepeatedHashes(spent)
    && price - RepeatedHashes(spent) <= DistinctHashes(spent)
    && (NoCollisions(sha256, spent) ==>
          && (RepeatedHashes(spent) == 0.0 <==> DistinctChoices(spent))
          && (DistinctChoices(spent) ==> price <= DistinctHashes(spent)))
  }

  /** In a run fed by the gateway every session was paid for in one window, by submissions whose
      headers cost the accepted hashrate times the window, each counted once per submission. */
  lemma RunsCountEachSubmission(sha256: Header.Hash, seedOf: Seeds, steps: seq<Timed>, sent: seq<Sent>, now: int, sid: Id)
    requires Header.Is32(sha256) && FedBy(sha256, seedOf, steps, sent)
    requires Monotone(steps) && (steps == [] || LastTime(steps, now) <= now)
    requires sid in Run(EMPTY, steps).sessions
    ensures var db := Run(EMPTY, steps);
      && Explained(steps, db.shares, Origins(steps)) && db.sessions[sid].job in db.jobs
      && exists k: nat :: PaidBySubmissions(sha256, seedOf, steps, sent, db.sessions[sid], k)
  {
    hide Run, Origins, Explained, Accepted, ReachesRequired, PaidBySubmissions, Monotone;
    var db := Run(EMPTY, steps);
    RunsSucceedSoundly(steps, now);
    assert SoundSession(db, sid);
    var s := db.sessions[sid];
    var k: nat :| ReachesRequired(db, s, k);
    WindowIsPaid(sha256, seedOf, steps, sent, s, k);
  }

  lemma WindowIsPaid(sha256: Header.Hash, seedOf: Seeds, steps: seq<Timed>, sent: seq<Sent>, s: Session, k: nat)
    requires Header.Is32(sha256) && FedBy(sha256, seedOf, steps, sent)
    requires var db := Run(EMPTY, steps); s.job in db.jobs && ReachesRequired(db, s, k)
    ensures PaidBySubmissions(sha256, seedOf, steps, sent, s, k)
    ensures AllEarned(sha256, seedOf(s.job), Payment(sha256, seedOf, steps, sent, s, k))
  {
    hide Run, Origins, Accepted, WorkBetween, SpentBetween, Total, AllEarned;
    var db := Run(EMPTY, steps);
    var j, span := db.jobs[s.job], JobSpan(db.jobs[s.job], s.job);
    var from, to := span.Start(k), span.Start(k) + span.window * SECOND;
    SpentCoversWork(sha256, seedOf, steps, sent, Origins(steps), db.shares, span, from, to);
    var work := j.policy.required * (100.0 - j.policy.tolerance) * j.policy.window as real / 100.0;
    MulKeepsOrder(work, WorkBetween(db.shares, span, from, to), TERA);
  }

  /** In a run fed by the gateway the distinct headers behind a session reach the accepted hashrate
      times the window if the submissions counted there differ in extranonces, time, nonce or
      version, and otherwise fall short of it by no more than the hashes of those sent again. */
  lemma RunsPayInDistinctHeaders(sha256: Header.Hash, seedOf: Seeds, steps: seq<Timed>, sent: seq<Sent>, now: int, sid: Id)
    requires Header.Is32(sha256) && FedBy(sha256, seedOf, steps, sent)
    requires Monotone(steps) && (steps == [] || LastTime(steps, now) <= now)
    requires sid in Run(EMPTY, steps).sessions
    ensures var db := Run(EMPTY, steps);
      && db.sessions[sid].job in db.jobs
      && exists k: nat :: PaidBySubmissions(sha256, seedOf, steps, sent, db.sessions[sid], k)
                          && PaidInHeaders(sha256, seedOf, steps, sent, db.sessions[sid], k)
  {
    hide Run, Origins, Explained, AllEarned, NoCollisions, Price, Payment, ReachesRequired, Monotone, Header.Is32;
    RunsCountEachSubmission(sha256, seedOf, steps, sent, now, sid);
    var s := Run(EMPTY, steps).sessions[sid];
    var k: nat :| PaidBySubmissions(sha256, seedOf, steps, sent, s, k);
    WindowIsPaid(sha256, seedOf, steps, sent, s, k);
    var spent := Payment(sha256, seedOf, steps, sent, s, k);
    TotalSplits(spent);
    EarnedCosts(sha256, seedOf(s.job), spent);
    NoRepeatsIff(spent);
    if NoCollisions(sha256, spent) {
      DistinctIff(sha256, seedOf(s.job), spent);
    }
  }

  lemma EarnedCosts(sha256: Header.Hash, seed: seq<Hex.Byte>, spent: seq<Spent>)
    requires AllEarned(sha256, seed, spent)
    ensures forall i :: 0 <= i < |spent| ==> 0.0 < spent[i].hashes
  {
    hide HeaderFor;
    forall i | 0 <= i < |spent| ensures 0.0 < spent[i].hashes {
      assert Earned(sha256, seed, spent[i]);
    }
  }
}
