/** One header, sent twice: a run in which it opens a session alone. */
module GatewayReplay {
  import opened Base
  import opened Progress
  import opened AccessModel
  import opened AccessInvariant
  import opened AccessReconcile
  import opened AccessRuns
  import opened Target
  import opened Gateway
  import opened GatewayHashes
  import opened GatewaySubmit
  import AccessEffects
  import AccessHandlers
  import AccessPrompt
  import Coinbase
  import Header
  import Hex
  import Text

  // With this hash every header meets every target.
  const ZERO_HASH: Header.Hash := x => Coinbase.NULL_HASH
  const SEEDS: Seeds := job => Coinbase.NULL_HASH

  const DIFFICULTY: real := 1000000.0
  const EXTRANONCE1 := "00c0ffee"
  const CLOCK := "65a1b2c3"
  const WORK := Header.BuildWork("1", Coinbase.NULL_HASH, CLOCK, EXTRANONCE1, DIFFICULTY, 4)

  // 1000 TH/s over five seconds: more than one share of this difficulty is credited for.
  const POLICY := Policy(1000.0, 0.0, 5, 1)
  const CREDIT: real := 4294.967296

  function Miner(work: Header.Work): Connection {
    Connection(0, 7, "rig", 1, work, "", false)
  }

  // Worker, job, extranonce2, time and nonce.
  const PARAMS: seq<string> := ["rig", "1", "0000000a", CLOCK, "0000002a"]
  const SHARE := Submit(0, 1, 7, CREDIT, true)

  const REPLAY: seq<Timed> := [
    At(AddUser(1, User(0, true, false)), 0), At(AddFolder(1, 0, POLICY), 0), At(SetPermission(0, 1, 1, true, None), 0),
    At(Create(0, 1, 1, 30, true, 1), 0), At(SHARE, SECOND), At(SHARE, SECOND)]

  function AllSent(work: Header.Work): seq<Sent> {
    seq(6, i => Sent(Miner(work), PARAMS))
  }

  // ------------------------------------------------------------ the submission

  lemma WordsAre()
    ensures HexWord(EXTRANONCE1) && HexWord(CLOCK) && HexWord("0000000a") && HexWord("0000002a")
    ensures Hex.Decode(EXTRANONCE1).Some? && |Hex.Decode(EXTRANONCE1).value| == 4
    ensures Text.TrimSpace(CLOCK) == CLOCK && Hex.Lower(CLOCK) == CLOCK
    ensures Text.TrimSpace("0000000a") == "0000000a" && Text.TrimSpace("0000002a") == "0000002a" && Hex.Lower("0000002a") == "0000002a"
    ensures Text.TrimSpace("rig") == "rig" && Text.TrimSpace("1") == "1"
  {
    hide Hex.Decode, Hex.Lower, Text.TrimSpace;
    assert Text.Trimmed("rig") && Text.Trimmed("1");
    LowerWord(EXTRANONCE1);
    LowerWord(CLOCK);
    LowerWord("0000000a");
    LowerWord("0000002a");
  }

  lemma WorkIsBuilt()
    ensures WORK.Ok? && WORK.value.stratumId == "1" && Header.Is32(ZERO_HASH) && |Coinbase.NULL_HASH| == 32
    ensures BuiltFrom(Miner(WORK.value), SEEDS(1), "1", CLOCK, EXTRANONCE1, DIFFICULTY) && Built(SEEDS, Miner(WORK.value))
  {
    hide Hex.Decode, Text.TrimSpace, Hex.Lower, Hex.Encode, TargetForDifficulty, Hex.HexFixed, Coinbase.Coinb1, Coinbase.COINB2, HexWord;
    WordsAre();
    TargetInRange(DIFFICULTY);
    Coinbase.PartsAre(EXTRANONCE1, 4);
    PlainOne();
    assert BuiltFrom(Miner(WORK.value), SEEDS(Miner(WORK.value).job), "1", CLOCK, EXTRANONCE1, DIFFICULTY);
  }

  lemma PlainOne()
    ensures Header.WithoutDashes("1") == "1"
  {
    assert Header.WithoutDashes("") == "";
    assert "1"[1..] == "";
  }

  lemma {:induction false} ZerosAreNone(n: nat)
    ensures Hex.FromLE(seq(n, i => 0)) == 0
  {
    if n > 0 {
      ZerosAreNone(n - 1);
      assert seq(n, i => 0)[1..] == seq(n - 1, i => 0);
    }
  }

  // Every double hash is zero, and below every target.
  lemma HashesToZero(x: seq<Hex.Byte>)
    ensures Hex.FromLE(Header.DoubleHash(ZERO_HASH, x)) == 0
  {
    ZerosAreNone(32);
    assert Coinbase.NULL_HASH == seq(32, i => 0);
  }

  /** Five different parameters that make a valid share: the header has the time and the nonce they give,
      and with time and nonce exchanged they are refused. */
  lemma FiveParameters()
    ensures WORK.Ok? && EventOf(ZERO_HASH, Miner(WORK.value), Parameters(PARAMS)) == SHARE
    ensures var header := HeaderOf(ZERO_HASH, SEEDS, Miner(WORK.value), Parameters(PARAMS));
      && |header| == 80
      && Hex.Encode(Header.ReadHeader(header).time) == "65a1b2c3" && Hex.Encode(Header.ReadHeader(header).nonce) == "0000002a"
    ensures !ValidShare(ZERO_HASH, Miner(WORK.value), Parameters(["rig", "1", "0000000a", "0000002a", CLOCK]))
  {
    hide Hex.Decode, Text.TrimSpace, Hex.Lower, Hex.Encode, TargetForDifficulty, Header.BuildWork, Header.DoubleHash, ZERO_HASH, SEEDS, EventOf,
         ValidShare, Coinbase.NULL_HASH, Hex.FromLE, BuiltFrom, Built, HexWord, HeaderOf, ChoiceOf, Choice.CoinbaseTx, Header.Is32,
         HoldsNonces, Header.ReadHeader, Parameters;
    WorkIsBuilt();
    WordsAre();
    var c, swapped := Miner(WORK.value), ["rig", "1", "0000000a", "0000002a", CLOCK];
    TargetInRange(DIFFICULTY);
    SubmitIsValidIff(ZERO_HASH, SEEDS, c, PARAMS, "1", CLOCK, EXTRANONCE1, DIFFICULTY);
    SubmitIsValidIff(ZERO_HASH, SEEDS, c, swapped, "1", CLOCK, EXTRANONCE1, DIFFICULTY);
    StoredUnderConnection(ZERO_HASH, SEEDS, c, PARAMS, "1", CLOCK, EXTRANONCE1, DIFFICULTY);
    HashesToZero(HeaderOf(ZERO_HASH, SEEDS, c, Parameters(PARAMS)));
    assert CLOCK[0] == '6' && "0000002a"[0] == '0';
    assert "0000002a" != CLOCK;
  }

  lemma RunIsFed()
    ensures WORK.Ok? && Header.Is32(ZERO_HASH) && Monotone(REPLAY) && FedBy(ZERO_HASH, SEEDS, REPLAY, AllSent(WORK.value))
  {
    hide Header.BuildWork, EventOf, Parameters, Built, BuiltFrom, ZERO_HASH, HeaderOf, Header.ReadHeader, ValidShare, Hex.Encode, PARAMS;
    WorkIsBuilt();
    FiveParameters();
  }

  // -------------------------------------------------------------------- the run

  const PREPARED := EMPTY.(
    users := EMPTY.users[1 := User(0, true, false)],
    folders := EMPTY.folders[1 := Folder(0, true, POLICY)],
    perms := EMPTY.perms[(1, 1) := Permission(0, true, None)])

  const RUNNING := PREPARED.(jobs := PREPARED.jobs[1 := NewRow(0, 1, 1, POLICY, 30, true, 0)], issued := PREPARED.issued + {1})

  const ROW := Share(0, 1, Some(7), CREDIT, true, SECOND)
  const ONE_SHARE := RUNNING.(shares := [ROW])
  const TWO_SHARES := RUNNING.(shares := [ROW, ROW])

  lemma RunPrepares()
    ensures Run(EMPTY, REPLAY[..3]) == PREPARED
  {
    hide Reconcile, CreateJob, RevokeAccess, PromoteUnblocked, Run;
    assert Run(EMPTY, REPLAY[..0]) == EMPTY by { RunOfNone(); }
    RunNext(REPLAY, 0);
    RunNext(REPLAY, 1);
    RunNext(REPLAY, 2);
  }

  lemma RunOfNone()
    ensures Run(EMPTY, REPLAY[..0]) == EMPTY
  {
  }

  lemma JobStarts()
    requires Monotone(REPLAY)
    ensures Run(EMPTY, REPLAY[..4]) == RUNNING
  {
    hide Run, Reconcile;
    RunPrepares();
    MonotonePrefix(REPLAY, 3);
    AccessPrompt.NothingToReconcile(REPLAY[..3], 0, 0);
    RunNext(REPLAY, 3);
    assert RunningJobs(PREPARED, 0) == {} && LiveSessions(PREPARED, 0, 0) == {};
  }

  lemma WorkOf(shares: seq<Share>)
    requires shares == [ROW] || shares == [ROW, ROW]
    ensures JobWork(RUNNING.jobs[1], 1, shares) == |shares| as real * CREDIT
    ensures WindowWork(shares, JobSpan(RUNNING.jobs[1], 1), 0) == |shares| as real * CREDIT
  {
    var span := JobSpan(RUNNING.jobs[1], 1);
    assert span.Start(0) == 0;
    assert WorkBetween([], span, 0, 5 * SECOND) == 0.0;
    assert [ROW][..0] == [];
    assert WorkBetween([ROW], span, 0, 5 * SECOND) == CREDIT;
    assert [ROW, ROW][..1] == [ROW];
    assert BestWork(shares, span, 0) == 0.0;
  }

  lemma OneIsNotEnough()
    ensures Quiet(ONE_SHARE, 0, SECOND)
  {
    hide JobWork;
    WorkOf([ROW]);
  }

  lemma FirstShareIsStored()
    requires Monotone(REPLAY)
    ensures Run(EMPTY, REPLAY[..5]) == ONE_SHARE
  {
    hide Run, Reconcile, Quiet;
    JobStarts();
    OneIsNotEnough();
    QuietReconcilesToItself(ONE_SHARE, 0, SECOND);
    RunNext(REPLAY, 4);
    assert RUNNING.shares + [ROW] == ONE_SHARE.shares;
  }

  lemma TwoAreEnough()
    ensures NoLapsed(TWO_SHARES, 0, SECOND) && NoOverdue(TWO_SHARES, 0, SECOND)
    ensures RunningIn(TWO_SHARES, 0, 1) && WindowSuffices(TWO_SHARES.jobs[1], 1, TWO_SHARES.shares, 0)
  {
    hide JobWork;
    WorkOf([ROW, ROW]);
  }

  lemma SecondShareOpens()
    requires Monotone(REPLAY)
    ensures Run(EMPTY, REPLAY) == Reconcile(TWO_SHARES, 0, SECOND)
    ensures var db := Run(EMPTY, REPLAY);
      && db.shares == [ROW, ROW] && 0 in db.sessions && db.sessions[0].job == 1 && db.sessions[0].status == Active
      && 1 in db.jobs && db.jobs[1].policy == POLICY
  {
    hide Run, Reconcile, Inv, NoLapsed, NoOverdue, WindowSuffices;
    FirstShareIsStored();
    MonotonePrefix(REPLAY, 5);
    RunKeepsInv(REPLAY[..5], SECOND);
    RunNext(REPLAY, 5);
    assert REPLAY[..6] == REPLAY;
    assert ONE_SHARE.shares + [ROW] == TWO_SHARES.shares;
    AccessHandlers.AppendShareKeepsInv(ONE_SHARE, ROW, SECOND);
    TwoAreEnough();
    AccessEffects.CompletionOutcome(TWO_SHARES, 0, 1, SECOND);
  }

  // ------------------------------------------------------------------ its price

  lemma ShareIsCheap()
    ensures 0.0 <= ExpectedHashes(CREDIT) < Price(POLICY)
  {
    hide TargetForDifficulty;
    TargetInRange(DIFFICULTY);
    assert CREDIT / DIFF1_WORK_TH == DIFFICULTY;
    assert DIFF1_TARGET as real / DIFFICULTY < TWO_256 as real;
    CreditIsTight(DIFFICULTY);
    var hits := (TargetForDifficulty(DIFFICULTY).value + 1) as real;
    assert DIFF1_TARGET as real < DIFFICULTY * hits;
    var price := Price(POLICY);
    assert TWO_256 as real * DIFFICULTY < price * DIFF1_TARGET as real;
    QuotientBelow(TWO_256 as real, hits, price);
  }

  lemma QuotientBelow(a: real, d: real, x: real)
    requires d > 0.0 && a < d * x
    ensures a / d < x
  {
    var q := a / d;
    assert d * q == a;
    if x <= q {
      MulLeft(d, x, q);
    }
  }

  ghost predicate AllAre(spent: seq<Spent>, x: Spent) {
    forall i :: 0 <= i < |spent| ==> spent[i] == x
  }

  lemma {:induction false} AllSpentAlike(sent: seq<Sent>, at: seq<nat>, shares: seq<Share>, span: Span, from: int, to: int, x: Sent)
    requires |at| == |shares| && forall i :: 0 <= i < |at| ==> at[i] < |sent| && sent[at[i]] == x && shares[i] == ROW
    ensures AllAre(SpentBetween(ZERO_HASH, SEEDS, sent, at, shares, span, from, to), SpentOn(ZERO_HASH, SEEDS, x, ROW))
  {
    hide SpentOn, Span.InSpan;
    if shares != [] {
      var n := |shares| - 1;
      AllSpentAlike(sent, at[..n], shares[..n], span, from, to, x);
      var rest := SpentBetween(ZERO_HASH, SEEDS, sent, at[..n], shares[..n], span, from, to);
      var spent := SpentBetween(ZERO_HASH, SEEDS, sent, at, shares, span, from, to);
      if span.InSpan(shares[n], from, to) {
        assert spent == rest + [SpentOn(ZERO_HASH, SEEDS, x, ROW)];
      } else {
        assert spent == rest;
      }
    }
  }

  lemma {:induction false} OneHeaderCostsOnce(spent: seq<Spent>, x: Spent)
    requires 0.0 <= x.hashes && AllAre(spent, x)
    ensures DistinctHashes(spent) <= x.hashes
    ensures spent == [] ==> DistinctHashes(spent) == 0.0
  {
    if spent != [] {
      var front := spent[..|spent| - 1];
      OneHeaderCostsOnce(front, x);
      assert front != [] ==> front[0].header == x.header;
    }
  }

  lemma PaysOnce(s: Session, k: nat)
    requires WORK.Ok? && s.job in Run(EMPTY, REPLAY).jobs && Run(EMPTY, REPLAY).shares == [ROW, ROW]
    ensures DistinctHashes(Payment(ZERO_HASH, SEEDS, REPLAY, AllSent(WORK.value), s, k)) <= ExpectedHashes(CREDIT)
  {
    hide Run, Origins, ExpectedHashes, WORK, DistinctHashes, IsRowOf, SpentBetween, SpentOn, ZERO_HASH, SEEDS, AllAre;
    var db, sent := Run(EMPTY, REPLAY), AllSent(WORK.value);
    var at, span, x := Origins(REPLAY), JobSpan(db.jobs[s.job], s.job), Sent(Miner(WORK.value), PARAMS);
    ShareIsCheap();
    SpentCosts(ZERO_HASH, SEEDS, x, ROW);
    AllSpentAlike(sent, at, db.shares, span, span.Start(k), span.Start(k) + span.window * SECOND, x);
    OneHeaderCostsOnce(Payment(ZERO_HASH, SEEDS, REPLAY, sent, s, k), SpentOn(ZERO_HASH, SEEDS, x, ROW));
  }

  /** A single header, sent twice on one connection, opens a session, although all it cost is less
      than the accepted hashrate times the window. */
  lemma OneHeaderOpensASession()
    ensures WORK.Ok? && Header.Is32(ZERO_HASH) && Monotone(REPLAY) && FedBy(ZERO_HASH, SEEDS, REPLAY, AllSent(WORK.value))
    ensures var db := Run(EMPTY, REPLAY);
      && |db.shares| == 2 && 0 in db.sessions && db.sessions[0].status == Active && db.sessions[0].job in db.jobs
      && forall k: nat :: DistinctHashes(Payment(ZERO_HASH, SEEDS, REPLAY, AllSent(WORK.value), db.sessions[0], k))
                            < Price(db.jobs[db.sessions[0].job].policy)
  {
    hide Run, Reconcile, Price, ExpectedHashes, FedBy, DistinctHashes, Payment, Header.Is32, WORK;
    RunIsFed();
    SecondShareOpens();
    ShareIsCheap();
    forall k: nat
      ensures DistinctHashes(Payment(ZERO_HASH, SEEDS, REPLAY, AllSent(WORK.value), Run(EMPTY, REPLAY).sessions[0], k)) < Price(POLICY)
    {
      PaysOnce(Run(EMPTY, REPLAY).sessions[0], k);
    }
  }
}
