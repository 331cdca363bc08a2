/** Exactly when a migrate run refuses, stops and commits: each test it makes, the lock proof before every
    transaction, and what each transaction needs (runMigrate, applyIdentityFirst, assertBaselineMatches). */
module MigrateOutcomes {
  import opened Filenames
  import opened Wrappers
  import opened MigrateTarget
  import opened BaselineGap
  import opened MigrateRun
  import opened MigrateStates
  import opened MigrateProgress
  import opened MigrateTheorems

  // ── Where a run stops ─────────────────────────────────────────────────────────────────────

  /** What these transactions leave one after another, if each of them succeeds. */
  function Applied(execute: Transaction, db: Db, txs: seq<Tx>): Option<Db>
    decreases |txs|
  {
    if txs == [] then Some(db)
    else
      match Applied(execute, db, txs[..|txs| - 1])
      case None => None
      case Some(before) =>
        match execute(before, txs[|txs| - 1])
        case Failure(_) => None
        case Success(after) => Some(after)
  }

  /** The first thing that ends a run: its steps up to `n` committed on a proven lock and without a kill, and then
      it was killed, or had no step left, or its next boundary was not proven, or its next transaction failed. */
  ghost predicate StopsAt(execute: Transaction, f: Faults, db: Db, steps: seq<Tx>, commits: nat, out: Outcome) {
    var n := |out.committed|;
    && n <= |steps| && out.committed == steps[..n]
    && Applied(execute, db, steps[..n]) == Some(out.db)
    && (f.lockLostAt.Some? ==> n == 0 || commits + n < f.lockLostAt.value)
    && (forall k :: commits < k < commits + n ==> f.killAfter != Some(k))
    && if n > 0 && f.killAfter == Some(commits + n) then out.stop == Some(Killed(commits + n))
       else if n == |steps| then out.stop == None
       else if f.lockLostAt.Some? && f.lockLostAt.value <= commits + n + 1 then out.stop == Some(LockLost(commits + n + 1))
       else execute(out.db, steps[n]).Failure? && out.stop == Some(execute(out.db, steps[n]).error)
  }

  lemma {:induction false} FirstThen(execute: Transaction, db: Db, steps: seq<Tx>, n: nat)
    requires 0 < n <= |steps|
    ensures Applied(execute, db, steps[..n]) ==
            if execute(db, steps[0]).Failure? then None else Applied(execute, execute(db, steps[0]).value, steps[1..][..n - 1])
    decreases n
  {
    assert steps[..n][..n - 1] == steps[..n - 1];
    if n == 1 {
      assert Applied(execute, db, steps[..0]) == Some(db);
      assert steps[..1][0] == steps[0];
    } else {
      FirstThen(execute, db, steps, n - 1);
      assert steps[1..][..n - 1][..n - 2] == steps[1..][..n - 2];
      assert steps[..n][n - 1] == steps[1..][..n - 1][n - 2];
    }
  }

  lemma {:induction false} RunFromStops(execute: Transaction, f: Faults, db: Db, steps: seq<Tx>, commits: nat)
    ensures StopsAt(execute, f, db, steps, commits, RunFrom(execute, f, db, steps, commits))
    decreases |steps|
  {
    var out := RunFrom(execute, f, db, steps, commits);
    assert steps[..0] == [];
    if steps != [] && f.Proven(commits + 1) && execute(db, steps[0]).Success? {
      var next := execute(db, steps[0]).value;
      FirstThen(execute, db, steps, 1);
      assert steps[1..][..0] == [];
      if !f.KilledAfter(commits + 1) {
        RunFromStops(execute, f, next, steps[1..], commits + 1);
        StopsOneLater(execute, f, db, steps, commits, RunFrom(execute, f, next, steps[1..], commits + 1));
      } else {
        assert steps[..1] == [steps[0]];
      }
    }
  }

  lemma StopsOneLater(execute: Transaction, f: Faults, db: Db, steps: seq<Tx>, commits: nat, rest: Outcome)
    requires steps != [] && f.Proven(commits + 1) && execute(db, steps[0]).Success? && !f.KilledAfter(commits + 1)
    requires StopsAt(execute, f, execute(db, steps[0]).value, steps[1..], commits + 1, rest)
    ensures StopsAt(execute, f, db, steps, commits, After([steps[0]], rest))
  {
    var n := |rest.committed|;
    FirstThen(execute, db, steps, n + 1);
    assert steps[..n + 1] == [steps[0]] + steps[1..][..n];
  }

  lemma {:induction false} AppliedUpTo(execute: Transaction, db: Db, steps: seq<Tx>, n: nat, m: nat)
    requires n < m <= |steps| && Applied(execute, db, steps[..m]).Some?
    ensures Applied(execute, db, steps[..n]).Some?
    ensures execute(Applied(execute, db, steps[..n]).value, steps[n]).Success?
    decreases m
  {
    assert steps[..m][..m - 1] == steps[..m - 1];
    if n < m - 1 { AppliedUpTo(execute, db, steps, n, m - 1); }
  }

  lemma StopsOnce(execute: Transaction, f: Faults, db: Db, steps: seq<Tx>, commits: nat, a: Outcome, b: Outcome)
    requires StopsAt(execute, f, db, steps, commits, a) && StopsAt(execute, f, db, steps, commits, b)
    ensures |a.committed| >= |b.committed|
  {
    if |a.committed| < |b.committed| { AppliedUpTo(execute, db, steps, |a.committed|, |b.committed|); }
  }

  /** A run of any steps, whatever its transactions are, ends as it does exactly at the first thing that ends it. */
  lemma RunFromExact(execute: Transaction, f: Faults, db: Db, steps: seq<Tx>, commits: nat, out: Outcome)
    ensures out == RunFrom(execute, f, db, steps, commits) <==> StopsAt(execute, f, db, steps, commits, out)
  {
    var ran := RunFrom(execute, f, db, steps, commits);
    RunFromStops(execute, f, db, steps, commits);
    if StopsAt(execute, f, db, steps, commits, out) {
      StopsOnce(execute, f, db, steps, commits, out, ran);
      StopsOnce(execute, f, db, steps, commits, ran, out);
    }
  }

  /** Every transaction commits on a lock proven for it. */
  lemma CommitsAreProven(execute: Transaction, f: Faults, db: Db, steps: seq<Tx>, commits: nat)
    ensures var out := RunFrom(execute, f, db, steps, commits);
            forall k :: commits < k <= commits + |out.committed| ==> f.Proven(k)
  {
    RunFromStops(execute, f, db, steps, commits);
  }

  /** These steps go through but for the lock. */
  ghost predicate GoesTo(execute: Transaction, f: Faults, db: Db, steps: seq<Tx>, n: nat) {
    && n <= |steps| && Applied(execute, db, steps[..n]).Some?
    && (f.killAfter.Some? ==> f.killAfter.value == 0 || f.killAfter.value > n)
  }

  /** A run's transactions never refuse as a lost lock. */
  ghost predicate KeepsTheLock(execute: Transaction) {
    forall db, tx :: execute(db, tx).Failure? ==> !execute(db, tx).error.LockLost?
  }

  lemma StepsStopAtTheLostLock(execute: Transaction, f: Faults, db: Db, steps: seq<Tx>, p: nat)
    requires f.lockLostAt == Some(p) && p > 0 && KeepsTheLock(execute)
    ensures var out := RunFrom(execute, f, db, steps, 0);
            && |out.committed| < p
            && (out.stop.Some? && out.stop.value.LockLost? ==> out.stop.value == LockLost(p) && |out.committed| == p - 1)
    ensures p <= |steps| && GoesTo(execute, f, db, steps, p - 1) ==>
              RunFrom(execute, f, db, steps, 0) ==
              Outcome(Applied(execute, db, steps[..p - 1]).value, steps[..p - 1], Some(LockLost(p)))
  {
    RunFromStops(execute, f, db, steps, 0);
    if p <= |steps| && GoesTo(execute, f, db, steps, p - 1) {
      var stopped := Outcome(Applied(execute, db, steps[..p - 1]).value, steps[..p - 1], Some(LockLost(p)));
      RunFromExact(execute, f, db, steps, 0, stopped);
    }
  }

  /** A run whose lock is lost at boundary `p` commits fewer than `p` transactions and names no other boundary; and it
      stops there, with exactly the steps before it committed, unless a refusal, a failure or a kill stops it earlier. */
  lemma RunStopsAtTheLostLock(c: Checkout, db: Db, o: Options, confirmed: Option<PreIdentity>, f: Faults, p: nat)
    requires f.lockLostAt == Some(p)
    ensures var out := Run(c, db, o, confirmed, f);
            && (p == 0 ==> out == Outcome(db, [], Some(LockLost(0))))
            && (p > 0 ==> |out.committed| < p)
            && (out.stop.Some? && out.stop.value.LockLost? ==>
                  out.stop.value == LockLost(p) && (p > 0 ==> |out.committed| == p - 1))
    ensures p > 0 && PlanRun(c, db, o, confirmed, f).Success? ==>
              var plan := PlanRun(c, db, o, confirmed, f).value;
              var execute, steps := Transactions(c, plan, o, f), Steps(plan);
              p <= |steps| && GoesTo(execute, f, db, steps, p - 1) ==>
                Run(c, db, o, confirmed, f) ==
                Outcome(Applied(execute, db, steps[..p - 1]).value, steps[..p - 1], Some(LockLost(p)))
  {
    var planned := PlanRun(c, db, o, confirmed, f);
    if planned.Failure? {
      PlanningKeepsTheLock(c, db, o, confirmed, f);
    } else if p > 0 {
      NoTransactionLosesTheLock(c, planned.value, o, f);
      StepsStopAtTheLostLock(Transactions(c, planned.value, o, f), f, db, Steps(planned.value), p);
    }
  }

  lemma NoTransactionLosesTheLock(c: Checkout, plan: Plan, o: Options, f: Faults)
    ensures KeepsTheLock(Transactions(c, plan, o, f))
  {
    forall db, tx | Transactions(c, plan, o, f)(db, tx).Failure?
      ensures !Transactions(c, plan, o, f)(db, tx).error.LockLost?
    {
      assert FailureOf(tx, Execute(c, db, plan, o, f, tx).error);
    }
  }

  lemma PlanningKeepsTheLock(c: Checkout, db: Db, o: Options, confirmed: Option<PreIdentity>, f: Faults)
    ensures PlanRun(c, db, o, confirmed, f).Failure? ==> !PlanRun(c, db, o, confirmed, f).error.LockLost?
  {
  }

  // ── What a run refuses before its first transaction ───────────────────────────────────────

  /** The gap check finds nothing, with the state of this pass or, for a run that is none, of an earlier one. */
  ghost predicate NoGap(c: Checkout, db: Db, pre: Option<PreIdentity>) {
    var accepted :=
      if pre.Some? then Some(Accepted(pre.value.ledger, []))
      else match ReadIdentityPassRemainder(c, db)
           case None => None
           case Some(r) => Some(Accepted(r.baseline, r.appliedAfter));
    GapProblems(LedgerOf(db), c.snapshot, Without(c.onDisk, Members(LedgerOf(db))), accepted) == []
  }

  /** The manifest, when there is one, is over recorded files and unaltered. */
  ghost predicate ManifestHolds(db: Db) {
    db.manifest.Some? ==> db.manifest.value.hashVerifies && forall x :: x in db.manifest.value.filenames ==> x in LedgerOf(db)
  }

  ghost predicate LedgerOnDisk(c: Checkout, db: Db) {
    forall file :: file in LedgerOf(db) ==> file in c.onDisk
  }

  /** Every file still to apply has the header it must carry. */
  ghost predicate HeadersThere(c: Checkout, db: Db, f: Faults) {
    forall file :: file in c.onDisk && file !in LedgerOf(db) ==> file !in f.headerless
  }

  /** The first `n` of these tests. */
  predicate First(n: int, postState: bool, format: bool, manifest: bool, onDisk: bool, pending: bool, gap: bool, headers: bool) {
    && (n > 0 ==> postState) && (n > 1 ==> format) && (n > 2 ==> manifest) && (n > 3 ==> onDisk)
    && (n > 4 ==> pending) && (n > 5 ==> gap) && (n > 6 ==> headers)
  }

  /** The first `n` of the seven tests a plan makes, in the order it makes them. */
  ghost predicate PlanPasses(c: Checkout, db: Db, pre: Option<PreIdentity>, f: Faults, n: int) {
    First(n, f.postStateHolds,
          db.manifest.Some? ==> db.manifest.value.formatKnown,
          ManifestHolds(db),
          LedgerOnDisk(c, db),
          pre.Some? ==> IDENTITY_MIGRATION in c.onDisk && IDENTITY_MIGRATION !in LedgerOf(db),
          db.manifest == None ==> NoGap(c, db, pre),
          HeadersThere(c, db, f))
  }

  /** The first `n` of the eleven tests a run makes before its first transaction, in the order it makes them. */
  ghost predicate Passes(c: Checkout, db: Db, o: Options, confirmed: Option<PreIdentity>, f: Faults, n: int) {
    && (n > 0 ==> f.sessionIsOwner)
    && (n > 1 ==> Admitted(c, db, o))
    && (n > 2 ==> confirmed == ReadPreIdentityState(c, db, o))
    && (n > 3 ==> db.ledger.Some?)
    && (n > 4 ==> PlanPasses(c, db, ReadPreIdentityState(c, db, o), f, n - 4))
  }

  /** Which of the eleven tests a refusal is for. */
  function TestOf(why: Refusal): nat {
    match why
    case NotOwner => 0
    case Gates(_) => 1
    case PreIdentityUnconfirmed => 2
    case Blank => 3
    case PostStateFails => 4
    case ManifestFormatUnknown => 5
    case ManifestInconsistent => 6
    case LedgerNotOnDisk => 7
    case IdentityNotPending => 8
    case Gap(_) => 9
    case Headerless(_) => 10
    case _ => 11
  }

  lemma ManifestTests(db: Db)
    ensures DetectManifestState(db) == UnknownFormat <==> db.manifest.Some? && !db.manifest.value.formatKnown
    ensures DetectManifestState(db) == Inconsistent <==>
            db.manifest.Some? && db.manifest.value.formatKnown && !ManifestHolds(db)
    ensures DetectManifestState(db) == Absent <==> db.manifest == None
  {
    ManifestStateExact(db);
  }

  /** The resume plan makes the first four tests. */
  lemma ResumeTests(c: Checkout, db: Db, pre: Option<PreIdentity>, f: Faults)
    requires f.postStateHolds
    ensures var resumed := ResumePlan(c, db, f);
            && (resumed.Success? <==> PlanPasses(c, db, pre, f, 4))
            && (resumed.Failure? ==>
                  var at := TestOf(resumed.error) - 4;
                  at < 4 && PlanPasses(c, db, pre, f, at) && !PlanPasses(c, db, pre, f, at + 1))
  {
    ResumeIs(c, db, f);
    FirstFour(ResumePlan(c, db, f), db.manifest.Some? ==> db.manifest.value.formatKnown, ManifestHolds(db), LedgerOnDisk(c, db),
              pre.Some? ==> IDENTITY_MIGRATION in c.onDisk && IDENTITY_MIGRATION !in LedgerOf(db),
              db.manifest == None ==> NoGap(c, db, pre), HeadersThere(c, db, f));
  }

  lemma ResumeIs(c: Checkout, db: Db, f: Faults)
    ensures var resumed := ResumePlan(c, db, f);
            if db.manifest.Some? && !db.manifest.value.formatKnown then resumed == Failure(ManifestFormatUnknown)
            else if !ManifestHolds(db) then resumed == Failure(ManifestInconsistent)
            else if !LedgerOnDisk(c, db) then resumed == Failure(LedgerNotOnDisk)
            else if !f.postStateHolds then resumed == Failure(PostStateFails)
            else resumed.Success?
  {
    ManifestTests(db);
    LedgerTest(c, db);
  }

  lemma FirstFour(resumed: Result<seq<Filename>, Refusal>, format: bool, manifest: bool, onDisk: bool, pending: bool, gap: bool,
                  headers: bool)
    requires if !format then resumed == Failure(ManifestFormatUnknown)
             else if !manifest then resumed == Failure(ManifestInconsistent)
             else if !onDisk then resumed == Failure(LedgerNotOnDisk)
             else resumed.Success?
    ensures resumed.Success? <==> First(4, true, format, manifest, onDisk, pending, gap, headers)
    ensures resumed.Failure? ==>
              var at := TestOf(resumed.error) - 4;
              && 1 <= at < 4 && First(at, true, format, manifest, onDisk, pending, gap, headers)
              && !First(at + 1, true, format, manifest, onDisk, pending, gap, headers)
  {
  }

  lemma LedgerTest(c: Checkout, db: Db)
    ensures Without(LedgerOf(db), Members(c.onDisk)) == [] <==> LedgerOnDisk(c, db)
  {
    NoneLeft(LedgerOf(db), Members(c.onDisk));
    PartIff(LedgerOf(db), c.onDisk);
  }

  lemma GapTest(c: Checkout, db: Db, pre: Option<PreIdentity>)
    requires db.manifest == None
    ensures var pending := Without(c.onDisk, Members(LedgerOf(db)));
            var accepted := AcceptedState(pre, AfterPass(c, db, pre));
            GapProblems(LedgerOf(db), c.snapshot, pending, accepted) == [] <==> NoGap(c, db, pre)
  {
    ManifestTests(db);
  }

  lemma PendingTests(c: Checkout, db: Db, f: Faults)
    ensures var pending := Without(c.onDisk, Members(LedgerOf(db)));
            && (FirstHeaderless(pending, f).None? <==> HeadersThere(c, db, f))
            && (IDENTITY_MIGRATION in pending <==> IDENTITY_MIGRATION in c.onDisk && IDENTITY_MIGRATION !in LedgerOf(db))
  {
    var pending := Without(c.onDisk, Members(LedgerOf(db)));
    assert forall file :: file in pending <==> file in Members(pending);
  }

  lemma AfterResume(c: Checkout, db: Db, pre: Option<PreIdentity>, f: Faults, pending: seq<Filename>,
                    problems: seq<Problem>)
    requires f.postStateHolds && ResumePlan(c, db, f) == Success(pending)
    requires problems == GapProblems(LedgerOf(db), c.snapshot, pending, AcceptedState(pre, AfterPass(c, db, pre)))
    ensures var planned := PlanFrom(c, db, pre, f);
            if pre.Some? && IDENTITY_MIGRATION !in pending then planned == Failure(IdentityNotPending)
            else if DetectManifestState(db) == Absent && problems != [] then planned == Failure(Gap(problems))
            else if FirstHeaderless(pending, f).Some? then planned == Failure(Headerless(FirstHeaderless(pending, f).value))
            else planned == Success(Plan(pre, DetectManifestState(db) == Absent, pending, AfterPass(c, db, pre)))
  {
  }

  lemma BeforeResume(c: Checkout, db: Db, pre: Option<PreIdentity>, f: Faults)
    ensures !f.postStateHolds ==> PlanFrom(c, db, pre, f) == Failure(PostStateFails)
    ensures f.postStateHolds && ResumePlan(c, db, f).Failure? ==>
              PlanFrom(c, db, pre, f) == Failure(ResumePlan(c, db, f).error)
  {
  }

  lemma PlanFromTests(c: Checkout, db: Db, pre: Option<PreIdentity>, f: Faults)
    ensures var planned := PlanFrom(c, db, pre, f);
            && (planned.Success? <==> PlanPasses(c, db, pre, f, 7))
            && (planned.Failure? ==>
                  var at := TestOf(planned.error) - 4;
                  at < 7 && PlanPasses(c, db, pre, f, at) && !PlanPasses(c, db, pre, f, at + 1))
  {
    BeforeResume(c, db, pre, f);
    if f.postStateHolds {
      ResumeTests(c, db, pre, f);
      if ResumePlan(c, db, f).Success? { LaterTests(c, db, pre, f); }
    }
  }

  lemma LaterTests(c: Checkout, db: Db, pre: Option<PreIdentity>, f: Faults)
    requires f.postStateHolds && ResumePlan(c, db, f).Success? && PlanPasses(c, db, pre, f, 4)
    ensures var planned := PlanFrom(c, db, pre, f);
            && (planned.Success? <==> PlanPasses(c, db, pre, f, 7))
            && (planned.Failure? ==>
                  var at := TestOf(planned.error) - 4;
                  4 <= at < 7 && PlanPasses(c, db, pre, f, at) && !PlanPasses(c, db, pre, f, at + 1))
  {
    var pending := ResumePlan(c, db, f).value;
    var problems := GapProblems(LedgerOf(db), c.snapshot, pending, AcceptedState(pre, AfterPass(c, db, pre)));
    AfterResume(c, db, pre, f, pending, problems);
    PendingTests(c, db, f);
    if db.manifest == None { GapTest(c, db, pre); }
    AbsentIff(db);
    LastThree(PlanFrom(c, db, pre, f), db.manifest.Some? ==> db.manifest.value.formatKnown, ManifestHolds(db),
              pre.Some? ==> IDENTITY_MIGRATION in c.onDisk && IDENTITY_MIGRATION !in LedgerOf(db),
              db.manifest == None ==> NoGap(c, db, pre), HeadersThere(c, db, f));
  }

  lemma LastThree(planned: Result<Plan, Refusal>, format: bool, manifest: bool, pending: bool, gap: bool, headers: bool)
    requires format && manifest
    requires if !pending then planned == Failure(IdentityNotPending)
             else if !gap then planned.Failure? && planned.error.Gap?
             else if !headers then planned.Failure? && planned.error.Headerless?
             else planned.Success?
    ensures planned.Success? <==> First(7, true, format, manifest, true, pending, gap, headers)
    ensures planned.Failure? ==>
              var at := TestOf(planned.error) - 4;
              && 4 <= at < 7 && First(at, true, format, manifest, true, pending, gap, headers)
              && !First(at + 1, true, format, manifest, true, pending, gap, headers)
  {
  }

  lemma AbsentIff(db: Db)
    ensures DetectManifestState(db) == Absent <==> db.manifest == None
  {
  }

  lemma AdmitTests(c: Checkout, db: Db, o: Options, confirmed: Option<PreIdentity>, f: Faults)
    ensures var refused := Admit(c, db, o, confirmed, f);
            && (refused == None <==> Passes(c, db, o, confirmed, f, 4))
            && (refused.Some? ==>
                  var at := TestOf(refused.value);
                  at < 4 && Passes(c, db, o, confirmed, f, at) && !Passes(c, db, o, confirmed, f, at + 1))
  {
    GatesAdmit(c, db, o);
  }

  /** A run plans exactly when it passes every test, and is refused for the first it does not pass. */
  lemma PlanExact(c: Checkout, db: Db, o: Options, confirmed: Option<PreIdentity>, f: Faults)
    ensures var planned := PlanRun(c, db, o, confirmed, f);
            && (planned.Success? <==> Passes(c, db, o, confirmed, f, 11))
            && (planned.Failure? ==>
                  var at := TestOf(planned.error);
                  at < 11 && Passes(c, db, o, confirmed, f, at) && !Passes(c, db, o, confirmed, f, at + 1))
  {
    AdmitTests(c, db, o, confirmed, f);
    PlanFromTests(c, db, ReadPreIdentityState(c, db, o), f);
  }

  /** What a plan holds: the state of the pass, whether there is no manifest yet, the files on disk that are not recorded,
      and, for a run that is no pass and has no manifest, what an earlier pass left. */
  lemma PlanHas(c: Checkout, db: Db, pre: Option<PreIdentity>, f: Faults)
    requires PlanFrom(c, db, pre, f).Success?
    ensures var plan := PlanFrom(c, db, pre, f).value;
            && plan.preIdentity == pre && plan.firstManifest == (db.manifest == None)
            && plan.afterPass == (if pre == None && db.manifest == None then ReadIdentityPassRemainder(c, db) else None)
  {
    AbsentIff(db);
    PlanReads(c, db, pre, f);
  }

  lemma PlanReads(c: Checkout, db: Db, pre: Option<PreIdentity>, f: Faults)
    requires PlanFrom(c, db, pre, f).Success?
    ensures PlanFrom(c, db, pre, f).value.afterPass == AfterPass(c, db, pre)
  {
    BeforeResume(c, db, pre, f);
    var pending := ResumePlan(c, db, f).value;
    var accepted := AcceptedState(pre, AfterPass(c, db, pre));
    AfterResume(c, db, pre, f, pending, GapProblems(LedgerOf(db), c.snapshot, pending, accepted));
  }

  lemma PendingExact(c: Checkout, db: Db, pre: Option<PreIdentity>, f: Faults, file: Filename)
    requires PlanFrom(c, db, pre, f).Success?
    ensures file in PlanFrom(c, db, pre, f).value.pending <==> file in c.onDisk && file !in LedgerOf(db)
  {
    assert file in PlanFrom(c, db, pre, f).value.pending <==> file in Members(PlanFrom(c, db, pre, f).value.pending);
  }

  /** What a refusal carries: the gates' reasons, the gap's problems, the first pending file without a header. */
  ghost predicate Carries(c: Checkout, db: Db, o: Options, f: Faults, why: Refusal) {
    var pre := ReadPreIdentityState(c, db, o);
    var pending := Without(c.onDisk, Members(LedgerOf(db)));
    && (why.Gates? ==> why.reasons == CheckMigrateGates(c, db, o))
    && (why.Gap? ==>
          why.problems == GapProblems(LedgerOf(db), c.snapshot, pending, AcceptedState(pre, AfterPass(c, db, pre))))
    && (why.Headerless? ==>
          exists i :: 0 <= i < |pending| && why.file == pending[i] && FirstOf(pending, f.headerless, i))
  }

  ghost predicate FirstOf(s: seq<Filename>, wanted: set<Filename>, i: nat)
    requires i < |s|
  {
    s[i] in wanted && forall j :: 0 <= j < i ==> s[j] !in wanted
  }

  lemma {:induction false} HeaderlessIsFirst(pending: seq<Filename>, f: Faults) returns (i: nat)
    requires FirstHeaderless(pending, f).Some?
    ensures i < |pending| && FirstHeaderless(pending, f).value == pending[i] && FirstOf(pending, f.headerless, i)
    decreases |pending|
  {
    if pending[0] in f.headerless {
      i := 0;
    } else {
      i := HeaderlessIsFirst(pending[1..], f);
      assert forall j :: 0 < j <= i ==> pending[j] == pending[1..][j - 1];
      i := i + 1;
    }
  }

  lemma PlanFromCarries(c: Checkout, db: Db, pre: Option<PreIdentity>, f: Faults)
    ensures var planned := PlanFrom(c, db, pre, f);
            var pending := Without(c.onDisk, Members(LedgerOf(db)));
            planned.Failure? && (planned.error.Gates? || planned.error.Gap? || planned.error.Headerless?) ==>
              || planned.error == Gap(GapProblems(LedgerOf(db), c.snapshot, pending, AcceptedState(pre, AfterPass(c, db, pre))))
              || (FirstHeaderless(pending, f).Some? && planned.error == Headerless(FirstHeaderless(pending, f).value))
  {
    BeforeResume(c, db, pre, f);
    if f.postStateHolds && ResumePlan(c, db, f).Success? {
      var pending := ResumePlan(c, db, f).value;
      var accepted := AcceptedState(pre, AfterPass(c, db, pre));
      AfterResume(c, db, pre, f, pending, GapProblems(LedgerOf(db), c.snapshot, pending, accepted));
    }
  }

  lemma RefusalCarries(c: Checkout, db: Db, o: Options, confirmed: Option<PreIdentity>, f: Faults)
    ensures var planned := PlanRun(c, db, o, confirmed, f);
            planned.Failure? ==> Carries(c, db, o, f, planned.error)
  {
    PlanFromCarries(c, db, ReadPreIdentityState(c, db, o), f);
    var pending := Without(c.onDisk, Members(LedgerOf(db)));
    if FirstHeaderless(pending, f).Some? { var i := HeaderlessIsFirst(pending, f); }
  }

  // ── What each transaction needs, and what it does ─────────────────────────────────────────

  /** One new row, stamped with the transaction's time; every other row as it was; the privileges no longer known. */
  ghost predicate RecordsOne(db: Db, next: Db, file: Filename) {
    && db.ledger.Some? && next.ledger.Some?
    && file !in db.ledger.value && next.ledger.value.Keys == db.ledger.value.Keys + {file}
    && (forall x :: x in db.ledger.value ==> next.ledger.value[x] == db.ledger.value[x])
    && next.ledger.value[file] == db.clock && next.clock > db.clock
    && next.manifest == db.manifest && next.grants == Unreconciled
  }

  /** No policy writes the other's kind, and a remote target is a rehearsal only where somebody acknowledged it. */
  lemma EnrollExact(kind: Kind, env: Env, remote: bool, acknowledged: bool)
    ensures Enroll(kind, env, remote, acknowledged) ==
            if (kind == Production <==> env == Prod) && (kind == Rehearsal && remote ==> acknowledged) then Success(Enrolled(kind))
            else Failure(EnrollmentRefused)
  {
  }

  /** The pass commits exactly on the state the plan was admitted on, re-read under its fence; it writes the row of
      its policy's kind and 0081's ledger row, and nothing else. */
  lemma PassExact(c: Checkout, db: Db, plan: Plan, o: Options, f: Faults)
    ensures var r := ExecutePass(c, db, plan, o, f);
            && (r.Success? <==>
                  && IDENTITY_MIGRATION !in f.headerless && IDENTITY_MIGRATION !in f.failing
                  && plan.preIdentity.Some? && plan.preIdentity == ReadPreIdentityLedger(c, db)
                  && db.ledger.Some? && IDENTITY_MIGRATION !in db.ledger.value)
            && (r.Success? ==>
                  RecordsOne(db, r.value, IDENTITY_MIGRATION)
                  && r.value.identity == Rows([Enrolled(if o.env == Prod then Production else Rehearsal)]))
            && (IDENTITY_MIGRATION in f.headerless ==> r == Failure(Headerless(IDENTITY_MIGRATION)))
            && (IDENTITY_MIGRATION !in f.headerless && plan.preIdentity != ReadPreIdentityLedger(c, db) ==>
                  r == Failure(StateMoved))
  {
  }

  /** A file commits exactly when its statements go through and its name is not recorded yet. */
  lemma ApplyExact(db: Db, file: Filename, f: Faults)
    ensures var r := ExecuteApply(db, file, f);
            var runs := db.ledger.Some? && file !in f.failing && !(file == IDENTITY_MIGRATION && db.identity != NoTable);
            && (r.Success? <==> runs && file !in db.ledger.value)
            && (r.Success? ==>
                  RecordsOne(db, r.value, file)
                  && r.value.identity == if file == IDENTITY_MIGRATION then Rows([]) else db.identity)
            && (r.Failure? ==> r.error == if runs then AlreadyRecorded(file) else StatementFailed(file))
  {
  }

  /** A publish over a manifest always commits; a first one exactly when ledger and snapshot list the same files and
      the live catalog is the snapshot's. A refusal names every file on one side only, and says whether the files
      agreed and the catalog did not. */
  lemma PublishExact(c: Checkout, db: Db, plan: Plan, f: Faults)
    ensures var r := ExecutePublish(c, db, plan, f);
            var recorded, embodied := Members(LedgerOf(db)), Members(c.snapshot);
            && (r.Success? <==> !plan.firstManifest || (recorded == embodied && f.catalogMatches))
            && (r.Success? ==>
                  && r.value.manifest == Some(Manifest(true, true, LedgerOf(db))) && r.value.grants == AsSnapshot
                  && r.value.ledger == db.ledger && r.value.identity == db.identity && r.value.clock > db.clock)
            && (r.Failure? ==>
                  && r.error.BaselineDiffers?
                  && Members(r.error.listed) == (recorded - embodied) + (embodied - recorded)
                  && (forall i, j :: 0 <= i < j < |r.error.listed| && r.error.listed[j] in recorded ==>
                        r.error.listed[i] in recorded)
                  && (r.error.catalog <==> recorded == embodied))
  {
    DifferenceIs(c.snapshot, LedgerOf(db));
  }

  lemma DifferenceIs(snapshot: seq<Filename>, filenames: seq<Filename>)
    ensures var recorded, embodied := Members(filenames), Members(snapshot);
            && Members(ListDifference(snapshot, filenames)) == (recorded - embodied) + (embodied - recorded)
            && (ListDifference(snapshot, filenames) == [] <==> recorded == embodied)
            && var listed := ListDifference(snapshot, filenames);
               forall i, j :: 0 <= i < j < |listed| && listed[j] in recorded ==> listed[i] in recorded
  {
    var extra, missing := Without(filenames, Members(snapshot)), Without(snapshot, Members(filenames));
    NoneLeft(filenames, Members(snapshot));
    NoneLeft(snapshot, Members(filenames));
    assert forall x :: x in extra + missing <==> x in Members(extra) || x in Members(missing);
    assert extra + missing == [] <==> extra == [] && missing == [];
    assert forall i :: 0 <= i < |extra| ==> extra[i] in Members(extra);
    assert forall i :: 0 <= i < |missing| ==> missing[i] in Members(missing);
  }

  // ── The catalog decides a first manifest ──────────────────────────────────────────────────

  /** A run on a database without a manifest publishes none while the live catalog differs from the snapshot's. */
  lemma NoManifestOverAnotherCatalog(c: Checkout, db: Db, o: Options, confirmed: Option<PreIdentity>, f: Faults)
    requires db.manifest == None && !f.catalogMatches
    ensures var out := Run(c, db, o, confirmed, f);
            Publish !in out.committed && out.db.manifest == None
  {
    ManifestIsTheLedger(c, db, o, confirmed, f);
    var planned := PlanRun(c, db, o, confirmed, f);
    if f.Proven(0) && planned.Success? {
      var plan := planned.value;
      NothingPublishes(c, plan, o, f, db, Steps(plan), 0);
    }
  }

  lemma FirstPublishRefused(c: Checkout, db: Db, plan: Plan, f: Faults)
    requires plan.firstManifest && !f.catalogMatches
    ensures ExecutePublish(c, db, plan, f).Failure?
  {
  }

  lemma {:induction false} NothingPublishes(c: Checkout, plan: Plan, o: Options, f: Faults, db: Db, steps: seq<Tx>,
                                            commits: nat)
    requires plan.firstManifest && !f.catalogMatches
    ensures Publish !in RunFrom(Transactions(c, plan, o, f), f, db, steps, commits).committed
    decreases |steps|
  {
    var execute := Transactions(c, plan, o, f);
    if steps != [] {
      FirstPublishRefused(c, db, plan, f);
      if execute(db, steps[0]).Success? {
        NothingPublishes(c, plan, o, f, execute(db, steps[0]).value, steps[1..], commits + 1);
      }
    }
  }

  /** From any stage a supported baseline is left at, without a manifest: a run that nothing else stops commits every
      other step and ends at the catalog. */
  lemma CatalogStopsTheRun(c: Checkout, b: Release, stage: Stage, db: Db, o: Options, confirmed: Option<PreIdentity>,
                           f: Faults)
    requires Supported(c, b) && IsAt(c, b, stage, db) && db.manifest == None && MayRun(c, db, o, confirmed)
    requires Undisturbed(f.(catalogMatches := true)) && !f.catalogMatches && f.killAfter == None
    ensures var out := Run(c, db, o, confirmed, f);
            && out.stop == Some(BaselineDiffers([], true)) && out.db.manifest == None
            && out.committed + [Publish] == StepsAt(c, b, stage)
  {
    PlanNeverRefusesTheState(c, b, stage, db, o, confirmed, f);
    PlanGoesAnyway(c, db, o, confirmed, f);
    var plan := PlanRun(c, db, o, confirmed, f).value;
    PlanSays(c, db, o, confirmed, f, plan);
    PlansAt(c, b, stage, db, o, plan);
    StopsAtTheCatalog(c, b, stage, db, plan, o, f, 0);
    assert EndsAtTheCatalog(StepsAt(c, b, stage), Run(c, db, o, confirmed, f));
    NoManifestOverAnotherCatalog(c, db, o, confirmed, f);
  }

  lemma PlanGoesAnyway(c: Checkout, db: Db, o: Options, confirmed: Option<PreIdentity>, f: Faults)
    requires Undisturbed(f.(catalogMatches := true)) && MayRun(c, db, o, confirmed)
    ensures PlanRun(c, db, o, confirmed, f).Failure? ==> !AboutTheRun(PlanRun(c, db, o, confirmed, f).error)
  {
  }

  /** The run ends at the catalog, every other step committed. */
  ghost predicate EndsAtTheCatalog(todo: seq<Tx>, out: Outcome) {
    out.stop == Some(BaselineDiffers([], true)) && out.committed + [Publish] == todo
  }

  lemma {:induction false} StopsAtTheCatalog(c: Checkout, b: Release, stage: Stage, db: Db, plan: Plan, o: Options, f: Faults,
                                             commits: nat)
    requires Supported(c, b) && IsAt(c, b, stage, db) && PlanFits(b, stage, o, plan) && plan.firstManifest
    requires Undisturbed(f.(catalogMatches := true)) && !f.catalogMatches && f.killAfter == None
    ensures EndsAtTheCatalog(StepsAt(c, b, stage),
                             RunFrom(Transactions(c, plan, o, f), f, db, StepsAt(c, b, stage), commits))
    decreases |StepsAt(c, b, stage)|
  {
    var todo := StepsAt(c, b, stage);
    var execute := Transactions(c, plan, o, f);
    if stage.Passed? && stage.applied == |LaterOf(c, b)| {
      CatalogRefuses(c, b, stage, db, plan, f);
      LastStepRefuses(execute, f, db, commits);
    } else {
      NextCommitsAnyway(c, b, stage, db, plan, o, f);
      OneCommit(c, b, stage, db, plan, o, f, execute(db, todo[0]).value);
      StopsAtTheCatalog(c, b, Advance(c, b, stage, IdentityFirstKind(o.env), 1), execute(db, todo[0]).value, plan, o, f,
                        commits + 1);
      EndsOneLater(execute, f, db, todo, commits);
    }
  }

  lemma LastStepRefuses(execute: Transaction, f: Faults, db: Db, commits: nat)
    requires f.lockLostAt == None && execute(db, Publish) == Failure(BaselineDiffers([], true))
    ensures EndsAtTheCatalog([Publish], RunFrom(execute, f, db, [Publish], commits))
  {
    assert [] + [Publish] == [Publish];
  }

  lemma CatalogRefuses(c: Checkout, b: Release, stage: Stage, db: Db, plan: Plan, f: Faults)
    requires Supported(c, b) && IsAt(c, b, stage, db) && stage.Passed? && stage.applied == |LaterOf(c, b)|
    requires plan.firstManifest && !f.catalogMatches
    ensures ExecutePublish(c, db, plan, f) == Failure(BaselineDiffers([], true))
  {
    WholeList(c, b, stage, db);
    NoDifference(c.snapshot, c.snapshot);
  }

  lemma EndsOneLater(execute: Transaction, f: Faults, db: Db, todo: seq<Tx>, commits: nat)
    requires todo != [] && f.lockLostAt == None && f.killAfter == None && execute(db, todo[0]).Success?
    requires EndsAtTheCatalog(todo[1..], RunFrom(execute, f, execute(db, todo[0]).value, todo[1..], commits + 1))
    ensures EndsAtTheCatalog(todo, RunFrom(execute, f, db, todo, commits))
  {
    assert todo == [todo[0]] + todo[1..];
  }

  lemma NextCommitsAnyway(c: Checkout, b: Release, stage: Stage, db: Db, plan: Plan, o: Options, f: Faults)
    requires Supported(c, b) && IsAt(c, b, stage, db) && PlanFits(b, stage, o, plan)
    requires Undisturbed(f.(catalogMatches := true)) && !(stage.Passed? && stage.applied == |LaterOf(c, b)|)
    ensures StepsAt(c, b, stage) != [] && StepsAt(c, b, stage)[0] != Publish
    ensures Execute(c, db, plan, o, f, StepsAt(c, b, stage)[0]).Success?
  {
    var tx := StepsAt(c, b, stage)[0];
    NextCommits(c, b, stage, db, plan, o, f.(catalogMatches := true));
    assert tx != Publish;
  }

  // ── Who takes the pass ────────────────────────────────────────────────────────────────────

  lemma {:induction false} OnlySteps(execute: Transaction, f: Faults, db: Db, steps: seq<Tx>, commits: nat)
    ensures RunFrom(execute, f, db, steps, commits).committed <= steps
  {
    RunFromStops(execute, f, db, steps, commits);
  }

  lemma {:induction false} LoopTakesNoPass(files: seq<Filename>, skip: bool)
    ensures IdentityPass !in LoopSteps(files, skip)
  {
    if files != [] { LoopTakesNoPass(files[1..], skip); }
  }

  /** On any database: a run commits the identity-first pass only when it was offered it, confirmed it, and so is an
      operator's remote run under a policy; the smoke flag, a local run and a run without a policy never do. */
  lemma OnlyTheOfferedPassCommits(c: Checkout, db: Db, o: Options, confirmed: Option<PreIdentity>, f: Faults)
    requires IdentityPass in Run(c, db, o, confirmed, f).committed
    ensures PassOffered(c, db, o)
    ensures confirmed.Some? && confirmed.value.ledger == LedgerOf(db)
  {
    PassIsOffered(c, db, o);
    var plan := PlanRun(c, db, o, confirmed, f).value;
    OnlySteps(Transactions(c, plan, o, f), f, db, Steps(plan), 0);
    LoopTakesNoPass(plan.pending, plan.preIdentity.Some?);
    PlanSays(c, db, o, confirmed, f, plan);
  }
}
