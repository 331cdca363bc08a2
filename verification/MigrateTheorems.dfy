/** What holds over whole migrate runs, and over any number of them killed between commits. */
module MigrateTheorems {
  import opened Filenames
  import opened Wrappers
  import opened MigrateTarget
  import opened BaselineGap
  import opened MigrateRun
  import opened MigrateStates
  import opened MigrateProgress

  function Min(a: nat, b: nat): nat {
    if a < b then a else b
  }

  /** Where `commits` transactions bring a database at `stage`, when the run's policy writes `kind`. */
  function Advance(c: Checkout, b: Release, stage: Stage, kind: Kind, commits: nat): Stage {
    if commits == 0 then stage
    else match stage
         case Untouched => Passed(kind, Min(commits - 1, |LaterOf(c, b)|))
         case Passed(written, n) => Passed(written, Min(n + commits, |LaterOf(c, b)|))
  }

  // ── One run from a known stage ────────────────────────────────────────────────────────────

  /** One committed transaction of a plan made here: the next stage, and the steps left from it. */
  lemma OneCommit(c: Checkout, b: Release, stage: Stage, db: Db, plan: Plan, o: Options, f: Faults, next: Db)
    requires Supported(c, b) && IsAt(c, b, stage, db)
    requires Execute(c, db, plan, o, f, StepsAt(c, b, stage)[0]) == Success(next)
    ensures var after := Advance(c, b, stage, IdentityFirstKind(o.env), 1);
            var todo := StepsAt(c, b, stage);
            && IsAt(c, b, after, next)
            && if todo[0] == Publish then todo == [Publish] && Finished(c, b, |LaterOf(c, b)|, next)
               else todo[1..] == StepsAt(c, b, after)
  {
    var later := LaterOf(c, b);
    match stage
    case Untouched =>
      PassSays(c, db, plan, o, f, next);
      PassAt(c, b, IdentityFirstKind(o.env), db, next);
      assert later[0..] == later;
    case Passed(kind, n) =>
      if n == |later| {
        PublishAt(c, b, kind, db, plan, f, next);
      } else {
        ApplyAt(c, b, kind, n, n, db, f, next);
        assert later[n..][1..] == later[n + 1..];
      }
  }

  lemma AdvanceAdds(c: Checkout, b: Release, stage: Stage, kind: Kind, more: nat)
    requires stage.Passed? ==> stage.applied <= |LaterOf(c, b)|
    ensures Advance(c, b, Advance(c, b, stage, kind, 1), kind, more) == Advance(c, b, stage, kind, 1 + more)
  {
  }

  /** What a run from `stage` promises about where it stops: it committed a prefix of its steps, the
      database is exactly that many transactions further, and all of them committed means finished. */
  ghost predicate KeepsTo(c: Checkout, b: Release, stage: Stage, kind: Kind, todo: seq<Tx>, out: Outcome) {
    && out.committed <= todo
    && IsAt(c, b, Advance(c, b, stage, kind, |out.committed|), out.db)
    && (out.stop.None? ==> out.committed == todo)
    && (out.committed == todo ==> Finished(c, b, |LaterOf(c, b)|, out.db))
  }

  /** Whatever stops it, a run from `stage` keeps to that. */
  lemma {:induction false} RunFromKeeps(c: Checkout, b: Release, stage: Stage, db: Db, plan: Plan, o: Options, f: Faults,
                                        commits: nat)
    requires Supported(c, b) && IsAt(c, b, stage, db)
    ensures KeepsTo(c, b, stage, IdentityFirstKind(o.env), StepsAt(c, b, stage),
                    RunFrom(Transactions(c, plan, o, f), f, db, StepsAt(c, b, stage), commits))
    decreases |StepsAt(c, b, stage)|
  {
    var todo := StepsAt(c, b, stage);
    var kind := IdentityFirstKind(o.env);
    var execute := Transactions(c, plan, o, f);
    if f.Proven(commits + 1) && execute(db, todo[0]).Success? {
      var next := execute(db, todo[0]).value;
      var after := Advance(c, b, stage, kind, 1);
      OneCommit(c, b, stage, db, plan, o, f, next);
      if todo[0] != Publish && !f.KilledAfter(commits + 1) {
        RunFromKeeps(c, b, after, next, plan, o, f, commits + 1);
        var rest := RunFrom(execute, f, next, todo[1..], commits + 1);
        AdvanceAdds(c, b, stage, kind, |rest.committed|);
        KeepsOneMore(c, b, stage, kind, todo, rest);
      }
    }
  }

  lemma KeepsOneMore(c: Checkout, b: Release, stage: Stage, kind: Kind, todo: seq<Tx>, rest: Outcome)
    requires todo != [] && KeepsTo(c, b, Advance(c, b, stage, kind, 1), kind, todo[1..], rest)
    requires stage.Passed? ==> stage.applied <= |LaterOf(c, b)|
    ensures KeepsTo(c, b, stage, kind, todo, After([todo[0]], rest))
  {
    AdvanceAdds(c, b, stage, kind, |rest.committed|);
    assert todo == [todo[0]] + todo[1..];
  }

  // ── Refusals and publishing, on any database at all ───────────────────────────────────────

  /** The refusals the run can only give while it plans. */
  predicate FromPlanning(why: Refusal) {
    || why == LockLost(0) || why.NotOwner? || why.Gates? || why.PreIdentityUnconfirmed? || why.Blank?
    || why.PostStateFails? || why.ManifestInconsistent? || why.ManifestFormatUnknown? || why.LedgerNotOnDisk?
    || why.IdentityNotPending? || why.Gap?
  }

  /** The refusals that promise that nothing was applied. */
  predicate NothingApplied(why: Refusal) {
    FromPlanning(why) || why.Headerless? || why.StateMoved?
  }

  lemma {:induction false} LoopStops(c: Checkout, plan: Plan, o: Options, f: Faults, db: Db, files: seq<Filename>,
                                     skip: bool, commits: nat)
    ensures var out := RunFrom(Transactions(c, plan, o, f), f, db, LoopSteps(files, skip), commits);
            out.stop.Some? ==> !NothingApplied(out.stop.value)
    decreases files
  {
    var execute := Transactions(c, plan, o, f);
    if files != [] {
      var file, rest := files[0], LoopSteps(files[1..], skip);
      LoopStops(c, plan, o, f, db, files[1..], skip, commits);
      if execute(db, Apply(file)).Success? {
        LoopStops(c, plan, o, f, execute(db, Apply(file)).value, files[1..], skip, commits + 1);
      }
      FirstStops(execute, f, db, Apply(file), rest, commits);
    }
  }

  /** A first step that fails of itself, or whose rest stops so, does not stop the run as one that applied nothing. */
  lemma FirstStops(execute: Transaction, f: Faults, db: Db, tx: Tx, rest: seq<Tx>, commits: nat)
    requires execute(db, tx).Failure? ==> !NothingApplied(execute(db, tx).error)
    requires execute(db, tx).Success? ==>
               var out := RunFrom(execute, f, execute(db, tx).value, rest, commits + 1);
               out.stop.Some? ==> !NothingApplied(out.stop.value)
    ensures var out := RunFrom(execute, f, db, [tx] + rest, commits);
            out.stop.Some? ==> !NothingApplied(out.stop.value)
  {
    assert ([tx] + rest)[1..] == rest;
  }

  lemma PassRefuses(c: Checkout, db: Db, plan: Plan, o: Options, f: Faults)
    ensures ExecutePass(c, db, plan, o, f).Failure? ==> !FromPlanning(ExecutePass(c, db, plan, o, f).error)
  {
  }

  lemma FirstThenLoop(execute: Transaction, f: Faults, db: Db, first: Tx, rest: seq<Tx>)
    requires execute(db, first).Failure? ==> !FromPlanning(execute(db, first).error)
    requires execute(db, first).Success? ==>
               var out := RunFrom(execute, f, execute(db, first).value, rest, 1);
               out.stop.Some? ==> !NothingApplied(out.stop.value)
    ensures var out := RunFrom(execute, f, db, [first] + rest, 0);
            out.stop.Some? ==>
              && !FromPlanning(out.stop.value)
              && (NothingApplied(out.stop.value) ==> out.committed == [] && out.db == db)
  {
    assert ([first] + rest)[1..] == rest;
  }

  lemma StepsStop(c: Checkout, plan: Plan, o: Options, f: Faults, db: Db)
    ensures var out := RunFrom(Transactions(c, plan, o, f), f, db, Steps(plan), 0);
            out.stop.Some? ==>
              && !FromPlanning(out.stop.value)
              && (NothingApplied(out.stop.value) ==> out.committed == [] && out.db == db)
  {
    var execute := Transactions(c, plan, o, f);
    if plan.preIdentity.None? {
      assert Steps(plan) == LoopSteps(plan.pending, false);
      LoopStops(c, plan, o, f, db, plan.pending, false, 0);
    } else {
      PassRefuses(c, db, plan, o, f);
      if execute(db, IdentityPass).Success? {
        LoopStops(c, plan, o, f, execute(db, IdentityPass).value, plan.pending, true, 1);
      }
      FirstThenLoop(execute, f, db, IdentityPass, LoopSteps(plan.pending, true));
    }
  }

  /** All or nothing: a refusal for the lock at the start, the session, the gates, an unconfirmed or moved
      pre-identity state, the ledger, the gap or a header commits nothing. */
  lemma RefusalCommitsNothing(c: Checkout, db: Db, o: Options, confirmed: Option<PreIdentity>, f: Faults)
    ensures var out := Run(c, db, o, confirmed, f);
            out.stop.Some? && NothingApplied(out.stop.value) ==> out.committed == [] && out.db == db
  {
    if f.Proven(0) && PlanRun(c, db, o, confirmed, f).Success? {
      StepsStop(c, PlanRun(c, db, o, confirmed, f).value, o, f, db);
    }
  }

  /** One pending file without its header stops the whole run before its first commit, wherever in the
      list it stands. */
  lemma HeaderlessCommitsNothing(c: Checkout, db: Db, o: Options, confirmed: Option<PreIdentity>, f: Faults, bad: Filename)
    requires bad in Without(c.onDisk, Members(LedgerOf(db))) && bad in f.headerless
    ensures var out := Run(c, db, o, confirmed, f);
            out.committed == [] && out.db == db && out.stop.Some?
  {
    var pre := ReadPreIdentityState(c, db, o);
    PlanNeedsHeaders(c, db, pre, f, bad);
  }

  lemma PlanNeedsHeaders(c: Checkout, db: Db, pre: Option<PreIdentity>, f: Faults, bad: Filename)
    requires bad in Without(c.onDisk, Members(LedgerOf(db))) && bad in f.headerless
    ensures PlanFrom(c, db, pre, f).Failure?
  {
  }

  /** A manifest is published only with the snapshot's grants, over exactly the ledger it commits on. */
  ghost predicate PublishedWith(before: Db, out: Outcome) {
    if Publish in out.committed
    then out.db.manifest == Some(Manifest(true, true, LedgerOf(out.db))) && out.db.grants == AsSnapshot
    else out.db.manifest == before.manifest
  }

  lemma {:induction false} LoopPublishes(c: Checkout, plan: Plan, o: Options, f: Faults, db: Db, files: seq<Filename>,
                                         skip: bool, commits: nat)
    ensures PublishedWith(db, RunFrom(Transactions(c, plan, o, f), f, db, LoopSteps(files, skip), commits))
    decreases files
  {
    var execute := Transactions(c, plan, o, f);
    if files != [] {
      if skip && files[0] == IDENTITY_MIGRATION {
        LoopPublishes(c, plan, o, f, db, files[1..], skip, commits);
      } else if execute(db, Apply(files[0])).Success? {
        var next := execute(db, Apply(files[0])).value;
        LoopPublishes(c, plan, o, f, next, files[1..], skip, commits + 1);
        assert ([Apply(files[0])] + LoopSteps(files[1..], skip))[1..] == LoopSteps(files[1..], skip);
      }
    }
  }

  lemma ManifestIsTheLedger(c: Checkout, db: Db, o: Options, confirmed: Option<PreIdentity>, f: Faults)
    ensures PublishedWith(db, Run(c, db, o, confirmed, f))
  {
    if f.Proven(0) && PlanRun(c, db, o, confirmed, f).Success? {
      var plan := PlanRun(c, db, o, confirmed, f).value;
      StepsPublish(c, plan, o, f, db);
    }
  }

  lemma FirstThenPublishes(execute: Transaction, f: Faults, db: Db, first: Tx, rest: seq<Tx>)
    requires first != Publish
    requires execute(db, first).Success? ==>
               && execute(db, first).value.manifest == db.manifest
               && PublishedWith(execute(db, first).value, RunFrom(execute, f, execute(db, first).value, rest, 1))
    ensures PublishedWith(db, RunFrom(execute, f, db, [first] + rest, 0))
  {
    assert ([first] + rest)[1..] == rest;
  }

  lemma StepsPublish(c: Checkout, plan: Plan, o: Options, f: Faults, db: Db)
    ensures PublishedWith(db, RunFrom(Transactions(c, plan, o, f), f, db, Steps(plan), 0))
  {
    var execute := Transactions(c, plan, o, f);
    if plan.preIdentity.None? {
      assert Steps(plan) == LoopSteps(plan.pending, false);
      LoopPublishes(c, plan, o, f, db, plan.pending, false, 0);
    } else {
      if execute(db, IdentityPass).Success? {
        PassSays(c, db, plan, o, f, execute(db, IdentityPass).value);
        LoopPublishes(c, plan, o, f, execute(db, IdentityPass).value, plan.pending, true, 1);
      }
      FirstThenPublishes(execute, f, db, IdentityPass, LoopSteps(plan.pending, true));
    }
  }

  // ── The gap check makes the later list check redundant ────────────────────────────────────

  /** What is recorded, with what the loop still applies, is the snapshot's list. */
  ghost predicate Completes(c: Checkout, db: Db, files: seq<Filename>, skip: bool) {
    && db.ledger.Some?
    && db.ledger.value.Keys + (if skip then Members(files) - {IDENTITY_MIGRATION} else Members(files)) == Members(c.snapshot)
  }

  /** A first manifest's comparison that fails does so for the catalog alone, and publishes nothing. */
  ghost predicate OnlyCatalog(before: Db, out: Outcome) {
    out.stop.Some? && out.stop.value.BaselineDiffers? ==>
      out.stop.value == BaselineDiffers([], true) && out.db.manifest == before.manifest
  }

  lemma {:induction false} LoopListAgrees(c: Checkout, plan: Plan, o: Options, f: Faults, db: Db, files: seq<Filename>,
                                          skip: bool, commits: nat)
    requires plan.firstManifest ==> Completes(c, db, files, skip)
    ensures OnlyCatalog(db, RunFrom(Transactions(c, plan, o, f), f, db, LoopSteps(files, skip), commits))
    decreases files
  {
    var execute := Transactions(c, plan, o, f);
    if files == [] {
      if plan.firstManifest {
        assert Members(LedgerOf(db)) == Members(c.snapshot);
        NoDifference(c.snapshot, LedgerOf(db));
      }
    } else {
      var file := files[0];
      assert files == [file] + files[1..];
      assert Members(files) == {file} + Members(files[1..]);
      if skip && file == IDENTITY_MIGRATION {
        LoopListAgrees(c, plan, o, f, db, files[1..], skip, commits);
      } else if execute(db, Apply(file)).Success? {
        var next := execute(db, Apply(file)).value;
        assert next.ledger.value.Keys == db.ledger.value.Keys + {file};
        LoopListAgrees(c, plan, o, f, next, files[1..], skip, commits + 1);
        assert ([Apply(file)] + LoopSteps(files[1..], skip))[1..] == LoopSteps(files[1..], skip);
      }
    }
  }

  lemma FirstThenAgrees(execute: Transaction, f: Faults, db: Db, first: Tx, rest: seq<Tx>)
    requires execute(db, first).Failure? ==> !execute(db, first).error.BaselineDiffers?
    requires execute(db, first).Success? ==>
               && execute(db, first).value.manifest == db.manifest
               && OnlyCatalog(execute(db, first).value, RunFrom(execute, f, execute(db, first).value, rest, 1))
    ensures OnlyCatalog(db, RunFrom(execute, f, db, [first] + rest, 0))
  {
    assert ([first] + rest)[1..] == rest;
  }

  lemma PassNeverCompares(c: Checkout, db: Db, plan: Plan, o: Options, f: Faults)
    ensures ExecutePass(c, db, plan, o, f).Failure? ==> !ExecutePass(c, db, plan, o, f).error.BaselineDiffers?
  {
  }

  lemma StepsAgree(c: Checkout, plan: Plan, o: Options, f: Faults, db: Db)
    requires plan.firstManifest ==> Completes(c, db, plan.pending, false)
    requires plan.preIdentity.Some? ==> IDENTITY_MIGRATION in plan.pending
    ensures OnlyCatalog(db, RunFrom(Transactions(c, plan, o, f), f, db, Steps(plan), 0))
  {
    var execute := Transactions(c, plan, o, f);
    if plan.preIdentity.None? {
      assert Steps(plan) == LoopSteps(plan.pending, false);
      LoopListAgrees(c, plan, o, f, db, plan.pending, false, 0);
    } else {
      PassNeverCompares(c, db, plan, o, f);
      if execute(db, IdentityPass).Success? {
        var next := execute(db, IdentityPass).value;
        PassSays(c, db, plan, o, f, next);
        assert next.ledger.value.Keys == db.ledger.value.Keys + {IDENTITY_MIGRATION};
        LoopListAgrees(c, plan, o, f, next, plan.pending, true, 1);
      }
      FirstThenAgrees(execute, f, db, IdentityPass, LoopSteps(plan.pending, true));
    }
  }

  /** With the gap check passed and no other writer, the filename half of the baseline comparison finds
      nothing after the apply loop: only the catalog can still refuse there, and no manifest exists. */
  lemma GapMakesListRedundant(c: Checkout, db: Db, o: Options, confirmed: Option<PreIdentity>, f: Faults)
    requires c.Valid()
    ensures OnlyCatalog(db, Run(c, db, o, confirmed, f))
  {
    if f.Proven(0) && PlanRun(c, db, o, confirmed, f).Success? {
      var plan := PlanRun(c, db, o, confirmed, f).value;
      PlanCompletes(c, db, o, confirmed, f, plan);
      StepsAgree(c, plan, o, f, db);
    } else {
      PlanNeverCompares(c, db, o, confirmed, f);
    }
  }

  lemma PlanNeverCompares(c: Checkout, db: Db, o: Options, confirmed: Option<PreIdentity>, f: Faults)
    ensures PlanRun(c, db, o, confirmed, f).Failure? ==> !PlanRun(c, db, o, confirmed, f).error.BaselineDiffers?
  {
    PlanFromNeverCompares(c, db, ReadPreIdentityState(c, db, o), f);
  }

  lemma PlanFromNeverCompares(c: Checkout, db: Db, pre: Option<PreIdentity>, f: Faults)
    ensures PlanFrom(c, db, pre, f).Failure? ==> !PlanFrom(c, db, pre, f).error.BaselineDiffers?
  {
  }

  lemma PlanCompletes(c: Checkout, db: Db, o: Options, confirmed: Option<PreIdentity>, f: Faults, plan: Plan)
    requires c.Valid() && PlanRun(c, db, o, confirmed, f) == Success(plan)
    ensures plan.firstManifest ==> Completes(c, db, plan.pending, false)
    ensures plan.preIdentity.Some? ==> IDENTITY_MIGRATION in plan.pending
  {
    var pre := ReadPreIdentityState(c, db, o);
    assert PlanFrom(c, db, pre, f) == Success(plan);
    PlanCloses(c, db, pre, f, plan);
    assert db.ledger.Some?;
    assert Members(LedgerOf(db)) == db.ledger.value.Keys;
  }

  lemma PlanCloses(c: Checkout, db: Db, pre: Option<PreIdentity>, f: Faults, plan: Plan)
    requires c.Valid() && PlanFrom(c, db, pre, f) == Success(plan)
    ensures plan.preIdentity == pre && (pre.Some? ==> IDENTITY_MIGRATION in plan.pending)
    ensures plan.firstManifest ==> Members(LedgerOf(db)) + Members(plan.pending) == Members(c.snapshot)
  {
    assert plan.pending == Without(c.onDisk, Members(LedgerOf(db)));
    if plan.firstManifest {
      NoGapCloses(LedgerOf(db), c.snapshot, plan.pending, AcceptedState(pre, plan.afterPass));
    }
  }

  lemma NoGapCloses(ledger: seq<Filename>, snapshot: seq<Filename>, pending: seq<Filename>, accepted: Option<Accepted>)
    requires Sorted(snapshot) && IsPending(ledger, pending) && GapProblems(ledger, snapshot, pending, accepted) == []
    ensures Members(ledger) + Members(pending) == Members(snapshot)
  {
    NoProblems(ledger, snapshot, pending, accepted);
  }

  lemma NoDifference(snapshot: seq<Filename>, filenames: seq<Filename>)
    requires Members(snapshot) == Members(filenames)
    ensures ListDifference(snapshot, filenames) == []
  {
    EmptyIff(Without(filenames, Members(snapshot)));
    EmptyIff(Without(snapshot, Members(filenames)));
  }

  // ── Runs from a supported baseline ────────────────────────────────────────────────────────

  /** A run from any of these states leaves one of them, as many transactions further as it committed;
      it is never refused as a gap, nor for what the ledger or the manifest say. */
  lemma RunKeeps(c: Checkout, b: Release, stage: Stage, db: Db, o: Options, confirmed: Option<PreIdentity>, f: Faults)
    requires Supported(c, b) && IsAt(c, b, stage, db)
    ensures var out := Run(c, db, o, confirmed, f);
            && out.committed <= StepsAt(c, b, stage)
            && IsAt(c, b, Advance(c, b, stage, IdentityFirstKind(o.env), |out.committed|), out.db)
            && (out.stop.None? ==> Finished(c, b, |LaterOf(c, b)|, out.db))
            && (out.stop.Some? && FromPlanning(out.stop.value) ==> out.stop == Some(LockLost(0)) || AboutTheRun(out.stop.value))
  {
    if f.Proven(0) {
      var planned := PlanRun(c, db, o, confirmed, f);
      if planned.Failure? {
        PlanNeverRefusesTheState(c, b, stage, db, o, confirmed, f);
      } else {
        PlanSays(c, db, o, confirmed, f, planned.value);
        PlansAt(c, b, stage, db, o, planned.value);
        RunFromKeeps(c, b, stage, db, planned.value, o, f, 0);
        StepsStop(c, planned.value, o, f, db);
      }
    }
  }

  /** One run somebody started: how it was asked for, what it had confirmed, and what went wrong around it. */
  datatype Attempt = Attempt(o: Options, confirmed: Option<PreIdentity>, f: Faults)

  /** The database after the attempts, one after the other. */
  function RunAll(c: Checkout, db: Db, attempts: seq<Attempt>): Db
    decreases |attempts|
  {
    if attempts == [] then db
    else
      var before := RunAll(c, db, attempts[..|attempts| - 1]);
      var last := attempts[|attempts| - 1];
      Run(c, before, last.o, last.confirmed, last.f).db
  }

  /** However many runs are killed, and wherever, the database is one of these states. */
  lemma {:induction false} RunAllKeeps(c: Checkout, b: Release, db: Db, attempts: seq<Attempt>) returns (stage: Stage)
    requires Supported(c, b) && IsAt(c, b, Untouched, db)
    ensures IsAt(c, b, stage, RunAll(c, db, attempts))
    decreases |attempts|
  {
    if attempts == [] {
      stage := Untouched;
    } else {
      var last := attempts[|attempts| - 1];
      var earlier := attempts[..|attempts| - 1];
      stage := RunAllKeeps(c, b, db, earlier);
      var before := RunAll(c, db, earlier);
      RunKeeps(c, b, stage, before, last.o, last.confirmed, last.f);
      stage := Advance(c, b, stage, IdentityFirstKind(last.o.env), |Run(c, before, last.o, last.confirmed, last.f).committed|);
    }
  }

  /** Nothing goes wrong around the run, except that it may be killed. */
  ghost predicate Undisturbed(f: Faults) {
    f.sessionIsOwner && f.postStateHolds && f.headerless == {} && f.failing == {} && f.catalogMatches && f.lockLostAt == None
  }

  /** A run the gates admit, on the state it confirmed. */
  ghost predicate MayRun(c: Checkout, db: Db, o: Options, confirmed: Option<PreIdentity>) {
    CheckMigrateGates(c, db, o) == [] && confirmed == ReadPreIdentityState(c, db, o)
  }

  /** The plan a run of these options makes at this stage. */
  ghost predicate PlanFits(b: Release, stage: Stage, o: Options, plan: Plan) {
    stage.Untouched? ==> plan.preIdentity == Some(PreIdentity(b.name, b.migrations)) && o.env != EnvUnset
  }

  lemma NextCommits(c: Checkout, b: Release, stage: Stage, db: Db, plan: Plan, o: Options, f: Faults)
    requires Supported(c, b) && IsAt(c, b, stage, db) && Undisturbed(f) && PlanFits(b, stage, o, plan)
    ensures Execute(c, db, plan, o, f, StepsAt(c, b, stage)[0]).Success?
  {
    match stage
    case Untouched =>
      ReadsBaseline(c, b, db);
      BaselineFacts(c, b);
      PassCommits(c, db, plan, o, f);
    case Passed(kind, n) =>
      if n == |LaterOf(c, b)| {
        WholeList(c, b, stage, db);
        PublishCommits(c, db, plan, f);
      } else {
        NextIsNew(c, b, kind, n, db);
        ApplyCommits(db, LaterOf(c, b)[n], f);
      }
  }

  lemma PublishCommits(c: Checkout, db: Db, plan: Plan, f: Faults)
    requires LedgerOf(db) == c.snapshot && f.catalogMatches
    ensures ExecutePublish(c, db, plan, f).Success?
  {
    NoDifference(c.snapshot, c.snapshot);
  }

  lemma ApplyCommits(db: Db, file: Filename, f: Faults)
    requires db.ledger.Some? && file !in db.ledger.value && file != IDENTITY_MIGRATION && file !in f.failing
    ensures ExecuteApply(db, file, f).Success?
  {
  }

  lemma NextIsNew(c: Checkout, b: Release, kind: Kind, n: nat, db: Db)
    requires Supported(c, b) && IsAt(c, b, Passed(kind, n), db) && n < |LaterOf(c, b)|
    ensures LaterOf(c, b)[n] !in db.ledger.value && LaterOf(c, b)[n] != IDENTITY_MIGRATION
  {
    var later := LaterOf(c, b);
    AppliedFacts(c, b, n);
    assert later[n] in Members(later);
    assert forall i :: 0 <= i < n ==> later[..n][i] == later[i];
    assert later[n] !in db.ledger.value.Keys;
  }

  lemma PassCommits(c: Checkout, db: Db, plan: Plan, o: Options, f: Faults)
    requires ReadPreIdentityLedger(c, db).Some? && ReadPreIdentityLedger(c, db) == plan.preIdentity
    requires db.ledger.Some? && IDENTITY_MIGRATION !in db.ledger.value && o.env != EnvUnset && Undisturbed(f)
    ensures ExecutePass(c, db, plan, o, f).Success?
  {
  }

  /** How many of `todo` steps a run commits that is killed, if at all, after `f.killAfter` of them. */
  function CommitsBefore(f: Faults, commits: nat, todo: nat): nat {
    if f.killAfter.Some? && commits < f.killAfter.value <= commits + todo then f.killAfter.value - commits else todo
  }

  ghost predicate Goes(f: Faults, commits: nat, steps: nat, out: Outcome) {
    |out.committed| == CommitsBefore(f, commits, steps) && (f.killAfter == None ==> out.stop == None)
  }

  lemma {:induction false} RunFromGoes(c: Checkout, b: Release, stage: Stage, db: Db, plan: Plan, o: Options, f: Faults,
                                       commits: nat)
    requires Supported(c, b) && IsAt(c, b, stage, db) && Undisturbed(f) && PlanFits(b, stage, o, plan)
    ensures Goes(f, commits, |StepsAt(c, b, stage)|,
                 RunFrom(Transactions(c, plan, o, f), f, db, StepsAt(c, b, stage), commits))
    decreases |StepsAt(c, b, stage)|
  {
    var todo := StepsAt(c, b, stage);
    var execute := Transactions(c, plan, o, f);
    NextCommits(c, b, stage, db, plan, o, f);
    var next := execute(db, todo[0]).value;
    OneCommit(c, b, stage, db, plan, o, f, next);
    if todo[0] != Publish {
      RunFromGoes(c, b, Advance(c, b, stage, IdentityFirstKind(o.env), 1), next, plan, o, f, commits + 1);
    }
    GoesOneMore(execute, f, db, todo, commits);
  }

  lemma GoesOneMore(execute: Transaction, f: Faults, db: Db, todo: seq<Tx>, commits: nat)
    requires todo != [] && f.lockLostAt == None && execute(db, todo[0]).Success?
    requires |todo| > 1 ==> Goes(f, commits + 1, |todo[1..]|, RunFrom(execute, f, execute(db, todo[0]).value, todo[1..], commits + 1))
    ensures Goes(f, commits, |todo|, RunFrom(execute, f, db, todo, commits))
  {
  }

  /** An undisturbed run that may run commits all its steps, or exactly the steps before its kill. */
  lemma RunGoes(c: Checkout, b: Release, stage: Stage, db: Db, o: Options, confirmed: Option<PreIdentity>, f: Faults)
    requires Supported(c, b) && IsAt(c, b, stage, db) && Undisturbed(f) && MayRun(c, db, o, confirmed)
    ensures var out := Run(c, db, o, confirmed, f);
            && |out.committed| == CommitsBefore(f, 0, |StepsAt(c, b, stage)|)
            && (f.killAfter == None ==> out.stop == None)
  {
    PlanNeverRefusesTheState(c, b, stage, db, o, confirmed, f);
    PlanGoes(c, db, o, confirmed, f);
    var plan := PlanRun(c, db, o, confirmed, f).value;
    PlanSays(c, db, o, confirmed, f, plan);
    PlansAt(c, b, stage, db, o, plan);
    RunFromGoes(c, b, stage, db, plan, o, f, 0);
  }

  lemma PlanGoes(c: Checkout, db: Db, o: Options, confirmed: Option<PreIdentity>, f: Faults)
    requires Undisturbed(f) && MayRun(c, db, o, confirmed)
    ensures PlanRun(c, db, o, confirmed, f).Failure? ==> !AboutTheRun(PlanRun(c, db, o, confirmed, f).error)
  {
  }

  /** The ledger is the snapshot's list, one identity row exists, and the manifest is over that list, with
      the snapshot's grants. */
  ghost predicate Converged(c: Checkout, db: Db) {
    && LedgerOf(db) == c.snapshot
    && (db.identity == Rows([Enrolled(Production)]) || db.identity == Rows([Enrolled(Rehearsal)]))
    && db.manifest == Some(Manifest(true, true, c.snapshot))
    && db.grants == AsSnapshot
  }

  lemma Converges(c: Checkout, b: Release, stage: Stage, db: Db, o: Options, confirmed: Option<PreIdentity>, f: Faults)
    requires Supported(c, b) && IsAt(c, b, stage, db)
    requires Undisturbed(f) && f.killAfter == None && MayRun(c, db, o, confirmed)
    ensures Run(c, db, o, confirmed, f).stop == None && Converged(c, Run(c, db, o, confirmed, f).db)
  {
    RunGoes(c, b, stage, db, o, confirmed, f);
    RunKeeps(c, b, stage, db, o, confirmed, f);
    var out := Run(c, db, o, confirmed, f);
    CompletedConverged(c, b, Advance(c, b, stage, IdentityFirstKind(o.env), |out.committed|), out);
  }

  lemma CompletedConverged(c: Checkout, b: Release, end: Stage, out: Outcome)
    requires Supported(c, b) && IsAt(c, b, end, out.db) && out.db.manifest.Some?
    ensures Converged(c, out.db)
  {
    FinishedIsWhole(c, b, end, out.db);
    assert end.kind == Production || end.kind == Rehearsal;
  }

  /** Crash convergence, first half. From a supported baseline with no identity table, after any number of
      runs, each killed or refused or failed wherever it was, the next one is never refused as a gap, nor
      for what the ledger or the manifest say. */
  lemma NextRunIsNoGap(c: Checkout, b: Release, start: Db, attempts: seq<Attempt>, next: Attempt)
    requires Supported(c, b) && IsAt(c, b, Untouched, start)
    ensures var out := Run(c, RunAll(c, start, attempts), next.o, next.confirmed, next.f);
            out.stop.Some? && FromPlanning(out.stop.value) ==> out.stop == Some(LockLost(0)) || AboutTheRun(out.stop.value)
  {
    var stage := RunAllKeeps(c, b, start, attempts);
    RunKeeps(c, b, stage, RunAll(c, start, attempts), next.o, next.confirmed, next.f);
  }

  /** Crash convergence, second half: an undisturbed next run that may run ends the whole migration. */
  lemma CrashConvergence(c: Checkout, b: Release, start: Db, attempts: seq<Attempt>, next: Attempt)
    requires Supported(c, b) && IsAt(c, b, Untouched, start)
    requires Undisturbed(next.f) && next.f.killAfter == None
    requires MayRun(c, RunAll(c, start, attempts), next.o, next.confirmed)
    ensures var out := Run(c, RunAll(c, start, attempts), next.o, next.confirmed, next.f);
            out.stop == None && Converged(c, out.db)
  {
    var stage := RunAllKeeps(c, b, start, attempts);
    Converges(c, b, stage, RunAll(c, start, attempts), next.o, next.confirmed, next.f);
  }

  lemma FinishedIsWhole(c: Checkout, b: Release, stage: Stage, db: Db)
    requires Supported(c, b) && IsAt(c, b, stage, db) && db.manifest.Some?
    ensures LedgerOf(db) == c.snapshot && db.manifest == Some(Manifest(true, true, c.snapshot)) && db.grants == AsSnapshot
    ensures stage.Passed? && db.identity == Rows([Enrolled(stage.kind)])
  {
    WholeList(c, b, stage, db);
  }

  // ── Accepted ledgers are exactly those a killed run leaves ────────────────────────────────

  /** Nothing goes wrong but a kill right after `commits` commits. */
  function KilledAt(commits: nat): Faults {
    Faults(true, true, {}, {}, true, None, Some(commits))
  }

  /** The database a run from `start` leaves when it is killed after the pass and `n` later files. */
  function LeftByKill(c: Checkout, b: Release, start: Db, o: Options, n: nat): Db {
    Run(c, start, o, Some(PreIdentity(b.name, b.migrations)), KilledAt(n + 1)).db
  }

  lemma MayTakeThePass(c: Checkout, b: Release, start: Db, o: Options)
    requires Supported(c, b) && IsAt(c, b, Untouched, start)
    requires o.caller == Operator && o.connection == Remote && o.env != EnvUnset
    ensures MayRun(c, start, o, Some(PreIdentity(b.name, b.migrations)))
  {
    ReadsBaseline(c, b, start);
    GatesAdmit(c, start, o);
  }

  lemma KillLeaves(c: Checkout, b: Release, start: Db, o: Options, confirmed: Option<PreIdentity>, f: Faults, n: nat)
    requires Supported(c, b) && IsAt(c, b, Untouched, start) && n <= |LaterOf(c, b)|
    requires MayRun(c, start, o, confirmed) && Undisturbed(f) && f.killAfter == Some(n + 1)
    ensures LedgerOf(Run(c, start, o, confirmed, f).db) == PassLedger(b.migrations, LaterOf(c, b)[..n])
    ensures Run(c, start, o, confirmed, f).db.identity == Rows([Enrolled(IdentityFirstKind(o.env))])
  {
    RunGoes(c, b, Untouched, start, o, confirmed, f);
    RunKeeps(c, b, Untouched, start, o, confirmed, f);
    KilledHere(c, b, IdentityFirstKind(o.env), n, f, Run(c, start, o, confirmed, f));
  }

  lemma KilledHere(c: Checkout, b: Release, kind: Kind, n: nat, f: Faults, out: Outcome)
    requires Supported(c, b) && n <= |LaterOf(c, b)| && f.killAfter == Some(n + 1)
    requires |out.committed| == CommitsBefore(f, 0, |StepsAt(c, b, Untouched)|)
    requires IsAt(c, b, Advance(c, b, Untouched, kind, |out.committed|), out.db)
    ensures LedgerOf(out.db) == PassLedger(b.migrations, LaterOf(c, b)[..n]) && out.db.identity == Rows([Enrolled(kind)])
  {
    LoopLength(LaterOf(c, b));
    LeftAt(c, b, kind, n, out.db);
  }

  lemma LeftAt(c: Checkout, b: Release, kind: Kind, n: nat, db: Db)
    requires Supported(c, b) && IsAt(c, b, Passed(kind, n), db)
    ensures LedgerOf(db) == PassLedger(b.migrations, LaterOf(c, b)[..n]) && db.identity == Rows([Enrolled(kind)])
  {
    RecoversPassState(c, b, kind, n, db);
  }

  lemma {:induction false} LoopLength(files: seq<Filename>)
    ensures |LoopSteps(files, false)| == |files| + 1
  {
    if files != [] { LoopLength(files[1..]); }
  }

  /** A database that reads as the remainder of a pass from `b` passes the gap check exactly when some run
      from that baseline, killed right after one of its commits, leaves that very ledger. */
  lemma AcceptedIffKilledRunLeavesIt(c: Checkout, b: Release, start: Db, o: Options, db: Db, r: Remainder)
    requires Supported(c, b) && IsAt(c, b, Untouched, start)
    requires o.caller == Operator && o.connection == Remote && o.env != EnvUnset
    requires r.baseline == b.migrations && ReadIdentityPassRemainder(c, db) == Some(r)
    ensures var pending := Without(c.onDisk, Members(LedgerOf(db)));
            var problems := GapProblems(LedgerOf(db), c.snapshot, pending, Some(Accepted(r.baseline, r.appliedAfter)));
            problems == [] <==>
              exists n: nat :: n <= |LaterOf(c, b)| && LedgerOf(db) == LedgerOf(LeftByKill(c, b, start, o, n))
  {
    PassesIffPrefix(c, b, db, r);
    RemainderMeans(c, db, r);
    SomeKillLeavesIt(c, b, start, o, r.appliedAfter);
  }

  lemma SomeKillLeavesIt(c: Checkout, b: Release, start: Db, o: Options, after: seq<Filename>)
    requires Supported(c, b) && IsAt(c, b, Untouched, start)
    requires o.caller == Operator && o.connection == Remote && o.env != EnvUnset
    requires Sorted(after) && IDENTITY_MIGRATION !in after && Members(b.migrations) !! Members(after)
    ensures after <= LaterOf(c, b) <==>
            exists n: nat :: n <= |LaterOf(c, b)| && PassLedger(b.migrations, after) == LedgerOf(LeftByKill(c, b, start, o, n))
  {
    forall n: nat | n <= |LaterOf(c, b)|
      ensures LedgerOf(LeftByKill(c, b, start, o, n)) == PassLedger(b.migrations, LaterOf(c, b)[..n])
    {
      LeftByKillIs(c, b, start, o, n);
    }
    SomeKillLeaves(c, b, after, (n: nat) => LedgerOf(LeftByKill(c, b, start, o, n)));
  }

  lemma LeftByKillIs(c: Checkout, b: Release, start: Db, o: Options, n: nat)
    requires Supported(c, b) && IsAt(c, b, Untouched, start) && n <= |LaterOf(c, b)|
    requires o.caller == Operator && o.connection == Remote && o.env != EnvUnset
    ensures LedgerOf(LeftByKill(c, b, start, o, n)) == PassLedger(b.migrations, LaterOf(c, b)[..n])
  {
    MayTakeThePass(c, b, start, o);
    KillLeaves(c, b, start, o, Some(PreIdentity(b.name, b.migrations)), KilledAt(n + 1), n);
  }

  lemma SomeKillLeaves(c: Checkout, b: Release, after: seq<Filename>, left: nat -> seq<Filename>)
    requires Supported(c, b)
    requires Sorted(after) && IDENTITY_MIGRATION !in after && Members(b.migrations) !! Members(after)
    requires forall n: nat :: n <= |LaterOf(c, b)| ==> left(n) == PassLedger(b.migrations, LaterOf(c, b)[..n])
    ensures after <= LaterOf(c, b) <==> exists n: nat :: n <= |LaterOf(c, b)| && PassLedger(b.migrations, after) == left(n)
  {
    var later := LaterOf(c, b);
    forall n: nat | n <= |later|
      ensures PassLedger(b.migrations, after) == left(n) <==> after == later[..n]
    {
      SamePassLedger(c, b, after, n);
    }
    if after <= later {
      assert later[..|after|] == after && PassLedger(b.migrations, after) == left(|after|);
    }
  }

  lemma SamePassLedger(c: Checkout, b: Release, after: seq<Filename>, n: nat)
    requires Supported(c, b) && n <= |LaterOf(c, b)|
    requires Sorted(after) && IDENTITY_MIGRATION !in after && Members(b.migrations) !! Members(after)
    ensures PassLedger(b.migrations, after) == PassLedger(b.migrations, LaterOf(c, b)[..n]) <==> after == LaterOf(c, b)[..n]
  {
    AppliedFacts(c, b, n);
    var left := LaterOf(c, b)[..n];
    if PassLedger(b.migrations, after) == PassLedger(b.migrations, left) {
      var all := Members(PassLedger(b.migrations, after));
      assert Members(after) == all - Members(b.migrations) - {IDENTITY_MIGRATION};
      assert Members(left) == all - Members(b.migrations) - {IDENTITY_MIGRATION};
      SortedUnique(after, left);
    }
  }

  // ── The identity row ──────────────────────────────────────────────────────────────────────

  /** In every state runs from a baseline leave, 0081 is recorded exactly when exactly one identity row exists. */
  lemma IdentityIsAtomic(c: Checkout, b: Release, start: Db, attempts: seq<Attempt>)
    requires Supported(c, b) && IsAt(c, b, Untouched, start)
    ensures var db := RunAll(c, start, attempts);
            && db.ledger.Some?
            && (IDENTITY_MIGRATION in db.ledger.value <==> db.identity.Rows?)
            && (db.identity.Rows? ==> |db.identity.rows| == 1 && db.identity.rows[0].Enrolled?)
  {
    var stage := RunAllKeeps(c, b, start, attempts);
    BaselineFacts(c, b);
    var db := RunAll(c, start, attempts);
    assert IDENTITY_MIGRATION in db.ledger.value.Keys <==> stage.Passed?;
  }

  /** No run changes a row it finds, and the run that writes one writes its own policy's: production under
      prod, rehearsal under stage. */
  lemma RowIsThePolicys(c: Checkout, b: Release, start: Db, attempts: seq<Attempt>, next: Attempt)
    requires Supported(c, b) && IsAt(c, b, Untouched, start)
    ensures var before := RunAll(c, start, attempts).identity;
            var after := RunAll(c, start, attempts + [next]).identity;
            after == before || (before == NoTable && after == Rows([Enrolled(if next.o.env == Prod then Production else Rehearsal)])
                                && next.o.env != EnvUnset)
  {
    var stage := RunAllKeeps(c, b, start, attempts);
    assert (attempts + [next])[..|attempts|] == attempts;
    var db := RunAll(c, start, attempts);
    RunKeeps(c, b, stage, db, next.o, next.confirmed, next.f);
    if stage.Untouched? && next.o.env == EnvUnset {
      GatesAdmit(c, db, next.o);
    }
  }
}
