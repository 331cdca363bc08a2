/** What runs from a supported baseline do, killed or not: every transaction keeps the states of
    MigrateStates, a kill lands exactly where the commit count says, and an undisturbed run finishes. */
module MigrateProgress {
  import opened Filenames
  import opened Wrappers
  import opened MigrateTarget
  import opened BaselineGap
  import opened MigrateRun
  import opened MigrateStates

  /** The transactions a run planned at `stage` still has to commit. */
  function StepsAt(c: Checkout, b: Release, stage: Stage): seq<Tx>
    requires stage.Passed? ==> stage.applied <= |LaterOf(c, b)|
  {
    match stage
    case Untouched => [IdentityPass] + LoopSteps(LaterOf(c, b), false)
    case Passed(_, n) => LoopSteps(LaterOf(c, b)[n..], false)
  }

  /** Skipping 0081 in the loop leaves the steps of the list without it. */
  lemma {:induction false} SkippingIdentity(files: seq<Filename>)
    ensures LoopSteps(files, true) == LoopSteps(Without(files, {IDENTITY_MIGRATION}), false)
  {
    if files != [] {
      SkippingIdentity(files[1..]);
    }
  }

  // ── Planning ──────────────────────────────────────────────────────────────────────────────

  /** What a plan says about the state it was made on. */
  ghost predicate PlannedOn(c: Checkout, db: Db, o: Options, plan: Plan) {
    && Admitted(c, db, o)
    && plan.preIdentity == ReadPreIdentityState(c, db, o)
    && plan.pending == Without(c.onDisk, Members(LedgerOf(db)))
    && plan.firstManifest == (db.manifest == None)
  }

  lemma PlanSays(c: Checkout, db: Db, o: Options, confirmed: Option<PreIdentity>, f: Faults, plan: Plan)
    requires PlanRun(c, db, o, confirmed, f) == Success(plan)
    ensures PlannedOn(c, db, o, plan)
    ensures confirmed == plan.preIdentity
  {
    GatesAdmit(c, db, o);
  }

  lemma AdmittedReads(c: Checkout, db: Db, o: Options)
    requires Admitted(c, db, o)
    ensures db.identity == NoTable ==> ReadPreIdentityState(c, db, o) == ReadPreIdentityLedger(c, db)
    ensures db.identity.Rows? ==> ReadPreIdentityState(c, db, o) == None
  {
  }

  /** A plan made at a stage applies what that stage leaves, and takes the pass exactly when no run has;
      it is made only under the policy that wrote the identity row. */
  lemma PlansAt(c: Checkout, b: Release, stage: Stage, db: Db, o: Options, plan: Plan)
    requires Supported(c, b) && IsAt(c, b, stage, db) && PlannedOn(c, db, o, plan)
    ensures Steps(plan) == StepsAt(c, b, stage)
    ensures stage.Untouched? ==> plan.preIdentity == Some(PreIdentity(b.name, b.migrations)) && o.env != EnvUnset
    ensures stage.Passed? ==> plan.preIdentity == None && (stage.kind == Production <==> o.env == Prod)
  {
    PendingIs(c, b, stage, db);
    ReadsAsTheStage(c, b, stage, db, o);
    if stage.Untouched? { StepsWithPass(c, b, plan); } else { StepsWithout(plan); }
    PolicyOfTheStage(c, b, stage, db, o);
  }

  lemma StepsWithout(plan: Plan)
    requires plan.preIdentity == None
    ensures Steps(plan) == LoopSteps(plan.pending, false)
  {
    assert [] + LoopSteps(plan.pending, false) == LoopSteps(plan.pending, false);
  }

  lemma PolicyOfTheStage(c: Checkout, b: Release, stage: Stage, db: Db, o: Options)
    requires IsAt(c, b, stage, db) && Admitted(c, db, o)
    ensures stage.Untouched? ==> o.env != EnvUnset
    ensures stage.Passed? ==> (stage.kind == Production <==> o.env == Prod)
  {
    AdmittedReads(c, db, o);
    if stage.Passed? { assert Rows([Enrolled(stage.kind)]).rows[0] == Enrolled(stage.kind); }
  }

  lemma StepsWithPass(c: Checkout, b: Release, plan: Plan)
    requires Supported(c, b) && plan.preIdentity.Some? && plan.pending == Without(c.snapshot, Members(b.migrations))
    ensures Steps(plan) == StepsAt(c, b, Untouched)
  {
    BaselineFacts(c, b);
    SkippingIdentity(plan.pending);
    SortedUnique(Without(plan.pending, {IDENTITY_MIGRATION}), LaterOf(c, b));
  }

  /** The refusals that judge the session, the policy and the files, not the state of the ledger. */
  predicate AboutTheRun(why: Refusal) {
    why.NotOwner? || why.Gates? || why.PreIdentityUnconfirmed? || why.PostStateFails? || why.Headerless?
  }

  lemma PlanFails(c: Checkout, db: Db, pre: Option<PreIdentity>, f: Faults, pending: seq<Filename>)
    requires Without(LedgerOf(db), Members(c.onDisk)) == [] && pending == Without(c.onDisk, Members(LedgerOf(db)))
    requires !DetectManifestState(db).UnknownFormat? && !DetectManifestState(db).Inconsistent?
    requires pre.Some? ==> IDENTITY_MIGRATION in pending
    requires DetectManifestState(db) == Absent ==>
               GapProblems(LedgerOf(db), c.snapshot, pending, AcceptedState(pre, AfterPass(c, db, pre))) == []
    ensures var planned := PlanFrom(c, db, pre, f);
            planned.Failure? ==> planned.error.PostStateFails? || planned.error.Headerless?
  {
  }

  lemma AfterPassReads(c: Checkout, db: Db)
    ensures AfterPass(c, db, None) == if DetectManifestState(db) == Absent then ReadIdentityPassRemainder(c, db) else None
  {
  }

  /** A run at any of these stages is never refused as a gap, nor for what its ledger or manifest say. */
  lemma PlanNeverRefusesTheState(c: Checkout, b: Release, stage: Stage, db: Db, o: Options, confirmed: Option<PreIdentity>,
                                 f: Faults)
    requires Supported(c, b) && IsAt(c, b, stage, db)
    ensures PlanRun(c, db, o, confirmed, f).Failure? ==> AboutTheRun(PlanRun(c, db, o, confirmed, f).error)
  {
    GatesAdmit(c, db, o);
    if Admit(c, db, o, confirmed, f) == None {
      var pre := ReadPreIdentityState(c, db, o);
      ReadsAsTheStage(c, b, stage, db, o);
      PlanFromNeverRefuses(c, b, stage, db, pre, f);
    }
  }

  /** An admitted run reads its stage's pre-identity state: the baseline's before the pass, none after it. */
  lemma ReadsAsTheStage(c: Checkout, b: Release, stage: Stage, db: Db, o: Options)
    requires Supported(c, b) && IsAt(c, b, stage, db) && Admitted(c, db, o)
    ensures ReadPreIdentityState(c, db, o) == if stage.Untouched? then Some(PreIdentity(b.name, b.migrations)) else None
  {
    AdmittedReads(c, db, o);
    if stage.Untouched? { ReadsBaseline(c, b, db); }
  }

  lemma PlanFromNeverRefuses(c: Checkout, b: Release, stage: Stage, db: Db, pre: Option<PreIdentity>, f: Faults)
    requires Supported(c, b) && IsAt(c, b, stage, db)
    requires pre == if stage.Untouched? then Some(PreIdentity(b.name, b.migrations)) else None
    ensures var planned := PlanFrom(c, db, pre, f); planned.Failure? ==> AboutTheRun(planned.error)
  {
    NoGapHere(c, b, stage, db, pre);
    PendingIs(c, b, stage, db);
    ManifestReadAt(c, b, stage, db);
    PlanFails(c, db, pre, f, PendingAt(c, b, stage));
  }

  /** The state a run reads here is one the gap check accepts. */
  lemma NoGapHere(c: Checkout, b: Release, stage: Stage, db: Db, pre: Option<PreIdentity>)
    requires Supported(c, b) && IsAt(c, b, stage, db)
    requires pre == if stage.Untouched? then Some(PreIdentity(b.name, b.migrations)) else None
    ensures pre.Some? ==> IDENTITY_MIGRATION in PendingAt(c, b, stage)
    ensures DetectManifestState(db) == Absent ==>
              GapProblems(LedgerOf(db), c.snapshot, PendingAt(c, b, stage), AcceptedState(pre, AfterPass(c, db, pre))) == []
  {
    NeverAGap(c, b, stage, db);
    BaselineFacts(c, b);
    AfterPassReads(c, db);
    if stage.Passed? { RecoversPassState(c, b, stage.kind, stage.applied, db); }
    assert stage.Untouched? ==> IDENTITY_MIGRATION in Members(PendingAt(c, b, stage));
  }

  lemma ManifestReadAt(c: Checkout, b: Release, stage: Stage, db: Db)
    requires Supported(c, b) && IsAt(c, b, stage, db)
    ensures !DetectManifestState(db).UnknownFormat? && !DetectManifestState(db).Inconsistent?
    ensures DetectManifestState(db) == Absent <==> db.manifest == None
  {
    if db.manifest.Some? {
      WholeList(c, b, stage, db);
    }
  }

  /** With everything applied, the ledger is the snapshot's list. */
  lemma WholeList(c: Checkout, b: Release, stage: Stage, db: Db)
    requires Supported(c, b) && IsAt(c, b, stage, db)
    requires stage.Passed? && stage.applied == |LaterOf(c, b)|
    ensures LedgerOf(db) == c.snapshot
  {
    BaselineFacts(c, b);
    var later := LaterOf(c, b);
    assert later[..|later|] == later;
    SortedUnique(LedgerOf(db), c.snapshot);
  }

  // ── One transaction ───────────────────────────────────────────────────────────────────────

  lemma PassSays(c: Checkout, db: Db, plan: Plan, o: Options, f: Faults, next: Db)
    requires ExecutePass(c, db, plan, o, f) == Success(next)
    ensures db.ledger.Some? && IDENTITY_MIGRATION !in db.ledger.value
    ensures next == Record(db, IDENTITY_MIGRATION).(identity := Rows([Enrolled(IdentityFirstKind(o.env))]))
  {
  }

  lemma PassAt(c: Checkout, b: Release, kind: Kind, db: Db, next: Db)
    requires Supported(c, b) && IsAt(c, b, Untouched, db)
    requires next == Record(db, IDENTITY_MIGRATION).(identity := Rows([Enrolled(kind)]))
    ensures IsAt(c, b, Passed(kind, 0), next)
  {
    AppliedFacts(c, b, 0);
    var later := LaterOf(c, b);
    var at, at' := db.ledger.value, next.ledger.value;
    assert later[..0] == [];
    assert at'.Keys == Members(b.migrations) + {IDENTITY_MIGRATION} + Members(later[..0]);
    assert forall f :: f in b.migrations ==> f in Members(b.migrations);
  }

  /** Once a pass has committed, no pass commits again. */
  lemma PassOnce(c: Checkout, b: Release, stage: Stage, db: Db, plan: Plan, o: Options, f: Faults)
    requires Supported(c, b) && IsAt(c, b, stage, db) && stage.Passed?
    ensures ExecutePass(c, db, plan, o, f).Failure?
  {
  }

  /** A later file commits only as the next one: one already recorded conflicts with its own row. */
  lemma ApplyAt(c: Checkout, b: Release, kind: Kind, n: nat, m: nat, db: Db, f: Faults, next: Db)
    requires Supported(c, b) && IsAt(c, b, Passed(kind, n), db)
    requires m <= n && m < |LaterOf(c, b)|
    requires ExecuteApply(db, LaterOf(c, b)[m], f) == Success(next)
    ensures m == n && IsAt(c, b, Passed(kind, n + 1), next)
  {
    var later := LaterOf(c, b);
    var file := later[m];
    AppliedFacts(c, b, n);
    assert file in Members(later) && file != IDENTITY_MIGRATION;
    assert m == n by {
      assert forall i :: 0 <= i < n ==> later[..n][i] == later[i] && later[i] in Members(later[..n]);
    }
    OneMore(c, b, kind, n, db, next);
  }

  lemma OneMore(c: Checkout, b: Release, kind: Kind, n: nat, db: Db, next: Db)
    requires Supported(c, b) && IsAt(c, b, Passed(kind, n), db) && n < |LaterOf(c, b)|
    requires LaterOf(c, b)[n] !in db.ledger.value && next == Record(db, LaterOf(c, b)[n])
    ensures IsAt(c, b, Passed(kind, n + 1), next)
  {
    BaselineFacts(c, b);
    NextRow(db.ledger.value, Members(b.migrations), LaterOf(c, b), n, db.clock);
  }

  lemma NextRow(at: map<Filename, int>, base: set<Filename>, later: seq<Filename>, n: nat, time: int)
    requires n < |later| && PassedRows(at, base, later, n)
    requires later[n] !in at && forall f :: f in at ==> at[f] < time
    ensures PassedRows(at[later[n] := time], base, later, n + 1)
  {
    OneMoreMember(later, n);
    OlderRows(at, later[n], time);
    NextSides(at, at[later[n] := time], base, Members(later[..n]), later[n]);
    NextOrder(at, at[later[n] := time], later, n);
  }

  /** The new row is after 0081's, and the old ones are where they were. */
  lemma NextSides(at: map<Filename, int>, next: map<Filename, int>, base: set<Filename>, after: set<Filename>, file: Filename)
    requires at.Keys == base + {IDENTITY_MIGRATION} + after && next.Keys == at.Keys + {file}
    requires forall f :: f in base ==> at[f] < at[IDENTITY_MIGRATION]
    requires forall f :: f in after ==> at[IDENTITY_MIGRATION] < at[f]
    requires forall f :: f in at.Keys ==> f in next && next[f] == at[f] < next[file]
    ensures next.Keys == base + {IDENTITY_MIGRATION} + (after + {file})
    ensures forall f :: f in base ==> next[f] < next[IDENTITY_MIGRATION]
    ensures forall f :: f in after + {file} ==> next[IDENTITY_MIGRATION] < next[f]
  {
    assert IDENTITY_MIGRATION in at.Keys;
    assert forall f :: f in base || f in after ==> f in at.Keys;
  }

  lemma NextOrder(at: map<Filename, int>, next: map<Filename, int>, later: seq<Filename>, n: nat)
    requires n < |later| && (forall i :: 0 <= i < n ==> later[i] in at.Keys) && later[n] in next
    requires forall i, j :: 0 <= i < j < n ==> at[later[i]] < at[later[j]]
    requires forall f :: f in at.Keys ==> f in next && next[f] == at[f] < next[later[n]]
    ensures forall i :: 0 <= i <= n ==> later[i] in next
    ensures forall i, j :: 0 <= i < j < n + 1 ==> next[later[i]] < next[later[j]]
  {
    forall i | 0 <= i < n ensures later[i] in next && next[later[i]] == at[later[i]] < next[later[n]] {
      var f := later[i];
      assert f in at.Keys;
      assert f in next && next[f] == at[f];
    }
  }

  lemma OlderRows(at: map<Filename, int>, file: Filename, time: int)
    requires file !in at && forall f :: f in at ==> at[f] < time
    ensures at[file := time].Keys == at.Keys + {file}
    ensures forall f :: f in at.Keys ==> f in at[file := time] && at[file := time][f] == at[f] < at[file := time][file]
  {
    assert forall f :: f in at.Keys ==> f in at && at[f] < time;
  }

  lemma OneMoreMember(later: seq<Filename>, n: nat)
    requires n < |later|
    ensures Members(later[..n + 1]) == Members(later[..n]) + {later[n]}
    ensures forall i :: 0 <= i < n ==> later[i] in Members(later[..n])
  {
    assert later[..n + 1] == later[..n] + [later[n]];
    assert forall i :: 0 <= i < n ==> later[..n][i] == later[i];
  }

  /** The publish of a finished ledger: the manifest is over the snapshot's list, with its grants. */
  lemma PublishAt(c: Checkout, b: Release, kind: Kind, db: Db, plan: Plan, f: Faults, next: Db)
    requires Supported(c, b) && IsAt(c, b, Passed(kind, |LaterOf(c, b)|), db)
    requires ExecutePublish(c, db, plan, f) == Success(next)
    ensures IsAt(c, b, Passed(kind, |LaterOf(c, b)|), next) && Finished(c, b, |LaterOf(c, b)|, next)
  {
    WholeList(c, b, Passed(kind, |LaterOf(c, b)|), db);
    PublishSays(c, db, plan, f, next);
    StillAt(c, b, kind, db, next);
  }

  lemma PublishSays(c: Checkout, db: Db, plan: Plan, f: Faults, next: Db)
    requires ExecutePublish(c, db, plan, f) == Success(next)
    ensures next == db.(manifest := Some(Manifest(true, true, LedgerOf(db))), grants := AsSnapshot, clock := db.clock + 1)
  {
  }

  lemma StillAt(c: Checkout, b: Release, kind: Kind, db: Db, next: Db)
    requires IsAt(c, b, Passed(kind, |LaterOf(c, b)|), db)
    requires next == db.(manifest := Some(Manifest(true, true, c.snapshot)), grants := AsSnapshot, clock := db.clock + 1)
    ensures IsAt(c, b, Passed(kind, |LaterOf(c, b)|), next) && Finished(c, b, |LaterOf(c, b)|, next)
  {
  }
}
