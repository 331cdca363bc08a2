/** The migrate run (runMigrate, applyIdentityFirst): plan and gates first, then one fenced
    transaction after another, then grants and manifest in one. */
module MigrateRun {
  import opened Filenames
  import opened Wrappers
  import opened MigrateTarget
  import opened BaselineGap

  /** What can go wrong around one run. A lock boundary is proven while its number is below
      `lockLostAt`; a kill lands right after the named number of commits. */
  datatype Faults = Faults(
    sessionIsOwner: bool,
    postStateHolds: bool,
    headerless: set<Filename>,
    failing: set<Filename>,
    catalogMatches: bool,
    lockLostAt: Option<nat>,
    killAfter: Option<nat>)
  {
    predicate Proven(boundary: nat) { lockLostAt.None? || boundary < lockLostAt.value }

    predicate KilledAfter(commits: nat) { killAfter == Some(commits) }
  }

  datatype Refusal =
    | LockLost(boundary: nat)
    | NotOwner
    | Gates(reasons: seq<Reason>)
    | PreIdentityUnconfirmed
    | Blank
    | PostStateFails
    | ManifestInconsistent
    | ManifestFormatUnknown
    | LedgerNotOnDisk
    | IdentityNotPending
    | Gap(problems: seq<Problem>)
    | Headerless(file: Filename)
    | StateMoved
    | EnrollmentRefused
    | StatementFailed(file: Filename)
    | AlreadyRecorded(file: Filename)
    | BaselineDiffers(listed: seq<Filename>, catalog: bool)
    | Killed(commits: nat)

  /** What the run decided before its first transaction. */
  datatype Plan = Plan(
    preIdentity: Option<PreIdentity>,
    firstManifest: bool,
    pending: seq<Filename>,
    afterPass: Option<Remainder>)

  // ── Before the first commit ───────────────────────────────────────────────────────────────

  /** What a plan can be refused for. */
  predicate PlanRefusal(why: Refusal, f: Faults) {
    || (why.PostStateFails? && !f.postStateHolds)
    || (why.Headerless? && why.file in f.headerless)
    || why.ManifestInconsistent? || why.ManifestFormatUnknown? || why.LedgerNotOnDisk? || why.IdentityNotPending? || why.Gap?
  }

  /** Every recorded file is on disk; the files to apply are the rest, in filename order. */
  function ResumePlan(c: Checkout, db: Db, f: Faults): (r: Result<seq<Filename>, Refusal>)
    ensures r.Failure? ==> PlanRefusal(r.error, f)
    ensures r.Success? ==> r.value == Without(c.onDisk, Members(LedgerOf(db)))
  {
    match DetectManifestState(db)
    case Inconsistent => Failure(ManifestInconsistent)
    case UnknownFormat => Failure(ManifestFormatUnknown)
    case _ =>
      if Without(LedgerOf(db), Members(c.onDisk)) != [] then Failure(LedgerNotOnDisk)
      else if !f.postStateHolds then Failure(PostStateFails)
      else Success(Without(c.onDisk, Members(LedgerOf(db))))
  }

  function AcceptedState(preIdentity: Option<PreIdentity>, afterPass: Option<Remainder>): Option<Accepted> {
    if preIdentity.Some? then Some(Accepted(preIdentity.value.ledger, []))
    else if afterPass.Some? then Some(Accepted(afterPass.value.baseline, afterPass.value.appliedAfter))
    else None
  }

  /** The first pending file without the header it must carry. */
  function FirstHeaderless(pending: seq<Filename>, f: Faults): (r: Option<Filename>)
    ensures r.None? <==> forall p :: p in pending ==> p !in f.headerless
    ensures r.Some? ==> r.value in pending && r.value in f.headerless
  {
    if pending == [] then None
    else
      var file := pending[0];
      assert file in pending && forall p :: p in pending ==> p == file || p in pending[1..];
      if file in f.headerless then Some(file) else FirstHeaderless(pending[1..], f)
  }

  /** Steps 1 and 2, after the first boundary: the session, the gates, the confirmed state. */
  function Admit(c: Checkout, db: Db, o: Options, confirmed: Option<PreIdentity>, f: Faults): (r: Option<Refusal>)
    ensures r.Some? ==>
              || (r.value.NotOwner? && !f.sessionIsOwner)
              || (r.value.Gates? && CheckMigrateGates(c, db, o) != [])
              || (r.value.PreIdentityUnconfirmed? && ReadPreIdentityState(c, db, o) != confirmed)
              || (r.value.Blank? && db.ledger.None?)
    ensures r == None ==> CheckMigrateGates(c, db, o) == [] && confirmed == ReadPreIdentityState(c, db, o)
  {
    var reasons := CheckMigrateGates(c, db, o);
    if !f.sessionIsOwner then Some(NotOwner)
    else if reasons != [] then Some(Gates(reasons))
    else if ReadPreIdentityState(c, db, o) != confirmed then Some(PreIdentityUnconfirmed)
    else if db.ledger.None? then Some(Blank)
    else None
  }

  /** The remainder of an earlier pass, read only by a run that is not the pass and has no manifest to build on. */
  function AfterPass(c: Checkout, db: Db, preIdentity: Option<PreIdentity>): Option<Remainder> {
    if preIdentity.None? && DetectManifestState(db) == Absent then ReadIdentityPassRemainder(c, db) else None
  }

  /** Steps 3 to 5: the resume plan, the baseline gap, the headers. */
  function PlanFrom(c: Checkout, db: Db, preIdentity: Option<PreIdentity>, f: Faults): (r: Result<Plan, Refusal>)
    ensures r.Failure? ==> PlanRefusal(r.error, f)
    ensures r.Success? ==>
              && r.value.preIdentity == preIdentity
              && r.value.pending == Without(c.onDisk, Members(LedgerOf(db)))
              && (r.value.firstManifest <==> db.manifest == None)
              && (preIdentity.Some? ==> IDENTITY_MIGRATION in r.value.pending)
              && (forall p :: p in r.value.pending ==> p !in f.headerless)
              && (r.value.firstManifest ==>
                    GapProblems(LedgerOf(db), c.snapshot, r.value.pending, AcceptedState(preIdentity, r.value.afterPass)) == [])
  {
    if !f.postStateHolds then Failure(PostStateFails)
    else
      var firstManifest := DetectManifestState(db) == Absent;
      var resume := ResumePlan(c, db, f);
      if resume.Failure? then Failure(resume.error)
      else
        var pending := resume.value;
        var afterPass := AfterPass(c, db, preIdentity);
        var problems := GapProblems(LedgerOf(db), c.snapshot, pending, AcceptedState(preIdentity, afterPass));
        var headerless := FirstHeaderless(pending, f);
        if preIdentity.Some? && IDENTITY_MIGRATION !in pending then Failure(IdentityNotPending)
        else if firstManifest && problems != [] then Failure(Gap(problems))
        else if headerless.Some? then Failure(Headerless(headerless.value))
        else Success(Plan(preIdentity, firstManifest, pending, afterPass))
  }

  /** Everything the run decides before its first transaction. */
  function PlanRun(c: Checkout, db: Db, o: Options, confirmed: Option<PreIdentity>, f: Faults): Result<Plan, Refusal> {
    var refused := Admit(c, db, o, confirmed, f);
    if refused.Some? then Failure(refused.value) else PlanFrom(c, db, ReadPreIdentityState(c, db, o), f)
  }

  // ── The transactions ──────────────────────────────────────────────────────────────────────

  datatype Tx = IdentityPass | Apply(file: Filename) | Publish

  /** A transaction that fails with this is `tx`'s. */
  predicate FailureOf(tx: Tx, why: Refusal) {
    match why
    case StatementFailed(file) => tx == Apply(file) || (tx == IdentityPass && file == IDENTITY_MIGRATION)
    case AlreadyRecorded(file) => tx == Apply(file) || (tx == IdentityPass && file == IDENTITY_MIGRATION)
    case Headerless(_) => tx == IdentityPass
    case StateMoved => tx == IdentityPass
    case EnrollmentRefused => tx == IdentityPass
    case BaselineDiffers(_, _) => tx == Publish
    case _ => false
  }

  /** The files the loop applies: a run that takes the pass skips 0081, which the pass applied. */
  function LoopSteps(files: seq<Filename>, skipIdentity: bool): seq<Tx> {
    if files == [] then [Publish]
    else if skipIdentity && files[0] == IDENTITY_MIGRATION then LoopSteps(files[1..], skipIdentity)
    else [Apply(files[0])] + LoopSteps(files[1..], skipIdentity)
  }

  /** The run's transactions, in order. */
  function Steps(plan: Plan): seq<Tx> {
    (if plan.preIdentity.Some? then [IdentityPass] else []) + LoopSteps(plan.pending, plan.preIdentity.Some?)
  }

  /** Insert one ledger row, stamped with the transaction's time. */
  function Record(db: Db, file: Filename): Db
    requires db.ledger.Some?
  {
    db.(ledger := Some(db.ledger.value[file := db.clock]), grants := Unreconciled, clock := db.clock + 1)
  }

  /** The identity write's own guards: production only under prod; rehearsal never under prod, nor on a
      remote target nobody acknowledged. */
  function Enroll(kind: Kind, env: Env, remote: bool, acknowledged: bool): Result<RowValue, Refusal> {
    if kind == Production then
      if env != Prod then Failure(EnrollmentRefused) else Success(Enrolled(Production))
    else
      if env == Prod || (remote && !acknowledged) then Failure(EnrollmentRefused) else Success(Enrolled(Rehearsal))
  }

  /** The identity-first pass: under its fence it re-reads the state it was admitted on, then creates
      the table, records 0081 and writes the row, all in this transaction. */
  function ExecutePass(c: Checkout, db: Db, plan: Plan, o: Options, f: Faults): (r: Result<Db, Refusal>)
    ensures r.Failure? ==> FailureOf(IdentityPass, r.error)
  {
    var state := ReadPreIdentityLedger(c, db);
    var kind := IdentityFirstKind(o.env);
    var row := Enroll(kind, o.env, o.connection == Remote, kind == Rehearsal);
    if IDENTITY_MIGRATION in f.headerless then Failure(Headerless(IDENTITY_MIGRATION))
    else if state.None? || state != plan.preIdentity || db.ledger.None? then Failure(StateMoved)
    else if IDENTITY_MIGRATION in f.failing then Failure(StatementFailed(IDENTITY_MIGRATION))
    else if IDENTITY_MIGRATION in db.ledger.value then Failure(AlreadyRecorded(IDENTITY_MIGRATION))
    else
      match row
      case Failure(why) => Failure(why)
      case Success(value) => Success(Record(db, IDENTITY_MIGRATION).(identity := Rows([value])))
  }

  /** One file of the loop: its statements, then its ledger row, whose name is a key. 0081's own
      statements create the identity table, and so fail on a database that has one. */
  function ExecuteApply(db: Db, file: Filename, f: Faults): (r: Result<Db, Refusal>)
    ensures r.Failure? ==> FailureOf(Apply(file), r.error)
  {
    if db.ledger.None? || file in f.failing || (file == IDENTITY_MIGRATION && db.identity != NoTable)
    then Failure(StatementFailed(file))
    else if file in db.ledger.value then Failure(AlreadyRecorded(file))
    else if file == IDENTITY_MIGRATION then Success(Record(db, file).(identity := Rows([])))
    else Success(Record(db, file))
  }

  /** How the published list would differ from the snapshot's: names on one side only. */
  function ListDifference(snapshot: seq<Filename>, filenames: seq<Filename>): seq<Filename> {
    Without(filenames, Members(snapshot)) + Without(snapshot, Members(filenames))
  }

  /** Grants, then (for a first manifest) the baseline comparison, then the manifest. */
  function ExecutePublish(c: Checkout, db: Db, plan: Plan, f: Faults): (r: Result<Db, Refusal>)
    ensures r.Failure? ==> FailureOf(Publish, r.error)
  {
    var filenames := LedgerOf(db);
    var listed := ListDifference(c.snapshot, filenames);
    if plan.firstManifest && (listed != [] || !f.catalogMatches)
    then Failure(BaselineDiffers(listed, listed == []))
    else Success(db.(manifest := Some(Manifest(true, true, filenames)), grants := AsSnapshot, clock := db.clock + 1))
  }

  /** One fenced transaction: it commits the whole of its result, or nothing. */
  function Execute(c: Checkout, db: Db, plan: Plan, o: Options, f: Faults, tx: Tx): (r: Result<Db, Refusal>)
    ensures r.Failure? ==> FailureOf(tx, r.error)
  {
    match tx
    case IdentityPass => ExecutePass(c, db, plan, o, f)
    case Apply(file) => ExecuteApply(db, file, f)
    case Publish => ExecutePublish(c, db, plan, f)
  }

  type Transaction = (Db, Tx) -> Result<Db, Refusal>

  function Transactions(c: Checkout, plan: Plan, o: Options, f: Faults): Transaction {
    (db: Db, tx: Tx) => Execute(c, db, plan, o, f, tx)
  }

  // ── The run ───────────────────────────────────────────────────────────────────────────────

  /** Where a run stopped: the committed state, what it committed, and why it stopped short, if it did. */
  datatype Outcome = Outcome(db: Db, committed: seq<Tx>, stop: Option<Refusal>)

  /** An outcome reached after `before` was already committed. */
  function After(before: seq<Tx>, o: Outcome): Outcome {
    Outcome(o.db, before + o.committed, o.stop)
  }

  /** One boundary proof per transaction, and nothing after the first that fails. */
  function RunFrom(execute: Transaction, f: Faults, db: Db, todo: seq<Tx>, commits: nat): Outcome
    decreases |todo|
  {
    if todo == [] then Outcome(db, [], None)
    else if !f.Proven(commits + 1) then Outcome(db, [], Some(LockLost(commits + 1)))
    else
      match execute(db, todo[0])
      case Failure(why) => Outcome(db, [], Some(why))
      case Success(next) =>
        if f.KilledAfter(commits + 1) then Outcome(next, [todo[0]], Some(Killed(commits + 1)))
        else After([todo[0]], RunFrom(execute, f, next, todo[1..], commits + 1))
  }

  function Run(c: Checkout, db: Db, o: Options, confirmed: Option<PreIdentity>, f: Faults): Outcome {
    if !f.Proven(0) then Outcome(db, [], Some(LockLost(0)))
    else
      match PlanRun(c, db, o, confirmed, f)
      case Failure(why) => Outcome(db, [], Some(why))
      case Success(plan) => RunFrom(Transactions(c, plan, o, f), f, db, Steps(plan), 0)
  }
}
