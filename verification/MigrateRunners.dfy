/** Any number of migrate runners on one database: session locks that can die at any moment, one fence
    that every mutating transaction holds from its first statement to its end, and a proof of the lock
    before each transaction; a row carries the time its transaction began, which is before the fence
    (backend/src/db/target-lock.ts, backend/scripts/migrate-run.ts). */
module MigrateRunners {
  import opened Filenames
  import opened Wrappers
  import opened MigrateTarget
  import opened BaselineGap
  import opened MigrateRun
  import opened MigrateStates
  import opened MigrateProgress
  import opened MigrateTheorems

  /** Where a runner is. `Proven` is after a boundary's proof; `Opened` is inside a transaction begun at the given
      time, whose first statement waits for the fence. */
  datatype Pc =
    | Waiting
    | Locked
    | Started
    | Vetted(preIdentity: Option<PreIdentity>)
    | Ready(plan: Plan, todo: seq<Tx>)
    | Proven(plan: Plan, todo: seq<Tx>)
    | Opened(plan: Plan, todo: seq<Tx>, began: int)
    | InTransaction(plan: Plan, todo: seq<Tx>, began: int)
    | Stopped

  /** One run, with two history variables: whether its lock connection died, and what it committed since. */
  datatype Runner = Runner(o: Options, confirmed: Option<PreIdentity>, pc: Pc, lost: bool, late: nat)

  /** The database and its two advisory locks, every runner, and the transactions committed so far. */
  datatype Sys = Sys(db: Db, session: Option<nat>, fence: Option<nat>, runners: seq<Runner>, log: seq<Tx>)

  datatype Move =
    | Spawn(o: Options, confirmed: Option<PreIdentity>)
    | Acquire(i: nat)
    | LockDies(i: nat)
    | Begin(i: nat)
    | Vet(i: nat, f: Faults)
    | MakePlan(i: nat, f: Faults)
    | Prove(i: nat)
    | Open(i: nat)
    | TakeFence(i: nat)
    | Commit(i: nat, f: Faults)
    | Stop(i: nat)
    | Tick(clock: int)

  function At(s: Sys, i: nat, pc: Pc): seq<Runner>
    requires i < |s.runners|
  {
    s.runners[i := s.runners[i].(pc := pc)]
  }

  /** A transaction begun at `began`: that is the time its row carries, whatever the time it commits at. */
  function ExecuteBegun(c: Checkout, db: Db, began: int, plan: Plan, o: Options, f: Faults, tx: Tx): Result<Db, Refusal> {
    match Execute(c, db.(clock := began), plan, o, f, tx)
    case Failure(why) => Failure(why)
    case Success(next) => Success(next.(clock := db.clock + 1))
  }

  /** One step of one of them, or of the world around them. */
  ghost predicate Next(c: Checkout, s: Sys, m: Move, s': Sys) {
    match m
    case Spawn(o, confirmed) =>
      s' == s.(runners := s.runners + [Runner(o, confirmed, Waiting, false, 0)])
    case Acquire(i) =>
      && i < |s.runners| && s.runners[i].pc == Waiting && s.session == None
      && s' == s.(session := Some(i), runners := At(s, i, Locked))
    case LockDies(i) =>
      && i < |s.runners| && s.session == Some(i)
      && s' == s.(session := None, runners := s.runners[i := s.runners[i].(lost := true)])
    case Begin(i) =>
      && i < |s.runners| && s.runners[i].pc == Locked && s.session == Some(i)
      && s' == s.(runners := At(s, i, Started))
    case Vet(i, f) =>
      && i < |s.runners| && s.runners[i].pc == Started
      && Admit(c, s.db, s.runners[i].o, s.runners[i].confirmed, f) == None
      && s' == s.(runners := At(s, i, Vetted(ReadPreIdentityState(c, s.db, s.runners[i].o))))
    case MakePlan(i, f) =>
      && i < |s.runners| && s.runners[i].pc.Vetted?
      && var plan := PlanFrom(c, s.db, s.runners[i].pc.preIdentity, f);
         && plan.Success?
         && s' == s.(runners := At(s, i, Ready(plan.value, Steps(plan.value))))
    case Prove(i) =>
      && i < |s.runners| && s.runners[i].pc.Ready? && s.runners[i].pc.todo != [] && s.session == Some(i)
      && s' == s.(runners := At(s, i, Proven(s.runners[i].pc.plan, s.runners[i].pc.todo)))
    case Open(i) =>
      && i < |s.runners| && s.runners[i].pc.Proven?
      && s' == s.(runners := At(s, i, Opened(s.runners[i].pc.plan, s.runners[i].pc.todo, s.db.clock)))
    case TakeFence(i) =>
      && i < |s.runners| && s.runners[i].pc.Opened? && s.fence == None
      && var pc := s.runners[i].pc;
         s' == s.(fence := Some(i), runners := At(s, i, InTransaction(pc.plan, pc.todo, pc.began)))
    case Commit(i, f) =>
      && i < |s.runners| && s.runners[i].pc.InTransaction? && s.runners[i].pc.todo != []
      && var r := s.runners[i];
         var result := ExecuteBegun(c, s.db, r.pc.began, r.pc.plan, r.o, f, r.pc.todo[0]);
         && result.Success?
         && s' == Sys(result.value, s.session, None,
                      s.runners[i := r.(pc := Ready(r.pc.plan, r.pc.todo[1..]), late := if r.lost then r.late + 1 else r.late)],
                      s.log + [r.pc.todo[0]])
    case Stop(i) =>
      // A refusal, a failed transaction, a kill: what is uncommitted rolls back, and both locks go.
      && i < |s.runners|
      && s' == s.(session := if s.session == Some(i) then None else s.session,
                  fence := if s.fence == Some(i) then None else s.fence,
                  runners := At(s, i, Stopped))
    case Tick(clock) =>
      clock >= s.db.clock && s' == s.(db := s.db.(clock := clock))
  }

  // ── What every reachable state keeps ──────────────────────────────────────────────────────

  /** The steps a runner may still hold: the whole run from the baseline, or a tail of the later files
      that starts no further than the ledger has come. */
  ghost predicate Holds(c: Checkout, b: Release, stage: Stage, todo: seq<Tx>) {
    || todo == []
    || todo == StepsAt(c, b, Untouched)
    || (stage.Passed? && exists m: nat :: m <= stage.applied && m <= |LaterOf(c, b)| && todo == TailSteps(c, b, m))
  }

  /** What the gates saw still bounds the plan: the baseline itself, or a pass that has committed. */
  predicate Vouches(b: Release, stage: Stage, pre: Option<PreIdentity>) {
    pre == Some(PreIdentity(b.name, b.migrations)) || (pre == None && stage.Passed?)
  }

  /** The steps are the stage's own: the first of them is the transaction that can commit next. */
  predicate Due(c: Checkout, b: Release, stage: Stage, todo: seq<Tx>) {
    (stage.Passed? ==> stage.applied <= |LaterOf(c, b)|) && todo == StepsAt(c, b, stage)
  }

  /** Begun in the past, and, if it can commit next, after every recorded row's time. */
  ghost predicate BegunInTime(c: Checkout, b: Release, stage: Stage, db: Db, todo: seq<Tx>, began: int) {
    began <= db.clock && (Due(c, b, stage, todo) ==> db.(clock := began).ClockAhead())
  }

  ghost predicate RunnerKeeps(c: Checkout, b: Release, stage: Stage, s: Sys, i: nat)
    requires i < |s.runners|
  {
    var r := s.runners[i];
    && (r.pc.Vetted? ==> Vouches(b, stage, r.pc.preIdentity))
    && (r.pc.Ready? || r.pc.Proven? || r.pc.Opened? || r.pc.InTransaction? ==> Holds(c, b, stage, r.pc.todo))
    && (r.pc.Opened? || r.pc.InTransaction? ==> BegunInTime(c, b, stage, s.db, r.pc.todo, r.pc.began))
    && (r.pc.InTransaction? <==> s.fence == Some(i))
    && (s.session == Some(i) ==> !r.lost && !r.pc.Waiting? && !r.pc.Stopped?)
    && (r.pc.Waiting? ==> !r.lost)
    && (!r.lost ==> r.late == 0)
    && r.late <= 1
    && (r.late == 1 ==> r.pc.Ready? || r.pc.Stopped?)
  }

  /** The mutations that brought a baseline's database to `stage`, in order. */
  function Done(c: Checkout, b: Release, stage: Stage): seq<Tx> {
    match stage
    case Untouched => []
    case Passed(_, n) => if n <= |LaterOf(c, b)| then [IdentityPass] + Applies(LaterOf(c, b)[..n]) else []
  }

  function Applies(files: seq<Filename>): (r: seq<Tx>)
    ensures |r| == |files| && forall i :: 0 <= i < |files| ==> r[i] == Apply(files[i])
  {
    seq(|files|, i requires 0 <= i < |files| => Apply(files[i]))
  }

  /** The committed transactions that change the ledger. */
  function Mutations(log: seq<Tx>): seq<Tx> {
    if log == [] then []
    else
      var before := Mutations(log[..|log| - 1]);
      var last := log[|log| - 1];
      if last == Publish then before else before + [last]
  }

  ghost predicate Keeps(c: Checkout, b: Release, stage: Stage, s: Sys) {
    && IsAt(c, b, stage, s.db)
    && Mutations(s.log) == Done(c, b, stage)
    && (s.session.Some? ==> s.session.value < |s.runners|)
    && (s.fence.Some? ==> s.fence.value < |s.runners|)
    && forall i :: 0 <= i < |s.runners| ==> RunnerKeeps(c, b, stage, s, i)
  }

  /** Nothing has run yet on a supported baseline's database. */
  ghost predicate Initial(c: Checkout, b: Release, s: Sys) {
    IsAt(c, b, Untouched, s.db) && s.session == None && s.fence == None && s.runners == [] && s.log == []
  }

  /** A later stage of the same database: as far or further, and with the identity row it had. */
  predicate Follows(stage: Stage, after: Stage) {
    after == stage || (after.Passed? && (stage.Passed? ==> stage.applied <= after.applied && stage.kind == after.kind))
  }

  /** A stage further on. */
  predicate Advances(stage: Stage, after: Stage) {
    after.Passed? && (stage.Passed? ==> stage.applied < after.applied)
  }

  /** The tail of the later files from the `m`th on, and the publish. */
  function TailSteps(c: Checkout, b: Release, m: nat): seq<Tx>
    requires m <= |LaterOf(c, b)|
  {
    LoopSteps(LaterOf(c, b)[m..], false)
  }

  lemma TailIs(c: Checkout, b: Release, m: nat)
    requires m <= |LaterOf(c, b)|
    ensures m == |LaterOf(c, b)| ==> TailSteps(c, b, m) == [Publish]
    ensures m < |LaterOf(c, b)| ==> TailSteps(c, b, m) == [Apply(LaterOf(c, b)[m])] + TailSteps(c, b, m + 1)
    ensures StepsAt(c, b, Untouched) == [IdentityPass] + TailSteps(c, b, 0)
  {
    var later := LaterOf(c, b);
    assert later[0..] == later;
    if m < |later| { assert later[m..][1..] == later[m + 1..]; }
  }

  lemma PassMove(c: Checkout, b: Release, stage: Stage, db: Db, plan: Plan, o: Options, f: Faults, next: Db)
    requires Supported(c, b) && IsAt(c, b, stage, db)
    requires Execute(c, db, plan, o, f, IdentityPass) == Success(next)
    ensures stage == Untouched && IsAt(c, b, Passed(IdentityFirstKind(o.env), 0), next)
  {
    if stage.Untouched? {
      PassSays(c, db, plan, o, f, next);
      PassAt(c, b, IdentityFirstKind(o.env), db, next);
    } else {
      PassOnce(c, b, stage, db, plan, o, f);
    }
  }

  lemma DoneGrows(c: Checkout, b: Release, kind: Kind, n: nat)
    requires n < |LaterOf(c, b)|
    ensures Done(c, b, Passed(kind, n + 1)) == Done(c, b, Passed(kind, n)) + [Apply(LaterOf(c, b)[n])]
  {
    var later := LaterOf(c, b);
    assert later[..n + 1] == later[..n] + [later[n]];
    assert Applies(later[..n + 1]) == Applies(later[..n]) + [Apply(later[n])];
  }

  lemma ApplyMove(c: Checkout, b: Release, stage: Stage, m: nat, db: Db, f: Faults, next: Db)
    requires Supported(c, b) && stage.Passed? && IsAt(c, b, stage, db) && m <= stage.applied && m < |LaterOf(c, b)|
    requires ExecuteApply(db, LaterOf(c, b)[m], f) == Success(next)
    ensures IsAt(c, b, Passed(stage.kind, m + 1), next) && m == stage.applied
    ensures Done(c, b, Passed(stage.kind, m + 1)) == Done(c, b, stage) + [Apply(LaterOf(c, b)[m])]
  {
    ApplyAt(c, b, stage.kind, stage.applied, m, db, f, next);
    DoneGrows(c, b, stage.kind, m);
  }

  /** What a runner commits first from its steps is the stage's next transaction, whatever plan it has. */
  ghost predicate Commits(c: Checkout, b: Release, stage: Stage, todo: seq<Tx>, next: Db, after: Stage)
    requires todo != []
  {
    && IsAt(c, b, after, next) && Follows(stage, after) && Holds(c, b, after, todo[1..])
    && (if todo[0] == Publish then after == stage else Advances(stage, after))
    && Done(c, b, after) == if todo[0] == Publish then Done(c, b, stage) else Done(c, b, stage) + [todo[0]]
  }

  lemma CommitPass(c: Checkout, b: Release, stage: Stage, db: Db, plan: Plan, o: Options, f: Faults, todo: seq<Tx>, next: Db)
    requires Supported(c, b) && IsAt(c, b, stage, db) && todo == StepsAt(c, b, Untouched)
    requires ExecutePass(c, db, plan, o, f) == Success(next)
    ensures Commits(c, b, stage, todo, next, Passed(IdentityFirstKind(o.env), 0))
  {
    TailIs(c, b, 0);
    PassMove(c, b, stage, db, plan, o, f, next);
    assert todo[1..] == TailSteps(c, b, 0);
    assert LaterOf(c, b)[..0] == [];
  }

  lemma CommitTail(c: Checkout, b: Release, stage: Stage, m: nat, db: Db, plan: Plan, f: Faults, todo: seq<Tx>, next: Db)
    returns (after: Stage)
    requires Supported(c, b) && IsAt(c, b, stage, db)
    requires stage.Passed? && m <= stage.applied && m <= |LaterOf(c, b)| && todo == TailSteps(c, b, m)
    requires m < |LaterOf(c, b)| ==> ExecuteApply(db, LaterOf(c, b)[m], f) == Success(next)
    requires m == |LaterOf(c, b)| ==> ExecutePublish(c, db, plan, f) == Success(next)
    ensures todo != [] && Commits(c, b, stage, todo, next, after)
  {
    TailIs(c, b, m);
    if m == |LaterOf(c, b)| {
      PublishAt(c, b, stage.kind, db, plan, f, next);
      after := stage;
    } else {
      ApplyMove(c, b, stage, m, db, f, next);
      after := Passed(stage.kind, m + 1);
      assert todo[1..] == TailSteps(c, b, m + 1);
    }
  }

  lemma CommitAt(c: Checkout, b: Release, stage: Stage, db: Db, plan: Plan, o: Options, f: Faults, todo: seq<Tx>, next: Db)
    returns (after: Stage)
    requires Supported(c, b) && IsAt(c, b, stage, db) && Holds(c, b, stage, todo) && todo != []
    requires Execute(c, db, plan, o, f, todo[0]) == Success(next)
    ensures Commits(c, b, stage, todo, next, after)
  {
    if todo == StepsAt(c, b, Untouched) {
      assert todo[0] == IdentityPass;
      CommitPass(c, b, stage, db, plan, o, f, todo, next);
      after := Passed(IdentityFirstKind(o.env), 0);
    } else {
      var m: nat :| m <= stage.applied && m <= |LaterOf(c, b)| && todo == TailSteps(c, b, m);
      TailIs(c, b, m);
      after := CommitTail(c, b, stage, m, db, plan, f, todo, next);
    }
  }

  // ── The time a transaction began ──────────────────────────────────────────────────────────

  /** Whether a transaction commits does not depend on the time. */
  lemma TimeIsIrrelevant(c: Checkout, db: Db, clock: int, plan: Plan, o: Options, f: Faults, tx: Tx)
    ensures Execute(c, db, plan, o, f, tx).Success? <==> Execute(c, db.(clock := clock), plan, o, f, tx).Success?
  {
    match tx
    case IdentityPass =>
      PassIgnoresTime(c, db, clock, plan, o, f, ReadPreIdentityLedger(c, db));
    case Apply(file) => ApplyIgnoresTime(db, clock, file, f);
    case Publish => PublishIgnoresTime(c, db, clock, plan, f);
  }

  lemma PassIgnoresTime(c: Checkout, db: Db, clock: int, plan: Plan, o: Options, f: Faults, state: Option<PreIdentity>)
    requires state == ReadPreIdentityLedger(c, db)
    ensures ExecutePass(c, db, plan, o, f).Success? <==> ExecutePass(c, db.(clock := clock), plan, o, f).Success?
  {
    assert LedgerOf(db.(clock := clock)) == LedgerOf(db);
    assert ReadPreIdentityLedger(c, db.(clock := clock)) == state;
  }

  lemma ApplyIgnoresTime(db: Db, clock: int, file: Filename, f: Faults)
    ensures ExecuteApply(db, file, f).Success? <==> ExecuteApply(db.(clock := clock), file, f).Success?
  {
  }

  lemma PublishIgnoresTime(c: Checkout, db: Db, clock: int, plan: Plan, f: Faults)
    ensures ExecutePublish(c, db, plan, f).Success? <==> ExecutePublish(c, db.(clock := clock), plan, f).Success?
  {
    assert LedgerOf(db.(clock := clock)) == LedgerOf(db);
  }

  /** Only the stage's own steps can commit their first. */
  lemma OnlyDueCommits(c: Checkout, b: Release, stage: Stage, db: Db, plan: Plan, o: Options, f: Faults, todo: seq<Tx>)
    requires Supported(c, b) && IsAt(c, b, stage, db) && Holds(c, b, stage, todo) && todo != []
    requires Execute(c, db, plan, o, f, todo[0]).Success?
    ensures Due(c, b, stage, todo)
  {
    var next := Execute(c, db, plan, o, f, todo[0]).value;
    if todo == StepsAt(c, b, Untouched) {
      PassMove(c, b, stage, db, plan, o, f, next);
    } else {
      var m: nat :| m <= stage.applied && m <= |LaterOf(c, b)| && todo == TailSteps(c, b, m);
      TailIs(c, b, m);
      if m < |LaterOf(c, b)| { ApplyMove(c, b, stage, m, db, f, next); }
    }
  }

  lemma {:induction false} StepsCount(files: seq<Filename>)
    ensures |LoopSteps(files, false)| == |files| + 1
  {
    if files != [] { StepsCount(files[1..]); }
  }

  /** Once the stage moves on, steps planned before it did cannot commit next. */
  lemma NotDueAfter(c: Checkout, b: Release, stage: Stage, after: Stage, todo: seq<Tx>)
    requires Holds(c, b, stage, todo) && Advances(stage, after)
    ensures !Due(c, b, after, todo)
  {
    var later := LaterOf(c, b);
    if Due(c, b, after, todo) {
      StepsCount(later[after.applied..]);
      StepsCount(later);
      if todo != [] && todo != StepsAt(c, b, Untouched) {
        var m: nat :| m <= stage.applied && m <= |later| && todo == TailSteps(c, b, m);
        StepsCount(later[m..]);
      }
    }
  }

  /** Setting the clock to any time after the rows' leaves the stage. */
  lemma ClockSet(c: Checkout, b: Release, stage: Stage, db: Db, clock: int)
    requires IsAt(c, b, stage, db) && db.(clock := clock).ClockAhead()
    ensures IsAt(c, b, stage, db.(clock := clock))
  {
  }

  /** What commits under the fence began after the rows it commits on: the time order of the rows is the
      order they were committed in. */
  lemma CommitBegun(c: Checkout, b: Release, stage: Stage, db: Db, began: int, plan: Plan, o: Options, f: Faults,
                    todo: seq<Tx>, next: Db) returns (after: Stage)
    requires Supported(c, b) && IsAt(c, b, stage, db) && Holds(c, b, stage, todo) && todo != []
    requires BegunInTime(c, b, stage, db, todo, began)
    requires ExecuteBegun(c, db, began, plan, o, f, todo[0]) == Success(next)
    ensures Commits(c, b, stage, todo, next, after)
    ensures forall file :: file in db.ledger.value ==> db.ledger.value[file] < began
    ensures todo[0] == Publish ==> next.ledger == db.ledger
  {
    TimeIsIrrelevant(c, db, began, plan, o, f, todo[0]);
    OnlyDueCommits(c, b, stage, db, plan, o, f, todo);
    ClockSet(c, b, stage, db, began);
    var committed := Execute(c, db.(clock := began), plan, o, f, todo[0]).value;
    after := CommitAt(c, b, stage, db.(clock := began), plan, o, f, todo, committed);
    ClockAfter(c, db.(clock := began), plan, o, f, todo[0], committed);
    ClockSet(c, b, after, committed, db.clock + 1);
  }

  lemma ClockAfter(c: Checkout, db: Db, plan: Plan, o: Options, f: Faults, tx: Tx, next: Db)
    requires Execute(c, db, plan, o, f, tx) == Success(next)
    ensures next.clock == db.clock + 1
    ensures tx == Publish ==> next.ledger == db.ledger
  {
  }

  // ── Every move keeps it ───────────────────────────────────────────────────────────────────

  /** The gates admit either the baseline's own pass or a run on a database that has its row. */
  lemma VetSays(c: Checkout, b: Release, stage: Stage, db: Db, o: Options, confirmed: Option<PreIdentity>, f: Faults)
    requires Supported(c, b) && IsAt(c, b, stage, db) && Admit(c, db, o, confirmed, f) == None
    ensures Vouches(b, stage, ReadPreIdentityState(c, db, o))
  {
    GatesAdmit(c, db, o);
    AdmittedReads(c, db, o);
    if stage.Untouched? { ReadsBaseline(c, b, db); }
  }

  /** A plan made later than its gates, with other runs' commits in between, holds steps good at its stage. */
  lemma PlanHolds(c: Checkout, b: Release, stage: Stage, db: Db, pre: Option<PreIdentity>, f: Faults, plan: Plan)
    requires Supported(c, b) && IsAt(c, b, stage, db) && Vouches(b, stage, pre)
    requires PlanFrom(c, db, pre, f) == Success(plan)
    ensures Holds(c, b, stage, Steps(plan))
  {
    PendingIs(c, b, stage, db);
    PlanFromSays(c, db, pre, f, plan);
    if stage.Untouched? {
      StepsWithPass(c, b, plan);
    } else {
      RecordedAt(c, b, stage, db);
      TailOf(c, b, stage, plan);
    }
  }

  lemma RecordedAt(c: Checkout, b: Release, stage: Stage, db: Db)
    requires IsAt(c, b, stage, db) && stage.Passed?
    ensures IDENTITY_MIGRATION in LedgerOf(db)
  {
    assert IDENTITY_MIGRATION in db.ledger.value.Keys;
  }

  lemma TailOf(c: Checkout, b: Release, stage: Stage, plan: Plan)
    requires stage.Passed? && stage.applied <= |LaterOf(c, b)|
    requires plan.preIdentity == None && plan.pending == PendingAt(c, b, stage)
    ensures Holds(c, b, stage, Steps(plan))
  {
    assert Steps(plan) == TailSteps(c, b, stage.applied);
  }

  lemma PlanFromSays(c: Checkout, db: Db, pre: Option<PreIdentity>, f: Faults, plan: Plan)
    requires PlanFrom(c, db, pre, f) == Success(plan)
    ensures plan.preIdentity == pre && plan.pending == Without(c.onDisk, Members(LedgerOf(db)))
    ensures pre.Some? ==> IDENTITY_MIGRATION !in LedgerOf(db)
  {
  }

  /** The clock does not go back, and the rows change only with the stage. */
  predicate TimeGoesOn(stage: Stage, after: Stage, db: Db, next: Db) {
    db.clock <= next.clock && (Advances(stage, after) || (after == stage && next.ledger == db.ledger))
  }

  /** A runner a move does not touch keeps what it had, when the locks are still its or not its as before. */
  lemma OthersKeep(c: Checkout, b: Release, stage: Stage, after: Stage, s: Sys, s': Sys, i: nat, k: nat)
    requires k < |s.runners| && k < |s'.runners| && k != i && s'.runners[k] == s.runners[k]
    requires RunnerKeeps(c, b, stage, s, k) && Follows(stage, after) && TimeGoesOn(stage, after, s.db, s'.db)
    requires (s'.fence == Some(k)) == (s.fence == Some(k))
    requires s'.session == Some(k) ==> s.session == Some(k)
    ensures RunnerKeeps(c, b, after, s', k)
  {
    var pc := s.runners[k].pc;
    if (pc.Opened? || pc.InTransaction?) && Advances(stage, after) { NotDueAfter(c, b, stage, after, pc.todo); }
  }

  /** A move of runner `i` alone keeps everything when it keeps `i`, the database and the log. */
  lemma OneRunnerMoves(c: Checkout, b: Release, stage: Stage, after: Stage, s: Sys, s': Sys, i: nat)
    requires Keeps(c, b, stage, s) && Follows(stage, after) && i < |s.runners| && TimeGoesOn(stage, after, s.db, s'.db)
    requires |s'.runners| == |s.runners| && forall k :: 0 <= k < |s.runners| && k != i ==> s'.runners[k] == s.runners[k]
    requires s'.fence == s.fence || (s'.fence == Some(i) && s.fence == None) || (s'.fence == None && s.fence == Some(i))
    requires s'.session == s.session || s'.session == Some(i) || s'.session == None
    requires IsAt(c, b, after, s'.db) && Mutations(s'.log) == Done(c, b, after)
    requires RunnerKeeps(c, b, after, s', i)
    ensures Keeps(c, b, after, s')
  {
    forall k | 0 <= k < |s'.runners| ensures RunnerKeeps(c, b, after, s', k) {
      if k != i { OthersKeep(c, b, stage, after, s, s', i, k); }
    }
  }

  lemma CommitKeeps(c: Checkout, b: Release, stage: Stage, s: Sys, i: nat, f: Faults, s': Sys) returns (after: Stage)
    requires Supported(c, b) && Keeps(c, b, stage, s) && Next(c, s, Move.Commit(i, f), s')
    ensures Keeps(c, b, after, s') && Follows(stage, after)
  {
    assert RunnerKeeps(c, b, stage, s, i);
    var r := s.runners[i];
    after := CommitBegun(c, b, stage, s.db, r.pc.began, r.pc.plan, r.o, f, r.pc.todo, s'.db);
    assert s'.log[..|s'.log| - 1] == s.log;
    OneRunnerMoves(c, b, stage, after, s, s', i);
  }

  lemma VetKeeps(c: Checkout, b: Release, stage: Stage, s: Sys, i: nat, f: Faults, s': Sys)
    requires Supported(c, b) && Keeps(c, b, stage, s) && Next(c, s, Vet(i, f), s')
    ensures Keeps(c, b, stage, s')
  {
    assert RunnerKeeps(c, b, stage, s, i);
    VetSays(c, b, stage, s.db, s.runners[i].o, s.runners[i].confirmed, f);
    OneRunnerMoves(c, b, stage, stage, s, s', i);
  }

  lemma MakePlanKeeps(c: Checkout, b: Release, stage: Stage, s: Sys, i: nat, f: Faults, s': Sys)
    requires Supported(c, b) && Keeps(c, b, stage, s) && Next(c, s, MakePlan(i, f), s')
    ensures Keeps(c, b, stage, s')
  {
    assert RunnerKeeps(c, b, stage, s, i);
    var plan := s'.runners[i].pc.plan;
    PlanHolds(c, b, stage, s.db, s.runners[i].pc.preIdentity, f, plan);
    ReadyKeeps(c, b, stage, s, i, plan, Steps(plan), s');
  }

  lemma ReadyKeeps(c: Checkout, b: Release, stage: Stage, s: Sys, i: nat, plan: Plan, todo: seq<Tx>, s': Sys)
    requires Keeps(c, b, stage, s) && i < |s.runners| && s.runners[i].pc.Vetted? && Holds(c, b, stage, todo)
    requires s' == s.(runners := At(s, i, Ready(plan, todo)))
    ensures Keeps(c, b, stage, s')
  {
    assert RunnerKeeps(c, b, stage, s, i);
    assert RunnerKeeps(c, b, stage, s', i);
    OneRunnerMoves(c, b, stage, stage, s, s', i);
  }

  /** Locks taken, proven, lost or let go: the database and the log stay as they are. */
  lemma LockMoveKeeps(c: Checkout, b: Release, stage: Stage, s: Sys, m: Move, s': Sys)
    requires Keeps(c, b, stage, s) && Next(c, s, m, s')
    requires m.Acquire? || m.LockDies? || m.Begin? || m.Prove? || m.Open? || m.TakeFence? || m.Stop?
    ensures Keeps(c, b, stage, s')
  {
    assert RunnerKeeps(c, b, stage, s, m.i);
    assert RunnerKeeps(c, b, stage, s', m.i);
    OneRunnerMoves(c, b, stage, stage, s, s', m.i);
  }

  lemma WorldMoveKeeps(c: Checkout, b: Release, stage: Stage, s: Sys, m: Move, s': Sys)
    requires Keeps(c, b, stage, s) && Next(c, s, m, s') && (m.Spawn? || m.Tick?)
    ensures Keeps(c, b, stage, s')
  {
    forall k | 0 <= k < |s'.runners| ensures RunnerKeeps(c, b, stage, s', k) {
      if k < |s.runners| { OthersKeep(c, b, stage, stage, s, s', |s.runners|, k); }
    }
  }

  /** The invariant: every move keeps it, at the same stage or a later one. */
  lemma EveryMoveKeeps(c: Checkout, b: Release, stage: Stage, s: Sys, m: Move, s': Sys) returns (after: Stage)
    requires Supported(c, b) && Keeps(c, b, stage, s) && Next(c, s, m, s')
    ensures Keeps(c, b, after, s') && Follows(stage, after)
  {
    after := stage;
    match m
    case Commit(i, f) => after := CommitKeeps(c, b, stage, s, i, f, s');
    case Vet(i, f) => VetKeeps(c, b, stage, s, i, f, s');
    case MakePlan(i, f) => MakePlanKeeps(c, b, stage, s, i, f, s');
    case Spawn(_, _) => WorldMoveKeeps(c, b, stage, s, m, s');
    case Tick(_) => WorldMoveKeeps(c, b, stage, s, m, s');
    case _ => LockMoveKeeps(c, b, stage, s, m, s');
  }

  // ── Every interleaving ────────────────────────────────────────────────────────────────────

  /** Some moves of the system, and the states between them. */
  ghost predicate Trace(c: Checkout, states: seq<Sys>, moves: seq<Move>) {
    && |states| == |moves| + 1
    && forall k :: 0 <= k < |moves| ==> Next(c, states[k], moves[k], states[k + 1])
  }

  lemma {:induction false} TraceKeeps(c: Checkout, b: Release, states: seq<Sys>, moves: seq<Move>) returns (stage: Stage)
    requires Supported(c, b) && Trace(c, states, moves) && Initial(c, b, states[0])
    ensures Keeps(c, b, stage, states[|moves|])
    decreases |moves|
  {
    if moves == [] {
      stage := Untouched;
    } else {
      var n := |moves| - 1;
      var before := TraceKeeps(c, b, states[..n + 1], moves[..n]);
      stage := EveryMoveKeeps(c, b, before, states[n], moves[n], states[n + 1]);
    }
  }

  /** The stage only moves on: a later state of a trace follows every earlier one. */
  lemma {:induction false} TraceFollows(c: Checkout, b: Release, states: seq<Sys>, moves: seq<Move>, k: nat)
    returns (earlier: Stage, stage: Stage)
    requires Supported(c, b) && Trace(c, states, moves) && Initial(c, b, states[0]) && k <= |moves|
    ensures Keeps(c, b, earlier, states[k]) && Keeps(c, b, stage, states[|moves|]) && Follows(earlier, stage)
    decreases |moves|
  {
    var n := |moves|;
    if k == n {
      stage := TraceKeeps(c, b, states, moves);
      earlier := stage;
    } else {
      var before;
      earlier, before := TraceFollows(c, b, states[..n], moves[..n - 1], k);
      stage := EveryMoveKeeps(c, b, before, states[n - 1], moves[n - 1], states[n]);
    }
  }

  /** Over every interleaving: an identity row, once written, is never changed. */
  lemma RowNeverChanges(c: Checkout, b: Release, states: seq<Sys>, moves: seq<Move>, k: nat)
    requires Supported(c, b) && Trace(c, states, moves) && Initial(c, b, states[0])
    requires k <= |moves| && states[k].db.identity != NoTable
    ensures states[|moves|].db.identity == states[k].db.identity
  {
    var earlier, stage := TraceFollows(c, b, states, moves, k);
  }

  /** Over every interleaving of any number of runners, with lock connections dying at any point: two
      mutating transactions never overlap, and none runs without the fence. */
  lemma TransactionsNeverOverlap(c: Checkout, b: Release, states: seq<Sys>, moves: seq<Move>, i: nat, j: nat)
    requires Supported(c, b) && Trace(c, states, moves) && Initial(c, b, states[0])
    requires var s := states[|moves|];
             i < |s.runners| && j < |s.runners| && s.runners[i].pc.InTransaction? && s.runners[j].pc.InTransaction?
    ensures i == j && states[|moves|].fence == Some(i)
  {
    var s := states[|moves|];
    var stage := TraceKeeps(c, b, states, moves);
    assert RunnerKeeps(c, b, stage, s, i) && RunnerKeeps(c, b, stage, s, j);
  }

  /** A runner commits at most one further transaction after its lock connection died. */
  lemma OneCommitAfterLosingTheLock(c: Checkout, b: Release, states: seq<Sys>, moves: seq<Move>, i: nat)
    requires Supported(c, b) && Trace(c, states, moves) && Initial(c, b, states[0])
    requires i < |states[|moves|].runners|
    ensures states[|moves|].runners[i].late <= 1
  {
    var stage := TraceKeeps(c, b, states, moves);
    assert RunnerKeeps(c, b, stage, states[|moves|], i);
  }

  lemma DoneIsPrefix(c: Checkout, b: Release, stage: Stage)
    ensures Done(c, b, stage) <= [IdentityPass] + Applies(LaterOf(c, b))
  {
    var later := LaterOf(c, b);
    if stage.Passed? && stage.applied <= |later| {
      assert Applies(later[..stage.applied]) == Applies(later)[..stage.applied];
    }
  }

  lemma AllDistinct(files: seq<Filename>, done: seq<Tx>, i: nat, j: nat)
    requires Sorted(files) && done <= [IdentityPass] + Applies(files) && i < j < |done|
    ensures done[i] != done[j]
  {
    assert done[j] == Apply(files[j - 1]);
    assert i > 0 ==> done[i] == Apply(files[i - 1]);
  }

  /** The ledger's transactions, from all runners together, are one run's: the pass, then later files in
      filename order; so no file's row and no identity pass commits twice. */
  lemma NothingCommitsTwice(c: Checkout, b: Release, states: seq<Sys>, moves: seq<Move>)
    requires Supported(c, b) && Trace(c, states, moves) && Initial(c, b, states[0])
    ensures var done := Mutations(states[|moves|].log);
            && done <= [IdentityPass] + Applies(LaterOf(c, b))
            && forall i, j :: 0 <= i < j < |done| ==> done[i] != done[j]
  {
    var stage := TraceKeeps(c, b, states, moves);
    var done := Mutations(states[|moves|].log);
    BaselineFacts(c, b);
    DoneIsPrefix(c, b, stage);
    forall i, j | 0 <= i < j < |done| ensures done[i] != done[j] {
      AllDistinct(LaterOf(c, b), done, i, j);
    }
  }

  /** The file whose row a transaction records. */
  function Records(tx: Tx): Filename {
    if tx.Apply? then tx.file else IDENTITY_MIGRATION
  }

  lemma DoneRecords(c: Checkout, b: Release, stage: Stage, i: nat)
    requires i < |Done(c, b, stage)|
    ensures stage.Passed? && stage.applied <= |LaterOf(c, b)|
    ensures Records(Done(c, b, stage)[i]) == if i == 0 then IDENTITY_MIGRATION else LaterOf(c, b)[i - 1]
    ensures i > 0 ==> LaterOf(c, b)[i - 1] in Members(LaterOf(c, b)[..stage.applied])
  {
    if i > 0 { assert LaterOf(c, b)[..stage.applied][i - 1] == LaterOf(c, b)[i - 1]; }
  }

  /** Over every interleaving: rows carry the time their transactions began, before the fence, and those times
      are in the order the transactions committed in, and after every row of the baseline. */
  lemma TimesFollowCommits(c: Checkout, b: Release, states: seq<Sys>, moves: seq<Move>, i: nat, j: nat)
    requires Supported(c, b) && Trace(c, states, moves) && Initial(c, b, states[0])
    requires i < j < |Mutations(states[|moves|].log)|
    ensures states[|moves|].db.ledger.Some?
    ensures var rows, done := states[|moves|].db.ledger.value, Mutations(states[|moves|].log);
            && Records(done[i]) in rows && Records(done[j]) in rows
            && rows[Records(done[i])] < rows[Records(done[j])]
            && forall file :: file in b.migrations ==> file in rows && rows[file] < rows[Records(done[i])]
  {
    var stage := TraceKeeps(c, b, states, moves);
    DoneRecords(c, b, stage, i);
    DoneRecords(c, b, stage, j);
    RowOrder(states[|moves|].db.ledger.value, Members(b.migrations), LaterOf(c, b), stage.applied, i, j);
    assert forall file :: file in b.migrations ==> file in Members(b.migrations);
  }

  lemma RowOrder(at: map<Filename, int>, base: set<Filename>, later: seq<Filename>, n: nat, i: nat, j: nat)
    requires n <= |later| && PassedRows(at, base, later, n) && i < j <= n
    ensures var first, second := if i == 0 then IDENTITY_MIGRATION else later[i - 1], later[j - 1];
            && first in at && second in at && at[first] < at[second]
            && forall file :: file in base ==> file in at && at[file] < at[first]
  {
    assert later[..n][j - 1] == later[j - 1];
    if i > 0 { assert later[..n][i - 1] == later[i - 1]; }
  }

  /** Every state the runners leave together is one that runs killed one after another leave, so a later
      run plans on it; and a manifest, once there, is over the whole list. */
  lemma RunnersLeaveWhatKillsLeave(c: Checkout, b: Release, states: seq<Sys>, moves: seq<Move>,
                                   o: Options, confirmed: Option<PreIdentity>, f: Faults) returns (stage: Stage)
    requires Supported(c, b) && Trace(c, states, moves) && Initial(c, b, states[0])
    ensures IsAt(c, b, stage, states[|moves|].db)
    ensures var plan := PlanRun(c, states[|moves|].db, o, confirmed, f); plan.Failure? ==> AboutTheRun(plan.error)
    ensures states[|moves|].db.manifest.Some? ==> LedgerOf(states[|moves|].db) == c.snapshot
  {
    stage := TraceKeeps(c, b, states, moves);
    PlanNeverRefusesTheState(c, b, stage, states[|moves|].db, o, confirmed, f);
    if states[|moves|].db.manifest.Some? { WholeList(c, b, stage, states[|moves|].db); }
  }

  /** After any interleaving, an undisturbed run that the gates admit ends the whole migration. */
  lemma ConvergesAfterAnyInterleaving(c: Checkout, b: Release, states: seq<Sys>, moves: seq<Move>, next: Attempt)
    requires Supported(c, b) && Trace(c, states, moves) && Initial(c, b, states[0])
    requires Undisturbed(next.f) && next.f.killAfter == None && MayRun(c, states[|moves|].db, next.o, next.confirmed)
    ensures var out := Run(c, states[|moves|].db, next.o, next.confirmed, next.f);
            out.stop == None && Converged(c, out.db)
  {
    var stage := TraceKeeps(c, b, states, moves);
    Converges(c, b, stage, states[|moves|].db, next.o, next.confirmed, next.f);
  }

  // ── The bound is reached ──────────────────────────────────────────────────────────────────

  lemma Extends(c: Checkout, states: seq<Sys>, moves: seq<Move>, m: Move, next: Sys)
    requires Trace(c, states, moves) && Next(c, states[|moves|], m, next)
    ensures Trace(c, states + [next], moves + [m])
  {
    var all, steps := states + [next], moves + [m];
    forall k | 0 <= k < |steps| ensures Next(c, all[k], steps[k], all[k + 1]) {
      assert k < |moves| ==> all[k] == states[k] && all[k + 1] == states[k + 1] && steps[k] == moves[k];
    }
  }

  /** A runner about to make its first transaction on a baseline's database, its plan made and its lock proven. */
  ghost predicate InFirstTransaction(s: Sys, plan: Plan, o: Options, confirmed: Option<PreIdentity>) {
    && s.session == Some(0) && s.fence == Some(0) && s.log == []
    && s.runners == [Runner(o, confirmed, InTransaction(plan, Steps(plan), s.db.clock), false, 0)]
  }

  lemma ReachesItsTransaction(c: Checkout, db: Db, o: Options, confirmed: Option<PreIdentity>, f: Faults, plan: Plan)
    returns (states: seq<Sys>, moves: seq<Move>)
    requires Admit(c, db, o, confirmed, f) == None && Steps(plan) != []
    requires PlanFrom(c, db, ReadPreIdentityState(c, db, o), f) == Success(plan)
    ensures Trace(c, states, moves) && states[0] == Sys(db, None, None, [], [])
    ensures states[|moves|].db == db && InFirstTransaction(states[|moves|], plan, o, confirmed)
  {
    states, moves := Starts(c, db, o, confirmed);
    states, moves := Vets(c, states, moves, db, o, confirmed, f);
    states, moves := Plans(c, states, moves, db, o, confirmed, ReadPreIdentityState(c, db, o), f, plan);
    states, moves := TakesTheFence(c, states, moves, db, o, confirmed, plan);
  }

  /** One runner, holding the lock, at `pc`. */
  function Alone(db: Db, o: Options, confirmed: Option<PreIdentity>, pc: Pc): Sys {
    Sys(db, Some(0), if pc.InTransaction? then Some(0) else None, [Runner(o, confirmed, pc, false, 0)], [])
  }

  lemma Starts(c: Checkout, db: Db, o: Options, confirmed: Option<PreIdentity>) returns (states: seq<Sys>, moves: seq<Move>)
    ensures Trace(c, states, moves) && states[0] == Sys(db, None, None, [], [])
    ensures states[|moves|] == Alone(db, o, confirmed, Started)
  {
    var s := Sys(db, None, None, [], []);
    states, moves := [s], [];
    states, moves := Goes(c, states, moves, Spawn(o, confirmed), s.(runners := [Runner(o, confirmed, Waiting, false, 0)]));
    states, moves := Goes(c, states, moves, Acquire(0), Alone(db, o, confirmed, Locked));
    states, moves := Goes(c, states, moves, Begin(0), Alone(db, o, confirmed, Started));
  }

  lemma Vets(c: Checkout, before: seq<Sys>, done: seq<Move>, db: Db, o: Options, confirmed: Option<PreIdentity>, f: Faults)
    returns (states: seq<Sys>, moves: seq<Move>)
    requires Trace(c, before, done) && before[|done|] == Alone(db, o, confirmed, Started)
    requires Admit(c, db, o, confirmed, f) == None
    ensures Trace(c, states, moves) && states[0] == before[0]
    ensures states[|moves|] == Alone(db, o, confirmed, Vetted(ReadPreIdentityState(c, db, o)))
  {
    states, moves := Goes(c, before, done, Vet(0, f), Alone(db, o, confirmed, Vetted(ReadPreIdentityState(c, db, o))));
  }

  lemma Plans(c: Checkout, before: seq<Sys>, done: seq<Move>, db: Db, o: Options, confirmed: Option<PreIdentity>,
              pre: Option<PreIdentity>, f: Faults, plan: Plan) returns (states: seq<Sys>, moves: seq<Move>)
    requires Trace(c, before, done) && before[|done|] == Alone(db, o, confirmed, Vetted(pre))
    requires PlanFrom(c, db, pre, f) == Success(plan)
    ensures Trace(c, states, moves) && states[0] == before[0]
    ensures states[|moves|] == Alone(db, o, confirmed, Ready(plan, Steps(plan)))
  {
    states, moves := Goes(c, before, done, MakePlan(0, f), Alone(db, o, confirmed, Ready(plan, Steps(plan))));
  }

  lemma TakesTheFence(c: Checkout, before: seq<Sys>, done: seq<Move>, db: Db, o: Options, confirmed: Option<PreIdentity>,
                      plan: Plan)
    returns (states: seq<Sys>, moves: seq<Move>)
    requires Trace(c, before, done) && before[|done|] == Alone(db, o, confirmed, Ready(plan, Steps(plan))) && Steps(plan) != []
    ensures Trace(c, states, moves) && states[0] == before[0]
    ensures states[|moves|].db == db && InFirstTransaction(states[|moves|], plan, o, confirmed)
  {
    states, moves := Goes(c, before, done, Prove(0), Alone(db, o, confirmed, Proven(plan, Steps(plan))));
    states, moves := Goes(c, states, moves, Open(0), Alone(db, o, confirmed, Opened(plan, Steps(plan), db.clock)));
    states, moves := Goes(c, states, moves, TakeFence(0), Alone(db, o, confirmed, InTransaction(plan, Steps(plan), db.clock)));
  }

  lemma Goes(c: Checkout, before: seq<Sys>, done: seq<Move>, m: Move, next: Sys) returns (states: seq<Sys>, moves: seq<Move>)
    requires Trace(c, before, done) && Next(c, before[|done|], m, next)
    ensures Trace(c, states, moves) && states[|moves|] == next && states[0] == before[0]
  {
    states, moves := before + [next], done + [m];
    Extends(c, before, done, m, next);
  }

  /** The one late commit does happen: on any supported baseline's database a runner whose lock died inside its
      transaction commits it while another runner holds the lock. */
  lemma OneLateCommitHappens(c: Checkout, b: Release, db: Db, o: Options) returns (states: seq<Sys>, moves: seq<Move>)
    requires Supported(c, b) && IsAt(c, b, Untouched, db)
    requires o.caller == Operator && o.connection == Remote && o.env != EnvUnset
    ensures Trace(c, states, moves) && Initial(c, b, states[0])
    ensures var s := states[|moves|];
            |s.runners| == 2 && s.runners[0].late == 1 && s.session == Some(1) && s.log == [IdentityPass]
  {
    var confirmed := Some(PreIdentity(b.name, b.migrations));
    var f := Faults(true, true, {}, {}, true, None, None);
    var plan, next := FirstTransaction(c, b, db, o, confirmed, f);
    states, moves := ReachesItsTransaction(c, db, o, confirmed, f, plan);
    states, moves := CommitsLate(c, states, moves, o, confirmed, f, plan, next);
  }

  lemma FirstTransaction(c: Checkout, b: Release, db: Db, o: Options, confirmed: Option<PreIdentity>,
                         f: Faults) returns (plan: Plan, next: Db)
    requires Supported(c, b) && IsAt(c, b, Untouched, db) && Undisturbed(f)
    requires o.caller == Operator && o.connection == Remote && o.env != EnvUnset
    requires confirmed == Some(PreIdentity(b.name, b.migrations))
    ensures Admit(c, db, o, confirmed, f) == None && PlanFrom(c, db, ReadPreIdentityState(c, db, o), f) == Success(plan)
    ensures Steps(plan) != [] && Steps(plan)[0] == IdentityPass && Execute(c, db, plan, o, f, IdentityPass) == Success(next)
  {
    MayTakeThePass(c, b, db, o);
    PlanNeverRefusesTheState(c, b, Untouched, db, o, confirmed, f);
    PlanGoes(c, db, o, confirmed, f);
    plan := PlanRun(c, db, o, confirmed, f).value;
    PlanSays(c, db, o, confirmed, f, plan);
    PlansAt(c, b, Untouched, db, o, plan);
    NextCommits(c, b, Untouched, db, plan, o, f);
    next := Execute(c, db, plan, o, f, IdentityPass).value;
  }

  lemma CommitsLate(c: Checkout, before: seq<Sys>, done: seq<Move>, o: Options, confirmed: Option<PreIdentity>, f: Faults,
                    plan: Plan, next: Db)
    returns (states: seq<Sys>, moves: seq<Move>)
    requires Trace(c, before, done) && InFirstTransaction(before[|done|], plan, o, confirmed)
    requires Steps(plan) != [] && Steps(plan)[0] == IdentityPass
    requires Execute(c, before[|done|].db, plan, o, f, IdentityPass) == Success(next)
    ensures Trace(c, states, moves) && states[0] == before[0]
    ensures var s := states[|moves|];
            |s.runners| == 2 && s.runners[0].late == 1 && s.session == Some(1) && s.log == [IdentityPass]
  {
    var held: Sys;
    ClockAfter(c, before[|done|].db, plan, o, f, IdentityPass, next);
    states, moves, held := LockPasses(c, before, done, plan, o, confirmed);
    var first, second := held.runners[0], held.runners[1];
    var after := first.(pc := Ready(plan, Steps(plan)[1..]), late := 1);
    var end := Sys(next, Some(1), None, [after, second], [IdentityPass]);
    assert held.runners == [first, second];
    CommitIsNext(c, held, first, second, after, plan, Steps(plan), o, f, end);
    states, moves := Goes(c, states, moves, Move.Commit(0, f), end);
  }

  lemma CommitIsNext(c: Checkout, held: Sys, first: Runner, second: Runner, after: Runner, plan: Plan, todo: seq<Tx>,
                     o: Options, f: Faults, end: Sys)
    requires held.runners == [first, second] && held.log == [] && held.session == Some(1)
    requires first.pc == InTransaction(plan, todo, held.db.clock) && first.o == o && first.lost && first.late == 0
    requires todo != [] && todo[0] == IdentityPass
    requires ExecuteBegun(c, held.db, held.db.clock, plan, o, f, IdentityPass) == Success(end.db)
    requires after == first.(pc := Ready(plan, todo[1..]), late := 1)
    requires end == Sys(end.db, Some(1), None, [after, second], [IdentityPass])
    ensures Next(c, held, Move.Commit(0, f), end)
  {
    assert held.runners[0 := after] == [after, second];
    assert held.log + [todo[0]] == [IdentityPass];
  }

  /** The first runner's lock dies inside its transaction, and a second runner takes the lock. */
  lemma LockPasses(c: Checkout, before: seq<Sys>, done: seq<Move>, plan: Plan, o: Options, confirmed: Option<PreIdentity>)
    returns (states: seq<Sys>, moves: seq<Move>, held: Sys)
    requires Trace(c, before, done) && InFirstTransaction(before[|done|], plan, o, confirmed)
    ensures Trace(c, states, moves) && states[0] == before[0] && states[|moves|] == held
    ensures |held.runners| == 2
    ensures held.runners[0] == Runner(o, confirmed, InTransaction(plan, Steps(plan), held.db.clock), true, 0)
    ensures held.session == Some(1) && held.log == [] && held.db == before[|done|].db
  {
    var s := before[|done|];
    var first := s.runners[0].(lost := true);
    var second := Runner(o, confirmed, Waiting, false, 0);
    states, moves := Goes(c, before, done, LockDies(0), s.(session := None, runners := [first]));
    states, moves := Goes(c, states, moves, Spawn(o, confirmed), s.(session := None, runners := [first, second]));
    held := s.(session := Some(1), runners := [first, second.(pc := Locked)]);
    states, moves := Goes(c, states, moves, Acquire(1), held);
  }
}
