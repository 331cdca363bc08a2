/** The run as the source writes it: a database changed transaction by transaction, each one's phase
    journaled before its lock is proven (runMigrate), inside the command that opens with the plan and the
    gates and ends with the receipt (migrateCommand). */
module MigrateCommand {
  import opened Filenames
  import opened Wrappers
  import opened MigrateTarget
  import opened MigrateRun
  import opened MigrateProgress
  import opened MigrateJournal

  function PhaseOf(tx: Tx): Phase {
    match tx
    case IdentityPass => IdentityFirst
    case Apply(file) => ApplyFile(file)
    case Publish => ReconcileAndPublish
  }

  function PhasesOf(txs: seq<Tx>): (r: seq<Phase>)
    ensures |r| == |txs| && forall i :: 0 <= i < |r| ==> r[i] == PhaseOf(txs[i])
  {
    seq(|txs|, i requires 0 <= i < |txs| => PhaseOf(txs[i]))
  }

  /** The transactions whose phase began: what committed, and the one a run stopped in before it committed. */
  function Attempted(steps: seq<Tx>, out: Outcome): seq<Tx> {
    if out.stop.None? || out.stop.value.Killed? then out.committed
    else if |out.committed| < |steps| then steps[..|out.committed| + 1]
    else steps
  }

  /** The phases a run begins. */
  function RunPhases(c: Checkout, db: Db, o: Options, confirmed: Option<PreIdentity>, f: Faults): seq<Phase> {
    var plan := PlanRun(c, db, o, confirmed, f);
    if !f.Proven(0) || plan.Failure? then [Start]
    else [Start] + PhasesOf(Attempted(Steps(plan.value), Run(c, db, o, confirmed, f)))
  }

  function AsNames(phases: seq<Phase>): (r: seq<Name>)
    ensures |r| == |phases| && forall i :: 0 <= i < |r| ==> r[i] == Named(phases[i])
  {
    seq(|phases|, i requires 0 <= i < |phases| => Named(phases[i]))
  }

  /** An open journal became `after`: still open, with `phases` begun since. */
  ghost predicate Journals(before: File, phases: seq<Phase>, after: File) {
    Valid(after) && !after.Closed() && Names(after.phases) == Names(before.phases) + AsNames(phases)
  }

  lemma JournalsOneMore(before: File, phases: seq<Phase>, file: File, phase: Phase, now: int)
    requires Journals(before, phases, file)
    ensures Journals(before, phases + [phase], AfterBegin(file, phase, now))
  {
    CallKeeps(file, Call.Begin(phase), now);
    NamesAfter(file, Call.Begin(phase), now);
    assert AsNames(phases + [phase]) == AsNames(phases) + [Named(phase)];
  }

  /** A transaction fails of itself, never as a kill. */
  ghost predicate NeverKills(execute: Transaction) {
    forall db, tx :: execute(db, tx).Failure? ==> !execute(db, tx).error.Killed?
  }

  lemma TransactionsNeverKill(c: Checkout, plan: Plan, o: Options, f: Faults)
    ensures NeverKills(Transactions(c, plan, o, f))
  {
    forall db, tx | Transactions(c, plan, o, f)(db, tx).Failure?
      ensures !Transactions(c, plan, o, f)(db, tx).error.Killed?
    {
      match tx
      case IdentityPass =>
      case Apply(_) =>
      case Publish =>
    }
  }

  /** A run is its first transaction and, when that did not stop it, the rest from where it ended. */
  lemma OneThenRest(execute: Transaction, f: Faults, db: Db, tx: Tx, rest: seq<Tx>, commits: nat)
    requires NeverKills(execute)
    ensures var one := RunFrom(execute, f, db, [tx], commits);
            && Attempted([tx] + rest, one) == [tx]
            && (one.stop.None? ==> one.committed == [tx])
            && RunFrom(execute, f, db, [tx] + rest, commits) ==
               if one.stop.Some? then one else After([tx], RunFrom(execute, f, one.db, rest, commits + 1))
  {
    assert ([tx] + rest)[1..] == rest;
    assert ([tx] + rest)[..1] == [tx];
  }

  /** What is attempted of `done + rest`, once `done` has committed. */
  lemma AttemptedAfter(done: seq<Tx>, rest: seq<Tx>, out: Outcome)
    ensures Attempted(done + rest, After(done, out)) == done + Attempted(rest, out)
  {
    var n := |out.committed|;
    if n < |rest| {
      assert (done + rest)[..|done| + n + 1] == done + rest[..n + 1];
    }
  }

  /** Where the loop stands: `done` has committed, and the rest from here makes up the whole. */
  ghost predicate Midway(execute: Transaction, f: Faults, steps: seq<Tx>, total: Outcome, done: seq<Tx>, left: seq<Tx>,
                         db: Db, commits: nat) {
    && NeverKills(execute)
    && steps == done + left
    && total == After(done, RunFrom(execute, f, db, left, commits + |done|))
  }

  lemma Advances(execute: Transaction, f: Faults, steps: seq<Tx>, total: Outcome, done: seq<Tx>, tx: Tx, left: seq<Tx>,
                 db: Db, commits: nat)
    requires Midway(execute, f, steps, total, done, [tx] + left, db, commits)
    ensures var one := RunFrom(execute, f, db, [tx], commits + |done|);
            && (one.stop.None? ==> one.committed == [tx] && Midway(execute, f, steps, total, done + [tx], left, one.db, commits))
            && (one.stop.Some? ==> total == After(done, one) && Attempted(steps, total) == done + [tx])
  {
    var one := RunFrom(execute, f, db, [tx], commits + |done|);
    OneThenRest(execute, f, db, tx, left, commits + |done|);
    if one.stop.Some? {
      AttemptedAfter(done, [tx] + left, one);
    }
  }

  lemma Ends(execute: Transaction, f: Faults, steps: seq<Tx>, total: Outcome, done: seq<Tx>, db: Db, commits: nat)
    requires Midway(execute, f, steps, total, done, [], db, commits)
    ensures total == Outcome(db, done, None) && Attempted(steps, total) == done
  {
  }

  lemma NextStep(pending: seq<Filename>, i: nat, skip: bool)
    requires i < |pending|
    ensures LoopSteps(pending[i..], skip) ==
            if skip && pending[i] == IDENTITY_MIGRATION then LoopSteps(pending[i + 1..], skip)
            else [Apply(pending[i])] + LoopSteps(pending[i + 1..], skip)
  {
    assert pending[i..][1..] == pending[i + 1..];
  }

  lemma JournalsJoin(before: File, a: seq<Phase>, middle: File, b: seq<Phase>, after: File)
    requires Journals(before, a, middle) && Journals(middle, b, after)
    ensures Journals(before, a + b, after)
  {
    assert AsNames(a + b) == AsNames(a) + AsNames(b);
  }

  lemma MoveJournals(was: File, done: seq<Tx>, before: File, tx: Tx, after: File)
    requires Journals(was, PhasesOf(done), before)
    requires exists now :: after == AfterBegin(before, PhaseOf(tx), now)
    ensures Journals(was, PhasesOf(done + [tx]), after)
  {
    var now :| after == AfterBegin(before, PhaseOf(tx), now);
    JournalsOneMore(was, PhasesOf(done), before, PhaseOf(tx), now);
    assert PhasesOf(done + [tx]) == PhasesOf(done) + [PhaseOf(tx)];
  }

  lemma StartJournaled(was: File, now: int)
    requires Valid(was) && !was.Closed()
    ensures Journals(was, [Start], AfterBegin(was, Start, now))
  {
    assert Journals(was, [], was);
    JournalsOneMore(was, [], was, Start, now);
    assert [] + [Start] == [Start];
  }

  class Target {
    var db: Db

    constructor (db: Db)
      ensures this.db == db
    {
      this.db := db;
    }

    /** One boundary: journal the phase, prove the lock, commit one fenced transaction, all of it or none. */
    method Step(execute: Transaction, f: Faults, tx: Tx, commits: nat, j: MigrateJournal)
      returns (committed: seq<Tx>, stop: Option<Refusal>)
      modifies this, j
      ensures Outcome(db, committed, stop) == RunFrom(execute, f, old(db), [tx], commits)
      ensures exists now :: j.record == AfterBegin(old(j.record), PhaseOf(tx), now)
    {
      j.Begin(PhaseOf(tx));
      if !f.Proven(commits + 1) { return [], Some(LockLost(commits + 1)); }
      var r := execute(db, tx);
      if r.Failure? { return [], Some(r.error); }
      db := r.value;
      return [tx], if f.KilledAfter(commits + 1) then Some(Killed(commits + 1)) else None;
    }

    /** The step after `done`, and the journal it leaves. */
    method Move(execute: Transaction, f: Faults, commits: nat, done: seq<Tx>, tx: Tx, j: MigrateJournal,
                ghost steps: seq<Tx>, ghost total: Outcome, ghost left: seq<Tx>, ghost was: File)
      returns (committed: seq<Tx>, stop: Option<Refusal>)
      requires Midway(execute, f, steps, total, done, [tx] + left, db, commits)
      requires Journals(was, PhasesOf(done), j.record)
      modifies this, j
      ensures stop.None? ==> committed == done + [tx] && Midway(execute, f, steps, total, committed, left, db, commits)
      ensures stop.Some? ==> Outcome(db, committed, stop) == total && Attempted(steps, total) == done + [tx]
      ensures Journals(was, PhasesOf(done + [tx]), j.record)
    {
      ghost var before := j.record;
      Advances(execute, f, steps, total, done, tx, left, db, commits);
      committed, stop := Step(execute, f, tx, commits + |done|, j);
      committed := done + committed;
      MoveJournals(was, done, before, tx, j.record);
    }

    /** The apply loop, and the publish that ends it, after `before` was committed. */
    method ApplyAndPublish(execute: Transaction, pending: seq<Filename>, skip: bool, f: Faults, before: seq<Tx>, j: MigrateJournal,
                           ghost steps: seq<Tx>, ghost total: Outcome, ghost was: File)
      returns (committed: seq<Tx>, stop: Option<Refusal>)
      requires Midway(execute, f, steps, total, before, LoopSteps(pending, skip), db, 0)
      requires Journals(was, PhasesOf(before), j.record)
      modifies this, j
      ensures Outcome(db, committed, stop) == total
      ensures Journals(was, PhasesOf(Attempted(steps, total)), j.record)
    {
      committed, stop := before, None;
      var i := 0;
      assert pending[0..] == pending;
      while i < |pending|
        invariant 0 <= i <= |pending|
        invariant Midway(execute, f, steps, total, committed, LoopSteps(pending[i..], skip), db, 0)
        invariant Journals(was, PhasesOf(committed), j.record)
      {
        var file := pending[i];
        NextStep(pending, i, skip);
        if !(skip && file == IDENTITY_MIGRATION) {
          committed, stop := Move(execute, f, 0, committed, Apply(file), j, steps, total, LoopSteps(pending[i + 1..], skip), was);
          if stop.Some? { return; }
        }
        i := i + 1;
      }
      assert LoopSteps(pending[i..], skip) == [Publish] + [];
      committed, stop := Move(execute, f, 0, committed, Publish, j, steps, total, [], was);
      if stop.None? { Ends(execute, f, steps, total, committed, db, 0); }
    }

    /** The transactions of a plan: the identity-first pass when it has one, then the loop. */
    method Commit(execute: Transaction, plan: Plan, f: Faults, j: MigrateJournal) returns (committed: seq<Tx>,
                  stop: Option<Refusal>)
      requires NeverKills(execute) && Valid(j.record) && !j.record.Closed()
      modifies this, j
      ensures var out := RunFrom(execute, f, old(db), Steps(plan), 0);
              && Outcome(db, committed, stop) == out
              && Journals(old(j.record), PhasesOf(Attempted(Steps(plan), out)), j.record)
    {
      ghost var was := j.record;
      ghost var steps := Steps(plan);
      ghost var total := RunFrom(execute, f, db, steps, 0);
      assert After([], total) == total;
      committed, stop := [], None;
      assert plan.preIdentity.None? ==> steps == LoopSteps(plan.pending, false);
      if plan.preIdentity.Some? {
        committed, stop := Move(execute, f, 0, [], IdentityPass, j, steps, total, LoopSteps(plan.pending, true), was);
        if stop.Some? { return; }
      }
      committed, stop := ApplyAndPublish(execute, plan.pending, plan.preIdentity.Some?, f, committed, j, steps, total, was);
    }

    /** runMigrate: what the run commits, in order, why it stopped, and the phases it journals. */
    method RunMigrate(c: Checkout, o: Options, confirmed: Option<PreIdentity>, f: Faults, j: MigrateJournal)
      returns (committed: seq<Tx>, stop: Option<Refusal>)
      requires Valid(j.record) && !j.record.Closed()
      modifies this, j
      ensures Outcome(db, committed, stop) == Run(c, old(db), o, confirmed, f)
      ensures Journals(old(j.record), RunPhases(c, old(db), o, confirmed, f), j.record)
    {
      ghost var was := j.record;
      StartJournaled(was, j.clock);
      j.Begin(Start);
      if !f.Proven(0) { return [], Some(LockLost(0)); }
      var planned := PlanRun(c, db, o, confirmed, f);
      if planned.Failure? { return [], Some(planned.error); }
      TransactionsNeverKill(c, planned.value, o, f);
      ghost var started := j.record;
      committed, stop := Commit(Transactions(c, planned.value, o, f), planned.value, f, j);
      JournalsJoin(was, [Start], started, PhasesOf(Attempted(Steps(planned.value), Outcome(db, committed, stop))), j.record);
    }
  }

  // ── The command around the run ────────────────────────────────────────────────────────────

  /** What happens outside the run: the phase that something this model does not cover stops, if any (the
      lock, the ledger reconciliation, the credential, the confirmation, the receipt), whether its message
      says "Refusing", where the receipt goes, and whether a killed process still runs its exit handler. */
  datatype Around = Around(failsIn: Option<Phase>, saysRefusing: bool, receipt: string, exitHandler: bool)

  const OPENING := [PlanRead, Lock, Phase.Gates, Reconcile, Owner, Confirm]

  /** How a phase outside the run ends the command, if it does. The gates are one. */
  function Stops(c: Checkout, db: Db, o: Options, w: Around, phase: Phase): Option<Ending> {
    if w.failsIn == Some(phase) then Some(if w.saysRefusing then EndRefused else EndFailed)
    else if phase == Phase.Gates && CheckMigrateGates(c, db, o) != [] then Some(EndRefused)
    else None
  }

  /** The phases begun, up to the first that ends the command, and how it does. */
  function Open(stops: Phase -> Option<Ending>, phases: seq<Phase>): (seq<Phase>, Option<Ending>) {
    if phases == [] then ([], None)
    else if stops(phases[0]).Some? then ([phases[0]], stops(phases[0]))
    else
      var rest := Open(stops, phases[1..]);
      ([phases[0]] + rest.0, rest.1)
  }

  function StopsOf(c: Checkout, db: Db, o: Options, w: Around): Phase -> Option<Ending> {
    (phase: Phase) => Stops(c, db, o, w, phase)
  }

  /** A message that begins with "Refusing" is journaled as a refusal; every other one as a failure. */
  predicate SaysRefusing(why: Refusal) {
    || why.NotOwner? || why.Gates? || why.PreIdentityUnconfirmed? || why.Blank? || why.PostStateFails?
    || why.IdentityNotPending? || why.Gap? || why.StateMoved? || why.BaselineDiffers?
  }

  /** The run the command makes, on the state the confirmation named. */
  function CommandRun(c: Checkout, db: Db, o: Options, f: Faults): Outcome {
    Run(c, db, o, ReadPreIdentityState(c, db, o), f)
  }

  /** How a run's end closes the journal; not at all when the process died without its exit handler. */
  function RunEnding(w: Around, stop: Option<Refusal>): Option<Ending> {
    match stop
    case None => if w.failsIn == Some(Receipt) then Some(if w.saysRefusing then EndRefused else EndFailed) else Some(Succeeded)
    case Some(why) =>
      if !why.Killed? then Some(if SaysRefusing(why) then EndRefused else EndFailed)
      else if w.exitHandler then Some(EndInterrupted)
      else None
  }

  /** The run's phases, and the receipt's when the run went through. */
  function AfterOpening(c: Checkout, db: Db, o: Options, f: Faults): (r: seq<Phase>)
    ensures r != []
  {
    RunPhases(c, db, o, ReadPreIdentityState(c, db, o), f) + if CommandRun(c, db, o, f).stop.None? then [Receipt] else []
  }

  /** Every phase the command begins, in order, and how it closes its journal. */
  function Trail(c: Checkout, db: Db, o: Options, f: Faults, w: Around): (seq<Phase>, Option<Ending>) {
    var opening := Open(StopsOf(c, db, o, w), OPENING);
    if opening.1.Some? then opening
    else (opening.0 + AfterOpening(c, db, o, f), RunEnding(w, CommandRun(c, db, o, f).stop))
  }

  /** The journal holds these phases and, when there is an ending, is closed with it. */
  ghost predicate JournalsTo(before: File, trail: (seq<Phase>, Option<Ending>), after: File) {
    Valid(after) && after.outcome == trail.1 && Names(after.phases) == Names(before.phases) + AsNames(trail.0)
  }

  lemma ClosesWith(before: File, phases: seq<Phase>, file: File, ending: Ending, reason: Option<string>,
                   receipt: Option<string>, now: int)
    requires Journals(before, phases, file) && phases != []
    ensures JournalsTo(before, (phases, Some(ending)), AfterClose(file, ending, reason, receipt, now))
  {
    var call := Call.Close(ending, reason, receipt);
    CallKeeps(file, call, now);
    NamesAfter(file, call, now);
    assert Names(file.phases) != [];
  }

  /** The phases `done` ended nothing, and the rest makes up the whole. */
  ghost predicate OpenSoFar(stops: Phase -> Option<Ending>, total: (seq<Phase>, Option<Ending>), done: seq<Phase>,
                            left: seq<Phase>) {
    total == (done + Open(stops, left).0, Open(stops, left).1)
  }

  lemma OpenOneMore(stops: Phase -> Option<Ending>, total: (seq<Phase>, Option<Ending>), done: seq<Phase>, phase: Phase,
                    left: seq<Phase>)
    requires OpenSoFar(stops, total, done, [phase] + left)
    ensures if stops(phase).Some? then total == (done + [phase], stops(phase)) else OpenSoFar(stops, total, done + [phase], left)
  {
    assert ([phase] + left)[1..] == left;
    var rest := Open(stops, left).0;
    assert done + ([phase] + rest) == done + [phase] + rest;
  }

  /** Begin these phases in turn; the first that ends the command closes the journal. */
  method BeginInTurn(stops: Phase -> Option<Ending>, phases: seq<Phase>, j: MigrateJournal) returns (stopped: bool)
    requires Valid(j.record) && !j.record.Closed()
    modifies j
    ensures stopped <==> Open(stops, phases).1.Some?
    ensures stopped ==> JournalsTo(old(j.record), Open(stops, phases), j.record)
    ensures !stopped ==> Journals(old(j.record), Open(stops, phases).0, j.record)
  {
    ghost var was := j.record;
    ghost var total := Open(stops, phases);
    NothingBegun(stops, total, phases, was);
    var i := 0;
    while i < |phases|
      invariant 0 <= i <= |phases|
      invariant BegunTo(stops, total, phases, i, was, j.record)
    {
      BeginsNext(stops, total, phases, i, was, j.record, j.clock);
      j.Begin(phases[i]);
      if stops(phases[i]).Some? {
        CloseAs(stops(phases[i]).value, "", was, phases[..i + 1], j);
        return true;
      }
      i := i + 1;
    }
    AllBegun(stops, total, phases, was, j.record);
    return false;
  }

  /** The first `i` phases have begun and ended nothing. */
  ghost predicate BegunTo(stops: Phase -> Option<Ending>, total: (seq<Phase>, Option<Ending>), phases: seq<Phase>, i: nat,
                          was: File, now: File)
    requires i <= |phases|
  {
    OpenSoFar(stops, total, phases[..i], phases[i..]) && Journals(was, phases[..i], now)
  }

  lemma NothingBegun(stops: Phase -> Option<Ending>, total: (seq<Phase>, Option<Ending>), phases: seq<Phase>, was: File)
    requires total == Open(stops, phases) && Valid(was) && !was.Closed()
    ensures BegunTo(stops, total, phases, 0, was, was)
  {
    assert phases[..0] == [] && phases[0..] == phases && [] + total.0 == total.0;
  }

  lemma BeginsNext(stops: Phase -> Option<Ending>, total: (seq<Phase>, Option<Ending>), phases: seq<Phase>, i: nat,
                   was: File, file: File, now: int)
    requires i < |phases| && BegunTo(stops, total, phases, i, was, file)
    ensures Journals(was, phases[..i + 1], AfterBegin(file, phases[i], now))
    ensures if stops(phases[i]).Some? then total == (phases[..i + 1], stops(phases[i]))
            else BegunTo(stops, total, phases, i + 1, was, AfterBegin(file, phases[i], now))
  {
    assert phases[i..] == [phases[i]] + phases[i + 1..] && phases[..i + 1] == phases[..i] + [phases[i]];
    OpenOneMore(stops, total, phases[..i], phases[i], phases[i + 1..]);
    JournalsOneMore(was, phases[..i], file, phases[i], now);
  }

  lemma AllBegun(stops: Phase -> Option<Ending>, total: (seq<Phase>, Option<Ending>), phases: seq<Phase>, was: File, now: File)
    requires BegunTo(stops, total, phases, |phases|, was, now)
    ensures total == (phases, None) && Journals(was, phases, now)
  {
    assert phases[|phases|..] == [] && phases[..|phases|] == phases && phases + [] == phases;
  }

  /** migrateCommand with a journal: what it commits is the run's, and the journal it leaves holds every
      phase it began, ended as the command ended. */
  method MigrateCommand(t: Target, c: Checkout, o: Options, f: Faults, w: Around, target: string, j: MigrateJournal)
    returns (committed: seq<Tx>)
    requires Valid(j.record) && !j.record.Closed()
    modifies t, j
    ensures JournalsTo(old(j.record), Trail(c, old(t.db), o, f, w), j.record)
    ensures if Open(StopsOf(c, old(t.db), o, w), OPENING).1.Some? then t.db == old(t.db) && committed == []
            else t.db == CommandRun(c, old(t.db), o, f).db && committed == CommandRun(c, old(t.db), o, f).committed
  {
    j.SetTarget(target);
    ghost var was := j.record;
    var stopped := BeginInTurn(StopsOf(c, t.db, o, w), OPENING, j);
    if stopped { return []; }
    committed := RunAndClose(t, c, o, f, w, j, was, Open(StopsOf(c, t.db, o, w), OPENING).0);
  }

  /** The run, its receipt, and the close. */
  method RunAndClose(t: Target, c: Checkout, o: Options, f: Faults, w: Around, j: MigrateJournal, ghost was: File,
                     ghost opening: seq<Phase>)
    returns (committed: seq<Tx>)
    requires Journals(was, opening, j.record)
    modifies t, j
    ensures var out := CommandRun(c, old(t.db), o, f);
            && t.db == out.db && committed == out.committed
            && JournalsTo(was, (opening + AfterOpening(c, old(t.db), o, f), RunEnding(w, out.stop)), j.record)
  {
    ghost var ready := j.record;
    var confirmed := ReadPreIdentityState(c, t.db, o);
    ghost var run := RunPhases(c, t.db, o, confirmed, f);
    var stop;
    committed, stop := t.RunMigrate(c, o, confirmed, f, j);
    CloseCommand(w, stop, was, opening, ready, run, j);
  }

  /** The receipt of a run that went through, and how the command leaves its journal. */
  method CloseCommand(w: Around, stop: Option<Refusal>, ghost was: File, ghost opening: seq<Phase>, ghost ready: File,
                      ghost run: seq<Phase>,
                      j: MigrateJournal)
    requires Journals(was, opening, ready) && Journals(ready, run, j.record) && run != []
    modifies j
    ensures JournalsTo(was, (opening + (run + if stop.None? then [Receipt] else []), RunEnding(w, stop)), j.record)
  {
    ghost var phases := opening + (run + if stop.None? then [Receipt] else []);
    JournalsJoin(was, opening, ready, run, j.record);
    if stop.None? {
      JournalsOneMore(was, opening + run, j.record, Receipt, j.clock);
      j.Begin(Receipt);
      assert phases == opening + run + [Receipt];
    } else {
      assert phases == opening + run;
    }
    assert Journals(was, phases, j.record);
    var ending := RunEnding(w, stop);
    if ending.Some? { CloseAs(ending.value, w.receipt, was, phases, j); }
  }

  method CloseAs(ending: Ending, receipt: string, ghost was: File, ghost phases: seq<Phase>, j: MigrateJournal)
    requires Journals(was, phases, j.record) && phases != []
    modifies j
    ensures JournalsTo(was, (phases, Some(ending)), j.record)
  {
    var reason := if ending == Succeeded then None else Some("why the run stopped");
    var written := if ending == Succeeded then Some(receipt) else None;
    ClosesWith(was, phases, j.record, ending, reason, written, j.clock);
    if ending == EndInterrupted {
      j.CloseOnExit("why the run stopped");
    } else {
      j.Close(ending, reason, written);
    }
  }

  // ── The phase a journal ends in ───────────────────────────────────────────────────────────

  /** Why and where a run of these steps stopped. */
  ghost predicate StoppedAt(steps: seq<Tx>, commits: nat, out: Outcome) {
    && out.committed <= steps
    && match out.stop
       case None => out.committed == steps
       case Some(Killed(n)) => n == commits + |out.committed| && out.committed != []
       case Some(LockLost(n)) => |out.committed| < |steps| && n == commits + |out.committed| + 1
       case Some(why) => |out.committed| < |steps| && FailureOf(steps[|out.committed|], why)
  }

  lemma {:induction false} StopsWhere(c: Checkout, plan: Plan, o: Options, f: Faults, db: Db, steps: seq<Tx>, commits: nat)
    ensures StoppedAt(steps, commits, RunFrom(Transactions(c, plan, o, f), f, db, steps, commits))
    decreases |steps|
  {
    if steps != [] && f.Proven(commits + 1) {
      var execute := Transactions(c, plan, o, f);
      var first := execute(db, steps[0]);
      if first.Failure? {
        assert FailureOf(steps[0], first.error);
      } else if !f.KilledAfter(commits + 1) {
        StopsWhere(c, plan, o, f, first.value, steps[1..], commits + 1);
        StoppedOneLater(steps, commits, RunFrom(execute, f, first.value, steps[1..], commits + 1));
      }
    }
  }

  lemma StoppedOneLater(steps: seq<Tx>, commits: nat, rest: Outcome)
    requires steps != [] && StoppedAt(steps[1..], commits + 1, rest)
    ensures StoppedAt(steps, commits, After([steps[0]], rest))
  {
    assert [steps[0]] + steps[1..] == steps;
  }

  /** The phases of a run end where it stopped: "migrate: start", then one phase per committed transaction
      in the order they committed, then the transaction whose own failure it was, or the one whose lock
      could not be proven. A run refused while planning stopped in "migrate: start". */
  ghost predicate EndIn(phases: seq<Phase>, out: Outcome, planned: bool) {
    && [Start] + PhasesOf(out.committed) <= phases
    && match out.stop
       case None => phases == [Start] + PhasesOf(out.committed)
       case Some(Killed(n)) => phases == [Start] + PhasesOf(out.committed) && n == |out.committed| > 0
       case Some(LockLost(n)) => |phases| == n + 1
       case Some(why) =>
         if !planned then phases == [Start] && out.committed == []
         else |phases| == |out.committed| + 2 && exists tx :: FailureOf(tx, why) && Last(phases) == PhaseOf(tx)
  }

  lemma RunStopsInItsLastPhase(c: Checkout, db: Db, o: Options, confirmed: Option<PreIdentity>, f: Faults)
    ensures EndIn(RunPhases(c, db, o, confirmed, f), Run(c, db, o, confirmed, f),
                  f.Proven(0) && PlanRun(c, db, o, confirmed, f).Success?)
  {
    var planned := PlanRun(c, db, o, confirmed, f);
    if f.Proven(0) && planned.Success? {
      StopsWhere(c, planned.value, o, f, db, Steps(planned.value), 0);
      PhasesWhere(Steps(planned.value), RunFrom(Transactions(c, planned.value, o, f), f, db, Steps(planned.value), 0));
    } else {
      NothingPlanned(db, if f.Proven(0) then planned.error else LockLost(0));
      PlanningFails(c, db, o, confirmed, f);
    }
  }

  lemma NothingPlanned(db: Db, why: Refusal)
    ensures why == LockLost(0) || !(why.LockLost? || why.Killed?) ==> EndIn([Start], Outcome(db, [], Some(why)), false)
  {
  }

  lemma PlanningFails(c: Checkout, db: Db, o: Options, confirmed: Option<PreIdentity>, f: Faults)
    ensures var planned := PlanRun(c, db, o, confirmed, f);
            planned.Failure? ==> !(planned.error.LockLost? || planned.error.Killed?)
  {
  }

  lemma PhasesWhere(steps: seq<Tx>, out: Outcome)
    requires StoppedAt(steps, 0, out)
    ensures EndIn([Start] + PhasesOf(Attempted(steps, out)), out, true)
  {
    var n := |out.committed|;
    var tried := Attempted(steps, out);
    assert out.committed <= tried;
    assert PhasesOf(out.committed) <= PhasesOf(tried);
    if out.stop.Some? && !out.stop.value.Killed? {
      assert tried[n] == steps[n];
      assert Last([Start] + PhasesOf(tried)) == PhaseOf(steps[n]);
    }
  }

  // ── Which phases, in which order ──────────────────────────────────────────────────────────

  function ApplyPhases(files: seq<Filename>): (r: seq<Phase>)
    ensures |r| == |files| && forall i :: 0 <= i < |r| ==> r[i] == ApplyFile(files[i])
  {
    seq(|files|, i requires 0 <= i < |files| => ApplyFile(files[i]))
  }

  /** The phases of a plan: the identity-first pass when it takes it, each other pending file in filename order, and
      last the publish. */
  function PlanPhases(plan: Plan): seq<Phase> {
    if plan.preIdentity.Some?
    then [IdentityFirst] + ApplyPhases(Without(plan.pending, {IDENTITY_MIGRATION})) + [ReconcileAndPublish]
    else ApplyPhases(plan.pending) + [ReconcileAndPublish]
  }

  lemma {:induction false} LoopPhases(files: seq<Filename>)
    ensures PhasesOf(LoopSteps(files, false)) == ApplyPhases(files) + [ReconcileAndPublish]
    decreases |files|
  {
    if files == [] {
      assert ApplyPhases(files) == [] && [] + [ReconcileAndPublish] == [ReconcileAndPublish];
    } else {
      LoopPhases(files[1..]);
      OneMoreFile(files[0], LoopSteps(files[1..], false), files[1..]);
      assert files == [files[0]] + files[1..];
    }
  }

  lemma OneMoreFile(file: Filename, rest: seq<Tx>, files: seq<Filename>)
    requires PhasesOf(rest) == ApplyPhases(files) + [ReconcileAndPublish]
    ensures PhasesOf([Apply(file)] + rest) == ApplyPhases([file] + files) + [ReconcileAndPublish]
  {
    PhasesJoin([Apply(file)], rest);
    assert ApplyPhases([file] + files) == [ApplyFile(file)] + ApplyPhases(files);
  }

  lemma PhasesJoin(a: seq<Tx>, b: seq<Tx>)
    ensures PhasesOf(a + b) == PhasesOf(a) + PhasesOf(b)
  {
  }

  lemma StepsPhases(plan: Plan)
    ensures PhasesOf(Steps(plan)) == PlanPhases(plan)
  {
    if plan.preIdentity.Some? {
      SkippingIdentity(plan.pending);
      LoopPhases(Without(plan.pending, {IDENTITY_MIGRATION}));
      PhasesJoin([IdentityPass], LoopSteps(plan.pending, true));
      assert PhasesOf([IdentityPass]) == [IdentityFirst];
    } else {
      LoopPhases(plan.pending);
      assert Steps(plan) == LoopSteps(plan.pending, false);
    }
  }

  /** The phases a run journals: "migrate: start" and, when it planned, its plan's phases in their order, as far as it
      got; all of them when nothing stopped it. */
  lemma RunPhasesExact(c: Checkout, db: Db, o: Options, confirmed: Option<PreIdentity>, f: Faults)
    ensures var phases := RunPhases(c, db, o, confirmed, f);
            var planned := PlanRun(c, db, o, confirmed, f);
            if !f.Proven(0) || planned.Failure? then phases == [Start]
            else
              && phases <= [Start] + PlanPhases(planned.value)
              && (Run(c, db, o, confirmed, f).stop == None ==> phases == [Start] + PlanPhases(planned.value))
  {
    var planned := PlanRun(c, db, o, confirmed, f);
    if f.Proven(0) && planned.Success? {
      StepsPhases(planned.value);
      StopsWhere(c, planned.value, o, f, db, Steps(planned.value), 0);
      AttemptedIsPrefix(Steps(planned.value), Run(c, db, o, confirmed, f));
      StartThen(PhasesOf(Attempted(Steps(planned.value), Run(c, db, o, confirmed, f))), PlanPhases(planned.value));
    }
  }

  lemma StartThen(some: seq<Phase>, all: seq<Phase>)
    requires some <= all
    ensures [Start] + some <= [Start] + all
  {
  }

  lemma AttemptedIsPrefix(steps: seq<Tx>, out: Outcome)
    requires StoppedAt(steps, 0, out)
    ensures PhasesOf(Attempted(steps, out)) <= PhasesOf(steps)
    ensures out.stop == None ==> Attempted(steps, out) == steps
  {
  }

  /** The phases begun are those up to the first that ends the command, all of them when none does. */
  lemma {:induction false} OpenIs(stops: Phase -> Option<Ending>, phases: seq<Phase>, k: nat)
    requires k <= |phases| && forall j :: 0 <= j < k ==> stops(phases[j]) == None
    ensures k < |phases| && stops(phases[k]).Some? ==> Open(stops, phases) == (phases[..k + 1], stops(phases[k]))
    ensures k == |phases| ==> Open(stops, phases) == (phases, None)
    decreases |phases|
  {
    if k > 0 {
      assert forall j :: 0 <= j < k - 1 ==> phases[1..][j] == phases[j + 1];
      OpenIs(stops, phases[1..], k - 1);
      assert [phases[0]] + phases[1..] == phases;
      if k < |phases| { assert phases[1..][k - 1] == phases[k] && [phases[0]] + phases[1..][..k] == phases[..k + 1]; }
    } else if phases != [] {
      assert phases[..1] == [phases[0]];
    }
  }

  /** The command's phases before the run, one after another; whatever they do, the first that ends the command is the
      last that begins. */
  lemma OpeningExact(stops: Phase -> Option<Ending>)
    ensures Open(stops, OPENING) ==
            if stops(PlanRead).Some? then ([PlanRead], stops(PlanRead))
            else if stops(Lock).Some? then ([PlanRead, Lock], stops(Lock))
            else if stops(Phase.Gates).Some? then ([PlanRead, Lock, Phase.Gates], stops(Phase.Gates))
            else if stops(Reconcile).Some? then ([PlanRead, Lock, Phase.Gates, Reconcile], stops(Reconcile))
            else if stops(Owner).Some? then ([PlanRead, Lock, Phase.Gates, Reconcile, Owner], stops(Owner))
            else ([PlanRead, Lock, Phase.Gates, Reconcile, Owner, Confirm], stops(Confirm))
  {
    var k := if stops(PlanRead).Some? then 0 else if stops(Lock).Some? then 1 else if stops(Phase.Gates).Some? then 2
             else if stops(Reconcile).Some? then 3 else if stops(Owner).Some? then 4 else if stops(Confirm).Some? then 5 else 6;
    OpenIs(stops, OPENING, k);
    assert OPENING[..1] == [PlanRead] && OPENING[..2] == [PlanRead, Lock] && OPENING[..3] == [PlanRead, Lock, Phase.Gates];
    assert OPENING[..4] == [PlanRead, Lock, Phase.Gates, Reconcile] && OPENING[..6] == OPENING;
    assert OPENING[..5] == [PlanRead, Lock, Phase.Gates, Reconcile, Owner];
  }

  /** The run is made exactly when no phase before it fails and the gates, read in theirs, refuse nothing. */
  lemma OpensExact(c: Checkout, db: Db, o: Options, w: Around)
    ensures Open(StopsOf(c, db, o, w), OPENING).1 == None <==>
            CheckMigrateGates(c, db, o) == [] && (w.failsIn == None || w.failsIn.value !in OPENING)
  {
    OpeningExact(StopsOf(c, db, o, w));
    InOpening(if w.failsIn.Some? then w.failsIn.value else Receipt);
  }

  /** Refusing gates end the command as refused, in their phase, unless the plan's read or the lock ended it before. */
  lemma GatesEndIt(c: Checkout, db: Db, o: Options, w: Around)
    requires CheckMigrateGates(c, db, o) != []
    requires w.failsIn != Some(PlanRead) && w.failsIn != Some(Lock) && w.failsIn != Some(Phase.Gates)
    ensures Open(StopsOf(c, db, o, w), OPENING) == ([PlanRead, Lock, Phase.Gates], Some(EndRefused))
  {
    OpeningExact(StopsOf(c, db, o, w));
  }

  /** A phase that fails ends the command in it, when the gates let it through, as its message says. */
  lemma FailureEndsIt(c: Checkout, db: Db, o: Options, w: Around)
    requires CheckMigrateGates(c, db, o) == [] && w.failsIn.Some? && w.failsIn.value in OPENING
    ensures var begun := Open(StopsOf(c, db, o, w), OPENING);
            && begun.0 != [] && Last(begun.0) == w.failsIn.value
            && begun.1 == Some(if w.saysRefusing then EndRefused else EndFailed)
  {
    var stops, failing := StopsOf(c, db, o, w), w.failsIn.value;
    forall phase ensures stops(phase).Some? <==> phase == failing {
    }
    OpeningExact(stops);
    InOpening(failing);
  }

  lemma InOpening(phase: Phase)
    ensures phase in OPENING <==>
            || phase == PlanRead || phase == Lock || phase == Phase.Gates || phase == Reconcile || phase == Owner
            || phase == Confirm
  {
  }

  /** How a run's end closes the journal: succeeded only for a run that went through with its receipt; left open, or
      closed as interrupted, only for a kill; and as failed only where the message does not say "Refusing". */
  lemma EndingExact(w: Around, stop: Option<Refusal>)
    ensures RunEnding(w, stop) == Some(Succeeded) <==> stop == None && w.failsIn != Some(Receipt)
    ensures RunEnding(w, stop) == None <==> stop.Some? && stop.value.Killed? && !w.exitHandler
    ensures RunEnding(w, stop) == Some(EndInterrupted) <==> stop.Some? && stop.value.Killed? && w.exitHandler
    ensures RunEnding(w, stop) == Some(EndFailed) <==>
            if stop == None then w.failsIn == Some(Receipt) && !w.saysRefusing
            else
              var why := stop.value;
              || why.LockLost? || why.ManifestInconsistent? || why.ManifestFormatUnknown? || why.LedgerNotOnDisk?
              || why.Headerless? || why.EnrollmentRefused? || why.StatementFailed? || why.AlreadyRecorded?
  {
  }
}
