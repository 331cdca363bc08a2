/** The standalone migrate's journal (backend/scripts/migrate-journal.ts): one record per run, each phase
    written before it starts and marked after, closed once. */
module MigrateJournal {
  import opened Wrappers
  import opened Filenames

  /** The phases migrateCommand and runMigrate begin. */
  datatype Phase =
    | Config
    | PlanRead
    | Lock
    | Gates
    | Reconcile
    | Owner
    | Confirm
    | Start
    | IdentityFirst
    | ApplyFile(file: Filename)
    | ReconcileAndPublish
    | Receipt

  datatype Name = Named(phase: Phase) | BetweenPhases
  datatype Status = Started | Committed | Refused | Failed | Interrupted
  datatype Record = Record(name: Name, status: Status, startedAt: int, endedAt: Option<int>, reason: Option<string>)
  datatype Ending = Succeeded | EndRefused | EndFailed | EndInterrupted

  /** What the journal file holds. */
  datatype File = File(
    target: Option<string>,
    closedAt: Option<int>,
    outcome: Option<Ending>,
    receipt: Option<string>,
    phases: seq<Record>)
  {
    predicate Closed() { closedAt.Some? }
  }

  const OPENED := File(None, None, None, None, [])

  function StatusOf(ending: Ending): Status {
    match ending
    case Succeeded => Committed
    case EndRefused => Refused
    case EndFailed => Failed
    case EndInterrupted => Interrupted
  }

  function Last<T>(s: seq<T>): T
    requires s != []
  {
    s[|s| - 1]
  }

  /** The phase in progress, if any. */
  function Current(file: File): Option<Name> {
    if file.phases != [] && Last(file.phases).status == Started then Some(Last(file.phases).name) else None
  }

  function EndCurrent(phases: seq<Record>, status: Status, reason: Option<string>, at: int): seq<Record> {
    if phases != [] && Last(phases).status == Started
    then phases[..|phases| - 1] + [Last(phases).(status := status, endedAt := Some(at), reason := reason)]
    else phases
  }

  function AfterBegin(file: File, phase: Phase, now: int): File {
    if file.Closed() then file
    else file.(phases := EndCurrent(file.phases, Committed, None, now) + [Record(Named(phase), Started, now, None, None)])
  }

  function AfterClose(file: File, ending: Ending, reason: Option<string>, receipt: Option<string>, now: int): File {
    if file.Closed() then file
    else
      var phases :=
        if Current(file) == None && ending != Succeeded
        then file.phases + [Record(BetweenPhases, StatusOf(ending), now, Some(now), reason)]
        else EndCurrent(file.phases, StatusOf(ending), reason, now);
      file.(phases := phases, closedAt := Some(now), outcome := Some(ending), receipt := receipt)
  }

  /** Closing an open journal that has a phase in progress ends that phase as the run ended, with its reason, and keeps
      the receipt; the phases before it and the target stay. */
  lemma CloseSays(file: File, ending: Ending, reason: Option<string>, receipt: Option<string>, now: int)
    requires !file.Closed() && Current(file).Some?
    ensures var after, last := AfterCall(file, Close(ending, reason, receipt), now), |file.phases| - 1;
            && after.closedAt == Some(now) && after.outcome == Some(ending) && after.receipt == receipt
            && after.target == file.target && |after.phases| == |file.phases| && after.phases[..last] == file.phases[..last]
            && after.phases[last].name == file.phases[last].name && after.phases[last].startedAt == file.phases[last].startedAt
            && after.phases[last].endedAt == Some(now) && after.phases[last].reason == reason
            && (after.phases[last].status == Committed <==> ending == Succeeded)
            && (after.phases[last].status == Refused <==> ending == EndRefused)
            && (after.phases[last].status == Failed <==> ending == EndFailed)
            && (after.phases[last].status == Interrupted <==> ending == EndInterrupted)
  {
  }

  /** Beginning a phase ends the one in progress as committed, without a reason, and adds the new one, in progress. */
  lemma BeginSays(file: File, phase: Phase, now: int)
    requires !file.Closed() && Current(file).Some?
    ensures var after, n := AfterCall(file, Begin(phase), now), |file.phases|;
            && after == file.(phases := after.phases) && |after.phases| == n + 1 && after.phases[..n - 1] == file.phases[..n - 1]
            && after.phases[n - 1] == file.phases[n - 1].(status := Committed, endedAt := Some(now), reason := None)
            && after.phases[n] == Record(Named(phase), Started, now, None, None)
  {
  }

  // ── What every journal keeps ──────────────────────────────────────────────────────────────

  ghost predicate Valid(file: File) {
    var n := |file.phases|;
    && (forall i :: 0 <= i < n - 1 ==> file.phases[i].status == Committed)
    && (forall i :: 0 <= i < n ==> (file.phases[i].endedAt == None <==> file.phases[i].status == Started))
    && (forall i :: 0 <= i < n && file.phases[i].name == BetweenPhases ==> n == 1 && file.Closed() && file.outcome != Some(Succeeded))
    && (file.Closed() <==> file.outcome.Some?)
    && (n > 0 && !file.Closed() ==> Last(file.phases).status == Started)
    && (n > 0 && file.Closed() ==> Last(file.phases).status == StatusOf(file.outcome.value) && Last(file.phases).endedAt == file.closedAt)
    && (n == 0 && file.Closed() ==> file.outcome == Some(Succeeded))
  }

  // ── Every history of calls ────────────────────────────────────────────────────────────────

  datatype Call =
    | Begin(phase: Phase)
    | Close(ending: Ending, reason: Option<string>, receipt: Option<string>)
    | SetTarget(target: string)

  function AfterCall(file: File, call: Call, now: int): File {
    match call
    case Begin(phase) => AfterBegin(file, phase, now)
    case Close(ending, reason, receipt) => AfterClose(file, ending, reason, receipt, now)
    case SetTarget(target) => file.(target := Some(target))
  }

  /** The journal after some calls, the clock read at each. */
  function Play(calls: seq<(Call, int)>): File {
    if calls == [] then OPENED
    else AfterCall(Play(calls[..|calls| - 1]), Last(calls).0, Last(calls).1)
  }

  /** The calls up to and including the first close: the only ones that write phases. */
  function UpToClose(calls: seq<(Call, int)>): seq<(Call, int)> {
    if calls == [] then []
    else if calls[0].0.Close? then [calls[0]]
    else [calls[0]] + UpToClose(calls[1..])
  }

  /** The phases some calls begin, as names in order. */
  function Begins(calls: seq<(Call, int)>): seq<Name> {
    if calls == [] then []
    else
      var before := Begins(calls[..|calls| - 1]);
      if Last(calls).0.Begin? then before + [Named(Last(calls).0.phase)] else before
  }

  function Names(phases: seq<Record>): (r: seq<Name>)
    ensures |r| == |phases| && forall i :: 0 <= i < |r| ==> r[i] == phases[i].name
  {
    seq(|phases|, i requires 0 <= i < |phases| => phases[i].name)
  }

  predicate HasClose(calls: seq<(Call, int)>) {
    exists i :: 0 <= i < |calls| && calls[i].0.Close?
  }

  lemma CallKeeps(file: File, call: Call, now: int)
    requires Valid(file)
    ensures Valid(AfterCall(file, call, now))
  {
  }

  /** Every history keeps it: one phase at most is in progress, it is the last, all before it committed,
      a phase has no end exactly while it is in progress, and a close ends the last phase with its outcome. */
  lemma {:induction false} EveryJournalIsValid(calls: seq<(Call, int)>)
    ensures Valid(Play(calls))
    decreases |calls|
  {
    if calls != [] {
      EveryJournalIsValid(calls[..|calls| - 1]);
      CallKeeps(Play(calls[..|calls| - 1]), Last(calls).0, Last(calls).1);
    }
  }

  lemma AtMostOneStarted(calls: seq<(Call, int)>, i: nat, j: nat)
    requires i < |Play(calls).phases| && j < |Play(calls).phases|
    requires Play(calls).phases[i].status == Started && Play(calls).phases[j].status == Started
    ensures i == j == |Play(calls).phases| - 1 && !Play(calls).Closed()
  {
    EveryJournalIsValid(calls);
  }

  /** Once closed, begin and close change nothing; a target can still be set. */
  lemma ClosedIsClosed(file: File, call: Call, now: int)
    requires file.Closed()
    ensures AfterCall(file, call, now) == if call.SetTarget? then file.(target := Some(call.target)) else file
  {
  }

  /** The phases some begins leave, and the "(between phases)" a failed run without any leaves. */
  function Written(begun: seq<Name>, outcome: Option<Ending>): seq<Name> {
    if begun == [] && outcome.Some? && outcome != Some(Succeeded) then [BetweenPhases] else begun
  }

  /** What a history wrote: one record per phase begun before the first close, in order, and nothing else;
      except that a close without success with no phase begun writes the one "(between phases)" record. */
  lemma {:induction false} JournalIsTheHistory(calls: seq<(Call, int)>)
    ensures var file := Play(calls);
            && (file.Closed() <==> HasClose(calls))
            && Names(file.phases) == Written(Begins(UpToClose(calls)), file.outcome)
    decreases |calls|
  {
    if calls != [] {
      var before := calls[..|calls| - 1];
      var call := Last(calls);
      JournalIsTheHistory(before);
      EveryJournalIsValid(before);
      var file := Play(before);
      assert before + [call] == calls;
      UpToCloseGrows(before, call);
      HasCloseGrows(before, call);
      if HasClose(before) {
        ClosedIsClosed(file, call.0, call.1);
      } else {
        BeginsGrows(before, call);
        assert Names(file.phases) == Begins(before);
        NamesAfter(file, call.0, call.1);
      }
    }
  }

  lemma BeginsGrows(before: seq<(Call, int)>, call: (Call, int))
    ensures Begins(before + [call]) == if call.0.Begin? then Begins(before) + [Named(call.0.phase)] else Begins(before)
  {
    assert (before + [call])[..|before|] == before;
  }

  lemma HasCloseGrows(before: seq<(Call, int)>, call: (Call, int))
    ensures HasClose(before + [call]) <==> HasClose(before) || call.0.Close?
  {
    var all := before + [call];
    if HasClose(before) {
      var i :| 0 <= i < |before| && before[i].0.Close?;
      assert all[i].0.Close?;
    }
    if call.0.Close? { assert all[|before|].0.Close?; }
  }

  lemma NamesAfter(file: File, call: Call, now: int)
    requires Valid(file) && !file.Closed()
    ensures var after := AfterCall(file, call, now);
            && (after.Closed() <==> call.Close?)
            && Names(after.phases) ==
               Written(if call.Begin? then Names(file.phases) + [Named(call.phase)] else Names(file.phases), after.outcome)
  {
  }

  lemma {:induction false} UpToCloseGrows(before: seq<(Call, int)>, call: (Call, int))
    ensures UpToClose(before + [call]) == if HasClose(before) then UpToClose(before) else before + [call]
    ensures !HasClose(before) ==> UpToClose(before) == before
    decreases |before|
  {
    var all := before + [call];
    if before == [] {
      assert all == [call] && all[1..] == [];
    } else {
      assert all[1..] == before[1..] + [call];
      UpToCloseGrows(before[1..], call);
      assert HasClose(before) <==> before[0].0.Close? || HasClose(before[1..]) by {
        if HasClose(before) {
          var i :| 0 <= i < |before| && before[i].0.Close?;
          assert i > 0 ==> before[1..][i - 1].0.Close?;
        }
        if HasClose(before[1..]) {
          var i :| 0 <= i < |before[1..]| && before[1..][i].0.Close?;
          assert before[i + 1].0.Close?;
        }
      }
    }
  }

  // ── The class ─────────────────────────────────────────────────────────────────────────────

  class MigrateJournal {
    var record: File
    /** The host's clock, which every write reads. */
    var clock: int

    /** MigrateJournal.open: a journal with no target, no phase and no outcome. */
    constructor Open(startedAt: int)
      ensures record == OPENED && clock == startedAt
    {
      record, clock := OPENED, startedAt;
    }

    function IsClosed(): bool
      reads this
    {
      record.Closed()
    }

    method SetTarget(target: string)
      modifies this`record
      ensures record == AfterCall(old(record), Call.SetTarget(target), clock)
    {
      record := record.(target := Some(target));
    }

    method Begin(phase: Phase)
      modifies this
      ensures record == AfterBegin(old(record), phase, old(clock)) && clock >= old(clock)
    {
      if IsClosed() { return; }
      var phases := End(Committed, None, clock);
      record := record.(phases := phases + [Record(Named(phase), Started, clock, None, None)]);
      clock := clock + 1;
    }

    method Close(ending: Ending, reason: Option<string>, receipt: Option<string>)
      modifies this
      ensures record == AfterClose(old(record), ending, reason, receipt, old(clock)) && clock >= old(clock)
    {
      if IsClosed() { return; }
      var status := StatusOf(ending);
      var phases;
      if Current(record) == None && ending != Succeeded {
        phases := record.phases + [Record(BetweenPhases, status, clock, Some(clock), reason)];
      } else {
        phases := End(status, reason, clock);
      }
      record := record.(phases := phases, closedAt := Some(clock), outcome := Some(ending), receipt := receipt);
      clock := clock + 1;
    }

    /** A process leaving without closing its journal records that, and where. */
    method CloseOnExit(reason: string)
      modifies this
      ensures record == AfterClose(old(record), EndInterrupted, Some(reason), None, old(clock)) && clock >= old(clock)
    {
      Close(EndInterrupted, Some(reason), None);
    }

    method End(status: Status, reason: Option<string>, at: int) returns (phases: seq<Record>)
      ensures phases == EndCurrent(record.phases, status, reason, at)
    {
      phases := record.phases;
      if phases != [] && Last(phases).status == Started {
        var last := Last(phases);
        phases := phases[|phases| - 1 := last.(status := status, endedAt := Some(at), reason := reason)];
      }
    }
  }
}
