/** The check a run with no manifest to build on passes before it applies anything: the recorded
    and the pending files must bring the ledger to the snapshot's list (assertBaselineGap). */
module BaselineGap {
  import opened Filenames
  import opened Wrappers

  /** One of the two states around an identity-first pass: its baseline, and what was applied since. */
  datatype Accepted = Accepted(baseline: seq<Filename>, appliedAfter: seq<Filename>)

  datatype Problem =
    | RecordedNotEmbodied(name: Filename)
    | SkippedBelowRecorded(name: Filename)
    | PendingNotEmbodied(name: Filename)
    | NeitherRecordedNorPending(name: Filename)

  /** The greatest name of a list, by the reduction the check runs over it. */
  function Highest(names: seq<Filename>): (r: Option<Filename>)
    ensures r.None? <==> names == []
    ensures r.Some? ==> r.value in names && forall x :: x in names ==> x <= r.value
  {
    if names == [] then None
    else
      var last := names[|names| - 1];
      var before := Highest(names[..|names| - 1]);
      assert forall x :: x in names <==> x in names[..|names| - 1] || x == last;
      if before.None? || last > before.value then Some(last) else before
  }

  predicate BaselineNeverRan(accepted: Option<Accepted>, name: Filename) {
    && accepted.Some?
    && name < IDENTITY_MIGRATION
    && name !in accepted.value.baseline
    && var highestAfter := Highest(accepted.value.appliedAfter);
       highestAfter.None? || name > highestAfter.value
  }

  /** Per file: below 0081, not the baseline's, and above everything applied since. */
  lemma NeverRanExact(baseline: seq<Filename>, appliedAfter: seq<Filename>, name: Filename)
    ensures BaselineNeverRan(Some(Accepted(baseline, appliedAfter)), name) <==>
            name < IDENTITY_MIGRATION && name !in baseline && forall x :: x in appliedAfter ==> x < name
    ensures !BaselineNeverRan(None, name)
  {
  }

  predicate OutOfBand(ledger: seq<Filename>, accepted: Option<Accepted>, name: Filename) {
    ledger != [] && name < ledger[|ledger| - 1] && !BaselineNeverRan(accepted, name)
  }

  function Report(names: seq<Filename>, problem: Filename -> Problem): (r: seq<Problem>)
    ensures |r| == |names| && forall i :: 0 <= i < |r| ==> r[i] == problem(names[i])
  {
    seq(|names|, i requires 0 <= i < |names| => problem(names[i]))
  }

  /** Every problem the check names, in its order; none when it passes. */
  function GapProblems(ledger: seq<Filename>, snapshot: seq<Filename>, pending: seq<Filename>,
                       accepted: Option<Accepted>): seq<Problem> {
    Report(Filter(ledger, name => name !in snapshot), name => RecordedNotEmbodied(name)) +
    Report(Filter(snapshot, name => name !in ledger && OutOfBand(ledger, accepted, name)), name => SkippedBelowRecorded(name)) +
    Report(Filter(pending, name => name !in snapshot), name => PendingNotEmbodied(name)) +
    Report(Filter(snapshot, name => name !in ledger && name !in pending && !OutOfBand(ledger, accepted, name)),
           name => NeitherRecordedNorPending(name))
  }

  /** Problems are named in four groups, in this order. */
  function Group(p: Problem): nat {
    match p
    case RecordedNotEmbodied(_) => 0
    case SkippedBelowRecorded(_) => 1
    case PendingNotEmbodied(_) => 2
    case NeitherRecordedNorPending(_) => 3
  }

  lemma ReportNames(names: seq<Filename>, problem: Filename -> Problem, group: nat, name: Filename)
    requires forall x :: problem(x).name == x && Group(problem(x)) == group
    ensures forall p :: p in Report(names, problem) ==> Group(p) == group
    ensures problem(name) in Report(names, problem) <==> name in names
  {
    var r := Report(names, problem);
    forall p | p in r ensures Group(p) == group {
      var i :| 0 <= i < |r| && r[i] == p;
      var x := names[i];
      assert p == problem(x) && problem(x).name == x;
    }
    if name in names {
      var i :| 0 <= i < |names| && names[i] == name;
      assert r[i] == problem(name);
    }
    if problem(name) in r {
      var i :| 0 <= i < |r| && r[i] == problem(name);
      assert names[i] == name;
    }
  }

  lemma InGroups(a: seq<Problem>, b: seq<Problem>, c: seq<Problem>, d: seq<Problem>)
    requires (forall p :: p in a ==> Group(p) == 0) && (forall p :: p in b ==> Group(p) == 1)
    requires (forall p :: p in c ==> Group(p) == 2) && (forall p :: p in d ==> Group(p) == 3)
    ensures forall i, j :: 0 <= i < j < |a + b + c + d| ==> Group((a + b + c + d)[i]) <= Group((a + b + c + d)[j])
    ensures forall p :: p in a + b + c + d <==> p in a || p in b || p in c || p in d
  {
    var all := a + b + c + d;
    forall i | 0 <= i < |all|
      ensures Group(all[i]) == if i < |a| then 0 else if i < |a| + |b| then 1 else if i < |a| + |b| + |c| then 2 else 3
    {
      if i < |a| { assert all[i] in a; }
      else if i < |a| + |b| { assert all[i] == b[i - |a|]; }
      else if i < |a| + |b| + |c| { assert all[i] == c[i - |a| - |b|]; }
      else { assert all[i] == d[i - |a| - |b| - |c|]; }
    }
  }

  /** Every problem there is is named, as what it is, and nothing else is; foreign rows first, then files skipped below
      a recorded one, then foreign pending files, then files that are nowhere. */
  lemma ProblemsExact(ledger: seq<Filename>, snapshot: seq<Filename>, pending: seq<Filename>, accepted: Option<Accepted>,
                      name: Filename)
    ensures var problems := GapProblems(ledger, snapshot, pending, accepted);
            && (RecordedNotEmbodied(name) in problems <==> name in ledger && name !in snapshot)
            && (SkippedBelowRecorded(name) in problems <==>
                  name in snapshot && name !in ledger && OutOfBand(ledger, accepted, name))
            && (PendingNotEmbodied(name) in problems <==> name in pending && name !in snapshot)
            && (NeitherRecordedNorPending(name) in problems <==>
                  name in snapshot && name !in ledger && name !in pending && !OutOfBand(ledger, accepted, name))
            && forall i, j :: 0 <= i < j < |problems| ==> Group(problems[i]) <= Group(problems[j])
  {
    var foreign := Filter(ledger, name => name !in snapshot);
    var skipped := Filter(snapshot, name => name !in ledger && OutOfBand(ledger, accepted, name));
    var unknown := Filter(pending, name => name !in snapshot);
    var lost := Filter(snapshot, name => name !in ledger && name !in pending && !OutOfBand(ledger, accepted, name));
    ReportNames(foreign, name => RecordedNotEmbodied(name), 0, name);
    ReportNames(skipped, name => SkippedBelowRecorded(name), 1, name);
    ReportNames(unknown, name => PendingNotEmbodied(name), 2, name);
    ReportNames(lost, name => NeitherRecordedNorPending(name), 3, name);
    InGroups(Report(foreign, name => RecordedNotEmbodied(name)), Report(skipped, name => SkippedBelowRecorded(name)),
             Report(unknown, name => PendingNotEmbodied(name)), Report(lost, name => NeitherRecordedNorPending(name)));
  }

  /** A pending list as the plan makes one: sorted, and of files the ledger does not record. */
  predicate IsPending(ledger: seq<Filename>, pending: seq<Filename>) {
    Sorted(pending) && Members(ledger) !! Members(pending)
  }

  /** The check passes exactly when: what is recorded is embodied, no unrecorded embodied file is
      out of band, and the pending files are the embodied ones the ledger lacks. */
  lemma NoProblems(ledger: seq<Filename>, snapshot: seq<Filename>, pending: seq<Filename>, accepted: Option<Accepted>)
    requires Sorted(snapshot) && IsPending(ledger, pending)
    ensures GapProblems(ledger, snapshot, pending, accepted) == [] <==>
            && Members(ledger) <= Members(snapshot)
            && (forall s :: s in snapshot && s !in ledger ==> !OutOfBand(ledger, accepted, s))
            && pending == Without(snapshot, Members(ledger))
  {
    var foreign := Filter(ledger, name => name !in snapshot);
    var skipped := Filter(snapshot, name => name !in ledger && OutOfBand(ledger, accepted, name));
    var unknown := Filter(pending, name => name !in snapshot);
    var lost := Filter(snapshot, name => name !in ledger && name !in pending && !OutOfBand(ledger, accepted, name));
    assert GapProblems(ledger, snapshot, pending, accepted) == [] <==>
           foreign == [] && skipped == [] && unknown == [] && lost == [];
    EmptyIff(foreign);
    EmptyIff(skipped);
    EmptyIff(unknown);
    EmptyIff(lost);
    var rest := Without(snapshot, Members(ledger));
    assert forall x :: x in rest <==> x in Members(rest);
    if foreign == [] && skipped == [] && unknown == [] && lost == [] {
      SortedUnique(pending, rest);
    }
  }

  /** No unrecorded file is out of band exactly when nothing unrecorded sorts below a recorded one. */
  lemma NoneOutOfBand(ledger: seq<Filename>, snapshot: seq<Filename>)
    requires Sorted(ledger)
    ensures (forall s :: s in snapshot && s !in ledger ==> !OutOfBand(ledger, None, s)) <==> NothingBelow(ledger, snapshot)
  {
    if ledger != [] {
      var last := ledger[|ledger| - 1];
      assert last in ledger && forall y :: y in ledger ==> y <= last;
    }
  }

  /** With no accepted state, the check passes exactly when the ledger is a filename-order prefix of
      the snapshot's list and the pending files are exactly the rest of it. */
  lemma ExactForPrefixes(ledger: seq<Filename>, snapshot: seq<Filename>, pending: seq<Filename>)
    requires Sorted(ledger) && Sorted(snapshot) && IsPending(ledger, pending)
    ensures GapProblems(ledger, snapshot, pending, None) == [] <==>
            ledger <= snapshot && pending == snapshot[|ledger|..]
  {
    NoProblems(ledger, snapshot, pending, None);
    NoneOutOfBand(ledger, snapshot);
    PrefixIff(ledger, snapshot);
    if ledger <= snapshot {
      WithoutPrefix(ledger, snapshot);
    }
  }

  /** What a pass from `baseline` leaves to apply, in filename order. */
  function Later(snapshot: seq<Filename>, baseline: seq<Filename>): (r: seq<Filename>)
    ensures Sorted(snapshot) ==> Sorted(r)
  {
    Without(snapshot, Members(baseline) + {IDENTITY_MIGRATION})
  }

  /** The state before a pass is accepted exactly when the pending files are all the snapshot has
      besides the baseline, wherever they sort. */
  lemma ExactBeforePass(baseline: seq<Filename>, snapshot: seq<Filename>, pending: seq<Filename>)
    requires Sorted(baseline) && Sorted(snapshot) && IsPending(baseline, pending)
    requires Members(baseline) <= Members(snapshot) && forall f :: f in baseline ==> f < IDENTITY_MIGRATION
    ensures GapProblems(baseline, snapshot, pending, Some(Accepted(baseline, []))) == [] <==>
            pending == Without(snapshot, Members(baseline))
  {
    NoProblems(baseline, snapshot, pending, Some(Accepted(baseline, [])));
    forall s | s in snapshot && s !in baseline
      ensures !OutOfBand(baseline, Some(Accepted(baseline, [])), s)
    {
      if baseline != [] {
        var last := baseline[|baseline| - 1];
        assert last in baseline;
      }
    }
  }

  /** The ledger in the state a pass leaves: its baseline, 0081, and what was applied since. */
  function PassLedger(baseline: seq<Filename>, after: seq<Filename>): (r: seq<Filename>)
    ensures Sorted(r) && Members(r) == Members(baseline) + {IDENTITY_MIGRATION} + Members(after)
  {
    Listed(Members(baseline) + {IDENTITY_MIGRATION} + Members(after))
  }

  /** In that state a file is out of band exactly when it sorts below one applied after 0081. */
  lemma OutOfBandAfterPass(baseline: seq<Filename>, after: seq<Filename>, s: Filename)
    requires forall f :: f in baseline ==> f < IDENTITY_MIGRATION
    requires s !in PassLedger(baseline, after)
    ensures OutOfBand(PassLedger(baseline, after), Some(Accepted(baseline, after)), s) <==>
            exists y :: y in after && s < y
  {
    var ledger := PassLedger(baseline, after);
    assert IDENTITY_MIGRATION in Members(ledger);
    var last := ledger[|ledger| - 1];
    assert last in Members(ledger) && forall y :: y in Members(ledger) ==> y <= last;
    assert s !in Members(ledger);
    var highest := Highest(after);
    if highest.Some? {
      assert highest.value in Members(ledger);
    }
  }

  /** After a pass, the check passes exactly when the files applied since 0081 are a prefix of what the
      pass left, and the pending files are exactly the rest: a file missing below one of them refuses,
      and one the baseline never ran does not. */
  lemma ExactAfterPass(baseline: seq<Filename>, after: seq<Filename>, snapshot: seq<Filename>, pending: seq<Filename>)
    requires Sorted(after) && Sorted(snapshot)
    requires IDENTITY_MIGRATION in snapshot && IDENTITY_MIGRATION !in after
    requires Members(baseline) <= Members(snapshot) && forall f :: f in baseline ==> f < IDENTITY_MIGRATION
    requires Members(baseline) !! Members(after)
    requires IsPending(PassLedger(baseline, after), pending)
    ensures GapProblems(PassLedger(baseline, after), snapshot, pending, Some(Accepted(baseline, after))) == [] <==>
            && after <= Later(snapshot, baseline)
            && pending == Later(snapshot, baseline)[|after|..]
  {
    var ledger := PassLedger(baseline, after);
    var accepted := Some(Accepted(baseline, after));
    var later := Later(snapshot, baseline);
    NoProblems(ledger, snapshot, pending, accepted);
    PrefixIff(after, later);
    NoneOutOfBandAfterPass(baseline, after, snapshot);
    RestAfterPass(baseline, after, snapshot);
    if after <= later {
      WithoutPrefix(after, later);
    }
  }

  lemma RestAfterPass(baseline: seq<Filename>, after: seq<Filename>, snapshot: seq<Filename>)
    requires Sorted(snapshot) && IDENTITY_MIGRATION in snapshot && Members(baseline) <= Members(snapshot)
    requires IDENTITY_MIGRATION !in after && Members(baseline) !! Members(after)
    ensures Members(PassLedger(baseline, after)) <= Members(snapshot) <==> Members(after) <= Members(Later(snapshot, baseline))
    ensures Without(snapshot, Members(PassLedger(baseline, after))) == Without(Later(snapshot, baseline), Members(after))
  {
    SortedUnique(Without(snapshot, Members(PassLedger(baseline, after))), Without(Later(snapshot, baseline), Members(after)));
  }

  lemma NoneOutOfBandAfterPass(baseline: seq<Filename>, after: seq<Filename>, snapshot: seq<Filename>)
    requires forall f :: f in baseline ==> f < IDENTITY_MIGRATION
    ensures (forall s :: s in snapshot && s !in PassLedger(baseline, after) ==>
              !OutOfBand(PassLedger(baseline, after), Some(Accepted(baseline, after)), s)) <==>
            NothingBelow(after, Later(snapshot, baseline))
  {
    var ledger := PassLedger(baseline, after);
    forall s | s in snapshot && s !in ledger
      ensures OutOfBand(ledger, Some(Accepted(baseline, after)), s) <==> exists y :: y in after && s < y
    {
      OutOfBandAfterPass(baseline, after, s);
    }
    forall s
      ensures s in snapshot && s !in ledger <==> s in Later(snapshot, baseline) && s !in after
    {
      assert s in ledger <==> s in Members(ledger);
      assert s in Later(snapshot, baseline) <==> s in Members(Later(snapshot, baseline));
    }
    assert NothingBelow(after, Later(snapshot, baseline)) <==>
           forall s :: s in snapshot && s !in ledger ==> !exists y :: y in after && s < y;
  }
}
