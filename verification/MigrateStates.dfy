/** The states runs leave behind when they are killed between commits, and how a later run reads them:
    which baseline, how far, and whether the gap check lets it go on. */
module MigrateStates {
  import opened Filenames
  import opened Wrappers
  import opened MigrateTarget
  import opened BaselineGap
  import opened MigrateRun

  /** How far the runs from one baseline have come: not past 0081, or past it with the given kind of
      identity row and the given number of later files. */
  datatype Stage = Untouched | Passed(kind: Kind, applied: nat)

  /** What a pass from `b` leaves to apply. */
  function LaterOf(c: Checkout, b: Release): (r: seq<Filename>)
    ensures Sorted(c.snapshot) ==> Sorted(r)
    ensures Members(r) == Members(c.snapshot) - (Members(b.migrations) + {IDENTITY_MIGRATION})
  {
    Later(c.snapshot, b.migrations)
  }

  /** The database is a baseline's, brought to `stage` by runs of this checkout. */
  ghost predicate IsAt(c: Checkout, b: Release, stage: Stage, db: Db) {
    && db.ledger.Some?
    && db.ClockAhead()
    && var at := db.ledger.value;
       match stage
       case Untouched =>
         at.Keys == Members(b.migrations) && db.identity == NoTable && db.manifest == None
       case Passed(kind, n) =>
         && n <= |LaterOf(c, b)|
         && PassedRows(at, Members(b.migrations), LaterOf(c, b), n)
         && db.identity == Rows([Enrolled(kind)])
         && (db.manifest == None || Finished(c, b, n, db))
  }

  /** The rows a pass and `n` later files leave: the baseline's before 0081's, the others after it, in
      the order they were applied. */
  ghost predicate PassedRows(at: map<Filename, int>, base: set<Filename>, later: seq<Filename>, n: nat)
    requires n <= |later|
  {
    && at.Keys == base + {IDENTITY_MIGRATION} + Members(later[..n])
    && (forall f :: f in base ==> at[f] < at[IDENTITY_MIGRATION])
    && (forall f :: f in Members(later[..n]) ==> at[IDENTITY_MIGRATION] < at[f])
    && (forall i, j :: 0 <= i < j < n ==> at[later[i]] < at[later[j]])
  }

  /** Everything applied, and the manifest over all of it published with the snapshot's grants. */
  ghost predicate Finished(c: Checkout, b: Release, n: nat, db: Db) {
    n == |LaterOf(c, b)| && db.manifest == Some(Manifest(true, true, c.snapshot)) && db.grants == AsSnapshot
  }

  ghost predicate IsListed(c: Checkout, b: Release) {
    c.Valid() && b in c.releases
  }

  /** A baseline a run can start from and be resumed from: one of the list, and not empty. */
  ghost predicate Supported(c: Checkout, b: Release) {
    IsListed(c, b) && b.migrations != []
  }

  // ── Reading the state back ────────────────────────────────────────────────────────────────

  /** A baseline's own list matches that baseline and no other. */
  lemma {:induction false} MatchesItself(releases: seq<Release>, b: Release)
    requires b in releases && Sorted(b.migrations)
    requires forall i :: 0 <= i < |releases| ==> Sorted(releases[i].migrations)
    requires forall i, j :: 0 <= i < j < |releases| ==> releases[i].migrations != releases[j].migrations
    ensures MatchSupportedRelease(b.migrations, releases) == Some(b)
  {
    var first := releases[0];
    if Members(first.migrations) == Members(b.migrations) {
      SortedUnique(first.migrations, b.migrations);
      var i :| 0 <= i < |releases| && releases[i] == b;
      assert i == 0;
    } else {
      assert first != b;
      MatchesItself(releases[1..], b);
    }
  }

  lemma BaselineFacts(c: Checkout, b: Release)
    requires IsListed(c, b)
    ensures c.IsBaseline(b) && Sorted(LaterOf(c, b))
    ensures MatchSupportedRelease(b.migrations, c.releases) == Some(b)
    ensures IDENTITY_MIGRATION !in b.migrations
  {
    var i :| 0 <= i < |c.releases| && c.releases[i] == b;
    MatchesItself(c.releases, b);
  }

  /** Before the pass, a run reads back the baseline itself. */
  lemma ReadsBaseline(c: Checkout, b: Release, db: Db)
    requires Supported(c, b) && IsAt(c, b, Untouched, db)
    ensures LedgerOf(db) == b.migrations
    ensures ReadPreIdentityLedger(c, db) == Some(PreIdentity(b.name, b.migrations))
    ensures DetectManifestState(db) == Absent
  {
    BaselineFacts(c, b);
    SortedUnique(LedgerOf(db), b.migrations);
  }

  /** Around 0081's own time, the rows fall into the two sides they were applied on. */
  lemma Sides(at: map<Filename, int>, base: set<Filename>, after: set<Filename>)
    requires at.Keys == base + {IDENTITY_MIGRATION} + after
    requires IDENTITY_MIGRATION !in base && IDENTITY_MIGRATION !in after
    requires forall f :: f in base ==> at[f] < at[IDENTITY_MIGRATION]
    requires forall f :: f in after ==> at[IDENTITY_MIGRATION] < at[f]
    ensures forall f :: f in at.Keys - {IDENTITY_MIGRATION} ==> at[f] != at[IDENTITY_MIGRATION]
    ensures AppliedBefore(at) == base && AppliedAfter(at) == after
  {
    forall f
      ensures f in AppliedBefore(at) <==> f in base
      ensures f in AppliedAfter(at) <==> f in after
    {
      assert f in at <==> f in base || f == IDENTITY_MIGRATION || f in after;
    }
  }

  lemma SidesAt(c: Checkout, b: Release, kind: Kind, n: nat, db: Db)
    requires IsListed(c, b) && IsAt(c, b, Passed(kind, n), db)
    ensures var at := db.ledger.value;
            && IDENTITY_MIGRATION in at
            && AppliedBefore(at) == Members(b.migrations)
            && AppliedAfter(at) == Members(LaterOf(c, b)[..n])
            && forall f :: f in at.Keys - {IDENTITY_MIGRATION} ==> at[f] != at[IDENTITY_MIGRATION]
  {
    AppliedFacts(c, b, n);
    Sides(db.ledger.value, Members(b.migrations), Members(LaterOf(c, b)[..n]));
  }

  lemma RemainderFrom(c: Checkout, b: Release, kind: Kind, after: seq<Filename>, db: Db)
    requires db.identity == Rows([Enrolled(kind)]) && db.ledger.Some?
    requires Sorted(b.migrations) && Sorted(after) && (b.migrations != [] || after != [])
    requires MatchSupportedRelease(b.migrations, c.releases) == Some(b)
    requires var at := db.ledger.value;
             && IDENTITY_MIGRATION in at
             && AppliedBefore(at) == Members(b.migrations) && AppliedAfter(at) == Members(after)
             && forall f :: f in at.Keys - {IDENTITY_MIGRATION} ==> at[f] != at[IDENTITY_MIGRATION]
    ensures ReadIdentityPassRemainder(c, db) == Some(Remainder(b.name, b.migrations, after))
  {
    var at := db.ledger.value;
    var head := if b.migrations != [] then b.migrations[0] else after[0];
    assert head in AppliedBefore(at) || head in AppliedAfter(at);
    assert head in at.Keys - {IDENTITY_MIGRATION};
    SortedUnique(Listed(AppliedBefore(at)), b.migrations);
    SortedUnique(Listed(AppliedAfter(at)), after);
  }

  /** After the pass and before the manifest, at every point a run can be killed, the remainder read back
      is exactly the baseline the pass started from and exactly the files applied since. */
  lemma RecoversPassState(c: Checkout, b: Release, kind: Kind, n: nat, db: Db)
    requires Supported(c, b) && IsAt(c, b, Passed(kind, n), db)
    ensures ReadIdentityPassRemainder(c, db) == Some(Remainder(b.name, b.migrations, LaterOf(c, b)[..n]))
    ensures LedgerOf(db) == PassLedger(b.migrations, LaterOf(c, b)[..n])
  {
    BaselineFacts(c, b);
    AppliedFacts(c, b, n);
    SidesAt(c, b, kind, n, db);
    RemainderFrom(c, b, kind, LaterOf(c, b)[..n], db);
  }

  /** The one state a pass leaves that is not read back: right after 0081, on a baseline that lists no file.
      Its ledger has no other row to stand before 0081's. */
  lemma RecoveredUnlessAlone(c: Checkout, b: Release, kind: Kind, n: nat, db: Db)
    requires IsListed(c, b) && IsAt(c, b, Passed(kind, n), db)
    ensures ReadIdentityPassRemainder(c, db) ==
            if b.migrations == [] && n == 0 then None else Some(Remainder(b.name, b.migrations, LaterOf(c, b)[..n]))
  {
    BaselineFacts(c, b);
    AppliedFacts(c, b, n);
    SidesAt(c, b, kind, n, db);
    if b.migrations == [] && n == 0 {
      assert LaterOf(c, b)[..0] == [];
      assert db.ledger.value.Keys - {IDENTITY_MIGRATION} == {};
    } else {
      RemainderFrom(c, b, kind, LaterOf(c, b)[..n], db);
    }
  }

  /** What has been applied since 0081 is part of the snapshot, and neither baseline nor 0081. */
  lemma AppliedFacts(c: Checkout, b: Release, n: nat)
    requires IsListed(c, b) && n <= |LaterOf(c, b)|
    ensures Sorted(LaterOf(c, b)[..n]) && Members(LaterOf(c, b)[..n]) <= Members(LaterOf(c, b))
    ensures Members(b.migrations) !! Members(LaterOf(c, b)[..n])
    ensures IDENTITY_MIGRATION !in Members(LaterOf(c, b)[..n])
    ensures IDENTITY_MIGRATION !in Members(b.migrations)
  {
    BaselineFacts(c, b);
    assert forall f :: f in LaterOf(c, b)[..n] ==> f in LaterOf(c, b);
  }

  /** A ledger whose rows all share one time, as a snapshot bootstrap writes them, is never read as a
      pass's remainder. */
  lemma OneTransactionIsNoPass(c: Checkout, db: Db, time: int)
    requires db.ledger.Some? && forall f :: f in db.ledger.value ==> db.ledger.value[f] == time
    ensures ReadIdentityPassRemainder(c, db) == None
  {
    var at := db.ledger.value;
    var others := at.Keys - {IDENTITY_MIGRATION};
    if IDENTITY_MIGRATION in at && others != {} {
      assert (forall f :: f !in others) ==> others == {};
      var f :| f in others;
      assert at[f] == at[IDENTITY_MIGRATION];
    }
  }

  lemma AllSides(at: map<Filename, int>)
    requires IDENTITY_MIGRATION in at
    requires forall f :: f in at.Keys - {IDENTITY_MIGRATION} ==> at[f] != at[IDENTITY_MIGRATION]
    ensures at.Keys == AppliedBefore(at) + {IDENTITY_MIGRATION} + AppliedAfter(at)
  {
    forall f
      ensures f in at.Keys <==> f in AppliedBefore(at) + {IDENTITY_MIGRATION} + AppliedAfter(at)
    {
      if f in at && f != IDENTITY_MIGRATION { assert f in at.Keys - {IDENTITY_MIGRATION}; }
    }
  }

  /** A remainder read back is always 0081 between one supported baseline and the rest. */
  lemma RemainderMeans(c: Checkout, db: Db, r: Remainder)
    requires c.Valid() && ReadIdentityPassRemainder(c, db) == Some(r)
    ensures exists b :: b in c.releases && b.name == r.release && r.baseline == b.migrations
    ensures Sorted(r.appliedAfter) && IDENTITY_MIGRATION !in r.appliedAfter && Members(r.baseline) !! Members(r.appliedAfter)
    ensures LedgerOf(db) == PassLedger(r.baseline, r.appliedAfter)
  {
    var b := MatchSupportedRelease(r.baseline, c.releases).value;
    BaselineFacts(c, b);
    SortedUnique(r.baseline, b.migrations);
    var at := db.ledger.value;
    AllSides(at);
    SortedUnique(LedgerOf(db), PassLedger(r.baseline, r.appliedAfter));
  }

  // ── The gap check on these states ─────────────────────────────────────────────────────────

  /** The files a plan applies, at each stage. */
  function PendingAt(c: Checkout, b: Release, stage: Stage): seq<Filename>
    requires stage.Passed? ==> stage.applied <= |LaterOf(c, b)|
  {
    match stage
    case Untouched => Without(c.snapshot, Members(b.migrations))
    case Passed(_, n) => LaterOf(c, b)[n..]
  }

  lemma PendingIs(c: Checkout, b: Release, stage: Stage, db: Db)
    requires Supported(c, b) && IsAt(c, b, stage, db)
    ensures Without(c.onDisk, Members(LedgerOf(db))) == PendingAt(c, b, stage)
    ensures Without(LedgerOf(db), Members(c.onDisk)) == []
  {
    BaselineFacts(c, b);
    var recorded := Members(LedgerOf(db));
    assert recorded == db.ledger.value.Keys;
    if stage.Passed? {
      AppliedFacts(c, b, stage.applied);
      RecoversPassState(c, b, stage.kind, stage.applied, db);
      assert LaterOf(c, b)[..stage.applied] <= LaterOf(c, b);
      RestOfPrefix(c, b, LaterOf(c, b)[..stage.applied], Without(c.onDisk, recorded));
    }
    EmptyIff(Without(LedgerOf(db), Members(c.onDisk)));
    assert recorded <= Members(c.onDisk);
  }

  /** No state a killed run leaves is refused as a gap. */
  lemma NeverAGap(c: Checkout, b: Release, stage: Stage, db: Db)
    requires Supported(c, b) && IsAt(c, b, stage, db)
    ensures var accepted := if stage.Untouched? then Some(Accepted(b.migrations, []))
                            else Some(Accepted(b.migrations, LaterOf(c, b)[..stage.applied]));
            GapProblems(LedgerOf(db), c.snapshot, PendingAt(c, b, stage), accepted) == []
  {
    PendingIs(c, b, stage, db);
    BaselineFacts(c, b);
    if stage.Untouched? {
      ReadsBaseline(c, b, db);
      ExactBeforePass(b.migrations, c.snapshot, PendingAt(c, b, stage));
    } else {
      RecoversPassState(c, b, stage.kind, stage.applied, db);
      NoGapAfter(c, b, stage.applied, LaterOf(c, b)[..stage.applied], PendingAt(c, b, stage));
    }
  }

  lemma NoGapAfter(c: Checkout, b: Release, n: nat, after: seq<Filename>, pending: seq<Filename>)
    requires IsListed(c, b) && n <= |LaterOf(c, b)| && after == LaterOf(c, b)[..n]
    requires pending == LaterOf(c, b)[n..] && pending == Without(c.snapshot, Members(PassLedger(b.migrations, after)))
    ensures GapProblems(PassLedger(b.migrations, after), c.snapshot, pending, Some(Accepted(b.migrations, after))) == []
  {
    BaselineFacts(c, b);
    AppliedFacts(c, b, n);
    ExactAfterPass(b.migrations, after, c.snapshot, pending);
  }

  /** The converse: a database that reads as a pass's remainder passes the gap check exactly when what was
      applied after 0081 is, in filename order, where some killed run would have stopped. */
  lemma PassesIffPrefix(c: Checkout, b: Release, db: Db, r: Remainder)
    requires Supported(c, b) && r.baseline == b.migrations && ReadIdentityPassRemainder(c, db) == Some(r)
    ensures var pending := Without(c.onDisk, Members(LedgerOf(db)));
            var problems := GapProblems(LedgerOf(db), c.snapshot, pending, Some(Accepted(r.baseline, r.appliedAfter)));
            problems == [] <==> r.appliedAfter <= LaterOf(c, b)
  {
    BaselineFacts(c, b);
    RemainderMeans(c, db, r);
    var pending := Without(c.onDisk, Members(LedgerOf(db)));
    ExactAfterPass(r.baseline, r.appliedAfter, c.snapshot, pending);
    if r.appliedAfter <= LaterOf(c, b) {
      RestOfPrefix(c, b, r.appliedAfter, pending);
    }
  }

  lemma RestOfPrefix(c: Checkout, b: Release, after: seq<Filename>, pending: seq<Filename>)
    requires Supported(c, b) && after <= LaterOf(c, b)
    requires pending == Without(c.snapshot, Members(PassLedger(b.migrations, after)))
    ensures pending == LaterOf(c, b)[|after|..]
  {
    BaselineFacts(c, b);
    WithoutPrefix(after, LaterOf(c, b));
    SortedUnique(pending, Without(LaterOf(c, b), Members(after)));
  }
}
