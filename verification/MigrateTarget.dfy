/** The database a migrate run works on, what the run reads of it, and the gates it puts in front
    of a run (backend/scripts/migrate-run.ts, backend/src/deploy-policy.ts). */
module MigrateTarget {
  import opened Filenames
  import opened Wrappers

  datatype Caller = Operator | SmokeFlag
  datatype Env = Prod | Stage | EnvUnset
  datatype Connection = Remote | Local

  /** Who asks, under which policy, over which connection. */
  datatype Options = Options(caller: Caller, env: Env, connection: Connection)

  datatype Kind = Production | Rehearsal

  /** A stored identity value: one of the two kinds, or something the run cannot read as either. */
  datatype RowValue = Enrolled(kind: Kind) | Unknown

  /** `deployment_identity`: absent, present without a column that could carry the value, or its rows. */
  datatype IdentityTable = NoTable | NoKindColumn | Rows(rows: seq<RowValue>)

  datatype Manifest = Manifest(formatKnown: bool, hashVerifies: bool, filenames: seq<Filename>)

  /** Whether the privileges are the snapshot's, as far as the last committed transaction says. */
  datatype Grants = AsSnapshot | Unreconciled

  /** One committed state. The ledger maps each recorded filename to its `applied_at`; `clock` is the
      server's clock, which every commit stamps and moves on. */
  datatype Db = Db(
    ledger: Option<map<Filename, int>>,
    identity: IdentityTable,
    manifest: Option<Manifest>,
    grants: Grants,
    clock: int)
  {
    ghost predicate ClockAhead() {
      ledger.Some? ==> forall f :: f in ledger.value ==> ledger.value[f] < clock
    }
  }

  /** One SUPPORTED_RELEASES entry. */
  datatype Release = Release(name: string, migrations: seq<Filename>)

  /** What the checkout carries: the migration files, the snapshot's filename list, the baselines. */
  datatype Checkout = Checkout(onDisk: seq<Filename>, snapshot: seq<Filename>, releases: seq<Release>)
  {
    /** The snapshot's list is the migrations directory's, 0081 included, and every baseline is a
        part of it that sorts below 0081; no two baselines are the same list. */
    ghost predicate Valid() {
      && Sorted(snapshot)
      && onDisk == snapshot
      && IDENTITY_MIGRATION in snapshot
      && (forall i :: 0 <= i < |releases| ==> IsBaseline(releases[i]))
      && (forall i, j :: 0 <= i < j < |releases| ==> releases[i].migrations != releases[j].migrations)
    }

    ghost predicate IsBaseline(b: Release) {
      && Sorted(b.migrations)
      && Members(b.migrations) <= Members(snapshot)
      && forall f :: f in b.migrations ==> f < IDENTITY_MIGRATION
    }
  }

  // ── Reads ─────────────────────────────────────────────────────────────────────────────────

  datatype IdentityValue = OfKind(kind: Kind) | NoRow | Unreadable | AbsentTable
  datatype IdentityRead = Read(value: IdentityValue) | Ambiguous(count: nat)

  /** The one-row table, read as the gates read it. */
  function ReadDeploymentIdentity(db: Db): IdentityRead {
    match db.identity
    case NoTable => Read(AbsentTable)
    case NoKindColumn => Read(Unreadable)
    case Rows(rows) =>
      if |rows| > 1 then Ambiguous(|rows|)
      else if |rows| == 0 then Read(NoRow)
      else Read(if rows[0].Enrolled? then OfKind(rows[0].kind) else Unreadable)
  }

  /** The ledger's filenames in filename order; none when there is no ledger. */
  function LedgerOf(db: Db): (r: seq<Filename>)
    ensures Sorted(r)
  {
    if db.ledger.Some? then Listed(db.ledger.value.Keys) else []
  }

  /** The first baseline whose filename list the ledger equals exactly, nothing missing or extra. */
  function MatchSupportedRelease(ledger: seq<Filename>, releases: seq<Release>): (r: Option<Release>)
    ensures r.Some? ==> r.value in releases && Members(r.value.migrations) == Members(ledger)
    ensures r.None? ==> forall b :: b in releases ==> Members(b.migrations) != Members(ledger)
  {
    if releases == [] then None
    else if Members(releases[0].migrations) == Members(ledger) then Some(releases[0])
    else MatchSupportedRelease(ledger, releases[1..])
  }

  /** The state an identity-first pass starts from: which baseline, and the ledger it was read off. */
  datatype PreIdentity = PreIdentity(release: string, ledger: seq<Filename>)

  function ReadPreIdentityLedger(c: Checkout, db: Db): Option<PreIdentity> {
    if ReadDeploymentIdentity(db) != Read(AbsentTable) then None
    else
      var ledger := LedgerOf(db);
      var release := MatchSupportedRelease(ledger, c.releases);
      if release.None? then None else Some(PreIdentity(release.value.name, ledger))
  }

  function ReadPreIdentityState(c: Checkout, db: Db, o: Options): Option<PreIdentity> {
    if o.caller != Operator || o.connection != Remote || o.env == EnvUnset then None
    else ReadPreIdentityLedger(c, db)
  }

  /** What a remote identity-first pass writes. Nothing but the policy decides it. */
  function IdentityFirstKind(env: Env): Kind {
    if env == Prod then Production else Rehearsal
  }

  /** The state a pass left: the baseline, and what was applied since, both in filename order. */
  datatype Remainder = Remainder(release: string, baseline: seq<Filename>, appliedAfter: seq<Filename>)

  /** The rows applied strictly before 0081. */
  function AppliedBefore(at: map<Filename, int>): (r: set<Filename>)
    requires IDENTITY_MIGRATION in at
    ensures forall f :: f in r <==> f in at && at[f] < at[IDENTITY_MIGRATION]
  {
    set f | f in at && at[f] < at[IDENTITY_MIGRATION]
  }

  /** The rows applied strictly after 0081. */
  function AppliedAfter(at: map<Filename, int>): (r: set<Filename>)
    requires IDENTITY_MIGRATION in at
    ensures forall f :: f in r <==> f in at && at[f] > at[IDENTITY_MIGRATION]
  {
    set f | f in at && at[f] > at[IDENTITY_MIGRATION]
  }

  /** Null when another row shares 0081's time, or no other row exists, or the rows before it match no
      supported baseline. */
  function ReadIdentityPassRemainder(c: Checkout, db: Db): Option<Remainder> {
    var identity := ReadDeploymentIdentity(db);
    if !(identity.Read? && identity.value.OfKind?) || db.ledger.None? then None
    else
      var at := db.ledger.value;
      if IDENTITY_MIGRATION !in at then None
      else
        var others := at.Keys - {IDENTITY_MIGRATION};
        if others == {} || exists f :: f in others && at[f] == at[IDENTITY_MIGRATION] then None
        else
          var baseline := Listed(AppliedBefore(at));
          var release := MatchSupportedRelease(baseline, c.releases);
          if release.None? then None
          else Some(Remainder(release.value.name, baseline, Listed(AppliedAfter(at))))
  }

  datatype ManifestState = Absent | UnknownFormat | Inconsistent | InProgress | Published

  /** How the manifest and the ledger stand to each other. */
  function DetectManifestState(db: Db): ManifestState {
    if db.manifest.None? then Absent
    else
      var m := db.manifest.value;
      if !m.formatKnown then UnknownFormat
      else if !m.hashVerifies || !(Members(m.filenames) <= Members(LedgerOf(db))) then Inconsistent
      else if Without(LedgerOf(db), Members(m.filenames)) != [] then InProgress
      else Published
  }

  // ── The gates ─────────────────────────────────────────────────────────────────────────────

  /** The one policy matrix, for a database that already exists. */
  predicate PolicyAllows(env: Env, connection: Connection, identity: IdentityValue) {
    if env == EnvUnset && connection == Remote then false
    else if env == Prod then connection == Remote && identity == OfKind(Production)
    else identity == OfKind(Rehearsal)
  }

  datatype Reason = ProdEnv | IdentityNotRehearsal | IdentityMissing | EnvUnsetRemote | EnvInvalid

  /** Reasons come in this order, each once: the flag on prod, then the policy, then the identity. */
  function Place(r: Reason): nat {
    match r
    case ProdEnv => 0
    case EnvUnsetRemote => 1
    case EnvInvalid => 1
    case IdentityMissing => 2
    case IdentityNotRehearsal => 2
  }

  predicate InPlace(reasons: seq<Reason>) {
    forall i, j :: 0 <= i < j < |reasons| ==> Place(reasons[i]) < Place(reasons[j])
  }

  /** Append a reason that is not there yet. */
  function Push(reasons: seq<Reason>, r: Reason): (out: seq<Reason>)
    ensures out != [] && forall x :: x in out <==> x in reasons || x == r
  {
    if r in reasons then reasons else reasons + [r]
  }

  /** What the policy matrix refuses for. */
  function PolicyReason(o: Options, kind: IdentityValue): Reason {
    if o.env == EnvUnset && o.connection == Remote then EnvUnsetRemote
    else if o.env == Prod && o.connection == Local then EnvInvalid
    else if kind == NoRow || kind == Unreadable then IdentityMissing
    else IdentityNotRehearsal
  }

  function PolicyReasons(o: Options, kind: IdentityValue): seq<Reason> {
    var smokeOnProd := o.caller == SmokeFlag && o.env == Prod;
    var out0 := if smokeOnProd then Push([], ProdEnv) else [];
    var reason := PolicyReason(o, kind);
    if PolicyAllows(o.env, o.connection, kind) || (smokeOnProd && reason == EnvInvalid) then out0 else Push(out0, reason)
  }

  /** The reasons on a database that is not offered the pass, whose identity reads as `kind`. */
  function ReasonsFor(o: Options, kind: IdentityValue): seq<Reason> {
    var out1 := PolicyReasons(o, kind);
    if o.caller == SmokeFlag && kind != OfKind(Rehearsal)
    then Push(out1, if kind == OfKind(Production) then IdentityNotRehearsal else IdentityMissing)
    else out1
  }

  /** Every reason the run is refused for; none when it may proceed. */
  function CheckMigrateGates(c: Checkout, db: Db, o: Options): seq<Reason> {
    var identity := ReadDeploymentIdentity(db);
    if identity.Ambiguous? then [IdentityMissing]
    // The matrix reads an absent table as unreadable.
    else if ReadPreIdentityState(c, db, o).Some? then []
    else ReasonsFor(o, if identity.value == AbsentTable then Unreadable else identity.value)
  }

  /** The identity-first pass is offered: an operator's remote run under a policy, on a database with no identity
      table whose ledger is exactly a listed baseline's. */
  ghost predicate PassOffered(c: Checkout, db: Db, o: Options) {
    && o.caller == Operator && o.connection == Remote && (o.env == Prod || o.env == Stage)
    && db.identity == NoTable
    && exists b :: b in c.releases && Members(b.migrations) == Members(LedgerOf(db))
  }

  /** Who may run: one of the two identity-first passes; an operator's remote prod run on a database whose
      one identity row says production; any other run with a policy on one that says rehearsal. */
  ghost predicate Admitted(c: Checkout, db: Db, o: Options) {
    || PassOffered(c, db, o)
    || (o == Options(Operator, Prod, Remote) && db.identity == Rows([Enrolled(Production)]))
    || (o.env != Prod && (o.env == Stage || o.connection == Local) && db.identity == Rows([Enrolled(Rehearsal)]))
  }

  /** A run reads a pre-identity state exactly when the pass is offered to it, and then it is the database's own. */
  lemma PassIsOffered(c: Checkout, db: Db, o: Options)
    ensures ReadPreIdentityState(c, db, o).Some? <==> PassOffered(c, db, o)
    ensures PassOffered(c, db, o) ==>
              var state := ReadPreIdentityState(c, db, o).value;
              && state.ledger == LedgerOf(db)
              && exists b :: b in c.releases && b.name == state.release && Members(b.migrations) == Members(LedgerOf(db))
  {
  }

  /** The gates find no reason to refuse exactly for the runs that are admitted. */
  lemma GatesAdmit(c: Checkout, db: Db, o: Options)
    ensures CheckMigrateGates(c, db, o) == [] <==> Admitted(c, db, o)
  {
    PassIsOffered(c, db, o);
    if db.identity.Rows? && |db.identity.rows| == 1 {
      assert db.identity.rows == [db.identity.rows[0]];
    }
  }

  /** What the one-row table is read as. */
  lemma IdentityReadExact(db: Db, kind: Kind)
    ensures var read := ReadDeploymentIdentity(db);
            && (read == Read(OfKind(kind)) <==> KindOf(db) == Some(kind))
            && (read == Read(NoRow) <==> db.identity == Rows([]))
            && (read == Read(AbsentTable) <==> db.identity == NoTable)
            && (read == Read(Unreadable) <==> db.identity == NoKindColumn || db.identity == Rows([Unknown]))
            && (read.Ambiguous? <==> db.identity.Rows? && |db.identity.rows| > 1)
            && (read.Ambiguous? ==> read.count == |db.identity.rows|)
  {
    if db.identity.Rows? && |db.identity.rows| == 1 { assert db.identity.rows == [db.identity.rows[0]]; }
  }

  /** A pass's remainder is read exactly from an enrolled database whose ledger has 0081 and other rows, none at 0081's
      time, and a listed baseline's rows, all of them and no others, before it; it is that baseline and the rows after. */
  lemma RemainderExact(c: Checkout, db: Db)
    ensures var r := ReadIdentityPassRemainder(c, db);
            && (r.Some? <==>
                  && KindOf(db).Some? && db.ledger.Some? && IDENTITY_MIGRATION in db.ledger.value
                  && (exists f :: f in db.ledger.value && f != IDENTITY_MIGRATION)
                  && (forall f :: f in db.ledger.value && f != IDENTITY_MIGRATION ==>
                        db.ledger.value[f] != db.ledger.value[IDENTITY_MIGRATION])
                  && exists b :: b in c.releases && Members(b.migrations) == AppliedBefore(db.ledger.value))
            && (r.Some? ==>
                  && Sorted(r.value.baseline) && Members(r.value.baseline) == AppliedBefore(db.ledger.value)
                  && Sorted(r.value.appliedAfter) && Members(r.value.appliedAfter) == AppliedAfter(db.ledger.value)
                  && exists b :: b in c.releases && b.name == r.value.release && Members(b.migrations) == Members(r.value.baseline))
  {
    if db.ledger.Some? && IDENTITY_MIGRATION in db.ledger.value {
      var at := db.ledger.value;
      var others := at.Keys - {IDENTITY_MIGRATION};
      assert forall f :: f in others <==> f in at && f != IDENTITY_MIGRATION;
      if others == {} {
        assert forall f :: f in at ==> f !in others;
      } else {
        var f :| f in others;
        assert f in at && f != IDENTITY_MIGRATION;
      }
    }
  }

  /** The one kind a database is enrolled as, if it is. */
  ghost function KindOf(db: Db): Option<Kind> {
    if db.identity.Rows? && |db.identity.rows| == 1 && db.identity.rows[0].Enrolled? then Some(db.identity.rows[0].kind)
    else None
  }

  /** The reasons that who asks and the policy give, whatever the identity. */
  ghost predicate FromPolicy(o: Options, reasons: seq<Reason>) {
    && (ProdEnv in reasons <==> o.caller == SmokeFlag && o.env == Prod)
    && (EnvUnsetRemote in reasons <==> o.env == EnvUnset && o.connection == Remote)
    && (EnvInvalid in reasons <==> o == Options(Operator, Prod, Local))
  }

  /** The reasons that the identity gives: the flag needs a rehearsal row, and the policy the row it is for. */
  ghost predicate FromIdentity(o: Options, kind: Option<Kind>, reasons: seq<Reason>) {
    var noPolicy := (o.env == EnvUnset && o.connection == Remote) || (o.env == Prod && o.connection == Local);
    && (IdentityMissing in reasons <==> kind == None && (o.caller == SmokeFlag || !noPolicy))
    && (IdentityNotRehearsal in reasons <==>
          || (kind == Some(Production) && (o.caller == SmokeFlag || (o.env != Prod && !noPolicy)))
          || (kind == Some(Rehearsal) && o.env == Prod && o.connection == Remote))
  }

  lemma PushInPlace(reasons: seq<Reason>, r: Reason)
    requires InPlace(reasons) && forall x :: x in reasons ==> x == r || Place(x) < Place(r)
    ensures InPlace(Push(reasons, r))
  {
  }

  lemma PolicyInTurn(o: Options, kind: IdentityValue)
    requires kind != AbsentTable
    ensures InPlace(PolicyReasons(o, kind))
    ensures forall x :: x in PolicyReasons(o, kind) ==> x == ProdEnv || x == PolicyReason(o, kind)
  {
    PushInPlace([], ProdEnv);
    PushInPlace([], PolicyReason(o, kind));
    PushInPlace(Push([], ProdEnv), PolicyReason(o, kind));
  }

  lemma InTurn(o: Options, kind: IdentityValue)
    requires kind != AbsentTable
    ensures InPlace(ReasonsFor(o, kind))
  {
    PolicyInTurn(o, kind);
    assert kind.OfKind? ==> kind.kind == Production || kind.kind == Rehearsal;
    if o.caller == SmokeFlag && kind != OfKind(Rehearsal) {
      PushInPlace(PolicyReasons(o, kind), if kind == OfKind(Production) then IdentityNotRehearsal else IdentityMissing);
    }
  }

  lemma FromThePolicy(o: Options, kind: IdentityValue)
    requires kind != AbsentTable
    ensures FromPolicy(o, ReasonsFor(o, kind))
  {
    assert kind.OfKind? ==> kind.kind == Production || kind.kind == Rehearsal;
  }

  lemma FromTheIdentity(o: Options, kind: IdentityValue)
    requires kind != AbsentTable
    ensures FromIdentity(o, if kind.OfKind? then Some(kind.kind) else None, ReasonsFor(o, kind))
  {
    assert kind.OfKind? ==> kind.kind == Production || kind.kind == Rehearsal;
  }

  /** Which reasons a refusal names: from who asks, under which policy, over which connection, and the identity. */
  lemma ReasonsExact(c: Checkout, db: Db, o: Options)
    ensures var reasons := CheckMigrateGates(c, db, o);
            if db.identity.Rows? && |db.identity.rows| > 1 then reasons == [IdentityMissing]
            else if PassOffered(c, db, o) then reasons == []
            else InPlace(reasons) && FromPolicy(o, reasons) && FromIdentity(o, KindOf(db), reasons)
  {
    PassIsOffered(c, db, o);
    var identity := ReadDeploymentIdentity(db);
    if identity.Read? {
      var kind := if identity.value == AbsentTable then Unreadable else identity.value;
      InTurn(o, kind);
      FromThePolicy(o, kind);
      FromTheIdentity(o, kind);
    }
  }

  /** How the manifest stands to the ledger, name by name. */
  lemma ManifestStateExact(db: Db)
    ensures var state := DetectManifestState(db);
            match db.manifest
            case None => state == Absent
            case Some(m) =>
              && (state == UnknownFormat <==> !m.formatKnown)
              && (state == Inconsistent <==>
                    m.formatKnown && (!m.hashVerifies || exists name :: name in m.filenames && name !in LedgerOf(db)))
              && (state == Published <==> m.formatKnown && m.hashVerifies && Members(m.filenames) == Members(LedgerOf(db)))
              && (state == InProgress <==> m.formatKnown && m.hashVerifies && Members(m.filenames) < Members(LedgerOf(db)))
  {
    if db.manifest.Some? {
      var names, recorded := db.manifest.value.filenames, LedgerOf(db);
      NoneLeft(recorded, Members(names));
      PartIff(names, recorded);
      assert Members(names) <= Members(recorded) && Members(recorded) <= Members(names) ==> Members(names) == Members(recorded);
    }
  }
}
