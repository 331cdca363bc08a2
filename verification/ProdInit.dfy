/** Rebinding the seated members (runProdInit's rebind-members in scripts/prod-init.ts, and the one writer
    of the credential file, scripts/lib/swarm/credential-file.ts). */
module ProdInit {
  import opened Wrappers
  import opened StringOrder
  import opened TextLines

  datatype Kind = Agent | Judge
  datatype Key = Key(kind: Kind, name: string)
  datatype Entry = Entry(memberId: string, publicKey: string, bearer: string)

  /** The credential file: the names of its two namespaces in file order, and every entry. */
  datatype CredentialFile = CredentialFile(agents: seq<string>, judges: seq<string>, entries: map<Key, Entry>)

  /** The gates in front of the rebind, in the order they are taken. */
  datatype Gate =
    | Policy
    | Instance
    | ReaderUrl
    | TargetRead
    | Identity
    | OperatorToken
    | CredentialPath
    | FileLoads
    | RosterNamed
    | ApiAddress
    | ConfirmTarget
    | TargetLock

  /** The gates a gate waits for: those that the command has passed before it looks at this one. */
  function Turn(gate: Gate): nat {
    match gate
    case Policy => 0
    case Instance => 1
    case ReaderUrl => 2
    case TargetRead => 3
    case Identity => 4
    case OperatorToken => 5
    case CredentialPath => 6
    case FileLoads => 7
    case RosterNamed => 8
    case ApiAddress => 9
    case ConfirmTarget => 10
    case TargetLock => 11
  }

  const GATES: seq<Gate> := [
    Policy, Instance, ReaderUrl, TargetRead, Identity, OperatorToken, CredentialPath, FileLoads, RosterNamed, ApiAddress,
    ConfirmTarget, TargetLock]

  /** What the admin API did with one rotation, and whether its answer brought the bearer back. */
  datatype Answer = NotRotated | Rotated(bearer: string, returned: bool)

  /** One entry's luck: whether the lock can be proven, the API's answer, whether the write reaches the disk. */
  datatype Attempt = Attempt(lockHeld: bool, answer: Answer, written: bool)

  datatype Failure = LockLost(key: Key) | NoBearer(key: Key) | NotWritten(key: Key)

  /** Every gate is taken, once, in its turn. */
  lemma GatesInTurn(gate: Gate)
    ensures Turn(gate) < |GATES| == 12 && GATES[Turn(gate)] == gate
    ensures forall i :: 0 <= i < |GATES| && GATES[i] == gate ==> i == Turn(gate)
  {
    assert forall i :: 0 <= i < 12 ==> Turn(GATES[i]) == i;
  }

  // ── The file ──────────────────────────────────────────────────────────────────────────────

  function Keyed(kind: Kind, names: seq<string>): (r: seq<Key>)
    ensures |r| == |names| && forall i :: 0 <= i < |r| ==> r[i] == Key(kind, names[i])
  {
    seq(|names|, i requires 0 <= i < |names| => Key(kind, names[i]))
  }

  /** Agents then judges, each by name. */
  function Roster(file: CredentialFile): seq<Key> {
    Keyed(Agent, Sort(file.agents)) + Keyed(Judge, Sort(file.judges))
  }

  function NamesOf(file: CredentialFile, kind: Kind): seq<string> {
    if kind == Agent then file.agents else file.judges
  }

  /** Two entries that share an identity. */
  predicate Shares(a: Entry, b: Entry) {
    a.memberId == b.memberId || a.publicKey == b.publicKey || a.bearer == b.bearer
  }

  /** The loader's rule: names once each, and no two entries with one member, one public key or one bearer. */
  predicate Loads(file: CredentialFile) {
    && NoRepeats(file.agents) && NoRepeats(file.judges)
    && (forall key | key in file.entries :: key.name in NamesOf(file, key.kind))
    && (forall name | name in file.agents :: Key(Agent, name) in file.entries)
    && (forall name | name in file.judges :: Key(Judge, name) in file.entries)
    && forall a, b {:trigger Shares(file.entries[a], file.entries[b])} | a in file.entries && b in file.entries && a != b ::
         !Shares(file.entries[a], file.entries[b])
  }

  function SetBearer(file: CredentialFile, key: Key, bearer: string): CredentialFile {
    if key !in file.entries then file else file.(entries := file.entries[key := file.entries[key].(bearer := bearer)])
  }

  /** One bearer put in its entry: refused when it is blank, or when the file before or after does not load. */
  predicate WriteRefused(file: CredentialFile, key: Key, bearer: string) {
    Trim(bearer) == "" || !Loads(file) || key !in file.entries || !Loads(SetBearer(file, key, bearer))
  }

  /** A file loads exactly when its names are its entries', each once, and no two entries have one member, one public
      key or one bearer. */
  lemma LoadsExact(file: CredentialFile)
    ensures Loads(file) <==>
            && NoRepeats(file.agents) && NoRepeats(file.judges)
            && (forall name :: name in file.agents <==> Key(Agent, name) in file.entries)
            && (forall name :: name in file.judges <==> Key(Judge, name) in file.entries)
            && (forall a, b :: a in file.entries && b in file.entries && a != b ==>
                  && file.entries[a].memberId != file.entries[b].memberId
                  && file.entries[a].publicKey != file.entries[b].publicKey
                  && file.entries[a].bearer != file.entries[b].bearer)
  {
    if Loads(file) {
      forall a, b | a in file.entries && b in file.entries && a != b
        ensures && file.entries[a].memberId != file.entries[b].memberId
                && file.entries[a].publicKey != file.entries[b].publicKey
                && file.entries[a].bearer != file.entries[b].bearer
      {
        assert !Shares(file.entries[a], file.entries[b]);
      }
    }
    assert forall key: Key :: key == Key(key.kind, key.name);
  }

  /** A bearer goes in exactly when it is not blank, the file loads, it has the entry, and no other entry has that
      bearer. */
  lemma WriteExact(file: CredentialFile, key: Key, bearer: string)
    ensures !WriteRefused(file, key, bearer) <==>
            && Trim(bearer) != "" && Loads(file) && key in file.entries
            && forall other :: other in file.entries && other != key ==> file.entries[other].bearer != bearer
  {
    if key in file.entries && Loads(file) { LoadsWithBearer(file, key, bearer); }
  }

  lemma LoadsWithBearer(file: CredentialFile, key: Key, bearer: string)
    requires key in file.entries && Loads(file)
    ensures Loads(SetBearer(file, key, bearer)) <==>
            forall other :: other in file.entries && other != key ==> file.entries[other].bearer != bearer
  {
    var after := SetBearer(file, key, bearer);
    LoadsExact(file);
    LoadsExact(after);
    assert forall other :: other in file.entries && other != key ==> after.entries[other] == file.entries[other];
    assert after.entries[key].bearer == bearer;
  }

  /** Setting a bearer changes that entry's bearer and nothing else. */
  lemma SetBearerSays(file: CredentialFile, key: Key, bearer: string)
    ensures var after := SetBearer(file, key, bearer);
            && after.agents == file.agents && after.judges == file.judges && after.entries.Keys == file.entries.Keys
            && forall k :: k in file.entries ==>
                 && SameIdentity(after.entries[k], file.entries[k])
                 && after.entries[k].bearer == if k == key then bearer else file.entries[k].bearer
  {
  }

  lemma {:induction false} RosterNamesEachOnce(file: CredentialFile)
    requires Loads(file)
    ensures NoRepeats(Roster(file))
    ensures forall key: Key :: key in Roster(file) <==> key in file.entries
  {
    SortedNames(file.agents);
    SortedNames(file.judges);
    OnceInBoth(Keyed(Agent, Sort(file.agents)), Keyed(Judge, Sort(file.judges)));
    forall key: Key ensures key in Roster(file) <==> key in file.entries {
      KeyedHolds(Agent, Sort(file.agents), key);
      KeyedHolds(Judge, Sort(file.judges), key);
    }
  }

  lemma OnceInBoth(agents: seq<Key>, judges: seq<Key>)
    requires NoRepeats(agents) && NoRepeats(judges)
    requires (forall key :: key in agents ==> key.kind == Agent) && (forall key :: key in judges ==> key.kind == Judge)
    ensures NoRepeats(agents + judges)
  {
    var all, n := agents + judges, |agents|;
    forall i, j | 0 <= i < j < |all| ensures all[i] != all[j] {
      if i >= n {
        assert judges[i - n] != judges[j - n];
      } else if j >= n {
        assert agents[i] in agents && judges[j - n] in judges;
      }
    }
  }

  lemma KeyedHolds(kind: Kind, names: seq<string>, key: Key)
    ensures key in Keyed(kind, names) <==> key.kind == kind && key.name in names
  {
    if key.kind == kind && key.name in names {
      var i :| 0 <= i < |names| && names[i] == key.name;
      assert Keyed(kind, names)[i] == key;
    }
  }

  lemma SortedNames(names: seq<string>)
    requires NoRepeats(names)
    ensures NoRepeats(Sort(names)) && forall x :: x in Sort(names) <==> x in names
  {
    SortPermutes(names);
    PermutesDistinct(Sort(names), names);
  }

  // ── The loop ──────────────────────────────────────────────────────────────────────────────

  /** What each rotation's answer carried. */
  function BearerOf(attempt: Attempt): string {
    if attempt.answer.Rotated? then attempt.answer.bearer else ""
  }

  /** The file with the first `k` roster entries' new bearers, and nothing else changed. */
  function FileAfter(file: CredentialFile, roster: seq<Key>, attempts: seq<Attempt>, k: nat): CredentialFile
    requires k <= |roster| && k <= |attempts|
  {
    if k == 0 then file else SetBearer(FileAfter(file, roster, attempts, k - 1), roster[k - 1], BearerOf(attempts[k - 1]))
  }

  /** The server's current bearers with the first `k` members rotated. */
  function ServerAfter(file: CredentialFile, server: map<string, string>, roster: seq<Key>, attempts: seq<Attempt>,
                       k: nat): map<string, string>
    requires k <= |roster| && k <= |attempts| && forall i :: 0 <= i < k ==> roster[i] in file.entries
  {
    if k == 0 then server
    else ServerAfter(file, server, roster, attempts, k - 1)[file.entries[roster[k - 1]].memberId := BearerOf(attempts[k - 1])]
  }

  predicate SameIdentity(a: Entry, b: Entry) { a.memberId == b.memberId && a.publicKey == b.publicKey }

  lemma {:induction false} FileKeeps(file: CredentialFile, roster: seq<Key>, attempts: seq<Attempt>, k: nat, key: Key)
    requires k <= |roster| && k <= |attempts| && NoRepeats(roster)
    ensures var after := FileAfter(file, roster, attempts, k);
            && after.agents == file.agents && after.judges == file.judges && after.entries.Keys == file.entries.Keys
            && (key in file.entries ==> SameIdentity(after.entries[key], file.entries[key]))
            && (key in file.entries && key !in roster[..k] ==> after.entries[key] == file.entries[key])
            && (forall i :: 0 <= i < k && roster[i] == key && key in file.entries ==> after.entries[key].bearer == BearerOf(attempts[i]))
  {
    if k > 0 {
      FileKeeps(file, roster, attempts, k - 1, key);
      assert roster[..k] == roster[..k - 1] + [roster[k - 1]];
    }
  }

  ghost predicate OneMemberEach(file: CredentialFile) {
    forall a, b :: a in file.entries && b in file.entries && a != b ==> file.entries[a].memberId != file.entries[b].memberId
  }

  predicate SameAt(a: map<string, string>, b: map<string, string>, member: string) {
    if member in a then member in b && a[member] == b[member] else member !in b
  }

  lemma {:induction false} ServerKeeps(file: CredentialFile, server: map<string, string>, roster: seq<Key>,
                                       attempts: seq<Attempt>, k: nat, member: string)
    requires k <= |roster| && k <= |attempts| && forall i :: 0 <= i < k ==> roster[i] in file.entries
    requires NoRepeats(roster) && OneMemberEach(file)
    ensures var after := ServerAfter(file, server, roster, attempts, k);
            && (forall i :: 0 <= i < k && file.entries[roster[i]].memberId == member ==>
                  member in after && after[member] == BearerOf(attempts[i]))
            && ((forall i :: 0 <= i < k ==> file.entries[roster[i]].memberId != member) ==> SameAt(after, server, member))
  {
    if k > 0 { ServerKeeps(file, server, roster, attempts, k - 1, member); }
  }

  // ── The command ───────────────────────────────────────────────────────────────────────────

  datatype Receipt = Receipt(rebound: seq<Key>, failure: Option<Failure>)

  /** How one entry fares on a file: no bearer without the lock, the rotation and its answer, and none written that the
      file's writer refuses or that does not reach the disk. */
  function FailureOf(file: CredentialFile, key: Key, attempt: Attempt): Option<Failure> {
    if !attempt.lockHeld then Some(LockLost(key))
    else if attempt.answer.NotRotated? || !attempt.answer.returned then Some(NoBearer(key))
    else if WriteRefused(file, key, attempt.answer.bearer) || !attempt.written then Some(NotWritten(key))
    else None
  }

  /** The server rotated this member, whether or not its bearer was written. */
  predicate Rotates(attempt: Attempt) { attempt.lockHeld && attempt.answer.Rotated? }

  /** The gates that read the file are decided by it, the others by the environment: `passes` says which. */
  function GateOpen(file: CredentialFile, gate: Gate, passes: set<Gate>): bool {
    match gate
    case FileLoads => Loads(file)
    case RosterNamed => Roster(file) != []
    case _ => gate in passes
  }

  /** The file's two gates are open exactly when it loads, and, then, when it has an entry; every other gate exactly when
      the environment lets the command through it. */
  lemma GateExact(file: CredentialFile, gate: Gate, passes: set<Gate>)
    ensures GateOpen(file, FileLoads, passes) <==> Loads(file)
    ensures Loads(file) ==> (GateOpen(file, RosterNamed, passes) <==> file.entries != map[])
    ensures gate != FileLoads && gate != RosterNamed ==> (GateOpen(file, gate, passes) <==> gate in passes)
  {
    if Loads(file) { NamedIffEntries(file, passes); }
  }

  lemma NamedIffEntries(file: CredentialFile, passes: set<Gate>)
    requires Loads(file)
    ensures GateOpen(file, RosterNamed, passes) <==> file.entries != map[]
  {
    RosterNamesEachOnce(file);
    if Roster(file) != [] { assert Roster(file)[0] in file.entries; }
    if file.entries != map[] {
      var key :| key in file.entries;
      assert key in Roster(file);
    }
  }

  /** The command is refused at this gate: it is closed, and every gate before its turn is open. */
  ghost predicate RefusedAt(file: CredentialFile, passes: set<Gate>, gate: Gate) {
    !GateOpen(file, gate, passes) && forall before :: Turn(before) < Turn(gate) ==> GateOpen(file, before, passes)
  }

  lemma AllBefore(file: CredentialFile, passes: set<Gate>, i: nat)
    requires i < |GATES| && forall j :: 0 <= j < i ==> GateOpen(file, GATES[j], passes)
    requires !GateOpen(file, GATES[i], passes)
    ensures RefusedAt(file, passes, GATES[i])
  {
    GatesInTurn(GATES[i]);
    forall before | Turn(before) < Turn(GATES[i]) ensures GateOpen(file, before, passes) { GatesInTurn(before); }
  }

  lemma AllOpen(file: CredentialFile, passes: set<Gate>)
    requires forall j :: 0 <= j < |GATES| ==> GateOpen(file, GATES[j], passes)
    ensures forall gate :: GateOpen(file, gate, passes)
  {
    forall gate ensures GateOpen(file, gate, passes) { GatesInTurn(gate); }
  }

  /** One closed gate refuses the command, at it or at one before it; alone, at it. */
  lemma OneClosedGateRefuses(file: CredentialFile, passes: set<Gate>, closed: Gate)
    requires !GateOpen(file, closed, passes)
    ensures exists gate :: RefusedAt(file, passes, gate) && Turn(gate) <= Turn(closed)
    ensures (forall other :: other != closed ==> GateOpen(file, other, passes)) ==>
              forall gate :: RefusedAt(file, passes, gate) <==> gate == closed
    decreases Turn(closed)
  {
    forall gate ensures Turn(gate) == Turn(closed) ==> gate == closed {
      GatesInTurn(gate);
      GatesInTurn(closed);
    }
    if !RefusedAt(file, passes, closed) {
      var before :| Turn(before) < Turn(closed) && !GateOpen(file, before, passes);
      OneClosedGateRefuses(file, passes, before);
    }
  }

  /** A roster of this file's entries, each once. */
  ghost predicate Rosters(roster: seq<Key>, file: CredentialFile) {
    NoRepeats(roster) && forall i :: 0 <= i < |roster| ==> roster[i] in file.entries
  }

  /** The first `i` entries went through, and file and server are as they leave them. */
  ghost predicate Rebound(roster: seq<Key>, file0: CredentialFile, server0: map<string, string>, attempts: seq<Attempt>, i: nat,
                          file: CredentialFile, server: map<string, string>) {
    && NoneFails(roster, file0, attempts, i) && Rosters(roster, file0)
    && file == FileAfter(file0, roster, attempts, i)
    && server == ServerAfter(file0, server0, roster, attempts, i)
  }

  ghost predicate Ends(roster: seq<Key>, file0: CredentialFile, server0: map<string, string>, attempts: seq<Attempt>,
                       receipt: Receipt, file: CredentialFile, server: map<string, string>) {
    StopsInPrefix(roster, file0, server0, attempts, receipt, file, server) && FirstFailure(roster, file0, attempts, receipt)
  }

  /** What one entry's failure, or its going through, says of the loop it is in. */
  lemma Rebinds(file0: CredentialFile, server0: map<string, string>, roster: seq<Key>, attempts: seq<Attempt>, i: nat,
                failure: Option<Failure>, before: CredentialFile, file: CredentialFile, server: map<string, string>)
    requires i < |roster| && NoneFails(roster, file0, attempts, i) && Rosters(roster, file0)
    requires before == FileAfter(file0, roster, attempts, i)
    requires failure == FailureOf(before, roster[i], attempts[i])
    requires file == if failure == None then SetBearer(before, roster[i], BearerOf(attempts[i])) else before
    requires server == ServerAfter(file0, server0, roster, attempts, if Rotates(attempts[i]) then i + 1 else i)
    ensures failure == None ==> Rebound(roster, file0, server0, attempts, i + 1, file, server)
    ensures failure != None ==> Ends(roster, file0, server0, attempts, Receipt(roster[..i], failure), file, server)
  {
    assert failure == FailureAt(roster, file0, attempts, i);
    if failure == None { ThenRotates(before, roster[i], attempts[i]); }
  }

  lemma ThenRotates(file: CredentialFile, key: Key, attempt: Attempt)
    requires FailureOf(file, key, attempt) == None
    ensures Rotates(attempt)
  {
  }

  lemma AllRebound(file0: CredentialFile, server0: map<string, string>, roster: seq<Key>, attempts: seq<Attempt>,
                   file: CredentialFile, server: map<string, string>)
    requires |attempts| >= |roster| && Rebound(roster, file0, server0, attempts, |roster|, file, server)
    ensures Ends(roster, file0, server0, attempts, Receipt(roster[..|roster|], None), file, server)
    ensures roster[..|roster|] == roster
  {
  }

  class Host {
    var file: CredentialFile
    /** Each member's current bearer at the server. */
    var server: map<string, string>
    var locked: bool
    var receipt: Option<Receipt>

    constructor (file: CredentialFile, server: map<string, string>)
      ensures this.file == file && this.server == server && !locked && receipt == None
    {
      this.file, this.server, this.locked, this.receipt := file, server, false, None;
    }

    /** One entry: prove the lock, rotate at the server, put the new bearer in the file. */
    method Rebind(key: Key, attempt: Attempt) returns (failure: Option<Failure>)
      requires key in file.entries
      modifies this`file, this`server
      ensures failure == FailureOf(old(file), key, attempt)
      ensures file == if failure == None then SetBearer(old(file), key, BearerOf(attempt)) else old(file)
      ensures server == if Rotates(attempt) then old(server)[old(file.entries[key].memberId) := BearerOf(attempt)] else old(server)
    {
      if !attempt.lockHeld { return Some(LockLost(key)); }
      if attempt.answer.NotRotated? { return Some(NoBearer(key)); }
      var token := attempt.answer.bearer;
      server := server[file.entries[key].memberId := token];
      if !attempt.answer.returned { return Some(NoBearer(key)); }
      var written := WriteBearer(key, token, attempt.written);
      return if written then None else Some(NotWritten(key));
    }

    /** writeCredentialBearer: the whole file is replaced, or nothing is. */
    method WriteBearer(key: Key, bearer: string, reachesDisk: bool) returns (written: bool)
      modifies this`file
      ensures written <==> !WriteRefused(old(file), key, bearer) && reachesDisk
      ensures file == if written then SetBearer(old(file), key, bearer) else old(file)
    {
      if WriteRefused(file, key, bearer) || !reachesDisk { return false; }
      file := SetBearer(file, key, bearer);
      return true;
    }

    /** rebind-members: every gate in order, then the lock, the loop, the release and the receipt. `passes`
        says which of the other gates let the command through, `attempts` how each entry fares. */
    method RebindMembers(passes: set<Gate>, attempts: seq<Attempt>) returns (refused: Option<Gate>)
      requires !locked && |attempts| >= |Roster(file)|
      modifies this
      ensures !locked
      ensures refused.Some? ==> file == old(file) && server == old(server) && receipt == old(receipt)
      ensures refused.Some? ==> RefusedAt(old(file), passes, refused.value)
      ensures refused == None ==>
                && (forall gate :: GateOpen(old(file), gate, passes))
                && receipt.Some? && RebindEnds(old(file), old(server), attempts, receipt.value, file, server)
                && FirstFailure(Roster(old(file)), old(file), attempts, receipt.value)
    {
      for i := 0 to |GATES|
        invariant forall j :: 0 <= j < i ==> GateOpen(file, GATES[j], passes)
      {
        if !GateOpen(file, GATES[i], passes) {
          AllBefore(file, passes, i);
          return Some(GATES[i]);
        }
      }
      AllOpen(file, passes);
      assert GateOpen(file, FileLoads, passes);
      RosterNamesEachOnce(file);
      locked := true;
      var rebound, failure := Loop(Roster(file), attempts);
      locked := false;
      receipt := Some(Receipt(rebound, failure));
      return None;
    }

    /** The loop's step: the entry after the first `i`. */
    method RebindNext(key: Key, attempt: Attempt, ghost file0: CredentialFile, ghost server0: map<string, string>,
                      ghost roster: seq<Key>, ghost attempts: seq<Attempt>, ghost i: nat)
      returns (failure: Option<Failure>)
      requires i < |roster| <= |attempts| && roster[i] == key && attempts[i] == attempt
      requires Rosters(roster, file0) && Rebound(roster, file0, server0, attempts, i, file, server)
      modifies this`file, this`server
      ensures failure == None ==> Rebound(roster, file0, server0, attempts, i + 1, file, server)
      ensures failure != None ==> Ends(roster, file0, server0, attempts, Receipt(roster[..i], failure), file, server)
    {
      FileKeeps(file0, roster, attempts, i, key);
      ghost var before := file;
      failure := Rebind(key, attempt);
      Rebinds(file0, server0, roster, attempts, i, failure, before, file, server);
    }

    method Loop(roster: seq<Key>, attempts: seq<Attempt>) returns (rebound: seq<Key>, failure: Option<Failure>)
      requires |attempts| >= |roster| && Rosters(roster, file)
      modifies this`file, this`server
      ensures Ends(roster, old(file), old(server), attempts, Receipt(rebound, failure), file, server)
    {
      rebound, failure := [], None;
      ghost var file0, server0 := file, server;
      for i := 0 to |roster|
        invariant rebound == roster[..i] && failure == None
        invariant Rebound(roster, file0, server0, attempts, i, file, server)
      {
        failure := RebindNext(roster[i], attempts[i], file0, server0, roster, attempts, i);
        if failure.Some? { return; }
        rebound := rebound + [roster[i]];
        assert roster[..i + 1] == roster[..i] + [roster[i]];
      }
      AllRebound(file0, server0, roster, attempts, file, server);
    }
  }

  /** How a rebind that passed its gates ends, whatever entry failed: the receipt's rebound list is the roster up to the
      first entry that fails, and its failure is that entry's; the file changed for exactly that prefix; and at the
      server the prefix rotated, and of the rest the failed entry's member, if the API got to it. */
  ghost predicate RebindEnds(file: CredentialFile, server: map<string, string>, attempts: seq<Attempt>, receipt: Receipt,
                             after: CredentialFile, serverAfter: map<string, string>)
  {
    StopsInPrefix(Roster(file), file, server, attempts, receipt, after, serverAfter)
  }

  ghost predicate StopsInPrefix(roster: seq<Key>, file: CredentialFile, server: map<string, string>, attempts: seq<Attempt>,
                                receipt: Receipt, after: CredentialFile, serverAfter: map<string, string>)
  {
    var k := |receipt.rebound|;
    && k <= |roster| <= |attempts| && receipt.rebound == roster[..k]
    && (receipt.failure == None <==> k == |roster|)
    && (forall i :: 0 <= i < |roster| ==> roster[i] in file.entries)
    && after == FileAfter(file, roster, attempts, k)
    && serverAfter == ServerAfter(file, server, roster, attempts, if k < |roster| && Rotates(attempts[k]) then k + 1 else k)
  }

  /** How the `i`th entry fares, on the file the ones before it leave. */
  ghost function FailureAt(roster: seq<Key>, file: CredentialFile, attempts: seq<Attempt>, i: nat): Option<Failure>
    requires i < |roster| <= |attempts|
  {
    FailureOf(FileAfter(file, roster, attempts, i), roster[i], attempts[i])
  }

  /** None of the first `k` entries fails. */
  ghost predicate NoneFails(roster: seq<Key>, file: CredentialFile, attempts: seq<Attempt>, k: nat) {
    && k <= |roster| <= |attempts|
    && forall i {:trigger FailureAt(roster, file, attempts, i)} :: 0 <= i < k ==> FailureAt(roster, file, attempts, i) == None
  }

  /** The rebound entries are the ones before the first that fails, and the failure named is that entry's. */
  ghost predicate FirstFailure(roster: seq<Key>, file: CredentialFile, attempts: seq<Attempt>, receipt: Receipt) {
    var k := |receipt.rebound|;
    && NoneFails(roster, file, attempts, k)
    && (k < |roster| ==> receipt.failure == FailureAt(roster, file, attempts, k))
  }

  // ── What a rebind leaves ──────────────────────────────────────────────────────────────────

  /** Every rebound entry holds the server's current bearer for its member; every other entry is as it was,
      and so is every other member at the server but at most the one the loop stopped at. */
  lemma RebindLeaves(file: CredentialFile, server: map<string, string>, attempts: seq<Attempt>, receipt: Receipt,
                     after: CredentialFile, serverAfter: map<string, string>, key: Key)
    requires Loads(file) && RebindEnds(file, server, attempts, receipt, after, serverAfter) && key in file.entries
    ensures key in after.entries && after.entries[key].memberId == file.entries[key].memberId
    ensures after.entries[key].publicKey == file.entries[key].publicKey
    ensures var member := file.entries[key].memberId;
            if key in receipt.rebound then member in serverAfter && after.entries[key].bearer == serverAfter[member]
            else
              && after.entries[key] == file.entries[key]
              && (SameAt(serverAfter, server, member) || (|receipt.rebound| < |Roster(file)| && key == Roster(file)[|receipt.rebound|]))
  {
    RosterNamesEachOnce(file);
    OneEntryPerMember(file);
    LeavesAt(Roster(file), file, server, attempts, receipt, after, serverAfter, key);
  }

  lemma LeavesAt(roster: seq<Key>, file: CredentialFile, server: map<string, string>, attempts: seq<Attempt>, receipt: Receipt,
                 after: CredentialFile, serverAfter: map<string, string>, key: Key)
    requires NoRepeats(roster) && OneMemberEach(file) && key in roster
    requires StopsInPrefix(roster, file, server, attempts, receipt, after, serverAfter)
    ensures key in file.entries && key in after.entries && SameIdentity(after.entries[key], file.entries[key])
    ensures var member := file.entries[key].memberId;
            if key in receipt.rebound then member in serverAfter && after.entries[key].bearer == serverAfter[member]
            else
              && after.entries[key] == file.entries[key]
              && (SameAt(serverAfter, server, member) || (|receipt.rebound| < |roster| && key == roster[|receipt.rebound|]))
  {
    var k, member := |receipt.rebound|, file.entries[key].memberId;
    var i := PlaceOf(file, roster, k, key);
    FileKeeps(file, roster, attempts, k, key);
    ServerKeeps(file, server, roster, attempts, k, member);
    if k < |roster| { ServerKeeps(file, server, roster, attempts, k + 1, member); }
  }

  /** Where a key stands in the roster, the only place with its member. */
  lemma PlaceOf(file: CredentialFile, roster: seq<Key>, k: nat, key: Key) returns (i: nat)
    requires NoRepeats(roster) && k <= |roster| && key in roster && forall j :: 0 <= j < |roster| ==> roster[j] in file.entries
    requires OneMemberEach(file)
    ensures i < |roster| && roster[i] == key && (key in roster[..k] <==> i < k)
    ensures forall j :: 0 <= j < |roster| && j != i ==> file.entries[roster[j]].memberId != file.entries[key].memberId
  {
    i :| 0 <= i < |roster| && roster[i] == key;
    if i < k { assert roster[..k][i] == key; }
  }

  lemma OneEntryPerMember(file: CredentialFile)
    requires Loads(file)
    ensures OneMemberEach(file)
  {
    forall a, b | a in file.entries && b in file.entries && a != b ensures file.entries[a].memberId != file.entries[b].memberId {
      assert !Shares(file.entries[a], file.entries[b]);
    }
  }

  /** A completed rebind leaves every member's entry in step with the server. */
  lemma CompletedIsInStep(file: CredentialFile, server: map<string, string>, attempts: seq<Attempt>, receipt: Receipt,
                          after: CredentialFile, serverAfter: map<string, string>)
    requires Loads(file) && RebindEnds(file, server, attempts, receipt, after, serverAfter) && receipt.failure == None
    ensures after.entries.Keys == file.entries.Keys
    ensures forall key :: key in after.entries ==>
              after.entries[key].memberId in serverAfter && after.entries[key].bearer == serverAfter[after.entries[key].memberId]
  {
    RosterNamesEachOnce(file);
    var roster := Roster(file);
    assert roster[..|roster|] == roster;
    forall key | key in file.entries
      ensures key in after.entries
      ensures after.entries[key].memberId in serverAfter && after.entries[key].bearer == serverAfter[after.entries[key].memberId]
    {
      RebindLeaves(file, server, attempts, receipt, after, serverAfter, key);
    }
    if roster != [] { FileKeeps(file, roster, attempts, |roster|, roster[0]); }
  }
}
