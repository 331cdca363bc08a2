/** What a diagnosis says of the drift (diagnoseRun in backend/scripts/composite-drift-diagnosis.ts): the stored
    versions behind both sides of each differing series, the composite effects, and the cause. */
module DriftCause {
  import opened Wrappers
  import opened StringOrder
  import opened DriftDiagnosis

  /** One stored version; a row without a date or value, or of no known series, lacks that part. */
  datatype Version = Version(id: int, series: Option<string>, date: Option<string>, value: Option<real>, committed: string)

  /** A differing series: both sides, the versions that hold them, and what its computed side alone changes. */
  datatype Drift = Drift(card: Card, replayed: Point, replayVersion: Version, computedVersion: Option<Version>, solo: real)

  datatype Diagnosis = Diagnosis(series: seq<Drift>, delta: real, effect: real, handoff: bool)

  /** The run: its as-of day, when it started, the instant of the fix, and the composite it published. */
  datatype Published = Published(asof: string, startedAt: string, fixedAt: string, composite: real)

  const EXACT: real := 0.000000000001

  // ── Stored versions ───────────────────────────────────────────────────────────────────────

  predicate IsOf(v: Version, series: string, p: Point) {
    v.series == Some(series) && v.date == Some(p.date) && v.value == Some(p.value)
  }

  /** The last version that holds a replayed observation. */
  function LastVersion(versions: seq<Version>, series: string, p: Point): Option<Version> {
    if versions == [] then None
    else
      var v := versions[|versions| - 1];
      if IsOf(v, series, p) then Some(v) else LastVersion(versions[..|versions| - 1], series, p)
  }

  /** The version of least id that holds a computed observation. */
  function LeastVersion(versions: seq<Version>, series: string, p: Point): Option<Version> {
    if versions == [] then None
    else
      var before := LeastVersion(versions[..|versions| - 1], series, p);
      var v := versions[|versions| - 1];
      if IsOf(v, series, p) && (before.None? || v.id < before.value.id) then Some(v) else before
  }

  lemma {:induction false} LastVersionIsLast(versions: seq<Version>, series: string, p: Point)
    ensures var r := LastVersion(versions, series, p);
            && (r.None? <==> forall v :: v in versions ==> !IsOf(v, series, p))
            && (r.Some? ==> exists i :: 0 <= i < |versions| && versions[i] == r.value && IsOf(r.value, series, p) &&
                                        forall j :: i < j < |versions| ==> !IsOf(versions[j], series, p))
    decreases |versions|
  {
    if versions != [] {
      var n := |versions| - 1;
      assert versions == versions[..n] + [versions[n]];
      LastVersionIsLast(versions[..n], series, p);
      if IsOf(versions[n], series, p) {
        assert versions[n] in versions;
      } else if LastVersion(versions[..n], series, p).Some? {
        var i :| 0 <= i < n && versions[..n][i] == LastVersion(versions[..n], series, p).value
                 && forall j :: i < j < n ==> !IsOf(versions[..n][j], series, p);
        assert versions[i] == versions[..n][i];
        assert forall j :: i < j < n ==> versions[j] == versions[..n][j];
      }
    }
  }

  lemma {:induction false} LeastVersionIsLeast(versions: seq<Version>, series: string, p: Point)
    ensures var r := LeastVersion(versions, series, p);
            && (r.None? <==> forall v :: v in versions ==> !IsOf(v, series, p))
            && (r.Some? ==> r.value in versions && IsOf(r.value, series, p))
            && (r.Some? ==> forall v :: v in versions && IsOf(v, series, p) ==> r.value.id <= v.id)
    decreases |versions|
  {
    if versions != [] {
      var n := |versions| - 1;
      assert versions == versions[..n] + [versions[n]];
      assert versions[n] in versions;
      LeastVersionIsLeast(versions[..n], series, p);
    }
  }

  type Wanted = map<(string, string), real>
  type Versions = map<(string, string), Version>

  function At(versions: Versions, key: (string, string)): Option<Version> {
    if key in versions then Some(versions[key]) else None
  }

  ghost predicate HoldsLast(found: Versions, wanted: Wanted, versions: seq<Version>) {
    forall key :: key in wanted ==> At(found, key) == LastVersion(versions, key.0, Point(key.1, wanted[key]))
  }

  ghost predicate HoldsLeast(found: Versions, wanted: Wanted, versions: seq<Version>) {
    forall key :: key in wanted ==> At(found, key) == LeastVersion(versions, key.0, Point(key.1, wanted[key]))
  }

  /** One pass over the stored versions: for each wanted replayed observation the last that holds it, for each
      computed one the one of least id. */
  method ScanVersions(versions: seq<Version>, wanted: Wanted, computed: Wanted) returns (replayVersion: Versions,
                      computedVersion: Versions)
    ensures HoldsLast(replayVersion, wanted, versions) && HoldsLeast(computedVersion, computed, versions)
  {
    replayVersion, computedVersion := map[], map[];
    for i := 0 to |versions|
      invariant HoldsLast(replayVersion, wanted, versions[..i])
      invariant HoldsLeast(computedVersion, computed, versions[..i])
    {
      var v := versions[i];
      assert versions[..i + 1] == versions[..i] + [v];
      LastOneMore(replayVersion, wanted, versions[..i], v);
      LeastOneMore(computedVersion, computed, versions[..i], v);
      if v.series.Some? && v.date.Some? && v.value.Some? {
        var key := (v.series.value, v.date.value);
        if key in wanted && v.value.value == wanted[key] { replayVersion := replayVersion[key := v]; }
        if key in computed && v.value.value == computed[key] && (key !in computedVersion || v.id < computedVersion[key].id) {
          computedVersion := computedVersion[key := v];
        }
      }
    }
    assert versions[..|versions|] == versions;
  }

  function KeyOf(v: Version): (string, string) {
    (if v.series.Some? then v.series.value else "", if v.date.Some? then v.date.value else "")
  }

  lemma LastOneMore(found: Versions, wanted: Wanted, versions: seq<Version>, v: Version)
    requires HoldsLast(found, wanted, versions)
    ensures var key := KeyOf(v);
            var matches := v.series.Some? && v.date.Some? && v.value.Some? && key in wanted && v.value.value == wanted[key];
            HoldsLast(if matches then found[key := v] else found, wanted, versions + [v])
  {
    forall key | key in wanted
      ensures LastVersion(versions + [v], key.0, Point(key.1, wanted[key])) ==
              if IsOf(v, key.0, Point(key.1, wanted[key])) then Some(v) else LastVersion(versions, key.0, Point(key.1, wanted[key]))
    {
      assert (versions + [v])[..|versions|] == versions;
    }
  }

  lemma LeastOneMore(found: Versions, wanted: Wanted, versions: seq<Version>, v: Version)
    requires HoldsLeast(found, wanted, versions)
    ensures var key := KeyOf(v);
            var matches := v.series.Some? && v.date.Some? && v.value.Some? && key in wanted && v.value.value == wanted[key]
                           && (key !in found || v.id < found[key].id);
            HoldsLeast(if matches then found[key := v] else found, wanted, versions + [v])
  {
    forall key | key in wanted
      ensures LeastVersion(versions + [v], key.0, Point(key.1, wanted[key])) ==
              var before := LeastVersion(versions, key.0, Point(key.1, wanted[key]));
              if IsOf(v, key.0, Point(key.1, wanted[key])) && (before.None? || v.id < before.value.id) then Some(v) else before
    {
      assert (versions + [v])[..|versions|] == versions;
    }
  }

  // ── Effects and cause ─────────────────────────────────────────────────────────────────────

  function ReplayedOf(history: History, asof: string, card: Card): Point {
    var last := LastOnOrBefore(Rows(history, card.id), asof);
    if last.Some? then last.value else Point(card.date, card.value)
  }

  function Abs(x: real): real { if x < 0.0 then -x else x }

  /** The error when no stored version holds a replayed observation. */
  function DriftOf(history: History, run: Published, versions: seq<Version>, composite: History -> real,
                   card: Card): Option<Drift> {
    var replayed := ReplayedOf(history, run.asof, card);
    var version := LastVersion(versions, card.id, replayed);
    if version.None? then None
    else
      Some(Drift(card, replayed, version.value, LeastVersion(versions, card.id, Point(card.date, card.value)),
                 composite(history) - composite(WithComputed(history, card))))
  }

  function Drifts(history: History, run: Published, versions: seq<Version>, composite: History -> real,
                  cards: seq<Card>): Option<seq<Drift>> {
    if cards == [] then Some([])
    else
      var before := Drifts(history, run, versions, composite, cards[..|cards| - 1]);
      var last := DriftOf(history, run, versions, composite, cards[|cards| - 1]);
      if before.None? || last.None? then None else Some(before.value + [last.value])
  }

  /** Committed after the run started. */
  predicate CommittedLater(run: Published, d: Drift) { Before(run.startedAt, d.replayVersion.committed) }

  function Conclude(history: History, run: Published, composite: History -> real, all: History, series: seq<Drift>): Diagnosis {
    var replayed := composite(history);
    var delta, effect := replayed - run.composite, replayed - composite(all);
    Diagnosis(series, delta, effect,
              Before(run.startedAt, run.fixedAt) && Abs(delta - effect) <= EXACT && series != []
              && forall d :: d in series ==> CommittedLater(run, d))
  }

  /** The whole diagnosis; none when some replayed observation has no stored version. */
  function DiagnosisOf(history: History, run: Published, cards: seq<Card>, versions: seq<Version>,
                       composite: History -> real): Option<Diagnosis> {
    var found := Found(history, run.asof, cards);
    var series := Drifts(history, run, versions, composite, found);
    if series.None? then None else Some(Conclude(history, run, composite, SubstituteAll(history, found), series.value))
  }

  ghost predicate SomeFails(history: History, run: Published, versions: seq<Version>, composite: History -> real,
                            cards: seq<Card>) {
    exists card :: card in cards && DriftOf(history, run, versions, composite, card).None?
  }

  lemma {:induction false} FailsIfOneDoes(history: History, run: Published, versions: seq<Version>,
                                          composite: History -> real, cards: seq<Card>)
    ensures Drifts(history, run, versions, composite, cards).None? <==> SomeFails(history, run, versions, composite, cards)
    decreases |cards|
  {
    if cards != [] {
      var n := |cards| - 1;
      FailsIfOneDoes(history, run, versions, composite, cards[..n]);
      assert cards == cards[..n] + [cards[n]];
      assert forall card :: card in cards <==> card in cards[..n] || card == cards[n];
    }
  }

  lemma {:induction false} EachDrifts(history: History, run: Published, versions: seq<Version>, composite: History -> real,
                                      cards: seq<Card>)
    requires Drifts(history, run, versions, composite, cards).Some?
    ensures var series := Drifts(history, run, versions, composite, cards).value;
            |series| == |cards| && forall i :: 0 <= i < |cards| ==> DriftOf(history, run, versions, composite, cards[i]) == Some(series[i])
    decreases |cards|
  {
    if cards != [] {
      var n := |cards| - 1;
      EachDrifts(history, run, versions, composite, cards[..n]);
      assert forall i :: 0 <= i < n ==> cards[..n][i] == cards[i];
    }
  }

  /** The diagnosis fails exactly when some differing series' replayed observation is in no stored version. */
  lemma FailsWithoutAVersion(history: History, run: Published, cards: seq<Card>, versions: seq<Version>, composite: History -> real)
    ensures DiagnosisOf(history, run, cards, versions, composite).None? <==>
              exists card :: card in cards && Differs(history, run.asof, card) && NoVersion(history, run, versions, card)
  {
    var found := Found(history, run.asof, cards);
    FailsIfOneDoes(history, run, versions, composite, found);
    forall card ensures card in found <==> card in cards && Differs(history, run.asof, card) {
      FoundHas(history, run.asof, cards, card);
    }
    forall card ensures DriftOf(history, run, versions, composite, card).None? <==> NoVersion(history, run, versions, card) {
      LastVersionIsLast(versions, card.id, ReplayedOf(history, run.asof, card));
    }
  }

  ghost predicate NoVersion(history: History, run: Published, versions: seq<Version>, card: Card) {
    forall v :: v in versions ==> !IsOf(v, card.id, ReplayedOf(history, run.asof, card))
  }

  /** One series' drift: the observation the replay read, a stored version that holds it, and the composite's change
      when its card's observation alone is put in. */
  ghost predicate DriftSays(history: History, run: Published, versions: seq<Version>, composite: History -> real, d: Drift) {
    && d.replayed == ReplayedOf(history, run.asof, d.card)
    && d.replayVersion in versions && IsOf(d.replayVersion, d.card.id, d.replayed)
    && (d.computedVersion.Some? <==> exists v :: v in versions && IsOf(v, d.card.id, Point(d.card.date, d.card.value)))
    && (d.computedVersion.Some? ==> IsOf(d.computedVersion.value, d.card.id, Point(d.card.date, d.card.value)))
    && composite(WithComputed(history, d.card)) + d.solo == composite(history)
  }

  lemma DriftIs(history: History, run: Published, versions: seq<Version>, composite: History -> real, card: Card)
    requires DriftOf(history, run, versions, composite, card).Some?
    ensures DriftSays(history, run, versions, composite, DriftOf(history, run, versions, composite, card).value)
  {
    LastVersionIsLast(versions, card.id, ReplayedOf(history, run.asof, card));
    LeastVersionIsLeast(versions, card.id, Point(card.date, card.value));
  }

  lemma ConcludeSays(history: History, run: Published, composite: History -> real, all: History, series: seq<Drift>)
    ensures var d := Conclude(history, run, composite, all, series);
            && d.series == series
            && run.composite + d.delta == composite(history) && composite(all) + d.effect == composite(history)
            && (d.handoff <==>
                  && Before(run.startedAt, run.fixedAt)
                  && -0.000000000001 <= composite(all) - run.composite <= 0.000000000001
                  && series != []
                  && forall i :: 0 <= i < |series| ==> Before(run.startedAt, series[i].replayVersion.committed))
  {
    var gap := composite(all) - run.composite;
    assert (composite(history) - run.composite) - (composite(history) - composite(all)) == gap;
    assert forall i :: 0 <= i < |series| ==> series[i] in series;
  }

  lemma EachSays(history: History, run: Published, versions: seq<Version>, composite: History -> real, cards: seq<Card>)
    requires Drifts(history, run, versions, composite, cards).Some?
    ensures var series := Drifts(history, run, versions, composite, cards).value;
            && |series| == |cards|
            && forall i :: 0 <= i < |cards| ==>
                 series[i].card == cards[i] && DriftSays(history, run, versions, composite, series[i])
  {
    EachDrifts(history, run, versions, composite, cards);
    var series := Drifts(history, run, versions, composite, cards).value;
    forall i | 0 <= i < |cards| ensures series[i].card == cards[i] && DriftSays(history, run, versions, composite, series[i]) {
      DriftIs(history, run, versions, composite, cards[i]);
    }
  }

  /** The deltas add up: the published composite and the delta make the replayed one, and so do the one with every
      computed observation put in and the effect. The cause is the handoff exactly when the run predates the fix, putting
      the computed inputs in gives the published composite back, some series differs, and every replayed side of one was
      committed later. */
  lemma CauseExact(history: History, run: Published, cards: seq<Card>, versions: seq<Version>, composite: History -> real)
    requires DiagnosisOf(history, run, cards, versions, composite).Some?
    ensures var d := DiagnosisOf(history, run, cards, versions, composite).value;
            var found := Found(history, run.asof, cards);
            var all := SubstituteAll(history, found);
            && |d.series| == |found|
            && (forall i :: 0 <= i < |found| ==>
                  d.series[i].card == found[i] && DriftSays(history, run, versions, composite, d.series[i]))
            && run.composite + d.delta == composite(history) && composite(all) + d.effect == composite(history)
            && (d.handoff <==>
                  && Before(run.startedAt, run.fixedAt)
                  && -0.000000000001 <= composite(all) - run.composite <= 0.000000000001
                  && found != []
                  && forall i :: 0 <= i < |found| ==> Before(run.startedAt, d.series[i].replayVersion.committed))
  {
    var found := Found(history, run.asof, cards);
    EachSays(history, run, versions, composite, found);
    ConcludeSays(history, run, composite, SubstituteAll(history, found), Drifts(history, run, versions, composite, found).value);
  }

  /** When one series alone differs, its own effect is the whole effect. */
  lemma OneSeriesIsTheEffect(history: History, run: Published, cards: seq<Card>, versions: seq<Version>, composite: History -> real)
    requires DiagnosisOf(history, run, cards, versions, composite).Some? && |Found(history, run.asof, cards)| == 1
    ensures var d := DiagnosisOf(history, run, cards, versions, composite).value;
            |d.series| == 1 && d.series[0].solo == d.effect
  {
    var found := Found(history, run.asof, cards);
    EachDrifts(history, run, versions, composite, found);
    assert found[..0] == [] && SubstituteAll(history, found) == WithComputed(SubstituteAll(history, found[..0]), found[0]);
  }

  // ── The diagnosis as the source writes it ─────────────────────────────────────────────────

  /** The observations to look for, by series and date. */
  method WantedOf(history: History, asof: string, differing: seq<Card>) returns (wanted: Wanted, computed: Wanted)
    requires NoRepeats(Ids(differing))
    ensures forall card :: card in differing ==>
              var p := ReplayedOf(history, asof, card);
              (card.id, p.date) in wanted && wanted[(card.id, p.date)] == p.value
    ensures forall card :: card in differing ==> (card.id, card.date) in computed && computed[(card.id, card.date)] == card.value
  {
    wanted, computed := map[], map[];
    for i := 0 to |differing|
      invariant forall k :: 0 <= k < i ==>
                  var p := ReplayedOf(history, asof, differing[k]);
                  (differing[k].id, p.date) in wanted && wanted[(differing[k].id, p.date)] == p.value
      invariant forall k :: 0 <= k < i ==>
                  (differing[k].id, differing[k].date) in computed && computed[(differing[k].id, differing[k].date)] == differing[k].value
    {
      var card := differing[i];
      var last := FindLast(Rows(history, card.id), asof);
      var p := if last.Some? then last.value else Point(card.date, card.value);
      assert forall k :: 0 <= k < i ==> Ids(differing)[k] != Ids(differing)[i];
      wanted := wanted[(card.id, p.date) := p.value];
      computed := computed[(card.id, card.date) := card.value];
    }
  }

  function Ids(cards: seq<Card>): (r: seq<string>)
    ensures |r| == |cards| && forall i :: 0 <= i < |r| ==> r[i] == cards[i].id
  {
    seq(|cards|, i requires 0 <= i < |cards| => cards[i].id)
  }

  /** The versions found are those of this card's two sides. */
  ghost predicate FoundFor(history: History, asof: string, versions: seq<Version>, replayVersion: Versions,
                           computedVersion: Versions,
                           card: Card)
  {
    var p := ReplayedOf(history, asof, card);
    && At(replayVersion, (card.id, p.date)) == LastVersion(versions, card.id, p)
    && At(computedVersion, (card.id, card.date)) == LeastVersion(versions, card.id, Point(card.date, card.value))
  }

  /** One differing series. */
  method Explain(history: History, run: Published, ghost versions: seq<Version>, composite: History -> real,
                 replayVersion: Versions, computedVersion: Versions, card: Card) returns (r: Option<Drift>)
    requires FoundFor(history, run.asof, versions, replayVersion, computedVersion, card)
    ensures r == DriftOf(history, run, versions, composite, card)
  {
    var last := FindLast(Rows(history, card.id), run.asof);
    var p := if last.Some? then last.value else Point(card.date, card.value);
    var rv := At(replayVersion, (card.id, p.date));
    if rv.None? { return None; }
    var solo := composite(history) - composite(WithComputed(history, card));
    return Some(Drift(card, p, rv.value, At(computedVersion, (card.id, card.date)), solo));
  }

  lemma OneMoreDrift(history: History, run: Published, versions: seq<Version>, composite: History -> real, cards: seq<Card>, i: nat)
    requires i < |cards|
    ensures Drifts(history, run, versions, composite, cards[..i + 1]) ==
            var before := Drifts(history, run, versions, composite, cards[..i]);
            var last := DriftOf(history, run, versions, composite, cards[i]);
            if before.None? || last.None? then None else Some(before.value + [last.value])
  {
    assert cards[..i + 1][..i] == cards[..i];
  }

  /** Every differing series in turn; it stops at the first whose replayed observation no version holds. */
  method ExplainAll(history: History, run: Published, ghost versions: seq<Version>, composite: History -> real,
                    replayVersion: Versions, computedVersion: Versions, differing: seq<Card>) returns (r: Option<seq<Drift>>)
    requires forall card :: card in differing ==> FoundFor(history, run.asof, versions, replayVersion, computedVersion, card)
    ensures r == Drifts(history, run, versions, composite, differing)
  {
    var series: seq<Drift> := [];
    for i := 0 to |differing|
      invariant Drifts(history, run, versions, composite, differing[..i]) == Some(series)
    {
      assert differing[i] in differing;
      OneMoreDrift(history, run, versions, composite, differing, i);
      var one := Explain(history, run, versions, composite, replayVersion, computedVersion, differing[i]);
      if one.None? {
        FailsIfOneDoes(history, run, versions, composite, differing);
        return None;
      }
      series := series + [one.value];
    }
    assert differing[..|differing|] == differing;
    return Some(series);
  }

  /** diagnoseRun, from the inputs and the published cards on. */
  method DiagnoseRun(history: History, run: Published, cards: seq<Card>, versions: seq<Version>, composite: History -> real)
    returns (r: Option<Diagnosis>)
    requires NoRepeats(Ids(cards))
    ensures r == DiagnosisOf(history, run, cards, versions, composite)
  {
    var differing, all := Diagnose(history, run.asof, cards);
    FoundIdsDiffer(history, run.asof, cards);
    var wanted, computed := WantedOf(history, run.asof, differing);
    var replayVersion, computedVersion := ScanVersions(versions, wanted, computed);
    var series := ExplainAll(history, run, versions, composite, replayVersion, computedVersion, differing);
    return if series.None? then None else Some(Conclude(history, run, composite, all, series.value));
  }

  /** Cards of distinct series stay so when the differing ones are sorted out. */
  lemma FoundIdsDiffer(history: History, asof: string, cards: seq<Card>)
    requires NoRepeats(Ids(cards))
    ensures NoRepeats(Ids(Found(history, asof, cards)))
  {
    DifferingIdsDiffer(history, asof, cards);
    SortedIdsDiffer(Differing(history, asof, cards));
  }

  lemma {:induction false} DifferingIdsDiffer(history: History, asof: string, cards: seq<Card>)
    requires NoRepeats(Ids(cards))
    ensures NoRepeats(Ids(Differing(history, asof, cards)))
    decreases |cards|
  {
    if cards != [] {
      var n := |cards| - 1;
      assert Ids(cards[..n]) == Ids(cards)[..n];
      DifferingIdsDiffer(history, asof, cards[..n]);
      var front := Differing(history, asof, cards[..n]);
      forall k | 0 <= k < |front| ensures front[k].id != cards[n].id {
        DifferingHas(history, asof, cards[..n], front[k]);
        var j :| 0 <= j < n && cards[..n][j] == front[k];
        assert Ids(cards)[j] != Ids(cards)[n];
      }
    }
  }

  lemma {:induction false} SortedIdsDiffer(s: seq<Card>)
    requires NoRepeats(Ids(s))
    ensures NoRepeats(Ids(SortById(s)))
    decreases |s|
  {
    if s != [] {
      assert Ids(s[1..]) == Ids(s)[1..];
      SortedIdsDiffer(s[1..]);
      forall c | c in SortById(s[1..]) ensures c.id != s[0].id {
        SortHas(s[1..], c);
        var j :| 0 <= j < |s[1..]| && s[1..][j] == c;
        assert Ids(s)[j + 1] != Ids(s)[0];
      }
      InsertedIdsDiffer(s[0], SortById(s[1..]));
    }
  }

  lemma {:induction false} InsertedIdsDiffer(card: Card, s: seq<Card>)
    requires NoRepeats(Ids(s)) && forall c :: c in s ==> c.id != card.id
    ensures NoRepeats(Ids(InsertById(card, s)))
    ensures forall c :: c in InsertById(card, s) ==> c == card || c in s
    decreases |s|
  {
    if s != [] && !Before(card.id, s[0].id) {
      assert Ids(s[1..]) == Ids(s)[1..];
      InsertedIdsDiffer(card, s[1..]);
      var rest := InsertById(card, s[1..]);
      forall k | 0 <= k < |rest| ensures rest[k].id != s[0].id {
        if rest[k] != card {
          assert rest[k] in s[1..];
          var j :| 0 <= j < |s[1..]| && s[1..][j] == rest[k];
          assert Ids(s)[j + 1] != Ids(s)[0];
        } else {
          assert s[0] in s;
        }
      }
    }
  }
}
