/** Why a published run replays to another composite (backend/scripts/composite-drift-diagnosis.ts): which
    inputs differ, and putting the computed ones in. */
module DriftDiagnosis {
  import opened Wrappers
  import opened StringOrder

  datatype Point = Point(date: string, value: real)

  /** A published indicator card: the last observation the run computed from. */
  datatype Card = Card(id: string, date: string, value: real)

  type History = map<string, seq<Point>>

  function Rows(history: History, id: string): seq<Point> {
    if id in history then history[id] else []
  }

  // ── The last observation ──────────────────────────────────────────────────────────────────

  /** Of the rows up to a day, the one with the latest date; of rows of one date, the last. */
  function LastOnOrBefore(rows: seq<Point>, asof: string): Option<Point> {
    if rows == [] then None
    else
      var before := LastOnOrBefore(rows[..|rows| - 1], asof);
      var r := rows[|rows| - 1];
      if NotAfter(r.date, asof) && (before.None? || NotAfter(before.value.date, r.date)) then Some(r) else before
  }

  method FindLast(rows: seq<Point>, asof: string) returns (last: Option<Point>)
    ensures last == LastOnOrBefore(rows, asof)
  {
    last := None;
    for i := 0 to |rows|
      invariant last == LastOnOrBefore(rows[..i], asof)
    {
      var r := rows[i];
      assert rows[..i + 1][..i] == rows[..i];
      if NotAfter(r.date, asof) && (last.None? || NotAfter(last.value.date, r.date)) { last := Some(r); }
    }
    assert rows[..|rows|] == rows;
  }

  /** Row `i` is that last one. */
  ghost predicate IsLast(rows: seq<Point>, asof: string, i: nat) {
    && i < |rows| && NotAfter(rows[i].date, asof)
    && forall j :: 0 <= j < |rows| && NotAfter(rows[j].date, asof) ==>
         NotAfter(rows[j].date, rows[i].date) && (rows[j].date == rows[i].date ==> j <= i)
  }

  /** Sorted or not: it is found exactly when some row is on or before the day, and is the latest such. */
  lemma {:induction false} LastIsLatest(rows: seq<Point>, asof: string) returns (i: nat)
    ensures LastOnOrBefore(rows, asof).Some? ==> IsLast(rows, asof, i) && LastOnOrBefore(rows, asof) == Some(rows[i])
    ensures LastOnOrBefore(rows, asof).None? ==> forall j :: 0 <= j < |rows| ==> !NotAfter(rows[j].date, asof)
    decreases |rows|
  {
    i := 0;
    if rows != [] {
      var n := |rows| - 1;
      i := LastIsLatest(rows[..n], asof);
      if LastOnOrBefore(rows, asof) != LastOnOrBefore(rows[..n], asof) || LastOnOrBefore(rows[..n], asof).None? {
        if LastOnOrBefore(rows, asof).Some? { LastRowIsLatest(rows, asof, i); }
        i := n;
      } else {
        var kept := i;
        i := if NotAfter(rows[n].date, asof) && NotAfter(rows[kept].date, rows[n].date) then n else kept;
        StaysLatest(rows, asof, kept);
      }
    }
  }

  lemma LastRowIsLatest(rows: seq<Point>, asof: string, k: nat)
    requires rows != []
    requires var n := |rows| - 1;
             && NotAfter(rows[n].date, asof)
             && var before := LastOnOrBefore(rows[..n], asof);
                && (before.Some? ==> IsLast(rows[..n], asof, k) && before == Some(rows[k]) && NotAfter(before.value.date, rows[n].date))
                && (before.None? ==> forall j :: 0 <= j < n ==> !NotAfter(rows[j].date, asof))
    ensures IsLast(rows, asof, |rows| - 1)
  {
    var n := |rows| - 1;
    OneIsBefore(rows[n].date, rows[n].date);
    forall j | 0 <= j < |rows| && NotAfter(rows[j].date, asof) ensures NotAfter(rows[j].date, rows[n].date) {
      if j < n && LastOnOrBefore(rows[..n], asof).Some? {
        assert rows[..n][j] == rows[j];
        NotAfterTransitive(rows[j].date, rows[k].date, rows[n].date);
      }
    }
  }

  lemma StaysLatest(rows: seq<Point>, asof: string, k: nat)
    requires rows != [] && IsLast(rows[..|rows| - 1], asof, k)
    ensures var n := |rows| - 1;
            if NotAfter(rows[n].date, asof) && NotAfter(rows[k].date, rows[n].date) then IsLast(rows, asof, n) else IsLast(rows, asof, k)
  {
    var n := |rows| - 1;
    OneIsBefore(rows[n].date, rows[n].date);
    OneIsBefore(rows[k].date, rows[n].date);
    forall j | 0 <= j < |rows| && NotAfter(rows[j].date, asof) && NotAfter(rows[k].date, rows[n].date)
      ensures NotAfter(rows[j].date, rows[n].date)
    {
      if j < n {
        assert rows[..n][j] == rows[j];
        NotAfterTransitive(rows[j].date, rows[k].date, rows[n].date);
      }
    }
    assert forall j :: 0 <= j < n ==> rows[..n][j] == rows[j];
  }

  // ── Putting the computed observation in ───────────────────────────────────────────────────

  function Earlier(rows: seq<Point>, date: string): seq<Point> {
    if rows == [] then []
    else
      var last := rows[|rows| - 1];
      Earlier(rows[..|rows| - 1], date) + if Before(last.date, date) then [last] else []
  }

  /** Nothing on or after the card's date, then the card's own observation. */
  function Substituted(rows: seq<Point>, card: Card): seq<Point> {
    Earlier(rows, card.date) + [Point(card.date, card.value)]
  }

  function WithComputed(history: History, card: Card): History {
    history[card.id := Substituted(Rows(history, card.id), card)]
  }

  /** All at once: one card after the other, each into what the ones before left. */
  function SubstituteAll(history: History, cards: seq<Card>): History {
    if cards == [] then history else WithComputed(SubstituteAll(history, cards[..|cards| - 1]), cards[|cards| - 1])
  }

  /** The replayed last observation is there and is not the card's. */
  predicate Differs(history: History, asof: string, card: Card) {
    var last := LastOnOrBefore(Rows(history, card.id), asof);
    last.Some? && last.value != Point(card.date, card.value)
  }

  function Differing(history: History, asof: string, cards: seq<Card>): seq<Card> {
    if cards == [] then []
    else
      Differing(history, asof, cards[..|cards| - 1])
      + if Differs(history, asof, cards[|cards| - 1]) then [cards[|cards| - 1]] else []
  }

  function InsertById(card: Card, s: seq<Card>): seq<Card> {
    if s == [] then [card] else if Before(card.id, s[0].id) then [card] + s else [s[0]] + InsertById(card, s[1..])
  }

  function SortById(s: seq<Card>): seq<Card> {
    if s == [] then [] else InsertById(s[0], SortById(s[1..]))
  }

  predicate ById(s: seq<Card>) {
    forall i, j :: 0 <= i < j < |s| ==> NotAfter(s[i].id, s[j].id)
  }

  lemma {:induction false} InsertPermutes(card: Card, s: seq<Card>)
    ensures multiset(InsertById(card, s)) == multiset(s) + multiset{card}
    decreases |s|
  {
    if s != [] {
      assert s == [s[0]] + s[1..];
      InsertPermutes(card, s[1..]);
    }
  }

  lemma {:induction false} InsertsById(card: Card, s: seq<Card>)
    requires ById(s)
    ensures ById(InsertById(card, s))
    decreases |s|
  {
    if s != [] {
      OneIsBefore(card.id, s[0].id);
      if Before(card.id, s[0].id) {
        forall i | 0 <= i < |s| ensures NotAfter(card.id, s[i].id) {
          if i > 0 { NotAfterTransitive(card.id, s[0].id, s[i].id); }
        }
      } else {
        var rest := InsertById(card, s[1..]);
        InsertsById(card, s[1..]);
        InsertPermutes(card, s[1..]);
        forall i | 0 <= i < |rest| ensures NotAfter(s[0].id, rest[i].id) {
          assert rest[i] in multiset(rest);
          assert rest[i] == card || rest[i] in s[1..];
        }
      }
    }
  }

  /** The differing cards are put in id order: none is lost, added or doubled. */
  lemma {:induction false} SortsById(s: seq<Card>)
    ensures ById(SortById(s)) && multiset(SortById(s)) == multiset(s)
    decreases |s|
  {
    if s != [] {
      assert s == [s[0]] + s[1..];
      SortsById(s[1..]);
      InsertsById(s[0], SortById(s[1..]));
      InsertPermutes(s[0], SortById(s[1..]));
    }
  }

  /** One card against its replayed series. */
  method Compare(history: History, asof: string, card: Card) returns (differs: bool)
    ensures differs <==> Differs(history, asof, card)
  {
    var replay := FindLast(Rows(history, card.id), asof);
    differs := replay.Some? && (replay.value.date != card.date || replay.value.value != card.value);
  }

  /** The series whose replayed last observation is not the card's, by id. */
  method FindDiffering(history: History, asof: string, cards: seq<Card>) returns (differing: seq<Card>)
    ensures differing == SortById(Differing(history, asof, cards))
    ensures ById(differing) && multiset(differing) == multiset(Differing(history, asof, cards))
  {
    differing := [];
    for i := 0 to |cards|
      invariant differing == Differing(history, asof, cards[..i])
    {
      assert cards[..i + 1] == cards[..i] + [cards[i]];
      var differs := Compare(history, asof, cards[i]);
      OneMoreCard(history, asof, cards[..i], cards[i]);
      if differs { differing := differing + [cards[i]]; }
    }
    assert cards[..|cards|] == cards;
    SortsById(differing);
    differing := SortById(differing);
  }

  lemma OneMoreCard(history: History, asof: string, cards: seq<Card>, card: Card)
    ensures Differing(history, asof, cards + [card]) ==
            if Differs(history, asof, card) then Differing(history, asof, cards) + [card] else Differing(history, asof, cards)
  {
    assert (cards + [card])[..|cards|] == cards;
  }

  /** The diagnosis: the differing series, and the inputs with all of them put in, one after the other. */
  method Diagnose(history: History, asof: string, cards: seq<Card>) returns (differing: seq<Card>, all: History)
    ensures differing == SortById(Differing(history, asof, cards))
    ensures all == SubstituteAll(history, differing)
  {
    differing := FindDiffering(history, asof, cards);
    all := PutAllIn(history, differing);
  }

  method PutAllIn(history: History, differing: seq<Card>) returns (all: History)
    ensures all == SubstituteAll(history, differing)
  {
    all := history;
    for i := 0 to |differing|
      invariant all == SubstituteAll(history, differing[..i])
    {
      assert differing[..i + 1][..i] == differing[..i];
      all := WithComputed(all, differing[i]);
    }
    assert differing[..|differing|] == differing;
  }

  // ── What the substitution leaves ──────────────────────────────────────────────────────────

  /** No two of these cards are of one series. */
  ghost predicate OneCardEach(cards: seq<Card>) {
    forall a, b :: a in cards && b in cards && a.id == b.id ==> a == b
  }

  lemma {:induction false} EarlierHas(rows: seq<Point>, date: string, r: Point)
    ensures r in Earlier(rows, date) <==> r in rows && Before(r.date, date)
    decreases |rows|
  {
    if rows != [] {
      var n := |rows| - 1;
      assert rows == rows[..n] + [rows[n]];
      EarlierHas(rows[..n], date, r);
    }
  }

  lemma {:induction false} EarlierTwice(rows: seq<Point>, card: Card)
    ensures Earlier(Substituted(rows, card), card.date) == Earlier(rows, card.date)
  {
    var all := Substituted(rows, card);
    OneIsBefore(card.date, card.date);
    assert all[..|all| - 1] == Earlier(rows, card.date);
    EarlierKeepsEarlier(Earlier(rows, card.date), card.date, rows);
  }

  lemma {:induction false} EarlierKeepsEarlier(s: seq<Point>, date: string, rows: seq<Point>)
    requires forall r :: r in s ==> r in Earlier(rows, date)
    ensures Earlier(s, date) == s
    decreases |s|
  {
    if s != [] {
      var n := |s| - 1;
      EarlierHas(rows, date, s[n]);
      EarlierKeepsEarlier(s[..n], date, rows);
      assert s == s[..n] + [s[n]];
    }
  }

  /** The card of a series among these, if there is one. */
  function CardOf(cards: seq<Card>, id: string): (r: Option<Card>)
    ensures r.Some? ==> r.value in cards && r.value.id == id
    ensures r.None? ==> forall c :: c in cards ==> c.id != id
  {
    if cards == [] then None
    else
      var n := |cards| - 1;
      assert cards == cards[..n] + [cards[n]];
      if cards[n].id == id then Some(cards[n]) else CardOf(cards[..n], id)
  }

  /** Each series with a card has that card put in once; every other series is as it was. */
  lemma {:induction false} SubstitutesEach(history: History, cards: seq<Card>, id: string)
    requires OneCardEach(cards)
    ensures Rows(SubstituteAll(history, cards), id) ==
            match CardOf(cards, id)
            case None => Rows(history, id)
            case Some(card) => Substituted(Rows(history, id), card)
    ensures id in SubstituteAll(history, cards) <==> id in history || CardOf(cards, id).Some?
    decreases |cards|
  {
    if cards != [] {
      var n := |cards| - 1;
      assert cards == cards[..n] + [cards[n]];
      SubstitutesEach(history, cards[..n], id);
      if cards[n].id == id && CardOf(cards[..n], id).Some? {
        assert CardOf(cards[..n], id).value == cards[n];
        EarlierTwice(Rows(history, id), cards[n]);
      }
    }
  }

  /** The order of the substitutions does not matter. */
  lemma OrderIsIrrelevant(history: History, a: seq<Card>, b: seq<Card>)
    requires OneCardEach(a) && forall c :: c in a <==> c in b
    ensures SubstituteAll(history, a) == SubstituteAll(history, b)
  {
    var x, y := SubstituteAll(history, a), SubstituteAll(history, b);
    forall id ensures (id in x <==> id in y) && Rows(x, id) == Rows(y, id) {
      SubstitutesEach(history, a, id);
      SubstitutesEach(history, b, id);
      SameCard(a, b, id);
    }
    assert forall id :: id in x ==> x[id] == Rows(x, id) == Rows(y, id) == y[id];
  }

  lemma SameCard(a: seq<Card>, b: seq<Card>, id: string)
    requires OneCardEach(a) && forall c :: c in a <==> c in b
    ensures CardOf(a, id) == CardOf(b, id)
  {
    assert CardOf(a, id).Some? ==> CardOf(a, id).value in b;
    assert CardOf(b, id).Some? ==> CardOf(b, id).value in a;
  }

  /** With its card put in, a series' last observation is its card, if the card is of a day up to `asof`;
      and it is what it was, if the card is of a later day. */
  lemma LastAfterSubstitution(rows: seq<Point>, card: Card, asof: string)
    ensures LastOnOrBefore(Substituted(rows, card), asof) ==
            if NotAfter(card.date, asof) then Some(Point(card.date, card.value)) else LastOnOrBefore(rows, asof)
  {
    var all, front := Substituted(rows, card), Earlier(rows, card.date);
    assert all[..|all| - 1] == front;
    if NotAfter(card.date, asof) {
      var i := LastIsLatest(front, asof);
      if LastOnOrBefore(front, asof).Some? {
        EarlierHas(rows, card.date, front[i]);
        assert front[i] in front;
        OneIsBefore(front[i].date, card.date);
      }
    } else {
      LaterRowsDontMatter(rows, card.date, asof);
    }
  }

  lemma {:induction false} LaterRowsDontMatter(rows: seq<Point>, date: string, asof: string)
    requires Before(asof, date)
    ensures LastOnOrBefore(Earlier(rows, date), asof) == LastOnOrBefore(rows, asof)
    decreases |rows|
  {
    if rows != [] {
      var n := |rows| - 1;
      var r := rows[n];
      LaterRowsDontMatter(rows[..n], date, asof);
      if Before(r.date, date) {
        assert (Earlier(rows[..n], date) + [r])[..|Earlier(rows[..n], date)|] == Earlier(rows[..n], date);
      } else {
        OneIsBefore(r.date, date);
        if r.date != date { BeforeTransitive(asof, date, r.date); }
        assert Before(asof, r.date);
        assert Earlier(rows, date) == Earlier(rows[..n], date);
      }
    }
  }

  lemma {:induction false} DifferingHas(history: History, asof: string, cards: seq<Card>, card: Card)
    ensures card in Differing(history, asof, cards) <==> card in cards && Differs(history, asof, card)
    decreases |cards|
  {
    if cards != [] {
      var n := |cards| - 1;
      assert cards == cards[..n] + [cards[n]];
      DifferingHas(history, asof, cards[..n], card);
    }
  }

  lemma SortHas(s: seq<Card>, c: Card)
    ensures c in SortById(s) <==> c in s
  {
    SortsById(s);
    assert c in SortById(s) <==> c in multiset(SortById(s));
    assert c in s <==> c in multiset(s);
  }

  function Found(history: History, asof: string, cards: seq<Card>): seq<Card> {
    SortById(Differing(history, asof, cards))
  }

  lemma FoundHas(history: History, asof: string, cards: seq<Card>, card: Card)
    ensures card in Found(history, asof, cards) <==> card in cards && Differs(history, asof, card)
  {
    SortHas(Differing(history, asof, cards), card);
    DifferingHas(history, asof, cards, card);
  }

  lemma FoundOneEach(history: History, asof: string, cards: seq<Card>)
    requires OneCardEach(cards)
    ensures OneCardEach(Found(history, asof, cards))
  {
    forall a, b | a in Found(history, asof, cards) && b in Found(history, asof, cards) && a.id == b.id ensures a == b {
      FoundHas(history, asof, cards, a);
      FoundHas(history, asof, cards, b);
    }
  }

  /** A card's series after the all-at-once substitution. */
  lemma SeriesAfter(history: History, asof: string, cards: seq<Card>, card: Card)
    requires OneCardEach(cards) && card in cards
    ensures var all := SubstituteAll(history, Found(history, asof, cards));
            Rows(all, card.id) == if Differs(history, asof, card) then Substituted(Rows(history, card.id), card) else Rows(history, card.id)
  {
    var found := Found(history, asof, cards);
    FoundOneEach(history, asof, cards);
    SubstitutesEach(history, found, card.id);
    FoundHas(history, asof, cards, card);
    if CardOf(found, card.id).Some? {
      FoundHas(history, asof, cards, CardOf(found, card.id).value);
    }
  }

  /** The substitution is a fixpoint. With one card a series, and the cards' days not after `asof`, every
      series that has an observation by then ends with its card's; a series with none keeps none; and every
      series without a differing card is untouched. */
  lemma EveryCardIsMet(history: History, asof: string, cards: seq<Card>, card: Card)
    requires OneCardEach(cards) && card in cards && NotAfter(card.date, asof)
    ensures var all := SubstituteAll(history, Found(history, asof, cards));
            LastOnOrBefore(Rows(all, card.id), asof) ==
            if LastOnOrBefore(Rows(history, card.id), asof).None? then None else Some(Point(card.date, card.value))
  {
    SeriesAfter(history, asof, cards, card);
    LastAfterSubstitution(Rows(history, card.id), card, asof);
  }

  lemma OthersAreUntouched(history: History, asof: string, cards: seq<Card>, id: string)
    requires OneCardEach(cards) && forall c :: c in cards && c.id == id ==> !Differs(history, asof, c)
    ensures var all := SubstituteAll(history, Found(history, asof, cards));
            Rows(all, id) == Rows(history, id) && (id in all <==> id in history)
  {
    var found := Found(history, asof, cards);
    FoundOneEach(history, asof, cards);
    SubstitutesEach(history, found, id);
    if CardOf(found, id).Some? { FoundHas(history, asof, cards, CardOf(found, id).value); }
  }

  /** Diagnosing again finds nothing, if and only if every card that differed is of a day up to `asof`. */
  lemma NothingDiffersAgain(history: History, asof: string, cards: seq<Card>)
    requires OneCardEach(cards)
    ensures var all := SubstituteAll(history, Found(history, asof, cards));
            Found(all, asof, cards) == [] <==> forall c :: c in cards && Differs(history, asof, c) ==> NotAfter(c.date, asof)
  {
    var all := SubstituteAll(history, Found(history, asof, cards));
    forall c | c in cards ensures Differs(all, asof, c) <==> Differs(history, asof, c) && !NotAfter(c.date, asof) {
      SeriesAfter(history, asof, cards, c);
      LastAfterSubstitution(Rows(history, c.id), c, asof);
    }
    forall c ensures c in Found(all, asof, cards) <==> c in cards && Differs(all, asof, c) { FoundHas(all, asof, cards, c); }
    assert Found(all, asof, cards) == [] <==> forall c :: c !in Found(all, asof, cards) by {
      if Found(all, asof, cards) != [] { assert Found(all, asof, cards)[0] in Found(all, asof, cards); }
    }
  }

  /** Such a card does differ again: a series of one row on the as-of day, and a card of any later day. */
  lemma LaterCardIsNotMet(id: string, asof: string, later: string, value: real, computed: real)
    requires Before(asof, later)
    ensures var history: History := map[id := [Point(asof, value)]];
            var cards := [Card(id, later, computed)];
            Found(SubstituteAll(history, Found(history, asof, cards)), asof, cards) != []
  {
    var history: History := map[id := [Point(asof, value)]];
    var card := Card(id, later, computed);
    OneIsBefore(asof, asof);
    OneIsBefore(asof, later);
    assert [Point(asof, value)][..0] == [];
    assert LastOnOrBefore(Rows(history, id), asof) == Some(Point(asof, value));
    assert card in [card] && Differs(history, asof, card);
    NothingDiffersAgain(history, asof, [card]);
  }
}
