/** The smart contract risks page held against itself (disagreements and buildSmartContractRisksData in
    scripts/build-smart-contract-risks-data.ts). */
module RiskPage {
  import opened Wrappers
  import opened StringOrder

  /** A record, as far as the check and the index read it. */
  datatype Case = Case(
    id: string, month: string, protocol: string, dateText: string, title: string, attack: string, amountLost: string,
    categories: seq<string>)

  /** An index row, with its sort attributes; the two figures are none where the number is not one. */
  datatype Row = Row(
    id: string, protocol: string, dateText: string, attack: string, amountLost: string, categories: seq<string>,
    monthKey: string, protocolKey: string, usdKey: string, usdNumber: Option<real>, firstFigure: Option<real>)

  datatype Category = Category(id: string, name: string, cases: seq<string>)
  datatype Chip = Chip(tag: string, describedBy: string)

  datatype Page = Page(
    cases: seq<Case>, categories: seq<Category>, rows: seq<Row>, dataHref: string,
    chips: seq<Chip>, sortKeys: seq<string>, headings: seq<string>,
    listName: string, termsName: string)

  datatype Field = ProtocolField | DateField | AttackField | AmountField

  datatype Problem =
    | ChipsDiffer
    | ChipDescribedBy(tag: string)
    | SortKeysDiffer
    | LaterThanAbove(id: string)
    | RowLacksKey(id: string)
    | MonthDiffers(id: string)
    | ProtocolKeyDiffers(id: string)
    | UsdKeyDiffers(id: string)
    | CaseIdsRepeat
    | CategoryIdsRepeat
    | WrongDataLink
    | RowsAreNotRecords
    | FieldDiffers(id: string, field: Field)
    | FiledDiffers(id: string)
    | NoSuchCategory(id: string, category: string)
    | NoSuchCase(category: string, id: string)
    | CitesDiffer(category: string)
    | OutOfPageOrder(id: string)

  /** The attributes a row's sortable columns read, and the same sorted and joined. */
  const SORT_KEYS: seq<string> := ["month", "protocol", "usd"]
  const SORTED_KEYS: string := "month,protocol,usd"
  const PAGE_PATH: string := "/smart-contract-risks"
  const DATA_PATH: string := "/data/smart-contract-risks.json"

  // ── Projections ───────────────────────────────────────────────────────────────────────────

  function CaseIds(cases: seq<Case>): (r: seq<string>)
    ensures |r| == |cases| && forall i :: 0 <= i < |r| ==> r[i] == cases[i].id
  {
    seq(|cases|, i requires 0 <= i < |cases| => cases[i].id)
  }

  function RowIds(rows: seq<Row>): (r: seq<string>)
    ensures |r| == |rows| && forall i :: 0 <= i < |r| ==> r[i] == rows[i].id
  {
    seq(|rows|, i requires 0 <= i < |rows| => rows[i].id)
  }

  function CategoryIds(categories: seq<Category>): (r: seq<string>)
    ensures |r| == |categories| && forall i :: 0 <= i < |r| ==> r[i] == categories[i].id
  {
    seq(|categories|, i requires 0 <= i < |categories| => categories[i].id)
  }

  function Tags(chips: seq<Chip>): (r: seq<string>)
    ensures |r| == |chips| && forall i :: 0 <= i < |r| ==> r[i] == chips[i].tag
  {
    seq(|chips|, i requires 0 <= i < |chips| => chips[i].tag)
  }

  function FindCase(cases: seq<Case>, id: string): Option<Case> {
    if cases == [] then None else if cases[0].id == id then Some(cases[0]) else FindCase(cases[1..], id)
  }

  function FindRow(rows: seq<Row>, id: string): Option<Row> {
    if rows == [] then None else if rows[0].id == id then Some(rows[0]) else FindRow(rows[1..], id)
  }

  /** indexOf: the first place, or -1. */
  function IndexOf(s: seq<string>, x: string): int {
    if s == [] then -1
    else if s[0] == x then 0
    else
      var rest := IndexOf(s[1..], x);
      if rest < 0 then -1 else rest + 1
  }

  /** The ids of the records filed under a category, in page order. */
  function Filed(cases: seq<Case>, category: string): seq<string> {
    if cases == [] then []
    else
      var rest := Filed(cases[1..], category);
      if category in cases[0].categories then [cases[0].id] + rest else rest
  }

  /** Stable sort by place in the page's category list. */
  function InsertByPlace(order: seq<string>, x: string, s: seq<string>): seq<string> {
    if s == [] then [x]
    else if IndexOf(order, x) <= IndexOf(order, s[0]) then [x] + s
    else [s[0]] + InsertByPlace(order, x, s[1..])
  }

  function SortByPlace(order: seq<string>, s: seq<string>): seq<string> {
    if s == [] then [] else InsertByPlace(order, s[0], SortByPlace(order, s[1..]))
  }

  // ── The problems ──────────────────────────────────────────────────────────────────────────

  function When(found: bool, problem: Problem): seq<Problem> {
    if found then [problem] else []
  }

  /** What `n` checks found, in order. */
  function Collect(finds: nat -> seq<Problem>, n: nat): seq<Problem> {
    if n == 0 then [] else Collect(finds, n - 1) + finds(n - 1)
  }

  function ChipFinds(p: Page): nat -> seq<Problem> {
    (i: nat) =>
      if i < |p.chips|
      then When(p.chips[i].tag != "" && p.chips[i].describedBy != p.chips[i].tag, ChipDescribedBy(p.chips[i].tag))
      else []
  }

  function MonthFinds(p: Page): nat -> seq<Problem> {
    (i: nat) =>
      if 0 < i < |p.rows| then When(Before(p.rows[i - 1].monthKey, p.rows[i].monthKey), LaterThanAbove(p.rows[i].id)) else []
  }

  function RowProblems(p: Page, r: Row): seq<Problem> {
    var rec := FindCase(p.cases, r.id);
    When(r.monthKey == "" || r.protocolKey == "" || r.usdKey == "", RowLacksKey(r.id))
    + When(rec.Some? && r.monthKey != rec.value.month, MonthDiffers(r.id))
    + When(r.protocolKey != r.protocol, ProtocolKeyDiffers(r.id))
    + When(r.usdNumber.None? || r.firstFigure.None? || r.usdNumber != r.firstFigure, UsdKeyDiffers(r.id))
  }

  function RowFinds(p: Page): nat -> seq<Problem> {
    (i: nat) => if i < |p.rows| then RowProblems(p, p.rows[i]) else []
  }

  function HeadProblems(p: Page): seq<Problem> {
    When(Join(Tags(p.chips)) != Join([""] + p.headings), ChipsDiffer)
  }

  function SortKeyProblems(p: Page): seq<Problem> {
    When(Join(Sort(p.sortKeys)) != SORTED_KEYS, SortKeysDiffer)
  }

  function IdProblems(p: Page): seq<Problem> {
    When(!NoRepeats(CaseIds(p.cases)), CaseIdsRepeat)
    + When(!NoRepeats(CategoryIds(p.categories)), CategoryIdsRepeat)
    + When(p.dataHref != DATA_PATH, WrongDataLink)
    + When(Join(RowIds(p.rows)) != Join(CaseIds(p.cases)), RowsAreNotRecords)
  }

  function CategoryFinds(p: Page, c: Case): nat -> seq<Problem> {
    (k: nat) =>
      if k < |c.categories| then When(c.categories[k] !in CategoryIds(p.categories), NoSuchCategory(c.id, c.categories[k])) else []
  }

  function CaseProblems(p: Page, c: Case): seq<Problem> {
    var row := FindRow(p.rows, c.id);
    if row.None? then []
    else
      When(row.value.protocol != c.protocol, FieldDiffers(c.id, ProtocolField))
      + When(row.value.dateText != c.dateText, FieldDiffers(c.id, DateField))
      + When(row.value.attack != c.attack, FieldDiffers(c.id, AttackField))
      + When(row.value.amountLost != c.amountLost, FieldDiffers(c.id, AmountField))
      + When(Join(row.value.categories) != Join(c.categories), FiledDiffers(c.id))
      + Collect(CategoryFinds(p, c), |c.categories|)
  }

  function CaseFinds(p: Page): nat -> seq<Problem> {
    (i: nat) => if i < |p.cases| then CaseProblems(p, p.cases[i]) else []
  }

  function CitedFinds(p: Page, cat: Category): nat -> seq<Problem> {
    (k: nat) => if k < |cat.cases| then When(cat.cases[k] !in CaseIds(p.cases), NoSuchCase(cat.id, cat.cases[k])) else []
  }

  function CategoryProblems(p: Page, cat: Category): seq<Problem> {
    Collect(CitedFinds(p, cat), |cat.cases|)
    + When(Join(Sort(cat.cases)) != Join(Sort(Filed(p.cases, cat.id))), CitesDiffer(cat.id))
  }

  function CiteFinds(p: Page): nat -> seq<Problem> {
    (i: nat) => if i < |p.categories| then CategoryProblems(p, p.categories[i]) else []
  }

  function OrderFinds(p: Page): nat -> seq<Problem> {
    (i: nat) =>
      if i < |p.cases|
      then When(Join(SortByPlace(CategoryIds(p.categories), p.cases[i].categories)) != Join(p.cases[i].categories),
                OutOfPageOrder(p.cases[i].id))
      else []
  }

  /** Where the page disagrees with itself, in the order the check finds it. */
  function Problems(p: Page): seq<Problem> {
    HeadProblems(p) + Collect(ChipFinds(p), |p.chips|) + SortKeyProblems(p) + Collect(MonthFinds(p), |p.rows|)
    + Collect(RowFinds(p), |p.rows|) + IdProblems(p) + Collect(CaseFinds(p), |p.cases|)
    + Collect(CiteFinds(p), |p.categories|) + Collect(OrderFinds(p), |p.cases|)
  }

  // ── The check as the source writes it ─────────────────────────────────────────────────────

  /** One pass over `n` things, pushing what each check finds. */
  method Push(finds: nat -> seq<Problem>, n: nat, before: seq<Problem>) returns (out: seq<Problem>)
    ensures out == before + Collect(finds, n)
  {
    out := before;
    for i := 0 to n
      invariant out == before + Collect(finds, i)
    {
      out := out + finds(i);
    }
  }

  method Disagreements(p: Page) returns (out: seq<Problem>)
    ensures out == Problems(p)
  {
    out := HeadProblems(p);
    out := Push(ChipFinds(p), |p.chips|, out);
    out := out + SortKeyProblems(p);
    out := Push(MonthFinds(p), |p.rows|, out);
    out := Push(RowFinds(p), |p.rows|, out);
    out := out + IdProblems(p);
    out := Push(CaseFinds(p), |p.cases|, out);
    out := Push(CiteFinds(p), |p.categories|, out);
    out := Push(OrderFinds(p), |p.cases|, out);
  }

  // ── What no problem means ─────────────────────────────────────────────────────────────────

  /** The names the check joins with commas are comma-free and not empty. */
  ghost predicate PlainNames(p: Page) {
    && Plain(p.headings) && CommaFree(Tags(p.chips)) && Plain(p.sortKeys)
    && Plain(RowIds(p.rows)) && Plain(CaseIds(p.cases)) && Plain(CategoryIds(p.categories))
    && (forall r :: r in p.rows ==> Plain(r.categories))
    && (forall c :: c in p.cases ==> Plain(c.categories))
    && (forall c :: c in p.categories ==> Plain(c.cases))
  }

  ghost predicate Plain(s: seq<string>) {
    CommaFree(s) && "" !in s
  }

  /** The index row of a record is its projection, field for field. */
  predicate Projects(r: Row, c: Case) {
    && r.id == c.id && r.monthKey == c.month && r.protocol == c.protocol && r.dateText == c.dateText
    && r.attack == c.attack && r.amountLost == c.amountLost && r.categories == c.categories
  }

  predicate RowIsKeyed(r: Row) {
    && r.monthKey != "" && r.protocolKey == r.protocol != "" && r.usdKey != ""
    && r.usdNumber.Some? && r.usdNumber == r.firstFigure
  }

  ghost predicate ChipsAgree(p: Page) {
    && (Tags(p.chips) == [""] + p.headings || (p.chips == [] && p.headings == []))
    && forall c :: c in p.chips && c.tag != "" ==> c.describedBy == c.tag
  }

  ghost predicate NewestFirst(rows: seq<Row>) {
    forall i, j :: 0 <= i < j < |rows| ==> NotAfter(rows[j].monthKey, rows[i].monthKey)
  }

  ghost predicate RowsAgree(p: Page) {
    |p.rows| == |p.cases| && forall i :: 0 <= i < |p.rows| ==> Projects(p.rows[i], p.cases[i])
  }

  /** A category cites each record filed under it exactly once, and nothing else. */
  ghost predicate CitesAgree(p: Page, cat: Category) {
    NoRepeats(cat.cases) && forall id :: id in cat.cases <==> FiledUnder(p.cases, cat.id, id)
  }

  ghost predicate InPageOrder(order: seq<string>, s: seq<string>) {
    forall i, j :: 0 <= i < j < |s| ==> IndexOf(order, s[i]) <= IndexOf(order, s[j])
  }

  ghost predicate RowsInOrder(p: Page) {
    ChipsAgree(p) && multiset(p.sortKeys) == multiset(SORT_KEYS) && NewestFirst(p.rows)
  }

  /** The records and the index rows are the same list, with plain ids and known categories. */
  ghost predicate RecordsAgree(p: Page) {
    && NoRepeats(CaseIds(p.cases)) && NoRepeats(CategoryIds(p.categories))
    && p.dataHref == DATA_PATH
    && (forall r :: r in p.rows ==> RowIsKeyed(r))
    && RowsAgree(p)
    && (forall c, k :: c in p.cases && k in c.categories ==> k in CategoryIds(p.categories))
  }

  ghost predicate CategoriesAgree(p: Page) {
    && (forall cat :: cat in p.categories ==> CitesAgree(p, cat))
    && (forall c :: c in p.cases ==> InPageOrder(CategoryIds(p.categories), c.categories))
  }

  /** The page agrees with itself. */
  ghost predicate Agrees(p: Page) {
    RowsInOrder(p) && RecordsAgree(p) && CategoriesAgree(p)
  }

  ghost predicate Silent(finds: nat -> seq<Problem>, n: nat) {
    forall i: nat :: i < n ==> finds(i) == []
  }

  lemma {:induction false} CollectsNothing(finds: nat -> seq<Problem>, n: nat)
    ensures Collect(finds, n) == [] <==> Silent(finds, n)
  {
    if n > 0 { CollectsNothing(finds, n - 1); }
  }

  /** Neighbours in order put every pair in order. */
  lemma {:induction false} NeighboursOrderAll(rows: seq<Row>, i: nat, j: nat)
    requires forall k :: 0 < k < |rows| ==> NotAfter(rows[k].monthKey, rows[k - 1].monthKey)
    requires i < j < |rows|
    ensures NotAfter(rows[j].monthKey, rows[i].monthKey)
    decreases j
  {
    if i < j - 1 {
      NeighboursOrderAll(rows, i, j - 1);
      NotAfterTransitive(rows[j].monthKey, rows[j - 1].monthKey, rows[i].monthKey);
    }
  }

  lemma MonthsExact(p: Page)
    ensures Silent(MonthFinds(p), |p.rows|) <==> NewestFirst(p.rows)
  {
    if Silent(MonthFinds(p), |p.rows|) {
      forall k | 0 < k < |p.rows| ensures NotAfter(p.rows[k].monthKey, p.rows[k - 1].monthKey) {
        assert MonthFinds(p)(k) == [];
      }
      forall i, j | 0 <= i < j < |p.rows| ensures NotAfter(p.rows[j].monthKey, p.rows[i].monthKey) {
        NeighboursOrderAll(p.rows, i, j);
      }
    }
  }

  lemma ChipsExact(p: Page)
    requires PlainNames(p)
    ensures HeadProblems(p) == [] && Silent(ChipFinds(p), |p.chips|) <==> ChipsAgree(p)
  {
    ChipListExact(p);
    ChipHeadingsExact(p);
  }

  lemma ChipListExact(p: Page)
    requires PlainNames(p)
    ensures HeadProblems(p) == [] <==> Tags(p.chips) == [""] + p.headings || (p.chips == [] && p.headings == [])
  {
    var tags, want := Tags(p.chips), [""] + p.headings;
    assert CommaFree(want);
    JoinTellsApart(tags, want);
    assert |want| == 1 <==> p.headings == [];
  }

  lemma ChipHeadingsExact(p: Page)
    ensures Silent(ChipFinds(p), |p.chips|) <==> forall c :: c in p.chips && c.tag != "" ==> c.describedBy == c.tag
  {
    if Silent(ChipFinds(p), |p.chips|) {
      forall c | c in p.chips && c.tag != "" ensures c.describedBy == c.tag {
        var i :| 0 <= i < |p.chips| && p.chips[i] == c;
        assert ChipFinds(p)(i) == [];
      }
    }
  }

  /** The joined form the check compares with is the fixed list's own, sorted and joined. */
  lemma KeysJoinSorted()
    ensures Join(Sort(SORT_KEYS)) == SORTED_KEYS && Plain(SORT_KEYS)
  {
  }

  lemma SortKeysExact(p: Page)
    requires PlainNames(p)
    ensures SortKeyProblems(p) == [] <==> multiset(p.sortKeys) == multiset(SORT_KEYS)
  {
    KeysJoinSorted();
    JoinedAs(p.sortKeys, SORT_KEYS, SORTED_KEYS);
  }

  lemma JoinedAs(a: seq<string>, b: seq<string>, joined: string)
    requires Plain(a) && Plain(b) && Join(Sort(b)) == joined
    ensures Join(Sort(a)) == joined <==> multiset(a) == multiset(b)
  {
    SortedJoins(a, b);
  }

  lemma SortIsPlain(a: seq<string>)
    requires Plain(a)
    ensures Plain(Sort(a))
  {
    forall x | x in Sort(a) ensures x in a {
      SortPermutes(a);
      assert x in multiset(Sort(a));
    }
  }

  /** Sorted and joined alike means permutations of each other. */
  lemma SortedJoins(a: seq<string>, b: seq<string>)
    requires Plain(a) && Plain(b)
    ensures Join(Sort(a)) == Join(Sort(b)) <==> multiset(a) == multiset(b)
  {
    SortIsPlain(a);
    SortIsPlain(b);
    JoinIsInjective(Sort(a), Sort(b));
    SameSort(a, b);
  }

  // ── Rows and records ──────────────────────────────────────────────────────────────────────

  /** With the ids in the same order and none twice, a row and the record of its id stand at one place. */
  lemma {:induction false} FindsCaseAt(cases: seq<Case>, i: nat)
    requires NoRepeats(CaseIds(cases)) && i < |cases|
    ensures FindCase(cases, cases[i].id) == Some(cases[i])
    decreases i
  {
    if i > 0 {
      assert CaseIds(cases)[0] != CaseIds(cases)[i];
      assert CaseIds(cases[1..]) == CaseIds(cases)[1..];
      FindsCaseAt(cases[1..], i - 1);
    }
  }

  lemma {:induction false} FindsRowAt(rows: seq<Row>, i: nat)
    requires NoRepeats(RowIds(rows)) && i < |rows|
    ensures FindRow(rows, rows[i].id) == Some(rows[i])
    decreases i
  {
    if i > 0 {
      assert RowIds(rows)[0] != RowIds(rows)[i];
      assert RowIds(rows[1..]) == RowIds(rows)[1..];
      FindsRowAt(rows[1..], i - 1);
    }
  }

  lemma IdsExact(p: Page)
    requires PlainNames(p)
    ensures IdProblems(p) == [] <==>
              && NoRepeats(CaseIds(p.cases)) && NoRepeats(CategoryIds(p.categories)) && p.dataHref == DATA_PATH
              && RowIds(p.rows) == CaseIds(p.cases)
  {
    JoinIsInjective(RowIds(p.rows), CaseIds(p.cases));
  }

  /** What the rows and the records are checked against once their ids are in step. */
  ghost predicate InStep(p: Page) {
    RowIds(p.rows) == CaseIds(p.cases) && NoRepeats(CaseIds(p.cases))
  }

  lemma InStepAt(p: Page, i: nat)
    requires InStep(p) && i < |p.rows|
    ensures |p.rows| == |p.cases| && p.rows[i].id == p.cases[i].id
    ensures FindCase(p.cases, p.rows[i].id) == Some(p.cases[i]) && FindRow(p.rows, p.cases[i].id) == Some(p.rows[i])
  {
    assert |p.rows| == |RowIds(p.rows)| == |p.cases|;
    assert RowIds(p.rows)[i] == CaseIds(p.cases)[i];
    FindsCaseAt(p.cases, i);
    FindsRowAt(p.rows, i);
  }

  lemma RowExact(p: Page, i: nat)
    requires InStep(p) && i < |p.rows|
    ensures i < |p.cases|
    ensures RowProblems(p, p.rows[i]) == [] <==> RowIsKeyed(p.rows[i]) && p.rows[i].monthKey == p.cases[i].month != ""
  {
    InStepAt(p, i);
  }

  lemma CaseExact(p: Page, i: nat)
    requires InStep(p) && i < |p.rows| && PlainNames(p)
    ensures i < |p.cases|
    ensures CaseProblems(p, p.cases[i]) == [] <==>
              var r, c := p.rows[i], p.cases[i];
              && r.protocol == c.protocol && r.dateText == c.dateText && r.attack == c.attack && r.amountLost == c.amountLost
              && r.categories == c.categories
              && forall k :: k in c.categories ==> k in CategoryIds(p.categories)
  {
    InStepAt(p, i);
    var c := p.cases[i];
    assert p.rows[i] in p.rows && c in p.cases;
    JoinIsInjective(p.rows[i].categories, c.categories);
    CategoriesExact(p, c);
  }

  lemma CategoriesExact(p: Page, c: Case)
    ensures Collect(CategoryFinds(p, c), |c.categories|) == [] <==> forall k :: k in c.categories ==> k in CategoryIds(p.categories)
  {
    CollectsNothing(CategoryFinds(p, c), |c.categories|);
    if Silent(CategoryFinds(p, c), |c.categories|) {
      forall k | k in c.categories ensures k in CategoryIds(p.categories) {
        var i :| 0 <= i < |c.categories| && c.categories[i] == k;
        assert CategoryFinds(p, c)(i) == [];
      }
    }
  }

  lemma RowsExact(p: Page)
    requires InStep(p) && PlainNames(p)
    ensures Silent(RowFinds(p), |p.rows|) && Silent(CaseFinds(p), |p.cases|) <==>
              && (forall r :: r in p.rows ==> RowIsKeyed(r)) && RowsAgree(p)
              && (forall c, k :: c in p.cases && k in c.categories ==> k in CategoryIds(p.categories))
  {
    assert |p.rows| == |RowIds(p.rows)| == |p.cases|;
    forall i: nat | i < |p.rows|
      ensures (RowFinds(p)(i) == [] && CaseFinds(p)(i) == []) <==> RowAndCaseAgree(p, i)
    {
      InStepAt(p, i);
      RowExact(p, i);
      CaseExact(p, i);
    }
    EachRowAgrees(p);
  }

  ghost predicate RowAndCaseAgree(p: Page, i: nat)
    requires i < |p.rows| && i < |p.cases|
  {
    && RowIsKeyed(p.rows[i]) && Projects(p.rows[i], p.cases[i])
    && forall k :: k in p.cases[i].categories ==> k in CategoryIds(p.categories)
  }

  lemma EachRowAgrees(p: Page)
    requires |p.rows| == |p.cases|
    ensures (forall i: nat :: i < |p.rows| ==> RowAndCaseAgree(p, i)) <==>
              && (forall r :: r in p.rows ==> RowIsKeyed(r)) && RowsAgree(p)
              && (forall c, k :: c in p.cases && k in c.categories ==> k in CategoryIds(p.categories))
  {
    if forall i: nat :: i < |p.rows| ==> RowAndCaseAgree(p, i) {
      forall r | r in p.rows ensures RowIsKeyed(r) {
        var i :| 0 <= i < |p.rows| && p.rows[i] == r;
        assert RowAndCaseAgree(p, i);
      }
      forall i | 0 <= i < |p.rows| ensures Projects(p.rows[i], p.cases[i]) {
        assert RowAndCaseAgree(p, i);
      }
      forall c, k | c in p.cases && k in c.categories ensures k in CategoryIds(p.categories) {
        var i :| 0 <= i < |p.cases| && p.cases[i] == c;
        assert RowAndCaseAgree(p, i);
      }
    }
  }

  // ── Categories and citations ──────────────────────────────────────────────────────────────

  ghost predicate FiledUnder(cases: seq<Case>, category: string, id: string) {
    exists c :: c in cases && category in c.categories && c.id == id
  }

  lemma {:induction false} FiledMeans(cases: seq<Case>, category: string, id: string)
    ensures id in Filed(cases, category) <==> FiledUnder(cases, category, id)
    decreases |cases|
  {
    if cases != [] {
      assert cases == [cases[0]] + cases[1..];
      FiledMeans(cases[1..], category, id);
    }
  }

  lemma {:induction false} FiledOnce(cases: seq<Case>, category: string)
    requires NoRepeats(CaseIds(cases))
    ensures NoRepeats(Filed(cases, category))
    decreases |cases|
  {
    if cases != [] {
      assert CaseIds(cases[1..]) == CaseIds(cases)[1..];
      FiledOnce(cases[1..], category);
      var rest := Filed(cases[1..], category);
      forall i | 0 <= i < |rest| ensures rest[i] != cases[0].id {
        FiledMeans(cases[1..], category, rest[i]);
        var c :| c in cases[1..] && category in c.categories && c.id == rest[i];
        var k :| 0 <= k < |cases[1..]| && cases[1..][k] == c;
        assert CaseIds(cases)[0] != CaseIds(cases)[k + 1];
      }
    }
  }

  lemma CitedExact(p: Page, cat: Category)
    requires InStep(p) && PlainNames(p) && cat in p.categories
    ensures CategoryProblems(p, cat) == [] <==> CitesAgree(p, cat)
  {
    var filed := Filed(p.cases, cat.id);
    FiledOnce(p.cases, cat.id);
    FiledIsPlain(p, cat.id);
    SortedJoins(cat.cases, filed);
    PermutesDistinct(cat.cases, filed);
    NoCaseExact(p, cat);
    forall x ensures x in filed <==> FiledUnder(p.cases, cat.id, x) { FiledMeans(p.cases, cat.id, x); }
    forall x | x in filed ensures x in CaseIds(p.cases) { FiledIsACase(p.cases, cat.id, x); }
  }

  lemma FiledIsACase(cases: seq<Case>, category: string, id: string)
    requires id in Filed(cases, category)
    ensures id in CaseIds(cases)
  {
    FiledMeans(cases, category, id);
    var c :| c in cases && category in c.categories && c.id == id;
    var k :| 0 <= k < |cases| && cases[k] == c;
    assert CaseIds(cases)[k] == id;
  }

  lemma FiledIsPlain(p: Page, category: string)
    requires PlainNames(p)
    ensures Plain(Filed(p.cases, category))
  {
    forall x | x in Filed(p.cases, category) ensures x in CaseIds(p.cases) { FiledIsACase(p.cases, category, x); }
  }

  lemma NoCaseExact(p: Page, cat: Category)
    ensures Collect(CitedFinds(p, cat), |cat.cases|) == [] <==> forall k :: k in cat.cases ==> k in CaseIds(p.cases)
  {
    CollectsNothing(CitedFinds(p, cat), |cat.cases|);
    if Silent(CitedFinds(p, cat), |cat.cases|) {
      forall k | k in cat.cases ensures k in CaseIds(p.cases) {
        var i :| 0 <= i < |cat.cases| && cat.cases[i] == k;
        assert CitedFinds(p, cat)(i) == [];
      }
    }
  }

  lemma CitesExact(p: Page)
    requires InStep(p) && PlainNames(p)
    ensures Silent(CiteFinds(p), |p.categories|) <==> forall cat :: cat in p.categories ==> CitesAgree(p, cat)
  {
    forall i: nat | i < |p.categories| ensures CiteFinds(p)(i) == [] <==> CitesAgree(p, p.categories[i]) {
      CitedExact(p, p.categories[i]);
    }
    if Silent(CiteFinds(p), |p.categories|) {
      forall cat | cat in p.categories ensures CitesAgree(p, cat) {
        var i :| 0 <= i < |p.categories| && p.categories[i] == cat;
        assert CiteFinds(p)(i) == [];
      }
    }
  }

  // ── The page's order ──────────────────────────────────────────────────────────────────────

  lemma {:induction false} InsertHolds(order: seq<string>, x: string, s: seq<string>, y: string)
    ensures y in InsertByPlace(order, x, s) <==> y == x || y in s
    decreases |s|
  {
    if s != [] {
      assert s == [s[0]] + s[1..];
      InsertHolds(order, x, s[1..], y);
    }
  }

  lemma {:induction false} SortHolds(order: seq<string>, s: seq<string>, y: string)
    ensures y in SortByPlace(order, s) <==> y in s
    decreases |s|
  {
    if s != [] {
      assert s == [s[0]] + s[1..];
      SortHolds(order, s[1..], y);
      InsertHolds(order, s[0], SortByPlace(order, s[1..]), y);
    }
  }

  lemma {:induction false} InsertsInOrder(order: seq<string>, x: string, s: seq<string>)
    requires InPageOrder(order, s)
    ensures InPageOrder(order, InsertByPlace(order, x, s))
    decreases |s|
  {
    if s != [] && IndexOf(order, x) > IndexOf(order, s[0]) {
      var rest := InsertByPlace(order, x, s[1..]);
      InsertsInOrder(order, x, s[1..]);
      forall i | 0 <= i < |rest| ensures IndexOf(order, s[0]) <= IndexOf(order, rest[i]) {
        InsertHolds(order, x, s[1..], rest[i]);
      }
    }
  }

  lemma {:induction false} SortsByPlace(order: seq<string>, s: seq<string>)
    ensures InPageOrder(order, SortByPlace(order, s))
    decreases |s|
  {
    if s != [] {
      SortsByPlace(order, s[1..]);
      InsertsInOrder(order, s[0], SortByPlace(order, s[1..]));
    }
  }

  lemma {:induction false} SortKeepsOrder(order: seq<string>, s: seq<string>)
    requires InPageOrder(order, s)
    ensures SortByPlace(order, s) == s
    decreases |s|
  {
    if s != [] {
      SortKeepsOrder(order, s[1..]);
      assert s == [s[0]] + s[1..];
    }
  }

  lemma PlaceExact(p: Page, c: Case)
    requires PlainNames(p) && c in p.cases
    ensures var order := CategoryIds(p.categories);
            Join(SortByPlace(order, c.categories)) == Join(c.categories) <==> InPageOrder(order, c.categories)
  {
    var order := CategoryIds(p.categories);
    var sorted := SortByPlace(order, c.categories);
    forall x | x in sorted ensures x in c.categories { SortHolds(order, c.categories, x); }
    JoinIsInjective(sorted, c.categories);
    SortsByPlace(order, c.categories);
    if InPageOrder(order, c.categories) { SortKeepsOrder(order, c.categories); }
  }

  lemma OrderExact(p: Page)
    requires PlainNames(p)
    ensures Silent(OrderFinds(p), |p.cases|) <==>
              forall c :: c in p.cases ==> InPageOrder(CategoryIds(p.categories), c.categories)
  {
    forall i: nat | i < |p.cases|
      ensures OrderFinds(p)(i) == [] <==> InPageOrder(CategoryIds(p.categories), p.cases[i].categories)
    {
      PlaceExact(p, p.cases[i]);
    }
    if Silent(OrderFinds(p), |p.cases|) {
      forall c | c in p.cases ensures InPageOrder(CategoryIds(p.categories), c.categories) {
        var i :| 0 <= i < |p.cases| && p.cases[i] == c;
        assert OrderFinds(p)(i) == [];
      }
    }
  }

  // ── The whole check ───────────────────────────────────────────────────────────────────────

  lemma NoneOfNine(a: seq<Problem>, b: seq<Problem>, c: seq<Problem>, d: seq<Problem>, e: seq<Problem>,
                   f: seq<Problem>, g: seq<Problem>, h: seq<Problem>, i: seq<Problem>)
    ensures a + b + c + d + e + f + g + h + i == [] <==>
              a == [] && b == [] && c == [] && d == [] && e == [] && f == [] && g == [] && h == [] && i == []
  {
  }

  lemma NoProblemIffSilent(p: Page)
    ensures Problems(p) == [] <==>
              && HeadProblems(p) == [] && Silent(ChipFinds(p), |p.chips|) && SortKeyProblems(p) == []
              && Silent(MonthFinds(p), |p.rows|) && Silent(RowFinds(p), |p.rows|) && IdProblems(p) == []
              && Silent(CaseFinds(p), |p.cases|) && Silent(CiteFinds(p), |p.categories|) && Silent(OrderFinds(p), |p.cases|)
  {
    CollectsNothing(ChipFinds(p), |p.chips|);
    CollectsNothing(MonthFinds(p), |p.rows|);
    CollectsNothing(RowFinds(p), |p.rows|);
    CollectsNothing(CaseFinds(p), |p.cases|);
    CollectsNothing(CiteFinds(p), |p.categories|);
    CollectsNothing(OrderFinds(p), |p.cases|);
    NoneOfNine(HeadProblems(p), Collect(ChipFinds(p), |p.chips|), SortKeyProblems(p), Collect(MonthFinds(p), |p.rows|),
               Collect(RowFinds(p), |p.rows|), IdProblems(p), Collect(CaseFinds(p), |p.cases|),
               Collect(CiteFinds(p), |p.categories|), Collect(OrderFinds(p), |p.cases|));
  }

  /** On plain names the check is exact: it finds no problem if and only if the page agrees with itself. */
  lemma NoProblemIffAgrees(p: Page)
    requires PlainNames(p)
    ensures Problems(p) == [] <==> Agrees(p)
  {
    NoProblemIffSilent(p);
    RowsInOrderExact(p);
    RecordsExact(p);
    if RecordsAgree(p) { CategoriesExactly(p); }
  }

  lemma RowsInOrderExact(p: Page)
    requires PlainNames(p)
    ensures HeadProblems(p) == [] && Silent(ChipFinds(p), |p.chips|) && SortKeyProblems(p) == [] && Silent(MonthFinds(p), |p.rows|)
        <==> RowsInOrder(p)
  {
    ChipsExact(p);
    SortKeysExact(p);
    MonthsExact(p);
  }

  lemma RecordsExact(p: Page)
    requires PlainNames(p)
    ensures IdProblems(p) == [] && Silent(RowFinds(p), |p.rows|) && Silent(CaseFinds(p), |p.cases|) <==> RecordsAgree(p)
  {
    IdsExact(p);
    assert RowsAgree(p) ==> RowIds(p.rows) == CaseIds(p.cases);
    if InStep(p) { RowsExact(p); }
  }

  lemma CategoriesExactly(p: Page)
    requires PlainNames(p) && RecordsAgree(p)
    ensures Silent(CiteFinds(p), |p.categories|) && Silent(OrderFinds(p), |p.cases|) <==> CategoriesAgree(p)
  {
    assert RowIds(p.rows) == CaseIds(p.cases);
    CitesExact(p);
    OrderExact(p);
  }

  /** "Filed under" and "cites" are then one relation, each pair cited once. */
  lemma FiledIffCited(p: Page, c: Case, cat: Category)
    requires Agrees(p) && c in p.cases && cat in p.categories
    ensures cat.id in c.categories <==> c.id in cat.cases
    ensures NoRepeats(cat.cases)
  {
    assert CitesAgree(p, cat);
    if cat.id in c.categories { assert FiledUnder(p.cases, cat.id, c.id); }
    if c.id in cat.cases {
      var other :| other in p.cases && cat.id in other.categories && other.id == c.id;
      OneOfEachId(p.cases, c, other);
    }
  }

  lemma OneOfEachId(cases: seq<Case>, a: Case, b: Case)
    requires NoRepeats(CaseIds(cases)) && a in cases && b in cases && a.id == b.id
    ensures a == b
  {
    var i :| 0 <= i < |cases| && cases[i] == a;
    var j :| 0 <= j < |cases| && cases[j] == b;
    assert CaseIds(cases)[i] == CaseIds(cases)[j];
  }

  // ── What the check does not find ──────────────────────────────────────────────────────────

  /** A list with its `k`th name twice. */
  function Twice(s: seq<string>, k: nat): seq<string>
    requires k < |s|
  {
    s[..k + 1] + s[k..]
  }

  /** A page on which record `i` and its row list the record's `k`th category twice. */
  function Repeat(p: Page, i: nat, k: nat): Page
    requires i < |p.cases| && i < |p.rows| && k < |p.cases[i].categories| && k < |p.rows[i].categories|
  {
    p.(cases := p.cases[i := p.cases[i].(categories := Twice(p.cases[i].categories, k))],
       rows := p.rows[i := p.rows[i].(categories := Twice(p.rows[i].categories, k))])
  }

  lemma TwiceHolds(s: seq<string>, k: nat)
    requires k < |s|
    ensures forall x :: x in Twice(s, k) <==> x in s
    ensures !NoRepeats(Twice(s, k))
  {
    var t := Twice(s, k);
    assert s == s[..k + 1] + s[k + 1..] && s == s[..k] + s[k..];
    assert t[k] == s[k] == t[k + 1];
  }

  lemma TwiceInOrder(order: seq<string>, s: seq<string>, k: nat)
    requires k < |s| && InPageOrder(order, s)
    ensures InPageOrder(order, Twice(s, k))
  {
    var t := Twice(s, k);
    assert forall i :: 0 <= i < |t| ==> t[i] == if i <= k then s[i] else s[i - 1];
  }

  /** The check does not look at repeats: on any page that agrees with itself, any record may list any of its
      categories twice, as its row does too, and the page still agrees. */
  lemma RepeatsAreNotSeen(p: Page, i: nat, k: nat)
    requires Agrees(p) && PlainNames(p) && i < |p.cases| && k < |p.cases[i].categories|
    ensures i < |p.rows| && k < |p.rows[i].categories|
    ensures PlainNames(Repeat(p, i, k)) && Agrees(Repeat(p, i, k)) && Problems(Repeat(p, i, k)) == []
    ensures !NoRepeats(Repeat(p, i, k).cases[i].categories)
  {
    assert Projects(p.rows[i], p.cases[i]);
    TwiceHolds(p.cases[i].categories, k);
    RepeatIsPlain(p, i, k);
    RepeatKeepsRows(p, i, k);
    RepeatKeepsCategories(p, i, k);
    NoProblemIffAgrees(Repeat(p, i, k));
  }

  lemma SameCaseIds(p: Page, q: Page)
    requires |p.cases| == |q.cases| && |p.rows| == |q.rows|
    requires forall j :: 0 <= j < |p.cases| ==> p.cases[j].id == q.cases[j].id
    requires forall j :: 0 <= j < |p.rows| ==> p.rows[j].id == q.rows[j].id
    ensures CaseIds(p.cases) == CaseIds(q.cases) && RowIds(p.rows) == RowIds(q.rows)
  {
  }

  lemma RepeatIsPlain(p: Page, i: nat, k: nat)
    requires PlainNames(p) && i < |p.cases| && i < |p.rows| && k < |p.cases[i].categories| && k < |p.rows[i].categories|
    ensures PlainNames(Repeat(p, i, k))
  {
    var q := Repeat(p, i, k);
    SameCaseIds(p, q);
    TwiceHolds(p.cases[i].categories, k);
    TwiceHolds(p.rows[i].categories, k);
    assert p.cases[i] in p.cases && p.rows[i] in p.rows;
    forall r | r in q.rows ensures Plain(r.categories) {
      var j :| 0 <= j < |q.rows| && q.rows[j] == r;
      assert p.rows[j] in p.rows;
    }
    forall c | c in q.cases ensures Plain(c.categories) {
      var j :| 0 <= j < |q.cases| && q.cases[j] == c;
      assert p.cases[j] in p.cases;
    }
  }

  lemma RepeatKeepsRows(p: Page, i: nat, k: nat)
    requires RowsInOrder(p) && RecordsAgree(p)
    requires i < |p.cases| && i < |p.rows| && k < |p.cases[i].categories| && k < |p.rows[i].categories|
    ensures RowsInOrder(Repeat(p, i, k)) && RecordsAgree(Repeat(p, i, k))
  {
    var q := Repeat(p, i, k);
    SameCaseIds(p, q);
    TwiceHolds(p.cases[i].categories, k);
    assert forall j :: 0 <= j < |p.rows| ==> Projects(p.rows[j], p.cases[j]);
    assert forall j :: 0 <= j < |q.rows| ==> q.rows[j].monthKey == p.rows[j].monthKey;
    forall r | r in q.rows ensures RowIsKeyed(r) {
      var j :| 0 <= j < |q.rows| && q.rows[j] == r;
      assert RowIsKeyed(p.rows[j]);
    }
    forall c, name | c in q.cases && name in c.categories ensures name in CategoryIds(q.categories) {
      var j :| 0 <= j < |q.cases| && q.cases[j] == c;
      assert p.cases[j] in p.cases && name in p.cases[j].categories;
    }
  }

  lemma RepeatKeepsCategories(p: Page, i: nat, k: nat)
    requires CategoriesAgree(p) && i < |p.cases| && i < |p.rows| && k < |p.cases[i].categories| && k < |p.rows[i].categories|
    ensures CategoriesAgree(Repeat(p, i, k))
  {
    var q := Repeat(p, i, k);
    TwiceHolds(p.cases[i].categories, k);
    forall cat | cat in q.categories ensures CitesAgree(q, cat) {
      assert CitesAgree(p, cat);
      forall id ensures FiledUnder(p.cases, cat.id, id) <==> FiledUnder(q.cases, cat.id, id) {
        FiledAlike(p.cases, q.cases, cat.id, id);
        FiledAlike(q.cases, p.cases, cat.id, id);
      }
    }
    forall c | c in q.cases ensures InPageOrder(CategoryIds(q.categories), c.categories) {
      var j :| 0 <= j < |q.cases| && q.cases[j] == c;
      assert p.cases[j] in p.cases;
      if j == i { TwiceInOrder(CategoryIds(p.categories), p.cases[i].categories, k); }
    }
  }

  lemma FiledAlike(a: seq<Case>, b: seq<Case>, category: string, id: string)
    requires |a| == |b|
    requires forall j :: 0 <= j < |a| ==> a[j].id == b[j].id && (category in a[j].categories <==> category in b[j].categories)
    ensures FiledUnder(a, category, id) ==> FiledUnder(b, category, id)
  {
    if FiledUnder(a, category, id) {
      var c :| c in a && category in c.categories && c.id == id;
      var j :| 0 <= j < |a| && a[j] == c;
      assert b[j] in b && category in b[j].categories;
    }
  }

  /** There is such a page: one record of one category, and its row. */
  lemma OneRecordAgrees(c: Case, r: Row, category: Category, listName: string, termsName: string) returns (p: Page)
    requires c.categories == [category.id] && category.cases == [c.id]
    requires Projects(r, c) && RowIsKeyed(r) && Plain([c.id]) && Plain([category.id])
    ensures PlainNames(p) && Agrees(p) && p.cases == [c]
  {
    p := Page([c], [category], [r], DATA_PATH, [Chip("", ""), Chip(category.id, category.id)], SORT_KEYS, [category.id],
              listName, termsName);
    assert category.id in [category.id] && c.id in [c.id];
    KeysJoinSorted();
    assert Tags(p.chips) == [""] + p.headings && CategoryIds(p.categories) == [category.id];
    assert RowIds(p.rows) == [c.id] == CaseIds(p.cases);
    assert category.id in c.categories && FiledUnder(p.cases, category.id, c.id);
    assert CitesAgree(p, category);
  }

  // ── The generated index ───────────────────────────────────────────────────────────────────

  datatype IndexCase = IndexCase(id: string, title: string, protocol: string, date: string, month: string)
  datatype IndexCategory = IndexCategory(id: string, name: string)
  datatype Index = Index(
    path: string, data: string, listName: string, termsName: string, cases: seq<IndexCase>, categories: seq<IndexCategory>)

  /** The two files: the data as read, and the index. */
  datatype Files = Files(cases: seq<Case>, categories: seq<Category>, index: Index)

  function IndexOfPage(p: Page, termName: string -> string): Index {
    Index(PAGE_PATH, DATA_PATH, p.listName, p.termsName,
          seq(|p.cases|, i requires 0 <= i < |p.cases| =>
            IndexCase(p.cases[i].id, p.cases[i].title, p.cases[i].protocol, p.cases[i].dateText, p.cases[i].month)),
          seq(|p.categories|, i requires 0 <= i < |p.categories| => IndexCategory(p.categories[i].id, termName(p.categories[i].name))))
  }

  /** The index names its own page and its data, and gives each record and each category of the page in page order, a
      category by its heading's name. */
  lemma IndexExact(p: Page, termName: string -> string)
    ensures var index := IndexOfPage(p, termName);
            && index.path == "/smart-contract-risks" && index.data == "/data/smart-contract-risks.json"
            && index.listName == p.listName && index.termsName == p.termsName
            && |index.cases| == |p.cases| && |index.categories| == |p.categories|
            && (forall i :: 0 <= i < |p.cases| ==>
                  var c, record := index.cases[i], p.cases[i];
                  c == IndexCase(record.id, record.title, record.protocol, record.dateText, record.month))
            && forall i :: 0 <= i < |p.categories| ==>
                 index.categories[i] == IndexCategory(p.categories[i].id, termName(p.categories[i].name))
  {
  }

  /** Nothing is written when the page disagrees with itself; else the data, and the index in page order. */
  method Build(p: Page, termName: string -> string) returns (r: Result<Files, seq<Problem>>)
    ensures PlainNames(p) ==> (r.Success? <==> Agrees(p))
    ensures r == if Problems(p) == [] then Success(Files(p.cases, p.categories, IndexOfPage(p, termName))) else Failure(Problems(p))
  {
    var problems := Disagreements(p);
    if PlainNames(p) { NoProblemIffAgrees(p); }
    return if problems != [] then Failure(problems) else Success(Files(p.cases, p.categories, IndexOfPage(p, termName)));
  }

  /** An index that is written is a projection of the page's own rows, newest first for every pair. */
  lemma IndexIsThePage(p: Page, termName: string -> string)
    requires Agrees(p)
    ensures var index := IndexOfPage(p, termName);
            && |index.cases| == |p.rows| && index.data == p.dataHref
            && (forall i :: 0 <= i < |p.rows| ==>
                  var r, c := p.rows[i], index.cases[i];
                  c.id == r.id && c.protocol == r.protocol && c.date == r.dateText && c.month == r.monthKey)
            && forall i, j :: 0 <= i < j < |index.cases| ==>
                 NotAfter(index.cases[j].month, index.cases[i].month) && index.cases[i].id != index.cases[j].id
  {
    assert forall i :: 0 <= i < |p.cases| ==> Projects(p.rows[i], p.cases[i]);
    assert forall i, j :: 0 <= i < j < |p.cases| ==> CaseIds(p.cases)[i] != CaseIds(p.cases)[j];
  }
}
