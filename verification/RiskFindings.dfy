/** Which disagreements the check of the risks page names: every one there is, of what it is about, and no other
    (disagreements in scripts/build-smart-contract-risks-data.ts). */
module RiskFindings {
  import opened Wrappers
  import opened StringOrder
  import opened RiskPage

  // ── Looking up ────────────────────────────────────────────────────────────────────────────

  /** The first place of a name, or -1 when it has none. */
  lemma {:induction false} IndexOfExact(s: seq<string>, x: string)
    ensures IndexOf(s, x) == -1 <==> x !in s
    ensures x in s ==> 0 <= IndexOf(s, x) < |s| && s[IndexOf(s, x)] == x && forall i :: 0 <= i < IndexOf(s, x) ==> s[i] != x
    decreases |s|
  {
    if s != [] {
      assert s == [s[0]] + s[1..];
      IndexOfExact(s[1..], x);
    }
  }

  /** A record is looked up as the first with its id; so is a row. */
  lemma {:induction false} FindCaseExact(cases: seq<Case>, id: string)
    ensures FindCase(cases, id).None? <==> forall i :: 0 <= i < |cases| ==> cases[i].id != id
    ensures FindCase(cases, id).Some? ==>
              exists i :: 0 <= i < |cases| && FindCase(cases, id).value == cases[i] && IsFirstCase(cases, id, i)
    decreases |cases|
  {
    if cases != [] && cases[0].id != id {
      FindCaseExact(cases[1..], id);
      assert forall i :: 0 <= i < |cases[1..]| ==> cases[1..][i] == cases[i + 1];
      if FindCase(cases, id).Some? {
        var i :| 0 <= i < |cases[1..]| && FindCase(cases[1..], id).value == cases[1..][i] && IsFirstCase(cases[1..], id, i);
        assert IsFirstCase(cases, id, i + 1);
      }
    } else if cases != [] {
      assert IsFirstCase(cases, id, 0);
    }
  }

  predicate IsFirstCase(cases: seq<Case>, id: string, i: nat)
    requires i < |cases|
  {
    cases[i].id == id && forall j :: 0 <= j < i ==> cases[j].id != id
  }

  lemma {:induction false} FindRowExact(rows: seq<Row>, id: string)
    ensures FindRow(rows, id).None? <==> forall i :: 0 <= i < |rows| ==> rows[i].id != id
    ensures FindRow(rows, id).Some? ==>
              exists i :: 0 <= i < |rows| && FindRow(rows, id).value == rows[i] && IsFirstRow(rows, id, i)
    decreases |rows|
  {
    if rows != [] && rows[0].id != id {
      FindRowExact(rows[1..], id);
      assert forall i :: 0 <= i < |rows[1..]| ==> rows[1..][i] == rows[i + 1];
      if FindRow(rows, id).Some? {
        var i :| 0 <= i < |rows[1..]| && FindRow(rows[1..], id).value == rows[1..][i] && IsFirstRow(rows[1..], id, i);
        assert IsFirstRow(rows, id, i + 1);
      }
    } else if rows != [] {
      assert IsFirstRow(rows, id, 0);
    }
  }

  predicate IsFirstRow(rows: seq<Row>, id: string, i: nat)
    requires i < |rows|
  {
    rows[i].id == id && forall j :: 0 <= j < i ==> rows[j].id != id
  }

  // ── What there is to find ─────────────────────────────────────────────────────────────────

  /** The parts of the check, in its order, and which of them a problem is found in. */
  function PartOf(x: Problem): nat {
    match x
    case ChipsDiffer => 0
    case ChipDescribedBy(_) => 1
    case SortKeysDiffer => 2
    case LaterThanAbove(_) => 3
    case RowLacksKey(_) => 4
    case MonthDiffers(_) => 4
    case ProtocolKeyDiffers(_) => 4
    case UsdKeyDiffers(_) => 4
    case CaseIdsRepeat => 5
    case CategoryIdsRepeat => 5
    case WrongDataLink => 5
    case RowsAreNotRecords => 5
    case FieldDiffers(_, _) => 6
    case FiledDiffers(_) => 6
    case NoSuchCategory(_, _) => 6
    case NoSuchCase(_, _) => 7
    case CitesDiffer(_) => 7
    case OutOfPageOrder(_) => 8
  }

  predicate HeadHas(p: Page) { Join(Tags(p.chips)) != Join([""] + p.headings) }

  predicate SortKeysHave(p: Page) { Join(Sort(p.sortKeys)) != "month,protocol,usd" }

  predicate ChipHas(chip: Chip, tag: string) {
    chip.tag == tag && tag != "" && chip.describedBy != tag
  }

  predicate MonthHas(p: Page, i: nat, id: string)
    requires i < |p.rows|
  {
    i > 0 && p.rows[i].id == id && Before(p.rows[i - 1].monthKey, p.rows[i].monthKey)
  }

  /** What a row's own problems are about. */
  predicate RowHas(p: Page, r: Row, x: Problem) {
    var rec := FindCase(p.cases, r.id);
    match x
    case RowLacksKey(id) => r.id == id && (r.monthKey == "" || r.protocolKey == "" || r.usdKey == "")
    case MonthDiffers(id) => r.id == id && rec.Some? && r.monthKey != rec.value.month
    case ProtocolKeyDiffers(id) => r.id == id && r.protocolKey != r.protocol
    case UsdKeyDiffers(id) => r.id == id && !(r.usdNumber.Some? && r.firstFigure.Some? && r.usdNumber.value == r.firstFigure.value)
    case _ => false
  }

  predicate IdsHave(p: Page, x: Problem) {
    match x
    case CaseIdsRepeat => !NoRepeats(CaseIds(p.cases))
    case CategoryIdsRepeat => !NoRepeats(CategoryIds(p.categories))
    case WrongDataLink => p.dataHref != "/data/smart-contract-risks.json"
    case RowsAreNotRecords => Join(RowIds(p.rows)) != Join(CaseIds(p.cases))
    case _ => false
  }

  predicate FieldHas(row: Row, c: Case, field: Field) {
    match field
    case ProtocolField => row.protocol != c.protocol
    case DateField => row.dateText != c.dateText
    case AttackField => row.attack != c.attack
    case AmountField => row.amountLost != c.amountLost
  }

  /** What a record's problems with its row are about; a record without a row has none. */
  predicate CaseHas(p: Page, c: Case, x: Problem) {
    var row := FindRow(p.rows, c.id);
    row.Some? &&
    match x
    case FieldDiffers(id, field) => c.id == id && FieldHas(row.value, c, field)
    case FiledDiffers(id) => c.id == id && Join(row.value.categories) != Join(c.categories)
    case NoSuchCategory(id, k) => c.id == id && k in c.categories && k !in CategoryIds(p.categories)
    case _ => false
  }

  predicate CategoryHas(p: Page, cat: Category, x: Problem) {
    match x
    case NoSuchCase(id, k) => cat.id == id && k in cat.cases && k !in CaseIds(p.cases)
    case CitesDiffer(id) => cat.id == id && Join(Sort(cat.cases)) != Join(Sort(Filed(p.cases, id)))
    case _ => false
  }

  predicate OrderHas(p: Page, c: Case, id: string) {
    c.id == id && Join(SortByPlace(CategoryIds(p.categories), c.categories)) != Join(c.categories)
  }

  /** The page has this problem. */
  ghost predicate Has(p: Page, x: Problem) {
    match x
    case ChipsDiffer => HeadHas(p)
    case ChipDescribedBy(tag) => exists i :: 0 <= i < |p.chips| && ChipHas(p.chips[i], tag)
    case SortKeysDiffer => SortKeysHave(p)
    case LaterThanAbove(id) => exists i :: 0 <= i < |p.rows| && MonthHas(p, i, id)
    case OutOfPageOrder(id) => exists i :: 0 <= i < |p.cases| && OrderHas(p, p.cases[i], id)
    case _ => SomethingHas(p, x)
  }

  /** The ids, a row, a record or a category has this problem. */
  ghost predicate SomethingHas(p: Page, x: Problem) {
    || IdsHave(p, x)
    || (exists i :: 0 <= i < |p.rows| && RowHas(p, p.rows[i], x))
    || (exists i :: 0 <= i < |p.cases| && CaseHas(p, p.cases[i], x))
    || (exists i :: 0 <= i < |p.categories| && CategoryHas(p, p.categories[i], x))
  }

  // ── The check finds exactly that ──────────────────────────────────────────────────────────

  lemma {:induction false} CollectHas(finds: nat -> seq<Problem>, n: nat, x: Problem)
    ensures x in Collect(finds, n) <==> exists i: nat :: i < n && x in finds(i)
  {
    if n > 0 { CollectHas(finds, n - 1, x); }
  }

  lemma HeadSays(p: Page, x: Problem)
    ensures x in HeadProblems(p) <==> x == ChipsDiffer && HeadHas(p)
    ensures x in SortKeyProblems(p) <==> x == SortKeysDiffer && SortKeysHave(p)
    ensures x in IdProblems(p) <==> IdsHave(p, x)
  {
  }

  lemma ChipSays(p: Page, x: Problem)
    ensures x in Collect(ChipFinds(p), |p.chips|) <==>
            x.ChipDescribedBy? && exists i :: 0 <= i < |p.chips| && ChipHas(p.chips[i], x.tag)
  {
    CollectHas(ChipFinds(p), |p.chips|, x);
    forall i: nat | i < |p.chips| ensures x in ChipFinds(p)(i) <==> x.ChipDescribedBy? && ChipHas(p.chips[i], x.tag) {
    }
  }

  lemma MonthSays(p: Page, x: Problem)
    ensures x in Collect(MonthFinds(p), |p.rows|) <==>
            x.LaterThanAbove? && exists i :: 0 <= i < |p.rows| && MonthHas(p, i, x.id)
  {
    CollectHas(MonthFinds(p), |p.rows|, x);
    forall i: nat | i < |p.rows| ensures x in MonthFinds(p)(i) <==> x.LaterThanAbove? && MonthHas(p, i, x.id) {
    }
  }

  lemma RowIs(p: Page, r: Row, x: Problem)
    ensures x in RowProblems(p, r) <==> RowHas(p, r, x)
  {
  }

  lemma RowSays(p: Page, x: Problem)
    ensures x in Collect(RowFinds(p), |p.rows|) <==> exists i :: 0 <= i < |p.rows| && RowHas(p, p.rows[i], x)
  {
    CollectHas(RowFinds(p), |p.rows|, x);
    forall i: nat | i < |p.rows| ensures x in RowFinds(p)(i) <==> RowHas(p, p.rows[i], x) {
      RowIs(p, p.rows[i], x);
    }
  }

  lemma CategoriesOf(p: Page, c: Case, x: Problem)
    ensures x in Collect(CategoryFinds(p, c), |c.categories|) <==>
            x.NoSuchCategory? && x.id == c.id && x.category in c.categories && x.category !in CategoryIds(p.categories)
  {
    CollectHas(CategoryFinds(p, c), |c.categories|, x);
    if x.NoSuchCategory? && x.category in c.categories {
      var k: nat :| k < |c.categories| && c.categories[k] == x.category;
      assert x.id == c.id && x.category !in CategoryIds(p.categories) ==> x in CategoryFinds(p, c)(k);
    }
  }

  lemma WhenHas(found: bool, y: Problem, x: Problem)
    ensures x in When(found, y) <==> found && x == y
  {
  }

  lemma SixHave<T>(a: seq<T>, b: seq<T>, c: seq<T>, d: seq<T>, e: seq<T>, f: seq<T>, x: T)
    ensures x in a + b + c + d + e + f <==> x in a || x in b || x in c || x in d || x in e || x in f
  {
  }

  lemma CaseIs(p: Page, c: Case, x: Problem)
    ensures x in CaseProblems(p, c) <==> CaseHas(p, c, x)
  {
    var row := FindRow(p.rows, c.id);
    if row.Some? { RowAndCase(p, row.value, c, x, Collect(CategoryFinds(p, c), |c.categories|)); }
  }

  lemma FieldIs(row: Row, c: Case, x: Problem)
    ensures x.FieldDiffers? && x.id == c.id && FieldHas(row, c, x.field) <==>
            || (row.protocol != c.protocol && x == FieldDiffers(c.id, ProtocolField))
            || (row.dateText != c.dateText && x == FieldDiffers(c.id, DateField))
            || (row.attack != c.attack && x == FieldDiffers(c.id, AttackField))
            || (row.amountLost != c.amountLost && x == FieldDiffers(c.id, AmountField))
  {
    if x.FieldDiffers? {
      match x.field
      case ProtocolField =>
      case DateField =>
      case AttackField =>
      case AmountField =>
    }
  }

  lemma RowAndCase(p: Page, row: Row, c: Case, x: Problem, unknown: seq<Problem>)
    requires unknown == Collect(CategoryFinds(p, c), |c.categories|)
    ensures x in When(row.protocol != c.protocol, FieldDiffers(c.id, ProtocolField))
                 + When(row.dateText != c.dateText, FieldDiffers(c.id, DateField))
                 + When(row.attack != c.attack, FieldDiffers(c.id, AttackField))
                 + When(row.amountLost != c.amountLost, FieldDiffers(c.id, AmountField))
                 + When(Join(row.categories) != Join(c.categories), FiledDiffers(c.id)) + unknown <==>
            || (x.FieldDiffers? && x.id == c.id && FieldHas(row, c, x.field))
            || (x == FiledDiffers(c.id) && Join(row.categories) != Join(c.categories))
            || (x.NoSuchCategory? && x.id == c.id && x.category in c.categories && x.category !in CategoryIds(p.categories))
  {
    CategoriesOf(p, c, x);
    FieldIs(row, c, x);
    WhenHas(row.protocol != c.protocol, FieldDiffers(c.id, ProtocolField), x);
    WhenHas(row.dateText != c.dateText, FieldDiffers(c.id, DateField), x);
    WhenHas(row.attack != c.attack, FieldDiffers(c.id, AttackField), x);
    WhenHas(row.amountLost != c.amountLost, FieldDiffers(c.id, AmountField), x);
    WhenHas(Join(row.categories) != Join(c.categories), FiledDiffers(c.id), x);
    SixHave(When(row.protocol != c.protocol, FieldDiffers(c.id, ProtocolField)),
            When(row.dateText != c.dateText, FieldDiffers(c.id, DateField)),
            When(row.attack != c.attack, FieldDiffers(c.id, AttackField)),
            When(row.amountLost != c.amountLost, FieldDiffers(c.id, AmountField)),
            When(Join(row.categories) != Join(c.categories), FiledDiffers(c.id)), unknown, x);
  }

  lemma CaseSays(p: Page, x: Problem)
    ensures x in Collect(CaseFinds(p), |p.cases|) <==> exists i :: 0 <= i < |p.cases| && CaseHas(p, p.cases[i], x)
  {
    CollectHas(CaseFinds(p), |p.cases|, x);
    forall i: nat | i < |p.cases| ensures x in CaseFinds(p)(i) <==> CaseHas(p, p.cases[i], x) {
      CaseIs(p, p.cases[i], x);
    }
  }

  lemma CitedHas(p: Page, cat: Category, x: Problem)
    ensures x in Collect(CitedFinds(p, cat), |cat.cases|) <==>
            x.NoSuchCase? && x.category == cat.id && x.id in cat.cases && x.id !in CaseIds(p.cases)
  {
    CollectHas(CitedFinds(p, cat), |cat.cases|, x);
    if x.NoSuchCase? && x.id in cat.cases {
      var k: nat :| k < |cat.cases| && cat.cases[k] == x.id;
      assert x.category == cat.id && x.id !in CaseIds(p.cases) ==> x in CitedFinds(p, cat)(k);
    }
  }

  lemma CategoryIs(p: Page, cat: Category, x: Problem)
    ensures x in CategoryProblems(p, cat) <==> CategoryHas(p, cat, x)
  {
    CitedHas(p, cat, x);
    WhenHas(Join(Sort(cat.cases)) != Join(Sort(Filed(p.cases, cat.id))), CitesDiffer(cat.id), x);
  }

  lemma CategorySays(p: Page, x: Problem)
    ensures x in Collect(CiteFinds(p), |p.categories|) <==>
            exists i :: 0 <= i < |p.categories| && CategoryHas(p, p.categories[i], x)
  {
    CollectHas(CiteFinds(p), |p.categories|, x);
    forall i: nat | i < |p.categories| ensures x in CiteFinds(p)(i) <==> CategoryHas(p, p.categories[i], x) {
      CategoryIs(p, p.categories[i], x);
    }
  }

  lemma OrderSays(p: Page, x: Problem)
    ensures x in Collect(OrderFinds(p), |p.cases|) <==>
            x.OutOfPageOrder? && exists i :: 0 <= i < |p.cases| && OrderHas(p, p.cases[i], x.id)
  {
    CollectHas(OrderFinds(p), |p.cases|, x);
    forall i: nat | i < |p.cases| ensures x in OrderFinds(p)(i) <==> x.OutOfPageOrder? && OrderHas(p, p.cases[i], x.id) {
    }
  }

  /** The nine parts of the check. */
  function Part(p: Page, k: nat): seq<Problem> {
    match k
    case 0 => HeadProblems(p)
    case 1 => Collect(ChipFinds(p), |p.chips|)
    case 2 => SortKeyProblems(p)
    case 3 => Collect(MonthFinds(p), |p.rows|)
    case 4 => Collect(RowFinds(p), |p.rows|)
    case 5 => IdProblems(p)
    case 6 => Collect(CaseFinds(p), |p.cases|)
    case 7 => Collect(CiteFinds(p), |p.categories|)
    case 8 => Collect(OrderFinds(p), |p.cases|)
    case _ => []
  }

  function PartsOf(p: Page): nat -> seq<Problem> {
    (k: nat) => Part(p, k)
  }

  lemma OnePart(finds: nat -> seq<Problem>, n: nat)
    requires n > 0
    ensures Collect(finds, n) == Collect(finds, n - 1) + finds(n - 1)
  {
  }

  lemma ThreeParts(p: Page)
    ensures Collect(PartsOf(p), 3) == HeadProblems(p) + Collect(ChipFinds(p), |p.chips|) + SortKeyProblems(p)
  {
    var finds := PartsOf(p);
    OnePart(finds, 1);
    assert [] + HeadProblems(p) == HeadProblems(p);
    OnePart(finds, 2);
    OnePart(finds, 3);
  }

  lemma SixParts(p: Page, three: seq<Problem>)
    requires three == Collect(PartsOf(p), 3)
    ensures Collect(PartsOf(p), 6) == three + Collect(MonthFinds(p), |p.rows|) + Collect(RowFinds(p), |p.rows|) + IdProblems(p)
  {
    var finds := PartsOf(p);
    OnePart(finds, 4);
    OnePart(finds, 5);
    OnePart(finds, 6);
  }

  lemma LastParts(p: Page, six: seq<Problem>)
    requires six == Collect(PartsOf(p), 6)
    ensures Collect(PartsOf(p), 9) ==
            six + Collect(CaseFinds(p), |p.cases|) + Collect(CiteFinds(p), |p.categories|) + Collect(OrderFinds(p), |p.cases|)
  {
    var finds := PartsOf(p);
    OnePart(finds, 7);
    OnePart(finds, 8);
    OnePart(finds, 9);
  }

  lemma NineParts(p: Page)
    ensures Problems(p) == Collect(PartsOf(p), 9)
  {
    ThreeParts(p);
    SixParts(p, Collect(PartsOf(p), 3));
    LastParts(p, Collect(PartsOf(p), 6));
  }

  /** A part finds a problem exactly when the problem is one of that part's and the page has it. */
  lemma PartSays(p: Page, k: nat, x: Problem)
    ensures x in Part(p, k) <==> PartOf(x) == k && Has(p, x)
  {
    NotElsewhere(p, x);
    if k == 0 || k == 2 { HeadSays(p, x); }
    else if k == 1 { ChipSays(p, x); }
    else if k == 3 { MonthSays(p, x); }
    else if k == 8 { OrderSays(p, x); }
    else { LaterPartSays(p, k, x); }
  }

  lemma LaterPartSays(p: Page, k: nat, x: Problem)
    requires k >= 4 && k != 8
    ensures x in Part(p, k) <==> PartOf(x) == k && Has(p, x)
  {
    KindsApart(p, x);
    HasOfKind(p, x);
    if k == 4 { RowSays(p, x); }
    else if k == 5 { HeadSays(p, x); }
    else if k == 6 { CaseSays(p, x); }
    else if k == 7 { CategorySays(p, x); }
  }

  lemma HasOfKind(p: Page, x: Problem)
    ensures 4 <= PartOf(x) <= 7 ==> (Has(p, x) <==> SomethingHas(p, x))
  {
  }

  lemma KindsApart(p: Page, x: Problem)
    ensures IdsHave(p, x) ==> PartOf(x) == 5
    ensures forall i :: 0 <= i < |p.rows| && RowHas(p, p.rows[i], x) ==> PartOf(x) == 4
    ensures forall i :: 0 <= i < |p.cases| && CaseHas(p, p.cases[i], x) ==> PartOf(x) == 6
    ensures forall i :: 0 <= i < |p.categories| && CategoryHas(p, p.categories[i], x) ==> PartOf(x) == 7
  {
  }

  ghost predicate InTurn(problems: seq<Problem>) {
    forall i, j :: 0 <= i < j < |problems| ==> PartOf(problems[i]) <= PartOf(problems[j])
  }

  lemma JoinInTurn(a: seq<Problem>, b: seq<Problem>, k: nat)
    requires InTurn(a) && (forall x :: x in a ==> PartOf(x) < k) && forall x :: x in b ==> PartOf(x) == k
    ensures InTurn(a + b)
  {
    var all := a + b;
    forall i, j | 0 <= i < j < |all| ensures PartOf(all[i]) <= PartOf(all[j]) {
      assert all[j] in if j < |a| then a else b;
      assert all[i] in if i < |a| then a else b;
      if j < |a| { assert PartOf(a[i]) <= PartOf(a[j]); }
    }
  }

  /** Each part finds problems of its own kinds only. */
  ghost predicate OwnKinds(finds: nat -> seq<Problem>) {
    forall k: nat, x :: x in finds(k) ==> PartOf(x) == k
  }

  lemma {:induction false} CollectInTurn(finds: nat -> seq<Problem>, n: nat)
    requires OwnKinds(finds)
    ensures InTurn(Collect(finds, n)) && forall x :: x in Collect(finds, n) ==> PartOf(x) < n
  {
    if n > 0 {
      CollectInTurn(finds, n - 1);
      JoinInTurn(Collect(finds, n - 1), finds(n - 1), n - 1);
    }
  }

  lemma PartsAreOwn(p: Page)
    ensures OwnKinds(PartsOf(p))
  {
    forall k: nat, x | x in PartsOf(p)(k) ensures PartOf(x) == k { PartSays(p, k, x); }
  }

  lemma SomePartHas(p: Page, x: Problem, finds: nat -> seq<Problem>, n: nat)
    requires finds == PartsOf(p) && PartOf(x) < n
    ensures (exists i: nat :: i < n && x in finds(i)) <==> Has(p, x)
  {
    forall k: nat | k < n ensures x in finds(k) <==> PartOf(x) == k && Has(p, x) { PartSays(p, k, x); }
    assert x in finds(PartOf(x)) <==> Has(p, x);
  }

  /** Every disagreement the page has is named, as what it is and of what it is about, and no other is; in the order of
      the check's parts. */
  lemma ProblemsExact(p: Page, x: Problem)
    ensures x in Problems(p) <==> Has(p, x)
    ensures InTurn(Problems(p))
  {
    NineParts(p);
    PartsAreOwn(p);
    CollectInTurn(PartsOf(p), 9);
    CollectHas(PartsOf(p), 9, x);
    SomePartHas(p, x, PartsOf(p), 9);
  }

  /** No problem of one kind is a row's, a record's or a category's of another. */
  lemma NotElsewhere(p: Page, x: Problem)
    ensures x.ChipsDiffer? || x.ChipDescribedBy? || x.SortKeysDiffer? || x.LaterThanAbove? || x.OutOfPageOrder? ==>
              && !IdsHave(p, x)
              && (forall i :: 0 <= i < |p.rows| ==> !RowHas(p, p.rows[i], x))
              && (forall i :: 0 <= i < |p.cases| ==> !CaseHas(p, p.cases[i], x))
              && (forall i :: 0 <= i < |p.categories| ==> !CategoryHas(p, p.categories[i], x))
  {
  }
}
