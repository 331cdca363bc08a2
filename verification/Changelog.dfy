/** Dating the changelog's pending release (stampChangelog in scripts/changelog-stamp.ts), on the page's
    sections, entries and lists. */
module Changelog {
  import opened Wrappers
  import opened StringOrder
  import opened ReleaseDates

  /** An anchor, as an id or in a permalink: `next-<slug>` while pending, anything else for good. */
  datatype Ref = Next(slug: string) | Fixed(anchor: string)

  /** What an entry's meta carries: the pending span, or its day. */
  datatype When = Pending | Dated(iso: string)

  datatype Entry = Entry(id: Ref, when: When, links: seq<Ref>, text: string)
  datatype Line = Line(text: string, links: seq<Ref>)

  /** A list of an Also block, under its label if it has one. */
  datatype Listing = Listing(name: Option<string>, items: seq<Line>)
  datatype Also = Also(title: string, lists: seq<Listing>)
  datatype Month = Month(name: string, entries: seq<Entry>, also: Option<Also>)
  datatype Block = Block(heading: bool, entries: seq<Entry>, also: Option<Also>)

  /** The release:pending markers, in the order the page has them. */
  datatype Marks = NoMarks | OneBlock | Unbalanced | TwoOpens | ExtraClose

  /** A page: its marked block, its months newest first, and whether anything else on it says pending. */
  datatype Page = Page(marks: Marks, block: Block, months: seq<Month>, strayTrace: bool)

  datatype Error =
    | NotADate
    | NothingMarked
    | MarksUnbalanced
    | TwoBlocks
    | Older(newest: string)
    | LooseLines
    | NothingPending
    | UnlabelledList
    | NowhereForAlso
    | NoPendingHeading
    | TraceLeft

  const IMPROVEMENTS := "Improvements"
  const FIXES := "Fixes"
  const NO_BLOCK := Block(false, [], None)

  // ── Dating one thing ──────────────────────────────────────────────────────────────────────

  predicate SlugChar(c: char) { 'a' <= c <= 'z' || '0' <= c <= '9' }

  predicate ValidSlug(slug: string) {
    slug != [] && SlugChar(slug[0]) && forall i :: 0 <= i < |slug| ==> SlugChar(slug[i]) || slug[i] == '-'
  }

  function StampRef(r: Ref, iso: string): Ref {
    if r.Next? && ValidSlug(r.slug) then Fixed(iso + "-" + r.slug) else r
  }

  function StampRefs(refs: seq<Ref>, iso: string): (r: seq<Ref>)
    ensures |r| == |refs| && forall i :: 0 <= i < |r| ==> r[i] == StampRef(refs[i], iso)
  {
    seq(|refs|, i requires 0 <= i < |refs| => StampRef(refs[i], iso))
  }

  function StampEntry(e: Entry, iso: string): Entry {
    Entry(StampRef(e.id, iso), if e.when == Pending then Dated(iso) else e.when, StampRefs(e.links, iso), e.text)
  }

  function StampEntries(entries: seq<Entry>, iso: string): (r: seq<Entry>)
    ensures |r| == |entries| && forall i :: 0 <= i < |r| ==> r[i] == StampEntry(entries[i], iso)
  {
    seq(|entries|, i requires 0 <= i < |entries| => StampEntry(entries[i], iso))
  }

  function StampLines(lines: seq<Line>, iso: string): (r: seq<Line>)
    ensures |r| == |lines| && forall i :: 0 <= i < |r| ==> r[i] == Line(lines[i].text, StampRefs(lines[i].links, iso))
  {
    seq(|lines|, i requires 0 <= i < |lines| => Line(lines[i].text, StampRefs(lines[i].links, iso)))
  }

  function StampLists(lists: seq<Listing>, iso: string): (r: seq<Listing>)
    ensures |r| == |lists| && forall i :: 0 <= i < |r| ==> r[i] == Listing(lists[i].name, StampLines(lists[i].items, iso))
  {
    seq(|lists|, i requires 0 <= i < |lists| => Listing(lists[i].name, StampLines(lists[i].items, iso)))
  }

  // ── The lists of an Also block ────────────────────────────────────────────────────────────

  /** The items of the first list under a label. */
  function LabelledItems(lists: seq<Listing>, name: string): seq<Line> {
    if lists == [] then []
    else if lists[0].name == Some(name) then lists[0].items
    else LabelledItems(lists[1..], name)
  }

  function LineCount(lists: seq<Listing>): nat {
    if lists == [] then 0 else |lists[0].items| + LineCount(lists[1..])
  }

  predicate HasLabel(lists: seq<Listing>, name: string) {
    exists i :: 0 <= i < |lists| && lists[i].name == Some(name)
  }

  function PrependFirst(lists: seq<Listing>, name: string, items: seq<Line>): seq<Listing> {
    if lists == [] then []
    else if lists[0].name == Some(name) then [Listing(lists[0].name, items + lists[0].items)] + lists[1..]
    else [lists[0]] + PrependFirst(lists[1..], name, items)
  }

  /** Items to the top of the label's list; a missing Improvements list is made first, a missing Fixes list last. */
  function PrependToList(lists: seq<Listing>, name: string, items: seq<Line>): seq<Listing> {
    if items == [] then lists
    else if HasLabel(lists, name) then PrependFirst(lists, name, items)
    else if name == IMPROVEMENTS then [Listing(Some(name), items)] + lists
    else lists + [Listing(Some(name), items)]
  }

  function ListsOf(also: Option<Also>): seq<Listing> {
    if also.Some? then also.value.lists else []
  }

  // ── The stamp ─────────────────────────────────────────────────────────────────────────────

  function EntriesOf(months: seq<Month>): seq<Entry> {
    if months == [] then [] else months[0].entries + EntriesOf(months[1..])
  }

  /** The newest day among these entries. */
  function Newest(entries: seq<Entry>): (r: Option<string>)
    ensures r.None? ==> forall e :: e in entries ==> e.when.Pending?
    ensures r.Some? ==> exists e :: e in entries && e.when == Dated(r.value)
  {
    if entries == [] then None
    else
      var rest := Newest(entries[1..]);
      assert entries == [entries[0]] + entries[1..];
      match entries[0].when
      case Pending => rest
      case Dated(iso) =>
        assert entries[0] in entries;
        if rest.None? || Before(rest.value, iso) then Some(iso) else rest
  }

  predicate IsTrace(r: Ref) { r.Next? }

  predicate RefsTrace(refs: seq<Ref>) { exists i :: 0 <= i < |refs| && IsTrace(refs[i]) }

  predicate EntryTrace(e: Entry) { IsTrace(e.id) || e.when == Pending || RefsTrace(e.links) }

  predicate LinesTrace(lines: seq<Line>) { exists i :: 0 <= i < |lines| && RefsTrace(lines[i].links) }

  predicate ListsTrace(lists: seq<Listing>) { exists i :: 0 <= i < |lists| && LinesTrace(lists[i].items) }

  predicate MonthTrace(m: Month) {
    (exists i :: 0 <= i < |m.entries| && EntryTrace(m.entries[i])) || ListsTrace(ListsOf(m.also))
  }

  /** Whether anything on an unmarked page still says pending. */
  predicate PendingLeft(page: Page) {
    page.marks != NoMarks || page.strayTrace || exists i :: 0 <= i < |page.months| && MonthTrace(page.months[i])
  }

  /** The first month, when it is the stamped day's own. */
  predicate Merges(months: seq<Month>, date: ReleaseDate)
    requires 1 <= date.month <= 12 && date.year >= 0
  {
    months != [] && months[0].name == MonthLabel(date)
  }

  function AlsoTitle(date: ReleaseDate): string
    requires 1 <= date.month <= 12
  {
    "Also in " + MONTHS[date.month - 1]
  }

  /** The block folded into its month: entries and lines to the top, the lines as they were in the block. */
  function Merge(block: Block, first: Month, date: ReleaseDate): Result<Month, Error>
    requires 1 <= date.month <= 12
  {
    var improvements, fixes := LabelledItems(ListsOf(block.also), IMPROVEMENTS), LabelledItems(ListsOf(block.also), FIXES);
    var merged := first.(entries := StampEntries(block.entries, date.iso) + first.entries);
    if improvements == [] && fixes == [] then Success(merged)
    else if first.also.Some? && first.also.value.lists != [] && forall l :: l in first.also.value.lists ==> l.name == None
    then Failure(UnlabelledList)
    else if first.also.None? && merged.entries == [] then Failure(NowhereForAlso)
    else
      var title := if first.also.Some? then first.also.value.title else AlsoTitle(date);
      var lists := PrependToList(PrependToList(ListsOf(first.also), IMPROVEMENTS, improvements), FIXES, fixes);
      Success(merged.(also := Some(Also(title, lists))))
  }

  /** The block as a month of its own: everything in it dated. */
  function NewMonth(block: Block, date: ReleaseDate): Month
    requires 1 <= date.month <= 12 && date.year >= 0
  {
    Month(MonthLabel(date), StampEntries(block.entries, date.iso),
          if block.also.None? then None else Some(Also(AlsoTitle(date), StampLists(block.also.value.lists, date.iso))))
  }

  /** What stops a stamp before anything is placed. */
  function Refused(page: Page, date: ReleaseDate): Option<Error> {
    var lists := ListsOf(page.block.also);
    var improvements, fixes := LabelledItems(lists, IMPROVEMENTS), LabelledItems(lists, FIXES);
    var newest := Newest(page.block.entries + EntriesOf(page.months));
    if page.marks == NoMarks then Some(NothingMarked)
    else if page.marks == Unbalanced then Some(MarksUnbalanced)
    else if page.marks == TwoOpens then Some(TwoBlocks)
    else if newest.Some? && Before(date.iso, newest.value) then Some(Older(newest.value))
    else if LineCount(lists) != |improvements| + |fixes| then Some(LooseLines)
    else if page.block.entries == [] && improvements == [] && fixes == [] then Some(NothingPending)
    else None
  }

  function Placed(page: Page, date: ReleaseDate): Result<seq<Month>, Error>
    requires 1 <= date.month <= 12 && date.year >= 0
  {
    if Merges(page.months, date) then
      match Merge(page.block, page.months[0], date)
      case Failure(error) => Failure(error)
      case Success(month) => Success([month] + page.months[1..])
    else if !page.block.heading then Failure(NoPendingHeading)
    else Success([NewMonth(page.block, date)] + page.months)
  }

  /** The stamped page: unmarked, with no block, unless the page had a closing marker too many. */
  function Unmarked(page: Page, months: seq<Month>): Page {
    Page(if page.marks == ExtraClose then ExtraClose else NoMarks, NO_BLOCK, months, page.strayTrace)
  }

  function Stamp(page: Page, input: string): Result<Page, Error> {
    match ParseReleaseDate(input)
    case None => Failure(NotADate)
    case Some(date) =>
      var refused := Refused(page, date);
      if refused.Some? then Failure(refused.value)
      else
        match Placed(page, date)
        case Failure(error) => Failure(error)
        case Success(months) => if PendingLeft(Unmarked(page, months)) then Failure(TraceLeft) else Success(Unmarked(page, months))
  }

  /** stampChangelog, step by step. */
  method StampChangelog(page: Page, input: string) returns (r: Result<Page, Error>, merged: bool)
    ensures r == Stamp(page, input)
    ensures r.Success? ==> (merged <==> Merges(page.months, ParseReleaseDate(input).value))
  {
    merged := false;
    var parsed := ParseReleaseDate(input);
    if parsed.None? { return Failure(NotADate), false; }
    var date := parsed.value;
    var refused := Refused(page, date);
    if refused.Some? { return Failure(refused.value), false; }
    var after := page.months;
    if after != [] && after[0].name == MonthLabel(date) {
      merged := true;
      var month := Merge(page.block, after[0], date);
      if month.Failure? { return Failure(month.error), merged; }
      after := after[0 := month.value];
      assert after == [month.value] + page.months[1..];
    } else {
      if !page.block.heading { return Failure(NoPendingHeading), merged; }
      after := [NewMonth(page.block, date)] + after;
    }
    var out := Unmarked(page, after);
    r := if PendingLeft(out) then Failure(TraceLeft) else Success(out);
  }

  // ── Conservation ──────────────────────────────────────────────────────────────────────────

  /** Every line under a label, in order. */
  function LinesIn(lists: seq<Listing>, name: string): seq<Line> {
    if lists == [] then [] else (if lists[0].name == Some(name) then lists[0].items else []) + LinesIn(lists[1..], name)
  }

  function LinesOn(months: seq<Month>, name: string): seq<Line> {
    if months == [] then [] else LinesIn(ListsOf(months[0].also), name) + LinesOn(months[1..], name)
  }

  lemma {:induction false} FirstListFirst(lists: seq<Listing>, name: string)
    ensures LabelledItems(lists, name) <= LinesIn(lists, name)
    decreases |lists|
  {
    if lists != [] && lists[0].name != Some(name) { FirstListFirst(lists[1..], name); }
  }

  lemma {:induction false} ThreeLabels(lists: seq<Listing>, a: string, b: string, c: string)
    requires a != b && a != c && b != c
    ensures |LinesIn(lists, a)| + |LinesIn(lists, b)| + |LinesIn(lists, c)| <= LineCount(lists)
    decreases |lists|
  {
    if lists != [] { ThreeLabels(lists[1..], a, b, c); }
  }

  /** With no line outside the two lists, the two lists are all the block has. */
  lemma NoLooseLines(lists: seq<Listing>, name: string)
    requires LineCount(lists) == |LabelledItems(lists, IMPROVEMENTS)| + |LabelledItems(lists, FIXES)|
    ensures LinesIn(lists, IMPROVEMENTS) == LabelledItems(lists, IMPROVEMENTS)
    ensures LinesIn(lists, FIXES) == LabelledItems(lists, FIXES)
    ensures name != IMPROVEMENTS && name != FIXES ==> LinesIn(lists, name) == []
  {
    FirstListFirst(lists, IMPROVEMENTS);
    FirstListFirst(lists, FIXES);
    var other := if name != IMPROVEMENTS && name != FIXES then name else "";
    ThreeLabels(lists, IMPROVEMENTS, FIXES, other);
  }

  lemma {:induction false} NoListNoLines(lists: seq<Listing>, name: string)
    requires !HasLabel(lists, name)
    ensures LinesIn(lists, name) == []
    decreases |lists|
  {
    if lists != [] {
      assert forall i :: 0 <= i < |lists[1..]| ==> lists[1..][i] == lists[i + 1];
      NoListNoLines(lists[1..], name);
    }
  }

  lemma {:induction false} LinesJoin(a: seq<Listing>, b: seq<Listing>, name: string)
    ensures LinesIn(a + b, name) == LinesIn(a, name) + LinesIn(b, name)
    decreases |a|
  {
    if a == [] {
      assert a + b == b;
    } else {
      assert (a + b)[1..] == a[1..] + b;
      LinesJoin(a[1..], b, name);
    }
  }

  lemma OneList(list: Listing, name: string)
    ensures LinesIn([list], name) == if list.name == Some(name) then list.items else []
  {
    assert [list][1..] == [];
  }

  lemma {:induction false} PrependsFirst(lists: seq<Listing>, at: string, items: seq<Line>, name: string)
    requires HasLabel(lists, at)
    ensures LinesIn(PrependFirst(lists, at, items), name) == (if name == at then items else []) + LinesIn(lists, name)
    decreases |lists|
  {
    var first, rest := lists[0], lists[1..];
    assert lists == [first] + rest;
    LinesJoin([first], rest, name);
    OneList(first, name);
    if first.name == Some(at) {
      var grown := Listing(first.name, items + first.items);
      LinesJoin([grown], rest, name);
      OneList(grown, name);
      JoinInTurn(items, first.items, LinesIn(rest, name));
    } else {
      assert forall i :: 1 <= i < |lists| ==> lists[i] == rest[i - 1];
      PrependsFirst(rest, at, items, name);
      LinesJoin([first], PrependFirst(rest, at, items), name);
      assert first.name == Some(name) ==> name != at;
    }
  }

  /** Placing items under a label puts them on top of that label's lines, and touches no other label's. */
  lemma Prepends(lists: seq<Listing>, at: string, items: seq<Line>, name: string)
    ensures LinesIn(PrependToList(lists, at, items), name) == (if name == at then items else []) + LinesIn(lists, name)
  {
    if items != [] {
      if HasLabel(lists, at) {
        PrependsFirst(lists, at, items, name);
      } else {
        var made := Listing(Some(at), items);
        NoListNoLines(lists, at);
        LinesJoin([made], lists, name);
        LinesJoin(lists, [made], name);
        OneList(made, name);
      }
    }
  }

  lemma {:induction false} StampedListLines(lists: seq<Listing>, iso: string, name: string)
    ensures LinesIn(StampLists(lists, iso), name) == StampLines(LinesIn(lists, name), iso)
    decreases |lists|
  {
    if lists != [] {
      StampedListLines(lists[1..], iso, name);
      assert StampLists(lists, iso)[1..] == StampLists(lists[1..], iso);
      var first := if lists[0].name == Some(name) then lists[0].items else [];
      assert StampLines(first + LinesIn(lists[1..], name), iso) == StampLines(first, iso) + StampLines(LinesIn(lists[1..], name), iso);
    }
  }

  lemma {:induction false} NoTraceInLines(lists: seq<Listing>, name: string)
    requires !ListsTrace(lists)
    ensures !LinesTrace(LinesIn(lists, name))
    decreases |lists|
  {
    if lists != [] {
      assert forall i :: 0 <= i < |lists[1..]| ==> lists[1..][i] == lists[i + 1];
      NoTraceInLines(lists[1..], name);
      assert !LinesTrace(lists[0].items);
    }
  }

  /** A line without a pending link is the same dated or not. */
  lemma StampsNothing(lines: seq<Line>, iso: string)
    requires !LinesTrace(lines)
    ensures StampLines(lines, iso) == lines
  {
    forall i | 0 <= i < |lines| ensures StampLines(lines, iso)[i] == lines[i] {
      assert !RefsTrace(lines[i].links);
      assert StampRefs(lines[i].links, iso) == lines[i].links;
    }
  }

  lemma MergedLines(block: Block, first: Month, date: ReleaseDate, month: Month, name: string)
    requires 1 <= date.month <= 12 && Merge(block, first, date) == Success(month)
    requires var lists := ListsOf(block.also);
             LineCount(lists) == |LabelledItems(lists, IMPROVEMENTS)| + |LabelledItems(lists, FIXES)|
    ensures LinesIn(ListsOf(month.also), name) == LinesIn(ListsOf(block.also), name) + LinesIn(ListsOf(first.also), name)
  {
    var pending := ListsOf(block.also);
    var improvements, fixes := LabelledItems(pending, IMPROVEMENTS), LabelledItems(pending, FIXES);
    MergeAlso(block, first, date, month);
    TwicePrepended(ListsOf(first.also), improvements, fixes, name);
    TwoListsHold(pending, name);
    JoinInTurn(if name == FIXES then fixes else [], if name == IMPROVEMENTS then improvements else [],
               LinesIn(ListsOf(first.also), name));
  }

  lemma TwoListsHold(lists: seq<Listing>, name: string)
    requires LineCount(lists) == |LabelledItems(lists, IMPROVEMENTS)| + |LabelledItems(lists, FIXES)|
    ensures LinesIn(lists, name) == (if name == FIXES then LabelledItems(lists, FIXES) else [])
                                    + (if name == IMPROVEMENTS then LabelledItems(lists, IMPROVEMENTS) else [])
  {
    NoLooseLines(lists, name);
    assert IMPROVEMENTS[0] != FIXES[0];
  }

  lemma MergeAlso(block: Block, first: Month, date: ReleaseDate, month: Month)
    requires 1 <= date.month <= 12 && Merge(block, first, date) == Success(month)
    ensures ListsOf(month.also) ==
            PrependToList(PrependToList(ListsOf(first.also), IMPROVEMENTS, LabelledItems(ListsOf(block.also), IMPROVEMENTS)),
                          FIXES, LabelledItems(ListsOf(block.also), FIXES))
  {
  }

  lemma TwicePrepended(lists: seq<Listing>, improvements: seq<Line>, fixes: seq<Line>, name: string)
    ensures LinesIn(PrependToList(PrependToList(lists, IMPROVEMENTS, improvements), FIXES, fixes), name) ==
            (if name == FIXES then fixes else []) + ((if name == IMPROVEMENTS then improvements else []) + LinesIn(lists, name))
  {
    Prepends(lists, IMPROVEMENTS, improvements, name);
    Prepends(PrependToList(lists, IMPROVEMENTS, improvements), FIXES, fixes, name);
  }

  lemma MergeSays(block: Block, first: Month, date: ReleaseDate, month: Month)
    requires 1 <= date.month <= 12 && Merge(block, first, date) == Success(month)
    ensures month.name == first.name && month.entries == StampEntries(block.entries, date.iso) + first.entries
  {
  }

  /** What a stamp that went through did. */
  lemma StampSays(page: Page, input: string, out: Page) returns (date: ReleaseDate)
    requires Stamp(page, input) == Success(out)
    ensures ParseReleaseDate(input) == Some(date) && date.iso == input && 1 <= date.month <= 12 && date.year >= 0
    ensures Refused(page, date) == None && Placed(page, date) == Success(out.months)
    ensures out == Unmarked(page, out.months) && !PendingLeft(out)
  {
    date := ParseReleaseDate(input).value;
  }

  lemma RefusedSays(page: Page, date: ReleaseDate)
    requires Refused(page, date) == None
    ensures var lists := ListsOf(page.block.also);
            LineCount(lists) == |LabelledItems(lists, IMPROVEMENTS)| + |LabelledItems(lists, FIXES)|
    ensures var newest := Newest(page.block.entries + EntriesOf(page.months));
            newest.Some? ==> !Before(date.iso, newest.value)
  {
  }

  /** Nothing is lost and nothing is added, in either shape: the page's entries are the pending ones, dated,
      on top of the old ones in order; and so are the lines under every label; later months are unchanged. */
  lemma Conserves(page: Page, input: string, out: Page, name: string)
    requires Stamp(page, input) == Success(out)
    ensures EntriesOf(out.months) == StampEntries(page.block.entries, input) + EntriesOf(page.months)
    ensures LinesOn(out.months, name) == StampLines(LinesIn(ListsOf(page.block.also), name), input) + LinesOn(page.months, name)
    ensures out.months != [] && (out.months[1..] == page.months || (page.months != [] && out.months[1..] == page.months[1..]))
  {
    var date := StampSays(page, input, out);
    RefusedSays(page, date);
    if Merges(page.months, date) {
      var month := MergePlaces(page, date, out.months);
      MergedLines(page.block, page.months[0], date, month, name);
      MergedUntraced(page, out, month, name);
      StampsNothing(LinesIn(ListsOf(page.block.also), name), input);
      TopMonth(page.months[0], month, page.months[1..], out.months,
               StampEntries(page.block.entries, input), LinesIn(ListsOf(page.block.also), name), name);
      assert page.months == [page.months[0]] + page.months[1..];
    } else {
      StampedListLines(ListsOf(page.block.also), input, name);
      NewOnTop(NewMonth(page.block, date), page.months, name);
    }
  }

  lemma MergePlaces(page: Page, date: ReleaseDate, months: seq<Month>) returns (month: Month)
    requires 1 <= date.month <= 12 && date.year >= 0 && Merges(page.months, date) && Placed(page, date) == Success(months)
    ensures Merge(page.block, page.months[0], date) == Success(month) && months == [month] + page.months[1..]
    ensures month.name == page.months[0].name && month.entries == StampEntries(page.block.entries, date.iso) + page.months[0].entries
  {
    month := Merge(page.block, page.months[0], date).value;
  }

  /** A month grown on top adds to the page what it grew by. */
  lemma TopMonth(first: Month, month: Month, rest: seq<Month>, months: seq<Month>, entries: seq<Entry>, lines: seq<Line>,
                 name: string)
    requires months == [month] + rest
    requires month.entries == entries + first.entries
    requires LinesIn(ListsOf(month.also), name) == lines + LinesIn(ListsOf(first.also), name)
    ensures EntriesOf(months) == entries + EntriesOf([first] + rest)
    ensures LinesOn(months, name) == lines + LinesOn([first] + rest, name)
  {
    NewOnTop(month, rest, name);
    NewOnTop(first, rest, name);
    JoinInTurn(entries, first.entries, EntriesOf(rest));
    JoinInTurn(lines, LinesIn(ListsOf(first.also), name), LinesOn(rest, name));
  }

  lemma JoinInTurn<T>(a: seq<T>, b: seq<T>, c: seq<T>)
    ensures a + b + c == a + (b + c)
  {
  }

  lemma NewOnTop(month: Month, rest: seq<Month>, name: string)
    ensures EntriesOf([month] + rest) == month.entries + EntriesOf(rest)
    ensures LinesOn([month] + rest, name) == LinesIn(ListsOf(month.also), name) + LinesOn(rest, name)
  {
    assert ([month] + rest)[1..] == rest;
  }

  /** What a merge placed from the block carries no pending link, or the stamp would not have gone through. */
  lemma MergedUntraced(page: Page, out: Page, month: Month, name: string)
    requires !PendingLeft(out) && out.months != [] && month == out.months[0]
    requires LinesIn(ListsOf(page.block.also), name) <= LinesIn(ListsOf(month.also), name)
    ensures !LinesTrace(LinesIn(ListsOf(page.block.also), name))
  {
    assert !MonthTrace(out.months[0]);
    NoTraceInLines(ListsOf(month.also), name);
    var placed, all := LinesIn(ListsOf(page.block.also), name), LinesIn(ListsOf(month.also), name);
    assert forall i :: 0 <= i < |placed| ==> placed[i] == all[i];
  }

  // ── Nothing pending is left ───────────────────────────────────────────────────────────────

  /** A stamped page has nothing pending, so whatever day a second stamp is given, it refuses. */
  lemma SecondStampRefuses(page: Page, input: string, out: Page, again: string)
    requires Stamp(page, input) == Success(out)
    ensures !PendingLeft(out)
    ensures Stamp(out, again) == Failure(if ParseReleaseDate(again).None? then NotADate else NothingMarked)
  {
    var date := StampSays(page, input, out);
  }

  // ── Order ─────────────────────────────────────────────────────────────────────────────────

  function DateOf(e: Entry): Option<ReleaseDate> {
    if e.when.Dated? then ParseReleaseDate(e.when.iso) else None
  }

  /** A month's entries: some, each dated in this month, newest first. */
  ghost predicate MonthInOrder(m: Month) {
    && m.entries != []
    && (forall k :: 0 <= k < |m.entries| ==> DateOf(m.entries[k]).Some? && m.name == MonthLabel(DateOf(m.entries[k]).value))
    && (forall k, l :: 0 <= k < l < |m.entries| ==> NotAfter(m.entries[l].when.iso, m.entries[k].when.iso))
  }

  function KeyOf(m: Month): string
    requires MonthInOrder(m)
  {
    MonthKey(DateOf(m.entries[0]).value)
  }

  /** The log: months strictly newest first, none empty, each in order. */
  ghost predicate LogInOrder(months: seq<Month>) {
    && (forall i :: 0 <= i < |months| ==> MonthInOrder(months[i]))
    && (forall i, j :: 0 <= i < j < |months| ==> Before(KeyOf(months[j]), KeyOf(months[i])))
  }

  predicate DistinctLabels(months: seq<Month>) {
    forall i, j :: 0 <= i < j < |months| ==> months[i].name != months[j].name
  }

  lemma DatesOfMonth(m: Month, date: ReleaseDate)
    requires MonthInOrder(m) && IsDate(date)
    ensures 1 <= date.month <= 12 && date.year >= 0
    ensures m.name == MonthLabel(date) <==> KeyOf(m) == MonthKey(date)
  {
    var first := DateOf(m.entries[0]).value;
    SameLabel(first, date);
    MonthKeyOrder(first, date);
  }

  /** In an ordered log no month stands twice. */
  lemma OrderedLabelsDiffer(months: seq<Month>)
    requires LogInOrder(months)
    ensures DistinctLabels(months)
  {
    forall i, j | 0 <= i < j < |months| ensures months[i].name != months[j].name {
      var date := DateOf(months[j].entries[0]).value;
      DatesOfMonth(months[i], date);
      OneIsBefore(KeyOf(months[i]), KeyOf(months[j]));
    }
  }

  lemma {:induction false} NewestIsNewest(entries: seq<Entry>, k: nat)
    requires k < |entries| && entries[k].when.Dated?
    ensures Newest(entries).Some? && NotAfter(entries[k].when.iso, Newest(entries).value)
    decreases |entries|
  {
    var rest := Newest(entries[1..]);
    if k > 0 {
      NewestIsNewest(entries[1..], k - 1);
      if entries[0].when.Dated? && Before(rest.value, entries[0].when.iso) {
        OneIsBefore(rest.value, entries[0].when.iso);
        NotAfterTransitive(entries[k].when.iso, rest.value, entries[0].when.iso);
      }
    } else {
      OneIsBefore(entries[0].when.iso, entries[0].when.iso);
    }
  }

  /** The stamped day is not before any day in the first month. */
  lemma StampIsNewest(page: Page, date: ReleaseDate, k: nat)
    requires Refused(page, date) == None && page.months != [] && k < |page.months[0].entries| && page.months[0].entries[k].when.Dated?
    ensures NotAfter(page.months[0].entries[k].when.iso, date.iso)
  {
    var all := page.block.entries + EntriesOf(page.months);
    var at := |page.block.entries| + k;
    assert all[at] == page.months[0].entries[k];
    NewestIsNewest(all, at);
    NotAfterTransitive(all[at].when.iso, Newest(all).value, date.iso);
  }

  lemma StampedInOrder(entries: seq<Entry>, date: ReleaseDate)
    requires IsDate(date) && 1 <= date.month <= 12 && forall e :: e in entries ==> e.when == Pending
    ensures forall k :: 0 <= k < |entries| ==>
              StampEntries(entries, date.iso)[k].when == Dated(date.iso) && DateOf(StampEntries(entries, date.iso)[k]) == Some(date)
  {
    assert forall k :: 0 <= k < |entries| ==> entries[k] in entries;
  }

  ghost predicate NewestDayFirst(entries: seq<Entry>)
    requires forall k :: 0 <= k < |entries| ==> entries[k].when.Dated?
  {
    forall k, l :: 0 <= k < l < |entries| ==> NotAfter(entries[l].when.iso, entries[k].when.iso)
  }

  lemma OneDayOnTop(top: seq<Entry>, below: seq<Entry>, iso: string)
    requires forall k :: 0 <= k < |below| ==> below[k].when.Dated? && NotAfter(below[k].when.iso, iso)
    requires forall k :: 0 <= k < |top| ==> top[k].when == Dated(iso)
    requires NewestDayFirst(below)
    ensures forall k :: 0 <= k < |top + below| ==> (top + below)[k].when.Dated?
    ensures NewestDayFirst(top + below)
  {
    var all, n := top + below, |top|;
    OneIsBefore(iso, iso);
    assert forall k :: n <= k < |all| ==> all[k] == below[k - n];
    forall k, l | 0 <= k < l < |all| ensures NotAfter(all[l].when.iso, all[k].when.iso) {
      if k >= n { assert NotAfter(below[l - n].when.iso, below[k - n].when.iso); }
    }
  }

  /** Entries of one day on top of a month none of whose days is later. */
  lemma StacksInOrder(top: seq<Entry>, below: Month, month: Month, date: ReleaseDate)
    requires MonthInOrder(below) && 1 <= date.month <= 12 && date.year >= 0 && below.name == MonthLabel(date)
    requires month.name == below.name && month.entries == top + below.entries
    requires forall k :: 0 <= k < |top| ==> top[k].when == Dated(date.iso) && DateOf(top[k]) == Some(date)
    requires forall k :: 0 <= k < |below.entries| ==> NotAfter(below.entries[k].when.iso, date.iso)
    ensures MonthInOrder(month)
  {
    var n := |top|;
    assert forall k :: 0 <= k < |below.entries| ==> DateOf(below.entries[k]).Some?;
    OneDayOnTop(top, below.entries, date.iso);
    forall k | 0 <= k < |month.entries|
      ensures DateOf(month.entries[k]).Some? && month.name == MonthLabel(DateOf(month.entries[k]).value)
    {
      var e := month.entries[k];
      if k >= n {
        assert e == below.entries[k - n];
      } else {
        assert e == top[k];
      }
    }
  }

  lemma MergeKeepsMonth(page: Page, date: ReleaseDate, month: Month)
    requires IsDate(date) && 1 <= date.month <= 12 && date.year >= 0 && Refused(page, date) == None
    requires LogInOrder(page.months) && Merges(page.months, date) && forall e :: e in page.block.entries ==> e.when == Pending
    requires month.name == page.months[0].name && month.entries == StampEntries(page.block.entries, date.iso) + page.months[0].entries
    ensures MonthInOrder(month) && KeyOf(month) == KeyOf(page.months[0])
  {
    var first := page.months[0];
    StampedInOrder(page.block.entries, date);
    forall k | 0 <= k < |first.entries| ensures NotAfter(first.entries[k].when.iso, date.iso) { StampIsNewest(page, date, k); }
    StacksInOrder(StampEntries(page.block.entries, date.iso), first, month, date);
    DatesOfMonth(first, date);
    DatesOfMonth(month, date);
  }

  lemma NewMonthInOrder(block: Block, date: ReleaseDate)
    requires IsDate(date) && 1 <= date.month <= 12 && date.year >= 0
    requires forall e :: e in block.entries ==> e.when == Pending
    ensures MonthInOrder(NewMonth(block, date)) <==> block.entries != []
    ensures block.entries != [] ==> KeyOf(NewMonth(block, date)) == MonthKey(date)
  {
    StampedInOrder(block.entries, date);
    OneIsBefore(date.iso, date.iso);
  }

  lemma NewMonthIsNewest(page: Page, date: ReleaseDate, j: nat)
    requires IsDate(date) && 1 <= date.month <= 12 && date.year >= 0 && Refused(page, date) == None
    requires LogInOrder(page.months) && !Merges(page.months, date) && j < |page.months|
    ensures Before(KeyOf(page.months[j]), MonthKey(date))
  {
    var first := page.months[0];
    var newest := DateOf(first.entries[0]).value;
    StampIsNewest(page, date, 0);
    IsoOrderIsCalendarOrder(date, newest);
    MonthKeyOrder(newest, date);
    MonthKeyOrder(date, newest);
    DatesOfMonth(first, date);
    if j > 0 { BeforeTransitive(KeyOf(page.months[j]), KeyOf(first), MonthKey(date)); }
  }

  /** A log in order, and a block of pending entries: a stamp that goes through leaves the log in order
      exactly when the block has an entry, or merges. (A block of Also lines alone, as a month of its own, is
      a month without entries.) In order means no month stands twice. */
  lemma KeepsOrder(page: Page, input: string, out: Page)
    requires Stamp(page, input) == Success(out) && LogInOrder(page.months)
    requires forall e :: e in page.block.entries ==> e.when == Pending
    ensures ParseReleaseDate(input).Some?
    ensures LogInOrder(out.months) <==> page.block.entries != [] || Merges(page.months, ParseReleaseDate(input).value)
    ensures LogInOrder(out.months) ==> DistinctLabels(out.months)
  {
    var date := StampSays(page, input, out);
    if Merges(page.months, date) {
      var month := MergePlaces(page, date, out.months);
      MergeKeepsLog(page, date, month, out.months);
    } else {
      NewMonthKeepsLog(page, date);
    }
    DistinctWhenOrdered(out.months);
  }

  lemma DistinctWhenOrdered(months: seq<Month>)
    ensures LogInOrder(months) ==> DistinctLabels(months)
  {
    if LogInOrder(months) { OrderedLabelsDiffer(months); }
  }

  lemma MergeKeepsLog(page: Page, date: ReleaseDate, month: Month, months: seq<Month>)
    requires IsDate(date) && 1 <= date.month <= 12 && date.year >= 0 && Refused(page, date) == None
    requires LogInOrder(page.months) && forall e :: e in page.block.entries ==> e.when == Pending
    requires Merges(page.months, date) && months == [month] + page.months[1..]
    requires month.name == page.months[0].name && month.entries == StampEntries(page.block.entries, date.iso) + page.months[0].entries
    ensures LogInOrder(months)
  {
    MergeKeepsMonth(page, date, month);
    RestIsTheSame(page.months, month, months);
    FirstMonthGrew(page.months, month, months);
  }

  lemma RestIsTheSame(months: seq<Month>, month: Month, grown: seq<Month>)
    requires months != [] && grown == [month] + months[1..]
    ensures |grown| == |months| && grown[0] == month && forall i :: 1 <= i < |months| ==> grown[i] == months[i]
  {
  }

  lemma NewMonthKeepsLog(page: Page, date: ReleaseDate)
    requires IsDate(date) && 1 <= date.month <= 12 && date.year >= 0 && Refused(page, date) == None
    requires LogInOrder(page.months) && forall e :: e in page.block.entries ==> e.when == Pending
    requires !Merges(page.months, date)
    ensures LogInOrder([NewMonth(page.block, date)] + page.months) <==> page.block.entries != []
  {
    NewMonthInOrder(page.block, date);
    forall j | 0 <= j < |page.months| ensures Before(KeyOf(page.months[j]), MonthKey(date)) { NewMonthIsNewest(page, date, j); }
    NewestOnTop(page.months, NewMonth(page.block, date));
  }

  lemma FirstMonthGrew(months: seq<Month>, month: Month, grown: seq<Month>)
    requires LogInOrder(months) && months != [] && MonthInOrder(month) && KeyOf(month) == KeyOf(months[0])
    requires |grown| == |months| && grown[0] == month && forall i :: 1 <= i < |months| ==> grown[i] == months[i]
    ensures LogInOrder(grown)
  {
    forall i, j | 0 <= i < j < |grown|
      ensures MonthInOrder(grown[i]) && MonthInOrder(grown[j]) && Before(KeyOf(grown[j]), KeyOf(grown[i]))
    {
      assert Before(KeyOf(months[j]), KeyOf(months[i]));
      assert grown[j] == months[j];
      assert i > 0 ==> grown[i] == months[i];
    }
  }

  lemma NewestOnTop(months: seq<Month>, month: Month)
    requires LogInOrder(months)
    requires MonthInOrder(month) ==> forall j :: 0 <= j < |months| ==> Before(KeyOf(months[j]), KeyOf(month))
    ensures LogInOrder([month] + months) <==> MonthInOrder(month)
  {
    assert ([month] + months)[0] == month;
  }

  /** Which stamps leave a month standing twice: those of a day whose month is on the page, below another. */
  lemma DuplicatesAMonth(page: Page, input: string, out: Page)
    requires Stamp(page, input) == Success(out) && DistinctLabels(page.months)
    ensures !DistinctLabels(out.months) <==>
              exists i :: 0 < i < |page.months| && page.months[i].name == MonthLabel(ParseReleaseDate(input).value)
  {
    var date := StampSays(page, input, out);
    if Merges(page.months, date) {
      var month := MergePlaces(page, date, out.months);
      assert forall i :: 0 <= i < |page.months| ==> out.months[i].name == page.months[i].name;
      assert forall i :: 0 < i < |page.months| ==> page.months[i].name != page.months[0].name;
    } else {
      TopLabelDuplicates(page.months, NewMonth(page.block, date));
    }
  }

  lemma TopLabelDuplicates(months: seq<Month>, month: Month)
    requires DistinctLabels(months) && (months != [] ==> months[0].name != month.name)
    ensures !DistinctLabels([month] + months) <==> exists i :: 0 < i < |months| && months[i].name == month.name
  {
    var all := [month] + months;
    assert forall i :: 0 <= i < |months| ==> all[i + 1] == months[i];
    if DistinctLabels(all) {
      forall i | 0 < i < |months| ensures months[i].name != month.name { assert all[0].name != all[i + 1].name; }
    }
    if forall i :: 0 < i < |months| ==> months[i].name != month.name { TopLabelIsNew(months, month, all); }
  }

  lemma TopLabelIsNew(months: seq<Month>, month: Month, all: seq<Month>)
    requires DistinctLabels(months) && forall i :: 0 <= i < |months| ==> months[i].name != month.name
    requires |all| == |months| + 1 && all[0] == month && forall i :: 0 < i < |all| ==> all[i] == months[i - 1]
    ensures DistinctLabels(all)
  {
  }

  // ── What a merge refuses that a new month takes ───────────────────────────────────────────

  /** Every pending anchor here has a slug the stamp can date. */
  predicate Datable(refs: seq<Ref>) {
    forall i :: 0 <= i < |refs| && refs[i].Next? ==> ValidSlug(refs[i].slug)
  }

  predicate DatableBlock(block: Block) {
    && (forall e :: e in block.entries ==> Datable([e.id] + e.links))
    && forall l :: l in ListsOf(block.also) ==> forall x :: x in l.items ==> Datable(x.links)
  }

  lemma DatedRefs(refs: seq<Ref>, iso: string)
    requires Datable(refs)
    ensures !RefsTrace(StampRefs(refs, iso))
  {
  }

  lemma DatedEntries(entries: seq<Entry>, iso: string)
    requires forall e :: e in entries ==> Datable([e.id] + e.links)
    ensures forall i :: 0 <= i < |entries| ==> !EntryTrace(StampEntries(entries, iso)[i])
  {
    forall i | 0 <= i < |entries| ensures !EntryTrace(StampEntries(entries, iso)[i]) {
      var e := entries[i];
      assert e in entries;
      var refs := [e.id] + e.links;
      assert refs[0] == e.id && forall k :: 0 <= k < |e.links| ==> e.links[k] == refs[k + 1];
      DatedRefs(e.links, iso);
    }
  }

  lemma DatedLists(lists: seq<Listing>, iso: string)
    requires forall l :: l in lists ==> forall x :: x in l.items ==> Datable(x.links)
    ensures !ListsTrace(StampLists(lists, iso))
  {
    forall i | 0 <= i < |lists| ensures !LinesTrace(StampLists(lists, iso)[i].items) {
      var items := lists[i].items;
      assert lists[i] in lists;
      forall k | 0 <= k < |items| ensures !RefsTrace(StampLines(items, iso)[k].links) {
        assert items[k] in items;
        DatedRefs(items[k].links, iso);
      }
    }
  }

  lemma LinesTraceJoin(a: seq<Line>, b: seq<Line>)
    ensures LinesTrace(a + b) <==> LinesTrace(a) || LinesTrace(b)
  {
    var all := a + b;
    if LinesTrace(a) {
      var i :| 0 <= i < |a| && RefsTrace(a[i].links);
      assert all[i] == a[i];
    }
    if LinesTrace(b) {
      var i :| 0 <= i < |b| && RefsTrace(b[i].links);
      assert all[|a| + i] == b[i];
    }
    if LinesTrace(all) {
      var i :| 0 <= i < |all| && RefsTrace(all[i].links);
      assert all[i] == if i < |a| then a[i] else b[i - |a|];
    }
  }

  lemma ListsTraceJoin(a: seq<Listing>, b: seq<Listing>)
    ensures ListsTrace(a + b) <==> ListsTrace(a) || ListsTrace(b)
  {
    var all := a + b;
    if ListsTrace(a) {
      var i :| 0 <= i < |a| && LinesTrace(a[i].items);
      assert all[i] == a[i];
    }
    if ListsTrace(b) {
      var i :| 0 <= i < |b| && LinesTrace(b[i].items);
      assert all[|a| + i] == b[i];
    }
    if ListsTrace(all) {
      var i :| 0 <= i < |all| && LinesTrace(all[i].items);
      assert all[i] == if i < |a| then a[i] else b[i - |a|];
    }
  }

  lemma OneListTrace(list: Listing)
    ensures ListsTrace([list]) <==> LinesTrace(list.items)
  {
    if LinesTrace(list.items) { assert LinesTrace([list][0].items); }
  }

  lemma {:induction false} PrependFirstTrace(lists: seq<Listing>, at: string, items: seq<Line>)
    requires HasLabel(lists, at)
    ensures ListsTrace(PrependFirst(lists, at, items)) <==> ListsTrace(lists) || LinesTrace(items)
    decreases |lists|
  {
    var first, rest := lists[0], lists[1..];
    assert lists == [first] + rest;
    ListsTraceJoin([first], rest);
    OneListTrace(first);
    if first.name == Some(at) {
      LinesTraceJoin(items, first.items);
      ListsTraceJoin([Listing(first.name, items + first.items)], rest);
      OneListTrace(Listing(first.name, items + first.items));
    } else {
      assert forall i :: 1 <= i < |lists| ==> lists[i] == rest[i - 1];
      PrependFirstTrace(rest, at, items);
      ListsTraceJoin([first], PrependFirst(rest, at, items));
    }
  }

  lemma PrependTrace(lists: seq<Listing>, at: string, items: seq<Line>)
    ensures ListsTrace(PrependToList(lists, at, items)) <==> ListsTrace(lists) || LinesTrace(items)
  {
    if items != [] {
      if HasLabel(lists, at) {
        PrependFirstTrace(lists, at, items);
      } else {
        var made := Listing(Some(at), items);
        OneListTrace(made);
        ListsTraceJoin([made], lists);
        ListsTraceJoin(lists, [made]);
      }
    }
  }

  /** The pending lines, as the block lists them. */
  predicate PendingLinesLink(block: Block) {
    LinesTrace(LabelledItems(ListsOf(block.also), IMPROVEMENTS)) || LinesTrace(LabelledItems(ListsOf(block.also), FIXES))
  }

  lemma MergeTrace(block: Block, first: Month, date: ReleaseDate, month: Month)
    requires 1 <= date.month <= 12 && Merge(block, first, date) == Success(month)
    requires DatableBlock(block) && !MonthTrace(first)
    ensures MonthTrace(month) <==> PendingLinesLink(block)
  {
    var improvements, fixes := LabelledItems(ListsOf(block.also), IMPROVEMENTS), LabelledItems(ListsOf(block.also), FIXES);
    MergeSays(block, first, date, month);
    MergeAlso(block, first, date, month);
    PrependTrace(ListsOf(first.also), IMPROVEMENTS, improvements);
    PrependTrace(PrependToList(ListsOf(first.also), IMPROVEMENTS, improvements), FIXES, fixes);
    DatedEntries(block.entries, date.iso);
    EntriesUntraced(StampEntries(block.entries, date.iso), first.entries);
  }

  lemma EntriesUntraced(a: seq<Entry>, b: seq<Entry>)
    requires forall i :: 0 <= i < |a| ==> !EntryTrace(a[i])
    requires forall i :: 0 <= i < |b| ==> !EntryTrace(b[i])
    ensures forall i :: 0 <= i < |a + b| ==> !EntryTrace((a + b)[i])
  {
  }

  lemma NewMonthTrace(block: Block, date: ReleaseDate)
    requires 1 <= date.month <= 12 && date.year >= 0 && DatableBlock(block)
    ensures !MonthTrace(NewMonth(block, date))
  {
    DatedEntries(block.entries, date.iso);
    DatedLists(ListsOf(block.also), date.iso);
    assert ListsOf(NewMonth(block, date).also) == StampLists(ListsOf(block.also), date.iso);
  }

  /** On a page whose only pending things are its block's, with slugs that can be dated, a stamp that has
      placed the block finds a trace left exactly when it merged and a pending Also line links a pending
      entry: a merge takes those lines before the links in them are dated. */
  lemma TraceIffMergedLineLinks(page: Page, date: ReleaseDate, months: seq<Month>)
    requires IsDate(date) && 1 <= date.month <= 12 && date.year >= 0 && Placed(page, date) == Success(months)
    requires page.marks == OneBlock && !page.strayTrace && DatableBlock(page.block)
    requires forall i :: 0 <= i < |page.months| ==> !MonthTrace(page.months[i])
    ensures PendingLeft(Unmarked(page, months)) <==> Merges(page.months, date) && PendingLinesLink(page.block)
  {
    if Merges(page.months, date) {
      var month := MergePlaces(page, date, months);
      MergeTrace(page.block, page.months[0], date, month);
      OnlyTheFirst(months, month, page.months[1..]);
    } else {
      NewMonthTrace(page.block, date);
      OnlyTheFirst(months, NewMonth(page.block, date), page.months);
    }
  }

  lemma OnlyTheFirst(months: seq<Month>, month: Month, rest: seq<Month>)
    requires months == [month] + rest && forall i :: 0 <= i < |rest| ==> !MonthTrace(rest[i])
    ensures (exists i :: 0 <= i < |months| && MonthTrace(months[i])) <==> MonthTrace(month)
  {
    assert months[0] == month && forall i :: 1 <= i < |months| ==> months[i] == rest[i - 1];
  }

  // ── The failures happen ───────────────────────────────────────────────────────────────────

  /** A pending block of one Also line. */
  function AlsoBlock(line: Line): Block {
    Block(true, [], Some(Also("Also in the next release", [Listing(Some(IMPROVEMENTS), [line])])))
  }

  function PageWith(block: Block, months: seq<Month>): Page {
    Page(OneBlock, block, months, false)
  }

  /** A month of one entry. */
  function OneEntryMonth(date: ReleaseDate): Month
    requires 1 <= date.month <= 12 && date.year >= 0
  {
    Month(MonthLabel(date), [OneEntry(date)], None)
  }

  function OneEntry(date: ReleaseDate): Entry {
    Entry(Fixed(date.iso + "-release"), Dated(date.iso), [], "text")
  }

  lemma AlsoBlockHolds(line: Line)
    ensures var lists := ListsOf(AlsoBlock(line).also);
            LabelledItems(lists, IMPROVEMENTS) == [line] && LabelledItems(lists, FIXES) == [] && LineCount(lists) == 1
  {
    var list := Listing(Some(IMPROVEMENTS), [line]);
    assert [list][1..] == [] && IMPROVEMENTS[0] != FIXES[0];
  }

  lemma OneEntryIsNewest(e: Entry, iso: string)
    requires e.when == Dated(iso)
    ensures Newest([] + [e]) == Some(iso)
  {
    assert [] + [e] == [e] && [e][1..] == [];
  }

  /** Nothing stops the stamp of such a block on a page of one entry, for a day not before it. */
  lemma AlsoBlockAdmitted(line: Line, months: seq<Month>, e: Entry, iso: string, date: ReleaseDate)
    requires EntriesOf(months) == [e] && e.when == Dated(iso) && NotAfter(iso, date.iso)
    ensures Refused(PageWith(AlsoBlock(line), months), date) == None
  {
    AlsoBlockHolds(line);
    OneEntryIsNewest(e, iso);
  }

  lemma AlsoBlockDatable(line: Line)
    requires Datable(line.links)
    ensures DatableBlock(AlsoBlock(line))
  {
  }

  /** A stamp that nothing refuses, and that places the block, goes through unless it leaves a trace. */
  lemma StampIs(page: Page, date: ReleaseDate, months: seq<Month>)
    requires IsDate(date) && 1 <= date.month <= 12 && date.year >= 0
    requires Refused(page, date) == None && Placed(page, date) == Success(months)
    ensures Stamp(page, date.iso) ==
            if PendingLeft(Unmarked(page, months)) then Failure(TraceLeft) else Success(Unmarked(page, months))
  {
  }

  /** Also lines alone stamp to a month without entries. */
  lemma {:induction false} AlsoOnlyStamps(line: Line, months: seq<Month>, e: Entry, iso: string, date: ReleaseDate)
    requires IsDate(date) && 1 <= date.month <= 12 && date.year >= 0 && Datable(line.links)
    requires EntriesOf(months) == [e] && e.when == Dated(iso) && NotAfter(iso, date.iso)
    requires !Merges(months, date) && forall i :: 0 <= i < |months| ==> !MonthTrace(months[i])
    ensures var page := PageWith(AlsoBlock(line), months);
            Stamp(page, date.iso) == Success(Unmarked(page, [NewMonth(page.block, date)] + months))
    ensures NewMonth(AlsoBlock(line), date).entries == []
  {
    var page := PageWith(AlsoBlock(line), months);
    var placed := [NewMonth(page.block, date)] + months;
    AlsoBlockAdmitted(line, months, e, iso, date);
    AlsoBlockDatable(line);
    StampIs(page, date, placed);
    TraceIffMergedLineLinks(page, date, placed);
  }

  lemma OneEntryInOrder(date: ReleaseDate)
    requires IsDate(date) && 1 <= date.month <= 12 && date.year >= 0
    ensures LogInOrder([OneEntryMonth(date)]) && EntriesOf([OneEntryMonth(date)]) == [OneEntry(date)]
    ensures !MonthTrace(OneEntryMonth(date))
  {
    assert [OneEntryMonth(date)][1..] == [];
  }

  /** Three days: one of the log's, one of a later month, and one later in the log's own month. */
  ghost predicate LogLaterAgain(log: ReleaseDate, later: ReleaseDate, again: ReleaseDate) {
    && IsDate(log) && IsDate(later) && IsDate(again)
    && (forall d :: d in [log, later, again] ==> 1 <= d.month <= 12 && d.year >= 0)
    && AsDay(log).Before(AsDay(again)) && again.year == log.year && again.month == log.month
    && AsDay(log).Before(AsDay(later)) && (later.year != log.year || later.month != log.month)
  }

  lemma DaysCompare(log: ReleaseDate, later: ReleaseDate, again: ReleaseDate)
    requires LogLaterAgain(log, later, again)
    ensures forall d :: d in [log, later, again] ==> 1 <= d.month <= 12 && d.year >= 0
    ensures log in [log, later, again] && later in [log, later, again] && again in [log, later, again]
    ensures NotAfter(log.iso, later.iso) && NotAfter(log.iso, again.iso)
    ensures MonthLabel(later) != MonthLabel(log) == MonthLabel(again)
  {
    SameLabel(log, later);
    SameLabel(log, again);
    IsoOrderIsCalendarOrder(log, later);
    IsoOrderIsCalendarOrder(log, again);
    OneIsBefore(log.iso, later.iso);
    OneIsBefore(log.iso, again.iso);
  }

  lemma NoEntriesNoOrder(months: seq<Month>)
    requires months != [] && months[0].entries == []
    ensures !LogInOrder(months)
  {
    assert !MonthInOrder(months[0]);
  }

  lemma NamesRepeat(months: seq<Month>, i: nat, j: nat)
    requires i < j < |months| && months[i].name == months[j].name
    ensures !DistinctLabels(months)
  {
  }

  /** An ordered log, and two releases. The first has Also lines alone, and leaves a month without entries. The
      second, on the page that left, is of a day in the older month: both stamps go through, and the older
      month then stands on the page twice. */
  lemma AlsoOnlyThenTwice(line: Line, log: ReleaseDate, later: ReleaseDate, again: ReleaseDate) returns (out: Page, twice: Page)
    requires LogLaterAgain(log, later, again) && Datable(line.links)
    ensures 1 <= log.month <= 12 && log.year >= 0 && LogInOrder([OneEntryMonth(log)])
    ensures Stamp(PageWith(AlsoBlock(line), [OneEntryMonth(log)]), later.iso) == Success(out) && !LogInOrder(out.months)
    ensures Stamp(PageWith(AlsoBlock(line), out.months), again.iso) == Success(twice) && !DistinctLabels(twice.months)
  {
    DaysCompare(log, later, again);
    OneEntryInOrder(log);
    AlsoBlockDatable(line);
    NewMonthTrace(AlsoBlock(line), later);
    var months := [OneEntryMonth(log)];
    var empty := NewMonth(AlsoBlock(line), later);
    AlsoOnlyStamps(line, months, OneEntry(log), log.iso, later);
    out := Unmarked(PageWith(AlsoBlock(line), months), [empty] + months);
    NoEntriesNoOrder(out.months);
    NewOnTop(empty, months, "");
    assert [] + EntriesOf(months) == EntriesOf(months);
    assert out.months == [empty, OneEntryMonth(log)];
    AlsoOnlyStamps(line, out.months, OneEntry(log), log.iso, again);
    twice := Unmarked(PageWith(AlsoBlock(line), out.months), [NewMonth(AlsoBlock(line), again)] + out.months);
    assert twice.months[2] == OneEntryMonth(log);
    NamesRepeat(twice.months, 0, 2);
  }

  /** A pending Also line that links a pending entry: the merge refuses what a new month takes. */
  lemma LinkedLineRefusesTheMerge(text: string, slug: string, log: ReleaseDate, later: ReleaseDate, again: ReleaseDate)
    requires LogLaterAgain(log, later, again) && ValidSlug(slug)
    ensures 1 <= log.month <= 12 && log.year >= 0
    ensures var page := PageWith(AlsoBlock(Line(text, [Next(slug)])), [OneEntryMonth(log)]);
            Stamp(page, again.iso) == Failure(TraceLeft) && Stamp(page, later.iso).Success?
  {
    DaysCompare(log, later, again);
    OneEntryInOrder(log);
    var line := Line(text, [Next(slug)]);
    assert IsTrace(line.links[0]);
    AlsoOnlyStamps(line, [OneEntryMonth(log)], OneEntry(log), log.iso, later);
    LinkedLineMerges(line, OneEntryMonth(log), OneEntry(log), log.iso, again);
  }

  lemma LinkedLineMerges(line: Line, month: Month, e: Entry, iso: string, date: ReleaseDate)
    requires IsDate(date) && 1 <= date.month <= 12 && date.year >= 0 && Datable(line.links) && RefsTrace(line.links)
    requires month.entries == [e] && month.also == None && month.name == MonthLabel(date) && !MonthTrace(month)
    requires e.when == Dated(iso) && NotAfter(iso, date.iso)
    ensures Stamp(PageWith(AlsoBlock(line), [month]), date.iso) == Failure(TraceLeft)
  {
    var page := PageWith(AlsoBlock(line), [month]);
    NewOnTop(month, [], "");
    assert [month] + [] == [month] && [e] + [] == [e];
    AlsoBlockAdmitted(line, [month], e, iso, date);
    AlsoBlockDatable(line);
    LinkedLinePlaced(line, month, date);
    var placed := Placed(page, date).value;
    StampIs(page, date, placed);
    TraceIffMergedLineLinks(page, date, placed);
  }

  lemma LinkedLinePlaced(line: Line, month: Month, date: ReleaseDate)
    requires 1 <= date.month <= 12 && date.year >= 0 && RefsTrace(line.links)
    requires month.entries != [] && month.also == None && month.name == MonthLabel(date)
    ensures Placed(PageWith(AlsoBlock(line), [month]), date).Success? && PendingLinesLink(AlsoBlock(line))
  {
    AlsoBlockHolds(line);
    assert RefsTrace([line][0].links);
    var block := AlsoBlock(line);
    assert (StampEntries(block.entries, date.iso) + month.entries) != [];
    assert Merge(block, month, date).Success?;
  }

  /** There are such days, and so such pages. */
  lemma SuchDays() returns (log: ReleaseDate, later: ReleaseDate, again: ReleaseDate)
    ensures LogLaterAgain(log, later, again)
  {
    log := LogDay();
    later := LaterDay();
    again := AgainDay();
  }

  lemma LogDay() returns (d: ReleaseDate)
    ensures IsDate(d) && AsDay(d) == Day(2026, 9, 10)
  {
    d := DayOf("2026", "09", "10", 2026, 9, 10);
  }

  lemma LaterDay() returns (d: ReleaseDate)
    ensures IsDate(d) && AsDay(d) == Day(2026, 10, 1)
  {
    d := DayOf("2026", "10", "01", 2026, 10, 1);
  }

  lemma AgainDay() returns (d: ReleaseDate)
    ensures IsDate(d) && AsDay(d) == Day(2026, 9, 20)
  {
    d := DayOf("2026", "09", "20", 2026, 9, 20);
  }
}
