/** Exactly when the changelog's stamp refuses, and for what; where dated anchors and new lists go; and when a stamped
    page still says pending (stampChangelog in scripts/changelog-stamp.ts). */
module ChangelogOutcomes {
  import opened Wrappers
  import opened StringOrder
  import opened ReleaseDates
  import opened Changelog

  // ── Anchors and entries ───────────────────────────────────────────────────────────────────

  /** A slug is lower-case letters, digits and hyphens, and does not begin with a hyphen. */
  lemma SlugExact(slug: string)
    ensures ValidSlug(slug) <==>
            && slug != [] && slug[0] in "abcdefghijklmnopqrstuvwxyz0123456789"
            && forall i :: 0 <= i < |slug| ==> slug[i] in "-abcdefghijklmnopqrstuvwxyz0123456789"
  {
    forall c: char
      ensures SlugChar(c) <==> c in "abcdefghijklmnopqrstuvwxyz0123456789"
      ensures SlugChar(c) || c == '-' <==> c in "-abcdefghijklmnopqrstuvwxyz0123456789"
    {
      SlugChars(c);
    }
  }

  lemma SlugChars(c: char)
    ensures SlugChar(c) <==> c in "abcdefghijklmnopqrstuvwxyz0123456789"
    ensures SlugChar(c) || c == '-' <==> c in "-abcdefghijklmnopqrstuvwxyz0123456789"
  {
    var all := "abcdefghijklmnopqrstuvwxyz" + "0123456789";
    assert "abcdefghijklmnopqrstuvwxyz0123456789" == all && "-abcdefghijklmnopqrstuvwxyz0123456789" == "-" + all;
    LetterIn(c);
    DigitIn(c);
  }

  lemma LetterIn(c: char)
    ensures c in "abcdefghijklmnopqrstuvwxyz" <==> 'a' <= c <= 'z'
  {
    if 'a' <= c <= 'z' { assert "abcdefghijklmnopqrstuvwxyz"[c as int - 'a' as int] == c; }
  }

  lemma DigitIn(c: char)
    ensures c in "0123456789" <==> '0' <= c <= '9'
  {
    if '0' <= c <= '9' { assert "0123456789"[c as int - '0' as int] == c; }
  }

  /** A dated anchor reads back: the day, a hyphen, the slug. Every other anchor stays as it is. */
  lemma AnchorReadsBack(r: Ref, iso: string)
    ensures if r.Next? && ValidSlug(r.slug)
            then
              var dated := StampRef(r, iso);
              && dated.Fixed? && |dated.anchor| == |iso| + 1 + |r.slug| && dated.anchor[..|iso|] == iso
              && dated.anchor[|iso|] == '-' && dated.anchor[|iso| + 1..] == r.slug
            else StampRef(r, iso) == r
  {
    if r.Next? && ValidSlug(r.slug) {
      var anchor := iso + "-" + r.slug;
      assert anchor[|iso| + 1..] == r.slug;
    }
  }

  /** Dating an entry dates what is pending in it and leaves its text; dating it again, for any day, changes nothing. */
  lemma StampsOnce(e: Entry, iso: string, again: string)
    requires Datable([e.id] + e.links)
    ensures StampEntry(e, iso).when == (if e.when.Dated? then e.when else Dated(iso)) && StampEntry(e, iso).text == e.text
    ensures StampEntry(StampEntry(e, iso), again) == StampEntry(e, iso)
  {
    var refs := [e.id] + e.links;
    assert refs[0] == e.id && forall k :: 0 <= k < |e.links| ==> e.links[k] == refs[k + 1];
    assert StampRefs(StampRefs(e.links, iso), again) == StampRefs(e.links, iso);
  }

  /** Where a label's items go when the block has no list for it: Improvements above every list, Fixes below. */
  lemma NewListGoes(lists: seq<Listing>, items: seq<Line>)
    requires items != []
    ensures !HasLabel(lists, "Improvements") ==>
              PrependToList(lists, "Improvements", items) == [Listing(Some("Improvements"), items)] + lists
    ensures !HasLabel(lists, "Fixes") ==> PrependToList(lists, "Fixes", items) == lists + [Listing(Some("Fixes"), items)]
  {
    assert IMPROVEMENTS[0] != FIXES[0];
  }

  /** An Also block's title is its month heading's name, without the year. */
  lemma TitleNamesTheMonth(date: ReleaseDate)
    requires 1 <= date.month <= 12 && date.year >= 0
    ensures AlsoTitle(date) + " " + Decimal(date.year) == "Also in " + MonthLabel(date)
  {
  }

  /** A merge keeps the month's name and its Also block's title; where there was no block, one is made for the month only
      when there are lines to put in it. */
  lemma MergeTitle(block: Block, first: Month, date: ReleaseDate)
    requires 1 <= date.month <= 12 && Merge(block, first, date).Success?
    ensures var month := Merge(block, first, date).value;
            && month.name == first.name
            && (first.also.Some? ==> month.also.Some? && month.also.value.title == first.also.value.title)
            && (first.also.None? && !PendingLines(block) ==> month.also.None?)
            && (first.also.None? && PendingLines(block) ==> month.also.Some? && month.also.value.title == AlsoTitle(date))
  {
  }

  // ── Lines outside the two lists ───────────────────────────────────────────────────────────

  /** A list's items are the first ones under this label. */
  predicate FirstUnder(lists: seq<Listing>, name: string, i: nat)
    requires i < |lists|
  {
    lists[i].name == Some(name) && forall j :: 0 <= j < i ==> lists[j].name != Some(name)
  }

  /** Every line is in the first Improvements list or the first Fixes list. */
  predicate AllLabelled(lists: seq<Listing>) {
    forall i :: 0 <= i < |lists| && lists[i].items != [] ==>
      FirstUnder(lists, "Improvements", i) || FirstUnder(lists, "Fixes", i)
  }

  /** How many lines are in neither list, when lists of these two labels have or have not been met. */
  function Loose(lists: seq<Listing>, improvements: bool, fixes: bool): nat {
    if lists == [] then 0
    else
      var first := lists[0];
      if first.name == Some("Improvements") && !improvements then Loose(lists[1..], true, fixes)
      else if first.name == Some("Fixes") && !fixes then Loose(lists[1..], improvements, true)
      else |first.items| + Loose(lists[1..], improvements, fixes)
  }

  lemma {:induction false} LooseCounts(lists: seq<Listing>, improvements: bool, fixes: bool)
    ensures LineCount(lists) == Loose(lists, improvements, fixes)
                                + (if improvements then 0 else |LabelledItems(lists, "Improvements")|)
                                + (if fixes then 0 else |LabelledItems(lists, "Fixes")|)
    decreases |lists|
  {
    if lists != [] {
      assert "Improvements"[0] != "Fixes"[0];
      var first := lists[0];
      LooseCounts(lists[1..], improvements || first.name == Some("Improvements"), fixes || first.name == Some("Fixes"));
    }
  }

  /** No list after the first `n` holds a line but the first of a label not met in them. */
  lemma {:induction false} LooseExact(lists: seq<Listing>, n: nat)
    requires n <= |lists|
    ensures Loose(lists[n..], HasLabel(lists[..n], "Improvements"), HasLabel(lists[..n], "Fixes")) == 0 <==>
            forall i :: n <= i < |lists| && lists[i].items != [] ==>
              FirstUnder(lists, "Improvements", i) || FirstUnder(lists, "Fixes", i)
    decreases |lists| - n
  {
    if n < |lists| {
      LooseExact(lists, n + 1);
      assert lists[n..][0] == lists[n] && lists[n..][1..] == lists[n + 1..];
      LabelOneMore(lists, "Improvements", n);
      LabelOneMore(lists, "Fixes", n);
      assert "Improvements"[0] != "Fixes"[0];
    }
  }

  lemma LabelOneMore(lists: seq<Listing>, name: string, n: nat)
    requires n < |lists|
    ensures HasLabel(lists[..n + 1], name) <==> HasLabel(lists[..n], name) || lists[n].name == Some(name)
    ensures FirstUnder(lists, name, n) <==> lists[n].name == Some(name) && !HasLabel(lists[..n], name)
  {
    forall i | 0 <= i < n ensures lists[..n + 1][i] == lists[i] == lists[..n][i] {
    }
    assert lists[..n + 1][n] == lists[n];
  }

  /** The count the stamp compares finds exactly the lines outside the two lists. */
  lemma LooseLinesExact(lists: seq<Listing>)
    ensures LineCount(lists) == |LabelledItems(lists, IMPROVEMENTS)| + |LabelledItems(lists, FIXES)| <==> AllLabelled(lists)
  {
    LooseCounts(lists, false, false);
    LooseExact(lists, 0);
    assert lists[0..] == lists;
  }

  // ── What the stamp refuses ────────────────────────────────────────────────────────────────

  /** Some line is pending under one of the two labels. */
  predicate PendingLines(block: Block) {
    LabelledItems(ListsOf(block.also), "Improvements") != [] || LabelledItems(ListsOf(block.also), "Fixes") != []
  }

  /** Nothing on the page is dated after the day. */
  ghost predicate NoneLater(page: Page, iso: string) {
    forall e :: e in page.block.entries + EntriesOf(page.months) && e.when.Dated? ==> !Before(iso, e.when.iso)
  }

  /** The month the block would join can take its lines: it has a labelled list, or no list at all, and a place for a
      new Also block. */
  predicate TakesLines(first: Month) {
    first.also.Some? ==> first.also.value.lists == [] || exists l :: l in first.also.value.lists && l.name != None
  }

  predicate HasPlace(block: Block, first: Month) {
    first.also.Some? || block.entries != [] || first.entries != []
  }

  /** The first `n` of the stamp's ten tests before its last, in the order it makes them. */
  ghost predicate Passes(page: Page, input: string, n: nat) {
    && (n > 0 ==> ParseReleaseDate(input).Some?)
    && (n > 1 ==> page.marks != NoMarks)
    && (n > 2 ==> page.marks != Unbalanced)
    && (n > 3 ==> page.marks != TwoOpens)
    && (n > 4 ==> NoneLater(page, input))
    && (n > 5 ==> AllLabelled(ListsOf(page.block.also)))
    && (n > 6 ==> page.block.entries != [] || PendingLines(page.block))
    && (n > 7 ==> Joins(page, input) && PendingLines(page.block) ==> TakesLines(page.months[0]))
    && (n > 8 ==> Joins(page, input) && PendingLines(page.block) ==> HasPlace(page.block, page.months[0]))
    && (n > 9 ==> !Joins(page, input) ==> page.block.heading)
  }

  /** The first month on the page is the day's. */
  predicate Joins(page: Page, input: string) {
    ParseReleaseDate(input).Some? && Merges(page.months, ParseReleaseDate(input).value)
  }

  /** Which test a refusal is for. */
  function TestOf(error: Error): nat {
    match error
    case NotADate => 0
    case NothingMarked => 1
    case MarksUnbalanced => 2
    case TwoBlocks => 3
    case Older(_) => 4
    case LooseLines => 5
    case NothingPending => 6
    case UnlabelledList => 7
    case NowhereForAlso => 8
    case NoPendingHeading => 9
    case TraceLeft => 10
  }

  lemma NewestDecides(entries: seq<Entry>, iso: string)
    ensures var newest := Newest(entries);
            newest.Some? && Before(iso, newest.value) <==> exists e :: e in entries && e.when.Dated? && Before(iso, e.when.iso)
  {
    forall e | e in entries && e.when.Dated? && Before(iso, e.when.iso)
      ensures Newest(entries).Some? && Before(iso, Newest(entries).value)
    {
      var k :| 0 <= k < |entries| && entries[k] == e;
      NewestIsNewest(entries, k);
      if !Before(iso, Newest(entries).value) {
        NotAfterTransitive(e.when.iso, Newest(entries).value, iso);
      }
    }
  }

  lemma RefusedTests(page: Page, input: string, date: ReleaseDate)
    requires ParseReleaseDate(input) == Some(date)
    ensures var refused := Refused(page, date);
            && (refused == None <==> Passes(page, input, 7))
            && (refused.Some? ==>
                  var at := TestOf(refused.value);
                  1 <= at < 7 && Passes(page, input, at) && !Passes(page, input, at + 1))
  {
    NewestDecides(page.block.entries + EntriesOf(page.months), date.iso);
    LooseLinesExact(ListsOf(page.block.also));
  }

  lemma PlacedTests(page: Page, input: string, date: ReleaseDate)
    requires ParseReleaseDate(input) == Some(date) && Passes(page, input, 7)
    ensures var placed := Placed(page, date);
            && (placed.Success? <==> Passes(page, input, 10))
            && (placed.Failure? ==>
                  var at := TestOf(placed.error);
                  7 <= at < 10 && Passes(page, input, at) && !Passes(page, input, at + 1))
  {
    if Merges(page.months, date) {
      var first := page.months[0];
      var stamped := StampEntries(page.block.entries, date.iso);
      assert stamped + first.entries == [] <==> page.block.entries == [] && first.entries == [];
      if first.also.Some? {
        assert TakesLines(first) <==>
               first.also.value.lists == [] || !(forall l :: l in first.also.value.lists ==> l.name == None);
      }
    }
  }

  /** A stamp goes through exactly when it passes its ten tests and leaves nothing pending, and is refused for the first
      test it does not pass, or else as leaving a trace. */
  lemma StampExact(page: Page, input: string)
    ensures var stamped := Stamp(page, input);
            && (stamped.Failure? && stamped.error != TraceLeft ==>
                  var at := TestOf(stamped.error);
                  at < 10 && Passes(page, input, at) && !Passes(page, input, at + 1))
            && (stamped.Success? || stamped.error == TraceLeft <==> Passes(page, input, 10))
  {
    var parsed := ParseReleaseDate(input);
    if parsed.Some? {
      RefusedTests(page, input, parsed.value);
      if Refused(page, parsed.value) == None { PlacedTests(page, input, parsed.value); }
    }
  }

  // ── What still says pending ───────────────────────────────────────────────────────────────

  predicate Says(refs: seq<Ref>) { exists r :: r in refs && r.Next? }

  /** A month says pending where an entry is undated or an anchor or a link is still a `next-` one. */
  lemma MonthTraceExact(m: Month)
    ensures MonthTrace(m) <==>
            || (exists e :: e in m.entries && (e.when == Pending || e.id.Next? || Says(e.links)))
            || (m.also.Some? && exists l :: l in m.also.value.lists && exists x :: x in l.items && Says(x.links))
  {
    forall refs: seq<Ref> ensures RefsTrace(refs) <==> Says(refs) {
      if RefsTrace(refs) {
        var i :| 0 <= i < |refs| && IsTrace(refs[i]);
        assert refs[i] in refs;
      }
    }
    ListsTraceExact(ListsOf(m.also));
    if exists e :: e in m.entries && (e.when == Pending || e.id.Next? || Says(e.links)) {
      var e :| e in m.entries && (e.when == Pending || e.id.Next? || Says(e.links));
      var i :| 0 <= i < |m.entries| && m.entries[i] == e;
      assert EntryTrace(m.entries[i]);
    }
  }

  lemma ListsTraceExact(lists: seq<Listing>)
    ensures ListsTrace(lists) <==> exists l :: l in lists && exists x :: x in l.items && RefsTrace(x.links)
  {
    forall l: Listing ensures LinesTrace(l.items) <==> exists x :: x in l.items && RefsTrace(x.links) {
      if LinesTrace(l.items) {
        var i :| 0 <= i < |l.items| && RefsTrace(l.items[i].links);
        assert l.items[i] in l.items;
      }
    }
    if ListsTrace(lists) {
      var i :| 0 <= i < |lists| && LinesTrace(lists[i].items);
      assert lists[i] in lists;
    }
  }

  predicate DatableEntries(block: Block) {
    forall e :: e in block.entries ==> Datable([e.id] + e.links)
  }

  predicate DatableLines(block: Block) {
    forall l :: l in ListsOf(block.also) ==> forall x :: x in l.items ==> Datable(x.links)
  }

  lemma StampedRefs(refs: seq<Ref>, iso: string)
    ensures RefsTrace(StampRefs(refs, iso)) <==> !Datable(refs)
  {
    forall i | 0 <= i < |refs| ensures IsTrace(StampRefs(refs, iso)[i]) <==> refs[i].Next? && !ValidSlug(refs[i].slug) {
    }
  }

  lemma StampedEntry(e: Entry, iso: string)
    ensures EntryTrace(StampEntry(e, iso)) <==> !Datable([e.id] + e.links)
  {
    var refs := [e.id] + e.links;
    StampedRefs(e.links, iso);
    assert refs[0] == e.id && forall k :: 0 <= k < |e.links| ==> e.links[k] == refs[k + 1];
    assert forall k :: 0 < k < |refs| ==> refs[k] == e.links[k - 1];
  }

  lemma StampedEntries(entries: seq<Entry>, iso: string)
    ensures (exists i :: 0 <= i < |entries| && EntryTrace(StampEntries(entries, iso)[i])) <==>
            !(forall e :: e in entries ==> Datable([e.id] + e.links))
  {
    forall i | 0 <= i < |entries|
      ensures EntryTrace(StampEntries(entries, iso)[i]) <==> !Datable([entries[i].id] + entries[i].links)
    {
      StampedEntry(entries[i], iso);
    }
    forall e | e in entries && !Datable([e.id] + e.links)
      ensures exists i :: 0 <= i < |entries| && EntryTrace(StampEntries(entries, iso)[i])
    {
      var i :| 0 <= i < |entries| && entries[i] == e;
      assert EntryTrace(StampEntries(entries, iso)[i]);
    }
  }

  lemma StampedLines(items: seq<Line>, iso: string)
    ensures LinesTrace(StampLines(items, iso)) <==> !(forall x :: x in items ==> Datable(x.links))
  {
    forall k | 0 <= k < |items| ensures RefsTrace(StampLines(items, iso)[k].links) <==> !Datable(items[k].links) {
      StampedRefs(items[k].links, iso);
    }
  }

  lemma StampedLists(lists: seq<Listing>, iso: string)
    ensures ListsTrace(StampLists(lists, iso)) <==> !(forall l :: l in lists ==> forall x :: x in l.items ==> Datable(x.links))
  {
    forall i | 0 <= i < |lists|
      ensures LinesTrace(StampLists(lists, iso)[i].items) <==> !(forall x :: x in lists[i].items ==> Datable(x.links))
    {
      StampedLines(lists[i].items, iso);
    }
  }

  lemma EntriesTraceJoin(a: seq<Entry>, b: seq<Entry>)
    ensures (exists i :: 0 <= i < |a + b| && EntryTrace((a + b)[i])) <==>
            (exists i :: 0 <= i < |a| && EntryTrace(a[i])) || (exists i :: 0 <= i < |b| && EntryTrace(b[i]))
  {
    if exists i :: 0 <= i < |b| && EntryTrace(b[i]) {
      var i :| 0 <= i < |b| && EntryTrace(b[i]);
      assert (a + b)[|a| + i] == b[i];
    }
    if exists i :: 0 <= i < |a| && EntryTrace(a[i]) {
      var i :| 0 <= i < |a| && EntryTrace(a[i]);
      assert (a + b)[i] == a[i];
    }
  }

  lemma MergedMonthTrace(block: Block, first: Month, date: ReleaseDate, month: Month)
    requires 1 <= date.month <= 12 && Merge(block, first, date) == Success(month)
    ensures MonthTrace(month) <==> MonthTrace(first) || !DatableEntries(block) || PendingLinesLink(block)
  {
    var improvements, fixes := LabelledItems(ListsOf(block.also), IMPROVEMENTS), LabelledItems(ListsOf(block.also), FIXES);
    MergeSays(block, first, date, month);
    MergeAlso(block, first, date, month);
    PrependTrace(ListsOf(first.also), IMPROVEMENTS, improvements);
    PrependTrace(PrependToList(ListsOf(first.also), IMPROVEMENTS, improvements), FIXES, fixes);
    StampedEntries(block.entries, date.iso);
    EntriesTraceJoin(StampEntries(block.entries, date.iso), first.entries);
  }

  lemma NewMonthSays(block: Block, date: ReleaseDate)
    requires 1 <= date.month <= 12 && date.year >= 0
    ensures MonthTrace(NewMonth(block, date)) <==> !DatableEntries(block) || !DatableLines(block)
  {
    StampedEntries(block.entries, date.iso);
    StampedLists(ListsOf(block.also), date.iso);
    assert ListsOf(NewMonth(block, date).also) == StampLists(ListsOf(block.also), date.iso);
  }

  predicate SomeMonthSays(months: seq<Month>) {
    exists i :: 0 <= i < |months| && MonthTrace(months[i])
  }

  lemma TopSays(month: Month, rest: seq<Month>)
    ensures SomeMonthSays([month] + rest) <==> MonthTrace(month) || SomeMonthSays(rest)
  {
    var all := [month] + rest;
    assert all[0] == month;
    if SomeMonthSays(rest) {
      var i :| 0 <= i < |rest| && MonthTrace(rest[i]);
      assert all[i + 1] == rest[i];
    }
    if SomeMonthSays(all) {
      var i :| 0 <= i < |all| && MonthTrace(all[i]);
      assert i > 0 ==> all[i] == rest[i - 1];
    }
  }

  /** On any page, a block that was placed leaves a trace exactly when there was one outside it, or a closing marker too
      many, or an anchor in it whose slug cannot be dated; or, where it merged, a line that links a pending entry. */
  lemma TraceExact(page: Page, date: ReleaseDate, months: seq<Month>)
    requires 1 <= date.month <= 12 && date.year >= 0 && Placed(page, date) == Success(months)
    ensures PendingLeft(Unmarked(page, months)) <==>
            || page.marks == ExtraClose || page.strayTrace || SomeMonthSays(page.months)
            || !DatableEntries(page.block)
            || (if Merges(page.months, date) then PendingLinesLink(page.block) else !DatableLines(page.block))
  {
    if Merges(page.months, date) {
      var month := MergePlaces(page, date, months);
      MergedMonthTrace(page.block, page.months[0], date, month);
      TopSays(month, page.months[1..]);
      TopSays(page.months[0], page.months[1..]);
      assert page.months == [page.months[0]] + page.months[1..];
    } else {
      NewMonthSays(page.block, date);
      TopSays(NewMonth(page.block, date), page.months);
    }
    assert PendingLeft(Unmarked(page, months)) <==> page.marks == ExtraClose || page.strayTrace || SomeMonthSays(months);
  }
}
