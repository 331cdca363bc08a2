/** The contribution gate (scripts/check-contribution.ts): who may change which path, and which added
    documentation lines are plan items. */
module ContributionGate {
  import opened Wrappers
  import opened TextLines
  import opened ReleaseDates

  // ── Lines of a documentation diff ─────────────────────────────────────────────────────────

  function Slashes(path: string): (r: string)
    ensures |r| == |path| && forall i :: 0 <= i < |r| ==> r[i] == if path[i] == '\\' then '/' else path[i]
  {
    seq(|path|, i requires 0 <= i < |path| => if path[i] == '\\' then '/' else path[i])
  }

  predicate IsGovernedDoc(path: string) {
    var p := Slashes(path);
    StartsWith(p, "docs/") && EndsWith(p, ".md") && !StartsWith(p, "docs/code-review/")
  }

  /** Governed: the Markdown documents under docs, but those under docs/code-review. */
  lemma GovernedExact(path: string)
    ensures IsGovernedDoc(path) <==>
            exists middle :: Slashes(path) == "docs/" + middle + ".md" && !("code-review/" <= middle)
  {
    var p := Slashes(path);
    if StartsWith(p, "docs/") && EndsWith(p, ".md") {
      Between(p, "docs/", ".md");
      var middle := p[5..|p| - 3];
      assert p == "docs/" + middle + ".md";
      InDocs(p, middle);
      if !IsGovernedDoc(path) {
        forall other | p == "docs/" + other + ".md" ensures "code-review/" <= other {
          assert ("docs/" + other + ".md")[5..|p| - 3] == other;
        }
      }
    }
    forall middle | p == "docs/" + middle + ".md" && !("code-review/" <= middle) ensures IsGovernedDoc(path) {
      assert p[..5] == "docs/" && p[|p| - 3..] == ".md";
      InDocs(p, middle);
    }
  }

  lemma Between(s: string, head: string, tail: string)
    requires head == "docs/" && tail == ".md" && StartsWith(s, head) && EndsWith(s, tail)
    ensures |s| >= 8
  {
    assert s[..5][4] == '/' && s[|s| - 3..][0] == '.' && s[|s| - 3..][1] == 'm' && s[|s| - 3..][2] == 'd';
    assert s[..5][0] == 'd' && s[..5][1] == 'o' && s[..5][2] == 'c' && s[..5][3] == 's';
  }

  lemma InDocs(p: string, middle: string)
    requires p == "docs/" + middle + ".md"
    ensures StartsWith(p, "docs/code-review/") <==> "code-review/" <= middle
  {
    var head := "docs/" + "code-review/";
    assert head == "docs/code-review/";
    if "code-review/" <= middle {
      assert p[..17] == "docs/" + middle[..12];
    }
    if StartsWith(p, "docs/code-review/") {
      assert p[..17][16] == '/' && p[16] == '/';
      assert |middle| >= 12;
      assert p[5..17] == middle[..12] && p[..17][5..] == "code-review/";
    }
  }

  /** A task-list item: "- [ ] ...", "* [x] ...", with any white space before it. */
  predicate IsTaskItem(s: string) {
    var t := TrimStart(s);
    && t != [] && (t[0] == '-' || t[0] == '*')
    && var u := t[1..];
       && u != [] && IsSpace(u[0])
       && var v := TrimStart(u);
          |v| >= 4 && v[0] == '[' && (v[1] == ' ' || v[1] == 'x' || v[1] == 'X') && v[2] == ']' && IsSpace(v[3])
  }

  /** A line that a task item's pattern matches, part by part: any white space, a bullet, some white space, a box that is
      empty or ticked, white space, and anything. */
  predicate TaskParts(s: string, indent: string, bullet: char, gap: string, mark: char, after: char, rest: string) {
    && s == indent + [bullet] + gap + ['[', mark, ']', after] + rest
    && AllSpace(indent) && bullet in "-*" && gap != [] && AllSpace(gap) && mark in " xX" && IsSpace(after)
  }

  /** The reading is the pattern's: a task item is exactly a line with such parts. */
  lemma TaskItemExact(s: string)
    ensures IsTaskItem(s) <==>
            exists indent, bullet, gap, mark, after, rest :: TaskParts(s, indent, bullet, gap, mark, after, rest)
  {
    if IsTaskItem(s) {
      var t := TrimStart(s);
      var indent := SpaceBefore(s);
      var v := TrimStart(t[1..]);
      var gap := SpaceBefore(t[1..]);
      assert s == indent + [t[0]] + gap + ['[', v[1], ']', v[3]] + v[4..];
      assert TaskParts(s, indent, t[0], gap, v[1], v[3], v[4..]);
    }
    forall indent, bullet, gap, mark, after, rest | TaskParts(s, indent, bullet, gap, mark, after, rest) ensures IsTaskItem(s) {
      var box := ['[', mark, ']', after] + rest;
      var t := [bullet] + gap + box;
      assert s == indent + t;
      TrimStartExact(indent, t);
      assert t[1..] == gap + box;
      TrimStartExact(gap, box);
    }
  }

  lemma {:induction false} SpaceBefore(s: string) returns (space: string)
    ensures AllSpace(space) && s == space + TrimStart(s) && (TrimStart(s) == [] || !IsSpace(TrimStart(s)[0]))
    ensures s != [] && IsSpace(s[0]) ==> space != []
    decreases |s|
  {
    if s != [] && IsSpace(s[0]) {
      var rest := SpaceBefore(s[1..]);
      space := [s[0]] + rest;
    } else {
      space := [];
    }
  }

  /** An added line the gate reports, in a governed document. */
  predicate IsPlanLine(s: string) {
    IsTaskItem(s) && !Includes(s, "contribution-check-ignore")
  }

  /** A reported line is a task item without the remark that lets it through. */
  lemma PlanLineExact(s: string)
    ensures IsPlanLine(s) <==>
            && (exists indent, bullet, gap, mark, after, rest :: TaskParts(s, indent, bullet, gap, mark, after, rest))
            && !exists i :: StandsAt(s, "contribution-check-ignore", i)
  {
    TaskItemExact(s);
    IncludesExact(s, "contribution-check-ignore");
  }

  /** The longest run of digits a string opens with. */
  function LeadingDigits(s: string): (r: string)
    ensures AllDigits(r) && r <= s && (|r| == |s| || !IsDigit(s[|r|]))
  {
    if s != [] && IsDigit(s[0]) then [s[0]] + LeadingDigits(s[1..]) else ""
  }

  /** The number after the first plus sign that has one; 0 when there is none. */
  function NewStart(header: string): nat {
    if header == [] then 0
    else if header[0] == '+' && |header| > 1 && IsDigit(header[1]) then Number(LeadingDigits(header[1..]))
    else NewStart(header[1..])
  }

  /** A plus sign with a number after it. */
  predicate PlusAt(header: string, i: nat) {
    i + 1 < |header| && header[i] == '+' && IsDigit(header[i + 1])
  }

  /** The first plus sign with a number after it is read, and no other; a header without one reads 0. */
  lemma {:induction false} NewStartExact(header: string, i: nat)
    requires forall j :: 0 <= j < i ==> !PlusAt(header, j)
    ensures PlusAt(header, i) ==> NewStart(header) == Number(LeadingDigits(header[i + 1..]))
    ensures i >= |header| ==> NewStart(header) == 0
    decreases |header|
  {
    if header != [] && i > 0 {
      assert !PlusAt(header, 0);
      forall j | 0 <= j < i - 1 ensures !PlusAt(header[1..], j) {
        assert !PlusAt(header, j + 1);
      }
      NewStartExact(header[1..], i - 1);
      if PlusAt(header, i) { assert header[1..][i..] == header[i + 1..]; }
    }
  }

  /** Which paths are governed, and which of their added lines are reported. */
  datatype Rules = Rules(governed: string -> bool, plan: string -> bool)

  const RULES := Rules((path: string) => IsGovernedDoc(path), (line: string) => IsPlanLine(line))

  datatype Report = Report(path: string, line: nat)

  /** What the scanner carries from line to line. */
  datatype Scan = Scan(file: Option<string>, lineNo: nat, reports: seq<Report>)

  function ScanLine(r: Rules, s: Scan, line: string): Scan {
    if StartsWith(line, "+++ b/") then s.(file := Some(Trim(line[6..])))
    else if StartsWith(line, "+++") || StartsWith(line, "---") then s
    else if StartsWith(line, "@@") then s.(lineNo := NewStart(line))
    else if StartsWith(line, "+") then
      var added := line[1..];
      var found := s.file.Some? && s.file.value != "" && r.governed(s.file.value) && r.plan(added);
      s.(lineNo := s.lineNo + 1, reports := if found then s.reports + [Report(s.file.value, s.lineNo)] else s.reports)
    else s
  }

  function ScanLines(r: Rules, s: Scan, lines: seq<string>): Scan {
    if lines == [] then s else ScanLine(r, ScanLines(r, s, lines[..|lines| - 1]), lines[|lines| - 1])
  }

  const NOTHING := Scan(None, 0, [])

  /** The scanner over a whole diff. */
  method ScanDiff(text: string) returns (reports: seq<Report>)
    ensures reports == Reported(text)
  {
    var lines := Split(text, '\n');
    var state := NOTHING;
    for i := 0 to |lines|
      invariant state == ScanLines(RULES, NOTHING, lines[..i])
    {
      assert lines[..i + 1][..i] == lines[..i];
      state := ScanLine(RULES, state, lines[i]);
    }
    assert lines[..|lines|] == lines;
    return state.reports;
  }

  // ── What a diff says ──────────────────────────────────────────────────────────────────────

  /** A hunk without context: what it removes, then what it adds from `newStart` on. `oldRange` and `rest` are
      the other parts of its header as git writes them, and the flags its end-of-file remarks. */
  datatype Hunk = Hunk(
    oldRange: string, newStart: nat, rest: string, removed: seq<string>, added: seq<string>, oldNoEol: bool, newNoEol: bool)

  /** A file of the diff: the lines git opens it with, its two name lines unless it has none (a pure rename, a
      mode change, a binary or an empty file), and its hunks. A deleted file has none that add. */
  datatype FileDiff = FileDiff(
    opening: seq<string>, named: bool, oldName: string, path: string, deleted: bool, hunks: seq<Hunk>)

  predicate HunkWritten(h: Hunk) {
    '+' !in h.oldRange && (h.rest == [] || !IsDigit(h.rest[0]))
  }

  predicate FileWritten(f: FileDiff) {
    && Trimmed(f.path) && StartsWith(f.oldName, "---")
    && (forall line :: line in f.opening ==> IsQuiet(line))
    && (forall h :: h in f.hunks ==> HunkWritten(h))
    && (f.deleted ==> forall h :: h in f.hunks ==> h.added == [])
    && (!f.named ==> f.hunks == [])
  }

  function Prefixed(c: char, lines: seq<string>): (r: seq<string>)
    ensures |r| == |lines| && forall i :: 0 <= i < |r| ==> r[i] == [c] + lines[i]
  {
    seq(|lines|, i requires 0 <= i < |lines| => [c] + lines[i])
  }

  const NO_EOL := "\\ No newline at end of file"

  function HeaderOf(h: Hunk): string {
    "@@ -" + h.oldRange + " +" + Decimal(h.newStart) + h.rest
  }

  function RenderHunk(h: Hunk): seq<string> {
    [HeaderOf(h)] + Prefixed('-', h.removed) + (if h.oldNoEol then [NO_EOL] else [])
    + Prefixed('+', h.added) + (if h.newNoEol then [NO_EOL] else [])
  }

  function RenderHunks(hunks: seq<Hunk>): seq<string> {
    if hunks == [] then [] else RenderHunks(hunks[..|hunks| - 1]) + RenderHunk(hunks[|hunks| - 1])
  }

  /** The line of the new name: a path with a space is followed by a tab. */
  function NewNameLine(f: FileDiff): string {
    if f.deleted then "+++ /dev/null" else "+++ b/" + f.path + if ' ' in f.path then "\t" else ""
  }

  function RenderFile(f: FileDiff): seq<string> {
    f.opening + (if f.named then [f.oldName, NewNameLine(f)] else []) + RenderHunks(f.hunks)
  }

  function RenderDiff(files: seq<FileDiff>): seq<string> {
    if files == [] then [] else RenderDiff(files[..|files| - 1]) + RenderFile(files[|files| - 1])
  }

  /** The plan lines among `added`, numbered from `start` on. */
  function PlanLines(r: Rules, path: string, start: nat, added: seq<string>): seq<Report> {
    if added == [] || !r.governed(path) then []
    else
      var n := |added| - 1;
      PlanLines(r, path, start, added[..n]) + if r.plan(added[n]) then [Report(path, start + n)] else []
  }

  function HunkReports(r: Rules, path: string, hunks: seq<Hunk>): seq<Report> {
    if hunks == [] then []
    else HunkReports(r, path, hunks[..|hunks| - 1]) + PlanLines(r, path, hunks[|hunks| - 1].newStart, hunks[|hunks| - 1].added)
  }

  /** Every governed plan line a diff adds, with its line number in the new file. */
  function TrueReports(r: Rules, files: seq<FileDiff>): seq<Report> {
    if files == [] then []
    else
      var f := files[|files| - 1];
      TrueReports(r, files[..|files| - 1]) + HunkReports(r, f.path, f.hunks)
  }

  // ── What the scanner makes of it ──────────────────────────────────────────────────────────

  /** An added line the scanner takes for part of a file header. */
  predicate LooksLikeHeader(added: string) { StartsWith(added, "++") }

  predicate LooksLikeName(added: string) { StartsWith(added, "++ b/") }

  /** How many of these added lines are not counted. */
  function Uncounted(added: seq<string>): (r: nat)
    ensures r <= |added|
  {
    if added == [] then 0 else Uncounted(added[..|added| - 1]) + if LooksLikeHeader(added[|added| - 1]) then 1 else 0
  }

  /** The file the scanner holds after these added lines: what the last that looks like a name says. */
  function Held(file: Option<string>, added: seq<string>): Option<string> {
    if added == [] then file
    else
      var last := added[|added| - 1];
      if LooksLikeName(last) then Some(Trim(last[5..])) else Held(file, added[..|added| - 1])
  }

  /** The scanner reports plan lines while it holds this. */
  predicate Covers(r: Rules, file: Option<string>) {
    file.Some? && file.value != "" && r.governed(file.value)
  }

  /** The plan lines as the scanner names and numbers them. */
  function Attributed(r: Rules, file: Option<string>, start: nat, added: seq<string>): seq<Report> {
    if added == [] then []
    else
      var n := |added| - 1;
      var held := Held(file, added[..n]);
      Attributed(r, file, start, added[..n])
      + if Covers(r, held) && r.plan(added[n]) then [Report(held.value, start + n - Uncounted(added[..n]))] else []
  }

  lemma {:induction false} ScansJoin(r: Rules, s: Scan, a: seq<string>, b: seq<string>)
    ensures ScanLines(r, s, a + b) == ScanLines(r, ScanLines(r, s, a), b)
    decreases |b|
  {
    if b == [] {
      assert a + b == a;
    } else {
      var n := |b| - 1;
      assert (a + b)[..|a + b| - 1] == a + b[..n];
      ScansJoin(r, s, a, b[..n]);
    }
  }

  /** Lines that are neither added nor a header leave the scanner as it was. */
  predicate IsQuiet(line: string) {
    line == [] || (line[0] != '+' && !StartsWith(line, "@@")) || line == "+++ /dev/null"
  }

  lemma {:induction false} QuietLines(r: Rules, s: Scan, lines: seq<string>)
    requires forall line :: line in lines ==> IsQuiet(line)
    ensures ScanLines(r, s, lines) == s
    decreases |lines|
  {
    if lines != [] {
      assert lines[|lines| - 1] in lines;
      QuietLines(r, s, lines[..|lines| - 1]);
      QuietLine(r, s, lines[|lines| - 1]);
    }
  }

  lemma NotThere(s: string, head: string, k: nat)
    requires k < |head| && (k < |s| ==> s[k] != head[k])
    ensures !StartsWith(s, head)
  {
    assert |s| >= |head| ==> s[..|head|][k] == s[k];
  }

  lemma QuietLine(r: Rules, s: Scan, line: string)
    requires IsQuiet(line)
    ensures ScanLine(r, s, line) == s
  {
    if line == "+++ /dev/null" {
      NotThere(line, "+++ b/", 4);
      NotThere(line, "@@", 0);
    } else {
      NotThere(line, "+++ b/", 0);
      NotThere(line, "+++", 0);
      NotThere(line, "+", 0);
    }
  }

  lemma {:induction false} StartIsRead(before: string, n: nat, rest: string)
    requires '+' !in before && (rest == [] || !IsDigit(rest[0]))
    ensures NewStart(before + "+" + Decimal(n) + rest) == n
    decreases |before|
  {
    var s := before + "+" + Decimal(n) + rest;
    if before == [] {
      assert s[1..] == Decimal(n) + rest;
      DigitsAreRead(Decimal(n), rest);
      NumberReadsBack(n);
    } else {
      assert s[0] == before[0] && before[0] in before;
      assert s[1..] == before[1..] + "+" + Decimal(n) + rest;
      StartIsRead(before[1..], n, rest);
    }
  }

  lemma {:induction false} DigitsAreRead(digits: string, rest: string)
    requires AllDigits(digits) && (rest == [] || !IsDigit(rest[0]))
    ensures LeadingDigits(digits + rest) == digits
    decreases |digits|
  {
    if digits == [] {
      assert digits + rest == rest;
    } else {
      assert (digits + rest)[1..] == digits[1..] + rest;
      DigitsAreRead(digits[1..], rest);
    }
  }

  lemma HeaderScans(r: Rules, s: Scan, h: Hunk)
    requires HunkWritten(h)
    ensures ScanLine(r, s, HeaderOf(h)) == s.(lineNo := h.newStart)
  {
    var before := "@@ -" + h.oldRange + " ";
    assert HeaderOf(h) == before + "+" + Decimal(h.newStart) + h.rest;
    StartIsRead(before, h.newStart, h.rest);
    assert HeaderOf(h)[0] == '@' && HeaderOf(h)[1] == '@';
  }

  /** A line that begins with "++" is no task item. */
  lemma HeadersAreNoTasks(added: string)
    requires LooksLikeHeader(added)
    ensures !IsTaskItem(added)
  {
    assert TrimStart(added) == added;
  }

  /** No line the scanner takes for a header is a line it would report. */
  ghost predicate HeadersDontCount(r: Rules) {
    forall x :: LooksLikeHeader(x) ==> !r.plan(x)
  }

  lemma RulesAreSuch()
    ensures HeadersDontCount(RULES)
  {
    forall x | LooksLikeHeader(x) ensures !RULES.plan(x) { HeadersAreNoTasks(x); }
  }

  lemma StartsAfter(c: char, s: string, head: string)
    ensures StartsWith([c] + s, [c] + head) <==> StartsWith(s, head)
  {
    if |head| <= |s| {
      assert ([c] + s)[..|head| + 1] == [c] + s[..|head|];
      assert ([c] + s[..|head|])[1..] == s[..|head|] && ([c] + head)[1..] == head;
    }
  }

  lemma AddedScans(r: Rules, s: Scan, added: string)
    ensures ScanLine(r, s, "+" + added) ==
            if LooksLikeName(added) then s.(file := Some(Trim(added[5..])))
            else if LooksLikeHeader(added) then s
            else s.(lineNo := s.lineNo + 1,
                    reports :=
                      if Covers(r, s.file) && r.plan(added) then s.reports + [Report(s.file.value, s.lineNo)] else s.reports)
  {
    var line := "+" + added;
    assert line[1..] == added;
    assert line[0] == '+';
    assert |added| >= 5 ==> line[6..] == added[5..];
    assert "+" + "++" == "+++" && "+" + "++ b/" == "+++ b/";
    StartsAfter('+', added, "++");
    StartsAfter('+', added, "++ b/");
  }

  lemma NamesAreHeaders(added: string)
    requires LooksLikeName(added)
    ensures LooksLikeHeader(added)
  {
    assert added[..5][..2] == added[..2];
  }

  /** Scanning a hunk's added lines, names among them or not, reports exactly what they are attributed. */
  lemma {:induction false} AddedLinesScan(r: Rules, file: Option<string>, start: nat, before: seq<Report>, added: seq<string>)
    requires HeadersDontCount(r)
    ensures ScanLines(r, Scan(file, start, before), Prefixed('+', added)) == AfterAdded(r, file, start, before, added)
    decreases |added|
  {
    if added != [] {
      var n := |added| - 1;
      assert Prefixed('+', added) == Prefixed('+', added[..n]) + ["+" + added[n]];
      AddedLinesScan(r, file, start, before, added[..n]);
      LastScans(r, Scan(file, start, before), Prefixed('+', added[..n]), "+" + added[n]);
      LastAdded(r, file, start, added, before);
    } else {
      assert before + [] == before;
    }
  }

  /** Where the scanner stands after a hunk's added lines. */
  function AfterAdded(r: Rules, file: Option<string>, start: nat, before: seq<Report>, added: seq<string>): Scan {
    Scan(Held(file, added), start + |added| - Uncounted(added), before + Attributed(r, file, start, added))
  }

  lemma LastScans(r: Rules, s: Scan, lines: seq<string>, line: string)
    ensures ScanLines(r, s, lines + [line]) == ScanLine(r, ScanLines(r, s, lines), line)
  {
    assert (lines + [line])[..|lines|] == lines;
  }

  lemma LastAdded(r: Rules, file: Option<string>, start: nat, added: seq<string>, before: seq<Report>)
    requires HeadersDontCount(r) && added != []
    ensures var n := |added| - 1;
            ScanLine(r, AfterAdded(r, file, start, before, added[..n]), "+" + added[n])
            == AfterAdded(r, file, start, before, added)
  {
    var n := |added| - 1;
    AddedScans(r, AfterAdded(r, file, start, before, added[..n]), added[n]);
    if LooksLikeName(added[n]) { NamesAreHeaders(added[n]); }
    AttributedOneMore(r, file, start, added, before);
  }

  lemma AttributedOneMore(r: Rules, file: Option<string>, start: nat, added: seq<string>, before: seq<Report>)
    requires added != []
    ensures var n := |added| - 1;
            var held := Held(file, added[..n]);
            before + Attributed(r, file, start, added) ==
            if Covers(r, held) && r.plan(added[n])
            then before + Attributed(r, file, start, added[..n]) + [Report(held.value, start + n - Uncounted(added[..n]))]
            else before + Attributed(r, file, start, added[..n])
  {
    var n := |added| - 1;
    var held := Held(file, added[..n]);
    var last := if Covers(r, held) && r.plan(added[n]) then [Report(held.value, start + n - Uncounted(added[..n]))] else [];
    assert Attributed(r, file, start, added) == Attributed(r, file, start, added[..n]) + last;
    Associate(before, Attributed(r, file, start, added[..n]), last);
  }

  lemma Associate(a: seq<Report>, b: seq<Report>, c: seq<Report>)
    ensures a + (b + c) == a + b + c
    ensures c == [] ==> a + b + c == a + b
  {
  }

  // ── A whole diff ──────────────────────────────────────────────────────────────────────────

  /** The file the scanner holds after these hunks. */
  function HeldBy(file: Option<string>, hunks: seq<Hunk>): Option<string> {
    if hunks == [] then file else Held(HeldBy(file, hunks[..|hunks| - 1]), hunks[|hunks| - 1].added)
  }

  function AttributedHunks(r: Rules, file: Option<string>, hunks: seq<Hunk>): seq<Report> {
    if hunks == [] then []
    else
      var front, last := hunks[..|hunks| - 1], hunks[|hunks| - 1];
      AttributedHunks(r, file, front) + Attributed(r, HeldBy(file, front), last.newStart, last.added)
  }

  /** Each file starts from its own name line. */
  function AttributedFiles(r: Rules, files: seq<FileDiff>): seq<Report> {
    if files == [] then []
    else
      var f := files[|files| - 1];
      AttributedFiles(r, files[..|files| - 1]) + AttributedHunks(r, Some(f.path), f.hunks)
  }

  lemma RemovedScan(r: Rules, s: Scan, removed: seq<string>)
    ensures ScanLines(r, s, Prefixed('-', removed)) == s
  {
    forall line | line in Prefixed('-', removed) ensures IsQuiet(line) { NotThere(line, "@@", 0); }
    QuietLines(r, s, Prefixed('-', removed));
  }

  lemma RemarkScans(r: Rules, s: Scan, written: bool)
    ensures ScanLines(r, s, if written then [NO_EOL] else []) == s
  {
    NotThere(NO_EOL, "@@", 0);
    QuietLines(r, s, if written then [NO_EOL] else []);
  }

  lemma HunkScans(r: Rules, s: Scan, h: Hunk)
    requires HeadersDontCount(r) && HunkWritten(h)
    ensures ScanLines(r, s, RenderHunk(h)).file == Held(s.file, h.added)
    ensures ScanLines(r, s, RenderHunk(h)).reports == s.reports + Attributed(r, s.file, h.newStart, h.added)
  {
    var removed, added := Prefixed('-', h.removed), Prefixed('+', h.added);
    var oldEnd, newEnd := if h.oldNoEol then [NO_EOL] else [], if h.newNoEol then [NO_EOL] else [];
    var at := s.(lineNo := h.newStart);
    HeaderScans(r, s, h);
    LastScans(r, s, [], HeaderOf(h));
    assert [] + [HeaderOf(h)] == [HeaderOf(h)];
    RemovedScan(r, at, h.removed);
    RemarkScans(r, at, h.oldNoEol);
    ScansJoin(r, s, [HeaderOf(h)], removed);
    ScansJoin(r, s, [HeaderOf(h)] + removed, oldEnd);
    ScansJoin(r, s, [HeaderOf(h)] + removed + oldEnd, added);
    ScansJoin(r, s, [HeaderOf(h)] + removed + oldEnd + added, newEnd);
    AddedLinesScan(r, s.file, h.newStart, s.reports, h.added);
    RemarkScans(r, ScanLines(r, at, added), h.newNoEol);
  }

  lemma {:induction false} HunksScan(r: Rules, s: Scan, hunks: seq<Hunk>)
    requires HeadersDontCount(r) && forall h :: h in hunks ==> HunkWritten(h)
    ensures ScanLines(r, s, RenderHunks(hunks)).file == HeldBy(s.file, hunks)
    ensures ScanLines(r, s, RenderHunks(hunks)).reports == s.reports + AttributedHunks(r, s.file, hunks)
    decreases |hunks|
  {
    if hunks == [] {
      assert s.reports + [] == s.reports;
    } else {
      var front, last := hunks[..|hunks| - 1], hunks[|hunks| - 1];
      assert last in hunks;
      HunksScan(r, s, front);
      var mid := ScanLines(r, s, RenderHunks(front));
      HunkScans(r, mid, last);
      ReportsAdd(r, s, RenderHunks(front), mid, RenderHunk(last), AttributedHunks(r, s.file, front),
                 Attributed(r, HeldBy(s.file, front), last.newStart, last.added));
    }
  }

  /** Two runs of lines in turn report what each reports. */
  lemma ReportsAdd(r: Rules, s: Scan, a: seq<string>, mid: Scan, b: seq<string>, x: seq<Report>, y: seq<Report>)
    requires mid == ScanLines(r, s, a) && mid.reports == s.reports + x && ScanLines(r, mid, b).reports == mid.reports + y
    ensures ScanLines(r, s, a + b) == ScanLines(r, mid, b) && ScanLines(r, s, a + b).reports == s.reports + (x + y)
  {
    ScansJoin(r, s, a, b);
    assert s.reports + x + y == s.reports + (x + y);
  }

  lemma Headed(head: string, rest: string)
    ensures StartsWith(head + rest, head) && (head + rest)[|head|..] == rest
  {
  }

  lemma NameScans(r: Rules, s: Scan, f: FileDiff)
    requires FileWritten(f)
    ensures ScanLine(r, s, NewNameLine(f)) == if f.deleted then s else s.(file := Some(f.path))
  {
    if f.deleted {
      QuietLine(r, s, NewNameLine(f));
    } else {
      var tab := if ' ' in f.path then "\t" else "";
      assert NewNameLine(f) == "+++ b/" + (f.path + tab);
      Headed("+++ b/", f.path + tab);
      assert f.path + "" == f.path;
      TrimKeeps(f.path);
    }
  }

  lemma {:induction false} NothingAdded(r: Rules, file: Option<string>, hunks: seq<Hunk>)
    requires forall h :: h in hunks ==> h.added == []
    ensures AttributedHunks(r, file, hunks) == [] && HeldBy(file, hunks) == file
    decreases |hunks|
  {
    if hunks != [] {
      assert hunks[|hunks| - 1] in hunks;
      NothingAdded(r, file, hunks[..|hunks| - 1]);
    }
  }

  lemma NamesScan(r: Rules, s: Scan, f: FileDiff)
    requires FileWritten(f) && f.named
    ensures ScanLines(r, s, f.opening + [f.oldName, NewNameLine(f)]) == if f.deleted then s else s.(file := Some(f.path))
  {
    QuietLines(r, s, f.opening);
    assert f.oldName[0] == f.oldName[..3][0];
    QuietLine(r, s, f.oldName);
    TwoLines(r, s, f.oldName, NewNameLine(f));
    NameScans(r, s, f);
    ScansJoin(r, s, f.opening, [f.oldName, NewNameLine(f)]);
  }

  lemma OpeningAlone(f: FileDiff)
    requires FileWritten(f) && !f.named
    ensures RenderFile(f) == f.opening
  {
    assert f.opening + [] + [] == f.opening;
  }

  /** Whatever the scanner held before, a file reports what its own hunks are attributed. */
  lemma FileScans(r: Rules, s: Scan, f: FileDiff)
    requires HeadersDontCount(r) && FileWritten(f)
    ensures ScanLines(r, s, RenderFile(f)).reports == s.reports + AttributedHunks(r, Some(f.path), f.hunks)
  {
    if f.named {
      NamesScan(r, s, f);
      ScansJoin(r, s, f.opening + [f.oldName, NewNameLine(f)], RenderHunks(f.hunks));
      HunksScan(r, if f.deleted then s else s.(file := Some(f.path)), f.hunks);
      if f.deleted {
        NothingAdded(r, s.file, f.hunks);
        NothingAdded(r, Some(f.path), f.hunks);
      }
    } else {
      QuietLines(r, s, f.opening);
      OpeningAlone(f);
      Associate(s.reports, [], []);
    }
  }

  lemma {:induction false} FilesScan(r: Rules, files: seq<FileDiff>)
    requires HeadersDontCount(r) && forall f :: f in files ==> FileWritten(f)
    ensures ScanLines(r, NOTHING, RenderDiff(files)).reports == AttributedFiles(r, files)
    decreases |files|
  {
    if files != [] {
      var n := |files| - 1;
      assert files[n] in files;
      FilesScan(r, files[..n]);
      ScansJoin(r, NOTHING, RenderDiff(files[..n]), RenderFile(files[n]));
      FileScans(r, ScanLines(r, NOTHING, RenderDiff(files[..n])), files[n]);
    }
  }

  // ── When the scanner is right ─────────────────────────────────────────────────────────────

  /** The `k`th added line is right: it is no plan line; or the path is governed, and the scanner holds it and has
      counted every line before this one; or it is not, and the scanner holds nothing it would report. */
  predicate LineRight(r: Rules, path: string, file: Option<string>, added: seq<string>, k: nat)
    requires k < |added|
  {
    var held := Held(file, added[..k]);
    r.plan(added[k]) ==>
      if r.governed(path) then held == Some(path) && Uncounted(added[..k]) == 0 else !Covers(r, held)
  }

  predicate HunkRight(r: Rules, path: string, file: Option<string>, added: seq<string>) {
    forall k :: 0 <= k < |added| ==> LineRight(r, path, file, added, k)
  }

  predicate HunksRight(r: Rules, path: string, file: Option<string>, hunks: seq<Hunk>) {
    forall i :: 0 <= i < |hunks| ==> HunkRight(r, path, HeldBy(file, hunks[..i]), hunks[i].added)
  }

  /** Every line a file adds is right. */
  predicate FileRight(r: Rules, f: FileDiff) {
    HunksRight(r, f.path, Some(f.path), f.hunks)
  }

  lemma OneMoreRight(r: Rules, path: string, file: Option<string>, added: seq<string>)
    requires added != []
    ensures var n := |added| - 1;
            HunkRight(r, path, file, added) <==> HunkRight(r, path, file, added[..n]) && LineRight(r, path, file, added, n)
  {
    var front := added[..|added| - 1];
    forall k | 0 <= k < |front| ensures LineRight(r, path, file, front, k) <==> LineRight(r, path, file, added, k) {
      assert front[..k] == added[..k] && front[k] == added[k];
    }
  }

  lemma SameEnds(a: seq<Report>, x: Report, b: seq<Report>, y: Report)
    ensures a + [x] == b + [y] <==> a == b && x == y
  {
    assert (a + [x])[..|a + [x]| - 1] == a && (b + [y])[..|b + [y]| - 1] == b;
    assert (a + [x])[|a + [x]| - 1] == x && (b + [y])[|b + [y]| - 1] == y;
  }

  lemma {:induction false} NoPlanLines(r: Rules, path: string, start: nat, added: seq<string>)
    requires !r.governed(path)
    ensures PlanLines(r, path, start, added) == []
  {
  }

  /** In a governed document a hunk is never attributed more lines than it adds plan lines, and exactly those
      lines, named and numbered, if and only if each is right. */
  lemma {:induction false} GovernedHunkExact(r: Rules, path: string, file: Option<string>, start: nat, added: seq<string>)
    requires r.governed(path) && path != ""
    ensures |Attributed(r, file, start, added)| <= |PlanLines(r, path, start, added)|
    ensures Attributed(r, file, start, added) == PlanLines(r, path, start, added) <==> HunkRight(r, path, file, added)
    decreases |added|
  {
    if added != [] {
      var n := |added| - 1;
      var held, missed := Held(file, added[..n]), Uncounted(added[..n]);
      GovernedHunkExact(r, path, file, start, added[..n]);
      OneMoreRight(r, path, file, added);
      var a, b := Attributed(r, file, start, added[..n]), PlanLines(r, path, start, added[..n]);
      if !r.plan(added[n]) {
        assert a + [] == a && b + [] == b;
      } else if Covers(r, held) {
        SameEnds(a, Report(held.value, start + n - missed), b, Report(path, start + n));
      } else {
        assert a + [] == a;
        assert |PlanLines(r, path, start, added)| == |b| + 1;
        assert held != Some(path);
      }
    }
  }

  /** In any other document it is attributed nothing if and only if each of its lines is right. */
  lemma {:induction false} OtherHunkExact(r: Rules, path: string, file: Option<string>, start: nat, added: seq<string>)
    requires !r.governed(path)
    ensures Attributed(r, file, start, added) == [] <==> HunkRight(r, path, file, added)
    decreases |added|
  {
    if added != [] {
      OtherHunkExact(r, path, file, start, added[..|added| - 1]);
      OneMoreRight(r, path, file, added);
    }
  }

  lemma OneMoreHunkRight(r: Rules, path: string, file: Option<string>, hunks: seq<Hunk>)
    requires hunks != []
    ensures var n := |hunks| - 1;
            HunksRight(r, path, file, hunks) <==>
            HunksRight(r, path, file, hunks[..n]) && HunkRight(r, path, HeldBy(file, hunks[..n]), hunks[n].added)
  {
    var front := hunks[..|hunks| - 1];
    forall i | 0 <= i < |front| ensures front[..i] == hunks[..i] && front[i] == hunks[i] {
    }
  }

  lemma SameHalves(a: seq<Report>, x: seq<Report>, b: seq<Report>, y: seq<Report>)
    requires |a| <= |b| && |x| <= |y|
    ensures a + x == b + y <==> a == b && x == y
  {
    if a + x == b + y {
      assert |a + x| == |b + y|;
      assert (a + x)[..|a|] == a && (b + y)[..|b|] == b && (a + x)[|a|..] == x && (b + y)[|b|..] == y;
    }
  }

  lemma {:induction false} GovernedHunksExact(r: Rules, path: string, file: Option<string>, hunks: seq<Hunk>)
    requires r.governed(path) && path != ""
    ensures |AttributedHunks(r, file, hunks)| <= |HunkReports(r, path, hunks)|
    ensures AttributedHunks(r, file, hunks) == HunkReports(r, path, hunks) <==> HunksRight(r, path, file, hunks)
    decreases |hunks|
  {
    if hunks != [] {
      var front, last := hunks[..|hunks| - 1], hunks[|hunks| - 1];
      GovernedHunksExact(r, path, file, front);
      GovernedHunkExact(r, path, HeldBy(file, front), last.newStart, last.added);
      OneMoreHunkRight(r, path, file, hunks);
      SameHalves(AttributedHunks(r, file, front), Attributed(r, HeldBy(file, front), last.newStart, last.added),
                 HunkReports(r, path, front), PlanLines(r, path, last.newStart, last.added));
    }
  }

  lemma {:induction false} OtherHunksExact(r: Rules, path: string, file: Option<string>, hunks: seq<Hunk>)
    requires !r.governed(path)
    ensures HunkReports(r, path, hunks) == []
    ensures AttributedHunks(r, file, hunks) == [] <==> HunksRight(r, path, file, hunks)
    decreases |hunks|
  {
    if hunks != [] {
      var front, last := hunks[..|hunks| - 1], hunks[|hunks| - 1];
      OtherHunksExact(r, path, file, front);
      OtherHunkExact(r, path, HeldBy(file, front), last.newStart, last.added);
      NoPlanLines(r, path, last.newStart, last.added);
      OneMoreHunkRight(r, path, file, hunks);
    }
  }

  /** What the scanner reports of a file is what the file adds, if and only if every line it adds is right. */
  lemma FileExact(r: Rules, f: FileDiff)
    requires f.path != ""
    ensures AttributedHunks(r, Some(f.path), f.hunks) == HunkReports(r, f.path, f.hunks) <==> FileRight(r, f)
  {
    if r.governed(f.path) {
      GovernedHunksExact(r, f.path, Some(f.path), f.hunks);
    } else {
      OtherHunksExact(r, f.path, Some(f.path), f.hunks);
    }
  }

  // ── When a whole diff's report is right ───────────────────────────────────────────────────

  /** The diff as one text, each line ended. */
  function DiffText(files: seq<FileDiff>): string {
    JoinWith(RenderDiff(files) + [""], '\n')
  }

  predicate DiffWritten(files: seq<FileDiff>) {
    && (forall f :: f in files ==> FileWritten(f))
    && (forall line :: line in RenderDiff(files) ==> '\n' !in line)
  }

  /** What the gate reports of a diff's text. */
  function Reported(text: string): seq<Report> {
    ScanLines(RULES, NOTHING, Split(text, '\n')).reports
  }

  lemma DiffSplits(r: Rules, files: seq<FileDiff>)
    requires DiffWritten(files)
    ensures ScanLines(r, NOTHING, Split(DiffText(files), '\n')) == ScanLines(r, NOTHING, RenderDiff(files))
  {
    SplitsJoined(RenderDiff(files) + [""], '\n');
    LastScans(r, NOTHING, RenderDiff(files), "");
    QuietLine(r, ScanLines(r, NOTHING, RenderDiff(files)), "");
  }

  /** For every zero-context diff, whatever its added lines, the scanner reports what its files are attributed. */
  lemma ScanAttributes(files: seq<FileDiff>)
    requires DiffWritten(files)
    ensures Reported(DiffText(files)) == AttributedFiles(RULES, files)
  {
    var r := RULES;
    RulesAreSuch();
    DiffSplits(r, files);
    FilesScan(r, files);
  }

  predicate FilesRight(r: Rules, files: seq<FileDiff>) {
    forall i :: 0 <= i < |files| ==> FileRight(r, files[i])
  }

  /** The diff's first `n` files are reported exactly. */
  ghost predicate ExactTo(files: seq<FileDiff>, n: nat)
    requires n <= |files|
  {
    Reported(DiffText(files[..n])) == TrueReports(RULES, files[..n])
  }

  lemma {:induction false} LeadingLines(files: seq<FileDiff>, n: nat)
    requires n <= |files|
    ensures RenderDiff(files[..n]) <= RenderDiff(files)
    decreases |files|
  {
    if n < |files| {
      assert files[..|files| - 1][..n] == files[..n];
      LeadingLines(files[..|files| - 1], n);
    } else {
      assert files[..n] == files;
    }
  }

  lemma LeadingIsWritten(files: seq<FileDiff>, n: nat)
    requires DiffWritten(files) && n <= |files|
    ensures DiffWritten(files[..n])
  {
    LeadingLines(files, n);
    assert forall line :: line in RenderDiff(files[..n]) ==> line in RenderDiff(files);
    assert forall f :: f in files[..n] ==> f in files;
  }

  lemma FileAdds(r: Rules, files: seq<FileDiff>, i: nat)
    requires i < |files|
    ensures var f := files[i];
            && AttributedFiles(r, files[..i + 1]) == AttributedFiles(r, files[..i]) + AttributedHunks(r, Some(f.path), f.hunks)
            && TrueReports(r, files[..i + 1]) == TrueReports(r, files[..i]) + HunkReports(r, f.path, f.hunks)
  {
    assert files[..i + 1][..i] == files[..i];
  }

  lemma SameFronts(a: seq<Report>, x: seq<Report>, y: seq<Report>)
    ensures a + x == a + y <==> x == y
  {
    assert (a + x)[|a|..] == x && (a + y)[|a|..] == y;
  }

  /** When the files up to one are reported exactly, the next is too if and only if its lines are right. */
  lemma NextExact(files: seq<FileDiff>, i: nat)
    requires DiffWritten(files) && i < |files| && ExactTo(files, i)
    ensures ExactTo(files, i + 1) <==> FileRight(RULES, files[i])
  {
    var r, f := RULES, files[i];
    assert f in files;
    LeadingIsWritten(files, i);
    LeadingIsWritten(files, i + 1);
    ScanAttributes(files[..i]);
    ScanAttributes(files[..i + 1]);
    FileAdds(r, files, i);
    FileExact(r, f);
    SameFronts(TrueReports(r, files[..i]), AttributedHunks(r, Some(f.path), f.hunks), HunkReports(r, f.path, f.hunks));
  }

  lemma {:induction false} RightIsExact(files: seq<FileDiff>, n: nat)
    requires DiffWritten(files) && n <= |files| && forall i :: 0 <= i < n ==> FileRight(RULES, files[i])
    ensures ExactTo(files, n)
    decreases n
  {
    if n == 0 {
      assert files[..0] == [];
      LeadingIsWritten(files, 0);
      ScanAttributes(files[..0]);
    } else {
      RightIsExact(files, n - 1);
      NextExact(files, n - 1);
    }
  }

  /** For every zero-context diff, names among its added lines or not: the scanner reports exactly the governed
      plan lines, with their line numbers in the new file, of every leading part of the diff, if and only if
      every line of every file is right. So a diff whose lines are right is reported exactly. */
  lemma ScanIsExact(files: seq<FileDiff>)
    requires DiffWritten(files)
    ensures (forall n :: 0 <= n <= |files| ==> ExactTo(files, n)) <==> FilesRight(RULES, files)
    ensures FilesRight(RULES, files) ==> Reported(DiffText(files)) == TrueReports(RULES, files)
  {
    if FilesRight(RULES, files) {
      forall n | 0 <= n <= |files| ensures ExactTo(files, n) { RightIsExact(files, n); }
      assert files[..|files|] == files;
      assert ExactTo(files, |files|);
    }
    if forall n :: 0 <= n <= |files| ==> ExactTo(files, n) {
      forall i | 0 <= i < |files| ensures FileRight(RULES, files[i]) {
        assert ExactTo(files, i) && ExactTo(files, i + 1);
        NextExact(files, i);
      }
    }
  }

  /** A diff of one file is reported exactly if and only if its lines are right. */
  lemma OneFileExact(f: FileDiff)
    requires DiffWritten([f])
    ensures Reported(DiffText([f])) == TrueReports(RULES, [f]) <==> FileRight(RULES, f)
  {
    RightIsExact([f], 0);
    NextExact([f], 0);
    assert [f][..1] == [f];
  }

  // ── Diffs without names among their added lines ───────────────────────────────────────────

  predicate NamesNoFile(h: Hunk) {
    forall x :: x in h.added ==> !LooksLikeName(x)
  }

  predicate NoNames(files: seq<FileDiff>) {
    forall f :: f in files ==> forall h :: h in f.hunks ==> NamesNoFile(h)
  }

  lemma {:induction false} HeldStays(file: Option<string>, added: seq<string>)
    requires forall x :: x in added ==> !LooksLikeName(x)
    ensures Held(file, added) == file
    decreases |added|
  {
    if added != [] {
      assert added[|added| - 1] in added;
      HeldStays(file, added[..|added| - 1]);
    }
  }

  lemma {:induction false} AsManyLines(r: Rules, path: string, start: nat, added: seq<string>)
    requires path != "" && forall x :: x in added ==> !LooksLikeName(x)
    ensures |Attributed(r, Some(path), start, added)| == |PlanLines(r, path, start, added)|
    decreases |added|
  {
    if added != [] {
      AsManyLines(r, path, start, added[..|added| - 1]);
      HeldStays(Some(path), added[..|added| - 1]);
      if !r.governed(path) { NoPlanLines(r, path, start, added); }
    }
  }

  lemma {:induction false} AsManyReports(r: Rules, path: string, hunks: seq<Hunk>)
    requires path != "" && forall h :: h in hunks ==> NamesNoFile(h)
    ensures HeldBy(Some(path), hunks) == Some(path)
    ensures |AttributedHunks(r, Some(path), hunks)| == |HunkReports(r, path, hunks)|
    decreases |hunks|
  {
    if hunks != [] {
      var front, last := hunks[..|hunks| - 1], hunks[|hunks| - 1];
      assert last in hunks;
      AsManyReports(r, path, front);
      HeldStays(Some(path), last.added);
      AsManyLines(r, path, last.newStart, last.added);
    }
  }

  lemma {:induction false} FilesExact(r: Rules, files: seq<FileDiff>)
    requires NoNames(files) && forall f :: f in files ==> f.path != ""
    ensures |AttributedFiles(r, files)| == |TrueReports(r, files)|
    ensures AttributedFiles(r, files) == TrueReports(r, files) <==> FilesRight(r, files)
    decreases |files|
  {
    if files != [] {
      var front, f := files[..|files| - 1], files[|files| - 1];
      assert files == front + [f] && f in files;
      FilesExact(r, front);
      AsManyReports(r, f.path, f.hunks);
      FileExact(r, f);
      SameHalves(AttributedFiles(r, front), AttributedHunks(r, Some(f.path), f.hunks),
                 TrueReports(r, front), HunkReports(r, f.path, f.hunks));
    }
  }

  /** With no name among the added lines, a whole diff is reported exactly if and only if its lines are right. */
  lemma ScanIsExactWithoutNames(files: seq<FileDiff>)
    requires DiffWritten(files) && NoNames(files)
    ensures Reported(DiffText(files)) == TrueReports(RULES, files) <==> FilesRight(RULES, files)
  {
    var r := RULES;
    ScanAttributes(files);
    FilesExact(r, files);
  }

  lemma {:induction false} AllCounted(added: seq<string>)
    requires forall x :: x in added ==> !LooksLikeHeader(x)
    ensures Uncounted(added) == 0 && forall x :: x in added ==> !LooksLikeName(x)
    decreases |added|
  {
    forall x | x in added ensures !LooksLikeName(x) {
      if LooksLikeName(x) { NamesAreHeaders(x); }
    }
    if added != [] {
      assert added[|added| - 1] in added;
      AllCounted(added[..|added| - 1]);
    }
  }

  predicate NoHeaders(files: seq<FileDiff>) {
    forall f :: f in files ==> forall h :: h in f.hunks ==> forall x :: x in h.added ==> !LooksLikeHeader(x)
  }

  lemma PlainLinesRight(r: Rules, path: string, added: seq<string>)
    requires path != "" && forall x :: x in added ==> !LooksLikeHeader(x)
    ensures HunkRight(r, path, Some(path), added)
  {
    forall k | 0 <= k < |added| ensures LineRight(r, path, Some(path), added, k) {
      AllCounted(added[..k]);
      HeldStays(Some(path), added[..k]);
    }
  }

  lemma PlainFileRight(r: Rules, f: FileDiff)
    requires f.path != "" && forall h :: h in f.hunks ==> forall x :: x in h.added ==> !LooksLikeHeader(x)
    ensures FileRight(r, f)
  {
    forall i | 0 <= i < |f.hunks| ensures HunkRight(r, f.path, HeldBy(Some(f.path), f.hunks[..i]), f.hunks[i].added) {
      assert f.hunks[i] in f.hunks;
      forall h | h in f.hunks[..i] ensures NamesNoFile(h) { AllCounted(h.added); }
      AsManyReports(r, f.path, f.hunks[..i]);
      PlainLinesRight(r, f.path, f.hunks[i].added);
    }
  }

  /** In particular it is exact whenever no added line begins with "++". */
  lemma ScanReportsThePlanLines(files: seq<FileDiff>)
    requires DiffWritten(files) && NoHeaders(files)
    ensures FilesRight(RULES, files) && Reported(DiffText(files)) == TrueReports(RULES, files)
  {
    var r := RULES;
    forall i | 0 <= i < |files| ensures FileRight(r, files[i]) {
      assert files[i] in files;
      PlainFileRight(r, files[i]);
    }
    ScanIsExact(files);
  }

  // ── The failures happen ───────────────────────────────────────────────────────────────────

  /** A file with one hunk, which adds these two lines from line `start` on. */
  function TwoLineFile(path: string, start: nat, first: string, second: string): FileDiff {
    FileDiff([], true, "--- a/" + path, path, false, [Hunk("1", start, "", [], [first, second], false, false)])
  }

  lemma TwoLinesWritten(path: string, start: nat, first: string, second: string)
    requires Trimmed(path) && '\n' !in path && '\n' !in first && '\n' !in second
    ensures DiffWritten([TwoLineFile(path, start, first, second)])
  {
    var f := TwoLineFile(path, start, first, second);
    var h := f.hunks[0];
    assert f.oldName[..3] == "---";
    assert RenderHunks([h]) == [] + RenderHunk(h) by { assert [h][..0] == []; }
    assert RenderDiff([f]) == [] + RenderFile(f) by { assert [f][..0] == []; }
    assert Prefixed('-', h.removed) == [];
    DigitsHaveNoNewline(Decimal(h.newStart));
    forall x | x in RenderDiff([f]) ensures '\n' !in x {
      assert x == f.oldName || x == NewNameLine(f) || x == HeaderOf(h) || x in Prefixed('+', h.added);
    }
  }

  lemma DigitsHaveNoNewline(s: string)
    requires AllDigits(s)
    ensures '\n' !in s
  {
  }

  /** What the scanner is left with of such a file whose first line begins with "++", and what the file adds. */
  lemma TwoLinesReported(path: string, start: nat, first: string, second: string)
    requires Trimmed(path) && '\n' !in path && '\n' !in first && '\n' !in second
    requires LooksLikeHeader(first) && IsPlanLine(second)
    ensures var f := TwoLineFile(path, start, first, second);
            var held := if LooksLikeName(first) then Trim(first[5..]) else path;
            && DiffWritten([f])
            && TrueReports(RULES, [f]) == (if IsGovernedDoc(path) then [Report(path, start + 1)] else [])
            && Reported(DiffText([f])) == AttributedFiles(RULES, [f])
            && AttributedFiles(RULES, [f]) == (if held != "" && IsGovernedDoc(held) then [Report(held, start)] else [])
  {
    var f := TwoLineFile(path, start, first, second);
    TwoLinesWritten(path, start, first, second);
    ScanAttributes([f]);
    RulesAreSuch();
    TwoLinesLeft(RULES, f, f.hunks[0], first, second);
  }

  lemma TwoLinesLeft(r: Rules, f: FileDiff, h: Hunk, first: string, second: string)
    requires HeadersDontCount(r)
    requires f.hunks == [h] && h.added == [first, second] && LooksLikeHeader(first) && r.plan(second)
    ensures TrueReports(r, [f]) == if r.governed(f.path) then [Report(f.path, h.newStart + 1)] else []
    ensures var held := if LooksLikeName(first) then Trim(first[5..]) else f.path;
            AttributedFiles(r, [f]) == if held != "" && r.governed(held) then [Report(held, h.newStart)] else []
  {
    TwoLinesAttributed(r, f.path, h.newStart, first, second);
    OneHunk(r, f, h);
  }

  /** A diff of one file with one hunk. */
  lemma OneHunk(r: Rules, f: FileDiff, h: Hunk)
    requires f.hunks == [h]
    ensures AttributedFiles(r, [f]) == Attributed(r, Some(f.path), h.newStart, h.added)
    ensures TrueReports(r, [f]) == PlanLines(r, f.path, h.newStart, h.added)
  {
    assert [f][..0] == [] && [h][..0] == [];
    assert AttributedHunks(r, Some(f.path), [h]) == Attributed(r, Some(f.path), h.newStart, h.added);
    assert HunkReports(r, f.path, [h]) == PlanLines(r, f.path, h.newStart, h.added);
  }

  lemma TwoLinesAttributed(r: Rules, path: string, start: nat, first: string, second: string)
    requires HeadersDontCount(r) && LooksLikeHeader(first) && r.plan(second)
    ensures PlanLines(r, path, start, [first, second]) == if r.governed(path) then [Report(path, start + 1)] else []
    ensures var held := if LooksLikeName(first) then Trim(first[5..]) else path;
            Attributed(r, Some(path), start, [first, second]) ==
            if held != "" && r.governed(held) then [Report(held, start)] else []
  {
    var added := [first, second];
    assert added[..1] == [first] && added[..1][..0] == [];
    assert Attributed(r, Some(path), start, added[..1]) == [];
    assert PlanLines(r, path, start, added[..1]) == [];
    assert Uncounted(added[..1]) == 1;
  }

  /** Before any hunk header, lines count from 0. */
  lemma LinesCountFromZero(path: string, line: string)
    requires IsGovernedDoc(path) && Trimmed(path) && IsPlanLine(line)
    ensures ScanLines(RULES, NOTHING, ["+++ b/" + path, "+" + line]).reports == [Report(path, 0)]
  {
    var first := "++ b/" + path;
    assert "+" + first == "+++ b/" + path;
    NameLine(path);
    TwoLines(RULES, NOTHING, "+++ b/" + path, "+" + line);
    AddedScans(RULES, NOTHING, first);
    if LooksLikeHeader(line) { HeadersAreNoTasks(line); }
    if LooksLikeName(line) { NamesAreHeaders(line); }
    AddedScans(RULES, NOTHING.(file := Some(path)), line);
  }

  /** A "++" line shifts the number: for any governed document and plan line, such a diff is one the gate can be
      given, and it reports the plan line's number wrong. */
  lemma ShiftsTheNumber(path: string, start: nat, header: string, line: string)
    requires IsGovernedDoc(path) && Trimmed(path) && IsPlanLine(line)
    requires '\n' !in path && '\n' !in header && '\n' !in line && !LooksLikeName("++" + header)
    ensures var f := TwoLineFile(path, start, "++" + header, line);
            && DiffWritten([f])
            && Reported(DiffText([f])) == [Report(path, start)] && TrueReports(RULES, [f]) == [Report(path, start + 1)]
  {
    assert ("++" + header)[..2] == "++";
    TwoLinesReported(path, start, "++" + header, line);
  }

  lemma NameLine(named: string)
    requires Trimmed(named)
    ensures LooksLikeName("++ b/" + named) && LooksLikeHeader("++ b/" + named) && Trim(("++ b/" + named)[5..]) == named
  {
    var line := "++ b/" + named;
    assert line[..5] == "++ b/" && line[5..] == named;
    NamesAreHeaders(line);
    TrimKeeps(named);
  }

  /** A "++ b/" line hides what follows: a plan line added to a governed document, after a line that looks like the
      name of a document the gate does not govern, is not reported at all. */
  lemma HiddenPlanLine(path: string, start: nat, named: string, line: string)
    requires IsGovernedDoc(path) && !IsGovernedDoc(named) && Trimmed(path) && Trimmed(named) && IsPlanLine(line)
    requires '\n' !in path && '\n' !in named && '\n' !in line
    ensures var f := TwoLineFile(path, start, "++ b/" + named, line);
            DiffWritten([f]) && Reported(DiffText([f])) == [] && TrueReports(RULES, [f]) == [Report(path, start + 1)]
  {
    NameLine(named);
    TwoLinesReported(path, start, "++ b/" + named, line);
  }

  /** And it accuses: a plan line added to a document the gate does not govern is reported in the named one. */
  lemma NamedFileIsReported(path: string, start: nat, named: string, line: string)
    requires !IsGovernedDoc(path) && IsGovernedDoc(named) && Trimmed(path) && Trimmed(named) && IsPlanLine(line)
    requires '\n' !in path && '\n' !in named && '\n' !in line
    ensures var f := TwoLineFile(path, start, "++ b/" + named, line);
            DiffWritten([f]) && Reported(DiffText([f])) == [Report(named, start)] && TrueReports(RULES, [f]) == []
  {
    NameLine(named);
    TwoLinesReported(path, start, "++ b/" + named, line);
  }

  lemma OneMoreAttributed(r: Rules, front: seq<FileDiff>, g: FileDiff)
    ensures AttributedFiles(r, front + [g]) == AttributedFiles(r, front) + AttributedHunks(r, Some(g.path), g.hunks)
  {
    assert (front + [g])[..|front|] == front;
  }

  lemma OneMoreTrue(r: Rules, front: seq<FileDiff>, g: FileDiff)
    ensures TrueReports(r, front + [g]) == TrueReports(r, front) + HunkReports(r, g.path, g.hunks)
  {
    assert (front + [g])[..|front|] == front;
  }

  lemma OneMoreRendered(front: seq<FileDiff>, g: FileDiff)
    ensures RenderDiff(front + [g]) == RenderDiff(front) + RenderFile(g)
  {
    assert (front + [g])[..|front|] == front;
  }

  lemma TwoAttributed(r: Rules, f: FileDiff, g: FileDiff)
    ensures AttributedFiles(r, [f, g]) == AttributedFiles(r, [f]) + AttributedFiles(r, [g])
  {
    OneMoreAttributed(r, [], g);
    OneMoreAttributed(r, [f], g);
    assert [] + [g] == [g] && [f] + [g] == [f, g];
  }

  lemma TwoTrue(r: Rules, f: FileDiff, g: FileDiff)
    ensures TrueReports(r, [f, g]) == TrueReports(r, [f]) + TrueReports(r, [g])
  {
    OneMoreTrue(r, [], g);
    OneMoreTrue(r, [f], g);
    assert [] + [g] == [g] && [f] + [g] == [f, g];
  }

  /** Two files' wrong lines can make up for each other, so a whole diff can be reported exactly though neither of
      its files is: the first accuses the second document of the very line the second hides. */
  lemma WrongFilesCoincide(hidden: string, other: string, start: nat, line: string)
    requires IsGovernedDoc(hidden) && !IsGovernedDoc(other) && Trimmed(hidden) && Trimmed(other) && IsPlanLine(line)
    requires '\n' !in hidden && '\n' !in other && '\n' !in line
    ensures var f, g := TwoLineFile(other, start + 1, "++ b/" + hidden, line), TwoLineFile(hidden, start, "++ b/" + other, line);
            && DiffWritten([f, g]) && !FileRight(RULES, f) && !FileRight(RULES, g)
            && Reported(DiffText([f, g])) == TrueReports(RULES, [f, g]) == [Report(hidden, start + 1)]
  {
    var f, g := TwoLineFile(other, start + 1, "++ b/" + hidden, line), TwoLineFile(hidden, start, "++ b/" + other, line);
    NamedFileIsReported(other, start + 1, hidden, line);
    HiddenPlanLine(hidden, start, other, line);
    OneFileExact(f);
    OneFileExact(g);
    BothWritten(f, g);
    ScanAttributes([f]);
    ScanAttributes([g]);
    ScanAttributes([f, g]);
    TwoAttributed(RULES, f, g);
    TwoTrue(RULES, f, g);
  }

  lemma BothWritten(f: FileDiff, g: FileDiff)
    requires DiffWritten([f]) && DiffWritten([g])
    ensures DiffWritten([f, g])
  {
    OneMoreRendered([], g);
    OneMoreRendered([f], g);
    assert [] + [g] == [g] && [f] + [g] == [f, g];
    assert f in [f] && g in [g];
  }

  /** There are governed documents, others, and plan lines. */
  lemma SuchDocument()
    ensures IsGovernedDoc("docs/plan.md") && Trimmed("docs/plan.md")
    ensures !IsGovernedDoc("docs/plan.txt") && Trimmed("docs/plan.txt")
  {
    assert Slashes("docs/plan.md") == "docs/plan.md";
    var s := Slashes("docs/plan.txt");
    assert s[|s| - 3..][2] == 't';
  }

  lemma SuchTask()
    ensures IsTaskItem("- [ ] ship")
  {
    var s := "- [ ] ship";
    assert TrimStart(s) == s;
    assert s[1..] == " [ ] ship" && s[1..][1..] == "[ ] ship";
    assert TrimStart(s[1..]) == TrimStart("[ ] ship") == "[ ] ship";
  }

  lemma {:induction false} TooShort(s: string, part: string)
    requires |s| < |part|
    ensures !Includes(s, part)
    decreases |s|
  {
    if s != [] { TooShort(s[1..], part); }
  }

  lemma SuchLine()
    ensures IsPlanLine("- [ ] ship")
  {
    SuchTask();
    TooShort("- [ ] ship", "contribution-check-ignore");
  }

  lemma TwoLines(r: Rules, s: Scan, first: string, second: string)
    ensures ScanLines(r, s, [first, second]) == ScanLine(r, ScanLine(r, s, first), second)
  {
    assert [first, second][..1] == [first] && [first][..0] == [];
    assert ScanLines(r, s, [first]) == ScanLine(r, ScanLines(r, s, []), first);
  }

  // ── Which paths changed ───────────────────────────────────────────────────────────────────

  datatype Op = Create | Edit | Delete
  datatype OpOn = OpOn(op: Op, path: string)

  /** One line of a name-status diff. */
  datatype Change =
    | Added(path: string)
    | Modified(path: string)
    | Deleted(path: string)
    | Renamed(score: string, from: string, to: string)
    | Copied(score: string, from: string, to: string)

  function When(found: bool, op: Op, path: string): seq<OpOn> {
    if found then [OpOn(op, Trim(path))] else []
  }

  function PartsOps(parts: seq<string>): seq<OpOn>
    requires parts != []
  {
    var status := Trim(parts[0]);
    var first := if |parts| > 1 then parts[1] else "";
    var second := if |parts| > 2 then parts[2] else "";
    if status == "" then []
    else if status[0] == 'A' then When(first != "", Create, first)
    else if status[0] == 'M' then When(first != "", Edit, first)
    else if status[0] == 'D' then When(first != "", Delete, first)
    else if status[0] == 'R' then When(first != "", Delete, first) + When(second != "", Create, second)
    else if status[0] == 'C' then When(second != "", Create, second)
    else []
  }

  /** The status begins with this letter, and the field is there and not empty. */
  predicate Says(parts: seq<string>, letter: char, field: nat) {
    parts != [] && Trim(parts[0]) != [] && Trim(parts[0])[0] == letter && field < |parts| && parts[field] != ""
  }

  /** Which operations a line of any fields stands for; other statuses and missing paths stand for none. */
  lemma PartsExact(parts: seq<string>, path: string)
    requires parts != []
    ensures OpOn(Create, path) in PartsOps(parts) <==>
            || (Says(parts, 'A', 1) && path == Trim(parts[1]))
            || ((Says(parts, 'R', 2) || Says(parts, 'C', 2)) && path == Trim(parts[2]))
    ensures OpOn(Edit, path) in PartsOps(parts) <==> Says(parts, 'M', 1) && path == Trim(parts[1])
    ensures OpOn(Delete, path) in PartsOps(parts) <==> (Says(parts, 'D', 1) || Says(parts, 'R', 1)) && path == Trim(parts[1])
    ensures |PartsOps(parts)| <= 2 && (|PartsOps(parts)| == 2 ==> PartsOps(parts)[0].op == Delete)
  {
  }

  function LineOps(line: string): seq<OpOn> {
    if Trim(line) == "" then [] else PartsOps(Split(line, '\t'))
  }

  function LinesOps(lines: seq<string>): seq<OpOn> {
    if lines == [] then [] else LinesOps(lines[..|lines| - 1]) + LineOps(lines[|lines| - 1])
  }

  /** The operations of a name-status diff. */
  method ClassifyChanges(text: string) returns (ops: seq<OpOn>)
    ensures ops == LinesOps(Split(text, '\n'))
  {
    var lines := Split(text, '\n');
    ops := [];
    for i := 0 to |lines|
      invariant ops == LinesOps(lines[..i])
    {
      assert lines[..i + 1][..i] == lines[..i];
      ops := ops + LineOps(lines[i]);
    }
    assert lines[..|lines|] == lines;
  }

  /** A path git writes as it is, and a score. */
  predicate PlainPath(path: string) { Trimmed(path) && '\t' !in path && '\n' !in path }

  predicate PlainScore(score: string) { score == "" || (!IsSpace(score[|score| - 1]) && '\t' !in score && '\n' !in score) }

  predicate ChangeWritten(c: Change) {
    match c
    case Added(path) => PlainPath(path)
    case Modified(path) => PlainPath(path)
    case Deleted(path) => PlainPath(path)
    case Renamed(score, from, to) => PlainScore(score) && PlainPath(from) && PlainPath(to)
    case Copied(score, from, to) => PlainScore(score) && PlainPath(from) && PlainPath(to)
  }

  function Fields(c: Change): (r: seq<string>)
    ensures r != []
  {
    match c
    case Added(path) => ["A", path]
    case Modified(path) => ["M", path]
    case Deleted(path) => ["D", path]
    case Renamed(score, from, to) => ["R" + score, from, to]
    case Copied(score, from, to) => ["C" + score, from, to]
  }

  /** What a change does: a rename deletes the old path and creates the new one; a copy creates. */
  function OpsOf(c: Change): seq<OpOn> {
    match c
    case Added(path) => [OpOn(Create, path)]
    case Modified(path) => [OpOn(Edit, path)]
    case Deleted(path) => [OpOn(Delete, path)]
    case Renamed(_, from, to) => [OpOn(Delete, from), OpOn(Create, to)]
    case Copied(_, _, to) => [OpOn(Create, to)]
  }

  function AllOps(changes: seq<Change>): seq<OpOn> {
    if changes == [] then [] else AllOps(changes[..|changes| - 1]) + OpsOf(changes[|changes| - 1])
  }

  function LineOf(c: Change): string { JoinWith(Fields(c), '\t') }

  function LinesOf(changes: seq<Change>): (r: seq<string>)
    ensures |r| == |changes| && forall i :: 0 <= i < |r| ==> r[i] == LineOf(changes[i])
  {
    seq(|changes|, i requires 0 <= i < |changes| => LineOf(changes[i]))
  }

  lemma StatusTrims(code: char, score: string)
    requires !IsSpace(code) && PlainScore(score)
    ensures Trim([code] + score) == [code] + score && ([code] + score)[0] == code
  {
    var s := [code] + score;
    assert s[|s| - 1] == if score == "" then code else score[|score| - 1];
    assert Trimmed(s);
    TrimKeeps(s);
  }

  lemma OnePathRead(status: string, path: string)
    requires status != "" && Trim(status) == status && path != "" && Trim(path) == path
    ensures PartsOps([status, path]) ==
            if status[0] == 'A' then [OpOn(Create, path)]
            else if status[0] == 'M' then [OpOn(Edit, path)]
            else if status[0] == 'D' || status[0] == 'R' then [OpOn(Delete, path)]
            else []
  {
  }

  lemma TwoPathsRead(status: string, from: string, to: string)
    requires status != "" && Trim(status) == status && from != "" && Trim(from) == from && to != "" && Trim(to) == to
    ensures status[0] == 'R' ==> PartsOps([status, from, to]) == [OpOn(Delete, from), OpOn(Create, to)]
    ensures status[0] == 'C' ==> PartsOps([status, from, to]) == [OpOn(Create, to)]
  {
  }

  /** The status a line opens with, and its paths, as they are read. */
  lemma PartsAreRead(c: Change)
    requires ChangeWritten(c)
    ensures PartsOps(Fields(c)) == OpsOf(c)
  {
    var status := Fields(c)[0];
    var score := if c.Renamed? || c.Copied? then c.score else "";
    assert status == [status[0]] + score;
    StatusTrims(status[0], score);
    if c.Renamed? || c.Copied? {
      TrimKeeps(c.from);
      TrimKeeps(c.to);
      TwoPathsRead(status, c.from, c.to);
    } else {
      TrimKeeps(c.path);
      OnePathRead(status, c.path);
    }
  }

  lemma FieldsWritten(c: Change)
    requires ChangeWritten(c)
    ensures forall f :: f in Fields(c) ==> '\t' !in f && '\n' !in f
    ensures Fields(c)[0] != "" && !IsSpace(Fields(c)[0][0])
  {
  }

  lemma LineIsRead(c: Change)
    requires ChangeWritten(c)
    ensures '\n' !in LineOf(c) && LineOps(LineOf(c)) == OpsOf(c)
  {
    FieldsWritten(c);
    PartsAreRead(c);
    SplitsBack(Fields(c));
  }

  lemma SplitsBack(fields: seq<string>)
    requires fields != [] && (forall f :: f in fields ==> '\t' !in f && '\n' !in f)
    requires fields[0] != "" && !IsSpace(fields[0][0])
    ensures var line := JoinWith(fields, '\t');
            '\n' !in line && Trim(line) != "" && Split(line, '\t') == fields
  {
    SplitsJoined(fields, '\t');
    JoinedHasNo(fields, '\t', '\n');
    JoinedStarts(fields, '\t');
    NotBlank(JoinWith(fields, '\t'));
  }

  lemma {:induction false} JoinedHasNo(parts: seq<string>, c: char, d: char)
    requires parts != [] && c != d && forall p :: p in parts ==> d !in p
    ensures d !in JoinWith(parts, c)
    decreases |parts|
  {
    assert parts[0] in parts;
    if |parts| > 1 { JoinedHasNo(parts[1..], c, d); }
  }

  lemma JoinedStarts(parts: seq<string>, c: char)
    requires parts != [] && parts[0] != ""
    ensures JoinWith(parts, c) != "" && JoinWith(parts, c)[0] == parts[0][0]
  {
  }

  lemma {:induction false} NotBlank(s: string)
    requires s != "" && !IsSpace(s[0])
    ensures Trim(s) != ""
  {
    EndKeepsStart(s);
  }

  lemma {:induction false} EndKeepsStart(s: string)
    requires s != "" && !IsSpace(s[0])
    ensures TrimEnd(s) != ""
    decreases |s|
  {
    if IsSpace(s[|s| - 1]) { EndKeepsStart(s[..|s| - 1]); }
  }

  /** Reading a name-status diff gives each change's operations, in order. */
  lemma {:induction false} ChangesAreRead(changes: seq<Change>)
    requires forall c :: c in changes ==> ChangeWritten(c)
    ensures LinesOps(LinesOf(changes)) == AllOps(changes)
    decreases |changes|
  {
    if changes == [] {
      NoneIsRead();
    } else {
      var front, last := changes[..|changes| - 1], changes[|changes| - 1];
      assert last in changes;
      ChangesAreRead(front);
      NextIsRead(front, last);
      assert front + [last] == changes;
    }
  }

  lemma NoneIsRead()
    ensures LinesOps(LinesOf([])) == AllOps([])
  {
  }

  lemma NextIsRead(front: seq<Change>, last: Change)
    requires LinesOps(LinesOf(front)) == AllOps(front) && ChangeWritten(last)
    ensures LinesOps(LinesOf(front + [last])) == AllOps(front + [last])
  {
    LineIsRead(last);
    LinesOfJoin(front, last);
    OneMoreRead(LinesOf(front), LineOf(last), front, last);
  }

  lemma OneMoreRead(lines: seq<string>, line: string, front: seq<Change>, last: Change)
    requires LinesOps(lines) == AllOps(front) && LineOps(line) == OpsOf(last)
    ensures LinesOps(lines + [line]) == AllOps(front + [last])
  {
    assert (lines + [line])[..|lines|] == lines;
    assert (front + [last])[..|front|] == front;
  }

  lemma LinesOfJoin(front: seq<Change>, last: Change)
    ensures LinesOf(front + [last]) == LinesOf(front) + [LineOf(last)]
  {
  }

  lemma TextIsRead(changes: seq<Change>)
    requires forall c :: c in changes ==> ChangeWritten(c)
    ensures LinesOps(Split(JoinWith(LinesOf(changes) + [""], '\n'), '\n')) == AllOps(changes)
  {
    var lines := LinesOf(changes) + [""];
    forall line | line in lines ensures '\n' !in line {
      var i :| 0 <= i < |lines| && lines[i] == line;
      if i < |changes| {
        assert changes[i] in changes;
        LineIsRead(changes[i]);
      }
    }
    SplitsJoined(lines, '\n');
    ChangesAreRead(changes);
    assert lines[..|lines| - 1] == LinesOf(changes);
  }

  // ── From the base's paths to the head's ───────────────────────────────────────────────────

  /** The operations carried out one after the other on a set of paths. */
  function Apply(ops: seq<OpOn>, base: set<string>): set<string> {
    if ops == [] then base
    else
      var before := Apply(ops[..|ops| - 1], base);
      var last := ops[|ops| - 1];
      match last.op
      case Create => before + {last.path}
      case Edit => before
      case Delete => before - {last.path}
  }

  predicate Touched(ops: seq<OpOn>, op: Op, path: string) { OpOn(op, path) in ops }

  /** The last of a path's creates and deletes. */
  function LastOp(ops: seq<OpOn>, path: string): Option<Op> {
    if ops == [] then None
    else
      var last := ops[|ops| - 1];
      if last.path == path && last.op != Edit then Some(last.op) else LastOp(ops[..|ops| - 1], path)
  }

  lemma {:induction false} LastDecides(ops: seq<OpOn>, base: set<string>, path: string)
    ensures path in Apply(ops, base) <==> LastOp(ops, path) == Some(Create) || (LastOp(ops, path) == None && path in base)
    ensures LastOp(ops, path) == None <==> !Touched(ops, Create, path) && !Touched(ops, Delete, path)
    ensures LastOp(ops, path).Some? ==> Touched(ops, LastOp(ops, path).value, path)
    decreases |ops|
  {
    if ops != [] {
      var n := |ops| - 1;
      assert ops == ops[..n] + [ops[n]];
      LastDecides(ops[..n], base, path);
    }
  }

  /** What the head holds: the base less what was deleted or renamed away, and what was added, renamed or
      copied to. */
  ghost predicate IsHead(base: set<string>, ops: seq<OpOn>, head: set<string>) {
    forall path :: path in head <==> Touched(ops, Create, path) || (path in base && !Touched(ops, Delete, path))
  }

  /** Carrying out a diff's creates and deletes in its order gives the head's paths exactly when no path is
      created by one of its lines and deleted by a later one (as a swap of two names would have it). */
  lemma OpsGiveTheHead(base: set<string>, changes: seq<Change>, head: set<string>)
    requires IsHead(base, AllOps(changes), head)
    ensures Apply(AllOps(changes), base) == head <==>
              forall path :: Touched(AllOps(changes), Create, path) ==> LastOp(AllOps(changes), path) == Some(Create)
  {
    var ops := AllOps(changes);
    forall path: string
      ensures path in Apply(ops, base) <==> LastOp(ops, path) == Some(Create) || (LastOp(ops, path) == None && path in base)
      ensures LastOp(ops, path) == None <==> !Touched(ops, Create, path) && !Touched(ops, Delete, path)
      ensures LastOp(ops, path).Some? ==> Touched(ops, LastOp(ops, path).value, path)
      ensures LastOp(ops, path) == None || LastOp(ops, path) == Some(Create) || LastOp(ops, path) == Some(Delete)
    {
      LastDecides(ops, base, path);
      NeverEdit(ops, path);
    }
  }

  lemma {:induction false} NeverEdit(ops: seq<OpOn>, path: string)
    ensures LastOp(ops, path) == None || LastOp(ops, path) == Some(Create) || LastOp(ops, path) == Some(Delete)
    decreases |ops|
  {
    if ops != [] { NeverEdit(ops[..|ops| - 1], path); }
  }

  /** What git's diff of two trees says of one path it names: added and copied-to paths are only in the head,
      deleted and renamed-from ones only in the base, modified ones in both. */
  predicate SaysTrue(base: set<string>, head: set<string>, c: Change) {
    match c
    case Added(path) => path !in base && path in head
    case Modified(path) => path in base && path in head
    case Deleted(path) => path in base && path !in head
    case Renamed(_, from, to) => from in base && from !in head && to !in base && to in head
    case Copied(_, _, to) => to !in base && to in head
  }

  /** Every line of the diff is true, and every path in only one of the trees has its line. */
  ghost predicate GitDiff(base: set<string>, head: set<string>, changes: seq<Change>) {
    && (forall c :: c in changes ==> SaysTrue(base, head, c))
    && (forall path :: path in head && path !in base ==> Touched(AllOps(changes), Create, path))
    && (forall path :: path in base && path !in head ==> Touched(AllOps(changes), Delete, path))
  }

  lemma {:induction false} OpsAreTrue(base: set<string>, head: set<string>, changes: seq<Change>, path: string)
    requires forall c :: c in changes ==> SaysTrue(base, head, c)
    ensures Touched(AllOps(changes), Create, path) ==> path !in base && path in head
    ensures Touched(AllOps(changes), Delete, path) ==> path in base && path !in head
    decreases |changes|
  {
    if changes != [] {
      var front, last := changes[..|changes| - 1], changes[|changes| - 1];
      assert last in changes && SaysTrue(base, head, last);
      OpsAreTrue(base, head, front, path);
      OpsOfIsTrue(base, head, last, path);
      assert forall op :: Touched(AllOps(changes), op, path) <==> Touched(AllOps(front), op, path) || Touched(OpsOf(last), op, path);
    }
  }

  lemma OpsOfIsTrue(base: set<string>, head: set<string>, c: Change, path: string)
    requires SaysTrue(base, head, c)
    ensures Touched(OpsOf(c), Create, path) ==> path !in base && path in head
    ensures Touched(OpsOf(c), Delete, path) ==> path in base && path !in head
  {
  }

  /** For every diff git writes of two trees: carrying out the gate's creates and deletes, in their order, on
      the base's paths gives exactly the head's. */
  lemma GitDiffGivesTheHead(base: set<string>, head: set<string>, changes: seq<Change>)
    requires GitDiff(base, head, changes)
    ensures Apply(AllOps(changes), base) == head
  {
    var ops := AllOps(changes);
    forall path: string ensures path in Apply(ops, base) <==> path in head {
      LastDecides(ops, base, path);
      NeverEdit(ops, path);
      OpsAreTrue(base, head, changes, path);
    }
  }

  // ── Who may ───────────────────────────────────────────────────────────────────────────────

  datatype Grant = Grant(create: seq<string>, edit: seq<string>, delete: seq<string>, all: seq<string>)

  /** The members of the policy's `users`: a login, and a grant where the value is an object. */
  type Users = seq<(string, Option<Grant>)>

  predicate IsGrantFor(user: (string, Option<Grant>), key: string) {
    !StartsWith(user.0, "//") && user.1.Some? && LowerAscii(user.0) == key
  }

  /** The last grant written for a login. */
  function GrantOf(users: Users, key: string): Option<Grant> {
    if users == [] then None
    else if IsGrantFor(users[|users| - 1], key) then users[|users| - 1].1
    else GrantOf(users[..|users| - 1], key)
  }

  /** parsePolicy's map, filled one member at a time. */
  method ParsePolicy(users: Users) returns (policy: map<string, Grant>)
    ensures forall key :: if key in policy then GrantOf(users, key) == Some(policy[key]) else GrantOf(users, key) == None
  {
    policy := map[];
    for i := 0 to |users|
      invariant forall key :: if key in policy then GrantOf(users[..i], key) == Some(policy[key]) else GrantOf(users[..i], key) == None
    {
      assert users[..i + 1][..i] == users[..i];
      var (login, grant) := users[i];
      if !StartsWith(login, "//") && grant.Some? {
        policy := policy[LowerAscii(login) := grant.value];
      }
    }
    assert users[..|users|] == users;
  }

  function Globs(grant: Option<Grant>, op: Op): seq<string> {
    if grant.None? then []
    else
      (match op
       case Create => grant.value.create
       case Edit => grant.value.edit
       case Delete => grant.value.delete) + grant.value.all
  }

  function Lookup(policy: map<string, Grant>, key: string): Option<Grant> {
    if key in policy then Some(policy[key]) else None
  }

  function EffectiveGlobs(policy: map<string, Grant>, user: string, op: Op): seq<string> {
    Globs(Lookup(policy, LowerAscii(user)), op) + Globs(Lookup(policy, "*"), op)
  }

  /** Some effective glob matches the path; how a glob matches is a parameter. */
  method IsPermitted(policy: map<string, Grant>, user: string, op: Op, path: string, matches: (string,
                     string) -> bool) returns (r: bool)
    ensures r <==> Permitted(policy, user, op, path, matches)
  {
    var globs := EffectiveGlobs(policy, user, op);
    for i := 0 to |globs|
      invariant forall k :: 0 <= k < i ==> !matches(globs[k], Slashes(path))
    {
      if matches(globs[i], Slashes(path)) {
        assert globs[i] in globs;
        return true;
      }
    }
    return false;
  }

  /** A grant of this operation, or of all, to this login or to everyone, has a glob that matches. */
  predicate GrantCovers(grant: Option<Grant>, op: Op, path: string, matches: (string, string) -> bool) {
    exists glob :: glob in Globs(grant, op) && matches(glob, Slashes(path))
  }

  predicate Permitted(policy: map<string, Grant>, user: string, op: Op, path: string, matches: (string, string) -> bool) {
    exists glob :: glob in EffectiveGlobs(policy, user, op) && matches(glob, Slashes(path))
  }

  /** One of these globs matches the path. */
  predicate Matches(globs: seq<string>, path: string, matches: (string, string) -> bool) {
    exists glob :: glob in globs && matches(glob, Slashes(path))
  }

  /** A key a user's permission is looked up under. */
  predicate IsKeyOf(policy: map<string, Grant>, user: string, key: string) {
    (key == LowerAscii(user) || key == "*") && key in policy
  }

  lemma PermittedUnder(policy: map<string, Grant>, user: string, op: Op, path: string, matches: (string, string) -> bool)
    ensures Permitted(policy, user, op, path, matches) <==>
            exists key :: IsKeyOf(policy, user, key) && GrantCovers(Some(policy[key]), op, path, matches)
  {
    var own, everyone := Lookup(policy, LowerAscii(user)), Lookup(policy, "*");
    assert forall glob :: glob in Globs(own, op) + Globs(everyone, op) <==> glob in Globs(own, op) || glob in Globs(everyone, op);
    assert Permitted(policy, user, op, path, matches) <==>
           GrantCovers(own, op, path, matches) || GrantCovers(everyone, op, path, matches);
    if GrantCovers(own, op, path, matches) {
      assert IsKeyOf(policy, user, LowerAscii(user)) && own == Some(policy[LowerAscii(user)]);
    }
    if GrantCovers(everyone, op, path, matches) {
      assert IsKeyOf(policy, user, "*") && everyone == Some(policy["*"]);
    }
  }

  lemma CoversExact(grant: Grant, op: Op, path: string, matches: (string, string) -> bool)
    ensures var own := match op
                       case Create => grant.create
                       case Edit => grant.edit
                       case Delete => grant.delete;
            GrantCovers(Some(grant), op, path, matches) <==> Matches(own, path, matches) || Matches(grant.all, path, matches)
  {
    var own := match op
               case Create => grant.create
               case Edit => grant.edit
               case Delete => grant.delete;
    assert forall glob :: glob in own + grant.all <==> glob in own || glob in grant.all;
    assert Globs(Some(grant), op) == own + grant.all;
  }

  /** Who may do what: an operation is permitted exactly when a glob of that operation's list, or of the list for all,
      in the login's grant or everyone's, matches the path. */
  lemma PermittedExact(policy: map<string, Grant>, user: string, path: string, matches: (string, string) -> bool)
    ensures Permitted(policy, user, Create, path, matches) <==>
            exists key :: IsKeyOf(policy, user, key) &&
                          (Matches(policy[key].create, path, matches) || Matches(policy[key].all, path, matches))
    ensures Permitted(policy, user, Edit, path, matches) <==>
            exists key :: IsKeyOf(policy, user, key) &&
                          (Matches(policy[key].edit, path, matches) || Matches(policy[key].all, path, matches))
    ensures Permitted(policy, user, Delete, path, matches) <==>
            exists key :: IsKeyOf(policy, user, key) &&
                          (Matches(policy[key].delete, path, matches) || Matches(policy[key].all, path, matches))
  {
    PermittedUnder(policy, user, Create, path, matches);
    PermittedUnder(policy, user, Edit, path, matches);
    PermittedUnder(policy, user, Delete, path, matches);
    forall key | IsKeyOf(policy, user, key)
      ensures GrantCovers(Some(policy[key]), Create, path, matches) <==>
              Matches(policy[key].create, path, matches) || Matches(policy[key].all, path, matches)
      ensures GrantCovers(Some(policy[key]), Edit, path, matches) <==>
              Matches(policy[key].edit, path, matches) || Matches(policy[key].all, path, matches)
      ensures GrantCovers(Some(policy[key]), Delete, path, matches) <==>
              Matches(policy[key].delete, path, matches) || Matches(policy[key].all, path, matches)
    {
      CoversExact(policy[key], Create, path, matches);
      CoversExact(policy[key], Edit, path, matches);
      CoversExact(policy[key], Delete, path, matches);
    }
  }

  /** Grants of the other operations alone permit nothing, whatever globs match. */
  lemma OtherGrantsPermitNothing(policy: map<string, Grant>, user: string, path: string, matches: (string, string) -> bool)
    requires forall key :: IsKeyOf(policy, user, key) ==> policy[key].all == []
    ensures (forall key :: IsKeyOf(policy, user, key) ==> policy[key].create == []) ==>
              !Permitted(policy, user, Create, path, matches)
    ensures (forall key :: IsKeyOf(policy, user, key) ==> policy[key].edit == []) ==>
              !Permitted(policy, user, Edit, path, matches)
    ensures (forall key :: IsKeyOf(policy, user, key) ==> policy[key].delete == []) ==>
              !Permitted(policy, user, Delete, path, matches)
  {
    PermittedExact(policy, user, path, matches);
  }

  /** Permission is the base's alone and deny by default: it comes from what the committed policy last says of
      this login, in any case, or of everyone. */
  lemma PermittedByTheBase(users: Users, policy: map<string, Grant>, user: string, op: Op, path: string, matches: (string,
                           string) -> bool)
    requires forall key :: if key in policy then GrantOf(users, key) == Some(policy[key]) else GrantOf(users, key) == None
    ensures Permitted(policy, user, op, path, matches) <==>
              GrantCovers(GrantOf(users, LowerAscii(user)), op, path, matches) || GrantCovers(GrantOf(users, "*"), op, path, matches)
    ensures forall other :: LowerAscii(other) == LowerAscii(user) ==>
              (Permitted(policy, other, op, path, matches) <==> Permitted(policy, user, op, path, matches))
    ensures (forall u :: u in users ==> u.1.None? || StartsWith(u.0, "//")) ==> !Permitted(policy, user, op, path, matches)
  {
    assert forall key :: Lookup(policy, key) == GrantOf(users, key);
    var own, everyone := Globs(GrantOf(users, LowerAscii(user)), op), Globs(GrantOf(users, "*"), op);
    assert EffectiveGlobs(policy, user, op) == own + everyone;
    assert forall glob :: glob in own + everyone <==> glob in own || glob in everyone;
    if forall u :: u in users ==> u.1.None? || StartsWith(u.0, "//") {
      NoGrants(users, LowerAscii(user));
      NoGrants(users, "*");
    }
  }

  lemma {:induction false} NoGrants(users: Users, key: string)
    requires forall u :: u in users ==> u.1.None? || StartsWith(u.0, "//")
    ensures GrantOf(users, key) == None
    decreases |users|
  {
    if users != [] {
      assert users[|users| - 1] in users;
      NoGrants(users[..|users| - 1], key);
    }
  }

  datatype Violation = NotPermitted(op: Op, path: string) | PlanState(report: Report)

  ghost predicate AllPermitted(policy: map<string, Grant>, author: string, ops: seq<OpOn>, matches: (string, string) -> bool) {
    forall o :: o in ops ==> Permitted(policy, author, o.op, o.path, matches)
  }

  /** The violations of these operations: those that are not permitted, in their order. */
  ghost function Denied(policy: map<string, Grant>, author: string, ops: seq<OpOn>, matches: (string, string) -> bool)
    : (r: seq<Violation>)
    ensures r == [] <==> AllPermitted(policy, author, ops, matches)
  {
    if ops == [] then []
    else
      var front, last := ops[..|ops| - 1], ops[|ops| - 1];
      assert ops == front + [last];
      if Permitted(policy, author, last.op, last.path, matches) then Denied(policy, author, front, matches)
      else Denied(policy, author, front, matches) + [NotPermitted(last.op, last.path)]
  }

  function PlanStates(reports: seq<Report>): (r: seq<Violation>)
    ensures |r| == |reports| && forall i :: 0 <= i < |r| ==> r[i] == PlanState(reports[i])
  {
    seq(|reports|, i requires 0 <= i < |reports| => PlanState(reports[i]))
  }

  /** Each operation checked against the policy. */
  method CheckOps(policy: map<string, Grant>, author: string, ops: seq<OpOn>, matches: (string, string) -> bool)
    returns (violations: seq<Violation>)
    ensures violations == Denied(policy, author, ops, matches)
  {
    violations := [];
    for i := 0 to |ops|
      invariant violations == Denied(policy, author, ops[..i], matches)
    {
      var permitted := IsPermitted(policy, author, ops[i].op, ops[i].path, matches);
      if !permitted { violations := violations + [NotPermitted(ops[i].op, ops[i].path)]; }
      assert ops[..i + 1][..i] == ops[..i];
    }
    assert ops[..|ops|] == ops;
  }

  /** What the gate finds of a pull request. */
  ghost function Found(policy: map<string, Grant>, author: string, nameStatus: string, docsDiff: Option<string>,
                       matches: (string, string) -> bool): seq<Violation> {
    Denied(policy, author, LinesOps(Split(nameStatus, '\n')), matches)
    + if docsDiff.Some? then PlanStates(Reported(docsDiff.value)) else []
  }

  /** Nothing is found exactly when every operation is permitted and no line is reported; in a diff whose lines are
      right, no line is reported exactly when no governed plan line is added. */
  lemma FoundExact(policy: map<string, Grant>, author: string, nameStatus: string, docsDiff: Option<string>,
                   matches: (string, string) -> bool, files: seq<FileDiff>)
    ensures Found(policy, author, nameStatus, docsDiff, matches) == [] <==>
              && AllPermitted(policy, author, LinesOps(Split(nameStatus, '\n')), matches)
              && (docsDiff.Some? ==> Reported(docsDiff.value) == [])
    ensures docsDiff == Some(DiffText(files)) && DiffWritten(files) && FilesRight(RULES, files) ==>
              (Found(policy, author, nameStatus, docsDiff, matches) == [] <==>
                && AllPermitted(policy, author, LinesOps(Split(nameStatus, '\n')), matches)
                && TrueReports(RULES, files) == [])
  {
    if DiffWritten(files) && FilesRight(RULES, files) { ScanIsExact(files); }
  }

  /** The gate: each operation not permitted, then each plan line; it passes when there is neither. */
  method Gate(policy: map<string, Grant>, author: string, nameStatus: string, docsDiff: Option<string>, matches: (string,
              string) -> bool)
    returns (violations: seq<Violation>)
    ensures violations == Found(policy, author, nameStatus, docsDiff, matches)
    ensures forall files :: docsDiff == Some(DiffText(files)) && DiffWritten(files) && FilesRight(RULES, files) ==>
              (violations == [] <==>
                && AllPermitted(policy, author, LinesOps(Split(nameStatus, '\n')), matches)
                && TrueReports(RULES, files) == [])
  {
    forall files | docsDiff == Some(DiffText(files)) && DiffWritten(files) && FilesRight(RULES, files)
      ensures Found(policy, author, nameStatus, docsDiff, matches) == [] <==>
                && AllPermitted(policy, author, LinesOps(Split(nameStatus, '\n')), matches)
                && TrueReports(RULES, files) == []
    {
      FoundExact(policy, author, nameStatus, docsDiff, matches, files);
    }
    var ops := ClassifyChanges(nameStatus);
    violations := CheckOps(policy, author, ops, matches);
    if docsDiff.Some? {
      var reports := ScanDiff(docsDiff.value);
      violations := AddPlanStates(violations, reports);
    }
  }

  method AddPlanStates(denied: seq<Violation>, reports: seq<Report>) returns (violations: seq<Violation>)
    ensures violations == denied + PlanStates(reports)
  {
    violations := denied;
    for i := 0 to |reports|
      invariant violations == denied + PlanStates(reports)[..i]
    {
      violations := violations + [PlanState(reports[i])];
    }
  }
}
