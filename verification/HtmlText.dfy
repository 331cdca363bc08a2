/** Character references, as the page reader decodes them (scripts/build-smart-contract-risks-data.ts).
    Strings are UTF-16 code units. */
module HtmlText {
  import opened Wrappers
  import opened Digits

  type Units = seq<int>

  function U(s: string): (r: Units)
    ensures |r| == |s| && forall i :: 0 <= i < |r| ==> r[i] == s[i] as int
  {
    seq(|s|, i requires 0 <= i < |s| => s[i] as int)
  }

  const AMP: int := '&' as int
  const SEMICOLON: int := ';' as int

  datatype Error =
    | UnknownReference(name: Units)
    | NoSuchCodePoint(code: nat)
    | Mismatched(close: Units, open: Units)
    | Unclosed(open: Units)

  // ── Character classes ─────────────────────────────────────────────────────────────────────

  predicate IsDigit(u: int) { '0' as int <= u <= '9' as int }

  predicate IsLetter(u: int) { 'a' as int <= u <= 'z' as int || 'A' as int <= u <= 'Z' as int }

  predicate IsHex(u: int) { IsDigit(u) || 'a' as int <= u <= 'f' as int || 'A' as int <= u <= 'F' as int }

  function HexValue(u: int): (r: nat)
    requires IsHex(u)
    ensures r < 16
  {
    if IsDigit(u) then u - '0' as int
    else if u >= 'a' as int then u - 'a' as int + 10
    else u - 'A' as int + 10
  }

  function HexValues(s: Units): (r: seq<nat>)
    requires forall u :: u in s ==> IsHex(u)
    ensures |r| == |s| && forall i :: 0 <= i < |r| ==> r[i] == HexValue(s[i])
  {
    seq(|s|, i requires 0 <= i < |s| => HexValue(s[i]))
  }

  // ── References ────────────────────────────────────────────────────────────────────────────

  /** What stands between the ampersand and the semicolon of a reference. */
  datatype Body = Hex(digits: Units) | Decimal(digits: Units) | Name(name: Units)

  /** The three forms the reference pattern takes; any other text is no reference. */
  function BodyOf(s: Units): Option<Body> {
    if |s| >= 3 && s[0] == '#' as int && (s[1] == 'x' as int || s[1] == 'X' as int) && (forall u :: u in s[2..] ==> IsHex(u))
    then Some(Hex(s[2..]))
    else if |s| >= 2 && s[0] == '#' as int && (forall u :: u in s[1..] ==> IsDigit(u))
    then Some(Decimal(s[1..]))
    else if |s| >= 1 && (forall u :: u in s ==> IsLetter(u))
    then Some(Name(s))
    else None
  }

  /** The reference table: each name and the one unit it stands for. */
  const NAMED: seq<(string, int)> := [
    ("amp", 0x26), ("lt", 0x3C), ("gt", 0x3E), ("quot", 0x22), ("apos", 0x27), ("nbsp", 0xA0),
    ("rsquo", 0x2019), ("lsquo", 0x2018), ("ldquo", 0x201C), ("rdquo", 0x201D),
    ("rarr", 0x2192), ("larr", 0x2190), ("ndash", 0x2013), ("mdash", 0x2014),
    ("cent", 0xA2), ("middot", 0xB7), ("hellip", 0x2026), ("times", 0xD7)]

  /** The table is an object, so these names are found on its prototype: the reference reads as a function,
      and the function's text takes its place. */
  const INHERITED: seq<(string, string)> := [
    ("constructor", "Object"), ("toString", "toString"), ("valueOf", "valueOf"), ("hasOwnProperty", "hasOwnProperty"),
    ("isPrototypeOf", "isPrototypeOf"), ("propertyIsEnumerable", "propertyIsEnumerable"), ("toLocaleString", "toLocaleString")]

  function FindNamed(name: Units, table: seq<(string, int)>): Option<Units> {
    if table == [] then None
    else if U(table[0].0) == name then Some([table[0].1])
    else FindNamed(name, table[1..])
  }

  function NativeText(name: string): Units {
    U("function " + name + "() {\n    [native code]\n}")
  }

  function FindInherited(name: Units, table: seq<(string, string)>): Option<Units> {
    if table == [] then None
    else if U(table[0].0) == name then Some(NativeText(table[0].1))
    else FindInherited(name, table[1..])
  }

  /** String.fromCodePoint: one unit, or a surrogate pair above the first plane. */
  function FromCodePoint(code: nat): Option<Units> {
    if code < 0x1_0000 then Some([code])
    else if code <= 0x10_FFFF then Some([0xD800 + (code - 0x1_0000) / 0x400, 0xDC00 + (code - 0x1_0000) % 0x400])
    else None
  }

  function CodeOf(code: nat): Result<Units, Error> {
    match FromCodePoint(code)
    case Some(units) => Success(units)
    case None => Failure(NoSuchCodePoint(code))
  }

  predicate IsBody(body: Body) {
    match body
    case Hex(digits) => digits != [] && forall u :: u in digits ==> IsHex(u)
    case Decimal(digits) => digits != [] && forall u :: u in digits ==> IsDigit(u)
    case Name(name) => name != [] && forall u :: u in name ==> IsLetter(u)
  }

  /** What a reference stands for. */
  function Meaning(body: Body): Result<Units, Error>
    requires IsBody(body)
  {
    match body
    case Hex(digits) => CodeOf(ValueOf(HexValues(digits), 16))
    case Decimal(digits) => CodeOf(ValueOf(HexValues(digits), 10))
    case Name(name) =>
      var named := FindNamed(name, NAMED);
      var inherited := FindInherited(name, INHERITED);
      if named.Some? then Success(named.value)
      else if inherited.Some? then Success(inherited.value)
      else Failure(UnknownReference(name))
  }

  lemma BodyOfIsBody(s: Units)
    ensures BodyOf(s).Some? ==> IsBody(BodyOf(s).value)
  {
  }

  function FirstSemicolon(s: Units): (r: nat)
    ensures r <= |s| && (r < |s| ==> s[r] == SEMICOLON) && forall i :: 0 <= i < r ==> s[i] != SEMICOLON
  {
    if s == [] || s[0] == SEMICOLON then 0 else 1 + FirstSemicolon(s[1..])
  }

  /** The reference a string opens with, and its length. */
  function ReferenceAt(s: Units): (r: Option<(Body, nat)>)
    ensures r.Some? ==> IsBody(r.value.0) && 0 < r.value.1 <= |s|
  {
    if s == [] || s[0] != AMP then None
    else
      var end := FirstSemicolon(s);
      if end == |s| then None
      else
        var body := BodyOf(s[1..end]);
        BodyOfIsBody(s[1..end]);
        if body.None? then None else Some((body.value, end + 1))
  }

  /** Put one decoded part before the rest; the leftmost error is the one thrown. */
  function Prepend(first: Result<Units, Error>, rest: Result<Units, Error>): Result<Units, Error> {
    if first.Failure? then first
    else if rest.Failure? then rest
    else Success(first.value + rest.value)
  }

  /** Every reference replaced by what it stands for, left to right; everything else as it is. */
  function DecodeEntities(s: Units): Result<Units, Error>
    decreases |s|
  {
    if s == [] then Success([])
    else
      match ReferenceAt(s)
      case Some((body, length)) => Prepend(Meaning(body), DecodeEntities(s[length..]))
      case None => Prepend(Success([s[0]]), DecodeEntities(s[1..]))
  }

  // ── Spellings ─────────────────────────────────────────────────────────────────────────────

  /** One part of a page's text, as an author writes it: a plain unit other than "&", or a reference. */
  datatype Part = Plain(u: int) | Reference(body: Body)

  predicate IsPart(part: Part) {
    match part
    case Plain(u) => u != AMP
    case Reference(body) => IsBody(body)
  }

  function SpellBody(body: Body): Units {
    match body
    case Hex(digits) => ['#' as int, 'x' as int] + digits
    case Decimal(digits) => ['#' as int] + digits
    case Name(name) => name
  }

  function SpellPart(part: Part): (r: Units)
    ensures r != []
  {
    match part
    case Plain(u) => [u]
    case Reference(body) => [AMP] + SpellBody(body) + [SEMICOLON]
  }

  function MeaningOf(part: Part): Result<Units, Error>
    requires IsPart(part)
  {
    match part
    case Plain(u) => Success([u])
    case Reference(body) => Meaning(body)
  }

  function Spell(parts: seq<Part>): Units {
    if parts == [] then [] else SpellPart(parts[0]) + Spell(parts[1..])
  }

  function Meanings(parts: seq<Part>): Result<Units, Error>
    requires forall p :: p in parts ==> IsPart(p)
  {
    if parts == [] then Success([]) else Prepend(MeaningOf(parts[0]), Meanings(parts[1..]))
  }

  lemma NoSemicolon(body: Body)
    requires IsBody(body)
    ensures SEMICOLON !in SpellBody(body) && BodyOf(SpellBody(body)) == Some(body)
  {
    var s := SpellBody(body);
    match body
    case Hex(digits) => assert s[2..] == digits;
    case Decimal(digits) =>
      assert s[1..] == digits && digits[0] in digits;
      assert s[1] == digits[0];
    case Name(name) => assert name[0] in name;
  }

  lemma {:induction false} SemicolonIsThere(before: Units, rest: Units)
    requires SEMICOLON !in before
    ensures FirstSemicolon(before + [SEMICOLON] + rest) == |before|
    decreases |before|
  {
    var s := before + [SEMICOLON] + rest;
    if before != [] {
      assert s[0] == before[0] && before[0] in before;
      assert s[1..] == before[1..] + [SEMICOLON] + rest;
      SemicolonIsThere(before[1..], rest);
    }
  }

  lemma SpeltReference(body: Body, rest: Units)
    requires IsBody(body)
    ensures var s := SpellPart(Reference(body)) + rest;
            ReferenceAt(s) == Some((body, |SpellPart(Reference(body))|)) && s[|SpellPart(Reference(body))|..] == rest
  {
    NoSemicolon(body);
    var spelt := SpellBody(body);
    ReferenceOpens(spelt, rest, body);
    assert SpellPart(Reference(body)) + rest == ([AMP] + spelt) + [SEMICOLON] + rest;
  }

  lemma ReferenceOpens(spelt: Units, rest: Units, body: Body)
    requires SEMICOLON !in spelt && BodyOf(spelt) == Some(body)
    ensures ReferenceAt([AMP] + spelt + [SEMICOLON] + rest) == Some((body, |spelt| + 2))
  {
    var s := [AMP] + spelt + [SEMICOLON] + rest;
    SemicolonIsThere([AMP] + spelt, rest);
    assert s[1..|spelt| + 1] == spelt;
  }

  /** However a text is spelt (plain units and references of any form, mixed), decoding gives back what its
      parts stand for; and it fails exactly as the leftmost reference that stands for nothing does. */
  lemma {:induction false} DecodesWhatIsSpelt(parts: seq<Part>)
    requires forall p :: p in parts ==> IsPart(p)
    ensures DecodeEntities(Spell(parts)) == Meanings(parts)
    decreases |parts|
  {
    if parts != [] {
      var first, rest := parts[0], Spell(parts[1..]);
      assert first in parts;
      DecodesWhatIsSpelt(parts[1..]);
      match first
      case Plain(u) => assert (SpellPart(first) + rest)[1..] == rest;
      case Reference(body) => SpeltReference(body, rest);
    }
  }

  // ── Escaping ──────────────────────────────────────────────────────────────────────────────

  /** Markup-safe text: the four significant units by name, every other as it is. */
  function EscapePart(u: int): (r: Part)
    ensures IsPart(r)
  {
    if u == AMP then Reference(Name(U("amp")))
    else if u == '<' as int then Reference(Name(U("lt")))
    else if u == '>' as int then Reference(Name(U("gt")))
    else if u == '"' as int then Reference(Name(U("quot")))
    else Plain(u)
  }

  function EscapeParts(s: Units): (r: seq<Part>)
    ensures forall p :: p in r ==> IsPart(p)
  {
    if s == [] then [] else [EscapePart(s[0])] + EscapeParts(s[1..])
  }

  function Escape(s: Units): Units {
    Spell(EscapeParts(s))
  }

  lemma {:induction false} FoundAt(name: Units, table: seq<(string, int)>, i: nat)
    requires i < |table| && U(table[i].0) == name && forall k :: 0 <= k < i ==> U(table[k].0) != name
    ensures FindNamed(name, table) == Some([table[i].1])
    decreases i
  {
    if i > 0 {
      var rest := table[1..];
      assert rest[i - 1] == table[i] && forall k :: 0 <= k < i - 1 ==> rest[k] == table[k + 1];
      FoundAt(name, rest, i - 1);
    }
  }

  lemma EscapedUnit(u: int)
    ensures MeaningOf(EscapePart(u)) == Success([u])
  {
    NamesDiffer();
    if u == AMP {
      FoundAt(U("amp"), NAMED, 0);
    } else if u == '<' as int {
      FoundAt(U("lt"), NAMED, 1);
    } else if u == '>' as int {
      FoundAt(U("gt"), NAMED, 2);
    } else if u == '"' as int {
      FoundAt(U("quot"), NAMED, 3);
    }
  }

  lemma NamesDiffer()
    ensures U("amp") != U("lt") && U("amp") != U("gt") && U("amp") != U("quot")
    ensures U("lt") != U("gt") && U("lt") != U("quot") && U("gt") != U("quot")
  {
    assert |U("amp")| == 3 && |U("lt")| == 2 && |U("gt")| == 2 && |U("quot")| == 4;
    assert U("lt")[0] == 'l' as int && U("gt")[0] == 'g' as int;
  }

  /** Decoding an escaped string returns it, for every string. */
  lemma {:induction false} EscapeRoundTrip(s: Units)
    ensures DecodeEntities(Escape(s)) == Success(s)
  {
    DecodesWhatIsSpelt(EscapeParts(s));
    EscapedMeans(s);
  }

  lemma {:induction false} EscapedMeans(s: Units)
    ensures Meanings(EscapeParts(s)) == Success(s)
    decreases |s|
  {
    if s != [] {
      EscapedUnit(s[0]);
      EscapedMeans(s[1..]);
      assert EscapeParts(s)[1..] == EscapeParts(s[1..]);
      assert [s[0]] + s[1..] == s;
    }
  }

  /** A numeric reference to any code point decodes to it, in decimal and in hexadecimal. */
  lemma NumericRoundTrip(code: nat)
    requires code <= 0x10_FFFF
    ensures MeaningOf(DecimalReference(code)) == Success(FromCodePoint(code).value)
    ensures MeaningOf(HexReference(code)) == Success(FromCodePoint(code).value)
  {
    ReadsBack(code, 10);
    ReadsBack(code, 16);
    assert HexValues(DecimalReference(code).body.digits) == NumeralOf(code, 10);
    assert HexValues(HexReference(code).body.digits) == NumeralOf(code, 16);
  }

  function HexUnit(digit: nat): (r: int)
    requires digit < 16
    ensures IsHex(r) && HexValue(r) == digit && (digit < 10 ==> IsDigit(r))
  {
    if digit < 10 then '0' as int + digit else 'a' as int + digit - 10
  }

  function HexUnits(digits: seq<nat>): (r: Units)
    requires forall i :: 0 <= i < |digits| ==> digits[i] < 16
    ensures |r| == |digits| && forall i :: 0 <= i < |r| ==> r[i] == HexUnit(digits[i])
  {
    seq(|digits|, i requires 0 <= i < |digits| => HexUnit(digits[i]))
  }

  function DecimalReference(code: nat): (r: Part)
    ensures IsPart(r) && r.Reference? && r.body.Decimal? && r.body.digits == HexUnits(NumeralOf(code, 10))
  {
    Reference(Decimal(HexUnits(NumeralOf(code, 10))))
  }

  function HexReference(code: nat): (r: Part)
    ensures IsPart(r) && r.Reference? && r.body.Hex? && r.body.digits == HexUnits(NumeralOf(code, 16))
  {
    Reference(Hex(HexUnits(NumeralOf(code, 16))))
  }

  /** A letters-only reference throws exactly when its name is neither in the table nor inherited. Names are
      looked up as spelt, so a name in another case is unknown. */
  lemma UnknownNamesThrow(name: Units)
    requires IsBody(Name(name))
    ensures MeaningOf(Reference(Name(name))).Failure? <==>
              (forall i :: 0 <= i < |NAMED| ==> U(NAMED[i].0) != name)
              && (forall i :: 0 <= i < |INHERITED| ==> U(INHERITED[i].0) != name)
  {
    FindNamedFinds(name, NAMED);
    FindInheritedFinds(name, INHERITED);
  }

  lemma {:induction false} FindNamedFinds(name: Units, table: seq<(string, int)>)
    ensures FindNamed(name, table).None? <==> forall i :: 0 <= i < |table| ==> U(table[i].0) != name
    decreases |table|
  {
    if table != [] {
      FindNamedFinds(name, table[1..]);
      assert forall i :: 1 <= i < |table| ==> table[i] == table[1..][i - 1];
      assert forall i :: 0 <= i < |table| - 1 ==> table[1..][i] == table[i + 1];
    }
  }

  lemma {:induction false} FindInheritedFinds(name: Units, table: seq<(string, string)>)
    ensures FindInherited(name, table).None? <==> forall i :: 0 <= i < |table| ==> U(table[i].0) != name
    decreases |table|
  {
    if table != [] {
      FindInheritedFinds(name, table[1..]);
      assert forall i :: 1 <= i < |table| ==> table[i] == table[1..][i - 1];
      assert forall i :: 0 <= i < |table| - 1 ==> table[1..][i] == table[i + 1];
    }
  }

  // ── The pattern, the units and the names ──────────────────────────────────────────────────

  /** Digits, letters and hexadecimal digits are these, and a hexadecimal digit is worth its place in either case. */
  lemma ClassesExact(c: char)
    ensures IsDigit(c as int) <==> c in "0123456789"
    ensures IsLetter(c as int) <==> c in "abcdefghijklmnopqrstuvwxyz" + "ABCDEFGHIJKLMNOPQRSTUVWXYZ"
    ensures IsHex(c as int) <==> c in "0123456789" + "abcdef" + "ABCDEF"
  {
    RunOf("0123456789", '0', c);
    RunOf("abcdefghijklmnopqrstuvwxyz", 'a', c);
    RunOf("ABCDEFGHIJKLMNOPQRSTUVWXYZ", 'A', c);
    RunOf("abcdef", 'a', c);
    RunOf("ABCDEF", 'A', c);
  }

  /** The characters of a run without gaps. */
  lemma RunOf(run: string, first: char, c: char)
    requires forall i :: 0 <= i < |run| ==> run[i] as int == first as int + i
    ensures c in run <==> first as int <= c as int < first as int + |run|
  {
    if first as int <= c as int < first as int + |run| { assert run[c as int - first as int] == c; }
  }

  lemma HexValueExact(i: nat)
    requires i < 16
    ensures IsHex("0123456789abcdef"[i] as int) && HexValue("0123456789abcdef"[i] as int) == i
    ensures IsHex("0123456789ABCDEF"[i] as int) && HexValue("0123456789ABCDEF"[i] as int) == i
  {
  }

  /** A text that the pattern takes between the ampersand and the semicolon, and the reference it is. */
  predicate Spells(text: Units, body: Body) {
    match body
    case Hex(digits) => text == U("#x") + digits || text == U("#X") + digits
    case Decimal(digits) => text == U("#") + digits
    case Name(name) => text == name
  }

  lemma BodyExact(text: Units, body: Body)
    ensures BodyOf(text) == Some(body) <==> IsBody(body) && Spells(text, body)
  {
    assert U("#x") == ['#' as int, 'x' as int] && U("#X") == ['#' as int, 'X' as int] && U("#") == ['#' as int];
    match body
    case Hex(digits) =>
      if BodyOf(text) == Some(body) { assert text == [text[0], text[1]] + digits; }
      if Spells(text, body) { assert text[2..] == digits; }
    case Decimal(digits) =>
      if BodyOf(text) == Some(body) { assert text == [text[0]] + digits; }
      if Spells(text, body) && IsBody(body) {
        assert text[1..] == digits && digits[0] in digits && text[1] == digits[0];
      }
    case Name(name) =>
      if Spells(text, body) && IsBody(body) { assert name[0] in name; }
  }

  /** A string opens with a reference exactly when it opens with an ampersand, a text of the pattern and a semicolon. */
  lemma ReferenceExact(s: Units, body: Body, length: nat)
    ensures ReferenceAt(s) == Some((body, length)) <==>
            && 2 <= length <= |s| && s[0] == '&' as int && s[length - 1] == ';' as int
            && IsBody(body) && Spells(s[1..length - 1], body)
  {
    if ReferenceAt(s) == Some((body, length)) {
      BodyExact(s[1..length - 1], body);
    }
    if 2 <= length <= |s| && s[0] == AMP && s[length - 1] == SEMICOLON && IsBody(body) && Spells(s[1..length - 1], body) {
      var text := s[1..length - 1];
      BodyExact(text, body);
      NoSemicolonIn(text, body);
      assert s == [AMP] + text + [SEMICOLON] + s[length..];
      ReferenceOpens(text, s[length..], body);
    }
  }

  lemma NoSemicolonIn(text: Units, body: Body)
    requires IsBody(body) && Spells(text, body)
    ensures ';' as int !in text
  {
    assert U("#x") == ['#' as int, 'x' as int] && U("#X") == ['#' as int, 'X' as int] && U("#") == ['#' as int];
  }

  /** One unit is its own code point; two are a surrogate pair, and read back as the code point above the first plane. */
  lemma CodePointExact(code: nat)
    ensures code <= 0xFFFF ==> FromCodePoint(code) == Some([code])
    ensures 0xFFFF < code <= 0x10FFFF ==>
              var pair := FromCodePoint(code).value;
              && |pair| == 2 && 0xD800 <= pair[0] <= 0xDBFF && 0xDC00 <= pair[1] <= 0xDFFF
              && 0x10000 + (pair[0] - 0xD800) * 0x400 + (pair[1] - 0xDC00) == code
    ensures FromCodePoint(code).None? <==> code > 0x10FFFF
  {
  }

  lemma SameUnits(a: string, b: string)
    ensures U(a) == U(b) <==> a == b
  {
    if U(a) == U(b) {
      forall i | 0 <= i < |a| ensures a[i] == b[i] { assert U(a)[i] == U(b)[i]; }
    }
  }

  /** A table name's place, from its first two letters. */
  function PlaceOf(name: string): nat {
    if |name| < 2 then 18
    else if name[0] == 'a' && name[1] == 'm' then 0
    else if name[0] == 'l' && name[1] == 't' then 1
    else if name[0] == 'g' && name[1] == 't' then 2
    else if name[0] == 'q' && name[1] == 'u' then 3
    else if name[0] == 'a' && name[1] == 'p' then 4
    else if name[0] == 'n' && name[1] == 'b' then 5
    else if name[0] == 'r' && name[1] == 's' then 6
    else if name[0] == 'l' && name[1] == 's' then 7
    else if name[0] == 'l' && name[1] == 'd' then 8
    else if name[0] == 'r' && name[1] == 'd' then 9
    else if name[0] == 'r' && name[1] == 'a' then 10
    else if name[0] == 'l' && name[1] == 'a' then 11
    else if name[0] == 'n' && name[1] == 'd' then 12
    else if name[0] == 'm' && name[1] == 'd' then 13
    else if name[0] == 'c' && name[1] == 'e' then 14
    else if name[0] == 'm' && name[1] == 'i' then 15
    else if name[0] == 'h' && name[1] == 'e' then 16
    else if name[0] == 't' && name[1] == 'i' then 17
    else 18
  }

  lemma Placed(j: nat)
    requires j < |NAMED|
    ensures PlaceOf(NAMED[j].0) == j
  {
  }

  lemma NamesApart(k: nat, i: nat)
    requires k < i < |NAMED|
    ensures NAMED[k].0 != NAMED[i].0
  {
    Placed(k);
    Placed(i);
  }

  lemma NamedIs(name: string, i: nat)
    requires i < |NAMED| && name == NAMED[i].0
    ensures FindNamed(U(name), NAMED) == Some([NAMED[i].1])
  {
    forall k | 0 <= k < i ensures U(NAMED[k].0) != U(name) {
      NamesApart(k, i);
      SameUnits(NAMED[k].0, name);
    }
    FoundAt(U(name), NAMED, i);
  }

  /** What each name stands for: markup, quotes, arrows and dashes, and signs. */
  lemma MarkupNames()
    ensures FindNamed(U("amp"), NAMED) == Some([0x26])
    ensures FindNamed(U("lt"), NAMED) == Some([0x3C])
    ensures FindNamed(U("gt"), NAMED) == Some([0x3E])
    ensures FindNamed(U("quot"), NAMED) == Some([0x22])
  {
    NamedIs("amp", 0);
    NamedIs("lt", 1);
    NamedIs("gt", 2);
    NamedIs("quot", 3);
  }

  lemma QuoteNames()
    ensures FindNamed(U("apos"), NAMED) == Some([0x27])
    ensures FindNamed(U("nbsp"), NAMED) == Some([0xA0])
    ensures FindNamed(U("rsquo"), NAMED) == Some([0x2019])
  {
    NamedIs("apos", 4);
    NamedIs("nbsp", 5);
    NamedIs("rsquo", 6);
  }

  lemma MoreQuoteNames()
    ensures FindNamed(U("lsquo"), NAMED) == Some([0x2018])
    ensures FindNamed(U("ldquo"), NAMED) == Some([0x201C])
    ensures FindNamed(U("rdquo"), NAMED) == Some([0x201D])
  {
    NamedIs("lsquo", 7);
    NamedIs("ldquo", 8);
    NamedIs("rdquo", 9);
  }

  lemma ArrowNames()
    ensures FindNamed(U("rarr"), NAMED) == Some([0x2192])
    ensures FindNamed(U("larr"), NAMED) == Some([0x2190])
    ensures FindNamed(U("ndash"), NAMED) == Some([0x2013])
    ensures FindNamed(U("mdash"), NAMED) == Some([0x2014])
  {
    NamedIs("rarr", 10);
    NamedIs("larr", 11);
    NamedIs("ndash", 12);
    NamedIs("mdash", 13);
  }

  lemma SignNames()
    ensures FindNamed(U("cent"), NAMED) == Some([0xA2])
    ensures FindNamed(U("middot"), NAMED) == Some([0xB7])
    ensures FindNamed(U("hellip"), NAMED) == Some([0x2026])
    ensures FindNamed(U("times"), NAMED) == Some([0xD7])
  {
    NamedIs("cent", 14);
    NamedIs("middot", 15);
    NamedIs("hellip", 16);
    NamedIs("times", 17);
  }

  /** The table has these names and no other. */
  lemma NamedExact(name: string)
    ensures FindNamed(U(name), NAMED).Some? <==>
            name in ["amp", "lt", "gt", "quot", "apos", "nbsp", "rsquo", "lsquo", "ldquo", "rdquo", "rarr", "larr", "ndash",
                     "mdash", "cent", "middot", "hellip", "times"]
  {
    var names := ["amp", "lt", "gt", "quot", "apos", "nbsp", "rsquo", "lsquo", "ldquo", "rdquo", "rarr", "larr", "ndash",
                  "mdash", "cent", "middot", "hellip", "times"];
    assert |NAMED| == |names| && forall i :: 0 <= i < |names| ==> NAMED[i].0 == names[i];
    InTable(name, NAMED, names);
  }

  lemma InTable(name: string, table: seq<(string, int)>, names: seq<string>)
    requires |table| == |names| && forall i :: 0 <= i < |names| ==> table[i].0 == names[i]
    ensures FindNamed(U(name), table).Some? <==> name in names
  {
    FindNamedFinds(U(name), table);
    forall i | 0 <= i < |table| ensures U(table[i].0) == U(name) <==> names[i] == name { SameUnits(table[i].0, name); }
    if name in names {
      var i :| 0 <= i < |names| && names[i] == name;
      assert U(table[i].0) == U(name);
    }
  }

  /** The names found on the prototype. */
  lemma InheritedExact(name: string)
    ensures FindInherited(U(name), INHERITED).Some? <==>
            name in ["constructor", "toString", "valueOf", "hasOwnProperty", "isPrototypeOf", "propertyIsEnumerable",
                     "toLocaleString"]
  {
    var names := ["constructor", "toString", "valueOf", "hasOwnProperty", "isPrototypeOf", "propertyIsEnumerable",
                  "toLocaleString"];
    assert |INHERITED| == |names| && forall i :: 0 <= i < |names| ==> INHERITED[i].0 == names[i];
    InPrototype(name, INHERITED, names);
  }

  lemma InPrototype(name: string, table: seq<(string, string)>, names: seq<string>)
    requires |table| == |names| && forall i :: 0 <= i < |names| ==> table[i].0 == names[i]
    ensures FindInherited(U(name), table).Some? <==> name in names
  {
    FindInheritedFinds(U(name), table);
    forall i | 0 <= i < |table| ensures U(table[i].0) == U(name) <==> names[i] == name { SameUnits(table[i].0, name); }
    if name in names {
      var i :| 0 <= i < |names| && names[i] == name;
      assert U(table[i].0) == U(name);
    }
  }

  lemma {:induction false} InheritedFound(name: Units, table: seq<(string, string)>)
    ensures FindInherited(name, table).Some? ==>
              exists i :: 0 <= i < |table| && U(table[i].0) == name && FindInherited(name, table).value == NativeText(table[i].1)
    decreases |table|
  {
    if table != [] && U(table[0].0) != name {
      InheritedFound(name, table[1..]);
      assert forall i :: 0 <= i < |table| - 1 ==> table[1..][i] == table[i + 1];
    }
  }

  /** A prototype's function reads as its own name's, except the constructor, which is Object's. */
  lemma InheritedText(name: string)
    ensures FindInherited(U(name), INHERITED).Some? ==>
              FindInherited(U(name), INHERITED).value == NativeText(if name == "constructor" then "Object" else name)
  {
    InheritedFound(U(name), INHERITED);
    if FindInherited(U(name), INHERITED).Some? {
      var i :| 0 <= i < |INHERITED| && U(INHERITED[i].0) == U(name)
               && FindInherited(U(name), INHERITED).value == NativeText(INHERITED[i].1);
      SameUnits(INHERITED[i].0, name);
      assert INHERITED[i].1 == if INHERITED[i].0 == "constructor" then "Object" else INHERITED[i].0;
    }
  }
}
