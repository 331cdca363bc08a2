/** The page reader's parser (parseHtml in scripts/build-smart-contract-risks-data.ts): one pass over the
    markup with a stack of open elements, against the grammar it accepts. */
module HtmlReader {
  import opened Wrappers
  import opened HtmlText
  import TextLines

  type Attrs = seq<(Units, Units)>

  datatype Node = Text(text: Units) | Element(tag: Units, attrs: Attrs, children: seq<Node>)

  /** One match of the token pattern; an open tag keeps its attributes as written, and its slash. */
  datatype Markup = Comment | Close(name: Units) | Open(name: Units, raw: Attrs, slash: bool)

  /** What one pass over the source meets: each markup with the text before it, and the text after the last. */
  datatype Source = Source(pieces: seq<(Units, Markup)>, tail: Units)

  datatype Token = Words(raw: Units) | Mark(markup: Markup)

  // ── Small readings ────────────────────────────────────────────────────────────────────────

  function Lower(name: Units): (r: Units)
    ensures |r| == |name|
    ensures forall i :: 0 <= i < |r| ==> r[i] == if 'A' as int <= name[i] <= 'Z' as int then name[i] + 32 else name[i]
  {
    seq(|name|, i requires 0 <= i < |name| => if 'A' as int <= name[i] <= 'Z' as int then name[i] + 32 else name[i])
  }

  const VOID: seq<string> := ["area", "base", "br", "col", "embed", "hr", "img", "input", "link", "meta", "source", "track", "wbr"]

  predicate IsVoid(tag: Units) {
    exists i :: 0 <= i < |VOID| && U(VOID[i]) == tag
  }

  /** Text that trim() leaves nothing of. */
  predicate Blank(s: Units) {
    forall u :: u in s ==> TextLines.IsSpaceCode(u)
  }

  /** Assigning a property of the attributes object: an existing name keeps its place; the object's own
      prototype slot ignores a string. */
  function SetAttr(attrs: Attrs, name: Units, value: Units): Attrs {
    if name == U("__proto__") then attrs
    else if attrs == [] then [(name, value)]
    else if attrs[0].0 == name then [(name, value)] + attrs[1..]
    else [attrs[0]] + SetAttr(attrs[1..], name, value)
  }

  /** The attributes' names, in the object's order. */
  function NamesOf(attrs: Attrs): (r: seq<Units>)
    ensures |r| == |attrs| && forall i :: 0 <= i < |r| ==> r[i] == attrs[i].0
  {
    seq(|attrs|, i requires 0 <= i < |attrs| => attrs[i].0)
  }

  /** What the object holds under a name. */
  function ValueAt(attrs: Attrs, name: Units): Option<Units> {
    if attrs == [] then None
    else if attrs[0].0 == name then Some(attrs[0].1)
    else ValueAt(attrs[1..], name)
  }

  /** Assigning changes what is held under that name and under no other; under the prototype's own name nothing is
      assigned. */
  lemma {:induction false} SetAttrExact(attrs: Attrs, name: Units, value: Units, other: Units)
    ensures ValueAt(SetAttr(attrs, name, value), other) ==
            if other == name && name != U("__proto__") then Some(value) else ValueAt(attrs, other)
    decreases |attrs|
  {
    if name != U("__proto__") {
      if attrs == [] {
        assert [(name, value)][1..] == [];
      } else if attrs[0].0 == name {
        assert ([(name, value)] + attrs[1..])[1..] == attrs[1..];
      } else {
        SetAttrExact(attrs[1..], name, value, other);
        assert ([attrs[0]] + SetAttr(attrs[1..], name, value))[1..] == SetAttr(attrs[1..], name, value);
      }
    }
  }

  /** A name the object has keeps its place, and a new one comes last. */
  lemma {:induction false} SetAttrOrder(attrs: Attrs, name: Units, value: Units)
    requires name != U("__proto__")
    ensures NamesOf(SetAttr(attrs, name, value)) ==
            if name in NamesOf(attrs) then NamesOf(attrs) else NamesOf(attrs) + [name]
    decreases |attrs|
  {
    if attrs != [] {
      var first, rest := attrs[0], attrs[1..];
      FirstName(first, rest);
      assert attrs == [first] + rest;
      if first.0 == name {
        FirstName((name, value), rest);
      } else {
        SetAttrOrder(rest, name, value);
        FirstName(first, SetAttr(rest, name, value));
      }
    }
  }

  lemma FirstName(first: (Units, Units), rest: Attrs)
    ensures NamesOf([first] + rest) == [first.0] + NamesOf(rest)
  {
  }

  function ReadAttrs(raw: Attrs): Result<Attrs, Error> {
    if raw == [] then Success([])
    else
      var before := ReadAttrs(raw[..|raw| - 1]);
      var (name, value) := raw[|raw| - 1];
      if before.Failure? then before
      else
        match DecodeEntities(value)
        case Failure(error) => Failure(error)
        case Success(decoded) => Success(SetAttr(before.value, name, decoded))
  }

  // ── The parser ────────────────────────────────────────────────────────────────────────────

  /** The elements still open, each with the children it has so far. */
  datatype Stack = Root(kids: seq<Node>) | Frame(below: Stack, tag: Units, attrs: Attrs, kids: seq<Node>)
  {
    function Tag(): Units { if Root? then U("#root") else tag }

    /** A child for the innermost open element. */
    function Add(node: Node): Stack { this.(kids := kids + [node]) }
  }

  /** One token: text and void elements are added to the innermost open element; an open tag is stacked;
      a close tag must name the innermost one. */
  function Step(stack: Stack, token: Token): Result<Stack, Error> {
    match token
    case Words(raw) =>
      var text := DecodeEntities(raw);
      if text.Failure? then Failure(text.error) else Success(stack.Add(Text(text.value)))
    case Mark(Comment) => Success(stack)
    case Mark(Close(name)) =>
      if stack.Root? || stack.tag != Lower(name) then Failure(Mismatched(Lower(name), stack.Tag()))
      else Success(stack.below.Add(Element(stack.tag, stack.attrs, stack.kids)))
    case Mark(Open(name, raw, slash)) =>
      var attrs := ReadAttrs(raw);
      if attrs.Failure? then Failure(attrs.error)
      else if IsVoid(Lower(name)) || slash then Success(stack.Add(Element(Lower(name), attrs.value, [])))
      else Success(Frame(stack, Lower(name), attrs.value, []))
  }

  /** A close tag that does not name the innermost open element is reported with the name of that element, or the
      root's when none is open. */
  lemma MismatchExact(stack: Stack, name: Units)
    ensures Step(stack, Mark(Close(name))).Failure? <==> stack.Root? || stack.tag != Lower(name)
    ensures Step(stack, Mark(Close(name))).Failure? ==>
              Step(stack, Mark(Close(name))).error ==
              Mismatched(Lower(name), if stack.Root? then U("#root") else stack.tag)
  {
  }

  function Steps(stack: Stack, tokens: seq<Token>): Result<Stack, Error>
    decreases |tokens|
  {
    if tokens == [] then Success(stack)
    else
      match Step(stack, tokens[0])
      case Failure(error) => Failure(error)
      case Success(next) => Steps(next, tokens[1..])
  }

  /** The error thrown is the first: that of the first token whose step fails, from where the tokens before it lead. */
  lemma {:induction false} FirstErrorThrown(stack: Stack, tokens: seq<Token>, k: nat)
    requires k < |tokens| && Steps(stack, tokens[..k]).Success? && Step(Steps(stack, tokens[..k]).value, tokens[k]).Failure?
    ensures Steps(stack, tokens) == Failure(Step(Steps(stack, tokens[..k]).value, tokens[k]).error)
  {
    var reached := Steps(stack, tokens[..k]).value;
    StepsJoin(stack, tokens[..k], tokens[k..]);
    assert tokens == tokens[..k] + tokens[k..] && tokens[k..][0] == tokens[k];
  }

  /** The text before a markup counts when there is any; the text after the last when it is not blank. */
  function TokensOf(pieces: seq<(Units, Markup)>, tail: Units): seq<Token> {
    if pieces == [] then (if Blank(tail) then [] else [Words(tail)])
    else (if pieces[0].0 == [] then [] else [Words(pieces[0].0)]) + [Mark(pieces[0].1)] + TokensOf(pieces[1..], tail)
  }

  /** The children of the page's root. */
  function Parse(source: Source): Result<seq<Node>, Error> {
    match Steps(Root([]), TokensOf(source.pieces, source.tail))
    case Failure(error) => Failure(error)
    case Success(stack) => if stack.Root? then Success(stack.kids) else Failure(Unclosed(stack.tag))
  }

  /** The names that HTML's void elements have. */
  lemma VoidExact(tag: Units)
    ensures IsVoid(tag) <==>
            || tag == U("area") || tag == U("base") || tag == U("br") || tag == U("col") || tag == U("embed") || tag == U("hr")
            || tag == U("img") || tag == U("input") || tag == U("link") || tag == U("meta") || tag == U("source")
            || tag == U("track") || tag == U("wbr")
  {
    assert VOID[0] == "area" && VOID[1] == "base" && VOID[2] == "br" && VOID[3] == "col" && VOID[4] == "embed";
    assert VOID[5] == "hr" && VOID[6] == "img" && VOID[7] == "input" && VOID[8] == "link" && VOID[9] == "meta";
    assert VOID[10] == "source" && VOID[11] == "track" && VOID[12] == "wbr" && |VOID| == 13;
  }

  /** A lone tag that is not closed is an element of its own exactly when its name, in either case, is a void
      element's; any other is reported as unclosed. */
  lemma LoneTag(name: Units)
    ensures Parse(Source([([], Open(name, [], false))], [])) ==
            if IsVoid(Lower(name)) then Success([Element(Lower(name), [], [])]) else Failure(Unclosed(Lower(name)))
  {
    var pieces: seq<(Units, Markup)> := [([], Open(name, [], false))];
    assert pieces[1..] == [];
    assert TokensOf(pieces, []) == [Mark(Open(name, [], false))];
    StepOne(Root([]), Mark(Open(name, [], false)));
    assert Root([]).Add(Element(Lower(name), [], [])).kids == [Element(Lower(name), [], [])];
  }

  lemma {:induction false} StepsJoin(stack: Stack, a: seq<Token>, b: seq<Token>)
    ensures Steps(stack, a + b) == if Steps(stack, a).Failure? then Steps(stack, a) else Steps(Steps(stack, a).value, b)
    decreases |a|
  {
    if a == [] {
      assert a + b == b;
    } else {
      assert (a + b)[1..] == a[1..] + b;
      var next := Step(stack, a[0]);
      if next.Success? { StepsJoin(next.value, a[1..], b); }
    }
  }

  lemma StepOne(stack: Stack, token: Token)
    ensures Steps(stack, [token]) == Step(stack, token)
  {
    assert [token][1..] == [];
  }

  /** The parser's loop: it stops at the first error, and ends with every element closed. */
  method ParseHtml(source: Source) returns (r: Result<seq<Node>, Error>)
    ensures r == Parse(source)
  {
    var stack := Root([]);
    var i := 0;
    ghost var all := Steps(stack, TokensOf(source.pieces, source.tail));
    assert source.pieces[0..] == source.pieces;
    while i < |source.pieces|
      invariant 0 <= i <= |source.pieces|
      invariant all == Steps(stack, TokensOf(source.pieces[i..], source.tail))
    {
      var (before, markup) := source.pieces[i];
      assert source.pieces[i..][1..] == source.pieces[i + 1..];
      ghost var rest := TokensOf(source.pieces[i + 1..], source.tail);
      if before != [] {
        StepsJoin(stack, [Words(before)], [Mark(markup)] + rest);
        StepOne(stack, Words(before));
        assert TokensOf(source.pieces[i..], source.tail) == [Words(before)] + ([Mark(markup)] + rest);
        var text := Step(stack, Words(before));
        if text.Failure? { return Failure(text.error); }
        stack := text.value;
      }
      StepsJoin(stack, [Mark(markup)], rest);
      StepOne(stack, Mark(markup));
      assert before == [] ==> TokensOf(source.pieces[i..], source.tail) == [Mark(markup)] + rest;
      var next := Step(stack, Mark(markup));
      if next.Failure? { return Failure(next.error); }
      stack := next.value;
      i := i + 1;
    }
    if !Blank(source.tail) {
      StepOne(stack, Words(source.tail));
      var text := Step(stack, Words(source.tail));
      if text.Failure? { return Failure(text.error); }
      stack := text.value;
    }
    return if stack.Root? then Success(stack.kids) else Failure(Unclosed(stack.tag));
  }

  // ── The grammar ───────────────────────────────────────────────────────────────────────────

  /** Balanced content: text, comments, single tags, and elements with balanced content of their own. */
  datatype Item =
    | Written(text: Units)
    | Remark
    | Single(name: Units, raw: Attrs, slash: bool)
    | Nested(name: Units, raw: Attrs, items: seq<Item>, close: Units)

  function Yield(items: seq<Item>): seq<Token>
    decreases items, 1
  {
    if items == [] then [] else YieldOne(items[0]) + Yield(items[1..])
  }

  function YieldOne(item: Item): (r: seq<Token>)
    ensures r != []
    decreases item, 2
  {
    match item
    case Written(raw) => [Words(raw)]
    case Remark => [Mark(Comment)]
    case Single(name, raw, slash) => [Mark(Open(name, raw, slash))]
    case Nested(name, raw, items, close) => [Mark(Open(name, raw, false))] + Yield(items) + [Mark(Close(close))]
  }

  /** The nodes some content stands for; none when a tag pair does not match, a single tag is neither void
      nor slashed, or something in it does not decode. */
  function NodesOf(items: seq<Item>): Option<seq<Node>>
    decreases items, 1
  {
    if items == [] then Some([])
    else
      var first, rest := NodesOfOne(items[0]), NodesOf(items[1..]);
      if first.None? || rest.None? then None else Some(first.value + rest.value)
  }

  function NodesOfOne(item: Item): Option<seq<Node>>
    decreases item, 2
  {
    match item
    case Written(raw) =>
      var text := DecodeEntities(raw);
      if text.Failure? then None else Some([Text(text.value)])
    case Remark => Some([])
    case Single(name, raw, slash) =>
      var attrs := ReadAttrs(raw);
      if attrs.Failure? || !(IsVoid(Lower(name)) || slash) then None else Some([Element(Lower(name), attrs.value, [])])
    case Nested(name, raw, items, close) =>
      var attrs, kids := ReadAttrs(raw), NodesOf(items);
      if attrs.Failure? || IsVoid(Lower(name)) || Lower(close) != Lower(name) || kids.None? then None
      else Some([Element(Lower(name), attrs.value, kids.value)])
  }

  // ── Everything in the grammar parses ──────────────────────────────────────────────────────

  function AddAll(stack: Stack, nodes: seq<Node>): Stack {
    stack.(kids := stack.kids + nodes)
  }

  lemma {:induction false} ContentParses(stack: Stack, items: seq<Item>)
    requires NodesOf(items).Some?
    ensures Steps(stack, Yield(items)) == Success(AddAll(stack, NodesOf(items).value))
    decreases items, 1
  {
    if items != [] {
      var first := NodesOfOne(items[0]).value;
      ItemParses(stack, items[0]);
      StepsJoin(stack, YieldOne(items[0]), Yield(items[1..]));
      ContentParses(AddAll(stack, first), items[1..]);
      AddTwice(stack, first, NodesOf(items[1..]).value);
    } else {
      assert stack.kids + [] == stack.kids;
    }
  }

  lemma AddTwice(stack: Stack, a: seq<Node>, b: seq<Node>)
    ensures AddAll(AddAll(stack, a), b) == AddAll(stack, a + b)
  {
    assert stack.kids + a + b == stack.kids + (a + b);
  }

  lemma {:induction false} ItemParses(stack: Stack, item: Item)
    requires NodesOfOne(item).Some?
    ensures Steps(stack, YieldOne(item)) == Success(AddAll(stack, NodesOfOne(item).value))
    decreases item, 2
  {
    match item
    case Nested(name, raw, items, close) =>
      var inner := Frame(stack, Lower(name), ReadAttrs(raw).value, []);
      var kids := NodesOf(items).value;
      ContentParses(inner, items);
      StepOne(stack, Mark(Open(name, raw, false)));
      StepsJoin(stack, [Mark(Open(name, raw, false))], Yield(items));
      StepsJoin(stack, [Mark(Open(name, raw, false))] + Yield(items), [Mark(Close(close))]);
      assert [] + kids == kids;
      StepOne(AddAll(inner, kids), Mark(Close(close)));
    case Written(raw) => StepOne(stack, Words(raw));
    case Remark =>
      StepOne(stack, Mark(Comment));
      assert stack.kids + [] == stack.kids;
    case Single(name, raw, slash) => StepOne(stack, Mark(Open(name, raw, slash)));
  }

  // ── Everything that parses is in the grammar ──────────────────────────────────────────────

  /** Content read so far inside elements still open: a grammar's derivation, cut off. */
  datatype Partial = Base(items: seq<Item>) | Inside(below: Partial, name: Units, raw: Attrs, items: seq<Item>)

  function PartialYield(p: Partial): seq<Token> {
    match p
    case Base(items) => Yield(items)
    case Inside(below, name, raw, items) => PartialYield(below) + [Mark(Open(name, raw, false))] + Yield(items)
  }

  ghost predicate Derives(p: Partial, stack: Stack) {
    && NodesOf(p.items) == Some(stack.kids)
    && match p
       case Base(_) => stack.Root?
       case Inside(below, name, raw, _) =>
         && stack.Frame? && stack.tag == Lower(name) && !IsVoid(stack.tag)
         && ReadAttrs(raw) == Success(stack.attrs) && Derives(below, stack.below)
  }

  lemma {:induction false} OneMoreItem(items: seq<Item>, item: Item)
    requires NodesOf(items).Some? && NodesOfOne(item).Some?
    ensures NodesOf(items + [item]) == Some(NodesOf(items).value + NodesOfOne(item).value)
    decreases |items|
  {
    var all := items + [item];
    if items == [] {
      assert all == [item] && all[1..] == [] && NodesOf([]) == Some([]);
      assert NodesOfOne(item).value + [] == NodesOfOne(item).value;
      assert [] + NodesOfOne(item).value == NodesOfOne(item).value;
    } else {
      assert all[0] == items[0] && all[1..] == items[1..] + [item];
      OneMoreItem(items[1..], item);
      var a, b, c := NodesOfOne(items[0]).value, NodesOf(items[1..]).value, NodesOfOne(item).value;
      assert a + (b + c) == a + b + c;
    }
  }

  lemma {:induction false} OneMoreYield(items: seq<Item>, item: Item)
    ensures Yield(items + [item]) == Yield(items) + YieldOne(item)
    decreases |items|
  {
    var all := items + [item];
    if items == [] {
      assert all == [item] && all[1..] == [];
    } else {
      assert all[0] == items[0] && all[1..] == items[1..] + [item];
      OneMoreYield(items[1..], item);
    }
  }

  function AddItem(p: Partial, item: Item): Partial {
    p.(items := p.items + [item])
  }

  lemma AddsItem(p: Partial, stack: Stack, item: Item)
    requires Derives(p, stack) && NodesOfOne(item).Some?
    ensures Derives(AddItem(p, item), AddAll(stack, NodesOfOne(item).value))
    ensures PartialYield(AddItem(p, item)) == PartialYield(p) + YieldOne(item)
  {
    OneMoreItem(p.items, item);
    OneMoreYield(p.items, item);
  }

  /** Each step the parser takes is one of the grammar's. */
  lemma StepDerives(p: Partial, stack: Stack, token: Token) returns (next: Partial)
    requires Derives(p, stack) && Step(stack, token).Success?
    ensures Derives(next, Step(stack, token).value)
    ensures PartialYield(next) == PartialYield(p) + [token]
  {
    match token
    case Words(raw) =>
      next := AddItem(p, Written(raw));
      AddsItem(p, stack, Written(raw));
    case Mark(Comment) =>
      next := AddItem(p, Remark);
      AddsItem(p, stack, Remark);
      assert AddAll(stack, []) == stack;
    case Mark(Close(close)) =>
      next := CloseDerives(p, stack, close);
    case Mark(Open(name, raw, slash)) =>
      if IsVoid(Lower(name)) || slash {
        next := AddItem(p, Single(name, raw, slash));
        AddsItem(p, stack, Single(name, raw, slash));
      } else {
        next := Inside(p, name, raw, []);
        assert PartialYield(next) == PartialYield(p) + [token] + [];
      }
  }

  lemma CloseDerives(p: Partial, stack: Stack, close: Units) returns (next: Partial)
    requires Derives(p, stack) && stack.Frame? && stack.tag == Lower(close)
    ensures Derives(next, stack.below.Add(Element(stack.tag, stack.attrs, stack.kids)))
    ensures PartialYield(next) == PartialYield(p) + [Mark(Close(close))]
  {
    var item := Nested(p.name, p.raw, p.items, close);
    next := AddItem(p.below, item);
    assert NodesOfOne(item) == Some([Element(stack.tag, stack.attrs, stack.kids)]);
    AddsItem(p.below, stack.below, item);
    assert PartialYield(p.below) + ([Mark(Open(p.name, p.raw, false))] + Yield(p.items) + [Mark(Close(close))])
        == PartialYield(p) + [Mark(Close(close))];
  }

  lemma FirstStep(stack: Stack, first: Token, rest: seq<Token>) returns (next: Stack)
    requires Steps(stack, [first] + rest).Success?
    ensures Step(stack, first) == Success(next) && Steps(stack, [first] + rest) == Steps(next, rest)
  {
    assert ([first] + rest)[1..] == rest;
    next := Step(stack, first).value;
  }

  lemma {:induction false} StepsDerive(p: Partial, stack: Stack, tokens: seq<Token>) returns (end: Partial)
    requires Derives(p, stack) && Steps(stack, tokens).Success?
    ensures Derives(end, Steps(stack, tokens).value)
    ensures PartialYield(end) == PartialYield(p) + tokens
    decreases |tokens|
  {
    if tokens == [] {
      end := p;
      assert PartialYield(p) + [] == PartialYield(p);
    } else {
      var first, rest := tokens[0], tokens[1..];
      assert tokens == [first] + rest;
      var after := FirstStep(stack, first, rest);
      var next := StepDerives(p, stack, first);
      end := StepsDerive(next, after, rest);
      InTurn(PartialYield(p), [first], rest);
    }
  }

  lemma InTurn(a: seq<Token>, b: seq<Token>, c: seq<Token>)
    ensures a + b + c == a + (b + c)
  {
  }

  /** The parser accepts exactly the balanced sources, and what it returns is what the balanced content
      stands for: soundness and completeness, for every source. */
  lemma ParsesIffBalanced(source: Source, kids: seq<Node>)
    ensures Parse(source) == Success(kids) <==>
              exists items :: Yield(items) == TokensOf(source.pieces, source.tail) && NodesOf(items) == Some(kids)
  {
    var tokens := TokensOf(source.pieces, source.tail);
    if Parse(source) == Success(kids) {
      var end := StepsDerive(Base([]), Root([]), tokens);
      assert Yield(end.items) == [] + tokens;
    }
    if items :| Yield(items) == tokens && NodesOf(items) == Some(kids) {
      ContentParses(Root([]), items);
      assert [] + kids == kids;
    }
  }

  // ── Printing ──────────────────────────────────────────────────────────────────────────────

  /** A tree that says what it prints: lower-case tags, void elements without children, distinct attribute
      names, no empty text and no two texts side by side, at every level. */
  ghost predicate Printable(nodes: seq<Node>)
    decreases nodes, 1
  {
    nodes != [] ==>
      && PrintableNode(nodes[0])
      && (|nodes| > 1 && nodes[0].Text? ==> !nodes[1].Text?)
      && Printable(nodes[1..])
  }

  ghost predicate PrintableNode(node: Node)
    decreases node, 2
  {
    match node
    case Text(text) => text != []
    case Element(tag, attrs, children) =>
      && Lower(tag) == tag
      && (IsVoid(tag) ==> children == [])
      && (forall i :: 0 <= i < |attrs| ==> attrs[i].0 != U("__proto__"))
      && (forall i, j :: 0 <= i < j < |attrs| ==> attrs[i].0 != attrs[j].0)
      && Printable(children)
  }

  function EscapeAttrs(attrs: Attrs): (r: Attrs)
    ensures |r| == |attrs| && forall i :: 0 <= i < |r| ==> r[i] == (attrs[i].0, Escape(attrs[i].1))
  {
    seq(|attrs|, i requires 0 <= i < |attrs| => (attrs[i].0, Escape(attrs[i].1)))
  }

  function ItemsOf(nodes: seq<Node>): seq<Item>
    decreases nodes, 1
  {
    if nodes == [] then [] else [ItemOf(nodes[0])] + ItemsOf(nodes[1..])
  }

  function ItemOf(node: Node): Item
    decreases node, 2
  {
    match node
    case Text(text) => Written(Escape(text))
    case Element(tag, attrs, children) =>
      if IsVoid(tag) then Single(tag, EscapeAttrs(attrs), false) else Nested(tag, EscapeAttrs(attrs), ItemsOf(children), tag)
  }

  /** The markup of a tree: escaped text, a tag for a void element, a pair of tags for any other. */
  function Print(nodes: seq<Node>): seq<Token> {
    Yield(ItemsOf(nodes))
  }

  lemma {:induction false} SetsNew(attrs: Attrs, name: Units, value: Units)
    requires name != U("__proto__") && forall i :: 0 <= i < |attrs| ==> attrs[i].0 != name
    ensures SetAttr(attrs, name, value) == attrs + [(name, value)]
    decreases |attrs|
  {
    if attrs != [] {
      assert forall i :: 0 <= i < |attrs[1..]| ==> attrs[1..][i] == attrs[i + 1];
      SetsNew(attrs[1..], name, value);
      assert [attrs[0]] + (attrs[1..] + [(name, value)]) == attrs + [(name, value)];
    }
  }

  lemma {:induction false} AttrsReadBack(attrs: Attrs)
    requires forall i :: 0 <= i < |attrs| ==> attrs[i].0 != U("__proto__")
    requires forall i, j :: 0 <= i < j < |attrs| ==> attrs[i].0 != attrs[j].0
    ensures ReadAttrs(EscapeAttrs(attrs)) == Success(attrs)
    decreases |attrs|
  {
    if attrs != [] {
      var n := |attrs| - 1;
      var front, last := attrs[..n], attrs[n];
      AttrsReadBack(front);
      EscapeRoundTrip(last.1);
      SetsNew(front, last.0, last.1);
      assert front + [last] == attrs;
      ReadsOneMore(EscapeAttrs(front), last.0, Escape(last.1));
      assert EscapeAttrs(attrs) == EscapeAttrs(front) + [(last.0, Escape(last.1))];
    }
  }

  lemma ReadsOneMore(raw: Attrs, name: Units, value: Units)
    requires ReadAttrs(raw).Success? && DecodeEntities(value).Success?
    ensures ReadAttrs(raw + [(name, value)]) == Success(SetAttr(ReadAttrs(raw).value, name, DecodeEntities(value).value))
  {
    assert (raw + [(name, value)])[..|raw|] == raw;
  }

  lemma {:induction false} ItemsReadBack(nodes: seq<Node>)
    requires Printable(nodes)
    ensures NodesOf(ItemsOf(nodes)) == Some(nodes)
    decreases nodes, 1
  {
    if nodes != [] {
      ItemReadsBack(nodes[0]);
      ItemsReadBack(nodes[1..]);
      assert ItemsOf(nodes)[1..] == ItemsOf(nodes[1..]);
      assert [nodes[0]] + nodes[1..] == nodes;
    }
  }

  lemma {:induction false} ItemReadsBack(node: Node)
    requires PrintableNode(node)
    ensures NodesOfOne(ItemOf(node)) == Some([node])
    decreases node, 2
  {
    match node
    case Text(text) => EscapeRoundTrip(text);
    case Element(tag, attrs, children) =>
      AttrsReadBack(attrs);
      ItemsReadBack(children);
  }

  // ── From tokens to a source and back ──────────────────────────────────────────────────────

  /** Tokens a source can hold: no empty text, no two texts side by side, no blank text at the end. */
  ghost predicate Separable(tokens: seq<Token>) {
    && (forall i :: 0 <= i < |tokens| && tokens[i].Words? ==> tokens[i].raw != [])
    && (forall i :: 0 <= i < |tokens| - 1 && tokens[i].Words? ==> tokens[i + 1].Mark?)
  }

  ghost predicate EndsInWords(tokens: seq<Token>) {
    tokens != [] && tokens[|tokens| - 1].Words?
  }

  ghost predicate BlankEnd(tokens: seq<Token>) {
    EndsInWords(tokens) && Blank(tokens[|tokens| - 1].raw)
  }

  function Before(piece: (Units, Markup), rest: Source): Source {
    Source([piece] + rest.pieces, rest.tail)
  }

  function SourceOf(tokens: seq<Token>): Source
    decreases |tokens|
  {
    if tokens == [] then Source([], [])
    else if tokens[0].Mark? then Before(([], tokens[0].markup), SourceOf(tokens[1..]))
    else if |tokens| == 1 || tokens[1].Words? then Source([], tokens[0].raw)
    else Before((tokens[0].raw, tokens[1].markup), SourceOf(tokens[2..]))
  }

  lemma {:induction false} TokensReadBack(tokens: seq<Token>)
    requires Separable(tokens) && !BlankEnd(tokens)
    ensures TokensOf(SourceOf(tokens).pieces, SourceOf(tokens).tail) == tokens
    decreases |tokens|
  {
    if tokens != [] && !(|tokens| == 1 && tokens[0].Words?) {
      var k := if tokens[0].Mark? then 1 else 2;
      var rest := tokens[k..];
      RestSeparable(tokens, k);
      TokensReadBack(rest);
      BeforeTokens(if k == 1 then [] else tokens[0].raw, tokens[k - 1].markup, SourceOf(rest));
      assert tokens == tokens[..k] + rest;
    }
  }

  lemma RestSeparable(tokens: seq<Token>, k: nat)
    requires Separable(tokens) && !BlankEnd(tokens) && k <= |tokens|
    ensures Separable(tokens[k..]) && !BlankEnd(tokens[k..])
  {
    var rest := tokens[k..];
    assert forall i :: 0 <= i < |rest| ==> rest[i] == tokens[i + k];
  }

  lemma BeforeTokens(text: Units, markup: Markup, rest: Source)
    ensures var source := Before((text, markup), rest);
            TokensOf(source.pieces, source.tail) ==
            (if text == [] then [] else [Words(text)]) + [Mark(markup)] + TokensOf(rest.pieces, rest.tail)
  {
    assert ([(text, markup)] + rest.pieces)[1..] == rest.pieces;
  }

  lemma {:induction false} EscapeKeepsInk(s: Units)
    ensures s != [] ==> Escape(s) != []
    ensures Blank(Escape(s)) <==> Blank(s)
    decreases |s|
  {
    if s != [] {
      EscapeKeepsInk(s[1..]);
      EscapeFirst(s);
      EscapedUnitInk(s[0]);
      BlankJoin(SpellPart(EscapePart(s[0])), Escape(s[1..]));
      BlankJoin([s[0]], s[1..]);
      assert [s[0]] + s[1..] == s;
    }
  }

  lemma EscapeFirst(s: Units)
    requires s != []
    ensures Escape(s) == SpellPart(EscapePart(s[0])) + Escape(s[1..])
  {
    assert EscapeParts(s)[1..] == EscapeParts(s[1..]);
  }

  lemma EscapedUnitInk(u: int)
    ensures Blank(SpellPart(EscapePart(u))) <==> Blank([u])
  {
    var spelt := SpellPart(EscapePart(u));
    assert spelt[0] in spelt && u in [u];
    if EscapePart(u).Plain? { assert spelt == [u]; } else { assert spelt[0] == AMP && !TextLines.IsSpaceCode(u); }
  }

  lemma BlankJoin(a: Units, b: Units)
    ensures Blank(a + b) <==> Blank(a) && Blank(b)
  {
    assert forall u :: u in a + b <==> u in a || u in b;
  }

  /** Printed content can be put in a source, and its ends are texts exactly where the tree's are. */
  lemma {:induction false} PrintsSeparable(nodes: seq<Node>)
    requires Printable(nodes)
    ensures Separable(Print(nodes))
    ensures nodes == [] <==> Print(nodes) == []
    ensures nodes != [] ==> (Print(nodes)[0].Words? <==> nodes[0].Text?)
    ensures nodes != [] && nodes[|nodes| - 1].Text? ==> EndsInWords(Print(nodes))
    ensures EndsInWords(Print(nodes)) ==> nodes != [] && nodes[|nodes| - 1].Text?
    ensures EndsInWords(Print(nodes)) ==> Print(nodes)[|Print(nodes)| - 1].raw == Escape(nodes[|nodes| - 1].text)
    decreases nodes, 1
  {
    if nodes != [] {
      var first, rest := YieldOne(ItemOf(nodes[0])), Print(nodes[1..]);
      PrintsOne(nodes[0]);
      PrintsSeparable(nodes[1..]);
      assert ItemsOf(nodes)[1..] == ItemsOf(nodes[1..]);
      assert Print(nodes) == first + rest;
      Joined(first, rest);
    }
  }

  lemma Joined(a: seq<Token>, b: seq<Token>)
    requires Separable(a) && Separable(b) && !(EndsInWords(a) && b != [] && b[0].Words?)
    ensures Separable(a + b)
  {
  }

  lemma {:induction false} PrintsOne(node: Node)
    requires PrintableNode(node)
    ensures Separable(YieldOne(ItemOf(node)))
    ensures YieldOne(ItemOf(node))[0].Words? <==> node.Text?
    ensures EndsInWords(YieldOne(ItemOf(node))) <==> node.Text?
    ensures node.Text? ==> YieldOne(ItemOf(node)) == [Words(Escape(node.text))]
    decreases node, 2
  {
    match node
    case Text(text) => EscapeKeepsInk(text);
    case Element(tag, attrs, children) =>
      if !IsVoid(tag) {
        PrintsSeparable(children);
        var open, close := [Mark(Open(tag, EscapeAttrs(attrs), false))], [Mark(Close(tag))];
        Joined(open, Print(children));
        Joined(open + Print(children), close);
      }
  }

  /** Printing a tree and parsing what was printed gives the tree back. */
  lemma PrintRoundTrip(nodes: seq<Node>)
    requires Printable(nodes)
    requires nodes != [] && nodes[|nodes| - 1].Text? ==> !Blank(nodes[|nodes| - 1].text)
    ensures Parse(SourceOf(Print(nodes))) == Success(nodes)
  {
    PrintsSeparable(nodes);
    if EndsInWords(Print(nodes)) { EscapeKeepsInk(nodes[|nodes| - 1].text); }
    TokensReadBack(Print(nodes));
    ItemsReadBack(nodes);
    ParsesIffBalanced(SourceOf(Print(nodes)), nodes);
  }
}
