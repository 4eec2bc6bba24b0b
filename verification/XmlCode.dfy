/** The methods of tinyxml2 that print and parse. */
module XmlCode {
  // They are proved to compute the functions of XmlDoc.  Together with XmlRoundTrip: what the
  // printer writes, the parser reads back.

  import opened Bytes
  import opened XmlText
  import opened XmlDoc

  // ----- Printing --------------------------------------------------------------------

  lemma {:induction false} OneMoreNode(nodes: seq<Node>, i: nat)
    requires i < |nodes|
    ensures PrintNodes(nodes[..i + 1]) == PrintNodes(nodes[..i]) + PrintNode(nodes[i])
    decreases i
  {
    hide PrintNode;
    if i == 0 {
      assert nodes[..1][1..] == [];
    } else {
      assert nodes[..i + 1][1..] == nodes[1..][..i] && nodes[..i][1..] == nodes[1..][..i - 1];
      OneMoreNode(nodes[1..], i - 1);
      Assoc(PrintNode(nodes[0]), PrintNodes(nodes[1..][..i - 1]), PrintNode(nodes[i]));
    }
  }

  lemma {:induction false} OneMoreAttribute(attributes: seq<Attribute>, i: nat)
    requires i < |attributes|
    ensures PrintAttributes(attributes[..i + 1]) == PrintAttributes(attributes[..i]) + AttributeOf(attributes[i])
    decreases i
  {
    hide Escape;
    if i == 0 {
      assert attributes[..1][1..] == [];
      assert PrintAttributes([]) == [];
    } else {
      assert attributes[..i + 1][1..] == attributes[1..][..i] && attributes[..i][1..] == attributes[1..][..i - 1];
      OneMoreAttribute(attributes[1..], i - 1);
      Assoc(AttributeOf(attributes[0]), PrintAttributes(attributes[1..][..i - 1]), AttributeOf(attributes[i]));
    }
  }

  function AttributeOf(a: Attribute): Text {
    [SPACE] + a.name + [EQUALS, QUOT] + Escape(a.value, false) + [QUOT]
  }

  /** What is still to be written for a tag that was just opened. */
  function Seal(justOpened: bool): Text {
    if justOpened then [GT] else []
  }

  lemma ThreeParts(w: Text, a: Text, b: Text, c: Text)
    ensures w + a + b + c == w + (a + b + c)
  {
  }

  /** XMLPrinter in compact mode.  The buffer ends with a terminator that is overwritten by
      what is written next. */
  class XmlPrinter {
    var buffer: seq<byte>
    var stack: seq<Text>
    var depth: int
    var textDepth: int
    var elementJustOpened: bool

    predicate Valid()
      reads this
    {
      buffer != [] && buffer[|buffer|-1] == 0
    }

    function Written(): Text
      requires Valid()
      reads this
    {
      buffer[..|buffer|-1]
    }

    constructor ()
      ensures Valid() && Written() == [] && !elementJustOpened && stack == [] && depth == 0
    {
      buffer, stack, depth, textDepth, elementJustOpened := [0], [], 0, -1, false;
    }

    method Write(data: Text)
      requires Valid()
      modifies `buffer
      ensures Valid() && Written() == old(Written()) + data
    {
      buffer := buffer[..|buffer|-1] + data + [0];
    }

    method SealElementIfJustOpened()
      requires Valid()
      modifies `buffer, `elementJustOpened
      ensures Valid() && Written() == old(Written()) + Seal(old(elementJustOpened)) && !elementJustOpened
    {
      if !elementJustOpened { return; }
      elementJustOpened := false;
      Write([GT]);
    }

    method OpenElement(name: Text)
      requires Valid()
      modifies this
      ensures Valid() && Written() == old(Written()) + Seal(old(elementJustOpened)) + ([LT] + name)
      ensures elementJustOpened && stack == old(stack) + [name] && depth == old(depth) + 1
        && textDepth == old(textDepth)
    {
      SealElementIfJustOpened();
      stack := stack + [name];
      Write([LT]);
      Write(name);
      elementJustOpened := true;
      depth := depth + 1;
    }

    method PushAttribute(a: Attribute)
      requires Valid() && elementJustOpened
      modifies `buffer
      ensures Valid() && Written() == old(Written()) + AttributeOf(a)
    {
      hide Escape;
      Write([SPACE]);
      Write(a.name);
      Write([EQUALS, QUOT]);
      var value := PrintString(a.value, false);
      Write(value);
      Write([QUOT]);
    }

    /** The printer keeps the names of the open elements, so the end tag gets the right one. */
    method CloseElement()
      requires Valid() && stack != []
      modifies this
      ensures Valid() && !elementJustOpened && stack == old(stack)[..|old(stack)|-1] && depth == old(depth) - 1
      ensures Written() == old(Written()) + if old(elementJustOpened) then [SLASH, GT]
        else CloseTag(old(stack)[|old(stack)|-1])
    {
      depth := depth - 1;
      var name := stack[|stack|-1];
      stack := stack[..|stack|-1];
      if elementJustOpened {
        Write([SLASH, GT]);
      } else {
        ThreeParts(Written(), [LT, SLASH], name, [GT]);
        Write([LT, SLASH]);
        Write(name);
        Write([GT]);
      }
      if textDepth == depth { textDepth := -1; }
      elementJustOpened := false;
    }

    method PushText(text: Text, cdata: bool)
      requires Valid()
      modifies `buffer, `elementJustOpened, `textDepth
      ensures Valid() && !elementJustOpened
      ensures Written() == old(Written()) + Seal(old(elementJustOpened))
        + PrintNode(if cdata then CData(text) else PlainText(text))
    {
      textDepth := depth - 1;
      SealElementIfJustOpened();
      if cdata {
        ThreeParts(Written(), CDATA_HEADER, text, CDATA_END);
        Write(CDATA_HEADER);
        Write(text);
        Write(CDATA_END);
      } else {
        var t := PrintString(text, true);
        Write(t);
      }
    }

    /** PushComment, PushDeclaration and PushUnknown */
    method PushMarked(header: Text, value: Text, end: Text)
      requires Valid()
      modifies `buffer, `elementJustOpened
      ensures Valid() && !elementJustOpened
      ensures Written() == old(Written()) + Seal(old(elementJustOpened)) + (header + value + end)
    {
      SealElementIfJustOpened();
      ThreeParts(Written(), header, value, end);
      Write(header);
      Write(value);
      Write(end);
    }

    /** Accept: print a node with everything in it. */
    method Accept(node: Node)
      requires Valid()
      modifies this
      ensures Valid() && !elementJustOpened && stack == old(stack) && depth == old(depth)
      ensures Written() == old(Written()) + Seal(old(elementJustOpened)) + PrintNode(node)
      decreases node
    {
      match node {
        case Element(name, attributes, children) =>
          AcceptElement(name, attributes, children);
        case PlainText(value) => PushText(value, false);
        case CData(value) => PushText(value, true);
        case Comment(value) => PushMarked(COMMENT_HEADER, value, COMMENT_END);
        case Declaration(value) => PushMarked(XML_HEADER, value, XML_END);
        case UnknownNode(value) => PushMarked(DTD_HEADER, value, [GT]);
      }
    }

    method AcceptElement(name: Text, attributes: seq<Attribute>, children: seq<Node>)
      requires Valid()
      modifies this
      ensures Valid() && !elementJustOpened && stack == old(stack) && depth == old(depth)
      ensures Written() == old(Written()) + Seal(old(elementJustOpened))
        + PrintNode(Element(name, attributes, children))
      decreases children, 1
    {
      hide PrintAttributes, PrintNodes, AttributeOf, CloseTag;
      OpenElement(name);
      ghost var start := old(Written()) + Seal(old(elementJustOpened));
      assert PrintAttributes(attributes[..0]) == [] && PrintNodes(children[..0]) == [] by { NothingPrinted(); }
      for i := 0 to |attributes|
        invariant Valid() && elementJustOpened && stack == old(stack) + [name] && depth == old(depth) + 1
        invariant Written() == start + OpenTag(name, attributes[..i])
      {
        OneMoreAttribute(attributes, i);
        PushAttribute(attributes[i]);
        Assoc(start, OpenTag(name, attributes[..i]), AttributeOf(attributes[i]));
        Assoc([LT] + name, PrintAttributes(attributes[..i]), AttributeOf(attributes[i]));
      }
      assert attributes[..|attributes|] == attributes && children[..|children|] == children;
      ghost var open := start + OpenTag(name, attributes);
      for i := 0 to |children|
        invariant Valid() && stack == old(stack) + [name] && depth == old(depth) + 1 && (elementJustOpened <==> i == 0)
        invariant Written() == open + if i == 0 then [] else [GT] + PrintNodes(children[..i])
      {
        OneMoreNode(children, i);
        ghost var before := Written();
        Accept(children[i]);
        ChildWritten(open, PrintNodes(children[..i]), PrintNode(children[i]), i);
      }
      CloseElement();
    }
  }

  lemma NothingPrinted()
    ensures PrintAttributes([]) == [] && PrintNodes([]) == []
  {
  }

  lemma ChildWritten(open: Text, printed: Text, node: Text, i: nat)
    ensures i == 0 && printed == [] ==> open + [] + [GT] + node == open + ([GT] + (printed + node))
    ensures open + ([GT] + printed) + [] + node == open + ([GT] + (printed + node))
  {
  }

  /** Print a document. */
  method PrintDocument(nodes: seq<Node>) returns (t: Text)
    ensures t == PrintNodes(nodes)
  {
    hide PrintNode, PrintNodes;
    var p := new XmlPrinter();
    NothingPrinted();
    for i := 0 to |nodes|
      invariant p.Valid() && !p.elementJustOpened && fresh(p)
      invariant p.Written() == PrintNodes(nodes[..i])
    {
      OneMoreNode(nodes, i);
      assert p.Written() + Seal(false) == p.Written();
      p.Accept(nodes[i]);
    }
    assert nodes[..|nodes|] == nodes;
    t := p.Written();
  }

  // ----- Parsing ---------------------------------------------------------------------

  method Skip(t: Text) returns (r: Text)
    ensures r == SkipWhiteSpace(t)
  {
    r := t;
    while IsWhiteSpace(Head(r))
      invariant SkipWhiteSpace(r) == SkipWhiteSpace(t)
      decreases |r|
    {
      r := r[1..];
    }
  }

  /** The value with the bytes already passed in front. */
  function Behind(passed: Text, s: Scan): Scan {
    match s
    case Scan(v, r) => Scan(passed + v, r)
    case NoEnd => NoEnd
  }

  /** StrPair::ParseText */
  method ReadText(t: Text, endTag: Text) returns (r: Scan)
    requires endTag != []
    ensures r == ParseText(t, endTag)
  {
    var p := t;
    var passed: Text := [];
    while Head(p) != 0
      invariant Behind(passed, ParseText(p, endTag)) == ParseText(t, endTag)
      decreases |p|
    {
      if endTag <= p {
        assert passed + [] == passed;
        return Scan(passed, p[|endTag|..]);
      }
      passed := passed + [p[0]];
      p := p[1..];
    }
    r := NoEnd;
  }

  /** StrPair::ParseName */
  method ReadName(t: Text) returns (r: Scan)
    ensures r == ParseName(t)
  {
    if Head(t) == 0 || !IsNameStartChar(Head(t)) { return NoEnd; }
    var p := t[1..];
    var passed := [t[0]];
    while Head(p) != 0 && IsNameChar(Head(p))
      invariant Behind(passed, NameRest(p)) == ParseName(t)
      decreases |p|
    {
      passed := passed + [p[0]];
      p := p[1..];
    }
    assert passed + [] == passed;
    r := Scan(passed, p);
  }

  /** XMLAttribute::ParseDeep */
  method ReadAttribute(t: Text) returns (r: AttributeResult)
    ensures r == ParseAttribute(t)
  {
    hide ParseName, ParseText, SkipWhiteSpace;
    var name := ReadName(t);
    if name.NoEnd? || Head(name.rest) == 0 { return NoAttribute; }
    var p := Skip(name.rest);
    if Head(p) != EQUALS { return NoAttribute; }
    p := Skip(p[1..]);
    if Head(p) != QUOT && Head(p) != APOS { return NoAttribute; }
    var value := ReadText(p[1..], [p[0]]);
    if value.NoEnd? { return NoAttribute; }
    r := AttributeOk(Attribute(name.value, Decode(value.value, true)), value.rest);
  }

  /** FindAttribute */
  method FindAttribute(attributes: seq<Attribute>, name: Text) returns (found: bool)
    ensures found == HasAttribute(attributes, name)
  {
    for i := 0 to |attributes|
      invariant forall j :: 0 <= j < i ==> attributes[j].name != name
    {
      if attributes[i].name == name { return true; }
    }
    found := false;
  }

  /** ParseAttributes */
  method ReadAttributes(t: Text) returns (r: AttributesResult)
    ensures r == ParseAttributes(t, [])
  {
    hide ParseAttribute, SkipWhiteSpace, HasAttribute;
    var p := t;
    var done: seq<Attribute> := [];
    while true
      invariant ParseAttributes(p, done) == ParseAttributes(t, [])
      decreases |p|
    {
      ghost var before := p;
      p := Skip(p);
      if Head(p) == 0 { return TagError(ParsingElement); }
      if IsNameStartChar(Head(p)) {
        var a := ReadAttribute(p);
        if a.NoAttribute? { return TagError(ParsingAttribute); }
        var found := FindAttribute(done, a.attribute.name);
        if found { return TagError(ParsingAttribute); }
        done := done + [a.attribute];
        p := a.rest;
      } else if Head(p) == GT {
        return Tag(done, false, p[1..]);
      } else if Head(p) == SLASH && Head(p[1..]) == GT {
        return Tag(done, true, p[2..]);
      } else {
        return TagError(ParsingElement);
      }
    }
  }

  /** XMLDocument::Identify */
  method ReadKind(t: Text) returns (kind: Kind, u: Text)
    ensures (kind, u) == Identify(t)
  {
    hide SkipWhiteSpace;
    u := Skip(t);
    if Head(u) == 0 { return KNone, u; }
    if XML_HEADER <= u { return KDeclaration, u[2..]; }
    if COMMENT_HEADER <= u { return KComment, u[4..]; }
    if CDATA_HEADER <= u { return KCData, u[9..]; }
    if DTD_HEADER <= u { return KUnknown, u[2..]; }
    if u[0] == LT { return KElement, u[1..]; }
    kind, u := KText, t;
  }

  /** XMLNode::ParseDeep: the loop over the nodes of one level. */
  method ReadLevel(t: Text, depth: nat) returns (r: Level)
    ensures r == ParseLevel(t, depth, [])
    decreases |t|, 1
  {
    hide Identify, ParseItem;
    var p := t;
    var done: seq<Node> := [];
    while Head(p) != 0
      invariant ParseLevel(p, depth, done) == ParseLevel(t, depth, []) && |p| <= |t|
      decreases |p|
    {
      var kind, u := ReadKind(p);
      if kind == KNone { return Ended(done); }
      var item := ReadItem(p, kind, u, depth, done);
      match item {
        case NodeItem(n, v) => done := done + [n]; p := v;
        case EndTag(tag, v) => return Closed(done, tag, v);
        case ItemError(e) => return LevelError(e);
      }
    }
    r := Ended(done);
  }

  /** The ParseDeep of texts, comments and the like, or of an element. */
  method ReadItem(t: Text, kind: Kind, u: Text, depth: nat, done: seq<Node>) returns (r: Item)
    requires Identify(t) == (kind, u) && kind != KNone
    ensures r == ParseItem(t, kind, u, depth, done)
    decreases |t|, 0
  {
    hide ParseText, ParseElement, Identify, Decode;
    if kind == KElement {
      assert |u| < |t|;
      r := ReadElement(u, depth);
      return;
    }
    var endTag := if kind == KDeclaration then XML_END else if kind == KComment then COMMENT_END
      else if kind == KCData then CDATA_END
      else if kind == KUnknown then [GT] else [LT];
    var s := ReadText(u, endTag);
    match s {
      case NoEnd =>
        r := ItemError(if kind == KDeclaration then ParsingDeclaration else if kind == KComment then ParsingComment
          else if kind == KCData then ParsingCData else if kind == KUnknown then ParsingUnknown else ParsingText);
      case Scan(v, rest) =>
        if kind == KDeclaration {
          r := if depth == 1 && OnlyDeclarations(done) then NodeItem(Declaration(Decode(v, false)), rest)
            else ItemError(ParsingDeclaration);
        } else if kind == KComment {
          r := NodeItem(Comment(Decode(v, false)), rest);
        } else if kind == KCData {
          r := NodeItem(CData(Decode(v, false)), rest);
        } else if kind == KUnknown {
          r := NodeItem(UnknownNode(Decode(v, false)), rest);
        } else if Head(rest) == 0 {
          r := ItemError(Parsing);
        } else {
          r := NodeItem(PlainText(Decode(v, true)), [LT] + rest);
        }
    }
  }

  /** XMLElement::ParseDeep, with the checks of the end tag that its caller makes. */
  method ReadElement(t: Text, depth: nat) returns (r: Item)
    ensures r == ParseElement(t, depth)
    decreases |t|, 2
  {
    hide ParseName, ParseAttributes, SkipWhiteSpace, ParseLevel;
    var p := Skip(t);
    var closing := Head(p) == SLASH;
    if closing { p := p[1..]; }
    var name := ReadName(p);
    if name.NoEnd? { return ItemError(Parsing); }
    var tag := ReadAttributes(name.rest);
    match tag {
      case TagError(e) => r := ItemError(e);
      case Tag(attributes, closed, x) =>
        if closed { return NodeItem(Element(name.value, attributes, []), x); }
        if closing { return EndTag(name.value, x); }
        if Head(x) == 0 { return ItemError(MismatchedElement); }
        if depth + 1 == MAX_ELEMENT_DEPTH { return ItemError(DepthExceeded); }
        var level := ReadLevel(x, depth + 1);
        match level {
          case LevelError(e) => r := ItemError(e);
          case Ended(_) => r := ItemError(Parsing);
          case Closed(children, endTag, y) =>
            r := if endTag == name.value then NodeItem(Element(name.value, attributes, children), y)
              else ItemError(MismatchedElement);
        }
    }
  }

  /** XMLDocument::Parse */
  method ReadDocument(t: Text) returns (r: Document)
    ensures r == ParseDocument(t)
  {
    hide ParseLevel, SkipWhiteSpace;
    if Head(t) == 0 { return ParseError(EmptyDocument); }
    var p := Skip(t);
    p := SkipByteOrderMark(p);
    if Head(p) == 0 { return ParseError(EmptyDocument); }
    var level := ReadLevel(p, 1);
    match level {
      case LevelError(e) => r := ParseError(e);
      case Ended(nodes) => r := Parsed(nodes);
      case Closed(nodes, _, _) => r := Parsed(nodes);
    }
  }
}
