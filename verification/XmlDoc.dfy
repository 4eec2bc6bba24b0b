/** Documents of tinyxml2: the compact print of a tree, and parsing.

    A parser returns what it read and the rest of the text.  ParseLevel reads the siblings of
    one level, up to the closing tag that it returns to the level above. */
module XmlDoc {
  import opened Bytes
  import opened XmlText

  datatype Node =
    | Element(name: Text, attributes: seq<Attribute>, children: seq<Node>)
    | PlainText(value: Text)
    | CData(value: Text)
    | Comment(value: Text)
    | Declaration(value: Text)
    | UnknownNode(value: Text)

  datatype Attribute = Attribute(name: Text, value: Text)

  datatype Error =
    | EmptyDocument | DepthExceeded | Parsing | ParsingElement | ParsingAttribute | ParsingText | ParsingCData
    | ParsingComment | ParsingDeclaration | ParsingUnknown | MismatchedElement

  const MAX_ELEMENT_DEPTH: nat := 100

  const SPACE: byte := 32
  const EXCLAMATION: byte := 33
  const SLASH: byte := 47
  const EQUALS: byte := 61
  const QUESTION: byte := 63
  const XML_HEADER: Text := [LT, QUESTION]
  const COMMENT_HEADER: Text := [LT, EXCLAMATION, 45, 45]
  const CDATA_HEADER: Text := [LT, EXCLAMATION, 91, 67, 68, 65, 84, 65, 91]
  const DTD_HEADER: Text := [LT, EXCLAMATION]
  const COMMENT_END: Text := [45, 45, GT]
  const CDATA_END: Text := [93, 93, GT]
  const XML_END: Text := [QUESTION, GT]

  // ----- Character classes -----------------------------------------------------------

  predicate IsWhiteSpace(b: byte) {
    b == 32 || 9 <= b <= 13
  }

  predicate IsNameStartChar(b: byte) {
    b >= 128 || 65 <= b <= 90 || 97 <= b <= 122 || b == 58 || b == 95
  }

  predicate IsNameChar(b: byte) {
    IsNameStartChar(b) || 48 <= b <= 57 || b == 46 || b == 45
  }

  function SkipWhiteSpace(t: Text): (r: Text)
    ensures |r| <= |t|
  {
    if IsWhiteSpace(Head(t)) then SkipWhiteSpace(t[1..]) else t
  }

  // ----- Printing --------------------------------------------------------------------

  function PrintAttributes(attributes: seq<Attribute>): Text {
    if attributes == [] then []
    else
      [SPACE] + attributes[0].name + [EQUALS, QUOT] + Escape(attributes[0].value, false) + [QUOT]
      + PrintAttributes(attributes[1..])
  }

  function OpenTag(name: Text, attributes: seq<Attribute>): Text {
    [LT] + name + PrintAttributes(attributes)
  }

  function CloseTag(name: Text): Text {
    [LT, SLASH] + name + [GT]
  }

  function PrintNode(node: Node): Text
    decreases node
  {
    match node
    case Element(name, attributes, children) =>
      if children == [] then OpenTag(name, attributes) + [SLASH, GT]
      else OpenTag(name, attributes) + [GT] + PrintNodes(children) + CloseTag(name)
    case PlainText(value) => Escape(value, true)
    case CData(value) => CDATA_HEADER + value + CDATA_END
    case Comment(value) => COMMENT_HEADER + value + COMMENT_END
    case Declaration(value) => XML_HEADER + value + XML_END
    case UnknownNode(value) => DTD_HEADER + value + [GT]
  }

  function PrintNodes(nodes: seq<Node>): Text
    decreases nodes
  {
    if nodes == [] then [] else PrintNode(nodes[0]) + PrintNodes(nodes[1..])
  }

  // ----- Parsing ---------------------------------------------------------------------

  datatype Scan = Scan(value: Text, rest: Text) | NoEnd

  /** StrPair::ParseText: up to the end tag, and past it. */
  function ParseText(t: Text, endTag: Text): (r: Scan)
    requires endTag != []
    ensures r.Scan? ==> |r.value| + |endTag| + |r.rest| == |t|
    ensures r.Scan? && !(endTag <= t) ==> r.value != []
  {
    if Head(t) == 0 then NoEnd
    else if endTag <= t then Scan([], t[|endTag|..])
    else
      match ParseText(t[1..], endTag)
      case Scan(v, r) => Scan([t[0]] + v, r)
      case NoEnd => NoEnd
  }

  /** The bytes of a name from here on. */
  function NameRest(t: Text): (r: Scan)
    ensures r.Scan? && |r.value| + |r.rest| == |t|
  {
    if Head(t) != 0 && IsNameChar(Head(t)) then
      var s := NameRest(t[1..]);
      Scan([t[0]] + s.value, s.rest)
    else Scan([], t)
  }

  function ParseName(t: Text): (r: Scan)
    ensures r.Scan? ==> |r.value| + |r.rest| == |t| && r.value != []
  {
    if Head(t) == 0 || !IsNameStartChar(Head(t)) then NoEnd
    else
      var s := NameRest(t[1..]);
      Scan([t[0]] + s.value, s.rest)
  }

  datatype Kind = KDeclaration | KComment | KCData | KUnknown | KElement | KText | KNone

  /** XMLDocument::Identify: what comes next, and where to parse it. */
  function Identify(t: Text): (r: (Kind, Text))
    ensures r.0 != KNone && r.0 != KText ==> |r.1| < |t|
    ensures r.0 == KText ==> r.1 == t && t != [] && t[0] != LT
  {
    var u := SkipWhiteSpace(t);
    if Head(u) == 0 then (KNone, u)
    else if XML_HEADER <= u then (KDeclaration, u[2..])
    else if COMMENT_HEADER <= u then (KComment, u[4..])
    else if CDATA_HEADER <= u then (KCData, u[9..])
    else if DTD_HEADER <= u then (KUnknown, u[2..])
    else if u[0] == LT then (KElement, u[1..])
    else (KText, t)
  }

  datatype AttributeResult = AttributeOk(attribute: Attribute, rest: Text) | NoAttribute

  /** XMLAttribute::ParseDeep */
  function ParseAttribute(t: Text): (r: AttributeResult)
    ensures r.AttributeOk? ==> |r.rest| < |t|
  {
    match ParseName(t)
    case NoEnd => NoAttribute
    case Scan(name, u) =>
      if Head(u) == 0 then NoAttribute
      else
        var v := SkipWhiteSpace(u);
        if Head(v) != EQUALS then NoAttribute
        else
          var w := SkipWhiteSpace(v[1..]);
          if Head(w) != QUOT && Head(w) != APOS then NoAttribute
          else
            (match ParseText(w[1..], [w[0]])
             case NoEnd => NoAttribute
             case Scan(raw, x) => AttributeOk(Attribute(name, Decode(raw, true)), x))
  }

  predicate HasAttribute(attributes: seq<Attribute>, name: Text) {
    exists i :: 0 <= i < |attributes| && attributes[i].name == name
  }

  datatype AttributesResult = Tag(attributes: seq<Attribute>, closed: bool, rest: Text) | TagError(error: Error)

  /** ParseAttributes, after those in `done`; `closed` for a tag that ends in a slash. */
  function ParseAttributes(t: Text, done: seq<Attribute>): (r: AttributesResult)
    ensures r.Tag? ==> |r.rest| < |t|
    decreases |t|
  {
    var u := SkipWhiteSpace(t);
    if Head(u) == 0 then TagError(ParsingElement)
    else if IsNameStartChar(Head(u)) then
      match ParseAttribute(u)
      case NoAttribute => TagError(ParsingAttribute)
      case AttributeOk(a, v) => if HasAttribute(done, a.name) then TagError(ParsingAttribute)
        else ParseAttributes(v, done + [a])
    else if Head(u) == GT then Tag(done, false, u[1..])
    else if Head(u) == SLASH && Head(u[1..]) == GT then Tag(done, true, u[2..])
    else TagError(ParsingElement)
  }

  /** `Closed`: the end tag of the level was read.  `Ended`: the text ended first. */
  datatype Level = Closed(nodes: seq<Node>, tag: Text, rest: Text) | Ended(nodes: seq<Node>) | LevelError(error: Error)

  datatype Item = NodeItem(node: Node, rest: Text) | EndTag(tag: Text, after: Text) | ItemError(error: Error)

  predicate OnlyDeclarations(nodes: seq<Node>) {
    forall i :: 0 <= i < |nodes| ==> nodes[i].Declaration?
  }

  /** XMLNode::ParseDeep at parsing depth `depth`, after the nodes in `done`. */
  function ParseLevel(t: Text, depth: nat, done: seq<Node>): (r: Level)
    ensures r.Closed? ==> |r.rest| < |t|
    decreases |t|, 1
  {
    if Head(t) == 0 then Ended(done)
    else
      var (kind, u) := Identify(t);
      if kind == KNone then Ended(done)
      else
        match ParseItem(t, kind, u, depth, done)
        case NodeItem(n, v) => ParseLevel(v, depth, done + [n])
        case EndTag(tag, v) => Closed(done, tag, v)
        case ItemError(e) => LevelError(e)
  }

  /** The ParseDeep of the node that was identified. */
  function ParseItem(t: Text, kind: Kind, u: Text, depth: nat, done: seq<Node>): (r: Item)
    requires Identify(t) == (kind, u) && kind != KNone
    ensures r.EndTag? ==> |r.after| < |t|
    ensures r.NodeItem? ==> |r.rest| < |t|
    decreases |t|, 0
  {
    match kind
    case KDeclaration =>
      (match ParseText(u, XML_END)
       case NoEnd => ItemError(ParsingDeclaration)
       case Scan(v, r) => if depth == 1 && OnlyDeclarations(done) then NodeItem(Declaration(Decode(v, false)), r)
         else ItemError(ParsingDeclaration))
    case KComment =>
      (match ParseText(u, COMMENT_END)
       case NoEnd => ItemError(ParsingComment)
       case Scan(v, r) => NodeItem(Comment(Decode(v, false)), r))
    case KCData =>
      (match ParseText(u, CDATA_END)
       case NoEnd => ItemError(ParsingCData)
       case Scan(v, r) => NodeItem(CData(Decode(v, false)), r))
    case KUnknown =>
      (match ParseText(u, [GT])
       case NoEnd => ItemError(ParsingUnknown)
       case Scan(v, r) => NodeItem(UnknownNode(Decode(v, false)), r))
    case KText =>
      (match ParseText(u, [LT])
       case NoEnd => ItemError(ParsingText)
       case Scan(v, r) => if Head(r) == 0 then ItemError(Parsing) else NodeItem(PlainText(Decode(v, true)), [LT] + r))
    case KElement => ParseElement(u, depth)
  }

  /** XMLElement::ParseDeep, after the less-than sign. */
  function ParseElement(t: Text, depth: nat): (r: Item)
    ensures r.EndTag? ==> |r.after| < |t|
    ensures r.NodeItem? ==> |r.rest| < |t|
    decreases |t|, 2
  {
    var u := SkipWhiteSpace(t);
    var closing := Head(u) == SLASH;
    var v := if closing then u[1..] else u;
    match ParseName(v)
    case NoEnd => ItemError(Parsing)
    case Scan(name, w) =>
      match ParseAttributes(w, [])
      case TagError(e) => ItemError(e)
      case Tag(attributes, closed, x) =>
        if closed then NodeItem(Element(name, attributes, []), x)
        else if closing then EndTag(name, x)
        else if Head(x) == 0 then ItemError(MismatchedElement)
        else if depth + 1 == MAX_ELEMENT_DEPTH then ItemError(DepthExceeded)
        else
          match ParseLevel(x, depth + 1, [])
          case LevelError(e) => ItemError(e)
          case Ended(_) => ItemError(Parsing)
          case Closed(children, tag, y) =>
            if tag == name then NodeItem(Element(name, attributes, children), y) else ItemError(MismatchedElement)
  }

  datatype Document = Parsed(nodes: seq<Node>) | ParseError(error: Error)

  const BYTE_ORDER_MARK: Text := [0xEF, 0xBB, 0xBF]

  /** ReadBOM */
  function SkipByteOrderMark(t: Text): Text {
    if BYTE_ORDER_MARK <= t then t[3..] else t
  }

  /** XMLDocument::Parse */
  function ParseDocument(t: Text): Document {
    var u := SkipByteOrderMark(SkipWhiteSpace(t));
    if Head(t) == 0 || Head(u) == 0 then ParseError(EmptyDocument)
    else
      match ParseLevel(u, 1, [])
      case Closed(nodes, _, _) => Parsed(nodes)
      case Ended(nodes) => Parsed(nodes)
      case LevelError(e) => ParseError(e)
  }
}
