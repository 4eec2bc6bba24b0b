/** Parsing the compact print of a tree. */
module XmlRoundTrip {
  import opened Bytes
  import opened XmlText
  import opened XmlDoc
  import opened Options

  // ----- The domain ------------------------------------------------------------------

  predicate ValidName(n: Text) {
    n != [] && IsNameStartChar(n[0]) && forall i :: 0 <= i < |n| ==> IsNameChar(n[i]) && n[i] != 0
  }

  predicate IsBlank(s: Text) {
    forall i :: 0 <= i < |s| ==> IsWhiteSpace(s[i])
  }

  predicate ValidAttributes(attributes: seq<Attribute>) {
    forall i :: 0 <= i < |attributes| ==> ValidName(attributes[i].name) && NoNul(attributes[i].value)
  }

  /** Is the tag somewhere in the text? */
  predicate Occurs(tag: Text, s: Text) {
    exists i :: 0 <= i <= |s| && tag <= s[i..]
  }

  /** Names as above, values without NUL, texts not blank and not next to each other. */
  predicate ValidNode(node: Node)
    decreases node
  {
    match node
    case Element(name, attributes, children) => ValidName(name) && ValidAttributes(attributes) && ValidNodes(children)
    case PlainText(value) => NoNul(value) && !IsBlank(value)
    case CData(value) => NoNul(value)
    case Comment(value) => NoNul(value)
    case Declaration(value) => NoNul(value)
    case UnknownNode(value) => NoNul(value)
  }

  predicate ValidNodes(nodes: seq<Node>)
    decreases nodes
  {
    nodes != [] ==>
      && ValidNode(nodes[0]) && ValidNodes(nodes[1..])
      && (1 < |nodes| && nodes[0].PlainText? ==> !nodes[1].PlainText?)
  }

  // ----- What the parser makes of a tree -------------------------------------------------

  /** Does the property hold of every node of the trees? */
  predicate Every(nodes: seq<Node>, p: Node -> bool)
    decreases nodes
  {
    nodes != [] ==> EveryIn(nodes[0], p) && Every(nodes[1..], p)
  }

  predicate EveryIn(node: Node, p: Node -> bool)
    decreases node
  {
    p(node) && (node.Element? ==> Every(node.children, p))
  }

  /** The nodes that are a marked piece of text. */
  predicate IsMarked(node: Node) {
    !node.Element? && !node.PlainText?
  }

  function HeaderOf(node: Node): Text
    requires IsMarked(node)
  {
    match node
    case CData(_) => CDATA_HEADER
    case Comment(_) => COMMENT_HEADER
    case Declaration(_) => XML_HEADER
    case UnknownNode(_) => DTD_HEADER
  }

  function EndOf(node: Node): (endTag: Text)
    requires IsMarked(node)
    ensures endTag != []
  {
    match node
    case CData(_) => CDATA_END
    case Comment(_) => COMMENT_END
    case Declaration(_) => XML_END
    case UnknownNode(_) => [GT]
  }

  /** A marked piece of text does not hold its own end mark, and an unknown one does not look
      like a comment or a CDATA section. */
  predicate MarkFree(node: Node) {
    && (IsMarked(node) ==> !Occurs(EndOf(node), node.value))
    && (node.UnknownNode? ==> !LooksKnown(node.value))
  }

  predicate LooksKnown(v: Text) {
    COMMENT_HEADER[2..] <= v || CDATA_HEADER[2..] <= v
  }

  predicate FreeOfCR(node: Node) {
    if node.Element? then forall i :: 0 <= i < |node.attributes| ==>
       NoCR(node.attributes[i].value) else NoCR(node.value)
  }

  predicate NamesDiffer(node: Node) {
    node.Element? ==> Distinct(node.attributes)
  }

  predicate Distinct(attributes: seq<Attribute>) {
    forall i, j :: 0 <= i < j < |attributes| ==> attributes[i].name != attributes[j].name
  }

  /** How many elements with content are nested in each other. */
  function Height(node: Node): nat
    decreases node
  {
    if node.Element? && node.children != [] then 1 + HeightOf(node.children) else 0
  }

  function HeightOf(nodes: seq<Node>): nat
    decreases nodes
  {
    if nodes == [] then 0 else if Height(nodes[0]) >= HeightOf(nodes[1..]) then Height(nodes[0])
       else HeightOf(nodes[1..])
  }

  predicate NotDeclaration(node: Node) {
    !node.Declaration?
  }

  /** The declarations come before everything else, and are not inside elements. */
  predicate DeclarationsFirst(nodes: seq<Node>) {
    Every(nodes, NotDeclaration) || (nodes != [] && nodes[0].Declaration? && DeclarationsFirst(nodes[1..]))
  }

  /** The first error in reading order, at parsing depth `depth`; `lead` says that a declaration
      may stand here. */
  function NodeError(node: Node, depth: nat, lead: bool): Option<Error>
    decreases node
  {
    if node.Declaration? then (if lead then None else Some(ParsingDeclaration))
    else if !node.Element? then None
    else if !Distinct(node.attributes) then Some(ParsingAttribute)
    else if node.children == [] then None
    else if MAX_ELEMENT_DEPTH <= depth + 1 then Some(DepthExceeded)
    else ErrorIn(node.children, depth + 1, false)
  }

  function ErrorIn(nodes: seq<Node>, depth: nat, lead: bool): Option<Error>
    decreases nodes
  {
    if nodes == [] then None
    else if NodeError(nodes[0], depth, lead).Some? then NodeError(nodes[0], depth, lead)
    else ErrorIn(nodes[1..], depth, lead && nodes[0].Declaration?)
  }

  function ReadAttribute(a: Attribute): Attribute {
    Attribute(a.name, Lines(a.value))
  }

  function ReadAttributes(attributes: seq<Attribute>): (r: seq<Attribute>)
    ensures |r| == |attributes| && forall i :: 0 <= i < |r| ==> r[i] == ReadAttribute(attributes[i])
  {
    if attributes == [] then [] else [ReadAttribute(attributes[0])] + ReadAttributes(attributes[1..])
  }

  /** The node with the line ends of its values normalized. */
  function ReadBack(node: Node): Node
    decreases node
  {
    match node
    case Element(name, attributes, children) => Element(name, ReadAttributes(attributes), ReadBackAll(children))
    case PlainText(value) => PlainText(Lines(value))
    case CData(value) => CData(Lines(value))
    case Comment(value) => Comment(Lines(value))
    case Declaration(value) => Declaration(Lines(value))
    case UnknownNode(value) => UnknownNode(Lines(value))
  }

  function ReadBackAll(nodes: seq<Node>): seq<Node>
    decreases nodes
  {
    if nodes == [] then [] else [ReadBack(nodes[0])] + ReadBackAll(nodes[1..])
  }

  /** There is no error exactly if all attribute names are distinct, the nesting is not too deep,
      and the declarations come first. */
  lemma {:induction false} NoErrorIn(nodes: seq<Node>, depth: nat, lead: bool)
    requires depth < MAX_ELEMENT_DEPTH
    ensures ErrorIn(nodes, depth, lead) == None <==>
      && Every(nodes, NamesDiffer) && depth + HeightOf(nodes) < MAX_ELEMENT_DEPTH
      && (if lead then DeclarationsFirst(nodes) else Every(nodes, NotDeclaration))
    decreases nodes, 0
  {
    if nodes != [] {
      NoError(nodes[0], depth, lead);
      NoErrorIn(nodes[1..], depth, lead && nodes[0].Declaration?);
    }
  }

  lemma {:induction false} NoError(node: Node, depth: nat, lead: bool)
    requires depth < MAX_ELEMENT_DEPTH
    ensures NodeError(node, depth, lead) == None <==>
      && EveryIn(node, NamesDiffer) && depth + Height(node) < MAX_ELEMENT_DEPTH
      && ((lead && node.Declaration?) || EveryIn(node, NotDeclaration))
    decreases node, 1
  {
    hide Distinct;
    if node.Element? && node.children != [] && depth + 1 < MAX_ELEMENT_DEPTH {
      NoErrorIn(node.children, depth + 1, false);
    }
  }

  /** A tree comes back unchanged exactly if no value of it holds a carriage return. */
  lemma {:induction false} SameAll(nodes: seq<Node>)
    ensures ReadBackAll(nodes) == nodes <==> Every(nodes, FreeOfCR)
    decreases nodes, 0
  {
    if nodes != [] {
      Same(nodes[0]);
      SameAll(nodes[1..]);
      assert nodes == [nodes[0]] + nodes[1..];
    }
  }

  lemma {:induction false} Same(node: Node)
    ensures ReadBack(node) == node <==> EveryIn(node, FreeOfCR)
    decreases node, 1
  {
    if node.Element? {
      SameAttributes(node.attributes);
      SameAll(node.children);
    } else {
      SameLines(node.value);
    }
  }

  lemma SameAttributes(attributes: seq<Attribute>)
    ensures ReadAttributes(attributes) == attributes <==> forall i :: 0 <= i < |attributes| ==>
      NoCR(attributes[i].value)
  {
    forall i | 0 <= i < |attributes|
      ensures ReadAttributes(attributes)[i] == attributes[i] <==> NoCR(attributes[i].value) {
      SameLines(attributes[i].value);
    }
    if forall i :: 0 <= i < |attributes| ==>
       NoCR(attributes[i].value) { assert ReadAttributes(attributes) == attributes; }
  }

  // ----- End tags --------------------------------------------------------------------

  /** No end tag begins before the text `v` is over. */
  predicate NoEarlyEnd(v: Text, endTag: Text, rest: Text) {
    forall i :: 0 <= i < |v| ==> v[i] != 0 && !(endTag <= (v + (endTag + rest))[i..])
  }

  lemma {:induction false} TextBack(v: Text, endTag: Text, rest: Text)
    requires endTag != [] && endTag[0] != 0 && NoEarlyEnd(v, endTag, rest)
    ensures ParseText(v + (endTag + rest), endTag) == Scan(v, rest)
    decreases |v|
  {
    var tail := endTag + rest;
    if v == [] {
      assert v + tail == tail;
      assert tail[|endTag|..] == rest;
    } else {
      var t := v + tail;
      assert t[0..] == t;
      assert t[1..] == v[1..] + tail;
      forall i | 0 <= i < |v[1..]| ensures v[1..][i] != 0 && !(endTag <= (v[1..] + tail)[i..]) {
        assert (v[1..] + tail)[i..] == t[i + 1..];
      }
      TextBack(v[1..], endTag, rest);
      assert [v[0]] + v[1..] == v;
    }
  }

  /** A tag of one byte. */
  lemma ByteTag(v: Text, b: byte, rest: Text)
    requires b != 0 && forall i :: 0 <= i < |v| ==> v[i] != 0 && v[i] != b
    ensures ParseText(v + ([b] + rest), [b]) == Scan(v, rest)
  {
    forall i | 0 <= i < |v| ensures !([b] <= (v + ([b] + rest))[i..]) {
      assert (v + ([b] + rest))[i..][0] == v[i];
    }
    TextBack(v, [b], rest);
  }

  /** An end mark of three bytes, of which the first two are equal and differ from the third,
      cannot begin in the text and end in the mark that follows. */
  lemma MarkTag(v: Text, endTag: Text, rest: Text)
    requires |endTag| == 3 && endTag[0] == endTag[1] != endTag[2] && endTag[0] != 0 && NoNul(v) && !Occurs(endTag, v)
    ensures ParseText(v + (endTag + rest), endTag) == Scan(v, rest)
  {
    var t := v + (endTag + rest);
    forall i | 0 <= i < |v| ensures !(endTag <= t[i..]) {
      if endTag <= t[i..] {
        assert t[i..][0] == t[i] == endTag[0] && t[i..][1] == t[i + 1] == endTag[1]
          && t[i..][2] == t[i + 2] == endTag[2];
        MarkInside(v, endTag, rest, i);
      }
    }
    TextBack(v, endTag, rest);
  }

  /** The same for a mark of two different bytes, and for one of a single byte. */
  lemma ShortMarkTag(v: Text, endTag: Text, rest: Text)
    requires NoNul(v) && !Occurs(endTag, v)
    requires |endTag| == 1 || (|endTag| == 2 && endTag[0] != endTag[1])
    requires endTag[0] != 0
    ensures ParseText(v + (endTag + rest), endTag) == Scan(v, rest)
  {
    var t := v + (endTag + rest);
    forall i | 0 <= i < |v| ensures !(endTag <= t[i..]) {
      if endTag <= t[i..] { ShortMarkInside(v, endTag, rest, i); }
    }
    TextBack(v, endTag, rest);
  }

  lemma ShortMarkInside(v: Text, endTag: Text, rest: Text, i: nat)
    requires |endTag| == 1 || (|endTag| == 2 && endTag[0] != endTag[1])
    requires i < |v| && endTag <= (v + (endTag + rest))[i..]
    ensures Occurs(endTag, v)
  {
    var t := v + (endTag + rest);
    assert t[i..][0] == t[i] == endTag[0];
    if |endTag| == 2 { assert t[i..][1] == t[i + 1] == endTag[1]; }
    assert endTag <= v[i..];
  }

  lemma MarkInside(v: Text, endTag: Text, rest: Text, i: nat)
    requires |endTag| == 3 && endTag[0] == endTag[1] != endTag[2] && i < |v|
    requires var t := v + (endTag + rest); t[i] == endTag[0] && t[i + 1] == endTag[1] && t[i + 2] == endTag[2]
    ensures Occurs(endTag, v)
  {
    var t := v + (endTag + rest);
    if i + 3 <= |v| {
      assert endTag <= v[i..];
    } else {
      assert false;
    }
  }

  lemma OccursLater(endTag: Text, v: Text, rest: Text)
    requires v != [] && Occurs(endTag, v) && !(endTag <= v + (endTag + rest))
    ensures Occurs(endTag, v[1..])
  {
    var i :| 0 <= i <= |v| && endTag <= v[i..];
    assert v[0..] == v && v <= v + (endTag + rest);
    assert v[1..][i - 1..] == v[i..];
  }

  /** With the mark in it, the text is cut short. */
  lemma {:induction false} MarkCuts(v: Text, endTag: Text, rest: Text)
    requires endTag != [] && NoNul(v) && Occurs(endTag, v)
    ensures ParseText(v + (endTag + rest), endTag).Scan? && |ParseText(v + (endTag + rest), endTag).value| < |v|
    decreases |v|
  {
    var t := v + (endTag + rest);
    if v != [] && !(endTag <= t) {
      assert Occurs(endTag, v[1..]) by { OccursLater(endTag, v, rest); }
      hide Occurs;
      assert t[1..] == v[1..] + (endTag + rest);
      MarkCuts(v[1..], endTag, rest);
    }
  }

  // ----- Names and attributes --------------------------------------------------------

  lemma {:induction false} NameRestBack(n: Text, rest: Text)
    requires (forall i :: 0 <= i < |n| ==> IsNameChar(n[i]) && n[i] != 0)
      && (Head(rest) == 0 || !IsNameChar(Head(rest)))
    ensures NameRest(n + rest) == Scan(n, rest)
    decreases |n|
  {
    if n == [] {
      assert n + rest == rest;
    } else {
      assert (n + rest)[1..] == n[1..] + rest;
      NameRestBack(n[1..], rest);
      assert [n[0]] + n[1..] == n;
    }
  }

  lemma NameBack(n: Text, rest: Text)
    requires ValidName(n) && (Head(rest) == 0 || !IsNameChar(Head(rest)))
    ensures ParseName(n + rest) == Scan(n, rest)
    ensures Head(n + rest) == n[0] && IsNameStartChar(n[0])
  {
    assert (n + rest)[1..] == n[1..] + rest;
    NameRestBack(n[1..], rest);
    assert [n[0]] + n[1..] == n;
  }

  /** An escaped value holds no angle bracket, and no quote of either kind if quotes are escaped. */
  lemma {:induction false} EscapedIsFree(s: Text, restricted: bool)
    requires NoNul(s)
    ensures forall i :: 0 <= i < |Escape(s, restricted)| ==>
      var b := Escape(s, restricted)[i]; b != 0 && b != LT && b != GT && (!restricted ==> b != QUOT && b != APOS)
    decreases |s|
  {
    if s != [] {
      EscapedIsFree(s[1..], restricted);
      var a, r := EscapeByte(s[0], restricted), Escape(s[1..], restricted);
      forall i | 0 <= i < |a + r|
        ensures var b := (a + r)[i]; b != 0 && b != LT && b != GT && (!restricted ==> b != QUOT && b != APOS) {
        if i >= |a| { assert (a + r)[i] == r[i - |a|]; }
      }
    }
  }

  /** It is the value itself exactly if that holds no ampersand, no angle bracket and, if quotes
      are escaped, no quote. */
  lemma {:induction false} EscapedIsSame(s: Text, restricted: bool)
    ensures |s| <= |Escape(s, restricted)|
    ensures Escape(s, restricted) == s <==>
      forall i :: 0 <= i < |s| ==>
        s[i] != AMP && s[i] != LT && s[i] != GT && (!restricted ==> s[i] != QUOT && s[i] != APOS)
    decreases |s|
  {
    if s != [] {
      EscapedIsSame(s[1..], restricted);
      assert s == [s[0]] + s[1..];
      EscapedByteGrows(s[0], restricted);
    }
  }

  lemma EscapedByteGrows(b: byte, restricted: bool)
    ensures if b != AMP && b != LT && b != GT && (!restricted ==> b != QUOT && b != APOS)
            then EscapeByte(b, restricted) == [b] else 1 < |EscapeByte(b, restricted)|
  {
  }

  function AttributeText(a: Attribute, rest: Text): Text {
    a.name + ([EQUALS, QUOT] + (Escape(a.value, false) + ([QUOT] + rest)))
  }

  lemma AttributeBack(a: Attribute, rest: Text)
    requires ValidName(a.name) && NoNul(a.value)
    ensures ParseAttribute(AttributeText(a, rest)) == AttributeOk(ReadAttribute(a), rest)
    ensures IsNameStartChar(Head(AttributeText(a, rest)))
  {
    hide Escape, Decode, ParseText, Lines;
    var e := Escape(a.value, false);
    var w := [QUOT] + (e + ([QUOT] + rest));
    var v := [EQUALS, QUOT] + (e + ([QUOT] + rest));
    assert v == [EQUALS] + w;
    Drop(EQUALS, w);
    Drop(QUOT, e + ([QUOT] + rest));
    NameBack(a.name, v);
    EscapedIsFree(a.value, false);
    ByteTag(e, QUOT, rest);
    EscapedLines(a.value, false);
  }

  lemma AttributesText(attributes: seq<Attribute>, rest: Text)
    requires attributes != []
    ensures PrintAttributes(attributes) + rest ==
      [SPACE] + AttributeText(attributes[0], PrintAttributes(attributes[1..]) + rest)
  {
    hide Escape;
    var a, more := attributes[0], PrintAttributes(attributes[1..]);
    var e := Escape(a.value, false);
    Assoc([SPACE] + a.name + [EQUALS, QUOT] + e + [QUOT], more, rest);
    Assoc([SPACE] + a.name + [EQUALS, QUOT] + e, [QUOT], more + rest);
    Assoc([SPACE] + a.name + [EQUALS, QUOT], e, [QUOT] + (more + rest));
    Assoc([SPACE] + a.name, [EQUALS, QUOT], e + ([QUOT] + (more + rest)));
    Assoc([SPACE], a.name, [EQUALS, QUOT] + (e + ([QUOT] + (more + rest))));
  }

  lemma SkipSpace(t: Text)
    ensures SkipWhiteSpace([SPACE] + t) == SkipWhiteSpace(t)
  {
    Drop(SPACE, t);
  }

  /** The end of a tag: a greater-than sign, after a slash if the element is closed. */
  function TagEnd(closed: bool): Text {
    if closed then [SLASH, GT] else [GT]
  }

  lemma TagEndBack(done: seq<Attribute>, closed: bool, rest: Text)
    ensures ParseAttributes(TagEnd(closed) + rest, done) == Tag(done, closed, rest)
  {
    var t := TagEnd(closed) + rest;
    assert t[|TagEnd(closed)|..] == rest;
    if closed { assert t[1..] == [GT] + rest; }
  }

  lemma AttributeTurn(attributes: seq<Attribute>, done: seq<Attribute>, tail: Text)
    requires ValidAttributes(attributes) && attributes != []
    ensures ParseAttributes(PrintAttributes(attributes) + tail, done) ==
      if HasAttribute(done, attributes[0].name) then TagError(ParsingAttribute)
      else ParseAttributes(PrintAttributes(attributes[1..]) + tail, done + [ReadAttribute(attributes[0])])
  {
    hide ParseAttribute, AttributeText, HasAttribute, PrintAttributes;
    var a := attributes[0];
    var more := PrintAttributes(attributes[1..]) + tail;
    AttributesText(attributes, tail);
    AttributeBack(a, more);
    SkipSpace(AttributeText(a, more));
  }

  /** Printed attributes are read back in order; a name that was there already is an error. */
  lemma {:induction false} AttributesBack(attributes: seq<Attribute>, done: seq<Attribute>, closed: bool, rest: Text)
    requires ValidAttributes(attributes) && Distinct(done)
    ensures ParseAttributes(PrintAttributes(attributes) + (TagEnd(closed) + rest), done) ==
      if Distinct(done + attributes) then Tag(done + ReadAttributes(attributes), closed, rest)
         else TagError(ParsingAttribute)
    decreases |attributes|
  {
    hide ParseAttributes, TagEnd, Distinct, HasAttribute;
    var tail := TagEnd(closed) + rest;
    if attributes == [] {
      assert PrintAttributes(attributes) + tail == tail;
      TagEndBack(done, closed, rest);
      assert done + attributes == done && done + ReadAttributes(attributes) == done;
    } else {
      hide PrintAttributes;
      var a := ReadAttribute(attributes[0]);
      AttributeTurn(attributes, done, tail);
      OneMoreName(done, attributes);
      Assoc(done, [a], ReadAttributes(attributes[1..]));
      if !HasAttribute(done, attributes[0].name) { AttributesBack(attributes[1..], done + [a], closed, rest); }
    }
  }

  lemma OneMoreName(done: seq<Attribute>, attributes: seq<Attribute>)
    requires Distinct(done) && attributes != []
    ensures HasAttribute(done, attributes[0].name) ==> !Distinct(done + attributes)
    ensures !HasAttribute(done, attributes[0].name) ==> Distinct(done + [ReadAttribute(attributes[0])])
    ensures Distinct(done + attributes) <==> Distinct(done + [ReadAttribute(attributes[0])] + attributes[1..])
  {
    var l, l' := done + attributes, done + [ReadAttribute(attributes[0])] + attributes[1..];
    forall i | 0 <= i < |l| ensures i < |l'| && l[i].name == l'[i].name {
    }
    if HasAttribute(done, attributes[0].name) {
      var i :| 0 <= i < |done| && done[i].name == attributes[0].name;
      assert l[i].name == l[|done|].name;
    }
  }

  lemma AfterName(attributes: seq<Attribute>, closed: bool, rest: Text)
    ensures !IsNameChar(Head(PrintAttributes(attributes) + (TagEnd(closed) + rest)))
  {
    hide AttributeText;
    if attributes == [] {
      assert PrintAttributes(attributes) + (TagEnd(closed) + rest) == TagEnd(closed) + rest;
    } else {
      AttributesText(attributes, TagEnd(closed) + rest);
    }
  }

  // ----- Tags ------------------------------------------------------------------------

  /** The text of an element after its name. */
  function AfterOpen(node: Node, rest: Text): Text
    requires node.Element?
  {
    if node.children == [] then rest else PrintNodes(node.children) + (CloseTag(node.name) + rest)
  }

  lemma ElementText(node: Node, rest: Text)
    requires node.Element?
    ensures PrintNode(node) + rest ==
      [LT] + (node.name + (PrintAttributes(node.attributes) + (TagEnd(node.children == []) + AfterOpen(node, rest))))
  {
    hide PrintAttributes, PrintNodes, CloseTag;
    var n, a, e := node.name, PrintAttributes(node.attributes), TagEnd(node.children == []);
    if node.children == [] {
      Assoc(OpenTag(n, node.attributes), e, rest);
    } else {
      var c := PrintNodes(node.children);
      Assoc(OpenTag(n, node.attributes) + e + c, CloseTag(n), rest);
      Assoc(OpenTag(n, node.attributes) + e, c, CloseTag(n) + rest);
      Assoc(OpenTag(n, node.attributes), e, c + (CloseTag(n) + rest));
    }
    Assoc([LT] + n, a, e + AfterOpen(node, rest));
    Assoc([LT], n, a + (e + AfterOpen(node, rest)));
  }

  lemma ElementIdentified(t: Text)
    requires t != [] && (IsNameStartChar(t[0]) || t[0] == SLASH)
    ensures Identify([LT] + t) == (KElement, t)
  {
    var u := [LT] + t;
    Drop(LT, t);
    assert u[1] == t[0];
    assert u[0] != 0;
  }

  // ----- Texts, comments, CDATA sections -----------------------------------------------

  lemma {:induction false} EscapedBlank(s: Text, rest: Text)
    requires !IsBlank(s) && NoNul(s)
    ensures var u := SkipWhiteSpace(Escape(s, true) + rest); u != [] && u[0] != LT && u[0] != 0
    decreases |s|
  {
    var t := Escape(s, true) + rest;
    EscapedIsFree(s, true);
    if IsWhiteSpace(s[0]) {
      assert t == [s[0]] + (Escape(s[1..], true) + rest);
      Drop(s[0], Escape(s[1..], true) + rest);
      EscapedBlank(s[1..], rest);
    } else {
      assert t[0] == Escape(s, true)[0];
    }
  }

  /** A tag follows: a less-than sign that is not the last byte. */
  predicate TagFollows(rest: Text) {
    2 <= |rest| && rest[0] == LT && rest[1] != 0
  }

  /** What ParseItem gives for the first item of a text. */
  function FirstItem(t: Text, depth: nat, done: seq<Node>): Item {
    var (kind, u) := Identify(t);
    if kind == KNone then ItemError(Parsing) else ParseItem(t, kind, u, depth, done)
  }

  lemma LevelStep(t: Text, depth: nat, done: seq<Node>, item: Item)
    requires Head(t) != 0 && Identify(t).0 != KNone && item == FirstItem(t, depth, done)
    ensures item.NodeItem? ==> ParseLevel(t, depth, done) == ParseLevel(item.rest, depth, done + [item.node])
    ensures item.EndTag? ==> ParseLevel(t, depth, done) == Closed(done, item.tag, item.after)
    ensures item.ItemError? ==> ParseLevel(t, depth, done) == LevelError(item.error)
  {
    hide ParseItem, Identify;
  }

  /** The end tag of a level is read by that level. */
  lemma CloseBack(name: Text, rest: Text, depth: nat, done: seq<Node>)
    requires ValidName(name)
    ensures ParseLevel(CloseTag(name) + rest, depth, done) == Closed(done, name, rest)
  {
    hide ParseName, ParseAttributes, Identify, ParseLevel;
    var v := name + ([GT] + rest);
    var t := CloseTag(name) + rest;
    assert t == [LT] + ([SLASH] + v);
    ElementIdentified([SLASH] + v);
    Drop(SLASH, v);
    NameBack(name, [GT] + rest);
    TagEndBack([], false, rest);
    assert ParseElement([SLASH] + v, depth) == EndTag(name, rest);
    LevelStep(t, depth, done, EndTag(name, rest));
  }

  lemma PlainTextBack(value: Text, rest: Text, depth: nat, done: seq<Node>)
    requires NoNul(value) && !IsBlank(value) && TagFollows(rest)
    ensures var t := PrintNode(PlainText(value)) + rest;
      Head(t) != 0 && Identify(t).0 != KNone && FirstItem(t, depth, done) == NodeItem(PlainText(Lines(value)), rest)
  {
    hide Escape, Decode, ParseText, Lines;
    var e := Escape(value, true);
    var t := e + rest;
    EscapedBlank(value, rest);
    EscapedIsFree(value, true);
    assert rest == [LT] + rest[1..];
    ByteTag(e, LT, rest[1..]);
    EscapedLines(value, true);
  }

  /** A declaration may stand only at document level, after other declarations. */
  predicate Leads(depth: nat, done: seq<Node>) {
    depth == 1 && OnlyDeclarations(done)
  }

  function WithValue(node: Node, value: Text): Node
    requires IsMarked(node)
  {
    match node
    case CData(_) => CData(value)
    case Comment(_) => Comment(value)
    case Declaration(_) => Declaration(value)
    case UnknownNode(_) => UnknownNode(value)
  }

  lemma MarkedText(node: Node, rest: Text)
    requires IsMarked(node)
    ensures PrintNode(node) + rest == HeaderOf(node) + (node.value + (EndOf(node) + rest))
  {
    Assoc(HeaderOf(node) + node.value, EndOf(node), rest);
    Assoc(HeaderOf(node), node.value, EndOf(node) + rest);
  }

  function KindOf(node: Node): Kind
    requires IsMarked(node)
  {
    match node
    case CData(_) => KCData
    case Comment(_) => KComment
    case Declaration(_) => KDeclaration
    case UnknownNode(_) => KUnknown
  }

  lemma MarkedIdentified(node: Node, u: Text)
    requires IsMarked(node)
    ensures var t := HeaderOf(node) + u;
      && Head(t) == LT && TagFollows(t) && SkipWhiteSpace(t) == t
      && (!node.UnknownNode? || !LooksKnown(u) ==> Identify(t) == (KindOf(node), u))
      && (node.UnknownNode? && LooksKnown(u) ==> Identify(t).0 == KComment || Identify(t).0 == KCData)
  {
    var t := HeaderOf(node) + u;
    assert t[|HeaderOf(node)|..] == u;
    assert t[1] == HeaderOf(node)[1];
    match node {
      case CData(_) => assert t[2] == 91;
      case UnknownNode(_) =>
        assert COMMENT_HEADER == DTD_HEADER + COMMENT_HEADER[2..] && CDATA_HEADER == DTD_HEADER + CDATA_HEADER[2..];
        assert COMMENT_HEADER <= t <==> COMMENT_HEADER[2..] <= u;
        assert CDATA_HEADER <= t <==> CDATA_HEADER[2..] <= u;
      case _ =>
    }
  }

  /** What looks known stays so when more follows, and only then. */
  lemma LooksAlike(v: Text, rest: Text)
    ensures LooksKnown(v) ==> LooksKnown(v + rest)
    ensures NoNul(v) && LooksKnown(v + ([GT] + rest)) ==> LooksKnown(v)
  {
    var w := v + ([GT] + rest);
    assert w[|v|] == GT;
  }

  /** What is read for a printed marked piece, whatever it holds. */
  lemma MarkedItem(node: Node, rest: Text, depth: nat, done: seq<Node>)
    requires IsMarked(node) && (node.UnknownNode? ==> !LooksKnown(node.value)) && NoNul(node.value)
    ensures var r := ParseText(node.value + (EndOf(node) + rest), EndOf(node));
      r.Scan? ==>
        FirstItem(PrintNode(node) + rest, depth, done) ==
        if node.Declaration? && !Leads(depth, done) then ItemError(ParsingDeclaration)
        else NodeItem(WithValue(node, Decode(r.value, false)), r.rest)
  {
    hide Decode, ParseText, Identify, PrintNode, LooksKnown;
    MarkedText(node, rest);
    if node.UnknownNode? { LooksAlike(node.value, rest); }
    MarkedIdentified(node, node.value + (EndOf(node) + rest));
  }

  lemma MarkedStart(node: Node, rest: Text)
    requires IsMarked(node)
    ensures var t := PrintNode(node) + rest; Head(t) != 0 && Identify(t).0 != KNone
  {
    hide Identify, PrintNode;
    MarkedText(node, rest);
    MarkedIdentified(node, node.value + (EndOf(node) + rest));
  }

  /** An unknown piece that looks known is read as what it looks like. */
  lemma LooksKnownItem(node: Node, rest: Text, depth: nat, done: seq<Node>)
    requires node.UnknownNode? && LooksKnown(node.value)
    ensures var item := FirstItem(PrintNode(node) + rest, depth, done);
      item.ItemError? || (item.NodeItem? && item.node != node)
  {
    hide Decode, ParseText, Identify, PrintNode, LooksKnown;
    MarkedText(node, rest);
    LooksAlike(node.value, EndOf(node) + rest);
    MarkedIdentified(node, node.value + (EndOf(node) + rest));
  }

  lemma MarkedBack(node: Node, rest: Text, depth: nat, done: seq<Node>)
    requires IsMarked(node) && NoNul(node.value)
    ensures var item := FirstItem(PrintNode(node) + rest, depth, done);
      && (MarkFree(node) ==>
            item == if node.Declaration? && !Leads(depth, done) then ItemError(ParsingDeclaration)
                    else NodeItem(ReadBack(node), rest))
      && (!MarkFree(node) ==> item.ItemError? || (item.NodeItem? && item.node != node))
  {
    hide Decode, ParseText, Lines, FirstItem, Identify, PrintNode, Occurs, Leads, LooksKnown;
    if node.UnknownNode? && LooksKnown(node.value) {
      LooksKnownItem(node, rest, depth, done);
    } else {
      MarkedItem(node, rest, depth, done);
      if MarkFree(node) {
        MarkIsBack(node, rest);
        PlainLines(node.value);
      } else {
        MarkCuts(node.value, EndOf(node), rest);
        PlainLines(ParseText(node.value + (EndOf(node) + rest), EndOf(node)).value);
      }
    }
  }

  lemma MarkIsBack(node: Node, rest: Text)
    requires IsMarked(node) && NoNul(node.value) && !Occurs(EndOf(node), node.value)
    ensures ParseText(node.value + (EndOf(node) + rest), EndOf(node)) == Scan(node.value, rest)
  {
    if node.CData? || node.Comment? {
      MarkTag(node.value, EndOf(node), rest);
    } else {
      ShortMarkTag(node.value, EndOf(node), rest);
    }
  }

  /** A declaration is read, with its line ends normalized, exactly where only declarations came
      before it at document level. */
  lemma DeclarationBack(value: Text, rest: Text, depth: nat, done: seq<Node>)
    requires NoNul(value) && !Occurs(XML_END, value)
    ensures FirstItem(PrintNode(Declaration(value)) + rest, depth, done) ==
      if depth == 1 && (forall i :: 0 <= i < |done| ==> done[i].Declaration?) then
        NodeItem(Declaration(Lines(value)), rest)
      else ItemError(ParsingDeclaration)
  {
    MarkedBack(Declaration(value), rest, depth, done);
  }

  /** A CDATA section comes back exactly if it holds neither its own end mark nor a CR. */
  lemma CDataRoundTrip(value: Text, rest: Text, depth: nat, done: seq<Node>)
    requires NoNul(value)
    ensures FirstItem(PrintNode(CData(value)) + rest, depth, done) == NodeItem(CData(value), rest)
      <==> !Occurs(CDATA_END, value) && NoCR(value)
  {
    MarkedBack(CData(value), rest, depth, done);
    SameLines(value);
  }

  /** And so does a comment. */
  lemma CommentRoundTrip(value: Text, rest: Text, depth: nat, done: seq<Node>)
    requires NoNul(value)
    ensures FirstItem(PrintNode(Comment(value)) + rest, depth, done) == NodeItem(Comment(value), rest)
      <==> !Occurs(COMMENT_END, value) && NoCR(value)
  {
    MarkedBack(Comment(value), rest, depth, done);
    SameLines(value);
  }

  // ----- Trees -----------------------------------------------------------------------

  /** Where the text of valid nodes is over: the end of the document or a tag. */
  predicate Follows(nodes: seq<Node>, rest: Text) {
    && (rest == [] || TagFollows(rest))
    && (nodes != [] && nodes[|nodes|-1].PlainText? ==> TagFollows(rest))
  }

  lemma TagStart(node: Node, rest: Text)
    requires ValidNode(node) && !node.PlainText?
    ensures TagFollows(PrintNode(node) + rest)
  {
    hide PrintAttributes, PrintNodes;
    var t := PrintNode(node) + rest;
    if node.Element? {
      ElementText(node, rest);
      var u := node.name + (PrintAttributes(node.attributes) + (TagEnd(node.children == []) + AfterOpen(node, rest)));
      assert t[1] == u[0] == node.name[0];
    } else {
      MarkedText(node, rest);
      MarkedIdentified(node, node.value + (EndOf(node) + rest));
    }
  }

  lemma NextStart(nodes: seq<Node>, rest: Text)
    requires nodes != [] && ValidNodes(nodes) && Follows(nodes, rest)
    ensures nodes[0].PlainText? ==> TagFollows(PrintNodes(nodes[1..]) + rest)
    ensures Follows(nodes[1..], rest) && ValidNodes(nodes[1..])
  {
    if |nodes| == 1 {
      assert PrintNodes(nodes[1..]) + rest == rest;
    } else if nodes[0].PlainText? {
      assert ValidNodes(nodes[1..]) && !nodes[1..][0].PlainText?;
      hide PrintNode;
      Assoc(PrintNode(nodes[1]), PrintNodes(nodes[1..][1..]), rest);
      TagStart(nodes[1], PrintNodes(nodes[1..][1..]) + rest);
    }
  }

  lemma PrintNodesStart(nodes: seq<Node>, rest: Text)
    requires ValidNodes(nodes) && TagFollows(rest)
    ensures Head(PrintNodes(nodes) + rest) != 0
  {
    if nodes == [] {
      assert PrintNodes(nodes) + rest == rest;
    } else {
      hide PrintNode, Escape;
      Assoc(PrintNode(nodes[0]), PrintNodes(nodes[1..]), rest);
      if nodes[0].PlainText? {
      } else {
        TagStart(nodes[0], PrintNodes(nodes[1..]) + rest);
      }
    }
  }

  /** One printed node is read back with its line ends normalized, or its first error is
      reported. */
  lemma {:induction false} NodeBack(node: Node, rest: Text, depth: nat, done: seq<Node>)
    requires ValidNode(node) && 1 <= depth < MAX_ELEMENT_DEPTH && (node.PlainText? ==> TagFollows(rest))
      && EveryIn(node, MarkFree)
    ensures var t := PrintNode(node) + rest;
      && Head(t) != 0 && Identify(t).0 != KNone
      && FirstItem(t, depth, done) == ItemOf(node, rest, depth, Leads(depth, done))
    decreases node
  {
    hide FirstItem, Identify;
    match node {
      case PlainText(value) => PlainTextBack(value, rest, depth, done);
      case Element(name, attributes, children) => ElementBack(name, attributes, children, rest, depth, done);
      case _ => MarkedStart(node, rest); MarkedBack(node, rest, depth, done);
    }
  }

  function ItemOf(node: Node, rest: Text, depth: nat, lead: bool): Item {
    match NodeError(node, depth, lead)
    case None => NodeItem(ReadBack(node), rest)
    case Some(e) => ItemError(e)
  }

  function AfterTagName(node: Node, rest: Text): Text
    requires node.Element?
  {
    PrintAttributes(node.attributes) + (TagEnd(node.children == []) + AfterOpen(node, rest))
  }

  lemma NothingTwice()
    ensures Distinct([])
  {
  }

  lemma OpenTagBack(node: Node, rest: Text)
    requires node.Element? && ValidName(node.name) && ValidAttributes(node.attributes)
    ensures var w := AfterTagName(node, rest);
      && Head(node.name + w) != 0 && IsNameStartChar(Head(node.name + w))
      && ParseName(node.name + w) == Scan(node.name, w)
      && ParseAttributes(w, []) ==
        if Distinct(node.attributes) then
           Tag(ReadAttributes(node.attributes), node.children == [], AfterOpen(node, rest))
        else TagError(ParsingAttribute)
  {
    hide ParseName, ParseAttributes, PrintAttributes, AfterOpen, TagEnd, Distinct, ReadAttributes, ValidAttributes;
    var attributes, closed, after := node.attributes, node.children == [], AfterOpen(node, rest);
    AfterName(attributes, closed, after);
    NameBack(node.name, AfterTagName(node, rest));
    assert Distinct([]) by { NothingTwice(); }
    AttributesBack(attributes, [], closed, after);
    assert [] + attributes == attributes && [] + ReadAttributes(attributes) == ReadAttributes(attributes);
  }

  /** What ParseElement makes of a printed element. */
  lemma ElementParts(node: Node, rest: Text, depth: nat, done: seq<Node>)
    requires node.Element? && ValidName(node.name) && ValidAttributes(node.attributes)
    ensures var t := PrintNode(node) + rest;
      && Head(t) != 0 && Identify(t).0 != KNone
      && FirstItem(t, depth, done) == ElementItem(node, rest, depth)
  {
    hide ParseName, ParseAttributes, Identify, ParseLevel, PrintNode, AfterOpen, AfterTagName, Distinct, ReadAttributes,
      ValidAttributes;
    var w := AfterTagName(node, rest);
    OpenTagBack(node, rest);
    NoContent(node, rest);
    assert ParseElement(node.name + w, depth) == ElementItem(node, rest, depth);
    assert PrintNode(node) + rest == [LT] + (node.name + w) by { ElementTextIs(node, rest); }
    ElementIdentified(node.name + w);
  }

  lemma ElementTextIs(node: Node, rest: Text)
    requires node.Element?
    ensures PrintNode(node) + rest == [LT] + (node.name + AfterTagName(node, rest))
  {
    hide PrintNode, AfterOpen;
    ElementText(node, rest);
  }

  function ElementItem(node: Node, rest: Text, depth: nat): Item
    requires node.Element?
  {
    if !Distinct(node.attributes) then ItemError(ParsingAttribute)
    else if node.children == [] then NodeItem(Element(node.name, ReadAttributes(node.attributes), []), rest)
    else if Head(AfterOpen(node, rest)) == 0 then ItemError(MismatchedElement)
    else if depth + 1 == MAX_ELEMENT_DEPTH then ItemError(DepthExceeded)
    else
      match ParseLevel(AfterOpen(node, rest), depth + 1, [])
      case LevelError(e) => ItemError(e)
      case Ended(_) => ItemError(Parsing)
      case Closed(children, tag, y) =>
        if tag == node.name then NodeItem(Element(node.name, ReadAttributes(node.attributes), children), y)
        else ItemError(MismatchedElement)
  }

  lemma NoContent(node: Node, rest: Text)
    requires node.Element?
    ensures node.children == [] ==> AfterOpen(node, rest) == rest
  {
  }

  lemma {:induction false} ElementBack(name: Text, attributes: seq<Attribute>, children: seq<Node>, rest: Text,
                                       depth: nat, done: seq<Node>)
    requires ValidName(name) && ValidAttributes(attributes) && ValidNodes(children) && Every(children, MarkFree)
    requires 1 <= depth < MAX_ELEMENT_DEPTH
    ensures var node := Element(name, attributes, children);
      var t := PrintNode(node) + rest;
      && Head(t) != 0 && Identify(t).0 != KNone
      && FirstItem(t, depth, done) == ItemOf(node, rest, depth, Leads(depth, done))
    decreases children, 2
  {
    hide FirstItem, Identify, PrintNode, ValidNodes, ParseLevel, AfterOpen, Distinct, Every, ErrorIn, Leads;
    var node := Element(name, attributes, children);
    ElementParts(node, rest, depth, done);
    assert children == [] ==> ReadBack(node).children == [];
    if children != [] {
      ContentBack(node, rest, depth);
      if !Distinct(attributes) {
        assert ItemOf(node, rest, depth, Leads(depth, done)) == ItemError(ParsingAttribute);
      } else if depth + 1 == MAX_ELEMENT_DEPTH {
        assert ItemOf(node, rest, depth, Leads(depth, done)) == ItemError(DepthExceeded);
      } else {
        assert NodeError(node, depth, Leads(depth, done)) == ErrorIn(children, depth + 1, false);
      }
    }
  }

  /** The content of an element up to its end tag. */
  lemma {:induction false} ContentBack(node: Node, rest: Text, depth: nat)
    requires node.Element? && ValidName(node.name) && ValidNodes(node.children) && node.children != []
    requires 1 <= depth < MAX_ELEMENT_DEPTH && Every(node.children, MarkFree)
    ensures Head(AfterOpen(node, rest)) != 0
    ensures depth + 1 < MAX_ELEMENT_DEPTH ==>
      ParseLevel(AfterOpen(node, rest), depth + 1, []) ==
        match ErrorIn(node.children, depth + 1, false)
        case None => Closed(ReadBackAll(node.children), node.name, rest)
        case Some(e) => LevelError(e)
    decreases node.children, 1
  {
    hide ParseLevel, PrintNodes, ValidNodes, ErrorIn, ReadBackAll, Every;
    var close := CloseTag(node.name) + rest;
    PrintNodesStart(node.children, close);
    if depth + 1 < MAX_ELEMENT_DEPTH {
      NodesBack(node.children, [], depth + 1, close);
      CloseBack(node.name, rest, depth + 1, ReadBackAll(node.children));
      assert [] + ReadBackAll(node.children) == ReadBackAll(node.children);
    }
  }

  lemma StillLeads(depth: nat, done: seq<Node>, n: Node)
    ensures Leads(depth, done + [ReadBack(n)]) <==> Leads(depth, done) && n.Declaration?
  {
    var l := done + [ReadBack(n)];
    assert forall i :: 0 <= i < |done| ==> l[i] == done[i];
    assert l[|done|] == ReadBack(n);
  }

  /** Printed nodes are read back one after the other. */
  lemma {:induction false} NodesBack(nodes: seq<Node>, done: seq<Node>, depth: nat, rest: Text)
    requires ValidNodes(nodes) && Follows(nodes, rest) && 1 <= depth < MAX_ELEMENT_DEPTH && Every(nodes, MarkFree)
    ensures ParseLevel(PrintNodes(nodes) + rest, depth, done) ==
      match ErrorIn(nodes, depth, Leads(depth, done))
      case None => ParseLevel(rest, depth, done + ReadBackAll(nodes))
      case Some(e) => LevelError(e)
    decreases nodes, 0
  {
    hide ParseLevel, PrintNode, NodeError, FirstItem, Identify, ReadBack, EveryIn, Leads;
    if nodes == [] {
      assert PrintNodes(nodes) + rest == rest;
      assert done + ReadBackAll(nodes) == done;
    } else {
      var n, more := nodes[0], PrintNodes(nodes[1..]) + rest;
      Assoc(PrintNode(n), PrintNodes(nodes[1..]), rest);
      NextStart(nodes, rest);
      NodeBack(n, more, depth, done);
      LevelStep(PrintNode(n) + more, depth, done, FirstItem(PrintNode(n) + more, depth, done));
      if NodeError(n, depth, Leads(depth, done)).None? {
        StillLeads(depth, done, n);
        NodesBack(nodes[1..], done + [ReadBack(n)], depth, rest);
        assert done + [ReadBack(n)] + ReadBackAll(nodes[1..]) == done + ReadBackAll(nodes);
      }
    }
  }

  // ----- Trees with an end mark where it cannot be -----------------------------------------

  /** A level keeps the nodes it has. */
  lemma {:induction false} LevelExtends(t: Text, depth: nat, done: seq<Node>)
    ensures var r := ParseLevel(t, depth, done); r.LevelError? || done <= r.nodes
    decreases |t|
  {
    hide ParseItem, Identify;
    if Head(t) != 0 && Identify(t).0 != KNone {
      var item := FirstItem(t, depth, done);
      ItemShrinks(t, depth, done);
      LevelStep(t, depth, done, item);
      if item.NodeItem? { LevelExtends(item.rest, depth, done + [item.node]); }
    }
  }

  lemma ItemShrinks(t: Text, depth: nat, done: seq<Node>)
    ensures var item := FirstItem(t, depth, done); item.NodeItem? ==> |item.rest| < |t|
  {
    hide ParseItem, Identify;
  }

  /** A first node that is read differently shows in the level. */
  lemma OtherFirst(nodes: seq<Node>, t: Text, depth: nat, done: seq<Node>, other: Node)
    requires nodes != [] && other != nodes[0]
    ensures var r := ParseLevel(t, depth, done + [other]); r.LevelError? || !(done + nodes <= r.nodes)
  {
    hide ParseLevel;
    LevelExtends(t, depth, done + [other]);
    assert (done + nodes)[|done|] == nodes[0] && (done + [other])[|done|] == other;
  }

  lemma {:induction false} NodeSpoiled(node: Node, rest: Text, depth: nat, done: seq<Node>)
    requires ValidNode(node) && 1 <= depth < MAX_ELEMENT_DEPTH && !EveryIn(node, MarkFree)
    ensures var t := PrintNode(node) + rest;
      var item := FirstItem(t, depth, done);
      && Head(t) != 0 && Identify(t).0 != KNone
      && (item.ItemError? || (item.NodeItem? && item.node != node))
    decreases node
  {
    hide FirstItem, Identify, PrintNode, ParseLevel, AfterOpen, Distinct, Occurs;
    if node.Element? {
      ElementParts(node, rest, depth, done);
      if depth + 1 < MAX_ELEMENT_DEPTH {
        ContentSpoiled(node, rest, depth + 1);
      }
    } else {
      MarkedStart(node, rest);
      MarkedBack(node, rest, depth, done);
    }
  }

  lemma {:induction false} ContentSpoiled(node: Node, rest: Text, depth: nat)
    requires node.Element? && ValidName(node.name) && ValidNodes(node.children) && 1 <= depth < MAX_ELEMENT_DEPTH
    requires !Every(node.children, MarkFree)
    ensures node.children != []
    ensures var r := ParseLevel(AfterOpen(node, rest), depth, []); r.LevelError? || r.nodes != node.children
    decreases node.children, 1
  {
    hide ParseLevel, PrintNodes, ValidNodes;
    NodesSpoiled(node.children, [], depth, CloseTag(node.name) + rest);
    assert [] + node.children == node.children;
  }

  lemma {:induction false} NodesSpoiled(nodes: seq<Node>, done: seq<Node>, depth: nat, rest: Text)
    requires ValidNodes(nodes) && Follows(nodes, rest) && 1 <= depth < MAX_ELEMENT_DEPTH && !Every(nodes, MarkFree)
    ensures var r := ParseLevel(PrintNodes(nodes) + rest, depth, done); r.LevelError? || !(done + nodes <= r.nodes)
    decreases nodes, 0
  {
    hide ParseLevel, PrintNode, NodeError, FirstItem, Identify, ReadBack, EveryIn, Leads;
    var n, more := nodes[0], PrintNodes(nodes[1..]) + rest;
    Assoc(PrintNode(n), PrintNodes(nodes[1..]), rest);
    NextStart(nodes, rest);
    if EveryIn(n, MarkFree) {
      NodeBack(n, more, depth, done);
    } else {
      NodeSpoiled(n, more, depth, done);
    }
    var item := FirstItem(PrintNode(n) + more, depth, done);
    LevelStep(PrintNode(n) + more, depth, done, item);
    if item.NodeItem? {
      if item.node == n {
        NodesSpoiled(nodes[1..], done + [n], depth, rest);
        assert done + [n] + nodes[1..] == done + nodes;
      } else {
        OtherFirst(nodes, item.rest, depth, done, item.node);
      }
    }
  }

  // ----- Documents -------------------------------------------------------------------

  predicate ValidDocument(nodes: seq<Node>) {
    nodes != [] && ValidNodes(nodes) && forall i :: 0 <= i < |nodes| ==> !nodes[i].PlainText?
  }

  lemma DocumentStart(nodes: seq<Node>, rest: Text)
    requires ValidDocument(nodes)
    ensures var t := PrintNodes(nodes) + rest; Head(t) == LT && SkipByteOrderMark(SkipWhiteSpace(t)) == t
  {
    hide PrintNode, ValidNode;
    Assoc(PrintNode(nodes[0]), PrintNodes(nodes[1..]), rest);
    TagStart(nodes[0], PrintNodes(nodes[1..]) + rest);
  }

  /** Parsing the compact print of a document rebuilds it with its line ends normalized, or
      reports its first error: attributes of the same name, a nesting that is too deep, or a
      declaration that does not come first. */
  lemma Outcome(nodes: seq<Node>)
    requires ValidDocument(nodes) && Every(nodes, MarkFree)
    ensures ParseDocument(PrintNodes(nodes)) ==
      match ErrorIn(nodes, 1, true)
      case None => Parsed(ReadBackAll(nodes))
      case Some(e) => ParseError(e)
  {
    hide ParseLevel, PrintNodes, ErrorIn, ValidNodes, Every, ReadBackAll, SkipWhiteSpace, SkipByteOrderMark;
    var t := PrintNodes(nodes);
    assert t + [] == t;
    DocumentStart(nodes, []);
    NodesBack(nodes, [], 1, []);
    assert [] + ReadBackAll(nodes) == ReadBackAll(nodes);
    NothingMore(ReadBackAll(nodes));
  }

  /** Which documents the parser rebuilds exactly. */
  predicate Faithful(nodes: seq<Node>) {
    && Every(nodes, MarkFree) && Every(nodes, FreeOfCR) && Every(nodes, NamesDiffer) && DeclarationsFirst(nodes)
    && 1 + HeightOf(nodes) < MAX_ELEMENT_DEPTH
  }

  /** Parsing the compact print of a document gives the document back exactly if no CDATA
      section, comment, declaration or unknown piece holds its own end mark, no value holds a
      carriage return, the attribute names of each element are distinct, the declarations come
      first, and elements with content are nested less than 99 deep. */
  lemma RoundTrip(nodes: seq<Node>)
    requires ValidDocument(nodes)
    ensures ParseDocument(PrintNodes(nodes)) == Parsed(nodes) <==> Faithful(nodes)
  {
    hide ParseLevel, PrintNodes, ErrorIn, ValidNodes, ReadBackAll, SkipWhiteSpace, SkipByteOrderMark, HeightOf, Every,
      DeclarationsFirst;
    if Every(nodes, MarkFree) {
      Outcome(nodes);
      NoErrorIn(nodes, 1, true);
      SameAll(nodes);
    } else {
      var t := PrintNodes(nodes);
      assert t + [] == t;
      DocumentStart(nodes, []);
      NodesSpoiled(nodes, [], 1, []);
      assert [] + nodes == nodes;
    }
  }

  lemma NothingMore(nodes: seq<Node>)
    ensures ParseLevel([], 1, nodes) == Ended(nodes)
  {
  }

  /** At document level an end tag without an element ends the parsing and is no error,
      whatever comes after it. */
  lemma StrayEndTag(nodes: seq<Node>, name: Text, rest: Text)
    requires ValidDocument(nodes) && ValidName(name) && Faithful(nodes)
    ensures ParseDocument(PrintNodes(nodes) + (CloseTag(name) + rest)) == Parsed(nodes)
  {
    hide ParseLevel, PrintNodes, ErrorIn, ValidNodes, ReadBackAll, SkipWhiteSpace, SkipByteOrderMark, HeightOf, Every,
      DeclarationsFirst;
    var tail := CloseTag(name) + rest;
    DocumentStart(nodes, tail);
    NodesBack(nodes, [], 1, tail);
    NoErrorIn(nodes, 1, true);
    SameAll(nodes);
    assert [] + nodes == nodes;
    CloseBack(name, rest, 1, nodes);
  }
}
