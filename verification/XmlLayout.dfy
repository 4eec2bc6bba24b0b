/** What is read as a document. */
module XmlLayout {
  // Which texts tinyxml2 takes for a document, and for which one.
  // The grammar is written with what follows: FormThen(f, rest) is the text of the form `f` and
  // then `rest`.  Every tag may have white space wherever the parser skips it.
  import opened Bytes
  import opened XmlText
  import opened XmlDoc
  import opened XmlRoundTrip
  import opened Options

  // ----- The grammar -----------------------------------------------------------------

  datatype AttributeForm = AttributeForm(before: Text, name: Text, left: Text, right: Text, quote: byte, raw: Text)

  /** An end tag, in which the parser allows attributes. */
  datatype EndForm = EndForm(before: Text, gap: Text, name: Text, attributes: seq<AttributeForm>, after: Text)

  /** An empty element may have a slash at both ends of its tag. */
  datatype Form =
    | EmptyForm(before: Text, gap: Text, slash: bool, name: Text, attributes: seq<AttributeForm>, after: Text)
    | ElementForm(before: Text, gap: Text, name: Text, attributes: seq<AttributeForm>, after: Text,
                  content: seq<Form>, end: EndForm)
    | TextForm(raw: Text)
    | MarkedForm(before: Text, node: Node)

  function AttributeThen(a: AttributeForm, rest: Text): Text {
    a.before + (a.name + (a.left + ([EQUALS] + (a.right + ([a.quote] + (a.raw + ([a.quote] + rest)))))))
  }

  function AttributesThen(attributes: seq<AttributeForm>, rest: Text): Text {
    if attributes == [] then rest else AttributeThen(attributes[0], AttributesThen(attributes[1..], rest))
  }

  /** A tag from its name on. */
  function TagThen(name: Text, attributes: seq<AttributeForm>, after: Text, closed: bool, rest: Text): Text {
    name + AttributesThen(attributes, after + (TagEnd(closed) + rest))
  }

  function EndThen(e: EndForm, rest: Text): Text {
    e.before + ([LT] + (e.gap + ([SLASH] + TagThen(e.name, e.attributes, e.after, false, rest))))
  }

  function FormThen(f: Form, rest: Text): Text
    decreases f
  {
    match f
    case EmptyForm(before, gap, slash, name, attributes, after) =>
      before + ([LT] + (gap + (if slash then [SLASH] + TagThen(name, attributes, after, true, rest)
                               else TagThen(name, attributes, after, true, rest))))
    case ElementForm(before, gap, name, attributes, after, content, end) =>
      before + ([LT] + (gap + TagThen(name, attributes, after, false, FormsThen(content, EndThen(end, rest)))))
    case TextForm(raw) => raw + rest
    case MarkedForm(before, node) => before + (PrintNode(node) + rest)
  }

  function FormsThen(forms: seq<Form>, rest: Text): Text
    decreases forms
  {
    if forms == [] then rest else FormThen(forms[0], FormsThen(forms[1..], rest))
  }

  predicate ValidAttribute(a: AttributeForm) {
    && IsBlank(a.before) && ValidName(a.name) && IsBlank(a.left) && IsBlank(a.right)
    && (a.quote == QUOT || a.quote == APOS)
    && forall i :: 0 <= i < |a.raw| ==> a.raw[i] != 0 && a.raw[i] != a.quote
  }

  predicate ValidAttributeForms(attributes: seq<AttributeForm>) {
    attributes != [] ==> ValidAttribute(attributes[0]) && ValidAttributeForms(attributes[1..])
  }

  /** White space comes between the name of the tag and the first attribute. */
  predicate ValidTag(name: Text, attributes: seq<AttributeForm>, after: Text) {
    && ValidName(name) && ValidAttributeForms(attributes) && IsBlank(after)
    && (attributes != [] ==> attributes[0].before != [])
  }

  predicate ValidEnd(e: EndForm) {
    && IsBlank(e.before) && IsBlank(e.gap) && ValidTag(e.name, e.attributes, e.after)
    && Distinct(AttributesOf(e.attributes))
  }

  /** A text has white space before the next tag as part of it. */
  predicate ValidForm(f: Form)
    decreases f
  {
    match f
    case EmptyForm(before, gap, _, name, attributes, after) =>
      IsBlank(before) && IsBlank(gap) && ValidTag(name, attributes, after)
    case ElementForm(before, gap, name, attributes, after, content, end) =>
      && IsBlank(before) && IsBlank(gap) && ValidTag(name, attributes, after)
      && ValidForms(content) && ValidEnd(end) && (EndsInText(content) ==> end.before == [])
    case TextForm(raw) => !IsBlank(raw) && forall i :: 0 <= i < |raw| ==> raw[i] != 0 && raw[i] != LT
    case MarkedForm(before, node) => IsBlank(before) && IsMarked(node) && NoNul(node.value) && MarkFree(node)
  }

  predicate ValidForms(forms: seq<Form>)
    decreases forms
  {
    forms != [] ==>
      && ValidForm(forms[0]) && ValidForms(forms[1..])
      && (forms[0].TextForm? && 1 < |forms| ==> !forms[1].TextForm? && forms[1].before == [])
  }

  predicate EndsInText(forms: seq<Form>) {
    forms != [] && forms[|forms| - 1].TextForm?
  }

  // ----- What the forms stand for --------------------------------------------------------

  function AttributeOf(a: AttributeForm): Attribute {
    Attribute(a.name, Decode(a.raw, true))
  }

  function AttributesOf(attributes: seq<AttributeForm>): seq<Attribute> {
    if attributes == [] then [] else [AttributeOf(attributes[0])] + AttributesOf(attributes[1..])
  }

  function NodeOf(f: Form): Node
    decreases f
  {
    match f
    case EmptyForm(_, _, _, name, attributes, _) => Element(name, AttributesOf(attributes), [])
    case ElementForm(_, _, name, attributes, _, content, _) => Element(name, AttributesOf(attributes), NodesOf(content))
    case TextForm(raw) => PlainText(Decode(raw, true))
    case MarkedForm(_, node) => ReadBack(node)
  }

  function NodesOf(forms: seq<Form>): seq<Node>
    decreases forms
  {
    if forms == [] then [] else [NodeOf(forms[0])] + NodesOf(forms[1..])
  }

  /** The first error in reading order. */
  function FormError(f: Form, depth: nat, lead: bool): Option<Error>
    decreases f
  {
    match f
    case EmptyForm(_, _, _, _, attributes, _) =>
      if Distinct(AttributesOf(attributes)) then None else Some(ParsingAttribute)
    case ElementForm(_, _, name, attributes, _, content, end) =>
      if !Distinct(AttributesOf(attributes)) then Some(ParsingAttribute)
      else if MAX_ELEMENT_DEPTH <= depth + 1 then Some(DepthExceeded)
      else if FormsError(content, depth + 1, false).Some? then FormsError(content, depth + 1, false)
      else if end.name != name then Some(MismatchedElement)
      else None
    case TextForm(_) => None
    case MarkedForm(_, node) => if node.Declaration? && !lead then Some(ParsingDeclaration) else None
  }

  function FormsError(forms: seq<Form>, depth: nat, lead: bool): Option<Error>
    decreases forms
  {
    if forms == [] then None
    else if FormError(forms[0], depth, lead).Some? then FormError(forms[0], depth, lead)
    else FormsError(forms[1..], depth, lead && NodeOf(forms[0]).Declaration?)
  }

  // ----- White space -----------------------------------------------------------------

  lemma {:induction false} BlankSkipped(blank: Text, t: Text)
    requires IsBlank(blank)
    ensures SkipWhiteSpace(blank + t) == SkipWhiteSpace(t)
    decreases |blank|
  {
    if blank == [] {
      assert blank + t == t;
    } else {
      assert blank + t == [blank[0]] + (blank[1..] + t);
      Drop(blank[0], blank[1..] + t);
      BlankSkipped(blank[1..], t);
    }
  }

  lemma Solid(t: Text)
    requires !IsWhiteSpace(Head(t))
    ensures SkipWhiteSpace(t) == t
  {
  }

  lemma SkippedTo(blank: Text, t: Text)
    requires IsBlank(blank) && !IsWhiteSpace(Head(t))
    ensures SkipWhiteSpace(blank + t) == t
  {
    BlankSkipped(blank, t);
  }

  lemma NameStartIsSolid(b: byte)
    requires IsNameStartChar(b)
    ensures b != 0 && b != SLASH && b != QUESTION && b != EXCLAMATION && b != LT && b != GT && b != EQUALS
    ensures !IsWhiteSpace(b)
  {
  }

  /** The white space at the beginning of a text. */
  lemma {:induction false} BlankPart(t: Text) returns (blank: Text)
    ensures IsBlank(blank) && t == blank + SkipWhiteSpace(t)
    decreases |t|
  {
    if IsWhiteSpace(Head(t)) {
      var more := BlankPart(t[1..]);
      blank := [t[0]] + more;
    } else {
      blank := [];
    }
  }

  // ----- Attributes ------------------------------------------------------------------

  lemma AfterBlank(blank: Text, t: Text)
    requires IsBlank(blank) && t != [] && !IsNameChar(t[0]) && t[0] != 0
    ensures var u := blank + t; u != [] && Head(u) != 0 && !IsNameChar(Head(u))
  {
  }

  lemma AttributeIs(a: AttributeForm, rest: Text)
    requires ValidAttribute(a)
    ensures var t := AttributeThen(a, rest);
      var u := SkipWhiteSpace(t);
      && IsNameStartChar(Head(u)) && ParseAttribute(u) == AttributeOk(AttributeOf(a), rest)
  {
    hide Decode, ParseText, ParseName, SkipWhiteSpace, IsBlank, ValidName;
    var x := a.raw + ([a.quote] + rest);
    var w := [a.quote] + x;
    var v := [EQUALS] + (a.right + w);
    var u := a.name + (a.left + v);
    AfterBlank(a.left, v);
    NameBack(a.name, a.left + v);
    NameStartIsSolid(Head(u));
    SkippedTo(a.before, u);
    SkippedTo(a.left, v);
    Drop(EQUALS, a.right + w);
    SkippedTo(a.right, w);
    Drop(a.quote, x);
    ByteTag(a.raw, a.quote, rest);
  }

  lemma OneMore(done: seq<Attribute>, a: Attribute, more: seq<Attribute>)
    requires Distinct(done)
    ensures HasAttribute(done, a.name) ==> !Distinct(done + ([a] + more))
    ensures !HasAttribute(done, a.name) ==> Distinct(done + [a])
  {
    var l := done + ([a] + more);
    if HasAttribute(done, a.name) {
      var i :| 0 <= i < |done| && done[i].name == a.name;
      assert l[i].name == l[|done|].name;
    }
  }

  lemma TagTurn(attributes: seq<AttributeForm>, done: seq<Attribute>, tail: Text)
    requires attributes != [] && ValidAttributeForms(attributes)
    ensures ParseAttributes(AttributesThen(attributes, tail), done) ==
      if HasAttribute(done, attributes[0].name) then TagError(ParsingAttribute)
      else ParseAttributes(AttributesThen(attributes[1..], tail), done + [AttributeOf(attributes[0])])
  {
    hide ParseAttribute, SkipWhiteSpace, AttributeThen, ValidAttribute, HasAttribute, Decode, IsNameStartChar;
    var u := SkipWhiteSpace(AttributesThen(attributes, tail));
    AttributeIs(attributes[0], AttributesThen(attributes[1..], tail));
    NameStartIsSolid(Head(u));
  }

  /** The attributes of a tag are read in order; a name that occurs twice is an error. */
  lemma {:induction false} TagIs(attributes: seq<AttributeForm>, done: seq<Attribute>, after: Text, closed: bool,
                                 rest: Text)
    requires ValidAttributeForms(attributes) && IsBlank(after) && Distinct(done)
    ensures ParseAttributes(AttributesThen(attributes, after + (TagEnd(closed) + rest)), done) ==
      if Distinct(done + AttributesOf(attributes)) then Tag(done + AttributesOf(attributes), closed, rest)
      else TagError(ParsingAttribute)
    decreases |attributes|
  {
    hide ParseAttributes, Distinct, HasAttribute, TagEnd, ValidAttribute, AttributeOf, AttributeThen;
    var tail := after + (TagEnd(closed) + rest);
    if attributes == [] {
      assert done + AttributesOf(attributes) == done;
      BareTag(after, done, closed, rest);
    } else {
      var a := AttributeOf(attributes[0]);
      assert a.name == attributes[0].name by { NameKept(attributes[0]); }
      TagTurn(attributes, done, tail);
      OneMore(done, a, AttributesOf(attributes[1..]));
      Assoc(done, [a], AttributesOf(attributes[1..]));
      if !HasAttribute(done, a.name) { TagIs(attributes[1..], done + [a], after, closed, rest); }
    }
  }

  lemma NameKept(a: AttributeForm)
    ensures AttributeOf(a).name == a.name
  {
  }

  lemma BareTag(after: Text, done: seq<Attribute>, closed: bool, rest: Text)
    requires IsBlank(after)
    ensures ParseAttributes(after + (TagEnd(closed) + rest), done) == Tag(done, closed, rest)
  {
    var t := TagEnd(closed) + rest;
    BlankSkipped(after, t);
    TagEndBack(done, closed, rest);
    SameTag(after + t, t, done);
  }

  lemma SameTag(t: Text, u: Text, done: seq<Attribute>)
    requires SkipWhiteSpace(t) == SkipWhiteSpace(u)
    ensures ParseAttributes(t, done) == ParseAttributes(u, done)
  {
  }

  lemma AfterTagName(attributes: seq<AttributeForm>, after: Text, closed: bool, rest: Text)
    requires ValidAttributeForms(attributes) && IsBlank(after) && (attributes != [] ==> attributes[0].before != [])
    ensures var t := AttributesThen(attributes, after + (TagEnd(closed) + rest));
      Head(t) != 0 && !IsNameChar(Head(t))
  {
    if attributes == [] {
      AfterBlank(after, TagEnd(closed) + rest);
    } else {
      assert Head(AttributesThen(attributes, after + (TagEnd(closed) + rest))) == attributes[0].before[0];
    }
  }

  // ----- Tags ------------------------------------------------------------------------

  /** The name and the attributes of a tag. */
  lemma NamedTag(name: Text, attributes: seq<AttributeForm>, after: Text, closed: bool, rest: Text)
    requires ValidTag(name, attributes, after)
    ensures var t := TagThen(name, attributes, after, closed, rest);
      var w := AttributesThen(attributes, after + (TagEnd(closed) + rest));
      && IsNameStartChar(Head(t)) && ParseName(t) == Scan(name, w)
      && ParseAttributes(w, []) ==
        if Distinct(AttributesOf(attributes)) then Tag(AttributesOf(attributes), closed, rest)
        else TagError(ParsingAttribute)
  {
    hide ParseAttributes, ParseName, Distinct, TagEnd, AttributesThen, ValidAttributeForms, IsBlank, ValidName;
    AfterTagName(attributes, after, closed, rest);
    NameBack(name, AttributesThen(attributes, after + (TagEnd(closed) + rest)));
    assert Distinct([]) by { NothingTwice(); }
    TagIs(attributes, [], after, closed, rest);
    assert [] + AttributesOf(attributes) == AttributesOf(attributes);
  }

  /** White space before a tag and after its less-than sign is skipped. */
  lemma TagBegins(before: Text, gap: Text, t: Text)
    requires IsBlank(before) && IsBlank(gap) && t != [] && (IsNameStartChar(t[0]) || t[0] == SLASH)
    ensures var u := before + ([LT] + (gap + t));
      && Head(u) != 0 && Identify(u) == (KElement, gap + t) && SkipWhiteSpace(gap + t) == t
  {
    hide SkipWhiteSpace;
    var u := [LT] + (gap + t);
    SkippedTo(before, u);
    SkippedTo(gap, t);
    Drop(LT, gap + t);
    assert u[1] == (gap + t)[0];
    if gap != [] { assert IsWhiteSpace(u[1]); }
    assert Head(before + u) != 0;
  }

  lemma TagItem(before: Text, gap: Text, t: Text, depth: nat, done: seq<Node>)
    requires IsBlank(before) && IsBlank(gap) && t != [] && (IsNameStartChar(t[0]) || t[0] == SLASH)
    ensures var u := before + ([LT] + (gap + t));
      && Head(u) != 0 && Identify(u).0 != KNone && FirstItem(u, depth, done) == ParseElement(gap + t, depth)
  {
    hide Identify, ParseElement;
    TagBegins(before, gap, t);
  }

  lemma EndIs(e: EndForm, rest: Text, depth: nat, done: seq<Node>)
    requires ValidEnd(e)
    ensures ParseLevel(EndThen(e, rest), depth, done) == Closed(done, e.name, rest)
  {
    hide ParseName, ParseAttributes, Identify, ParseLevel, SkipWhiteSpace, IsBlank, ValidTag, TagThen, Distinct;
    var v := TagThen(e.name, e.attributes, e.after, false, rest);
    NamedTag(e.name, e.attributes, e.after, false, rest);
    TagBegins(e.before, e.gap, [SLASH] + v);
    TagItem(e.before, e.gap, [SLASH] + v, depth, done);
    Drop(SLASH, v);
    assert ParseElement(e.gap + ([SLASH] + v), depth) == EndTag(e.name, rest);
    LevelStep(EndThen(e, rest), depth, done, EndTag(e.name, rest));
  }

  lemma EmptyIs(f: Form, rest: Text, depth: nat, done: seq<Node>)
    requires f.EmptyForm? && ValidForm(f)
    ensures var t := FormThen(f, rest);
      && Head(t) != 0 && Identify(t).0 != KNone
      && FirstItem(t, depth, done) == FormItem(f, rest, depth, false)
  {
    hide ParseName, ParseAttributes, Identify, ParseLevel, SkipWhiteSpace, IsBlank, ValidTag, TagThen, Distinct;
    var v := TagThen(f.name, f.attributes, f.after, true, rest);
    NamedTag(f.name, f.attributes, f.after, true, rest);
    NameStartIsSolid(Head(v));
    var w := if f.slash then [SLASH] + v else v;
    TagBegins(f.before, f.gap, w);
    TagItem(f.before, f.gap, w, depth, done);
    Drop(SLASH, v);
    assert ParseElement(f.gap + w, depth) == FormItem(f, rest, depth, false);
  }

  function FormItem(f: Form, rest: Text, depth: nat, lead: bool): Item {
    match FormError(f, depth, lead)
    case None => NodeItem(NodeOf(f), rest)
    case Some(e) => ItemError(e)
  }

  /** What ParseElement makes of an element with content. */
  lemma ElementParts(f: Form, rest: Text, depth: nat, done: seq<Node>)
    requires f.ElementForm? && ValidForm(f)
    ensures var t := FormThen(f, rest);
      && Head(t) != 0 && Identify(t).0 != KNone
      && FirstItem(t, depth, done) ==
        if !Distinct(AttributesOf(f.attributes)) then ItemError(ParsingAttribute)
        else Inside(f, FormsThen(f.content, EndThen(f.end, rest)), depth)
  {
    hide ParseName, ParseAttributes, Identify, ParseLevel, SkipWhiteSpace, IsBlank, ValidTag, TagThen, Distinct,
      FormsThen, EndThen;
    var x := FormsThen(f.content, EndThen(f.end, rest));
    var v := TagThen(f.name, f.attributes, f.after, false, x);
    NamedTag(f.name, f.attributes, f.after, false, x);
    NameStartIsSolid(Head(v));
    TagBegins(f.before, f.gap, v);
    TagItem(f.before, f.gap, v, depth, done);
    assert ParseElement(f.gap + v, depth) ==
      if !Distinct(AttributesOf(f.attributes)) then ItemError(ParsingAttribute) else Inside(f, x, depth);
  }

  function Inside(f: Form, x: Text, depth: nat): Item
    requires f.ElementForm?
  {
    if Head(x) == 0 then ItemError(MismatchedElement)
    else if depth + 1 == MAX_ELEMENT_DEPTH then ItemError(DepthExceeded)
    else
      match ParseLevel(x, depth + 1, [])
      case LevelError(e) => ItemError(e)
      case Ended(_) => ItemError(Parsing)
      case Closed(children, tag, y) =>
        if tag == f.name then NodeItem(Element(f.name, AttributesOf(f.attributes), children), y)
        else ItemError(MismatchedElement)
  }

  // ----- Texts and marked pieces -------------------------------------------------------

  lemma {:induction false} TextSolid(raw: Text, rest: Text)
    requires !IsBlank(raw) && forall i :: 0 <= i < |raw| ==> raw[i] != 0 && raw[i] != LT
    ensures var u := SkipWhiteSpace(raw + rest); u != [] && u[0] != LT && u[0] != 0
    decreases |raw|
  {
    if IsWhiteSpace(raw[0]) {
      assert raw + rest == [raw[0]] + (raw[1..] + rest);
      Drop(raw[0], raw[1..] + rest);
      TextSolid(raw[1..], rest);
    }
  }

  lemma TextIs(raw: Text, rest: Text, depth: nat, done: seq<Node>)
    requires ValidForm(TextForm(raw)) && TagFollows(rest)
    ensures var t := raw + rest;
      && Head(t) != 0 && Identify(t).0 != KNone
      && FirstItem(t, depth, done) == NodeItem(PlainText(Decode(raw, true)), rest)
  {
    hide Decode, ParseText, IsBlank, SkipWhiteSpace;
    TextSolid(raw, rest);
    assert raw != [] by { assert raw == [] ==> IsBlank(raw) by { NothingIsBlank(); } }
    assert rest == [LT] + rest[1..];
    ByteTag(raw, LT, rest[1..]);
  }

  lemma NothingIsBlank()
    ensures IsBlank([])
  {
  }

  /** White space before a tag makes no difference. */
  lemma BlankBefore(before: Text, t: Text, depth: nat, done: seq<Node>)
    requires IsBlank(before) && Head(t) == LT
    ensures FirstItem(before + t, depth, done) == FirstItem(t, depth, done) && Identify(before + t) == Identify(t)
  {
    hide SkipWhiteSpace;
    Solid(t);
    SkippedTo(before, t);
    assert Identify(before + t) == Identify(t);
    assert Identify(t).0 != KText;
    SameItem(before + t, t, depth, done);
  }

  lemma SameItem(t: Text, u: Text, depth: nat, done: seq<Node>)
    requires Identify(t) == Identify(u)
    ensures FirstItem(t, depth, done) == FirstItem(u, depth, done)
  {
    hide Identify;
  }

  lemma MarkedIs(before: Text, node: Node, rest: Text, depth: nat, done: seq<Node>)
    requires ValidForm(MarkedForm(before, node))
    ensures var f := MarkedForm(before, node);
      var t := FormThen(f, rest);
      && Head(t) != 0 && Identify(t).0 != KNone
      && FirstItem(t, depth, done) == FormItem(f, rest, depth, Leads(depth, done))
  {
    hide FirstItem, Identify, PrintNode, Leads, IsBlank, MarkFree;
    MarkedText(node, rest);
    MarkedIdentified(node, node.value + (EndOf(node) + rest));
    MarkedStart(node, rest);
    BlankBefore(before, PrintNode(node) + rest, depth, done);
    MarkedBack(node, rest, depth, done);
    assert Head(before + (PrintNode(node) + rest)) != 0 by { BlankHead(before, PrintNode(node) + rest); }
  }

  lemma BlankHead(blank: Text, t: Text)
    requires IsBlank(blank) && Head(t) != 0
    ensures Head(blank + t) != 0
  {
  }

  // ----- Every text of the grammar is read as what it means -------------------------------

  /** What may come after the forms: a tag at once if they end in a text. */
  predicate GoesOn(forms: seq<Form>, rest: Text) {
    EndsInText(forms) ==> TagFollows(rest)
  }

  lemma TagAhead(f: Form, rest: Text)
    requires ValidForm(f) && !f.TextForm? && f.before == []
    ensures TagFollows(FormThen(f, rest))
  {
    hide PrintNode, FormsThen, EndThen, AttributesThen;
    var t := FormThen(f, rest);
    match f {
      case EmptyForm(_, gap, slash, name, _, _) => LessThan(t[1..], t);
      case ElementForm(_, gap, name, _, _, _, _) => LessThan(t[1..], t);
      case MarkedForm(_, node) =>
        assert t == PrintNode(node) + rest;
        MarkedText(node, rest);
        MarkedIdentified(node, node.value + (EndOf(node) + rest));
    }
  }

  lemma LessThan(u: Text, t: Text)
    requires t == [LT] + u && u != [] && u[0] != 0
    ensures TagFollows(t)
  {
  }

  lemma NextForm(forms: seq<Form>, rest: Text)
    requires forms != [] && ValidForms(forms) && GoesOn(forms, rest)
    ensures forms[0].TextForm? ==> TagFollows(FormsThen(forms[1..], rest))
    ensures ValidForm(forms[0]) && ValidForms(forms[1..]) && GoesOn(forms[1..], rest)
  {
    hide FormThen;
    if forms[0].TextForm? && 1 < |forms| {
      assert forms[1..][0] == forms[1];
      TagAhead(forms[1], FormsThen(forms[1..][1..], rest));
    }
  }

  lemma EndAhead(e: EndForm, rest: Text)
    requires ValidEnd(e)
    ensures Head(EndThen(e, rest)) != 0 && (e.before == [] ==> TagFollows(EndThen(e, rest)))
  {
    hide TagThen;
    var u := e.gap + ([SLASH] + TagThen(e.name, e.attributes, e.after, false, rest));
    assert u[0] != 0;
    if e.before == [] {
      LessThan(u, EndThen(e, rest));
    }
  }

  lemma {:induction false} FormIs(f: Form, rest: Text, depth: nat, done: seq<Node>)
    requires ValidForm(f) && depth < MAX_ELEMENT_DEPTH && 1 <= depth && (f.TextForm? ==> TagFollows(rest))
    ensures var t := FormThen(f, rest);
      && Head(t) != 0 && Identify(t).0 != KNone
      && FirstItem(t, depth, done) == FormItem(f, rest, depth, Leads(depth, done))
    decreases f, 1
  {
    hide FirstItem, Identify, Leads;
    match f {
      case EmptyForm(_, _, _, _, _, _) => EmptyIs(f, rest, depth, done);
      case ElementForm(_, _, _, _, _, content, end) => ElementIs(f, rest, depth, done);
      case TextForm(raw) => TextIs(raw, rest, depth, done);
      case MarkedForm(before, node) => MarkedIs(before, node, rest, depth, done);
    }
  }

  lemma {:induction false} ElementIs(f: Form, rest: Text, depth: nat, done: seq<Node>)
    requires f.ElementForm? && ValidForm(f) && 1 <= depth < MAX_ELEMENT_DEPTH
    ensures var t := FormThen(f, rest);
      && Head(t) != 0 && Identify(t).0 != KNone
      && FirstItem(t, depth, done) == FormItem(f, rest, depth, Leads(depth, done))
    decreases f, 0
  {
    hide FirstItem, Identify, Leads, FormThen, FormsThen, EndThen, ValidForms, ValidEnd, ValidTag, Distinct, IsBlank,
      FormsError, NodesOf;
    ElementParts(f, rest, depth, done);
    var tail := EndThen(f.end, rest);
    EndAhead(f.end, rest);
    FormsAhead(f.content, tail);
    if depth + 1 < MAX_ELEMENT_DEPTH {
      FormsAre(f.content, [], depth + 1, tail);
      assert [] + NodesOf(f.content) == NodesOf(f.content);
      EndIs(f.end, rest, depth + 1, NodesOf(f.content));
      assert !Leads(depth + 1, []) by { NoLead(depth); }
    }
  }

  lemma NoLead(depth: nat)
    requires 1 <= depth
    ensures !Leads(depth + 1, [])
  {
  }

  lemma FormsAhead(forms: seq<Form>, rest: Text)
    requires ValidForms(forms) && GoesOn(forms, rest) && Head(rest) != 0
    ensures Head(FormsThen(forms, rest)) != 0
  {
    hide FormThen, Identify, FirstItem, TagFollows;
    if forms != [] {
      NextForm(forms, rest);
      FormIs0(forms[0], FormsThen(forms[1..], rest));
    }
  }

  lemma FormIs0(f: Form, rest: Text)
    requires ValidForm(f)
    ensures Head(FormThen(f, rest)) != 0
  {
    hide PrintNode, FormsThen, EndThen, TagThen;
    match f {
      case MarkedForm(before, node) =>
        MarkedText(node, rest);
        MarkedIdentified(node, node.value + (EndOf(node) + rest));
      case _ =>
    }
  }

  /** The forms of a level are read one after the other, up to the first error. */
  lemma {:induction false} FormsAre(forms: seq<Form>, done: seq<Node>, depth: nat, rest: Text)
    requires ValidForms(forms) && GoesOn(forms, rest) && 1 <= depth < MAX_ELEMENT_DEPTH
    ensures ParseLevel(FormsThen(forms, rest), depth, done) ==
      match FormsError(forms, depth, Leads(depth, done))
      case None => ParseLevel(rest, depth, done + NodesOf(forms))
      case Some(e) => LevelError(e)
    decreases forms, 0
  {
    hide ParseLevel, FormThen, FirstItem, Identify, NodeOf, Leads, FormError, ValidForm, TagFollows;
    if forms == [] {
      assert done + NodesOf(forms) == done;
    } else {
      var f, more := forms[0], FormsThen(forms[1..], rest);
      NextForm(forms, rest);
      FormIs(f, more, depth, done);
      LevelStep(FormThen(f, more), depth, done, FirstItem(FormThen(f, more), depth, done));
      if FormError(f, depth, Leads(depth, done)).None? {
        LeadsOn(depth, done, NodeOf(f));
        FormsAre(forms[1..], done + [NodeOf(f)], depth, rest);
        Assoc(done, [NodeOf(f)], NodesOf(forms[1..]));
      }
    }
  }

  lemma LeadsOn(depth: nat, done: seq<Node>, n: Node)
    ensures Leads(depth, done + [n]) <==> Leads(depth, done) && n.Declaration?
  {
    var l := done + [n];
    assert forall i :: 0 <= i < |done| ==> l[i] == done[i];
    assert l[|done|] == n;
  }

  // ----- Whatever is read is a text of the grammar ------------------------------------------

  lemma {:induction false} NameRestIs(t: Text)
    ensures var s := NameRest(t);
      && t == s.value + s.rest && (Head(s.rest) == 0 || !IsNameChar(Head(s.rest)))
      && forall i :: 0 <= i < |s.value| ==> IsNameChar(s.value[i]) && s.value[i] != 0
    decreases |t|
  {
    hide IsNameChar;
    if Head(t) != 0 && IsNameChar(Head(t)) {
      NameRestIs(t[1..]);
      var s := NameRest(t[1..]);
      assert t == [t[0]] + t[1..];
      Assoc([t[0]], s.value, s.rest);
    }
  }

  lemma NameIs(t: Text)
    ensures ParseName(t).Scan? ==>
      var s := ParseName(t);
      && ValidName(s.value) && t == s.value + s.rest && (Head(s.rest) == 0 || !IsNameChar(Head(s.rest)))
  {
    if t != [] { NameRestIs(t[1..]); }
  }

  lemma OccursNext(endTag: Text, x: byte, v: Text, t: Text)
    requires Occurs(endTag, [x] + v) && [x] + v <= t && !(endTag <= t)
    ensures Occurs(endTag, v)
  {
    var w := [x] + v;
    var i :| 0 <= i <= |w| && endTag <= w[i..];
    assert w[0..] == w;
    assert w[i..] == v[i - 1..];
  }

  lemma {:induction false} ScanIs(t: Text, endTag: Text)
    requires endTag != [] && ParseText(t, endTag).Scan?
    ensures var s := ParseText(t, endTag);
      t == s.value + (endTag + s.rest) && NoNul(s.value) && !Occurs(endTag, s.value)
    decreases |t|
  {
    hide Occurs;
    var s := ParseText(t, endTag);
    if endTag <= t {
      assert t == [] + (endTag + s.rest);
      NothingOccurs(endTag);
    } else {
      ScanIs(t[1..], endTag);
      var v := ParseText(t[1..], endTag).value;
      assert t == [t[0]] + t[1..];
      Assoc([t[0]], v, endTag + s.rest);
      if Occurs(endTag, [t[0]] + v) { OccursNext(endTag, t[0], v, t); }
    }
  }

  lemma NothingOccurs(endTag: Text)
    requires endTag != []
    ensures !Occurs(endTag, [])
  {
  }

  lemma ByteOccurs(v: Text, i: nat)
    requires i < |v|
    ensures Occurs([v[i]], v)
  {
    assert [v[i]] <= v[i..];
  }

  lemma ByteScanIs(t: Text, b: byte)
    requires ParseText(t, [b]).Scan?
    ensures var s := ParseText(t, [b]);
      t == s.value + ([b] + s.rest) && forall i :: 0 <= i < |s.value| ==> s.value[i] != 0 && s.value[i] != b
  {
    hide ParseText, Occurs;
    var v := ParseText(t, [b]).value;
    ScanIs(t, [b]);
    forall i | 0 <= i < |v| ensures v[i] != b {
      ByteOccurs(v, i);
    }
  }

  lemma AttributeFormOf(t: Text) returns (a: AttributeForm)
    requires ParseAttribute(SkipWhiteSpace(t)).AttributeOk?
    ensures var r := ParseAttribute(SkipWhiteSpace(t));
      ValidAttribute(a) && t == AttributeThen(a, r.rest) && AttributeOf(a) == r.attribute
  {
    hide Decode, ParseText, ParseName, SkipWhiteSpace, IsBlank, ValidName;
    var before := BlankPart(t);
    var t0 := SkipWhiteSpace(t);
    NameIs(t0);
    var n := ParseName(t0);
    var left := BlankPart(n.rest);
    var v := SkipWhiteSpace(n.rest);
    assert v == [EQUALS] + v[1..];
    var right := BlankPart(v[1..]);
    var w := SkipWhiteSpace(v[1..]);
    assert w == [w[0]] + w[1..];
    ByteScanIs(w[1..], w[0]);
    a := AttributeForm(before, n.value, left, right, w[0], ParseText(w[1..], [w[0]]).value);
  }

  lemma AttributeTaken(t: Text, done: seq<Attribute>)
    requires ParseAttributes(t, done).Tag? && IsNameStartChar(Head(SkipWhiteSpace(t)))
    ensures var r := ParseAttribute(SkipWhiteSpace(t));
      && r.AttributeOk? && !HasAttribute(done, r.attribute.name) && |r.rest| < |t|
      && ParseAttributes(t, done) == ParseAttributes(r.rest, done + [r.attribute])
  {
    hide ParseAttribute, SkipWhiteSpace, HasAttribute;
    NameStartIsSolid(Head(SkipWhiteSpace(t)));
  }

  lemma TagTaken(t: Text, done: seq<Attribute>)
    requires ParseAttributes(t, done).Tag? && !IsNameStartChar(Head(SkipWhiteSpace(t)))
    ensures var r := ParseAttributes(t, done);
      r.attributes == done && SkipWhiteSpace(t) == TagEnd(r.closed) + r.rest
  {
    hide SkipWhiteSpace;
  }

  lemma {:induction false} TagFormsOf(t: Text, done: seq<Attribute>) returns (forms: seq<AttributeForm>, after: Text)
    requires ParseAttributes(t, done).Tag? && Distinct(done)
    ensures var r := ParseAttributes(t, done);
      && ValidAttributeForms(forms) && IsBlank(after) && Distinct(r.attributes)
      && t == AttributesThen(forms, after + (TagEnd(r.closed) + r.rest)) && r.attributes == done + AttributesOf(forms)
    decreases |t|
  {
    hide ParseAttributes, ParseAttribute, SkipWhiteSpace, Distinct, IsBlank, TagEnd, HasAttribute, ValidAttribute,
      AttributeOf, AttributeThen;
    if IsNameStartChar(Head(SkipWhiteSpace(t))) {
      AttributeTaken(t, done);
      var r := ParseAttribute(SkipWhiteSpace(t));
      var a := AttributeFormOf(t);
      OneMore(done, r.attribute, []);
      var more, rest := TagFormsOf(r.rest, done + [r.attribute]);
      forms, after := [a] + more, rest;
      assert forms[1..] == more;
      Assoc(done, [r.attribute], AttributesOf(more));
    } else {
      TagTaken(t, done);
      forms := [];
      after := BlankPart(t);
      assert done + AttributesOf(forms) == done;
    }
  }

  /** The name and the attributes of a tag that was read. */
  lemma TagFormOf(v: Text) returns (attributes: seq<AttributeForm>, after: Text)
    requires ParseName(v).Scan? && ParseAttributes(ParseName(v).rest, []).Tag?
    ensures var n := ParseName(v);
      var r := ParseAttributes(n.rest, []);
      && ValidTag(n.value, attributes, after) && Distinct(r.attributes) && AttributesOf(attributes) == r.attributes
      && v == TagThen(n.value, attributes, after, r.closed, r.rest)
  {
    hide ParseName, ParseAttributes, Distinct, IsBlank, ValidName, TagEnd, AttributeOf;
    NameIs(v);
    assert Distinct([]) by { NothingTwice(); }
    var w := ParseName(v).rest;
    attributes, after := TagFormsOf(w, []);
    assert [] + AttributesOf(attributes) == AttributesOf(attributes);
    if attributes != [] && attributes[0].before == [] {
      var a := attributes[0];
      NameFirst(a, AttributesThen(attributes[1..], after + (TagEnd(ParseAttributes(w, []).closed)
                                                            + ParseAttributes(w, []).rest)));
      assert false;
    }
  }

  lemma NameFirst(a: AttributeForm, rest: Text)
    requires ValidAttribute(a) && a.before == []
    ensures var t := AttributeThen(a, rest); Head(t) != 0 && IsNameChar(Head(t))
  {
    assert AttributeThen(a, rest)[0] == a.name[0];
  }

  lemma TaggedKind(t: Text)
    ensures var (kind, u) := Identify(t);
      && (kind == KElement ==> SkipWhiteSpace(t) == [LT] + u)
      && (kind == KDeclaration ==> SkipWhiteSpace(t) == XML_HEADER + u)
      && (kind == KComment ==> SkipWhiteSpace(t) == COMMENT_HEADER + u)
      && (kind == KCData ==> SkipWhiteSpace(t) == CDATA_HEADER + u)
      && (kind == KUnknown ==> SkipWhiteSpace(t) == DTD_HEADER + u && !LooksKnown(u))
      && (kind == KText ==> u == t && Head(SkipWhiteSpace(t)) != LT)
      && (kind == KNone <==> Head(SkipWhiteSpace(t)) == 0)
  {
    hide SkipWhiteSpace;
    var (kind, u) := Identify(t);
    KnownHeader(u);
  }

  lemma KnownHeader(u: Text)
    ensures LooksKnown(u) ==> COMMENT_HEADER <= DTD_HEADER + u || CDATA_HEADER <= DTD_HEADER + u
  {
    assert COMMENT_HEADER == DTD_HEADER + COMMENT_HEADER[2..] && CDATA_HEADER == DTD_HEADER + CDATA_HEADER[2..];
  }

  function MarkedNode(kind: Kind, value: Text): (n: Node)
    requires kind == KDeclaration || kind == KComment || kind == KCData || kind == KUnknown
    ensures IsMarked(n) && KindOf(n) == kind && n.value == value
  {
    match kind
    case KDeclaration => Declaration(value)
    case KComment => Comment(value)
    case KCData => CData(value)
    case KUnknown => UnknownNode(value)
  }

  lemma MarkedFormOf(t: Text, depth: nat, done: seq<Node>) returns (f: Form)
    requires FirstItem(t, depth, done).NodeItem?
    requires var kind := Identify(t).0; kind == KDeclaration || kind == KComment || kind == KCData || kind == KUnknown
    ensures IsFirst(f, t, depth, done)
  {
    hide Identify, SkipWhiteSpace, ParseText, Occurs, LooksKnown, PrintNode, Decode;
    var (kind, u) := Identify(t);
    var before := BlankPart(t);
    TaggedKind(t);
    var endTag := EndOf(MarkedNode(kind, []));
    var s := ParseText(u, endTag);
    ScanIs(u, endTag);
    var n := MarkedNode(kind, s.value);
    LooksAlike(s.value, endTag + s.rest);
    PlainLines(s.value);
    MarkedText(n, s.rest);
    f := MarkedForm(before, n);
  }

  /** The form `f` is what the first item of the text was read from. */
  ghost predicate IsFirst(f: Form, t: Text, depth: nat, done: seq<Node>) {
    var r := FirstItem(t, depth, done);
    && r.NodeItem? && ValidForm(f) && t == FormThen(f, r.rest) && FormError(f, depth, Leads(depth, done)) == None
    && r.node == NodeOf(f) && (f.TextForm? ==> TagFollows(r.rest))
  }

  lemma TextFormOf(t: Text, depth: nat, done: seq<Node>) returns (f: Form)
    requires FirstItem(t, depth, done).NodeItem? && Identify(t).0 == KText
    ensures IsFirst(f, t, depth, done)
  {
    hide Identify, SkipWhiteSpace, ParseText, Decode, IsBlank;
    TaggedKind(t);
    var s := ParseText(t, [LT]);
    ByteScanIs(t, LT);
    if IsBlank(s.value) {
      SkippedTo(s.value, [LT] + s.rest);
      assert false;
    }
    f := TextForm(s.value);
  }

  /** The parts of a tag: before and after its less-than sign, and from its name on. */
  lemma TagParts(t: Text, depth: nat, done: seq<Node>) returns (before: Text, gap: Text, slash: bool, v: Text)
    requires Identify(t).0 == KElement
    ensures IsBlank(before) && IsBlank(gap)
    ensures var u := Identify(t).1;
      && SkipWhiteSpace(u) == (if slash then [SLASH] + v else v) && slash == (Head(SkipWhiteSpace(u)) == SLASH)
      && t == before + ([LT] + (gap + (if slash then [SLASH] + v else v)))
      && FirstItem(t, depth, done) == ParseElement(u, depth)
  {
    hide Identify, SkipWhiteSpace, ParseElement, IsBlank;
    var u := Identify(t).1;
    TaggedKind(t);
    before := BlankPart(t);
    gap := BlankPart(u);
    var w := SkipWhiteSpace(u);
    slash := Head(w) == SLASH;
    v := if slash then w[1..] else w;
    assert slash ==> w == [SLASH] + v;
  }

  lemma EndFormOf(t: Text, depth: nat, done: seq<Node>) returns (e: EndForm)
    requires Identify(t).0 != KNone && FirstItem(t, depth, done).EndTag?
    ensures var r := FirstItem(t, depth, done);
      ValidEnd(e) && e.name == r.tag && t == EndThen(e, r.after)
  {
    hide Identify, SkipWhiteSpace, IsBlank, ParseName, ParseAttributes, ParseLevel, Distinct, ValidTag, TagThen,
      ParseText, Decode, AttributesOf;
    TaggedKind(t);
    var before, gap, slash, v := TagParts(t, depth, done);
    var attributes, after := TagFormOf(v);
    e := EndForm(before, gap, ParseName(v).value, attributes, after);
  }

  /** The item of a text that begins with an element. */
  lemma {:induction false} ElementFormOf(t: Text, depth: nat, done: seq<Node>) returns (f: Form)
    requires 1 <= depth < MAX_ELEMENT_DEPTH && Identify(t).0 == KElement && FirstItem(t, depth, done).NodeItem?
    ensures IsFirst(f, t, depth, done)
    decreases |t|, 0
  {
    hide Identify, SkipWhiteSpace, IsBlank, ParseName, ParseAttributes, ParseLevel, Distinct, ValidTag, TagThen, Leads,
      AttributesOf, FormsThen, EndThen, ValidForms, ValidEnd, EndsInText, FormsError, NodesOf, FirstItem, TagFollows;
    var before, gap, slash, v := TagParts(t, depth, done);
    var n := ParseName(v);
    var r := ParseAttributes(n.rest, []);
    var attributes, after := TagFormOf(v);
    if r.closed {
      f := EmptyForm(before, gap, slash, n.value, attributes, after);
    } else {
      NoLead(depth);
      var l := ParseLevel(r.rest, depth + 1, []);
      var content, tail, end := LevelFormsOf(r.rest, depth + 1, []);
      assert [] + NodesOf(content) == NodesOf(content);
      if TagFollows(tail) { EndNext(end.value, l.rest); }
      assert EndsInText(content) ==> end.value.before == [];
      f := ElementForm(before, gap, n.value, attributes, after, content, end.value);
    }
  }

  lemma Adjacent(f: Form, more: seq<Form>, rest: Text)
    requires ValidForm(f) && ValidForms(more) && GoesOn(more, rest)
    requires f.TextForm? ==> TagFollows(FormsThen(more, rest))
    ensures ValidForms([f] + more) && GoesOn([f] + more, rest) && FormsThen([f] + more, rest) ==
      FormThen(f, FormsThen(more, rest))
  {
    hide FormThen;
    assert ([f] + more)[1..] == more;
    if f.TextForm? && more != [] { TagNext(more[0], FormsThen(more[1..], rest)); }
  }

  lemma FirstByte(f: Form, rest: Text)
    requires ValidForm(f)
    ensures f.TextForm? ==> Head(FormThen(f, rest)) != LT
    ensures !f.TextForm? && f.before != [] ==> Head(FormThen(f, rest)) != LT
  {
    hide PrintNode, FormsThen, EndThen, TagThen;
  }

  lemma TagNext(f: Form, rest: Text)
    requires ValidForm(f) && TagFollows(FormThen(f, rest))
    ensures !f.TextForm? && f.before == []
  {
    hide FormThen, ValidForm;
    FirstByte(f, rest);
  }

  lemma EndFirst(e: EndForm, rest: Text)
    requires ValidEnd(e)
    ensures e.before != [] ==> Head(EndThen(e, rest)) != LT
  {
    hide TagThen;
  }

  lemma EndNext(e: EndForm, rest: Text)
    requires ValidEnd(e) && TagFollows(EndThen(e, rest))
    ensures e.before == []
  {
    hide EndThen;
    EndFirst(e, rest);
  }

  /** The forms of a level that was read, what comes after them, and the end tag if there is
      one. */
  lemma {:induction false} LevelFormsOf(t: Text, depth: nat, done: seq<Node>)
    returns (forms: seq<Form>, tail: Text, end: Option<EndForm>)
    requires 1 <= depth < MAX_ELEMENT_DEPTH && !ParseLevel(t, depth, done).LevelError?
    ensures var r := ParseLevel(t, depth, done);
      && ValidForms(forms) && GoesOn(forms, tail) && t == FormsThen(forms, tail)
      && FormsError(forms, depth, Leads(depth, done)) == None && r.nodes == done + NodesOf(forms)
      && (r.Ended? ==> Head(SkipWhiteSpace(tail)) == 0)
      && (r.Closed? ==>
            end.Some? && ValidEnd(end.value) && end.value.name == r.tag && tail == EndThen(end.value, r.rest))
    decreases |t|, 2
  {
    hide ParseLevel, FormThen, FirstItem, Identify, NodeOf, Leads, FormError, ValidForm, TagFollows, SkipWhiteSpace,
      ValidEnd, EndThen;
    TaggedKind(t);
    if Head(t) == 0 || Identify(t).0 == KNone {
      LevelOver(t, depth, done);
      forms, tail, end := [], t, None;
      assert done + NodesOf(forms) == done;
    } else {
      var item := FirstItem(t, depth, done);
      ItemShrinks(t, depth, done);
      LevelStep(t, depth, done, item);
      if item.EndTag? {
        var e := EndFormOf(t, depth, done);
        forms, tail, end := [], t, Some(e);
        assert done + NodesOf(forms) == done;
      } else {
        var f := FormOf(t, depth, done);
        LeadsOn(depth, done, item.node);
        var more;
        more, tail, end := LevelFormsOf(item.rest, depth, done + [item.node]);
        Adjacent(f, more, tail);
        forms := [f] + more;
        assert forms[1..] == more;
        Assoc(done, [item.node], NodesOf(more));
      }
    }
  }

  lemma LevelOver(t: Text, depth: nat, done: seq<Node>)
    requires Head(t) == 0 || Identify(t).0 == KNone
    ensures ParseLevel(t, depth, done) == Ended(done) && Head(SkipWhiteSpace(t)) == 0
  {
  }

  lemma {:induction false} FormOf(t: Text, depth: nat, done: seq<Node>) returns (f: Form)
    requires 1 <= depth < MAX_ELEMENT_DEPTH && Identify(t).0 != KNone && FirstItem(t, depth, done).NodeItem?
    ensures IsFirst(f, t, depth, done)
    decreases |t|, 1
  {
    hide IsFirst, Identify, FirstItem;
    match Identify(t).0 {
      case KText => f := TextFormOf(t, depth, done);
      case KElement => f := ElementFormOf(t, depth, done);
      case _ => f := MarkedFormOf(t, depth, done);
    }
  }

  // ----- Documents -------------------------------------------------------------------

  /** What may follow the forms of a document: white space up to the end of the text, or an end
      tag with whatever comes after it. */
  ghost predicate Over(tail: Text) {
    Head(SkipWhiteSpace(tail)) == 0 || exists e, rest :: ValidEnd(e) && tail == EndThen(e, rest)
  }

  /** The text is a spelling of the nodes without an error. */
  ghost predicate Spells(u: Text, nodes: seq<Node>) {
    exists forms, tail :: FormsOf(u, nodes, forms, tail)
  }

  ghost predicate FormsOf(u: Text, nodes: seq<Node>, forms: seq<Form>, tail: Text) {
    && ValidForms(forms) && GoesOn(forms, tail) && Over(tail) && FormsError(forms, 1, true) == None
    && u == FormsThen(forms, tail) && nodes == NodesOf(forms)
  }

  /** The text after white space and a byte order mark. */
  function Body(t: Text): Text {
    SkipByteOrderMark(SkipWhiteSpace(t))
  }

  function Outcome(l: Level): Document {
    if l.LevelError? then ParseError(l.error) else Parsed(l.nodes)
  }

  lemma DocumentIs(t: Text)
    ensures ParseDocument(t) ==
      if Head(t) == 0 || Head(Body(t)) == 0 then ParseError(EmptyDocument) else Outcome(ParseLevel(Body(t), 1, []))
  {
    hide ParseLevel;
  }

  lemma OverEnds(tail: Text, nodes: seq<Node>)
    requires Over(tail)
    ensures Outcome(ParseLevel(tail, 1, nodes)) == Parsed(nodes)
  {
    hide ParseLevel, EndThen, SkipWhiteSpace, ValidEnd;
    if Head(SkipWhiteSpace(tail)) == 0 {
      TaggedKind(tail);
      LevelOver(tail, 1, nodes);
    } else {
      var e, rest :| ValidEnd(e) && tail == EndThen(e, rest);
      EndIs(e, rest, 1, nodes);
    }
  }

  lemma LeadAtFirst()
    ensures Leads(1, [])
  {
  }

  /** Reading the forms of a document gives their nodes, or the first error. */
  lemma FormsRead(t: Text, forms: seq<Form>, tail: Text)
    requires Head(t) != 0 && Head(Body(t)) != 0 && Body(t) == FormsThen(forms, tail)
    requires ValidForms(forms) && GoesOn(forms, tail) && Over(tail)
    ensures ParseDocument(t) ==
      match FormsError(forms, 1, true)
      case None => Parsed(NodesOf(forms))
      case Some(e) => ParseError(e)
  {
    hide ParseLevel, FormsThen, Body, Over, ValidForms, GoesOn, Leads;
    DocumentIs(t);
    LeadAtFirst();
    FormsAre(forms, [], 1, tail);
    assert [] + NodesOf(forms) == NodesOf(forms);
    OverEnds(tail, NodesOf(forms));
  }

  lemma Read(t: Text)
    requires ParseDocument(t).Parsed?
    ensures Head(t) != 0 && Head(Body(t)) != 0 && Spells(Body(t), ParseDocument(t).nodes)
  {
    hide ParseLevel, FormsThen, Body, ValidForms, GoesOn, Leads, EndThen, ValidEnd;
    DocumentIs(t);
    LeadAtFirst();
    var forms, tail, end := LevelFormsOf(Body(t), 1, []);
    assert [] + NodesOf(forms) == NodesOf(forms);
    assert FormsOf(Body(t), ParseDocument(t).nodes, forms, tail);
  }

  /** A text is read as a document exactly if it is a spelling of it. */
  lemma ReadExactly(t: Text, nodes: seq<Node>)
    ensures ParseDocument(t) == Parsed(nodes) <==> Head(t) != 0 && Head(Body(t)) != 0 && Spells(Body(t), nodes)
  {
    hide ParseDocument, Body;
    if Head(t) != 0 && Head(Body(t)) != 0 && Spells(Body(t), nodes) {
      var forms, tail :| FormsOf(Body(t), nodes, forms, tail);
      FormsRead(t, forms, tail);
    }
    if ParseDocument(t) == Parsed(nodes) { Read(t); }
  }

  /** A tag with a slash at both ends is read as an empty element. */
  lemma SlashAtBothEnds(name: Text)
    requires ValidName(name)
    ensures ParseDocument([LT, SLASH] + name + [SLASH, GT]) == Parsed([Element(name, [], [])])
  {
    hide ParseDocument, Decode;
    var t := [LT, SLASH] + name + [SLASH, GT];
    var f := EmptyForm([], [], true, name, [], []);
    assert Over([]) && t == FormThen(f, []) == FormsThen([f], []) && [f][1..] == [];
    assert Body(t) == t && ValidForm(f) && Distinct([]);
    FormsRead(t, [f], []);
  }
}
