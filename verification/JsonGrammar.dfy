/** Which texts cJSON takes for a value, and for which one. */
module JsonGrammar {
  // The grammar is written with what follows: DocThen(d, rest) is the text of `d` and then
  // `rest`.  It is wider than RFC 8259, which is a part of it.
  import opened Bytes
  import opened Unicode
  import opened Json
  import opened JsonRoundTrip
  import opened JsonMeaning

  // ----- Strings ---------------------------------------------------------------------

  predicate IsHigh(u: nat) {
    0xD800 <= u < 0xDC00
  }

  predicate IsLow(u: nat) {
    0xDC00 <= u < 0xE000
  }

  /** Any byte may be plain but the quote and the backslash, and any may be escaped. */
  predicate LooseChar(c: Char) {
    match c
    case Plain(b) => b != 0 && b != QUOTE && b != BACKSLASH
    case Short(b) => b != LETTER_U
    case Unit(d) => FourHex(d)
    case Pair(hi, lo) => FourHex(hi) && FourHex(lo) && IsHigh(UnitOf(hi))
  }

  predicate StartsUnit(t: Text) {
    Head(t) == BACKSLASH && Head(t[1..]) == LETTER_U
  }

  /** A high surrogate stands alone only if no code unit follows. */
  predicate Fits(c: Char, rest: Text) {
    LooseChar(c) && (c.Unit? && IsHigh(UnitOf(c.digits)) ==> !StartsUnit(rest))
  }

  /** The code zero and surrogates without their other half stand for nothing. */
  function LooseMeaning(c: Char): Text
    requires LooseChar(c)
  {
    match c
    case Plain(b) => [b]
    case Short(b) => [if IsShort(b) then ShortMeaning(b) else b]
    case Unit(d) => if UnitOf(d) == 0 || IsHigh(UnitOf(d)) || IsLow(UnitOf(d)) then [] else Utf8(UnitOf(d))
    case Pair(hi, lo) =>
      if IsLow(UnitOf(lo)) then Utf8(0x1_0000 + (UnitOf(hi) - 0xD800) * 0x400 + (UnitOf(lo) - 0xDC00)) else []
  }

  function BodyThen(s: seq<Char>, rest: Text): Text {
    if s == [] then rest else CharText(s[0]) + BodyThen(s[1..], rest)
  }

  predicate ValidBody(s: seq<Char>, rest: Text) {
    s != [] ==> Fits(s[0], BodyThen(s[1..], rest)) && ValidBody(s[1..], rest)
  }

  predicate LooseChars(s: seq<Char>) {
    forall i :: 0 <= i < |s| ==> LooseChar(s[i])
  }

  function LooseBody(s: seq<Char>): Text
    requires LooseChars(s)
  {
    if s == [] then [] else LooseMeaning(s[0]) + LooseBody(s[1..])
  }

  /** What RFC 8259 allows means the same here. */
  lemma {:induction false} RfcBody(s: seq<Char>, rest: Text)
    requires ValidChars(s)
    ensures ValidBody(s, rest) && LooseChars(s) && LooseBody(s) == BodyMeaning(s)
    decreases |s|
  {
    hide CharText;
    if s != [] { RfcBody(s[1..], rest); }
  }

  lemma LoosePairIs(hi: Text, lo: Text, rest: Text)
    requires LooseChar(Pair(hi, lo))
    ensures NextChar(CharText(Pair(hi, lo)) + rest) == Ok(LooseMeaning(Pair(hi, lo)), rest)
  {
    hide Utf8, Hex4, UnitOf, FourHex;
    var u := [BACKSLASH, LETTER_U] + (lo + rest);
    var t := CharText(Pair(hi, lo)) + rest;
    assert t[2..] == hi + u;
    HexIs(hi, u);
    assert u[1..][0] == LETTER_U;
    assert u[2..] == lo + rest;
    HexIs(lo, rest);
    assert u[6..] == u[2..][4..];
    assert SecondHalf(UnitOf(hi), u) == Ok(LooseMeaning(Pair(hi, lo)), rest);
  }

  lemma LooseCharIs(c: Char, rest: Text)
    requires Fits(c, rest)
    ensures var t := CharText(c) + rest; !EndsString(t) && NextChar(t) == Ok(LooseMeaning(c), rest)
  {
    hide Utf8, Hex4, UnitOf;
    var t := CharText(c) + rest;
    match c {
      case Plain(b) => Drop(b, rest);
      case Short(b) => assert t[2..] == rest;
      case Unit(d) => assert t[2..] == d + rest; HexIs(d, rest);
      case Pair(hi, lo) => LoosePairIs(hi, lo, rest);
    }
  }

  lemma {:induction false} LooseBodyIs(s: seq<Char>, rest: Text)
    requires ValidBody(s, rest) && EndsString(rest)
    ensures LooseChars(s) && Unescape(BodyThen(s, rest)) == Ok(LooseBody(s), rest)
    decreases |s|
  {
    hide NextChar, CharText, LooseMeaning, LooseChar, StartsUnit;
    if s != [] {
      LooseCharIs(s[0], BodyThen(s[1..], rest));
      LooseBodyIs(s[1..], rest);
    }
  }

  lemma HexOfDigits(t: Text)
    requires 0 <= Hex4(t)
    ensures 4 <= |t| && FourHex(t[..4]) && UnitOf(t[..4]) == Hex4(t) && t == t[..4] + t[4..]
  {
    assert t[..4] + t[4..] == t;
    SameDigit(t[0]);
    SameDigit(t[1]);
    SameDigit(t[2]);
    SameDigit(t[3]);
    hide HexOf, HexValue;
  }

  lemma SameDigit(b: byte)
    ensures HexOf(b) == HexValue(b)
  {
  }

  /** The character that was read. */
  lemma CharOf(t: Text) returns (c: Char)
    requires !EndsString(t) && NextChar(t).Ok?
    ensures var r := NextChar(t); Fits(c, r.rest) && t == CharText(c) + r.rest && LooseMeaning(c) == r.value
  {
    hide Utf8, Hex4, UnitOf, FourHex;
    if t[0] != BACKSLASH {
      c := Plain(t[0]);
      assert t == [t[0]] + t[1..];
    } else if t[1] != LETTER_U {
      c := Short(t[1]);
      assert t == [t[0], t[1]] + t[2..];
    } else {
      var u := t[2..];
      assert t == [BACKSLASH, LETTER_U] + u;
      HexOfDigits(u);
      var v := u[4..];
      if IsHigh(Hex4(u)) && StartsUnit(v) {
        c := PairOf(t);
      } else {
        c := Unit(u[..4]);
        assert t == CharText(c) + v;
      }
    }
  }

  lemma PairOf(t: Text) returns (c: Char)
    requires 6 <= |t| && t[0] == BACKSLASH && t[1] == LETTER_U && 0 <= Hex4(t[2..]) && IsHigh(Hex4(t[2..]))
    requires StartsUnit(t[2..][4..]) && NextChar(t).Ok?
    ensures var r := NextChar(t); Fits(c, r.rest) && t == CharText(c) + r.rest && LooseMeaning(c) == r.value
  {
    hide Utf8, Hex4, UnitOf, FourHex;
    var u := t[2..];
    HexOfDigits(u);
    var v := u[4..];
    HexOfDigits(v[2..]);
    c := Pair(u[..4], v[2..][..4]);
    assert v == [BACKSLASH, LETTER_U] + v[2..];
    assert v[2..] == v[2..][..4] + v[6..];
    assert t == CharText(c) + v[6..];
  }

  lemma {:induction false} BodyOf(t: Text) returns (s: seq<Char>)
    requires Unescape(t).Ok?
    ensures var r := Unescape(t);
      ValidBody(s, r.rest) && LooseChars(s) && t == BodyThen(s, r.rest) && LooseBody(s) == r.value && EndsString(r.rest)
    decreases |t|
  {
    hide NextChar, CharText, LooseMeaning, LooseChar, Fits;
    if EndsString(t) {
      s := [];
    } else {
      var c := CharOf(t);
      assert LooseChar(c) by { Fitting(c, NextChar(t).rest); }
      var more := BodyOf(NextChar(t).rest);
      s := [c] + more;
      assert s[1..] == more;
    }
  }

  lemma Fitting(c: Char, rest: Text)
    requires Fits(c, rest)
    ensures LooseChar(c)
  {
  }

  // ----- Numbers ---------------------------------------------------------------------

  predicate AllDecimal(d: Text) {
    forall i :: 0 <= i < |d| ==> 48 <= d[i] <= 57
  }

  function Opt(present: bool, b: byte): Text {
    if present then [b] else []
  }

  function NumberThen(negative: bool, zero: bool, d: Text, rest: Text): Text {
    Opt(negative, MINUS) + (Opt(zero, ZERO) + (d + rest))
  }

  /** A sign, a zero and further digits, of which not all have to be there; what follows does not
      go on with the number. */
  predicate ValidNumber(negative: bool, zero: bool, d: Text, rest: Text) {
    && (negative || zero || d != []) && AllDecimal(d) && (d != [] ==> d[0] != ZERO)
    && (d != [] || !zero ==> !IsDigit(Head(rest))) && (IsDigit(Head(rest)) ==> Head(rest) == ZERO)
    && !(Head(rest) == 46 && IsDigit(Head(rest[1..]))) && Head(rest) != 101 && Head(rest) != 69
    && INT_MIN <= Signed(negative, d) <= INT_MAX
  }

  function Signed(negative: bool, d: Text): int
    requires AllDecimal(d)
  {
    if negative then -(DigitsValue(d) as int) else DigitsValue(d) as int
  }

  /** The text after the sign and after a zero, and the value and the rest of a number. */
  function AfterSign(t: Text): Text {
    if Head(t) == MINUS then t[1..] else t
  }

  function AfterZero(u: Text): Text {
    if Head(u) == ZERO then u[1..] else u
  }

  function DigitsHere(v: Text): (nat, Text) {
    if IsDigit(Head(v)) && Head(v) != ZERO then ParseDigits(v, 0) else (0, v)
  }

  lemma DigitsHereAre(d: Text, rest: Text)
    requires AllDecimal(d) && (d != [] ==> d[0] != ZERO) && (IsDigit(Head(rest)) ==> d == [] && Head(rest) == ZERO)
    ensures DigitsHere(d + rest) == (DigitsValue(d), rest)
  {
    hide DigitsValue, ParseDigits;
    NothingYet();
    if d == [] {
      assert d + rest == rest;
    } else {
      DigitsAre(d, 0, rest);
      assert d[0..] == d && d[..0] == [];
    }
  }

  lemma LooseNumberIs(negative: bool, zero: bool, d: Text, rest: Text)
    requires ValidNumber(negative, zero, d, rest)
    ensures var t := NumberThen(negative, zero, d, rest);
      (Head(t) == MINUS || IsDigit(Head(t))) && ParseNumber(t) == Ok(Number(Signed(negative, d)), rest)
  {
    hide DigitsValue, ParseDigits, DigitsHere;
    var t := NumberThen(negative, zero, d, rest);
    var v := d + rest;
    var u := Opt(zero, ZERO) + v;
    assert Head(v) == if d == [] then Head(rest) else d[0];
    if zero { Drop(ZERO, v); } else { assert u == v; }
    if negative { Drop(MINUS, u); } else { assert t == u; }
    assert AfterSign(t) == u && AfterZero(u) == v;
    DigitsHereAre(d, rest);
    NumberBy(t);
  }

  lemma NumberBy(t: Text)
    requires Head(t) == MINUS || IsDigit(Head(t))
    ensures var (n, w) := DigitsHere(AfterZero(AfterSign(t)));
      var value: int := if Head(t) == MINUS then -(n as int) else n as int;
      ParseNumber(t) ==
      if (Head(w) == 46 && IsDigit(Head(w[1..]))) || Head(w) == 101 || Head(w) == 69
         || !(INT_MIN <= value <= INT_MAX) then Unmodelled
      else Ok(Number(value), w)
  {
    hide ParseDigits;
  }

  lemma OneMoreDigit(d: Text, b: byte)
    requires AllDecimal(d) && IsDigit(b)
    ensures AllDecimal(d + [b]) && DigitsValue(d + [b]) == 10 * DigitsValue(d) + (b - 48) as nat
  {
    assert (d + [b])[..|d|] == d;
  }

  /** The digits that were read, after those in `done`. */
  lemma {:induction false} DigitsOf(t: Text, done: Text) returns (d: Text)
    requires AllDecimal(done)
    ensures AllDecimal(d) && AllDecimal(done + d)
    ensures var r := ParseDigits(t, DigitsValue(done));
      t == d + r.1 && r.0 == DigitsValue(done + d) && !IsDigit(Head(r.1))
    decreases |t|
  {
    hide DigitsValue;
    if IsDigit(Head(t)) {
      OneMoreDigit(done, t[0]);
      var more := DigitsOf(t[1..], done + [t[0]]);
      d := [t[0]] + more;
      Assoc(done, [t[0]], more);
      assert t == [t[0]] + t[1..];
    } else {
      d := [];
      assert done + d == done && t == d + t;
    }
  }

  lemma DigitsOfHere(v: Text) returns (d: Text)
    ensures AllDecimal(d) && (d != [] ==> d[0] != ZERO)
    ensures var (n, w) := DigitsHere(v);
      && v == d + w && n == DigitsValue(d) && (d != [] ==> !IsDigit(Head(w)))
      && (IsDigit(Head(w)) ==> Head(w) == ZERO) && (d == [] ==> w == v)
  {
    hide DigitsValue, ParseDigits;
    NothingYet();
    if IsDigit(Head(v)) && Head(v) != ZERO {
      d := DigitsOf(v, []);
      assert [] + d == d;
    } else {
      d := [];
      assert v == d + v;
    }
  }

  lemma NumberOfText(t: Text) returns (negative: bool, zero: bool, d: Text)
    requires (Head(t) == MINUS || IsDigit(Head(t))) && ParseNumber(t).Ok?
    ensures var r := ParseNumber(t);
      ValidNumber(negative, zero, d, r.rest) && t == NumberThen(negative, zero, d, r.rest)
      && r.value == Number(Signed(negative, d))
  {
    hide DigitsValue, ParseDigits, DigitsHere, ParseNumber;
    NumberBy(t);
    var u := AfterSign(t);
    var v := AfterZero(u);
    negative := Head(t) == MINUS;
    zero := Head(u) == ZERO;
    assert t == Opt(negative, MINUS) + u && u == Opt(zero, ZERO) + v;
    d := DigitsOfHere(v);
  }

  // ----- Values ----------------------------------------------------------------------

  /** A value as it is written: the gaps between the tokens, the digits of numbers and the spelling
      of strings.  A string that is not closed ends with the text. */
  datatype Doc =
    | NullDoc | FalseDoc | TrueDoc
    | NumberDoc(negative: bool, zero: bool, digits: Text)
    | StringDoc(body: seq<Char>, closed: bool)
    | ArrayDoc(blank: Text, items: seq<Item>)
    | ObjectDoc(gap: Text, entries: seq<Entry>)

  datatype Item = Item(before: Text, value: Doc, after: Text)

  datatype Entry = Entry(before: Text, name: seq<Char>, left: Text, right: Text, value: Doc, after: Text)

  function StringThen(s: seq<Char>, closed: bool, rest: Text): Text {
    [QUOTE] + BodyThen(s, if closed then [QUOTE] + rest else rest)
  }

  function DocThen(d: Doc, rest: Text): Text
    decreases d
  {
    match d
    case NullDoc => NULL_TEXT + rest
    case FalseDoc => FALSE_TEXT + rest
    case TrueDoc => TRUE_TEXT + rest
    case NumberDoc(negative, zero, digits) => NumberThen(negative, zero, digits, rest)
    case StringDoc(body, closed) => StringThen(body, closed, rest)
    case ArrayDoc(blank, items) =>
      [OPEN_ARRAY] + if items == [] then blank + ([CLOSE_ARRAY] + rest) else ItemsThen(items, rest)
    case ObjectDoc(gap, entries) =>
      [OPEN_OBJECT] + if entries == [] then gap + ([CLOSE_OBJECT] + rest) else EntriesThen(entries, rest)
  }

  function ItemsThen(items: seq<Item>, rest: Text): Text
    requires items != []
    decreases items, 1
  {
    items[0].before + DocThen(items[0].value, AfterItem(items, rest))
  }

  /** What follows the value of the first item. */
  function AfterItem(items: seq<Item>, rest: Text): Text
    requires items != []
    decreases items, 0
  {
    items[0].after + if |items| == 1 then [CLOSE_ARRAY] + rest else [COMMA] + ItemsThen(items[1..], rest)
  }

  function EntriesThen(entries: seq<Entry>, rest: Text): Text
    requires entries != []
    decreases entries, 1
  {
    var e := entries[0];
    e.before + StringThen(e.name, true, e.left + ([COLON] + (e.right + DocThen(e.value, AfterEntry(entries, rest)))))
  }

  function AfterEntry(entries: seq<Entry>, rest: Text): Text
    requires entries != []
    decreases entries, 0
  {
    entries[0].after + if |entries| == 1 then [CLOSE_OBJECT] + rest else [COMMA] + EntriesThen(entries[1..], rest)
  }

  /** Any control character counts as a blank. */
  predicate IsGap(t: Text) {
    forall i :: 0 <= i < |t| ==> 0 < t[i] <= 32
  }

  /** May the text of `d`, followed by `rest`, be read as `d`? */
  predicate ValidDoc(d: Doc, rest: Text)
    decreases d
  {
    match d
    case NumberDoc(negative, zero, digits) => ValidNumber(negative, zero, digits, rest)
    case StringDoc(body, closed) =>
      LooseChars(body) && (if closed then ValidBody(body, [QUOTE] + rest) else ValidBody(body, rest) && Head(rest) == 0)
    case ArrayDoc(blank, items) => IsGap(blank) && ValidItems(items, rest)
    case ObjectDoc(gap, entries) => IsGap(gap) && ValidEntries(entries, rest)
    case _ => true
  }

  predicate ValidItems(items: seq<Item>, rest: Text)
    decreases items
  {
    items != [] ==>
      && IsGap(items[0].before) && ValidDoc(items[0].value, AfterItem(items, rest)) && IsGap(items[0].after)
      && ValidItems(items[1..], rest)
  }

  predicate ValidEntries(entries: seq<Entry>, rest: Text)
    decreases entries
  {
    entries != [] ==>
      var e := entries[0];
      && IsGap(e.before) && IsGap(e.left) && IsGap(e.right) && IsGap(e.after)
      && ValidName(e, AfterEntry(entries, rest)) && ValidDoc(e.value, AfterEntry(entries, rest))
      && ValidEntries(entries[1..], rest)
  }

  predicate ValidName(e: Entry, tail: Text) {
    LooseChars(e.name) && ValidBody(e.name, [QUOTE] + (e.left + ([COLON] + (e.right + DocThen(e.value, tail)))))
  }

  function ValueOf(d: Doc, rest: Text): Json
    requires ValidDoc(d, rest)
    decreases d
  {
    match d
    case NullDoc => Null
    case FalseDoc => False
    case TrueDoc => True
    case NumberDoc(negative, _, digits) => Number(Signed(negative, digits))
    case StringDoc(body, _) => String(LooseBody(body))
    case ArrayDoc(_, items) => Array(ItemValues(items, rest))
    case ObjectDoc(_, entries) => Object(EntryValues(entries, rest))
  }

  function ItemValues(items: seq<Item>, rest: Text): seq<Json>
    requires ValidItems(items, rest)
    decreases items
  {
    if items == [] then []
    else [ValueOf(items[0].value, AfterItem(items, rest))] + ItemValues(items[1..], rest)
  }

  function EntryValues(entries: seq<Entry>, rest: Text): seq<Member>
    requires ValidEntries(entries, rest)
    decreases entries
  {
    if entries == [] then [] else [MemberOf(entries, rest)] + EntryValues(entries[1..], rest)
  }

  function MemberOf(entries: seq<Entry>, rest: Text): Member
    requires entries != [] && ValidEntries(entries, rest)
    decreases entries, 0
  {
    Member(LooseBody(entries[0].name), ValueOf(entries[0].value, AfterEntry(entries, rest)))
  }

  // ----- Every text of the grammar is read as what it means -------------------------------

  lemma {:induction false} GapSkipped(gap: Text, t: Text)
    requires IsGap(gap)
    ensures Skip(gap + t) == Skip(t)
    decreases |gap|
  {
    if gap == [] {
      assert gap + t == t;
    } else {
      assert gap + t == [gap[0]] + (gap[1..] + t);
      SkipOne(gap[0], gap[1..] + t);
      GapSkipped(gap[1..], t);
    }
  }

  lemma SkippedTo(gap: Text, t: Text)
    requires IsGap(gap) && 32 < Head(t)
    ensures Skip(gap + t) == t
  {
    GapSkipped(gap, t);
    SkipSolid(t);
  }

  lemma StringThenIs(s: seq<Char>, closed: bool, rest: Text)
    requires LooseChars(s)
    requires if closed then ValidBody(s, [QUOTE] + rest) else ValidBody(s, rest) && Head(rest) == 0
    ensures var t := StringThen(s, closed, rest); Head(t) == QUOTE && ParseString(t) == Ok(LooseBody(s), rest)
  {
    hide Unescape;
    var tail := if closed then [QUOTE] + rest else rest;
    Drop(QUOTE, BodyThen(s, tail));
    LooseBodyIs(s, tail);
    if closed { Drop(QUOTE, rest); }
  }

  lemma StartsSolid(d: Doc, rest: Text)
    requires ValidDoc(d, rest)
    ensures var t := DocThen(d, rest); 32 < Head(t) && Head(t) != CLOSE_ARRAY && Head(t) != CLOSE_OBJECT
  {
    hide BodyThen;
    match d {
      case NumberDoc(negative, zero, digits) =>
        hide ParseNumber;
        LooseNumberIs(negative, zero, digits, rest);
      case _ =>
    }
  }

  lemma ItemTurn(t: Text, j: Json, u: Text, done: seq<Json>)
    requires ParseValue(t) == Ok(j, u)
    ensures Head(Skip(u)) == CLOSE_ARRAY ==> ParseItems(t, done) == Ok(done + [j], Skip(u)[1..])
    ensures Head(Skip(u)) == COMMA ==> ParseItems(t, done) == ParseItems(Skip(Skip(u)[1..]), done + [j])
    ensures Head(Skip(u)) != CLOSE_ARRAY && Head(Skip(u)) != COMMA ==> ParseItems(t, done) == Failed
  {
    hide ParseValue;
  }

  lemma AfterItemSkipped(items: seq<Item>, rest: Text)
    requires items != [] && ValidItems(items, rest)
    ensures var v := Skip(AfterItem(items, rest));
      && v != [] && v[0] == (if |items| == 1 then CLOSE_ARRAY else COMMA)
      && v[1..] == if |items| == 1 then rest else ItemsThen(items[1..], rest)
  {
    hide ItemsThen, ValidDoc, Skip;
    SkippedTo(items[0].after, if |items| == 1 then [CLOSE_ARRAY] + rest else [COMMA] + ItemsThen(items[1..], rest));
  }

  lemma {:induction false} ItemsAre(items: seq<Item>, done: seq<Json>, rest: Text)
    requires items != [] && ValidItems(items, rest)
    ensures ParseItems(Skip(ItemsThen(items, rest)), done) == Ok(done + ItemValues(items, rest), rest)
    decreases items, 0
  {
    hide ParseValue, ParseItems, DocThen, AfterItem, Skip, ValueOf, ValidDoc, IsGap;
    var d, u := items[0].value, AfterItem(items, rest);
    StartsSolid(d, u);
    SkippedTo(items[0].before, DocThen(d, u));
    DocIs(d, u);
    var j := ValueOf(d, u);
    ItemTurn(DocThen(d, u), j, u, done);
    AfterItemSkipped(items, rest);
    if |items| == 1 {
      assert items[1..] == [] && ItemValues(items[1..], rest) == [];
      assert ItemValues(items, rest) == [j];
    } else {
      ItemsAre(items[1..], done + [j], rest);
      Assoc(done, [j], ItemValues(items[1..], rest));
    }
  }

  lemma {:induction false} ArrayIs(d: Doc, rest: Text)
    requires d.ArrayDoc? && ValidDoc(d, rest)
    ensures var t := DocThen(d, rest); Head(t) == OPEN_ARRAY && ParseArray(t) == Ok(ValueOf(d, rest), rest)
    decreases d, 1
  {
    hide ParseItems, ItemsThen, Skip, IsGap;
    Drop(CLOSE_ARRAY, rest);
    if d.items == [] {
      Drop(OPEN_ARRAY, d.blank + ([CLOSE_ARRAY] + rest));
      SkippedTo(d.blank, [CLOSE_ARRAY] + rest);
    } else {
      Drop(OPEN_ARRAY, ItemsThen(d.items, rest));
      ItemsBegin(d.items, rest);
      ItemsAre(d.items, [], rest);
      assert [] + ItemValues(d.items, rest) == ItemValues(d.items, rest);
    }
  }

  lemma ItemsBegin(items: seq<Item>, rest: Text)
    requires items != [] && ValidItems(items, rest)
    ensures Head(Skip(ItemsThen(items, rest))) != CLOSE_ARRAY
  {
    hide DocThen, AfterItem, Skip, IsGap, ValidDoc;
    StartsSolid(items[0].value, AfterItem(items, rest));
    SkippedTo(items[0].before, DocThen(items[0].value, AfterItem(items, rest)));
  }

  /** From the name of the first entry on. */
  function EntryText(entries: seq<Entry>, rest: Text): Text
    requires entries != []
  {
    var e := entries[0];
    StringThen(e.name, true, e.left + ([COLON] + (e.right + DocThen(e.value, AfterEntry(entries, rest)))))
  }

  lemma EntriesBegin(entries: seq<Entry>, rest: Text)
    requires entries != [] && ValidEntries(entries, rest)
    ensures var t := EntryText(entries, rest); Head(t) == QUOTE && Skip(EntriesThen(entries, rest)) == t
  {
    hide BodyThen, DocThen, AfterEntry, Skip, IsGap, ValidDoc, ValidName;
    SkippedTo(entries[0].before, EntryText(entries, rest));
  }

  lemma {:induction false} EntryIs(entries: seq<Entry>, rest: Text)
    requires entries != [] && ValidEntries(entries, rest)
    ensures ParseMember(EntryText(entries, rest)) == Ok(MemberOf(entries, rest), AfterEntry(entries, rest))
    decreases entries, 0
  {
    hide ParseValue, ParseString, DocThen, AfterEntry, StringThen, Skip, ValueOf, ValidDoc, IsGap, LooseBody,
      LooseChars, ValidBody;
    var e, u := entries[0], AfterEntry(entries, rest);
    var x := e.right + DocThen(e.value, u);
    StringThenIs(e.name, true, e.left + ([COLON] + x));
    SkippedTo(e.left, [COLON] + x);
    Drop(COLON, x);
    StartsSolid(e.value, u);
    SkippedTo(e.right, DocThen(e.value, u));
    DocIs(e.value, u);
  }

  lemma EntryTurn(t: Text, m: Member, u: Text, done: seq<Member>)
    requires ParseMember(t) == Ok(m, u)
    ensures Head(Skip(u)) == CLOSE_OBJECT ==> ParseMembers(t, done) == Ok(done + [m], Skip(u)[1..])
    ensures Head(Skip(u)) == COMMA ==> ParseMembers(t, done) == ParseMembers(Skip(Skip(u)[1..]), done + [m])
    ensures Head(Skip(u)) != CLOSE_OBJECT && Head(Skip(u)) != COMMA ==> ParseMembers(t, done) == Failed
  {
    hide ParseMember;
  }

  lemma AfterEntrySkipped(entries: seq<Entry>, rest: Text)
    requires entries != [] && ValidEntries(entries, rest)
    ensures var v := Skip(AfterEntry(entries, rest));
      && v != [] && v[0] == (if |entries| == 1 then CLOSE_OBJECT else COMMA)
      && v[1..] == if |entries| == 1 then rest else EntriesThen(entries[1..], rest)
  {
    hide EntriesThen, ValidDoc, ValidName, Skip;
    SkippedTo(entries[0].after,
              if |entries| == 1 then [CLOSE_OBJECT] + rest else [COMMA] + EntriesThen(entries[1..], rest));
  }

  lemma {:induction false} EntriesAre(entries: seq<Entry>, done: seq<Member>, rest: Text)
    requires entries != [] && ValidEntries(entries, rest)
    ensures ParseMembers(Skip(EntriesThen(entries, rest)), done) == Ok(done + EntryValues(entries, rest), rest)
    decreases entries, 1
  {
    hide ParseMember, ParseMembers, EntryText, EntriesThen, AfterEntry, Skip, MemberOf, ValidDoc, IsGap, ValidName;
    EntriesBegin(entries, rest);
    EntryIs(entries, rest);
    var m := MemberOf(entries, rest);
    EntryTurn(EntryText(entries, rest), m, AfterEntry(entries, rest), done);
    AfterEntrySkipped(entries, rest);
    if |entries| == 1 {
      assert entries[1..] == [] && EntryValues(entries[1..], rest) == [];
      assert EntryValues(entries, rest) == [m];
    } else {
      EntriesAre(entries[1..], done + [m], rest);
      Assoc(done, [m], EntryValues(entries[1..], rest));
    }
  }

  lemma {:induction false} ObjectIs(d: Doc, rest: Text)
    requires d.ObjectDoc? && ValidDoc(d, rest)
    ensures var t := DocThen(d, rest); Head(t) == OPEN_OBJECT && ParseObject(t) == Ok(ValueOf(d, rest), rest)
    decreases d, 1
  {
    hide ParseMembers, EntriesThen, EntryText, Skip, IsGap;
    Drop(CLOSE_OBJECT, rest);
    if d.entries == [] {
      Drop(OPEN_OBJECT, d.gap + ([CLOSE_OBJECT] + rest));
      SkippedTo(d.gap, [CLOSE_OBJECT] + rest);
    } else {
      Drop(OPEN_OBJECT, EntriesThen(d.entries, rest));
      EntriesBegin(d.entries, rest);
      EntriesAre(d.entries, [], rest);
      assert [] + EntryValues(d.entries, rest) == EntryValues(d.entries, rest);
    }
  }

  /** Every value of the grammar is read as what it means, and the text after it is left. */
  lemma {:induction false} DocIs(d: Doc, rest: Text)
    requires ValidDoc(d, rest)
    ensures ParseValue(DocThen(d, rest)) == Ok(ValueOf(d, rest), rest)
    decreases d, 2
  {
    hide ParseNumber, ParseString, ParseArray, ParseObject, StringThen, NumberThen, LooseBody, ItemsThen, EntriesThen;
    match d {
      case NullDoc => WordBack(rest);
      case FalseDoc => WordBack(rest);
      case TrueDoc => WordBack(rest);
      case NumberDoc(negative, zero, digits) => LooseNumberIs(negative, zero, digits, rest);
      case StringDoc(body, closed) => StringThenIs(body, closed, rest);
      case ArrayDoc(_, _) => ArrayIs(d, rest);
      case ObjectDoc(_, _) => ObjectIs(d, rest);
    }
  }

  // ----- Whatever is read is a text of the grammar ------------------------------------------

  lemma {:induction false} GapOf(t: Text) returns (gap: Text)
    ensures IsGap(gap) && t == gap + Skip(t)
    decreases |t|
  {
    if 0 < Head(t) <= 32 {
      var more := GapOf(t[1..]);
      gap := [t[0]] + more;
      Assoc([t[0]], more, Skip(t));
      assert t == [t[0]] + t[1..];
    } else {
      gap := [];
    }
  }

  lemma StringOf(t: Text) returns (s: seq<Char>, closed: bool)
    requires ParseString(t).Ok?
    ensures var r := ParseString(t);
      && LooseChars(s) && t == StringThen(s, closed, r.rest) && r.value == LooseBody(s)
      && (if closed then ValidBody(s, [QUOTE] + r.rest) else ValidBody(s, r.rest) && Head(r.rest) == 0)
  {
    hide Unescape, BodyThen, ValidBody, LooseBody, LooseChars;
    s := BodyOf(t[1..]);
    var u := Unescape(t[1..]).rest;
    closed := Head(u) == QUOTE;
    assert t == [QUOTE] + t[1..];
    if closed { assert u == [QUOTE] + u[1..]; }
  }

  /** The form `d` is what the value at the beginning of the text was read from. */
  ghost predicate IsRead(d: Doc, t: Text) {
    var r := ParseValue(t);
    r.Ok? && ValidDoc(d, r.rest) && t == DocThen(d, r.rest) && r.value == ValueOf(d, r.rest)
  }

  lemma WordOf(t: Text) returns (d: Doc)
    requires NULL_TEXT <= t || FALSE_TEXT <= t || TRUE_TEXT <= t
    ensures IsRead(d, t)
  {
    hide ParseNumber, ParseString, ParseArray, ParseObject;
    if NULL_TEXT <= t {
      d := NullDoc;
      assert t == NULL_TEXT + t[4..];
    } else if FALSE_TEXT <= t {
      d := FalseDoc;
      assert t == FALSE_TEXT + t[5..];
    } else {
      d := TrueDoc;
      assert t == TRUE_TEXT + t[4..];
    }
  }

  /** What the first byte of a value decides. */
  lemma Dispatch(t: Text)
    requires ParseValue(t).Ok? && !(NULL_TEXT <= t) && !(FALSE_TEXT <= t) && !(TRUE_TEXT <= t)
    ensures var r := ParseValue(t);
      if Head(t) == QUOTE then ParseString(t).Ok? && r == Ok(String(ParseString(t).value), ParseString(t).rest)
      else if Head(t) == MINUS || IsDigit(Head(t)) then r == ParseNumber(t)
      else if Head(t) == OPEN_ARRAY then r == ParseArray(t)
      else Head(t) == OPEN_OBJECT && r == ParseObject(t)
  {
    hide ParseNumber, ParseString, ParseArray, ParseObject;
  }

  lemma {:induction false} DocOf(t: Text) returns (d: Doc)
    requires ParseValue(t).Ok?
    ensures IsRead(d, t)
    decreases |t|, 2
  {
    hide ParseValue, ParseNumber, ParseString, ParseArray, ParseObject, StringThen, NumberThen, LooseBody;
    if NULL_TEXT <= t || FALSE_TEXT <= t || TRUE_TEXT <= t {
      d := WordOf(t);
    } else {
      Dispatch(t);
      if Head(t) == QUOTE {
        var body, closed := StringOf(t);
        d := StringDoc(body, closed);
      } else if Head(t) == MINUS || IsDigit(Head(t)) {
        var negative, zero, digits := NumberOfText(t);
        d := NumberDoc(negative, zero, digits);
      } else if Head(t) == OPEN_ARRAY {
        d := ArrayOf(t);
      } else {
        d := ObjectOf(t);
      }
    }
  }

  lemma {:induction false} ArrayOf(t: Text) returns (d: Doc)
    requires Head(t) == OPEN_ARRAY && ParseArray(t).Ok?
    ensures var r := ParseArray(t);
      ValidDoc(d, r.rest) && t == DocThen(d, r.rest) && r.value == ValueOf(d, r.rest)
    decreases |t|, 1
  {
    hide ParseItems, ItemsThen, Skip, IsGap;
    var u := Skip(t[1..]);
    assert t == [OPEN_ARRAY] + t[1..];
    if Head(u) == CLOSE_ARRAY {
      var blank := GapOf(t[1..]);
      assert u == [CLOSE_ARRAY] + u[1..];
      d := ArrayDoc(blank, []);
    } else {
      var items := ItemsOf(t[1..], []);
      assert IsGap([]) by { NoGap(); }
      d := ArrayDoc([], items);
      var rest := ParseItems(u, []).rest;
      assert [] + ItemValues(items, rest) == ItemValues(items, rest);
    }
  }

  lemma NoGap()
    ensures IsGap([])
  {
  }

  /** The items that were read, after those in `done`. */
  lemma {:induction false} ItemsOf(t: Text, done: seq<Json>) returns (items: seq<Item>)
    requires ParseItems(Skip(t), done).Ok?
    ensures var r := ParseItems(Skip(t), done);
      && items != [] && ValidItems(items, r.rest) && t == ItemsThen(items, r.rest)
      && r.value == done + ItemValues(items, r.rest)
    decreases |t|, 3
  {
    hide ParseValue, ParseItems, DocThen, Skip, ValueOf, ValidDoc, IsGap;
    var before := GapOf(t);
    ItemRead(Skip(t), done);
    var p := ParseValue(Skip(t));
    var d := DocOf(Skip(t));
    var after := GapOf(p.rest);
    var v := Skip(p.rest);
    ItemTurn(Skip(t), p.value, p.rest, done);
    var rest := ParseItems(Skip(t), done).rest;
    assert v == [v[0]] + v[1..];
    if v[0] == CLOSE_ARRAY {
      items := [Item(before, d, after)];
      assert ItemValues(items[1..], rest) == [] && items[1..] == [];
      assert ItemValues(items, rest) == [p.value];
    } else {
      var more := ItemsOf(v[1..], done + [p.value]);
      items := [Item(before, d, after)] + more;
      assert items[1..] == more;
      Assoc(done, [p.value], ItemValues(more, rest));
    }
  }

  lemma ItemRead(t: Text, done: seq<Json>)
    requires ParseItems(t, done).Ok?
    ensures var p := ParseValue(t);
      && p.Ok? && |p.rest| < |t| && Skip(p.rest) != [] && |Skip(p.rest)| <= |p.rest|
      && (Skip(p.rest)[0] == COMMA || Skip(p.rest)[0] == CLOSE_ARRAY)
  {
    hide ParseValue, Skip;
  }

  lemma {:induction false} ObjectOf(t: Text) returns (d: Doc)
    requires Head(t) == OPEN_OBJECT && ParseObject(t).Ok?
    ensures var r := ParseObject(t);
      ValidDoc(d, r.rest) && t == DocThen(d, r.rest) && r.value == ValueOf(d, r.rest)
    decreases |t|, 1
  {
    hide ParseMembers, EntriesThen, Skip, IsGap;
    var u := Skip(t[1..]);
    assert t == [OPEN_OBJECT] + t[1..];
    if Head(u) == CLOSE_OBJECT {
      var gap := GapOf(t[1..]);
      assert u == [CLOSE_OBJECT] + u[1..];
      d := ObjectDoc(gap, []);
    } else {
      var entries := EntriesOf(t[1..], []);
      assert IsGap([]) by { NoGap(); }
      d := ObjectDoc([], entries);
      var rest := ParseMembers(u, []).rest;
      assert [] + EntryValues(entries, rest) == EntryValues(entries, rest);
    }
  }

  lemma MemberRead(t: Text)
    requires ParseMember(t).Ok?
    ensures var n := ParseString(t);
      && n.Ok? && |n.rest| < |t| && Skip(n.rest) != [] && Skip(n.rest)[0] == COLON && |Skip(n.rest)| <= |n.rest|
      && |Skip(Skip(n.rest)[1..])| <= |Skip(n.rest)[1..]|
      && var p := ParseValue(Skip(Skip(n.rest)[1..]));
      p.Ok? && ParseMember(t) == Ok(Member(n.value, p.value), p.rest)
  {
    hide ParseValue, ParseString, Skip;
  }

  /** The entry that was read, without the blanks after its value. */
  lemma {:induction false} EntryOf(t: Text) returns (e: Entry)
    requires ParseMember(Skip(t)).Ok?
    ensures var r := ParseMember(Skip(t));
      && IsGap(e.before) && IsGap(e.left) && IsGap(e.right)
      && ValidName(e, r.rest) && ValidDoc(e.value, r.rest)
      && r.value == Member(LooseBody(e.name), ValueOf(e.value, r.rest))
      && t == e.before + StringThen(e.name, true, e.left + ([COLON] + (e.right + DocThen(e.value, r.rest))))
    decreases |t|, 3
  {
    hide ParseValue, ParseString, ParseMember, DocThen, StringThen, Skip, ValueOf, ValidDoc, IsGap, LooseBody,
      LooseChars, ValidBody;
    var before := GapOf(t);
    MemberRead(Skip(t));
    var n := ParseString(Skip(t));
    var name, closed := StringOf(Skip(t));
    if !closed { NoColon(n.rest); }
    var left := GapOf(n.rest);
    var v := Skip(n.rest);
    assert v == [COLON] + v[1..];
    var right := GapOf(v[1..]);
    var d := DocOf(Skip(v[1..]));
    e := Entry(before, name, left, right, d, []);
  }

  lemma NoColon(t: Text)
    requires Head(t) == 0
    ensures Head(Skip(t)) != COLON
  {
  }

  lemma EntryRead(t: Text, done: seq<Member>)
    requires ParseMembers(t, done).Ok?
    ensures var p := ParseMember(t);
      && p.Ok? && |p.rest| < |t| && Skip(p.rest) != [] && |Skip(p.rest)| <= |p.rest|
      && (Skip(p.rest)[0] == COMMA || Skip(p.rest)[0] == CLOSE_OBJECT)
  {
    hide ParseMember, Skip;
  }

  lemma {:induction false} EntriesOf(t: Text, done: seq<Member>) returns (entries: seq<Entry>)
    requires ParseMembers(Skip(t), done).Ok?
    ensures var r := ParseMembers(Skip(t), done);
      && entries != [] && ValidEntries(entries, r.rest) && t == EntriesThen(entries, r.rest)
      && r.value == done + EntryValues(entries, r.rest)
    decreases |t|, 4
  {
    hide ParseMember, ParseMembers, StringThen, DocThen, Skip, ValueOf, ValidDoc, IsGap, LooseBody, LooseChars,
      ValidBody;
    EntryRead(Skip(t), done);
    var p := ParseMember(Skip(t));
    var e0 := EntryOf(t);
    var after := GapOf(p.rest);
    var v := Skip(p.rest);
    EntryTurn(Skip(t), p.value, p.rest, done);
    var rest := ParseMembers(Skip(t), done).rest;
    assert v == [v[0]] + v[1..];
    var e := e0.(after := after);
    if v[0] == CLOSE_OBJECT {
      entries := [e];
      assert EntryValues(entries[1..], rest) == [] && entries[1..] == [];
      assert EntryValues(entries, rest) == [p.value];
    } else {
      var more := EntriesOf(v[1..], done + [p.value]);
      entries := [e] + more;
      assert entries[1..] == more;
      Assoc(done, [p.value], EntryValues(more, rest));
    }
  }

  // ----- Whole texts -----------------------------------------------------------------

  /** The text is a gap, a value that means `j`, and a rest; on demand the rest is a gap up to the
      end of the text, which is passed over. */
  ghost predicate Spells(t: Text, requireEnd: bool, j: Json, u: Text) {
    exists before, d, rest :: FormsOf(t, requireEnd, j, u, before, d, rest)
  }

  ghost predicate FormsOf(t: Text, requireEnd: bool, j: Json, u: Text, before: Text, d: Doc, rest: Text) {
    && IsGap(before) && t == before + DocThen(d, rest) && ValidDoc(d, rest) && j == ValueOf(d, rest)
    && if requireEnd then Head(Skip(rest)) == 0 && u == Skip(rest) else u == rest
  }

  /** A text is read as a value exactly if it spells the value by the grammar. */
  lemma ReadExactly(t: Text, requireEnd: bool, j: Json, u: Text)
    ensures ParseWithOpts(t, requireEnd) == Ok(j, u) <==> Spells(t, requireEnd, j, u)
  {
    hide ParseValue, DocThen, ValidDoc, ValueOf, Skip, IsGap;
    if Spells(t, requireEnd, j, u) {
      var before, d, rest :| FormsOf(t, requireEnd, j, u, before, d, rest);
      StartsSolid(d, rest);
      SkippedTo(before, DocThen(d, rest));
      DocIs(d, rest);
    }
    if ParseWithOpts(t, requireEnd) == Ok(j, u) {
      var before := GapOf(t);
      var d := DocOf(Skip(t));
      assert FormsOf(t, requireEnd, j, u, before, d, ParseValue(Skip(t)).rest);
    }
  }

  // ----- RFC 8259 --------------------------------------------------------------------

  predicate IsBlank(t: Text) {
    forall i :: 0 <= i < |t| ==> t[i] == 0x20 || t[i] == 0x09 || t[i] == 0x0A || t[i] == 0x0D
  }

  /** Sections 2 to 7, with 32-bit integers for numbers. */
  predicate RfcDoc(d: Doc)
    decreases d
  {
    match d
    case NumberDoc(negative, zero, digits) =>
      && AllDecimal(digits) && (zero <==> digits == []) && (digits != [] ==> digits[0] != ZERO)
      && INT_MIN <= Signed(negative, digits) <= INT_MAX
    case StringDoc(body, closed) => closed && ValidChars(body)
    case ArrayDoc(blank, items) => IsBlank(blank) && RfcItems(items)
    case ObjectDoc(gap, entries) => IsBlank(gap) && RfcEntries(entries)
    case _ => true
  }

  predicate RfcItems(items: seq<Item>)
    decreases items
  {
    items != [] ==>
      IsBlank(items[0].before) && RfcDoc(items[0].value) && IsBlank(items[0].after) && RfcItems(items[1..])
  }

  predicate RfcEntries(entries: seq<Entry>)
    decreases entries
  {
    entries != [] ==>
      var e := entries[0];
      && IsBlank(e.before) && ValidChars(e.name) && IsBlank(e.left) && IsBlank(e.right) && RfcDoc(e.value)
      && IsBlank(e.after) && RfcEntries(entries[1..])
  }

  lemma BlankIsGap(t: Text, u: Text)
    requires IsBlank(t) && (Head(u) == COMMA || Head(u) == CLOSE_ARRAY || Head(u) == CLOSE_OBJECT || Head(u) == 0)
    ensures IsGap(t) && StopsNumber(t + u)
  {
  }

  lemma {:induction false} RfcIsValid(d: Doc, rest: Text)
    requires RfcDoc(d) && StopsNumber(rest)
    ensures ValidDoc(d, rest)
    decreases d
  {
    hide DigitsValue, ValidBody, LooseChars, IsBlank, IsGap;
    match d {
      case StringDoc(body, _) => RfcBody(body, [QUOTE] + rest);
      case ArrayDoc(blank, items) => BlankIsGap(blank, []); RfcItemsValid(items, rest);
      case ObjectDoc(gap, entries) => BlankIsGap(gap, []); RfcEntriesValid(entries, rest);
      case _ =>
    }
  }

  lemma {:induction false} RfcItemsValid(items: seq<Item>, rest: Text)
    requires RfcItems(items)
    ensures ValidItems(items, rest)
    decreases items
  {
    hide IsBlank, IsGap, RfcDoc, ValidDoc, ItemsThen, StopsNumber;
    if items != [] {
      var u := if |items| == 1 then [CLOSE_ARRAY] + rest else [COMMA] + ItemsThen(items[1..], rest);
      BlankIsGap(items[0].before, []);
      BlankIsGap(items[0].after, u);
      RfcIsValid(items[0].value, AfterItem(items, rest));
      RfcItemsValid(items[1..], rest);
    }
  }

  lemma {:induction false} RfcEntriesValid(entries: seq<Entry>, rest: Text)
    requires RfcEntries(entries)
    ensures ValidEntries(entries, rest)
    decreases entries
  {
    hide IsBlank, IsGap, RfcDoc, ValidDoc, EntriesThen, StopsNumber, ValidBody, LooseChars, ValidChars;
    if entries != [] {
      var e := entries[0];
      var u := if |entries| == 1 then [CLOSE_OBJECT] + rest else [COMMA] + EntriesThen(entries[1..], rest);
      BlankIsGap(e.before, []);
      BlankIsGap(e.left, []);
      BlankIsGap(e.right, []);
      BlankIsGap(e.after, u);
      var tail := AfterEntry(entries, rest);
      RfcBody(e.name, [QUOTE] + (e.left + ([COLON] + (e.right + DocThen(e.value, tail)))));
      RfcIsValid(e.value, tail);
      RfcEntriesValid(entries[1..], rest);
    }
  }

  /** Every JSON text of RFC 8259, with blanks wherever the grammar allows them, is parsed to the
      value it denotes. */
  lemma RfcText(before: Text, d: Doc, after: Text, requireEnd: bool)
    requires IsBlank(before) && RfcDoc(d) && IsBlank(after)
    ensures ValidDoc(d, after)
    ensures ParseWithOpts(before + DocThen(d, after), requireEnd) ==
      Ok(ValueOf(d, after), if requireEnd then [] else after)
  {
    hide ParseWithOpts, DocThen, ValidDoc, ValueOf, IsGap, IsBlank, StopsNumber, RfcDoc;
    BlankIsGap(before, []);
    BlankIsGap(after, []);
    assert after + [] == after;
    GapSkipped(after, []);
    RfcIsValid(d, after);
    var u := if requireEnd then [] else after;
    var t := before + DocThen(d, after);
    assert FormsOf(t, requireEnd, ValueOf(d, after), u, before, d, after);
    ReadExactly(t, requireEnd, ValueOf(d, after), u);
  }
}
