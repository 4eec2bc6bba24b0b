/** Parsing what was printed, for the trees of Json. */
module JsonRoundTrip {
  import opened Bytes
  import opened Unicode
  import opened Options
  import opened Json

  // ----- Pieces of text --------------------------------------------------------------

  lemma SkipSolid(t: Text)
    requires Head(t) == 0 || 32 < Head(t)
    ensures Skip(t) == t
  {
  }

  lemma SkipOne(b: byte, t: Text)
    requires 0 < b <= 32
    ensures Skip([b] + t) == Skip(t)
  {
    Drop(b, t);
  }

  lemma {:induction false} SkipTabs(n: int, t: Text)
    ensures Skip(Tabs(n) + t) == Skip(t)
    decreases n
  {
    if n <= 0 {
      assert Tabs(n) + t == t;
    } else {
      Assoc([TAB], Tabs(n - 1), t);
      SkipOne(TAB, Tabs(n - 1) + t);
      SkipTabs(n - 1, t);
    }
  }

  // ----- Numbers ---------------------------------------------------------------------

  /** Text that does not go on with a number. */
  predicate StopsNumber(t: Text) {
    var b := Head(t);
    !IsDigit(b) && b != 46 && b != 101 && b != 69
  }

  lemma {:induction false} DigitsBack(n: nat, rest: Text)
    ensures ParseDigits(Decimal(n) + rest, 0) == ParseDigits(rest, n)
    ensures IsDigit(Decimal(n)[0]) && (0 < n ==> Decimal(n)[0] != ZERO)
  {
    if n < 10 {
      Drop(Digit(n), rest);
    } else {
      var d := Digit(n % 10);
      Assoc(Decimal(n / 10), [d], rest);
      DigitsBack(n / 10, [d] + rest);
      Drop(d, rest);
      assert 10 * (n / 10) + n % 10 == n;
    }
  }

  lemma UnsignedBack(n: nat, rest: Text)
    requires StopsNumber(rest)
    ensures IsDigit(Head(Decimal(n) + rest)) && Decimal(n) + rest != []
    ensures var u := Decimal(n) + rest;
      var v := if Head(u) == ZERO then u[1..] else u;
      (if IsDigit(Head(v)) && Head(v) != ZERO then ParseDigits(v, 0) else (0, v)) == (n, rest)
  {
    DigitsBack(n, rest);
    if n == 0 { Drop(ZERO, rest); }
  }

  lemma NumberBack(n: int, rest: Text)
    requires INT_MIN <= n <= INT_MAX && StopsNumber(rest)
    ensures var t := PrintNumber(n) + rest;
      (Head(t) == MINUS || IsDigit(Head(t))) && ParseNumber(t) == Ok(Number(n), rest)
  {
    if n < 0 {
      Assoc([MINUS], Decimal(-n), rest);
      Drop(MINUS, Decimal(-n) + rest);
      UnsignedBack(-n, rest);
    } else {
      UnsignedBack(n, rest);
    }
  }

  // ----- Strings ---------------------------------------------------------------------

  lemma ControlBack(b: byte, u: Text)
    requires 0 < b < 32
    ensures Transcode([48, 48, HexDigit(b / 16), HexDigit(b % 16)] + u) == Ok([b], u)
  {
    var t := [48, 48, HexDigit(b / 16), HexDigit(b % 16)] + u;
    assert HexValue(t[2]) == (b / 16) as int && HexValue(t[3]) == (b % 16) as int;
    assert t[4..] == u;
  }

  lemma CharBack(b: byte, u: Text)
    requires b != 0
    ensures var t := EscapeByte(b) + u; !EndsString(t) && NextChar(t) == Ok([b], u)
  {
    var t := EscapeByte(b) + u;
    if b > 31 && b != QUOTE && b != BACKSLASH {
      Drop(b, u);
    } else {
      var code := EscapeCode(b);
      Assoc([BACKSLASH], code, u);
      Drop(BACKSLASH, code + u);
      if |code| == 5 {
        var hex := [48, 48, HexDigit(b / 16), HexDigit(b % 16)];
        assert t[2..] == hex + u;
        ControlBack(b, u);
      } else {
        assert t[2..] == u;
      }
    }
  }

  lemma {:induction false} StringBack(s: Text, rest: Text)
    requires NoNul(s) && Head(rest) == QUOTE
    ensures Unescape(Escape(s) + rest) == Ok(s, rest)
    decreases |s|
  {
    if s == [] {
      assert Escape(s) + rest == rest;
    } else {
      Assoc(EscapeByte(s[0]), Escape(s[1..]), rest);
      CharBack(s[0], Escape(s[1..]) + rest);
      StringBack(s[1..], rest);
      assert [s[0]] + s[1..] == s;
    }
  }

  /** String escaping loses nothing. */
  lemma QuotedBack(s: Text, rest: Text)
    requires NoNul(s)
    ensures ParseString(PrintString(s) + rest) == Ok(s, rest)
  {
    var tail := [QUOTE] + rest;
    assert PrintString(s) + rest == [QUOTE] + (Escape(s) + tail);
    Drop(QUOTE, Escape(s) + tail);
    Drop(QUOTE, rest);
    StringBack(s, tail);
  }

  /** Section 7 of RFC 8259: unescaped characters are at least 0x20 and neither a quotation
      mark nor a reverse solidus, and an escape is one of the listed forms. */
  predicate RfcChars(t: Text)
    decreases |t|
  {
    if t == [] then true
    else if t[0] != BACKSLASH then 0x20 <= t[0] && t[0] != QUOTE && RfcChars(t[1..])
    else if |t| < 2 then false
    else if t[1] == LETTER_U then 6 <= |t| && (forall i :: 2 <= i < 6 ==> 0 <= HexValue(t[i])) && RfcChars(t[6..])
    else t[1] in [QUOTE, BACKSLASH, 47, 98, 102, 110, 114, 116] && RfcChars(t[2..])
  }

  /** Escaping leaves a string as it is exactly if section 7 of RFC 8259 allows all of its bytes to
      stand for themselves. */
  lemma {:induction false} EscapedIsSame(s: Text)
    ensures |s| <= |Escape(s)|
    ensures Escape(s) == s <==> forall i :: 0 <= i < |s| ==> 0x20 <= s[i] && s[i] != QUOTE && s[i] != BACKSLASH
    decreases |s|
  {
    if s != [] {
      EscapedIsSame(s[1..]);
      assert s == [s[0]] + s[1..];
      assert EscapeByte(s[0]) == [s[0]] || 1 < |EscapeByte(s[0])|;
    }
  }

  lemma EscapeByteIsRfc(b: byte, rest: Text)
    requires RfcChars(rest)
    ensures RfcChars(EscapeByte(b) + rest)
  {
    var t := EscapeByte(b) + rest;
    if b > 31 && b != QUOTE && b != BACKSLASH {
      Drop(b, rest);
    } else if |EscapeCode(b)| == 5 {
      assert t[6..] == rest;
      DigitBack(b / 16);
      DigitBack(b % 16);
    } else {
      assert t[2..] == rest;
    }
  }

  lemma {:induction false} EscapeIsRfc(s: Text)
    ensures RfcChars(Escape(s))
    decreases |s|
  {
    hide EscapeByte;
    if s != [] {
      EscapeIsRfc(s[1..]);
      EscapeByteIsRfc(s[0], Escape(s[1..]));
    }
  }

  // ----- Escapes of other characters ---------------------------------------------------

  function Hex4Text(v: nat): Text
    requires v < 0x1_0000
  {
    [HexDigit((v / 0x10 / 0x10 / 0x10) as byte), HexDigit((v / 0x10 / 0x10 % 0x10) as byte),
     HexDigit((v / 0x10 % 0x10) as byte), HexDigit((v % 0x10) as byte)]
  }

  /** The \u escape of a character by section 7 of RFC 8259: one of four digits, or the pair of
      its surrogates. */
  function EscapedScalar(c: nat): Text
    requires c < 0x11_0000
  {
    if c < 0x1_0000 then [BACKSLASH, LETTER_U] + Hex4Text(c)
    else PairText(0xD800 + (c - 0x1_0000) / 0x400, 0xDC00 + (c - 0x1_0000) % 0x400)
  }

  lemma Hex4Back(v: nat, rest: Text)
    requires v < 0x1_0000
    ensures var t := Hex4Text(v) + rest; Hex4(t) == v && t[4..] == rest
  {
    hide HexValue, HexDigit;
    var t := Hex4Text(v) + rest;
    DigitBack((v / 0x10 / 0x10 / 0x10) as byte);
    DigitBack((v / 0x10 / 0x10 % 0x10) as byte);
    DigitBack((v / 0x10 % 0x10) as byte);
    DigitBack((v % 0x10) as byte);
  }

  lemma DigitBack(d: byte)
    requires d < 16
    ensures HexValue(HexDigit(d)) == d as int
  {
  }

  lemma OneEscapeBack(c: nat, rest: Text)
    requires 0 < c < 0x1_0000 && !(0xD800 <= c < 0xE000)
    ensures NextChar(EscapedScalar(c) + rest) == Ok(Utf8(c), rest)
  {
    hide Utf8, Hex4, Hex4Text;
    var t := EscapedScalar(c) + rest;
    assert t[2..] == Hex4Text(c) + rest;
    Hex4Back(c, rest);
  }

  lemma SecondHalfBack(hi: nat, lo: nat, rest: Text)
    requires 0xD800 <= hi < 0xDC00 <= lo < 0xE000
    ensures SecondHalf(hi, [BACKSLASH, LETTER_U] + (Hex4Text(lo) + rest)) ==
      Ok(Utf8(0x1_0000 + 0x400 * (hi - 0xD800) + (lo - 0xDC00)), rest)
  {
    hide Utf8, Hex4, Hex4Text;
    var t := [BACKSLASH, LETTER_U] + (Hex4Text(lo) + rest);
    assert t[1..][0] == LETTER_U;
    assert t[2..] == Hex4Text(lo) + rest;
    Hex4Back(lo, rest);
    assert t[6..] == t[2..][4..];
  }

  function PairText(hi: nat, lo: nat): Text
    requires hi < 0x1_0000 && lo < 0x1_0000
  {
    [BACKSLASH, LETTER_U] + Hex4Text(hi) + [BACKSLASH, LETTER_U] + Hex4Text(lo)
  }

  lemma PairBack(hi: nat, lo: nat, rest: Text)
    requires 0xD800 <= hi < 0xDC00 <= lo < 0xE000
    ensures NextChar(PairText(hi, lo) + rest) == Ok(Utf8(0x1_0000 + 0x400 * (hi - 0xD800) + (lo - 0xDC00)), rest)
  {
    hide Utf8, Hex4, Hex4Text, SecondHalf;
    var u := [BACKSLASH, LETTER_U] + (Hex4Text(lo) + rest);
    assert (PairText(hi, lo) + rest)[2..] == Hex4Text(hi) + u;
    Hex4Back(hi, u);
    SecondHalfBack(hi, lo, rest);
  }

  /** An escaped character other than NUL is read as its UTF-8 bytes, and these decode to it. */
  lemma ScalarBack(c: nat, rest: Text)
    requires 0 < c < 0x11_0000 && !(0xD800 <= c < 0xE000)
    ensures NextChar(EscapedScalar(c) + rest) == Ok(Utf8(c), rest)
    ensures FirstChar(Utf8(c)) == Some((c, |Utf8(c)|))
  {
    hide Utf8, NextChar, FirstChar, PairText, Hex4Text;
    Utf8Back(c, []);
    assert Utf8(c) + [] == Utf8(c);
    if c < 0x1_0000 {
      OneEscapeBack(c, rest);
    } else {
      var v := c - 0x1_0000;
      PairBack(0xD800 + v / 0x400, 0xDC00 + v % 0x400, rest);
      assert c == 0x1_0000 + 0x400 * (v / 0x400) + v % 0x400;
    }
  }

  // ----- Trees -----------------------------------------------------------------------

  /** The first byte of a printed tree. */
  lemma StartOf(j: Json, depth: nat, fmt: bool, rest: Text)
    ensures PrintValue(j, depth, fmt) != []
    ensures var b := Head(PrintValue(j, depth, fmt) + rest);
      32 < b && b != CLOSE_ARRAY && b != CLOSE_OBJECT && b != COMMA
    ensures j.Array? ==> Head(PrintValue(j, depth, fmt) + rest) == OPEN_ARRAY
    ensures j.Object? ==> Head(PrintValue(j, depth, fmt) + rest) == OPEN_OBJECT
  {
    hide PrintItems, PrintMembers, Escape, Tabs;
    match j {
      case Number(n) => DigitsBack(if n < 0 then -n else n, rest);
      case _ =>
    }
  }

  /** A word is recognised, and nothing else is mistaken for one. */
  lemma WordBack(rest: Text)
    ensures ParseValue(NULL_TEXT + rest) == Ok(Null, rest)
    ensures ParseValue(FALSE_TEXT + rest) == Ok(False, rest)
    ensures ParseValue(TRUE_TEXT + rest) == Ok(True, rest)
  {
    hide ParseString, ParseNumber, ParseArray, ParseObject;
    assert (NULL_TEXT + rest)[4..] == rest;
    assert (FALSE_TEXT + rest)[5..] == rest;
    assert (TRUE_TEXT + rest)[4..] == rest;
    assert (NULL_TEXT + rest)[0] == 110 && (FALSE_TEXT + rest)[0] == 102 && (TRUE_TEXT + rest)[0] == 116;
  }

  /** Parsing a printed tree gives the tree, and the text after it is left. */
  lemma {:induction false} ValueBack(j: Json, depth: nat, fmt: bool, rest: Text)
    requires Printable(j) && StopsNumber(rest)
    ensures ParseValue(PrintValue(j, depth, fmt) + rest) == Ok(j, rest)
    decreases j
  {
    hide PrintNumber, ParseNumber, PrintString, ParseString, ParseArray, ParseObject, PrintItems, PrintMembers;
    var t := PrintValue(j, depth, fmt) + rest;
    match j {
      case Null => WordBack(rest);
      case False => WordBack(rest);
      case True => WordBack(rest);
      case Number(n) =>
        NumberBack(n, rest);
      case String(s) =>
        QuotedBack(s, rest);
        QuoteFirst(s, rest);
      case Array(items) =>
        StartOf(j, depth, fmt, rest);
        ArrayBack(items, depth, fmt, rest);
      case Object(members) =>
        StartOf(j, depth, fmt, rest);
        ObjectBack(members, depth, fmt, rest);
    }
  }

  lemma QuoteFirst(s: Text, rest: Text)
    ensures Head(PrintString(s) + rest) == QUOTE
  {
  }

  lemma {:induction false} ArrayBack(items: seq<Json>, depth: nat, fmt: bool, rest: Text)
    requires forall i :: 0 <= i < |items| ==> Printable(items[i])
    ensures var t := PrintValue(Array(items), depth, fmt) + rest;
      Head(t) == OPEN_ARRAY && ParseArray(t) == Ok(Array(items), rest)
    decreases items
  {
    hide PrintItems, ParseItems;
    var tail := [CLOSE_ARRAY] + rest;
    if items == [] {
      assert PrintValue(Array(items), depth, fmt) + rest == [OPEN_ARRAY] + tail;
      Drop(OPEN_ARRAY, tail);
      Drop(CLOSE_ARRAY, rest);
      SkipSolid(tail);
    } else {
      var inner := PrintItems(items, depth + 1, fmt) + tail;
      assert PrintValue(Array(items), depth, fmt) + rest == [OPEN_ARRAY] + inner;
      Drop(OPEN_ARRAY, inner);
      ItemsStart(items, depth + 1, fmt, tail);
      SkipSolid(inner);
      ItemsBack(items, [], depth + 1, fmt, rest);
      assert [] + items == items;
    }
  }

  lemma ItemsStart(items: seq<Json>, depth: nat, fmt: bool, rest: Text)
    requires items != []
    ensures 32 < Head(PrintItems(items, depth, fmt) + rest) && Head(PrintItems(items, depth, fmt) + rest) != CLOSE_ARRAY
  {
    hide PrintValue;
    StartOf(items[0], depth, fmt, []);
  }

  /** One turn of the loop of parse_array, for an item that was printed. */
  lemma ItemTurn(t: Text, j: Json, u: Text, done: seq<Json>)
    requires ParseValue(t) == Ok(j, u)
    ensures Head(Skip(u)) == CLOSE_ARRAY ==> ParseItems(t, done) == Ok(done + [j], Skip(u)[1..])
    ensures Head(Skip(u)) == COMMA ==> ParseItems(t, done) == ParseItems(Skip(Skip(u)[1..]), done + [j])
  {
    hide ParseValue;
  }

  lemma {:induction false} ItemsBack(items: seq<Json>, done: seq<Json>, depth: nat, fmt: bool, rest: Text)
    requires items != [] && forall i :: 0 <= i < |items| ==> Printable(items[i])
    ensures ParseItems(PrintItems(items, depth, fmt) + ([CLOSE_ARRAY] + rest), done) == Ok(done + items, rest)
    decreases items, 0
  {
    hide PrintValue, ParseValue, Printable, ParseItems, Separator, Skip;
    var tail := [CLOSE_ARRAY] + rest;
    var t := PrintItems(items, depth, fmt) + tail;
    if |items| == 1 {
      ValueBack(items[0], depth, fmt, tail);
      SkipSolid(tail);
      Drop(CLOSE_ARRAY, rest);
      ItemTurn(t, items[0], tail, done);
      assert [items[0]] == items;
    } else {
      hide PrintItems;
      var more := PrintItems(items[1..], depth, fmt) + tail;
      ItemsMore(items, depth, fmt, tail);
      ItemsStart(items[1..], depth, fmt, tail);
      SeparatorSkipped(fmt, more);
      ValueBack(items[0], depth, fmt, Separator(fmt) + more);
      ItemTurn(t, items[0], Separator(fmt) + more, done);
      ItemsBack(items[1..], done + [items[0]], depth, fmt, rest);
      assert done + [items[0]] + items[1..] == done + items;
    }
  }

  lemma ItemsMore(items: seq<Json>, depth: nat, fmt: bool, tail: Text)
    requires 1 < |items|
    ensures PrintItems(items, depth, fmt) + tail ==
      PrintValue(items[0], depth, fmt) + (Separator(fmt) + (PrintItems(items[1..], depth, fmt) + tail))
  {
    hide PrintValue;
    var first, more := PrintValue(items[0], depth, fmt), PrintItems(items[1..], depth, fmt);
    Assoc(first + Separator(fmt), more, tail);
    Assoc(first, Separator(fmt), more + tail);
  }

  lemma SeparatorSkipped(fmt: bool, t: Text)
    requires 32 < Head(t)
    ensures var u := Separator(fmt) + t; StopsNumber(u) && Skip(u) == u && Head(u) == COMMA && Skip(u[1..]) == t
  {
    var u := Separator(fmt) + t;
    SkipSolid(t);
    if fmt {
      assert u[1..] == [SPACE] + t;
      SkipOne(SPACE, t);
    } else {
      Drop(COMMA, t);
    }
    SkipSolid(u);
  }

  // ----- Objects ---------------------------------------------------------------------

  /** The text of an object after its last entry. */
  function Closing(tabs: int, rest: Text): Text {
    Tabs(tabs) + ([CLOSE_OBJECT] + rest)
  }

  lemma ClosingSkipped(tabs: int, rest: Text)
    ensures Skip(Closing(tabs, rest)) == [CLOSE_OBJECT] + rest
  {
    SkipTabs(tabs, [CLOSE_OBJECT] + rest);
    SkipSolid([CLOSE_OBJECT] + rest);
  }

  lemma {:induction false} ObjectBack(members: seq<Member>, depth: nat, fmt: bool, rest: Text)
    requires forall i :: 0 <= i < |members| ==> NoNul(members[i].name) && Printable(members[i].value)
    ensures var t := PrintValue(Object(members), depth, fmt) + rest;
      Head(t) == OPEN_OBJECT && ParseObject(t) == Ok(Object(members), rest)
    decreases members
  {
    hide PrintMembers, ParseMembers, Tabs;
    Drop(CLOSE_OBJECT, rest);
    if members == [] {
      EmptyObjectText(depth, fmt, rest);
      ClosingSkipped(if fmt then depth - 1 else 0, rest);
    } else {
      ObjectText(members, depth, fmt, rest);
      var inner := PrintMembers(members, depth + 1, fmt) + Closing(if fmt then depth else 0, rest);
      MembersStart(members, depth + 1, fmt, Closing(if fmt then depth else 0, rest));
      MembersBack(members, [], depth + 1, fmt, if fmt then depth else 0, rest);
      assert [] + members == members;
    }
  }

  lemma EmptyObjectText(depth: nat, fmt: bool, rest: Text)
    ensures var t := PrintValue(Object([]), depth, fmt) + rest;
      Head(t) == OPEN_OBJECT && Skip(t[1..]) == Skip(Closing(if fmt then depth - 1 else 0, rest))
  {
    hide Tabs;
    var t := PrintValue(Object([]), depth, fmt) + rest;
    if fmt {
      var c := Closing(depth - 1, rest);
      assert t == [OPEN_OBJECT] + ([NEWLINE] + c);
      Drop(OPEN_OBJECT, [NEWLINE] + c);
      SkipOne(NEWLINE, c);
    } else {
      assert t == [OPEN_OBJECT] + ([CLOSE_OBJECT] + rest);
      Drop(OPEN_OBJECT, [CLOSE_OBJECT] + rest);
      NoTabs([CLOSE_OBJECT] + rest);
    }
  }

  lemma NoTabs(t: Text)
    ensures Tabs(0) + t == t
  {
  }

  lemma ObjectText(members: seq<Member>, depth: nat, fmt: bool, rest: Text)
    requires members != []
    ensures var t := PrintValue(Object(members), depth, fmt) + rest;
      && Head(t) == OPEN_OBJECT
      && Skip(t[1..]) == Skip(PrintMembers(members, depth + 1, fmt) + Closing(if fmt then depth else 0, rest))
  {
    hide PrintMembers, Tabs;
    var ms := PrintMembers(members, depth + 1, fmt);
    var t := PrintValue(Object(members), depth, fmt) + rest;
    if fmt {
      var inner := ms + Closing(depth, rest);
      assert t == [OPEN_OBJECT] + ([NEWLINE] + inner);
      Drop(OPEN_OBJECT, [NEWLINE] + inner);
      SkipOne(NEWLINE, inner);
    } else {
      NoTabs([CLOSE_OBJECT] + rest);
      assert t == [OPEN_OBJECT] + (ms + ([CLOSE_OBJECT] + rest));
      Drop(OPEN_OBJECT, ms + ([CLOSE_OBJECT] + rest));
    }
  }

  /** Skipping leads to the quote of the first name. */
  lemma MembersStart(members: seq<Member>, depth: nat, fmt: bool, tail: Text)
    requires members != []
    ensures Head(Skip(PrintMembers(members, depth, fmt) + tail)) == QUOTE
    ensures Skip(PrintMembers(members, depth, fmt) + tail) == EntryText(members, depth, fmt, tail)
  {
    hide PrintValue, PrintString, PrintMembers, Tabs;
    MembersText(members, depth, fmt, tail);
    var e := EntryText(members, depth, fmt, tail);
    QuoteFirst(members[0].name, EntryRest(members, depth, fmt, tail));
    SkipSolid(e);
    SkipTabs(if fmt then depth else 0, e);
  }

  /** The text of the entries from the first name on. */
  function EntryText(members: seq<Member>, depth: nat, fmt: bool, tail: Text): Text
    requires members != []
  {
    PrintString(members[0].name) + EntryRest(members, depth, fmt, tail)
  }

  function Colon(fmt: bool): Text {
    if fmt then [COLON, TAB] else [COLON]
  }

  /** ... and after that name. */
  function EntryRest(members: seq<Member>, depth: nat, fmt: bool, tail: Text): Text
    requires members != []
  {
    Colon(fmt) + (PrintValue(members[0].value, depth, fmt) + AfterValue(members, depth, fmt, tail))
  }

  function AfterValue(members: seq<Member>, depth: nat, fmt: bool, tail: Text): Text
    requires members != []
  {
    EntryEnd(|members| == 1, fmt) + (PrintMembers(members[1..], depth, fmt) + tail)
  }

  lemma MembersText(members: seq<Member>, depth: nat, fmt: bool, tail: Text)
    requires members != []
    ensures PrintMembers(members, depth, fmt) + tail ==
      Tabs(if fmt then depth else 0) + EntryText(members, depth, fmt, tail)
  {
    hide PrintValue, PrintString;
    var p, v, e := PrintString(members[0].name), PrintValue(members[0].value, depth, fmt),
      EntryEnd(|members| == 1, fmt);
    var l, more := Label(members[0].name, depth, fmt), PrintMembers(members[1..], depth, fmt);
    Assoc(l + v + e, more, tail);
    Assoc(l + v, e, more + tail);
    Assoc(l, v, AfterValue(members, depth, fmt, tail));
    var tabs := Tabs(if fmt then depth else 0);
    Assoc(tabs + p, Colon(fmt), v + AfterValue(members, depth, fmt, tail));
    Assoc(tabs, p, EntryRest(members, depth, fmt, tail));
  }

  lemma ColonSkipped(fmt: bool, t: Text)
    requires 32 < Head(t)
    ensures var u := Colon(fmt) + t; Skip(u) == u && Head(u) == COLON && Skip(u[1..]) == t
  {
    var u := Colon(fmt) + t;
    SkipSolid(t);
    if fmt {
      assert u[1..] == [TAB] + t;
      SkipOne(TAB, t);
    } else {
      Drop(COLON, t);
    }
    SkipSolid(u);
  }

  /** What follows a value: a comma, a newline and more entries, or the end of the object. */
  lemma AfterValueSkipped(members: seq<Member>, depth: nat, fmt: bool, tabs: int, rest: Text)
    requires members != []
    ensures var tail := Closing(tabs, rest);
      var u := AfterValue(members, depth, fmt, tail);
      && StopsNumber(u)
      && (|members| == 1 ==> Skip(u) == [CLOSE_OBJECT] + rest)
      && (1 < |members| ==>
           Head(Skip(u)) == COMMA && Skip(Skip(u)[1..]) == Skip(PrintMembers(members[1..], depth, fmt) + tail))
  {
    hide Tabs, Closing, Skip;
    var tail := Closing(tabs, rest);
    var u := AfterValue(members, depth, fmt, tail);
    if |members| == 1 {
      assert PrintMembers(members[1..], depth, fmt) == [];
      assert [] + tail == tail;
      ClosingSkipped(tabs, rest);
      ClosingStops(tabs, rest);
      if fmt { assert u == [NEWLINE] + tail; SkipOne(NEWLINE, tail); } else { assert u == tail; }
    } else {
      hide PrintMembers;
      CommaSkipped(fmt, PrintMembers(members[1..], depth, fmt) + tail);
    }
  }

  lemma CommaSkipped(fmt: bool, more: Text)
    ensures var u := EntryEnd(false, fmt) + more;
      StopsNumber(u) && Head(Skip(u)) == COMMA && Skip(Skip(u)[1..]) == Skip(more)
  {
    var u := EntryEnd(false, fmt) + more;
    SkipSolid(u);
    if fmt {
      assert u[1..] == [NEWLINE] + more;
      SkipOne(NEWLINE, more);
    } else {
      assert u == [COMMA] + more;
      Drop(COMMA, more);
    }
  }

  lemma ClosingStops(tabs: int, rest: Text)
    ensures StopsNumber(Closing(tabs, rest))
  {
  }

  lemma {:induction false} MembersBack(members: seq<Member>, done: seq<Member>, depth: nat, fmt: bool, tabs: int,
                                       rest: Text)
    requires members != []
    requires forall i :: 0 <= i < |members| ==> NoNul(members[i].name) && Printable(members[i].value)
    ensures ParseMembers(Skip(PrintMembers(members, depth, fmt) + Closing(tabs, rest)), done) ==
      Ok(done + members, rest)
    decreases members, 1
  {
    hide PrintMembers, Printable, ParseMember, Closing, EntryText, AfterValue;
    var tail := Closing(tabs, rest);
    MembersStart(members, depth, fmt, tail);
    MemberBack(members, depth, fmt, tabs, rest);
    AfterValueSkipped(members, depth, fmt, tabs, rest);
    if |members| == 1 {
      Drop(CLOSE_OBJECT, rest);
      assert [members[0]] == members;
    } else {
      MembersBack(members[1..], done + [members[0]], depth, fmt, tabs, rest);
      assert done + [members[0]] + members[1..] == done + members;
    }
  }

  lemma {:induction false} MemberBack(members: seq<Member>, depth: nat, fmt: bool, tabs: int, rest: Text)
    requires members != [] && NoNul(members[0].name) && Printable(members[0].value)
    ensures var tail := Closing(tabs, rest);
      ParseMember(EntryText(members, depth, fmt, tail)) == Ok(members[0], AfterValue(members, depth, fmt, tail))
    decreases members, 0
  {
    hide PrintValue, ParseValue, Printable, ParseString, PrintString, AfterValue, Closing;
    var tail := Closing(tabs, rest);
    var after := AfterValue(members, depth, fmt, tail);
    var value := PrintValue(members[0].value, depth, fmt) + after;
    QuotedBack(members[0].name, EntryRest(members, depth, fmt, tail));
    StartOf(members[0].value, depth, fmt, after);
    ColonSkipped(fmt, value);
    AfterValueSkipped(members, depth, fmt, tabs, rest);
    ValueBack(members[0].value, depth, fmt, after);
  }

  // ----- Whole texts -----------------------------------------------------------------

  /** cJSON_ParseWithOpts: skip blanks, parse, and on demand insist on the end of the text. */
  function ParseWithOpts(t: Text, requireEnd: bool): Result<Json> {
    match ParseValue(Skip(t))
    case Ok(j, u) =>
      if !requireEnd then Ok(j, u)
      else if Head(Skip(u)) != 0 then Failed
      else Ok(j, Skip(u))
    case e => e
  }

  /** Whichever way a tree was printed, parsing the text gives the tree and uses up the text. */
  lemma RoundTrip(j: Json, fmt: bool, requireEnd: bool)
    requires Printable(j)
    ensures ParseWithOpts(PrintValue(j, 0, fmt), requireEnd) == Ok(j, [])
  {
    hide PrintValue, ParseValue, Printable;
    var t := PrintValue(j, 0, fmt);
    assert t + [] == t;
    StartOf(j, 0, fmt, []);
    SkipSolid(t);
    ValueBack(j, 0, fmt, []);
  }
}
