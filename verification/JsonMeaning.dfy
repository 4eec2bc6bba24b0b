/** What the strings of RFC 8259 mean, apart from the parser. */
module JsonMeaning {

  import opened Bytes
  import opened Unicode
  import opened Json
  import opened JsonRoundTrip

  // ----- String bodies: section 7 ------------------------------------------------------

  /** The characters of a string as they are spelled: a byte, one of the eight short escapes, or
      one or two code units in four hex digits of either case. */
  datatype Char = Plain(b: byte) | Short(letter: byte) | Unit(digits: Text) | Pair(hi: Text, lo: Text)

  function HexOf(b: byte): int {
    if 48 <= b <= 57 then (b - 48) as int
    else if 97 <= b <= 102 then (b - 97) as int + 10
    else if 65 <= b <= 70 then (b - 65) as int + 10
    else -1
  }

  predicate FourHex(d: Text) {
    |d| == 4 && forall i :: 0 <= i < 4 ==> 0 <= HexOf(d[i])
  }

  function UnitOf(d: Text): nat
    requires FourHex(d)
  {
    ((HexOf(d[0]) * 16 + HexOf(d[1])) * 16 + HexOf(d[2])) * 16 + HexOf(d[3])
  }

  predicate IsShort(b: byte) {
    b == QUOTE || b == BACKSLASH || b == 47 || b == 98 || b == 102 || b == 110 || b == 114 || b == 116
  }

  /** Quotation mark, reverse solidus and solidus stand for themselves; b, f, n, r and t for
      backspace, form feed, line feed, carriage return and tab. */
  function ShortMeaning(b: byte): byte
    requires IsShort(b)
  {
    if b == 98 then 0x08
    else if b == 102 then 0x0C
    else if b == 110 then 0x0A
    else if b == 114 then 0x0D
    else if b == 116 then 0x09
    else b
  }

  /** No NUL, and surrogates only in pairs. */
  predicate ValidChar(c: Char) {
    match c
    case Plain(b) => 0x20 <= b && b != QUOTE && b != BACKSLASH
    case Short(b) => IsShort(b)
    case Unit(d) => FourHex(d) && UnitOf(d) != 0 && !(0xD800 <= UnitOf(d) < 0xE000)
    case Pair(hi, lo) => FourHex(hi) && FourHex(lo) && 0xD800 <= UnitOf(hi) < 0xDC00 <= UnitOf(lo) < 0xE000
  }

  function CharText(c: Char): Text {
    match c
    case Plain(b) => [b]
    case Short(b) => [BACKSLASH, b]
    case Unit(d) => [BACKSLASH, LETTER_U] + d
    case Pair(hi, lo) => [BACKSLASH, LETTER_U] + hi + ([BACKSLASH, LETTER_U] + lo)
  }

  function CharMeaning(c: Char): Text
    requires ValidChar(c)
  {
    match c
    case Plain(b) => [b]
    case Short(b) => [ShortMeaning(b)]
    case Unit(d) => Utf8(UnitOf(d))
    case Pair(hi, lo) => Utf8(0x1_0000 + (UnitOf(hi) - 0xD800) * 0x400 + (UnitOf(lo) - 0xDC00))
  }

  predicate ValidChars(s: seq<Char>) {
    forall i :: 0 <= i < |s| ==> ValidChar(s[i])
  }

  function BodyText(s: seq<Char>): Text {
    if s == [] then [] else CharText(s[0]) + BodyText(s[1..])
  }

  function BodyMeaning(s: seq<Char>): Text
    requires ValidChars(s)
  {
    if s == [] then [] else CharMeaning(s[0]) + BodyMeaning(s[1..])
  }

  lemma HexIs(d: Text, rest: Text)
    requires FourHex(d)
    ensures Hex4(d + rest) == UnitOf(d) && (d + rest)[4..] == rest
  {
    var t := d + rest;
    assert t[0] == d[0] && t[1] == d[1] && t[2] == d[2] && t[3] == d[3];
  }

  lemma PairIs(hi: Text, lo: Text, rest: Text)
    requires ValidChar(Pair(hi, lo))
    ensures NextChar(CharText(Pair(hi, lo)) + rest) == Ok(CharMeaning(Pair(hi, lo)), rest)
  {
    hide Utf8, Hex4, UnitOf, FourHex;
    var u := [BACKSLASH, LETTER_U] + (lo + rest);
    var t := CharText(Pair(hi, lo)) + rest;
    assert t[2..] == hi + u;
    HexIs(hi, u);
    assert u[1..][0] == LETTER_U;
    assert u[2..] == lo + rest;
    HexIs(lo, rest);
    assert u[6..] == u[2..][4..];
    assert SecondHalf(UnitOf(hi), u) == Ok(CharMeaning(Pair(hi, lo)), rest);
  }

  lemma CharIs(c: Char, rest: Text)
    requires ValidChar(c)
    ensures var t := CharText(c) + rest; !EndsString(t) && NextChar(t) == Ok(CharMeaning(c), rest)
  {
    hide Utf8, Hex4, UnitOf;
    var t := CharText(c) + rest;
    match c {
      case Plain(b) => Drop(b, rest);
      case Short(b) => assert t[2..] == rest;
      case Unit(d) => assert t[2..] == d + rest; HexIs(d, rest);
      case Pair(hi, lo) => PairIs(hi, lo, rest);
    }
  }

  /** Every string body of the grammar is read as what it means. */
  lemma {:induction false} BodyIs(s: seq<Char>, rest: Text)
    requires ValidChars(s)
    ensures Unescape(BodyText(s) + ([QUOTE] + rest)) == Ok(BodyMeaning(s), [QUOTE] + rest)
    decreases |s|
  {
    hide NextChar, CharText, CharMeaning, ValidChar;
    var tail := [QUOTE] + rest;
    if s == [] {
      assert BodyText(s) + tail == tail;
    } else {
      Assoc(CharText(s[0]), BodyText(s[1..]), tail);
      CharIs(s[0], BodyText(s[1..]) + tail);
      BodyIs(s[1..], rest);
    }
  }

  function StringText(s: seq<Char>): Text {
    [QUOTE] + (BodyText(s) + [QUOTE])
  }

  lemma StringIs(s: seq<Char>, rest: Text)
    requires ValidChars(s)
    ensures ParseString(StringText(s) + rest) == Ok(BodyMeaning(s), rest) && Head(StringText(s) + rest) == QUOTE
  {
    hide Unescape;
    var t := StringText(s) + rest;
    Assoc(BodyText(s), [QUOTE], rest);
    assert t == [QUOTE] + (BodyText(s) + ([QUOTE] + rest));
    Drop(QUOTE, BodyText(s) + ([QUOTE] + rest));
    BodyIs(s, rest);
    Drop(QUOTE, rest);
  }

  /** Of a body by the grammar: the code units are not zero, and surrogates come in pairs. */
  predicate Paired(t: Text)
    requires RfcChars(t)
    decreases |t|
  {
    if t == [] then true
    else if t[0] != BACKSLASH then Paired(t[1..])
    else if t[1] != LETTER_U then Paired(t[2..])
    else
      FourHex(t[2..6]) &&
      var v := UnitOf(t[2..6]);
      if 0xD800 <= v < 0xDC00 then
        && 12 <= |t| && t[6] == BACKSLASH && t[7] == LETTER_U && FourHex(t[8..12]) && RfcChars(t[12..])
        && 0xDC00 <= UnitOf(t[8..12]) < 0xE000 && Paired(t[12..])
      else v != 0 && !(0xDC00 <= v < 0xE000) && Paired(t[6..])
  }

  lemma OneChar(c: Char, s: seq<Char>, t: Text)
    requires ValidChar(c) && ValidChars(s) && CharText(c) <= t && BodyText(s) == t[|CharText(c)|..]
    ensures ValidChars([c] + s) && BodyText([c] + s) == t
  {
    hide ValidChar, CharText;
    assert ([c] + s)[1..] == s;
    assert CharText(c) + t[|CharText(c)|..] == t;
  }

  lemma ShortIs(t: Text)
    requires RfcChars(t) && t != [] && t[0] == BACKSLASH && t[1] != LETTER_U
    ensures ValidChar(Short(t[1])) && CharText(Short(t[1])) <= t && RfcChars(t[2..])
  {
  }

  lemma PairSpelled(t: Text)
    requires 12 <= |t| && t[0] == BACKSLASH && t[1] == LETTER_U && t[6] == BACKSLASH && t[7] == LETTER_U
    ensures CharText(Pair(t[2..6], t[8..12])) <= t && |CharText(Pair(t[2..6], t[8..12]))| == 12
  {
  }

  /** Every such body is spelled by characters. */
  lemma {:induction false} Spelled(t: Text) returns (s: seq<Char>)
    requires RfcChars(t) && Paired(t)
    ensures ValidChars(s) && BodyText(s) == t
    decreases |t|
  {
    hide UnitOf, FourHex;
    if t == [] {
      s := [];
    } else if t[0] != BACKSLASH {
      s := Spelled(t[1..]);
      OneChar(Plain(t[0]), s, t);
      s := [Plain(t[0])] + s;
    } else if t[1] != LETTER_U {
      ShortIs(t);
      s := Spelled(t[2..]);
      OneChar(Short(t[1]), s, t);
      s := [Short(t[1])] + s;
    } else if 0xD800 <= UnitOf(t[2..6]) < 0xDC00 {
      PairSpelled(t);
      s := Spelled(t[12..]);
      OneChar(Pair(t[2..6], t[8..12]), s, t);
      s := [Pair(t[2..6], t[8..12])] + s;
    } else {
      s := Spelled(t[6..]);
      assert |t[2..6]| == 4 by { FourLong(t); }
      OneChar(Unit(t[2..6]), s, t);
      s := [Unit(t[2..6])] + s;
    }
  }

  lemma FourLong(t: Text)
    requires 6 <= |t|
    ensures |t[2..6]| == 4
  {
  }

  /** Every string body of RFC 8259 without code unit zero and lone surrogates is read as what its
      characters mean. */
  lemma BodyMeaningIs(t: Text, rest: Text) returns (s: seq<Char>)
    requires RfcChars(t) && Paired(t)
    ensures ValidChars(s) && BodyText(s) == t
    ensures Unescape(t + ([QUOTE] + rest)) == Ok(BodyMeaning(s), [QUOTE] + rest)
  {
    s := Spelled(t);
    BodyIs(s, rest);
  }

  // ----- Digits ----------------------------------------------------------------------

  /** The number that digits stand for. */
  function DigitsValue(d: Text): nat
    requires forall i :: 0 <= i < |d| ==> 48 <= d[i] <= 57
  {
    if d == [] then 0 else 10 * DigitsValue(d[..|d|-1]) + (d[|d|-1] - 48) as nat
  }

  lemma {:induction false} DigitsAre(d: Text, k: nat, rest: Text)
    requires (forall i :: 0 <= i < |d| ==> 48 <= d[i] <= 57) && k <= |d| && !IsDigit(Head(rest))
    ensures ParseDigits(d[k..] + rest, DigitsValue(d[..k])) == (DigitsValue(d), rest)
    decreases |d| - k
  {
    if k == |d| {
      assert d[..k] == d && d[k..] + rest == rest;
    } else {
      assert d[k..] + rest == [d[k]] + (d[k + 1..] + rest);
      Drop(d[k], d[k + 1..] + rest);
      assert d[..k + 1][..k] == d[..k];
      DigitsAre(d, k + 1, rest);
    }
  }

  lemma NothingYet()
    ensures DigitsValue([]) == 0
  {
  }
}
