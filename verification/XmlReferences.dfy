/** What the references in a text stand for. */
module XmlReferences {
  // GetStr on texts that are spelled by any mixture of plain bytes, line ends, entities of the
  // table, and decimal and hexadecimal character references.

  import opened HashIndex
  import opened Bytes
  import opened Unicode
  import opened XmlText

  const WORD: nat := 0x1_0000_0000

  // ----- Numerals --------------------------------------------------------------------

  function Base(hex: bool): nat {
    if hex then 16 else 10
  }

  predicate AllDigits(d: Text, hex: bool) {
    forall i :: 0 <= i < |d| ==> 0 <= DigitValue(d[i], hex)
  }

  /** The number that digits stand for. */
  function ValueOf(d: Text, hex: bool): nat
    requires AllDigits(d, hex)
  {
    if d == [] then 0 else ValueOf(d[..|d|-1], hex) * Base(hex) + DigitValue(d[|d|-1], hex)
  }

  /** The numeral without leading zeros, with small letters for hexadecimal digits. */
  function NumeralOf(c: nat, hex: bool): Text {
    if c < Base(hex) then [DigitOf(c)] else NumeralOf(c / Base(hex), hex) + [DigitOf(c % Base(hex))]
  }

  function DigitOf(v: nat): byte
    requires v < 16
  {
    if v < 10 then 48 + v as byte else 87 + v as byte
  }

  lemma DigitBack(v: nat, hex: bool)
    requires v < Base(hex)
    ensures DigitValue(DigitOf(v), hex) == v
  {
  }

  lemma {:induction false} NumeralBack(c: nat, hex: bool)
    ensures AllDigits(NumeralOf(c, hex), hex) && ValueOf(NumeralOf(c, hex), hex) == c && NumeralOf(c, hex) != []
  {
    hide DigitValue, DigitOf;
    var d := NumeralOf(c, hex);
    if c < Base(hex) {
      DigitBack(c, hex);
      assert d[..0] == [];
    } else {
      NumeralBack(c / Base(hex), hex);
      DigitBack(c % Base(hex), hex);
      assert d[..|d|-1] == NumeralOf(c / Base(hex), hex);
    }
  }

  // ----- The backward loop -----------------------------------------------------------

  lemma ModShift(x: nat, q: nat)
    ensures (x + q * WORD) % WORD == x % WORD
  {
    ModIs(x + q * WORD, WORD, x / WORD + q, x % WORD);
  }

  /** One turn of the loop, on the numbers. */
  lemma TurnValue(code: nat, mult: nat, digit: nat, base: nat, v: nat)
    ensures ((code + mult * digit % WORD) % WORD + mult * base % WORD * v) % WORD
      == (code + mult * (v * base + digit)) % WORD
  {
    var q1 := mult * digit / WORD;
    var s := code + mult * digit % WORD;
    var q2 := s / WORD;
    var q3 := mult * base / WORD;
    var x := s % WORD + mult * base % WORD * v;
    assert mult * base % WORD == mult * base - q3 * WORD;
    assert mult * base % WORD * v == mult * base * v - q3 * WORD * v;
    assert mult * (v * base + digit) == mult * base * v + mult * digit;
    assert q3 * WORD * v == q3 * v * WORD;
    ModShift(x, q1 + q2 + q3 * v);
  }

  /** The byte in front of the digits. */
  function MarkOf(hex: bool): byte {
    if hex then LETTER_X else HASH
  }

  lemma MarkIsNoDigit(hex: bool)
    ensures DigitValue(MarkOf(hex), hex) < 0
  {
  }

  /** From position `i` back to the mark at `j`: the number of the digits between them, or a
      failure if there is anything else. */
  lemma {:induction false} CodeBackIs(t: Text, j: nat, i: nat, hex: bool, mult: nat, code: nat)
    requires 1 <= j <= i < |t| && t[j] == MarkOf(hex) && (forall q :: j < q <= i ==> t[q] != MarkOf(hex)) && code < WORD
    ensures AllDigits(t[j + 1..i + 1], hex) ==>
      CodeBack(t, i, hex, mult, code) == Total(code, mult, ValueOf(t[j + 1..i + 1], hex))
    ensures !AllDigits(t[j + 1..i + 1], hex) ==> CodeBack(t, i, hex, mult, code) == -1
    decreases i
  {
    hide DigitValue, CodeBack, Total, ValueOf, Base;
    var d := t[j + 1..i + 1];
    if i == j {
      CodeBackEnds(t, i, hex, mult, code);
    } else {
      var v := DigitValue(t[i], hex);
      var before := t[j + 1..i];
      assert d == before + [t[i]];
      CodeBackStep(t, i, hex, mult, code);
      if v < 0 {
        assert d[|d|-1] == t[i];
      } else {
        OneMoreDigit(before, t[i], hex);
        var code', mult' := (code + mult * v % WORD) % WORD, mult * Base(hex) % WORD;
        CodeBackIs(t, j, i - 1, hex, mult', code');
        if AllDigits(before, hex) {
          assert Total(code', mult', ValueOf(before, hex)) == Total(code, mult, ValueOf(d, hex)) by {
            TotalStep(code, mult, before, t[i], hex);
          }
        }
      }
    }
  }

  /** What the loop adds up to. */
  function Total(code: nat, mult: nat, v: nat): nat {
    (code + mult * v) % WORD
  }

  lemma TotalStep(code: nat, mult: nat, before: Text, b: byte, hex: bool)
    requires AllDigits(before, hex) && AllDigits(before + [b], hex) && 0 <= DigitValue(b, hex)
    ensures Total((code + mult * DigitValue(b, hex) % WORD) % WORD, mult * Base(hex) % WORD, ValueOf(before, hex))
      == Total(code, mult, ValueOf(before + [b], hex))
  {
    hide DigitValue, Base;
    assert (before + [b])[..|before|] == before;
    TurnValue(code, mult, DigitValue(b, hex), Base(hex), ValueOf(before, hex));
  }

  lemma TotalAlone(v: nat)
    ensures Total(0, 1, v) == v % WORD
  {
  }

  lemma CodeBackEnds(t: Text, i: nat, hex: bool, mult: nat, code: nat)
    requires i < |t| && t[i] == MarkOf(hex) && code < WORD
    ensures t[i + 1..i + 1] == [] && AllDigits([], hex)
    ensures CodeBack(t, i, hex, mult, code) == Total(code, mult, ValueOf([], hex))
  {
    NothingAdded(code, mult);
  }

  lemma CodeBackStep(t: Text, i: nat, hex: bool, mult: nat, code: nat)
    requires 0 < i < |t| && t[i] != MarkOf(hex)
    ensures var v := DigitValue(t[i], hex);
      CodeBack(t, i, hex, mult, code) ==
        if v < 0 then -1 else CodeBack(t, i - 1, hex, mult * Base(hex) % WORD, (code + mult * v % WORD) % WORD)
  {
    hide DigitValue;
  }

  lemma OneMoreDigit(d: Text, b: byte, hex: bool)
    requires 0 <= DigitValue(b, hex)
    ensures AllDigits(d + [b], hex) <==> AllDigits(d, hex)
  {
    if AllDigits(d + [b], hex) {
      forall i | 0 <= i < |d| ensures 0 <= DigitValue(d[i], hex) { assert (d + [b])[i] == d[i]; }
    }
  }

  lemma NothingAdded(code: nat, mult: nat)
    requires code < WORD
    ensures (code + mult * 0) % WORD == code
  {
  }

  // ----- Character references --------------------------------------------------------

  /** The position of the last mark before `k`. */
  predicate LastMark(t: Text, j: nat, k: nat, hex: bool) {
    j < k <= |t| && t[j] == MarkOf(hex) && forall q :: j < q < k ==> t[q] != MarkOf(hex)
  }

  /** A character reference in full: it is kept as text exactly if there is no semicolon, or a byte
      that is no digit comes between the last mark and the semicolon; otherwise it stands for the
      number of those digits, modulo the width of an unsigned int. */
  lemma CharacterRefIs(t: Text, j: nat)
    requires 3 <= |t| && t[0] == AMP && t[1] == HASH
    ensures var hex := t[2] == LETTER_X;
      var k := FindSemicolon(t, if hex then 3 else 2);
      && (k == |t| ==> CharacterRef(t) == Piece(1, [AMP]))
      && (k < |t| && 1 <= j && LastMark(t, j, k, hex) ==>
            CharacterRef(t) == if AllDigits(t[j + 1..k], hex) then Piece(k + 1, Utf8(ValueOf(t[j + 1..k], hex) % WORD))
                               else Piece(1, [AMP]))
  {
    hide CodeBack, Utf8, ValueOf, DigitValue, AllDigits, Total, FindSemicolon;
    var hex := t[2] == LETTER_X;
    var k := FindSemicolon(t, if hex then 3 else 2);
    if k < |t| && 1 <= j && LastMark(t, j, k, hex) {
      CodeBackIs(t, j, k - 1, hex, 1, 0);
      if AllDigits(t[j + 1..k], hex) { TotalAlone(ValueOf(t[j + 1..k], hex)); }
    }
  }

  function RefText(d: Text, hex: bool): Text {
    (if hex then [AMP, HASH, LETTER_X] else [AMP, HASH]) + d + [SEMICOLON]
  }

  lemma {:induction false} SemicolonAt(t: Text, i: nat, k: nat)
    requires i <= k < |t| && t[k] == SEMICOLON && forall q :: i <= q < k ==> t[q] != SEMICOLON
    ensures FindSemicolon(t, i) == k
    decreases k - i
  {
    if i < k { SemicolonAt(t, i + 1, k); }
  }

  /** A reference by any digits of its base, leading zeros and either case included. */
  lemma DigitsRef(d: Text, hex: bool, rest: Text)
    requires AllDigits(d, hex)
    ensures CharacterRef(RefText(d, hex) + rest) == Piece(|RefText(d, hex)|, Utf8(ValueOf(d, hex) % WORD))
    ensures var t := RefText(d, hex) + rest; t[0] == AMP && t[1] == HASH
  {
    hide Utf8, CharacterRef;
    var t := RefText(d, hex) + rest;
    var from := if hex then 3 else 2;
    var k := from + |d|;
    assert t[from..k] == d && t[k] == SEMICOLON;
    forall q | from <= q < k ensures t[q] == d[q - from] {}
    if !hex { assert t[2] == if d == [] then SEMICOLON else d[0]; }
    SemicolonAt(t, from, k);
    assert LastMark(t, from - 1, k, hex);
    CharacterRefIs(t, from - 1);
  }

  /** A reference by the numeral of a code stands for the UTF-8 bytes of that code. */
  lemma ReferenceBack(c: nat, hex: bool, rest: Text)
    requires c < 0x20_0000
    ensures CharacterRef(RefText(NumeralOf(c, hex), hex) + rest) == Piece(|RefText(NumeralOf(c, hex), hex)|, Utf8(c))
  {
    hide Utf8, CharacterRef, NumeralOf;
    NumeralBack(c, hex);
    DigitsRef(NumeralOf(c, hex), hex, rest);
    ModIs(c, WORD, 0, c);
  }

  // ----- Whole texts -----------------------------------------------------------------

  /** A piece of a text: a plain byte, a line end as it is written, an entity of the table, or a
      character reference by its digits. */
  datatype Token = Plain(b: byte) | LineEnd(raw: Text) | Named(b: byte) | Number(digits: Text, hex: bool)

  predicate ValidToken(k: Token) {
    match k
    case Plain(b) => b != CR && b != LF && b != AMP
    case LineEnd(raw) => raw == [LF] || raw == [CR] || raw == [CR, LF] || raw == [LF, CR]
    case Named(b) => IsEscaped(b, false)
    case Number(d, hex) => AllDigits(d, hex)
  }

  function Spelling(k: Token): Text {
    match k
    case Plain(b) => [b]
    case LineEnd(raw) => raw
    case Named(b) => [AMP] + PatternOf(b) + [SEMICOLON]
    case Number(d, hex) => RefText(d, hex)
  }

  function Meaning(k: Token): Text
    requires ValidToken(k)
  {
    match k
    case Plain(b) => [b]
    case LineEnd(_) => [LF]
    case Named(b) => [b]
    case Number(d, hex) => Utf8(ValueOf(d, hex) % WORD)
  }

  function SpellAll(ks: seq<Token>): Text {
    if ks == [] then [] else Spelling(ks[0]) + SpellAll(ks[1..])
  }

  /** A line feed or a carriage return alone is not followed by the other one. */
  predicate Apart(k: Token, rest: Text) {
    k.LineEnd? ==> (k.raw == [LF] ==> Head(rest) != CR) && (k.raw == [CR] ==> Head(rest) != LF)
  }

  predicate ValidTokens(ks: seq<Token>) {
    ks != [] ==> ValidToken(ks[0]) && Apart(ks[0], SpellAll(ks[1..])) && ValidTokens(ks[1..])
  }

  function MeanAll(ks: seq<Token>): Text
    requires ValidTokens(ks)
  {
    if ks == [] then [] else Meaning(ks[0]) + MeanAll(ks[1..])
  }

  /** A token at the beginning of a text is one piece. */
  lemma TokenPiece(k: Token, rest: Text)
    requires ValidToken(k) && Apart(k, rest)
    ensures Spelling(k) != [] && NextPiece(Spelling(k) + rest, true) == Piece(|Spelling(k)|, Meaning(k))
  {
    hide Utf8, CharacterRef, KnownEntity;
    var t := Spelling(k) + rest;
    match k {
      case Plain(b) => Drop(b, rest);
      case LineEnd(raw) => if |raw| == 1 { Drop(raw[0], rest); } else { assert t[1..][0] == raw[1]; }
      case Named(b) => EntityBack(b, rest);
      case Number(d, hex) => DigitsRef(d, hex, rest); assert t[1..][0] == t[1];
    }
  }

  lemma {:induction false} TokensDecoded(raw: Text, p: nat, out: Text, ks: seq<Token>)
    requires |out| <= p <= |raw| && raw[p..] == SpellAll(ks) && ValidTokens(ks)
    ensures DecodeFrom(raw, p, out, true) == out + MeanAll(ks)
    decreases |ks|
  {
    hide NextPiece, DecodeFrom, Spelling, Meaning, ValidToken, Apart;
    if ks == [] {
      assert p == |raw|;
      DecodeEnd(raw, out);
      assert out + MeanAll(ks) == out;
    } else {
      TokenPiece(ks[0], SpellAll(ks[1..]));
      PieceAt(raw, p, out, true);
      var w := |Spelling(ks[0])|;
      Slice(raw, p, w);
      assert SpellAll(ks)[w..] == SpellAll(ks[1..]);
      TokensDecoded(raw, p + w, out + Meaning(ks[0]), ks[1..]);
      Assoc(out, Meaning(ks[0]), MeanAll(ks[1..]));
    }
  }

  /** GetStr gives what the tokens of a text stand for. */
  lemma TextMeaning(ks: seq<Token>)
    requires ValidTokens(ks)
    ensures Decode(SpellAll(ks), true) == MeanAll(ks)
  {
    var raw := SpellAll(ks);
    assert raw[0..] == raw;
    TokensDecoded(raw, 0, [], ks);
    assert [] + MeanAll(ks) == MeanAll(ks);
  }
}
