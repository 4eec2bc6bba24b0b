/** Numbers with fraction and exponent, as parse_number reads them, in exact arithmetic. */
module JsonDecimals {
  import opened Bytes
  import opened Json
  import opened JsonRoundTrip
  import opened JsonMeaning
  import opened JsonGrammar

  const POINT: byte := 46
  const PLUS: byte := 43

  /** 10^e */
  function Pow10(e: int): (r: real)
    ensures 0.0 < r
    decreases if e < 0 then -e else e
  {
    if e == 0 then 1.0 else if e > 0 then 10.0 * Pow10(e - 1) else Pow10(e + 1) / 10.0
  }

  /** +x * 10^e or -x * 10^e */
  function Scaled(negative: bool, x: real, e: int): real {
    (if negative then -1.0 else 1.0) * x * Pow10(e)
  }

  // ----- The loops of parse_number -----------------------------------------------------

  predicate IsE(b: byte) {
    b == 101 || b == 69
  }

  /** The digits of the fraction go on with the number `n`, and each one lowers the scale. */
  function Fraction(t: Text, n: nat, scale: int): (nat, int, Text) {
    if IsDigit(Head(t)) then Fraction(t[1..], 10 * n + (t[0] - ZERO) as nat, scale - 1) else (n, scale, t)
  }

  /** The exponent, after the letter. */
  function Exponent(t: Text): (int, Text) {
    var u := if Head(t) == PLUS || Head(t) == MINUS then t[1..] else t;
    var (m, w) := ParseDigits(u, 0);
    (if Head(t) == MINUS then -(m as int) else m as int, w)
  }

  function Mantissa(u: Text, n: nat): (nat, int, Text) {
    if Head(u) == POINT && IsDigit(Head(u[1..])) then Fraction(u[1..], n, 0) else (n, 0, u)
  }

  function PowerHere(v: Text): (int, Text) {
    if IsE(Head(v)) then Exponent(v[1..]) else (0, v)
  }

  /** The number at the beginning of the text, and what follows it. */
  function ParseDecimal(t: Text): (real, Text)
    requires Head(t) == MINUS || IsDigit(Head(t))
  {
    var (n, u) := DigitsHere(AfterZero(AfterSign(t)));
    var (m, scale, v) := Mantissa(u, n);
    var (e, w) := PowerHere(v);
    (Scaled(Head(t) == MINUS, m as real, scale + e), w)
  }

  /** sign * n * pow(10.0, e) */
  function Product(sign: int, n: nat, e: int): real {
    sign as real * n as real * Pow10(e)
  }

  lemma ProductIs(negative: bool, n: nat, e: int)
    ensures Product(if negative then -1 else 1, n, e) == Scaled(negative, n as real, e)
  {
    hide Pow10;
  }

  method ReadDigits(t: Text, start: nat) returns (n: nat, u: Text)
    ensures (n, u) == ParseDigits(t, start)
  {
    n, u := start, t;
    while IsDigit(Head(u))
      invariant ParseDigits(u, n) == ParseDigits(t, start)
      decreases |u|
    {
      n, u := n * 10 + (u[0] - ZERO) as nat, u[1..];
    }
  }

  method ReadFraction(t: Text, start: nat) returns (n: nat, scale: int, u: Text)
    ensures (n, scale, u) == Fraction(t, start, 0)
  {
    n, scale, u := start, 0, t;
    while IsDigit(Head(u))
      invariant Fraction(u, n, scale) == Fraction(t, start, 0)
      decreases |u|
    {
      n, u, scale := n * 10 + (u[0] - ZERO) as nat, u[1..], scale - 1;
    }
  }

  method ReadExponent(t: Text) returns (e: int, u: Text)
    ensures (e, u) == Exponent(t)
  {
    var signsubscale: int := 1;
    u := t;
    if Head(u) == PLUS { u := u[1..]; } else if Head(u) == MINUS { signsubscale, u := -1, u[1..]; }
    var subscale;
    subscale, u := ReadDigits(u, 0);
    e := subscale * signsubscale;
  }

  /** parse_number */
  method ReadDecimal(t: Text) returns (value: real, num: Text)
    requires Head(t) == MINUS || IsDigit(Head(t))
    ensures (value, num) == ParseDecimal(t)
  {
    hide ParseDigits, Fraction, Exponent, Scaled, Product;
    var n: nat, sign: int, scale: int, e: int := 0, 1, 0, 0;
    num := t;
    if Head(num) == MINUS { sign, num := -1, num[1..]; }
    if Head(num) == ZERO { num := num[1..]; }
    if 49 <= Head(num) <= 57 { n, num := ReadDigits(num, 0); }
    if Head(num) == POINT && IsDigit(Head(num[1..])) { n, scale, num := ReadFraction(num[1..], n); }
    if IsE(Head(num)) { e, num := ReadExponent(num[1..]); }
    value := Product(sign, n, scale + e);
    ProductIs(Head(t) == MINUS, n, scale + e);
  }

  /** Where Json models the number, it is the integer of the same value. */
  lemma IntegersAgree(t: Text)
    requires (Head(t) == MINUS || IsDigit(Head(t))) && ParseNumber(t).Ok?
    ensures ParseNumber(t).value.Number?
    ensures ParseDecimal(t) == (ParseNumber(t).value.n as real, ParseNumber(t).rest)
  {
    hide ParseDigits, ParseNumber;
    NumberBy(t);
  }

  // ----- Numbers of section 6 of RFC 8259 ------------------------------------------------

  /** The exponent as it is written. */
  datatype Power = NoPower | Power(letter: byte, sign: Text, digits: Text)

  predicate RfcInt(d: Text) {
    AllDecimal(d) && d != [] && (d[0] == ZERO ==> |d| == 1)
  }

  predicate RfcPower(p: Power) {
    p.Power? ==>
      && IsE(p.letter) && (p.sign == [] || p.sign == [PLUS] || p.sign == [MINUS])
      && p.digits != [] && AllDecimal(p.digits)
  }

  function PowerThen(p: Power, rest: Text): Text {
    if p.NoPower? then rest else [p.letter] + (p.sign + (p.digits + rest))
  }

  /** A sign, an integer, a fraction unless it is empty, and an exponent, followed by `rest`. */
  function DecimalThen(negative: bool, d: Text, fraction: Text, p: Power, rest: Text): Text {
    var u := PowerThen(p, rest);
    Opt(negative, MINUS) + (d + if fraction == [] then u else [POINT] + (fraction + u))
  }

  /** 0.d1 d2 ... */
  function FractionValue(d: Text): real
    requires AllDecimal(d)
  {
    if d == [] then 0.0 else ((d[0] - 48) as real + FractionValue(d[1..])) / 10.0
  }

  function PowerValue(p: Power): int
    requires RfcPower(p)
  {
    if p.NoPower? then 0
    else if p.sign == [MINUS] then -(DigitsValue(p.digits) as int)
    else DigitsValue(p.digits) as int
  }

  function Denoted(negative: bool, d: Text, fraction: Text, p: Power): real
    requires RfcInt(d) && AllDecimal(fraction) && RfcPower(p)
  {
    Scaled(negative, DigitsValue(d) as real + FractionValue(fraction), PowerValue(p))
  }

  /** Each digit of the fraction counts ten times less. */
  lemma {:induction false} FractionIs(d: Text, n: nat, scale: int, rest: Text)
    requires AllDecimal(d) && !IsDigit(Head(rest))
    ensures var r := Fraction(d + rest, n, scale);
      r.2 == rest && r.1 == scale - |d| && r.0 as real * Pow10(-|d|) == n as real + FractionValue(d)
    decreases |d|
  {
    if d == [] {
      assert d + rest == rest;
    } else {
      assert d + rest == [d[0]] + (d[1..] + rest);
      Drop(d[0], d[1..] + rest);
      FractionIs(d[1..], 10 * n + (d[0] - ZERO) as nat, scale - 1, rest);
      var m := Fraction(d + rest, n, scale).0;
      assert m as real * (Pow10(-|d[1..]|) / 10.0) == (m as real * Pow10(-|d[1..]|)) / 10.0;
    }
  }

  lemma PowerStep(e: int)
    ensures Pow10(e + 1) == 10.0 * Pow10(e)
  {
  }

  lemma Times(x: real, y: real, z: real)
    ensures (x * y) * z == x * (y * z)
  {
  }

  lemma {:induction false} PowersAdd(a: int, b: int)
    ensures Pow10(a + b) == Pow10(a) * Pow10(b)
    decreases if b < 0 then -b else b
  {
    hide Pow10;
    if b == 0 {
      NoFraction();
    } else if b > 0 {
      PowersAdd(a, b - 1);
      StepUp(a, b - 1);
    } else {
      PowersAdd(a, b + 1);
      StepDown(a, b);
    }
  }

  lemma StepUp(a: int, b: int)
    requires Pow10(a + b) == Pow10(a) * Pow10(b)
    ensures Pow10(a + (b + 1)) == Pow10(a) * Pow10(b + 1)
  {
    PowerStep(a + b);
    PowerStep(b);
    hide Pow10;
    assert a + (b + 1) == a + b + 1;
    var p, q := Pow10(a), Pow10(b);
    assert 10.0 * (p * q) == p * (10.0 * q);
  }

  lemma StepDown(a: int, b: int)
    requires Pow10(a + (b + 1)) == Pow10(a) * Pow10(b + 1)
    ensures Pow10(a + b) == Pow10(a) * Pow10(b)
  {
    PowerStep(a + b);
    PowerStep(b);
    hide Pow10;
    assert a + (b + 1) == a + b + 1;
    var p, q := Pow10(a), Pow10(b);
    assert 10.0 * (p * q) == p * (10.0 * q);
  }

  // ----- Every number of the grammar is read as what it denotes ---------------------------

  predicate Ends(rest: Text) {
    !IsDigit(Head(rest)) && Head(rest) != POINT && !IsE(Head(rest))
  }

  lemma ExponentIs(p: Power, rest: Text)
    requires RfcPower(p) && p.Power? && !IsDigit(Head(rest))
    ensures Exponent(p.sign + (p.digits + rest)) == (PowerValue(p), rest)
  {
    hide DigitsValue, ParseDigits;
    var u := p.digits + rest;
    NothingYet();
    DigitsAre(p.digits, 0, rest);
    assert p.digits[0..] == p.digits && p.digits[..0] == [];
    assert u[0] == p.digits[0];
    if p.sign == [] { assert p.sign + u == u; } else { Drop(p.sign[0], u); }
  }

  lemma PowerIs(p: Power, rest: Text)
    requires RfcPower(p) && Ends(rest)
    ensures var v := PowerThen(p, rest);
      && !IsDigit(Head(v)) && Head(v) != POINT
      && PowerHere(v) == (PowerValue(p), rest)
  {
    hide DigitsValue, ParseDigits, Exponent;
    if p.Power? {
      Drop(p.letter, p.sign + (p.digits + rest));
      ExponentIs(p, rest);
    }
  }

  /** The integer part, after the sign. */
  lemma WholeIs(d: Text, rest: Text)
    requires RfcInt(d) && !IsDigit(Head(rest))
    ensures DigitsHere(AfterZero(d + rest)) == (DigitsValue(d), rest)
  {
    hide DigitsValue, DigitsHere;
    var t := d + rest;
    assert t[0] == d[0];
    if d[0] == ZERO {
      assert t[1..] == [] + rest;
      DigitsHereAre([], rest);
      NothingYet();
      OneMoreDigit([], ZERO);
      assert [] + [ZERO] == d;
    } else {
      DigitsHereAre(d, rest);
    }
  }

  /** The mantissa of a number whose exponent begins at `v`. */
  lemma MantissaIs(fraction: Text, n: nat, v: Text)
    requires AllDecimal(fraction) && !IsDigit(Head(v)) && Head(v) != POINT
    ensures var u := if fraction == [] then v else [POINT] + (fraction + v);
      var r := Mantissa(u, n);
      && !IsDigit(Head(u)) && r.2 == v && r.1 == -|fraction|
      && r.0 as real * Pow10(-|fraction|) == n as real + FractionValue(fraction)
  {
    hide Fraction, Pow10, FractionValue;
    if fraction == [] {
      NoFraction();
    } else {
      Drop(POINT, fraction + v);
      FractionIs(fraction, n, 0, v);
    }
  }

  lemma NoFraction()
    ensures FractionValue([]) == 0.0 && Pow10(0) == 1.0
  {
  }

  lemma ScaleIn(negative: bool, m: real, x: real, scale: int, e: int)
    requires m * Pow10(scale) == x
    ensures Scaled(negative, m, scale + e) == Scaled(negative, x, e)
  {
    PowersAdd(scale, e);
    hide Pow10;
    var sign := if negative then -1.0 else 1.0;
    Times(sign, m, Pow10(scale) * Pow10(e));
    Times(m, Pow10(scale), Pow10(e));
    Times(sign, x, Pow10(e));
  }

  /** Every number of RFC 8259, with or without sign, fraction and exponent, is read as the real
      number that it denotes, and the text after it is left. */
  lemma DecimalIs(negative: bool, d: Text, fraction: Text, p: Power, rest: Text)
    requires RfcInt(d) && AllDecimal(fraction) && RfcPower(p) && Ends(rest)
    ensures var t := DecimalThen(negative, d, fraction, p, rest);
      (Head(t) == MINUS || IsDigit(Head(t))) && ParseDecimal(t) == (Denoted(negative, d, fraction, p), rest)
  {
    hide Scaled, DigitsValue, FractionValue, Pow10, PowerThen, Mantissa, PowerHere, DigitsHere, AfterZero, PowerValue;
    var v := PowerThen(p, rest);
    var u := if fraction == [] then v else [POINT] + (fraction + v);
    var t := DecimalThen(negative, d, fraction, p, rest);
    PowerIs(p, rest);
    MantissaIs(fraction, DigitsValue(d), v);
    WholeIs(d, u);
    assert (d + u)[0] == d[0];
    if negative { Drop(MINUS, d + u); } else { assert t == d + u; }
    assert AfterSign(t) == d + u;
    var m := Mantissa(u, DigitsValue(d)).0;
    assert Head(t) == MINUS <==> negative;
    assert DigitsHere(AfterZero(AfterSign(t))) == (DigitsValue(d), u);
    ScaleIn(negative, m as real, DigitsValue(d) as real + FractionValue(fraction), -|fraction|, PowerValue(p));
  }
}
