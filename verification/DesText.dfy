/** The string framing of the cipher: blocks of four chars, three key strings, hex digits. */
module DesText {
  import opened HashIndex
  import opened Des
  import opened Options

  // ----- Chars and bits --------------------------------------------------------------

  /** Bit `j` of a char, from the top. */
  function UnitBit(c: Unit, j: nat): Bit
    requires j < 16
  {
    c / Pow2(15 - j) % 2
  }

  /** The number that bits stand for. */
  function ValueOf(s: Bits): nat {
    if s == [] then 0 else 2 * ValueOf(s[..|s|-1]) + s[|s|-1]
  }

  function UnitBits(c: Unit): (r: Bits)
    ensures |r| == 16
  {
    seq(16, j requires 0 <= j < 16 => UnitBit(c, j))
  }

  lemma HalfOfQuotient(c: nat, p: nat)
    requires 0 < p
    ensures c / p == 2 * (c / (2 * p)) + c / p % 2
  {
    var q, r := c / p, c % p;
    assert c == p * q + r;
    MulTwice(p, q / 2);
    QuotientIs(c, 2 * p, q / 2, if q % 2 == 0 then r else r + p);
  }

  lemma QuotientIs(c: nat, p: nat, q: nat, r: nat)
    requires 0 < p && r < p && c == p * q + r
    ensures c / p == q
  {
    ModIs(c, p, q, r);
  }

  lemma {:induction false} PrefixValue(c: Unit, j: nat)
    requires j <= 16
    ensures ValueOf(UnitBits(c)[..j]) == c / Pow2(16 - j)
  {
    if j == 0 {
      Pow2Of16();
    } else {
      PrefixValue(c, j - 1);
      assert UnitBits(c)[..j][..j-1] == UnitBits(c)[..j-1];
      HalfOfQuotient(c, Pow2(16 - j));
    }
  }

  lemma Pow2Of16()
    ensures Pow2(16) == 0x1_0000
  {
    assert Pow2(4) == 16 && Pow2(8) == 16 * Pow2(4) && Pow2(12) == 16 * Pow2(8) && Pow2(16) == 16 * Pow2(12);
  }

  /** A char is the value of its bits. */
  lemma UnitBack(c: Unit)
    ensures ValueOf(UnitBits(c)) == c
  {
    PrefixValue(c, 16);
    assert UnitBits(c)[..16] == UnitBits(c);
    assert Pow2(0) == 1;
  }

  lemma {:induction false} ValueBound(s: Bits)
    ensures ValueOf(s) < Pow2(|s|)
  {
    if s != [] { ValueBound(s[..|s|-1]); }
  }

  /** Char number `i` of a block: a short block is filled up with zeros. */
  function UnitAt(s: Str, i: nat): Unit {
    if i < |s| then s[i] else 0
  }

  /** strToBt */
  function StrToBt(s: Str): (r: Bits)
    ensures |r| == 64
  {
    seq(64, x requires 0 <= x < 64 => UnitBit(UnitAt(s, x / 16), x % 16))
  }

  function NonZero(c: Unit): Str {
    if c == 0 then [] else [c]
  }

  function Word(s: Bits, i: nat): (c: Unit)
    requires |s| == 64 && i < 4
  {
    ValueBound(s[16 * i..16 * i + 16]);
    Pow2Of16();
    ValueOf(s[16 * i..16 * i + 16])
  }

  /** byteToString: zero chars are left out. */
  function ByteToString(s: Bits): Str
    requires |s| == 64
  {
    NonZero(Word(s, 0)) + NonZero(Word(s, 1)) + NonZero(Word(s, 2)) + NonZero(Word(s, 3))
  }

  function WithoutZeros(s: Str): Str {
    if s == [] then [] else NonZero(s[0]) + WithoutZeros(s[1..])
  }

  lemma WordBack(s: Str, i: nat)
    requires i < 4
    ensures Word(StrToBt(s), i) == UnitAt(s, i)
  {
    hide UnitBit;
    var b := StrToBt(s)[16 * i..16 * i + 16];
    forall j: nat | j < 16 ensures b[j] == UnitBit(UnitAt(s, i), j) {
      assert (16 * i + j) / 16 == i && (16 * i + j) % 16 == j;
    }
    assert b == UnitBits(UnitAt(s, i));
    UnitBack(UnitAt(s, i));
  }

  lemma {:induction false} WithoutZerosParts(a: Str, b: Str)
    ensures WithoutZeros(a + b) == WithoutZeros(a) + WithoutZeros(b)
    decreases |a|
  {
    if a == [] {
      assert a + b == b;
    } else {
      assert (a + b)[1..] == a[1..] + b;
      WithoutZerosParts(a[1..], b);
    }
  }

  /** A block of at most four chars comes back without its zeros. */
  lemma BlockBack(s: Str)
    requires |s| <= 4
    ensures ByteToString(StrToBt(s)) == WithoutZeros(s)
  {
    hide Word, StrToBt, UnitAt, WithoutZeros, NonZero;
    WordBack(s, 0);
    WordBack(s, 1);
    WordBack(s, 2);
    WordBack(s, 3);
    FourUnits(Pad(s));
    PadPrefix(s);
    PadZeros(s);
    ZerosAway(s, Pad(s));
  }

  lemma PadZeros(s: Str)
    requires |s| <= 4
    ensures forall i :: |s| <= i < 4 ==> Pad(s)[i] == 0
  {
  }

  function Pad(s: Str): (u: Str)
    ensures |u| == 4
  {
    seq(4, i requires 0 <= i < 4 => UnitAt(s, i))
  }

  lemma PadPrefix(s: Str)
    requires |s| <= 4
    ensures Pad(s)[..|s|] == s
  {
  }

  lemma FourUnits(u: Str)
    requires |u| == 4
    ensures WithoutZeros(u) == NonZero(u[0]) + NonZero(u[1]) + NonZero(u[2]) + NonZero(u[3])
  {
    assert u[1..][1..] == u[2..] && u[2..][1..] == u[3..] && u[3..][1..] == [];
    assert WithoutZeros(u[3..]) == NonZero(u[3]) + [];
    assert WithoutZeros(u[2..]) == NonZero(u[2]) + WithoutZeros(u[3..]);
    assert WithoutZeros(u[1..]) == NonZero(u[1]) + WithoutZeros(u[2..]);
  }

  lemma ZerosAway(s: Str, u: Str)
    requires |s| <= |u| && u[..|s|] == s && forall i :: |s| <= i < |u| ==> u[i] == 0
    ensures WithoutZeros(u) == WithoutZeros(s)
  {
    assert u == s + u[|s|..];
    WithoutZerosParts(s, u[|s|..]);
    AllZeros(u[|s|..]);
  }

  lemma {:induction false} AllZeros(s: Str)
    requires forall i :: 0 <= i < |s| ==> s[i] == 0
    ensures WithoutZeros(s) == []
    decreases |s|
  {
    if s != [] { AllZeros(s[1..]); }
  }

  // ----- Hex digits ------------------------------------------------------------------

  function HexDigit(v: Nibble): Unit {
    if v < 10 then 48 + v else 55 + v
  }

  /** hexToBt4: either case; anything else gives no bits. */
  function DigitValue(c: Unit): Option<Nibble> {
    if 48 <= c <= 57 then Some(c - 48) else if 65 <= c <= 70 then Some(c - 55) else if 97 <= c <= 102 then Some(c - 87)
       else None
  }

  function NibbleOf(s: Bits, i: nat): Nibble
    requires 4 * i + 4 <= |s|
  {
    8 * (s[4 * i] as int) + 4 * (s[4 * i + 1] as int) + 2 * (s[4 * i + 2] as int) + s[4 * i + 3]
  }

  /** bt64ToHex */
  function Bt64ToHex(s: Bits): (r: Str)
    requires |s| == 64
    ensures |r| == 16
  {
    seq(16, i requires 0 <= i < 16 => HexDigit(NibbleOf(s, i)))
  }

  predicate AllDigits(h: Str) {
    forall i :: 0 <= i < |h| ==> DigitValue(h[i]).Some?
  }

  /** hexToBt64; with a char that is no digit there are too few bits for a block. */
  function HexToBt64(h: Str): (r: Option<Bits>)
    requires |h| == 16
    ensures r.Some? ==> |r.value| == 64
  {
    if AllDigits(h) then Some(seq(64, x requires 0 <= x < 64 => NibbleBits(DigitValue(h[x / 4]).value)[x % 4]))
       else None
  }

  lemma NibbleBack(s: Bits, i: nat, k: nat)
    requires 4 * i + 4 <= |s| && k < 4
    ensures NibbleBits(NibbleOf(s, i))[k] == s[4 * i + k]
  {
    assert k == 0 || k == 1 || k == 2 || k == 3;
  }

  lemma HexBack(s: Bits)
    requires |s| == 64
    ensures HexToBt64(Bt64ToHex(s)) == Some(s)
  {
    hide NibbleOf, NibbleBits;
    var h := Bt64ToHex(s);
    assert AllDigits(h);
    var b := HexToBt64(h).value;
    forall x: nat | x < 64 ensures b[x] == s[x] {
      NibbleBack(s, x / 4, x % 4);
      assert 4 * (x / 4) + x % 4 == x;
    }
    assert b == s;
  }

  /** The hex digits in their order, in upper and in lower case. */
  const DIGITS: Str := [48, 49, 50, 51, 52, 53, 54, 55, 56, 57, 65, 66, 67, 68, 69, 70]
  const LOWER_DIGITS: Str := [48, 49, 50, 51, 52, 53, 54, 55, 56, 57, 97, 98, 99, 100, 101, 102]

  lemma NibbleValue(s: Bits)
    requires |s| == 4
    ensures ValueOf(s) == NibbleOf(s, 0)
  {
    assert s[..3][..2] == s[..2] && s[..2][..1] == s[..1] && s[..1][..0] == [];
    assert ValueOf(s[..1]) == s[0] && ValueOf(s[..2]) == 2 * ValueOf(s[..1]) + s[1];
    assert ValueOf(s[..3]) == 2 * ValueOf(s[..2]) + s[2];
  }

  lemma DigitIs(v: Nibble)
    ensures HexDigit(v) == DIGITS[v] && LOWER_DIGITS[v] == if v < 10 then DIGITS[v] else DIGITS[v] + 32
    ensures DigitValue(DIGITS[v]) == DigitValue(LOWER_DIGITS[v]) == Some(v)
  {
    assert v == 0 || v == 1 || v == 2 || v == 3 || v == 4 || v == 5 || v == 6 || v == 7
      || v == 8 || v == 9 || v == 10 || v == 11 || v == 12 || v == 13 || v == 14 || v == 15;
  }

  /** Each four bits are written as the digit of their value. */
  lemma HexIs(s: Bits, i: nat)
    requires |s| == 64 && i < 16
    ensures ValueOf(s[4 * i..4 * i + 4]) < 16
    ensures Bt64ToHex(s)[i] == DIGITS[ValueOf(s[4 * i..4 * i + 4])]
  {
    NibbleValue(s[4 * i..4 * i + 4]);
    DigitIs(NibbleOf(s, i));
  }

  lemma ReadDigit(h: Str, i: nat)
    requires |h| == 16 && i < 16 && HexToBt64(h).Some?
    ensures DigitValue(h[i]).Some?
    ensures HexToBt64(h).value[4 * i..4 * i + 4] == NibbleBits(DigitValue(h[i]).value)
  {
    hide NibbleBits, DigitValue;
    var b := HexToBt64(h).value[4 * i..4 * i + 4];
    forall k: nat | k < 4 ensures b[k] == NibbleBits(DigitValue(h[i]).value)[k] {
      assert (4 * i + k) / 4 == i && (4 * i + k) % 4 == k;
    }
  }

  /** Sixteen chars are read as 64 bits exactly if all are hex digits of either case, and each
      gives the four bits of its value. */
  lemma HexRead(h: Str, i: nat)
    requires |h| == 16 && i < 16
    ensures HexToBt64(h).Some? <==> forall k :: 0 <= k < 16 ==> h[k] in DIGITS || h[k] in LOWER_DIGITS
    ensures HexToBt64(h).Some? ==>
      var v := ValueOf(HexToBt64(h).value[4 * i..4 * i + 4]);
      v < 16 && (h[i] == DIGITS[v] || h[i] == LOWER_DIGITS[v])
  {
    hide DIGITS, LOWER_DIGITS, DigitValue, NibbleBits, NibbleOf, ValueOf;
    forall k | 0 <= k < 16 ensures DigitValue(h[k]).Some? <==> h[k] in DIGITS || h[k] in LOWER_DIGITS { IsDigit(h[k]); }
    if HexToBt64(h).Some? {
      ReadDigit(h, i);
      NibbleValue(HexToBt64(h).value[4 * i..4 * i + 4]);
      IsDigit(h[i]);
    }
  }

  lemma BitsOfNibble(v: Nibble)
    ensures NibbleOf(NibbleBits(v), 0) == v
  {
  }

  /** The digits are the chars of the two tables. */
  lemma IsDigit(c: Unit)
    ensures DigitValue(c).Some? <==> c in DIGITS || c in LOWER_DIGITS
    ensures DigitValue(c).Some? ==>
      var v := DigitValue(c).value; (c == DIGITS[v] || c == LOWER_DIGITS[v]) && NibbleOf(NibbleBits(v), 0) == v
  {
    assert |DIGITS| == |LOWER_DIGITS| == 16;
    hide DIGITS, LOWER_DIGITS, NibbleBits, NibbleOf;
    if DigitValue(c).Some? {
      var v := DigitValue(c).value;
      DigitIs(v);
      BitsOfNibble(v);
      assert DIGITS[v] in DIGITS && LOWER_DIGITS[v] in LOWER_DIGITS;
    } else if c in DIGITS {
      var k :| 0 <= k < 16 && DIGITS[k] == c;
      DigitIs(k);
      assert false;
    } else if c in LOWER_DIGITS {
      var k :| 0 <= k < 16 && LOWER_DIGITS[k] == c;
      DigitIs(k);
      assert false;
    }
  }

  // ----- Key chains ------------------------------------------------------------------

  function First(s: Str, n: nat): Str {
    if |s| <= n then s else s[..n]
  }

  function Beyond(s: Str, n: nat): (r: Str)
    ensures s != [] && 0 < n ==> |r| < |s|
    ensures First(s, n) + r == s
  {
    if |s| <= n then [] else s[n..]
  }

  predicate Blocks(keys: seq<Bits>) {
    forall i :: 0 <= i < |keys| ==> |keys[i]| == 64
  }

  /** getKeyBytes */
  function KeyBytes(key: Str): (r: seq<Bits>)
    ensures Blocks(r) && (key != [] ==> r != [])
    decreases |key|
  {
    if key == [] then [] else [StrToBt(First(key, 4))] + KeyBytes(Beyond(key, 4))
  }

  /** The keys that a block goes through: the second key string needs the first, the third needs
      the second.  Without a first key there is no result at all. */
  function KeyChain(first: Str, second: Str, third: Str): (r: Option<seq<Bits>>)
    ensures r.Some? ==> Blocks(r.value)
  {
    if first == [] then None
    else if second == [] then Some(KeyBytes(first))
    else if third == [] then Some(KeyBytes(first) + KeyBytes(second))
    else Some(KeyBytes(first) + KeyBytes(second) + KeyBytes(third))
  }

  /** The chars that the blocks hold, zeros included. */
  function UnitsOf(keys: seq<Bits>): Str
    requires Blocks(keys)
  {
    if keys == [] then [] else Units(keys[0]) + UnitsOf(keys[1..])
  }

  function Units(s: Bits): Str
    requires |s| == 64
  {
    [Word(s, 0), Word(s, 1), Word(s, 2), Word(s, 3)]
  }

  /** A key string filled up with zeros to a multiple of four. */
  function Padded(key: Str): Str {
    key + seq((4 - |key| % 4) % 4, _ => 0)
  }

  lemma UnitsBack(s: Str)
    requires |s| <= 4
    ensures Units(StrToBt(s)) == Pad(s)
  {
    hide Word, StrToBt, UnitAt, WithoutZeros, NonZero;
    WordBack(s, 0);
    WordBack(s, 1);
    WordBack(s, 2);
    WordBack(s, 3);
  }

  lemma PaddedParts(key: Str)
    requires key != []
    ensures Padded(key) == Pad(First(key, 4)) + Padded(Beyond(key, 4))
  {
    if 4 < |key| {
      assert |key[4..]| % 4 == |key| % 4;
      assert key == key[..4] + key[4..];
    }
  }

  /** The key blocks hold the chars of the key string, and nothing else. */
  lemma {:induction false} KeyUnits(key: Str)
    ensures UnitsOf(KeyBytes(key)) == Padded(key)
    decreases |key|
  {
    hide StrToBt, Units, Padded, Pad;
    if key == [] {
      assert Padded([]) == [] by { NothingPadded(); }
    } else {
      UnitsBack(First(key, 4));
      KeyUnits(Beyond(key, 4));
      PaddedParts(key);
    }
  }

  lemma NothingPadded()
    ensures Padded([]) == []
  {
  }

  lemma {:induction false} UnitsOfParts(a: seq<Bits>, b: seq<Bits>)
    requires Blocks(a) && Blocks(b)
    ensures Blocks(a + b) && UnitsOf(a + b) == UnitsOf(a) + UnitsOf(b)
    decreases |a|
  {
    hide Units;
    if a == [] {
      assert a + b == b;
    } else {
      assert (a + b)[1..] == a[1..] + b;
      UnitsOfParts(a[1..], b);
    }
  }

  /** Which keys a block goes through: those of the first string, then those of the second, and
      those of the third if there is a second. */
  lemma ChainUnits(first: Str, second: Str, third: Str)
    requires first != []
    ensures KeyChain(first, second, third).Some?
    ensures UnitsOf(KeyChain(first, second, third).value) ==
      Padded(first) + (if second == [] then [] else Padded(second) + Padded(third))
  {
    hide KeyBytes, UnitsOf, Padded;
    KeyUnits(first);
    KeyUnits(second);
    KeyUnits(third);
    UnitsOfParts(KeyBytes(first), KeyBytes(second));
    UnitsOfParts(KeyBytes(first) + KeyBytes(second), KeyBytes(third));
    NothingPadded();
    assert Padded(first) + (Padded(second) + Padded(third)) == Padded(first) + Padded(second) + Padded(third);
  }

  function EncAll(data: Bits, keys: seq<Bits>): (r: Bits)
    requires |data| == 64 && Blocks(keys)
    ensures |r| == 64
  {
    if keys == [] then data else Enc(EncAll(data, keys[..|keys|-1]), keys[|keys|-1])
  }

  /** From the last key to the first. */
  function DecAll(data: Bits, keys: seq<Bits>): (r: Bits)
    requires |data| == 64 && Blocks(keys)
    ensures |r| == 64
    decreases |keys|
  {
    if keys == [] then data else DecAll(Dec(data, keys[|keys|-1]), keys[..|keys|-1])
  }

  lemma {:induction false} ChainUndone(data: Bits, keys: seq<Bits>)
    requires |data| == 64 && Blocks(keys)
    ensures DecAll(EncAll(data, keys), keys) == data
    decreases |keys|
  {
    hide Enc, Dec;
    if keys != [] {
      DecUndoesEnc(EncAll(data, keys[..|keys|-1]), keys[|keys|-1]);
      ChainUndone(data, keys[..|keys|-1]);
    }
  }

  /** A chain of keys: each key once, the first one first. */
  lemma {:induction false} ChainInOrder(data: Bits, a: seq<Bits>, b: seq<Bits>, key: Bits)
    requires |data| == 64 && Blocks(a) && Blocks(b) && |key| == 64
    ensures EncAll(data, [key]) == Enc(data, key)
    ensures Blocks(a + b) && EncAll(data, a + b) == EncAll(EncAll(data, a), b)
    decreases |b|
  {
    hide Enc;
    assert [key][..0] == [];
    if b == [] {
      assert a + b == a;
    } else {
      assert (a + b)[..|a + b|-1] == a + b[..|b|-1];
      ChainInOrder(data, a, b[..|b|-1], key);
    }
  }

  // ----- Whole strings ---------------------------------------------------------------

  function EncBlocks(data: Str, keys: seq<Bits>): (r: Str)
    requires Blocks(keys)
    decreases |data|
  {
    if data == [] then [] else Bt64ToHex(EncAll(StrToBt(First(data, 4)), keys)) + EncBlocks(Beyond(data, 4), keys)
  }

  lemma BeyondIs(s: Str, n: nat, m: nat)
    ensures Beyond(Beyond(s, n), m) == Beyond(s, n + m)
  {
  }

  lemma {:induction false} EncLength(data: Str, keys: seq<Bits>)
    requires Blocks(keys)
    ensures |EncBlocks(data, keys)| == 16 * ((|data| + 3) / 4)
    decreases |data|
  {
    hide Bt64ToHex, StrToBt, EncAll;
    if data != [] { EncLength(Beyond(data, 4), keys); }
  }

  lemma FirstBlock(data: Str, keys: seq<Bits>)
    requires Blocks(keys) && data != []
    ensures var head := Bt64ToHex(EncAll(StrToBt(First(data, 4)), keys));
      |head| == 16 && EncBlocks(data, keys) == head + EncBlocks(Beyond(data, 4), keys)
  {
  }

  /** The text has sixteen digits for each block of four chars, the last one filled up with zeros,
      and every block is encrypted by itself. */
  lemma {:induction false} BlockOf(data: Str, keys: seq<Bits>, i: nat)
    requires Blocks(keys) && 4 * i < |data|
    ensures |EncBlocks(data, keys)| == 16 * ((|data| + 3) / 4)
    ensures 16 * i + 16 <= |EncBlocks(data, keys)|
    ensures EncBlocks(data, keys)[16 * i..16 * i + 16] ==
      Bt64ToHex(EncAll(StrToBt(First(Beyond(data, 4 * i), 4)), keys))
    decreases |data|
  {
    hide Bt64ToHex, StrToBt, EncAll, EncBlocks, First;
    EncLength(data, keys);
    FirstBlock(data, keys);
    if i == 0 {
      assert Beyond(data, 0) == data;
    } else {
      var rest := Beyond(data, 4);
      BlockOf(rest, keys, i - 1);
      BeyondIs(data, 4, 4 * i - 4);
      assert EncBlocks(data, keys)[16 * i..16 * i + 16] == EncBlocks(rest, keys)[16 * (i - 1)..16 * (i - 1) + 16];
    }
  }

  /** strEnc; None where the code fails on a missing key. */
  function StrEnc(data: Str, first: Str, second: Str, third: Str): Option<Str> {
    if data == [] then Some([])
    else
      match KeyChain(first, second, third)
      case None => None
      case Some(keys) => Some(EncBlocks(data, keys))
  }

  function DecBlocks(data: Str, keys: seq<Bits>): (r: Option<Str>)
    requires Blocks(keys)
    decreases |data|
  {
    if |data| < 16 then Some([])
    else
      match HexToBt64(data[..16])
      case None => None
      case Some(b) =>
        match DecBlocks(data[16..], keys)
        case None => None
        case Some(rest) => Some(ByteToString(DecAll(b, keys)) + rest)
  }

  /** strDec: a rest of fewer than sixteen digits is ignored. */
  function StrDec(data: Str, first: Str, second: Str, third: Str): Option<Str> {
    if |data| < 16 then Some([])
    else
      match KeyChain(first, second, third)
      case None => None
      case Some(keys) => DecBlocks(data, keys)
  }

  lemma {:induction false} BlocksBack(data: Str, keys: seq<Bits>)
    requires Blocks(keys)
    ensures DecBlocks(EncBlocks(data, keys), keys) == Some(WithoutZeros(data))
    decreases |data|
  {
    hide Bt64ToHex, HexToBt64, StrToBt, ByteToString, EncAll, DecAll;
    if data != [] {
      var head, rest := First(data, 4), Beyond(data, 4);
      var e := EncAll(StrToBt(head), keys);
      var hex := Bt64ToHex(e);
      var all := EncBlocks(data, keys);
      assert all[..16] == hex && all[16..] == EncBlocks(rest, keys);
      HexBack(e);
      ChainUndone(StrToBt(head), keys);
      BlockBack(head);
      BlocksBack(rest, keys);
      WithoutZerosParts(head, rest);
    }
  }

  /** Decrypting what was encrypted with the same key strings gives the string without its
      zero chars.  Encrypting succeeds exactly if there is a first key or nothing to encrypt. */
  lemma RoundTrip(data: Str, first: Str, second: Str, third: Str)
    ensures StrEnc(data, first, second, third).Some? <==> data == [] || first != []
    ensures var e := StrEnc(data, first, second, third);
      e.Some? ==> StrDec(e.value, first, second, third) == Some(WithoutZeros(data))
  {
    hide EncBlocks, DecBlocks, KeyBytes;
    if data != [] && first != [] {
      var keys := KeyChain(first, second, third).value;
      BlocksBack(data, keys);
      assert 16 <= |EncBlocks(data, keys)| by { AtLeastOneBlock(data, keys); }
    }
  }

  /** ... which is the string itself exactly if it holds no zero char. */
  lemma {:induction false} NothingLost(s: Str)
    ensures |WithoutZeros(s)| <= |s|
    ensures WithoutZeros(s) == s <==> forall i :: 0 <= i < |s| ==> s[i] != 0
    decreases |s|
  {
    if s != [] {
      NothingLost(s[1..]);
      assert s == [s[0]] + s[1..];
    }
  }

  lemma AtLeastOneBlock(data: Str, keys: seq<Bits>)
    requires Blocks(keys) && data != []
    ensures 16 <= |EncBlocks(data, keys)|
  {
  }

  /** A third key without a second one has no effect. */
  lemma ThirdKeyIgnored(data: Str, first: Str, third: Str)
    ensures StrEnc(data, first, [], third) == StrEnc(data, first, [], [])
    ensures StrDec(data, first, [], third) == StrDec(data, first, [], [])
  {
  }
}
