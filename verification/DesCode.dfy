/** The loops of DesUtils over its local arrays, proved to compute the functions of Des and
    DesText. */
module DesCode {
  import opened Bytes
  import opened HashIndex
  import opened Des
  import opened DesText
  import opened Options

  // ----- Blocks ----------------------------------------------------------------------

  /** initPermute */
  method InitPermuteLoop(originalData: Bits) returns (r: Bits)
    requires |originalData| == 64
    ensures r == InitPermute(originalData)
  {
    hide InitialSource;
    var ipByte := new Bit[64];
    for i := 0 to 4
      invariant forall x: nat :: x < 8 * i ==> ipByte[x] == originalData[InitialSource(x)]
      invariant forall x: nat :: 32 <= x < 32 + 8 * i ==> ipByte[x] == originalData[InitialSource(x)]
    {
      var m, n := 2 * i + 1, 2 * i;
      for k := 0 to 8
        invariant forall x: nat :: x < 8 * i + k ==> ipByte[x] == originalData[InitialSource(x)]
        invariant forall x: nat :: 32 <= x < 32 + 8 * i + k ==> ipByte[x] == originalData[InitialSource(x)]
      {
        var j := 7 - k;
        InitialAt(0, i, k);
        InitialAt(1, i, k);
        ipByte[i * 8 + k] := originalData[j * 8 + m];
        ipByte[i * 8 + k + 32] := originalData[j * 8 + n];
      }
    }
    r := ipByte[..];
  }

  /** finallyPermute */
  method FinallyPermuteLoop(endByte: Bits) returns (r: Bits)
    requires |endByte| == 64
    ensures r == FinallyPermute(endByte)
  {
    hide FinalSource;
    var fpByte := new Bit[64];
    for i := 0 to 64
      invariant forall x: nat :: x < i ==> fpByte[x] == endByte[FinalSource(x)]
    {
      fpByte[i] := endByte[FinalSource(i)];
    }
    r := fpByte[..];
  }

  lemma ExpandAt(i: nat, k: nat)
    requires i < 8 && k < 6
    ensures ExpandSource(6 * i + k) == if i == 0 && k == 0 then 31 else if i == 7 && k == 5 then 0 else 4 * i + k - 1
  {
    assert (6 * i + k) / 6 == i && (6 * i + k) % 6 == k;
  }

  /** expandPermute */
  method ExpandPermuteLoop(rightData: Bits) returns (r: Bits)
    requires |rightData| == 32
    ensures r == ExpandPermute(rightData)
  {
    hide ExpandSource;
    var epByte := new Bit[48];
    for i := 0 to 8
      invariant forall x: nat :: x < 6 * i ==> epByte[x] == rightData[ExpandSource(x)]
    {
      ExpandAt(i, 0);
      ExpandAt(i, 1);
      ExpandAt(i, 2);
      ExpandAt(i, 3);
      ExpandAt(i, 4);
      ExpandAt(i, 5);
      epByte[i * 6 + 0] := if i == 0 then rightData[31] else rightData[i * 4 - 1];
      epByte[i * 6 + 1] := rightData[i * 4 + 0];
      epByte[i * 6 + 2] := rightData[i * 4 + 1];
      epByte[i * 6 + 3] := rightData[i * 4 + 2];
      epByte[i * 6 + 4] := rightData[i * 4 + 3];
      epByte[i * 6 + 5] := if i == 7 then rightData[0] else rightData[i * 4 + 4];
    }
    r := epByte[..];
  }

  /** xor */
  method XorLoop(byteOne: Bits, byteTwo: Bits) returns (r: Bits)
    requires |byteOne| == |byteTwo|
    ensures r == Xor(byteOne, byteTwo)
  {
    var xorByte := new Bit[|byteOne|];
    for i := 0 to |byteOne|
      invariant forall x: nat :: x < i ==> xorByte[x] == XorBit(byteOne[x], byteTwo[x])
    {
      xorByte[i] := if byteOne[i] == byteTwo[i] then 0 else 1;
    }
    r := xorByte[..];
  }

  /** sBoxPermute */
  method SBoxPermuteLoop(expandByte: Bits) returns (r: Bits)
    requires |expandByte| == 48
    ensures r == SBoxPermute(expandByte)
  {
    hide SBoxValue, NibbleBits;
    var sBoxByte := new Bit[32];
    for m := 0 to 8
      invariant forall x: nat :: x < 4 * m ==> sBoxByte[x] == NibbleBits(SBoxValue(expandByte, x / 4))[x % 4]
    {
      var binary := NibbleBits(SBoxValue(expandByte, m));
      sBoxByte[m * 4 + 0] := binary[0];
      sBoxByte[m * 4 + 1] := binary[1];
      sBoxByte[m * 4 + 2] := binary[2];
      sBoxByte[m * 4 + 3] := binary[3];
    }
    r := sBoxByte[..];
  }

  /** pPermute: its 32 assignments */
  method PPermuteAssignments(sBoxByte: Bits) returns (r: Bits)
    requires |sBoxByte| == 32
    ensures r == PPermute(sBoxByte)
  {
    PBoxBelow();
    r := [
      sBoxByte[15], sBoxByte[6], sBoxByte[19], sBoxByte[20], sBoxByte[28], sBoxByte[11], sBoxByte[27], sBoxByte[16],
      sBoxByte[0], sBoxByte[14], sBoxByte[22], sBoxByte[25], sBoxByte[4], sBoxByte[17], sBoxByte[30], sBoxByte[9],
      sBoxByte[1], sBoxByte[7], sBoxByte[23], sBoxByte[13], sBoxByte[31], sBoxByte[26], sBoxByte[2], sBoxByte[8],
      sBoxByte[18], sBoxByte[12], sBoxByte[29], sBoxByte[5], sBoxByte[21], sBoxByte[10], sBoxByte[3], sBoxByte[24]];
    forall x: nat | x < 32 ensures r[x] == sBoxByte[P_BOX[x]] {
      assert x == 0 || x == 1 || x == 2 || x == 3 || x == 4 || x == 5 || x == 6 || x == 7
        || x == 8 || x == 9 || x == 10 || x == 11 || x == 12 || x == 13 || x == 14 || x == 15
        || x == 16 || x == 17 || x == 18 || x == 19 || x == 20 || x == 21 || x == 22 || x == 23
        || x == 24 || x == 25 || x == 26 || x == 27 || x == 28 || x == 29 || x == 30 || x == 31;
    }
  }

  /** The function of a round, as enc and dec call it. */
  method MixCalls(right: Bits, key: Bits) returns (r: Bits)
    requires |right| == 32 && |key| == 48
    ensures r == Mix(right, key)
  {
    hide ExpandPermute, Xor, SBoxPermute, PPermute;
    var e := ExpandPermuteLoop(right);
    var x := XorLoop(e, key);
    var s := SBoxPermuteLoop(x);
    r := PPermuteAssignments(s);
  }

  lemma KeysUpTo(keys: seq<Bits>, i: nat, h: Halves)
    requires i < |keys| && GoodKeys(keys) && GoodHalves(h)
    ensures Rounds(h, keys[..i + 1]) == Round(Rounds(h, keys[..i]), keys[i])
  {
    assert keys[..i + 1][..i] == keys[..i];
  }

  /** The common part of enc and dec: sixteen rounds with the subkeys in the given order. */
  method CryptLoop(dataByte: Bits, keys: seq<Bits>) returns (r: Bits)
    requires |dataByte| == 64 && |keys| == 16 && GoodKeys(keys)
    ensures r == Crypt(dataByte, keys)
  {
    hide InitPermute, FinallyPermute, Mix, Xor, Rounds;
    var ipByte := InitPermuteLoop(dataByte);
    ghost var h := Split(ipByte);
    var ipLeft := ipByte[..32];
    var ipRight := ipByte[32..];
    assert Rounds(h, keys[..0]) == h by { NoRounds(h, keys); }
    for i := 0 to 16
      invariant |ipLeft| == 32 && |ipRight| == 32
      invariant Halves(ipLeft, ipRight) == Rounds(h, keys[..i])
    {
      KeysUpTo(keys, i, h);
      var tempLeft := ipLeft;
      ipLeft := ipRight;
      var mixed := MixCalls(ipRight, keys[i]);
      ipRight := XorLoop(mixed, tempLeft);
    }
    assert keys[..16] == keys;
    r := FinallyPermuteLoop(ipRight + ipLeft);
  }

  lemma NoRounds(h: Halves, keys: seq<Bits>)
    requires GoodHalves(h)
    ensures Rounds(h, keys[..0]) == h
  {
  }

  /** The body of the rotation loop of generateKeys: both halves of the array move by one. */
  method RotateInPlace(key: array<Bit>)
    requires key.Length == 56
    modifies key
    ensures key[..] == Rotate(old(key[..]))
  {
    hide Rotate;
    ghost var s := key[..];
    var tempLeft := key[0];
    var tempRight := key[28];
    for k := 0 to 27
      invariant forall x: nat :: x < k ==> key[x] == s[x + 1]
      invariant forall x: nat :: 28 <= x < 28 + k ==> key[x] == s[x + 1]
      invariant forall x: nat :: k <= x < 28 ==> key[x] == s[x]
      invariant forall x: nat :: 28 + k <= x < 56 ==> key[x] == s[x]
    {
      key[k] := key[k + 1];
      key[28 + k] := key[29 + k];
    }
    key[27] := tempLeft;
    key[55] := tempRight;
    forall x: nat | x < 56 ensures key[x] == Rotate(s)[x] {
      RotateAt(s, x);
    }
  }

  lemma RotateAt(s: Bits, x: nat)
    requires |s| == 56 && x < 56
    ensures Rotate(s)[x] == if x == 27 then s[0] else if x == 55 then s[28] else s[x + 1]
  {
  }

  /** The first loops of generateKeys: the bits of the key by rows, without the last bit of each
      eight. */
  method SelectKeyBits(keyByte: Bits, key: array<Bit>)
    requires |keyByte| == 64 && key.Length == 56
    modifies key
    ensures key[..] == KeyBits(keyByte)
  {
    for i := 0 to 7
      invariant forall x: nat :: x < 8 * i ==> key[x] == KeyBits(keyByte)[x]
    {
      var k := 7;
      for j := 0 to 8
        invariant k == 7 - j
        invariant forall x: nat :: x < 8 * i + j ==> key[x] == KeyBits(keyByte)[x]
      {
        assert (8 * i + j) % 8 == j && (8 * i + j) / 8 == i;
        key[i * 8 + j] := keyByte[8 * k + i];
        k := k - 1;
      }
    }
  }

  /** The assignments of generateKeys to tempKey[0] to tempKey[23]. */
  method SelectLeft(key: array<Bit>) returns (r: Bits)
    requires key.Length == 56
    ensures |LEFT_SELECTION| == |r| == 24
    ensures forall x: nat :: x < 24 ==> LEFT_SELECTION[x] < 56 && r[x] == key[LEFT_SELECTION[x]]
  {
    r := [
      key[13], key[16], key[10], key[23], key[0], key[4], key[2], key[27], key[14], key[5], key[20], key[9],
      key[22], key[18], key[11], key[3], key[25], key[7], key[15], key[6], key[26], key[19], key[12], key[1]];
    forall x: nat | x < 24 ensures LEFT_SELECTION[x] < 56 && r[x] == key[LEFT_SELECTION[x]] {
      assert x == 0 || x == 1 || x == 2 || x == 3 || x == 4 || x == 5 || x == 6 || x == 7
        || x == 8 || x == 9 || x == 10 || x == 11 || x == 12 || x == 13 || x == 14 || x == 15
        || x == 16 || x == 17 || x == 18 || x == 19 || x == 20 || x == 21 || x == 22 || x == 23;
    }
  }

  /** The assignments to tempKey[24] to tempKey[47]. */
  method SelectRight(key: array<Bit>) returns (r: Bits)
    requires key.Length == 56
    ensures |RIGHT_SELECTION| == |r| == 24
    ensures forall x: nat :: x < 24 ==> RIGHT_SELECTION[x] < 56 && r[x] == key[RIGHT_SELECTION[x]]
  {
    r := [
      key[40], key[51], key[30], key[36], key[46], key[54], key[29], key[39], key[50], key[44], key[32], key[47],
      key[43], key[48], key[38], key[55], key[33], key[52], key[45], key[41], key[49], key[35], key[28], key[31]];
    forall x: nat | x < 24 ensures RIGHT_SELECTION[x] < 56 && r[x] == key[RIGHT_SELECTION[x]] {
      assert x == 0 || x == 1 || x == 2 || x == 3 || x == 4 || x == 5 || x == 6 || x == 7
        || x == 8 || x == 9 || x == 10 || x == 11 || x == 12 || x == 13 || x == 14 || x == 15
        || x == 16 || x == 17 || x == 18 || x == 19 || x == 20 || x == 21 || x == 22 || x == 23;
    }
  }

  method SelectSubKey(key: array<Bit>) returns (tempKey: Bits)
    requires key.Length == 56
    ensures |KEY_SELECTION| == 48 && Below(KEY_SELECTION, 56) && tempKey == Permute(key[..], KEY_SELECTION)
  {
    hide LEFT_SELECTION, RIGHT_SELECTION;
    KeySelectionBelow();
    var left := SelectLeft(key);
    var right := SelectRight(key);
    tempKey := left + right;
  }

  const TURNS: seq<nat> := [1, 1, 2, 2, 2, 2, 2, 2, 1, 2, 2, 2, 2, 2, 2, 1]

  /** generateKeys */
  method GenerateKeysLoop(keyByte: Bits) returns (keys: seq<Bits>)
    requires |keyByte| == 64
    ensures keys == GenerateKeys(keyByte)
  {
    hide RotateBy, Shifts, Permute;
    var key := new Bit[56];
    SelectKeyBits(keyByte, key);
    NoRotation(KeyBits(keyByte));
    keys := [];
    for i := 0 to 16
      invariant key[..] == RotateBy(KeyBits(keyByte), Shifts(i))
      invariant |keys| == i && forall x: nat :: x < i ==> keys[x] == SubKey(keyByte, x)
    {
      ShiftsGrow(i);
      RotateLoop(key, TURNS[i], KeyBits(keyByte), Shifts(i));
      var tempKey := SelectSubKey(key);
      keys := keys + [tempKey];
    }
  }

  lemma NoRotation(s: Bits)
    requires |s| == 56
    ensures Shifts(0) == 0 && RotateBy(s, 0) == s
  {
  }

  lemma ShiftsGrow(i: nat)
    ensures Shifts(i + 1) == Shifts(i) + Shift(i)
  {
  }

  /** Rotate `n` times, after `m` rotations of `s`. */
  method RotateLoop(key: array<Bit>, n: nat, ghost s: Bits, ghost m: nat)
    requires key.Length == |s| == 56 && key[..] == RotateBy(s, m)
    modifies key
    ensures key[..] == RotateBy(s, m + n)
  {
    hide Rotate;
    for j := 0 to n
      invariant key[..] == RotateBy(s, m + j)
    {
      RotateInPlace(key);
    }
  }

  /** enc */
  method EncLoop(dataByte: Bits, keyByte: Bits) returns (r: Bits)
    requires |dataByte| == 64 && |keyByte| == 64
    ensures r == Enc(dataByte, keyByte)
  {
    hide Crypt, GenerateKeys;
    var keys := GenerateKeysLoop(keyByte);
    r := CryptLoop(dataByte, keys);
  }

  /** dec: the subkeys from the last to the first */
  method DecLoop(dataByte: Bits, keyByte: Bits) returns (r: Bits)
    requires |dataByte| == 64 && |keyByte| == 64
    ensures r == Dec(dataByte, keyByte)
  {
    hide Crypt, GenerateKeys;
    var keys := GenerateKeysLoop(keyByte);
    r := CryptLoop(dataByte, Reverse(keys));
  }

  // ----- Strings ---------------------------------------------------------------------

  /** The inner loop: two to the power 15 - j. */
  method PowLoop(j: nat) returns (pow: nat)
    requires j < 16
    ensures pow == Pow2(15 - j)
  {
    pow := 1;
    var m := 15;
    while m > j
      invariant j <= m <= 15 && pow == Pow2(15 - m)
    {
      pow := 2 * pow;
      m := m - 1;
    }
  }

  /** strToBt */
  method StrToBtLoop(str: Str) returns (r: Bits)
    ensures r == StrToBt(str)
  {
    hide UnitBit, UnitAt;
    var bt := new Bit[64];
    for i := 0 to 4
      invariant forall x: nat :: x < 16 * i ==> bt[x] == UnitBit(UnitAt(str, x / 16), x % 16)
    {
      var k := UnitAt(str, i);
      for j := 0 to 16
        invariant forall x: nat :: x < 16 * i + j ==> bt[x] == UnitBit(UnitAt(str, x / 16), x % 16)
      {
        var pow := PowLoop(j);
        BitBy(k, j);
        bt[16 * i + j] := k / pow % 2;
        assert (16 * i + j) / 16 == i && (16 * i + j) % 16 == j;
      }
    }
    r := bt[..];
  }

  lemma BitBy(k: Unit, j: nat)
    requires j < 16
    ensures k / Pow2(15 - j) % 2 == UnitBit(k, j)
  {
  }

  /** The value of the bits up to `j`, weighted as in byteToString. */
  lemma WeightedStep(s: Bits, j: nat, count: nat)
    requires |s| == 16 && j < 16 && count == ValueOf(s[..j]) * Pow2(16 - j)
    ensures count + s[j] * Pow2(15 - j) == ValueOf(s[..j + 1]) * Pow2(15 - j)
  {
    assert s[..j + 1][..j] == s[..j];
    var v, p := ValueOf(s[..j]), Pow2(15 - j);
    Factor(v, p, s[j]);
  }

  lemma Factor(v: nat, p: nat, b: nat)
    ensures v * (2 * p) + b * p == (2 * v + b) * p
  {
  }

  /** byteToString */
  method ByteToStringLoop(byteData: Bits) returns (str: Str)
    requires |byteData| == 64
    ensures str == ByteToString(byteData)
  {
    str := [];
    ghost var words: seq<Str> := [];
    for i := 0 to 4
      invariant |words| == i && forall x: nat :: x < i ==> words[x] == NonZero(Word(byteData, x))
      invariant str == Joined(words)
    {
      var count := CountLoop(byteData, i);
      if count != 0 { str := str + [count]; }
      words := words + [NonZero(count)];
      assert words[..i] == words[..|words|-1];
    }
    JoinedFour(words);
  }

  function Joined(words: seq<Str>): Str {
    if words == [] then [] else Joined(words[..|words|-1]) + words[|words|-1]
  }

  lemma JoinedFour(words: seq<Str>)
    requires |words| == 4
    ensures Joined(words) == words[0] + words[1] + words[2] + words[3]
  {
    assert words[..3][..2] == words[..2] && words[..2][..1] == words[..1] && words[..1][..0] == [];
    assert Joined(words[..1]) == [] + words[0];
    assert Joined(words[..2]) == Joined(words[..1]) + words[1];
    assert Joined(words[..3]) == Joined(words[..2]) + words[2];
  }

  method CountLoop(byteData: Bits, i: nat) returns (count: Unit)
    requires |byteData| == 64 && i < 4
    ensures count == Word(byteData, i)
  {
    hide ValueOf;
    ghost var s := byteData[16 * i..16 * i + 16];
    var c: nat := 0;
    assert ValueOf(s[..0]) == 0 by { NoValue(s); }
    for j := 0 to 16
      invariant c == ValueOf(s[..j]) * Pow2(16 - j)
    {
      var pow := PowLoop(j);
      WeightedStep(s, j, c);
      c := c + byteData[16 * i + j] * pow;
    }
    assert s[..16] == s && Pow2(0) == 1;
    ValueBound(s);
    Pow2Of16();
    count := c;
  }

  lemma NoValue(s: Bits)
    ensures ValueOf(s[..0]) == 0
  {
  }

  /** bt64ToHex */
  method Bt64ToHexLoop(byteData: Bits) returns (hex: Str)
    requires |byteData| == 64
    ensures hex == Bt64ToHex(byteData)
  {
    hide NibbleOf;
    hex := [];
    for i := 0 to 16
      invariant |hex| == i && forall x: nat :: x < i ==> hex[x] == HexDigit(NibbleOf(byteData, x))
    {
      hex := hex + [HexDigit(NibbleOf(byteData, i))];
    }
  }

  /** hexToBt64 and the parsing of its digits; None where a block would be too short. */
  method HexToBt64Loop(hex: Str) returns (r: Option<Bits>)
    requires |hex| == 16
    ensures r == HexToBt64(hex)
  {
    hide NibbleBits;
    var binary: Bits := [];
    for i := 0 to 16
      invariant |binary| == 4 * i && forall x: nat :: x < i ==> DigitValue(hex[x]).Some?
      invariant forall x: nat :: x < 4 * i ==> binary[x] == NibbleBits(DigitValue(hex[x / 4]).value)[x % 4]
    {
      var d := DigitValue(hex[i]);
      if d.None? { return None; }
      binary := binary + NibbleBits(d.value);
    }
    r := Some(binary);
    assert binary == HexToBt64(hex).value;
  }

  /** getKeyBytes */
  method GetKeyBytes(key: Str) returns (keyBytes: seq<Bits>)
    ensures keyBytes == KeyBytes(key)
  {
    hide StrToBt;
    keyBytes := [];
    var rest := key;
    while rest != []
      invariant keyBytes + KeyBytes(rest) == KeyBytes(key)
      decreases |rest|
    {
      var b := StrToBtLoop(First(rest, 4));
      keyBytes := keyBytes + [b];
      rest := Beyond(rest, 4);
    }
  }

  /** The chain of keys, as strEnc and strDec choose it. */
  method GetKeyChain(first: Str, second: Str, third: Str) returns (keys: Option<seq<Bits>>)
    ensures keys == KeyChain(first, second, third)
  {
    hide KeyBytes;
    if first == [] { return None; }
    var chain := GetKeyBytes(first);
    if second != [] {
      var k := GetKeyBytes(second);
      chain := chain + k;
      if third != [] {
        k := GetKeyBytes(third);
        chain := chain + k;
      }
    }
    keys := Some(chain);
  }

  /** The loops over the keys. */
  method EncChain(data: Bits, keys: seq<Bits>) returns (tempBt: Bits)
    requires |data| == 64 && Blocks(keys)
    ensures tempBt == EncAll(data, keys)
  {
    hide Enc;
    tempBt := data;
    for x := 0 to |keys|
      invariant |tempBt| == 64 && tempBt == EncAll(data, keys[..x])
    {
      assert keys[..x + 1][..x] == keys[..x];
      tempBt := EncLoop(tempBt, keys[x]);
    }
    assert keys[..|keys|] == keys;
  }

  method DecChain(data: Bits, keys: seq<Bits>) returns (tempBt: Bits)
    requires |data| == 64 && Blocks(keys)
    ensures tempBt == DecAll(data, keys)
  {
    hide Dec;
    tempBt := data;
    assert keys[..|keys|] == keys;
    for x := |keys| downto 0
      invariant |tempBt| == 64 && DecAll(tempBt, keys[..x]) == DecAll(data, keys)
    {
      assert keys[..x + 1][..x] == keys[..x];
      tempBt := DecLoop(tempBt, keys[x]);
    }
  }

  /** strEnc */
  method StrEncLoop(data: Str, firstKey: Str, secondKey: Str, thirdKey: Str) returns (r: Option<Str>)
    ensures r == StrEnc(data, firstKey, secondKey, thirdKey)
  {
    hide KeyChain, Bt64ToHex, StrToBt, EncAll;
    if data == [] { return Some([]); }
    var keys := GetKeyChain(firstKey, secondKey, thirdKey);
    if keys.None? { return None; }
    var encData: Str := [];
    var rest := data;
    while rest != []
      invariant encData + EncBlocks(rest, keys.value) == EncBlocks(data, keys.value)
      decreases |rest|
    {
      var tempByte := StrToBtLoop(First(rest, 4));
      var encByte := EncChain(tempByte, keys.value);
      var hex := Bt64ToHexLoop(encByte);
      Assoc(encData, hex, EncBlocks(Beyond(rest, 4), keys.value));
      encData := encData + hex;
      rest := Beyond(rest, 4);
    }
    assert encData + [] == encData;
    r := Some(encData);
  }

  /** What is still to come, behind what was decrypted. */
  function Behind(a: Str, r: Option<Str>): Option<Str> {
    match r case None => None case Some(b) => Some(a + b)
  }

  lemma DecStep(decStr: Str, rest: Str, keys: seq<Bits>)
    requires Blocks(keys) && 16 <= |rest|
    ensures match HexToBt64(rest[..16])
            case None => Behind(decStr, DecBlocks(rest, keys)) == None
            case Some(b) =>
              Behind(decStr, DecBlocks(rest, keys)) ==
              Behind(decStr + ByteToString(DecAll(b, keys)), DecBlocks(rest[16..], keys))
  {
    hide HexToBt64, ByteToString, DecAll;
    match HexToBt64(rest[..16]) {
      case None =>
      case Some(b) =>
        match DecBlocks(rest[16..], keys) {
          case None =>
          case Some(more) => Assoc(decStr, ByteToString(DecAll(b, keys)), more);
        }
    }
  }

  /** strDec */
  method StrDecLoop(data: Str, firstKey: Str, secondKey: Str, thirdKey: Str) returns (r: Option<Str>)
    ensures r == StrDec(data, firstKey, secondKey, thirdKey)
  {
    hide KeyChain, HexToBt64, ByteToString, DecAll;
    if |data| < 16 { return Some([]); }
    var keys := GetKeyChain(firstKey, secondKey, thirdKey);
    if keys.None? { return None; }
    var decStr: Str := [];
    var rest := data;
    NothingBehind(DecBlocks(data, keys.value));
    while 16 <= |rest|
      invariant Behind(decStr, DecBlocks(rest, keys.value)) == DecBlocks(data, keys.value)
      decreases |rest|
    {
      DecStep(decStr, rest, keys.value);
      var b := HexToBt64Loop(rest[..16]);
      if b.None? { return None; }
      var decByte := DecChain(b.value, keys.value);
      var s := ByteToStringLoop(decByte);
      decStr := decStr + s;
      rest := rest[16..];
    }
    assert decStr + [] == decStr;
    r := Some(decStr);
  }

  lemma NothingBehind(r: Option<Str>)
    ensures Behind([], r) == r
  {
    match r {
      case None =>
      case Some(b) => assert [] + b == b;
    }
  }
}
