/** The block cipher of WOTEDUtils/Class1.cs: permutations, rounds, subkeys.

    Each table is a function from the position of a bit to the position it is taken from, so
    that composing two permutations is composing two functions.  The key schedule is the code's
    own; decrypting needs only that both directions use the same subkeys in opposite order. */
module Des {

  type Bit = b: int | 0 <= b < 2
  type Nibble = x: int | 0 <= x < 16
  /** A char of a string: a 16-bit code unit. */
  type Unit = c: int | 0 <= c < 0x1_0000

  type Bits = seq<Bit>
  type Str = seq<Unit>

  // ----- Permutations ----------------------------------------------------------------

  /** finallyPermute: where the bits of positions 8*row to 8*row+7 come from. */
  function FinalRow(row: nat): (r: seq<nat>)
    requires row < 8
    ensures |r| == 8
  {
    if row == 0 then [39, 7, 47, 15, 55, 23, 63, 31]
    else if row == 1 then [38, 6, 46, 14, 54, 22, 62, 30]
    else if row == 2 then [37, 5, 45, 13, 53, 21, 61, 29]
    else if row == 3 then [36, 4, 44, 12, 52, 20, 60, 28]
    else if row == 4 then [35, 3, 43, 11, 51, 19, 59, 27]
    else if row == 5 then [34, 2, 42, 10, 50, 18, 58, 26]
    else if row == 6 then [33, 1, 41, 9, 49, 17, 57, 25]
    else [32, 0, 40, 8, 48, 16, 56, 24]
  }

  /** pPermute */
  const P_BOX: seq<nat> := [
    15, 6, 19, 20, 28, 11, 27, 16, 0, 14, 22, 25, 4, 17, 30, 9,
    1, 7, 23, 13, 31, 26, 2, 8, 18, 12, 29, 5, 21, 10, 3, 24]

  /** The selection at the end of a round of generateKeys, from either half of the key. */
  const LEFT_SELECTION: seq<nat> := [
    13, 16, 10, 23, 0, 4, 2, 27, 14, 5, 20, 9,
    22, 18, 11, 3, 25, 7, 15, 6, 26, 19, 12, 1]

  const RIGHT_SELECTION: seq<nat> := [
    40, 51, 30, 36, 46, 54, 29, 39, 50, 44, 32, 47,
    43, 48, 38, 55, 33, 52, 45, 41, 49, 35, 28, 31]

  const KEY_SELECTION := LEFT_SELECTION + RIGHT_SELECTION

  function S1(i: nat): (row: seq<Nibble>)
    requires i < 4
    ensures |row| == 16
  {
    if i == 0 then [14, 4, 13, 1, 2, 15, 11, 8, 3, 10, 6, 12, 5, 9, 0, 7]
    else if i == 1 then [0, 15, 7, 4, 14, 2, 13, 1, 10, 6, 12, 11, 9, 5, 3, 8]
    else if i == 2 then [4, 1, 14, 8, 13, 6, 2, 11, 15, 12, 9, 7, 3, 10, 5, 0]
    else [15, 12, 8, 2, 4, 9, 1, 7, 5, 11, 3, 14, 10, 0, 6, 13]
  }

  function S2(i: nat): (row: seq<Nibble>)
    requires i < 4
    ensures |row| == 16
  {
    if i == 0 then [15, 1, 8, 14, 6, 11, 3, 4, 9, 7, 2, 13, 12, 0, 5, 10]
    else if i == 1 then [3, 13, 4, 7, 15, 2, 8, 14, 12, 0, 1, 10, 6, 9, 11, 5]
    else if i == 2 then [0, 14, 7, 11, 10, 4, 13, 1, 5, 8, 12, 6, 9, 3, 2, 15]
    else [13, 8, 10, 1, 3, 15, 4, 2, 11, 6, 7, 12, 0, 5, 14, 9]
  }

  function S3(i: nat): (row: seq<Nibble>)
    requires i < 4
    ensures |row| == 16
  {
    if i == 0 then [10, 0, 9, 14, 6, 3, 15, 5, 1, 13, 12, 7, 11, 4, 2, 8]
    else if i == 1 then [13, 7, 0, 9, 3, 4, 6, 10, 2, 8, 5, 14, 12, 11, 15, 1]
    else if i == 2 then [13, 6, 4, 9, 8, 15, 3, 0, 11, 1, 2, 12, 5, 10, 14, 7]
    else [1, 10, 13, 0, 6, 9, 8, 7, 4, 15, 14, 3, 11, 5, 2, 12]
  }

  function S4(i: nat): (row: seq<Nibble>)
    requires i < 4
    ensures |row| == 16
  {
    if i == 0 then [7, 13, 14, 3, 0, 6, 9, 10, 1, 2, 8, 5, 11, 12, 4, 15]
    else if i == 1 then [13, 8, 11, 5, 6, 15, 0, 3, 4, 7, 2, 12, 1, 10, 14, 9]
    else if i == 2 then [10, 6, 9, 0, 12, 11, 7, 13, 15, 1, 3, 14, 5, 2, 8, 4]
    else [3, 15, 0, 6, 10, 1, 13, 8, 9, 4, 5, 11, 12, 7, 2, 14]
  }

  function S5(i: nat): (row: seq<Nibble>)
    requires i < 4
    ensures |row| == 16
  {
    if i == 0 then [2, 12, 4, 1, 7, 10, 11, 6, 8, 5, 3, 15, 13, 0, 14, 9]
    else if i == 1 then [14, 11, 2, 12, 4, 7, 13, 1, 5, 0, 15, 10, 3, 9, 8, 6]
    else if i == 2 then [4, 2, 1, 11, 10, 13, 7, 8, 15, 9, 12, 5, 6, 3, 0, 14]
    else [11, 8, 12, 7, 1, 14, 2, 13, 6, 15, 0, 9, 10, 4, 5, 3]
  }

  function S6(i: nat): (row: seq<Nibble>)
    requires i < 4
    ensures |row| == 16
  {
    if i == 0 then [12, 1, 10, 15, 9, 2, 6, 8, 0, 13, 3, 4, 14, 7, 5, 11]
    else if i == 1 then [10, 15, 4, 2, 7, 12, 9, 5, 6, 1, 13, 14, 0, 11, 3, 8]
    else if i == 2 then [9, 14, 15, 5, 2, 8, 12, 3, 7, 0, 4, 10, 1, 13, 11, 6]
    else [4, 3, 2, 12, 9, 5, 15, 10, 11, 14, 1, 7, 6, 0, 8, 13]
  }

  function S7(i: nat): (row: seq<Nibble>)
    requires i < 4
    ensures |row| == 16
  {
    if i == 0 then [4, 11, 2, 14, 15, 0, 8, 13, 3, 12, 9, 7, 5, 10, 6, 1]
    else if i == 1 then [13, 0, 11, 7, 4, 9, 1, 10, 14, 3, 5, 12, 2, 15, 8, 6]
    else if i == 2 then [1, 4, 11, 13, 12, 3, 7, 14, 10, 15, 6, 8, 0, 5, 9, 2]
    else [6, 11, 13, 8, 1, 4, 10, 7, 9, 5, 0, 15, 14, 2, 3, 12]
  }

  function S8(i: nat): (row: seq<Nibble>)
    requires i < 4
    ensures |row| == 16
  {
    if i == 0 then [13, 2, 8, 4, 6, 15, 11, 1, 10, 9, 3, 14, 5, 0, 12, 7]
    else if i == 1 then [1, 15, 13, 8, 10, 3, 7, 4, 12, 5, 6, 11, 0, 14, 9, 2]
    else if i == 2 then [7, 11, 4, 1, 9, 12, 14, 2, 0, 6, 10, 13, 15, 3, 5, 8]
    else [2, 1, 14, 7, 4, 10, 8, 13, 15, 12, 9, 0, 3, 5, 6, 11]
  }

  predicate Below(table: seq<nat>, n: nat) {
    forall i :: 0 <= i < |table| ==> table[i] < n
  }

  function Permute(s: Bits, table: seq<nat>): (r: Bits)
    requires Below(table, |s|)
    ensures |r| == |table|
  {
    seq(|table|, i requires 0 <= i < |table| => s[table[i]])
  }

  /** The source position of initPermute for position `x`. */
  function InitialSource(x: nat): (y: nat)
    requires x < 64
    ensures y < 64
  {
    var i, k := x % 32 / 8, x % 8;
    8 * (7 - k) + 2 * i + if x < 32 then 1 else 0
  }

  function InitPermute(s: Bits): (r: Bits)
    requires |s| == 64
    ensures |r| == 64
  {
    seq(64, x requires 0 <= x < 64 => s[InitialSource(x)])
  }

  function FinalSource(x: nat): (y: nat)
    requires x < 64
    ensures y < 64
  {
    FinalRowIs(x / 8, x % 8);
    FinalRow(x / 8)[x % 8]
  }

  /** The table as a formula. */
  lemma FinalRowIs(row: nat, col: nat)
    requires row < 8 && col < 8
    ensures FinalRow(row)[col] == (if col % 2 == 0 then 39 + 4 * col else 4 * col + 3) - row
  {
    assert col == 0 || col == 1 || col == 2 || col == 3 || col == 4 || col == 5 || col == 6 || col == 7;
  }

  function FinallyPermute(s: Bits): (r: Bits)
    requires |s| == 64
    ensures |r| == 64
  {
    seq(64, x requires 0 <= x < 64 => s[FinalSource(x)])
  }

  lemma InitialAt(h: nat, i: nat, k: nat)
    requires h < 2 && i < 4 && k < 8
    ensures InitialSource(32 * h + 8 * i + k) == 8 * (7 - k) + (2 * i + 1 - h)
  {
    var x := 32 * h + 8 * i + k;
    assert x % 32 == 8 * i + k && x % 8 == k;
  }

  lemma FinalAt(row: nat, col: nat)
    requires row < 8 && col < 8
    ensures FinalSource(8 * row + col) == (if col % 2 == 0 then 39 + 4 * col else 4 * col + 3) - row
  {
    hide FinalRow;
    FinalRowIs(row, col);
    assert (8 * row + col) / 8 == row && (8 * row + col) % 8 == col;
  }

  lemma SourcesInverse(x: nat)
    requires x < 64
    ensures FinalSource(InitialSource(x)) == x && InitialSource(FinalSource(x)) == x
  {
    hide FinalSource, InitialSource;
    var h, i, k := x / 32, x % 32 / 8, x % 8;
    assert x == 32 * h + 8 * i + k;
    InitialAt(h, i, k);
    FinalAt(7 - k, 2 * i + 1 - h);
    var row, col := x / 8, x % 8;
    FinalAt(row, col);
    if col % 2 == 0 {
      assert 39 + 4 * col - row == 32 * 1 + 8 * (col / 2) + (7 - row);
      InitialAt(1, col / 2, 7 - row);
    } else {
      assert 4 * col + 3 - row == 32 * 0 + 8 * (col / 2) + (7 - row);
      InitialAt(0, col / 2, 7 - row);
    }
  }

  /** The last permutation undoes the first, and the first the last. */
  lemma PermutationsInverse(s: Bits)
    requires |s| == 64
    ensures FinallyPermute(InitPermute(s)) == s && InitPermute(FinallyPermute(s)) == s
  {
    forall x: nat | x < 64
      ensures FinallyPermute(InitPermute(s))[x] == s[x] && InitPermute(FinallyPermute(s))[x] == s[x] {
      SourcesInverse(x);
    }
  }

  // ----- One round -------------------------------------------------------------------

  function ExpandSource(x: nat): (y: nat)
    requires x < 48
    ensures y < 32
  {
    var i, k := x / 6, x % 6;
    if i == 0 && k == 0 then 31 else if i == 7 && k == 5 then 0 else 4 * i + k - 1
  }

  function ExpandPermute(s: Bits): (r: Bits)
    requires |s| == 32
    ensures |r| == 48
  {
    seq(48, x requires 0 <= x < 48 => s[ExpandSource(x)])
  }

  function XorBit(a: Bit, b: Bit): Bit {
    (a + b) % 2
  }

  function Xor(a: Bits, b: Bits): (r: Bits)
    requires |a| == |b|
    ensures |r| == |a|
  {
    seq(|a|, i requires 0 <= i < |a| => XorBit(a[i], b[i]))
  }

  /** Row `i` of box `m`. */
  function SBox(m: nat, i: nat): (row: seq<Nibble>)
    requires m < 8 && i < 4
    ensures |row| == 16
  {
    if m == 0 then S1(i) else if m == 1 then S2(i) else if m == 2 then S3(i) else if m == 3 then S4(i)
    else if m == 4 then S5(i) else if m == 5 then S6(i) else if m == 6 then S7(i) else S8(i)
  }

  function RowOf(s: Bits, m: nat): (i: nat)
    requires |s| == 48 && m < 8
    ensures i < 4
  {
    2 * (s[6 * m] as int) + s[6 * m + 5]
  }

  function ColumnOf(s: Bits, m: nat): (j: nat)
    requires |s| == 48 && m < 8
    ensures j < 16
  {
    8 * (s[6 * m + 1] as int) + 4 * (s[6 * m + 2] as int) + 2 * (s[6 * m + 3] as int) + s[6 * m + 4]
  }

  /** Row and column of box `m`, from the bits 6m .. 6m+5. */
  function SBoxValue(s: Bits, m: nat): Nibble
    requires |s| == 48 && m < 8
  {
    SBox(m, RowOf(s, m))[ColumnOf(s, m)]
  }

  /** getBoxBinary */
  function NibbleBits(v: Nibble): (r: Bits)
    ensures |r| == 4
  {
    [v / 8 % 2, v / 4 % 2, v / 2 % 2, v % 2]
  }

  function SBoxPermute(s: Bits): (r: Bits)
    requires |s| == 48
    ensures |r| == 32
  {
    seq(32, x requires 0 <= x < 32 => NibbleBits(SBoxValue(s, x / 4))[x % 4])
  }

  lemma PBoxBelow()
    ensures |P_BOX| == 32 && Below(P_BOX, 32)
  {
  }

  function PPermute(s: Bits): (r: Bits)
    requires |s| == 32
    ensures |r| == 32
  {
    PBoxBelow();
    Permute(s, P_BOX)
  }

  /** The function of a round. */
  function Mix(right: Bits, key: Bits): (r: Bits)
    requires |right| == 32 && |key| == 48
    ensures |r| == 32
  {
    PPermute(SBoxPermute(Xor(ExpandPermute(right), key)))
  }

  datatype Halves = Halves(left: Bits, right: Bits)

  predicate GoodHalves(h: Halves) {
    |h.left| == 32 && |h.right| == 32
  }

  function Round(h: Halves, key: Bits): (r: Halves)
    requires GoodHalves(h) && |key| == 48
    ensures GoodHalves(r)
  {
    Halves(h.right, Xor(Mix(h.right, key), h.left))
  }

  predicate GoodKeys(keys: seq<Bits>) {
    forall i :: 0 <= i < |keys| ==> |keys[i]| == 48
  }

  function Rounds(h: Halves, keys: seq<Bits>): (r: Halves)
    requires GoodHalves(h) && GoodKeys(keys)
    ensures GoodHalves(r)
  {
    if keys == [] then h else Round(Rounds(h, keys[..|keys|-1]), keys[|keys|-1])
  }

  function Swap(h: Halves): Halves {
    Halves(h.right, h.left)
  }

  lemma XorTwice(a: Bits, b: Bits)
    requires |a| == |b|
    ensures Xor(a, Xor(a, b)) == b
  {
  }

  /** A round of the swapped halves with the same key undoes the round. */
  lemma RoundUndone(h: Halves, key: Bits)
    requires GoodHalves(h) && |key| == 48
    ensures Round(Swap(Round(h, key)), key) == Swap(h)
  {
    hide Xor, Mix;
    XorTwice(Mix(h.right, key), h.left);
  }

  function Reverse<T>(s: seq<T>): (r: seq<T>)
    ensures |r| == |s| && forall i :: 0 <= i < |s| ==> r[i] == s[|s| - 1 - i]
  {
    if s == [] then [] else [s[|s|-1]] + Reverse(s[..|s|-1])
  }

  /** Rounds that begin with one key and go on with others. */
  lemma {:induction false} FirstRound(h: Halves, key: Bits, keys: seq<Bits>)
    requires GoodHalves(h) && |key| == 48 && GoodKeys(keys)
    ensures GoodKeys([key] + keys) && Rounds(h, [key] + keys) == Rounds(Round(h, key), keys)
    decreases |keys|
  {
    hide Round;
    if keys == [] {
      assert ([key] + keys)[..0] == [];
    } else {
      assert ([key] + keys)[..|keys|] == [key] + keys[..|keys|-1];
      FirstRound(h, key, keys[..|keys|-1]);
    }
  }

  /** All rounds with the keys in the opposite order undo all rounds. */
  lemma {:induction false} RoundsUndone(h: Halves, keys: seq<Bits>)
    requires GoodHalves(h) && GoodKeys(keys)
    ensures GoodKeys(Reverse(keys)) && Rounds(Swap(Rounds(h, keys)), Reverse(keys)) == Swap(h)
    decreases |keys|
  {
    hide Round;
    if keys != [] {
      var before, last := keys[..|keys|-1], keys[|keys|-1];
      RoundsUndone(h, before);
      RoundUndone(Rounds(h, before), last);
      FirstRound(Swap(Rounds(h, keys)), last, Reverse(before));
    }
  }

  // ----- One block -------------------------------------------------------------------

  function Split(s: Bits): (h: Halves)
    requires |s| == 64
    ensures GoodHalves(h)
  {
    Halves(s[..32], s[32..])
  }

  /** What enc and dec make of a block with the subkeys in the order in which they use them. */
  function Crypt(data: Bits, keys: seq<Bits>): (r: Bits)
    requires |data| == 64 && GoodKeys(keys)
    ensures |r| == 64
  {
    var h := Rounds(Split(InitPermute(data)), keys);
    FinallyPermute(h.right + h.left)
  }

  /** For any block and any subkeys: with the subkeys in the opposite order everything is
      undone. */
  lemma CryptUndone(data: Bits, keys: seq<Bits>)
    requires |data| == 64 && GoodKeys(keys)
    ensures GoodKeys(Reverse(keys)) && Crypt(Crypt(data, keys), Reverse(keys)) == data
  {
    hide InitPermute, FinallyPermute, Rounds;
    var h := Split(InitPermute(data));
    var e := Rounds(h, keys);
    PermutationsInverse(e.right + e.left);
    RoundsUndone(h, keys);
    PermutationsInverse(data);
    assert h.left + h.right == InitPermute(data);
  }

  // ----- Subkeys ---------------------------------------------------------------------

  /** The 56 bits of a key that are used, by rows. */
  function KeyBits(key: Bits): (r: Bits)
    requires |key| == 64
    ensures |r| == 56
  {
    seq(56, x requires 0 <= x < 56 => key[8 * (7 - x % 8) + x / 8])
  }

  /** Each half of 28 bits is rotated by one. */
  function Rotate(s: Bits): (r: Bits)
    requires |s| == 56
    ensures |r| == 56
  {
    s[1..28] + [s[0]] + s[29..56] + [s[28]]
  }

  function RotateBy(s: Bits, n: nat): (r: Bits)
    requires |s| == 56
    ensures |r| == 56
  {
    if n == 0 then s else Rotate(RotateBy(s, n - 1))
  }

  /** The rotations of round `i`. */
  function Shift(i: nat): nat {
    if i == 0 || i == 1 || i == 8 || i == 15 then 1 else 2
  }

  /** The rotations up to round `i`. */
  function Shifts(i: nat): nat {
    if i == 0 then 0 else Shifts(i - 1) + Shift(i - 1)
  }

  lemma KeySelectionBelow()
    ensures |KEY_SELECTION| == 48 && Below(KEY_SELECTION, 56)
  {
    assert Below(LEFT_SELECTION, 28) && Below(RIGHT_SELECTION, 56);
  }

  function SubKey(key: Bits, i: nat): (r: Bits)
    requires |key| == 64
    ensures |r| == 48
  {
    KeySelectionBelow();
    Permute(RotateBy(KeyBits(key), Shifts(i + 1)), KEY_SELECTION)
  }

  function GenerateKeys(key: Bits): (r: seq<Bits>)
    requires |key| == 64
    ensures |r| == 16 && GoodKeys(r)
  {
    seq(16, i requires 0 <= i < 16 => SubKey(key, i))
  }

  lemma {:induction false} RotatedAt(s: Bits, n: nat, x: nat)
    requires |s| == 56 && n <= 28 && x < 56
    ensures RotateBy(s, n)[x] == s[if x < 28 then (if x + n < 28 then x + n else x + n - 28)
      else if x + n < 56 then x + n else x + n - 28]
    decreases n
  {
    if n > 0 {
      RotatedAt(s, n - 1, if x == 27 then 0 else if x == 55 then 28 else x + 1);
    }
  }

  /** The sixteen rounds turn each half of the key around exactly once. */
  lemma RotationsComeRound(s: Bits)
    requires |s| == 56
    ensures RotateBy(s, Shifts(16)) == s
  {
    assert Shifts(4) == 6 && Shifts(8) == 14 && Shifts(12) == 21 && Shifts(16) == 28;
    forall x: nat | x < 56 ensures RotateBy(s, 28)[x] == s[x] { RotatedAt(s, 28, x); }
  }

  function Enc(data: Bits, key: Bits): (r: Bits)
    requires |data| == 64 && |key| == 64
    ensures |r| == 64
  {
    Crypt(data, GenerateKeys(key))
  }

  function Dec(data: Bits, key: Bits): (r: Bits)
    requires |data| == 64 && |key| == 64
    ensures |r| == 64
  {
    Crypt(data, Reverse(GenerateKeys(key)))
  }

  /** Deciphering ("Deciphering" section of FIPS PUB 46-3): dec undoes enc for every key. */
  lemma DecUndoesEnc(data: Bits, key: Bits)
    requires |data| == 64 && |key| == 64
    ensures Dec(Enc(data, key), key) == data
  {
    CryptUndone(data, GenerateKeys(key));
  }
}
