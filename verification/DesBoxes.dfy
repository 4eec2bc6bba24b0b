/** The substitution boxes: what a box does to neighbouring inputs. */
module DesBoxes {
  // Two of the criteria that make the boxes what they are: each row of a box is a permutation,
  // and inputs that differ in one bit give outputs that differ in at least two.

  import opened Des

  /** How many of the four bits differ. */
  function Differ(u: Nibble, v: Nibble): nat {
    (if u % 2 != v % 2 then 1 else 0) + (if u / 2 % 2 != v / 2 % 2 then 1 else 0)
    + (if u / 4 % 2 != v / 4 % 2 then 1 else 0) + (if u / 8 % 2 != v / 8 % 2 then 1 else 0)
  }

  function Near(u: Nibble, v: Nibble): nat {
    if Differ(u, v) < 2 then 1 else 0
  }

  /** How many columns whose numbers differ in one bit hold values that differ in less than two. */
  function NearColumns(r: seq<Nibble>): nat
    requires |r| == 16
  {
    Near(r[0], r[1]) + Near(r[2], r[3]) + Near(r[4], r[5]) + Near(r[6], r[7])
    + Near(r[8], r[9]) + Near(r[10], r[11]) + Near(r[12], r[13]) + Near(r[14], r[15])
    + Near(r[0], r[2]) + Near(r[1], r[3]) + Near(r[4], r[6]) + Near(r[5], r[7])
    + Near(r[8], r[10]) + Near(r[9], r[11]) + Near(r[12], r[14]) + Near(r[13], r[15])
    + Near(r[0], r[4]) + Near(r[1], r[5]) + Near(r[2], r[6]) + Near(r[3], r[7])
    + Near(r[8], r[12]) + Near(r[9], r[13]) + Near(r[10], r[14]) + Near(r[11], r[15])
    + Near(r[0], r[8]) + Near(r[1], r[9]) + Near(r[2], r[10]) + Near(r[3], r[11])
    + Near(r[4], r[12]) + Near(r[5], r[13]) + Near(r[6], r[14]) + Near(r[7], r[15])
  }

  /** The same for one column of two rows. */
  function NearRows(r: seq<Nibble>, q: seq<Nibble>): nat
    requires |r| == |q| == 16
  {
    Near(r[0], q[0]) + Near(r[1], q[1]) + Near(r[2], q[2]) + Near(r[3], q[3])
    + Near(r[4], q[4]) + Near(r[5], q[5]) + Near(r[6], q[6]) + Near(r[7], q[7])
    + Near(r[8], q[8]) + Near(r[9], q[9]) + Near(r[10], q[10]) + Near(r[11], q[11])
    + Near(r[12], q[12]) + Near(r[13], q[13]) + Near(r[14], q[14]) + Near(r[15], q[15])
  }

  predicate AllDifferent(r: seq<Nibble>) {
    forall a, b :: 0 <= a < b < |r| ==> r[a] != r[b]
  }

  function FourDigits(a: int, b: int, c: int, d: int): int {
    0x1000 * a + 0x100 * b + 0x10 * c + d
  }

  /** A row read as a number of sixteen hex digits. */
  function Packed(r: seq<Nibble>): int
    requires |r| == 16
  {
    0x1_0000_0000_0000 * FourDigits(r[0], r[1], r[2], r[3])
    + 0x1_0000_0000 * FourDigits(r[4], r[5], r[6], r[7])
    + 0x1_0000 * FourDigits(r[8], r[9], r[10], r[11])
    + FourDigits(r[12], r[13], r[14], r[15])
  }

  // ----- The tables ------------------------------------------------------------------

  /** Box 1 of FIPS PUB 46-3. */
  lemma StandardS1()
    ensures Packed(S1(0)) == 0xE4D1_2FB8_3A6C_5907 && Packed(S1(1)) == 0x0F74_E2D1_A6CB_9538
    ensures Packed(S1(2)) == 0x41E8_D62B_FC97_3A50 && Packed(S1(3)) == 0xFC82_4917_5B3E_A06D
  {
  }

  lemma ColumnsOfS1()
    ensures NearColumns(S1(0)) == NearColumns(S1(1)) == NearColumns(S1(2)) == NearColumns(S1(3)) == 0
  {
  }

  lemma RowsOfS1()
    ensures NearRows(S1(0), S1(1)) == NearRows(S1(2), S1(3)) == 0
    ensures NearRows(S1(0), S1(2)) == NearRows(S1(1), S1(3)) == 0
  {
  }

  lemma ValuesOfS1()
    ensures AllDifferent(S1(0))
    ensures AllDifferent(S1(1))
  {
  }

  lemma MoreValuesOfS1()
    ensures AllDifferent(S1(2))
    ensures AllDifferent(S1(3))
  {
  }

  /** Box 2 of FIPS PUB 46-3. */
  lemma StandardS2()
    ensures Packed(S2(0)) == 0xF18E_6B34_972D_C05A && Packed(S2(1)) == 0x3D47_F28E_C01A_69B5
    ensures Packed(S2(2)) == 0x0E7B_A4D1_58C6_932F && Packed(S2(3)) == 0xD8A1_3F42_B67C_05E9
  {
  }

  lemma ColumnsOfS2()
    ensures NearColumns(S2(0)) == NearColumns(S2(1)) == NearColumns(S2(2)) == NearColumns(S2(3)) == 0
  {
  }

  lemma RowsOfS2()
    ensures NearRows(S2(0), S2(1)) == NearRows(S2(2), S2(3)) == 0
    ensures NearRows(S2(0), S2(2)) == NearRows(S2(1), S2(3)) == 0
  {
  }

  lemma ValuesOfS2()
    ensures AllDifferent(S2(0))
    ensures AllDifferent(S2(1))
  {
  }

  lemma MoreValuesOfS2()
    ensures AllDifferent(S2(2))
    ensures AllDifferent(S2(3))
  {
  }

  /** Box 3 of FIPS PUB 46-3. */
  lemma StandardS3()
    ensures Packed(S3(0)) == 0xA09E_63F5_1DC7_B428 && Packed(S3(1)) == 0xD709_346A_285E_CBF1
    ensures Packed(S3(2)) == 0xD649_8F30_B12C_5AE7 && Packed(S3(3)) == 0x1AD0_6987_4FE3_B52C
  {
  }

  lemma ColumnsOfS3()
    ensures NearColumns(S3(0)) == NearColumns(S3(1)) == NearColumns(S3(2)) == NearColumns(S3(3)) == 0
  {
  }

  lemma RowsOfS3()
    ensures NearRows(S3(0), S3(1)) == NearRows(S3(2), S3(3)) == 0
    ensures NearRows(S3(0), S3(2)) == NearRows(S3(1), S3(3)) == 0
  {
  }

  lemma ValuesOfS3()
    ensures AllDifferent(S3(0))
    ensures AllDifferent(S3(1))
  {
  }

  lemma MoreValuesOfS3()
    ensures AllDifferent(S3(2))
    ensures AllDifferent(S3(3))
  {
  }

  /** Box 4 of FIPS PUB 46-3. */
  lemma StandardS4()
    ensures Packed(S4(0)) == 0x7DE3_069A_1285_BC4F && Packed(S4(1)) == 0xD8B5_6F03_472C_1AE9
    ensures Packed(S4(2)) == 0xA690_CB7D_F13E_5284 && Packed(S4(3)) == 0x3F06_A1D8_945B_C72E
  {
  }

  lemma ColumnsOfS4()
    ensures NearColumns(S4(0)) == NearColumns(S4(1)) == NearColumns(S4(2)) == NearColumns(S4(3)) == 0
  {
  }

  lemma RowsOfS4()
    ensures NearRows(S4(0), S4(1)) == NearRows(S4(2), S4(3)) == 0
    ensures NearRows(S4(0), S4(2)) == NearRows(S4(1), S4(3)) == 0
  {
  }

  lemma ValuesOfS4()
    ensures AllDifferent(S4(0))
    ensures AllDifferent(S4(1))
  {
  }

  lemma MoreValuesOfS4()
    ensures AllDifferent(S4(2))
    ensures AllDifferent(S4(3))
  {
  }

  /** Box 5 of FIPS PUB 46-3. */
  lemma StandardS5()
    ensures Packed(S5(0)) == 0x2C41_7AB6_853F_D0E9 && Packed(S5(1)) == 0xEB2C_47D1_50FA_3986
    ensures Packed(S5(2)) == 0x421B_AD78_F9C5_630E && Packed(S5(3)) == 0xB8C7_1E2D_6F09_A453
  {
  }

  lemma ColumnsOfS5()
    ensures NearColumns(S5(0)) == NearColumns(S5(1)) == NearColumns(S5(2)) == NearColumns(S5(3)) == 0
  {
  }

  lemma RowsOfS5()
    ensures NearRows(S5(0), S5(1)) == NearRows(S5(2), S5(3)) == 0
    ensures NearRows(S5(0), S5(2)) == NearRows(S5(1), S5(3)) == 0
  {
  }

  lemma ValuesOfS5()
    ensures AllDifferent(S5(0))
    ensures AllDifferent(S5(1))
  {
  }

  lemma MoreValuesOfS5()
    ensures AllDifferent(S5(2))
    ensures AllDifferent(S5(3))
  {
  }

  /** Box 6 of FIPS PUB 46-3. */
  lemma StandardS6()
    ensures Packed(S6(0)) == 0xC1AF_9268_0D34_E75B && Packed(S6(1)) == 0xAF42_7C95_61DE_0B38
    ensures Packed(S6(2)) == 0x9EF5_28C3_704A_1DB6 && Packed(S6(3)) == 0x432C_95FA_BE17_608D
  {
  }

  lemma ColumnsOfS6()
    ensures NearColumns(S6(0)) == NearColumns(S6(1)) == NearColumns(S6(2)) == NearColumns(S6(3)) == 0
  {
  }

  lemma RowsOfS6()
    ensures NearRows(S6(0), S6(1)) == NearRows(S6(2), S6(3)) == 0
    ensures NearRows(S6(0), S6(2)) == NearRows(S6(1), S6(3)) == 0
  {
  }

  lemma ValuesOfS6()
    ensures AllDifferent(S6(0))
    ensures AllDifferent(S6(1))
  {
  }

  lemma MoreValuesOfS6()
    ensures AllDifferent(S6(2))
    ensures AllDifferent(S6(3))
  {
  }

  /** Box 7 of FIPS PUB 46-3. */
  lemma StandardS7()
    ensures Packed(S7(0)) == 0x4B2E_F08D_3C97_5A61 && Packed(S7(1)) == 0xD0B7_491A_E35C_2F86
    ensures Packed(S7(2)) == 0x14BD_C37E_AF68_0592 && Packed(S7(3)) == 0x6BD8_14A7_950F_E23C
  {
  }

  lemma ColumnsOfS7()
    ensures NearColumns(S7(0)) == NearColumns(S7(1)) == NearColumns(S7(2)) == NearColumns(S7(3)) == 0
  {
  }

  lemma RowsOfS7()
    ensures NearRows(S7(0), S7(1)) == NearRows(S7(2), S7(3)) == 0
    ensures NearRows(S7(0), S7(2)) == NearRows(S7(1), S7(3)) == 0
  {
  }

  lemma ValuesOfS7()
    ensures AllDifferent(S7(0))
    ensures AllDifferent(S7(1))
  {
  }

  lemma MoreValuesOfS7()
    ensures AllDifferent(S7(2))
    ensures AllDifferent(S7(3))
  {
  }

  /** Box 8 of FIPS PUB 46-3. */
  lemma StandardS8()
    ensures Packed(S8(0)) == 0xD284_6FB1_A93E_50C7 && Packed(S8(1)) == 0x1FD8_A374_C56B_0E92
    ensures Packed(S8(2)) == 0x7B41_9CE2_06AD_F358 && Packed(S8(3)) == 0x21E7_4A8D_FC90_356B
  {
  }

  lemma ColumnsOfS8()
    ensures NearColumns(S8(0)) == NearColumns(S8(1)) == NearColumns(S8(2)) == NearColumns(S8(3)) == 0
  {
  }

  lemma RowsOfS8()
    ensures NearRows(S8(0), S8(1)) == NearRows(S8(2), S8(3)) == 0
    ensures NearRows(S8(0), S8(2)) == NearRows(S8(1), S8(3)) == 0
  {
  }

  lemma ValuesOfS8()
    ensures AllDifferent(S8(0))
    ensures AllDifferent(S8(1))
  {
  }

  lemma MoreValuesOfS8()
    ensures AllDifferent(S8(2))
    ensures AllDifferent(S8(3))
  {
  }

  // ----- All boxes -------------------------------------------------------------------

  lemma Columns(m: nat, i: nat)
    requires m < 8 && i < 4
    ensures NearColumns(SBox(m, i)) == 0
  {
    hide NearColumns, S1, S2, S3, S4, S5, S6, S7, S8;
    match m {
      case 0 => ColumnsOfS1();
      case 1 => ColumnsOfS2();
      case 2 => ColumnsOfS3();
      case 3 => ColumnsOfS4();
      case 4 => ColumnsOfS5();
      case 5 => ColumnsOfS6();
      case 6 => ColumnsOfS7();
      case _ => ColumnsOfS8();
    }
  }

  lemma Rows(m: nat)
    requires m < 8
    ensures NearRows(SBox(m, 0), SBox(m, 1)) == NearRows(SBox(m, 2), SBox(m, 3)) == 0
    ensures NearRows(SBox(m, 0), SBox(m, 2)) == NearRows(SBox(m, 1), SBox(m, 3)) == 0
  {
    hide NearRows, S1, S2, S3, S4, S5, S6, S7, S8;
    match m {
      case 0 => RowsOfS1();
      case 1 => RowsOfS2();
      case 2 => RowsOfS3();
      case 3 => RowsOfS4();
      case 4 => RowsOfS5();
      case 5 => RowsOfS6();
      case 6 => RowsOfS7();
      case _ => RowsOfS8();
    }
  }

  lemma Values(m: nat, i: nat)
    requires m < 8 && i < 4
    ensures AllDifferent(SBox(m, i))
  {
    hide AllDifferent, S1, S2, S3, S4, S5, S6, S7, S8;
    match m {
      case 0 => ValuesOfS1(); MoreValuesOfS1();
      case 1 => ValuesOfS2(); MoreValuesOfS2();
      case 2 => ValuesOfS3(); MoreValuesOfS3();
      case 3 => ValuesOfS4(); MoreValuesOfS4();
      case 4 => ValuesOfS5(); MoreValuesOfS5();
      case 5 => ValuesOfS6(); MoreValuesOfS6();
      case 6 => ValuesOfS7(); MoreValuesOfS7();
      case _ => ValuesOfS8(); MoreValuesOfS8();
    }
  }

  /** Sixteen different nibbles are all nibbles. */
  lemma {:induction false} Onto(r: seq<Nibble>, v: Nibble)
    requires |r| == 16 && AllDifferent(r)
    ensures v in r
  {
    if v !in r {
      var used := set i | 0 <= i < 16 :: r[i];
      AsMany(r, 16);
      assert |used + {v}| == |used| + 1;
      Below16(used + {v});
    }
  }

  lemma {:induction false} AsMany(r: seq<Nibble>, n: nat)
    requires n <= |r| && AllDifferent(r)
    ensures |set i | 0 <= i < n :: r[i]| == n
  {
    if n > 0 {
      AsMany(r, n - 1);
      assert (set i | 0 <= i < n :: r[i]) == (set i | 0 <= i < n - 1 :: r[i]) + {r[n - 1]};
    }
  }

  lemma Below16(a: set<Nibble>)
    ensures |a| <= 16
  {
    var all: set<Nibble> := {0, 1, 2, 3, 4, 5, 6, 7, 8, 9, 10, 11, 12, 13, 14, 15};
    assert a <= all;
    Subset(a, all);
  }

  lemma {:induction false} Subset<T>(a: set<T>, b: set<T>)
    requires a <= b
    ensures |a| <= |b|
  {
    if a != {} {
      var x :| x in a;
      Subset(a - {x}, b - {x});
    }
  }

  /** Each row of each box is a permutation of the sixteen values. */
  lemma RowPermutes(m: nat, i: nat)
    requires m < 8 && i < 4
    ensures AllDifferent(SBox(m, i)) && forall v: Nibble :: v in SBox(m, i)
  {
    hide AllDifferent, SBox;
    Values(m, i);
    forall v: Nibble ensures v in SBox(m, i) { Onto(SBox(m, i), v); }
  }

  lemma NearIsSymmetric(u: Nibble, v: Nibble)
    ensures Near(u, v) == Near(v, u)
  {
  }

  /** Two columns of a row whose numbers differ in one bit. */
  lemma ColumnsApart(r: seq<Nibble>, a: nat, w: nat)
    requires |r| == 16 && NearColumns(r) == 0 && (w == 1 || w == 2 || w == 4 || w == 8)
    requires a < 16 && a / w % 2 == 0
    ensures a + w < 16 && Near(r[a], r[a + w]) == 0
  {
    hide Near;
    if w == 1 {
      assert a == 0 || a == 2 || a == 4 || a == 6 || a == 8 || a == 10 || a == 12 || a == 14;
    } else if w == 2 {
      assert a == 0 || a == 1 || a == 4 || a == 5 || a == 8 || a == 9 || a == 12 || a == 13;
    } else if w == 4 {
      assert a == 0 || a == 1 || a == 2 || a == 3 || a == 8 || a == 9 || a == 10 || a == 11;
    } else {
      assert a == 0 || a == 1 || a == 2 || a == 3 || a == 4 || a == 5 || a == 6 || a == 7;
    }
  }

  lemma RowsApart(r: seq<Nibble>, q: seq<Nibble>, a: nat)
    requires |r| == |q| == 16 && NearRows(r, q) == 0 && a < 16
    ensures Near(r[a], q[a]) == 0
  {
    hide Near;
    assert a == 0 || a == 1 || a == 2 || a == 3 || a == 4 || a == 5 || a == 6 || a == 7
      || a == 8 || a == 9 || a == 10 || a == 11 || a == 12 || a == 13 || a == 14 || a == 15;
  }

  function Flipped(s: Bits, p: nat): (r: Bits)
    requires p < |s|
    ensures |r| == |s|
  {
    s[p := 1 - s[p]]
  }

  /** Input bits 1 to 4 of a box choose the column. */
  lemma ColumnBit(s: Bits, m: nat, k: nat)
    requires |s| == 48 && m < 8 && 1 <= k <= 4 && s[6 * m + k] == 0
    ensures Near(SBoxValue(s, m), SBoxValue(Flipped(s, 6 * m + k), m)) == 0
  {
    hide SBox, Near, NearColumns;
    var t := Flipped(s, 6 * m + k);
    var w := if k == 1 then 8 else if k == 2 then 4 else if k == 3 then 2 else 1;
    assert RowOf(t, m) == RowOf(s, m) && ColumnOf(t, m) == ColumnOf(s, m) + w;
    Columns(m, RowOf(s, m));
    assert ColumnOf(s, m) / w % 2 == 0;
    ColumnsApart(SBox(m, RowOf(s, m)), ColumnOf(s, m), w);
  }

  /** The outer two choose the row. */
  lemma RowBit(s: Bits, m: nat, k: nat)
    requires |s| == 48 && m < 8 && (k == 0 || k == 5) && s[6 * m + k] == 0
    ensures Near(SBoxValue(s, m), SBoxValue(Flipped(s, 6 * m + k), m)) == 0
  {
    hide SBox, Near, NearRows;
    var t := Flipped(s, 6 * m + k);
    var i := RowOf(s, m);
    assert RowOf(t, m) == i + (if k == 0 then 2 else 1) && ColumnOf(t, m) == ColumnOf(s, m);
    Rows(m);
    RowsApart(SBox(m, i), SBox(m, RowOf(t, m)), ColumnOf(s, m));
  }

  /** Flipping one of the 48 bits changes at least two bits of the output of its box, and nothing
      else. */
  lemma OneBitChangesTwo(s: Bits, p: nat)
    requires |s| == 48 && p < 48
    ensures Differ(SBoxValue(s, p / 6), SBoxValue(Flipped(s, p), p / 6)) >= 2
    ensures forall m: nat :: m < 8 && m != p / 6 ==> SBoxValue(Flipped(s, p), m) == SBoxValue(s, m)
  {
    hide SBox, Differ;
    var m, k := p / 6, p % 6;
    var t := Flipped(s, p);
    assert p == 6 * m + k && Flipped(t, p) == s;
    var low := if s[p] == 0 then s else t;
    if 1 <= k <= 4 { ColumnBit(low, m, k); } else { RowBit(low, m, k); }
    NearIsSymmetric(SBoxValue(s, m), SBoxValue(t, m));
    forall n: nat | n < 8 && n != m ensures SBoxValue(t, n) == SBoxValue(s, n) {
      assert forall x :: 6 * n <= x < 6 * n + 6 ==> t[x] == s[x];
    }
  }
}
