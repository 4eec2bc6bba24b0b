/** What the subkeys and the rounds of the cipher depend on. */
module DesKeys {
  // Every bit of the key that the schedule selects reaches some subkey, so the subkeys tell keys
  // apart; the expansion and the permutation of a round lose no bit; and complementing key and
  // block complements the result.

  import opened Des

  // ----- Which bits of the key the subkeys show ----------------------------------------

  /** The positions of the rotated key that no subkey selects. */
  predicate Skipped(p: nat) {
    p == 8 || p == 17 || p == 21 || p == 24 || p == 34 || p == 37 || p == 42 || p == 53
  }

  /** Where the subkey has the bit of position `p` of the rotated key. */
  function LeftPlace(p: nat): (j: nat)
    requires p < 28
    ensures j < 24
  {
    [4, 23, 6, 15, 5, 9, 19, 17, 0, 11, 2, 14, 22, 0, 8, 18, 1, 0, 13, 21, 10, 0, 12, 3, 0, 16, 20, 7][p]
  }

  function RightPlace(p: nat): (j: nat)
    requires 28 <= p < 56
    ensures 24 <= j < 48
  {
    24 + [22, 6, 2, 23, 10, 16, 0, 21, 3, 0, 14, 7, 0, 19, 0, 12, 9, 18, 4, 11, 13, 20, 8, 1, 17, 0, 5, 15][p - 28]
  }

  lemma LeftSelected(p: nat)
    requires p < 28 && !Skipped(p)
    ensures LEFT_SELECTION[LeftPlace(p)] == p
  {
    if p < 14 { LeftLow(p); } else { LeftHigh(p); }
  }

  lemma LeftLow(p: nat)
    requires p < 14 && !Skipped(p)
    ensures LEFT_SELECTION[LeftPlace(p)] == p
  {
    assert p == 0 || p == 1 || p == 2 || p == 3 || p == 4 || p == 5 || p == 6 || p == 7 || p == 9 || p == 10
      || p == 11 || p == 12 || p == 13;
  }

  lemma LeftHigh(p: nat)
    requires 14 <= p < 28 && !Skipped(p)
    ensures LEFT_SELECTION[LeftPlace(p)] == p
  {
    assert p == 14 || p == 15 || p == 16 || p == 18 || p == 19 || p == 20 || p == 22 || p == 23 || p == 25
      || p == 26 || p == 27;
  }

  lemma RightSelected(p: nat)
    requires 28 <= p < 56 && !Skipped(p)
    ensures RIGHT_SELECTION[RightPlace(p) - 24] == p
  {
    if p < 42 { RightLow(p); } else { RightHigh(p); }
  }

  lemma RightLow(p: nat)
    requires 28 <= p < 42 && !Skipped(p)
    ensures RIGHT_SELECTION[RightPlace(p) - 24] == p
  {
    assert p == 28 || p == 29 || p == 30 || p == 31 || p == 32 || p == 33 || p == 35 || p == 36 || p == 38
      || p == 39 || p == 40 || p == 41;
  }

  lemma RightHigh(p: nat)
    requires 42 <= p < 56 && !Skipped(p)
    ensures RIGHT_SELECTION[RightPlace(p) - 24] == p
  {
    assert p == 43 || p == 44 || p == 45 || p == 46 || p == 47 || p == 48 || p == 49 || p == 50 || p == 51
      || p == 52 || p == 54 || p == 55;
  }

  lemma Selected(p: nat) returns (j: nat)
    requires p < 56 && !Skipped(p)
    ensures j < |KEY_SELECTION| && KEY_SELECTION[j] == p
  {
    assert |LEFT_SELECTION| == 24;
    if p < 28 {
      LeftSelected(p);
      j := LeftPlace(p);
    } else {
      RightSelected(p);
      j := RightPlace(p);
    }
  }

  /** The position to which `n` turns bring the bit of position `x`. */
  function Turned(x: nat, n: nat): (p: nat)
    requires x < 56 && n <= 28
    ensures p < 56
  {
    if x < 28 then (if n <= x then x - n else x + 28 - n) else if 28 + n <= x then x - n else x + 28 - n
  }

  lemma TurnedBack(s: Bits, x: nat, n: nat)
    requires |s| == 56 && x < 56 && n <= 28
    ensures RotateBy(s, n)[Turned(x, n)] == s[x]
  {
    RotatedAt(s, n, Turned(x, n));
  }

  /** A bit that the first subkey skips is in the second. */
  lemma SkippedOnce(x: nat)
    requires x < 56 && Skipped(Turned(x, 1))
    ensures !Skipped(Turned(x, 2))
  {
  }

  lemma SubKeyShows(k1: Bits, k2: Bits, i: nat, x: nat)
    requires |k1| == |k2| == 64 && i < 16 && x < 56 && Shifts(i + 1) <= 28 && SubKey(k1, i) == SubKey(k2, i)
    requires !Skipped(Turned(x, Shifts(i + 1)))
    ensures KeyBits(k1)[x] == KeyBits(k2)[x]
  {
    hide KeyBits, RotateBy, Turned;
    var n := Shifts(i + 1);
    var j := Selected(Turned(x, n));
    KeySelectionBelow();
    TurnedBack(KeyBits(k1), x, n);
    TurnedBack(KeyBits(k2), x, n);
    assert SubKey(k1, i)[j] == RotateBy(KeyBits(k1), n)[Turned(x, n)];
    assert SubKey(k2, i)[j] == RotateBy(KeyBits(k2), n)[Turned(x, n)];
  }

  lemma KeyBitShows(k1: Bits, k2: Bits, x: nat)
    requires |k1| == |k2| == 64 && x < 56 && GenerateKeys(k1) == GenerateKeys(k2)
    ensures KeyBits(k1)[x] == KeyBits(k2)[x]
  {
    hide KeyBits, SubKey, Turned, Skipped;
    assert Shifts(1) == 1 && Shifts(2) == 2;
    assert GenerateKeys(k1)[0] == SubKey(k1, 0) && GenerateKeys(k1)[1] == SubKey(k1, 1);
    assert GenerateKeys(k2)[0] == SubKey(k2, 0) && GenerateKeys(k2)[1] == SubKey(k2, 1);
    if Skipped(Turned(x, 1)) {
      SkippedOnce(x);
      SubKeyShows(k1, k2, 1, x);
    } else {
      SubKeyShows(k1, k2, 0, x);
    }
  }

  /** The subkeys depend on every bit of the key but the last of each eight: two keys have the same
      subkeys exactly if they agree everywhere else. */
  lemma SubkeysTellKeys(k1: Bits, k2: Bits)
    requires |k1| == |k2| == 64
    ensures GenerateKeys(k1) == GenerateKeys(k2) <==> forall i: nat :: i < 64 && i % 8 != 7 ==> k1[i] == k2[i]
  {
    hide SubKey;
    if GenerateKeys(k1) == GenerateKeys(k2) {
      forall i: nat | i < 64 && i % 8 != 7 ensures k1[i] == k2[i] {
        var x := 8 * (i % 8) + (7 - i / 8);
        assert x % 8 == 7 - i / 8 && x / 8 == i % 8;
        KeyBitShows(k1, k2, x);
        assert 8 * (7 - x % 8) + x / 8 == i;
      }
    } else if forall i: nat :: i < 64 && i % 8 != 7 ==> k1[i] == k2[i] {
      assert KeyBits(k1) == KeyBits(k2) by {
        forall x: nat | x < 56 ensures KeyBits(k1)[x] == KeyBits(k2)[x] {
          assert (8 * (7 - x % 8) + x / 8) % 8 == x / 8;
        }
      }
      SameKeyBits(k1, k2);
    }
  }

  lemma SameKeyBits(k1: Bits, k2: Bits)
    requires |k1| == |k2| == 64 && KeyBits(k1) == KeyBits(k2)
    ensures GenerateKeys(k1) == GenerateKeys(k2)
  {
    forall i: nat | i < 16 ensures GenerateKeys(k1)[i] == GenerateKeys(k2)[i] {
    }
  }

  // ----- The choice of key bits against the standard -------------------------------------

  /** Permuted choice 1 of FIPS PUB 46-3, counting from zero. */
  function StandardChoice(p: nat): (i: nat)
    requires p < 56
    ensures i < 64
  {
    if p < 28 then 8 * (7 - p % 8) + p / 8
    else if p < 52 then 8 * (7 - (p - 28) % 8) + 6 - (p - 28) / 8
    else 8 * (55 - p) + 3
  }

  function StandardBits(key: Bits): (r: Bits)
    requires |key| == 64
    ensures |r| == 56
  {
    seq(56, p requires 0 <= p < 56 => key[StandardChoice(p)])
  }

  /** The first half of the key bits is chosen as in the standard, and no bit of the second half
      is. */
  lemma ChoiceAgainstStandard(p: nat)
    requires p < 56
    ensures 8 * (7 - p % 8) + p / 8 == StandardChoice(p) <==> p < 28
  {
    var c, d := p / 8, (p - 28) / 8;
    assert p == 8 * c + p % 8 && p - 28 == 8 * d + (p - 28) % 8;
  }

  function OneBit(x: nat): (r: Bits)
    ensures |r| == 64
  {
    seq(64, i requires 0 <= i < 64 => if i == x then 1 else 0)
  }

  /** So the subkeys are not those of the standard: the first subkey of this key differs. */
  lemma OtherSchedule()
    ensures var key := OneBit(27);
      && |KEY_SELECTION| == 48 && Below(KEY_SELECTION, 56)
      && SubKey(key, 0) != Permute(RotateBy(StandardBits(key), 1), KEY_SELECTION)
  {
    hide RotateBy, KeyBits, StandardBits;
    var key := OneBit(27);
    KeySelectionBelow();
    assert Shifts(1) == 1;
    var j := 39;
    assert KEY_SELECTION[j] == 55 by { LastSelected(); }
    RotatedAt(KeyBits(key), 1, 55);
    RotatedAt(StandardBits(key), 1, 55);
    assert KeyBits(key)[28] == 1 && StandardBits(key)[28] == 0 by { BitsOfOne(); }
    assert SubKey(key, 0)[j] == 1;
    assert Permute(RotateBy(StandardBits(key), 1), KEY_SELECTION)[j] == 0;
  }

  lemma LastSelected()
    ensures |KEY_SELECTION| == 48 && KEY_SELECTION[39] == 55
  {
    assert |LEFT_SELECTION| == 24;
    assert KEY_SELECTION[39] == RIGHT_SELECTION[15];
  }

  lemma BitsOfOne()
    ensures KeyBits(OneBit(27))[28] == 1 && StandardBits(OneBit(27))[28] == 0
  {
  }

  // ----- Keys that encrypt as they decrypt -----------------------------------------------

  /** How far the key is turned after round `i`. */
  function Turns(i: nat): (n: nat)
    requires i < 16
    ensures 0 < n <= 28
  {
    if i == 0 then 1 else if i < 8 then 2 * i else if i < 15 then 2 * i - 1 else 28
  }

  lemma {:induction false} ShiftsAre(i: nat)
    requires i < 16
    ensures Shifts(i + 1) == Turns(i)
  {
    assert Shifts(0) == 0;
    if i > 0 { ShiftsAre(i - 1); }
  }

  /** Each half of the key is all zeros or all ones. */
  predicate Uniform(s: Bits)
    requires |s| == 56
  {
    (forall x: nat :: x < 28 ==> s[x] == s[0]) && (forall x: nat :: 28 <= x < 56 ==> s[x] == s[28])
  }

  function Around(x: nat): nat {
    if x < 28 then x else x - 28
  }

  /** A round that turns the bit `x` of a half to the place 0, or to the place 1. */
  function RoundFor(x: nat): (i: nat)
    requires x < 28
    ensures i < 16 && (x == Around(Turns(i)) || x == Around(Turns(i) + 1))
  {
    if x == 0 then 15 else if x == 1 then 0 else if x < 15 then x / 2 else (x + 1) / 2
  }

  lemma PlaceShown(key: Bits, i: nat, j: nat)
    requires |key| == 64 && i < 16 && j < 48
    ensures |KEY_SELECTION| == 48
    ensures KEY_SELECTION[j] <= 1 ==> SubKey(key, i)[j] == KeyBits(key)[Around(Turns(i) + KEY_SELECTION[j])]
    ensures 28 <= KEY_SELECTION[j] <= 29 ==>
      SubKey(key, i)[j] == KeyBits(key)[28 + Around(Turns(i) + KEY_SELECTION[j] - 28)]
  {
    hide KeyBits, Turns, Shifts, KEY_SELECTION;
    ShiftsAre(i);
    KeySelectionBelow();
    RotatedAt(KeyBits(key), Turns(i), KEY_SELECTION[j]);
  }

  lemma FirstSelected()
    ensures |KEY_SELECTION| == 48 && KEY_SELECTION[4] == 0 && KEY_SELECTION[23] == 1
    ensures KEY_SELECTION[46] == 28 && KEY_SELECTION[30] == 29
  {
    assert |LEFT_SELECTION| == 24;
    assert KEY_SELECTION[46] == RIGHT_SELECTION[22] && KEY_SELECTION[30] == RIGHT_SELECTION[6];
    assert KEY_SELECTION[4] == LEFT_SELECTION[4] && KEY_SELECTION[23] == LEFT_SELECTION[23];
  }

  /** The places 0, 1, 28 and 29 of the turned key are in each subkey. */
  lemma FirstPlaces(key: Bits, i: nat)
    requires |key| == 64 && i < 16
    ensures var s := KeyBits(key);
      var n := Turns(i);
      && SubKey(key, i)[4] == s[Around(n)] && SubKey(key, i)[23] == s[Around(n + 1)]
      && SubKey(key, i)[46] == s[28 + Around(n)] && SubKey(key, i)[30] == s[28 + Around(n + 1)]
  {
    hide KeyBits, SubKey, Turns, KEY_SELECTION, Around;
    FirstSelected();
    PlaceShown(key, i, 4);
    PlaceShown(key, i, 23);
    PlaceShown(key, i, 46);
    PlaceShown(key, i, 30);
  }

  lemma SameBit(key: Bits, x: nat)
    requires |key| == 64 && x < 28 && forall i: nat :: i < 16 ==> SubKey(key, i) == SubKey(key, 0)
    ensures KeyBits(key)[x] == KeyBits(key)[1] && KeyBits(key)[28 + x] == KeyBits(key)[29]
  {
    hide KeyBits, SubKey;
    FirstPlaces(key, 0);
    FirstPlaces(key, 1);
    FirstPlaces(key, RoundFor(x));
  }

  /** All subkeys are the same exactly if each half of the selected key is uniform. */
  lemma SameSubkeys(key: Bits)
    requires |key| == 64
    ensures (forall i: nat :: i < 16 ==> SubKey(key, i) == SubKey(key, 0)) <==> Uniform(KeyBits(key))
  {
    hide KeyBits, SubKey;
    var s := KeyBits(key);
    if forall i: nat :: i < 16 ==> SubKey(key, i) == SubKey(key, 0) {
      SameBit(key, 0);
      forall x: nat | x < 28 ensures s[x] == s[0] { SameBit(key, x); }
      forall x: nat | 28 <= x < 56 ensures s[x] == s[28] { SameBit(key, x - 28); }
    }
    if Uniform(s) {
      forall i: nat | i < 16 ensures SubKey(key, i) == SubKey(key, 0) {
        UniformTurned(key, i);
        UniformTurned(key, 0);
      }
    }
  }

  lemma {:induction false} UniformTurns(s: Bits, n: nat)
    requires |s| == 56 && Uniform(s)
    ensures RotateBy(s, n) == s
  {
    if n > 0 {
      UniformTurns(s, n - 1);
      forall x: nat | x < 56 ensures Rotate(s)[x] == s[x] {
        assert Rotate(s)[x] == if x == 27 then s[0] else if x == 55 then s[28] else s[x + 1];
      }
    }
  }

  lemma UniformTurned(key: Bits, i: nat)
    requires |key| == 64 && Uniform(KeyBits(key))
    ensures |KEY_SELECTION| == 48 && Below(KEY_SELECTION, 56)
    ensures SubKey(key, i) == Permute(KeyBits(key), KEY_SELECTION)
  {
    hide KeyBits, Permute;
    KeySelectionBelow();
    UniformTurns(KeyBits(key), Shifts(i + 1));
  }

  /** With such a key encrypting twice gives the block back. */
  lemma WeakKey(data: Bits, key: Bits)
    requires |data| == 64 && |key| == 64 && Uniform(KeyBits(key))
    ensures Enc(Enc(data, key), key) == data
  {
    hide KeyBits, SubKey, Crypt, Uniform;
    SameSubkeys(key);
    var keys := GenerateKeys(key);
    assert Reverse(keys) == keys;
    CryptUndone(data, keys);
  }

  // ----- No bit of a half is lost in a round -------------------------------------------

  /** Each box sees its own four bits of the half and the two beside them, around the end. */
  lemma ExpandIs(s: Bits, m: nat, k: nat)
    requires |s| == 32 && m < 8 && k < 6
    ensures 6 * m + k < 48 && ExpandPermute(s)[6 * m + k] == s[(4 * m + k + 31) % 32]
  {
    assert (6 * m + k) / 6 == m && (6 * m + k) % 6 == k;
  }

  /** Where pPermute puts bit `i`. */
  function PPlace(i: nat): (x: nat)
    requires i < 32
    ensures x < 32
  {
    [8, 16, 22, 30, 12, 27, 1, 17, 23, 15, 29, 5, 25, 19, 9, 0,
     7, 13, 24, 2, 3, 28, 10, 18, 31, 11, 21, 6, 4, 26, 14, 20][i]
  }

  lemma PPlaceLow(i: nat)
    requires i < 16
    ensures |P_BOX| == 32 && P_BOX[PPlace(i)] == i
  {
    assert i == 0 || i == 1 || i == 2 || i == 3 || i == 4 || i == 5 || i == 6 || i == 7
      || i == 8 || i == 9 || i == 10 || i == 11 || i == 12 || i == 13 || i == 14 || i == 15;
  }

  lemma PPlaceHigh(i: nat)
    requires 16 <= i < 32
    ensures |P_BOX| == 32 && P_BOX[PPlace(i)] == i
  {
    assert i == 16 || i == 17 || i == 18 || i == 19 || i == 20 || i == 21 || i == 22 || i == 23
      || i == 24 || i == 25 || i == 26 || i == 27 || i == 28 || i == 29 || i == 30 || i == 31;
  }

  /** pPermute is a bijection: each bit of the half goes to one place, and no two to the same. */
  lemma PPermuteIsBijective(s: Bits, i: nat, j: nat)
    requires |s| == 32 && i < 32 && j < 32
    ensures PPermute(s)[PPlace(i)] == s[i]
    ensures i != j ==> PPlace(i) != PPlace(j)
  {
    hide PPlace;
    if i < 16 { PPlaceLow(i); } else { PPlaceHigh(i); }
    if j < 16 { PPlaceLow(j); } else { PPlaceHigh(j); }
  }

  // ----- Complements -----------------------------------------------------------------

  function Not(s: Bits): (r: Bits)
    ensures |r| == |s|
  {
    seq(|s|, i requires 0 <= i < |s| => 1 - s[i])
  }

  function NotAll(keys: seq<Bits>): (r: seq<Bits>)
    ensures |r| == |keys|
  {
    seq(|keys|, i requires 0 <= i < |keys| => Not(keys[i]))
  }

  lemma XorOfNots(a: Bits, b: Bits)
    requires |a| == |b|
    ensures Xor(Not(a), Not(b)) == Xor(a, b) && Xor(a, Not(b)) == Not(Xor(a, b))
  {
  }

  lemma MixOfNots(right: Bits, key: Bits)
    requires |right| == 32 && |key| == 48
    ensures Mix(Not(right), Not(key)) == Mix(right, key)
  {
    hide Xor, SBoxPermute, PPermute;
    assert ExpandPermute(Not(right)) == Not(ExpandPermute(right));
    XorOfNots(ExpandPermute(right), key);
  }

  function NotHalves(h: Halves): Halves {
    Halves(Not(h.left), Not(h.right))
  }

  lemma RoundOfNots(h: Halves, key: Bits)
    requires GoodHalves(h) && |key| == 48
    ensures Round(NotHalves(h), Not(key)) == NotHalves(Round(h, key))
  {
    hide Mix, Xor, Not;
    MixOfNots(h.right, key);
    XorOfNots(Mix(h.right, key), h.left);
  }

  lemma {:induction false} RoundsOfNots(h: Halves, keys: seq<Bits>)
    requires GoodHalves(h) && GoodKeys(keys)
    ensures GoodKeys(NotAll(keys)) && Rounds(NotHalves(h), NotAll(keys)) == NotHalves(Rounds(h, keys))
    decreases |keys|
  {
    hide Round, Not;
    if keys != [] {
      var before, last := keys[..|keys|-1], keys[|keys|-1];
      assert NotAll(keys)[..|keys|-1] == NotAll(before);
      RoundsOfNots(h, before);
      RoundOfNots(Rounds(h, before), last);
    }
  }

  lemma PermutationsOfNot(s: Bits)
    requires |s| == 64
    ensures InitPermute(Not(s)) == Not(InitPermute(s)) && FinallyPermute(Not(s)) == Not(FinallyPermute(s))
  {
    hide InitialSource, FinalSource;
  }

  lemma HalvesOfNot(s: Bits, h: Halves)
    requires |s| == 64 && GoodHalves(h)
    ensures Split(Not(s)) == NotHalves(Split(s)) && Not(h.right) + Not(h.left) == Not(h.right + h.left)
  {
    assert Not(s)[..32] == Not(s[..32]) && Not(s)[32..] == Not(s[32..]);
  }

  lemma CryptOfNots(data: Bits, keys: seq<Bits>)
    requires |data| == 64 && GoodKeys(keys)
    ensures GoodKeys(NotAll(keys)) && Crypt(Not(data), NotAll(keys)) == Not(Crypt(data, keys))
  {
    hide InitPermute, FinallyPermute, Rounds, Not, Split;
    var s := InitPermute(data);
    var e := Rounds(Split(s), keys);
    PermutationsOfNot(data);
    HalvesOfNot(s, e);
    RoundsOfNots(Split(s), keys);
    PermutationsOfNot(e.right + e.left);
  }

  lemma {:induction false} RotationsOfNot(s: Bits, n: nat)
    requires |s| == 56
    ensures RotateBy(Not(s), n) == Not(RotateBy(s, n))
  {
    if n == 0 {
    } else {
      RotationsOfNot(s, n - 1);
      var r := RotateBy(s, n - 1);
      assert Rotate(Not(r)) == Not(Rotate(r));
    }
  }

  lemma SubKeyOfNot(key: Bits, i: nat)
    requires |key| == 64
    ensures SubKey(Not(key), i) == Not(SubKey(key, i))
  {
    hide RotateBy;
    KeySelectionBelow();
    assert KeyBits(Not(key)) == Not(KeyBits(key));
    RotationsOfNot(KeyBits(key), Shifts(i + 1));
  }

  /** Complementing the key and the block complements the encrypted block. */
  lemma Complementation(data: Bits, key: Bits)
    requires |data| == 64 && |key| == 64
    ensures Enc(Not(data), Not(key)) == Not(Enc(data, key))
  {
    hide Not, SubKey, Crypt;
    var keys := GenerateKeys(key);
    forall i: nat | i < 16 ensures GenerateKeys(Not(key))[i] == Not(keys[i]) { SubKeyOfNot(key, i); }
    assert GenerateKeys(Not(key)) == NotAll(keys);
    CryptOfNots(data, keys);
  }

  // ----- The computation as the standard writes it ---------------------------------------

  /** The halves l[i], r[i] after each round: the left one is the right one before, the right one
      is the left one before with the round function added. */
  predicate Computation(l: seq<Bits>, r: seq<Bits>, keys: seq<Bits>)
    requires GoodKeys(keys)
  {
    && |l| == |r| == |keys| + 1
    && (forall i :: 0 <= i <= |keys| ==> |l[i]| == 32 && |r[i]| == 32)
    && (forall i :: 0 <= i < |keys| ==> l[i + 1] == r[i] && r[i + 1] == Xor(l[i], Mix(r[i], keys[i])))
  }

  lemma XorCommutes(a: Bits, b: Bits)
    requires |a| == |b|
    ensures Xor(a, b) == Xor(b, a)
  {
  }

  lemma {:induction false} ComputedRounds(l: seq<Bits>, r: seq<Bits>, keys: seq<Bits>)
    requires GoodKeys(keys) && Computation(l, r, keys)
    ensures Rounds(Halves(l[0], r[0]), keys) == Halves(l[|keys|], r[|keys|])
    decreases |keys|
  {
    hide Mix, Xor;
    if keys != [] {
      var n := |keys| - 1;
      ComputedRounds(l[..n + 1], r[..n + 1], keys[..n]);
      XorCommutes(l[n], Mix(r[n], keys[n]));
    }
  }

  /** The enciphering computation of FIPS PUB 46-3: from the initial permutation through all
      rounds, one for each subkey, to the last permutation of the exchanged halves. */
  lemma CryptIsComputation(data: Bits, keys: seq<Bits>, l: seq<Bits>, r: seq<Bits>)
    requires |data| == 64 && GoodKeys(keys) && Computation(l, r, keys) && l[0] + r[0] == InitPermute(data)
    ensures Crypt(data, keys) == FinallyPermute(r[|keys|] + l[|keys|])
  {
    hide InitPermute, FinallyPermute, Rounds;
    ComputedRounds(l, r, keys);
    assert Split(InitPermute(data)) == Halves(l[0], r[0]);
  }
}
