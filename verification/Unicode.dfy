/** UTF-8, which cjson.c and tinyxml2 write with the same code. */
module Unicode {
  import opened Bytes
  import opened Options

  /** A continuation byte with the lowest six bits. */
  function Tail(c: nat): byte {
    0x80 + (c % 0x40) as byte
  }

  /** The bytes for a code; none for one beyond 21 bits. */
  function Utf8(c: nat): (t: Text)
    ensures |t| <= 4 && (c < 0x80 ==> |t| == 1)
  {
    if c < 0x80 then [c as byte]
    else if c < 0x800 then [0xC0 + (c / 0x40) as byte, Tail(c)]
    else if c < 0x1_0000 then [0xE0 + (c / 0x40 / 0x40) as byte, Tail(c / 0x40), Tail(c)]
    else if c < 0x20_0000 then
      [0xF0 + (c / 0x40 / 0x40 / 0x40) as byte, Tail(c / 0x40 / 0x40), Tail(c / 0x40), Tail(c)]
    else []
  }

  // ----- Reading it: section 3 of RFC 3629 ---------------------------------------------

  predicate IsTail(b: byte) {
    0x80 <= b < 0xC0
  }

  function Bits(b: byte): nat {
    (b % 0x40) as nat
  }

  /** The code and the length of the first character, if it is well-formed: continuation bytes
      where the first byte asks for them, and no more bytes than the code needs. */
  function FirstChar(t: Text): Option<(nat, nat)> {
    if t == [] then None
    else if t[0] < 0x80 then Some((t[0] as nat, 1))
    else if 0xC0 <= t[0] < 0xE0 && 2 <= |t| && IsTail(t[1]) then
      AtLeast(0x80, 0x40 * (t[0] - 0xC0) as nat + Bits(t[1]), 2)
    else if 0xE0 <= t[0] < 0xF0 && 3 <= |t| && IsTail(t[1]) && IsTail(t[2]) then
      AtLeast(0x800, 0x1000 * (t[0] - 0xE0) as nat + 0x40 * Bits(t[1]) + Bits(t[2]), 3)
    else if 0xF0 <= t[0] < 0xF8 && 4 <= |t| && IsTail(t[1]) && IsTail(t[2]) && IsTail(t[3]) then
      AtLeast(0x1_0000, 0x4_0000 * (t[0] - 0xF0) as nat + 0x1000 * Bits(t[1]) + 0x40 * Bits(t[2]) + Bits(t[3]), 4)
    else None
  }

  function AtLeast(least: nat, c: nat, width: nat): Option<(nat, nat)> {
    if least <= c then Some((c, width)) else None
  }

  lemma TailBack(c: nat)
    ensures IsTail(Tail(c)) && Bits(Tail(c)) == c % 0x40
  {
  }

  /** What is written for a code is read as that code, whatever follows. */
  lemma Utf8Back(c: nat, rest: Text)
    requires c < 0x20_0000
    ensures FirstChar(Utf8(c) + rest) == Some((c, |Utf8(c)|))
  {
    hide Tail, IsTail, Bits;
    var t, u := Utf8(c), Utf8(c) + rest;
    TailBack(c);
    TailBack(c / 0x40);
    TailBack(c / 0x40 / 0x40);
    assert forall i :: 0 <= i < |t| ==> u[i] == t[i];
  }

  /** The switch that falls through: the bytes are written from the last
      to the first, each with the lowest six bits that are left. */
  method ToUtf8(input: nat) returns (out: Text)
    ensures out == Utf8(input)
  {
    hide Tail;
    var length :=
      if input < 0x80 then 1 else if input < 0x800 then 2 else if input < 0x1_0000 then 3
         else if input < 0x20_0000 then 4 else 0;
    if length == 0 { return []; }
    var firstByteMark: seq<byte> := [0x00, 0x00, 0xC0, 0xE0, 0xF0];
    var c := input;
    out := [];
    if length == 4 {
      out := [Tail(c)] + out;
      c := c / 0x40;
    }
    if length >= 3 {
      out := [Tail(c)] + out;
      c := c / 0x40;
    }
    if length >= 2 {
      out := [Tail(c)] + out;
      c := c / 0x40;
    }
    out := [firstByteMark[length] + c as byte] + out;
  }
}
