/** Character data of tinyxml2: escaping, and decoding in place. */
module XmlText {
  import opened Bytes
  import opened Unicode

  const LF: byte := 10
  const CR: byte := 13
  const QUOT: byte := 34
  const HASH: byte := 35
  const AMP: byte := 38
  const APOS: byte := 39
  const SEMICOLON: byte := 59
  const LT: byte := 60
  const GT: byte := 62
  const LETTER_X: byte := 120

  // ----- Escaping --------------------------------------------------------------------

  datatype Entity = Entity(pattern: Text, value: byte)

  /** quot, amp, apos, lt, gt */
  const ENTITIES: seq<Entity> := [
    Entity([113, 117, 111, 116], QUOT),
    Entity([97, 109, 112], AMP),
    Entity([97, 112, 111, 115], APOS),
    Entity([108, 116], LT),
    Entity([103, 116], GT)]

  /** All five in attribute values, but only three in texts. */
  predicate IsEscaped(b: byte, restricted: bool) {
    b == AMP || b == LT || b == GT || (!restricted && (b == QUOT || b == APOS))
  }

  function PatternOf(b: byte): Text {
    if b == QUOT then ENTITIES[0].pattern
    else if b == AMP then ENTITIES[1].pattern
    else if b == APOS then ENTITIES[2].pattern
    else if b == LT then ENTITIES[3].pattern
    else ENTITIES[4].pattern
  }

  function EscapeByte(b: byte, restricted: bool): (t: Text)
    ensures t != []
  {
    if IsEscaped(b, restricted) then [AMP] + PatternOf(b) + [SEMICOLON] else [b]
  }

  function Escape(s: Text, restricted: bool): Text {
    if s == [] then [] else EscapeByte(s[0], restricted) + Escape(s[1..], restricted)
  }

  lemma {:induction false} EscapeParts(a: Text, b: Text, restricted: bool)
    ensures Escape(a + b, restricted) == Escape(a, restricted) + Escape(b, restricted)
  {
    if a == [] {
      assert a + b == b;
    } else {
      assert (a + b)[1..] == a[1..] + b;
      EscapeParts(a[1..], b, restricted);
      Assoc(EscapeByte(a[0], restricted), Escape(a[1..], restricted), Escape(b, restricted));
    }
  }

  lemma {:induction false} NothingEscaped(s: Text, restricted: bool)
    requires forall i :: 0 <= i < |s| ==> !IsEscaped(s[i], restricted)
    ensures Escape(s, restricted) == s
  {
    if s != [] {
      NothingEscaped(s[1..], restricted);
      assert [s[0]] + s[1..] == s;
    }
  }

  /** PrintString: runs of bytes between entities are written at once. */
  method PrintString(s: Text, restricted: bool) returns (out: Text)
    ensures out == Escape(s, restricted)
  {
    out := [];
    var p, q := 0, 0;
    while q < |s|
      invariant p <= q <= |s|
      invariant out == Escape(s[..p], restricted)
      invariant forall i :: p <= i < q ==> !IsEscaped(s[i], restricted)
    {
      if IsEscaped(s[q], restricted) {
        RunWritten(s, p, q, restricted);
        out := out + s[p..q];
        p := q;
        var pattern := FindPattern(s[q]);
        OneWritten(s, p, restricted);
        out := out + ([AMP] + pattern + [SEMICOLON]);
        p := p + 1;
      }
      q := q + 1;
    }
    RunWritten(s, p, q, restricted);
    assert s[..|s|] == s;
    if p < q { out := out + s[p..q]; }
  }

  method FindPattern(b: byte) returns (pattern: Text)
    requires IsEscaped(b, false)
    ensures pattern == PatternOf(b)
  {
    InTable(b);
    pattern := [];
    for i := 0 to |ENTITIES|
      invariant forall k :: 0 <= k < i ==> ENTITIES[k].value != b
    {
      if ENTITIES[i].value == b { return ENTITIES[i].pattern; }
    }
    assert false;
  }

  lemma InTable(b: byte)
    requires IsEscaped(b, false)
    ensures exists i :: 0 <= i < |ENTITIES| && ENTITIES[i].value == b
  {
    assert ENTITIES[0].value == QUOT && ENTITIES[1].value == AMP && ENTITIES[2].value == APOS && ENTITIES[3].value == LT
      && ENTITIES[4].value == GT;
  }

  lemma RunWritten(s: Text, p: nat, q: nat, restricted: bool)
    requires p <= q <= |s| && forall i :: p <= i < q ==> !IsEscaped(s[i], restricted)
    ensures Escape(s[..q], restricted) == Escape(s[..p], restricted) + s[p..q]
  {
    assert s[..q] == s[..p] + s[p..q];
    EscapeParts(s[..p], s[p..q], restricted);
    NothingEscaped(s[p..q], restricted);
  }

  lemma OneWritten(s: Text, p: nat, restricted: bool)
    requires p < |s|
    ensures Escape(s[..p+1], restricted) == Escape(s[..p], restricted) + EscapeByte(s[p], restricted)
  {
    assert s[..p+1] == s[..p] + [s[p]];
    EscapeParts(s[..p], [s[p]], restricted);
    assert Escape([s[p]], restricted) == EscapeByte(s[p], restricted) + Escape([s[p]][1..], restricted);
  }

  // ----- Decoding --------------------------------------------------------------------

  function DigitValue(b: byte, hex: bool): (v: int)
    ensures -1 <= v < 16
  {
    if 48 <= b <= 57 then (b - 48) as int
    else if hex && 97 <= b <= 102 then (b - 87) as int
    else if hex && 65 <= b <= 70 then (b - 55) as int
    else -1
  }

  /** The digits backwards from position `i` to the x or the # before them, with the 32-bit
      wrap-around of the multiplier and of the code; -1 if something else comes first. */
  function CodeBack(t: Text, i: nat, hex: bool, mult: nat, code: nat): int
    requires i < |t|
  {
    if t[i] == (if hex then LETTER_X else HASH) then code
    else if DigitValue(t[i], hex) < 0 || i == 0 then -1
    else
      CodeBack(t, i - 1, hex, mult * (if hex then 16 else 10) % 0x1_0000_0000,
               (code + mult * DigitValue(t[i], hex) % 0x1_0000_0000) % 0x1_0000_0000)
  }

  /** Position of the first semicolon at or after `i`, or the length of the text. */
  function FindSemicolon(t: Text, i: nat): (k: nat)
    requires i <= |t|
    ensures i <= k <= |t|
    decreases |t| - i
  {
    if i == |t| || t[i] == SEMICOLON then i else FindSemicolon(t, i + 1)
  }

  /** `width` bytes are read and `bytes` written.  An unknown entity is passed over: one byte is
      read and nothing is written, but the write pointer moves on all the same. */
  datatype Piece = Piece(width: nat, bytes: Text) | Unknown

  /** GetCharacterRef, for a text that begins with &#. */
  function CharacterRef(t: Text): (r: Piece)
    requires 2 <= |t| && t[0] == AMP && t[1] == HASH
    ensures r.Piece? && 1 <= r.width <= |t| && |r.bytes| <= r.width
  {
    if |t| == 2 then Piece(1, [])
    else
      var hex := t[2] == LETTER_X;
      var from := if hex then 3 else 2;
      var k := FindSemicolon(t, from);
      if k == |t| then Piece(1, [AMP])
      else
        var code := CodeBack(t, k - 1, hex, 1, 0);
        if code < 0 then Piece(1, [AMP])
        else Piece(k + 1, Utf8(code))
  }

  /** The number of bytes of the entity of the table that the text begins with, or 0. */
  function EntityWidth(t: Text, e: Entity): (w: nat)
    ensures w <= |t|
  {
    var k := |e.pattern|;
    if k + 2 <= |t| && t[1..k+1] == e.pattern && t[k+1] == SEMICOLON then k + 2 else 0
  }

  function KnownEntity(t: Text, i: nat): (r: Piece)
    requires i <= |ENTITIES|
    ensures r.Piece? ==> 2 <= r.width <= |t| && |r.bytes| == 1
    decreases |ENTITIES| - i
  {
    if i == |ENTITIES| then Unknown
    else if EntityWidth(t, ENTITIES[i]) > 0 then Piece(EntityWidth(t, ENTITIES[i]), [ENTITIES[i].value])
    else KnownEntity(t, i + 1)
  }

  /** One turn of the loop of GetStr. */
  function NextPiece(t: Text, entities: bool): (r: Piece)
    requires t != []
    ensures r.Piece? ==> 1 <= r.width <= |t| && |r.bytes| <= r.width
  {
    if t[0] == CR then Piece(if Head(t[1..]) == LF then 2 else 1, [LF])
    else if t[0] == LF then Piece(if Head(t[1..]) == CR then 2 else 1, [LF])
    else if entities && t[0] == AMP then (if Head(t[1..]) == HASH then CharacterRef(t) else KnownEntity(t, 0))
    else Piece(1, [t[0]])
  }

  /** What GetStr makes of `raw` from position `p` on, after the bytes `out`.  For an unknown
      entity it keeps the byte that happens to be at the write pointer. */
  function DecodeFrom(raw: Text, p: nat, out: Text, entities: bool): (r: Text)
    requires |out| <= p <= |raw|
    ensures |r| <= |raw| && out <= r
    decreases |raw| - p
  {
    if p == |raw| then out
    else
      match NextPiece(raw[p..], entities)
      case Piece(w, bytes) => DecodeFrom(raw, p + w, out + bytes, entities)
      case Unknown => DecodeFrom(raw, p + 1, out + [raw[|out|]], entities)
  }

  function Decode(raw: Text, entities: bool): (r: Text)
    ensures |r| <= |raw|
  {
    DecodeFrom(raw, 0, [], entities)
  }

  lemma PieceAt(raw: Text, p: nat, out: Text, entities: bool)
    requires |out| <= p < |raw|
    ensures match NextPiece(raw[p..], entities)
            case Piece(w, bytes) => 1 <= w <= |raw| - p && |bytes| <= w
              && DecodeFrom(raw, p, out, entities) == DecodeFrom(raw, p + w, out + bytes, entities)
            case Unknown => DecodeFrom(raw, p, out, entities) == DecodeFrom(raw, p + 1, out + [raw[|out|]], entities)
  {
  }

  // ----- Decoding undoes escaping ----------------------------------------------------

  lemma EntityBack(b: byte, rest: Text)
    requires IsEscaped(b, false)
    ensures var t := [AMP] + PatternOf(b) + [SEMICOLON] + rest;
      Head(t[1..]) != HASH && KnownEntity(t, 0) == Piece(|PatternOf(b)| + 2, [b])
  {
    var t := [AMP] + PatternOf(b) + [SEMICOLON] + rest;
    assert t[1..|PatternOf(b)|+1] == PatternOf(b);
    assert Head(t[1..]) == PatternOf(b)[0];
    var q := t[1];
    if b == AMP { assert t[2] == 109; }
    if b == APOS { assert t[2] == 112; }
    if b == LT { assert t[1] == 108; }
    EntityTried(t, 0);
    EntityTried(t, 1);
    EntityTried(t, 2);
    EntityTried(t, 3);
    EntityTried(t, 4);
    Entities(t);
  }

  /** Each entity shows in its first two letters. */
  lemma EntityTried(t: Text, i: nat)
    requires i < |ENTITIES|
    ensures EntityWidth(t, ENTITIES[i]) > 0 ==>
      3 <= |t| && t[1] == ENTITIES[i].pattern[0] && t[2] == ENTITIES[i].pattern[1]
  {
    var e := ENTITIES[i];
    var k := |e.pattern|;
    if k + 2 <= |t| && t[1..k+1] == e.pattern {
      assert t[1..k+1][0] == t[1] && t[1..k+1][1] == t[2];
    }
  }

  lemma Entities(t: Text)
    ensures KnownEntity(t, 0) ==
      if EntityWidth(t, ENTITIES[0]) > 0 then Piece(EntityWidth(t, ENTITIES[0]), [ENTITIES[0].value])
      else if EntityWidth(t, ENTITIES[1]) > 0 then Piece(EntityWidth(t, ENTITIES[1]), [ENTITIES[1].value])
      else if EntityWidth(t, ENTITIES[2]) > 0 then Piece(EntityWidth(t, ENTITIES[2]), [ENTITIES[2].value])
      else if EntityWidth(t, ENTITIES[3]) > 0 then Piece(EntityWidth(t, ENTITIES[3]), [ENTITIES[3].value])
      else if EntityWidth(t, ENTITIES[4]) > 0 then Piece(EntityWidth(t, ENTITIES[4]), [ENTITIES[4].value])
      else Unknown
  {
    hide EntityWidth;
    assert KnownEntity(t, 5) == Unknown;
  }

  /** The next piece of an escaped text is its first byte. */
  lemma ByteBack(s: Text, restricted: bool)
    requires s != [] && !AtLineEnd(s)
    ensures Escape(s, restricted) != []
    ensures NextPiece(Escape(s, restricted), true) == Piece(|EscapeByte(s[0], restricted)|, [s[0]])
  {
    hide KnownEntity;
    var b, rest := s[0], Escape(s[1..], restricted);
    var t := Escape(s, restricted);
    if IsEscaped(b, restricted) {
      EntityBack(b, rest);
      assert t == [AMP] + PatternOf(b) + [SEMICOLON] + rest;
    } else {
      Drop(b, rest);
    }
  }

  // ----- Line ends -------------------------------------------------------------------

  predicate NoCR(s: Text) {
    forall i :: 0 <= i < |s| ==> s[i] != CR
  }

  /** Every line end as a line feed: section 2.11 of XML 1.0, and LF-CR as well. */
  function Lines(s: Text): (r: Text)
    ensures |r| <= |s|
  {
    if s == [] then []
    else if AtLineEnd(s) then [LF] + Lines(s[LineEndWidth(s)..])
    else [s[0]] + Lines(s[1..])
  }

  /** A line end that is not a line feed alone. */
  predicate AtLineEnd(s: Text) {
    s != [] && (s[0] == CR || (s[0] == LF && Head(s[1..]) == CR))
  }

  function LineEndWidth(s: Text): (w: nat)
    requires AtLineEnd(s)
    ensures 1 <= w <= |s|
  {
    if s[0] == CR && Head(s[1..]) != LF then 1 else 2
  }

  lemma {:induction false} NoCRInLines(s: Text)
    ensures NoCR(Lines(s))
    decreases |s|
  {
    if s != [] {
      NoCRInLines(s[1..]);
      if s[0] == CR || s[0] == LF {
        if 2 <= |s| { NoCRInLines(s[2..]); }
      }
    }
  }

  /** Line ends are changed exactly if there is a carriage return. */
  lemma {:induction false} SameLines(s: Text)
    ensures Lines(s) == s <==> NoCR(s)
    decreases |s|
  {
    NoCRInLines(s);
    if s != [] && NoCR(s) {
      assert NoCR(s[1..]);
      SameLines(s[1..]);
      if 2 <= |s| { assert s[1..][0] == s[1]; }
      assert [s[0]] + s[1..] == s;
    }
  }

  /** One turn: the first piece of an escaped text is read. */
  lemma Turn(raw: Text, p: nat, out: Text, s: Text, restricted: bool, w: nat, v: nat, b: byte)
    requires |out| <= p <= |raw| && raw[p..] == Escape(s, restricted) && Escape(s, restricted) != []
    requires NextPiece(Escape(s, restricted), true) == Piece(w, [b])
    requires v <= |s| && w <= |Escape(s, restricted)| && Escape(s, restricted)[w..] == Escape(s[v..], restricted)
    ensures 1 <= w && p + w <= |raw| && raw[p + w..] == Escape(s[v..], restricted) && |out + [b]| <= p + w
    ensures DecodeFrom(raw, p, out, true) == DecodeFrom(raw, p + w, out + [b], true)
  {
    hide NextPiece, DecodeFrom, Escape;
    PieceAt(raw, p, out, true);
    assert raw[p + w..] == raw[p..][w..];
  }

  lemma DecodeEnd(raw: Text, out: Text)
    requires |out| <= |raw|
    ensures forall entities :: DecodeFrom(raw, |raw|, out, entities) == out
  {
  }

  lemma NothingLeft(restricted: bool)
    ensures Escape([], restricted) == []
  {
  }

  lemma ByteWidth(s: Text, restricted: bool)
    requires s != []
    ensures var w := |EscapeByte(s[0], restricted)|;
      w <= |Escape(s, restricted)| && Escape(s, restricted)[w..] == Escape(s[1..], restricted)
  {
  }

  /** Decoding what was printed gives the string back, with its line ends normalized. */
  lemma {:induction false} DecodeEscaped(raw: Text, p: nat, out: Text, s: Text, restricted: bool)
    requires |out| <= p <= |raw| && raw[p..] == Escape(s, restricted)
    ensures DecodeFrom(raw, p, out, true) == out + Lines(s)
    decreases |s|
  {
    hide NextPiece, DecodeFrom, Escape, EscapeByte, AtLineEnd, LineEndWidth;
    if s == [] {
      assert p == |raw| by { NothingLeft(restricted); }
      DecodeEnd(raw, out);
      assert out + Lines(s) == out;
    } else if AtLineEnd(s) {
      LineEndPiece(s, restricted);
      var w := LineEndWidth(s);
      Turn(raw, p, out, s, restricted, w, w, LF);
      DecodeEscaped(raw, p + w, out + [LF], s[w..], restricted);
      Assoc(out, [LF], Lines(s[w..]));
    } else {
      ByteBack(s, restricted);
      ByteWidth(s, restricted);
      var w := |EscapeByte(s[0], restricted)|;
      Turn(raw, p, out, s, restricted, w, 1, s[0]);
      DecodeEscaped(raw, p + w, out + [s[0]], s[1..], restricted);
      Assoc(out, [s[0]], Lines(s[1..]));
    }
  }

  lemma LineEndPiece(s: Text, restricted: bool)
    requires AtLineEnd(s)
    ensures Escape(s, restricted) != []
    ensures var w := LineEndWidth(s);
      && w <= |Escape(s, restricted)|
      && NextPiece(Escape(s, restricted), true) == Piece(w, [LF])
      && Escape(s, restricted)[w..] == Escape(s[w..], restricted)
  {
    Drop(s[0], Escape(s[1..], restricted));
    if LineEndWidth(s) == 2 {
      assert s[1..][1..] == s[2..];
      Drop(s[1], Escape(s[2..], restricted));
      assert Escape(s, restricted)[2..] == Escape(s[1..], restricted)[1..];
    }
  }

  lemma EscapedLines(s: Text, restricted: bool)
    ensures Decode(Escape(s, restricted), true) == Lines(s)
  {
    var raw := Escape(s, restricted);
    assert raw[0..] == raw;
    DecodeEscaped(raw, 0, [], s, restricted);
    assert [] + Lines(s) == Lines(s);
  }

  /** GetStr gives back what PrintString wrote, for either entity set, exactly when the string
      holds no carriage return (line ends: section 2.11 of XML 1.0). */
  lemma TextRoundTrip(s: Text, restricted: bool)
    ensures Decode(Escape(s, restricted), true) == s <==> NoCR(s)
  {
    EscapedLines(s, restricted);
    SameLines(s);
  }

  lemma LinesStep(t: Text)
    requires t != []
    ensures NextPiece(t, false).Piece?
    ensures Lines(t) == NextPiece(t, false).bytes + Lines(t[NextPiece(t, false).width..])
  {
  }

  /** Text that is not escaped: comments and CDATA sections. */
  lemma {:induction false} PlainDecoded(raw: Text, p: nat, out: Text)
    requires |out| <= p <= |raw|
    ensures DecodeFrom(raw, p, out, false) == out + Lines(raw[p..])
    decreases |raw| - p
  {
    if p == |raw| {
      assert out + Lines(raw[p..]) == out;
    } else {
      hide NextPiece, DecodeFrom, Lines;
      LinesStep(raw[p..]);
      PieceAt(raw, p, out, false);
      var piece := NextPiece(raw[p..], false);
      Slice(raw, p, piece.width);
      PlainDecoded(raw, p + piece.width, out + piece.bytes);
      Assoc(out, piece.bytes, Lines(raw[p + piece.width..]));
    }
  }

  lemma PlainLines(s: Text)
    ensures Decode(s, false) == Lines(s)
  {
    PlainDecoded(s, 0, []);
    assert s[0..] == s && [] + Lines(s) == Lines(s);
  }

  /** The same exact condition for text that is not escaped. */
  lemma PlainRoundTrip(s: Text)
    ensures Decode(s, false) == s <==> NoCR(s)
  {
    PlainLines(s);
    SameLines(s);
  }

  // ----- In place --------------------------------------------------------------------

  /** GetCharacterRef: find the semicolon, then read the digits backwards. */
  method GetCharacterRef(t: Text) returns (r: Piece)
    requires 2 <= |t| && t[0] == AMP && t[1] == HASH
    ensures r == CharacterRef(t)
  {
    if |t| == 2 { return Piece(1, []); }
    var hex := t[2] == LETTER_X;
    var from := if hex then 3 else 2;
    var k := from;
    while k < |t| && t[k] != SEMICOLON
      invariant from <= k <= |t| && FindSemicolon(t, k) == FindSemicolon(t, from)
    {
      k := k + 1;
    }
    if k == |t| { return Piece(1, [AMP]); }
    var code := ReadCode(t, k - 1, hex);
    if code < 0 { return Piece(1, [AMP]); }
    var bytes := ToUtf8(code);
    return Piece(k + 1, bytes);
  }

  /** The loop over the digits, from position `last` back to the x or the #; -1 for the early
      return. */
  method ReadCode(t: Text, last: nat, hex: bool) returns (ucs: int)
    requires 2 <= |t| && t[1] == HASH && (hex ==> 2 < |t| && t[2] == LETTER_X)
    requires (if hex then 2 else 1) <= last < |t|
    ensures ucs == CodeBack(t, last, hex, 1, 0)
  {
    var q: nat, mult: nat, code: nat := last, 1, 0;
    while t[q] != if hex then LETTER_X else HASH
      invariant (if hex then 2 else 1) <= q <= last
      invariant CodeBack(t, q, hex, mult, code) == CodeBack(t, last, hex, 1, 0)
      decreases q
    {
      var digit := DigitValue(t[q], hex);
      if digit < 0 { return -1; }
      code := (code + mult * digit % 0x1_0000_0000) % 0x1_0000_0000;
      mult := mult * (if hex then 16 else 10) % 0x1_0000_0000;
      q := q - 1;
    }
    ucs := code;
  }

  /** The loop over the table of entities. */
  method FindEntity(t: Text) returns (r: Piece)
    ensures r == KnownEntity(t, 0)
  {
    for i := 0 to |ENTITIES|
      invariant KnownEntity(t, i) == KnownEntity(t, 0)
    {
      var width := EntityWidth(t, ENTITIES[i]);
      if width > 0 { return Piece(width, [ENTITIES[i].value]); }
    }
    return Unknown;
  }

  method ReadPiece(t: Text, entities: bool) returns (r: Piece)
    requires t != []
    ensures r == NextPiece(t, entities)
  {
    if t[0] == CR {
      r := Piece(if Head(t[1..]) == LF then 2 else 1, [LF]);
    } else if t[0] == LF {
      r := Piece(if Head(t[1..]) == CR then 2 else 1, [LF]);
    } else if entities && t[0] == AMP {
      if Head(t[1..]) == HASH { r := GetCharacterRef(t); } else { r := FindEntity(t); }
    } else {
      r := Piece(1, [t[0]]);
    }
  }

  /** memcpy( q, buf, len ) */
  method CopyTo(a: array<byte>, q: nat, bytes: Text)
    requires q + |bytes| <= a.Length
    modifies a
    ensures a[..] == old(a[..q]) + bytes + old(a[q + |bytes|..])
  {
    for i := 0 to |bytes|
      invariant a[..q] == old(a[..q]) && a[q..q + i] == bytes[..i] && a[q + i..] == old(a[q + i..])
    {
      a[q + i] := bytes[i];
      assert a[q..q + i + 1] == a[q..q + i] + [bytes[i]];
    }
  }

  /** The buffer `b` in the course of decoding: the bytes before `start` and after `end` are
      those of `b0`, the text from the write pointer on is still raw. */
  ghost predicate InPlace(b0: Text, b: Text, start: nat, q: nat, p: nat, end: nat, entities: bool) {
    && start <= q <= p <= end < |b0| == |b|
    && b[..start] == b0[..start] && b[end + 1..] == b0[end + 1..]
    && b[q..end] == b0[q..end]
    && DecodeFrom(b0[start..end], p - start, b[start..q], entities) == Decode(b0[start..end], entities)
  }

  lemma InPlaceStart(b0: Text, b: Text, start: nat, end: nat, entities: bool)
    requires start <= end < |b0| && b == b0[end := 0]
    ensures InPlace(b0, b, start, start, start, end, entities)
  {
  }

  ghost function Written(b: Text, q: nat, bytes: Text): Text
    requires q + |bytes| <= |b|
  {
    b[..q] + bytes + b[q + |bytes|..]
  }

  /** The turn wrote `bytes` over what was read already. */
  lemma InPlaceWrites(b0: Text, b: Text, start: nat, q: nat, p: nat, end: nat, entities: bool, w: nat, bytes: Text)
    requires InPlace(b0, b, start, q, p, end, entities) && 1 <= w && p + w <= end && |bytes| <= w
    requires DecodeFrom(b0[start..end], p - start, b[start..q], entities)
      == DecodeFrom(b0[start..end], p + w - start, b[start..q] + bytes, entities)
    ensures InPlace(b0, Written(b, q, bytes), start, q + |bytes|, p + w, end, entities)
  {
    hide DecodeFrom, Decode;
    var b' := Written(b, q, bytes);
    assert b'[start..q + |bytes|] == b[start..q] + bytes;
    var m := q + |bytes|;
    assert b'[m..] == b[m..];
    assert b'[m..end] == b'[m..][..end - m] && b[m..end] == b[m..][..end - m];
    assert b[m..end] == b[q..end][|bytes|..] && b0[m..end] == b0[q..end][|bytes|..];
    assert b'[end + 1..] == b'[m..][end + 1 - m..] && b[end + 1..] == b[m..][end + 1 - m..];
    assert b'[..start] == b[..start];
  }

  /** The turn passed over a byte, and the byte at the write pointer stays. */
  lemma InPlacePasses(b0: Text, b: Text, start: nat, q: nat, p: nat, end: nat, entities: bool)
    requires InPlace(b0, b, start, q, p, end, entities) && p < end
    requires var raw := b0[start..end];
      DecodeFrom(raw, p - start, b[start..q], entities) ==
        DecodeFrom(raw, p + 1 - start, b[start..q] + [raw[q - start]], entities)
    ensures InPlace(b0, b, start, q + 1, p + 1, end, entities)
  {
    hide DecodeFrom, Decode;
    assert b[q] == b[q..end][0];
    assert b[start..q + 1] == b[start..q] + [b0[start..end][q - start]];
    assert b[q + 1..end] == b[q..end][1..];
  }

  /** The rest that is read, and what one turn writes. */
  lemma InPlaceTurn(b0: Text, b: Text, start: nat, q: nat, p: nat, end: nat, entities: bool)
    requires InPlace(b0, b, start, q, p, end, entities) && p < end
    ensures b[p..end] == b0[p..end]
    ensures match NextPiece(b0[p..end], entities)
            case Piece(w, bytes) =>
              && 1 <= w && p + w <= end && |bytes| <= w && q + |bytes| <= |b|
              && InPlace(b0, Written(b, q, bytes), start, q + |bytes|, p + w, end, entities)
            case Unknown => InPlace(b0, b, start, q + 1, p + 1, end, entities)
  {
    hide NextPiece, DecodeFrom, Decode;
    var raw := b0[start..end];
    PieceAt(raw, p - start, b[start..q], entities);
    assert raw[p - start..] == b0[p..end];
    assert b[p..end] == b[q..end][p - q..];
    match NextPiece(b0[p..end], entities) {
      case Piece(w, bytes) => InPlaceWrites(b0, b, start, q, p, end, entities, w, bytes);
      case Unknown => InPlacePasses(b0, b, start, q, p, end, entities);
    }
  }

  lemma InPlaceEnd(b0: Text, b: Text, start: nat, q: nat, end: nat, entities: bool)
    requires InPlace(b0, b, start, q, end, end, entities)
    ensures b[start..q] == Decode(b0[start..end], entities)
  {
  }

  /** GetStr decodes the text in the buffer itself, from `start` to `end`: the write pointer is
      never ahead of the read pointer, and nothing outside is touched. */
  method GetStr(a: array<byte>, start: nat, end: nat, entities: bool) returns (q: nat)
    requires start <= end < a.Length && NoNul(a[start..end])
    modifies a
    ensures start <= q <= end && a[start..q] == Decode(old(a[start..end]), entities) && a[q] == 0
    ensures a[..start] == old(a[..start]) && a[end + 1..] == old(a[end + 1..])
  {
    hide Decode, InPlace;
    ghost var b0 := a[..];
    assert a[start..end] == b0[start..end];
    a[end] := 0;
    InPlaceStart(b0, a[..], start, end, entities);
    q := DecodeLoop(a, start, end, entities, b0);
    ghost var b := a[..];
    InPlaceEnd(b0, b, start, q, end, entities);
    Terminated(b0, b, start, q, end, entities);
    a[q] := 0;
  }

  /** The loop of GetStr. */
  method DecodeLoop(a: array<byte>, start: nat, end: nat, entities: bool, ghost b0: Text) returns (q: nat)
    requires start <= end < a.Length && InPlace(b0, a[..], start, start, start, end, entities)
    modifies a
    ensures start <= q <= end && InPlace(b0, a[..], start, q, end, end, entities)
  {
    hide NextPiece, Decode, InPlace;
    var p := start;
    q := start;
    while p < end
      invariant start <= q <= p <= end && InPlace(b0, a[..], start, q, p, end, entities)
      decreases end - p
    {
      InPlaceTurn(b0, a[..], start, q, p, end, entities);
      assert a[p..end] == a[..][p..end];
      var piece := ReadPiece(a[p..end], entities);
      match piece {
        case Piece(w, bytes) =>
          CopyTo(a, q, bytes);
          p := p + w;
          q := q + |bytes|;
        case Unknown =>
          p := p + 1;
          q := q + 1;
      }
    }
  }

  lemma Terminated(b0: Text, b: Text, start: nat, q: nat, end: nat, entities: bool)
    requires InPlace(b0, b, start, q, end, end, entities)
    ensures var b' := b[q := 0];
      b'[start..q] == b[start..q] && b'[..start] == b0[..start] && b'[end + 1..] == b0[end + 1..]
  {
  }

  // ----- Unknown entities ------------------------------------------------------------

  /** A reference that GetStr replaces by something else. */
  predicate Replaced(t: Text) {
    t != [] && t[0] == AMP && (if Head(t[1..]) == HASH then CharacterRef(t) != Piece(1, [AMP])
      else KnownEntity(t, 0) != Unknown)
  }

  /** No carriage return, and no reference that is replaced. */
  predicate Stays(raw: Text, i: nat)
    requires i < |raw|
  {
    raw[i] != CR && !Replaced(raw[i..])
  }

  predicate BeforeCR(raw: Text, p: nat)
    requires p < |raw|
  {
    raw[p] == LF && p + 1 < |raw| && raw[p + 1] == CR
  }

  /** A reference of no digit, or of one decimal digit, stands for one byte. */
  lemma ShortCode(t: Text, k: nat, hex: bool)
    requires 2 <= |t| && t[1] == HASH && k <= |t| && (if hex then 3 <= k && t[2] == LETTER_X else 2 <= k)
    ensures k <= 3 ==> CodeBack(t, k - 1, hex, 1, 0) < 0x80
  {
    if k == 3 && !hex && 0 <= DigitValue(t[2], false) {
      assert CodeBack(t, 1, false, 10, DigitValue(t[2], false)) == DigitValue(t[2], false);
    }
  }

  /** Whatever replaces a reference is shorter. */
  lemma ReplacedIsShorter(t: Text)
    requires Replaced(t)
    ensures NextPiece(t, true).Piece? && |NextPiece(t, true).bytes| < NextPiece(t, true).width
  {
    hide KnownEntity, CodeBack;
    if Head(t[1..]) == HASH && 2 < |t| {
      var hex := t[2] == LETTER_X;
      var k := FindSemicolon(t, if hex then 3 else 2);
      if k < |t| { ShortCode(t, k, hex); }
    }
  }

  lemma {:induction false} NotLonger(raw: Text, p: nat, out: Text)
    requires |out| <= p <= |raw|
    ensures |DecodeFrom(raw, p, out, true)| <= |out| + (|raw| - p)
    decreases |raw| - p
  {
    hide NextPiece;
    if p < |raw| {
      match NextPiece(raw[p..], true) {
        case Piece(w, bytes) => NotLonger(raw, p + w, out + bytes);
        case Unknown => NotLonger(raw, p + 1, out + [raw[|out|]]);
      }
    }
  }

  /** One turn at a place where nothing was shortened before. */
  lemma StayingTurn(raw: Text, p: nat)
    requires p < |raw| && Stays(raw, p) && !BeforeCR(raw, p)
    ensures DecodeFrom(raw, p, raw[..p], true) == DecodeFrom(raw, p + 1, raw[..p + 1], true)
  {
    hide KnownEntity, CharacterRef, DecodeFrom;
    PieceAt(raw, p, raw[..p], true);
    assert raw[..p] + [raw[p]] == raw[..p + 1];
    assert raw[p..][0] == raw[p];
    if p + 1 < |raw| { assert raw[p..][1..][0] == raw[p + 1]; }
  }

  /** The first byte that does not stay shows in the result. */
  lemma ChangingTurn(raw: Text, p: nat)
    requires p < |raw| && (!Stays(raw, p) || BeforeCR(raw, p))
    ensures DecodeFrom(raw, p, raw[..p], true) != raw
  {
    hide KnownEntity, CharacterRef, DecodeFrom;
    var t := raw[p..];
    assert t[0] == raw[p];
    if p + 1 < |raw| { assert t[1..][0] == raw[p + 1]; }
    PieceAt(raw, p, raw[..p], true);
    if Replaced(t) { ReplacedIsShorter(t); }
    var w, b := NextPiece(t, true).width, NextPiece(t, true).bytes;
    NotLonger(raw, p + w, raw[..p] + b);
    if raw[p] == CR && w == 1 {
      assert (raw[..p] + [LF])[p] == LF;
      assert raw[..p] + [LF] <= DecodeFrom(raw, p + 1, raw[..p] + [LF], true);
    }
  }

  lemma {:induction false} SameFrom(raw: Text, p: nat)
    requires p <= |raw|
    ensures DecodeFrom(raw, p, raw[..p], true) == raw <==> forall i :: p <= i < |raw| ==> Stays(raw, i)
    decreases |raw| - p
  {
    hide DecodeFrom, Replaced;
    if p == |raw| {
      DecodeEnd(raw, raw[..p]);
    } else if Stays(raw, p) && !BeforeCR(raw, p) {
      StayingTurn(raw, p);
      SameFrom(raw, p + 1);
    } else {
      ChangingTurn(raw, p);
      if Stays(raw, p) { assert !Stays(raw, p + 1); }
    }
  }

  /** GetStr leaves a text as it is, unknown entities and all, exactly if it holds no carriage
      return and no reference that is replaced: neither an entity of the table nor a character
      reference that can be read, nor the two bytes of its beginning at the end of the text. */
  lemma TextStays(raw: Text)
    ensures Decode(raw, true) == raw <==> forall i :: 0 <= i < |raw| ==> Stays(raw, i)
  {
    assert raw[..0] == [];
    SameFrom(raw, 0);
  }

  /** What an unknown entity becomes: its ampersand is kept exactly if there is one at the write
      pointer, in particular if nothing was shortened before it. */
  lemma UnknownByte(raw: Text, p: nat, out: Text)
    requires |out| <= p < |raw| && NextPiece(raw[p..], true) == Unknown
    ensures var r := DecodeFrom(raw, p, out, true);
      |out| < |r| && (r[|out|] == AMP <==> raw[|out|] == AMP) && (|out| == p ==> r[p] == AMP)
  {
    hide KnownEntity, CharacterRef;
    assert raw[p..][0] == raw[p];
    PieceAt(raw, p, out, true);
    var more := out + [raw[|out|]];
    assert more <= DecodeFrom(raw, p + 1, more, true);
    assert more[|out|] == raw[|out|];
  }

  /** The text with its unknown entities kept, after `n` bytes were written. */
  function KeepFrom(raw: Text, p: nat, out: Text): (r: Text)
    requires |out| <= p <= |raw|
    ensures out <= r
    decreases |raw| - p
  {
    if p == |raw| then out
    else
      match NextPiece(raw[p..], true)
      case Piece(w, bytes) => KeepFrom(raw, p + w, out + bytes)
      case Unknown => KeepFrom(raw, p + 1, out + [AMP])
  }

  /** At each unknown entity the write pointer, `n` bytes from the start, is at an ampersand. */
  predicate AmpersandsFrom(raw: Text, p: nat, n: nat)
    requires n <= p <= |raw|
    decreases |raw| - p
  {
    p < |raw| ==>
      match NextPiece(raw[p..], true)
      case Piece(w, bytes) => AmpersandsFrom(raw, p + w, n + |bytes|)
      case Unknown => raw[n] == AMP && AmpersandsFrom(raw, p + 1, n + 1)
  }

  /** GetStr keeps all unknown entities of a text exactly in that case. */
  lemma {:induction false} UnknownKept(raw: Text, p: nat, out: Text)
    requires |out| <= p <= |raw|
    ensures DecodeFrom(raw, p, out, true) == KeepFrom(raw, p, out) <==> AmpersandsFrom(raw, p, |out|)
    decreases |raw| - p
  {
    hide NextPiece;
    if p < |raw| {
      match NextPiece(raw[p..], true) {
        case Piece(w, bytes) => UnknownKept(raw, p + w, out + bytes);
        case Unknown =>
          if raw[|out|] == AMP {
            UnknownKept(raw, p + 1, out + [AMP]);
          } else {
            var was, kept := out + [raw[|out|]], out + [AMP];
            assert was[|out|] != kept[|out|];
            assert was <= DecodeFrom(raw, p + 1, was, true) && kept <= KeepFrom(raw, p + 1, kept);
          }
      }
    }
  }

  /** An unknown entity is not kept as it is once something before it was shortened: &lt;&a;
      is decoded to a less-than sign followed by la; because the byte at the write pointer is
      left from the text that was there. */
  lemma UnknownEntityIsStale()
    ensures Decode([AMP, 108, 116, SEMICOLON, AMP, 97, SEMICOLON], true) == [LT, 108, 97, SEMICOLON]
  {
    hide NextPiece, DecodeFrom;
    var raw: Text := [AMP, 108, 116, SEMICOLON, AMP, 97, SEMICOLON];
    var t: Text := [AMP, 97, SEMICOLON];
    assert raw[0..] == [AMP] + PatternOf(LT) + [SEMICOLON] + t;
    PiecesOfExample(t);
    PieceAt(raw, 0, [], true);
    assert [] + [LT] == [LT];
    StaleRest(raw, t);
  }

  lemma StaleRest(raw: Text, t: Text)
    requires t == [AMP, 97, SEMICOLON] && |raw| == 7 && raw[4..] == t && raw[1] == 108
    ensures DecodeFrom(raw, 4, [LT], true) == [LT, 108, 97, SEMICOLON]
  {
    hide NextPiece, DecodeFrom, PatternOf;
    assert raw[5..] == t[1..] == [97, SEMICOLON] && raw[6..] == t[2..] == [SEMICOLON];
    PiecesOfExample(t);
    PieceAt(raw, 4, [LT], true);
    assert [LT] + [raw[1]] == [LT, 108];
    PieceAt(raw, 5, [LT, 108], true);
    assert [LT, 108] + [97] == [LT, 108, 97];
    PieceAt(raw, 6, [LT, 108, 97], true);
    assert [LT, 108, 97] + [SEMICOLON] == [LT, 108, 97, SEMICOLON];
    DecodeEnd(raw, [LT, 108, 97, SEMICOLON]);
  }

  lemma PiecesOfExample(t: Text)
    requires t == [AMP, 97, SEMICOLON]
    ensures NextPiece([AMP] + PatternOf(LT) + [SEMICOLON] + t, true) == Piece(4, [LT])
    ensures NextPiece(t, true) == Unknown
    ensures NextPiece([97, SEMICOLON], true) == Piece(1, [97]) && NextPiece([SEMICOLON], true) == Piece(1, [SEMICOLON])
  {
    hide KnownEntity, EntityWidth;
    EntityBack(LT, t);
    EntityTried(t, 0);
    EntityTried(t, 1);
    EntityTried(t, 2);
    EntityTried(t, 3);
    EntityTried(t, 4);
    Entities(t);
  }
}
