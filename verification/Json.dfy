/** Trees and texts of cjson.c: what is printed and what is parsed.

    A text is a sequence of bytes that may be followed by a NUL.  The parsers return the rest of
    the text, or say that it is refused, or that what it holds is not part of the model. */
module Json {
  import opened Bytes
  import opened Unicode

  datatype Json =
    | Null | False | True
    | Number(n: int)
    | String(s: Text)
    | Array(items: seq<Json>)
    | Object(members: seq<Member>)

  datatype Member = Member(name: Text, value: Json)

  /** `Unmodelled` stands for what is left out: fractions and exponents, numbers beyond the
      width of an int, and escapes whose hex digits are malformed. */
  datatype Result<T> = Ok(value: T, rest: Text) | Failed | Unmodelled

  const TAB: byte := 9
  const NEWLINE: byte := 10
  const SPACE: byte := 32
  const QUOTE: byte := 34
  const COMMA: byte := 44
  const MINUS: byte := 45
  const ZERO: byte := 48
  const NINE: byte := 57
  const COLON: byte := 58
  const OPEN_ARRAY: byte := 91
  const BACKSLASH: byte := 92
  const CLOSE_ARRAY: byte := 93
  const LETTER_U: byte := 117
  const OPEN_OBJECT: byte := 123
  const CLOSE_OBJECT: byte := 125
  const NULL_TEXT: Text := [110, 117, 108, 108]
  const FALSE_TEXT: Text := [102, 97, 108, 115, 101]
  const TRUE_TEXT: Text := [116, 114, 117, 101]

  const INT_MIN: int := -0x8000_0000
  const INT_MAX: int := 0x7FFF_FFFF

  // ----- Printing --------------------------------------------------------------------

  function Digit(d: nat): byte
    requires d < 10
  {
    ZERO + d as byte
  }

  function Decimal(n: nat): (t: Text)
    ensures t != []
  {
    if n < 10 then [Digit(n)] else Decimal(n / 10) + [Digit(n % 10)]
  }

  /** %d */
  function PrintNumber(n: int): Text {
    if n < 0 then [MINUS] + Decimal(-n) else Decimal(n)
  }

  function HexDigit(d: byte): byte
    requires d < 16
  {
    if d < 10 then 48 + d else 87 + d
  }

  /** What follows the backslash for a byte that is escaped. */
  function EscapeCode(b: byte): Text {
    if b == BACKSLASH then [BACKSLASH]
    else if b == QUOTE then [QUOTE]
    else if b == 8 then [98]
    else if b == 12 then [102]
    else if b == 10 then [110]
    else if b == 13 then [114]
    else if b == 9 then [116]
    else [LETTER_U, 48, 48, HexDigit(b / 16), HexDigit(b % 16)]
  }

  function EscapeByte(b: byte): Text {
    if b > 31 && b != QUOTE && b != BACKSLASH then [b] else [BACKSLASH] + EscapeCode(b)
  }

  function Escape(s: Text): Text {
    if s == [] then [] else EscapeByte(s[0]) + Escape(s[1..])
  }

  function PrintString(s: Text): Text {
    [QUOTE] + Escape(s) + [QUOTE]
  }

  function Tabs(n: int): Text {
    if n <= 0 then [] else [TAB] + Tabs(n - 1)
  }

  function PrintValue(j: Json, depth: nat, fmt: bool): Text
    decreases j
  {
    match j
    case Null => NULL_TEXT
    case False => FALSE_TEXT
    case True => TRUE_TEXT
    case Number(n) => PrintNumber(n)
    case String(s) => PrintString(s)
    case Array(items) => if items == [] then [OPEN_ARRAY, CLOSE_ARRAY]
      else [OPEN_ARRAY] + PrintItems(items, depth + 1, fmt) + [CLOSE_ARRAY]
    case Object(members) =>
      if members == [] then (if fmt then [OPEN_OBJECT, NEWLINE] + Tabs(depth - 1) + [CLOSE_OBJECT]
         else [OPEN_OBJECT, CLOSE_OBJECT])
      else if fmt then [OPEN_OBJECT, NEWLINE] + PrintMembers(members, depth + 1, fmt) + Tabs(depth) + [CLOSE_OBJECT]
      else [OPEN_OBJECT] + PrintMembers(members, depth + 1, fmt) + [CLOSE_OBJECT]
  }

  function Separator(fmt: bool): Text {
    if fmt then [COMMA, SPACE] else [COMMA]
  }

  function PrintItems(items: seq<Json>, depth: nat, fmt: bool): Text
    requires items != []
    decreases items
  {
    var first := PrintValue(items[0], depth, fmt);
    if |items| == 1 then first else first + Separator(fmt) + PrintItems(items[1..], depth, fmt)
  }

  /** One entry of an object, up to its value. */
  function Label(name: Text, depth: nat, fmt: bool): Text {
    if fmt then Tabs(depth) + PrintString(name) + [COLON, TAB] else PrintString(name) + [COLON]
  }

  /** What follows the value. */
  function EntryEnd(last: bool, fmt: bool): Text {
    (if last then [] else [COMMA]) + if fmt then [NEWLINE] else []
  }

  function PrintMembers(members: seq<Member>, depth: nat, fmt: bool): Text
    decreases members
  {
    if members == [] then []
    else
      Label(members[0].name, depth, fmt) + PrintValue(members[0].value, depth, fmt) + EntryEnd(|members| == 1, fmt)
      + PrintMembers(members[1..], depth, fmt)
  }

  // ----- Parsing ---------------------------------------------------------------------

  /** skip: over blanks and control characters */
  function Skip(t: Text): (r: Text)
    ensures |r| <= |t|
  {
    if 0 < Head(t) <= 32 then Skip(t[1..]) else t
  }

  predicate IsDigit(b: byte) {
    ZERO <= b <= NINE
  }

  /** The loop over the digits, from the value `n` so far. */
  function ParseDigits(t: Text, n: nat): (r: (nat, Text))
    ensures |r.1| <= |t|
  {
    if IsDigit(Head(t)) then ParseDigits(t[1..], 10 * n + (t[0] - ZERO) as nat) else (n, t)
  }

  function ParseNumber(t: Text): (r: Result<Json>)
    requires Head(t) == MINUS || IsDigit(Head(t))
    ensures r.Ok? ==> |r.rest| < |t|
  {
    var u := if Head(t) == MINUS then t[1..] else t;
    var v := if Head(u) == ZERO then u[1..] else u;
    var (n, w) := if IsDigit(Head(v)) && Head(v) != ZERO then ParseDigits(v, 0) else (0, v);
    var value: int := if Head(t) == MINUS then -(n as int) else n as int;
    if (Head(w) == 46 && IsDigit(Head(w[1..]))) || Head(w) == 101 || Head(w) == 69
       || !(INT_MIN <= value <= INT_MAX) then Unmodelled
    else Ok(Number(value), w)
  }

  function HexValue(b: byte): (v: int)
    ensures -1 <= v < 16
  {
    if IsDigit(b) then (b - ZERO) as int
    else if 97 <= b <= 102 then (b - 87) as int
    else if 65 <= b <= 70 then (b - 55) as int
    else -1
  }

  /** Four hex digits, or -1. */
  function Hex4(t: Text): (v: int)
    ensures -1 <= v < 0x1_0000
    ensures 0 <= v ==> 4 <= |t|
  {
    if |t| < 4 || HexValue(t[0]) < 0 || HexValue(t[1]) < 0 || HexValue(t[2]) < 0 || HexValue(t[3]) < 0 then -1
    else 0x1000 * HexValue(t[0]) + 0x100 * HexValue(t[1]) + 0x10 * HexValue(t[2]) + HexValue(t[3])
  }

  /** The text after \u: the bytes it stands for, and the text after it.  A lone or reversed
      surrogate and the code zero stand for nothing. */
  function Transcode(t: Text): (r: Result<Text>)
    ensures r.Ok? ==> |r.rest| <= |t|
  {
    var uc := Hex4(t);
    if uc < 0 then Unmodelled
    else if 0xDC00 <= uc <= 0xDFFF || uc == 0 then Ok([], t[4..])
    else if 0xD800 <= uc <= 0xDBFF then SecondHalf(uc, t[4..])
    else Ok(Utf8(uc), t[4..])
  }

  /** After the first half of a surrogate pair. */
  function SecondHalf(uc: nat, t: Text): (r: Result<Text>)
    ensures r.Ok? ==> |r.rest| <= |t|
  {
    if Head(t) != BACKSLASH || Head(t[1..]) != LETTER_U then Ok([], t)
    else
      var uc2 := Hex4(t[2..]);
      if uc2 < 0 then Unmodelled
      else if 0xDC00 <= uc2 <= 0xDFFF then Ok(Utf8(0x1_0000 + 0x400 * (uc % 0x400) + uc2 % 0x400), t[6..])
      else Ok([], t[6..])
  }

  /** The byte for a letter after a backslash, other than u. */
  function Unescaped(b: byte): byte {
    if b == 98 then 8 else if b == 102 then 12 else if b == 110 then 10 else if b == 114 then 13 else if b == 116 then 9
       else b
  }

  /** One step of the loop of parse_string: the bytes for the next character, and what follows. */
  function NextChar(t: Text): (r: Result<Text>)
    requires Head(t) != 0
    ensures r.Ok? ==> |r.rest| < |t|
  {
    if t[0] != BACKSLASH then Ok([t[0]], t[1..])
    else if |t| == 1 then Unmodelled
    else if t[1] == LETTER_U then Transcode(t[2..])
    else Ok([Unescaped(t[1])], t[2..])
  }

  predicate EndsString(t: Text) {
    Head(t) == QUOTE || Head(t) == 0
  }

  function Unescape(t: Text): (r: Result<Text>)
    ensures r.Ok? ==> |r.rest| <= |t|
    decreases |t|
  {
    if EndsString(t) then Ok([], t)
    else
      match NextChar(t)
      case Ok(b, u) => (match Unescape(u) case Ok(s, v) => Ok(b + s, v) case e => e)
      case e => e
  }

  function ParseString(t: Text): (r: Result<Text>)
    ensures r.Ok? ==> |r.rest| < |t|
  {
    if Head(t) != QUOTE then Failed
    else
      match Unescape(t[1..])
      case Ok(s, u) => Ok(s, if Head(u) == QUOTE then u[1..] else u)
      case e => e
  }

  function ParseValue(t: Text): (r: Result<Json>)
    ensures r.Ok? ==> |r.rest| < |t|
    decreases |t|, 1
  {
    if NULL_TEXT <= t then Ok(Null, t[4..])
    else if FALSE_TEXT <= t then Ok(False, t[5..])
    else if TRUE_TEXT <= t then Ok(True, t[4..])
    else if Head(t) == QUOTE then
      (match ParseString(t)
       case Ok(s, u) => Ok(String(s), u)
       case Failed => Failed
       case Unmodelled => Unmodelled)
    else if Head(t) == MINUS || IsDigit(Head(t)) then ParseNumber(t)
    else if Head(t) == OPEN_ARRAY then ParseArray(t)
    else if Head(t) == OPEN_OBJECT then ParseObject(t)
    else Failed
  }

  function ParseArray(t: Text): (r: Result<Json>)
    requires Head(t) == OPEN_ARRAY
    ensures r.Ok? ==> |r.rest| < |t|
    decreases |t|, 0
  {
    var u := Skip(t[1..]);
    if Head(u) == CLOSE_ARRAY then Ok(Array([]), u[1..])
    else
      match ParseItems(u, [])
      case Ok(items, v) => Ok(Array(items), v)
      case Failed => Failed
      case Unmodelled => Unmodelled
  }

  /** The items from here on, after those in `done`. */
  function ParseItems(t: Text, done: seq<Json>): (r: Result<seq<Json>>)
    ensures r.Ok? ==> |r.rest| < |t|
    decreases |t|, 2
  {
    match ParseValue(t)
    case Ok(j, u) =>
      var v := Skip(u);
      if Head(v) == COMMA then ParseItems(Skip(v[1..]), done + [j])
      else if Head(v) == CLOSE_ARRAY then Ok(done + [j], v[1..])
      else Failed
    case Failed => Failed
    case Unmodelled => Unmodelled
  }

  function ParseObject(t: Text): (r: Result<Json>)
    requires Head(t) == OPEN_OBJECT
    ensures r.Ok? ==> |r.rest| < |t|
    decreases |t|, 0
  {
    var u := Skip(t[1..]);
    if Head(u) == CLOSE_OBJECT then Ok(Object([]), u[1..])
    else
      match ParseMembers(u, [])
      case Ok(members, v) => Ok(Object(members), v)
      case Failed => Failed
      case Unmodelled => Unmodelled
  }

  /** One entry of an object. */
  function ParseMember(t: Text): (r: Result<Member>)
    ensures r.Ok? ==> |r.rest| < |t|
    decreases |t|, 1
  {
    match ParseString(t)
    case Ok(name, u) =>
      var v := Skip(u);
      if Head(v) != COLON then Failed
      else
        (match ParseValue(Skip(v[1..]))
         case Ok(j, w) => Ok(Member(name, j), w)
         case Failed => Failed
         case Unmodelled => Unmodelled)
    case Failed => Failed
    case Unmodelled => Unmodelled
  }

  function ParseMembers(t: Text, done: seq<Member>): (r: Result<seq<Member>>)
    ensures r.Ok? ==> |r.rest| < |t|
    decreases |t|, 2
  {
    match ParseMember(t)
    case Ok(m, u) =>
      var v := Skip(u);
      if Head(v) == COMMA then ParseMembers(Skip(v[1..]), done + [m])
      else if Head(v) == CLOSE_OBJECT then Ok(done + [m], v[1..])
      else Failed
    case Failed => Failed
    case Unmodelled => Unmodelled
  }

  // ----- The domain ------------------------------------------------------------------

  /** 32-bit integers and strings free of NUL. */
  predicate Printable(j: Json)
    decreases j
  {
    match j
    case Number(n) => INT_MIN <= n <= INT_MAX
    case String(s) => NoNul(s)
    case Array(items) => forall i :: 0 <= i < |items| ==> Printable(items[i])
    case Object(members) => forall i :: 0 <= i < |members| ==> NoNul(members[i].name) && Printable(members[i].value)
    case _ => true
  }
}
