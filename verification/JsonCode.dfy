/** The loops of cjson.c, proved to compute the functions of Json.  Together with JsonRoundTrip:
    what these methods print, these methods parse back. */
module JsonCode {
  import opened Bytes
  import opened Unicode
  import opened Json

  // ----- Printing --------------------------------------------------------------------

  /** print_string_ptr */
  method PrintStringPtr(str: Text) returns (out: Text)
    ensures out == PrintString(str)
  {
    hide EscapeByte;
    var ptr := str;
    out := [QUOTE];
    Assoc([QUOTE], Escape(str), [QUOTE]);
    while ptr != []
      invariant out + (Escape(ptr) + [QUOTE]) == PrintString(str)
      decreases |ptr|
    {
      ghost var rest := Escape(ptr[1..]) + [QUOTE];
      Assoc(EscapeByte(ptr[0]), Escape(ptr[1..]), [QUOTE]);
      Assoc(out, EscapeByte(ptr[0]), rest);
      var piece := PrintChar(ptr[0]);
      out := out + piece;
      ptr := ptr[1..];
    }
    assert Escape(ptr) + [QUOTE] == [QUOTE];
    out := out + [QUOTE];
  }

  /** The body of that loop: the byte, or a backslash and its code. */
  method PrintChar(token: byte) returns (piece: Text)
    ensures piece == EscapeByte(token)
  {
    if token > 31 && token != QUOTE && token != BACKSLASH {
      piece := [token];
    } else {
      piece := [BACKSLASH];
      if token == BACKSLASH { piece := piece + [BACKSLASH]; }
      else if token == QUOTE { piece := piece + [QUOTE]; }
      else if token == 8 { piece := piece + [98]; }
      else if token == 12 { piece := piece + [102]; }
      else if token == 10 { piece := piece + [110]; }
      else if token == 13 { piece := piece + [114]; }
      else if token == 9 { piece := piece + [116]; }
      else { piece := piece + [LETTER_U, 48, 48, HexDigit(token / 16), HexDigit(token % 16)]; }
    }
  }

  /** The entries from number `i` on, as print_array joins them. */
  function ItemsFrom(items: seq<Json>, i: nat, depth: nat, fmt: bool): Text
    requires i <= |items|
  {
    if i == |items| then [] else PrintItems(items[i..], depth, fmt)
  }

  lemma ItemsFromStep(items: seq<Json>, i: nat, depth: nat, fmt: bool)
    requires i < |items|
    ensures ItemsFrom(items, i, depth, fmt) ==
      PrintValue(items[i], depth, fmt)
        + ((if i != |items| - 1 then Separator(fmt) else []) + ItemsFrom(items, i + 1, depth, fmt))
  {
    hide PrintValue;
    assert items[i..][1..] == items[i + 1..];
    if i != |items| - 1 {
      Assoc(PrintValue(items[i], depth, fmt), Separator(fmt), PrintItems(items[i + 1..], depth, fmt));
    }
  }

  /** print_array */
  method PrintArray(items: seq<Json>, depth: nat, fmt: bool) returns (out: Text)
    ensures out == PrintValue(Array(items), depth, fmt)
    decreases items, 1
  {
    hide PrintItems, ItemsFrom, Separator;
    if |items| == 0 { return [OPEN_ARRAY, CLOSE_ARRAY]; }
    var entries: seq<Text> := [];
    for i := 0 to |items|
      invariant |entries| == i && forall k :: 0 <= k < i ==> entries[k] == PrintValue(items[k], depth + 1, fmt)
    {
      var ret := Print(items[i], depth + 1, fmt);
      entries := entries + [ret];
    }
    out := [OPEN_ARRAY];
    assert ItemsFrom(items, 0, depth + 1, fmt) ==
      PrintItems(items, depth + 1, fmt) by { FromStart(items, depth + 1, fmt); }
    for i := 0 to |items|
      invariant out + ItemsFrom(items, i, depth + 1, fmt) == [OPEN_ARRAY] + PrintItems(items, depth + 1, fmt)
    {
      hide PrintValue;
      ItemsFromStep(items, i, depth + 1, fmt);
      ghost var sep := if i != |items| - 1 then Separator(fmt) else [];
      Assoc(out, entries[i], sep + ItemsFrom(items, i + 1, depth + 1, fmt));
      Assoc(out + entries[i], sep, ItemsFrom(items, i + 1, depth + 1, fmt));
      out := out + entries[i];
      ghost var before := out;
      if i != |items| - 1 {
        out := out + [COMMA];
        if fmt { out := out + [SPACE]; }
      }
      assert out == before + sep by { SeparatorIs(before, fmt); }
    }
    assert ItemsFrom(items, |items|, depth + 1, fmt) == [] by { FromStart(items, depth + 1, fmt); }
    out := out + [CLOSE_ARRAY];
  }

  lemma FromStart(items: seq<Json>, depth: nat, fmt: bool)
    requires items != []
    ensures ItemsFrom(items, 0, depth, fmt) == PrintItems(items, depth, fmt)
      && ItemsFrom(items, |items|, depth, fmt) == []
  {
    hide PrintItems;
    assert items[0..] == items;
  }

  lemma SeparatorIs(out: Text, fmt: bool)
    ensures (if fmt then out + [COMMA] + [SPACE] else out + [COMMA]) == out + Separator(fmt) && out + [] == out
  {
  }

  /** The loops that print tabs. */
  method PrintTabs(n: int) returns (out: Text)
    ensures out == Tabs(n)
  {
    out := [];
    var i := 0;
    while i < n
      invariant 0 <= i && (if n < 0 then i == 0 else i <= n) && out == Tabs(i)
    {
      TabsGrow(i);
      out := out + [TAB];
      i := i + 1;
    }
    if n < 0 { assert Tabs(n) == [] == Tabs(0); }
  }

  lemma {:induction false} TabsGrow(n: nat)
    ensures Tabs(n) + [TAB] == Tabs(n + 1)
  {
    if n > 0 { TabsGrow(n - 1); }
  }

  /** One entry of an object, as print_object composes it. */
  function EntryOf(members: seq<Member>, i: nat, depth: nat, fmt: bool): Text
    requires i < |members|
  {
    Label(members[i].name, depth, fmt) + PrintValue(members[i].value, depth, fmt) + EntryEnd(i == |members| - 1, fmt)
  }

  lemma MembersFromStep(members: seq<Member>, i: nat, depth: nat, fmt: bool)
    requires i < |members|
    ensures PrintMembers(members[i..], depth, fmt) ==
      EntryOf(members, i, depth, fmt) + PrintMembers(members[i + 1..], depth, fmt)
  {
    hide PrintValue, Label;
    assert members[i..][1..] == members[i + 1..];
  }

  method PrintEntry(name: Text, value: Text, last: bool, depth: nat, fmt: bool) returns (out: Text)
    ensures out == Label'(name, depth, fmt) + value + EntryEnd(last, fmt)
  {
    out := [];
    if fmt { out := PrintTabs(depth); }
    out := out + name;
    out := out + [COLON];
    if fmt { out := out + [TAB]; }
    out := out + value;
    if !last { out := out + [COMMA]; }
    if fmt { out := out + [NEWLINE]; }
  }

  /** The label for a name that is printed already. */
  function Label'(name: Text, depth: nat, fmt: bool): Text {
    if fmt then Tabs(depth) + name + [COLON, TAB] else name + [COLON]
  }

  /** print_object */
  method PrintObject(members: seq<Member>, depth: nat, fmt: bool) returns (out: Text)
    ensures out == PrintValue(Object(members), depth, fmt)
    decreases members, 1
  {
    hide PrintMembers, EntryOf, EntryEnd, Label, Label', PrintString, Tabs;
    if |members| == 0 {
      out := [OPEN_OBJECT];
      if fmt {
        var tabs := PrintTabs(depth - 1);
        out := out + [NEWLINE] + tabs;
      }
      out := out + [CLOSE_OBJECT];
      return;
    }
    var names: seq<Text>, entries: seq<Text> := [], [];
    for i := 0 to |members|
      invariant |names| == |entries| == i
      invariant forall k :: 0 <= k < i ==>
        names[k] == PrintString(members[k].name) && entries[k] == PrintValue(members[k].value, depth + 1, fmt)
    {
      var str := PrintStringPtr(members[i].name);
      var ret := Print(members[i].value, depth + 1, fmt);
      names, entries := names + [str], entries + [ret];
    }
    out := if fmt then [OPEN_OBJECT, NEWLINE] else [OPEN_OBJECT];
    ghost var start := out;
    assert members[0..] == members;
    for i := 0 to |members|
      invariant out + PrintMembers(members[i..], depth + 1, fmt) == start + PrintMembers(members, depth + 1, fmt)
    {
      hide PrintValue;
      MembersFromStep(members, i, depth + 1, fmt);
      Assoc(out, EntryOf(members, i, depth + 1, fmt), PrintMembers(members[i + 1..], depth + 1, fmt));
      var entry := PrintEntry(names[i], entries[i], i == |members| - 1, depth + 1, fmt);
      EntryIs(members, i, depth + 1, fmt);
      out := out + entry;
    }
    NoMembersLeft(members, depth + 1, fmt);
    assert out == start + PrintMembers(members, depth + 1, fmt);
    if fmt {
      var tabs := PrintTabs(depth);
      out := out + tabs;
    }
    out := out + [CLOSE_OBJECT];
  }

  lemma NoMembersLeft(members: seq<Member>, depth: nat, fmt: bool)
    ensures PrintMembers(members[|members|..], depth, fmt) == []
  {
  }

  lemma EntryIs(members: seq<Member>, i: nat, depth: nat, fmt: bool)
    requires i < |members|
    ensures EntryOf(members, i, depth, fmt) ==
      Label'(PrintString(members[i].name), depth, fmt) + PrintValue(members[i].value, depth, fmt)
        + EntryEnd(i == |members| - 1, fmt)
  {
    hide PrintValue, PrintString;
  }

  /** print_value */
  method Print(j: Json, depth: nat, fmt: bool) returns (out: Text)
    ensures out == PrintValue(j, depth, fmt)
    decreases j
  {
    match j {
      case Null => out := NULL_TEXT;
      case False => out := FALSE_TEXT;
      case True => out := TRUE_TEXT;
      case Number(n) => out := PrintNumber(n);
      case String(s) => out := PrintStringPtr(s);
      case Array(items) => out := PrintArray(items, depth, fmt);
      case Object(members) => out := PrintObject(members, depth, fmt);
    }
  }

  // ----- Parsing ---------------------------------------------------------------------

  method SkipBlanks(t: Text) returns (r: Text)
    ensures r == Skip(t)
  {
    r := t;
    while r != [] && 0 < r[0] <= 32
      invariant Skip(r) == Skip(t)
      decreases |r|
    {
      r := r[1..];
    }
  }

  /** parse_number; the digit loop runs at least once. */
  method ReadNumber(t: Text) returns (r: Result<Json>)
    requires Head(t) == MINUS || IsDigit(Head(t))
    ensures r == ParseNumber(t)
  {
    var num := t;
    var sign: int := 1;
    var n: nat := 0;
    if Head(num) == MINUS { sign := -1; num := num[1..]; }
    if Head(num) == ZERO { num := num[1..]; }
    ghost var v := num;
    if IsDigit(Head(num)) && Head(num) != ZERO {
      while IsDigit(Head(num))
        invariant ParseDigits(num, n) == ParseDigits(v, 0)
        decreases |num|
      {
        n := 10 * n + (num[0] - ZERO) as nat;
        num := num[1..];
      }
    }
    var value := sign * n;
    if (Head(num) == 46 && IsDigit(Head(num[1..]))) || Head(num) == 101 || Head(num) == 69
       || !(INT_MIN <= value <= INT_MAX) {
      r := Unmodelled;
    } else {
      r := Ok(Number(value), num);
    }
  }

  /** What the rest of the loop of parse_string gives, after the bytes `out`. */
  function Continued(out: Text, t: Text): Result<Text> {
    match Unescape(t) case Ok(s, u) => Ok(out + s, u) case e => e
  }

  lemma ContinuedStep(out: Text, t: Text)
    requires !EndsString(t)
    ensures match NextChar(t)
            case Ok(b, u) => Continued(out, t) == Continued(out + b, u)
            case e => Continued(out, t) == e
  {
    hide NextChar;
    match NextChar(t) {
      case Ok(b, u) =>
        match Unescape(u) { case Ok(s, w) => Assoc(out, b, s); case _ => }
      case _ =>
    }
  }

  /** The second half of a surrogate pair, whose first half `uc` was read, at `t`. */
  method ReadPair(uc: nat, t: Text) returns (r: Result<Text>)
    requires 0xD800 <= uc < 0xDC00
    ensures r == SecondHalf(uc, t)
  {
    if Head(t) != BACKSLASH || Head(t[1..]) != LETTER_U { return Ok([], t); }
    var uc2 := Hex4(t[2..]);
    if uc2 < 0 { return Unmodelled; }
    if uc2 < 0xDC00 || uc2 > 0xDFFF { return Ok([], t[6..]); }
    var bytes := ToUtf8(0x1_0000 + 0x400 * (uc % 0x400) + uc2 % 0x400);
    r := Ok(bytes, t[6..]);
  }

  /** The body of the loop of parse_string. */
  method ReadChar(t: Text) returns (r: Result<Text>)
    requires Head(t) != 0
    ensures r == NextChar(t)
  {
    if t[0] != BACKSLASH { return Ok([t[0]], t[1..]); }
    if |t| == 1 { return Unmodelled; }
    if t[1] != LETTER_U { return Ok([Unescaped(t[1])], t[2..]); }
    var uc := Hex4(t[2..]);
    if uc < 0 { return Unmodelled; }
    var u := t[2..][4..];
    if 0xDC00 <= uc <= 0xDFFF || uc == 0 { return Ok([], u); }
    if 0xD800 <= uc <= 0xDBFF {
      r := ReadPair(uc, u);
    } else {
      var bytes := ToUtf8(uc);
      r := Ok(bytes, u);
    }
  }

  /** parse_string */
  method ReadString(t: Text) returns (r: Result<Text>)
    ensures r == ParseString(t)
  {
    hide NextChar, Unescape;
    if Head(t) != QUOTE { return Failed; }
    var ptr := t[1..];
    var out: Text := [];
    assert Continued([], ptr) == Unescape(ptr)
      by { match Unescape(ptr) { case Ok(s, u) => assert [] + s == s; case _ => } }
    while !EndsString(ptr)
      invariant Continued(out, ptr) == Unescape(t[1..])
      decreases |ptr|
    {
      ContinuedStep(out, ptr);
      var next := ReadChar(ptr);
      match next {
        case Ok(b, u) => out := out + b; ptr := u;
        case Failed => return Failed;
        case Unmodelled => return Unmodelled;
      }
    }
    assert Continued(out, ptr) == Ok(out, ptr) by { StringEnds(out, ptr); }
    if Head(ptr) == QUOTE { ptr := ptr[1..]; }
    r := Ok(out, ptr);
  }

  lemma StringEnds(out: Text, t: Text)
    requires EndsString(t)
    ensures Continued(out, t) == Ok(out, t)
  {
    assert out + [] == out;
  }

  /** parse_value */
  method Read(t: Text) returns (r: Result<Json>)
    ensures r == ParseValue(t)
    decreases |t|, 1
  {
    hide ParseString, ParseNumber, ParseArray, ParseObject;
    if NULL_TEXT <= t { return Ok(Null, t[4..]); }
    if FALSE_TEXT <= t { return Ok(False, t[5..]); }
    if TRUE_TEXT <= t { return Ok(True, t[4..]); }
    if Head(t) == QUOTE {
      var s := ReadString(t);
      match s {
        case Ok(text, u) => return Ok(String(text), u);
        case Failed => return Failed;
        case Unmodelled => return Unmodelled;
      }
    }
    if Head(t) == MINUS || IsDigit(Head(t)) { r := ReadNumber(t); return; }
    if Head(t) == OPEN_ARRAY { r := ReadArray(t); return; }
    if Head(t) == OPEN_OBJECT { r := ReadObject(t); return; }
    r := Failed;
  }

  /** The rest of parse_array once the item before `v` is in `done`. */
  function AfterItem(v: Text, done: seq<Json>): Result<seq<Json>> {
    if Head(v) == COMMA then ParseItems(Skip(v[1..]), done)
    else if Head(v) == CLOSE_ARRAY then Ok(done, v[1..])
    else Failed
  }

  /** parse_array */
  method ReadArray(t: Text) returns (r: Result<Json>)
    requires Head(t) == OPEN_ARRAY
    ensures r == ParseArray(t)
    decreases |t|, 0
  {
    hide ParseValue, Skip;
    var value := SkipBlanks(t[1..]);
    if Head(value) == CLOSE_ARRAY { return Ok(Array([]), value[1..]); }
    ghost var u := value;
    var child := Read(value);
    if !child.Ok? { return if child.Failed? then Failed else Unmodelled; }
    value := SkipBlanks(child.rest);
    var done := [child.value];
    assert [] + [child.value] == done;
    while Head(value) == COMMA
      invariant ParseItems(u, []) == AfterItem(value, done) && |value| < |t|
      decreases |value|
    {
      value := SkipBlanks(value[1..]);
      child := Read(value);
      if !child.Ok? { return if child.Failed? then Failed else Unmodelled; }
      value := SkipBlanks(child.rest);
      done := done + [child.value];
    }
    if Head(value) == CLOSE_ARRAY { return Ok(Array(done), value[1..]); }
    r := Failed;
  }

  function AfterMember(v: Text, done: seq<Member>): Result<seq<Member>> {
    if Head(v) == COMMA then ParseMembers(Skip(v[1..]), done)
    else if Head(v) == CLOSE_OBJECT then Ok(done, v[1..])
    else Failed
  }

  /** A name, a colon and a value. */
  method ReadMember(t: Text) returns (r: Result<Member>)
    ensures r == ParseMember(t)
    decreases |t|, 2
  {
    hide ParseValue, ParseString, Skip;
    var name := ReadString(t);
    if !name.Ok? { return if name.Failed? then Failed else Unmodelled; }
    var value := SkipBlanks(name.rest);
    if Head(value) != COLON { return Failed; }
    value := SkipBlanks(value[1..]);
    var child := Read(value);
    if !child.Ok? { return if child.Failed? then Failed else Unmodelled; }
    r := Ok(Member(name.value, child.value), child.rest);
  }

  /** parse_object */
  method ReadObject(t: Text) returns (r: Result<Json>)
    requires Head(t) == OPEN_OBJECT
    ensures r == ParseObject(t)
    decreases |t|, 0
  {
    hide ParseMember, Skip;
    var value := SkipBlanks(t[1..]);
    if Head(value) == CLOSE_OBJECT { return Ok(Object([]), value[1..]); }
    ghost var u := value;
    var child := ReadMember(value);
    if !child.Ok? { return if child.Failed? then Failed else Unmodelled; }
    value := SkipBlanks(child.rest);
    var done := [child.value];
    assert [] + [child.value] == done;
    while Head(value) == COMMA
      invariant ParseMembers(u, []) == AfterMember(value, done) && |value| < |t|
      decreases |value|
    {
      value := SkipBlanks(value[1..]);
      child := ReadMember(value);
      if !child.Ok? { return if child.Failed? then Failed else Unmodelled; }
      value := SkipBlanks(child.rest);
      done := done + [child.value];
    }
    if Head(value) == CLOSE_OBJECT { return Ok(Object(done), value[1..]); }
    r := Failed;
  }
}
