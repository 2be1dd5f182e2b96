/**
 JSON as the encoder writes it, without white space, and a recursive-descent
 reader.  Strings follow section 7 of RFC 8259.
 */
module JsonText {
  import opened Wrappers
  import Utf8

  type Text = Utf8.Text

  datatype Json = Null | Str(text: Text) | Arr(items: seq<Json>) | Obj(members: seq<Member>)
  datatype Member = Member(key: Text, value: Json)

  const QUOTE: Utf8.CodePoint := 34
  const COMMA: Utf8.CodePoint := 44
  const COLON: Utf8.CodePoint := 58
  const OPEN: Utf8.CodePoint := 91
  const BACKSLASH: Utf8.CodePoint := 92
  const CLOSE: Utf8.CodePoint := 93
  const BEGIN: Utf8.CodePoint := 123
  const END: Utf8.CodePoint := 125
  const NULL: Text := [110, 117, 108, 108]

  // ------------------------------------------------------------------ writing

  function HexDigit(d: int): (c: Utf8.CodePoint)
    requires 0 <= d < 16
  {
    if d < 10 then 48 + d else 87 + d
  }

  /** `json.dumps(c, ensure_ascii=False)[1:-1]` for one character. */
  function EscapeChar(c: Utf8.CodePoint): (r: Text)
    ensures r != []
  {
    if c == QUOTE || c == BACKSLASH then [BACKSLASH, c]
    else if c == 8 then [BACKSLASH, 98]
    else if c == 9 then [BACKSLASH, 116]
    else if c == 10 then [BACKSLASH, 110]
    else if c == 12 then [BACKSLASH, 102]
    else if c == 13 then [BACKSLASH, 114]
    else if c < 32 then [BACKSLASH, 117, 48, 48, HexDigit(c / 16), HexDigit(c % 16)]
    else [c]
  }

  function Escape(t: Text): Text {
    if t == [] then [] else EscapeChar(t[0]) + Escape(t[1..])
  }

  function RenderString(t: Text): Text {
    [QUOTE] + (Escape(t) + [QUOTE])
  }

  function Render(j: Json): (r: Text)
    ensures r != []
    decreases j, 0
  {
    match j
    case Null => NULL
    case Str(t) => RenderString(t)
    case Arr(items) => [OPEN] + (RenderItems(items) + [CLOSE])
    case Obj(members) => [BEGIN] + (RenderMembers(members) + [END])
  }

  function RenderItems(items: seq<Json>): Text
    decreases items, 1
  {
    if items == [] then []
    else Render(items[0]) + (if |items| == 1 then [] else [COMMA] + RenderItems(items[1..]))
  }

  function RenderMember(m: Member): (r: Text)
    decreases m, 1
  {
    RenderString(m.key) + ([COLON] + Render(m.value))
  }

  function RenderMembers(members: seq<Member>): Text
    decreases members, 1
  {
    if members == [] then []
    else RenderMember(members[0]) + (if |members| == 1 then [] else [COMMA] + RenderMembers(members[1..]))
  }

  // ------------------------------------------------------------------ reading

  datatype Scan<+T> = Scan(value: T, rest: Text)

  predicate IsHex(c: Utf8.CodePoint) {
    48 <= c <= 57 || 65 <= c <= 70 || 97 <= c <= 102
  }

  function HexValue(c: Utf8.CodePoint): (d: int)
    requires IsHex(c)
    ensures 0 <= d < 16
  {
    if c <= 57 then c - 48 else if c <= 70 then c - 55 else c - 87
  }

  /** The character a two-character escape stands for. */
  function Short(c: Utf8.CodePoint): Option<Utf8.CodePoint> {
    if c == QUOTE || c == BACKSLASH || c == 47 then Some(c)
    else if c == 98 then Some(8)
    else if c == 102 then Some(12)
    else if c == 110 then Some(10)
    else if c == 114 then Some(13)
    else if c == 116 then Some(9)
    else None
  }

  /** One character of a string literal, escaped or not. */
  function ScanChar(t: Text): (r: Option<Scan<Utf8.CodePoint>>)
    ensures r.Some? ==> |r.value.rest| < |t|
  {
    if t == [] || t[0] < 32 || t[0] == QUOTE then None
    else if t[0] != BACKSLASH then Some(Scan(t[0], t[1..]))
    else if |t| < 2 then None
    else if t[1] == 117 then
      if |t| >= 6 && IsHex(t[2]) && IsHex(t[3]) && IsHex(t[4]) && IsHex(t[5]) then
        Some(Scan(0x1000 * HexValue(t[2]) + 0x100 * HexValue(t[3]) + 0x10 * HexValue(t[4]) + HexValue(t[5]), t[6..]))
      else None
    else match Short(t[1])
      case None => None
      case Some(c) => Some(Scan(c, t[2..]))
  }

  /** The characters up to the closing quote. */
  function ScanChars(t: Text): (r: Option<Scan<Text>>)
    ensures r.Some? ==> |r.value.rest| < |t|
    decreases |t|
  {
    if t != [] && t[0] == QUOTE then Some(Scan([], t[1..]))
    else match ScanChar(t)
      case None => None
      case Some(c) => match ScanChars(c.rest)
        case None => None
        case Some(s) => Some(Scan([c.value] + s.value, s.rest))
  }

  function ScanString(t: Text): (r: Option<Scan<Text>>)
    ensures r.Some? ==> |r.value.rest| < |t|
  {
    if t != [] && t[0] == QUOTE then ScanChars(t[1..]) else None
  }

  function ScanJson(t: Text): (r: Option<Scan<Json>>)
    ensures r.Some? ==> |r.value.rest| < |t|
    decreases |t|, 0
  {
    if t == [] then None
    else if t[0] == 110 then if NULL <= t then Some(Scan(Null, t[4..])) else None
    else if t[0] == QUOTE then
      match ScanString(t)
      case None => None
      case Some(s) => Some(Scan(Str(s.value), s.rest))
    else if t[0] == OPEN then
      if |t| > 1 && t[1] == CLOSE then Some(Scan(Arr([]), t[2..]))
      else match ScanItems(t[1..])
        case None => None
        case Some(s) => Some(Scan(Arr(s.value), s.rest))
    else if t[0] == BEGIN then
      if |t| > 1 && t[1] == END then Some(Scan(Obj([]), t[2..]))
      else match ScanMembers(t[1..])
        case None => None
        case Some(s) => Some(Scan(Obj(s.value), s.rest))
    else None
  }

  /** One or more values up to the closing bracket. */
  function ScanItems(t: Text): (r: Option<Scan<seq<Json>>>)
    ensures r.Some? ==> |r.value.rest| < |t|
    decreases |t|, 1
  {
    match ScanJson(t)
    case None => None
    case Some(head) =>
      if head.rest == [] then None
      else if head.rest[0] == CLOSE then Some(Scan([head.value], head.rest[1..]))
      else if head.rest[0] == COMMA then
        match ScanItems(head.rest[1..])
        case None => None
        case Some(s) => Some(Scan([head.value] + s.value, s.rest))
      else None
  }

  function ScanMember(t: Text): (r: Option<Scan<Member>>)
    ensures r.Some? ==> |r.value.rest| < |t|
    decreases |t|, 1
  {
    match ScanString(t)
    case None => None
    case Some(key) =>
      if key.rest == [] || key.rest[0] != COLON then None
      else match ScanJson(key.rest[1..])
        case None => None
        case Some(v) => Some(Scan(Member(key.value, v.value), v.rest))
  }

  function ScanMembers(t: Text): (r: Option<Scan<seq<Member>>>)
    ensures r.Some? ==> |r.value.rest| < |t|
    decreases |t|, 2
  {
    match ScanMember(t)
    case None => None
    case Some(head) =>
      if head.rest == [] then None
      else if head.rest[0] == END then Some(Scan([head.value], head.rest[1..]))
      else if head.rest[0] == COMMA then
        match ScanMembers(head.rest[1..])
        case None => None
        case Some(s) => Some(Scan([head.value] + s.value, s.rest))
      else None
  }

  /** A document is one value and nothing after it. */
  function Read(t: Text): Option<Json> {
    match ScanJson(t)
    case None => None
    case Some(s) => if s.rest == [] then Some(s.value) else None
  }

  // -------------------------------------------------------------- round trips

  lemma ScanCharOf(c: Utf8.CodePoint, rest: Text)
    ensures ScanChar(EscapeChar(c) + rest) == Some(Scan(c, rest))
  {
    var e := EscapeChar(c);
    assert (e + rest)[|e|..] == rest;
    assert forall i :: 0 <= i < |e| ==> (e + rest)[i] == e[i];
  }

  /** An escape is written exactly where the character alone is refused, and a short one where there is one. */
  lemma EscapedWhereNeeded(c: Utf8.CodePoint)
    ensures EscapeChar(c) == [c] <==> ScanChar([c]) == Some(Scan(c, []))
    ensures |EscapeChar(c)| == 2 <==> ScanChar([c]).None? && exists e :: Short(e) == Some(c)
    ensures |EscapeChar(c)| in {1, 2, 6}
  {
    if |EscapeChar(c)| == 2 {
      assert Short(EscapeChar(c)[1]) == Some(c);
    }
  }

  lemma ScanCharsStep(e: Text, c: Utf8.CodePoint, tail: Text, s: Text, rest: Text)
    requires e != [] && ScanChar(e + tail) == Some(Scan(c, tail)) && ScanChars(tail) == Some(Scan(s, rest))
    ensures ScanChars(e + tail) == Some(Scan([c] + s, rest))
  {
  }

  lemma Join(a: Text, b: Text, c: Text)
    ensures (a + b) + c == a + (b + c)
  {
  }

  lemma EscapeFirst(t: Text, after: Text)
    requires t != []
    ensures Escape(t) + after == EscapeChar(t[0]) + (Escape(t[1..]) + after)
  {
    Join(EscapeChar(t[0]), Escape(t[1..]), after);
  }

  lemma {:induction false} ScanCharsOf(t: Text, rest: Text)
    ensures ScanChars(Escape(t) + ([QUOTE] + rest)) == Some(Scan(t, rest))
  {
    var after := [QUOTE] + rest;
    if t == [] {
      assert Escape(t) + after == after && after[1..] == rest;
    } else {
      var c, u := t[0], t[1..];
      var tail := Escape(u) + after;
      ScanCharsOf(u, rest);
      ScanCharOf(c, tail);
      ScanCharsStep(EscapeChar(c), c, tail, u, rest);
      EscapeFirst(t, after);
      assert t == [c] + u;
    }
  }

  lemma ScanStringOf(t: Text, rest: Text)
    ensures ScanString(RenderString(t) + rest) == Some(Scan(t, rest))
  {
    ScanCharsOf(t, rest);
    Inside(QUOTE, Escape(t), QUOTE, rest);
    ScanStringStep(RenderString(t) + rest, Scan(t, rest));
  }

  lemma ScanStringStep(t: Text, s: Scan<Text>)
    requires t != [] && t[0] == QUOTE && ScanChars(t[1..]) == Some(s)
    ensures ScanString(t) == Some(s)
  {
  }

  /** Bracketed text, with what follows it. */
  lemma Inside(open: Utf8.CodePoint, body: Text, close: Utf8.CodePoint, rest: Text)
    ensures ([open] + (body + [close]) + rest)[1..] == body + ([close] + rest)
    ensures ([close] + rest)[1..] == rest
    ensures body == [] ==> ([open] + (body + [close]) + rest)[2..] == rest
  {
  }

  predicate Starts(t: Text) {
    t != [] && t[0] != CLOSE && t[0] != COMMA && t[0] != END
  }

  lemma ScanArray(body: Text, items: seq<Json>, rest: Text)
    requires body == [] ==> items == []
    requires body != [] ==> Starts(body) && ScanItems(body + ([CLOSE] + rest)) == Some(Scan(items, rest))
    ensures ScanJson([OPEN] + (body + [CLOSE]) + rest) == Some(Scan(Arr(items), rest))
  {
    Inside(OPEN, body, CLOSE, rest);
  }

  lemma ScanObject(body: Text, members: seq<Member>, rest: Text)
    requires body == [] ==> members == []
    requires body != [] ==> Starts(body) && ScanMembers(body + ([END] + rest)) == Some(Scan(members, rest))
    ensures ScanJson([BEGIN] + (body + [END]) + rest) == Some(Scan(Obj(members), rest))
  {
    Inside(BEGIN, body, END, rest);
  }

  lemma RenderItemsOne(j: Json)
    ensures RenderItems([j]) == Render(j)
  {
  }

  lemma RenderItemsMore(j: Json, others: seq<Json>)
    requires others != []
    ensures RenderItems([j] + others) == Render(j) + ([COMMA] + RenderItems(others))
  {
    assert ([j] + others)[1..] == others;
  }

  lemma RenderMembersOne(m: Member)
    ensures RenderMembers([m]) == RenderMember(m)
  {
  }

  lemma RenderMembersMore(m: Member, others: seq<Member>)
    requires others != []
    ensures RenderMembers([m] + others) == RenderMember(m) + ([COMMA] + RenderMembers(others))
  {
    assert ([m] + others)[1..] == others;
  }

  lemma ScanItemsLast(t: Text, j: Json, rest: Text)
    requires ScanJson(t) == Some(Scan(j, [CLOSE] + rest))
    ensures ScanItems(t) == Some(Scan([j], rest))
  {
    assert ([CLOSE] + rest)[1..] == rest;
  }

  lemma ScanItemsMore(t: Text, j: Json, tail: Text, others: seq<Json>, rest: Text)
    requires ScanJson(t) == Some(Scan(j, [COMMA] + tail)) && ScanItems(tail) == Some(Scan(others, rest))
    ensures ScanItems(t) == Some(Scan([j] + others, rest))
  {
    assert ([COMMA] + tail)[1..] == tail;
  }

  lemma ScanMembersMore(t: Text, m: Member, tail: Text, others: seq<Member>, rest: Text)
    requires ScanMember(t) == Some(Scan(m, [COMMA] + tail)) && ScanMembers(tail) == Some(Scan(others, rest))
    ensures ScanMembers(t) == Some(Scan([m] + others, rest))
  {
    assert ([COMMA] + tail)[1..] == tail;
  }

  lemma ScanMembersLast(t: Text, m: Member, rest: Text)
    requires ScanMember(t) == Some(Scan(m, [END] + rest))
    ensures ScanMembers(t) == Some(Scan([m], rest))
  {
    assert ([END] + rest)[1..] == rest;
  }

  lemma Assoc(a: Text, b: Text, c: Text, d: Text)
    ensures (a + (b + c)) + d == a + (b + (c + d))
  {
  }

  /** A rendered value, followed by anything, reads back as that value and the rest. */
  lemma {:induction false} ScanJsonOf(j: Json, rest: Text)
    ensures ScanJson(Render(j) + rest) == Some(Scan(j, rest))
    decreases j, 0
  {
    match j
    case Null =>
      assert (NULL + rest)[4..] == rest;
    case Str(t) =>
      ScanStringOf(t, rest);
    case Arr(items) =>
      if items != [] { ScanItemsOf(items, rest); }
      ScanArray(RenderItems(items), items, rest);
    case Obj(members) =>
      if members != [] { ScanMembersOf(members, rest); }
      ScanObject(RenderMembers(members), members, rest);
  }

  lemma {:induction false} ScanItemsOf(items: seq<Json>, rest: Text)
    requires items != []
    ensures ScanItems(RenderItems(items) + ([CLOSE] + rest)) == Some(Scan(items, rest))
    decreases items, 1
  {
    var j, head, line := items[0], Render(items[0]), [CLOSE] + rest;
    if |items| == 1 {
      ScanJsonOf(j, line);
      ScanItemsLast(head + line, j, rest);
      RenderItemsOne(j);
      assert items == [j];
    } else {
      var others := items[1..];
      RenderItemsMore(j, others);
      var tail := RenderItems(others) + line;
      ScanItemsOf(others, rest);
      ScanJsonOf(j, [COMMA] + tail);
      ScanItemsMore(head + ([COMMA] + tail), j, tail, others, rest);
      Assoc(head, [COMMA], RenderItems(others), line);
      assert items == [j] + others;
    }
  }

  lemma {:induction false} ScanMemberOf(m: Member, rest: Text)
    ensures ScanMember(RenderMember(m) + rest) == Some(Scan(m, rest))
    decreases m, 1
  {
    var value := Render(m.value) + rest;
    ScanJsonOf(m.value, rest);
    ScanStringOf(m.key, [COLON] + value);
    Assoc(RenderString(m.key), [COLON], Render(m.value), rest);
    assert ([COLON] + value)[1..] == value;
  }

  lemma {:induction false} ScanMembersOf(members: seq<Member>, rest: Text)
    requires members != []
    ensures ScanMembers(RenderMembers(members) + ([END] + rest)) == Some(Scan(members, rest))
    decreases members, 2
  {
    var m, head, line := members[0], RenderMember(members[0]), [END] + rest;
    if |members| == 1 {
      ScanMemberOf(m, line);
      ScanMembersLast(head + line, m, rest);
      RenderMembersOne(m);
      assert members == [m];
    } else {
      var others := members[1..];
      RenderMembersMore(m, others);
      var tail := RenderMembers(others) + line;
      ScanMembersOf(others, rest);
      ScanMemberOf(m, [COMMA] + tail);
      ScanMembersMore(head + ([COMMA] + tail), m, tail, others, rest);
      Assoc(head, [COMMA], RenderMembers(others), line);
      assert members == [m] + others;
    }
  }

  /** Reading a rendered document returns it. */
  lemma ReadOfRender(j: Json)
    ensures Read(Render(j)) == Some(j)
  {
    ScanJsonOf(j, []);
    assert Render(j) + [] == Render(j);
  }

  // ------------------------------------------------- escaping piece by piece

  lemma {:induction false} EscapeAppend(a: Text, b: Text)
    ensures Escape(a + b) == Escape(a) + Escape(b)
  {
    if a == [] {
      assert a + b == b;
    } else {
      assert (a + b)[1..] == a[1..] + b;
      EscapeAppend(a[1..], b);
    }
  }
}
