/**
 Python text and its strict UTF-8 form.  A Python `str` may hold lone
 surrogates, so text is a sequence of code points and encoding is partial.
 */
module Utf8 {
  import opened Wrappers
  import opened Bytes

  type CodePoint = c: int | 0 <= c < 0x11_0000
  type Text = seq<CodePoint>

  predicate IsSurrogate(c: CodePoint) {
    0xD800 <= c <= 0xDFFF
  }

  /** What `str.encode("utf-8")` accepts. */
  predicate Encodable(t: Text) {
    forall i :: 0 <= i < |t| ==> !IsSurrogate(t[i])
  }

  function EncodeChar(c: CodePoint): (r: Bytes)
    requires !IsSurrogate(c)
    ensures 1 <= |r| <= 4
  {
    if c < 0x80 then [c]
    else if c < 0x800 then [0xC0 + c / 0x40, 0x80 + c % 0x40]
    else if c < 0x1_0000 then [0xE0 + c / 0x1000, 0x80 + c / 0x40 % 0x40, 0x80 + c % 0x40]
    else [0xF0 + c / 0x4_0000, 0x80 + c / 0x1000 % 0x40, 0x80 + c / 0x40 % 0x40, 0x80 + c % 0x40]
  }

  function Encode(t: Text): (r: Bytes)
    requires Encodable(t)
    ensures |r| >= |t|
  {
    if t == [] then [] else EncodeChar(t[0]) + Encode(t[1..])
  }

  // ---------------------------------------------------------------- decoding

  predicate Continuation(b: Bytes, i: nat) {
    i < |b| && 0x80 <= b[i] < 0xC0
  }

  /** The six payload bits of a continuation byte, and the bits of a lead byte. */
  function Bits(b: Bytes, i: nat, mark: int): int
    requires i < |b|
  {
    b[i] - mark
  }

  datatype Lead = Lead(c: CodePoint, width: nat)

  /** One code point from the front; None for anything RFC 3629 forbids. */
  function DecodeChar(b: Bytes): (r: Option<Lead>)
    requires b != []
    ensures r.Some? ==> 1 <= r.value.width <= |b|
  {
    if b[0] < 0x80 then Some(Lead(b[0], 1))
    else if 0xC2 <= b[0] < 0xE0 && Continuation(b, 1) then
      Some(Lead(0x40 * Bits(b, 0, 0xC0) + Bits(b, 1, 0x80), 2))
    else if 0xE0 <= b[0] < 0xF0 && Continuation(b, 1) && Continuation(b, 2) then
      var c := 0x1000 * Bits(b, 0, 0xE0) + 0x40 * Bits(b, 1, 0x80) + Bits(b, 2, 0x80);
      if c < 0x800 || IsSurrogate(c) then None else Some(Lead(c, 3))
    else if 0xF0 <= b[0] < 0xF5 && Continuation(b, 1) && Continuation(b, 2) && Continuation(b, 3) then
      var c := 0x4_0000 * Bits(b, 0, 0xF0) + 0x1000 * Bits(b, 1, 0x80) + 0x40 * Bits(b, 2, 0x80) + Bits(b, 3, 0x80);
      if c < 0x1_0000 || c >= 0x11_0000 then None else Some(Lead(c, 4))
    else None
  }

  function Decode(b: Bytes): (r: Option<Text>) {
    if b == [] then Some([])
    else match DecodeChar(b)
      case None => None
      case Some(lead) =>
        match Decode(b[lead.width..])
        case None => None
        case Some(rest) => Some([lead.c] + rest)
  }

  lemma DecodeCharOfEncodeChar(c: CodePoint, rest: Bytes)
    requires !IsSurrogate(c)
    ensures DecodeChar(EncodeChar(c) + rest) == Some(Lead(c, |EncodeChar(c)|))
  {
    var e := EncodeChar(c);
    assert forall i :: 0 <= i < |e| ==> (e + rest)[i] == e[i];
    if 0x80 <= c < 0x800 {
      TwoParts(c);
    } else if 0x800 <= c < 0x1_0000 {
      ThreeParts(c);
    } else if 0x1_0000 <= c {
      FourParts(c);
    }
  }

  lemma TwoParts(c: int)
    requires c >= 0
    ensures c == 0x40 * (c / 0x40) + c % 0x40
  {
  }

  lemma ThreeParts(c: int)
    requires c >= 0
    ensures c == 0x1000 * (c / 0x1000) + 0x40 * (c / 0x40 % 0x40) + c % 0x40
  {
    TwoParts(c);
    TwoParts(c / 0x40);
    assert c / 0x40 / 0x40 == c / 0x1000;
  }

  lemma FourParts(c: int)
    requires c >= 0
    ensures c == 0x4_0000 * (c / 0x4_0000) + 0x1000 * (c / 0x1000 % 0x40) + 0x40 * (c / 0x40 % 0x40) + c % 0x40
  {
    ThreeParts(c);
    TwoParts(c / 0x1000);
    assert c / 0x1000 / 0x40 == c / 0x4_0000;
  }

  /** Decoding inverts encoding. */
  lemma {:induction false} DecodeOfEncode(t: Text)
    requires Encodable(t)
    ensures Decode(Encode(t)) == Some(t)
  {
    if t != [] {
      var e := EncodeChar(t[0]);
      DecodeCharOfEncodeChar(t[0], Encode(t[1..]));
      DecodeCons(t[0], |e|, Encode(t));
      assert Encode(t)[|e|..] == Encode(t[1..]);
      DecodeOfEncode(t[1..]);
      assert t == [t[0]] + t[1..];
    }
  }

  lemma DecodeCons(c: CodePoint, width: nat, b: Bytes)
    requires b != [] && DecodeChar(b) == Some(Lead(c, width))
    ensures Decode(b) == match Decode(b[width..]) case None => None case Some(t) => Some([c] + t)
  {
  }

  lemma EncodeCons(c: CodePoint, t: Text)
    requires !IsSurrogate(c) && Encodable(t)
    ensures Encodable([c] + t) && Encode([c] + t) == EncodeChar(c) + Encode(t)
  {
    assert ([c] + t)[1..] == t;
  }

  lemma Parts(a: Bytes, b: Bytes, c: Bytes)
    ensures a + b + c == a + (b + c)
  {
  }

  lemma {:induction false} EncodeAppend(a: Text, b: Text)
    requires Encodable(a) && Encodable(b)
    ensures Encodable(a + b) && Encode(a + b) == Encode(a) + Encode(b)
  {
    if a == [] {
      assert a + b == b;
    } else {
      EncodeAppend(a[1..], b);
      EncodeCons(a[0], a[1..] + b);
      EncodeCons(a[0], a[1..]);
      assert a == [a[0]] + a[1..];
      assert a + b == [a[0]] + (a[1..] + b);
      Parts(EncodeChar(a[0]), Encode(a[1..]), Encode(b));
    }
  }
}
