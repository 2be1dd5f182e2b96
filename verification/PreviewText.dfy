/** `safe_text`: display text without disruptive controls, of bounded length. */
module PreviewText {
  import opened Wrappers
  import opened Bytes
  import opened Utf8
  import opened PreviewLimits

  // "… [truncated]"
  const SUFFIX: Text := [0x2026, 32, 91, 116, 114, 117, 110, 99, 97, 116, 101, 100, 93]

  predicate IsBidi(c: CodePoint) {
    0x202A <= c < 0x202F || 0x2066 <= c < 0x206A || c in {0x061C, 0x200E, 0x200F}
  }

  predicate IsControl(c: CodePoint) {
    c < 32 || 0x7F <= c <= 0x9F
  }

  /** What may reach the screen as it is. */
  predicate Harmless(c: CodePoint) {
    !IsControl(c) && !IsBidi(c) && !IsSurrogate(c)
  }

  /** The low k hexadecimal digits of n. */
  function HexDigits(n: nat, k: nat): (r: Text)
    ensures |r| == k && forall i :: 0 <= i < k ==> r[i] < 256 && IsHexDigit(r[i])
  {
    if k == 0 then [] else HexDigits(n / 16, k - 1) + [HexDigit(n % 16)]
  }

  function Piece(c: CodePoint): (r: Text)
    ensures 1 <= |r| <= 6 && forall i :: 0 <= i < |r| ==> Harmless(r[i])
  {
    if c == 10 then [92, 110]
    else if c == 13 then [92, 114]
    else if c == 9 then [92, 116]
    else if IsControl(c) then [92, 120] + HexDigits(c, 2)
    else if IsBidi(c) || IsSurrogate(c) then [92, 117] + HexDigits(c, 4)
    else [c]
  }

  /** The characters that disturb a display, listed: controls, the marks of bidirectional text, surrogates. */
  const DISRUPTIVE: set<int> :=
    {0x202A, 0x202B, 0x202C, 0x202D, 0x202E, 0x2066, 0x2067, 0x2068, 0x2069, 0x061C, 0x200E, 0x200F}

  function HexNumber(t: Text): nat
    requires forall i :: 0 <= i < |t| ==> IsHexDigit(t[i])
  {
    if t == [] then 0 else 16 * HexNumber(t[..|t| - 1]) + HexValue(t[|t| - 1])
  }

  /** The character a piece stands for. */
  function Spelled(piece: Text): Option<int> {
    if |piece| == 1 then Some(piece[0])
    else if piece == [92, 110] then Some(10)
    else if piece == [92, 114] then Some(13)
    else if piece == [92, 116] then Some(9)
    else if |piece| > 2 && piece[0] == 92 && piece[1] in {120, 117} && |piece| == (if piece[1] == 120 then 4 else 6)
      && (forall i :: 2 <= i < |piece| ==> IsHexDigit(piece[i])) then Some(HexNumber(piece[2..]))
    else None
  }

  lemma {:induction false} HexNumberOfDigits(n: nat, k: nat)
    requires n < Power(k)
    ensures HexNumber(HexDigits(n, k)) == n
  {
    if k > 0 {
      HexNumberOfDigits(n / 16, k - 1);
      assert HexDigits(n, k)[..k - 1] == HexDigits(n / 16, k - 1);
    }
  }

  /** 16 to the power k. */
  function Power(k: nat): nat {
    if k == 0 then 1 else 16 * Power(k - 1)
  }

  /** A character is spelled out exactly if it is disruptive, and its piece says which one it is. */
  lemma PieceMeaning(c: CodePoint)
    ensures Piece(c) == [c] <==>
      !(c < 0x20 || 0x7F <= c <= 0x9F || 0xD800 <= c <= 0xDFFF || c in DISRUPTIVE)
    ensures Spelled(Piece(c)) == Some(c)
  {
    var p := Piece(c);
    if |p| > 2 {
      assert Power(2) == 0x100 && Power(4) == 0x1_0000;
      HexNumberOfDigits(c, |p| - 2);
      assert p[2..] == HexDigits(c, |p| - 2);
    }
  }

  /** The text with every character replaced by its piece. */
  function Escaped(t: Text): (r: Text)
    ensures forall i :: 0 <= i < |r| ==> Harmless(r[i])
  {
    if t == [] then [] else Escaped(t[..|t| - 1]) + Piece(t[|t| - 1])
  }

  lemma {:induction false} EscapedPrefix(t: Text, i: nat)
    requires i <= |t|
    ensures Escaped(t[..i]) <= Escaped(t) && i <= |Escaped(t[..i])|
  {
    if i < |t| {
      EscapedPrefix(t[..|t| - 1], i);
      assert t[..|t| - 1][..i] == t[..i];
    } else {
      assert t[..i] == t;
      if t != [] { EscapedPrefix(t[..|t| - 1], |t| - 1); }
    }
  }

  /** All of the escaped text if it fits, and otherwise as much as fits before the suffix. */
  function Shown(t: Text, limit: nat): (r: Text)
    requires limit >= |SUFFIX|
    ensures |r| <= limit && forall i :: 0 <= i < |r| ==> Harmless(r[i])
  {
    var e := Escaped(t);
    if |e| <= limit then e else e[..limit - |SUFFIX|] + SUFFIX
  }

  /**
   The loop never builds the whole escaped text: it stops at the first piece that
   does not fit, yet shows what escaping first and cutting afterwards would show.
   */
  method SafeText(t: Text, limit: nat) returns (shown: Text, shortened: bool)
    requires limit >= |SUFFIX|
    ensures shown == Shown(t, limit) && (shortened <==> |Escaped(t)| > limit)
  {
    shown, shortened := [], false;
    var i := 0;
    while i < |t|
      invariant i <= |t| && shown == Escaped(t[..i]) && |shown| <= limit
    {
      var piece := Piece(t[i]);
      assert t[..i + 1][..i] == t[..i];
      EscapedPrefix(t, i);
      EscapedPrefix(t, i + 1);
      if |shown| + |piece| > limit {
        assert shown[..limit - |SUFFIX|] == Escaped(t)[..limit - |SUFFIX|];
        return shown[..limit - |SUFFIX|] + SUFFIX, true;
      }
      shown := shown + piece;
      i := i + 1;
    }
    assert t[..i] == t;
  }
}
