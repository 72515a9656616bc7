/** The sanitizer character by character: what stands on the terminal for each scalar value and for
    each byte that belongs to none, and which bytes wait for more. */
module TerminalText {
  import opened Bytes
  import opened JsonGrammar
  import opened TerminalStream
  import Quoting = GoQuote

  /** The values that UTF-8 encodes. */
  predicate IsScalar(r: int) { 0 <= r < 0x110000 && !(0xd800 <= r < 0xe000) }

  lemma OneByte(r: int)
    requires 0 <= r < 0x80
    ensures Utf8(r) == [r as Byte] && StartsValid(Utf8(r)) && Scalar(Utf8(r)) == r && Length(Utf8(r)[0]) == 1
  {
  }

  lemma TwoBytes(r: int)
    requires 0x80 <= r < 0x800
    ensures StartsValid(Utf8(r)) && Scalar(Utf8(r)) == r && Length(Utf8(r)[0]) == 2 == |Utf8(r)|
  {
    assert r == r / 0x40 * 0x40 + r % 0x40;
    assert 2 <= r / 0x40 < 0x20;
  }

  lemma ThreeBytes(r: int)
    requires 0x800 <= r < 0x10000 && !(0xd800 <= r < 0xe000)
    ensures StartsValid(Utf8(r)) && Scalar(Utf8(r)) == r && Length(Utf8(r)[0]) == 3 == |Utf8(r)|
  {
    var a, b, c := r / 0x1000, r / 0x40 % 0x40, r % 0x40;
    assert r == a * 0x1000 + b * 0x40 + c by { assert r / 0x40 / 0x40 == a; }
    assert Utf8(r) == [(0xe0 + a) as Byte, (0x80 + b) as Byte, (0x80 + c) as Byte];
    assert a == 0 ==> b >= 0x20;
    assert a == 0xd ==> b < 0x20;
  }

  lemma FourDigits(r: int)
    requires 0x10000 <= r < 0x110000
    ensures r == r / 0x40000 * 0x40000 + r / 0x1000 % 0x40 * 0x1000 + r / 0x40 % 0x40 * 0x40 + r % 0x40
    ensures r / 0x40000 < 5 && (r / 0x40000 == 0 ==> r / 0x1000 % 0x40 >= 0x10)
            && (r / 0x40000 == 4 ==> r / 0x1000 % 0x40 < 0x10)
  {
    var high := r / 0x40;
    var top := high / 0x40;
    assert top == r / 0x1000 && top / 0x40 == r / 0x40000;
  }

  lemma FourBytes(r: int)
    requires 0x10000 <= r < 0x110000
    ensures StartsValid(Utf8(r)) && Scalar(Utf8(r)) == r && Length(Utf8(r)[0]) == 4 == |Utf8(r)|
  {
    FourDigits(r);
  }

  /** Encoding a scalar value and decoding it gives it back. */
  lemma DecodedScalar(r: int)
    requires IsScalar(r)
    ensures StartsValid(Utf8(r)) && Scalar(Utf8(r)) == r && Length(Utf8(r)[0]) == |Utf8(r)|
  {
    hide Utf8, StartsValid, Scalar, Length;
    if r < 0x80 {
      OneByte(r);
    } else if r < 0x800 {
      TwoBytes(r);
    } else if r < 0x10000 {
      ThreeBytes(r);
    } else {
      FourBytes(r);
    }
  }

  lemma DecodedFront(r: int, rest: ByteString)
    requires IsScalar(r)
    ensures var s := Utf8(r) + rest;
            StartsValid(s) && Scalar(s) == r && Taken(s) == |Utf8(r)| == Length(s[0]) && s[Taken(s)..] == rest
  {
    hide Utf8, StartsValid, Scalar, Length;
    DecodedScalar(r);
    JoinStarts(Utf8(r), rest);
  }

  const DIGITS := "0123456789abcdef"

  /** Two lower-case hexadecimal digits. */
  function TwoDigits(v: int): ByteString
    requires 0 <= v < 256
  {
    [DIGITS[v / 16] as int as Byte, DIGITS[v % 16] as int as Byte]
  }

  lemma DigitsShown(v: int)
    requires 0 <= v < 256
    ensures [HexDigit(v / 16), HexDigit(v % 16)] == TwoDigits(v)
  {
  }

  /** What stands for a scalar value: itself, or backslash-u and four digits for a control other than
      line feed and tab. */
  function CharacterText(r: int): ByteString
    requires IsScalar(r)
  {
    if r == '\t' as int || r == '\n' as int || ' ' as int <= r <= '~' as int || r >= 0xa0 then Utf8(r)
    else Ascii("\\u00") + TwoDigits(r)
  }

  lemma ShownText(s: ByteString, r: int)
    requires IsScalar(r) && StartsValid(s) && Scalar(s) == r && s[..Length(s[0])] == Utf8(r)
    ensures Shown(s) == CharacterText(r)
  {
    hide Utf8, StartsValid, Scalar, Length, TwoDigits;
    if IsControl(r) {
      DigitsShown(r);
      EscapeStart();
      assert [0x5c as Byte, 0x75, 0x30, 0x30] + TwoDigits(r)
             == [0x5c, 0x75, 0x30, 0x30, HexDigit(r / 16), HexDigit(r % 16)];
    }
  }

  lemma EscapeStart()
    ensures Ascii("\\u00") == [0x5c, 0x75, 0x30, 0x30] && Ascii("\\x") == [0x5c, 0x78]
  {
  }

  lemma CharacterShown(r: int, rest: ByteString)
    requires IsScalar(r)
    ensures Sanitized(Utf8(r) + rest) == CharacterText(r) + Sanitized(rest)
  {
    hide Utf8, StartsValid, Scalar, Length, Shown;
    var s := Utf8(r) + rest;
    DecodedFront(r, rest);
    assert s[..|Utf8(r)|] == Utf8(r);
    ShownText(s, r);
    assert Sanitized(s) == Shown(s) + Sanitized(s[Taken(s)..]);
  }

  /** Some character stands whole at the front. */
  ghost predicate StartsCharacter(s: ByteString) { exists r, rest :: IsScalar(r) && s == Encoded(r) + rest }

  function Encoded(r: int): ByteString {
    if 0 <= r < 0x110000 then Utf8(r) else []
  }

  /** A byte at which no character stands is shown as backslash-x and two digits, alone. */
  lemma ByteShown(s: ByteString)
    requires s != [] && !StartsCharacter(s)
    ensures Sanitized(s) == Ascii("\\x") + TwoDigits(s[0] as int) + Sanitized(s[1..])
  {
    hide StartsValid, StartsCharacter, TwoDigits;
    NotValid(s);
    DigitsShown(s[0] as int);
    EscapeStart();
    assert [0x5c as Byte, 0x78] + TwoDigits(s[0] as int)
           == [0x5c, 0x78, HexDigit(s[0] as int / 16), HexDigit(s[0] as int % 16)];
  }

  lemma NotValid(s: ByteString)
    requires s != [] && !StartsCharacter(s)
    ensures !StartsValid(s)
  {
    if StartsValid(s) {
      ValidStarts(s);
    }
  }

  lemma ValidStarts(s: ByteString)
    requires StartsValid(s)
    ensures StartsCharacter(s)
  {
    hide Utf8, Scalar;
    Quoting.EncodedScalar(s);
    Quoting.ScalarRange(s);
    var rest := s[Length(s[0])..];
    assert s == Encoded(Scalar(s)) + rest;
  }

  // ---- what waits ----

  /** Bytes wait for more only as the beginning of a character. */
  lemma PendingCompletes(p: ByteString) returns (q: ByteString)
    requires p != [] && !FullRune(p)
    ensures q != [] && |p| <= 3 && StartsValid(p + q) && Length(p[0]) == |p + q|
  {
    var second: Byte := if p[0] == 0xe0 then 0xa0 else if p[0] == 0xf0 then 0x90 else 0x80;
    var n := Length(p[0]);
    if |p| == 1 {
      q := [second] + seq(n - 2, _ => 0x80 as Byte);
    } else {
      q := seq(n - |p|, _ => 0x80 as Byte);
    }
  }

  /** And nothing that a character could still begin with is judged before it is whole. */
  lemma FullUnlessBeginning(p: ByteString, r: int, q: ByteString)
    requires IsScalar(r) && p != [] && q != [] && p + q == Utf8(r)
    ensures !FullRune(p)
  {
    hide Utf8, Scalar;
    DecodedScalar(r);
    var s := Utf8(r);
    assert s[0] == p[0];
    assert |p| > 1 ==> s[1] == p[1];
    assert |p| > 2 ==> s[2] == p[2];
  }
}
