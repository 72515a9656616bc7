/** Go's quoted strings, written and read back: every byte string survives, whatever it holds. */
module GoQuote {
  import opened Bytes
  import opened JsonGrammar
  import opened Options
  import opened TerminalStream

  /** Which scalar values count as printable is the Unicode tables' business. */
  type Printable = nat -> bool

  // ---- UTF-8 written from its scalar value ----

  lemma ScalarRange(p: ByteString)
    requires StartsValid(p)
    ensures Scalar(p) < 0x110000 && !(0xd800 <= Scalar(p) < 0xe000)
    ensures Length(p[0]) == 1 ==> Scalar(p) < 0x80
    ensures Length(p[0]) == 2 ==> 0x80 <= Scalar(p) < 0x800
    ensures Length(p[0]) == 3 ==> 0x800 <= Scalar(p) < 0x10000
    ensures Length(p[0]) == 4 ==> 0x10000 <= Scalar(p)
  {
  }

  lemma Digits2(a: nat, b: nat)
    requires b < 0x40
    ensures (a * 0x40 + b) / 0x40 == a && (a * 0x40 + b) % 0x40 == b
  {
  }

  /** Decoding a valid sequence and encoding its value gives the sequence back. */
  lemma EncodedScalar(p: ByteString)
    requires StartsValid(p)
    ensures Scalar(p) < 0x110000 && Utf8(Scalar(p)) == p[..Length(p[0])]
  {
    ScalarRange(p);
    var n := Length(p[0]);
    if n == 2 {
      TwoBytes(p[0] as nat - 0xc0, p[1] as nat - 0x80);
    } else if n == 3 {
      ThreeBytes(p[0] as nat - 0xe0, p[1] as nat - 0x80, p[2] as nat - 0x80);
    } else if n == 4 {
      FourBytes(p[0] as nat - 0xf0, p[1] as nat - 0x80, p[2] as nat - 0x80, p[3] as nat - 0x80);
    }
  }

  lemma TwoBytes(a: nat, b: nat)
    requires a < 0x20 && b < 0x40
    ensures var r := a * 0x40 + b; r / 0x40 == a && r % 0x40 == b
  {
  }

  lemma ThreeBytes(a: nat, b: nat, c: nat)
    requires a < 0x10 && b < 0x40 && c < 0x40
    ensures var r := a * 0x1000 + b * 0x40 + c; r / 0x1000 == a && r / 0x40 % 0x40 == b && r % 0x40 == c
  {
  }

  lemma FourBytes(a: nat, b: nat, c: nat, d: nat)
    requires a < 8 && b < 0x40 && c < 0x40 && d < 0x40
    ensures var r := a * 0x40000 + b * 0x1000 + c * 0x40 + d;
            r / 0x40000 == a && r / 0x1000 % 0x40 == b && r / 0x40 % 0x40 == c && r % 0x40 == d
  {
    var r := a * 0x40000 + b * 0x1000 + c * 0x40 + d;
    var high := a * 0x1000 + b * 0x40 + c;
    Digits2(high, d);
    ThreeWide(a, b, c);
    assert r == high * 0x40 + d;
    assert r / 0x40 == high && r % 0x40 == d;
    assert r / 0x1000 == high / 0x40 && r / 0x40000 == high / 0x1000;
  }

  lemma ThreeWide(a: nat, b: nat, c: nat)
    requires a < 8 && b < 0x40 && c < 0x40
    ensures var r := a * 0x1000 + b * 0x40 + c; r / 0x1000 == a && r / 0x40 % 0x40 == b && r % 0x40 == c
  {
    ThreeBytes(a, b, c);
  }

  // ---- hexadecimal ----

  function Power16(k: nat): (n: nat)
    ensures n > 0
  {
    if k == 0 then 1 else 16 * Power16(k - 1)
  }

  /** Exactly k digits. */
  function HexText(v: nat, k: nat): (t: ByteString)
    ensures |t| == k
  {
    if k == 0 then [] else HexText(v / 16, k - 1) + [HexDigit(v % 16)]
  }

  /** The number spelled, or -1 when some byte is no digit. */
  function ReadHex(t: ByteString): int {
    if t == [] then 0
    else
      var high, low := ReadHex(t[..|t| - 1]), HexValue(t[|t| - 1]);
      if high < 0 || low < 0 then -1 else high * 16 + low
  }

  lemma {:induction false} HexRoundTrip(v: nat, k: nat)
    requires v < Power16(k)
    ensures ReadHex(HexText(v, k)) == v
    decreases k
  {
    if k > 0 {
      var t := HexText(v, k);
      assert t[..|t| - 1] == HexText(v / 16, k - 1);
      assert v / 16 < Power16(k - 1);
      HexRoundTrip(v / 16, k - 1);
    }
  }

  // ---- writing ----

  /** The one-letter escape of a control, if it has one. */
  function Letter(r: nat): Option<Byte> {
    if r == 7 then Some(0x61) else if r == 8 then Some(0x62) else if r == 0x0c then Some(0x66)
    else if r == 0x0a then Some(0x6e) else if r == 0x0d then Some(0x72) else if r == 9 then Some(0x74)
    else if r == 0x0b then Some(0x76) else None
  }

  /** What stands for the front of s. */
  function Piece(s: ByteString, printable: Printable): ByteString
    requires s != []
  {
    if !StartsValid(s) then [BACKSLASH, 0x78] + HexText(s[0] as nat, 2)
    else
      var r := Scalar(s);
      if r == 0x22 || r == 0x5c then [BACKSLASH, s[0]]
      else if printable(r) then s[..Length(s[0])]
      else if Letter(r).Some? then [BACKSLASH, Letter(r).value]
      else if r < 0x20 || r == 0x7f then [BACKSLASH, 0x78] + HexText(r, 2)
      else if r < 0x10000 then [BACKSLASH, 0x75] + HexText(r, 4)
      else [BACKSLASH, 0x55] + HexText(r, 8)
  }

  function QuoteBody(s: ByteString, printable: Printable): ByteString
    decreases |s|
  {
    if s == [] then [] else Piece(s, printable) + QuoteBody(s[Taken(s)..], printable)
  }

  function Quote(s: ByteString, printable: Printable): ByteString {
    [QUOTE] + QuoteBody(s, printable) + [QUOTE]
  }

  // ---- reading ----

  /** What the front of a quoted body stands for, and how many bytes spell it. */
  datatype Read = Read(bytes: ByteString, used: nat) | Wrong

  function HexRead(q: ByteString, k: nat, isByte: bool): Read {
    if |q| < 2 + k then Wrong
    else
      var v := ReadHex(q[2..2 + k]);
      if v < 0 then Wrong
      else if isByte then if v < 256 then Read([v as Byte], 2 + k) else Wrong
      else if v >= 0x110000 || 0xd800 <= v < 0xe000 then Wrong
      else Read(Utf8(v), 2 + k)
  }

  predicate IsOctal(b: Byte) { 0x30 <= b <= 0x37 }

  function ReadFront(q: ByteString): (r: Read)
    requires q != []
    ensures r.Read? ==> 1 <= r.used <= |q|
  {
    if q[0] == QUOTE || q[0] == 0x0a then Wrong
    else if q[0] != BACKSLASH then
      if StartsValid(q) then Read(q[..Length(q[0])], Length(q[0])) else Read(Utf8(0xfffd), 1)
    else if |q| < 2 then Wrong
    else if q[1] == 0x61 then Read([7], 2)
    else if q[1] == 0x62 then Read([8], 2)
    else if q[1] == 0x66 then Read([0x0c], 2)
    else if q[1] == 0x6e then Read([0x0a], 2)
    else if q[1] == 0x72 then Read([0x0d], 2)
    else if q[1] == 0x74 then Read([9], 2)
    else if q[1] == 0x76 then Read([0x0b], 2)
    else if q[1] == BACKSLASH || q[1] == QUOTE then Read([q[1]], 2)
    else if q[1] == 0x78 then HexRead(q, 2, true)
    else if q[1] == 0x75 then HexRead(q, 4, false)
    else if q[1] == 0x55 then HexRead(q, 8, false)
    else if |q| >= 4 && IsOctal(q[1]) && IsOctal(q[2]) && IsOctal(q[3]) then
      var v := (q[1] as int - 0x30) * 64 + (q[2] as int - 0x30) * 8 + (q[3] as int - 0x30);
      if v > 255 then Wrong else Read([v as Byte], 4)
    else Wrong
  }

  const OCTAL_DIGITS := "01234567"

  predicate OctalAt(b: Byte, k: int) { 0 <= k < 8 && b as int == OCTAL_DIGITS[k] as int }

  lemma OctalValue(b: Byte, k: int)
    requires OctalAt(b, k)
    ensures IsOctal(b) && b as int - 0x30 == k
  {
  }

  /** Three octal digits, which no quoting prints, read as the byte they name. */
  lemma OctalReads(q: ByteString, i: int, j: int, k: int)
    requires |q| >= 4 && q[0] == BACKSLASH && OctalAt(q[1], i) && OctalAt(q[2], j) && OctalAt(q[3], k)
    ensures ReadFront(q) == if 64 * i + 8 * j + k < 256 then Read([(64 * i + 8 * j + k) as Byte], 4) else Wrong
  {
    hide OctalAt, HexRead, Utf8;
    OctalValue(q[1], i);
    OctalValue(q[2], j);
    OctalValue(q[3], k);
  }

  /** A backslash and a digit read only as that. */
  lemma OctalOnly(q: ByteString)
    requires |q| >= 2 && q[0] == BACKSLASH && 0x30 <= q[1] <= 0x39 && ReadFront(q).Read?
    ensures |q| >= 4
    ensures (exists i :: OctalAt(q[1], i)) && (exists j :: OctalAt(q[2], j)) && (exists k :: OctalAt(q[3], k))
  {
    assert OctalAt(q[1], q[1] as int - 0x30) && OctalAt(q[2], q[2] as int - 0x30) && OctalAt(q[3], q[3] as int - 0x30);
  }

  /** The body through its closing quote, which must be the last byte. */
  function UnquoteBody(q: ByteString): Option<ByteString>
    decreases |q|
  {
    if q == [] then None
    else if q[0] == QUOTE then if |q| == 1 then Some([]) else None
    else
      var front := ReadFront(q);
      if front.Wrong? then None
      else
        var rest := UnquoteBody(q[front.used..]);
        if rest.None? then None else Some(front.bytes + rest.value)
  }

  function Unquote(q: ByteString): Option<ByteString> {
    if |q| < 2 || q[0] != QUOTE then None else UnquoteBody(q[1..])
  }

  // ---- each piece reads back as what it stands for ----

  lemma HexReads(v: nat, k: nat, letter: Byte, isByte: bool, rest: ByteString)
    requires v < Power16(k) && v < 0x110000
    ensures HexRead([BACKSLASH, letter] + HexText(v, k) + rest, k, isByte) ==
            if isByte then if v < 256 then Read([v as Byte], 2 + k) else Wrong
            else if 0xd800 <= v < 0xe000 then Wrong else Read(Utf8(v), 2 + k)
  {
    HexRoundTrip(v, k);
    var q := [BACKSLASH, letter] + HexText(v, k) + rest;
    assert q[2..2 + k] == HexText(v, k);
  }

  lemma Powers()
    ensures Power16(2) == 256 && Power16(4) == 0x10000 && Power16(8) == 0x100000000
  {
    assert Power16(1) == 16;
    assert Power16(3) == 16 * Power16(2);
    assert Power16(5) == 16 * Power16(4);
    assert Power16(6) == 16 * Power16(5);
    assert Power16(7) == 16 * Power16(6);
  }

  lemma ByteReads(v: nat, rest: ByteString)
    requires v < 256
    ensures ReadFront([BACKSLASH, 0x78] + HexText(v, 2) + rest) == Read([v as Byte], 4)
  {
    Powers();
    HexReads(v, 2, 0x78, true, rest);
  }

  lemma ShortReads(v: nat, rest: ByteString)
    requires v < 0x10000 && !(0xd800 <= v < 0xe000)
    ensures ReadFront([BACKSLASH, 0x75] + HexText(v, 4) + rest) == Read(Utf8(v), 6)
  {
    Powers();
    HexReads(v, 4, 0x75, false, rest);
  }

  lemma LongReads(v: nat, rest: ByteString)
    requires 0x10000 <= v < 0x110000
    ensures ReadFront([BACKSLASH, 0x55] + HexText(v, 8) + rest) == Read(Utf8(v), 10)
  {
    Powers();
    HexReads(v, 8, 0x55, false, rest);
  }

  lemma LetterReads(r: nat, rest: ByteString)
    requires Letter(r).Some?
    ensures ReadFront([BACKSLASH, Letter(r).value] + rest) == Read([r as Byte], 2)
  {
  }

  lemma RawReads(s: ByteString, rest: ByteString)
    requires StartsValid(s) && Scalar(s) != 0x22 && Scalar(s) != 0x5c && Scalar(s) != 0x0a
    ensures ReadFront(s[..Length(s[0])] + rest) == Read(s[..Length(s[0])], Length(s[0]))
  {
    var n := Length(s[0]);
    var front := s[..n];
    assert front[0] == s[0];
    assert FullRune(front) && StartsValid(front);
    JudgedStays(front, rest);
    assert (front + rest)[..n] == front;
  }

  /** The line feed is not printable, so it is never left raw. */
  predicate Sensible(printable: Printable) { !printable(0x0a) }

  lemma PieceReads(s: ByteString, printable: Printable, rest: ByteString)
    requires s != [] && Sensible(printable)
    ensures ReadFront(Piece(s, printable) + rest) == Read(s[..Taken(s)], |Piece(s, printable)|)
  {
    if !StartsValid(s) {
      ByteReads(s[0] as nat, rest);
    } else {
      ScalarRange(s);
      EncodedScalar(s);
      var r := Scalar(s);
      if r == 0x22 || r == 0x5c {
        assert s[..1] == [s[0]];
      } else if printable(r) {
        RawReads(s, rest);
      } else if Letter(r).Some? {
        LetterReads(r, rest);
        assert s[..1] == [r as Byte];
      } else if r < 0x20 || r == 0x7f {
        ByteReads(r, rest);
        assert s[..1] == [r as Byte];
      } else if r < 0x10000 {
        ShortReads(r, rest);
      } else {
        LongReads(r, rest);
      }
    }
  }

  lemma {:induction false} BodyReads(s: ByteString, printable: Printable)
    requires Sensible(printable)
    ensures UnquoteBody(QuoteBody(s, printable) + [QUOTE]) == Some(s)
    decreases |s|
  {
    if s == [] {
      assert QuoteBody(s, printable) + [QUOTE] == [QUOTE];
    } else {
      BodyReads(s[Taken(s)..], printable);
      BodyStep(s, printable, QuoteBody(s[Taken(s)..], printable) + [QUOTE]);
    }
  }

  /** One piece more in front of what is read. */
  lemma BodyStep(s: ByteString, printable: Printable, rest: ByteString)
    requires s != [] && Sensible(printable) && rest == QuoteBody(s[Taken(s)..], printable) + [QUOTE]
    requires UnquoteBody(rest) == Some(s[Taken(s)..])
    ensures UnquoteBody(QuoteBody(s, printable) + [QUOTE]) == Some(s)
  {
    hide Piece, UnquoteBody, Taken, ReadFront;
    var piece := Piece(s, printable);
    PieceReads(s, printable, rest);
    assert QuoteBody(s, printable) + [QUOTE] == piece + rest;
    assert (piece + rest)[|piece|..] == rest;
    PieceStarts(s, printable);
    assert (piece + rest)[0] == piece[0];
    UnquoteStep(piece + rest, s[..Taken(s)], |piece|, s[Taken(s)..]);
    assert s[..Taken(s)] + s[Taken(s)..] == s;
  }

  lemma PieceStarts(s: ByteString, printable: Printable)
    requires s != []
    ensures Piece(s, printable) != [] && Piece(s, printable)[0] != QUOTE
  {
  }

  lemma UnquoteStep(q: ByteString, bytes: ByteString, used: nat, left: ByteString)
    requires q != [] && q[0] != QUOTE && ReadFront(q) == Read(bytes, used) && UnquoteBody(q[used..]) == Some(left)
    ensures UnquoteBody(q) == Some(bytes + left)
  {
  }

  /** Every byte string is read back from its quoted form. */
  lemma QuoteRoundTrip(s: ByteString, printable: Printable)
    requires Sensible(printable)
    ensures Unquote(Quote(s, printable)) == Some(s)
  {
    BodyReads(s, printable);
    assert Quote(s, printable)[1..] == QuoteBody(s, printable) + [QUOTE];
  }
}
