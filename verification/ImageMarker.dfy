/** The text record of a generated image: printed by the server, recognised again when a client
    replays the conversation. */
module ImageMarker {
  import opened Bytes
  import opened GoQuote
  import opened JsonGrammar
  import opened Options
  import Geometry = OutputGeometry
  import Numbers = JsonPointers
  import T = TerminalStream

  const PREFIX := Ascii("[Hollis generated an image for ")
  const REPLAY_SUFFIX :=
    Ascii("). The server does not retain image pixels; replay the complete assistant image message to supply a later "
          + "reference. Pixel editing is not guaranteed.]")
  const REFERENCE_SUFFIX :=
    Ascii("). A supplied reference image was sent to the configured Shortcut; Hollis does not guarantee that a "
          + "backend reused or edited its pixels.]")
  const OLD_SUFFIX :=
    Ascii("). The image pixels are included in this response but are not retained or reused; replay this text to "
          + "preserve the generation record. A later request uses text context to generate a new image, not pixel "
          + "editing.]")

  // ---- what is printed ----

  datatype Style = Any | Animation | Genmoji | Illustration | Sketch | ChatGPT

  /** The output transform as the client spelled it: two runs of decimal digits. */
  datatype Processing =
    | Untouched
    | ToAspect(fit: Geometry.Fit, width: ByteString, height: ByteString)
    | ToSize(fit: Geometry.Fit, width: ByteString, height: ByteString)

  datatype Image = Image(style: Style, nativeWidth: nat, nativeHeight: nat, width: nat, height: nat,
                         processing: Processing, digest: ByteString)

  function StyleText(style: Style): ByteString {
    match style
    case Any => Ascii("any")
    case Animation => Ascii("animation")
    case Genmoji => Ascii("genmoji")
    case Illustration => Ascii("illustration")
    case Sketch => Ascii("sketch")
    case ChatGPT => Ascii("chatgpt")
  }

  function FitText(fit: Geometry.Fit): ByteString { if fit.Crop? then Ascii("crop") else Ascii("pad") }

  function ProcessingText(p: Processing): ByteString {
    match p
    case Untouched => Ascii("no output transform")
    case ToAspect(fit, w, h) =>
      Ascii("local ") + (FitText(fit) + (Ascii(" fit to aspect ratio ") + (w + (Ascii(":") + h))))
    case ToSize(fit, w, h) => Ascii("local ") + (FitText(fit) + (Ascii(" fit to size ") + (w + (Ascii("x") + h))))
  }

  function PairText(w: ByteString, h: ByteString, after: ByteString): ByteString { w + (Ascii("x") + (h + after)) }

  function DetailsText(image: Image): ByteString {
    Ascii(" with style ") + (StyleText(image.style) + (Ascii(" (native ")
    + PairText(Numbers.Digits(image.nativeWidth), Numbers.Digits(image.nativeHeight), Ascii(", final ")
    + PairText(Numbers.Digits(image.width), Numbers.Digits(image.height), Ascii(", ")
    + (ProcessingText(image.processing) + (Ascii(", SHA-256 ") + image.digest))))))
  }

  function Marker(image: Image, request: ByteString, referenceSent: bool, printable: Printable): ByteString {
    PREFIX + (Quote(request, printable) + DetailsText(image)) + SuffixFor(referenceSent)
  }

  function SuffixFor(referenceSent: bool): ByteString {
    if referenceSent then REFERENCE_SUFFIX else REPLAY_SUFFIX
  }

  // ---- what the server prints it for ----

  predicate LowerHex(b: Byte) { IsDigit(b) || 0x61 <= b <= 0x66 }

  predicate DigitRun(t: ByteString) { t != [] && forall i :: 0 <= i < |t| ==> IsDigit(t[i]) }

  predicate DigestOk(t: ByteString) { |t| == 64 && forall i :: 0 <= i < |t| ==> LowerHex(t[i]) }

  /** A verified image, and an output transform the option checks let through. */
  predicate Produced(image: Image) {
    && image.nativeWidth > 0 && image.nativeHeight > 0 && image.width > 0 && image.height > 0
    && (!image.processing.Untouched? ==> DigitRun(image.processing.width) && DigitRun(image.processing.height))
    && DigestOk(image.digest)
  }

  /** No leading zero: the option checks do not ask for this, the record's pattern does. */
  predicate PlainNumbers(p: Processing)
    requires !p.Untouched? ==> p.width != [] && p.height != []
  {
    p.Untouched? || (p.width[0] != 0x30 && p.height[0] != 0x30)
  }

  // ---- the record's pattern ----

  // No alternative of the pattern is a prefix of another and every run of digits ends at a byte
  // that is no digit, so taking the longest run and the first alternative misses no match.

  function Eat(from: Option<ByteString>, text: ByteString): Option<ByteString> {
    if from.Some? && text <= from.value then Some(from.value[|text|..]) else None
  }

  function DropDigits(t: ByteString): ByteString {
    if t != [] && IsDigit(t[0]) then DropDigits(t[1..]) else t
  }

  function EatNumber(from: Option<ByteString>): Option<ByteString> {
    if from.Some? && from.value != [] && IsDigit(from.value[0]) && from.value[0] != 0x30
    then Some(DropDigits(from.value[1..])) else None
  }

  function EatStyle(from: Option<ByteString>): Option<ByteString> {
    if Eat(from, StyleText(Any)).Some? then Eat(from, StyleText(Any))
    else if Eat(from, StyleText(Animation)).Some? then Eat(from, StyleText(Animation))
    else if Eat(from, StyleText(Genmoji)).Some? then Eat(from, StyleText(Genmoji))
    else if Eat(from, StyleText(Illustration)).Some? then Eat(from, StyleText(Illustration))
    else if Eat(from, StyleText(Sketch)).Some? then Eat(from, StyleText(Sketch))
    else Eat(from, StyleText(ChatGPT))
  }

  function EatPair(from: Option<ByteString>, between: ByteString): Option<ByteString> {
    EatNumber(Eat(EatNumber(from), between))
  }

  function EatFit(from: Option<ByteString>): Option<ByteString> {
    if Eat(from, FitText(Geometry.Crop)).Some? then Eat(from, FitText(Geometry.Crop))
    else Eat(from, FitText(Geometry.Pad))
  }

  function EatProcessing(from: Option<ByteString>): Option<ByteString> {
    if Eat(from, Ascii("no output transform")).Some? then Eat(from, Ascii("no output transform"))
    else EatTransform(EatFit(Eat(from, Ascii("local "))))
  }

  function EatTransform(from: Option<ByteString>): Option<ByteString> {
    if Eat(from, Ascii(" fit to aspect ratio ")).Some?
    then EatPair(Eat(from, Ascii(" fit to aspect ratio ")), Ascii(":"))
    else EatPair(Eat(from, Ascii(" fit to size ")), Ascii("x"))
  }

  function EatHead(text: ByteString): Option<ByteString> {
    var style := EatStyle(Eat(Some(text), Ascii(" with style ")));
    var native := EatPair(Eat(style, Ascii(" (native ")), Ascii("x"));
    EatPair(Eat(native, Ascii(", final ")), Ascii("x"))
  }

  predicate Matches(text: ByteString) {
    var processed := EatProcessing(Eat(EatHead(text), Ascii(", ")));
    var digest := Eat(processed, Ascii(", SHA-256 "));
    digest.Some? && DigestOk(digest.value)
  }

  // ---- recognising ----

  /** How many bytes the white space at the front takes, as Unicode has it; 0 when there is none. */
  function LeadingSpace(s: ByteString): (n: nat)
    ensures n <= |s|
  {
    if s == [] then 0
    else if s[0] == 0x20 || 0x09 <= s[0] <= 0x0d then 1
    else if |s| >= 2 && WideSpace(s[..2]) then 2
    else if |s| >= 3 && WideSpace(s[..3]) then 3
    else 0
  }

  function TrailingSpace(s: ByteString): (n: nat)
    ensures n <= |s|
  {
    if s == [] then 0
    else if s[|s| - 1] == 0x20 || 0x09 <= s[|s| - 1] <= 0x0d then 1
    else if |s| >= 2 && WideSpace(s[|s| - 2..]) then 2
    else if |s| >= 3 && WideSpace(s[|s| - 3..]) then 3
    else 0
  }

  predicate WideSpace(t: ByteString) {
    || t == [0xc2, 0x85] || t == [0xc2, 0xa0] || t == [0xe1, 0x9a, 0x80]
    || (|t| == 3 && t[0] == 0xe2 && t[1] == 0x80
        && (0x80 <= t[2] <= 0x8a || t[2] == 0xa8 || t[2] == 0xa9 || t[2] == 0xaf))
    || t == [0xe2, 0x81, 0x9f] || t == [0xe3, 0x80, 0x80]
  }

  function TrimmedLeft(s: ByteString): ByteString
    decreases |s|
  {
    if LeadingSpace(s) == 0 then s else TrimmedLeft(s[LeadingSpace(s)..])
  }

  function TrimmedRight(s: ByteString): ByteString
    decreases |s|
  {
    if TrailingSpace(s) == 0 then s else TrimmedRight(s[..|s| - TrailingSpace(s)])
  }

  function Trimmed(s: ByteString): ByteString { TrimmedRight(TrimmedLeft(s)) }

  predicate EndsWith(s: ByteString, t: ByteString) { |t| <= |s| && s[|s| - |t|..] == t }

  function Past(end: int, n: nat): int { if end < 0 then -1 else end + n }

  /** From inside a quoted string: how many bytes run through its closing quote, or -1. */
  function EndIn(q: ByteString): (n: int)
    ensures -1 <= n <= |q| && n != 0
    ensures n > 0 ==> q[n - 1] == QUOTE
    decreases |q|
  {
    if q == [] then -1
    else if q[0] == QUOTE then 1
    else if q[0] == BACKSLASH then if |q| < 2 then -1 else Past(EndIn(q[2..]), 2)
    else Past(EndIn(q[1..]), 1)
  }

  function QuotedEnd(value: ByteString): (n: int)
    ensures -1 <= n <= |value|
  {
    if value == [] || value[0] != QUOTE then -1 else Past(EndIn(value[1..]), 1)
  }

  /** What the loop over the value will answer from byte i on. */
  function EndFrom(value: ByteString, i: nat, escaped: bool): int
    requires i <= |value|
  {
    if !escaped then Past(EndIn(value[i..]), i)
    else if i == |value| then -1
    else Past(EndIn(value[i + 1..]), i + 1)
  }

  lemma EndStep(value: ByteString, i: nat)
    requires i < |value|
    ensures EndFrom(value, i, true) == EndFrom(value, i + 1, false)
    ensures EndFrom(value, i, false) ==
            if value[i] == QUOTE then i + 1 else EndFrom(value, i + 1, value[i] == BACKSLASH)
  {
    var q := value[i..];
    assert q[0] == value[i];
    assert q[1..] == value[i + 1..];
    if i + 2 <= |value| {
      assert q[2..] == value[i + 2..];
      assert value[i + 1..][1..] == value[i + 2..];
    }
  }

  method QuotedStringEnd(value: ByteString) returns (end: int)
    ensures end == QuotedEnd(value)
  {
    if |value| == 0 || value[0] != QUOTE { return -1; }
    var escaped := false;
    var i := 1;
    while i < |value|
      invariant 1 <= i <= |value|
      invariant QuotedEnd(value) == EndFrom(value, i, escaped)
    {
      EndStep(value, i);
      if escaped {
        escaped := false;
      } else if value[i] == BACKSLASH {
        escaped := true;
      } else if value[i] == QUOTE {
        return i + 1;
      }
      i := i + 1;
    }
    end := -1;
  }

  function SuffixOf(content: ByteString): ByteString {
    if EndsWith(content, REFERENCE_SUFFIX) then REFERENCE_SUFFIX
    else if EndsWith(content, REPLAY_SUFFIX) then REPLAY_SUFFIX
    else OLD_SUFFIX
  }

  /** The quoted request and the details between prefix and suffix. */
  function RequestIn(body: ByteString): Option<ByteString> {
    var end := QuotedEnd(body);
    if end < 0 then None
    else
      var request := Unquote(body[..end]);
      if request.None? || !Matches(body[end..]) then None else request
  }

  /** What stands between prefix and suffix, read. */
  function RequestBetween(text: ByteString, prefix: ByteString, suffix: ByteString): Option<ByteString> {
    if !(prefix <= text) || !EndsWith(text, suffix) then None
    else
      var left := text[|prefix|..];
      RequestIn(if EndsWith(left, suffix) then left[..|left| - |suffix|] else left)
  }

  function MarkerRequest(content: ByteString): Option<ByteString> {
    var text := Trimmed(content);
    RequestBetween(text, PREFIX, SuffixOf(text))
  }

  // ---- the end of the quoted request is found ----

  predicate Plain(b: Byte) { b != QUOTE && b != BACKSLASH }

  lemma {:induction false} PlainSkipped(t: ByteString, rest: ByteString)
    requires forall i :: 0 <= i < |t| ==> Plain(t[i])
    ensures EndIn(t + rest) == Past(EndIn(rest), |t|)
  {
    if t == [] {
      assert t + rest == rest;
    } else {
      PlainSkipped(t[1..], rest);
      assert (t + rest)[1..] == t[1..] + rest;
    }
  }

  lemma EscapeSkipped(letter: Byte, t: ByteString, rest: ByteString)
    requires forall i :: 0 <= i < |t| ==> Plain(t[i])
    ensures EndIn([BACKSLASH, letter] + t + rest) == Past(EndIn(rest), 2 + |t|)
  {
    var q := [BACKSLASH, letter] + t + rest;
    assert q[2..] == t + rest;
    PlainSkipped(t, rest);
  }

  lemma {:induction false} HexPlain(v: nat, k: nat)
    ensures forall i :: 0 <= i < k ==> Plain(HexText(v, k)[i])
    decreases k
  {
    if k > 0 { HexPlain(v / 16, k - 1); }
  }

  lemma PieceSkipped(s: ByteString, printable: Printable, rest: ByteString)
    requires s != []
    ensures EndIn(Piece(s, printable) + rest) == Past(EndIn(rest), |Piece(s, printable)|)
  {
    if !T.StartsValid(s) {
      HexPlain(s[0] as nat, 2);
      EscapeSkipped(0x78, HexText(s[0] as nat, 2), rest);
    } else {
      var r := T.Scalar(s);
      ScalarRange(s);
      if r == 0x22 || r == 0x5c {
        EscapeSkipped(s[0], [], rest);
        assert [BACKSLASH, s[0]] + [] + rest == [BACKSLASH, s[0]] + rest;
      } else if printable(r) {
        PlainSkipped(s[..T.Length(s[0])], rest);
      } else if Letter(r).Some? {
        EscapeSkipped(Letter(r).value, [], rest);
        assert [BACKSLASH, Letter(r).value] + [] + rest == [BACKSLASH, Letter(r).value] + rest;
      } else if r < 0x20 || r == 0x7f {
        HexPlain(r, 2);
        EscapeSkipped(0x78, HexText(r, 2), rest);
      } else if r < 0x10000 {
        HexPlain(r, 4);
        EscapeSkipped(0x75, HexText(r, 4), rest);
      } else {
        HexPlain(r, 8);
        EscapeSkipped(0x55, HexText(r, 8), rest);
      }
    }
  }

  lemma {:induction false} BodySkipped(s: ByteString, printable: Printable, rest: ByteString)
    ensures EndIn(QuoteBody(s, printable) + rest) == Past(EndIn(rest), |QuoteBody(s, printable)|)
    decreases |s|
  {
    if s == [] {
      assert QuoteBody(s, printable) + rest == rest;
    } else {
      var piece, left := Piece(s, printable), s[T.Taken(s)..];
      BodySkipped(left, printable, rest);
      PieceSkipped(s, printable, QuoteBody(left, printable) + rest);
      assert QuoteBody(s, printable) + rest == piece + (QuoteBody(left, printable) + rest);
    }
  }

  /** Whatever the request and the text after it hold, the quoted request ends where it was closed. */
  lemma QuoteEndFound(s: ByteString, printable: Printable, rest: ByteString)
    ensures QuotedEnd(Quote(s, printable) + rest) == |Quote(s, printable)|
  {
    hide QuoteBody;
    var value := Quote(s, printable) + rest;
    BodySkipped(s, printable, [QUOTE] + rest);
    assert value[1..] == QuoteBody(s, printable) + ([QUOTE] + rest);
    assert EndIn([QUOTE] + rest) == 1;
  }
}
