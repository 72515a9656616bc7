/** The pattern of the image record's details as the source writes it, token by token, and the white
    space trimmed around a record as code points. */
module MarkerPattern {
  import opened Bytes
  import opened GoQuote
  import opened ImageMarker
  import opened JsonGrammar
  import opened MarkerRoundTrip
  import opened Options
  import Geometry = OutputGeometry
  import Numbers = JsonPointers

  // ---- the pattern ----

  datatype Token = Text(s: string) | OneOf(choices: seq<string>) | Numeral | HexDigits(n: nat)

  datatype Pattern = End | Then(token: Token, rest: Pattern)

  predicate In(token: Token, t: ByteString) {
    match token
    case Text(s) => t == Ascii(s)
    case OneOf(choices) => exists i :: 0 <= i < |choices| && t == Ascii(choices[i])
    case Numeral => t != [] && 0x31 <= t[0] <= 0x39 && forall i :: 0 < i < |t| ==> 0x30 <= t[i] <= 0x39
    case HexDigits(n) => |t| == n && forall i :: 0 <= i < n ==> 0x30 <= t[i] <= 0x39 || 0x61 <= t[i] <= 0x66
  }

  /** The text is made of the tokens, one after another. */
  ghost predicate Spelled(p: Pattern, t: ByteString) {
    match p
    case End => t == []
    case Then(token, rest) => exists a, b :: t == a + b && In(token, a) && Spelled(rest, b)
  }

  const STYLES := ["any", "animation", "genmoji", "illustration", "sketch", "chatgpt"]
  const FITS := ["crop", "pad"]

  const LAST := Then(Text(", SHA-256 "), Then(HexDigits(64), End))
  const UNTOUCHED := Then(Text("no output transform"), LAST)
  const ASPECT :=
    Then(Text("local "), Then(OneOf(FITS), Then(Text(" fit to aspect ratio "),
         Then(Numeral, Then(Text(":"), Then(Numeral, LAST))))))
  const SIZE :=
    Then(Text("local "), Then(OneOf(FITS), Then(Text(" fit to size "),
         Then(Numeral, Then(Text("x"), Then(Numeral, LAST))))))

  function Details(rest: Pattern): Pattern {
    Then(Text(" with style "), Then(OneOf(STYLES), Then(Text(" (native "),
         Then(Numeral, Then(Text("x"), Then(Numeral, Then(Text(", final "),
         Then(Numeral, Then(Text("x"), Then(Numeral, Then(Text(", "), rest)))))))))))
  }

  lemma Step(token: Token, rest: Pattern, a: ByteString, b: ByteString)
    requires In(token, a) && Spelled(rest, b)
    ensures Spelled(Then(token, rest), a + b)
  {
  }

  lemma Front(token: Token, rest: Pattern, t: ByteString) returns (a: ByteString, b: ByteString)
    requires Spelled(Then(token, rest), t)
    ensures t == a + b && In(token, a) && Spelled(rest, b)
  {
    a, b :| t == a + b && In(token, a) && Spelled(rest, b);
  }

  lemma FrontText(s: string, rest: Pattern, t: ByteString) returns (b: ByteString)
    requires Spelled(Then(Text(s), rest), t)
    ensures t == Ascii(s) + b && Spelled(rest, b)
  {
    var a;
    a, b := Front(Text(s), rest, t);
  }

  lemma StepText(s: string, rest: Pattern, b: ByteString)
    requires Spelled(rest, b)
    ensures Spelled(Then(Text(s), rest), Ascii(s) + b)
  {
    Step(Text(s), rest, Ascii(s), b);
  }

  lemma NumberIsRun(t: ByteString)
    ensures In(Numeral, t) <==> DigitRun(t) && t[0] != 0x30
  {
  }

  /** Two numbers with a text between them. */
  lemma PairSpelled(w: ByteString, between: string, h: ByteString, rest: Pattern, b: ByteString)
    requires DigitRun(w) && w[0] != 0x30 && DigitRun(h) && h[0] != 0x30 && Spelled(rest, b)
    ensures Spelled(Then(Numeral, Then(Text(between), Then(Numeral, rest))), w + (Ascii(between) + (h + b)))
  {
    hide Spelled, In;
    NumberIsRun(w);
    NumberIsRun(h);
    Step(Numeral, rest, h, b);
    StepText(between, Then(Numeral, rest), h + b);
    Step(Numeral, Then(Text(between), Then(Numeral, rest)), w, Ascii(between) + (h + b));
  }

  lemma PairFront(between: string, rest: Pattern, t: ByteString)
    returns (w: ByteString, h: ByteString, b: ByteString)
    requires Spelled(Then(Numeral, Then(Text(between), Then(Numeral, rest))), t)
    ensures DigitRun(w) && w[0] != 0x30 && DigitRun(h) && h[0] != 0x30
    ensures t == w + (Ascii(between) + (h + b)) && Spelled(rest, b)
  {
    hide Spelled, In;
    var c;
    w, c := Front(Numeral, Then(Text(between), Then(Numeral, rest)), t);
    var d := FrontText(between, Then(Numeral, rest), c);
    h, b := Front(Numeral, rest, d);
    NumberIsRun(w);
    NumberIsRun(h);
  }

  lemma SizeSpelled(w: nat, h: nat, rest: Pattern, b: ByteString)
    requires w > 0 && h > 0 && Spelled(rest, b)
    ensures Spelled(Then(Numeral, Then(Text("x"), Then(Numeral, rest))),
                    PairText(Numbers.Digits(w), Numbers.Digits(h), b))
  {
    hide Spelled;
    DigitsPlain(w);
    DigitsPlain(h);
    PairSpelled(Numbers.Digits(w), "x", Numbers.Digits(h), rest, b);
  }

  lemma SizeFront(rest: Pattern, t: ByteString) returns (w: nat, h: nat, b: ByteString)
    requires Spelled(Then(Numeral, Then(Text("x"), Then(Numeral, rest))), t)
    ensures w > 0 && h > 0 && t == PairText(Numbers.Digits(w), Numbers.Digits(h), b) && Spelled(rest, b)
  {
    hide Spelled;
    var width, height;
    width, height, b := PairFront("x", rest, t);
    w := DigitsOf(width);
    h := DigitsOf(height);
  }

  lemma StyleSpelled(style: Style)
    ensures In(OneOf(STYLES), StyleText(style))
  {
    var i := match style case Any => 0 case Animation => 1 case Genmoji => 2 case Illustration => 3
                         case Sketch => 4 case ChatGPT => 5;
    assert StyleText(style) == Ascii(STYLES[i]);
  }

  lemma StyleOf(t: ByteString) returns (style: Style)
    requires In(OneOf(STYLES), t)
    ensures t == StyleText(style)
  {
    var i :| 0 <= i < |STYLES| && t == Ascii(STYLES[i]);
    style := if i == 0 then Any else if i == 1 then Animation else if i == 2 then Genmoji
             else if i == 3 then Illustration else if i == 4 then Sketch else ChatGPT;
  }

  lemma FitSpelled(fit: Geometry.Fit)
    ensures In(OneOf(FITS), FitText(fit))
  {
    assert FitText(fit) == Ascii(FITS[if fit.Crop? then 0 else 1]);
  }

  lemma FitOf(t: ByteString) returns (fit: Geometry.Fit)
    requires In(OneOf(FITS), t)
    ensures t == FitText(fit)
  {
    var i :| 0 <= i < |FITS| && t == Ascii(FITS[i]);
    fit := if i == 0 then Geometry.Crop else Geometry.Pad;
  }

  lemma LastSpelled(digest: ByteString)
    requires DigestOk(digest)
    ensures Spelled(LAST, Ascii(", SHA-256 ") + digest)
  {
    assert digest == digest + [];
    Step(HexDigits(64), End, digest, []);
    StepText(", SHA-256 ", Then(HexDigits(64), End), digest);
  }

  lemma LastFront(t: ByteString) returns (digest: ByteString)
    requires Spelled(LAST, t)
    ensures DigestOk(digest) && t == Ascii(", SHA-256 ") + digest
  {
    var b := FrontText(", SHA-256 ", Then(HexDigits(64), End), t);
    var rest;
    digest, rest := Front(HexDigits(64), End, b);
    assert digest + rest == digest;
  }

  function Target(between: string): Pattern {
    Then(Numeral, Then(Text(between), Then(Numeral, LAST)))
  }

  function Transform(name: string, between: string): Pattern {
    Then(Text("local "), Then(OneOf(FITS), Then(Text(name), Target(between))))
  }

  /** What follows the sizes, for each kind of output transform. */
  function ForProcessing(p: Processing): Pattern {
    match p
    case Untouched => UNTOUCHED
    case ToAspect(_, _, _) => ASPECT
    case ToSize(_, _, _) => SIZE
  }

  lemma TransformSpelled(fit: Geometry.Fit, name: string, w: ByteString, between: string, h: ByteString,
                         last: ByteString)
    requires DigitRun(w) && w[0] != 0x30 && DigitRun(h) && h[0] != 0x30 && Spelled(LAST, last)
    ensures Spelled(Transform(name, between),
                    Ascii("local ") + (FitText(fit) + (Ascii(name) + (w + (Ascii(between) + (h + last))))))
  {
    hide Spelled, In;
    PairSpelled(w, between, h, LAST, last);
    var target := w + (Ascii(between) + (h + last));
    StepText(name, Target(between), target);
    FitSpelled(fit);
    Step(OneOf(FITS), Then(Text(name), Target(between)), FitText(fit), Ascii(name) + target);
    StepText("local ", Then(OneOf(FITS), Then(Text(name), Target(between))), FitText(fit) + (Ascii(name) + target));
  }

  lemma TransformFront(name: string, between: string, t: ByteString)
    returns (fit: Geometry.Fit, w: ByteString, h: ByteString, last: ByteString)
    requires Spelled(Transform(name, between), t)
    ensures DigitRun(w) && w[0] != 0x30 && DigitRun(h) && h[0] != 0x30 && Spelled(LAST, last)
    ensures t == Ascii("local ") + (FitText(fit) + (Ascii(name) + (w + (Ascii(between) + (h + last)))))
  {
    hide Spelled, In;
    var a := FrontText("local ", Then(OneOf(FITS), Then(Text(name), Target(between))), t);
    var f, b := Front(OneOf(FITS), Then(Text(name), Target(between)), a);
    fit := FitOf(f);
    var c := FrontText(name, Target(between), b);
    w, h, last := PairFront(between, LAST, c);
  }

  lemma Regrouped(a: ByteString, b: ByteString, c: ByteString, w: ByteString, d: ByteString, h: ByteString,
                  last: ByteString)
    ensures (a + (b + (c + (w + (d + h))))) + last == a + (b + (c + (w + (d + (h + last)))))
  {
    assert (w + (d + h)) + last == w + (d + (h + last));
    assert (c + (w + (d + h))) + last == c + ((w + (d + h)) + last);
  }

  lemma ProcessingSpelled(p: Processing, last: ByteString)
    requires !p.Untouched? ==> DigitRun(p.width) && DigitRun(p.height)
    requires PlainNumbers(p) && Spelled(LAST, last)
    ensures Spelled(ForProcessing(p), ProcessingText(p) + last)
  {
    hide Spelled, In, DigitRun;
    match p
    case Untouched => StepText("no output transform", LAST, last);
    case ToAspect(fit, w, h) =>
      TransformSpelled(fit, " fit to aspect ratio ", w, ":", h, last);
      Regrouped(Ascii("local "), FitText(fit), Ascii(" fit to aspect ratio "), w, Ascii(":"), h, last);
    case ToSize(fit, w, h) =>
      TransformSpelled(fit, " fit to size ", w, "x", h, last);
      Regrouped(Ascii("local "), FitText(fit), Ascii(" fit to size "), w, Ascii("x"), h, last);
  }

  lemma ProcessingFront(kind: Processing, t: ByteString) returns (p: Processing, last: ByteString)
    requires Spelled(ForProcessing(kind), t)
    ensures !p.Untouched? ==> DigitRun(p.width) && DigitRun(p.height)
    ensures PlainNumbers(p) && Spelled(LAST, last) && t == ProcessingText(p) + last
  {
    hide Spelled, In, DigitRun;
    match kind
    case Untouched =>
      last := FrontText("no output transform", LAST, t);
      p := Untouched;
    case ToAspect(_, _, _) =>
      var fit, w, h;
      fit, w, h, last := TransformFront(" fit to aspect ratio ", ":", t);
      p := ToAspect(fit, w, h);
      Regrouped(Ascii("local "), FitText(fit), Ascii(" fit to aspect ratio "), w, Ascii(":"), h, last);
    case ToSize(_, _, _) =>
      var fit, w, h;
      fit, w, h, last := TransformFront(" fit to size ", "x", t);
      p := ToSize(fit, w, h);
      Regrouped(Ascii("local "), FitText(fit), Ascii(" fit to size "), w, Ascii("x"), h, last);
  }

  function AfterNative(rest: Pattern): Pattern {
    Then(Text(", final "), Then(Numeral, Then(Text("x"), Then(Numeral, Then(Text(", "), rest)))))
  }

  function AfterStyle(rest: Pattern): Pattern {
    Then(Text(" (native "), Then(Numeral, Then(Text("x"), Then(Numeral, AfterNative(rest)))))
  }

  lemma DetailsSpelled(image: Image)
    requires Produced(image) && PlainNumbers(image.processing)
    ensures Spelled(Details(ForProcessing(image.processing)), DetailsText(image))
  {
    hide Spelled, In, ForProcessing, PairText;
    var rest, last := ForProcessing(image.processing), Ascii(", SHA-256 ") + image.digest;
    LastSpelled(image.digest);
    ProcessingSpelled(image.processing, last);
    var processed := ProcessingText(image.processing) + last;
    StepText(", ", rest, processed);
    SizeSpelled(image.width, image.height, Then(Text(", "), rest), Ascii(", ") + processed);
    var final := PairText(Numbers.Digits(image.width), Numbers.Digits(image.height), Ascii(", ") + processed);
    StepText(", final ", Then(Numeral, Then(Text("x"), Then(Numeral, Then(Text(", "), rest)))), final);
    SizeSpelled(image.nativeWidth, image.nativeHeight, AfterNative(rest), Ascii(", final ") + final);
    var native := PairText(Numbers.Digits(image.nativeWidth), Numbers.Digits(image.nativeHeight),
                           Ascii(", final ") + final);
    DetailsStart(image.style, rest, native);
    DetailsTextIs(image, processed, final, native);
  }

  lemma DetailsStart(style: Style, rest: Pattern, native: ByteString)
    requires Spelled(Then(Numeral, Then(Text("x"), Then(Numeral, AfterNative(rest)))), native)
    ensures Spelled(Details(rest), Ascii(" with style ") + (StyleText(style) + (Ascii(" (native ") + native)))
  {
    hide Spelled, In;
    StepText(" (native ", Then(Numeral, Then(Text("x"), Then(Numeral, AfterNative(rest)))), native);
    StyleSpelled(style);
    Step(OneOf(STYLES), AfterStyle(rest), StyleText(style), Ascii(" (native ") + native);
    StepText(" with style ", Then(OneOf(STYLES), AfterStyle(rest)), StyleText(style) + (Ascii(" (native ") + native));
  }

  lemma DetailsTextIs(image: Image, processed: ByteString, final: ByteString, native: ByteString)
    requires processed == ProcessingText(image.processing) + (Ascii(", SHA-256 ") + image.digest)
    requires final == PairText(Numbers.Digits(image.width), Numbers.Digits(image.height), Ascii(", ") + processed)
    requires native == PairText(Numbers.Digits(image.nativeWidth), Numbers.Digits(image.nativeHeight),
                                Ascii(", final ") + final)
    ensures DetailsText(image) ==
            Ascii(" with style ") + (StyleText(image.style) + (Ascii(" (native ") + native))
  {
    hide StyleText, ProcessingText, PairText;
  }

  lemma DetailsFront(kind: Processing, t: ByteString) returns (image: Image)
    requires Spelled(Details(ForProcessing(kind)), t)
    ensures Produced(image) && PlainNumbers(image.processing) && t == DetailsText(image)
  {
    hide Spelled, In, ForProcessing, PairText, StyleText, ProcessingText;
    var rest := ForProcessing(kind);
    var a := FrontText(" with style ", Then(OneOf(STYLES), AfterStyle(rest)), t);
    var s, b := Front(OneOf(STYLES), AfterStyle(rest), a);
    var style := StyleOf(s);
    var native := FrontText(" (native ", Then(Numeral, Then(Text("x"), Then(Numeral, AfterNative(rest)))), b);
    var nw, nh, c := SizeFront(AfterNative(rest), native);
    var final := FrontText(", final ", Then(Numeral, Then(Text("x"), Then(Numeral, Then(Text(", "), rest)))), c);
    var w, h, d := SizeFront(Then(Text(", "), rest), final);
    var processed := FrontText(", ", rest, d);
    var p, last := ProcessingFront(kind, processed);
    var digest := LastFront(last);
    image := Image(style, nw, nh, w, h, p, digest);
    DetailsTextIs(image, processed, final, native);
  }

  /** The details of a record are matched exactly when they are spelled by the pattern: a style, two
      sizes, one of three output transforms and 64 hexadecimal digits. */
  lemma PatternExactly(t: ByteString)
    ensures Matches(t) <==>
            Spelled(Details(UNTOUCHED), t) || Spelled(Details(ASPECT), t) || Spelled(Details(SIZE), t)
  {
    hide Spelled, Matches, DetailsText;
    MatchesPrinted(t);
    if Matches(t) {
      var image :| Produced(image) && PlainNumbers(image.processing) && t == DetailsText(image);
      DetailsSpelled(image);
    } else {
      NothingSpelled(t);
    }
  }

  lemma NothingSpelled(t: ByteString)
    requires !Printed(t)
    ensures !Spelled(Details(UNTOUCHED), t) && !Spelled(Details(ASPECT), t) && !Spelled(Details(SIZE), t)
  {
    hide Spelled, DetailsText;
    if Spelled(Details(UNTOUCHED), t) {
      var image := DetailsFront(Untouched, t);
    }
    if Spelled(Details(ASPECT), t) {
      var image := DetailsFront(ToAspect(Geometry.Crop, [], []), t);
    }
    if Spelled(Details(SIZE), t) {
      var image := DetailsFront(ToSize(Geometry.Crop, [], []), t);
    }
  }

  // ---- the white space around a record ----

  /** The code points of Unicode's White_Space. */
  predicate IsSpace(r: int) {
    || 9 <= r <= 13 || r == 0x20 || r == 0x85 || r == 0xa0 || r == 0x1680 || 0x2000 <= r <= 0x200a
    || r == 0x2028 || r == 0x2029 || r == 0x202f || r == 0x205f || r == 0x3000
  }

  lemma TwoBytes(r: int)
    requires 0x80 <= r < 0x800
    ensures WideSpace(Utf8(r)) <==> IsSpace(r)
    ensures |Utf8(r)| == 2 && 0xc2 <= Utf8(r)[0] < 0xe0 && 0x80 <= Utf8(r)[1] < 0xc0
  {
    assert r == r / 0x40 * 0x40 + r % 0x40;
  }

  lemma ThreeBytes(r: int)
    requires 0x800 <= r < 0x10000
    ensures WideSpace(Utf8(r)) <==> IsSpace(r)
    ensures |Utf8(r)| == 3 && 0xe0 <= Utf8(r)[0] < 0xf0 && 0x80 <= Utf8(r)[1] < 0xc0 && 0x80 <= Utf8(r)[2] < 0xc0
  {
    assert r == r / 0x1000 * 0x1000 + r / 0x40 % 0x40 * 0x40 + r % 0x40 by {
      assert r / 0x40 / 0x40 == r / 0x1000;
    }
  }

  lemma FourBytes(r: int)
    requires 0x10000 <= r < 0x110000
    ensures |Utf8(r)| == 4 && 0xf0 <= Utf8(r)[0]
    ensures forall i :: 1 <= i < 4 ==> 0x80 <= Utf8(r)[i] < 0xc0
  {
  }

  /** A wide space is two or three bytes with a lead byte of that length. */
  lemma WideSpaceLead(t: ByteString)
    requires WideSpace(t)
    ensures (|t| == 2 && 0xc2 <= t[0] < 0xe0) || (|t| == 3 && 0xe0 <= t[0] < 0xf0)
    ensures forall i :: 0 < i < |t| ==> 0x80 <= t[i] < 0xc0
  {
  }

  /** What is trimmed from the front is one white space character, whole. */
  lemma LeadingExactly(r: int, rest: ByteString)
    requires 0 <= r < 0x110000
    ensures LeadingSpace(Utf8(r) + rest) == if IsSpace(r) then |Utf8(r)| else 0
  {
    hide WideSpace, Utf8;
    var s := Utf8(r) + rest;
    if |s| >= 2 && WideSpace(s[..2]) {
      WideSpaceLead(s[..2]);
    }
    if |s| >= 3 && WideSpace(s[..3]) {
      WideSpaceLead(s[..3]);
    }
    if r < 0x80 {
      OneByte(r);
    } else if r < 0x800 {
      TwoBytes(r);
      assert s[..2] == Utf8(r);
    } else if r < 0x10000 {
      ThreeBytes(r);
      assert s[..3] == Utf8(r);
    } else {
      FourBytes(r);
    }
  }

  lemma OneByte(r: int)
    requires 0 <= r < 0x80
    ensures Utf8(r) == [r as Byte]
  {
  }

  /** A character as UTF-8 spells it: one byte that is no continuation, then only continuations. */
  predicate OneCharacter(t: ByteString) {
    t != [] && (t[0] < 0x80 || t[0] >= 0xc0) && forall i :: 0 < i < |t| ==> 0x80 <= t[i] < 0xc0
  }

  lemma Utf8IsOne(r: int)
    requires 0 <= r < 0x110000
    ensures OneCharacter(Utf8(r)) && (Utf8(r)[0] < 0x80 <==> r < 0x80)
    ensures |Utf8(r)| == if r < 0x80 then 1 else if r < 0x800 then 2 else if r < 0x10000 then 3 else 4
  {
    hide WideSpace;
    if r < 0x80 {
    } else if r < 0x800 {
      TwoBytes(r);
    } else if r < 0x10000 {
      ThreeBytes(r);
    } else {
      FourBytes(r);
    }
  }

  /** A wide space at the end is the last character. */
  lemma WideSpaceLast(front: ByteString, t: ByteString, k: nat)
    requires OneCharacter(t) && 2 <= k <= |front + t| && WideSpace((front + t)[|front + t| - k..])
    ensures k == |t|
  {
    hide WideSpace;
    var s := front + t;
    var last := s[|s| - k..];
    if |t| < k {
      assert last[k - |t|] == t[0];
    } else if |t| > k {
      assert last[0] == t[|t| - k];
    }
    WideSpaceLead(last);
  }

  lemma LastBytes(front: ByteString, t: ByteString)
    ensures (front + t)[|front + t| - |t|..] == t
  {
  }

  /** Which characters are white space, by their bytes. */
  lemma SpaceBytes(r: int)
    requires 0 <= r < 0x110000
    ensures var t := Utf8(r);
            IsSpace(r) <==> if |t| == 1 then t[0] == 0x20 || 0x09 <= t[0] <= 0x0d else |t| <= 3 && WideSpace(t)
  {
    hide WideSpace;
    if r < 0x80 {
      OneByte(r);
    } else if r < 0x800 {
      TwoBytes(r);
    } else if r < 0x10000 {
      ThreeBytes(r);
    } else {
      FourBytes(r);
    }
  }

  lemma WideEnd(front: ByteString, t: ByteString, k: nat)
    requires OneCharacter(t) && k >= 2
    ensures var s := front + t; (k <= |s| && WideSpace(s[|s| - k..])) <==> (k == |t| && WideSpace(t))
  {
    hide WideSpace;
    LastBytes(front, t);
    var s := front + t;
    if k <= |s| && WideSpace(s[|s| - k..]) {
      WideSpaceLast(front, t, k);
    }
  }

  lemma LastByteOf(front: ByteString, t: ByteString)
    requires OneCharacter(t)
    ensures (front + t)[|front + t| - 1] == t[|t| - 1] && (|t| > 1 ==> t[|t| - 1] >= 0x80)
  {
  }

  lemma TrailingOf(front: ByteString, t: ByteString)
    requires OneCharacter(t) && (|t| == 1 <==> t[0] < 0x80)
    ensures TrailingSpace(front + t) ==
            if |t| == 1 then (if t[0] == 0x20 || 0x09 <= t[0] <= 0x0d then 1 else 0)
            else if |t| <= 3 && WideSpace(t) then |t| else 0
  {
    hide WideSpace, TrailingSpace;
    WideEnd(front, t, 2);
    WideEnd(front, t, 3);
    LastByteOf(front, t);
    TrailingBy(front + t, t);
  }

  /** What is trimmed from the back is told by the last byte and the last two and three. */
  lemma TrailingBy(s: ByteString, t: ByteString)
    requires s != [] && t != [] && s[|s| - 1] == t[|t| - 1] && (|t| > 1 ==> t[|t| - 1] >= 0x80)
    requires (2 <= |s| && WideSpace(s[|s| - 2..])) <==> (2 == |t| && WideSpace(t))
    requires (3 <= |s| && WideSpace(s[|s| - 3..])) <==> (3 == |t| && WideSpace(t))
    ensures TrailingSpace(s) ==
            if |t| == 1 then (if t[0] == 0x20 || 0x09 <= t[0] <= 0x0d then 1 else 0)
            else if |t| <= 3 && WideSpace(t) then |t| else 0
  {
    hide WideSpace;
  }

  /** And from the back. */
  lemma TrailingExactly(front: ByteString, r: int)
    requires 0 <= r < 0x110000
    ensures TrailingSpace(front + Utf8(r)) == if IsSpace(r) then |Utf8(r)| else 0
  {
    hide WideSpace, Utf8, OneCharacter, IsSpace, TrailingSpace;
    Utf8IsOne(r);
    SpaceBytes(r);
    TrailingOf(front, Utf8(r));
  }
}
