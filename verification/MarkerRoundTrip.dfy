/** A printed record read back: the request comes out unchanged, exactly when the output transform
    was spelled without leading zeros. */
module MarkerRoundTrip {
  import opened Bytes
  import opened GoQuote
  import opened ImageMarker
  import opened JsonGrammar
  import opened Options
  import Geometry = OutputGeometry
  import Numbers = JsonPointers

  // ---- one part of the pattern at a time ----

  lemma EatsText(text: ByteString, rest: ByteString)
    ensures Eat(Some(text + rest), text) == Some(rest)
  {
    assert (text + rest)[|text|..] == rest;
  }

  predicate NoDigitFirst(t: ByteString) { t == [] || !IsDigit(t[0]) }

  lemma {:induction false} DropsRun(d: ByteString, rest: ByteString)
    requires (forall i :: 0 <= i < |d| ==> IsDigit(d[i])) && NoDigitFirst(rest)
    ensures DropDigits(d + rest) == rest
  {
    if d == [] {
      assert d + rest == rest;
    } else {
      DropsRun(d[1..], rest);
      assert (d + rest)[1..] == d[1..] + rest;
    }
  }

  lemma EatsNumber(d: ByteString, rest: ByteString)
    requires DigitRun(d) && NoDigitFirst(rest)
    ensures EatNumber(Some(d + rest)) == if d[0] == 0x30 then None else Some(rest)
  {
    assert (d + rest)[1..] == d[1..] + rest;
    DropsRun(d[1..], rest);
  }

  lemma EatsPair(w: ByteString, between: ByteString, h: ByteString, rest: ByteString)
    requires DigitRun(w) && DigitRun(h) && between != [] && NoDigitFirst(between) && NoDigitFirst(rest)
    ensures EatPair(Some(w + (between + (h + rest))), between) ==
            if w[0] == 0x30 || h[0] == 0x30 then None else Some(rest)
  {
    assert NoDigitFirst(between + (h + rest));
    EatsNumber(w, between + (h + rest));
    EatsText(between, h + rest);
    EatsNumber(h, rest);
  }

  lemma {:induction false} DigitsPlain(n: nat)
    requires n > 0
    ensures DigitRun(Numbers.Digits(n)) && Numbers.Digits(n)[0] != 0x30
  {
    if n >= 10 { DigitsPlain(n / 10); }
  }

  lemma EatsSize(w: nat, h: nat, rest: ByteString)
    requires w > 0 && h > 0 && NoDigitFirst(rest)
    ensures EatPair(Some(PairText(Numbers.Digits(w), Numbers.Digits(h), rest)), Ascii("x")) == Some(rest)
  {
    DigitsPlain(w);
    DigitsPlain(h);
    EatsPair(Numbers.Digits(w), Ascii("x"), Numbers.Digits(h), rest);
  }

  /** A text that differs in one byte is not eaten. */
  lemma EatsOther(text: ByteString, rest: ByteString, other: ByteString, k: nat)
    requires k < |text| && k < |other| && text[k] != other[k]
    ensures Eat(Some(text + rest), other) == None
  {
    assert (text + rest)[k] == text[k];
  }

  lemma EatsStyle(style: Style, rest: ByteString)
    ensures EatStyle(Some(StyleText(style) + rest)) == Some(rest)
  {
    var text := StyleText(style);
    EatsText(text, rest);
    assert text[0] == match style case Any => 0x61 case Animation => 0x61 case Genmoji => 0x67
                                  case Illustration => 0x69 case Sketch => 0x73 case ChatGPT => 0x63;
    if !style.Any? { EatsOther(text, rest, StyleText(Any), if style.Animation? then 2 else 0); }
    if !style.Any? && !style.Animation? { EatsOther(text, rest, StyleText(Animation), 0); }
    if !style.Genmoji? { EatsOther(text, rest, StyleText(Genmoji), 0); }
    if !style.Illustration? { EatsOther(text, rest, StyleText(Illustration), 0); }
    if !style.Sketch? { EatsOther(text, rest, StyleText(Sketch), 0); }
  }

  lemma EatsFit(fit: Geometry.Fit, rest: ByteString)
    ensures EatFit(Some(FitText(fit) + rest)) == Some(rest)
  {
    EatsText(FitText(fit), rest);
    if fit.Pad? { EatsOther(FitText(fit), rest, FitText(Geometry.Crop), 0); }
  }

  lemma Grouped(a: ByteString, b: ByteString, c: ByteString)
    ensures (a + b) + c == a + (b + c)
  {
  }

  lemma EatsAspect(w: ByteString, h: ByteString, rest: ByteString)
    requires DigitRun(w) && DigitRun(h) && NoDigitFirst(rest)
    ensures EatTransform(Some((Ascii(" fit to aspect ratio ") + (w + (Ascii(":") + h))) + rest)) ==
            if w[0] == 0x30 || h[0] == 0x30 then None else Some(rest)
  {
    var name, pair := Ascii(" fit to aspect ratio "), w + (Ascii(":") + h);
    Grouped(name, pair, rest);
    EatsText(name, pair + rest);
    assert pair + rest == w + (Ascii(":") + (h + rest));
    EatsPair(w, Ascii(":"), h, rest);
  }

  lemma EatsTarget(w: ByteString, h: ByteString, rest: ByteString)
    requires DigitRun(w) && DigitRun(h) && NoDigitFirst(rest)
    ensures EatTransform(Some((Ascii(" fit to size ") + (w + (Ascii("x") + h))) + rest)) ==
            if w[0] == 0x30 || h[0] == 0x30 then None else Some(rest)
  {
    var name, pair := Ascii(" fit to size "), w + (Ascii("x") + h);
    Grouped(name, pair, rest);
    EatsText(name, pair + rest);
    EatsOther(name, pair + rest, Ascii(" fit to aspect ratio "), 8);
    assert pair + rest == w + (Ascii("x") + (h + rest));
    EatsPair(w, Ascii("x"), h, rest);
  }

  lemma EatsProcessing(p: Processing, rest: ByteString)
    requires !p.Untouched? ==> DigitRun(p.width) && DigitRun(p.height)
    requires NoDigitFirst(rest)
    ensures EatProcessing(Some(ProcessingText(p) + rest)) == if PlainNumbers(p) then Some(rest) else None
  {
    if p.Untouched? {
      EatsText(Ascii("no output transform"), rest);
    } else {
      var local := Ascii("local ");
      var target := if p.ToAspect? then Ascii(" fit to aspect ratio ") + (p.width + (Ascii(":") + p.height))
                    else Ascii(" fit to size ") + (p.width + (Ascii("x") + p.height));
      assert ProcessingText(p) == local + (FitText(p.fit) + target);
      Grouped(local, FitText(p.fit) + target, rest);
      Grouped(FitText(p.fit), target, rest);
      EatsOther(local, FitText(p.fit) + (target + rest), Ascii("no output transform"), 0);
      EatsText(local, FitText(p.fit) + (target + rest));
      EatsFit(p.fit, target + rest);
      if p.ToAspect? { EatsAspect(p.width, p.height, rest); } else { EatsTarget(p.width, p.height, rest); }
    }
  }

  lemma EatsHead(image: Image, rest: ByteString)
    requires Produced(image) && NoDigitFirst(rest)
    ensures EatHead(Ascii(" with style ") + (StyleText(image.style) + (Ascii(" (native ")
                    + PairText(Numbers.Digits(image.nativeWidth), Numbers.Digits(image.nativeHeight), Ascii(", final ")
                    + PairText(Numbers.Digits(image.width), Numbers.Digits(image.height), rest))))) == Some(rest)
  {
    var final := PairText(Numbers.Digits(image.width), Numbers.Digits(image.height), rest);
    var native :=
      PairText(Numbers.Digits(image.nativeWidth), Numbers.Digits(image.nativeHeight), Ascii(", final ") + final);
    EatsText(Ascii(" with style "), StyleText(image.style) + (Ascii(" (native ") + native));
    EatsStyle(image.style, Ascii(" (native ") + native);
    EatsText(Ascii(" (native "), native);
    EatsSize(image.nativeWidth, image.nativeHeight, Ascii(", final ") + final);
    EatsText(Ascii(", final "), final);
    EatsSize(image.width, image.height, rest);
  }

  /** The pattern takes the printed details exactly when no number has a leading zero. */
  lemma DetailsMatch(image: Image)
    requires Produced(image)
    ensures Matches(DetailsText(image)) == PlainNumbers(image.processing)
  {
    var last := Ascii(", SHA-256 ") + image.digest;
    var processed := ProcessingText(image.processing) + last;
    EatsHead(image, Ascii(", ") + processed);
    EatsText(Ascii(", "), processed);
    EatsProcessing(image.processing, last);
    EatsText(Ascii(", SHA-256 "), image.digest);
  }

  // ---- nothing else matches ----

  ghost predicate Printed(text: ByteString) {
    exists image :: Produced(image) && PlainNumbers(image.processing) && text == DetailsText(image)
  }

  lemma DropsOnlyDigits(t: ByteString) returns (d: ByteString)
    ensures t == d + DropDigits(t) && forall i :: 0 <= i < |d| ==> IsDigit(d[i])
  {
    var k := 0;
    assert t[0..] == t;
    while k < |t| && IsDigit(t[k])
      invariant 0 <= k <= |t| && DropDigits(t[k..]) == DropDigits(t)
      invariant forall i :: 0 <= i < k ==> IsDigit(t[i])
    {
      assert t[k..][1..] == t[k + 1..];
      k := k + 1;
    }
    d := t[..k];
  }

  lemma AteNumber(from: ByteString) returns (d: ByteString)
    requires EatNumber(Some(from)).Some?
    ensures DigitRun(d) && d[0] != 0x30 && from == d + EatNumber(Some(from)).value
  {
    hide DropDigits;
    var left := DropsOnlyDigits(from[1..]);
    d := [from[0]] + left;
    assert from == [from[0]] + from[1..];
  }

  /** A run of digits without leading zero is some number's text. */
  lemma {:induction false} DigitsOf(d: ByteString) returns (n: nat)
    requires DigitRun(d) && d[0] != 0x30
    ensures n > 0 && Numbers.Digits(n) == d
    decreases |d|
  {
    var front, last := d[..|d| - 1], d[|d| - 1];
    assert front + [last] == d;
    if front == [] {
      n := last as int - 0x30;
    } else {
      var high := DigitsOf(front);
      n := high * 10 + (last as int - 0x30);
      DigitsMore(high, last);
    }
  }

  lemma DigitsMore(high: nat, last: Byte)
    requires high > 0 && IsDigit(last)
    ensures Numbers.Digits(high * 10 + (last as int - 0x30)) == Numbers.Digits(high) + [last]
  {
    var n := high * 10 + (last as int - 0x30);
    assert n / 10 == high && n % 10 == last as int - 0x30;
  }

  lemma AteText(from: ByteString, text: ByteString)
    requires Eat(Some(from), text).Some?
    ensures from == text + Eat(Some(from), text).value
  {
  }

  lemma AtePair(from: ByteString, between: ByteString) returns (w: ByteString, h: ByteString)
    requires EatPair(Some(from), between).Some?
    ensures DigitRun(w) && DigitRun(h) && w[0] != 0x30 && h[0] != 0x30
    ensures from == w + (between + (h + EatPair(Some(from), between).value))
  {
    w := AteNumber(from);
    var second := EatNumber(Some(from)).value;
    AteText(second, between);
    h := AteNumber(Eat(Some(second), between).value);
  }

  lemma AteSize(from: ByteString) returns (w: nat, h: nat)
    requires EatPair(Some(from), Ascii("x")).Some?
    ensures w > 0 && h > 0
    ensures from == PairText(Numbers.Digits(w), Numbers.Digits(h), EatPair(Some(from), Ascii("x")).value)
  {
    var width, height := AtePair(from, Ascii("x"));
    w := DigitsOf(width);
    h := DigitsOf(height);
  }

  lemma AteStyle(from: ByteString) returns (style: Style)
    requires EatStyle(Some(from)).Some?
    ensures from == StyleText(style) + EatStyle(Some(from)).value
  {
    style := if Eat(Some(from), StyleText(Any)).Some? then Any
             else if Eat(Some(from), StyleText(Animation)).Some? then Animation
             else if Eat(Some(from), StyleText(Genmoji)).Some? then Genmoji
             else if Eat(Some(from), StyleText(Illustration)).Some? then Illustration
             else if Eat(Some(from), StyleText(Sketch)).Some? then Sketch
             else ChatGPT;
    AteText(from, StyleText(style));
  }

  lemma AteFit(from: ByteString) returns (fit: Geometry.Fit)
    requires EatFit(Some(from)).Some?
    ensures from == FitText(fit) + EatFit(Some(from)).value
  {
    fit := if Eat(Some(from), FitText(Geometry.Crop)).Some? then Geometry.Crop else Geometry.Pad;
    AteText(from, FitText(fit));
  }

  lemma AteTransform(from: ByteString, fit: Geometry.Fit) returns (p: Processing)
    requires EatTransform(Some(from)).Some?
    ensures !p.Untouched? && p.fit == fit && DigitRun(p.width) && DigitRun(p.height) && PlainNumbers(p)
    ensures ProcessingText(p) + EatTransform(Some(from)).value == Ascii("local ") + (FitText(fit) + from)
  {
    var rest := EatTransform(Some(from)).value;
    var name := if Eat(Some(from), Ascii(" fit to aspect ratio ")).Some? then Ascii(" fit to aspect ratio ")
                else Ascii(" fit to size ");
    var between := if Eat(Some(from), Ascii(" fit to aspect ratio ")).Some? then Ascii(":") else Ascii("x");
    AteText(from, name);
    var w, h := AtePair(Eat(Some(from), name).value, between);
    p := if Eat(Some(from), Ascii(" fit to aspect ratio ")).Some? then ToAspect(fit, w, h) else ToSize(fit, w, h);
    var target := name + (w + (between + h));
    assert from == target + rest;
    assert ProcessingText(p) == Ascii("local ") + (FitText(fit) + target);
    Grouped(Ascii("local "), FitText(fit) + target, rest);
    Grouped(FitText(fit), target, rest);
  }

  lemma AteProcessing(from: ByteString) returns (p: Processing)
    requires EatProcessing(Some(from)).Some?
    ensures !p.Untouched? ==> DigitRun(p.width) && DigitRun(p.height)
    ensures PlainNumbers(p) && from == ProcessingText(p) + EatProcessing(Some(from)).value
  {
    if Eat(Some(from), Ascii("no output transform")).Some? {
      AteText(from, Ascii("no output transform"));
      p := Untouched;
    } else {
      AteText(from, Ascii("local "));
      var left := Eat(Some(from), Ascii("local ")).value;
      var fit := AteFit(left);
      p := AteTransform(EatFit(Some(left)).value, fit);
    }
  }

  lemma AteHead(text: ByteString) returns (style: Style, nw: nat, nh: nat, w: nat, h: nat)
    requires EatHead(text).Some?
    ensures nw > 0 && nh > 0 && w > 0 && h > 0
    ensures text == Ascii(" with style ") + (StyleText(style) + (Ascii(" (native ")
                    + PairText(Numbers.Digits(nw), Numbers.Digits(nh), Ascii(", final ")
                    + PairText(Numbers.Digits(w), Numbers.Digits(h), EatHead(text).value))))
  {
    AteText(text, Ascii(" with style "));
    var a := Eat(Some(text), Ascii(" with style ")).value;
    style := AteStyle(a);
    var b := EatStyle(Some(a)).value;
    AteText(b, Ascii(" (native "));
    var c := Eat(Some(b), Ascii(" (native ")).value;
    nw, nh := AteSize(c);
    var d := EatPair(Some(c), Ascii("x")).value;
    AteText(d, Ascii(", final "));
    w, h := AteSize(Eat(Some(d), Ascii(", final ")).value);
  }

  lemma AteDetails(text: ByteString) returns (image: Image)
    requires Matches(text)
    ensures Produced(image) && PlainNumbers(image.processing) && text == DetailsText(image)
  {
    var style, nw, nh, w, h := AteHead(text);
    var a := EatHead(text).value;
    AteText(a, Ascii(", "));
    var b := Eat(Some(a), Ascii(", ")).value;
    var p := AteProcessing(b);
    var c := EatProcessing(Some(b)).value;
    AteText(c, Ascii(", SHA-256 "));
    image := Image(style, nw, nh, w, h, p, Eat(Some(c), Ascii(", SHA-256 ")).value);
  }

  /** The pattern takes exactly the details the server prints for images without leading zeros. */
  lemma MatchesPrinted(text: ByteString)
    ensures Matches(text) == Printed(text)
  {
    if Matches(text) {
      var image := AteDetails(text);
    }
    if Printed(text) {
      var image :| Produced(image) && PlainNumbers(image.processing) && text == DetailsText(image);
      DetailsMatch(image);
    }
  }

  // ---- the whole record ----

  lemma EndsJoined(s: ByteString, t: ByteString)
    ensures EndsWith(s + t, t)
  {
    assert (s + t)[|s|..] == t;
  }

  /** Two texts that differ three bytes before the end do not both end a third. */
  lemma EndsApart(s: ByteString, t: ByteString, other: ByteString)
    requires |t| >= 3 && |other| >= 3 && t[|t| - 3] != other[|other| - 3]
    ensures !EndsWith(s + t, other)
  {
    var all := s + t;
    assert all[|all| - 3] == t[|t| - 3];
    if |other| <= |all| {
      assert all[|all| - |other|..][|other| - 3] == all[|all| - 3];
    }
  }

  lemma ReplayEnds()
    ensures var n := |REPLAY_SUFFIX|; n >= 3 && REPLAY_SUFFIX[n - 1] == 0x5d && REPLAY_SUFFIX[n - 3] == 0x64
  {
  }

  lemma ReferenceEnds()
    ensures var n := |REFERENCE_SUFFIX|; n >= 3 && REFERENCE_SUFFIX[n - 1] == 0x5d && REFERENCE_SUFFIX[n - 3] == 0x73
  {
  }

  lemma Endings(referenceSent: bool)
    ensures PREFIX != [] && PREFIX[0] == 0x5b
    ensures |SuffixFor(referenceSent)| >= 3 && SuffixFor(referenceSent)[|SuffixFor(referenceSent)| - 1] == 0x5d
    ensures SuffixFor(referenceSent)[|SuffixFor(referenceSent)| - 3] == if referenceSent then 0x73 else 0x64
  {
    ReplayEnds();
    ReferenceEnds();
  }

  lemma SuffixFound(s: ByteString, referenceSent: bool)
    ensures SuffixOf(s + SuffixFor(referenceSent)) == SuffixFor(referenceSent)
  {
    Endings(true);
    Endings(false);
    EndsJoined(s, SuffixFor(referenceSent));
    if !referenceSent { EndsApart(s, REPLAY_SUFFIX, REFERENCE_SUFFIX); }
  }

  lemma NothingTrimmed(s: ByteString)
    requires s != [] && s[0] == 0x5b && s[|s| - 1] == 0x5d
    ensures Trimmed(s) == s
  {
    hide LeadingSpace, TrailingSpace;
    NoLeadingSpace(s);
    NoTrailingSpace(s);
  }

  lemma WideSpaceEnds(t: ByteString)
    requires WideSpace(t)
    ensures t != [] && t[0] >= 0xc2 && t[|t| - 1] >= 0x80
  {
  }

  lemma NoLeadingSpace(s: ByteString)
    requires s != [] && s[0] == 0x5b
    ensures LeadingSpace(s) == 0
  {
    hide WideSpace;
    if |s| >= 2 && WideSpace(s[..2]) {
      WideSpaceEnds(s[..2]);
    }
    if |s| >= 3 && WideSpace(s[..3]) {
      WideSpaceEnds(s[..3]);
    }
  }

  lemma NoTrailingSpace(s: ByteString)
    requires s != [] && s[|s| - 1] == 0x5d
    ensures TrailingSpace(s) == 0
  {
    hide WideSpace;
    if |s| >= 2 && WideSpace(s[|s| - 2..]) {
      WideSpaceEnds(s[|s| - 2..]);
    }
    if |s| >= 3 && WideSpace(s[|s| - 3..]) {
      WideSpaceEnds(s[|s| - 3..]);
    }
  }

  lemma BodyReads(quoted: ByteString, details: ByteString)
    requires QuotedEnd(quoted + details) == |quoted| && quoted != []
    ensures RequestIn(quoted + details) == if Matches(details) then Unquote(quoted) else None
  {
    var body := quoted + details;
    assert body[..|quoted|] == quoted && body[|quoted|..] == details;
  }

  /** Prefix and suffix come off, whatever stands between them. */
  lemma Unwrapped(prefix: ByteString, body: ByteString, suffix: ByteString)
    ensures RequestBetween(prefix + body + suffix, prefix, suffix) == RequestIn(body)
  {
    var text := prefix + body + suffix;
    EndsJoined(prefix + body, suffix);
    assert text[|prefix|..] == body + suffix;
    EndsJoined(body, suffix);
    assert (body + suffix)[..|body|] == body;
  }

  lemma RecordReads(prefix: ByteString, body: ByteString, suffix: ByteString)
    requires prefix != [] && prefix[0] == 0x5b && suffix != [] && suffix[|suffix| - 1] == 0x5d
    ensures Trimmed(prefix + body + suffix) == prefix + body + suffix
    ensures RequestBetween(prefix + body + suffix, prefix, suffix) == RequestIn(body)
  {
    var text := prefix + body + suffix;
    assert text[0] == prefix[0] && text[|text| - 1] == suffix[|suffix| - 1];
    NothingTrimmed(text);
    Unwrapped(prefix, body, suffix);
  }

  lemma BodyOf(image: Image, request: ByteString, printable: Printable)
    requires Produced(image) && Sensible(printable)
    ensures RequestIn(Quote(request, printable) + DetailsText(image)) ==
            if PlainNumbers(image.processing) then Some(request) else None
  {
    QuoteEndFound(request, printable, DetailsText(image));
    QuoteRoundTrip(request, printable);
    QuotedReads(request, printable, DetailsText(image));
    DetailsMatch(image);
  }

  lemma QuotedReads(request: ByteString, printable: Printable, details: ByteString)
    requires QuotedEnd(Quote(request, printable) + details) == |Quote(request, printable)|
    ensures RequestIn(Quote(request, printable) + details) ==
            if Matches(details) then Unquote(Quote(request, printable)) else None
  {
    BodyReads(Quote(request, printable), details);
  }

  /** Every request comes back unchanged, with or without a reference, unless the output transform
      has a leading zero; then the record is not recognised at all. */
  lemma MarkerRoundTrips(image: Image, request: ByteString, referenceSent: bool, printable: Printable)
    requires Produced(image) && Sensible(printable)
    ensures MarkerRequest(Marker(image, request, referenceSent, printable)) ==
            if PlainNumbers(image.processing) then Some(request) else None
  {
    var body := Quote(request, printable) + DetailsText(image);
    Endings(referenceSent);
    RecordReads(PREFIX, body, SuffixFor(referenceSent));
    SuffixFound(PREFIX + body, referenceSent);
    BodyOf(image, request, printable);
  }
}
