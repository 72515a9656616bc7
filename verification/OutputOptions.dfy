/** The output controls a client asks for: what the checks take, and that the record printed for a
    transform they took is recognised exactly when its numbers have no leading zero. */
module OutputOptions {
  import opened Bytes
  import opened GoQuote
  import opened ImageMarker
  import opened JsonGrammar
  import opened MarkerRoundTrip
  import opened Options
  import Geometry = OutputGeometry
  import Numbers = JsonPointers

  /** Ratio, size and fit as text; an empty text asks for nothing. */
  datatype Controls = Controls(aspect: ByteString, size: ByteString, fit: ByteString)

  const TIMES_BYTE: Byte := 0x78

  // ---- one number ----

  /** A run of decimal digits, leading zeros and all, that spells a positive 64-bit number. */
  function PositiveUint(value: ByteString): Option<nat> {
    if !DigitRun(value) || !(0 < Numbers.ReadDigits(value) <= Geometry.MAX_UINT64) then None
    else Some(Numbers.ReadDigits(value))
  }

  method ParsePositiveUint(value: ByteString) returns (r: Option<nat>)
    ensures r == PositiveUint(value)
  {
    if value == [] {
      return None;
    }
    var index := 0;
    while index < |value|
      invariant 0 <= index <= |value| && forall i :: 0 <= i < index ==> IsDigit(value[i])
    {
      if !IsDigit(value[index]) {
        return None;
      }
      index := index + 1;
    }
    var number := Numbers.ReadDigits(value);
    if number > Geometry.MAX_UINT64 || number <= 0 {
      return None;
    }
    r := Some(number);
  }

  // ---- a pair ----

  /** The pieces between separators. */
  function Split(s: ByteString, separator: Byte): (parts: seq<ByteString>)
    ensures parts != []
  {
    if s == [] then [[]]
    else
      var rest := Split(s[1..], separator);
      if s[0] == separator then [[]] + rest else [[s[0]] + rest[0]] + rest[1..]
  }

  /** At most two pieces make up the text again. */
  predicate MadeOf(s: ByteString, separator: Byte, parts: seq<ByteString>) {
    && (|parts| == 1 ==> s == parts[0])
    && (|parts| == 2 ==> s == parts[0] + ([separator] + parts[1]))
  }

  lemma {:induction false} SplitOnce(s: ByteString, separator: Byte)
    ensures MadeOf(s, separator, Split(s, separator))
  {
    if s != [] {
      SplitOnce(s[1..], separator);
      MadeOfMore(s[0], s[1..], separator, Split(s[1..], separator));
      assert s == [s[0]] + s[1..];
    }
  }

  lemma MadeOfMore(b: Byte, s: ByteString, separator: Byte, rest: seq<ByteString>)
    requires rest != [] && MadeOf(s, separator, rest)
    ensures MadeOf([b] + s, separator, if b == separator then [[]] + rest else [[b] + rest[0]] + rest[1..])
  {
    if |rest| == 2 && b != separator {
      assert [b] + (rest[0] + ([separator] + rest[1])) == [b] + rest[0] + ([separator] + rest[1]);
    }
    if |rest| == 1 {
      assert [] + ([separator] + rest[0]) == [separator] + rest[0];
    }
  }

  /** The two numbers of WIDTH and HEIGHT, as spelled, if both are positive. */
  function ParsePair(value: ByteString, separator: Byte): Option<(ByteString, ByteString)> {
    var parts := Split(Trimmed(value), separator);
    if |parts| != 2 || PositiveUint(parts[0]).None? || PositiveUint(parts[1]).None? then None
    else Some((parts[0], parts[1]))
  }

  lemma PairSpelled(value: ByteString, separator: Byte)
    requires ParsePair(value, separator).Some?
    ensures var (w, h) := ParsePair(value, separator).value;
            Trimmed(value) == w + ([separator] + h) && DigitRun(w) && DigitRun(h)
  {
    SplitOnce(Trimmed(value), separator);
  }

  // ---- the controls ----

  function FitNamed(fit: ByteString): Option<Geometry.Fit> {
    if fit == Ascii("crop") then Some(Geometry.Crop) else if fit == Ascii("pad") then Some(Geometry.Pad) else None
  }

  predicate SizeAllowed(width: nat, height: nat)
    requires height > 0
  {
    width <= Geometry.MAX_PIXELS && height <= Geometry.MAX_PIXELS && width <= Geometry.MAX_PIXELS / height
  }

  /** What the controls ask for, if they are in order. */
  function ParseControls(c: Controls): Option<Processing> {
    if c.aspect != [] && c.size != [] then None
    else if c.aspect == [] && c.size == [] then if c.fit != [] then None else Some(Untouched)
    else if FitNamed(c.fit).None? then None
    else if c.aspect != [] then
      var pair := ParsePair(c.aspect, COLON);
      if pair.None? then None else Some(ToAspect(FitNamed(c.fit).value, pair.value.0, pair.value.1))
    else
      var pair := ParsePair(c.size, TIMES_BYTE);
      if pair.None? then None
      else if !SizeAllowed(PositiveUint(pair.value.0).value, PositiveUint(pair.value.1).value) then None
      else Some(ToSize(FitNamed(c.fit).value, pair.value.0, pair.value.1))
  }

  /** A request's controls with white space around them dropped, as the server keeps them. */
  function Served(c: Controls): Controls { Controls(Trimmed(c.aspect), Trimmed(c.size), Trimmed(c.fit)) }

  /** The transform as the record prints it, from the texts kept. */
  function ControlsText(c: Controls): ByteString {
    if c.aspect != [] then Ascii("local ") + (c.fit + (Ascii(" fit to aspect ratio ") + c.aspect))
    else if c.size != [] then Ascii("local ") + (c.fit + (Ascii(" fit to size ") + c.size))
    else Ascii("no output transform")
  }

  lemma {:induction false} TrimmedLeftDone(s: ByteString)
    ensures LeadingSpace(TrimmedLeft(s)) == 0
    decreases |s|
  {
    if LeadingSpace(s) != 0 { TrimmedLeftDone(s[LeadingSpace(s)..]); }
  }

  /** Dropping white space at the end uncovers none at the front. */
  lemma {:induction false} TrimmedRightKeeps(s: ByteString)
    requires LeadingSpace(s) == 0
    ensures LeadingSpace(TrimmedRight(s)) == 0 && TrailingSpace(TrimmedRight(s)) == 0
    decreases |s|
  {
    if TrailingSpace(s) != 0 {
      var front := s[..|s| - TrailingSpace(s)];
      PrefixKeeps(s, |front|);
      TrimmedRightKeeps(front);
    }
  }

  lemma PrefixKeeps(s: ByteString, n: nat)
    requires LeadingSpace(s) == 0 && n <= |s|
    ensures LeadingSpace(s[..n]) == 0
  {
    if n >= 2 { assert s[..n][..2] == s[..2]; }
    if n >= 3 { assert s[..n][..3] == s[..3]; }
  }

  /** Trimming twice is trimming once. */
  lemma TrimmedTwice(s: ByteString)
    ensures Trimmed(Trimmed(s)) == Trimmed(s)
  {
    TrimmedLeftDone(s);
    TrimmedRightKeeps(TrimmedLeft(s));
  }

  lemma FitSpelled(fit: ByteString)
    requires FitNamed(fit).Some?
    ensures FitText(FitNamed(fit).value) == fit
  {
  }

  lemma Separators()
    ensures Ascii(":") == [COLON] && Ascii("x") == [TIMES_BYTE]
  {
  }

  lemma AspectSpelled(c: Controls, p: Processing)
    requires c.aspect != [] && Trimmed(c.aspect) == c.aspect && ParseControls(c) == Some(p)
    ensures p.ToAspect? && DigitRun(p.width) && DigitRun(p.height)
    ensures FitText(p.fit) == c.fit && p.width + (Ascii(":") + p.height) == c.aspect
  {
    PairSpelled(c.aspect, COLON);
    FitSpelled(c.fit);
    Separators();
  }

  lemma SizeSpelled(c: Controls, p: Processing)
    requires c.aspect == [] && c.size != [] && Trimmed(c.size) == c.size && ParseControls(c) == Some(p)
    ensures p.ToSize? && DigitRun(p.width) && DigitRun(p.height)
    ensures FitText(p.fit) == c.fit && p.width + (Ascii("x") + p.height) == c.size
  {
    PairSpelled(c.size, TIMES_BYTE);
    FitSpelled(c.fit);
    Separators();
  }

  /** What the checks take is printed as a transform with two runs of digits. */
  lemma ServedSpelling(c: Controls, p: Processing)
    requires ParseControls(Served(c)) == Some(p)
    ensures ControlsText(Served(c)) == ProcessingText(p)
    ensures !p.Untouched? ==> DigitRun(p.width) && DigitRun(p.height)
  {
    var kept := Served(c);
    if kept.aspect != [] {
      TrimmedTwice(c.aspect);
      AspectSpelled(kept, p);
    } else if kept.size != [] {
      TrimmedTwice(c.size);
      SizeSpelled(kept, p);
    }
  }

  // ---- exactly what the checks take ----

  /** A positive 64-bit number in decimal digits. */
  predicate Numeral64(t: ByteString) { DigitRun(t) && 0 < Numbers.ReadDigits(t) < 0x1_0000_0000_0000_0000 }

  /** Two such numbers with the separator between them, white space around both dropped. */
  predicate PairOf(value: ByteString, separator: Byte, w: ByteString, h: ByteString) {
    Trimmed(value) == w + ([separator] + h) && Numeral64(w) && Numeral64(h)
  }

  lemma {:induction false} SplitNone(s: ByteString, separator: Byte)
    requires separator !in s
    ensures Split(s, separator) == [s]
    decreases |s|
  {
    if s != [] {
      SplitNone(s[1..], separator);
      assert s == [s[0]] + s[1..];
    }
  }

  lemma {:induction false} SplitsBack(w: ByteString, h: ByteString, separator: Byte)
    requires separator !in w && separator !in h
    ensures Split(w + ([separator] + h), separator) == [w, h]
    decreases |w|
  {
    if w == [] {
      SplitNone(h, separator);
      SplitByte(separator, h, separator);
      assert [] + ([separator] + h) == [separator] + h;
    } else {
      SplitsBack(w[1..], h, separator);
      SplitByte(w[0], w[1..] + ([separator] + h), separator);
      assert [w[0]] + (w[1..] + ([separator] + h)) == w + ([separator] + h);
      assert w == [w[0]] + w[1..];
    }
  }

  lemma DigitsHaveNone(t: ByteString, separator: Byte)
    requires DigitRun(t) && !IsDigit(separator)
    ensures separator !in t
  {
  }

  lemma PairExactly(value: ByteString, separator: Byte, w: ByteString, h: ByteString)
    requires !IsDigit(separator)
    ensures ParsePair(value, separator) == Some((w, h)) <==> PairOf(value, separator, w, h)
  {
    hide Split, Trimmed, DigitRun;
    if ParsePair(value, separator) == Some((w, h)) {
      PairSpelled(value, separator);
    } else if PairOf(value, separator, w, h) {
      DigitsHaveNone(w, separator);
      DigitsHaveNone(h, separator);
      SplitsBack(w, h, separator);
    }
  }

  lemma SizeExactly(width: nat, height: nat)
    requires width > 0 && height > 0
    ensures SizeAllowed(width, height) <==> width * height <= 16000000
  {
    Geometry.WithinPixels(width, height);
    Geometry.PositiveProduct(width, height);
  }

  lemma FitExactly(text: ByteString, fit: Geometry.Fit)
    ensures FitNamed(text) == Some(fit) <==> text == if fit.Crop? then Ascii("crop") else Ascii("pad")
  {
    assert Ascii("crop")[0] == 0x63 && Ascii("pad")[0] == 0x70;
  }

  /** The controls that ask for a transform, and nothing else: a fit with one of a ratio and a size, the
      size of at most 16 million pixels; or no control at all. */
  predicate AsksFor(c: Controls, p: Processing) {
    match p
    case Untouched => c == Controls([], [], [])
    case ToAspect(fit, w, h) =>
      && c.aspect != [] && c.size == [] && c.fit == (if fit.Crop? then Ascii("crop") else Ascii("pad"))
      && PairOf(c.aspect, 0x3a, w, h)
    case ToSize(fit, w, h) =>
      && c.aspect == [] && c.size != [] && c.fit == (if fit.Crop? then Ascii("crop") else Ascii("pad"))
      && PairOf(c.size, 0x78, w, h) && Numbers.ReadDigits(w) * Numbers.ReadDigits(h) <= 16000000
  }

  lemma ControlsExactly(c: Controls, p: Processing)
    ensures ParseControls(c) == Some(p) <==> AsksFor(c, p)
  {
    hide ParsePair, PairOf, FitNamed, SizeAllowed, Ascii;
    match p
    case Untouched =>
    case ToAspect(fit, w, h) =>
      FitExactly(c.fit, fit);
      PairExactly(c.aspect, COLON, w, h);
    case ToSize(fit, w, h) =>
      FitExactly(c.fit, fit);
      PairExactly(c.size, TIMES_BYTE, w, h);
      SizeTaken(c.size, w, h);
  }

  lemma SizeTaken(value: ByteString, w: ByteString, h: ByteString)
    ensures PairOf(value, TIMES_BYTE, w, h) ==>
              PositiveUint(w) == Some(Numbers.ReadDigits(w)) && PositiveUint(h) == Some(Numbers.ReadDigits(h))
              && (SizeAllowed(Numbers.ReadDigits(w), Numbers.ReadDigits(h))
                  <==> Numbers.ReadDigits(w) * Numbers.ReadDigits(h) <= 16000000)
  {
    hide SizeAllowed, Trimmed, DigitRun;
    if PairOf(value, TIMES_BYTE, w, h) {
      SizeExactly(Numbers.ReadDigits(w), Numbers.ReadDigits(h));
    }
  }

  // ---- the record of a served image ----

  /** A verified image for controls the server took. */
  predicate ServedImage(image: Image, c: Controls) {
    && ParseControls(Served(c)) == Some(image.processing)
    && image.nativeWidth > 0 && image.nativeHeight > 0 && image.width > 0 && image.height > 0 && DigestOk(image.digest)
  }

  /** The record of every image the server serves is recognised, with its request unchanged, exactly
      when the controls spell no number with a leading zero. */
  lemma ServedRecord(image: Image, c: Controls, request: ByteString, referenceSent: bool, printable: Printable)
    requires ServedImage(image, c) && Sensible(printable)
    ensures ControlsText(Served(c)) == ProcessingText(image.processing)
    ensures Produced(image)
    ensures MarkerRequest(Marker(image, request, referenceSent, printable)) ==
            if PlainNumbers(image.processing) then Some(request) else None
  {
    ServedSpelling(c, image.processing);
    MarkerRoundTrips(image, request, referenceSent, printable);
  }

  /** 064x64, a size the checks take. */
  const PADDED_SIZE: ByteString := [0x30, 0x36, 0x34, 0x78, 0x36, 0x34]

  const SMALL_IMAGE :=
    Image(Any, 1, 1, 64, 64, ToSize(Geometry.Crop, [0x30, 0x36, 0x34], [0x36, 0x34]), seq(64, _ => 0x61 as Byte))

  lemma SplitByte(b: Byte, rest: ByteString, separator: Byte)
    ensures var parts := Split(rest, separator);
            Split([b] + rest, separator) == if b == separator then [[]] + parts else [[b] + parts[0]] + parts[1..]
  {
    assert ([b] + rest)[1..] == rest;
  }

  lemma ReadDigitsSnoc(d: ByteString, b: Byte)
    ensures Numbers.ReadDigits(d + [b]) == Numbers.ReadDigits(d) * 10 + (b as int - 0x30)
  {
    assert (d + [b])[..|d|] == d;
  }

  lemma PaddedSizeTrimmed()
    ensures Trimmed(PADDED_SIZE) == PADDED_SIZE
  {
    var s := PADDED_SIZE;
    assert s[4..][1] == 0x34 && s[3..][2] == 0x34;
    assert LeadingSpace(s) == 0 && TrailingSpace(s) == 0;
  }

  /** A byte in front of a split text, in front of its first piece. */
  lemma SplitGrows(b: Byte, rest: ByteString, separator: Byte, first: ByteString, others: seq<ByteString>)
    requires Split(rest, separator) == [first] + others && b != separator
    ensures Split([b] + rest, separator) == [[b] + first] + others
  {
    SplitByte(b, rest, separator);
    assert ([first] + others)[1..] == others;
  }

  lemma PaddedSizeSplit()
    ensures Split(PADDED_SIZE, TIMES_BYTE) == [[0x30, 0x36, 0x34]] + [[0x36, 0x34]]
  {
    assert Split([], TIMES_BYTE) == [[]] + [];
    SplitGrows(0x34, [], TIMES_BYTE, [], []);
    assert [0x34 as Byte] + [] == [0x34];
    SplitGrows(0x36, [0x34], TIMES_BYTE, [0x34], []);
    assert [0x36 as Byte] + [0x34] == [0x36, 0x34];
    SplitByte(0x78, [0x36, 0x34], TIMES_BYTE);
    RestOfPaddedSize();
  }

  lemma RestOfPaddedSize()
    requires Split([0x78] + [0x36, 0x34], TIMES_BYTE) == [[]] + [[0x36, 0x34]]
    ensures Split(PADDED_SIZE, TIMES_BYTE) == [[0x30, 0x36, 0x34]] + [[0x36, 0x34]]
  {
    var tail: ByteString := [0x78] + [0x36, 0x34];
    SplitGrows(0x34, tail, TIMES_BYTE, [], [[0x36, 0x34]]);
    SplitGrows(0x36, [0x34] + tail, TIMES_BYTE, [0x34] + [], [[0x36, 0x34]]);
    SplitGrows(0x30, [0x36] + ([0x34] + tail), TIMES_BYTE, [0x36] + ([0x34] + []), [[0x36, 0x34]]);
    assert [0x30 as Byte] + ([0x36] + ([0x34] + tail)) == PADDED_SIZE;
    assert [0x30 as Byte] + ([0x36] + ([0x34] + [])) == [0x30, 0x36, 0x34];
  }

  lemma PaddedNumbers()
    ensures PositiveUint([0x30, 0x36, 0x34]) == Some(64) && PositiveUint([0x36, 0x34]) == Some(64)
  {
    assert Numbers.ReadDigits([]) == 0;
    ReadDigitsSnoc([], 0x30);
    ReadDigitsSnoc([0x30], 0x36);
    ReadDigitsSnoc([0x30, 0x36], 0x34);
    ReadDigitsSnoc([], 0x36);
    ReadDigitsSnoc([0x36], 0x34);
    assert [] + [0x30 as Byte] == [0x30] && [] + [0x36 as Byte] == [0x36];
    assert [0x30 as Byte] + [0x36] == [0x30, 0x36] && [0x30 as Byte, 0x36] + [0x34] == [0x30, 0x36, 0x34];
    assert [0x36 as Byte] + [0x34] == [0x36, 0x34];
  }

  lemma CropTrimmed()
    ensures Trimmed(Ascii("crop")) == Ascii("crop") && Trimmed([]) == []
  {
    var crop := Ascii("crop");
    assert crop[0] == 0x63 && crop[3] == 0x70 && crop[2..][1] == 0x70 && crop[1..][2] == 0x70;
    assert LeadingSpace(crop) == 0 && TrailingSpace(crop) == 0;
  }

  lemma PaddedPair()
    ensures ParsePair(PADDED_SIZE, TIMES_BYTE) == Some(([0x30, 0x36, 0x34], [0x36, 0x34]))
  {
    PaddedSizeTrimmed();
    PaddedSizeSplit();
    PaddedNumbers();
  }

  lemma PaddedSizeParsed()
    ensures ParseControls(Controls([], PADDED_SIZE, Ascii("crop"))) ==
            Some(ToSize(Geometry.Crop, [0x30, 0x36, 0x34], [0x36, 0x34]))
  {
    PaddedPair();
    PaddedNumbers();
    assert SizeAllowed(64, 64);
  }

  lemma PaddedSizeTaken()
    ensures ServedImage(SMALL_IMAGE, Controls([], PADDED_SIZE, Ascii("crop")))
  {
    PaddedSizeTrimmed();
    CropTrimmed();
    PaddedSizeParsed();
    assert Served(Controls([], PADDED_SIZE, Ascii("crop"))) == Controls([], PADDED_SIZE, Ascii("crop"));
  }

  /** A size the checks take and the record's pattern does not. */
  lemma LeadingZeroLost(request: ByteString, referenceSent: bool, printable: Printable)
    requires Sensible(printable)
    ensures ServedImage(SMALL_IMAGE, Controls([], PADDED_SIZE, Ascii("crop")))
    ensures MarkerRequest(Marker(SMALL_IMAGE, request, referenceSent, printable)) == None
  {
    PaddedSizeTaken();
    ServedRecord(SMALL_IMAGE, Controls([], PADDED_SIZE, Ascii("crop")), request, referenceSent, printable);
  }
}
