/** Every text of the grammar within the limits is accepted, with the tree it was rendered from. */
module JsonComplete {
  import opened Bytes
  import opened JsonGrammar
  import opened JsonParser
  import opened JsonSound
  import opened Slices

  /** No white space goes on at n. */
  predicate SpacesStop(b: ByteString, n: nat) { n < |b| ==> !IsSpace(b[n]) }

  predicate DigitsStop(b: ByteString, n: nat) { n < |b| ==> !IsDigit(b[n]) }

  lemma {:induction false} SpacesComplete(b: ByteString, i: nat, s: ByteString, n: nat)
    requires Spans(b, i, s, n) && IsSpaces(s) && SpacesStop(b, n)
    ensures SpacesEnd(b, i) == n
    decreases |s|
  {
    if s != [] {
      SpacesComplete(b, i + 1, s[1..], n);
    }
  }

  lemma {:induction false} DigitsComplete(b: ByteString, i: nat, s: ByteString, n: nat)
    requires Spans(b, i, s, n) && IsDigits(s) && DigitsStop(b, n)
    ensures DigitsEnd(b, i) == n
    decreases |s|
  {
    if s != [] {
      DigitsComplete(b, i + 1, s[1..], n);
    }
  }

  lemma CharComplete(b: ByteString, i: nat, c: StrChar, n: nat)
    requires Spans(b, i, RenderChar(c), n) && CharOk(c)
    ensures i < |b| && b[i] != QUOTE && ParseChar(b, i) == Got(c, n)
  {
    var s := RenderChar(c);
    AtIs(b, i, s);
    assert forall k :: 0 <= k < |s| ==> b[i + k] == b[i..i + |s|][k] == s[k];
    match c
    case Raw(_) =>
    case Escaped(letter) =>
      assert b[i + 1] == s[1] == letter;
    case Unicode(h0, h1, h2, h3) =>
      assert b[i + 1] == s[1] && b[i + 2] == s[2] && b[i + 3] == s[3] && b[i + 4] == s[4] && b[i + 5] == s[5];
      assert EscapeValue(LETTER_U) == -1;
  }

  lemma {:induction false} CharsComplete(b: ByteString, i: nat, cs: seq<StrChar>, n: nat)
    requires Spans(b, i, RenderChars(cs) + [QUOTE], n) && CharsOk(cs)
    ensures ParseChars(b, i) == Got(cs, n)
    decreases |cs|
  {
    if cs == [] {
      AtHead(b, i, [QUOTE]);
    } else {
      var tail := RenderChars(cs[1..]) + [QUOTE];
      Regroup(RenderChar(cs[0]), RenderChars(cs[1..]), [QUOTE]);
      var j := SpansSplit(b, i, RenderChar(cs[0]), tail, n);
      CharComplete(b, i, cs[0], j);
      CharsComplete(b, j, cs[1..], n);
      assert [cs[0]] + cs[1..] == cs;
    }
  }

  lemma StringComplete(b: ByteString, i: nat, cs: seq<StrChar>, n: nat)
    requires Spans(b, i, RenderString(cs), n) && CharsOk(cs)
    ensures ParseString(b, i) == Got(cs, n) && Peek(b, i, QUOTE)
  {
    Regroup([QUOTE], RenderChars(cs), [QUOTE]);
    var j := SpansSplit(b, i, [QUOTE], RenderChars(cs) + [QUOTE], n);
    AtHead(b, i, [QUOTE]);
    CharsComplete(b, j, cs, n);
  }

  /** A number must not run on into the next byte. */
  predicate Stops(b: ByteString, n: nat) {
    n < |b| ==> !IsDigit(b[n]) && b[n] != DOT && !IsExponentMark(b[n])
  }

  /** Nothing that would go on with the whole or fractional digits. */
  predicate FractionStops(b: ByteString, n: nat) {
    n < |b| ==> !IsDigit(b[n]) && b[n] != DOT
  }

  lemma ExponentComplete(b: ByteString, i: nat, e: Exponent, n: nat)
    requires Spans(b, i, RenderExponent(e), n) && ExponentOk(e) && Stops(b, n)
    ensures ParseExponent(b, i) == Got(e, n) && FractionStops(b, i)
  {
    if e.Exponent? {
      var j, k := SpansSplit3(b, i, [e.mark], e.sign, e.digits, n);
      AtHead(b, i, [e.mark]);
      DigitsComplete(b, k, e.digits, n);
      CutSpans(b, j, e.sign, k);
      CutSpans(b, k, e.digits, n);
      AtHead(b, k, e.digits);
      if e.sign != [] {
        AtHead(b, j, e.sign);
      }
    }
  }

  lemma FractionComplete(b: ByteString, i: nat, fraction: ByteString, n: nat)
    requires Spans(b, i, RenderFraction(fraction), n) && IsDigits(fraction) && FractionStops(b, n)
    ensures ParseFraction(b, i) == Got(fraction, n) && DigitsStop(b, i)
  {
    if fraction != [] {
      var j := SpansSplit(b, i, [DOT], fraction, n);
      AtHead(b, i, [DOT]);
      DigitsComplete(b, j, fraction, n);
      CutSpans(b, j, fraction, n);
      AtHead(b, j, fraction);
    }
  }

  lemma WholeComplete(b: ByteString, i: nat, whole: ByteString, n: nat)
    requires Spans(b, i, whole, n) && WholeOk(whole) && DigitsStop(b, n)
    ensures ParseWhole(b, i) == Got(whole, n) && i < |b| && IsDigit(b[i])
  {
    AtHead(b, i, whole);
    if whole != [ZERO] {
      DigitsComplete(b, i, whole, n);
      CutSpans(b, i, whole, n);
    }
  }

  lemma NumberComplete(b: ByteString, i: nat, x: Number, n: nat)
    requires Spans(b, i, RenderNumber(x), n) && NumberOk(x) && Stops(b, n)
    ensures ParseNumber(b, i) == Got(x, n)
    ensures i < |b| && (b[i] == MINUS || IsDigit(b[i]))
  {
    var j, k, m := SpansSplit4(b, i, RenderSign(x.minus), x.whole, RenderFraction(x.fraction),
                               RenderExponent(x.exponent), n);
    ExponentComplete(b, m, x.exponent, n);
    FractionComplete(b, k, x.fraction, m);
    WholeComplete(b, j, x.whole, k);
    SignComplete(b, i, x.minus, j);
    NumberAssembles(b, i, x, j, k, m, n);
  }

  lemma SignComplete(b: ByteString, i: nat, minus: bool, j: nat)
    requires Spans(b, i, RenderSign(minus), j) && j < |b| && IsDigit(b[j])
    ensures Peek(b, i, MINUS) == minus && j == if minus then i + 1 else i
  {
    if minus {
      AtHead(b, i, [MINUS]);
    }
  }

  lemma NumberAssembles(b: ByteString, i: nat, x: Number, j: nat, k: nat, m: nat, n: nat)
    requires Peek(b, i, MINUS) == x.minus && j == (if x.minus then i + 1 else i) <= |b|
    requires ParseWhole(b, j) == Got(x.whole, k)
    requires k <= |b| && ParseFraction(b, k) == Got(x.fraction, m)
    requires m <= |b| && ParseExponent(b, m) == Got(x.exponent, n)
    ensures ParseNumber(b, i) == Got(x, n)
  {
  }

  lemma RenderStart(v: Value)
    requires Ok(v)
    ensures Render(v) != [] && !IsSpace(Render(v)[0])
    ensures Render(v)[0] != ARRAY_CLOSE && Render(v)[0] != OBJECT_CLOSE
  {
    match v
    case Num(n) =>
      assert n.minus ==> RenderNumber(n)[0] == MINUS;
      assert !n.minus ==> RenderNumber(n)[0] == n.whole[0];
    case Array(items) => assert Render(v)[0] == ARRAY_OPEN;
    case Object(ms) => assert Render(v)[0] == OBJECT_OPEN;
    case _ =>
  }

  lemma LiteralComplete(b: ByteString, i: nat, l: Literal, n: nat, depth: nat, strict: bool)
    requires Spans(b, i, RenderLiteral(l), n)
    ensures i < |b| && ParseValue(b, i, depth, strict) == Got(Lit(l), n)
  {
    AtHead(b, i, RenderLiteral(l));
  }

  lemma NumberValueComplete(b: ByteString, i: nat, x: Number, n: nat, depth: nat, strict: bool)
    requires Spans(b, i, RenderNumber(x), n) && NumberOk(x) && Stops(b, n)
    ensures i < |b| && ParseValue(b, i, depth, strict) == Got(Num(x), n)
  {
    NumberComplete(b, i, x, n);
  }

  lemma StringValueComplete(b: ByteString, i: nat, cs: seq<StrChar>, n: nat, depth: nat, strict: bool)
    requires Spans(b, i, RenderString(cs), n) && CharsOk(cs)
    ensures i < |b| && ParseValue(b, i, depth, strict) == Got(Str(cs), n)
  {
    StringComplete(b, i, cs, n);
  }

  lemma GapComplete(b: ByteString, i: nat, open: Byte, gap: ByteString, close: Byte, n: nat) returns (gapEnd: nat)
    requires Spans(b, i, [open] + gap + [close], n) && IsSpaces(gap) && !IsSpace(close)
    ensures Peek(b, i, open) && SpacesEnd(b, i + 1) == gapEnd && Peek(b, gapEnd, close) && n == gapEnd + 1
    ensures Cut(b, i + 1, gapEnd) == gap
  {
    var j;
    j, gapEnd := SpansSplit3(b, i, [open], gap, [close], n);
    AtHead(b, i, [open]);
    AtHead(b, gapEnd, [close]);
    SpacesComplete(b, j, gap, gapEnd);
    CutSpans(b, j, gap, gapEnd);
  }

  lemma EmptyArrayComplete(b: ByteString, i: nat, gap: ByteString, n: nat, depth: nat, strict: bool)
    requires Spans(b, i, [ARRAY_OPEN] + gap + [ARRAY_CLOSE], n) && IsSpaces(gap) && depth < MAX_DEPTH
    ensures i < |b| && ParseValue(b, i, depth, strict) == Got(EmptyArray(gap), n)
  {
    var _ := GapComplete(b, i, ARRAY_OPEN, gap, ARRAY_CLOSE, n);
  }

  lemma EmptyObjectComplete(b: ByteString, i: nat, gap: ByteString, n: nat, depth: nat, strict: bool)
    requires Spans(b, i, [OBJECT_OPEN] + gap + [OBJECT_CLOSE], n) && IsSpaces(gap) && depth < MAX_DEPTH
    ensures i < |b| && ParseValue(b, i, depth, strict) == Got(EmptyObject(gap), n)
  {
    var _ := GapComplete(b, i, OBJECT_OPEN, gap, OBJECT_CLOSE, n);
  }

  lemma {:induction false} ValueComplete(b: ByteString, i: nat, v: Value, n: nat, depth: nat, strict: bool)
    requires Spans(b, i, Render(v), n)
    requires Ok(v)
    requires Limits(v, depth, strict)
    requires v.Num? ==> Stops(b, n)
    ensures i < |b| && ParseValue(b, i, depth, strict) == Got(v, n)
    decreases v, 0
  {
    match v
    case Lit(l) => LiteralComplete(b, i, l, n, depth, strict);
    case Num(x) => NumberValueComplete(b, i, x, n, depth, strict);
    case Str(cs) => StringValueComplete(b, i, cs, n, depth, strict);
    case EmptyArray(gap) => EmptyArrayComplete(b, i, gap, n, depth, strict);
    case EmptyObject(gap) => EmptyObjectComplete(b, i, gap, n, depth, strict);
    case Array(items) => ArrayComplete(b, i, items, n, depth, strict);
    case Object(ms) => ObjectComplete(b, i, ms, n, depth, strict);
  }

  lemma {:induction false} ArrayComplete(b: ByteString, i: nat, items: Items, n: nat, depth: nat, strict: bool)
    requires Spans(b, i, [ARRAY_OPEN] + RenderItems(items), n) && ItemsOk(items)
    requires depth < MAX_DEPTH && Limits(Array(items), depth, strict)
    ensures i < |b| && ParseValue(b, i, depth, strict) == Got(Array(items), n)
    decreases items, 3
  {
    var j := SpansSplit(b, i, [ARRAY_OPEN], RenderItems(items), n);
    AtHead(b, i, [ARRAY_OPEN]);
    ArrayLimits(items, depth, strict);
    ItemsComplete(b, j, items, n, depth + 1, strict);
  }

  lemma {:induction false} ObjectComplete(b: ByteString, i: nat, ms: Members, n: nat, depth: nat, strict: bool)
    requires Spans(b, i, [OBJECT_OPEN] + RenderMembers(ms), n) && MembersOk(ms)
    requires depth < MAX_DEPTH && Limits(Object(ms), depth, strict)
    ensures i < |b| && ParseValue(b, i, depth, strict) == Got(Object(ms), n)
    decreases ms, 4
  {
    var j := SpansSplit(b, i, [OBJECT_OPEN], RenderMembers(ms), n);
    AtHead(b, i, [OBJECT_OPEN]);
    ObjectLimits(ms, depth, strict);
    MembersComplete(b, j, ms, n, depth + 1, strict, {});
  }

  /** The end of the input or a byte that no value, number or space goes on with. */
  predicate Fence(b: ByteString, n: nat) {
    n <= |b| && (n < |b| ==> b[n] == COMMA || b[n] == ARRAY_CLOSE || b[n] == OBJECT_CLOSE)
  }

  /** The white space of a padded value, and that its value does not run on. */
  lemma PaddingComplete(b: ByteString, i: nat, p: Padded, start: nat, end: nat, n: nat)
    requires SpacedOk(p) && Ok(p.value)
    requires Spans(b, i, p.lead, start) && Spans(b, start, Render(p.value), end) && Spans(b, end, p.trail, n)
    requires Fence(b, n)
    ensures SpacesEnd(b, i) == start && SpacesEnd(b, end) == n && Stops(b, end)
    ensures start < |b| && b[start] != ARRAY_CLOSE
  {
    RenderStart(p.value);
    AtHead(b, start, Render(p.value));
    SpacesComplete(b, i, p.lead, start);
    SpacesComplete(b, end, p.trail, n);
    if p.trail != [] {
      AtHead(b, end, p.trail);
    }
  }

  lemma PaddedAssembles(b: ByteString, i: nat, p: Padded, start: nat, end: nat, n: nat, depth: nat, strict: bool)
    requires i <= |b| && SpacesEnd(b, i) == start && ParseValue(b, start, depth, strict) == Got(p.value, end)
    requires SpacesEnd(b, end) == n && Spans(b, i, p.lead, start) && Spans(b, end, p.trail, n)
    ensures ParsePadded(b, i, depth, strict) == Got(p, n)
  {
    CutSpans(b, i, p.lead, start);
    CutSpans(b, end, p.trail, n);
  }

  lemma {:induction false} PaddedComplete(b: ByteString, i: nat, p: Padded, n: nat, depth: nat, strict: bool)
    requires Spans(b, i, RenderPadded(p), n)
    requires SpacedOk(p) && Ok(p.value)
    requires Limits(p.value, depth, strict)
    requires Fence(b, n)
    ensures i <= |b| && ParsePadded(b, i, depth, strict) == Got(p, n)
    ensures SpacesEnd(b, i) < |b| && b[SpacesEnd(b, i)] != ARRAY_CLOSE
    decreases p, 1
  {
    var start, end := SpansSplit3(b, i, p.lead, Render(p.value), p.trail, n);
    PaddingComplete(b, i, p, start, end, n);
    ValueComplete(b, start, p.value, end, depth, strict);
    PaddedAssembles(b, i, p, start, end, n, depth, strict);
  }

  lemma {:induction false} ItemsComplete(b: ByteString, i: nat, items: Items, n: nat, depth: nat, strict: bool)
    requires Spans(b, i, RenderItems(items), n) && ItemsOk(items) && ItemsLimits(items, depth, strict)
    ensures i <= |b| && ParseItems(b, i, depth, strict) == Got(items, n)
    ensures SpacesEnd(b, i) < |b| && b[SpacesEnd(b, i)] != ARRAY_CLOSE
    decreases items, 2
  {
    var end := SpansSplit(b, i, RenderPadded(items.item), RenderItemsTail(items), n);
    ItemsTailComplete(b, end, items, n);
    ItemLimits(items, depth, strict);
    PaddedComplete(b, i, items.item, end, depth, strict);
    if items.Item? {
      ItemsComplete(b, end + 1, items.rest, n, depth, strict);
    }
    ItemsAssemble(b, i, items, end, n, depth, strict);
  }

  lemma ItemsTailComplete(b: ByteString, end: nat, items: Items, n: nat)
    requires Spans(b, end, RenderItemsTail(items), n)
    ensures Fence(b, end)
    ensures items.LastItem? ==> Peek(b, end, ARRAY_CLOSE) && n == end + 1
    ensures items.Item? ==> Peek(b, end, COMMA) && Spans(b, end + 1, RenderItems(items.rest), n)
  {
    AtHead(b, end, RenderItemsTail(items));
    if items.Item? {
      var _ := SpansSplit(b, end, [COMMA], RenderItems(items.rest), n);
    }
  }

  lemma ItemsAssemble(b: ByteString, i: nat, items: Items, end: nat, n: nat, depth: nat, strict: bool)
    requires i <= |b| && ParsePadded(b, i, depth, strict) == Got(items.item, end)
    requires items.LastItem? ==> Peek(b, end, ARRAY_CLOSE) && n == end + 1
    requires items.Item? ==> Peek(b, end, COMMA) && ParseItems(b, end + 1, depth, strict) == Got(items.rest, n)
    ensures ParseItems(b, i, depth, strict) == Got(items, n)
  {
  }

  /** Scanning a key from what its parts do. */
  lemma KeyAssembles(b: ByteString, i: nat, start: nat, k: Key, end: nat, colon: nat)
    requires i <= |b| && SpacesEnd(b, i) == start && ParseString(b, start) == Got(k.chars, end)
    requires SpacesEnd(b, end) == colon && Peek(b, colon, COLON)
    requires k.lead == Cut(b, i, start) && k.trail == Cut(b, end, colon)
    ensures ParseKey(b, i) == Got(k, colon + 1)
  {
  }

  lemma KeyComplete(b: ByteString, i: nat, k: Key, n: nat)
    requires Spans(b, i, RenderKey(k) + [COLON], n) && KeyOk(k)
    ensures i <= |b| && ParseKey(b, i) == Got(k, n) && Peek(b, SpacesEnd(b, i), QUOTE)
  {
    var start, end, colon := SpansSplit4(b, i, k.lead, RenderString(k.chars), k.trail, [COLON], n);
    AtHead(b, colon, [COLON]);
    StringComplete(b, start, k.chars, end);
    SpacesComplete(b, i, k.lead, start);
    SpacesComplete(b, end, k.trail, colon);
    CutSpans(b, i, k.lead, start);
    CutSpans(b, end, k.trail, colon);
    KeyAssembles(b, i, start, k, end, colon);
  }

  lemma MembersTailComplete(b: ByteString, end: nat, ms: Members, n: nat)
    requires Spans(b, end, RenderMembersTail(ms), n)
    ensures Fence(b, end)
    ensures ms.LastMember? ==> Peek(b, end, OBJECT_CLOSE) && n == end + 1
    ensures ms.Member? ==> Peek(b, end, COMMA) && Spans(b, end + 1, RenderMembers(ms.rest), n)
  {
    AtHead(b, end, RenderMembersTail(ms));
    if ms.Member? {
      var _ := SpansSplit(b, end, [COMMA], RenderMembers(ms.rest), n);
    }
  }

  lemma {:induction false} MembersComplete(b: ByteString, i: nat, ms: Members, n: nat,
                                           depth: nat, strict: bool, seen: set<ByteString>)
    requires Spans(b, i, RenderMembers(ms), n) && MembersOk(ms) && MembersLimits(ms, depth, strict, seen)
    ensures i <= |b| && ParseMembers(b, i, depth, strict, seen) == Got(ms, n)
    ensures Peek(b, SpacesEnd(b, i), QUOTE)
    decreases ms, 3
  {
    Regroup(RenderKey(ms.key) + [COLON], RenderPadded(ms.item), RenderMembersTail(ms));
    var start := SpansSplit(b, i, RenderKey(ms.key) + [COLON], RenderPadded(ms.item) + RenderMembersTail(ms), n);
    KeyComplete(b, i, ms.key, start);
    MemberLimits(ms, depth, strict, seen);
    MemberComplete(b, start, ms, n, depth, strict, seen);
  }

  lemma {:induction false} MemberComplete(b: ByteString, i: nat, ms: Members, n: nat,
                                          depth: nat, strict: bool, seen: set<ByteString>)
    requires Spans(b, i, RenderPadded(ms.item) + RenderMembersTail(ms), n)
    requires MembersOk(ms) && MembersLimits(ms, depth, strict, seen)
    ensures i <= |b| && ParseMember(b, i, ms.key, depth, strict, seen) == Got(ms, n)
    decreases ms, 2
  {
    hide ParsePadded, ParseMembers, ParseMember, RenderPadded, Decode;
    var key := Decode(ms.key.chars);
    var end := SpansSplit(b, i, RenderPadded(ms.item), RenderMembersTail(ms), n);
    MembersTailComplete(b, end, ms, n);
    MemberLimits(ms, depth, strict, seen);
    PaddedComplete(b, i, ms.item, end, ValueDepth(key, depth), strict && !Deferred(key, depth));
    if ms.Member? {
      MembersComplete(b, end + 1, ms.rest, n, depth, strict, seen + {key});
    }
    MemberAssembles(b, i, ms, end, n, depth, strict, seen);
  }

  lemma MemberAssembles(b: ByteString, i: nat, ms: Members, end: nat, n: nat,
                        depth: nat, strict: bool, seen: set<ByteString>)
    requires var key := Decode(ms.key.chars);
             && i <= |b|
             && ParsePadded(b, i, ValueDepth(key, depth), strict && !Deferred(key, depth)) == Got(ms.item, end)
             && (ms.LastMember? ==> Peek(b, end, OBJECT_CLOSE) && n == end + 1)
             && (ms.Member? ==>
                   Peek(b, end, COMMA) && ParseMembers(b, end + 1, depth, strict, seen + {key}) == Got(ms.rest, n))
    ensures ParseMember(b, i, ms.key, depth, strict, seen) == Got(ms, n)
  {
    hide ParsePadded, ParseMembers, Decode;
  }
}
