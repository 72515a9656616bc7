/** Whatever the strict scan accepts is a text of the grammar, rendered byte for byte by the
    tree recognised, well-formed and within the limits. */
module JsonSound {
  import opened Bytes
  import opened JsonGrammar
  import opened JsonParser
  import opened Slices

  // ---- the small scans are exact ----

  lemma {:induction false} SpacesSound(b: ByteString, i: nat)
    requires i <= |b|
    ensures IsSpaces(Cut(b, i, SpacesEnd(b, i)))
    ensures SpacesEnd(b, i) < |b| ==> !IsSpace(b[SpacesEnd(b, i)])
    decreases |b| - i
  {
    if i < |b| && IsSpace(b[i]) {
      SpacesSound(b, i + 1);
      CutCons(b, i, SpacesEnd(b, i));
    }
  }

  lemma CutCons(b: ByteString, i: nat, j: nat)
    requires i < j <= |b|
    ensures Cut(b, i, j) == [b[i]] + Cut(b, i + 1, j)
  {
    CutIs(b, i, j);
    CutIs(b, i + 1, j);
  }

  lemma {:induction false} DigitsSound(b: ByteString, i: nat)
    requires i <= |b|
    ensures IsDigits(Cut(b, i, DigitsEnd(b, i)))
    ensures DigitsEnd(b, i) < |b| ==> !IsDigit(b[DigitsEnd(b, i)])
    ensures i < |b| && IsDigit(b[i]) ==> i < DigitsEnd(b, i)
    decreases |b| - i
  {
    if i < |b| && IsDigit(b[i]) {
      DigitsSound(b, i + 1);
      CutCons(b, i, DigitsEnd(b, i));
    }
  }

  lemma FractionSound(b: ByteString, i: nat)
    requires i <= |b| && ParseFraction(b, i).Got?
    ensures var p := ParseFraction(b, i);
            IsDigits(p.value) && Spans(b, i, RenderFraction(p.value), p.next)
  {
    if Peek(b, i, DOT) {
      var n := DigitsEnd(b, i + 1);
      DigitsSound(b, i + 1);
      SpansOne(b, i, DOT);
      SpansCut(b, i + 1, n);
      SpansJoin(b, i, [DOT], i + 1, Cut(b, i + 1, n), n);
    }
  }

  lemma ExponentSound(b: ByteString, i: nat)
    requires i <= |b| && ParseExponent(b, i).Got?
    ensures var p := ParseExponent(b, i);
            ExponentOk(p.value) && Spans(b, i, RenderExponent(p.value), p.next)
  {
    var p := ParseExponent(b, i);
    if p.value.Exponent? {
      var j := if Peek(b, i + 1, PLUS) || Peek(b, i + 1, MINUS) then i + 2 else i + 1;
      DigitsSound(b, j);
      SpansOne(b, i, b[i]);
      SpansCut(b, i + 1, j);
      SpansCut(b, j, p.next);
      SpansJoin3(b, i, [b[i]], i + 1, Cut(b, i + 1, j), j, Cut(b, j, p.next), p.next);
      CutIs(b, i + 1, j);
    }
  }

  lemma WholeSound(b: ByteString, i: nat)
    requires i <= |b| && ParseWhole(b, i).Got?
    ensures var p := ParseWhole(b, i);
            WholeOk(p.value) && Spans(b, i, p.value, p.next)
  {
    if b[i] != ZERO {
      DigitsSound(b, i);
      SpansCut(b, i, DigitsEnd(b, i));
      AtHead(b, i, Cut(b, i, DigitsEnd(b, i)));
    }
  }

  function RenderSign(minus: bool): ByteString {
    if minus then [MINUS] else []
  }

  lemma NumberSound(b: ByteString, i: nat)
    requires i <= |b| && ParseNumber(b, i).Got?
    ensures var p := ParseNumber(b, i);
            NumberOk(p.value) && Spans(b, i, RenderNumber(p.value), p.next)
  {
    var p := ParseNumber(b, i);
    var j := if Peek(b, i, MINUS) then i + 1 else i;
    var whole := ParseWhole(b, j);
    var fraction := ParseFraction(b, whole.next);
    WholeSound(b, j);
    FractionSound(b, whole.next);
    ExponentSound(b, fraction.next);
    assert Spans(b, i, RenderSign(p.value.minus), j);
    SpansJoin4(b, i, RenderSign(p.value.minus), j, whole.value, whole.next, RenderFraction(fraction.value),
               fraction.next, RenderExponent(p.value.exponent), p.next);
  }

  lemma CharSound(b: ByteString, i: nat)
    requires i < |b| && b[i] != QUOTE && ParseChar(b, i).Got?
    ensures Spans(b, i, RenderChar(ParseChar(b, i).value), ParseChar(b, i).next)
  {
    AtIs(b, i, RenderChar(ParseChar(b, i).value));
  }

  lemma RenderCharsCons(c: StrChar, rest: seq<StrChar>)
    ensures RenderChars([c] + rest) + [QUOTE] == RenderChar(c) + (RenderChars(rest) + [QUOTE])
  {
    assert ([c] + rest)[1..] == rest;
  }

  lemma {:induction false} CharsSound(b: ByteString, i: nat)
    requires i <= |b| && ParseChars(b, i).Got?
    ensures Spans(b, i, RenderChars(ParseChars(b, i).value) + [QUOTE], ParseChars(b, i).next)
    decreases |b| - i
  {
    var p := ParseChars(b, i);
    if b[i] == QUOTE {
      SpansOne(b, i, QUOTE);
      assert RenderChars(p.value) + [QUOTE] == [QUOTE];
    } else {
      var c := ParseChar(b, i);
      var rest := ParseChars(b, c.next);
      CharSound(b, i);
      CharsSound(b, c.next);
      SpansJoin(b, i, RenderChar(c.value), c.next, RenderChars(rest.value) + [QUOTE], rest.next);
      RenderCharsCons(c.value, rest.value);
    }
  }

  lemma StringSound(b: ByteString, i: nat)
    requires i <= |b| && ParseString(b, i).Got?
    ensures Spans(b, i, RenderString(ParseString(b, i).value), ParseString(b, i).next)
  {
    var p := ParseString(b, i);
    CharsSound(b, i + 1);
    SpansOne(b, i, QUOTE);
    SpansJoin(b, i, [QUOTE], i + 1, RenderChars(p.value) + [QUOTE], p.next);
    assert RenderString(p.value) == [QUOTE] + (RenderChars(p.value) + [QUOTE]);
  }

  lemma CharOfParse(b: ByteString, i: nat)
    requires i < |b| && b[i] != QUOTE && ParseChar(b, i).Got?
    ensures CharOk(ParseChar(b, i).value)
  {
  }

  lemma {:induction false} CharsConform(b: ByteString, i: nat)
    requires i <= |b| && ParseChars(b, i).Got?
    ensures CharsOk(ParseChars(b, i).value)
    decreases |b| - i
  {
    if b[i] != QUOTE {
      CharOfParse(b, i);
      CharsConform(b, ParseChar(b, i).next);
    }
  }

  lemma KeySound(b: ByteString, i: nat, k: Key, n: nat)
    requires i <= |b| && ParseKey(b, i) == Got(k, n)
    ensures Spans(b, i, RenderKey(k) + [COLON], n) && KeyOk(k)
  {
    var start := SpacesEnd(b, i);
    var key := ParseString(b, start);
    var colon := SpacesEnd(b, key.next);
    StringSound(b, start);
    CharsConform(b, start + 1);
    Padding(b, i, start, key.next, colon, RenderString(k.chars));
    SpansOne(b, colon, COLON);
    SpansJoin(b, i, RenderKey(k), colon, [COLON], n);
  }

  /** A text with the white space around it. */
  lemma Padding(b: ByteString, i: nat, start: nat, end: nat, next: nat, text: ByteString)
    requires i <= |b| && start == SpacesEnd(b, i) && Spans(b, start, text, end) && next == SpacesEnd(b, end)
    ensures Spans(b, i, Cut(b, i, start) + text + Cut(b, end, next), next)
    ensures IsSpaces(Cut(b, i, start)) && IsSpaces(Cut(b, end, next))
  {
    SpacesSound(b, i);
    SpacesSound(b, end);
    SpansCut(b, i, start);
    SpansCut(b, end, next);
    SpansJoin3(b, i, Cut(b, i, start), start, text, end, Cut(b, end, next), next);
  }

  lemma GapSound(b: ByteString, i: nat, gapEnd: nat, open: Byte, close: Byte)
    requires Peek(b, i, open) && gapEnd == SpacesEnd(b, i + 1) && Peek(b, gapEnd, close)
    ensures Spans(b, i, [open] + Cut(b, i + 1, gapEnd) + [close], gapEnd + 1) && IsSpaces(Cut(b, i + 1, gapEnd))
  {
    SpacesSound(b, i + 1);
    SpansOne(b, i, open);
    SpansCut(b, i + 1, gapEnd);
    SpansOne(b, gapEnd, close);
    SpansJoin3(b, i, [open], i + 1, Cut(b, i + 1, gapEnd), gapEnd, [close], gapEnd + 1);
  }

  /** A value read: its text, its form, and the limits it keeps. */
  predicate Read(b: ByteString, i: nat, v: Value, n: nat, depth: nat, strict: bool) {
    Spans(b, i, Render(v), n) && Ok(v) && Limits(v, depth, strict)
  }

  lemma {:induction false} ValueSound(b: ByteString, i: nat, v: Value, n: nat, depth: nat, strict: bool)
    requires i <= |b| && ParseValue(b, i, depth, strict) == Got(v, n)
    ensures Read(b, i, v, n, depth, strict)
    decreases |b| - i, 2
  {
    if b[i] == OBJECT_OPEN {
      ObjectSound(b, i, v, n, depth, strict);
    } else if b[i] == ARRAY_OPEN {
      ArraySound(b, i, v, n, depth, strict);
    } else {
      ScalarSound(b, i, v, n, depth, strict);
    }
  }

  lemma ScalarSound(b: ByteString, i: nat, v: Value, n: nat, depth: nat, strict: bool)
    requires i < |b| && b[i] != OBJECT_OPEN && b[i] != ARRAY_OPEN && ParseValue(b, i, depth, strict) == Got(v, n)
    ensures Read(b, i, v, n, depth, strict)
  {
    hide ParseString, ParseNumber, ParseLiteral, Read;
    if b[i] == QUOTE {
      TextSound(b, i, depth, strict);
    } else if b[i] == MINUS || IsDigit(b[i]) {
      NumeralSound(b, i, depth, strict);
    } else {
      LiteralSound(b, i, if b[i] == 0x74 then True else if b[i] == 0x66 then False else Null, depth, strict);
    }
  }

  lemma TextSound(b: ByteString, i: nat, depth: nat, strict: bool)
    requires Peek(b, i, QUOTE) && ParseString(b, i).Got?
    ensures Read(b, i, Str(ParseString(b, i).value), ParseString(b, i).next, depth, strict)
  {
    hide RenderString, ParseChars;
    StringSound(b, i);
    CharsConform(b, i + 1);
  }

  lemma NumeralSound(b: ByteString, i: nat, depth: nat, strict: bool)
    requires i <= |b| && ParseNumber(b, i).Got?
    ensures Read(b, i, Num(ParseNumber(b, i).value), ParseNumber(b, i).next, depth, strict)
  {
    hide RenderNumber, ParseNumber, NumberOk;
    NumberSound(b, i);
  }

  lemma LiteralSound(b: ByteString, i: nat, l: Literal, depth: nat, strict: bool)
    requires i <= |b| && ParseLiteral(b, i, l).Got?
    ensures Read(b, i, ParseLiteral(b, i, l).value, ParseLiteral(b, i, l).next, depth, strict)
  {
  }

  lemma {:induction false} PaddedSound(b: ByteString, i: nat, p: Padded, n: nat, depth: nat, strict: bool)
    requires i <= |b| && ParsePadded(b, i, depth, strict) == Got(p, n)
    ensures Spans(b, i, RenderPadded(p), n) && SpacedOk(p) && Ok(p.value) && Limits(p.value, depth, strict)
    decreases |b| - i, 3
  {
    var start := SpacesEnd(b, i);
    var v := ParseValue(b, start, depth, strict);
    ValueSound(b, start, v.value, v.next, depth, strict);
    Padding(b, i, start, v.next, n, Render(p.value));
  }

  lemma {:induction false} ArraySound(b: ByteString, i: nat, v: Value, n: nat, depth: nat, strict: bool)
    requires Peek(b, i, ARRAY_OPEN) && ParseArray(b, i, depth, strict) == Got(v, n)
    ensures Read(b, i, v, n, depth, strict)
    decreases |b| - i, 1
  {
    var gapEnd := SpacesEnd(b, i + 1);
    if Peek(b, gapEnd, ARRAY_CLOSE) {
      GapSound(b, i, gapEnd, ARRAY_OPEN, ARRAY_CLOSE);
    } else {
      ItemsSound(b, i + 1, v.items, n, depth + 1, strict);
      ArrayLimits(v.items, depth, strict);
      SpansOne(b, i, ARRAY_OPEN);
      SpansJoin(b, i, [ARRAY_OPEN], i + 1, RenderItems(v.items), n);
    }
  }

  lemma {:induction false} ItemsSound(b: ByteString, i: nat, items: Items, n: nat, depth: nat, strict: bool)
    requires i <= |b| && ParseItems(b, i, depth, strict) == Got(items, n)
    ensures Spans(b, i, RenderItems(items), n) && ItemsOk(items) && ItemsLimits(items, depth, strict)
    decreases |b| - i, 4
  {
    hide ParsePadded, RenderPadded, Ok, SpacedOk, Limits, Spans;
    var end := ParsePadded(b, i, depth, strict).next;
    PaddedSound(b, i, items.item, end, depth, strict);
    ItemLimits(items, depth, strict);
    if items.Item? {
      ItemsSound(b, end + 1, items.rest, n, depth, strict);
      SpansOne(b, end, COMMA);
      SpansJoin(b, end, [COMMA], end + 1, RenderItems(items.rest), n);
    } else {
      SpansOne(b, end, ARRAY_CLOSE);
    }
    SpansJoin(b, i, RenderPadded(items.item), end, RenderItemsTail(items), n);
  }

  lemma {:induction false} ObjectSound(b: ByteString, i: nat, v: Value, n: nat, depth: nat, strict: bool)
    requires Peek(b, i, OBJECT_OPEN) && ParseObject(b, i, depth, strict) == Got(v, n)
    ensures Read(b, i, v, n, depth, strict)
    decreases |b| - i, 1
  {
    hide Spans, ParseMembers, MembersOk, RenderMembers;
    var gapEnd := SpacesEnd(b, i + 1);
    if Peek(b, gapEnd, OBJECT_CLOSE) {
      GapSound(b, i, gapEnd, OBJECT_OPEN, OBJECT_CLOSE);
    } else {
      MembersSound(b, i + 1, v.members, n, depth + 1, strict, {});
      ObjectLimits(v.members, depth, strict);
      SpansOne(b, i, OBJECT_OPEN);
      SpansJoin(b, i, [OBJECT_OPEN], i + 1, RenderMembers(v.members), n);
    }
  }

  lemma {:induction false} MembersSound(b: ByteString, i: nat, ms: Members, n: nat,
                                        depth: nat, strict: bool, seen: set<ByteString>)
    requires i <= |b| && ParseMembers(b, i, depth, strict, seen) == Got(ms, n)
    ensures Spans(b, i, RenderMembers(ms), n) && MembersOk(ms) && MembersLimits(ms, depth, strict, seen)
    decreases |b| - i, 4
  {
    var start := ParseKey(b, i).next;
    var _ := MemberParts(b, start, ParseKey(b, i).value, ms, n, depth, strict, seen);
    KeySound(b, i, ms.key, start);
    MemberSound(b, start, ms, n, depth, strict, seen);
    SpansJoin(b, i, RenderKey(ms.key) + [COLON], start, RenderPadded(ms.item) + RenderMembersTail(ms), n);
    Regroup(RenderKey(ms.key) + [COLON], RenderPadded(ms.item), RenderMembersTail(ms));
  }

  lemma Regroup(s: ByteString, t: ByteString, u: ByteString)
    ensures s + (t + u) == s + t + u
  {
  }

  /** What an accepted member was read from. */
  lemma MemberParts(b: ByteString, i: nat, k: Key, ms: Members, n: nat, depth: nat, strict: bool, seen: set<ByteString>)
    returns (end: nat)
    requires i <= |b| && ParseMember(b, i, k, depth, strict, seen) == Got(ms, n)
    ensures i <= end < |b| && ms.key == k
    ensures var key := Decode(k.chars);
            && ParsePadded(b, i, ValueDepth(key, depth), strict && !Deferred(key, depth)) == Got(ms.item, end)
            && (ms.Member? ==>
                  Peek(b, end, COMMA) && ParseMembers(b, end + 1, depth, strict, seen + {key}) == Got(ms.rest, n))
            && (ms.LastMember? ==> Peek(b, end, OBJECT_CLOSE) && n == end + 1)
  {
    hide ParsePadded, ParseMembers, Decode, Deferred;
    var key := Decode(k.chars);
    end := ParsePadded(b, i, ValueDepth(key, depth), strict && !Deferred(key, depth)).next;
  }

  lemma {:induction false} MemberSound(b: ByteString, i: nat, ms: Members, n: nat,
                                       depth: nat, strict: bool, seen: set<ByteString>)
    requires i <= |b| && ParseMember(b, i, ms.key, depth, strict, seen) == Got(ms, n) && KeyOk(ms.key)
    requires strict ==> Decode(ms.key.chars) !in seen
    ensures Spans(b, i, RenderPadded(ms.item) + RenderMembersTail(ms), n)
    ensures MembersOk(ms) && MembersLimits(ms, depth, strict, seen)
    decreases |b| - i, 4
  {
    var end := MemberParts(b, i, ms.key, ms, n, depth, strict, seen);
    PartsSpan(b, i, ms, end, n, Decode(ms.key.chars), depth, strict, seen);
    PartsKept(b, i, ms, end, n, Decode(ms.key.chars), depth, strict, seen);
  }

  lemma {:induction false} PartsSpan(b: ByteString, i: nat, ms: Members, end: nat, n: nat, key: ByteString,
                                     depth: nat, strict: bool, seen: set<ByteString>)
    requires KeyOk(ms.key) && key == Decode(ms.key.chars) && (strict ==> key !in seen)
    requires i <= end < |b|
    requires ParsePadded(b, i, ValueDepth(key, depth), strict && !Deferred(key, depth)) == Got(ms.item, end)
    requires ms.Member? ==>
               Peek(b, end, COMMA) && ParseMembers(b, end + 1, depth, strict, seen + {key}) == Got(ms.rest, n)
    requires ms.LastMember? ==> Peek(b, end, OBJECT_CLOSE) && n == end + 1
    ensures Spans(b, i, RenderPadded(ms.item) + RenderMembersTail(ms), n)
    decreases |b| - i, 4, 0
  {
    hide *;
    PaddedSound(b, i, ms.item, end, ValueDepth(key, depth), strict && !Deferred(key, depth));
    if ms.Member? {
      MembersSound(b, end + 1, ms.rest, n, depth, strict, seen + {key});
    }
    MemberJoins(b, i, ms, end, n);
  }

  lemma {:induction false} PartsKept(b: ByteString, i: nat, ms: Members, end: nat, n: nat, key: ByteString,
                                     depth: nat, strict: bool, seen: set<ByteString>)
    requires KeyOk(ms.key) && key == Decode(ms.key.chars) && (strict ==> key !in seen)
    requires i <= end < |b|
    requires ParsePadded(b, i, ValueDepth(key, depth), strict && !Deferred(key, depth)) == Got(ms.item, end)
    requires ms.Member? ==>
               Peek(b, end, COMMA) && ParseMembers(b, end + 1, depth, strict, seen + {key}) == Got(ms.rest, n)
    requires ms.LastMember? ==> Peek(b, end, OBJECT_CLOSE) && n == end + 1
    ensures MembersOk(ms) && MembersLimits(ms, depth, strict, seen)
    decreases |b| - i, 4, 0
  {
    hide *;
    PaddedSound(b, i, ms.item, end, ValueDepth(key, depth), strict && !Deferred(key, depth));
    if ms.Member? {
      MembersSound(b, end + 1, ms.rest, n, depth, strict, seen + {key});
    }
    MemberKept(ms, depth, strict, seen);
  }

  lemma MemberKept(ms: Members, depth: nat, strict: bool, seen: set<ByteString>)
    requires KeyOk(ms.key) && SpacedOk(ms.item) && Ok(ms.item.value)
    requires var key := Decode(ms.key.chars);
             && (strict ==> key !in seen)
             && Limits(ms.item.value, ValueDepth(key, depth), strict && !Deferred(key, depth))
             && (ms.Member? ==> MembersOk(ms.rest) && MembersLimits(ms.rest, depth, strict, seen + {key}))
    ensures MembersOk(ms) && MembersLimits(ms, depth, strict, seen)
  {
    MemberLimits(ms, depth, strict, seen);
  }

  lemma MemberJoins(b: ByteString, i: nat, ms: Members, end: nat, n: nat)
    requires Spans(b, i, RenderPadded(ms.item), end)
    requires ms.Member? ==> Peek(b, end, COMMA) && Spans(b, end + 1, RenderMembers(ms.rest), n)
    requires ms.LastMember? ==> Peek(b, end, OBJECT_CLOSE) && n == end + 1
    ensures Spans(b, i, RenderPadded(ms.item) + RenderMembersTail(ms), n)
  {
    if ms.Member? {
      SpansOne(b, end, COMMA);
      SpansJoin(b, end, [COMMA], end + 1, RenderMembers(ms.rest), n);
    } else {
      SpansOne(b, end, OBJECT_CLOSE);
    }
    SpansJoin(b, i, RenderPadded(ms.item), end, RenderMembersTail(ms), n);
  }
}
