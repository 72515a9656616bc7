/** Texts in well-formed UTF-8 (RFC 3629 sections 3 and 4): every key and string of an accepted one
    is well-formed too, so that repairing the bytes of a string changes none of them. */
module JsonUnicode {
  import opened Bytes
  import opened JsonExact
  import opened JsonGrammar
  import opened JsonParser
  import Utf = TerminalStream

  // ---- well-formed UTF-8, byte by byte ----

  /** Between sequences; within one, the next byte bounded and so many left; or broken. */
  datatype Place = Between | Within(left: nat, low: Byte, high: Byte) | Broken

  function Next(p: Place, b: Byte): Place {
    match p
    case Between =>
      if b < 0x80 then Between
      else if Utf.Length(b) == 1 then Broken
      else Within(Utf.Length(b) - 1, Lowest(b), Highest(b))
    case Within(left, low, high) =>
      if !(low <= b <= high) then Broken else if left <= 1 then Between else Within(left - 1, 0x80, 0xbf)
    case Broken => Broken
  }

  /** The bytes that can stand second. */
  function Lowest(first: Byte): Byte { if first == 0xe0 then 0xa0 else if first == 0xf0 then 0x90 else 0x80 }
  function Highest(first: Byte): Byte { if first == 0xed then 0x9f else if first == 0xf4 then 0x8f else 0xbf }

  function After(p: Place, s: ByteString): Place
    decreases |s|
  {
    if s == [] then p else After(Next(p, s[0]), s[1..])
  }

  predicate WellFormed(s: ByteString) { After(Between, s) == Between }

  /** One valid sequence after another, each judged as the terminal writer judges it. */
  predicate AllValid(s: ByteString)
    decreases |s|
  {
    s == [] || (Utf.StartsValid(s) && AllValid(s[Utf.Length(s[0])..]))
  }

  lemma {:induction false} AfterJoin(p: Place, s: ByteString, t: ByteString)
    ensures After(p, s + t) == After(After(p, s), t)
    decreases |s|
  {
    if s == [] {
      assert s + t == t;
    } else {
      AfterJoin(Next(p, s[0]), s[1..], t);
      assert (s + t)[1..] == s[1..] + t;
    }
  }

  lemma {:induction false} BrokenStays(s: ByteString)
    ensures After(Broken, s) == Broken
  {
    if s != [] { BrokenStays(s[1..]); }
  }

  /** Two places on. */
  lemma AfterTwo(p: Place, s: ByteString)
    requires |s| >= 2
    ensures After(p, s) == After(Next(Next(p, s[0]), s[1]), s[2..])
  {
    assert s[1..][1..] == s[2..];
  }

  /** A sequence that starts valid is passed whole. */
  lemma SequencePassed(s: ByteString)
    requires Utf.StartsValid(s)
    ensures After(Between, s) == After(Between, s[Utf.Length(s[0])..])
  {
    var n := Utf.Length(s[0]);
    if n >= 2 { AfterTwo(Between, s); }
    if n == 3 { assert s[2..][1..] == s[3..]; }
    if n == 4 {
      AfterTwo(Next(Next(Between, s[0]), s[1]), s[2..]);
      assert s[2..][2..] == s[4..];
    }
  }

  /** One that does not leaves the text ill-formed. */
  lemma SequenceBroken(s: ByteString)
    requires s != [] && !Utf.StartsValid(s)
    ensures !WellFormed(s)
  {
    var n, p := Utf.Length(s[0]), Next(Between, s[0]);
    BrokenStays(s[1..]);
    assert After(Between, s) == After(p, s[1..]);
    if n >= 2 && |s| >= 2 {
      var q := Next(p, s[1]);
      assert s[1..][1..] == s[2..];
      assert After(p, s[1..]) == After(q, s[2..]);
      BrokenStays(s[2..]);
      if n >= 3 && |s| >= 3 && Utf.SecondOk(s[0], s[1]) {
        ThirdBroken(s, n, q);
      }
    }
  }

  lemma ThirdBroken(s: ByteString, n: nat, q: Place)
    requires 3 <= n <= 4 && |s| >= 3 && q == Within(n - 2, 0x80, 0xbf)
    requires |s| < n || !Utf.Continues(s[2]) || (n == 4 && !Utf.Continues(s[3]))
    ensures After(q, s[2..]) != Between
  {
    var r := Next(q, s[2]);
    assert s[2..][1..] == s[3..];
    assert After(q, s[2..]) == After(r, s[3..]);
    BrokenStays(s[3..]);
    if |s| >= 4 {
      assert s[3..][1..] == s[4..];
      BrokenStays(s[4..]);
    }
  }

  lemma {:induction false} WellFormedIsValid(s: ByteString)
    ensures WellFormed(s) <==> AllValid(s)
    decreases |s|
  {
    if s != [] {
      if Utf.StartsValid(s) {
        SequencePassed(s);
        WellFormedIsValid(s[Utf.Length(s[0])..]);
      } else {
        SequenceBroken(s);
      }
    }
  }

  // ---- ASCII ----

  predicate IsAscii(s: ByteString) { forall i :: 0 <= i < |s| ==> s[i] < 0x80 }

  /** Every place within a sequence waits for bytes beyond ASCII. */
  predicate Sensible(p: Place) { p.Within? ==> p.low >= 0x80 }

  lemma {:induction false} StaysSensible(p: Place, s: ByteString)
    requires Sensible(p)
    ensures Sensible(After(p, s))
    decreases |s|
  {
    if s != [] { StaysSensible(Next(p, s[0]), s[1..]); }
  }

  lemma {:induction false} AfterAscii(p: Place, s: ByteString)
    requires IsAscii(s) && Sensible(p)
    ensures After(p, s) == if s == [] || p == Between then p else Broken
    decreases |s|
  {
    if s != [] {
      AfterAscii(Next(p, s[0]), s[1..]);
    }
  }

  /** ASCII in front says nothing of what follows. */
  lemma PastAscii(s: ByteString, t: ByteString)
    requires IsAscii(s) && WellFormed(s + t)
    ensures WellFormed(t)
  {
    AfterJoin(Between, s, t);
    AfterAscii(Between, s);
  }

  /** A text that goes on with ASCII is well-formed up to there, and from there. */
  lemma CutAtAscii(s: ByteString, t: ByteString)
    requires WellFormed(s + t) && (t == [] || t[0] < 0x80)
    ensures WellFormed(s) && WellFormed(t)
  {
    AfterJoin(Between, s, t);
    var p := After(Between, s);
    StaysSensible(Between, s);
    if t != [] {
      AfterAscii(p, t[..1]);
      AfterJoin(p, t[..1], t[1..]);
      assert t[..1] + t[1..] == t;
      BrokenStays(t[1..]);
    }
  }

  // ---- strings ----

  lemma ScalarWellFormed(scalar: int)
    requires 0 <= scalar < 0x110000 && !(0xd800 <= scalar < 0xe000)
    ensures WellFormed(Utf8(scalar))
  {
    var s := Utf8(scalar);
    assert Utf.StartsValid(s) && Utf.Length(s[0]) == |s|;
    SequencePassed(s);
    assert s[|s|..] == [];
  }

  lemma CharDecodes(p: Place, c: StrChar)
    requires CharOk(c) && Sensible(p) && After(p, RenderChar(c)) != Broken
    ensures After(p, DecodeChar(c)) == After(p, RenderChar(c))
  {
    if !c.Raw? {
      assert IsAscii(RenderChar(c)) by { EscapeAscii(c); }
      AfterAscii(p, RenderChar(c));
      if c.Unicode? {
        ScalarWellFormed(if HighSurrogate(CodeUnit(c)) || LowSurrogate(CodeUnit(c)) then REPLACEMENT else CodeUnit(c));
      } else {
        AfterAscii(Between, DecodeChar(c));
      }
    }
  }

  lemma EscapeAscii(c: StrChar)
    requires CharOk(c) && !c.Raw?
    ensures IsAscii(RenderChar(c))
  {
  }

  /** Decoding leaves off where the literal's own bytes do. */
  lemma {:induction false} CharsDecode(p: Place, cs: seq<StrChar>)
    requires CharsOk(cs) && Sensible(p) && After(p, RenderChars(cs)) != Broken
    ensures After(p, Decode(cs)) == After(p, RenderChars(cs))
    decreases |cs|
  {
    if cs != [] {
      var first, rest := RenderChar(cs[0]), RenderChars(cs[1..]);
      AfterJoin(p, first, rest);
      BrokenStays(rest);
      StaysSensible(p, first);
      if StartsPair(cs) {
        PairDecodes(p, cs);
        CharsDecode(Between, cs[2..]);
      } else {
        CharDecodes(p, cs[0]);
        CharsDecode(After(p, first), cs[1..]);
        AfterJoin(p, DecodeChar(cs[0]), Decode(cs[1..]));
      }
    }
  }

  lemma PairDecodes(p: Place, cs: seq<StrChar>)
    requires CharsOk(cs) && Sensible(p) && StartsPair(cs) && After(p, RenderChars(cs)) != Broken
    ensures p == Between && After(p, RenderChars(cs)) == After(Between, RenderChars(cs[2..]))
    ensures After(p, Decode(cs)) == After(Between, Decode(cs[2..]))
  {
    var a, b, rest := RenderChar(cs[0]), RenderChar(cs[1]), RenderChars(cs[2..]);
    assert cs[1..][1..] == cs[2..] && RenderChars(cs[1..]) == b + rest;
    assert RenderChars(cs) == a + (b + rest);
    EscapeAscii(cs[0]);
    EscapeAscii(cs[1]);
    AfterJoin(p, a, b + rest);
    AfterAscii(p, a);
    BrokenStays(b + rest);
    AfterJoin(Between, b, rest);
    AfterAscii(Between, b);
    var pair := PairValue(CodeUnit(cs[0]), CodeUnit(cs[1]));
    ScalarWellFormed(pair);
    AfterJoin(Between, Utf8(pair), Decode(cs[2..]));
  }

  lemma StringWellFormed(cs: seq<StrChar>)
    requires CharsOk(cs) && WellFormed(RenderChars(cs))
    ensures WellFormed(Decode(cs))
  {
    CharsDecode(Between, cs);
  }

  // ---- whole texts ----

  /** Every key and string of the value is well-formed. */
  predicate TextsWellFormed(v: Value) {
    match v
    case Str(cs) => WellFormed(Decode(cs))
    case Array(items) => ItemsWellFormed(items)
    case Object(ms) => MembersWellFormed(ms)
    case _ => true
  }

  predicate ItemsWellFormed(items: Items) {
    TextsWellFormed(items.item.value) && (items.Item? ==> ItemsWellFormed(items.rest))
  }

  predicate MembersWellFormed(ms: Members) {
    && WellFormed(Decode(ms.key.chars)) && TextsWellFormed(ms.item.value)
    && (ms.Member? ==> MembersWellFormed(ms.rest))
  }

  lemma LiteralWellFormed(cs: seq<StrChar>)
    requires CharsOk(cs) && WellFormed(RenderString(cs))
    ensures WellFormed(Decode(cs))
  {
    assert RenderString(cs) == [QUOTE] + (RenderChars(cs) + [QUOTE]);
    PastAscii([QUOTE], RenderChars(cs) + [QUOTE]);
    CutAtAscii(RenderChars(cs), [QUOTE]);
    StringWellFormed(cs);
  }

  lemma {:induction false} ValueTexts(v: Value)
    requires Ok(v) && WellFormed(Render(v))
    ensures TextsWellFormed(v)
    decreases v, 0
  {
    match v
    case Str(cs) => LiteralWellFormed(cs);
    case Array(items) =>
      PastAscii([ARRAY_OPEN], RenderItems(items));
      ItemsTexts(items);
    case Object(ms) =>
      PastAscii([OBJECT_OPEN], RenderMembers(ms));
      MembersTexts(ms);
    case _ =>
  }

  lemma {:induction false} PaddedTexts(p: Padded)
    requires SpacedOk(p) && Ok(p.value) && WellFormed(RenderPadded(p))
    ensures TextsWellFormed(p.value)
    decreases p, 1
  {
    assert RenderPadded(p) == p.lead + (Render(p.value) + p.trail);
    PastAscii(p.lead, Render(p.value) + p.trail);
    CutAtAscii(Render(p.value), p.trail);
    ValueTexts(p.value);
  }

  lemma {:induction false} ItemsTexts(items: Items)
    requires ItemsOk(items) && WellFormed(RenderItems(items))
    ensures ItemsWellFormed(items)
    decreases items, 2
  {
    CutAtAscii(RenderPadded(items.item), RenderItemsTail(items));
    PaddedTexts(items.item);
    if items.Item? {
      PastAscii([COMMA], RenderItems(items.rest));
      ItemsTexts(items.rest);
    }
  }

  lemma KeyTexts(k: Key, after: ByteString)
    requires KeyOk(k) && WellFormed(RenderKey(k) + after) && after != [] && after[0] < 0x80
    ensures WellFormed(Decode(k.chars)) && WellFormed(after)
  {
    CutAtAscii(RenderKey(k), after);
    assert RenderKey(k) == k.lead + (RenderString(k.chars) + k.trail);
    PastAscii(k.lead, RenderString(k.chars) + k.trail);
    CutAtAscii(RenderString(k.chars), k.trail);
    LiteralWellFormed(k.chars);
  }

  lemma {:induction false} MembersTexts(ms: Members)
    requires MembersOk(ms) && WellFormed(RenderMembers(ms))
    ensures MembersWellFormed(ms)
    decreases ms, 2
  {
    var value, tail := RenderPadded(ms.item), RenderMembersTail(ms);
    var after := [COLON] + (value + tail);
    assert RenderMembers(ms) == RenderKey(ms.key) + after;
    KeyTexts(ms.key, after);
    PastAscii([COLON], value + tail);
    CutAtAscii(value, tail);
    PaddedTexts(ms.item);
    if ms.Member? {
      PastAscii([COMMA], RenderMembers(ms.rest));
      MembersTexts(ms.rest);
    }
  }

  /** In well-formed UTF-8 the scan accepts exactly the conforming texts whose keys and strings are
      all well-formed: the bytes compared and decoded are those any repair would leave. */
  lemma AcceptsWellFormed(b: ByteString)
    requires AllValid(b)
    ensures ParseDocument(b, true).Got? <==>
            exists t :: Conforms(t) && RenderPadded(t) == b && TextsWellFormed(t.value)
  {
    WellFormedIsValid(b);
    AcceptsExactly(b);
    if ParseDocument(b, true).Got? {
      var t :| Conforms(t) && RenderPadded(t) == b;
      PaddedTexts(t);
    }
  }
}
