/** What the escapes of a string stand for, against the digits and letters as they are written, and
    that keys spelled differently for the same characters are one key. */
module JsonSpelling {
  import opened Bytes
  import opened JsonComplete
  import opened JsonExact
  import opened JsonGrammar
  import opened JsonLimits
  import opened JsonParser
  import opened Slices

  const LOWER_DIGITS := "0123456789abcdef"
  const UPPER_DIGITS := "0123456789ABCDEF"

  /** The byte is the k-th hexadecimal digit, in either case. */
  predicate DigitAt(b: Byte, k: int) {
    0 <= k < 16 && (b as int == LOWER_DIGITS[k] as int || b as int == UPPER_DIGITS[k] as int)
  }

  lemma DigitValue(b: Byte, k: int)
    requires DigitAt(b, k)
    ensures IsHex(b) && HexValue(b) == k
  {
  }

  /** Nothing else is a digit. */
  lemma HexExactly(b: Byte)
    ensures IsHex(b) <==> exists k :: DigitAt(b, k)
  {
    hide DigitAt;
    if IsHex(b) {
      ValueDigit(b);
    } else if k :| DigitAt(b, k) {
      DigitValue(b, k);
    }
  }

  lemma ValueDigit(b: Byte)
    requires IsHex(b)
    ensures DigitAt(b, HexValue(b))
  {
  }

  const SPACES := " \t\n\r"
  const DECIMALS := "0123456789"
  const MARKS := "eE"

  predicate OneOf(b: Byte, table: string) { exists k :: 0 <= k < |table| && b as int == table[k] as int }

  /** White space, digits and exponent marks are those of literal tables. */
  lemma ClassesExactly(b: Byte)
    ensures IsSpace(b) <==> OneOf(b, SPACES)
    ensures IsDigit(b) <==> OneOf(b, DECIMALS)
    ensures IsExponentMark(b) <==> OneOf(b, MARKS)
  {
    if IsSpace(b) {
      assert b as int == SPACES[0] as int || b as int == SPACES[1] as int || b as int == SPACES[2] as int
             || b as int == SPACES[3] as int;
    }
    if IsDigit(b) {
      assert b as int == DECIMALS[b as int - 0x30] as int;
    }
    if IsExponentMark(b) {
      assert b as int == MARKS[0] as int || b as int == MARKS[1] as int;
    }
  }

  /** The literal names and the structural characters, as they are written. */
  lemma NamesExactly()
    ensures RenderLiteral(True) == Ascii("true") && RenderLiteral(False) == Ascii("false")
    ensures RenderLiteral(Null) == Ascii("null")
    ensures [QUOTE] == Ascii("\"") && [BACKSLASH] == Ascii("\\") && [COMMA] == Ascii(",") && [COLON] == Ascii(":")
    ensures [OBJECT_OPEN] == Ascii("{") && [OBJECT_CLOSE] == Ascii("}")
    ensures [ARRAY_OPEN] == Ascii("[") && [ARRAY_CLOSE] == Ascii("]")
    ensures [MINUS] == Ascii("-") && [PLUS] == Ascii("+") && [DOT] == Ascii(".")
    ensures SCHEMA_KEY == Ascii("schema")
  {
  }

  /** A character stands for itself exactly when it is no control, no quote and no backslash. */
  lemma RawExactly(b: Byte)
    ensures CharOk(Raw(b)) <==> b as int >= ' ' as int && b as int != '"' as int && b as int != '\\' as int
  {
  }

  /** An escape spells a code unit by four digits. */
  predicate SpellsUnit(c: StrChar, u: int) {
    && c.Unicode? && 0 <= u < 0x10000
    && DigitAt(c.h0, u / 0x1000) && DigitAt(c.h1, u / 0x100 % 0x10)
    && DigitAt(c.h2, u / 0x10 % 0x10) && DigitAt(c.h3, u % 0x10)
  }

  lemma DigitsOfUnit(u: int)
    requires 0 <= u < 0x10000
    ensures u == u / 0x1000 * 0x1000 + u / 0x100 % 0x10 * 0x100 + u / 0x10 % 0x10 * 0x10 + u % 0x10
  {
    var a := u / 0x10;
    var b := a / 0x10;
    assert b == u / 0x100 && b / 0x10 == u / 0x1000;
  }

  lemma UnitSpelled(c: StrChar, u: int)
    requires SpellsUnit(c, u)
    ensures c.Unicode? && CharOk(c) && CodeUnit(c) == u
  {
    hide DigitAt, HexValue;
    DigitsOfUnit(u);
    DigitValue(c.h0, u / 0x1000);
    DigitValue(c.h1, u / 0x100 % 0x10);
    DigitValue(c.h2, u / 0x10 % 0x10);
    DigitValue(c.h3, u % 0x10);
  }

  predicate Surrogate(u: int) { 0xd800 <= u < 0xe000 }

  /** Every code unit, in whatever case its digits are, decodes to its UTF-8, or alone to the
      replacement character when it is half of a pair. */
  lemma EscapeDecodes(c: StrChar, u: int)
    requires SpellsUnit(c, u)
    ensures Decode([c]) == Utf8(if Surrogate(u) then 0xfffd else u)
  {
    hide Utf8, SpellsUnit, CodeUnit;
    UnitSpelled(c, u);
    assert Decode([c]) == DecodeChar(c) + Decode([]);
  }

  /** Two escapes spell a scalar beyond the basic plane by its UTF-16 code units. */
  predicate SpellsPair(c: StrChar, d: StrChar, r: int) {
    && 0x10000 <= r < 0x110000
    && SpellsUnit(c, 0xd800 + (r - 0x10000) / 0x400) && SpellsUnit(d, 0xdc00 + (r - 0x10000) % 0x400)
  }

  lemma PairSpelled(c: StrChar, d: StrChar, r: int)
    requires SpellsPair(c, d, r)
    ensures c.Unicode? && d.Unicode? && CharOk(c) && CharOk(d)
    ensures HighSurrogate(CodeUnit(c)) && LowSurrogate(CodeUnit(d))
    ensures PairValue(CodeUnit(c), CodeUnit(d)) == r
  {
    hide SpellsUnit, CodeUnit;
    UnitSpelled(c, 0xd800 + (r - 0x10000) / 0x400);
    UnitSpelled(d, 0xdc00 + (r - 0x10000) % 0x400);
  }

  lemma PairDecodes(c: StrChar, d: StrChar, r: int)
    requires SpellsPair(c, d, r)
    ensures Decode([c, d]) == Utf8(r)
  {
    hide Utf8, SpellsPair, CodeUnit;
    PairSpelled(c, d, r);
    assert [c, d][2..] == [];
    assert Decode([c, d]) == Utf8(r) + Decode([]);
  }

  const SHORT_LETTERS := "\"\\/bfnrt"
  const SHORT_MEANINGS := [0x22, 0x5c, 0x2f, 8, 12, 10, 13, 9]

  /** A one-letter escape, by the table of its letters. */
  predicate SpellsShort(c: StrChar, r: int) {
    c.Escaped? && exists k :: 0 <= k < 8 && c.letter as int == SHORT_LETTERS[k] as int && r == SHORT_MEANINGS[k]
  }

  lemma ShortSpelled(c: StrChar, r: int)
    requires SpellsShort(c, r)
    ensures c.Escaped? && CharOk(c) && 0 <= r < 0x80 && DecodeChar(c) == Utf8(r)
  {
  }

  /** And no other letter makes an escape. */
  lemma ShortExactly(letter: Byte)
    ensures CharOk(Escaped(letter)) <==> exists r :: SpellsShort(Escaped(letter), r)
  {
    if CharOk(Escaped(letter)) {
      ShortMeans(letter);
    } else if r :| SpellsShort(Escaped(letter), r) {
      ShortSpelled(Escaped(letter), r);
    }
  }

  lemma ShortMeans(letter: Byte)
    requires EscapeValue(letter) >= 0
    ensures SpellsShort(Escaped(letter), EscapeValue(letter))
  {
    var k := if letter == 0x22 then 0 else if letter == 0x5c then 1 else if letter == 0x2f then 2
             else if letter == 0x62 then 3 else if letter == 0x66 then 4 else if letter == 0x6e then 5
             else if letter == 0x72 then 6 else 7;
    assert letter as int == SHORT_LETTERS[k] as int && EscapeValue(letter) == SHORT_MEANINGS[k];
  }

  /** Bytes written as themselves. */
  function AsIs(bytes: ByteString): (cs: seq<StrChar>)
    ensures |cs| == |bytes|
  {
    seq(|bytes|, i requires 0 <= i < |bytes| => Raw(bytes[i]))
  }

  /** One way of writing a character in a string: as it is, or by an escape. */
  predicate Spells(cs: seq<StrChar>, r: int) {
    && 0 <= r < 0x110000 && !Surrogate(r)
    && (|| (cs == AsIs(Utf8(r)) && r >= 0x20 && r != 0x22 && r != 0x5c)
        || (|cs| == 1 && SpellsShort(cs[0], r))
        || (|cs| == 1 && SpellsUnit(cs[0], r))
        || (|cs| == 2 && SpellsPair(cs[0], cs[1], r)))
  }

  lemma {:induction false} AsIsDecodes(bytes: ByteString, rest: seq<StrChar>)
    ensures Decode(AsIs(bytes) + rest) == bytes + Decode(rest)
    decreases |bytes|
  {
    hide Decode;
    if bytes == [] {
      assert AsIs(bytes) + rest == rest;
      assert bytes + Decode(rest) == Decode(rest);
    } else {
      AsIsDecodes(bytes[1..], rest);
      AsIsStep(bytes, rest);
    }
  }

  lemma AsIsStep(bytes: ByteString, rest: seq<StrChar>)
    requires bytes != [] && Decode(AsIs(bytes[1..]) + rest) == bytes[1..] + Decode(rest)
    ensures Decode(AsIs(bytes) + rest) == bytes + Decode(rest)
  {
    hide Decode, AsIs;
    AsIsHead(bytes);
    OneDecodes(Raw(bytes[0]), AsIs(bytes[1..]) + rest);
    assert [Raw(bytes[0])] + AsIs(bytes[1..]) + rest == [Raw(bytes[0])] + (AsIs(bytes[1..]) + rest);
    assert [bytes[0]] + (bytes[1..] + Decode(rest)) == bytes + Decode(rest);
  }

  lemma AsIsHead(bytes: ByteString)
    requires bytes != []
    ensures AsIs(bytes) == [Raw(bytes[0])] + AsIs(bytes[1..])
  {
  }

  lemma OneDecodes(c: StrChar, rest: seq<StrChar>)
    requires c.Unicode? ==> !HighSurrogate(CodeUnit(c))
    ensures Decode([c] + rest) == DecodeChar(c) + Decode(rest)
  {
    assert ([c] + rest)[1..] == rest;
  }

  lemma TwoDecode(c: StrChar, d: StrChar, rest: seq<StrChar>)
    requires StartsPair([c, d])
    ensures Decode([c, d] + rest) == Utf8(PairValue(CodeUnit(c), CodeUnit(d))) + Decode(rest)
  {
    assert ([c, d] + rest)[2..] == rest;
  }

  /** However it is written, a character decodes to its UTF-8, whatever follows. */
  lemma SpelledDecodes(cs: seq<StrChar>, r: int, rest: seq<StrChar>)
    requires Spells(cs, r)
    ensures Decode(cs + rest) == Utf8(r) + Decode(rest)
  {
    hide Utf8, SpellsUnit, SpellsPair, SpellsShort, CodeUnit, Decode, AsIs, DecodeChar;
    if |cs| == 2 && SpellsPair(cs[0], cs[1], r) {
      PairSpelled(cs[0], cs[1], r);
      assert cs == [cs[0], cs[1]];
      TwoDecode(cs[0], cs[1], rest);
    } else if |cs| == 1 && SpellsUnit(cs[0], r) {
      UnitSpelled(cs[0], r);
      assert cs == [cs[0]];
      OneDecodes(cs[0], rest);
      UnitChar(cs[0], r);
    } else if |cs| == 1 && SpellsShort(cs[0], r) {
      ShortSpelled(cs[0], r);
      assert cs == [cs[0]];
      OneDecodes(cs[0], rest);
    } else {
      AsIsDecodes(Utf8(r), rest);
    }
  }

  lemma UnitChar(c: StrChar, r: int)
    requires c.Unicode? && CodeUnit(c) == r && !Surrogate(r)
    ensures DecodeChar(c) == Utf8(r)
  {
  }

  // ---- whole strings ----

  function Joined(parts: seq<seq<StrChar>>): seq<StrChar> {
    if parts == [] then [] else parts[0] + Joined(parts[1..])
  }

  /** The UTF-8 of a text given by its scalar values. */
  function Encoded(scalars: seq<int>): ByteString
    requires forall i :: 0 <= i < |scalars| ==> 0 <= scalars[i] < 0x110000
  {
    if scalars == [] then [] else Utf8(scalars[0]) + Encoded(scalars[1..])
  }

  /** A string literal's inside, cut into one spelling for each character of a text. */
  predicate SpellsText(cs: seq<StrChar>, parts: seq<seq<StrChar>>, scalars: seq<int>) {
    cs == Joined(parts) && |parts| == |scalars| && forall i :: 0 <= i < |parts| ==> Spells(parts[i], scalars[i])
  }

  lemma {:induction false} TextDecodes(cs: seq<StrChar>, parts: seq<seq<StrChar>>, scalars: seq<int>)
    requires SpellsText(cs, parts, scalars)
    ensures Decode(cs) == Encoded(scalars)
    decreases |parts|
  {
    hide Utf8, Spells, Decode;
    if parts == [] {
      NothingDecodes();
    } else {
      SpelledInRange(parts, scalars);
      TextDecodes(Joined(parts[1..]), parts[1..], scalars[1..]);
      SpelledDecodes(parts[0], scalars[0], Joined(parts[1..]));
    }
  }

  lemma NothingDecodes()
    ensures Decode([]) == []
  {
  }

  lemma SpelledInRange(parts: seq<seq<StrChar>>, scalars: seq<int>)
    requires |parts| == |scalars| && forall i :: 0 <= i < |parts| ==> Spells(parts[i], scalars[i])
    ensures forall i :: 0 <= i < |scalars| ==> 0 <= scalars[i] < 0x110000
  {
  }

  // ---- keys ----

  /** The keys of an object as they are written. */
  function Keys(ms: Members): seq<seq<StrChar>> {
    [ms.key.chars] + if ms.LastMember? then [] else Keys(ms.rest)
  }

  lemma {:induction false} PairKeys(ms: Members, i: nat)
    requires i < |Keys(ms)|
    ensures i < |Pairs(ms)| && Pairs(ms)[i].0 == Decode(Keys(ms)[i])
    decreases ms
  {
    if i > 0 {
      PairKeys(ms.rest, i - 1);
    }
  }

  /** Two keys written for the same text, in whatever spellings, repeat a key. */
  lemma SpelledAlikeRepeats(ms: Members, i: nat, j: nat, first: seq<seq<StrChar>>, second: seq<seq<StrChar>>,
                            text: seq<int>)
    requires i < j < |Keys(ms)|
    requires SpellsText(Keys(ms)[i], first, text) && SpellsText(Keys(ms)[j], second, text)
    ensures !Distinct(Pairs(ms))
  {
    hide SpellsText, Decode;
    PairKeys(ms, i);
    PairKeys(ms, j);
    TextDecodes(Keys(ms)[i], first, text);
    TextDecodes(Keys(ms)[j], second, text);
  }

  /** The scan refuses every object that writes one key twice, however it spells it. */
  lemma SpelledAlikeRefused(t: Padded, i: nat, j: nat, first: seq<seq<StrChar>>, second: seq<seq<StrChar>>,
                            text: seq<int>)
    requires PaddedOk(t) && DepthOk(t.value, 0) && t.value.Object? && i < j < |Keys(t.value.members)|
    requires SpellsText(Keys(t.value.members)[i], first, text) && SpellsText(Keys(t.value.members)[j], second, text)
    ensures ParseDocument(RenderPadded(t), true).Bad?
  {
    hide SpellsText, DepthOk, PaddedOk, ParseDocument, RenderPadded, Distinct;
    var p := ParseDocument(RenderPadded(t), true);
    if p.Got? {
      DocumentSound(RenderPadded(t), p.value);
      OneForm(t, p.value);
      SpelledAlikeRepeats(t.value.members, i, j, first, second, text);
      ConformingDistinct(t);
    }
  }

  lemma ConformingDistinct(t: Padded)
    requires Conforms(t) && t.value.Object?
    ensures Distinct(Pairs(t.value.members))
  {
    TopMembers(t.value.members, {});
    ObjectLimits(t.value.members, 0, true);
  }

  /** Two texts of the grammar within the depth, one of which conforms, are one when written alike. */
  lemma OneForm(t: Padded, u: Padded)
    requires PaddedOk(t) && DepthOk(t.value, 0) && Conforms(u) && RenderPadded(t) == RenderPadded(u)
    ensures t == u
  {
    var b := RenderPadded(t);
    LooseReading(t, b);
    LooseReading(u, b);
  }

  lemma LooseReading(t: Padded, b: ByteString)
    requires PaddedOk(t) && DepthOk(t.value, 0) && b == RenderPadded(t)
    ensures ParsePadded(b, 0, 0, false) == Got(t, |b|)
  {
    AtIs(b, 0, b);
    PaddedComplete(b, 0, t, |b|, 0, false);
  }
}
