/** The scanner itself: an index moved over the bytes, a nesting count, and the range of the
    outermost `schema` member. Each method is proved to do what the scan function says, so the
    index stays inside the buffer and bytes remaining bound the work. */
module JsonScanner {
  import opened Bytes
  import opened JsonGrammar
  import opened JsonParser
  import opened JsonSound
  import opened JsonExact
  import opened JsonLimits
  import opened Slices

  datatype Outcome<+T> = Done(value: T) | Refused(failure: Failure)

  datatype Check = Passed | Failed(failure: Failure)

  datatype Range = NoRange | Range(lo: nat, hi: nat)

  /** How a scan ended, seen only from the caller. */
  function Verdict<T>(p: Parsed<T>): Check {
    if p.Got? then Passed else Failed(p.failure)
  }

  /** The string that scanning characters from i yields. */
  function Decoded(b: ByteString, i: nat): Parsed<ByteString>
    requires i <= |b|
  {
    var p := ParseChars(b, i);
    if p.Bad? then Bad(p.failure) else Got(Decode(p.value), p.next)
  }

  function Prefixed(output: ByteString, p: Parsed<ByteString>): Parsed<ByteString> {
    if p.Bad? then p else Got(output + p.value, p.next)
  }

  /** Scanning characters from i is `output` and then scanning them from j. */
  predicate Follows(b: ByteString, i: nat, output: ByteString, j: nat)
    requires i <= |b|
  {
    j <= |b| && Decoded(b, i) == Prefixed(output, Decoded(b, j))
  }

  lemma FollowsThen(b: ByteString, i: nat, output: ByteString, j: nat, more: ByteString, k: nat)
    requires i <= |b| && Follows(b, i, output, j) && Follows(b, j, more, k)
    ensures Follows(b, i, output + more, k)
  {
    PrefixedTwice(output, more, Decoded(b, k));
  }

  lemma PrefixedTwice(output: ByteString, more: ByteString, p: Parsed<ByteString>)
    ensures Prefixed(output, Prefixed(more, p)) == Prefixed(output + more, p)
  {
    if p.Got? {
      assert output + (more + p.value) == output + more + p.value;
    }
  }

  lemma DecodeSingle(c: StrChar, rest: seq<StrChar>)
    requires !StartsPair([c] + rest)
    ensures Decode([c] + rest) == DecodeChar(c) + Decode(rest)
  {
    assert ([c] + rest)[1..] == rest;
  }

  lemma DecodePair(c: StrChar, d: StrChar, rest: seq<StrChar>)
    requires c.Unicode? && d.Unicode? && HighSurrogate(CodeUnit(c)) && LowSurrogate(CodeUnit(d))
    ensures Decode([c] + ([d] + rest)) == Utf8(PairValue(CodeUnit(c), CodeUnit(d))) + Decode(rest)
  {
    assert ([c] + ([d] + rest))[2..] == rest;
  }

  /** One character consumed that no later one joins. */
  lemma FollowsOne(b: ByteString, i: nat)
    requires i < |b| && b[i] != QUOTE && ParseChar(b, i).Got?
    requires var c := ParseChar(b, i);
             c.value.Unicode? && HighSurrogate(CodeUnit(c.value)) ==> !LowEscapeAt(b, c.next)
    ensures var c := ParseChar(b, i); Follows(b, i, DecodeChar(c.value), c.next)
  {
    var c := ParseChar(b, i);
    var rest := ParseChars(b, c.next);
    if rest.Got? {
      if rest.value != [] {
        assert rest.value[0] == ParseChar(b, c.next).value;
      }
      DecodeSingle(c.value, rest.value);
    }
  }

  /** An escaped low surrogate stands at i. */
  predicate LowEscapeAt(b: ByteString, i: nat) {
    && i < |b| && b[i] != QUOTE && ParseChar(b, i).Got? && ParseChar(b, i).value.Unicode?
    && LowSurrogate(CodeUnit(ParseChar(b, i).value))
  }

  lemma CharsStep(b: ByteString, i: nat)
    requires i < |b| && b[i] != QUOTE && ParseChar(b, i).Got?
    ensures var c := ParseChar(b, i);
            var rest := ParseChars(b, c.next);
            ParseChars(b, i) == if rest.Bad? then rest else Got([c.value] + rest.value, rest.next)
  {
  }

  lemma FollowsPair(b: ByteString, i: nat)
    requires i < |b| && b[i] != QUOTE && ParseChar(b, i).Got? && ParseChar(b, i).value.Unicode?
    requires HighSurrogate(CodeUnit(ParseChar(b, i).value)) && LowEscapeAt(b, ParseChar(b, i).next)
    ensures var c := ParseChar(b, i);
            var d := ParseChar(b, c.next);
            Follows(b, i, Utf8(PairValue(CodeUnit(c.value), CodeUnit(d.value))), d.next)
  {
    var c := ParseChar(b, i);
    var d := ParseChar(b, c.next);
    CharsStep(b, i);
    CharsStep(b, c.next);
    PairDecoded(b, i, c.value, c.next, d.value, d.next);
  }

  lemma PairDecoded(b: ByteString, i: nat, c: StrChar, j: nat, d: StrChar, k: nat)
    requires i <= |b| && j <= |b| && k <= |b|
    requires c.Unicode? && d.Unicode? && HighSurrogate(CodeUnit(c)) && LowSurrogate(CodeUnit(d))
    requires var rest := ParseChars(b, k);
             ParseChars(b, j) == if rest.Bad? then rest else Got([d] + rest.value, rest.next)
    requires var rest := ParseChars(b, j);
             ParseChars(b, i) == if rest.Bad? then rest else Got([c] + rest.value, rest.next)
    ensures Follows(b, i, Utf8(PairValue(CodeUnit(c), CodeUnit(d))), k)
  {
    var rest := ParseChars(b, k);
    if rest.Got? {
      DecodePair(c, d, rest.value);
    }
  }

  lemma {:induction false} SpacesEndAgain(b: ByteString, i: nat)
    requires i <= |b|
    ensures SpacesEnd(b, SpacesEnd(b, i)) == SpacesEnd(b, i)
  {
    SpacesSound(b, i);
  }

  /** Four hexadecimal digits at i. */
  predicate HexAt(b: ByteString, i: nat) {
    i + 4 <= |b| && IsHex(b[i]) && IsHex(b[i + 1]) && IsHex(b[i + 2]) && IsHex(b[i + 3])
  }

  function HexUnit(b: ByteString, i: nat): (u: int)
    requires HexAt(b, i)
    ensures 0 <= u < 0x10000
  {
    HexValue(b[i]) * 0x1000 + HexValue(b[i + 1]) * 0x100 + HexValue(b[i + 2]) * 0x10 + HexValue(b[i + 3])
  }

  /** The escape at i, by its four digits. */
  lemma EscapeByDigits(b: ByteString, i: nat)
    requires i + 1 < |b| && b[i] == BACKSLASH && b[i + 1] == LETTER_U
    ensures ParseChar(b, i).Got? <==> HexAt(b, i + 2)
    ensures HexAt(b, i + 2) ==> var c := ParseChar(b, i);
                                c.value.Unicode? && c.next == i + 6 && CodeUnit(c.value) == HexUnit(b, i + 2)
    ensures ParseChar(b, i).Bad? ==> ParseChar(b, i) == Bad(Syntax)
  {
    assert EscapeValue(LETTER_U) == -1;
  }

  predicate EscapeAt(b: ByteString, i: nat) { i + 1 < |b| && b[i] == BACKSLASH && b[i + 1] == LETTER_U }

  lemma LowEscapeShape(b: ByteString, i: nat)
    ensures LowEscapeAt(b, i) ==> EscapeAt(b, i) && HexAt(b, i + 2)
    ensures EscapeAt(b, i) && HexAt(b, i + 2) ==> LowEscapeAt(b, i) == (0xdc00 <= HexUnit(b, i + 2) <= 0xdfff)
  {
    if EscapeAt(b, i) {
      EscapeByDigits(b, i);
    }
  }

  lemma LowEscapeFits(b: ByteString, i: nat)
    ensures LowEscapeAt(b, i) ==> i + 6 <= |b|
  {
  }

  lemma EscapeRefused(b: ByteString, i: nat)
    requires EscapeAt(b, i) && !HexAt(b, i + 2)
    ensures ParseChars(b, i) == Bad(Syntax)
  {
    EscapeByDigits(b, i);
  }

  lemma SecondRefused(b: ByteString, i: nat)
    requires EscapeAt(b, i) && HexAt(b, i + 2) && ParseChars(b, i + 6) == Bad(Syntax)
    ensures ParseChars(b, i) == Bad(Syntax)
  {
    EscapeByDigits(b, i);
  }

  /** An escape that is no half of a pair: its scalar, or the replacement for a lone surrogate. */
  lemma EscapeAlone(b: ByteString, i: nat, code: int)
    requires EscapeAt(b, i) && HexAt(b, i + 2) && code == HexUnit(b, i + 2)
    requires 0xd800 <= code <= 0xdbff ==> !LowEscapeAt(b, i + 6)
    ensures Follows(b, i, Utf8(if 0xd800 <= code <= 0xdfff then REPLACEMENT else code), i + 6)
  {
    hide Utf8;
    EscapeByDigits(b, i);
    FollowsOne(b, i);
  }

  /** A high half and the low half after it. */
  lemma EscapePair(b: ByteString, i: nat, high: int, low: int)
    requires EscapeAt(b, i) && HexAt(b, i + 2) && high == HexUnit(b, i + 2) && 0xd800 <= high <= 0xdbff
    requires EscapeAt(b, i + 6) && HexAt(b, i + 8) && low == HexUnit(b, i + 8) && 0xdc00 <= low <= 0xdfff
    ensures Follows(b, i, Utf8(0x10000 + (high - 0xd800) * 0x400 + (low - 0xdc00)), i + 12)
  {
    hide Utf8;
    EscapeByDigits(b, i);
    EscapeByDigits(b, i + 6);
    FollowsPair(b, i);
  }

  /** The last member named `schema`. */
  function LastSchema(pairs: seq<(ByteString, Value)>): (found: seq<Value>)
    ensures |found| <= 1
  {
    if pairs == [] then []
    else if pairs[|pairs| - 1].0 == SCHEMA_KEY then [pairs[|pairs| - 1].1]
    else LastSchema(pairs[..|pairs| - 1])
  }

  /** The range is where the text of the last `schema` member stands, or as before without one. */
  predicate SchemaFound(b: ByteString, range: Range, pairs: seq<(ByteString, Value)>, before: Range) {
    var found := LastSchema(pairs);
    if found == [] then range == before
    else range.Range? && range.lo <= range.hi <= |b| && b[range.lo..range.hi] == Render(found[0])
  }

  /** The range after the members passed inside `depth` containers. */
  predicate RangeOk(b: ByteString, depth: nat, range: Range, pairs: seq<(ByteString, Value)>, before: Range) {
    if depth == 1 then SchemaFound(b, range, pairs, before) else range == before
  }

  /** The range after one more member. */
  predicate RangeMoves(b: ByteString, depth: nat, key: ByteString, value: Value, range: Range, before: Range) {
    if Deferred(key, depth)
    then range.Range? && range.lo <= range.hi <= |b| && b[range.lo..range.hi] == Render(value)
    else range == before
  }

  lemma RangeSteps(b: ByteString, depth: nat, pairs: seq<(ByteString, Value)>, key: ByteString, value: Value,
                   before: Range, range: Range, range': Range)
    requires RangeOk(b, depth, range, pairs, before) && RangeMoves(b, depth, key, value, range', range)
    ensures RangeOk(b, depth, range', pairs + [(key, value)], before)
  {
    LastSchemaSnoc(pairs, (key, value));
  }

  lemma LastSchemaSnoc(pairs: seq<(ByteString, Value)>, pair: (ByteString, Value))
    ensures LastSchema(pairs + [pair]) == if pair.0 == SCHEMA_KEY then [pair.1] else LastSchema(pairs)
  {
    assert (pairs + [pair])[..|pairs|] == pairs;
  }

  lemma OpenedObject(b: ByteString, i: nat, depth: nat, strict: bool)
    requires i < |b| && depth < MAX_DEPTH && !Peek(b, SpacesEnd(b, i + 1), OBJECT_CLOSE)
    ensures var p, ms := ParseObject(b, i, depth, strict), ParseMembers(b, i + 1, depth + 1, strict, {});
            var q := Reading([], ms);
            if q.Bad? then p == Bad(q.failure)
            else p.Got? && p.next == q.next && p.value.Object? && Pairs(p.value.members) == q.value
  {
    var ms := ParseMembers(b, i + 1, depth + 1, strict, {});
    if ms.Got? {
      assert [] + Pairs(ms.value) == Pairs(ms.value);
    }
  }

  /** Two places of one list, whatever the values scanned. */
  predicate SameEnd<T, U>(whole: Parsed<T>, current: Parsed<U>) {
    if current.Bad? then whole.Bad? && whole.failure == current.failure else whole.Got? && whole.next == current.next
  }

  lemma SchemaRendered(b: ByteString, i: nat, depth: nat, strict: bool)
    requires i <= |b| && ParseValue(b, i, depth, strict).Got?
    ensures var p := ParseValue(b, i, depth, strict); b[i..p.next] == Render(p.value)
  {
    var p := ParseValue(b, i, depth, strict);
    ValueSound(b, i, p.value, p.next, depth, strict);
    AtIs(b, i, Render(ParseValue(b, i, depth, strict).value));
  }

  /** What is left of an array after one item. */
  lemma ItemsAdvance(b: ByteString, whole: Parsed<Items>, at: nat, depth: nat, strict: bool)
    requires at <= |b| && SameEnd(whole, ParseItems(b, at, depth, strict))
    ensures var item := ParsePadded(b, at, depth, strict);
            if item.Bad? then whole == Bad(item.failure)
            else if Peek(b, item.next, COMMA) then SameEnd(whole, ParseItems(b, item.next + 1, depth, strict))
            else if Peek(b, item.next, ARRAY_CLOSE) then whole.Got? && whole.next == item.next + 1
            else whole == Bad(Syntax)
  {
    hide ParsePadded;
  }

  /** What a member list amounts to after the members already passed. */
  function Reading(passed: seq<(ByteString, Value)>, left: Parsed<Members>): Parsed<seq<(ByteString, Value)>> {
    if left.Bad? then Bad(left.failure) else Got(passed + Pairs(left.value), left.next)
  }

  /** The member at `at` is refused. */
  predicate MemberRefused(b: ByteString, at: nat, depth: nat, strict: bool, keys: set<ByteString>, failure: Failure) {
    && at <= |b|
    && var k := ParseKey(b, at);
       if k.Bad? then failure == k.failure
       else
         var key := Decode(k.value.chars);
         var item := ParsePadded(b, k.next, ValueDepth(key, depth), strict && !Deferred(key, depth));
         if strict && key in keys then failure == Repeated(key) else item == Bad(failure)
  }

  lemma MembersRefused(b: ByteString, at: nat, depth: nat, strict: bool, keys: set<ByteString>, failure: Failure)
    requires MemberRefused(b, at, depth, strict, keys, failure)
    ensures ParseMembers(b, at, depth, strict, keys) == Bad(failure)
  {
  }

  /** One member read from `at`. */
  predicate MemberAt(b: ByteString, at: nat, depth: nat, strict: bool, keys: set<ByteString>,
                     key: ByteString, value: Value, end: nat) {
    && at <= |b|
    && var k := ParseKey(b, at);
       && k.Got? && key == Decode(k.value.chars) && !(strict && key in keys)
       && var item := ParsePadded(b, k.next, ValueDepth(key, depth), strict && !Deferred(key, depth));
          item.Got? && item.value.value == value && item.next == end
  }

  lemma ReadingCons(passed: seq<(ByteString, Value)>, k: Key, item: Padded, rest: Parsed<Members>)
    ensures Reading(passed, if rest.Bad? then rest else Got(Member(k, item, rest.value), rest.next)) ==
            Reading(passed + [(Decode(k.chars), item.value)], rest)
  {
    if rest.Got? {
      var pair := (Decode(k.chars), item.value);
      assert passed + ([pair] + Pairs(rest.value)) == passed + [pair] + Pairs(rest.value);
    }
  }

  lemma ReadingLast(passed: seq<(ByteString, Value)>, k: Key, item: Padded, n: nat)
    ensures Reading(passed, Got(LastMember(k, item), n)) == Got(passed + [(Decode(k.chars), item.value)], n)
  {
    assert Pairs(LastMember(k, item)) == [(Decode(k.chars), item.value)];
  }

  lemma MembersByKey(b: ByteString, at: nat, k: Key, start: nat, depth: nat, strict: bool, keys: set<ByteString>)
    requires at <= |b| && ParseKey(b, at) == Got(k, start) && !(strict && Decode(k.chars) in keys)
    ensures start <= |b| && ParseMembers(b, at, depth, strict, keys) == ParseMember(b, start, k, depth, strict, keys)
  {
  }

  /** What a separator, a closing byte or anything else after a member's value means. */
  lemma MemberStep(b: ByteString, passed: seq<(ByteString, Value)>, start: nat, k: Key, item: Padded, end: nat,
                   depth: nat, strict: bool, keys: set<ByteString>, rest: Parsed<Members>)
    requires var key := Decode(k.chars);
             && start <= |b|
             && ParsePadded(b, start, ValueDepth(key, depth), strict && !Deferred(key, depth)) == Got(item, end)
             && (Peek(b, end, COMMA) ==> rest == ParseMembers(b, end + 1, depth, strict, keys + {key}))
    ensures Reading(passed, ParseMember(b, start, k, depth, strict, keys)) ==
            if Peek(b, end, COMMA) then Reading(passed + [(Decode(k.chars), item.value)], rest)
            else if Peek(b, end, OBJECT_CLOSE) then Got(passed + [(Decode(k.chars), item.value)], end + 1)
            else Bad(Syntax)
  {
    MemberTurns(b, start, k, item, end, depth, strict, keys, rest);
    ReadingCons(passed, k, item, rest);
    ReadingLast(passed, k, item, end + 1);
  }

  lemma MemberTurns(b: ByteString, start: nat, k: Key, item: Padded, end: nat,
                    depth: nat, strict: bool, keys: set<ByteString>, rest: Parsed<Members>)
    requires var key := Decode(k.chars);
             && start <= |b|
             && ParsePadded(b, start, ValueDepth(key, depth), strict && !Deferred(key, depth)) == Got(item, end)
             && (Peek(b, end, COMMA) ==> rest == ParseMembers(b, end + 1, depth, strict, keys + {key}))
    ensures ParseMember(b, start, k, depth, strict, keys) ==
            if Peek(b, end, COMMA) then if rest.Bad? then rest else Got(Member(k, item, rest.value), rest.next)
            else if Peek(b, end, OBJECT_CLOSE) then Got(LastMember(k, item), end + 1)
            else Bad(Syntax)
  {
    hide ParsePadded, Decode;
  }

  lemma MembersStep(b: ByteString, passed: seq<(ByteString, Value)>, at: nat, depth: nat, strict: bool,
                    keys: set<ByteString>, key: ByteString, value: Value, end: nat)
    requires MemberAt(b, at, depth, strict, keys, key, value, end)
    ensures Reading(passed, ParseMembers(b, at, depth, strict, keys)) ==
            if Peek(b, end, COMMA) then
              Reading(passed + [(key, value)], ParseMembers(b, end + 1, depth, strict, keys + {key}))
            else if Peek(b, end, OBJECT_CLOSE) then Got(passed + [(key, value)], end + 1)
            else Bad(Syntax)
  {
    var k := ParseKey(b, at);
    var item := ParsePadded(b, k.next, ValueDepth(key, depth), strict && !Deferred(key, depth));
    MembersByKey(b, at, k.value, k.next, depth, strict, keys);
    var rest := if Peek(b, end, COMMA) then ParseMembers(b, end + 1, depth, strict, keys + {key}) else Bad(Syntax);
    MemberStep(b, passed, k.next, k.value, item.value, end, depth, strict, keys, rest);
  }

  /** An object or array past its opening byte and not empty. */
  lemma OpenedArray(b: ByteString, i: nat, depth: nat, strict: bool)
    requires i < |b| && depth < MAX_DEPTH && !Peek(b, SpacesEnd(b, i + 1), ARRAY_CLOSE)
    ensures var p, items := ParseArray(b, i, depth, strict), ParseItems(b, i + 1, depth + 1, strict);
            SameEnd(p, items)
  {
  }

  class Scanner {
    const bytes: ByteString
    const rejectDuplicateKeys: bool
    var index: nat
    var depth: nat
    var schemaRange: Range

    constructor (bytes: ByteString, rejectDuplicateKeys: bool, start: nat)
      requires start <= |bytes|
      ensures this.bytes == bytes && this.rejectDuplicateKeys == rejectDuplicateKeys
      ensures index == start && depth == 0 && schemaRange == NoRange
    {
      this.bytes, this.rejectDuplicateKeys := bytes, rejectDuplicateKeys;
      index, depth, schemaRange := start, 0, NoRange;
    }

    predicate Valid()
      reads this`index
    {
      index <= |bytes|
    }

    predicate Sees(c: Byte)
      reads this`index
    {
      Peek(bytes, index, c)
    }

    method SkipWhitespace()
      requires Valid()
      modifies this`index
      ensures Valid() && index == SpacesEnd(bytes, old(index))
    {
      while index < |bytes| && IsSpace(bytes[index])
        invariant Valid() && SpacesEnd(bytes, index) == SpacesEnd(bytes, old(index))
        decreases |bytes| - index
      {
        index := index + 1;
      }
    }

    method SkipDigits()
      requires Valid()
      modifies this`index
      ensures Valid() && index == DigitsEnd(bytes, old(index))
    {
      while index < |bytes| && IsDigit(bytes[index])
        invariant Valid() && DigitsEnd(bytes, index) == DigitsEnd(bytes, old(index))
        decreases |bytes| - index
      {
        index := index + 1;
      }
    }

    method HexQuad() returns (r: Outcome<int>)
      requires Valid()
      modifies this`index
      ensures Valid()
      ensures r == if HexAt(bytes, old(index)) then Done(HexUnit(bytes, old(index))) else Refused(Syntax)
      ensures r.Done? ==> index == old(index) + 4
    {
      var value := 0;
      var i := 0;
      while i < 4
        invariant 0 <= i <= 4 && index == old(index) + i && Valid()
        invariant forall k :: old(index) <= k < index ==> IsHex(bytes[k])
        invariant i == 1 ==> value == HexValue(bytes[index - 1])
        invariant i == 2 ==> value == HexValue(bytes[index - 2]) * 16 + HexValue(bytes[index - 1])
        invariant i == 3 ==> value == HexValue(bytes[index - 3]) * 256 + HexValue(bytes[index - 2]) * 16
                                      + HexValue(bytes[index - 1])
        invariant i == 4 ==> value == HexUnit(bytes, index - 4)
        invariant i == 0 ==> value == 0
      {
        if index >= |bytes| || HexValue(bytes[index]) < 0 {
          return Refused(Syntax);
        }
        value := value * 16 + HexValue(bytes[index]);
        index := index + 1;
        i := i + 1;
      }
      r := Done(value);
    }

    /** The scalar of the escape whose digits start here, with the low half of a surrogate pair
        consumed and a lone surrogate replaced. */
    method ScanUnicodeEscape() returns (r: Outcome<int>)
      requires Valid() && index >= 2 && bytes[index - 2] == BACKSLASH && bytes[index - 1] == LETTER_U
      modifies this`index
      ensures Valid()
      ensures r.Done? ==> 0 <= r.value < 0x110000 && index > old(index)
                          && Follows(bytes, old(index) - 2, Utf8(r.value), index)
      ensures r.Refused? ==> ParseChars(bytes, old(index) - 2) == Bad(r.failure)
    {
      hide ParseChar, ParseChars, Follows, HexAt, HexUnit, LowEscapeAt, Utf8;
      ghost var start := index - 2;
      var first := HexQuad();
      if first.Refused? {
        EscapeRefused(bytes, start);
        return Refused(Syntax);
      }
      if 0xd800 <= first.value <= 0xdbff {
        LowEscapeShape(bytes, start + 6);
        if index + 6 <= |bytes| && bytes[index] == BACKSLASH && bytes[index + 1] == LETTER_U {
          var saved := index;
          index := index + 2;
          var second := HexQuad();
          if second.Refused? {
            EscapeRefused(bytes, saved);
            SecondRefused(bytes, start);
            return Refused(Syntax);
          }
          if 0xdc00 <= second.value <= 0xdfff {
            EscapePair(bytes, start, first.value, second.value);
            return Done(0x10000 + (first.value - 0xd800) * 0x400 + (second.value - 0xdc00));
          }
          index := saved;
        } else {
          LowEscapeFits(bytes, start + 6);
        }
        EscapeAlone(bytes, start, first.value);
        return Done(REPLACEMENT);
      }
      EscapeAlone(bytes, start, first.value);
      if 0xdc00 <= first.value <= 0xdfff {
        return Done(REPLACEMENT);
      }
      return Done(first.value);
    }

    /** One character, its first byte already seen not to be the closing quote. */
    method ScanChar() returns (r: Outcome<ByteString>)
      requires Valid() && index < |bytes| && bytes[index] != QUOTE
      modifies this`index
      ensures Valid()
      ensures r.Done? ==> index > old(index) && Follows(bytes, old(index), r.value, index)
      ensures r.Refused? ==> ParseChars(bytes, old(index)) == Bad(r.failure)
    {
      ghost var start := index;
      var byte := bytes[index];
      index := index + 1;
      if byte == BACKSLASH {
        if index >= |bytes| {
          return Refused(Syntax);
        }
        var escape := bytes[index];
        index := index + 1;
        var plain := EscapeValue(escape);
        if plain >= 0 {
          FollowsOne(bytes, start);
          return Done([plain as Byte]);
        }
        if escape != LETTER_U {
          return Refused(Syntax);
        }
        var scalar := ScanUnicodeEscape();
        if scalar.Refused? {
          return Refused(scalar.failure);
        }
        return Done(Utf8(scalar.value));
      }
      if byte < 0x20 {
        return Refused(Syntax);
      }
      FollowsOne(bytes, start);
      r := Done([byte]);
    }

    /** A string literal, decoded on the fly. */
    method ScanString() returns (r: Outcome<ByteString>)
      requires Valid()
      modifies this`index
      ensures Valid()
      ensures var p := ParseString(bytes, old(index));
              if p.Got? then r == Done(Decode(p.value)) && index == p.next else r == Refused(p.failure)
    {
      if !Sees(QUOTE) {
        return Refused(Syntax);
      }
      index := index + 1;
      ghost var start := index;
      var output: ByteString := [];
      assert Decoded(bytes, start).Got? ==> [] + Decoded(bytes, start).value == Decoded(bytes, start).value;
      while index < |bytes|
        invariant Valid() && start <= index && Follows(bytes, start, output, index)
        decreases |bytes| - index
      {
        if bytes[index] == QUOTE {
          index := index + 1;
          assert output + [] == output;
          return Done(output);
        }
        ghost var at := index;
        var c := ScanChar();
        if c.Refused? {
          return Refused(c.failure);
        }
        FollowsThen(bytes, start, output, at, c.value, index);
        output := output + c.value;
      }
      r := Refused(Syntax);
    }

    method ScanNumber() returns (r: Check)
      requires Valid()
      modifies this`index
      ensures Valid()
      ensures var p := ParseNumber(bytes, old(index)); r == Verdict(p) && (p.Got? ==> index == p.next)
    {
      if Sees(MINUS) {
        index := index + 1;
      }
      r := ScanWhole();
      if r.Failed? {
        return;
      }
      r := ScanFraction();
      if r.Failed? {
        return;
      }
      r := ScanExponent();
    }

    method ScanWhole() returns (r: Check)
      requires Valid()
      modifies this`index
      ensures Valid()
      ensures var p := ParseWhole(bytes, old(index)); r == Verdict(p) && (p.Got? ==> index == p.next)
    {
      if index >= |bytes| {
        return Failed(Syntax);
      }
      if bytes[index] == ZERO {
        index := index + 1;
      } else if 0x31 <= bytes[index] <= 0x39 {
        SkipDigits();
      } else {
        return Failed(Syntax);
      }
      r := Passed;
    }

    method ScanFraction() returns (r: Check)
      requires Valid()
      modifies this`index
      ensures Valid()
      ensures var p := ParseFraction(bytes, old(index)); r == Verdict(p) && (p.Got? ==> index == p.next)
    {
      if Sees(DOT) {
        index := index + 1;
        if index >= |bytes| || !IsDigit(bytes[index]) {
          return Failed(Syntax);
        }
        SkipDigits();
      }
      r := Passed;
    }

    method ScanExponent() returns (r: Check)
      requires Valid()
      modifies this`index
      ensures Valid()
      ensures var p := ParseExponent(bytes, old(index)); r == Verdict(p) && (p.Got? ==> index == p.next)
    {
      if index < |bytes| && IsExponentMark(bytes[index]) {
        index := index + 1;
        if Sees(PLUS) || Sees(MINUS) {
          index := index + 1;
        }
        if index >= |bytes| || !IsDigit(bytes[index]) {
          return Failed(Syntax);
        }
        SkipDigits();
      }
      r := Passed;
    }

    method ScanLiteral(l: Literal) returns (r: Check)
      requires Valid()
      modifies this`index
      ensures Valid()
      ensures var p := ParseLiteral(bytes, old(index), l); r == Verdict(p) && (p.Got? ==> index == p.next)
    {
      var expected := RenderLiteral(l);
      AtIs(bytes, index, expected);
      if index + |expected| > |bytes| || bytes[index..index + |expected|] != expected {
        return Failed(Syntax);
      }
      index := index + |expected|;
      r := Passed;
    }

    /** What a scan of a value leaves behind. */
    twostate predicate Scanned(p: Parsed<Value>, r: Check)
      reads this
    {
      && r == Verdict(p)
      && depth == old(depth)
      && (p.Got? ==> index == p.next)
      && (p.Got? ==> if p.value.Object? && depth == 0
                     then SchemaFound(bytes, schemaRange, Pairs(p.value.members), old(schemaRange))
                     else schemaRange == old(schemaRange))
    }

    method ScanValue() returns (r: Check)
      requires Valid()
      modifies this
      ensures Valid() && Scanned(ParseValue(bytes, old(index), old(depth), rejectDuplicateKeys), r)
      decreases |bytes| - index, 2
    {
      if index >= |bytes| {
        return Failed(Syntax);
      }
      var byte := bytes[index];
      if byte == OBJECT_OPEN {
        r := ScanObject();
      } else if byte == ARRAY_OPEN {
        r := ScanArray();
      } else if byte == QUOTE {
        var s := ScanString();
        r := if s.Done? then Passed else Failed(s.failure);
      } else if byte == 0x74 {
        r := ScanLiteral(True);
      } else if byte == 0x66 {
        r := ScanLiteral(False);
      } else if byte == 0x6e {
        r := ScanLiteral(Null);
      } else if byte == MINUS || IsDigit(byte) {
        r := ScanNumber();
      } else {
        r := Failed(Syntax);
      }
    }

    method ScanArray() returns (r: Check)
      requires Valid() && Sees(ARRAY_OPEN)
      modifies this
      ensures Valid() && depth == old(depth) && (r.Passed? ==> schemaRange == old(schemaRange))
      ensures var p := ParseArray(bytes, old(index), old(depth), rejectDuplicateKeys);
              r == Verdict(p) && (p.Got? ==> index == p.next)
      decreases |bytes| - index, 1
    {
      depth := depth + 1;
      r := ScanArrayBody();
      depth := depth - 1;
    }

    method ScanArrayBody() returns (r: Check)
      requires Valid() && Sees(ARRAY_OPEN) && depth >= 1
      modifies this
      ensures Valid() && depth == old(depth) && (r.Passed? ==> schemaRange == old(schemaRange))
      ensures var p := ParseArray(bytes, old(index), old(depth) - 1, rejectDuplicateKeys);
              r == Verdict(p) && (p.Got? ==> index == p.next)
      decreases |bytes| - index, 0
    {
      if depth > MAX_DEPTH {
        return Failed(Syntax);
      }
      index := index + 1;
      ghost var first := index;
      SkipWhitespace();
      if Sees(ARRAY_CLOSE) {
        index := index + 1;
        return Passed;
      }
      OpenedArray(bytes, first - 1, depth - 1, rejectDuplicateKeys);
      r := ScanItems(first);
    }

    /** The items and the closing bracket, past the white space after `first`. */
    method ScanItems(ghost first: nat) returns (r: Check)
      requires Valid() && first <= |bytes| && index == SpacesEnd(bytes, first) && depth >= 1
      modifies this
      ensures Valid() && depth == old(depth) && (r.Passed? ==> schemaRange == old(schemaRange))
      ensures var p := ParseItems(bytes, first, old(depth), rejectDuplicateKeys);
              r == Verdict(p) && (p.Got? ==> index == p.next)
      decreases |bytes| - index, 4
    {
      hide ParseItems, ParsePadded;
      ghost var at: nat, whole := first, ParseItems(bytes, first, depth, rejectDuplicateKeys);
      while true
        invariant at <= index && old(index) <= index && Valid() && index == SpacesEnd(bytes, at)
        invariant depth == old(depth) && schemaRange == old(schemaRange)
        invariant SameEnd(whole, ParseItems(bytes, at, depth, rejectDuplicateKeys))
        decreases |bytes| - index
      {
        ItemsAdvance(bytes, whole, at, depth, rejectDuplicateKeys);
        var more;
        r, more, at := ScanItem(at);
        if r.Failed? || !more {
          return;
        }
      }
    }

    /** One item, and the comma or closing bracket after it. */
    method ScanItem(ghost at: nat) returns (r: Check, more: bool, ghost next: nat)
      requires Valid() && at <= |bytes| && index == SpacesEnd(bytes, at) && depth >= 1
      modifies this
      ensures Valid() && depth == old(depth) && (r.Passed? ==> schemaRange == old(schemaRange))
      ensures r.Passed? ==> index > old(index)
      ensures var item := ParsePadded(bytes, at, depth, rejectDuplicateKeys);
              if item.Bad? then r == Failed(item.failure)
              else if Peek(bytes, item.next, COMMA) then
                r.Passed? && more && next == item.next + 1 && index == SpacesEnd(bytes, next)
              else if Peek(bytes, item.next, ARRAY_CLOSE) then r.Passed? && !more && index == item.next + 1
              else r == Failed(Syntax)
      decreases |bytes| - index, 4, 0
    {
      more, next := false, 0;
      r := ScanPadded(at, depth, rejectDuplicateKeys);
      if r.Failed? {
        return;
      }
      if index >= |bytes| {
        r := Failed(Syntax);
      } else if bytes[index] == COMMA {
        index := index + 1;
        next, more := index, true;
        SkipWhitespace();
      } else if bytes[index] == ARRAY_CLOSE {
        index := index + 1;
      } else {
        r := Failed(Syntax);
      }
    }

    /** A value after its leading white space, and the white space that follows it. */
    method ScanPadded(ghost at: nat, ghost inside: nat, ghost strict: bool) returns (r: Check)
      requires Valid() && at <= |bytes| && index == SpacesEnd(bytes, at)
      requires depth >= 1 && inside == depth && strict == rejectDuplicateKeys
      modifies this
      ensures Valid() && depth == old(depth) && (r.Passed? ==> schemaRange == old(schemaRange))
      ensures var p := ParsePadded(bytes, at, inside, strict);
              r == Verdict(p) && (p.Got? ==> index == p.next)
      decreases |bytes| - index, 3
    {
      r := ScanValue();
      if r.Passed? {
        SkipWhitespace();
      }
    }

    /** A key and its colon, and the white space after it. */
    method ScanKey(ghost at: nat) returns (r: Outcome<ByteString>)
      requires Valid() && at <= |bytes| && index == SpacesEnd(bytes, at)
      modifies this`index
      ensures Valid()
      ensures var p := ParseKey(bytes, at);
              if p.Got? then r == Done(Decode(p.value.chars)) && index == SpacesEnd(bytes, p.next)
              else r == Refused(p.failure)
    {
      SpacesEndAgain(bytes, at);
      SkipWhitespace();
      if !Sees(QUOTE) {
        return Refused(Syntax);
      }
      r := ScanString();
      if r.Refused? {
        return;
      }
      SkipWhitespace();
      if !Sees(COLON) {
        return Refused(Syntax);
      }
      index := index + 1;
      SkipWhitespace();
    }

    /** The value of a member: a deferred one by a scanner of its own. */
    method ScanMemberValue(ghost at: nat, key: ByteString) returns (r: Check)
      requires Valid() && at <= |bytes| && index == SpacesEnd(bytes, at) && depth >= 1
      modifies this
      ensures Valid() && depth == old(depth)
      ensures var p := ParsePadded(bytes, at, ValueDepth(key, depth), rejectDuplicateKeys && !Deferred(key, depth));
              && r == Verdict(p)
              && (p.Got? ==> index == p.next)
              && (p.Got? ==> RangeMoves(bytes, depth, key, p.value.value, schemaRange, old(schemaRange)))
      decreases |bytes| - index, 4
    {
      if Deferred(key, depth) {
        var valueStart := index;
        var skipper := new Scanner(bytes, false, index);
        r := skipper.ScanValue();
        if r.Failed? {
          return;
        }
        SchemaRendered(bytes, valueStart, 0, false);
        index := skipper.index;
        schemaRange := Range(valueStart, index);
        SkipWhitespace();
      } else {
        r := ScanPadded(at, depth, rejectDuplicateKeys);
      }
    }

    method ScanObject() returns (r: Check)
      requires Valid() && Sees(OBJECT_OPEN)
      modifies this
      ensures Valid() && Scanned(ParseObject(bytes, old(index), old(depth), rejectDuplicateKeys), r)
      decreases |bytes| - index, 1
    {
      depth := depth + 1;
      r := ScanObjectBody();
      depth := depth - 1;
    }

    method ScanObjectBody() returns (r: Check)
      requires Valid() && Sees(OBJECT_OPEN) && depth >= 1
      modifies this
      ensures Valid() && depth == old(depth)
      ensures var p := ParseObject(bytes, old(index), old(depth) - 1, rejectDuplicateKeys);
              && r == Verdict(p)
              && (p.Got? ==> index == p.next)
              && (p.Got? ==> if p.value.Object? && depth == 1
                             then SchemaFound(bytes, schemaRange, Pairs(p.value.members), old(schemaRange))
                             else schemaRange == old(schemaRange))
      decreases |bytes| - index, 0
    {
      if depth > MAX_DEPTH {
        return Failed(Syntax);
      }
      index := index + 1;
      ghost var first := index;
      SkipWhitespace();
      if Sees(OBJECT_CLOSE) {
        index := index + 1;
        return Passed;
      }
      OpenedObject(bytes, first - 1, depth - 1, rejectDuplicateKeys);
      r := ScanMembers(first);
    }

    /** One member and the white space after it; a repeated key is refused before its value is read. */
    method ScanMember(ghost at: nat, seen: set<ByteString>, ghost keys: set<ByteString>)
      returns (r: Check, seenNow: set<ByteString>, ghost key: ByteString, ghost value: Value)
      requires Valid() && at <= |bytes| && index == SpacesEnd(bytes, at) && depth >= 1
      requires rejectDuplicateKeys ==> seen == keys
      modifies this
      ensures Valid() && depth == old(depth)
      ensures r.Failed? ==> MemberRefused(bytes, at, depth, rejectDuplicateKeys, keys, r.failure)
      ensures r.Passed? ==>
                MemberAt(bytes, at, depth, rejectDuplicateKeys, keys, key, value, index) && index > old(index)
      ensures r.Passed? && rejectDuplicateKeys ==> seenNow == keys + {key}
      ensures r.Passed? ==> RangeMoves(bytes, depth, key, value, schemaRange, old(schemaRange))
      decreases |bytes| - index, 5
    {
      seenNow, key, value := seen, [], Lit(Null);
      var k := ScanKey(at);
      if k.Refused? {
        r := Failed(k.failure);
        return;
      }
      key := k.value;
      if rejectDuplicateKeys {
        if k.value in seen {
          r := Failed(Repeated(k.value));
          return;
        }
        seenNow := seen + {k.value};
      }
      ghost var start := ParseKey(bytes, at).next;
      ghost var p := ParsePadded(bytes, start, ValueDepth(key, depth), rejectDuplicateKeys && !Deferred(key, depth));
      r := ScanMemberValue(start, k.value);
      if r.Passed? {
        value := p.value.value;
      }
    }

    /** The byte after a member: a comma with the white space after it, or the closing brace. */
    method ScanMemberEnd() returns (r: Check, more: bool)
      requires Valid()
      modifies this`index
      ensures Valid()
      ensures r.Failed? ==>
                r.failure == Syntax && !Peek(bytes, old(index), COMMA) && !Peek(bytes, old(index), OBJECT_CLOSE)
      ensures r.Passed? && more ==> Peek(bytes, old(index), COMMA) && index == SpacesEnd(bytes, old(index) + 1)
      ensures r.Passed? && !more ==> Peek(bytes, old(index), OBJECT_CLOSE) && index == old(index) + 1
    {
      r, more := Passed, false;
      if index >= |bytes| {
        r := Failed(Syntax);
      } else if bytes[index] == COMMA {
        more := true;
        index := index + 1;
        SkipWhitespace();
      } else if bytes[index] == OBJECT_CLOSE {
        index := index + 1;
      } else {
        r := Failed(Syntax);
      }
    }

    /** One member, and the comma or closing brace after it; `goal` is what the members come to. */
    method ScanEntry(ghost at: nat, seen: set<ByteString>, ghost keys: set<ByteString>,
                     ghost passed: seq<(ByteString, Value)>, ghost before: Range,
                     ghost goal: Parsed<seq<(ByteString, Value)>>)
      returns (r: Check, seenNow: set<ByteString>, more: bool,
               ghost key: ByteString, ghost value: Value, ghost next: nat)
      requires Valid() && at <= |bytes| && index == SpacesEnd(bytes, at) && depth >= 1
      requires (rejectDuplicateKeys ==> seen == keys) && RangeOk(bytes, depth, schemaRange, passed, before)
      requires goal == Reading(passed, ParseMembers(bytes, at, depth, rejectDuplicateKeys, keys))
      modifies this
      ensures Valid() && depth == old(depth)
      ensures r.Passed? ==> next <= |bytes| && index > old(index)
      ensures r.Passed? ==> RangeOk(bytes, depth, schemaRange, passed + [(key, value)], before)
      ensures r.Passed? && rejectDuplicateKeys ==> seenNow == keys + {key}
      ensures r.Passed? && more ==> index == SpacesEnd(bytes, next)
      ensures goal == if r.Failed? then Bad(r.failure)
                      else if more then Reading(passed + [(key, value)],
                                                ParseMembers(bytes, next, depth, rejectDuplicateKeys, keys + {key}))
                      else Got(passed + [(key, value)], index)
      decreases |bytes| - index, 6
    {
      hide ParseMembers, ParsePadded, RangeOk, RangeMoves, MemberAt;
      ghost var range := schemaRange;
      more, next := false, 0;
      r, seenNow, key, value := ScanMember(at, seen, keys);
      if r.Failed? {
        MembersRefused(bytes, at, depth, rejectDuplicateKeys, keys, r.failure);
        return;
      }
      RangeSteps(bytes, depth, passed, key, value, before, range, schemaRange);
      MembersStep(bytes, passed, at, depth, rejectDuplicateKeys, keys, key, value, index);
      ghost var end := index;
      r, more := ScanMemberEnd();
      next := if more then end + 1 else end;
    }

    /** The members and the closing brace, past the white space after `first`. */
    method ScanMembers(ghost first: nat) returns (r: Check)
      requires Valid() && first <= |bytes| && index == SpacesEnd(bytes, first) && depth >= 1
      modifies this
      ensures Valid() && depth == old(depth)
      ensures var p := Reading([], ParseMembers(bytes, first, old(depth), rejectDuplicateKeys, {}));
              && r == Verdict(p)
              && (p.Got? ==> index == p.next)
              && (p.Got? ==> RangeOk(bytes, depth, schemaRange, p.value, old(schemaRange)))
      decreases |bytes| - index, 7
    {
      var seen: set<ByteString> := {};
      ghost var keys: set<ByteString> := {};
      ghost var passed: seq<(ByteString, Value)> := [];
      ghost var at: nat, goal := first, Reading([], ParseMembers(bytes, first, depth, rejectDuplicateKeys, {}));
      var more := true;
      r := Passed;
      while more
        invariant old(index) <= index && Valid() && depth == old(depth) && r.Passed?
        invariant RangeOk(bytes, depth, schemaRange, passed, old(schemaRange))
        invariant rejectDuplicateKeys ==> seen == keys
        invariant at <= |bytes| && (more ==> index == SpacesEnd(bytes, at))
        invariant goal == if more then Reading(passed, ParseMembers(bytes, at, depth, rejectDuplicateKeys, keys))
                          else Got(passed, index)
        decreases |bytes| - index
      {
        ghost var key: ByteString, value: Value;
        r, seen, more, key, value, at := ScanEntry(at, seen, keys, passed, old(schemaRange), goal);
        if r.Failed? {
          return;
        }
        keys, passed := keys + {key}, passed + [(key, value)];
      }
    }

    method ScanDocument() returns (r: Check)
      requires index == 0 && depth == 0 && schemaRange == NoRange
      modifies this
      ensures Valid()
      ensures var p := ParseDocument(bytes, rejectDuplicateKeys);
              && r == Verdict(p)
              && (p.Got? ==> if p.value.value.Object?
                             then SchemaFound(bytes, schemaRange, Pairs(p.value.value.members), NoRange)
                             else schemaRange == NoRange)
    {
      SkipWhitespace();
      r := ScanValue();
      if r.Failed? {
        return;
      }
      SkipWhitespace();
      if index != |bytes| {
        return Failed(NotOneValue);
      }
    }
  }

  /** The strict scan of a whole buffer: it passes exactly the conforming texts. */
  method Scan(data: ByteString) returns (r: Check)
    ensures r == Verdict(ParseDocument(data, true))
    ensures r.Passed? <==> exists t :: Conforms(t) && RenderPadded(t) == data
  {
    var scanner := new Scanner(data, true, 0);
    r := scanner.ScanDocument();
    AcceptsExactly(data);
  }

  /** The raw bytes of a request's outermost `schema` member: exactly its value's text. */
  method SchemaMember(request: ByteString) returns (r: Check, member: seq<ByteString>)
    ensures r.Passed? <==> exists t :: Conforms(t) && RenderPadded(t) == request
    ensures forall t :: Conforms(t) && RenderPadded(t) == request ==> member == SchemaTexts(t.value)
  {
    var scanner := new Scanner(request, true, 0);
    r := scanner.ScanDocument();
    AcceptsExactly(request);
    member := [];
    if r.Passed? {
      forall t | Conforms(t) && RenderPadded(t) == request
        ensures ParseDocument(request, true).value == t
      {
        DocumentComplete(t);
      }
      if scanner.schemaRange.Range? {
        member := [request[scanner.schemaRange.lo..scanner.schemaRange.hi]];
      }
    }
  }

  /** The text of the `schema` member of an object, if it has one. */
  function SchemaTexts(v: Value): seq<ByteString> {
    if v.Object? && LastSchema(Pairs(v.members)) != [] then [Render(LastSchema(Pairs(v.members))[0])] else []
  }
}
