/** The strict scan as a function of the bytes: what each scanning step consumes, with the
    syntax tree it recognised. */
module JsonParser {
  import opened Bytes
  import opened JsonGrammar
  import opened Slices

  datatype Failure = Syntax | NotOneValue | Repeated(key: ByteString)

  datatype Parsed<+T> = Got(value: T, next: nat) | Bad(failure: Failure)

  function SpacesEnd(b: ByteString, i: nat): (n: nat)
    requires i <= |b|
    ensures i <= n <= |b|
    decreases |b| - i
  {
    if i < |b| && IsSpace(b[i]) then SpacesEnd(b, i + 1) else i
  }

  function DigitsEnd(b: ByteString, i: nat): (n: nat)
    requires i <= |b|
    ensures i <= n <= |b|
    decreases |b| - i
  {
    if i < |b| && IsDigit(b[i]) then DigitsEnd(b, i + 1) else i
  }

  predicate Peek(b: ByteString, i: nat, c: Byte) {
    i < |b| && b[i] == c
  }

  /** The character whose first byte is at i, inside a string. */
  function ParseChar(b: ByteString, i: nat): (p: Parsed<StrChar>)
    requires i < |b| && b[i] != QUOTE
    ensures p.Got? ==> i < p.next <= |b|
  {
    if b[i] < 0x20 then Bad(Syntax)
    else if b[i] != BACKSLASH then Got(Raw(b[i]), i + 1)
    else if i + 1 >= |b| then Bad(Syntax)
    else if EscapeValue(b[i + 1]) >= 0 then Got(Escaped(b[i + 1]), i + 2)
    else if b[i + 1] != LETTER_U || i + 6 > |b| then Bad(Syntax)
    else if IsHex(b[i + 2]) && IsHex(b[i + 3]) && IsHex(b[i + 4]) && IsHex(b[i + 5]) then
      Got(Unicode(b[i + 2], b[i + 3], b[i + 4], b[i + 5]), i + 6)
    else Bad(Syntax)
  }

  /** Characters up to and through the closing quote. */
  function ParseChars(b: ByteString, i: nat): (p: Parsed<seq<StrChar>>)
    requires i <= |b|
    ensures p.Got? ==> i < p.next <= |b|
    decreases |b| - i
  {
    if i == |b| then Bad(Syntax)
    else if b[i] == QUOTE then Got([], i + 1)
    else
      var c := ParseChar(b, i);
      if c.Bad? then Bad(c.failure)
      else
        var rest := ParseChars(b, c.next);
        if rest.Bad? then rest else Got([c.value] + rest.value, rest.next)
  }

  function ParseString(b: ByteString, i: nat): (p: Parsed<seq<StrChar>>)
    requires i <= |b|
    ensures p.Got? ==> i < p.next <= |b|
  {
    if Peek(b, i, QUOTE) then ParseChars(b, i + 1) else Bad(Syntax)
  }

  function ParseWhole(b: ByteString, i: nat): (p: Parsed<ByteString>)
    requires i <= |b|
    ensures p.Got? ==> i < p.next <= |b|
  {
    if i == |b| || !IsDigit(b[i]) then Bad(Syntax)
    else if b[i] == ZERO then Got([ZERO], i + 1)
    else Got(Cut(b, i, DigitsEnd(b, i)), DigitsEnd(b, i))
  }

  function ParseFraction(b: ByteString, i: nat): (p: Parsed<ByteString>)
    requires i <= |b|
    ensures p.Got? ==> i <= p.next <= |b|
  {
    if !Peek(b, i, DOT) then Got([], i)
    else if i + 1 == |b| || !IsDigit(b[i + 1]) then Bad(Syntax)
    else Got(Cut(b, i + 1, DigitsEnd(b, i + 1)), DigitsEnd(b, i + 1))
  }

  function ParseExponent(b: ByteString, i: nat): (p: Parsed<Exponent>)
    requires i <= |b|
    ensures p.Got? ==> i <= p.next <= |b|
  {
    if i == |b| || !IsExponentMark(b[i]) then Got(NoExponent, i)
    else
      var j := if Peek(b, i + 1, PLUS) || Peek(b, i + 1, MINUS) then i + 2 else i + 1;
      if j == |b| || !IsDigit(b[j]) then Bad(Syntax)
      else Got(Exponent(b[i], Cut(b, i + 1, j), Cut(b, j, DigitsEnd(b, j))), DigitsEnd(b, j))
  }

  function ParseNumber(b: ByteString, i: nat): (p: Parsed<Number>)
    requires i <= |b|
    ensures p.Got? ==> i < p.next <= |b|
  {
    var minus := Peek(b, i, MINUS);
    var whole := ParseWhole(b, if minus then i + 1 else i);
    if whole.Bad? then Bad(whole.failure) else
    var fraction := ParseFraction(b, whole.next);
    if fraction.Bad? then Bad(fraction.failure) else
    var exponent := ParseExponent(b, fraction.next);
    if exponent.Bad? then Bad(exponent.failure) else
    Got(Number(minus, whole.value, fraction.value, exponent.value), exponent.next)
  }

  function ParseLiteral(b: ByteString, i: nat, l: Literal): (p: Parsed<Value>)
    requires i <= |b|
    ensures p.Got? ==> i < p.next <= |b|
  {
    var text := RenderLiteral(l);
    if At(b, i, text) then Got(Lit(l), i + |text|) else Bad(Syntax)
  }

  /** A value that starts inside `depth` containers; `strict` turns the repeated-key check on. */
  function ParseValue(b: ByteString, i: nat, depth: nat, strict: bool): (p: Parsed<Value>)
    requires i <= |b|
    ensures p.Got? ==> i < p.next <= |b|
    decreases |b| - i, 2
  {
    if i == |b| then Bad(Syntax)
    else if b[i] == OBJECT_OPEN then ParseObject(b, i, depth, strict)
    else if b[i] == ARRAY_OPEN then ParseArray(b, i, depth, strict)
    else if b[i] == QUOTE then
      var s := ParseString(b, i);
      if s.Bad? then Bad(s.failure) else Got(Str(s.value), s.next)
    else if b[i] == 0x74 then ParseLiteral(b, i, True)
    else if b[i] == 0x66 then ParseLiteral(b, i, False)
    else if b[i] == 0x6e then ParseLiteral(b, i, Null)
    else if b[i] == MINUS || IsDigit(b[i]) then
      var n := ParseNumber(b, i);
      if n.Bad? then Bad(n.failure) else Got(Num(n.value), n.next)
    else Bad(Syntax)
  }

  /** White space, a value, white space. */
  function ParsePadded(b: ByteString, i: nat, depth: nat, strict: bool): (p: Parsed<Padded>)
    requires i <= |b|
    ensures p.Got? ==> i < p.next <= |b|
    decreases |b| - i, 3
  {
    var start := SpacesEnd(b, i);
    var v := ParseValue(b, start, depth, strict);
    if v.Bad? then Bad(v.failure)
    else
      var trailEnd := SpacesEnd(b, v.next);
      Got(Padded(Cut(b, i, start), v.value, Cut(b, v.next, trailEnd)), trailEnd)
  }

  function ParseArray(b: ByteString, i: nat, depth: nat, strict: bool): (p: Parsed<Value>)
    requires i < |b|
    ensures p.Got? ==> i < p.next <= |b|
    decreases |b| - i, 1
  {
    if depth >= MAX_DEPTH then Bad(Syntax)
    else
      var gapEnd := SpacesEnd(b, i + 1);
      if Peek(b, gapEnd, ARRAY_CLOSE) then Got(EmptyArray(Cut(b, i + 1, gapEnd)), gapEnd + 1)
      else
        var items := ParseItems(b, i + 1, depth + 1, strict);
        if items.Bad? then Bad(items.failure) else Got(Array(items.value), items.next)
  }

  function ParseItems(b: ByteString, i: nat, depth: nat, strict: bool): (p: Parsed<Items>)
    requires i <= |b|
    ensures p.Got? ==> i < p.next <= |b|
    decreases |b| - i, 4
  {
    var item := ParsePadded(b, i, depth, strict);
    if item.Bad? then Bad(item.failure)
    else if Peek(b, item.next, COMMA) then
      var rest := ParseItems(b, item.next + 1, depth, strict);
      if rest.Bad? then rest else Got(Item(item.value, rest.value), rest.next)
    else if Peek(b, item.next, ARRAY_CLOSE) then Got(LastItem(item.value), item.next + 1)
    else Bad(Syntax)
  }

  function ParseObject(b: ByteString, i: nat, depth: nat, strict: bool): (p: Parsed<Value>)
    requires i < |b|
    ensures p.Got? ==> i < p.next <= |b|
    decreases |b| - i, 1
  {
    if depth >= MAX_DEPTH then Bad(Syntax)
    else
      var gapEnd := SpacesEnd(b, i + 1);
      if Peek(b, gapEnd, OBJECT_CLOSE) then Got(EmptyObject(Cut(b, i + 1, gapEnd)), gapEnd + 1)
      else
        var ms := ParseMembers(b, i + 1, depth + 1, strict, {});
        if ms.Bad? then Bad(ms.failure) else Got(Object(ms.value), ms.next)
  }

  /** White space, a key, white space, and the colon, which is consumed. */
  function ParseKey(b: ByteString, i: nat): (p: Parsed<Key>)
    requires i <= |b|
    ensures p.Got? ==> i < p.next <= |b|
  {
    var start := SpacesEnd(b, i);
    var key := ParseString(b, start);
    if key.Bad? then Bad(key.failure)
    else
      var colon := SpacesEnd(b, key.next);
      if !Peek(b, colon, COLON) then Bad(Syntax)
      else Got(Key(Cut(b, i, start), key.value, Cut(b, key.next, colon)), colon + 1)
  }

  function ParseMembers(b: ByteString, i: nat, depth: nat, strict: bool, seen: set<ByteString>): (p: Parsed<Members>)
    requires i <= |b|
    ensures p.Got? ==> i < p.next <= |b|
    decreases |b| - i, 4
  {
    var k := ParseKey(b, i);
    if k.Bad? then Bad(k.failure)
    else if strict && Decode(k.value.chars) in seen then Bad(Repeated(Decode(k.value.chars)))
    else ParseMember(b, k.next, k.value, depth, strict, seen)
  }

  /** The value of a member at i, and the members after it. */
  function ParseMember(b: ByteString, i: nat, k: Key, depth: nat, strict: bool, seen: set<ByteString>)
    : (p: Parsed<Members>)
    requires i <= |b|
    ensures p.Got? ==> i < p.next <= |b|
    decreases |b| - i, 4
  {
    var key := Decode(k.chars);
    var item := ParsePadded(b, i, ValueDepth(key, depth), strict && !Deferred(key, depth));
    if item.Bad? then Bad(item.failure)
    else if Peek(b, item.next, COMMA) then
      var rest := ParseMembers(b, item.next + 1, depth, strict, seen + {key});
      if rest.Bad? then rest else Got(Member(k, item.value, rest.value), rest.next)
    else if Peek(b, item.next, OBJECT_CLOSE) then Got(LastMember(k, item.value), item.next + 1)
    else Bad(Syntax)
  }

  /** A whole document: one value and nothing else but white space. */
  function ParseDocument(b: ByteString, strict: bool): (p: Parsed<Padded>)
    ensures p.Got? ==> p.next == |b|
  {
    var p := ParsePadded(b, 0, 0, strict);
    if p.Got? && p.next != |b| then Bad(NotOneValue) else p
  }
}
