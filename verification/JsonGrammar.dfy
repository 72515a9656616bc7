/** JSON texts by the grammar of RFC 8259 sections 2 to 7, as concrete syntax trees that
    keep every byte, with the meaning of strings given by section 7 escapes. */
module JsonGrammar {
  import opened Bytes

  const QUOTE: Byte := 0x22
  const BACKSLASH: Byte := 0x5c
  const SLASH: Byte := 0x2f
  const COMMA: Byte := 0x2c
  const COLON: Byte := 0x3a
  const OBJECT_OPEN: Byte := 0x7b
  const OBJECT_CLOSE: Byte := 0x7d
  const ARRAY_OPEN: Byte := 0x5b
  const ARRAY_CLOSE: Byte := 0x5d
  const MINUS: Byte := 0x2d
  const PLUS: Byte := 0x2b
  const DOT: Byte := 0x2e
  const ZERO: Byte := 0x30
  const LETTER_U: Byte := 0x75

  predicate IsSpace(b: Byte) { b == 0x20 || b == 0x09 || b == 0x0a || b == 0x0d }
  predicate IsDigit(b: Byte) { 0x30 <= b <= 0x39 }
  predicate IsExponentMark(b: Byte) { b == 0x65 || b == 0x45 }

  function HexValue(b: Byte): (v: int)
    ensures -1 <= v < 16
  {
    if 0x30 <= b <= 0x39 then b as int - 0x30
    else if 0x41 <= b <= 0x46 then b as int - 0x41 + 10
    else if 0x61 <= b <= 0x66 then b as int - 0x61 + 10
    else -1
  }

  predicate IsHex(b: Byte) { HexValue(b) >= 0 }

  predicate IsSpaces(s: ByteString) { forall i :: 0 <= i < |s| ==> IsSpace(s[i]) }
  predicate IsDigits(s: ByteString) { forall i :: 0 <= i < |s| ==> IsDigit(s[i]) }

  // ---- strings ----

  datatype StrChar = Raw(b: Byte) | Escaped(letter: Byte) | Unicode(h0: Byte, h1: Byte, h2: Byte, h3: Byte)

  /** The byte a one-letter escape stands for, or -1. */
  function EscapeValue(letter: Byte): (v: int)
    ensures -1 <= v < 0x80
  {
    if letter == QUOTE then 0x22
    else if letter == BACKSLASH then 0x5c
    else if letter == SLASH then 0x2f
    else if letter == 0x62 then 0x08
    else if letter == 0x66 then 0x0c
    else if letter == 0x6e then 0x0a
    else if letter == 0x72 then 0x0d
    else if letter == 0x74 then 0x09
    else -1
  }

  predicate CharOk(c: StrChar) {
    match c
    case Raw(b) => b >= 0x20 && b != QUOTE && b != BACKSLASH
    case Escaped(letter) => EscapeValue(letter) >= 0
    case Unicode(h0, h1, h2, h3) => IsHex(h0) && IsHex(h1) && IsHex(h2) && IsHex(h3)
  }

  predicate CharsOk(cs: seq<StrChar>) { forall i :: 0 <= i < |cs| ==> CharOk(cs[i]) }

  function RenderChar(c: StrChar): ByteString {
    match c
    case Raw(b) => [b]
    case Escaped(letter) => [BACKSLASH, letter]
    case Unicode(h0, h1, h2, h3) => [BACKSLASH, LETTER_U, h0, h1, h2, h3]
  }

  function RenderChars(cs: seq<StrChar>): ByteString {
    if cs == [] then [] else RenderChar(cs[0]) + RenderChars(cs[1..])
  }

  function RenderString(cs: seq<StrChar>): ByteString {
    [QUOTE] + RenderChars(cs) + [QUOTE]
  }

  /** The value of a digit of a well-formed escape. */
  function Nibble(b: Byte): (v: int)
    ensures 0 <= v < 16
  {
    if IsHex(b) then HexValue(b) else 0
  }

  function CodeUnit(c: StrChar): (u: int)
    requires c.Unicode?
    ensures 0 <= u < 0x10000
  {
    Nibble(c.h0) * 0x1000 + Nibble(c.h1) * 0x100 + Nibble(c.h2) * 0x10 + Nibble(c.h3)
  }

  predicate HighSurrogate(u: int) { 0xd800 <= u <= 0xdbff }
  predicate LowSurrogate(u: int) { 0xdc00 <= u <= 0xdfff }

  const REPLACEMENT := 0xfffd

  /** UTF-8 of one scalar value (RFC 3629 section 3). */
  function Utf8(scalar: int): ByteString
    requires 0 <= scalar < 0x110000
  {
    if scalar < 0x80 then [scalar as Byte]
    else if scalar < 0x800 then [(0xc0 + scalar / 0x40) as Byte, Tail(scalar)]
    else if scalar < 0x10000 then [(0xe0 + scalar / 0x1000) as Byte, Tail(scalar / 0x40), Tail(scalar)]
    else [(0xf0 + scalar / 0x40000) as Byte, Tail(scalar / 0x1000), Tail(scalar / 0x40), Tail(scalar)]
  }

  /** A continuation byte carrying the low six bits. */
  function Tail(bits: nat): Byte {
    (0x80 + bits % 0x40) as Byte
  }

  function PairValue(high: int, low: int): (v: int)
    requires HighSurrogate(high) && LowSurrogate(low)
    ensures 0x10000 <= v < 0x110000
  {
    0x10000 + (high - 0xd800) * 0x400 + (low - 0xdc00)
  }

  /** A surrogate pair written as two escapes. */
  predicate StartsPair(cs: seq<StrChar>) {
    && |cs| >= 2 && cs[0].Unicode? && cs[1].Unicode?
    && HighSurrogate(CodeUnit(cs[0])) && LowSurrogate(CodeUnit(cs[1]))
  }

  /** The bytes a string literal denotes: pairs joined, lone surrogates replaced. */
  function Decode(cs: seq<StrChar>): ByteString {
    if cs == [] then []
    else if StartsPair(cs) then Utf8(PairValue(CodeUnit(cs[0]), CodeUnit(cs[1]))) + Decode(cs[2..])
    else DecodeChar(cs[0]) + Decode(cs[1..])
  }

  function DecodeChar(c: StrChar): ByteString {
    match c
    case Raw(b) => [b]
    case Escaped(letter) => if EscapeValue(letter) < 0 then [] else [EscapeValue(letter) as Byte]
    case Unicode(_, _, _, _) =>
      var u := CodeUnit(c);
      if HighSurrogate(u) || LowSurrogate(u) then Utf8(REPLACEMENT) else Utf8(u)
  }

  // ---- numbers ----

  datatype Exponent = NoExponent | Exponent(mark: Byte, sign: ByteString, digits: ByteString)

  /** An empty fraction means that there is none. */
  datatype Number = Number(minus: bool, whole: ByteString, fraction: ByteString, exponent: Exponent)

  predicate WholeOk(s: ByteString) {
    s == [ZERO] || (s != [] && IsDigits(s) && s[0] != ZERO)
  }

  predicate ExponentOk(e: Exponent) {
    e.Exponent? ==> IsExponentMark(e.mark) && (e.sign == [] || e.sign == [PLUS] || e.sign == [MINUS])
                    && e.digits != [] && IsDigits(e.digits)
  }

  predicate NumberOk(n: Number) {
    WholeOk(n.whole) && IsDigits(n.fraction) && ExponentOk(n.exponent)
  }

  function RenderFraction(fraction: ByteString): ByteString {
    if fraction == [] then [] else [DOT] + fraction
  }

  function RenderExponent(e: Exponent): ByteString {
    match e
    case NoExponent => []
    case Exponent(mark, sign, digits) => [mark] + sign + digits
  }

  function RenderNumber(n: Number): ByteString {
    (if n.minus then [MINUS] else []) + n.whole + RenderFraction(n.fraction) + RenderExponent(n.exponent)
  }

  // ---- values ----

  datatype Literal = True | False | Null

  datatype Value =
    | Lit(literal: Literal)
    | Num(number: Number)
    | Str(chars: seq<StrChar>)
    | EmptyArray(gap: ByteString)
    | Array(items: Items)
    | EmptyObject(gap: ByteString)
    | Object(members: Members)

  /** A value with the white space around it. */
  datatype Padded = Padded(lead: ByteString, value: Value, trail: ByteString)

  datatype Items = LastItem(item: Padded) | Item(item: Padded, rest: Items)

  /** A key with the white space around it, before its colon. */
  datatype Key = Key(lead: ByteString, chars: seq<StrChar>, trail: ByteString)

  datatype Members = LastMember(key: Key, item: Padded) | Member(key: Key, item: Padded, rest: Members)

  function RenderLiteral(l: Literal): ByteString {
    match l
    case True => [0x74, 0x72, 0x75, 0x65]
    case False => [0x66, 0x61, 0x6c, 0x73, 0x65]
    case Null => [0x6e, 0x75, 0x6c, 0x6c]
  }

  function Render(v: Value): ByteString
    decreases v, 0
  {
    match v
    case Lit(l) => RenderLiteral(l)
    case Num(n) => RenderNumber(n)
    case Str(cs) => RenderString(cs)
    case EmptyArray(gap) => [ARRAY_OPEN] + gap + [ARRAY_CLOSE]
    case Array(items) => [ARRAY_OPEN] + RenderItems(items)
    case EmptyObject(gap) => [OBJECT_OPEN] + gap + [OBJECT_CLOSE]
    case Object(members) => [OBJECT_OPEN] + RenderMembers(members)
  }

  function RenderPadded(p: Padded): ByteString {
    p.lead + Render(p.value) + p.trail
  }

  function RenderKey(k: Key): ByteString {
    k.lead + RenderString(k.chars) + k.trail
  }

  /** From after the bracket or comma through the closing bracket. */
  function RenderItems(items: Items): ByteString
    decreases items, 1
  {
    RenderPadded(items.item) + RenderItemsTail(items)
  }

  function RenderItemsTail(items: Items): ByteString
    decreases items, 0
  {
    if items.LastItem? then [ARRAY_CLOSE] else [COMMA] + RenderItems(items.rest)
  }

  function RenderMembers(ms: Members): ByteString
    decreases ms, 1
  {
    RenderKey(ms.key) + [COLON] + RenderPadded(ms.item) + RenderMembersTail(ms)
  }

  function RenderMembersTail(ms: Members): ByteString
    decreases ms, 0
  {
    if ms.LastMember? then [OBJECT_CLOSE] else [COMMA] + RenderMembers(ms.rest)
  }

  predicate Ok(v: Value) {
    match v
    case Lit(_) => true
    case Num(n) => NumberOk(n)
    case Str(cs) => CharsOk(cs)
    case EmptyArray(gap) => IsSpaces(gap)
    case Array(items) => ItemsOk(items)
    case EmptyObject(gap) => IsSpaces(gap)
    case Object(members) => MembersOk(members)
  }

  predicate SpacedOk(p: Padded) {
    IsSpaces(p.lead) && IsSpaces(p.trail)
  }

  predicate PaddedOk(p: Padded) {
    SpacedOk(p) && Ok(p.value)
  }

  predicate KeyOk(k: Key) {
    IsSpaces(k.lead) && CharsOk(k.chars) && IsSpaces(k.trail)
  }

  predicate ItemsOk(items: Items) {
    SpacedOk(items.item) && Ok(items.item.value) && (items.Item? ==> ItemsOk(items.rest))
  }

  predicate MembersOk(ms: Members) {
    KeyOk(ms.key) && SpacedOk(ms.item) && Ok(ms.item.value) && (ms.Member? ==> MembersOk(ms.rest))
  }

  // ---- nesting and repeated keys, as the scanner judges them ----

  const MAX_DEPTH := 2048

  /** The bytes of the word `schema`. */
  const SCHEMA_KEY: ByteString := [0x73, 0x63, 0x68, 0x65, 0x6d, 0x61]

  /** Container nesting. */
  function Depth(v: Value): nat {
    match v
    case Array(items) => 1 + ItemsDepth(items)
    case Object(members) => 1 + MembersDepth(members)
    case EmptyArray(_) => 1
    case EmptyObject(_) => 1
    case _ => 0
  }

  function ItemsDepth(items: Items): nat {
    match items
    case LastItem(p) => Depth(p.value)
    case Item(p, rest) => Max(Depth(p.value), ItemsDepth(rest))
  }

  function MembersDepth(ms: Members): nat {
    match ms
    case LastMember(_, p) => Depth(p.value)
    case Member(_, p, rest) => Max(Depth(p.value), MembersDepth(rest))
  }

  function Max(a: nat, b: nat): nat { if a < b then b else a }

  /** No container opened inside `depth` others exceeds the limit; the value of a member named
      `schema` of a depth-1 object is counted afresh, as a scan of its own. */
  predicate DepthOk(v: Value, depth: nat) {
    match v
    case Array(items) => depth < MAX_DEPTH && ItemsDepthOk(items, depth + 1)
    case Object(members) => depth < MAX_DEPTH && MembersDepthOk(members, depth + 1)
    case EmptyArray(_) => depth < MAX_DEPTH
    case EmptyObject(_) => depth < MAX_DEPTH
    case _ => true
  }

  predicate ItemsDepthOk(items: Items, depth: nat) {
    DepthOk(items.item.value, depth) && (items.Item? ==> ItemsDepthOk(items.rest, depth))
  }

  predicate Deferred(key: ByteString, depth: nat) {
    depth == 1 && key == SCHEMA_KEY
  }

  /** The depth at which a member's value is scanned. */
  function ValueDepth(key: ByteString, depth: nat): nat {
    if Deferred(key, depth) then 0 else depth
  }

  predicate MembersDepthOk(ms: Members, depth: nat) {
    && DepthOk(ms.item.value, ValueDepth(Decode(ms.key.chars), depth))
    && (ms.Member? ==> MembersDepthOk(ms.rest, depth))
  }

  /** No object repeats a decoded key, except below a deferred member. */
  predicate KeysOk(v: Value, depth: nat) {
    match v
    case Array(items) => ItemsKeysOk(items, depth + 1)
    case Object(members) => MembersKeysOk(members, depth + 1, {})
    case _ => true
  }

  predicate ItemsKeysOk(items: Items, depth: nat) {
    KeysOk(items.item.value, depth) && (items.Item? ==> ItemsKeysOk(items.rest, depth))
  }

  predicate MembersKeysOk(ms: Members, depth: nat, seen: set<ByteString>) {
    var key := Decode(ms.key.chars);
    && key !in seen
    && (Deferred(key, depth) || KeysOk(ms.item.value, depth))
    && (ms.Member? ==> MembersKeysOk(ms.rest, depth, seen + {key}))
  }

  /** A value is within the scanner's limits where it stands. */
  predicate Limits(v: Value, depth: nat, strict: bool) {
    DepthOk(v, depth) && (strict ==> KeysOk(v, depth))
  }

  predicate ItemsLimits(items: Items, depth: nat, strict: bool) {
    ItemsDepthOk(items, depth) && (strict ==> ItemsKeysOk(items, depth))
  }

  predicate MembersLimits(ms: Members, depth: nat, strict: bool, seen: set<ByteString>) {
    MembersDepthOk(ms, depth) && (strict ==> MembersKeysOk(ms, depth, seen))
  }

  lemma ArrayLimits(items: Items, depth: nat, strict: bool)
    requires depth < MAX_DEPTH
    ensures Limits(Array(items), depth, strict) <==> ItemsLimits(items, depth + 1, strict)
  {
  }

  lemma ObjectLimits(ms: Members, depth: nat, strict: bool)
    requires depth < MAX_DEPTH
    ensures Limits(Object(ms), depth, strict) <==> MembersLimits(ms, depth + 1, strict, {})
  {
  }

  lemma ItemLimits(items: Items, depth: nat, strict: bool)
    ensures ItemsLimits(items, depth, strict) <==>
            Limits(items.item.value, depth, strict) && (items.Item? ==> ItemsLimits(items.rest, depth, strict))
  {
  }

  lemma MemberLimits(ms: Members, depth: nat, strict: bool, seen: set<ByteString>)
    ensures var key := Decode(ms.key.chars);
            MembersLimits(ms, depth, strict, seen) <==>
            && (strict ==> key !in seen)
            && Limits(ms.item.value, ValueDepth(key, depth), strict && !Deferred(key, depth))
            && (ms.Member? ==> MembersLimits(ms.rest, depth, strict, seen + {key}))
  {
  }
}
