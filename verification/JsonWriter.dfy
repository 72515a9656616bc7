/** The handwritten JSON encoding of a decoded tree: no white space, keys in byte order, every
    solidus escaped. Numbers are printed by a codec that is a parameter. */
module JsonWriter {
  import opened Bytes
  import opened ByteOrder
  import opened JsonGrammar
  import opened Options

  /** A decoded JSON tree; a number keeps its literal. */
  datatype Tree =
    | JObject(fields: map<ByteString, Tree>)
    | JArray(items: seq<Tree>)
    | JString(text: ByteString)
    | JNumber(number: Number)
    | JBool(flag: bool)
    | JNull

  /** The text a number literal is rewritten to, if it denotes a finite double. */
  type Format = Number -> Option<Number>

  /** Rewriting yields a grammatical number that rewriting leaves alone. */
  ghost predicate Faithful(format: Format) {
    forall n :: format(n).Some? ==> NumberOk(format(n).value) && format(format(n).value) == format(n)
  }

  predicate Encodable(t: Tree, format: Format) {
    match t
    case JObject(fields) => forall k :: k in fields ==> Encodable(fields[k], format)
    case JArray(items) => forall i :: 0 <= i < |items| ==> Encodable(items[i], format)
    case JNumber(n) => format(n).Some?
    case _ => true
  }

  // ---- strings ----

  /** How one byte is written inside a string. */
  function WriteByte(b: Byte): (c: StrChar)
    ensures CharOk(c)
  {
    if b == QUOTE || b == BACKSLASH || b == SLASH then Escaped(b)
    else if b == 0x0a then Escaped(0x6e)
    else if b == 0x0d then Escaped(0x72)
    else if b == 0x09 then Escaped(0x74)
    else if b == 0x08 then Escaped(0x62)
    else if b == 0x0c then Escaped(0x66)
    else if b < 0x20 then Unicode(ZERO, ZERO, HexDigit(b as int / 16), HexDigit(b as int % 16))
    else Raw(b)
  }

  function WriteChars(s: ByteString): (cs: seq<StrChar>)
    ensures CharsOk(cs)
  {
    if s == [] then [] else [WriteByte(s[0])] + WriteChars(s[1..])
  }

  lemma WriteByteDecodes(b: Byte)
    ensures DecodeChar(WriteByte(b)) == [b]
    ensures WriteByte(b).Unicode? ==> CodeUnit(WriteByte(b)) < 0x20
  {
  }

  /** A written string denotes the string. */
  lemma {:induction false} WriteDecodes(s: ByteString)
    ensures Decode(WriteChars(s)) == s
    decreases |s|
  {
    if s != [] {
      var cs := WriteChars(s);
      WriteByteDecodes(s[0]);
      assert !StartsPair(cs);
      assert cs[1..] == WriteChars(s[1..]);
      WriteDecodes(s[1..]);
    }
  }

  // ---- the syntax tree of the encoding ----

  function Bare(v: Value): Padded {
    Padded([], v, [])
  }

  function BareKey(key: ByteString): Key {
    Key([], WriteChars(key), [])
  }

  function Layout(t: Tree, format: Format): Value
    requires Encodable(t, format)
    decreases t, 1, 0
  {
    match t
    case JObject(fields) =>
      if |fields| == 0 then EmptyObject([]) else Object(MemberLayout(t, Sorted(fields.Keys), format))
    case JArray(items) => if items == [] then EmptyArray([]) else Array(ItemLayout(items, format))
    case JString(text) => Str(WriteChars(text))
    case JNumber(n) => Num(format(n).value)
    case JBool(flag) => Lit(if flag then True else False)
    case JNull => Lit(Null)
  }

  /** The members of an object under the given keys. */
  function MemberLayout(t: Tree, keys: seq<ByteString>, format: Format): Members
    requires t.JObject? && Encodable(t, format) && keys != [] && forall k :: k in keys ==> k in t.fields
    decreases t, 0, |keys|
  {
    var item := Bare(Layout(t.fields[keys[0]], format));
    if |keys| == 1 then LastMember(BareKey(keys[0]), item)
    else Member(BareKey(keys[0]), item, MemberLayout(t, keys[1..], format))
  }

  function ItemLayout(items: seq<Tree>, format: Format): Items
    requires items != [] && forall i :: 0 <= i < |items| ==> Encodable(items[i], format)
    decreases items, 0
  {
    var item := Bare(Layout(items[0], format));
    if |items| == 1 then LastItem(item) else Item(item, ItemLayout(items[1..], format))
  }

  /** The encoding of a tree. */
  function Encode(t: Tree, format: Format): ByteString
    requires Encodable(t, format)
  {
    Render(Layout(t, format))
  }
}
