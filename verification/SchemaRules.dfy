/** The guided-output schema subset, stated declaratively: what each node must look like, how
    deep nodes may nest, how many properties a tree may declare, and the node a tree denotes. */
module SchemaRules {
  import opened Bytes
  import opened ByteOrder
  import opened JsonGrammar
  import opened JsonWriter
  import opened Options

  const MAX_OBJECT_DEPTH := 3
  const MAX_PROPERTIES := 32
  const MAX_NESTING := 16
  const MAX_ITEMS := 100.0
  const MAX_INTEGER := 9007199254740992.0
  const MAX_BYTES := 65536

  /** The finite double a number literal denotes, if any. */
  type AsFloat = Number -> Option<real>

  const TYPE := Ascii("type")
  const PROPERTIES := Ascii("properties")
  const REQUIRED := Ascii("required")
  const ADDITIONAL := Ascii("additionalProperties")
  const ITEMS := Ascii("items")
  const MIN_ITEMS := Ascii("minItems")
  const MAX_ITEMS_KEY := Ascii("maxItems")
  const ENUM := Ascii("enum")
  const MINIMUM := Ascii("minimum")
  const MAXIMUM := Ascii("maximum")

  datatype Kind = ObjectKind | ArrayKind | StringKind | IntegerKind | NumberKind | BooleanKind

  function KindNamed(name: ByteString): Option<Kind> {
    if name == Ascii("object") then Some(ObjectKind)
    else if name == Ascii("array") then Some(ArrayKind)
    else if name == Ascii("string") then Some(StringKind)
    else if name == Ascii("integer") then Some(IntegerKind)
    else if name == Ascii("number") then Some(NumberKind)
    else if name == Ascii("boolean") then Some(BooleanKind)
    else None
  }

  function Field(t: Tree, key: ByteString): Option<Tree> {
    if t.JObject? && key in t.fields then Some(t.fields[key]) else None
  }

  function KindOf(t: Tree): Option<Kind> {
    var named := Field(t, TYPE);
    if named.Some? && named.value.JString? then KindNamed(named.value.text) else None
  }

  function Allowed(kind: Kind): set<ByteString> {
    match kind
    case ObjectKind => {TYPE, PROPERTIES, REQUIRED, ADDITIONAL}
    case ArrayKind => {TYPE, ITEMS, MIN_ITEMS, MAX_ITEMS_KEY}
    case StringKind => {TYPE, ENUM}
    case IntegerKind => {TYPE, MINIMUM, MAXIMUM}
    case NumberKind => {TYPE, MINIMUM, MAXIMUM}
    case BooleanKind => {TYPE}
  }

  predicate Printable(name: ByteString) {
    forall i :: 0 <= i < |name| ==> 0x20 <= name[i] <= 0x7e
  }

  /** The declared properties of an object node. */
  function Declared(t: Tree): (fields: map<ByteString, Tree>)
    ensures forall k :: k in fields ==> fields[k] < t
  {
    var properties := Field(t, PROPERTIES);
    if properties.Some? && properties.value.JObject? then properties.value.fields else map[]
  }

  /** Names listed once each, all printable strings. */
  predicate NamesOk(items: seq<Tree>) {
    && (forall i :: 0 <= i < |items| ==> items[i].JString? && Printable(items[i].text))
    && (forall i, j :: 0 <= i < j < |items| ==> items[i] != items[j])
  }

  predicate RequiredOk(t: Tree) {
    var required := Field(t, REQUIRED);
    required.Some? ==>
      && required.value.JArray? && NamesOk(required.value.items)
      && (forall i :: 0 <= i < |required.value.items| ==> required.value.items[i].text in Declared(t))
  }

  predicate PropertiesOk(t: Tree) {
    var properties := Field(t, PROPERTIES);
    properties.Some? ==>
      properties.value.JObject? && forall name :: name in properties.value.fields ==> name != [] && Printable(name)
  }

  predicate EnumOk(t: Tree) {
    var choices := Field(t, ENUM);
    choices.Some? ==> choices.value.JArray? && choices.value.items != [] && NamesOk(choices.value.items)
  }

  function NumberAt(t: Tree, key: ByteString, asFloat: AsFloat): Option<real> {
    var value := Field(t, key);
    if value.Some? && value.value.JNumber? then asFloat(value.value.number) else None
  }

  predicate IsWhole(x: real) { x.Floor as real == x }

  /** Which numbers a bound of this kind of node may be. */
  predicate BoundAllowed(kind: Kind, x: real) {
    match kind
    case ArrayKind => IsWhole(x) && 0.0 <= x <= MAX_ITEMS
    case IntegerKind => IsWhole(x) && -MAX_INTEGER <= x <= MAX_INTEGER
    case _ => true
  }

  predicate BoundOk(t: Tree, key: ByteString, kind: Kind, asFloat: AsFloat) {
    Field(t, key).Some? ==> NumberAt(t, key, asFloat).Some? && BoundAllowed(kind, NumberAt(t, key, asFloat).value)
  }

  predicate RangeOk(t: Tree, low: ByteString, high: ByteString, kind: Kind, asFloat: AsFloat) {
    var a, b := NumberAt(t, low, asFloat), NumberAt(t, high, asFloat);
    && BoundOk(t, low, kind, asFloat) && BoundOk(t, high, kind, asFloat)
    && (a.Some? && b.Some? ==> a.value <= b.value)
  }

  /** The rules for one node, its children aside. */
  predicate LocalOk(t: Tree, asFloat: AsFloat) {
    && t.JObject? && KindOf(t).Some?
    && (forall key :: key in t.fields ==> key in Allowed(KindOf(t).value))
    && match KindOf(t).value
       case ObjectKind => Field(t, ADDITIONAL) == Some(JBool(false)) && PropertiesOk(t) && RequiredOk(t)
       case ArrayKind => Field(t, ITEMS).Some? && RangeOk(t, MIN_ITEMS, MAX_ITEMS_KEY, ArrayKind, asFloat)
       case StringKind => EnumOk(t)
       case IntegerKind => RangeOk(t, MINIMUM, MAXIMUM, IntegerKind, asFloat)
       case NumberKind => RangeOk(t, MINIMUM, MAXIMUM, NumberKind, asFloat)
       case BooleanKind => true
  }

  /** Every node of the tree meets its rules. */
  predicate AllOk(t: Tree, asFloat: AsFloat)
    decreases t
  {
    && LocalOk(t, asFloat)
    && (KindOf(t) == Some(ObjectKind) ==> forall name :: name in Declared(t) ==> AllOk(Declared(t)[name], asFloat))
    && (KindOf(t) == Some(ArrayKind) ==> AllOk(t.fields[ITEMS], asFloat))
  }

  /** No path crosses more than `levels` object nodes; an array adds no object level. */
  predicate ObjectsWithin(t: Tree, levels: int)
    decreases t
  {
    && (KindOf(t) == Some(ObjectKind) ==>
          levels >= 1 && forall name :: name in Declared(t) ==> ObjectsWithin(Declared(t)[name], levels - 1))
    && (KindOf(t) == Some(ArrayKind) && Field(t, ITEMS).Some? ==> ObjectsWithin(t.fields[ITEMS], levels))
  }

  /** No path crosses more than `levels` nodes of any kind. */
  predicate NodesWithin(t: Tree, levels: int)
    decreases t
  {
    && levels >= 1
    && (KindOf(t) == Some(ObjectKind) ==>
          forall name :: name in Declared(t) ==> NodesWithin(Declared(t)[name], levels - 1))
    && (KindOf(t) == Some(ArrayKind) && Field(t, ITEMS).Some? ==> NodesWithin(t.fields[ITEMS], levels - 1))
  }

  /** How many properties the tree declares in all. */
  function PropertyCount(t: Tree): nat
    decreases t, 1, 0
  {
    if KindOf(t) == Some(ObjectKind) then NamesCount(t, Sorted(Declared(t).Keys))
    else if KindOf(t) == Some(ArrayKind) && Field(t, ITEMS).Some? then PropertyCount(t.fields[ITEMS])
    else 0
  }

  /** The properties declared under the given names of one object. */
  function NamesCount(t: Tree, names: seq<ByteString>): nat
    requires forall name :: name in names ==> name in Declared(t)
    decreases t, 0, |names|
  {
    if names == [] then 0 else 1 + PropertyCount(Declared(t)[names[0]]) + NamesCount(t, names[1..])
  }

  /** The trees the subset admits as nodes, with that many object levels, node levels and
      properties still allowed. */
  predicate Admits(t: Tree, objects: int, nodes: int, properties: int, asFloat: AsFloat) {
    AllOk(t, asFloat) && ObjectsWithin(t, objects) && NodesWithin(t, nodes) && PropertyCount(t) <= properties
  }

  /** The trees the subset admits as schemas. */
  predicate IsSchema(t: Tree, asFloat: AsFloat) {
    KindOf(t) == Some(ObjectKind) && Admits(t, MAX_OBJECT_DEPTH, MAX_NESTING, MAX_PROPERTIES, asFloat)
  }

  // ---- what a schema denotes ----

  datatype Property = Property(name: ByteString, node: Node, required: bool)

  datatype Node =
    | ObjectNode(properties: seq<Property>)
    | ArrayNode(items: Node, minItems: Option<real>, maxItems: Option<real>)
    | StringNode(choices: Option<seq<ByteString>>)
    | IntegerNode(minimum: Option<real>, maximum: Option<real>)
    | NumberNode(minimum: Option<real>, maximum: Option<real>)
    | BooleanNode

  function Texts(items: seq<Tree>): (texts: seq<ByteString>)
    requires forall i :: 0 <= i < |items| ==> items[i].JString?
    ensures |texts| == |items| && forall i :: 0 <= i < |items| ==> texts[i] == items[i].text
  {
    seq(|items|, i requires 0 <= i < |items| => items[i].text)
  }

  predicate IsRequired(t: Tree, name: ByteString) {
    var required := Field(t, REQUIRED);
    required.Some? && required.value.JArray? && JString(name) in required.value.items
  }

  function NodeOf(t: Tree, asFloat: AsFloat): Node
    requires AllOk(t, asFloat)
    decreases t, 1, 0
  {
    match KindOf(t).value
    case ObjectKind => ObjectNode(PropertiesOf(t, Sorted(Declared(t).Keys), asFloat))
    case ArrayKind =>
      ArrayNode(NodeOf(t.fields[ITEMS], asFloat), NumberAt(t, MIN_ITEMS, asFloat), NumberAt(t, MAX_ITEMS_KEY, asFloat))
    case StringKind => StringNode(if Field(t, ENUM).Some? then Some(Texts(t.fields[ENUM].items)) else None)
    case IntegerKind => IntegerNode(NumberAt(t, MINIMUM, asFloat), NumberAt(t, MAXIMUM, asFloat))
    case NumberKind => NumberNode(NumberAt(t, MINIMUM, asFloat), NumberAt(t, MAXIMUM, asFloat))
    case BooleanKind => BooleanNode
  }

  function PropertiesOf(t: Tree, names: seq<ByteString>, asFloat: AsFloat): (properties: seq<Property>)
    requires AllOk(t, asFloat) && KindOf(t) == Some(ObjectKind) && forall name :: name in names ==> name in Declared(t)
    ensures |properties| == |names|
    decreases t, 0, |names|
  {
    if names == [] then []
    else
      [Property(names[0], NodeOf(Declared(t)[names[0]], asFloat), IsRequired(t, names[0]))]
      + PropertiesOf(t, names[1..], asFloat)
  }

  // ---- the tables, as they are written ----

  /** The keywords of each type. */
  const KEYWORDS: seq<(string, seq<string>)> := [
    ("object", ["type", "properties", "required", "additionalProperties"]),
    ("array", ["type", "items", "minItems", "maxItems"]),
    ("string", ["type", "enum"]),
    ("integer", ["type", "minimum", "maximum"]),
    ("number", ["type", "minimum", "maximum"]),
    ("boolean", ["type"])
  ]

  predicate InRow(i: nat, name: ByteString, key: ByteString)
    requires i < |KEYWORDS|
  {
    name == Ascii(KEYWORDS[i].0) && exists j :: 0 <= j < |KEYWORDS[i].1| && key == Ascii(KEYWORDS[i].1[j])
  }

  lemma FourWords(row: seq<string>, key: ByteString)
    requires |row| == 4
    ensures (exists j :: 0 <= j < |row| && key == Ascii(row[j])) <==>
            key in {Ascii(row[0]), Ascii(row[1]), Ascii(row[2]), Ascii(row[3])}
  {
  }

  lemma ThreeWords(row: seq<string>, key: ByteString)
    requires |row| == 3
    ensures (exists j :: 0 <= j < |row| && key == Ascii(row[j])) <==>
            key in {Ascii(row[0]), Ascii(row[1]), Ascii(row[2])}
  {
  }

  lemma TwoWords(row: seq<string>, key: ByteString)
    requires |row| == 2
    ensures (exists j :: 0 <= j < |row| && key == Ascii(row[j])) <==> key in {Ascii(row[0]), Ascii(row[1])}
  {
  }

  lemma OneWord(row: seq<string>, key: ByteString)
    requires |row| == 1
    ensures (exists j :: 0 <= j < |row| && key == Ascii(row[j])) <==> key in {Ascii(row[0])}
  {
  }

  /** The row of a kind of node. */
  function RowOf(kind: Kind): (i: nat)
    ensures i < |KEYWORDS|
  {
    match kind
    case ObjectKind => 0
    case ArrayKind => 1
    case StringKind => 2
    case IntegerKind => 3
    case NumberKind => 4
    case BooleanKind => 5
  }

  lemma RowAllows(kind: Kind, key: ByteString)
    ensures InRow(RowOf(kind), Ascii(KEYWORDS[RowOf(kind)].0), key) <==> key in Allowed(kind)
  {
    FourWords(KEYWORDS[0].1, key);
    FourWords(KEYWORDS[1].1, key);
    TwoWords(KEYWORDS[2].1, key);
    ThreeWords(KEYWORDS[3].1, key);
    ThreeWords(KEYWORDS[4].1, key);
    OneWord(KEYWORDS[5].1, key);
  }

  lemma KindByRow(name: ByteString, kind: Kind)
    ensures KindNamed(name) == Some(kind) <==> name == Ascii(KEYWORDS[RowOf(kind)].0)
  {
    assert Ascii("object")[0] == 0x6f && Ascii("array")[0] == 0x61 && Ascii("string")[0] == 0x73;
    assert Ascii("integer")[0] == 0x69 && Ascii("number")[0] == 0x6e && Ascii("boolean")[0] == 0x62;
  }

  /** A keyword is allowed under a type exactly when the table has it in the type's row. */
  lemma KeywordsExactly(name: ByteString, key: ByteString)
    ensures (KindNamed(name).Some? && key in Allowed(KindNamed(name).value)) <==>
            exists i: nat :: i < |KEYWORDS| && InRow(i, name, key)
  {
    hide InRow, Allowed, KindNamed;
    if KindNamed(name).Some? && key in Allowed(KindNamed(name).value) {
      var kind := KindNamed(name).value;
      KindByRow(name, kind);
      RowAllows(kind, key);
      assert InRow(RowOf(kind), name, key);
    }
    if i: nat :| i < |KEYWORDS| && InRow(i, name, key) {
      RowNames(i, name, key);
    }
  }

  lemma RowNames(i: nat, name: ByteString, key: ByteString)
    requires i < |KEYWORDS| && InRow(i, name, key)
    ensures KindNamed(name).Some? && key in Allowed(KindNamed(name).value)
  {
    hide Allowed, KindNamed;
    var kind := if i == 0 then ObjectKind else if i == 1 then ArrayKind else if i == 2 then StringKind
                else if i == 3 then IntegerKind else if i == 4 then NumberKind else BooleanKind;
    assert RowOf(kind) == i && name == Ascii(KEYWORDS[i].0);
    KindByRow(name, kind);
    RowAllows(kind, key);
  }

  /** The node of an admitted tree is of the kind its type names. */
  lemma NodeByType(t: Tree, asFloat: AsFloat)
    requires AllOk(t, asFloat)
    ensures var node, named := NodeOf(t, asFloat), Field(t, Ascii("type"));
            && (node.ObjectNode? <==> named == Some(JString(Ascii("object"))))
            && (node.ArrayNode? <==> named == Some(JString(Ascii("array"))))
            && (node.StringNode? <==> named == Some(JString(Ascii("string"))))
            && (node.IntegerNode? <==> named == Some(JString(Ascii("integer"))))
            && (node.NumberNode? <==> named == Some(JString(Ascii("number"))))
            && (node.BooleanNode? <==> named == Some(JString(Ascii("boolean"))))
  {
    hide KindNamed, RangeOk, EnumOk, PropertiesOk, RequiredOk, Ascii;
    var name := Field(t, TYPE).value.text;
    KindByRow(name, ObjectKind);
    KindByRow(name, ArrayKind);
    KindByRow(name, StringKind);
    KindByRow(name, IntegerKind);
    KindByRow(name, NumberKind);
    KindByRow(name, BooleanKind);
  }

  predicate Is(x: real, n: int) { x == n as real }

  /** A bound on items is one of 0, 1, and on to 100; a bound on an integer is an integer that a double
      holds exactly with all below it; any other bound is free. */
  lemma BoundsExactly(x: real)
    ensures BoundAllowed(ArrayKind, x) <==> exists n :: 0 <= n <= 100 && Is(x, n)
    ensures BoundAllowed(IntegerKind, x) <==> exists n :: -9007199254740992 <= n <= 9007199254740992 && Is(x, n)
    ensures BoundAllowed(NumberKind, x)
  {
    if IsWhole(x) {
      assert Is(x, x.Floor);
    }
  }

  /** Names and choices are made of the characters from space to tilde. */
  lemma PrintableExactly(name: ByteString)
    ensures Printable(name) <==> forall i :: 0 <= i < |name| ==> ' ' as int <= name[i] as int <= '~' as int
  {
  }
}
