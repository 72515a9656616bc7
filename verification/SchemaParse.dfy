/** Parsing a schema tree into a node, once as the consumer does it with a counter bumped in
    place, and once as the helper does it with the counter threaded through. Both accept exactly
    the trees the subset admits. */
module SchemaParse {
  import opened Bytes
  import opened ByteOrder
  import opened JsonGrammar
  import opened JsonWriter
  import opened JsonPointers
  import opened Options
  import opened SchemaRules

  datatype Fault = Fault(pointer: ByteString, reason: string)

  datatype Verdict<+T> = Accepted(value: T) | Rejected(fault: Fault)

  class Budget {
    var properties: nat

    constructor ()
      ensures properties == 0
    {
      properties := 0;
    }
  }

  // ---- facts about the rules ----

  lemma {:induction false} NamesCountSplit(t: Tree, names: seq<ByteString>, i: nat)
    requires i < |names| && forall name :: name in names ==> name in Declared(t)
    ensures NamesCount(t, names[i..]) == 1 + PropertyCount(Declared(t)[names[i]]) + NamesCount(t, names[i + 1..])
  {
    assert names[i..][1..] == names[i + 1..];
  }

  lemma {:induction false} PropertiesAt(t: Tree, names: seq<ByteString>, i: nat, asFloat: AsFloat)
    requires AllOk(t, asFloat) && KindOf(t) == Some(ObjectKind) && i < |names|
    requires forall name :: name in names ==> name in Declared(t)
    ensures PropertiesOf(t, names, asFloat)[i] ==
            Property(names[i], NodeOf(Declared(t)[names[i]], asFloat), IsRequired(t, names[i]))
    decreases i
  {
    if i > 0 {
      PropertiesAt(t, names[1..], i - 1, asFloat);
    }
  }

  // ---- where a fault is reported ----

  /** The pointer spells these tokens from the path on, and all but the last of them lead through the
      tree; the last may name what is missing. */
  predicate Placed(t: Tree, path: ByteString, pointer: ByteString, tokens: seq<ByteString>) {
    && pointer == path + PathText(tokens)
    && (tokens == [] || Resolve(t, tokens[..|tokens| - 1]).Some?)
  }

  ghost predicate At(t: Tree, path: ByteString, pointer: ByteString) {
    exists tokens :: Placed(t, path, pointer, tokens)
  }

  lemma AtSelf(t: Tree, path: ByteString)
    ensures At(t, path, path)
  {
    assert path + PathText([]) == path;
    assert Placed(t, path, path, []);
  }

  lemma Regrouped(a: ByteString, b: ByteString, c: ByteString, d: ByteString)
    ensures a + b + c + d == a + (b + c + d)
  {
  }

  lemma {:induction false} PathTextJoin(a: seq<ByteString>, b: seq<ByteString>)
    ensures PathText(a + b) == PathText(a) + PathText(b)
    decreases |b|
  {
    hide Escape;
    if b == [] {
      assert a + b == a && PathText(a) + PathText([]) == PathText(a);
    } else {
      var front, last := b[..|b| - 1], b[|b| - 1];
      PathTextJoin(a, front);
      assert a + b == a + front + [last];
      PathTextSnoc(a + front, last);
      assert b == front + [last];
      PathTextSnoc(front, last);
      Regrouped(PathText(a), PathText(front), [SLASH], Escape(last));
    }
  }

  lemma OneToken(path: ByteString, key: ByteString)
    ensures Pointer(path, key) == path + PathText([key])
  {
    PointerIsPath([], key);
    WriteTokenEscapes(key);
    assert [] + [key] == [key] && PathText([]) == [];
    assert path + ([SLASH] + Escape(key)) == path + [SLASH] + Escape(key);
  }

  lemma AtKey(t: Tree, path: ByteString, key: ByteString)
    ensures At(t, path, Pointer(path, key))
  {
    OneToken(path, key);
    assert [key][..0] == [];
    assert Placed(t, path, Pointer(path, key), [key]);
  }

  /** A place below a member or an item. */
  lemma AtBelow(t: Tree, path: ByteString, key: ByteString, pointer: ByteString)
    requires Step(t, key).Some? && At(Step(t, key).value, Pointer(path, key), pointer)
    ensures At(t, path, pointer)
  {
    hide PathText, WriteToken, Pointer;
    var child := Step(t, key).value;
    var tokens :| Placed(child, Pointer(path, key), pointer, tokens);
    OneToken(path, key);
    PathTextJoin([key], tokens);
    var whole := [key] + tokens;
    assert path + PathText([key]) + PathText(tokens) == path + (PathText([key]) + PathText(tokens));
    if tokens == [] {
      assert whole[..0] == [] && whole == [key];
    } else {
      assert whole[..|whole| - 1] == [key] + tokens[..|tokens| - 1];
      assert whole[..|whole| - 1][1..] == tokens[..|tokens| - 1];
    }
    assert Placed(t, path, pointer, whole);
  }

  /** An entry of a list below a keyword. */
  lemma AtEntry(t: Tree, path: ByteString, key: ByteString, i: nat)
    requires Step(t, key).Some?
    ensures At(t, path, Pointer(path, key) + [SLASH] + Digits(i))
  {
    WriteTokenEscapes(Digits(i));
    EscapePlain(Digits(i));
    AtKey(Step(t, key).value, Pointer(path, key), Digits(i));
    AtBelow(t, path, key, Pointer(path, key) + [SLASH] + Digits(i));
  }

  // ---- the pieces both sides share ----

  /** A bound keyword: absent, a number the kind of node allows, or a fault. */
  function Bound(t: Tree, key: ByteString, kind: Kind, path: ByteString, reason: string, asFloat: AsFloat)
    : (r: Verdict<Option<real>>)
    ensures r.Accepted? <==> BoundOk(t, key, kind, asFloat)
    ensures r.Accepted? ==> r.value == NumberAt(t, key, asFloat)
    ensures r.Rejected? ==> At(t, path, r.fault.pointer)
  {
    AtKey(t, path, key);
    var value := Field(t, key);
    if value.None? then Accepted(None)
    else
      var number := NumberAt(t, key, asFloat);
      if number.None? || !BoundAllowed(kind, number.value) then Rejected(Fault(Pointer(path, key), reason))
      else Accepted(number)
  }

  function BoundReason(kind: Kind): string {
    match kind
    case ArrayKind => "array bounds must be whole numbers from 0 to 100"
    case IntegerKind => "integer bounds must be whole numbers"
    case _ => "number bounds must be finite numbers"
  }

  function Bounds(t: Tree, low: ByteString, high: ByteString, kind: Kind, path: ByteString, asFloat: AsFloat)
    : (r: Verdict<(Option<real>, Option<real>)>)
    ensures r.Accepted? <==> RangeOk(t, low, high, kind, asFloat)
    ensures r.Accepted? ==> r.value == (NumberAt(t, low, asFloat), NumberAt(t, high, asFloat))
    ensures r.Rejected? ==> At(t, path, r.fault.pointer)
  {
    AtSelf(t, path);
    var minimum := Bound(t, low, kind, path, BoundReason(kind), asFloat);
    if minimum.Rejected? then Rejected(minimum.fault) else
    var maximum := Bound(t, high, kind, path, BoundReason(kind), asFloat);
    if maximum.Rejected? then Rejected(maximum.fault)
    else if minimum.value.Some? && maximum.value.Some? && minimum.value.value > maximum.value.value then
      Rejected(Fault(path, if kind == ArrayKind then "maxItems is smaller than minItems"
                           else "maximum is smaller than minimum"))
    else Accepted((minimum.value, maximum.value))
  }

  // ---- the consumer ----

  /** The keyword check, over the sorted keys. */
  method CheckKeywords(t: Tree, kind: Kind, path: ByteString) returns (r: Verdict<()>)
    requires t.JObject?
    ensures r.Accepted? <==> forall key :: key in t.fields ==> key in Allowed(kind)
    ensures r.Rejected? ==> At(t, path, r.fault.pointer)
  {
    hide At;
    var keys := Sorted(t.fields.Keys);
    var i := 0;
    while i < |keys|
      invariant 0 <= i <= |keys| && forall j :: 0 <= j < i ==> keys[j] in Allowed(kind)
    {
      if keys[i] !in Allowed(kind) {
        var reason := if keys[i] == ENUM then "enums must be strings" else "unsupported schema keyword";
        assert keys[i] in t.fields;
        AtKey(t, path, keys[i]);
        return Rejected(Fault(Pointer(path, keys[i]), reason));
      }
      i := i + 1;
    }
    forall key | key in t.fields ensures key in Allowed(kind) {
      assert key in keys;
    }
    r := Accepted(());
  }

  /** The enum choices: strings, printable, each once. */
  method ParseEnum(t: Tree, path: ByteString) returns (r: Verdict<Option<seq<ByteString>>>)
    ensures r.Accepted? <==> EnumOk(t)
    ensures r.Accepted? ==> r.value == if Field(t, ENUM).Some? then Some(Texts(t.fields[ENUM].items)) else None
    ensures r.Rejected? ==> At(t, path, r.fault.pointer)
  {
    hide At;
    AtKey(t, path, ENUM);
    var choices := Field(t, ENUM);
    if choices.None? {
      return Accepted(None);
    }
    var at := Pointer(path, ENUM);
    if !choices.value.JArray? || choices.value.items == [] {
      return Rejected(Fault(at, "enum must not be empty"));
    }
    var items := choices.value.items;
    var seen: set<ByteString> := {};
    var texts: seq<ByteString> := [];
    var i := 0;
    while i < |items|
      invariant 0 <= i <= |items| && |texts| == i && NamesOk(items[..i])
      invariant forall j :: 0 <= j < i ==> texts[j] == items[j].text
      invariant forall s :: s in seen <==> JString(s) in items[..i]
    {
      var choice := items[i];
      if !choice.JString? {
        NamesPrefix(items, i);
        return Rejected(Fault(at, "enum choices must be strings"));
      }
      if !Printable(choice.text) {
        NamesPrefix(items, i);
        return Rejected(Fault(at, "enum choices must be printable ASCII"));
      }
      if choice.text in seen {
        NamesRepeat(items, i);
        return Rejected(Fault(at, "enum choices must be unique"));
      }
      NamesGrow(items, i);
      seen := seen + {choice.text};
      texts := texts + [choice.text];
      i := i + 1;
    }
    assert items[..i] == items;
    assert texts == Texts(items);
    r := Accepted(Some(texts));
  }

  lemma NamesPrefix(items: seq<Tree>, i: nat)
    requires i < |items| && !(items[i].JString? && Printable(items[i].text))
    ensures !NamesOk(items)
  {
  }

  lemma NamesRepeat(items: seq<Tree>, i: nat)
    requires i < |items| && items[i] in items[..i]
    ensures !NamesOk(items)
  {
    var j :| 0 <= j < i && items[j] == items[i];
  }

  lemma NamesGrow(items: seq<Tree>, i: nat)
    requires i < |items| && NamesOk(items[..i]) && items[i].JString? && Printable(items[i].text)
    requires items[i] !in items[..i]
    ensures NamesOk(items[..i + 1])
    ensures forall s :: JString(s) in items[..i + 1] <==> JString(s) in items[..i] || s == items[i].text
  {
    assert items[..i + 1] == items[..i] + [items[i]];
  }

  /** The required names: strings, printable, each once, all declared. */
  method ParseRequired(t: Tree, path: ByteString) returns (r: Verdict<set<ByteString>>)
    ensures r.Accepted? <==> RequiredOk(t)
    ensures r.Accepted? ==> forall name :: name in r.value <==> IsRequired(t, name)
    ensures r.Rejected? ==> At(t, path, r.fault.pointer)
  {
    hide At;
    AtKey(t, path, REQUIRED);
    var required := Field(t, REQUIRED);
    if required.None? {
      return Accepted({});
    }
    if !required.value.JArray? {
      return Rejected(Fault(Pointer(path, REQUIRED), "required must be an array of names"));
    }
    var items := required.value.items;
    var names: set<ByteString> := {};
    var i := 0;
    while i < |items|
      invariant 0 <= i <= |items| && NamesOk(items[..i])
      invariant forall j :: 0 <= j < i ==> items[j].text in Declared(t)
      invariant forall s :: s in names <==> JString(s) in items[..i]
    {
      var entry := items[i];
      var at := Pointer(path, REQUIRED) + [SLASH] + Digits(i);
      AtEntry(t, path, REQUIRED, i);
      if !entry.JString? {
        NamesPrefix(items, i);
        return Rejected(Fault(at, "required entries must be strings"));
      }
      if !Printable(entry.text) {
        NamesPrefix(items, i);
        return Rejected(Fault(at, "required names must be printable ASCII"));
      }
      if entry.text in names {
        NamesRepeat(items, i);
        return Rejected(Fault(at, "required names must be unique"));
      }
      if entry.text !in Declared(t) {
        return Rejected(Fault(Pointer(path, REQUIRED), "required names a property that is not declared"));
      }
      NamesGrow(items, i);
      names := names + {entry.text};
      i := i + 1;
    }
    assert items[..i] == items;
    r := Accepted(names);
  }

  /** The properties in name order, each declared name counted before its node is read. */
  method ParseProperties(t: Tree, path: ByteString, objectDepth: nat, nesting: nat, budget: Budget, asFloat: AsFloat)
    returns (r: Verdict<seq<(ByteString, Node)>>)
    requires objectDepth <= MAX_OBJECT_DEPTH && nesting <= MAX_NESTING && budget.properties <= MAX_PROPERTIES
    modifies budget
    ensures r.Accepted? <==>
            && PropertiesOk(t)
            && (forall name :: name in Declared(t) ==> ChildAdmitted(t, name, objectDepth, nesting, asFloat))
            && old(budget.properties) + NamesCount(t, Sorted(Declared(t).Keys)) <= MAX_PROPERTIES
    ensures r.Accepted? ==>
            && budget.properties == old(budget.properties) + NamesCount(t, Sorted(Declared(t).Keys))
            && NodesRead(t, Sorted(Declared(t).Keys), r.value, asFloat)
    ensures r.Rejected? ==> At(t, path, r.fault.pointer)
    decreases t, 0, 2, 0
  {
    var properties := Field(t, PROPERTIES);
    if properties.None? {
      assert Declared(t) == map[];
      return Accepted([]);
    }
    if !properties.value.JObject? {
      AtKey(t, path, PROPERTIES);
      return Rejected(Fault(Pointer(path, PROPERTIES), "properties must be an object"));
    }
    assert Declared(t) == properties.value.fields;
    var names := Sorted(properties.value.fields.Keys);
    r := ParseNames(t, names, path, objectDepth, nesting, budget, asFloat);
    NamesCover(t, names, objectDepth, nesting, asFloat);
  }

  /** One declared name is good and its node admitted. */
  predicate NameAdmitted(t: Tree, name: ByteString, objectDepth: nat, nesting: nat, asFloat: AsFloat)
    requires name in Declared(t)
  {
    name != [] && Printable(name) && ChildAdmitted(t, name, objectDepth, nesting, asFloat)
  }

  predicate NamesAdmitted(t: Tree, names: seq<ByteString>, objectDepth: nat, nesting: nat, asFloat: AsFloat)
    requires forall name :: name in names ==> name in Declared(t)
  {
    forall i :: 0 <= i < |names| ==> NameAdmitted(t, names[i], objectDepth, nesting, asFloat)
  }

  lemma NamesCover(t: Tree, names: seq<ByteString>, objectDepth: nat, nesting: nat, asFloat: AsFloat)
    requires Field(t, PROPERTIES).Some? && Field(t, PROPERTIES).value.JObject?
    requires forall name :: name in names <==> name in Declared(t)
    ensures NamesAdmitted(t, names, objectDepth, nesting, asFloat) <==>
            && PropertiesOk(t)
            && (forall name :: name in Declared(t) ==> ChildAdmitted(t, name, objectDepth, nesting, asFloat))
  {
    if NamesAdmitted(t, names, objectDepth, nesting, asFloat) {
      forall name | name in Declared(t) ensures NameAdmitted(t, name, objectDepth, nesting, asFloat) {
        var i :| 0 <= i < |names| && names[i] == name;
      }
      assert forall name :: name in Declared(t) ==> NameAdmitted(t, name, objectDepth, nesting, asFloat);
      assert PropertiesOk(t);
    }
    if PropertiesOk(t) && forall name :: name in Declared(t) ==> ChildAdmitted(t, name, objectDepth, nesting, asFloat) {
      forall i | 0 <= i < |names| ensures NameAdmitted(t, names[i], objectDepth, nesting, asFloat) {
        assert names[i] in names;
      }
    }
  }

  method ParseNames(t: Tree, names: seq<ByteString>, path: ByteString, objectDepth: nat, nesting: nat, budget: Budget,
                    asFloat: AsFloat)
    returns (r: Verdict<seq<(ByteString, Node)>>)
    requires objectDepth <= MAX_OBJECT_DEPTH && nesting <= MAX_NESTING && budget.properties <= MAX_PROPERTIES
    requires forall name :: name in names ==> name in Declared(t)
    modifies budget
    ensures r.Accepted? <==>
            && NamesAdmitted(t, names, objectDepth, nesting, asFloat)
            && old(budget.properties) + NamesCount(t, names) <= MAX_PROPERTIES
    ensures r.Accepted? ==>
            budget.properties == old(budget.properties) + NamesCount(t, names) && NodesRead(t, names, r.value, asFloat)
    ensures r.Rejected? ==> At(t, path, r.fault.pointer)
    decreases t, 0, 1, 0
  {
    hide NodesRead, NameAdmitted, NamesCount, At;
    r := Accepted([]);
    ghost var goal := budget.properties + NamesCount(t, names);
    var i := 0;
    NoNames(t, names, asFloat);
    while i < |names|
      invariant 0 <= i <= |names| && r.Accepted? && NodesRead(t, names[..i], r.value, asFloat)
      invariant forall j :: 0 <= j < i ==> NameAdmitted(t, names[j], objectDepth, nesting, asFloat)
      invariant budget.properties <= MAX_PROPERTIES && budget.properties + NamesCount(t, names[i..]) == goal
    {
      r := ParseNext(t, names, i, r.value, path, objectDepth, nesting, budget, asFloat, goal);
      if r.Rejected? {
        return;
      }
      i := i + 1;
    }
    assert names[..i] == names;
    assert names[i..] == [];
  }

  lemma NoNames(t: Tree, names: seq<ByteString>, asFloat: AsFloat)
    ensures NodesRead(t, names[..0], [], asFloat) && NamesCount(t, []) == 0 && names[0..] == names
  {
  }

  /** The node of one more name. */
  method ParseNext(t: Tree, names: seq<ByteString>, i: nat, nodes: seq<(ByteString, Node)>, path: ByteString,
                   objectDepth: nat, nesting: nat, budget: Budget, asFloat: AsFloat, ghost goal: nat)
    returns (r: Verdict<seq<(ByteString, Node)>>)
    requires objectDepth <= MAX_OBJECT_DEPTH && nesting <= MAX_NESTING && budget.properties <= MAX_PROPERTIES
    requires i < |names| && forall name :: name in names ==> name in Declared(t)
    requires NodesRead(t, names[..i], nodes, asFloat) && budget.properties + NamesCount(t, names[i..]) == goal
    modifies budget
    ensures r.Rejected? ==> !NamesAdmitted(t, names, objectDepth, nesting, asFloat) || goal > MAX_PROPERTIES
    ensures r.Rejected? ==> At(t, path, r.fault.pointer)
    ensures r.Accepted? ==>
            && NameAdmitted(t, names[i], objectDepth, nesting, asFloat)
            && NodesRead(t, names[..i + 1], r.value, asFloat)
            && budget.properties <= MAX_PROPERTIES && budget.properties + NamesCount(t, names[i + 1..]) == goal
    decreases t, 0, 0, 1
  {
    hide NodeOf, NameAdmitted, PropertyCount, At;
    NamesCountSplit(t, names, i);
    var child := ParseProperty(t, names[i], path, objectDepth, nesting, budget, asFloat);
    if child.Rejected? {
      return Rejected(child.fault);
    }
    NodesReadSnoc(t, names, i, nodes, child.value, asFloat);
    r := Accepted(nodes + [(names[i], child.value)]);
  }

  method ParseProperty(t: Tree, name: ByteString, path: ByteString, objectDepth: nat, nesting: nat, budget: Budget,
                       asFloat: AsFloat)
    returns (r: Verdict<Node>)
    requires objectDepth <= MAX_OBJECT_DEPTH && nesting <= MAX_NESTING && budget.properties <= MAX_PROPERTIES
    requires name in Declared(t)
    modifies budget
    ensures r.Accepted? <==>
            && NameAdmitted(t, name, objectDepth, nesting, asFloat)
            && old(budget.properties) + 1 + PropertyCount(Declared(t)[name]) <= MAX_PROPERTIES
    ensures r.Accepted? ==>
            && AllOk(Declared(t)[name], asFloat) && r.value == NodeOf(Declared(t)[name], asFloat)
            && budget.properties == old(budget.properties) + 1 + PropertyCount(Declared(t)[name])
    ensures r.Rejected? ==> At(t, path, r.fault.pointer)
    decreases t, 0, 0, 0
  {
    hide At;
    AtKey(t, path, PROPERTIES);
    if name == [] {
      return Rejected(Fault(Pointer(path, PROPERTIES), "property names must not be empty"));
    }
    if !Printable(name) {
      return Rejected(Fault(Pointer(path, PROPERTIES), "property names must be printable ASCII"));
    }
    budget.properties := budget.properties + 1;
    if budget.properties > MAX_PROPERTIES {
      return Rejected(Fault(Pointer(path, PROPERTIES), "schema declares more than 32 properties"));
    }
    r := ParseSchemaNode(Declared(t)[name], Pointer(Pointer(path, PROPERTIES), name), objectDepth + 1, nesting + 1,
                         budget, asFloat);
    if r.Rejected? {
      AtBelow(t.fields[PROPERTIES], Pointer(path, PROPERTIES), name, r.fault.pointer);
      AtBelow(t, path, PROPERTIES, r.fault.pointer);
    }
  }

  /** A declared property whose node the subset admits below an object at this place. */
  predicate ChildAdmitted(t: Tree, name: ByteString, objectDepth: nat, nesting: nat, asFloat: AsFloat)
    requires name in Declared(t)
  {
    var child := Declared(t)[name];
    && AllOk(child, asFloat) && ObjectsWithin(child, MAX_OBJECT_DEPTH - objectDepth)
    && NodesWithin(child, MAX_NESTING - nesting)
  }

  predicate NodesRead(t: Tree, names: seq<ByteString>, nodes: seq<(ByteString, Node)>, asFloat: AsFloat) {
    && |nodes| == |names|
    && forall i :: 0 <= i < |names| ==>
         && names[i] in Declared(t) && AllOk(Declared(t)[names[i]], asFloat)
         && nodes[i] == (names[i], NodeOf(Declared(t)[names[i]], asFloat))
  }

  lemma NodesReadSnoc(t: Tree, names: seq<ByteString>, i: nat, nodes: seq<(ByteString, Node)>, node: Node,
                      asFloat: AsFloat)
    requires i < |names| && NodesRead(t, names[..i], nodes, asFloat)
    requires names[i] in Declared(t) && AllOk(Declared(t)[names[i]], asFloat)
    requires node == NodeOf(Declared(t)[names[i]], asFloat)
    ensures NodesRead(t, names[..i + 1], nodes + [(names[i], node)], asFloat)
  {
    assert names[..i + 1] == names[..i] + [names[i]];
  }

  /** The node of an object from its parsed properties. */
  function ObjectFrom(nodes: seq<(ByteString, Node)>, required: set<ByteString>): Node {
    ObjectNode(seq(|nodes|, i requires 0 <= i < |nodes| => Property(nodes[i].0, nodes[i].1, nodes[i].0 in required)))
  }

  lemma ObjectFromIs(t: Tree, nodes: seq<(ByteString, Node)>, required: set<ByteString>, asFloat: AsFloat)
    requires AllOk(t, asFloat) && KindOf(t) == Some(ObjectKind)
    requires NodesRead(t, Sorted(Declared(t).Keys), nodes, asFloat)
    requires forall name :: name in required <==> IsRequired(t, name)
    ensures ObjectFrom(nodes, required) == NodeOf(t, asFloat)
  {
    hide AllOk, Sorted;
    var names := Sorted(Declared(t).Keys);
    forall i | 0 <= i < |names|
      ensures ObjectFrom(nodes, required).properties[i] == PropertiesOf(t, names, asFloat)[i]
    {
      PropertiesAt(t, names, i, asFloat);
    }
    assert ObjectFrom(nodes, required).properties == PropertiesOf(t, names, asFloat);
  }

  /** The trees admitted where a node is parsed. */
  predicate AdmittedHere(t: Tree, objectDepth: nat, nesting: nat, used: nat, asFloat: AsFloat) {
    Admits(t, MAX_OBJECT_DEPTH + 1 - objectDepth, MAX_NESTING + 1 - nesting, MAX_PROPERTIES - used, asFloat)
  }

  /** A node is parsed exactly when the subset admits it here, and the counter then has grown by
      the properties it declares. */
  method ParseSchemaNode(t: Tree, path: ByteString, objectDepth: nat, nesting: nat, budget: Budget, asFloat: AsFloat)
    returns (r: Verdict<Node>)
    requires objectDepth <= MAX_OBJECT_DEPTH + 1 && nesting <= MAX_NESTING + 1 && budget.properties <= MAX_PROPERTIES
    modifies budget
    ensures r.Accepted? <==> AdmittedHere(t, objectDepth, nesting, old(budget.properties), asFloat)
    ensures r.Accepted? ==> r.value == NodeOf(t, asFloat)
                            && budget.properties == old(budget.properties) + PropertyCount(t)
    ensures r.Rejected? ==> At(t, path, r.fault.pointer)
    decreases t, 1, 0, 0
  {
    hide Bounds, Allowed, Printable, At;
    AtSelf(t, path);
    AtKey(t, path, TYPE);
    if nesting > MAX_NESTING {
      return Rejected(Fault(path, "schema nesting exceeds depth 16"));
    }
    if !t.JObject? {
      return Rejected(Fault(path, "schema node must be an object"));
    }
    var kind := KindOf(t);
    if kind.None? {
      return Rejected(Fault(Pointer(path, TYPE), "unsupported schema type"));
    }
    var keywords := CheckKeywords(t, kind.value, path);
    if keywords.Rejected? {
      return Rejected(keywords.fault);
    }
    match kind.value
    case ObjectKind => r := ParseObject(t, path, objectDepth, nesting, budget, asFloat);
    case ArrayKind => r := ParseArray(t, path, objectDepth, nesting, budget, asFloat);
    case StringKind =>
      var choices := ParseEnum(t, path);
      r := if choices.Rejected? then Rejected(choices.fault) else Accepted(StringNode(choices.value));
    case IntegerKind =>
      var bounds := Bounds(t, MINIMUM, MAXIMUM, IntegerKind, path, asFloat);
      r := if bounds.Rejected? then Rejected(bounds.fault) else Accepted(IntegerNode(bounds.value.0, bounds.value.1));
    case NumberKind =>
      var bounds := Bounds(t, MINIMUM, MAXIMUM, NumberKind, path, asFloat);
      r := if bounds.Rejected? then Rejected(bounds.fault) else Accepted(NumberNode(bounds.value.0, bounds.value.1));
    case BooleanKind => r := Accepted(BooleanNode);
  }

  method ParseObject(t: Tree, path: ByteString, objectDepth: nat, nesting: nat, budget: Budget, asFloat: AsFloat)
    returns (r: Verdict<Node>)
    requires objectDepth <= MAX_OBJECT_DEPTH + 1 && nesting <= MAX_NESTING && budget.properties <= MAX_PROPERTIES
    requires t.JObject? && KindOf(t) == Some(ObjectKind) && forall key :: key in t.fields ==> key in Allowed(ObjectKind)
    modifies budget
    ensures r.Accepted? <==> AdmittedHere(t, objectDepth, nesting, old(budget.properties), asFloat)
    ensures r.Accepted? ==> r.value == NodeOf(t, asFloat)
                            && budget.properties == old(budget.properties) + PropertyCount(t)
    ensures r.Rejected? ==> At(t, path, r.fault.pointer)
    decreases t, 0, 3, 0
  {
    hide At;
    AtSelf(t, path);
    AtKey(t, path, ADDITIONAL);
    if objectDepth > MAX_OBJECT_DEPTH {
      return Rejected(Fault(path, "object nesting exceeds depth 3"));
    }
    if Field(t, ADDITIONAL) != Some(JBool(false)) {
      return Rejected(Fault(Pointer(path, ADDITIONAL), "additionalProperties:false is required"));
    }
    ObjectAdmitted(t, objectDepth, nesting, budget.properties, asFloat);
    var nodes := ParseProperties(t, path, objectDepth, nesting, budget, asFloat);
    if nodes.Rejected? {
      return Rejected(nodes.fault);
    }
    var required := ParseRequired(t, path);
    if required.Rejected? {
      return Rejected(required.fault);
    }
    ObjectFromIs(t, nodes.value, required.value, asFloat);
    r := Accepted(ObjectFrom(nodes.value, required.value));
  }

  /** What admits an object node, part by part. */
  lemma ObjectAdmitted(t: Tree, objectDepth: nat, nesting: nat, used: nat, asFloat: AsFloat)
    requires objectDepth <= MAX_OBJECT_DEPTH && nesting <= MAX_NESTING
    requires t.JObject? && KindOf(t) == Some(ObjectKind) && forall key :: key in t.fields ==> key in Allowed(ObjectKind)
    requires Field(t, ADDITIONAL) == Some(JBool(false))
    ensures AdmittedHere(t, objectDepth, nesting, used, asFloat) <==>
            && PropertiesOk(t) && RequiredOk(t)
            && (forall name :: name in Declared(t) ==> ChildAdmitted(t, name, objectDepth, nesting, asFloat))
            && used + NamesCount(t, Sorted(Declared(t).Keys)) <= MAX_PROPERTIES
  {
    ObjectAllOk(t, asFloat);
    ObjectLevels(t, MAX_OBJECT_DEPTH + 1 - objectDepth, MAX_NESTING + 1 - nesting);
    assert PropertyCount(t) == NamesCount(t, Sorted(Declared(t).Keys));
  }

  lemma ObjectAllOk(t: Tree, asFloat: AsFloat)
    requires t.JObject? && KindOf(t) == Some(ObjectKind) && forall key :: key in t.fields ==> key in Allowed(ObjectKind)
    requires Field(t, ADDITIONAL) == Some(JBool(false))
    ensures AllOk(t, asFloat) <==>
            PropertiesOk(t) && RequiredOk(t) && forall name :: name in Declared(t) ==> AllOk(Declared(t)[name], asFloat)
  {
  }

  lemma ObjectLevels(t: Tree, objects: int, nodes: int)
    requires KindOf(t) == Some(ObjectKind) && objects >= 1 && nodes >= 1
    ensures ObjectsWithin(t, objects) <==>
            forall name :: name in Declared(t) ==> ObjectsWithin(Declared(t)[name], objects - 1)
    ensures NodesWithin(t, nodes) <==> forall name :: name in Declared(t) ==> NodesWithin(Declared(t)[name], nodes - 1)
  {
  }

  method ParseArray(t: Tree, path: ByteString, objectDepth: nat, nesting: nat, budget: Budget, asFloat: AsFloat)
    returns (r: Verdict<Node>)
    requires objectDepth <= MAX_OBJECT_DEPTH + 1 && nesting <= MAX_NESTING && budget.properties <= MAX_PROPERTIES
    requires t.JObject? && KindOf(t) == Some(ArrayKind) && forall key :: key in t.fields ==> key in Allowed(ArrayKind)
    modifies budget
    ensures r.Accepted? <==> AdmittedHere(t, objectDepth, nesting, old(budget.properties), asFloat)
    ensures r.Accepted? ==> r.value == NodeOf(t, asFloat)
                            && budget.properties == old(budget.properties) + PropertyCount(t)
    ensures r.Rejected? ==> At(t, path, r.fault.pointer)
    decreases t, 0, 0, 0
  {
    hide Bounds, Allowed, Printable, EnumOk, RequiredOk, PropertiesOk, At;
    AtKey(t, path, ITEMS);
    if ITEMS !in t.fields {
      return Rejected(Fault(Pointer(path, ITEMS), "array items are required"));
    }
    var items := ParseSchemaNode(t.fields[ITEMS], Pointer(path, ITEMS), objectDepth, nesting + 1, budget, asFloat);
    if items.Rejected? {
      AtBelow(t, path, ITEMS, items.fault.pointer);
      return Rejected(items.fault);
    }
    var bounds := Bounds(t, MIN_ITEMS, MAX_ITEMS_KEY, ArrayKind, path, asFloat);
    if bounds.Rejected? {
      return Rejected(bounds.fault);
    }
    r := Accepted(ArrayNode(items.value, bounds.value.0, bounds.value.1));
  }

  /** The consumer accepts a decoded schema exactly when it is small enough and in the subset. */
  method ParseSchema(t: Tree, format: Format, asFloat: AsFloat) returns (r: Verdict<Node>)
    ensures r.Accepted? <==> Encodable(t, format) && |Encode(t, format)| <= MAX_BYTES && IsSchema(t, asFloat)
    ensures r.Accepted? ==> r.value == NodeOf(t, asFloat)
    ensures r.Rejected? ==> At(t, [], r.fault.pointer)
  {
    AtSelf(t, []);
    if !Encodable(t, format) {
      return Rejected(Fault([], "schema contains a value that cannot be encoded"));
    }
    if |Encode(t, format)| > MAX_BYTES {
      return Rejected(Fault([], "schema is larger than 64 KiB"));
    }
    var kind := KindOf(t);
    if kind != Some(ObjectKind) {
      return Rejected(Fault([], "root schema must be an object"));
    }
    var budget := new Budget();
    r := ParseSchemaNode(t, [], 1, 1, budget, asFloat);
  }

  // ---- the helper ----

  /** Which of the unknown keywords is reported first: any, as the helper asks a hash table. */
  type Picker = set<ByteString> -> ByteString

  /** The helper's parse: the count of properties goes in and comes out. */
  function HelperParse(t: Tree, path: ByteString, objectDepth: nat, nesting: nat, used: nat, pick: Picker,
                       asFloat: AsFloat)
    : (r: Verdict<(Node, nat)>)
    decreases t, 1, 0
  {
    if nesting > MAX_NESTING then Rejected(Fault(path, "schema nesting exceeds depth 16"))
    else if !t.JObject? then Rejected(Fault(path, "schema node must be an object"))
    else if KindOf(t).None? then Rejected(Fault(Pointer(path, TYPE), "unsupported schema type"))
    else
      var kind := KindOf(t).value;
      var unknown := t.fields.Keys - Allowed(kind);
      if unknown != {} then
        var key := pick(unknown);
        Rejected(Fault(Pointer(path, key), if key == ENUM then "enums must be strings"
                                           else "unsupported schema keyword"))
      else match kind
        case ObjectKind => HelperObject(t, path, objectDepth, nesting, used, pick, asFloat)
        case ArrayKind => HelperArray(t, path, objectDepth, nesting, used, pick, asFloat)
        case _ => HelperLeaf(t, kind, path, used, asFloat)
  }

  /** The names' nodes, then the required list, then the node. */
  function ObjectResult(t: Tree, path: ByteString, nodes: Verdict<(seq<(ByteString, Node)>, nat)>)
    : Verdict<(Node, nat)>
  {
    if nodes.Rejected? then Rejected(nodes.fault)
    else if HelperRequired(t, 0, path).Some? then Rejected(HelperRequired(t, 0, path).value)
    else Accepted((ObjectNode(Marked(t, nodes.value.0)), nodes.value.1))
  }

  function HelperObject(t: Tree, path: ByteString, objectDepth: nat, nesting: nat, used: nat, pick: Picker,
                        asFloat: AsFloat)
    : (r: Verdict<(Node, nat)>)
    requires t.JObject?
    decreases t, 0, |Declared(t)| + 1
  {
    if objectDepth > MAX_OBJECT_DEPTH then Rejected(Fault(path, "object nesting exceeds depth 3"))
    else if Field(t, ADDITIONAL) != Some(JBool(false)) then
      Rejected(Fault(Pointer(path, ADDITIONAL), "additionalProperties:false is required"))
    else if Field(t, PROPERTIES).Some? && !Field(t, PROPERTIES).value.JObject? then
      Rejected(Fault(Pointer(path, PROPERTIES), "properties must be an object"))
    else
      ObjectResult(t, path, HelperNames(t, Sorted(Declared(t).Keys), path, objectDepth, nesting, used, pick, asFloat))
  }

  function HelperArray(t: Tree, path: ByteString, objectDepth: nat, nesting: nat, used: nat, pick: Picker,
                       asFloat: AsFloat)
    : (r: Verdict<(Node, nat)>)
    requires t.JObject?
    decreases t, 0, 0
  {
    if ITEMS !in t.fields then Rejected(Fault(Pointer(path, ITEMS), "array items are required"))
    else
      var items := HelperParse(t.fields[ITEMS], Pointer(path, ITEMS), objectDepth, nesting + 1, used, pick, asFloat);
      if items.Rejected? then items
      else
        var bounds := Bounds(t, MIN_ITEMS, MAX_ITEMS_KEY, ArrayKind, path, asFloat);
        if bounds.Rejected? then Rejected(bounds.fault)
        else Accepted((ArrayNode(items.value.0, bounds.value.0, bounds.value.1), items.value.1))
  }

  function HelperLeaf(t: Tree, kind: Kind, path: ByteString, used: nat, asFloat: AsFloat): (r: Verdict<(Node, nat)>) {
    match kind
    case IntegerKind =>
      var bounds := Bounds(t, MINIMUM, MAXIMUM, IntegerKind, path, asFloat);
      if bounds.Rejected? then Rejected(bounds.fault) else Accepted((IntegerNode(bounds.value.0, bounds.value.1), used))
    case NumberKind =>
      var bounds := Bounds(t, MINIMUM, MAXIMUM, NumberKind, path, asFloat);
      if bounds.Rejected? then Rejected(bounds.fault) else Accepted((NumberNode(bounds.value.0, bounds.value.1), used))
    case StringKind =>
      var choices := Field(t, ENUM);
      if choices.None? then Accepted((StringNode(None), used))
      else if !choices.value.JArray? || choices.value.items == [] then
        Rejected(Fault(Pointer(path, ENUM), "enum must not be empty"))
      else
        var fault := HelperChoices(choices.value.items, 0, Pointer(path, ENUM));
        if fault.Some? then Rejected(fault.value)
        else
          HelperChoicesExact(choices.value.items, 0, Pointer(path, ENUM));
          Accepted((StringNode(Some(Texts(choices.value.items))), used))
    case _ => Accepted((BooleanNode, used))
  }

  function HelperNames(t: Tree, names: seq<ByteString>, path: ByteString, objectDepth: nat, nesting: nat, used: nat,
                       pick: Picker, asFloat: AsFloat): (r: Verdict<(seq<(ByteString, Node)>, nat)>)
    requires forall name :: name in names ==> name in Declared(t)
    decreases t, 0, |names|
  {
    if names == [] then Accepted(([], used))
    else if names[0] == [] then Rejected(Fault(Pointer(path, PROPERTIES), "property names must not be empty"))
    else if !Printable(names[0]) then
      Rejected(Fault(Pointer(path, PROPERTIES), "property names must be printable ASCII"))
    else if used + 1 > MAX_PROPERTIES then
      Rejected(Fault(Pointer(path, PROPERTIES), "schema declares more than 32 properties"))
    else
      var child := HelperParse(Declared(t)[names[0]], Pointer(Pointer(path, PROPERTIES), names[0]),
                               objectDepth + 1, nesting + 1, used + 1, pick, asFloat);
      if child.Rejected? then Rejected(child.fault)
      else
        var rest := HelperNames(t, names[1..], path, objectDepth, nesting, child.value.1, pick, asFloat);
        if rest.Rejected? then rest else Accepted(([(names[0], child.value.0)] + rest.value.0, rest.value.1))
  }

  function Marked(t: Tree, nodes: seq<(ByteString, Node)>): seq<Property> {
    seq(|nodes|, i requires 0 <= i < |nodes| => Property(nodes[i].0, nodes[i].1, IsRequired(t, nodes[i].0)))
  }

  /** The first fault among the required names from the i-th on. */
  function HelperRequired(t: Tree, i: nat, path: ByteString): Option<Fault>
    decreases if Field(t, REQUIRED).Some? && Field(t, REQUIRED).value.JArray?
              then |Field(t, REQUIRED).value.items| - i else 0
  {
    var required := Field(t, REQUIRED);
    if required.None? then None
    else if !required.value.JArray? then Some(Fault(Pointer(path, REQUIRED), "required must be an array of names"))
    else if i >= |required.value.items| then None
    else
      var items := required.value.items;
      var at := Pointer(path, REQUIRED) + [SLASH] + Digits(i);
      if !items[i].JString? then Some(Fault(at, "required entries must be strings"))
      else if !Printable(items[i].text) then Some(Fault(at, "required names must be printable ASCII"))
      else if items[i] in items[..i] then Some(Fault(at, "required names must be unique"))
      else if items[i].text !in Declared(t) then
        Some(Fault(Pointer(path, REQUIRED), "required names a property that is not declared"))
      else HelperRequired(t, i + 1, path)
  }

  function HelperChoices(items: seq<Tree>, i: nat, at: ByteString): Option<Fault>
    decreases |items| - i
  {
    if i >= |items| then None
    else if !items[i].JString? then Some(Fault(at, "enum choices must be strings"))
    else if !Printable(items[i].text) then Some(Fault(at, "enum choices must be printable ASCII"))
    else if items[i] in items[..i] then Some(Fault(at, "enum choices must be unique"))
    else HelperChoices(items, i + 1, at)
  }

  lemma {:induction false} HelperChoicesExact(items: seq<Tree>, i: nat, at: ByteString)
    requires i <= |items|
    ensures HelperChoices(items, i, at).None? <==>
            && (forall j :: i <= j < |items| ==>
                  items[j].JString? && Printable(items[j].text) && items[j] !in items[..j])
    ensures i == 0 ==> (HelperChoices(items, i, at).None? <==> NamesOk(items))
    decreases |items| - i
  {
    if i < |items| {
      HelperChoicesExact(items, i + 1, at);
    }
  }

  lemma {:induction false} HelperRequiredExact(t: Tree, i: nat, path: ByteString)
    requires Field(t, REQUIRED).Some? && Field(t, REQUIRED).value.JArray? && i <= |Field(t, REQUIRED).value.items|
    ensures var items := Field(t, REQUIRED).value.items;
            HelperRequired(t, i, path).None? <==>
            forall j :: i <= j < |items| ==> items[j].JString? && Printable(items[j].text) && items[j] !in items[..j]
                                             && items[j].text in Declared(t)
    decreases |Field(t, REQUIRED).value.items| - i
  {
    if i < |Field(t, REQUIRED).value.items| {
      HelperRequiredExact(t, i + 1, path);
    }
  }

  lemma HelperRequiredOk(t: Tree, path: ByteString)
    ensures HelperRequired(t, 0, path).None? == RequiredOk(t)
  {
    var required := Field(t, REQUIRED);
    if required.Some? && required.value.JArray? {
      HelperRequiredExact(t, 0, path);
      NamesApart(required.value.items);
    }
  }

  lemma NamesApart(items: seq<Tree>)
    ensures NamesOk(items) <==>
            forall j :: 0 <= j < |items| ==> items[j].JString? && Printable(items[j].text) && items[j] !in items[..j]
  {
  }

  /** A parse that accepts exactly what the subset admits here, as its node, counting its properties. */
  predicate Exact(r: Verdict<(Node, nat)>, t: Tree, objectDepth: nat, nesting: nat, used: nat, asFloat: AsFloat) {
    && r.Accepted? == AdmittedHere(t, objectDepth, nesting, used, asFloat)
    && (r.Accepted? ==> r.value == (NodeOf(t, asFloat), used + PropertyCount(t)))
  }

  /** The helper accepts exactly the admitted trees, with their node and their property count. */
  lemma {:induction false} HelperParseExact(t: Tree, path: ByteString, objectDepth: nat, nesting: nat, used: nat,
                                            pick: Picker, asFloat: AsFloat, r: Verdict<(Node, nat)>)
    requires used <= MAX_PROPERTIES && r == HelperParse(t, path, objectDepth, nesting, used, pick, asFloat)
    ensures Exact(r, t, objectDepth, nesting, used, asFloat)
    decreases t, 1, 0
  {
    if nesting <= MAX_NESTING && t.JObject? && KindOf(t).Some? {
      var kind := KindOf(t).value;
      KeywordsExact(t, kind);
      if t.fields.Keys - Allowed(kind) == {} {
        match kind
        case ObjectKind => HelperObjectExact(t, path, objectDepth, nesting, used, pick, asFloat, r);
        case ArrayKind => HelperArrayExact(t, path, objectDepth, nesting, used, pick, asFloat, r);
        case _ => HelperLeafExact(t, kind, path, objectDepth, nesting, used, asFloat, r);
      }
    }
  }

  /** An array is admitted with its items and good bounds, and declares what its items do. */
  lemma ArrayHere(t: Tree, path: ByteString, objectDepth: nat, nesting: nat, used: nat, asFloat: AsFloat)
    requires nesting <= MAX_NESTING && t.JObject? && KindOf(t) == Some(ArrayKind)
    requires forall key :: key in t.fields ==> key in Allowed(ArrayKind)
    ensures AdmittedHere(t, objectDepth, nesting, used, asFloat) ==
            (ITEMS in t.fields && AdmittedHere(t.fields[ITEMS], objectDepth, nesting + 1, used, asFloat)
             && Bounds(t, MIN_ITEMS, MAX_ITEMS_KEY, ArrayKind, path, asFloat).Accepted?)
    ensures AdmittedHere(t, objectDepth, nesting, used, asFloat) ==>
              AllOk(t, asFloat) && AllOk(t.fields[ITEMS], asFloat)
    ensures ITEMS in t.fields ==> PropertyCount(t) == PropertyCount(t.fields[ITEMS])
  {
    hide Bound, Allowed, NumberAt, BoundAllowed, EnumOk, RequiredOk, PropertiesOk;
  }

  lemma HelperLeafExact(t: Tree, kind: Kind, path: ByteString, objectDepth: nat, nesting: nat, used: nat,
                        asFloat: AsFloat, r: Verdict<(Node, nat)>)
    requires used <= MAX_PROPERTIES && nesting <= MAX_NESTING && t.JObject? && KindOf(t) == Some(kind)
    requires kind != ObjectKind && kind != ArrayKind && forall key :: key in t.fields ==> key in Allowed(kind)
    requires r == HelperLeaf(t, kind, path, used, asFloat)
    ensures Exact(r, t, objectDepth, nesting, used, asFloat)
  {
    hide HelperChoices, Printable, RequiredOk, PropertiesOk, Allowed, At, Pointer;
    if kind == StringKind && Field(t, ENUM).Some? && t.fields[ENUM].JArray? {
      HelperChoicesExact(t.fields[ENUM].items, 0, Pointer(path, ENUM));
    }
  }

  lemma {:induction false} HelperArrayExact(t: Tree, path: ByteString, objectDepth: nat, nesting: nat, used: nat,
                                            pick: Picker, asFloat: AsFloat, r: Verdict<(Node, nat)>)
    requires used <= MAX_PROPERTIES && nesting <= MAX_NESTING && t.JObject? && KindOf(t) == Some(ArrayKind)
    requires forall key :: key in t.fields ==> key in Allowed(ArrayKind)
    requires r == HelperArray(t, path, objectDepth, nesting, used, pick, asFloat)
    ensures Exact(r, t, objectDepth, nesting, used, asFloat)
    decreases t, 0, 0
  {
    hide HelperParse, AdmittedHere, Bounds, PropertyCount, Allowed;
    ArrayHere(t, path, objectDepth, nesting, used, asFloat);
    if ITEMS in t.fields {
      var items := HelperParse(t.fields[ITEMS], Pointer(path, ITEMS), objectDepth, nesting + 1, used, pick, asFloat);
      HelperParseExact(t.fields[ITEMS], Pointer(path, ITEMS), objectDepth, nesting + 1, used, pick, asFloat, items);
    }
  }

  lemma KeywordsExact(t: Tree, kind: Kind)
    requires t.JObject?
    ensures t.fields.Keys - Allowed(kind) == {} <==> forall key :: key in t.fields ==> key in Allowed(kind)
  {
    if key :| key in t.fields && key !in Allowed(kind) {
      assert key in t.fields.Keys - Allowed(kind);
    }
  }

  lemma {:induction false} HelperObjectExact(t: Tree, path: ByteString, objectDepth: nat, nesting: nat, used: nat,
                                             pick: Picker, asFloat: AsFloat, r: Verdict<(Node, nat)>)
    requires used <= MAX_PROPERTIES && nesting <= MAX_NESTING
    requires t.JObject? && KindOf(t) == Some(ObjectKind) && forall key :: key in t.fields ==> key in Allowed(ObjectKind)
    requires r == HelperObject(t, path, objectDepth, nesting, used, pick, asFloat)
    ensures Exact(r, t, objectDepth, nesting, used, asFloat)
    decreases t, 0, |Declared(t)| + 1
  {
    if objectDepth > MAX_OBJECT_DEPTH || Field(t, ADDITIONAL) != Some(JBool(false)) {
      return;
    }
    if PROPERTIES in t.fields && !t.fields[PROPERTIES].JObject? {
      return;
    }
    var names := Sorted(Declared(t).Keys);
    var nodes := HelperNames(t, names, path, objectDepth, nesting, used, pick, asFloat);
    HelperNamesExact(t, names, path, objectDepth, nesting, used, pick, asFloat, nodes);
    ObjectNamesAdmitted(t, names, objectDepth, nesting, used, asFloat);
    ObjectFromNames(t, path, nodes, objectDepth, nesting, used, asFloat, r,
                    NamesAdmitted(t, names, objectDepth, nesting, asFloat), NamesCount(t, names));
  }

  lemma ObjectFromNames(t: Tree, path: ByteString, nodes: Verdict<(seq<(ByteString, Node)>, nat)>,
                        objectDepth: nat, nesting: nat, used: nat, asFloat: AsFloat, r: Verdict<(Node, nat)>,
                        namesOk: bool, count: nat)
    requires KindOf(t) == Some(ObjectKind)
    requires nodes.Accepted? == (namesOk && used + count <= MAX_PROPERTIES)
    requires nodes.Accepted? ==>
               NodesRead(t, Sorted(Declared(t).Keys), nodes.value.0, asFloat) && nodes.value.1 == used + count
    requires AdmittedHere(t, objectDepth, nesting, used, asFloat) ==
             (namesOk && RequiredOk(t) && used + count <= MAX_PROPERTIES)
    requires AdmittedHere(t, objectDepth, nesting, used, asFloat) ==> AllOk(t, asFloat) && PropertyCount(t) == count
    requires r == ObjectResult(t, path, nodes)
    ensures Exact(r, t, objectDepth, nesting, used, asFloat)
  {
    ObjectVerdict(t, path, nodes, AdmittedHere(t, objectDepth, nesting, used, asFloat), used + count, asFloat, r);
  }

  lemma ObjectNamesAdmitted(t: Tree, names: seq<ByteString>, objectDepth: nat, nesting: nat, used: nat,
                            asFloat: AsFloat)
    requires objectDepth <= MAX_OBJECT_DEPTH && nesting <= MAX_NESTING
    requires t.JObject? && KindOf(t) == Some(ObjectKind) && forall key :: key in t.fields ==> key in Allowed(ObjectKind)
    requires Field(t, ADDITIONAL) == Some(JBool(false)) && (PROPERTIES in t.fields ==> t.fields[PROPERTIES].JObject?)
    requires names == Sorted(Declared(t).Keys)
    ensures AdmittedHere(t, objectDepth, nesting, used, asFloat) ==
            (NamesAdmitted(t, names, objectDepth, nesting, asFloat)
             && RequiredOk(t) && used + NamesCount(t, names) <= MAX_PROPERTIES)
    ensures AdmittedHere(t, objectDepth, nesting, used, asFloat) ==>
            AllOk(t, asFloat) && PropertyCount(t) == NamesCount(t, names)
  {
    ObjectAdmitted(t, objectDepth, nesting, used, asFloat);
    NamesCoverAll(t, names, objectDepth, nesting, asFloat);
  }

  /** An object whose names were parsed. */
  lemma ObjectVerdict(t: Tree, path: ByteString, nodes: Verdict<(seq<(ByteString, Node)>, nat)>, admitted: bool,
                      total: nat, asFloat: AsFloat, r: Verdict<(Node, nat)>)
    requires KindOf(t) == Some(ObjectKind) && r == ObjectResult(t, path, nodes)
    requires nodes.Accepted? ==>
               NodesRead(t, Sorted(Declared(t).Keys), nodes.value.0, asFloat) && nodes.value.1 == total
    requires admitted == (nodes.Accepted? && RequiredOk(t))
    requires admitted ==> AllOk(t, asFloat)
    ensures r.Accepted? == admitted && (r.Accepted? ==> r.value == (NodeOf(t, asFloat), total))
  {
    HelperRequiredOk(t, path);
    if admitted {
      MarkedIs(t, nodes.value.0, asFloat);
    }
  }

  lemma NamesCoverAll(t: Tree, names: seq<ByteString>, objectDepth: nat, nesting: nat, asFloat: AsFloat)
    requires t.JObject? && (PROPERTIES in t.fields ==> t.fields[PROPERTIES].JObject?)
    requires forall name :: name in names <==> name in Declared(t)
    ensures NamesAdmitted(t, names, objectDepth, nesting, asFloat) <==>
            && PropertiesOk(t)
            && (forall name :: name in Declared(t) ==> ChildAdmitted(t, name, objectDepth, nesting, asFloat))
  {
    if PROPERTIES in t.fields {
      NamesCover(t, names, objectDepth, nesting, asFloat);
    } else {
      assert Declared(t) == map[];
      assert forall i :: 0 <= i < |names| ==> names[i] in Declared(t);
    }
  }

  lemma MarkedIs(t: Tree, nodes: seq<(ByteString, Node)>, asFloat: AsFloat)
    requires AllOk(t, asFloat) && KindOf(t) == Some(ObjectKind)
    requires NodesRead(t, Sorted(Declared(t).Keys), nodes, asFloat)
    ensures ObjectNode(Marked(t, nodes)) == NodeOf(t, asFloat)
  {
    hide AllOk, Sorted;
    var names := Sorted(Declared(t).Keys);
    forall i | 0 <= i < |names| ensures Marked(t, nodes)[i] == PropertiesOf(t, names, asFloat)[i] {
      PropertiesAt(t, names, i, asFloat);
    }
    assert Marked(t, nodes) == PropertiesOf(t, names, asFloat);
  }

  /** Names parsed exactly when all are admitted and fit the count. */
  predicate NamesExact(r: Verdict<(seq<(ByteString, Node)>, nat)>, t: Tree, names: seq<ByteString>,
                       objectDepth: nat, nesting: nat, used: nat, asFloat: AsFloat)
    requires forall name :: name in names ==> name in Declared(t)
  {
    && r.Accepted? == (NamesAdmitted(t, names, objectDepth, nesting, asFloat)
                       && used + NamesCount(t, names) <= MAX_PROPERTIES)
    && (r.Accepted? ==> NodesRead(t, names, r.value.0, asFloat) && r.value.1 == used + NamesCount(t, names))
  }

  lemma {:induction false} HelperNamesExact(t: Tree, names: seq<ByteString>, path: ByteString, objectDepth: nat,
                                            nesting: nat, used: nat, pick: Picker, asFloat: AsFloat,
                                            r: Verdict<(seq<(ByteString, Node)>, nat)>)
    requires used <= MAX_PROPERTIES && forall name :: name in names ==> name in Declared(t)
    requires objectDepth <= MAX_OBJECT_DEPTH && nesting <= MAX_NESTING
    requires r == HelperNames(t, names, path, objectDepth, nesting, used, pick, asFloat)
    ensures NamesExact(r, t, names, objectDepth, nesting, used, asFloat)
    decreases t, 0, |names|, 2
  {
    hide HelperParse, AdmittedHere, NodeOf, PropertyCount, Printable;
    if names == [] {
      return;
    }
    if names[0] == [] || !Printable(names[0]) || used + 1 > MAX_PROPERTIES {
      NameRefused(t, names, path, objectDepth, nesting, used, pick, asFloat, r);
      return;
    }
    var below := Pointer(Pointer(path, PROPERTIES), names[0]);
    var child := HelperParse(Declared(t)[names[0]], below, objectDepth + 1, nesting + 1, used + 1, pick, asFloat);
    HelperParseExact(Declared(t)[names[0]], below, objectDepth + 1, nesting + 1, used + 1, pick, asFloat, child);
    HelperNamesFrom(t, names, path, objectDepth, nesting, used, pick, asFloat, r, child);
  }

  lemma {:induction false} HelperNamesFrom(t: Tree, names: seq<ByteString>, path: ByteString, objectDepth: nat,
                                           nesting: nat, used: nat, pick: Picker, asFloat: AsFloat,
                                           r: Verdict<(seq<(ByteString, Node)>, nat)>, child: Verdict<(Node, nat)>)
    requires names != [] && forall name :: name in names ==> name in Declared(t)
    requires objectDepth <= MAX_OBJECT_DEPTH && nesting <= MAX_NESTING
    requires names[0] != [] && Printable(names[0]) && used + 1 <= MAX_PROPERTIES
    requires r == HelperNames(t, names, path, objectDepth, nesting, used, pick, asFloat)
    requires child == HelperParse(Declared(t)[names[0]], Pointer(Pointer(path, PROPERTIES), names[0]),
                                  objectDepth + 1, nesting + 1, used + 1, pick, asFloat)
    requires Exact(child, Declared(t)[names[0]], objectDepth + 1, nesting + 1, used + 1, asFloat)
    ensures NamesExact(r, t, names, objectDepth, nesting, used, asFloat)
    decreases t, 0, |names|, 1
  {
    hide *;
    NamesCase(t, names, path, objectDepth, nesting, used, pick, asFloat, r, child);
    ChildExact(t, names[0], child, objectDepth, nesting, used, asFloat);
    if child.Rejected? {
      NamesRefused(t, names, r, objectDepth, nesting, used, asFloat);
    } else {
      var rest := HelperNames(t, names[1..], path, objectDepth, nesting, child.value.1, pick, asFloat);
      HelperNamesRest(t, names, path, objectDepth, nesting, used, pick, asFloat, child.value, rest);
    }
  }

  lemma NameRefused(t: Tree, names: seq<ByteString>, path: ByteString, objectDepth: nat, nesting: nat, used: nat,
                    pick: Picker, asFloat: AsFloat, r: Verdict<(seq<(ByteString, Node)>, nat)>)
    requires names != [] && forall name :: name in names ==> name in Declared(t)
    requires objectDepth <= MAX_OBJECT_DEPTH && nesting <= MAX_NESTING
    requires names[0] == [] || !Printable(names[0]) || used + 1 > MAX_PROPERTIES
    requires r == HelperNames(t, names, path, objectDepth, nesting, used, pick, asFloat)
    ensures NamesExact(r, t, names, objectDepth, nesting, used, asFloat)
  {
    NamesRefused(t, names, r, objectDepth, nesting, used, asFloat);
  }

  lemma NamesCase(t: Tree, names: seq<ByteString>, path: ByteString, objectDepth: nat, nesting: nat, used: nat,
                  pick: Picker, asFloat: AsFloat, r: Verdict<(seq<(ByteString, Node)>, nat)>,
                  child: Verdict<(Node, nat)>)
    requires names != [] && forall name :: name in names ==> name in Declared(t)
    requires names[0] != [] && Printable(names[0]) && used + 1 <= MAX_PROPERTIES
    requires r == HelperNames(t, names, path, objectDepth, nesting, used, pick, asFloat)
    requires child == HelperParse(Declared(t)[names[0]], Pointer(Pointer(path, PROPERTIES), names[0]),
                                  objectDepth + 1, nesting + 1, used + 1, pick, asFloat)
    ensures r == if child.Rejected? then Rejected(child.fault)
                 else
                   var rest := HelperNames(t, names[1..], path, objectDepth, nesting, child.value.1, pick, asFloat);
                   if rest.Rejected? then rest else Accepted(([(names[0], child.value.0)] + rest.value.0, rest.value.1))
  {
  }

  lemma {:induction false} HelperNamesRest(t: Tree, names: seq<ByteString>, path: ByteString, objectDepth: nat,
                                           nesting: nat, used: nat, pick: Picker, asFloat: AsFloat,
                                           child: (Node, nat), rest: Verdict<(seq<(ByteString, Node)>, nat)>)
    requires names != [] && forall name :: name in names ==> name in Declared(t)
    requires objectDepth <= MAX_OBJECT_DEPTH && nesting <= MAX_NESTING && child.1 <= MAX_PROPERTIES
    requires NameAdmitted(t, names[0], objectDepth, nesting, asFloat)
    requires child == (NodeOf(Declared(t)[names[0]], asFloat), used + 1 + PropertyCount(Declared(t)[names[0]]))
    requires rest == HelperNames(t, names[1..], path, objectDepth, nesting, child.1, pick, asFloat)
    ensures NamesExact(if rest.Rejected? then rest else Accepted(([(names[0], child.0)] + rest.value.0, rest.value.1)),
                       t, names, objectDepth, nesting, used, asFloat)
    decreases t, 0, |names|, 0
  {
    HelperNamesExact(t, names[1..], path, objectDepth, nesting, child.1, pick, asFloat, rest);
    NamesExactCons(t, names, child, rest, objectDepth, nesting, used, asFloat);
  }

  lemma ChildExact(t: Tree, name: ByteString, child: Verdict<(Node, nat)>, objectDepth: nat, nesting: nat, used: nat,
                   asFloat: AsFloat)
    requires name in Declared(t) && name != [] && Printable(name)
    requires Exact(child, Declared(t)[name], objectDepth + 1, nesting + 1, used + 1, asFloat)
    ensures child.Accepted? == (NameAdmitted(t, name, objectDepth, nesting, asFloat)
                                && used + 1 + PropertyCount(Declared(t)[name]) <= MAX_PROPERTIES)
    ensures child.Accepted? ==>
              child.value == (NodeOf(Declared(t)[name], asFloat), used + 1 + PropertyCount(Declared(t)[name]))
  {
  }

  lemma NamesRefused(t: Tree, names: seq<ByteString>, r: Verdict<(seq<(ByteString, Node)>, nat)>,
                     objectDepth: nat, nesting: nat, used: nat, asFloat: AsFloat)
    requires names != [] && forall name :: name in names ==> name in Declared(t)
    requires r.Rejected? && objectDepth <= MAX_OBJECT_DEPTH && nesting <= MAX_NESTING
    requires !NameAdmitted(t, names[0], objectDepth, nesting, asFloat)
             || used + 1 + PropertyCount(Declared(t)[names[0]]) > MAX_PROPERTIES
    ensures NamesExact(r, t, names, objectDepth, nesting, used, asFloat)
  {
  }

  lemma NamesExactCons(t: Tree, names: seq<ByteString>, child: (Node, nat),
                       rest: Verdict<(seq<(ByteString, Node)>, nat)>, objectDepth: nat, nesting: nat, used: nat,
                       asFloat: AsFloat)
    requires names != [] && forall name :: name in names ==> name in Declared(t)
    requires objectDepth <= MAX_OBJECT_DEPTH && nesting <= MAX_NESTING
    requires NameAdmitted(t, names[0], objectDepth, nesting, asFloat)
    requires child == (NodeOf(Declared(t)[names[0]], asFloat), used + 1 + PropertyCount(Declared(t)[names[0]]))
    requires NamesExact(rest, t, names[1..], objectDepth, nesting, child.1, asFloat)
    ensures NamesExact(if rest.Rejected? then rest else Accepted(([(names[0], child.0)] + rest.value.0, rest.value.1)),
                       t, names, objectDepth, nesting, used, asFloat)
  {
    hide NodeOf, AllOk, AdmittedHere;
    NamesAdmittedCons(t, names, objectDepth, nesting, asFloat);
  }

  lemma NamesAdmittedCons(t: Tree, names: seq<ByteString>, objectDepth: nat, nesting: nat, asFloat: AsFloat)
    requires names != [] && forall name :: name in names ==> name in Declared(t)
    ensures NamesAdmitted(t, names, objectDepth, nesting, asFloat) <==>
            && NameAdmitted(t, names[0], objectDepth, nesting, asFloat)
            && NamesAdmitted(t, names[1..], objectDepth, nesting, asFloat)
  {
    assert forall i :: 1 <= i < |names| ==> names[i] == names[1..][i - 1];
    assert forall i :: 0 <= i < |names[1..]| ==> names[1..][i] == names[i + 1];
  }

  /** The helper's whole parse. */
  function HelperSchema(t: Tree, format: Format, pick: Picker, asFloat: AsFloat): Verdict<Node> {
    if !Encodable(t, format) || |Encode(t, format)| > MAX_BYTES then Rejected(Fault([], "schema is larger than 64 KiB"))
    else if KindOf(t) != Some(ObjectKind) then Rejected(Fault([], "root schema must be an object"))
    else
      var r := HelperParse(t, [], 1, 1, 0, pick, asFloat);
      if r.Rejected? then Rejected(r.fault) else Accepted(r.value.0)
  }

  /** Whatever keyword the helper reports first, it accepts exactly the trees the consumer accepts,
      as the same node. */
  lemma SameSchemas(t: Tree, format: Format, pick: Picker, asFloat: AsFloat)
    ensures var r := HelperSchema(t, format, pick, asFloat);
            && (r.Accepted? <==> Encodable(t, format) && |Encode(t, format)| <= MAX_BYTES && IsSchema(t, asFloat))
            && (r.Accepted? ==> r.value == NodeOf(t, asFloat))
  {
    hide HelperParse, NodeOf, Encode, PropertyCount, Encodable;
    HelperParseExact(t, [], 1, 1, 0, pick, asFloat, HelperParse(t, [], 1, 1, 0, pick, asFloat));
  }

  // ---- where the helper reports its faults ----

  lemma {:induction false} ChoicesPlaced(items: seq<Tree>, i: nat, at: ByteString)
    ensures HelperChoices(items, i, at).Some? ==> HelperChoices(items, i, at).value.pointer == at
    decreases |items| - i
  {
    if i < |items| {
      ChoicesPlaced(items, i + 1, at);
    }
  }

  lemma LeafPlaced(t: Tree, kind: Kind, path: ByteString, used: nat, asFloat: AsFloat)
    ensures var r := HelperLeaf(t, kind, path, used, asFloat); r.Rejected? ==> At(t, path, r.fault.pointer)
  {
    hide At, Bounds;
    AtKey(t, path, ENUM);
    var choices := Field(t, ENUM);
    if choices.Some? && choices.value.JArray? {
      ChoicesPlaced(choices.value.items, 0, Pointer(path, ENUM));
    }
  }

  lemma {:induction false} RequiredPlaced(t: Tree, i: nat, path: ByteString)
    ensures var fault := HelperRequired(t, i, path); fault.Some? ==> At(t, path, fault.value.pointer)
    decreases if Field(t, REQUIRED).Some? && Field(t, REQUIRED).value.JArray?
              then |Field(t, REQUIRED).value.items| - i else 0
  {
    hide At;
    AtKey(t, path, REQUIRED);
    var required := Field(t, REQUIRED);
    if required.Some? && required.value.JArray? && i < |required.value.items| {
      AtEntry(t, path, REQUIRED, i);
      RequiredPlaced(t, i + 1, path);
    }
  }

  /** The helper, too, reports every fault at a place of the tree or a keyword below one. */
  lemma {:induction false} HelperPlaced(t: Tree, path: ByteString, objectDepth: nat, nesting: nat, used: nat,
                                        pick: Picker, asFloat: AsFloat)
    ensures var r := HelperParse(t, path, objectDepth, nesting, used, pick, asFloat);
            r.Rejected? ==> At(t, path, r.fault.pointer)
    decreases t, 1, 0
  {
    hide At, HelperObject, HelperArray, HelperLeaf, Allowed;
    AtSelf(t, path);
    AtKey(t, path, TYPE);
    if t.JObject? && KindOf(t).Some? {
      var kind := KindOf(t).value;
      AtKey(t, path, pick(t.fields.Keys - Allowed(kind)));
      if kind == ObjectKind {
        ObjectPlaced(t, path, objectDepth, nesting, used, pick, asFloat);
      } else if kind == ArrayKind {
        ArrayPlaced(t, path, objectDepth, nesting, used, pick, asFloat);
      } else {
        LeafPlaced(t, kind, path, used, asFloat);
      }
    }
  }

  lemma {:induction false} ObjectPlaced(t: Tree, path: ByteString, objectDepth: nat, nesting: nat, used: nat,
                                        pick: Picker, asFloat: AsFloat)
    requires t.JObject?
    ensures var r := HelperObject(t, path, objectDepth, nesting, used, pick, asFloat);
            r.Rejected? ==> At(t, path, r.fault.pointer)
    decreases t, 0, |Declared(t)| + 1
  {
    hide At, HelperNames, HelperRequired;
    AtSelf(t, path);
    AtKey(t, path, ADDITIONAL);
    AtKey(t, path, PROPERTIES);
    RequiredPlaced(t, 0, path);
    NamesPlaced(t, Sorted(Declared(t).Keys), path, objectDepth, nesting, used, pick, asFloat);
  }

  lemma {:induction false} ArrayPlaced(t: Tree, path: ByteString, objectDepth: nat, nesting: nat, used: nat,
                                       pick: Picker, asFloat: AsFloat)
    requires t.JObject?
    ensures var r := HelperArray(t, path, objectDepth, nesting, used, pick, asFloat);
            r.Rejected? ==> At(t, path, r.fault.pointer)
    decreases t, 0, 0
  {
    hide At, HelperParse, Bounds;
    AtKey(t, path, ITEMS);
    if ITEMS in t.fields {
      HelperPlaced(t.fields[ITEMS], Pointer(path, ITEMS), objectDepth, nesting + 1, used, pick, asFloat);
      var items := HelperParse(t.fields[ITEMS], Pointer(path, ITEMS), objectDepth, nesting + 1, used, pick, asFloat);
      if items.Rejected? {
        AtBelow(t, path, ITEMS, items.fault.pointer);
      }
    }
  }

  lemma {:induction false} NamesPlaced(t: Tree, names: seq<ByteString>, path: ByteString, objectDepth: nat,
                                       nesting: nat, used: nat, pick: Picker, asFloat: AsFloat)
    requires forall name :: name in names ==> name in Declared(t)
    ensures var r := HelperNames(t, names, path, objectDepth, nesting, used, pick, asFloat);
            r.Rejected? ==> At(t, path, r.fault.pointer)
    decreases t, 0, |names|
  {
    hide At, HelperParse;
    AtKey(t, path, PROPERTIES);
    if names != [] {
      var name, at := names[0], Pointer(path, PROPERTIES);
      HelperPlaced(Declared(t)[name], Pointer(at, name), objectDepth + 1, nesting + 1, used + 1, pick, asFloat);
      var child := HelperParse(Declared(t)[name], Pointer(at, name), objectDepth + 1, nesting + 1, used + 1, pick,
                               asFloat);
      if child.Rejected? {
        AtBelow(t.fields[PROPERTIES], at, name, child.fault.pointer);
        AtBelow(t, path, PROPERTIES, child.fault.pointer);
      } else {
        NamesPlaced(t, names[1..], path, objectDepth, nesting, child.value.1, pick, asFloat);
      }
    }
  }
}
