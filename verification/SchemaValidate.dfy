/** Judging a payload by a schema node: the pointer of the first offence, or nothing. */
module SchemaValidate {
  import opened Bytes
  import opened ByteOrder
  import opened JsonGrammar
  import opened JsonWriter
  import opened JsonPointers
  import opened Options
  import opened SchemaRules

  function NumberOf(t: Tree, asFloat: AsFloat): Option<real> {
    if t.JNumber? then asFloat(t.number) else None
  }

  predicate InRange(x: real, low: Option<real>, high: Option<real>) {
    (low.Some? ==> low.value <= x) && (high.Some? ==> x <= high.value)
  }

  predicate Names(properties: seq<Property>, name: ByteString) {
    exists i :: 0 <= i < |properties| && properties[i].name == name
  }

  // ---- conformance, declaratively ----

  /** A value is of its node's kind, within its bounds or among its choices; an object has declared
      members only and all that are required. */
  predicate Conforms(t: Tree, node: Node, asFloat: AsFloat)
    decreases node
  {
    match node
    case ObjectNode(properties) =>
      && t.JObject?
      && (forall key :: key in t.fields ==> exists p :: p in properties && p.name == key)
      && (forall i :: 0 <= i < |properties| ==>
            if properties[i].name in t.fields
            then Conforms(t.fields[properties[i].name], properties[i].node, asFloat)
            else !properties[i].required)
    case ArrayNode(items, low, high) =>
      && t.JArray?
      && (low.None? || |t.items| as real >= low.value) && (high.None? || |t.items| as real <= high.value)
      && (forall i :: 0 <= i < |t.items| ==> Conforms(t.items[i], items, asFloat))
    case StringNode(choices) => t.JString? && (choices.None? || t.text in choices.value)
    case IntegerNode(low, high) =>
      && t.JNumber? && asFloat(t.number).Some?
      && var x := asFloat(t.number).value;
      && x.Floor as real == x && (low.None? || x >= low.value) && (high.None? || x <= high.value)
    case NumberNode(low, high) =>
      && t.JNumber? && asFloat(t.number).Some?
      && var x := asFloat(t.number).value;
      && (low.None? || x >= low.value) && (high.None? || x <= high.value)
    case BooleanNode => t.JBool?
  }

  /** A value meets its own node, its members and items aside. */
  predicate SelfOk(t: Tree, node: Node, asFloat: AsFloat) {
    match node
    case ObjectNode(_) => t.JObject?
    case ArrayNode(_, low, high) => t.JArray? && InRange(|t.items| as real, low, high)
    case StringNode(choices) => t.JString? && (choices.Some? ==> t.text in choices.value)
    case IntegerNode(low, high) =>
      && NumberOf(t, asFloat).Some? && IsWhole(NumberOf(t, asFloat).value)
      && InRange(NumberOf(t, asFloat).value, low, high)
    case NumberNode(low, high) => NumberOf(t, asFloat).Some? && InRange(NumberOf(t, asFloat).value, low, high)
    case BooleanNode => t.JBool?
  }

  /** The node that governs the place the tokens lead to, following declared members and items. */
  predicate Governs(t: Tree, node: Node, tokens: seq<ByteString>, found: Tree, rule: Node)
    decreases node
  {
    if tokens == [] then found == t && rule == node
    else
      match node
      case ObjectNode(properties) =>
        && t.JObject? && tokens[0] in t.fields
        && exists i :: 0 <= i < |properties| && properties[i].name == tokens[0]
                       && Governs(t.fields[tokens[0]], properties[i].node, tokens[1..], found, rule)
      case ArrayNode(items, _, _) =>
        && t.JArray? && Step(t, tokens[0]).Some?
        && Governs(Step(t, tokens[0]).value, items, tokens[1..], found, rule)
      case _ => false
  }

  /** A place at fault: a value that fails its own node, or a member of a governed object that is
      undeclared, or required and absent. */
  ghost predicate AtFault(t: Tree, node: Node, tokens: seq<ByteString>, asFloat: AsFloat) {
    || (exists found, rule :: Governs(t, node, tokens, found, rule) && !SelfOk(found, rule, asFloat))
    || (tokens != [] && HasFaultyMember(t, node, tokens[..|tokens| - 1], tokens[|tokens| - 1]))
  }

  ghost predicate HasFaultyMember(t: Tree, node: Node, tokens: seq<ByteString>, name: ByteString) {
    exists found, rule :: FaultyMember(t, node, tokens, found, rule, name)
  }

  predicate FaultyMember(t: Tree, node: Node, tokens: seq<ByteString>, found: Tree, rule: Node, name: ByteString) {
    Governs(t, node, tokens, found, rule) && MemberFault(found, rule, name)
  }

  predicate MemberFault(found: Tree, rule: Node, name: ByteString) {
    && found.JObject? && rule.ObjectNode?
    && if name in found.fields then !Names(rule.properties, name)
       else exists i :: 0 <= i < |rule.properties| && rule.properties[i].name == name && rule.properties[i].required
  }

  // ---- the validator ----

  function Self(path: ByteString): (p: ByteString)
    ensures p != []
  {
    if path == [] then [SLASH] else path
  }

  /** The pointer of the first offence, empty when there is none. */
  function Validate(t: Tree, node: Node, path: ByteString, asFloat: AsFloat): ByteString
    decreases node, 1
  {
    match node
    case ObjectNode(properties) =>
      if !t.JObject? then Self(path)
      else
        var unknown := FirstUnknown(Sorted(t.fields.Keys), properties);
        if unknown.Some? then Pointer(path, unknown.value)
        else
          var absent := FirstAbsent(t, properties);
          if absent.Some? then Pointer(path, absent.value) else ValidateMembers(t, properties, path, asFloat)
    case ArrayNode(items, low, high) =>
      if !t.JArray? || !InRange(|t.items| as real, low, high) then Self(path)
      else ValidateItems(t.items, 0, node, path, asFloat)
    case _ => if SelfOk(t, node, asFloat) then [] else Self(path)
  }

  function FirstUnknown(keys: seq<ByteString>, properties: seq<Property>): Option<ByteString> {
    if keys == [] then None
    else if !Names(properties, keys[0]) then Some(keys[0])
    else FirstUnknown(keys[1..], properties)
  }

  function FirstAbsent(t: Tree, properties: seq<Property>): Option<ByteString>
    requires t.JObject?
  {
    if properties == [] then None
    else if properties[0].name !in t.fields && properties[0].required then Some(properties[0].name)
    else FirstAbsent(t, properties[1..])
  }

  function ValidateMembers(t: Tree, properties: seq<Property>, path: ByteString, asFloat: AsFloat): ByteString
    requires t.JObject?
    decreases properties, 0
  {
    if properties == [] then []
    else
      var name := properties[0].name;
      var bad :=
        if name in t.fields then Validate(t.fields[name], properties[0].node, Pointer(path, name), asFloat) else [];
      if bad != [] then bad else ValidateMembers(t, properties[1..], path, asFloat)
  }

  function ValidateItems(items: seq<Tree>, index: nat, node: Node, path: ByteString, asFloat: AsFloat): ByteString
    requires node.ArrayNode? && index <= |items|
    decreases node, 0, |items| - index
  {
    if index == |items| then []
    else
      var bad := Validate(items[index], node.items, path + [SLASH] + Digits(index), asFloat);
      if bad != [] then bad else ValidateItems(items, index + 1, node, path, asFloat)
  }

  // ---- it answers nothing exactly when the payload conforms ----

  lemma {:induction false} FirstUnknownExact(keys: seq<ByteString>, properties: seq<Property>)
    ensures FirstUnknown(keys, properties).None? <==> forall k :: k in keys ==> Names(properties, k)
    ensures var u := FirstUnknown(keys, properties); u.Some? ==> u.value in keys && !Names(properties, u.value)
    decreases |keys|
  {
    if keys != [] {
      FirstUnknownExact(keys[1..], properties);
    }
  }

  predicate IsAbsent(t: Tree, p: Property)
    requires t.JObject?
  {
    p.name !in t.fields && p.required
  }

  lemma {:induction false} FirstAbsentExact(t: Tree, properties: seq<Property>)
    requires t.JObject?
    ensures FirstAbsent(t, properties).None? <==> forall i :: 0 <= i < |properties| ==> !IsAbsent(t, properties[i])
    ensures var a := FirstAbsent(t, properties);
            a.Some? ==> exists i :: 0 <= i < |properties| && IsAbsent(t, properties[i]) && properties[i].name == a.value
    decreases |properties|
  {
    if properties != [] {
      FirstAbsentExact(t, properties[1..]);
      assert forall i :: 1 <= i < |properties| ==> properties[i] == properties[1..][i - 1];
      assert forall i :: 0 <= i < |properties| - 1 ==> properties[1..][i] == properties[i + 1];
    }
  }

  predicate MemberConforms(t: Tree, p: Property, asFloat: AsFloat)
    requires t.JObject?
  {
    p.name in t.fields ==> Conforms(t.fields[p.name], p.node, asFloat)
  }

  /** Nothing is reported exactly when the payload conforms. */
  lemma {:induction false} ValidateExact(t: Tree, node: Node, path: ByteString, asFloat: AsFloat)
    ensures Validate(t, node, path, asFloat) == [] <==> Conforms(t, node, asFloat)
    decreases node, 1
  {
    match node
    case ObjectNode(properties) =>
      if t.JObject? {
        FirstUnknownExact(Sorted(t.fields.Keys), properties);
        FirstAbsentExact(t, properties);
        MembersExact(t, properties, path, asFloat);
        ObjectConforms(t, properties, asFloat);
      }
    case ArrayNode(items, low, high) =>
      if t.JArray? {
        ItemsExact(t.items, 0, node, path, asFloat);
      }
    case _ =>
  }

  lemma NamesExactly(properties: seq<Property>, name: ByteString)
    ensures Names(properties, name) <==> exists p :: p in properties && p.name == name
  {
    if i :| 0 <= i < |properties| && properties[i].name == name {
      assert properties[i] in properties;
    }
  }

  lemma ObjectConforms(t: Tree, properties: seq<Property>, asFloat: AsFloat)
    requires t.JObject?
    ensures Conforms(t, ObjectNode(properties), asFloat) <==>
            && (forall k :: k in t.fields ==> Names(properties, k))
            && (forall i :: 0 <= i < |properties| ==> !IsAbsent(t, properties[i]))
            && (forall i :: 0 <= i < |properties| ==> MemberConforms(t, properties[i], asFloat))
  {
    hide Names;
    forall k | k in t.fields
      ensures Names(properties, k) <==> exists p :: p in properties && p.name == k
    {
      NamesExactly(properties, k);
    }
  }

  lemma {:induction false} MembersExact(t: Tree, properties: seq<Property>, path: ByteString, asFloat: AsFloat)
    requires t.JObject?
    ensures ValidateMembers(t, properties, path, asFloat) == [] <==>
            forall i :: 0 <= i < |properties| ==> MemberConforms(t, properties[i], asFloat)
    decreases properties, 0
  {
    if properties != [] {
      var p := properties[0];
      if p.name in t.fields {
        ValidateExact(t.fields[p.name], p.node, Pointer(path, p.name), asFloat);
      }
      MembersExact(t, properties[1..], path, asFloat);
      assert forall i :: 1 <= i < |properties| ==> properties[i] == properties[1..][i - 1];
      assert forall i :: 0 <= i < |properties| - 1 ==> properties[1..][i] == properties[i + 1];
    }
  }

  lemma {:induction false} ItemsExact(items: seq<Tree>, index: nat, node: Node, path: ByteString, asFloat: AsFloat)
    requires node.ArrayNode? && index <= |items|
    ensures ValidateItems(items, index, node, path, asFloat) == [] <==>
            forall i :: index <= i < |items| ==> Conforms(items[i], node.items, asFloat)
    decreases node, 0, |items| - index
  {
    hide Conforms, Validate, Digits;
    if index < |items| {
      ValidateExact(items[index], node.items, path + [SLASH] + Digits(index), asFloat);
      ItemsExact(items, index + 1, node, path, asFloat);
      ItemsConformCons(items, index, node, asFloat);
    }
  }

  lemma ItemsConformCons(items: seq<Tree>, index: nat, node: Node, asFloat: AsFloat)
    requires node.ArrayNode? && index < |items|
    ensures (forall i :: index <= i < |items| ==> Conforms(items[i], node.items, asFloat)) <==>
            Conforms(items[index], node.items, asFloat)
            && (forall i :: index + 1 <= i < |items| ==> Conforms(items[i], node.items, asFloat))
  {
  }

  // ---- and otherwise its pointer leads to a fault ----

  /** The spelling of a place: its pointer, except that the root is written `/`. */
  function Spelling(tokens: seq<ByteString>): ByteString {
    if tokens == [] then [SLASH] else PathText(tokens)
  }

  /** A fault below the place the prefix leads to, spelled from the root. */
  ghost predicate Reports(bad: ByteString, prefix: seq<ByteString>, tokens: seq<ByteString>,
                          t: Tree, node: Node, asFloat: AsFloat) {
    bad == Spelling(prefix + tokens) && AtFault(t, node, tokens, asFloat)
  }

  lemma SelfReported(prefix: seq<ByteString>, t: Tree, node: Node, asFloat: AsFloat)
    requires !SelfOk(t, node, asFloat)
    ensures Reports(Self(PathText(prefix)), prefix, [], t, node, asFloat)
  {
    assert prefix + [] == prefix;
    assert Governs(t, node, [], t, node);
    PathTextEmpty(prefix);
  }

  lemma PathTextEmpty(tokens: seq<ByteString>)
    ensures PathText(tokens) == [] <==> tokens == []
  {
  }

  lemma MemberReported(prefix: seq<ByteString>, name: ByteString, t: Tree, node: Node, asFloat: AsFloat)
    requires MemberFault(t, node, name)
    ensures Reports(Pointer(PathText(prefix), name), prefix, [name], t, node, asFloat)
  {
    PointerIsPath(prefix, name);
    var tokens := [name];
    assert tokens[..|tokens| - 1] == [];
    assert FaultyMember(t, node, tokens[..|tokens| - 1], t, node, tokens[|tokens| - 1]);
  }

  lemma GovernsBelow(t: Tree, node: Node, token: ByteString, below: Tree, rule: Node, tokens: seq<ByteString>,
                     found: Tree, foundRule: Node)
    requires Governs(below, rule, tokens, found, foundRule)
    requires match node
             case ObjectNode(properties) =>
               t.JObject? && token in t.fields && t.fields[token] == below
               && exists i :: 0 <= i < |properties| && properties[i].name == token && properties[i].node == rule
             case ArrayNode(items, _, _) => Step(t, token) == Some(below) && t.JArray? && rule == items
             case _ => false
    ensures Governs(t, node, [token] + tokens, found, foundRule)
  {
    assert ([token] + tokens)[1..] == tokens;
  }

  /** A fault below one step is a fault of the whole. */
  lemma FaultBelow(t: Tree, node: Node, token: ByteString, below: Tree, rule: Node, tokens: seq<ByteString>,
                   asFloat: AsFloat)
    requires AtFault(below, rule, tokens, asFloat)
    requires match node
             case ObjectNode(properties) =>
               t.JObject? && token in t.fields && t.fields[token] == below
               && exists i :: 0 <= i < |properties| && properties[i].name == token && properties[i].node == rule
             case ArrayNode(items, _, _) => Step(t, token) == Some(below) && t.JArray? && rule == items
             case _ => false
    ensures AtFault(t, node, [token] + tokens, asFloat)
  {
    if found, foundRule :| Governs(below, rule, tokens, found, foundRule) && !SelfOk(found, foundRule, asFloat) {
      GovernsBelow(t, node, token, below, rule, tokens, found, foundRule);
    } else {
      var front := tokens[..|tokens| - 1];
      var name := tokens[|tokens| - 1];
      var found, foundRule :| FaultyMember(below, rule, front, found, foundRule, name);
      GovernsBelow(t, node, token, below, rule, front, found, foundRule);
      var all := [token] + tokens;
      assert all[..|all| - 1] == [token] + front;
      assert FaultyMember(t, node, all[..|all| - 1], found, foundRule, all[|all| - 1]);
    }
  }

  /** A report from below is a report of the whole. */
  lemma ReportLifts(bad: ByteString, prefix: seq<ByteString>, token: ByteString, tokens: seq<ByteString>,
                    t: Tree, node: Node, below: Tree, rule: Node, asFloat: AsFloat)
    requires Reports(bad, prefix + [token], tokens, below, rule, asFloat)
    requires match node
             case ObjectNode(properties) =>
               t.JObject? && token in t.fields && t.fields[token] == below
               && exists i :: 0 <= i < |properties| && properties[i].name == token && properties[i].node == rule
             case ArrayNode(items, _, _) => Step(t, token) == Some(below) && t.JArray? && rule == items
             case _ => false
    ensures Reports(bad, prefix, [token] + tokens, t, node, asFloat)
  {
    assert prefix + [token] + tokens == prefix + ([token] + tokens);
    FaultBelow(t, node, token, below, rule, tokens, asFloat);
  }

  /** Whatever is reported leads to a fault. */
  lemma {:induction false} ReportsFault(t: Tree, node: Node, prefix: seq<ByteString>, asFloat: AsFloat)
    requires Validate(t, node, PathText(prefix), asFloat) != []
    ensures exists tokens :: Reports(Validate(t, node, PathText(prefix), asFloat), prefix, tokens, t, node, asFloat)
    decreases node, 1
  {
    match node
    case ObjectNode(properties) => ObjectReports(t, properties, prefix, asFloat);
    case ArrayNode(items, low, high) =>
      if !t.JArray? || !InRange(|t.items| as real, low, high) {
        SelfReported(prefix, t, node, asFloat);
      } else {
        ItemsReport(t, 0, node, prefix, asFloat);
      }
    case _ => SelfReported(prefix, t, node, asFloat);
  }

  lemma {:induction false} ObjectReports(t: Tree, properties: seq<Property>, prefix: seq<ByteString>, asFloat: AsFloat)
    requires Validate(t, ObjectNode(properties), PathText(prefix), asFloat) != []
    ensures exists tokens :: Reports(Validate(t, ObjectNode(properties), PathText(prefix), asFloat), prefix, tokens,
                                     t, ObjectNode(properties), asFloat)
    decreases properties, 1
  {
    var node := ObjectNode(properties);
    if !t.JObject? {
      SelfReported(prefix, t, node, asFloat);
      return;
    }
    FirstUnknownExact(Sorted(t.fields.Keys), properties);
    FirstAbsentExact(t, properties);
    var unknown := FirstUnknown(Sorted(t.fields.Keys), properties);
    if unknown.Some? {
      MemberReported(prefix, unknown.value, t, node, asFloat);
      return;
    }
    var absent := FirstAbsent(t, properties);
    if absent.Some? {
      MemberReported(prefix, absent.value, t, node, asFloat);
      return;
    }
    MembersReport(t, properties, properties, prefix, asFloat);
  }

  lemma {:induction false} MembersReport(t: Tree, properties: seq<Property>, all: seq<Property>,
                                         prefix: seq<ByteString>, asFloat: AsFloat)
    requires t.JObject? && ValidateMembers(t, properties, PathText(prefix), asFloat) != []
    requires forall p :: p in properties ==> p in all
    ensures exists tokens :: Reports(ValidateMembers(t, properties, PathText(prefix), asFloat), prefix, tokens,
                                     t, ObjectNode(all), asFloat)
    decreases properties, 0
  {
    hide Validate, PathText, Pointer, Conforms, SelfOk;
    var p := properties[0];
    var bad :=
      if p.name in t.fields then Validate(t.fields[p.name], p.node, Pointer(PathText(prefix), p.name), asFloat) else [];
    if bad != [] {
      PointerIsPath(prefix, p.name);
      var below := t.fields[p.name];
      ReportsFault(below, p.node, prefix + [p.name], asFloat);
      var tokens :| Reports(bad, prefix + [p.name], tokens, below, p.node, asFloat);
      assert p in all;
      ReportLifts(bad, prefix, p.name, tokens, t, ObjectNode(all), below, p.node, asFloat);
    } else {
      MembersReport(t, properties[1..], all, prefix, asFloat);
    }
  }

  lemma {:induction false} ItemsReport(t: Tree, index: nat, node: Node, prefix: seq<ByteString>, asFloat: AsFloat)
    requires t.JArray? && node.ArrayNode? && index <= |t.items|
    requires ValidateItems(t.items, index, node, PathText(prefix), asFloat) != []
    ensures exists tokens :: Reports(ValidateItems(t.items, index, node, PathText(prefix), asFloat), prefix, tokens,
                                     t, node, asFloat)
    decreases node, 0, |t.items| - index
  {
    hide Validate, PathText, Pointer, Conforms, SelfOk, Digits;
    var token := Digits(index);
    EscapePlain(token);
    PathTextSnoc(prefix, token);
    var below := t.items[index];
    var bad := Validate(below, node.items, PathText(prefix + [token]), asFloat);
    if bad != [] {
      ReportsFault(below, node.items, prefix + [token], asFloat);
      var tokens :| Reports(bad, prefix + [token], tokens, below, node.items, asFloat);
      StepItem(t.items, index);
      ReportLifts(bad, prefix, token, tokens, t, node, below, node.items, asFloat);
    } else {
      ItemsReport(t, index + 1, node, prefix, asFloat);
    }
  }

  // ---- main results ----

  lemma {:induction false} FaultsDoNotConform(t: Tree, node: Node, tokens: seq<ByteString>, found: Tree, rule: Node,
                                              asFloat: AsFloat)
    requires Governs(t, node, tokens, found, rule) && Conforms(t, node, asFloat)
    ensures Conforms(found, rule, asFloat)
    decreases node
  {
    if tokens != [] {
      match node
      case ObjectNode(properties) =>
        var i :| 0 <= i < |properties| && properties[i].name == tokens[0]
                 && Governs(t.fields[tokens[0]], properties[i].node, tokens[1..], found, rule);
        FaultsDoNotConform(t.fields[tokens[0]], properties[i].node, tokens[1..], found, rule, asFloat);
      case ArrayNode(items, _, _) =>
        FaultsDoNotConform(Step(t, tokens[0]).value, items, tokens[1..], found, rule, asFloat);
    }
  }

  lemma NoFaultIfConforming(t: Tree, node: Node, tokens: seq<ByteString>, asFloat: AsFloat)
    requires Conforms(t, node, asFloat)
    ensures !AtFault(t, node, tokens, asFloat)
  {
    forall found, rule | Governs(t, node, tokens, found, rule) ensures SelfOk(found, rule, asFloat) {
      FaultsDoNotConform(t, node, tokens, found, rule, asFloat);
    }
    if tokens != [] {
      var front := tokens[..|tokens| - 1];
      var name := tokens[|tokens| - 1];
      forall found, rule | Governs(t, node, front, found, rule)
        ensures !FaultyMember(t, node, front, found, rule, name)
      {
        FaultsDoNotConform(t, node, front, found, rule, asFloat);
      }
    }
  }

  /** A payload is refused exactly when some place of it is at fault, and then the pointer
      reported spells such a place. */
  lemma ValidatePayload(t: Tree, node: Node, asFloat: AsFloat)
    ensures var bad := Validate(t, node, [], asFloat);
            && (bad == [] <==> Conforms(t, node, asFloat))
            && (bad == [] <==> !exists tokens :: AtFault(t, node, tokens, asFloat))
            && (bad != [] ==> exists tokens :: bad == Spelling(tokens) && AtFault(t, node, tokens, asFloat))
  {
    hide Validate, Conforms;
    ValidateExact(t, node, [], asFloat);
    var bad := Validate(t, node, [], asFloat);
    if bad != [] {
      assert PathText([]) == [];
      ReportsFault(t, node, [], asFloat);
      var tokens :| Reports(bad, [], tokens, t, node, asFloat);
      assert [] + tokens == tokens;
    } else {
      forall tokens ensures !AtFault(t, node, tokens, asFloat) {
        NoFaultIfConforming(t, node, tokens, asFloat);
      }
    }
  }

  /** A governed place is the value its tokens resolve to in the payload. */
  lemma {:induction false} GovernedResolves(t: Tree, node: Node, tokens: seq<ByteString>, found: Tree, rule: Node)
    requires Governs(t, node, tokens, found, rule)
    ensures Resolve(t, tokens) == Some(found)
    decreases node
  {
    if tokens != [] {
      match node
      case ObjectNode(properties) =>
        var i :| 0 <= i < |properties| && properties[i].name == tokens[0]
                 && Governs(t.fields[tokens[0]], properties[i].node, tokens[1..], found, rule);
        GovernedResolves(t.fields[tokens[0]], properties[i].node, tokens[1..], found, rule);
      case ArrayNode(items, _, _) =>
        GovernedResolves(Step(t, tokens[0]).value, items, tokens[1..], found, rule);
    }
  }

  /** Two places share a spelling only as the root and its member with the empty name. */
  lemma SpellingsDiffer(a: seq<ByteString>, b: seq<ByteString>)
    ensures Spelling(a) == Spelling(b) <==> a == b || (a == [] && b == [[]]) || (a == [[]] && b == [])
  {
    var emptyName: seq<ByteString> := [[]];
    assert emptyName[..0] == [];
    assert PathText(emptyName) == [SLASH];
    PathTextInjective(a, b);
    PathTextInjective(a, [[]]);
    PathTextInjective(b, [[]]);
  }

  /** Both readings of `/` occur: a payload of the wrong kind, and an undeclared member named by
      the empty string. */
  lemma SlashIsAmbiguous(asFloat: AsFloat)
    ensures Validate(JNull, ObjectNode([]), [], asFloat) == [SLASH]
    ensures Validate(JObject(map[[] := JNull]), ObjectNode([]), [], asFloat) == [SLASH]
  {
    var t := JObject(map[[] := JNull]);
    var keys := Sorted(t.fields.Keys);
    assert [] in t.fields;
    assert keys[0] in t.fields;
    WriteTokenEscapes([]);
  }
}
