/** The scanner's limits in plain terms: where its nesting count is the container depth of the
    text and its repeated-key check the absence of repeated keys, and where they are not. */
module JsonLimits {
  import opened Bytes
  import opened JsonGrammar
  import opened JsonParser
  import opened JsonExact

  /** The members of an object in order, keys decoded. */
  function Pairs(ms: Members): (pairs: seq<(ByteString, Value)>)
    ensures pairs != []
  {
    [(Decode(ms.key.chars), ms.item.value)] + if ms.LastMember? then [] else Pairs(ms.rest)
  }

  predicate Distinct(pairs: seq<(ByteString, Value)>) {
    forall i, j :: 0 <= i < j < |pairs| ==> pairs[i].0 != pairs[j].0
  }

  /** No object anywhere in the value repeats a decoded key. */
  predicate NoRepeats(v: Value) {
    match v
    case Array(items) => ItemsNoRepeats(items)
    case Object(ms) => Distinct(Pairs(ms)) && MembersNoRepeats(ms)
    case _ => true
  }

  predicate ItemsNoRepeats(items: Items) {
    NoRepeats(items.item.value) && (items.Item? ==> ItemsNoRepeats(items.rest))
  }

  predicate MembersNoRepeats(ms: Members) {
    NoRepeats(ms.item.value) && (ms.Member? ==> MembersNoRepeats(ms.rest))
  }

  // ---- below the top level nothing is deferred ----

  lemma {:induction false} DepthExact(v: Value, depth: nat)
    requires 1 <= depth
    ensures DepthOk(v, depth) <==> Depth(v) == 0 || depth + Depth(v) <= MAX_DEPTH
    decreases v, 0
  {
    match v
    case Array(items) => if depth < MAX_DEPTH { ItemsDepthExact(items, depth + 1); }
    case Object(ms) => if depth < MAX_DEPTH { MembersDepthExact(ms, depth + 1); }
    case _ =>
  }

  lemma {:induction false} ItemsDepthExact(items: Items, depth: nat)
    requires 1 <= depth <= MAX_DEPTH
    ensures ItemsDepthOk(items, depth) <==> depth + ItemsDepth(items) <= MAX_DEPTH
    decreases items, 1
  {
    DepthExact(items.item.value, depth);
    if items.Item? {
      ItemsDepthExact(items.rest, depth);
    }
  }

  lemma {:induction false} MembersDepthExact(ms: Members, depth: nat)
    requires 2 <= depth <= MAX_DEPTH
    ensures MembersDepthOk(ms, depth) <==> depth + MembersDepth(ms) <= MAX_DEPTH
    decreases ms, 1
  {
    DepthExact(ms.item.value, depth);
    if ms.Member? {
      MembersDepthExact(ms.rest, depth);
    }
  }

  /** No key of the list is in the set. */
  predicate Avoids(pairs: seq<(ByteString, Value)>, seen: set<ByteString>) {
    forall i :: 0 <= i < |pairs| ==> pairs[i].0 !in seen
  }

  lemma DistinctCons(first: (ByteString, Value), rest: seq<(ByteString, Value)>, seen: set<ByteString>)
    ensures Avoids([first] + rest, seen) && Distinct([first] + rest) <==>
            first.0 !in seen && Avoids(rest, seen + {first.0}) && Distinct(rest)
  {
    var pairs := [first] + rest;
    assert forall i :: 0 <= i < |rest| ==> pairs[i + 1] == rest[i];
    if Avoids(pairs, seen) && Distinct(pairs) {
      assert pairs[0].0 !in seen;
    }
    if first.0 !in seen && Avoids(rest, seen + {first.0}) && Distinct(rest) {
      assert forall j :: 0 <= j < |pairs| ==> pairs[j] == if j == 0 then first else rest[j - 1];
    }
  }

  lemma {:induction false} KeysExact(v: Value, depth: nat)
    requires 1 <= depth
    ensures KeysOk(v, depth) <==> NoRepeats(v)
    decreases v, 0
  {
    match v
    case Array(items) => ItemsKeysExact(items, depth + 1);
    case Object(ms) =>
      MembersKeysExact(ms, depth + 1, {});
      assert Avoids(Pairs(ms), {});
    case _ =>
  }

  lemma {:induction false} ItemsKeysExact(items: Items, depth: nat)
    requires 1 <= depth
    ensures ItemsKeysOk(items, depth) <==> ItemsNoRepeats(items)
    decreases items, 1
  {
    KeysExact(items.item.value, depth);
    if items.Item? {
      ItemsKeysExact(items.rest, depth);
    }
  }

  lemma {:induction false} MembersKeysExact(ms: Members, depth: nat, seen: set<ByteString>)
    requires 2 <= depth
    ensures MembersKeysOk(ms, depth, seen) <==> Avoids(Pairs(ms), seen) && Distinct(Pairs(ms)) && MembersNoRepeats(ms)
    decreases ms, 1
  {
    KeysExact(ms.item.value, depth);
    var key := Decode(ms.key.chars);
    DistinctCons((key, ms.item.value), if ms.LastMember? then [] else Pairs(ms.rest), seen);
    if ms.Member? {
      MembersKeysExact(ms.rest, depth, seen + {key});
    }
  }

  // ---- whole documents ----

  /** How a member of the outermost object is judged: `schema` as a scan of its own without the
      repeated-key check, any other exactly. */
  predicate TopMemberOk(pair: (ByteString, Value)) {
    if pair.0 == SCHEMA_KEY then DepthOk(pair.1, 0)
    else Depth(pair.1) < MAX_DEPTH && NoRepeats(pair.1)
  }

  lemma {:induction false} TopMembers(ms: Members, seen: set<ByteString>)
    ensures MembersLimits(ms, 1, true, seen) <==>
            && Avoids(Pairs(ms), seen) && Distinct(Pairs(ms))
            && forall i :: 0 <= i < |Pairs(ms)| ==> TopMemberOk(Pairs(ms)[i])
    decreases ms
  {
    var key := Decode(ms.key.chars);
    var first := (key, ms.item.value);
    var rest := if ms.LastMember? then [] else Pairs(ms.rest);
    MemberLimits(ms, 1, true, seen);
    DepthExact(ms.item.value, 1);
    KeysExact(ms.item.value, 1);
    DistinctCons(first, rest, seen);
    assert Pairs(ms) == [first] + rest;
    assert TopMemberOk(first) <==> Limits(ms.item.value, ValueDepth(key, 1), !Deferred(key, 1));
    assert (forall i :: 0 <= i < |[first] + rest| ==> TopMemberOk(([first] + rest)[i])) <==>
           TopMemberOk(first) && (forall i :: 0 <= i < |rest| ==> TopMemberOk(rest[i])) by {
      AllCons(first, rest);
    }
    if ms.Member? {
      TopMembers(ms.rest, seen + {key});
    }
  }

  lemma AllCons(first: (ByteString, Value), rest: seq<(ByteString, Value)>)
    ensures (forall i :: 0 <= i < |[first] + rest| ==> TopMemberOk(([first] + rest)[i])) <==>
            TopMemberOk(first) && (forall i :: 0 <= i < |rest| ==> TopMemberOk(rest[i]))
  {
    var all := [first] + rest;
    assert all[0] == first;
    assert forall i :: 0 <= i < |rest| ==> all[i + 1] == rest[i];
    assert forall i :: 1 <= i < |all| ==> all[i] == rest[i - 1];
  }

  predicate HasSchema(v: Value) {
    v.Object? && exists i :: 0 <= i < |Pairs(v.members)| && Pairs(v.members)[i].0 == SCHEMA_KEY
  }

  /** Without an outermost `schema` member the limits are depth at most 2048 and no repeated key. */
  lemma LimitsWithoutSchema(v: Value)
    requires !HasSchema(v)
    ensures Limits(v, 0, true) <==> Depth(v) <= MAX_DEPTH && NoRepeats(v)
  {
    match v
    case Array(items) =>
      ItemsDepthExact(items, 1);
      ItemsKeysExact(items, 1);
    case Object(ms) =>
      TopMembers(ms, {});
      assert Avoids(Pairs(ms), {});
      DepthOfPairs(ms);
      RepeatsOfPairs(ms);
    case _ =>
  }

  lemma {:induction false} DepthOfPairs(ms: Members)
    ensures MembersDepth(ms) < MAX_DEPTH <==> forall i :: 0 <= i < |Pairs(ms)| ==> Depth(Pairs(ms)[i].1) < MAX_DEPTH
    decreases ms
  {
    assert Pairs(ms)[0].1 == ms.item.value;
    if ms.Member? {
      DepthOfPairs(ms.rest);
      assert forall i :: 0 <= i < |Pairs(ms.rest)| ==> Pairs(ms)[i + 1] == Pairs(ms.rest)[i];
      assert forall i :: 1 <= i < |Pairs(ms)| ==> Pairs(ms)[i] == Pairs(ms.rest)[i - 1];
    }
  }

  lemma {:induction false} RepeatsOfPairs(ms: Members)
    ensures MembersNoRepeats(ms) <==> forall i :: 0 <= i < |Pairs(ms)| ==> NoRepeats(Pairs(ms)[i].1)
    decreases ms
  {
    assert Pairs(ms)[0].1 == ms.item.value;
    if ms.Member? {
      RepeatsOfPairs(ms.rest);
      assert forall i :: 0 <= i < |Pairs(ms.rest)| ==> Pairs(ms)[i + 1] == Pairs(ms.rest)[i];
      assert forall i :: 1 <= i < |Pairs(ms)| ==> Pairs(ms)[i] == Pairs(ms.rest)[i - 1];
    }
  }

  // ---- a document with an outermost `schema` member ----

  /** The value reached by going into `schema` members only, each picked by its place. */
  function Follow(v: Value, path: seq<nat>): (found: seq<Value>)
    ensures |found| <= 1
    decreases |path|
  {
    if path == [] then [v]
    else if v.Object? && path[0] < |Pairs(v.members)| && Pairs(v.members)[path[0]].0 == SCHEMA_KEY then
      Follow(Pairs(v.members)[path[0]].1, path[1..])
    else []
  }

  /** The value itself, its own `schema` members aside, nests at most 2048 deep. */
  predicate Shallow(v: Value) {
    if v.Object? then
      forall i :: 0 <= i < |Pairs(v.members)| && Pairs(v.members)[i].0 != SCHEMA_KEY ==>
        Depth(Pairs(v.members)[i].1) < MAX_DEPTH
    else Depth(v) <= MAX_DEPTH
  }

  ghost predicate ShallowAlong(v: Value) {
    forall path :: Follow(v, path) != [] ==> Shallow(Follow(v, path)[0])
  }

  predicate ZeroMemberOk(pair: (ByteString, Value)) {
    if pair.0 == SCHEMA_KEY then DepthOk(pair.1, 0) else Depth(pair.1) < MAX_DEPTH
  }

  predicate AllZeroOk(pairs: seq<(ByteString, Value)>) { forall i :: 0 <= i < |pairs| ==> ZeroMemberOk(pairs[i]) }

  lemma AllZeroCons(first: (ByteString, Value), rest: seq<(ByteString, Value)>)
    ensures AllZeroOk([first] + rest) == (ZeroMemberOk(first) && AllZeroOk(rest))
  {
    var all := [first] + rest;
    assert all[0] == first;
    assert forall i :: 0 <= i < |rest| ==> all[i + 1] == rest[i];
    assert forall i :: 1 <= i < |all| ==> all[i] == rest[i - 1];
  }

  lemma ZeroMember(ms: Members)
    ensures MembersDepthOk(ms, 1) ==
            (ZeroMemberOk((Decode(ms.key.chars), ms.item.value)) && (ms.Member? ==> MembersDepthOk(ms.rest, 1)))
  {
    DepthExact(ms.item.value, 1);
  }

  lemma {:induction false} ZeroMembers(ms: Members)
    ensures MembersDepthOk(ms, 1) == AllZeroOk(Pairs(ms))
    decreases ms
  {
    var first := (Decode(ms.key.chars), ms.item.value);
    ZeroMember(ms);
    AllZeroCons(first, if ms.LastMember? then [] else Pairs(ms.rest));
    if ms.Member? {
      ZeroMembers(ms.rest);
    }
    assert Pairs(ms) == [first] + if ms.LastMember? then [] else Pairs(ms.rest);
  }

  /** One level of the scan of a value of its own. */
  lemma ZeroDepth(v: Value)
    ensures DepthOk(v, 0) <==>
            && Shallow(v)
            && (v.Object? ==>
                  forall i :: 0 <= i < |Pairs(v.members)| && Pairs(v.members)[i].0 == SCHEMA_KEY ==>
                    DepthOk(Pairs(v.members)[i].1, 0))
  {
    match v
    case Array(items) => ItemsDepthExact(items, 1);
    case Object(ms) =>
      ZeroMembers(ms);
      assert forall i :: 0 <= i < |Pairs(ms)| ==>
               (ZeroMemberOk(Pairs(ms)[i]) <==>
                if Pairs(ms)[i].0 == SCHEMA_KEY then DepthOk(Pairs(ms)[i].1, 0) else Depth(Pairs(ms)[i].1) < MAX_DEPTH);
    case _ =>
  }

  lemma {:induction false} ShallowAt(v: Value, path: seq<nat>)
    requires DepthOk(v, 0) && Follow(v, path) != []
    ensures Shallow(Follow(v, path)[0])
    decreases |path|
  {
    ZeroDepth(v);
    if path != [] {
      assert v.Object? && path[0] < |Pairs(v.members)| && Pairs(v.members)[path[0]].0 == SCHEMA_KEY;
      assert Follow(v, path) == Follow(Pairs(v.members)[path[0]].1, path[1..]);
      ShallowAt(Pairs(v.members)[path[0]].1, path[1..]);
    }
  }

  /** A value scanned on its own passes exactly when every value reached from it through `schema`
      members, those members aside, nests at most 2048 deep. */
  lemma {:induction false} OwnScanExact(v: Value)
    ensures DepthOk(v, 0) <==> ShallowAlong(v)
    decreases v
  {
    ZeroDepth(v);
    if DepthOk(v, 0) {
      forall path | Follow(v, path) != [] ensures Shallow(Follow(v, path)[0]) {
        ShallowAt(v, path);
      }
    }
    if ShallowAlong(v) {
      assert Follow(v, []) == [v];
      if v.Object? {
        forall i | 0 <= i < |Pairs(v.members)| && Pairs(v.members)[i].0 == SCHEMA_KEY
          ensures DepthOk(Pairs(v.members)[i].1, 0)
        {
          PairInside(v.members, i);
          AlongFrom(v, i);
          OwnScanExact(Pairs(v.members)[i].1);
        }
      }
    }
  }

  lemma AlongFrom(v: Value, i: nat)
    requires v.Object? && i < |Pairs(v.members)| && Pairs(v.members)[i].0 == SCHEMA_KEY && ShallowAlong(v)
    ensures ShallowAlong(Pairs(v.members)[i].1)
  {
    var inner := Pairs(v.members)[i].1;
    forall path | Follow(inner, path) != [] ensures Shallow(Follow(inner, path)[0]) {
      assert ([i] + path)[1..] == path;
      assert Follow(v, [i] + path) == Follow(inner, path);
    }
  }

  /** What is asked of a member of the outermost object. */
  ghost predicate MemberFine(pair: (ByteString, Value)) {
    if pair.0 == SCHEMA_KEY then ShallowAlong(pair.1) else Depth(pair.1) < MAX_DEPTH && NoRepeats(pair.1)
  }

  /** A document with an outermost `schema` member: the other members are held to the plain limits,
      `schema` only to the nesting of each value along its own `schema` members. */
  lemma LimitsWithSchema(ms: Members)
    ensures Limits(Object(ms), 0, true) <==>
            Distinct(Pairs(ms)) && forall i :: 0 <= i < |Pairs(ms)| ==> MemberFine(Pairs(ms)[i])
  {
    TopMembers(ms, {});
    assert Avoids(Pairs(ms), {});
    forall i | 0 <= i < |Pairs(ms)| ensures TopMemberOk(Pairs(ms)[i]) <==> MemberFine(Pairs(ms)[i]) {
      OwnScanExact(Pairs(ms)[i].1);
    }
  }

  /** An accepted text meets the plain limits exactly when its outermost `schema` member, if it has
      one, nests less than 2048 deep and repeats no key. */
  lemma PlainUnlessSchema(v: Value)
    requires Limits(v, 0, true)
    ensures Depth(v) <= MAX_DEPTH && NoRepeats(v) <==>
            (v.Object? ==> forall i :: 0 <= i < |Pairs(v.members)| && Pairs(v.members)[i].0 == SCHEMA_KEY ==>
                             Depth(Pairs(v.members)[i].1) < MAX_DEPTH && NoRepeats(Pairs(v.members)[i].1))
  {
    if v.Object? {
      TopMembers(v.members, {});
      DepthOfPairs(v.members);
      RepeatsOfPairs(v.members);
      ObjectLimits(v.members, 0, true);
      assert Avoids(Pairs(v.members), {});
      PlainMembers(v.members);
    } else {
      LimitsWithoutSchema(v);
    }
  }

  lemma PlainMembers(ms: Members)
    requires forall i :: 0 <= i < |Pairs(ms)| ==> TopMemberOk(Pairs(ms)[i])
    ensures (forall i :: 0 <= i < |Pairs(ms)| ==> Depth(Pairs(ms)[i].1) < MAX_DEPTH && NoRepeats(Pairs(ms)[i].1)) <==>
            (forall i :: 0 <= i < |Pairs(ms)| && Pairs(ms)[i].0 == SCHEMA_KEY ==>
               Depth(Pairs(ms)[i].1) < MAX_DEPTH && NoRepeats(Pairs(ms)[i].1))
  {
    forall i | 0 <= i < |Pairs(ms)|
      ensures Pairs(ms)[i].0 != SCHEMA_KEY ==> Depth(Pairs(ms)[i].1) < MAX_DEPTH && NoRepeats(Pairs(ms)[i].1)
    {
      assert TopMemberOk(Pairs(ms)[i]);
    }
  }

  /** A text of plain depth at most 2048 without repeated keys is never refused. */
  lemma {:induction false} PlainlyFine(v: Value)
    requires Depth(v) <= MAX_DEPTH && NoRepeats(v)
    ensures Limits(v, 0, true)
    decreases v
  {
    if v.Object? {
      DepthOfPairs(v.members);
      RepeatsOfPairs(v.members);
      forall i | 0 <= i < |Pairs(v.members)| ensures TopMemberOk(Pairs(v.members)[i]) {
        PairInside(v.members, i);
        PlainlyFine(Pairs(v.members)[i].1);
      }
      TopMembers(v.members, {});
      assert Avoids(Pairs(v.members), {});
    } else {
      LimitsWithoutSchema(v);
    }
  }

  lemma {:induction false} PairInside(ms: Members, i: nat)
    requires i < |Pairs(ms)|
    ensures Pairs(ms)[i].1 < ms
    decreases ms
  {
    if i > 0 {
      PairInside(ms.rest, i - 1);
    }
  }

  // ---- the limit is not a bound on depth, nor the key check complete ----

  /** The object {"schema":{"schema":...{}...}}, n members deep. */
  function SchemaChain(n: nat): (v: Value) {
    if n == 0 then EmptyObject([]) else SchemaObject(SchemaChain(n - 1))
  }

  function SchemaChars(): (cs: seq<StrChar>)
    ensures CharsOk(cs)
  {
    [Raw(0x73), Raw(0x63), Raw(0x68), Raw(0x65), Raw(0x6d), Raw(0x61)]
  }

  function SchemaObject(v: Value): Value {
    Object(LastMember(Key([], SchemaChars(), []), Padded([], v, [])))
  }

  lemma SchemaDecodes()
    ensures Decode(SchemaChars()) == SCHEMA_KEY
  {
    hide Decode;
    RawDecode(SchemaChars());
  }

  /** Bytes written as themselves stand for themselves. */
  lemma {:induction false} RawDecode(cs: seq<StrChar>)
    requires forall i :: 0 <= i < |cs| ==> cs[i].Raw?
    ensures |Decode(cs)| == |cs| && forall i :: 0 <= i < |cs| ==> Decode(cs)[i] == cs[i].b
    decreases |cs|
  {
    if cs != [] {
      RawDecode(cs[1..]);
    }
  }

  lemma {:induction false} SchemaChainOk(n: nat)
    ensures Ok(SchemaChain(n)) && Limits(SchemaChain(n), 0, true) && Depth(SchemaChain(n)) == n + 1
  {
    if n > 0 {
      SchemaChainOk(n - 1);
      SchemaDecodes();
      var v := SchemaChain(n - 1);
      var ms := LastMember(Key([], SchemaChars(), []), Padded([], v, []));
      assert Pairs(ms) == [(SCHEMA_KEY, v)];
      LimitsWithSchema(ms);
    }
  }

  /** For every depth there is an accepted text deeper than it: the 2048 limit restarts at each
      nested `schema` member. */
  lemma NoDepthBound(n: nat)
    ensures var b := Render(SchemaChain(n));
            ParseDocument(b, true).Got? && Depth(ParseDocument(b, true).value.value) == n + 1
  {
    SchemaChainOk(n);
    var t := Padded([], SchemaChain(n), []);
    assert RenderPadded(t) == Render(t.value);
    DocumentComplete(t);
  }

  /** An accepted text whose `schema` repeats a key. */
  lemma RepeatsBelowSchema()
    ensures exists t :: Conforms(t) && !NoRepeats(t.value)
  {
    hide Decode, SchemaChars, Avoids;
    var member := Padded([], Lit(Null), []);
    var key := Key([], [], []);
    var inner := Object(Member(key, member, LastMember(key, member)));
    var t := Padded([], SchemaObject(inner), []);
    var ms := t.value.members;
    SchemaDecodes();
    assert Pairs(ms) == [(SCHEMA_KEY, inner)];
    TopMembers(ms, {});
    ObjectLimits(ms, 0, true);
    assert Pairs(inner.members)[0].0 == Pairs(inner.members)[1].0;
    assert Conforms(t);
  }
}
