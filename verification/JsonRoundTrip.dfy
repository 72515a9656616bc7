/** The writer and the scanner undo each other, and the encoding is a normal form. */
module JsonRoundTrip {
  import opened Bytes
  import opened ByteOrder
  import opened JsonGrammar
  import opened JsonParser
  import opened JsonExact
  import opened JsonLimits
  import opened JsonWriter
  import opened Options

  /** Containers nest at most d deep. */
  predicate Within(t: Tree, d: nat) {
    match t
    case JObject(fields) => d > 0 && forall k :: k in fields ==> Within(fields[k], d - 1)
    case JArray(items) => d > 0 && forall i :: 0 <= i < |items| ==> Within(items[i], d - 1)
    case _ => true
  }

  /** The tree a syntax tree denotes: strings decoded, number literals kept. */
  function TreeOf(v: Value): Tree {
    match v
    case Lit(l) => if l == Null then JNull else JBool(l == True)
    case Num(n) => JNumber(n)
    case Str(cs) => JString(Decode(cs))
    case EmptyArray(_) => JArray([])
    case Array(items) => JArray(ItemsOf(items))
    case EmptyObject(_) => JObject(map[])
    case Object(ms) => JObject(FieldsOf(ms))
  }

  function ItemsOf(items: Items): seq<Tree> {
    [TreeOf(items.item.value)] + if items.LastItem? then [] else ItemsOf(items.rest)
  }

  function FieldsOf(ms: Members): map<ByteString, Tree> {
    map[Decode(ms.key.chars) := TreeOf(ms.item.value)] + if ms.LastMember? then map[] else FieldsOf(ms.rest)
  }

  /** The tree with every number literal rewritten. */
  function Rounded(t: Tree, format: Format): Tree
    requires Encodable(t, format)
  {
    match t
    case JObject(fields) => JObject(map k | k in fields :: Rounded(fields[k], format))
    case JArray(items) => JArray(seq(|items|, i requires 0 <= i < |items| => Rounded(items[i], format)))
    case JNumber(n) => JNumber(format(n).value)
    case _ => t
  }

  // ---- the encoding is well-formed, within the depth, and repeats no key ----

  lemma {:induction false} LayoutOk(t: Tree, format: Format)
    requires Encodable(t, format) && Faithful(format)
    ensures Ok(Layout(t, format))
    decreases t, 1, 0
  {
    match t
    case JObject(fields) => if |fields| > 0 { MemberLayoutOk(t, Sorted(fields.Keys), format); }
    case JArray(items) => if items != [] { ItemLayoutOk(items, format); }
    case _ =>
  }

  lemma {:induction false} MemberLayoutOk(t: Tree, keys: seq<ByteString>, format: Format)
    requires t.JObject? && Encodable(t, format) && keys != [] && forall k :: k in keys ==> k in t.fields
    requires Faithful(format)
    ensures MembersOk(MemberLayout(t, keys, format))
    decreases t, 0, |keys|
  {
    LayoutOk(t.fields[keys[0]], format);
    if |keys| > 1 {
      MemberLayoutOk(t, keys[1..], format);
    }
  }

  lemma {:induction false} ItemLayoutOk(items: seq<Tree>, format: Format)
    requires items != [] && forall i :: 0 <= i < |items| ==> Encodable(items[i], format)
    requires Faithful(format)
    ensures ItemsOk(ItemLayout(items, format))
    decreases items, 0
  {
    LayoutOk(items[0], format);
    if |items| > 1 {
      ItemLayoutOk(items[1..], format);
    }
  }

  lemma {:induction false} LayoutDepth(t: Tree, format: Format, d: nat)
    requires Encodable(t, format)
    ensures Within(t, d) == (Depth(Layout(t, format)) <= d)
    decreases t, 1, 0
  {
    match t
    case JObject(_) => ObjectLayoutDepth(t, format, d);
    case JArray(items) =>
      if items != [] && d > 0 {
        ItemLayoutDepth(items, format, d - 1);
      }
    case _ =>
  }

  lemma {:induction false} ObjectLayoutDepth(t: Tree, format: Format, d: nat)
    requires t.JObject? && Encodable(t, format)
    ensures Within(t, d) == (Depth(Layout(t, format)) <= d)
    decreases t, 0
  {
    if |t.fields| > 0 && d > 0 {
      MemberLayoutDepth(t, Sorted(t.fields.Keys), format, d - 1);
    }
  }

  lemma {:induction false} MemberLayoutDepth(t: Tree, keys: seq<ByteString>, format: Format, d: nat)
    requires t.JObject? && Encodable(t, format) && keys != [] && forall k :: k in keys ==> k in t.fields
    ensures (forall k :: k in keys ==> Within(t.fields[k], d)) <==> MembersDepth(MemberLayout(t, keys, format)) <= d
    decreases t, 0, |keys|
  {
    LayoutDepth(t.fields[keys[0]], format, d);
    assert forall k :: k in keys <==> k == keys[0] || k in keys[1..];
    if |keys| > 1 {
      MemberLayoutDepth(t, keys[1..], format, d);
    }
  }

  lemma {:induction false} ItemLayoutDepth(items: seq<Tree>, format: Format, d: nat)
    requires items != [] && forall i :: 0 <= i < |items| ==> Encodable(items[i], format)
    ensures (forall i :: 0 <= i < |items| ==> Within(items[i], d)) <==> ItemsDepth(ItemLayout(items, format)) <= d
    decreases items, 0
  {
    LayoutDepth(items[0], format, d);
    if |items| > 1 {
      ItemLayoutDepth(items[1..], format, d);
      assert forall i :: 1 <= i < |items| ==> items[i] == items[1..][i - 1];
    }
  }

  lemma {:induction false} LayoutKeys(t: Tree, format: Format)
    requires Encodable(t, format)
    ensures NoRepeats(Layout(t, format))
    decreases t, 1, 0
  {
    match t
    case JObject(fields) =>
      if |fields| > 0 {
        SortedAscends(fields.Keys);
        MemberLayoutKeys(t, Sorted(fields.Keys), format);
      }
    case JArray(items) => if items != [] { ItemLayoutKeys(items, format); }
    case _ =>
  }

  lemma {:induction false} MemberLayoutKeys(t: Tree, keys: seq<ByteString>, format: Format)
    requires t.JObject? && Encodable(t, format) && keys != [] && forall k :: k in keys ==> k in t.fields
    requires Ascending(keys)
    ensures var ms := MemberLayout(t, keys, format);
            && MembersNoRepeats(ms) && Distinct(Pairs(ms))
            && |Pairs(ms)| == |keys| && forall i :: 0 <= i < |keys| ==> Pairs(ms)[i].0 == keys[i]
    decreases t, 0, |keys|
  {
    hide Layout, Less;
    LayoutKeys(t.fields[keys[0]], format);
    WriteDecodes(keys[0]);
    var ms := MemberLayout(t, keys, format);
    if |keys| > 1 {
      MemberLayoutKeys(t, keys[1..], format);
      assert forall i :: 1 <= i < |keys| ==> Pairs(ms)[i] == Pairs(ms.rest)[i - 1] && keys[i] == keys[1..][i - 1];
    }
    AscendingDistinct(keys, Pairs(ms));
  }

  lemma AscendingDistinct(keys: seq<ByteString>, pairs: seq<(ByteString, Value)>)
    requires Ascending(keys) && |pairs| == |keys| && forall i :: 0 <= i < |keys| ==> pairs[i].0 == keys[i]
    ensures Distinct(pairs)
  {
    forall i, j | 0 <= i < j < |pairs| ensures pairs[i].0 != pairs[j].0 {
      assert Less(keys[i], keys[j]);
      LessTotal(keys[i], keys[j]);
    }
  }

  lemma {:induction false} ItemLayoutKeys(items: seq<Tree>, format: Format)
    requires items != [] && forall i :: 0 <= i < |items| ==> Encodable(items[i], format)
    ensures ItemsNoRepeats(ItemLayout(items, format))
    decreases items, 0
  {
    LayoutKeys(items[0], format);
    if |items| > 1 {
      ItemLayoutKeys(items[1..], format);
    }
  }

  // ---- the encoding denotes the tree ----

  lemma {:induction false} LayoutDenotes(t: Tree, format: Format)
    requires Encodable(t, format)
    ensures TreeOf(Layout(t, format)) == Rounded(t, format)
    decreases t, 1, 0
  {
    match t
    case JObject(fields) => ObjectDenotes(t, format);
    case JArray(items) =>
      if items != [] {
        ItemLayoutDenotes(items, format);
        assert ItemsOf(ItemLayout(items, format)) == Rounded(t, format).items;
      }
    case JString(text) => WriteDecodes(text);
    case _ =>
  }

  lemma {:induction false} ObjectDenotes(t: Tree, format: Format)
    requires t.JObject? && Encodable(t, format)
    ensures TreeOf(Layout(t, format)) == Rounded(t, format)
    decreases t, 0
  {
    if |t.fields| > 0 {
      var keys := Sorted(t.fields.Keys);
      var ms := MemberLayout(t, keys, format);
      SortedAscends(t.fields.Keys);
      MemberLayoutDenotes(t, keys, format);
      ReadsAll(FieldsOf(ms), t, keys, format);
      LayoutMembers(t, ms, format);
    } else {
      NoFields(t, format);
    }
  }

  lemma LayoutMembers(t: Tree, ms: Members, format: Format)
    requires t.JObject? && Encodable(t, format) && |t.fields| > 0
    requires |Sorted(t.fields.Keys)| > 0 && ms == MemberLayout(t, Sorted(t.fields.Keys), format)
    ensures TreeOf(Layout(t, format)) == JObject(FieldsOf(ms))
  {
    hide MemberLayout, FieldsOf, Encodable, Sorted;
  }

  lemma NoFields(t: Tree, format: Format)
    requires t.JObject? && Encodable(t, format) && |t.fields| == 0
    ensures Rounded(t, format).fields == map[]
  {
    assert t.fields == map[];
  }

  lemma ReadsAll(read: map<ByteString, Tree>, t: Tree, keys: seq<ByteString>, format: Format)
    requires t.JObject? && Encodable(t, format) && forall k :: k in keys <==> k in t.fields
    requires Reads(read, t, keys, format)
    ensures read == Rounded(t, format).fields
  {
    var rounded := Rounded(t, format).fields;
    assert forall k :: k in rounded <==> k in t.fields;
    assert forall k :: k in read ==> read[k] == rounded[k];
  }

  /** A map reads the rounded fields under exactly the given keys. */
  ghost predicate Reads(read: map<ByteString, Tree>, t: Tree, keys: seq<ByteString>, format: Format)
    requires t.JObject? && Encodable(t, format) && forall k :: k in keys ==> k in t.fields
  {
    && (forall k :: k in read <==> k in keys)
    && (forall k :: k in keys ==> read[k] == Rounded(t.fields[k], format))
  }

  lemma {:induction false} MemberLayoutDenotes(t: Tree, keys: seq<ByteString>, format: Format)
    requires t.JObject? && Encodable(t, format) && keys != [] && forall k :: k in keys ==> k in t.fields
    requires Ascending(keys)
    ensures Reads(FieldsOf(MemberLayout(t, keys, format)), t, keys, format)
    decreases t, 0, |keys|
  {
    LayoutDenotes(t.fields[keys[0]], format);
    WriteDecodes(keys[0]);
    if |keys| > 1 {
      MemberLayoutDenotes(t, keys[1..], format);
      HeadApart(keys);
      ReadsCons(FieldsOf(MemberLayout(t, keys[1..], format)), t, keys, format);
    }
  }

  lemma HeadApart(keys: seq<ByteString>)
    requires Ascending(keys) && |keys| > 1
    ensures keys[0] !in keys[1..]
  {
    forall k | k in keys[1..] ensures k != keys[0] {
      var i :| 0 <= i < |keys[1..]| && keys[1..][i] == k;
      assert Less(keys[0], keys[i + 1]);
      LessTotal(keys[0], k);
    }
  }

  lemma ReadsCons(rest: map<ByteString, Tree>, t: Tree, keys: seq<ByteString>, format: Format)
    requires t.JObject? && Encodable(t, format) && keys != [] && forall k :: k in keys ==> k in t.fields
    requires keys[0] !in keys[1..] && Reads(rest, t, keys[1..], format)
    ensures Reads(map[keys[0] := Rounded(t.fields[keys[0]], format)] + rest, t, keys, format)
  {
    assert forall k :: k in keys <==> k == keys[0] || k in keys[1..];
  }

  lemma {:induction false} ItemLayoutDenotes(items: seq<Tree>, format: Format)
    requires items != [] && forall i :: 0 <= i < |items| ==> Encodable(items[i], format)
    ensures var read := ItemsOf(ItemLayout(items, format));
            |read| == |items| && forall i :: 0 <= i < |items| ==> read[i] == Rounded(items[i], format)
    decreases items, 0
  {
    LayoutDenotes(items[0], format);
    if |items| > 1 {
      ItemLayoutDenotes(items[1..], format);
      assert forall i :: 1 <= i < |items| ==> items[i] == items[1..][i - 1];
    }
  }

  // ---- main results ----

  /** Every tree within the scanner's depth is encoded to a text the strict scanner accepts, from
      which the tree is read back with its numbers rewritten. */
  lemma ScanRecovers(t: Tree, format: Format)
    requires Encodable(t, format) && Faithful(format) && Within(t, MAX_DEPTH)
    ensures var p := ParseDocument(Encode(t, format), true);
            p.Got? && TreeOf(p.value.value) == Rounded(t, format)
  {
    var v := Layout(t, format);
    LayoutOk(t, format);
    LayoutDepth(t, format, MAX_DEPTH);
    LayoutKeys(t, format);
    PlainlyFine(v);
    DocumentComplete(Bare(v));
    assert RenderPadded(Bare(v)) == Render(v);
    LayoutDenotes(t, format);
  }

  lemma {:induction false} RoundedStable(t: Tree, format: Format)
    requires Encodable(t, format) && Faithful(format)
    ensures Encodable(Rounded(t, format), format)
    ensures Layout(Rounded(t, format), format) == Layout(t, format)
    decreases t, 1, 0
  {
    match t
    case JObject(fields) =>
      var rounded := Rounded(t, format);
      forall k | k in fields ensures Encodable(rounded.fields[k], format) {
        RoundedStable(fields[k], format);
      }
      assert rounded.fields.Keys == fields.Keys;
      assert |rounded.fields| == |rounded.fields.Keys| == |fields|;
      if |fields| > 0 {
        RoundedMembers(t, rounded, Sorted(fields.Keys), format);
      }
    case JArray(items) =>
      var rounded := Rounded(t, format);
      forall i | 0 <= i < |items| ensures Encodable(rounded.items[i], format) {
        RoundedStable(items[i], format);
      }
      if items != [] {
        RoundedItems(items, rounded.items, format);
      }
    case _ =>
  }

  lemma {:induction false} RoundedMembers(t: Tree, rounded: Tree, keys: seq<ByteString>, format: Format)
    requires t.JObject? && Encodable(t, format) && keys != [] && forall k :: k in keys ==> k in t.fields
    requires Faithful(format) && rounded == Rounded(t, format) && Encodable(rounded, format)
    ensures MemberLayout(rounded, keys, format) == MemberLayout(t, keys, format)
    decreases t, 0, |keys|
  {
    RoundedStable(t.fields[keys[0]], format);
    if |keys| > 1 {
      RoundedMembers(t, rounded, keys[1..], format);
    }
  }

  lemma {:induction false} RoundedItems(items: seq<Tree>, rounded: seq<Tree>, format: Format)
    requires items != [] && forall i :: 0 <= i < |items| ==> Encodable(items[i], format)
    requires Faithful(format) && |rounded| == |items|
    requires forall i :: 0 <= i < |items| ==> rounded[i] == Rounded(items[i], format) && Encodable(rounded[i], format)
    ensures ItemLayout(rounded, format) == ItemLayout(items, format)
    decreases items, 0
  {
    RoundedStable(items[0], format);
    if |items| > 1 {
      RoundedItems(items[1..], rounded[1..], format);
    }
  }

  /** Encoding what was read back gives the same bytes. */
  lemma EncodingIsStable(t: Tree, format: Format)
    requires Encodable(t, format) && Faithful(format) && Within(t, MAX_DEPTH)
    ensures var p := ParseDocument(Encode(t, format), true);
            && p.Got? && Encodable(TreeOf(p.value.value), format)
            && Encode(TreeOf(p.value.value), format) == Encode(t, format)
  {
    ScanRecovers(t, format);
    RoundedStable(t, format);
  }

  lemma EqualWhenRounded(t: Tree, u: Tree, format: Format)
    requires Encodable(t, format) && Encodable(u, format) && Faithful(format)
    requires Within(t, MAX_DEPTH) && Within(u, MAX_DEPTH)
    ensures Encode(t, format) == Encode(u, format) <==> Rounded(t, format) == Rounded(u, format)
  {
    ScanRecovers(t, format);
    ScanRecovers(u, format);
    RoundedStable(t, format);
    RoundedStable(u, format);
  }

  // ---- numbers by their value ----

  /** A literal read as a finite double, if it is one, and printed from it. */
  function FormatOf<F>(read: Number -> Option<F>, shown: F -> Number): Format {
    n => var x := read(n); if x.None? then None else Some(shown(x.value))
  }

  /** What is printed is a JSON number that reads as the double printed. */
  ghost predicate Codec<F(!new)>(read: Number -> Option<F>, shown: F -> Number) {
    forall x :: NumberOk(shown(x)) && read(shown(x)) == Some(x)
  }

  lemma CodecFaithful<F(!new)>(read: Number -> Option<F>, shown: F -> Number)
    requires Codec(read, shown)
    ensures Faithful(FormatOf(read, shown))
  {
    hide NumberOk;
    var format := FormatOf(read, shown);
    forall n | format(n).Some? ensures NumberOk(format(n).value) && format(format(n).value) == format(n) {
      var x := read(n).value;
      assert NumberOk(shown(x)) && read(shown(x)) == Some(x);
    }
  }

  /** Trees that differ at most in how numbers of one value are spelled. */
  predicate SameValues<F(==)>(t: Tree, u: Tree, read: Number -> Option<F>) {
    match t
    case JObject(fields) =>
      u.JObject? && fields.Keys == u.fields.Keys && forall k :: k in fields ==> SameValues(fields[k], u.fields[k], read)
    case JArray(items) =>
      u.JArray? && |items| == |u.items| && forall i :: 0 <= i < |items| ==> SameValues(items[i], u.items[i], read)
    case JNumber(n) => u.JNumber? && read(n) == read(u.number)
    case _ => t == u
  }

  lemma {:induction false} RoundedSameValues<F(!new)>(t: Tree, read: Number -> Option<F>, shown: F -> Number)
    requires Codec(read, shown) && Encodable(t, FormatOf(read, shown))
    ensures SameValues(Rounded(t, FormatOf(read, shown)), t, read)
  {
    match t
    case JObject(fields) =>
      assert Rounded(t, FormatOf(read, shown)).fields.Keys == fields.Keys;
      forall k | k in fields ensures SameValues(Rounded(fields[k], FormatOf(read, shown)), fields[k], read) {
        RoundedSameValues(fields[k], read, shown);
      }
    case JArray(items) =>
      forall i | 0 <= i < |items| ensures SameValues(Rounded(items[i], FormatOf(read, shown)), items[i], read) {
        RoundedSameValues(items[i], read, shown);
      }
    case _ =>
  }

  lemma {:induction false} RoundedByValue<F(!new)>(t: Tree, u: Tree, read: Number -> Option<F>, shown: F -> Number)
    requires Codec(read, shown) && Encodable(t, FormatOf(read, shown)) && Encodable(u, FormatOf(read, shown))
    ensures Rounded(t, FormatOf(read, shown)) == Rounded(u, FormatOf(read, shown)) <==> SameValues(t, u, read)
    decreases t, 1
  {
    var format := FormatOf(read, shown);
    if t.JObject? && u.JObject? {
      ObjectsByValue(t, u, read, shown);
    } else if t.JArray? && u.JArray? {
      ArraysByValue(t, u, read, shown);
    } else if t.JNumber? && u.JNumber? {
      assert read(format(t.number).value) == read(t.number) && read(format(u.number).value) == read(u.number);
    }
  }

  lemma {:induction false} ObjectsByValue<F(!new)>(t: Tree, u: Tree, read: Number -> Option<F>, shown: F -> Number)
    requires t.JObject? && u.JObject?
    requires Codec(read, shown) && Encodable(t, FormatOf(read, shown)) && Encodable(u, FormatOf(read, shown))
    ensures Rounded(t, FormatOf(read, shown)) == Rounded(u, FormatOf(read, shown)) <==> SameValues(t, u, read)
    decreases t, 0
  {
    var format := FormatOf(read, shown);
    var a, b := Rounded(t, format), Rounded(u, format);
    assert a.fields.Keys == t.fields.Keys && b.fields.Keys == u.fields.Keys;
    forall k | k in t.fields && k in u.fields
      ensures a.fields[k] == b.fields[k] <==> SameValues(t.fields[k], u.fields[k], read)
    {
      RoundedByValue(t.fields[k], u.fields[k], read, shown);
    }
    if SameValues(t, u, read) {
      assert a.fields == b.fields;
    }
  }

  lemma {:induction false} ArraysByValue<F(!new)>(t: Tree, u: Tree, read: Number -> Option<F>, shown: F -> Number)
    requires t.JArray? && u.JArray?
    requires Codec(read, shown) && Encodable(t, FormatOf(read, shown)) && Encodable(u, FormatOf(read, shown))
    ensures Rounded(t, FormatOf(read, shown)) == Rounded(u, FormatOf(read, shown)) <==> SameValues(t, u, read)
    decreases t, 0
  {
    var format := FormatOf(read, shown);
    var a, b := Rounded(t, format), Rounded(u, format);
    forall i | 0 <= i < |t.items| && i < |u.items|
      ensures a.items[i] == b.items[i] <==> SameValues(t.items[i], u.items[i], read)
    {
      RoundedByValue(t.items[i], u.items[i], read, shown);
    }
    if SameValues(t, u, read) {
      assert a.items == b.items;
    }
  }

  /** Every tree within the scanner's depth is encoded to a text the strict scanner accepts, from
      which keys and strings are read back exactly and every number with its value. */
  lemma WriterScannerRoundTrip<F(!new)>(t: Tree, read: Number -> Option<F>, shown: F -> Number)
    requires Codec(read, shown) && Encodable(t, FormatOf(read, shown)) && Within(t, MAX_DEPTH)
    ensures var p := ParseDocument(Encode(t, FormatOf(read, shown)), true);
            p.Got? && SameValues(TreeOf(p.value.value), t, read)
  {
    CodecFaithful(read, shown);
    ScanRecovers(t, FormatOf(read, shown));
    RoundedSameValues(t, read, shown);
  }

  /** Two trees have one encoding exactly when they agree up to the spelling of numbers of one value. */
  lemma EncodingIsNormalForm<F(!new)>(t: Tree, u: Tree, read: Number -> Option<F>, shown: F -> Number)
    requires Codec(read, shown) && Encodable(t, FormatOf(read, shown)) && Encodable(u, FormatOf(read, shown))
    requires Within(t, MAX_DEPTH) && Within(u, MAX_DEPTH)
    ensures Encode(t, FormatOf(read, shown)) == Encode(u, FormatOf(read, shown)) <==> SameValues(t, u, read)
  {
    CodecFaithful(read, shown);
    EqualWhenRounded(t, u, FormatOf(read, shown));
    RoundedByValue(t, u, read, shown);
  }
}
