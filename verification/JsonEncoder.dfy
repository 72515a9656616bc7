/** The writer as it runs: bytes appended to a builder, strings byte by byte, objects in sorted
    key order, stopping at the first number that is not a finite double. */
module JsonEncoder {
  import opened Bytes
  import opened ByteOrder
  import opened JsonGrammar
  import opened JsonWriter
  import opened Options

  lemma RenderCharsStep(cs: seq<StrChar>)
    requires cs != []
    ensures RenderChars(cs) == RenderChar(cs[0]) + RenderChars(cs[1..])
  {
  }

  lemma Reassoc(s: ByteString, t: ByteString, u: ByteString)
    ensures (s + t) + u == s + (t + u)
  {
  }

  /** What is still to be written of an object before its index-th key. */
  function MembersLeft(t: Tree, keys: seq<ByteString>, index: nat, format: Format): ByteString
    requires t.JObject? && Encodable(t, format) && index <= |keys| && forall k :: k in keys ==> k in t.fields
  {
    if index == |keys| then [OBJECT_CLOSE]
    else Comma(index) + RenderMembers(MemberLayout(t, keys[index..], format))
  }

  function ItemsLeft(items: seq<Tree>, index: nat, format: Format): ByteString
    requires index <= |items| && forall i :: 0 <= i < |items| ==> Encodable(items[i], format)
  {
    if index == |items| then [ARRAY_CLOSE]
    else Comma(index) + RenderItems(ItemLayout(items[index..], format))
  }

  function Comma(index: nat): ByteString {
    if index > 0 then [COMMA] else []
  }

  /** One member as written. */
  function Entry(key: ByteString, value: Tree, format: Format): ByteString
    requires Encodable(value, format)
  {
    RenderString(WriteChars(key)) + [COLON] + Encode(value, format)
  }

  lemma MemberRendered(t: Tree, left: seq<ByteString>, format: Format)
    requires t.JObject? && Encodable(t, format) && left != [] && forall k :: k in left ==> k in t.fields
    ensures RenderMembers(MemberLayout(t, left, format)) ==
            Entry(left[0], t.fields[left[0]], format) + RenderMembersTail(MemberLayout(t, left, format))
  {
    var ms := MemberLayout(t, left, format);
    hide Encodable, Layout;
    assert RenderKey(ms.key) == RenderString(WriteChars(left[0]));
    BareRendered(Layout(t.fields[left[0]], format));
  }

  lemma MembersTailRendered(t: Tree, keys: seq<ByteString>, index: nat, format: Format)
    requires t.JObject? && Encodable(t, format) && index < |keys| && forall k :: k in keys ==> k in t.fields
    ensures RenderMembersTail(MemberLayout(t, keys[index..], format)) == MembersLeft(t, keys, index + 1, format)
  {
    assert keys[index..][1..] == keys[index + 1..];
  }

  lemma MembersLeftStep(t: Tree, keys: seq<ByteString>, index: nat, format: Format, before: ByteString)
    requires t.JObject? && Encodable(t, format) && index < |keys| && forall k :: k in keys ==> k in t.fields
    ensures before + MembersLeft(t, keys, index, format) ==
            before + Comma(index) + Entry(keys[index], t.fields[keys[index]], format)
            + MembersLeft(t, keys, index + 1, format)
  {
    MemberRendered(t, keys[index..], format);
    MembersTailRendered(t, keys, index, format);
    Reassoc3(before, Comma(index), Entry(keys[index], t.fields[keys[index]], format),
             MembersLeft(t, keys, index + 1, format));
  }

  lemma Reassoc3(s: ByteString, t: ByteString, u: ByteString, v: ByteString)
    ensures s + (t + (u + v)) == s + t + u + v
  {
  }

  lemma ItemRendered(left: seq<Tree>, format: Format)
    requires left != [] && forall i :: 0 <= i < |left| ==> Encodable(left[i], format)
    ensures RenderItems(ItemLayout(left, format)) ==
            Encode(left[0], format) + RenderItemsTail(ItemLayout(left, format))
  {
    hide Encodable, Layout;
    BareRendered(Layout(left[0], format));
  }

  lemma BareRendered(v: Value)
    ensures RenderPadded(Bare(v)) == Render(v)
  {
  }

  lemma ItemsTailRendered(items: seq<Tree>, index: nat, format: Format)
    requires index < |items| && forall i :: 0 <= i < |items| ==> Encodable(items[i], format)
    ensures RenderItemsTail(ItemLayout(items[index..], format)) == ItemsLeft(items, index + 1, format)
  {
    assert items[index..][1..] == items[index + 1..];
  }

  lemma ItemsLeftStep(items: seq<Tree>, index: nat, format: Format, before: ByteString)
    requires index < |items| && forall i :: 0 <= i < |items| ==> Encodable(items[i], format)
    ensures before + ItemsLeft(items, index, format) ==
            before + Comma(index) + Encode(items[index], format) + ItemsLeft(items, index + 1, format)
  {
    ItemRendered(items[index..], format);
    ItemsTailRendered(items, index, format);
    Reassoc3(before, Comma(index), Encode(items[index], format), ItemsLeft(items, index + 1, format));
  }

  class Builder {
    var text: ByteString

    constructor ()
      ensures text == []
    {
      text := [];
    }

    method Append(s: ByteString)
      modifies this
      ensures text == old(text) + s
    {
      text := text + s;
    }

    method WriteCharacter(character: Byte)
      modifies this
      ensures text == old(text) + RenderChar(WriteByte(character))
    {
      if character == QUOTE || character == BACKSLASH || character == SLASH {
        Append([BACKSLASH, character]);
      } else if character == 0x0a {
        Append([BACKSLASH, 0x6e]);
      } else if character == 0x0d {
        Append([BACKSLASH, 0x72]);
      } else if character == 0x09 {
        Append([BACKSLASH, 0x74]);
      } else if character == 0x08 {
        Append([BACKSLASH, 0x62]);
      } else if character == 0x0c {
        Append([BACKSLASH, 0x66]);
      } else if character < 0x20 {
        Append([BACKSLASH, LETTER_U, ZERO, ZERO, HexDigit(character as int / 16), HexDigit(character as int % 16)]);
      } else {
        Append([character]);
      }
    }

    method WriteJSONString(value: ByteString)
      modifies this
      ensures text == old(text) + RenderString(WriteChars(value))
    {
      ghost var goal := old(text) + RenderString(WriteChars(value));
      Append([QUOTE]);
      var index := 0;
      assert value[0..] == value;
      while index < |value|
        invariant 0 <= index <= |value|
        invariant text + (RenderChars(WriteChars(value[index..])) + [QUOTE]) == goal
      {
        StringStep(text, value, index);
        WriteCharacter(value[index]);
        index := index + 1;
      }
      assert value[index..] == [];
      Append([QUOTE]);
    }

    /** Appends the encoding, or reports a number that has none. */
    method EncodeTo(t: Tree, format: Format) returns (ok: bool)
      modifies this
      ensures ok == Encodable(t, format)
      ensures ok ==> text == old(text) + Encode(t, format)
      decreases t, 3
    {
      match t
      case JObject(fields) => ok := EncodeObject(t, format);
      case JArray(items) => ok := EncodeArray(t, format);
      case JString(value) =>
        WriteJSONString(value);
        ok := true;
      case JNumber(number) =>
        var printed := format(number);
        if printed.None? {
          return false;
        }
        Append(RenderNumber(printed.value));
        ok := true;
      case JBool(flag) =>
        Append(RenderLiteral(if flag then True else False));
        ok := true;
      case JNull =>
        Append(RenderLiteral(Null));
        ok := true;
    }

    method WriteComma(index: nat)
      modifies this
      ensures text == old(text) + Comma(index)
    {
      if index > 0 {
        Append([COMMA]);
      }
    }

    method WriteMember(index: nat, key: ByteString, value: Tree, format: Format) returns (ok: bool)
      modifies this
      ensures ok == Encodable(value, format)
      ensures ok ==> text == old(text) + Comma(index) + Entry(key, value, format)
      decreases value, 4
    {
      WriteComma(index);
      ghost var before := text;
      WriteJSONString(key);
      Append([COLON]);
      ok := EncodeTo(value, format);
      if ok {
        Reassoc3(before, RenderString(WriteChars(key)), [COLON], Encode(value, format));
        Regroup(before, RenderString(WriteChars(key)), [COLON], Encode(value, format));
      }
    }

    method EncodeObject(t: Tree, format: Format) returns (ok: bool)
      requires t.JObject?
      modifies this
      ensures ok == Encodable(t, format)
      ensures ok ==> text == old(text) + Encode(t, format)
      decreases t, 1
    {
      var keys := Sorted(t.fields.Keys);
      Append([OBJECT_OPEN]);
      ok := EncodeMembers(t, keys, format);
      if ok {
        AllEncodable(t, keys, format);
        ObjectOpens(old(text), t, keys, format);
      }
    }

    /** The member under one key, with what is still to be written after it. */
    method EncodeMember(t: Tree, keys: seq<ByteString>, index: nat, format: Format, ghost goal: ByteString)
      returns (ok: bool)
      requires t.JObject? && index < |keys| && forall k :: k in keys ==> k in t.fields
      requires Encodable(t, format) ==> text + MembersLeft(t, keys, index, format) == goal
      modifies this
      ensures ok == Encodable(t.fields[keys[index]], format)
      ensures ok && Encodable(t, format) ==> text + MembersLeft(t, keys, index + 1, format) == goal
      decreases t, 0, 0
    {
      if Encodable(t, format) {
        MembersLeftStep(t, keys, index, format, text);
      }
      ok := WriteMember(index, keys[index], t.fields[keys[index]], format);
    }

    /** The members under the given keys, and the closing brace. */
    method EncodeMembers(t: Tree, keys: seq<ByteString>, format: Format) returns (ok: bool)
      requires t.JObject? && forall k :: k in keys ==> k in t.fields
      modifies this
      ensures ok == forall i :: 0 <= i < |keys| ==> Encodable(t.fields[keys[i]], format)
      ensures ok && Encodable(t, format) ==> text == old(text) + MembersLeft(t, keys, 0, format)
      decreases t, 0
    {
      hide Encodable, RenderMembers, MemberLayout;
      ghost var goal := if Encodable(t, format) then text + MembersLeft(t, keys, 0, format) else [];
      var index := 0;
      while index < |keys|
        invariant 0 <= index <= |keys|
        invariant forall i :: 0 <= i < index ==> Encodable(t.fields[keys[i]], format)
        invariant Encodable(t, format) ==> text + MembersLeft(t, keys, index, format) == goal
      {
        ok := EncodeMember(t, keys, index, format, goal);
        if !ok {
          return;
        }
        index := index + 1;
      }
      Append([OBJECT_CLOSE]);
      ok := true;
    }

    method EncodeArray(t: Tree, format: Format) returns (ok: bool)
      requires t.JArray?
      modifies this
      ensures ok == Encodable(t, format)
      ensures ok ==> text == old(text) + Encode(t, format)
      decreases t, 0
    {
      var items := t.items;
      ghost var goal := if Encodable(t, format) then text + Encode(t, format) else [];
      Append([ARRAY_OPEN]);
      if Encodable(t, format) {
        ArrayOpens(old(text), t, format);
      }
      var index := 0;
      while index < |items|
        invariant 0 <= index <= |items|
        invariant forall i :: 0 <= i < index ==> Encodable(items[i], format)
        invariant Encodable(t, format) ==> text + ItemsLeft(items, index, format) == goal
      {
        if Encodable(t, format) {
          ItemsLeftStep(items, index, format, text);
        }
        WriteComma(index);
        ok := EncodeTo(items[index], format);
        if !ok {
          return;
        }
        index := index + 1;
      }
      Append([ARRAY_CLOSE]);
      ok := true;
    }
  }

  lemma AllEncodable(t: Tree, keys: seq<ByteString>, format: Format)
    requires t.JObject? && forall k :: k in t.fields ==> k in keys
    requires forall i :: 0 <= i < |keys| ==> keys[i] in t.fields && Encodable(t.fields[keys[i]], format)
    ensures Encodable(t, format)
  {
    forall k | k in t.fields ensures Encodable(t.fields[k], format) {
      assert k in keys;
    }
  }

  lemma Regroup(s: ByteString, t: ByteString, u: ByteString, v: ByteString)
    ensures s + t + u + v == s + (t + u + v)
  {
  }

  lemma StringStep(before: ByteString, value: ByteString, index: nat)
    requires index < |value|
    ensures before + (RenderChars(WriteChars(value[index..])) + [QUOTE]) ==
            before + RenderChar(WriteByte(value[index])) + (RenderChars(WriteChars(value[index + 1..])) + [QUOTE])
  {
    var left := value[index..];
    assert left[1..] == value[index + 1..];
    RenderCharsStep(WriteChars(left));
    assert WriteChars(left)[1..] == WriteChars(left[1..]);
  }

  lemma ObjectOpens(before: ByteString, t: Tree, keys: seq<ByteString>, format: Format)
    requires t.JObject? && Encodable(t, format) && keys == Sorted(t.fields.Keys)
    ensures before + [OBJECT_OPEN] + MembersLeft(t, keys, 0, format) == before + Encode(t, format)
  {
    hide *;
    ObjectRendered(t, keys, format);
    Reassoc(before, [OBJECT_OPEN], MembersLeft(t, keys, 0, format));
  }

  lemma ObjectRendered(t: Tree, keys: seq<ByteString>, format: Format)
    requires t.JObject? && Encodable(t, format) && keys == Sorted(t.fields.Keys)
    ensures Encode(t, format) == [OBJECT_OPEN] + MembersLeft(t, keys, 0, format)
  {
    hide Encodable, Layout, MemberLayout, RenderMembers, Sorted;
    assert keys[0..] == keys;
    assert |keys| == |t.fields.Keys| == |t.fields|;
    ObjectLayout(t, format);
    if keys == [] {
      assert [OBJECT_OPEN] + [] + [OBJECT_CLOSE] == [OBJECT_OPEN] + [OBJECT_CLOSE];
    }
  }

  lemma ObjectLayout(t: Tree, format: Format)
    requires t.JObject? && Encodable(t, format)
    ensures Layout(t, format) ==
            if |t.fields| == 0 then EmptyObject([]) else Object(MemberLayout(t, Sorted(t.fields.Keys), format))
  {
  }

  lemma ArrayOpens(before: ByteString, t: Tree, format: Format)
    requires t.JArray? && Encodable(t, format)
    ensures before + [ARRAY_OPEN] + ItemsLeft(t.items, 0, format) == before + Encode(t, format)
  {
    assert t.items[0..] == t.items;
    assert Encode(t, format) == [ARRAY_OPEN] + ItemsLeft(t.items, 0, format);
  }
}
