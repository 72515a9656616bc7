/** JSON pointers (RFC 6901): reference tokens escaped, joined, and read back. */
module JsonPointers {
  import opened Bytes
  import opened JsonGrammar
  import opened JsonWriter
  import opened Options

  const TILDE: Byte := 0x7e
  const DIGIT_ONE: Byte := 0x31

  /** `~` as `~0` and `/` as `~1`, the first replaced before the second. */
  function Escape(name: ByteString): (e: ByteString)
    ensures SLASH !in e
  {
    if name == [] then []
    else
      (if name[0] == TILDE then [TILDE, ZERO]
       else if name[0] == SLASH then [TILDE, DIGIT_ONE]
       else [name[0]]) + Escape(name[1..])
  }

  /** Every occurrence of one byte replaced by a string. */
  function ReplaceAll(s: ByteString, target: Byte, replacement: ByteString): ByteString {
    if s == [] then [] else (if s[0] == target then replacement else [s[0]]) + ReplaceAll(s[1..], target, replacement)
  }

  lemma {:induction false} ReplaceAllConcat(s: ByteString, t: ByteString, target: Byte, replacement: ByteString)
    ensures ReplaceAll(s + t, target, replacement) ==
            ReplaceAll(s, target, replacement) + ReplaceAll(t, target, replacement)
    decreases |s|
  {
    if s == [] {
      assert s + t == t;
    } else {
      assert (s + t)[1..] == s[1..] + t;
      ReplaceAllConcat(s[1..], t, target, replacement);
    }
  }

  /** A reference token as it is written: two replacements, `~` first. */
  function WriteToken(name: ByteString): ByteString {
    ReplaceAll(ReplaceAll(name, TILDE, [TILDE, ZERO]), SLASH, [TILDE, DIGIT_ONE])
  }

  lemma {:induction false} WriteTokenEscapes(name: ByteString)
    ensures WriteToken(name) == Escape(name)
    decreases |name|
  {
    if name != [] {
      WriteTokenEscapes(name[1..]);
      var head := if name[0] == TILDE then [TILDE, ZERO] else [name[0]];
      ReplaceAllConcat(head, ReplaceAll(name[1..], TILDE, [TILDE, ZERO]), SLASH, [TILDE, DIGIT_ONE]);
      assert head[1..] == [] || head[1..] == [ZERO];
      assert ReplaceAll([], SLASH, [TILDE, DIGIT_ONE]) == [];
    }
  }

  /** The pointer one step below a path. */
  function Pointer(path: ByteString, component: ByteString): ByteString {
    path + [SLASH] + WriteToken(component)
  }

  lemma PointerIsPath(tokens: seq<ByteString>, component: ByteString)
    ensures Pointer(PathText(tokens), component) == PathText(tokens + [component])
  {
    WriteTokenEscapes(component);
    PathTextSnoc(tokens, component);
  }

  /** RFC 6901 section 4: `~1` is `/`, `~0` is `~`, any other `~` is an error. */
  function Unescape(token: ByteString): Option<ByteString> {
    if token == [] then Some([])
    else if token[0] != TILDE then Prepend(token[0], Unescape(token[1..]))
    else if |token| >= 2 && token[1] == ZERO then Prepend(TILDE, Unescape(token[2..]))
    else if |token| >= 2 && token[1] == DIGIT_ONE then Prepend(SLASH, Unescape(token[2..]))
    else None
  }

  function Prepend(b: Byte, rest: Option<ByteString>): Option<ByteString> {
    if rest.None? then None else Some([b] + rest.value)
  }

  lemma {:induction false} UnescapeEscape(name: ByteString)
    ensures Unescape(Escape(name)) == Some(name)
    decreases |name|
  {
    if name != [] {
      UnescapeEscape(name[1..]);
      var e := Escape(name);
      if name[0] == TILDE || name[0] == SLASH {
        assert e[2..] == Escape(name[1..]);
      } else {
        assert e[1..] == Escape(name[1..]);
      }
      assert [name[0]] + name[1..] == name;
    }
  }

  /** The text of a pointer to the place the tokens lead to. */
  function PathText(tokens: seq<ByteString>): ByteString {
    if tokens == [] then [] else PathText(tokens[..|tokens| - 1]) + [SLASH] + Escape(tokens[|tokens| - 1])
  }

  lemma PathTextSnoc(tokens: seq<ByteString>, token: ByteString)
    ensures PathText(tokens + [token]) == PathText(tokens) + [SLASH] + Escape(token)
  {
    assert (tokens + [token])[..|tokens|] == tokens;
  }

  /** Where the last `/` stands. */
  function LastSlash(text: ByteString): (i: int)
    ensures -1 <= i < |text|
    ensures i >= 0 ==> text[i] == SLASH
  {
    if text == [] then -1
    else if text[|text| - 1] == SLASH then |text| - 1
    else LastSlash(text[..|text| - 1])
  }

  /** Section 3: a pointer is empty or a sequence of `/` and token. */
  function ReadPath(text: ByteString): Option<seq<ByteString>>
    decreases |text|
  {
    if text == [] then Some([])
    else
      var i := LastSlash(text);
      if i < 0 then None
      else
        var parent := ReadPath(text[..i]);
        var token := Unescape(text[i + 1..]);
        if parent.None? || token.None? then None else Some(parent.value + [token.value])
  }

  lemma {:induction false} LastSlashOf(before: ByteString, token: ByteString)
    requires SLASH !in token
    ensures LastSlash(before + [SLASH] + token) == |before|
    decreases |token|
  {
    var text := before + [SLASH] + token;
    if token != [] {
      assert text[|text| - 1] == token[|token| - 1];
      assert text[..|text| - 1] == before + [SLASH] + token[..|token| - 1];
      LastSlashOf(before, token[..|token| - 1]);
    }
  }

  /** A pointer's text leads back to its tokens. */
  lemma {:induction false} ReadPathText(tokens: seq<ByteString>)
    ensures ReadPath(PathText(tokens)) == Some(tokens)
    decreases |tokens|
  {
    if tokens != [] {
      var front, token := tokens[..|tokens| - 1], tokens[|tokens| - 1];
      ReadPathText(front);
      UnescapeEscape(token);
      ReadPathSnoc(PathText(front), Escape(token));
      LastApart(tokens);
    }
  }

  lemma LastApart<T>(s: seq<T>)
    requires s != []
    ensures s[..|s| - 1] + [s[|s| - 1]] == s
  {
  }

  lemma ReadPathSnoc(before: ByteString, token: ByteString)
    requires SLASH !in token
    ensures var parent, last := ReadPath(before), Unescape(token);
            ReadPath(before + [SLASH] + token) ==
            if parent.None? || last.None? then None else Some(parent.value + [last.value])
  {
    var text := before + [SLASH] + token;
    LastSlashOf(before, token);
    assert text[..|before|] == before;
    assert text[|before| + 1..] == token;
  }

  /** Distinct places have distinct pointers. */
  lemma PathTextInjective(a: seq<ByteString>, b: seq<ByteString>)
    ensures PathText(a) == PathText(b) <==> a == b
  {
    ReadPathText(a);
    ReadPathText(b);
  }

  // ---- array indices ----

  /** Decimal digits without leading zeros. */
  function Digits(n: nat): (d: ByteString)
    ensures d != [] && SLASH !in d && TILDE !in d
  {
    (if n < 10 then [] else Digits(n / 10)) + [(0x30 + n % 10) as Byte]
  }

  /** The index a token spells. */
  function ReadDigits(d: ByteString): int {
    if d == [] then 0 else ReadDigits(d[..|d| - 1]) * 10 + (d[|d| - 1] as int - 0x30)
  }

  lemma {:induction false} ReadDigitsOf(n: nat)
    ensures ReadDigits(Digits(n)) == n
    decreases n
  {
    var d := Digits(n);
    if n >= 10 {
      ReadDigitsOf(n / 10);
      assert d[..|d| - 1] == Digits(n / 10);
    }
  }

  lemma {:induction false} EscapePlain(d: ByteString)
    requires SLASH !in d && TILDE !in d
    ensures Escape(d) == d
    decreases |d|
  {
    if d != [] {
      EscapePlain(d[1..]);
      assert d == [d[0]] + d[1..];
    }
  }

  /** Where a token leads: a member by name, an item by its canonical index. */
  function Step(t: Tree, token: ByteString): Option<Tree> {
    match t
    case JObject(fields) => if token in fields then Some(fields[token]) else None
    case JArray(items) =>
      var i := ReadDigits(token);
      if 0 <= i < |items| && Digits(i) == token then Some(items[i]) else None
    case _ => None
  }

  /** The value a list of tokens leads to. */
  function Resolve(t: Tree, tokens: seq<ByteString>): Option<Tree> {
    if tokens == [] then Some(t)
    else
      var next := Step(t, tokens[0]);
      if next.None? then None else Resolve(next.value, tokens[1..])
  }

  lemma StepItem(items: seq<Tree>, i: nat)
    requires i < |items|
    ensures Step(JArray(items), Digits(i)) == Some(items[i])
  {
    ReadDigitsOf(i);
  }
}
