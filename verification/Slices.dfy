/** Byte strings found at a position of another, cut and joined. */
module Slices {
  import opened Bytes

  /** s stands in b from position i. */
  predicate At(b: ByteString, i: nat, s: ByteString): (found: bool)
    ensures found ==> i + |s| <= |b|
    decreases |s|
  {
    if s == [] then i <= |b| else i < |b| && b[i] == s[0] && At(b, i + 1, s[1..])
  }

  /** The bytes of b from i up to j. */
  function Cut(b: ByteString, i: nat, j: nat): (s: ByteString)
    ensures i <= j <= |b| ==> |s| == j - i
    decreases j
  {
    if i < j <= |b| then Cut(b, i, j - 1) + [b[j - 1]] else []
  }

  lemma {:induction false} CutIs(b: ByteString, i: nat, j: nat)
    requires i <= j <= |b|
    ensures Cut(b, i, j) == b[i..j]
    decreases j
  {
    if i < j {
      CutIs(b, i, j - 1);
      assert b[i..j] == b[i..j - 1] + [b[j - 1]];
    }
  }

  lemma {:induction false} AtIs(b: ByteString, i: nat, s: ByteString)
    ensures At(b, i, s) <==> i + |s| <= |b| && b[i..i + |s|] == s
    decreases |s|
  {
    if s != [] && i + |s| <= |b| {
      AtIs(b, i + 1, s[1..]);
      assert b[i..i + |s|] == [b[i]] + b[i + 1..i + |s|];
      assert s == [s[0]] + s[1..];
    }
  }

  lemma AtCut(b: ByteString, i: nat, j: nat)
    requires i <= j <= |b|
    ensures At(b, i, Cut(b, i, j))
  {
    CutIs(b, i, j);
    AtIs(b, i, Cut(b, i, j));
  }

  lemma CutAt(b: ByteString, i: nat, s: ByteString)
    requires At(b, i, s)
    ensures Cut(b, i, i + |s|) == s
  {
    AtIs(b, i, s);
    CutIs(b, i, i + |s|);
  }

  lemma AtSplit(b: ByteString, i: nat, s: ByteString, t: ByteString)
    requires At(b, i, s + t)
    ensures At(b, i, s) && At(b, i + |s|, t)
  {
    AtIs(b, i, s + t);
    AtIs(b, i, s);
    AtIs(b, i + |s|, t);
    assert b[i..i + |s|] == (s + t)[..|s|];
    assert b[i + |s|..i + |s| + |t|] == (s + t)[|s|..];
  }

  lemma AtJoin(b: ByteString, i: nat, s: ByteString, t: ByteString)
    requires At(b, i, s) && At(b, i + |s|, t)
    ensures At(b, i, s + t)
  {
    AtIs(b, i, s + t);
    AtIs(b, i, s);
    AtIs(b, i + |s|, t);
    assert b[i..i + |s| + |t|] == b[i..i + |s|] + b[i + |s|..i + |s| + |t|];
  }

  lemma AtHead(b: ByteString, i: nat, s: ByteString)
    requires At(b, i, s) && s != []
    ensures i < |b| && b[i] == s[0]
  {
  }

  /** A text found from i up to next. */
  predicate Spans(b: ByteString, i: nat, text: ByteString, next: nat) {
    At(b, i, text) && next == i + |text|
  }

  lemma SpansCut(b: ByteString, i: nat, j: nat)
    requires i <= j <= |b|
    ensures Spans(b, i, Cut(b, i, j), j)
  {
    AtCut(b, i, j);
  }

  lemma SpansOne(b: ByteString, i: nat, c: Byte)
    requires i < |b| && b[i] == c
    ensures Spans(b, i, [c], i + 1)
  {
  }

  lemma SpansJoin(b: ByteString, i: nat, s: ByteString, j: nat, t: ByteString, k: nat)
    requires Spans(b, i, s, j) && Spans(b, j, t, k)
    ensures Spans(b, i, s + t, k)
  {
    AtJoin(b, i, s, t);
  }

  lemma SpansJoin3(b: ByteString, i: nat, s: ByteString, j: nat, t: ByteString, k: nat, u: ByteString, m: nat)
    requires Spans(b, i, s, j) && Spans(b, j, t, k) && Spans(b, k, u, m)
    ensures Spans(b, i, s + t + u, m)
  {
    SpansJoin(b, i, s, j, t, k);
    SpansJoin(b, i, s + t, k, u, m);
  }

  lemma SpansJoin4(b: ByteString, i: nat, s: ByteString, j: nat, t: ByteString, k: nat,
                   u: ByteString, m: nat, v: ByteString, n: nat)
    requires Spans(b, i, s, j) && Spans(b, j, t, k) && Spans(b, k, u, m) && Spans(b, m, v, n)
    ensures Spans(b, i, s + t + u + v, n)
  {
    SpansJoin3(b, i, s, j, t, k, u, m);
    SpansJoin(b, i, s + t + u, m, v, n);
  }

  lemma SpansSplit(b: ByteString, i: nat, s: ByteString, t: ByteString, n: nat) returns (j: nat)
    requires Spans(b, i, s + t, n)
    ensures Spans(b, i, s, j) && Spans(b, j, t, n)
  {
    AtSplit(b, i, s, t);
    j := i + |s|;
  }

  lemma SpansSplit3(b: ByteString, i: nat, s: ByteString, t: ByteString, u: ByteString, n: nat) returns (j: nat, k: nat)
    requires Spans(b, i, s + t + u, n)
    ensures Spans(b, i, s, j) && Spans(b, j, t, k) && Spans(b, k, u, n)
  {
    k := SpansSplit(b, i, s + t, u, n);
    j := SpansSplit(b, i, s, t, k);
  }

  lemma SpansSplit4(b: ByteString, i: nat, s: ByteString, t: ByteString, u: ByteString, v: ByteString, n: nat)
    returns (j: nat, k: nat, m: nat)
    requires Spans(b, i, s + t + u + v, n)
    ensures Spans(b, i, s, j) && Spans(b, j, t, k) && Spans(b, k, u, m) && Spans(b, m, v, n)
  {
    m := SpansSplit(b, i, s + t + u, v, n);
    j, k := SpansSplit3(b, i, s, t, u, m);
  }

  lemma CutSpans(b: ByteString, i: nat, s: ByteString, n: nat)
    requires Spans(b, i, s, n)
    ensures Cut(b, i, n) == s
  {
    CutAt(b, i, s);
  }
}
