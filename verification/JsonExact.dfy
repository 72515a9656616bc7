/** The strict scan accepts exactly the JSON texts of the grammar within the scanner's
    nesting limit and without repeated keys, and recovers the one tree each text has. */
module JsonExact {
  import opened Bytes
  import opened JsonGrammar
  import opened JsonParser
  import opened JsonSound
  import opened JsonComplete
  import opened Slices

  /** One RFC 8259 text, nested and keyed as the scanner demands. */
  predicate Conforms(t: Padded) {
    PaddedOk(t) && Limits(t.value, 0, true)
  }

  lemma DocumentComplete(t: Padded)
    requires Conforms(t)
    ensures ParseDocument(RenderPadded(t), true) == Got(t, |RenderPadded(t)|)
  {
    var b := RenderPadded(t);
    AtIs(b, 0, b);
    PaddedComplete(b, 0, t, |b|, 0, true);
  }

  lemma DocumentSound(b: ByteString, t: Padded)
    requires ParseDocument(b, true) == Got(t, |b|)
    ensures Conforms(t) && RenderPadded(t) == b
  {
    PaddedSound(b, 0, t, |b|, 0, true);
    AtIs(b, 0, RenderPadded(t));
  }

  /** The scan accepts a byte string exactly when it is a conforming text. */
  lemma AcceptsExactly(b: ByteString)
    ensures ParseDocument(b, true).Got? <==> exists t :: Conforms(t) && RenderPadded(t) == b
  {
    var p := ParseDocument(b, true);
    if p.Got? {
      DocumentSound(b, p.value);
    }
    if t :| Conforms(t) && RenderPadded(t) == b {
      DocumentComplete(t);
    }
  }

  /** A byte string is at most one conforming text: the grammar is unambiguous. */
  lemma OneReading(t: Padded, u: Padded)
    requires Conforms(t) && Conforms(u) && RenderPadded(t) == RenderPadded(u)
    ensures t == u
  {
    DocumentComplete(t);
    DocumentComplete(u);
  }
}
