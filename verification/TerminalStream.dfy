/** The terminal sanitizer: UTF-8 decoded across writes, controls and invalid bytes written as
    text, and the same output however the input is cut. */
module TerminalStream {
  import opened Bytes

  // ---- UTF-8 (RFC 3629 sections 3 and 4) ----

  /** How many bytes a sequence starting with this byte has; 1 when none can start with it. */
  function Length(first: Byte): (n: nat)
    ensures 1 <= n <= 4
  {
    if 0xc2 <= first <= 0xdf then 2
    else if 0xe0 <= first <= 0xef then 3
    else if 0xf0 <= first <= 0xf4 then 4
    else 1
  }

  /** A byte that can follow this first byte. */
  predicate SecondOk(first: Byte, second: Byte) {
    (if first == 0xe0 then 0xa0 else if first == 0xf0 then 0x90 else 0x80) <= second
    && second <= (if first == 0xed then 0x9f else if first == 0xf4 then 0x8f else 0xbf)
  }

  predicate Continues(b: Byte) { 0x80 <= b <= 0xbf }

  /** A whole, valid sequence stands at the front. */
  predicate StartsValid(p: ByteString) {
    && p != [] && |p| >= Length(p[0])
    && (Length(p[0]) == 1 ==> p[0] < 0x80)
    && (Length(p[0]) >= 2 ==> SecondOk(p[0], p[1]))
    && (Length(p[0]) >= 3 ==> Continues(p[2]))
    && (Length(p[0]) >= 4 ==> Continues(p[3]))
  }

  /** The front can be judged without more bytes: a whole sequence, or one already broken. */
  predicate FullRune(p: ByteString) {
    && p != []
    && (|| |p| >= Length(p[0])
        || (|p| > 1 && !SecondOk(p[0], p[1]))
        || (|p| > 2 && !Continues(p[2])))
  }

  /** How many bytes are taken at once: the sequence, or one invalid byte. */
  function Taken(p: ByteString): (n: nat)
    requires p != []
    ensures 1 <= n <= |p|
  {
    if StartsValid(p) then Length(p[0]) else 1
  }

  /** The scalar value of the sequence at the front. */
  function Scalar(p: ByteString): (r: nat)
    requires StartsValid(p)
  {
    var n := Length(p[0]);
    if n == 1 then p[0] as nat
    else if n == 2 then (p[0] as nat - 0xc0) * 0x40 + (p[1] as nat - 0x80)
    else if n == 3 then (p[0] as nat - 0xe0) * 0x1000 + (p[1] as nat - 0x80) * 0x40 + (p[2] as nat - 0x80)
    else
      (p[0] as nat - 0xf0) * 0x40000 + (p[1] as nat - 0x80) * 0x1000 + (p[2] as nat - 0x80) * 0x40
      + (p[3] as nat - 0x80)
  }

  // ---- what is written for it ----

  /** C0 controls but line feed and tab, DEL, and C1 controls. */
  predicate IsControl(r: nat) {
    (r < 0x20 && r != 0x0a && r != 0x09) || r == 0x7f || 0x80 <= r <= 0x9f
  }

  /** The text for the front of p: an invalid byte as \xHH, a control as \u00HH, anything else itself. */
  function Shown(p: ByteString): ByteString
    requires p != []
  {
    if !StartsValid(p) then [0x5c, 0x78, HexDigit(p[0] as nat / 16), HexDigit(p[0] as nat % 16)]
    else if IsControl(Scalar(p)) then [0x5c, 0x75, 0x30, 0x30, HexDigit(Scalar(p) / 16), HexDigit(Scalar(p) % 16)]
    else p[..Length(p[0])]
  }

  /** The sanitized form of a whole input. */
  function Sanitized(s: ByteString): ByteString
    decreases |s|
  {
    if s == [] then [] else Shown(s) + Sanitized(s[Taken(s)..])
  }

  // ---- more input does not change what was judged ----

  lemma JudgedStays(p: ByteString, q: ByteString)
    requires FullRune(p)
    ensures StartsValid(p + q) <==> StartsValid(p)
    ensures Taken(p + q) == Taken(p) && Shown(p + q) == Shown(p)
  {
    var all := p + q;
    assert all[0] == p[0];
    assert |p| > 1 ==> all[1] == p[1];
    assert |p| > 2 ==> all[2] == p[2];
    assert |p| > 3 ==> all[3] == p[3];
    if StartsValid(p) {
      assert all[..Length(p[0])] == p[..Length(p[0])];
    }
  }

  lemma SanitizedStep(p: ByteString, q: ByteString)
    requires FullRune(p)
    ensures Sanitized(p + q) == Shown(p) + Sanitized(p[Taken(p)..] + q)
  {
    JudgedStays(p, q);
    assert (p + q)[Taken(p)..] == p[Taken(p)..] + q;
  }

  /** Whatever follows, the input so far amounts to the output so far and the bytes pending. */
  ghost predicate Settled(written: ByteString, rendered: ByteString, pending: ByteString) {
    forall q: ByteString :: SettledBefore(written, rendered, pending, q)
  }

  predicate SettledBefore(written: ByteString, rendered: ByteString, pending: ByteString, q: ByteString) {
    Sanitized(written + q) == rendered + Sanitized(pending + q)
  }

  lemma Reassociate(a: ByteString, b: ByteString, c: ByteString)
    ensures a + b + c == a + (b + c)
  {
  }

  lemma SettledMore(written: ByteString, rendered: ByteString, pending: ByteString, p: ByteString)
    requires Settled(written, rendered, pending)
    ensures Settled(written + p, rendered, pending + p)
  {
    forall q: ByteString ensures SettledBefore(written + p, rendered, pending + p, q) {
      Reassociate(written, p, q);
      Reassociate(pending, p, q);
      assert SettledBefore(written, rendered, pending, p + q);
    }
  }

  lemma SettledStep(written: ByteString, rendered: ByteString, pending: ByteString)
    requires Settled(written, rendered, pending) && FullRune(pending)
    ensures Settled(written, rendered + Shown(pending), pending[Taken(pending)..])
  {
    forall q: ByteString
      ensures SettledBefore(written, rendered + Shown(pending), pending[Taken(pending)..], q)
    {
      assert SettledBefore(written, rendered, pending, q);
      SanitizedStep(pending, q);
      Reassociate(rendered, Shown(pending), Sanitized(pending[Taken(pending)..] + q));
    }
  }

  lemma SettledNow(written: ByteString, rendered: ByteString, pending: ByteString)
    requires Settled(written, rendered, pending)
    ensures Sanitized(written) == rendered + Sanitized(pending)
  {
    assert SettledBefore(written, rendered, pending, []);
    assert written + [] == written && pending + [] == pending;
  }

  // ---- the output is clean ----

  /** Valid UTF-8 without a control. */
  predicate Clean(s: ByteString)
    decreases |s|
  {
    s == [] || (StartsValid(s) && !IsControl(Scalar(s)) && Clean(s[Length(s[0])..]))
  }

  /** What a text starts with is not changed by more after it. */
  lemma JoinStarts(s: ByteString, t: ByteString)
    requires StartsValid(s)
    ensures (s + t)[0] == s[0] && Length(s[0]) <= |s|
    ensures StartsValid(s + t) && Scalar(s + t) == Scalar(s)
    ensures (s + t)[Length(s[0])..] == s[Length(s[0])..] + t
  {
    JudgedStays(s, t);
  }

  lemma {:induction false} CleanJoin(s: ByteString, t: ByteString)
    requires Clean(s) && Clean(t)
    ensures Clean(s + t)
    decreases |s|
  {
    if s == [] {
      assert s + t == t;
    } else {
      hide StartsValid, Scalar, Length;
      JoinStarts(s, t);
      CleanJoin(s[Length(s[0])..], t);
    }
  }

  lemma CleanAscii(s: ByteString)
    requires forall i :: 0 <= i < |s| ==> 0x20 <= s[i] < 0x7f
    ensures Clean(s)
    decreases |s|
  {
    if s != [] {
      CleanAscii(s[1..]);
    }
  }

  lemma ShownClean(p: ByteString)
    requires p != []
    ensures Clean(Shown(p))
  {
    if !StartsValid(p) || IsControl(Scalar(p)) {
      CleanAscii(Shown(p));
    } else {
      var s := Shown(p);
      assert s[Length(s[0])..] == [];
      assert Scalar(s) == Scalar(p);
    }
  }

  /** No control reaches the terminal, whatever the input. */
  lemma {:induction false} SanitizedClean(s: ByteString)
    ensures Clean(Sanitized(s))
    decreases |s|
  {
    if s != [] {
      ShownClean(s);
      SanitizedClean(s[Taken(s)..]);
      CleanJoin(Shown(s), Sanitized(s[Taken(s)..]));
    }
  }

  /** Text without controls passes unchanged. */
  lemma {:induction false} CleanPasses(s: ByteString)
    requires Clean(s)
    ensures Sanitized(s) == s
    decreases |s|
  {
    if s != [] {
      CleanPasses(s[Length(s[0])..]);
      assert s[..Length(s[0])] + s[Length(s[0])..] == s;
    }
  }

  /** Clean text holds no escape, no other C0 control but line feed and tab, and no DEL, byte by byte. */
  lemma {:induction false} CleanBytes(s: ByteString, i: nat)
    requires Clean(s) && i < |s|
    ensures s[i] >= 0x20 || s[i] == 0x0a || s[i] == 0x09
    ensures s[i] != 0x7f
    decreases |s|
  {
    var n := Length(s[0]);
    if i >= n {
      CleanBytes(s[n..], i - n);
    }
  }

  class TerminalStreamWriter {
    /** Whether the terminal fails a write, by how many it has been given before. */
    const refuses: nat -> bool
    var given: nat
    var out: ByteString
    var pending: ByteString
    ghost var written: ByteString
    ghost var rendered: ByteString
    /** No write to the terminal has failed. */
    ghost var intact: bool

    constructor (refuses: nat -> bool)
      ensures Valid() && written == [] && intact && out == [] && this.refuses == refuses
    {
      hide Sanitized;
      this.refuses, given := refuses, 0;
      out, pending, written, rendered, intact := [], [], [], [], true;
    }

    ghost predicate Valid()
      reads this
    {
      && Settled(written, rendered, pending) && |pending| <= 3
      && (intact ==> out == rendered)
    }

    /** Takes all the bytes and shows what can be judged; at most three stay pending. */
    method Write(p: ByteString) returns (n: nat, ok: bool)
      requires Valid()
      modifies this
      ensures Valid() && written == old(written) + p && n == |p| && intact == (old(intact) && ok)
      ensures old(given) <= given <= old(given) + 1 && ok == (given == old(given) || !refuses(old(given)))
    {
      SettledMore(written, rendered, pending, p);
      pending := pending + p;
      written := written + p;
      n := |p|;
      ok := Drain(false);
    }

    /** Shows everything left: the output is then the sanitized form of all that was written. */
    method Flush() returns (ok: bool)
      requires Valid()
      modifies this
      ensures pending == [] && written == old(written) && rendered == Sanitized(written)
      ensures intact == (old(intact) && ok) && (intact ==> out == Sanitized(written))
      ensures old(given) <= given <= old(given) + 1 && ok == (given == old(given) || !refuses(old(given)))
    {
      ok := Drain(true);
    }

    method Drain(final: bool) returns (ok: bool)
      requires Settled(written, rendered, pending) && (intact ==> out == rendered)
      modifies this`given, this`out, this`pending, this`rendered, this`intact
      ensures intact == (old(intact) && ok) && (intact ==> out == rendered)
      ensures old(given) <= given <= old(given) + 1 && ok == (given == old(given) || !refuses(old(given)))
      ensures if final then pending == [] && rendered == Sanitized(written)
              else Settled(written, rendered, pending) && |pending| <= 3
    {
      SettledNow(written, rendered, pending);
      var safe := RenderPending(final);
      ok := true;
      if safe != [] {
        ok := Deliver(safe);
      }
      intact := intact && ok;
    }

    /** Judges the pending bytes from the front, stopping at a sequence still incomplete. */
    method RenderPending(final: bool) returns (safe: ByteString)
      requires Settled(written, rendered, pending) && Sanitized(written) == rendered + Sanitized(pending)
      modifies this`pending, this`rendered
      ensures rendered == old(rendered) + safe
      ensures if final then pending == [] && rendered == Sanitized(written)
              else Settled(written, rendered, pending) && |pending| <= 3
    {
      safe := [];
      while pending != []
        invariant rendered == old(rendered) + safe
        invariant Sanitized(written) == rendered + Sanitized(pending)
        invariant !final ==> Settled(written, rendered, pending)
        decreases |pending|
      {
        if !FullRune(pending) && !final {
          break;
        }
        var shown := Shown(pending);
        if !final {
          SettledStep(written, rendered, pending);
        }
        Reassociate(rendered, shown, Sanitized(pending[Taken(pending)..]));
        Reassociate(old(rendered), safe, shown);
        safe := safe + shown;
        rendered := rendered + shown;
        pending := pending[Taken(pending)..];
      }
      assert pending == [] ==> rendered + [] == rendered;
    }

    method Deliver(safe: ByteString) returns (ok: bool)
      modifies this`given, this`out
      ensures given == old(given) + 1 && ok == !refuses(old(given))
      ensures ok ==> out == old(out) + safe
    {
      ok := !refuses(given);
      given := given + 1;
      if ok {
        out := out + safe;
      }
    }
  }

  lemma ConcatStep(chunks: seq<ByteString>, i: nat)
    requires i < |chunks|
    ensures Concat(chunks[..i + 1]) == Concat(chunks[..i]) + chunks[i]
  {
    assert chunks[..i + 1][..i] == chunks[..i];
  }

  /** Two ways of cutting one input into writes give one output. */
  method WriteAll(chunks: seq<ByteString>, refuses: nat -> bool) returns (out: ByteString, ok: bool)
    ensures (forall k: nat :: !refuses(k)) ==> ok
    ensures ok ==> out == Sanitized(Concat(chunks)) && Clean(out)
  {
    assert Concat([]) == [] && chunks[..0] == [];
    hide Sanitized, Clean, Concat, Settled;
    var w := new TerminalStreamWriter(refuses);
    ok := true;
    var i := 0;
    while i < |chunks|
      invariant 0 <= i <= |chunks| && fresh(w) && w.Valid() && w.written == Concat(chunks[..i]) && w.intact == ok
      invariant w.refuses == refuses && ((forall k: nat :: !refuses(k)) ==> ok)
    {
      ConcatStep(chunks, i);
      var _, written := w.Write(chunks[i]);
      ok := ok && written;
      i := i + 1;
    }
    assert chunks[..i] == chunks;
    var flushed := w.Flush();
    ok := ok && flushed;
    out := w.out;
    SanitizedClean(Concat(chunks));
  }
}
