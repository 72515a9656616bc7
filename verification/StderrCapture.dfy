/** The capped standard-error capture: equal head and tail excerpts, the tail a ring. */
module StderrCapture {
  import opened Bytes

  /** The ring read from its oldest byte. */
  function Unrolled(tail: ByteString, pos: nat): ByteString
    requires pos <= |tail|
  {
    tail[pos..] + tail[..pos]
  }

  /** The note between the excerpts: a line break, [stderr truncated], a line break. */
  const MARKER: ByteString := [
    0x0a, 0x5b, 0x73, 0x74, 0x64, 0x65, 0x72, 0x72, 0x20, 0x74,
    0x72, 0x75, 0x6e, 0x63, 0x61, 0x74, 0x65, 0x64, 0x5d, 0x0a]

  /** What is shown of everything written: all of it up to twice the half size, else its two ends
      around the marker. */
  function Excerpt(written: ByteString, half: nat): ByteString {
    if |written| <= 2 * half then written
    else written[..half] + MARKER + written[|written| - half..]
  }

  function Min(a: nat, b: nat): nat { if a <= b then a else b }

  /** The ring as it should stand after everything written. */
  predicate RingOk(tail: ByteString, pos: nat, truncated: bool, written: ByteString, half: nat) {
    if |written| <= 2 * half then
      !truncated && pos == 0 && tail == written[Min(half, |written|)..]
    else
      truncated && |tail| == half && pos < half && Unrolled(tail, pos) == written[|written| - half..]
  }

  /** Bytes copied over part of a buffer. */
  function Copied(buffer: ByteString, at: nat, p: ByteString): (r: ByteString)
    requires at + |p| <= |buffer|
    ensures |r| == |buffer|
  {
    buffer[..at] + p + buffer[at + |p|..]
  }

  /** A short write into the ring: to its end, then from its front. */
  function RingWritten(tail: ByteString, pos: nat, p: ByteString): (r: ByteString)
    requires pos < |tail| && |p| < |tail|
  {
    var first := Min(|tail| - pos, |p|);
    Copied(Copied(tail, pos, p[..first]), 0, p[first..])
  }

  /** The ring drops its oldest bytes for the newest, wherever the write wraps. */
  lemma ShortWrite(tail: ByteString, pos: nat, p: ByteString)
    requires pos < |tail| && |p| < |tail|
    ensures Unrolled(RingWritten(tail, pos, p), (pos + |p|) % |tail|) == Unrolled(tail, pos)[|p|..] + p
  {
    Wrapped(pos, |p|, |tail|);
    if pos + |p| < |tail| {
      WholeCopy(tail, pos, p);
      CopyInside(tail, pos, p);
    } else {
      CopyRound(tail, pos, p, |tail| - pos);
    }
  }

  lemma WholeCopy(tail: ByteString, pos: nat, p: ByteString)
    requires pos < |tail| && pos + |p| <= |tail| && |p| < |tail|
    ensures RingWritten(tail, pos, p) == Copied(tail, pos, p)
  {
    assert p[..|p|] == p && p[|p|..] == [];
  }

  lemma CopyInside(tail: ByteString, pos: nat, p: ByteString)
    requires pos + |p| < |tail|
    ensures Unrolled(Copied(tail, pos, p), pos + |p|) == Unrolled(tail, pos)[|p|..] + p
  {
    var t := Copied(tail, pos, p);
    assert t[pos + |p|..] == tail[pos + |p|..];
    assert t[..pos + |p|] == tail[..pos] + p;
    assert Unrolled(tail, pos)[|p|..] == tail[pos + |p|..] + tail[..pos];
  }

  lemma CopyRound(tail: ByteString, pos: nat, p: ByteString, first: nat)
    requires pos < |tail| && |p| < |tail| && first == |tail| - pos <= |p|
    ensures Unrolled(Copied(Copied(tail, pos, p[..first]), 0, p[first..]), |p| - first) ==
            Unrolled(tail, pos)[|p|..] + p
  {
    var rest := |p| - first;
    var t := Copied(tail, pos, p[..first]);
    var u := Copied(t, 0, p[first..]);
    RoundPieces(tail, pos, p, first, t, u);
    assert Unrolled(u, rest) == tail[rest..pos] + p[..first] + p[first..];
    RoundOrder(tail[rest..pos], p, first);
    RoundLeft(tail, pos, |p|);
  }

  lemma RoundPieces(tail: ByteString, pos: nat, p: ByteString, first: nat, t: ByteString, u: ByteString)
    requires pos < |tail| && |p| < |tail| && first == |tail| - pos <= |p|
    requires t == Copied(tail, pos, p[..first]) && u == Copied(t, 0, p[first..])
    ensures u[..|p| - first] == p[first..] && u[|p| - first..] == tail[|p| - first..pos] + p[..first]
  {
    assert t == tail[..pos] + p[..first];
    assert u == p[first..] + t[|p| - first..];
  }

  lemma RoundOrder(s: ByteString, p: ByteString, first: nat)
    requires first <= |p|
    ensures s + p[..first] + p[first..] == s + p
  {
    assert p[..first] + p[first..] == p;
  }

  lemma RoundLeft(tail: ByteString, pos: nat, n: nat)
    requires pos < |tail| && |tail| - pos <= n < |tail|
    ensures Unrolled(tail, pos)[n..] == tail[n - (|tail| - pos)..pos]
  {
  }

  /** The last bytes of a longer history are those of the shorter, shifted. */
  lemma EndShifts(written: ByteString, p: ByteString, half: nat)
    requires |written| >= half && |p| < half
    ensures (written + p)[|written| + |p| - half..] == written[|written| - half..][|p|..] + p
  {
  }

  class CappedStderr {
    const half: nat
    var head: ByteString
    var tail: ByteString
    var tailPos: nat
    var truncated: bool
    ghost var written: ByteString

    constructor (half: nat)
      requires half > 0
      ensures Valid() && this.half == half && written == []
    {
      this.half := half;
      head, tail, tailPos, truncated, written := [], [], 0, false, [];
    }

    ghost predicate Valid()
      reads this
    {
      half > 0 && head == written[..Min(half, |written|)] && RingOk(tail, tailPos, truncated, written, half)
    }

    /** The bytes are all taken, whatever is kept of them. */
    method Write(bytes: ByteString) returns (n: nat)
      requires Valid()
      modifies this
      ensures Valid() && written == old(written) + bytes && n == |bytes|
    {
      n := |bytes|;
      var p := FillHead(bytes);
      p := FillTail(p);
      if p != [] {
        Overwrite(p);
      }
    }

    /** The head takes what it has room for; the rest is returned. */
    method FillHead(bytes: ByteString) returns (p: ByteString)
      requires Valid()
      modifies this`head, this`written
      ensures Valid() && written + p == old(written) + bytes
      ensures p != [] ==> |head| == half
    {
      p := bytes;
      if |head| < half {
        var keep := Min(half - |head|, |p|);
        head := head + p[..keep];
        written := written + p[..keep];
        assert p[..keep] + p[keep..] == p;
        assert old(written) + p[..keep] + p[keep..] == old(written) + p;
        p := p[keep..];
        assert written[..|written|] == written;
      }
    }

    /** The tail takes what it has room for before it is full. */
    method FillTail(bytes: ByteString) returns (p: ByteString)
      requires Valid() && (bytes != [] ==> |head| == half)
      modifies this`tail, this`written
      ensures Valid() && written + p == old(written) + bytes
      ensures p != [] ==> |head| == half && |tail| == half
    {
      p := bytes;
      if |tail| < half && p != [] {
        var keep := Min(half - |tail|, |p|);
        assert |written| == half + |tail|;
        tail := tail + p[..keep];
        written := written + p[..keep];
        assert written[half..] == old(written)[half..] + p[..keep];
        assert p[..keep] + p[keep..] == p;
        assert old(written) + p[..keep] + p[keep..] == old(written) + p;
        p := p[keep..];
      }
    }

    /** Beyond both excerpts the ring drops its oldest bytes for the newest. */
    method Overwrite(p: ByteString)
      requires Valid() && p != [] && |head| == half && |tail| == half
      modifies this
      ensures Valid() && written == old(written) + p
    {
      HeadStays(head, written, p, half);
      if |p| >= half {
        OverwriteAll(p);
      } else {
        OverwriteSome(p);
      }
      truncated := true;
      written := written + p;
    }

    method OverwriteAll(p: ByteString)
      requires Valid() && |p| >= half && |tail| == half
      modifies this`tail, this`tailPos
      ensures RingOk(tail, tailPos, true, written + p, half)
    {
      FullLength(tail, tailPos, truncated, written, half);
      LongRing(tail, tailPos, written, p, half);
      tail := Copied(tail, 0, p[|p| - half..]);
      tailPos := 0;
    }

    method OverwriteSome(p: ByteString)
      requires Valid() && 0 < |p| < half && |tail| == half
      modifies this`tail, this`tailPos
      ensures RingOk(tail, tailPos, true, written + p, half)
    {
      hide RingWritten, Unrolled, Copied, Excerpt;
      FullRing(tail, tailPos, truncated, written, half);
      ShortRing(tail, tailPos, written, p, half);
      WriteRing(p);
    }

    /** Copy to the end of the ring, then from its front. */
    method WriteRing(p: ByteString)
      requires tailPos < |tail| == half && |p| < half
      modifies this`tail, this`tailPos
      ensures tail == RingWritten(old(tail), old(tailPos), p) && tailPos == (old(tailPos) + |p|) % half
    {
      var first := Min(half - tailPos, |p|);
      tail := Copied(tail, tailPos, p[..first]);
      tail := Copied(tail, 0, p[first..]);
      tailPos := (tailPos + |p|) % half;
    }

    method String() returns (s: ByteString)
      requires Valid()
      ensures s == Excerpt(written, half)
    {
      s := head;
      if truncated {
        s := s + MARKER;
      }
      s := s + tail[tailPos..];
      s := s + tail[..tailPos];
      assert truncated ==> s == head + MARKER + Unrolled(tail, tailPos);
      assert !truncated ==> s == head + tail;
    }
  }

  /** A full tail, whether or not anything was dropped yet, reads as the last half. */
  lemma FullRing(tail: ByteString, pos: nat, truncated: bool, written: ByteString, half: nat)
    requires RingOk(tail, pos, truncated, written, half) && |tail| == half > 0
    ensures |written| >= 2 * half && pos < half && Unrolled(tail, pos) == written[|written| - half..]
  {
    if |written| <= 2 * half {
      assert tail[0..] + tail[..0] == tail;
    }
  }

  lemma FullLength(tail: ByteString, pos: nat, truncated: bool, written: ByteString, half: nat)
    requires RingOk(tail, pos, truncated, written, half) && |tail| == half > 0
    ensures |written| >= 2 * half
  {
  }

  lemma LongWrite(tail: ByteString, written: ByteString, p: ByteString, half: nat)
    requires 0 < half <= |p| && |tail| == half
    ensures Unrolled(Copied(tail, 0, p[|p| - half..]), 0) == (written + p)[|written| + |p| - half..]
  {
    assert Copied(tail, 0, p[|p| - half..]) == p[|p| - half..];
  }

  lemma LongRing(tail: ByteString, pos: nat, written: ByteString, p: ByteString, half: nat)
    requires 0 < half <= |p| && |tail| == half && |written| >= 2 * half
    ensures RingOk(Copied(tail, 0, p[|p| - half..]), 0, true, written + p, half)
  {
    LongWrite(tail, written, p, half);
  }

  lemma ShortRing(tail: ByteString, pos: nat, written: ByteString, p: ByteString, half: nat)
    requires 0 < |p| < half && |tail| == half && |written| >= 2 * half && pos < half
    requires Unrolled(tail, pos) == written[|written| - half..]
    ensures RingOk(RingWritten(tail, pos, p), (pos + |p|) % half, true, written + p, half)
  {
    ShortWrite(tail, pos, p);
    EndShifts(written, p, half);
    RingSize(tail, pos, p);
  }

  lemma RingSize(tail: ByteString, pos: nat, p: ByteString)
    requires pos < |tail| && |p| < |tail|
    ensures |RingWritten(tail, pos, p)| == |tail|
  {
  }

  lemma HeadStays(head: ByteString, written: ByteString, p: ByteString, half: nat)
    requires |written| >= half && head == written[..Min(half, |written|)]
    ensures head == (written + p)[..Min(half, |written + p|)]
  {
  }

  lemma Wrapped(pos: nat, n: nat, half: nat)
    requires pos < half && n < half
    ensures (pos + n) % half == if pos + n < half then pos + n else pos + n - half
  {
  }
}
