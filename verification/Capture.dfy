/** The bounded capture buffer: it keeps at most `limit` bytes and goes on draining. */
module Capture {
  import opened Bytes

  /** A negative limit discards, zero keeps everything, a positive one keeps a prefix. */
  function Kept(limit: int, all: ByteString): ByteString {
    if limit < 0 then []
    else if limit == 0 || |all| <= limit then all
    else all[..limit]
  }

  class Capture {
    const limit: int
    var data: ByteString
    var truncated: bool
    ghost var drained: ByteString

    /** The captured bytes depend only on what was drained, not on how it was cut into writes. */
    ghost predicate Valid()
      reads this
    {
      data == Kept(limit, drained) && (truncated <==> limit > 0 && |drained| > limit)
    }

    constructor (limit: int)
      ensures Valid() && drained == [] && this.limit == limit
    {
      this.limit := limit;
      data, truncated, drained := [], false, [];
    }

    method Write(p: ByteString) returns (written: nat)
      requires Valid()
      modifies this
      ensures Valid() && drained == old(drained) + p && written == |p|
    {
      written := |p|;
      drained := drained + p;
      if limit < 0 {
        return;
      }
      if limit == 0 {
        data := data + p;
        return;
      }
      var room := limit - |data|;
      if room > 0 {
        if |p| > room {
          data := data + p[..room];
          truncated := true;
        } else {
          data := data + p;
        }
      } else if written > 0 {
        truncated := true;
      }
    }
  }
}
