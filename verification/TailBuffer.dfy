/** The lambda runner's tail buffer: the last `limit` bytes of everything
    written, in an array that is allocated once. */
module TailBuffer {

  newtype byte = x: int | 0 <= x < 256

  /** The last `limit` bytes of `s`. */
  ghost function Tail(s: seq<byte>, limit: int): seq<byte> {
    if limit <= 0 then [] else if |s| <= limit then s else s[|s| - limit..]
  }

  /** Only the tail of what came before matters to the tail. */
  lemma {:induction false} TailOfTail(s: seq<byte>, p: seq<byte>, limit: int)
    ensures Tail(s + p, limit) == Tail(Tail(s, limit) + p, limit)
  {
  }

  lemma {:induction false} TailOfLong(s: seq<byte>, p: seq<byte>, limit: int)
    requires 0 < limit <= |p|
    ensures Tail(s + p, limit) == p[|p| - limit..]
  {
  }

  lemma {:induction false} TailOfShifted(s: seq<byte>, p: seq<byte>, limit: int)
    requires |s| <= limit && |p| <= limit < |s| + |p|
    ensures s[|s| + |p| - limit..] + p == Tail(s + p, limit)
  {
  }

  class Buffer {
    const limit: int
    var buf: array?<byte>       // nil until the first write that matters
    var len: nat                // how much of it is in use
    ghost var written: seq<byte>

    constructor (limit: int)
      ensures this.limit == limit && Valid() && written == [] && buf == null
    {
      this.limit, buf, len, written := limit, null, 0, [];
    }

    ghost function Contents(): seq<byte>
      requires buf != null ==> len <= buf.Length
      reads this, buf
    {
      if buf == null then [] else buf[..len]
    }

    /** The buffer is the tail of the history, in exactly `limit` bytes of memory. */
    ghost predicate Valid()
      reads this, buf
    {
      && (buf == null ==> len == 0)
      && (buf != null ==> len <= buf.Length == limit)
      && Contents() == Tail(written, limit)
    }

    /** Append `p` to the history, whatever its length. */
    method Write(p: seq<byte>) returns (n: nat)
      requires Valid()
      modifies this, buf
      ensures Valid() && written == old(written) + p && n == |p|
      ensures buf == old(buf) || (old(buf) == null && fresh(buf))
    {
      n := |p|;
      TailOfTail(written, p, limit);
      if limit <= 0 || n == 0 {
        assert n == 0 ==> written + p == written;
        written := written + p;
        return;
      }
      if buf == null {
        buf := new byte[limit];
      }
      if n >= limit {
        TailOfLong(written, p, limit);
        Fill(p);
      } else {
        Append(p);
      }
      written := written + p;
    }

    /** The write alone fills the window. */
    method Fill(p: seq<byte>)
      requires buf != null && 0 < limit == buf.Length <= |p|
      modifies this`len, buf
      ensures len == limit && buf[..len] == p[|p| - limit..]
    {
      len := limit;
      CopyIn(p[|p| - limit..], 0);
    }

    method Append(p: seq<byte>)
      requires buf != null && len <= buf.Length == limit && 0 < |p| < limit
      modifies this`len, buf
      ensures len <= limit && buf[..len] == Tail(old(buf[..len]) + p, limit)
    {
      ghost var kept := buf[..len];
      if len + |p| > limit {
        ghost var overflow := len + |p| - limit;
        assert buf[overflow..len] == kept[overflow..];
        Shift(len + |p| - limit);
        TailOfShifted(kept, p, limit);
      }
      CopyIn(p, len);
      len := len + |p|;
    }

    /** Drop the first `overflow` bytes by moving the rest down. */
    method Shift(overflow: nat)
      requires buf != null && 0 < overflow <= len <= buf.Length
      modifies this`len, buf
      ensures len == old(len) - overflow && buf[..len] == old(buf[overflow..len])
    {
      ghost var was := buf[..];
      var kept := len - overflow;
      for i := 0 to kept
        invariant buf[..i] == was[overflow..overflow + i]
        invariant buf[i..] == was[i..]
      {
        assert buf[overflow + i] == buf[i..][overflow] == was[overflow + i];
        buf[i] := buf[overflow + i];
        assert buf[..i + 1] == buf[..i] + [was[overflow + i]];
        assert was[overflow..overflow + i + 1] == was[overflow..overflow + i] + [was[overflow + i]];
      }
      len := kept;
    }

    /** Copy `p` to position `at`. */
    method CopyIn(p: seq<byte>, at: nat)
      requires buf != null && at + |p| <= buf.Length
      modifies buf
      ensures buf[..at + |p|] == old(buf[..at]) + p
    {
      ghost var was := buf[..at];
      for i := 0 to |p|
        invariant buf[..at + i] == was + p[..i]
      {
        buf[at + i] := p[i];
        assert buf[..at + i + 1] == buf[..at + i] + [p[i]];
      }
    }
  }
}
