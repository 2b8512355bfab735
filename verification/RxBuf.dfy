/** The receive buffer of lib/rxbuf.c: grows in steps of SIZECHUNK, and refuses 64 kB. */
module RxBufs {
  import opened Bytes

  const SIZECHUNK: nat := 1024
  const LIMIT: nat := 0x10000

  function ChunkUp(n: nat): (r: nat)
    ensures r % SIZECHUNK == 0 && n <= r < n + SIZECHUNK
  {
    (n + 1023) / 1024 * 1024
  }

  /** rxbuf_trimspace() on the contents. */
  function TrimSpace(s: seq<byte>): (r: seq<byte>)
    ensures r <= s && forall k :: |r| <= k < |s| ==> s[k] == 0x20
    ensures r != [] ==> r[|r| - 1] != 0x20
  {
    if s != [] && s[|s| - 1] == 0x20 then TrimSpace(s[..|s| - 1]) else s
  }

  class RxBuf {
    var buf: array<byte>
    var len: nat

    /** The capacity is whole chunks, up to 64 kB. */
    ghost predicate Valid()
      reads this
    {
      len <= buf.Length <= LIMIT && buf.Length % SIZECHUNK == 0
    }

    ghost function Contents(): (r: seq<byte>)
      requires Valid()
      reads this, buf
      ensures |r| == len
    {
      buf[..len]
    }

    constructor ()
      ensures Valid() && Contents() == [] && fresh(buf)
    {
      buf := new byte[0];
      len := 0;
    }

    /** rxbuf_resize(): only sizes of 64 kB and over are refused. */
    method Resize(sz: nat) returns (ok: bool)
      requires Valid() && len <= ChunkUp(sz)
      modifies this`buf
      ensures Valid() && (buf == old(buf) || fresh(buf))
      ensures ok == (sz < LIMIT)
      ensures ok ==> buf.Length == ChunkUp(sz)
      ensures !ok ==> buf == old(buf)
      ensures Contents() == old(Contents())
    {
      if sz >= LIMIT {
        return false;
      }
      if buf.Length != ChunkUp(sz) {
        var newbuf := new byte[ChunkUp(sz)];
        for k := 0 to len
          invariant buf == old(buf) && buf[..] == old(buf[..])
          invariant forall j :: 0 <= j < k ==> newbuf[j] == buf[j]
        {
          newbuf[k] := buf[k];
        }
        buf := newbuf;
      }
      ok := true;
    }

    /** rxbuf_addc(): refused exactly when the contents fill 64 kB. */
    method Addc(ch: byte) returns (ok: bool)
      requires Valid()
      modifies this, buf
      ensures Valid() && (buf == old(buf) || fresh(buf))
      ensures ok == (|old(Contents())| < LIMIT)
      ensures Contents() == if ok then old(Contents()) + [ch] else old(Contents())
    {
      if len >= buf.Length {
        ok := Resize(len + 1);
        if !ok {
          return;
        }
      }
      buf[len] := ch;
      len := len + 1;
      ok := true;
    }

    /** rxbuf_add() */
    method Add(bs: seq<byte>) returns (ok: bool)
      requires Valid()
      modifies this, buf
      ensures Valid() && (buf == old(buf) || fresh(buf))
      ensures ok == (|old(Contents())| + |bs| < LIMIT)
      ensures Contents() == if ok then old(Contents()) + bs else old(Contents())
    {
      ok := Resize(len + |bs|);
      if ok {
        ghost var was := buf[..len];
        var b := buf;
        for k := 0 to |bs|
          invariant buf == b && buf.Length == ChunkUp(len + |bs|) && len == old(len) && buf[..len] == was
          invariant buf[len..len + k] == bs[..k]
        {
          buf[len + k] := bs[k];
        }
        len := len + |bs|;
      }
    }

    /** rxbuf_clear() */
    method Clear(sz: nat) returns (ok: bool)
      requires Valid()
      modifies this, buf
      ensures Valid() && (buf == old(buf) || fresh(buf))
      ensures ok == (sz < LIMIT)
      ensures Contents() == []
    {
      len := 0;
      ok := Resize(sz);
    }

    /** rxbuf_trimspace() */
    method Trim()
      requires Valid()
      modifies this`len
      ensures Valid() && Contents() == TrimSpace(old(Contents()))
    {
      ghost var was := Contents();
      while len > 0 && buf[len - 1] == 0x20
        invariant Valid() && len <= |was| && buf[..len] == was[..len]
        invariant TrimSpace(was[..len]) == TrimSpace(was)
      {
        assert was[..len][..len - 1] == was[..len - 1];
        len := len - 1;
      }
    }

    /** rxbuf_zeropad(): a NUL behind the contents, which do not change. */
    method ZeroPad() returns (ok: bool)
      requires Valid()
      modifies this, buf
      ensures Valid() && (buf == old(buf) || fresh(buf))
      ensures ok == (|old(Contents())| + 1 < LIMIT)
      ensures Contents() == old(Contents())
      ensures ok ==> len < buf.Length && buf[len] == 0
    {
      ghost var was := Contents();
      ok := Add([0]);
      if ok {
        assert Contents() == was + [0];
        len := len - 1;
        assert buf[..len] == was;
      }
    }
  }
}
