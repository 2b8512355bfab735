/** The binary protocol of lib/protobin.c: packet reassembly from arbitrary fragments. */
module BinProto {
  import opened Bytes
  import opened RxBufs

  /** A decoded message for on_input(). */
  datatype Msg = Msg(id: byte, data: seq<byte>)

  /** The largest payload whose packet, header and NUL pad fit the receive buffer. */
  const MAX_PAYLOAD: nat := 65531

  /** binary_pkt_len() of a complete header. */
  function PktLen(s: seq<byte>): (r: nat)
    requires |s| >= 3
    ensures r < 0x10000
  {
    s[1] as int * 256 + s[2] as int
  }

  /** What a byte stream holds: whole packets and a pending rest, or packets up to one that cannot be
      received. */
  datatype Stream = Pending(msgs: seq<Msg>, rest: seq<byte>) | Broken(msgs: seq<Msg>)

  function Before(msgs: seq<Msg>, t: Stream): (r: Stream)
  {
    match t
    case Pending(m, rest) => Pending(msgs + m, rest)
    case Broken(m) => Broken(msgs + m)
  }

  /** A packet whose header alone already exceeds the buffer breaks the stream with its next byte; one
      that leaves no room for the NUL pad breaks it when it is complete. */
  function Parse(s: seq<byte>): (r: Stream)
    decreases |s|
  {
    if |s| < 3 then Pending([], s)
    else
      var sz := PktLen(s);
      if 3 + sz >= LIMIT && |s| > 3 then Broken([])
      else if |s| < 3 + sz then Pending([], s)
      else if sz > MAX_PAYLOAD then Broken([])
      else Before([Msg(s[0], s[3..3 + sz])], Parse(s[3 + sz..]))
  }

  /** Bytes that wait for more. */
  predicate Partial(s: seq<byte>)
  {
    |s| < 3 || (|s| < 3 + PktLen(s) && (3 + PktLen(s) < LIMIT || |s| == 3))
  }

  lemma {:induction false} PartialWaits(s: seq<byte>)
    ensures Partial(s) <==> Parse(s) == Pending([], s)
  {
    if |s| >= 3 && !Partial(s) {
      var t := Parse(s);
      assert t.Pending? ==> t.msgs != [];
    }
  }

  /** Parsing a longer stream goes on where a shorter one stopped. */
  lemma {:induction false} ParseMore(a: seq<byte>, b: seq<byte>)
    ensures Parse(a).Broken? ==> Parse(a + b) == Parse(a)
    ensures Parse(a).Pending? ==> Partial(Parse(a).rest) && Parse(a + b) == Before(Parse(a).msgs, Parse(Parse(a).rest + b))
    decreases |a|
  {
    hide Parse;
    PartialWaits(a);
    if Partial(a) {
      BeforeNone(Parse(a + b));
    } else if PktLen(a) > MAX_PAYLOAD {
      assert PktLen(a + b) == PktLen(a);
      ParseBreaks(a);
      ParseBreaks(a + b);
    } else {
      hide Partial, LIMIT;
      var sz := PktLen(a);
      var m, rest := [Msg(a[0], a[3..3 + sz])], a[3 + sz..];
      PacketInside(a, b);
      ParsePacket(a);
      ParsePacket(a + b);
      ParseMore(rest, b);
      if Parse(rest).Pending? { BeforeTwice(m, Parse(rest).msgs, Parse(Parse(rest).rest + b)); }
    }
  }

  lemma {:induction false} PacketInside(a: seq<byte>, b: seq<byte>)
    requires |a| >= 3 && 3 + PktLen(a) <= |a|
    ensures PktLen(a + b) == PktLen(a) && (a + b)[0] == a[0]
    ensures var e := 3 + PktLen(a); (a + b)[3..e] == a[3..e] && (a + b)[e..] == a[e..] + b
  {
  }

  lemma {:induction false} ParseBreaks(s: seq<byte>)
    requires !Partial(s) && PktLen(s) > MAX_PAYLOAD
    ensures Parse(s) == Broken([])
  {
  }

  lemma {:induction false} ParsePacket(s: seq<byte>)
    requires |s| >= 3 && 3 + PktLen(s) <= |s| && PktLen(s) <= MAX_PAYLOAD
    ensures Parse(s) == Before([Msg(s[0], s[3..3 + PktLen(s)])], Parse(s[3 + PktLen(s)..]))
  {
  }

  lemma {:induction false} BeforeNone(t: Stream)
    ensures Before([], t) == t
  {
    assert [] + t.msgs == t.msgs;
  }

  lemma {:induction false} BeforeTwice(a: seq<Msg>, b: seq<Msg>, t: Stream)
    ensures Before(a, Before(b, t)) == Before(a + b, t)
  {
    assert a + (b + t.msgs) == (a + b) + t.msgs;
  }

  function Concat(chunks: seq<seq<byte>>): (r: seq<byte>)
  {
    if chunks == [] then [] else Concat(chunks[..|chunks| - 1]) + chunks[|chunks| - 1]
  }

  /** Receiving chunk after chunk, keeping what is pending, until the stream breaks. */
  function Receive(chunks: seq<seq<byte>>): (r: Stream)
  {
    if chunks == [] then Pending([], [])
    else
      var t := Receive(chunks[..|chunks| - 1]);
      if t.Broken? then t else Before(t.msgs, Parse(t.rest + chunks[|chunks| - 1]))
  }

  /** Any split of a stream into chunks delivers the same messages. */
  lemma {:induction false} ReassemblyIgnoresSplit(chunks: seq<seq<byte>>)
    ensures Receive(chunks) == Parse(Concat(chunks))
    decreases |chunks|
  {
    if chunks != [] {
      var n := |chunks| - 1;
      ReassemblyIgnoresSplit(chunks[..n]);
      hide Parse;
      ParseMore(Concat(chunks[..n]), chunks[n]);
    }
  }

  /** Bytes that wait for more, or that are just complete. */
  predicate AtMostPacket(s: seq<byte>)
  {
    |s| < 3 || (|s| <= 3 + PktLen(s) && (3 + PktLen(s) < LIMIT || |s| == 3))
  }

  /** What is still missing from a pending packet. */
  function Missing(c: seq<byte>): (r: nat)
    requires Partial(c)
    ensures r > 0
  {
    if |c| < 3 then 3 - |c| else 3 + PktLen(c) - |c|
  }

  lemma {:induction false} HeaderTooBig(c: seq<byte>, rest: seq<byte>)
    requires Partial(c) && |c| >= 3 && 3 + PktLen(c) >= LIMIT && rest != []
    ensures Parse(c + rest) == Broken([])
  {
    assert PktLen(c + rest) == PktLen(c);
  }

  lemma {:induction false} TakeFits(c: seq<byte>, rest: seq<byte>, take: nat)
    requires Partial(c) && (|c| >= 3 ==> 3 + PktLen(c) < LIMIT) && take <= |rest| && take <= Missing(c)
    ensures |c| + take < LIMIT && AtMostPacket(c + rest[..take])
    ensures (c + rest[..take]) + rest[take..] == c + rest
  {
    var c1 := c + rest[..take];
    if |c| >= 3 { assert PktLen(c1) == PktLen(c); }
  }

  /** A complete packet in front of the rest of the stream. */
  lemma {:induction false} PacketDone(c: seq<byte>, rest: seq<byte>)
    requires AtMostPacket(c) && |c| >= 3 && |c| == 3 + PktLen(c)
    ensures PktLen(c) > MAX_PAYLOAD ==> Parse(c + rest) == Broken([])
    ensures PktLen(c) <= MAX_PAYLOAD ==> Parse(c + rest) == Before([Msg(c[0], c[3..])], Parse(rest))
  {
    var s := c + rest;
    assert PktLen(s) == PktLen(c) && s[3..|c|] == c[3..] && s[|c|..] == rest;
  }

  class BinDecoder {
    const rx: RxBuf
    /** What has been handed on so far. */
    var log: seq<Msg>

    ghost predicate Valid()
      reads this, rx, rx.buf
    {
      rx.Valid() && Partial(rx.Contents())
    }

    constructor ()
      ensures Valid() && rx.Contents() == [] && log == []
      ensures fresh(rx) && fresh(rx.buf)
    {
      rx := new RxBuf();
      log := [];
    }

    /** Room for the header, or for the whole packet once its length is known; take is what is still
        missing. */
    method Prepare() returns (ok: bool, take: nat)
      requires Valid()
      modifies rx`buf
      ensures rx.Valid() && rx.Contents() == old(rx.Contents()) && (rx.buf == old(rx.buf) || fresh(rx.buf))
      ensures take == Missing(old(rx.Contents()))
      ensures var c := rx.Contents(); ok == (|c| < 3 || 3 + PktLen(c) < LIMIT)
    {
      if rx.len < 3 {
        ok := rx.Resize(3);
        take := 3 - rx.len;
      } else {
        assert rx.Contents()[1] == rx.buf[1] && rx.Contents()[2] == rx.buf[2];
        var sz := rx.buf[1] as int * 256 + rx.buf[2] as int;
        take := 3 + sz - rx.len;
        ok := rx.Resize(3 + sz);
      }
    }

    /** Hands on the packet when it is complete. reply is what the handler returns for it. */
    method Complete(reply: int) returns (complete: bool, ret: int)
      requires rx.Valid() && AtMostPacket(rx.Contents())
      modifies this`log, rx, rx.buf
      ensures rx.Valid() && (rx.buf == old(rx.buf) || fresh(rx.buf))
      ensures complete == (|old(rx.Contents())| >= 3 && |old(rx.Contents())| == 3 + PktLen(old(rx.Contents())))
      ensures var c := old(rx.Contents());
              if !complete then rx.Contents() == c && log == old(log) && ret == 1
              else if PktLen(c) > MAX_PAYLOAD then log == old(log) && ret == -1
              else log == old(log) + [Msg(c[0], c[3..])] && ret == reply && (reply > 0 ==> rx.Contents() == [])
    {
      ghost var c := rx.Contents();
      complete, ret := false, 1;
      if rx.len >= 3 {
        assert c[0] == rx.buf[0] && c[1] == rx.buf[1] && c[2] == rx.buf[2];
        var sz := rx.buf[1] as int * 256 + rx.buf[2] as int;
        if rx.len == 3 + sz {
          var ok := rx.ZeroPad();
          if !ok {
            return true, -1;
          }
          assert rx.Contents()[0] == rx.buf[0] && rx.Contents()[3..] == rx.buf[3..rx.len];
          log := log + [Msg(rx.buf[0], rx.buf[3..rx.len])];
          if reply <= 0 {
            return true, reply;
          }
          ok := rx.Clear(3);
          complete, ret := true, reply;
        }
      }
    }

    /** One turn of the loop of recv_binary(): bytes up to the end of a header, a packet or the fragment. */
    method TakeSome(rest: seq<byte>, replies: nat -> int) returns (took: nat, ret: int, ghost msgs: seq<Msg>)
      requires Valid() && rest != []
      modifies this`log, rx, rx.buf
      ensures rx.buf == old(rx.buf) || fresh(rx.buf)
      ensures log == old(log) + msgs && 0 <= took <= |rest|
      ensures ret > 0 ==> Valid() && took > 0 && Parse(old(rx.Contents()) + rest) == Before(msgs, Parse(rx.Contents() + rest[took..]))
      ensures ret <= 0 ==> msgs <= Parse(old(rx.Contents()) + rest).msgs
      ensures ret <= 0 && (forall k :: replies(k) > 0) ==> Parse(old(rx.Contents()) + rest) == Broken(msgs) && ret == -1
    {
      hide Parse, LIMIT, Partial, AtMostPacket;
      ghost var c := rx.Contents();
      msgs := [];
      var ok;
      ok, took := Prepare();
      if !ok {
        HeaderTooBig(c, rest);
        return 0, -1, [];
      }
      if took > |rest| {
        took := |rest|;
      }
      TakeFits(c, rest, took);
      ghost var c1 := c + rest[..took];
      ok := rx.Add(rest[..took]);
      var complete, n := Complete(replies(|log|));
      ret := 1;
      if complete {
        PacketDone(c1, rest[took..]);
        if n <= 0 {
          ghost var m := if PktLen(c1) > MAX_PAYLOAD then [] else [Msg(c1[0], c1[3..])];
          return took, n, m;
        }
        msgs := [Msg(c1[0], c1[3..])];
        assert [] + rest[took..] == rest[took..];
        NothingPending();
      } else {
        BeforeNone(Parse(c + rest));
        StillPartial(c1);
      }
    }

    /** The loop of recv_binary(). */
    method RecvBytes(net: seq<byte>, replies: nat -> int) returns (ret: int)
      requires Valid() && net != []
      modifies this`log, rx, rx.buf
      ensures rx.buf == old(rx.buf) || fresh(rx.buf)
      ensures ret > 0 ==> Valid() && ret >= |net|
      ensures exists msgs ::
                log == old(log) + msgs && msgs <= Parse(old(rx.Contents()) + net).msgs &&
                (ret > 0 ==> Parse(old(rx.Contents()) + net) == Pending(msgs, rx.Contents()))
      ensures (forall k :: replies(k) > 0) ==>
                var t := Parse(old(rx.Contents()) + net);
                log == old(log) + t.msgs && (t.Broken? <==> ret <= 0) && (t.Broken? ==> ret == -1)
    {
      hide Parse, LIMIT, Partial;
      ret := 0;
      var rest := net;
      ghost var goal := Parse(rx.Contents() + net);
      ghost var msgs: seq<Msg> := [];
      BeforeNone(goal);
      while rest != []
        invariant Valid() && (rx.buf == old(rx.buf) || fresh(rx.buf))
        invariant log == old(log) + msgs && goal == Before(msgs, Parse(rx.Contents() + rest))
        invariant ret >= |net| - |rest|
        decreases |rest|
      {
        ghost var more;
        var took, n;
        took, n, more := TakeSome(rest, replies);
        Associates(old(log), msgs, more);
        if n <= 0 {
          assert log == old(log) + (msgs + more) && msgs + more <= goal.msgs;
          return n;
        }
        rest := rest[took..];
        BeforeTwice(msgs, more, Parse(rx.Contents() + rest));
        msgs := msgs + more;
        ret := ret + took + n;
      }
      assert rx.Contents() + [] == rx.Contents();
      PartialWaits(rx.Contents());
      assert msgs + [] == msgs;
    }

    /** recv_binary(). replies(k) is what the handler returns for its k-th message. A positive result means
        that the whole fragment was taken in; no data means that the peer has closed the connection. */
    method RecvBinary(net: seq<byte>, replies: nat -> int) returns (ret: int)
      requires Valid()
      modifies this`log, rx, rx.buf
      ensures rx.buf == old(rx.buf) || fresh(rx.buf)
      ensures net == [] ==> Valid() && rx.Contents() == old(rx.Contents()) && log == old(log) + [Msg(MSG_EOF, [])] && ret == replies(|old(log)|)
      ensures ret > 0 ==> Valid() && ret >= |net|
      ensures net != [] ==> exists msgs ::
                log == old(log) + msgs && msgs <= Parse(old(rx.Contents()) + net).msgs &&
                (ret > 0 ==> Parse(old(rx.Contents()) + net) == Pending(msgs, rx.Contents()))
      ensures net != [] && (forall k :: replies(k) > 0) ==>
                var t := Parse(old(rx.Contents()) + net);
                log == old(log) + t.msgs && (t.Broken? <==> ret <= 0) && (t.Broken? ==> ret == -1)
    {
      hide Parse, Partial;
      if net == [] {
        ret := replies(|log|);
        log := log + [Msg(MSG_EOF, [])];
      } else {
        ret := RecvBytes(net, replies);
      }
    }
  }

  lemma {:induction false} NothingPending()
    ensures Partial([])
  {
  }

  lemma {:induction false} StillPartial(c: seq<byte>)
    requires AtMostPacket(c) && !(|c| >= 3 && |c| == 3 + PktLen(c))
    ensures Partial(c)
  {
  }
}
