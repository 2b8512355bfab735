/** The three wire forms side by side (lib/proto.c, lib/protobin.c, lib/protofram.c). */
module Wire {
  import opened Bytes
  import opened RxBufs
  import opened BinProto
  import TextProto
  import opened TextCodec

  // ---- encoders -----------------------------------------------------------------------------------

  /** How many %c arguments there are. */
  function Chars(args: seq<Arg>): (r: nat)
  {
    if args == [] then 0 else (if args[0].Chr? then 1 else 0) + Chars(args[1..])
  }

  function Flat(iov: seq<seq<byte>>): (r: seq<byte>)
  {
    if iov == [] then [] else iov[0] + Flat(iov[1..])
  }

  lemma {:induction false} FlatAppend(iov: seq<seq<byte>>, v: seq<byte>)
    ensures Flat(iov + [v]) == Flat(iov) + v
    decreases |iov|
  {
    if iov == [] {
      assert iov + [v] == [v] && [v][1..] == [];
      assert v + [] == v && [] + v == v;
    } else {
      FlatAppend(iov[1..], v);
      assert (iov + [v])[1..] == iov[1..] + [v];
      assert (iov[0] + Flat(iov[1..])) + v == iov[0] + (Flat(iov[1..]) + v);
    }
  }

  lemma {:induction false} ArgsStep(args: seq<Arg>, i: nat)
    requires i < |args|
    ensures Chars(args[i..]) == (if args[i].Chr? then 1 else 0) + Chars(args[i + 1..])
    ensures Payload(args[i..]) == ArgBytes(args[i]) + Payload(args[i + 1..])
  {
    assert args[i..][1..] == args[i + 1..];
  }

  /** to_binary_iov(): one vector for each argument; None when the arguments are too many. */
  method ToBinaryIov(args: seq<Arg>, maxiov: nat, worksz: nat) returns (r: Option<seq<seq<byte>>>)
    ensures r.Some? <==> |args| <= maxiov && Chars(args) <= worksz
    ensures r.Some? ==> Flat(r.value) == Payload(args)
  {
    var iov: seq<seq<byte>> := [];
    var worklen := 0;
    var i := 0;
    assert args[0..] == args && [] + Payload(args) == Payload(args);
    while i < |args|
      invariant i <= |args| && |iov| == i <= maxiov && worklen <= worksz
      invariant worklen + Chars(args[i..]) == Chars(args)
      invariant Flat(iov) + Payload(args[i..]) == Payload(args)
    {
      hide Chars, Payload, Flat;
      ArgsStep(args, i);
      if |iov| >= maxiov {
        return None;
      }
      if args[i].Chr? {
        if worklen >= worksz {
          return None;
        }
        worklen := worklen + 1;
      }
      FlatAppend(iov, ArgBytes(args[i]));
      Associates(Flat(iov), ArgBytes(args[i]), Payload(args[i + 1..]));
      iov := iov + [ArgBytes(args[i])];
      i := i + 1;
    }
    assert args[i..] == [];
    return Some(iov);
  }

  /** The packet that output_binary() sends. */
  function Packet(msg: byte, data: seq<byte>): (r: seq<byte>)
    requires |data| <= 0xffff
    ensures |r| == 3 + |data| && PktLen(r) == |data|
  {
    [msg, |data| / 256, |data| % 256] + data
  }

  predicate BinarySendable(args: seq<Arg>)
  {
    |args| <= 9 && Chars(args) <= 16 && |Payload(args)| <= 0xffff
  }

  /** output_binary() */
  method OutputBinary(msg: byte, args: seq<Arg>) returns (r: Option<seq<byte>>)
    ensures r == if BinarySendable(args) then Some(Packet(msg, Payload(args))) else None
    ensures r.Some? ==>
              |r.value| >= 3 && r.value[0] == msg && r.value[1] as int * 256 + r.value[2] as int == |Payload(args)| &&
              r.value[3..] == Payload(args)
  {
    var iov := ToBinaryIov(args, 9, 16);
    if iov.None? {
      return None;
    }
    var data := Flat(iov.value);
    var sz := |data|;
    if sz > 0xffff {
      return None;
    }
    return Some([msg, sz / 256 % 256, sz % 256] + data);
  }

  predicate FramedSendable(args: seq<Arg>)
  {
    |args| <= 7 && Chars(args) <= 8
  }

  /** output_framed() */
  method OutputFramed(msg: byte, args: seq<Arg>) returns (r: Option<seq<byte>>)
    ensures r == if FramedSendable(args) then Some([msg] + Payload(args)) else None
  {
    var iov := ToBinaryIov(args, 7, 8);
    if iov.None? {
      return None;
    }
    return Some([msg] + Flat(iov.value));
  }

  // ---- decoders -----------------------------------------------------------------------------------

  /** recv_framed() on data: exactly one message for each read. */
  function RecvFramed(net: seq<byte>): (r: Msg)
  {
    if net == [] then Msg(MSG_EOF, []) else Msg(net[0], net[1..])
  }

  datatype Mode = Unknown | Binary | Text | Framed

  /** First-byte detection in proto_recv(); the comparison is on signed chars. */
  function Detect(b: byte): (r: Mode)
  {
    if b == 0x0a || b == 0x0d || b == 0x20 || 0x40 <= b <= 0x7e then Text else Binary
  }

  /** The byte as a signed char. */
  function Signed(b: byte): (r: int)
    ensures -128 <= r < 128 && (r - b) % 256 == 0
  {
    if b < 128 then b else b as int - 256
  }

  /** Text is what begins with LF, CR, a space or a char from 0x40 to the tilde; bytes from 0x80 on are
      negative chars. */
  lemma {:induction false} DetectSigned(b: byte)
    ensures Detect(b) == (if Signed(b) in {10, 13, 32} || 0x40 <= Signed(b) <= 126 then Text else Binary)
  {
  }

  // ---- agreement ------------------------------------------------------------------------------------

  /** recv_binary() inverts output_binary(), whatever follows on the stream. */
  lemma {:induction false} PacketParses(msg: byte, data: seq<byte>, rest: seq<byte>)
    requires |data| <= MAX_PAYLOAD
    ensures Parse(Packet(msg, data) + rest) == Before([Msg(msg, data)], Parse(rest))
  {
    var s := Packet(msg, data) + rest;
    assert PktLen(s) == PktLen(Packet(msg, data));
    assert s[3..3 + |data|] == data && s[3 + |data|..] == rest;
    ParsePacket(s);
  }

  /** An id, a big-endian length and that many bytes are one message, whatever follows. */
  lemma {:induction false} FrameParses(id: byte, hi: byte, lo: byte, data: seq<byte>, rest: seq<byte>)
    requires |data| == hi as int * 256 + lo as int <= MAX_PAYLOAD
    ensures Parse([id, hi, lo] + data + rest) == Before([Msg(id, data)], Parse(rest))
  {
    hide Parse;
    assert [id, hi, lo] + data == Packet(id, data);
    PacketParses(id, data, rest);
  }

  /** A larger payload is never received. */
  lemma {:induction false} PacketTooBig(msg: byte, data: seq<byte>, rest: seq<byte>)
    requires MAX_PAYLOAD < |data| <= 0xffff
    ensures Parse(Packet(msg, data) + rest) == Broken([])
  {
    var s := Packet(msg, data) + rest;
    assert PktLen(s) == PktLen(Packet(msg, data));
  }

  function Packets(ms: seq<Msg>): (r: seq<byte>)
    requires forall k :: 0 <= k < |ms| ==> |ms[k].data| <= MAX_PAYLOAD
  {
    if ms == [] then [] else Packet(ms[0].id, ms[0].data) + Packets(ms[1..])
  }

  /** Binary round trip over any fragmentation: the messages that were sent, in order. */
  lemma {:induction false} BinaryRoundTrip(ms: seq<Msg>, chunks: seq<seq<byte>>)
    requires forall k :: 0 <= k < |ms| ==> |ms[k].data| <= MAX_PAYLOAD
    requires Concat(chunks) == Packets(ms)
    ensures Receive(chunks) == Pending(ms, [])
  {
    ReassemblyIgnoresSplit(chunks);
    PacketsParse(ms);
  }

  lemma {:induction false} PacketsParse(ms: seq<Msg>)
    requires forall k :: 0 <= k < |ms| ==> |ms[k].data| <= MAX_PAYLOAD
    ensures Parse(Packets(ms)) == Pending(ms, [])
    decreases |ms|
  {
    if ms != [] {
      PacketsParse(ms[1..]);
      hide Parse, Packet;
      PacketParses(ms[0].id, ms[0].data, Packets(ms[1..]));
      assert ms == [Msg(ms[0].id, ms[0].data)] + ms[1..];
    }
  }

  /** Receiving text chunk after chunk. */
  function FeedChunks(v: TextProto.View, chunks: seq<seq<byte>>, rs: seq<seq<int>>): (r: TextProto.Turn)
    requires TextProto.ValidView(v) && |chunks| == |rs|
    requires forall k :: 0 <= k < |chunks| ==> |chunks[k]| == |rs[k]|
    ensures TextProto.ValidView(r.v) && r.verdict != TextProto.Again
  {
    if chunks == [] then TextProto.Turn(v, TextProto.Wait, [])
    else
      var n := |chunks| - 1;
      var t := FeedChunks(v, chunks[..n], rs[..n]);
      if t.verdict.Stop? then t
      else
        var u := TextProto.Feed(t.v, chunks[n], rs[n]);
        u.(events := t.events + u.events)
  }

  function ConcatReplies(rs: seq<seq<int>>): (r: seq<int>)
  {
    if rs == [] then [] else ConcatReplies(rs[..|rs| - 1]) + rs[|rs| - 1]
  }

  lemma {:induction false} FeedIgnoresSplit(v: TextProto.View, chunks: seq<seq<byte>>, rs: seq<seq<int>>)
    requires TextProto.ValidView(v) && |chunks| == |rs|
    requires forall k :: 0 <= k < |chunks| ==> |chunks[k]| == |rs[k]|
    ensures |Concat(chunks)| == |ConcatReplies(rs)|
    ensures FeedChunks(v, chunks, rs) == TextProto.Feed(v, Concat(chunks), ConcatReplies(rs))
    decreases |chunks|
  {
    if chunks != [] {
      var n := |chunks| - 1;
      FeedIgnoresSplit(v, chunks[..n], rs[..n]);
      hide TextProto.Feed, TextProto.ValidView;
      TextProto.FeedSplit(v, Concat(chunks[..n]), chunks[n], ConcatReplies(rs[..n]), rs[n]);
    }
  }

  /** A message of the table reaches on_input() as the same <msg, payload> in each wire form, under any
      fragmentation of the two stream forms, and the first byte tells those two apart. */
  lemma {:induction false} WireTransparency(m: Message, packets: seq<seq<byte>>, lines: seq<seq<byte>>, rs: seq<seq<int>>)
    requires Sendable(m) && |Payload(m.args)| <= MAX_PAYLOAD
    requires !Bare(m)
    requires Concat(packets) == Packet(m.msg, Payload(m.args)) && Concat(lines) == Line(m.msg, m.args).value
    requires |lines| == |rs| && forall k :: 0 <= k < |lines| ==> |lines[k]| == |rs[k]|
    requires Positive(ConcatReplies(rs))
    ensures Receive(packets) == Pending([Msg(m.msg, Payload(m.args))], [])
    ensures FeedChunks(TextProto.Bol, lines, rs) ==
              TextProto.Turn(TextProto.Bol, TextProto.Wait, [TextProto.Input(m.msg, Payload(m.args))])
    ensures RecvFramed([m.msg] + Payload(m.args)) == Msg(m.msg, Payload(m.args))
    ensures Detect(Concat(packets)[0]) == Binary && Line(m.msg, m.args).value != [] && Detect(Concat(lines)[0]) == Text
  {
    hide TextProto.CMDTAB, TextProto.Feed, Parse, Payload, Line;
    var data := Payload(m.args);
    ReassemblyIgnoresSplit(packets);
    PacketParses(m.msg, data, []);
    assert Packet(m.msg, data) + [] == Packet(m.msg, data);
    EmptyParses();
    FeedIgnoresSplit(TextProto.Bol, lines, rs);
    TextRoundTrip(m, ConcatReplies(rs));
    FirstBytes(m);
    assert ([m.msg] + data)[1..] == data;
  }

  lemma {:induction false} EmptyParses()
    ensures Parse([]) == Pending([], [])
  {
  }

  /** First bytes: ids of table messages are binary, command words are text. */
  lemma {:induction false} FirstBytes(m: Message)
    requires Sendable(m)
    ensures Detect(m.msg) == Binary && Line(m.msg, m.args).value != [] && Detect(Line(m.msg, m.args).value[0]) == Text
  {
    var j := Entry(m.msg, 0).value;
    WordShape(j);
    TableIds(j);
  }

  lemma {:induction false} TableIds(k: nat)
    requires k < |TextProto.CMDTAB|
    ensures Detect(TextProto.CMDTAB[k].id) == Binary
  {
    if k < 7 {
    } else if k < 14 {
    } else {
    }
  }
}
