/** A connection's protocol state (lib/proto.c): bytes go to the decoder that detection selects, and
    messages to the encoder of the same mode. */
module Protos {
  import opened Bytes
  import opened RxBufs
  import opened BinProto
  import TextProto
  import opened TextCodec
  import TextDecoders
  import TypedLines
  import opened Wire

  /** The messages among what the text decoder hands on. */
  function MsgsOf(events: seq<TextProto.Event>): (r: seq<Msg>)
  {
    if events == [] then []
    else
      var n := |events| - 1;
      MsgsOf(events[..n]) + (if events[n].Input? then [Msg(events[n].msg, events[n].data)] else [])
  }

  /** The first n values of f. */
  function Fill(n: nat, f: nat -> int): (r: seq<int>)
    ensures |r| == n && forall k :: 0 <= k < n ==> r[k] == f(k)
  {
    if n == 0 then [] else Fill(n - 1, f) + [f(n - 1)]
  }

  /** What on_input() is to get for a message. */
  function Sent(ms: seq<Message>): (r: seq<Msg>)
    ensures |r| == |ms| && forall k :: 0 <= k < |ms| ==> r[k] == Msg(ms[k].msg, Payload(ms[k].args))
  {
    if ms == [] then [] else Sent(ms[..|ms| - 1]) + [Msg(ms[|ms| - 1].msg, Payload(ms[|ms| - 1].args))]
  }

  lemma {:induction false} InputsAreSent(ms: seq<Message>)
    ensures MsgsOf(Inputs(ms)) == Sent(ms)
  {
    if ms != [] {
      var n := |ms| - 1;
      InputsAreSent(ms[..n]);
      assert Inputs(ms)[..n] == Inputs(ms[..n]);
    }
  }

  /** A message that every encoder sends and every decoder accepts. */
  predicate Portable(m: Message)
  {
    Sendable(m) && !Bare(m) && |Payload(m.args)| <= MAX_PAYLOAD && BinarySendable(m.args)
  }

  lemma {:induction false} PortableSends(ms: seq<Message>)
    requires forall k :: 0 <= k < |ms| ==> Portable(ms[k])
    ensures forall k :: 0 <= k < |ms| ==> Sendable(ms[k]) && !Bare(ms[k])
    ensures |Sent(ms)| == |ms| && forall k :: 0 <= k < |ms| ==> |Sent(ms)[k].data| <= MAX_PAYLOAD
  {
    hide Sendable, Bare, Payload;
    forall k | 0 <= k < |ms| ensures |Sent(ms)[k].data| <= MAX_PAYLOAD { assert Portable(ms[k]); }
    forall k | 0 <= k < |ms| ensures Sendable(ms[k]) && !Bare(ms[k]) {
      assert Portable(ms[k]);
    }
  }

  /** The bytes that the two stream forms send for some messages. */
  function StreamOf(mode: Mode, ms: seq<Message>): (r: seq<byte>)
    requires (mode == Binary || mode == Text) && forall k :: 0 <= k < |ms| ==> Portable(ms[k])
  {
    PortableSends(ms);
    if mode == Text then Lines(ms) else Packets(Sent(ms))
  }

  class Proto {
    var mode: Mode
    const text: TextDecoders.TextDecoder
    const bin: BinDecoder
    /** What came in frames, and how often the handler was told of a closed connection. */
    var frames: seq<Msg>
    var eofs: nat

    /** All objects but this one that receiving writes to; the two decoders share nothing. */
    ghost predicate Apart()
      reads this, text, text.rx, bin, bin.rx
    {
      text.rx != bin.rx && text.rx.buf != bin.rx.buf && text.cmd != bin.rx.buf && text.cmd != text.rx.buf
    }

    ghost predicate Valid()
      reads this, text, text.cmd, text.rx, text.rx.buf, bin, bin.rx, bin.rx.buf
    {
      text.Valid() && bin.Valid() && Apart()
    }

    /** The messages that on_input() has got. */
    function Log(): (r: seq<Msg>)
      reads this, text, bin
    {
      match mode
      case Unknown => []
      case Binary => bin.log
      case Text => MsgsOf(text.log)
      case Framed => frames
    }

    /** proto_new(), with proto_set_mode() to mode. */
    constructor (mode: Mode)
      ensures Valid() && this.mode == mode && Log() == [] && eofs == 0
      ensures text.View() == TextProto.Bol && text.log == [] && bin.rx.Contents() == [] && bin.log == [] && frames == []
      ensures fresh(text) && fresh(text.cmd) && fresh(text.rx) && fresh(text.rx.buf) && fresh(bin) && fresh(bin.rx) && fresh(bin.rx.buf)
    {
      this.mode := mode;
      text := new TextDecoders.TextDecoder();
      bin := new BinDecoder();
      frames, eofs := [], 0;
    }

    /** proto_recv(). In text mode reply(k) is what the handler returns for a command that byte k
        completes, and otherwise for its k-th message. */
    method Recv(net: seq<byte>, reply: nat -> int) returns (ret: int)
      requires Valid()
      modifies this, text, text.cmd, text.rx, text.rx.buf, bin`log, bin.rx, bin.rx.buf
      ensures net == [] ==> Valid() && ret == 0 && mode == old(mode) && Log() == old(Log()) && eofs == old(eofs) + 1
      ensures net != [] ==> eofs == old(eofs) && mode == (if old(mode) == Unknown then Detect(net[0]) else old(mode))
      ensures text.rx.buf == old(text.rx.buf) || fresh(text.rx.buf)
      ensures bin.rx.buf == old(bin.rx.buf) || fresh(bin.rx.buf)
      ensures net != [] && mode == Text ==>
                var t := TextProto.Feed(old(text.View()), net, Fill(|net|, reply));
                Valid() && text.View() == t.v && text.log == old(text.log) + t.events && bin.log == old(bin.log) &&
                ret == if t.verdict.Stop? then t.verdict.ret else |net|
      ensures net != [] && mode == Binary ==>
                (exists msgs :: bin.log == old(bin.log) + msgs && msgs <= Parse(old(bin.rx.Contents()) + net).msgs) &&
                (ret > 0 ==> Valid()) && text.log == old(text.log)
      ensures net != [] && mode == Binary && (forall k :: reply(k) > 0) ==>
                var t := Parse(old(bin.rx.Contents()) + net);
                bin.log == old(bin.log) + t.msgs && (t.Broken? <==> ret <= 0) && (t.Pending? ==> bin.rx.Contents() == t.rest)
      ensures net != [] && mode == Framed ==> Valid() && frames == old(frames) + [RecvFramed(net)] && ret == reply(|old(frames)|)
    {
      hide TextProto.Feed, TextProto.ValidView, Parse, Partial, MsgsOf;
      if net == [] {
        eofs := eofs + 1;
        return 0;
      }
      if mode == Unknown {
        var ch := net[0];
        if ch == 0x0a || ch == 0x0d || ch == 0x20 || (0x40 <= ch <= 0x7e) {
          mode := Text;
        } else {
          mode := Binary;
        }
      }
      match mode {
        case Binary =>
          ret := bin.RecvBinary(net, reply);
        case Text =>
          ret := text.RecvText(net, Fill(|net|, reply));
        case Framed =>
          ret := reply(|frames|);
          frames := frames + [RecvFramed(net)];
      }
    }

    /** A new connection's fragments, none of them empty, as long as they are accepted; the handler always
        returns something positive. */
    method RecvAll(chunks: seq<seq<byte>>, reply: nat -> nat -> int) returns (ret: int)
      requires Valid() && Fresh() && (forall k :: 0 <= k < |chunks| ==> chunks[k] != []) && forall i, k :: reply(i)(k) > 0
      modifies this, text, text.cmd, text.rx, text.rx.buf, bin`log, bin.rx, bin.rx.buf
      ensures chunks != [] ==> mode == Detect(chunks[0][0])
      ensures mode == Binary ==>
                var t := Receive(chunks);
                if t.Broken? then ret <= 0 && bin.log == t.msgs else ret > 0 && Valid() && t == Pending(bin.log, bin.rx.Contents())
      ensures mode == Text ==>
                var t := FeedChunks(TextProto.Bol, chunks, Replies(chunks, reply));
                Valid() && text.log == t.events && text.View() == t.v && (t.verdict.Stop? <==> ret <= 0)
    {
      hide TextProto.ValidView, TextProto.Feed, Parse, MsgsOf, FeedChunks, Receive, Replies;
      ret := 1;
      ghost var rs := Replies(chunks, reply);
      RepliesAt(chunks, reply);
      Starts(chunks, rs);
      var i := 0;
      while i < |chunks|
        invariant 0 <= i <= |chunks| && Valid() && ret > 0
        invariant if i == 0 then Fresh() else mode == Detect(chunks[0][0])
        invariant text.rx.buf == old(text.rx.buf) || fresh(text.rx.buf)
        invariant bin.rx.buf == old(bin.rx.buf) || fresh(bin.rx.buf)
        invariant mode != Text ==> Receive(chunks[..i]) == Pending(bin.log, bin.rx.Contents())
        invariant mode != Binary ==>
                    FeedChunks(TextProto.Bol, chunks[..i], rs[..i]) == TextProto.Turn(text.View(), TextProto.Wait, text.log)
        decreases |chunks| - i
      {
        ReceiveNext(chunks, i);
        FeedChunksNext(chunks, rs, i);
        TextDecoders.FeedVerdict(text.View(), chunks[i], rs[i]);
        ret := Recv(chunks[i], reply(i));
        i := i + 1;
        if ret <= 0 {
          if mode == Binary { ReceiveStops(chunks, i); } else { FeedChunksStops(chunks, rs, i); }
          return;
        }
      }
      assert chunks[..|chunks|] == chunks && rs[..|chunks|] == rs;
    }

    /** proto_outputv(): the first message sent selects binary, and each goes to the encoder of the mode. */
    method Output(msg: byte, args: seq<Arg>) returns (r: Option<seq<byte>>)
      modifies this`mode
      ensures mode == if old(mode) == Unknown then Binary else old(mode)
      ensures mode == Binary ==> r == if BinarySendable(args) then Some(Packet(msg, Payload(args))) else None
      ensures mode == Text ==> r == Line(msg, args)
      ensures mode == Framed ==> r == if FramedSendable(args) then Some([msg] + Payload(args)) else None
    {
      if mode == Unknown {
        mode := Binary;
      }
      match mode {
        case Binary => r := OutputBinary(msg, args);
        case Text => r := OutputText(msg, args);
        case Framed => r := OutputFramed(msg, args);
      }
    }

    /** Some messages, one after the other, on a stream. */
    method SendAll(ms: seq<Message>) returns (stream: seq<byte>)
      requires mode != Framed && forall k :: 0 <= k < |ms| ==> Portable(ms[k])
      modifies this`mode
      ensures ms != [] ==> mode == if old(mode) == Unknown then Binary else old(mode)
      ensures if ms == [] then stream == [] else (mode == Binary || mode == Text) && stream == StreamOf(mode, ms)
    {
      hide StreamOf, Portable, Payload, Line;
      stream := [];
      for i := 0 to |ms|
        invariant if i == 0 then mode == old(mode) && stream == [] else
                    mode == (if old(mode) == Unknown then Binary else old(mode)) && stream == StreamOf(mode, ms[..i])
      {
        var bytes := Output(ms[i].msg, ms[i].args);
        StreamNext(mode, ms, i);
        StreamStart(mode);
        stream := stream + bytes.value;
      }
      assert ms[..|ms|] == ms;
    }

    /** As made by the constructor for a mode that is not known yet. */
    ghost predicate Fresh()
      requires Valid()
      reads this, text, text.cmd, text.rx, text.rx.buf, bin, bin.rx, bin.rx.buf
    {
      mode == Unknown && text.View() == TextProto.Bol && text.log == [] && bin.rx.Contents() == [] && bin.log == []
    }
  }

  // ---- streams --------------------------------------------------------------------------------------

  lemma {:induction false} StreamStart(mode: Mode)
    requires mode == Binary || mode == Text
    ensures StreamOf(mode, []) == []
  {
  }

  lemma {:induction false} PacketsSnoc(ms: seq<Msg>, m: Msg)
    requires (forall k :: 0 <= k < |ms| ==> |ms[k].data| <= MAX_PAYLOAD) && |m.data| <= MAX_PAYLOAD
    ensures Packets(ms + [m]) == Packets(ms) + Packet(m.id, m.data)
    decreases |ms|
  {
    hide Packet;
    if ms == [] {
      assert [] + [m] == [m] && [m][1..] == [];
      assert Packets([m]) == Packet(m.id, m.data) + [];
    } else {
      assert (ms + [m])[0] == ms[0] && (ms + [m])[1..] == ms[1..] + [m];
      PacketsSnoc(ms[1..], m);
      Associates(Packet(ms[0].id, ms[0].data), Packets(ms[1..]), Packet(m.id, m.data));
    }
  }

  lemma {:induction false} PortableOne(m: Message)
    requires Portable(m)
    ensures Line(m.msg, m.args).Some? && BinarySendable(m.args) && |Payload(m.args)| <= MAX_PAYLOAD
  {
  }

  lemma {:induction false} StreamNext(mode: Mode, ms: seq<Message>, i: nat)
    requires (mode == Binary || mode == Text) && i < |ms| && forall k :: 0 <= k < |ms| ==> Portable(ms[k])
    ensures Line(ms[i].msg, ms[i].args).Some? && BinarySendable(ms[i].args) && |Payload(ms[i].args)| <= MAX_PAYLOAD
    ensures var m := ms[i];
            StreamOf(mode, ms[..i + 1]) ==
              StreamOf(mode, ms[..i]) + if mode == Text then Line(m.msg, m.args).value else Packet(m.msg, Payload(m.args))
  {
    hide Portable, Payload, Line, Packet, Packets;
    var m, a, b := ms[i], ms[..i], ms[..i + 1];
    assert forall k :: 0 <= k < |b| ==> b[k] == ms[k];
    PortableOne(m);
    PortableSends(a);
    PortableSends(b);
    assert b[..i] == a && b[i] == m;
    if mode == Binary {
      assert Sent(b) == Sent(a) + [Msg(m.msg, Payload(m.args))];
      PacketsSnoc(Sent(a), Msg(m.msg, Payload(m.args)));
    }
  }

  lemma {:induction false} StreamFirst(mode: Mode, ms: seq<Message>)
    requires (mode == Binary || mode == Text) && ms != [] && forall k :: 0 <= k < |ms| ==> Portable(ms[k])
    ensures StreamOf(mode, ms) != [] && Detect(StreamOf(mode, ms)[0]) == mode
    decreases |ms|
  {
    hide Portable, Payload, Line, StreamOf, Detect;
    var n := |ms| - 1;
    assert ms[..n + 1] == ms;
    StreamNext(mode, ms, n);
    if n == 0 {
      assert ms[..0] == [];
      StreamStart(mode);
      FirstOf(ms[0]);
    } else {
      StreamFirst(mode, ms[..n]);
    }
  }

  lemma {:induction false} FirstOf(m: Message)
    requires Portable(m)
    ensures Line(m.msg, m.args).Some? && |Payload(m.args)| <= 0xffff
    ensures Detect(Packet(m.msg, Payload(m.args))[0]) == Binary
    ensures Line(m.msg, m.args).value != [] && Detect(Line(m.msg, m.args).value[0]) == Text
  {
    hide Line, Payload, Detect;
    PortableOne(m);
    FirstBytes(m);
  }

  lemma {:induction false} ChunksFirst(chunks: seq<seq<byte>>)
    requires chunks != [] && forall k :: 0 <= k < |chunks| ==> chunks[k] != []
    ensures Concat(chunks) != [] && Concat(chunks)[0] == chunks[0][0]
    decreases |chunks|
  {
    var n := |chunks| - 1;
    if n > 0 { ChunksFirst(chunks[..n]); }
  }

  lemma {:induction false} RepliesPositive(chunks: seq<seq<byte>>, reply: nat -> nat -> int)
    requires forall i, k :: reply(i)(k) > 0
    ensures Positive(ConcatReplies(Replies(chunks, reply)))
    decreases |chunks|
  {
    if chunks != [] {
      var n := |chunks| - 1;
      var rs := Replies(chunks, reply);
      assert rs[..n] == Replies(chunks[..n], reply);
      RepliesPositive(chunks[..n], reply);
      RepliesAt(chunks, reply);
      var a, b := ConcatReplies(rs[..n]), rs[n];
      forall k | 0 <= k < |b| ensures b[k] > 0 { assert b[k] == reply(n)(k); }
      forall k | 0 <= k < |a + b| ensures (a + b)[k] > 0 { assert (a + b)[k] == if k < |a| then a[k] else b[k - |a|]; }
    }
  }

  /** The two ends of a connection: whatever the sender's mode, and however its stream is cut into
      fragments, the receiver detects the mode and its handler gets the messages that were sent. */
  method Converse(mode: Mode, ms: seq<Message>, cut: seq<byte> -> seq<seq<byte>>, reply: nat -> nat -> int) returns (r: Proto)
    requires mode != Framed && ms != [] && forall k :: 0 <= k < |ms| ==> Portable(ms[k])
    requires forall s :: Cuts(s, cut(s))
    requires forall i, k :: reply(i)(k) > 0
    ensures r.Valid() && r.mode == (if mode == Unknown then Binary else mode) && r.Log() == Sent(ms)
  {
    hide StreamOf, Portable, MsgsOf, Detect, Concat, Sent, Receive, FeedChunks, Replies, TextProto.ValidView, Partial;
    var p := new Proto(mode);
    var stream := p.SendAll(ms);
    StreamFirst(p.mode, ms);
    r := new Proto(Unknown);
    var chunks := cut(stream);
    assert Cuts(stream, chunks);
    assert chunks != [] by { NoChunks(chunks); }
    ChunksFirst(chunks);
    var ret := r.RecvAll(chunks, reply);
    Received(r.mode, ms, chunks, reply);
  }

  /** A line that somebody types into a new connection, however it is cut into fragments: the decoder for text
      is selected, and hands on that command with those arguments, or one error. */
  method Type(j: nat, lead: nat, typed: seq<byte>, ps: seq<TypedLines.Piece>, trail: nat, eol: byte,
              cut: seq<byte> -> seq<seq<byte>>, reply: nat -> nat -> int)
    returns (r: Proto)
    requires j < |TextProto.CMDTAB| && TypedLines.EitherCase(TextProto.CMDTAB[j].word, typed)
    requires TypedLines.AllWritten(ps) && TypedLines.Typable(TextProto.CMDTAB[j].fmt, ps) && TextProto.IsEol(eol)
    requires |TypedLines.Tail(ps, trail, eol)| + 6 < LIMIT
    requires forall s :: Cuts(s, cut(s))
    requires forall i, k :: reply(i)(k) > 0
    ensures var e := TextProto.CMDTAB[j];
            r.Valid() && r.mode == Text && r.text.log == TypedLines.Ends([e.id], TypedLines.Reads(e.fmt, false, ps)).events
  {
    hide Detect, Concat, FeedChunks, Replies, Receive, Partial, MsgsOf, TextProto.ValidView, TextProto.CMDTAB, TypedLines.EitherCase;
    hide TypedLines.Tail, TypedLines.Spaces, TypedLines.Typable, TypedLines.Reads, TypedLines.Ends, TextProto.Feed, ConcatReplies;
    var line := TypedLines.Spaces(lead) + typed + TypedLines.Tail(ps, trail, eol);
    TypedLines.TypedIsText(j, lead, typed, TypedLines.Tail(ps, trail, eol));
    r := new Proto(Unknown);
    var chunks := cut(line);
    assert Cuts(line, chunks);
    assert chunks != [] by { NoChunks(chunks); }
    ChunksFirst(chunks);
    ghost var rs := Replies(chunks, reply);
    RepliesAt(chunks, reply);
    FeedIgnoresSplit(TextProto.Bol, chunks, rs);
    RepliesPositive(chunks, reply);
    TypedLines.TypedLine(j, lead, typed, ps, trail, eol, ConcatReplies(rs));
    var ret := r.RecvAll(chunks, reply);
  }

  ghost predicate Cuts(s: seq<byte>, chunks: seq<seq<byte>>)
  {
    Concat(chunks) == s && forall k :: 0 <= k < |chunks| ==> chunks[k] != []
  }

  lemma {:induction false} NoChunks(chunks: seq<seq<byte>>)
    ensures chunks == [] ==> Concat(chunks) == []
  {
  }

  /** What the two stream forms come to at the other end. */
  lemma {:induction false} Received(mode: Mode, ms: seq<Message>, chunks: seq<seq<byte>>, reply: nat -> nat -> int)
    requires (mode == Binary || mode == Text) && forall k :: 0 <= k < |ms| ==> Portable(ms[k])
    requires Concat(chunks) == StreamOf(mode, ms) && forall i, k :: reply(i)(k) > 0
    ensures mode == Binary ==> Receive(chunks) == Pending(Sent(ms), [])
    ensures |Replies(chunks, reply)| == |chunks| && forall k :: 0 <= k < |chunks| ==> |chunks[k]| == |Replies(chunks, reply)[k]|
    ensures mode == Text ==>
              var t := FeedChunks(TextProto.Bol, chunks, Replies(chunks, reply));
              t.v == TextProto.Bol && t.verdict == TextProto.Wait && MsgsOf(t.events) == Sent(ms)
  {
    hide Portable, MsgsOf, Sent, Receive, FeedChunks, Replies, Lines, Inputs, Packets, ConcatReplies, TextProto.Feed, Concat, Positive;
    PortableSends(ms);
    RepliesAt(chunks, reply);
    if mode == Binary {
      BinaryRoundTrip(Sent(ms), chunks);
    } else {
      var rs := Replies(chunks, reply);
      FeedIgnoresSplit(TextProto.Bol, chunks, rs);
      RepliesPositive(chunks, reply);
      StreamRoundTrip(ms, ConcatReplies(rs));
      InputsAreSent(ms);
    }
  }

  // ---- fragments one by one -------------------------------------------------------------------------

  function Replies(chunks: seq<seq<byte>>, reply: nat -> nat -> int): (r: seq<seq<int>>)
    ensures |r| == |chunks| && forall k :: 0 <= k < |chunks| ==> |r[k]| == |chunks[k]|
  {
    if chunks == [] then []
    else
      var n := |chunks| - 1;
      Replies(chunks[..n], reply) + [Fill(|chunks[n]|, reply(n))]
  }

  lemma {:induction false} RepliesAt(chunks: seq<seq<byte>>, reply: nat -> nat -> int)
    ensures |Replies(chunks, reply)| == |chunks|
    ensures forall i :: 0 <= i < |chunks| ==> Replies(chunks, reply)[i] == Fill(|chunks[i]|, reply(i))
  {
    hide Fill;
    if chunks != [] { RepliesAt(chunks[..|chunks| - 1], reply); }
  }

  lemma {:induction false} Starts(chunks: seq<seq<byte>>, rs: seq<seq<int>>)
    requires |chunks| == |rs| && forall k :: 0 <= k < |chunks| ==> |chunks[k]| == |rs[k]|
    ensures Receive(chunks[..0]) == Pending([], [])
    ensures FeedChunks(TextProto.Bol, chunks[..0], rs[..0]) == TextProto.Turn(TextProto.Bol, TextProto.Wait, [])
  {
  }

  lemma {:induction false} ReceiveNext(chunks: seq<seq<byte>>, i: nat)
    requires i < |chunks|
    ensures Receive(chunks[..i]).Broken? ==> Receive(chunks[..i + 1]) == Receive(chunks[..i])
    ensures var t := Receive(chunks[..i]); t.Pending? ==> Receive(chunks[..i + 1]) == Before(t.msgs, Parse(t.rest + chunks[i]))
  {
    hide Parse;
    assert chunks[..i + 1][..i] == chunks[..i];
  }

  lemma {:induction false} ReceiveStops(chunks: seq<seq<byte>>, i: nat)
    requires i <= |chunks| && Receive(chunks[..i]).Broken?
    ensures Receive(chunks) == Receive(chunks[..i])
    decreases |chunks| - i
  {
    hide Receive, Parse;
    if i == |chunks| {
      assert chunks[..i] == chunks;
    } else {
      ReceiveNext(chunks, i);
      ReceiveStops(chunks, i + 1);
    }
  }

  lemma {:induction false} FeedChunksNext(chunks: seq<seq<byte>>, rs: seq<seq<int>>, i: nat)
    requires i < |chunks| == |rs| && forall k :: 0 <= k < |chunks| ==> |chunks[k]| == |rs[k]|
    ensures var t := FeedChunks(TextProto.Bol, chunks[..i], rs[..i]);
            FeedChunks(TextProto.Bol, chunks[..i + 1], rs[..i + 1]) ==
              if t.verdict.Stop? then t
              else var u := TextProto.Feed(t.v, chunks[i], rs[i]); u.(events := t.events + u.events)
  {
    hide TextProto.Feed, TextProto.ValidView;
    assert chunks[..i + 1][..i] == chunks[..i] && rs[..i + 1][..i] == rs[..i];
  }

  lemma {:induction false} FeedChunksStops(chunks: seq<seq<byte>>, rs: seq<seq<int>>, i: nat)
    requires i <= |chunks| == |rs| && forall k :: 0 <= k < |chunks| ==> |chunks[k]| == |rs[k]|
    requires FeedChunks(TextProto.Bol, chunks[..i], rs[..i]).verdict.Stop?
    ensures FeedChunks(TextProto.Bol, chunks, rs) == FeedChunks(TextProto.Bol, chunks[..i], rs[..i])
    decreases |chunks| - i
  {
    hide FeedChunks, TextProto.Feed;
    if i == |chunks| {
      assert chunks[..i] == chunks && rs[..i] == rs;
    } else {
      FeedChunksNext(chunks, rs, i);
      FeedChunksStops(chunks, rs, i + 1);
    }
  }
}
