/** The text protocol of lib/prototext.c: the command table, what one byte does to the decoder, and
    the encoder. */
module TextProto {
  import opened Bytes
  import opened RxBufs

  const SP: byte := 0x20
  const CR: byte := 0x0d
  const LF: byte := 0x0a
  const QUOTE: byte := 0x22
  const BACKSLASH: byte := 0x5c
  const ZERO: byte := 0x30

  const BAD_MSG: nat := 100
  const BAD_ARG: nat := 101
  const PSEUDO_HELP: byte := 0xfe

  /** The letters of a table format: i | t 0. */
  datatype Fmt = Int | Bar | Text | Nul

  datatype Command = Command(word: seq<byte>, id: byte, fmt: seq<Fmt>)

  /** cmdtab */
  const CMDTAB: seq<Command> := [
    Command([0x48, 0x45, 0x4c, 0x4c, 0x4f], 0x00, [Int, Bar, Text]),                // HELLO
    Command([0x53, 0x55, 0x42], 0x01, [Text]),                                      // SUB
    Command([0x53], 0x01, [Text]),                                                  // S
    Command([0x55, 0x4e, 0x53, 0x55, 0x42], 0x02, [Text]),                          // UNSUB
    Command([0x55], 0x02, [Text]),                                                  // U
    Command([0x52, 0x45, 0x41, 0x44], 0x03, [Text]),                                // READ
    Command([0x52], 0x03, [Text]),                                                  // R
    Command([0x57, 0x52, 0x49, 0x54, 0x45], 0x04, [Text, Bar, Nul, Text]),          // WRITE
    Command([0x57], 0x04, [Text, Bar, Nul, Text]),                                  // W
    Command([0x42, 0x45, 0x47, 0x49, 0x4e], 0x05, []),                              // BEGIN
    Command([0x42], 0x05, []),                                                      // B
    Command([0x43, 0x4f, 0x4d, 0x4d, 0x49, 0x54], 0x06, []),                        // COMMIT
    Command([0x43], 0x06, []),                                                      // C
    Command([0x50, 0x49, 0x4e, 0x47], 0x07, [Bar, Text]),                           // PING
    Command([0x50], 0x07, [Bar, Text]),                                             // P
    Command([0x56, 0x45, 0x52, 0x53, 0x49, 0x4f, 0x4e], 0x80, [Int, Bar, Text]),    // VERSION
    Command([0x49, 0x4e, 0x46, 0x4f], 0x81, [Text, Bar, Nul, Text]),                // INFO
    Command([0x50, 0x4f, 0x4e, 0x47], 0x82, [Bar, Text]),                           // PONG
    Command([0x45, 0x52, 0x52, 0x4f, 0x52], 0x83, [Int, Text]),                     // ERROR
    Command([0x48, 0x45, 0x4c, 0x50], PSEUDO_HELP, []),                             // HELP
    Command([0x48], PSEUDO_HELP, [])                                                // H
  ]

  function Upper(b: byte): (r: byte)
  {
    if 0x61 <= b <= 0x7a then b - 0x20 else b
  }

  /** strcasecmp() finds the table's upper-case word in what was typed. */
  predicate SameWord(word: seq<byte>, typed: seq<byte>)
  {
    |word| == |typed| && forall k :: 0 <= k < |word| ==> word[k] == Upper(typed[k])
  }

  lemma {:induction false} TableFormats(e: Command)
    requires e in CMDTAB
    ensures NoTwoBars(e.fmt) && |e.fmt| <= 4 && e.id != SP
  {
    var k :| 0 <= k < |CMDTAB| && CMDTAB[k] == e;
    TableShape(k);
  }

  /** The six formats that the table uses. */
  predicate KnownFormat(fmt: seq<Fmt>)
  {
    fmt == [] || fmt == [Text] || fmt == [Bar, Text] || fmt == [Int, Text] || fmt == [Int, Bar, Text] ||
    fmt == [Text, Bar, Nul, Text]
  }

  lemma {:induction false} TableShape(k: nat)
    requires k < |CMDTAB|
    ensures KnownFormat(CMDTAB[k].fmt) && CMDTAB[k].id != SP
  {
    if k < 7 {
    } else if k < 14 {
    } else {
    }
  }

  /** The first entry from i on that has the typed word. */
  function Lookup(typed: seq<byte>, i: nat): (r: Option<Command>)
    requires i <= |CMDTAB|
    ensures r.Some? ==> r.value in CMDTAB && SameWord(r.value.word, typed)
    decreases |CMDTAB| - i
  {
    if i == |CMDTAB| then None
    else if SameWord(CMDTAB[i].word, typed) then Some(CMDTAB[i])
    else Lookup(typed, i + 1)
  }

  // ---- decoding ---------------------------------------------------------------------------------

  /** What the decoder hands on: a message for on_input(), an ERROR reply, or the help text. */
  datatype Event = Input(msg: byte, data: seq<byte>) | ErrorOut(code: nat) | Help

  /** The decoder's state, each with only the fields that later bytes depend on: the packed command
      (id, then arguments), the rest of the format, and whether arguments are optional by now. */
  datatype View =
    | Error
    | Bol
    | Cmd(cmd: seq<byte>)
    | ArgSp(rx: seq<byte>, fmt: seq<Fmt>, opt: bool)
    | InInt(rx: seq<byte>, fmt: seq<Fmt>, opt: bool, val: nat)
    | StrBeg(rx: seq<byte>, fmt: seq<Fmt>, opt: bool)
    | Str(rx: seq<byte>, fmt: seq<Fmt>, opt: bool)
    | QStr(rx: seq<byte>, fmt: seq<Fmt>, opt: bool)
    | QOct(rx: seq<byte>, fmt: seq<Fmt>, opt: bool, val: nat, count: nat)

  predicate NoTwoBars(fmt: seq<Fmt>)
  {
    forall k :: 0 <= k < |fmt| - 1 ==> !(fmt[k] == Bar && fmt[k + 1] == Bar)
  }

  predicate Packed(rx: seq<byte>, fmt: seq<Fmt>)
  {
    rx != [] && |rx| <= LIMIT && rx[0] != SP && NoTwoBars(fmt) && |fmt| <= 4
  }

  predicate ValidView(v: View)
  {
    match v
    case Error => true
    case Bol => true
    case Cmd(cmd) => |cmd| < 16
    case ArgSp(rx, fmt, opt) => Packed(rx, fmt)
    case InInt(rx, fmt, opt, val) => Packed(rx, fmt) && val <= 255
    case StrBeg(rx, fmt, opt) => Packed(rx, fmt)
    case Str(rx, fmt, opt) => Packed(rx, fmt)
    case QStr(rx, fmt, opt) => Packed(rx, fmt)
    case QOct(rx, fmt, opt, val, count) => Packed(rx, fmt) && 1 <= count <= 3 && val < (if count == 3 then 1 else if count == 2 then 8 else 64)
  }

  /** How a turn of the switch ends: look at the same byte again, wait for the next one, or return
      a value that is not positive. */
  datatype Verdict = Again | Wait | Stop(ret: int)
  datatype Turn = Turn(v: View, verdict: Verdict, events: seq<Event>)

  predicate IsEol(ch: byte) { ch == CR || ch == LF }
  predicate IsDigit(ch: byte) { 0x30 <= ch <= 0x39 }
  predicate IsOctal(ch: byte) { 0x30 <= ch <= 0x37 }

  function Fails(code: nat): (r: Turn)
  {
    Turn(Error, Again, [ErrorOut(code)])
  }

  /** rxbuf_addc() onto the packed command; a full buffer is an unrecoverable error. */
  function Store(rx: seq<byte>, ch: byte, whole: View, next: View, verdict: Verdict): (r: Turn)
  {
    if |rx| < LIMIT then Turn(next, verdict, []) else Turn(whole, Stop(-1), [])
  }

  function CmdTurn(cmd: seq<byte>, ch: byte): (r: Turn)
    requires |cmd| < 16
    ensures ValidView(r.v)
  {
    if ch != SP && !IsEol(ch) then
      if |cmd| + 1 >= 16 then Fails(BAD_MSG) else Turn(Cmd(cmd + [ch]), Wait, [])
    else
      var e := Lookup(CStr(cmd), 0);
      if e.None? then Fails(BAD_MSG)
      else
        TableFormats(e.value);
        Turn(ArgSp([e.value.id], e.value.fmt, false), Again, [])
  }

  /** End of the command line: pass up the command, unless an argument is missing. reply is what the
      handler returns. */
  function EolTurn(rx: seq<byte>, fmt: seq<Fmt>, opt: bool, reply: int): (r: Turn)
    requires rx != []
  {
    if !opt && fmt != [] then Turn(Bol, Wait, [ErrorOut(BAD_ARG)])
    else if |rx| + 1 >= LIMIT then Turn(ArgSp(rx, fmt, opt), Stop(-1), [])
    else
      var event := if rx[0] == PSEUDO_HELP then Help else Input(rx[0], rx[1..]);
      if reply <= 0 then Turn(ArgSp(rx, fmt, opt), Stop(reply), [event]) else Turn(Bol, Wait, [event])
  }

  function ArgSpTurn(rx: seq<byte>, fmt: seq<Fmt>, opt: bool, ch: byte, reply: int): (r: Turn)
    requires Packed(rx, fmt)
    ensures ValidView(r.v)
  {
    if ch == SP then Turn(ArgSp(rx, fmt, opt), Wait, [])
    else
      var bar := fmt != [] && fmt[0] == Bar;
      var fmt1, opt1 := if bar then fmt[1..] else fmt, opt || bar;
      if IsEol(ch) then EolTurn(rx, fmt1, opt1, reply)
      else if fmt1 == [] then Fails(BAD_ARG)
      else
        match fmt1[0]
        case Int => Turn(InInt(rx, fmt1[1..], opt1, 0), Again, [])
        case Text => Turn(StrBeg(rx, fmt1[1..], opt1), Again, [])
        case Nul =>
          if |rx| < LIMIT then Turn(ArgSp(rx + [0], fmt1[1..], opt1), Again, []) else Turn(Error, Again, [])
        case Bar => assert false; Fails(BAD_ARG)
  }

  /** One turn of the switch in recv_text_1ch(). */
  function Micro(v: View, ch: byte, reply: int): (r: Turn)
    requires ValidView(v)
    ensures ValidView(r.v)
  {
    match v
    case Error => if IsEol(ch) then Turn(Bol, Wait, []) else Turn(Error, Wait, [])
    case Bol => if ch == SP || IsEol(ch) then Turn(Bol, Wait, []) else Turn(Cmd([]), Again, [])
    case Cmd(cmd) => CmdTurn(cmd, ch)
    case ArgSp(rx, fmt, opt) => ArgSpTurn(rx, fmt, opt, ch, reply)
    case InInt(rx, fmt, opt, val) =>
      if IsDigit(ch) then
        var n := val * 10 + (ch as int - 0x30);
        if n > 255 then Fails(BAD_MSG) else Turn(InInt(rx, fmt, opt, n), Wait, [])
      else Store(rx, val, v, ArgSp(rx + [val], fmt, opt), Again)
    case StrBeg(rx, fmt, opt) =>
      if ch == QUOTE then Turn(QStr(rx, fmt, opt), Wait, []) else Turn(Str(rx, fmt, opt), Again, [])
    case Str(rx, fmt, opt) =>
      if IsEol(ch) || (fmt != [] && ch == SP) then
        Turn(ArgSp(if fmt == [] then TrimSpace(rx) else rx, fmt, opt), Again, [])
      else Store(rx, ch, v, Str(rx + [ch], fmt, opt), Wait)
    case QStr(rx, fmt, opt) =>
      if IsEol(ch) then Turn(Bol, Wait, [ErrorOut(BAD_MSG)])
      else if ch == BACKSLASH then Turn(QOct(rx, fmt, opt, 0, 3), Wait, [])
      else if ch == QUOTE then Turn(ArgSp(rx, fmt, opt), Wait, [])
      else Store(rx, ch, v, QStr(rx + [ch], fmt, opt), Wait)
    case QOct(rx, fmt, opt, val, count) =>
      if !IsOctal(ch) then Fails(BAD_MSG)
      else
        var n := val * 8 + (ch as int - 0x30);
        if count > 1 then Turn(QOct(rx, fmt, opt, n, count - 1), Wait, [])
        else Store(rx, n % 256, v, QStr(rx + [n % 256], fmt, opt), Wait)
  }

  /** What a `goto again` or fall-through uses up: the rest of the format, then the kind of state. */
  function Rank(v: View): (r: nat)
  {
    match v
    case Bol => 101
    case Cmd(_) => 100
    case ArgSp(_, fmt, _) => 3 * |fmt| + 2
    case InInt(_, fmt, _, _) => 3 * |fmt| + 4
    case StrBeg(_, fmt, _) => 3 * |fmt| + 4
    case Str(_, fmt, _) => 3 * |fmt| + 3
    case QStr(_, _, _) => 2
    case QOct(_, _, _, _, _) => 2
    case Error => 1
  }

  lemma {:induction false} AgainDescends(v: View, ch: byte, reply: int)
    requires ValidView(v) && Micro(v, ch, reply).verdict == Again
    ensures Rank(Micro(v, ch, reply).v) < Rank(v)
  {
  }

  /** recv_text_1ch(): turns of the switch until the byte is used up. */
  function Recv(v: View, ch: byte, reply: int): (r: Turn)
    requires ValidView(v)
    ensures ValidView(r.v) && r.verdict != Again
    decreases Rank(v)
  {
    var t := Micro(v, ch, reply);
    if t.verdict != Again then t
    else
      AgainDescends(v, ch, reply);
      var u := Recv(t.v, ch, reply);
      u.(events := t.events + u.events)
  }

  /** recv_text(): byte after byte, until one returns a value that is not positive. replies[k] is what
      the handler returns if byte k completes a command. */
  function Feed(v: View, net: seq<byte>, replies: seq<int>): (r: Turn)
    requires ValidView(v) && |net| == |replies|
    ensures ValidView(r.v) && r.verdict != Again
  {
    if net == [] then Turn(v, Wait, [])
    else
      var n := |net| - 1;
      var t := Feed(v, net[..n], replies[..n]);
      if t.verdict.Stop? then t
      else
        var u := Recv(t.v, net[n], replies[n]);
        u.(events := t.events + u.events)
  }

  lemma {:induction false} FeedNext(v: View, net: seq<byte>, replies: seq<int>, ch: byte, reply: int)
    requires ValidView(v) && |net| == |replies|
    ensures var t := Feed(v, net, replies);
            Feed(v, net + [ch], replies + [reply]) ==
              if t.verdict.Stop? then t
              else var u := Recv(t.v, ch, reply); u.(events := t.events + u.events)
  {
    assert (net + [ch])[..|net|] == net && (replies + [reply])[..|net|] == replies;
  }

  lemma {:induction false} FeedSplit(v: View, a: seq<byte>, b: seq<byte>, ra: seq<int>, rb: seq<int>)
    requires ValidView(v) && |a| == |ra| && |b| == |rb|
    ensures var t := Feed(v, a, ra);
            Feed(v, a + b, ra + rb) ==
              if t.verdict.Stop? then t
              else var u := Feed(t.v, b, rb); u.(events := t.events + u.events)
    decreases |b|
  {
    if b == [] {
      assert a + b == a && ra + rb == ra;
    } else {
      hide Feed, Recv, ValidView;
      var n := |b| - 1;
      FeedSplit(v, a, b[..n], ra, rb[..n]);
      Snoc(a, b);
      Snoc(ra, rb);
      FeedNext(v, a + b[..n], ra + rb[..n], b[n], rb[n]);
      var t := Feed(v, a, ra);
      if !t.verdict.Stop? {
        var u := Feed(t.v, b[..n], rb[..n]);
        FeedNext(t.v, b[..n], rb[..n], b[n], rb[n]);
        if !u.verdict.Stop? {
          Associates(t.events, u.events, Recv(u.v, b[n], rb[n]).events);
        }
      }
    }
  }

  lemma {:induction false} Snoc<T>(a: seq<T>, b: seq<T>)
    requires b != []
    ensures var n := |b| - 1; a + b == (a + b[..n]) + [b[n]] && b == b[..n] + [b[n]]
  {
  }

  /** From every state, a CR or LF that does not close the connection leaves the decoder as fresh. */
  lemma {:induction false} EolResyncs(v: View, ch: byte, reply: int)
    requires ValidView(v) && IsEol(ch)
    ensures Recv(v, ch, reply).verdict == Wait ==> Recv(v, ch, reply).v == Bol
    decreases Rank(v)
  {
    var t := Micro(v, ch, reply);
    if t.verdict == Again {
      AgainDescends(v, ch, reply);
      EolResyncs(t.v, ch, reply);
    }
  }

  /** Lines decode independently, whatever came before them. */
  lemma {:induction false} LinesIndependent(v: View, line: seq<byte>, rest: seq<byte>, rl: seq<int>, rr: seq<int>)
    requires ValidView(v) && |line| == |rl| && |rest| == |rr|
    requires line != [] && IsEol(line[|line| - 1]) && !Feed(v, line, rl).verdict.Stop?
    ensures Feed(v, line + rest, rl + rr) ==
              var u := Feed(Bol, rest, rr); u.(events := Feed(v, line, rl).events + u.events)
  {
    var n := |line| - 1;
    var t := Feed(v, line[..n], rl[..n]);
    EolResyncs(t.v, line[n], rl[n]);
    FeedSplit(v, line, rest, rl, rr);
  }
}
