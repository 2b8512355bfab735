/** recv_text() of lib/prototext.c as it runs: one struct textproto, updated byte by byte. */
module TextDecoders {
  import opened Bytes
  import opened RxBufs
  import opened TextProto

  datatype TState = T_ERROR | T_BOL | T_CMD | T_ARGSP | T_INT | T_STRBEG | T_STR | T_QSTR | T_QOCT

  class TextDecoder {
    var state: TState
    var fmt: seq<Fmt>
    var intval: nat
    const cmd: array<byte>
    var cmdlen: nat
    var counter: nat
    var optional: bool
    const rx: RxBuf
    /** What has been handed on so far. */
    var log: seq<Event>

    /** The fields that the state in force will still use. */
    ghost function View(): (r: View)
      requires rx.Valid() && cmdlen <= cmd.Length
      reads this, cmd, rx, rx.buf
    {
      var b := rx.Contents();
      match state
      case T_ERROR => Error
      case T_BOL => Bol
      case T_CMD => Cmd(cmd[..cmdlen])
      case T_ARGSP => ArgSp(b, fmt, optional)
      case T_INT => InInt(b, fmt, optional, intval)
      case T_STRBEG => StrBeg(b, fmt, optional)
      case T_STR => Str(b, fmt, optional)
      case T_QSTR => QStr(b, fmt, optional)
      case T_QOCT => QOct(b, fmt, optional, intval, counter)
    }

    ghost predicate Shape()
      reads this, rx
    {
      rx.Valid() && cmd.Length == 16 && cmdlen <= cmd.Length && rx.buf != cmd
    }

    /** The command word never takes more than 15 bytes and its NUL. */
    ghost predicate Valid()
      reads this, cmd, rx, rx.buf
    {
      Shape() && ValidView(View())
    }

    constructor ()
      ensures Valid() && View() == Bol && log == []
      ensures fresh(cmd) && fresh(rx) && fresh(rx.buf)
    {
      state, fmt, intval, cmdlen, counter, optional, log := T_BOL, [], 0, 0, 0, false, [];
      cmd := new byte[16];
      rx := new RxBuf();
    }

    /** proto_output_error() with the state set to T_ERROR. */
    method Fail(code: nat) returns (verdict: Verdict)
      requires Shape()
      modifies this`state, this`log
      ensures Valid() && View() == Error && verdict == Again && log == old(log) + [ErrorOut(code)]
    {
      log := log + [ErrorOut(code)];
      state := T_ERROR;
      verdict := Again;
    }

    /** T_CMD: accumulate the command word, or look it up at its end. */
    method TurnCmd(ch: byte) returns (verdict: Verdict)
      requires Valid() && state == T_CMD
      modifies this, cmd, rx, rx.buf
      ensures rx.buf == old(rx.buf) || fresh(rx.buf)
      ensures Valid()
      ensures Turn(View(), verdict, log) == var t := CmdTurn(old(cmd[..cmdlen]), ch); t.(events := old(log) + t.events)
    {
      ghost var was := cmd[..cmdlen];
      if ch != SP && ch != LF && ch != CR {
        cmd[cmdlen] := ch;
        cmdlen := cmdlen + 1;
        assert cmd[..cmdlen] == was + [ch];
        if cmdlen >= cmd.Length {
          verdict := Fail(BAD_MSG);
        } else {
          verdict := Wait;
        }
        return;
      }
      cmd[cmdlen] := 0;
      assert cmd[..cmdlen] == was;
      verdict := EndWord(CStr(cmd[..cmdlen]));
    }

    /** The end of the command word: look it up, and put its id at the front of the buffer. */
    method EndWord(word: seq<byte>) returns (verdict: Verdict)
      requires Shape()
      modifies this, rx, rx.buf
      ensures cmdlen == old(cmdlen) && (rx.buf == old(rx.buf) || fresh(rx.buf))
      ensures Valid() && verdict == Again
      ensures var e := Lookup(word, 0);
              if e.None? then View() == Error && log == old(log) + [ErrorOut(BAD_MSG)]
              else View() == ArgSp([e.value.id], e.value.fmt, false) && log == old(log)
    {
      hide CMDTAB, Lookup, SameWord;
      var e := FindWord(word);
      if e.None? {
        verdict := Fail(BAD_MSG);
        return;
      }
      TableFormats(e.value);
      var ok := rx.Clear(1);
      ok := rx.Addc(e.value.id);
      fmt, optional, state := e.value.fmt, false, T_ARGSP;
      verdict := Again;
    }

    /** The search through cmdtab. */
    static method FindWord(word: seq<byte>) returns (e: Option<Command>)
      ensures e == Lookup(word, 0)
    {
      var i := 0;
      while i < |CMDTAB| && !SameWord(CMDTAB[i].word, word)
        invariant i <= |CMDTAB| && Lookup(word, i) == Lookup(word, 0)
      {
        i := i + 1;
      }
      e := if i == |CMDTAB| then None else Some(CMDTAB[i]);
    }

    /** T_ARGSP at the end of the command line. */
    method Deliver(reply: int) returns (verdict: Verdict)
      requires Valid() && state == T_ARGSP
      modifies this`state, this`log, rx, rx.buf
      ensures rx.buf == old(rx.buf) || fresh(rx.buf)
      ensures Valid()
      ensures Turn(View(), verdict, log) ==
                var t := EolTurn(old(rx.Contents()), fmt, optional, reply); t.(events := old(log) + t.events)
    {
      if !optional && fmt != [] {
        log := log + [ErrorOut(BAD_ARG)];
      } else {
        var ok := rx.ZeroPad();
        if !ok {
          return Stop(-1);
        }
        var event := if rx.buf[0] == PSEUDO_HELP then Help else Input(rx.buf[0], rx.buf[1..rx.len]);
        assert rx.buf[..rx.len][1..] == rx.buf[1..rx.len];
        log := log + [event];
        if reply <= 0 {
          return Stop(reply);
        }
      }
      state := T_BOL;
      verdict := Wait;
    }

    /** T_ARGSP: skip spaces before the next argument. */
    method TurnArgSp(ch: byte, reply: int) returns (verdict: Verdict)
      requires Valid() && state == T_ARGSP
      modifies this, rx, rx.buf
      ensures cmdlen == old(cmdlen) && (rx.buf == old(rx.buf) || fresh(rx.buf))
      ensures Valid()
      ensures Turn(View(), verdict, log) ==
                var t := ArgSpTurn(old(rx.Contents()), old(fmt), old(optional), ch, reply); t.(events := old(log) + t.events)
    {
      if ch == SP {
        return Wait;
      }
      if fmt != [] && fmt[0] == Bar {
        fmt, optional := fmt[1..], true;
      }
      if IsEol(ch) {
        verdict := Deliver(reply);
      } else if fmt == [] {
        verdict := Fail(BAD_ARG);
      } else {
        verdict := StartArg();
      }
    }

    /** The next letter of the format says what comes. */
    method StartArg() returns (verdict: Verdict)
      requires Shape() && fmt != [] && fmt[0] != Bar && state == T_ARGSP
      modifies this`state, this`fmt, this`intval, rx, rx.buf
      ensures Shape() && (rx.buf == old(rx.buf) || fresh(rx.buf))
      ensures verdict == Again
      ensures View() ==
                var rx0, rest := old(rx.Contents()), old(fmt)[1..];
                match old(fmt)[0]
                case Int => InInt(rx0, rest, optional, 0)
                case Text => StrBeg(rx0, rest, optional)
                case Nul => if |rx0| < LIMIT then ArgSp(rx0 + [0], rest, optional) else Error
                case Bar => Error
    {
      var f := fmt[0];
      fmt := fmt[1..];
      verdict := Again;
      match f {
        case Int => state, intval := T_INT, 0;
        case Text => state := T_STRBEG;
        case Nul =>
          var ok := rx.Addc(0);
          if !ok {
            state := T_ERROR;
          }
      }
    }

    /** A byte into the buffer, and on to the next byte. */
    method Keep(ch: byte) returns (verdict: Verdict)
      requires rx.Valid()
      modifies rx, rx.buf
      ensures rx.Valid() && (rx.buf == old(rx.buf) || fresh(rx.buf))
      ensures verdict == if |old(rx.Contents())| < LIMIT then Wait else Stop(-1)
      ensures rx.Contents() == if verdict == Wait then old(rx.Contents()) + [ch] else old(rx.Contents())
    {
      var ok := rx.Addc(ch);
      verdict := if ok then Wait else Stop(-1);
    }

    /** T_INT: a decimal integer, stored as a byte. */
    method TurnInt(ch: byte) returns (verdict: Verdict)
      requires Valid() && state == T_INT
      modifies this`state, this`intval, this`log, rx, rx.buf
      ensures rx.buf == old(rx.buf) || fresh(rx.buf)
      ensures Valid()
      ensures Turn(View(), verdict, log) == var t := Micro(old(View()), ch, 0); t.(events := old(log) + t.events)
    {
      if IsDigit(ch) {
        intval := intval * 10 + (ch as int - 0x30);
        if intval > 255 {
          verdict := Fail(BAD_MSG);
        } else {
          verdict := Wait;
        }
      } else {
        verdict := Keep(intval);
        if verdict == Wait {
          state, verdict := T_ARGSP, Again;
        }
      }
    }

    /** T_STRBEG and T_STR: a string that is not quoted. */
    method TurnStr(ch: byte) returns (verdict: Verdict)
      requires Valid() && (state == T_STRBEG || state == T_STR)
      modifies this`state, rx, rx.buf
      ensures rx.buf == old(rx.buf) || fresh(rx.buf)
      ensures Valid()
      ensures Turn(View(), verdict, log) == var t := Micro(old(View()), ch, 0); t.(events := log + t.events)
    {
      if state == T_STRBEG {
        if ch == QUOTE {
          state, verdict := T_QSTR, Wait;
        } else {
          state, verdict := T_STR, Again;
        }
      } else if IsEol(ch) || (fmt != [] && ch == SP) {
        if fmt == [] {
          rx.Trim();
        }
        state, verdict := T_ARGSP, Again;
      } else {
        verdict := Keep(ch);
      }
    }

    /** T_QSTR: a quoted string. */
    method TurnQuoted(ch: byte) returns (verdict: Verdict)
      requires Valid() && state == T_QSTR
      modifies this`state, this`intval, this`counter, this`log, rx, rx.buf
      ensures rx.buf == old(rx.buf) || fresh(rx.buf)
      ensures Valid()
      ensures Turn(View(), verdict, log) == var t := Micro(old(View()), ch, 0); t.(events := old(log) + t.events)
    {
      if IsEol(ch) {
        log := log + [ErrorOut(BAD_MSG)];
        state, verdict := T_BOL, Wait;
      } else if ch == BACKSLASH {
        counter, intval, state, verdict := 3, 0, T_QOCT, Wait;
      } else if ch == QUOTE {
        state, verdict := T_ARGSP, Wait;
      } else {
        verdict := Keep(ch);
      }
    }

    /** T_QOCT: an octal escape in a quoted string. */
    method TurnOctal(ch: byte) returns (verdict: Verdict)
      requires Valid() && state == T_QOCT
      modifies this`state, this`intval, this`counter, this`log, rx, rx.buf
      ensures rx.buf == old(rx.buf) || fresh(rx.buf)
      ensures Valid()
      ensures Turn(View(), verdict, log) == var t := Micro(old(View()), ch, 0); t.(events := old(log) + t.events)
    {
      if !IsOctal(ch) {
        verdict := Fail(BAD_MSG);
      } else {
        var n := intval * 8 + (ch as int - 0x30);
        if counter > 1 {
          intval, counter, verdict := n, counter - 1, Wait;
        } else {
          verdict := Keep(n % 256);
          if verdict == Wait {
            state := T_QSTR;
          }
        }
      }
    }

    /** One turn of the switch. */
    method OneTurn(ch: byte, reply: int) returns (verdict: Verdict)
      requires Valid()
      modifies this, cmd, rx, rx.buf
      ensures rx.buf == old(rx.buf) || fresh(rx.buf)
      ensures Valid()
      ensures Turn(View(), verdict, log) == var t := Micro(old(View()), ch, reply); t.(events := old(log) + t.events)
    {
      match state {
        case T_ERROR =>
          if ch == LF || ch == CR { state := T_BOL; }
          verdict := Wait;
        case T_BOL =>
          if ch == SP || ch == LF || ch == CR {
            verdict := Wait;
          } else {
            cmdlen, state, verdict := 0, T_CMD, Again;
          }
        case T_CMD => verdict := TurnCmd(ch);
        case T_ARGSP => verdict := TurnArgSp(ch, reply);
        case T_INT => verdict := TurnInt(ch);
        case T_STRBEG => verdict := TurnStr(ch);
        case T_STR => verdict := TurnStr(ch);
        case T_QSTR => verdict := TurnQuoted(ch);
        case T_QOCT => verdict := TurnOctal(ch);
      }
    }

    /** recv_text_1ch(): the chain of `goto again` for one byte. reply is what the handler returns if
        the byte completes a command. */
    method Recv1ch(ch: byte, reply: int) returns (ret: int)
      requires Valid()
      modifies this, cmd, rx, rx.buf
      ensures rx.buf == old(rx.buf) || fresh(rx.buf)
      ensures Valid()
      ensures var t := Recv(old(View()), ch, reply);
              View() == t.v && log == old(log) + t.events && ret == if t.verdict.Stop? then t.verdict.ret else 1
    {
      hide Micro, ValidView, Recv;
      ghost var goal := Recv(View(), ch, reply);
      var verdict := OneTurn(ch, reply);
      RecvTurn(old(View()), ch, reply);
      while verdict == Again
        invariant Valid() && (rx.buf == old(rx.buf) || fresh(rx.buf))
        invariant verdict == Again ==>
                    var t := Recv(View(), ch, reply);
                    goal.v == t.v && goal.verdict == t.verdict && old(log) + goal.events == log + t.events
        invariant verdict != Again ==> goal == Turn(View(), verdict, goal.events) && log == old(log) + goal.events
        decreases if verdict == Again then Rank(View()) + 1 else 0
      {
        ghost var v, before := View(), log;
        RecvTurn(v, ch, reply);
        verdict := OneTurn(ch, reply);
        if verdict == Again {
          AgainDescends(v, ch, reply);
          Associates(before, Micro(v, ch, reply).events, Recv(View(), ch, reply).events);
        }
      }
      ret := if verdict.Stop? then verdict.ret else 1;
    }

    /** recv_text(): 0 or less closes the connection. No data means that the peer has closed it: the line is
        ended, and the handler is told. */
    method RecvText(net: seq<byte>, replies: seq<int>) returns (ret: int)
      requires Valid() && |replies| == if net == [] then 2 else |net|
      modifies this, cmd, rx, rx.buf
      ensures rx.buf == old(rx.buf) || fresh(rx.buf)
      ensures Valid()
      ensures net != [] ==>
                var t := Feed(old(View()), net, replies);
                View() == t.v && log == old(log) + t.events && if t.verdict.Stop? then ret == t.verdict.ret else ret == |net|
      ensures net == [] ==>
                var t := Recv(old(View()), LF, replies[0]);
                View() == t.v &&
                if t.verdict == Stop(-1) then log == old(log) + t.events && ret == -1
                else log == old(log) + t.events + [Input(MSG_EOF, [])] && ret == replies[1]
    {
      hide Recv, ValidView;
      if net == [] {
        ret := Recv1ch(LF, replies[0]);
        if ret != -1 {
          log := log + [Input(MSG_EOF, [])];
          ret := replies[1];
        }
        return;
      }
      ret := 0;
      ghost var v := View();
      for i := 0 to |net|
        invariant Valid() && (rx.buf == old(rx.buf) || fresh(rx.buf)) && ret == i
        invariant var t := Feed(v, net[..i], replies[..i]);
                  t == Turn(View(), Wait, t.events) && log == old(log) + t.events
      {
        hide Feed;
        ghost var t, before := Feed(v, net[..i], replies[..i]), log;
        FeedNext(v, net[..i], replies[..i], net[i], replies[i]);
        assert net[..i + 1] == net[..i] + [net[i]] && replies[..i + 1] == replies[..i] + [replies[i]];
        var n := Recv1ch(net[i], replies[i]);
        Associates(old(log), t.events, Recv(t.v, net[i], replies[i]).events);
        ghost var u := Recv(t.v, net[i], replies[i]);
        StopNotPositive(t.v, net[i], replies[i]);
        if n <= 0 {
          FeedStops(v, net, replies, i + 1);
          return n;
        }
        ret := ret + n;
      }
      assert net[..|net|] == net && replies[..|net|] == replies;
    }
  }

  /** Recv(), one turn unrolled. */
  lemma {:induction false} RecvTurn(v: View, ch: byte, reply: int)
    requires ValidView(v)
    ensures var t := Micro(v, ch, reply);
            Recv(v, ch, reply) ==
              if t.verdict != Again then t
              else var u := Recv(t.v, ch, reply); u.(events := t.events + u.events)
  {
  }

  lemma {:induction false} StopNotPositive(v: View, ch: byte, reply: int)
    requires ValidView(v)
    ensures Recv(v, ch, reply).verdict.Stop? ==> Recv(v, ch, reply).verdict.ret <= 0
    decreases Rank(v)
  {
    var t := Micro(v, ch, reply);
    if t.verdict == Again {
      AgainDescends(v, ch, reply);
      hide Micro;
      StopNotPositive(t.v, ch, reply);
    }
  }

  /** Nothing is read after a byte that closes the connection. */
  lemma {:induction false} FeedStops(v: View, net: seq<byte>, replies: seq<int>, i: nat)
    requires ValidView(v) && i <= |net| == |replies| && Feed(v, net[..i], replies[..i]).verdict.Stop?
    ensures Feed(v, net, replies) == Feed(v, net[..i], replies[..i])
  {
    hide Feed, Recv, ValidView;
    FeedSplit(v, net[..i], net[i..], replies[..i], replies[i..]);
    assert net == net[..i] + net[i..] && replies == replies[..i] + replies[i..];
  }

  /** Bytes are all taken in, or one of them closes the connection. */
  lemma {:induction false} FeedVerdict(v: View, net: seq<byte>, replies: seq<int>)
    requires ValidView(v) && |net| == |replies|
    ensures var t := Feed(v, net, replies); t.verdict == Wait || (t.verdict.Stop? && t.verdict.ret <= 0)
    decreases |net|
  {
    hide Recv, ValidView;
    if net != [] {
      var n := |net| - 1;
      FeedVerdict(v, net[..n], replies[..n]);
      StopNotPositive(Feed(v, net[..n], replies[..n]).v, net[n], replies[n]);
    }
  }
}
