/** The text encoder of lib/prototext.c, and why the decoder undoes it. */
module TextCodec {
  import opened Bytes
  import opened RxBufs
  import opened TextProto

  /** An argument of proto_output(): %c, %s or %*s. */
  datatype Arg = Chr(c: int) | Zstr(s: seq<byte>) | Buf(s: seq<byte>)

  /** The bytes an argument contributes to the message. */
  function ArgBytes(a: Arg): (r: seq<byte>)
  {
    match a
    case Chr(c) => [c % 256]
    case Zstr(s) => s
    case Buf(s) => s
  }

  /** The payload that the arguments stand for, as the binary forms send it. */
  function Payload(args: seq<Arg>): (r: seq<byte>)
  {
    if args == [] then [] else ArgBytes(args[0]) + Payload(args[1..])
  }

  // ---- encoding ---------------------------------------------------------------------------------

  predicate MustEscape(b: byte)
  {
    b == LF || b == CR || b == QUOTE || b == BACKSLASH || b == 0
  }

  function Escape(b: byte): (r: seq<byte>)
  {
    if MustEscape(b) then [BACKSLASH, 0x30 + b / 64, 0x30 + b / 8 % 8, 0x30 + b % 8] else [b]
  }

  function QuoteBody(s: seq<byte>): (r: seq<byte>)
  {
    if s == [] then [] else QuoteBody(s[..|s| - 1]) + Escape(s[|s| - 1])
  }

  function Quoted(s: seq<byte>): (r: seq<byte>)
  {
    [QUOTE] + QuoteBody(s) + [QUOTE]
  }

  /** snprintf("%u") of a byte. */
  function Decimal(n: nat): (r: seq<byte>)
    requires n < 256
  {
    if n >= 100 then [0x30 + n / 100, 0x30 + n / 10 % 10, 0x30 + n % 10]
    else if n >= 10 then [0x30 + n / 10, 0x30 + n % 10]
    else [0x30 + n]
  }

  function Glue(a: seq<byte>, rest: Option<seq<byte>>): (r: Option<seq<byte>>)
  {
    if rest.None? then None else Some(a + rest.value)
  }

  function SkipBar(tf: seq<Fmt>): (r: seq<Fmt>)
    ensures |r| <= |tf|
  {
    if tf != [] && tf[0] == Bar then SkipBar(tf[1..]) else tf
  }

  /** A string argument for a t in the table format, with the rest of the line. */
  function EncText(s: seq<byte>, rest: Option<seq<byte>>): (r: Option<seq<byte>>)
  {
    if |s| > 0xffff then None else Glue([SP] + Quoted(s), rest)
  }

  /** The %*s that satisfies the sequence t|0t by itself. */
  function EncPair(s: seq<byte>): (r: Option<seq<byte>>)
    requires 0 in s
  {
    var k := |CStr(s)|;
    EncText(s[..k], EncText(s[k + 1..], Some([CR, LF])))
  }

  /** The arguments against the table format, to the end of the line; None is an error. */
  function EncArgs(tf: seq<Fmt>, opt: bool, args: seq<Arg>): (r: Option<seq<byte>>)
    decreases |args|
  {
    if args == [] then
      if !opt && tf != [] && tf[0] != Bar then None else Some([CR, LF])
    else
      var t := SkipBar(tf);
      var opt1 := opt || (tf != [] && tf[0] == Bar);
      if t == [] then None
      else
        match t[0]
        case Int =>
          if args[0].Chr? then Glue([SP] + Decimal(args[0].c % 256), EncArgs(t[1..], opt1, args[1..])) else None
        case Nul =>
          if args[0].Chr? && args[0].c == 0 then EncArgs(t[1..], opt1, args[1..]) else None
        case Text =>
          if args[0].Chr? then None
          else if args[0].Buf? && t[1..] == [Bar, Nul, Text] && |args| == 1 && 0 in args[0].s then EncPair(args[0].s)
          else EncText(args[0].s, EncArgs(t[1..], opt1, args[1..]))
        case Bar => None
  }

  /** The first table entry with the message id. */
  function Entry(msg: byte, i: nat): (r: Option<nat>)
    requires i <= |CMDTAB|
    ensures r.Some? ==> i <= r.value < |CMDTAB| && CMDTAB[r.value].id == msg
    ensures r.Some? ==> forall k :: i <= k < r.value ==> CMDTAB[k].id != msg
    ensures r.None? ==> forall k :: i <= k < |CMDTAB| ==> CMDTAB[k].id != msg
    decreases |CMDTAB| - i
  {
    if i == |CMDTAB| then None else if CMDTAB[i].id == msg then Some(i) else Entry(msg, i + 1)
  }

  /** The line that output_text() sends, or None for an error. */
  function Line(msg: byte, args: seq<Arg>): (r: Option<seq<byte>>)
  {
    var j := Entry(msg, 0);
    if j.None? then None else Glue(CMDTAB[j.value].word, EncArgs(CMDTAB[j.value].fmt, false, args))
  }

  // ---- decoding what was encoded ------------------------------------------------------------------

  predicate Positive(rs: seq<int>)
  {
    forall k :: 0 <= k < |rs| ==> rs[k] > 0
  }

  predicate WordByte(b: byte)
  {
    0x41 <= b <= 0x5a
  }

  /** A byte that does not end a command word. */
  predicate InWord(b: byte)
  {
    b != SP && !IsEol(b)
  }

  lemma {:induction false} FeedWord(w: seq<byte>, rs: seq<int>)
    requires 0 < |w| < 16 && |w| == |rs| && forall k :: 0 <= k < |w| ==> InWord(w[k])
    ensures Feed(Bol, w, rs) == Turn(Cmd(w), Wait, [])
    decreases |w|
  {
    var n := |w| - 1;
    var v := if n == 0 then Bol else Cmd(w[..n]);
    if n == 0 {
      assert w[..0] == [] && rs[..0] == [];
    } else {
      FeedWord(w[..n], rs[..n]);
    }
    WordGrows(w, rs[n]);
    hide Recv;
    assert [] + Recv(v, w[n], rs[n]).events == Recv(v, w[n], rs[n]).events;
  }

  lemma {:induction false} WordGrows(w: seq<byte>, reply: int)
    requires 0 < |w| < 16 && InWord(w[|w| - 1])
    ensures var n := |w| - 1;
            Recv(if n == 0 then Bol else Cmd(w[..n]), w[n], reply) == Turn(Cmd(w), Wait, [])
  {
    var n := |w| - 1;
    var v := Cmd(w[..n]);
    assert w[..n] + [w[n]] == w;
    assert Micro(v, w[n], reply) == Turn(Cmd(w), Wait, []);
    assert n == 0 ==> Micro(Bol, w[n], reply) == Turn(v, Again, []);
    hide Micro;
    RecvWait(v, w[n], reply);
    if n == 0 { RecvAgain(Bol, v, w[n], reply); }
  }

  lemma {:induction false} LookupFirst(typed: seq<byte>, i: nat, j: nat)
    requires i <= j < |CMDTAB| && SameWord(CMDTAB[j].word, typed)
    requires forall k :: i <= k < j ==> !SameWord(CMDTAB[k].word, typed)
    ensures Lookup(typed, i) == Some(CMDTAB[j])
    decreases j - i
  {
    if i < j { LookupFirst(typed, i + 1, j); }
  }

  /** Length and first two letters tell words apart. */
  predicate Marked(a: seq<byte>, b: seq<byte>)
  {
    |a| != |b| || (|a| > 0 && a[0] != Upper(b[0])) || (|a| > 1 && a[1] != Upper(b[1]))
  }

  /** No two words of the table are the same. */
  lemma {:induction false} WordsDiffer(k: nat, j: nat)
    requires k < j < |CMDTAB|
    ensures !SameWord(CMDTAB[k].word, CMDTAB[j].word)
  {
    assert Marked(CMDTAB[k].word, CMDTAB[j].word) by {
      if j < 7 {
      } else if j < 13 {
        if k < 7 {
        } else {
        }
      } else {
        if k < 7 {
        } else if k < 13 {
        } else {
        }
      }
    }
  }

  lemma {:induction false} WordShape(k: nat)
    requires k < |CMDTAB|
    ensures 0 < |CMDTAB[k].word| <= 7 && forall i :: 0 <= i < |CMDTAB[k].word| ==> WordByte(CMDTAB[k].word[i])
  {
    if k < 7 {
    } else if k < 14 {
    } else {
    }
  }

  /** A word in any letter case is that word of the table and no other. */
  lemma {:induction false} WordFound(j: nat, typed: seq<byte>)
    requires j < |CMDTAB| && SameWord(CMDTAB[j].word, typed)
    ensures 0 < |typed| <= 7 && Lookup(CStr(typed), 0) == Some(CMDTAB[j])
    ensures forall k :: 0 <= k < |typed| ==> InWord(typed[k]) && WordByte(Upper(typed[k]))
  {
    WordShape(j);
    var w := CMDTAB[j].word;
    forall k | 0 <= k < |typed| ensures InWord(typed[k]) && WordByte(Upper(typed[k])) { assert WordByte(w[k]); }
    hide Lookup;
    forall k | 0 <= k < j ensures !SameWord(CMDTAB[k].word, typed) { OtherWord(k, j, typed); }
    LookupFirst(typed, 0, j);
    NoNulInWord(typed);
  }

  lemma {:induction false} OtherWord(k: nat, j: nat, typed: seq<byte>)
    requires k < j < |CMDTAB| && SameWord(CMDTAB[j].word, typed)
    ensures !SameWord(CMDTAB[k].word, typed)
  {
    WordsDiffer(k, j);
    WordShape(j);
    hide CMDTAB;
    var a, b := CMDTAB[k].word, CMDTAB[j].word;
    if |a| == |b| {
      var i :| 0 <= i < |b| && a[i] != Upper(b[i]);
      assert WordByte(b[i]) && b[i] == Upper(typed[i]);
    }
  }

  /** On a space or an end of line, the decoder that has read a command word goes on as one before its
      arguments. */
  lemma {:induction false} WordEnds(j: nat, typed: seq<byte>, ch: byte, reply: int)
    requires j < |CMDTAB| && SameWord(CMDTAB[j].word, typed) && (ch == SP || IsEol(ch))
    ensures ValidView(ArgSp([CMDTAB[j].id], CMDTAB[j].fmt, false))
    ensures 0 < |typed| < 16 && Recv(Cmd(typed), ch, reply) == Recv(ArgSp([CMDTAB[j].id], CMDTAB[j].fmt, false), ch, reply)
  {
    hide Lookup, CMDTAB, SameWord;
    var e := CMDTAB[j];
    WordFound(j, typed);
    TableFormats(e);
    var v := ArgSp([e.id], e.fmt, false);
    assert Micro(Cmd(typed), ch, reply) == Turn(v, Again, []);
    hide Micro;
    RecvAgain(Cmd(typed), v, ch, reply);
  }

  lemma {:induction false} NoNulInWord(w: seq<byte>)
    requires forall i :: 0 <= i < |w| ==> WordByte(Upper(w[i]))
    ensures Bytes.CStr(w) == w
  {
  }

  /** A turn that only changes state and looks again. */
  lemma {:induction false} RecvAgain(v: View, v': View, ch: byte, reply: int)
    requires ValidView(v) && ValidView(v') && Micro(v, ch, reply) == Turn(v', Again, [])
    ensures Recv(v, ch, reply) == Recv(v', ch, reply)
  {
    hide Micro, ValidView, Rank;
    AgainDescends(v, ch, reply);
    assert [] + Recv(v', ch, reply).events == Recv(v', ch, reply).events;
  }

  lemma {:induction false} RecvWait(v: View, ch: byte, reply: int)
    requires ValidView(v) && Micro(v, ch, reply).verdict != Again
    ensures Recv(v, ch, reply) == Micro(v, ch, reply)
  {
    hide Micro, ValidView;
  }

  lemma {:induction false} FeedOne(v: View, ch: byte, reply: int)
    requires ValidView(v)
    ensures Feed(v, [ch], [reply]) == Recv(v, ch, reply)
  {
    hide Recv;
    assert [ch][..0] == [] && [reply][..0] == [];
    assert [] + Recv(v, ch, reply).events == Recv(v, ch, reply).events;
  }

  /** The quoted text of one byte puts that byte into the buffer. */
  lemma {:induction false} FeedEscape(rx: seq<byte>, fmt: seq<Fmt>, opt: bool, b: byte, rs: seq<int>)
    requires Packed(rx, fmt) && |rx| < LIMIT && |rs| == |Escape(b)|
    ensures Feed(QStr(rx, fmt, opt), Escape(b), rs) == Turn(QStr(rx + [b], fmt, opt), Wait, [])
  {
    hide Feed, Packed, LIMIT;
    if MustEscape(b) {
      OctalDigits(b);
      FeedOctal(rx, fmt, opt, b, b / 64, b / 8 % 8, b % 8, rs);
    } else {
      FeedPlain(rx, fmt, opt, b, rs[0]);
      assert rs == [rs[0]];
    }
  }

  lemma {:induction false} FeedPlain(rx: seq<byte>, fmt: seq<Fmt>, opt: bool, b: byte, reply: int)
    requires Packed(rx, fmt) && |rx| < LIMIT && !MustEscape(b)
    ensures Feed(QStr(rx, fmt, opt), [b], [reply]) == Turn(QStr(rx + [b], fmt, opt), Wait, [])
  {
    var v := QStr(rx, fmt, opt);
    assert Micro(v, b, reply) == Turn(QStr(rx + [b], fmt, opt), Wait, []);
    hide Micro, Feed;
    RecvWait(v, b, reply);
    FeedOne(v, b, reply);
  }

  lemma {:induction false} FeedOctal(rx: seq<byte>, fmt: seq<Fmt>, opt: bool, b: byte, d2: byte, d1: byte, d0: byte, rs: seq<int>)
    requires Packed(rx, fmt) && |rx| < LIMIT && |rs| == 4
    requires d2 < 4 && d1 < 8 && d0 < 8 && d2 as int * 64 + d1 as int * 8 + d0 as int == b
    ensures Feed(QStr(rx, fmt, opt), [BACKSLASH, 0x30 + d2, 0x30 + d1, 0x30 + d0], rs) ==
              Turn(QStr(rx + [b], fmt, opt), Wait, [])
  {
    hide Micro, Feed, Recv;
    var v := QStr(rx, fmt, opt);
    var v1, v2, v3 := QOct(rx, fmt, opt, 0, 3), QOct(rx, fmt, opt, d2, 2), QOct(rx, fmt, opt, d2 * 8 + d1, 1);
    OctalTurns(rx, fmt, opt, b, d2, d1, d0, rs);
    RecvWait(v, BACKSLASH, rs[0]);
    RecvWait(v1, 0x30 + d2, rs[1]);
    RecvWait(v2, 0x30 + d1, rs[2]);
    RecvWait(v3, 0x30 + d0, rs[3]);
    FeedFour(v, v1, v2, v3, QStr(rx + [b], fmt, opt), [BACKSLASH, 0x30 + d2, 0x30 + d1, 0x30 + d0], rs);
  }

  lemma {:induction false} OctalDigits(b: byte)
    ensures (b / 64) * 64 + (b / 8 % 8) * 8 + b % 8 == b && b / 64 < 4
  {
  }

  lemma {:induction false} OctalTurns(rx: seq<byte>, fmt: seq<Fmt>, opt: bool, b: byte, d2: byte, d1: byte, d0: byte, rs: seq<int>)
    requires Packed(rx, fmt) && |rx| < LIMIT && |rs| == 4
    requires d2 < 4 && d1 < 8 && d0 < 8 && d2 as int * 64 + d1 as int * 8 + d0 as int == b
    ensures Micro(QStr(rx, fmt, opt), BACKSLASH, rs[0]) == Turn(QOct(rx, fmt, opt, 0, 3), Wait, [])
    ensures Micro(QOct(rx, fmt, opt, 0, 3), 0x30 + d2, rs[1]) == Turn(QOct(rx, fmt, opt, d2, 2), Wait, [])
    ensures Micro(QOct(rx, fmt, opt, d2, 2), 0x30 + d1, rs[2]) == Turn(QOct(rx, fmt, opt, d2 * 8 + d1, 1), Wait, [])
    ensures Micro(QOct(rx, fmt, opt, d2 * 8 + d1, 1), 0x30 + d0, rs[3]) == Turn(QStr(rx + [b], fmt, opt), Wait, [])
  {
  }

  lemma {:induction false} FeedFour(v0: View, v1: View, v2: View, v3: View, v4: View, bs: seq<byte>, rs: seq<int>)
    requires ValidView(v0) && ValidView(v1) && ValidView(v2) && ValidView(v3) && |bs| == |rs| == 4
    requires Recv(v0, bs[0], rs[0]) == Turn(v1, Wait, []) && Recv(v1, bs[1], rs[1]) == Turn(v2, Wait, [])
    requires Recv(v2, bs[2], rs[2]) == Turn(v3, Wait, []) && Recv(v3, bs[3], rs[3]) == Turn(v4, Wait, [])
    ensures Feed(v0, bs, rs) == Turn(v4, Wait, [])
  {
    hide Recv, Feed;
    FeedOne(v0, bs[0], rs[0]);
    FeedNext(v0, bs[..1], rs[..1], bs[1], rs[1]);
    FeedNext(v0, bs[..2], rs[..2], bs[2], rs[2]);
    FeedNext(v0, bs[..3], rs[..3], bs[3], rs[3]);
    assert bs[..1] == [bs[0]] && rs[..1] == [rs[0]];
    assert bs[..2] == bs[..1] + [bs[1]] && rs[..2] == rs[..1] + [rs[1]];
    assert bs[..3] == bs[..2] + [bs[2]] && rs[..3] == rs[..2] + [rs[2]];
    assert bs == bs[..3] + [bs[3]] && rs == rs[..3] + [rs[3]];
  }

  lemma {:induction false} FeedQuoteBody(rx: seq<byte>, fmt: seq<Fmt>, opt: bool, s: seq<byte>, rs: seq<int>)
    requires Packed(rx, fmt) && |rx| + |s| <= LIMIT && |rs| == |QuoteBody(s)|
    ensures Feed(QStr(rx, fmt, opt), QuoteBody(s), rs) == Turn(QStr(rx + s, fmt, opt), Wait, [])
    decreases |s|
  {
    if s == [] {
      assert rx + s == rx;
    } else {
      var n := |s| - 1;
      var front := QuoteBody(s[..n]);
      var m := |front|;
      assert QuoteBody(s) == front + Escape(s[n]);
      hide Feed, QuoteBody, Escape, LIMIT;
      FeedQuoteBody(rx, fmt, opt, s[..n], rs[..m]);
      PackedMore(rx, fmt, s[..n]);
      FeedEscape(rx + s[..n], fmt, opt, s[n], rs[m..]);
      FeedSplit(QStr(rx, fmt, opt), front, Escape(s[n]), rs[..m], rs[m..]);
      Halves(rs, m);
      Snoc(rx, s);
    }
  }

  lemma {:induction false} PackedMore(rx: seq<byte>, fmt: seq<Fmt>, s: seq<byte>)
    requires Packed(rx, fmt) && |rx| + |s| <= LIMIT
    ensures Packed(rx + s, fmt)
  {
  }

  lemma {:induction false} Halves<T>(s: seq<T>, m: nat)
    requires m <= |s|
    ensures s == s[..m] + s[m..]
  {
  }

  // ---- pieces of a line ---------------------------------------------------------------------------

  /** Feeding a quiet stretch first. */
  lemma {:induction false} FeedThen(v: View, a: seq<byte>, b: seq<byte>, rs: seq<int>, mid: View)
    requires ValidView(v) && ValidView(mid) && |rs| == |a| + |b|
    requires Feed(v, a, rs[..|a|]) == Turn(mid, Wait, [])
    ensures Feed(v, a + b, rs) == Feed(mid, b, rs[|a|..])
  {
    hide Feed, ValidView;
    FeedSplit(v, a, b, rs[..|a|], rs[|a|..]);
    Halves(rs, |a|);
    var u := Feed(mid, b, rs[|a|..]);
    assert [] + u.events == u.events;
  }

  /** States that treat the next byte alike treat the rest alike. */
  lemma {:induction false} FeedLike(v: View, v': View, bs: seq<byte>, rs: seq<int>)
    requires ValidView(v) && ValidView(v') && |bs| == |rs| && bs != []
    requires Recv(v, bs[0], rs[0]) == Recv(v', bs[0], rs[0])
    ensures Feed(v, bs, rs) == Feed(v', bs, rs)
  {
    hide Feed, ValidView, Recv;
    FeedOne(v, bs[0], rs[0]);
    FeedOne(v', bs[0], rs[0]);
    FeedSplit(v, [bs[0]], bs[1..], [rs[0]], rs[1..]);
    FeedSplit(v', [bs[0]], bs[1..], [rs[0]], rs[1..]);
    assert bs == [bs[0]] + bs[1..] && rs == [rs[0]] + rs[1..];
  }

  /** What a text argument finds: the buffer and the format behind the t, with a NUL put in front if
      the format says 0. */
  predicate TakesText(rx: seq<byte>, fmt: seq<Fmt>, opt: bool, rx': seq<byte>, fmt': seq<Fmt>, opt': bool)
  {
    (fmt == [Text] + fmt' && rx' == rx && opt' == opt) ||
    (fmt == [Bar, Text] + fmt' && rx' == rx && opt') ||
    (fmt == [Bar, Nul, Text] + fmt' && rx' == rx + [0] && opt')
  }

  lemma {:induction false} OpenQuote(rx: seq<byte>, fmt: seq<Fmt>, opt: bool, rx': seq<byte>, fmt': seq<Fmt>, opt': bool, reply: int)
    requires Packed(rx, fmt) && |rx| < LIMIT && TakesText(rx, fmt, opt, rx', fmt', opt')
    ensures Packed(rx', fmt') && Recv(ArgSp(rx, fmt, opt), QUOTE, reply) == Turn(QStr(rx', fmt', opt'), Wait, [])
  {
    var v, beg := ArgSp(rx, fmt, opt), StrBeg(rx', fmt', opt');
    assert Micro(beg, QUOTE, reply) == Turn(QStr(rx', fmt', opt'), Wait, []) by { assert Packed(rx', fmt'); }
    RecvWait(beg, QUOTE, reply);
    if fmt == [Bar, Nul, Text] + fmt' {
      var nul := ArgSp(rx + [0], [Text] + fmt', true);
      assert fmt[1..][1..] == [Text] + fmt';
      assert Micro(v, QUOTE, reply) == Turn(nul, Again, []);
      assert ([Text] + fmt')[1..] == fmt';
      assert Micro(nul, QUOTE, reply) == Turn(beg, Again, []);
      hide Micro;
      RecvAgain(v, nul, QUOTE, reply);
      RecvAgain(nul, beg, QUOTE, reply);
    } else {
      assert fmt == [Text] + fmt' ==> fmt[1..] == fmt';
      assert fmt == [Bar, Text] + fmt' ==> fmt[1..][1..] == fmt';
      assert Micro(v, QUOTE, reply) == Turn(beg, Again, []);
      hide Micro;
      RecvAgain(v, beg, QUOTE, reply);
    }
  }

  lemma {:induction false} SpaceSkipped(rx: seq<byte>, fmt: seq<Fmt>, opt: bool, reply: int)
    requires Packed(rx, fmt)
    ensures Feed(ArgSp(rx, fmt, opt), [SP], [reply]) == Turn(ArgSp(rx, fmt, opt), Wait, [])
  {
    var v := ArgSp(rx, fmt, opt);
    assert Micro(v, SP, reply) == Turn(v, Wait, []);
    hide Micro;
    RecvWait(v, SP, reply);
    FeedOne(v, SP, reply);
  }

  lemma {:induction false} CloseQuote(rx: seq<byte>, fmt: seq<Fmt>, opt: bool, reply: int)
    requires Packed(rx, fmt)
    ensures Feed(QStr(rx, fmt, opt), [QUOTE], [reply]) == Turn(ArgSp(rx, fmt, opt), Wait, [])
  {
    var v := QStr(rx, fmt, opt);
    assert Micro(v, QUOTE, reply) == Turn(ArgSp(rx, fmt, opt), Wait, []);
    hide Micro;
    RecvWait(v, QUOTE, reply);
    FeedOne(v, QUOTE, reply);
  }

  lemma {:induction false} TextOpen(rx: seq<byte>, fmt: seq<Fmt>, opt: bool, rx': seq<byte>, fmt': seq<Fmt>, opt': bool, x: seq<byte>, rs: seq<int>)
    requires Packed(rx, fmt) && |rx| < LIMIT && TakesText(rx, fmt, opt, rx', fmt', opt') && |rs| == 2 + |x|
    ensures Packed(rx', fmt')
    ensures Feed(ArgSp(rx, fmt, opt), [SP] + ([QUOTE] + x), rs) == Feed(QStr(rx', fmt', opt'), x, rs[2..])
  {
    hide Feed, Recv, LIMIT, Packed, TakesText;
    var v := ArgSp(rx, fmt, opt);
    SpaceSkipped(rx, fmt, opt, rs[0]);
    assert rs[..1] == [rs[0]];
    FeedThen(v, [SP], [QUOTE] + x, rs, v);
    var r1 := rs[1..];
    OpenQuote(rx, fmt, opt, rx', fmt', opt', r1[0]);
    FeedOne(v, QUOTE, r1[0]);
    assert r1[..1] == [r1[0]];
    FeedThen(v, [QUOTE], x, r1, QStr(rx', fmt', opt'));
    assert r1[1..] == rs[2..];
  }

  lemma {:induction false} TextClose(rx: seq<byte>, fmt: seq<Fmt>, opt: bool, s: seq<byte>, rest: seq<byte>, rs: seq<int>)
    requires Packed(rx, fmt) && |rx| + |s| <= LIMIT && |rs| == |QuoteBody(s)| + 1 + |rest|
    ensures Packed(rx + s, fmt)
    ensures Feed(QStr(rx, fmt, opt), QuoteBody(s) + ([QUOTE] + rest), rs) ==
              Feed(ArgSp(rx + s, fmt, opt), rest, rs[|QuoteBody(s)| + 1..])
  {
    hide Feed, QuoteBody, LIMIT, Packed;
    var body := QuoteBody(s);
    var n := |body|;
    FeedQuoteBody(rx, fmt, opt, s, rs[..n]);
    PackedMore(rx, fmt, s);
    var q := QStr(rx + s, fmt, opt);
    FeedThen(QStr(rx, fmt, opt), body, [QUOTE] + rest, rs, q);
    var r1 := rs[n..];
    CloseQuote(rx + s, fmt, opt, r1[0]);
    assert r1[..1] == [r1[0]];
    FeedThen(q, [QUOTE], rest, r1, ArgSp(rx + s, fmt, opt));
    assert r1[1..] == rs[n + 1..];
  }

  /** A space and a quoted string put the string into the buffer. */
  lemma {:induction false} TextPiece(rx: seq<byte>, fmt: seq<Fmt>, opt: bool, rx': seq<byte>, fmt': seq<Fmt>, opt': bool, s: seq<byte>,
                  rest: seq<byte>, rs: seq<int>)
    requires Packed(rx, fmt) && |rx| < LIMIT && TakesText(rx, fmt, opt, rx', fmt', opt') && |rx'| + |s| <= LIMIT
    requires |rs| == |[SP] + Quoted(s) + rest|
    ensures Packed(rx' + s, fmt')
    ensures Feed(ArgSp(rx, fmt, opt), [SP] + Quoted(s) + rest, rs) ==
              Feed(ArgSp(rx' + s, fmt', opt'), rest, rs[|[SP] + Quoted(s)|..])
  {
    var n := |QuoteBody(s)|;
    var x := QuoteBody(s) + ([QUOTE] + rest);
    QuotedSplit(s, rest);
    hide Feed, Quoted, QuoteBody, LIMIT, Packed, TakesText;
    TextOpen(rx, fmt, opt, rx', fmt', opt', x, rs);
    TextClose(rx', fmt', opt', s, rest, rs[2..]);
    DropDrop(rs, 2, n + 1);
  }

  lemma {:induction false} QuotedSplit(s: seq<byte>, rest: seq<byte>)
    ensures [SP] + Quoted(s) + rest == [SP] + ([QUOTE] + (QuoteBody(s) + ([QUOTE] + rest)))
    ensures |[SP] + Quoted(s)| == |QuoteBody(s)| + 3
  {
  }

  lemma {:induction false} DropDrop<T>(s: seq<T>, a: nat, b: nat)
    requires a + b <= |s|
    ensures s[a..][b..] == s[a + b..]
  {
  }

  /** The first digit of an int argument, and a further one. */
  lemma {:induction false} FirstDigit(rx: seq<byte>, fmt: seq<Fmt>, opt: bool, d: nat, reply: int)
    requires Packed(rx, [Int] + fmt) && d < 10
    ensures Packed(rx, fmt) && Recv(ArgSp(rx, [Int] + fmt, opt), 0x30 + d, reply) == Turn(InInt(rx, fmt, opt, d), Wait, [])
  {
    var v, beg := ArgSp(rx, [Int] + fmt, opt), InInt(rx, fmt, opt, 0);
    assert ([Int] + fmt)[1..] == fmt;
    assert Packed(rx, fmt) by { assert forall k :: 0 <= k < |fmt| ==> fmt[k] == ([Int] + fmt)[k + 1]; }
    assert Micro(v, 0x30 + d, reply) == Turn(beg, Again, []);
    assert Micro(beg, 0x30 + d, reply) == Turn(InInt(rx, fmt, opt, d), Wait, []);
    hide Micro;
    RecvAgain(v, beg, 0x30 + d, reply);
    RecvWait(beg, 0x30 + d, reply);
  }

  lemma {:induction false} NextDigit(rx: seq<byte>, fmt: seq<Fmt>, opt: bool, n: nat, d: nat, reply: int)
    requires Packed(rx, fmt) && d < 10 && n * 10 + d < 256
    ensures Recv(InInt(rx, fmt, opt, n), 0x30 + d, reply) == Turn(InInt(rx, fmt, opt, n * 10 + d), Wait, [])
  {
    var v := InInt(rx, fmt, opt, n);
    assert Micro(v, 0x30 + d, reply) == Turn(InInt(rx, fmt, opt, n * 10 + d), Wait, []);
    hide Micro;
    RecvWait(v, 0x30 + d, reply);
  }

  predicate Digits(s: seq<byte>)
  {
    forall k :: 0 <= k < |s| ==> IsDigit(s[k])
  }

  function Number(ds: seq<byte>): (r: nat)
    requires Digits(ds)
  {
    if ds == [] then 0
    else
      assert IsDigit(ds[|ds| - 1]);
      Number(ds[..|ds| - 1]) * 10 + (ds[|ds| - 1] as int - 0x30)
  }

  lemma {:induction false} FeedDigits(rx: seq<byte>, fmt: seq<Fmt>, opt: bool, ds: seq<byte>, rs: seq<int>)
    requires Packed(rx, [Int] + fmt) && ds != [] && Digits(ds) && Number(ds) < 256 && |rs| == |ds|
    ensures Packed(rx, fmt) && Feed(ArgSp(rx, [Int] + fmt, opt), ds, rs) == Turn(InInt(rx, fmt, opt, Number(ds)), Wait, [])
    decreases |ds|
  {
    hide Feed, Recv, Packed;
    var v, n := ArgSp(rx, [Int] + fmt, opt), |ds| - 1;
    var d := ds[n] as int - 0x30;
    assert IsDigit(ds[n]);
    if n == 0 {
      assert ds[..0] == [];
      assert Number(ds) == d;
      FirstDigit(rx, fmt, opt, d, rs[0]);
      FeedOne(v, ds[0], rs[0]);
      assert ds == [ds[0]] && rs == [rs[0]];
    } else {
      FeedDigits(rx, fmt, opt, ds[..n], rs[..n]);
      NextDigit(rx, fmt, opt, Number(ds[..n]), d, rs[n]);
      FeedNext(v, ds[..n], rs[..n], ds[n], rs[n]);
      assert ds == ds[..n] + [ds[n]] && rs == rs[..n] + [rs[n]];
    }
  }

  lemma {:induction false} NumberSnoc(ds: seq<byte>, d: byte)
    requires Digits(ds) && IsDigit(d)
    ensures Digits(ds + [d]) && Number(ds + [d]) == Number(ds) * 10 + (d as int - 0x30)
  {
    assert (ds + [d])[..|ds|] == ds;
  }

  lemma {:induction false} DecimalIs(n: nat)
    requires n < 256
    ensures Digits(Decimal(n)) && Decimal(n) != [] && Number(Decimal(n)) == n
  {
    var ds := Decimal(n);
    assert [] + [ds[0]] == [ds[0]];
    NumberSnoc([], ds[0]);
    if n < 10 {
      assert ds == [ds[0]];
    } else {
      NumberSnoc([ds[0]], ds[1]);
      if n < 100 {
        assert ds == [ds[0]] + [ds[1]];
      } else {
        NumberSnoc([ds[0]] + [ds[1]], ds[2]);
        assert ds == [ds[0]] + [ds[1]] + [ds[2]];
        assert n / 10 == n / 100 * 10 + n / 10 % 10;
      }
    }
  }

  lemma {:induction false} FeedDecimal(rx: seq<byte>, fmt: seq<Fmt>, opt: bool, n: nat, rs: seq<int>)
    requires Packed(rx, [Int] + fmt) && n < 256 && |rs| == |Decimal(n)|
    ensures Packed(rx, fmt) && Feed(ArgSp(rx, [Int] + fmt, opt), Decimal(n), rs) == Turn(InInt(rx, fmt, opt, n), Wait, [])
  {
    hide Feed, Packed, Decimal, Number;
    DecimalIs(n);
    FeedDigits(rx, fmt, opt, Decimal(n), rs);
  }

  /** On a space or an end of line, the decoder that has read an int goes on as one that has stored it. */
  lemma {:induction false} IntEnds(rx: seq<byte>, fmt: seq<Fmt>, opt: bool, n: nat, ch: byte, reply: int)
    requires Packed(rx, fmt) && |rx| < LIMIT && n < 256 && (ch == SP || IsEol(ch))
    ensures Packed(rx + [n], fmt)
    ensures Recv(InInt(rx, fmt, opt, n), ch, reply) == Recv(ArgSp(rx + [n], fmt, opt), ch, reply)
  {
    var v, w := InInt(rx, fmt, opt, n), ArgSp(rx + [n], fmt, opt);
    PackedMore(rx, fmt, [n]);
    assert Micro(v, ch, reply) == Turn(w, Again, []);
    hide Micro;
    RecvAgain(v, w, ch, reply);
  }

  /** A space and a decimal put the byte into the buffer. */
  lemma {:induction false} IntPiece(rx: seq<byte>, fmt: seq<Fmt>, opt: bool, n: nat, rest: seq<byte>, rs: seq<int>)
    requires Packed(rx, [Int] + fmt) && |rx| < LIMIT && n < 256
    requires rest != [] && (rest[0] == SP || rest[0] == CR)
    requires |rs| == |[SP] + Decimal(n) + rest|
    ensures Packed(rx + [n], fmt)
    ensures Feed(ArgSp(rx, [Int] + fmt, opt), [SP] + Decimal(n) + rest, rs) ==
              Feed(ArgSp(rx + [n], fmt, opt), rest, rs[|[SP] + Decimal(n)|..])
  {
    hide Feed, Recv, Packed, Decimal, LIMIT;
    var v, m := ArgSp(rx, [Int] + fmt, opt), |Decimal(n)|;
    Associates([SP], Decimal(n), rest);
    SpaceSkipped(rx, [Int] + fmt, opt, rs[0]);
    assert rs[..1] == [rs[0]];
    FeedThen(v, [SP], Decimal(n) + rest, rs, v);
    FeedDecimal(rx, fmt, opt, n, rs[1..][..m]);
    var w := InInt(rx, fmt, opt, n);
    FeedThen(v, Decimal(n), rest, rs[1..], w);
    DropDrop(rs, 1, m);
    IntEnds(rx, fmt, opt, n, rest[0], rs[m + 1]);
    FeedLike(w, ArgSp(rx + [n], fmt, opt), rest, rs[m + 1..]);
  }

  /** The end of a line delivers the command. */
  lemma {:induction false} EndPiece(rx: seq<byte>, fmt: seq<Fmt>, opt: bool, rs: seq<int>)
    requires rx != [] && Packed(rx, fmt) && |rx| + 1 < LIMIT && rx[0] != PSEUDO_HELP && |rs| == 2 && Positive(rs)
    requires opt || fmt == [] || fmt[0] == Bar
    ensures Feed(ArgSp(rx, fmt, opt), [CR, LF], rs) == Turn(Bol, Wait, [Input(rx[0], rx[1..])])
  {
    hide Micro, Feed, Recv, Packed, LIMIT;
    var v := ArgSp(rx, fmt, opt);
    var t := Turn(Bol, Wait, [Input(rx[0], rx[1..])]);
    EolDelivers(rx, fmt, opt, rs[0]);
    BlankLine(rs[1]);
    RecvWait(v, CR, rs[0]);
    RecvWait(Bol, LF, rs[1]);
    FeedOne(v, CR, rs[0]);
    FeedNext(v, [CR], [rs[0]], LF, rs[1]);
    assert [CR] + [LF] == [CR, LF] && [rs[0]] + [rs[1]] == rs;
    assert t.events + [] == t.events;
  }

  lemma {:induction false} EolDelivers(rx: seq<byte>, fmt: seq<Fmt>, opt: bool, reply: int)
    requires Packed(rx, fmt) && |rx| + 1 < LIMIT && rx[0] != PSEUDO_HELP && reply > 0
    requires opt || fmt == [] || fmt[0] == Bar
    ensures Micro(ArgSp(rx, fmt, opt), CR, reply) == Turn(Bol, Wait, [Input(rx[0], rx[1..])])
  {
  }

  lemma {:induction false} BlankLine(reply: int)
    ensures Micro(Bol, LF, reply) == Turn(Bol, Wait, [])
  {
  }

  // ---- whole lines --------------------------------------------------------------------------------

  /** The message that a decoder before the arguments delivers at the end of the line. */
  function Delivered(rx: seq<byte>): (r: Turn)
    requires rx != []
  {
    Turn(Bol, Wait, [Input(rx[0], rx[1..])])
  }

  predicate IsText(a: Arg)
  {
    !a.Chr?
  }

  /** The arguments that lose their last byte in text: a key and the NUL behind it, but no value. */
  predicate BareNul(fmt: seq<Fmt>, args: seq<Arg>)
  {
    fmt == [Text, Bar, Nul, Text] && |args| == 2
  }

  /** The buffer when the line ends. */
  function Received(id: byte, fmt: seq<Fmt>, args: seq<Arg>): (r: seq<byte>)
  {
    [id] + if BareNul(fmt, args) then ArgBytes(args[0]) else Payload(args)
  }

  /** One text argument, then the end of the line. */
  lemma {:induction false} TextLine(rx: seq<byte>, fmt: seq<Fmt>, opt: bool, rx': seq<byte>, fmt': seq<Fmt>, opt': bool, s: seq<byte>, rs: seq<int>)
    requires Packed(rx, fmt) && TakesText(rx, fmt, opt, rx', fmt', opt') && |rx'| + |s| + 1 < LIMIT
    requires rx[0] != PSEUDO_HELP && |rs| == |[SP] + Quoted(s) + [CR, LF]| && Positive(rs)
    requires opt' || fmt' == [] || fmt'[0] == Bar
    ensures Feed(ArgSp(rx, fmt, opt), [SP] + Quoted(s) + [CR, LF], rs) == Delivered(rx' + s)
  {
    hide Feed, Quoted;
    TextPiece(rx, fmt, opt, rx', fmt', opt', s, [CR, LF], rs);
    EndPiece(rx' + s, fmt', opt', rs[|[SP] + Quoted(s)|..]);
  }

  /** An int, one text argument, then the end of the line. */
  lemma {:induction false} IntTextLine(id: byte, fmt: seq<Fmt>, n: nat, s: seq<byte>, rs: seq<int>)
    requires (fmt == [Text] || fmt == [Bar, Text]) && n < 256 && |s| + 3 < LIMIT && id != SP && id != PSEUDO_HELP
    requires |rs| == |[SP] + Decimal(n) + ([SP] + Quoted(s) + [CR, LF])| && Positive(rs)
    ensures ValidView(ArgSp([id], [Int] + fmt, false))
    ensures Feed(ArgSp([id], [Int] + fmt, false), [SP] + Decimal(n) + ([SP] + Quoted(s) + [CR, LF]), rs) ==
              Delivered([id] + [n] + s)
  {
    assert Packed([id], [Int] + fmt);
    var opt' := fmt == [Bar, Text];
    assert TakesText([id] + [n], fmt, false, [id] + [n], [], opt');
    hide Feed, Quoted, Decimal, TakesText;
    var rest := [SP] + Quoted(s) + [CR, LF];
    IntPiece([id], fmt, false, n, rest, rs);
    TextLine([id] + [n], fmt, false, [id] + [n], [], opt', s, rs[|[SP] + Decimal(n)|..]);
  }

  /** Two text arguments for t|0t, then the end of the line. */
  lemma {:induction false} KeyValueLine(id: byte, k: seq<byte>, s: seq<byte>, rs: seq<int>)
    requires |k| + |s| + 3 < LIMIT && id != SP && id != PSEUDO_HELP
    requires |rs| == |[SP] + Quoted(k) + ([SP] + Quoted(s) + [CR, LF])| && Positive(rs)
    ensures ValidView(ArgSp([id], [Text, Bar, Nul, Text], false))
    ensures Feed(ArgSp([id], [Text, Bar, Nul, Text], false), [SP] + Quoted(k) + ([SP] + Quoted(s) + [CR, LF]), rs) ==
              Delivered([id] + k + [0] + s)
  {
    var fmt := [Bar, Nul, Text];
    assert [Text, Bar, Nul, Text] == [Text] + fmt;
    assert Packed([id], [Text] + fmt);
    assert TakesText([id], [Text] + fmt, false, [id], fmt, false);
    assert fmt == [Bar, Nul, Text] + [];
    assert TakesText([id] + k, fmt, false, [id] + k + [0], [], true);
    hide Feed, Quoted, TakesText;
    var rest := [SP] + Quoted(s) + [CR, LF];
    TextPiece([id], [Text] + fmt, false, [id], fmt, false, k, rest, rs);
    TextLine([id] + k, fmt, false, [id] + k + [0], [], true, s, rs[|[SP] + Quoted(k)|..]);
  }

  /** One argument that output_text() accepts. */
  lemma {:induction false} EncStep(tf: seq<Fmt>, opt: bool, args: seq<Arg>)
    requires args != [] && EncArgs(tf, opt, args).Some?
    ensures var t := SkipBar(tf);
            var opt1 := opt || (tf != [] && tf[0] == Bar);
            t != [] && t[0] != Bar && (t[0] == Text <==> IsText(args[0])) && (t[0] == Nul ==> args[0] == Chr(0)) &&
            (EncArgs(t[1..], opt1, args[1..]).Some? || (|args| == 1 && t[0] == Text))
  {
    hide EncPair, Quoted, Decimal;
  }

  lemma {:induction false} SkipBars()
    ensures SkipBar([]) == [] && SkipBar([Text]) == [Text] && SkipBar([Bar, Text]) == [Text]
    ensures SkipBar([Int, Text]) == [Int, Text] && SkipBar([Int, Bar, Text]) == [Int, Bar, Text]
    ensures SkipBar([Text, Bar, Nul, Text]) == [Text, Bar, Nul, Text] && SkipBar([Bar, Nul, Text]) == [Nul, Text]
  {
    assert [Bar, Text][1..] == [Text] && [Bar, Nul, Text][1..] == [Nul, Text];
  }

  lemma {:induction false} EncDone(opt: bool, args: seq<Arg>)
    ensures EncArgs([], opt, args).Some? ==> args == []
    ensures EncArgs([], opt, []) == Some([CR, LF])
  {
  }

  /** What output_text() accepts for a single text argument, and for t|0t. */
  lemma {:induction false} TextShapes(fmt: seq<Fmt>, args: seq<Arg>)
    requires (fmt == [Text] || fmt == [Bar, Text]) && EncArgs(fmt, false, args).Some?
    ensures (args == [] && fmt == [Bar, Text]) || (|args| == 1 && IsText(args[0]))
  {
    if args != [] {
      hide EncArgs, SkipBar;
      SkipBars();
      EncStep(fmt, false, args);
      assert [Text][1..] == [];
      EncDone(fmt[0] == Bar, args[1..]);
    }
  }

  lemma {:induction false} KeyShapes(args: seq<Arg>)
    requires EncArgs([Text, Bar, Nul, Text], false, args).Some?
    ensures 1 <= |args| <= 3 && IsText(args[0]) && (|args| > 1 ==> args[1] == Chr(0)) && (|args| > 2 ==> IsText(args[2]))
  {
    assert args != [];
    hide EncArgs, SkipBar;
    SkipBars();
    EncStep([Text, Bar, Nul, Text], false, args);
    assert [Text, Bar, Nul, Text][1..] == [Bar, Nul, Text] && [Nul, Text][1..] == [Text] && [Text][1..] == [];
    if |args| > 1 {
      EncStep([Bar, Nul, Text], false, args[1..]);
      if |args| > 2 {
        EncStep([Text], true, args[1..][1..]);
        EncDone(true, args[1..][1..][1..]);
      }
    }
  }

  lemma {:induction false} IntShapes(fmt: seq<Fmt>, args: seq<Arg>)
    requires (fmt == [Text] || fmt == [Bar, Text]) && EncArgs([Int] + fmt, false, args).Some?
    ensures 1 <= |args| <= 2 && args[0].Chr? && (|args| == 2 ==> IsText(args[1])) && (fmt == [Text] ==> |args| == 2)
    ensures EncArgs(fmt, false, args[1..]).Some?
  {
    assert args != [];
    assert ([Int] + fmt)[1..] == fmt && SkipBar([Int] + fmt) == [Int] + fmt;
    hide EncArgs, SkipBar;
    EncStep([Int] + fmt, false, args);
    TextShapes(fmt, args[1..]);
  }

  /** The text of a single text argument. */
  lemma {:induction false} EncOne(fmt: seq<Fmt>, opt: bool, a: Arg)
    requires (fmt == [Text] || fmt == [Bar, Text]) && IsText(a)
    ensures EncArgs(fmt, opt, [a]) == EncText(a.s, Some([CR, LF]))
  {
    SkipBars();
    assert [Text][1..] == [] && [a][1..] == [];
    EncDone(opt || fmt[0] == Bar, []);
    hide EncText, EncPair;
  }

  /** The text of a key, and of a key with a value given as three arguments or as one. */
  lemma {:induction false} EncKey(args: seq<Arg>)
    requires 1 <= |args| <= 3 && IsText(args[0]) && (|args| > 1 ==> args[1] == Chr(0)) && (|args| > 2 ==> IsText(args[2]))
    ensures var r := EncArgs([Text, Bar, Nul, Text], false, args);
            (|args| == 3 ==> r == EncText(args[0].s, EncText(args[2].s, Some([CR, LF])))) &&
            (|args| == 2 ==> r == EncText(args[0].s, Some([CR, LF]))) &&
            (|args| == 1 ==>
               r == if args[0].Buf? && 0 in args[0].s then EncPair(args[0].s) else EncText(args[0].s, Some([CR, LF])))
  {
    SkipBars();
    var a1 := args[1..];
    assert [Text, Bar, Nul, Text][1..] == [Bar, Nul, Text] && [Nul, Text][1..] == [Text];
    hide EncText, EncPair;
    if |args| == 2 {
      assert a1[1..] == [];
      assert EncArgs([Text], true, []) == Some([CR, LF]);
      assert EncArgs([Bar, Nul, Text], false, a1) == EncArgs([Text], true, a1[1..]);
    } else if |args| == 3 {
      assert a1[1..] == [args[2]];
      EncOne([Text], true, args[2]);
      assert EncArgs([Bar, Nul, Text], false, a1) == EncArgs([Text], true, a1[1..]);
    } else {
      assert a1 == [];
      assert EncArgs([Bar, Nul, Text], false, []) == Some([CR, LF]);
    }
  }

  /** The line behind the command word, for a format with at most one text argument. */
  lemma {:induction false} TextTail(id: byte, fmt: seq<Fmt>, args: seq<Arg>, tail: seq<byte>, rs: seq<int>)
    requires (fmt == [] || fmt == [Text] || fmt == [Bar, Text]) && id != SP && id != PSEUDO_HELP
    requires EncArgs(fmt, false, args) == Some(tail) && |Payload(args)| + 2 < LIMIT && |rs| == |tail| && Positive(rs)
    ensures ValidView(ArgSp([id], fmt, false))
    ensures Feed(ArgSp([id], fmt, false), tail, rs) == Delivered([id] + Payload(args))
  {
    assert Packed([id], fmt);
    if fmt == [] {
      EncDone(false, args);
    } else {
      TextShapes(fmt, args);
    }
    if args == [] {
      assert tail == [CR, LF] && [id] + Payload(args) == [id];
      hide Feed;
      EndPiece([id], fmt, false, rs);
    } else {
      var s, opt' := args[0].s, fmt == [Bar, Text];
      assert args == [args[0]];
      OnePayload(args[0]);
      EncOne(fmt, false, args[0]);
      hide EncArgs, Feed, Quoted;
      assert TakesText([id], fmt, false, [id], [], opt');
      hide TakesText;
      TextLine([id], fmt, false, [id], [], opt', s, rs);
    }
  }

  lemma {:induction false} OnePayload(a: Arg)
    ensures Payload([a]) == ArgBytes(a)
  {
    assert [a][1..] == [];
    assert ArgBytes(a) + [] == ArgBytes(a);
  }

  lemma {:induction false} IntStep(fmt: seq<Fmt>, args: seq<Arg>, tail: seq<byte>)
    requires (fmt == [Text] || fmt == [Bar, Text]) && EncArgs([Int] + fmt, false, args) == Some(tail)
    requires args != [] && args[0].Chr?
    ensures EncArgs(fmt, false, args[1..]).Some?
    ensures tail == [SP] + Decimal(args[0].c % 256) + EncArgs(fmt, false, args[1..]).value
    ensures Payload(args) == [args[0].c % 256] + Payload(args[1..])
  {
    hide Decimal;
    assert ([Int] + fmt)[1..] == fmt && SkipBar([Int] + fmt) == [Int] + fmt;
  }

  /** The text of an int and at most one text argument. */
  lemma {:induction false} IntEnc(fmt: seq<Fmt>, args: seq<Arg>, tail: seq<byte>)
    requires (fmt == [Text] || fmt == [Bar, Text]) && EncArgs([Int] + fmt, false, args) == Some(tail)
    ensures 1 <= |args| <= 2 && args[0].Chr?
    ensures |args| == 1 ==>
              fmt == [Bar, Text] && tail == [SP] + Decimal(args[0].c % 256) + [CR, LF] && Payload(args) == [args[0].c % 256]
    ensures |args| == 2 ==>
              IsText(args[1]) && tail == [SP] + Decimal(args[0].c % 256) + ([SP] + Quoted(args[1].s) + [CR, LF]) &&
              Payload(args) == [args[0].c % 256] + args[1].s
  {
    hide Decimal, Quoted;
    IntShapes(fmt, args);
    IntStep(fmt, args, tail);
    if |args| == 1 {
      assert args[1..] == [];
      assert [args[0].c % 256] + [] == [args[0].c % 256];
    } else {
      assert args[1..] == [args[1]];
      OnePayload(args[1]);
      EncOne(fmt, false, args[1]);
    }
  }

  lemma {:induction false} IntTail(id: byte, fmt: seq<Fmt>, args: seq<Arg>, tail: seq<byte>, rs: seq<int>)
    requires (fmt == [Text] || fmt == [Bar, Text]) && id != SP && id != PSEUDO_HELP
    requires EncArgs([Int] + fmt, false, args) == Some(tail) && |Payload(args)| + 2 < LIMIT
    requires |rs| == |tail| && Positive(rs)
    ensures ValidView(ArgSp([id], [Int] + fmt, false))
    ensures Feed(ArgSp([id], [Int] + fmt, false), tail, rs) == Delivered([id] + Payload(args))
  {
    hide EncArgs, Feed, Decimal, Quoted, Payload;
    assert Packed([id], [Int] + fmt);
    IntEnc(fmt, args, tail);
    var n := args[0].c % 256;
    if |args| == 1 {
      IntPiece([id], fmt, false, n, [CR, LF], rs);
      EndPiece([id] + [n], fmt, false, rs[|[SP] + Decimal(n)|..]);
    } else {
      IntTextLine(id, fmt, n, args[1].s, rs);
      Associates([id], [n], args[1].s);
    }
  }

  /** The two strings of a %*s that holds a key, a NUL and a value. */
  lemma {:induction false} PairSplit(s: seq<byte>)
    requires 0 in s
    ensures var k := |Bytes.CStr(s)|; k < |s| && s == s[..k] + [0] + s[k + 1..]
  {
  }

  lemma {:induction false} KeyTail(id: byte, args: seq<Arg>, tail: seq<byte>, rs: seq<int>)
    requires id != SP && id != PSEUDO_HELP && |Payload(args)| + 2 < LIMIT
    requires EncArgs([Text, Bar, Nul, Text], false, args) == Some(tail) && |rs| == |tail| && Positive(rs)
    ensures ValidView(ArgSp([id], [Text, Bar, Nul, Text], false))
    ensures Feed(ArgSp([id], [Text, Bar, Nul, Text], false), tail, rs) ==
              Delivered(Received(id, [Text, Bar, Nul, Text], args))
  {
    hide EncArgs, Feed, Quoted, Payload;
    assert Packed([id], [Text, Bar, Nul, Text]);
    KeyShapes(args);
    EncKey(args);
    if |args| == 1 && args[0].Buf? && 0 in args[0].s {
      assert args == [args[0]];
      OnePayload(args[0]);
      PairTail(id, args[0].s, tail, rs);
    } else if |args| == 3 {
      ThreePayload(args);
      KeyValueLine(id, args[0].s, args[2].s, rs);
      PairBytes(id, args[0].s, args[2].s);
    } else {
      FewPayload(args);
      KeyLine(id, args[0].s, rs);
    }
  }

  lemma {:induction false} PairTail(id: byte, s: seq<byte>, tail: seq<byte>, rs: seq<int>)
    requires id != SP && id != PSEUDO_HELP && |s| + 2 < LIMIT && 0 in s
    requires EncPair(s) == Some(tail) && |rs| == |tail| && Positive(rs)
    ensures ValidView(ArgSp([id], [Text, Bar, Nul, Text], false))
    ensures Feed(ArgSp([id], [Text, Bar, Nul, Text], false), tail, rs) == Delivered([id] + s)
  {
    hide Feed, Quoted;
    var k := |Bytes.CStr(s)|;
    PairSplit(s);
    KeyValueLine(id, s[..k], s[k + 1..], rs);
    PairBytes(id, s[..k], s[k + 1..]);
  }

  lemma {:induction false} KeyLine(id: byte, s: seq<byte>, rs: seq<int>)
    requires id != SP && id != PSEUDO_HELP && |s| + 2 < LIMIT
    requires |rs| == |[SP] + Quoted(s) + [CR, LF]| && Positive(rs)
    ensures ValidView(ArgSp([id], [Text, Bar, Nul, Text], false))
    ensures Feed(ArgSp([id], [Text, Bar, Nul, Text], false), [SP] + Quoted(s) + [CR, LF], rs) == Delivered([id] + s)
  {
    var fmt := [Text, Bar, Nul, Text];
    assert Packed([id], fmt);
    assert fmt == [Text] + [Bar, Nul, Text];
    assert TakesText([id], fmt, false, [id], [Bar, Nul, Text], false);
    hide TakesText, Feed, Quoted;
    TextLine([id], fmt, false, [id], [Bar, Nul, Text], false, s, rs);
  }

  lemma {:induction false} PairBytes(id: byte, k: seq<byte>, s: seq<byte>)
    ensures [id] + k + [0] + s == [id] + (k + [0] + s)
  {
  }

  lemma {:induction false} ThreePayload(args: seq<Arg>)
    requires |args| == 3 && IsText(args[0]) && args[1] == Chr(0) && IsText(args[2])
    ensures Payload(args) == args[0].s + [0] + args[2].s
  {
    var a1 := args[1..];
    var a2 := a1[1..];
    assert a2 == [args[2]];
    OnePayload(args[2]);
    assert Payload(a1) == [0] + args[2].s;
  }

  lemma {:induction false} FewPayload(args: seq<Arg>)
    requires 1 <= |args| <= 2 && IsText(args[0]) && (|args| == 2 ==> args[1] == Chr(0))
    ensures |args| == 1 ==> Payload(args) == args[0].s
    ensures |args| == 2 ==> Payload(args) == args[0].s + [0]
  {
    if |args| == 1 {
      assert args == [args[0]];
      OnePayload(args[0]);
    } else {
      assert args[1..] == [args[1]];
      OnePayload(args[1]);
    }
  }

  /** The line behind the command word delivers the payload. */
  lemma {:induction false} TailDecodes(id: byte, fmt: seq<Fmt>, args: seq<Arg>, tail: seq<byte>, rs: seq<int>)
    requires KnownFormat(fmt) && id != SP && id != PSEUDO_HELP && |Payload(args)| + 2 < LIMIT
    requires EncArgs(fmt, false, args) == Some(tail) && |rs| == |tail| && Positive(rs)
    ensures ValidView(ArgSp([id], fmt, false))
    ensures Feed(ArgSp([id], fmt, false), tail, rs) == Delivered(Received(id, fmt, args))
  {
    hide EncArgs, Feed, Payload;
    if fmt == [Text, Bar, Nul, Text] {
      KeyTail(id, args, tail, rs);
    } else if fmt == [Int, Text] {
      assert fmt == [Int] + [Text];
      IntTail(id, [Text], args, tail, rs);
    } else if fmt == [Int, Bar, Text] {
      assert fmt == [Int] + [Bar, Text];
      IntTail(id, [Bar, Text], args, tail, rs);
    } else {
      TextTail(id, fmt, args, tail, rs);
    }
  }

  /** The table entry that output_text() uses for a message: never one of the help entries. */
  lemma {:induction false} EntryIndex(msg: byte)
    requires msg != PSEUDO_HELP && Entry(msg, 0).Some?
    ensures Entry(msg, 0).value < 19
  {
    var j := Entry(msg, 0).value;
    assert CMDTAB[19].id == PSEUDO_HELP && CMDTAB[20].id == PSEUDO_HELP;
  }

  /** Decoding from the start of a line what output_text() sent delivers one message and ends at the
      start of a line; its payload is what the arguments stand for, except for a bare NUL. */
  lemma {:induction false} LineDecodes(msg: byte, args: seq<Arg>, rs: seq<int>)
    requires msg != PSEUDO_HELP && |Payload(args)| <= 65533 && Line(msg, args).Some?
    requires |rs| == |Line(msg, args).value| && Positive(rs)
    ensures Feed(Bol, Line(msg, args).value, rs) ==
              Delivered(Received(msg, CMDTAB[Entry(msg, 0).value].fmt, args))
  {
    hide Feed, Lookup, EncArgs, Received;
    EntryIndex(msg);
    var j := Entry(msg, 0).value;
    var e := CMDTAB[j];
    var tail := EncArgs(e.fmt, false, args).value;
    var n := |e.word|;
    WordShape(j);
    TableShape(j);
    assert SameWord(e.word, e.word);
    hide CMDTAB;
    FeedWord(e.word, rs[..n]);
    FeedThen(Bol, e.word, tail, rs, Cmd(e.word));
    TailDecodes(msg, e.fmt, args, tail, rs[n..]);
    TailStarts(e.fmt, false, args);
    WordEnds(j, e.word, tail[0], rs[n..][0]);
    FeedLike(Cmd(e.word), ArgSp([msg], e.fmt, false), tail, rs[n..]);
  }

  /** Arguments begin with a space, and a line ends with CR. */
  lemma {:induction false} TailStarts(tf: seq<Fmt>, opt: bool, args: seq<Arg>)
    ensures var r := EncArgs(tf, opt, args);
            r.Some? ==> r.value != [] && (r.value[0] == SP || r.value[0] == CR)
    decreases |args|
  {
    if args != [] {
      TailStarts(SkipBar(tf)[if SkipBar(tf) == [] then 0 else 1..], opt || (tf != [] && tf[0] == Bar), args[1..]);
    }
  }

  /** A message as the application sends it. */
  datatype Message = Message(msg: byte, args: seq<Arg>)

  /** A message that output_text() sends as a line that fits the decoder's buffer. */
  predicate Sendable(m: Message)
  {
    m.msg != PSEUDO_HELP && |Payload(m.args)| <= 65533 && Line(m.msg, m.args).Some?
  }

  /** A key with a bare NUL behind it. */
  predicate Bare(m: Message)
  {
    var e := Entry(m.msg, 0);
    e.Some? && BareNul(CMDTAB[e.value].fmt, m.args)
  }

  /** The text round trip, and exactly when it holds: all arguments but a key with a bare NUL. */
  lemma {:induction false} TextRoundTrip(m: Message, rs: seq<int>)
    requires Sendable(m) && |rs| == |Line(m.msg, m.args).value| && Positive(rs)
    ensures Feed(Bol, Line(m.msg, m.args).value, rs) == Turn(Bol, Wait, [Input(m.msg, Payload(m.args))]) <==> !Bare(m)
  {
    hide Feed, CMDTAB;
    LineDecodes(m.msg, m.args, rs);
    var fmt := CMDTAB[Entry(m.msg, 0).value].fmt;
    if BareNul(fmt, m.args) {
      KeyShapes(m.args);
      FewPayload(m.args);
      assert ([m.msg] + m.args[0].s)[1..] == m.args[0].s;
    } else {
      assert ([m.msg] + Payload(m.args))[1..] == Payload(m.args);
    }
  }

  /** A WRITE of the key "a", given as one argument, and one given with a bare NUL behind it. */
  lemma {:induction false} BareNulExample()
    ensures var plain, bare := Message(0x04, [Zstr([0x61])]), Message(0x04, [Zstr([0x61]), Chr(0)]);
            Sendable(plain) && !Bare(plain) && Sendable(bare) && Bare(bare)
  {
    EntryOfWrite();
    var key, fmt := Zstr([0x61]), [Text, Bar, Nul, Text];
    assert [key, Chr(0)][1..] == [Chr(0)] && [key][1..] == [] && [Chr(0)][1..] == [];
    assert fmt[1..] == [Bar, Nul, Text] && [Bar, Nul, Text][1..] == [Nul, Text] && [Nul, Text][1..] == [Text];
    assert EncArgs([Text], true, []).Some?;
    assert EncArgs([Bar, Nul, Text], false, [Chr(0)]).Some?;
    assert EncArgs(fmt, false, [key, Chr(0)]).Some? && EncArgs(fmt, false, [key]).Some?;
  }

  lemma {:induction false} EntryOfWrite()
    ensures Entry(0x04, 0).Some? && CMDTAB[Entry(0x04, 0).value].fmt == [Text, Bar, Nul, Text]
  {
    hide Entry;
    var e := Entry(0x04, 0);
    assert CMDTAB[7].id == 0x04;
    EntryFirst(0x04, 7);
  }

  lemma {:induction false} EntryFirst(msg: byte, k: nat)
    requires k < |CMDTAB| && CMDTAB[k].id == msg && forall j :: 0 <= j < k ==> CMDTAB[j].id != msg
    ensures Entry(msg, 0) == Some(k)
  {
    hide CMDTAB;
  }

  /** What that second WRITE arrives as: the key alone, without the NUL that was sent. */
  lemma {:induction false} BareNulFails(rs: seq<int>)
    requires var line := Line(0x04, [Zstr([0x61]), Chr(0)]); line.Some? && |rs| == |line.value| && Positive(rs)
    ensures var args := [Zstr([0x61]), Chr(0)];
            Payload(args) == [0x61, 0] && Feed(Bol, Line(0x04, args).value, rs) == Turn(Bol, Wait, [Input(0x04, [0x61])])
  {
    hide CMDTAB, Feed, Line;
    var args := [Zstr([0x61]), Chr(0)];
    BareNulExample();
    assert args[1..] == [Chr(0)] && [Chr(0)][1..] == [];
    assert Payload([Chr(0)]) == [0] + [];
    assert Payload(args) == [0x61, 0];
    LineDecodes(0x04, args, rs);
    assert [0x04] + [0x61] == [0x04, 0x61] && [0x04, 0x61][1..] == [0x61];
  }

  /** The lines of several messages, one behind the other. */
  function Lines(ms: seq<Message>): (r: seq<byte>)
    requires forall k :: 0 <= k < |ms| ==> Sendable(ms[k])
  {
    if ms == [] then []
    else
      var n := |ms| - 1;
      assert Sendable(ms[n]);
      Lines(ms[..n]) + Line(ms[n].msg, ms[n].args).value
  }

  function Inputs(ms: seq<Message>): (r: seq<Event>)
  {
    seq(|ms|, k requires 0 <= k < |ms| => Input(ms[k].msg, Payload(ms[k].args)))
  }

  /** A concatenation of encoded messages decodes to the same list of messages. */
  lemma {:induction false} StreamRoundTrip(ms: seq<Message>, rs: seq<int>)
    requires forall k :: 0 <= k < |ms| ==> Sendable(ms[k]) && !Bare(ms[k])
    requires |rs| == |Lines(ms)| && Positive(rs)
    ensures Feed(Bol, Lines(ms), rs) == Turn(Bol, Wait, Inputs(ms))
    decreases |ms|
  {
    if ms != [] {
      var n := |ms| - 1;
      LinesStep(ms);
      hide Feed, CMDTAB, Lines, Line, Sendable, Inputs, BareNul;
      var front, line := Lines(ms[..n]), Line(ms[n].msg, ms[n].args).value;
      StreamRoundTrip(ms[..n], rs[..|front|]);
      TextRoundTrip(ms[n], rs[|front|..]);
      FeedSplit(Bol, front, line, rs[..|front|], rs[|front|..]);
      Halves(rs, |front|);
    }
  }

  lemma {:induction false} LinesStep(ms: seq<Message>)
    requires ms != [] && forall k :: 0 <= k < |ms| ==> Sendable(ms[k])
    ensures var n := |ms| - 1;
            Line(ms[n].msg, ms[n].args).Some? && Lines(ms) == Lines(ms[..n]) + Line(ms[n].msg, ms[n].args).value &&
            Inputs(ms) == Inputs(ms[..n]) + [Input(ms[n].msg, Payload(ms[n].args))]
  {
    hide Line, Payload;
    assert Sendable(ms[|ms| - 1]);
  }

  // ---- what is on a line ----------------------------------------------------------------------------

  /** Bytes that stand in no line but for its end: CR, LF and NUL. */
  predicate Clean(s: seq<byte>)
  {
    forall k :: 0 <= k < |s| ==> s[k] != CR && s[k] != LF && s[k] != 0
  }

  lemma {:induction false} CleanJoin(a: seq<byte>, b: seq<byte>)
    requires Clean(a) && Clean(b)
    ensures Clean(a + b)
  {
  }

  /** A quoted string has no CR, LF, NUL or quote between its quotes. */
  lemma {:induction false} QuotedClean(s: seq<byte>)
    ensures Clean(QuoteBody(s)) && QUOTE !in QuoteBody(s) && Clean(Quoted(s))
    decreases |s|
  {
    if s != [] {
      QuotedClean(s[..|s| - 1]);
      var e := Escape(s[|s| - 1]);
      assert Clean(e) && QUOTE !in e;
    }
  }

  /** A line ends with CR LF, and has no CR, LF or NUL before that. */
  predicate OneLine(s: seq<byte>)
  {
    |s| >= 2 && s[|s| - 2] == CR && s[|s| - 1] == LF && Clean(s[..|s| - 2])
  }

  lemma {:induction false} OneLineJoin(a: seq<byte>, b: seq<byte>)
    requires Clean(a) && OneLine(b)
    ensures OneLine(a + b)
  {
    assert (a + b)[..|a + b| - 2] == a + b[..|b| - 2];
    CleanJoin(a, b[..|b| - 2]);
  }

  lemma {:induction false} DecimalClean(n: nat)
    requires n < 256
    ensures Clean([SP] + Decimal(n))
  {
  }

  lemma {:induction false} TextOneLine(s: seq<byte>, rest: Option<seq<byte>>)
    requires rest.Some? ==> OneLine(rest.value)
    ensures EncText(s, rest).Some? ==> OneLine(EncText(s, rest).value)
  {
    hide Quoted, Clean, OneLine;
    QuotedClean(s);
    assert Clean([SP]) by { SpaceClean(); }
    CleanJoin([SP], Quoted(s));
    if rest.Some? { OneLineJoin([SP] + Quoted(s), rest.value); }
  }

  lemma {:induction false} SpaceClean()
    ensures Clean([SP]) && OneLine([CR, LF])
  {
  }

  lemma {:induction false} ArgsOneLine(tf: seq<Fmt>, opt: bool, args: seq<Arg>)
    ensures EncArgs(tf, opt, args).Some? ==> OneLine(EncArgs(tf, opt, args).value)
    decreases |args|
  {
    hide EncText, OneLine, Clean, Decimal;
    SpaceClean();
    if args != [] {
      var t, opt1 := SkipBar(tf), opt || (tf != [] && tf[0] == Bar);
      if t != [] {
        var rest := EncArgs(t[1..], opt1, args[1..]);
        ArgsOneLine(t[1..], opt1, args[1..]);
        if args[0].Chr? {
          DecimalClean(args[0].c % 256);
          if rest.Some? { OneLineJoin([SP] + Decimal(args[0].c % 256), rest.value); }
        } else {
          TextOneLine(args[0].s, rest);
          var k := |CStr(args[0].s)|;
          if k < |args[0].s| {
            TextOneLine(args[0].s[k + 1..], Some([CR, LF]));
            TextOneLine(args[0].s[..k], EncText(args[0].s[k + 1..], Some([CR, LF])));
          }
        }
      }
    }
  }

  /** Whatever bytes are sent, a message is exactly one line. */
  lemma {:induction false} MessageIsOneLine(msg: byte, args: seq<Arg>)
    ensures Line(msg, args).Some? ==> OneLine(Line(msg, args).value)
  {
    var j := Entry(msg, 0);
    if j.Some? && EncArgs(CMDTAB[j.value].fmt, false, args).Some? {
      WordShape(j.value);
      assert Clean(CMDTAB[j.value].word);
      hide CMDTAB, EncArgs, OneLine;
      ArgsOneLine(CMDTAB[j.value].fmt, false, args);
      OneLineJoin(CMDTAB[j.value].word, EncArgs(CMDTAB[j.value].fmt, false, args).value);
    }
  }

  // ---- output_text() ------------------------------------------------------------------------------

  /** output_text_string(): the quoted string, or false when it is too big. */
  method OutputTextString(out: seq<byte>, str: seq<byte>) returns (ok: bool, out': seq<byte>)
    ensures ok == (|str| <= 0xffff)
    ensures ok ==> out' == out + Quoted(str)
  {
    if |str| > 0xffff {
      return false, out;
    }
    out' := out + [QUOTE];
    for k := 0 to |str|
      invariant out' == out + ([QUOTE] + QuoteBody(str[..k]))
    {
      assert str[..k + 1][..k] == str[..k];
      Associates(out, [QUOTE] + QuoteBody(str[..k]), Escape(str[k]));
      Associates([QUOTE], QuoteBody(str[..k]), Escape(str[k]));
      var ch := str[k];
      if ch == LF || ch == CR || ch == QUOTE || ch == BACKSLASH || ch == 0 {
        out' := out' + [BACKSLASH, 0x30 + ch / 64, 0x30 + ch / 8 % 8, 0x30 + ch % 8];
      } else {
        out' := out' + [ch];
      }
    }
    assert str[..|str|] == str;
    Associates(out, [QUOTE] + QuoteBody(str), [QUOTE]);
    return true, out' + [QUOTE];
  }

  /** A %*s that satisfies t|0t by itself: it comes last and its data contains a NUL. */
  predicate IsPair(tf: seq<Fmt>, a: Arg, last: bool)
  {
    last && a.Buf? && tf == [Text, Bar, Nul, Text] && 0 in a.s
  }

  /** One argument in output_text(): the text so far, or None for an error. */
  method OutputArg(out: seq<byte>, tf: seq<Fmt>, a: Arg, last: bool) returns (r: Option<seq<byte>>, whole: bool)
    requires tf != [] && tf[0] != Bar
    ensures whole == IsPair(tf, a, last)
    ensures whole ==> Glue(out, EncPair(a.s)) == if r.None? then None else Some(r.value + [CR, LF])
    ensures !whole ==>
              match tf[0]
              case Int => r == if a.Chr? then Some(out + ([SP] + Decimal(a.c % 256))) else None
              case Nul => r == if a == Chr(0) then Some(out) else None
              case Text => r == if a.Chr? || |a.s| > 0xffff then None else Some(out + ([SP] + Quoted(a.s)))
              case Bar => true
  {
    whole := false;
    match tf[0] {
      case Int =>
        r := if a.Chr? then Some(out + ([SP] + Decimal(a.c % 256))) else None;
      case Nul =>
        r := if a == Chr(0) then Some(out) else None;
      case Text =>
        if a.Chr? {
          return None, false;
        }
        var str, text := a.s, out + [SP];
        var ok;
        if a.Buf? && tf[1..] == [Bar, Nul, Text] && last && 0 in str {
          assert tf == [tf[0]] + tf[1..];
          whole := true;
          var k := |Bytes.CStr(str)|;
          PairText(out, str);
          ok, text := OutputTextString(text, str[..k]);
          if !ok {
            return None, true;
          }
          text := text + [SP];
          str := str[k + 1..];
        }
        ok, text := OutputTextString(text, str);
        if !ok {
          return None, whole;
        }
        r := Some(text);
        Associates(out, [SP], Quoted(a.s));
    }
  }

  lemma {:induction false} PairText(out: seq<byte>, s: seq<byte>)
    requires 0 in s
    ensures var k := |Bytes.CStr(s)|;
            Glue(out, EncPair(s)) ==
              if k > 0xffff || |s| - k - 1 > 0xffff then None
              else Some(out + [SP] + Quoted(s[..k]) + [SP] + Quoted(s[k + 1..]) + [CR, LF])
  {
    var k := |Bytes.CStr(s)|;
    hide Quoted;
    var a, b := Quoted(s[..k]), Quoted(s[k + 1..]);
    assert out + (([SP] + a) + (([SP] + b) + [CR, LF])) == out + [SP] + a + [SP] + b + [CR, LF];
  }

  /** output_text(): the line for a message, or None for an error. */
  method OutputText(msg: byte, args: seq<Arg>) returns (r: Option<seq<byte>>)
    ensures r == Line(msg, args)
  {
    var j := 0;
    while j < |CMDTAB| && CMDTAB[j].id != msg
      invariant j <= |CMDTAB| && Entry(msg, 0) == Entry(msg, j)
    {
      j := j + 1;
    }
    if j == |CMDTAB| {
      return None;
    }
    var word := CMDTAB[j].word;
    var out, tf, opt, k := word, CMDTAB[j].fmt, false, 0;
    ghost var line := Line(msg, args);
    assert args[0..] == args;
    assert line == Glue(out, EncArgs(tf, opt, args));
    hide CMDTAB, Entry, Line;
    while k < |args|
      invariant k <= |args| && line == Glue(out, EncArgs(tf, opt, args[k..]))
    {
      hide Quoted, Decimal, EncPair, EncArgs;
      ghost var tf0, opt0, rest := tf, opt, args[k..];
      while tf != [] && tf[0] == Bar
        invariant SkipBar(tf) == SkipBar(tf0) && opt == (opt0 || tf != tf0)
        invariant tf == tf0 || (tf0 != [] && tf0[0] == Bar)
        decreases |tf|
      {
        opt, tf := true, tf[1..];
      }
      EncNext(tf0, opt0, rest, out);
      assert rest[0] == args[k] && rest[1..] == args[k + 1..];
      if tf == [] {
        return None;
      }
      var a := args[k];
      var text, whole := OutputArg(out, tf, a, k + 1 == |args|);
      if text.None? {
        return None;
      }
      out := text.value;
      if whole {
        tf, opt := [], true;
        EncDone(true, []);
        assert args[k + 1..] == [];
      } else {
        tf := tf[1..];
      }
      k := k + 1;
    }
    assert args[k..] == [];
    if !opt && tf != [] && tf[0] != Bar {
      return None;
    }
    r := Some(out + [CR, LF]);
  }

  /** EncArgs(), one argument further. */
  lemma {:induction false} EncNext(tf: seq<Fmt>, opt: bool, args: seq<Arg>, out: seq<byte>)
    requires args != []
    ensures var t := SkipBar(tf);
            var opt1 := opt || (tf != [] && tf[0] == Bar);
            var r, a := Glue(out, EncArgs(tf, opt, args)), args[0];
            (t == [] ==> r == None) && (t != [] ==> t[0] != Bar) &&
            (t != [] && IsPair(t, a, |args| == 1) ==> r == Glue(out, EncPair(a.s))) &&
            (t != [] && !IsPair(t, a, |args| == 1) ==>
               var rest := EncArgs(t[1..], opt1, args[1..]);
               match t[0]
               case Int => r == if a.Chr? then Glue(out + ([SP] + Decimal(a.c % 256)), rest) else None
               case Nul => r == if a == Chr(0) then Glue(out, rest) else None
               case Text => r == if a.Chr? || |a.s| > 0xffff then None else Glue(out + ([SP] + Quoted(a.s)), rest)
               case Bar => true)
  {
    var t := SkipBar(tf);
    SkipBarStops(tf);
    var opt1 := opt || (tf != [] && tf[0] == Bar);
    if t != [] {
      var rest, a := EncArgs(t[1..], opt1, args[1..]), args[0];
      assert t == [t[0]] + t[1..];
      hide Quoted, Decimal, EncPair, SkipBar;
      if rest.Some? && a.Chr? { Associates(out, [SP] + Decimal(a.c % 256), rest.value); }
      if rest.Some? && !a.Chr? { Associates(out, [SP] + Quoted(a.s), rest.value); }
    }
  }

  lemma {:induction false} SkipBarStops(tf: seq<Fmt>)
    ensures SkipBar(tf) != [] ==> SkipBar(tf)[0] != Bar
    decreases |tf|
  {
    if tf != [] && tf[0] == Bar { SkipBarStops(tf[1..]); }
  }
}
