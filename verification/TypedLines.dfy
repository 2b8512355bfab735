/** Lines as people type them: command words in any letter case, spaces, and arguments without quotes. What the
    decoder makes of a line, and that it makes one thing of it. */
module TypedLines {
  import opened Bytes
  import opened RxBufs
  import opened TextProto
  import opened TextCodec
  import Infod
  import Wire

  function Spaces(n: nat): (r: seq<byte>)
    ensures |r| == n && forall k :: 0 <= k < n ==> r[k] == SP
  {
    if n == 0 then [] else Spaces(n - 1) + [SP]
  }

  predicate NoEol(s: seq<byte>)
  {
    forall k :: 0 <= k < |s| ==> !IsEol(s[k])
  }

  // ---- an argument without quotes -------------------------------------------------------------------

  lemma {:induction false} FeedNone(v: View)
    requires ValidView(v)
    ensures Feed(v, [], []) == Turn(v, Wait, [])
  {
  }

  lemma {:induction false} StrKeeps(rx: seq<byte>, fmt: seq<Fmt>, opt: bool, ch: byte, reply: int)
    requires Packed(rx, fmt) && |rx| < LIMIT && !IsEol(ch) && (fmt != [] ==> ch != SP)
    ensures Recv(Str(rx, fmt, opt), ch, reply) == Turn(Str(rx + [ch], fmt, opt), Wait, [])
  {
    var v := Str(rx, fmt, opt);
    assert Micro(v, ch, reply) == Turn(Str(rx + [ch], fmt, opt), Wait, []);
    hide Micro;
    RecvWait(v, ch, reply);
  }

  /** The bytes of an argument without quotes go into the message as they are. */
  lemma {:induction false} FeedStr(rx: seq<byte>, fmt: seq<Fmt>, opt: bool, w: seq<byte>, rs: seq<int>)
    requires Packed(rx, fmt) && |rx| + |w| <= LIMIT && |rs| == |w| && NoEol(w) && (fmt != [] ==> SP !in w)
    ensures Feed(Str(rx, fmt, opt), w, rs) == Turn(Str(rx + w, fmt, opt), Wait, [])
    decreases |w|
  {
    hide Feed, Recv, Micro, LIMIT, IsEol;
    if w == [] {
      assert rx + w == rx;
      FeedNone(Str(rx, fmt, opt));
    } else {
      var n := |w| - 1;
      FeedStr(rx, fmt, opt, w[..n], rs[..n]);
      PackedMore(rx, fmt, w[..n]);
      StrKeeps(rx + w[..n], fmt, opt, w[n], rs[n]);
      FeedNext(Str(rx, fmt, opt), w[..n], rs[..n], w[n], rs[n]);
      Snoc(rx, w);
      assert rs == rs[..n] + [rs[n]];
    }
  }

  lemma {:induction false} TrimTrailing(s: seq<byte>, n: nat)
    requires s != [] && s[|s| - 1] != SP
    ensures TrimSpace(s + Spaces(n)) == s
    decreases n
  {
    if n == 0 {
      assert s + Spaces(0) == s;
    } else {
      var t := s + Spaces(n);
      assert t[|t| - 1] == Spaces(n)[n - 1] == SP;
      assert t[..|t| - 1] == s + Spaces(n - 1);
      TrimTrailing(s, n - 1);
    }
  }

  /** A stretch of bytes that all leave the decoder where it is. */
  lemma {:induction false} FeedStill(v: View, bs: seq<byte>, rs: seq<int>)
    requires ValidView(v) && |rs| == |bs| && forall k :: 0 <= k < |bs| ==> Recv(v, bs[k], rs[k]) == Turn(v, Wait, [])
    ensures Feed(v, bs, rs) == Turn(v, Wait, [])
    decreases |bs|
  {
    hide Feed, Recv, ValidView;
    if bs == [] {
      FeedNone(v);
    } else {
      var n := |bs| - 1;
      FeedStill(v, bs[..n], rs[..n]);
      FeedNext(v, bs[..n], rs[..n], bs[n], rs[n]);
      assert bs == bs[..n] + [bs[n]] && rs == rs[..n] + [rs[n]];
    }
  }

  /** Spaces before an argument are skipped. */
  lemma {:induction false} SpacesSkipped(rx: seq<byte>, fmt: seq<Fmt>, opt: bool, n: nat, rs: seq<int>)
    requires Packed(rx, fmt) && |rs| == n
    ensures Feed(ArgSp(rx, fmt, opt), Spaces(n), rs) == Turn(ArgSp(rx, fmt, opt), Wait, [])
  {
    hide Feed, Recv, Micro, Packed;
    var v := ArgSp(rx, fmt, opt);
    forall k | 0 <= k < n ensures Recv(v, Spaces(n)[k], rs[k]) == Turn(v, Wait, []) {
      SpaceSkipped(rx, fmt, opt, rs[k]);
      FeedOne(v, SP, rs[k]);
    }
    FeedStill(v, Spaces(n), rs);
  }

  // ---- errors ---------------------------------------------------------------------------------------

  lemma {:induction false} ErrorStays(b: byte, reply: int)
    requires !IsEol(b)
    ensures Recv(Error, b, reply) == Turn(Error, Wait, [])
  {
    assert Micro(Error, b, reply) == Turn(Error, Wait, []);
    hide Micro;
    RecvWait(Error, b, reply);
  }

  /** After an error the rest of the line is ignored. */
  lemma {:induction false} RestIgnored(bs: seq<byte>, rs: seq<int>)
    requires NoEol(bs) && |rs| == |bs|
    ensures Feed(Error, bs, rs) == Turn(Error, Wait, [])
  {
    hide Feed, Recv, Micro;
    forall k | 0 <= k < |bs| ensures Recv(Error, bs[k], rs[k]) == Turn(Error, Wait, []) { ErrorStays(bs[k], rs[k]); }
    FeedStill(Error, bs, rs);
  }

  /** A byte that is an error: one ERROR, and the next line starts afresh. */
  lemma {:induction false} Rejected(v: View, bs: seq<byte>, eol: byte, rs: seq<int>, code: nat)
    requires ValidView(v) && bs != [] && NoEol(bs) && IsEol(eol) && |rs| == |bs| + 1
    requires Recv(v, bs[0], rs[0]) == Turn(Error, Wait, [ErrorOut(code)])
    ensures Feed(v, bs + [eol], rs) == Turn(Bol, Wait, [ErrorOut(code)])
  {
    hide Feed, Recv, ValidView;
    var b, more, n := bs[0], bs[1..], |bs| - 1;
    FeedOne(v, b, rs[0]);
    RestIgnored(more, rs[1..][..n]);
    assert Micro(Error, eol, rs[|bs|]) == Turn(Bol, Wait, []);
    assert ValidView(Error) by { ErrorValid(); }
    RecvWait(Error, eol, rs[|bs|]);
    FeedNext(Error, more, rs[1..][..n], eol, rs[|bs|]);
    assert rs[1..] == rs[1..][..n] + [rs[|bs|]];
    FeedSplit(v, [b], more + [eol], [rs[0]], rs[1..]);
    assert bs + [eol] == [b] + (more + [eol]) && rs == [rs[0]] + rs[1..];
    assert [ErrorOut(code)] + [] == [ErrorOut(code)];
  }

  lemma {:induction false} ErrorValid()
    ensures ValidView(Error)
  {
  }

  /** A turn that reports an error and looks again. */
  lemma {:induction false} RecvFails(v: View, ch: byte, reply: int, code: nat)
    requires ValidView(v) && !IsEol(ch) && Micro(v, ch, reply) == Fails(code)
    ensures Recv(v, ch, reply) == Turn(Error, Wait, [ErrorOut(code)])
  {
    AgainDescends(v, ch, reply);
    assert Micro(Error, ch, reply) == Turn(Error, Wait, []);
    hide Micro, ValidView;
    ErrorValid();
    RecvWait(Error, ch, reply);
    assert [ErrorOut(code)] + [] == [ErrorOut(code)];
  }

  // ---- arguments ------------------------------------------------------------------------------------

  /** An argument and the spaces before it. */
  datatype Piece = Piece(gap: nat, body: seq<byte>)

  /** Something to read: not blank, on one line, and without a quote in front. */
  predicate Written(p: Piece)
  {
    p.gap > 0 && p.body != [] && NoEol(p.body) && p.body[0] != SP && p.body[0] != QUOTE
  }

  function ArgsText(ps: seq<Piece>): (r: seq<byte>)
  {
    if ps == [] then [] else Spaces(ps[0].gap) + ps[0].body + ArgsText(ps[1..])
  }

  /** The line behind the command word. */
  function Tail(ps: seq<Piece>, trail: nat, eol: byte): (r: seq<byte>)
  {
    ArgsText(ps) + Spaces(trail) + [eol]
  }

  /** The same without the spaces before the first argument. */
  function Head(ps: seq<Piece>, trail: nat, eol: byte): (r: seq<byte>)
    requires ps != []
  {
    ps[0].body + Tail(ps[1..], trail, eol)
  }

  /** Arguments that the format can tell apart: only the last text may have spaces in it, and an int that is
      there has nothing but digits. */
  predicate Typable(fmt: seq<Fmt>, ps: seq<Piece>)
    decreases |ps|, |fmt|
  {
    ps == [] || fmt == [] || (ps[0].body != [] &&
    match fmt[0]
    case Bar => Typable(fmt[1..], ps)
    case Nul => Typable(fmt[1..], ps)
    case Int => if IsDigit(ps[0].body[0]) then Digits(ps[0].body) && Typable(fmt[1..], ps[1..]) else Typable(fmt[1..], ps)
    case Text =>
      if |fmt| == 1 then |ps| == 1 && ps[0].body[|ps[0].body| - 1] != SP
      else SP !in ps[0].body && Typable(fmt[1..], ps[1..]))
  }

  datatype Reading = Takes(data: seq<byte>) | Rejects(code: nat)

  function Then(a: seq<byte>, r: Reading): (s: Reading)
  {
    if r.Takes? then Takes(a + r.data) else r
  }

  /** What arguments mean to a format: the bytes of texts as they are, a NUL between a key and its value, a
      byte for an int, and 0 for an int that is left out before a text. */
  function Reads(fmt: seq<Fmt>, opt: bool, ps: seq<Piece>): (r: Reading)
    requires Typable(fmt, ps)
    decreases |ps|, |fmt|
  {
    if ps == [] then (if opt || fmt == [] || fmt[0] == Bar then Takes([]) else Rejects(BAD_ARG))
    else if fmt == [] then Rejects(BAD_ARG)
    else
      match fmt[0]
      case Bar => Reads(fmt[1..], true, ps)
      case Nul => Then([0], Reads(fmt[1..], opt, ps))
      case Text => Then(ps[0].body, Reads(fmt[1..], opt, ps[1..]))
      case Int =>
        if !IsDigit(ps[0].body[0]) then Then([0], Reads(fmt[1..], opt, ps))
        else if Number(ps[0].body) > 255 then Rejects(BAD_MSG)
        else Then([Number(ps[0].body)], Reads(fmt[1..], opt, ps[1..]))
  }

  /** What the decoder hands on for a packed command. */
  function Event(rx: seq<byte>): (r: TextProto.Event)
    requires rx != []
  {
    if rx[0] == PSEUDO_HELP then Help else Input(rx[0], rx[1..])
  }

  function Ends(rx: seq<byte>, r: Reading): (t: Turn)
    requires rx != []
  {
    Turn(Bol, Wait, [if r.Takes? then Event(rx + r.data) else ErrorOut(r.code)])
  }

  lemma {:induction false} EndsThen(rx: seq<byte>, a: seq<byte>, r: Reading)
    requires rx != []
    ensures Ends(rx, Then(a, r)) == Ends(rx + a, r)
  {
    if r.Takes? { Associates(rx, a, r.data); }
  }

  lemma {:induction false} EndsRejects(rx: seq<byte>, code: nat)
    requires rx != []
    ensures Ends(rx, Rejects(code)) == Turn(Bol, Wait, [ErrorOut(code)])
  {
  }

  lemma {:induction false} NoEolJoin(a: seq<byte>, b: seq<byte>)
    requires NoEol(a) && NoEol(b)
    ensures NoEol(a + b)
  {
  }

  lemma {:induction false} SpacesNoEol(n: nat)
    ensures |Spaces(n)| == n && NoEol(Spaces(n))
  {
  }

  lemma {:induction false} ArgsNoEol(ps: seq<Piece>)
    requires forall k :: 0 <= k < |ps| ==> Written(ps[k])
    ensures NoEol(ArgsText(ps))
    decreases |ps|
  {
    hide NoEol;
    if ps == [] {
      SpacesNoEol(0);
    } else {
      assert Written(ps[0]);
      ArgsNoEol(ps[1..]);
      SpacesNoEol(ps[0].gap);
      NoEolJoin(Spaces(ps[0].gap), ps[0].body);
      NoEolJoin(Spaces(ps[0].gap) + ps[0].body, ArgsText(ps[1..]));
    }
  }

  /** A line behind its command word, or behind the spaces there, has its end of line at the end. */
  lemma {:induction false} TailShape(ps: seq<Piece>, trail: nat, eol: byte)
    requires forall k :: 0 <= k < |ps| ==> Written(ps[k])
    ensures var t := Tail(ps, trail, eol);
            t != [] && t == t[..|t| - 1] + [eol] && NoEol(t[..|t| - 1]) && t[0] == (if ps == [] && trail == 0 then eol else SP)
  {
    hide NoEol, Spaces;
    ArgsNoEol(ps);
    SpacesNoEol(trail);
    NoEolJoin(ArgsText(ps), Spaces(trail));
    var t := Tail(ps, trail, eol);
    assert t[..|t| - 1] == ArgsText(ps) + Spaces(trail);
    TailFirst(ps, trail, eol);
  }

  lemma {:induction false} TailFirst(ps: seq<Piece>, trail: nat, eol: byte)
    requires forall k :: 0 <= k < |ps| ==> Written(ps[k])
    ensures Tail(ps, trail, eol)[0] == (if ps == [] && trail == 0 then eol else SP)
  {
    if ps != [] { assert Written(ps[0]); }
  }

  // ---- reading arguments ----------------------------------------------------------------------------

  lemma {:induction false} EolEnds(rx: seq<byte>, fmt: seq<Fmt>, opt: bool, eol: byte, reply: int)
    requires Packed(rx, fmt) && |rx| + 1 < LIMIT && IsEol(eol) && reply > 0
    ensures Recv(ArgSp(rx, fmt, opt), eol, reply) == Ends(rx, Reads(fmt, opt, []))
  {
    var v := ArgSp(rx, fmt, opt);
    assert rx + [] == rx;
    assert Micro(v, eol, reply) == Ends(rx, Reads(fmt, opt, []));
    hide Micro;
    RecvWait(v, eol, reply);
  }

  lemma {:induction false} NothingTyped(rx: seq<byte>, fmt: seq<Fmt>, opt: bool, trail: nat, eol: byte, rs: seq<int>)
    requires Packed(rx, fmt) && |rx| + 1 < LIMIT && IsEol(eol) && |rs| == trail + 1 && Positive(rs)
    ensures Feed(ArgSp(rx, fmt, opt), Spaces(trail) + [eol], rs) == Ends(rx, Reads(fmt, opt, []))
  {
    hide Feed, Recv, Packed, LIMIT, Reads, Ends;
    var v := ArgSp(rx, fmt, opt);
    SpacesSkipped(rx, fmt, opt, trail, rs[..trail]);
    FeedThen(v, Spaces(trail), [eol], rs, v);
    assert rs[trail..] == [rs[trail]];
    FeedOne(v, eol, rs[trail]);
    EolEnds(rx, fmt, opt, eol, rs[trail]);
  }

  /** An argument for which there is no place. */
  lemma {:induction false} Surplus(rx: seq<byte>, opt: bool, bs: seq<byte>, eol: byte, rs: seq<int>)
    requires Packed(rx, []) && bs != [] && NoEol(bs) && IsEol(eol) && |rs| == |bs| + 1 && bs[0] != SP
    ensures Feed(ArgSp(rx, [], opt), bs + [eol], rs) == Turn(Bol, Wait, [ErrorOut(BAD_ARG)])
  {
    var v := ArgSp(rx, [], opt);
    assert Micro(v, bs[0], rs[0]) == Fails(BAD_ARG);
    hide Micro, Feed, Recv;
    RecvFails(v, bs[0], rs[0], BAD_ARG);
    Rejected(v, bs, eol, rs, BAD_ARG);
  }

  /** Before an argument, a bar in the format is passed, a 0 stores a NUL, and so does an int without digits. */
  lemma {:induction false} FormatPasses(rx: seq<byte>, fmt: seq<Fmt>, opt: bool, b: byte, reply: int)
    requires Packed(rx, fmt) && |rx| < LIMIT && fmt != [] && b != SP && !IsEol(b)
    requires fmt[0] == Bar || fmt[0] == Nul || (fmt[0] == Int && !IsDigit(b))
    ensures var rx' := if fmt[0] == Bar then rx else rx + [0];
            Packed(rx', fmt[1..]) &&
            Recv(ArgSp(rx, fmt, opt), b, reply) == Recv(ArgSp(rx', fmt[1..], opt || fmt[0] == Bar), b, reply)
  {
    var f, rx' := fmt[1..], if fmt[0] == Bar then rx else rx + [0];
    assert forall k :: 0 <= k < |f| ==> f[k] == fmt[k + 1];
    assert Packed(rx', f);
    var v, w := ArgSp(rx, fmt, opt), ArgSp(rx', f, opt || fmt[0] == Bar);
    if fmt[0] == Bar {
      assert f == [] || f[0] != Bar;
      assert Micro(v, b, reply) == Micro(w, b, reply);
      hide Micro;
      SameMicro(v, w, b, reply);
    } else if fmt[0] == Nul {
      assert Micro(v, b, reply) == Turn(w, Again, []);
      hide Micro;
      RecvAgain(v, w, b, reply);
    } else {
      var u := InInt(rx, f, opt, 0);
      assert Micro(v, b, reply) == Turn(u, Again, []) && Micro(u, b, reply) == Turn(w, Again, []);
      hide Micro;
      RecvAgain(v, u, b, reply);
      RecvAgain(u, w, b, reply);
    }
  }

  lemma {:induction false} SameMicro(v: View, w: View, b: byte, reply: int)
    requires ValidView(v) && ValidView(w) && Micro(v, b, reply) == Micro(w, b, reply)
    ensures Recv(v, b, reply) == Recv(w, b, reply)
  {
    hide Micro, ValidView;
  }

  lemma {:induction false} TextStarts(rx: seq<byte>, fmt: seq<Fmt>, opt: bool, b: byte, reply: int)
    requires Packed(rx, fmt) && fmt != [] && fmt[0] == Text && b != SP && !IsEol(b) && b != QUOTE
    ensures Packed(rx, fmt[1..]) && Recv(ArgSp(rx, fmt, opt), b, reply) == Recv(Str(rx, fmt[1..], opt), b, reply)
  {
    var f := fmt[1..];
    assert forall k :: 0 <= k < |f| ==> f[k] == fmt[k + 1];
    assert Packed(rx, f);
    var v, beg, w := ArgSp(rx, fmt, opt), StrBeg(rx, f, opt), Str(rx, f, opt);
    assert Micro(v, b, reply) == Turn(beg, Again, []) && Micro(beg, b, reply) == Turn(w, Again, []);
    hide Micro;
    RecvAgain(v, beg, b, reply);
    RecvAgain(beg, w, b, reply);
  }

  lemma {:induction false} TextStops(rx: seq<byte>, fmt: seq<Fmt>, opt: bool, ch: byte, reply: int)
    requires Packed(rx, fmt) && (IsEol(ch) || (fmt != [] && ch == SP))
    requires fmt == [] ==> TrimSpace(rx) != [] && TrimSpace(rx)[0] == rx[0]
    ensures var rx' := if fmt == [] then TrimSpace(rx) else rx;
            Packed(rx', fmt) && Recv(Str(rx, fmt, opt), ch, reply) == Recv(ArgSp(rx', fmt, opt), ch, reply)
  {
    var rx' := if fmt == [] then TrimSpace(rx) else rx;
    assert Packed(rx', fmt);
    var v, w := Str(rx, fmt, opt), ArgSp(rx', fmt, opt);
    assert Micro(v, ch, reply) == Turn(w, Again, []);
    hide Micro;
    RecvAgain(v, w, ch, reply);
  }

  /** A text argument that another may follow. */
  lemma {:induction false} MidText(rx: seq<byte>, fmt: seq<Fmt>, opt: bool, body: seq<byte>, rest: seq<byte>, rs: seq<int>)
    requires Packed(rx, fmt) && |fmt| > 1 && fmt[0] == Text && |rx| + |body| <= LIMIT && |rs| == |body| + |rest|
    requires body != [] && NoEol(body) && SP !in body && body[0] != QUOTE && rest != [] && (rest[0] == SP || IsEol(rest[0]))
    ensures Packed(rx + body, fmt[1..])
    ensures Feed(ArgSp(rx, fmt, opt), body + rest, rs) == Feed(ArgSp(rx + body, fmt[1..], opt), rest, rs[|body|..])
  {
    hide Feed, Recv, LIMIT, Packed;
    var f, n := fmt[1..], |body|;
    assert body[0] in body;
    TextStarts(rx, fmt, opt, body[0], rs[0]);
    FeedLike(ArgSp(rx, fmt, opt), Str(rx, f, opt), body + rest, rs);
    FeedStr(rx, f, opt, body, rs[..n]);
    PackedMore(rx, f, body);
    FeedThen(Str(rx, f, opt), body, rest, rs, Str(rx + body, f, opt));
    TextStops(rx + body, f, opt, rest[0], rs[n..][0]);
    FeedLike(Str(rx + body, f, opt), ArgSp(rx + body, f, opt), rest, rs[n..]);
  }

  lemma {:induction false} TextToEol(rx: seq<byte>, opt: bool, w: seq<byte>, rx': seq<byte>, eol: byte, rs: seq<int>)
    requires Packed(rx, []) && |rx| + |w| <= LIMIT && |rs| == |w| + 1 && NoEol(w) && IsEol(eol)
    requires TrimSpace(rx + w) == rx' != [] && rx'[0] == rx[0] && |rx'| + 1 < LIMIT && rs[|w|] > 0
    ensures Feed(Str(rx, [], opt), w + [eol], rs) == Ends(rx', Takes([]))
  {
    hide Feed, Recv, LIMIT, Packed, Ends, TrimSpace, NoEol;
    var n := |w|;
    FeedStr(rx, [], opt, w, rs[..n]);
    PackedMore(rx, [], w);
    FeedThen(Str(rx, [], opt), w, [eol], rs, Str(rx + w, [], opt));
    TextStops(rx + w, [], opt, eol, rs[n]);
    assert rs[n..] == [rs[n]];
    FeedOne(Str(rx + w, [], opt), eol, rs[n]);
    EolEnds(rx', [], opt, eol, rs[n]);
  }

  /** The last text argument goes to the end of the line, but for trailing spaces. */
  lemma {:induction false} LastText(rx: seq<byte>, opt: bool, body: seq<byte>, trail: nat, eol: byte, rs: seq<int>)
    requires Packed(rx, [Text]) && |rx| + |body| + trail + 1 < LIMIT && |rs| == |body| + trail + 1 && Positive(rs)
    requires body != [] && NoEol(body) && body[0] != SP && body[0] != QUOTE && body[|body| - 1] != SP && IsEol(eol)
    ensures Feed(ArgSp(rx, [Text], opt), body + Spaces(trail) + [eol], rs) == Ends(rx + body, Takes([]))
  {
    assert [Text][1..] == [] && rx != [];
    hide Feed, Recv, Micro, LIMIT, Packed, Ends, TrimSpace, Spaces, NoEol;
    var w := body + Spaces(trail);
    SpacesNoEol(trail);
    NoEolJoin(body, Spaces(trail));
    FirstNoEol(body);
    TextStarts(rx, [Text], opt, body[0], rs[0]);
    FeedLike(ArgSp(rx, [Text], opt), Str(rx, [], opt), w + [eol], rs);
    Associates(rx, body, Spaces(trail));
    TrimTrailing(rx + body, trail);
    TextToEol(rx, opt, w, rx + body, eol, rs);
  }

  /** An int argument is stored as a byte. */
  lemma {:induction false} IntTyped(rx: seq<byte>, fmt: seq<Fmt>, opt: bool, ds: seq<byte>, rest: seq<byte>, rs: seq<int>)
    requires Packed(rx, [Int] + fmt) && |rx| < LIMIT && ds != [] && Digits(ds) && Number(ds) < 256 && |rs| == |ds| + |rest|
    requires rest != [] && (rest[0] == SP || IsEol(rest[0]))
    ensures Packed(rx + [Number(ds)], fmt)
    ensures Feed(ArgSp(rx, [Int] + fmt, opt), ds + rest, rs) == Feed(ArgSp(rx + [Number(ds)], fmt, opt), rest, rs[|ds|..])
  {
    hide Feed, Recv, Packed, LIMIT, Number;
    var n, v := |ds|, ArgSp(rx, [Int] + fmt, opt);
    var w := InInt(rx, fmt, opt, Number(ds));
    FeedDigits(rx, fmt, opt, ds, rs[..n]);
    FeedThen(v, ds, rest, rs, w);
    IntEnds(rx, fmt, opt, Number(ds), rest[0], rs[n..][0]);
    FeedLike(w, ArgSp(rx + [Number(ds)], fmt, opt), rest, rs[n..]);
  }

  /** A number above 255 is an error. */
  lemma {:induction false} IntOverflows(rx: seq<byte>, fmt: seq<Fmt>, opt: bool, ds: seq<byte>, more: seq<byte>, eol: byte, rs: seq<int>)
    requires Packed(rx, [Int] + fmt) && Digits(ds) && Number(ds) > 255 && NoEol(more) && IsEol(eol) && |rs| == |ds| + |more| + 1
    ensures Feed(ArgSp(rx, [Int] + fmt, opt), ds + more + [eol], rs) == Turn(Bol, Wait, [ErrorOut(BAD_MSG)])
    decreases |ds|
  {
    hide Feed, Recv, Packed;
    var n := |ds| - 1;
    var v, bs := ArgSp(rx, [Int] + fmt, opt), [ds[n]] + more;
    assert IsDigit(ds[n]);
    assert ds + more + [eol] == ds[..n] + (bs + [eol]) == ds[..n] + bs + [eol];
    if Number(ds[..n]) > 255 {
      IntOverflows(rx, fmt, opt, ds[..n], bs, eol, rs);
    } else {
      var w := InInt(rx, fmt, opt, Number(ds[..n]));
      FeedDigits(rx, fmt, opt, ds[..n], rs[..n]);
      FeedThen(v, ds[..n], bs + [eol], rs, w);
      TooLarge(rx, fmt, opt, Number(ds[..n]), ds[n], rs[n]);
      Rejected(w, bs, eol, rs[n..], BAD_MSG);
    }
  }

  lemma {:induction false} TooLarge(rx: seq<byte>, fmt: seq<Fmt>, opt: bool, n: nat, b: byte, reply: int)
    requires Packed(rx, fmt) && n < 256 && IsDigit(b) && n * 10 + (b as int - 0x30) > 255
    ensures Recv(InInt(rx, fmt, opt, n), b, reply) == Turn(Error, Wait, [ErrorOut(BAD_MSG)])
  {
    var v := InInt(rx, fmt, opt, n);
    assert Micro(v, b, reply) == Fails(BAD_MSG);
    hide Micro;
    RecvFails(v, b, reply, BAD_MSG);
  }

  // ---- whole lines ----------------------------------------------------------------------------------

  ghost predicate AllWritten(ps: seq<Piece>)
  {
    forall k :: 0 <= k < |ps| ==> Written(ps[k])
  }

  lemma {:induction false} WrittenRest(ps: seq<Piece>)
    requires AllWritten(ps) && ps != []
    ensures Written(ps[0]) && AllWritten(ps[1..])
  {
  }

  lemma {:induction false} TailIs(ps: seq<Piece>, trail: nat, eol: byte)
    ensures ps == [] ==> Tail(ps, trail, eol) == Spaces(trail) + [eol]
    ensures ps != [] ==> Tail(ps, trail, eol) == Spaces(ps[0].gap) + Head(ps, trail, eol)
  {
    hide Spaces;
    if ps == [] {
      assert [] + Spaces(trail) == Spaces(trail);
    } else {
      FourParts(Spaces(ps[0].gap), ps[0].body, ArgsText(ps[1..]), Spaces(trail), [eol]);
    }
  }

  lemma {:induction false} FourParts(a: seq<byte>, b: seq<byte>, c: seq<byte>, d: seq<byte>, e: seq<byte>)
    ensures a + b + c + d + e == a + (b + (c + d + e))
  {
  }

  lemma {:induction false} HeadShape(ps: seq<Piece>, trail: nat, eol: byte)
    requires AllWritten(ps) && ps != []
    ensures var h, n := Head(ps, trail, eol), |ps[0].body|;
            |h| > n > 0 && h[0] == ps[0].body[0] && h == h[..|h| - 1] + [eol] && NoEol(h[..|h| - 1]) &&
            h[..|h| - 1] == ps[0].body + h[n..|h| - 1] && NoEol(h[n..|h| - 1]) &&
            (h[n] == SP || h[n] == eol) && h[n..] == Tail(ps[1..], trail, eol)
  {
    hide Tail, NoEol;
    WrittenRest(ps);
    var t := Tail(ps[1..], trail, eol);
    TailShape(ps[1..], trail, eol);
    NoEolJoin(ps[0].body, t[..|t| - 1]);
    var h, n := Head(ps, trail, eol), |ps[0].body|;
    assert h[..|h| - 1] == ps[0].body + t[..|t| - 1];
    assert h[n..|h| - 1] == t[..|t| - 1];
  }

  lemma {:induction false} ReadsTail(rx: seq<byte>, fmt: seq<Fmt>, opt: bool, ps: seq<Piece>, trail: nat, eol: byte, rs: seq<int>)
    requires Packed(rx, fmt) && AllWritten(ps) && Typable(fmt, ps) && IsEol(eol)
    requires |rs| == |Tail(ps, trail, eol)| && Positive(rs) && |rx| + |fmt| + |rs| + 1 < LIMIT
    ensures Feed(ArgSp(rx, fmt, opt), Tail(ps, trail, eol), rs) == Ends(rx, Reads(fmt, opt, ps))
    decreases |ps|, |fmt|, 1
  {
    hide Feed, Packed, LIMIT, Reads, Ends, Head, Tail, AllWritten, Typable;
    TailIs(ps, trail, eol);
    if ps == [] {
      NothingTyped(rx, fmt, opt, trail, eol, rs);
    } else {
      var g := ps[0].gap;
      SpacesNoEol(g);
      SpacesSkipped(rx, fmt, opt, g, rs[..g]);
      FeedThen(ArgSp(rx, fmt, opt), Spaces(g), Head(ps, trail, eol), rs, ArgSp(rx, fmt, opt));
      ReadsHead(rx, fmt, opt, ps, trail, eol, rs[g..]);
    }
  }

  lemma {:induction false} ReadsHead(rx: seq<byte>, fmt: seq<Fmt>, opt: bool, ps: seq<Piece>, trail: nat, eol: byte, rs: seq<int>)
    requires Packed(rx, fmt) && AllWritten(ps) && Typable(fmt, ps) && IsEol(eol) && ps != []
    requires |rs| == |Head(ps, trail, eol)| && Positive(rs) && |rx| + |fmt| + |rs| + 1 < LIMIT
    ensures Feed(ArgSp(rx, fmt, opt), Head(ps, trail, eol), rs) == Ends(rx, Reads(fmt, opt, ps))
    decreases |ps|, |fmt|, 0
  {
    assert rx != [];
    hide Feed, Recv, Packed, LIMIT, Ends, Head, Tail, AllWritten, Number, Spaces, NoEol;
    var body := ps[0].body;
    var n := |body|;
    WrittenRest(ps);
    if fmt == [] {
      NoPlace(rx, opt, ps, trail, eol, rs);
    } else if fmt[0] == Text {
      if |fmt| == 1 {
        OnlyText(rx, fmt, opt, ps, trail, eol, rs);
      } else {
        MidHead(rx, fmt, opt, ps, trail, eol, rs);
        ReadsTail(rx + body, fmt[1..], opt, ps[1..], trail, eol, rs[n..]);
        EndsThen(rx, body, Reads(fmt[1..], opt, ps[1..]));
      }
    } else if fmt[0] == Int && IsDigit(body[0]) {
      IntHead(rx, fmt, opt, ps, trail, eol, rs);
      EndsRejects(rx, BAD_MSG);
      if Number(body) < 256 {
        ReadsTail(rx + [Number(body)], fmt[1..], opt, ps[1..], trail, eol, rs[n..]);
        EndsThen(rx, [Number(body)], Reads(fmt[1..], opt, ps[1..]));
      }
    } else {
      var bar := fmt[0] == Bar;
      var rx', opt' := if bar then rx else rx + [0], opt || bar;
      PassHead(rx, fmt, opt, ps, trail, eol, rs);
      ReadsHead(rx', fmt[1..], opt', ps, trail, eol, rs);
      EndsThen(rx, [0], Reads(fmt[1..], opt', ps));
    }
  }

  lemma {:induction false} NoPlace(rx: seq<byte>, opt: bool, ps: seq<Piece>, trail: nat, eol: byte, rs: seq<int>)
    requires Packed(rx, []) && AllWritten(ps) && IsEol(eol) && ps != [] && |rs| == |Head(ps, trail, eol)|
    ensures Feed(ArgSp(rx, [], opt), Head(ps, trail, eol), rs) == Ends(rx, Reads([], opt, ps))
  {
    hide Feed, Recv, Head, Tail, AllWritten, NoEol, Packed;
    var h := Head(ps, trail, eol);
    WrittenRest(ps);
    HeadShape(ps, trail, eol);
    Surplus(rx, opt, h[..|h| - 1], eol, rs);
  }

  lemma {:induction false} MidHead(rx: seq<byte>, fmt: seq<Fmt>, opt: bool, ps: seq<Piece>, trail: nat, eol: byte, rs: seq<int>)
    requires Packed(rx, fmt) && AllWritten(ps) && IsEol(eol) && ps != [] && |fmt| > 1 && fmt[0] == Text && SP !in ps[0].body
    requires |rs| == |Head(ps, trail, eol)| && |rx| + |rs| <= LIMIT
    ensures var n := |ps[0].body|;
            Packed(rx + ps[0].body, fmt[1..]) && n <= |rs| && |rs[n..]| == |Tail(ps[1..], trail, eol)| &&
            Feed(ArgSp(rx, fmt, opt), Head(ps, trail, eol), rs) ==
              Feed(ArgSp(rx + ps[0].body, fmt[1..], opt), Tail(ps[1..], trail, eol), rs[n..])
  {
    hide Feed, Recv, Packed, LIMIT, Head, Tail, AllWritten, NoEol;
    var h, n := Head(ps, trail, eol), |ps[0].body|;
    WrittenRest(ps);
    HeadShape(ps, trail, eol);
    assert h == ps[0].body + h[n..];
    MidText(rx, fmt, opt, ps[0].body, h[n..], rs);
  }

  lemma {:induction false} PassHead(rx: seq<byte>, fmt: seq<Fmt>, opt: bool, ps: seq<Piece>, trail: nat, eol: byte, rs: seq<int>)
    requires Packed(rx, fmt) && AllWritten(ps) && ps != [] && |rs| == |Head(ps, trail, eol)| && |rx| < LIMIT && IsEol(eol)
    requires fmt != [] && ps[0].body != [] && (fmt[0] == Bar || fmt[0] == Nul || (fmt[0] == Int && !IsDigit(ps[0].body[0])))
    ensures var rx', opt' := if fmt[0] == Bar then rx else rx + [0], opt || fmt[0] == Bar;
            Packed(rx', fmt[1..]) &&
            Feed(ArgSp(rx, fmt, opt), Head(ps, trail, eol), rs) == Feed(ArgSp(rx', fmt[1..], opt'), Head(ps, trail, eol), rs)
  {
    hide Feed, Recv, Packed, LIMIT, Head, Tail, AllWritten, NoEol;
    var h, b := Head(ps, trail, eol), ps[0].body[0];
    WrittenRest(ps);
    HeadShape(ps, trail, eol);
    FirstNoEol(ps[0].body);
    FormatPasses(rx, fmt, opt, b, rs[0]);
    FeedLike(ArgSp(rx, fmt, opt), ArgSp(if fmt[0] == Bar then rx else rx + [0], fmt[1..], opt || fmt[0] == Bar), h, rs);
  }

  lemma {:induction false} FirstNoEol(s: seq<byte>)
    requires s != [] && NoEol(s)
    ensures !IsEol(s[0])
  {
  }

  lemma {:induction false} OnlyText(rx: seq<byte>, fmt: seq<Fmt>, opt: bool, ps: seq<Piece>, trail: nat, eol: byte, rs: seq<int>)
    requires Packed(rx, fmt) && AllWritten(ps) && Typable(fmt, ps) && IsEol(eol) && ps != [] && fmt == [Text]
    requires |rs| == |Head(ps, trail, eol)| && Positive(rs) && |rx| + |fmt| + |rs| + 1 < LIMIT
    ensures Feed(ArgSp(rx, fmt, opt), Head(ps, trail, eol), rs) == Ends(rx, Reads(fmt, opt, ps))
  {
    assert rx != [];
    hide Feed, Recv, Packed, LIMIT, Ends, Tail;
    var body := ps[0].body;
    WrittenRest(ps);
    assert ps[1..] == [] && fmt[1..] == [];
    TailIs([], trail, eol);
    SpacesNoEol(trail);
    Associates(body, Spaces(trail), [eol]);
    LastText(rx, opt, body, trail, eol, rs);
    assert Reads([], opt, []) == Takes([]);
    EndsThen(rx, body, Takes([]));
  }

  lemma {:induction false} IntHead(rx: seq<byte>, fmt: seq<Fmt>, opt: bool, ps: seq<Piece>, trail: nat, eol: byte, rs: seq<int>)
    requires Packed(rx, fmt) && AllWritten(ps) && IsEol(eol) && ps != [] && fmt != [] && fmt[0] == Int && Digits(ps[0].body)
    requires |rs| == |Head(ps, trail, eol)| && Positive(rs) && |rx| + |fmt| + |rs| + 1 < LIMIT
    ensures var body := ps[0].body;
            var n := |body|;
            if Number(body) < 256 then
              Packed(rx + [Number(body)], fmt[1..]) && n <= |rs| &&
              |rs[n..]| == |Tail(ps[1..], trail, eol)| &&
              Feed(ArgSp(rx, fmt, opt), Head(ps, trail, eol), rs) ==
                Feed(ArgSp(rx + [Number(body)], fmt[1..], opt), Tail(ps[1..], trail, eol), rs[n..])
            else Feed(ArgSp(rx, fmt, opt), Head(ps, trail, eol), rs) == Turn(Bol, Wait, [ErrorOut(BAD_MSG)])
  {
    hide Feed, Recv, Packed, LIMIT, Tail, Head, NoEol, Number, AllWritten;
    var h, body := Head(ps, trail, eol), ps[0].body;
    var n := |body|;
    assert fmt == [Int] + fmt[1..];
    HeadShape(ps, trail, eol);
    if Number(body) < 256 {
      assert h == body + h[n..];
      IntTyped(rx, fmt[1..], opt, body, h[n..], rs);
    } else {
      IntOverflows(rx, fmt[1..], opt, body, h[n..|h| - 1], eol, rs);
    }
  }

  lemma {:induction false} LeadSkipped(n: nat, rs: seq<int>)
    requires |rs| == n
    ensures Feed(Bol, Spaces(n), rs) == Turn(Bol, Wait, [])
  {
    forall k | 0 <= k < n ensures Recv(Bol, Spaces(n)[k], rs[k]) == Turn(Bol, Wait, []) {
      assert Micro(Bol, SP, rs[k]) == Turn(Bol, Wait, []);
      RecvWait(Bol, SP, rs[k]);
    }
    hide Feed, Recv, Micro;
    FeedStill(Bol, Spaces(n), rs);
  }

  lemma {:induction false} BolValid()
    ensures ValidView(Bol)
  {
  }

  /** Each letter of the word as it is, or as a small letter. */
  predicate EitherCase(word: seq<byte>, typed: seq<byte>)
  {
    |word| == |typed| && forall k :: 0 <= k < |word| ==> typed[k] == word[k] || typed[k] as int == word[k] as int + 0x20
  }

  /** strcasecmp() finds a word of the table exactly when it is typed in capital or small letters. */
  lemma {:induction false} CaseIgnored(j: nat, typed: seq<byte>)
    requires j < |CMDTAB|
    ensures SameWord(CMDTAB[j].word, typed) <==> EitherCase(CMDTAB[j].word, typed)
  {
    WordShape(j);
    hide CMDTAB;
    var w := CMDTAB[j].word;
    if |w| == |typed| {
      forall k | 0 <= k < |w| ensures w[k] == Upper(typed[k]) <==> typed[k] == w[k] || typed[k] as int == w[k] as int + 0x20 {
        assert WordByte(w[k]);
      }
    }
  }

  /** A typed line: a word of the table in any letter case and arguments behind it deliver exactly that
      command with those arguments, or one error that says what is wrong with them. */
  lemma {:induction false} TypedLine(j: nat, lead: nat, typed: seq<byte>, ps: seq<Piece>, trail: nat, eol: byte, rs: seq<int>)
    requires j < |CMDTAB| && EitherCase(CMDTAB[j].word, typed) && AllWritten(ps) && Typable(CMDTAB[j].fmt, ps) && IsEol(eol)
    requires |rs| == |Spaces(lead) + typed + Tail(ps, trail, eol)| && Positive(rs) && |Tail(ps, trail, eol)| + 6 < LIMIT
    ensures Feed(Bol, Spaces(lead) + typed + Tail(ps, trail, eol), rs) == Ends([CMDTAB[j].id], Reads(CMDTAB[j].fmt, false, ps))
  {
    hide CMDTAB, SameWord, EitherCase, Feed, Recv, Tail, Typable, Reads, Ends, Spaces, AllWritten;
    CaseIgnored(j, typed);
    var e, t, n := CMDTAB[j], Tail(ps, trail, eol), |typed|;
    SpacesNoEol(lead);
    LeadSkipped(lead, rs[..lead]);
    BolValid();
    Associates(Spaces(lead), typed, t);
    FeedThen(Bol, Spaces(lead), typed + t, rs, Bol);
    var more := rs[lead..];
    WordFound(j, typed);
    FeedWord(typed, more[..n]);
    FeedThen(Bol, typed, t, more, Cmd(typed));
    assert t != [] && (t[0] == SP || IsEol(t[0])) by { TailStart(ps, trail, eol); }
    WordEnds(j, typed, t[0], more[n..][0]);
    FeedLike(Cmd(typed), ArgSp([e.id], e.fmt, false), t, more[n..]);
    TableFormats(e);
    ReadsTail([e.id], e.fmt, false, ps, trail, eol, more[n..]);
  }

  lemma {:induction false} TailStart(ps: seq<Piece>, trail: nat, eol: byte)
    requires AllWritten(ps)
    ensures var t := Tail(ps, trail, eol); t != [] && t[0] == if ps == [] && trail == 0 then eol else SP
  {
    TailFirst(ps, trail, eol);
  }

  lemma {:induction false} LookupNone(typed: seq<byte>, i: nat)
    requires i <= |CMDTAB| && forall k :: i <= k < |CMDTAB| ==> !SameWord(CMDTAB[k].word, typed)
    ensures Lookup(typed, i) == None
    decreases |CMDTAB| - i
  {
    hide CMDTAB, SameWord;
    if i < |CMDTAB| { LookupNone(typed, i + 1); }
  }

  lemma {:induction false} WordUnknown(word: seq<byte>, ch: byte, reply: int)
    requires 0 < |word| < 16 && (ch == SP || IsEol(ch))
    requires forall k :: 0 <= k < |CMDTAB| ==> !SameWord(CMDTAB[k].word, CStr(word))
    ensures Recv(Cmd(word), ch, reply) == Turn(if ch == SP then Error else Bol, Wait, [ErrorOut(BAD_MSG)])
  {
    LookupNone(CStr(word), 0);
    hide CMDTAB, SameWord, Lookup;
    var v := Cmd(word);
    assert Micro(v, ch, reply) == Fails(BAD_MSG);
    if ch == SP {
      hide Micro;
      RecvFails(v, ch, reply, BAD_MSG);
    } else {
      assert Micro(Error, ch, reply) == Turn(Bol, Wait, []);
      AgainDescends(v, ch, reply);
      hide Micro;
      RecvWait(Error, ch, reply);
      assert [ErrorOut(BAD_MSG)] + [] == [ErrorOut(BAD_MSG)];
    }
  }

  lemma {:induction false} WordTooLong(word: seq<byte>, b: byte, reply: int)
    requires |word| == 15 && InWord(b)
    ensures Recv(Cmd(word), b, reply) == Turn(Error, Wait, [ErrorOut(BAD_MSG)])
  {
    var v := Cmd(word);
    assert Micro(v, b, reply) == Fails(BAD_MSG);
    hide Micro;
    RecvFails(v, b, reply, BAD_MSG);
  }

  /** A line that does not begin with a word of the table is one error, and nothing else on it counts. */
  lemma {:induction false} UnknownLine(word: seq<byte>, more: seq<byte>, eol: byte, rs: seq<int>)
    requires word != [] && (forall k :: 0 <= k < |word| ==> InWord(word[k])) && NoEol(more) && (more != [] ==> more[0] == SP)
    requires IsEol(eol) && |rs| == |word| + |more| + 1
    requires |word| > 15 || forall k :: 0 <= k < |CMDTAB| ==> !EitherCase(CMDTAB[k].word, CStr(word))
    ensures Feed(Bol, word + more + [eol], rs) == Turn(Bol, Wait, [ErrorOut(BAD_MSG)])
  {
    hide CMDTAB, SameWord, EitherCase, Feed, Recv, Micro;
    BolValid();
    if |word| > 15 {
      var w, bs := word[..15], word[15..] + more;
      FeedWord(w, rs[..15]);
      assert word + more + [eol] == w + (bs + [eol]);
      FeedThen(Bol, w, bs + [eol], rs, Cmd(w));
      WordTooLong(w, word[15], rs[15]);
      NoEolJoin(word[15..], more);
      Rejected(Cmd(w), bs, eol, rs[15..], BAD_MSG);
    } else {
      var n := |word|;
      forall k | 0 <= k < |CMDTAB| ensures !SameWord(CMDTAB[k].word, CStr(word)) { CaseIgnored(k, CStr(word)); }
      FeedWord(word, rs[..n]);
      Associates(word, more, [eol]);
      FeedThen(Bol, word, more + [eol], rs, Cmd(word));
      if more != [] {
        WordUnknown(word, SP, rs[n]);
        Rejected(Cmd(word), more, eol, rs[n..], BAD_MSG);
      } else {
        assert more + [eol] == [eol] && rs[n..] == [rs[n]];
        WordUnknown(word, eol, rs[n]);
        FeedOne(Cmd(word), eol, rs[n]);
      }
    }
  }

  /** The first byte of such a line selects the text decoder. */
  lemma {:induction false} TypedIsText(j: nat, lead: nat, typed: seq<byte>, rest: seq<byte>)
    requires j < |CMDTAB| && EitherCase(CMDTAB[j].word, typed)
    ensures Spaces(lead) + typed + rest != [] && Wire.Detect((Spaces(lead) + typed + rest)[0]) == Wire.Text
  {
    hide CMDTAB, SameWord;
    CaseIgnored(j, typed);
    WordFound(j, typed);
    var line := Spaces(lead) + typed + rest;
    assert line[0] == if lead > 0 then SP else typed[0];
  }

  /** How the arguments of the table's formats are read. A HELLO or VERSION without its number has number 0. */
  lemma {:induction false} ReadsFormats(a: Piece, b: Piece, opt: bool)
    requires Written(a) && Written(b) && SP !in a.body && SP !in b.body
    ensures Typable([Text], [a]) && Reads([Text], opt, [a]) == Takes(a.body)
    ensures Reads([Text], false, []) == Rejects(BAD_ARG) && Reads([], opt, []) == Takes([]) && Reads([], opt, [a]) == Rejects(BAD_ARG)
    ensures Typable([Bar, Text], [a]) && Reads([Bar, Text], opt, [a]) == Takes(a.body) && Reads([Bar, Text], opt, []) == Takes([])
    ensures var fmt := [Text, Bar, Nul, Text];
            Typable(fmt, [a]) && Reads(fmt, opt, [a]) == Takes(a.body) &&
            Typable(fmt, [a, b]) && Reads(fmt, opt, [a, b]) == Takes(a.body + [0] + b.body)
    ensures !IsDigit(a.body[0]) ==> Typable([Int, Bar, Text], [a]) && Reads([Int, Bar, Text], opt, [a]) == Takes([0] + a.body)
    ensures Digits(a.body) && Number(a.body) < 256 ==>
              Typable([Int, Bar, Text], [a, b]) && Reads([Int, Bar, Text], opt, [a, b]) == Takes([Number(a.body)] + b.body)
  {
    hide NoEol, Number;
    var ab := [a, b];
    assert a.body[|a.body| - 1] in a.body && b.body[|b.body| - 1] in b.body && a.body[0] in a.body;
    assert [a][1..] == [] && ab[1..] == [b] && [b][1..] == [];
    assert [Text][1..] == [] && [Bar, Text][1..] == [Text] && [Nul, Text][1..] == [Text];
    assert [Text, Bar, Nul, Text][1..] == [Bar, Nul, Text] && [Bar, Nul, Text][1..] == [Nul, Text];
    assert [Int, Bar, Text][1..] == [Bar, Text];
    OneText(a, opt);
    OneText(a, true);
    OneText(b, true);
    assert Typable([Bar, Text], [a]) && Typable([Bar, Text], [b]);
    assert Typable([Nul, Text], [b]) && Typable([Bar, Nul, Text], [b]);
    assert Reads([Nul, Text], true, [b]) == Takes([0] + b.body);
    assert Reads([Bar, Nul, Text], opt, [b]) == Takes([0] + b.body);
    assert a.body + ([0] + b.body) == a.body + [0] + b.body;
    assert Reads([Bar, Nul, Text], opt, []) == Takes([]) && a.body + [] == a.body;
  }

  lemma {:induction false} OneText(a: Piece, opt: bool)
    requires Written(a) && SP !in a.body
    ensures Typable([Text], [a]) && Reads([Text], opt, [a]) == Takes(a.body)
  {
    assert a.body[|a.body| - 1] in a.body;
    assert [a][1..] == [] && [Text][1..] == [];
    assert Reads([], opt, []) == Takes([]);
    assert a.body + [] == a.body;
  }

  /** Entry k of the table has this word and this id. */
  predicate Names(k: nat, word: string, id: byte)
  {
    k < |CMDTAB| && CMDTAB[k].id == id && |CMDTAB[k].word| == |word| &&
    forall i :: 0 <= i < |word| ==> CMDTAB[k].word[i] as int == word[i] as int
  }

  lemma {:induction false} GreetingWords()
    ensures Names(0, "HELLO", Infod.CMD_HELLO) && Names(19, "HELP", PSEUDO_HELP) && Names(20, "H", PSEUDO_HELP)
  {
  }

  lemma {:induction false} SubscriptionWords()
    ensures Names(1, "SUB", Infod.CMD_SUB) && Names(2, "S", Infod.CMD_SUB)
  {
  }

  lemma {:induction false} EndWords()
    ensures Names(3, "UNSUB", Infod.CMD_UNSUB) && Names(4, "U", Infod.CMD_UNSUB)
  {
  }

  lemma {:induction false} ReadWords()
    ensures Names(5, "READ", Infod.CMD_READ) && Names(6, "R", Infod.CMD_READ)
  {
  }

  lemma {:induction false} WriteWords()
    ensures Names(7, "WRITE", Infod.CMD_WRITE) && Names(8, "W", Infod.CMD_WRITE)
  {
  }

  lemma {:induction false} BeginWords()
    ensures Names(9, "BEGIN", Infod.CMD_BEGIN) && Names(10, "B", Infod.CMD_BEGIN)
  {
  }

  lemma {:induction false} CommitWords()
    ensures Names(11, "COMMIT", Infod.CMD_COMMIT) && Names(12, "C", Infod.CMD_COMMIT)
  {
  }

  lemma {:induction false} PingWords()
    ensures Names(13, "PING", Infod.CMD_PING) && Names(14, "P", Infod.CMD_PING)
  {
  }

  /** The words of the table stand for the commands of the daemon, and so do most of their first letters. */
  lemma {:induction false} CommandWords()
    ensures Names(0, "HELLO", Infod.CMD_HELLO) && Names(19, "HELP", PSEUDO_HELP) && Names(20, "H", PSEUDO_HELP)
    ensures Names(1, "SUB", Infod.CMD_SUB) && Names(2, "S", Infod.CMD_SUB)
    ensures Names(3, "UNSUB", Infod.CMD_UNSUB) && Names(4, "U", Infod.CMD_UNSUB)
    ensures Names(5, "READ", Infod.CMD_READ) && Names(6, "R", Infod.CMD_READ)
    ensures Names(7, "WRITE", Infod.CMD_WRITE) && Names(8, "W", Infod.CMD_WRITE)
    ensures Names(9, "BEGIN", Infod.CMD_BEGIN) && Names(10, "B", Infod.CMD_BEGIN)
    ensures Names(11, "COMMIT", Infod.CMD_COMMIT) && Names(12, "C", Infod.CMD_COMMIT)
    ensures Names(13, "PING", Infod.CMD_PING) && Names(14, "P", Infod.CMD_PING)
  {
    hide Names, CMDTAB;
    GreetingWords();
    SubscriptionWords();
    EndWords();
    ReadWords();
    WriteWords();
    BeginWords();
    CommitWords();
    PingWords();
  }

  // ---- quotes that go wrong -------------------------------------------------------------------------

  /** A quoted string that the end of the line cuts off is one ERROR. */
  lemma {:induction false} UnclosedQuote(rx: seq<byte>, fmt: seq<Fmt>, opt: bool, s: seq<byte>, eol: byte, rs: seq<int>)
    requires Packed(rx, fmt) && |rx| + |s| <= LIMIT && IsEol(eol) && |rs| == |QuoteBody(s)| + 1
    ensures Feed(QStr(rx, fmt, opt), QuoteBody(s) + [eol], rs) == Turn(Bol, Wait, [ErrorOut(BAD_MSG)])
  {
    hide Feed, Recv, Micro, LIMIT, Packed, QuoteBody;
    PackedMore(rx, fmt, s);
    var v, n := QStr(rx, fmt, opt), |QuoteBody(s)|;
    QuoteCut(rx + s, fmt, opt, eol, rs[n]);
    FeedQuoteBody(rx, fmt, opt, s, rs[..n]);
    FeedNext(v, QuoteBody(s), rs[..n], eol, rs[n]);
    assert rs == rs[..n] + [rs[n]];
  }

  lemma {:induction false} QuoteCut(rx: seq<byte>, fmt: seq<Fmt>, opt: bool, eol: byte, reply: int)
    requires Packed(rx, fmt) && IsEol(eol)
    ensures Recv(QStr(rx, fmt, opt), eol, reply) == Turn(Bol, Wait, [ErrorOut(BAD_MSG)])
  {
    var v := QStr(rx, fmt, opt);
    assert Micro(v, eol, reply) == Turn(Bol, Wait, [ErrorOut(BAD_MSG)]);
    hide Micro;
    RecvWait(v, eol, reply);
  }

  /** A backslash without three octal digits behind it is one ERROR, and the rest of the line is ignored. */
  lemma {:induction false} BadEscape(rx: seq<byte>, fmt: seq<Fmt>, opt: bool, ds: seq<byte>, more: seq<byte>, eol: byte, rs: seq<int>)
    requires Packed(rx, fmt) && |ds| < 3 && (forall k :: 0 <= k < |ds| ==> IsOctal(ds[k]))
    requires more != [] && NoEol(more) && !IsOctal(more[0]) && IsEol(eol) && |rs| == 1 + |ds| + |more| + 1
    ensures Feed(QStr(rx, fmt, opt), [BACKSLASH] + ds + (more + [eol]), rs) == Turn(Bol, Wait, [ErrorOut(BAD_MSG)])
  {
    hide Feed, Recv, Micro, Packed;
    var n := 1 + |ds|;
    var w := EscapeStarts(rx, fmt, opt, ds, rs[..n]);
    EscapeFails(w, more[0], rs[n]);
    FeedThen(QStr(rx, fmt, opt), [BACKSLASH] + ds, more + [eol], rs, w);
    Rejected(w, more, eol, rs[n..], BAD_MSG);
  }

  lemma {:induction false} EscapeFails(v: View, b: byte, reply: int)
    requires ValidView(v) && v.QOct? && !IsOctal(b) && !IsEol(b)
    ensures Recv(v, b, reply) == Turn(Error, Wait, [ErrorOut(BAD_MSG)])
  {
    assert Micro(v, b, reply) == Fails(BAD_MSG);
    hide Micro;
    RecvFails(v, b, reply, BAD_MSG);
  }

  lemma {:induction false} EscapeOpens(rx: seq<byte>, fmt: seq<Fmt>, opt: bool, reply: int)
    requires Packed(rx, fmt)
    ensures ValidView(QStr(rx, fmt, opt)) && ValidView(QOct(rx, fmt, opt, 0, 3))
    ensures Recv(QStr(rx, fmt, opt), BACKSLASH, reply) == Turn(QOct(rx, fmt, opt, 0, 3), Wait, [])
  {
    var v := QStr(rx, fmt, opt);
    assert Micro(v, BACKSLASH, reply) == Turn(QOct(rx, fmt, opt, 0, 3), Wait, []);
    hide Micro;
    RecvWait(v, BACKSLASH, reply);
  }

  lemma {:induction false} EscapeGoesOn(v: View, b: byte, reply: int)
    requires ValidView(v) && v.QOct? && v.count > 1 && IsOctal(b)
    ensures var w := v.(val := v.val * 8 + (b as int - 0x30), count := v.count - 1);
            ValidView(w) && Recv(v, b, reply) == Turn(w, Wait, [])
  {
    var w := v.(val := v.val * 8 + (b as int - 0x30), count := v.count - 1);
    assert Micro(v, b, reply) == Turn(w, Wait, []);
    hide Micro;
    RecvWait(v, b, reply);
  }

  lemma {:induction false} EscapeStarts(rx: seq<byte>, fmt: seq<Fmt>, opt: bool, ds: seq<byte>, rs: seq<int>) returns (w: View)
    requires Packed(rx, fmt) && |ds| < 3 && (forall k :: 0 <= k < |ds| ==> IsOctal(ds[k])) && |rs| == 1 + |ds|
    ensures ValidView(w) && w.QOct? && w.count == 3 - |ds| && Feed(QStr(rx, fmt, opt), [BACKSLASH] + ds, rs) == Turn(w, Wait, [])
    decreases |ds|
  {
    hide Feed, Recv, Micro, ValidView, IsOctal, Packed;
    var v := QStr(rx, fmt, opt);
    EscapeOpens(rx, fmt, opt, rs[0]);
    if ds == [] {
      w := QOct(rx, fmt, opt, 0, 3);
      FeedOne(v, BACKSLASH, rs[0]);
      assert [BACKSLASH] + ds == [BACKSLASH] && rs == [rs[0]];
    } else {
      var n := |ds| - 1;
      var u := EscapeStarts(rx, fmt, opt, ds[..n], rs[..n + 1]);
      EscapeGoesOn(u, ds[n], rs[n + 1]);
      w := Recv(u, ds[n], rs[n + 1]).v;
      FeedNext(v, [BACKSLASH] + ds[..n], rs[..n + 1], ds[n], rs[n + 1]);
      assert [BACKSLASH] + ds == [BACKSLASH] + ds[..n] + [ds[n]] && rs == rs[..n + 1] + [rs[n + 1]];
    }
  }

  // ---- every line is answered once ------------------------------------------------------------------

  /** Whether a line is begun and has not been answered. */
  function Owed(v: View): (r: nat)
  {
    if v.Bol? || v.Error? then 0 else 1
  }

  /** How long the packed command can be by now, with what the format still adds to it. */
  function Load(v: View): (r: nat)
  {
    match v
    case Error => 0
    case Bol => 5
    case Cmd(_) => 5
    case ArgSp(rx, fmt, _) => |rx| + |fmt|
    case InInt(rx, fmt, _, _) => |rx| + |fmt| + 1
    case StrBeg(rx, fmt, _) => |rx| + |fmt|
    case Str(rx, fmt, _) => |rx| + |fmt|
    case QStr(rx, fmt, _) => |rx| + |fmt|
    case QOct(rx, fmt, _, _, _) => |rx| + |fmt|
  }

  lemma {:induction false} TurnCounts(v: View, ch: byte, reply: int)
    requires ValidView(v) && Load(v) + 1 < LIMIT && reply > 0
    ensures var t := Micro(v, ch, reply);
            !t.verdict.Stop? &&
            |t.events| + Owed(t.v) == Owed(v) + (if v.Bol? && InWord(ch) then 1 else 0) &&
            (!IsEol(ch) ==> Load(t.v) <= Load(v) + (if t.verdict == Wait then 1 else 0) && (t.v.Bol? <==> v.Bol? && ch == SP)) &&
            (IsEol(ch) && t.verdict == Again ==> Load(t.v) <= Load(v) && !t.v.Bol?) &&
            (IsEol(ch) && t.verdict == Wait ==> t.v == Bol)
  {
    hide Lookup, TrimSpace, CMDTAB, CStr;
    if v.Str? { TrimShorter(v.rx); }
  }

  lemma {:induction false} TrimShorter(s: seq<byte>)
    ensures |TrimSpace(s)| <= |s|
  {
  }

  lemma {:induction false} RecvCounts(v: View, ch: byte, reply: int)
    requires ValidView(v) && Load(v) + 1 < LIMIT && reply > 0
    ensures var t := Recv(v, ch, reply);
            t.verdict == Wait &&
            |t.events| + Owed(t.v) == Owed(v) + (if v.Bol? && InWord(ch) then 1 else 0) &&
            (IsEol(ch) ==> t.v == Bol) &&
            (!IsEol(ch) ==> Load(t.v) <= Load(v) + 1 && (t.v.Bol? <==> v.Bol? && ch == SP))
    decreases Rank(v)
  {
    var t := Micro(v, ch, reply);
    TurnCounts(v, ch, reply);
    if t.verdict == Again {
      AgainDescends(v, ch, reply);
      hide Micro, ValidView, Load;
      RecvCounts(t.v, ch, reply);
    }
  }

  predicate Blank(s: seq<byte>)
  {
    forall k :: 0 <= k < |s| ==> s[k] == SP
  }

  lemma {:induction false} FeedCounts(line: seq<byte>, rs: seq<int>)
    requires NoEol(line) && |line| + 6 < LIMIT && |rs| == |line| && Positive(rs)
    ensures var t := Feed(Bol, line, rs);
            t.verdict == Wait && Load(t.v) <= 5 + |line| && (t.v.Bol? <==> Blank(line)) &&
            |t.events| + Owed(t.v) == if Blank(line) then 0 else 1
    decreases |line|
  {
    hide Recv, Micro, Load, Owed;
    if line != [] {
      var n := |line| - 1;
      FeedCounts(line[..n], rs[..n]);
      var t := Feed(Bol, line[..n], rs[..n]);
      RecvCounts(t.v, line[n], rs[n]);
      BolOwes();
      assert Blank(line) <==> Blank(line[..n]) && line[n] == SP;
    } else {
      BolOwes();
    }
  }

  lemma {:induction false} BolOwes()
    ensures Owed(Bol) == 0 && Load(Bol) == 5
  {
  }

  /** Whatever is on a line that fits the buffer, it is answered once: one command handed on, one help text or
      one ERROR; and a blank line is not answered. The next line starts afresh. */
  lemma {:induction false} LineAnsweredOnce(line: seq<byte>, eol: byte, rs: seq<int>)
    requires NoEol(line) && IsEol(eol) && |line| + 6 < LIMIT && |rs| == |line| + 1 && Positive(rs)
    ensures var t := Feed(Bol, line + [eol], rs);
            t.v == Bol && t.verdict == Wait && |t.events| == if Blank(line) then 0 else 1
  {
    hide Feed, Recv, Micro, Load, Owed, NoEol;
    var n := |line|;
    FeedCounts(line, rs[..n]);
    BolValid();
    BolOwes();
    FeedNext(Bol, line, rs[..n], eol, rs[n]);
    assert rs == rs[..n] + [rs[n]];
    RecvCounts(Feed(Bol, line, rs[..n]).v, eol, rs[n]);
  }
}
