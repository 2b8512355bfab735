/** What patterns mean to those who write them: how much of a string each element of a pattern's text takes,
    and what that comes to for text in UTF-8. */
module Patterns {
  import opened Bytes
  import opened Matcher

  // ---- positions do not matter ----------------------------------------------------------------------

  function Moved(r: Option<nat>, k: nat): (m: Option<nat>)
  {
    if r.Some? then Some(r.value + k) else None
  }

  lemma {:induction false} ContEndMoved(s: seq<byte>, k: nat, i: nat)
    requires k + i <= |s|
    ensures ContEnd(s, k + i) == k + ContEnd(s[k..], i)
    decreases |s| - i
  {
    if k + i < |s| && IsCont(s[k + i]) { ContEndMoved(s, k, i + 1); }
  }

  lemma {:induction false} CharMoved(s: seq<byte>, k: nat, i: nat)
    requires k + i < |s|
    ensures Inc(s, k + i) == k + Inc(s[k..], i) && CharAt(s, k + i) == CharAt(s[k..], i)
  {
    hide ContEnd;
    ContEndMoved(s, k, i + 1);
  }

  lemma {:induction false} SeekMoved(s: seq<byte>, k: nat, i: nat, c: seq<byte>)
    requires k + i <= |s|
    ensures Seek(s, k + i, c) == k + Seek(s[k..], i, c)
    decreases |s| - i
  {
    hide Inc, CharAt;
    if k + i < |s| {
      CharMoved(s, k, i);
      if !(CharAt(s, k + i) <= c) { SeekMoved(s, k, Inc(s[k..], i), c); }
    }
  }

  /** Matching from position k on is matching the rest of the string. */
  lemma {:induction false} EvalMoved(pat: Pat, s: seq<byte>, k: nat, pos: nat)
    requires k + pos <= |s|
    ensures Eval(pat, s, k + pos) == Moved(Eval(pat, s[k..], pos), k)
    decreases pat
  {
    hide Inc, Seek;
    match pat {
      case End =>
      case Lit(b, rest) => if k + pos < |s| { EvalMoved(rest, s, k, pos + 1); }
      case Any(rest) => if k + pos < |s| { CharMoved(s, k, pos); EvalMoved(rest, s, k, Inc(s[k..], pos)); }
      case Upto(c, rest) => SeekMoved(s, k, pos, c); EvalMoved(rest, s, k, Seek(s[k..], pos, c));
      case ToEnd(rest) => EvalMoved(rest, s, k, |s| - k);
      case Nothing(rest) => EvalMoved(rest, s, k, pos);
      case Group(alts, rest) =>
        AltsMoved(alts, s, k, pos);
        var q := EvalAlts(alts, s[k..], pos);
        if q.Some? { EvalMoved(rest, s, k, q.value); }
    }
  }

  lemma {:induction false} AltsMoved(alts: Alts, s: seq<byte>, k: nat, pos: nat)
    requires k + pos <= |s|
    ensures EvalAlts(alts, s, k + pos) == Moved(EvalAlts(alts, s[k..], pos), k)
    decreases alts
  {
    EvalMoved(alts.p, s, k, pos);
    if alts.Or? { AltsMoved(alts.alts, s, k, pos); }
  }

  function Later<T>(x: Parsed<T>, k: nat): (r: Parsed<T>)
  {
    if x.Bad? then Bad else Ok(x.value, x.next + k)
  }

  /** A * at i, given the byte and the character behind it and the parse of the rest. */
  function StarPat(n: byte, cut: bool, c: seq<byte>, r: Parsed<Pat>): (x: Parsed<Pat>)
  {
    if n == STAR || n == OPEN || (n == ESC && cut) || r.Bad? then Bad
    else if n == 0 || n == BAR || n == CLOSE then Ok(ToEnd(r.value), r.next)
    else if n == ANY then Ok(Nothing(r.value), r.next)
    else Ok(Upto(c, r.value), r.next)
  }

  lemma {:induction false} StarParses(p: seq<byte>, i: nat, d: nat)
    requires i < |p| && p[i] == STAR
    ensures ParsePat(p, i, d) ==
              StarPat(At(p, i + 1), i + 2 >= |p|, if i + 1 < |p| then CharAt(p, i + 1) else [], ParsePat(p, i + 1, d))
  {
    hide CharAt;
  }

  /** A single character at i, given the parse of the rest. */
  function OnePat(b: byte, n: byte, r: Parsed<Pat>): (x: Parsed<Pat>)
  {
    if r.Bad? then Bad
    else if b == ESC then Ok(Lit(n, r.value), r.next)
    else if b == ANY then Ok(Any(r.value), r.next)
    else Ok(Lit(b, r.value), r.next)
  }

  lemma {:induction false} OneParses(p: seq<byte>, i: nat, d: nat)
    requires i < |p| && Plain(p[i]) && p[i] != STAR
    ensures ParsePat(p, i, d) ==
              if p[i] == ESC && i + 1 == |p| then Bad else OnePat(p[i], At(p, i + 1), ParsePat(p, NextAt(p, i), d))
  {
  }

  lemma {:induction false} GroupParses(p: seq<byte>, i: nat, d: nat)
    requires i < |p| && p[i] == OPEN
    ensures var a := if d >= MAX_PAREN then Bad else ParseAlts(p, i + 1, d + 1);
            ParsePat(p, i, d) ==
              if a.Bad? then Bad
              else var r := ParsePat(p, a.next, d); if r.Bad? then Bad else Ok(Group(a.value, r.value), r.next)
  {
  }

  lemma {:induction false} AltsRange(p: seq<byte>, i: nat, d: nat)
    requires i <= |p|
    ensures ParseAlts(p, i, d).Ok? ==> i < ParseAlts(p, i, d).next <= |p|
  {
    hide ParsePat;
  }

  lemma {:induction false} StarMoved(p: seq<byte>, k: nat, i: nat, d: nat)
    requires k + i < |p| && p[k + i] == STAR && ParsePat(p, k + i + 1, d) == Later(ParsePat(p[k..], i + 1, d), k)
    ensures ParsePat(p, k + i, d) == Later(ParsePat(p[k..], i, d), k)
  {
    hide CharAt, ParsePat;
    StarParses(p, k + i, d);
    StarParses(p[k..], i, d);
    if k + i + 1 < |p| { CharMoved(p, k, i + 1); }
  }

  lemma {:induction false} GroupMoved(p: seq<byte>, k: nat, i: nat, d: nat)
    requires k + i < |p| && p[k + i] == OPEN
    requires ParseAlts(p, k + i + 1, d + 1) == Later(ParseAlts(p[k..], i + 1, d + 1), k)
    requires var a := ParseAlts(p[k..], i + 1, d + 1);
             a.Ok? ==> k + a.next <= |p| && ParsePat(p, k + a.next, d) == Later(ParsePat(p[k..], a.next, d), k)
    ensures ParsePat(p, k + i, d) == Later(ParsePat(p[k..], i, d), k)
  {
    hide ParsePat, ParseAlts;
    GroupParses(p, k + i, d);
    GroupParses(p[k..], i, d);
  }

  lemma {:induction false} OneMoved(p: seq<byte>, k: nat, i: nat, d: nat)
    requires k + i < |p| && Plain(p[k + i]) && p[k + i] != STAR
    requires var j := NextAt(p[k..], i); k + j <= |p| ==> ParsePat(p, k + j, d) == Later(ParsePat(p[k..], j, d), k)
    ensures ParsePat(p, k + i, d) == Later(ParsePat(p[k..], i, d), k)
  {
    hide ParsePat;
    OneParses(p, k + i, d);
    OneParses(p[k..], i, d);
  }

  lemma {:induction false} ParseMoved(p: seq<byte>, k: nat, i: nat, d: nat)
    requires k + i <= |p|
    ensures ParsePat(p, k + i, d) == Later(ParsePat(p[k..], i, d), k)
    decreases |p| - i, 0
  {
    hide ParsePat, ParseAlts;
    var t := p[k..];
    if k + i == |p| || p[k + i] == BAR || p[k + i] == CLOSE {
      StopParse(p, k + i, d);
      StopParse(t, i, d);
    } else if p[k + i] == OPEN {
      ParseAltsMoved(p, k, i + 1, d + 1);
      AltsRange(t, i + 1, d + 1);
      var a := ParseAlts(t, i + 1, d + 1);
      if a.Ok? { ParseMoved(p, k, a.next, d); }
      GroupMoved(p, k, i, d);
    } else if p[k + i] == STAR {
      ParseMoved(p, k, i + 1, d);
      StarMoved(p, k, i, d);
    } else {
      if NextAt(t, i) <= |t| { ParseMoved(p, k, NextAt(t, i), d); }
      OneMoved(p, k, i, d);
    }
  }

  lemma {:induction false} ParseAltsMoved(p: seq<byte>, k: nat, i: nat, d: nat)
    requires k + i <= |p|
    ensures ParseAlts(p, k + i, d) == Later(ParseAlts(p[k..], i, d), k)
    decreases |p| - i, 1
  {
    hide ParsePat;
    ParseMoved(p, k, i, d);
    var x := ParsePat(p[k..], i, d);
    if x.Ok? && x.next < |p[k..]| && p[k..][x.next] == BAR { ParseAltsMoved(p, k, x.next + 1, d); }
  }

  // ---- how much of a string a pattern takes ---------------------------------------------------------

  /** A text that is a pattern inside d open parentheses. */
  predicate ValidIn(p: seq<byte>, d: nat)
  {
    ParsePat(p, 0, d).Ok? && ParsePat(p, 0, d).next == |p|
  }

  /** How many bytes of s the pattern takes, if it matches there. */
  function Takes(p: seq<byte>, d: nat, s: seq<byte>): (r: Option<nat>)
    ensures r.Some? ==> r.value <= |s|
  {
    if ValidIn(p, d) then Eval(ParsePat(p, 0, d).value, s, 0) else None
  }

  /** A pattern matches a string of which it takes everything. */
  lemma {:induction false} HitsTakesAll(p: seq<byte>, s: seq<byte>)
    ensures Hits(p, s) <==> Takes(p, 0, s) == Some(|s|)
  {
    hide ParsePat, Eval;
  }

  /** A pattern p and then its rest, when the rest of p is what the parse of p goes on with. */
  lemma {:induction false} RestOf(p: seq<byte>, k: nat, d: nat, s: seq<byte>, e: nat)
    requires k <= |p| && e <= |s|
    ensures var x := ParsePat(p, k, d);
            (ValidIn(p[k..], d) <==> x.Ok? && x.next == |p|) &&
            Moved(Takes(p[k..], d, s[e..]), e) == if x.Ok? && x.next == |p| then Eval(x.value, s, e) else None
  {
    hide ParsePat, Eval;
    ParseMoved(p, k, 0, d);
    var x := ParsePat(p, k, d);
    if x.Ok? && x.next == |p| { EvalMoved(x.value, s, e, 0); }
  }

  /** A byte that stands for itself in a pattern. */
  predicate Ordinary(b: byte)
  {
    b != 0 && b != STAR && b != OPEN && b != CLOSE && b != BAR && b != ANY && b != ESC
  }

  lemma {:induction false} NothingTakesNothing(d: nat, s: seq<byte>)
    ensures ValidIn([], d) && Takes([], d, s) == Some(0)
  {
  }

  /** An ordinary byte, or any byte behind a backslash, takes itself. */
  lemma {:induction false} ByteTakes(b: byte, p: seq<byte>, d: nat, s: seq<byte>)
    requires Ordinary(b)
    ensures ValidIn([b] + p, d) <==> ValidIn(p, d)
    ensures Takes([b] + p, d, s) == if s != [] && s[0] == b then Moved(Takes(p, d, s[1..]), 1) else None
  {
    hide Takes;
    var t := [b] + p;
    assert t[1..] == p;
    if s != [] { RestOf(t, 1, d, s, 1); } else { RestOf(t, 1, d, s, 0); }
    FirstByte(t, d, s);
  }

  lemma {:induction false} FirstByte(t: seq<byte>, d: nat, s: seq<byte>)
    requires t != [] && Ordinary(t[0])
    ensures var x, r := ParsePat(t, 0, d), ParsePat(t, 1, d);
            (x.Ok? <==> r.Ok?) && (x.Ok? ==> x.next == r.next) &&
            Takes(t, d, s) == if ValidIn(t, d) && s != [] && s[0] == t[0] then Eval(r.value, s, 1) else None
  {
  }

  lemma {:induction false} EscapedTakes(b: byte, p: seq<byte>, d: nat, s: seq<byte>)
    ensures ValidIn([ESC, b] + p, d) <==> ValidIn(p, d)
    ensures Takes([ESC, b] + p, d, s) == if s != [] && s[0] == b then Moved(Takes(p, d, s[1..]), 1) else None
  {
    hide Takes;
    var t := [ESC, b] + p;
    assert t[2..] == p;
    if s != [] { RestOf(t, 2, d, s, 1); } else { RestOf(t, 2, d, s, 0); }
    FirstEscaped(t, d, s);
  }

  lemma {:induction false} FirstEscaped(t: seq<byte>, d: nat, s: seq<byte>)
    requires |t| >= 2 && t[0] == ESC
    ensures var x, r := ParsePat(t, 0, d), ParsePat(t, 2, d);
            (x.Ok? <==> r.Ok?) && (x.Ok? ==> x.next == r.next) &&
            Takes(t, d, s) == if ValidIn(t, d) && s != [] && s[0] == t[1] then Eval(r.value, s, 1) else None
  {
  }

  /** A ? takes one character. */
  lemma {:induction false} AnyTakes(p: seq<byte>, d: nat, s: seq<byte>)
    ensures ValidIn([ANY] + p, d) <==> ValidIn(p, d)
    ensures Takes([ANY] + p, d, s) == if s != [] then Moved(Takes(p, d, s[Inc(s, 0)..]), Inc(s, 0)) else None
  {
    hide Takes, Inc;
    var t := [ANY] + p;
    assert t[1..] == p;
    RestOf(t, 1, d, s, if s != [] then Inc(s, 0) else 0);
    FirstAny(t, d, s);
  }

  lemma {:induction false} FirstAny(t: seq<byte>, d: nat, s: seq<byte>)
    requires t != [] && t[0] == ANY
    ensures var x, r := ParsePat(t, 0, d), ParsePat(t, 1, d);
            (x.Ok? <==> r.Ok?) && (x.Ok? ==> x.next == r.next) &&
            Takes(t, d, s) == if ValidIn(t, d) && s != [] then Eval(r.value, s, Inc(s, 0)) else None
  {
    hide Inc;
  }

  /** A * before a character takes everything up to it. */
  lemma {:induction false} StarTakes(p: seq<byte>, d: nat, s: seq<byte>)
    requires p != [] && Ordinary(p[0])
    ensures ValidIn([STAR] + p, d) <==> ValidIn(p, d)
    ensures var q := Seek(s, 0, CharAt(p, 0)); Takes([STAR] + p, d, s) == Moved(Takes(p, d, s[q..]), q)
  {
    hide Takes, Seek, CharAt;
    var t := [STAR] + p;
    assert t[1..] == p;
    CharMoved(t, 1, 0);
    RestOf(t, 1, d, s, Seek(s, 0, CharAt(p, 0)));
    FirstStar(t, d, s);
  }

  lemma {:induction false} FirstStar(t: seq<byte>, d: nat, s: seq<byte>)
    requires |t| >= 2 && t[0] == STAR && Ordinary(t[1])
    ensures var x, r := ParsePat(t, 0, d), ParsePat(t, 1, d);
            (x.Ok? <==> r.Ok?) && (x.Ok? ==> x.next == r.next) &&
            Takes(t, d, s) == if ValidIn(t, d) then Eval(r.value, s, Seek(s, 0, CharAt(t, 1))) else None
  {
    hide Seek, CharAt;
  }

  /** A * before a ? takes nothing. */
  lemma {:induction false} StarAnyTakes(p: seq<byte>, d: nat, s: seq<byte>)
    ensures Takes([STAR, ANY] + p, d, s) == Takes([ANY] + p, d, s)
  {
    hide Inc;
    var t, u := [STAR, ANY] + p, [ANY] + p;
    assert t[1..] == u;
    assert ParsePat(t, 1, d) == Later(ParsePat(u, 0, d), 1) by { hide ParsePat; ParseMoved(t, 1, 0, d); }
    StarBeforeAny(t, d);
  }

  lemma {:induction false} StarBeforeAny(t: seq<byte>, d: nat)
    requires |t| >= 2 && t[0] == STAR && t[1] == ANY
    ensures var x, r := ParsePat(t, 0, d), ParsePat(t, 1, d);
            x == if r.Bad? then Bad else Ok(Nothing(r.value), r.next)
  {
  }

  /** A * at the end takes everything. */
  lemma {:induction false} LastStarTakes(d: nat, s: seq<byte>)
    ensures ValidIn([STAR], d) && Takes([STAR], d, s) == Some(|s|)
  {
    var t := [STAR];
    assert ParsePat(t, 1, d) == Ok(End, 1);
    assert ParsePat(t, 0, d) == Ok(ToEnd(End), 1);
    assert Eval(End, s, |s|) == Some(|s|);
  }

  // ---- groups ---------------------------------------------------------------------------------------

  /** The character at i is the same when a | or ) follows the text. */
  lemma {:induction false} CharInside(b: seq<byte>, p: seq<byte>, i: nat)
    requires i < |b| < |p| && b == p[..|b|] && !IsCont(p[|b|])
    ensures CharAt(b, i) == CharAt(p, i)
  {
    ContInsideText(b, p, i + 1);
  }

  lemma {:induction false} ContInsideText(b: seq<byte>, p: seq<byte>, i: nat)
    requires i <= |b| < |p| && b == p[..|b|] && !IsCont(p[|b|])
    ensures ContEnd(b, i) == ContEnd(p, i)
    decreases |b| - i
  {
    if i < |b| && IsCont(b[i]) { ContInsideText(b, p, i + 1); }
  }

  /** What parses by itself parses the same before a | or ). */
  lemma {:induction false} ParseStops(b: seq<byte>, p: seq<byte>, i: nat, d: nat)
    requires i <= |b| < |p| && b == p[..|b|] && (p[|b|] == BAR || p[|b|] == CLOSE) && ParsePat(b, i, d).Ok?
    ensures ParsePat(p, i, d) == ParsePat(b, i, d)
    decreases |b| - i, 0
  {
    hide ParsePat, ParseAlts, CharAt;
    if i == |b| || b[i] == BAR || b[i] == CLOSE {
      StopParse(b, i, d);
      StopParse(p, i, d);
    } else if b[i] == OPEN {
      GroupParses(b, i, d);
      GroupParses(p, i, d);
      ParseAltsStops(b, p, i + 1, d + 1);
      AltsRange(b, i + 1, d + 1);
      ParseStops(b, p, ParseAlts(b, i + 1, d + 1).next, d);
    } else if b[i] == STAR {
      StarParses(b, i, d);
      StarParses(p, i, d);
      ParseStops(b, p, i + 1, d);
      if i + 1 < |b| { CharInside(b, p, i + 1); }
    } else {
      OneParses(b, i, d);
      OneParses(p, i, d);
      ParseStops(b, p, NextAt(b, i), d);
    }
  }

  lemma {:induction false} ParseAltsStops(b: seq<byte>, p: seq<byte>, i: nat, d: nat)
    requires i <= |b| < |p| && b == p[..|b|] && (p[|b|] == BAR || p[|b|] == CLOSE) && ParseAlts(b, i, d).Ok?
    ensures ParseAlts(p, i, d) == ParseAlts(b, i, d)
    decreases |b| - i, 1
  {
    hide ParsePat;
    var x := ParsePat(b, i, d);
    ParseStops(b, p, i, d);
    ParseRange(b, i, d);
    if b[x.next] == BAR { ParseAltsStops(b, p, x.next + 1, d); }
  }

  lemma {:induction false} ParseRange(p: seq<byte>, i: nat, d: nat)
    requires i <= |p|
    ensures var x := ParsePat(p, i, d); x.Ok? ==> i <= x.next <= |p| && (x.next < |p| ==> p[x.next] == BAR || p[x.next] == CLOSE)
  {
  }

  /** The branches of a group, with bars between them. */
  function Joined(bs: seq<seq<byte>>): (r: seq<byte>)
    requires bs != []
  {
    if |bs| == 1 then bs[0] else bs[0] + [BAR] + Joined(bs[1..])
  }

  ghost function Branches(bs: seq<seq<byte>>, d: nat): (r: Alts)
    requires bs != [] && forall k :: 0 <= k < |bs| ==> ValidIn(bs[k], d)
  {
    assert ValidIn(bs[0], d);
    var x := ParsePat(bs[0], 0, d).value;
    if |bs| == 1 then Last(x) else Or(x, Branches(bs[1..], d))
  }

  lemma {:induction false} BranchesParse(bs: seq<seq<byte>>, p: seq<byte>, d: nat)
    requires bs != [] && forall k :: 0 <= k < |bs| ==> ValidIn(bs[k], d)
    ensures ParseAlts(Joined(bs) + [CLOSE] + p, 0, d) == Ok(Branches(bs, d), |Joined(bs)| + 1)
    decreases |bs|
  {
    hide ParsePat, ParseAlts, Joined;
    var t, b := Joined(bs) + [CLOSE] + p, bs[0];
    assert ValidIn(b, d);
    JoinedStarts(bs, p);
    ParseStops(b, t, 0, d);
    if |bs| > 1 {
      BranchesParse(bs[1..], p, d);
      ParseAltsMoved(t, |b| + 1, 0, d);
      MoreBranches(t, 0, d);
    } else {
      LastBranch(t, 0, d);
    }
  }

  lemma {:induction false} JoinedStarts(bs: seq<seq<byte>>, p: seq<byte>)
    requires bs != []
    ensures var t, n := Joined(bs) + [CLOSE] + p, |bs[0]|;
            n < |t| && t[..n] == bs[0] && t[n] == (if |bs| == 1 then CLOSE else BAR) &&
            |Joined(bs)| == (if |bs| == 1 then n else n + 1 + |Joined(bs[1..])|) &&
            (|bs| > 1 ==> t[n + 1..] == Joined(bs[1..]) + [CLOSE] + p)
  {
  }

  lemma {:induction false} LastBranch(p: seq<byte>, i: nat, d: nat)
    requires i <= |p| && ParsePat(p, i, d).Ok? && ParsePat(p, i, d).next < |p| && p[ParsePat(p, i, d).next] == CLOSE
    ensures var x := ParsePat(p, i, d); ParseAlts(p, i, d) == Ok(Last(x.value), x.next + 1)
  {
    hide ParsePat;
  }

  lemma {:induction false} MoreBranches(p: seq<byte>, i: nat, d: nat)
    requires i <= |p| && ParsePat(p, i, d).Ok? && ParsePat(p, i, d).next < |p| && p[ParsePat(p, i, d).next] == BAR
    ensures var x := ParsePat(p, i, d);
            var a := ParseAlts(p, x.next + 1, d);
            ParseAlts(p, i, d) == if a.Bad? then Bad else Ok(Or(x.value, a.value), a.next)
  {
    hide ParsePat;
  }

  /** What the first branch that matches takes. */
  function FirstTaken(bs: seq<seq<byte>>, d: nat, s: seq<byte>): (r: Option<nat>)
    ensures r.Some? ==> r.value <= |s|
  {
    if bs == [] then None
    else if Takes(bs[0], d, s).Some? then Takes(bs[0], d, s)
    else FirstTaken(bs[1..], d, s)
  }

  lemma {:induction false} BranchesTake(bs: seq<seq<byte>>, d: nat, s: seq<byte>)
    requires bs != [] && forall k :: 0 <= k < |bs| ==> ValidIn(bs[k], d)
    ensures EvalAlts(Branches(bs, d), s, 0) == FirstTaken(bs, d, s)
    decreases |bs|
  {
    hide ParsePat, Eval;
    assert ValidIn(bs[0], d);
    if |bs| == 1 {
      assert bs[1..] == [];
    } else {
      BranchesTake(bs[1..], d, s);
    }
  }

  /** A group takes what its first matching branch takes, and is not tried again. */
  lemma {:induction false} GroupTakes(bs: seq<seq<byte>>, p: seq<byte>, d: nat, s: seq<byte>)
    requires bs != [] && d < MAX_PAREN && forall k :: 0 <= k < |bs| ==> ValidIn(bs[k], d + 1)
    ensures ValidIn([OPEN] + Joined(bs) + [CLOSE] + p, d) <==> ValidIn(p, d)
    ensures Takes([OPEN] + Joined(bs) + [CLOSE] + p, d, s) ==
              var q := FirstTaken(bs, d + 1, s);
              if q.Some? then Moved(Takes(p, d, s[q.value..]), q.value) else None
  {
    hide ParsePat, ParseAlts, ValidIn, Eval, Joined, Takes;
    var u := Joined(bs) + [CLOSE] + p;
    var t := [OPEN] + Joined(bs) + [CLOSE] + p;
    assert t[1..] == u;
    BranchesParse(bs, p, d + 1);
    ParseAltsMoved(t, 1, 0, d + 1);
    GroupParses(t, 0, d);
    BranchesTake(bs, d + 1, s);
    var n := |Joined(bs)| + 2;
    assert t[n..] == p;
    var q := FirstTaken(bs, d + 1, s);
    RestOf(t, n, d, s, if q.Some? then q.value else 0);
    GroupEvals(t, d, s);
  }

  lemma {:induction false} GroupEvals(t: seq<byte>, d: nat, s: seq<byte>)
    requires t != [] && t[0] == OPEN && d < MAX_PAREN && ParseAlts(t, 1, d + 1).Ok?
    ensures var a := ParseAlts(t, 1, d + 1);
            var r, q := ParsePat(t, a.next, d), EvalAlts(a.value, s, 0);
            (ValidIn(t, d) <==> r.Ok? && r.next == |t|) &&
            Takes(t, d, s) == if ValidIn(t, d) && q.Some? then Eval(r.value, s, q.value) else None
  {
    hide ParseAlts, EvalAlts;
    GroupParses(t, 0, d);
  }

  lemma {:induction false} UnclosedParse(bs: seq<seq<byte>>, d: nat)
    requires bs != [] && forall k :: 0 <= k < |bs| ==> ValidIn(bs[k], d)
    ensures ParseAlts(Joined(bs), 0, d).Bad?
    decreases |bs|
  {
    hide ParsePat, ParseAlts;
    var t, b := Joined(bs), bs[0];
    assert ValidIn(b, d);
    if |bs| > 1 {
      assert t[..|b|] == b && t[|b| + 1..] == Joined(bs[1..]);
      ParseStops(b, t, 0, d);
      UnclosedParse(bs[1..], d);
      ParseAltsMoved(t, |b| + 1, 0, d);
      MoreBranches(t, 0, d);
    } else {
      EndedBranch(b, d);
    }
  }

  lemma {:induction false} EndedBranch(p: seq<byte>, d: nat)
    requires ValidIn(p, d)
    ensures ParseAlts(p, 0, d).Bad?
  {
    hide ParsePat;
  }

  /** Texts that are no patterns: a bar or closing parenthesis outside a group, two stars in a row, a star
      before a group, a backslash at the end, a group that is not closed, and one too deep. */
  lemma {:induction false} Malformed(bs: seq<seq<byte>>, p: seq<byte>, d: nat)
    requires bs != [] && forall k :: 0 <= k < |bs| ==> ValidIn(bs[k], d + 1)
    ensures !ValidIn([BAR] + p, d) && !ValidIn([CLOSE] + p, d)
    ensures !ValidIn([STAR, STAR] + p, d) && !ValidIn([STAR, OPEN] + p, d)
    ensures !ValidIn([ESC], d) && !ValidIn([STAR, ESC], d)
    ensures !ValidIn([OPEN] + Joined(bs), d)
    ensures d >= MAX_PAREN ==> !ValidIn([OPEN] + p, d)
  {
    hide ParseAlts, Joined;
    var t := [OPEN] + Joined(bs);
    assert t[1..] == Joined(bs);
    UnclosedParse(bs, d + 1);
    ParseAltsMoved(t, 1, 0, d + 1);
  }

  // ---- words, prefixes, choices ---------------------------------------------------------------------

  ghost predicate Word(w: seq<byte>)
  {
    forall k :: 0 <= k < |w| ==> Ordinary(w[k])
  }

  /** A word in front of a pattern takes exactly itself. */
  lemma {:induction false} WordTakes(w: seq<byte>, p: seq<byte>, d: nat, s: seq<byte>)
    requires Word(w)
    ensures ValidIn(w + p, d) <==> ValidIn(p, d)
    ensures Takes(w + p, d, s) == if w <= s then Moved(Takes(p, d, s[|w|..]), |w|) else None
    decreases |w|
  {
    hide Takes, ValidIn;
    if w == [] {
      assert w + p == p && s[0..] == s;
    } else {
      var v := w[1..];
      assert forall k :: 0 <= k < |v| ==> v[k] == w[k + 1];
      assert w + p == [w[0]] + (v + p);
      ByteTakes(w[0], v + p, d, s);
      if s != [] && s[0] == w[0] {
        WordTakes(v, p, d, s[1..]);
        assert w == [w[0]] + v && s == [s[0]] + s[1..];
        assert v <= s[1..] <==> w <= s;
        if w <= s { assert s[1..][|v|..] == s[|w|..]; }
      } else {
        WordTakes(v, p, d, []);
      }
    }
  }

  /** A pattern without special bytes matches itself and nothing else. */
  lemma {:induction false} WordHits(w: seq<byte>, s: seq<byte>)
    requires Word(w)
    ensures Hits(w, s) <==> s == w
  {
    hide Takes, ValidIn, Hits;
    assert w + [] == w;
    WordTakes(w, [], 0, s);
    if w <= s { NothingTakesNothing(0, s[|w|..]); }
    HitsTakesAll(w, s);
  }

  /** A word and a * match what begins with the word. */
  lemma {:induction false} PrefixHits(w: seq<byte>, s: seq<byte>)
    requires Word(w)
    ensures Hits(w + [STAR], s) <==> w <= s
  {
    hide Takes, ValidIn, Hits;
    WordTakes(w, [STAR], 0, s);
    if w <= s { LastStarTakes(0, s[|w|..]); }
    HitsTakesAll(w + [STAR], s);
  }

  lemma {:induction false} FirstWordTaken(ws: seq<seq<byte>>, d: nat, s: seq<byte>)
    requires forall k :: 0 <= k < |ws| ==> Word(ws[k])
    ensures forall k :: 0 <= k < |ws| ==> ValidIn(ws[k], d)
    ensures var q := FirstTaken(ws, d, s);
            if q.None? then forall k :: 0 <= k < |ws| ==> !(ws[k] <= s)
            else exists k :: 0 <= k < |ws| && ws[k] <= s && q.value == |ws[k]| && forall j :: 0 <= j < k ==> !(ws[j] <= s)
    decreases |ws|
  {
    hide Takes, ValidIn;
    if ws != [] {
      var w := ws[0];
      assert w + [] == w;
      WordTakes(w, [], d, s);
      NothingTakesNothing(d, if w <= s then s[|w|..] else []);
      FirstWordTaken(ws[1..], d, s);
      if !(w <= s) {
        var q := FirstTaken(ws[1..], d, s);
        assert forall k :: 0 < k < |ws| ==> ws[k] == ws[1..][k - 1];
        if q.Some? {
          var k :| 0 <= k < |ws[1..]| && ws[1..][k] <= s && q.value == |ws[1..][k]| && forall j :: 0 <= j < k ==> !(ws[1..][j] <= s);
          assert ws[k + 1] <= s && forall j :: 0 <= j < k + 1 ==> !(ws[j] <= s);
        }
      }
    }
  }

  /** A choice of words and then a pattern: the first of the words that the string begins with decides. */
  lemma {:induction false} ChoiceHits(ws: seq<seq<byte>>, p: seq<byte>, s: seq<byte>)
    requires ws != [] && forall k :: 0 <= k < |ws| ==> Word(ws[k])
    ensures Hits([OPEN] + Joined(ws) + [CLOSE] + p, s) <==>
              exists k :: 0 <= k < |ws| && ws[k] <= s && (forall j :: 0 <= j < k ==> !(ws[j] <= s)) && Hits(p, s[|ws[k]|..])
  {
    hide Takes, ValidIn, Hits, Joined, FirstTaken;
    FirstWordTaken(ws, 1, s);
    GroupTakes(ws, p, 0, s);
    HitsTakesAll([OPEN] + Joined(ws) + [CLOSE] + p, s);
    var q := FirstTaken(ws, 1, s);
    if q.Some? {
      assert 0 <= q.value <= |s|;
      HitsTakesAll(p, s[q.value..]);
    }
  }

  // ---- the next character ---------------------------------------------------------------------------

  /** Where characters end: behind a single byte, or behind a lead byte and all the continuation bytes there. */
  lemma {:induction false} CharSpan(s: seq<byte>, i: nat)
    requires i < |s|
    ensures var e := Inc(s, i);
            i < e <= |s| && (!IsLead(s[i]) ==> e == i + 1) && (forall k :: i < k < e ==> IsCont(s[k])) &&
            (IsLead(s[i]) && e < |s| ==> !IsCont(s[e]))
  {
  }

  lemma {:induction false} CharIs(s: seq<byte>, i: nat, b: byte)
    requires i < |s| && b < 0x80
    ensures if CharAt(s, i) <= [b] then s[i] == b else forall k :: i <= k < Inc(s, i) ==> s[k] != b
  {
    hide ContEnd;
    CharSpan(s, i);
    assert CharAt(s, i)[0] == s[i];
  }

  /** A * before an ASCII byte goes to the next one, and not beyond. */
  lemma {:induction false} SeekNext(s: seq<byte>, i: nat, b: byte)
    requires i <= |s| && b < 0x80
    ensures var q := Seek(s, i, [b]); i <= q <= |s| && (forall k :: i <= k < q ==> s[k] != b) && (q == |s| || s[q] == b)
    decreases |s| - i
  {
    if i < |s| {
      hide CharAt;
      CharIs(s, i, b);
      if !(CharAt(s, i) <= [b]) { SeekNext(s, Inc(s, i), b); }
    }
  }

  /** * and a word of one character: the string goes on with the word, and nothing else, at the next such
      character. */
  lemma {:induction false} StarWordHits(w: seq<byte>, s: seq<byte>)
    requires Word(w) && w != [] && CharAt(w, 0) == w
    ensures 0 <= Seek(s, 0, w) <= |s| && (Hits([STAR] + w, s) <==> s[Seek(s, 0, w)..] == w)
  {
    hide CharAt, Takes, ValidIn, Hits, Seek;
    assert 0 <= Seek(s, 0, w) <= |s| by { SeekIn(s, w); }
    var v := s[Seek(s, 0, w)..];
    StarTakes(w, 0, s);
    assert w + [] == w;
    WordTakes(w, [], 0, v);
    if w <= v { NothingTakesNothing(0, v[|w|..]); }
    HitsTakesAll([STAR] + w, s);
  }

  lemma {:induction false} SeekIn(s: seq<byte>, c: seq<byte>)
    ensures 0 <= Seek(s, 0, c) <= |s|
  {
  }

  /** *x matches a string that ends in x and has no x before that. */
  lemma {:induction false} StarByteHits(x: byte, s: seq<byte>)
    requires Ordinary(x) && x < 0x80
    ensures Hits([STAR, x], s) <==> s != [] && s[|s| - 1] == x && x !in s[..|s| - 1]
  {
    hide Hits, Seek;
    assert [STAR] + [x] == [STAR, x];
    StarWordHits([x], s);
    SeekNext(s, 0, x);
    var q := Seek(s, 0, [x]);
    assert q < |s| - 1 ==> s[q] in s[..|s| - 1];
  }

  /** A word, a * and another word: what lies between them does not hold the first byte of the second. */
  lemma {:induction false} StarBetweenHits(u: seq<byte>, v: seq<byte>, s: seq<byte>)
    requires Word(u) && Word(v) && v != [] && v[0] < 0x80
    ensures Hits(u + [STAR] + v, s) <==> exists m :: s == u + m + v && v[0] !in m
  {
    hide Takes, ValidIn, Hits, Seek;
    var p := [STAR] + v;
    assert u + [STAR] + v == u + p;
    WordTakes(u, p, 0, s);
    HitsTakesAll(u + p, s);
    if u <= s {
      var t := s[|u|..];
      StarWordTakes(v, t);
      var q := Seek(t, 0, [v[0]]);
      SeekNext(t, 0, v[0]);
      if t[q..] == v {
        assert s == u + t[..q] + v && v[0] !in t[..q];
      }
      forall m | s == u + m + v && v[0] !in m ensures t[q..] == v {
        FirstAt(t, m, v, q);
      }
    }
  }

  lemma {:induction false} StarWordTakes(v: seq<byte>, t: seq<byte>)
    requires Word(v) && v != [] && v[0] < 0x80
    ensures var q := Seek(t, 0, [v[0]]);
            0 <= q <= |t| && (Takes([STAR] + v, 0, t) == Some(|t|) <==> t[q..] == v)
  {
    hide Takes, ValidIn, Seek;
    var q := Seek(t, 0, [v[0]]);
    SeekIn(t, [v[0]]);
    assert CharAt(v, 0) == [v[0]];
    StarTakes(v, 0, t);
    assert v + [] == v;
    WordTakes(v, [], 0, t[q..]);
    if v <= t[q..] { NothingTakesNothing(0, t[q..][|v|..]); }
  }

  lemma {:induction false} FirstAt(t: seq<byte>, m: seq<byte>, v: seq<byte>, q: nat)
    requires t == m + v && v != [] && v[0] !in m && q <= |t| && (forall k :: 0 <= k < q ==> t[k] != v[0]) && (q == |t| || t[q] == v[0])
    ensures t[q..] == v
  {
    assert t[|m|] == v[0];
    forall k | 0 <= k < |m| ensures t[k] != v[0] { assert t[k] == m[k]; }
    assert q == |m|;
  }

  // ---- Unicode text ---------------------------------------------------------------------------------

  /** A code point in UTF-8 (section 3 of RFC 3629). */
  function Utf8(c: nat): (r: seq<byte>)
    requires c < 0x11_0000
    ensures r != []
  {
    if c < 0x80 then [c]
    else if c < 0x800 then [0xc0 + c / 0x40, 0x80 + c % 0x40]
    else if c < 0x1_0000 then [0xe0 + c / 0x1000, 0x80 + c / 0x40 % 0x40, 0x80 + c % 0x40]
    else [0xf0 + c / 0x4_0000, 0x80 + c / 0x1000 % 0x40, 0x80 + c / 0x40 % 0x40, 0x80 + c % 0x40]
  }

  ghost predicate CodePoints(cs: seq<nat>)
  {
    forall k :: 0 <= k < |cs| ==> cs[k] < 0x11_0000
  }

  function Text(cs: seq<nat>): (r: seq<byte>)
    requires CodePoints(cs)
  {
    if cs == [] then [] else Utf8(cs[0]) + Text(cs[1..])
  }

  lemma {:induction false} Utf8Shape(c: nat)
    requires c < 0x11_0000
    ensures var u := Utf8(c); u != [] && !IsCont(u[0]) && (IsLead(u[0]) <==> |u| > 1) && forall k :: 0 < k < |u| ==> IsCont(u[k])
    ensures c < 0x80 ==> Utf8(c) == [c]
    ensures c >= 0x80 ==> Utf8(c)[0] >= 0xc0
  {
  }

  /** The code point that some bytes stand for. */
  function Point(u: seq<byte>): (r: int)
  {
    if |u| == 1 then u[0]
    else if |u| == 2 then (u[0] as int - 0xc0) * 0x40 + (u[1] as int - 0x80)
    else if |u| == 3 then (u[0] as int - 0xe0) * 0x1000 + (u[1] as int - 0x80) * 0x40 + (u[2] as int - 0x80)
    else if |u| == 4 then
      (u[0] as int - 0xf0) * 0x4_0000 + (u[1] as int - 0x80) * 0x1000 + (u[2] as int - 0x80) * 0x40 + (u[3] as int - 0x80)
    else 0
  }

  lemma {:induction false} Utf8Decodes(c: nat)
    requires c < 0x11_0000
    ensures Point(Utf8(c)) == c
    ensures |Utf8(c)| == var b := Utf8(c)[0]; if b < 0x80 then 1 else if b < 0xe0 then 2 else if b < 0xf0 then 3 else 4
  {
    if c < 0x800 {
    } else if c < 0x1_0000 {
      assert c / 0x1000 == c / 0x40 / 0x40;
    } else {
      assert c / 0x1000 == c / 0x40 / 0x40;
      assert c / 0x4_0000 == c / 0x1000 / 0x40;
    }
  }

  /** No character's bytes begin another's. */
  lemma {:induction false} Utf8Unique(a: nat, b: nat)
    requires a < 0x11_0000 && b < 0x11_0000 && Utf8(a) <= Utf8(b)
    ensures a == b
  {
    hide Utf8;
    Utf8Shape(a);
    Utf8Decodes(a);
    Utf8Decodes(b);
    assert Utf8(a)[0] == Utf8(b)[0];
    assert Utf8(a) == Utf8(b);
  }

  /** The characters that the matcher steps over are those of the text. */
  lemma {:induction false} TextFirst(cs: seq<nat>)
    requires CodePoints(cs) && cs != []
    ensures var t, u := Text(cs), Utf8(cs[0]);
            t != [] && CharAt(t, 0) == u && Inc(t, 0) == |u| && t[|u|..] == Text(cs[1..])
  {
    hide Utf8, ContEnd;
    var t, u := Text(cs), Utf8(cs[0]);
    Utf8Shape(cs[0]);
    CharSpan(t, 0);
    if |cs| > 1 {
      Utf8Shape(cs[1]);
      assert cs[1..][0] == cs[1] && Text(cs[1..])[0] == Utf8(cs[1])[0];
      assert t[|u|] == Text(cs[1..])[0];
    }
    assert forall k :: 0 <= k < |u| ==> t[k] == u[k];
    assert Inc(t, 0) >= |u|;
    assert t[..|u|] == u;
  }

  /** How many characters come before the first c, or how many there are. */
  function IndexOf(cs: seq<nat>, c: nat): (r: nat)
    ensures r <= |cs| && c !in cs[..r] && (r < |cs| ==> cs[r] == c)
  {
    if cs == [] || cs[0] == c then 0 else 1 + IndexOf(cs[1..], c)
  }

  /** A * before any character goes to the next such character. */
  lemma {:induction false} SeekText(cs: seq<nat>, c: nat)
    requires CodePoints(cs) && c < 0x11_0000
    ensures var n, q := IndexOf(cs, c), Seek(Text(cs), 0, Utf8(c)); Text(cs)[q..] == Text(cs[n..])
    decreases |cs|
  {
    hide Utf8, Inc, CharAt;
    var t := Text(cs);
    if cs != [] {
      var u := Utf8(cs[0]);
      TextFirst(cs);
      if u <= Utf8(c) {
        Utf8Unique(cs[0], c);
        assert t[0..] == t && cs[0..] == cs;
      } else {
        SeekText(cs[1..], c);
        SeekMoved(t, |u|, 0, Utf8(c));
        var n := IndexOf(cs[1..], c);
        var q := Seek(t[|u|..], 0, Utf8(c));
        assert cs[1..][n..] == cs[1 + n..];
        assert t[|u|..][q..] == t[|u| + q..];
      }
    }
  }

  lemma {:induction false} Utf8Word(c: nat)
    requires c < 0x11_0000 && (c < 0x80 ==> Ordinary(c))
    ensures Word(Utf8(c)) && CharAt(Utf8(c), 0) == Utf8(c)
  {
    hide Utf8, CharAt;
    Utf8Shape(c);
    TextFirst([c]);
    assert [c][1..] == [];
    assert Text([c]) == Utf8(c) + [] == Utf8(c);
  }

  /** *c for a character c matches a text that ends in c and has no c before that. */
  lemma {:induction false} StarCharHits(c: nat, cs: seq<nat>)
    requires CodePoints(cs) && c < 0x11_0000 && (c < 0x80 ==> Ordinary(c))
    ensures Hits([STAR] + Utf8(c), Text(cs)) <==> cs != [] && cs[|cs| - 1] == c && c !in cs[..|cs| - 1]
  {
    hide Utf8, CharAt, Hits, Seek, Text;
    Utf8Word(c);
    StarWordHits(Utf8(c), Text(cs));
    SeekText(cs, c);
    FoundLast(cs, c, IndexOf(cs, c));
  }

  lemma {:induction false} FoundLast(cs: seq<nat>, c: nat, n: nat)
    requires CodePoints(cs) && c < 0x11_0000 && n <= |cs| && c !in cs[..n] && (n < |cs| ==> cs[n] == c)
    ensures Text(cs[n..]) == Utf8(c) <==> cs != [] && cs[|cs| - 1] == c && c !in cs[..|cs| - 1]
  {
    hide Utf8;
    if n < |cs| {
      assert cs[n..][0] == c && cs[n..][1..] == cs[n + 1..];
      assert Text(cs[n..]) == Utf8(c) + Text(cs[n + 1..]);
      assert n < |cs| - 1 ==> cs[n] in cs[..|cs| - 1];
    } else {
      assert cs != [] ==> cs[|cs| - 1] in cs[..n];
    }
  }

  function Anys(n: nat): (r: seq<byte>)
  {
    if n == 0 then [] else [ANY] + Anys(n - 1)
  }

  /** Question marks count characters, not bytes. */
  lemma {:induction false} AnysHit(n: nat, cs: seq<nat>)
    requires CodePoints(cs)
    ensures Hits(Anys(n), Text(cs)) <==> |cs| == n
    decreases n
  {
    hide Utf8, Inc, Takes, ValidIn, Hits;
    var t := Text(cs);
    HitsTakesAll(Anys(n), t);
    if n == 0 {
      NothingTakesNothing(0, t);
    } else {
      AnyTakes(Anys(n - 1), 0, t);
      if cs != [] {
        TextFirst(cs);
        AnysHit(n - 1, cs[1..]);
        HitsTakesAll(Anys(n - 1), Text(cs[1..]));
      }
    }
  }
}
