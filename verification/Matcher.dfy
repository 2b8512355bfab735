/** The subscription pattern matcher of daemon/match.c. */
module Matcher {
  import opened Bytes

  const STAR: byte := 0x2a
  const OPEN: byte := 0x28
  const CLOSE: byte := 0x29
  const BAR: byte := 0x7c
  const ANY: byte := 0x3f
  const ESC: byte := 0x5c
  const MAX_PAREN: nat := 4

  /** A C string holds no NUL; reading at its end gives one. */
  predicate CString(s: seq<byte>)
  {
    0 !in s
  }

  function At(s: seq<byte>, i: nat): (r: byte)
  {
    if i < |s| then s[i] else 0
  }

  // ---- UTF-8 stepping (lead and continuation bytes, section 3 of RFC 3629) --------------------

  predicate IsLead(b: byte) { b >= 0xc0 }
  predicate IsCont(b: byte) { 0x80 <= b < 0xc0 }

  /** The end of the run of continuation bytes from i on. */
  function ContEnd(s: seq<byte>, i: nat): (r: nat)
    requires i <= |s|
    ensures i <= r <= |s|
    ensures forall k :: i <= k < r ==> IsCont(s[k])
    ensures r < |s| ==> !IsCont(s[r])
    decreases |s| - i
  {
    if i < |s| && IsCont(s[i]) then ContEnd(s, i + 1) else i
  }

  /** The end of the character at i. */
  function Inc(s: seq<byte>, i: nat): (r: nat)
    requires i < |s|
    ensures i < r <= |s|
  {
    if IsLead(s[i]) then ContEnd(s, i + 1) else i + 1
  }

  /** The bytes of the character at i. */
  function CharAt(s: seq<byte>, i: nat): (r: seq<byte>)
    requires i < |s|
    ensures |r| > 0
  {
    s[i..Inc(s, i)]
  }

  /** utf8inc() */
  method Utf8Inc(s: seq<byte>, i: nat) returns (r: nat)
    requires i < |s|
    ensures r == Inc(s, i)
  {
    r := i + 1;
    if IsLead(s[i]) {
      while IsCont(At(s, r))
        invariant i < r <= |s| && ContEnd(s, r) == ContEnd(s, i + 1)
        decreases |s| - r
      {
        r := r + 1;
      }
    }
  }

  /** utf8eq(): the character of a at i is what b starts with at j. */
  method Utf8Eq(a: seq<byte>, i: nat, b: seq<byte>, j: nat) returns (r: bool)
    requires i < |a| && CString(a) && CString(b) && j <= |b|
    ensures r <==> CharAt(a, i) <= b[j..]
  {
    hide Inc, CharAt;
    if At(a, i) != At(b, j) {
      Differs(a, i, b, j, 0);
      return false;
    }
    if !IsLead(a[i]) {
      Whole(a, i, b, j, 1);
      return true;
    }
    var k := 1;
    while IsCont(At(a, i + k))
      invariant 1 <= k && i + k <= Inc(a, i) && j + k <= |b|
      invariant a[i..i + k] == b[j..j + k]
      decreases |a| - (i + k)
    {
      ContGoesOn(a, i, k);
      if At(a, i + k) != At(b, j + k) {
        Differs(a, i, b, j, k);
        return false;
      }
      assert a[i..i + k + 1] == a[i..i + k] + [a[i + k]] && b[j..j + k + 1] == b[j..j + k] + [b[j + k]];
      k := k + 1;
    }
    ContDone(a, i, k);
    Whole(a, i, b, j, k);
    return true;
  }

  /** A byte of the character of a at i that b does not have. */
  lemma {:induction false} Differs(a: seq<byte>, i: nat, b: seq<byte>, j: nat, k: nat)
    requires i < |a| && i + k < Inc(a, i) && j + k <= |b| && At(a, i + k) != At(b, j + k)
    ensures !(CharAt(a, i) <= b[j..])
  {
    hide Inc;
    var x, y := CharAt(a, i), b[j..];
    assert x[k] == a[i + k];
    assert j + k < |b| ==> y[k] == b[j + k];
  }

  /** All bytes of the character of a at i, that b has as well. */
  lemma {:induction false} Whole(a: seq<byte>, i: nat, b: seq<byte>, j: nat, k: nat)
    requires i < |a| && 1 <= k && j + k <= |b| && i + k <= |a| && a[i..i + k] == b[j..j + k]
    requires if IsLead(a[i]) then i + k == Inc(a, i) else k == 1
    ensures CharAt(a, i) <= b[j..]
  {
    assert CharAt(a, i) == b[j..][..k];
  }

  lemma {:induction false} ContDone(a: seq<byte>, i: nat, k: nat)
    requires i < |a| && IsLead(a[i]) && 1 <= k && i + k <= Inc(a, i) && !IsCont(At(a, i + k))
    ensures i + k == Inc(a, i)
  {
    ContInside(a, i);
  }

  lemma {:induction false} ContInside(a: seq<byte>, i: nat)
    requires i < |a| && IsLead(a[i])
    ensures forall m :: i < m < Inc(a, i) ==> IsCont(At(a, m))
  {
  }

  lemma {:induction false} ContGoesOn(a: seq<byte>, i: nat, k: nat)
    requires i < |a| && IsLead(a[i]) && 1 <= k && i + k <= Inc(a, i) && IsCont(At(a, i + k))
    ensures i + k < Inc(a, i)
  {
    var m, r := i + k, Inc(a, i);
    assert r < |a| ==> !IsCont(a[r]);
    assert At(a, m) == if m < |a| then a[m] else 0;
  }

  /** The first character from i on that c begins with, or the end. */
  function Seek(s: seq<byte>, i: nat, c: seq<byte>): (r: nat)
    requires i <= |s|
    ensures i <= r <= |s|
    decreases |s| - i
  {
    if i == |s| || CharAt(s, i) <= c then i else Seek(s, Inc(s, i), c)
  }

  // ---- what a pattern means -------------------------------------------------------------------

  /** A parsed pattern: elements from left to right. */
  datatype Pat =
    | End
    | Lit(b: byte, rest: Pat)
    | Any(rest: Pat)
    | Upto(c: seq<byte>, rest: Pat)    // * before a character
    | ToEnd(rest: Pat)                 // * before | or ) or the end
    | Nothing(rest: Pat)               // * before ?
    | Group(alts: Alts, rest: Pat)
  datatype Alts = Last(p: Pat) | Or(p: Pat, alts: Alts)

  /** Where the pattern leaves the string, matching from pos without ever going back; a group takes
      its first branch that matches. */
  function Eval(pat: Pat, s: seq<byte>, pos: nat): (r: Option<nat>)
    requires pos <= |s|
    ensures r.Some? ==> pos <= r.value <= |s|
    decreases pat
  {
    match pat
    case End => Some(pos)
    case Lit(b, rest) => if pos < |s| && s[pos] == b then Eval(rest, s, pos + 1) else None
    case Any(rest) => if pos < |s| then Eval(rest, s, Inc(s, pos)) else None
    case Upto(c, rest) => Eval(rest, s, Seek(s, pos, c))
    case ToEnd(rest) => Eval(rest, s, |s|)
    case Nothing(rest) => Eval(rest, s, pos)
    case Group(alts, rest) =>
      var q := EvalAlts(alts, s, pos);
      if q.Some? then Eval(rest, s, q.value) else None
  }

  function EvalAlts(alts: Alts, s: seq<byte>, pos: nat): (r: Option<nat>)
    requires pos <= |s|
    ensures r.Some? ==> pos <= r.value <= |s|
    decreases alts
  {
    match alts
    case Last(p) => Eval(p, s, pos)
    case Or(p, rest) =>
      var q := Eval(p, s, pos);
      if q.Some? then q else EvalAlts(rest, s, pos)
  }

  /** The pattern matches the entire string. */
  predicate Matches(pat: Pat, s: seq<byte>)
  {
    Eval(pat, s, 0) == Some(|s|)
  }

  // ---- the pattern grammar --------------------------------------------------------------------

  datatype Parsed<T> = Bad | Ok(value: T, next: nat)

  /** A sequence of elements, up to the end of the text or a | or ) that is not its own. */
  function ParsePat(p: seq<byte>, i: nat, depth: nat): (r: Parsed<Pat>)
    requires i <= |p|
    ensures r.Ok? ==> i <= r.next <= |p| && (r.next < |p| ==> p[r.next] == BAR || p[r.next] == CLOSE)
    decreases |p| - i, 0
  {
    if i == |p| || p[i] == BAR || p[i] == CLOSE then Ok(End, i)
    else if p[i] == OPEN then
      if depth >= MAX_PAREN then Bad
      else
        var a := ParseAlts(p, i + 1, depth + 1);
        if a.Bad? then Bad
        else
          var r := ParsePat(p, a.next, depth);
          if r.Bad? then Bad else Ok(Group(a.value, r.value), r.next)
    else if p[i] == STAR then
      var n := At(p, i + 1);
      if n == STAR || n == OPEN || (n == ESC && i + 2 >= |p|) then Bad
      else
        var r := ParsePat(p, i + 1, depth);
        if r.Bad? then Bad
        else if n == 0 || n == BAR || n == CLOSE then Ok(ToEnd(r.value), r.next)
        else if n == ANY then Ok(Nothing(r.value), r.next)
        else Ok(Upto(if i + 1 < |p| then CharAt(p, i + 1) else [], r.value), r.next)
    else if p[i] == ESC && i + 1 == |p| then Bad
    else
      var j := if p[i] == ESC then i + 2 else i + 1;
      var r := ParsePat(p, j, depth);
      if r.Bad? then Bad
      else if p[i] == ESC then Ok(Lit(p[i + 1], r.value), r.next)
      else if p[i] == ANY then Ok(Any(r.value), r.next)
      else Ok(Lit(p[i], r.value), r.next)
  }

  /** Branches up to and including the ) that closes them. */
  function ParseAlts(p: seq<byte>, i: nat, depth: nat): (r: Parsed<Alts>)
    requires i <= |p|
    ensures r.Ok? ==> i < r.next <= |p|
    decreases |p| - i, 1
  {
    var x := ParsePat(p, i, depth);
    if x.Bad? || x.next == |p| then Bad
    else if p[x.next] == CLOSE then Ok(Last(x.value), x.next + 1)
    else
      var a := ParseAlts(p, x.next + 1, depth);
      if a.Bad? then Bad else Ok(Or(x.value, a.value), a.next)
  }

  /** The whole text as a pattern, if it is one. */
  function Parse(p: seq<byte>): (r: Option<Pat>)
  {
    var x := ParsePat(p, 0, 0);
    if x.Ok? && x.next == |p| then Some(x.value) else None
  }

  /** The text is a pattern, and it matches the whole string. */
  predicate Hits(p: seq<byte>, s: seq<byte>)
  {
    Parse(p).Some? && Matches(Parse(p).value, s)
  }

  // ---- the flat pass --------------------------------------------------------------------------

  /** One slot of parens[]: the string position at (, whether the branch has mismatched, and the
      position that the first matching branch reached. */
  datatype Frame = Frame(start: nat, failed: bool, success: Option<nat>)

  /** The string cursor and the open parens, innermost last. */
  datatype State = State(pos: nat, stack: seq<Frame>)

  datatype Step = Halt(r: int) | Go(next: nat, st: State)

  /** The cursor and every position saved in a slot lie within the string. */
  ghost predicate InBounds(st: State, s: seq<byte>)
  {
    st.pos <= |s| && |st.stack| <= MAX_PAREN &&
    forall k :: 0 <= k < |st.stack| ==>
      st.stack[k].start <= |s| && (st.stack[k].success.Some? ==> st.stack[k].success.value <= |s|)
  }

  function Top(stack: seq<Frame>): (r: Frame)
    requires stack != []
  {
    stack[|stack| - 1]
  }

  function Pop(stack: seq<Frame>): (r: seq<Frame>)
    requires stack != []
  {
    stack[..|stack| - 1]
  }

  function WithTop(stack: seq<Frame>, f: Frame): (r: seq<Frame>)
    requires stack != []
    ensures |r| == |stack|
  {
    stack[|stack| - 1 := f]
  }

  /** At the end of a branch: the first one that did not mismatch decides. */
  function EndBranch(f: Frame, pos: nat): (r: Frame)
  {
    if !f.failed && f.success.None? then f.(success := Some(pos)) else f
  }

  /** A mismatch in the innermost group. */
  function Fail(stack: seq<Frame>): (r: seq<Frame>)
    requires stack != []
    ensures |r| == |stack|
  {
    WithTop(stack, Top(stack).(failed := true))
  }

  /** Closing the innermost group, whose slot is f, over the string. */
  function CloseGroup(f: Frame, outer: seq<Frame>, pos: nat, next: nat): (r: Step)
  {
    if outer == [] then
      if f.success.None? then Halt(0) else Go(next, State(f.success.value, []))
    else if f.success.Some? then Go(next, State(f.success.value, outer))
    else Go(next, State(pos, Fail(outer)))
  }

  /** A single character against the string: a mismatch outside all groups ends the match. */
  function OneChar(ok: bool, pos: nat, after: nat, stack: seq<Frame>, next: nat): (r: Step)
  {
    if ok then Go(next, State(after, stack))
    else if stack != [] then Go(next, State(pos, Fail(stack)))
    else Halt(0)
  }

  /** One turn of do_match()'s loop at pattern position i. In a check, string is the special pointer
      CHECK: it never moves and nothing mismatches. */
  function Turn(p: seq<byte>, i: nat, s: seq<byte>, check: bool, st: State): (r: Step)
    requires i < |p| && InBounds(st, s)
    ensures r.Go? ==> i < r.next <= |p| && r.st.pos <= |s| && InBounds(r.st, s)
  {
    var State(pos, stack) := st;
    if p[i] == STAR then
      var n := At(p, i + 1);
      if n == STAR || n == OPEN then Halt(-1)
      else if n == 0 || n == BAR || n == CLOSE then Go(i + 1, State(if check then pos else |s|, stack))
      else if n == ANY then Go(i + 1, st)
      else if n == ESC && At(p, i + 2) == 0 then Halt(-1)
      else Go(i + 1, State(if check || i + 1 == |p| then pos else Seek(s, pos, CharAt(p, i + 1)), stack))
    else if p[i] == OPEN then
      if |stack| >= MAX_PAREN then Halt(-1)
      else Go(i + 1, State(pos, stack + [Frame(pos, false, None)]))
    else if p[i] == BAR then
      if stack == [] then Halt(-1)
      else
        var f := EndBranch(Top(stack), pos);
        Go(i + 1, State(if check then pos else f.start, WithTop(stack, f.(failed := false))))
    else if p[i] == CLOSE then
      if stack == [] then Halt(-1)
      else
        var f := EndBranch(Top(stack), pos);
        if !check then CloseGroup(f, Pop(stack), pos, i + 1)
        else if |stack| == 1 || f.success.Some? then Go(i + 1, State(pos, Pop(stack)))
        else Go(i + 1, State(pos, Fail(Pop(stack))))
    else if p[i] == ESC && At(p, i + 1) == 0 then Halt(-1)
    else
      var j := if p[i] == ESC then i + 2 else i + 1;
      if j > |p| then Halt(-1)
      else if check then Go(j, st)
      else if p[i] == ANY then OneChar(pos < |s|, pos, if pos < |s| then Inc(s, pos) else pos, stack, j)
      else
        var b := if p[i] == ESC then p[i + 1] else p[i];
        OneChar(pos < |s| && s[pos] == b, pos, if pos < |s| then pos + 1 else pos, stack, j)
  }

  /** do_match() from pattern position i on. */
  function Run(p: seq<byte>, i: nat, s: seq<byte>, check: bool, st: State): (r: int)
    requires i <= |p| && InBounds(st, s)
    ensures r in {-1, 0, 1}
    decreases |p| - i
  {
    if i == |p| then
      if st.stack != [] then -1 else if check then 1 else if st.pos == |s| then 1 else 0
    else
      var t := Turn(p, i, s, check, st);
      if t.Halt? then t.r else Run(p, t.next, s, check, t.st)
  }

  // ---- validity does not depend on the string ---------------------------------------------------

  /** A check and a match of the same pattern walk it in step: the match can only stop early with 0. */
  lemma {:induction false} Lockstep(p: seq<byte>, i: nat, s: seq<byte>, st: State, s': seq<byte>, st': State)
    requires CString(p) && i <= |p| && InBounds(st, s) && InBounds(st', s') && |st.stack| == |st'.stack|
    ensures Run(p, i, s', true, st') != 0
    ensures Run(p, i, s', true, st') == -1 ==> Run(p, i, s, false, st) != 1
    ensures Run(p, i, s', true, st') == 1 ==> Run(p, i, s, false, st) != -1
    decreases |p| - i
  {
    if i < |p| {
      var t, t' := Turn(p, i, s, false, st), Turn(p, i, s', true, st');
      LockstepTurn(p, i, s, st, s', st');
      if t.Go? {
        hide Turn;
        Lockstep(p, t.next, s, t.st, s', t'.st);
      } else if t'.Go? {
        hide Turn;
        Lockstep(p, t'.next, s', t'.st, s', t'.st);
      }
    }
  }

  lemma {:induction false} LockstepTurn(p: seq<byte>, i: nat, s: seq<byte>, st: State, s': seq<byte>, st': State)
    requires CString(p) && i < |p| && InBounds(st, s) && InBounds(st', s') && |st.stack| == |st'.stack|
    ensures var t, t' := Turn(p, i, s, false, st), Turn(p, i, s', true, st');
            (t.Go? ==> t'.Go? && t.next == t'.next && |t.st.stack| == |t'.st.stack|) &&
            (t.Halt? ==> (t.r == -1 && t' == Halt(-1)) || (t.r == 0 && t'.Go?))
  {
    hide Seek, Inc, CharAt;
  }

  /** A check sees the pattern and the number of open groups, and nothing else. */
  lemma {:induction false} CheckDepth(p: seq<byte>, i: nat, s: seq<byte>, st: State, st': State)
    requires CString(p) && i <= |p| && InBounds(st, s) && InBounds(st', s) && |st.stack| == |st'.stack|
    ensures Run(p, i, s, true, st) == Run(p, i, s, true, st')
    decreases |p| - i
  {
    if i < |p| {
      var t, t' := Turn(p, i, s, true, st), Turn(p, i, s, true, st');
      CheckTurn(p, i, s, st, st');
      hide Turn;
      if t.Go? {
        CheckDepth(p, t.next, s, t.st, t'.st);
      }
    }
  }

  lemma {:induction false} CheckTurn(p: seq<byte>, i: nat, s: seq<byte>, st: State, st': State)
    requires CString(p) && i < |p| && InBounds(st, s) && InBounds(st', s) && |st.stack| == |st'.stack|
    ensures var t, t' := Turn(p, i, s, true, st), Turn(p, i, s, true, st');
            (t.Halt? ==> t' == t) && (t.Go? ==> t'.Go? && t.next == t'.next && |t.st.stack| == |t'.st.stack|)
  {
    hide Seek, Inc, CharAt;
  }

  /** An element that is not a group is malformed in itself, or stretches to NextAt. */
  predicate BadAt(p: seq<byte>, i: nat)
    requires i < |p|
  {
    (p[i] == STAR && (At(p, i + 1) == STAR || At(p, i + 1) == OPEN || (At(p, i + 1) == ESC && i + 2 >= |p|))) ||
    (p[i] == ESC && i + 1 == |p|)
  }

  function NextAt(p: seq<byte>, i: nat): (r: nat)
    requires i < |p|
  {
    if p[i] == ESC then i + 2 else i + 1
  }

  predicate Plain(b: byte)
  {
    b != BAR && b != CLOSE && b != OPEN
  }

  lemma {:induction false} PlainParse(p: seq<byte>, i: nat, depth: nat)
    requires CString(p) && i < |p| && Plain(p[i])
    ensures BadAt(p, i) ==> ParsePat(p, i, depth).Bad?
    ensures !BadAt(p, i) ==>
              NextAt(p, i) <= |p| &&
              var x, y := ParsePat(p, i, depth), ParsePat(p, NextAt(p, i), depth);
              (x.Bad? <==> y.Bad?) && (x.Ok? ==> x.next == y.next)
  {
    hide CharAt, Inc;
  }

  lemma {:induction false} PlainCheck(p: seq<byte>, i: nat, s: seq<byte>, st: State)
    requires CString(p) && i < |p| && Plain(p[i]) && InBounds(st, s)
    ensures Run(p, i, s, true, st) ==
              if BadAt(p, i) || NextAt(p, i) > |p| then -1 else Run(p, NextAt(p, i), s, true, st)
  {
    hide CharAt, Inc, Seek;
  }

  lemma {:induction false} StopParse(p: seq<byte>, i: nat, d: nat)
    requires i <= |p| && (i == |p| || p[i] == BAR || p[i] == CLOSE)
    ensures ParsePat(p, i, d) == Ok(End, i)
  {
  }

  lemma {:induction false} TooDeep(p: seq<byte>, i: nat, s: seq<byte>, st: State)
    requires CString(p) && i < |p| && p[i] == OPEN && |st.stack| >= MAX_PAREN && InBounds(st, s)
    ensures ParsePat(p, i, |st.stack|).Bad? && Run(p, i, s, true, st) == -1
  {
  }

  /** A check over a parsed stretch: -1 if the grammar rejects it, and else on to its end. */
  lemma {:induction false} CheckPat(p: seq<byte>, i: nat, s: seq<byte>, st: State)
    requires CString(p) && i <= |p| && InBounds(st, s)
    ensures var x := ParsePat(p, i, |st.stack|);
            Run(p, i, s, true, st) == if x.Bad? then -1 else Run(p, x.next, s, true, st)
    decreases |p| - i, 0
  {
    hide Turn, ParsePat, ParseAlts, Run, BadAt, NextAt;
    var d := |st.stack|;
    if i == |p| || p[i] == BAR || p[i] == CLOSE {
      StopParse(p, i, d);
    } else if p[i] == OPEN && d < MAX_PAREN {
      GroupParse(p, i, d);
      OpenCheck(p, i, s, st);
      CheckAlts(p, i + 1, s, State(st.pos, st.stack + [Frame(st.pos, false, None)]), st);
      var a := ParseAlts(p, i + 1, d + 1);
      if a.Ok? { CheckPat(p, a.next, s, st); }
    } else if p[i] == OPEN {
      TooDeep(p, i, s, st);
    } else {
      PlainParse(p, i, d);
      PlainCheck(p, i, s, st);
      if !BadAt(p, i) {
        NextForward(p, i);
        CheckPat(p, NextAt(p, i), s, st);
      }
    }
  }

  lemma {:induction false} GroupParse(p: seq<byte>, i: nat, depth: nat)
    requires i < |p| && p[i] == OPEN && depth < MAX_PAREN
    ensures var x, a := ParsePat(p, i, depth), ParseAlts(p, i + 1, depth + 1);
            (a.Bad? ==> x.Bad?) &&
            (a.Ok? ==> var r := ParsePat(p, a.next, depth); (x.Bad? <==> r.Bad?) && (x.Ok? ==> x.next == r.next))
  {
  }

  lemma {:induction false} OpenCheck(p: seq<byte>, i: nat, s: seq<byte>, st: State)
    requires i < |p| && p[i] == OPEN && InBounds(st, s) && |st.stack| < MAX_PAREN
    ensures InBounds(State(st.pos, st.stack + [Frame(st.pos, false, None)]), s)
    ensures Run(p, i, s, true, st) == Run(p, i + 1, s, true, State(st.pos, st.stack + [Frame(st.pos, false, None)]))
  {
  }

  lemma {:induction false} NextForward(p: seq<byte>, i: nat)
    requires i < |p|
    ensures NextAt(p, i) > i
  {
  }

  lemma {:induction false} CheckAlts(p: seq<byte>, i: nat, s: seq<byte>, st: State, out: State)
    requires CString(p) && i <= |p| && InBounds(st, s) && InBounds(out, s) && |st.stack| == |out.stack| + 1
    ensures var a := ParseAlts(p, i, |st.stack|);
            Run(p, i, s, true, st) == if a.Bad? then -1 else Run(p, a.next, s, true, out)
    decreases |p| - i, 1
  {
    hide Turn, ParsePat, Run;
    CheckPat(p, i, s, st);
    var x := ParsePat(p, i, |st.stack|);
    if x.Ok? && x.next < |p| {
      var t := Turn(p, x.next, s, true, st);
      BranchCheck(p, x.next, s, st);
      if p[x.next] == CLOSE {
        CheckDepth(p, x.next + 1, s, t.st, out);
      } else {
        CheckAlts(p, x.next + 1, s, t.st, out);
      }
    } else if x.Ok? {
      RunEnd(p, s, true, st);
    }
  }

  lemma {:induction false} BranchCheck(p: seq<byte>, i: nat, s: seq<byte>, st: State)
    requires i < |p| && (p[i] == BAR || p[i] == CLOSE) && InBounds(st, s) && st.stack != []
    ensures var t := Turn(p, i, s, true, st);
            t.Go? && t.next == i + 1 && Run(p, i, s, true, st) == Run(p, i + 1, s, true, t.st) &&
            |t.st.stack| == if p[i] == BAR then |st.stack| else |st.stack| - 1
  {
  }

  // ---- the flat pass computes the first-match meaning -------------------------------------------

  /** Where one element that is not a group takes the string cursor. */
  function ElemEval(p: seq<byte>, i: nat, s: seq<byte>, pos: nat): (r: Option<nat>)
    requires i < |p| && pos <= |s| && !BadAt(p, i)
    ensures r.Some? ==> pos <= r.value <= |s|
  {
    if p[i] == STAR then
      var n := At(p, i + 1);
      if n == 0 || n == BAR || n == CLOSE then Some(|s|)
      else if n == ANY then Some(pos)
      else Some(Seek(s, pos, if i + 1 < |p| then CharAt(p, i + 1) else []))
    else if p[i] == ANY then (if pos < |s| then Some(Inc(s, pos)) else None)
    else
      var b := if p[i] == ESC then p[i + 1] else p[i];
      if pos < |s| && s[pos] == b then Some(pos + 1) else None
  }

  lemma {:induction false} PlainEval(p: seq<byte>, i: nat, depth: nat, s: seq<byte>, pos: nat)
    requires CString(p) && i < |p| && Plain(p[i]) && pos <= |s| && ParsePat(p, i, depth).Ok?
    ensures !BadAt(p, i) && NextAt(p, i) <= |p| && ParsePat(p, NextAt(p, i), depth).Ok?
    ensures ParsePat(p, i, depth).next == ParsePat(p, NextAt(p, i), depth).next
    ensures var e := ElemEval(p, i, s, pos);
            Eval(ParsePat(p, i, depth).value, s, pos) ==
              if e.None? then None else Eval(ParsePat(p, NextAt(p, i), depth).value, s, e.value)
  {
    PlainParse(p, i, depth);
    hide CharAt, Inc, Seek;
  }

  lemma {:induction false} PlainRun(p: seq<byte>, i: nat, s: seq<byte>, st: State)
    requires CString(p) && i < |p| && Plain(p[i]) && InBounds(st, s) && !BadAt(p, i) && NextAt(p, i) <= |p|
    ensures var e := ElemEval(p, i, s, st.pos);
            Run(p, i, s, false, st) ==
              if e.Some? then Run(p, NextAt(p, i), s, false, State(e.value, st.stack))
              else if st.stack == [] then 0
              else Run(p, NextAt(p, i), s, false, State(st.pos, Fail(st.stack)))
  {
    hide CharAt, Inc, Seek;
  }

  /** Where the pass stands after a stretch that evaluates to e: outside all groups a mismatch has
      ended it; inside one, the mismatch is marked and the cursor is wherever it was (q). */
  ghost predicate Arrives(p: seq<byte>, j: nat, s: seq<byte>, stack: seq<Frame>, e: Option<nat>, q: nat, result: int)
    requires j <= |p| && InBounds(State(q, stack), s)
  {
    if e.Some? then q == e.value && result == Run(p, j, s, false, State(q, stack))
    else if stack == [] then result == 0
    else result == Run(p, j, s, false, State(q, Fail(stack)))
  }

  lemma {:induction false} FailTwice(stack: seq<Frame>)
    requires stack != []
    ensures Fail(Fail(stack)) == Fail(stack)
  {
  }

  lemma {:induction false} RunPat(p: seq<byte>, i: nat, s: seq<byte>, st: State) returns (q: nat)
    requires CString(p) && i <= |p| && InBounds(st, s) && ParsePat(p, i, |st.stack|).Ok?
    ensures q <= |s|
    ensures var x := ParsePat(p, i, |st.stack|);
            Arrives(p, x.next, s, st.stack, Eval(x.value, s, st.pos), q, Run(p, i, s, false, st))
    decreases |p| - i, 1
  {
    var d := |st.stack|;
    q := st.pos;
    if i == |p| || p[i] == BAR || p[i] == CLOSE {
    } else if p[i] == OPEN {
      q := RunGroup(p, i, s, st);
    } else {
      hide ParsePat, Eval, Run, BadAt, NextAt, ElemEval;
      PlainEval(p, i, d, s, st.pos);
      PlainRun(p, i, s, st);
      NextForward(p, i);
      var e := ElemEval(p, i, s, st.pos);
      if e.Some? {
        q := RunPat(p, NextAt(p, i), s, State(e.value, st.stack));
      } else if d > 0 {
        q := RunPat(p, NextAt(p, i), s, State(st.pos, Fail(st.stack)));
        FailTwice(st.stack);
      }
    }
  }

  lemma {:induction false} GroupEval(p: seq<byte>, i: nat, depth: nat, s: seq<byte>, pos: nat)
    requires i < |p| && p[i] == OPEN && pos <= |s| && ParsePat(p, i, depth).Ok?
    ensures depth < MAX_PAREN && ParseAlts(p, i + 1, depth + 1).Ok?
    ensures var a := ParseAlts(p, i + 1, depth + 1);
            ParsePat(p, a.next, depth).Ok? && ParsePat(p, i, depth).next == ParsePat(p, a.next, depth).next &&
            var e := EvalAlts(a.value, s, pos);
            Eval(ParsePat(p, i, depth).value, s, pos) ==
              if e.None? then None else Eval(ParsePat(p, a.next, depth).value, s, e.value)
  {
  }

  lemma {:induction false} OpenRun(p: seq<byte>, i: nat, s: seq<byte>, st: State)
    requires i < |p| && p[i] == OPEN && InBounds(st, s) && |st.stack| < MAX_PAREN
    ensures InBounds(State(st.pos, st.stack + [Frame(st.pos, false, None)]), s)
    ensures Run(p, i, s, false, st) == Run(p, i + 1, s, false, State(st.pos, st.stack + [Frame(st.pos, false, None)]))
  {
  }

  lemma {:induction false} RunGroup(p: seq<byte>, i: nat, s: seq<byte>, st: State) returns (q: nat)
    requires CString(p) && i < |p| && p[i] == OPEN && InBounds(st, s) && ParsePat(p, i, |st.stack|).Ok?
    ensures q <= |s|
    ensures var x := ParsePat(p, i, |st.stack|);
            Arrives(p, x.next, s, st.stack, Eval(x.value, s, st.pos), q, Run(p, i, s, false, st))
    decreases |p| - i, 0
  {
    hide ParsePat, ParseAlts, Eval, EvalAlts, Run;
    var d := |st.stack|;
    GroupEval(p, i, d, s, st.pos);
    OpenRun(p, i, s, st);
    var a := ParseAlts(p, i + 1, d + 1);
    var e := EvalAlts(a.value, s, st.pos);
    q := RunAlts(p, i + 1, s, st.pos, None, st.stack);
    if e.Some? {
      q := RunPat(p, a.next, s, State(e.value, st.stack));
    } else if d > 0 {
      q := RunPat(p, a.next, s, State(q, Fail(st.stack)));
      FailTwice(st.stack);
    }
  }

  lemma {:induction false} AltsEval(p: seq<byte>, i: nat, depth: nat, s: seq<byte>, pos: nat)
    requires i <= |p| && pos <= |s| && ParseAlts(p, i, depth).Ok?
    ensures var x := ParsePat(p, i, depth);
            x.Ok? && x.next < |p| && (p[x.next] == BAR || p[x.next] == CLOSE) &&
            var a, e := ParseAlts(p, i, depth), Eval(x.value, s, pos);
            (p[x.next] == CLOSE ==> a.next == x.next + 1 && EvalAlts(a.value, s, pos) == e) &&
            (p[x.next] == BAR ==>
               var a' := ParseAlts(p, x.next + 1, depth);
               a'.Ok? && a.next == a'.next &&
               EvalAlts(a.value, s, pos) == if e.Some? then e else EvalAlts(a'.value, s, pos))
  {
  }

  /** The branches of a group that was opened at start, when an earlier branch reached success. */
  lemma {:induction false} RunAlts(p: seq<byte>, i: nat, s: seq<byte>, start: nat, success: Option<nat>, outer: seq<Frame>)
    returns (q: nat)
    requires CString(p) && i <= |p| && ParseAlts(p, i, |outer| + 1).Ok?
    requires InBounds(State(start, outer + [Frame(start, false, success)]), s)
    ensures q <= |s| && InBounds(State(q, outer), s)
    ensures var a := ParseAlts(p, i, |outer| + 1);
            Arrives(p, a.next, s, outer, if success.Some? then success else EvalAlts(a.value, s, start), q,
                    Run(p, i, s, false, State(start, outer + [Frame(start, false, success)])))
    decreases |p| - i, 3
  {
    hide ParsePat, ParseAlts, Eval, EvalAlts, Run;
    AltsEval(p, i, |outer| + 1, s, start);
    var x := ParsePat(p, i, |outer| + 1);
    var e := Eval(x.value, s, start);
    var q1, f := RunBranch(p, i, s, start, success, outer);
    if p[x.next] == CLOSE {
      q := CloseRun(p, x.next, s, q1, f, outer);
    } else {
      BarRun(p, x.next, s, q1, f, outer);
      q := RunAlts(p, x.next + 1, s, start, if e.Some? && success.None? then e else success, outer);
    }
  }

  /** One branch, up to the | or ) that ends it. */
  lemma {:induction false} RunBranch(p: seq<byte>, i: nat, s: seq<byte>, start: nat, success: Option<nat>, outer: seq<Frame>)
    returns (q: nat, f: Frame)
    requires CString(p) && i <= |p| && ParsePat(p, i, |outer| + 1).Ok?
    requires InBounds(State(start, outer + [Frame(start, false, success)]), s)
    ensures InBounds(State(q, outer + [f]), s)
    ensures var x := ParsePat(p, i, |outer| + 1);
            var e := Eval(x.value, s, start);
            f == Frame(start, e.None?, success) && (e.Some? ==> q == e.value) &&
            Run(p, i, s, false, State(start, outer + [Frame(start, false, success)])) ==
              Run(p, x.next, s, false, State(q, outer + [f]))
    decreases |p| - i, 2
  {
    hide ParsePat, Eval, Run;
    var stack := outer + [Frame(start, false, success)];
    q := RunPat(p, i, s, State(start, stack));
    var x := ParsePat(p, i, |outer| + 1);
    f := Frame(start, Eval(x.value, s, start).None?, success);
    assert Fail(stack) == outer + [Frame(start, true, success)];
  }

  lemma {:induction false} BarRun(p: seq<byte>, i: nat, s: seq<byte>, pos: nat, f: Frame, outer: seq<Frame>)
    requires i < |p| && p[i] == BAR && InBounds(State(pos, outer + [f]), s)
    ensures var f' := EndBranch(f, pos).(failed := false);
            InBounds(State(f.start, outer + [f']), s) &&
            Run(p, i, s, false, State(pos, outer + [f])) == Run(p, i + 1, s, false, State(f.start, outer + [f']))
  {
    var f' := EndBranch(f, pos).(failed := false);
    assert (outer + [f])[|outer|] == f;
    assert forall k :: 0 <= k < |outer| ==> outer[k] == (outer + [f])[k];
    assert WithTop(outer + [f], f') == outer + [f'];
  }

  lemma {:induction false} CloseRun(p: seq<byte>, i: nat, s: seq<byte>, pos: nat, f: Frame, outer: seq<Frame>) returns (q: nat)
    requires i < |p| && p[i] == CLOSE && InBounds(State(pos, outer + [f]), s)
    ensures q <= |s| && InBounds(State(q, outer), s)
    ensures Arrives(p, i + 1, s, outer, EndBranch(f, pos).success, q, Run(p, i, s, false, State(pos, outer + [f])))
  {
    assert Pop(outer + [f]) == outer && Top(outer + [f]) == f;
    var g := EndBranch(f, pos);
    q := if g.success.Some? then g.success.value else pos;
    assert forall k :: 0 <= k < |outer| ==> outer[k] == (outer + [f])[k];
    assert (outer + [f])[|outer|] == f;
  }

  /** The flat pass accepts exactly the grammar, and on accepted patterns it matches exactly what the
      first-match evaluation of the parsed pattern matches. */
  lemma {:induction false} FlatPassIsFirstMatch(p: seq<byte>, s: seq<byte>)
    requires CString(p)
    ensures Run(p, 0, s, true, State(0, [])) == if Parse(p).Some? then 1 else -1
    ensures Parse(p).Some? ==> Run(p, 0, s, false, State(0, [])) == if Matches(Parse(p).value, s) then 1 else 0
    ensures Parse(p).None? ==> Run(p, 0, s, false, State(0, [])) != 1
  {
    var st := State(0, []);
    CheckPat(p, 0, s, st);
    Lockstep(p, 0, s, st, s, st);
    var x := ParsePat(p, 0, 0);
    if x.Ok? && x.next == |p| {
      var q := RunPat(p, 0, s, st);
    }
  }

  // ---- match.c --------------------------------------------------------------------------------

  /** A * at position i: where it leaves the string cursor, or None for a malformed pattern. */
  method Star(p: seq<byte>, i: nat, s: seq<byte>, pos: nat, check: bool) returns (r: Option<nat>)
    requires CString(p) && CString(s) && i < |p| && p[i] == STAR && pos <= |s|
    ensures r.None? <==> BadAt(p, i)
    ensures !BadAt(p, i) ==> r == if check then Some(pos) else ElemEval(p, i, s, pos)
  {
    var n := At(p, i + 1);
    if n == STAR || n == OPEN {
      return None;
    }
    var q := pos;
    if n == 0 || n == BAR || n == CLOSE {
      if !check {
        q := |s|;
      }
    } else if n == ANY {
    } else {
      if n == ESC && At(p, i + 2) == 0 {
        return None;
      }
      if !check {
        var stop := q == |s|;
        if !stop { stop := Utf8Eq(s, q, p, i + 1); }
        while !stop
          invariant pos <= q <= |s| && Seek(s, q, CharAt(p, i + 1)) == Seek(s, pos, CharAt(p, i + 1))
          invariant stop <==> q == |s| || CharAt(s, q) <= p[i + 1..]
          decreases |s| - q, !stop
        {
          SameStart(s, q, p, i + 1);
          q := Utf8Inc(s, q);
          stop := q == |s|;
          if !stop { stop := Utf8Eq(s, q, p, i + 1); }
        }
        if q < |s| { SameStart(s, q, p, i + 1); }
      }
    }
    return Some(q);
  }

  /** utf8eq() looks no further than the pattern's own character. */
  lemma {:induction false} SameStart(s: seq<byte>, i: nat, p: seq<byte>, j: nat)
    requires i < |s| && j < |p|
    ensures CharAt(s, i) <= p[j..] <==> CharAt(s, i) <= CharAt(p, j)
  {
    var c := CharAt(s, i);
    if c <= p[j..] {
      assert c == p[j..j + |c|] && c[0] == p[j];
      forall k | j + 1 <= k < j + |c| ensures IsCont(p[k]) {
        assert p[k] == c[k - j] == s[i + (k - j)];
      }
      ContReaches(p, j + 1, j + |c|);
    }
  }

  lemma {:induction false} ContReaches(p: seq<byte>, i: nat, m: nat)
    requires i <= m <= |p| && forall k :: i <= k < m ==> IsCont(p[k])
    ensures ContEnd(p, i) >= m
    decreases m - i
  {
    if i < m { ContReaches(p, i + 1, m); }
  }

  /** A ) in do_match(): live is false for a mismatch at an outer-level paren. */
  method CloseParen(parens: array<Frame>, depth: nat, pos: nat, check: bool) returns (live: bool, pos': nat)
    requires 0 < depth <= parens.Length
    modifies parens
    ensures var f := EndBranch(old(parens[depth - 1]), pos);
            live == (check || depth > 1 || f.success.Some?) &&
            pos' == (if !check && f.success.Some? then f.success.value else pos) &&
            parens[..depth - 1] == if depth > 1 && f.success.None? then Fail(old(parens[..depth - 1])) else old(parens[..depth - 1])
  {
    var f := EndBranch(parens[depth - 1], pos);
    live, pos' := true, pos;
    if depth == 1 {
      if !check {
        if f.success.None? {
          return false, pos;
        }
        pos' := f.success.value;
      }
    } else if f.success.Some? {
      if !check {
        pos' := f.success.value;
      }
    } else {
      parens[depth - 2] := parens[depth - 2].(failed := true);
    }
  }

  /** A single character in do_match(): live is false for a mismatch outside all parens. */
  method OneCharacter(parens: array<Frame>, depth: nat, s: seq<byte>, pos: nat, any: bool, b: byte)
    returns (live: bool, pos': nat)
    requires depth <= parens.Length && pos <= |s|
    modifies parens
    ensures var ok := pos < |s| && (any || s[pos] == b);
            live == (ok || depth > 0) &&
            pos' == (if !ok then pos else if any then Inc(s, pos) else pos + 1) &&
            parens[..depth] == if !ok && depth > 0 then Fail(old(parens[..depth])) else old(parens[..depth])
  {
    live, pos' := true, pos;
    if pos < |s| && (any || s[pos] == b) {
      if any {
        pos' := Utf8Inc(s, pos);
      } else {
        pos' := pos + 1;
      }
    } else if depth > 0 {
      parens[depth - 1] := parens[depth - 1].(failed := true);
    } else {
      live := false;
    }
  }

  /** do_match(): one pass over the pattern with at most MAX_PAREN open groups. check stands for the
      special string pointer CHECK. */
  method DoMatch(p: seq<byte>, s: seq<byte>, check: bool) returns (r: int)
    requires CString(p) && CString(s)
    ensures check ==> r == if Parse(p).Some? then 1 else -1
    ensures !check && Parse(p).Some? ==> r == if Matches(Parse(p).value, s) then 1 else 0
    ensures !check && Parse(p).None? ==> r == 0 || r == -1
  {
    hide Parse, Matches, Run, Turn, Seek, Inc, InBounds, Fail, EndBranch, BadAt, ElemEval;
    FlatPassIsFirstMatch(p, s);
    InBoundsStart(s);
    var parens := new Frame[MAX_PAREN](_ => Frame(0, false, None));
    var i: nat, pos: nat, depth: nat := 0, 0, 0;
    while At(p, i) != 0
      invariant i <= |p| && depth <= MAX_PAREN == parens.Length
      invariant pos <= |s| && InBounds(State(pos, parens[..depth]), s)
      invariant Run(p, i, s, check, State(pos, parens[..depth])) == Run(p, 0, s, check, State(0, []))
      decreases |p| - i
    {
      ghost var st := State(pos, parens[..depth]);
      ghost var t := Turn(p, i, s, check, st);
      RunTurn(p, i, s, check, st);
      if p[i] == STAR {
        var q := Star(p, i, s, pos, check);
        StarTurn(p, i, s, check, st);
        if q.None? {
          return -1;
        }
        pos := q.value;
        i := i + 1;
      } else if p[i] == OPEN {
        OpenTurn(p, i, s, check, st);
        if depth >= MAX_PAREN {
          return -1;
        }
        parens[depth] := Frame(pos, false, None);
        depth := depth + 1;
        assert parens[..depth] == st.stack + [Frame(pos, false, None)];
        i := i + 1;
      } else if p[i] == BAR {
        BarTurn(p, i, s, check, st);
        if depth == 0 {
          return -1;
        }
        var f := EndBranch(parens[depth - 1], pos);
        parens[depth - 1] := f.(failed := false);
        assert parens[..depth] == WithTop(st.stack, f.(failed := false));
        if !check {
          pos := f.start;
        }
        i := i + 1;
      } else if p[i] == CLOSE {
        CloseTurn(p, i, s, check, st);
        if depth == 0 {
          return -1;
        }
        assert parens[..depth - 1] == Pop(st.stack);
        var live;
        live, pos := CloseParen(parens, depth, pos, check);
        if !live {
          return 0;
        }
        depth := depth - 1;
        i := i + 1;
      } else {
        CharTurn(p, i, s, check, st);
        var any, b := false, p[i];
        i := i + 1;
        if b == ESC {
          b := At(p, i);
          i := i + 1;
          if b == 0 {
            return -1;
          }
        } else if b == ANY {
          any := true;
        }
        if !check {
          var live;
          live, pos := OneCharacter(parens, depth, s, pos, any, b);
          if !live {
            return 0;
          }
        }
      }
      assert t == Go(i, State(pos, parens[..depth]));
    }
    RunEnd(p, s, check, State(pos, parens[..depth]));
    if depth > 0 {
      return -1;
    }
    if check {
      return 1;
    }
    return if pos == |s| then 1 else 0;
  }

  lemma {:induction false} InBoundsStart(s: seq<byte>)
    ensures InBounds(State(0, []), s)
  {
  }

  lemma {:induction false} RunTurn(p: seq<byte>, i: nat, s: seq<byte>, check: bool, st: State)
    requires i < |p| && InBounds(st, s)
    ensures var t := Turn(p, i, s, check, st);
            Run(p, i, s, check, st) == if t.Halt? then t.r else Run(p, t.next, s, check, t.st)
  {
  }

  lemma {:induction false} RunEnd(p: seq<byte>, s: seq<byte>, check: bool, st: State)
    requires InBounds(st, s)
    ensures Run(p, |p|, s, check, st) ==
              if st.stack != [] then -1 else if check then 1 else if st.pos == |s| then 1 else 0
  {
  }

  lemma {:induction false} StarTurn(p: seq<byte>, i: nat, s: seq<byte>, check: bool, st: State)
    requires CString(p) && i < |p| && p[i] == STAR && InBounds(st, s)
    ensures BadAt(p, i) ==> Turn(p, i, s, check, st) == Halt(-1)
    ensures !BadAt(p, i) ==>
              Turn(p, i, s, check, st) ==
                Go(i + 1, State(if check then st.pos else ElemEval(p, i, s, st.pos).value, st.stack))
  {
  }

  lemma {:induction false} OpenTurn(p: seq<byte>, i: nat, s: seq<byte>, check: bool, st: State)
    requires i < |p| && p[i] == OPEN && InBounds(st, s)
    ensures Turn(p, i, s, check, st) ==
              if |st.stack| >= MAX_PAREN then Halt(-1)
              else Go(i + 1, State(st.pos, st.stack + [Frame(st.pos, false, None)]))
  {
  }

  lemma {:induction false} BarTurn(p: seq<byte>, i: nat, s: seq<byte>, check: bool, st: State)
    requires i < |p| && p[i] == BAR && InBounds(st, s)
    ensures Turn(p, i, s, check, st) ==
              if st.stack == [] then Halt(-1)
              else
                var f := EndBranch(Top(st.stack), st.pos);
                Go(i + 1, State(if check then st.pos else f.start, WithTop(st.stack, f.(failed := false))))
  {
  }

  lemma {:induction false} CloseTurn(p: seq<byte>, i: nat, s: seq<byte>, check: bool, st: State)
    requires i < |p| && p[i] == CLOSE && InBounds(st, s)
    ensures Turn(p, i, s, check, st) ==
              if st.stack == [] then Halt(-1)
              else
                var f := EndBranch(Top(st.stack), st.pos);
                if !check && |st.stack| == 1 && f.success.None? then Halt(0)
                else if f.success.Some? then Go(i + 1, State(if check then st.pos else f.success.value, Pop(st.stack)))
                else if |st.stack| == 1 then Go(i + 1, State(st.pos, []))
                else Go(i + 1, State(st.pos, Fail(Pop(st.stack))))
  {
  }

  lemma {:induction false} CharTurn(p: seq<byte>, i: nat, s: seq<byte>, check: bool, st: State)
    requires CString(p) && i < |p| && Plain(p[i]) && p[i] != STAR && InBounds(st, s)
    ensures p[i] == ESC && i + 1 == |p| ==> Turn(p, i, s, check, st) == Halt(-1)
    ensures !(p[i] == ESC && i + 1 == |p|) ==>
              var j := NextAt(p, i);
              var b := if p[i] == ESC then p[i + 1] else p[i];
              Turn(p, i, s, check, st) ==
                if check then Go(j, st)
                else if p[i] == ANY && st.pos < |s| then Go(j, State(Inc(s, st.pos), st.stack))
                else if p[i] != ANY && st.pos < |s| && s[st.pos] == b then Go(j, State(st.pos + 1, st.stack))
                else if st.stack != [] then Go(j, State(st.pos, Fail(st.stack)))
                else Halt(0)
  {
  }

  /** match() */
  method Match(pattern: seq<byte>, s: seq<byte>) returns (r: int)
    requires CString(pattern) && CString(s)
    ensures r == 1 <==> Hits(pattern, s)
    ensures Parse(pattern).Some? ==> r == 0 || r == 1
    ensures Parse(pattern).None? ==> r == 0 || r == -1
  {
    r := DoMatch(pattern, s, false);
  }

  /** match_isvalid() */
  method IsValid(pattern: seq<byte>) returns (r: bool)
    requires CString(pattern)
    ensures r <==> Parse(pattern).Some?
  {
    var x := DoMatch(pattern, [], true);
    r := x == 1;
  }

  // ---- an escaped character after * -------------------------------------------------------------

  /** The scan for the * of a "*\c" looks for the backslash, not for c; the element then never
      matches, except when c is a backslash itself. */
  lemma {:induction false} StarEscapeFails(c: byte, rest: Pat, s: seq<byte>, pos: nat)
    requires pos <= |s| && c != ESC
    ensures Eval(Upto([ESC], Lit(c, rest)), s, pos) == None
  {
    SeekStops(s, pos, ESC);
  }

  lemma {:induction false} SeekStops(s: seq<byte>, i: nat, b: byte)
    requires i <= |s|
    ensures Seek(s, i, [b]) == |s| || s[Seek(s, i, [b])] == b
    decreases |s| - i
  {
    if i < |s| && !(CharAt(s, i) <= [b]) {
      SeekStops(s, Inc(s, i), b);
    } else if i < |s| {
      assert CharAt(s, i)[0] == s[i];
    }
  }

  /** "*\c" means what PROTOCOL says, up to and including the next c, exactly when c is a backslash. */
  lemma {:induction false} StarEscapeExact(c: byte)
    requires c != 0
    ensures (forall s: seq<byte>, pos: nat, rest: Pat :: pos <= |s| ==>
               Eval(Upto([ESC], Lit(c, rest)), s, pos) == Eval(Upto([c], Lit(c, rest)), s, pos)) <==> c == ESC
  {
    if c != ESC {
      var s := [c];
      StarEscapeFails(c, End, s, 0);
      assert CharAt(s, 0) == [c];
      assert Seek(s, 0, [c]) == 0;
      assert Eval(End, s, 1) == Some(1);
      assert Eval(Lit(c, End), s, 0) == Some(1);
      assert Eval(Upto([c], Lit(c, End)), s, 0) == Some(1);
    }
  }

  /** Wherever "*\c" stands in a pattern, it is read as that element. */
  lemma {:induction false} StarEscapeParses(p: seq<byte>, i: nat, depth: nat)
    requires i + 2 < |p| && p[i] == STAR && p[i + 1] == ESC
    ensures var r := ParsePat(p, i + 3, depth);
            ParsePat(p, i, depth) == if r.Bad? then Bad else Ok(Upto([ESC], Lit(p[i + 2], r.value)), r.next)
  {
    assert CharAt(p, i + 1) == [ESC];
  }

  /** So a valid pattern that begins with "*\c" matches no string at all, unless c is a backslash. */
  lemma {:induction false} StarEscapeNeverMatches(p: seq<byte>, s: seq<byte>)
    requires |p| >= 3 && p[0] == STAR && p[1] == ESC && p[2] != ESC && Parse(p).Some?
    ensures !Matches(Parse(p).value, s)
  {
    StarEscapeParses(p, 0, 0);
    StarEscapeFails(p[2], ParsePat(p, 3, 0).value, s, 0);
  }

  /** The shortest such pattern is valid, and does not match the string "c" that PROTOCOL says it matches. */
  lemma {:induction false} StarEscapeExample(c: byte)
    requires c != 0 && c != ESC
    ensures Parse([STAR, ESC, c]) == Some(Upto([ESC], Lit(c, End))) && !Matches(Parse([STAR, ESC, c]).value, [c])
  {
    var p := [STAR, ESC, c];
    StarEscapeParses(p, 0, 0);
    assert ParsePat(p, 3, 0) == Ok(End, 3);
    StarEscapeNeverMatches(p, [c]);
  }
}
