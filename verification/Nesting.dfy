/** Transactions as clients write them: the depth is counted from BEGIN and COMMIT messages, in runs of any
    number of clients. */
module Nesting {
  import opened Bytes
  import opened Infod
  import opened InfodRuns

  predicate From(e: Event, c: nat)
  {
    e.Input? && e.c == c
  }

  /** How many messages of this kind client c sent. */
  function Count(es: seq<Event>, c: nat, msg: byte): (r: nat)
  {
    if es == [] then 0
    else
      var n := |es| - 1;
      Count(es[..n], c, msg) + if From(es[n], c) && es[n].cmd.msg == msg then 1 else 0
  }

  /** The commands that client c sent, but for BEGIN and COMMIT. */
  function Kept(es: seq<Event>, c: nat): (r: seq<Command>)
  {
    if es == [] then []
    else
      var n := |es| - 1;
      var e := es[n];
      Kept(es[..n], c) + if From(e, c) && e.cmd.msg != CMD_BEGIN && e.cmd.msg != CMD_COMMIT then [e.cmd] else []
  }

  /** After each of its messages, client c has sent more BEGINs than COMMITs. */
  ghost predicate Deep(es: seq<Event>, c: nat)
  {
    forall n :: 0 < n <= |es| && From(es[n - 1], c) ==> Count(es[..n], c, CMD_BEGIN) > Count(es[..n], c, CMD_COMMIT)
  }

  /** Messages that decoders let through, and client c does not close its connection. */
  ghost predicate Stays(es: seq<Event>, c: nat)
  {
    forall k :: 0 <= k < |es| ==> EventOk(es[k]) && (From(es[k], c) ==> es[k].cmd.msg != MSG_EOF)
  }

  /** The transaction of client c is the same in both worlds. */
  ghost predicate SameHold(a: World, b: World, c: nat)
  {
    c in a.clients && c in b.clients && b.clients[c].begins == a.clients[c].begins && b.clients[c].buf == a.clients[c].buf
  }

  lemma {:induction false} DirectHold(w: World, d: nat, cmd: Command, refused: bool, c: nat)
    requires c in w.clients && d in w.clients && c != d
    ensures SameHold(w, Direct(w, d, cmd, refused).w, c)
  {
    hide Act, Notified;
  }

  lemma {:induction false} PlaybackHold(w: World, d: nat, k: nat, refusals: nat -> bool, c: nat)
    requires c in w.clients && d in w.clients && c != d
    ensures SameHold(w, Playback(w, d, k, refusals).w, c)
    decreases |w.clients[d].buf|
  {
    hide Direct;
    if w.clients[d].buf != [] {
      DirectHold(Pop(w, d), d, w.clients[d].buf[0], refusals(k), c);
      var o := Direct(Pop(w, d), d, w.clients[d].buf[0], refusals(k));
      if o.ret > 0 { PlaybackHold(o.w, d, k + 1, refusals, c); }
    }
  }

  /** What others do leaves a client's transaction alone. */
  lemma {:induction false} OthersHold(w: World, e: Event, c: nat)
    requires c in w.clients && !From(e, c)
    ensures SameHold(w, Step(w, e), c)
  {
    hide Direct, Playback;
    if e.Input? && e.c in w.clients {
      var cl := w.clients[e.c];
      DirectHold(w, e.c, e.cmd, e.refusals(0), c);
      if cl.begins > 0 { PlaybackHold(Set(w, e.c, cl.(begins := cl.begins - 1)), e.c, 0, e.refusals, c); }
    }
  }

  lemma {:induction false} FlatFrom(w: World, e: Event, c: nat)
    requires !From(e, c)
    ensures forall k :: 0 <= k < |Flat(w, e)| ==> !From(Flat(w, e)[k], c)
  {
  }

  /** A message of a client that is in a transaction, or enters one, and does not leave it. */
  lemma {:induction false} HeldStep(w: World, e: Event, c: nat)
    requires From(e, c) && c in w.clients && e.cmd.msg != MSG_EOF
    requires e.cmd.msg != CMD_BEGIN ==> w.clients[c].begins > (if e.cmd.msg == CMD_COMMIT then 1 else 0)
    ensures Flat(w, e) == []
    ensures var cl, w' := w.clients[c], Step(w, e);
            c in w'.clients &&
            w'.clients[c].begins == (if e.cmd.msg == CMD_BEGIN then cl.begins + 1 else if e.cmd.msg == CMD_COMMIT then cl.begins - 1 else cl.begins) &&
            w'.clients[c].buf == cl.buf + if e.cmd.msg == CMD_BEGIN || e.cmd.msg == CMD_COMMIT then [] else [e.cmd]
  {
    hide Playback, Played, Subscribe, Unsubscribe, Read, Write, Refuse;
  }

  lemma {:induction false} FlattenSnoc(w: World, a: seq<Event>, e: Event)
    ensures Flatten(w, a + [e]) == Flatten(w, a) + Flat(Run(w, a), e)
    decreases |a|
  {
    hide Flat, Step;
    if a == [] {
      assert a + [e] == [e] && [e][1..] == [];
      assert Flat(w, e) + [] == [] + Flat(w, e);
    } else {
      assert (a + [e])[0] == a[0] && (a + [e])[1..] == a[1..] + [e];
      FlattenSnoc(Step(w, a[0]), a[1..], e);
      Associates(Flat(w, a[0]), Flatten(Step(w, a[0]), a[1..]), Flat(Run(w, a), e));
    }
  }

  lemma {:induction false} RunSnoc(w: World, es: seq<Event>)
    requires es != []
    ensures Run(w, es) == Step(Run(w, es[..|es| - 1]), es[|es| - 1])
  {
    hide Step, Run;
    var n := |es| - 1;
    assert es == es[..n] + [es[n]];
    RunSplit(w, es[..n], [es[n]]);
    RunOne(Run(w, es[..n]), es[n]);
  }

  /** What a client is in the middle of, as its messages say it. */
  ghost predicate Holds(w: World, es: seq<Event>, c: nat)
  {
    c in w.clients &&
    w.clients[c].begins == Count(es, c, CMD_BEGIN) - Count(es, c, CMD_COMMIT) && w.clients[c].buf == Kept(es, c)
  }

  lemma {:induction false} DeepPrefix(es: seq<Event>, c: nat, n: nat)
    requires Deep(es, c) && Stays(es, c) && n <= |es|
    ensures Deep(es[..n], c) && Stays(es[..n], c)
  {
    hide Count, EventOk;
    forall k | 0 < k <= n && From(es[..n][k - 1], c) ensures Count(es[..n][..k], c, CMD_BEGIN) > Count(es[..n][..k], c, CMD_COMMIT) {
      assert es[..n][..k] == es[..k];
    }
  }

  /** While a client has sent more BEGINs than COMMITs, its depth is the difference, its buffer is what it
      sent besides, and none of it has been carried out; whatever others do. */
  lemma {:induction false} DepthIsCounted(w: World, es: seq<Event>, c: nat)
    requires c in w.clients && w.clients[c].begins == 0 && w.clients[c].buf == [] && Deep(es, c) && Stays(es, c)
    ensures Holds(Run(w, es), es, c)
    ensures forall k :: 0 <= k < |Flatten(w, es)| ==> !From(Flatten(w, es)[k], c)
    decreases |es|
  {
    hide Step, Flat, EventOk;
    if es != [] {
      hide Flatten, Run;
      var n := |es| - 1;
      var e, u := es[n], Run(w, es[..n]);
      DeepPrefix(es, c, n);
      DepthIsCounted(w, es[..n], c);
      RunSnoc(w, es);
      FlattenSnoc(w, es[..n], e);
      assert es == es[..n] + [e] && es[..|es|] == es;
      if From(e, c) { HeldStep(u, e, c); } else { OthersHold(u, e, c); FlatFrom(u, e, c); }
    }
  }

  /** Nothing that a client sends before its outermost COMMIT can be seen. */
  lemma {:induction false} NestedSilent(w: World, es: seq<Event>, c: nat)
    requires Ok(w) && c in w.clients && w.clients[c].begins == 0 && Deep(es, c) && Stays(es, c)
    requires forall k :: 0 <= k < |es| ==> From(es[k], c)
    ensures Erase(Run(w, es)) == Erase(w)
  {
    hide Erase, Run, Step, Flat, StoreOk, Count;
    assert ClientOk(w.clients[c]);
    DepthIsCounted(w, es, c);
    TransactionsFlatten(w, es);
    SomeFlat(w, es, c);
    assert Run(Erase(w), []) == Erase(w) by { RunNothing(Erase(w)); }
  }

  lemma {:induction false} RunNothing(w: World)
    ensures Run(w, []) == w
  {
  }

  /** Only those who send commands have any carried out. */
  lemma {:induction false} OnlyFlat(w: World, es: seq<Event>, c: nat)
    requires forall k :: 0 <= k < |es| ==> From(es[k], c)
    ensures forall k :: 0 <= k < |Flatten(w, es)| ==> From(Flatten(w, es)[k], c)
    decreases |es|
  {
    hide Step;
    if es != [] { OnlyFlat(Step(w, es[0]), es[1..], c); }
  }

  lemma {:induction false} SomeFlat(w: World, es: seq<Event>, c: nat)
    requires forall k :: 0 <= k < |es| ==> From(es[k], c)
    ensures Flatten(w, es) == [] || exists k :: 0 <= k < |Flatten(w, es)| && From(Flatten(w, es)[k], c)
  {
    hide Flatten;
    OnlyFlat(w, es, c);
    if Flatten(w, es) != [] { assert From(Flatten(w, es)[0], c); }
  }

  /** The outermost COMMIT carries out all that its client sent since the outermost BEGIN, in that order and
      without interruption; whatever others did meanwhile. */
  lemma {:induction false} CommitPlays(w: World, es: seq<Event>, commit: Event, c: nat)
    requires Ok(w) && c in w.clients && w.clients[c].begins == 0 && Deep(es, c) && Stays(es, c)
    requires Count(es, c, CMD_BEGIN) == Count(es, c, CMD_COMMIT) + 1
    requires From(commit, c) && commit.cmd.msg == CMD_COMMIT && EventOk(commit)
    ensures Flatten(w, es + [commit]) == Flatten(w, es) + Played(c, Kept(es, c), 0, commit.refusals)
    ensures forall k :: 0 <= k < |Flatten(w, es)| ==> !From(Flatten(w, es)[k], c)
    ensures Erase(Run(w, es + [commit])) == Run(Erase(Run(w, es)), Played(c, Kept(es, c), 0, commit.refusals))
  {
    hide Erase, Run, Step, Flatten, StoreOk, Count, Played, Kept;
    assert ClientOk(w.clients[c]);
    DepthIsCounted(w, es, c);
    FlattenSnoc(w, es, commit);
    RunOk(w, es);
    StepFlat(Run(w, es), commit);
    assert (es + [commit])[..|es|] == es;
    RunSnoc(w, es + [commit]);
  }

  /** A client's commands in any balanced nesting of BEGIN and COMMIT are its commands without them. */
  lemma {:induction false} BracketIsCommands(w: World, es: seq<Event>, commit: Event, c: nat)
    requires Ok(w) && c in w.clients && w.clients[c].begins == 0 && Deep(es, c) && Stays(es, c)
    requires Count(es, c, CMD_BEGIN) == Count(es, c, CMD_COMMIT) + 1
    requires forall k :: 0 <= k < |es| ==> From(es[k], c)
    requires From(commit, c) && commit.cmd.msg == CMD_COMMIT && EventOk(commit)
    ensures Erase(Run(w, es + [commit])) == Run(Erase(w), Played(c, Kept(es, c), 0, commit.refusals))
  {
    hide Erase, Run, Step, StoreOk, Count, Played, Kept, Deep, Stays;
    CommitPlays(w, es, commit, c);
    NestedSilent(w, es, c);
  }
}
